/** The sensor sampler of src/circuit_controller.py: while running, each
    cycle reads four sensors and merges the readings into the shared state. */
module SensorSampler {
  import opened Wrappers
  import opened SharedState

  // The sensor reads are fixed values until real sensors are attached.
  const Humidity: int := 60
  const Temperature: int := 25
  const Light: int := 1000
  const Nutrients: int := 70

  /** The readings one cycle publishes. */
  const Readings: Sensors := map["humidity" := Humidity, "temperature" := Temperature,
                                 "light" := Light, "nutrients" := Nutrients]

  /** The single update request of a cycle: sensors only. */
  const Sample: Request := Request(None, None, None, Some(Readings))

  datatype Sampler = Sampler(running: bool, state: State)

  /** What happens next to the sampler: a pass of the loop, in which reading
      or publishing raised when `fault` holds, or a call of `stop`. */
  datatype Event = Cycle(fault: bool, clock: Clock) | Stop

  /** A fresh `CircuitController(state)`: running. */
  function Start(s: State): (m: Sampler)
    ensures m.running && m.state == s
  {
    Sampler(true, s)
  }

  /** One event. A cycle only runs while `running` holds; a cycle that raises
      is caught and leaves the state as it was; `stop` clears `running`. */
  function Step(m: Sampler, ev: Event): (n: Sampler)
    ensures n.running <==> m.running && ev.Cycle?
    ensures ev.Stop? || !m.running || ev.fault ==> n.state == m.state
    ensures ev.Cycle? && m.running && !ev.fault ==>
              && n.state.expression == m.state.expression && n.state.action == m.state.action
              && n.state.isSpeaking == m.state.isSpeaking
              && n.state.sensors.Keys == m.state.sensors.Keys + SensorKeys
              && (forall k :: k in SensorKeys ==> n.state.sensors[k] == Readings[k])
              && (forall k :: k in m.state.sensors && k !in SensorKeys ==> n.state.sensors[k] == m.state.sensors[k])
              && n.state.lastUpdate == ev.clock
  {
    match ev
    case Stop => m.(running := false)
    case Cycle(fault, clock) =>
      if !m.running || fault then m
      else m.(state := Update(m.state, Sample, clock))
  }

  /** The `while self.running` loop over the events. It is still running
      exactly when it was running and no `stop` came; once stopped, nothing
      changes: no later cycle begins. */
  function Run(m: Sampler, events: seq<Event>): (n: Sampler)
    ensures n.running <==> m.running && Stop !in events
    ensures !m.running ==> n == m
    decreases |events|
  {
    if events == [] then m else Run(Step(m, events[0]), events[1..])
  }

  lemma {:induction false} RunSnoc(m: Sampler, events: seq<Event>, ev: Event)
    ensures Run(m, events + [ev]) == Step(Run(m, events), ev)
    decreases |events|
  {
    if events != [] {
      assert (events + [ev])[0] == events[0];
      assert (events + [ev])[1..] == events[1..] + [ev];
      RunSnoc(Step(m, events[0]), events[1..], ev);
    } else {
      assert ([] + [ev])[1..] == [];
    }
  }

  /** Whether some cycle among `events` publishes readings: one that does not
      raise and comes before any `stop`. */
  predicate Publishes(running: bool, events: seq<Event>)
    decreases |events|
  {
    events != [] &&
    match events[0]
    case Stop => false
    case Cycle(fault, _) => (running && !fault) || Publishes(running, events[1..])
  }

  /** The sampler never changes the face, the action or the speaking flag, and
      never removes a sensor key; once it has published, the four readings
      hold their constant values. */
  lemma {:induction false} RunKeepsFaceAndKeys(m: Sampler, events: seq<Event>)
    ensures var n := Run(m, events);
            && n.state.expression == m.state.expression && n.state.action == m.state.action
            && n.state.isSpeaking == m.state.isSpeaking
            && m.state.sensors.Keys <= n.state.sensors.Keys
            && (Publishes(m.running, events) ==>
                  SensorKeys <= n.state.sensors.Keys
                  && forall k :: k in SensorKeys ==> n.state.sensors[k] == Readings[k])
            && (!Publishes(m.running, events) ==> n.state.sensors == m.state.sensors)
    decreases |events|
  {
    if events != [] {
      var m1 := Step(m, events[0]);
      RunKeepsFaceAndKeys(m1, events[1..]);
      if events[0].Cycle? && m.running && !events[0].fault {
        PublishedStays(m1, events[1..]);
      }
    }
  }

  /** Readings once published stay published: later cycles write the same
      values. */
  lemma {:induction false} PublishedStays(m: Sampler, events: seq<Event>)
    requires SensorKeys <= m.state.sensors.Keys
    requires forall k :: k in SensorKeys ==> m.state.sensors[k] == Readings[k]
    ensures var n := Run(m, events);
            SensorKeys <= n.state.sensors.Keys && forall k :: k in SensorKeys ==> n.state.sensors[k] == Readings[k]
    decreases |events|
  {
    if events != [] {
      PublishedStays(Step(m, events[0]), events[1..]);
    }
  }

  /** From the initial state, once a cycle has published, the sensors are
      exactly the four readings. */
  lemma FromInitSensorsAreReadings(clock: Clock, events: seq<Event>)
    requires Publishes(true, events)
    ensures Run(Start(Init(clock)), events).state.sensors == Readings
  {
    var n := Run(Start(Init(clock)), events);
    RunKeepsFaceAndKeys(Start(Init(clock)), events);
    assert n.state.sensors.Keys == SensorKeys by {
      RunKeysBounded(Start(Init(clock)), events);
    }
  }

  /** The sampler adds no sensor keys besides its own four. */
  lemma {:induction false} RunKeysBounded(m: Sampler, events: seq<Event>)
    ensures Run(m, events).state.sensors.Keys <= m.state.sensors.Keys + SensorKeys
    decreases |events|
  {
    if events != [] {
      RunKeysBounded(Step(m, events[0]), events[1..]);
    }
  }

  /** The loop of `run`, fed the events one at a time. */
  method RunLoop(m: Sampler, events: seq<Event>) returns (n: Sampler)
    ensures n == Run(m, events)
    ensures !n.running <==> !m.running || Stop in events
  {
    n := m;
    var i := 0;
    while i < |events|
      invariant 0 <= i <= |events|
      invariant n == Run(m, events[..i])
    {
      RunSnoc(m, events[..i], events[i]);
      assert events[..i + 1] == events[..i] + [events[i]];
      n := Step(n, events[i]);
      i := i + 1;
    }
    assert events[..i] == events;
  }
}
