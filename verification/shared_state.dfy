/** The shared device state `GlobalState` of src/main.py (term/planty.py holds an
    identical copy). The Python object guards every call with one lock, so each
    call to `update` or `get_state` is one atomic step; here each is a pure
    transition on an immutable record. */
module SharedState {
  import opened Wrappers

  /** A `time.time()` reading, supplied by the caller instead of read from a clock. */
  type Clock = real

  /** Sensor name to reading. */
  type Sensors = map<string, int>

  const SensorKeys: set<string> := {"humidity", "temperature", "light", "nutrients"}

  datatype State = State(
    expression: string,
    action: string,
    isSpeaking: bool,
    sensors: Sensors,
    lastUpdate: Clock)

  /** The keyword arguments of `update`: `None` is an argument left at its default
      of Python's None (or passed as None, which `update` treats the same way). */
  datatype Request = Request(
    expression: Option<string>,
    action: Option<string>,
    isSpeaking: Option<bool>,
    sensors: Option<Sensors>)

  /** `update()` with every argument left out. */
  const NoChange: Request := Request(None, None, None, None)

  /** Every field but the timestamp agrees. */
  predicate SameFields(s: State, t: State) {
    s.(lastUpdate := t.lastUpdate) == t
  }

  /** `GlobalState()`: the state the process starts with. */
  function Init(clock: Clock): (s: State)
    ensures s.expression == "neutral" && s.action == "idle" && !s.isSpeaking
    ensures s.sensors.Keys == SensorKeys
    ensures forall k :: k in s.sensors ==> s.sensors[k] == 0
    ensures s.lastUpdate == clock
  {
    State("neutral", "idle", false,
          map["humidity" := 0, "temperature" := 0, "light" := 0, "nutrients" := 0],
          clock)
  }

  /** `GlobalState.update`: every field whose argument is given is replaced, the
      given sensor readings are merged into the current ones, and the timestamp
      becomes `clock` whatever the arguments. */
  function Update(s: State, req: Request, clock: Clock): (t: State)
    ensures req.expression.Some? ==> t.expression == req.expression.value
    ensures req.expression.None? ==> t.expression == s.expression
    ensures req.action.Some? ==> t.action == req.action.value
    ensures req.action.None? ==> t.action == s.action
    ensures req.isSpeaking.Some? ==> t.isSpeaking == req.isSpeaking.value
    ensures req.isSpeaking.None? ==> t.isSpeaking == s.isSpeaking
    ensures req.sensors.None? ==> t.sensors == s.sensors
    ensures req.sensors.Some? ==> t.sensors.Keys == s.sensors.Keys + req.sensors.value.Keys
    ensures req.sensors.Some? ==> forall k :: k in req.sensors.value ==> t.sensors[k] == req.sensors.value[k]
    ensures forall k :: k in s.sensors && (req.sensors.None? || k !in req.sensors.value) ==> t.sensors[k] == s.sensors[k]
    ensures t.lastUpdate == clock
  {
    State(
      req.expression.GetOr(s.expression),
      req.action.GetOr(s.action),
      req.isSpeaking.GetOr(s.isSpeaking),
      if req.sensors.Some? then s.sensors + req.sensors.value else s.sensors,
      clock)
  }

  /** An `update()` with no arguments only moves the timestamp. */
  lemma UpdateNothing(s: State, clock: Clock)
    ensures Update(s, NoChange, clock) == s.(lastUpdate := clock)
  {
  }

  /** `update` never removes a sensor key. */
  lemma UpdateKeepsSensorKeys(s: State, req: Request, clock: Clock)
    ensures s.sensors.Keys <= Update(s, req, clock).sensors.Keys
  {
  }

  /** Two updates in a row act as one update carrying the later value of every
      field and both sensor maps merged in order. */
  function Then(first: Request, second: Request): (r: Request)
  {
    Request(
      if second.expression.Some? then second.expression else first.expression,
      if second.action.Some? then second.action else first.action,
      if second.isSpeaking.Some? then second.isSpeaking else first.isSpeaking,
      match (first.sensors, second.sensors)
      case (Some(a), Some(b)) => Some(a + b)
      case (Some(a), None) => Some(a)
      case (None, b) => b)
  }

  lemma {:induction false} UpdateThen(s: State, first: Request, second: Request, c1: Clock, c2: Clock)
    ensures Update(Update(s, first, c1), second, c2) == Update(s, Then(first, second), c2)
  {
    if first.sensors.Some? && second.sensors.Some? {
      var a, b := first.sensors.value, second.sensors.value;
      assert (s.sensors + a) + b == s.sensors + (a + b);
    }
  }

  /** Applying the same update twice leaves the state as applying it once, but
      for the timestamp of the second call. */
  lemma {:induction false} UpdateIdempotent(s: State, req: Request, c1: Clock, c2: Clock)
    ensures Update(Update(s, req, c1), req, c2) == Update(s, req, c2)
  {
    UpdateThen(s, req, req, c1, c2);
    if req.sensors.Some? {
      var m := req.sensors.value;
      assert m + m == m;
    }
    assert Then(req, req) == req;
  }

  /** A sensor-only update and an update that leaves the sensors alone commute:
      the two writers of the state touch disjoint fields, so the order in which
      their calls reach the lock changes nothing but the final timestamp. */
  lemma DisjointUpdatesCommute(s: State, readings: Sensors, req: Request, c1: Clock, c2: Clock)
    requires req.sensors.None?
    ensures var sampled := Request(None, None, None, Some(readings));
            SameFields(Update(Update(s, sampled, c1), req, c2), Update(Update(s, req, c2), sampled, c1))
  {
  }

  /** A value of the dictionary `get_state` returns. */
  datatype Value = Text(text: string) | Flag(flag: bool) | Readings(readings: Sensors) | Stamp(stamp: Clock)

  /** `GlobalState.get_state`: the five fields under their Python names. */
  function GetState(s: State): (snap: map<string, Value>)
    ensures snap.Keys == {"expression", "action", "is_speaking", "sensors", "last_update"}
    ensures snap["expression"] == Text(s.expression) && snap["action"] == Text(s.action)
    ensures snap["is_speaking"] == Flag(s.isSpeaking) && snap["sensors"] == Readings(s.sensors)
    ensures snap["last_update"] == Stamp(s.lastUpdate)
  {
    map[
      "expression" := Text(s.expression),
      "action" := Text(s.action),
      "is_speaking" := Flag(s.isSpeaking),
      "sensors" := Readings(s.sensors),
      "last_update" := Stamp(s.lastUpdate)]
  }

  /** Reads a state back out of a `get_state` dictionary; None when a key is
      missing or holds a value of the wrong kind. */
  function FromSnapshot(snap: map<string, Value>): (r: Option<State>)
  {
    if && "expression" in snap && snap["expression"].Text?
       && "action" in snap && snap["action"].Text?
       && "is_speaking" in snap && snap["is_speaking"].Flag?
       && "sensors" in snap && snap["sensors"].Readings?
       && "last_update" in snap && snap["last_update"].Stamp?
    then Some(State(snap["expression"].text, snap["action"].text, snap["is_speaking"].flag,
                    snap["sensors"].readings, snap["last_update"].stamp))
    else None
  }

  /** A snapshot holds the whole state and nothing else: the state can be read
      back from it, so two different states never give the same snapshot. */
  lemma SnapshotRoundTrip(s: State)
    ensures FromSnapshot(GetState(s)) == Some(s)
  {
  }

  lemma SnapshotInjective(s: State, t: State)
    requires GetState(s) == GetState(t)
    ensures s == t
  {
    SnapshotRoundTrip(s);
    SnapshotRoundTrip(t);
  }
}
