/** The wake-word controller of src/ai_controller.py: the detector's verdict,
    the recognised transcript and the generator's reply are inputs, and a
    conversational turn is the list of `state.update(...)` calls it makes. */
module TurnController {
  import opened Wrappers
  import opened SharedState
  import opened ReplyTags

  /** One call of `state.update(...)` with the keyword arguments it passes;
      `isListening` is the `is_listening=` argument, None when not passed. */
  datatype Call = Call(req: Request, isListening: Option<bool>)

  const ListenOn: Call := Call(NoChange, Some(true))
  const ListenOff: Call := Call(NoChange, Some(false))

  /** The truth value Python gives the transcript: None and "" are false. */
  predicate Heard(transcript: Option<string>) {
    transcript.Some? && transcript.value != ""
  }

  /** The face `_handle_keyword_detected` publishes for a generator outcome. */
  function TurnExpression(sensors: Sensors, generated: Option<string>): (e: string)
    ensures FromName(e).Some?
  {
    ParseResponse(GptResponse(sensors, generated)).0
  }

  /** The calls `_handle_keyword_detected` makes, in order, when none of them
      raises: listening on; with a transcript, the face and speaking on, then
      speaking off; listening off in the `finally` block. `sensors` are the
      readings the prompt quotes. */
  function TurnCalls(sensors: Sensors, transcript: Option<string>, generated: Option<string>): (calls: seq<Call>)
    ensures |calls| >= 2 && calls[0] == ListenOn && calls[|calls| - 1] == ListenOff
    ensures |calls| == 2 <==> !Heard(transcript)
    ensures Heard(transcript) ==> |calls| == 4
  {
    if Heard(transcript) then SpeakingTurn(TurnExpression(sensors, generated))
    else [ListenOn, ListenOff]
  }

  function SpeakingTurn(face: string): seq<Call> {
    [ListenOn,
     Call(Request(Some(face), None, Some(true), None), None),
     Call(Request(None, None, Some(false), None), None),
     ListenOff]
  }

  /** Only the first and last calls pass `is_listening`; no call passes an
      action or sensor readings; only the second call sets the face, to the
      reply's tag, and speaking is switched on by the second call alone. With
      a transcript, the second call shows the face while speaking and the
      third stops speaking. */
  lemma TurnShape(sensors: Sensors, transcript: Option<string>, generated: Option<string>)
    ensures var calls := TurnCalls(sensors, transcript, generated);
            Heard(transcript) ==>
              && calls[1].req == Request(Some(TurnExpression(sensors, generated)), None, Some(true), None)
              && calls[2].req == Request(None, None, Some(false), None)
    ensures var calls := TurnCalls(sensors, transcript, generated);
            && (forall i :: 0 < i < |calls| - 1 ==> calls[i].isListening.None?)
            && (forall i :: 0 <= i < |calls| ==> calls[i].req.action.None? && calls[i].req.sensors.None?)
            && (forall i :: 0 <= i < |calls| && calls[i].req.expression.Some? ==>
                  i == 1 && calls[i].req.expression.value == TurnExpression(sensors, generated))
            && (forall i :: 0 <= i < |calls| && calls[i].req.isSpeaking.Some? ==>
                  (calls[i].req.isSpeaking.value <==> i == 1))
  {
    if Heard(transcript) {
      SpeakingTurnShape(TurnExpression(sensors, generated));
    } else {
      assert TurnCalls(sensors, transcript, generated) == [ListenOn, ListenOff];
    }
  }

  lemma SpeakingTurnShape(face: string)
    ensures var calls := SpeakingTurn(face);
            && calls[1].req == Request(Some(face), None, Some(true), None)
            && calls[2].req == Request(None, None, Some(false), None)
    ensures var calls := SpeakingTurn(face);
            && (forall i :: 0 < i < |calls| - 1 ==> calls[i].isListening.None?)
            && (forall i :: 0 <= i < |calls| ==> calls[i].req.action.None? && calls[i].req.sensors.None?)
            && (forall i :: 0 <= i < |calls| && calls[i].req.expression.Some? ==>
                  i == 1 && calls[i].req.expression.value == face)
            && (forall i :: 0 <= i < |calls| && calls[i].req.isSpeaking.Some? ==>
                  (calls[i].req.isSpeaking.value <==> i == 1))
  {
  }

  /** The words the synthesiser is given: `_process_gpt_response` speaks the
      reply without its end tag. */
  function Spoken(sensors: Sensors, generated: Option<string>): (text: string)
    ensures generated.None? ==> text == GptFallbackText
  {
    SplitTag(GptResponse(sensors, generated)).1
  }

  // As written: src/main.py's `GlobalState.update` takes no `is_listening`.

  datatype Error = TypeError(keyword: string) | ValueError

  /** A call as src/main.py's `update` receives it: an unexpected keyword
      argument raises before the body runs, so the state is untouched. */
  function CallAsWritten(s: State, call: Call, clock: Clock): (r: Result<State, Error>)
    ensures r.Failure? <==> call.isListening.Some?
    ensures r.Failure? ==> r.error == TypeError("is_listening")
  {
    if call.isListening.Some? then Failure(TypeError("is_listening"))
    else Success(Update(s, call.req, clock))
  }

  /** The calls of a `try` block, stopping at the first that raises: the state
      reached and the error, if any. */
  function CallsAsWritten(s: State, calls: seq<Call>, clock: Clock): (r: (State, Option<Error>))
    ensures calls != [] && calls[0].isListening.Some? ==> r == (s, Some(TypeError("is_listening")))
    ensures (forall i :: 0 <= i < |calls| ==> calls[i].isListening.None?) ==> r.1.None?
    decreases |calls|
  {
    if calls == [] then (s, None)
    else match CallAsWritten(s, calls[0], clock)
      case Failure(e) => (s, Some(e))
      case Success(t) => CallsAsWritten(t, calls[1..], clock)
  }

  /** How `_handle_keyword_detected` ends: it returns, or an exception leaves it. */
  datatype Outcome = Returned(state: State) | Raised(state: State, error: Error)

  /** `_handle_keyword_detected` against src/main.py's `update`: the body's
      calls run until one raises, `except` swallows that, and the `finally`
      call runs whatever happened. Every turn, heard or not, therefore raises
      out of it: the first call fails with a TypeError that `except`
      swallows, and the `finally` call fails again, with the state never
      changed. */
  function HandleKeywordAsWritten(s: State, transcript: Option<string>, generated: Option<string>, clock: Clock): (o: Outcome)
    ensures o == Raised(s, TypeError("is_listening"))
  {
    var calls := TurnCalls(s.sensors, transcript, generated);
    assert calls[..|calls| - 1][0] == ListenOn;
    var (t, _) := CallsAsWritten(s, calls[..|calls| - 1], clock);
    match CallAsWritten(t, ListenOff, clock)
    case Success(u) => Returned(u)
    case Failure(e) => Raised(t, e)
  }

  /** One detector frame and what the collaborators return if a turn starts
      on it: `keywordIndex` is `porcupine.process`'s result. */
  datatype Frame = Frame(keywordIndex: int, transcript: Option<string>, generated: Option<string>, clock: Clock)

  predicate Detected(f: Frame) {
    f.keywordIndex >= 0
  }

  /** Where `run` stands after the frames: the state, how many frames it read,
      and whether the loop is still running. */
  datatype Progress = Progress(state: State, read: nat, running: bool)

  /** `run` as written: a turn starts on every detection; an exception leaving
      a turn ends the loop, and `finally` calls `stop`. */
  function RunAsWritten(s: State, frames: seq<Frame>): (p: Progress)
    ensures p.read <= |frames|
    decreases |frames|
  {
    if frames == [] then Progress(s, 0, true)
    else if !Detected(frames[0]) then
      var p := RunAsWritten(s, frames[1..]);
      p.(read := p.read + 1)
    else
      // A turn never returns normally (`HandleKeywordAsWritten`), so the
      // loop cannot go on past a detection.
      match HandleKeywordAsWritten(s, frames[0].transcript, frames[0].generated, frames[0].clock)
      case Raised(t, _) => Progress(t, 1, false)
  }

  /** As written, the controller stops at its first wake word without ever
      changing the state; with no wake word it reads every frame. */
  lemma {:induction false} RunAsWrittenStopsAtFirstWakeWord(s: State, frames: seq<Frame>)
    ensures RunAsWritten(s, frames).state == s
    ensures RunAsWritten(s, frames).running <==> forall i :: 0 <= i < |frames| ==> !Detected(frames[i])
    ensures !RunAsWritten(s, frames).running ==>
              var n := RunAsWritten(s, frames).read;
              0 < n && Detected(frames[n - 1]) && forall i :: 0 <= i < n - 1 ==> !Detected(frames[i])
    ensures RunAsWritten(s, frames).running ==> RunAsWritten(s, frames).read == |frames|
    decreases |frames|
  {
    if frames != [] {
      if !Detected(frames[0]) {
        RunAsWrittenStopsAtFirstWakeWord(s, frames[1..]);
        assert forall i :: 1 <= i < |frames| ==> frames[i] == frames[1..][i - 1];
      }
    }
  }

  // Corrected: a device state that also records whether it is listening.

  datatype Device = Device(shared: State, listening: bool)

  /** `update` with an `is_listening` parameter beside the others. Where the
      as-written call does not raise, it does the same to the shared state and
      leaves the listening flag alone; where that call raised, it makes the
      update and records the flag. */
  function Apply(d: Device, call: Call, clock: Clock): (e: Device)
    ensures CallAsWritten(d.shared, call, clock).Success? ==>
              e == Device(CallAsWritten(d.shared, call, clock).value, d.listening)
    ensures CallAsWritten(d.shared, call, clock).Failure? ==>
              e.listening == call.isListening.value && e.shared == Update(d.shared, call.req, clock)
  {
    Device(Update(d.shared, call.req, clock), call.isListening.GetOr(d.listening))
  }

  function Replay(d: Device, calls: seq<Call>, clock: Clock): Device
    decreases |calls|
  {
    if calls == [] then d else Replay(Apply(d, calls[0], clock), calls[1..], clock)
  }

  lemma ReplayTwo(d: Device, calls: seq<Call>, clock: Clock)
    requires |calls| == 2
    ensures Replay(d, calls, clock) == Apply(Apply(d, calls[0], clock), calls[1], clock)
  {
    var d1 := Apply(d, calls[0], clock);
    assert Replay(d1, calls[1..], clock) == Replay(Apply(d1, calls[1], clock), calls[1..][1..], clock);
    assert calls[1..][1..] == [];
  }

  lemma ReplayFour(d: Device, calls: seq<Call>, clock: Clock)
    requires |calls| == 4
    ensures Replay(d, calls, clock)
         == Apply(Apply(Apply(Apply(d, calls[0], clock), calls[1], clock), calls[2], clock), calls[3], clock)
  {
    var d2 := Apply(Apply(d, calls[0], clock), calls[1], clock);
    assert Replay(d, calls, clock) == Replay(d2, calls[2..], clock) by {
      assert calls[1..][1..] == calls[2..];
    }
    ReplayTwo(d2, calls[2..], clock);
  }

  /** `_handle_keyword_detected` against the corrected `update`, all its calls
      stamped with `clock`. A turn ends not listening, and one that starts
      not speaking ends not speaking. It never touches the action or the
      sensors; with a transcript it shows the reply's face, and without one it
      changes nothing but the timestamp. */
  function HandleKeyword(d: Device, transcript: Option<string>, generated: Option<string>, clock: Clock): (e: Device)
    ensures !e.listening
    ensures !d.shared.isSpeaking ==> !e.shared.isSpeaking
    ensures e.shared.action == d.shared.action && e.shared.sensors == d.shared.sensors
    ensures e.shared.lastUpdate == clock
    ensures Heard(transcript) ==> e.shared.expression == TurnExpression(d.shared.sensors, generated)
    ensures !Heard(transcript) ==> SameFields(e.shared, d.shared)
  {
    var calls := TurnCalls(d.shared.sensors, transcript, generated);
    if Heard(transcript) then
      ReplayFour(d, calls, clock);
      Replay(d, calls, clock)
    else
      ReplayTwo(d, calls, clock);
      Replay(d, calls, clock)
  }

  /** While the reply is being spoken the device is still listening: the two
      flags are both set after the second call of a turn with a transcript. */
  lemma SpeakingWhileListening(d: Device, transcript: Option<string>, generated: Option<string>, clock: Clock)
    requires Heard(transcript)
    ensures var calls := TurnCalls(d.shared.sensors, transcript, generated);
            var e := Replay(d, calls[..2], clock);
            e.listening && e.shared.isSpeaking
  {
    var calls := TurnCalls(d.shared.sensors, transcript, generated);
    ReplayTwo(d, calls[..2], clock);
  }

  /** `run` with the corrected `update`: a turn on every detected frame, one
      after another. Between turns a device that started idle is idle again,
      and no turn touches the sensors or the action. */
  function Run(d: Device, frames: seq<Frame>): (e: Device)
    ensures e.shared.sensors == d.shared.sensors && e.shared.action == d.shared.action
    ensures !d.listening && !d.shared.isSpeaking ==> !e.listening && !e.shared.isSpeaking
    decreases |frames|
  {
    if frames == [] then d
    else
      var f := frames[0];
      var e := if Detected(f) then HandleKeyword(d, f.transcript, f.generated, f.clock) else d;
      Run(e, frames[1..])
  }

  /** The calls `run` makes over the frames. */
  function RunCalls(d: Device, frames: seq<Frame>): seq<Call>
    decreases |frames|
  {
    if frames == [] then []
    else
      var f := frames[0];
      if Detected(f) then
        TurnCalls(d.shared.sensors, f.transcript, f.generated)
          + RunCalls(HandleKeyword(d, f.transcript, f.generated, f.clock), frames[1..])
      else RunCalls(d, frames[1..])
  }

  function Detections(frames: seq<Frame>): nat
    decreases |frames|
  {
    if frames == [] then 0 else (if Detected(frames[0]) then 1 else 0) + Detections(frames[1..])
  }

  /** The `is_listening` arguments of the calls, in order. */
  function ListeningFlags(calls: seq<Call>): seq<bool>
    decreases |calls|
  {
    if calls == [] then []
    else (if calls[0].isListening.Some? then [calls[0].isListening.value] else [])
         + ListeningFlags(calls[1..])
  }

  /** `n` turns' worth of listening on, listening off. */
  function OnOff(n: nat): (flags: seq<bool>)
    ensures |flags| == 2 * n
    ensures forall i :: 0 <= i < |flags| ==> (flags[i] <==> i % 2 == 0)
  {
    if n == 0 then [] else [true, false] + OnOff(n - 1)
  }

  lemma {:induction false} ListeningFlagsAppend(a: seq<Call>, b: seq<Call>)
    ensures ListeningFlags(a + b) == ListeningFlags(a) + ListeningFlags(b)
    decreases |a|
  {
    if a != [] {
      var head := if a[0].isListening.Some? then [a[0].isListening.value] else [];
      assert (a + b)[0] == a[0];
      assert (a + b)[1..] == a[1..] + b;
      assert ListeningFlags(a + b) == head + ListeningFlags(a[1..] + b);
      ListeningFlagsAppend(a[1..], b);
      assert ListeningFlags(a) == head + ListeningFlags(a[1..]);
    } else {
      assert a + b == b;
    }
  }

  lemma TurnListeningFlags(sensors: Sensors, transcript: Option<string>, generated: Option<string>)
    ensures ListeningFlags(TurnCalls(sensors, transcript, generated)) == [true, false]
  {
    var calls := TurnCalls(sensors, transcript, generated);
    var last := calls[|calls| - 1..];
    assert ListeningFlags(last) == [false] by {
      assert last[1..] == [];
    }
    if Heard(transcript) {
      assert ListeningFlags(calls[2..]) == [false] by {
        assert calls[2..][1..] == last;
      }
      assert ListeningFlags(calls[1..]) == [false] by {
        assert calls[1..][1..] == calls[2..];
      }
    } else {
      assert calls[1..] == last;
    }
  }

  /** Turns start exactly on the detected frames and never overlap: the
      listening flags `run` requests alternate on, off, once per detection. */
  lemma {:induction false} TurnsTakeTurns(d: Device, frames: seq<Frame>)
    ensures ListeningFlags(RunCalls(d, frames)) == OnOff(Detections(frames))
    decreases |frames|
  {
    if frames != [] {
      var f := frames[0];
      if Detected(f) {
        var e := HandleKeyword(d, f.transcript, f.generated, f.clock);
        ListeningFlagsAppend(TurnCalls(d.shared.sensors, f.transcript, f.generated), RunCalls(e, frames[1..]));
        TurnListeningFlags(d.shared.sensors, f.transcript, f.generated);
        TurnsTakeTurns(e, frames[1..]);
      } else {
        TurnsTakeTurns(d, frames[1..]);
      }
    }
  }

  /** `_is_silence`: whether every sample is below `threshold` (300 by
      default). `max` of an empty buffer raises ValueError. */
  method IsSilence(audio: seq<int>, threshold: int := 300) returns (r: Result<bool, Error>)
    ensures r.Failure? <==> |audio| == 0
    ensures r.Failure? ==> r.error == ValueError
    ensures r.Success? ==> (r.value <==> forall i :: 0 <= i < |audio| ==> audio[i] < threshold)
  {
    if |audio| == 0 {
      return Failure(ValueError);
    }
    var loudest := audio[0];
    var i := 1;
    while i < |audio|
      invariant 1 <= i <= |audio|
      invariant forall k :: 0 <= k < i ==> audio[k] <= loudest
      invariant exists k :: 0 <= k < i && audio[k] == loudest
    {
      if audio[i] > loudest {
        loudest := audio[i];
      }
      i := i + 1;
    }
    return Success(loudest < threshold);
  }
}
