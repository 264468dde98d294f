/** The listening loop of the older terminal program, term/planty.py: wake
    keyword detection in the transcription, command extraction, the reply
    generator and the two state updates around speaking. */
module VoiceCommand {
  import opened Wrappers
  import opened Text
  import SharedState
  import opened BracketReply

  /** The wake keywords, in the order they are tried. */
  const Keywords: seq<string> := ["플랜티", "planty"]

  /** Whether the transcription, lower-cased, contains a wake keyword: the
      `any(...)` test. It holds exactly when the loop over the keywords that
      follows finds one. */
  function Triggered(transcript: string): (b: bool)
    ensures b <==> FirstKeyword(Lower(transcript), 0).Some?
  {
    Contains(Lower(transcript), "플랜티") || Contains(Lower(transcript), "planty")
  }

  /** The position in `Keywords`, from `from` on, of the first keyword that
      `text` contains. */
  function FirstKeyword(text: string, from: nat): (r: Option<nat>)
    requires from <= |Keywords|
    ensures r.Some? ==> from <= r.value < |Keywords| && Contains(text, Keywords[r.value])
    ensures r.Some? ==> forall k :: from <= k < r.value ==> !Contains(text, Keywords[k])
    ensures r.None? ==> forall k :: from <= k < |Keywords| ==> !Contains(text, Keywords[k])
    decreases |Keywords| - from
  {
    if from == |Keywords| then None
    else if Contains(text, Keywords[from]) then Some(from)
    else FirstKeyword(text, from + 1)
  }

  /** The command of a transcription: lower-cased, the last piece of a split
      at the first keyword (in list order) that occurs, stripped. None when no
      keyword occurs. */
  function ExtractCommand(transcript: string): (r: Option<string>)
    ensures r.Some? <==> Triggered(transcript)
    ensures r.Some? ==> Trimmed(r.value)
  {
    var text := Lower(transcript);
    match FirstKeyword(text, 0)
    case None => None
    case Some(k) => Some(Strip(text[LastCut(text, Keywords[k], 0)..]))
  }

  /** Detection ignores case: a transcript triggers exactly when its
      lower-cased form does, and yields the same command. */
  lemma TriggerIgnoresCase(transcript: string)
    ensures Triggered(Lower(transcript)) <==> Triggered(transcript)
    ensures ExtractCommand(Lower(transcript)) == ExtractCommand(transcript)
  {
    LowerIdempotent(transcript);
  }

  /** Whatever surrounds it, "PLANTY" in capitals wakes the device. */
  lemma {:induction false} CapitalKeywordTriggers(p: string, q: string)
    ensures Triggered(p + "PLANTY" + q)
  {
    var t := Lower(p + "PLANTY" + q);
    LowerAppend(p + "PLANTY", q);
    LowerAppend(p, "PLANTY");
    assert Lower("PLANTY") == "planty";
    assert t[|p|..|p| + 6] == "planty";
    assert OccursAt(t, "planty", |p|);
  }

  lemma KeywordHeadsDoNotRecur(k: nat)
    requires k < |Keywords|
    ensures |Keywords[k]| > 0 && Keywords[k][0] !in Keywords[k][1..]
  {
    if k == 0 {
      assert Keywords[0][1..] == "랜티";
    } else {
      assert Keywords[1][1..] == "lanty";
    }
  }

  /** The command is what follows the last occurrence of the chosen keyword,
      and the keyword chosen is the first in list order that occurs. */
  lemma CommandFollowsLastKeyword(transcript: string, k: nat)
    requires FirstKeyword(Lower(transcript), 0) == Some(k)
    ensures var text, w := Lower(transcript), Keywords[k];
            var c := LastCut(text, w, 0);
            && |w| <= c && OccursAt(text, w, c - |w|)
            && (forall j :: OccursAt(text, w, j) ==> j <= c - |w|)
            && ExtractCommand(transcript) == Some(Strip(text[c..]))
            && (k == 1 ==> !Contains(text, Keywords[0]))
  {
    var text := Lower(transcript);
    assert ExtractCommand(transcript) == Some(Strip(text[LastCut(text, Keywords[k], 0)..]));
    LastKeywordOccurrence(text, k);
  }

  lemma LastKeywordOccurrence(text: string, k: nat)
    requires k < |Keywords| && Contains(text, Keywords[k])
    ensures var w := Keywords[k];
            var c := LastCut(text, w, 0);
            && |w| <= c && OccursAt(text, w, c - |w|)
            && (forall j :: OccursAt(text, w, j) ==> j <= c - |w|)
  {
    var w := Keywords[k];
    var c := LastCut(text, w, 0);
    KeywordHeadsDoNotRecur(k);
    LastOccurrence(text, w, FindFrom(text, w, 0).value);
    forall j | OccursAt(text, w, j) ensures j <= c - |w| {
      LastOccurrence(text, w, j);
    }
  }

  // The reply generator, `generate_response`.

  datatype Error = KeyError(key: string)

  /** The sensor fields the prompt template names, in the order `format` reads
      them. */
  const PromptFields: seq<string> := ["humidity", "temperature", "light_level", "nutrient_level"]

  /** The same template naming the keys the state actually holds. */
  const SensorFields: seq<string> := ["humidity", "temperature", "light", "nutrients"]

  /** The first of `fields` that `sensors` lacks. */
  function FirstMissing(fields: seq<string>, sensors: SharedState.Sensors): (r: Option<string>)
    ensures r.None? <==> forall i :: 0 <= i < |fields| ==> fields[i] in sensors
    ensures r.Some? ==> r.value in fields && r.value !in sensors
    ensures r.Some? ==> exists i :: 0 <= i < |fields| && fields[i] == r.value
                          && forall j :: 0 <= j < i ==> fields[j] in sensors
    decreases |fields|
  {
    if fields == [] then None
    else if fields[0] !in sensors then Some(fields[0])
    else
      var r := FirstMissing(fields[1..], sensors);
      assert forall i :: 1 <= i < |fields| ==> fields[i] == fields[1..][i - 1];
      if r.Some? then
        ghost var i :| 0 <= i < |fields[1..]| && fields[1..][i] == r.value
                       && forall j :: 0 <= j < i ==> fields[1..][j] in sensors;
        assert fields[i + 1] == r.value;
        r
      else r
  }

  /** `generate_response` with a prompt template naming `fields`: the template
      is filled in first, outside the `try`, so a missing key raises out of
      it; then the generator's reply, or the fallback text when it raised. */
  function GenerateWith(fields: seq<string>, sensors: SharedState.Sensors, generated: Option<string>): (r: Result<string, Error>)
    ensures r.Failure? <==> exists i :: 0 <= i < |fields| && fields[i] !in sensors
    ensures r.Success? && generated.None? ==> ParseBracketReply(r.value) == ("neutral", "idle")
  {
    match FirstMissing(fields, sensors)
    case Some(key) => Failure(KeyError(key))
    case None =>
      if generated.Some? then Success(generated.value)
      else
        FallbackIsNeutralIdle();
        Success(GenerateFallback)
  }

  /** As written: the template asks for `light_level` and `nutrient_level`,
      keys the state never holds. With the state's sensor keys it always
      raises KeyError('light_level'), before the generator is ever called. */
  function GenerateResponseAsWritten(sensors: SharedState.Sensors, generated: Option<string>): (r: Result<string, Error>)
    ensures sensors.Keys == SharedState.SensorKeys ==> r == Failure(KeyError("light_level"))
  {
    assert PromptFields[0] in SharedState.SensorKeys && PromptFields[1] in SharedState.SensorKeys;
    assert PromptFields[2] !in SharedState.SensorKeys;
    GenerateWith(PromptFields, sensors, generated)
  }

  /** As intended: the template names the state's own keys. With those keys
      present it never raises: the reply is the generator's, or the fallback,
      which reads neutral and idle. */
  function GenerateResponse(sensors: SharedState.Sensors, generated: Option<string>): (r: Result<string, Error>)
    ensures SharedState.SensorKeys <= sensors.Keys ==> r == Success(generated.GetOr(GenerateFallback))
  {
    assert forall i :: 0 <= i < |SensorFields| ==> SensorFields[i] in SharedState.SensorKeys;
    GenerateWith(SensorFields, sensors, generated)
  }

  // One pass of `_process_audio`'s loop.

  /** `_update_state(expression, action, speaking)`: the state then shows the
      face and the speaking flag, with its sensors unchanged. */
  function Publish(face: (string, string), speaking: bool): (req: SharedState.Request)
    ensures forall s: SharedState.State, c: SharedState.Clock :: SharedState.Update(s, req, c)
              == s.(expression := face.0, action := face.1, isSpeaking := speaking, lastUpdate := c)
  {
    SharedState.Request(Some(face.0), Some(face.1), Some(speaking), None)
  }

  /** A keyword was heard and followed by a non-empty command. */
  predicate Commanded(transcript: Option<string>) {
    transcript.Some? && ExtractCommand(transcript.value).Some? && ExtractCommand(transcript.value).value != ""
  }

  /** The update requests one pass makes, given what `generate_response`
      gives: `transcript` is None when no audio was queued. The reply is only
      asked for once a command is found; an exception inside the pass is
      caught and the loop goes on, so it is the error with no requests. */
  function TurnWith(reply: Result<string, Error>, transcript: Option<string>): (r: Result<seq<SharedState.Request>, Error>)
    ensures r.Failure? <==> Commanded(transcript) && reply.Failure?
    ensures r.Failure? ==> r.error == reply.error
    ensures r == Success([]) <==> !Commanded(transcript)
    ensures r.Success? && r.value != [] ==>
              var face := ParseBracketReply(reply.value);
              r.value == [Publish(face, true), Publish(face, false)]
  {
    if transcript.None? then Success([])
    else match ExtractCommand(transcript.value)
      case None => Success([])
      case Some(command) =>
        if command == "" then Success([])
        else match reply
          case Failure(e) => Failure(e)
          case Success(response) =>
            var face := ParseBracketReply(response);
            Success([Publish(face, true), Publish(face, false)])
  }

  /** As written, with the state's sensor keys, no pass ever requests an
      update: a command raises KeyError while the prompt is built, and
      everything else requests nothing. */
  function TurnAsWritten(sensors: SharedState.Sensors, transcript: Option<string>, generated: Option<string>): (r: Result<seq<SharedState.Request>, Error>)
    ensures sensors.Keys == SharedState.SensorKeys ==>
              && (r == Success([]) || r == Failure(KeyError("light_level")))
              && (r.Failure? <==> Commanded(transcript))
  {
    TurnWith(GenerateResponseAsWritten(sensors, generated), transcript)
  }

  /** With the corrected template, a pass requests nothing unless a keyword
      is followed by a non-empty command; then it publishes the reply's
      expression and action with speaking on, then the same with speaking off. */
  function Turn(sensors: SharedState.Sensors, transcript: Option<string>, generated: Option<string>): (r: Result<seq<SharedState.Request>, Error>)
    ensures SharedState.SensorKeys <= sensors.Keys ==>
              && r.Success?
              && (r.value == [] <==> !Commanded(transcript))
              && (var face := ParseBracketReply(generated.GetOr(GenerateFallback));
                  r.value != [] ==> r.value == [Publish(face, true), Publish(face, false)])
  {
    TurnWith(GenerateResponse(sensors, generated), transcript)
  }

  /** The state after a speaking pass shows the reply's expression and action,
      is no longer speaking, and keeps its sensors. */
  lemma TurnLeavesFace(s: SharedState.State, transcript: Option<string>, generated: Option<string>, c1: SharedState.Clock, c2: SharedState.Clock)
    requires SharedState.SensorKeys <= s.sensors.Keys
    requires Turn(s.sensors, transcript, generated) != Success([])
    ensures var reqs := Turn(s.sensors, transcript, generated).value;
            var t := SharedState.Update(SharedState.Update(s, reqs[0], c1), reqs[1], c2);
            var face := ParseBracketReply(generated.GetOr(GenerateFallback));
            t.expression == face.0 && t.action == face.1 && !t.isSpeaking && t.sensors == s.sensors
  {
  }
}
