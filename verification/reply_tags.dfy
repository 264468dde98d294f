/** The two readings src/ai_controller.py makes of a generated reply: the emotion
    search of `_parse_response` and the end-anchored tag/text split at the head
    of `_process_gpt_response`. */
module ReplyTags {
  import opened Wrappers
  import opened Text
  import SharedState

  /** The six expressions the regular expression of `_parse_response` accepts. */
  datatype Emotion = Happy | Worried | Sleepy | Excited | Thinking | Neutral

  function Name(e: Emotion): string {
    match e
    case Happy => "happy"
    case Worried => "worried"
    case Sleepy => "sleepy"
    case Excited => "excited"
    case Thinking => "thinking"
    case Neutral => "neutral"
  }

  /** The alternatives of `(happy|worried|sleepy|excited|thinking|neutral)`, in the
      order the regular expression tries them. */
  const Alternatives: seq<Emotion> := [Happy, Worried, Sleepy, Excited, Thinking, Neutral]

  lemma EveryEmotionIsAnAlternative(e: Emotion)
    ensures e in Alternatives
  {
  }

  /** The expression named `s`, if it is one of the six. */
  function FromName(s: string): (r: Option<Emotion>)
    ensures r.Some? ==> Name(r.value) == s
    ensures r.None? ==> forall e: Emotion :: Name(e) != s
  {
    if s == "happy" then Some(Happy)
    else if s == "worried" then Some(Worried)
    else if s == "sleepy" then Some(Sleepy)
    else if s == "excited" then Some(Excited)
    else if s == "thinking" then Some(Thinking)
    else if s == "neutral" then Some(Neutral)
    else None
  }

  /** Names and expressions are in one-to-one correspondence. */
  lemma NameRoundTrip(e: Emotion)
    ensures FromName(Name(e)) == Some(e)
  {
  }

  /** The bracketed tag for `e`, as it appears in a reply. */
  function Tag(e: Emotion): string {
    "[" + Name(e) + "]"
  }

  /** The in-set tag for `e` occurs in `s` at index `i`. */
  predicate TagAt(s: string, i: int, e: Emotion) {
    OccursAt(s, Tag(e), i)
  }

  /** At most one of the six tags starts at any index: the names begin with
      six different letters. */
  lemma TagAtUnique(s: string, i: int, e1: Emotion, e2: Emotion)
    requires TagAt(s, i, e1) && TagAt(s, i, e2)
    ensures e1 == e2
  {
    assert s[i + 1] == Tag(e1)[1] == Name(e1)[0];
    assert s[i + 1] == Tag(e2)[1] == Name(e2)[0];
  }

  ghost predicate LeftmostTag(s: string, i: int, e: Emotion) {
    TagAt(s, i, e) && forall j, e' :: 0 <= j < i ==> !TagAt(s, j, e')
  }

  ghost predicate Untagged(s: string) {
    forall j, e :: !TagAt(s, j, e)
  }

  /** The regular-expression alternation tried at index `i`: the first of `alts`
      whose tag occurs there. */
  function MatchAt(s: string, i: nat, alts: seq<Emotion>): (r: Option<Emotion>)
    ensures r.Some? ==> r.value in alts && TagAt(s, i, r.value)
    ensures r.None? ==> forall e :: e in alts ==> !TagAt(s, i, e)
  {
    if |alts| == 0 then None
    else if OccursAt(s, Tag(alts[0]), i) then Some(alts[0])
    else MatchAt(s, i, alts[1..])
  }

  lemma NoAlternativeNoTag(s: string, i: nat)
    requires MatchAt(s, i, Alternatives).None?
    ensures forall e :: !TagAt(s, i, e)
  {
    forall e ensures !TagAt(s, i, e) {
      EveryEmotionIsAnAlternative(e);
    }
  }

  /** `re.search` from index `i`: the leftmost index at which some tag occurs,
      with that tag. */
  function SearchFrom(s: string, i: nat): (r: Option<(nat, Emotion)>)
    ensures r.Some? ==> i <= r.value.0 && TagAt(s, r.value.0, r.value.1)
    ensures r.Some? ==> forall j, e :: i <= j < r.value.0 ==> !TagAt(s, j, e)
    ensures r.None? ==> forall j, e :: i <= j ==> !TagAt(s, j, e)
    decreases |s| - i
  {
    if i >= |s| then None
    else match MatchAt(s, i, Alternatives)
      case Some(e) => Some((i, e))
      case None =>
        NoAlternativeNoTag(s, i);
        SearchFrom(s, i + 1)
  }

  /** `AIController._parse_response`: the expression of the leftmost in-set tag
      anywhere in the reply, or "neutral"; the action slot is always None. The
      `except` branch is unreachable for a string argument. */
  function ParseResponse(response: string): (r: (string, Option<string>))
    ensures r.1.None?
    ensures FromName(r.0).Some?
  {
    match SearchFrom(response, 0)
    case Some((_, e)) =>
      NameRoundTrip(e);
      (Name(e), None)
    case None => ("neutral", None)
  }

  /** `_parse_response` names `e` exactly when the leftmost in-set tag of the
      reply is `e`'s, or when `e` is neutral and no in-set tag occurs at all;
      out-of-set tags such as `[sad]` are passed over. */
  lemma ParseResponseSpec(s: string, e: Emotion)
    ensures ParseResponse(s).0 == Name(e) <==>
            (exists i :: LeftmostTag(s, i, e)) || (e == Neutral && Untagged(s))
  {
    NameRoundTrip(e);
    match SearchFrom(s, 0)
    case Some((i, e0)) =>
      NameRoundTrip(e0);
      assert LeftmostTag(s, i, e0);
      if i' :| LeftmostTag(s, i', e) {
        assert !(i' < i);
        assert !(i < i');
        TagAtUnique(s, i, e, e0);
      }
    case None =>
  }

  /** The sentence of the reply `_get_gpt_response` substitutes when building
      the prompt or calling the generator raises ... */
  const GptFallbackText: string := "죄송합니다. 지금은 대화하기 어려운 것 같아요."

  /** ... and the reply itself, tagged neutral. */
  const GptFallback: string := GptFallbackText + " [" + "neutral" + "]"

  /** `_get_gpt_response` with the generator as an input: None stands for a
      call that raised. A missing sensor key raises while the prompt is being
      built, inside the same `try`, and also yields the fallback; the prompt
      quotes exactly the state's four sensor keys. */
  function GptResponse(sensors: map<string, int>, generated: Option<string>): (r: string)
    ensures generated.Some? && SharedState.SensorKeys <= sensors.Keys ==> r == generated.value
    ensures generated.None? || !(SharedState.SensorKeys <= sensors.Keys) ==>
              ParseResponse(r).0 == "neutral" && SplitTag(r) == ("neutral", GptFallbackText)
  {
    if generated.Some? && SharedState.SensorKeys <= sensors.Keys then generated.value
    else
      FallbackIsNeutral();
      FallbackSplit();
      GptFallback
  }

  /** An in-set tag with no `[` before it is the one `_parse_response` reports. */
  lemma {:induction false} FirstTagWins(p: string, e: Emotion, rest: string)
    requires '[' !in p
    ensures ParseResponse(p + Tag(e) + rest).0 == Name(e)
  {
    var s := p + Tag(e) + rest;
    assert s[|p|..|p| + |Tag(e)|] == Tag(e);
    forall j, e' | 0 <= j < |p| ensures !TagAt(s, j, e') {
      assert s[j] == p[j];
    }
    assert LeftmostTag(s, |p|, e);
    ParseResponseSpec(s, e);
  }

  lemma FallbackIsNeutral()
    ensures ParseResponse(GptFallback).0 == "neutral"
  {
    var p := GptFallbackText + " ";
    assert GptFallback == p + Tag(Neutral) + "";
    assert '[' !in GptFallbackText;
    FirstTagWins(p, Neutral, "");
  }

  /** The fallback speaks its sentence and shows the neutral face. */
  lemma FallbackSplit()
    ensures SplitTag(GptFallback) == ("neutral", GptFallbackText)
  {
    assert '[' !in GptFallbackText;
    assert !IsSpace(GptFallbackText[0]) && !IsSpace(GptFallbackText[|GptFallbackText| - 1]);
    TrailingTagReply(GptFallbackText, "neutral");
  }

  // The end-anchored split `re.search(r'\[(.*?)\]$', response)`.

  /** `$` without MULTILINE holds at the end of the text and just before a
      newline that ends it. */
  predicate EndAnchor(s: string, j: int) {
    j == |s| || (j == |s| - 1 && 0 <= j && s[j] == '\n')
  }

  /** `\[(.*?)\]$` matches with its `[` at index `i` and its `]` at index `j`:
      `.` does not match a newline. */
  predicate TagEndsAt(s: string, i: int, j: int) {
    0 <= i < j < |s| && s[i] == '[' && s[j] == ']' && EndAnchor(s, j + 1) && OneLine(s, i + 1, j)
  }

  /** No newline in `s[a..b]`. */
  predicate OneLine(s: string, a: int, b: int)
    requires 0 <= a <= b <= |s|
  {
    forall k | a <= k < b :: s[k] != '\n'
  }

  /** The one index where `\]$` can match. */
  function ClosingBracket(s: string): (r: Option<nat>)
    ensures forall j :: 0 <= j < |s| ==> (s[j] == ']' && EndAnchor(s, j + 1) <==> r == Some(j))
    ensures r.Some? ==> r.value < |s|
  {
    if |s| >= 1 && s[|s| - 1] == ']' then Some(|s| - 1)
    else if |s| >= 2 && s[|s| - 1] == '\n' && s[|s| - 2] == ']' then Some(|s| - 2)
    else None
  }

  /** The leftmost `[` in `s[from..j]` with no newline between it and index `j`. */
  function OpenBracket(s: string, from: nat, j: nat): (r: Option<nat>)
    requires from <= j < |s|
    ensures r.Some? ==> from <= r.value < j && s[r.value] == '[' && OneLine(s, r.value + 1, j)
    ensures forall i :: from <= i < j && (r.None? || i < r.value) ==> !(s[i] == '[' && OneLine(s, i + 1, j))
    decreases j - from
  {
    if from == j then None
    else if s[from] == '[' && OneLine(s, from + 1, j) then Some(from)
    else OpenBracket(s, from + 1, j)
  }

  /** Where `\[(.*?)\]$` matches, with `re.search`'s leftmost-start semantics. */
  function TagSpan(s: string): (r: Option<(nat, nat)>)
    ensures r.Some? ==> TagEndsAt(s, r.value.0, r.value.1)
    ensures r.Some? ==> forall i, j :: 0 <= i < r.value.0 ==> !TagEndsAt(s, i, j)
    ensures r.None? ==> forall i, j :: !TagEndsAt(s, i, j)
  {
    match ClosingBracket(s)
    case None => None
    case Some(j) =>
      match OpenBracket(s, 0, j)
      case None => None
      case Some(i) => Some((i, j))
  }

  /** The tag/text split of `_process_gpt_response`: with a match, the group and
      the stripped text before the match; without one, "neutral" and the whole
      reply. */
  function SplitTag(response: string): (r: (string, string))
    ensures (forall i, j :: !TagEndsAt(response, i, j)) ==> r == ("neutral", response)
  {
    match TagSpan(response)
    case Some((i, j)) => (response[i + 1..j], Strip(response[..i]))
    case None => ("neutral", response)
  }

  /** No `[` of `prefix` shares a line with the end of `prefix`. */
  ghost predicate NoOpenOnLastLine(prefix: string) {
    forall k :: 0 <= k < |prefix| && prefix[k] == '[' ==> exists m :: k < m < |prefix| && prefix[m] == '\n'
  }

  /** A reply written as text, `[`, a one-line tag, `]` and an optional final
      newline, where the `[` is the first on its line, splits into exactly that
      tag and the stripped text. */
  lemma SplitTagSpec(prefix: string, tag: string, end: string)
    requires end == "" || end == "\n"
    requires forall k :: 0 <= k < |tag| ==> tag[k] != '\n'
    requires NoOpenOnLastLine(prefix)
    ensures SplitTag(prefix + "[" + tag + "]" + end) == (tag, Strip(prefix))
  {
    var s := prefix + "[" + tag + "]" + end;
    TaggedReplySpan(prefix, tag, end);
    assert s[..|prefix|] == prefix;
    assert s[|prefix| + 1..|prefix| + |tag| + 1] == tag;
  }

  lemma TaggedReplySpan(prefix: string, tag: string, end: string)
    requires end == "" || end == "\n"
    requires forall k :: 0 <= k < |tag| ==> tag[k] != '\n'
    requires NoOpenOnLastLine(prefix)
    ensures TagSpan(prefix + "[" + tag + "]" + end) == Some((|prefix|, |prefix| + |tag| + 1))
  {
    var s := prefix + "[" + tag + "]" + end;
    var i, j := |prefix|, |prefix| + |tag| + 1;
    TaggedReplyMatches(prefix, tag, end);
    TaggedReplyLeftmost(prefix, tag, end);
    var r := TagSpan(s);
    assert r.value.0 == i;
    assert r.value.1 == j by {
      assert s[r.value.1] == ']' && EndAnchor(s, r.value.1 + 1);
    }
  }

  lemma TaggedReplyMatches(prefix: string, tag: string, end: string)
    requires end == "" || end == "\n"
    requires forall k :: 0 <= k < |tag| ==> tag[k] != '\n'
    ensures var s := prefix + "[" + tag + "]" + end;
            TagEndsAt(s, |prefix|, |prefix| + |tag| + 1) && s[|prefix| + 1..|prefix| + |tag| + 1] == tag
  {
    var s := prefix + "[" + tag + "]" + end;
    assert s[|prefix| + 1..|prefix| + |tag| + 1] == tag;
  }

  lemma TaggedReplyLeftmost(prefix: string, tag: string, end: string)
    requires end == "" || end == "\n"
    requires NoOpenOnLastLine(prefix)
    ensures var s := prefix + "[" + tag + "]" + end;
            forall k, j :: 0 <= k < |prefix| ==> !TagEndsAt(s, k, j)
  {
    var s := prefix + "[" + tag + "]" + end;
    forall k, j | 0 <= k < |prefix| ensures !TagEndsAt(s, k, j) {
      if k < j < |s| && s[k] == '[' && s[j] == ']' && EndAnchor(s, j + 1) {
        assert j == |prefix| + |tag| + 1 by {
          assert s[|prefix| + |tag| + 1] == ']';
        }
        assert prefix[k] == s[k];
        var m :| k < m < |prefix| && prefix[m] == '\n';
        assert s[m] == '\n';
        assert !OneLine(s, k + 1, j);
      }
    }
  }

  /** For example, the reply "물을 줄게요! [happy]" shows the expression happy. */
  lemma HappyReplyExpression()
    ensures ParseResponse("물을 줄게요! [happy]").0 == "happy"
  {
    var p := "물을 줄게요! ";
    assert "물을 줄게요! [happy]" == p + Tag(Happy) + "";
    FirstTagWins(p, Happy, "");
  }

  /** A reply with no `[` reads neutral whatever its words say: the parser
      looks at tags only, never at the sentence. */
  lemma {:induction false} UntaggedReplyIsNeutral(s: string)
    requires '[' !in s
    ensures ParseResponse(s) == ("neutral", None)
  {
    forall j, e ensures !TagAt(s, j, e) {
      if 0 <= j < |s| {
        assert s[j] in s;
        assert s[j] != Tag(e)[0];
      }
    }
    assert Untagged(s);
    ParseResponseSpec(s, Neutral);
  }

  lemma NoOpenBracket(prefix: string)
    requires '[' !in prefix
    ensures NoOpenOnLastLine(prefix)
  {
    forall k | 0 <= k < |prefix| ensures prefix[k] != '[' {
      assert prefix[k] in prefix;
    }
  }

  /** The shape the prompt asks for, text then ` [tag]`: the device speaks
      exactly the text. */
  lemma TrailingTagReply(text: string, tag: string)
    requires '[' !in text && Trimmed(text)
    requires forall k :: 0 <= k < |tag| ==> tag[k] != '\n'
    ensures SplitTag(text + " [" + tag + "]") == (tag, text)
  {
    var p := text + " ";
    SpaceBeforeTag(text, tag);
    NoOpenBracket(p);
    SplitTagSpec(p, tag, "");
    StripOneSpace(text);
  }

  lemma SpaceBeforeTag(text: string, tag: string)
    ensures text + " [" + tag + "]" == (text + " ") + "[" + tag + "]" + ""
    ensures '[' !in text ==> '[' !in text + " "
  {
  }

  lemma StripOneSpace(text: string)
    requires Trimmed(text)
    ensures Strip(text + " ") == text
  {
    assert AllSpace(" ");
    StripUnique("", text, " ");
    assert "" + text + " " == text + " ";
  }
}
