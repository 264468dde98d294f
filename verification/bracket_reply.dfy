/** The older terminal program's reply reader: a reply written as
    `[expression] action` on its first line, then the words to say. */
module BracketReply {
  import opened Wrappers
  import opened Text

  /** `term/planty.py`'s `_parse_response`: with both brackets present, the
      expression is the second piece of a split at `[`, cut at its first `]`;
      the action is the second piece of a split at `]`, cut at its first
      newline; both stripped. Otherwise the neutral, idle pair. */
  function ParseBracketReply(response: string): (r: (string, string))
    ensures '[' !in response || ']' !in response ==> r == ("neutral", "idle")
    ensures Trimmed(r.0) && Trimmed(r.1)
  {
    if '[' in response && ']' in response then
      var expression := Strip(Split(Split(response, '[')[1], ']')[0]);
      var action := Strip(Split(Split(response, ']')[1], '\n')[0]);
      (expression, action)
    else
      ("neutral", "idle")
  }

  /** The text after the first `open`, up to the next character in `stops`
      or the end, stripped. */
  function After(s: string, open: char, stops: set<char>): string
    requires open in s
  {
    var i := IndexOf(s, open).value;
    Strip(s[i + 1..ScanTo(s, i + 1, stops)])
  }

  /** Read by positions: the expression runs from the first `[` to the next
      `]` or `[`; the action runs from the first `]` to the next `]` or
      newline. Nothing checks that the expression is one the display knows. */
  lemma ParseBracketReplyByPosition(response: string)
    requires '[' in response && ']' in response
    ensures ParseBracketReply(response)
         == (After(response, '[', {'[', ']'}), After(response, ']', {']', '\n'}))
  {
    var i, j := IndexOf(response, '[').value, IndexOf(response, ']').value;
    var ke, ka := ScanTo(response, i + 1, {'[', ']'}), ScanTo(response, j + 1, {']', '\n'});
    assert Split(Split(response, '[')[1], ']')[0] == response[i + 1..ke] by {
      HeadOfSecondPiece(response, '[', ']', i);
    }
    assert Split(Split(response, ']')[1], '\n')[0] == response[j + 1..ka] by {
      HeadOfSecondPiece(response, ']', '\n', j);
    }
  }

  /** A header in the format the prompt asks for: text without brackets, `[`,
      the expression, `]`, the action, a newline, then anything at all. */
  lemma {:induction false} HeaderReply(lead: string, expression: string, action: string, rest: string)
    requires '[' !in lead && ']' !in lead
    requires '[' !in expression && ']' !in expression
    requires ']' !in action && '\n' !in action
    ensures ParseBracketReply(lead + "[" + expression + "]" + action + "\n" + rest)
         == (Strip(expression), Strip(action))
  {
    var s := lead + "[" + expression + "]" + action + "\n" + rest;
    var i, j := |lead|, |lead| + 1 + |expression|;
    var e := j + 1 + |action|;
    HeaderLayout(lead, expression, action, rest);
    assert s[i + 1..j] == expression && s[j + 1..e] == action;
    assert ParseBracketReply(s) == (Strip(s[i + 1..j]), Strip(s[j + 1..e])) by {
      forall k | 0 <= k < i ensures s[k] != '[' && s[k] != ']' {
        assert s[k] == lead[k] && lead[k] in lead;
      }
      forall k | i < k < j ensures s[k] !in {'[', ']'} {
        assert s[k] == s[i + 1..j][k - i - 1];
        assert expression[k - i - 1] in expression;
      }
      forall k | j < k < e ensures s[k] !in {']', '\n'} {
        assert s[k] == s[j + 1..e][k - j - 1];
        assert action[k - j - 1] in action;
      }
      HeaderAt(s, i, j, e);
    }
  }

  /** The header read by positions: the first `[` at `i`, no `]` before it,
      the next `[` or `]` at `j` being a `]`, and the next `]` or newline
      after it at `e` (or the end). */
  lemma HeaderAt(s: string, i: nat, j: nat, e: nat)
    requires i < j < e <= |s| && s[i] == '[' && s[j] == ']'
    requires e < |s| ==> s[e] in {']', '\n'}
    requires forall k :: 0 <= k < i ==> s[k] != '[' && s[k] != ']'
    requires forall k :: i < k < j ==> s[k] !in {'[', ']'}
    requires forall k :: j < k < e ==> s[k] !in {']', '\n'}
    ensures ParseBracketReply(s) == (Strip(s[i + 1..j]), Strip(s[j + 1..e]))
  {
    FirstAt(s, '[', i);
    FirstAt(s, ']', j);
    ScanToIs(s, i + 1, {'[', ']'}, j);
    ScanToIs(s, j + 1, {']', '\n'}, e);
    assert After(s, '[', {'[', ']'}) == Strip(s[i + 1..j]);
    assert After(s, ']', {']', '\n'}) == Strip(s[j + 1..e]);
    ParseBracketReplyByPosition(s);
  }

  /** Where the pieces of a header reply sit. */
  lemma HeaderLayout(lead: string, expression: string, action: string, rest: string)
    ensures var s := lead + "[" + expression + "]" + action + "\n" + rest;
            var i, j := |lead|, |lead| + 1 + |expression|;
            var e := j + 1 + |action|;
            e < |s| && s[i] == '[' && s[j] == ']' && s[e] == '\n'
            && (forall k :: 0 <= k < i ==> s[k] == lead[k])
            && s[i + 1..j] == expression && s[j + 1..e] == action
  {
    var s := lead + "[" + expression + "]" + action + "\n" + rest;
    var h := lead + "[" + expression + "]";
    assert s == h + action + "\n" + rest;
    assert h[|lead| + 1..|h| - 1] == expression;
    assert s[|h|..|h| + |action|] == action;
  }

  /** The prompt's example layout, `[기쁨] 잎을 살랑살랑 흔들며` and a newline:
      whatever stands between the brackets is published as the expression,
      whether or not the display has a face for it. */
  lemma PromptLayoutHeader(expression: string, action: string, rest: string)
    requires Trimmed(expression) && '[' !in expression && ']' !in expression
    requires Trimmed(action) && ']' !in action && '\n' !in action
    ensures ParseBracketReply("[" + expression + "] " + action + "\n" + rest) == (expression, action)
  {
    assert "[" + expression + "] " + action + "\n" + rest
        == "" + "[" + expression + "]" + (" " + action) + "\n" + rest;
    assert ']' !in " " + action && '\n' !in " " + action;
    HeaderReply("", expression, " " + action, rest);
    StripKeeps(expression);
    StripLeadingBlank(action);
  }

  lemma StripKeeps(t: string)
    requires Trimmed(t)
    ensures Strip(t) == t
  {
    StripUnique("", t, "");
    assert "" + t + "" == t;
  }

  lemma StripLeadingBlank(t: string)
    requires Trimmed(t)
    ensures Strip(" " + t) == t
  {
    assert AllSpace(" ");
    StripUnique(" ", t, "");
    assert " " + t + "" == " " + t;
  }

  /** The terminal program's generator failure text. */
  const GenerateFallback := "죄송합니다. 응답을 생성하는 중에 문제가 발생했어요."

  /** The failure text has no bracket, so the face stays neutral and idle. */
  lemma FallbackIsNeutralIdle()
    ensures ParseBracketReply(GenerateFallback) == ("neutral", "idle")
  {
    assert '[' !in GenerateFallback;
  }

  /** A one-character split's second piece, cut at its first `close`, is the
      text after the first `open` up to the next `open` or `close`. */
  lemma HeadOfSecondPiece(s: string, open: char, close: char, i: nat)
    requires IndexOf(s, open) == Some(i)
    ensures |Split(s, open)| >= 2
    ensures Split(Split(s, open)[1], close)[0] == s[i + 1..ScanTo(s, i + 1, {open, close})]
  {
    var x := s[i + 1..];
    SplitSecond(s, open, i);
    var p := Split(x, open)[0];
    SplitHead(x, open);
    SplitHead(p, close);
    ScanTwice(s, i + 1, open, close);
  }

  lemma SplitSecond(s: string, c: char, i: nat)
    requires IndexOf(s, c) == Some(i)
    ensures |Split(s, c)| >= 2
    ensures Split(s, c)[1] == Split(s[i + 1..], c)[0]
  {
    var rest := Split(s[i + 1..], c);
    assert Split(s, c) == [s[..i]] + rest;
  }

  /** The first piece of a split is everything before the first separator. */
  lemma SplitHead(s: string, c: char)
    ensures Split(s, c)[0] == s[..ScanTo(s, 0, {c})]
  {
    match IndexOf(s, c)
    case None =>
      forall k | 0 <= k < |s| ensures s[k] !in {c} {
        assert s[k] in s;
      }
      ScanToIs(s, 0, {c}, |s|);
    case Some(i) =>
      forall k | 0 <= k < i ensures s[k] !in {c} {
        assert s[k] == s[..i][k];
      }
      ScanToIs(s, 0, {c}, i);
  }

  /** Cutting at the first `c1` and then at the first `c2` cuts at the first
      of the two. */
  lemma ScanTwice(s: string, a: nat, c1: char, c2: char)
    requires a <= |s|
    ensures var x := s[a..];
            var p := x[..ScanTo(x, 0, {c1})];
            p[..ScanTo(p, 0, {c2})] == s[a..ScanTo(s, a, {c1, c2})]
  {
    var x := s[a..];
    var k1 := ScanTo(x, 0, {c1});
    var p := x[..k1];
    var k2 := ScanTo(p, 0, {c2});
    forall j | a <= j < a + k2 ensures s[j] !in {c1, c2} {
      assert s[j] == p[j - a] == x[j - a];
    }
    if a + k2 < |s| {
      if k2 < |p| {
        assert s[a + k2] == p[k2];
      } else {
        assert s[a + k2] == x[k1];
      }
    }
    ScanToIs(s, a, {c1, c2}, a + k2);
  }

  /** `ScanTo` is the only index with its defining properties. */
  lemma ScanToIs(s: string, from: nat, stops: set<char>, k: nat)
    requires from <= k <= |s|
    requires k < |s| ==> s[k] in stops
    requires forall j :: from <= j < k ==> s[j] !in stops
    ensures ScanTo(s, from, stops) == k
  {
  }

  /** An index holding `c` with no `c` before it is where `IndexOf` points. */
  lemma FirstAt(s: string, c: char, i: nat)
    requires i < |s| && s[i] == c
    requires forall k :: 0 <= k < i ==> s[k] != c
    ensures c in s && IndexOf(s, c) == Some(i)
  {
    assert s[i] in s;
    var r := IndexOf(s, c).value;
    forall k | 0 <= k < r ensures s[k] != c {
      assert s[k] == s[..r][k];
    }
  }
}
