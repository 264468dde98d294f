/** The parts of Python's `str` behaviour the parsers rely on: whitespace,
    `strip()`, `split(sep)`, the `in` substring test and `lower()`. */
module Text {
  import opened Wrappers

  /** Python's `str.isspace()` for one character: the ASCII controls tab to
      carriage return, the separators 0x1C-0x1F, NEL, and the Unicode space
      separators, line and paragraph separators. */
  predicate IsSpace(c: char) {
    || c == ' '
    || ('\t' <= c <= '\r')
    || ('\U{1C}' <= c <= '\U{1F}')
    || c == '\U{85}'
    || c == '\U{A0}'
    || c == '\U{1680}'
    || ('\U{2000}' <= c <= '\U{200A}')
    || c == '\U{2028}'
    || c == '\U{2029}'
    || c == '\U{202F}'
    || c == '\U{205F}'
    || c == '\U{3000}'
  }

  ghost predicate AllSpace(s: string) {
    forall i :: 0 <= i < |s| ==> IsSpace(s[i])
  }

  /** Neither end of `s` is whitespace. */
  ghost predicate Trimmed(s: string) {
    s == [] || (!IsSpace(s[0]) && !IsSpace(s[|s| - 1]))
  }

  /** The length of the whitespace run that starts `s`. */
  function LeadingSpace(s: string): (n: nat)
    ensures n <= |s|
    ensures AllSpace(s[..n])
    ensures n < |s| ==> !IsSpace(s[n])
  {
    if |s| == 0 || !IsSpace(s[0]) then 0
    else
      var m := LeadingSpace(s[1..]);
      assert s[..m + 1] == [s[0]] + s[1..][..m];
      m + 1
  }

  /** The length of the whitespace run that ends `s`. */
  function TrailingSpace(s: string): (n: nat)
    ensures n <= |s|
    ensures AllSpace(s[|s| - n..])
    ensures n < |s| ==> !IsSpace(s[|s| - n - 1])
  {
    if |s| == 0 || !IsSpace(s[|s| - 1]) then 0
    else
      var t := s[..|s| - 1];
      var m := TrailingSpace(t);
      assert s[|s| - (m + 1)..] == t[|t| - m..] + [s[|s| - 1]];
      m + 1
  }

  /** Python's `s.strip()`: `s` with its leading and trailing whitespace removed. */
  function Strip(s: string): (r: string)
    ensures Trimmed(r)
    ensures |r| <= |s|
  {
    var t := s[LeadingSpace(s)..];
    t[..|t| - TrailingSpace(t)]
  }

  /** `Strip` cuts only whitespace: `s` is the result with a whitespace run on
      either side. */
  lemma StripSpec(s: string)
    ensures LeadingSpace(s) + |Strip(s)| <= |s|
    ensures s[LeadingSpace(s)..LeadingSpace(s) + |Strip(s)|] == Strip(s)
    ensures AllSpace(s[..LeadingSpace(s)])
    ensures AllSpace(s[LeadingSpace(s) + |Strip(s)|..])
  {
    var a := LeadingSpace(s);
    var t := s[a..];
    var n := |t| - TrailingSpace(t);
    assert Strip(s) == t[..n];
    SliceOfSuffix(s, a, n);
    assert s[a + n..] == t[n..];
  }

  lemma SliceOfSuffix(s: string, a: nat, n: nat)
    requires a + n <= |s|
    ensures s[a..][..n] == s[a..a + n]
  {
  }

  /** `Strip` is the only way to cut whitespace off both ends of `s` and leave
      a string with no whitespace at either end. */
  lemma {:induction false} StripUnique(w1: string, t: string, w2: string)
    requires AllSpace(w1) && AllSpace(w2) && Trimmed(t)
    ensures Strip(w1 + t + w2) == t
  {
    var s := w1 + t + w2;
    var a := LeadingSpace(s);
    if t == [] {
      assert AllSpace(s) by {
        forall i | 0 <= i < |s| ensures IsSpace(s[i]) {
          if i < |w1| { assert s[i] == w1[i]; } else { assert s[i] == w2[i - |w1|]; }
        }
      }
      assert a == |s|;
    } else {
      assert s[|w1|] == t[0];
      assert a == |w1|;
      var u := s[a..];
      assert u == t + w2;
      var b := TrailingSpace(u);
      assert u[|t| - 1] == t[|t| - 1];
      assert b == |w2|;
      assert u[..|u| - b] == t;
    }
  }

  /** The position of the first `c` in `s`; Python's `s.find(c)` with -1 as None. */
  function IndexOf(s: string, c: char): (r: Option<nat>)
    ensures r.None? <==> c !in s
    ensures r.Some? ==> r.value < |s| && s[r.value] == c && c !in s[..r.value]
  {
    if |s| == 0 then None
    else if s[0] == c then Some(0)
    else match IndexOf(s[1..], c)
      case None =>
        assert s == [s[0]] + s[1..];
        None
      case Some(i) =>
        assert s[..i + 1] == [s[0]] + s[1..][..i];
        Some(i + 1)
  }

  /** Python's `sep.join(parts)` for a one-character separator. */
  function Join(parts: seq<string>, c: char): string
  {
    if |parts| == 0 then ""
    else if |parts| == 1 then parts[0]
    else parts[0] + [c] + Join(parts[1..], c)
  }

  /** Python's `s.split(c)` for a one-character separator: the pieces between
      consecutive occurrences of `c`, in order, none of them containing `c`. */
  function Split(s: string, c: char): (parts: seq<string>)
    ensures |parts| >= 1
    ensures |parts| == 1 <==> c !in s
    ensures forall k :: 0 <= k < |parts| ==> c !in parts[k]
    decreases |s|
  {
    match IndexOf(s, c)
    case None => [s]
    case Some(i) =>
      var rest := Split(s[i + 1..], c);
      var parts := [s[..i]] + rest;
      assert parts[1..] == rest;
      parts
  }

  /** Joining the pieces of a split gives back the original string. */
  lemma {:induction false} JoinSplit(s: string, c: char)
    ensures Join(Split(s, c), c) == s
    decreases |s|
  {
    var r := IndexOf(s, c);
    if r.Some? {
      var i := r.value;
      var rest := Split(s[i + 1..], c);
      assert Split(s, c) == [s[..i]] + rest;
      JoinSplit(s[i + 1..], c);
      JoinCons(s[..i], rest, c);
      CutAt(s, i);
    }
  }

  lemma CutAt(s: string, i: nat)
    requires i < |s|
    ensures s == s[..i] + [s[i]] + s[i + 1..]
  {
  }

  lemma JoinCons(p: string, rest: seq<string>, c: char)
    requires |rest| >= 1
    ensures Join([p] + rest, c) == p + [c] + Join(rest, c)
  {
    assert ([p] + rest)[1..] == rest;
  }

  /** Splitting undoes joining, for pieces that do not contain the separator. */
  lemma {:induction false} SplitJoin(parts: seq<string>, c: char)
    requires |parts| >= 1
    requires forall k :: 0 <= k < |parts| ==> c !in parts[k]
    ensures Split(Join(parts, c), c) == parts
    decreases |parts|
  {
    if |parts| > 1 {
      var rest := parts[1..];
      assert parts == [parts[0]] + rest;
      JoinCons(parts[0], rest, c);
      SplitAtFirst(parts[0], c, Join(rest, c));
      SplitJoin(rest, c);
    }
  }

  /** The first piece of a split ends at the first separator. */
  lemma SplitAtFirst(p: string, c: char, rest: string)
    requires c !in p
    ensures Split(p + [c] + rest, c) == [p] + Split(rest, c)
  {
    var s := p + [c] + rest;
    assert s[|p|] == c && s[..|p|] == p;
    assert IndexOf(s, c) == Some(|p|);
    assert s[|p| + 1..] == rest;
  }

  /** `sub` occurs in `s` starting at index `i`. */
  predicate OccursAt(s: string, sub: string, i: int) {
    0 <= i && i + |sub| <= |s| && s[i..i + |sub|] == sub
  }

  /** The first occurrence of `sub` in `s` at or after `from`. */
  function FindFrom(s: string, sub: string, from: nat): (r: Option<nat>)
    ensures r.Some? ==> from <= r.value && OccursAt(s, sub, r.value)
    ensures r.Some? ==> forall j :: from <= j < r.value ==> !OccursAt(s, sub, j)
    ensures r.None? ==> forall j :: from <= j ==> !OccursAt(s, sub, j)
    decreases |s| - from
  {
    if from + |sub| > |s| then None
    else if s[from..from + |sub|] == sub then Some(from)
    else FindFrom(s, sub, from + 1)
  }

  /** Python's `sub in s`. */
  predicate Contains(s: string, sub: string) {
    FindFrom(s, sub, 0).Some?
  }

  /** Where the last piece of Python's `s[from:].split(sep)` starts. `split`
      cuts at the occurrences of `sep` it meets scanning left to right, never
      overlapping one cut with the next; the last piece starts just after the
      final cut, and no occurrence of `sep` starts from there on. With no
      occurrence from `from` on, the one piece starts at `from`. */
  function LastCut(s: string, sep: string, from: nat): (k: nat)
    requires |sep| > 0 && from <= |s|
    ensures from <= k <= |s|
    ensures forall j :: k <= j ==> !OccursAt(s, sep, j)
    ensures k == from <==> FindFrom(s, sep, from).None?
    ensures k > from ==> from + |sep| <= k && OccursAt(s, sep, k - |sep|)
    decreases |s| - from
  {
    match FindFrom(s, sep, from)
    case None => from
    case Some(i) => LastCut(s, sep, i + |sep|)
  }

  /** When the first character of `sep` does not recur in it, the occurrence
      that `LastCut` follows is the last occurrence of `sep` in `s`. */
  lemma LastOccurrence(s: string, sep: string, j: int)
    requires |sep| > 0 && sep[0] !in sep[1..]
    requires OccursAt(s, sep, j)
    ensures LastCut(s, sep, 0) > 0
    ensures j <= LastCut(s, sep, 0) - |sep|
  {
    assert FindFrom(s, sep, 0).Some?;
    var k := LastCut(s, sep, 0);
    NoOverlap(s, sep, j, k - |sep|);
  }

  /** Two occurrences of a `sep` whose first character does not recur in it
      are equal or disjoint. */
  lemma NoOverlap(s: string, sep: string, a: int, b: int)
    requires |sep| > 0 && sep[0] !in sep[1..]
    requires OccursAt(s, sep, a) && OccursAt(s, sep, b)
    ensures a == b || a + |sep| <= b || b + |sep| <= a
  {
    if a < b {
      NoOverlapOrdered(s, sep, a, b);
    } else if b < a {
      NoOverlapOrdered(s, sep, b, a);
    }
  }

  lemma NoOverlapOrdered(s: string, sep: string, a: int, b: int)
    requires |sep| > 0 && sep[0] !in sep[1..]
    requires OccursAt(s, sep, a) && OccursAt(s, sep, b) && a < b
    ensures a + |sep| <= b
  {
    assert s[b] == sep[0] by {
      assert s[b..b + |sep|][0] == s[b];
    }
    forall k | a < k < a + |sep| ensures s[k] != sep[0] {
      assert s[a..a + |sep|][k - a] == s[k];
      assert sep[1..][k - a - 1] == sep[k - a];
    }
  }

  /** The smallest index at or after `from` whose character is in `stops`, or
      `|s|` when there is none. */
  function ScanTo(s: string, from: nat, stops: set<char>): (k: nat)
    requires from <= |s|
    ensures from <= k <= |s|
    ensures k < |s| ==> s[k] in stops
    ensures forall j :: from <= j < k ==> s[j] !in stops
    decreases |s| - from
  {
    if from == |s| || s[from] in stops then from else ScanTo(s, from + 1, stops)
  }

  function LowerChar(c: char): char {
    if 'A' <= c <= 'Z' then (c as int + 32) as char else c
  }

  /** Python's `s.lower()` restricted to ASCII letters. */
  function Lower(s: string): (r: string)
    ensures |r| == |s|
    ensures forall i :: 0 <= i < |s| ==> r[i] == LowerChar(s[i])
  {
    seq(|s|, i requires 0 <= i < |s| => LowerChar(s[i]))
  }

  /** Lower-casing twice is lower-casing once. */
  lemma LowerIdempotent(s: string)
    ensures Lower(Lower(s)) == Lower(s)
  {
  }

  /** Lower-casing works character by character, so it distributes over
      concatenation. */
  lemma LowerAppend(a: string, b: string)
    ensures Lower(a + b) == Lower(a) + Lower(b)
  {
  }
}
