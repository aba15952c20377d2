/** The subset of Go's `strings` package the exporter relies on, over
    strings of Unicode scalar values: `Split`, `Join`, `Trim`, `TrimSpace`,
    `Replace(…, -1)`, `Contains`, `ToLower` and `Title`. */
module GoStrings {

  /** `unicode.IsSpace`: the Latin-1 spaces plus the Unicode White_Space
      property. */
  predicate IsSpace(c: char) {
    || ('\t' <= c <= '\r')
    || c == ' '
    || c == '\U{0085}'
    || c == '\U{00A0}'
    || c == '\U{1680}'
    || ('\U{2000}' <= c <= '\U{200A}')
    || c == '\U{2028}'
    || c == '\U{2029}'
    || c == '\U{202F}'
    || c == '\U{205F}'
    || c == '\U{3000}'
  }

  /** `r` is a contiguous piece of `s`. */
  ghost predicate IsInfix(r: string, s: string) {
    exists i, j | 0 <= i <= j <= |s| :: r == s[i..j]
  }

  lemma InfixTransitive(a: string, b: string, c: string)
    requires IsInfix(a, b) && IsInfix(b, c)
    ensures IsInfix(a, c)
  {
    var i, j :| 0 <= i <= j <= |b| && a == b[i..j];
    var k, l :| 0 <= k <= l <= |c| && b == c[k..l];
    assert b[i..j] == c[k + i..k + j] by {
      forall t | 0 <= t < j - i
        ensures b[i..j][t] == c[k + i..k + j][t]
      {
        assert b[i + t] == c[k + i + t];
      }
    }
  }

  // ---------------------------------------------------------------------
  // Trimming

  /** What a trim removes: Unicode white space (`TrimSpace`) or copies of
      one character (`Trim` with a one-character cut set). */
  datatype CutSet = WhiteSpace | Single(c: char)

  predicate InCutSet(c: char, cut: CutSet) {
    match cut
    case WhiteSpace => IsSpace(c)
    case Single(x) => c == x
  }

  /** Drops every leading character in `cut`. */
  function TrimLeft(s: string, cut: CutSet): (r: string)
    ensures |r| <= |s| && r == s[|s| - |r|..]
    ensures forall k :: 0 <= k < |s| - |r| ==> InCutSet(s[k], cut)
    ensures r == [] || !InCutSet(r[0], cut)
  {
    if |s| > 0 && InCutSet(s[0], cut) then TrimLeft(s[1..], cut) else s
  }

  /** Drops every trailing character in `cut`. */
  function TrimRight(s: string, cut: CutSet): (r: string)
    ensures |r| <= |s| && r == s[..|r|]
    ensures forall k :: |r| <= k < |s| ==> InCutSet(s[k], cut)
    ensures r == [] || !InCutSet(r[|r| - 1], cut)
  {
    if |s| > 0 && InCutSet(s[|s| - 1], cut) then TrimRight(s[..|s| - 1], cut) else s
  }

  /** Both ends trimmed, the left one first, as `strings.TrimFunc` does. */
  function TrimBoth(s: string, cut: CutSet): (r: string)
    ensures |r| <= |s|
    ensures r == [] || (!InCutSet(r[0], cut) && !InCutSet(r[|r| - 1], cut))
    ensures (s == [] || (!InCutSet(s[0], cut) && !InCutSet(s[|s| - 1], cut))) ==> r == s
  {
    TrimRight(TrimLeft(s, cut), cut)
  }

  /** Trimming only ever removes characters from the two ends. */
  lemma TrimIsInfix(s: string, cut: CutSet)
    ensures IsInfix(TrimBoth(s, cut), s)
  {
    var left := TrimLeft(s, cut);
    var r := TrimRight(left, cut);
    assert r == s[|s| - |left|..|s| - |left| + |r|];
  }

  /** `strings.TrimSpace`. */
  function TrimSpace(s: string): (r: string)
    ensures r == [] || (!IsSpace(r[0]) && !IsSpace(r[|r| - 1]))
    ensures (s == [] || (!IsSpace(s[0]) && !IsSpace(s[|s| - 1]))) ==> r == s
  {
    TrimBoth(s, WhiteSpace)
  }

  /** Trimming drops a prefix made only of cut characters, and no more. */
  lemma {:induction false} TrimLeftPrefix(pre: string, x: string, cut: CutSet)
    requires forall k :: 0 <= k < |pre| ==> InCutSet(pre[k], cut)
    requires x == [] || !InCutSet(x[0], cut)
    ensures TrimLeft(pre + x, cut) == x
    decreases |pre|
  {
    if |pre| > 0 {
      assert (pre + x)[0] == pre[0];
      assert (pre + x)[1..] == pre[1..] + x;
      TrimLeftPrefix(pre[1..], x, cut);
    } else {
      assert pre + x == x;
    }
  }

  /** Trimming drops a suffix made only of cut characters, and no more. */
  lemma {:induction false} TrimRightSuffix(x: string, post: string, cut: CutSet)
    requires forall k :: 0 <= k < |post| ==> InCutSet(post[k], cut)
    requires x == [] || !InCutSet(x[|x| - 1], cut)
    ensures TrimRight(x + post, cut) == x
    decreases |post|
  {
    if |post| > 0 {
      var n := |post| - 1;
      assert (x + post)[|x + post| - 1] == post[n];
      assert (x + post)[..|x + post| - 1] == x + post[..n];
      TrimRightSuffix(x, post[..n], cut);
    } else {
      assert x + post == x;
    }
  }

  /** `TrimSpace` removes white-space padding around a word with clean ends. */
  lemma PaddedTrimSpace(pre: string, w: string, post: string)
    requires forall k :: 0 <= k < |pre| ==> IsSpace(pre[k])
    requires forall k :: 0 <= k < |post| ==> IsSpace(post[k])
    requires |w| > 0 && !IsSpace(w[0]) && !IsSpace(w[|w| - 1])
    ensures TrimSpace(pre + w + post) == w
  {
    assert pre + w + post == pre + (w + post);
    assert (w + post)[0] == w[0];
    TrimLeftPrefix(pre, w + post, WhiteSpace);
    TrimRightSuffix(w, post, WhiteSpace);
  }

  /** `strings.Trim(s, cut)` for a one-character cut set: removes every
      leading and every trailing copy of `cut`, not just one layer. */
  function Trim(s: string, cut: char): (r: string)
    ensures r == [] || (r[0] != cut && r[|r| - 1] != cut)
    ensures (s == [] || (s[0] != cut && s[|s| - 1] != cut)) ==> r == s
  {
    TrimBoth(s, Single(cut))
  }

  // ---------------------------------------------------------------------
  // Counting, splitting and joining on one separator character

  /** Number of occurrences of `c` in `s`. */
  function Count(s: string, c: char): nat
  {
    if |s| == 0 then 0 else (if s[0] == c then 1 else 0) + Count(s[1..], c)
  }

  lemma {:induction false} CountAppend(a: string, b: string, c: char)
    ensures Count(a + b, c) == Count(a, c) + Count(b, c)
  {
    if |a| == 0 {
      assert a + b == b;
    } else {
      assert (a + b)[1..] == a[1..] + b;
      CountAppend(a[1..], b, c);
    }
  }

  lemma {:induction false} CountAbsent(s: string, c: char)
    ensures c !in s <==> Count(s, c) == 0
  {
    if |s| > 0 {
      CountAbsent(s[1..], c);
      assert s == [s[0]] + s[1..];
    }
  }

  /** Position of the first `c` in `s`, or -1 (`strings.IndexByte`). */
  function IndexOf(s: string, c: char): (i: int)
    ensures -1 <= i < |s|
    ensures 0 <= i ==> s[i] == c && c !in s[..i]
    ensures i == -1 <==> c !in s
  {
    if |s| == 0 then -1
    else if s[0] == c then 0
    else
      var j := IndexOf(s[1..], c);
      if j < 0 then -1
      else
        assert s[..j + 1] == [s[0]] + s[1..][..j];
        j + 1
  }

  /** `strings.Split(s, [sep])`: the pieces between consecutive separators,
      always one more piece than there are separators. */
  function Split(s: string, sep: char): (r: seq<string>)
    ensures |r| == Count(s, sep) + 1
    ensures forall k :: 0 <= k < |r| ==> sep !in r[k]
    decreases |s|
  {
    var i := IndexOf(s, sep);
    if i < 0 then
      CountAbsent(s, sep);
      [s]
    else
      assert s == s[..i] + [sep] + s[i + 1..];
      CountAppend(s[..i] + [sep], s[i + 1..], sep);
      CountAppend(s[..i], [sep], sep);
      CountAbsent(s[..i], sep);
      [s[..i]] + Split(s[i + 1..], sep)
  }

  /** `strings.Join(parts, [sep])`. */
  function Join(parts: seq<string>, sep: char): string
  {
    if |parts| == 0 then ""
    else if |parts| == 1 then parts[0]
    else parts[0] + [sep] + Join(parts[1..], sep)
  }

  lemma JoinCons(first: string, rest: seq<string>, sep: char)
    requires |rest| > 0
    ensures Join([first] + rest, sep) == first + [sep] + Join(rest, sep)
  {
    assert ([first] + rest)[1..] == rest;
  }

  /** Splitting loses nothing: joining the pieces back gives the input. */
  lemma {:induction false} JoinSplit(s: string, sep: char)
    ensures Join(Split(s, sep), sep) == s
    decreases |s|
  {
    var i := IndexOf(s, sep);
    if 0 <= i {
      var head, tail := s[..i], s[i + 1..];
      var rest := Split(tail, sep);
      calc {
        Join(Split(s, sep), sep);
        Join([head] + rest, sep);
        { JoinCons(head, rest, sep); }
        head + [sep] + Join(rest, sep);
        { JoinSplit(tail, sep); }
        head + [sep] + tail;
      }
      assert s == head + [sep] + tail;
    }
  }

  /** Joining five pieces puts one separator between neighbours. */
  lemma JoinFive(a: string, b: string, c: string, d: string, e: string, sep: char)
    ensures Join([a, b, c, d, e], sep) == a + [sep] + (b + [sep] + (c + [sep] + (d + [sep] + e)))
  {
    assert [a, b, c, d, e][1..] == [b, c, d, e];
    assert [b, c, d, e][1..] == [c, d, e];
    assert [c, d, e][1..] == [d, e];
    assert [d, e][1..] == [e];
    assert Join([e], sep) == e;
    assert Join([d, e], sep) == d + [sep] + e;
    assert Join([c, d, e], sep) == c + [sep] + (d + [sep] + e);
    assert Join([b, c, d, e], sep) == b + [sep] + (c + [sep] + (d + [sep] + e));
  }

  /** Splitting a join of separator-free pieces gives the pieces back. */
  lemma {:induction false} SplitJoin(parts: seq<string>, sep: char)
    requires |parts| > 0
    requires forall k :: 0 <= k < |parts| ==> sep !in parts[k]
    ensures Split(Join(parts, sep), sep) == parts
  {
    if |parts| > 1 {
      var s := Join(parts, sep);
      assert s == parts[0] + [sep] + Join(parts[1..], sep);
      assert s[..|parts[0]|] == parts[0];
      assert s[|parts[0]|] == sep;
      assert IndexOf(s, sep) == |parts[0]|;
      assert s[|parts[0]| + 1..] == Join(parts[1..], sep);
      SplitJoin(parts[1..], sep);
      assert parts == [parts[0]] + parts[1..];
    } else {
      assert IndexOf(parts[0], sep) == -1;
    }
  }

  // ---------------------------------------------------------------------
  // Substrings and replacement

  /** `strings.HasPrefix(s, prefix)`. */
  predicate HasPrefix(s: string, prefix: string) {
    |prefix| <= |s| && s[..|prefix|] == prefix
  }

  /** `strings.Contains(s, sub)`. */
  predicate Contains(s: string, sub: string)
    decreases |s|
  {
    HasPrefix(s, sub) || (|s| > 0 && Contains(s[1..], sub))
  }

  lemma {:induction false} ContainsIsInfix(s: string, sub: string)
    ensures Contains(s, sub) <==> IsInfix(sub, s)
    decreases |s|
  {
    if Contains(s, sub) {
      if HasPrefix(s, sub) {
        assert sub == s[0..|sub|];
      } else {
        ContainsIsInfix(s[1..], sub);
        var i, j :| 0 <= i <= j <= |s[1..]| && sub == s[1..][i..j];
        assert s[1..][i..j] == s[i + 1..j + 1];
        assert 0 <= i + 1 <= j + 1 <= |s| && sub == s[i + 1..j + 1];
      }
    }
    if IsInfix(sub, s) {
      var i, j :| 0 <= i <= j <= |s| && sub == s[i..j];
      if i > 0 {
        assert s[1..][i - 1..j - 1] == s[i..j];
        assert 0 <= i - 1 <= j - 1 <= |s[1..]| && sub == s[1..][i - 1..j - 1];
        ContainsIsInfix(s[1..], sub);
        assert !HasPrefix(s, sub) ==> Contains(s, sub);
      } else {
        assert HasPrefix(s, sub);
      }
    }
  }

  /** A string lacking one of the characters of `sub` does not contain it. */
  lemma MissingCharNotContained(s: string, sub: string, k: nat)
    requires k < |sub| && sub[k] !in s
    ensures !Contains(s, sub)
  {
    ContainsIsInfix(s, sub);
  }

  /** A string contains each of its slices. */
  lemma SliceContained(s: string, i: nat, j: nat)
    requires i <= j <= |s|
    ensures Contains(s, s[i..j])
  {
    ContainsIsInfix(s, s[i..j]);
  }

  /** `strings.Replace(s, target, replacement, -1)`: every non-overlapping occurrence
      of `target`, leftmost first, becomes `replacement`. */
  function ReplaceAll(s: string, target: string, replacement: string): string
    requires |target| > 0
    decreases |s|
  {
    if |s| < |target| then s
    else if s[..|target|] == target then replacement + ReplaceAll(s[|target|..], target, replacement)
    else [s[0]] + ReplaceAll(s[1..], target, replacement)
  }

  /** A string free of the first character of `target` is left unchanged. */
  lemma {:induction false} ReplaceAllAbsent(s: string, target: string, replacement: string)
    requires |target| > 0 && target[0] !in s
    ensures ReplaceAll(s, target, replacement) == s
    decreases |s|
  {
    if |s| >= |target| {
      assert s[..|target|][0] == s[0];
      ReplaceAllAbsent(s[1..], target, replacement);
      assert s == [s[0]] + s[1..];
    }
  }

  // ---------------------------------------------------------------------
  // Case mapping (ASCII letters only)

  function LowerChar(c: char): char {
    if 'A' <= c <= 'Z' then (c as int + 32) as char else c
  }

  function UpperChar(c: char): char {
    if 'a' <= c <= 'z' then (c as int - 32) as char else c
  }

  /** `strings.ToLower`, restricted to ASCII letters. */
  function ToLower(s: string): (r: string)
    ensures |r| == |s|
    ensures forall k :: 0 <= k < |s| ==> r[k] == LowerChar(s[k])
  {
    seq(|s|, k requires 0 <= k < |s| => LowerChar(s[k]))
  }

  /** The separator test of `strings.Title`: ASCII letters, digits and `_`
      are word characters, other ASCII is a separator, and beyond ASCII only
      white space separates. */
  predicate IsWordSeparator(c: char) {
    if c <= '\U{007F}' then
      !('0' <= c <= '9' || 'a' <= c <= 'z' || 'A' <= c <= 'Z' || c == '_')
    else
      IsSpace(c)
  }

  /** `strings.Title`: upper-cases the first letter of every word. */
  function Title(s: string): (r: string)
    ensures |r| == |s|
    ensures |s| > 0 ==> r[0] == UpperChar(s[0])
    ensures forall k :: 0 < k < |s| ==>
      r[k] == if IsWordSeparator(s[k - 1]) then UpperChar(s[k]) else s[k]
  {
    TitleAfter(s, ' ')
  }

  function TitleAfter(s: string, prev: char): (r: string)
    ensures |r| == |s|
    ensures forall k :: 0 < k < |s| ==>
      r[k] == if IsWordSeparator(s[k - 1]) then UpperChar(s[k]) else s[k]
    ensures |s| > 0 ==>
      r[0] == if IsWordSeparator(prev) then UpperChar(s[0]) else s[0]
  {
    if |s| == 0 then ""
    else
      [if IsWordSeparator(prev) then UpperChar(s[0]) else s[0]] + TitleAfter(s[1..], s[0])
  }
}
