/** The space-delimited tokenizer (`ParseSpacedFormat`). Spaces inside a
    quoted, bracketed or parenthesised span of the content are first hidden
    behind the `___` sentinel, so the span survives the split on spaces;
    every value then has the sentinel turned back into a space. */
module SpaceParser {
  import opened Wrappers
  import opened GoStrings
  import opened Fields

  /** `innerDelimiter`: stands for a space inside a framed span. */
  const InnerDelimiter: string := "___"

  // ---------------------------------------------------------------------
  // replaceInnerSpaces

  /** The frame counter after seeing `c`: a quote opens a frame when none is
      open and otherwise closes one; `[` and `(` open, `]` and `)` close. The
      counter is a plain int and can go negative. */
  function FrameStep(frame: int, c: char): int {
    var quoted := if c == '"' then (if frame != 0 then frame - 1 else frame + 1) else frame;
    if c == '[' || c == '(' then quoted + 1
    else if c == ']' || c == ')' then quoted - 1
    else quoted
  }

  /** What the scan appends for `c`, given the frame already updated by `c`. */
  function Emit(c: char, frame: int): string {
    if c == ' ' && frame > 0 then InnerDelimiter else [c]
  }

  /** The scan of `replaceInnerSpaces` over `s`, entered with counter `frame`. */
  function Scan(s: string, frame: int): string
    decreases |s|
  {
    if |s| == 0 then ""
    else
      var f := FrameStep(frame, s[0]);
      Emit(s[0], f) + Scan(s[1..], f)
  }

  /** `replaceInnerSpaces`: every space seen while the frame is positive
      becomes `___`; every other character is copied. */
  function ReplaceInnerSpaces(content: string): string {
    Scan(content, 0)
  }

  /** The loop of `replaceInnerSpaces`, written as in the source: one pass,
      the frame counter updated before each character is appended. */
  method ReplaceInnerSpacesLoop(content: string) returns (modified: string)
    ensures modified == ReplaceInnerSpaces(content)
    ensures Count(modified, ' ') == ExposedSpaces(content, 0)
  {
    var frame := 0;
    modified := "";
    var i := 0;
    while i < |content|
      invariant 0 <= i <= |content|
      invariant modified + Scan(content[i..], frame) == Scan(content, 0)
    {
      var c := content[i];
      assert content[i..][1..] == content[i + 1..];
      frame := FrameStep(frame, c);
      modified := modified + Emit(c, frame);
      i := i + 1;
    }
    ExposedSpaceCount(content, 0);
  }

  /** Number of spaces of `s` seen with a frame of zero or less: the spaces
      that still split the content. */
  function ExposedSpaces(s: string, frame: int): nat
    decreases |s|
  {
    if |s| == 0 then 0
    else
      var f := FrameStep(frame, s[0]);
      var here := if s[0] == ' ' && f <= 0 then 1 else 0;
      here + ExposedSpaces(s[1..], f)
  }

  /** The spaces left after the replacement are exactly the exposed ones. */
  lemma {:induction false} ExposedSpaceCount(s: string, frame: int)
    ensures Count(Scan(s, frame), ' ') == ExposedSpaces(s, frame)
    decreases |s|
  {
    if |s| > 0 {
      var f := FrameStep(frame, s[0]);
      var e := Emit(s[0], f);
      ExposedSpaceCount(s[1..], f);
      CountAppend(e, Scan(s[1..], f), ' ');
      if e != InnerDelimiter {
        assert e == [s[0]] + [];
      }
    }
  }

  /** The characters of `s` other than spaces and underscores, in order. */
  function Ink(s: string): string
    decreases |s|
  {
    if |s| == 0 then ""
    else (if s[0] == ' ' || s[0] == '_' then "" else [s[0]]) + Ink(s[1..])
  }

  lemma {:induction false} InkAppend(a: string, b: string)
    ensures Ink(a + b) == Ink(a) + Ink(b)
    decreases |a|
  {
    if |a| > 0 {
      assert (a + b)[0] == a[0];
      assert (a + b)[1..] == a[1..] + b;
      InkAppend(a[1..], b);
    } else {
      assert a + b == b;
    }
  }

  /** The replacement copies every other character unchanged and in order:
      only spaces are touched. */
  lemma {:induction false} ScanKeepsInk(s: string, frame: int)
    ensures Ink(Scan(s, frame)) == Ink(s)
    decreases |s|
  {
    if |s| > 0 {
      var f := FrameStep(frame, s[0]);
      var e := Emit(s[0], f);
      ScanKeepsInk(s[1..], f);
      InkAppend(e, Scan(s[1..], f));
      if e == InnerDelimiter {
        assert Ink(e) == "" by {
          assert e[1..] == "__" && e[1..][1..] == "_" && e[1..][1..][1..] == "";
        }
      } else {
        assert Ink(e) == Ink([s[0]]) by { assert [s[0]][1..] == ""; }
      }
      assert s == [s[0]] + s[1..];
      InkAppend([s[0]], s[1..]);
    }
  }

  /** Each hidden space grows the content by two characters, and nothing
      else changes its length. */
  lemma {:induction false} ScanLength(s: string, frame: int)
    ensures |Scan(s, frame)| == |s| + 2 * (Count(s, ' ') - ExposedSpaces(s, frame))
    decreases |s|
  {
    if |s| > 0 {
      var f := FrameStep(frame, s[0]);
      ScanLength(s[1..], f);
      assert s == [s[0]] + s[1..];
      CountAppend([s[0]], s[1..], ' ');
      assert [s[0]][1..] == "";
    }
  }

  /** The frame counter after the whole of `s`, entered with `frame`. */
  function FrameAfter(s: string, frame: int): int
    decreases |s|
  {
    if |s| == 0 then frame else FrameAfter(s[1..], FrameStep(frame, s[0]))
  }

  lemma {:induction false} FrameAfterAppend(a: string, b: string, frame: int)
    ensures FrameAfter(a + b, frame) == FrameAfter(b, FrameAfter(a, frame))
    decreases |a|
  {
    if |a| > 0 {
      assert (a + b)[0] == a[0];
      assert (a + b)[1..] == a[1..] + b;
      FrameAfterAppend(a[1..], b, FrameStep(frame, a[0]));
    } else {
      assert a + b == b;
    }
  }

  /** The scan works left to right with nothing but the counter carried
      over: scanning `a + b` is scanning `a`, then `b` from the counter `a`
      leaves. */
  lemma {:induction false} ScanAppend(a: string, b: string, frame: int)
    ensures Scan(a + b, frame) == Scan(a, frame) + Scan(b, FrameAfter(a, frame))
    decreases |a|
  {
    if |a| > 0 {
      var f := FrameStep(frame, a[0]);
      assert (a + b)[0] == a[0];
      assert (a + b)[1..] == a[1..] + b;
      ScanAppend(a[1..], b, f);
    } else {
      assert a + b == b;
    }
  }

  /** The concatenation of a sequence of strings. */
  function Flatten(parts: seq<string>): string
    decreases |parts|
  {
    if |parts| == 0 then "" else parts[0] + Flatten(parts[1..])
  }

  /** What the scan writes for each character of `s`: the character itself,
      or `___` for a space seen with a positive counter. */
  function Emitted(s: string, frame: int): (r: seq<string>)
    ensures |r| == |s|
    ensures forall k :: 0 <= k < |s| ==>
      r[k] == [s[k]] || (s[k] == ' ' && r[k] == InnerDelimiter)
  {
    seq(|s|, k requires 0 <= k < |s| => Emit(s[k], FrameAfter(s[..k + 1], frame)))
  }

  /** The replacement is character by character and in order: its output is
      what each input character is written as, concatenated. */
  lemma {:induction false} ScanIsPerCharacter(s: string, frame: int)
    ensures Scan(s, frame) == Flatten(Emitted(s, frame))
    decreases |s|
  {
    if |s| > 0 {
      var f := FrameStep(frame, s[0]);
      ScanIsPerCharacter(s[1..], f);
      var e, tail := Emitted(s, frame), Emitted(s[1..], f);
      assert e[1..] == tail by {
        forall k | 0 <= k < |tail|
          ensures e[1..][k] == tail[k]
        {
          assert s[..k + 2][1..] == s[1..][..k + 1];
          assert s[..k + 2][0] == s[0];
        }
      }
      assert s[..1] == [s[0]] && [s[0]][1..] == [];
      assert FrameAfter(s[..1], frame) == f;
      assert e[0] == Emit(s[0], f);
    }
  }

  /** Content without any quote, bracket or parenthesis is never framed, so
      it comes back unchanged. */
  lemma {:induction false} UnframedContentUnchanged(s: string)
    requires forall k :: 0 <= k < |s| ==> !IsWrapper(s[k])
    ensures Scan(s, 0) == s
    decreases |s|
  {
    if |s| > 0 {
      UnframedContentUnchanged(s[1..]);
      assert s == [s[0]] + s[1..];
    }
  }

  /** Restoring the sentinel undoes the replacement, as long as the content
      has no underscore of its own. */
  lemma {:induction false} RestoreUndoesReplace(s: string, frame: int)
    requires '_' !in s
    ensures ReplaceAll(Scan(s, frame), InnerDelimiter, " ") == s
    decreases |s|
  {
    if |s| > 0 {
      var f := FrameStep(frame, s[0]);
      var e := Emit(s[0], f);
      var rest := Scan(s[1..], f);
      RestoreUndoesReplace(s[1..], f);
      if e == InnerDelimiter {
        assert (e + rest)[..3] == InnerDelimiter && (e + rest)[3..] == rest;
      } else {
        RestoreNonUnderscore(s[0], rest);
      }
      assert s == [s[0]] + s[1..];
    }
  }

  /** A character other than `_` cannot start a sentinel. */
  lemma RestoreNonUnderscore(c: char, tail: string)
    requires c != '_'
    ensures ReplaceAll([c] + tail, InnerDelimiter, " ") == [c] + ReplaceAll(tail, InnerDelimiter, " ")
  {
    if |[c] + tail| >= 3 {
      assert ([c] + tail)[..3][0] == c;
      assert ([c] + tail)[1..] == tail;
    }
  }

  /** The sentinel never survives restoration, even when the raw content
      held underscores of its own. */
  lemma {:induction false} RestoredHasNoSentinel(s: string)
    ensures !Contains(ReplaceAll(s, InnerDelimiter, " "), InnerDelimiter)
    decreases |s|
  {
    var r := ReplaceAll(s, InnerDelimiter, " ");
    if |s| < 3 {
      ShortHasNoSentinel(s);
    } else if s[..3] == InnerDelimiter {
      var rest := ReplaceAll(s[3..], InnerDelimiter, " ");
      RestoredHasNoSentinel(s[3..]);
      assert r == " " + rest && r[1..] == rest;
      assert !HasPrefix(r, InnerDelimiter) by { if |r| >= 3 { assert r[..3][0] == ' '; } }
    } else {
      var rest := ReplaceAll(s[1..], InnerDelimiter, " ");
      RestoredHasNoSentinel(s[1..]);
      assert r == [s[0]] + rest && r[1..] == rest;
      if s[0] == '_' {
        assert !HasPrefix(s[1..], "__") by {
          assert s[..3] == [s[0]] + s[1..][..2];
        }
        RestoredKeepsNonDoubleUnderscore(s[1..]);
        assert !HasPrefix(r, InnerDelimiter) by {
          if |r| >= 3 { assert r[..3] == [s[0]] + rest[..2]; }
        }
      } else {
        assert !HasPrefix(r, InnerDelimiter) by { if |r| >= 3 { assert r[..3][0] == s[0]; } }
      }
    }
  }

  lemma ShortHasNoSentinel(s: string)
    requires |s| < 3
    ensures !Contains(s, InnerDelimiter)
  {
    if |s| > 0 {
      assert !Contains(s[1..], InnerDelimiter) by {
        if |s| > 1 { assert !Contains(s[1..][1..], InnerDelimiter); }
      }
    }
  }

  /** Restoration keeps a string from starting with `__` when the raw
      string did not. */
  lemma RestoredKeepsNonDoubleUnderscore(s: string)
    requires !HasPrefix(s, "__")
    ensures !HasPrefix(ReplaceAll(s, InnerDelimiter, " "), "__")
  {
    if |s| >= 3 {
      assert s[..3] != InnerDelimiter by { assert s[..3][..2] == s[..2]; }
      if s[0] == '_' {
        assert s[1] != '_' by { assert s[..2] == [s[0], s[1]]; }
        RestoreNonUnderscore(s[1], s[2..]);
        assert s[1..] == [s[1]] + s[2..];
      }
    }
  }

  // ---------------------------------------------------------------------
  // ParseSpacedFormat

  /** A cleaned value with every sentinel turned back into a space. */
  function CleanValue(piece: string): string {
    ReplaceAll(CleanPiece(piece), InnerDelimiter, " ")
  }

  function CleanValues(pieces: seq<string>): (r: seq<string>)
    ensures |r| == |pieces|
    ensures forall k :: 0 <= k < |pieces| ==> r[k] == CleanValue(pieces[k])
  {
    seq(|pieces|, k requires 0 <= k < |pieces| => CleanValue(pieces[k]))
  }

  /** The format's variables: the format split on single spaces. */
  function SpacedVariables(format: string): (r: seq<string>)
    ensures |r| == Count(format, ' ') + 1
  {
    Split(format, ' ')
  }

  /** The content's values: the content, with framed spaces hidden, split on
      the spaces that remain. */
  function SpacedValues(content: string): (r: seq<string>)
    ensures |r| == ExposedSpaces(content, 0) + 1
  {
    ExposedSpaceCount(content, 0);
    Split(ReplaceInnerSpaces(content), ' ')
  }

  /** `ParseSpacedFormat(format, content)`: fails exactly when the format has
      a different number of spaces than the content has exposed spaces;
      otherwise pairs the k-th cleaned variable with the k-th cleaned value. */
  function ParseSpacedFormat(format: string, content: string): (r: Result<FieldMap, string>)
    ensures r.Failure? <==> Count(format, ' ') != ExposedSpaces(content, 0)
    ensures r.Failure? ==> r.error == Inconsistent
    ensures r.Success? ==>
      PairsFieldsWith(r.value, CleanAll(SpacedVariables(format)), CleanValues(SpacedValues(content)))
  {
    var variables := SpacedVariables(format);
    var values := SpacedValues(content);
    if |variables| != |values| then Failure(Inconsistent)
    else Success(ZipFields(CleanAll(variables), CleanValues(values)))
  }

  /** Plain fields round-trip: joining bare names and bare values with
      single spaces and parsing gives each name its value back. Names may
      hold underscores, as nginx variables do, since only values go through
      the sentinel restoration. */
  lemma PlainFieldsRoundTrip(names: seq<string>, values: seq<string>)
    requires |names| == |values| > 0
    requires forall k :: 0 <= k < |names| ==> IsBareName(names[k]) && IsPlainField(values[k])
    ensures ParseSpacedFormat(Join(names, ' '), Join(values, ' ')) == Success(ZipFields(names, values))
  {
    PlainVariables(names);
    PlainValues(values);
  }

  /** Bare names joined with spaces split back into themselves, cleaning
      included. */
  lemma PlainVariables(names: seq<string>)
    requires |names| > 0
    requires forall k :: 0 <= k < |names| ==> IsBareName(names[k])
    ensures CleanAll(SpacedVariables(Join(names, ' '))) == names
  {
    forall k | 0 <= k < |names|
      ensures ' ' !in names[k] && CleanPiece(names[k]) == names[k]
    {
      BareNameCleans(names[k]);
    }
    SplitJoin(names, ' ');
  }

  /** A bare name holds no space and is its own cleaned form. */
  lemma BareNameCleans(s: string)
    requires IsBareName(s)
    ensures ' ' !in s && CleanPiece(s) == s
  {
    assert ' ' !in s by {
      forall k | 0 <= k < |s| ensures s[k] != ' ' { assert !IsSpace(s[k]); }
    }
    CleanPlain(s);
  }

  /** Bare values joined with spaces are never framed and split back into
      themselves, cleaning and restoration included. */
  lemma PlainValues(values: seq<string>)
    requires |values| > 0
    requires forall k :: 0 <= k < |values| ==> IsPlainField(values[k])
    ensures CleanValues(SpacedValues(Join(values, ' '))) == values
  {
    PlainSplitsBack(values);
    forall k | 0 <= k < |values|
      ensures CleanValue(values[k]) == values[k]
    {
      CleanValuePlain(values[k]);
    }
  }

  lemma PlainSplitsBack(values: seq<string>)
    requires |values| > 0
    requires forall k :: 0 <= k < |values| ==> IsPlainField(values[k])
    ensures SpacedValues(Join(values, ' ')) == values
  {
    var content := Join(values, ' ');
    PlainJoin(values);
    UnframedContentUnchanged(content);
    assert ReplaceInnerSpaces(content) == content;
    PlainHasNoSpace(values);
    SplitJoin(values, ' ');
  }

  lemma CleanValuePlain(s: string)
    requires IsPlainField(s)
    ensures CleanValue(s) == s
  {
    CleanPlain(s);
    assert '_' !in s by { assert forall k :: 0 <= k < |s| ==> s[k] != '_'; }
    ReplaceAllAbsent(s, InnerDelimiter, " ");
  }

  lemma PlainHasNoSpace(parts: seq<string>)
    requires forall k :: 0 <= k < |parts| ==> IsPlainField(parts[k])
    ensures forall k :: 0 <= k < |parts| ==> ' ' !in parts[k] && '_' !in parts[k]
  {
    forall k | 0 <= k < |parts|
      ensures ' ' !in parts[k] && '_' !in parts[k]
    {
      assert IsPlainField(parts[k]);
    }
  }

  /** A format variable written bare: no white space and no wrapper
      character. Underscores are allowed. */
  predicate IsBareName(s: string) {
    forall k :: 0 <= k < |s| ==> !IsWrapper(s[k]) && !IsSpace(s[k])
  }

  /** A value written bare: no white space, wrapper character or underscore. */
  predicate IsPlainField(s: string) {
    forall k :: 0 <= k < |s| ==> !IsWrapper(s[k]) && !IsSpace(s[k]) && s[k] != '_'
  }

  lemma {:induction false} PlainJoin(parts: seq<string>)
    requires forall k :: 0 <= k < |parts| ==> IsPlainField(parts[k])
    ensures forall k :: 0 <= k < |Join(parts, ' ')| ==> !IsWrapper(Join(parts, ' ')[k])
    ensures '_' !in Join(parts, ' ')
  {
    if |parts| > 1 {
      PlainJoin(parts[1..]);
      var rest := Join(parts[1..], ' ');
      assert Join(parts, ' ') == parts[0] + " " + rest;
      forall k | 0 <= k < |Join(parts, ' ')|
        ensures !IsWrapper(Join(parts, ' ')[k])
      {
        if k < |parts[0]| {
          assert Join(parts, ' ')[k] == parts[0][k];
        } else if k > |parts[0]| {
          assert Join(parts, ' ')[k] == rest[k - |parts[0]| - 1];
        }
      }
    }
  }

  // ---------------------------------------------------------------------
  // Framed values keep their inner spaces

  /** `s` with every space written as the sentinel: the scan's output for a
      span that stays framed. */
  function Hide(s: string): (r: string)
    ensures ' ' !in r
    decreases |s|
  {
    if |s| == 0 then ""
    else (if s[0] == ' ' then InnerDelimiter else [s[0]]) + Hide(s[1..])
  }

  lemma {:induction false} HideAppend(a: string, b: string)
    ensures Hide(a + b) == Hide(a) + Hide(b)
    decreases |a|
  {
    if |a| > 0 {
      assert (a + b)[0] == a[0];
      assert (a + b)[1..] == a[1..] + b;
      HideAppend(a[1..], b);
    } else {
      assert a + b == b;
    }
  }

  /** Every prefix of `s` leaves the counter positive when entered with
      `frame`: no character of `s` closes the enclosing frame. */
  predicate StaysFramed(s: string, frame: int)
    decreases |s|
  {
    |s| == 0 || (FrameStep(frame, s[0]) > 0 && StaysFramed(s[1..], FrameStep(frame, s[0])))
  }

  /** Inside a span that stays framed, every space is hidden and nothing
      else changes. */
  lemma {:induction false} ScanFramed(s: string, frame: int)
    requires StaysFramed(s, frame)
    ensures Scan(s, frame) == Hide(s)
    decreases |s|
  {
    if |s| > 0 {
      ScanFramed(s[1..], FrameStep(frame, s[0]));
    }
  }

  /** The pairs of characters a value can be framed by. */
  predicate IsFramePair(open: char, close: char) {
    (open, close) in {('"', '"'), ('[', ']'), ('(', ')')}
  }

  /** The interior of a framed value that the parser gives back verbatim:
      clean ends, no underscore, and brackets inside it balanced so that
      the frame stays open until the closing character. */
  predicate IsFramedInterior(inner: string) {
    && IsBareInterior(inner)
    && '_' !in inner
    && StaysFramed(inner, 1)
    && FrameAfter(inner, 1) == 1
  }

  /** A quoted, bracketed or parenthesised value such as
      `"tested text that has [parentheses] (and) spaces"`. */
  predicate IsFramedField(v: string) {
    |v| >= 2 && IsFramePair(v[0], v[|v| - 1]) && IsFramedInterior(v[1..|v| - 1])
  }

  /** A value the space tokenizer handles: bare, or framed. */
  predicate IsSpacedField(v: string) {
    IsPlainField(v) || IsFramedField(v)
  }

  /** What the parser is meant to give back for a field: the interior of a
      framed field, a bare field as it is. */
  function Unwrapped(v: string): string {
    if IsFramedField(v) then v[1..|v| - 1] else v
  }

  /** A format variable written in a frame pair around a clean interior,
      as `[$time_local]` or `"$http_user_agent"`. */
  predicate IsFramedName(v: string) {
    |v| >= 2 && IsFramePair(v[0], v[|v| - 1]) && IsBareInterior(v[1..|v| - 1])
  }

  /** A format variable the space tokenizer gives back: no space inside,
      and bare or framed. */
  predicate IsSpacedName(v: string) {
    ' ' !in v && (IsBareName(v) || IsFramedName(v))
  }

  /** The variable name a format field is meant to give: the interior of a
      framed field, a bare field as it is. */
  function Unframed(v: string): string {
    if IsFramedName(v) then v[1..|v| - 1] else v
  }

  function UnframedAll(vs: seq<string>): (r: seq<string>)
    ensures |r| == |vs|
    ensures forall k :: 0 <= k < |vs| ==> r[k] == Unframed(vs[k])
  {
    seq(|vs|, k requires 0 <= k < |vs| => Unframed(vs[k]))
  }

  /** Every spaced field without a space is a spaced name, and both ways of
      unwrapping it agree. */
  lemma SpacedFieldIsName(v: string)
    requires IsSpacedField(v) && ' ' !in v
    ensures IsSpacedName(v) && Unframed(v) == Unwrapped(v)
  {
    if !IsFramedField(v) {
      assert IsPlainField(v);
      assert |v| >= 2 ==> IsWrapper(v[0]) || !IsFramePair(v[0], v[|v| - 1]);
    }
  }

  function UnwrappedAll(vs: seq<string>): (r: seq<string>)
    ensures |r| == |vs|
    ensures forall k :: 0 <= k < |vs| ==> r[k] == Unwrapped(vs[k])
  {
    seq(|vs|, k requires 0 <= k < |vs| => Unwrapped(vs[k]))
  }

  /** The first and last characters of a span without spaces at its ends
      survive hiding. */
  lemma HideEnds(s: string)
    requires |s| > 0 && s[0] != ' ' && s[|s| - 1] != ' '
    ensures |Hide(s)| > 0 && Hide(s)[0] == s[0] && Hide(s)[|Hide(s)| - 1] == s[|s| - 1]
  {
    var n := |s| - 1;
    assert s == s[..n] + [s[n]];
    HideAppend(s[..n], [s[n]]);
    assert Hide([s[n]]) == [s[n]] by { assert [s[n]][1..] == []; }
  }

  /** A framed value is scanned to its frame characters around the hidden
      interior, and leaves the counter back at zero. */
  lemma FramedValueScan(open: char, inner: string, close: char)
    requires IsFramePair(open, close) && IsFramedInterior(inner)
    ensures Scan([open] + inner + [close], 0) == [open] + Hide(inner) + [close]
    ensures FrameAfter([open] + inner + [close], 0) == 0
  {
    ScanAppend([open] + inner, [close], 0);
    ScanAppend([open], inner, 0);
    FrameAfterAppend([open] + inner, [close], 0);
    FrameAfterAppend([open], inner, 0);
    assert FrameAfter([open], 0) == 1 by { assert [open][1..] == []; }
    assert Scan([open], 0) == [open] by { assert [open][1..] == []; }
    ScanFramed(inner, 1);
    assert FrameAfter([close], 1) == 0 by { assert [close][1..] == []; }
    assert Scan([close], 1) == [close] by { assert [close][1..] == []; }
  }

  /** Cleaning and restoring the scanned framed value gives the interior
      back, inner spaces included. */
  lemma FramedValueParses(open: char, inner: string, close: char)
    requires IsFramePair(open, close) && IsFramedInterior(inner)
    ensures CleanValue(Scan([open] + inner + [close], 0)) == inner
  {
    var h := Hide(inner);
    FramedValueScan(open, inner, close);
    HideIsBare(inner);
    CleanUnwraps(open, h, close);
    HiddenRestores(inner);
  }

  lemma HideIsBare(inner: string)
    requires IsBareInterior(inner)
    ensures IsBareInterior(Hide(inner))
  {
    assert inner[0] != ' ' && inner[|inner| - 1] != ' ';
    HideEnds(inner);
  }

  lemma HiddenRestores(inner: string)
    requires StaysFramed(inner, 1) && '_' !in inner
    ensures ReplaceAll(Hide(inner), InnerDelimiter, " ") == inner
  {
    ScanFramed(inner, 1);
    RestoreUndoesReplace(inner, 1);
  }

  lemma NoSpaceAround(open: char, h: string, close: char)
    requires open != ' ' && close != ' ' && ' ' !in h
    ensures ' ' !in [open] + h + [close]
  {
  }

  lemma {:induction false} UnframedFrame(s: string, frame: int)
    requires forall k :: 0 <= k < |s| ==> !IsWrapper(s[k])
    ensures FrameAfter(s, frame) == frame
    decreases |s|
  {
    if |s| > 0 {
      UnframedFrame(s[1..], frame);
    }
  }

  /** A field of either kind: it leaves the counter at zero, is scanned to
      a piece without spaces, and cleans back to its unwrapped form. */
  lemma SpacedFieldScan(v: string)
    requires IsSpacedField(v)
    ensures FrameAfter(v, 0) == 0
    ensures ' ' !in Scan(v, 0)
    ensures CleanValue(Scan(v, 0)) == Unwrapped(v)
  {
    if IsFramedField(v) {
      FramedFieldScan(v);
    } else {
      PlainFieldScan(v);
    }
  }

  lemma FramedFieldScan(v: string)
    requires IsFramedField(v)
    ensures FrameAfter(v, 0) == 0
    ensures ' ' !in Scan(v, 0)
    ensures CleanValue(Scan(v, 0)) == v[1..|v| - 1]
  {
    var n := |v| - 1;
    SplitEnds(v);
    FramedValue(v, v[0], v[1..n], v[n]);
  }

  lemma SplitEnds(v: string)
    requires |v| >= 2
    ensures v == [v[0]] + v[1..|v| - 1] + [v[|v| - 1]]
  {
  }

  lemma FramedValue(w: string, open: char, inner: string, close: char)
    requires IsFramePair(open, close) && IsFramedInterior(inner)
    requires w == [open] + inner + [close]
    ensures FrameAfter(w, 0) == 0
    ensures ' ' !in Scan(w, 0)
    ensures CleanValue(Scan(w, 0)) == inner
  {
    FramedValueScan(open, inner, close);
    FramedValueParses(open, inner, close);
    NoSpaceAround(open, Hide(inner), close);
  }

  lemma PlainFieldScan(v: string)
    requires IsPlainField(v)
    ensures FrameAfter(v, 0) == 0
    ensures ' ' !in Scan(v, 0)
    ensures CleanValue(Scan(v, 0)) == v
  {
    UnframedFrame(v, 0);
    UnframedContentUnchanged(v);
    assert ' ' !in v by {
      forall k | 0 <= k < |v| ensures v[k] != ' ' { assert !IsSpace(v[k]); }
    }
    CleanValuePlain(v);
  }

  /** A format field of either kind cleans to its unframed form. */
  lemma SpacedNameCleans(v: string)
    requires IsSpacedName(v)
    ensures CleanPiece(v) == Unframed(v)
  {
    if IsFramedName(v) {
      var n := |v| - 1;
      assert v == [v[0]] + v[1..n] + [v[n]];
      CleanUnwraps(v[0], v[1..n], v[n]);
    } else {
      CleanPlain(v);
    }
  }

  function ScanEach(vs: seq<string>): (r: seq<string>)
    ensures |r| == |vs|
    ensures forall k :: 0 <= k < |vs| ==> r[k] == Scan(vs[k], 0)
  {
    seq(|vs|, k requires 0 <= k < |vs| => Scan(vs[k], 0))
  }

  /** Fields that each close every frame they open, joined with single
      spaces, are scanned field by field, the separating spaces staying
      exposed. */
  lemma {:induction false} ScanJoin(vs: seq<string>)
    requires |vs| > 0
    requires forall k :: 0 <= k < |vs| ==> FrameAfter(vs[k], 0) == 0
    ensures Scan(Join(vs, ' '), 0) == Join(ScanEach(vs), ' ')
    decreases |vs|
  {
    if |vs| > 1 {
      var rest := vs[1..];
      assert forall k :: 0 <= k < |rest| ==> rest[k] == vs[k + 1];
      ScanJoin(rest);
      ScanSeparated(vs[0], Join(rest, ' '));
      assert ScanEach(vs) == [Scan(vs[0], 0)] + ScanEach(rest);
      JoinCons(Scan(vs[0], 0), ScanEach(rest), ' ');
    }
  }

  /** A space after a field that closes all its frames stays a separator. */
  lemma ScanSeparated(a: string, b: string)
    requires FrameAfter(a, 0) == 0
    ensures Scan(a + " " + b, 0) == Scan(a, 0) + " " + Scan(b, 0)
  {
    ScanAppend(a + " ", b, 0);
    ScanAppend(a, " ", 0);
    FrameAfterAppend(a, " ", 0);
  }

  /** The values of a line of spaced fields: each field's scan, which the
      split gives back one by one. */
  lemma SpacedFieldValues(values: seq<string>)
    requires |values| > 0
    requires forall k :: 0 <= k < |values| ==> IsSpacedField(values[k])
    ensures CleanValues(SpacedValues(Join(values, ' '))) == UnwrappedAll(values)
  {
    var content, scanned := Join(values, ' '), ScanEach(values);
    EachFieldScan(values);
    ScanJoin(values);
    assert SpacedValues(content) == Split(Join(scanned, ' '), ' ');
    SplitJoin(scanned, ' ');
    CleanValuesOf(scanned, UnwrappedAll(values));
  }

  lemma EachFieldScan(values: seq<string>)
    requires forall k :: 0 <= k < |values| ==> IsSpacedField(values[k])
    ensures forall k :: 0 <= k < |values| ==> FrameAfter(values[k], 0) == 0
    ensures forall k :: 0 <= k < |values| ==> ' ' !in ScanEach(values)[k]
    ensures forall k :: 0 <= k < |values| ==> CleanValue(ScanEach(values)[k]) == UnwrappedAll(values)[k]
  {
    forall k | 0 <= k < |values|
      ensures FrameAfter(values[k], 0) == 0
      ensures ' ' !in Scan(values[k], 0) && CleanValue(Scan(values[k], 0)) == Unwrapped(values[k])
    {
      SpacedFieldScan(values[k]);
    }
  }

  lemma CleanValuesOf(pieces: seq<string>, expected: seq<string>)
    requires |pieces| == |expected|
    requires forall k :: 0 <= k < |pieces| ==> CleanValue(pieces[k]) == expected[k]
    ensures CleanValues(pieces) == expected
  {
  }

  lemma SpacedFieldNames(names: seq<string>)
    requires |names| > 0
    requires forall k :: 0 <= k < |names| ==> IsSpacedName(names[k])
    ensures CleanAll(SpacedVariables(Join(names, ' '))) == UnframedAll(names)
  {
    SplitJoin(names, ' ');
    forall k | 0 <= k < |names|
      ensures CleanPiece(names[k]) == Unframed(names[k])
    {
      SpacedNameCleans(names[k]);
    }
  }

  /** Round trip with framed fields: joining names and values, bare or
      framed, with single spaces and parsing gives each name its value,
      a framed value with its inner spaces and brackets intact. Names may
      hold underscores; values may not, because of the sentinel. */
  lemma FramedFieldsRoundTrip(names: seq<string>, values: seq<string>)
    requires |names| == |values| > 0
    requires forall k :: 0 <= k < |names| ==> IsSpacedName(names[k])
    requires forall k :: 0 <= k < |values| ==> IsSpacedField(values[k])
    ensures ParseSpacedFormat(Join(names, ' '), Join(values, ' '))
      == Success(ZipFields(UnframedAll(names), UnwrappedAll(values)))
  {
    SpacedFieldNames(names);
    SpacedFieldValues(values);
  }

  // ---------------------------------------------------------------------
  // Framed interiors built from pieces

  /** `s` neither opens nor closes a frame and holds no underscore. */
  predicate IsQuiet(s: string) {
    forall k :: 0 <= k < |s| ==> !IsWrapper(s[k]) && s[k] != '_'
  }

  /** Entered with counter `frame`, `s` keeps it positive throughout and
      hands it back unchanged. */
  predicate Balanced(s: string, frame: int) {
    StaysFramed(s, frame) && FrameAfter(s, frame) == frame
  }

  lemma {:induction false} QuietBalanced(s: string, frame: int)
    requires IsQuiet(s) && frame > 0
    ensures Balanced(s, frame)
    decreases |s|
  {
    if |s| > 0 {
      assert IsQuiet(s[1..]) by {
        forall k | 0 <= k < |s[1..]| ensures !IsWrapper(s[1..][k]) && s[1..][k] != '_' {
          assert s[1..][k] == s[k + 1];
        }
      }
      assert !IsWrapper(s[0]);
      QuietBalanced(s[1..], frame);
    }
  }

  lemma {:induction false} StaysFramedAppend(a: string, b: string, frame: int)
    requires StaysFramed(a, frame) && StaysFramed(b, FrameAfter(a, frame))
    ensures StaysFramed(a + b, frame)
    decreases |a|
  {
    if |a| > 0 {
      assert (a + b)[0] == a[0];
      assert (a + b)[1..] == a[1..] + b;
      StaysFramedAppend(a[1..], b, FrameStep(frame, a[0]));
    } else {
      assert a + b == b;
    }
  }

  lemma BalancedAppend(a: string, b: string, frame: int)
    requires Balanced(a, frame) && Balanced(b, frame)
    ensures Balanced(a + b, frame)
  {
    StaysFramedAppend(a, b, frame);
    FrameAfterAppend(a, b, frame);
  }

  lemma BalancedChar(c: char, frame: int)
    requires FrameStep(frame, c) > 0
    ensures StaysFramed([c], frame) && FrameAfter([c], frame) == FrameStep(frame, c)
  {
    assert [c][1..] == [];
  }

  /** A bracketed or parenthesised group of quiet text, met inside an open
      frame, opens one more level and closes it again. */
  lemma NestedGroup(open: char, w: string, close: char, frame: int)
    requires (open, close) == ('[', ']') || (open, close) == ('(', ')')
    requires IsQuiet(w) && frame > 0
    ensures Balanced([open] + w + [close], frame)
    ensures '_' !in [open] + w + [close]
  {
    BalancedChar(open, frame);
    QuietBalanced(w, frame + 1);
    StaysFramedAppend([open], w, frame);
    FrameAfterAppend([open], w, frame);
    BalancedChar(close, frame + 1);
    StaysFramedAppend([open] + w, [close], frame);
    FrameAfterAppend([open] + w, [close], frame);
  }

  /** Balanced spans without underscores, laid end to end between clean
      ends, make a framed interior. */
  lemma InteriorOfParts(a: string, g1: string, b: string, g2: string, c: string)
    requires Balanced(a, 1) && Balanced(g1, 1) && Balanced(b, 1) && Balanced(g2, 1) && Balanced(c, 1)
    requires '_' !in a && '_' !in g1 && '_' !in b && '_' !in g2 && '_' !in c
    requires |a| > 0 && !IsWrapper(a[0]) && !IsSpace(a[0])
    requires |c| > 0 && !IsWrapper(c[|c| - 1]) && !IsSpace(c[|c| - 1])
    ensures IsFramedInterior(a + g1 + b + g2 + c)
  {
    BalancedAppend(a, g1, 1);
    BalancedAppend(a + g1, b, 1);
    BalancedAppend(a + g1 + b, g2, 1);
    BalancedAppend(a + g1 + b + g2, c, 1);
    var inner := a + g1 + b + g2 + c;
    assert inner[0] == a[0];
    assert inner[|inner| - 1] == c[|c| - 1];
  }

  /** A framed interior wrapped in a frame pair is a framed field whose
      unwrapped form is that interior. */
  lemma FramedFieldOf(v: string, open: char, inner: string, close: char)
    requires IsFramePair(open, close) && IsFramedInterior(inner)
    requires v == [open] + inner + [close]
    ensures IsSpacedField(v) && Unwrapped(v) == inner
  {
    assert v[1..|v| - 1] == inner;
  }

  /** Framed with quiet text: `[text]`, `(text in parentheses)`, `"$var3"`. */
  lemma QuietFramedField(v: string, open: char, inner: string, close: char)
    requires IsFramePair(open, close) && IsQuiet(inner) && IsBareInterior(inner)
    requires v == [open] + inner + [close]
    ensures IsSpacedField(v) && Unwrapped(v) == inner
  {
    QuietBalanced(inner, 1);
    FramedFieldOf(v, open, inner, close);
  }

  // ---------------------------------------------------------------------
  // The line of the tokenizer's test

  /** The interior of the third value: plain words around a bracketed and
      a parenthesised group. */
  lemma NestedInterior(inner: string)
    requires inner == "tested text that has [parentheses] (and) spaces"
    ensures IsFramedInterior(inner)
  {
    var a, w1, b, w2, c := "tested text that has ", "parentheses", " ", "and", " spaces";
    NestedPieces(inner, a, w1, b, w2, c);
    QuietBalanced(a, 1);
    QuietBalanced(b, 1);
    QuietBalanced(c, 1);
    NestedGroup('[', w1, ']', 1);
    NestedGroup('(', w2, ')', 1);
    InteriorOfParts(a, ['['] + w1 + [']'], b, ['('] + w2 + [')'], c);
  }

  lemma NestedPieces(inner: string, a: string, w1: string, b: string, w2: string, c: string)
    requires inner == "tested text that has [parentheses] (and) spaces"
    requires a == "tested text that has " && w1 == "parentheses" && b == " "
    requires w2 == "and" && c == " spaces"
    ensures IsQuiet(a) && IsQuiet(w1) && IsQuiet(b) && IsQuiet(w2) && IsQuiet(c)
    ensures |a| > 0 && !IsWrapper(a[0]) && !IsSpace(a[0])
    ensures |c| > 0 && !IsWrapper(c[|c| - 1]) && !IsSpace(c[|c| - 1])
    ensures inner == a + (['['] + w1 + [']']) + b + (['('] + w2 + [')']) + c
  {
  }

  /** A bare field parses back to itself. */
  lemma PlainSpacedField(v: string)
    requires IsPlainField(v)
    ensures IsSpacedField(v) && ' ' !in v && Unwrapped(v) == v
  {
    assert ' ' !in v by {
      forall k | 0 <= k < |v| ensures v[k] != ' ' { assert !IsSpace(v[k]); }
    }
  }

  /** Five fields, bare or framed, joined and parsed back to their
      unwrapped forms under their unwrapped names. */
  lemma FiveFieldsParse(n0: string, n1: string, n2: string, n3: string, n4: string,
                        v0: string, v1: string, v2: string, v3: string, v4: string)
    requires IsSpacedName(n0) && IsSpacedName(n1) && IsSpacedName(n2) && IsSpacedName(n3) && IsSpacedName(n4)
    requires IsSpacedField(v0) && IsSpacedField(v1) && IsSpacedField(v2) && IsSpacedField(v3) && IsSpacedField(v4)
    ensures ParseSpacedFormat(n0 + " " + (n1 + " " + (n2 + " " + (n3 + " " + n4))),
                              v0 + " " + (v1 + " " + (v2 + " " + (v3 + " " + v4))))
      == Success(ZipFields([Unframed(n0), Unframed(n1), Unframed(n2), Unframed(n3), Unframed(n4)],
                           [Unwrapped(v0), Unwrapped(v1), Unwrapped(v2), Unwrapped(v3), Unwrapped(v4)]))
  {
    var names, values := [n0, n1, n2, n3, n4], [v0, v1, v2, v3, v4];
    JoinFive(n0, n1, n2, n3, n4, ' ');
    JoinFive(v0, v1, v2, v3, v4, ' ');
    FiveNames(names, n0, n1, n2, n3, n4);
    FiveSpaced(values, v0, v1, v2, v3, v4);
    FramedFieldsRoundTrip(names, values);
  }

  /** Five format fields, each bare or framed, in a list, unframed one by one. */
  lemma FiveNames(ns: seq<string>, a: string, b: string, c: string, d: string, e: string)
    requires ns == [a, b, c, d, e]
    requires IsSpacedName(a) && IsSpacedName(b) && IsSpacedName(c) && IsSpacedName(d) && IsSpacedName(e)
    ensures forall k :: 0 <= k < |ns| ==> IsSpacedName(ns[k])
    ensures UnframedAll(ns) == [Unframed(a), Unframed(b), Unframed(c), Unframed(d), Unframed(e)]
  {
    forall k | 0 <= k < |ns| ensures IsSpacedName(ns[k]) {
      assert k in {0, 1, 2, 3, 4};
    }
  }

  /** Five fields, each bare or framed, in a list, unwrapped one by one. */
  lemma FiveSpaced(vs: seq<string>, a: string, b: string, c: string, d: string, e: string)
    requires vs == [a, b, c, d, e]
    requires IsSpacedField(a) && IsSpacedField(b) && IsSpacedField(c) && IsSpacedField(d) && IsSpacedField(e)
    ensures forall k :: 0 <= k < |vs| ==> IsSpacedField(vs[k])
    ensures UnwrappedAll(vs) == [Unwrapped(a), Unwrapped(b), Unwrapped(c), Unwrapped(d), Unwrapped(e)]
  {
    forall k | 0 <= k < |vs| ensures IsSpacedField(vs[k]) {
      assert k in {0, 1, 2, 3, 4};
    }
  }

  /** The line of the tokenizer's test: five fields, three of them framed,
      one holding brackets and parentheses of its own, all parsed back. */
  lemma SpacedTestLine(format: string, content: string)
    requires format == "$var1 [$var2] \"$var3\" ($var4) $var5"
    requires content == "10 [text] \"" + "tested text that has [parentheses] (and) spaces" + "\" (text in parentheses) simple"
    ensures ParseSpacedFormat(format, content).Success?
    ensures var data := ParseSpacedFormat(format, content).value;
      && "$var1" in data && "$var2" in data && "$var3" in data && "$var4" in data && "$var5" in data
      && |data| == 5
      && data["$var1"] == "10"
      && data["$var2"] == "text"
      && data["$var3"] == "tested text that has [parentheses] (and) spaces"
      && data["$var4"] == "text in parentheses"
      && data["$var5"] == "simple"
  {
    var inner := "tested text that has [parentheses] (and) spaces";
    var n0, n1, n2, n3, n4 := "$var1", "[$var2]", "\"$var3\"", "($var4)", "$var5";
    var k1, k2, k3 := "$var2", "$var3", "$var4";
    var v0, v1, v2, v3, v4 := "10", "[text]", "\"" + inner + "\"", "(text in parentheses)", "simple";
    var u1, u3 := "text", "text in parentheses";
    TestLineText(format, content, n0, n1, n2, n3, n4, v0, v1, v2, v3, v4, inner);
    TestNameFields(n0, n1, n2, n3, n4, k1, k2, k3);
    TestValueFields(v0, v1, v2, v3, v4, u1, inner, u3);
    FiveFieldsParse(n0, n1, n2, n3, n4, v0, v1, v2, v3, v4);
    FiveEntries(n0, k1, k2, k3, n4, v0, u1, inner, u3, v4);
  }

  lemma TestLineText(format: string, content: string,
                     n0: string, n1: string, n2: string, n3: string, n4: string,
                     v0: string, v1: string, v2: string, v3: string, v4: string, inner: string)
    requires format == "$var1 [$var2] \"$var3\" ($var4) $var5"
    requires content == "10 [text] \"" + inner + "\" (text in parentheses) simple"
    requires n0 == "$var1" && n1 == "[$var2]" && n2 == "\"$var3\"" && n3 == "($var4)" && n4 == "$var5"
    requires v0 == "10" && v1 == "[text]" && v2 == "\"" + inner + "\""
    requires v3 == "(text in parentheses)" && v4 == "simple"
    ensures format == n0 + " " + (n1 + " " + (n2 + " " + (n3 + " " + n4)))
    ensures content == v0 + " " + (v1 + " " + (v2 + " " + (v3 + " " + v4)))
  {
    TestFormatText(format, n0, n1, n2, n3, n4);
    TestContentText(content, v0, v1, v2, v3, v4, inner);
  }

  lemma TestFormatText(format: string, n0: string, n1: string, n2: string, n3: string, n4: string)
    requires format == "$var1 [$var2] \"$var3\" ($var4) $var5"
    requires n0 == "$var1" && n1 == "[$var2]" && n2 == "\"$var3\"" && n3 == "($var4)" && n4 == "$var5"
    ensures format == n0 + " " + (n1 + " " + (n2 + " " + (n3 + " " + n4)))
  {
  }

  lemma TestContentText(content: string, v0: string, v1: string, v2: string, v3: string, v4: string, inner: string)
    requires content == "10 [text] \"" + inner + "\" (text in parentheses) simple"
    requires v0 == "10" && v1 == "[text]" && v2 == "\"" + inner + "\""
    requires v3 == "(text in parentheses)" && v4 == "simple"
    ensures content == v0 + " " + (v1 + " " + (v2 + " " + (v3 + " " + v4)))
  {
  }

  lemma TestNameFields(n0: string, n1: string, n2: string, n3: string, n4: string,
                       k1: string, k2: string, k3: string)
    requires n0 == "$var1" && n1 == "[$var2]" && n2 == "\"$var3\"" && n3 == "($var4)" && n4 == "$var5"
    requires k1 == "$var2" && k2 == "$var3" && k3 == "$var4"
    ensures IsSpacedName(n0) && Unframed(n0) == n0
    ensures IsSpacedName(n1) && Unframed(n1) == k1
    ensures IsSpacedName(n2) && Unframed(n2) == k2
    ensures IsSpacedName(n3) && Unframed(n3) == k3
    ensures IsSpacedName(n4) && Unframed(n4) == n4
    ensures n0 != k1 && n0 != k2 && n0 != k3 && n0 != n4 && k1 != k2
    ensures k1 != k3 && k1 != n4 && k2 != k3 && k2 != n4 && k3 != n4
  {
    TestBareField(n0);
    assert ' ' !in k1 && ' ' !in k2 && ' ' !in k3;
    TestFramedField(n1, '[', k1, ']');
    TestFramedField(n2, '"', k2, '"');
    TestFramedField(n3, '(', k3, ')');
    TestBareField(n4);
    SpacedFieldIsName(n0);
    SpacedFieldIsName(n1);
    SpacedFieldIsName(n2);
    SpacedFieldIsName(n3);
    SpacedFieldIsName(n4);
  }

  lemma TestValueFields(v0: string, v1: string, v2: string, v3: string, v4: string,
                        u1: string, inner: string, u3: string)
    requires v0 == "10" && v1 == "[text]" && v3 == "(text in parentheses)" && v4 == "simple"
    requires u1 == "text" && u3 == "text in parentheses"
    requires inner == "tested text that has [parentheses] (and) spaces" && v2 == "\"" + inner + "\""
    ensures IsSpacedField(v0) && Unwrapped(v0) == v0
    ensures IsSpacedField(v1) && Unwrapped(v1) == u1
    ensures IsSpacedField(v2) && Unwrapped(v2) == inner
    ensures IsSpacedField(v3) && Unwrapped(v3) == u3
    ensures IsSpacedField(v4) && Unwrapped(v4) == v4
  {
    TestBareField(v0);
    TestFramedField(v1, '[', u1, ']');
    NestedInterior(inner);
    FramedFieldOf(v2, '"', inner, '"');
    TestFramedField(v3, '(', u3, ')');
    TestBareField(v4);
  }

  /** The bare fields of the test line. */
  lemma TestBareField(v: string)
    requires v in {"$var1", "$var5", "10", "simple"}
    ensures IsSpacedField(v) && ' ' !in v && Unwrapped(v) == v
  {
    assert IsPlainField(v);
    PlainSpacedField(v);
  }

  /** The framed fields of the test line whose interior is quiet text. */
  lemma TestFramedField(v: string, open: char, inner: string, close: char)
    requires || (v, open, inner, close) == ("[$var2]", '[', "$var2", ']')
             || (v, open, inner, close) == ("\"$var3\"", '"', "$var3", '"')
             || (v, open, inner, close) == ("($var4)", '(', "$var4", ')')
             || (v, open, inner, close) == ("[text]", '[', "text", ']')
             || (v, open, inner, close) == ("(text in parentheses)", '(', "text in parentheses", ')')
    ensures IsSpacedField(v) && Unwrapped(v) == inner
    ensures ' ' !in inner ==> ' ' !in v
  {
    QuietTestInterior(inner);
    TestFramedShape(v, open, inner, close);
    QuietFramedField(v, open, inner, close);
  }

  lemma TestFramedShape(v: string, open: char, inner: string, close: char)
    requires || (v, open, inner, close) == ("[$var2]", '[', "$var2", ']')
             || (v, open, inner, close) == ("\"$var3\"", '"', "$var3", '"')
             || (v, open, inner, close) == ("($var4)", '(', "$var4", ')')
             || (v, open, inner, close) == ("[text]", '[', "text", ']')
             || (v, open, inner, close) == ("(text in parentheses)", '(', "text in parentheses", ')')
    ensures IsFramePair(open, close) && v == [open] + inner + [close]
  {
    if v == "[$var2]" {
    } else if v == "\"$var3\"" {
    } else if v == "($var4)" {
    } else if v == "[text]" {
    } else {
      assert v == "(text in parentheses)";
    }
  }

  lemma QuietTestInterior(inner: string)
    requires inner in {"$var2", "$var3", "$var4", "text", "text in parentheses"}
    ensures IsQuiet(inner) && IsBareInterior(inner)
  {
  }

  /** No parsed value ever holds the sentinel. */
  lemma SpacedValuesHaveNoSentinel(format: string, content: string)
    ensures ParseSpacedFormat(format, content).Success? ==>
      forall key | key in ParseSpacedFormat(format, content).value ::
        !Contains(ParseSpacedFormat(format, content).value[key], InnerDelimiter)
  {
    var r := ParseSpacedFormat(format, content);
    if r.Success? {
      var values := CleanValues(SpacedValues(content));
      assert forall key | key in r.value :: r.value[key] in values;
      CleanValuesHaveNoSentinel(SpacedValues(content));
    }
  }

  lemma CleanValuesHaveNoSentinel(pieces: seq<string>)
    ensures forall v | v in CleanValues(pieces) :: !Contains(v, InnerDelimiter)
  {
    forall v | v in CleanValues(pieces)
      ensures !Contains(v, InnerDelimiter)
    {
      var k :| 0 <= k < |pieces| && CleanValues(pieces)[k] == v;
      RestoredHasNoSentinel(CleanPiece(pieces[k]));
    }
  }

  // ---------------------------------------------------------------------
  // The behaviours worth knowing about, on concrete inputs

  /** A space inside brackets is hidden; one after an unmatched `)` is not,
      because the frame has gone negative and `[` only brings it back to 0. */
  lemma UnmatchedCloserExposesSpaces()
    ensures FrameStep(FrameStep(0, ')'), '[') == 0
    ensures ReplaceInnerSpaces(")[a b]") == ")[a b]"
    ensures ReplaceInnerSpaces("[a b]") == "[a___b]"
  {
  }

  /** A quote seen inside a bracket closes a frame instead of opening one,
      so the space inside the quotes is exposed again. */
  lemma QuoteInsideBracketCloses()
    ensures ReplaceInnerSpaces("[x \"y z\"]") == "[x___\"y z\"]"
  {
  }

  /** The sentinel is not private: an underscore next to a framed space is
      read back as part of the sentinel. */
  lemma UnderscoreNextToFramedSpace()
    ensures ReplaceInnerSpaces("[a_ b]") == "[a____b]"
    ensures ReplaceAll("a____b", InnerDelimiter, " ") == "a _b"
  {
  }

  /** A format with one field fewer than the content is rejected. */
  lemma SpacedCountMismatch()
    ensures ParseSpacedFormat("$var1 $var3", "1 2 3") == Failure(Inconsistent)
  {
    MismatchFormatSpaces();
    MismatchContentSpaces();
  }

  lemma MismatchFormatSpaces()
    ensures Count("$var1 $var3", ' ') == 1
  {
    assert "$var1 $var3" == "$var1" + " " + "$var3";
    CountAppend("$var1" + " ", "$var3", ' ');
    CountAppend("$var1", " ", ' ');
    CountAbsent("$var1", ' ');
    CountAbsent("$var3", ' ');
  }

  lemma MismatchContentSpaces()
    ensures ExposedSpaces("1 2 3", 0) == 2
  {
  }
}
