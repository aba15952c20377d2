/** What the two log-line tokenizers share: the cleaning applied to every
    format variable and every value, and the loop that pairs the k-th name
    with the k-th value in a field map. */
module Fields {
  import opened GoStrings

  /** Field-name to value mapping for one log line, e.g. `$status` to `200`. */
  type FieldMap = map<string, string>

  /** The error both tokenizers return on a field-count mismatch. */
  const Inconsistent: string := "format and content are inconsistent"

  /** The characters a piece is unwrapped of, in the order they are trimmed. */
  predicate IsWrapper(c: char) {
    c == '"' || c == '[' || c == ']' || c == '(' || c == ')'
  }

  /** The "clear" step: `TrimSpace`, then `Trim` with `"`, `[`, `]`, `(` and
      `)` in that order. Each `Trim` removes every copy at both ends. */
  function CleanPiece(s: string): (r: string)
    ensures r == [] || (r[0] != ')' && r[|r| - 1] != ')')
  {
    Trim(Trim(Trim(Trim(Trim(TrimSpace(s), '"'), '['), ']'), '('), ')')
  }

  /** A cleaned piece is a contiguous part of the raw piece. */
  lemma CleanIsInfix(s: string)
    ensures IsInfix(CleanPiece(s), s)
  {
    var t := TrimSpace(s);
    var q := Trim(t, '"');
    var b1 := Trim(q, '[');
    var b2 := Trim(b1, ']');
    var p1 := Trim(b2, '(');
    TrimIsInfix(s, WhiteSpace);
    TrimIsInfix(t, Single('"'));
    TrimIsInfix(q, Single('['));
    TrimIsInfix(b1, Single(']'));
    TrimIsInfix(b2, Single('('));
    TrimIsInfix(p1, Single(')'));
    InfixTransitive(q, t, s);
    InfixTransitive(b1, q, s);
    InfixTransitive(b2, b1, s);
    InfixTransitive(p1, b2, s);
    InfixTransitive(CleanPiece(s), p1, s);
  }

  /** Cleans every piece, keeping their order. */
  function CleanAll(pieces: seq<string>): (r: seq<string>)
    ensures |r| == |pieces|
    ensures forall k :: 0 <= k < |pieces| ==> r[k] == CleanPiece(pieces[k])
  {
    seq(|pieces|, k requires 0 <= k < |pieces| => CleanPiece(pieces[k]))
  }

  /** Pieces that are each their own cleaned form are cleaned into themselves. */
  lemma CleanAllFixed(pieces: seq<string>)
    requires forall k :: 0 <= k < |pieces| ==> CleanPiece(pieces[k]) == pieces[k]
    ensures CleanAll(pieces) == pieces
  {
  }

  /** A piece with no wrapper characters and no white space at either end
      is its own cleaned form. */
  lemma CleanPlain(s: string)
    requires forall k :: 0 <= k < |s| ==> !IsWrapper(s[k])
    requires s == [] || (!IsSpace(s[0]) && !IsSpace(s[|s| - 1]))
    ensures CleanPiece(s) == s
  {
  }

  /** The interior of a cleaned piece: no wrapper character and no white
      space at either end. */
  predicate IsBareInterior(inner: string) {
    && |inner| > 0
    && !IsWrapper(inner[0]) && !IsWrapper(inner[|inner| - 1])
    && !IsSpace(inner[0]) && !IsSpace(inner[|inner| - 1])
  }

  /** Cleaning strips only the outer wrapper: the interior of a quoted,
      bracketed or parenthesised piece, spaces included, is kept verbatim. */
  lemma CleanUnwraps(open: char, inner: string, close: char)
    requires (open, close) in {('"', '"'), ('[', ']'), ('(', ')')}
    requires IsBareInterior(inner)
    ensures CleanPiece([open] + inner + [close]) == inner
  {
    if open == '"' {
      CleanUnquotes(inner);
    } else if open == '[' {
      CleanUnbrackets(inner);
    } else {
      CleanUnparens(inner);
    }
  }

  lemma CleanUnquotes(inner: string)
    requires IsBareInterior(inner)
    ensures CleanPiece("\"" + inner + "\"") == inner
  {
    var s := "\"" + inner + "\"";
    assert TrimSpace(s) == s;
    TrimWrapped(inner, '"', '"');
    assert Trim(inner, '[') == inner && Trim(inner, ']') == inner;
    assert Trim(inner, '(') == inner && Trim(inner, ')') == inner;
  }

  lemma CleanUnbrackets(inner: string)
    requires IsBareInterior(inner)
    ensures CleanPiece("[" + inner + "]") == inner
  {
    var s := "[" + inner + "]";
    assert TrimSpace(s) == s;
    assert Trim(s, '"') == s;
    TrimWrapped(inner, '[', ']');
    TrimTrailing(inner, ']');
    assert Trim(inner, '(') == inner && Trim(inner, ')') == inner;
  }

  lemma CleanUnparens(inner: string)
    requires IsBareInterior(inner)
    ensures CleanPiece("(" + inner + ")") == inner
  {
    var s := "(" + inner + ")";
    assert TrimSpace(s) == s;
    assert Trim(s, '"') == s && Trim(s, '[') == s && Trim(s, ']') == s;
    TrimWrapped(inner, '(', ')');
    TrimTrailing(inner, ')');
  }

  /** Trimming `open` off a piece wrapped in `open`, `close`. */
  lemma TrimWrapped(inner: string, open: char, close: char)
    requires |inner| > 0 && inner[0] != open && inner[|inner| - 1] != open
    ensures Trim([open] + inner + [close], open) == if open == close then inner else inner + [close]
  {
    var s := [open] + inner + [close];
    assert s[1..] == inner + [close];
    assert TrimLeft(s, Single(open)) == inner + [close];
    if open == close {
      assert (inner + [close])[..|inner|] == inner;
    }
  }

  /** Trimming a single trailing `close`. */
  lemma TrimTrailing(inner: string, close: char)
    requires |inner| > 0 && inner[0] != close && inner[|inner| - 1] != close
    ensures Trim(inner + [close], close) == inner
  {
    assert (inner + [close])[..|inner|] == inner;
  }

  /** `k` is the last position at which its name occurs. */
  predicate IsLastOccurrence(names: seq<string>, k: int)
    requires 0 <= k < |names|
  {
    forall j :: k < j < |names| ==> names[j] != names[k]
  }

  /** `m` holds exactly the given names, each bound to the value paired with
      its last occurrence. */
  ghost predicate PairsFieldsWith(m: FieldMap, names: seq<string>, values: seq<string>)
    requires |names| == |values|
  {
    && m.Keys == (set k | 0 <= k < |names| :: names[k])
    && forall k :: 0 <= k < |names| && IsLastOccurrence(names, k) ==> m[names[k]] == values[k]
  }

  /** The parsers' `for k, variable := range variables { data[variable] = value }`
      loop: the k-th name receives the k-th value, later writes overwriting
      earlier ones. */
  function ZipFields(names: seq<string>, values: seq<string>): (m: FieldMap)
    requires |names| == |values|
    ensures PairsFieldsWith(m, names, values)
    ensures forall key | key in m :: m[key] in values
    decreases |names|
  {
    if |names| == 0 then map[]
    else
      var n := |names| - 1;
      var prev := ZipFields(names[..n], values[..n]);
      ZipStep(names, values, prev);
      prev[names[n] := values[n]]
  }

  /** One write of the zip loop: binding the last name to the last value
      extends a correct map of the shorter lists to one of the full lists. */
  lemma ZipStep(names: seq<string>, values: seq<string>, prev: FieldMap)
    requires |names| == |values| > 0
    requires PairsFieldsWith(prev, names[..|names| - 1], values[..|names| - 1])
    requires forall key | key in prev :: prev[key] in values[..|names| - 1]
    ensures var m := prev[names[|names| - 1] := values[|names| - 1]];
      PairsFieldsWith(m, names, values) && forall key | key in m :: m[key] in values
  {
    var n := |names| - 1;
    var m := prev[names[n] := values[n]];
    assert forall k :: 0 <= k < n ==> names[..n][k] == names[k];
    assert m.Keys == (set k | 0 <= k < |names| :: names[k]) by {
      assert (set k | 0 <= k < n :: names[..n][k]) == (set k | 0 <= k < n :: names[k]);
    }
    assert forall k :: 0 <= k < n && IsLastOccurrence(names, k) ==> IsLastOccurrence(names[..n], k);
    assert forall v | v in values[..n] :: v in values;
  }

  /** Distinct names give one entry per piece. */
  lemma {:induction false} ZipFieldsDistinct(names: seq<string>, values: seq<string>)
    requires |names| == |values|
    requires forall i, j :: 0 <= i < j < |names| ==> names[i] != names[j]
    ensures |ZipFields(names, values)| == |names|
    ensures forall k :: 0 <= k < |names| ==>
      names[k] in ZipFields(names, values) && ZipFields(names, values)[names[k]] == values[k]
    decreases |names|
  {
    if |names| > 0 {
      var n := |names| - 1;
      ZipFieldsDistinct(names[..n], values[..n]);
      assert names[n] !in ZipFields(names[..n], values[..n]);
    }
  }

  /** The map built from five distinct keys holds each key's value. */
  lemma FiveEntries(k0: string, k1: string, k2: string, k3: string, k4: string,
                     x0: string, x1: string, x2: string, x3: string, x4: string)
    requires k0 != k1 && k0 != k2 && k0 != k3 && k0 != k4 && k1 != k2
    requires k1 != k3 && k1 != k4 && k2 != k3 && k2 != k4 && k3 != k4
    ensures var m := ZipFields([k0, k1, k2, k3, k4], [x0, x1, x2, x3, x4]);
      && k0 in m && k1 in m && k2 in m && k3 in m && k4 in m && |m| == 5
      && m[k0] == x0 && m[k1] == x1 && m[k2] == x2 && m[k3] == x3 && m[k4] == x4
  {
    var ks, xs := [k0, k1, k2, k3, k4], [x0, x1, x2, x3, x4];
    forall i, j | 0 <= i < j < 5 ensures ks[i] != ks[j] {
      assert i in {0, 1, 2, 3} && j in {1, 2, 3, 4};
    }
    ZipFieldsDistinct(ks, xs);
    assert ks[0] == k0 && ks[1] == k1 && ks[2] == k2 && ks[3] == k3 && ks[4] == k4;
  }
}
