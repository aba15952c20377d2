/** The pipe-delimited tokenizer (`ParsePipedFormat`), the one the exporter
    is wired to. The line is split on every `|`, framed or not, so no
    sentinel is involved and spaces inside values are kept as they are. */
module PipeParser {
  import opened Wrappers
  import opened GoStrings
  import opened Fields

  /** The pieces of a format or of a content line: split on every `|`. */
  function PipedPieces(s: string): (r: seq<string>)
    ensures |r| == Count(s, '|') + 1
    ensures forall k :: 0 <= k < |r| ==> '|' !in r[k]
  {
    Split(s, '|')
  }

  /** `ParsePipedFormat(format, content)`: fails exactly when format and
      content hold different numbers of pipes; otherwise pairs the k-th
      cleaned variable with the k-th cleaned value. */
  function ParsePipedFormat(format: string, content: string): (r: Result<FieldMap, string>)
    ensures r.Failure? <==> Count(format, '|') != Count(content, '|')
    ensures r.Failure? ==> r.error == Inconsistent
    ensures r.Success? ==>
      PairsFieldsWith(r.value, CleanAll(PipedPieces(format)), CleanAll(PipedPieces(content)))
  {
    var variables := PipedPieces(format);
    var values := PipedPieces(content);
    if |variables| != |values| then Failure(Inconsistent)
    else Success(ZipFields(CleanAll(variables), CleanAll(values)))
  }

  /** A field the pipe tokenizer gives back verbatim: no pipe, no wrapper
      character, and no white space at either end. Inner spaces are fine. */
  predicate IsPipeSafe(s: string) {
    && (forall k :: 0 <= k < |s| ==> s[k] != '|' && !IsWrapper(s[k]))
    && (s == [] || (!IsSpace(s[0]) && !IsSpace(s[|s| - 1])))
  }

  /** Round trip: joining pipe-safe names and values with `|` and parsing
      gives each name its value back. */
  lemma PipedFieldsRoundTrip(names: seq<string>, values: seq<string>)
    requires |names| == |values| > 0
    requires forall k :: 0 <= k < |names| ==> IsPipeSafe(names[k]) && IsPipeSafe(values[k])
    ensures ParsePipedFormat(Join(names, '|'), Join(values, '|')) == Success(ZipFields(names, values))
  {
    PipedSplitsBack(names);
    PipedSplitsBack(values);
  }

  /** Pipe-safe pieces joined with `|` split and clean back into themselves. */
  lemma PipedSplitsBack(parts: seq<string>)
    requires |parts| > 0
    requires forall k :: 0 <= k < |parts| ==> IsPipeSafe(parts[k])
    ensures CleanAll(PipedPieces(Join(parts, '|'))) == parts
  {
    forall k | 0 <= k < |parts|
      ensures '|' !in parts[k] && CleanPiece(parts[k]) == parts[k]
    {
      PipeSafeIsClean(parts[k]);
    }
    SplitJoin(parts, '|');
    CleanAllFixed(parts);
  }

  lemma PipeSafeIsClean(s: string)
    requires IsPipeSafe(s)
    ensures '|' !in s && CleanPiece(s) == s
  {
    CleanPlain(s);
  }

  /** A pipe inside a quoted value still splits it, so a one-field format
      rejects such a line. */
  lemma QuotedPipeSplits()
    ensures ParsePipedFormat("$a", "\"x|y\"") == Failure(Inconsistent)
  {
    assert Count("$a", '|') == 0 by {}
    assert Count("\"x|y\"", '|') == 1 by {}
  }

  /** The field-count mismatch of the two-field format against a
      three-value line. */
  lemma PipedCountMismatch()
    ensures ParsePipedFormat("$var1 | $var3", "1 | 2 | 3") == Failure(Inconsistent)
  {
    assert "$var1 | $var3" == "$var1 " + "|" + " $var3";
    CountAppend("$var1 " + "|", " $var3", '|');
    CountAppend("$var1 ", "|", '|');
    CountAbsent("$var1 ", '|');
    CountAbsent(" $var3", '|');
    assert "1 | 2 | 3" == "1 " + "|" + " 2 " + "|" + " 3";
    CountAppend("1 " + "|" + " 2 " + "|", " 3", '|');
    CountAppend("1 " + "|" + " 2 ", "|", '|');
    CountAppend("1 " + "|", " 2 ", '|');
    CountAppend("1 ", "|", '|');
    CountAbsent("1 ", '|');
    CountAbsent(" 2 ", '|');
    CountAbsent(" 3", '|');
  }

  /** Pipe-free pieces joined with `|` are parsed piece by piece: the k-th
      cleaned variable gets the k-th cleaned value. */
  lemma PipedPiecesParse(names: seq<string>, values: seq<string>)
    requires |names| == |values| > 0
    requires forall k :: 0 <= k < |names| ==> '|' !in names[k] && '|' !in values[k]
    ensures ParsePipedFormat(Join(names, '|'), Join(values, '|'))
      == Success(ZipFields(CleanAll(names), CleanAll(values)))
  {
    SplitJoin(names, '|');
    SplitJoin(values, '|');
  }

  // ---------------------------------------------------------------------
  // Padded and framed fields

  /** How a field is written: bare, or between a pair of wrapper characters. */
  datatype Frame = Bare | Framed(open: char, close: char)

  /** A field as written between two pipes: white space, then the word in
      its frame, then white space again, as in ` [text] `. */
  datatype PipedField = PipedField(pre: string, frame: Frame, word: string, post: string)

  function FieldText(f: PipedField): string {
    match f.frame
    case Bare => f.pre + f.word + f.post
    case Framed(open, close) => f.pre + ([open] + f.word + [close]) + f.post
  }

  predicate IsPadding(s: string) {
    forall k :: 0 <= k < |s| ==> IsSpace(s[k])
  }

  /** A field the pipe tokenizer gives back as its word: padded with white
      space only, no pipe, and the word either bare and pipe-safe or framed
      with a clean interior. */
  predicate IsPipedField(f: PipedField) {
    && IsPadding(f.pre) && IsPadding(f.post)
    && '|' !in f.pre + f.word + f.post
    && match f.frame
       case Bare => f.word != [] && IsPipeSafe(f.word)
       case Framed(open, close) => (open, close) in {('"', '"'), ('[', ']'), ('(', ')')} && IsBareInterior(f.word)
  }

  function FieldTexts(fs: seq<PipedField>): (r: seq<string>)
    ensures |r| == |fs|
    ensures forall k :: 0 <= k < |fs| ==> r[k] == FieldText(fs[k])
  {
    seq(|fs|, k requires 0 <= k < |fs| => FieldText(fs[k]))
  }

  function Words(fs: seq<PipedField>): (r: seq<string>)
    ensures |r| == |fs|
    ensures forall k :: 0 <= k < |fs| ==> r[k] == fs[k].word
  {
    seq(|fs|, k requires 0 <= k < |fs| => fs[k].word)
  }

  /** Spaces around a piece are trimmed away before its wrapper is. */
  lemma PaddedClean(pre: string, w: string, post: string)
    requires IsPadding(pre) && IsPadding(post)
    requires |w| > 0 && !IsSpace(w[0]) && !IsSpace(w[|w| - 1])
    ensures CleanPiece(pre + w + post) == CleanPiece(w)
  {
    PaddedTrimSpace(pre, w, post);
  }

  /** A padded bare word cleans to itself. */
  lemma PaddedBareClean(s: string, pre: string, w: string, post: string)
    requires IsPadding(pre) && IsPadding(post) && w != [] && IsPipeSafe(w)
    requires s == pre + w + post
    ensures CleanPiece(s) == w
  {
    PaddedClean(pre, w, post);
    assert CleanPiece(w) == w by { CleanPlain(w); }
  }

  /** A padded framed word cleans to its interior. */
  lemma PaddedFramedClean(s: string, pre: string, open: char, inner: string, close: char, post: string)
    requires IsPadding(pre) && IsPadding(post)
    requires (open, close) in {('"', '"'), ('[', ']'), ('(', ')')} && IsBareInterior(inner)
    requires s == pre + ([open] + inner + [close]) + post
    ensures CleanPiece(s) == inner
  {
    var w := [open] + inner + [close];
    PaddedClean(pre, w, post);
    assert CleanPiece(w) == inner by { CleanUnwraps(open, inner, close); }
  }

  /** A padded field holds no pipe and cleans to its word. */
  lemma PipedFieldCleans(f: PipedField)
    requires IsPipedField(f)
    ensures '|' !in FieldText(f)
    ensures CleanPiece(FieldText(f)) == f.word
  {
    var s := FieldText(f);
    match f.frame
    case Bare =>
      PaddedBareClean(s, f.pre, f.word, f.post);
    case Framed(open, close) =>
      assert '|' !in s by {
        assert forall k | 0 <= k < |s| :: s[k] in f.pre + f.word + f.post || s[k] == open || s[k] == close;
      }
      PaddedFramedClean(s, f.pre, open, f.word, close, f.post);
  }

  /** Padded fields split on no pipe and clean, one by one, to their words. */
  lemma CleanFieldTexts(fs: seq<PipedField>)
    requires forall k :: 0 <= k < |fs| ==> IsPipedField(fs[k])
    ensures forall k :: 0 <= k < |fs| ==> '|' !in FieldTexts(fs)[k]
    ensures CleanAll(FieldTexts(fs)) == Words(fs)
  {
    var ts := FieldTexts(fs);
    forall k | 0 <= k < |fs|
      ensures '|' !in ts[k] && CleanAll(ts)[k] == Words(fs)[k]
    {
      PipedFieldCleans(fs[k]);
    }
  }

  /** Round trip with padded and framed fields: joining the written names
      and values with `|` and parsing gives each name's word the value's
      word, padding and wrappers removed, inner spaces kept. */
  lemma PaddedFieldsRoundTrip(names: seq<PipedField>, values: seq<PipedField>)
    requires |names| == |values| > 0
    requires forall k :: 0 <= k < |names| ==> IsPipedField(names[k]) && IsPipedField(values[k])
    ensures ParsePipedFormat(Join(FieldTexts(names), '|'), Join(FieldTexts(values), '|'))
      == Success(ZipFields(Words(names), Words(values)))
  {
    CleanFieldTexts(names);
    CleanFieldTexts(values);
    PipedPiecesParse(FieldTexts(names), FieldTexts(values));
  }

  // ---------------------------------------------------------------------
  // The line of the tokenizer's test

  /** The line of the tokenizer's test: five fields separated by ` | `,
      three of them framed, one holding brackets and parentheses of its
      own, all parsed back with the padding and the wrappers removed. */
  lemma PipedTestLine(format: string, content: string)
    requires format == "$var1 | [$var2] | \"$var3\" | ($var4) | $var5"
    requires content == "10 | [text] | \"" + "tested text that has [parentheses] (and) spaces" + "\" | (text in parentheses) | simple"
    ensures ParsePipedFormat(format, content).Success?
    ensures var data := ParsePipedFormat(format, content).value;
      && "$var1" in data && "$var2" in data && "$var3" in data && "$var4" in data && "$var5" in data
      && |data| == 5
      && data["$var1"] == "10"
      && data["$var2"] == "text"
      && data["$var3"] == "tested text that has [parentheses] (and) spaces"
      && data["$var4"] == "text in parentheses"
      && data["$var5"] == "simple"
  {
    var inner := "tested text that has [parentheses] (and) spaces";
    var k0, k1, k2, k3, k4 := "$var1", "$var2", "$var3", "$var4", "$var5";
    var u0, u1, u3, u4 := "10", "text", "text in parentheses", "simple";
    var names := TestFields(k0, k1, k2, k3, k4);
    var values := TestFields(u0, u1, inner, u3, u4);
    PipedTestWords(k0, k1, k2, k3, k4, u0, u1, u3, u4);
    PipedTestInterior(inner);
    TestFieldsParse(k0, k1, k2, k3, k4, u0, u1, inner, u3, u4);
    PipedTestFormat(format, k0, k1, k2, k3, k4);
    PipedTestContent(content, u0, u1, inner, u3, u4);
    FiveEntries(k0, k1, k2, k3, k4, u0, u1, inner, u3, u4);
  }

  /** The shape of the test line: a bare word, a bracketed, a quoted and a
      parenthesised one, and a bare word, with one space inside each pipe. */
  function TestFields(w0: string, w1: string, w2: string, w3: string, w4: string): (r: seq<PipedField>)
    ensures |r| == 5 && Words(r) == [w0, w1, w2, w3, w4]
  {
    [PipedField("", Bare, w0, " "), PipedField(" ", Framed('[', ']'), w1, " "),
     PipedField(" ", Framed('"', '"'), w2, " "), PipedField(" ", Framed('(', ')'), w3, " "),
     PipedField(" ", Bare, w4, "")]
  }

  /** The written texts of the test line's fields. */
  lemma TestFieldTexts(w0: string, w1: string, w2: string, w3: string, w4: string)
    ensures FieldTexts(TestFields(w0, w1, w2, w3, w4)) == [w0 + " ", " " + (['['] + w1 + [']']) + " ",
      " " + (['"'] + w2 + ['"']) + " ", " " + (['('] + w3 + [')']) + " ", " " + w4]
  {
    assert "" + w0 + " " == w0 + " " && " " + w4 + "" == " " + w4;
  }

  /** The test line's fields, for words that fit their frames, parse back
      into the words. */
  lemma TestFieldsParse(k0: string, k1: string, k2: string, k3: string, k4: string,
                        u0: string, u1: string, u2: string, u3: string, u4: string)
    requires k0 != [] && k4 != [] && u0 != [] && u4 != []
    requires IsPipeSafe(k0) && IsPipeSafe(k4) && IsPipeSafe(u0) && IsPipeSafe(u4)
    requires IsBareInterior(k1) && IsBareInterior(k2) && IsBareInterior(k3)
    requires IsBareInterior(u1) && IsBareInterior(u2) && IsBareInterior(u3)
    requires '|' !in k1 && '|' !in k2 && '|' !in k3 && '|' !in u1 && '|' !in u2 && '|' !in u3
    ensures ParsePipedFormat(Join(FieldTexts(TestFields(k0, k1, k2, k3, k4)), '|'),
                             Join(FieldTexts(TestFields(u0, u1, u2, u3, u4)), '|'))
      == Success(ZipFields([k0, k1, k2, k3, k4], [u0, u1, u2, u3, u4]))
  {
    var names, values := TestFields(k0, k1, k2, k3, k4), TestFields(u0, u1, u2, u3, u4);
    TestFieldsValid(k0, k1, k2, k3, k4);
    TestFieldsValid(u0, u1, u2, u3, u4);
    PaddedFieldsRoundTrip(names, values);
  }

  lemma TestFieldsValid(w0: string, w1: string, w2: string, w3: string, w4: string)
    requires w0 != [] && w4 != [] && IsPipeSafe(w0) && IsPipeSafe(w4)
    requires IsBareInterior(w1) && IsBareInterior(w2) && IsBareInterior(w3)
    requires '|' !in w1 && '|' !in w2 && '|' !in w3
    ensures forall k :: 0 <= k < 5 ==> IsPipedField(TestFields(w0, w1, w2, w3, w4)[k])
  {
    var fs := TestFields(w0, w1, w2, w3, w4);
    assert IsPadding("") && IsPadding(" ");
    forall k | 0 <= k < 5 ensures IsPipedField(fs[k]) {
      assert k in {0, 1, 2, 3, 4};
    }
  }

  lemma PipedTestFormat(format: string, k0: string, k1: string, k2: string, k3: string, k4: string)
    requires format == "$var1 | [$var2] | \"$var3\" | ($var4) | $var5"
    requires k0 == "$var1" && k1 == "$var2" && k2 == "$var3" && k3 == "$var4" && k4 == "$var5"
    ensures format == Join(FieldTexts(TestFields(k0, k1, k2, k3, k4)), '|')
  {
    var t0, t1, t2, t3, t4 := "$var1 ", " [$var2] ", " \"$var3\" ", " ($var4) ", " $var5";
    TestFieldTexts(k0, k1, k2, k3, k4);
    assert t0 == k0 + " " && t4 == " " + k4;
    assert t1 == " " + (['['] + k1 + [']']) + " ";
    assert t2 == " " + (['"'] + k2 + ['"']) + " ";
    assert t3 == " " + (['('] + k3 + [')']) + " ";
    JoinFive(t0, t1, t2, t3, t4, '|');
    PipedFormatJoin(format, t0, t1, t2, t3, t4);
  }

  lemma PipedFormatJoin(format: string, t0: string, t1: string, t2: string, t3: string, t4: string)
    requires format == "$var1 | [$var2] | \"$var3\" | ($var4) | $var5"
    requires t0 == "$var1 " && t1 == " [$var2] " && t2 == " \"$var3\" " && t3 == " ($var4) " && t4 == " $var5"
    ensures format == t0 + "|" + (t1 + "|" + (t2 + "|" + (t3 + "|" + t4)))
  {
  }

  lemma PipedTestContent(content: string, u0: string, u1: string, inner: string, u3: string, u4: string)
    requires content == "10 | [text] | \"" + inner + "\" | (text in parentheses) | simple"
    requires u0 == "10" && u1 == "text" && u3 == "text in parentheses" && u4 == "simple"
    ensures content == Join(FieldTexts(TestFields(u0, u1, inner, u3, u4)), '|')
  {
    var t0, t1, t3, t4 := "10 ", " [text] ", " (text in parentheses) ", " simple";
    var t2 := " " + (['"'] + inner + ['"']) + " ";
    TestFieldTexts(u0, u1, inner, u3, u4);
    assert t0 == u0 + " " && t4 == " " + u4;
    assert t1 == " " + (['['] + u1 + [']']) + " ";
    assert t3 == " " + (['('] + u3 + [')']) + " ";
    JoinFive(t0, t1, t2, t3, t4, '|');
    PipedContentJoin(content, t0, t1, t2, t3, t4, inner);
  }

  lemma PipedContentJoin(content: string, t0: string, t1: string, t2: string, t3: string, t4: string, inner: string)
    requires content == "10 | [text] | \"" + inner + "\" | (text in parentheses) | simple"
    requires t0 == "10 " && t1 == " [text] " && t2 == " " + (['"'] + inner + ['"']) + " "
    requires t3 == " (text in parentheses) " && t4 == " simple"
    ensures content == t0 + "|" + (t1 + "|" + (t2 + "|" + (t3 + "|" + t4)))
  {
  }

  /** The short words of the test line: keys and values without pipes,
      wrappers or outer spaces, the keys distinct. */
  lemma PipedTestWords(k0: string, k1: string, k2: string, k3: string, k4: string,
                       u0: string, u1: string, u3: string, u4: string)
    requires k0 == "$var1" && k1 == "$var2" && k2 == "$var3" && k3 == "$var4" && k4 == "$var5"
    requires u0 == "10" && u1 == "text" && u3 == "text in parentheses" && u4 == "simple"
    ensures k0 != [] && k4 != [] && u0 != [] && u4 != []
    ensures IsPipeSafe(k0) && IsPipeSafe(k4) && IsPipeSafe(u0) && IsPipeSafe(u4)
    ensures IsBareInterior(k1) && IsBareInterior(k2) && IsBareInterior(k3)
    ensures IsBareInterior(u1) && IsBareInterior(u3)
    ensures '|' !in k1 && '|' !in k2 && '|' !in k3 && '|' !in u1 && '|' !in u3
    ensures k0 != k1 && k0 != k2 && k0 != k3 && k0 != k4 && k1 != k2
    ensures k1 != k3 && k1 != k4 && k2 != k3 && k2 != k4 && k3 != k4
  {
  }

  /** The interior of the quoted third value has clean ends and no pipe. */
  lemma PipedTestInterior(inner: string)
    requires inner == "tested text that has [parentheses] (and) spaces"
    ensures IsBareInterior(inner) && '|' !in inner
  {
    var a, c := "tested text that has ", "[parentheses] (and) spaces";
    assert inner == a + c;
    assert '|' !in a && '|' !in c;
    assert inner[0] == a[0];
    assert inner[|inner| - 1] == c[|c| - 1];
  }
}
