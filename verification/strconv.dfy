/** The two conversions of Go's `strconv` the status label needs: `Atoi`
    (base 10, into a 64-bit `int`) and `Itoa`. */
module StrConv {
  import opened Wrappers

  const MinInt64: int := -0x8000_0000_0000_0000
  const MaxInt64: int := 0x7fff_ffff_ffff_ffff

  predicate InInt64(n: int) {
    MinInt64 <= n <= MaxInt64
  }

  /** The two ways `Atoi` fails: not a signed decimal, or out of range. */
  datatype NumError = ErrSyntax | ErrRange

  predicate IsDigit(c: char) {
    '0' <= c <= '9'
  }

  predicate AllDigits(s: string) {
    forall k :: 0 <= k < |s| ==> IsDigit(s[k])
  }

  /** What `Atoi` accepts: an optional `+` or `-` and at least one digit. */
  predicate IsDecimal(s: string) {
    if |s| > 0 && (s[0] == '+' || s[0] == '-') then |s| > 1 && AllDigits(s[1..])
    else |s| > 0 && AllDigits(s)
  }

  function DigitValue(c: char): nat
    requires IsDigit(c)
  {
    c as int - '0' as int
  }

  function DigitChar(d: nat): (c: char)
    requires d < 10
    ensures IsDigit(c) && DigitValue(c) == d
  {
    ('0' as int + d) as char
  }

  /** The value of a digit string, most significant digit first. */
  function DigitsValue(s: string): nat
    requires AllDigits(s)
  {
    if |s| == 0 then 0
    else DigitsValue(s[..|s| - 1]) * 10 + DigitValue(s[|s| - 1])
  }

  const MaxUint64: int := 0xffff_ffff_ffff_ffff

  /** The text after an optional leading `+` or `-`. */
  function Unsigned(s: string): (r: string)
    ensures |r| <= |s|
  {
    if |s| > 0 && (s[0] == '+' || s[0] == '-') then s[1..] else s
  }

  /** The longest run of digits `s` starts with. */
  function LeadingDigits(s: string): (r: string)
    ensures |r| <= |s| && r == s[..|r|] && AllDigits(r)
    ensures |r| == |s| || !IsDigit(s[|r|])
  {
    if |s| == 0 || !IsDigit(s[0]) then ""
    else [s[0]] + LeadingDigits(s[1..])
  }

  /** The digits after the sign already exceed 2^64 - 1 before the first
      character that is not a digit, if any. */
  predicate Overflows(s: string) {
    DigitsValue(LeadingDigits(Unsigned(s))) > MaxUint64
  }

  /** The number a signed decimal spells. */
  function DecimalValue(s: string): int
    requires IsDecimal(s)
  {
    var magnitude := DigitsValue(Unsigned(s));
    if s[0] == '-' then -(magnitude as int) else magnitude
  }

  /** The digit loop of `strconv.ParseUint` in base 10 with 64 bits, from
      accumulated value `acc`. A character that is not a digit is a syntax
      error; the value passing 2^64 - 1 is a range error, and that is found
      digit by digit, so a run that overflows before a stray character is
      reported as a range error. */
  function ScanDigits(s: string, acc: nat): Result<nat, NumError>
    decreases |s|
  {
    if |s| == 0 then Success(acc)
    else if !IsDigit(s[0]) then Failure(ErrSyntax)
    else
      var n := acc * 10 + DigitValue(s[0]);
      if n > MaxUint64 then Failure(ErrRange) else ScanDigits(s[1..], n)
  }

  /** `strconv.Atoi(s)`. Go takes a fast path below 19 bytes and
      `ParseInt` otherwise; both strip one sign and read the digits left to
      right. Below 19 bytes the digits cannot pass 2^64 - 1, so one scan
      models both paths. A syntax error is a text that is not a signed
      decimal and does not overflow first; a range error is a digit run
      that overflows 2^64 - 1 first, or a decimal outside 64 bits. */
  function Atoi(s: string): (r: Result<int, NumError>)
    ensures r == Failure(ErrSyntax) <==> !IsDecimal(s) && !Overflows(s)
    ensures r == Failure(ErrRange) <==> Overflows(s) || (IsDecimal(s) && !InInt64(DecimalValue(s)))
    ensures r.Success? ==> IsDecimal(s) && r.value == DecimalValue(s) && InInt64(r.value)
  {
    var digits := Unsigned(s);
    ScanDigitsMeets(digits, 0);
    if |s| == 0 || |digits| == 0 then Failure(ErrSyntax)
    else
      match ScanDigits(digits, 0)
      case Failure(e) => Failure(e)
      case Success(magnitude) =>
        var n: int := if s[0] == '-' then -(magnitude as int) else magnitude;
        if InInt64(n) then Success(n) else Failure(ErrRange)
  }

  /** What the digit loop gives, stated on the whole text: a range error
      when the leading digit run passes 2^64 - 1, else a syntax error when
      the text is not all digits, else the value of the digits. */
  function DigitsOutcome(s: string): Result<nat, NumError> {
    if DigitsValue(LeadingDigits(s)) > MaxUint64 then Failure(ErrRange)
    else if |LeadingDigits(s)| < |s| then Failure(ErrSyntax)
    else Success(DigitsValue(s))
  }

  lemma ScanDigitsMeets(s: string, i: nat)
    requires i <= |s| && AllDigits(s[..i]) && DigitsValue(s[..i]) <= MaxUint64
    ensures ScanDigits(s[i..], DigitsValue(s[..i])) == DigitsOutcome(s)
    decreases |s| - i
  {
    var lead := LeadingDigits(s);
    if i == |s| {
      assert s[..i] == s;
      LeadingDigitsOf(s, i);
    } else if !IsDigit(s[i]) {
      LeadingDigitsOf(s, i);
    } else {
      var p := s[..i + 1];
      assert p[..i] == s[..i];
      assert s[i..][1..] == s[i + 1..];
      assert AllDigits(p);
      if DigitsValue(p) > MaxUint64 {
        LeadingDigitsCover(s, i + 1);
        DigitsValueMonotone(lead, i + 1);
        assert lead[..i + 1] == p;
      } else {
        ScanDigitsMeets(s, i + 1);
      }
    }
  }

  /** A digit prefix followed by the end or a non-digit is the leading run. */
  lemma {:induction false} LeadingDigitsOf(s: string, i: nat)
    requires i <= |s| && AllDigits(s[..i]) && (i == |s| || !IsDigit(s[i]))
    ensures LeadingDigits(s) == s[..i]
    decreases i
  {
    if i > 0 {
      assert IsDigit(s[..i][0]);
      var t := s[1..];
      assert AllDigits(t[..i - 1]) by {
        var u := t[..i - 1];
        forall k | 0 <= k < |u| ensures IsDigit(u[k]) { assert u[k] == s[..i][k + 1]; }
      }
      LeadingDigitsOf(t, i - 1);
      assert [s[0]] + t[..i - 1] == s[..i];
    }
  }

  /** A digit prefix lies within the leading run. */
  lemma LeadingDigitsCover(s: string, i: nat)
    requires i <= |s| && AllDigits(s[..i])
    ensures i <= |LeadingDigits(s)|
  {
  }

  /** Dropping trailing digits never makes the value larger. */
  lemma {:induction false} DigitsValueMonotone(s: string, j: nat)
    requires AllDigits(s) && j <= |s|
    ensures AllDigits(s[..j]) && DigitsValue(s[..j]) <= DigitsValue(s)
    decreases |s|
  {
    assert AllDigits(s[..j]) by {
      forall k | 0 <= k < j ensures IsDigit(s[..j][k]) { assert s[..j][k] == s[k]; }
    }
    if j < |s| {
      var t := s[..|s| - 1];
      assert AllDigits(t) by {
        forall k | 0 <= k < |t| ensures IsDigit(t[k]) { assert t[k] == s[k]; }
      }
      DigitsValueMonotone(t, j);
      assert t[..j] == s[..j];
    } else {
      assert s[..j] == s;
    }
  }

  /** A run of digits that passes 2^64 - 1 is a range error whatever
      follows it, a stray character included. */
  lemma OverflowBeforeSyntax(digits: string, rest: string)
    requires |digits| > 0 && AllDigits(digits) && DigitsValue(digits) > MaxUint64
    ensures Atoi(digits + rest) == Failure(ErrRange)
  {
    var s := digits + rest;
    assert Unsigned(s) == s;
    assert s[..|digits|] == digits;
    LeadingDigitsCover(s, |digits|);
    var lead := LeadingDigits(s);
    DigitsValueMonotone(lead, |digits|);
    assert lead[..|digits|] == digits;
  }

  function Pow10(n: nat): (r: nat)
    ensures r > 0
  {
    if n == 0 then 1 else 10 * Pow10(n - 1)
  }

  lemma {:induction false} Pow10Monotone(a: nat, b: nat)
    requires a <= b
    ensures Pow10(a) <= Pow10(b)
    decreases b
  {
    if a < b {
      Pow10Monotone(a, b - 1);
    }
  }

  /** `n` digits spell less than 10^n. */
  lemma {:induction false} DigitsBelow(s: string)
    requires AllDigits(s)
    ensures DigitsValue(s) < Pow10(|s|)
    decreases |s|
  {
    if |s| > 0 {
      var t := s[..|s| - 1];
      assert AllDigits(t) by {
        forall k | 0 <= k < |t| ensures IsDigit(t[k]) { assert t[k] == s[k]; }
      }
      DigitsBelow(t);
    }
  }

  /** Below 19 characters, the fast path Go takes, no text is a range
      error: such a text is read as its number or rejected as syntax. */
  lemma ShortTextNeverOverflows(s: string)
    requires |s| < 19
    ensures Atoi(s) != Failure(ErrRange)
    ensures Atoi(s) == Failure(ErrSyntax) <==> !IsDecimal(s)
  {
    var lead := LeadingDigits(Unsigned(s));
    DigitsBelow(lead);
    Pow10Monotone(|lead|, 18);
    assert Pow10(18) == 1_000_000_000_000_000_000 by {
      assert Pow10(6) == 1_000_000;
      assert Pow10(12) == 1_000_000_000_000;
    }
    assert !Overflows(s);
    if IsDecimal(s) {
      DigitsBelow(Unsigned(s));
      Pow10Monotone(|Unsigned(s)|, 18);
    }
  }

  /** The range error of an overflowing run survives a trailing letter:
      2^64 written out and followed by `x`. */
  lemma OverflowThenLetter()
    ensures Atoi(Itoa(MaxUint64 + 1) + "x") == Failure(ErrRange)
  {
    DigitsRoundTrip(MaxUint64 + 1);
    OverflowBeforeSyntax(Itoa(MaxUint64 + 1), "x");
  }

  /** The decimal digits of `n`, with no leading zero. */
  function Digits(n: nat): (s: string)
    ensures |s| > 0 && AllDigits(s)
    ensures |s| > 1 ==> s[0] != '0'
  {
    if n < 10 then [DigitChar(n)]
    else Digits(n / 10) + [DigitChar(n % 10)]
  }

  /** `strconv.Itoa(n)`: a minus sign for negative numbers, then the digits. */
  function Itoa(n: int): string {
    if n < 0 then "-" + Digits(-n) else Digits(n)
  }

  lemma {:induction false} DigitsRoundTrip(n: nat)
    ensures DigitsValue(Digits(n)) == n
  {
    var s := Digits(n);
    if n >= 10 {
      DigitsRoundTrip(n / 10);
      assert s[..|s| - 1] == Digits(n / 10);
    }
  }

  /** `Atoi` reads back what `Itoa` writes, for every 64-bit value. */
  lemma AtoiItoa(n: int)
    requires InInt64(n)
    ensures Atoi(Itoa(n)) == Success(n)
  {
    var s := Itoa(n);
    var u := if n < 0 then Digits(-n) else Digits(n);
    DigitsRoundTrip(if n < 0 then -n else n);
    assert Unsigned(s) == u by {
      if n < 0 { assert s[1..] == u; }
    }
    assert u[..|u|] == u;
    LeadingDigitsOf(u, |u|);
    ItoaCanonical(n);
    assert s[0] == '-' <==> n < 0;
    assert DecimalValue(s) == n;
    assert !Overflows(s);
    var r := Atoi(s);
    FailureKinds(r);
  }

  /** A failed conversion is one of the two errors. */
  lemma FailureKinds(r: Result<int, NumError>)
    ensures r.Failure? ==> r == Failure(ErrSyntax) || r == Failure(ErrRange)
  {
    if r.Failure? {
      match r.error
      case ErrSyntax =>
      case ErrRange =>
    }
  }

  /** A number outside the 64-bit range is written out but read back as a
      range error. */
  lemma AtoiOutOfRange(n: int)
    requires !InInt64(n)
    ensures Atoi(Itoa(n)) == Failure(ErrRange)
  {
    var s := Itoa(n);
    var u := if n < 0 then Digits(-n) else Digits(n);
    DigitsRoundTrip(if n < 0 then -n else n);
    assert Unsigned(s) == u by {
      if n < 0 { assert s[1..] == u; }
    }
    assert u[..|u|] == u;
    LeadingDigitsOf(u, |u|);
  }

  /** The rendering `Itoa` gives is canonical: no `+`, no leading zero. */
  lemma ItoaCanonical(n: int)
    ensures IsDecimal(Itoa(n))
    ensures Itoa(n)[0] != '+'
    ensures n >= 0 && |Itoa(n)| > 1 ==> Itoa(n)[0] != '0'
  {
    if n < 0 {
      assert Itoa(n)[1..] == Digits(-n);
    }
  }

  /** Non-canonical spellings parse to the same number. */
  lemma NonCanonicalStatus()
    ensures Atoi("+200") == Success(200)
    ensures Atoi("0200") == Success(200)
    ensures Atoi("") == Failure(ErrSyntax)
    ensures Atoi("-") == Failure(ErrSyntax)
    ensures Atoi("20x") == Failure(ErrSyntax)
  {
    assert "+200"[1..] == "200";
    assert DigitsValue("200") == 200 by {
      assert "200"[..2] == "20" && "20"[..1] == "2" && "2"[..0] == "";
    }
    assert DigitsValue("0200") == 200 by {
      assert "0200"[..3] == "020" && "020"[..2] == "02" && "02"[..1] == "0" && "0"[..0] == "";
    }
    assert !AllDigits("20x") by { assert !IsDigit("20x"[2]); }
  }
}
