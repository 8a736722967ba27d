/**
 * Base-10 integer formatting and parsing as the translator uses them:
 * `strconv.FormatInt(int64(p), 10)` on the forward path, `strconv.Atoi` and
 * the `int32(...)` conversion on the reverse path. Go's `int` is taken to be
 * 64 bits wide.
 */
module Strconv {
  import opened Wrappers

  const MinInt32: int := -0x8000_0000
  const MaxInt32: int := 0x7fff_ffff
  const MinInt64: int := -0x8000_0000_0000_0000
  const MaxInt64: int := 0x7fff_ffff_ffff_ffff

  /** Go's int32. */
  type Int32 = x: int | MinInt32 <= x <= MaxInt32

  /** Go's int32(x) conversion: keeps the low 32 bits, two's complement. */
  function WrapInt32(x: int): (r: Int32)
    ensures MinInt32 <= x <= MaxInt32 ==> r == x
    ensures (x - r) % 0x1_0000_0000 == 0
  {
    (x - MinInt32) % 0x1_0000_0000 + MinInt32
  }

  predicate IsDigit(c: char) {
    '0' <= c <= '9'
  }

  predicate AllDigits(s: string) {
    forall i | 0 <= i < |s| :: IsDigit(s[i])
  }

  function DigitValue(c: char): (d: nat)
    requires IsDigit(c)
    ensures d < 10
  {
    c as int - '0' as int
  }

  function DigitChar(d: nat): (c: char)
    requires d < 10
    ensures IsDigit(c) && DigitValue(c) == d
  {
    ('0' as int + d) as char
  }

  /** The number a string of decimal digits denotes, most significant digit first. */
  function DigitsValue(s: string): (n: nat)
    requires AllDigits(s)
  {
    if s == [] then 0 else 10 * DigitsValue(s[..|s| - 1]) + DigitValue(s[|s| - 1])
  }

  /** Shortest decimal rendering of a natural number. */
  function FormatNat(n: nat): (s: string)
    ensures |s| > 0 && AllDigits(s)
    ensures s[0] == '0' <==> n == 0
  {
    if n < 10 then [DigitChar(n)] else FormatNat(n / 10) + [DigitChar(n % 10)]
  }

  /** The form FormatInt produces: an optional '-', digits, no leading zero, no "-0". */
  predicate Canonical(s: string) {
    && |s| > 0
    && (s[0] == '-' ==> |s| > 1 && AllDigits(s[1..]) && s[1] != '0')
    && (s[0] != '-' ==> AllDigits(s) && (s[0] == '0' ==> |s| == 1))
  }

  /** `strconv.FormatInt(x, 10)`. */
  function FormatInt(x: int): (s: string)
    ensures Canonical(s)
  {
    if x < 0 then "-" + FormatNat(-x) else FormatNat(x)
  }

  /**
   * `strconv.Atoi` on a 64-bit platform: an optional '+' or '-', then one or
   * more decimal digits, and a value that fits in int64; anything else is an
   * error (None). The error's cause is not modelled.
   */
  function Atoi(s: string): (r: Option<int>)
    ensures r.Some? ==> MinInt64 <= r.value <= MaxInt64
    ensures r.Some? ==> |s| > 0 && (IsDigit(s[0]) || ((s[0] == '+' || s[0] == '-') && |s| > 1))
    ensures r.Some? ==> forall i | 1 <= i < |s| :: IsDigit(s[i])
  {
    if |s| == 0 then None
    else
      var digits := if s[0] == '+' || s[0] == '-' then s[1..] else s;
      if |digits| == 0 || !AllDigits(digits) then None
      else
        var v: int := if s[0] == '-' then 0 - (DigitsValue(digits) as int) else DigitsValue(digits);
        if MinInt64 <= v <= MaxInt64 then Some(v) else None
  }

  lemma {:induction false} FormatNatValue(n: nat)
    ensures DigitsValue(FormatNat(n)) == n
  {
    var s := FormatNat(n);
    if n >= 10 {
      FormatNatValue(n / 10);
      assert s[..|s| - 1] == FormatNat(n / 10);
    }
  }

  lemma {:induction false} LeadingNonZeroPositive(s: string)
    requires |s| > 0 && AllDigits(s) && s[0] != '0'
    ensures DigitsValue(s) > 0
  {
    if |s| > 1 {
      LeadingNonZeroPositive(s[..|s| - 1]);
    }
  }

  /** Digits without a leading zero are exactly what FormatNat renders. */
  lemma {:induction false} FormatNatDigits(s: string)
    requires |s| > 0 && AllDigits(s) && (s[0] == '0' ==> |s| == 1)
    ensures FormatNat(DigitsValue(s)) == s
  {
    var n := DigitsValue(s);
    var t := s[..|s| - 1];
    var d := DigitValue(s[|s| - 1]);
    if |s| == 1 {
      assert t == [];
    } else {
      LeadingNonZeroPositive(t);
      assert n / 10 == DigitsValue(t) && n % 10 == d;
      FormatNatDigits(t);
      assert s == t + [s[|s| - 1]];
    }
  }

  /** Parsing what FormatInt rendered gives the number back, for every int64. */
  lemma FormatIntRoundTrip(x: int)
    requires MinInt64 <= x <= MaxInt64
    ensures Atoi(FormatInt(x)) == Some(x)
  {
    var s := FormatInt(x);
    if x < 0 {
      assert s[1..] == FormatNat(-x);
      FormatNatValue(-x);
    } else {
      FormatNatValue(x);
    }
  }

  /** Rendering what Atoi parsed from a canonical string gives the string back. */
  lemma AtoiCanonicalRoundTrip(s: string)
    requires Canonical(s) && Atoi(s).Some?
    ensures FormatInt(Atoi(s).value) == s
  {
    if s[0] == '-' {
      var digits := s[1..];
      assert s == "-" + digits;
      AtoiValue(s, digits);
      LeadingNonZeroPositive(digits);
      FormatNatDigits(digits);
    } else {
      AtoiValue(s, s);
      FormatNatDigits(s);
    }
  }

  /** A first character that is neither a digit nor a sign, or a later non-digit, is rejected. */
  lemma AtoiRejectsNonDigit(s: string, i: nat)
    requires i < |s| && !IsDigit(s[i])
    requires i == 0 ==> s[0] != '+' && s[0] != '-'
    ensures Atoi(s) == None
  {
  }

  /** An Atoi result pushed through int32(...) is the value itself when it already fits. */
  lemma Int32AtoiRoundTrip(p: Int32)
    ensures Atoi(FormatInt(p)).Some? && WrapInt32(Atoi(FormatInt(p)).value) == p
  {
    FormatIntRoundTrip(p);
  }

  /** A sign-and-digits string parses to the number it denotes whenever that fits in int64. */
  lemma AtoiValue(s: string, digits: string)
    requires |digits| > 0 && AllDigits(digits)
    requires s == digits || s == "+" + digits || s == "-" + digits
    ensures var v: int := if s == "-" + digits then 0 - DigitsValue(digits) else DigitsValue(digits);
      Atoi(s) == if MinInt64 <= v <= MaxInt64 then Some(v) else None
  {
  }

  /** An explicit '+' changes nothing. */
  lemma AtoiPlusSign(digits: string)
    requires |digits| > 0 && AllDigits(digits)
    ensures Atoi("+" + digits) == Atoi(digits)
  {
  }

  lemma {:induction false} DigitsValueLeadingZero(digits: string)
    requires AllDigits(digits)
    ensures AllDigits("0" + digits) && DigitsValue("0" + digits) == DigitsValue(digits)
  {
    var s := "0" + digits;
    if digits != [] {
      assert s[..|s| - 1] == "0" + digits[..|digits| - 1];
      DigitsValueLeadingZero(digits[..|digits| - 1]);
    } else {
      assert s[..|s| - 1] == [];
    }
  }

  /** Digit strings of equal value parse alike, behind the same sign or none. */
  lemma AtoiSameValue(sign: string, a: string, b: string)
    requires sign == "" || sign == "+" || sign == "-"
    requires |a| > 0 && AllDigits(a) && |b| > 0 && AllDigits(b)
    requires DigitsValue(a) == DigitsValue(b)
    ensures Atoi(sign + a) == Atoi(sign + b)
  {
    if sign == "" {
      assert sign + a == a && sign + b == b;
    }
    AtoiValue(sign + a, a);
    AtoiValue(sign + b, b);
  }

  /** An extra leading zero before digits is ignored, behind any sign or none ("007" is "07" is 7). */
  lemma AtoiLeadingZero(sign: string, digits: string)
    requires sign == "" || sign == "+" || sign == "-"
    requires |digits| > 0 && AllDigits(digits)
    ensures Atoi(sign + ("0" + digits)) == Atoi(sign + digits)
  {
    DigitsValueLeadingZero(digits);
    AtoiSameValue(sign, "0" + digits, digits);
  }

  /** Well-formed text of a number outside int64 is rejected (Go's range error). */
  lemma AtoiOutOfRange(x: int)
    requires x < MinInt64 || MaxInt64 < x
    ensures Atoi(FormatInt(x)) == None
  {
    if x < 0 {
      FormatNatValue(-x);
      AtoiValue(FormatInt(x), FormatNat(-x));
    } else {
      FormatNatValue(x);
      AtoiValue(FormatInt(x), FormatNat(x));
    }
  }
}
