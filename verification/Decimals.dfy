/** Base-10 text for integers, as `strconv` reads and writes it. */
module Decimals {
  import opened Wrappers

  const MIN_INT64 := -0x8000_0000_0000_0000
  const MAX_INT64 := 0x7fff_ffff_ffff_ffff

  predicate InInt64(n: int) {
    MIN_INT64 <= n <= MAX_INT64
  }

  predicate IsDigit(c: char) {
    '0' <= c <= '9'
  }

  predicate AllDigits(s: string) {
    forall i :: 0 <= i < |s| ==> IsDigit(s[i])
  }

  function DigitValue(c: char): nat
    requires IsDigit(c)
  {
    c as int - '0' as int
  }

  function DigitChar(n: nat): (c: char)
    requires n < 10
    ensures IsDigit(c) && DigitValue(c) == n
  {
    ('0' as int + n) as char
  }

  function ValueOf(digits: string): nat
    requires AllDigits(digits)
  {
    if digits == "" then 0
    else
      var n := |digits| - 1;
      ValueOf(digits[..n]) * 10 + DigitValue(digits[n])
  }

  function Pow10(n: nat): (r: nat)
    ensures r >= 1
  {
    if n == 0 then 1 else 10 * Pow10(n - 1)
  }

  /** The decimal digits of `n`, without leading zeros. */
  function FormatNat(n: nat): (s: string)
    ensures s != "" && AllDigits(s)
  {
    if n < 10 then [DigitChar(n)] else FormatNat(n / 10) + [DigitChar(n % 10)]
  }

  lemma {:induction false} FormatNatValue(n: nat)
    ensures ValueOf(FormatNat(n)) == n
    ensures FormatNat(n)[0] == '0' <==> n == 0
  {
    if n < 10 {
      assert FormatNat(n)[..0] == "";
    } else {
      FormatNatValue(n / 10);
      var init, last := FormatNat(n / 10), DigitChar(n % 10);
      assert (init + [last])[..|init|] == init;
    }
  }

  lemma Distribute(a: int, p: int, b: int)
    ensures (a * p + b) * 10 == a * (10 * p) + b * 10
  {
  }

  lemma {:induction false} ValueOfConcat(a: string, b: string)
    requires AllDigits(a) && AllDigits(b)
    ensures AllDigits(a + b) && ValueOf(a + b) == ValueOf(a) * Pow10(|b|) + ValueOf(b)
  {
    if b == "" {
      assert a + b == a;
    } else {
      var n := |b| - 1;
      var all := a + b;
      ValueOfConcat(a, b[..n]);
      assert all[..|all| - 1] == a + b[..n] && all[|all| - 1] == b[n];
      Distribute(ValueOf(a), Pow10(n), ValueOf(b[..n]));
    }
  }

  lemma {:induction false} ValueOfZeros(zeros: string)
    requires forall i :: 0 <= i < |zeros| ==> zeros[i] == '0'
    ensures AllDigits(zeros) && ValueOf(zeros) == 0
  {
    if zeros != "" { ValueOfZeros(zeros[..|zeros| - 1]); }
  }

  /** Leading zeros do not count. */
  lemma ValueOfPadded(zeros: string, digits: string)
    requires AllDigits(digits) && forall i :: 0 <= i < |zeros| ==> zeros[i] == '0'
    ensures AllDigits(zeros + digits) && ValueOf(zeros + digits) == ValueOf(digits)
  {
    ValueOfZeros(zeros);
    ValueOfConcat(zeros, digits);
  }

  /** `strconv.FormatInt(n, 10)`. */
  function FormatInt(n: int): string {
    if n < 0 then "-" + FormatNat(-n) else FormatNat(n)
  }

  function Signed(negative: bool, magnitude: nat): int {
    var n: int := magnitude;
    if negative then -n else n
  }

  /** `strconv.ParseInt(s, 10, 64)`; both of its errors are none. */
  function ParseInt64(s: string): (r: Option<int>)
    ensures r.Some? ==> InInt64(r.value)
  {
    var negative := s != "" && s[0] == '-';
    var digits := if s != "" && (s[0] == '-' || s[0] == '+') then s[1..] else s;
    if digits == "" || !AllDigits(digits) then None
    else
      var n := Signed(negative, ValueOf(digits));
      if InInt64(n) then Some(n) else None
  }

  /** The text is an optional sign and digits, and denotes `n`, which fits. */
  ghost predicate IntegerText(s: string, n: int) {
    exists sign: string, digits: string ::
      s == sign + digits && sign in {"", "+", "-"} && digits != "" && AllDigits(digits) && InInt64(n) &&
      n == Signed(sign == "-", ValueOf(digits))
  }

  /** What parses is exactly such a text, with the number it denotes. */
  lemma ParseInt64Reads(s: string, n: int)
    ensures ParseInt64(s) == Some(n) <==> IntegerText(s, n)
  {
    hide ValueOf;
    if ParseInt64(s) == Some(n) {
      var sign := if s[0] == '-' then "-" else if s[0] == '+' then "+" else "";
      var digits := s[|sign|..];
      assert s == sign + digits;
      assert n == Signed(sign == "-", ValueOf(digits));
    }
    if sign: string, digits: string :|
      s == sign + digits && sign in {"", "+", "-"} && digits != "" && AllDigits(digits) && InInt64(n) &&
      n == Signed(sign == "-", ValueOf(digits))
    {
      assert IsDigit(digits[0]);
      if sign == "" { assert s == digits; } else { assert s[0] == sign[0] && s[1..] == digits; }
    }
  }

  /** Formatting and parsing are inverse on every int64. */
  lemma ParseOfFormat(n: int)
    requires InInt64(n)
    ensures ParseInt64(FormatInt(n)) == Some(n)
  {
    hide ValueOf, FormatNat;
    var digits := FormatNat(if n < 0 then -n else n);
    FormatNatValue(if n < 0 then -n else n);
    assert IsDigit(digits[0]);
    if n < 0 { assert ("-" + digits)[1..] == digits; }
  }
}
