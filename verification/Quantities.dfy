/** Exact decimal quantities (cost/quantity.go). */
module Quantities {
  import opened Wrappers
  import opened Text
  import opened Decimals

  const MAX_QUANTITY_SCALE := 18

  /** Stands for `value * 10^-scale`. */
  datatype Quantity = Quantity(value: int, scale: int)

  /** Fits the fields' widths, int64 and int32, and has a scale the package accepts. */
  predicate Valid(q: Quantity) {
    InInt64(q.value) && 0 <= q.scale <= MAX_QUANTITY_SCALE
  }

  datatype QuantityError = Missing | NotDecimal | NonDigits | ScaleTooLarge | OutOfRange

  // -------------------------------------------------------------- literals

  /** The parts of a decimal literal. */
  datatype Literal = Literal(sign: string, whole: string, point: bool, fraction: string)

  predicate WellFormed(l: Literal) {
    && l.sign in {"", "+", "-"}
    && AllDigits(l.whole) && AllDigits(l.fraction)
    && (!l.point ==> l.fraction == "")
    && !(l.whole == "" && l.fraction == "")
  }

  function Unsigned(l: Literal): string {
    l.whole + if l.point then "." + l.fraction else ""
  }

  function Written(l: Literal): string {
    l.sign + Unsigned(l)
  }

  /** The literal's digits, read as one signed integer. */
  function Mantissa(l: Literal): int
    requires WellFormed(l)
  {
    Decimals.Signed(l.sign == "-", ValueOf(l.whole + l.fraction))
  }

  /** `text` is a literal that stands for `q`. */
  ghost predicate Spells(text: string, q: Quantity) {
    exists l :: Reads(l, text) && q == Quantity(Mantissa(l), |l.fraction|)
  }

  ghost predicate Reads(l: Literal, text: string) {
    WellFormed(l) && Written(l) == TrimSpace(text)
  }

  lemma DotlessDigits(s: string)
    requires AllDigits(s)
    ensures '.' !in s
  {
    assert forall i :: 0 <= i < |s| ==> IsDigit(s[i]);
  }

  lemma LiteralSegments(l: Literal)
    requires AllDigits(l.whole) && AllDigits(l.fraction)
    ensures Segments(Unsigned(l)) == if l.point then [l.whole, l.fraction] else [l.whole]
  {
    DotlessDigits(l.whole);
    DotlessDigits(l.fraction);
    if l.point {
      SegmentsOfJoin([l.whole, l.fraction]);
      assert Join([l.whole, l.fraction]) == l.whole + "." + l.fraction;
      assert Unsigned(l) == l.whole + "." + l.fraction;
    } else {
      SegmentsOfJoin([l.whole]);
      assert Unsigned(l) == l.whole;
    }
  }

  /** An unsigned literal starts with a digit or the point. */
  lemma UnsignedStart(l: Literal)
    requires WellFormed(l)
    ensures Unsigned(l) != "" && (IsDigit(Unsigned(l)[0]) || Unsigned(l)[0] == '.')
  {
    if l.whole != "" {
      assert IsDigit(l.whole[0]) && Unsigned(l)[0] == l.whole[0];
    } else {
      assert l.point && Unsigned(l)[0] == '.';
    }
  }

  /** A text is at most one literal. */
  lemma LiteralUnique(l: Literal, m: Literal)
    requires WellFormed(l) && WellFormed(m) && Written(l) == Written(m)
    ensures l == m
  {
    UnsignedStart(l);
    UnsignedStart(m);
    assert l.sign != "" ==> Written(l)[0] == l.sign[0];
    assert m.sign != "" ==> Written(m)[0] == m.sign[0];
    assert l.sign == m.sign;
    assert Unsigned(l) == Written(l)[|l.sign|..];
    assert Unsigned(m) == Written(m)[|m.sign|..];
    LiteralSegments(l);
    LiteralSegments(m);
  }

  // --------------------------------------------------------------- parsing

  method DecimalDigits(s: string) returns (all: bool)
    ensures all <==> AllDigits(s)
  {
    for i := 0 to |s|
      invariant AllDigits(s[..i])
    {
      if !IsDigit(s[i]) { return false; }
    }
    assert s[..|s|] == s;
    return true;
  }

  /** `strings.TrimLeft(s, "0")`. */
  function TrimZeros(s: string): (r: string)
    requires AllDigits(s)
    ensures AllDigits(r) && ValueOf(r) == ValueOf(s)
    ensures r != "" ==> r[0] != '0'
    decreases |s|
  {
    if s != "" && s[0] == '0' then
      assert s == "0" + s[1..];
      ValueOfPadded("0", s[1..]);
      TrimZeros(s[1..])
    else s
  }

  /** A text without its sign. */
  function Bare(text: string): string {
    if text != "" && text[0] in {'+', '-'} then text[1..] else text
  }

  /** The text is a literal; it is rejected for its scale, or else for its range,
      or else it is the quantity. */
  method ParseQuantity(raw: string) returns (r: Result<Quantity, QuantityError>)
    ensures r.Ok? ==> Valid(r.value) && Spells(raw, r.value)
    ensures r.Err? ==> forall q :: Valid(q) ==> !Spells(raw, q)
    ensures r == Err(OutOfRange) <==>
      exists l :: Reads(l, raw) && |l.fraction| <= MAX_QUANTITY_SCALE && !InInt64(Mantissa(l))
    ensures r == Err(Missing) <==> Bare(TrimSpace(raw)) == "" || Bare(TrimSpace(raw)) == "."
    ensures r == Err(NotDecimal) <==> |Segments(Bare(TrimSpace(raw)))| > 2
    ensures r == Err(ScaleTooLarge) <==> exists l :: Reads(l, raw) && |l.fraction| > MAX_QUANTITY_SCALE
  {
    hide TrimSpace, Spells, Reads, Segments, ValueOf, ParseInt64, Mantissa, WellFormed, Written, Unsigned, AllDigits;
    var text := TrimSpace(raw);
    PartsMissing(Bare(text));
    if text == "" { NoLiteral(raw, ""); return Err(Missing); }
    var sign, rest := "", text;
    match text[0] {
      case '+' => sign, rest := "+", text[1..];
      case '-' => sign, rest := "-", text[1..];
      case _ =>
    }
    assert text == sign + rest && rest == Bare(text);
    var parts := Segments(rest);
    if rest == "" { NoLiteral(raw, sign); return Err(Missing); }
    if |parts| > 2 { NotLiteral(raw, sign, rest); return Err(NotDecimal); }
    var l := Literal("", parts[0], |parts| == 2, if |parts| == 2 then parts[1] else "");
    l := l.(sign := sign);
    if l.whole == "" && l.fraction == "" { NotLiteral(raw, sign, rest); return Err(Missing); }
    var wholeDigits := DecimalDigits(l.whole);
    var fractionDigits := DecimalDigits(l.fraction);
    if !wholeDigits || !fractionDigits { NotLiteral(raw, sign, rest); return Err(NonDigits); }
    PartsRead(l, raw, sign, rest);
    if |l.fraction| > MAX_QUANTITY_SCALE { return Err(ScaleTooLarge); }
    var digits := TrimZeros(l.whole + l.fraction);
    MantissaOfDigits(l, digits);
    if digits == "" { digits := "0"; }
    if sign == "-" && digits != "0" { digits := "-" + digits; }
    var value := ParseInt64(digits);
    if value.None? { return Err(OutOfRange); }
    return Ok(Quantity(value.value, |l.fraction|));
  }

  lemma PartsMissing(rest: string)
    ensures Segments("") == [""]
    ensures rest == "" <==> Segments(rest) == [""]
    ensures rest == "." <==> Segments(rest) == ["", ""]
    ensures AllDigits("")
  {
    if Segments(rest) == [""] { SegmentsInjective(rest, ""); }
    CutAtDot("", "");
    assert "" + "." + "" == ".";
    assert Segments(".") == ["", ""];
    if Segments(rest) == ["", ""] { SegmentsInjective(rest, "."); }
  }

  /** What the cuts produce is the text's one literal. */
  lemma PartsRead(l: Literal, raw: string, sign: string, rest: string)
    requires TrimSpace(raw) == sign + rest && sign in {"", "+", "-"} && 1 <= |Segments(rest)| <= 2
    requires var parts := Segments(rest);
      l == Literal(sign, parts[0], |parts| == 2, if |parts| == 2 then parts[1] else "")
    requires AllDigits(l.whole) && AllDigits(l.fraction) && !(l.whole == "" && l.fraction == "")
    ensures WellFormed(l) && AllDigits(l.whole + l.fraction)
    ensures Reads(l, raw) && forall m :: Reads(m, raw) ==> m == l
    ensures forall q :: Spells(raw, q) <==> q == Quantity(Mantissa(l), |l.fraction|)
  {
    hide TrimSpace, Segments, Spells, Reads;
    JoinOfSegments(rest);
    JoinOfParts(Segments(rest), l.(sign := ""));
    assert Unsigned(l) == rest;
    LiteralReads(l, raw);
  }

  lemma JoinOfParts(parts: seq<string>, l: Literal)
    requires 1 <= |parts| <= 2
    requires l == Literal("", parts[0], |parts| == 2, if |parts| == 2 then parts[1] else "")
    ensures Unsigned(l) == Join(parts)
  {
    if |parts| == 2 { assert Join(parts[1..]) == parts[1]; }
  }

  /** The sign of a literal is the sign its text starts with. */
  lemma SignOf(l: Literal, sign: string, rest: string)
    requires WellFormed(l) && Written(l) == sign + rest && sign in {"", "+", "-"}
    requires sign == "" ==> rest == "" || rest[0] !in {'+', '-'}
    ensures l.sign == sign && Unsigned(l) == rest
  {
    UnsignedStart(l);
    assert l.sign != "" ==> Written(l)[0] == l.sign[0];
    assert l.sign == "" ==> Written(l)[0] == Unsigned(l)[0];
    assert Unsigned(l) == Written(l)[|l.sign|..];
    assert rest == (sign + rest)[|sign|..];
  }

  lemma NoLiteral(raw: string, sign: string)
    requires TrimSpace(raw) == sign && sign in {"", "+", "-"}
    ensures forall l :: !Reads(l, raw)
    ensures forall q :: !Spells(raw, q)
  {
    hide TrimSpace;
    forall l ensures !Reads(l, raw) {
      if Reads(l, raw) {
        assert sign + "" == sign;
        SignOf(l, sign, "");
        UnsignedStart(l);
      }
    }
  }

  lemma ReadsParts(l: Literal, raw: string, sign: string, rest: string)
    requires Reads(l, raw) && TrimSpace(raw) == sign + rest && sign in {"", "+", "-"}
    requires sign == "" ==> rest == "" || rest[0] !in {'+', '-'}
    ensures var parts := Segments(rest);
      |parts| <= 2 && (forall i :: 0 <= i < |parts| ==> AllDigits(parts[i])) && exists i :: 0 <= i < |parts| && parts[i] != ""
  {
    hide TrimSpace, Segments, Unsigned;
    SignOf(l, sign, rest);
    LiteralSegments(l);
    var parts := Segments(rest);
    assert parts[0] == l.whole;
    assert l.point ==> parts[1] == l.fraction;
  }

  /** What the cuts refuse is no literal. */
  lemma NotLiteral(raw: string, sign: string, rest: string)
    requires TrimSpace(raw) == sign + rest && sign in {"", "+", "-"}
    requires sign == "" ==> rest == "" || rest[0] !in {'+', '-'}
    requires var parts := Segments(rest);
      |parts| > 2 || (forall i :: 0 <= i < |parts| ==> parts[i] == "") || exists i :: 0 <= i < |parts| && !AllDigits(parts[i])
    ensures forall l :: !Reads(l, raw)
    ensures forall q :: !Spells(raw, q)
  {
    hide TrimSpace, Written, Segments, Unsigned;
    forall l ensures !Reads(l, raw) {
      if Reads(l, raw) { ReadsParts(l, raw, sign, rest); }
    }
  }

  lemma LiteralReads(l: Literal, raw: string)
    requires WellFormed(l) && Written(l) == TrimSpace(raw)
    ensures Reads(l, raw)
    ensures forall m :: Reads(m, raw) ==> m == l
    ensures forall q :: Spells(raw, q) <==> q == Quantity(Mantissa(l), |l.fraction|)
  {
    hide TrimSpace, WellFormed, Written;
    forall m | Reads(m, raw) ensures m == l { LiteralUnique(m, l); }
  }

  lemma MantissaOfDigits(l: Literal, digits: string)
    requires WellFormed(l) && AllDigits(digits) && ValueOf(digits) == ValueOf(l.whole + l.fraction)
    requires digits != "" ==> digits[0] != '0'
    ensures var d := if digits == "" then "0" else digits;
            var text := if l.sign == "-" && d != "0" then "-" + d else d;
            ParseInt64(text) == if InInt64(Mantissa(l)) then Some(Mantissa(l)) else None
  {
    if digits == "" {
      assert "0"[..0] == "";
      assert ValueOf("0") == 0;
    } else {
      assert digits != "0" && IsDigit(digits[0]);
      assert ("-" + digits)[1..] == digits;
    }
  }

  // -------------------------------------------------------------- printing

  function Zeros(n: int): (s: string)
    ensures |s| == if n < 0 then 0 else n
    ensures forall i :: 0 <= i < |s| ==> s[i] == '0'
  {
    seq(if n < 0 then 0 else n, i => '0')
  }

  /** The mantissa's digits, with a zero before the point if they all go behind it. */
  function Padded(q: Quantity): string {
    var digits := FormatNat(if q.value < 0 then -q.value else q.value);
    Zeros(q.scale + 1 - |digits|) + digits
  }

  /** The literal that `String` writes. */
  function LiteralOf(q: Quantity): (l: Literal)
    requires q.scale >= 0
  {
    var digits := Padded(q);
    Literal(if q.value < 0 then "-" else "", digits[..|digits| - q.scale], q.scale > 0, digits[|digits| - q.scale..])
  }

  lemma NoZeros(s: string)
    ensures Zeros(0) + s == s
    ensures forall k :: k < 0 ==> Zeros(k) + s == s
  {
    forall k | k < 0 ensures Zeros(k) + s == s { assert Zeros(k) == ""; }
  }

  lemma ZerosMore(k: nat, s: string)
    ensures "0" + (Zeros(k) + s) == Zeros(k + 1) + s
  {
    assert "0" + Zeros(k) == Zeros(k + 1);
  }

  lemma FormatSign(n: int)
    ensures FormatInt(n) != ""
    ensures FormatInt(n)[0] == '-' <==> n < 0
    ensures if n < 0 then FormatInt(n)[1..] == FormatNat(-n) else FormatInt(n) == FormatNat(n)
  {
    if n >= 0 { assert IsDigit(FormatNat(n)[0]); }
  }

  method String(q: Quantity) returns (s: string)
    requires q.scale >= 0
    ensures s == Written(LiteralOf(q))
  {
    hide FormatNat, FormatInt, Written, LiteralOf, Unsigned, Zeros;
    ghost var bare := FormatNat(if q.value < 0 then -q.value else q.value);
    if q.scale == 0 {
      WrittenInt(q);
      return FormatInt(q.value);
    }
    var digits := FormatInt(q.value);
    var sign := "";
    FormatSign(q.value);
    if digits[0] == '-' {
      sign := "-";
      digits := digits[1..];
    }
    NoZeros(bare);
    while |digits| <= q.scale
      invariant |digits| >= |bare| && digits == Zeros(|digits| - |bare|) + bare
      invariant |digits| <= q.scale + 1 || digits == bare
      decreases q.scale - |digits|
    {
      ZerosMore(|digits| - |bare|, bare);
      digits := "0" + digits;
    }
    assert digits == Padded(q);
    var point := |digits| - q.scale;
    s := sign + digits[..point] + "." + digits[point..];
    WrittenPadded(q, digits, point);
  }

  lemma WrittenPadded(q: Quantity, digits: string, point: int)
    requires q.scale > 0 && digits == Padded(q) && point == |digits| - q.scale
    ensures (if q.value < 0 then "-" else "") + digits[..point] + "." + digits[point..] == Written(LiteralOf(q))
  {
    assert LiteralOf(q).whole == digits[..point] && LiteralOf(q).fraction == digits[point..];
  }

  lemma WrittenInt(q: Quantity)
    requires q.scale == 0
    ensures FormatInt(q.value) == Written(LiteralOf(q))
  {
    var digits := FormatNat(if q.value < 0 then -q.value else q.value);
    assert Padded(q) == digits;
    assert digits[..|digits|] == digits;
  }

  /** The literal written for a quantity is well formed and reads as it. */
  lemma WrittenSpells(q: Quantity)
    requires Valid(q)
    ensures Spells(Written(LiteralOf(q)), q)
  {
    hide TrimSpace, Segments, WellFormed, Written;
    LiteralOfQuantity(q);
    LiteralTrimmed(LiteralOf(q));
    assert Reads(LiteralOf(q), Written(LiteralOf(q)));
  }

  lemma LiteralOfQuantity(q: Quantity)
    requires Valid(q)
    ensures WellFormed(LiteralOf(q))
    ensures Mantissa(LiteralOf(q)) == q.value && |LiteralOf(q).fraction| == q.scale
  {
    hide FormatNat, ValueOf;
    var magnitude: nat := if q.value < 0 then -q.value else q.value;
    var digits, padded, l := FormatNat(magnitude), Padded(q), LiteralOf(q);
    FormatNatValue(magnitude);
    ValueOfPadded(Zeros(q.scale + 1 - |digits|), digits);
    assert l.whole + l.fraction == padded;
    assert AllDigits(l.whole) && AllDigits(l.fraction);
  }

  lemma LiteralTrimmed(l: Literal)
    requires WellFormed(l)
    ensures TrimSpace(Written(l)) == Written(l)
  {
    UnsignedStart(l);
    var s := Written(l);
    assert s != "";
    assert s[0] == if l.sign == "" then Unsigned(l)[0] else l.sign[0];
    assert s[|s| - 1] == Unsigned(l)[|Unsigned(l)| - 1];
    assert IsDigit(s[|s| - 1]) || s[|s| - 1] == '.';
    TrimmedIsFixed(s);
  }

  /** Printing and parsing gives the quantity back, for every int64 and scale. */
  method PrintThenParse(q: Quantity) returns (r: Result<Quantity, QuantityError>)
    requires Valid(q)
    ensures r == Ok(q)
  {
    var text := String(q);
    WrittenSpells(q);
    r := ParseQuantity(text);
    SpellsOne(text, q);
  }

  lemma SpellsOne(text: string, q: Quantity)
    requires Spells(text, q)
    ensures forall p :: Spells(text, p) ==> p == q
  {
    hide TrimSpace, WellFormed, Written;
    var l :| Reads(l, text) && q == Quantity(Mantissa(l), |l.fraction|);
    LiteralReads(l, text);
  }

  /** `UnmarshalText` overwrites the quantity only with a parsed one. */
  class QuantityVariable {
    var q: Quantity

    constructor ()
      ensures q == Quantity(0, 0)
    {
      q := Quantity(0, 0);
    }

    method UnmarshalText(text: string) returns (err: Option<QuantityError>)
      modifies this
      ensures err.None? ==> Valid(q) && Spells(text, q)
      ensures err.Some? ==> q == old(q) && forall p :: Valid(p) ==> !Spells(text, p)
    {
      var parsed := ParseQuantity(text);
      if parsed.Err? { return Some(parsed.error); }
      q := parsed.value;
      return None;
    }
  }

  // --------------------------------------------------------------- meaning

  /** The fraction's place values, from the point on. */
  ghost function FractionValue(digits: string): real
    requires AllDigits(digits)
  {
    if digits == "" then 0.0 else (DigitValue(digits[0]) as real + FractionValue(digits[1..])) / 10.0
  }

  /** The number a literal denotes: whole part plus place values, with its sign. */
  ghost function Denoted(l: Literal): real
    requires WellFormed(l)
  {
    var magnitude := ValueOf(l.whole) as real + FractionValue(l.fraction);
    if l.sign == "-" then -magnitude else magnitude
  }

  /** `x` is `v / p`. */
  ghost predicate IsRatio(x: real, v: int, p: int) {
    x * p as real == v as real
  }

  lemma {:induction false} FractionScaled(digits: string)
    requires AllDigits(digits)
    ensures IsRatio(FractionValue(digits), ValueOf(digits), Pow10(|digits|))
  {
    if digits != "" {
      hide IsRatio;
      FractionScaled(digits[1..]);
      FirstDigit(digits);
      Rescale(FractionValue(digits), DigitValue(digits[0]), FractionValue(digits[1..]), Pow10(|digits| - 1),
              ValueOf(digits[1..]), ValueOf(digits));
    }
  }

  lemma FirstDigit(digits: string)
    requires digits != "" && AllDigits(digits)
    ensures ValueOf(digits) == DigitValue(digits[0]) * Pow10(|digits| - 1) + ValueOf(digits[1..])
  {
    ValueOfConcat(digits[..1], digits[1..]);
    assert digits == digits[..1] + digits[1..];
    assert ValueOf(digits[..1]) == DigitValue(digits[0]) by { assert digits[..1][..0] == ""; }
  }

  /** One more place: `x` is a tenth of `d + rest`. */
  lemma Rescale(x: real, d: int, rest: real, p: int, v: int, whole: int)
    requires x == (d as real + rest) / 10.0 && IsRatio(rest, v, p) && whole == d * p + v
    ensures IsRatio(x, whole, 10 * p)
  {
    var q := p as real;
    assert (10 * p) as real == 10.0 * q;
    assert x * (10.0 * q) == (x * 10.0) * q;
    assert (d as real + rest) * q == d as real * q + rest * q;
    CastProduct(d, p);
  }

  lemma CastProduct(a: int, b: int)
    ensures (a * b) as real == a as real * b as real
  {
  }

  /** An accepted text denotes exactly `value / 10^scale`: no digit is lost. */
  lemma SpellsExactly(text: string, l: Literal, q: Quantity)
    requires Reads(l, text) && Spells(text, q)
    ensures q.scale >= 0 && IsRatio(Denoted(l), q.value, Pow10(q.scale))
  {
    hide IsRatio, TrimSpace, Written, ValueOf, FractionValue, Pow10, Spells;
    LiteralReads(l, text);
    FractionScaled(l.fraction);
    ValueOfConcat(l.whole, l.fraction);
    SignedScale(l.sign == "-", ValueOf(l.whole), FractionValue(l.fraction), ValueOf(l.fraction), Pow10(|l.fraction|),
                ValueOf(l.whole + l.fraction));
  }

  lemma SignedScale(negative: bool, whole: int, fraction: real, v: int, p: int, all: nat)
    requires IsRatio(fraction, v, p) && all == whole * p + v
    ensures var magnitude := whole as real + fraction;
            IsRatio(if negative then -magnitude else magnitude, Decimals.Signed(negative, all), p)
  {
    var w, q := whole as real, p as real;
    CastProduct(whole, p);
    assert (w + fraction) * q == w * q + fraction * q;
    assert (-(w + fraction)) * q == -((w + fraction) * q);
  }
}
