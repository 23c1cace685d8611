/**
  The part of java.math.BigDecimal the balance totals use: the String
  constructor, `add`, `ZERO` and `toPlainString`. A decimal is an unscaled
  integer and a scale, denoting unscaled × 10^-scale; as with `equals`, 1.0
  and 1.00 are different decimals with the same value.
 */
module BigDecimals {
  import opened Wrappers
  import opened Strings

  datatype Decimal = Decimal(unscaled: int, scale: int)

  /** The bounds of a Java `int`, which holds a BigDecimal's scale. */
  const IntMin: int := -0x8000_0000
  const IntMax: int := 0x7FFF_FFFF

  /** `BigDecimal.ZERO`: zero with scale 0. */
  const Zero: Decimal := Decimal(0, 0)

  function Max(a: int, b: int): int {
    if a < b then b else a
  }

  function Abs(a: int): nat {
    if a < 0 then -a else a
  }

  /** The factor 10^-n as an exact rational. */
  ghost function ScaleFactor(n: int): real
    decreases if n >= 0 then n else -n
  {
    if n == 0 then 1.0
    else if n > 0 then ScaleFactor(n - 1) / 10.0
    else ScaleFactor(n + 1) * 10.0
  }

  /** The exact number a decimal denotes. */
  ghost function Value(d: Decimal): real {
    d.unscaled as real * ScaleFactor(d.scale)
  }

  // ---------------------------------------------------------------------------
  // new BigDecimal(String)

  /** The index of the first character satisfying `p`, or |s| if there is none. */
  function FirstIndex(s: string, p: char -> bool): (i: nat)
    ensures i <= |s|
    ensures forall j :: 0 <= j < i ==> !p(s[j])
    ensures i < |s| ==> p(s[i])
  {
    if s == [] then 0
    else if p(s[0]) then 0
    else 1 + FirstIndex(s[1..], p)
  }

  predicate IsExponentMark(c: char) {
    c == 'e' || c == 'E'
  }

  predicate IsPoint(c: char) {
    c == '.'
  }

  /**
    The exponent after 'e' or 'E': an optional sign and at least one digit.
    Leading zeros are skipped only while more than ten digits remain, so more
    than ten significant digits are refused, and the value must fit in an `int`.
   */
  function ParseExponent(t: string): (r: Option<int>)
    ensures r.Some? ==> IntMin <= r.value <= IntMax
  {
    var negative := |t| > 0 && t[0] == '-';
    var digits := if |t| > 0 && (t[0] == '-' || t[0] == '+') then t[1..] else t;
    if |digits| == 0 || !AllDigits(digits) then None
    else if |digits| > 10 && digits[..|digits| - 10] != Zeros(|digits| - 10) then None
    else
      var magnitude: int := DigitsValue(digits);
      var e := if negative then -magnitude else magnitude;
      if e < IntMin || e > IntMax then None else Some(e)
  }

  /**
    The digits before 'e': digits with at most one '.' and at least one digit.
    Gives the number the digits denote with the point removed, and the number
    of digits after the point.
   */
  function ParseSignificand(t: string): (r: Option<(nat, nat)>)
  {
    var p := FirstIndex(t, IsPoint);
    var whole := t[..p];
    var fraction := if p < |t| then t[p + 1..] else [];
    if !AllDigits(whole) || !AllDigits(fraction) || |whole| + |fraction| == 0 then None
    else
      DigitsValueAppend(whole, fraction);
      Some((DigitsValue(whole + fraction), |fraction|))
  }

  /** A number without its sign: a significand and an optional exponent. */
  function ParseUnsigned(body: string): (r: Option<Decimal>)
    ensures r.Some? ==> r.value.unscaled >= 0 && IntMin <= r.value.scale <= IntMax
  {
    var e := FirstIndex(body, IsExponentMark);
    var significand := ParseSignificand(body[..e]);
    var exponent := if e < |body| then ParseExponent(body[e + 1..]) else Some(0);
    if significand.None? || exponent.None? then None
    else
      var scale: int := significand.value.1 - exponent.value;
      if scale < IntMin || scale > IntMax then None
      else Some(Decimal(significand.value.0, scale))
  }

  /**
    `new BigDecimal(s)`, or None where the constructor throws
    NumberFormatException. Grammar: an optional sign, digits with at most one
    '.', at least one digit, then optionally 'e' or 'E' and an exponent. The
    scale is the number of fraction digits minus the exponent and must fit in
    an `int`.
   */
  function Parse(s: string): (r: Option<Decimal>)
    ensures r.Some? ==> IntMin <= r.value.scale <= IntMax
  {
    var negative := |s| > 0 && s[0] == '-';
    var body := if |s| > 0 && (s[0] == '-' || s[0] == '+') then s[1..] else s;
    match ParseUnsigned(body)
    case None => None
    case Some(d) => Some(if negative then Decimal(-d.unscaled, d.scale) else d)
  }

  // ---------------------------------------------------------------------------
  // BigDecimal.add

  /** One more fraction digit divides the factor by ten. */
  lemma ScaleFactorStep(n: int)
    ensures ScaleFactor(n - 1) == ScaleFactor(n) * 10.0
  {
  }

  /** Raising the scale by multiplying the unscaled value by a power of ten keeps the value. */
  lemma {:induction false} ScaleFactorShift(lo: int, hi: int)
    requires lo <= hi
    ensures Pow10(hi - lo) as real * ScaleFactor(hi) == ScaleFactor(lo)
    decreases hi - lo
  {
    if lo < hi {
      var p := Pow10(hi - 1 - lo);
      ScaleFactorShift(lo, hi - 1);
      ScaleFactorStep(hi);
      assert Pow10(hi - lo) as real == p as real * 10.0;
      MulAssociative(p as real, 10.0, ScaleFactor(hi));
    }
  }

  lemma CastProduct(a: int, b: int)
    ensures (a * b) as real == a as real * b as real
  {
  }

  lemma MulAssociative(x: real, y: real, z: real)
    ensures (x * y) * z == x * (y * z)
  {
  }

  lemma RealRescale(u: real, up: real, f: real, g: real)
    requires up * f == g
    ensures (u * up) * f == u * g
  {
    MulAssociative(u, up, f);
  }

  lemma RescaleValue(u: int, lo: int, hi: int)
    requires lo <= hi
    ensures Value(Decimal(u * Pow10(hi - lo), hi)) == Value(Decimal(u, lo))
  {
    var up := Pow10(hi - lo);
    var f, g := ScaleFactor(hi), ScaleFactor(lo);
    ScaleFactorShift(lo, hi);
    CastProduct(u, up);
    RealRescale(u as real, up as real, f, g);
  }

  /** Decimals of one scale add by adding their unscaled values. */
  lemma AddSameScale(ua: int, ub: int, s: int)
    ensures Value(Decimal(ua + ub, s)) == Value(Decimal(ua, s)) + Value(Decimal(ub, s))
  {
    var f := ScaleFactor(s);
    assert (ua + ub) as real * f == ua as real * f + ub as real * f;
  }

  /** `a.add(b)`: exact, with the larger of the two scales. */
  function Add(a: Decimal, b: Decimal): (r: Decimal)
    ensures r.scale == Max(a.scale, b.scale)
    ensures Value(r) == Value(a) + Value(b)
  {
    var s := Max(a.scale, b.scale);
    var ua, ub := a.unscaled * Pow10(s - a.scale), b.unscaled * Pow10(s - b.scale);
    RescaleValue(a.unscaled, a.scale, s);
    RescaleValue(b.unscaled, b.scale, s);
    AddSameScale(ua, ub, s);
    Decimal(ua + ub, s)
  }

  /** The exact sum of the values, added from the front. */
  ghost function ValueSum(ds: seq<Decimal>): real {
    if ds == [] then 0.0 else Value(ds[0]) + ValueSum(ds[1..])
  }

  /** The largest scale among `ds` and 0. */
  function MaxScale(ds: seq<Decimal>): int {
    if ds == [] then 0 else Max(ds[0].scale, MaxScale(ds[1..]))
  }

  /** The largest scale of decimals whose scales fit in an `int` fits too, and is at least 0. */
  lemma {:induction false} MaxScaleBounds(ds: seq<Decimal>)
    requires forall i :: 0 <= i < |ds| ==> ds[i].scale <= IntMax
    ensures 0 <= MaxScale(ds) <= IntMax
  {
    if ds != [] {
      MaxScaleBounds(ds[1..]);
    }
  }

  lemma {:induction false} SumsSplitLast(ds: seq<Decimal>)
    requires ds != []
    ensures ValueSum(ds) == ValueSum(ds[..|ds| - 1]) + Value(ds[|ds| - 1])
    ensures MaxScale(ds) == Max(MaxScale(ds[..|ds| - 1]), ds[|ds| - 1].scale)
  {
    if |ds| > 1 {
      SumsSplitLast(ds[1..]);
      assert ds[1..][..|ds[1..]| - 1] == ds[..|ds| - 1][1..];
    }
  }

  /**
    `ds.stream().reduce(BigDecimal.ZERO, BigDecimal::add)`: the exact sum,
    with the largest scale among the terms and ZERO's scale 0.
   */
  function Sum(ds: seq<Decimal>): (r: Decimal)
    ensures Value(r) == ValueSum(ds)
    ensures r.scale == MaxScale(ds)
  {
    if ds == [] then Zero
    else
      SumsSplitLast(ds);
      Add(Sum(ds[..|ds| - 1]), ds[|ds| - 1])
  }

  // ---------------------------------------------------------------------------
  // BigDecimal.toPlainString

  /** The unsigned part of `toPlainString` for a non-negative scale. */
  function PlainDigits(u: nat, scale: nat): (s: string)
    ensures forall i :: 0 <= i < |s| ==> IsDigit(s[i]) || s[i] == '.'
    ensures |s| > 0 && IsDigit(s[0])
  {
    var digits := NatToString(u);
    var point := |digits| - scale;
    if scale == 0 then digits
    else if point > 0 then digits[..point] + "." + digits[point..]
    else "0." + Zeros(-point) + digits
  }

  /** `d.toPlainString()`: the digits of the unscaled value with a point inserted, never an exponent. */
  function ToPlainString(d: Decimal): (s: string)
    ensures forall i :: 0 <= i < |s| ==> IsDigit(s[i]) || s[i] == '-' || s[i] == '.'
  {
    var sign := if d.unscaled < 0 then "-" else "";
    if d.scale >= 0 then sign + PlainDigits(Abs(d.unscaled), d.scale)
    else if d.unscaled == 0 then "0"
    else sign + NatToString(Abs(d.unscaled)) + Zeros(-d.scale)
  }

  /** `FirstIndex` finds the first character that satisfies `p`. */
  lemma FirstIndexAt(s: string, p: char -> bool, i: nat)
    requires i <= |s| && (forall j :: 0 <= j < i ==> !p(s[j])) && (i < |s| ==> p(s[i]))
    ensures FirstIndex(s, p) == i
  {
  }

  /** Digits without a point: the whole number, no fraction digits. */
  lemma ParseSignificandWhole(digits: string)
    requires AllDigits(digits) && |digits| >= 1
    ensures ParseSignificand(digits) == Some((DigitsValue(digits), 0))
  {
    FirstIndexAt(digits, IsPoint, |digits|);
    assert digits[..|digits|] == digits;
    assert digits + [] == digits;
  }

  /** Digits, a point, digits: the digits read together, with the second group's length as scale. */
  lemma ParseSignificandPointed(whole: string, fraction: string)
    requires AllDigits(whole) && AllDigits(fraction) && |whole| >= 1
    ensures ParseSignificand(whole + "." + fraction) == Some((DigitsValue(whole + fraction), |fraction|))
  {
    var t := whole + "." + fraction;
    FirstIndexAt(t, IsPoint, |whole|);
    assert t[..|whole|] == whole;
    assert t[|whole| + 1..] == fraction;
  }

  /** A body without an exponent mark takes its scale from the fraction digits alone. */
  lemma ParseUnsignedNoExponent(body: string)
    requires forall i :: 0 <= i < |body| ==> !IsExponentMark(body[i])
    requires ParseSignificand(body).Some? && ParseSignificand(body).value.1 <= IntMax
    ensures ParseUnsigned(body) == Some(Decimal(ParseSignificand(body).value.0, ParseSignificand(body).value.1))
  {
    FirstIndexAt(body, IsExponentMark, |body|);
    var e := FirstIndex(body, IsExponentMark);
    assert body[..e] == body;
    var significand := ParseSignificand(body).value;
    assert 0 <= significand.1 <= IntMax;
  }

  /** Digits, a point and digits, unsigned: the digits read together, with the fraction's length as scale. */
  lemma ParsePointedUnsigned(whole: string, fraction: string)
    requires AllDigits(whole) && AllDigits(fraction) && |whole| >= 1 && |fraction| <= IntMax
    ensures ParseUnsigned(whole + "." + fraction) == Some(Decimal(DigitsValue(whole + fraction), |fraction|))
  {
    var body := whole + "." + fraction;
    ParseSignificandPointed(whole, fraction);
    forall i | 0 <= i < |body| ensures !IsExponentMark(body[i]) {
      if i < |whole| {
        assert body[i] == whole[i];
      } else if i > |whole| {
        assert body[i] == fraction[i - |whole| - 1];
      }
    }
    ParseUnsignedNoExponent(body);
  }

  lemma PlainDigitsParseWhole(u: nat)
    ensures ParseUnsigned(PlainDigits(u, 0)) == Some(Decimal(u, 0))
  {
    var digits := NatToString(u);
    ParseSignificandWhole(digits);
    ParseUnsignedNoExponent(digits);
  }

  lemma PlainDigitsParseSplit(u: nat, scale: nat)
    requires 0 < scale <= IntMax && |NatToString(u)| > scale
    ensures ParseUnsigned(PlainDigits(u, scale)) == Some(Decimal(u, scale))
  {
    var digits := NatToString(u);
    var point := |digits| - scale;
    AllDigitsSplit(digits, point);
    var whole, fraction := digits[..point], digits[point..];
    ParsePointedUnsigned(whole, fraction);
    assert PlainDigits(u, scale) == whole + "." + fraction;
  }

  /** Zeros between the point and the digits do not change what the fraction reads as. */
  lemma PaddedFractionValue(digits: string, gap: nat)
    requires AllDigits(digits)
    ensures AllDigits("0" + Zeros(gap) + digits)
    ensures DigitsValue("0" + Zeros(gap) + digits) == DigitsValue(digits)
  {
    assert "0" + Zeros(gap) + digits == Zeros(gap + 1) + digits;
    LeadingZerosValue(gap + 1, digits);
  }

  /** The fraction `toPlainString` prints for a value with fewer digits than its scale. */
  function PaddedFraction(u: nat, scale: nat): (fraction: string)
    requires |NatToString(u)| <= scale
    ensures AllDigits(fraction) && |fraction| == scale
    ensures AllDigits("0" + fraction) && DigitsValue("0" + fraction) == u
  {
    var digits := NatToString(u);
    var zeros := Zeros(scale - |digits|);
    LeadingZerosValue(scale - |digits|, digits);
    PaddedFractionValue(digits, scale - |digits|);
    ConcatAssociative("0", zeros, digits);
    zeros + digits
  }

  lemma PlainDigitsSmall(u: nat, scale: nat)
    requires 0 < scale && |NatToString(u)| <= scale
    ensures PlainDigits(u, scale) == "0" + "." + PaddedFraction(u, scale)
  {
    var digits := NatToString(u);
    var zeros := Zeros(scale - |digits|);
    ConcatAssociative("0.", zeros, digits);
    assert "0." == "0" + ".";
  }

  lemma PlainDigitsParseSmall(u: nat, scale: nat)
    requires 0 < scale <= IntMax && |NatToString(u)| <= scale
    ensures ParseUnsigned(PlainDigits(u, scale)) == Some(Decimal(u, scale))
  {
    var fraction := PaddedFraction(u, scale);
    ParsePointedUnsigned("0", fraction);
    PlainDigitsSmall(u, scale);
  }

  lemma PlainDigitsParse(u: nat, scale: nat)
    requires scale <= IntMax
    ensures ParseUnsigned(PlainDigits(u, scale)) == Some(Decimal(u, scale))
  {
    if scale == 0 {
      PlainDigitsParseWhole(u);
    } else if |NatToString(u)| > scale {
      PlainDigitsParseSplit(u, scale);
    } else {
      PlainDigitsParseSmall(u, scale);
    }
  }

  lemma ParseNonNegative(body: string)
    requires |body| > 0 && IsDigit(body[0])
    ensures Parse(body) == ParseUnsigned(body)
  {
  }

  lemma ParseNegative(body: string)
    requires ParseUnsigned(body).Some?
    ensures Parse("-" + body) == Some(Decimal(-ParseUnsigned(body).value.unscaled, ParseUnsigned(body).value.scale))
  {
    assert ("-" + body)[1..] == body;
  }

  /**
    Reading back: the string `toPlainString` prints for a decimal of
    non-negative scale is parsed by `new BigDecimal(String)` into that very
    decimal, value and scale.
   */
  lemma PlainStringRoundTrip(d: Decimal)
    requires 0 <= d.scale <= IntMax
    ensures Parse(ToPlainString(d)) == Some(d)
  {
    var body := PlainDigits(Abs(d.unscaled), d.scale);
    PlainDigitsParse(Abs(d.unscaled), d.scale);
    if d.unscaled < 0 {
      assert ToPlainString(d) == "-" + body;
      ParseNegative(body);
    } else {
      assert ToPlainString(d) == body;
      ParseNonNegative(body);
    }
  }

  /** `new BigDecimal("<digits>.<digits>")`. */
  lemma ParsePointed(whole: string, fraction: string)
    requires AllDigits(whole) && AllDigits(fraction) && |whole| >= 1 && |fraction| <= IntMax
    ensures Parse(whole + "." + fraction) == Some(Decimal(DigitsValue(whole + fraction), |fraction|))
  {
    ParsePointedUnsigned(whole, fraction);
    ParseNonNegative(whole + "." + fraction);
  }

  /** `new BigDecimal("<digits>")`: a whole number of scale 0. */
  lemma ParseWhole(digits: string)
    requires AllDigits(digits) && |digits| >= 1
    ensures Parse(digits) == Some(Decimal(DigitsValue(digits), 0))
  {
    ParseSignificandWhole(digits);
    forall i | 0 <= i < |digits| ensures !IsExponentMark(digits[i]) {
      assert IsDigit(digits[i]);
    }
    ParseUnsignedNoExponent(digits);
    ParseNonNegative(digits);
  }

  // ---------------------------------------------------------------------------
  // Values the balance figures of the test scenarios take.

  lemma ParseFirstDebitBalance()
    ensures Parse("55.24") == Some(Decimal(5524, 2))
  {
    assert DigitsValue("5524") == 5524 by {
      assert DigitsValue("5") == 5;
      assert "55"[..1] == "5";
      assert DigitsValue("55") == 55;
      assert "552"[..2] == "55";
      assert DigitsValue("552") == 552;
      assert "5524"[..3] == "552";
    }
    assert "55" + "." + "24" == "55.24" && "55" + "24" == "5524";
    ParsePointed("55", "24");
  }

  lemma ParseSecondDebitBalance()
    ensures Parse("999.89") == Some(Decimal(99989, 2))
  {
    assert DigitsValue("99989") == 99989 by {
      assert DigitsValue("9") == 9;
      assert "99"[..1] == "9";
      assert DigitsValue("99") == 99;
      assert "999"[..2] == "99";
      assert DigitsValue("999") == 999;
      assert "9998"[..3] == "999";
      assert DigitsValue("9998") == 9998;
      assert "99989"[..4] == "9998";
    }
    assert "999" + "." + "89" == "999.89" && "999" + "89" == "99989";
    ParsePointed("999", "89");
  }

  lemma SumDebitBalances()
    ensures Sum([Decimal(5524, 2), Decimal(99989, 2)]) == Decimal(105513, 2)
  {
    var a, b := Decimal(5524, 2), Decimal(99989, 2);
    assert [a, b][..1] == [a];
    assert [a][..0] == [];
    assert Pow10(2) == 100;
    assert Sum([a]) == Add(Zero, a) == a;
  }

  lemma DigitsOfDebitTotal()
    ensures NatToString(105513) == "105513"
  {
    assert NatToString(1) == "1";
    assert NatToString(10) == "10";
    assert NatToString(105) == "105";
    assert NatToString(1055) == "1055";
    assert NatToString(10551) == "10551";
  }

  lemma PrintDebitTotal()
    ensures ToPlainString(Decimal(105513, 2)) == "1055.13"
  {
    DigitsOfDebitTotal();
    assert PlainDigits(105513, 2) == "105513"[..4] + "." + "105513"[4..];
    assert "105513"[..4] == "1055" && "105513"[4..] == "13";
  }

  /**
    The debit scenario: balances "55.24" and "999.89" in one product add up
    exactly, and the total prints as "1055.13".
   */
  lemma ScenarioDebitTotal()
    ensures Parse("55.24") == Some(Decimal(5524, 2))
    ensures Parse("999.89") == Some(Decimal(99989, 2))
    ensures ToPlainString(Sum([Decimal(5524, 2), Decimal(99989, 2)])) == "1055.13"
  {
    ParseFirstDebitBalance();
    ParseSecondDebitBalance();
    SumDebitBalances();
    PrintDebitTotal();
  }

  lemma ParsePrepaidBalance()
    ensures Parse("150.00") == Some(Decimal(15000, 2))
  {
    assert DigitsValue("15000") == 15000 by {
      assert DigitsValue("1") == 1;
      assert "15"[..1] == "1";
      assert DigitsValue("15") == 15;
      assert "150"[..2] == "15";
      assert DigitsValue("150") == 150;
      assert "1500"[..3] == "150";
      assert DigitsValue("1500") == 1500;
      assert "15000"[..4] == "1500";
    }
    assert "150" + "." + "00" == "150.00" && "150" + "00" == "15000";
    ParsePointed("150", "00");
  }

  /** Adding one decimal of non-negative scale to ZERO gives that very decimal back. */
  lemma SumSingle(d: Decimal)
    requires d.scale >= 0
    ensures Sum([d]) == d
  {
    assert [d][..0] == [];
    assert Sum([d]) == Add(Zero, d);
  }

  lemma DigitsOfPrepaidTotal()
    ensures NatToString(15000) == "15000"
  {
    assert NatToString(1) == "1";
    assert NatToString(15) == "15";
    assert NatToString(150) == "150";
    assert NatToString(1500) == "1500";
  }

  lemma PrintPrepaidTotal()
    ensures ToPlainString(Sum([Decimal(15000, 2)])) == "150.00"
  {
    SumSingle(Decimal(15000, 2));
    DigitsOfPrepaidTotal();
    assert PlainDigits(15000, 2) == "15000"[..3] + "." + "15000"[3..];
    assert "15000"[..3] == "150" && "15000"[3..] == "00";
  }

  /** A single balance "150.00" sums to "150.00": its scale of 2 survives the fold from ZERO. */
  lemma ScenarioPrepaidTotal()
    ensures Parse("150.00") == Some(Decimal(15000, 2))
    ensures ToPlainString(Sum([Decimal(15000, 2)])) == "150.00"
  {
    ParsePrepaidBalance();
    PrintPrepaidTotal();
  }

  lemma ParseEmptyFails()
    ensures Parse("").None? && Parse("-").None?
  {
    FirstIndexAt("", IsExponentMark, 0);
    assert "-"[1..] == [];
  }

  lemma ParseBarePointFails()
    ensures Parse(".").None?
  {
    FirstIndexAt(".", IsExponentMark, 1);
    FirstIndexAt(".", IsPoint, 0);
    assert "."[..1] == "." && "."[..0] == [] && "."[1..] == [];
  }

  lemma ParseLettersFail()
    ensures Parse("abc").None?
  {
    ParseRejectsLeadingLetter("abc");
  }

  lemma ParseTwoPointsFails()
    ensures Parse("1.2.3").None?
  {
    FirstIndexAt("1.2.3", IsExponentMark, 5);
    FirstIndexAt("1.2.3", IsPoint, 1);
    assert "1.2.3"[..5] == "1.2.3";
    assert "1.2.3"[2..] == "2.3" && !IsDigit("2.3"[1]);
  }

  lemma ParseEmptyExponentFails()
    ensures Parse("1e").None?
  {
    FirstIndexAt("1e", IsExponentMark, 1);
    assert "1e"[2..] == [];
  }

  /** A string that starts with anything but a digit, a point or a sign is not a number. */
  lemma ParseRejectsLeadingLetter(s: string)
    requires |s| > 0 && !IsDigit(s[0]) && s[0] != '.' && s[0] != '-' && s[0] != '+'
    ensures Parse(s).None?
  {
    var e := FirstIndex(s, IsExponentMark);
    if e > 0 {
      var t := s[..e];
      assert t[0] == s[0];
      var p := FirstIndex(t, IsPoint);
      assert t[..p][0] == s[0];
    }
  }

  lemma ParseNotANumberFails()
    ensures Parse("not-a-number").None?
  {
    ParseRejectsLeadingLetter("not-a-number");
  }

  /** Strings that are not decimal numbers make the constructor throw. */
  lemma MalformedBalances()
    ensures Parse("").None? && Parse("-").None?
    ensures Parse(".").None?
    ensures Parse("abc").None?
    ensures Parse("1.2.3").None?
    ensures Parse("1e").None?
    ensures Parse("not-a-number").None?
  {
    ParseNotANumberFails();
    ParseEmptyFails();
    ParseBarePointFails();
    ParseLettersFail();
    ParseTwoPointsFails();
    ParseEmptyExponentFails();
  }

  lemma ParseBareFraction()
    ensures Parse("-.5") == Some(Decimal(-5, 1))
  {
    assert "-.5"[1..] == ".5";
    FirstIndexAt(".5", IsExponentMark, 2);
    FirstIndexAt(".5", IsPoint, 0);
    assert ".5"[..2] == ".5" && ".5"[..0] == [] && ".5"[1..] == "5";
    assert [] + "5" == "5";
  }

  lemma ParsePositiveExponent()
    ensures Parse("1E+3") == Some(Decimal(1, -3))
  {
    FirstIndexAt("1E+3", IsExponentMark, 1);
    assert "1E+3"[..1] == "1" && "1E+3"[2..] == "+3";
    ParseSignificandWhole("1");
    assert "+3"[1..] == "3";
  }

  lemma ValueOfTwoFifty()
    ensures DigitsValue("250") == 250
  {
    assert DigitsValue("2") == 2;
    assert "25"[..1] == "2";
    assert DigitsValue("25") == 25;
    assert "250"[..2] == "25";
  }

  lemma SignificandTwoFifty()
    ensures ParseSignificand("2.50") == Some((250, 2))
  {
    assert "2" + "." + "50" == "2.50" && "2" + "50" == "250";
    ParseSignificandPointed("2", "50");
    ValueOfTwoFifty();
  }

  lemma ExponentMinusOne()
    ensures ParseExponent("-1") == Some(-1)
  {
    assert "-1"[1..] == "1";
    assert DigitsValue("1") == 1;
  }

  lemma ParseNegativeExponent()
    ensures Parse("2.50e-1") == Some(Decimal(250, 3))
  {
    FirstIndexAt("2.50e-1", IsExponentMark, 4);
    assert "2.50e-1"[..4] == "2.50" && "2.50e-1"[5..] == "-1";
    SignificandTwoFifty();
    ExponentMinusOne();
  }

  /** Other forms the constructor accepts: a sign, a bare point, exponents that move the scale. */
  lemma OtherAcceptedForms()
    ensures Parse("-.5") == Some(Decimal(-5, 1))
    ensures Parse("1E+3") == Some(Decimal(1, -3))
    ensures Parse("2.50e-1") == Some(Decimal(250, 3))
  {
    ParseBareFraction();
    ParsePositiveExponent();
    ParseNegativeExponent();
  }
}
