/** Strikes as exact decimals in units of 1e-8: how they are printed and how a text is read. */
module Strikes {
  import opened Sequences
  import opened Text

  /** Strikes are rounded to this many decimals. */
  const PLACES: nat := 8
  const UNIT: nat := 1_0000_0000

  // ---------------------------------------------------------------- printing

  const POINT_LIMIT: nat := 10000                             // 0.0001 in units
  const EXPONENT_LIMIT: nat := 1_0000_0000_0000_0000_0000_0000 // 1e16 in units

  function Sign(n: int): string {
    if n < 0 then "-" else ""
  }

  function Abs(n: int): nat {
    if n < 0 then -n else n
  }

  /** With a decimal point and at least one decimal. */
  function PointText(m: nat): string {
    NatText(m / UNIT) + "." + TrimZeros(Padded(m % UNIT, PLACES))
  }

  function ExponentText(e: int): string {
    (if e < 0 then "-" else "+") + (if Abs(e) < 10 then "0" else "") + NatText(Abs(e))
  }

  /** The first digit, and the others after a point. */
  function Mantissa(digits: string): string
    requires digits != ""
  {
    [digits[0]] + (if |digits| > 1 then "." + digits[1..] else "")
  }

  /** One digit, the other digits after a point if there are any, and an exponent. */
  function ExponentForm(m: nat): string
    requires 0 < m
  {
    var digits := TrimZeros(NatText(m));
    Mantissa(digits) + "e" + ExponentText(|NatText(m)| - 1 - PLACES)
  }

  /** The text of the number `n` units. */
  function StrikeText(n: int): string {
    Sign(n) + MagnitudeText(Abs(n))
  }

  function MagnitudeText(m: nat): string {
    if m == 0 || POINT_LIMIT <= m < EXPONENT_LIMIT then PointText(m) else ExponentForm(m)
  }

  // ---------------------------------------------------------------- reading

  function SignOf(s: string): (bool, string) {
    if s != "" && s[0] == '-' then (true, s[1..])
    else if s != "" && s[0] == '+' then (false, s[1..])
    else (false, s)
  }

  /** The position of the exponent mark, or the length. */
  function ExponentMark(s: string): (i: nat)
    ensures i <= |s|
  {
    var i, j := IndexOf(s, 'e'), IndexOf(s, 'E');
    if i < j then i else j
  }

  function ReadInteger(s: string): Option<int> {
    var (negative, digits) := SignOf(s);
    if digits == "" || !AllDigits(digits) then None
    else
      var n: int := ParseNat(digits);
      Some(if negative then -n else n)
  }

  /** An unsigned decimal `digits * 10^exponent`. */
  datatype Decimal = Decimal(digits: nat, exponent: int)

  function ReadMantissa(s: string): Option<Decimal> {
    var i := IndexOf(s, '.');
    var whole, fraction := s[..i], if i < |s| then s[i + 1..] else "";
    if AllDigits(whole + fraction) && whole + fraction != ""
    then Some(Decimal(ParseNat(whole + fraction), -|fraction|)) else None
  }

  function ReadUnsigned(s: string): Option<Decimal> {
    var i := ExponentMark(s);
    match ReadMantissa(s[..i])
    case None => None
    case Some(m) =>
      if i == |s| then Some(m) else
      match ReadInteger(s[i + 1..])
      case None => None
      case Some(e) => Some(m.(exponent := m.exponent + e))
  }

  /** `x / d` rounded to an integer, a tie to the even neighbour. */
  function RoundQuotient(x: nat, d: nat): nat
    requires 0 < d
  {
    var q, r := x / d, x % d;
    if 2 * r < d || (2 * r == d && q % 2 == 0) then q else q + 1
  }

  /** A decimal in units of 1e-8, rounded. */
  function Units(x: Decimal): nat {
    var e := x.exponent + PLACES;
    if e >= 0 then x.digits * Pow10(e) else RoundQuotient(x.digits, Pow10(-e))
  }

  function ReadMagnitude(s: string): Option<nat> {
    match ReadUnsigned(s)
    case None => None
    case Some(x) => Some(Units(x))
  }

  function Signed(negative: bool, m: Option<nat>): Option<int> {
    match m
    case None => None
    case Some(n) => Some(if negative then -(n as int) else n)
  }

  /** `round(float(s), 8)`, or none where `float` raises. */
  function ReadStrike(s: string): Option<int> {
    var (negative, t) := SignOf(Strip(s));
    Signed(negative, ReadMagnitude(t))
  }

  // ---------------------------------------------------------------- round trip

  /** A whole part, a point and decimals, without an exponent. */
  lemma ReadPoint(whole: string, fraction: string)
    requires AllDigits(whole) && AllDigits(fraction) && fraction != ""
    ensures AllDigits(whole + fraction)
    ensures ReadMantissa(whole + "." + fraction) == Some(Decimal(ParseNat(whole + fraction), -|fraction|))
    ensures 'e' !in whole + "." + fraction && 'E' !in whole + "." + fraction
  {
    IndexOfFirst(whole, '.', fraction);
    var s := whole + ['.'] + fraction;
    assert s == whole + "." + fraction;
    assert s[..|whole|] == whole && s[|whole| + 1..] == fraction;
  }

  lemma UnitIsPower()
    ensures Pow10(PLACES) == UNIT
  {
  }

  /** The value of a whole part and decimals whose trailing zeros are gone. */
  lemma PointValue(q: nat, r: nat, places: nat)
    requires 0 < places && r < Pow10(places)
    ensures var whole, fraction := NatText(q), TrimZeros(Padded(r, places));
            AllDigits(whole + fraction) && 0 < |fraction| <= places &&
            ParseNat(whole + fraction) * Pow10(places - |fraction|) == q * Pow10(places) + r
  {
    var whole, all := NatText(q), Padded(r, places);
    var fraction := TrimZeros(all);
    TrimZerosSplits(all);
    ParseNatText(q);
    ParsePadded(r, places);
    ParseNatAppend(whole, all);
    ParseTrimmed(whole, fraction, places - |fraction|);
  }

  lemma ParseTrimmed(whole: string, fraction: string, zeros: nat)
    requires AllDigits(whole) && AllDigits(fraction)
    ensures AllDigits(whole + fraction) && AllDigits(whole + (fraction + Zeros(zeros)))
    ensures ParseNat(whole + (fraction + Zeros(zeros))) == ParseNat(whole + fraction) * Pow10(zeros)
  {
    assert whole + (fraction + Zeros(zeros)) == (whole + fraction) + Zeros(zeros);
    ParseNatAppend(whole + fraction, Zeros(zeros));
    ParseZeros(zeros);
  }

  /** What a printed magnitude reads as, and that it has no white space around it. */
  ghost predicate ReadsAs(s: string, x: Decimal) {
    && ReadUnsigned(s) == Some(x)
    && s != "" && IsDigit(s[0]) && IsDigit(s[|s| - 1])
  }

  lemma WholeAndDecimals(whole: string, fraction: string)
    requires AllDigits(whole) && AllDigits(fraction) && whole != "" && fraction != ""
    ensures AllDigits(whole + fraction)
    ensures ReadsAs(whole + "." + fraction, Decimal(ParseNat(whole + fraction), -|fraction|))
  {
    ReadPoint(whole, fraction);
    WithoutExponent(whole + "." + fraction, Decimal(ParseNat(whole + fraction), -|fraction|));
  }

  lemma WithoutExponent(s: string, x: Decimal)
    requires 'e' !in s && 'E' !in s && ReadMantissa(s) == Some(x)
    ensures ReadUnsigned(s) == Some(x)
  {
    IndexOfNone(s, 'e');
    IndexOfNone(s, 'E');
    assert s[..|s|] == s;
  }

  lemma PointParts(m: nat)
    ensures var whole, fraction := NatText(m / UNIT), TrimZeros(Padded(m % UNIT, PLACES));
      && AllDigits(whole + fraction) && 0 < |fraction| <= PLACES
      && ParseNat(whole + fraction) * Pow10(PLACES - |fraction|) == m
  {
    UnitIsPower();
    PointValue(m / UNIT, m % UNIT, PLACES);
  }

  lemma PointTextRead(m: nat) returns (x: Decimal)
    ensures ReadsAs(PointText(m), x)
    ensures -(PLACES as int) <= x.exponent < 0 && x.digits * Pow10(x.exponent + PLACES) == m
  {
    var whole, fraction := NatText(m / UNIT), TrimZeros(Padded(m % UNIT, PLACES));
    PointParts(m);
    WholeAndDecimals(whole, fraction);
    x := Decimal(ParseNat(whole + fraction), -|fraction|);
  }

  lemma ReadExponentText(e: int)
    ensures ReadInteger(ExponentText(e)) == Some(e)
    ensures IsDigit(ExponentText(e)[|ExponentText(e)| - 1])
  {
    var digits := (if Abs(e) < 10 then "0" else "") + NatText(Abs(e));
    assert ExponentText(e)[1..] == digits;
    ParseNatText(Abs(e));
    if Abs(e) < 10 {
      ParseNatAppend("0", NatText(Abs(e)));
      assert digits == "0" + NatText(Abs(e));
      assert ParseNat("0") == 0;
    } else {
      assert digits == NatText(Abs(e));
    }
  }

  /** The mark of an exponent is the first letter. */
  lemma MarkAfterMantissa(mantissa: string, e: int)
    requires 'e' !in mantissa && 'E' !in mantissa
    ensures var s := mantissa + "e" + ExponentText(e);
            ExponentMark(s) == |mantissa| < |s| && s[..|mantissa|] == mantissa && s[|mantissa| + 1..] == ExponentText(e)
  {
    var s := mantissa + ['e'] + ExponentText(e);
    assert s == mantissa + "e" + ExponentText(e);
    IndexOfFirst(mantissa, 'e', ExponentText(e));
    assert 'E' !in s;
  }

  /** Starts with a digit and has no exponent mark. */
  predicate PlainMantissa(s: string) {
    s != "" && IsDigit(s[0]) && 'e' !in s && 'E' !in s
  }

  /** A mantissa without marks, then the exponent. */
  lemma ReadWithExponent(mantissa: string, x: Decimal, e: int)
    requires PlainMantissa(mantissa) && ReadMantissa(mantissa) == Some(x)
    ensures ReadsAs(mantissa + "e" + ExponentText(e), x.(exponent := x.exponent + e))
  {
    MarkAfterMantissa(mantissa, e);
    ReadExponentText(e);
  }

  lemma MantissaRead(digits: string)
    requires digits != "" && AllDigits(digits)
    ensures ReadMantissa(Mantissa(digits)) == Some(Decimal(ParseNat(digits), 1 - |digits|))
    ensures PlainMantissa(Mantissa(digits))
  {
    if |digits| == 1 {
      ReadOneDigit(digits);
    } else {
      var first, others := digits[..1], digits[1..];
      assert first + others == digits;
      ReadManyDigits(first, others, digits);
    }
  }

  lemma ReadManyDigits(first: string, others: string, digits: string)
    requires |first| == 1 && others != "" && AllDigits(first) && AllDigits(others) && first + others == digits
    ensures AllDigits(digits)
    ensures ReadMantissa(Mantissa(digits)) == Some(Decimal(ParseNat(digits), 1 - |digits|))
    ensures PlainMantissa(Mantissa(digits))
  {
    ReadPoint(first, others);
    MantissaParts(first, others, digits);
  }

  lemma MantissaParts(first: string, others: string, digits: string)
    requires |first| == 1 && others != "" && first + others == digits
    ensures Mantissa(digits) == first + "." + others
  {
  }

  lemma ReadOneDigit(digits: string)
    requires |digits| == 1 && AllDigits(digits)
    ensures ReadMantissa(Mantissa(digits)) == Some(Decimal(ParseNat(digits), 0))
    ensures PlainMantissa(Mantissa(digits))
  {
  }

  lemma ExponentFormRead(m: nat) returns (x: Decimal)
    requires 0 < m
    ensures ReadsAs(ExponentForm(m), x)
    ensures -(PLACES as int) <= x.exponent && x.digits * Pow10(x.exponent + PLACES) == m
  {
    ParseNatText(m);
    x := TrimmedRead(NatText(m));
  }

  lemma TrimmedRead(all: string) returns (x: Decimal)
    requires AllDigits(all) && ParseNat(all) > 0
    ensures TrimZeros(all) != "" && ReadsAs(Mantissa(TrimZeros(all)) + "e" + ExponentText(|all| - 1 - PLACES), x)
    ensures -(PLACES as int) <= x.exponent && x.digits * Pow10(x.exponent + PLACES) == ParseNat(all)
  {
    TrimZerosValue(all);
    x := DigitsRead(TrimZeros(all), |all| - PLACES);
  }

  lemma DigitsRead(digits: string, n: int) returns (x: Decimal)
    requires digits != "" && AllDigits(digits)
    ensures ReadsAs(Mantissa(digits) + "e" + ExponentText(n - 1), x)
    ensures x == Decimal(ParseNat(digits), n - |digits|)
  {
    MantissaRead(digits);
    x := ScaledRead(Mantissa(digits), Decimal(ParseNat(digits), 1 - |digits|), n);
  }

  lemma ScaledRead(mantissa: string, y: Decimal, n: int) returns (x: Decimal)
    requires PlainMantissa(mantissa) && ReadMantissa(mantissa) == Some(y)
    ensures ReadsAs(mantissa + "e" + ExponentText(n - 1), x) && x == Decimal(y.digits, y.exponent + n - 1)
  {
    ReadWithExponent(mantissa, y, n - 1);
    x := y.(exponent := y.exponent + (n - 1));
  }

  lemma SignTakenOff(body: string, negative: bool)
    requires body != "" && IsDigit(body[0]) && IsDigit(body[|body| - 1])
    ensures var s := (if negative then "-" else "") + body;
            Strip(s) == s && s != "" && Stripped(s) && SignOf(s) == (negative, body)
  {
    var s := (if negative then "-" else "") + body;
    assert s[|s| - 1] == body[|body| - 1];
    StripIdentity(s);
    if negative {
      assert s[1..] == body;
    } else {
      assert s == body;
      assert body[0] != '-' && body[0] != '+' && SignOf(body) == (false, body);
    }
  }

  /** Reading a printed strike gives the strike back, whatever its size and sign. */
  lemma StrikeRoundTrip(n: int)
    ensures ReadStrike(StrikeText(n)) == Some(n)
    ensures StrikeText(n) != "" && Stripped(StrikeText(n))
  {
    MagnitudeRead(Abs(n));
    SignTakenOff(MagnitudeText(Abs(n)), n < 0);
  }

  lemma MagnitudeRead(m: nat)
    ensures ReadMagnitude(MagnitudeText(m)) == Some(m)
    ensures var s := MagnitudeText(m); s != "" && IsDigit(s[0]) && IsDigit(s[|s| - 1])
  {
    var x: Decimal;
    if m == 0 || POINT_LIMIT <= m < EXPONENT_LIMIT {
      x := PointTextRead(m);
    } else {
      x := ExponentFormRead(m);
    }
    assert ReadUnsigned(MagnitudeText(m)) == Some(x);
  }

  lemma ExponentHasNoBar(m: nat)
    requires 0 < m
    ensures '|' !in ExponentForm(m)
  {
  }

  /** A printed strike holds no separator. */
  lemma StrikeHasNoBar(n: int)
    ensures '|' !in StrikeText(n)
  {
    if n != 0 {
      ExponentHasNoBar(Abs(n));
    }
  }

  lemma {:induction false} PaddedZero(width: nat)
    ensures Padded(0, width) == Zeros(width)
  {
    if width > 0 {
      PaddedZero(width - 1);
    }
  }

  lemma {:induction false} TrimmedZeros(n: nat)
    requires n >= 1
    ensures TrimZeros(Zeros(n)) == "0"
  {
    if n > 1 {
      TrimmedZeros(n - 1);
      assert Zeros(n)[..n - 1] == Zeros(n - 1);
    } else {
      assert Zeros(0) == "";
    }
  }

  lemma UnitsOf(d: nat)
    ensures d * UNIT / UNIT == d && d * UNIT % UNIT == 0
  {
  }

  lemma PointOfWhole(d: nat)
    ensures PointText(d * UNIT) == NatText(d) + ".0"
  {
    UnitsOf(d);
    PaddedZero(PLACES);
    TrimmedZeros(PLACES);
  }

  lemma WholeInRange(d: nat)
    requires d < 10000000000000000
    ensures d * UNIT == 0 || POINT_LIMIT <= d * UNIT < EXPONENT_LIMIT
  {
  }

  /** A strike in whole dollars is printed with one zero after the point. */
  lemma WholeDollars(d: nat)
    requires d < 10000000000000000
    ensures StrikeText(d * 100000000) == NatText(d) + ".0"
    ensures d > 0 ==> StrikeText(-(d * 100000000)) == "-" + (NatText(d) + ".0")
  {
    PointOfWhole(d);
    WholeInRange(d);
    PrintedWhole(d * UNIT, NatText(d) + ".0");
  }

  lemma PrintedWhole(m: int, text: string)
    requires m >= 0 && MagnitudeText(m) == text
    ensures StrikeText(m) == text && (m > 0 ==> StrikeText(-m) == "-" + text)
  {
  }

  /** A strike is printed with an exponent exactly below a ten-thousandth and from 1e16 on. */
  lemma ExponentIff(n: int)
    ensures 'e' in StrikeText(n) <==> 0 < Abs(n) < 10000 || Abs(n) >= 1000000000000000000000000
  {
    var m := Abs(n);
    if m == 0 || POINT_LIMIT <= m < EXPONENT_LIMIT {
      assert 'e' !in NatText(m / UNIT) && 'e' !in TrimZeros(Padded(m % UNIT, PLACES));
    } else {
      assert 'e' in ExponentForm(m);
    }
  }

  lemma SmallStrike()
    ensures StrikeText(1000) == "1e-05"
  {
    var n1, n2, n3: string := NatText(1), NatText(10), NatText(100);
    assert NatText(1000) == "1000";
    assert "1000"[..3] == "100" && "100"[..2] == "10" && "10"[..1] == "1";
    assert TrimZeros("10") == "1";
    assert TrimZeros("100") == TrimZeros("10");
    assert TrimZeros("1000") == "1";
    assert NatText(5) == "5" && NatText(0) == "0";
    assert ExponentText(-5) == "-05";
  }
}
