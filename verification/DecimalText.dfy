/** The decimal printer of libs/adapter/common.go and its round trip through the
    parser. */
module DecimalText {
  import opened Types
  import opened Scan
  import opened Decimals
  import DecimalLaws
  import Params

  function Sign(value: int): string {
    if value < 0 then "-" else ""
  }

  function Abs(value: int): nat {
    if value < 0 then -value else value
  }

  function Zeros(n: nat): (s: string)
    ensures |s| == n && forall k :: 0 <= k < n ==> s[k] == '0'
  {
    seq(n, _ => '0')
  }

  /** What the printer puts before the dot. */
  function WholePart(digits: string, scale: int): (s: string)
    ensures AllDigits(digits) ==> AllDigits(s)
  {
    if scale <= 0 then digits
    else if |digits| <= scale then "0"
    else digits[..|digits| - scale]
  }

  /** And behind it, for a positive scale. */
  function FractionPart(digits: string, scale: int): (s: string)
    ensures AllDigits(digits) ==> AllDigits(s)
    ensures |s| == if scale <= 0 then 0 else scale
  {
    if scale <= 0 then ""
    else if |digits| <= scale then Zeros(scale - |digits|) + digits
    else digits[|digits| - scale..]
  }

  function WholeDigits(d: Decimal): (s: string)
    ensures AllDigits(s)
  {
    WholePart(Digits(Abs(d.integer)), d.scale)
  }

  function FractionDigits(d: Decimal): (s: string)
    ensures AllDigits(s)
  {
    FractionPart(Digits(Abs(d.integer)), d.scale)
  }

  /** `AppendBytes` */
  function Print(d: Decimal): string {
    if d.scale <= 0 then Sign(d.integer) + WholeDigits(d)
    else Sign(d.integer) + (WholeDigits(d) + ("." + FractionDigits(d)))
  }

  lemma GroupPrint(sign: string, a: string, b: string)
    ensures ((sign + a) + ".") + b == sign + (a + ("." + b))
  {
  }

  /** `appendScaledInt` */
  method AppendScaledInt(value: int64, scale: int) returns (buf: string)
    ensures buf == Print(Decimal(value, scale))
  {
    ghost var d := Decimal(value, scale);
    var integer: int := value;
    buf := "";
    if scale <= 0 {
      if integer < 0 { buf := "-"; }
      // strconv.AppendInt
      return buf + Digits(Abs(integer));
    }
    var neg := integer < 0;
    var u: nat := if neg then -integer else integer;
    var digits := Digits(u);
    if neg { buf := buf + "-"; }
    assert buf == Sign(integer);
    buf := AppendDotted(buf, digits, scale);
  }

  /** The digits with the dot put in. */
  method AppendDotted(start: string, digits: string, scale: int) returns (buf: string)
    requires scale > 0
    ensures buf == start + (WholePart(digits, scale) + ("." + FractionPart(digits, scale)))
  {
    if |digits| <= scale {
      buf := PadZeros(start, scale - |digits|);
      buf := buf + digits;
      Regroup(start, Zeros(scale - |digits|), digits);
      return;
    }
    var idx := |digits| - scale;
    GroupPrint(start, digits[..idx], digits[idx..]);
    buf := start + digits[..idx];
    buf := buf + ".";
    buf := buf + digits[idx..];
  }

  method PadZeros(start: string, n: nat) returns (buf: string)
    ensures buf == start + "0." + Zeros(n)
  {
    buf := start + "0.";
    var i := 0;
    while i < n
      invariant 0 <= i <= n && buf == start + "0." + Zeros(i)
    {
      assert Zeros(i + 1) == Zeros(i) + "0";
      buf := buf + "0";
      i := i + 1;
    }
  }

  lemma Regroup(sign: string, zeros: string, digits: string)
    ensures sign + "0." + zeros + digits == sign + ("0" + ("." + (zeros + digits)))
  {
  }

  // ---------------------------------------------------------------------
  // Reading it back

  lemma DottedShape(sign: string, whole: string, fraction: string)
    requires (sign == "" || sign == "-") && AllDigits(whole) && AllDigits(fraction)
    ensures var text := sign + (whole + ("." + fraction));
            && text != "" && Start(text) == |sign| && Whole(text) == whole && Fraction(text) == fraction
  {
    var text := sign + (whole + ("." + fraction));
    var dot := |sign| + |whole|;
    PartsStand(text, sign, whole, fraction);
    DottedStart(sign, whole, fraction);
    Params.FindUnique(text, |sign|, dot, '.');
    CutAt(text, dot, whole, fraction);
  }

  lemma DottedStart(sign: string, whole: string, fraction: string)
    requires (sign == "" || sign == "-") && AllDigits(whole)
    ensures Start(sign + (whole + ("." + fraction))) == |sign|
  {
    var text := sign + (whole + ("." + fraction));
    assert sign == "" && whole != "" ==> text[0] == whole[0];
  }

  lemma CutAt(text: string, dot: nat, whole: string, fraction: string)
    requires Start(text) <= dot < |text| && Find(text, Start(text), '.') == dot
    requires text[Start(text)..dot] == whole && text[dot + 1..] == fraction
    ensures Whole(text) == whole && Fraction(text) == fraction
  {
    assert text[dot + 1..|text|] == text[dot + 1..];
  }

  lemma PartsStand(text: string, sign: string, whole: string, fraction: string)
    requires text == sign + (whole + ("." + fraction)) && AllDigits(whole)
    ensures var dot := |sign| + |whole|;
            && dot < |text| && text[|sign|..dot] == whole && text[dot] == '.' && text[dot + 1..] == fraction
            && (sign != "" ==> text[0] == sign[0])
            && forall k :: |sign| <= k < dot ==> text[k] != '.' && text[k] == whole[k - |sign|]
  {
    assert forall k :: |sign| <= k < |sign| + |whole| ==> text[k] == whole[k - |sign|];
  }

  lemma PlainShape(sign: string, whole: string)
    requires (sign == "" || sign == "-") && AllDigits(whole) && sign + whole != ""
    ensures var text := sign + whole;
            && text != "" && Start(text) == |sign| && Whole(text) == whole && Fraction(text) == ""
  {
    var text := sign + whole;
    assert forall k :: |sign| <= k < |text| ==> text[k] == whole[k - |sign|];
    assert text[|sign|..] == whole;
    assert sign == "" ==> text[0] == whole[0];
    assert Find(text, |sign|, '.') == |text|;
  }

  lemma PrintShape(d: Decimal)
    ensures var text := Print(d);
            && text != "" && Start(text) == |Sign(d.integer)|
            && Whole(text) == WholeDigits(d) && Fraction(text) == FractionDigits(d)
  {
    if d.scale <= 0 { PlainShape(Sign(d.integer), WholeDigits(d)); }
    else { DottedShape(Sign(d.integer), WholeDigits(d), FractionDigits(d)); }
  }

  lemma {:induction false} ZerosValue(n: nat)
    ensures AllDigits(Zeros(n)) && DecimalValue(Zeros(n)) == 0
  {
    if n > 0 {
      assert Zeros(n)[..n - 1] == Zeros(n - 1);
      ZerosValue(n - 1);
    }
  }

  /** Both parts together are the digits, whatever the scale. */
  lemma PartsMagnitude(digits: string, scale: int)
    requires AllDigits(digits)
    ensures var whole, fraction := WholePart(digits, scale), FractionPart(digits, scale);
            DecimalValue(whole) * Pow10(|fraction|) + DecimalValue(fraction) == DecimalValue(digits)
  {
    if scale <= 0 {
      assert Pow10(0) == 1 && DecimalValue("") == 0;
    } else if |digits| <= scale {
      PaddedMagnitude(digits, scale);
    } else {
      CutMagnitude(digits, scale);
    }
  }

  lemma CutMagnitude(digits: string, scale: int)
    requires AllDigits(digits) && 0 < scale < |digits|
    ensures var whole, fraction := WholePart(digits, scale), FractionPart(digits, scale);
            DecimalValue(whole) * Pow10(|fraction|) + DecimalValue(fraction) == DecimalValue(digits)
  {
    CutValue(digits, |digits| - scale);
  }

  lemma PaddedMagnitude(digits: string, scale: int)
    requires AllDigits(digits) && 0 < scale && |digits| <= scale
    ensures var fraction := FractionPart(digits, scale);
            WholePart(digits, scale) == "0"
            && DecimalValue("0") * Pow10(|fraction|) + DecimalValue(fraction) == DecimalValue(digits)
  {
    PaddedValue(scale - |digits|, digits);
    ZeroTimes(Pow10(scale));
  }

  lemma ZeroTimes(p: nat)
    ensures 0 * p == 0
  {
  }

  /** What the parser sees: the digits of the integer, cut at the scale. */
  lemma PrintMagnitude(d: Decimal)
    ensures |FractionDigits(d)| == if d.scale <= 0 then 0 else d.scale
    ensures WellFormed(Print(d)) && Magnitude(Print(d)) == Abs(d.integer)
  {
    PrintShape(d);
    DigitsValue(Abs(d.integer));
    PartsMagnitude(Digits(Abs(d.integer)), d.scale);
  }

  lemma CutValue(digits: string, idx: nat)
    requires AllDigits(digits) && idx <= |digits|
    ensures AllDigits(digits[..idx]) && AllDigits(digits[idx..])
    ensures DecimalValue(digits[..idx]) * Pow10(|digits| - idx) + DecimalValue(digits[idx..]) == DecimalValue(digits)
  {
    var whole, fraction := digits[..idx], digits[idx..];
    assert whole + fraction == digits && |fraction| == |digits| - idx;
    ValueConcat(whole, fraction);
  }

  lemma PaddedValue(n: nat, digits: string)
    requires AllDigits(digits)
    ensures DecimalValue("0") == 0 && AllDigits(Zeros(n) + digits) && DecimalValue(Zeros(n) + digits) == DecimalValue(digits)
  {
    ZerosValue(n);
    ValueConcat(Zeros(n), digits);
    assert Zeros(1) == "0";
    ZerosValue(1);
  }

  lemma WholeFits(d: Decimal)
    requires 0 <= d.scale <= 18
    ensures var text := Print(d);
            WellFormed(text)
            && (DecimalValue(Whole(text)) * Pow10(|Fraction(text)|) <= MAX <==> !(d.scale == 0 && d.integer == MIN))
  {
    PrintMagnitude(d);
    PrintShape(d);
    var text := Print(d);
    var p := Pow10(|Fraction(text)|);
    var w := DecimalValue(Whole(text));
    if d.scale > 0 {
      assert p == 10 * Pow10(d.scale - 1);
      EvenProduct(w, Pow10(d.scale - 1));
      assert w * p <= Abs(d.integer) <= MAX + 1;
    }
  }

  lemma EvenProduct(w: nat, p: nat)
    ensures w * (10 * p) != MAX + 1
  {
    assert w * (10 * p) == 10 * (w * p);
  }

  /** Printing and parsing are inverse exactly for scales from 0 to 18, except
      that the smallest integer does not come back without a dot. */
  lemma PrintParse(d: Decimal)
    ensures Parse(Print(d)) == Some(d) <==> 0 <= d.scale <= 18 && !(d.scale == 0 && d.integer == MIN)
  {
    PrintMagnitude(d);
    PrintShape(d);
    if 0 <= d.scale <= 18 {
      WholeFits(d);
      if Parsable(Print(d)) { ParsedBack(d); }
    }
  }

  lemma ParsedBack(d: Decimal)
    requires Parsable(Print(d)) && 0 <= d.scale
    ensures Parse(Print(d)) == Some(d)
  {
    PrintMagnitude(d);
    PrintShape(d);
    var m: int := Abs(d.integer);
    DecimalLaws.WrapOfMagnitude(m);
  }

  /** The printed text spells exactly the decimal, at any non-negative scale. */
  lemma PrintDenotes(d: Decimal)
    requires d.scale >= 0
    ensures WellFormed(Print(d)) && DecimalLaws.TextValue(Print(d)) == DecimalLaws.Value(d)
  {
    PrintMagnitude(d);
    PrintShape(d);
    DecimalLaws.TextValueIs(Print(d));
  }
}
