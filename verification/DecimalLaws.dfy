/** What decimals denote: parsing, printing, rescaling and subtracting against
    the rational numbers. */
module DecimalLaws {
  import opened Types
  import opened Scan
  import opened Decimals

  /** The number a decimal stands for. */
  ghost function Value(d: Decimal): real
    requires d.scale >= 0
  {
    d.integer as real / Pow10(d.scale) as real
  }

  /** The number a well-formed text spells. */
  ghost function TextValue(text: string): real
    requires WellFormed(text)
  {
    var v := DecimalValue(Whole(text)) as real + DecimalValue(Fraction(text)) as real / Pow10(|Fraction(text)|) as real;
    if Start(text) == 1 then -v else v
  }

  lemma FractionSum(a: int, p: int, b: int)
    requires p > 0
    ensures (a * p + b) as real / p as real == a as real + b as real / p as real
  {
    var x, y, z := a as real, p as real, b as real;
    assert (a * p + b) as real == x * y + z;
    assert (x * y + z) / y == x * y / y + z / y;
    assert x * y / y == x;
  }

  lemma SameDenominator(a: int, b: int, p: int)
    requires p > 0
    ensures a as real / p as real == b as real / p as real <==> a == b
  {
    var x, y, z := a as real, p as real, b as real;
    assert x / y * y == x && z / y * y == z;
  }

  lemma NegatedQuotient(a: int, p: int)
    requires p > 0
    ensures (-a) as real / p as real == -(a as real / p as real)
  {
  }

  function Signed(text: string, m: int): int {
    if Start(text) == 1 then -m else m
  }

  /** A well-formed text spells its magnitude over its power of ten. */
  lemma TextValueIs(text: string)
    requires WellFormed(text)
    ensures TextValue(text) == Signed(text, Magnitude(text)) as real / Pow10(|Fraction(text)|) as real
  {
    var p := Pow10(|Fraction(text)|);
    FractionSum(DecimalValue(Whole(text)), p, DecimalValue(Fraction(text)));
    NegatedQuotient(Magnitude(text), p);
  }

  lemma WrapExact(x: int)
    ensures Wrap(x) == x <==> MIN <= x <= MAX
  {
  }

  lemma ParsableMagnitude(text: string)
    requires Parsable(text)
    ensures Magnitude(text) < TWO64
  {
    ValueBelow(Fraction(text));
    Pow10Grows(|Fraction(text)|, 18);
    Pow10Values();
  }

  /** An accepted text denotes exactly its number, unless the sum of whole part
      and fraction runs over int64. */
  lemma ParseDenotes(text: string)
    requires Parse(text).Some?
    ensures Value(Parse(text).value) == TextValue(text)
       <==> Magnitude(text) <= MAX || (Start(text) == 1 && Magnitude(text) == MAX + 1)
  {
    var m := Magnitude(text);
    var d := Parse(text).value;
    ParsableMagnitude(text);
    TextValueIs(text);
    SameDenominator(d.integer, Signed(text, m), Pow10(|Fraction(text)|));
    WrapOfMagnitude(m);
  }

  lemma WrapOfMagnitude(m: int)
    requires 0 <= m < TWO64
    ensures Wrap(m) == if m <= MAX then m else m - TWO64
    ensures Wrap(-Wrap(m)) == if m <= MAX then -m else if m == MAX + 1 then MIN else TWO64 - m
  {
  }

  /** Parsing succeeds exactly within 18 fraction digits, and then denotes the
      number, whenever the digits without the dot fit int64. */
  lemma ParseExact(text: string)
    requires WellFormed(text) && Magnitude(text) <= MAX
    ensures Parse(text).Some? <==> |Fraction(text)| <= 18
    ensures Parse(text).Some? ==> Value(Parse(text).value) == TextValue(text) && Parse(text).value.scale == |Fraction(text)|
  {
    if Parse(text).Some? { ParseDenotes(text); }
  }

  lemma {:induction false} Nines(s: string)
    requires forall k :: 0 <= k < |s| ==> s[k] == '9'
    ensures AllDigits(s) && DecimalValue(s) == Pow10(|s|) - 1
  {
    if s != "" { Nines(s[..|s| - 1]); }
  }

  /** Where it does not: an accepted text that comes out negative. */
  lemma ParseWraps()
    ensures var text := "9.999999999999999999";
            && Parse(text) == Some(Decimal(9_999_999_999_999_999_999 - TWO64, 18))
            && Value(Parse(text).value) < 0.0 < TextValue(text)
  {
    var text := "9.999999999999999999";
    assert Find(text, 0, '.') == 1;
    NinesParse(text, text[0..1], text[2..]);
  }

  lemma NinesParse(text: string, whole: string, fraction: string)
    requires text != "" && Start(text) == 0 && Whole(text) == whole && Fraction(text) == fraction
    requires |whole| == 1 && |fraction| == 18
    requires (forall k :: 0 <= k < |whole| ==> whole[k] == '9') && (forall k :: 0 <= k < |fraction| ==> fraction[k] == '9')
    ensures Parse(text) == Some(Decimal(9_999_999_999_999_999_999 - TWO64, 18))
    ensures Value(Parse(text).value) < 0.0 < TextValue(text)
  {
    Nines(whole);
    Nines(fraction);
    Pow10Values();
    assert Pow10(1) == 10;
    assert Magnitude(text) == 9_999_999_999_999_999_999;
    TextValueIs(text);
  }

  // ---------------------------------------------------------------------
  // Rescaling and subtracting

  /** What `rescaleDecimal` needs: the power of ten and the product in range. */
  predicate Rescalable(d: Decimal, scale: int) {
    && d.scale <= scale <= d.scale + 18
    && -MAX <= d.integer * Pow10(scale - d.scale) <= MAX
  }

  /** `rescaleDecimal` */
  method RescaleDecimal(d: Decimal, scale: int) returns (r: Option<int64>)
    ensures r == if Rescalable(d, scale) then Some(d.integer * Pow10(scale - d.scale)) else None
  {
    if scale < d.scale { return None; }
    var mul := Power(scale - d.scale);
    if mul.None? { return None; }
    var m := mul.value;
    var integer: int := d.integer;
    var size := if integer < 0 then -integer else integer;
    FitsByDivision(size, m, MAX);
    SignedProduct(integer, m);
    // Go divides -MAX towards zero.
    if integer > MAX / m || integer < -(MAX / m) { return None; }
    return Some(integer * m);
  }

  lemma SignedProduct(a: int, m: int)
    requires m > 0
    ensures a >= 0 ==> a * m >= 0
    ensures a < 0 ==> (-a) * m == -(a * m) && a * m < 0
  {
  }

  function Rescaled(d: Decimal, scale: int): int
    requires Rescalable(d, scale)
  {
    d.integer * Pow10(scale - d.scale)
  }

  function Larger(a: int, b: int): int {
    if b > a then b else a
  }

  /** `decimalSub` */
  function Sub(a: Decimal, b: Decimal): Decimal {
    var scale := Larger(a.scale, b.scale);
    if !Rescalable(a, scale) || !Rescalable(b, scale) then Decimal(0, scale)
    else Decimal(Wrap(Rescaled(a, scale) - Rescaled(b, scale)), scale)
  }

  method DecimalSub(a: Decimal, b: Decimal) returns (r: Decimal)
    ensures r == Sub(a, b)
  {
    var scale := a.scale;
    if b.scale > scale { scale := b.scale; }
    var ai := RescaleDecimal(a, scale);
    if ai.None? { return Decimal(0, scale); }
    var bi := RescaleDecimal(b, scale);
    if bi.None? { return Decimal(0, scale); }
    var difference: int := ai.value as int - bi.value as int;
    return Decimal(Wrap(difference), scale);
  }

  lemma {:induction false} Pow10Sum(a: nat, b: nat)
    ensures Pow10(a + b) == Pow10(a) * Pow10(b)
    decreases b
  {
    if b > 0 {
      Pow10Sum(a, b - 1);
      assert Pow10(a) * (10 * Pow10(b - 1)) == 10 * (Pow10(a) * Pow10(b - 1));
    }
  }

  lemma ScaledQuotient(a: int, p: int, q: int)
    requires p > 0 && q > 0
    ensures p * q > 0
    ensures (a * q) as real / (p * q) as real == a as real / p as real
  {
    var x, y, z := a as real, p as real, q as real;
    assert p * q > 0;
    assert (a * q) as real == x * z && (p * q) as real == y * z;
    assert (x / y) * (y * z) == (x / y * y) * z == x * z;
  }

  /** Rescaling does not change the number. */
  lemma RescaledValue(d: Decimal, scale: int)
    requires 0 <= d.scale <= scale
    ensures (d.integer * Pow10(scale - d.scale)) as real / Pow10(scale) as real == Value(d)
  {
    Pow10Sum(d.scale, scale - d.scale);
    ScaledQuotient(d.integer, Pow10(d.scale), Pow10(scale - d.scale));
  }

  lemma DifferenceQuotient(a: int, b: int, p: int)
    requires p > 0
    ensures (a - b) as real / p as real == a as real / p as real - b as real / p as real
  {
  }

  /** Subtraction denotes the difference exactly when both sides rescale to the
      larger scale and the difference fits int64; failing to rescale it yields
      zero, which is right only for equal numbers. */
  lemma SubDenotes(a: Decimal, b: Decimal)
    requires a.scale >= 0 && b.scale >= 0
    ensures var scale := Larger(a.scale, b.scale);
            Value(Sub(a, b)) == Value(a) - Value(b)
            <==> if Rescalable(a, scale) && Rescalable(b, scale)
                 then MIN <= Rescaled(a, scale) - Rescaled(b, scale) <= MAX
                 else Value(a) == Value(b)
  {
    var scale := Larger(a.scale, b.scale);
    RescaledValue(a, scale);
    RescaledValue(b, scale);
    if Rescalable(a, scale) && Rescalable(b, scale) {
      WrappedDifference(Rescaled(a, scale), Rescaled(b, scale), Pow10(scale));
    } else {
      ZeroQuotient(Pow10(scale));
    }
  }

  lemma WrappedDifference(x: int, y: int, p: int)
    requires p > 0
    ensures Wrap(x - y) as real / p as real == x as real / p as real - y as real / p as real <==> MIN <= x - y <= MAX
  {
    DifferenceQuotient(x, y, p);
    SameDenominator(Wrap(x - y), x - y, p);
    WrapExact(x - y);
  }

  lemma ZeroQuotient(p: int)
    requires p > 0
    ensures 0 as real / p as real == 0.0
  {
  }

  /** Non-negative decimals that rescale subtract exactly. */
  lemma SubExact(a: Decimal, b: Decimal)
    requires a.scale >= 0 && b.scale >= 0 && a.integer >= 0 && b.integer >= 0
    requires Rescalable(a, Larger(a.scale, b.scale)) && Rescalable(b, Larger(a.scale, b.scale))
    ensures Value(Sub(a, b)) == Value(a) - Value(b)
  {
    SubDenotes(a, b);
    SignedProduct(a.integer, Pow10(Larger(a.scale, b.scale) - a.scale));
    SignedProduct(b.integer, Pow10(Larger(a.scale, b.scale) - b.scale));
  }

  /** A difference that is lost: the larger number does not rescale. */
  lemma SubLoses()
    ensures var a, b := Decimal(MAX, 0), Decimal(1, 1);
            Sub(a, b) == Decimal(0, 1) && Value(Sub(a, b)) != Value(a) - Value(b)
  {
    var a, b := Decimal(MAX, 0), Decimal(1, 1);
    assert Pow10(0) == 1 && Pow10(1) == 10;
    assert !Rescalable(a, 1);
    SubDenotes(a, b);
    assert Value(a) == MAX as real && Value(b) == 1.0 / 10.0;
  }
}
