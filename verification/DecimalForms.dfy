/** The texts the decimal parser accepts and the printers give, spelled out. */
module DecimalForms {
  import opened Types
  import opened Scan
  import opened Decimals
  import DecimalText
  import DecimalLaws

  /** A printed number has no leading zero, unless it is zero. */
  lemma {:induction false} SignificantStarts(u: nat)
    requires u > 0
    ensures Significant(u) != "" && Significant(u)[0] != '0'
  {
    if u < 10 {
      assert Significant(u / 10) == "";
      assert DigitValue(DigitChar(u)) == u;
    } else {
      SignificantStarts(u / 10);
    }
  }

  lemma DigitsStart(u: nat)
    ensures Digits(u) != "" && (Digits(u)[0] == '0' <==> u == 0) && (u == 0 ==> Digits(u) == "0")
  {
    if u > 0 { SignificantStarts(u); }
  }

  /** A decimal as it may be written: a minus sign or none, digits, and perhaps a
      dot and more digits. */
  ghost predicate Written(text: string, minus: bool, whole: string, dotted: bool, fraction: string) {
    && AllDigits(whole) && AllDigits(fraction) && (!dotted ==> fraction == "")
    && text == (if minus then "-" else "") + (whole + (if dotted then "." + fraction else ""))
  }

  lemma WrittenParts(text: string, minus: bool, whole: string, dotted: bool, fraction: string)
    requires Written(text, minus, whole, dotted, fraction) && text != ""
    ensures Start(text) == (if minus then 1 else 0) && Whole(text) == whole && Fraction(text) == fraction
  {
    var sign := if minus then "-" else "";
    if dotted {
      DecimalText.DottedShape(sign, whole, fraction);
    } else {
      assert whole + "" == whole;
      DecimalText.PlainShape(sign, whole);
    }
  }

  lemma Rejoined(text: string, start: nat, dot: nat)
    requires start <= dot <= |text|
    ensures text == text[..start] + (text[start..dot] + text[dot..])
    ensures dot < |text| ==> text[dot..] == [text[dot]] + text[dot + 1..]
    ensures dot == |text| ==> text[dot..] == ""
  {
  }

  lemma ReadAsWritten(text: string)
    requires WellFormed(text)
    ensures Written(text, Start(text) == 1, Whole(text), Find(text, Start(text), '.') < |text|, Fraction(text))
  {
    var dot := Find(text, Start(text), '.');
    Rejoined(text, Start(text), dot);
    assert text[..Start(text)] == if Start(text) == 1 then "-" else "";
    if dot < |text| { assert text[dot + 1..|text|] == text[dot + 1..]; }
  }

  /** These texts are well-formed, except the empty one, and no others are. */
  lemma WellFormedExactly(text: string)
    ensures WellFormed(text) <==>
              text != "" && exists minus: bool, whole: string, dotted: bool, fraction: string ::
                Written(text, minus, whole, dotted, fraction)
  {
    if WellFormed(text) { ReadAsWritten(text); }
    forall minus: bool, whole: string, dotted: bool, fraction: string
      | text != "" && Written(text, minus, whole, dotted, fraction)
      ensures WellFormed(text)
    {
      WrittenParts(text, minus, whole, dotted, fraction);
    }
  }

  /** What such a text is parsed to, and when. */
  lemma ParseOfWritten(text: string, minus: bool, whole: string, dotted: bool, fraction: string)
    requires Written(text, minus, whole, dotted, fraction) && text != ""
    ensures AllDigits(whole + fraction)
    ensures Parse(text).Some? <==> |fraction| <= 18 && DecimalValue(whole) * Pow10(|fraction|) <= 0x7fff_ffff_ffff_ffff
    ensures var v: int := DecimalValue(whole + fraction);
            Parse(text).Some? && v <= 0x7fff_ffff_ffff_ffff ==> Parse(text).value == Decimal(if minus then -v else v, |fraction|)
  {
    WrittenParts(text, minus, whole, dotted, fraction);
    MagnitudeDropsDot(text);
    WrapKeeps(DecimalValue(whole + fraction));
  }

  lemma WrapKeeps(v: int)
    ensures 0 <= v <= 0x7fff_ffff_ffff_ffff ==> Wrap(v) == v && Wrap(-v) == -v
  {
  }

  /** A decimal rescales by up to 18 places, up to 2^63-1 in magnitude. */
  lemma RescalableExactly(d: Decimal, scale: int)
    ensures DecimalLaws.Rescalable(d, scale) <==>
              && 0 <= scale - d.scale <= 18
              && -0x7fff_ffff_ffff_ffff <= d.integer * Pow10(scale - d.scale) <= 0x7fff_ffff_ffff_ffff
  {
  }

  /** At no or a negative scale the printer writes the integer alone. */
  lemma PrintWhole(d: Decimal)
    requires d.scale <= 0
    ensures var i: int := d.integer;
            DecimalText.Print(d) == if i < 0 then "-" + Digits(-i) else Digits(i)
  {
  }
}
