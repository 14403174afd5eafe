/** Fixed-point decimals: printed by libs/adapter/common.go, parsed, rescaled and
    subtracted by bundle/internal/ingest/binance/payload.go, which
    btcc/payload.go repeats.  Integers are int64: what overflows wraps. */
module Decimals {
  import opened Types
  import opened Scan
  import Params

  const MAX: int := 0x7fff_ffff_ffff_ffff
  const MIN: int := -0x8000_0000_0000_0000

  type int64 = x: int | MIN <= x <= MAX

  /** An int64 result: its value modulo 2^64. */
  function Wrap(x: int): (r: int)
    ensures MIN <= r <= MAX
  {
    (x + 0x8000_0000_0000_0000) % 0x1_0000_0000_0000_0000 - 0x8000_0000_0000_0000
  }

  /** `adapter.Decimal`: `integer` / 10^`scale` */
  datatype Decimal = Decimal(integer: int64, scale: int)

  function Pow10(n: nat): (p: nat)
    ensures p >= 1
  {
    if n == 0 then 1 else 10 * Pow10(n - 1)
  }

  lemma Pow10Values()
    ensures Pow10(18) == 1_000_000_000_000_000_000
  {
    assert Pow10(6) == 1_000_000;
    assert Pow10(12) == 1_000_000_000_000;
  }

  lemma {:induction false} Pow10Grows(a: nat, b: nat)
    requires a <= b
    ensures Pow10(a) <= Pow10(b)
    decreases b - a
  {
    if a < b { Pow10Grows(a, b - 1); }
  }

  // ---------------------------------------------------------------------
  // Digits

  /** The decimal digits of `u`; none for zero. */
  function Significant(u: nat): (s: string)
    ensures AllDigits(s)
    ensures u > 0 ==> s != ""
  {
    if u == 0 then "" else Significant(u / 10) + [DigitChar(u % 10)]
  }

  function DigitChar(d: nat): (c: char)
    requires d <= 9
    ensures IsDigit(c) && DigitValue(c) == d
  {
    (d + '0' as int) as char
  }

  /** `strconv.AppendUint` */
  function Digits(u: nat): (s: string)
    ensures AllDigits(s) && s != ""
  {
    if u == 0 then "0" else Significant(u)
  }

  lemma {:induction false} SignificantValue(u: nat)
    ensures DecimalValue(Significant(u)) == u
  {
    if u > 0 {
      SignificantValue(u / 10);
      DecimalSnoc(Significant(u / 10), DigitChar(u % 10));
    }
  }

  /** Digits mean the number they were made of. */
  lemma DigitsValue(u: nat)
    ensures DecimalValue(Digits(u)) == u
  {
    if u == 0 { DecimalSnoc("", '0'); assert "" + "0" == "0"; } else { SignificantValue(u); }
  }

  lemma {:induction false} SignificantLength(u: nat, k: nat)
    requires u < Pow10(k)
    ensures |Significant(u)| <= k
  {
    if u > 0 { SignificantLength(u / 10, k - 1); }
  }

  lemma {:induction false} ValueBelow(s: string)
    requires AllDigits(s)
    ensures DecimalValue(s) < Pow10(|s|)
  {
    if s != "" { ValueBelow(s[..|s| - 1]); }
  }

  lemma {:induction false} ValueConcat(a: string, b: string)
    requires AllDigits(a) && AllDigits(b)
    ensures AllDigits(a + b) && DecimalValue(a + b) == DecimalValue(a) * Pow10(|b|) + DecimalValue(b)
    decreases |b|
  {
    if b == "" {
      assert a + b == a;
    } else {
      var c := b[..|b| - 1];
      var d := b[|b| - 1];
      ValueConcat(a, c);
      DecimalSnoc(a + c, d);
      LastDigit(a, b);
      TimesTen(DecimalValue(a), Pow10(|c|), DecimalValue(c), DigitValue(d));
    }
  }

  lemma LastDigit(a: string, b: string)
    requires b != ""
    ensures (a + b[..|b| - 1]) + [b[|b| - 1]] == a + b
  {
  }

  lemma TimesTen(a: nat, p: nat, c: nat, d: nat)
    ensures (a * p + c) * 10 + d == a * (10 * p) + (c * 10 + d)
  {
  }

  lemma ValueOfPrefix(a: string, b: string)
    requires AllDigits(a) && AllDigits(b)
    ensures AllDigits(a + b) && DecimalValue(a) <= DecimalValue(a + b)
  {
    ValueConcat(a, b);
    TimesPositive(DecimalValue(a), Pow10(|b|));
  }

  lemma TimesPositive(a: nat, p: nat)
    requires p >= 1
    ensures a <= a * p
  {
  }

  /** `appendUint`: fills its 20 bytes from the back and never runs out of them. */
  method AppendUint(dst: string, v: nat) returns (r: string)
    requires v < TWO64
    ensures r == dst + Digits(v)
  {
    if v == 0 { return dst + "0"; }
    var buf := new char[20];
    var i := buf.Length;
    var u := v;
    TwentyDigits(v);
    while u > 0
      invariant 0 <= i <= 20 && |Significant(u)| <= i
      invariant Significant(u) + buf[i..] == Significant(v)
    {
      LastOfSignificant(u, buf[i..]);
      i := i - 1;
      PutDigit(buf, i, DigitChar(u % 10));
      u := u / 10;
    }
    return dst + buf[i..];
  }

  method PutDigit(buf: array<char>, at: nat, c: char)
    requires at < buf.Length
    modifies buf
    ensures buf[at..] == [c] + old(buf[at + 1..])
  {
    buf[at] := c;
  }

  lemma TwentyDigits(v: nat)
    requires v < TWO64
    ensures |Significant(v)| <= 20
  {
    assert v < Pow10(20) by { Pow10Values(); assert Pow10(20) == 100 * Pow10(18); }
    SignificantLength(v, 20);
  }

  lemma LastOfSignificant(u: nat, rest: string)
    requires u > 0
    ensures Significant(u / 10) + ([DigitChar(u % 10)] + rest) == Significant(u) + rest
    ensures |Significant(u)| == |Significant(u / 10)| + 1
  {
    var front, last := Significant(u / 10), [DigitChar(u % 10)];
    assert Significant(u) == front + last;
    Params.Associate(front, last, rest);
  }

  /** At `i` stand the digits of `v`, and no further digit. */
  ghost predicate DigitsStand(s: string, i: nat, v: nat) {
    At(s, Digits(v), i) && (i + |Digits(v)| < |s| ==> !IsDigit(s[i + |Digits(v)|]))
  }

  /** What `appendUint` prints behind a key, `ScanUintField` reads back, whatever
      follows the digits. */
  lemma UintRoundTrip(s: string, key: string, gap: string, space: string, v: nat)
    requires v < TWO64 && key != "" && IndexFrom(s, key, 0) >= 0
    requires (forall k :: 0 <= k < |gap| ==> gap[k] != ':') && (forall k :: 0 <= k < |space| ==> IsSpace(space[k]))
    requires At(s, gap + (":" + (space + Digits(v))), IndexFrom(s, key, 0) + |key|)
    requires DigitsStand(s, IndexFrom(s, key, 0) + |key| + |gap| + 1 + |space|, v)
    ensures UintField(s, key) == Some(v)
  {
    Params.ValueStartExact(s, key, gap, space, Digits(v));
    UintFieldAt(s, key, ValueStart(s, key).value, v);
  }

  lemma UintFieldAt(s: string, key: string, i: nat, v: nat)
    requires v < TWO64 && ValueStart(s, key) == Some(i)
    requires DigitsStand(s, i, v)
    ensures UintField(s, key) == Some(v)
  {
    DigitRun(s, i, Digits(v));
    UintFieldFrom(s, key, i);
    assert s[i..DigitsEnd(s, i)] == Digits(v);
    DigitsValue(v);
    SmallRemainder(v, TWO64);
  }

  lemma UintFieldFrom(s: string, key: string, i: nat)
    requires ValueStart(s, key) == Some(i) && i < |s| && IsDigit(s[i])
    ensures UintField(s, key) == Some(DecimalValue(s[i..DigitsEnd(s, i)]) % TWO64)
  {
  }

  lemma SmallRemainder(v: nat, m: nat)
    requires v < m
    ensures v % m == v
  {
  }

  lemma DigitRun(s: string, i: nat, digits: string)
    requires AllDigits(digits) && digits != "" && At(s, digits, i)
    requires i + |digits| < |s| ==> !IsDigit(s[i + |digits|])
    ensures i < |s| && IsDigit(s[i]) && s[i..DigitsEnd(s, i)] == digits
  {
    forall k | i <= k < i + |digits| ensures IsDigit(s[k]) { AtChar(s, digits, i, k - i); }
    DigitsEndUnique(s, i, i + |digits|);
  }

  // ---------------------------------------------------------------------
  // Parsing

  /** Where the digits begin: behind a minus sign. */
  function Start(text: string): nat {
    if text != "" && text[0] == '-' then 1 else 0
  }

  function Whole(text: string): string {
    text[Start(text)..Find(text, Start(text), '.')]
  }

  /** What stands behind the first dot. */
  function Fraction(text: string): string {
    var dot := Find(text, Start(text), '.');
    if dot < |text| then text[dot + 1..|text|] else ""
  }

  /** A minus sign if any, digits if any, a dot if any, digits if any. */
  predicate WellFormed(text: string) {
    text != "" && AllDigits(Whole(text)) && AllDigits(Fraction(text))
  }

  /** The number the digits spell with the dot left out. */
  function Magnitude(text: string): nat
    requires WellFormed(text)
  {
    DecimalValue(Whole(text)) * Pow10(|Fraction(text)|) + DecimalValue(Fraction(text))
  }

  lemma MagnitudeDropsDot(text: string)
    requires WellFormed(text)
    ensures AllDigits(Whole(text) + Fraction(text)) && Magnitude(text) == DecimalValue(Whole(text) + Fraction(text))
  {
    ValueConcat(Whole(text), Fraction(text));
  }

  /** What `parseDecimal` accepts: at most 18 fraction digits, and room for the
      whole part; the last fraction digits are not checked. */
  predicate Parsable(text: string) {
    && WellFormed(text)
    && |Fraction(text)| <= 18
    && DecimalValue(Whole(text)) * Pow10(|Fraction(text)|) <= MAX
  }

  /** `parseDecimal` */
  function Parse(text: string): Option<Decimal> {
    if !Parsable(text) then None
    else
      var value: int := Wrap(Magnitude(text));
      Some(Decimal(if Start(text) == 1 then Wrap(-value) else value, |Fraction(text)|))
  }

  lemma FitsByDivision(a: nat, m: nat, bound: nat)
    requires m > 0
    ensures a <= bound / m <==> a * m <= bound
  {
    var q := bound / m;
    assert q * m <= bound < (q + 1) * m;
    if a <= q { ProductOrder(a, q, m); } else { ProductOrder(q + 1, a, m); }
  }

  lemma ProductOrder(a: nat, b: nat, m: nat)
    requires a <= b
    ensures a * m <= b * m
  {
  }

  /** The power loop of `parseDecimal` and `rescaleDecimal`. */
  method Power(n: nat) returns (mul: Option<int64>)
    ensures mul == if n <= 18 then Some(Pow10(n)) else None
  {
    var m: int64 := 1;
    var i := 0;
    while i < n
      invariant 0 <= i <= n && i <= 18 && m == Pow10(i)
    {
      Pow10Values();
      if m > MAX / 10 {
        assert i == 18 by { if i < 18 { Pow10Grows(i, 17); } }
        return None;
      }
      assert i < 18;
      m := m * 10;
      i := i + 1;
    }
    return Some(m);
  }

  /** The digits read so far spell `v`. */
  predicate Spells(s: string, from: nat, i: nat, v: int) {
    from <= i <= |s| && AllDigits(s[from..i]) && v == DecimalValue(s[from..i])
  }

  lemma DigitStep(s: string, from: nat, i: nat, v: nat)
    requires Spells(s, from, i, v) && i < |s| && IsDigit(s[i])
    ensures Spells(s, from, i + 1, v * 10 + DigitValue(s[i]))
  {
    assert s[from..i + 1] == s[from..i] + [s[i]];
    DecimalSnoc(s[from..i], s[i]);
  }

  /** A run of digits whose value fits. */
  predicate Fits(digits: string) {
    AllDigits(digits) && DecimalValue(digits) <= MAX
  }

  /** Digits that outgrow the bound do so for the whole run. */
  lemma Outgrown(s: string, from: nat, i: nat, to: nat, v: nat)
    requires Spells(s, from, i, v) && i <= to <= |s| && Fits(s[from..to])
    ensures v <= MAX
  {
    assert s[from..to] == s[from..i] + s[i..to];
    assert forall k :: 0 <= k < to - i ==> s[i..to][k] == s[from..to][k + i - from];
    ValueOfPrefix(s[from..i], s[i..to]);
  }

  lemma NotADigit(s: string, from: nat, i: nat, to: nat)
    requires from <= i < to <= |s| && !IsDigit(s[i])
    ensures !AllDigits(s[from..to])
  {
    assert s[from..to][i - from] == s[i];
  }

  datatype Parts = Parts(whole: int64, fraction: int64, scale: nat)

  /** One digit of either part. */
  method TakeDigit(src: string, ghost from: nat, i: nat, v: int64, ghost to: nat) returns (r: Option<int64>)
    requires Spells(src, from, i, v) && v >= 0 && i < to <= |src| && IsDigit(src[i])
    ensures r.None? ==> !Fits(src[from..to])
    ensures r.Some? ==> Spells(src, from, i + 1, r.value) && r.value >= 0
  {
    var digit := DigitValue(src[i]);
    DigitStep(src, from, i, v);
    if v > (MAX - digit) / 10 {
      if Fits(src[from..to]) { Outgrown(src, from, i + 1, to, v * 10 + digit); }
      return None;
    }
    return Some(v * 10 + digit);
  }

  /** What the loop of `parseDecimal` knows at `i`. */
  ghost predicate Scanned(src: string, i: nat, seenDot: bool, whole: int64, fraction: int64, scale: nat) {
    var start := Start(src);
    var dot := Find(src, start, '.');
    && start <= i <= |src| && whole >= 0 && fraction >= 0
    && (if seenDot then dot < i else i <= dot && fraction == 0 && scale == 0)
    && Spells(src, start, if seenDot then dot else i, whole)
    && (seenDot ==> Spells(src, dot + 1, i, fraction) && scale == i - dot - 1)
  }

  lemma ScanEnds(src: string, seenDot: bool, whole: int64, fraction: int64, scale: nat)
    requires Scanned(src, |src|, seenDot, whole, fraction, scale)
    ensures Fits(Whole(src)) && Fits(Fraction(src))
    ensures whole == DecimalValue(Whole(src)) && fraction == DecimalValue(Fraction(src)) && scale == |Fraction(src)|
  {
  }

  lemma DotScanned(src: string, i: nat, whole: int64)
    requires Scanned(src, i, false, whole, 0, 0) && i < |src| && src[i] == '.'
    ensures Scanned(src, i + 1, true, whole, 0, 0)
  {
  }

  /** Behind a byte that is no digit, or a second dot, nothing parses. */
  lemma ScanFails(src: string, i: nat, seenDot: bool, whole: int64, fraction: int64, scale: nat)
    requires Scanned(src, i, seenDot, whole, fraction, scale) && i < |src| && !IsDigit(src[i])
    requires src[i] == '.' ==> seenDot
    ensures !Fits(Whole(src)) || !Fits(Fraction(src))
  {
    var start := Start(src);
    var dot := Find(src, start, '.');
    if seenDot { NotADigit(src, dot + 1, i, |src|); } else { NotADigit(src, start, i, dot); }
  }

  /** One digit, for the part it belongs to. */
  method ScanDigit(src: string, i: nat, seenDot: bool, whole: int64, fraction: int64, scale: nat)
    returns (r: Option<(int64, int64, nat)>)
    requires Scanned(src, i, seenDot, whole, fraction, scale) && i < |src| && IsDigit(src[i])
    ensures r.None? ==> !Fits(Whole(src)) || !Fits(Fraction(src))
    ensures r.Some? ==> Scanned(src, i + 1, seenDot, r.value.0, r.value.1, r.value.2)
  {
    ghost var dot := Find(src, Start(src), '.');
    if !seenDot {
      var w := TakeDigit(src, Start(src), i, whole, dot);
      return if w.None? then None else Some((w.value, fraction, scale));
    }
    var f := TakeDigit(src, dot + 1, i, fraction, |src|);
    return if f.None? then None else Some((whole, f.value, scale + 1));
  }

  /** The loop of `parseDecimal`. */
  method ScanParts(src: string) returns (r: Option<Parts>)
    ensures r.Some? <==> Fits(Whole(src)) && Fits(Fraction(src))
    ensures r.Some? ==> r.value == Parts(DecimalValue(Whole(src)), DecimalValue(Fraction(src)), |Fraction(src)|)
  {
    var i := Start(src);
    var whole: int64, fraction: int64, scale: nat, seenDot := 0, 0, 0, false;
    while i < |src|
      invariant Scanned(src, i, seenDot, whole, fraction, scale)
    {
      var c := src[i];
      if c == '.' && !seenDot {
        DotScanned(src, i, whole);
        seenDot := true;
      } else if c < '0' || c > '9' {
        ScanFails(src, i, seenDot, whole, fraction, scale);
        return None;
      } else {
        var taken := ScanDigit(src, i, seenDot, whole, fraction, scale);
        if taken.None? { return None; }
        whole, fraction, scale := taken.value.0, taken.value.1, taken.value.2;
      }
      i := i + 1;
    }
    ScanEnds(src, seenDot, whole, fraction, scale);
    return Some(Parts(whole, fraction, scale));
  }

  method ParseDecimal(src: string) returns (r: Option<Decimal>)
    ensures r == Parse(src)
  {
    if |src| == 0 { return None; }
    var neg := src[0] == '-';
    var parts := ScanParts(src);
    ParsableFits(src);
    if parts.None? { return None; }
    var joined := PutTogether(parts.value);
    if joined.None? { return None; }
    var value := joined.value;
    if neg { value := Wrap(-value); }
    return Some(Decimal(value, parts.value.scale));
  }

  /** Whole part and fraction put together, unless a product overflows. */
  method PutTogether(parts: Parts) returns (r: Option<int64>)
    requires parts.whole >= 0 && parts.fraction >= 0 && (parts.scale == 0 ==> parts.fraction == 0)
    ensures r.Some? <==> parts.scale <= 18 && parts.whole * Pow10(parts.scale) <= MAX
    ensures r.Some? ==> r.value == Wrap(parts.whole * Pow10(parts.scale) + parts.fraction)
  {
    if parts.scale == 0 { return Some(parts.whole); }
    var mul := Power(parts.scale);
    if mul.None? { return None; }
    FitsByDivision(parts.whole, mul.value, MAX);
    if parts.whole > MAX / mul.value { return None; }
    return Some(Wrap(parts.whole * mul.value + parts.fraction));
  }

  lemma ParsableFits(text: string)
    ensures Parsable(text) ==> Fits(Whole(text)) && Fits(Fraction(text))
  {
    if Parsable(text) {
      TimesPositive(DecimalValue(Whole(text)), Pow10(|Fraction(text)|));
      ValueBelow(Fraction(text));
      Pow10Grows(|Fraction(text)|, 18);
      Pow10Values();
    }
  }
}
