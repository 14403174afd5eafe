/** Byte scanners of libs/shared/scanner/bytes.go and the shared helpers of
    bundle/internal/ingest/btcc/payload.go and binance/payload.go.  A payload is
    a `string` whose characters stand for the bytes.

    Each scanner is a loop proved against the function beside it. */
module Scan {
  import opened Types

  predicate IsSpace(c: char) {
    c == ' ' || c == '\t' || c == '\n' || c == '\r'
  }

  predicate IsDigit(c: char) {
    '0' <= c <= '9'
  }

  /** `text` stands at position `i` of `s`. */
  predicate At(s: string, text: string, i: nat) {
    i + |text| <= |s| && s[i..i + |text|] == text
  }

  lemma AtSplit(s: string, a: string, b: string, i: nat)
    ensures At(s, a + b, i) <==> At(s, a, i) && At(s, b, i + |a|)
  {
    if i + |a + b| <= |s| {
      var t := s[i..i + |a + b|];
      assert t[..|a|] == s[i..i + |a|] && t[|a|..] == s[i + |a|..i + |a| + |b|];
      if At(s, a + b, i) {
        assert (a + b)[..|a|] == a && (a + b)[|a|..] == b;
      }
    }
  }

  lemma AtChar(s: string, text: string, i: nat, k: nat)
    requires At(s, text, i) && k < |text|
    ensures s[i + k] == text[k]
  {
    assert s[i..i + |text|][k] == text[k];
  }

  // ---------------------------------------------------------------------
  // Finding a key

  /** The first position from `start` on at which `key` stands, or -1. */
  function IndexFrom(s: string, key: string, start: nat): (r: int)
    ensures -1 <= r
    ensures r >= 0 ==> start <= r && At(s, key, r)
    ensures forall i :: start <= i && At(s, key, i) ==> 0 <= r <= i
    decreases |s| - start
  {
    if start + |key| > |s| then -1
    else if At(s, key, start) then start
    else if start >= |s| then -1
    else IndexFrom(s, key, start + 1)
  }

  /** `indexOfFrom`, and `IndexOf` for start 0.  An empty key is never found. */
  method IndexOfFrom(s: string, key: string, start: int) returns (r: int)
    ensures r == if key == "" || start < 0 then -1 else IndexFrom(s, key, start)
  {
    if |key| == 0 || start < 0 || start >= |s| { return -1; }
    if |s| - start < |key| { return -1; }
    var i := start;
    while i <= |s| - |key|
      invariant start <= i <= |s| - |key| + 1
      invariant IndexFrom(s, key, start) == IndexFrom(s, key, i)
    {
      var j := 0;
      while j < |key| && s[i + j] == key[j]
        invariant 0 <= j <= |key| && s[i..i + j] == key[..j]
      {
        assert s[i..i + j + 1] == s[i..i + j] + [s[i + j]] && key[..j + 1] == key[..j] + [key[j]];
        j := j + 1;
      }
      if j == |key| {
        assert key[..j] == key;
        return i;
      }
      assert !At(s, key, i) by {
        if At(s, key, i) { AtChar(s, key, i, j); }
      }
      i := i + 1;
    }
    return -1;
  }

  // ---------------------------------------------------------------------
  // Skipping

  /** The first position from `i` on at which `c` stands, or the end. */
  function Find(s: string, i: nat, c: char): (r: nat)
    requires i <= |s|
    ensures i <= r <= |s|
    ensures r < |s| ==> s[r] == c
    ensures forall k :: i <= k < r ==> s[k] != c
    decreases |s| - i
  {
    if i >= |s| || s[i] == c then i else Find(s, i + 1, c)
  }

  /** `for i < len(payload) && payload[i] != c { i++ }` */
  method FindLoop(s: string, i: nat, c: char) returns (r: nat)
    requires i <= |s|
    ensures r == Find(s, i, c)
  {
    r := i;
    while r < |s| && s[r] != c
      invariant i <= r <= |s| && Find(s, i, c) == Find(s, r, c)
    {
      r := r + 1;
    }
  }

  function SpacesEnd(s: string, i: nat): (r: nat)
    requires i <= |s|
    ensures i <= r <= |s|
    ensures r < |s| ==> !IsSpace(s[r])
    ensures forall k :: i <= k < r ==> IsSpace(s[k])
    decreases |s| - i
  {
    if i >= |s| || !IsSpace(s[i]) then i else SpacesEnd(s, i + 1)
  }

  /** `skipSpaces` */
  method SkipSpaces(s: string, i: nat) returns (r: nat)
    requires i <= |s|
    ensures r == SpacesEnd(s, i)
  {
    r := i;
    while r < |s| && IsSpace(s[r])
      invariant i <= r <= |s| && SpacesEnd(s, i) == SpacesEnd(s, r)
    {
      r := r + 1;
    }
  }

  /** The position of the value behind `key`: past the first colon after the
      first occurrence of the key, and past spaces.  None if there is no key or
      no colon; the position may be the end of the payload. */
  function ValueStart(s: string, key: string): (r: Option<nat>)
    ensures r.Some? ==> r.value <= |s|
  {
    var p := IndexFrom(s, key, 0);
    if key == "" || p < 0 then None
    else
      var colon := Find(s, p + |key|, ':');
      if colon >= |s| then None else Some(SpacesEnd(s, colon + 1))
  }

  method FindValue(s: string, key: string) returns (r: Option<nat>)
    ensures r == ValueStart(s, key)
  {
    var p := IndexOfFrom(s, key, 0);
    if p < 0 { return None; }
    var i := FindLoop(s, p + |key|, ':');
    if i >= |s| { return None; }
    i := SkipSpaces(s, i + 1);
    return Some(i);
  }

  /** `ScanStringField` and the BTCC `scanStringField`: the text between the
      quotes of the value, without regard to escapes. */
  function StringField(s: string, key: string): Option<string> {
    match ValueStart(s, key)
    case None => None
    case Some(i) =>
      if i >= |s| || s[i] != '"' then None
      else
        var end := Find(s, i + 1, '"');
        if end >= |s| then None else Some(s[i + 1..end])
  }

  method ScanStringField(s: string, key: string) returns (r: Option<string>)
    ensures r == StringField(s, key)
  {
    var v := FindValue(s, key);
    if v.None? { return None; }
    var i := v.value;
    if i >= |s| || s[i] != '"' { return None; }
    i := i + 1;
    var start := i;
    i := FindLoop(s, i, '"');
    if i >= |s| { return None; }
    return Some(s[start..i]);
  }

  // ---------------------------------------------------------------------
  // Numbers

  const TWO64: nat := 0x1_0000_0000_0000_0000

  function DigitValue(c: char): (d: nat)
    requires IsDigit(c)
    ensures d <= 9
  {
    c as int - '0' as int
  }

  predicate AllDigits(s: string) {
    forall k :: 0 <= k < |s| ==> IsDigit(s[k])
  }

  /** The number a string of decimal digits denotes. */
  function DecimalValue(s: string): nat
    requires AllDigits(s)
  {
    if s == "" then 0 else DecimalValue(s[..|s| - 1]) * 10 + DigitValue(s[|s| - 1])
  }

  function DigitsEnd(s: string, i: nat): (r: nat)
    requires i <= |s|
    ensures i <= r <= |s|
    ensures r < |s| ==> !IsDigit(s[r])
    ensures AllDigits(s[i..r])
    decreases |s| - i
  {
    if i >= |s| || !IsDigit(s[i]) then i
    else
      var r := DigitsEnd(s, i + 1);
      assert forall k :: 0 < k < r - i ==> s[i..r][k] == s[i + 1..r][k - 1];
      r
  }

  /** `ScanUintField`: the digits behind the key, modulo 2^64. */
  function UintField(s: string, key: string): Option<nat> {
    match ValueStart(s, key)
    case None => None
    case Some(i) =>
      if i >= |s| || !IsDigit(s[i]) then None
      else Some(DecimalValue(s[i..DigitsEnd(s, i)]) % TWO64)
  }

  lemma DigitsEndUnique(s: string, i: nat, r: nat)
    requires i <= r <= |s| && (forall k :: i <= k < r ==> IsDigit(s[k])) && (r < |s| ==> !IsDigit(s[r]))
    ensures DigitsEnd(s, i) == r
    decreases r - i
  {
    if i < r { DigitsEndUnique(s, i + 1, r); }
  }

  lemma DecimalSnoc(s: string, c: char)
    requires AllDigits(s) && IsDigit(c)
    ensures AllDigits(s + [c]) && DecimalValue(s + [c]) == DecimalValue(s) * 10 + DigitValue(c)
  {
    assert (s + [c])[..|s|] == s;
  }

  lemma ModStep(a: nat, b: nat, d: nat)
    requires b == a % TWO64
    ensures (b * 10 + d) % TWO64 == (a * 10 + d) % TWO64
  {
    var q := a / TWO64;
    assert a * 10 + d == b * 10 + d + (10 * q) * TWO64;
  }

  method ScanUintField(s: string, key: string) returns (r: Option<nat>)
    ensures r == UintField(s, key)
  {
    var f := FindValue(s, key);
    if f.None? { return None; }
    var i := f.value;
    if i >= |s| || s[i] < '0' || s[i] > '9' { return None; }
    var start := i;
    var v: nat := 0;
    while i < |s| && '0' <= s[i] <= '9'
      invariant start <= i <= |s| && AllDigits(s[start..i])
      invariant v == DecimalValue(s[start..i]) % TWO64
    {
      assert s[start..i + 1] == s[start..i] + [s[i]];
      DecimalSnoc(s[start..i], s[i]);
      ModStep(DecimalValue(s[start..i]), v, DigitValue(s[i]));
      v := (v * 10 + DigitValue(s[i])) % TWO64;
      i := i + 1;
    }
    assert forall k :: start <= k < i ==> s[k] == s[start..i][k - start];
    DigitsEndUnique(s, start, i);
    return Some(v);
  }
}
