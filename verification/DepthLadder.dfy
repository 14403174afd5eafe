/** The price ladder of a depth update: `scanDepthSide` and `scanNextString` of
    bundle/internal/ingest/binance/payload.go. */
module DepthLadder {
  import opened Types
  import opened Scan
  import opened Decimals
  import DecimalText
  import Params

  datatype Row = Row(price: Decimal, quantity: Decimal)

  /** The rows read, and whether the scan ended well. */
  datatype Ladder = Ladder(rows: seq<Row>, ok: bool)

  /** A string's text and the position behind it. */
  datatype Text = Text(text: string, next: nat)

  /** `scanNextString`: what stands between the next two quotes. */
  function NextString(s: string, i: nat): (r: Option<Text>)
    requires i <= |s|
    ensures r.Some? ==> i < r.value.next <= |s|
  {
    var open := Find(s, i, '"');
    if open >= |s| then None
    else
      var close := Find(s, open + 1, '"');
      if close >= |s| then None else Some(Text(s[open + 1..close], close + 1))
  }

  method ScanNextString(s: string, i: nat) returns (r: Option<Text>)
    requires i <= |s|
    ensures r == NextString(s, i)
  {
    var j := FindLoop(s, i, '"');
    if j >= |s| { return None; }
    j := j + 1;
    var start := j;
    j := FindLoop(s, j, '"');
    if j >= |s| { return None; }
    return Some(Text(s[start..j], j + 1));
  }

  /** The texts of a row: `["price","quantity"]`. */
  datatype Pair = Pair(price: string, quantity: string)

  datatype RowRead = RowRead(pair: Pair, next: nat)

  /** The two strings of a row, behind its bracket, and the position behind the
      next closing bracket. */
  function ReadRow(s: string, i: nat): (r: Option<RowRead>)
    requires i <= |s|
    ensures r.Some? ==> i < r.value.next <= |s|
  {
    match NextString(s, i)
    case None => None
    case Some(price) =>
      match NextString(s, price.next)
      case None => None
      case Some(quantity) =>
        var end := Find(s, quantity.next, ']');
        Some(RowRead(Pair(price.text, quantity.text), if end < |s| then end + 1 else end))
  }

  method ScanRow(s: string, i: nat) returns (r: Option<RowRead>)
    requires i <= |s|
    ensures r == ReadRow(s, i)
  {
    var price := ScanNextString(s, i);
    if price.None? { return None; }
    var quantity := ScanNextString(s, price.value.next);
    if quantity.None? { return None; }
    var end := FindLoop(s, quantity.value.next, ']');
    if end < |s| { end := end + 1; }
    return Some(RowRead(Pair(price.value.text, quantity.value.text), end));
  }

  /** One round of the loop of `scanDepthSide`: the list is over, a byte is
      passed over, the texts of a row are taken, or there are none. */
  datatype Turn = Over | Pass(next: nat) | Pick(pair: Pair, next: nat) | Fail

  function TurnAt(s: string, i: nat): (t: Turn)
    requires i < |s|
    ensures t.Pass? || t.Pick? ==> i < t.next <= |s|
  {
    TurnBehind(s, Params.SeparatorsEnd(s, i))
  }

  /** The same, behind spaces and commas. */
  function TurnBehind(s: string, j: nat): (t: Turn)
    requires j <= |s|
    ensures t.Pass? || t.Pick? ==> j < t.next <= |s|
  {
    if j >= |s| || s[j] == ']' then Over
    else if s[j] != '[' then Pass(j + 1)
    else match ReadRow(s, j + 1)
      case None => Fail
      case Some(read) => Pick(read.pair, read.next)
  }

  method ScanTurn(s: string, from: nat) returns (t: Turn)
    requires from < |s|
    ensures t == TurnAt(s, from)
  {
    var i := Params.SkipSeparators(s, from);
    t := ScanBehind(s, i);
  }

  method ScanBehind(s: string, i: nat) returns (t: Turn)
    requires i <= |s|
    ensures t == TurnBehind(s, i)
  {
    if i >= |s| || s[i] == ']' { return Over; }
    if s[i] != '[' { return Pass(i + 1); }
    var row := ScanRow(s, i + 1);
    return if row.None? then Fail else Pick(row.value.pair, row.value.next);
  }

  /** Reading rows does not depend on how their texts are parsed. */
  type RowParser = (string, string) -> Option<Row>

  function ParseRow(price: string, quantity: string): Option<Row> {
    match Parse(price)
    case None => None
    case Some(p) =>
      match Parse(quantity)
      case None => None
      case Some(q) => Some(Row(p, q))
  }

  method ParseRowTexts(price: string, quantity: string) returns (r: Option<Row>)
    ensures r == ParseRow(price, quantity)
  {
    var p := ParseDecimal(price);
    if p.None? { return None; }
    var q := ParseDecimal(quantity);
    if q.None? { return None; }
    return Some(Row(p.value, q.value));
  }

  /** The loop of `scanDepthSide`, with `done` read and room for `max` rows. */
  function RowsFrom(parse: RowParser, s: string, i: nat, done: seq<Row>, max: nat): (r: Ladder)
    requires i <= |s| && |done| <= max
    ensures |r.rows| <= max
    decreases |s| - i
  {
    if i >= |s| || |done| == max then Ladder(done, true)
    else match TurnAt(s, i)
      case Over => Ladder(done, true)
      case Pass(next) => RowsFrom(parse, s, next, done, max)
      case Fail => Ladder(done, false)
      case Pick(pair, next) =>
        match parse(pair.price, pair.quantity)
        case None => Ladder(done, false)
        case Some(row) => RowsFrom(parse, s, next, done + [row], max)
  }

  /** `scanDepthSide` */
  function DepthSide(parse: RowParser, s: string, key: string, n: nat): (r: Ladder)
    ensures |r.rows| <= n
  {
    SideAt(parse, s, ValueStart(s, key), n)
  }

  /** The same, with the place of the value. */
  function SideAt(parse: RowParser, s: string, v: Option<nat>, n: nat): (r: Ladder)
    requires v.Some? ==> v.value <= |s|
    ensures |r.rows| <= n
  {
    if v.None? || v.value >= |s| || s[v.value] != '[' then Ladder([], false)
    else RowsFrom(parse, s, v.value + 1, [], n)
  }

  lemma RowsTake(parse: RowParser, s: string, i: nat, done: seq<Row>, max: nat, row: Option<Row>)
    requires i < |s| && |done| < max && TurnAt(s, i).Pick?
    requires row == parse(TurnAt(s, i).pair.price, TurnAt(s, i).pair.quantity)
    ensures RowsFrom(parse, s, i, done, max)
         == if row.None? then Ladder(done, false) else RowsFrom(parse, s, TurnAt(s, i).next, done + [row.value], max)
  {
  }

  /** A name for `ParseRow`. */
  ghost predicate Parses(parse: RowParser) {
    forall p, q {:trigger ParseRow(p, q)} :: parse(p, q) == ParseRow(p, q)
  }

  /** The rows go into the array from the front; what lies behind them stays. */
  method ScanRows(ghost parse: RowParser, s: string, start: nat, rows: array<Row>) returns (count: nat, ok: bool)
    requires start <= |s| && Parses(parse)
    modifies rows
    ensures count <= rows.Length && Ladder(rows[..count], ok) == RowsFrom(parse, s, start, [], rows.Length)
    ensures rows[count..] == old(rows[..])[count..]
  {
    var i := start;
    count := 0;
    ghost var done := [];
    while i < |s| && count < rows.Length
      invariant i <= |s| && count == |done| <= rows.Length
      invariant rows[..count] == done && rows[count..] == old(rows[..])[count..]
      invariant RowsFrom(parse, s, start, [], rows.Length) == RowsFrom(parse, s, i, done, rows.Length)
      decreases |s| - i
    {
      var turn := ScanTurn(s, i);
      match turn {
        case Over => return count, true;
        case Fail => return count, false;
        case Pass(next) => i := next;
        case Pick(pair, next) =>
          var row := ParseRowTexts(pair.price, pair.quantity);
          RowsTake(parse, s, i, done, rows.Length, row);
          if row.None? { return count, false; }
          StoreRow(rows, count, row.value);
          done := done + [row.value];
          count := count + 1;
          i := next;
      }
    }
    return count, true;
  }

  method StoreRow(rows: array<Row>, at: nat, row: Row)
    requires at < rows.Length
    modifies rows
    ensures rows[..at + 1] == old(rows[..at]) + [row] && rows[at + 1..] == old(rows[at..])[1..]
  {
    rows[at] := row;
  }

  /** `scanDepthSide` */
  method ScanDepthSide(s: string, key: string, rows: array<Row>) returns (count: nat, ok: bool)
    modifies rows
    ensures count <= rows.Length && Ladder(rows[..count], ok) == DepthSide(ParseRow, s, key, rows.Length)
    ensures rows[count..] == old(rows[..])[count..]
  {
    var v := FindValue(s, key);
    count, ok := ScanSide(ParseRow, s, v, rows);
  }

  method ScanSide(ghost parse: RowParser, s: string, v: Option<nat>, rows: array<Row>) returns (count: nat, ok: bool)
    requires (v.Some? ==> v.value <= |s|) && Parses(parse)
    modifies rows
    ensures count <= rows.Length && Ladder(rows[..count], ok) == SideAt(parse, s, v, rows.Length)
    ensures rows[count..] == old(rows[..])[count..]
  {
    if v.None? || v.value >= |s| || s[v.value] != '[' { return 0, false; }
    count, ok := ScanRows(parse, s, v.value + 1, rows);
    SideIs(parse, s, v.value, rows.Length, Ladder(rows[..count], ok));
  }

  lemma SideIs(parse: RowParser, s: string, i: nat, n: nat, rows: Ladder)
    requires i < |s| && s[i] == '[' && RowsFrom(parse, s, i + 1, [], n) == rows
    ensures SideAt(parse, s, Some(i), n) == rows
  {
  }

  // ---------------------------------------------------------------------
  // Ladders as an exchange sends them

  function PairText(p: Pair): string {
    "[\"" + (p.price + SecondPiece(p.quantity))
  }

  function SecondPiece(quantity: string): string {
    "\",\"" + (quantity + "\"]")
  }

  function PairsText(ps: seq<Pair>): string {
    if ps == [] then "" else PairText(ps[0]) + (Comma(ps) + PairsText(ps[1..]))
  }

  function Comma(ps: seq<Pair>): string {
    if |ps| > 1 then "," else ""
  }

  function LadderText(ps: seq<Pair>): string {
    "[" + (PairsText(ps) + "]")
  }

  /** What the texts amount to: the rows up to the first that is no decimal, at
      most `max`. */
  function ParsedRows(parse: RowParser, ps: seq<Pair>, done: seq<Row>, max: nat): Ladder
    decreases |ps|
  {
    if ps == [] || |done| >= max then Ladder(done, true)
    else match parse(ps[0].price, ps[0].quantity)
      case None => Ladder(done, false)
      case Some(row) => ParsedRows(parse, ps[1..], done + [row], max)
  }

  predicate Unquoted(t: string) {
    forall k :: 0 <= k < |t| ==> t[k] != '"'
  }

  predicate UnquotedPairs(ps: seq<Pair>) {
    forall k :: 0 <= k < |ps| ==> Unquoted(ps[k].price) && Unquoted(ps[k].quantity)
  }

  lemma QuotePlaces(s: string, i: nat, text: string)
    requires At(s, text, i) && i + |text| < |s| && s[i + |text|] == '"' && Unquoted(text)
    ensures Find(s, i, '"') == i + |text|
  {
    forall k | i <= k < i + |text| ensures s[k] != '"' { AtChar(s, text, i, k - i); }
    Params.FindUnique(s, i, i + |text|, '"');
  }

  /** Where the pieces of a row stand. */
  lemma RowPlaces(s: string, i: nat, p: Pair, tail: string)
    requires At(s, PairText(p) + tail, i)
    ensures var a, b := i + 2, i + 5 + |p.price|;
            && At(s, p.price, a) && At(s, p.quantity, b) && b + |p.quantity| + 1 < |s|
            && s[i] == '[' && s[i + 1] == '"' && s[a + |p.price|] == '"' && s[b - 2] == ',' && s[b - 1] == '"'
            && s[b + |p.quantity|] == '"' && s[b + |p.quantity| + 1] == ']'
            && At(s, tail, b + |p.quantity| + 2) && |PairText(p)| == 7 + |p.price| + |p.quantity|
  {
    AtSplit(s, PairText(p), tail, i);
    AtSplit(s, "[\"", p.price + SecondPiece(p.quantity), i);
    AtSplit(s, p.price, SecondPiece(p.quantity), i + 2);
    SecondPlaces(s, i + 2 + |p.price|, p.quantity);
    AtChar(s, "[\"", i, 0);
    AtChar(s, "[\"", i, 1);
  }

  lemma SecondPlaces(s: string, i: nat, quantity: string)
    requires At(s, SecondPiece(quantity), i)
    ensures var b := i + 3;
            && At(s, quantity, b) && b + |quantity| + 1 < |s|
            && s[i] == '"' && s[i + 1] == ',' && s[i + 2] == '"' && s[b + |quantity|] == '"' && s[b + |quantity| + 1] == ']'
  {
    AtSplit(s, "\",\"", quantity + "\"]", i);
    AtSplit(s, quantity, "\"]", i + 3);
    AtChar(s, "\",\"", i, 0);
    AtChar(s, "\",\"", i, 1);
    AtChar(s, "\",\"", i, 2);
    AtChar(s, "\"]", i + 3 + |quantity|, 0);
    AtChar(s, "\"]", i + 3 + |quantity|, 1);
  }

  lemma StringAt(s: string, i: nat, open: nat, text: string)
    requires i <= open < |s| && s[open] == '"' && forall k :: i <= k < open ==> s[k] != '"'
    requires At(s, text, open + 1) && Unquoted(text) && open + 1 + |text| < |s| && s[open + 1 + |text|] == '"'
    ensures NextString(s, i) == Some(Text(text, open + |text| + 2))
  {
    Params.FindUnique(s, i, open, '"');
    QuotePlaces(s, open + 1, text);
  }

  lemma ReadRowIs(s: string, i: nat, price: Text, quantity: Text)
    requires i <= |s| && NextString(s, i) == Some(price) && NextString(s, price.next) == Some(quantity)
    requires quantity.next < |s| && s[quantity.next] == ']'
    ensures ReadRow(s, i) == Some(RowRead(Pair(price.text, quantity.text), quantity.next + 1))
  {
    Params.FindUnique(s, quantity.next, quantity.next, ']');
  }

  lemma RowStrings(s: string, i: nat, p: Pair, tail: string) returns (middle: nat, close: nat)
    requires At(s, PairText(p) + tail, i) && Unquoted(p.price) && Unquoted(p.quantity)
    ensures i < |s| && s[i] == '[' && close < |s| && s[close] == ']'
    ensures close + 1 == i + |PairText(p)| && At(s, tail, close + 1)
    ensures i < middle <= |s| && NextString(s, i + 1) == Some(Text(p.price, middle))
    ensures NextString(s, middle) == Some(Text(p.quantity, close))
  {
    RowPlaces(s, i, p, tail);
    middle := FirstString(s, i + 1, p.price);
    close := SecondString(s, middle, p.quantity);
  }

  lemma FirstString(s: string, i: nat, price: string) returns (middle: nat)
    requires i < |s| && s[i] == '"' && Unquoted(price)
    requires At(s, price, i + 1) && i + 1 + |price| < |s| && s[i + 1 + |price|] == '"'
    ensures middle == i + 2 + |price| && NextString(s, i) == Some(Text(price, middle))
  {
    middle := i + 2 + |price|;
    StringAt(s, i, i, price);
  }

  lemma SecondString(s: string, middle: nat, quantity: string) returns (close: nat)
    requires middle + 1 < |s| && s[middle] == ',' && s[middle + 1] == '"' && Unquoted(quantity)
    requires At(s, quantity, middle + 2) && middle + 2 + |quantity| < |s| && s[middle + 2 + |quantity|] == '"'
    ensures close == middle + 3 + |quantity| && NextString(s, middle) == Some(Text(quantity, close))
  {
    close := middle + 3 + |quantity|;
    StringAt(s, middle, middle + 1, quantity);
  }

  /** A row is read up to behind its bracket. */
  lemma RowReadBack(s: string, i: nat, p: Pair, tail: string) returns (end: nat)
    requires At(s, PairText(p) + tail, i) && Unquoted(p.price) && Unquoted(p.quantity)
    ensures i < end <= |s| && end == i + |PairText(p)| && At(s, tail, end)
    ensures s[i] == '[' && ReadRow(s, i + 1) == Some(RowRead(p, end))
  {
    var middle, close := RowStrings(s, i, p, tail);
    ReadRowIs(s, i + 1, Text(p.price, middle), Text(p.quantity, close));
    end := close + 1;
  }

  lemma TurnIs(s: string, i: nat, j: nat, read: RowRead)
    requires i <= j < |s| && Params.SeparatorsEnd(s, i) == j && s[j] == '[' && ReadRow(s, j + 1) == Some(read)
    ensures TurnAt(s, i) == Pick(read.pair, read.next)
  {
  }

  lemma TakeRow(s: string, i: nat, lead: string, p: Pair, tail: string) returns (end: nat)
    requires At(s, lead, i) && At(s, PairText(p) + tail, i + |lead|) && Unquoted(p.price) && Unquoted(p.quantity)
    requires lead == "" || lead == ","
    ensures i < end <= |s| && At(s, tail, end) && TurnAt(s, i) == Pick(p, end)
  {
    end := RowReadBack(s, i + |lead|, p, tail);
    LeadEnds(s, i, lead);
    TurnIs(s, i, i + |lead|, RowRead(p, end));
  }

  lemma LeadEnds(s: string, i: nat, lead: string)
    requires At(s, lead, i) && (lead == "" || lead == ",")
    requires i + |lead| < |s| && (s[i + |lead|] == '[' || s[i + |lead|] == ']')
    ensures Params.SeparatorsEnd(s, i) == i + |lead|
  {
    if lead == "," { AtChar(s, ",", i, 0); }
    assert Params.SeparatorsEnd(s, i + |lead|) == i + |lead|;
  }

  lemma ListEnds(s: string, i: nat)
    requires At(s, "]", i)
    ensures i < |s| && TurnAt(s, i) == Over
  {
    AtChar(s, "]", i, 0);
    LeadEnds(s, i, "");
  }

  lemma RowsPieces(lead: string, ps: seq<Pair>)
    requires ps != []
    ensures lead + (PairsText(ps) + "]") == lead + (PairText(ps[0]) + (Comma(ps) + (PairsText(ps[1..]) + "]")))
  {
    JoinPieces(PairText(ps[0]), Comma(ps), PairsText(ps[1..]));
  }

  lemma JoinPieces(a: string, b: string, c: string)
    ensures (a + (b + c)) + "]" == a + (b + (c + "]"))
  {
  }

  /** A comma or nothing in front of the rows still to come. */
  lemma {:induction false} RowsReadBack(parse: RowParser, s: string, i: nat, lead: string, ps: seq<Pair>, done: seq<Row>, max: nat)
    requires (lead == "" || (lead == "," && ps != [])) && UnquotedPairs(ps)
    requires At(s, lead + (PairsText(ps) + "]"), i) && |done| <= max
    ensures i <= |s| && RowsFrom(parse, s, i, done, max) == ParsedRows(parse, ps, done, max)
    decreases |ps|
  {
    if ps == [] {
      assert lead + (PairsText(ps) + "]") == "]";
      ListEnds(s, i);
    } else if |done| < max {
      var next := FirstRow(s, i, lead, ps);
      match parse(ps[0].price, ps[0].quantity) {
        case None =>
        case Some(row) => RowsReadBack(parse, s, next, Comma(ps), ps[1..], done + [row], max);
      }
    }
  }

  lemma FirstRow(s: string, i: nat, lead: string, ps: seq<Pair>) returns (next: nat)
    requires (lead == "" || lead == ",") && ps != [] && UnquotedPairs(ps)
    requires At(s, lead + (PairsText(ps) + "]"), i)
    ensures i < next <= |s| && At(s, Comma(ps) + (PairsText(ps[1..]) + "]"), next)
    ensures TurnAt(s, i) == Pick(ps[0], next)
  {
    RowsPieces(lead, ps);
    var tail := Comma(ps) + (PairsText(ps[1..]) + "]");
    AtSplit(s, lead, PairText(ps[0]) + tail, i);
    next := TakeRow(s, i, lead, ps[0], tail);
  }

  /** The payload holds the ladder `ps` behind the first occurrence of `key`. */
  ghost predicate HasLadder(s: string, key: string, gap: string, space: string, ps: seq<Pair>) {
    && key != "" && IndexFrom(s, key, 0) >= 0
    && (forall k :: 0 <= k < |gap| ==> gap[k] != ':') && (forall k :: 0 <= k < |space| ==> IsSpace(space[k]))
    && At(s, gap + (":" + (space + LadderText(ps))), IndexFrom(s, key, 0) + |key|)
  }

  /** On a payload with a ladder, the scan yields exactly its rows in order, as
      many as there is room for, or up to the first that is no decimal. */
  lemma LadderExact(parse: RowParser, s: string, key: string, gap: string, space: string, ps: seq<Pair>, n: nat)
    requires HasLadder(s, key, gap, space, ps) && UnquotedPairs(ps)
    ensures DepthSide(parse, s, key, n) == ParsedRows(parse, ps, [], n)
  {
    Params.ValueStartExact(s, key, gap, space, LadderText(ps));
    LadderBehind(parse, s, ValueStart(s, key).value, ps, n);
  }

  lemma LadderBehind(parse: RowParser, s: string, i: nat, ps: seq<Pair>, n: nat)
    requires i <= |s| && At(s, LadderText(ps), i) && UnquotedPairs(ps)
    ensures SideAt(parse, s, Some(i), n) == ParsedRows(parse, ps, [], n)
  {
    LadderAt(parse, s, i, ps, n);
  }

  lemma LadderAt(parse: RowParser, s: string, i: nat, ps: seq<Pair>, n: nat)
    requires At(s, LadderText(ps), i) && UnquotedPairs(ps)
    ensures i < |s| && s[i] == '[' && RowsFrom(parse, s, i + 1, [], n) == ParsedRows(parse, ps, [], n)
  {
    AtSplit(s, "[", PairsText(ps) + "]", i);
    AtChar(s, "[", i, 0);
    assert "" + (PairsText(ps) + "]") == PairsText(ps) + "]";
    RowsReadBack(parse, s, i + 1, "", ps, [], n);
  }

  // ---------------------------------------------------------------------
  // Printed decimals

  function Printed(r: Row): Pair {
    Pair(DecimalText.Print(r.price), DecimalText.Print(r.quantity))
  }

  function PrintedRows(rows: seq<Row>): (ps: seq<Pair>)
    ensures |ps| == |rows| && forall k :: 0 <= k < |rows| ==> ps[k] == Printed(rows[k])
  {
    seq(|rows|, k requires 0 <= k < |rows| => Printed(rows[k]))
  }

  /** Decimals that come back from print. */
  predicate Readable(d: Decimal) {
    0 <= d.scale <= 18 && !(d.scale == 0 && d.integer == MIN)
  }

  predicate ReadableRows(rows: seq<Row>) {
    forall k :: 0 <= k < |rows| ==> Readable(rows[k].price) && Readable(rows[k].quantity)
  }

  lemma PrintUnquoted(d: Decimal)
    ensures Unquoted(DecimalText.Print(d))
  {
  }

  lemma PrintedRow(r: Row)
    requires Readable(r.price) && Readable(r.quantity)
    ensures ParseRow(DecimalText.Print(r.price), DecimalText.Print(r.quantity)) == Some(r)
  {
    DecimalText.PrintParse(r.price);
    DecimalText.PrintParse(r.quantity);
  }

  function Least(a: nat, b: nat): nat {
    if a < b then a else b
  }

  lemma {:induction false} AllParsed(parse: RowParser, ps: seq<Pair>, rows: seq<Row>, done: seq<Row>, max: nat)
    requires |ps| == |rows| && |done| <= max
    requires forall k :: 0 <= k < |ps| ==> parse(ps[k].price, ps[k].quantity) == Some(rows[k])
    ensures ParsedRows(parse, ps, done, max) == Ladder(done + rows[..Least(max - |done|, |rows|)], true)
    decreases |ps|
  {
    if rows == [] || |done| == max {
      assert done + rows[..0] == done;
    } else {
      AllParsed(parse, ps[1..], rows[1..], done + [rows[0]], max);
      OneMore(done, rows, Least(max - |done|, |rows|));
    }
  }

  lemma OneMore(done: seq<Row>, rows: seq<Row>, n: nat)
    requires 1 <= n <= |rows|
    ensures (done + [rows[0]]) + rows[1..][..n - 1] == done + rows[..n]
  {
  }

  /** A ladder of printed decimals comes back exactly: its first rows, as many as
      there is room for. */
  lemma LadderReadsBack(s: string, key: string, gap: string, space: string, rows: seq<Row>, n: nat)
    requires HasLadder(s, key, gap, space, PrintedRows(rows)) && ReadableRows(rows)
    ensures DepthSide(ParseRow, s, key, n) == Ladder(rows[..Least(n, |rows|)], true)
  {
    forall k | 0 <= k < |rows|
      ensures Unquoted(PrintedRows(rows)[k].price) && Unquoted(PrintedRows(rows)[k].quantity)
    {
      PrintUnquoted(rows[k].price);
      PrintUnquoted(rows[k].quantity);
    }
    LadderExact(ParseRow, s, key, gap, space, PrintedRows(rows), n);
    forall k | 0 <= k < |rows|
      ensures ParseRow(PrintedRows(rows)[k].price, PrintedRows(rows)[k].quantity) == Some(rows[k])
    {
      PrintedRow(rows[k]);
    }
    AllParsed(ParseRow, PrintedRows(rows), rows, [], n);
    assert [] + rows[..Least(n, |rows|)] == rows[..Least(n, |rows|)];
  }
}
