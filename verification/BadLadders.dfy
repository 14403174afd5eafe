/** Ladders that break off or hold something else than rows. */
module BadLadders {
  import opened Types
  import opened Scan
  import opened DepthLadder
  import Params

  /** The quotes from `i` on. */
  function Quotes(s: string, i: nat): nat
    decreases |s| - i
  {
    if i >= |s| then 0 else (if s[i] == '"' then 1 else 0) + Quotes(s, i + 1)
  }

  lemma {:induction false} QuotesTo(s: string, i: nat, j: nat)
    requires i <= j <= |s| && forall k :: i <= k < j ==> s[k] != '"'
    ensures Quotes(s, i) == Quotes(s, j)
    decreases j - i
  {
    if i < j { QuotesTo(s, i + 1, j); }
  }

  /** A string takes two quotes, and is there when there are two. */
  lemma StringTakesTwo(s: string, i: nat)
    requires i <= |s|
    ensures NextString(s, i).None? <==> Quotes(s, i) < 2
    ensures NextString(s, i).Some? ==> Quotes(s, NextString(s, i).value.next) == Quotes(s, i) - 2
  {
    var open := Find(s, i, '"');
    QuotesTo(s, i, open);
    if open < |s| { QuotesTo(s, open + 1, Find(s, open + 1, '"')); }
  }

  lemma RowTakesFour(s: string, i: nat)
    requires i <= |s|
    ensures ReadRow(s, i).None? <==> Quotes(s, i) < 4
  {
    StringTakesTwo(s, i);
    if NextString(s, i).Some? { StringTakesTwo(s, NextString(s, i).value.next); }
  }

  lemma TurnFails(s: string, i: nat, j: nat)
    requires i < |s| && i <= j < |s| && Params.SeparatorsEnd(s, i) == j && s[j] == '[' && Quotes(s, j + 1) < 4
    ensures TurnAt(s, i) == Fail
  {
    RowTakesFour(s, j + 1);
  }

  lemma TurnPasses(s: string, i: nat, j: nat)
    requires i < |s| && i <= j < |s| && Params.SeparatorsEnd(s, i) == j && s[j] != '[' && s[j] != ']'
    ensures TurnAt(s, i) == Pass(j + 1)
  {
  }

  lemma RowsFail(parse: RowParser, s: string, i: nat, done: seq<Row>, max: nat)
    requires i < |s| && |done| < max && TurnAt(s, i) == Fail
    ensures RowsFrom(parse, s, i, done, max) == Ladder(done, false)
  {
  }

  lemma RowsPass(parse: RowParser, s: string, i: nat, next: nat, done: seq<Row>, max: nat)
    requires i < |s| && |done| < max && TurnAt(s, i) == Pass(next)
    ensures RowsFrom(parse, s, i, done, max) == RowsFrom(parse, s, next, done, max)
  {
  }

  /** A row with fewer than four quotes behind its bracket, whatever follows, ends
      the scan with the rows before it and a failure. */
  lemma BrokenRowFails(parse: RowParser, s: string, i: nat, lead: string, done: seq<Row>, max: nat)
    requires Params.Separators(lead) && At(s, lead, i) && i + |lead| < |s| && s[i + |lead|] == '['
    requires Quotes(s, i + |lead| + 1) < 4 && |done| < max
    ensures RowsFrom(parse, s, i, done, max) == Ladder(done, false)
  {
    Params.OverSeparators(s, i, lead);
    TurnFails(s, i, i + |lead|);
    RowsFail(parse, s, i, done, max);
  }

  /** A row with no bracket behind it is the last. */
  lemma OpenRowIsLast(parse: RowParser, s: string, i: nat, done: seq<Row>, max: nat)
    requires i < |s| && s[i] == '[' && Quotes(s, i + 1) >= 4 && |done| < max
    requires forall k :: i <= k < |s| ==> s[k] != ']'
    ensures ReadRow(s, i + 1).Some?
    ensures var p := ReadRow(s, i + 1).value.pair;
            RowsFrom(parse, s, i, done, max)
            == match parse(p.price, p.quantity)
               case None => Ladder(done, false)
               case Some(row) => Ladder(done + [row], true)
  {
    RowTakesFour(s, i + 1);
    var read := ReadRow(s, i + 1).value;
    assert read.next == |s|;
    assert Params.SeparatorsEnd(s, i) == i;
    TurnIs(s, i, i, read);
    RowsTake(parse, s, i, done, max, parse(read.pair.price, read.pair.quantity));
  }

  /** What is neither bracket is passed over. */
  lemma JunkIsPassed(parse: RowParser, s: string, i: nat, lead: string, done: seq<Row>, max: nat)
    requires Params.Separators(lead) && At(s, lead, i) && i + |lead| < |s| && |done| < max
    requires var c := s[i + |lead|]; c != '[' && c != ']' && c != ',' && !IsSpace(c)
    ensures RowsFrom(parse, s, i, done, max) == RowsFrom(parse, s, i + |lead| + 1, done, max)
  {
    Params.OverSeparators(s, i, lead);
    TurnPasses(s, i, i + |lead|);
    RowsPass(parse, s, i, i + |lead| + 1, done, max);
  }

  /** A list that the payload breaks off between rows ends well. */
  lemma OpenListEnds(parse: RowParser, s: string, i: nat, lead: string, done: seq<Row>, max: nat)
    requires Params.Separators(lead) && At(s, lead, i) && i + |lead| == |s| && |done| < max
    ensures RowsFrom(parse, s, i, done, max) == Ladder(done, true)
  {
    if i < |s| { Params.OverSeparators(s, i, lead); }
  }

  /** Without a list behind the first occurrence of the key there is no ladder. */
  lemma NoListNoLadder(parse: RowParser, s: string, key: string, n: nat)
    ensures var v := ValueStart(s, key);
            v.None? || v.value == |s| || s[v.value] != '[' ==> DepthSide(parse, s, key, n) == Ladder([], false)
  {
  }
}
