/** The valuation of one user's holdings: the per-row loop of the portfolio
    command, which prices each row, accumulates the total and the parallel
    symbol / value lists of the pie chart, and degrades a row whose price
    cannot be obtained to a "price unavailable" line. */
module Valuation {
  import opened Ledger

  datatype Option<T> = None | Some(value: T)

  /** A price source: the closing price of a ticker, or None when looking it
      up raises (no history, network failure, unknown symbol, ...). */
  type Quote = string -> Option<real>

  /** One row returned by SELECT symbol, shares FROM portfolio WHERE user_id = $1. */
  datatype Row = Row(symbol: string, shares: real)

  /** One line of the reply: priced, or flagged "price unavailable". */
  datatype Line =
    | Priced(row: Row, price: real, value: real)
    | Unavailable(row: Row)

  /** The outcome of the portfolio command. */
  datatype Report =
    | EmptyPortfolio
    | Valued(total: real, symbols: seq<string>, values: seq<real>, lines: seq<Line>)

  /** The line printed for `row`. */
  function LineOf(row: Row, quote: Quote): (l: Line)
    ensures l.row == row
    ensures l.Priced? <==> quote(row.symbol).Some?
    ensures l.Priced? ==> l.price == quote(row.symbol).value && l.value == row.shares * l.price
  {
    match quote(row.symbol)
    case Some(price) => Priced(row, price, row.shares * price)
    case None => Unavailable(row)
  }

  /** The priced lines, in the order of `lines`. */
  function PricedLines(lines: seq<Line>): (p: seq<Line>)
    ensures |p| <= |lines|
    ensures forall j :: 0 <= j < |p| ==> p[j].Priced?
    decreases |lines|
  {
    if lines == [] then []
    else
      var init := PricedLines(lines[..|lines| - 1]);
      var last := lines[|lines| - 1];
      if last.Priced? then init + [last] else init
  }

  /** The labels of the pie chart. */
  function SymbolsOf(lines: seq<Line>): (s: seq<string>)
    ensures |s| == |lines|
    ensures forall j :: 0 <= j < |lines| ==> s[j] == lines[j].row.symbol
  {
    seq(|lines|, j requires 0 <= j < |lines| => lines[j].row.symbol)
  }

  /** The slice sizes of the pie chart. */
  function ValuesOf(lines: seq<Line>): (v: seq<real>)
    requires forall j :: 0 <= j < |lines| ==> lines[j].Priced?
    ensures |v| == |lines|
    ensures forall j :: 0 <= j < |lines| ==> v[j] == lines[j].value
  {
    seq(|lines|, j requires 0 <= j < |lines| => lines[j].value)
  }

  function Sum(xs: seq<real>): real
    decreases |xs|
  {
    if xs == [] then 0.0 else Sum(xs[..|xs| - 1]) + xs[|xs| - 1]
  }

  /** What a line adds to the total: its value, or nothing when unpriced. */
  function Contribution(l: Line): real
  {
    if l.Priced? then l.value else 0.0
  }

  /** The total of a report, line by line. */
  function TotalOf(lines: seq<Line>): real
    decreases |lines|
  {
    if lines == [] then 0.0 else TotalOf(lines[..|lines| - 1]) + Contribution(lines[|lines| - 1])
  }

  /** The chart lists are drawn from exactly the priced lines. */
  lemma {:induction false} PricedLinesMembers(lines: seq<Line>)
    ensures forall l :: l in PricedLines(lines) <==> l in lines && l.Priced?
    decreases |lines|
  {
    if lines != [] {
      var init := lines[..|lines| - 1];
      PricedLinesMembers(init);
      assert lines == init + [lines[|lines| - 1]];
    }
  }

  /** Filtering the priced lines keeps their relative order: it distributes
      over concatenation. */
  lemma {:induction false} PricedLinesAppend(a: seq<Line>, b: seq<Line>)
    ensures PricedLines(a + b) == PricedLines(a) + PricedLines(b)
    decreases |b|
  {
    if b == [] {
      assert a + b == a;
    } else {
      var b' := b[..|b| - 1];
      assert (a + b)[..|a + b| - 1] == a + b';
      assert (a + b)[|a + b| - 1] == b[|b| - 1];
      PricedLinesAppend(a, b');
    }
  }

  /** The total counts exactly the priced lines: it is the sum of the values
      of the pie chart, and unavailable lines add nothing. */
  lemma {:induction false} TotalIsSumOfPricedValues(lines: seq<Line>)
    ensures TotalOf(lines) == Sum(ValuesOf(PricedLines(lines)))
    decreases |lines|
  {
    if lines != [] {
      var init := lines[..|lines| - 1];
      var last := lines[|lines| - 1];
      TotalIsSumOfPricedValues(init);
      if last.Priced? {
        var v := ValuesOf(PricedLines(lines));
        assert v[..|v| - 1] == ValuesOf(PricedLines(init));
      }
    }
  }

  /** A report whose lines are all unavailable has total zero and an empty
      chart. */
  lemma {:induction false} AllUnavailableTotalsZero(lines: seq<Line>)
    requires forall i :: 0 <= i < |lines| ==> lines[i].Unavailable?
    ensures PricedLines(lines) == [] && TotalOf(lines) == 0.0
    decreases |lines|
  {
    if lines != [] {
      AllUnavailableTotalsZero(lines[..|lines| - 1]);
    }
  }

  /** Appending one line extends the chart lists and the total by that line
      alone. */
  lemma AppendLine(lines: seq<Line>, line: Line)
    ensures PricedLines(lines + [line]) ==
      PricedLines(lines) + (if line.Priced? then [line] else [])
    ensures line.Priced? ==>
      && SymbolsOf(PricedLines(lines + [line])) == SymbolsOf(PricedLines(lines)) + [line.row.symbol]
      && ValuesOf(PricedLines(lines + [line])) == ValuesOf(PricedLines(lines)) + [line.value]
    ensures TotalOf(lines + [line]) == TotalOf(lines) + Contribution(line)
  {
    assert (lines + [line])[..|lines|] == lines;
  }

  /** The per-row loop of the portfolio command: one line per row in row
      order, the chart lists hold the priced rows in row order, and the total
      is the sum of the priced values. */
  method Aggregate(rows: seq<Row>, quote: Quote)
    returns (total: real, symbols: seq<string>, values: seq<real>, lines: seq<Line>)
    ensures |lines| == |rows|
    ensures forall i :: 0 <= i < |rows| ==> lines[i] == LineOf(rows[i], quote)
    ensures symbols == SymbolsOf(PricedLines(lines))
    ensures values == ValuesOf(PricedLines(lines))
    ensures total == TotalOf(lines) == Sum(values)
  {
    total := 0.0;
    symbols := [];
    values := [];
    lines := [];
    for i := 0 to |rows|
      invariant |lines| == i
      invariant forall j :: 0 <= j < i ==> lines[j] == LineOf(rows[j], quote)
      invariant symbols == SymbolsOf(PricedLines(lines))
      invariant values == ValuesOf(PricedLines(lines))
      invariant total == TotalOf(lines)
    {
      var row := rows[i];
      var line;
      match quote(row.symbol) {
        case Some(price) =>
          var value := row.shares * price;
          total := total + value;
          symbols := symbols + [row.symbol];
          values := values + [value];
          line := Priced(row, price, value);
        case None =>
          line := Unavailable(row);
      }
      AppendLine(lines, line);
      lines := lines + [line];
    }
    TotalIsSumOfPricedValues(lines);
  }

  // ---------------------------------------------------------------------
  // Snapshots of the table

  /** The symbols of some rows, as a set. */
  function SymbolSet(rows: seq<Row>): (s: set<string>)
    ensures forall i :: 0 <= i < |rows| ==> rows[i].symbol in s
    ensures forall sym :: sym in s ==> exists i :: 0 <= i < |rows| && rows[i].symbol == sym
    decreases |rows|
  {
    if rows == [] then {}
    else
      var init := rows[..|rows| - 1];
      assert forall i :: 0 <= i < |init| ==> init[i] == rows[i];
      SymbolSet(init) + {rows[|rows| - 1].symbol}
  }

  /** No symbol occurs twice. */
  predicate DistinctSymbols(rows: seq<Row>)
  {
    forall i, j :: 0 <= i < j < |rows| ==> rows[i].symbol != rows[j].symbol
  }

  /** `rows` is what the SELECT returns for `user`: each of the user's rows
      exactly once, with its stored quantity, in some order. */
  predicate IsSnapshot(rows: seq<Row>, t: Table, user: UserId)
  {
    && (forall i :: 0 <= i < |rows| ==>
          (user, rows[i].symbol) in t && t[(user, rows[i].symbol)] == rows[i].shares)
    && DistinctSymbols(rows)
    && SymbolSet(rows) == HoldingsOf(t, user)
  }

  /** Distinct rows are as many as their symbols. */
  lemma {:induction false} DistinctSymbolSetSize(rows: seq<Row>)
    requires DistinctSymbols(rows)
    ensures |SymbolSet(rows)| == |rows|
    decreases |rows|
  {
    if rows != [] {
      var init := rows[..|rows| - 1];
      var last := rows[|rows| - 1];
      assert DistinctSymbols(init) by {
        assert forall i :: 0 <= i < |init| ==> init[i] == rows[i];
      }
      DistinctSymbolSetSize(init);
      assert last.symbol !in SymbolSet(init);
    }
  }

  /** A snapshot has one row per symbol the user holds. */
  lemma SnapshotSize(rows: seq<Row>, t: Table, user: UserId)
    requires IsSnapshot(rows, t, user)
    ensures |rows| == |HoldingsOf(t, user)|
    ensures rows == [] <==> HoldingsOf(t, user) == {}
  {
    DistinctSymbolSetSize(rows);
  }
}
