/** The Portfolio cog: the `portfolio` table it owns and the commands that
    change it (buy, sell, resetportfolio) or read it (portfolio). The table
    lives in the database; here it is a map field the methods reassign. */
module PortfolioCog {
  import opened Symbols
  import opened Ledger
  import opened Valuation

  /** The rows of a report, in order. */
  function RowsOf(lines: seq<Line>): (rows: seq<Row>)
    ensures |rows| == |lines|
    ensures forall i :: 0 <= i < |lines| ==> rows[i] == lines[i].row
  {
    seq(|lines|, i requires 0 <= i < |lines| => lines[i].row)
  }

  class Portfolio {
    /** The `portfolio` table, keyed by (user_id, symbol). */
    var table: Table

    /** Every stored symbol went through `upper()`. */
    ghost predicate Valid()
      reads this
    {
      AllNormalized(table)
    }

    /** The table starts empty. */
    constructor ()
      ensures Valid() && table == map[]
    {
      table := map[];
    }

    /** The buy command: upper-case the symbol, then upsert. */
    method Buy(user: UserId, symbol: string, amount: real)
      requires Valid()
      modifies this
      ensures Valid()
      ensures table == Bought(old(table), user, symbol, amount)
    {
      var key := (user, Upper(symbol));
      if key in table {
        table := table[key := table[key] + amount];
      } else {
        table := table[key := amount];
      }
    }

    /** The sell command: reject when the key is absent or holds too few
        shares; otherwise decrement the key, then delete every row of the
        table whose shares are <= 0. */
    method Sell(user: UserId, symbol: string, amount: real) returns (ok: bool)
      requires Valid()
      modifies this
      ensures Valid()
      ensures ok <==> SellOn(old(table), user, symbol, amount).Sold?
      ensures table == if ok then SellOn(old(table), user, symbol, amount).table else old(table)
    {
      var key := (user, Upper(symbol));
      if key !in table || table[key] < amount {
        return false;
      }
      table := table[key := table[key] - amount];
      table := Swept(table);
      ok := true;
    }

    /** The resetportfolio command: delete the user's rows. */
    method ResetPortfolio(user: UserId)
      requires Valid()
      modifies this
      ensures Valid()
      ensures table == Reset(old(table), user)
    {
      table := Reset(table, user);
    }

    /** SELECT symbol, shares FROM portfolio WHERE user_id = $1: the user's
        rows, each once, in an order the query leaves unspecified (each step
        takes any row not yet returned). */
    method Select(user: UserId) returns (rows: seq<Row>)
      ensures IsSnapshot(rows, table, user)
    {
      var pending := HoldingsOf(table, user);
      rows := [];
      while pending != {}
        invariant forall i :: 0 <= i < |rows| ==>
          (user, rows[i].symbol) in table && table[(user, rows[i].symbol)] == rows[i].shares
        invariant DistinctSymbols(rows)
        invariant SymbolSet(rows) !! pending
        invariant SymbolSet(rows) + pending == HoldingsOf(table, user)
        decreases pending
      {
        var sym :| sym in pending;
        var row := Row(sym, table[(user, sym)]);
        assert (rows + [row])[..|rows|] == rows;
        rows := rows + [row];
        pending := pending - {sym};
      }
    }

    /** The portfolio command: an empty portfolio is reported as such and
        priced no further; otherwise every row of the user gets exactly one
        line, priced when the quote succeeds, and the total and the chart
        lists cover the priced lines only. Since every stored symbol went
        through `upper()`, so does every chart label. */
    method Valuate(user: UserId, quote: Quote) returns (report: Report)
      requires Valid()
      ensures report.EmptyPortfolio? <==> HoldingsOf(table, user) == {}
      ensures report.Valued? ==>
        && IsSnapshot(RowsOf(report.lines), table, user)
        && |report.lines| == |HoldingsOf(table, user)|
        && (forall i :: 0 <= i < |report.lines| ==>
              report.lines[i] == LineOf(report.lines[i].row, quote))
        && report.symbols == SymbolsOf(PricedLines(report.lines))
        && report.values == ValuesOf(PricedLines(report.lines))
        && report.total == TotalOf(report.lines) == Sum(report.values)
        && (forall s :: s in report.symbols ==> IsNormalized(s))
    {
      var rows := Select(user);
      SnapshotSize(rows, table, user);
      if |rows| == 0 {
        return EmptyPortfolio;
      }
      var total, symbols, values, lines := Aggregate(rows, quote);
      assert RowsOf(lines) == rows;
      PricedLinesMembers(lines);
      forall s | s in symbols
        ensures IsNormalized(s)
      {
        var j :| 0 <= j < |symbols| && symbols[j] == s;
        var l := PricedLines(lines)[j];
        assert l in lines;
        var i :| 0 <= i < |lines| && lines[i] == l;
        assert (user, rows[i].symbol) in table;
      }
      report := Valued(total, symbols, values, lines);
    }
  }

  /** A session of commands by one user, and what each step leaves behind. */
  method Walkthrough(quote: Quote)
  {
    var p := new Portfolio();
    LowerAndUpperTickerAgree();
    p.Buy(1, "AAPL", 10.0);
    assert p.table == map[(1, "AAPL") := 10.0];
    var ok := p.Sell(1, "AAPL", 10.0);
    assert ok && p.table == map[];
    ok := p.Sell(1, "AAPL", 1.0);
    assert !ok && p.table == map[];
    var report := p.Valuate(1, quote);
    assert report.EmptyPortfolio?;
    p.Buy(1, "aapl", 5.0);
    assert p.table == map[(1, "AAPL") := 5.0];
  }
}
