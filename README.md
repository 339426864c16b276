# Portfolio ledger and valuation, modelled in Dafny

A model of the holdings ledger in `src/portfolio.py` of a Discord stock bot.
Users record buys and sells of ticker symbols in a shared `portfolio` table.
The table's primary key is `(user_id, symbol)` and each row holds a share
quantity. The `portfolio` command values a user's rows at current market
prices.

- `symbols.dfy`, module `Symbols`: the `symbol.upper()` normalisation, and when two spellings address the same key.
- `ledger.dfy`, module `Ledger`: the table as a `map<(int, string), real>`. It gives the meaning of each SQL statement as a function: the upsert of `buy`, the check, decrement and table-wide `DELETE ... WHERE shares <= 0` of `sell`, and the per-user delete of `resetportfolio`. It also defines sequences of commands, with the invariants they keep.
- `valuation.dfy`, module `Valuation`: the per-row loop of the `portfolio` command as a method (`Aggregate`). It accumulates the total, the parallel `symbols`/`values` lists of the pie chart, and one line per row. A failed price lookup turns only that row into a "price unavailable" line.
- `portfolio.dfy`, module `PortfolioCog`: the cog as a class `Portfolio` with the table as a field. `Buy`, `Sell` and `ResetPortfolio` reassign the field. `Select` models the SQL query that reads a user's rows. `Valuate` models the `portfolio` command.

The model follows the code in two places where a stricter design would
behave differently:

- No amount is validated. A `buy` of zero or a negative amount is accepted and can store a row with shares <= 0. `sell` only checks `shares < amount`, so it accepts a negative amount and then adds to the row.
- The cleanup after a successful `sell` deletes every row of the whole table with shares <= 0, not just the sold key. `SellSweepsOtherRows` shows that another user's non-positive row disappears. `SellOnPositiveTableIsKeyScoped` shows that the cleanup is equivalent to a key-scoped one as long as every row is positive. `RunKeepsPositive` shows that rows stay positive when all buys are for positive amounts.

## Model

| member | source | states |
|---|---|---|
| `Symbols.UpperChar` | src/portfolio.py:34 | the result is never a lower-case ASCII letter; a-z move down by 32 code points and any other character is kept |
| `Symbols.Upper` | src/portfolio.py:34 | `upper()` keeps the length and upper-cases each character in place |
| `Symbols.UpperNormalizes` | src/portfolio.py:47 | the result of `upper()` contains no lower-case letter, a normalised symbol is its own image, and `upper()` is idempotent |
| `Symbols.UpperEqualIff` | src/portfolio.py:34 | two symbols normalise to the same key exactly when they differ only in letter case (both directions) |
| `Symbols.LowerAndUpperTickerAgree` | src/portfolio.py:47 | "aapl" and "AAPL" both normalise to "AAPL" |
| `Ledger.KeyOf` | src/portfolio.py:34-41 | the key a command addresses carries the caller's user id and a normalised symbol that equals the given one up to case |
| `Ledger.HoldingsOf` | src/portfolio.py:62 | a symbol is among the user's holdings exactly when the table has a row `(user, symbol)` |
| `Ledger.Bought` | src/portfolio.py:36-41 | after the upsert the key holds its former quantity (0 if absent) plus `amount`; every other key is present or absent as before, with the same quantity |
| `Ledger.Swept` | src/portfolio.py:55 | the delete keeps exactly the positive rows, unchanged, so every row with shares <= 0 is deleted |
| `Ledger.SellOn` | src/portfolio.py:47-55 | the sell is rejected exactly when the key is absent or holds less than `amount`; if accepted, all rows are positive, no key is added, the sold key survives iff `shares - amount > 0` (and then holds that), and any other row survives iff it was positive, unchanged |
| `Ledger.Reset` | src/portfolio.py:148 | a row remains exactly when it belongs to another user, with its quantity unchanged |
| `Ledger.BuyKeepsPositive` | src/portfolio.py:36-41 | a buy of a positive amount keeps every row positive |
| `Ledger.BuyNonPositiveStoresNonPositiveRow` | src/portfolio.py:32-41 | a buy of a non-positive amount on an absent key stores a row with shares <= 0 (no amount validation) |
| `Ledger.SellAllRemovesKey` | src/portfolio.py:49-55 | selling exactly the held quantity is accepted and removes the row |
| `Ledger.SellSweepsOtherRows` | src/portfolio.py:55 | after an accepted sell, any other row with shares <= 0, of any user, is gone |
| `Ledger.SellOnPositiveTableIsKeyScoped` | src/portfolio.py:49-55 | on an all-positive table an accepted sell changes no key other than the one sold |
| `Ledger.BuyThenSellRestores` | src/portfolio.py:36-55 | on an all-positive table, buying and then selling the same amount of a symbol is accepted and restores the table exactly |
| `Ledger.ResetIdempotent` | src/portfolio.py:148 | after a reset the user holds nothing, and a second reset equals the first |
| `Ledger.ApplyKeepsNormalized` | src/portfolio.py:34-55 | buy, sell and reset only ever store upper-cased symbols |
| `Ledger.RunKeepsPositive` | src/portfolio.py:36-55 | any sequence of buy, sell and resetportfolio commands whose buys are positive keeps an all-positive table all-positive |
| `Ledger.OthersOnlySweepRows` | src/portfolio.py:36-55 | commands by other users, with any amounts, never add or change a user's row and keep every positive one; only rows with shares <= 0 can vanish |
| `Ledger.TradeStep` | src/portfolio.py:36-55 | one buy or sell moves its own key's quantity by exactly the buy amount, minus the amount of an accepted sell, or 0 for a rejected sell |
| `Ledger.SingleKeyAccounting` | src/portfolio.py:36-55 | after any sequence of buys and sells on one key, its quantity is the starting one plus the buy amounts minus the accepted sell amounts |
| `Ledger.SweepBreaksAccounting` | src/portfolio.py:55 | with commands on another key mixed in, the accounting fails: a buy of -5 MSFT by user 2, then a sell of 1 AAPL by user 1, leaves MSFT holding 0, not -5 |
| `Ledger.OthersLeaveRowsAlone` | src/portfolio.py:36-55 | a user whose rows are all positive finds them present, absent and valued as before after any commands by other users |
| `Valuation.LineOf` | src/portfolio.py:72-83 | a row's line is priced exactly when its price lookup succeeds; a priced line carries that price and `shares * price` |
| `Valuation.PricedLines` | src/portfolio.py:78-80 | the lines that reach the chart are priced lines, no more than there are lines |
| `Valuation.SymbolsOf` | src/portfolio.py:79 | the chart labels are the lines' symbols, position by position |
| `Valuation.ValuesOf` | src/portfolio.py:80 | the chart values are the lines' values, position by position |
| `Valuation.PricedLinesMembers` | src/portfolio.py:77-83 | a line reaches the chart exactly when it is a priced line of the report |
| `Valuation.PricedLinesAppend` | src/portfolio.py:72-80 | selecting the priced lines distributes over concatenation, so the chart keeps row order |
| `Valuation.TotalIsSumOfPricedValues` | src/portfolio.py:67-85 | the line-by-line total, with 0 for unavailable lines, equals the sum of the chart values |
| `Valuation.AllUnavailableTotalsZero` | src/portfolio.py:82-83 | when every lookup fails the chart is empty and the total is 0 |
| `Valuation.Aggregate` | src/portfolio.py:67-85 | the loop yields one line per row in row order, the chart lists are the symbols and values of the priced lines in order, and the total is their sum |
| `Valuation.SnapshotSize` | src/portfolio.py:62-65 | a snapshot has one row per held symbol, and is empty exactly when the user holds nothing |
| `PortfolioCog.Portfolio.constructor` | src/portfolio.py:22-29 | the table starts empty, as in a fresh database (no ledger lemma depends on this; all of them hold for any table) |
| `PortfolioCog.Portfolio.Buy` | src/portfolio.py:31-42 | the new table is `Bought` of the old one, and stored symbols stay normalised |
| `PortfolioCog.Portfolio.Sell` | src/portfolio.py:44-56 | reports acceptance exactly as `SellOn` does; on acceptance the table is `SellOn`'s table, otherwise it is unchanged |
| `PortfolioCog.Portfolio.ResetPortfolio` | src/portfolio.py:144-149 | the new table is `Reset` of the old one |
| `PortfolioCog.Portfolio.Select` | src/portfolio.py:62 | the query returns each of the user's rows exactly once, with its stored quantity |
| `PortfolioCog.Portfolio.Valuate` | src/portfolio.py:58-85 | the report is "empty" exactly when the user holds nothing. Otherwise its lines are a snapshot of the user's rows with one line per holding, each priced iff its lookup succeeds. The chart lists hold the priced lines in order, and the total is both the line-by-line total and the sum of the chart values. Every chart label is an upper-cased symbol |

`PortfolioCog.Walkthrough` walks through a session against the class: buy
10 AAPL, sell 10, a rejected sell of 1, an empty valuation, then a buy of
"aapl". It asserts the table after each step.

## Left out

- `Symbols.Upper`, `Symbols.UpperChar`: only ASCII a-z are upper-cased. Python's `str.upper()` also maps other Unicode letters, and some of them change the length (for example "ß" becomes "SS").
- Shares and prices are exact `real`s. The `REAL` column (single precision) and Python floats round, and NaN and infinite amounts are not modelled. For example, a NaN sell would pass the `shares < amount` check, and PostgreSQL does not delete a NaN row.
- `Ledger.BuyThenSellRestores`: this holds for exact arithmetic only. With floats, `(h + a) - a` need not equal `h`. Rounding can also make the sell fail outright: the single-precision `REAL` column stores a buy of 0.7 as about 0.69999999, so the check `shares < amount` (src/portfolio.py:50) rejects a sell of 0.7.
- User ids are unbounded integers. The `BIGINT` range is not modelled.
- Price lookup (`yf.Ticker(symbol).history(...)`) is a call into a foreign library. It is the parameter `quote: string -> Option<real>`, where `None` stands for any exception raised in the `try` block.
- The order of rows returned by the `SELECT` is unspecified. `Select` picks any remaining row at each step, so every proved property holds for any order.
- The reply texts, the `:.2f` formatting and the matplotlib pie chart are not modelled. The model keeps only the data they are built from: lines, `symbols`, `values` and the total.
- `PortfolioCog.Portfolio.Valuate`: returns a report even when a chart value is negative (a row left by a non-positive buy). matplotlib's `pie` (src/portfolio.py:89) rejects negative wedge sizes, so in that case the command raises and the user gets no reply at all.
- The database plumbing is not modelled: pool creation, `CREATE TABLE`, and the unawaited `setup_db` task, which leaves the pool unset until it finishes. The table is a field that starts empty, which models a fresh database. `CREATE TABLE IF NOT EXISTS` keeps an existing table's rows across restarts; no ledger lemma depends on the empty start, since all of them hold for any table.
- Concurrency is not modelled. The read in `sell` and its update are not one transaction, but the model runs commands one at a time.
- `myNews` is HTTP requests and XML parsing of a news feed. `src/stock.py` (price and news commands, help text) and `src/bot.py` (process bootstrap) are not part of this model.
