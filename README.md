# backt4j core in Dafny

A model of the accounting core of backt4j, a small Java backtesting library, together with
proofs about it. It covers four parts:

- **The stock exchange** (`stock_exchange.dfy`, `lots.dfy`, `stats.dfy`, `map_sums.dfy`):
  - available cash, per-ticker queues of open lots, and the performance record;
  - `marketOrder`, which rejects an order the cash cannot cover, then closes, reduces, flips
    or extends the position;
  - `marketClearPosition`;
  - the mark-to-market portfolio value;
  - the population volatility and mean.
- **The exchange's stream step** (`exchange.dfy`). `next` joins the per-ticker price lists by
  row index through lazily created cursors and appends one performance sample per call.
- **The result record** (`result.dfy`): its two constructors, and `merge` of two records.
- **The CSV data source** (`csv_data.dfy`):
  - `parseFile`: skips the header, groups rows by ticker in file order, and keeps the row-count
    check across files;
  - `extendValues`, `init` over a list of files, and `getValues`.

`wrappers.dfy` holds `Option`/`Outcome`, and `price_data.dfy` holds the price-point record.

### Which revision of the exchange is modelled

`StockExchange.java` keeps one `(amount, weighted price)` pair per ticker. It cannot run as
written:
- the transaction list is never created;
- a first order on a ticker dereferences a missing entry (line 75);
- the latest prices are never stored.

`src/test/java/StockExchangeTest.java` exercises a later revision that keeps a queue of
`Transaction(ticker, amount, price, timeStamp)` lots per ticker, newest first (lines 21-29), with
a net-amount map beside it (line 35). The model follows that revision:
- Each ticker has a sequence of `Lot`s, with index 0 the newest.
- An order against the position consumes the oldest lots first. No shown test pins this order.
- P&L is realized at the order's price, as the test's 2000·(10000−100) = 19800000 requires
  (lines 34-39).
- The rules `StockExchange.java` does state are kept:
  - the budget check;
  - the split of an order that reaches or crosses zero;
  - P&L signs by position side;
  - relative performance as absolute performance over the initial budget;
  - drawdown as the minimum fill return;
  - population volatility.
- Where the shown code contradicts these rules, the contradiction is recorded under
  "## Findings".

### Representation choices

- **Prices and money.** These are `real`; IEEE rounding is not modelled. Share amounts are
  `int`, signed: positive is long, negative is short.
- **Iterators.** A Java iterator over a list is the suffix of the list it has not returned yet.
- **Failures.** Exceptions and error returns become an `Outcome` error (`Err`).
- **Number parsing.** Parsing a CSV row's numeric fields is a parameter `decode` that may fail.
  A row that fails to decode is dropped, for a known ticker and for a new one alike. Java
  evaluates the arguments of `parsedData.get(ticker).add(...)` before it checks the `null`
  target, so the parse error is thrown before the `NullPointerException` that would create the
  list.
  `decode` supplies the numeric fields; the point's id is always the row's column 0, as in
  the `PriceDataPoint(ticker, …)` calls.
- **Square root.** `Math.sqrt` is a parameter `sqrt`; the lemmas are about the variance it is
  applied to.
- **Audit logs.** The `transactions` log is a ghost sequence, since nothing reads it.
- **Consistency predicate.** The exchange's consistency is the `Books` predicate, which every
  operation preserves. It requires:
  - cash is non-negative;
  - each net amount is the sum of its queue;
  - each queue is one-signed;
  - `rel = abs / budget`;
  - drawdown ≤ 0;
  - cash plus the cost basis of all open lots equals the budget plus the realized P&L.

## Model

| member | source | states |
|---|---|---|
| Stats.CalculateMean | src/main/java/com/backt4j/core/StockExchange.java:151-157 | the accumulation loop returns the sum of a non-empty list over its length |
| Stats.CalculateVolatility | src/main/java/com/backt4j/core/StockExchange.java:135-149 | an empty list fails; otherwise the result is `sqrt` of the mean squared deviation from the mean, dividing by n |
| Stats.SquaredDeviationsNonNegative | src/main/java/com/backt4j/core/StockExchange.java:143-145 | the accumulated squared deviations are never negative |
| Stats.VarianceNonNegative | src/main/java/com/backt4j/core/StockExchange.java:140-148 | the variance handed to the square root is never negative |
| Stats.ConstantSeriesHasZeroVariance | src/main/java/com/backt4j/core/StockExchange.java:135-157 | a constant series has that constant as its mean and zero variance, so its volatility is the square root of 0 whatever the square root |
| Stats.PopulationVariance | src/main/java/com/backt4j/core/StockExchange.java:146 | the division is by n, not n − 1: the variance of 1 and 3 is 1 |
| Lots.QueueNet | src/test/java/StockExchangeTest.java:34-36 | a one-signed queue has net amount 0 exactly when it holds no lots; otherwise the net amount has the sign of its lots |
| Lots.FillPnlIsMarkToMarket | src/main/java/com/backt4j/core/StockExchange.java:115-125 | closing a whole lot realizes amount·(price − entry): the price gain for a long lot, the price drop for a short lot |
| Lots.CloseShape | src/test/java/StockExchangeTest.java:68-72 | a close leaves a prefix of the queue; only its oldest surviving lot may lose part of its amount, and that lot keeps its sign, ticker, price and timestamp |
| Lots.CloseNet | src/test/java/StockExchangeTest.java:68-72 | closing `shares` shares moves the net amount toward zero by exactly `shares` |
| Lots.CloseQueue | src/test/java/StockExchangeTest.java:68-72 | a close keeps the queue one-signed and moves the net amount by exactly the closed shares; newer lots are untouched |
| Lots.CloseAllEmpties | src/test/java/StockExchangeTest.java:34-36 | closing the whole net amount leaves no lots |
| Lots.UnrealizedIsWorthLessCost | src/main/java/com/backt4j/core/StockExchange.java:110-112 | a queue's unrealized P&L is its market value at the price less its cost basis (with `Lots.WorthIsNetValue`: the net amount valued at the price, less the cost basis) |
| Lots.SettleCash | src/main/java/com/backt4j/core/StockExchange.java:69 | the fills of a close move cash by the market value the close removes from the queue |
| Lots.SettleAbs | src/main/java/com/backt4j/core/StockExchange.java:115-126 | the fills of a close add to the absolute performance exactly the unrealized P&L the close removes |
| Lots.FillReturnPerShare | src/main/java/com/backt4j/core/StockExchange.java:110-124 | a fill's return, its P&L over the cost of the shares it closes, is the lot's price move in its favour over its entry price, whatever the number of shares |
| Lots.TouchedLots | src/main/java/com/backt4j/core/StockExchange.java:110-125 | the lots a close touches, oldest first, are exactly the ones it changes: the untouched lots survive as they were, and at most one touched lot survives, with a smaller amount |
| Lots.SettleDrawdown | src/main/java/com/backt4j/core/StockExchange.java:110-130 | after the fills of a close, the drawdown is the least of the old drawdown and the returns of the lots the close touches |
| Lots.RouteMeaning | src/main/java/com/backt4j/core/StockExchange.java:82-98 | each order is exactly one of: to zero (clear), against the position short of zero (reduce), past zero (clear and reopen), or flat/same sign (extend); stated as iffs over the signs |
| Lots.ExecuteQueue | src/test/java/StockExchangeTest.java:34-35 | an accepted order keeps the queue one-signed and changes the net amount by exactly `amount` |
| Lots.WorthIsNetValue | src/main/java/com/backt4j/core/StockExchange.java:112 | a queue's market value is its net amount times the price |
| Lots.ExecuteCash | src/main/java/com/backt4j/core/StockExchange.java:69 | an accepted order moves cash by exactly −amount·price on every route, so the budget check is the check that cash stays non-negative |
| Lots.CloseAbs | src/main/java/com/backt4j/core/StockExchange.java:115-130 | a close realizes exactly the unrealized P&L it removes, and the drawdown becomes the least of the old drawdown and the returns of the lots it touches |
| Lots.ExecuteAbs | src/main/java/com/backt4j/core/StockExchange.java:115-130 | an accepted order realizes exactly the unrealized P&L it removes from the queue, and never raises the drawdown; `Lots.ExecuteDrawdown` gives the drawdown's value |
| Lots.ExecuteDrawdown | src/main/java/com/backt4j/core/StockExchange.java:82-130 | after an accepted order the drawdown is the least of the old drawdown and the returns, at the order's price, of the lots the order closes; an order that only extends the position leaves it unchanged |
| Lots.ExecuteFlattens | src/main/java/com/backt4j/core/StockExchange.java:82-83 | an order that brings the net amount to zero leaves no lots |
| Lots.ExecuteClears | src/main/java/com/backt4j/core/StockExchange.java:109-131 | an order for minus the net amount empties the queue and adds the queue's whole unrealized P&L to the absolute performance |
| Lots.ExecuteFlips | src/main/java/com/backt4j/core/StockExchange.java:84-89 | an order that crosses zero leaves a single lot of net + amount shares, with the order's sign, price and timestamp |
| Lots.ExecuteExtends | src/test/java/StockExchangeTest.java:21-29 | an order on a flat ticker, or one with the position's sign, pushes a lot with the order's amount, price and timestamp at the head; it leaves the older lots as they were and pays amount·price |
| Lots.ExecuteCloses | src/test/java/StockExchangeTest.java:68-72 | an order to zero or against the position closes abs(amount) shares and moves cash by −amount·price |
| Lots.ExtendQueue | src/test/java/StockExchangeTest.java:26-29 | a lot of the queue's sign pushed at the head keeps the queue one-signed and adds its amount and cost |
| Lots.ExecuteReducesOldestFirst | src/test/java/StockExchangeTest.java:68-72 | an order that reduces the position without reaching zero consumes the oldest lots only; every newer lot is unchanged |
| Lots.RoundTrip | src/test/java/StockExchangeTest.java:61-65 | opening shares at `entry` and closing them at `exit` realizes shares·(exit − entry) for both sides, returns the cash plus that P&L, and leaves nothing open |
| Lots.RoundTripDrawdown | src/main/java/com/backt4j/core/StockExchange.java:110-130 | the same round trip sets the drawdown to the trade's return, (exit − entry)/entry for a long and (entry − exit)/entry for a short, when that is lower than the old drawdown |
| Lots.ClearPnlAsWrittenInvertsShorts | src/main/java/com/backt4j/core/StockExchange.java:120-124 | as written, clearing a short books minus its P&L |
| Lots.CashAfterExtendAsWrittenLosesBudget | src/main/java/com/backt4j/core/StockExchange.java:97 | as written, extending overwrites the cash with minus the order cost |
| Lots.RouteAsWrittenSwapsReduceAndFlip | src/main/java/com/backt4j/core/StockExchange.java:84 | as written, reductions take the clear-and-reopen branch and zero crossings take the extend branch |
| StockExchanges.ClearRealizes | src/main/java/com/backt4j/core/StockExchange.java:109-131 | clearing a ticker at its latest opening price empties its queue, realizes its unrealized P&L, and keeps realized P&L plus portfolio value constant |
| StockExchanges.ClearAllRealizes | src/test/java/StockExchangeTest.java:54-59 | clearing a list of tickers one after another, a clear the budget check rejects changing nothing, leaves the other tickers alone and keeps realized P&L plus portfolio value constant; when every clear is accepted, each listed ticker ends empty |
| StockExchanges.ClearEverything | src/test/java/StockExchangeTest.java:54-59 | when the budget check accepts every clear, clearing every open ticker adds exactly the portfolio value to the absolute performance and leaves every net amount at 0 |
| StockExchanges.ClearOverBudget | src/main/java/com/backt4j/core/StockExchange.java:69 | the budget check of the order for minus the net amount fails exactly when cash plus the net amount valued at the price is below zero |
| StockExchanges.ClearLongAccepted | src/main/java/com/backt4j/core/StockExchange.java:69 | clearing a long or flat position always passes the budget check |
| StockExchanges.ExecuteKeepsBooks | src/main/java/com/backt4j/core/StockExchange.java:68-100 | every order that passes the budget check keeps the books consistent (the `Books` predicate) |
| StockExchanges.FlipComposes | src/main/java/com/backt4j/core/StockExchange.java:84-89 | an order that crosses zero equals a full clear followed by an order for the residual on the empty queue; the residual passes the budget check whenever the whole order does |
| StockExchanges.CloseOldestFirst | src/test/java/StockExchangeTest.java:68-72 | the close loop returns the queue, net amount and ledger of the close specification, oldest lot first |
| StockExchanges.BookOrder | src/main/java/com/backt4j/core/StockExchange.java:68-100 | returns 1 and changes nothing exactly when cash − amount·price < 0; otherwise returns 0 with the booked queue, net amount, ledger and log entries, re-entering itself once for the residual of a crossing order |
| StockExchanges.TestBuyTwiceSellAll | src/test/java/StockExchangeTest.java:21-40 | two buys of 1000 at 100 stack newest first; selling 2000 at 10000 empties the queue and books abs 19800000 and rel 0.0198 on a budget of 1e9 |
| StockExchanges.TestFullCloses | src/test/java/StockExchangeTest.java:61-65 | short 1000 at 100 and buy back at 10, or long 1000 at 10 and sell at 100: each realizes 90000 and leaves the ticker flat |
| StockExchanges.TestPartialCloses | src/test/java/StockExchangeTest.java:67-87 | short 2000 at 100 and buy 1000 at 10, or long 2000 at 10 and sell 1000 at 100: each realizes 90000 and leaves 1000 shares on the position's side |
| StockExchanges.PartialClose | src/test/java/StockExchangeTest.java:67-87 | opening a position and closing half of it realizes half its P&L and leaves half open |
| StockExchanges.PortfolioValueOf | src/test/java/StockExchangeTest.java:47-50 | the ticker-by-ticker loop returns the sum over tickers with a price of the unrealized P&L at the latest opening price |
| StockExchanges.UnrealizedAt | src/main/java/com/backt4j/core/StockExchange.java:110-112 | the lot-by-lot loop returns the queue's unrealized P&L |
| StockExchanges.StockExchange.constructor | src/main/java/com/backt4j/core/StockExchange.java:48-53 | the budget becomes both the initial and the available cash; the book is empty and the record blank; the books are consistent |
| StockExchanges.StockExchange.RecordPrice | src/main/java/com/backt4j/core/Exchange.java:35-38 | stores a ticker's latest price point and changes nothing else |
| StockExchanges.StockExchange.MarketOrder | src/main/java/com/backt4j/core/StockExchange.java:68-100 | rejected (1, state unchanged) exactly when cash − amount·price < 0; otherwise 0, with that ticker's queue, net amount, cash and record set by the order and the order logged; consistency kept |
| StockExchanges.StockExchange.MarketClearPosition | src/main/java/com/backt4j/core/StockExchange.java:109-133 | fails, changing nothing, exactly when the ticker has no price; is rejected with 1, changing nothing, exactly when cash + net amount · latest opening price < 0; otherwise returns 0 and books the order for minus the net amount at the latest opening price and timestamp |
| StockExchanges.StockExchange.CurrentPortfolioValue | src/test/java/StockExchangeTest.java:47-50 | the mark-to-market value of all open lots at the latest opening prices |
| Results.MakeAsWrittenLosesRel | src/main/java/com/backt4j/core/Result.java:36-43 | the five-argument constructor as written reads back the absolute performance as the relative one, so it differs from the intended record whenever the two performances differ (50 and 0.05 read back 50) |
| Results.Merge | src/main/java/com/backt4j/core/Result.java:45-70 | the merge loop, which fails on a second series shorter than the aggregate, and the record it fills equal the merge specification `Merged` |
| Results.MergedContents | src/main/java/com/backt4j/core/Result.java:48-67 | a merge fails with an index error exactly when the second series is shorter than the aggregate, and with an empty series exactly when the first has fewer than 2 entries; otherwise the record has the summed absolute performance and the larger drawdown, its series has one entry fewer than the first series, each the sum of the two series at that index, its volatility is that of the series, and its relative performance is undefined exactly when a relative performance is 0 or the bases cancel |
| Results.MergedPooledReturn | src/main/java/com/backt4j/core/Result.java:58-64 | when each relative performance is a non-zero absolute performance over a positive base, the merged one is defined and is the summed absolute performance over the summed bases |
| Results.BaseRecovered | src/main/java/com/backt4j/core/Result.java:61-64 | absolute over relative performance gives back the base |
| Results.MergeSymmetric | src/main/java/com/backt4j/core/Result.java:45-70 | for equal-length series, merge does not depend on argument order |
| Results.MergeAsWrittenAlwaysFails | src/main/java/com/backt4j/core/Result.java:50-56 | as written, merge never produces a record; given a long enough second series, the intended merge succeeds exactly when the first series has at least two entries |
| Results.MergeAsWrittenRejectsThreeSamples | src/main/java/com/backt4j/core/Result.java:50-55 | a concrete pair the code as written rejects and the intended merge accepts |
| Exchanges.StartCursors | src/main/java/com/backt4j/core/Exchange.java:46-50 | creates one cursor per ticker of the data, at the start of its list |
| Exchanges.Draw | src/main/java/com/backt4j/core/Exchange.java:52-59 | the loop emits each ticker's next point, or none once exhausted, and advances exactly those cursors |
| Exchanges.StepReconstructs | src/main/java/com/backt4j/core/Exchange.java:52-59 | one step loses nothing: the emitted point followed by the advanced cursor gives back the cursor; exhausted cursors emit none and stay; other cursors do not move |
| Exchanges.IterateSkips | src/main/java/com/backt4j/core/Exchange.java:52-59 | after k calls, each cursor has given exactly its first min(k, length) points |
| Exchanges.CallReturnsRow | src/main/java/com/backt4j/core/Exchange.java:40-63 | after k steps from the start of the data, every ticker emits its element at row k, or none once its list is exhausted |
| Exchanges.IterateSnoc | src/main/java/com/backt4j/core/Exchange.java:52-59 | one more step after k steps is k + 1 steps, so advancing the kept cursors (as `next` does) follows the same sequence |
| Exchanges.NextReturnsRow | src/main/java/com/backt4j/core/Exchange.java:40-63 | a call on the cursors left by k earlier calls returns row k of every ticker, or none once exhausted, and leaves the cursors of k + 1 calls; with `Exchanges.Exchange.Next`, the k-th call of a run returns row k |
| Exchanges.Exchange.constructor | src/main/java/com/backt4j/core/Exchange.java:29-33 | stores the data; no cursors and an empty performance series |
| Exchanges.Exchange.SetData | src/main/java/com/backt4j/core/Exchange.java:70-72 | replaces the data and keeps the cursors and the series |
| Exchanges.Exchange.Next | src/main/java/com/backt4j/core/Exchange.java:40-64 | fails with `NoData`, changing nothing, exactly when there is no data, and with `MissingCursor` exactly when a data ticker has no cursor; otherwise succeeds: creates cursors only when none exist, returns one value per data ticker, advances those cursors, and appends exactly one sample (current − initial)/initial |
| CsvParsing.GroupRows | src/main/java/com/backt4j/data/CSVData.java:133-168 | the row loop computes the grouping specification `Group` |
| CsvParsing.GroupFails | src/main/java/com/backt4j/data/CSVData.java:134-135 | grouping fails exactly when some data row has no fields, and then with `EmptyRow` |
| CsvParsing.GroupColumns | src/main/java/com/backt4j/data/CSVData.java:133-168 | each ticker's list holds the decodable rows with that ticker in column 0, in file order; undecodable rows are dropped; no list is empty |
| CsvParsing.ColumnIds | src/main/java/com/backt4j/data/CSVData.java:140-153 | every point in a ticker's column has that ticker as its id |
| CsvParsing.ColumnConcat | src/main/java/com/backt4j/data/CSVData.java:133-168 | a ticker's column over two blocks of rows is the concatenation of its columns |
| CsvParsing.GroupConcat | src/main/java/com/backt4j/data/CSVData.java:106-168 | grouping two blocks separately and extending one by the other equals grouping them together |
| CsvParsing.ExtendEach | src/main/java/com/backt4j/data/CSVData.java:106-114 | the key loop computes the extension specification `Extend` |
| CsvParsing.ExtendMeaning | src/main/java/com/backt4j/data/CSVData.java:106-114 | extending appends each extension list to the existing one, or inserts it when the ticker is new; all other keys are unchanged |
| CsvParsing.LoadContents | src/main/java/com/backt4j/data/CSVData.java:79-104 | a successful load extends each ticker's list by its column over the data rows of all files, in file order, headers skipped |
| CsvParsing.LoadSizes | src/main/java/com/backt4j/data/CSVData.java:170-177 | after a successful load every file has a header, and all files have the same number of data rows, the recorded size; an earlier size is kept |
| CsvParsing.CsvData.constructor | src/main/java/com/backt4j/data/CSVData.java:46-49 | stores the id; no size and no values |
| CsvParsing.CsvData.ParseFile | src/main/java/com/backt4j/data/CSVData.java:116-181 | sets the size and result by the specification `Parsed`: a missing header fails; the first file sets the size; a different later count fails; the values are untouched |
| CsvParsing.CsvData.ExtendValues | src/main/java/com/backt4j/data/CSVData.java:106-114 | the values become their extension by the parsed groups; the size is untouched |
| CsvParsing.CsvData.Init | src/main/java/com/backt4j/data/CSVData.java:79-104 | the file loop produces the values, size and outcome of the specification `Load` |
| CsvParsing.LoadIds | src/main/java/com/backt4j/data/CSVData.java:79-168 | a successful load files every point under its own id, when the values it starts from do |
| CsvParsing.LoadFindsNothing | src/main/java/com/backt4j/data/CSVData.java:79-104 | after a successful load from no values, the values are empty (the state in which `getValues` fails) exactly when no data row of any file decodes |
| CsvParsing.CsvData.GetValues | src/main/java/com/backt4j/data/CSVData.java:194-200 | fails with `NoValues` exactly when the values are empty, otherwise returns them; with `CsvParsing.LoadFindsNothing`, after `init` it fails exactly when no data row decodes |

## Left out

- File and directory I/O: opencsv reading, `Files.walk`, and the swallowed read error are not modelled. The files are given as a sequence of row sequences, in the order the walk would visit them, and that order is left open.
- Number parsing: `Integer.parseInt`, `Double.parseDouble` and `Long.parseLong` are the parameter `decode`. `Date` becomes an `int` timestamp.
- Floating point: money is `real`. Overflow, rounding and IEEE infinities or NaN are not modelled, and `Math.sqrt` is the parameter `sqrt`.
- `handleRunEnd` and `getOpenPositions` are not modelled. The first overrides nothing and always raises on the fresh empty list it passes; the second is a getter.
- The context file `Results.java` (a superseded getter/setter bag), `Backtest`, `Connection`, `Strategy` and both `TestStrategy` files are not part of this model.
- The `resultsSeries` log is not modelled because nothing reads it. `transactions` is kept as a ghost sequence.
- The portfolio value 304550 at StockExchangeTest.java:50 depends on a data file that is not part of this model. Only the general law (`StockExchanges.ClearEverything`) is stated.
- StockExchanges.StockExchange.MarketOrder reopens the residual of a zero-crossing order at the order's price. The shown code passes the position's old entry price (StockExchange.java:89), but the lot-queue revision books the residual as a fresh order.
- StockExchanges.StockExchange.MarketOrder credits cash when shares are sold, so an accepted order moves cash by exactly −amount·price. The shown `marketClearPosition` never touches the cash, and the cash rule of the lot-queue revision is not shown.
- StockExchanges.StockExchange.MarketOrder realizes P&L at the order's price, as StockExchangeTest.java:34-40 requires. The shown `marketClearPosition` values the position at the latest opening price.
- StockExchanges.StockExchange.MarketOrder: requires `price > 0`. The drawdown divides by the entry cost of the shares closed, so the source's behaviour at price 0 would be a floating-point division by zero.
- StockExchanges.StockExchange.constructor: requires a positive budget. The relative performance divides by it.
- StockExchanges.StockExchange.RecordPrice: stands in for the price update the lot-queue revision makes in `next` (StockExchange.java never assigns `currentPrices`). It requires a positive opening price.
- StockExchanges.StockExchange.MarketClearPosition: on a missing price it returns an error. The code dereferences `null` there.
- StockExchanges.StockExchange.MarketClearPosition: goes through the budget check of `marketOrder`, so clearing a short that the cash cannot buy back is rejected. The shown `marketClearPosition` (StockExchange.java:109-133) has no budget check and always clears. The lot-queue revision routes a clear through an order.
- Exchanges.Exchange.Next: requires a non-zero initial account value, where Java would store an infinity or NaN.
- Exchanges.Exchange.Next: when the data has a ticker without a cursor, the model returns `MissingCursor` and changes nothing. Java throws a `NullPointerException` after advancing the cursors it visited first, in hash order.
- Exchanges.Exchange.Next: the data is a map snapshot. A `getValues` that raises on an empty map is not modelled, so an empty map yields an empty step.
- Exchanges.Exchange.Next: takes the two account values as parameters, because the abstract getters are implemented by subclasses.
- Stats.CalculateMean: requires a non-empty list. Java would return NaN for an empty one, and the only caller checks emptiness first.
- Results.Merge: the merged relative performance is `None` where a relative performance is 0 or the bases cancel. Java's `double` division yields NaN, an infinity or a signed zero there, which the model does not distinguish.
- Results.Merge: `Result.java:56` calls `Backtest.calculateVolatility`, which `Backtest.java` does not define. The model uses the population volatility of `StockExchange.java:135-149` in its place.
- CsvParsing.CsvData.ExtendValues: the model does not capture that Java stores the parsed list itself, sharing it with the parse result (aliasing).
- The no-argument `CSVData()` constructor is not modelled: it derives its id from the clock.

## Findings

| source | as written | input that shows it | evidently intended | confidence | as-written member | corrected member |
|---|---|---|---|---|---|---|
| src/main/java/com/backt4j/core/StockExchange.java:122 | a short's P&L is `initialValue - currentValue`, with the amount already negative | short 1000 at 100 cleared at 10 books −90000 (`Lots.ClearPnlAsWrittenInvertsShorts`) | shares·(entry − price) = +90000, as StockExchangeTest.java:65 expects | not executed | Lots.ClearPnlAsWritten | Lots.FillPnlIsMarkToMarket |
| src/main/java/com/backt4j/core/Result.java:50-55 | the loop sums elements of two fresh empty lists | first series of 3 samples: index out of bounds; with fewer than 2 samples the aggregate is empty, and its volatility raises in the population volatility the model uses for the `Backtest.calculateVolatility` that `Backtest.java` does not define (`Results.MergeAsWrittenRejectsThreeSamples`) | sum the two records' series element by element | not executed | Results.MergeAsWritten | Results.Merge |
| src/main/java/com/backt4j/core/StockExchange.java:97 | `currentAccountValue =- amount * price` assigns minus the cost | budget 1e9, buy 1000 at 100: cash becomes −100000, and the next purchase is rejected (`Lots.CashAfterExtendAsWrittenLosesBudget`) | `-=`: cash 999900000 | not executed | Lots.CashAfterExtendAsWritten | Lots.ExecuteCash |
| src/main/java/com/backt4j/core/Result.java:39 | `relPerformance = absPerformanceDouble` | `Result(50, 0.05, …)` reads back a relative performance of 50 (`Results.MakeAsWrittenLosesRel`) | store the relative-performance argument | not executed | Results.MakeAsWritten | Results.Make |
| src/main/java/com/backt4j/core/StockExchange.java:84 | the clear-and-reopen guard is `signum(current + amount) != orderSign` | long 1000, sell 1500: folded into one position of −500 at a weighted price, nothing realized; long 2000, sell 1000: cleared and reopened (`Lots.RouteAsWrittenSwapsReduceAndFlip`) | clear and reopen exactly when the order crosses zero | not executed | Lots.RouteAsWritten | Lots.RouteMeaning |
