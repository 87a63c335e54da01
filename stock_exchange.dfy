/**
 * The stock exchange: available cash, the per-ticker lot queues with their net amounts, the
 * performance record and the latest observed prices, updated in place by market orders and
 * position clears.
 */
module StockExchanges {
  import opened Wrappers
  import opened PriceData
  import opened Lots
  import opened Results
  import MapSums

  /** Why a position cannot be cleared: no price has been observed for its ticker. */
  datatype ClearError = NoCurrentPrice

  /** A ticker's queue, or the empty queue for a ticker never traded. */
  function LotsAt(positions: map<string, seq<Lot>>, ticker: string): seq<Lot> {
    if ticker in positions then positions[ticker] else []
  }

  /** The cost basis of every ticker's queue. */
  function Costs(positions: map<string, seq<Lot>>): map<string, real> {
    map t | t in positions :: Cost(positions[t])
  }

  /** The unrealized P&L of every ticker's queue at its latest opening price, for the tickers
      that have one. */
  function Marks(positions: map<string, seq<Lot>>, prices: map<string, PricePoint>): map<string, real> {
    map t | t in positions && t in prices :: Unrealized(positions[t], prices[t].open)
  }

  /** The performance record after a booking: the ledger's P&L and drawdown, and the relative
      performance recomputed against the initial budget. */
  function Booked(result: Result, ledger: Ledger, accountValue: real): Result
    requires accountValue != 0.0
  {
    result.(absPerformance := ledger.abs, relPerformance := ledger.abs / accountValue, maxDrawdown := ledger.drawdown)
  }

  /** The audit log entries of an accepted order: the order itself and, when it crosses zero,
      the order for the residual that re-enters the exchange. */
  function Logged(lots: seq<Lot>, ticker: string, amount: int, price: real, timeStamp: int): seq<Lot> {
    [Lot(ticker, amount, price, timeStamp)]
      + if RouteOf(Net(lots), amount) == Flip then [Lot(ticker, Net(lots) + amount, price, timeStamp)] else []
  }

  /**
   * The exchange's books are consistent:
   *  - a positive initial budget and non-negative available cash;
   *  - one net amount per queue, equal to the sum of the queue's lots, each queue well formed;
   *  - the relative performance is the absolute performance over the initial budget;
   *  - the drawdown is never positive;
   *  - cash plus the cost basis of every open lot is the initial budget plus realized P&L.
   */
  ghost predicate Books(positions: map<string, seq<Lot>>, amounts: map<string, int>, cash: real, result: Result, accountValue: real) {
    && accountValue > 0.0
    && cash >= 0.0
    && positions.Keys == amounts.Keys
    && (forall t | t in positions :: Queue(positions[t], t) && amounts[t] == Net(positions[t]))
    && result.relPerformance == result.absPerformance / accountValue
    && result.maxDrawdown <= 0.0
    && cash + MapSums.Total(Costs(positions)) == accountValue + result.absPerformance
  }

  /** An order changes a queue's cost basis by what it pays plus the unrealized P&L it
      realizes. */
  lemma ExecuteCost(lots: seq<Lot>, ticker: string, amount: int, price: real, timeStamp: int, acc: Ledger)
    requires Queue(lots, ticker) && price > 0.0
    ensures var Book(after, out) := Execute(lots, ticker, amount, price, timeStamp, acc);
      && Cost(after) - Cost(lots) == amount as real * price + (out.abs - acc.abs)
      && out.cash == acc.cash - amount as real * price
  {
    var b := Execute(lots, ticker, amount, price, timeStamp, acc);
    ExecuteQueue(lots, ticker, amount, price, timeStamp, acc);
    ExecuteCash(lots, ticker, amount, price, timeStamp, acc);
    ExecuteAbs(lots, ticker, amount, price, timeStamp, acc);
    CostOfQueue(lots, b.lots, amount, price, acc.abs, b.ledger.abs);
  }

  /** Cost basis and unrealized P&L of two queues whose nets differ by `amount`. */
  lemma CostOfQueue(lots: seq<Lot>, after: seq<Lot>, amount: int, price: real, abs: real, absAfter: real)
    requires Net(after) == Net(lots) + amount
    requires absAfter == abs + Unrealized(lots, price) - Unrealized(after, price)
    ensures Cost(after) - Cost(lots) == amount as real * price + (absAfter - abs)
  {
    UnrealizedIsWorthLessCost(lots, price);
    UnrealizedIsWorthLessCost(after, price);
    WorthShift(lots, after, amount, price);
  }

  /** Replacing one queue replaces its entry in the cost map. */
  lemma CostsUpdate(positions: map<string, seq<Lot>>, ticker: string, lots: seq<Lot>)
    ensures Costs(positions[ticker := lots]) == Costs(positions)[ticker := Cost(lots)]
    ensures MapSums.Total(Costs(positions[ticker := lots]))
         == MapSums.Total(Costs(positions)) - Cost(LotsAt(positions, ticker)) + Cost(lots)
  {
    assert Costs(positions[ticker := lots]) == Costs(positions)[ticker := Cost(lots)];
    MapSums.TotalUpdate(Costs(positions), ticker, Cost(lots));
  }

  /** Replacing the queue of a ticker with a price replaces its mark, and moves the portfolio
      value by the difference of the two queues' unrealized P&L. */
  lemma MarksUpdate(positions: map<string, seq<Lot>>, prices: map<string, PricePoint>, ticker: string, lots: seq<Lot>)
    requires ticker in prices
    ensures MapSums.Total(Marks(positions[ticker := lots], prices))
         == MapSums.Total(Marks(positions, prices))
            - Unrealized(LotsAt(positions, ticker), prices[ticker].open) + Unrealized(lots, prices[ticker].open)
  {
    var marks := Marks(positions, prices);
    assert Marks(positions[ticker := lots], prices) == marks[ticker := Unrealized(lots, prices[ticker].open)];
    MapSums.TotalUpdate(marks, ticker, Unrealized(lots, prices[ticker].open));
  }

  /** The booking of a clear: a market order for minus the net amount at the ticker's latest
      opening price and timestamp. */
  function Cleared(positions: map<string, seq<Lot>>, prices: map<string, PricePoint>, ticker: string, acc: Ledger): Book
    requires ticker in prices && prices[ticker].open > 0.0 && Priced(LotsAt(positions, ticker))
  {
    var lots := LotsAt(positions, ticker);
    Execute(lots, ticker, -Net(lots), prices[ticker].open, prices[ticker].windowStart, acc)
  }

  /** Clearing a ticker at its latest opening price empties its queue, realizes its whole
      unrealized P&L, and so keeps realized P&L plus portfolio value unchanged. */
  lemma ClearRealizes(positions: map<string, seq<Lot>>, prices: map<string, PricePoint>, ticker: string, acc: Ledger)
    requires ticker in prices && prices[ticker].open > 0.0 && Queue(LotsAt(positions, ticker), ticker)
    ensures var b := Cleared(positions, prices, ticker, acc);
      && b.lots == [] && Net(b.lots) == 0
      && b.ledger.abs == acc.abs + Unrealized(LotsAt(positions, ticker), prices[ticker].open)
      && b.ledger.abs + MapSums.Total(Marks(positions[ticker := b.lots], prices))
         == acc.abs + MapSums.Total(Marks(positions, prices))
  {
    var lots := LotsAt(positions, ticker);
    ExecuteClears(lots, ticker, prices[ticker].open, prices[ticker].windowStart, acc);
    MarksUpdate(positions, prices, ticker, []);
  }

  /** The budget check of `marketOrder`: paying `amount` shares at `price` would take the cash
      below zero. */
  predicate OverBudget(cash: real, amount: int, price: real) {
    cash - amount as real * price < 0.0
  }

  /** The budget check of a clear: the order for minus `net` shares is over budget exactly when
      the cash plus the value of the `net` shares is below zero. */
  lemma ClearOverBudget(cash: real, net: int, price: real)
    ensures OverBudget(cash, -net, price) <==> cash + net as real * price < 0.0
  {
    assert (-net) as real * price == -(net as real * price);
  }

  /** Whether the exchange accepts clearing `ticker` from ledger `acc`: the order for minus the
      net amount at the latest opening price passes the budget check. */
  predicate ClearAccepted(positions: map<string, seq<Lot>>, prices: map<string, PricePoint>, ticker: string, acc: Ledger)
    requires ticker in prices
  {
    !OverBudget(acc.cash, -Net(LotsAt(positions, ticker)), prices[ticker].open)
  }

  /** Clearing the given tickers one after another, each at its latest opening price, as
      successive `marketClearPosition` calls do: a clear the budget check rejects changes
      nothing. The resulting book and ledger, and whether every clear was accepted. */
  function ClearAll(positions: map<string, seq<Lot>>, prices: map<string, PricePoint>, tickers: seq<string>, acc: Ledger)
    : (map<string, seq<Lot>>, Ledger, bool)
    requires forall t | t in tickers :: t in prices && prices[t].open > 0.0
    requires forall t | t in positions :: Queue(positions[t], t)
    decreases |tickers|
  {
    if tickers == [] then (positions, acc, true)
    else
      var t := tickers[0];
      if !ClearAccepted(positions, prices, t, acc) then
        var (after, ledger, _) := ClearAll(positions, prices, tickers[1..], acc);
        (after, ledger, false)
      else
        ClearRealizes(positions, prices, t, acc);
        var b := Cleared(positions, prices, t, acc);
        ClearAll(positions[t := b.lots], prices, tickers[1..], b.ledger)
  }

  /** Clearing a list of tickers leaves every other ticker's queue alone and keeps realized
      P&L plus portfolio value unchanged; when every clear is accepted, each listed ticker is
      left flat. */
  lemma {:induction false} ClearAllRealizes(positions: map<string, seq<Lot>>, prices: map<string, PricePoint>,
                                            tickers: seq<string>, acc: Ledger)
    requires forall t | t in tickers :: t in prices && prices[t].open > 0.0
    requires forall t | t in positions :: Queue(positions[t], t)
    ensures var (after, ledger, accepted) := ClearAll(positions, prices, tickers, acc);
      && (accepted ==> forall t | t in tickers :: LotsAt(after, t) == [])
      && (forall t | t !in tickers :: LotsAt(after, t) == LotsAt(positions, t))
      && ledger.abs + MapSums.Total(Marks(after, prices)) == acc.abs + MapSums.Total(Marks(positions, prices))
    decreases |tickers|
  {
    if tickers != [] {
      var t := tickers[0];
      assert forall u | u in tickers :: u == t || u in tickers[1..];
      if !ClearAccepted(positions, prices, t, acc) {
        ClearAllRealizes(positions, prices, tickers[1..], acc);
      } else {
        ClearRealizes(positions, prices, t, acc);
        var b := Cleared(positions, prices, t, acc);
        ClearAllRealizes(positions[t := b.lots], prices, tickers[1..], b.ledger);
      }
    }
  }

  /** Clearing every ticker that holds lots, each at its latest opening price, when the budget
      check accepts every clear, leaves every net amount at 0 and adds exactly the portfolio
      value to the realized P&L. */
  lemma ClearEverything(positions: map<string, seq<Lot>>, prices: map<string, PricePoint>, tickers: seq<string>, acc: Ledger)
    requires forall t | t in tickers :: t in prices && prices[t].open > 0.0
    requires forall t | t in positions :: Queue(positions[t], t) && t in tickers
    requires ClearAll(positions, prices, tickers, acc).2
    ensures var (after, ledger, _) := ClearAll(positions, prices, tickers, acc);
      && (forall t :: Net(LotsAt(after, t)) == 0)
      && ledger.abs == acc.abs + MapSums.Total(Marks(positions, prices))
  {
    ClearAllRealizes(positions, prices, tickers, acc);
    var (after, ledger, _) := ClearAll(positions, prices, tickers, acc);
    assert forall t | t in after :: after[t] == LotsAt(after, t) == [];
    MapSums.TotalZero(Marks(after, prices));
  }

  /** Clearing a long position, or a flat one, is always accepted: it only brings cash in. */
  lemma ClearLongAccepted(positions: map<string, seq<Lot>>, prices: map<string, PricePoint>, ticker: string, acc: Ledger)
    requires ticker in prices && prices[ticker].open > 0.0 && acc.cash >= 0.0
    requires Net(LotsAt(positions, ticker)) >= 0
    ensures ClearAccepted(positions, prices, ticker, acc)
  {
    ClearOverBudget(acc.cash, Net(LotsAt(positions, ticker)), prices[ticker].open);
  }

  /** Replacing one ticker's queue and ledger keeps the books consistent when the new queue is
      well formed, cash stays non-negative, the drawdown does not rise, and the cost basis moves
      by the cash paid plus the P&L realized. */
  lemma Rebooked(positions: map<string, seq<Lot>>, amounts: map<string, int>, cash: real, result: Result,
                 accountValue: real, ticker: string, lots: seq<Lot>, ledger: Ledger)
    requires Books(positions, amounts, cash, result, accountValue)
    requires Queue(lots, ticker) && ledger.cash >= 0.0 && ledger.drawdown <= result.maxDrawdown
    requires Cost(lots) - Cost(LotsAt(positions, ticker)) == (cash - ledger.cash) + (ledger.abs - result.absPerformance)
    ensures Books(positions[ticker := lots], amounts[ticker := Net(lots)], ledger.cash,
                  Booked(result, ledger, accountValue), accountValue)
  {
    CostsUpdate(positions, ticker, lots);
  }

  /** Every accepted order keeps the books consistent: the budget check admits exactly the
      orders after which the cash stays non-negative, and cash plus cost basis moves by the
      P&L the order realizes. */
  lemma ExecuteKeepsBooks(positions: map<string, seq<Lot>>, amounts: map<string, int>, cash: real, result: Result,
                          accountValue: real, ticker: string, amount: int, price: real, timeStamp: int)
    requires Books(positions, amounts, cash, result, accountValue)
    requires price > 0.0 && cash - amount as real * price >= 0.0
    ensures Queue(LotsAt(positions, ticker), ticker)
    ensures var b := Execute(LotsAt(positions, ticker), ticker, amount, price, timeStamp,
                             Ledger(cash, result.absPerformance, result.maxDrawdown));
      Books(positions[ticker := b.lots], amounts[ticker := Net(b.lots)], b.ledger.cash,
            Booked(result, b.ledger, accountValue), accountValue)
  {
    var lots := LotsAt(positions, ticker);
    var acc := Ledger(cash, result.absPerformance, result.maxDrawdown);
    var b := Execute(lots, ticker, amount, price, timeStamp, acc);
    ExecuteQueue(lots, ticker, amount, price, timeStamp, acc);
    ExecuteCost(lots, ticker, amount, price, timeStamp, acc);
    ExecuteAbs(lots, ticker, amount, price, timeStamp, acc);
    Rebooked(positions, amounts, cash, result, accountValue, ticker, b.lots, b.ledger);
  }

  /** One step of a close that consumes the whole oldest lot: the close goes on with the
      rest of the queue and the ledger after that lot's fill. */
  lemma ConsumeWhole(lots: seq<Lot>, ticker: string, shares: nat, price: real, acc: Ledger)
    requires Queue(lots, ticker) && 0 < shares <= Abs(Net(lots)) && price > 0.0
    requires lots != [] && Abs(lots[|lots| - 1].amount) <= shares
    ensures var oldest := lots[|lots| - 1];
      var prefix := lots[..|lots| - 1];
      var rest := shares - Abs(oldest.amount);
      && Queue(prefix, ticker)
      && Net(prefix) == Net(lots) - oldest.amount
      && rest <= Abs(Net(prefix))
      && Close(lots, shares, price, acc) == Close(prefix, rest, price, Fill(acc, oldest, Abs(oldest.amount), price))
  {
    QueueNet(lots, ticker);
    PrefixQueue(lots, ticker);
  }

  /** The last step of a close, which consumes the oldest lot only in part: that lot stays
      with a smaller amount and the close is complete. */
  lemma ConsumePart(lots: seq<Lot>, ticker: string, shares: nat, price: real, acc: Ledger)
    requires Queue(lots, ticker) && 0 < shares <= Abs(Net(lots)) && price > 0.0
    requires lots != [] && shares < Abs(lots[|lots| - 1].amount)
    ensures var oldest := lots[|lots| - 1];
      var rest := lots[..|lots| - 1] + [oldest.(amount := Shrink(oldest.amount, shares))];
      && Queue(rest, ticker)
      && Net(rest) == Net(lots) - oldest.amount + Shrink(oldest.amount, shares)
      && Close(lots, shares, price, acc) == Close(rest, 0, price, Fill(acc, oldest, shares, price))
  {
    var oldest := lots[|lots| - 1];
    var rest := lots[..|lots| - 1] + [oldest.(amount := Shrink(oldest.amount, shares))];
    CloseQueue(lots, ticker, shares);
    assert rest[..|rest| - 1] == lots[..|lots| - 1];
  }

  /** The fills of a close, oldest lot first: while shares remain, fill the oldest lot, and
      either drop it (consumed whole) or shrink it and stop. Returns the queue, its net amount
      and the ledger after the close. */
  method CloseOldestFirst(queue: seq<Lot>, ticker: string, amount: int, shares: nat, price: real, start: Ledger)
    returns (lots: seq<Lot>, net: int, ledger: Ledger)
    requires Queue(queue, ticker) && amount == Net(queue) && shares <= Abs(amount) && price > 0.0
    ensures Book(lots, ledger) == Close(queue, shares, price, start)
    ensures Queue(lots, ticker) && net == Net(lots) && net == Shrink(amount, shares)
  {
    lots, net, ledger := queue, amount, start;
    var remaining: nat := shares;
    while remaining > 0
      invariant Queue(lots, ticker) && net == Net(lots)
      invariant remaining <= Abs(Net(lots))
      invariant Close(lots, remaining, price, ledger) == Close(queue, shares, price, start)
      decreases remaining
    {
      QueueNet(lots, ticker);
      var oldest := lots[|lots| - 1];
      var held := Abs(oldest.amount);
      if held <= remaining {
        ConsumeWhole(lots, ticker, remaining, price, ledger);
        ledger := Fill(ledger, oldest, held, price);
        lots := lots[..|lots| - 1];
        net := net - oldest.amount;
        remaining := remaining - held;
      } else {
        ConsumePart(lots, ticker, remaining, price, ledger);
        ledger := Fill(ledger, oldest, remaining, price);
        lots := lots[..|lots| - 1] + [oldest.(amount := Shrink(oldest.amount, remaining))];
        net := net - oldest.amount + Shrink(oldest.amount, remaining);
        remaining := 0;
      }
    }
    CloseQueue(queue, ticker, shares);
  }

  /** An order that crosses zero is booked as two: the order that closes the whole position,
      then, on the empty queue, the order for the residual. The residual order passes the
      budget check whenever the whole order does. */
  lemma FlipComposes(lots: seq<Lot>, ticker: string, amount: int, price: real, timeStamp: int, acc: Ledger)
    requires Queue(lots, ticker) && price > 0.0
    requires RouteOf(Net(lots), amount) == Flip
    ensures var mid := Execute(lots, ticker, -Net(lots), price, timeStamp, acc);
      && mid == Close(lots, Abs(Net(lots)), price, acc)
      && mid.lots == []
      && Execute([], ticker, Net(lots) + amount, price, timeStamp, mid.ledger)
         == Execute(lots, ticker, amount, price, timeStamp, acc)
      && mid.ledger.cash - (Net(lots) + amount) as real * price == acc.cash - amount as real * price
      && Logged(lots, ticker, amount, price, timeStamp)
         == [Lot(ticker, amount, price, timeStamp)] + Logged([], ticker, Net(lots) + amount, price, timeStamp)
  {
    var current := Net(lots);
    RouteMeaning(current, amount);
    CloseAllEmpties(lots, ticker);
    FlipCash(lots, ticker, amount, current + amount, price, timeStamp, acc);
    RouteMeaning(0, current + amount);
  }

  /**
   * A market order of `amount` shares (positive long, negative short) at `price` against one
   * ticker's queue `lots` with net amount `net`, on the values the exchange holds. Rejected
   * with 1, changing nothing, when its cost would take the cash below zero. Otherwise booked
   * along its route, returning 0 with the new queue, its net amount, the ledger and the audit
   * log entries: close the position, reduce it oldest lot first, close it and place the
   * residual as a new order at the same price and timestamp, or open a lot at the head.
   */
  method BookOrder(lots: seq<Lot>, net: int, ledger: Ledger, ticker: string, amount: int, price: real, timeStamp: int)
    returns (code: int, after: seq<Lot>, afterNet: int, out: Ledger, log: seq<Lot>)
    requires Queue(lots, ticker) && net == Net(lots) && price > 0.0
    decreases Abs(amount)
    ensures code == 0 || code == 1
    ensures code == 1 <==> OverBudget(ledger.cash, amount, price)
    ensures code == 1 ==> after == lots && afterNet == net && out == ledger && log == []
    ensures code == 0 ==>
      && Book(after, out) == Execute(lots, ticker, amount, price, timeStamp, ledger)
      && afterNet == Net(after)
      && log == Logged(lots, ticker, amount, price, timeStamp)
  {
    if amount as real * price * -1.0 + ledger.cash < 0.0 {
      return 1, lots, net, ledger, [];
    }
    log := [Lot(ticker, amount, price, timeStamp)];
    RouteMeaning(net, amount);
    var route := RouteOf(net, amount);
    if route == Flip {
      FlipComposes(lots, ticker, amount, price, timeStamp, ledger);
      var cleared, clearedNet, clearedLedger := CloseOldestFirst(lots, ticker, net, Abs(net), price, ledger);
      assert Book(cleared, clearedLedger) == Execute(lots, ticker, -net, price, timeStamp, ledger);
      assert clearedLedger.cash - (net + amount) as real * price >= 0.0;
      var residualCode, residualLog;
      residualCode, after, afterNet, out, residualLog :=
        BookOrder(cleared, clearedNet, clearedLedger, ticker, net + amount, price, timeStamp);
      assert residualCode == 0;
      log := log + residualLog;
    } else if route == Extend {
      var lot := Lot(ticker, amount, price, timeStamp);
      ExtendQueue(lots, ticker, lot);
      ExecuteExtends(lots, ticker, amount, price, timeStamp, ledger);
      after, afterNet, out := [lot] + lots, net + amount, ledger.(cash := ledger.cash - amount as real * price);
    } else {
      ExecuteCloses(lots, ticker, amount, price, timeStamp, ledger);
      after, afterNet, out := CloseOldestFirst(lots, ticker, net, Abs(amount), price, ledger);
    }
    code := 0;
  }

  /** The opening scenario of the exchange's test: with a budget of 1e9, two purchases of 1000
      AAPL at 100 stack newest first, and selling 2000 at 10000 empties the queue and books an
      absolute performance of 19800000, a relative performance of 0.0198. */
  lemma TestBuyTwiceSellAll()
    ensures var acc := Ledger(1000000000.0, 0.0, 0.0);
      var first := Execute([], "AAPL", 1000, 100.0, 1234567, acc);
      var second := Execute(first.lots, "AAPL", 1000, 100.0, 7654321, first.ledger);
      var third := Execute(second.lots, "AAPL", -2000, 10000.0, 1234567, second.ledger);
      && first.lots == [Lot("AAPL", 1000, 100.0, 1234567)]
      && second.lots[0] == Lot("AAPL", 1000, 100.0, 7654321)
      && third.lots == [] && Net(third.lots) == 0
      && Booked(Blank(), third.ledger, 1000000000.0).absPerformance == 19800000.0
      && Booked(Blank(), third.ledger, 1000000000.0).relPerformance == 0.0198
  {
    var acc := Ledger(1000000000.0, 0.0, 0.0);
    var first := Execute([], "AAPL", 1000, 100.0, 1234567, acc);
    ExecuteExtends([], "AAPL", 1000, 100.0, 1234567, acc);
    ExtendQueue([], "AAPL", Lot("AAPL", 1000, 100.0, 1234567));
    var second := Execute(first.lots, "AAPL", 1000, 100.0, 7654321, first.ledger);
    ExecuteExtends(first.lots, "AAPL", 1000, 100.0, 7654321, first.ledger);
    ExtendQueue(first.lots, "AAPL", Lot("AAPL", 1000, 100.0, 7654321));
    assert Net(second.lots) == 2000;
    ExecuteClears(second.lots, "AAPL", 10000.0, 1234567, second.ledger);
    PushHead(first.lots, Lot("AAPL", 1000, 100.0, 7654321), 10000.0);
    PushHead([], Lot("AAPL", 1000, 100.0, 1234567), 10000.0);
  }

  /** The full-close scenarios of the test: short 1000 at 100 and buy them back at 10, or
      long 1000 at 10 and sell them at 100; each realizes 90000 and leaves the ticker flat. */
  lemma TestFullCloses(acc: Ledger)
    ensures var short := Execute([], "AAPL", -1000, 100.0, 7654321, acc);
      var cover := Execute(short.lots, "AAPL", 1000, 10.0, 7654321, short.ledger);
      && cover.ledger.abs == acc.abs + 90000.0 && cover.lots == []
    ensures var long := Execute([], "AAPL", 1000, 10.0, 7654321, acc);
      var sell := Execute(long.lots, "AAPL", -1000, 100.0, 7654321, long.ledger);
      && sell.ledger.abs == acc.abs + 90000.0 && sell.lots == []
  {
    RoundTrip("AAPL", -1000, 100.0, 10.0, 7654321, 7654321, acc);
    RoundTrip("AAPL", 1000, 10.0, 100.0, 7654321, 7654321, acc);
  }

  /** The partial-close scenarios of the test: short 2000 at 100 and buy back 1000 at 10, or
      long 2000 at 10 and sell 1000 at 100; each realizes 90000 and leaves 1000 shares open on
      the position's side. */
  lemma TestPartialCloses(acc: Ledger)
    ensures var short := Execute([], "AAPL", -2000, 100.0, 7654321, acc);
      var cover := Execute(short.lots, "AAPL", 1000, 10.0, 7654321, short.ledger);
      && cover.ledger.abs == acc.abs + 90000.0 && Net(cover.lots) == -1000
    ensures var long := Execute([], "AAPL", 2000, 10.0, 7654321, acc);
      var sell := Execute(long.lots, "AAPL", -1000, 100.0, 7654321, long.ledger);
      && sell.ledger.abs == acc.abs + 90000.0 && Net(sell.lots) == 1000
  {
    PartialClose(acc, -2000, 100.0, 10.0);
    PartialClose(acc, 2000, 10.0, 100.0);
  }

  /** Opening `amount` shares at `entry` and then closing half of them at `exit` realizes half
      the position's P&L and leaves the other half open. */
  lemma PartialClose(acc: Ledger, amount: int, entry: real, exit: real)
    requires amount != 0 && amount % 2 == 0 && entry > 0.0 && exit > 0.0
    ensures var opening := Execute([], "AAPL", amount, entry, 7654321, acc);
      var closed := Execute(opening.lots, "AAPL", -amount / 2, exit, 7654321, opening.ledger);
      && closed.ledger.abs == acc.abs + (amount / 2) as real * (exit - entry)
      && Net(closed.lots) == amount / 2
  {
    var opening := Execute([], "AAPL", amount, entry, 7654321, acc);
    OpenOneLot(acc, amount, entry);
    HalfClose(Lot("AAPL", amount, entry, 7654321), exit, opening.ledger);
  }

  /** An order on a flat ticker opens a single lot and realizes nothing. */
  lemma OpenOneLot(acc: Ledger, amount: int, entry: real)
    requires amount != 0 && entry > 0.0
    ensures Execute([], "AAPL", amount, entry, 7654321, acc).lots == [Lot("AAPL", amount, entry, 7654321)]
  {
    ExecuteExtends([], "AAPL", amount, entry, 7654321, acc);
  }

  /** Closing half of a single lot at `exit` realizes half its P&L and leaves half open. */
  lemma HalfClose(lot: Lot, exit: real, acc: Ledger)
    requires lot.ticker == "AAPL" && lot.amount != 0 && lot.amount % 2 == 0 && lot.price > 0.0 && exit > 0.0
    ensures var closed := Execute([lot], "AAPL", -lot.amount / 2, exit, 7654321, acc);
      && closed.ledger.abs == acc.abs + (lot.amount / 2) as real * (exit - lot.price)
      && Net(closed.lots) == lot.amount / 2
  {
    var amount := lot.amount;
    assert Queue([lot], "AAPL");
    ExecuteAbs([lot], "AAPL", -amount / 2, exit, 7654321, acc);
    ExecuteQueue([lot], "AAPL", -amount / 2, exit, 7654321, acc);
    ExecuteReducesOldestFirst([lot], "AAPL", -amount / 2, exit, 7654321, acc);
    var closed := Execute([lot], "AAPL", -amount / 2, exit, 7654321, acc);
    assert closed.lots == [lot.(amount := amount / 2)];
    HalvedPnl(lot, closed.lots, exit);
  }

  /** A lot and the same lot with half its amount differ in unrealized P&L by the P&L of the
      other half. */
  lemma HalvedPnl(lot: Lot, rest: seq<Lot>, exit: real)
    requires lot.amount % 2 == 0 && rest == [lot.(amount := lot.amount / 2)]
    ensures Unrealized([lot], exit) - Unrealized(rest, exit) == (lot.amount / 2) as real * (exit - lot.price)
  {
    UnrealizedLast([lot], exit);
    UnrealizedLast(rest, exit);
    assert [lot][..0] == [] && rest[..0] == [];
    assert lot.amount as real * (exit - lot.price) - (lot.amount / 2) as real * (exit - lot.price)
        == (lot.amount / 2) as real * (exit - lot.price);
  }

  /** The entries of `m` whose keys are in `keys`. */
  function Restrict(m: map<string, real>, keys: set<string>): map<string, real> {
    map t | t in m && t in keys :: m[t]
  }

  /** Removing one key from the keys kept by `Restrict` removes that key's entry from the total. */
  lemma RestrictStep(m: map<string, real>, keys: set<string>, key: string)
    requires key in keys
    ensures MapSums.Total(Restrict(m, keys))
      == (if key in m then m[key] else 0.0) + MapSums.Total(Restrict(m, keys - {key}))
  {
    var r := Restrict(m, keys);
    assert Restrict(m, keys - {key}) == r - {key};
    if key in m {
      MapSums.TotalRemove(r, key);
    } else {
      assert r - {key} == r;
    }
  }

  /** The portfolio-value loop: visit the tickers with open lots one at a time, adding the
      unrealized P&L of those that have a latest price. */
  method PortfolioValueOf(positions: map<string, seq<Lot>>, prices: map<string, PricePoint>) returns (value: real)
    ensures value == MapSums.Total(Marks(positions, prices))
  {
    ghost var marks := Marks(positions, prices);
    var pending := positions.Keys;
    value := 0.0;
    assert Restrict(marks, pending) == marks;
    while pending != {}
      invariant pending <= positions.Keys
      invariant value + MapSums.Total(Restrict(marks, pending)) == MapSums.Total(marks)
      decreases pending
    {
      var ticker :| ticker in pending;
      RestrictStep(marks, pending, ticker);
      if ticker in prices {
        var mark := UnrealizedAt(positions[ticker], prices[ticker].open);
        value := value + mark;
      }
      pending := pending - {ticker};
    }
    assert Restrict(marks, {}) == map[];
  }

  /** The unrealized P&L of a queue at `price`, accumulated lot by lot. */
  method UnrealizedAt(lots: seq<Lot>, price: real) returns (pnl: real)
    ensures pnl == Unrealized(lots, price)
  {
    pnl := 0.0;
    for i := 0 to |lots|
      invariant pnl == Unrealized(lots[..i], price)
    {
      assert lots[..i + 1][..i] == lots[..i];
      pnl := pnl + lots[i].amount as real * (price - lots[i].price);
    }
    assert lots[..|lots|] == lots;
  }

  class StockExchange {
    /** The initial budget. */
    const accountValue: real
    /** The cash available for new orders. */
    var currentAccountValue: real
    /** Per ticker, the open lots, newest first. */
    var openPositions: map<string, seq<Lot>>
    /** Per ticker, the net signed amount of its open lots. */
    var openPositionAmounts: map<string, int>
    var result: Result
    /** The latest observed price point per ticker. */
    var currentPrices: map<string, PricePoint>
    /** Every accepted order, in order (an audit log nothing reads). */
    ghost var transactions: seq<Lot>

    ghost predicate Valid()
      reads this
    {
      && Books(openPositions, openPositionAmounts, currentAccountValue, result, accountValue)
      && forall t | t in currentPrices :: currentPrices[t].open > 0.0
    }

    /** Cash, realized P&L and drawdown together. */
    function LedgerNow(): Ledger
      reads this
    {
      Ledger(currentAccountValue, result.absPerformance, result.maxDrawdown)
    }

    /** A ticker's net amount, 0 for a ticker never traded. */
    function NetAt(ticker: string): int
      reads this
    {
      if ticker in openPositionAmounts then openPositionAmounts[ticker] else 0
    }

    /** The mark-to-market value of the open book at the latest opening prices. */
    ghost function PortfolioValue(): real
      reads this
    {
      MapSums.Total(Marks(openPositions, currentPrices))
    }

    constructor (budget: real)
      requires budget > 0.0
      ensures Valid()
      ensures accountValue == budget && currentAccountValue == budget
      ensures openPositions == map[] && openPositionAmounts == map[] && currentPrices == map[]
      ensures result == Blank() && transactions == []
    {
      accountValue := budget;
      currentAccountValue := budget;
      openPositions := map[];
      openPositionAmounts := map[];
      result := Blank();
      currentPrices := map[];
      transactions := [];
      assert Costs(map[]) == map[];
    }

    /** Record the latest price point observed for a ticker. */
    method RecordPrice(ticker: string, point: PricePoint)
      requires Valid() && point.open > 0.0
      modifies this
      ensures Valid()
      ensures currentPrices == old(currentPrices)[ticker := point]
      ensures openPositions == old(openPositions) && openPositionAmounts == old(openPositionAmounts)
      ensures currentAccountValue == old(currentAccountValue) && result == old(result)
      ensures transactions == old(transactions)
    {
      currentPrices := currentPrices[ticker := point];
    }

    /** The state after booking `b` for `ticker` from the state `old`: the ticker's queue and
        net amount, the cash and the performance record follow `b`; nothing else changes. */
    twostate predicate BookedAs(ticker: string, b: Book)
      reads this
    {
      && accountValue != 0.0
      && openPositions == old(openPositions)[ticker := b.lots]
      && openPositionAmounts == old(openPositionAmounts)[ticker := Net(b.lots)]
      && currentAccountValue == b.ledger.cash
      && result == Booked(old(result), b.ledger, accountValue)
      && currentPrices == old(currentPrices)
    }

    /** Store a booked order: the ticker's new queue and net amount, the new ledger and the
        audit log entries, when these keep the books consistent. */
    method Commit(ticker: string, after: seq<Lot>, afterNet: int, out: Ledger, log: seq<Lot>)
      requires Valid()
      requires Books(openPositions[ticker := after], openPositionAmounts[ticker := afterNet], out.cash,
                     Booked(result, out, accountValue), accountValue)
      modifies this
      ensures Valid()
      ensures openPositions == old(openPositions)[ticker := after]
      ensures openPositionAmounts == old(openPositionAmounts)[ticker := afterNet]
      ensures currentAccountValue == out.cash && result == Booked(old(result), out, accountValue)
      ensures currentPrices == old(currentPrices) && transactions == old(transactions) + log
    {
      openPositions, openPositionAmounts, currentAccountValue, result, transactions :=
        openPositions[ticker := after], openPositionAmounts[ticker := afterNet], out.cash,
        Booked(result, out, accountValue), transactions + log;
    }

    /**
     * `marketOrder`: a market order of `amount` shares at `price`. Rejected with 1, changing
     * nothing, when its cost would take the available cash below zero; otherwise logged and
     * booked (see `BookOrder`), returning 0.
     */
    method MarketOrder(ticker: string, amount: int, price: real, timeStamp: int) returns (code: int)
      requires Valid() && price > 0.0
      modifies this
      ensures Valid()
      ensures code == 0 || code == 1
      ensures code == 1 <==> OverBudget(old(currentAccountValue), amount, price)
      ensures code == 1 ==> unchanged(this)
      ensures code == 0 ==>
        && BookedAs(ticker, Execute(old(LotsAt(openPositions, ticker)), ticker, amount, price, timeStamp, old(LedgerNow())))
        && transactions == old(transactions) + Logged(old(LotsAt(openPositions, ticker)), ticker, amount, price, timeStamp)
    {
      var lots := LotsAt(openPositions, ticker);
      var after, afterNet, out, log;
      code, after, afterNet, out, log := BookOrder(lots, NetAt(ticker), LedgerNow(), ticker, amount, price, timeStamp);
      if code == 1 {
        return;
      }
      ExecuteKeepsBooks(openPositions, openPositionAmounts, currentAccountValue, result, accountValue, ticker, amount, price, timeStamp);
      Commit(ticker, after, afterNet, out, log);
    }

    /**
     * `marketClearPosition`: close the whole position with a market order for minus the net
     * amount at the ticker's latest opening price and timestamp. Fails, changing nothing, when
     * no price has been observed for the ticker; otherwise returns the order's code. An
     * accepted clear leaves the ticker flat, realizes the position's whole unrealized P&L, and
     * so moves value from the portfolio value into the absolute performance.
     */
    method MarketClearPosition(ticker: string) returns (r: Outcome<int, ClearError>)
      requires Valid()
      modifies this
      ensures Valid()
      ensures r == Err(NoCurrentPrice) <==> ticker !in old(currentPrices)
      ensures r.Err? || r == Ok(1) ==> unchanged(this)
      ensures r.Ok? ==> r.value == 0 || r.value == 1
      ensures r.Ok? ==>
        (r.value == 1 <==> OverBudget(old(currentAccountValue), -old(NetAt(ticker)), old(currentPrices[ticker].open)))
      ensures r == Ok(0) ==>
        && BookedAs(ticker, Cleared(old(openPositions), old(currentPrices), ticker, old(LedgerNow())))
        && transactions == old(transactions) + Logged(old(LotsAt(openPositions, ticker)), ticker, -old(NetAt(ticker)),
                                                      old(currentPrices[ticker].open), old(currentPrices[ticker].windowStart))
    {
      if ticker !in currentPrices {
        return Err(NoCurrentPrice);
      }
      var point := currentPrices[ticker];
      var code := MarketOrder(ticker, -NetAt(ticker), point.open, point.windowStart);
      r := Ok(code);
    }

    /**
     * `getCurrentPortfolioValue`: the unrealized P&L of every open lot against its ticker's
     * latest opening price, summed ticker by ticker; tickers without a price count nothing.
     */
    method CurrentPortfolioValue() returns (value: real)
      requires Valid()
      ensures value == PortfolioValue()
    {
      value := PortfolioValueOf(openPositions, currentPrices);
    }
  }
}
