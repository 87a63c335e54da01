/**
 * The per-ticker lot queue of the stock exchange and the accounting of one market order on it.
 *
 * A queue holds the open lots of one ticker, NEWEST FIRST (index 0 is what the Java deque's
 * `getFirst()` returns). Orders that reduce a position consume the OLDEST lot first, that is
 * from the end of the sequence. All lots of one queue share the sign of the position.
 */
module Lots {

  /** One open position entry, the `Transaction(ticker, amount, price, timeStamp)` record.
      A positive amount is a long lot, a negative amount a short lot. */
  datatype Lot = Lot(ticker: string, amount: int, price: real, timeStamp: int)

  /** What a fill changes besides the queue: available cash, realized P&L and the drawdown. */
  datatype Ledger = Ledger(cash: real, abs: real, drawdown: real)

  /** One ticker's queue together with the ledger. */
  datatype Book = Book(lots: seq<Lot>, ledger: Ledger)

  function Sign(x: int): int {
    if x > 0 then 1 else if x < 0 then -1 else 0
  }

  function Abs(x: int): nat {
    if x < 0 then -x else x
  }

  /** Net signed amount of a queue: the sum of its lots' amounts. */
  function Net(lots: seq<Lot>): int {
    if lots == [] then 0 else Net(lots[..|lots| - 1]) + lots[|lots| - 1].amount
  }

  /** Cost basis of a queue: the sum of amount times entry price. */
  function Cost(lots: seq<Lot>): real {
    if lots == [] then 0.0
    else Cost(lots[..|lots| - 1]) + lots[|lots| - 1].amount as real * lots[|lots| - 1].price
  }

  /** Mark-to-market (unrealized) P&L of a queue at `price`. */
  function Unrealized(lots: seq<Lot>, price: real): real {
    if lots == [] then 0.0
    else Unrealized(lots[..|lots| - 1], price)
         + lots[|lots| - 1].amount as real * (price - lots[|lots| - 1].price)
  }

  /** Every lot has a non-zero amount and a positive entry price. */
  predicate Priced(lots: seq<Lot>) {
    forall i | 0 <= i < |lots| :: lots[i].amount != 0 && lots[i].price > 0.0
  }

  /** A well-formed queue for `ticker`: priced lots of that ticker, all of one sign. */
  predicate Queue(lots: seq<Lot>, ticker: string) {
    && Priced(lots)
    && forall i | 0 <= i < |lots| :: lots[i].ticker == ticker && Sign(lots[i].amount) == Sign(lots[0].amount)
  }

  /** The net amount of a queue is zero exactly when the queue is empty, and otherwise has
      the sign of its lots; its magnitude is the sum of the lots' magnitudes. */
  lemma {:induction false} QueueNet(lots: seq<Lot>, ticker: string)
    requires Queue(lots, ticker)
    ensures lots == [] <==> Net(lots) == 0
    ensures lots != [] ==> Sign(Net(lots)) == Sign(lots[0].amount)
    ensures lots != [] ==> Abs(Net(lots)) == Abs(Net(lots[..|lots| - 1])) + Abs(lots[|lots| - 1].amount)
  {
    if lots != [] {
      var prefix := lots[..|lots| - 1];
      assert forall i | 0 <= i < |prefix| :: prefix[i] == lots[i];
      assert Queue(prefix, ticker);
      QueueNet(prefix, ticker);
    }
  }

  /** P&L realized by closing `shares` shares of `lot` at `price`: shares times (price - entry)
      for a long lot, shares times (entry - price) for a short lot. */
  function FillPnl(lot: Lot, shares: nat, price: real): real {
    if lot.amount >= 0 then shares as real * (price - lot.price)
    else shares as real * (lot.price - price)
  }

  /** The fill's return: its P&L over the cost basis of the shares it closes. */
  function FillReturn(lot: Lot, shares: nat, price: real): real
    requires shares > 0 && lot.price > 0.0
  {
    FillPnl(lot, shares, price) / (shares as real * lot.price)
  }

  /** Closing all of a lot realizes exactly its mark-to-market value, for both signs. */
  lemma FillPnlIsMarkToMarket(lot: Lot, price: real)
    ensures FillPnl(lot, Abs(lot.amount), price) == lot.amount as real * (price - lot.price)
    ensures FillPnl(lot, Abs(lot.amount), price) == Unrealized([lot], price)
  {
    assert [lot][..0] == [];
  }

  /** Book one closing fill: the cash the closing trade moves, the realized P&L, and the
      drawdown lowered to the fill's return when that is lower. */
  function Fill(acc: Ledger, lot: Lot, shares: nat, price: real): Ledger
    requires shares > 0 && lot.price > 0.0
  {
    var ret := FillReturn(lot, shares, price);
    Ledger(if lot.amount > 0 then acc.cash + shares as real * price else acc.cash - shares as real * price,
           acc.abs + FillPnl(lot, shares, price),
           if acc.drawdown > ret then ret else acc.drawdown)
  }

  /** Move a signed amount toward zero by `shares`. */
  function Shrink(amount: int, shares: nat): int {
    if amount > 0 then amount - shares else amount + shares
  }

  /** The queue left after closing `shares` shares, consuming the oldest lot first.
      A lot that is consumed only in part keeps its entry price and timestamp. */
  function CloseLots(lots: seq<Lot>, shares: nat): seq<Lot>
    decreases |lots|
  {
    if shares == 0 || lots == [] then lots
    else
      var oldest := lots[|lots| - 1];
      if Abs(oldest.amount) <= shares then CloseLots(lots[..|lots| - 1], shares - Abs(oldest.amount))
      else lots[..|lots| - 1] + [oldest.(amount := Shrink(oldest.amount, shares))]
  }

  /** The ledger after closing `shares` shares at `price`: one `Fill` per lot the close
      touches, oldest lot first. */
  function Settle(lots: seq<Lot>, shares: nat, price: real, acc: Ledger): Ledger
    requires Priced(lots)
    decreases |lots|
  {
    if shares == 0 || lots == [] then acc
    else
      var oldest := lots[|lots| - 1];
      if Abs(oldest.amount) <= shares then
        Settle(lots[..|lots| - 1], shares - Abs(oldest.amount), price, Fill(acc, oldest, Abs(oldest.amount), price))
      else Fill(acc, oldest, shares, price)
  }

  /** Close `shares` shares of the position at `price`: the surviving queue and the ledger. */
  function Close(lots: seq<Lot>, shares: nat, price: real, acc: Ledger): Book
    requires Priced(lots)
  {
    Book(CloseLots(lots, shares), Settle(lots, shares, price, acc))
  }

  /** Consuming the whole oldest lot: the close continues on the queue without it. */
  lemma CloseLotsAll(lots: seq<Lot>, shares: nat)
    requires lots != [] && 0 < shares && Abs(lots[|lots| - 1].amount) <= shares
    ensures CloseLots(lots, shares) == CloseLots(lots[..|lots| - 1], shares - Abs(lots[|lots| - 1].amount))
  {
  }

  /** What closing leaves: a prefix of the queue whose last lot may have lost part of its
      amount but keeps its sign, ticker, entry price and timestamp. */
  lemma {:induction false} CloseShape(lots: seq<Lot>, shares: nat)
    ensures var rest := CloseLots(lots, shares);
      && |rest| <= |lots|
      && (forall i | 0 <= i < |rest| - 1 :: rest[i] == lots[i])
      && (rest != [] ==>
            && rest[|rest| - 1] == lots[|rest| - 1].(amount := rest[|rest| - 1].amount)
            && Sign(rest[|rest| - 1].amount) == Sign(lots[|rest| - 1].amount))
    decreases |lots|
  {
    if shares != 0 && lots != [] {
      var prefix := lots[..|lots| - 1];
      if Abs(lots[|lots| - 1].amount) <= shares {
        CloseLotsAll(lots, shares);
        CloseShape(prefix, shares - Abs(lots[|lots| - 1].amount));
      } else {
        var rest := CloseLots(lots, shares);
        assert rest == prefix + [lots[|lots| - 1].(amount := Shrink(lots[|lots| - 1].amount, shares))];
      }
    }
  }

  /** Moving a net amount toward zero first by a whole same-signed lot and then by the rest. */
  lemma ShrinkStep(net: int, older: int, amount: int, shares: nat)
    requires net == older + amount && amount != 0
    requires older == 0 || Sign(older) == Sign(amount)
    requires Abs(amount) <= shares <= Abs(net)
    ensures Shrink(net, shares) == Shrink(older, shares - Abs(amount))
    ensures shares - Abs(amount) <= Abs(older)
  {
  }

  lemma PrefixQueue(lots: seq<Lot>, ticker: string)
    requires Queue(lots, ticker) && lots != []
    ensures Queue(lots[..|lots| - 1], ticker)
    ensures Sign(lots[|lots| - 1].amount) == Sign(lots[0].amount)
  {
    var prefix := lots[..|lots| - 1];
    assert forall i | 0 <= i < |prefix| :: prefix[i] == lots[i];
  }

  /** Closing moves the net amount toward zero by exactly `shares`. */
  lemma {:induction false} CloseNet(lots: seq<Lot>, ticker: string, shares: nat)
    requires Queue(lots, ticker) && shares <= Abs(Net(lots))
    ensures Net(CloseLots(lots, shares)) == Shrink(Net(lots), shares)
    decreases |lots|
  {
    if shares != 0 && lots != [] {
      var oldest := lots[|lots| - 1];
      var prefix := lots[..|lots| - 1];
      QueueNet(lots, ticker);
      if Abs(oldest.amount) <= shares {
        PrefixQueue(lots, ticker);
        QueueNet(prefix, ticker);
        ShrinkStep(Net(lots), Net(prefix), oldest.amount, shares);
        CloseLotsAll(lots, shares);
        CloseNet(prefix, ticker, shares - Abs(oldest.amount));
      } else {
        var rest := CloseLots(lots, shares);
        assert rest == prefix + [oldest.(amount := Shrink(oldest.amount, shares))];
        assert rest[..|rest| - 1] == prefix;
      }
    }
  }

  /** Closing keeps the queue well formed, moves the net amount toward zero by exactly
      `shares`, and leaves every lot newer than the oldest surviving one untouched; the
      oldest surviving lot keeps everything but (a smaller part of) its amount. */
  lemma CloseQueue(lots: seq<Lot>, ticker: string, shares: nat)
    requires Queue(lots, ticker) && shares <= Abs(Net(lots))
    ensures var rest := CloseLots(lots, shares);
      && Queue(rest, ticker)
      && Net(rest) == Shrink(Net(lots), shares)
      && |rest| <= |lots|
      && (forall i | 0 <= i < |rest| - 1 :: rest[i] == lots[i])
      && (rest != [] ==>
            && rest[|rest| - 1] == lots[|rest| - 1].(amount := rest[|rest| - 1].amount)
            && Sign(rest[|rest| - 1].amount) == Sign(lots[|rest| - 1].amount))
  {
    var rest := CloseLots(lots, shares);
    CloseShape(lots, shares);
    CloseNet(lots, ticker, shares);
    if rest != [] {
      assert Sign(rest[0].amount) == Sign(lots[0].amount);
      assert forall i | 0 <= i < |rest| :: Sign(rest[i].amount) == Sign(lots[i].amount) && rest[i].ticker == lots[i].ticker && rest[i].price == lots[i].price;
    }
  }

  /** Closing the whole position empties the queue. */
  lemma CloseAllEmpties(lots: seq<Lot>, ticker: string)
    requires Queue(lots, ticker)
    ensures CloseLots(lots, Abs(Net(lots))) == []
  {
    var rest := CloseLots(lots, Abs(Net(lots)));
    CloseQueue(lots, ticker, Abs(Net(lots)));
    QueueNet(rest, ticker);
  }

  /** Market value of a queue at `price`: the sum of amount times price over its lots. */
  function Worth(lots: seq<Lot>, price: real): real {
    if lots == [] then 0.0
    else Worth(lots[..|lots| - 1], price) + lots[|lots| - 1].amount as real * price
  }

  /** Unrealized P&L is market value less cost basis, with the market value as `Worth`. */
  lemma {:induction false} UnrealizedIsWorthLessCost(lots: seq<Lot>, price: real)
    ensures Unrealized(lots, price) == Worth(lots, price) - Cost(lots)
  {
    if lots != [] {
      UnrealizedIsWorthLessCost(lots[..|lots| - 1], price);
      var last := lots[|lots| - 1];
      assert last.amount as real * (price - last.price) == last.amount as real * price - last.amount as real * last.price;
    }
  }

  /** A fill moves cash by the value at `price` of the shares it closes. */
  lemma FillCash(acc: Ledger, lot: Lot, shares: nat, price: real)
    requires lot.amount != 0 && lot.price > 0.0 && 0 < shares <= Abs(lot.amount)
    ensures Fill(acc, lot, shares, price).cash
         == acc.cash + lot.amount as real * price - Shrink(lot.amount, shares) as real * price
  {
    var left := Shrink(lot.amount, shares);
    if lot.amount > 0 {
      assert lot.amount as real * price - left as real * price == shares as real * price;
    } else {
      assert lot.amount as real * price - left as real * price == -(shares as real * price);
    }
  }

  /** Consuming the whole oldest lot: the close continues on the older-removed queue with
      the ledger after that lot's fill. */
  lemma SettleAll(lots: seq<Lot>, shares: nat, price: real, acc: Ledger)
    requires Priced(lots) && lots != [] && Abs(lots[|lots| - 1].amount) <= shares
    ensures var oldest := lots[|lots| - 1];
      var rest := shares - Abs(oldest.amount);
      && Priced(lots[..|lots| - 1])
      && Settle(lots, shares, price, acc) == Settle(lots[..|lots| - 1], rest, price, Fill(acc, oldest, Abs(oldest.amount), price))
      && CloseLots(lots, shares) == CloseLots(lots[..|lots| - 1], rest)
  {
  }

  lemma WorthLast(lots: seq<Lot>, price: real)
    requires lots != []
    ensures Worth(lots, price) == Worth(lots[..|lots| - 1], price) + lots[|lots| - 1].amount as real * price
  {
  }

  lemma UnrealizedLast(lots: seq<Lot>, price: real)
    requires lots != []
    ensures Unrealized(lots, price)
         == Unrealized(lots[..|lots| - 1], price) + lots[|lots| - 1].amount as real * (price - lots[|lots| - 1].price)
  {
  }

  /** A fill of a whole lot realizes the lot's whole unrealized P&L. */
  lemma FillAbsAll(acc: Ledger, lot: Lot, price: real)
    requires lot.amount != 0 && lot.price > 0.0
    ensures Fill(acc, lot, Abs(lot.amount), price).abs == acc.abs + lot.amount as real * (price - lot.price)
  {
    FillPnlIsMarkToMarket(lot, price);
  }

  /** A fill of a whole lot moves cash by the lot's value at `price`. */
  lemma FillCashAll(acc: Ledger, lot: Lot, price: real)
    requires lot.amount != 0 && lot.price > 0.0
    ensures Fill(acc, lot, Abs(lot.amount), price).cash == acc.cash + lot.amount as real * price
  {
  }

  /** Consuming part of the oldest lot: the close ends with that lot's fill, and the lot
      stays at the end of the queue with a smaller amount. */
  lemma SettlePart(lots: seq<Lot>, shares: nat, price: real, acc: Ledger)
    requires Priced(lots) && lots != [] && 0 < shares < Abs(lots[|lots| - 1].amount)
    ensures var oldest := lots[|lots| - 1];
      && Settle(lots, shares, price, acc) == Fill(acc, oldest, shares, price)
      && CloseLots(lots, shares) == lots[..|lots| - 1] + [oldest.(amount := Shrink(oldest.amount, shares))]
  {
  }

  /** Settling a close moves cash by the market value it removes from the queue. */
  lemma {:induction false} SettleCash(lots: seq<Lot>, shares: nat, price: real, acc: Ledger)
    requires Priced(lots)
    ensures Settle(lots, shares, price, acc).cash
         == acc.cash + Worth(lots, price) - Worth(CloseLots(lots, shares), price)
    decreases |lots|, 1
  {
    if shares != 0 && lots != [] {
      if Abs(lots[|lots| - 1].amount) <= shares {
        SettleCashAll(lots, shares, price, acc);
      } else {
        SettleCashPart(lots, shares, price, acc);
      }
    }
  }

  lemma {:induction false} SettleCashAll(lots: seq<Lot>, shares: nat, price: real, acc: Ledger)
    requires Priced(lots) && lots != [] && Abs(lots[|lots| - 1].amount) <= shares
    ensures Settle(lots, shares, price, acc).cash
         == acc.cash + Worth(lots, price) - Worth(CloseLots(lots, shares), price)
    decreases |lots|, 0
  {
    var oldest := lots[|lots| - 1];
    var acc' := Fill(acc, oldest, Abs(oldest.amount), price);
    WorthLast(lots, price);
    FillCashAll(acc, oldest, price);
    SettleAll(lots, shares, price, acc);
    SettleCash(lots[..|lots| - 1], shares - Abs(oldest.amount), price, acc');
  }

  lemma SettleCashPart(lots: seq<Lot>, shares: nat, price: real, acc: Ledger)
    requires Priced(lots) && lots != [] && 0 < shares < Abs(lots[|lots| - 1].amount)
    ensures Settle(lots, shares, price, acc).cash
         == acc.cash + Worth(lots, price) - Worth(CloseLots(lots, shares), price)
  {
    var oldest := lots[|lots| - 1];
    var prefix := lots[..|lots| - 1];
    var a := oldest.amount;
    assert Worth(lots, price) == Worth(prefix, price) + a as real * price;
    var rest := prefix + [oldest.(amount := Shrink(a, shares))];
    SettlePart(lots, shares, price, acc);
    assert rest[..|rest| - 1] == prefix;
    assert Worth(rest, price) == Worth(prefix, price) + Shrink(a, shares) as real * price;
    FillCash(acc, oldest, shares, price);
  }

  /** A fill realizes the unrealized P&L of the shares it closes. */
  lemma FillAbs(acc: Ledger, lot: Lot, shares: nat, price: real)
    requires lot.amount != 0 && lot.price > 0.0 && 0 < shares <= Abs(lot.amount)
    ensures Fill(acc, lot, shares, price).abs
         == acc.abs + lot.amount as real * (price - lot.price) - Shrink(lot.amount, shares) as real * (price - lot.price)
  {
    var left := Shrink(lot.amount, shares);
    var d := price - lot.price;
    if lot.amount > 0 {
      assert lot.amount as real * d - left as real * d == shares as real * d;
    } else {
      assert lot.amount as real * d - left as real * d == shares as real * (lot.price - price);
    }
  }

  /** Settling a close realizes exactly the unrealized P&L that the close removes from the queue. */
  lemma {:induction false} SettleAbs(lots: seq<Lot>, shares: nat, price: real, acc: Ledger)
    requires Priced(lots)
    ensures Settle(lots, shares, price, acc).abs
         == acc.abs + Unrealized(lots, price) - Unrealized(CloseLots(lots, shares), price)
    decreases |lots|, 1
  {
    if shares != 0 && lots != [] {
      if Abs(lots[|lots| - 1].amount) <= shares {
        SettleAbsAll(lots, shares, price, acc);
      } else {
        SettleAbsPart(lots, shares, price, acc);
      }
    }
  }

  lemma {:induction false} SettleAbsAll(lots: seq<Lot>, shares: nat, price: real, acc: Ledger)
    requires Priced(lots) && lots != [] && Abs(lots[|lots| - 1].amount) <= shares
    ensures Settle(lots, shares, price, acc).abs
         == acc.abs + Unrealized(lots, price) - Unrealized(CloseLots(lots, shares), price)
    decreases |lots|, 0
  {
    var oldest := lots[|lots| - 1];
    var acc' := Fill(acc, oldest, Abs(oldest.amount), price);
    UnrealizedLast(lots, price);
    FillAbsAll(acc, oldest, price);
    SettleAll(lots, shares, price, acc);
    SettleAbs(lots[..|lots| - 1], shares - Abs(oldest.amount), price, acc');
  }

  lemma SettleAbsPart(lots: seq<Lot>, shares: nat, price: real, acc: Ledger)
    requires Priced(lots) && lots != [] && 0 < shares < Abs(lots[|lots| - 1].amount)
    ensures Settle(lots, shares, price, acc).abs
         == acc.abs + Unrealized(lots, price) - Unrealized(CloseLots(lots, shares), price)
  {
    var oldest := lots[|lots| - 1];
    var prefix := lots[..|lots| - 1];
    var a := oldest.amount;
    assert Unrealized(lots, price) == Unrealized(prefix, price) + a as real * (price - oldest.price);
    var rest := prefix + [oldest.(amount := Shrink(a, shares))];
    SettlePart(lots, shares, price, acc);
    assert rest[..|rest| - 1] == prefix;
    assert Unrealized(rest, price) == Unrealized(prefix, price) + Shrink(a, shares) as real * (price - oldest.price);
    FillAbs(acc, oldest, shares, price);
  }

  /** A lot's return at `price`: the price move in the lot's favour over its entry price. */
  function LotReturn(lot: Lot, price: real): real
    requires lot.price > 0.0
  {
    if lot.amount >= 0 then (price - lot.price) / lot.price else (lot.price - price) / lot.price
  }

  /** A fill's return is its lot's return, however many of the lot's shares it closes. */
  lemma FillReturnPerShare(lot: Lot, shares: nat, price: real)
    requires shares > 0 && lot.price > 0.0
    ensures FillReturn(lot, shares, price) == LotReturn(lot, price)
  {
  }

  /** How many lots, oldest first, a close of `shares` shares fills in whole or in part. */
  function Touched(lots: seq<Lot>, shares: nat): (n: nat)
    ensures n <= |lots|
    decreases |lots|
  {
    if shares == 0 || lots == [] then 0
    else if Abs(lots[|lots| - 1].amount) <= shares then
      1 + Touched(lots[..|lots| - 1], shares - Abs(lots[|lots| - 1].amount))
    else 1
  }

  /** The touched lots are the ones a close changes: with `k` untouched lots, the queue left
      keeps those `k` lots as they were, and at most one more, the oldest touched lot, with
      a smaller amount than before. */
  lemma {:induction false} TouchedLots(lots: seq<Lot>, shares: nat)
    ensures var k := |lots| - Touched(lots, shares); var rest := CloseLots(lots, shares);
      && k <= |rest| <= k + 1
      && rest[..k] == lots[..k]
      && (|rest| == k + 1 ==> Abs(rest[k].amount) < Abs(lots[k].amount))
    decreases |lots|
  {
    if shares != 0 && lots != [] {
      var prefix := lots[..|lots| - 1];
      if Abs(lots[|lots| - 1].amount) <= shares {
        CloseLotsAll(lots, shares);
        TouchedLots(prefix, shares - Abs(lots[|lots| - 1].amount));
        var k := |lots| - Touched(lots, shares);
        assert prefix[..k] == lots[..k];
      } else {
        assert CloseLots(lots, shares) == prefix + [lots[|lots| - 1].(amount := Shrink(lots[|lots| - 1].amount, shares))];
      }
    }
  }

  /** Settling a close lowers the drawdown to the least return among the lots it touches,
      when that is lower: the result is at most the old drawdown and at most every touched
      lot's return, and it is the old drawdown or one of those returns. */
  lemma {:induction false} SettleDrawdown(lots: seq<Lot>, shares: nat, price: real, acc: Ledger)
    requires Priced(lots)
    ensures var d := Settle(lots, shares, price, acc).drawdown; var k := |lots| - Touched(lots, shares);
      && d <= acc.drawdown
      && (forall i | k <= i < |lots| :: d <= LotReturn(lots[i], price))
      && (d == acc.drawdown || exists i | k <= i < |lots| :: d == LotReturn(lots[i], price))
    decreases |lots|
  {
    if shares != 0 && lots != [] {
      var oldest := lots[|lots| - 1];
      var prefix := lots[..|lots| - 1];
      if Abs(oldest.amount) <= shares {
        var next := Fill(acc, oldest, Abs(oldest.amount), price);
        FillReturnPerShare(oldest, Abs(oldest.amount), price);
        assert Priced(prefix);
        SettleDrawdown(prefix, shares - Abs(oldest.amount), price, next);
        assert forall i | 0 <= i < |prefix| :: prefix[i] == lots[i];
      } else {
        FillReturnPerShare(oldest, shares, price);
      }
    }
  }

  /** Open a new lot at the head of the queue, paying amount times price. */
  function Open(lots: seq<Lot>, lot: Lot, acc: Ledger): Book {
    Book([lot] + lots, acc.(cash := acc.cash - lot.amount as real * lot.price))
  }

  /** The four ways an accepted order is booked against a position. */
  datatype Route = Flatten | Reduce | Flip | Extend

  /**
   * How an order of `amount` meets a position of net amount `current`:
   *  - it brings the net amount to zero: close everything;
   *  - it is against the position and does not reach zero: close that many shares;
   *  - it crosses zero: close everything and open the residual the other way;
   *  - otherwise (flat, or the position's own sign): open a new lot.
   */
  function RouteOf(current: int, amount: int): Route {
    if current + amount == 0 then Flatten
    else if Sign(current + amount) != Sign(amount) then Reduce
    else if Sign(current) == -Sign(amount) then Flip
    else Extend
  }

  /** Each route in terms of the signs: reduce and flip are exactly the orders against a
      position that stop short of zero and that pass zero (an order of zero shares against an
      open position reduces it by nothing). */
  lemma RouteMeaning(current: int, amount: int)
    ensures RouteOf(current, amount) == Flatten <==> current + amount == 0
    ensures RouteOf(current, amount) == Reduce
        <==> current + amount != 0 && Sign(current + amount) == Sign(current) != Sign(amount)
    ensures RouteOf(current, amount) == Flip
        <==> current + amount != 0 && Sign(current + amount) == Sign(amount) == -Sign(current)
    ensures RouteOf(current, amount) == Extend
        <==> current + amount != 0 && (current == 0 || Sign(current) == Sign(amount))
  {
  }

  /** StockExchange.java:82-90 as written: an order to zero clears; an order after which the
      net amount's sign differs from the order's goes to the clear-and-reopen branch; every
      other order goes to the weighted-average branch that extends the position. */
  function RouteAsWritten(current: int, amount: int): Route {
    if current + amount == 0 then Flatten
    else if Sign(current + amount) != Sign(amount) then Flip
    else Extend
  }

  /** As written, the guard of the clear-and-reopen branch is inverted: every order that only
      reduces a position takes it, and every order that crosses zero is folded into the
      position as if it extended it. Long 1000 and sell 1500: as written the result is one
      position of -500 at a weighted price and nothing is realized. */
  lemma RouteAsWrittenSwapsReduceAndFlip(current: int, amount: int)
    requires current != 0 && amount != 0
    ensures RouteOf(current, amount) == Reduce <==> RouteAsWritten(current, amount) == Flip
    ensures RouteOf(current, amount) == Flip ==> RouteAsWritten(current, amount) == Extend
    ensures RouteAsWritten(1000, -1500) == Extend && RouteOf(1000, -1500) == Flip
    ensures RouteAsWritten(2000, -1000) == Flip && RouteOf(2000, -1000) == Reduce
  {
  }

  /**
   * An accepted market order of `amount` shares at `price` on one ticker's queue, booked
   * along its route: close everything, close `|amount|` shares oldest lot first, close
   * everything and open the residual at the order's price, or open a new lot at the head.
   */
  function Execute(lots: seq<Lot>, ticker: string, amount: int, price: real, timeStamp: int, acc: Ledger)
    : Book
    requires Priced(lots) && price > 0.0
  {
    var current := Net(lots);
    match RouteOf(current, amount)
    case Flatten => Close(lots, Abs(current), price, acc)
    case Reduce => Close(lots, Abs(amount), price, acc)
    case Flip =>
      var closed := Close(lots, Abs(current), price, acc);
      Open(closed.lots, Lot(ticker, current + amount, price, timeStamp), closed.ledger)
    case Extend => Open(lots, Lot(ticker, amount, price, timeStamp), acc)
  }

  lemma PushHead(lots: seq<Lot>, lot: Lot, price: real)
    ensures Net([lot] + lots) == lot.amount + Net(lots)
    ensures Cost([lot] + lots) == lot.amount as real * lot.price + Cost(lots)
    ensures Unrealized([lot] + lots, price) == lot.amount as real * (price - lot.price) + Unrealized(lots, price)
    decreases |lots|
  {
    if lots != [] {
      assert ([lot] + lots)[..|lots|] == [lot] + lots[..|lots| - 1];
      PushHead(lots[..|lots| - 1], lot, price);
    } else {
      assert [lot][..0] == [];
    }
  }

  /** A lot entered at the current price adds nothing to the unrealized P&L. */
  lemma PushAtPrice(lots: seq<Lot>, lot: Lot)
    ensures Unrealized([lot] + lots, lot.price) == Unrealized(lots, lot.price)
  {
    PushHead(lots, lot, lot.price);
    assert lot.amount as real * (lot.price - lot.price) == 0.0;
  }

  /** An accepted order keeps the queue well formed and changes the net amount by exactly `amount`. */
  lemma ExecuteQueue(lots: seq<Lot>, ticker: string, amount: int, price: real, timeStamp: int, acc: Ledger)
    requires Queue(lots, ticker) && price > 0.0
    ensures var after := Execute(lots, ticker, amount, price, timeStamp, acc).lots;
      Queue(after, ticker) && Net(after) == Net(lots) + amount
  {
    var current := Net(lots);
    QueueNet(lots, ticker);
    if current + amount == 0 {
      CloseQueue(lots, ticker, Abs(current));
    } else if Sign(current + amount) != Sign(amount) {
      CloseQueue(lots, ticker, Abs(amount));
    } else if Sign(current) == -Sign(amount) {
      CloseAllEmpties(lots, ticker);
      PushHead([], Lot(ticker, current + amount, price, timeStamp), price);
    } else {
      var lot := Lot(ticker, amount, price, timeStamp);
      PushHead(lots, lot, price);
      assert forall i | 1 <= i < |[lot] + lots| :: ([lot] + lots)[i] == lots[i - 1];
    }
  }

  /** Market value is the net amount valued at `price`. */
  lemma {:induction false} WorthIsNetValue(lots: seq<Lot>, price: real)
    ensures Worth(lots, price) == Net(lots) as real * price
  {
    if lots != [] {
      WorthIsNetValue(lots[..|lots| - 1], price);
    }
  }

  /** Two queues whose net amounts differ by `delta` differ in market value by `delta`
      valued at `price`. */
  lemma WorthShift(before: seq<Lot>, after: seq<Lot>, delta: int, price: real)
    requires Net(after) == Net(before) + delta
    ensures Worth(before, price) - Worth(after, price) == -(delta as real * price)
  {
    WorthLess(before, Net(after), delta, price);
    WorthIsNetValue(after, price);
  }

  /** Market value less the value of `after` shares, where `after` is the net amount
      moved by `delta`. */
  lemma WorthLess(lots: seq<Lot>, after: int, delta: int, price: real)
    requires after == Net(lots) + delta
    ensures Worth(lots, price) - after as real * price == -(delta as real * price)
  {
    WorthIsNetValue(lots, price);
    ValueDifference(Net(lots), after, delta, price);
  }

  /** Valuing a change of `delta` shares at one price. */
  lemma ValueDifference(before: int, after: int, delta: int, price: real)
    requires after == before + delta
    ensures before as real * price - after as real * price == -(delta as real * price)
  {
  }

  /** A close that moves the net amount by `amount` moves cash by minus `amount` valued at `price`. */
  lemma CloseCash(lots: seq<Lot>, ticker: string, shares: nat, amount: int, price: real, acc: Ledger)
    requires Queue(lots, ticker) && shares <= Abs(Net(lots)) && Shrink(Net(lots), shares) == Net(lots) + amount
    ensures Close(lots, shares, price, acc).ledger.cash == acc.cash - amount as real * price
  {
    var rest := CloseLots(lots, shares);
    CloseQueue(lots, ticker, shares);
    SettleCash(lots, shares, price, acc);
    WorthShift(lots, rest, amount, price);
  }

  /** Closing everything and opening the residual: cash gains the queue's market value and
      pays for the residual. */
  lemma FlipCashWorth(lots: seq<Lot>, ticker: string, residual: int, price: real, timeStamp: int, acc: Ledger)
    requires Queue(lots, ticker)
    ensures var closed := Close(lots, Abs(Net(lots)), price, acc);
      Open(closed.lots, Lot(ticker, residual, price, timeStamp), closed.ledger).ledger.cash
        == acc.cash + Worth(lots, price) - residual as real * price
  {
    CloseAllEmpties(lots, ticker);
    SettleCash(lots, Abs(Net(lots)), price, acc);
  }

  /** Closing everything and opening the residual moves cash by minus `amount` valued at `price`. */
  lemma FlipCash(lots: seq<Lot>, ticker: string, amount: int, residual: int, price: real, timeStamp: int, acc: Ledger)
    requires Queue(lots, ticker) && residual == Net(lots) + amount
    ensures var closed := Close(lots, Abs(Net(lots)), price, acc);
      Open(closed.lots, Lot(ticker, residual, price, timeStamp), closed.ledger).ledger.cash
        == acc.cash - amount as real * price
  {
    FlipCashWorth(lots, ticker, residual, price, timeStamp, acc);
    WorthLess(lots, residual, amount, price);
  }

  /** An accepted order changes cash by exactly `amount` times `price`: bought shares are
      paid for and sold shares are credited. */
  lemma ExecuteCash(lots: seq<Lot>, ticker: string, amount: int, price: real, timeStamp: int, acc: Ledger)
    requires Queue(lots, ticker) && price > 0.0
    ensures Execute(lots, ticker, amount, price, timeStamp, acc).ledger.cash == acc.cash - amount as real * price
  {
    var current := Net(lots);
    if current + amount == 0 {
      CloseCash(lots, ticker, Abs(current), amount, price, acc);
    } else if Sign(current + amount) != Sign(amount) {
      CloseCash(lots, ticker, Abs(amount), amount, price, acc);
    } else if Sign(current) == -Sign(amount) {
      FlipCash(lots, ticker, amount, current + amount, price, timeStamp, acc);
    }
  }

  /** A close realizes exactly the unrealized P&L it removes, and lowers the drawdown to the
      least return among the lots it touches when that is lower. */
  lemma CloseAbs(lots: seq<Lot>, shares: nat, price: real, acc: Ledger)
    requires Priced(lots)
    ensures var Book(after, out) := Close(lots, shares, price, acc); var k := |lots| - Touched(lots, shares);
      && out.abs == acc.abs + Unrealized(lots, price) - Unrealized(after, price)
      && out.drawdown <= acc.drawdown
      && (forall i | k <= i < |lots| :: out.drawdown <= LotReturn(lots[i], price))
      && (out.drawdown == acc.drawdown || exists i | k <= i < |lots| :: out.drawdown == LotReturn(lots[i], price))
  {
    SettleAbs(lots, shares, price, acc);
    SettleDrawdown(lots, shares, price, acc);
  }

  /** Closing everything and opening the residual at `price` realizes all unrealized P&L. */
  lemma FlipAbs(lots: seq<Lot>, ticker: string, amount: int, price: real, timeStamp: int, acc: Ledger)
    requires Queue(lots, ticker)
    ensures var closed := Close(lots, Abs(Net(lots)), price, acc);
      var Book(after, out) := Open(closed.lots, Lot(ticker, Net(lots) + amount, price, timeStamp), closed.ledger);
      && out.abs == acc.abs + Unrealized(lots, price) - Unrealized(after, price)
      && out.drawdown <= acc.drawdown
  {
    CloseAllEmpties(lots, ticker);
    CloseAbs(lots, Abs(Net(lots)), price, acc);
    PushAtPrice([], Lot(ticker, Net(lots) + amount, price, timeStamp));
  }

  /** An accepted order realizes exactly the unrealized P&L it removes from the queue and
      never raises the drawdown. */
  lemma ExecuteAbs(lots: seq<Lot>, ticker: string, amount: int, price: real, timeStamp: int, acc: Ledger)
    requires Queue(lots, ticker) && price > 0.0
    ensures var Book(after, out) := Execute(lots, ticker, amount, price, timeStamp, acc);
      && out.abs == acc.abs + Unrealized(lots, price) - Unrealized(after, price)
      && out.drawdown <= acc.drawdown
  {
    var current := Net(lots);
    match RouteOf(current, amount)
    case Flatten =>
      assert Execute(lots, ticker, amount, price, timeStamp, acc) == Close(lots, Abs(current), price, acc);
      CloseAbs(lots, Abs(current), price, acc);
    case Reduce =>
      assert Execute(lots, ticker, amount, price, timeStamp, acc) == Close(lots, Abs(amount), price, acc);
      CloseAbs(lots, Abs(amount), price, acc);
    case Flip =>
      FlipAbs(lots, ticker, amount, price, timeStamp, acc);
    case Extend =>
      assert Execute(lots, ticker, amount, price, timeStamp, acc) == Open(lots, Lot(ticker, amount, price, timeStamp), acc);
      PushAtPrice(lots, Lot(ticker, amount, price, timeStamp));
  }

  /** The shares an order closes on its route: the whole position when it flattens or flips
      it, the order's own size when it reduces it, none when it extends it. */
  function ClosedShares(current: int, amount: int): nat {
    match RouteOf(current, amount)
    case Flatten => Abs(current)
    case Reduce => Abs(amount)
    case Flip => Abs(current)
    case Extend => 0
  }

  /** The drawdown after an order: the least of the old drawdown and the returns, at the
      order's price, of the lots its close touches; an order that only extends the position
      leaves it as it was. */
  lemma ExecuteDrawdown(lots: seq<Lot>, ticker: string, amount: int, price: real, timeStamp: int, acc: Ledger)
    requires Priced(lots) && price > 0.0
    ensures var d := Execute(lots, ticker, amount, price, timeStamp, acc).ledger.drawdown;
      var k := |lots| - Touched(lots, ClosedShares(Net(lots), amount));
      && d <= acc.drawdown
      && (forall i | k <= i < |lots| :: d <= LotReturn(lots[i], price))
      && (d == acc.drawdown || exists i | k <= i < |lots| :: d == LotReturn(lots[i], price))
  {
    var shares := ClosedShares(Net(lots), amount);
    assert Execute(lots, ticker, amount, price, timeStamp, acc).ledger.drawdown
        == Settle(lots, shares, price, acc).drawdown;
    SettleDrawdown(lots, shares, price, acc);
  }

  /** An order that brings the net amount exactly to zero leaves no open lots. */
  lemma ExecuteFlattens(lots: seq<Lot>, ticker: string, amount: int, price: real, timeStamp: int, acc: Ledger)
    requires Queue(lots, ticker) && price > 0.0
    requires Net(lots) + amount == 0
    ensures Execute(lots, ticker, amount, price, timeStamp, acc).lots == []
  {
    CloseAllEmpties(lots, ticker);
  }

  /** An order for minus the net amount closes everything and realizes the queue's whole
      unrealized P&L at the order's price. */
  lemma ExecuteClears(lots: seq<Lot>, ticker: string, price: real, timeStamp: int, acc: Ledger)
    requires Queue(lots, ticker) && price > 0.0
    ensures var b := Execute(lots, ticker, -Net(lots), price, timeStamp, acc);
      b.lots == [] && b.ledger.abs == acc.abs + Unrealized(lots, price)
  {
    ExecuteFlattens(lots, ticker, -Net(lots), price, timeStamp, acc);
    ExecuteAbs(lots, ticker, -Net(lots), price, timeStamp, acc);
  }

  /** An order that crosses zero leaves a single lot of size `Net + amount` with the order's
      sign, the order's price and timestamp. */
  lemma ExecuteFlips(lots: seq<Lot>, ticker: string, amount: int, price: real, timeStamp: int, acc: Ledger)
    requires Queue(lots, ticker) && price > 0.0
    requires Net(lots) != 0 && Sign(Net(lots) + amount) == Sign(amount) == -Sign(Net(lots))
    ensures Execute(lots, ticker, amount, price, timeStamp, acc).lots == [Lot(ticker, Net(lots) + amount, price, timeStamp)]
    ensures Sign(Execute(lots, ticker, amount, price, timeStamp, acc).lots[0].amount) == Sign(amount)
  {
    CloseAllEmpties(lots, ticker);
  }

  /** An order on a flat queue, or one with the position's sign, puts a lot with the
      order's amount, price and timestamp at the head, leaves the older lots as they were,
      and realizes nothing. */
  lemma ExecuteExtends(lots: seq<Lot>, ticker: string, amount: int, price: real, timeStamp: int, acc: Ledger)
    requires Queue(lots, ticker) && price > 0.0
    requires amount != 0 && (Net(lots) == 0 || Sign(Net(lots)) == Sign(amount))
    ensures Execute(lots, ticker, amount, price, timeStamp, acc)
         == Book([Lot(ticker, amount, price, timeStamp)] + lots, acc.(cash := acc.cash - amount as real * price))
  {
  }

  /** An order that brings the position to zero or reduces it closes `|amount|` shares, and
      moves cash by minus `amount` valued at `price`. */
  lemma ExecuteCloses(lots: seq<Lot>, ticker: string, amount: int, price: real, timeStamp: int, acc: Ledger)
    requires Queue(lots, ticker) && price > 0.0
    requires RouteOf(Net(lots), amount) == Flatten || RouteOf(Net(lots), amount) == Reduce
    ensures Abs(amount) <= Abs(Net(lots))
    ensures Execute(lots, ticker, amount, price, timeStamp, acc) == Close(lots, Abs(amount), price, acc)
    ensures Close(lots, Abs(amount), price, acc).ledger.cash == acc.cash - amount as real * price
  {
    RouteMeaning(Net(lots), amount);
    CloseCash(lots, ticker, Abs(amount), amount, price, acc);
  }

  /** A lot with the queue's sign (or any sign, on an empty queue) pushed at the head keeps
      the queue well formed, adds its amount to the net and its amount times entry price to
      the cost basis. */
  lemma ExtendQueue(lots: seq<Lot>, ticker: string, lot: Lot)
    requires Queue(lots, ticker) && lot.ticker == ticker && lot.amount != 0 && lot.price > 0.0
    requires Net(lots) == 0 || Sign(Net(lots)) == Sign(lot.amount)
    ensures Queue([lot] + lots, ticker)
    ensures Net([lot] + lots) == Net(lots) + lot.amount
    ensures Cost([lot] + lots) == Cost(lots) + lot.amount as real * lot.price
  {
    QueueNet(lots, ticker);
    PushHead(lots, lot, lot.price);
    assert forall i | 1 <= i < |[lot] + lots| :: ([lot] + lots)[i] == lots[i - 1];
  }

  /** An order against the position that does not reach zero consumes the oldest lots only:
      every surviving lot except the oldest one is exactly the lot that was there before. */
  lemma ExecuteReducesOldestFirst(lots: seq<Lot>, ticker: string, amount: int, price: real, timeStamp: int, acc: Ledger)
    requires Queue(lots, ticker) && price > 0.0
    requires amount != 0 && Sign(Net(lots) + amount) == Sign(Net(lots)) == -Sign(amount)
    ensures var after := Execute(lots, ticker, amount, price, timeStamp, acc).lots;
      && after != []
      && |after| <= |lots|
      && (forall i | 0 <= i < |after| - 1 :: after[i] == lots[i])
      && after[|after| - 1] == lots[|after| - 1].(amount := after[|after| - 1].amount)
  {
    QueueNet(lots, ticker);
    CloseQueue(lots, ticker, Abs(amount));
    CloseShape(lots, Abs(amount));
    var after := Execute(lots, ticker, amount, price, timeStamp, acc).lots;
    assert after == CloseLots(lots, Abs(amount));
    QueueNet(after, ticker);
  }

  /** Opening `shares` (signed) at `entry` on a flat ticker and closing them at `exit`
      realizes shares times (exit - entry) — for a long that is the price gain, for a short
      the price drop — returns the cash to its start plus that P&L, and leaves nothing open. */
  lemma RoundTrip(ticker: string, shares: int, entry: real, exit: real, openedAt: int, closedAt: int, acc: Ledger)
    requires shares != 0 && entry > 0.0 && exit > 0.0
    ensures var first := Execute([], ticker, shares, entry, openedAt, acc);
      && Queue(first.lots, ticker)
      && var second := Execute(first.lots, ticker, -shares, exit, closedAt, first.ledger);
      && second.lots == []
      && second.ledger.abs == acc.abs + shares as real * (exit - entry)
      && second.ledger.cash == acc.cash + shares as real * (exit - entry)
  {
    var first := Execute([], ticker, shares, entry, openedAt, acc);
    ExecuteQueue([], ticker, shares, entry, openedAt, acc);
    ExecuteCash([], ticker, shares, entry, openedAt, acc);
    assert first.lots == [Lot(ticker, shares, entry, openedAt)];
    ExecuteCash(first.lots, ticker, -shares, exit, closedAt, first.ledger);
    ExecuteAbs(first.lots, ticker, -shares, exit, closedAt, first.ledger);
    ExecuteFlattens(first.lots, ticker, -shares, exit, closedAt, first.ledger);
    assert first.lots[..0] == [];
  }

  /** Opening `shares` (signed) at `entry` on a flat ticker and closing them at `exit` sets
      the drawdown to the trade's return when that is lower: the price gain over the entry
      price for a long, the price drop over the entry price for a short. */
  lemma RoundTripDrawdown(ticker: string, shares: int, entry: real, exit: real, openedAt: int, closedAt: int, acc: Ledger)
    requires shares != 0 && entry > 0.0 && exit > 0.0
    ensures var first := Execute([], ticker, shares, entry, openedAt, acc);
      var second := Execute(first.lots, ticker, -shares, exit, closedAt, first.ledger);
      var r := if shares > 0 then (exit - entry) / entry else (entry - exit) / entry;
      second.ledger.drawdown == if acc.drawdown > r then r else acc.drawdown
  {
    var lot := Lot(ticker, shares, entry, openedAt);
    var first := Execute([], ticker, shares, entry, openedAt, acc);
    assert first == Book([lot] + [], acc.(cash := acc.cash - shares as real * entry));
    assert first.lots == [lot];
    assert Net(first.lots) == shares by { assert first.lots[..0] == []; }
    assert ClosedShares(shares, -shares) == Abs(shares);
    assert Touched(first.lots, Abs(shares)) == 1 by { assert first.lots[..0] == []; }
    ExecuteDrawdown(first.lots, ticker, -shares, exit, closedAt, first.ledger);
  }

  /** StockExchange.java:110-125 as written: the P&L of clearing a position of signed
      `amount` shares entered at `entry` and valued at `price`. */
  function ClearPnlAsWritten(amount: int, entry: real, price: real): real {
    var initialValue := amount as real * entry;
    var currentValue := price * amount as real;
    if amount >= 0 then currentValue - initialValue else initialValue - currentValue
  }

  /** As written, clearing a short position books the negation of its P&L: for a short
      of 1000 shares entered at 100 and cleared at 10 it books -90000 instead of +90000. */
  lemma ClearPnlAsWrittenInvertsShorts(amount: int, entry: real, price: real)
    requires amount < 0
    ensures ClearPnlAsWritten(amount, entry, price) == -FillPnl(Lot("", amount, entry, 0), Abs(amount), price)
    ensures ClearPnlAsWritten(-1000, 100.0, 10.0) == -90000.0
    ensures FillPnl(Lot("AAPL", -1000, 100.0, 0), 1000, 10.0) == 90000.0
  {
  }

  /** StockExchange.java:97 as written (`=-` for `-=`): extending a position overwrites the
      available cash with minus the order's cost. */
  function CashAfterExtendAsWritten(cash: real, amount: int, price: real): real {
    -amount as real * price
  }

  /** As written, a budget of 1e9 buying 1000 shares at 100 is left with -100000, after
      which even a one-share purchase at 1 fails the budget check; the accounting of
      `Execute` leaves 999900000 instead. */
  lemma CashAfterExtendAsWrittenLosesBudget()
    ensures CashAfterExtendAsWritten(1000000000.0, 1000, 100.0) == -100000.0
    ensures CashAfterExtendAsWritten(1000000000.0, 1000, 100.0) - 1.0 * 1.0 < 0.0
    ensures Execute([], "AAPL", 1000, 100.0, 0, Ledger(1000000000.0, 0.0, 0.0)).ledger.cash == 999900000.0
  {
  }
}
