/** The signal labelling and the trade simulator of stock_analyzer/backtest.py. The RSI and
    moving-average series come from pandas_ta and are inputs here, one value per bar, `None`
    where the indicator is undefined (NaN). */
module Backtest {
  import opened Wrappers
  import opened Bars

  /** The `Signal` column: 1 is `Buy`, -1 is `Sell`, 0 is `Hold`. */
  datatype Signal = Hold | Buy | Sell

  /** `df.loc[mask, 'Signal'] = v`, or `np.where(mask, v, df['Signal'])`. */
  function Relabel(labels: seq<Signal>, mask: seq<bool>, v: Signal): (r: seq<Signal>)
    requires |mask| == |labels|
    ensures |r| == |labels|
    ensures forall i :: 0 <= i < |r| ==> r[i] == (if mask[i] then v else labels[i])
  {
    seq(|labels|, i requires 0 <= i < |labels| => if mask[i] then v else labels[i])
  }

  /** pandas comparisons: anything compared with NaN is false. */
  predicate Less(a: Option<real>, b: Option<real>)
  {
    a.Some? && b.Some? && a.value < b.value
  }

  predicate AtMost(a: Option<real>, b: Option<real>)
  {
    a.Some? && b.Some? && a.value <= b.value
  }

  /** The RSI thresholds of `RSIBacktesting._setup`. */
  const Oversold: real := 30.0
  const Overbought: real := 70.0

  /** `RSIBacktesting._setup`: all bars `Hold`, then `Buy` where RSI < 30, then `Sell` where
      RSI > 70. A bar without an RSI value compares false both times and stays `Hold`. */
  function RsiLabels(rsi: seq<Option<real>>): (labels: seq<Signal>)
    ensures |labels| == |rsi|
    ensures forall i :: 0 <= i < |rsi| ==>
              && (labels[i] == Buy <==> rsi[i].Some? && rsi[i].value < Oversold)
              && (labels[i] == Sell <==> rsi[i].Some? && rsi[i].value > Overbought)
  {
    var n := |rsi|;
    var zero := seq(n, i => Hold);
    var buys := Relabel(zero, seq(n, i requires 0 <= i < n => Less(rsi[i], Some(Oversold))), Buy);
    Relabel(buys, seq(n, i requires 0 <= i < n => Less(Some(Overbought), rsi[i])), Sell)
  }

  /** `Series.shift(1)`: every value moves down one bar; the first bar gets NaN. */
  function Shift(xs: seq<Option<real>>): (r: seq<Option<real>>)
    ensures |r| == |xs|
    ensures |r| > 0 ==> r[0].None?
    ensures forall i :: 0 < i < |r| ==> r[i] == xs[i - 1]
  {
    if |xs| == 0 then [] else [None] + xs[..|xs| - 1]
  }

  /** The short average crosses above the long one at bar `i`: both averages are defined at
      `i` and at `i - 1`, the short one is above at `i` and was not above at `i - 1`. */
  predicate CrossesAbove(short: seq<Option<real>>, long: seq<Option<real>>, i: int)
    requires |short| == |long|
  {
    && 0 < i < |short|
    && short[i].Some? && long[i].Some? && short[i - 1].Some? && long[i - 1].Some?
    && short[i].value > long[i].value && short[i - 1].value <= long[i - 1].value
  }

  /** The symmetric downward cross at bar `i`. */
  predicate CrossesBelow(short: seq<Option<real>>, long: seq<Option<real>>, i: int)
    requires |short| == |long|
  {
    && 0 < i < |short|
    && short[i].Some? && long[i].Some? && short[i - 1].Some? && long[i - 1].Some?
    && short[i].value < long[i].value && short[i - 1].value >= long[i - 1].value
  }

  /** `SMABacktesting._setup`: all bars `Hold`, then `Buy` where the shifted comparison shows
      an upward cross, then `Sell` where it shows a downward one. The second assignment can
      never undo the first, since the short average cannot be both above and below. */
  function SmaLabels(short: seq<Option<real>>, long: seq<Option<real>>): (labels: seq<Signal>)
    requires |short| == |long|
    ensures |labels| == |short|
    ensures forall i :: 0 <= i < |short| ==>
              && (labels[i] == Buy <==> CrossesAbove(short, long, i))
              && (labels[i] == Sell <==> CrossesBelow(short, long, i))
  {
    var n := |short|;
    var prevShort := Shift(short);
    var prevLong := Shift(long);
    var zero := seq(n, i => Hold);
    var up := seq(n, i requires 0 <= i < n => Less(long[i], short[i]) && AtMost(prevShort[i], prevLong[i]));
    var down := seq(n, i requires 0 <= i < n => Less(short[i], long[i]) && AtMost(prevLong[i], prevShort[i]));
    Relabel(Relabel(zero, up, Buy), down, Sell)
  }

  /** The scenario of a single upward cross: both averages defined from bar `from` on, the short one at or
      below the long one until bar `c` and above it from `c` on. Then `c` is the one bar
      labelled `Buy`. */
  lemma SmaSingleUpwardCross(short: seq<Option<real>>, long: seq<Option<real>>, from: int, c: int)
    requires |short| == |long|
    requires 0 <= from < c < |short|
    requires forall i :: 0 <= i < from ==> short[i].None? || long[i].None?
    requires forall i :: from <= i < |short| ==> short[i].Some? && long[i].Some?
    requires forall i :: from <= i < c ==> short[i].value <= long[i].value
    requires forall i :: c <= i < |short| ==> short[i].value > long[i].value
    ensures forall i :: 0 <= i < |short| ==> (SmaLabels(short, long)[i] == Buy <==> i == c)
  {
    var labels := SmaLabels(short, long);
    forall i | 0 <= i < |short| ensures labels[i] == Buy <==> i == c {
      if i < from {
        assert !CrossesAbove(short, long, i);
      } else if i == from {
        assert i == 0 || short[i - 1].None? || long[i - 1].None?;
      } else if i < c {
        assert !CrossesAbove(short, long, i);
      } else if i > c {
        assert short[i - 1].value > long[i - 1].value;
      }
    }
  }

  /** An upward cross is a single bar: the bar after a `Buy` is never a `Buy`. */
  lemma SmaBuyNotRepeated(short: seq<Option<real>>, long: seq<Option<real>>, i: int)
    requires |short| == |long|
    requires 0 <= i < |short| - 1
    requires SmaLabels(short, long)[i] == Buy
    ensures SmaLabels(short, long)[i + 1] != Buy
  {
  }

  /** The `analise_sma_crossing` status texts. */
  const BullishStatus: string := "Buy (Cruzamento Altista)"
  const BearishStatus: string := "Sell (Cruzamento Baixista)"
  const NeutralStatus: string := "Neutra"

  /** `analise_sma_crossing`: the status of the last bar's label, neutral for an empty frame.
      So it reports a bullish (bearish) cross exactly when the final bar is an upward
      (downward) cross of the two averages. */
  function CrossingStatus(short: seq<Option<real>>, long: seq<Option<real>>): (status: string)
    requires |short| == |long|
    ensures |short| == 0 ==> status == NeutralStatus
    ensures |short| > 0 ==>
              && (status == BullishStatus <==> CrossesAbove(short, long, |short| - 1))
              && (status == BearishStatus <==> CrossesBelow(short, long, |short| - 1))
              && (status == NeutralStatus <==>
                    !CrossesAbove(short, long, |short| - 1) && !CrossesBelow(short, long, |short| - 1))
  {
    var labels := SmaLabels(short, long);
    var current := if |labels| == 0 then Hold else labels[|labels| - 1];
    match current
    case Buy => BullishStatus
    case Sell => BearishStatus
    case Hold => NeutralStatus
  }

  // ---------------------------------------------------------------------------------------
  // The trade simulator, `TradesMixin.trade`

  /** One row as the simulator sees it: its date, its price in the traded column, its label. */
  datatype Tick = Tick(day: Day, price: real, signal: Signal)

  /** Parallel columns of a frame as rows. */
  function Ticks(days: seq<Day>, prices: seq<real>, labels: seq<Signal>): (ticks: seq<Tick>)
    requires |days| == |prices| == |labels|
    ensures |ticks| == |days|
    ensures forall i :: 0 <= i < |ticks| ==> ticks[i] == Tick(days[i], prices[i], labels[i])
  {
    seq(|days|, i requires 0 <= i < |days| => Tick(days[i], prices[i], labels[i]))
  }

  /** One completed round trip, as the source's trade dict records it. */
  datatype Trade = Trade(entryDay: Day, exitDay: Day, entryPrice: real, exitPrice: real, profit: real, returnPct: real)

  /** The two states of the simulator: no shares, or all money in shares bought at a recorded
      price and date. The source tells them apart by `stock_quantity == 0`. */
  datatype Position = Flat | Long(quantity: real, entryPrice: real, entryDay: Day)

  /** The loop variables of `trade`: `amount` (cash), `initial_amount` (the cash the current
      round trip started from, here `basis`), the position and the trades so far. */
  datatype Ledger = Ledger(amount: real, basis: real, position: Position, trades: seq<Trade>)

  predicate PositivePrices(ticks: seq<Tick>)
  {
    forall i :: 0 <= i < |ticks| ==> ticks[i].price > 0.0
  }

  /** What every reachable ledger satisfies: the round trip's starting cash is positive; flat,
      all of it is cash; long, none of it is, and the shares cost exactly that cash. */
  predicate Sound(l: Ledger)
  {
    && l.basis > 0.0
    && (l.position.Flat? ==> l.amount == l.basis)
    && (l.position.Long? ==>
          && l.amount == 0.0
          && l.position.quantity > 0.0
          && l.position.entryPrice > 0.0
          && l.position.quantity * l.position.entryPrice == l.basis)
  }

  /** The trade every round trip records, closing at `price` on `day`: profit against the
      cash the round trip started from, and that profit as a percentage of it. */
  function CloseTrade(p: Position, basis: real, day: Day, price: real): (t: Trade)
    requires p.Long? && basis > 0.0
  {
    var cash := p.quantity * price;
    var profit := cash - basis;
    Trade(p.entryDay, day, p.entryPrice, price, profit, profit / basis * 100.0)
  }

  /** One iteration of the loop. A `Buy` while flat spends all cash on shares; a `Sell` while
      long sells all shares, records the trade and makes its proceeds the next round trip's
      starting cash. Every other combination, a `Buy` while long or a `Sell` while flat
      included, changes nothing. */
  function Step(l: Ledger, t: Tick): (r: Ledger)
    requires Sound(l) && t.price > 0.0
    ensures Sound(r)
    // A `Buy` while flat turns all cash into shares bought at the row's price and day.
    ensures t.signal == Buy && l.position.Flat? ==>
              && r.position == Long(l.amount / t.price, t.price, t.day)
              && r.position.quantity * t.price == l.amount
              && r.amount == 0.0 && r.basis == l.basis && r.trades == l.trades
    // A `Sell` while long turns all shares into cash and records the round trip.
    ensures t.signal == Sell && l.position.Long? ==>
              && r.position.Flat?
              && r.amount == r.basis == l.position.quantity * t.price
              && r.trades == l.trades + [CloseTrade(l.position, l.basis, t.day, t.price)]
    // A `Hold`, a `Buy` while long and a `Sell` while flat are ignored.
    ensures t.signal == Hold || (t.signal == Buy && l.position.Long?) || (t.signal == Sell && l.position.Flat?) ==>
              r == l
  {
    if t.signal == Buy && l.position.Flat? then
      var q := l.amount / t.price;
      Ledger(0.0, l.basis, Long(q, t.price, t.day), l.trades)
    else if t.signal == Sell && l.position.Long? then
      var cash := l.position.quantity * t.price;
      ProductPositive(l.position.quantity, t.price);
      Ledger(cash, cash, Flat, l.trades + [CloseTrade(l.position, l.basis, t.day, t.price)])
    else
      l
  }

  lemma ProductPositive(a: real, b: real)
    requires a > 0.0 && b > 0.0
    ensures a * b > 0.0
  {
  }

  /** The loop run over the rows in order, starting flat with `initial` in cash. */
  function Replay(initial: real, ticks: seq<Tick>): (l: Ledger)
    requires initial > 0.0 && PositivePrices(ticks)
    ensures Sound(l)
    decreases |ticks|
  {
    if |ticks| == 0 then Ledger(initial, initial, Flat, [])
    else Step(Replay(initial, ticks[..|ticks| - 1]), ticks[|ticks| - 1])
  }

  /** After the loop: a position still open is sold at the last row's price and date. The
      source divides the starting cash by the quantity and multiplies it back, which is the
      starting cash itself. */
  function Liquidate(l: Ledger, last: Tick): (r: Ledger)
    requires Sound(l) && last.price > 0.0
    ensures r.position.Flat?
    ensures l.position.Flat? ==> r == l
    ensures l.position.Long? ==> r.trades == l.trades + [CloseTrade(l.position, l.basis, last.day, last.price)]
    ensures l.position.Long? ==> r.amount == l.position.quantity * last.price
  {
    match l.position
    case Flat => l
    case Long(q, entryPrice, entryDay) =>
      var amount := q * last.price;
      var adjusted := l.basis / q * q;
      assert adjusted == l.basis;
      var profit := amount - adjusted;
      var t := Trade(entryDay, last.day, entryPrice, last.price, profit, profit / adjusted * 100.0);
      assert t == CloseTrade(l.position, l.basis, last.day, last.price);
      Ledger(amount, amount, Flat, l.trades + [t])
  }

  // ---------------------------------------------------------------------------------------
  // What the simulator's ledger satisfies

  /** The profits of a list of trades, added up. */
  function SumProfits(trades: seq<Trade>): real
  {
    if |trades| == 0 then 0.0 else SumProfits(trades[..|trades| - 1]) + trades[|trades| - 1].profit
  }

  /** The factor by which the trades multiply the money: the product of exit over entry prices. */
  function Growth(trades: seq<Trade>): real
    requires AllConsistent(trades)
  {
    if |trades| == 0 then 1.0
    else
      var t := trades[|trades| - 1];
      Growth(trades[..|trades| - 1]) * (t.exitPrice / t.entryPrice)
  }

  /** A recorded trade whose figures are those of one all-in round trip: its return is the
      relative price change, and it made a profit exactly when it sold above its buying price. */
  predicate Consistent(t: Trade)
  {
    && t.entryPrice > 0.0
    && t.exitPrice > 0.0
    && t.returnPct == (t.exitPrice / t.entryPrice - 1.0) * 100.0
    && (t.profit > 0.0 <==> t.exitPrice > t.entryPrice)
  }

  predicate AllConsistent(trades: seq<Trade>)
  {
    forall k :: 0 <= k < |trades| ==> Consistent(trades[k])
  }

  /** The books of a run that ends with `amount` after `trades`, starting from `initial`,
      balance: every trade is consistent, the profits add up to the change of the money, and
      the money is the initial cash compounded over the trades' price ratios. */
  predicate Accounted(initial: real, amount: real, trades: seq<Trade>)
  {
    && AllConsistent(trades)
    && SumProfits(trades) == amount - initial
    && amount == initial * Growth(trades)
  }

  /** The number of rows labelled `Buy`. */
  function CountBuys(ticks: seq<Tick>): (n: nat)
    ensures n <= |ticks|
    ensures n == 0 <==> forall i :: 0 <= i < |ticks| ==> ticks[i].signal != Buy
  {
    if |ticks| == 0 then 0
    else
      var rest := CountBuys(ticks[..|ticks| - 1]);
      assert forall i :: 0 <= i < |ticks| - 1 ==> ticks[..|ticks| - 1][i] == ticks[i];
      rest + (if ticks[|ticks| - 1].signal == Buy then 1 else 0)
  }

  /** The arithmetic of one round trip: `quantity` shares bought for `basis` at `entry`, sold
      at `exit`. */
  lemma RoundTrip(quantity: real, entry: real, exit: real, basis: real)
    requires quantity > 0.0 && entry > 0.0 && exit > 0.0
    requires quantity * entry == basis
    ensures quantity * exit == basis * (exit / entry)
    ensures (quantity * exit - basis) / basis == exit / entry - 1.0
    ensures quantity * exit - basis > 0.0 <==> exit > entry
  {
    assert basis > 0.0;
    assert quantity == basis / entry;
    calc {
      quantity * exit;
      (basis / entry) * exit;
      basis * (exit / entry);
    }
    var ratio := exit / entry;
    assert (ratio - 1.0) * basis == quantity * exit - basis;
    DivFromMul(quantity * exit - basis, basis, ratio - 1.0);
    ProfitSign(quantity, entry, exit, basis);
  }

  lemma ProfitSign(quantity: real, entry: real, exit: real, basis: real)
    requires quantity > 0.0 && quantity * entry == basis
    ensures quantity * exit - basis > 0.0 <==> exit > entry
  {
    if exit > entry {
      assert quantity * exit > quantity * entry;
    } else {
      assert quantity * exit <= quantity * entry;
    }
  }

  /** A quotient is the number that multiplied by the divisor gives the dividend. */
  lemma DivFromMul(x: real, d: real, y: real)
    requires d != 0.0 && y * d == x
    ensures x / d == y
  {
  }

  /** The trade a round trip records has consistent figures, and the proceeds are the
      starting cash times the price ratio. */
  lemma CloseTradeFacts(l: Ledger, day: Day, price: real)
    requires Sound(l) && l.position.Long? && price > 0.0
    ensures Consistent(CloseTrade(l.position, l.basis, day, price))
    ensures CloseTrade(l.position, l.basis, day, price).profit == l.position.quantity * price - l.basis
    ensures l.position.quantity * price == l.basis * (price / l.position.entryPrice)
  {
    var t := CloseTrade(l.position, l.basis, day, price);
    var q, e := l.position.quantity, l.position.entryPrice;
    assert t.profit == q * price - l.basis;
    assert t.returnPct == t.profit / l.basis * 100.0;
    RoundTrip(q, e, price, l.basis);
  }

  /** The ledger's books balance: the profits so far add up to the change of the starting cash,
      which is the initial cash times the growth of the recorded trades, and every recorded
      trade is consistent. */
  predicate Balanced(initial: real, l: Ledger)
  {
    Accounted(initial, l.basis, l.trades)
  }

  lemma StepBalanced(initial: real, l: Ledger, t: Tick)
    requires Sound(l) && t.price > 0.0
    requires Balanced(initial, l)
    ensures Balanced(initial, Step(l, t))
  {
    if t.signal == Sell && l.position.Long? {
      SellBalanced(initial, l, t.day, t.price);
    }
  }

  /** Closing the position keeps the books balanced: this is both the `Sell` branch of the
      loop and the forced sale after it. */
  lemma SellBalanced(initial: real, l: Ledger, day: Day, price: real)
    requires Sound(l) && l.position.Long? && price > 0.0
    requires Balanced(initial, l)
    ensures var cash := l.position.quantity * price;
            Balanced(initial, Ledger(cash, cash, Flat, l.trades + [CloseTrade(l.position, l.basis, day, price)]))
  {
    var trade := CloseTrade(l.position, l.basis, day, price);
    var trades := l.trades + [trade];
    CloseTradeFacts(l, day, price);
    assert trades[..|trades| - 1] == l.trades;
    assert AllConsistent(trades) by {
      forall k | 0 <= k < |trades|
        ensures Consistent(trades[k])
      {
        if k < |l.trades| {
          assert trades[k] == l.trades[k];
        }
      }
    }
    assert SumProfits(trades) == SumProfits(l.trades) + trade.profit;
    assert Growth(trades) == Growth(l.trades) * (price / l.position.entryPrice);
    Compound(initial, Growth(l.trades), price / l.position.entryPrice, l.basis);
  }

  /** Multiplying a compounded amount by one more factor compounds that factor too. */
  lemma Compound(initial: real, growth: real, factor: real, amount: real)
    requires amount == initial * growth
    ensures amount * factor == initial * (growth * factor)
  {
  }

  lemma {:induction false} ReplayBalanced(initial: real, ticks: seq<Tick>)
    requires initial > 0.0 && PositivePrices(ticks)
    ensures Balanced(initial, Replay(initial, ticks))
    decreases |ticks|
  {
    if |ticks| > 0 {
      ReplayBalanced(initial, ticks[..|ticks| - 1]);
      StepBalanced(initial, Replay(initial, ticks[..|ticks| - 1]), ticks[|ticks| - 1]);
    }
  }

  lemma LiquidateBalanced(initial: real, l: Ledger, last: Tick)
    requires Sound(l) && last.price > 0.0
    requires Balanced(initial, l)
    ensures Balanced(initial, Liquidate(l, last))
  {
    if l.position.Long? {
      SellBalanced(initial, l, last.day, last.price);
    }
  }

  /** Without a `Buy` row the loop never leaves its starting state. */
  lemma {:induction false} ReplayWithoutBuy(initial: real, ticks: seq<Tick>)
    requires initial > 0.0 && PositivePrices(ticks)
    ensures (forall i :: 0 <= i < |ticks| ==> ticks[i].signal != Buy) ==>
              Replay(initial, ticks) == Ledger(initial, initial, Flat, [])
    decreases |ticks|
  {
    if |ticks| > 0 {
      ReplayWithoutBuy(initial, ticks[..|ticks| - 1]);
      assert forall i :: 0 <= i < |ticks| - 1 ==> ticks[..|ticks| - 1][i] == ticks[i];
    }
  }

  /** The first `Buy` row always finds the simulator flat and opens a position, and from then
      on there is an open position or a recorded trade. Each opened position costs one `Buy`. */
  lemma {:induction false} ReplayOpensOnBuy(initial: real, ticks: seq<Tick>)
    requires initial > 0.0 && PositivePrices(ticks)
    ensures var l := Replay(initial, ticks);
            (exists i :: 0 <= i < |ticks| && ticks[i].signal == Buy) ==> l.position.Long? || |l.trades| > 0
    ensures var l := Replay(initial, ticks);
            |l.trades| + (if l.position.Long? then 1 else 0) <= CountBuys(ticks)
    decreases |ticks|
  {
    if |ticks| > 0 {
      var prefix := ticks[..|ticks| - 1];
      ReplayOpensOnBuy(initial, prefix);
      ReplayWithoutBuy(initial, prefix);
      assert forall i :: 0 <= i < |ticks| - 1 ==> prefix[i] == ticks[i];
      if exists i :: 0 <= i < |ticks| && ticks[i].signal == Buy {
        var i :| 0 <= i < |ticks| && ticks[i].signal == Buy;
        if i < |ticks| - 1 {
          assert prefix[i].signal == Buy;
        }
      }
    }
  }

  /** Row dates strictly increase. */
  predicate Chronological(ticks: seq<Tick>)
  {
    forall i, j :: 0 <= i < j < |ticks| ==> ticks[i].day < ticks[j].day
  }

  /** Trades that never overlap: each closes no earlier than it opened, and the next one opens
      strictly after it closed. At most one position is ever open. */
  predicate NonOverlapping(trades: seq<Trade>)
  {
    && (forall k :: 0 <= k < |trades| ==> trades[k].entryDay <= trades[k].exitDay)
    && (forall k :: 0 <= k < |trades| - 1 ==> trades[k].exitDay < trades[k + 1].entryDay)
  }

  /** The ledger after rows that end on day `last`: its trades do not overlap and lie no later
      than `last`, and an open position opened no later than `last` and after every trade. */
  predicate OrderedUpTo(l: Ledger, last: Day)
  {
    && NonOverlapping(l.trades)
    && (forall k :: 0 <= k < |l.trades| ==> l.trades[k].exitDay <= last)
    && (l.position.Long? ==>
          && l.position.entryDay <= last
          && (|l.trades| > 0 ==> l.trades[|l.trades| - 1].exitDay < l.position.entryDay))
  }

  lemma {:induction false} ReplayOrdered(initial: real, ticks: seq<Tick>)
    requires initial > 0.0 && PositivePrices(ticks)
    requires Chronological(ticks)
    requires |ticks| > 0
    ensures OrderedUpTo(Replay(initial, ticks), ticks[|ticks| - 1].day)
    decreases |ticks|
  {
    var t := ticks[|ticks| - 1];
    var prefix := ticks[..|ticks| - 1];
    if |prefix| > 0 {
      ReplayOrdered(initial, prefix);
      StepOrdered(Replay(initial, prefix), t, prefix[|prefix| - 1].day);
    } else {
      StepOrdered(Replay(initial, prefix), t, t.day - 1);
    }
  }

  /** A row dated after every earlier one keeps the trades in order. */
  lemma StepOrdered(l: Ledger, t: Tick, last: Day)
    requires Sound(l) && t.price > 0.0
    requires OrderedUpTo(l, last) && last < t.day
    ensures OrderedUpTo(Step(l, t), t.day)
  {
    if t.signal == Sell && l.position.Long? {
      var trade := CloseTrade(l.position, l.basis, t.day, t.price);
      var trades := l.trades + [trade];
      assert Step(l, t).trades == trades;
      assert trades[..|trades| - 1] == l.trades;
      AppendOrdered(l.trades, trade, t.day);
    }
  }

  /** A trade that opened after the last one closed, and closes no earlier than it opened,
      extends a non-overlapping list. */
  lemma AppendOrdered(trades: seq<Trade>, t: Trade, last: Day)
    requires NonOverlapping(trades)
    requires t.entryDay <= t.exitDay <= last
    requires |trades| > 0 ==> trades[|trades| - 1].exitDay < t.entryDay
    requires forall k :: 0 <= k < |trades| ==> trades[k].exitDay <= last
    ensures NonOverlapping(trades + [t])
    ensures forall k :: 0 <= k < |trades + [t]| ==> (trades + [t])[k].exitDay <= last
  {
  }

  // ---------------------------------------------------------------------------------------
  // Where the recorded prices come from

  /** Some row labelled `signal` has this date and price. */
  predicate RowAt(ticks: seq<Tick>, signal: Signal, day: Day, price: real)
  {
    exists i :: 0 <= i < |ticks| && ticks[i] == Tick(day, price, signal)
  }

  /** Every trade of the ledger bought at a `Buy` row and sold at a `Sell` row, and an open
      position was bought at a `Buy` row. */
  predicate Traced(ticks: seq<Tick>, l: Ledger)
  {
    && (forall k :: 0 <= k < |l.trades| ==>
          && RowAt(ticks, Buy, l.trades[k].entryDay, l.trades[k].entryPrice)
          && RowAt(ticks, Sell, l.trades[k].exitDay, l.trades[k].exitPrice))
    && (l.position.Long? ==> RowAt(ticks, Buy, l.position.entryDay, l.position.entryPrice))
  }

  /** A row of a prefix is a row of the whole. */
  lemma RowOfPrefix(ticks: seq<Tick>, n: nat, signal: Signal, day: Day, price: real)
    requires n <= |ticks| && RowAt(ticks[..n], signal, day, price)
    ensures RowAt(ticks, signal, day, price)
  {
    var i :| 0 <= i < n && ticks[..n][i] == Tick(day, price, signal);
    assert ticks[i] == Tick(day, price, signal);
  }

  lemma TracedOfPrefix(ticks: seq<Tick>, l: Ledger)
    requires |ticks| > 0 && Traced(ticks[..|ticks| - 1], l)
    ensures Traced(ticks, l)
  {
    var n := |ticks| - 1;
    forall k | 0 <= k < |l.trades|
      ensures RowAt(ticks, Buy, l.trades[k].entryDay, l.trades[k].entryPrice)
      ensures RowAt(ticks, Sell, l.trades[k].exitDay, l.trades[k].exitPrice)
    {
      RowOfPrefix(ticks, n, Buy, l.trades[k].entryDay, l.trades[k].entryPrice);
      RowOfPrefix(ticks, n, Sell, l.trades[k].exitDay, l.trades[k].exitPrice);
    }
    if l.position.Long? {
      RowOfPrefix(ticks, n, Buy, l.position.entryDay, l.position.entryPrice);
    }
  }

  /** A `Buy` row is where a position opens, a `Sell` row is where it closes. */
  lemma StepTraced(ticks: seq<Tick>, l: Ledger)
    requires |ticks| > 0 && Sound(l) && ticks[|ticks| - 1].price > 0.0
    requires Traced(ticks, l)
    ensures Traced(ticks, Step(l, ticks[|ticks| - 1]))
  {
    var t := ticks[|ticks| - 1];
    assert ticks[|ticks| - 1] == Tick(t.day, t.price, t.signal);
    if t.signal == Sell && l.position.Long? {
      var r := Step(l, t);
      assert r.trades == l.trades + [CloseTrade(l.position, l.basis, t.day, t.price)];
      forall k | 0 <= k < |r.trades|
        ensures RowAt(ticks, Buy, r.trades[k].entryDay, r.trades[k].entryPrice)
        ensures RowAt(ticks, Sell, r.trades[k].exitDay, r.trades[k].exitPrice)
      {
        if k < |l.trades| {
          assert r.trades[k] == l.trades[k];
        }
      }
    }
  }

  /** The loop buys only at `Buy` rows and sells only at `Sell` rows. */
  lemma {:induction false} ReplayTraced(initial: real, ticks: seq<Tick>)
    requires initial > 0.0 && PositivePrices(ticks)
    ensures Traced(ticks, Replay(initial, ticks))
    decreases |ticks|
  {
    if |ticks| > 0 {
      var prefix := ticks[..|ticks| - 1];
      ReplayTraced(initial, prefix);
      TracedOfPrefix(ticks, Replay(initial, prefix));
      StepTraced(ticks, Replay(initial, prefix));
    }
  }

  /** A finished trade bought at a `Buy` row and sold at a `Sell` row or, forced, at the last row. */
  predicate FromRows(ticks: seq<Tick>, t: Trade)
  {
    && RowAt(ticks, Buy, t.entryDay, t.entryPrice)
    && (|| RowAt(ticks, Sell, t.exitDay, t.exitPrice)
        || (|ticks| > 0 && t.exitDay == ticks[|ticks| - 1].day && t.exitPrice == ticks[|ticks| - 1].price))
  }

  lemma FinishTraced(initial: real, ticks: seq<Tick>)
    requires initial > 0.0 && PositivePrices(ticks)
    ensures var l := Finish(initial, ticks);
            forall k :: 0 <= k < |l.trades| ==> FromRows(ticks, l.trades[k])
  {
    var open := Replay(initial, ticks);
    ReplayTraced(initial, ticks);
    if |ticks| > 0 && open.position.Long? {
      var r := Liquidate(open, ticks[|ticks| - 1]);
      forall k | 0 <= k < |r.trades| ensures FromRows(ticks, r.trades[k]) {
        if k < |open.trades| {
          assert r.trades[k] == open.trades[k];
        }
      }
    }
  }

  // ---------------------------------------------------------------------------------------
  // The report

  /** The fixed starting capital the report shows and measures the total return against. */
  const ReportedInitialAmount: real := 10000.0

  /** The dict `trade` returns, without the 2-decimal rounding of the two percentages. */
  datatype Report = Report(
    initialAmount: real,
    finalAmount: real,
    totalReturnPct: real,
    successRatePct: real,
    tradesCount: nat,
    trades: seq<Trade>)

  /** The number of trades with a positive profit. */
  function CountProfitable(trades: seq<Trade>): (n: nat)
    ensures n <= |trades|
    ensures n == |trades| <==> forall k :: 0 <= k < |trades| ==> trades[k].profit > 0.0
    ensures n == 0 <==> forall k :: 0 <= k < |trades| ==> trades[k].profit <= 0.0
    ensures |trades| == 1 ==> (n == 1 <==> trades[0].profit > 0.0)
  {
    if |trades| == 0 then 0
    else
      var rest := CountProfitable(trades[..|trades| - 1]);
      assert forall k :: 0 <= k < |trades| - 1 ==> trades[..|trades| - 1][k] == trades[k];
      rest + (if trades[|trades| - 1].profit > 0.0 then 1 else 0)
  }

  /** Counting the winning trades of two runs of trades one after the other is adding the
      counts of each run: with the single-trade case, this fixes the count of any list. */
  lemma {:induction false} CountProfitableConcat(a: seq<Trade>, b: seq<Trade>)
    ensures CountProfitable(a + b) == CountProfitable(a) + CountProfitable(b)
    decreases |b|
  {
    if |b| > 0 {
      var ab := a + b;
      var b' := b[..|b| - 1];
      assert ab[..|ab| - 1] == a + b';
      assert ab[|ab| - 1] == b[|b| - 1];
      CountProfitableConcat(a, b');
    } else {
      assert a + b == a;
    }
  }

  /** The percentage of `wins` among `n` lies between 0 and 100, and is at either end exactly
      when all or none of them are wins. */
  lemma SuccessRate(wins: nat, n: nat)
    requires 0 < n && wins <= n
    ensures var rate := wins as real / n as real * 100.0;
            && 0.0 <= rate <= 100.0
            && (rate == 100.0 <==> wins == n)
            && (rate == 0.0 <==> wins == 0)
    ensures (wins as real / n as real * 100.0) * (n as real) == (wins as real) * 100.0
  {
    var share := wins as real / n as real;
    assert share * n as real == wins as real;
    assert share * 100.0 * n as real == share * n as real * 100.0;
    assert 0.0 <= share <= 1.0;
    if wins == n {
      DivFromMul(wins as real, n as real, 1.0);
    }
    if wins == 0 {
      DivFromMul(0.0, n as real, 0.0);
    }
  }

  /** The results block of `trade`. With no trade both percentages are 0; otherwise the total
      return compares the final amount with the fixed 10000, and the success rate is the share
      of trades with a profit: 100 exactly when all made one, 0 exactly when none did. */
  function Summarize(amount: real, trades: seq<Trade>): (r: Report)
    ensures r.initialAmount == ReportedInitialAmount
    ensures r.finalAmount == amount && r.trades == trades && r.tradesCount == |trades|
    ensures |trades| == 0 ==> r.totalReturnPct == 0.0 && r.successRatePct == 0.0
    ensures |trades| > 0 ==> r.totalReturnPct * ReportedInitialAmount == (amount - ReportedInitialAmount) * 100.0
    ensures 0.0 <= r.successRatePct <= 100.0
    ensures |trades| > 0 ==> (r.successRatePct == 100.0 <==> forall k :: 0 <= k < |trades| ==> trades[k].profit > 0.0)
    ensures r.successRatePct == 0.0 <==> forall k :: 0 <= k < |trades| ==> trades[k].profit <= 0.0
  {
    var n := |trades|;
    if n > 0 then
      var wins := CountProfitable(trades);
      var rate := wins as real / n as real * 100.0;
      SuccessRate(wins, n);
      Report(ReportedInitialAmount, amount, (amount - ReportedInitialAmount) / ReportedInitialAmount * 100.0, rate, n, trades)
    else
      Report(ReportedInitialAmount, amount, 0.0, 0.0, 0, trades)
  }

  /** The reported success rate is the share of winning trades in percent: a hundredth of it is
      the number of trades with a profit over the number of trades. */
  lemma SummarizeRate(amount: real, trades: seq<Trade>)
    requires |trades| > 0
    ensures Summarize(amount, trades).successRatePct / 100.0 == (CountProfitable(trades) as real) / (|trades| as real)
  {
  }

  /** `trade(df, column, initial_amount)`: the loop over the rows, the forced sale of a position
      still open at the end, and the results block. */
  function Simulate(ticks: seq<Tick>, initial: real): (report: Report)
    requires initial > 0.0 && PositivePrices(ticks)
    // No `Buy` row: nothing happens and the money is unchanged.
    ensures (forall i :: 0 <= i < |ticks| ==> ticks[i].signal != Buy) ==>
              && report.tradesCount == 0 && report.finalAmount == initial
              && report.totalReturnPct == 0.0 && report.successRatePct == 0.0
    // Some `Buy` row: the first one is executed, and its position is always closed and counted.
    ensures report.tradesCount > 0 <==> exists i :: 0 <= i < |ticks| && ticks[i].signal == Buy
    ensures report.tradesCount <= CountBuys(ticks)
    // The books balance: the profits add up to the final amount minus the initial cash, the
    // final amount is the initial cash compounded over the trades, and each trade's return is
    // its relative price change.
    ensures Accounted(initial, report.finalAmount, report.trades)
    // With dated rows in order, the trades never overlap.
    ensures Chronological(ticks) ==> NonOverlapping(report.trades)
    // Every trade bought at a `Buy` row and sold at a `Sell` row or at the last row.
    ensures forall k :: 0 <= k < |report.trades| ==> FromRows(ticks, report.trades[k])
    ensures report.initialAmount == ReportedInitialAmount && report.tradesCount == |report.trades|
  {
    var closed := Finish(initial, ticks);
    FinishCounts(initial, ticks);
    FinishTraced(initial, ticks);
    FinishBalanced(initial, ticks);
    FinishOrdered(initial, ticks);
    Summarize(closed.amount, closed.trades)
  }

  /** The ledger once the loop and the forced sale are done. */
  function Finish(initial: real, ticks: seq<Tick>): (l: Ledger)
    requires initial > 0.0 && PositivePrices(ticks)
    ensures l.position.Flat? && Sound(l)
  {
    var open := Replay(initial, ticks);
    if |ticks| == 0 then open else Liquidate(open, ticks[|ticks| - 1])
  }

  lemma FinishCounts(initial: real, ticks: seq<Tick>)
    requires initial > 0.0 && PositivePrices(ticks)
    ensures var l := Finish(initial, ticks);
            (forall i :: 0 <= i < |ticks| ==> ticks[i].signal != Buy) ==> l.trades == [] && l.amount == initial
    ensures var l := Finish(initial, ticks);
            |l.trades| > 0 <==> exists i :: 0 <= i < |ticks| && ticks[i].signal == Buy
    ensures |Finish(initial, ticks).trades| <= CountBuys(ticks)
  {
    ReplayWithoutBuy(initial, ticks);
    ReplayOpensOnBuy(initial, ticks);
  }

  lemma FinishBalanced(initial: real, ticks: seq<Tick>)
    requires initial > 0.0 && PositivePrices(ticks)
    ensures Balanced(initial, Finish(initial, ticks))
  {
    var open := Replay(initial, ticks);
    ReplayBalanced(initial, ticks);
    if |ticks| > 0 {
      LiquidateBalanced(initial, open, ticks[|ticks| - 1]);
    }
  }

  lemma FinishOrdered(initial: real, ticks: seq<Tick>)
    requires initial > 0.0 && PositivePrices(ticks)
    ensures Chronological(ticks) ==> NonOverlapping(Finish(initial, ticks).trades)
  {
    if Chronological(ticks) && |ticks| > 0 {
      ReplayOrdered(initial, ticks);
      var l := Replay(initial, ticks);
      var r := Liquidate(l, ticks[|ticks| - 1]);
      if l.position.Long? {
        assert r.trades[..|r.trades| - 1] == l.trades;
      }
    }
  }

  /** `RSIBacktesting.backtest`: label by RSI, then simulate on the close prices. A trade is
      made exactly when some bar's RSI is below 30. */
  function RsiBacktest(days: seq<Day>, closes: seq<real>, rsi: seq<Option<real>>, initial: real): (report: Report)
    requires |days| == |closes| == |rsi|
    requires initial > 0.0 && forall i :: 0 <= i < |closes| ==> closes[i] > 0.0
    ensures report.tradesCount > 0 <==> exists i :: 0 <= i < |rsi| && rsi[i].Some? && rsi[i].value < Oversold
  {
    var ticks := Ticks(days, closes, RsiLabels(rsi));
    assert forall i :: 0 <= i < |ticks| ==> ticks[i].signal == RsiLabels(rsi)[i];
    Simulate(ticks, initial)
  }

  /** `SMABacktesting.backtest`: label by moving-average crossings, then simulate on the close
      prices. A trade is made exactly when the short average crosses above the long one. */
  function SmaBacktest(days: seq<Day>, closes: seq<real>, short: seq<Option<real>>, long: seq<Option<real>>,
                       initial: real): (report: Report)
    requires |days| == |closes| == |short| == |long|
    requires initial > 0.0 && forall i :: 0 <= i < |closes| ==> closes[i] > 0.0
    ensures report.tradesCount > 0 <==> exists i :: 0 <= i < |short| && CrossesAbove(short, long, i)
  {
    var ticks := Ticks(days, closes, SmaLabels(short, long));
    assert forall i :: 0 <= i < |ticks| ==> ticks[i].signal == SmaLabels(short, long)[i];
    Simulate(ticks, initial)
  }
}
