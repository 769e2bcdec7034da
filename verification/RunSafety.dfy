/** What holds of every run of the trading loop that never asks to sell more than all it holds. */
module RunSafety {
  import opened Wrappers
  import opened Seqs
  import opened Orders
  import opened RiskGate
  import opened PaperExecutor
  import opened RunLoop
  import P = Portfolio
  import B = Backtest

  /** What a filled buy costs over its notional at the tick's price: spread and fee compounded, less one. */
  const MARKUP := (1.0 + SPREAD) * (1.0 + FEE) - 1.0

  function Overhead(notional: real): real {
    notional * MARKUP
  }

  predicate FractionOk(d: Decision) {
    d.SellFraction? ==> d.fraction <= 1.0
  }

  predicate FractionsOk(ticks: seq<Tick>) {
    forall k :: 0 <= k < |ticks| ==> FractionOk(ticks[k].decision)
  }

  /** The lowest cash a run can reach. */
  function Floor(cfg: Config, start: real): real {
    P.Min(start, -Overhead(cfg.maxOrderNotional))
  }

  // ---- one fill ----

  lemma PortionWithin(x: real, f: real)
    requires x >= 0.0 && f <= 1.0
    ensures x * f <= x
  {}

  /** A decision becomes an order exactly if the price and the amount are positive; the order is for that amount. */
  lemma SizedExactly(d: Decision, sym: string, position: real, equity: real, price: real)
    ensures var o := Size(d, sym, position, equity, price);
            && (o.Some? <==>
                  && price > 0.0
                  && match d
                     case Hold => false
                     case BuyFraction(f) => equity * f > 0.0
                     case SellFraction(f) => position * f > 0.0)
            && (o.Some? ==>
                  && o.value.symbol == sym && o.value.limitPrice == Some(price) && o.value.maxSlippage == 0.02
                  && o.value.venue == Paper && o.value.qty > 0.0
                  && match d
                     case Hold => false
                     case BuyFraction(f) => o.value.side.Buy? && o.value.qty * price == equity * f
                     case SellFraction(f) => o.value.side.Sell? && o.value.qty == position * f)
  {
    if price > 0.0 && d.BuyFraction? { QuotientExactly(equity * d.fraction, price); }
    hide Quotient;
  }

  lemma QuotientExactly(x: real, d: real)
    requires d > 0.0
    ensures Quotient(x, d) * d == x && (Quotient(x, d) > 0.0 <==> x > 0.0)
  {
    var q := x / d;
    assert q * d == x;
    if q <= 0.0 { NotPositive(q, d); } else { IsPositive(q, d); }
  }

  lemma IsPositive(q: real, p: real)
    requires q > 0.0 && p > 0.0
    ensures q * p > 0.0
  {}

  lemma NotPositive(q: real, p: real)
    requires q <= 0.0 && p > 0.0
    ensures q * p <= 0.0
  {}

  /** What the gate and the venue let through: the fill is the decision's order at the spread price. */
  ghost predicate FillShape(cfg: Config, s: Loop, t: Tick, f: Fill) {
    && t.price > 0.0 && f.symbol == t.symbol && f.qty > 0.0
    && f.price == ExecPrice(f.side, t.price, SPREAD)
    && f.fee == (f.qty * f.price) * FEE
    && (t.decision.BuyFraction? ==>
          && f.side.Buy?
          && f.qty * t.price == P.Equity(s.book, Prices(s.latest[t.symbol := t.price])) * t.decision.fraction
          && Worth(f.qty, t.price) <= cfg.maxOrderNotional
          && Worth(f.qty, t.price) <= s.book.cash
          && |P.Held(s.book) + {t.symbol}| <= MaxNat(cfg.maxOpenPositions, |P.Held(s.book)|)
          && (CooldownWorks(cfg) && t.symbol in s.lastOrder ==>
                t.checked - s.lastOrder[t.symbol] >= cfg.cooldownSecs * SECOND))
    && (t.decision.SellFraction? ==> f.side.Sell? && f.qty == P.Qty(s.book, t.symbol) * t.decision.fraction)
    && !t.decision.Hold?
    && s.book.realized > -cfg.maxDailyLoss
  }

  lemma ExecutedFill(prices: map<string, real>, o: Order)
    requires Executed(prices, o, SPREAD, FEE).Ok?
    ensures o.symbol in prices
    ensures var price := ExecPrice(o.side, prices[o.symbol], SPREAD);
            Executed(prices, o, SPREAD, FEE).value == Fill(o.symbol, o.side, o.qty, price, (o.qty * price) * FEE)
  {
    hide ExecPrice, Slip;
  }

  lemma FillHasShape(cfg: Config, s: Loop, t: Tick)
    requires FillOf(cfg, s, t).Some?
    ensures FillShape(cfg, s, t, FillOf(cfg, s, t).value)
  {
    hide P.Equity, P.Unrealized, P.Qty, P.Held, Check, Executed, ExecPrice, Worth, Size, MaxNat, Prices;
    var latest := s.latest[t.symbol := t.price];
    var c := GateContext(s.book, latest, s.lastOrder, t);
    var order := Size(t.decision, t.symbol, P.Qty(s.book, t.symbol), c.equity, t.price).value;
    SizedExactly(t.decision, t.symbol, P.Qty(s.book, t.symbol), c.equity, t.price);
    ExecutedFill(latest, order);
    HardStopsDominate(cfg, order, c);
    if order.side.Buy? { PassedBuyIsWithinLimits(cfg, order, c); }
  }

  /**
   The venue never refuses what the gate let through: a tick is filled exactly if its decision becomes an
   order that passes the gate against the ledger, its equity and unrealized profit at the latest
   prices, this tick's price and clock, and the time of the symbol's last fill.
   */
  lemma FilledExactly(cfg: Config, s: Loop, t: Tick)
    ensures var price := Prices(s.latest[t.symbol := t.price]);
            var equity := P.Equity(s.book, price);
            var order := Size(t.decision, t.symbol, P.Qty(s.book, t.symbol), equity, t.price);
            var last := if t.symbol in s.lastOrder then Some(s.lastOrder[t.symbol]) else None;
            var c := Context(s.book, Some(t.price), equity, P.Unrealized(s.book, price), last, t.checked);
            FillOf(cfg, s, t).Some? <==> order.Some? && Check(cfg, order.value, c).Ok?
  {
    hide P.Equity, P.Unrealized, P.Qty, Check, ExecPrice, Slip, Size, Fee;
    var equity := P.Equity(s.book, Prices(s.latest[t.symbol := t.price]));
    SizedExactly(t.decision, t.symbol, P.Qty(s.book, t.symbol), equity, t.price);
    if t.price > 0.0 {
      SlipIsSpread(Buy, t.price, SPREAD);
      SlipIsSpread(Sell, t.price, SPREAD);
    }
  }

  /** A fill costs ten basis points of spread and five of fee, together 15.005 for a buy. */
  lemma FillCostsExactly(cfg: Config, s: Loop, t: Tick)
    requires FillOf(cfg, s, t).Some?
    ensures var f := FillOf(cfg, s, t).value;
            && f.price == t.price * (if f.side.Buy? then 1.0010 else 0.9990) && f.fee == (f.qty * f.price) * 0.0005
    ensures MARKUP == 0.0015005
  {
    hide FillOf, P.Equity, P.Held, Worth;
    FillHasShape(cfg, s, t);
  }

  // ---- cash ----

  lemma BuyCost(n: real)
    ensures n * (1.0 + SPREAD) * (1.0 + FEE) == n + Overhead(n)
  {}

  lemma BuyCash(f: Fill, price: real)
    requires f.side.Buy? && f.price == ExecPrice(Buy, price, SPREAD) && f.fee == (f.qty * f.price) * FEE
    ensures f.CashDelta() == -(Worth(f.qty, price) + Overhead(Worth(f.qty, price)))
  {
    var n := Worth(f.qty, price);
    assert f.qty * f.price == n * (1.0 + SPREAD);
    BuyCost(n);
  }

  lemma SellCash(f: Fill, price: real)
    requires f.side.Sell? && f.qty > 0.0 && price > 0.0
    requires f.price == ExecPrice(Sell, price, SPREAD) && f.fee == (f.qty * f.price) * FEE
    ensures f.CashDelta() > 0.0
  {
    assert f.price > 0.0;
    var gross := f.qty * f.price;
    assert gross > 0.0;
    assert f.CashDelta() == gross - gross * FEE;
  }

  lemma Monotonic(n: real, cap: real)
    requires n <= cap
    ensures Overhead(n) <= Overhead(cap)
    ensures Overhead(0.0) == 0.0
  {}

  lemma FillKeepsFloor(cfg: Config, s: Loop, t: Tick, f: Fill, start: real)
    requires FillShape(cfg, s, t, f) && s.book.cash >= Floor(cfg, start)
    ensures P.Applied(s.book, f).cash >= Floor(cfg, start)
  {
    P.CashAndProfit(s.book, f);
    hide P.Applied, ExecPrice, Worth, Overhead;
    if f.side.Buy? {
      BuyCash(f, t.price);
      Monotonic(Worth(f.qty, t.price), cfg.maxOrderNotional);
    } else {
      SellCash(f, t.price);
    }
  }

  // ---- positions ----

  lemma FillIsLong(cfg: Config, s: Loop, t: Tick, f: Fill)
    requires FillShape(cfg, s, t, f) && FractionOk(t.decision) && P.LongBook(s.book)
    ensures P.LongFill(s.book, f)
  {
    hide ExecPrice, Worth;
    if t.decision.SellFraction? { PortionWithin(P.Qty(s.book, t.symbol), t.decision.fraction); }
  }

  lemma HeldAfter(b: P.Book, f: Fill)
    ensures f.side.Buy? ==> P.Held(P.Applied(b, f)) <= P.Held(b) + {f.symbol}
    ensures f.side.Sell? && P.LongFill(b, f) && f.qty > 0.0 ==> P.Held(P.Applied(b, f)) <= P.Held(b)
  {
    P.Elsewhere(b, f);
    var after := P.Applied(b, f);
    hide P.Applied, P.Avg;
    forall k | k in P.Held(after) && k != f.symbol
      ensures k in P.Held(b)
    {
      assert P.Qty(after, k) == P.Qty(b, k);
    }
    if f.side.Sell? && P.LongFill(b, f) && f.qty > 0.0 {
      assert P.Qty(b, f.symbol) > 0.0;
    }
  }

  lemma FillKeepsOpenLimit(cfg: Config, s: Loop, t: Tick, f: Fill, limit: nat)
    requires FillShape(cfg, s, t, f) && P.LongFill(s.book, f)
    requires cfg.maxOpenPositions <= limit && |P.Held(s.book)| <= limit
    ensures |P.Held(P.Applied(s.book, f))| <= limit
  {
    HeldAfter(s.book, f);
    hide P.Applied, P.Held, ExecPrice, Worth, Portion;
    SubsetCard(P.Held(P.Applied(s.book, f)), if f.side.Buy? then P.Held(s.book) + {f.symbol} else P.Held(s.book));
  }

  // ---- whole runs ----

  /** What a run that began with the ledger `from` keeps. */
  ghost predicate Safe(cfg: Config, from: P.Book, s: Loop) {
    && P.LongBook(s.book)
    && |P.Held(s.book)| <= MaxNat(cfg.maxOpenPositions, |P.Held(from)|)
    && s.book.cash >= Floor(cfg, from.cash)
  }

  lemma FillKeepsSafe(cfg: Config, from: P.Book, s: Loop, t: Tick, f: Fill)
    requires Safe(cfg, from, s) && FractionOk(t.decision) && FillShape(cfg, s, t, f)
    ensures var book := P.Applied(s.book, f);
            && P.LongBook(book) && P.LongFill(s.book, f)
            && |P.Held(book)| <= MaxNat(cfg.maxOpenPositions, |P.Held(from)|)
            && book.cash >= Floor(cfg, from.cash)
  {
    FillIsLong(cfg, s, t, f);
    P.FillKeepsLongBook(s.book, f);
    FillKeepsOpenLimit(cfg, s, t, f, MaxNat(cfg.maxOpenPositions, |P.Held(from)|));
    FillKeepsFloor(cfg, s, t, f, from.cash);
    hide P.Applied, P.Held, P.LongBook, P.LongFill, Floor, ExecPrice, Worth, FillShape;
  }

  lemma TickBooks(cfg: Config, s: Loop, t: Tick)
    ensures var s', fill := Ticked(cfg, s, t), FillOf(cfg, s, t);
            && s'.book == (if fill.Some? then P.Applied(s.book, fill.value) else s.book)
            && s'.fills == (if fill.Some? then s.fills + [fill.value] else s.fills)
            && s'.latest.Keys == s.latest.Keys + {t.symbol}
  {
    hide FillOf, P.Applied, P.Equity;
  }

  lemma TickKeepsSafe(cfg: Config, from: P.Book, s: Loop, t: Tick)
    requires Safe(cfg, from, s) && FractionOk(t.decision)
    ensures Safe(cfg, from, Ticked(cfg, s, t))
  {
    hide Ticked, FillOf, P.Applied, P.Held, P.LongBook, Floor, FillShape, FractionOk, MaxNat;
    TickBooks(cfg, s, t);
    if FillOf(cfg, s, t).Some? {
      FillHasShape(cfg, s, t);
      FillKeepsSafe(cfg, from, s, t, FillOf(cfg, s, t).value);
    }
  }

  /**
   In every run, from fresh cash or from a restored ledger without short positions: no position is
   negative, at most `max_open_positions` symbols are held (or as many as were restored), and cash
   never falls below the floor.
   */
  lemma {:induction false} RunIsSafe(cfg: Config, from: P.Book, ticks: seq<Tick>)
    requires FractionsOk(ticks) && P.LongBook(from)
    ensures Safe(cfg, from, RunLoop.Run(cfg, from, ticks))
  {
    if ticks != [] {
      hide Safe, Ticked, P.LongBook;
      RunIsSafe(cfg, from, ticks[..|ticks| - 1]);
      TickKeepsSafe(cfg, from, RunLoop.Run(cfg, from, ticks[..|ticks| - 1]), ticks[|ticks| - 1]);
    }
  }

  /** A fresh ledger is one to begin with: nothing short, nothing held. */
  lemma OpeningIsLong(cash: real)
    ensures P.LongBook(P.Opening(cash)) && P.Held(P.Opening(cash)) == {}
  {
    assert P.Held(P.Opening(cash)) == {};
  }

  // ---- the accounts of a run from fresh cash ----

  ghost predicate Accounted(start: real, s: Loop) {
    && B.LongTrades(start, s.fills) && s.book == P.Run(start, s.fills)
    && P.Held(s.book) <= s.latest.Keys
  }

  lemma TradesPush(start: real, fills: seq<Fill>, f: Fill)
    requires B.LongTrades(start, fills) && P.LongFill(P.Run(start, fills), f) && f.qty > 0.0
    ensures B.LongTrades(start, fills + [f])
    ensures P.Run(start, fills + [f]) == P.Applied(P.Run(start, fills), f)
  {
    hide P.LongFill, P.Applied;
    assert (fills + [f])[..|fills|] == fills;
  }

  lemma TickKeepsAccounts(cfg: Config, start: real, s: Loop, t: Tick)
    requires Safe(cfg, P.Opening(start), s) && Accounted(start, s) && FractionOk(t.decision)
    ensures Accounted(start, Ticked(cfg, s, t))
  {
    hide Ticked, FillOf, P.Applied, P.Held, P.LongBook, P.LongFill, B.LongTrades, P.Run, Floor, Safe, FractionOk;
    hide ExecPrice, Worth, Portion;
    TickBooks(cfg, s, t);
    if FillOf(cfg, s, t).Some? {
      var f := FillOf(cfg, s, t).value;
      FillHasShape(cfg, s, t);
      FillKeepsSafe(cfg, P.Opening(start), s, t, f);
      HeldAfter(s.book, f);
      TradesPush(start, s.fills, f);
    }
  }

  /** A run's ledger is the ledger of its own fills, and no sell exceeded what was held. */
  lemma {:induction false} RunIsAccounted(cfg: Config, start: real, ticks: seq<Tick>)
    requires FractionsOk(ticks)
    ensures Accounted(start, RunLoop.Run(cfg, P.Opening(start), ticks))
  {
    OpeningIsLong(start);
    if ticks != [] {
      var init := ticks[..|ticks| - 1];
      RunIsAccounted(cfg, start, init);
      RunIsSafe(cfg, P.Opening(start), init);
      hide Safe, Accounted, Ticked, P.LongBook, P.Held;
      TickKeepsAccounts(cfg, start, RunLoop.Run(cfg, P.Opening(start), init), ticks[|ticks| - 1]);
    }
  }

  /** The three accounts of a run agree: ledger, mark-to-market equity and the backtest's lots. */
  lemma AccountsAgree(cfg: Config, start: real, ticks: seq<Tick>)
    requires FractionsOk(ticks)
    ensures var s := RunLoop.Run(cfg, P.Opening(start), ticks);
            var price := Prices(s.latest);
            && P.Equity(s.book, price) == start + s.book.realized + P.Unrealized(s.book, price) - P.BuyFees(s.fills)
            && B.Total(B.Pnls(s.fills)) - B.OpenCost(B.LotsAfter(s.fills)) == s.book.cash - start
  {
    var s := RunLoop.Run(cfg, P.Opening(start), ticks);
    RunIsAccounted(cfg, start, ticks);
    hide RunLoop.Run, P.Run, P.Equity, P.Unrealized, P.UnpricedCost, P.BuyFees, P.Cost, P.LongOnly, P.LongBook;
    hide B.OpenCost, B.Pnls, B.Total, B.LotsAfter, B.UnseenCash;
    P.EquityIdentity(start, s.fills, Prices(s.latest));
    B.BacktestAgrees(start, s.fills);
  }

  // ---- what a run records ----

  /** The equity curve has one point per tick: the ledger after that tick at the prices known then. */
  lemma {:induction false} CurveIsEquity(cfg: Config, from: P.Book, ticks: seq<Tick>, k: nat)
    requires k < |ticks|
    ensures var s := RunLoop.Run(cfg, from, ticks[..k + 1]);
            && |RunLoop.Run(cfg, from, ticks).curve| == |ticks|
            && RunLoop.Run(cfg, from, ticks).curve[k] == P.Equity(s.book, Prices(s.latest))
  {
    hide RunLoop.Run, Ticked, P.Equity, Prices;
    var init, last := ticks[..|ticks| - 1], ticks[|ticks| - 1];
    TickStep(cfg, from, ticks, |init|);
    assert ticks[..|ticks|] == ticks;
    TickCurve(cfg, RunLoop.Run(cfg, from, init), last);
    if init == [] {
      StartIsRun(cfg, from);
    } else if k < |init| {
      CurveIsEquity(cfg, from, init, k);
      assert init[..k + 1] == ticks[..k + 1];
    } else {
      CurveIsEquity(cfg, from, init, 0);
    }
  }

  lemma TickCurve(cfg: Config, s: Loop, t: Tick)
    ensures var s' := Ticked(cfg, s, t);
            s'.curve == s.curve + [P.Equity(s'.book, Prices(s'.latest))]
  {
    hide FillOf, P.Applied, P.Equity;
  }

  /** The price known for a symbol is that of its last tick. */
  lemma {:induction false} LatestIsLastTick(cfg: Config, from: P.Book, ticks: seq<Tick>, j: nat, sym: string)
    requires j < |ticks| && ticks[j].symbol == sym && forall m :: j < m < |ticks| ==> ticks[m].symbol != sym
    ensures Prices(RunLoop.Run(cfg, from, ticks).latest)(sym) == Some(ticks[j].price)
  {
    hide RunLoop.Run, Ticked;
    var init := ticks[..|ticks| - 1];
    TickStep(cfg, from, ticks, |init|);
    assert ticks[..|ticks|] == ticks;
    TickPrice(cfg, RunLoop.Run(cfg, from, init), ticks[|init|]);
    if j < |init| { LatestIsLastTick(cfg, from, init, j, sym); }
  }

  lemma TickPrice(cfg: Config, s: Loop, t: Tick)
    ensures Ticked(cfg, s, t).latest == s.latest[t.symbol := t.price]
  {
    hide FillOf, P.Applied, P.Equity;
  }

  /** A symbol that has not ticked has no price. */
  lemma {:induction false} UnseenHasNoPrice(cfg: Config, from: P.Book, ticks: seq<Tick>, sym: string)
    requires forall m :: 0 <= m < |ticks| ==> ticks[m].symbol != sym
    ensures Prices(RunLoop.Run(cfg, from, ticks).latest)(sym) == None
  {
    hide Ticked;
    if ticks != [] {
      UnseenHasNoPrice(cfg, from, ticks[..|ticks| - 1], sym);
      TickPrice(cfg, RunLoop.Run(cfg, from, ticks[..|ticks| - 1]), ticks[|ticks| - 1]);
    }
  }

  /** The run takes the ticks up to the first shutdown request, and no further. */
  lemma {:induction false} TakenExactly(ticks: seq<Tick>)
    ensures Taken(ticks) <= ticks && forall k :: 0 <= k < |Taken(ticks)| ==> !Taken(ticks)[k].shutdown
    ensures |Taken(ticks)| < |ticks| ==> ticks[|Taken(ticks)|].shutdown
  {
    if ticks != [] && !ticks[0].shutdown { TakenExactly(ticks[1..]); }
  }

  // ---- cooldown ----

  /** Tick k of the run fills an order for `sym`. */
  ghost predicate FilledAt(cfg: Config, from: P.Book, ticks: seq<Tick>, k: nat, sym: string)
    requires k < |ticks|
  {
    ticks[k].symbol == sym && FillOf(cfg, RunLoop.Run(cfg, from, ticks[..k]), ticks[k]).Some?
  }

  /** After tick j filled `sym` and no later one did, the loop remembers j's time. */
  lemma {:induction false} RemembersLast(cfg: Config, from: P.Book, ticks: seq<Tick>, j: nat, n: nat, sym: string)
    requires j < n <= |ticks| && FilledAt(cfg, from, ticks, j, sym)
    requires forall m :: j < m < n ==> !FilledAt(cfg, from, ticks, m, sym)
    ensures var last := RunLoop.Run(cfg, from, ticks[..n]).lastOrder;
            sym in last && last[sym] == ticks[j].recorded
    decreases n
  {
    hide RunLoop.Run, FillOf, Ticked;
    TickStep(cfg, from, ticks, n - 1);
    LastOrderStep(cfg, RunLoop.Run(cfg, from, ticks[..n - 1]), ticks[n - 1]);
    if n - 1 > j {
      RemembersLast(cfg, from, ticks, j, n - 1, sym);
      assert !FilledAt(cfg, from, ticks, n - 1, sym);
    }
  }

  lemma LastOrderStep(cfg: Config, s: Loop, t: Tick)
    ensures Ticked(cfg, s, t).lastOrder ==
            if FillOf(cfg, s, t).Some? then s.lastOrder[t.symbol := t.recorded] else s.lastOrder
  {
    hide FillOf, P.Applied, P.Equity;
  }

  /** Ticks j and k fill orders for `sym`, and none between them does. */
  ghost predicate ConsecutiveFills(cfg: Config, from: P.Book, ticks: seq<Tick>, j: nat, k: nat, sym: string)
    requires j < k < |ticks|
  {
    && FilledAt(cfg, from, ticks, j, sym) && FilledAt(cfg, from, ticks, k, sym)
    && forall m :: j < m < k ==> !FilledAt(cfg, from, ticks, m, sym)
  }

  /** A buy is checked at least the cooldown after the symbol's last fill was recorded. */
  lemma BuysKeepCooldown(cfg: Config, from: P.Book, ticks: seq<Tick>, j: nat, k: nat, sym: string)
    requires CooldownWorks(cfg) && j < k < |ticks| && ticks[k].decision.BuyFraction?
    ensures ConsecutiveFills(cfg, from, ticks, j, k, sym) ==>
              ticks[k].checked - ticks[j].recorded >= cfg.cooldownSecs * SECOND
  {
    hide RunLoop.Run, FillOf, ExecPrice, Worth, Portion, P.Held, P.Qty;
    if ConsecutiveFills(cfg, from, ticks, j, k, sym) {
      RemembersLast(cfg, from, ticks, j, k, sym);
      FillHasShape(cfg, RunLoop.Run(cfg, from, ticks[..k]), ticks[k]);
    }
  }

  // ---- the daily loss ----

  /** Once realized profit reaches the daily loss, no order of any kind is filled again. */
  lemma {:induction false} LossStopsTheRun(cfg: Config, from: P.Book, ticks: seq<Tick>, more: seq<Tick>)
    requires RunLoop.Run(cfg, from, ticks).book.realized <= -cfg.maxDailyLoss
    ensures RunLoop.Run(cfg, from, ticks + more).book == RunLoop.Run(cfg, from, ticks).book
    ensures RunLoop.Run(cfg, from, ticks + more).fills == RunLoop.Run(cfg, from, ticks).fills
    decreases |more|
  {
    hide FillOf, FillShape, P.Equity, P.Applied;
    var all := ticks + more;
    if more == [] {
      AppendNil(ticks);
    } else {
      var init := more[..|more| - 1];
      assert all[..|all| - 1] == ticks + init;
      LossStopsTheRun(cfg, from, ticks, init);
      NoFillAfterLoss(cfg, RunLoop.Run(cfg, from, ticks + init), more[|more| - 1]);
    }
  }

  lemma NoFillAfterLoss(cfg: Config, s: Loop, t: Tick)
    requires s.book.realized <= -cfg.maxDailyLoss
    ensures FillOf(cfg, s, t).None?
  {
    hide FillOf;
    if FillOf(cfg, s, t).Some? { FillHasShape(cfg, s, t); }
  }

  // ---- the floor is reached ----

  /** A configuration that lets one buy of everything through, as long as its notional is allowed. */
  predicate OneBuyPasses(cfg: Config, sym: string) {
    && !cfg.killSwitch && sym !in cfg.denylist && (cfg.allowlist == {} || sym in cfg.allowlist)
    && cfg.maxSlippage >= TOLERANCE && cfg.maxDailyLoss > 0.0 && cfg.maxUnrealizedLoss > 0.0
    && cfg.maxOpenPositions >= 1 && cfg.maxPositionFraction >= 1.0
  }

  lemma WorthOfQuotient(n: real, p: real)
    requires p > 0.0 && n > 0.0
    ensures Worth(Quotient(Portion(n, 1.0), p), p) == n && Quotient(Portion(n, 1.0), p) > 0.0
    ensures Share(n, n) == 1.0
  {
    var q := n / p;
    assert q * p == n;
    if q <= 0.0 { NotPositive(q, p); }
  }

  lemma EmptyBook(cash: real, price: P.Oracle)
    ensures var b := P.Opening(cash);
            P.Equity(b, price) == cash && P.Unrealized(b, price) == 0.0 && P.Held(b) == {}
  {
    assert P.Held(P.Opening(cash)) == {};
  }

  lemma OneBuyIsFilled(cfg: Config, sym: string, price: real)
    requires cfg.maxOrderNotional > 0.0 && price > 0.0 && OneBuyPasses(cfg, sym)
    ensures var n := cfg.maxOrderNotional;
            var t := Tick(sym, price, BuyFraction(1.0), 0, 0, false);
            var fill := FillOf(cfg, Start(P.Opening(n)), t);
            fill.Some? && Worth(fill.value.qty, price) == n
  {
    var n := cfg.maxOrderNotional;
    var t := Tick(sym, price, BuyFraction(1.0), 0, 0, false);
    var latest := Start(P.Opening(n)).latest[sym := price];
    EmptyBook(n, Prices(latest));
    WorthOfQuotient(n, price);
    SlipIsSpread(Buy, price, SPREAD);
    hide P.Equity, P.Unrealized, P.Held, Worth, Quotient, Portion, Share, Slip, ExecPrice, Fee;
    var c := GateContext(P.Opening(n), latest, map[], t);
    var order := Size(t.decision, sym, 0.0, n, price).value;
    assert Check(cfg, order, c).Ok?;
  }

  lemma BuyFillPays(cfg: Config, s: Loop, t: Tick, f: Fill)
    requires FillShape(cfg, s, t, f) && t.decision.BuyFraction?
    ensures f.side.Buy? && f.price == ExecPrice(Buy, t.price, SPREAD) && f.fee == (f.qty * f.price) * FEE
  {
    hide ExecPrice, P.Equity, P.Held, Worth;
  }

  /** The floor is sharp: spending the whole order cap out of exactly that much cash ends on it. */
  lemma FloorIsReached(cfg: Config, sym: string, price: real)
    requires cfg.maxOrderNotional > 0.0 && price > 0.0 && OneBuyPasses(cfg, sym)
    ensures var t := Tick(sym, price, BuyFraction(1.0), 0, 0, false);
            RunLoop.Run(cfg, P.Opening(cfg.maxOrderNotional), [t]).book.cash == Floor(cfg, cfg.maxOrderNotional)
  {
    hide RunLoop.Run, Ticked, FillOf, FillShape, Worth, Overhead, ExecPrice, P.Applied, P.Held, OneBuyPasses;
    var n := cfg.maxOrderNotional;
    var t := Tick(sym, price, BuyFraction(1.0), 0, 0, false);
    OneBuyIsFilled(cfg, sym, price);
    FillHasShape(cfg, Start(P.Opening(n)), t);
    OneTickRun(cfg, P.Opening(n), t);
    TickBooks(cfg, Start(P.Opening(n)), t);
    var f := FillOf(cfg, Start(P.Opening(n)), t).value;
    BuyFillPays(cfg, Start(P.Opening(n)), t, f);
    BuyCash(f, price);
    P.CashAndProfit(P.Opening(n), f);
    Monotonic(0.0, n);
  }

  lemma OneTickRun(cfg: Config, book: P.Book, t: Tick)
    ensures RunLoop.Run(cfg, book, [t]) == Ticked(cfg, Start(book), t)
  {
    hide Ticked;
    assert [t][..0] == [];
  }
}
