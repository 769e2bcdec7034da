/**
 The backtest's own bookkeeping (crates/cli/src/backtest.rs): closed-trade profits from a second book
 of lots, and the maximum drawdown of the equity curve.
 */
module Backtest {
  import opened Seqs
  import opened Orders
  import opened Sums
  import P = Portfolio

  /** The open position of one symbol and its total cost, fees included. */
  datatype Lot = Lot(qty: real, cost: real)

  type Lots = map<string, Lot>

  function LotOf(lots: Lots, sym: string): Lot {
    if sym in lots then lots[sym] else Lot(0.0, 0.0)
  }

  /** The part of the cost that a sell of `closed` out of `b.qty` uses up. */
  function Basis(b: Lot, closed: real): real
    requires b.qty > 0.0
  {
    b.cost * (closed / b.qty)
  }

  function Paid(f: Fill): real {
    f.qty * f.price + f.fee
  }

  function Proceeds(f: Fill, closed: real): real {
    closed * f.price - f.fee
  }

  /** One fill's effect on the lots, and the profits it closes (none or one). */
  function Traded(lots: Lots, f: Fill): (Lots, seq<real>) {
    var b := LotOf(lots, f.symbol);
    match f.side
    case Buy => (lots[f.symbol := Lot(b.qty + f.qty, b.cost + Paid(f))], [])
    case Sell =>
      if b.qty <= 0.0 then (lots[f.symbol := b], [])
      else
        var closed := P.Min(f.qty, b.qty);
        (lots[f.symbol := Lot(b.qty - closed, b.cost - Basis(b, closed))],
         [Proceeds(f, closed) - Basis(b, closed)])
  }

  function LotsAfter(fills: seq<Fill>): Lots {
    if fills == [] then map[] else Traded(LotsAfter(fills[..|fills| - 1]), fills[|fills| - 1]).0
  }

  function Pnls(fills: seq<Fill>): seq<real> {
    if fills == [] then []
    else Pnls(fills[..|fills| - 1]) + Traded(LotsAfter(fills[..|fills| - 1]), fills[|fills| - 1]).1
  }

  method ClosedTradePnls(fills: seq<Fill>) returns (pnls: seq<real>)
    ensures pnls == Pnls(fills)
  {
    hide Basis, Paid, Proceeds, LotsAfter, Pnls;
    var lots: Lots := map[];
    NoTrades();
    pnls := [];
    for i := 0 to |fills|
      invariant lots == LotsAfter(fills[..i]) && pnls == Pnls(fills[..i])
    {
      var f := fills[i];
      TradeStep(fills, i);
      AppendNil(pnls);
      ghost var was := lots;
      var b := LotOf(lots, f.symbol);
      lots := lots[f.symbol := b];
      match f.side {
        case Buy =>
          var lot := Lot(b.qty + f.qty, b.cost + Paid(f));
          lots := lots[f.symbol := lot];
          assert lots == was[f.symbol := lot];
        case Sell =>
          if b.qty > 0.0 {
            var closed := P.Min(f.qty, b.qty);
            var basis := Basis(b, closed);
            pnls := pnls + [Proceeds(f, closed) - basis];
            var lot := Lot(b.qty - closed, b.cost - basis);
            lots := lots[f.symbol := lot];
            assert lots == was[f.symbol := lot];
          }
      }
    }
    assert fills[..|fills|] == fills;
  }

  lemma NoTrades()
    ensures LotsAfter([]) == map[] && Pnls([]) == []
  {}

  lemma TradeStep(fills: seq<Fill>, i: nat)
    requires i < |fills|
    ensures LotsAfter(fills[..i + 1]) == Traded(LotsAfter(fills[..i]), fills[i]).0
    ensures Pnls(fills[..i + 1]) == Pnls(fills[..i]) + Traded(LotsAfter(fills[..i]), fills[i]).1
  {
    assert fills[..i + 1][..i] == fills[..i];
  }

  lemma BasisExactly(b: Lot, closed: real)
    requires b.qty > 0.0
    ensures Basis(b, closed) * b.qty == b.cost * closed
  {
    var share := closed / b.qty;
    assert share * b.qty == closed;
    Regroup(b.cost, share, b.qty);
  }

  lemma Regroup(x: real, y: real, z: real)
    ensures (x * y) * z == x * (y * z)
  {}

  /**
   A sell closes what it sells of the lot, at most all of it, at the lot's cost per unit: what is left
   costs the same per unit as before, and the profit is the proceeds less that cost, after the fee.
   */
  lemma SellSplitsTheLot(lots: Lots, f: Fill)
    requires f.side.Sell? && f.symbol in lots && lots[f.symbol].qty > 0.0
    ensures var (after, pnl) := Traded(lots, f);
            var was, left, closed := lots[f.symbol], after[f.symbol], P.Min(f.qty, lots[f.symbol].qty);
            && left.qty == was.qty - closed && left.cost * was.qty == was.cost * left.qty
            && |pnl| == 1 && pnl[0] == closed * f.price - f.fee - (was.cost - left.cost)
  {
    hide Basis;
    var was, closed := lots[f.symbol], P.Min(f.qty, lots[f.symbol].qty);
    BasisExactly(was, closed);
    Distribute(was.cost, Basis(was, closed), was.qty);
    Distribute(was.qty, closed, was.cost);
  }

  /** A fill moves its own lot only: a buy adds what was paid, fee included, and a sell of nothing held is skipped. */
  lemma FillMovesTheLot(lots: Lots, f: Fill)
    ensures var (after, pnl) := Traded(lots, f);
            var was := if f.symbol in lots then lots[f.symbol] else Lot(0.0, 0.0);
            && after.Keys == lots.Keys + {f.symbol} && (forall k :: k in lots && k != f.symbol ==> after[k] == lots[k])
            && (f.side.Buy? ==>
                  && pnl == [] && after[f.symbol].qty == was.qty + f.qty
                  && after[f.symbol].cost == was.cost + (f.qty * f.price + f.fee))
            && (f.side.Sell? && was.qty <= 0.0 ==> pnl == [] && after[f.symbol] == was)
  {
    hide Basis, Proceeds;
  }

  lemma Distribute(x: real, y: real, z: real)
    ensures (x - y) * z == x * z - y * z
  {}

  // ---- agreement with the ledger ----

  function CostOf(lots: Lots): string -> real {
    k => LotOf(lots, k).cost
  }

  ghost function OpenCost(lots: Lots): real {
    Sum(lots.Keys, CostOf(lots))
  }

  function Total(xs: seq<real>): real {
    if xs == [] then 0.0 else Total(xs[..|xs| - 1]) + xs[|xs| - 1]
  }

  function CashFlow(fills: seq<Fill>): real {
    if fills == [] then 0.0 else CashFlow(fills[..|fills| - 1]) + fills[|fills| - 1].CashDelta()
  }

  /** Cash the book does not see: a sell with nothing held, or the part of a sell beyond the lot. */
  function Unseen(lots: Lots, f: Fill): real {
    var b := LotOf(lots, f.symbol);
    if f.side.Buy? then 0.0
    else if b.qty <= 0.0 then f.CashDelta()
    else (f.qty - P.Min(f.qty, b.qty)) * f.price
  }

  function UnseenCash(fills: seq<Fill>): real {
    if fills == [] then 0.0
    else UnseenCash(fills[..|fills| - 1]) + Unseen(LotsAfter(fills[..|fills| - 1]), fills[|fills| - 1])
  }

  lemma TotalPush(xs: seq<real>, ys: seq<real>)
    requires |ys| <= 1
    ensures Total(xs + ys) == Total(xs) + if ys == [] then 0.0 else ys[0]
  {
    if ys == [] { AppendNil(xs); } else { assert (xs + ys)[..|xs|] == xs; }
  }

  lemma CostMoves(lots: Lots, f: Fill)
    ensures var after := Traded(lots, f).0;
            && OpenCost(after) == OpenCost(lots) + LotOf(after, f.symbol).cost - LotOf(lots, f.symbol).cost
            && after.Keys == lots.Keys + {f.symbol}
  {
    hide Basis, Paid, Proceeds, Sum;
    var after := Traded(lots, f).0;
    assert after.Keys == lots.Keys + {f.symbol};
    OneTerm(lots.Keys, CostOf(lots), CostOf(after), f.symbol);
  }

  /** One fill: profits less open cost move by the cash flow, but for what the book does not see. */
  lemma FillAgrees(lots: Lots, f: Fill)
    ensures var (after, pnl) := Traded(lots, f);
            && |pnl| <= 1
            && (if pnl == [] then 0.0 else pnl[0]) - OpenCost(after) ==
               -OpenCost(lots) + f.CashDelta() - Unseen(lots, f)
  {
    CostMoves(lots, f);
    hide Basis, OpenCost;
    var b := LotOf(lots, f.symbol);
    if f.side.Sell? && b.qty > 0.0 {
      P.Times(f.qty, P.Min(f.qty, b.qty), f.price);
    }
  }

  /**
   For every sequence of fills: closed profits less the cost of what is open are the ledger's change
   of cash, less the cash of sells the book does not see.
   */
  lemma {:induction false} BooksAgree(start: real, fills: seq<Fill>)
    ensures Total(Pnls(fills)) - OpenCost(LotsAfter(fills)) ==
            (P.Run(start, fills).cash - start) - UnseenCash(fills)
  {
    if fills == [] {
      ZeroTerms({}, CostOf(map[]));
    } else {
      var init, f := fills[..|fills| - 1], fills[|fills| - 1];
      var lots := LotsAfter(init);
      hide Traded, OpenCost, Total, Unseen;
      BooksAgree(start, init);
      FillAgrees(lots, f);
      TotalPush(Pnls(init), Traded(lots, f).1);
      P.CashAndProfit(P.Run(start, init), f);
    }
  }

  /** No fill sells more than is held, and only fills of a positive quantity carry a fee. */
  predicate LongTrades(start: real, fills: seq<Fill>) {
    P.LongOnly(start, fills) && forall k :: 0 <= k < |fills| ==> fills[k].qty > 0.0 || fills[k].fee == 0.0
  }

  /** The lots hold the ledger's quantities. */
  ghost predicate SameQuantities(lots: Lots, b: P.Book) {
    forall k :: LotOf(lots, k).qty == P.Qty(b, k)
  }

  /** An empty lot costs nothing. */
  predicate Sound(lots: Lots) {
    forall k :: k in lots && lots[k].qty == 0.0 ==> lots[k].cost == 0.0
  }

  lemma FillKeepsQuantities(lots: Lots, b: P.Book, f: Fill)
    requires P.LongBook(b) && P.LongFill(b, f) && SameQuantities(lots, b)
    ensures SameQuantities(Traded(lots, f).0, P.Applied(b, f))
  {
    P.Elsewhere(b, f);
    P.SymbolAfter(b, f);
    assert P.Qty(b, f.symbol) >= 0.0;
    hide P.Applied, P.Qty, P.Avg, Basis;
    assert LotOf(lots, f.symbol).qty == P.Qty(b, f.symbol);
  }

  lemma {:induction false} QuantitiesMatch(start: real, fills: seq<Fill>)
    requires P.LongOnly(start, fills)
    ensures SameQuantities(LotsAfter(fills), P.Run(start, fills))
  {
    if fills != [] {
      hide Traded, P.Applied, P.LongFill, SameQuantities;
      var init := fills[..|fills| - 1];
      QuantitiesMatch(start, init);
      P.LongRunKeeps(start, init);
      FillKeepsQuantities(LotsAfter(init), P.Run(start, init), fills[|fills| - 1]);
    }
  }

  lemma FillKeepsLots(lots: Lots, b: P.Book, f: Fill)
    requires Sound(lots) && (f.qty > 0.0 || f.fee == 0.0)
    requires P.LongBook(b) && P.LongFill(b, f) && SameQuantities(lots, b)
    ensures Sound(Traded(lots, f).0) && Unseen(lots, f) == 0.0
  {
    var lot := LotOf(lots, f.symbol);
    assert lot.qty == P.Qty(b, f.symbol) >= 0.0;
    hide P.Qty, P.Avg, P.LongBook, Basis;
    if f.qty == 0.0 { NothingTimes(f.price); }
    if f.side.Sell? {
      NothingTimes(f.price);
      if lot.qty > 0.0 {
        assert P.Min(f.qty, lot.qty) == f.qty;
        if f.qty == lot.qty { WholeBasis(lot); }
      }
    }
  }

  lemma NothingTimes(price: real)
    ensures 0.0 * price == 0.0
  {}

  lemma WholeBasis(b: Lot)
    requires b.qty > 0.0
    ensures Basis(b, b.qty) == b.cost
  {}

  lemma {:induction false} LotsMatchLedger(start: real, fills: seq<Fill>)
    requires LongTrades(start, fills)
    ensures Sound(LotsAfter(fills)) && UnseenCash(fills) == 0.0
  {
    if fills != [] {
      hide Traded, Unseen, P.Applied, P.LongFill, SameQuantities;
      var init := fills[..|fills| - 1];
      LotsMatchLedger(start, init);
      QuantitiesMatch(start, init);
      P.LongRunKeeps(start, init);
      FillKeepsLots(LotsAfter(init), P.Run(start, init), fills[|fills| - 1]);
    }
  }

  /**
   On every long-only run the book holds the ledger's quantities, and closed profits less open cost
   are the change of cash, less what a sell of nothing out of nothing cost in fees. If empty fills
   carry no fee there is no such rest, and once everything is sold the profits add up to the cash gained.
   */
  lemma BacktestAgrees(start: real, fills: seq<Fill>)
    requires P.LongOnly(start, fills)
    ensures var lots, b := LotsAfter(fills), P.Run(start, fills);
            && SameQuantities(lots, b)
            && Total(Pnls(fills)) - OpenCost(lots) == b.cash - start - UnseenCash(fills)
            && (LongTrades(start, fills) ==>
                  && UnseenCash(fills) == 0.0
                  && (P.Held(b) == {} ==> Total(Pnls(fills)) == b.cash - start))
  {
    hide LotsAfter, Pnls, Total, P.Run, UnseenCash, LongTrades, P.LongOnly, Sum;
    BooksAgree(start, fills);
    QuantitiesMatch(start, fills);
    var lots, b := LotsAfter(fills), P.Run(start, fills);
    if LongTrades(start, fills) {
      LotsMatchLedger(start, fills);
      if P.Held(b) == {} {
        forall k | k in lots.Keys
          ensures CostOf(lots)(k) == 0.0
        {
          assert LotOf(lots, k).qty == P.Qty(b, k);
          assert k !in P.Held(b);
        }
        ZeroTerms(lots.Keys, CostOf(lots));
      }
    }
  }

  // ---- drawdown ----

  /** The highest value up to index `j`. */
  function Peak(curve: seq<real>, j: nat): real
    requires j < |curve|
  {
    if j == 0 then curve[0] else P.Max(curve[j], Peak(curve, j - 1))
  }

  /** The drop from `high` to `low`, in percent of `high`. */
  function DropPct(high: real, low: real): real
    requires high > 0.0
  {
    (high - low) / high * 100.0
  }

  /** The greatest drop from the running peak, or zero. */
  ghost predicate IsWorstFromPeak(curve: seq<real>, worst: real) {
    && worst >= 0.0
    && (forall j :: 0 <= j < |curve| && Peak(curve, j) > 0.0 ==> DropPct(Peak(curve, j), curve[j]) <= worst)
    && (worst == 0.0 ||
        exists j :: 0 <= j < |curve| && Peak(curve, j) > 0.0 && worst == DropPct(Peak(curve, j), curve[j]))
  }

  /** The greatest drop between any earlier and later point, or zero. */
  ghost predicate IsWorstPair(curve: seq<real>, worst: real) {
    && worst >= 0.0
    && (forall i, j :: 0 <= i <= j < |curve| && curve[i] > 0.0 ==> DropPct(curve[i], curve[j]) <= worst)
    && (worst == 0.0 ||
        exists i, j :: 0 <= i <= j < |curve| && curve[i] > 0.0 && worst == DropPct(curve[i], curve[j]))
  }

  lemma PeakStep(curve: seq<real>, i: nat)
    requires i < |curve|
    ensures Peak(curve, i) == if i == 0 || curve[i] > Peak(curve, i - 1) then curve[i] else Peak(curve, i - 1)
  {}

  method MaxDrawdownPct(curve: seq<real>) returns (worst: real)
    ensures IsWorstFromPeak(curve, worst)
  {
    hide DropPct, Peak;
    var peak := if curve != [] then curve[0] else 0.0;
    worst := 0.0;
    for i := 0 to |curve|
      invariant i > 0 ==> peak == Peak(curve, i - 1)
      invariant i == 0 ==> peak == if curve != [] then curve[0] else 0.0
      invariant worst >= 0.0
      invariant forall j :: 0 <= j < i && Peak(curve, j) > 0.0 ==> DropPct(Peak(curve, j), curve[j]) <= worst
      invariant worst == 0.0 ||
                exists j :: 0 <= j < i && Peak(curve, j) > 0.0 && worst == DropPct(Peak(curve, j), curve[j])
    {
      var e := curve[i];
      if e > peak {
        peak := e;
      }
      PeakStep(curve, i);
      if peak > 0.0 {
        var dd := DropPct(peak, e);
        if dd > worst {
          worst := dd;
        }
      }
    }
  }

  lemma {:induction false} PeakIsReached(curve: seq<real>, j: nat) returns (i: nat)
    requires j < |curve|
    ensures i <= j && curve[i] == Peak(curve, j)
    ensures forall k :: 0 <= k <= j ==> curve[k] <= Peak(curve, j)
  {
    if j == 0 {
      i := 0;
    } else {
      i := PeakIsReached(curve, j - 1);
      if curve[j] > Peak(curve, j - 1) { i := j; }
    }
  }

  /** From a higher start the drop to a non-negative value is larger. */
  lemma HigherDropsMore(high: real, low: real, e: real)
    requires 0.0 < low <= high && e >= 0.0
    ensures DropPct(low, e) <= DropPct(high, e) <= 100.0
  {
    Share(low, e);
    Share(high, e);
    assert e / high <= e / low by { SmallerShare(high, low, e); }
  }

  lemma Share(high: real, e: real)
    requires high > 0.0
    ensures DropPct(high, e) == 100.0 - (e / high) * 100.0
  {
    var x := e / high;
    assert (1.0 - x) * high == high - e;
    DivideBack(1.0 - x, high, high - e);
  }

  lemma DivideBack(x: real, d: real, y: real)
    requires d != 0.0 && x * d == y
    ensures y / d == x
  {}

  lemma SmallerShare(high: real, low: real, e: real)
    requires 0.0 < low <= high && e >= 0.0
    ensures 0.0 <= e / high <= e / low
  {
    var x, y := e / high, e / low;
    assert x * high == e && y * low == e;
    if x < 0.0 { Negative(x, high); }
    if x > y { Products(x, y, high, low); }
  }

  lemma Negative(x: real, high: real)
    requires x < 0.0 && high > 0.0
    ensures x * high < 0.0
  {}

  lemma Products(x: real, y: real, high: real, low: real)
    requires x > y && 0.0 < low <= high && x >= 0.0
    ensures x * high > y * low
  {
    assert x * high >= x * low;
    assert x * low > y * low;
  }

  /**
   On every curve of non-negative values the one pass finds the greatest drop between any two
   points, and it lies between 0 and 100.
   */
  lemma OnePassIsWorstPair(curve: seq<real>, worst: real)
    requires IsWorstFromPeak(curve, worst)
    requires forall k :: 0 <= k < |curve| ==> curve[k] >= 0.0
    ensures IsWorstPair(curve, worst) && worst <= 100.0
  {
    hide DropPct, Peak;
    forall i, j | 0 <= i <= j < |curve| && curve[i] > 0.0
      ensures DropPct(curve[i], curve[j]) <= worst
    {
      var top := PeakIsReached(curve, j);
      HigherDropsMore(Peak(curve, j), curve[i], curve[j]);
    }
    if worst != 0.0 {
      var j :| 0 <= j < |curve| && Peak(curve, j) > 0.0 && worst == DropPct(Peak(curve, j), curve[j]);
      var i := PeakIsReached(curve, j);
      HigherDropsMore(Peak(curve, j), Peak(curve, j), curve[j]);
      assert worst == DropPct(curve[i], curve[j]);
    }
  }

  /** On any curve, negative values included, the one pass never overstates. */
  lemma NeverOverstates(curve: seq<real>, worst: real, pair: real)
    ensures IsWorstFromPeak(curve, worst) && IsWorstPair(curve, pair) ==> worst <= pair
  {
    hide DropPct, Peak;
    if IsWorstFromPeak(curve, worst) && IsWorstPair(curve, pair) && worst != 0.0 {
      var j :| 0 <= j < |curve| && Peak(curve, j) > 0.0 && worst == DropPct(Peak(curve, j), curve[j]);
      var i := PeakIsReached(curve, j);
      assert DropPct(curve[i], curve[j]) <= pair;
    }
  }

  /** Every positive value up to `j` is the running peak. */
  ghost predicate OnlyThePeak(curve: seq<real>, j: nat)
    requires j < |curve|
  {
    forall i :: 0 <= i <= j && curve[i] > 0.0 ==> curve[i] == Peak(curve, j)
  }

  /** From a higher start the drop to a negative value is smaller. */
  lemma HigherDropsLess(high: real, low: real, e: real)
    requires 0.0 < low < high && e < 0.0
    ensures DropPct(low, e) > DropPct(high, e) > 100.0
  {
    Share(low, e);
    Share(high, e);
    QuotientSign(e, high);
    var x, y := e / high, e / low;
    assert x * high == e && y * low == e;
    DeeperFromLower(x, high, y, low);
  }

  lemma DeeperFromLower(x: real, high: real, y: real, low: real)
    requires 0.0 < low < high && x < 0.0 && x * high == y * low
    ensures y < x
  {
    NegativeTimes(x, low, high);
    if y >= x { NotLess(y, x, low); }
  }

  lemma NegativeTimes(x: real, low: real, high: real)
    requires x < 0.0 && low < high
    ensures x * low > x * high
  {}

  lemma NotLess(y: real, x: real, low: real)
    requires y >= x && low > 0.0
    ensures y * low >= x * low
  {}

  lemma QuotientSign(e: real, d: real)
    requires d > 0.0
    ensures e / d < 0.0 <==> e < 0.0
  {
    var x := e / d;
    assert x * d == e;
    if x < 0.0 { Negative(x, d); }
  }

  /**
   At one point the drop from the peak is the greatest drop that ends there exactly if the value is
   not negative, or no positive value other than the peak came before it.
   */
  lemma PeakIsWorstStartExactly(curve: seq<real>, j: nat)
    requires j < |curve| && Peak(curve, j) > 0.0
    ensures (forall i :: 0 <= i <= j && curve[i] > 0.0 ==>
               DropPct(curve[i], curve[j]) <= DropPct(Peak(curve, j), curve[j]))
            <==> curve[j] >= 0.0 || OnlyThePeak(curve, j)
  {
    hide DropPct, Peak;
    var top := PeakIsReached(curve, j);
    if curve[j] >= 0.0 {
      forall i | 0 <= i <= j && curve[i] > 0.0
        ensures DropPct(curve[i], curve[j]) <= DropPct(Peak(curve, j), curve[j])
      {
        HigherDropsMore(Peak(curve, j), curve[i], curve[j]);
      }
    } else if !OnlyThePeak(curve, j) {
      var i :| 0 <= i <= j && curve[i] > 0.0 && curve[i] != Peak(curve, j);
      HigherDropsLess(Peak(curve, j), curve[i], curve[j]);
    }
  }

  /** The least positive value up to `j`, or zero if there is none. */
  function LeastPositive(curve: seq<real>, j: nat): real
    requires j < |curve|
  {
    var before := if j == 0 then 0.0 else LeastPositive(curve, j - 1);
    if curve[j] > 0.0 && (before == 0.0 || curve[j] < before) then curve[j] else before
  }

  lemma {:induction false} LeastIsReached(curve: seq<real>, j: nat) returns (i: nat)
    requires j < |curve|
    ensures i <= j && LeastPositive(curve, j) >= 0.0
    ensures LeastPositive(curve, j) > 0.0 ==> curve[i] == LeastPositive(curve, j)
    ensures forall k :: 0 <= k <= j && curve[k] > 0.0 ==> 0.0 < LeastPositive(curve, j) <= curve[k]
  {
    if j == 0 {
      i := 0;
    } else {
      i := LeastIsReached(curve, j - 1);
      if LeastPositive(curve, j) != LeastPositive(curve, j - 1) { i := j; }
    }
  }

  /** The value as a share of a start: the lower, the deeper below that start. */
  function Depth(start: real, e: real): real
    requires start > 0.0
  {
    e / start
  }

  /**
   Every negative point, seen from the least positive value before it, lies no deeper than some
   negative point lies below its own running peak.
   */
  ghost predicate PeaksCoverNegatives(curve: seq<real>) {
    forall j :: 0 <= j < |curve| && curve[j] < 0.0 && LeastPositive(curve, j) > 0.0 ==>
      CoveredByPeak(curve, Depth(LeastPositive(curve, j), curve[j]))
  }

  ghost predicate CoveredByPeak(curve: seq<real>, depth: real) {
    exists k :: 0 <= k < |curve| && curve[k] < 0.0 && Peak(curve, k) > 0.0
                && Depth(Peak(curve, k), curve[k]) <= depth
  }

  lemma DeeperDrops(high: real, e: real, low: real, d: real)
    requires high > 0.0 && low > 0.0
    ensures Depth(high, e) <= Depth(low, d) <==> DropPct(high, e) >= DropPct(low, d)
    ensures DropPct(high, e) > 100.0 <==> e < 0.0
  {
    Share(high, e);
    Share(low, d);
    QuotientSign(e, high);
    hide DropPct;
  }

  lemma CoveredNegatives(curve: seq<real>, worst: real, i: nat, j: nat)
    requires IsWorstFromPeak(curve, worst) && PeaksCoverNegatives(curve)
    requires i <= j < |curve| && curve[i] > 0.0 && curve[j] < 0.0
    ensures DropPct(curve[i], curve[j]) <= worst
  {
    hide DropPct, Peak, LeastPositive, Depth;
    var first := LeastIsReached(curve, j);
    var least := LeastPositive(curve, j);
    if least < curve[i] { HigherDropsLess(curve[i], least, curve[j]); }
    var k :| 0 <= k < |curve| && curve[k] < 0.0 && Peak(curve, k) > 0.0
             && Depth(Peak(curve, k), curve[k]) <= Depth(least, curve[j]);
    DeeperDrops(Peak(curve, k), curve[k], least, curve[j]);
  }

  lemma CoveredPairs(curve: seq<real>, worst: real, i: nat, j: nat)
    requires IsWorstFromPeak(curve, worst) && PeaksCoverNegatives(curve)
    requires i <= j < |curve| && curve[i] > 0.0
    ensures DropPct(curve[i], curve[j]) <= worst
  {
    hide DropPct, Peak, PeaksCoverNegatives;
    if curve[j] >= 0.0 {
      var top := PeakIsReached(curve, j);
      HigherDropsMore(Peak(curve, j), curve[i], curve[j]);
    } else {
      CoveredNegatives(curve, worst, i, j);
    }
  }

  lemma WorstPairCovers(curve: seq<real>, worst: real, j: nat)
    requires IsWorstFromPeak(curve, worst) && IsWorstPair(curve, worst)
    requires j < |curve| && LeastPositive(curve, j) > 0.0 && curve[j] < 0.0
    ensures CoveredByPeak(curve, Depth(LeastPositive(curve, j), curve[j]))
  {
    hide DropPct, Peak, LeastPositive, Depth;
    var i := LeastIsReached(curve, j);
    var least := LeastPositive(curve, j);
    DeeperDrops(least, curve[j], least, curve[j]);
    assert DropPct(curve[i], curve[j]) <= worst;
    var k :| 0 <= k < |curve| && Peak(curve, k) > 0.0 && worst == DropPct(Peak(curve, k), curve[k]);
    DeeperDrops(Peak(curve, k), curve[k], least, curve[j]);
  }

  lemma WorstFromPeakIsAPair(curve: seq<real>, worst: real)
    requires IsWorstFromPeak(curve, worst) && worst != 0.0
    ensures exists i, j :: 0 <= i <= j < |curve| && curve[i] > 0.0 && worst == DropPct(curve[i], curve[j])
  {
    hide DropPct, Peak;
    var j :| 0 <= j < |curve| && Peak(curve, j) > 0.0 && worst == DropPct(Peak(curve, j), curve[j]);
    var i := PeakIsReached(curve, j);
    assert worst == DropPct(curve[i], curve[j]);
  }

  /** On any curve, negative values included, the one pass finds the greatest drop exactly under that condition. */
  lemma OnePassExactly(curve: seq<real>, worst: real)
    requires IsWorstFromPeak(curve, worst)
    ensures IsWorstPair(curve, worst) <==> PeaksCoverNegatives(curve)
  {
    if PeaksCoverNegatives(curve) {
      forall i, j | 0 <= i <= j < |curve| && curve[i] > 0.0
        ensures DropPct(curve[i], curve[j]) <= worst
      {
        CoveredPairs(curve, worst, i, j);
      }
      if worst != 0.0 { WorstFromPeakIsAPair(curve, worst); }
    }
    if IsWorstPair(curve, worst) {
      forall j | 0 <= j < |curve| && curve[j] < 0.0 && LeastPositive(curve, j) > 0.0
        ensures CoveredByPeak(curve, Depth(LeastPositive(curve, j), curve[j]))
      {
        WorstPairCovers(curve, worst, j);
      }
    }
    hide DropPct, Peak, CoveredByPeak, IsWorstFromPeak, LeastPositive, Depth;
  }

  /** A curve on which it understates, and one with a negative value on which it does not. */
  lemma NegativeEquityUnderstates()
    ensures IsWorstFromPeak([1.0, 2.0, -1.0], 150.0) && !IsWorstPair([1.0, 2.0, -1.0], 150.0)
    ensures IsWorstFromPeak([1.0, -1.0], 200.0) && IsWorstPair([1.0, -1.0], 200.0)
  {
    var curve, other := [1.0, 2.0, -1.0], [1.0, -1.0];
    assert Peak(curve, 0) == 1.0 && Peak(curve, 1) == 2.0 && Peak(curve, 2) == 2.0;
    assert DropPct(Peak(curve, 2), curve[2]) == 150.0;
    assert DropPct(curve[0], curve[2]) == 200.0;
    assert Peak(other, 0) == 1.0 && Peak(other, 1) == 1.0;
    assert DropPct(Peak(other, 1), other[1]) == 200.0 && DropPct(other[0], other[1]) == 200.0;
  }
}
