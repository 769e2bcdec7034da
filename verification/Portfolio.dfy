/** The portfolio ledger (crates/core/src/portfolio.rs). Amounts are exact reals. */
module Portfolio {
  import opened Wrappers
  import opened Orders
  import opened Sums

  /** `avgCost` and `positions` are maps with no defined order of iteration. */
  datatype Book = Book(cash: real, positions: map<string, real>, realized: real, avgCost: map<string, real>)

  type Oracle = string -> Option<real>

  function Opening(cash: real): Book {
    Book(cash, map[], 0.0, map[])
  }

  function Qty(b: Book, sym: string): real {
    if sym in b.positions then b.positions[sym] else 0.0
  }

  function Avg(b: Book, sym: string): real {
    if sym in b.avgCost then b.avgCost[sym] else 0.0
  }

  function Min(x: real, y: real): real { if x < y then x else y }

  function Max(x: real, y: real): real { if x > y then x else y }

  /** The part of a sell that closes a long position. */
  function Closed(b: Book, f: Fill): real {
    Min(f.qty, Max(Qty(b, f.symbol), 0.0))
  }

  /** Volume-weighted average cost after buying `x` at `p` on top of `q` at `c`. */
  function Blended(q: real, c: real, x: real, p: real): real
    requires q + x != 0.0
  {
    (q * c + x * p) / (q + x)
  }

  function Gain(closed: real, price: real, cost: real): real {
    closed * (price - cost)
  }

  function Applied(b: Book, f: Fill): Book {
    var sym, q, c := f.symbol, Qty(b, f.symbol), Avg(b, f.symbol);
    match f.side
    case Buy =>
      var q' := q + f.qty;
      b.(cash := b.cash + f.CashDelta(),
         avgCost := if q' != 0.0 then b.avgCost[sym := Blended(q, c, f.qty, f.price)] else b.avgCost,
         positions := b.positions[sym := q'])
    case Sell =>
      var q' := q - f.qty;
      b.(cash := b.cash + f.CashDelta(),
         realized := b.realized + (Gain(Closed(b, f), f.price, c) - f.fee),
         avgCost := if q' == 0.0 then b.avgCost - {sym} else b.avgCost,
         positions := b.positions[sym := q'])
  }

  // ---- valuations ----

  function MarkTerm(b: Book, price: Oracle): string -> real {
    k => if price(k).Some? then Qty(b, k) * price(k).value else 0.0
  }

  function UnrealizedTerm(b: Book, price: Oracle): string -> real {
    k => if price(k).Some? && k in b.avgCost then Qty(b, k) * (price(k).value - b.avgCost[k]) else 0.0
  }

  function CostTerm(b: Book): string -> real {
    k => Qty(b, k) * Avg(b, k)
  }

  /** Cost of what has no price. */
  function UnpricedTerm(b: Book, price: Oracle): string -> real {
    k => if price(k).None? then Qty(b, k) * Avg(b, k) else 0.0
  }

  ghost function Equity(b: Book, price: Oracle): real {
    b.cash + Sum(b.positions.Keys, MarkTerm(b, price))
  }

  ghost function Unrealized(b: Book, price: Oracle): real {
    Sum(Held(b), UnrealizedTerm(b, price))
  }

  ghost function Cost(b: Book): real {
    Sum(b.positions.Keys, CostTerm(b))
  }

  ghost function UnpricedCost(b: Book, price: Oracle): real {
    Sum(b.positions.Keys, UnpricedTerm(b, price))
  }

  /** The symbols with a non-zero position. */
  function Held(b: Book): set<string> {
    set k | k in b.positions && b.positions[k] != 0.0
  }

  /**
   A buy adds to the position and blends the cost per unit by quantity; if it exactly closes a short,
   the recorded cost stays as it was.
   */
  lemma BuyExactly(b: Book, f: Fill)
    requires f.side.Buy?
    ensures var b', sym := Applied(b, f), f.symbol;
            var q := if sym in b.positions then b.positions[sym] else 0.0;
            var c := if sym in b.avgCost then b.avgCost[sym] else 0.0;
            && b'.cash == b.cash - (f.qty * f.price + f.fee) && b'.realized == b.realized
            && b'.positions == b.positions[sym := q + f.qty]
            && if q + f.qty == 0.0 then b'.avgCost == b.avgCost
               else
                 && sym in b'.avgCost && b'.avgCost == b.avgCost[sym := b'.avgCost[sym]]
                 && (q + f.qty) * b'.avgCost[sym] == q * c + f.qty * f.price
  {
    hide Blended;
    var q := Qty(b, f.symbol);
    if q + f.qty != 0.0 { Blend(q, Avg(b, f.symbol), f.qty, f.price); }
  }

  /**
   A sell takes from the position, realizes the gain on the part that it closes less its fee, and drops
   the recorded cost exactly if the position becomes zero.
   */
  lemma SellExactly(b: Book, f: Fill)
    requires f.side.Sell?
    ensures var b', sym := Applied(b, f), f.symbol;
            var q := if sym in b.positions then b.positions[sym] else 0.0;
            var c := if sym in b.avgCost then b.avgCost[sym] else 0.0;
            var held := if q > 0.0 then q else 0.0;
            var closed := if f.qty < held then f.qty else held;
            && b'.cash == b.cash + (f.qty * f.price - f.fee)
            && b'.realized == b.realized + (closed * (f.price - c) - f.fee)
            && b'.positions == b.positions[sym := q - f.qty]
            && b'.avgCost == if q == f.qty then b.avgCost - {sym} else b.avgCost
  {}

  class Portfolio {
    var cash: real
    var positions: map<string, real>
    var realizedPnl: real
    var avgCost: map<string, real>

    ghost function View(): Book
      reads this
    {
      Book(cash, positions, realizedPnl, avgCost)
    }

    constructor (startingCash: real)
      ensures View() == Opening(startingCash)
    {
      cash, positions, realizedPnl, avgCost := startingCash, map[], 0.0, map[];
    }

    /** Restored from a snapshot. */
    constructor Restore(b: Book)
      ensures View() == b
    {
      cash, positions, realizedPnl, avgCost := b.cash, b.positions, b.realized, b.avgCost;
    }

    method Apply(f: Fill)
      modifies this
      ensures View() == Applied(old(View()), f)
    {
      hide Gain, Blended;
      cash := cash + f.CashDelta();
      var sym := f.symbol;
      var prevQty := if sym in positions then positions[sym] else 0.0;
      var prevCost := if sym in avgCost then avgCost[sym] else 0.0;
      match f.side {
        case Buy =>
          var newQty := prevQty + f.qty;
          if newQty != 0.0 {
            avgCost := avgCost[sym := Blended(prevQty, prevCost, f.qty, f.price)];
          }
          positions := positions[sym := newQty];
        case Sell =>
          var closed := Min(f.qty, Max(prevQty, 0.0));
          realizedPnl := realizedPnl + (Gain(closed, f.price, prevCost) - f.fee);
          var newQty := prevQty - f.qty;
          if newQty == 0.0 {
            avgCost := avgCost - {sym};
          }
          positions := positions[sym := newQty];
      }
    }

    /** The loop visits the positions in any order; the result does not depend on it. */
    method MarkToMarket(price: Oracle) returns (total: real)
      ensures total == Equity(View(), price)
    {
      hide Sum, MarkTerm;
      ghost var b := View();
      total := cash;
      var todo := positions.Keys;
      while todo != {}
        invariant todo <= b.positions.Keys
        invariant total + Sum(todo, MarkTerm(b, price)) == Equity(b, price)
        decreases |todo|
      {
        var sym :| sym in todo;
        MarkStep(b, price, todo, sym);
        if price(sym).Some? {
          total := total + positions[sym] * price(sym).value;
        }
        todo := todo - {sym};
      }
      ZeroTerms(todo, MarkTerm(b, price));
    }

    method UnrealizedPnl(price: Oracle) returns (total: real)
      ensures total == Unrealized(View(), price)
    {
      hide Sum, UnrealizedTerm;
      ghost var b := View();
      total := 0.0;
      var todo := set k | k in positions && positions[k] != 0.0;
      assert todo == Held(b);
      while todo != {}
        invariant todo <= b.positions.Keys
        invariant total + Sum(todo, UnrealizedTerm(b, price)) == Unrealized(b, price)
        decreases |todo|
      {
        var sym :| sym in todo;
        UnrealizedStep(b, price, todo, sym);
        if price(sym).Some? && sym in avgCost {
          total := total + positions[sym] * (price(sym).value - avgCost[sym]);
        }
        todo := todo - {sym};
      }
      ZeroTerms(todo, UnrealizedTerm(b, price));
    }

    method OpenPositionCount() returns (n: nat)
      ensures n == |Held(View())|
    {
      ghost var b := View();
      n := 0;
      var todo := positions.Keys;
      assert Held(b) * todo == Held(b);
      while todo != {}
        invariant todo <= b.positions.Keys
        invariant n + |Held(b) * todo| == |Held(b)|
        decreases |todo|
      {
        var sym :| sym in todo;
        CountStep(b, todo, sym);
        if positions[sym] != 0.0 {
          n := n + 1;
        }
        todo := todo - {sym};
      }
    }
  }

  lemma MarkStep(b: Book, price: Oracle, todo: set<string>, sym: string)
    requires todo <= b.positions.Keys && sym in todo
    ensures Sum(todo, MarkTerm(b, price)) ==
            (if price(sym).Some? then b.positions[sym] * price(sym).value else 0.0)
            + Sum(todo - {sym}, MarkTerm(b, price))
  {
    Extract(todo, MarkTerm(b, price), sym);
  }

  lemma UnrealizedStep(b: Book, price: Oracle, todo: set<string>, sym: string)
    requires todo <= b.positions.Keys && sym in todo
    ensures Sum(todo, UnrealizedTerm(b, price)) ==
            (if price(sym).Some? && sym in b.avgCost then b.positions[sym] * (price(sym).value - b.avgCost[sym])
             else 0.0) + Sum(todo - {sym}, UnrealizedTerm(b, price))
  {
    Extract(todo, UnrealizedTerm(b, price), sym);
  }

  lemma CountStep(b: Book, todo: set<string>, sym: string)
    requires todo <= b.positions.Keys && sym in todo
    ensures |Held(b) * todo| == |Held(b) * (todo - {sym})| + if b.positions[sym] != 0.0 then 1 else 0
  {
    if b.positions[sym] != 0.0 {
      assert Held(b) * todo == Held(b) * (todo - {sym}) + {sym};
    } else {
      assert Held(b) * todo == Held(b) * (todo - {sym});
    }
  }

  // ---- the accounting identity ----

  function BuyFee(f: Fill): real {
    if f.side.Buy? then f.fee else 0.0
  }

  /**
   How far one fill moves cash plus book cost away from realized profit less buy fees: only a sell
   beyond the position does, at a price other than its cost, or a buy that exactly closes a short.
   */
  function Drift(b: Book, f: Fill): real {
    match f.side
    case Buy => if Qty(b, f.symbol) + f.qty == 0.0 then f.qty * (Avg(b, f.symbol) - f.price) else 0.0
    case Sell => (f.qty - Closed(b, f)) * (f.price - Avg(b, f.symbol))
  }

  function Run(start: real, fills: seq<Fill>): Book {
    if fills == [] then Opening(start)
    else Applied(Run(start, fills[..|fills| - 1]), fills[|fills| - 1])
  }

  function BuyFees(fills: seq<Fill>): real {
    if fills == [] then 0.0 else BuyFees(fills[..|fills| - 1]) + BuyFee(fills[|fills| - 1])
  }

  function Drifts(start: real, fills: seq<Fill>): real {
    if fills == [] then 0.0
    else
      var init := fills[..|fills| - 1];
      Drifts(start, init) + Drift(Run(start, init), fills[|fills| - 1])
  }

  lemma Blend(q: real, c: real, x: real, p: real)
    requires q + x != 0.0
    ensures (q + x) * Blended(q, c, x, p) == q * c + x * p
  {}

  lemma Times(a: real, b: real, c: real)
    ensures a * (b - c) == a * b - a * c
    ensures (a - b) * c == a * c - b * c
  {}

  /** The change of one symbol's cost, in the terms of the fill. */
  lemma CostChange(b: Book, f: Fill)
    ensures var sym, b' := f.symbol, Applied(b, f);
            Qty(b', sym) * Avg(b', sym) - Qty(b, sym) * Avg(b, sym) ==
            match f.side
            case Buy => if Qty(b, sym) + f.qty == 0.0 then f.qty * Avg(b, sym) else f.qty * f.price
            case Sell => -(f.qty * Avg(b, sym))
  {
    SymbolAfter(b, f);
    hide Applied, Qty, Avg, Blended;
    var q, c := Qty(b, f.symbol), Avg(b, f.symbol);
    if f.side.Buy? {
      if q + f.qty != 0.0 { Blend(q, c, f.qty, f.price); }
      else { assert q == -f.qty; }
    } else {
      Times(q, f.qty, c);
    }
  }

  lemma SymbolAfter(b: Book, f: Fill)
    ensures var sym, b', q := f.symbol, Applied(b, f), Qty(b, f.symbol);
            match f.side
            case Buy =>
              && Qty(b', sym) == q + f.qty
              && (q + f.qty != 0.0 ==> Avg(b', sym) == Blended(q, Avg(b, sym), f.qty, f.price))
            case Sell =>
              && Qty(b', sym) == q - f.qty
              && (q != f.qty ==> Avg(b', sym) == Avg(b, sym))
  {
    hide Blended, Gain;
  }

  lemma CostMoves(b: Book, f: Fill)
    ensures var sym, b' := f.symbol, Applied(b, f);
            Cost(b') == Cost(b) + Qty(b', sym) * Avg(b', sym) - Qty(b, sym) * Avg(b, sym)
  {
    Elsewhere(b, f);
    hide Sum, Applied, Qty, Avg;
    var sym, b' := f.symbol, Applied(b, f);
    OneTerm(b.positions.Keys, CostTerm(b), CostTerm(b'), sym);
    if sym !in b.positions { NoQty(b, sym); }
  }

  /** A fill touches its own symbol only. */
  lemma Elsewhere(b: Book, f: Fill)
    ensures var b' := Applied(b, f);
            && b'.positions.Keys == b.positions.Keys + {f.symbol}
            && forall k :: k != f.symbol ==> Qty(b', k) == Qty(b, k) && Avg(b', k) == Avg(b, k)
  {
    hide Closed, Blended;
  }

  lemma NoQty(b: Book, sym: string)
    requires sym !in b.positions
    ensures Qty(b, sym) * Avg(b, sym) == 0.0
  {}

  /** Each fill moves cash plus cost by realized profit, less the buy fee, plus its drift. */
  lemma FillBalances(b: Book, f: Fill)
    ensures var b' := Applied(b, f);
            b'.cash + Cost(b') == b.cash + Cost(b) + (b'.realized - b.realized) - BuyFee(f) + Drift(b, f)
  {
    CostMoves(b, f);
    CostChange(b, f);
    CashAndProfit(b, f);
    hide Cost, Qty, Avg, Closed, Applied;
    var c := Avg(b, f.symbol);
    if f.side.Buy? {
      Times(f.qty, c, f.price);
    } else {
      Times(f.qty, Closed(b, f), f.price - c);
      Times(f.qty, f.price, c);
    }
  }

  lemma CashAndProfit(b: Book, f: Fill)
    ensures var b' := Applied(b, f);
            && b'.cash == b.cash + f.CashDelta()
            && b'.realized == b.realized +
               (if f.side.Buy? then 0.0 else Closed(b, f) * (f.price - Avg(b, f.symbol)) - f.fee)
  {}

  /** Over every run of fills, of any kind: cash plus cost is start plus realized less buy fees plus drift. */
  lemma {:induction false} LedgerBalances(start: real, fills: seq<Fill>)
    ensures var b := Run(start, fills);
            b.cash + Cost(b) == start + b.realized - BuyFees(fills) + Drifts(start, fills)
  {
    if fills != [] {
      hide Applied, Cost, Drift;
      LedgerBalances(start, fills[..|fills| - 1]);
      FillBalances(Run(start, fills[..|fills| - 1]), fills[|fills| - 1]);
    } else {
      ZeroTerms({}, CostTerm(Opening(start)));
    }
  }

  /** The exact condition for a fill to keep the books balanced. */
  lemma BalancedExactly(b: Book, f: Fill)
    ensures var q, c := Qty(b, f.symbol), Avg(b, f.symbol);
            Drift(b, f) == 0.0 <==>
            match f.side
            case Buy => q + f.qty != 0.0 || f.qty == 0.0 || f.price == c
            case Sell => f.qty <= Max(q, 0.0) || f.price == c
  {
    hide Qty, Avg;
    ZeroProduct(f.qty, Avg(b, f.symbol) - f.price);
    ZeroProduct(f.qty - Closed(b, f), f.price - Avg(b, f.symbol));
  }

  lemma ZeroProduct(x: real, y: real)
    ensures x * y == 0.0 <==> x == 0.0 || y == 0.0
  {}

  // ---- long-only runs ----

  predicate LongFill(b: Book, f: Fill) {
    f.qty >= 0.0 && (f.side.Sell? ==> f.qty <= Qty(b, f.symbol))
  }

  /** No fill sells more than is held. */
  predicate LongOnly(start: real, fills: seq<Fill>) {
    fills == [] ||
    var init := fills[..|fills| - 1];
    LongOnly(start, init) && LongFill(Run(start, init), fills[|fills| - 1])
  }

  /** Nothing is short, and an average cost is recorded exactly for the non-zero positions. */
  ghost predicate LongBook(b: Book) {
    && (forall k :: k in b.positions ==> b.positions[k] >= 0.0)
    && (forall k :: k in b.avgCost <==> k in b.positions && b.positions[k] != 0.0)
  }

  lemma FillKeepsLongBook(b: Book, f: Fill)
    requires LongBook(b) && LongFill(b, f)
    ensures LongBook(Applied(b, f)) && Drift(b, f) == 0.0
  {
    hide Blended, Gain;
    BalancedExactly(b, f);
    var b', sym := Applied(b, f), f.symbol;
    assert Qty(b, sym) >= 0.0;
    forall k | k != sym
      ensures k in b'.positions <==> k in b.positions
      ensures k in b'.avgCost <==> k in b.avgCost
      ensures k in b.positions ==> b'.positions[k] == b.positions[k]
    {}
  }

  lemma {:induction false} LongRunKeeps(start: real, fills: seq<Fill>)
    requires LongOnly(start, fills)
    ensures LongBook(Run(start, fills)) && Drifts(start, fills) == 0.0
  {
    if fills != [] {
      hide Applied, Drift, LongBook, LongFill;
      var init := fills[..|fills| - 1];
      LongRunKeeps(start, init);
      FillKeepsLongBook(Run(start, init), fills[|fills| - 1]);
    }
  }

  /** Equity is cash plus cost plus unrealized profit, less the cost of whatever has no price. */
  lemma EquityOfLongBook(b: Book, price: Oracle)
    requires LongBook(b)
    ensures Equity(b, price) == b.cash + Cost(b) + Unrealized(b, price) - UnpricedCost(b, price)
  {
    hide Sum;
    var keys := b.positions.Keys;
    var mark, cost := MarkTerm(b, price), CostTerm(b);
    var profit, unpriced := UnrealizedTerm(b, price), UnpricedTerm(b, price);
    var all := k => mark(k) + unpriced(k);
    forall k | k in keys
      ensures all(k) == mark(k) + unpriced(k)
      ensures all(k) == cost(k) + profit(k)
      ensures k !in Held(b) ==> profit(k) == 0.0
    {
      TermSplits(b, price, k);
    }
    AddTerms(keys, mark, unpriced, all);
    AddTerms(keys, cost, profit, all);
    LeaveOutZeros(Held(b), keys, profit);
  }

  lemma TermSplits(b: Book, price: Oracle, k: string)
    requires LongBook(b) && k in b.positions
    ensures MarkTerm(b, price)(k) + UnpricedTerm(b, price)(k) == CostTerm(b)(k) + UnrealizedTerm(b, price)(k)
    ensures k !in Held(b) ==> UnrealizedTerm(b, price)(k) == 0.0
  {
    if price(k).Some? {
      Times(Qty(b, k), price(k).value, Avg(b, k));
    }
  }

  /**
   Over every long-only run and any price oracle: equity is start plus realized plus unrealized less
   the buy fees, less the cost of held symbols that have no price.
   */
  lemma EquityIdentity(start: real, fills: seq<Fill>, price: Oracle)
    requires LongOnly(start, fills)
    ensures var b := Run(start, fills);
            && b.cash + Cost(b) == start + b.realized - BuyFees(fills)
            && Equity(b, price) ==
               start + b.realized + Unrealized(b, price) - BuyFees(fills) - UnpricedCost(b, price)
            && ((forall k :: k in Held(b) ==> price(k).Some?) ==> UnpricedCost(b, price) == 0.0)
  {
    hide Run, LongBook, Cost, Equity, Unrealized, Drifts, BuyFees, LongOnly, Sum;
    var b := Run(start, fills);
    LedgerBalances(start, fills);
    LongRunKeeps(start, fills);
    EquityOfLongBook(b, price);
    if forall k :: k in Held(b) ==> price(k).Some? {
      forall k | k in b.positions.Keys
        ensures UnpricedTerm(b, price)(k) == 0.0
      {
        if price(k).None? { assert k !in Held(b); }
      }
      ZeroTerms(b.positions.Keys, UnpricedTerm(b, price));
    }
  }
}
