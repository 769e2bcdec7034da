/**
 The trading loop (crates/cli/src/runner.rs): each tick is sized, gated, filled on the paper venue and
 booked. Decisions, prices and clock readings are arbitrary inputs.
 */
module RunLoop {
  import opened Wrappers
  import opened Orders
  import opened RiskGate
  import opened PaperExecutor
  import P = Portfolio

  datatype Decision = BuyFraction(fraction: real) | SellFraction(fraction: real) | Hold

  /** `checked` and `recorded` are the clock when the gate runs and when a fill is recorded. */
  datatype Tick = Tick(symbol: string, price: real, decision: Decision, checked: int, recorded: int, shutdown: bool)

  /** Every sized order tolerates two percent of slippage. */
  const TOLERANCE := 0.02

  function Quotient(x: real, d: real): real
    requires d != 0.0
  {
    x / d
  }

  function Portion(x: real, fraction: real): real {
    x * fraction
  }

  function MarketOrder(sym: string, side: Side, qty: real, price: real): Order {
    Order("d-" + sym, sym, side, qty, Some(price), TOLERANCE, Paper, "decision")
  }

  /** A concrete order for a decision: a fraction of equity to buy, or of the position to sell. */
  function Size(d: Decision, sym: string, position: real, equity: real, price: real): Option<Order> {
    if price <= 0.0 then None
    else
      match d
      case Hold => None
      case BuyFraction(f) =>
        var qty := Quotient(Portion(equity, f), price);
        if qty > 0.0 then Some(MarketOrder(sym, Buy, qty, price)) else None
      case SellFraction(f) =>
        var qty := Portion(position, f);
        if qty > 0.0 then Some(MarketOrder(sym, Sell, qty, price)) else None
  }

  /** The loop's state: ledger, last price and last fill time per symbol, and what was recorded. */
  datatype Loop = Loop(
    book: P.Book, latest: map<string, real>, lastOrder: map<string, int>, fills: seq<Fill>, curve: seq<real>)

  /** A run begins with an opening ledger, or with one restored from a snapshot. */
  function Start(book: P.Book): Loop {
    Loop(book, map[], map[], [], [])
  }

  function Lookup<V>(m: map<string, V>, k: string): Option<V> {
    if k in m then Some(m[k]) else None
  }

  function Prices(latest: map<string, real>): P.Oracle {
    (k: string) => Lookup(latest, k)
  }

  ghost function GateContext(book: P.Book, latest: map<string, real>, lastOrder: map<string, int>, t: Tick): Context {
    Context(book, Some(t.price), P.Equity(book, Prices(latest)), P.Unrealized(book, Prices(latest)),
            Lookup(lastOrder, t.symbol), t.checked)
  }

  /** The fill of this tick, if its decision becomes an order, the gate passes it and the venue fills it. */
  ghost function FillOf(cfg: Config, s: Loop, t: Tick): Option<Fill> {
    var latest := s.latest[t.symbol := t.price];
    var c := GateContext(s.book, latest, s.lastOrder, t);
    var order := Size(t.decision, t.symbol, P.Qty(s.book, t.symbol), c.equity, t.price);
    if order.None? then None
    else if Check(cfg, order.value, c).Err? then None
    else
      match Executed(latest, order.value, SPREAD, FEE)
      case Ok(f) => Some(f)
      case Err(_) => None
  }

  ghost function Ticked(cfg: Config, s: Loop, t: Tick): Loop {
    var latest := s.latest[t.symbol := t.price];
    var fill := FillOf(cfg, s, t);
    var book := if fill.Some? then P.Applied(s.book, fill.value) else s.book;
    Loop(book, latest,
         if fill.Some? then s.lastOrder[t.symbol := t.recorded] else s.lastOrder,
         if fill.Some? then s.fills + [fill.value] else s.fills,
         s.curve + [P.Equity(book, Prices(latest))])
  }

  ghost function Run(cfg: Config, book: P.Book, ticks: seq<Tick>): Loop {
    if ticks == [] then Start(book)
    else Ticked(cfg, Run(cfg, book, ticks[..|ticks| - 1]), ticks[|ticks| - 1])
  }

  /** The ticks before the first one at which a shutdown was requested. */
  function Taken(ticks: seq<Tick>): seq<Tick> {
    if ticks == [] || ticks[0].shutdown then [] else [ticks[0]] + Taken(ticks[1..])
  }

  /** `snapshot` is what the store holds, if there is one; otherwise the run opens with `cash`. */
  method RunTicks(cfg: Config, snapshot: Option<P.Book>, cash: real, ticks: seq<Tick>)
    returns (portfolio: P.Portfolio, ghost s: Loop, interrupted: bool)
    ensures var book := if snapshot.Some? then snapshot.value else P.Opening(cash);
            s == Run(cfg, book, Taken(ticks)) && portfolio.View() == s.book
    ensures interrupted <==> |Taken(ticks)| < |ticks|
  {
    hide P.Applied, P.Equity, P.Unrealized, Check, Executed, Size, Run, Taken;
    ghost var book := if snapshot.Some? then snapshot.value else P.Opening(cash);
    if snapshot.Some? {
      portfolio := new P.Portfolio.Restore(snapshot.value);
    } else {
      portfolio := new P.Portfolio(cash);
    }
    var exec := new PaperExecutor(SPREAD, FEE);
    var latest: map<string, real> := map[];
    var lastOrder: map<string, int> := map[];
    interrupted := false;
    s := Start(book);
    StartIsRun(cfg, book);
    var n := 0;
    NothingTaken(ticks);
    while n < |ticks|
      invariant n <= |ticks| && s == Run(cfg, book, ticks[..n]) && fresh(portfolio) && fresh(exec)
      invariant Taken(ticks) == ticks[..n] + Taken(ticks[n..])
      invariant portfolio.View() == s.book && latest == s.latest && exec.prices == latest && lastOrder == s.lastOrder
      invariant !interrupted
      decreases |ticks| - n
    {
      var t := ticks[n];
      TakenStep(ticks, n);
      if t.shutdown {
        interrupted := true;
        break;
      }
      TickStep(cfg, book, ticks, n);
      exec.SetPrice(t.symbol, t.price);
      latest := latest[t.symbol := t.price];
      var position := if t.symbol in portfolio.positions then portfolio.positions[t.symbol] else 0.0;
      var equity := portfolio.MarkToMarket(Prices(latest));
      var order := Size(t.decision, t.symbol, position, equity, t.price);
      if order.Some? {
        SizedSymbol(t.decision, t.symbol, position, equity, t.price);
        var unrealized := portfolio.UnrealizedPnl(Prices(latest));
        var ledger := P.Book(portfolio.cash, portfolio.positions, portfolio.realizedPnl, portfolio.avgCost);
        var c := Context(ledger, Some(t.price), equity, unrealized, Lookup(lastOrder, t.symbol), t.checked);
        var verdict := Check(cfg, order.value, c);
        if verdict.Ok? {
          var filled := exec.Execute(order.value);
          if filled.Ok? {
            portfolio.Apply(filled.value);
            ExecutedSymbol(latest, order.value);
            lastOrder := lastOrder[filled.value.symbol := t.recorded];
          }
        }
      }
      s := Ticked(cfg, s, t);
      n := n + 1;
    }
    if n == |ticks| { AllTaken(ticks); }
  }

  lemma StartIsRun(cfg: Config, book: P.Book)
    ensures Run(cfg, book, []) == Start(book)
  {}

  lemma NothingTaken(ticks: seq<Tick>)
    ensures ticks[..0] == [] && ticks[0..] == ticks && [] + Taken(ticks) == Taken(ticks)
  {}

  lemma TakenStep(ticks: seq<Tick>, n: nat)
    requires n < |ticks|
    ensures ticks[n].shutdown ==> ticks[..n] + Taken(ticks[n..]) == ticks[..n]
    ensures !ticks[n].shutdown ==> ticks[..n] + Taken(ticks[n..]) == ticks[..n + 1] + Taken(ticks[n + 1..])
  {
    assert ticks[n..][1..] == ticks[n + 1..];
    assert ticks[..n + 1] == ticks[..n] + [ticks[n]];
  }

  lemma AllTaken(ticks: seq<Tick>)
    ensures ticks[..|ticks|] == ticks && ticks[|ticks|..] == [] && Taken([]) == [] && ticks + [] == ticks
  {}

  lemma TickStep(cfg: Config, book: P.Book, ticks: seq<Tick>, n: nat)
    requires n < |ticks|
    ensures Run(cfg, book, ticks[..n + 1]) == Ticked(cfg, Run(cfg, book, ticks[..n]), ticks[n])
  {
    assert ticks[..n + 1][..n] == ticks[..n];
  }

  lemma SizedSymbol(d: Decision, sym: string, position: real, equity: real, price: real)
    ensures var o := Size(d, sym, position, equity, price); o.Some? ==> o.value.symbol == sym
  {}

  lemma ExecutedSymbol(prices: map<string, real>, o: Order)
    ensures Executed(prices, o, SPREAD, FEE).Ok? ==> Executed(prices, o, SPREAD, FEE).value.symbol == o.symbol
  {}
}
