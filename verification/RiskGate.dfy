/** The risk gate (crates/core/src/risk.rs). Times are in nanoseconds, amounts exact reals. */
module RiskGate {
  import opened Wrappers
  import opened Orders
  import P = Portfolio

  datatype Config = Config(
    maxOrderNotional: real, maxPositionFraction: real, maxDailyLoss: real, maxUnrealizedLoss: real,
    maxOpenPositions: nat, cooldownSecs: nat, maxSlippage: real,
    allowlist: set<string>, denylist: set<string>, killSwitch: bool)

  datatype Context = Context(
    book: P.Book, refPrice: Option<real>, equity: real, unrealized: real, lastOrderAt: Option<int>, now: int)

  datatype Reject =
    | KillSwitch
    | Denylisted(symbol: string)
    | NotAllowlisted(symbol: string)
    | NotionalCap(got: real, cap: real)
    | PositionCap(got: real, cap: real)
    | SlippageCap(got: real, cap: real)
    | DailyLoss(realized: real, limit: real)
    | UnrealizedLoss(unrealized: real, limit: real)
    | TooManyOpenPositions(open: nat, maxOpen: nat)
    | Cooldown(symbol: string, remainingSecs: int)
    | NoReferencePrice
    | InsufficientCash(need: real, have: real)

  const SECOND: int := 1_000_000_000

  /** Whole seconds of a signed span, truncated toward zero. */
  function WholeSeconds(nanos: int): int {
    if nanos >= 0 then nanos / SECOND else -(-nanos / SECOND)
  }

  const TWO_63: int := 0x8000_0000_0000_0000
  const TWO_64: int := 0x1_0000_0000_0000_0000

  /** The `as i64` cast of an unsigned 64-bit number. */
  function AsSigned(n: nat): int {
    if n % TWO_64 < TWO_63 then n % TWO_64 else n % TWO_64 - TWO_64
  }

  function PriceOf(o: Order, c: Context): Option<real> {
    if o.limitPrice.Some? then o.limitPrice else c.refPrice
  }

  /** The stops that apply to buys and sells alike, in the order they are tried. */
  function HardStop(cfg: Config, o: Order, c: Context): Option<Reject> {
    if cfg.killSwitch then Some(KillSwitch)
    else if o.symbol in cfg.denylist then Some(Denylisted(o.symbol))
    else if cfg.allowlist != {} && o.symbol !in cfg.allowlist then Some(NotAllowlisted(o.symbol))
    else if o.maxSlippage > cfg.maxSlippage then Some(SlippageCap(o.maxSlippage, cfg.maxSlippage))
    else if c.book.realized <= -cfg.maxDailyLoss then Some(DailyLoss(c.book.realized, cfg.maxDailyLoss))
    else None
  }

  function CooldownStop(cfg: Config, o: Order, c: Context): Option<Reject> {
    if cfg.cooldownSecs == 0 || c.lastOrderAt.None? then None
    else
      var elapsed, cooldown := WholeSeconds(c.now - c.lastOrderAt.value), AsSigned(cfg.cooldownSecs);
      if elapsed < cooldown then Some(Cooldown(o.symbol, cooldown - elapsed)) else None
  }

  /** What a quantity is worth at a price. */
  function Worth(qty: real, price: real): real {
    qty * price
  }

  function Share(x: real, total: real): real
    requires total > 0.0
  {
    x / total
  }

  function Fraction(o: Order, c: Context, price: real): real {
    if c.equity > 0.0 then Share(Worth(P.Qty(c.book, o.symbol) + o.qty, price), c.equity) else 0.0
  }

  /** The limits on new exposure: buys only. */
  function EntryLimit(cfg: Config, o: Order, c: Context, price: real): Option<Reject> {
    if Worth(o.qty, price) > c.book.cash then Some(InsufficientCash(Worth(o.qty, price), c.book.cash))
    else if c.unrealized <= -cfg.maxUnrealizedLoss then Some(UnrealizedLoss(c.unrealized, cfg.maxUnrealizedLoss))
    else if P.Qty(c.book, o.symbol) == 0.0 && |P.Held(c.book)| >= cfg.maxOpenPositions then
      Some(TooManyOpenPositions(|P.Held(c.book)|, cfg.maxOpenPositions))
    else if CooldownStop(cfg, o, c).Some? then CooldownStop(cfg, o, c)
    else if Fraction(o, c, price) > cfg.maxPositionFraction then
      Some(PositionCap(Fraction(o, c, price), cfg.maxPositionFraction))
    else None
  }

  function Check(cfg: Config, o: Order, c: Context): Result<(), Reject> {
    if HardStop(cfg, o, c).Some? then Err(HardStop(cfg, o, c).value)
    else if PriceOf(o, c).None? then Err(NoReferencePrice)
    else
      var price := PriceOf(o, c).value;
      if Worth(o.qty, price) > cfg.maxOrderNotional then Err(NotionalCap(Worth(o.qty, price), cfg.maxOrderNotional))
      else if o.side.Sell? then Ok(())
      else if EntryLimit(cfg, o, c, price).Some? then Err(EntryLimit(cfg, o, c, price).value)
      else Ok(())
  }

  /** Seconds are cut off toward zero, and the cast keeps the low 64 bits and the top one as a sign. */
  lemma SecondsAndCast(nanos: int, n: nat)
    ensures var s := WholeSeconds(nanos);
            if nanos >= 0 then s * SECOND <= nanos < (s + 1) * SECOND else (s - 1) * SECOND < nanos <= s * SECOND
    ensures -TWO_63 <= AsSigned(n) < TWO_63 && (n - AsSigned(n)) % TWO_64 == 0
  {
    assert nanos < 0 ==> -WholeSeconds(nanos) == -nanos / SECOND;
  }

  // ---- what the gate guarantees ----

  /** The cooldown in force: none if zero, and none from 2^63 seconds up, where the cast turns negative. */
  predicate CooldownWorks(cfg: Config) {
    0 < cfg.cooldownSecs < TWO_63
  }

  /**
   The cooldown stops a buy exactly if it is in force and less than its time has passed, or if it is
   cast to a negative number and the last order lies far enough in the future.
   */
  lemma CooldownExactly(cfg: Config, o: Order, c: Context)
    requires cfg.cooldownSecs < TWO_64 && c.lastOrderAt.Some?
    ensures CooldownStop(cfg, o, c).Some? <==>
            if cfg.cooldownSecs < TWO_63 then
              CooldownWorks(cfg) && c.now - c.lastOrderAt.value < cfg.cooldownSecs * SECOND
            else c.lastOrderAt.value - c.now >= (TWO_64 - cfg.cooldownSecs + 1) * SECOND
  {
    var span := c.now - c.lastOrderAt.value;
    if span >= 0 {
      SecondsBelow(span, cfg.cooldownSecs);
      assert span / SECOND >= 0;
    } else if cfg.cooldownSecs < TWO_63 {
      assert WholeSeconds(span) <= 0;
    } else {
      SecondsBelow(-span, TWO_64 - cfg.cooldownSecs + 1);
    }
  }

  /** A buy that no gate limit but the cooldown would stop, for the two examples below. */
  function OneShare(price: real): Order {
    Order("o", "X", Buy, 1.0, Some(price), 0.0, Paper, "")
  }

  function Roomy(cooldownSecs: nat): Config {
    Config(10.0, 1.0, 1.0, 1.0, 1, cooldownSecs, 0.0, {}, {}, false)
  }

  function Flush(last: Option<int>, now: int): Context {
    Context(P.Opening(100.0), None, 100.0, 0.0, last, now)
  }

  lemma FlushHoldsNothing(last: Option<int>, now: int)
    ensures P.Held(Flush(last, now).book) == {} && P.Qty(Flush(last, now).book, "X") == 0.0
  {
    assert P.Held(P.Opening(100.0)) == {};
  }

  /**
   A cooldown of 2^63 seconds lets a buy through at the very second of the last one; one second less
   does not. The longest cooldown stops a buy whose last order is five seconds in the future.
   */
  lemma HugeCooldownStopsNothing(now: int)
    ensures Check(Roomy(TWO_63), OneShare(1.0), Flush(Some(now), now)).Ok?
    ensures Check(Roomy(TWO_63 - 1), OneShare(1.0), Flush(Some(now), now)).Err?
    ensures Check(Roomy(TWO_64 - 1), OneShare(1.0), Flush(Some(now + 5 * SECOND), now)).Err?
  {
    FlushHoldsNothing(Some(now), now);
    FlushHoldsNothing(Some(now + 5 * SECOND), now);
    assert WholeSeconds(0) == 0 && WholeSeconds(-5 * SECOND) == -5;
  }

  lemma SecondsBelow(span: int, secs: nat)
    requires span >= 0
    ensures span / SECOND < secs <==> span < secs * SECOND
  {}

  // ---- exactly what passes, and why an order is refused ----

  /** What is asked of an order of either side, at its own limit price or else at the reference price. */
  predicate Admissible(cfg: Config, o: Order, c: Context) {
    var price := if o.limitPrice.Some? then o.limitPrice else c.refPrice;
    && !cfg.killSwitch && o.symbol !in cfg.denylist && (cfg.allowlist == {} || o.symbol in cfg.allowlist)
    && o.maxSlippage <= cfg.maxSlippage && c.book.realized > -cfg.maxDailyLoss
    && price.Some? && o.qty * price.value <= cfg.maxOrderNotional
  }

  /** The cooldown has passed, is off, or is cast to a negative number that the last order does not undercut. */
  predicate Rested(cfg: Config, c: Context) {
    cfg.cooldownSecs == 0 || c.lastOrderAt.None? ||
    var span := c.now - c.lastOrderAt.value;
    if cfg.cooldownSecs < TWO_63 then span >= cfg.cooldownSecs * SECOND
    else -span < (TWO_64 - cfg.cooldownSecs + 1) * SECOND
  }

  /** What is asked of a buy besides. */
  predicate Enterable(cfg: Config, o: Order, c: Context, price: real) {
    var held := if o.symbol in c.book.positions then c.book.positions[o.symbol] else 0.0;
    && o.qty * price <= c.book.cash && c.unrealized > -cfg.maxUnrealizedLoss
    && (held != 0.0 || |set k | k in c.book.positions && c.book.positions[k] != 0.0| < cfg.maxOpenPositions)
    && Rested(cfg, c)
    && if c.equity > 0.0 then (held + o.qty) * price <= cfg.maxPositionFraction * c.equity
       else cfg.maxPositionFraction >= 0.0
  }

  lemma FractionExactly(cfg: Config, o: Order, c: Context, price: real)
    ensures Fraction(o, c, price) <= cfg.maxPositionFraction <==>
            if c.equity > 0.0 then (P.Qty(c.book, o.symbol) + o.qty) * price <= cfg.maxPositionFraction * c.equity
            else cfg.maxPositionFraction >= 0.0
  {
    hide P.Qty, Share;
    var after := Worth(P.Qty(c.book, o.symbol) + o.qty, price);
    if c.equity > 0.0 { ShareExactly(after, c.equity, cfg.maxPositionFraction); }
  }

  lemma ShareExactly(x: real, total: real, cap: real)
    requires total > 0.0
    ensures Share(x, total) <= cap <==> x <= cap * total
    ensures Share(x, total) * total == x
  {
    var y := x / total;
    assert y * total == x;
    if y <= cap { TimesPositive(y, cap, total); } else { TimesMore(y, cap, total); }
  }

  lemma TimesPositive(x: real, y: real, total: real)
    requires x <= y && total > 0.0
    ensures x * total <= y * total
  {}

  lemma TimesMore(x: real, y: real, total: real)
    requires x > y && total > 0.0
    ensures x * total > y * total
  {}

  /** An order passes exactly if it is admissible and, if it buys, may be entered at its price. */
  lemma PassesExactly(cfg: Config, o: Order, c: Context)
    requires cfg.cooldownSecs < TWO_64
    ensures Check(cfg, o, c).Ok? <==>
            && Admissible(cfg, o, c)
            && (o.side.Buy? ==>
                  Enterable(cfg, o, c, if o.limitPrice.Some? then o.limitPrice.value else c.refPrice.value))
  {
    hide CooldownStop, Fraction, AsSigned, WholeSeconds;
    if PriceOf(o, c).Some? { FractionExactly(cfg, o, c, PriceOf(o, c).value); }
    if c.lastOrderAt.Some? { CooldownExactly(cfg, o, c); }
    RestedExactly(cfg, o, c);
    assert P.Held(c.book) == set k | k in c.book.positions && c.book.positions[k] != 0.0;
  }

  lemma RestedExactly(cfg: Config, o: Order, c: Context)
    requires cfg.cooldownSecs < TWO_64
    ensures CooldownStop(cfg, o, c).None? <==> Rested(cfg, c)
  {
    if c.lastOrderAt.Some? { CooldownExactly(cfg, o, c); }
  }

  /** The place of a reason in the order in which reasons are looked for. */
  function Rank(r: Reject): nat {
    match r
    case KillSwitch => 0
    case Denylisted(_) => 1
    case NotAllowlisted(_) => 2
    case SlippageCap(_, _) => 3
    case DailyLoss(_, _) => 4
    case NoReferencePrice => 5
    case NotionalCap(_, _) => 6
    case InsufficientCash(_, _) => 7
    case UnrealizedLoss(_, _) => 8
    case TooManyOpenPositions(_, _) => 9
    case Cooldown(_, _) => 10
    case PositionCap(_, _) => 11
  }

  /** The reason applies to the order, with the figures it states. */
  predicate Applies(cfg: Config, o: Order, c: Context, r: Reject) {
    var price := if o.limitPrice.Some? then o.limitPrice else c.refPrice;
    var held := if o.symbol in c.book.positions then c.book.positions[o.symbol] else 0.0;
    match r
    case KillSwitch => cfg.killSwitch
    case Denylisted(sym) => sym == o.symbol && sym in cfg.denylist
    case NotAllowlisted(sym) => sym == o.symbol && cfg.allowlist != {} && sym !in cfg.allowlist
    case SlippageCap(got, cap) => got == o.maxSlippage && cap == cfg.maxSlippage && got > cap
    case DailyLoss(realized, limit) => realized == c.book.realized && limit == cfg.maxDailyLoss && realized <= -limit
    case NoReferencePrice => price.None?
    case NotionalCap(got, cap) =>
      price.Some? && got == o.qty * price.value && cap == cfg.maxOrderNotional && got > cap
    case InsufficientCash(need, have) =>
      o.side.Buy? && price.Some? && need == o.qty * price.value && have == c.book.cash && need > have
    case UnrealizedLoss(unrealized, limit) =>
      o.side.Buy? && unrealized == c.unrealized && limit == cfg.maxUnrealizedLoss && unrealized <= -limit
    case TooManyOpenPositions(open, maxOpen) =>
      && o.side.Buy? && held == 0.0 && open == |set k | k in c.book.positions && c.book.positions[k] != 0.0|
      && maxOpen == cfg.maxOpenPositions && open >= maxOpen
    case Cooldown(sym, remaining) =>
      && o.side.Buy? && sym == o.symbol && !Rested(cfg, c)
      && remaining == AsSigned(cfg.cooldownSecs) - WholeSeconds(c.now - c.lastOrderAt.value)
    case PositionCap(got, cap) =>
      && o.side.Buy? && price.Some? && cap == cfg.maxPositionFraction && got > cap
      && if c.equity > 0.0 then got * c.equity == (held + o.qty) * price.value else got == 0.0
  }

  lemma OnePositionCap(got: real, other: real, equity: real, x: real)
    requires equity > 0.0 && got * equity == x && other * equity == x
    ensures got == other
  {
    if got > other { TimesMore(got, other, equity); }
    if got < other { TimesMore(other, got, equity); }
  }

  /** A reason that is given applies; a given kind of reason applies with one set of figures only. */
  lemma GivenReasonApplies(cfg: Config, o: Order, c: Context)
    requires cfg.cooldownSecs < TWO_64 && Check(cfg, o, c).Err?
    ensures Applies(cfg, o, c, Check(cfg, o, c).error)
  {
    hide Fraction, AsSigned, WholeSeconds, Rested;
    RestedExactly(cfg, o, c);
    assert P.Held(c.book) == set k | k in c.book.positions && c.book.positions[k] != 0.0;
    if PriceOf(o, c).Some? { FractionFigures(o, c, PriceOf(o, c).value); }
  }

  lemma FractionFigures(o: Order, c: Context, price: real)
    ensures if c.equity > 0.0 then Fraction(o, c, price) * c.equity == (P.Qty(c.book, o.symbol) + o.qty) * price
            else Fraction(o, c, price) == 0.0
  {
    hide P.Qty, Share;
    var after := Worth(P.Qty(c.book, o.symbol) + o.qty, price);
    if c.equity > 0.0 { ShareExactly(after, c.equity, 0.0); }
  }

  lemma NothingEarlierApplies(cfg: Config, o: Order, c: Context, q: Reject)
    requires cfg.cooldownSecs < TWO_64 && Applies(cfg, o, c, q)
    ensures Check(cfg, o, c).Err? && Rank(Check(cfg, o, c).error) <= Rank(q)
  {
    hide Fraction, AsSigned, WholeSeconds, Rested;
    RestedExactly(cfg, o, c);
    assert P.Held(c.book) == set k | k in c.book.positions && c.book.positions[k] != 0.0;
    if q.PositionCap? {
      FractionFigures(o, c, PriceOf(o, c).value);
      if c.equity > 0.0 { OnePositionCap(q.got, Fraction(o, c, PriceOf(o, c).value), c.equity,
                                         (P.Qty(c.book, o.symbol) + o.qty) * PriceOf(o, c).value); }
    }
  }

  lemma OneOfAKind(cfg: Config, o: Order, c: Context, q: Reject, r: Reject)
    requires Applies(cfg, o, c, q) && Applies(cfg, o, c, r) && Rank(q) == Rank(r)
    ensures q == r
  {
    hide AsSigned, WholeSeconds, Rested;
    if q.PositionCap? && c.equity > 0.0 {
      OnePositionCap(q.got, r.got, c.equity, q.got * c.equity);
    }
  }

  /** An order is refused for the first reason that applies, with its figures, and passes if none does. */
  lemma RefusedForTheFirstReason(cfg: Config, o: Order, c: Context, r: Reject)
    requires cfg.cooldownSecs < TWO_64
    ensures Check(cfg, o, c) == Err(r) <==>
            Applies(cfg, o, c, r) && forall q :: Applies(cfg, o, c, q) ==> Rank(r) <= Rank(q)
    ensures Check(cfg, o, c).Ok? <==> forall q :: !Applies(cfg, o, c, q)
  {
    hide Check, Applies, Rank;
    forall q | Applies(cfg, o, c, q)
      ensures Check(cfg, o, c).Err? && Rank(Check(cfg, o, c).error) <= Rank(q)
    {
      NothingEarlierApplies(cfg, o, c, q);
    }
    if Check(cfg, o, c).Err? {
      var e := Check(cfg, o, c).error;
      GivenReasonApplies(cfg, o, c);
      if Applies(cfg, o, c, r) && Rank(r) == Rank(e) { OneOfAKind(cfg, o, c, r, e); }
    }
  }

  /**
   A sell that no hard stop concerns is refused exactly if it has no price or its notional exceeds
   the order cap: the cap on a single order also stops sells that reduce exposure.
   */
  lemma SellRefusedExactly(cfg: Config, o: Order, c: Context)
    requires o.side.Sell? && !cfg.killSwitch && o.symbol !in cfg.denylist
    requires (cfg.allowlist == {} || o.symbol in cfg.allowlist) && o.maxSlippage <= cfg.maxSlippage
    requires c.book.realized > -cfg.maxDailyLoss
    ensures Check(cfg, o, c).Err? <==>
            var price := if o.limitPrice.Some? then o.limitPrice else c.refPrice;
            price.None? || o.qty * price.value > cfg.maxOrderNotional
  {}

  /** Selling two of ten held shares at 100 against an order cap of 10 is refused. */
  lemma ReducingSellIsRefused()
    ensures var c := Context(P.Book(0.0, map["X" := 10.0], 0.0, map["X" := 1.0]), None, 1000.0, 0.0, None, 0);
            var sell := Order("o", "X", Sell, 2.0, Some(100.0), 0.0, Paper, "");
            Check(Roomy(0), sell, c) == Err(NotionalCap(200.0, 10.0)) && P.Qty(c.book, "X") > sell.qty
  {}

  /** With the kill switch engaged, or the daily loss reached, nothing passes: no order of any kind. */
  lemma HardStopsDominate(cfg: Config, o: Order, c: Context)
    ensures cfg.killSwitch ==> Check(cfg, o, c) == Err(KillSwitch)
    ensures c.book.realized <= -cfg.maxDailyLoss ==> Check(cfg, o, c).Err?
  {}

  /**
   A buy that passes is of a permitted symbol, within the slippage and loss limits, and stays within
   every limit at the gate's price: the order cap, the cash, the number of open positions after the
   buy, the position fraction after the buy, and the cooldown.
   */
  lemma PassedBuyIsWithinLimits(cfg: Config, o: Order, c: Context)
    requires o.side.Buy? && Check(cfg, o, c).Ok?
    ensures PriceOf(o, c).Some?
    ensures o.symbol !in cfg.denylist && (cfg.allowlist == {} || o.symbol in cfg.allowlist)
    ensures o.maxSlippage <= cfg.maxSlippage && c.unrealized > -cfg.maxUnrealizedLoss
    ensures var price := PriceOf(o, c).value;
            && Worth(o.qty, price) <= cfg.maxOrderNotional
            && Worth(o.qty, price) <= c.book.cash
            && |P.Held(c.book) + {o.symbol}| <= MaxNat(cfg.maxOpenPositions, |P.Held(c.book)|)
            && (c.equity > 0.0 ==> Worth(P.Qty(c.book, o.symbol) + o.qty, price) <= cfg.maxPositionFraction * c.equity)
            && (CooldownWorks(cfg) && c.lastOrderAt.Some? ==>
                  c.now - c.lastOrderAt.value >= cfg.cooldownSecs * SECOND)
  {
    hide CooldownStop, Share, Worth, P.Qty, P.Held;
    var price := PriceOf(o, c).value;
    if CooldownWorks(cfg) && c.lastOrderAt.Some? { CooldownExactly(cfg, o, c); }
    HeldWith(c.book, o.symbol);
    if c.equity > 0.0 {
      ShareExactly(Worth(P.Qty(c.book, o.symbol) + o.qty, price), c.equity, cfg.maxPositionFraction);
    }
  }

  function MaxNat(a: nat, b: nat): nat { if a > b then a else b }

  lemma HeldWith(b: P.Book, sym: string)
    ensures P.Qty(b, sym) != 0.0 ==> P.Held(b) + {sym} == P.Held(b)
    ensures |P.Held(b) + {sym}| <= |P.Held(b)| + 1
  {
    if sym in P.Held(b) { assert P.Held(b) + {sym} == P.Held(b); }
  }
}
