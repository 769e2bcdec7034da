/**
 Spending caps that latch: the server's per-session budget (crates/server/src/budget.rs) and the
 per-wallet budget (crates/wallets/src/budget.rs). Both classes are proved against one machine.
 Times are readings of a monotone clock in nanoseconds.
 */
module Budget {
  import opened Wrappers

  const TWO_32: nat := 0x1_0000_0000
  const NANOS: nat := 1_000_000_000

  /** A zero count or duration, or a non-positive notional, means no limit. */
  datatype Caps = Caps(maxCount: nat, maxNotional: real, maxDuration: nat)

  datatype State = State(used: nat, notional: real, started: int, breached: bool)

  datatype Breach =
    | Count(cap: nat)
    | Notional(wouldBe: real, notionalCap: real)
    | Duration(elapsedSecs: nat, capSecs: nat)

  /** The counter and its cap are 32 bits wide. */
  predicate Fits(caps: Caps) {
    caps.maxCount < TWO_32
  }

  function Started(t: int): State {
    State(0, 0.0, t, false)
  }

  function Elapsed(started: int, t: int): nat {
    if t < started then 0 else t - started
  }

  function Positive(x: real): real {
    if x > 0.0 then x else 0.0
  }

  predicate CountFull(caps: Caps, s: State) {
    caps.maxCount > 0 && s.used >= caps.maxCount
  }

  predicate TimeUp(caps: Caps, s: State, t: int) {
    caps.maxDuration != 0 && Elapsed(s.started, t) >= caps.maxDuration
  }

  function DurationReport(caps: Caps, s: State, t: int): Breach {
    Duration(Elapsed(s.started, t) / NANOS, caps.maxDuration / NANOS)
  }

  /** What a latched budget reports. The clock is read once to check and once to report. */
  function LatchedReport(caps: Caps, s: State, checked: int, reported: int): Breach {
    if CountFull(caps, s) then Count(caps.maxCount)
    else if TimeUp(caps, s, checked) then DurationReport(caps, s, reported)
    else Notional(s.notional, caps.maxNotional)
  }

  function Charged(caps: Caps, s: State, amount: real, checked: int, reported: int): (State, Result<(), Breach>) {
    var wouldBe := s.notional + Positive(amount);
    if s.breached then (s, Err(LatchedReport(caps, s, checked, reported)))
    else if TimeUp(caps, s, checked) then (s.(breached := true), Err(DurationReport(caps, s, reported)))
    else if CountFull(caps, s) then (s.(breached := true), Err(Count(caps.maxCount)))
    else if caps.maxNotional > 0.0 && wouldBe > caps.maxNotional then
      (s.(breached := true), Err(Notional(wouldBe, caps.maxNotional)))
    else (s.(used := (s.used + 1) % TWO_32, notional := wouldBe), Ok(()))
  }

  /**
   A charge is booked exactly if the budget is not latched, its time is not up, its count not full and
   the notional, counted from zero up, has room; otherwise the budget latches. A first refusal looks at
   time, count and notional in this order, a latched budget at the count before the time.
   */
  lemma ChargedExactly(caps: Caps, s: State, amount: real, checked: int, reported: int)
    ensures var (after, r) := Charged(caps, s, amount, checked, reported);
            var timeUp := caps.maxDuration > 0 && checked - s.started >= caps.maxDuration;
            var full := caps.maxCount > 0 && s.used >= caps.maxCount;
            var total := s.notional + if amount > 0.0 then amount else 0.0;
            var over := caps.maxNotional > 0.0 && total > caps.maxNotional;
            var ran := if reported > s.started then reported - s.started else 0;
            && (r.Ok? <==> !s.breached && !timeUp && !full && !over)
            && after == (if r.Ok? then State((s.used + 1) % 0x1_0000_0000, total, s.started, false)
                         else s.(breached := true))
            && (r.Err? ==>
                  r.error ==
                  if full && (s.breached || !timeUp) then Count(caps.maxCount)
                  else if timeUp then Duration(ran / 1_000_000_000, caps.maxDuration / 1_000_000_000)
                  else Notional(if s.breached then s.notional else total, caps.maxNotional))
  {}

  // ---- the two classes ----

  class SessionBudget {
    const caps: Caps
    var ordersUsed: nat
    var notionalUsed: real
    var started: int
    var breached: bool

    ghost function View(): State
      reads this
    {
      State(ordersUsed, notionalUsed, started, breached)
    }

    constructor (caps: Caps, now: int)
      ensures this.caps == caps && View() == Started(now)
    {
      this.caps := caps;
      ordersUsed, notionalUsed, started, breached := 0, 0.0, now, false;
    }

    method TryRecord(notional: real, checked: int, reported: int) returns (r: Result<(), Breach>)
      modifies this
      ensures (View(), r) == Charged(caps, old(View()), notional, checked, reported)
    {
      if breached {
        var b := FirstBreach(checked, reported);
        return Err(b);
      }
      if caps.maxDuration != 0 && Elapsed(started, checked) >= caps.maxDuration {
        breached := true;
        return Err(Duration(Elapsed(started, reported) / NANOS, caps.maxDuration / NANOS));
      }
      if caps.maxCount > 0 && ordersUsed >= caps.maxCount {
        breached := true;
        return Err(Count(caps.maxCount));
      }
      var wouldBe := notionalUsed + Positive(notional);
      if caps.maxNotional > 0.0 && wouldBe > caps.maxNotional {
        breached := true;
        return Err(Notional(wouldBe, caps.maxNotional));
      }
      ordersUsed := (ordersUsed + 1) % TWO_32;
      notionalUsed := wouldBe;
      r := Ok(());
    }

    method FirstBreach(checked: int, reported: int) returns (b: Breach)
      ensures b == LatchedReport(caps, View(), checked, reported)
    {
      if caps.maxCount > 0 && ordersUsed >= caps.maxCount {
        b := Count(caps.maxCount);
      } else if caps.maxDuration != 0 && Elapsed(started, checked) >= caps.maxDuration {
        b := Duration(Elapsed(started, reported) / NANOS, caps.maxDuration / NANOS);
      } else {
        b := Notional(notionalUsed, caps.maxNotional);
      }
    }

    method Reset(now: int)
      modifies this
      ensures View() == Started(now)
    {
      ordersUsed := 0;
      notionalUsed := 0.0;
      started := now;
      breached := false;
    }
  }

  datatype WalletBreach =
    | TxCount(cap: nat)
    | WalletNotional(wouldBe: real, notionalCap: real)
    | WalletDuration(elapsedSecs: nat, capSecs: nat)

  function AsWallet(b: Breach): WalletBreach {
    match b
    case Count(cap) => TxCount(cap)
    case Notional(wouldBe, cap) => WalletNotional(wouldBe, cap)
    case Duration(elapsed, cap) => WalletDuration(elapsed, cap)
  }

  function AsWalletResult(r: Result<(), Breach>): Result<(), WalletBreach> {
    match r
    case Ok(_) => Ok(())
    case Err(b) => Err(AsWallet(b))
  }

  /** The wallet's refusals, in its own names; everything else is as in `ChargedExactly`. */
  lemma WalletRefusesExactly(caps: Caps, s: State, amount: real, checked: int, reported: int)
    requires Charged(caps, s, amount, checked, reported).1.Err?
    ensures var timeUp := caps.maxDuration > 0 && checked - s.started >= caps.maxDuration;
            var full := caps.maxCount > 0 && s.used >= caps.maxCount;
            var total := s.notional + if amount > 0.0 then amount else 0.0;
            var ran := if reported > s.started then reported - s.started else 0;
            AsWalletResult(Charged(caps, s, amount, checked, reported).1) ==
            Err(if full && (s.breached || !timeUp) then TxCount(caps.maxCount)
                else if timeUp then WalletDuration(ran / 1_000_000_000, caps.maxDuration / 1_000_000_000)
                else WalletNotional(if s.breached then s.notional else total, caps.maxNotional))
  {
    ChargedExactly(caps, s, amount, checked, reported);
    hide Charged;
  }

  class WalletBudget {
    const limits: Caps
    var txUsed: nat
    var notionalUsed: real
    var started: int
    var breached: bool

    ghost function View(): State
      reads this
    {
      State(txUsed, notionalUsed, started, breached)
    }

    constructor (limits: Caps, now: int)
      ensures this.limits == limits && View() == Started(now)
    {
      this.limits := limits;
      txUsed, notionalUsed, started, breached := 0, 0.0, now, false;
    }

    method TryReserve(notional: real, checked: int, reported: int) returns (r: Result<(), WalletBreach>)
      modifies this
      ensures var (s, charged) := Charged(limits, old(View()), notional, checked, reported);
              View() == s && r == AsWalletResult(charged)
    {
      if breached {
        var b := FirstBreach(checked, reported);
        return Err(b);
      }
      if limits.maxDuration != 0 && Elapsed(started, checked) >= limits.maxDuration {
        breached := true;
        return Err(WalletDuration(Elapsed(started, reported) / NANOS, limits.maxDuration / NANOS));
      }
      if limits.maxCount > 0 && txUsed >= limits.maxCount {
        breached := true;
        return Err(TxCount(limits.maxCount));
      }
      var wouldBe := notionalUsed + Positive(notional);
      if limits.maxNotional > 0.0 && wouldBe > limits.maxNotional {
        breached := true;
        return Err(WalletNotional(wouldBe, limits.maxNotional));
      }
      txUsed := (txUsed + 1) % TWO_32;
      notionalUsed := wouldBe;
      r := Ok(());
    }

    method FirstBreach(checked: int, reported: int) returns (b: WalletBreach)
      ensures b == AsWallet(LatchedReport(limits, View(), checked, reported))
    {
      if limits.maxCount > 0 && txUsed >= limits.maxCount {
        b := TxCount(limits.maxCount);
      } else if limits.maxDuration != 0 && Elapsed(started, checked) >= limits.maxDuration {
        b := WalletDuration(Elapsed(started, reported) / NANOS, limits.maxDuration / NANOS);
      } else {
        b := WalletNotional(notionalUsed, limits.maxNotional);
      }
    }

    method Reset(now: int)
      modifies this
      ensures View() == Started(now)
    {
      txUsed := 0;
      notionalUsed := 0.0;
      started := now;
      breached := false;
    }
  }

  // ---- whole runs ----

  datatype Call = Charge(amount: real, checked: int, reported: int) | Reset(at: int)

  datatype Answer = Charging(r: Result<(), Breach>) | Restarted

  function Step(caps: Caps, s: State, c: Call): (State, Answer) {
    match c
    case Charge(amount, checked, reported) =>
      var (next, r) := Charged(caps, s, amount, checked, reported);
      (next, Charging(r))
    case Reset(at) => (Started(at), Restarted)
  }

  function Run(caps: Caps, start: int, calls: seq<Call>): State {
    if calls == [] then Started(start)
    else Step(caps, Run(caps, start, calls[..|calls| - 1]), calls[|calls| - 1]).0
  }

  function AnswerTo(caps: Caps, start: int, calls: seq<Call>, k: nat): Answer
    requires k < |calls|
  {
    Step(caps, Run(caps, start, calls[..k]), calls[k]).1
  }

  predicate Accepts(caps: Caps, start: int, calls: seq<Call>, k: nat)
    requires k < |calls|
  {
    AnswerTo(caps, start, calls, k) == Charging(Ok(()))
  }

  /** The index just behind the last reset, and the time the running period began. */
  function Since(calls: seq<Call>): (n: nat)
    ensures n <= |calls|
  {
    if calls == [] then 0
    else if calls[|calls| - 1].Reset? then |calls|
    else Since(calls[..|calls| - 1])
  }

  function Began(start: int, calls: seq<Call>): int {
    if calls == [] then start
    else if calls[|calls| - 1].Reset? then calls[|calls| - 1].at
    else Began(start, calls[..|calls| - 1])
  }

  /** How many of the calls from `from` on were accepted, and what they spent. */
  function AcceptedCount(caps: Caps, start: int, calls: seq<Call>, from: nat): nat
    requires from <= |calls|
    decreases |calls|
  {
    if |calls| == from then 0
    else
      AcceptedCount(caps, start, calls[..|calls| - 1], from) + if Accepts(caps, start, calls, |calls| - 1) then 1 else 0
  }

  function AcceptedSum(caps: Caps, start: int, calls: seq<Call>, from: nat): real
    requires from <= |calls|
    decreases |calls|
  {
    if |calls| == from then 0.0
    else
      AcceptedSum(caps, start, calls[..|calls| - 1], from) +
      if calls[|calls| - 1].Charge? && Accepts(caps, start, calls, |calls| - 1) then Positive(calls[|calls| - 1].amount)
      else 0.0
  }

  lemma RunPush(caps: Caps, start: int, calls: seq<Call>)
    requires calls != []
    ensures Run(caps, start, calls) == Step(caps, Run(caps, start, calls[..|calls| - 1]), calls[|calls| - 1]).0
    ensures AnswerTo(caps, start, calls, |calls| - 1) ==
            Step(caps, Run(caps, start, calls[..|calls| - 1]), calls[|calls| - 1]).1
  {}

  /** So many orders and so much notional are booked (the counter modulo 2^32), within every cap that is set. */
  predicate Books(caps: Caps, s: State, count: nat, notional: real) {
    && s.used == count % TWO_32 && s.notional == notional
    && (caps.maxCount > 0 ==> count <= caps.maxCount)
    && (caps.maxNotional > 0.0 ==> notional <= caps.maxNotional)
  }

  lemma WrapStep(n: nat)
    ensures (n % TWO_32 + 1) % TWO_32 == (n + 1) % TWO_32
  {}

  lemma ChargeKeepsBooks(caps: Caps, s: State, count: nat, notional: real, amount: real, checked: int, reported: int)
    requires Fits(caps) && Books(caps, s, count, notional)
    ensures var (after, r) := Charged(caps, s, amount, checked, reported);
            && after.started == s.started && (after.breached <==> s.breached || r.Err?)
            && if r.Ok? then Books(caps, after, count + 1, notional + Positive(amount))
               else Books(caps, after, count, notional)
  {
    WrapStep(count);
    hide LatchedReport, DurationReport, Positive, TimeUp;
  }

  lemma NothingBooked(caps: Caps, now: int)
    ensures Books(caps, Started(now), 0, 0.0)
  {}

  /** Some call since the last reset was refused. */
  ghost predicate Refused(caps: Caps, start: int, calls: seq<Call>) {
    exists k :: Since(calls) <= k < |calls| && !Accepts(caps, start, calls, k)
  }

  lemma RefusedPush(caps: Caps, start: int, calls: seq<Call>)
    requires calls != []
    ensures Refused(caps, start, calls) <==>
            && calls[|calls| - 1].Charge?
            && (Refused(caps, start, calls[..|calls| - 1]) || !Accepts(caps, start, calls, |calls| - 1))
  {
    hide Accepts;
    EarlierAnswers(caps, start, calls);
    var init, from := calls[..|calls| - 1], Since(calls);
    if Refused(caps, start, init) && calls[|init|].Charge? {
      var k :| Since(init) <= k < |init| && !Accepts(caps, start, init, k);
      assert from <= k && !Accepts(caps, start, calls, k);
    }
    if calls[|init|].Charge? && !Accepts(caps, start, calls, |init|) {
      assert from <= |init|;
    }
  }

  /**
   The totals are the sums over the calls accepted since the last reset, they stay within every cap
   that is set, and the latch is set exactly if some call since the last reset was refused.
   */
  lemma {:induction false} TotalsAreSums(caps: Caps, start: int, calls: seq<Call>)
    requires Fits(caps)
    ensures var s, from := Run(caps, start, calls), Since(calls);
            && s.started == Began(start, calls)
            && Books(caps, s, AcceptedCount(caps, start, calls, from), AcceptedSum(caps, start, calls, from))
            && (s.breached <==> Refused(caps, start, calls))
  {
    if calls == [] {
      NothingBooked(caps, start);
    } else {
      hide Run, Books, Charged, Refused;
      var init, last := calls[..|calls| - 1], calls[|calls| - 1];
      var from := Since(init);
      TotalsAreSums(caps, start, init);
      RunPush(caps, start, calls);
      RefusedPush(caps, start, calls);
      match last {
        case Charge(amount, checked, reported) =>
          ChargeKeepsBooks(caps, Run(caps, start, init), AcceptedCount(caps, start, init, from),
                           AcceptedSum(caps, start, init, from), amount, checked, reported);
        case Reset(at) => NothingBooked(caps, at);
      }
    }
  }

  lemma EarlierAnswers(caps: Caps, start: int, calls: seq<Call>)
    requires calls != []
    ensures forall k :: 0 <= k < |calls| - 1 ==>
              (Accepts(caps, start, calls[..|calls| - 1], k) <==> Accepts(caps, start, calls, k))
  {
    var init := calls[..|calls| - 1];
    forall k | 0 <= k < |init|
      ensures Accepts(caps, start, init, k) <==> Accepts(caps, start, calls, k)
    {
      assert init[..k] == calls[..k];
    }
  }

  /** What the caps leave room for, read off the calls alone. */
  predicate Affordable(caps: Caps, start: int, calls: seq<Call>, amount: real, checked: int) {
    var from := Since(calls);
    && (caps.maxDuration != 0 ==> Elapsed(Began(start, calls), checked) < caps.maxDuration)
    && (caps.maxCount > 0 ==> AcceptedCount(caps, start, calls, from) < caps.maxCount)
    && (caps.maxNotional > 0.0 ==> AcceptedSum(caps, start, calls, from) + Positive(amount) <= caps.maxNotional)
  }

  /** A charge is accepted exactly if nothing was refused since the last reset and every cap has room. */
  lemma AcceptedExactly(caps: Caps, start: int, calls: seq<Call>, amount: real, checked: int, reported: int)
    requires Fits(caps)
    ensures Charged(caps, Run(caps, start, calls), amount, checked, reported).1.Ok? <==>
            !Refused(caps, start, calls) && Affordable(caps, start, calls, amount, checked)
  {
    hide Run, Accepts, AcceptedCount, AcceptedSum, Elapsed, Positive;
    TotalsAreSums(caps, start, calls);
  }

  /** After a refusal nothing changes and every charge is refused, until a reset. */
  lemma {:induction false} RefusalLatches(caps: Caps, start: int, calls: seq<Call>, more: seq<Call>)
    requires Run(caps, start, calls).breached && forall k :: 0 <= k < |more| ==> more[k].Charge?
    ensures Run(caps, start, calls + more) == Run(caps, start, calls)
    ensures forall k :: |calls| <= k < |calls + more| ==> !Accepts(caps, start, calls + more, k)
    decreases |more|
  {
    var all := calls + more;
    if more == [] {
      assert all == calls;
    } else {
      var init := more[..|more| - 1];
      assert all[..|all| - 1] == calls + init && all[|all| - 1] == more[|more| - 1];
      RefusalLatches(caps, start, calls, init);
      RunPush(caps, start, all);
      EarlierAnswers(caps, start, all);
    }
  }

  // ---- reports, on a monotone clock ----

  /** The last reading of the clock. */
  function Clock(start: int, calls: seq<Call>): int {
    if calls == [] then start
    else
      match calls[|calls| - 1]
      case Charge(_, _, reported) => reported
      case Reset(at) => at
  }

  predicate Monotone(start: int, calls: seq<Call>) {
    calls == [] ||
    var init := calls[..|calls| - 1];
    && Monotone(start, init)
    && match calls[|calls| - 1]
       case Charge(_, checked, reported) => Clock(start, init) <= checked <= reported
       case Reset(at) => Clock(start, init) <= at
  }

  /** Why the latch is set: one of the caps that are set is used up, or a notional was refused. */
  predicate HasCause(caps: Caps, s: State, clock: int) {
    CountFull(caps, s) || TimeUp(caps, s, clock) || caps.maxNotional > 0.0
  }

  lemma {:induction false} LatchHasCause(caps: Caps, start: int, calls: seq<Call>)
    requires Monotone(start, calls)
    ensures var s := Run(caps, start, calls);
            s.started <= Clock(start, calls) && (s.breached ==> HasCause(caps, s, Clock(start, calls)))
  {
    if calls != [] {
      LatchHasCause(caps, start, calls[..|calls| - 1]);
      RunPush(caps, start, calls);
      hide Run;
    }
  }

  /** The report names a cap that is set and that has been reached. */
  predicate ReportHolds(caps: Caps, s: State, amount: real, b: Breach) {
    match b
    case Count(cap) => cap == caps.maxCount > 0 && s.used >= cap
    case Duration(elapsed, cap) => cap == caps.maxDuration / NANOS && caps.maxDuration > 0 && elapsed >= cap
    case Notional(wouldBe, cap) =>
      && cap == caps.maxNotional > 0.0
      && (if s.breached then wouldBe == s.notional <= cap else wouldBe == s.notional + Positive(amount) > cap)
  }

  /**
   Every refusal on a monotone clock names a cap that is set. A first refusal for notional states a
   total above the cap; a later one, from the latch, states the unchanged total, which is within it.
   */
  lemma ReportsNameACap(caps: Caps, start: int, calls: seq<Call>, amount: real, checked: int, reported: int)
    requires Fits(caps)
    requires Monotone(start, calls + [Charge(amount, checked, reported)])
    requires Charged(caps, Run(caps, start, calls), amount, checked, reported).1.Err?
    ensures ReportHolds(caps, Run(caps, start, calls), amount,
                        Charged(caps, Run(caps, start, calls), amount, checked, reported).1.error)
  {
    var all := calls + [Charge(amount, checked, reported)];
    assert all[..|all| - 1] == calls;
    LatchHasCause(caps, start, calls);
    TotalsAreSums(caps, start, calls);
    hide Run, Since, AcceptedCount, AcceptedSum, Accepts;
    var s := Run(caps, start, calls);
    SecondsKeepOrder(caps.maxDuration, Elapsed(s.started, checked), Elapsed(s.started, reported));
  }

  lemma SecondsKeepOrder(a: nat, b: nat, c: nat)
    requires b <= c
    ensures b / NANOS <= c / NANOS && (a <= b ==> a / NANOS <= b / NANOS)
  {}

  /** Driven by the same calls, the two classes stay in the same state and give the same answers. */
  method Lockstep(s: SessionBudget, w: WalletBudget, start: int, calls: seq<Call>)
    returns (session: seq<Result<(), Breach>>, wallet: seq<Result<(), WalletBreach>>)
    requires s.caps == w.limits && s.View() == w.View() == Started(start)
    modifies s, w
    ensures s.View() == w.View() == Run(s.caps, start, calls)
    ensures |session| == |wallet| && forall k :: 0 <= k < |session| ==> wallet[k] == AsWalletResult(session[k])
  {
    session, wallet := [], [];
    for i := 0 to |calls|
      invariant s.View() == w.View() == Run(s.caps, start, calls[..i])
      invariant |session| == |wallet| && forall k :: 0 <= k < |session| ==> wallet[k] == AsWalletResult(session[k])
    {
      assert calls[..i + 1][..i] == calls[..i];
      match calls[i] {
        case Charge(amount, checked, reported) =>
          var r := s.TryRecord(amount, checked, reported);
          var q := w.TryReserve(amount, checked, reported);
          session, wallet := session + [r], wallet + [q];
        case Reset(at) =>
          s.Reset(at);
          w.Reset(at);
      }
    }
    assert calls[..|calls|] == calls;
  }
}
