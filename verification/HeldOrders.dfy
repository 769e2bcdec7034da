/**
 What the kill switch and a timeout do to orders that are already in progress, in every reachable
 state of the server.
 */
module HeldOrders {
  import opened Wrappers
  import opened Seqs
  import opened Orders
  import opened RiskGate
  import opened OrderParse
  import opened HookGate
  import opened Server
  import opened ServerRuns
  import P = Portfolio
  import A = Approvals
  import R = ApprovalRuns
  import B = Budget

  // ---- decisions on a reachable queue ----

  /**
   A decision takes effect exactly if its entry is pending, and is sent on. While the ticket is there
   that is exactly as long as its channel shows Pending; afterwards the channel says nothing.
   */
  lemma DecisionTakesExactly(timeout: nat, ops: seq<R.Op>, id: string, to: A.State, reason: Option<string>, now: int)
    requires to.Terminal()
    ensures var q := R.Run(R.Real(timeout), ops);
            var (after, r) := A.Decided(q, Some(A.RETAIN), id, to, reason, now);
            && (r == Ok(true) <==> R.Open(R.Run(R.Full(timeout), ops).entries, id))
            && (A.IsOpen(q.sent, id) ==> (r == Ok(true) <==> A.Shows(q.sent, id, A.Pending)))
            && (r == Ok(true) ==> after.sent == A.Send(q.sent, id, to))
  {
    hide R.Run, R.Ledger, A.Keep, A.Find, A.Send;
    var q, full := R.Run(R.Real(timeout), ops), R.Run(R.Full(timeout), ops);
    R.StoreRefines(timeout, ops);
    R.RunKeepsLedger(timeout, ops);
    R.StoreInvariant(timeout, ops);
    R.FindsTheOpenOne(q.entries, id);
    R.KeepLeavesOpen(full.entries, A.RETAIN, id);
    if A.IsOpen(q.sent, id) {
      var k := OpenShowsPending(full, id);
    }
  }

  /** With its ticket there, a channel shows Pending exactly if its entry is pending. */
  lemma OpenShowsPending(q: A.Queue, id: string) returns (k: nat)
    requires R.Ledger(q) && A.IsOpen(q.sent, id)
    ensures k < |q.entries| && q.entries[k].id == id
    ensures A.Shows(q.sent, id, A.Pending) <==> q.entries[k].state.Pending?
    ensures R.Open(q.entries, id) <==> A.Shows(q.sent, id, A.Pending)
  {
    hide R.IssuedAs;
    R.LedgerIsDistinct(q);
    k :| 0 <= k < |q.entries| && q.entries[k].id == id;
  }

  /** A decided channel keeps its value. */
  lemma DecidedChannelStays(setup: Setup, s: State, step: Step, ops: seq<R.Op>, ticket: string)
    requires s.queue == R.Run(R.Real(setup.timeout), ops)
    requires ticket in s.queue.sent && s.queue.sent[ticket].value.Terminal()
    ensures A.Shows(Next(setup, s, step).queue.sent, ticket, s.queue.sent[ticket].value)
  {
    hide Next, OpsOf, R.Run, R.Step, R.Ledger, A.Keep;
    QueueStep(setup, s, step, ops);
    var full := R.Run(R.Full(setup.timeout), ops);
    R.StoreRefines(setup.timeout, ops);
    R.StoreRefines(setup.timeout, ops + OpsOf(s, step));
    R.RunKeepsLedger(setup.timeout, ops);
    if OpsOf(s, step) == [] {
      AppendNil(ops);
    } else {
      var op := OpsOf(s, step)[0];
      assert OpsOf(s, step) == [op];
      R.RunPush(R.Full(setup.timeout), ops, op);
      R.ChannelMoves(full, setup.timeout, op, ticket);
    }
  }

  // ---- which orders the kill switch still reaches ----

  /** The hook carries an order that is waiting to be queued, decided or charged, or has been approved. */
  predicate InFlight(s: State, i: nat) {
    && i < |s.hooks| && s.hooks[i].order.Some?
    && match s.hooks[i].phase
       case Held => true
       case Cleared => true
       case Waiting(ticket) => A.Shows(s.queue.sent, ticket, A.Pending) || A.Shows(s.queue.sent, ticket, A.Approved)
       case Answered(_) => false
       case Abandoned => false
  }

  /** An emptied budget would take the order: its notional alone is within the cap, if there is one. */
  predicate HasRoom(setup: Setup, h: Hook)
    requires h.order.Some?
  {
    setup.caps.maxNotional <= 0.0 || B.Positive(Notional(h.order.value, h.req.context)) <= setup.caps.maxNotional
  }

  predicate NotOut(setup: Setup, s: State, i: nat) {
    AllowedOrder(s, i) || (InFlight(s, i) && HasRoom(setup, s.hooks[i]))
  }

  lemma NoRoomNoCharge(caps: B.Caps, b: B.State, amount: real, checked: int, reported: int)
    requires caps.maxNotional > 0.0 && b.notional >= 0.0 && B.Positive(amount) > caps.maxNotional
    ensures B.Charged(caps, b, amount, checked, reported).1.Err?
  {}

  lemma {:induction false} NotionalIsNotNegative(caps: B.Caps, start: int, calls: seq<B.Call>)
    ensures B.Run(caps, start, calls).notional >= 0.0
  {
    if calls != [] {
      NotionalIsNotNegative(caps, start, calls[..|calls| - 1]);
      B.RunPush(caps, start, calls);
      hide B.Run;
    }
  }

  lemma OutAfterCharge(setup: Setup, s: State, i: nat, checked: int, reported: int)
    requires i < |s.hooks| && s.budget.notional >= 0.0 && !NotOut(setup, s, i)
    ensures !NotOut(setup, Next(setup, s, Charge(i, checked, reported)), i)
  {
    var h := s.hooks[i];
    if h.order.Some? && h.phase == Cleared {
      NoRoomNoCharge(setup.caps, s.budget, Notional(h.order.value, h.req.context), checked, reported);
    }
    hide B.Charged, Notional, HasRoom, B.Positive;
  }

  lemma OutAfterHold(setup: Setup, s: State, i: nat, first: int, second: int)
    requires i < |s.hooks| && !NotOut(setup, s, i)
    ensures !NotOut(setup, Next(setup, s, Hold(i, first, second)), i)
  {
    hide A.Id, A.SummaryOf, Notional, B.Positive;
  }

  lemma OutAfterWait(setup: Setup, s: State, i: nat, step: Step)
    requires i < |s.hooks| && !NotOut(setup, s, i) && (step == Wake(i) || step == TimeOut(i) || step == GiveUp(i))
    ensures !NotOut(setup, Next(setup, s, step), i)
  {
    hide Notional, B.Positive;
  }

  /** The step's own hook, once out, is not brought back by it. */
  lemma OutSubjectStays(setup: Setup, s: State, step: Step)
    requires s.budget.notional >= 0.0 && Subject(s, step) < |s.hooks|
    requires !NotOut(setup, s, Subject(s, step))
    ensures !NotOut(setup, Next(setup, s, step), Subject(s, step))
  {
    hide Next, NotOut;
    match step
    case Hold(i, first, second) => OutAfterHold(setup, s, i, first, second);
    case Wake(i) => OutAfterWait(setup, s, i, step);
    case TimeOut(i) => OutAfterWait(setup, s, i, step);
    case GiveUp(i) => OutAfterWait(setup, s, i, step);
    case Charge(i, checked, reported) => OutAfterCharge(setup, s, i, checked, reported);
  }

  lemma OutOtherStays(setup: Setup, s: State, step: Step, ops: seq<R.Op>, i: nat)
    requires Sound(setup, s, ops) && i < |s.hooks| && i != Subject(s, step)
    requires !NotOut(setup, s, i)
    ensures !NotOut(setup, Next(setup, s, step), i)
  {
    hide Next, Subject, PassedGate, OwnEntryApproved, IssuedFor, IsOrderCall, HasRoom, R.Run;
    OtherHooks(setup, s, step);
    var h := s.hooks[i];
    assert HookOk(setup, ops, s.queue.sent, h);
    hide Sound;
    if h.phase.Waiting? && s.queue.sent[h.phase.ticket].value.Terminal() {
      DecidedChannelStays(setup, s, step, ops, h.phase.ticket);
    }
  }

  /** While the switch is on, an order that is out stays out. */
  lemma OutStays(setup: Setup, s: State, step: Step, ops: seq<R.Op>, i: nat)
    requires Sound(setup, s, ops) && s.budget.notional >= 0.0 && s.control.cfg.killSwitch
    requires !NotOut(setup, s, i)
    ensures !NotOut(setup, Next(setup, s, step), i)
  {
    OtherHooks(setup, s, step);
    if i < |s.hooks| {
      if i == Subject(s, step) { OutSubjectStays(setup, s, step); }
      else { OutOtherStays(setup, s, step, ops, i); }
    } else if step.Arrive? {
      ArrivalUnderKill(setup, s, step);
    }
    hide Next, Sound, Subject, HasRoom, IsOrderCall;
  }

  predicate NoRelease(steps: seq<Step>) {
    forall k :: 0 <= k < |steps| ==> !Releases(steps[k])
  }

  lemma {:induction false} OutForever(setup: Setup, control: Control, now: int,
                                     steps: seq<Step>, more: seq<Step>, i: nat)
    requires var s := Run(setup, Boot(control, now), steps); s.control.cfg.killSwitch && !NotOut(setup, s, i)
    requires NoRelease(more)
    ensures !NotOut(setup, Run(setup, Boot(control, now), steps + more), i)
    decreases |more|
  {
    hide Next, Run, NotOut, Sound, Boot, B.Run;
    var start := Boot(control, now);
    if more == [] {
      AppendNil(steps);
    } else {
      var init, last := more[..|more| - 1], more[|more| - 1];
      assert more == init + [last];
      Assoc(steps, init, [last]);
      OutForever(setup, control, now, steps, init, i);
      KillHolds(setup, start, steps, init);
      RunKeepsSound(setup, control, now, steps + init);
      PartsRunAlone(setup, control, now, steps + init);
      NotionalIsNotNegative(setup.caps, now, Calls(setup, start, steps + init));
      RunPush(setup, start, steps + init, last);
      OutStays(setup, Run(setup, start, steps + init), last, Ops(setup, start, steps + init), i);
    }
  }

  // ---- driving an order in flight to its answer ----

  function Readings(step: Step): seq<int> {
    match step
    case Arrive(_, now, _, _) => [now]
    case Hold(_, first, second) => [first, second]
    case Charge(_, checked, reported) => [checked, reported]
    case Decide(_, _, _, now) => [now]
    case Sweep(now) => [now]
    case ResetSession(now) => [now]
    case _ => []
  }

  function Clock(steps: seq<Step>): seq<int> {
    if steps == [] then [] else Readings(steps[0]) + Clock(steps[1..])
  }

  /** The clock readings of these steps go forward from `at`. */
  predicate ClockRuns(at: int, steps: seq<Step>) {
    var clock := Clock(steps);
    && (forall k :: 0 <= k < |clock| ==> at <= clock[k])
    && (forall j, k :: 0 <= j < k < |clock| ==> clock[j] <= clock[k])
  }

  predicate AllAt(at: int, readings: seq<int>) {
    forall k :: 0 <= k < |readings| ==> readings[k] == at
  }

  lemma ClockPush(at: int, step: Step, more: seq<Step>)
    requires AllAt(at, Readings(step)) && ClockRuns(at, more)
    ensures ClockRuns(at, [step] + more)
  {
    hide Readings;
    assert ([step] + more)[1..] == more;
    assert Clock([step] + more) == Readings(step) + Clock(more);
    hide Clock;
  }

  /** These further steps, from time `at` on and without a release, end with hook `i` an allowed order. */
  ghost predicate Drives(setup: Setup, start: State, steps: seq<Step>, more: seq<Step>, i: nat, at: int) {
    NoRelease(more) && ClockRuns(at, more) && AllowedOrder(Run(setup, start, steps + more), i)
  }

  lemma DrivesAfter(setup: Setup, start: State, steps: seq<Step>, step: Step, more: seq<Step>, i: nat, at: int)
    requires !Releases(step) && AllAt(at, Readings(step)) && Drives(setup, start, steps + [step], more, i, at)
    ensures Drives(setup, start, steps, [step] + more, i, at)
  {
    hide Run, AllowedOrder, ClockRuns, Readings;
    Assoc(steps, [step], more);
    ClockPush(at, step, more);
  }

  predicate Ready(setup: Setup, s: State, i: nat) {
    i < |s.hooks| && s.hooks[i].order.Some? && HasRoom(setup, s.hooks[i])
  }

  lemma FreshBudgetTakes(caps: B.Caps, amount: real, now: int)
    requires caps.maxNotional <= 0.0 || B.Positive(amount) <= caps.maxNotional
    ensures B.Charged(caps, B.Started(now), amount, now, now).1.Ok?
  {}

  lemma ChargeStep(setup: Setup, s: State, i: nat, at: int)
    requires Ready(setup, s, i) && s.hooks[i].phase == Cleared
    ensures AllowedOrder(Next(setup, Next(setup, s, ResetSession(at)), Charge(i, at, at)), i)
  {
    FreshBudgetTakes(setup.caps, Notional(s.hooks[i].order.value, s.hooks[i].req.context), at);
    hide B.Charged, Notional, B.Positive;
  }

  lemma DriveCleared(setup: Setup, start: State, steps: seq<Step>, i: nat, at: int) returns (more: seq<Step>)
    requires var s := Run(setup, start, steps); Ready(setup, s, i) && s.hooks[i].phase == Cleared
    ensures Drives(setup, start, steps, more, i, at)
  {
    hide Run, Next, Ready, AllowedOrder, ClockRuns;
    var reset, charge := ResetSession(at), Charge(i, at, at);
    ChargeStep(setup, Run(setup, start, steps), i, at);
    RunPush(setup, start, steps, reset);
    RunPush(setup, start, steps + [reset], charge);
    EmptyClock(at);
    AppendNil([charge]);
    ClockPush(at, charge, []);
    ClockPush(at, reset, [charge]);
    more := [reset] + [charge];
    Assoc(steps, [reset], [charge]);
  }

  lemma EmptyClock(at: int)
    ensures ClockRuns(at, [])
  {}

  lemma WakeStep(setup: Setup, s: State, i: nat)
    requires Ready(setup, s, i) && s.hooks[i].phase.Waiting?
    requires A.Shows(s.queue.sent, s.hooks[i].phase.ticket, A.Approved)
    ensures var t := Next(setup, s, Wake(i)); Ready(setup, t, i) && t.hooks[i].phase == Cleared
  {
    hide Notional, B.Positive;
  }

  lemma DriveApproved(setup: Setup, start: State, steps: seq<Step>, i: nat, at: int) returns (more: seq<Step>)
    requires var s := Run(setup, start, steps);
             && Ready(setup, s, i) && s.hooks[i].phase.Waiting?
             && A.Shows(s.queue.sent, s.hooks[i].phase.ticket, A.Approved)
    ensures Drives(setup, start, steps, more, i, at)
  {
    hide Run, Next, Ready, Drives;
    WakeStep(setup, Run(setup, start, steps), i);
    RunPush(setup, start, steps, Wake(i));
    more := DriveCleared(setup, start, steps + [Wake(i)], i, at);
    DrivesAfter(setup, start, steps, Wake(i), more, i, at);
    more := [Wake(i)] + more;
  }

  lemma SentApproved(sent: A.Channels, ticket: string)
    requires A.IsOpen(sent, ticket)
    ensures A.Shows(A.Send(sent, ticket, A.Approved), ticket, A.Approved)
  {}

  lemma ApproveStep(setup: Setup, s: State, ops: seq<R.Op>, i: nat, ticket: string, at: int)
    requires s.queue == R.Run(R.Real(setup.timeout), ops)
    requires Ready(setup, s, i) && A.Shows(s.queue.sent, ticket, A.Pending) && A.IsOpen(s.queue.sent, ticket)
    ensures var t := Next(setup, s, Decide(ticket, A.Approved, None, at));
            && t.hooks == s.hooks && Ready(setup, t, i)
            && A.Shows(t.queue.sent, ticket, A.Approved)
  {
    hide Notional, B.Positive, A.Decided, R.Run, A.Send, A.Shows, A.IsOpen;
    DecisionTakesExactly(setup.timeout, ops, ticket, A.Approved, None, at);
    SentApproved(s.queue.sent, ticket);
  }

  /** In every reachable state, a hook that waits still has its ticket. */
  lemma WaitingTicket(setup: Setup, control: Control, now: int, steps: seq<Step>, i: nat)
    requires var s := Run(setup, Boot(control, now), steps); i < |s.hooks| && s.hooks[i].phase.Waiting?
    ensures var s := Run(setup, Boot(control, now), steps); var ticket := s.hooks[i].phase.ticket;
            s.hooks[i].ticket == Some(ticket) && A.IsOpen(s.queue.sent, ticket)
  {
    hide Run, Boot, R.Run, IssuedFor, OwnEntryApproved, PassedGate, IsOrderCall, A.IsOpen;
    RunKeepsSound(setup, control, now, steps);
  }

  lemma DrivePending(setup: Setup, control: Control, now: int, steps: seq<Step>, i: nat, at: int)
    returns (more: seq<Step>)
    requires var s := Run(setup, Boot(control, now), steps);
             && Ready(setup, s, i) && s.hooks[i].phase.Waiting?
             && A.Shows(s.queue.sent, s.hooks[i].phase.ticket, A.Pending)
    ensures Drives(setup, Boot(control, now), steps, more, i, at)
  {
    hide Run, Next, Ready, Drives, Boot, R.Run, Ops, B.Run, Calls, A.IsOpen, A.Shows;
    var start := Boot(control, now);
    var s := Run(setup, start, steps);
    ReadyIndex(setup, s, i);
    var step := Decide(s.hooks[i].phase.ticket, A.Approved, None, at);
    PartsRunAlone(setup, control, now, steps);
    WaitingTicket(setup, control, now, steps, i);
    ApproveStep(setup, s, Ops(setup, start, steps), i, s.hooks[i].phase.ticket, at);
    RunPush(setup, start, steps, step);
    more := DriveApproved(setup, start, steps + [step], i, at);
    DrivesAfter(setup, start, steps, step, more, i, at);
    more := [step] + more;
  }

  lemma ReadyIndex(setup: Setup, s: State, i: nat)
    requires Ready(setup, s, i)
    ensures i < |s.hooks|
  {}

  lemma HoldStep(setup: Setup, s: State, i: nat, at: int)
    requires Ready(setup, s, i) && s.hooks[i].phase == Held
    ensures var t := Next(setup, s, Hold(i, at, at));
            && Ready(setup, t, i) && t.hooks[i].phase.Waiting?
            && A.Shows(t.queue.sent, t.hooks[i].phase.ticket, A.Pending)
  {
    hide Notional, B.Positive, A.Id, A.SummaryOf;
  }

  lemma DriveHeld(setup: Setup, control: Control, now: int, steps: seq<Step>, i: nat, at: int)
    returns (more: seq<Step>)
    requires var s := Run(setup, Boot(control, now), steps); Ready(setup, s, i) && s.hooks[i].phase == Held
    ensures Drives(setup, Boot(control, now), steps, more, i, at)
  {
    hide Run, Next, Ready, Drives, Boot;
    var start, hold := Boot(control, now), Hold(i, at, at);
    HoldStep(setup, Run(setup, start, steps), i, at);
    RunPush(setup, start, steps, hold);
    more := DrivePending(setup, control, now, steps + [hold], i, at);
    DrivesAfter(setup, start, steps, hold, more, i, at);
    more := [hold] + more;
  }

  lemma DriveInFlight(setup: Setup, control: Control, now: int, steps: seq<Step>, i: nat, at: int)
    returns (more: seq<Step>)
    requires var s := Run(setup, Boot(control, now), steps); InFlight(s, i) && HasRoom(setup, s.hooks[i])
    ensures Drives(setup, Boot(control, now), steps, more, i, at)
  {
    var s := Run(setup, Boot(control, now), steps);
    hide Run, Next, Drives, Boot, HasRoom, A.Shows;
    match s.hooks[i].phase {
      case Held => more := DriveHeld(setup, control, now, steps, i, at);
      case Cleared => more := DriveCleared(setup, Boot(control, now), steps, i, at);
      case Waiting(ticket) =>
        if A.Shows(s.queue.sent, ticket, A.Pending) {
          more := DrivePending(setup, control, now, steps, i, at);
        } else {
          more := DriveApproved(setup, Boot(control, now), steps, i, at);
        }
    }
  }

  /** From time `at` on the hook can become an allowed order although the switch is not released. */
  ghost predicate CanBeAllowed(setup: Setup, start: State, steps: seq<Step>, i: nat, at: int) {
    exists more :: Drives(setup, start, steps, more, i, at)
  }

  /**
   In every reachable state with the switch on, a hook that is not yet allowed can still become an
   allowed order, without a release and at whatever time one goes on, exactly if it carries an order
   that is held, cleared for charging, or waiting on a channel that shows Pending or Approved, and
   whose notional an empty budget would take.
   */
  lemma KillReachesExactly(setup: Setup, control: Control, now: int, steps: seq<Step>, i: nat, at: int)
    requires var s := Run(setup, Boot(control, now), steps); s.control.cfg.killSwitch && !AllowedOrder(s, i)
    ensures var start := Boot(control, now);
            var s := Run(setup, start, steps);
            CanBeAllowed(setup, start, steps, i, at) <==> InFlight(s, i) && HasRoom(setup, s.hooks[i])
  {
    var start := Boot(control, now);
    var s := Run(setup, start, steps);
    hide Run, Boot, AllowedOrder, HasRoom, ClockRuns;
    if InFlight(s, i) && HasRoom(setup, s.hooks[i]) {
      var more := DriveInFlight(setup, control, now, steps, i, at);
    } else if CanBeAllowed(setup, start, steps, i, at) {
      var more :| Drives(setup, start, steps, more, i, at);
      OutForever(setup, control, now, steps, more, i);
    }
  }

  // ---- approvals after a timeout ----

  predicate Over(phase: Phase) {
    phase.Answered? || phase.Abandoned?
  }

  lemma OverStays(setup: Setup, s: State, step: Step, i: nat)
    requires i < |s.hooks| && Over(s.hooks[i].phase)
    ensures i < |Next(setup, s, step).hooks| && Next(setup, s, step).hooks[i] == s.hooks[i]
  {
    OtherHooks(setup, s, step);
    hide Arrived, Charging, A.Enqueued, A.Decided, A.Swept;
  }

  lemma {:induction false} OverForever(setup: Setup, start: State, steps: seq<Step>, more: seq<Step>, i: nat)
    requires var s := Run(setup, start, steps); i < |s.hooks| && Over(s.hooks[i].phase)
    ensures var s, t := Run(setup, start, steps), Run(setup, start, steps + more);
            i < |t.hooks| && t.hooks[i] == s.hooks[i]
    decreases |more|
  {
    hide Next, Run;
    if more == [] {
      AppendNil(steps);
    } else {
      var init, last := more[..|more| - 1], more[|more| - 1];
      assert more == init + [last];
      Assoc(steps, init, [last]);
      OverForever(setup, start, steps, init, i);
      RunPush(setup, start, steps + init, last);
      OverStays(setup, Run(setup, start, steps + init), last, i);
    }
  }

  /** A terminal decision on this very entry, or a sweep after its time is up. */
  predicate StepSettles(timeout: nat, step: Step, e: A.Entry) {
    || (step.Decide? && step.id == e.id && step.to.Terminal())
    || (step.Sweep? && A.TimeIsUp(e, timeout, step.now))
  }

  lemma OpSettles(timeout: nat, s: State, step: Step, e: A.Entry)
    ensures var ops := OpsOf(s, step);
            if ops == [] then !StepSettles(timeout, step, e)
            else |ops| == 1 && (StepSettles(timeout, step, e) <==> R.Settles(timeout, ops[0], e))
  {
    hide A.TimeIsUp;
  }

  lemma OpsPush(setup: Setup, start: State, steps: seq<Step>, step: Step)
    ensures Ops(setup, start, steps + [step]) == Ops(setup, start, steps) + OpsOf(Run(setup, start, steps), step)
  {
    hide OpsOf;
    assert (steps + [step])[..|steps|] == steps;
  }

  /** Everything that was ever enqueued, as it stands after these steps. */
  function Ever(setup: Setup, start: State, steps: seq<Step>): seq<A.Entry> {
    R.Run(R.Full(setup.timeout), Ops(setup, start, steps)).entries
  }

  lemma EntryAtStep(setup: Setup, start: State, steps: seq<Step>, step: Step, k: nat)
    requires k < |Ever(setup, start, steps)|
    ensures var before, after := Ever(setup, start, steps), Ever(setup, start, steps + [step]);
            && k < |after| && R.SameRequest(before[k], after[k])
            && (after[k].state.Pending? <==>
                  before[k].state.Pending? && !StepSettles(setup.timeout, step, before[k]))
  {
    hide R.Run, R.Step, R.Ledger, R.Settles, StepSettles, OpsOf, Ops;
    var ops, more := Ops(setup, start, steps), OpsOf(Run(setup, start, steps), step);
    OpsPush(setup, start, steps, step);
    OpSettles(setup.timeout, Run(setup, start, steps), step, Ever(setup, start, steps)[k]);
    if more == [] {
      AppendNil(ops);
    } else {
      assert more == [more[0]];
      R.RunKeepsLedger(setup.timeout, ops);
      R.RunPush(R.Full(setup.timeout), ops, more[0]);
      R.EntryStep(R.Run(R.Full(setup.timeout), ops), setup.timeout, more[0], k);
    }
  }

  lemma SettlesAlike(timeout: nat, step: Step, a: A.Entry, b: A.Entry)
    requires R.SameRequest(a, b)
    ensures StepSettles(timeout, step, a) <==> StepSettles(timeout, step, b)
  {}

  predicate Unsettled(timeout: nat, steps: seq<Step>, e: A.Entry) {
    forall k :: 0 <= k < |steps| ==> !StepSettles(timeout, steps[k], e)
  }

  /** Whatever the server does, a pending entry stays pending exactly as long as no step settles it. */
  lemma {:induction false} PendingExactly(setup: Setup, start: State, steps: seq<Step>, more: seq<Step>, k: nat)
    requires k < |Ever(setup, start, steps)| && Ever(setup, start, steps)[k].state.Pending?
    ensures var before, after := Ever(setup, start, steps), Ever(setup, start, steps + more);
            && k < |after| && R.SameRequest(before[k], after[k])
            && (after[k].state.Pending? <==> Unsettled(setup.timeout, more, before[k]))
    decreases |more|
  {
    hide Ever, StepSettles;
    if more == [] {
      AppendNil(steps);
    } else {
      var init, last := more[..|more| - 1], more[|more| - 1];
      assert more == init + [last];
      Assoc(steps, init, [last]);
      PendingExactly(setup, start, steps, init, k);
      EntryAtStep(setup, start, steps + init, last, k);
      SettlesAlike(setup.timeout, last, Ever(setup, start, steps)[k], Ever(setup, start, steps + init)[k]);
    }
  }

  lemma LeaveStep(setup: Setup, s: State, i: nat, ticket: string, leave: Step)
    requires i < |s.hooks| && s.hooks[i].phase == Waiting(ticket) && A.Shows(s.queue.sent, ticket, A.Pending)
    requires leave == TimeOut(i) || leave == GiveUp(i)
    ensures var phase := if leave.TimeOut? then Answered(Deny(TimedOut)) else Abandoned;
            Next(setup, s, leave).hooks == s.hooks[i := s.hooks[i].(phase := phase)]
  {}

  lemma OneId(es: seq<A.Entry>, k: nat)
    requires R.Distinct(es) && k < |es|
    ensures R.Open(es, es[k].id) <==> es[k].state.Pending?
  {}

  /** The pending entry of a waiting hook, where it stands among all that were ever enqueued. */
  lemma WaitingEntry(setup: Setup, control: Control, now: int, steps: seq<Step>, i: nat, ticket: string)
    returns (k: nat)
    requires var s := Run(setup, Boot(control, now), steps);
             i < |s.hooks| && s.hooks[i].phase == Waiting(ticket) && A.Shows(s.queue.sent, ticket, A.Pending)
    ensures var s, ever := Run(setup, Boot(control, now), steps), Ever(setup, Boot(control, now), steps);
            k < |ever| && ever[k].id == ticket && ever[k].state.Pending? && ever[k] in s.queue.entries
  {
    hide Run, Boot, R.Run, Ops, B.Run, Calls, A.Shows, A.IsOpen, R.Ledger, A.Keep, A.Terminals;
    var ops := Ops(setup, Boot(control, now), steps);
    WaitingTicket(setup, control, now, steps, i);
    PartsRunAlone(setup, control, now, steps);
    R.StoreRefines(setup.timeout, ops);
    R.StoreInvariant(setup.timeout, ops);
    R.RunKeepsLedger(setup.timeout, ops);
    k := OpenShowsPending(R.Run(R.Full(setup.timeout), ops), ticket);
  }

  /**
   In every reachable state, a hook that times out while it waits has answered Deny for good, and one
   whose caller gives up is never answered. Whatever happens afterwards, an approval of its entry
   takes effect exactly if no step since then was a terminal decision on it or a sweep past its time.
   */
  lemma ApprovalAfterTimeout(setup: Setup, control: Control, now: int, steps: seq<Step>, i: nat, ticket: string,
                             leave: Step, more: seq<Step>, reason: Option<string>, at: int)
    returns (e: A.Entry)
    requires var s := Run(setup, Boot(control, now), steps);
             i < |s.hooks| && s.hooks[i].phase == Waiting(ticket) && A.Shows(s.queue.sent, ticket, A.Pending)
    requires leave == TimeOut(i) || leave == GiveUp(i)
    ensures e in Run(setup, Boot(control, now), steps).queue.entries && e.id == ticket && e.state.Pending?
    ensures var t := Run(setup, Boot(control, now), steps + [leave] + more);
            && i < |t.hooks| && t.hooks[i].phase == (if leave.TimeOut? then Answered(Deny(TimedOut)) else Abandoned)
            && (A.Decided(t.queue, Some(A.RETAIN), ticket, A.Approved, reason, at).1 == Ok(true) <==>
                  Unsettled(setup.timeout, more, e))
  {
    hide Run, Next, Boot, R.Run, Ops, B.Run, Calls, A.Decided, A.Shows, Unsettled, R.Distinct, R.Ledger;
    var start, late := Boot(control, now), steps + [leave];
    var k := WaitingEntry(setup, control, now, steps, i, ticket);
    e := Ever(setup, start, steps)[k];
    RunPush(setup, start, steps, leave);
    LeaveStep(setup, Run(setup, start, steps), i, ticket, leave);
    OverForever(setup, start, late, more, i);
    EntryAtStep(setup, start, steps, leave, k);
    PendingExactly(setup, start, late, more, k);
    UnsettledAlike(setup.timeout, more, e, Ever(setup, start, late)[k]);
    PartsRunAlone(setup, control, now, late + more);
    var ops := Ops(setup, start, late + more);
    DecisionTakesExactly(setup.timeout, ops, ticket, A.Approved, reason, at);
    R.RunKeepsLedger(setup.timeout, ops);
    R.LedgerIsDistinct(R.Run(R.Full(setup.timeout), ops));
    OneId(Ever(setup, start, late + more), k);
  }

  lemma UnsettledAlike(timeout: nat, steps: seq<Step>, a: A.Entry, b: A.Entry)
    requires R.SameRequest(a, b)
    ensures Unsettled(timeout, steps, a) <==> Unsettled(timeout, steps, b)
  {
    forall k | 0 <= k < |steps|
      ensures StepSettles(timeout, steps[k], a) <==> StepSettles(timeout, steps[k], b)
    {
      SettlesAlike(timeout, steps[k], a, b);
    }
  }

  // ---- examples ----

  function SampleControl(manual: bool): Control {
    Control(Roomy(0), map["place_order" := PlaceOrder], manual)
  }

  function SampleRequest(limit: real): Request {
    Request(ToolCall("place_order", PlainArguments(1.0, limit)), Flush(None, 0))
  }

  function SampleOrder(limit: real): Order {
    PlainOrder("place_order", 1.0, limit, "o")
  }

  /** One share at up to 1.0 passes the sample gate, and so does one at a negative limit. */
  lemma SamplePasses(read: Reader, manual: bool, limit: real)
    requires limit <= 1.0
    ensures var c, req := SampleControl(manual), SampleRequest(limit);
            PassesAsOrder(read, c.tools, c.cfg, req.call, req.context, SampleOrder(limit))
  {
    PlainArgumentsAreRead(read, "place_order", 1.0, limit, "o");
    FlushHoldsNothing(None, 0);
    hide ParseOrder, PlainArguments, P.Held, P.Qty;
    var order, c := SampleOrder(limit), SampleRequest(limit).context;
    assert Worth(order.qty, limit) == limit && Worth(0.0 + order.qty, limit) == limit;
    assert Share(limit, 100.0) <= 1.0;
    assert Check(SampleControl(manual).cfg, order, c).Ok?;
  }

  /** A negative limit price passes the gate, and the order is charged nothing. */
  lemma NegativeLimitIsChargedNothing(read: Reader, limit: real)
    requires limit < 0.0
    ensures var c, req := SampleControl(false), SampleRequest(limit);
            && PassesAsOrder(read, c.tools, c.cfg, req.call, req.context, SampleOrder(limit))
            && B.Positive(Notional(SampleOrder(limit), req.context)) == 0.0
  {
    SamplePasses(read, false, limit);
    SignOfWorth(1.0, limit);
    hide PassesAsOrder, PlainArguments, Worth;
  }

  function SampleHook(manual: bool): Hook {
    Hook(SampleRequest(1.0), SampleControl(manual), Some(SampleOrder(1.0)), None, if manual then Held else Cleared)
  }

  lemma SampleArrives(setup: Setup, manual: bool, now: int)
    ensures var start := Boot(SampleControl(manual), now);
            Next(setup, start, Arrive(SampleRequest(1.0), 0, "o", "o")) == start.(hooks := [SampleHook(manual)])
  {
    SamplePasses(setup.read, manual, 1.0);
    hide ParseOrder, Check, PlainArguments;
    assert At(SampleRequest(1.0), 0) == SampleRequest(1.0);
  }

  lemma RunOne(setup: Setup, start: State, step: Step)
    ensures Run(setup, start, [step]) == Next(setup, start, step)
  {
    hide Next;
    assert [step][..0] == [];
  }

  lemma SampleInFlight(setup: Setup, s: State, manual: bool)
    requires s.hooks == [SampleHook(manual)]
    requires setup.caps.maxNotional <= 0.0 || setup.caps.maxNotional >= 1.0
    ensures var t := Next(setup, s, Kill(true));
            && t.control.cfg.killSwitch && !AllowedOrder(t, 0)
            && InFlight(t, 0) && HasRoom(setup, t.hooks[0])
  {
    hide PlainArguments;
    assert Worth(1.0, 1.0) == 1.0;
  }

  /**
   Against the promise that the switch denies every order immediately: in either approval mode, on
   any server whose notional cap leaves room for one share, an order is in progress when the switch
   is engaged and can still become allowed.
   */
  lemma HeldOrderOutlivesKill(setup: Setup, manual: bool, now: int, at: int) returns (steps: seq<Step>)
    requires setup.caps.maxNotional <= 0.0 || setup.caps.maxNotional >= 1.0
    ensures var start := Boot(SampleControl(manual), now);
            && Run(setup, start, steps).control.cfg.killSwitch
            && !AllowedOrder(Run(setup, start, steps), 0) && CanBeAllowed(setup, start, steps, 0, at)
  {
    hide Run, Next, Boot, SampleControl, SampleHook, SampleRequest, CanBeAllowed, InFlight, HasRoom, AllowedOrder;
    var start, arrive := Boot(SampleControl(manual), now), Arrive(SampleRequest(1.0), 0, "o", "o");
    RunOne(setup, start, arrive);
    SampleArrives(setup, manual, now);
    RunPush(setup, start, [arrive], Kill(true));
    SampleInFlight(setup, Run(setup, start, [arrive]), manual);
    steps := [arrive] + [Kill(true)];
    KillReachesExactly(setup, SampleControl(manual), now, steps, 0, at);
  }

  lemma SampleWaits(setup: Setup, s: State)
    requires s.hooks == [SampleHook(true)]
    ensures var t, id := Next(setup, s, Hold(0, 0, 0)), A.Id(0, s.queue.seqNo + 1);
            |t.hooks| == 1 && t.hooks[0].phase == Waiting(id) && A.Shows(t.queue.sent, id, A.Pending)
  {
    hide PlainArguments, A.Id, A.SummaryOf;
  }

  /** A hook that has answered Deny because it timed out, and whose entry is approved with success after that. */
  lemma ApprovalCanComeTooLate(setup: Setup, now: int) returns (steps: seq<Step>, ticket: string)
    ensures var s := Run(setup, Boot(SampleControl(true), now), steps);
            && |s.hooks| > 0 && s.hooks[0].phase == Answered(Deny(TimedOut)) && s.hooks[0].ticket == Some(ticket)
            && A.Decided(s.queue, Some(A.RETAIN), ticket, A.Approved, None, now).1 == Ok(true)
  {
    hide Run, Next, Boot, SampleControl, SampleHook, SampleRequest, A.Decided, A.Id, A.Shows, A.IsOpen, StepSettles;
    var start, arrive := Boot(SampleControl(true), now), Arrive(SampleRequest(1.0), 0, "o", "o");
    RunOne(setup, start, arrive);
    SampleArrives(setup, true, now);
    var s := Run(setup, start, [arrive]);
    RunPush(setup, start, [arrive], Hold(0, 0, 0));
    SampleWaits(setup, s);
    ticket := A.Id(0, s.queue.seqNo + 1);
    var waiting := [arrive] + [Hold(0, 0, 0)];
    var e := ApprovalAfterTimeout(setup, SampleControl(true), now, waiting, 0, ticket, TimeOut(0), [], None, now);
    WaitingTicket(setup, SampleControl(true), now, waiting, 0);
    LeaveStep(setup, Run(setup, start, waiting), 0, ticket, TimeOut(0));
    RunPush(setup, start, waiting, TimeOut(0));
    steps := waiting + [TimeOut(0)];
    AppendNil(steps);
  }
}
