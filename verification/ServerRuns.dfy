/** Every interleaving of the server's steps: what an allowed order has gone through. */
module ServerRuns {
  import opened Wrappers
  import opened Seqs
  import opened Orders
  import opened RiskGate
  import opened OrderParse
  import opened HookGate
  import opened Server
  import A = Approvals
  import R = ApprovalRuns
  import B = Budget

  // ---- each shared part sees an ordinary run of its own ----

  function OpsOf(s: State, step: Step): seq<R.Op> {
    match step
    case Hold(i, first, second) =>
      if In(s, i, Held) && s.hooks[i].order.Some? then
        [R.Enqueue(first, second, s.hooks[i].req.call.name, s.hooks[i].order.value)]
      else []
    case Decide(id, to, reason, now) => [R.Decide(id, to, reason, now)]
    case Sweep(now) => [R.Sweep(now)]
    case Wake(i) =>
      if WaitsFor(s, i) && s.queue.sent[s.hooks[i].phase.ticket].value.Terminal() then [R.Drop(s.hooks[i].phase.ticket)]
      else []
    case TimeOut(i) =>
      if WaitsFor(s, i) && s.queue.sent[s.hooks[i].phase.ticket].value.Pending? then [R.Drop(s.hooks[i].phase.ticket)]
      else []
    case GiveUp(i) => if WaitsFor(s, i) then [R.Drop(s.hooks[i].phase.ticket)] else []
    case _ => []
  }

  function CallsOf(s: State, step: Step): seq<B.Call> {
    match step
    case Charge(i, checked, reported) =>
      if In(s, i, Cleared) && s.hooks[i].order.Some? then
        [B.Charge(Notional(s.hooks[i].order.value, s.hooks[i].req.context), checked, reported)]
      else []
    case ResetSession(now) => [B.Reset(now)]
    case _ => []
  }

  /** What the approval queue was asked to do, in order. */
  function Ops(setup: Setup, start: State, steps: seq<Step>): seq<R.Op> {
    if steps == [] then []
    else
      var init := steps[..|steps| - 1];
      Ops(setup, start, init) + OpsOf(Run(setup, start, init), steps[|steps| - 1])
  }

  /** What the session budget was asked to do, in order. */
  function Calls(setup: Setup, start: State, steps: seq<Step>): seq<B.Call> {
    if steps == [] then []
    else
      var init := steps[..|steps| - 1];
      Calls(setup, start, init) + CallsOf(Run(setup, start, init), steps[|steps| - 1])
  }

  lemma QueueStep(setup: Setup, s: State, step: Step, ops: seq<R.Op>)
    requires s.queue == R.Run(R.Real(setup.timeout), ops)
    ensures Next(setup, s, step).queue == R.Run(R.Real(setup.timeout), ops + OpsOf(s, step))
    ensures |OpsOf(s, step)| <= 1
  {
    hide R.Run, A.Decided, A.Swept, A.Id, A.Dropped, Resume, Arrived, Charging;
    if OpsOf(s, step) == [] {
      AppendNil(ops);
    } else {
      R.RunPush(R.Real(setup.timeout), ops, OpsOf(s, step)[0]);
    }
  }

  lemma BudgetStep(setup: Setup, s: State, step: Step, start: int, calls: seq<B.Call>)
    requires s.budget == B.Run(setup.caps, start, calls)
    ensures Next(setup, s, step).budget == B.Run(setup.caps, start, calls + CallsOf(s, step))
    ensures |CallsOf(s, step)| <= 1
  {
    var all := calls + CallsOf(s, step);
    if CallsOf(s, step) == [] {
      AppendNil(calls);
    } else {
      assert all[..|all| - 1] == calls;
      B.RunPush(setup.caps, start, all);
    }
    hide B.Run, B.Charged, Notional;
  }

  /** The queue and the budget inside the server behave as the queue and the budget alone. */
  lemma {:induction false} PartsRunAlone(setup: Setup, control: Control, now: int, steps: seq<Step>)
    ensures var s := Run(setup, Boot(control, now), steps);
            && s.queue == R.Run(R.Real(setup.timeout), Ops(setup, Boot(control, now), steps))
            && s.budget == B.Run(setup.caps, now, Calls(setup, Boot(control, now), steps))
  {
    var start := Boot(control, now);
    if steps != [] {
      hide Next, OpsOf, CallsOf, Boot;
      var init := steps[..|steps| - 1];
      PartsRunAlone(setup, control, now, init);
      QueueStep(setup, Run(setup, start, init), steps[|steps| - 1], Ops(setup, start, init));
      BudgetStep(setup, Run(setup, start, init), steps[|steps| - 1], now, Calls(setup, start, init));
    }
  }

  // ---- what is true of each hook ----

  /** The queue issued this ticket for this tool and this order. */
  ghost predicate IssuedFor(timeout: nat, ops: seq<R.Op>, ticket: string, tool: string, order: Order) {
    exists k :: 0 <= k < |ops| && IssuedAt(timeout, ops, k, ticket, tool, order)
  }

  ghost predicate IssuedAt(timeout: nat, ops: seq<R.Op>, k: nat, ticket: string, tool: string, order: Order)
    requires k < |ops|
  {
    && ops[k].Enqueue? && ops[k].tool == tool && ops[k].order == order
    && R.OutcomeOf(R.Real(timeout), ops, k) == R.Held(ticket)
  }

  /** An operator's approval of the hook's own entry took effect. */
  ghost predicate OwnEntryApproved(timeout: nat, ops: seq<R.Op>, h: Hook) {
    && h.ticket.Some? && h.order.Some?
    && IssuedFor(timeout, ops, h.ticket.value, h.req.call.name, h.order.value)
    && R.Resolved(R.Real(timeout), ops, h.ticket.value, A.Approved)
  }

  predicate IsOrderCall(h: Hook) {
    Classify(h.seen.tools, h.req.call.name) == Some(PlaceOrder)
  }

  ghost predicate PassedGate(setup: Setup, h: Hook) {
    h.order.Some? && PassesAsOrder(setup.read, h.seen.tools, h.seen.cfg, h.req.call, h.req.context, h.order.value)
  }

  ghost predicate HookOk(setup: Setup, ops: seq<R.Op>, sent: A.Channels, h: Hook) {
    && (h.order.Some? ==> PassedGate(setup, h))
    && (h.order.None? ==> h.phase.Answered? && h.ticket.None? && !(IsOrderCall(h) && h.phase.outcome == Allow))
    && (h.phase.Held? ==> h.seen.manual && h.ticket.None?)
    && (h.phase.Waiting? ==> h.seen.manual && h.ticket == Some(h.phase.ticket) && A.IsOpen(sent, h.phase.ticket))
    && (h.ticket.Some? ==>
          h.order.Some? && h.ticket.value in sent
          && IssuedFor(setup.timeout, ops, h.ticket.value, h.req.call.name, h.order.value))
    && (h.order.Some? && h.seen.manual && (h.phase.Cleared? || h.phase == Answered(Allow)) ==>
          OwnEntryApproved(setup.timeout, ops, h))
  }

  lemma IssuedLonger(timeout: nat, ops: seq<R.Op>, more: seq<R.Op>, ticket: string, tool: string, order: Order)
    requires IssuedFor(timeout, ops, ticket, tool, order)
    ensures IssuedFor(timeout, ops + more, ticket, tool, order)
  {
    hide R.Step, R.Run;
    var k :| 0 <= k < |ops| && IssuedAt(timeout, ops, k, ticket, tool, order);
    assert (ops + more)[..k] == ops[..k];
    assert IssuedAt(timeout, ops + more, k, ticket, tool, order);
  }

  lemma ResolvedLonger(timeout: nat, ops: seq<R.Op>, more: seq<R.Op>, id: string, to: A.State)
    ensures R.Resolved(R.Real(timeout), ops, id, to) ==> R.Resolved(R.Real(timeout), ops + more, id, to)
  {
    hide R.Resolved;
    assert (ops + more)[..|ops|] == ops;
    R.ResolvedLonger(R.Real(timeout), ops + more, |ops|, id, to);
  }

  /** A hook stays as it was while the queue moves on. */
  lemma HookOkLater(setup: Setup, ops: seq<R.Op>, more: seq<R.Op>,
                    sent: A.Channels, after: A.Channels, h: Hook)
    requires HookOk(setup, ops, sent, h) && sent.Keys <= after.Keys
    requires h.phase.Waiting? ==> A.IsOpen(after, h.phase.ticket)
    ensures HookOk(setup, ops + more, after, h)
  {
    hide IssuedFor, R.Resolved, PassedGate, IsOrderCall;
    if h.ticket.Some? {
      IssuedLonger(setup.timeout, ops, more, h.ticket.value, h.req.call.name, h.order.value);
      ResolvedLonger(setup.timeout, ops, more, h.ticket.value, A.Approved);
    }
  }

  lemma {:induction false} SendsKeepKeys(sent: A.Channels, es: seq<A.Entry>, timeout: nat, now: int)
    ensures sent.Keys <= A.SendExpiries(sent, es, timeout, now).Keys
  {
    if es != [] { SendsKeepKeys(sent, es[..|es| - 1], timeout, now); }
  }

  lemma SentGrows(setup: Setup, s: State, step: Step)
    ensures s.queue.sent.Keys <= Next(setup, s, step).queue.sent.Keys
  {
    hide A.SendExpiries, A.ExpireAll, A.Trimmed, A.Find, A.Id, Arrived, Charging, Resume;
    if step.Sweep? { SendsKeepKeys(s.queue.sent, s.queue.entries, setup.timeout, step.now); }
  }

  lemma SendKeepsOpen(sent: A.Channels, id: string, value: A.State, ticket: string)
    requires A.IsOpen(sent, ticket)
    ensures A.IsOpen(A.Send(sent, id, value), ticket)
  {}

  lemma {:induction false} SendsKeepOpen(sent: A.Channels, es: seq<A.Entry>, timeout: nat, now: int, ticket: string)
    requires A.IsOpen(sent, ticket)
    ensures A.IsOpen(A.SendExpiries(sent, es, timeout, now), ticket)
  {
    if es != [] {
      SendsKeepOpen(sent, es[..|es| - 1], timeout, now, ticket);
      hide A.SendExpiries;
      SendKeepsOpen(A.SendExpiries(sent, es[..|es| - 1], timeout, now), es[|es| - 1].id, A.Expired, ticket);
    }
  }

  /** A ticket is dropped only by its own hook. */
  lemma OthersKeepOpen(setup: Setup, s: State, step: Step, ticket: string)
    requires A.IsOpen(s.queue.sent, ticket)
    requires (step.Wake? || step.TimeOut? || step.GiveUp?) && WaitsFor(s, step.i) ==>
               s.hooks[step.i].phase.ticket != ticket
    ensures A.IsOpen(Next(setup, s, step).queue.sent, ticket)
  {
    hide A.SendExpiries, A.ExpireAll, A.Trimmed, A.Find, A.Id, A.Send, Arrived, Charging, Resume;
    if step.Sweep? { SendsKeepOpen(s.queue.sent, s.queue.entries, setup.timeout, step.now, ticket); }
    if step.Decide? { SendKeepsOpen(s.queue.sent, step.id, step.to, ticket); }
  }

  // ---- the steps that change a hook ----

  /** A request arrives: the second reading never fails where the gate allowed an order. */
  lemma ArrivedOk(setup: Setup, control: Control, req: Request, id1: string, id2: string,
                  ops: seq<R.Op>, sent: A.Channels)
    ensures var h := Arrived(setup, control, req, id1, id2);
            && HookOk(setup, ops, sent, h) && h.ticket.None? && h.seen == control && h.req == req
            && (h.phase == Answered(Allow) ==> h.order.None?)
            && (h.order.Some? <==>
                  && IsOrderCall(h)
                  && Evaluate(setup.read, control.tools, control.cfg, req.call, req.context, id1) == Allow)
  {
    hide ParseOrder, Check, IssuedFor, R.Resolved;
    if Classify(control.tools, req.call.name) == Some(PlaceOrder) {
      SecondReadingAgrees(setup.read, control.tools, control.cfg, req.call, req.context, id1, id2);
    }
  }

  lemma NewTicket(timeout: nat, ops: seq<R.Op>, millis: int)
    ensures var q := R.Run(R.Real(timeout), ops); A.Id(millis, q.seqNo + 1) !in q.sent
  {
    hide R.Run, A.Id, A.Keep, R.Ledger;
    R.StoreRefines(timeout, ops);
    R.RunKeepsLedger(timeout, ops);
    R.FreshId(R.Run(R.Full(timeout), ops), millis);
  }

  lemma IssuedNow(timeout: nat, ops: seq<R.Op>, first: int, second: int, tool: string, order: Order)
    ensures var q := R.Run(R.Real(timeout), ops);
            IssuedFor(timeout, ops + [R.Enqueue(first, second, tool, order)],
                      A.Id(first / 1_000_000, q.seqNo + 1), tool, order)
  {
    hide R.Run, A.Id;
    var all := ops + [R.Enqueue(first, second, tool, order)];
    assert all[..|ops|] == ops;
    assert IssuedAt(timeout, all, |ops|, A.Id(first / 1_000_000, R.Run(R.Real(timeout), ops).seqNo + 1), tool, order);
  }

  // ---- the invariant ----

  ghost predicate Sound(setup: Setup, s: State, ops: seq<R.Op>) {
    && s.queue == R.Run(R.Real(setup.timeout), ops)
    && (forall i :: 0 <= i < |s.hooks| ==> HookOk(setup, ops, s.queue.sent, s.hooks[i]))
    && (forall i, j :: 0 <= i < j < |s.hooks| && s.hooks[i].ticket.Some? ==> s.hooks[i].ticket != s.hooks[j].ticket)
  }

  /** The hook a step is about, if any: index |hooks| for an arrival. */
  function Subject(s: State, step: Step): nat {
    match step
    case Arrive(_, _, _, _) => |s.hooks|
    case Hold(i, _, _) => i
    case Wake(i) => i
    case TimeOut(i) => i
    case GiveUp(i) => i
    case Charge(i, _, _) => i
    case _ => |s.hooks| + 1
  }

  lemma OtherHooks(setup: Setup, s: State, step: Step)
    ensures var after := Next(setup, s, step).hooks;
            && |after| == |s.hooks| + (if step.Arrive? then 1 else 0)
            && forall i :: 0 <= i < |s.hooks| && i != Subject(s, step) ==> after[i] == s.hooks[i]
  {
    hide Arrived, Charging, Resume, A.Enqueued, A.Decided, A.Swept, A.Dropped;
  }

  /** A hook that stops waiting, to be denied, abandoned, or, if its entry was approved, charged. */
  lemma LeavesOk(setup: Setup, ops: seq<R.Op>, more: seq<R.Op>,
                 sent: A.Channels, after: A.Channels, h: Hook, phase: Phase)
    requires HookOk(setup, ops, sent, h) && h.phase.Waiting? && sent.Keys <= after.Keys
    requires match phase
             case Answered(outcome) => outcome.Deny?
             case Abandoned => true
             case Cleared => R.Resolved(R.Real(setup.timeout), ops, h.phase.ticket, A.Approved)
             case _ => false
    ensures HookOk(setup, ops + more, after, h.(phase := phase))
  {
    hide IssuedFor, R.Resolved, PassesAsOrder, IsOrderCall;
    IssuedLonger(setup.timeout, ops, more, h.ticket.value, h.req.call.name, h.order.value);
    ResolvedLonger(setup.timeout, ops, more, h.ticket.value, A.Approved);
  }

  /** A waiting hook either keeps waiting, or is answered Deny, abandoned or, once approved, cleared. */
  lemma WaitingGoesOn(setup: Setup, s: State, step: Step) returns (phase: Phase)
    requires (step.Wake? || step.TimeOut? || step.GiveUp?) && WaitsFor(s, step.i)
    ensures var t, h := Next(setup, s, step), s.hooks[step.i];
            && step.i < |t.hooks| && t.hooks[step.i] == h.(phase := phase)
            && (phase.Waiting? ==> phase == h.phase && t.queue == s.queue && OpsOf(s, step) == [])
            && match phase
               case Waiting(_) => true
               case Answered(outcome) => outcome.Deny?
               case Abandoned => true
               case Cleared => A.Shows(s.queue.sent, h.phase.ticket, A.Approved)
               case Held => false
  {
    hide A.Dropped;
    phase := Next(setup, s, step).hooks[step.i].phase;
  }

  lemma WaitingSubjectOk(setup: Setup, s: State, step: Step, ops: seq<R.Op>)
    requires Sound(setup, s, ops) && (step.Wake? || step.TimeOut? || step.GiveUp?) && WaitsFor(s, step.i)
    ensures var t := Next(setup, s, step);
            && step.i < |t.hooks|
            && HookOk(setup, ops + OpsOf(s, step), t.queue.sent, t.hooks[step.i])
            && t.hooks[step.i].ticket == s.hooks[step.i].ticket
  {
    hide HookOk, Next, OpsOf, A.Shows, R.Run, R.Resolved;
    var h, more := s.hooks[step.i], OpsOf(s, step);
    assert HookOk(setup, ops, s.queue.sent, h);
    var phase := WaitingGoesOn(setup, s, step);
    if phase.Waiting? {
      AppendNil(ops);
    } else {
      SentGrows(setup, s, step);
      R.ChannelSays(setup.timeout, ops, h.phase.ticket, A.Approved);
      LeavesOk(setup, ops, more, s.queue.sent, Next(setup, s, step).queue.sent, h, phase);
    }
  }

  lemma SubjectOk(setup: Setup, s: State, step: Step, ops: seq<R.Op>)
    requires Sound(setup, s, ops)
    requires Subject(s, step) < |Next(setup, s, step).hooks|
    ensures var t, i := Next(setup, s, step), Subject(s, step);
            && HookOk(setup, ops + OpsOf(s, step), t.queue.sent, t.hooks[i])
            && (t.hooks[i].ticket.Some? ==>
                  (i < |s.hooks| && t.hooks[i].ticket == s.hooks[i].ticket) || t.hooks[i].ticket.value !in s.queue.sent)
  {
    hide IssuedFor, R.Resolved, PassesAsOrder, IsOrderCall, R.Run, Arrived, Charging, A.Id, Leave, Resume;
    var t, i := Next(setup, s, step), Subject(s, step);
    AppendNil(ops);
    match step
    case Arrive(req, now, id1, id2) =>
      ArrivedOk(setup, s.control, At(req, now), id1, id2, ops, s.queue.sent);
    case Hold(_, first, second) =>
      if In(s, i, Held) {
        IssuedNow(setup.timeout, ops, first, second, s.hooks[i].req.call.name, s.hooks[i].order.value);
        NewTicket(setup.timeout, ops, first / 1_000_000);
      }
    case Charge(_, _, _) =>
    case _ =>
      if WaitsFor(s, i) { WaitingSubjectOk(setup, s, step, ops); }
  }

  lemma StepKeepsSound(setup: Setup, s: State, step: Step, ops: seq<R.Op>)
    requires Sound(setup, s, ops)
    ensures Sound(setup, Next(setup, s, step), ops + OpsOf(s, step))
  {
    var t, more := Next(setup, s, step), OpsOf(s, step);
    var subject := Subject(s, step);
    QueueStep(setup, s, step, ops);
    SentGrows(setup, s, step);
    OtherHooks(setup, s, step);
    if subject < |t.hooks| { SubjectOk(setup, s, step, ops); }
    hide HookOk, R.Run, OpsOf, Next, Subject;
    forall i | 0 <= i < |t.hooks|
      ensures HookOk(setup, ops + more, t.queue.sent, t.hooks[i])
    {
      if i != subject {
        if s.hooks[i].phase.Waiting? { OtherStaysOpen(setup, s, step, ops, i); }
        HookOkLater(setup, ops, more, s.queue.sent, t.queue.sent, s.hooks[i]);
      }
    }
    TicketsStayApart(setup, s, t, subject, ops);
  }

  lemma OtherStaysOpen(setup: Setup, s: State, step: Step, ops: seq<R.Op>, i: nat)
    requires Sound(setup, s, ops) && i < |s.hooks| && i != Subject(s, step) && s.hooks[i].phase.Waiting?
    ensures A.IsOpen(Next(setup, s, step).queue.sent, s.hooks[i].phase.ticket)
  {
    hide Next, R.Run, IssuedFor, R.Resolved, PassedGate, IsOrderCall, OwnEntryApproved;
    assert HookOk(setup, ops, s.queue.sent, s.hooks[i]);
    if (step.Wake? || step.TimeOut? || step.GiveUp?) && WaitsFor(s, step.i) {
      assert HookOk(setup, ops, s.queue.sent, s.hooks[step.i]);
      assert s.hooks[step.i].ticket != s.hooks[i].ticket;
    }
    OthersKeepOpen(setup, s, step, s.hooks[i].phase.ticket);
  }

  lemma TicketsStayApart(setup: Setup, s: State, t: State, subject: nat, ops: seq<R.Op>)
    requires Sound(setup, s, ops) && |s.hooks| <= |t.hooks| <= |s.hooks| + 1
    requires |t.hooks| == |s.hooks| + 1 ==> subject == |s.hooks|
    requires forall i :: 0 <= i < |s.hooks| && i != subject ==> t.hooks[i] == s.hooks[i]
    requires subject < |t.hooks| && t.hooks[subject].ticket.Some? ==>
               (subject < |s.hooks| && t.hooks[subject].ticket == s.hooks[subject].ticket)
               || t.hooks[subject].ticket.value !in s.queue.sent
    ensures forall i, j :: 0 <= i < j < |t.hooks| && t.hooks[i].ticket.Some? ==> t.hooks[i].ticket != t.hooks[j].ticket
  {
    hide R.Run, IssuedFor, R.Resolved, PassedGate, IsOrderCall;
    assert forall i :: 0 <= i < |s.hooks| && s.hooks[i].ticket.Some? ==> s.hooks[i].ticket.value in s.queue.sent;
  }

  lemma {:induction false} RunKeepsSound(setup: Setup, control: Control, now: int, steps: seq<Step>)
    ensures Sound(setup, Run(setup, Boot(control, now), steps), Ops(setup, Boot(control, now), steps))
  {
    if steps != [] {
      hide Sound, Next, OpsOf, Boot;
      var init, start := steps[..|steps| - 1], Boot(control, now);
      RunKeepsSound(setup, control, now, init);
      StepKeepsSound(setup, Run(setup, start, init), steps[|steps| - 1], Ops(setup, start, init));
    }
  }

  // ---- charging ----

  /** This step charges hook `i` and the budget accepts it. */
  predicate ChargesHook(setup: Setup, s: State, step: Step, i: nat) {
    && step.Charge? && step.i == i && In(s, i, Cleared) && s.hooks[i].order.Some?
    && Charging(setup, s, s.hooks[i], step.checked, step.reported).1.Ok?
  }

  function ChargesTo(setup: Setup, start: State, steps: seq<Step>, i: nat): nat {
    if steps == [] then 0
    else
      var init := steps[..|steps| - 1];
      ChargesTo(setup, start, init, i) +
      if ChargesHook(setup, Run(setup, start, init), steps[|steps| - 1], i) then 1 else 0
  }

  predicate AllowedOrder(s: State, i: nat) {
    i < |s.hooks| && s.hooks[i].order.Some? && s.hooks[i].phase == Answered(Allow)
  }

  lemma AllowedArrives(setup: Setup, s: State, step: Step, ops: seq<R.Op>)
    requires Sound(setup, s, ops) && step.Arrive?
    ensures !AllowedOrder(Next(setup, s, step), |s.hooks|)
  {
    hide HookOk, Sound, Arrived, IsOrderCall;
    ArrivedOk(setup, s.control, At(step.req, step.now), step.id1, step.id2, ops, s.queue.sent);
  }

  lemma AllowedCharges(setup: Setup, s: State, step: Step, i: nat)
    requires step.Charge? && step.i == i
    ensures AllowedOrder(Next(setup, s, step), i) <==> AllowedOrder(s, i) || ChargesHook(setup, s, step, i)
    ensures !(AllowedOrder(s, i) && ChargesHook(setup, s, step, i))
  {
    hide Charging;
  }

  lemma AllowedWaits(setup: Setup, s: State, step: Step, i: nat)
    requires (step.Hold? || step.Wake? || step.TimeOut? || step.GiveUp?) && step.i == i
    ensures AllowedOrder(Next(setup, s, step), i) <==> AllowedOrder(s, i)
  {
    hide A.Enqueued, A.Dropped, A.Id;
  }

  lemma AllowedSubject(setup: Setup, s: State, step: Step, ops: seq<R.Op>)
    requires Sound(setup, s, ops)
    ensures var i := Subject(s, step);
            && (AllowedOrder(Next(setup, s, step), i) <==> AllowedOrder(s, i) || ChargesHook(setup, s, step, i))
            && !(AllowedOrder(s, i) && ChargesHook(setup, s, step, i))
  {
    OtherHooks(setup, s, step);
    hide Next, Sound, Charging, In;
    if step.Arrive? {
      AllowedArrives(setup, s, step, ops);
    } else if step.Charge? {
      AllowedCharges(setup, s, step, step.i);
    } else if step.Hold? || step.Wake? || step.TimeOut? || step.GiveUp? {
      AllowedWaits(setup, s, step, step.i);
    }
  }

  lemma AllowedStep(setup: Setup, s: State, step: Step, ops: seq<R.Op>, i: nat)
    requires Sound(setup, s, ops)
    ensures AllowedOrder(Next(setup, s, step), i) <==> AllowedOrder(s, i) || ChargesHook(setup, s, step, i)
    ensures !(AllowedOrder(s, i) && ChargesHook(setup, s, step, i))
  {
    OtherHooks(setup, s, step);
    AllowedSubject(setup, s, step, ops);
    hide Next, Sound, Charging;
  }

  /** An allowed order was charged exactly once, and nothing else ever was. */
  lemma {:induction false} ChargedExactlyOnce(setup: Setup, control: Control, now: int, steps: seq<Step>, i: nat)
    ensures var start := Boot(control, now);
            ChargesTo(setup, start, steps, i) == if AllowedOrder(Run(setup, start, steps), i) then 1 else 0
  {
    if steps != [] {
      hide Sound, Next, Boot, AllowedOrder, ChargesHook;
      var init, start := steps[..|steps| - 1], Boot(control, now);
      ChargedExactlyOnce(setup, control, now, init, i);
      RunKeepsSound(setup, control, now, init);
      AllowedStep(setup, Run(setup, start, init), steps[|steps| - 1], Ops(setup, start, init), i);
    }
  }

  /**
   In every interleaving, an order that is answered Allow passed the gate under the control it was
   evaluated against, was charged exactly once, and, if approvals were manual then, had its own
   queue entry approved; no two hooks share an entry.
   */
  lemma AllowedOrdersWereGated(setup: Setup, control: Control, now: int, steps: seq<Step>, i: nat)
    requires var s := Run(setup, Boot(control, now), steps);
             i < |s.hooks| && s.hooks[i].phase == Answered(Allow) && IsOrderCall(s.hooks[i])
    ensures var start := Boot(control, now);
            var s, ops := Run(setup, start, steps), Ops(setup, start, steps);
            && PassedGate(setup, s.hooks[i])
            && ChargesTo(setup, start, steps, i) == 1
            && (s.hooks[i].seen.manual ==> OwnEntryApproved(setup.timeout, ops, s.hooks[i]))
            && (forall j :: 0 <= j < |s.hooks| && j != i && s.hooks[i].ticket.Some? ==>
                  s.hooks[j].ticket != s.hooks[i].ticket)
  {
    hide Run, Ops, Boot, PassedGate, OwnEntryApproved, IssuedFor, IsOrderCall, R.Run;
    RunKeepsSound(setup, control, now, steps);
    ChargedExactlyOnce(setup, control, now, steps, i);
  }

  // ---- the kill switch ----

  lemma RunPush(setup: Setup, start: State, steps: seq<Step>, step: Step)
    ensures Run(setup, start, steps + [step]) == Next(setup, Run(setup, start, steps), step)
  {
    assert (steps + [step])[..|steps|] == steps;
  }

  predicate Releases(step: Step) {
    step.Kill? && !step.engage
  }

  /** Only `post_kill` turns the switch off: no reload, decision, reset or hook step does. */
  lemma KillStepOnly(setup: Setup, s: State, step: Step)
    requires s.control.cfg.killSwitch && !Releases(step)
    ensures Next(setup, s, step).control.cfg.killSwitch
  {
    hide Arrived, Charging, Resume, A.Enqueued, A.Decided, A.Swept, A.Dropped;
  }

  /** With the switch on, an arriving order call is denied and carries no order on. */
  lemma ArrivalUnderKill(setup: Setup, s: State, step: Step)
    requires s.control.cfg.killSwitch && step.Arrive?
    ensures var h := Next(setup, s, step).hooks[|s.hooks|];
            h.order.None? && h.phase.Answered? && (IsOrderCall(h) ==> h.phase.outcome.Deny?)
  {
    hide ParseOrder, Check;
    var req := At(step.req, step.now);
    ReadsAndCancelsAlwaysPass(setup.read, s.control.tools, s.control.cfg, req.call, req.context, step.id1);
  }

  predicate NewHooksDenied(from: nat, s: State) {
    forall i :: from <= i < |s.hooks| ==>
      && s.hooks[i].order.None? && s.hooks[i].phase.Answered?
      && (IsOrderCall(s.hooks[i]) ==> s.hooks[i].phase.outcome.Deny?)
  }

  lemma NewHooksStep(setup: Setup, s: State, step: Step, from: nat)
    requires from <= |s.hooks| && s.control.cfg.killSwitch && NewHooksDenied(from, s)
    ensures NewHooksDenied(from, Next(setup, s, step))
  {
    OtherHooks(setup, s, step);
    if step.Arrive? { ArrivalUnderKill(setup, s, step); }
    hide Arrived, Charging, A.Enqueued, A.Decided, A.Swept, A.Dropped, IsOrderCall;
  }

  /**
   Once engaged, the switch stays engaged until `post_kill` releases it, and every order call that
   arrives in the meantime is denied.
   */
  lemma {:induction false} KillHolds(setup: Setup, start: State, steps: seq<Step>, more: seq<Step>)
    requires Run(setup, start, steps).control.cfg.killSwitch
    requires forall k :: 0 <= k < |more| ==> !Releases(more[k])
    ensures Run(setup, start, steps + more).control.cfg.killSwitch
    ensures |Run(setup, start, steps).hooks| <= |Run(setup, start, steps + more).hooks|
    ensures NewHooksDenied(|Run(setup, start, steps).hooks|, Run(setup, start, steps + more))
    decreases |more|
  {
    hide Next, Run, IsOrderCall;
    if more == [] {
      AppendNil(steps);
    } else {
      var init, last := more[..|more| - 1], more[|more| - 1];
      assert more == init + [last];
      Assoc(steps, init, [last]);
      KillHolds(setup, start, steps, init);
      RunPush(setup, start, steps + init, last);
      var s := Run(setup, start, steps + init);
      KillStepOnly(setup, s, last);
      NewHooksStep(setup, s, last, |Run(setup, start, steps).hooks|);
      OtherHooks(setup, s, last);
    }
  }

  /** Every order that is ever allowed was evaluated while the switch was off. */
  lemma AllowedWasBeforeKill(setup: Setup, control: Control, now: int, steps: seq<Step>, i: nat)
    requires var s := Run(setup, Boot(control, now), steps);
             i < |s.hooks| && s.hooks[i].phase == Answered(Allow) && IsOrderCall(s.hooks[i])
    ensures !Run(setup, Boot(control, now), steps).hooks[i].seen.cfg.killSwitch
  {
    AllowedOrdersWereGated(setup, control, now, steps, i);
    hide Run, Boot, ParseOrder, IsOrderCall;
    var h := Run(setup, Boot(control, now), steps).hooks[i];
    HardStopsDominate(h.seen.cfg, h.order.value, h.req.context);
  }

  // ---- what an order is charged ----

  /**
   Every order in progress has a positive quantity and a price, and is charged its worth at that
   price exactly if the price is not negative; otherwise it is charged nothing.
   */
  lemma ChargedItsWorthExactly(setup: Setup, control: Control, now: int, steps: seq<Step>, i: nat)
    requires var s := Run(setup, Boot(control, now), steps); i < |s.hooks| && s.hooks[i].order.Some?
    ensures var h := Run(setup, Boot(control, now), steps).hooks[i];
            var order, price := h.order.value, PriceOf(h.order.value, h.req.context);
            && order.qty > 0.0 && price.Some?
            && var charge := B.Positive(Notional(order, h.req.context));
               && (charge == Worth(order.qty, price.value) <==> price.value >= 0.0)
               && (price.value < 0.0 ==> charge == 0.0)
  {
    hide Run, Boot, ParseOrder, IsOrderCall, R.Run, IssuedFor, R.Resolved, Worth;
    RunKeepsSound(setup, control, now, steps);
    var h := Run(setup, Boot(control, now), steps).hooks[i];
    ParsedOrder(setup.read, h.req.call.name, h.req.call.arguments, 0.0, h.order.value.id);
    SignOfWorth(h.order.value.qty, PriceOf(h.order.value, h.req.context).value);
  }

  lemma SignOfWorth(qty: real, price: real)
    requires qty > 0.0
    ensures Worth(qty, price) < 0.0 <==> price < 0.0
  {}

  /** How many orders were allowed since the last session reset, and what they were charged. */
  function AllowedCount(setup: Setup, start: State, steps: seq<Step>): nat {
    if steps == [] then 0
    else
      var init, last := steps[..|steps| - 1], steps[|steps| - 1];
      if last.ResetSession? then 0
      else if last.Charge? && ChargesHook(setup, Run(setup, start, init), last, last.i) then
        AllowedCount(setup, start, init) + 1
      else AllowedCount(setup, start, init)
  }

  function AllowedNotional(setup: Setup, start: State, steps: seq<Step>): real {
    if steps == [] then 0.0
    else
      var init, last := steps[..|steps| - 1], steps[|steps| - 1];
      var s := Run(setup, start, init);
      if last.ResetSession? then 0.0
      else if last.Charge? && ChargesHook(setup, s, last, last.i) then
        var h := s.hooks[last.i];
        AllowedNotional(setup, start, init) + B.Positive(Notional(h.order.value, h.req.context))
      else AllowedNotional(setup, start, init)
  }

  /**
   In every interleaving, the orders allowed since the last session reset, and their notional, are
   what the budget has booked, and both stay within the caps that are set.
   */
  lemma {:induction false} AllowedOrdersStayWithinCaps(setup: Setup, control: Control, now: int, steps: seq<Step>)
    requires B.Fits(setup.caps)
    ensures var start := Boot(control, now);
            B.Books(setup.caps, Run(setup, start, steps).budget,
                    AllowedCount(setup, start, steps), AllowedNotional(setup, start, steps))
  {
    if steps != [] {
      var init, last, start := steps[..|steps| - 1], steps[|steps| - 1], Boot(control, now);
      AllowedOrdersStayWithinCaps(setup, control, now, init);
      var s := Run(setup, start, init);
      if last.Charge? && In(s, last.i, Cleared) && s.hooks[last.i].order.Some? {
        var h := s.hooks[last.i];
        B.ChargeKeepsBooks(setup.caps, s.budget, AllowedCount(setup, start, init), AllowedNotional(setup, start, init),
                           Notional(h.order.value, h.req.context), last.checked, last.reported);
      }
      hide B.Books, Boot, Notional, B.Charged, Arrived, A.Enqueued, A.Decided, A.Swept, Resume, B.Positive;
      if last.ResetSession? { B.NothingBooked(setup.caps, last.now); }
    } else {
      B.NothingBooked(setup.caps, now);
    }
  }
}
