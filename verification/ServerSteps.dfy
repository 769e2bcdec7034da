/** What each step of the server does, part by part, and which control governs a request. */
module ServerSteps {
  import opened Wrappers
  import opened Seqs
  import opened RiskGate
  import opened OrderParse
  import opened HookGate
  import opened Server
  import opened ServerRuns
  import A = Approvals
  import R = ApprovalRuns
  import B = Budget

  // ---- the control ----

  /** The same but for the switch. */
  predicate SameLimits(a: Config, b: Config) {
    && a.maxOrderNotional == b.maxOrderNotional && a.maxPositionFraction == b.maxPositionFraction
    && a.maxDailyLoss == b.maxDailyLoss && a.maxUnrealizedLoss == b.maxUnrealizedLoss
    && a.maxOpenPositions == b.maxOpenPositions && a.cooldownSecs == b.cooldownSecs
    && a.maxSlippage == b.maxSlippage && a.allowlist == b.allowlist && a.denylist == b.denylist
  }

  predicate SetsControl(step: Step) {
    step.Kill? || step.Reload?
  }

  /** What a kill call or a reload makes of a control. */
  predicate Installs(step: Step, was: Control, control: Control) {
    match step
    case Kill(engage) =>
      && control.tools == was.tools && control.manual == was.manual && SameLimits(control.cfg, was.cfg)
      && control.cfg.killSwitch == engage
    case Reload(news) =>
      && control.tools == news.tools && control.manual == news.manual && SameLimits(control.cfg, news.cfg)
      && (control.cfg.killSwitch <==> was.cfg.killSwitch || news.cfg.killSwitch)
    case _ => control == was
  }

  /**
   A kill call sets the switch as asked; a reload installs the new limits, tools and approval mode and
   keeps an engaged switch; nothing else touches the control.
   */
  lemma ControlMoves(setup: Setup, s: State, step: Step)
    ensures Installs(step, s.control, Next(setup, s, step).control)
  {
    hide Arrived, Charging, Resume, A.Enqueued, A.Decided, A.Swept, A.Dropped;
  }

  /** The other parts are touched by their own steps only. */
  lemma PartsMove(setup: Setup, s: State, step: Step)
    ensures var t := Next(setup, s, step);
            && (SetsControl(step) ==> t.queue == s.queue && t.budget == s.budget && t.hooks == s.hooks)
            && (t.budget != s.budget ==> step.Charge? || step.ResetSession?)
            && (t.queue != s.queue ==>
                  step.Hold? || step.Wake? || step.TimeOut? || step.GiveUp? || step.Decide? || step.Sweep?)
            && (step.Decide? || step.Sweep? || step.ResetSession? ==> t.hooks == s.hooks)
  {
    hide Arrived, Charging, Resume, A.Enqueued, A.Decided, A.Swept, A.Dropped;
  }

  lemma {:induction false} ControlStays(setup: Setup, start: State, steps: seq<Step>, between: seq<Step>)
    requires forall k :: 0 <= k < |between| ==> !SetsControl(between[k])
    ensures Run(setup, start, steps + between).control == Run(setup, start, steps).control
    decreases |between|
  {
    hide Next, Run;
    if between == [] {
      AppendNil(steps);
    } else {
      var init, last := between[..|between| - 1], between[|between| - 1];
      assert between == init + [last];
      Assoc(steps, init, [last]);
      ControlStays(setup, start, steps, init);
      RunPush(setup, start, steps + init, last);
      ControlMoves(setup, Run(setup, start, steps + init), last);
    }
  }

  /** A request keeps the control it was evaluated under, its call and its order. */
  lemma HookKeepsControl(setup: Setup, s: State, step: Step, i: nat)
    requires i < |s.hooks|
    ensures var t := Next(setup, s, step);
            && i < |t.hooks| && t.hooks[i].seen == s.hooks[i].seen && t.hooks[i].req == s.hooks[i].req
            && t.hooks[i].order == s.hooks[i].order
  {
    hide Arrived, Charging, A.Enqueued, A.Decided, A.Swept, A.Dropped;
  }

  lemma {:induction false} HookKeepsItForever(setup: Setup, start: State, steps: seq<Step>, more: seq<Step>, i: nat)
    requires i < |Run(setup, start, steps).hooks|
    ensures var s, t := Run(setup, start, steps), Run(setup, start, steps + more);
            && i < |t.hooks| && t.hooks[i].seen == s.hooks[i].seen && t.hooks[i].req == s.hooks[i].req
            && t.hooks[i].order == s.hooks[i].order
    decreases |more|
  {
    hide Next, Run;
    if more == [] {
      AppendNil(steps);
    } else {
      var init, last := more[..|more| - 1], more[|more| - 1];
      assert more == init + [last];
      Assoc(steps, init, [last]);
      HookKeepsItForever(setup, start, steps, init, i);
      RunPush(setup, start, steps + init, last);
      HookKeepsControl(setup, Run(setup, start, steps + init), last, i);
    }
  }

  /**
   Whatever a kill call or a reload installs governs every request that arrives before the next one,
   and goes on governing that request however long it takes.
   */
  lemma ControlGoverns(setup: Setup, start: State, steps: seq<Step>, set_: Step,
                       between: seq<Step>, arrive: Step, after: seq<Step>)
    requires SetsControl(set_) && arrive.Arrive?
    requires forall k :: 0 <= k < |between| ==> !SetsControl(between[k])
    ensures var i := |Run(setup, start, steps + [set_] + between).hooks|;
            var t := Run(setup, start, steps + [set_] + between + [arrive] + after);
            i < |t.hooks| && Installs(set_, Run(setup, start, steps).control, t.hooks[i].seen)
  {
    hide Run, Next, Installs;
    var ready := steps + [set_] + between;
    RunPush(setup, start, steps, set_);
    ControlMoves(setup, Run(setup, start, steps), set_);
    ControlStays(setup, start, steps + [set_], between);
    RunPush(setup, start, ready, arrive);
    ArrivalIs(setup, Run(setup, start, ready), arrive);
    HookKeepsItForever(setup, start, ready + [arrive], after, |Run(setup, start, ready).hooks|);
  }

  // ---- the steps of a request ----

  /**
   An arriving call is evaluated under the present control and at the present time. An order that is
   allowed is kept, to be held if approvals are manual and charged if not; any other answer is final.
   */
  lemma ArrivalIs(setup: Setup, s: State, step: Step)
    requires step.Arrive?
    ensures var t := Next(setup, s, step);
            |t.hooks| == |s.hooks| + 1 && t.hooks[..|s.hooks|] == s.hooks
    ensures var h, call := Next(setup, s, step).hooks[|s.hooks|], step.req.call;
            var c := step.req.context.(now := step.now);
            var outcome := Evaluate(setup.read, s.control.tools, s.control.cfg, call, c, step.id1);
            && h.seen == s.control && h.req == Request(call, c) && h.ticket.None?
            && if outcome == Allow && call.name in s.control.tools && s.control.tools[call.name] == PlaceOrder then
                 && h.order.Some? && h.phase == (if s.control.manual then Held else Cleared)
                 && ParseOrder(setup.read, call.name, call.arguments, 0.0, step.id2) == Ok(h.order.value)
               else h.order.None? && h.phase == Answered(outcome)
  {
    hide ParseOrder, Check, Evaluate;
    var req := At(step.req, step.now);
    ArrivedOk(setup, s.control, req, step.id1, step.id2, [], map[]);
    hide HookOk;
    if Classify(s.control.tools, req.call.name) == Some(PlaceOrder) {
      SecondReadingAgrees(setup.read, s.control.tools, s.control.cfg, req.call, req.context, step.id1, step.id2);
    }
  }

  /** A held order waits for the entry that it is given, which shows its tool and its order. */
  lemma HoldIs(setup: Setup, s: State, i: nat, first: int, second: int)
    requires i < |s.hooks| && s.hooks[i].phase == Held && s.hooks[i].order.Some?
    ensures var t, h := Next(setup, s, Hold(i, first, second)), s.hooks[i];
            && |t.queue.entries| == |s.queue.entries| + 1 && t.queue.entries[..|s.queue.entries|] == s.queue.entries
            && var e := t.queue.entries[|s.queue.entries|];
               && e.state.Pending? && e.tool == h.req.call.name && R.Shown(h.order.value, e.order)
               && e.createdAt == second
               && t.hooks == s.hooks[i := h.(ticket := Some(e.id), phase := Waiting(e.id))]
               && A.Shows(t.queue.sent, e.id, A.Pending) && A.IsOpen(t.queue.sent, e.id)
  {
    hide A.Id, R.Shown;
    R.RequestIsRecorded(s.queue, first, second, s.hooks[i].req.call.name, s.hooks[i].order.value);
  }

  /** How a wait ends: by what its channel shows, by its time, or by its caller; the entry stays as it is. */
  lemma WaitIs(setup: Setup, s: State, step: Step)
    requires (step.Wake? || step.TimeOut? || step.GiveUp?) && WaitsFor(s, step.i)
    ensures var t, ticket := Next(setup, s, step), s.hooks[step.i].phase.ticket;
            var value := s.queue.sent[ticket].value;
            var ends := step.GiveUp? || (step.Wake? <==> value.Terminal());
            && t.queue.entries == s.queue.entries && t.queue.seqNo == s.queue.seqNo
            && t.queue.sent == (if ends then s.queue.sent[ticket := A.Channel(value, false)] else s.queue.sent)
            && t.hooks ==
               if !ends then s.hooks
               else
                 var phase := if step.GiveUp? then Abandoned
                              else if step.TimeOut? || value.Expired? then Answered(Deny(TimedOut))
                              else if value.Denied? then Answered(Deny(OperatorDenied))
                              else Cleared;
                 s.hooks[step.i := s.hooks[step.i].(phase := phase)]
  {}

  /** A cleared order is charged its quantity at its limit price, else at the reference price, else nothing. */
  lemma ChargeIs(setup: Setup, s: State, i: nat, checked: int, reported: int)
    requires i < |s.hooks| && s.hooks[i].phase == Cleared && s.hooks[i].order.Some?
    ensures var t, h := Next(setup, s, Charge(i, checked, reported)), s.hooks[i];
            var price := if h.order.value.limitPrice.Some? then h.order.value.limitPrice else h.req.context.refPrice;
            var amount := if price.Some? then Worth(h.order.value.qty, price.value) else 0.0;
            var (budget, r) := B.Charged(setup.caps, s.budget, amount, checked, reported);
            && t.budget == budget && t.queue == s.queue
            && t.hooks == s.hooks[i := h.(phase := Answered(if r.Ok? then Allow else Deny(BudgetReject)))]
  {
    hide B.Charged, Worth;
  }

  /** A decision, a sweep and a session reset go to their part as they are, and to no other. */
  lemma OthersAre(setup: Setup, s: State, step: Step)
    ensures var t := Next(setup, s, step);
            match step
            case Decide(id, to, reason, now) =>
              t == s.(queue := A.Decided(s.queue, Some(50), id, to, reason, now).0)
            case Sweep(now) => t == s.(queue := A.Swept(s.queue, A.Limits(setup.timeout, Some(50)), now))
            case ResetSession(now) => t == s.(budget := B.State(0, 0.0, now, false))
            case _ => true
  {
    hide A.Decided, A.Swept, Arrived, Charging, Resume, Leave;
  }

  // ---- what the operator is shown ----

  /** In every reachable state an entry shows the tool and the order of the request that waits for it. */
  lemma OperatorSeesTheOrder(setup: Setup, control: Control, now: int, steps: seq<Step>, i: nat, e: A.Entry)
    requires var s := Run(setup, Boot(control, now), steps);
             i < |s.hooks| && s.hooks[i].ticket == Some(e.id) && e in s.queue.entries
    ensures var h := Run(setup, Boot(control, now), steps).hooks[i];
            h.order.Some? && e.tool == h.req.call.name && R.Shown(h.order.value, e.order)
  {
    hide Run, Boot, R.Run, R.Shown, R.OutcomeOf, PassedGate, OwnEntryApproved, IsOrderCall, Ops;
    RunKeepsSound(setup, control, now, steps);
    var h, ops := Run(setup, Boot(control, now), steps).hooks[i], Ops(setup, Boot(control, now), steps);
    var k :| 0 <= k < |ops| && IssuedAt(setup.timeout, ops, k, e.id, h.req.call.name, h.order.value);
    R.ListedAsRequested(setup.timeout, ops, k, e);
  }
}
