/**
 The server's order gate (crates/server/src/routes.rs): hook requests, approval tickets, operator
 decisions, the sweeper, the session budget, the kill switch and config reloads, as interleaved
 steps over shared state. Each section under one lock is one step.
 */
module Server {
  import opened Wrappers
  import opened Orders
  import opened RiskGate
  import opened OrderParse
  import opened HookGate
  import A = Approvals
  import R = ApprovalRuns
  import B = Budget

  /** What an administrator or a reload can change: the risk config, the tool list, the approval mode. */
  datatype Control = Control(cfg: Config, tools: Tools, manual: bool)

  /** A hook request: the tool call and the account picture its caller gathered. */
  datatype Request = Request(call: ToolCall, context: Context)

  /** `Abandoned` is a request whose caller went away while it waited; it is never answered. */
  datatype Phase = Held | Waiting(ticket: string) | Cleared | Answered(outcome: Outcome) | Abandoned

  /** A request in progress: the control it was evaluated under, the order it carries, its ticket. */
  datatype Hook = Hook(req: Request, seen: Control, order: Option<Order>, ticket: Option<string>, phase: Phase)

  datatype State = State(control: Control, queue: A.Queue, budget: B.State, hooks: seq<Hook>)

  /** What never changes while the server runs. */
  datatype Setup = Setup(read: Reader, caps: B.Caps, timeout: nat)

  datatype Step =
    | Arrive(req: Request, now: int, id1: string, id2: string)
    | Hold(i: nat, first: int, second: int)
    | Wake(i: nat)
    | TimeOut(i: nat)
    | GiveUp(i: nat)
    | Charge(i: nat, checked: int, reported: int)
    | Decide(id: string, to: A.State, reason: Option<string>, now: int)
    | Sweep(now: int)
    | ResetSession(now: int)
    | Kill(engage: bool)
    | Reload(control: Control)

  function At(req: Request, now: int): Request {
    req.(context := req.context.(now := now))
  }

  /** One read of the control: evaluate, classify, note the approval mode; then read the order again. */
  function Arrived(setup: Setup, control: Control, req: Request, id1: string, id2: string): Hook {
    var outcome := Evaluate(setup.read, control.tools, control.cfg, req.call, req.context, id1);
    var blank := Hook(req, control, None, None, Answered(outcome));
    if outcome != Allow || Classify(control.tools, req.call.name) != Some(PlaceOrder) then blank
    else
      match ParseOrder(setup.read, req.call.name, req.call.arguments, 0.0, id2)
      case Err(_) => blank
      case Ok(order) => Hook(req, control, Some(order), None, if control.manual then Held else Cleared)
  }

  function Resume(h: Hook, s: A.State): Hook {
    if s.Approved? then h.(phase := Cleared)
    else if s.Denied? then h.(phase := Answered(Deny(OperatorDenied)))
    else h.(phase := Answered(Deny(TimedOut)))
  }

  function Notional(order: Order, c: Context): real {
    match PriceOf(order, c)
    case Some(p) => Worth(order.qty, p)
    case None => 0.0
  }

  function Reloaded(control: Control, news: Control): Control {
    news.(cfg := news.cfg.(killSwitch := control.cfg.killSwitch || news.cfg.killSwitch))
  }

  function Charging(setup: Setup, s: State, h: Hook, checked: int, reported: int): (B.State, Result<(), B.Breach>)
    requires h.order.Some?
  {
    B.Charged(setup.caps, s.budget, Notional(h.order.value, h.req.context), checked, reported)
  }

  predicate In(s: State, i: nat, phase: Phase) {
    i < |s.hooks| && s.hooks[i].phase == phase
  }

  predicate WaitsFor(s: State, i: nat) {
    i < |s.hooks| && s.hooks[i].phase.Waiting? && s.hooks[i].phase.ticket in s.queue.sent
  }

  /** The hook stops waiting, and its ticket is dropped. */
  function Leave(s: State, i: nat, h: Hook): State
    requires WaitsFor(s, i)
  {
    s.(queue := A.Dropped(s.queue, s.hooks[i].phase.ticket), hooks := s.hooks[i := h])
  }

  /** A step that does not apply to the state leaves it alone. */
  function Next(setup: Setup, s: State, step: Step): State {
    match step
    case Arrive(req, now, id1, id2) =>
      s.(hooks := s.hooks + [Arrived(setup, s.control, At(req, now), id1, id2)])
    case Hold(i, first, second) =>
      if In(s, i, Held) && s.hooks[i].order.Some? then
        var h := s.hooks[i];
        var id := A.Id(first / 1_000_000, s.queue.seqNo + 1);
        s.(queue := A.Enqueued(s.queue, first, second, h.req.call.name, h.order.value),
           hooks := s.hooks[i := h.(ticket := Some(id), phase := Waiting(id))])
      else s
    case Wake(i) =>
      if WaitsFor(s, i) && s.queue.sent[s.hooks[i].phase.ticket].value.Terminal() then
        Leave(s, i, Resume(s.hooks[i], s.queue.sent[s.hooks[i].phase.ticket].value))
      else s
    case TimeOut(i) =>
      if WaitsFor(s, i) && s.queue.sent[s.hooks[i].phase.ticket].value.Pending? then
        Leave(s, i, Resume(s.hooks[i], A.Expired))
      else s
    case GiveUp(i) =>
      if WaitsFor(s, i) then Leave(s, i, s.hooks[i].(phase := Abandoned)) else s
    case Charge(i, checked, reported) =>
      if In(s, i, Cleared) && s.hooks[i].order.Some? then
        var (budget, r) := Charging(setup, s, s.hooks[i], checked, reported);
        var outcome := if r.Ok? then Allow else Deny(BudgetReject);
        s.(budget := budget, hooks := s.hooks[i := s.hooks[i].(phase := Answered(outcome))])
      else s
    case Decide(id, to, reason, now) => s.(queue := A.Decided(s.queue, Some(A.RETAIN), id, to, reason, now).0)
    case Sweep(now) => s.(queue := A.Swept(s.queue, R.Real(setup.timeout), now))
    case ResetSession(now) => s.(budget := B.Started(now))
    case Kill(engage) => s.(control := s.control.(cfg := s.control.cfg.(killSwitch := engage)))
    case Reload(news) => s.(control := Reloaded(s.control, news))
  }

  // ---- the handlers ----

  datatype Reply = BadRequest | NotFound | Listed(entry: A.Entry) | Vanished

  class AppState {
    const read: Reader
    var control: Control
    const approvals: A.ApprovalStore
    const budget: B.SessionBudget
    var hooks: seq<Hook>

    ghost function View(): State
      reads this, approvals, budget
    {
      State(control, approvals.View(), budget.View(), hooks)
    }

    ghost function Config(): Setup {
      Setup(read, budget.caps, approvals.timeout)
    }

    constructor (read: Reader, control: Control, caps: B.Caps, timeout: nat, now: int)
      ensures View() == State(control, A.EMPTY, B.Started(now), []) && Config() == Setup(read, caps, timeout)
      ensures fresh(approvals) && fresh(budget)
    {
      this.read, this.control, hooks := read, control, [];
      approvals := new A.ApprovalStore(timeout);
      budget := new B.SessionBudget(caps, now);
    }

    /** The part of `pretooluse` under the read lock, and the second reading of the order. */
    method PreToolUse(request: Request, now: int, id1: string, id2: string)
      modifies this
      ensures View() == Next(Config(), old(View()), Arrive(request, now, id1, id2))
    {
      var req := At(request, now);
      var outcome := Evaluate(read, control.tools, control.cfg, req.call, req.context, id1);
      var class_ := Classify(control.tools, req.call.name);
      var isPlaceOrderAllow := outcome == Allow && class_ == Some(PlaceOrder);
      if !isPlaceOrderAllow {
        hooks := hooks + [Hook(req, control, None, None, Answered(outcome))];
        return;
      }
      var parsed := ParseOrder(read, req.call.name, req.call.arguments, 0.0, id2);
      if parsed.Err? {
        hooks := hooks + [Hook(req, control, None, None, Answered(outcome))];
        return;
      }
      hooks := hooks + [Hook(req, control, Some(parsed.value), None, if control.manual then Held else Cleared)];
    }

    method HoldForApproval(i: nat, first: int, second: int)
      requires i < |hooks| && hooks[i].phase == Held && hooks[i].order.Some?
      modifies this, approvals
      ensures View() == Next(Config(), old(View()), Hold(i, first, second))
    {
      var ticket := approvals.Enqueue(first, second, hooks[i].req.call.name, hooks[i].order.value);
      hooks := hooks[i := hooks[i].(ticket := Some(ticket.id), phase := Waiting(ticket.id))];
    }

    /** The waiting hook looks at its channel: once that is terminal, it goes on or answers. */
    method WakeUp(i: nat)
      requires i < |hooks| && hooks[i].phase.Waiting? && hooks[i].phase.ticket in approvals.sent
      requires approvals.sent[hooks[i].phase.ticket].value.Terminal()
      modifies this, approvals
      ensures View() == Next(Config(), old(View()), Wake(i))
    {
      var ticket := hooks[i].phase.ticket;
      var verdict := approvals.sent[ticket].value;
      approvals.DropTicket(ticket);
      if verdict.Approved? {
        hooks := hooks[i := hooks[i].(phase := Cleared)];
      } else if verdict.Denied? {
        hooks := hooks[i := hooks[i].(phase := Answered(Deny(OperatorDenied)))];
      } else {
        hooks := hooks[i := hooks[i].(phase := Answered(Deny(TimedOut)))];
      }
    }

    /** The timer of the wait fires while the channel still shows Pending. */
    method WaitTimedOut(i: nat)
      requires i < |hooks| && hooks[i].phase.Waiting? && hooks[i].phase.ticket in approvals.sent
      requires approvals.sent[hooks[i].phase.ticket].value.Pending?
      modifies this, approvals
      ensures View() == Next(Config(), old(View()), TimeOut(i))
    {
      approvals.DropTicket(hooks[i].phase.ticket);
      hooks := hooks[i := hooks[i].(phase := Answered(Deny(TimedOut)))];
    }

    /** The caller goes away while its request waits. */
    method CallerGaveUp(i: nat)
      requires i < |hooks| && hooks[i].phase.Waiting? && hooks[i].phase.ticket in approvals.sent
      modifies this, approvals
      ensures View() == Next(Config(), old(View()), GiveUp(i))
    {
      approvals.DropTicket(hooks[i].phase.ticket);
      hooks := hooks[i := hooks[i].(phase := Abandoned)];
    }

    method ChargeBudget(i: nat, checked: int, reported: int)
      requires i < |hooks| && hooks[i].phase == Cleared && hooks[i].order.Some?
      modifies this, budget
      ensures View() == Next(Config(), old(View()), Charge(i, checked, reported))
    {
      var r := budget.TryRecord(Notional(hooks[i].order.value, hooks[i].req.context), checked, reported);
      hooks := hooks[i := hooks[i].(phase := Answered(if r.Ok? then Allow else Deny(BudgetReject)))];
    }

    method PostKill(engage: bool)
      modifies this
      ensures View() == Next(Config(), old(View()), Kill(engage))
    {
      control := control.(cfg := control.cfg.(killSwitch := engage));
    }

    /** Swap in the re-read configuration; keep an engaged kill switch engaged. */
    method ApplyReload(news: Control)
      modifies this
      ensures View() == Next(Config(), old(View()), Reload(news))
    {
      var keepKill := control.cfg.killSwitch;
      control := control.(cfg := news.cfg);
      if keepKill {
        control := control.(cfg := control.cfg.(killSwitch := true));
      }
      control := control.(tools := news.tools, manual := news.manual);
    }

    method PostSessionReset(now: int)
      modifies budget
      ensures View() == Next(Config(), old(View()), ResetSession(now))
    {
      budget.Reset(now);
    }

    method SweepTick(now: int)
      modifies approvals
      ensures View() == Next(Config(), old(View()), Sweep(now))
    {
      approvals.SweepExpired(now);
    }

    /** The first part of `post_approval`: read the word and decide. `None` goes on to the look-up. */
    method DecideApproval(id: string, decision: string, reason: Option<string>, now: int) returns (reply: Option<Reply>)
      modifies approvals
      ensures decision != "approve" && decision != "deny" ==> reply == Some(BadRequest) && View() == old(View())
      ensures decision == "approve" || decision == "deny" ==>
                var to := if decision == "approve" then A.Approved else A.Denied;
                && View() == Next(Config(), old(View()), Decide(id, to, reason, now))
                && reply == if A.Decided(old(View()).queue, Some(A.RETAIN), id, to, reason, now).1 == Ok(true) then None
                            else Some(NotFound)
    {
      hide A.Decided;
      if decision != "approve" && decision != "deny" {
        return Some(BadRequest);
      }
      var to := if decision == "approve" then A.Approved else A.Denied;
      ghost var was := approvals.View();
      var changed := approvals.Decide(id, to, reason, now);
      TerminalDecision(was, id, to, reason, now);
      reply := if changed.value then None else Some(NotFound);
    }

    /** The second part, under the lock again: other calls may have come in between. */
    method LookUpApproval(id: string) returns (reply: Reply)
      ensures if R.HasId(View().queue.entries, id)
              then reply.Listed? && reply.entry.id == id && reply.entry in View().queue.entries
              else reply == Vanished
    {
      for k := 0 to |approvals.entries|
        invariant forall j :: 0 <= j < k ==> approvals.entries[j].id != id
      {
        if approvals.entries[k].id == id {
          return Listed(approvals.entries[k]);
        }
      }
      reply := Vanished;
    }
  }

  lemma TerminalDecision(q: A.Queue, id: string, to: A.State, reason: Option<string>, now: int)
    requires to.Terminal()
    ensures A.Decided(q, Some(A.RETAIN), id, to, reason, now).1.Ok?
  {
    hide A.Find, A.Trimmed;
  }

  // ---- runs ----

  function Run(setup: Setup, start: State, steps: seq<Step>): State {
    if steps == [] then start
    else Next(setup, Run(setup, start, steps[..|steps| - 1]), steps[|steps| - 1])
  }

  function Boot(control: Control, now: int): State {
    State(control, A.EMPTY, B.Started(now), [])
  }
}
