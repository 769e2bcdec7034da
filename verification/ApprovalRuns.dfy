/**
 Whole runs of the approval queue. The store that trims is compared with one that never trims: at
 every point it holds exactly the pending entries and the last 50 decided ones, and answers alike.
 */
module ApprovalRuns {
  import opened Wrappers
  import opened Seqs
  import opened Text
  import opened Orders
  import opened Approvals

  datatype Op =
    | Enqueue(first: int, second: int, tool: string, order: Order)
    | Decide(id: string, to: State, reason: Option<string>, now: int)
    | Sweep(now: int)
    | Drop(id: string)

  datatype Outcome = Held(id: string) | Decision(r: Result<bool, string>) | Done

  function Step(q: Queue, limits: Limits, op: Op): (Queue, Outcome) {
    match op
    case Enqueue(first, second, tool, order) =>
      (Enqueued(q, first, second, tool, order), Held(Id(first / 1_000_000, q.seqNo + 1)))
    case Decide(id, to, reason, now) =>
      var (next, r) := Decided(q, limits.limit, id, to, reason, now);
      (next, Decision(r))
    case Sweep(now) => (Swept(q, limits, now), Done)
    case Drop(id) => (Dropped(q, id), Done)
  }

  function Run(limits: Limits, ops: seq<Op>): Queue {
    if ops == [] then EMPTY
    else Step(Run(limits, ops[..|ops| - 1]), limits, ops[|ops| - 1]).0
  }

  function OutcomeOf(limits: Limits, ops: seq<Op>, k: nat): Outcome
    requires k < |ops|
  {
    Step(Run(limits, ops[..k]), limits, ops[k]).1
  }

  /** The store as it is, and the one that forgets nothing. */
  function Real(timeout: nat): Limits { Limits(timeout, Some(RETAIN)) }
  function Full(timeout: nat): Limits { Limits(timeout, None) }

  // ---- ids ----

  ghost predicate IssuedAs(id: string, n: nat) {
    exists millis :: id == Id(millis, n)
  }

  /** The counter behind the last dash tells two ids apart, whatever the clock said. */
  lemma IdsDiffer(m: int, i: nat, n: int, j: nat)
    requires Id(m, i) == Id(n, j)
    ensures i == j
  {
    hide Show, Decimal;
    LastFieldIsUnique("apr-" + Show(m), "apr-" + Show(n), Decimal(i), Decimal(j), '-');
    DecimalInjective(i, j);
  }

  predicate HasId(es: seq<Entry>, id: string) {
    exists k :: 0 <= k < |es| && es[k].id == id
  }

  predicate Distinct(es: seq<Entry>) {
    forall i, j :: 0 <= i < j < |es| ==> es[i].id != es[j].id
  }

  /** A channel shows its entry's state; one without a receiver may still show Pending. */
  predicate Reflects(c: Channel, state: State) {
    c.value == state || (!c.open && c.value.Pending?)
  }

  /** What holds of a store that never trims: entry k has the k+1-th id, channels reflect the states. */
  ghost predicate Ledger(q: Queue) {
    && |q.entries| == q.seqNo
    && (forall k :: 0 <= k < |q.entries| ==> IssuedAs(q.entries[k].id, k + 1))
    && (forall k :: 0 <= k < |q.entries| ==>
          q.entries[k].id in q.sent && Reflects(q.sent[q.entries[k].id], q.entries[k].state))
    && (forall id :: id in q.sent ==> HasId(q.entries, id))
  }

  lemma LedgerIsDistinct(q: Queue)
    requires Ledger(q)
    ensures Distinct(q.entries)
  {
    hide Id;
    forall i, j | 0 <= i < j < |q.entries|
      ensures q.entries[i].id != q.entries[j].id
    {
      if q.entries[i].id == q.entries[j].id {
        var m :| q.entries[i].id == Id(m, i + 1);
        var n :| q.entries[j].id == Id(n, j + 1);
        IdsDiffer(m, i + 1, n, j + 1);
      }
    }
  }

  lemma FreshId(q: Queue, millis: int)
    requires Ledger(q)
    ensures Id(millis, q.seqNo + 1) !in q.sent
  {
    hide Id;
    var id := Id(millis, q.seqNo + 1);
    if id in q.sent {
      var k :| 0 <= k < |q.entries| && q.entries[k].id == id;
      var m :| id == Id(m, k + 1);
      IdsDiffer(m, k + 1, millis, q.seqNo + 1);
    }
  }

  lemma {:induction false} FindFirst(es: seq<Entry>, id: string)
    ensures var i := Find(es, id); forall j :: 0 <= j < i ==> es[j].id != id
  {
    if es != [] && es[0].id != id {
      FindFirst(es[1..], id);
      assert es == [es[0]] + es[1..];
    }
  }

  lemma {:induction false} ExpireAllAt(es: seq<Entry>, timeout: nat, now: int, k: nat)
    requires k < |es|
    ensures ExpireAll(es, timeout, now)[k] == Expire(es[k], timeout, now)
  {
    if k < |es| - 1 {
      ExpireAllAt(es[..|es| - 1], timeout, now, k);
    }
  }

  lemma {:induction false} SendsNothing(sent: Channels, es: seq<Entry>, timeout: nat, now: int, id: string)
    requires id in sent && !HasId(es, id)
    ensures var after := SendExpiries(sent, es, timeout, now); id in after && after[id] == sent[id]
  {
    if es != [] {
      var init := es[..|es| - 1];
      assert es[|es| - 1].id != id;
      assert forall k :: 0 <= k < |init| ==> init[k] == es[k];
      SendsNothing(sent, init, timeout, now, id);
    }
  }

  lemma {:induction false} SendsOne(sent: Channels, es: seq<Entry>, timeout: nat, now: int, k: nat)
    requires Distinct(es) && k < |es| && es[k].id in sent
    ensures var after := SendExpiries(sent, es, timeout, now);
            && es[k].id in after
            && after[es[k].id] ==
               if Stale(es[k], timeout, now) && sent[es[k].id].open then Channel(Expired, true) else sent[es[k].id]
  {
    var init := es[..|es| - 1];
    if k == |init| {
      SendsNothing(sent, init, timeout, now, es[k].id);
    } else {
      SendsOne(sent, init, timeout, now, k);
    }
  }

  lemma {:induction false} SendsToEntries(sent: Channels, es: seq<Entry>, timeout: nat, now: int)
    requires forall k :: 0 <= k < |es| ==> es[k].id in sent
    ensures SendExpiries(sent, es, timeout, now).Keys == sent.Keys
  {
    if es != [] {
      SendsToEntries(sent, es[..|es| - 1], timeout, now);
    }
  }

  lemma EnqueueKeepsLedger(q: Queue, first: int, second: int, tool: string, order: Order)
    requires Ledger(q)
    ensures Ledger(Enqueued(q, first, second, tool, order))
  {
    hide Id, SummaryOf;
    FreshId(q, first / 1_000_000);
    var after := Enqueued(q, first, second, tool, order);
    forall id | id in after.sent
      ensures HasId(after.entries, id)
    {
      if id in q.sent {
        var k :| 0 <= k < |q.entries| && q.entries[k].id == id;
        assert after.entries[k].id == id;
      } else {
        assert after.entries[|q.entries|].id == id;
      }
    }
  }

  lemma SameIdsKeepLedger(q: Queue, after: Queue)
    requires Ledger(q) && after.seqNo == q.seqNo && |after.entries| == |q.entries|
    requires forall k :: 0 <= k < |q.entries| ==> after.entries[k].id == q.entries[k].id
    requires after.sent.Keys == q.sent.Keys
    requires forall k :: 0 <= k < |q.entries| ==> Reflects(after.sent[q.entries[k].id], after.entries[k].state)
    ensures Ledger(after)
  {
    forall id | id in after.sent
      ensures HasId(after.entries, id)
    {
      assert id in q.sent;
      var k :| 0 <= k < |q.entries| && q.entries[k].id == id;
      assert after.entries[k].id == id;
    }
  }

  lemma StepKeepsLedger(q: Queue, timeout: nat, op: Op)
    requires Ledger(q)
    ensures Ledger(Step(q, Full(timeout), op).0)
  {
    hide IssuedAs, ExpireAll, SendExpiries, Find, HasId;
    LedgerIsDistinct(q);
    var after := Step(q, Full(timeout), op).0;
    match op
    case Enqueue(first, second, tool, order) => EnqueueKeepsLedger(q, first, second, tool, order);
    case Decide(id, to, reason, now) =>
      SameIdsKeepLedger(q, after);
    case Sweep(now) =>
      SendsToEntries(q.sent, q.entries, timeout, now);
      forall k | 0 <= k < |q.entries|
        ensures after.entries[k] == Expire(q.entries[k], timeout, now)
        ensures Reflects(after.sent[q.entries[k].id], after.entries[k].state)
      {
        ExpireAllAt(q.entries, timeout, now, k);
        SendsOne(q.sent, q.entries, timeout, now, k);
      }
      SameIdsKeepLedger(q, after);
    case Drop(id) =>
      SameIdsKeepLedger(q, after);
  }

  lemma {:induction false} RunKeepsLedger(timeout: nat, ops: seq<Op>)
    ensures Ledger(Run(Full(timeout), ops))
  {
    hide Ledger, Step;
    if ops == [] {
      EmptyIsLedger();
    } else {
      RunKeepsLedger(timeout, ops[..|ops| - 1]);
      StepKeepsLedger(Run(Full(timeout), ops[..|ops| - 1]), timeout, ops[|ops| - 1]);
    }
  }

  lemma EmptyIsLedger()
    ensures Ledger(EMPTY)
  {}

  // ---- what Keep keeps ----

  function MapAll(es: seq<Entry>, f: Entry -> Entry): (r: seq<Entry>)
    ensures |r| == |es|
  {
    if es == [] then [] else MapAll(es[..|es| - 1], f) + [f(es[|es| - 1])]
  }

  ghost predicate LeavesDecided(f: Entry -> Entry) {
    forall e: Entry :: e.state.Terminal() ==> f(e) == e
  }

  lemma MapAllPush(es: seq<Entry>, e: Entry, f: Entry -> Entry)
    ensures MapAll(es + [e], f) == MapAll(es, f) + [f(e)]
  {
    assert (es + [e])[..|es|] == es;
  }

  lemma KeepPush(es: seq<Entry>, e: Entry, n: nat)
    ensures Keep(es + [e], n) ==
            if !e.state.Terminal() then Keep(es, n) + [e]
            else if n > 0 then Keep(es, n - 1) + [e]
            else Keep(es, 0)
  {
    assert (es + [e])[..|es|] == es;
  }

  /**
   Trimming early changes nothing: settle entries in a trimmed queue and trim again, or settle them
   in the whole queue and trim once.
   */
  lemma {:induction false} KeepCommutes(es: seq<Entry>, f: Entry -> Entry, m: nat, n: nat)
    requires LeavesDecided(f) && n <= m
    ensures Keep(MapAll(Keep(es, m), f), n) == Keep(MapAll(es, f), n)
  {
    if es != [] {
      var init, last := es[..|es| - 1], es[|es| - 1];
      var settled := MapAll(init, f);
      hide Keep, MapAll;
      assert es == init + [last];
      KeepPush(init, last, m);
      MapAllPush(init, last, f);
      KeepPush(settled, f(last), n);
      var rest := if !last.state.Terminal() then m else if m > 0 then m - 1 else 0;
      var left := if !f(last).state.Terminal() then n else if n > 0 then n - 1 else 0;
      if last.state.Terminal() && m == 0 {
        KeepCommutes(init, f, 0, 0);
      } else {
        KeepCommutes(init, f, rest, left);
        MapAllPush(Keep(init, rest), last, f);
        KeepPush(MapAll(Keep(init, rest), f), f(last), n);
      }
    }
  }

  lemma {:induction false} KeepIsFrom(es: seq<Entry>, n: nat)
    ensures forall e :: e in Keep(es, n) ==> e in es
    ensures forall e :: e in es && e.state.Pending? ==> e in Keep(es, n)
  {
    if es != [] {
      var init, last := es[..|es| - 1], es[|es| - 1];
      assert es == init + [last];
      KeepIsFrom(init, if !last.state.Terminal() then n else if n > 0 then n - 1 else 0);
    }
  }

  /** How many decided entries stand behind position k. */
  function Behind(es: seq<Entry>, k: nat): nat
    requires k < |es|
  {
    Terminals(es[k + 1..])
  }

  /** `at` lists, in order, where the entries that survive a trim to `n` decided ones stood. */
  ghost predicate Survivors(es: seq<Entry>, n: nat, at: seq<nat>) {
    && |at| == |Keep(es, n)|
    && (forall j :: 0 <= j < |at| ==> at[j] < |es| && Keep(es, n)[j] == es[at[j]])
    && (forall i, j :: 0 <= i < j < |at| ==> at[i] < at[j])
    && (forall k :: 0 <= k < |es| ==> (k in at <==> es[k].state.Pending? || Behind(es, k) < n))
  }

  /** What survives a trim, in its old order: entry k exactly if it is pending or fewer than n decided ones follow. */
  lemma {:induction false} KeepIsSubsequence(es: seq<Entry>, n: nat) returns (at: seq<nat>)
    ensures Survivors(es, n, at)
  {
    hide Survivors;
    at := [];
    if es != [] {
      var init, last := es[..|es| - 1], es[|es| - 1];
      assert es == init + [last];
      at := KeepIsSubsequence(init, if !last.state.Terminal() then n else if n > 0 then n - 1 else 0);
      SurvivorsPush(init, last, n, at);
      if !last.state.Terminal() || n > 0 { at := at + [|init|]; }
    } else {
      NoSurvivors(n);
    }
  }

  lemma NoSurvivors(n: nat)
    ensures Survivors([], n, [])
  {}

  lemma SurvivorsPush(init: seq<Entry>, last: Entry, n: nat, at: seq<nat>)
    requires Survivors(init, if !last.state.Terminal() then n else if n > 0 then n - 1 else 0, at)
    ensures Survivors(init + [last], n, if !last.state.Terminal() || n > 0 then at + [|init|] else at)
  {
    hide Behind, Keep;
    var es := init + [last];
    var kept := if !last.state.Terminal() || n > 0 then at + [|init|] else at;
    KeepPush(init, last, n);
    forall k | 0 <= k < |es|
      ensures k in kept <==> es[k].state.Pending? || Behind(es, k) < n
    {
      BehindPush(init, last, k);
      if k < |init| { assert es[k] == init[k]; }
    }
  }

  /** The number of decided entries behind a position, with and without one more entry. */
  lemma BehindPush(init: seq<Entry>, last: Entry, k: nat)
    requires k <= |init|
    ensures Behind(init + [last], k) ==
            if k == |init| then 0 else Behind(init, k) + if last.state.Terminal() then 1 else 0
  {
    var es := init + [last];
    hide Terminals;
    KeepNone();
    if k < |init| {
      assert es[k + 1..] == init[k + 1..] + [last];
      TerminalsPush(init[k + 1..], last);
    } else {
      assert es[k + 1..] == [];
    }
  }

  lemma {:induction false} KeepCount(es: seq<Entry>, n: nat)
    ensures Terminals(Keep(es, n)) == if Terminals(es) < n then Terminals(es) else n
  {
    if es != [] {
      var init, last := es[..|es| - 1], es[|es| - 1];
      var rest := if !last.state.Terminal() then n else if n > 0 then n - 1 else 0;
      KeepCount(init, rest);
      TerminalsPush(Keep(init, rest), last);
    }
  }

  lemma TerminalsPush(es: seq<Entry>, e: Entry)
    ensures Terminals(es + [e]) == Terminals(es) + if e.state.Terminal() then 1 else 0
  {
    assert (es + [e])[..|es|] == es;
  }

  // ---- the store that trims refines the one that does not ----

  lemma KeepIsDistinct(es: seq<Entry>, n: nat)
    requires Distinct(es)
    ensures Distinct(Keep(es, n))
  {
    hide Keep, Behind;
    var at := KeepIsSubsequence(es, n);
  }

  predicate Open(es: seq<Entry>, id: string) {
    exists k :: 0 <= k < |es| && es[k].id == id && es[k].state.Pending?
  }

  lemma FindsTheOpenOne(es: seq<Entry>, id: string)
    requires Distinct(es)
    ensures var i := Find(es, id); Open(es, id) <==> i < |es| && es[i].state.Pending?
  {
    hide Find;
    FindFirst(es, id);
    if Open(es, id) {
      var k :| 0 <= k < |es| && es[k].id == id && es[k].state.Pending?;
      assert Find(es, id) <= k;
    }
  }

  lemma KeepLeavesOpen(es: seq<Entry>, n: nat, id: string)
    ensures Open(Keep(es, n), id) <==> Open(es, id)
  {
    hide Keep;
    KeepIsFrom(es, n);
    var kept := Keep(es, n);
    if Open(kept, id) {
      var k :| 0 <= k < |kept| && kept[k].id == id && kept[k].state.Pending?;
      assert kept[k] in es;
    }
    if Open(es, id) {
      var k :| 0 <= k < |es| && es[k].id == id && es[k].state.Pending?;
      assert es[k] in kept;
    }
  }

  function Settle(id: string, to: State, reason: Option<string>, now: int): Entry -> Entry {
    (e: Entry) =>
      if e.id == id && e.state.Pending? then e.(state := to, decidedAt := Some(now), reason := reason) else e
  }

  function Expiry(timeout: nat, now: int): Entry -> Entry {
    (e: Entry) => Expire(e, timeout, now)
  }

  lemma {:induction false} MapAllAt(es: seq<Entry>, f: Entry -> Entry, k: nat)
    requires k < |es|
    ensures MapAll(es, f)[k] == f(es[k])
  {
    if k < |es| - 1 {
      MapAllAt(es[..|es| - 1], f, k);
    }
  }

  /** With distinct ids, deciding the entry found is settling by id. */
  lemma DecideIsSettle(es: seq<Entry>, id: string, to: State, reason: Option<string>, now: int)
    requires Distinct(es)
    requires Find(es, id) < |es| && es[Find(es, id)].state.Pending?
    ensures var i := Find(es, id);
            es[i := es[i].(state := to, decidedAt := Some(now), reason := reason)] ==
            MapAll(es, Settle(id, to, reason, now))
  {
    hide Find;
    var i, f := Find(es, id), Settle(id, to, reason, now);
    var after := es[i := es[i].(state := to, decidedAt := Some(now), reason := reason)];
    forall k | 0 <= k < |es|
      ensures after[k] == MapAll(es, f)[k]
    {
      MapAllAt(es, f, k);
    }
  }

  lemma {:induction false} ExpireAllIsMap(es: seq<Entry>, timeout: nat, now: int)
    ensures ExpireAll(es, timeout, now) == MapAll(es, Expiry(timeout, now))
  {
    if es != [] {
      ExpireAllIsMap(es[..|es| - 1], timeout, now);
    }
  }

  lemma SendPush(sent: Channels, es: seq<Entry>, e: Entry, timeout: nat, now: int)
    ensures var before := SendExpiries(sent, es, timeout, now);
            SendExpiries(sent, es + [e], timeout, now) ==
            if Stale(e, timeout, now) then Send(before, e.id, Expired) else before
  {
    assert (es + [e])[..|es|] == es;
  }

  lemma {:induction false} KeepSendsAlike(sent: Channels, es: seq<Entry>, n: nat, timeout: nat, now: int)
    ensures SendExpiries(sent, Keep(es, n), timeout, now) == SendExpiries(sent, es, timeout, now)
  {
    if es != [] {
      var init, last := es[..|es| - 1], es[|es| - 1];
      var rest := if !last.state.Terminal() then n else if n > 0 then n - 1 else 0;
      hide Keep, SendExpiries, Send;
      assert es == init + [last];
      KeepPush(init, last, n);
      KeepSendsAlike(sent, init, rest, timeout, now);
      SendPush(sent, init, last, timeout, now);
      SendPush(sent, Keep(init, rest), last, timeout, now);
    }
  }

  predicate Matches(store: Queue, full: Queue) {
    store.entries == Keep(full.entries, RETAIN) && store.seqNo == full.seqNo && store.sent == full.sent
  }

  lemma DecideRefines(store: Queue, full: Queue, id: string, to: State, reason: Option<string>, now: int)
    requires Ledger(full) && Matches(store, full)
    ensures var (q, r) := Decided(store, Some(RETAIN), id, to, reason, now);
            var (p, s) := Decided(full, None, id, to, reason, now);
            Matches(q, p) && r == s
  {
    hide Keep, Find, Ledger, MapAll, Open;
    LedgerIsDistinct(full);
    KeepIsDistinct(full.entries, RETAIN);
    KeepLeavesOpen(full.entries, RETAIN, id);
    FindsTheOpenOne(store.entries, id);
    FindsTheOpenOne(full.entries, id);
    if to.Terminal() && Open(full.entries, id) {
      DecideIsSettle(store.entries, id, to, reason, now);
      DecideIsSettle(full.entries, id, to, reason, now);
      KeepCommutes(full.entries, Settle(id, to, reason, now), RETAIN, RETAIN);
    }
  }

  lemma StepRefines(store: Queue, full: Queue, timeout: nat, op: Op)
    requires Ledger(full) && Matches(store, full)
    ensures Matches(Step(store, Real(timeout), op).0, Step(full, Full(timeout), op).0)
    ensures Step(store, Real(timeout), op).1 == Step(full, Full(timeout), op).1
  {
    hide Keep, Find, Ledger, MapAll, ExpireAll, SendExpiries, Decided;
    match op
    case Enqueue(first, second, tool, order) =>
      var id := Id(first / 1_000_000, full.seqNo + 1);
      KeepPush(full.entries, Entry(id, Pending, tool, SummaryOf(order), second, None, None), RETAIN);
    case Decide(id, to, reason, now) => DecideRefines(store, full, id, to, reason, now);
    case Sweep(now) =>
      ExpireAllIsMap(store.entries, timeout, now);
      ExpireAllIsMap(full.entries, timeout, now);
      KeepCommutes(full.entries, Expiry(timeout, now), RETAIN, RETAIN);
      KeepSendsAlike(full.sent, full.entries, RETAIN, timeout, now);
    case Drop(id) =>
  }

  /**
   On every run the store lists exactly the pending entries and the last 50 decided ones of a store
   that never forgets, in the same order, with the same channels.
   */
  lemma {:induction false} StoreRefines(timeout: nat, ops: seq<Op>)
    ensures Matches(Run(Real(timeout), ops), Run(Full(timeout), ops))
  {
    if ops == [] {
      KeepNone();
      KeepAll([], RETAIN);
    } else {
      hide Step, Matches;
      var init := ops[..|ops| - 1];
      StoreRefines(timeout, init);
      RunKeepsLedger(timeout, init);
      StepRefines(Run(Real(timeout), init), Run(Full(timeout), init), timeout, ops[|ops| - 1]);
    }
  }

  /** Trimming is invisible in the answers: every call answers as if nothing had been forgotten. */
  lemma AnswersAlike(timeout: nat, ops: seq<Op>, k: nat)
    requires k < |ops|
    ensures OutcomeOf(Real(timeout), ops, k) == OutcomeOf(Full(timeout), ops, k)
  {
    hide Step, Matches, Run;
    StoreRefines(timeout, ops[..k]);
    RunKeepsLedger(timeout, ops[..k]);
    StepRefines(Run(Real(timeout), ops[..k]), Run(Full(timeout), ops[..k]), timeout, ops[k]);
  }

  /** Ids are unique, at most 50 decided entries are listed, and no pending entry is ever dropped. */
  lemma StoreInvariant(timeout: nat, ops: seq<Op>)
    ensures var q, full := Run(Real(timeout), ops), Run(Full(timeout), ops);
            && Distinct(q.entries)
            && Terminals(q.entries) <= 50
            && (forall e :: e in full.entries && e.state.Pending? ==> e in q.entries)
            && (forall e :: e in q.entries ==> e in full.entries)
  {
    hide Keep, Terminals, Run, Ledger;
    var full := Run(Full(timeout), ops);
    StoreRefines(timeout, ops);
    RunKeepsLedger(timeout, ops);
    LedgerIsDistinct(full);
    KeepIsDistinct(full.entries, RETAIN);
    KeepCount(full.entries, RETAIN);
    KeepIsFrom(full.entries, RETAIN);
  }

  // ---- decided entries are final ----

  predicate SameRequest(a: Entry, b: Entry) {
    a.id == b.id && a.tool == b.tool && a.order == b.order && a.createdAt == b.createdAt
  }

  predicate Grows(before: seq<Entry>, after: seq<Entry>) {
    && |before| <= |after|
    && (forall k :: 0 <= k < |before| ==>
          SameRequest(before[k], after[k]) && (before[k].state.Terminal() ==> after[k] == before[k]))
  }

  lemma StepGrows(q: Queue, timeout: nat, op: Op)
    ensures Grows(q.entries, Step(q, Full(timeout), op).0.entries)
  {
    hide ExpireAll, Find, SendExpiries;
    if op.Sweep? {
      forall k | 0 <= k < |q.entries|
        ensures ExpireAll(q.entries, timeout, op.now)[k] == Expire(q.entries[k], timeout, op.now)
      {
        ExpireAllAt(q.entries, timeout, op.now, k);
      }
    }
  }

  lemma GrowsOn(a: seq<Entry>, b: seq<Entry>, c: seq<Entry>)
    requires Grows(a, b) && Grows(b, c)
    ensures Grows(a, c)
  {}

  lemma GrowsSelf(a: seq<Entry>)
    ensures Grows(a, a)
  {}

  lemma RunPush(limits: Limits, ops: seq<Op>, op: Op)
    ensures Run(limits, ops + [op]) == Step(Run(limits, ops), limits, op).0
  {
    assert (ops + [op])[..|ops|] == ops;
  }

  lemma {:induction false} RunGrows(timeout: nat, ops: seq<Op>, more: seq<Op>)
    ensures Grows(Run(Full(timeout), ops).entries, Run(Full(timeout), ops + more).entries)
    decreases |more|
  {
    hide Grows, Step, Run;
    if more == [] {
      AppendNil(ops);
      GrowsSelf(Run(Full(timeout), ops).entries);
    } else {
      var init, last := more[..|more| - 1], more[|more| - 1];
      assert more == init + [last];
      Assoc(ops, init, [last]);
      RunGrows(timeout, ops, init);
      RunPush(Full(timeout), ops + init, last);
      StepGrows(Run(Full(timeout), ops + init), timeout, last);
      GrowsOn(Run(Full(timeout), ops).entries, Run(Full(timeout), ops + init).entries,
              Run(Full(timeout), ops + more).entries);
    }
  }

  /** Once an entry is decided it never changes again; while pending, only its decision can change. */
  lemma DecidedIsFinal(timeout: nat, ops: seq<Op>, more: seq<Op>, e: Entry, later: Entry)
    requires e in Run(Real(timeout), ops).entries && later in Run(Real(timeout), ops + more).entries
    requires e.id == later.id
    ensures SameRequest(e, later) && (e.state.Terminal() ==> later == e)
  {
    hide Run, Keep, Ledger, Terminals;
    StoreInvariant(timeout, ops);
    StoreInvariant(timeout, ops + more);
    RunGrows(timeout, ops, more);
    RunKeepsLedger(timeout, ops + more);
    var before, after := Run(Full(timeout), ops).entries, Run(Full(timeout), ops + more).entries;
    LedgerIsDistinct(Run(Full(timeout), ops + more));
    var i :| 0 <= i < |before| && before[i] == e;
    var j :| 0 <= j < |after| && after[j] == later;
    assert after[i].id == after[j].id;
  }

  // ---- what is recorded ----

  /** The card of an order: what it trades, which way, how much, up to which price, and where it came from. */
  predicate Shown(o: Order, card: Summary) {
    && card.symbol == o.symbol && card.qty == o.qty && card.limitPrice == o.limitPrice && card.reason == o.reason
    && card.side == match o.side case Buy => "buy" case Sell => "sell"
  }

  /** A request is queued last, pending, under an id of its own, with the card of its order. */
  lemma RequestIsRecorded(q: Queue, first: int, second: int, tool: string, order: Order)
    ensures var after := Enqueued(q, first, second, tool, order);
            && |after.entries| == |q.entries| + 1 && after.entries[..|q.entries|] == q.entries
            && after.seqNo == q.seqNo + 1
            && var e := after.entries[|q.entries|];
               && e.id == "apr-" + Show(first / 1_000_000) + "-" + Decimal(q.seqNo + 1)
               && e.state.Pending? && e.tool == tool && Shown(order, e.order)
               && e.createdAt == second && e.decidedAt.None? && e.reason.None?
               && after.sent == q.sent[e.id := Channel(Pending, true)]
  {
    hide Show, Decimal;
  }

  /** A decision that takes effect is recorded on its entry, with time and note, and on no other. */
  lemma DecisionIsRecorded(timeout: nat, ops: seq<Op>, id: string, to: State, reason: Option<string>, now: int,
                           e: Entry)
    requires var q := Run(Real(timeout), ops);
             var (after, r) := Decided(q, Some(RETAIN), id, to, reason, now);
             r == Ok(true) && e in after.entries
    ensures exists was ::
              && was in Run(Real(timeout), ops).entries && SameRequest(was, e)
              && if was.id == id then
                   was.state.Pending? && e.state == to && e.decidedAt == Some(now) && e.reason == reason
                 else e == was
  {
    hide Run, Keep, Terminals, Find;
    var q := Run(Real(timeout), ops);
    StoreInvariant(timeout, ops);
    var i := Find(q.entries, id);
    var decided := q.entries[i := q.entries[i].(state := to, decidedAt := Some(now), reason := reason)];
    KeepIsFrom(decided, RETAIN);
    var k :| 0 <= k < |decided| && decided[k] == e;
    assert q.entries[k] in q.entries;
  }

  /** A sweep marks the pending entries whose time is up, with the time of the sweep, and no others. */
  lemma SweepIsRecorded(q: Queue, timeout: nat, now: int, e: Entry)
    requires e in Swept(q, Real(timeout), now).entries
    ensures exists was ::
              && was in q.entries
              && e == if was.state.Pending? && TimeIsUp(was, timeout, now)
                      then was.(state := Expired, decidedAt := Some(now)) else was
  {
    hide Keep, ExpireAll, SendExpiries;
    var expired := ExpireAll(q.entries, timeout, now);
    KeepIsFrom(expired, RETAIN);
    var k :| 0 <= k < |expired| && expired[k] == e;
    ExpireAllAt(q.entries, timeout, now, k);
    assert q.entries[k] in q.entries;
  }

  lemma RequestIsLast(timeout: nat, before: seq<Op>, op: Op)
    requires op.Enqueue?
    ensures var es := Run(Full(timeout), before + [op]).entries;
            && es != []
            && var e := es[|es| - 1];
               && Step(Run(Full(timeout), before), Full(timeout), op).1 == Held(e.id)
               && e.tool == op.tool && Shown(op.order, e.order) && e.createdAt == op.second
  {
    hide Run, Id, Shown;
    RunPush(Full(timeout), before, op);
    RequestIsRecorded(Run(Full(timeout), before), op.first, op.second, op.tool, op.order);
  }

  /** The request that got this id is what every later listing of the id shows. */
  lemma ListedAsRequested(timeout: nat, ops: seq<Op>, k: nat, e: Entry)
    requires k < |ops| && ops[k].Enqueue? && OutcomeOf(Real(timeout), ops, k) == Held(e.id)
    requires e in Run(Real(timeout), ops).entries
    ensures e.tool == ops[k].tool && Shown(ops[k].order, e.order) && e.createdAt == ops[k].second
  {
    hide Run, Step, Keep, Terminals, Ledger, Shown, Grows, SameRequest, Distinct;
    var before, full := ops[..k] + [ops[k]], Run(Full(timeout), ops);
    AnswersAlike(timeout, ops, k);
    RequestIsLast(timeout, ops[..k], ops[k]);
    assert ops == before + ops[k + 1..];
    RunGrows(timeout, before, ops[k + 1..]);
    StoreInvariant(timeout, ops);
    RunKeepsLedger(timeout, ops);
    LedgerIsDistinct(full);
    var es := Run(Full(timeout), before).entries;
    SameIdSameEntry(es, full.entries, |es| - 1, e);
  }

  lemma SameIdSameEntry(before: seq<Entry>, after: seq<Entry>, k: nat, e: Entry)
    requires Grows(before, after) && Distinct(after) && k < |before| && e in after && before[k].id == e.id
    ensures before[k].tool == e.tool && before[k].order == e.order && before[k].createdAt == e.createdAt
  {}

  /** A terminal decision on this very entry, or a sweep after its time is up. */
  predicate Settles(timeout: nat, op: Op, e: Entry) {
    || (op.Decide? && op.id == e.id && op.to.Terminal())
    || (op.Sweep? && TimeIsUp(e, timeout, op.now))
  }

  lemma EntryDecided(q: Queue, id: string, to: State, reason: Option<string>, now: int, i: nat)
    requires Distinct(q.entries) && i < |q.entries|
    ensures var after := Decided(q, None, id, to, reason, now).0.entries;
            && i < |after|
            && (after[i].state.Pending? <==>
                  q.entries[i].state.Pending? && !(id == q.entries[i].id && to.Terminal()))
  {
    hide Find, Send;
    FindFirst(q.entries, id);
  }

  lemma EntrySwept(q: Queue, timeout: nat, now: int, i: nat)
    requires i < |q.entries|
    ensures var after := Swept(q, Full(timeout), now).entries;
            && i < |after|
            && (after[i].state.Pending? <==>
                  q.entries[i].state.Pending? && !TimeIsUp(q.entries[i], timeout, now))
  {
    hide ExpireAll, SendExpiries;
    ExpireAllAt(q.entries, timeout, now, i);
  }

  lemma EntryStep(q: Queue, timeout: nat, op: Op, i: nat)
    requires Ledger(q) && i < |q.entries|
    ensures var after := Step(q, Full(timeout), op).0.entries;
            && i < |after| && SameRequest(q.entries[i], after[i])
            && (after[i].state.Pending? <==> q.entries[i].state.Pending? && !Settles(timeout, op, q.entries[i]))
  {
    StepGrows(q, timeout, op);
    LedgerIsDistinct(q);
    hide Ledger, Decided, Swept, Distinct, Id, SummaryOf, TimeIsUp;
    match op
    case Decide(id, to, reason, now) => EntryDecided(q, id, to, reason, now, i);
    case Sweep(now) => EntrySwept(q, timeout, now, i);
    case _ =>
  }

  /** A pending entry stays pending exactly as long as no call settles it. */
  lemma {:induction false} PendingExactly(timeout: nat, ops: seq<Op>, more: seq<Op>, i: nat)
    requires i < |Run(Full(timeout), ops).entries| && Run(Full(timeout), ops).entries[i].state.Pending?
    ensures var before, after := Run(Full(timeout), ops).entries, Run(Full(timeout), ops + more).entries;
            && i < |after| && SameRequest(before[i], after[i])
            && (after[i].state.Pending? <==> forall k :: 0 <= k < |more| ==> !Settles(timeout, more[k], before[i]))
    decreases |more|
  {
    hide Step, Run, Settles, Ledger;
    if more == [] {
      AppendNil(ops);
    } else {
      var init, last := more[..|more| - 1], more[|more| - 1];
      assert more == init + [last];
      Assoc(ops, init, [last]);
      PendingExactly(timeout, ops, init, i);
      RunKeepsLedger(timeout, ops + init);
      RunPush(Full(timeout), ops + init, last);
      EntryStep(Run(Full(timeout), ops + init), timeout, last, i);
      SettlesAlike(timeout, last, Run(Full(timeout), ops).entries[i], Run(Full(timeout), ops + init).entries[i]);
    }
  }

  lemma SettlesAlike(timeout: nat, op: Op, a: Entry, b: Entry)
    requires SameRequest(a, b)
    ensures Settles(timeout, op, a) <==> Settles(timeout, op, b)
  {}

  /**
   At every point of every run, a decided entry is listed exactly if fewer than 50 decided entries
   stand behind it in the queue of everything that was ever enqueued.
   */
  lemma ListedExactly(timeout: nat, ops: seq<Op>, i: nat)
    requires var es := Run(Full(timeout), ops).entries; i < |es| && es[i].state.Terminal()
    ensures var es := Run(Full(timeout), ops).entries;
            HasId(Run(Real(timeout), ops).entries, es[i].id) <==> Behind(es, i) < 50
  {
    hide Run, Keep, Terminals, Ledger, HasId;
    StoreRefines(timeout, ops);
    RunKeepsLedger(timeout, ops);
    LedgerIsDistinct(Run(Full(timeout), ops));
    KeptById(Run(Full(timeout), ops).entries, RETAIN, i);
  }

  /**
   Right after a decision, with no call in between, the entry is listed exactly if fewer than 50
   decided entries stand behind it.
   */
  lemma JustDecidedIsListed(timeout: nat, ops: seq<Op>, id: string, to: State, reason: Option<string>, now: int)
    requires var q := Run(Real(timeout), ops);
             Decided(q, Some(RETAIN), id, to, reason, now).1 == Ok(true)
    ensures var q := Run(Real(timeout), ops);
            && Find(q.entries, id) < |q.entries|
            && (HasId(Decided(q, Some(RETAIN), id, to, reason, now).0.entries, id) <==>
                Behind(q.entries, Find(q.entries, id)) < RETAIN)
  {
    hide Run, Keep, Terminals, Find, Survivors;
    var q := Run(Real(timeout), ops);
    StoreInvariant(timeout, ops);
    var i := Find(q.entries, id);
    var decided := q.entries[i := q.entries[i].(state := to, decidedAt := Some(now), reason := reason)];
    assert decided[i + 1..] == q.entries[i + 1..];
    KeptById(decided, RETAIN, i);
  }

  /** With distinct ids, a decided entry's id is still there after a trim exactly if the entry is. */
  lemma KeptById(es: seq<Entry>, n: nat, i: nat)
    requires Distinct(es) && i < |es| && es[i].state.Terminal()
    ensures HasId(Keep(es, n), es[i].id) <==> Behind(es, i) < n
  {
    hide Keep, Behind;
    var at := KeepIsSubsequence(es, n);
    var kept := Keep(es, n);
    if i in at {
      var j :| 0 <= j < |at| && at[j] == i;
      assert kept[j].id == es[i].id;
    }
    if HasId(kept, es[i].id) {
      var j :| 0 <= j < |kept| && kept[j].id == es[i].id;
      assert es[at[j]].id == es[i].id && at[j] == i;
    }
  }

  // ---- an entry that vanishes ----

  /** One request that is left pending, and then `n` requests that are denied one by one. */
  function Neglected(order: Order, n: nat): seq<Op> {
    var ask := Enqueue(0, 0, "place_order", order);
    if n == 0 then [ask] else Neglected(order, n - 1) + [ask] + [Decide(Id(0, n + 1), Denied, None, 0)]
  }

  /** A pending entry in front of decided ones. */
  predicate PendingInFront(es: seq<Entry>) {
    es != [] && es[0].state.Pending? && forall k :: 1 <= k < |es| ==> es[k].state.Terminal()
  }

  lemma {:induction false} AllDecided(es: seq<Entry>)
    requires forall k :: 0 <= k < |es| ==> es[k].state.Terminal()
    ensures Terminals(es) == |es|
  {
    if es != [] { AllDecided(es[..|es| - 1]); }
  }

  lemma {:induction false} CountBehindFront(es: seq<Entry>)
    requires PendingInFront(es)
    ensures Terminals(es) == |es| - 1 && Behind(es, 0) == |es| - 1
  {
    AllDecided(es[1..]);
    if |es| > 1 { CountBehindFront(es[..|es| - 1]); }
  }

  lemma {:induction false} NeglectedState(timeout: nat, order: Order, n: nat)
    requires n <= RETAIN
    ensures var q := Run(Real(timeout), Neglected(order, n));
            && |q.entries| == n + 1 && q.seqNo == n + 1
            && PendingInFront(q.entries) && q.entries[0].id == Id(0, 1)
  {
    hide Id, SummaryOf, Run, PendingInFront, Decided, Enqueued;
    var ask := Enqueue(0, 0, "place_order", order);
    if n == 0 {
      RunEmpty(Real(timeout));
      RunPush(Real(timeout), [], ask);
      AppendNil([ask]);
      AskFirst(order);
    } else {
      NeglectedState(timeout, order, n - 1);
      var before := Neglected(order, n - 1);
      var q := Run(Real(timeout), before);
      RunPush(Real(timeout), before, ask);
      RunPush(Real(timeout), before + [ask], Decide(Id(0, n + 1), Denied, None, 0));
      StoreInvariant(timeout, before + [ask]);
      AskNext(q, order, n);
      DenyTheLast(Enqueued(q, 0, 0, "place_order", order), n);
    }
  }

  lemma AskFirst(order: Order)
    ensures var q := Enqueued(EMPTY, 0, 0, "place_order", order);
            |q.entries| == 1 && q.seqNo == 1 && PendingInFront(q.entries) && q.entries[0].id == Id(0, 1)
  {
    hide Id, SummaryOf;
  }

  lemma AskNext(q: Queue, order: Order, n: nat)
    requires n >= 1 && |q.entries| == n && q.seqNo == n
    ensures var r := Enqueued(q, 0, 0, "place_order", order);
            && |r.entries| == n + 1 && r.seqNo == n + 1 && r.entries[..n] == q.entries
            && r.entries[0] == q.entries[0]
            && r.entries[n].state.Pending? && r.entries[n].id == Id(0, n + 1)
  {
    hide Id, SummaryOf;
  }

  lemma RunEmpty(limits: Limits)
    ensures Run(limits, []) == EMPTY
  {}

  /** Denying the pending last entry of at most 51 leaves all of them in place. */
  lemma DenyTheLast(q: Queue, n: nat)
    requires 1 <= n <= RETAIN && |q.entries| == n + 1 && Distinct(q.entries)
    requires PendingInFront(q.entries[..n]) && q.entries[n].state.Pending? && q.entries[n].id == Id(0, n + 1)
    ensures var after := Decided(q, Some(RETAIN), Id(0, n + 1), Denied, None, 0).0;
            && |after.entries| == n + 1 && after.seqNo == q.seqNo
            && PendingInFront(after.entries) && after.entries[0].id == q.entries[0].id
  {
    hide Id, Find, Keep;
    FindFirst(q.entries, Id(0, n + 1));
    var es := q.entries[n := q.entries[n].(state := Denied, decidedAt := Some(0), reason := None)];
    CountBehindFront(es);
    KeepAll(es, RETAIN);
  }

  /** With 50 denied requests behind it, the first one is approved, answered with success, and gone. */
  lemma JustDecidedCanVanish(timeout: nat, order: Order)
    ensures var q := Run(Real(timeout), Neglected(order, RETAIN));
            var (after, r) := Decided(q, Some(RETAIN), Id(0, 1), Approved, None, 0);
            r == Ok(true) && !HasId(after.entries, Id(0, 1))
  {
    hide Id, Run, HasId, Neglected, Keep;
    var q := Run(Real(timeout), Neglected(order, RETAIN));
    NeglectedState(timeout, order, RETAIN);
    CountBehindFront(q.entries);
    assert Find(q.entries, Id(0, 1)) == 0;
    JustDecidedIsListed(timeout, Neglected(order, RETAIN), Id(0, 1), Approved, None, 0);
  }

  /** Settling the last entry as well drops the first one, if it is decided and 50 others stand behind it. */
  lemma LastDropsFirst(q: Queue, id: string)
    requires Distinct(q.entries) && |q.entries| == RETAIN + 1 && q.entries[RETAIN].id == id
    requires q.entries[RETAIN].state.Pending? && forall k :: 0 <= k < RETAIN ==> q.entries[k].state.Terminal()
    ensures var (after, r) := Decided(q, Some(RETAIN), id, Approved, None, 0);
            r == Ok(true) && !HasId(after.entries, q.entries[0].id)
  {
    hide Find, Keep, HasId, Send;
    FindFirst(q.entries, id);
    var es := q.entries[RETAIN := q.entries[RETAIN].(state := Approved, decidedAt := Some(0), reason := None)];
    AllDecided(es[1..]);
    KeptById(es, RETAIN, 0);
  }

  /**
   Two approvals can cross: the first is answered with success and still listed, another operator
   approves one more request, and when the first answer looks its entry up, the entry is gone.
   */
  lemma CrossingApprovalsVanish(timeout: nat, order: Order)
    ensures var ops := Neglected(order, RETAIN - 1) + [Enqueue(0, 0, "place_order", order)];
            var q := Run(Real(timeout), ops);
            var (first, r) := Decided(q, Some(RETAIN), Id(0, 1), Approved, None, 0);
            var (second, t) := Decided(first, Some(RETAIN), Id(0, RETAIN + 1), Approved, None, 0);
            && r == t == Ok(true) && HasId(first.entries, Id(0, 1)) && !HasId(second.entries, Id(0, 1))
  {
    hide Id, Run, HasId, Keep, SummaryOf, Send, PendingInFront, Neglected, Decided, Enqueued;
    var before, ask := Neglected(order, RETAIN - 1), Enqueue(0, 0, "place_order", order);
    NeglectedState(timeout, order, RETAIN - 1);
    RunPush(Real(timeout), before, ask);
    StoreInvariant(timeout, before + [ask]);
    AskNext(Run(Real(timeout), before), order, RETAIN);
    var q := Run(Real(timeout), before + [ask]);
    ApproveTheFirst(q);
    LastDropsFirst(Decided(q, Some(RETAIN), Id(0, 1), Approved, None, 0).0, Id(0, RETAIN + 1));
  }

  lemma ApproveTheFirst(q: Queue)
    requires |q.entries| == RETAIN + 1 && Distinct(q.entries) && PendingInFront(q.entries[..RETAIN])
    requires q.entries[0].id == Id(0, 1) && q.entries[RETAIN].state.Pending?
    ensures var (after, r) := Decided(q, Some(RETAIN), Id(0, 1), Approved, None, 0);
            && r == Ok(true) && Distinct(after.entries) && |after.entries| == RETAIN + 1
            && HasId(after.entries, Id(0, 1)) && after.entries[0].id == Id(0, 1)
            && after.entries[RETAIN] == q.entries[RETAIN]
            && forall k :: 0 <= k < RETAIN ==> after.entries[k].state.Terminal()
  {
    hide Id, Keep, Send;
    var es := q.entries[0 := q.entries[0].(state := Approved, decidedAt := Some(0), reason := None)];
    assert Find(q.entries, Id(0, 1)) == 0;
    assert es[0].id == Id(0, 1) && HasId(es, Id(0, 1));
    AllDecided(es[..RETAIN]);
    assert es == es[..RETAIN] + [es[RETAIN]];
    TerminalsPush(es[..RETAIN], es[RETAIN]);
    KeepAll(es, RETAIN);
  }

  // ---- what a waiting hook is told ----

  /** The value a ticket returns after seeing these values of its channel before its timeout. */
  function Waited(seen: seq<State>): State {
    if seen == [] then Expired
    else if seen[0].Terminal() then seen[0]
    else Waited(seen[1..])
  }

  method Wait(seen: seq<State>) returns (s: State)
    ensures s == Waited(seen) && s.Terminal()
    ensures (forall k :: 0 <= k < |seen| ==> !seen[k].Terminal()) ==> s == Expired
    ensures forall k :: 0 <= k < |seen| && seen[k].Terminal() && (forall j :: 0 <= j < k ==> !seen[j].Terminal()) ==>
              s == seen[k]
  {
    for i := 0 to |seen|
      invariant Waited(seen) == Waited(seen[i..])
      invariant forall j :: 0 <= j < i ==> !seen[j].Terminal()
    {
      assert seen[i..][1..] == seen[i + 1..];
      if seen[i].Terminal() {
        return seen[i];
      }
    }
    assert seen[|seen|..] == [];
    s := Expired;
  }

  /** Call k is a decision on `id` that took effect. */
  ghost predicate ResolvedAt(limits: Limits, ops: seq<Op>, k: nat, id: string, to: State)
    requires k < |ops|
  {
    ops[k].Decide? && ops[k].id == id && ops[k].to == to && OutcomeOf(limits, ops, k) == Decision(Ok(true))
  }

  ghost predicate Resolved(limits: Limits, ops: seq<Op>, id: string, to: State) {
    exists k :: 0 <= k < |ops| && ResolvedAt(limits, ops, k, id, to)
  }

  /** A decision took effect on `id` in this step. */
  predicate Takes(q: Queue, limits: Limits, op: Op, id: string) {
    op.Decide? && op.id == id && Step(q, limits, op).1 == Decision(Ok(true))
  }

  /**
   A channel changes its value only while it has a receiver, only from pending, and only by an
   effective decision or by the sweep.
   */
  lemma ChannelMoves(q: Queue, timeout: nat, op: Op, id: string)
    requires Ledger(q) && id in q.sent
    ensures var after, c := Step(q, Full(timeout), op).0.sent, q.sent[id];
            && id in after
            && (Takes(q, Full(timeout), op, id) ==>
                  && c.value == Pending && op.to.Terminal()
                  && after[id] == if c.open then Channel(op.to, true) else c)
            && (!Takes(q, Full(timeout), op, id) ==>
                  || after[id] == c
                  || (c == Channel(Pending, true) && op.Sweep? && after[id] == Channel(Expired, true))
                  || (op == Drop(id) && after[id] == c.(open := false)))
  {
    hide IssuedAs, ExpireAll, SendExpiries, Find, Id;
    LedgerIsDistinct(q);
    match op
    case Enqueue(first, second, tool, order) => FreshId(q, first / 1_000_000);
    case Decide(other, to, reason, now) =>
    case Sweep(now) =>
      var k :| 0 <= k < |q.entries| && q.entries[k].id == id;
      SendsToEntries(q.sent, q.entries, timeout, now);
      SendsOne(q.sent, q.entries, timeout, now, k);
    case Drop(other) =>
  }

  lemma NewChannel(q: Queue, timeout: nat, op: Op, id: string)
    requires Ledger(q) && id !in q.sent && id in Step(q, Full(timeout), op).0.sent
    ensures Step(q, Full(timeout), op).0.sent[id] == Channel(Pending, true) && !Takes(q, Full(timeout), op, id)
  {
    hide IssuedAs, ExpireAll, SendExpiries, Find, Id;
    if op.Sweep? {
      SendsToEntries(q.sent, q.entries, timeout, op.now);
    }
  }

  /** Call k took effect on `id` while its ticket was still there. */
  ghost predicate DeliveredAt(limits: Limits, ops: seq<Op>, k: nat, id: string, to: State)
    requires k < |ops|
  {
    ResolvedAt(limits, ops, k, id, to) && IsOpen(Run(limits, ops[..k]).sent, id)
  }

  ghost predicate Delivered(limits: Limits, ops: seq<Op>, id: string, to: State) {
    exists k :: 0 <= k < |ops| && DeliveredAt(limits, ops, k, id, to)
  }

  lemma DeliveredPush(limits: Limits, init: seq<Op>, op: Op, id: string, to: State)
    ensures var q := Run(limits, init);
            Delivered(limits, init + [op], id, to) <==>
            Delivered(limits, init, id, to) || (Takes(q, limits, op, id) && op.to == to && IsOpen(q.sent, id))
  {
    hide Step, Run;
    var ops := init + [op];
    assert ops[..|init|] == init;
    forall k | 0 <= k < |init|
      ensures DeliveredAt(limits, ops, k, id, to) <==> DeliveredAt(limits, init, k, id, to)
    {
      assert ops[..k] == init[..k];
    }
    if Takes(Run(limits, init), limits, op, id) && op.to == to && IsOpen(Run(limits, init).sent, id) {
      assert DeliveredAt(limits, ops, |init|, id, to);
    }
    if Delivered(limits, init, id, to) {
      var k :| 0 <= k < |init| && DeliveredAt(limits, init, k, id, to);
      assert DeliveredAt(limits, ops, k, id, to);
    }
  }

  /** One call more: a channel comes to show a decision only by taking it while its ticket is there. */
  lemma ShowsPush(q: Queue, timeout: nat, op: Op, id: string, to: State)
    requires Ledger(q) && (to == Approved || to == Denied)
    ensures Shows(Step(q, Full(timeout), op).0.sent, id, to) <==>
            Shows(q.sent, id, to) || (Takes(q, Full(timeout), op, id) && op.to == to && IsOpen(q.sent, id))
  {
    hide Step, Ledger, Takes;
    if id in q.sent {
      ChannelMoves(q, timeout, op, id);
      TakenIsDecided(q, timeout, op, id);
    } else {
      if id in Step(q, Full(timeout), op).0.sent { NewChannel(q, timeout, op, id); }
      UnknownIsNotTaken(q, timeout, op, id);
    }
  }

  lemma TakenIsDecided(q: Queue, timeout: nat, op: Op, id: string)
    ensures Takes(q, Full(timeout), op, id) ==> op.Decide?
  {
    hide Step;
  }

  lemma {:induction false} FullChannelSays(timeout: nat, ops: seq<Op>, id: string, to: State)
    requires to == Approved || to == Denied
    ensures Shows(Run(Full(timeout), ops).sent, id, to) <==> Delivered(Full(timeout), ops, id, to)
  {
    if ops != [] {
      hide Step, Run, Ledger, Delivered, Shows, Takes, IsOpen;
      var init, op := ops[..|ops| - 1], ops[|ops| - 1];
      var q := Run(Full(timeout), init);
      assert ops == init + [op];
      FullChannelSays(timeout, init, id, to);
      RunKeepsLedger(timeout, init);
      RunPush(Full(timeout), init, op);
      DeliveredPush(Full(timeout), init, op, id, to);
      ShowsPush(q, timeout, op, id, to);
    } else {
      NothingDelivered(Full(timeout), id, to);
    }
  }

  lemma NothingDelivered(limits: Limits, id: string, to: State)
    ensures !Shows(Run(limits, []).sent, id, to) && !Delivered(limits, [], id, to)
  {}

  lemma UnknownIsNotTaken(q: Queue, timeout: nat, op: Op, id: string)
    requires Ledger(q) && id !in q.sent
    ensures !Takes(q, Full(timeout), op, id)
  {
    hide Find;
  }

  /**
   A channel shows Approved (or Denied) exactly if an effective decision to that state was made on
   its id while its ticket was still there.
   */
  lemma ChannelSays(timeout: nat, ops: seq<Op>, id: string, to: State)
    requires to == Approved || to == Denied
    ensures Shows(Run(Real(timeout), ops).sent, id, to) <==> Delivered(Real(timeout), ops, id, to)
    ensures Shows(Run(Real(timeout), ops).sent, id, to) ==> Resolved(Real(timeout), ops, id, to)
  {
    hide Run, Step, OutcomeOf;
    StoreRefines(timeout, ops);
    FullChannelSays(timeout, ops, id, to);
    forall k | 0 <= k < |ops|
      ensures DeliveredAt(Real(timeout), ops, k, id, to) <==> DeliveredAt(Full(timeout), ops, k, id, to)
    {
      AnswersAlike(timeout, ops, k);
      StoreRefines(timeout, ops[..k]);
    }
  }

  /** What the ticket for `id` saw of its channel when it looked after `at[j]` calls. */
  ghost predicate Saw(timeout: nat, ops: seq<Op>, id: string, at: seq<nat>, seen: seq<State>) {
    && |seen| == |at|
    && (forall j :: 0 <= j < |at| ==>
          at[j] <= |ops| && Shows(Run(Real(timeout), ops[..at[j]]).sent, id, seen[j]))
  }

  lemma {:induction false} WaitedWasSeen(seen: seq<State>)
    ensures Waited(seen) == Expired || Waited(seen) in seen
  {
    if seen != [] && !seen[0].Terminal() {
      WaitedWasSeen(seen[1..]);
    }
  }

  lemma ResolvedLonger(limits: Limits, ops: seq<Op>, n: nat, id: string, to: State)
    requires n <= |ops|
    ensures Resolved(limits, ops[..n], id, to) ==> Resolved(limits, ops, id, to)
  {
    hide Step, Run;
    if Resolved(limits, ops[..n], id, to) {
      var k :| 0 <= k < n && ResolvedAt(limits, ops[..n], k, id, to);
      assert ops[..n][..k] == ops[..k];
      assert ResolvedAt(limits, ops, k, id, to);
    }
  }

  /** A hook is told Approved only if an operator's approval of its own entry took effect before. */
  lemma TicketNeedsApproval(timeout: nat, ops: seq<Op>, id: string, at: seq<nat>, seen: seq<State>)
    requires Saw(timeout, ops, id, at, seen) && Waited(seen) == Approved
    ensures Resolved(Real(timeout), ops, id, Approved)
  {
    hide Run, Resolved;
    WaitedWasSeen(seen);
    var j :| 0 <= j < |seen| && seen[j] == Approved;
    ChannelSays(timeout, ops[..at[j]], id, Approved);
    ResolvedLonger(Real(timeout), ops, at[j], id, Approved);
  }
}
