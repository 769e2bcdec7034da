/**
 The approval queue (crates/server/src/approvals.rs): pending orders, operator decisions, the expiry
 sweep, and the trimming of old decided entries.
 */
module Approvals {
  import opened Wrappers
  import opened Seqs
  import opened Text
  import opened Orders

  datatype State = Pending | Approved | Denied | Expired {
    predicate Terminal() { !Pending? }
  }

  datatype Summary = Summary(symbol: string, side: string, qty: real, limitPrice: Option<real>, reason: string)

  function SummaryOf(o: Order): Summary {
    Summary(o.symbol, if o.side.Buy? then "buy" else "sell", o.qty, o.limitPrice, o.reason)
  }

  datatype Entry = Entry(
    id: string, state: State, tool: string, order: Summary,
    createdAt: int, decidedAt: Option<int>, reason: Option<string>)

  /** A watch channel: the value it shows, and whether its one receiver, the ticket, still exists. */
  datatype Channel = Channel(value: State, open: bool)

  type Channels = map<string, Channel>

  /** Sending to a channel without a receiver fails and stores nothing; the result is ignored. */
  function Send(sent: Channels, id: string, value: State): Channels {
    if id in sent && sent[id].open then sent[id := Channel(value, true)] else sent
  }

  predicate Shows(sent: Channels, id: string, value: State) {
    id in sent && sent[id].value == value
  }

  predicate IsOpen(sent: Channels, id: string) {
    id in sent && sent[id].open
  }

  /** The queue, the id counter, and the channel of every id. */
  datatype Queue = Queue(entries: seq<Entry>, seqNo: nat, sent: Channels)

  const EMPTY := Queue([], 0, map[])

  /** How many decided entries the store keeps. */
  const RETAIN: nat := 50

  /** The longest time that fits the signed milliseconds of the clock library, in nanoseconds. */
  const LONGEST: nat := 0x7FFF_FFFF_FFFF_FFFF * 1_000_000

  function Id(millis: int, seqNo: nat): string {
    "apr-" + Show(millis) + "-" + Decimal(seqNo)
  }

  // ---- the state machine the methods are proved against ----

  /** `limit` is how many decided entries survive a trim; `None` never trims. */
  datatype Limits = Limits(timeout: nat, limit: Option<nat>)

  function Terminals(es: seq<Entry>): (n: nat) {
    if es == [] then 0
    else Terminals(es[..|es| - 1]) + if es[|es| - 1].state.Terminal() then 1 else 0
  }

  /** Every pending entry and the last `n` decided ones, in their order. */
  function Keep(es: seq<Entry>, n: nat): seq<Entry> {
    if es == [] then []
    else
      var init, last := es[..|es| - 1], es[|es| - 1];
      if !last.state.Terminal() then Keep(init, n) + [last]
      else if n > 0 then Keep(init, n - 1) + [last]
      else Keep(init, 0)
  }

  function Trimmed(es: seq<Entry>, limit: Option<nat>): seq<Entry> {
    match limit
    case Some(n) => Keep(es, n)
    case None => es
  }

  /** The index of the first entry with this id, or the length. */
  function Find(es: seq<Entry>, id: string): (i: nat)
    ensures i <= |es| && (i < |es| ==> es[i].id == id)
  {
    if es == [] || es[0].id == id then 0 else 1 + Find(es[1..], id)
  }

  function Enqueued(q: Queue, first: int, second: int, tool: string, order: Order): Queue {
    var id := Id(first / 1_000_000, q.seqNo + 1);
    Queue(q.entries + [Entry(id, Pending, tool, SummaryOf(order), second, None, None)],
          q.seqNo + 1, q.sent[id := Channel(Pending, true)])
  }

  function Decided(q: Queue, limit: Option<nat>, id: string, to: State, reason: Option<string>, now: int)
    : (Queue, Result<bool, string>)
  {
    if !to.Terminal() then (q, Err("decision state must be terminal"))
    else
      var i := Find(q.entries, id);
      if i == |q.entries| || q.entries[i].state.Terminal() then (q, Ok(false))
      else
        var e := q.entries[i].(state := to, decidedAt := Some(now), reason := reason);
        (q.(entries := Trimmed(q.entries[i := e], limit), sent := Send(q.sent, id, to)), Ok(true))
  }

  function Cutoff(timeout: nat): nat {
    if timeout <= LONGEST then timeout else 0
  }

  predicate Stale(e: Entry, timeout: nat, now: int) {
    e.state.Pending? && now - e.createdAt > Cutoff(timeout)
  }

  /** More time has passed since the entry's creation than the timeout, or any, if the timeout is too long to count. */
  predicate TimeIsUp(e: Entry, timeout: nat, now: int) {
    now - e.createdAt > if timeout <= 9_223_372_036_854_775_807_000_000 then timeout else 0
  }

  function Expire(e: Entry, timeout: nat, now: int): Entry {
    if Stale(e, timeout, now) then e.(state := Expired, decidedAt := Some(now)) else e
  }

  function ExpireAll(es: seq<Entry>, timeout: nat, now: int): (r: seq<Entry>)
    ensures |r| == |es|
  {
    if es == [] then []
    else ExpireAll(es[..|es| - 1], timeout, now) + [Expire(es[|es| - 1], timeout, now)]
  }

  function SendExpiries(sent: Channels, es: seq<Entry>, timeout: nat, now: int): Channels {
    if es == [] then sent
    else
      var before := SendExpiries(sent, es[..|es| - 1], timeout, now);
      if Stale(es[|es| - 1], timeout, now) then Send(before, es[|es| - 1].id, Expired) else before
  }

  function Swept(q: Queue, limits: Limits, now: int): Queue {
    q.(entries := Trimmed(ExpireAll(q.entries, limits.timeout, now), limits.limit),
       sent := SendExpiries(q.sent, q.entries, limits.timeout, now))
  }

  /** The ticket is gone: it returned, timed out, or its caller gave up. */
  function Dropped(q: Queue, id: string): Queue {
    if id in q.sent then q.(sent := q.sent[id := q.sent[id].(open := false)]) else q
  }

  // ---- the store ----

  datatype Ticket = Ticket(id: string, timeout: nat)

  class ApprovalStore {
    const timeout: nat
    var entries: seq<Entry>
    var seqNo: nat
    var sent: Channels

    ghost function View(): Queue
      reads this
    {
      Queue(entries, seqNo, sent)
    }

    constructor (timeout: nat)
      ensures View() == EMPTY && this.timeout == timeout
    {
      this.timeout := timeout;
      entries, seqNo, sent := [], 0, map[];
    }

    /** `first` and `second` are the two clock readings, in nanoseconds. */
    method Enqueue(first: int, second: int, tool: string, order: Order) returns (t: Ticket)
      modifies this
      ensures View() == Enqueued(old(View()), first, second, tool, order)
      ensures t == Ticket(Id(first / 1_000_000, seqNo), timeout)
    {
      seqNo := seqNo + 1;
      var id := Id(first / 1_000_000, seqNo);
      sent := sent[id := Channel(Pending, true)];
      entries := entries + [Entry(id, Pending, tool, SummaryOf(order), second, None, None)];
      t := Ticket(id, timeout);
    }

    method Decide(id: string, to: State, reason: Option<string>, now: int) returns (r: Result<bool, string>)
      modifies this
      ensures (View(), r) == Decided(old(View()), Some(RETAIN), id, to, reason, now)
    {
      if !to.Terminal() {
        return Err("decision state must be terminal");
      }
      var i := 0;
      while i < |entries| && entries[i].id != id
        invariant i <= |entries|
        invariant Find(entries, id) == i + Find(entries[i..], id)
      {
        assert entries[i..][1..] == entries[i + 1..];
        i := i + 1;
      }
      if i == |entries| {
        return Ok(false);
      }
      if entries[i].state.Terminal() {
        return Ok(false);
      }
      entries := entries[i := entries[i].(state := to, decidedAt := Some(now), reason := reason)];
      sent := Send(sent, id, to);
      Trim();
      r := Ok(true);
    }

    method SweepExpired(now: int)
      modifies this
      ensures View() == Swept(old(View()), Limits(timeout, Some(RETAIN)), now)
    {
      hide ExpireAll, SendExpiries, Keep, Send;
      var cutoff := if timeout <= LONGEST then timeout else 0;
      ghost var was, channels := entries, sent;
      SweepDone(timeout, now, channels);
      for i := 0 to |entries|
        invariant |entries| == |was| && seqNo == old(seqNo)
        invariant entries == ExpireAll(was[..i], timeout, now) + was[i..]
        invariant sent == SendExpiries(channels, was[..i], timeout, now)
      {
        SweepStep(was, i, timeout, now, channels);
        ReplaceNext(ExpireAll(was[..i], timeout, now), was, Expire(was[i], timeout, now));
        Unreplaced(entries, i);
        if entries[i].state == Pending && now - entries[i].createdAt > cutoff {
          sent := Send(sent, entries[i].id, Expired);
          entries := entries[i := entries[i].(state := Expired, decidedAt := Some(now))];
        }
      }
      assert was[..|was|] == was && was[|was|..] == [];
      AppendNil(ExpireAll(was, timeout, now));
      Trim();
    }

    /** The ticket for `id` goes out of scope, and the receiver of its channel with it. */
    method DropTicket(id: string)
      modifies this`sent
      ensures View() == Dropped(old(View()), id)
    {
      if id in sent {
        sent := sent[id := sent[id].(open := false)];
      }
    }

    /** Collect the indices of decided entries, mark all but the last 50, and drop the marked ones. */
    method Trim()
      modifies this`entries
      ensures entries == Keep(old(entries), RETAIN)
    {
      hide Keep, Terminals, DecidedIndices;
      var decided: seq<nat> := [];
      NoIndices(entries);
      for i := 0 to |entries|
        invariant entries == old(entries)
        invariant DecidedIndices(entries, i, decided)
      {
        IndicesStep(entries, i, decided);
        if entries[i].state.Terminal() {
          decided := decided + [i];
        }
      }
      assert entries[..|entries|] == entries;
      IndexCount(entries, decided);
      if |decided| > RETAIN {
        var cut := |decided| - RETAIN;
        var drop := set j | 0 <= j < cut :: decided[j];
        var kept := [];
        KeepNone();
        for i := 0 to |entries|
          invariant entries == old(entries)
          invariant kept == Keep(entries[..i], Surplus(Terminals(entries[..i]), cut))
        {
          KeepStep(entries, i, cut);
          DroppedIff(entries, decided, i, cut, drop);
          if i !in drop {
            kept := kept + [entries[i]];
          }
        }
        entries := kept;
      } else {
        KeepAll(entries, RETAIN);
      }
    }
  }

  lemma Unreplaced<T>(s: seq<T>, i: nat)
    requires i < |s|
    ensures s[i := s[i]] == s
  {}

  lemma SweepDone(timeout: nat, now: int, sent: Channels)
    ensures ExpireAll([], timeout, now) == [] && SendExpiries(sent, [], timeout, now) == sent
  {}

  lemma SweepStep(es: seq<Entry>, i: nat, timeout: nat, now: int, sent: Channels)
    requires i < |es|
    ensures ExpireAll(es[..i + 1], timeout, now) == ExpireAll(es[..i], timeout, now) + [Expire(es[i], timeout, now)]
    ensures var before := SendExpiries(sent, es[..i], timeout, now);
            SendExpiries(sent, es[..i + 1], timeout, now) ==
            if Stale(es[i], timeout, now) then Send(before, es[i].id, Expired) else before
  {
    assert es[..i + 1][..i] == es[..i];
  }

  function Surplus(n: nat, cut: nat): nat {
    if n > cut then n - cut else 0
  }

  /** `decided` lists the indices below `n` of decided entries, in order. */
  ghost predicate DecidedIndices(es: seq<Entry>, n: nat, decided: seq<nat>) {
    && n <= |es| && |decided| == Terminals(es[..n])
    && (forall j :: 0 <= j < |decided| ==>
          decided[j] < n && es[decided[j]].state.Terminal() && Terminals(es[..decided[j]]) == j)
    && (forall k :: 0 <= k < n && es[k].state.Terminal() ==>
          Terminals(es[..k]) < |decided| && decided[Terminals(es[..k])] == k)
  }

  lemma PrefixStep(es: seq<Entry>, i: nat)
    requires i < |es|
    ensures Terminals(es[..i + 1]) == Terminals(es[..i]) + if es[i].state.Terminal() then 1 else 0
  {
    assert es[..i + 1][..i] == es[..i];
  }

  lemma NoIndices(es: seq<Entry>)
    ensures DecidedIndices(es, 0, [])
  {}

  lemma IndicesStep(es: seq<Entry>, i: nat, decided: seq<nat>)
    requires i < |es| && DecidedIndices(es, i, decided)
    ensures DecidedIndices(es, i + 1, if es[i].state.Terminal() then decided + [i] else decided)
  {
    hide Terminals;
    PrefixStep(es, i);
  }

  lemma IndexCount(es: seq<Entry>, decided: seq<nat>)
    requires DecidedIndices(es, |es|, decided)
    ensures |decided| == Terminals(es)
  {
    assert es[..|es|] == es;
  }

  lemma KeepNone()
    ensures Keep([], 0) == [] && Terminals([]) == 0
  {}

  lemma KeepStep(es: seq<Entry>, i: nat, cut: nat)
    requires i < |es|
    ensures var before := Terminals(es[..i]);
            Keep(es[..i + 1], Surplus(Terminals(es[..i + 1]), cut)) ==
            if es[i].state.Terminal() && before < cut then Keep(es[..i], Surplus(before, cut))
            else Keep(es[..i], Surplus(before, cut)) + [es[i]]
  {
    PrefixStep(es, i);
    assert es[..i + 1][..i] == es[..i];
  }

  lemma DroppedIff(es: seq<Entry>, decided: seq<nat>, i: nat, cut: nat, drop: set<nat>)
    requires DecidedIndices(es, |es|, decided) && i < |es| && cut <= |decided|
    requires drop == set j | 0 <= j < cut :: decided[j]
    ensures i in drop <==> es[i].state.Terminal() && Terminals(es[..i]) < cut
  {
    hide Terminals;
    if es[i].state.Terminal() && Terminals(es[..i]) < cut {
      assert decided[Terminals(es[..i])] == i;
    }
  }

  lemma {:induction false} KeepAll(es: seq<Entry>, n: nat)
    requires Terminals(es) <= n
    ensures Keep(es, n) == es
  {
    if es != [] {
      var init, last := es[..|es| - 1], es[|es| - 1];
      assert es == init + [last];
      if last.state.Terminal() {
        KeepAll(init, n - 1);
      } else {
        KeepAll(init, n);
      }
    }
  }
}
