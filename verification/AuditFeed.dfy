/**
 The live audit feed from the server's cursor (crates/server/src/routes.rs, `get_events`) over the
 SSE stream to the dashboard's window (frontend/src/pages/DashboardPage.tsx, `onBatch`).
 */
module AuditFeed {
  import opened Wrappers
  import opened Seqs
  import opened Text
  import opened AuditChain
  import opened SseFrames

  // ---- the server's cursor ----

  /** How many rows one poll reads, and how many the dashboard keeps. */
  const TAIL: nat := 200

  /** Rows are numbered from 1 without gaps, as in every verifying table. */
  predicate Numbered(rows: seq<Row>) {
    forall i :: 0 <= i < |rows| ==> rows[i].seqNo == i + 1
  }

  lemma VerifyingTableIsNumbered(h: Digest, rows: seq<Row>)
    requires Verifies(h, rows)
    ensures Numbered(rows)
  {
    forall i | 0 <= i < |rows|
      ensures rows[i].seqNo == i + 1
    {
      assert RowOk(h, rows, i);
    }
  }

  function Newer(rows: seq<Row>, since: int): seq<Row> {
    if rows == [] then []
    else (if rows[0].seqNo > since then [rows[0]] else []) + Newer(rows[1..], since)
  }

  function MaxSeq(rows: seq<Row>, floor: int): int {
    if rows == [] then floor
    else MaxSeq(rows[1..], if rows[0].seqNo > floor then rows[0].seqNo else floor)
  }

  /** What one tick sends; `None` is a read that failed and counts as no rows. */
  function Fresh(table: Option<seq<Row>>, since: int): seq<Row> {
    match table
    case Some(rows) => Newer(Tail(rows, TAIL), since)
    case None => []
  }

  /** One open stream: the sequence number up to which rows were sent. */
  class Connection {
    var lastSeq: int

    constructor ()
      ensures lastSeq == 0
    {
      lastSeq := 0;
    }

    method Tick(table: Option<seq<Row>>) returns (news: seq<Row>)
      modifies this
      ensures news == Fresh(table, old(lastSeq))
      ensures lastSeq == MaxSeq(news, old(lastSeq))
    {
      hide Newer, MaxSeq, Tail;
      var rows := if table.Some? then Tail(table.value, TAIL) else [];
      var since := lastSeq;
      news := [];
      NewerDone(since);
      for i := 0 to |rows|
        invariant Newer(rows, since) == news + Newer(rows[i..], since)
        invariant lastSeq == since
      {
        NewerStep(rows, i, since, news);
        if rows[i].seqNo > since {
          news := news + [rows[i]];
        }
      }
      AppendNil(news);
      assert rows[|rows|..] == [];
      for i := 0 to |news|
        invariant MaxSeq(news, since) == MaxSeq(news[i..], lastSeq)
      {
        MaxStep(news, i, lastSeq);
        if news[i].seqNo > lastSeq {
          lastSeq := news[i].seqNo;
        }
      }
      MaxDone(news, lastSeq);
    }
  }

  lemma NewerDone(since: int)
    ensures Newer([], since) == []
  {}

  lemma NewerStep(rows: seq<Row>, i: nat, since: int, done: seq<Row>)
    requires i < |rows|
    ensures done + Newer(rows[i..], since) ==
            (if rows[i].seqNo > since then done + [rows[i]] else done) + Newer(rows[i + 1..], since)
  {
    assert rows[i..][1..] == rows[i + 1..];
    Assoc(done, [rows[i]], Newer(rows[i + 1..], since));
    AppendNil(Newer(rows[i + 1..], since));
  }

  lemma MaxStep(rows: seq<Row>, i: nat, floor: int)
    requires i < |rows|
    ensures MaxSeq(rows[i..], floor) ==
            MaxSeq(rows[i + 1..], if rows[i].seqNo > floor then rows[i].seqNo else floor)
  {
    assert rows[i..][1..] == rows[i + 1..];
  }

  lemma MaxDone(rows: seq<Row>, floor: int)
    ensures MaxSeq(rows[|rows|..], floor) == floor
  {}

  function Max(a: int, b: int): int {
    if a > b then a else b
  }

  lemma {:induction false} NewerOfRun(table: seq<Row>, from: nat, since: nat)
    requires Numbered(table) && from <= |table| && since <= |table|
    ensures Newer(table[from..], since) == table[Max(from, since)..]
    decreases |table| - from
  {
    if from < |table| {
      var rows := table[from..];
      assert rows[0] == table[from] && rows[1..] == table[from + 1..];
      NewerOfRun(table, from + 1, since);
      if from >= since { assert table[from..] == [table[from]] + table[from + 1..]; }
    } else {
      assert table[from..] == [];
    }
  }

  lemma {:induction false} MaxOfRun(table: seq<Row>, from: nat, floor: nat)
    requires Numbered(table) && from <= |table| && floor <= from
    ensures MaxSeq(table[from..], floor) == if from < |table| then |table| else floor
    decreases |table| - from
  {
    if from < |table| {
      var rows := table[from..];
      assert rows[0] == table[from] && rows[1..] == table[from + 1..];
      MaxOfRun(table, from + 1, from + 1);
    }
  }

  /** A tick sends the rows after the cursor that are still among the last 200, and catches up. */
  lemma TickSends(table: seq<Row>, since: nat)
    requires Numbered(table) && since <= |table|
    ensures Fresh(Some(table), since) == table[Max(since, |table| - 200)..]
    ensures MaxSeq(Fresh(Some(table), since), since) == |table|
  {
    var from := Max(0, |table| - TAIL);
    assert Tail(table, TAIL) == table[from..];
    NewerOfRun(table, from, since);
    MaxOfRun(table, Max(from, since), since);
  }

  /** The polls of one connection; each successful one sees a table that extends the previous. */
  ghost predicate GrowsFrom(table: seq<Row>, polls: seq<Option<seq<Row>>>)
    decreases |polls|
  {
    polls == [] ||
    match polls[0]
    case None => GrowsFrom(table, polls[1..])
    case Some(next) => table <= next && Numbered(next) && GrowsFrom(next, polls[1..])
  }

  /** The table the last successful poll saw. */
  function Final(table: seq<Row>, polls: seq<Option<seq<Row>>>): seq<Row>
    decreases |polls|
  {
    if polls == [] then table
    else Final(if polls[0].Some? then polls[0].value else table, polls[1..])
  }

  /** At most 200 rows land between two successful polls. */
  predicate NoOverrun(table: seq<Row>, polls: seq<Option<seq<Row>>>)
    decreases |polls|
  {
    polls == [] ||
    match polls[0]
    case None => NoOverrun(table, polls[1..])
    case Some(next) => |next| - |table| <= 200 && NoOverrun(next, polls[1..])
  }

  /** Everything a connection sends, tick by tick. */
  function Sent(polls: seq<Option<seq<Row>>>, since: int): seq<seq<Row>> {
    if polls == [] then []
    else
      var news := Fresh(polls[0], since);
      [news] + Sent(polls[1..], MaxSeq(news, since))
  }

  function Rows(batches: seq<seq<Row>>): seq<Row> {
    if batches == [] then [] else batches[0] + Rows(batches[1..])
  }

  predicate Ascending(rows: seq<Row>) {
    forall i, j :: 0 <= i < j < |rows| ==> rows[i].seqNo < rows[j].seqNo
  }

  predicate RowsOf(rows: seq<Row>, table: seq<Row>) {
    forall i :: 0 <= i < |rows| ==> 1 <= rows[i].seqNo <= |table| && rows[i] == table[rows[i].seqNo - 1]
  }

  lemma {:induction false} FinalExtends(table: seq<Row>, polls: seq<Option<seq<Row>>>)
    requires Numbered(table) && GrowsFrom(table, polls)
    ensures table <= Final(table, polls) && Numbered(Final(table, polls))
    decreases |polls|
  {
    if polls != [] {
      FinalExtends(if polls[0].Some? then polls[0].value else table, polls[1..]);
    }
  }

  lemma NothingSent(table: seq<Row>)
    ensures Rows(Sent([], |table|)) == [] && table[|table|..] == [] && Ascending([]) && RowsOf([], table)
  {}

  /** What the first poll adds to what the others send. */
  lemma SentFirst(table: seq<Row>, polls: seq<Option<seq<Row>>>)
    requires Numbered(table) && GrowsFrom(table, polls) && polls != []
    ensures var next := if polls[0].Some? then polls[0].value else table;
            Rows(Sent(polls, |table|)) ==
            (if polls[0].Some? then next[Max(|table|, |next| - TAIL)..] else []) + Rows(Sent(polls[1..], |next|))
  {
    var news := Fresh(polls[0], |table|);
    if polls[0].Some? { TickSends(polls[0].value, |table|); }
    hide Fresh, Numbered;
    var sent := Sent(polls, |table|);
    assert sent[0] == news && sent[1..] == Sent(polls[1..], MaxSeq(news, |table|));
  }

  lemma JoinOrder(news: seq<Row>, later: seq<Row>, end: seq<Row>, n: nat)
    requires Ascending(later) && RowsOf(later, end) && forall i :: 0 <= i < |later| ==> later[i].seqNo > n
    requires |news| <= n <= |end| && Numbered(end)
    requires forall i :: 0 <= i < |news| ==> news[i] == end[n - |news| + i]
    ensures Ascending(news + later) && RowsOf(news + later, end)
    ensures forall i :: 0 <= i < |news + later| ==> (news + later)[i].seqNo > n - |news|
  {
    var sent := news + later;
    assert forall i :: |news| <= i < |sent| ==> sent[i] == later[i - |news|];
  }

  /** One tick's rows in front of everything sent later. */
  lemma JoinSent(since: nat, next: seq<Row>, end: seq<Row>, news: seq<Row>, later: seq<Row>)
    requires since <= |next| <= |end| && next <= end && Numbered(end)
    requires news == next[Max(since, |next| - TAIL)..]
    requires Ascending(later) && RowsOf(later, end) && |later| <= |end| - |next|
    requires forall i :: 0 <= i < |later| ==> later[i].seqNo > |next|
    ensures var sent := news + later;
            && Ascending(sent) && RowsOf(sent, end)
            && (forall i :: 0 <= i < |sent| ==> sent[i].seqNo > since)
            && |sent| <= |end| - since
            && (sent == end[since..] <==> |next| - since <= TAIL && later == end[|next|..])
  {
    var start := Max(since, |next| - TAIL);
    assert forall i :: 0 <= i < |news| ==> news[i] == end[start + i];
    JoinOrder(news, later, end, |next|);
    if start == since {
      assert end[since..] == news + end[|next|..];
      Splits(news, later);
      Splits(news, end[|next|..]);
    }
  }

  /**
   From a caught-up cursor: rows are sent at most once, in strictly increasing order, each as the
   table has it; none is missed if and only if no poll was overrun.
   */
  lemma {:induction false} SentExactly(table: seq<Row>, polls: seq<Option<seq<Row>>>)
    requires Numbered(table) && GrowsFrom(table, polls)
    ensures var sent, end := Rows(Sent(polls, |table|)), Final(table, polls);
            && |table| <= |end|
            && Ascending(sent) && RowsOf(sent, end)
            && (forall i :: 0 <= i < |sent| ==> sent[i].seqNo > |table|)
            && |sent| <= |end| - |table|
            && (sent == end[|table|..] <==> NoOverrun(table, polls))
    decreases |polls|
  {
    hide Ascending, RowsOf, Sent, Rows, Numbered;
    if polls == [] {
      NothingSent(table);
    } else {
      var next := if polls[0].Some? then polls[0].value else table;
      SentExactly(next, polls[1..]);
      FinalExtends(next, polls[1..]);
      SentFirst(table, polls);
      if polls[0].Some? {
        JoinSent(|table|, next, Final(next, polls[1..]), next[Max(|table|, |next| - TAIL)..],
                 Rows(Sent(polls[1..], |next|)));
      } else {
        AppendNil(Rows(Sent(polls[1..], |table|)));
      }
    }
  }

  /** A whole connection: it replays the last 200 rows, and then misses none iff never overrun. */
  lemma ConnectionSends(first: seq<Row>, polls: seq<Option<seq<Row>>>)
    requires Numbered(first) && GrowsFrom(first, polls)
    ensures var sent, end := Rows(Sent([Some(first)] + polls, 0)), Final(first, polls);
            && Ascending(sent) && RowsOf(sent, end)
            && |first| <= |end|
            && (sent == end[Max(0, |first| - TAIL)..] <==> NoOverrun(first, polls))
  {
    TickSends(first, 0);
    SentExactly(first, polls);
    FinalExtends(first, polls);
    FirstTick(first, polls);
    var end, later := Final(first, polls), Rows(Sent(polls, |first|));
    hide Sent, Fresh, Final, Rows, NoOverrun, GrowsFrom;
    var start := Max(0, |first| - TAIL);
    ReplayThenMore(first, end, first[start..], later, start);
  }

  lemma FirstTick(first: seq<Row>, polls: seq<Option<seq<Row>>>)
    requires Numbered(first)
    ensures Rows(Sent([Some(first)] + polls, 0)) ==
            first[Max(0, |first| - TAIL)..] + Rows(Sent(polls, |first|))
  {
    var all := [Some(first)] + polls;
    assert all[1..] == polls;
    TickSends(first, 0);
    var sent := Sent(all, 0);
    assert sent[0] == Fresh(Some(first), 0) && sent[1..] == Sent(polls, |first|);
  }

  lemma ReplayThenMore(first: seq<Row>, end: seq<Row>, replay: seq<Row>, later: seq<Row>, start: nat)
    requires |first| <= |end| && first <= end && Numbered(end)
    requires start == Max(0, |first| - TAIL) && replay == first[start..]
    requires Ascending(later) && RowsOf(later, end) && |later| <= |end| - |first|
    requires forall i :: 0 <= i < |later| ==> later[i].seqNo > |first|
    ensures Ascending(replay + later) && RowsOf(replay + later, end)
    ensures replay + later == end[start..] <==> later == end[|first|..]
  {
    JoinSent(0, first, end, replay, later);
    assert end[start..] == replay + end[|first|..];
    Splits(replay, later);
    Splits(replay, end[|first|..]);
  }

  // ---- the dashboard's window ----

  predicate SeenIn(prev: seq<Row>, seqNo: int) {
    exists i :: 0 <= i < |prev| && prev[i].seqNo == seqNo
  }

  function Unseen(prev: seq<Row>, rows: seq<Row>): seq<Row> {
    if rows == [] then []
    else (if SeenIn(prev, rows[0].seqNo) then [] else [rows[0]]) + Unseen(prev, rows[1..])
  }

  /** Stable insertion: a row goes behind the ones with the same number. */
  function Insert(sorted: seq<Row>, r: Row): seq<Row> {
    if sorted == [] || sorted[|sorted| - 1].seqNo <= r.seqNo then sorted + [r]
    else Insert(sorted[..|sorted| - 1], r) + [sorted[|sorted| - 1]]
  }

  /** The row goes in front of the higher numbers at the end of the list and behind everything else. */
  lemma {:induction false} InsertExactly(sorted: seq<Row>, r: Row) returns (at: nat)
    ensures at <= |sorted| && Insert(sorted, r) == sorted[..at] + [r] + sorted[at..]
    ensures at > 0 ==> sorted[at - 1].seqNo <= r.seqNo
    ensures forall k :: at <= k < |sorted| ==> sorted[k].seqNo > r.seqNo
  {
    at := |sorted|;
    if sorted != [] && sorted[|sorted| - 1].seqNo > r.seqNo {
      var init, last := sorted[..|sorted| - 1], sorted[|sorted| - 1];
      at := InsertExactly(init, r);
      assert sorted[at..] == init[at..] + [last] && sorted[..at] == init[..at];
      Assoc(init[..at] + [r], init[at..], [last]);
    } else {
      assert sorted[..at] == sorted && sorted[at..] == [];
      AppendNil(sorted + [r]);
    }
  }

  function Sorted(rows: seq<Row>): seq<Row> {
    if rows == [] then [] else Insert(Sorted(rows[..|rows| - 1]), rows[|rows| - 1])
  }

  /** `merged.slice(-200)`. */
  function LastOnes(rows: seq<Row>): seq<Row> {
    if |rows| <= TAIL then rows else rows[|rows| - TAIL..]
  }

  function OnBatch(prev: seq<Row>, rows: seq<Row>): seq<Row> {
    LastOnes(Sorted(prev + Unseen(prev, rows)))
  }

  /** The dashboard after a run of batches. */
  function Dashboard(batches: seq<seq<Row>>): seq<Row> {
    if batches == [] then []
    else OnBatch(Dashboard(batches[..|batches| - 1]), batches[|batches| - 1])
  }

  /** A number stands for one row only. */
  predicate Consistent(rows: set<Row>) {
    forall r, q :: r in rows && q in rows && r.seqNo == q.seqNo ==> r == q
  }

  /** `events` is the sorted list of the 200 highest-numbered rows of `received`. */
  predicate IsWindow(events: seq<Row>, received: set<Row>) {
    && Ascending(events)
    && |events| <= 200
    && (forall r :: r in events ==> r in received)
    && (forall r :: r in received ==> r in events || (|events| == 200 && r.seqNo < events[0].seqNo))
  }

  function RowSet(rows: seq<Row>): set<Row> {
    set r | r in rows
  }

  lemma {:induction false} AscendingCard(rows: seq<Row>)
    requires Ascending(rows)
    ensures |RowSet(rows)| == |rows|
  {
    if rows != [] {
      var init, last := rows[..|rows| - 1], rows[|rows| - 1];
      AscendingCard(init);
      assert RowSet(rows) == RowSet(init) + {last};
      assert last !in init;
    }
  }

  lemma {:induction false} CardBound(rows: seq<Row>)
    ensures |RowSet(rows)| <= |rows|
  {
    if rows != [] {
      var init, last := rows[..|rows| - 1], rows[|rows| - 1];
      CardBound(init);
      assert RowSet(rows) == RowSet(init) + {last};
    }
  }

  /** A full list of rows that all lie in a window lies at or above the window's first row. */
  lemma FullListPushesUp(events: seq<Row>, window: seq<Row>)
    requires Ascending(events) && |events| == TAIL && |window| == TAIL && Ascending(window)
    requires forall r :: r in events ==> r in window || r.seqNo < window[0].seqNo
    requires forall r :: r in events && r.seqNo >= window[0].seqNo ==> r in window
    ensures events[0].seqNo <= window[0].seqNo
  {
    if events[0].seqNo > window[0].seqNo {
      var rest := window[1..];
      forall r | r in events
        ensures r in rest
      {
        var i :| 0 <= i < |events| && events[i] == r;
        assert r.seqNo >= events[0].seqNo;
        assert r in window && r != window[0];
        var j :| 0 <= j < |window| && window[j] == r;
        assert rest[j - 1] == r;
      }
      AscendingCard(events);
      CardBound(rest);
      SubsetCard(RowSet(events), RowSet(rest));
    }
  }

  lemma AppendKeeps(sorted: seq<Row>, r: Row)
    requires Ascending(sorted) && forall i :: 0 <= i < |sorted| ==> sorted[i].seqNo < r.seqNo
    ensures Ascending(sorted + [r])
    ensures forall q :: q in sorted + [r] <==> q in sorted || q == r
  {}

  lemma AscendingInit(sorted: seq<Row>)
    requires Ascending(sorted) && sorted != []
    ensures var init, last := sorted[..|sorted| - 1], sorted[|sorted| - 1];
            Ascending(init) && forall q :: q in init ==> q.seqNo < last.seqNo
  {}

  lemma {:induction false} InsertKeeps(sorted: seq<Row>, r: Row)
    requires Ascending(sorted) && forall q :: q in sorted ==> q.seqNo != r.seqNo
    ensures Ascending(Insert(sorted, r)) && |Insert(sorted, r)| == |sorted| + 1
    ensures forall q :: q in Insert(sorted, r) <==> q in sorted || q == r
  {
    if sorted == [] || sorted[|sorted| - 1].seqNo <= r.seqNo {
      assert forall i :: 0 <= i < |sorted| ==> sorted[i] in sorted;
      AppendKeeps(sorted, r);
    } else {
      hide Ascending;
      AscendingInit(sorted);
      var init, last := sorted[..|sorted| - 1], sorted[|sorted| - 1];
      InsertKeeps(init, r);
      assert sorted == init + [last];
      var bigger := Insert(init, r);
      forall i | 0 <= i < |bigger|
        ensures bigger[i].seqNo < last.seqNo
      {
        assert bigger[i] in init || bigger[i] == r;
      }
      AppendKeeps(bigger, last);
    }
  }

  /** Numbers are pairwise different. */
  predicate Distinct(rows: seq<Row>) {
    forall i, j :: 0 <= i < j < |rows| ==> rows[i].seqNo != rows[j].seqNo
  }

  lemma LastIsNew(rows: seq<Row>)
    requires Distinct(rows) && rows != []
    ensures var init, last := rows[..|rows| - 1], rows[|rows| - 1];
            && (forall q :: q in init ==> q.seqNo != last.seqNo)
            && (forall q :: q in rows <==> q in init || q == last)
  {
    var init, last := rows[..|rows| - 1], rows[|rows| - 1];
    assert rows == init + [last];
    assert forall i :: 0 <= i < |init| ==> init[i].seqNo != last.seqNo;
  }

  lemma {:induction false} SortedKeeps(rows: seq<Row>)
    requires Distinct(rows)
    ensures Ascending(Sorted(rows)) && |Sorted(rows)| == |rows|
    ensures forall q :: q in Sorted(rows) <==> q in rows
  {
    if rows != [] {
      var init, last := rows[..|rows| - 1], rows[|rows| - 1];
      SortedKeeps(init);
      LastIsNew(rows);
      assert forall q :: q in Sorted(init) <==> q in init;
      hide Insert, Distinct;
      InsertKeeps(Sorted(init), last);
    }
  }

  lemma {:induction false} UnseenHolds(prev: seq<Row>, rows: seq<Row>)
    ensures forall q :: q in Unseen(prev, rows) <==> q in rows && !SeenIn(prev, q.seqNo)
  {
    if rows != [] {
      UnseenHolds(prev, rows[1..]);
      assert rows == [rows[0]] + rows[1..];
      hide SeenIn;
    }
  }

  lemma FirstIsLeast(rows: seq<Row>)
    requires Ascending(rows) && rows != []
    ensures Ascending(rows[1..]) && forall r :: r in rows[1..] ==> rows[0].seqNo < r.seqNo
  {
    forall r | r in rows[1..]
      ensures rows[0].seqNo < r.seqNo
    {
      var j :| 0 <= j < |rows[1..]| && rows[1..][j] == r;
      assert rows[j + 1] == r;
    }
  }

  lemma PutFirst(r: Row, later: seq<Row>)
    requires Ascending(later) && forall q :: q in later ==> r.seqNo < q.seqNo
    ensures Ascending([r] + later)
  {
    assert forall i :: 0 <= i < |later| ==> later[i] in later;
  }

  lemma {:induction false} UnseenKeeps(prev: seq<Row>, rows: seq<Row>)
    requires Ascending(rows)
    ensures Ascending(Unseen(prev, rows))
    ensures forall q :: q in Unseen(prev, rows) <==> q in rows && !SeenIn(prev, q.seqNo)
  {
    UnseenHolds(prev, rows);
    if rows != [] {
      hide Ascending, SeenIn;
      FirstIsLeast(rows);
      UnseenKeeps(prev, rows[1..]);
      PutFirst(rows[0], Unseen(prev, rows[1..]));
      AppendNil(Unseen(prev, rows[1..]));
    }
  }

  lemma MergedIsDistinct(prev: seq<Row>, rows: seq<Row>)
    requires Ascending(prev) && Ascending(rows)
    ensures Distinct(prev + Unseen(prev, rows))
  {
    UnseenKeeps(prev, rows);
    var extra := Unseen(prev, rows);
    var merged := prev + extra;
    forall i, j | 0 <= i < j < |merged|
      ensures merged[i].seqNo != merged[j].seqNo
    {
      if j >= |prev| {
        assert merged[j] == extra[j - |prev|] && merged[j] in extra;
        if i < |prev| { assert !SeenIn(prev, merged[j].seqNo); }
        else { assert merged[i] == extra[i - |prev|]; }
      }
    }
  }

  /** The last 200 of a sorted list are a window onto it. */
  lemma LastOnesIsWindow(rows: seq<Row>)
    requires Ascending(rows)
    ensures IsWindow(LastOnes(rows), RowSet(rows))
  {
    var w := LastOnes(rows);
    var cut := |rows| - |w|;
    assert forall i :: 0 <= i < |w| ==> w[i] == rows[cut + i];
    forall r | r in rows
      ensures r in w || (|w| == TAIL && r.seqNo < w[0].seqNo)
    {
      var i :| 0 <= i < |rows| && rows[i] == r;
      if i >= cut { assert w[i - cut] == r; }
    }
  }

  /** One batch moves the window onto the larger set of received rows. */
  lemma OnBatchKeepsWindow(events: seq<Row>, batch: seq<Row>, received: set<Row>)
    requires IsWindow(events, received) && Ascending(batch)
    requires Consistent(received + RowSet(batch))
    ensures IsWindow(OnBatch(events, batch), received + RowSet(batch))
  {
    var merged := events + Unseen(events, batch);
    UnseenKeeps(events, batch);
    MergedIsDistinct(events, batch);
    SortedKeeps(merged);
    var sorted := Sorted(merged);
    LastOnesIsWindow(sorted);
    var window := LastOnes(sorted);
    WindowWidens(events, batch, received, sorted, window);
  }

  lemma SeenRowIsTheRow(events: seq<Row>, r: Row, rows: set<Row>)
    requires SeenIn(events, r.seqNo) && r in rows && Consistent(rows)
    requires forall q :: q in events ==> q in rows
    ensures r in events
  {
    var i :| 0 <= i < |events| && events[i].seqNo == r.seqNo;
    assert events[i] in events;
  }

  lemma WindowWidens(events: seq<Row>, batch: seq<Row>, received: set<Row>, sorted: seq<Row>, window: seq<Row>)
    requires IsWindow(events, received) && Consistent(received + RowSet(batch))
    requires forall q :: q in sorted <==> q in events || (q in batch && !SeenIn(events, q.seqNo))
    requires |sorted| >= |events|
    requires IsWindow(window, RowSet(sorted)) && |window| == if |sorted| <= TAIL then |sorted| else TAIL
    ensures IsWindow(window, received + RowSet(batch))
  {
    forall r | r in received + RowSet(batch)
      ensures r in window || (|window| == TAIL && r.seqNo < window[0].seqNo)
    {
      if r in sorted {
        assert r in RowSet(sorted);
      } else if r in received {
        assert forall q :: q in events ==> q in RowSet(sorted);
        FullListPushesUp(events, window);
      } else {
        SeenRowIsTheRow(events, r, received + RowSet(batch));
      }
    }
  }

  /** All rows that a run of batches delivered. */
  function Received(batches: seq<seq<Row>>): set<Row> {
    if batches == [] then {}
    else Received(batches[..|batches| - 1]) + RowSet(batches[|batches| - 1])
  }

  /**
   After any run of batches, from any number of connections and with any replays, the dashboard
   shows exactly the 200 highest-numbered rows ever received, in order.
   */
  lemma {:induction false} DashboardIsWindow(batches: seq<seq<Row>>)
    requires forall i :: 0 <= i < |batches| ==> Ascending(batches[i])
    requires Consistent(Received(batches))
    ensures IsWindow(Dashboard(batches), Received(batches))
  {
    if batches != [] {
      var init := batches[..|batches| - 1];
      DashboardIsWindow(init);
      OnBatchKeepsWindow(Dashboard(init), batches[|batches| - 1], Received(init));
    }
  }

  /** There is only one window onto a set of rows. */
  lemma {:induction false} WindowIsUnique(a: seq<Row>, b: seq<Row>, received: set<Row>)
    requires IsWindow(a, received) && IsWindow(b, received) && Consistent(received)
    ensures a == b
  {
    if |a| == TAIL && |b| == TAIL {
      FullListPushesUp(a, b);
      FullListPushesUp(b, a);
    } else if |a| == TAIL {
      NotFullHoldsAll(a, b, received);
    } else if |b| == TAIL {
      NotFullHoldsAll(b, a, received);
    }
    forall r
      ensures r in a <==> r in b
    {
      if r in a && r !in b { HeadIsLeast(a, r); }
      if r in b && r !in a { HeadIsLeast(b, r); }
    }
    SameRowsSameList(a, b);
  }

  lemma HeadIsLeast(rows: seq<Row>, r: Row)
    requires Ascending(rows) && r in rows
    ensures rows[0].seqNo <= r.seqNo
  {
    var i :| 0 <= i < |rows| && rows[i] == r;
  }

  lemma NotFullHoldsAll(full: seq<Row>, other: seq<Row>, received: set<Row>)
    requires IsWindow(full, received) && IsWindow(other, received)
    requires |full| == TAIL
    ensures |other| == TAIL
  {
    if |other| < TAIL {
      AscendingCard(full);
      CardBound(other);
      assert forall r :: r in RowSet(full) ==> r in RowSet(other);
      SubsetCard(RowSet(full), RowSet(other));
    }
  }

  lemma {:induction false} SameRowsSameList(a: seq<Row>, b: seq<Row>)
    requires Ascending(a) && Ascending(b) && forall r :: r in a <==> r in b
    ensures a == b
  {
    AscendingCard(a);
    AscendingCard(b);
    assert RowSet(a) == RowSet(b);
    if a != [] {
      var x, y := a[|a| - 1], b[|b| - 1];
      LastIsGreatest(a, y);
      LastIsGreatest(b, x);
      WithoutLast(a);
      WithoutLast(b);
      SameRowsSameList(a[..|a| - 1], b[..|b| - 1]);
      assert a == a[..|a| - 1] + [x] && b == b[..|b| - 1] + [y];
    }
  }

  lemma WithoutLast(rows: seq<Row>)
    requires Ascending(rows) && rows != []
    ensures var init, last := rows[..|rows| - 1], rows[|rows| - 1];
            Ascending(init) && forall r :: r in init <==> r in rows && r != last
  {
    var init, last := rows[..|rows| - 1], rows[|rows| - 1];
    assert rows == init + [last];
    assert forall i :: 0 <= i < |init| ==> init[i] != last;
  }

  lemma LastIsGreatest(rows: seq<Row>, r: Row)
    requires Ascending(rows) && r in rows
    ensures rows[|rows| - 1].seqNo >= r.seqNo && (rows[|rows| - 1].seqNo == r.seqNo ==> rows[|rows| - 1] == r)
  {
    var i :| 0 <= i < |rows| && rows[i] == r;
  }

  /**
   Once the tail of the current table has been received, whatever came before it from shorter
   versions of the same table, the dashboard shows exactly that tail.
   */
  lemma DashboardCatchesUp(batches: seq<seq<Row>>, table: seq<Row>)
    requires Numbered(table)
    requires forall i :: 0 <= i < |batches| ==> Ascending(batches[i])
    requires RowSet(Tail(table, TAIL)) <= Received(batches) <= RowSet(table)
    ensures Dashboard(batches) == Tail(table, 200)
  {
    assert Consistent(RowSet(table)) by {
      forall r, q | r in RowSet(table) && q in RowSet(table) && r.seqNo == q.seqNo
        ensures r == q
      {
        var i :| 0 <= i < |table| && table[i] == r;
        var j :| 0 <= j < |table| && table[j] == q;
      }
    }
    DashboardIsWindow(batches);
    LastOnesIsWindow(table);
    var tail := Tail(table, TAIL);
    assert tail == LastOnes(table);
    assert IsWindow(tail, Received(batches)) by {
      forall r | r in tail
        ensures r in Received(batches)
      {
        assert r in RowSet(tail);
      }
    }
    WindowIsUnique(Dashboard(batches), tail, Received(batches));
  }

  // ---- end to end ----

  /** What goes down the wire: one audit event per tick, keep-alive comments in between. */
  datatype Message = Batch(rows: seq<Row>) | KeepAlive

  /** The JSON coding of a batch: one line of text that parses back. */
  ghost predicate Codes(json: seq<Row> -> string, parse: Parser<Row>) {
    forall rows :: json(rows) != "" && Free(json(rows), '\n') && parse(json(rows)) == Some(rows)
  }

  function FrameOf(json: seq<Row> -> string, m: Message): string {
    match m
    case Batch(rows) => AuditFrame(json(rows))
    case KeepAlive => KEEP_ALIVE
  }

  function FramesOf(json: seq<Row> -> string, ms: seq<Message>): seq<string> {
    if ms == [] then [] else [FrameOf(json, ms[0])] + FramesOf(json, ms[1..])
  }

  function NonEmpty(ms: seq<Message>): seq<seq<Row>> {
    if ms == [] then []
    else (if ms[0].Batch? && ms[0].rows != [] then [ms[0].rows] else []) + NonEmpty(ms[1..])
  }

  lemma FrameDelivers(json: seq<Row> -> string, parse: Parser<Row>, m: Message)
    requires Codes(json, parse)
    ensures Whole(FrameOf(json, m))
    ensures Delivered(parse, FrameOf(json, m)) == if m.Batch? && m.rows != [] then [m.rows] else []
  {
    hide DataOf, Whole;
    var text := json(if m.Batch? then m.rows else []);
    AuditFrameIsWhole(text);
    DataOfAuditFrame(text);
  }

  lemma {:induction false} FramesDeliver(json: seq<Row> -> string, parse: Parser<Row>, ms: seq<Message>)
    requires Codes(json, parse)
    ensures forall i :: 0 <= i < |FramesOf(json, ms)| ==> Whole(FramesOf(json, ms)[i])
    ensures DeliverAll(parse, FramesOf(json, ms)) == NonEmpty(ms)
  {
    hide Delivered, FrameOf, Whole;
    if ms != [] {
      FrameDelivers(json, parse, ms[0]);
      FramesDeliver(json, parse, ms[1..]);
      var frames := FramesOf(json, ms);
      assert frames[1..] == FramesOf(json, ms[1..]);
    }
  }

  /**
   However the stream is cut into chunks, and wherever it breaks off, the dashboard's callback gets
   the server's non-empty batches in order, up to the break; all of them if nothing was lost.
   */
  lemma BatchesArrive(json: seq<Row> -> string, parse: Parser<Row>, ms: seq<Message>,
                      chunks: seq<string>, lost: string)
    requires Codes(json, parse)
    requires Concat(chunks) + lost == SseFrames.Joined(FramesOf(json, ms))
    ensures DeliverAll(parse, Fed(chunks).0) <= NonEmpty(ms)
    ensures lost == "" ==> DeliverAll(parse, Fed(chunks).0) == NonEmpty(ms)
  {
    hide DeliverAll, FramesOf, NonEmpty, Split, Concat, Fed, SseFrames.Joined;
    var text := SseFrames.Joined(FramesOf(json, ms));
    FramesDeliver(json, parse, ms);
    AppendNil(text);
    SplitIsTheFraming(text, FramesOf(json, ms), "");
    FedIsWhole(chunks);
    SplitAppend(Concat(chunks), lost);
    var rest := Split(Split(Concat(chunks)).1 + lost).0;
    DeliverAppend(parse, Split(Concat(chunks)).0, rest);
    AppendNil(Concat(chunks));
  }
}
