/**
 The audit feed from end to end: polls of one growing table over any number of connections, framed,
 cut into chunks and broken off anywhere, and what the dashboard shows in the end.
 */
module FeedToDashboard {
  import opened Wrappers
  import opened Seqs
  import opened AuditChain
  import opened SseFrames
  import opened AuditFeed

  /** One connection: what its polls read, what the server wrote, and what reached the browser. */
  datatype Visit = Visit(polls: seq<Option<seq<Row>>>, messages: seq<Message>, chunks: seq<string>, lost: string)

  /** The batches among the messages, keep-alives left out. */
  function Batches(ms: seq<Message>): seq<seq<Row>> {
    if ms == [] then [] else (if ms[0].Batch? then [ms[0].rows] else []) + Batches(ms[1..])
  }

  /** Every poll read an earlier state of the table; the server wrote its ticks; the text arrived up to a break. */
  ghost predicate Serves(json: seq<Row> -> string, table: seq<Row>, v: Visit) {
    && (forall k :: 0 <= k < |v.polls| && v.polls[k].Some? ==> v.polls[k].value <= table)
    && Batches(v.messages) == Sent(v.polls, 0)
    && Concat(v.chunks) + v.lost == SseFrames.Joined(FramesOf(json, v.messages))
  }

  /** What the dashboard's callback got from one connection, and from all of them in turn. */
  function Arrived(parse: Parser<Row>, v: Visit): seq<seq<Row>> {
    DeliverAll(parse, Fed(v.chunks).0)
  }

  function Everything(parse: Parser<Row>, visits: seq<Visit>): seq<seq<Row>> {
    if visits == [] then []
    else Everything(parse, visits[..|visits| - 1]) + Arrived(parse, visits[|visits| - 1])
  }

  // ---- batches are ascending pieces of the table ----

  ghost predicate PieceOf(rows: seq<Row>, table: seq<Row>) {
    Ascending(rows) && forall r :: r in rows ==> r in table
  }

  lemma {:induction false} NewerIsPiece(rows: seq<Row>, since: int)
    requires Ascending(rows)
    ensures Ascending(Newer(rows, since)) && forall r :: r in Newer(rows, since) ==> r in rows
  {
    hide Ascending;
    if rows == [] {
      NothingAscends();
    } else {
      var later := Newer(rows[1..], since);
      FirstIsLeast(rows);
      NewerIsPiece(rows[1..], since);
      PutFirst(rows[0], later);
      AppendNil(later);
      assert rows == [rows[0]] + rows[1..];
    }
  }

  lemma NothingAscends()
    ensures Ascending([])
  {}

  lemma FreshIsPiece(poll: Option<seq<Row>>, since: int, table: seq<Row>)
    requires Numbered(table) && (poll.Some? ==> poll.value <= table)
    ensures PieceOf(Fresh(poll, since), table)
  {
    if poll.Some? {
      var tail := Tail(poll.value, TAIL);
      forall r | r in tail
        ensures r in table
      {
        var i :| 0 <= i < |tail| && tail[i] == r;
        assert table[|poll.value| - |tail| + i] == r;
      }
      NewerIsPiece(tail, since);
    }
  }

  lemma {:induction false} SentArePieces(polls: seq<Option<seq<Row>>>, since: int, table: seq<Row>)
    requires Numbered(table)
    requires forall k :: 0 <= k < |polls| && polls[k].Some? ==> polls[k].value <= table
    ensures forall k :: 0 <= k < |Sent(polls, since)| ==> PieceOf(Sent(polls, since)[k], table)
  {
    if polls != [] {
      hide PieceOf, Fresh, MaxSeq;
      FreshIsPiece(polls[0], since, table);
      SentArePieces(polls[1..], MaxSeq(Fresh(polls[0], since), since), table);
    }
  }

  lemma {:induction false} NonEmptyAreBatches(ms: seq<Message>)
    ensures forall b :: b in NonEmpty(ms) <==> b in Batches(ms) && b != []
  {
    if ms != [] { NonEmptyAreBatches(ms[1..]); }
  }

  lemma ArrivedArePieces(json: seq<Row> -> string, parse: Parser<Row>, table: seq<Row>, v: Visit)
    requires Codes(json, parse) && Numbered(table) && Serves(json, table, v)
    ensures forall k :: 0 <= k < |Arrived(parse, v)| ==> PieceOf(Arrived(parse, v)[k], table)
    ensures v.lost == "" ==> Arrived(parse, v) == NonEmpty(v.messages)
  {
    hide Codes, Concat, FramesOf, Fed, DeliverAll, Sent, PieceOf, NonEmpty, Batches, SseFrames.Joined;
    BatchesArrive(json, parse, v.messages, v.chunks, v.lost);
    NonEmptyAreBatches(v.messages);
    SentArePieces(v.polls, 0, table);
    forall k | 0 <= k < |Arrived(parse, v)|
      ensures PieceOf(Arrived(parse, v)[k], table)
    {
      assert Arrived(parse, v)[k] == NonEmpty(v.messages)[k];
      assert NonEmpty(v.messages)[k] in Batches(v.messages);
    }
  }

  lemma {:induction false} AllArePieces(json: seq<Row> -> string, parse: Parser<Row>,
                                       table: seq<Row>, visits: seq<Visit>)
    requires Codes(json, parse) && Numbered(table)
    requires forall k :: 0 <= k < |visits| ==> Serves(json, table, visits[k])
    ensures forall k :: 0 <= k < |Everything(parse, visits)| ==> PieceOf(Everything(parse, visits)[k], table)
  {
    hide Codes, Serves, PieceOf, Arrived;
    if visits != [] {
      AllArePieces(json, parse, table, visits[..|visits| - 1]);
      ArrivedArePieces(json, parse, table, visits[|visits| - 1]);
    }
  }

  lemma {:induction false} ReceivedIsFromTable(batches: seq<seq<Row>>, table: seq<Row>)
    requires forall k :: 0 <= k < |batches| ==> PieceOf(batches[k], table)
    ensures Received(batches) <= RowSet(table)
    ensures forall k, r :: 0 <= k < |batches| && r in batches[k] ==> r in Received(batches)
  {
    if batches != [] {
      var init, last := batches[..|batches| - 1], batches[|batches| - 1];
      ReceivedIsFromTable(init, table);
      assert PieceOf(last, table);
      forall k, r | 0 <= k < |batches| && r in batches[k]
        ensures r in Received(batches)
      {
        if k < |init| { assert r in init[k]; }
      }
    }
  }

  lemma TableIsConsistent(table: seq<Row>)
    requires Numbered(table)
    ensures Consistent(RowSet(table))
  {
    forall r, q | r in RowSet(table) && q in RowSet(table) && r.seqNo == q.seqNo
      ensures r == q
    {
      var i :| 0 <= i < |table| && table[i] == r;
      var j :| 0 <= j < |table| && table[j] == q;
    }
  }

  /**
   Whatever the connections polled, and however their streams were framed, cut and broken off, the
   dashboard shows exactly the 200 highest rows of what arrived, and all of it is from the table.
   */
  lemma DashboardShowsTheFeed(h: Digest, json: seq<Row> -> string, parse: Parser<Row>,
                              table: seq<Row>, visits: seq<Visit>)
    requires Codes(json, parse) && Verifies(h, table)
    requires forall k :: 0 <= k < |visits| ==> Serves(json, table, visits[k])
    ensures var batches := Everything(parse, visits);
            IsWindow(Dashboard(batches), Received(batches)) && Received(batches) <= RowSet(table)
  {
    VerifyingTableIsNumbered(h, table);
    hide Codes, Serves, Everything, Dashboard, Received, Verifies, Ascending, Numbered;
    EverythingAscends(json, parse, table, visits);
    TableIsConsistent(table);
    DashboardIsWindow(Everything(parse, visits));
  }

  // ---- catching up ----

  lemma {:induction false} RowsAreInBatches(batches: seq<seq<Row>>, r: Row)
    requires r in Rows(batches)
    ensures exists k :: 0 <= k < |batches| && r in batches[k]
  {
    if r !in batches[0] {
      RowsAreInBatches(batches[1..], r);
      var k :| 0 <= k < |batches[1..]| && r in batches[1..][k];
      assert r in batches[k + 1];
    }
  }

  /** This connection was never overrun, saw the table as it is now, and lost nothing. */
  ghost predicate SawItAll(table: seq<Row>, v: Visit) {
    && v.lost == "" && v.polls != [] && v.polls[0].Some?
    && Numbered(v.polls[0].value) && GrowsFrom(v.polls[0].value, v.polls[1..])
    && NoOverrun(v.polls[0].value, v.polls[1..]) && Final(v.polls[0].value, v.polls[1..]) == table
  }

  lemma TailIsSent(table: seq<Row>, v: Visit, r: Row)
    requires SawItAll(table, v) && r in Tail(table, TAIL)
    ensures r in Rows(Sent(v.polls, 0))
  {
    var first, rest := v.polls[0].value, v.polls[1..];
    assert v.polls == [Some(first)] + rest;
    ConnectionSends(first, rest);
    hide Sent, Rows, Final, GrowsFrom, NoOverrun, Tail;
    TailLiesIn(table, Max(0, |first| - TAIL), r);
  }

  lemma TailLiesIn(table: seq<Row>, start: nat, r: Row)
    requires start <= Max(0, |table| - TAIL) && r in Tail(table, TAIL)
    ensures r in table[start..]
  {
    var tail := Tail(table, TAIL);
    var i :| 0 <= i < |tail| && tail[i] == r;
    assert table[start..][|table| - |tail| + i - start] == r;
  }

  lemma LostNothing(table: seq<Row>, v: Visit)
    requires SawItAll(table, v)
    ensures v.lost == ""
  {}

  lemma PieceIsAscending(rows: seq<Row>, table: seq<Row>)
    requires PieceOf(rows, table)
    ensures Ascending(rows)
  {}

  /** A row that the last connection sent and did not lose has been received. */
  lemma SentIsReceived(json: seq<Row> -> string, parse: Parser<Row>, table: seq<Row>, visits: seq<Visit>, r: Row)
    requires Codes(json, parse) && Numbered(table) && visits != []
    requires forall k :: 0 <= k < |visits| ==> Serves(json, table, visits[k])
    requires visits[|visits| - 1].lost == "" && r in Rows(Batches(visits[|visits| - 1].messages))
    ensures r in Received(Everything(parse, visits))
  {
    hide Codes, Serves, Received, Arrived, PieceOf, Rows, Batches, NonEmpty;
    var batches, last := Everything(parse, visits), visits[|visits| - 1];
    RowsAreInBatches(Batches(last.messages), r);
    var b := HoldingBatch(Batches(last.messages), r);
    NonEmptyAreBatches(last.messages);
    ArrivedArePieces(json, parse, table, last);
    assert b in Arrived(parse, last);
    assert b in batches;
    AllArePieces(json, parse, table, visits);
    ReceivedIsFromTable(batches, table);
    var j :| 0 <= j < |batches| && batches[j] == b;
    assert r in batches[j];
  }

  ghost function HoldingBatch(batches: seq<seq<Row>>, r: Row): (b: seq<Row>)
    requires exists k :: 0 <= k < |batches| && r in batches[k]
    ensures b in batches && r in b && b != []
  {
    var k :| 0 <= k < |batches| && r in batches[k];
    batches[k]
  }

  lemma EverythingAscends(json: seq<Row> -> string, parse: Parser<Row>, table: seq<Row>, visits: seq<Visit>)
    requires Codes(json, parse) && Numbered(table)
    requires forall k :: 0 <= k < |visits| ==> Serves(json, table, visits[k])
    ensures forall k :: 0 <= k < |Everything(parse, visits)| ==> Ascending(Everything(parse, visits)[k])
    ensures Received(Everything(parse, visits)) <= RowSet(table)
  {
    hide Codes, Serves, Everything, Received, PieceOf, Ascending;
    var batches := Everything(parse, visits);
    AllArePieces(json, parse, table, visits);
    ReceivedIsFromTable(batches, table);
    forall k | 0 <= k < |batches|
      ensures Ascending(batches[k])
    {
      PieceIsAscending(batches[k], table);
    }
  }

  lemma ServedSends(json: seq<Row> -> string, table: seq<Row>, v: Visit)
    requires Serves(json, table, v)
    ensures Batches(v.messages) == Sent(v.polls, 0)
  {}

  /** After such a connection the dashboard shows exactly the last 200 rows of the table. */
  lemma DashboardIsUpToDate(h: Digest, json: seq<Row> -> string, parse: Parser<Row>,
                            table: seq<Row>, visits: seq<Visit>)
    requires Codes(json, parse) && Verifies(h, table) && visits != []
    requires forall k :: 0 <= k < |visits| ==> Serves(json, table, visits[k])
    requires SawItAll(table, visits[|visits| - 1])
    ensures Dashboard(Everything(parse, visits)) == Tail(table, 200)
  {
    VerifyingTableIsNumbered(h, table);
    hide Codes, Serves, Everything, Dashboard, Received, Verifies, SawItAll;
    hide Tail, Rows, Sent, Batches, Ascending, Numbered;
    var last := visits[|visits| - 1];
    LostNothing(table, last);
    ServedSends(json, table, last);
    forall r | r in RowSet(Tail(table, TAIL))
      ensures r in Received(Everything(parse, visits))
    {
      TailIsSent(table, last, r);
      SentIsReceived(json, parse, table, visits, r);
    }
    EverythingAscends(json, parse, table, visits);
    DashboardCatchesUp(Everything(parse, visits), table);
  }
}
