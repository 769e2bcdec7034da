/**
 Scanning a block range for logs, halving what the node refuses as too wide
 (crates/chain/src/rpc.rs). The node may answer every request differently, so its replies are indexed
 by the number of the request.
 */
module LogScan {
  import opened Wrappers
  import opened Seqs
  import opened Text

  /** One decoded log; its content does not matter here. */
  datatype Log = Log(block: nat, data: string)

  datatype Failure = Rpc(message: string) | Decode | Transport

  type Reply = Result<seq<Log>, Failure>

  /** request number, first block, last block */
  type Node = (nat, nat, nat) -> Reply

  const MAX_SPLIT_DEPTH: nat := 12

  predicate IsRangeTooWide(e: Failure) {
    e.Rpc? &&
    var m := Lower(e.message);
    Contains(m, "time") || Contains(m, "limit") || Contains(m, "exceed") || Contains(m, "too many")
  }

  const COMPLAINTS: seq<string> := ["time", "limit", "exceed", "too many"]

  /** A failure means too wide a range exactly if the node says one of four words, in any case. */
  lemma TooWideExactly(e: Failure)
    ensures IsRangeTooWide(e) <==>
            e.Rpc? && exists w, i: nat :: 0 <= w < |COMPLAINTS| && OccursAt(e.message, COMPLAINTS[w], i)
  {
    if e.Rpc? {
      forall w | 0 <= w < |COMPLAINTS|
        ensures Contains(Lower(e.message), COMPLAINTS[w]) <==> exists i: nat :: OccursAt(e.message, COMPLAINTS[w], i)
      {
        assert NoUppercase(COMPLAINTS[w]);
        FoundInAnyCase(e.message, COMPLAINTS[w]);
      }
      hide Contains, Lower, OccursAt;
      var words := COMPLAINTS;
      assert words[0] == "time" && words[1] == "limit" && words[2] == "exceed" && words[3] == "too many";
    }
  }

  predicate Splits(e: Failure, from: nat, to: nat, depth: nat) {
    depth < MAX_SPLIT_DEPTH && to > from && IsRangeTooWide(e)
  }

  function Mid(from: nat, to: nat): nat
    requires from <= to
  {
    from + (to - from) / 2
  }

  /** The reply, and the number of the next request. */
  function Scan(node: Node, from: nat, to: nat, depth: nat, n: nat): (Reply, nat)
    requires depth <= MAX_SPLIT_DEPTH
    decreases MAX_SPLIT_DEPTH - depth
  {
    var reply := node(n, from, to);
    if reply.Ok? || !Splits(reply.error, from, to, depth) then (reply, n + 1)
    else
      var (left, next) := Scan(node, from, Mid(from, to), depth + 1, n + 1);
      if left.Err? then (left, next)
      else
        var (right, last) := Scan(node, Mid(from, to) + 1, to, depth + 1, next);
        if right.Err? then (right, last) else (Ok(left.value + right.value), last)
  }

  method GetLogsBisecting(node: Node, from: nat, to: nat, depth: nat, n: nat) returns (r: Reply, next: nat)
    requires depth <= MAX_SPLIT_DEPTH
    ensures (r, next) == Scan(node, from, to, depth, n)
    decreases MAX_SPLIT_DEPTH - depth
  {
    hide IsRangeTooWide;
    r, next := node(n, from, to), n + 1;
    if r.Err? && depth < MAX_SPLIT_DEPTH && to > from && IsRangeTooWide(r.error) {
      var mid := from + (to - from) / 2;
      r, next := GetLogsBisecting(node, from, mid, depth + 1, next);
      if r.Err? {
        return;
      }
      var merged := r.value;
      r, next := GetLogsBisecting(node, mid + 1, to, depth + 1, next);
      if r.Err? {
        return;
      }
      merged := merged + r.value;
      r := Ok(merged);
    }
  }

  // ---- what an Ok result covers ----

  /** One answered request: its number and its range. */
  datatype Tile = Tile(n: nat, from: nat, to: nat)

  /** The tiles cover the range without gap or overlap, in order. */
  predicate Cover(tiles: seq<Tile>, from: nat, to: nat) {
    && tiles != [] && tiles[0].from == from && tiles[|tiles| - 1].to == to
    && (forall i :: 0 <= i < |tiles| - 1 ==> tiles[i + 1].from == tiles[i].to + 1)
    && (from <= to ==> forall i :: 0 <= i < |tiles| ==> tiles[i].from <= tiles[i].to)
  }

  predicate Served(node: Node, tiles: seq<Tile>) {
    forall i :: 0 <= i < |tiles| ==> node(tiles[i].n, tiles[i].from, tiles[i].to).Ok?
  }

  function Merged(node: Node, tiles: seq<Tile>): seq<Log>
    requires Served(node, tiles)
  {
    if tiles == [] then []
    else
      var last := tiles[|tiles| - 1];
      assert Served(node, tiles[..|tiles| - 1]);
      Merged(node, tiles[..|tiles| - 1]) + node(last.n, last.from, last.to).value
  }

  lemma {:induction false} MergedConcat(node: Node, a: seq<Tile>, b: seq<Tile>)
    requires Served(node, a) && Served(node, b)
    ensures Served(node, a + b) && Merged(node, a + b) == Merged(node, a) + Merged(node, b)
    decreases |b|
  {
    assert Served(node, a + b);
    if b == [] {
      AppendNil(a);
      AppendNil(Merged(node, a));
    } else {
      var init, last := b[..|b| - 1], b[|b| - 1];
      assert Served(node, init);
      MergedConcat(node, a, init);
      assert (a + b)[..|a + b| - 1] == a + init;
      Assoc(Merged(node, a), Merged(node, init), node(last.n, last.from, last.to).value);
    }
  }

  /** An Ok result is the node's own answers to consecutive ranges that cover exactly [from, to]. */
  lemma {:induction false} OkCovers(node: Node, from: nat, to: nat, depth: nat, n: nat) returns (tiles: seq<Tile>)
    requires depth <= MAX_SPLIT_DEPTH && Scan(node, from, to, depth, n).0.Ok?
    ensures Cover(tiles, from, to) && Served(node, tiles)
    ensures Scan(node, from, to, depth, n).0.value == Merged(node, tiles)
    decreases MAX_SPLIT_DEPTH - depth
  {
    hide IsRangeTooWide;
    var reply := node(n, from, to);
    if reply.Ok? {
      tiles := [Tile(n, from, to)];
      assert Merged(node, tiles[..0]) == [];
    } else {
      var next := Scan(node, from, Mid(from, to), depth + 1, n + 1).1;
      var left := OkCovers(node, from, Mid(from, to), depth + 1, n + 1);
      var right := OkCovers(node, Mid(from, to) + 1, to, depth + 1, next);
      tiles := left + right;
      MergedConcat(node, left, right);
      hide Scan, Merged, Mid;
      CoverJoins(left, right, from, Mid(from, to), to);
    }
  }

  lemma CoverJoins(left: seq<Tile>, right: seq<Tile>, from: nat, mid: nat, to: nat)
    requires Cover(left, from, mid) && Cover(right, mid + 1, to) && from <= mid < to
    ensures Cover(left + right, from, to)
  {
    var all := left + right;
    forall i | 0 <= i < |all| - 1
      ensures all[i + 1].from == all[i].to + 1
    {
      if i >= |left| { assert all[i] == right[i - |left|] && all[i + 1] == right[i + 1 - |left|]; }
    }
    forall i | 0 <= i < |all|
      ensures all[i].from <= all[i].to
    {
      if i >= |left| { assert all[i] == right[i - |left|]; }
    }
  }

  /**
   A failure is the node's own answer to a request within the range that could not be split: for another
   reason than its width, or a single block, or after twelve splits.
   */
  lemma {:induction false} ErrIsAnAnswer(node: Node, from: nat, to: nat, depth: nat, n: nat)
    returns (m: nat, lo: nat, hi: nat, splits: nat)
    requires depth <= MAX_SPLIT_DEPTH && Scan(node, from, to, depth, n).0.Err?
    ensures n <= m && depth <= splits <= 12 && from <= lo && hi <= to
    ensures var r := Scan(node, from, to, depth, n).0;
            node(m, lo, hi) == r && (!IsRangeTooWide(r.error) || hi <= lo || splits == 12)
    decreases MAX_SPLIT_DEPTH - depth
  {
    hide IsRangeTooWide;
    var reply := node(n, from, to);
    if reply.Ok? || !Splits(reply.error, from, to, depth) {
      m, lo, hi, splits := n, from, to, depth;
    } else {
      var (left, next) := Scan(node, from, Mid(from, to), depth + 1, n + 1);
      RequestsBounded(node, from, Mid(from, to), depth + 1, n + 1);
      if left.Err? {
        m, lo, hi, splits := ErrIsAnAnswer(node, from, Mid(from, to), depth + 1, n + 1);
      } else {
        m, lo, hi, splits := ErrIsAnAnswer(node, Mid(from, to) + 1, to, depth + 1, next);
      }
    }
  }

  /** What the chain holds in a range, block by block. */
  function Direct(chain: nat -> seq<Log>, from: nat, to: nat): seq<Log>
    decreases to - from
  {
    if from > to then [] else if from == to then chain(from) else chain(from) + Direct(chain, from + 1, to)
  }

  /** Whatever the node serves for a range, it is what the chain holds there. */
  ghost predicate Honest(node: Node, chain: nat -> seq<Log>) {
    forall n: nat, from: nat, to: nat :: node(n, from, to).Ok? ==> node(n, from, to).value == Direct(chain, from, to)
  }

  lemma {:induction false} DirectJoins(chain: nat -> seq<Log>, from: nat, mid: nat, to: nat)
    requires from <= mid < to
    ensures Direct(chain, from, to) == Direct(chain, from, mid) + Direct(chain, mid + 1, to)
    decreases mid - from
  {
    if from < mid {
      DirectJoins(chain, from + 1, mid, to);
      Assoc(chain(from), Direct(chain, from + 1, mid), Direct(chain, mid + 1, to));
    }
  }

  /** From an honest node, an Ok result is the direct scan of the whole range, in order. */
  lemma {:induction false} OkIsDirect(node: Node, chain: nat -> seq<Log>, from: nat, to: nat, depth: nat, n: nat)
    requires Honest(node, chain) && depth <= MAX_SPLIT_DEPTH
    ensures var r := Scan(node, from, to, depth, n).0; r.Ok? ==> r.value == Direct(chain, from, to)
    decreases MAX_SPLIT_DEPTH - depth
  {
    hide IsRangeTooWide, Direct;
    var reply := node(n, from, to);
    if reply.Err? && Splits(reply.error, from, to, depth) {
      var (left, next) := Scan(node, from, Mid(from, to), depth + 1, n + 1);
      OkIsDirect(node, chain, from, Mid(from, to), depth + 1, n + 1);
      OkIsDirect(node, chain, Mid(from, to) + 1, to, depth + 1, next);
      DirectJoins(chain, from, Mid(from, to), to);
    }
  }

  // ---- cost, and when it succeeds ----

  function Pow2(k: nat): (r: nat)
    ensures r >= 1
  {
    if k == 0 then 1 else 2 * Pow2(k - 1)
  }

  /** A full binary tree of requests at most. */
  lemma {:induction false} RequestsBounded(node: Node, from: nat, to: nat, depth: nat, n: nat)
    requires depth <= MAX_SPLIT_DEPTH
    ensures n < Scan(node, from, to, depth, n).1 <= n + Pow2(MAX_SPLIT_DEPTH + 1 - depth) - 1
    decreases MAX_SPLIT_DEPTH - depth
  {
    hide IsRangeTooWide;
    var reply := node(n, from, to);
    if reply.Err? && Splits(reply.error, from, to, depth) {
      var next := Scan(node, from, Mid(from, to), depth + 1, n + 1).1;
      RequestsBounded(node, from, Mid(from, to), depth + 1, n + 1);
      RequestsBounded(node, Mid(from, to) + 1, to, depth + 1, next);
    }
  }

  /** One scan makes at most 8191 requests. */
  lemma ScanIsBounded(node: Node, from: nat, to: nat)
    ensures 1 <= Scan(node, from, to, 0, 0).1 <= 8191
  {
    RequestsBounded(node, from, to, 0, 0);
    assert Pow2(4) == 16;
    assert Pow2(8) == 16 * Pow2(4);
    assert Pow2(12) == 16 * Pow2(8);
    assert Pow2(13) == 8192;
  }

  /** The node serves every range of at most k blocks, and calls every wider one too wide. */
  ghost predicate ServesUpTo(node: Node, k: nat) {
    forall n: nat, from: nat, to: nat :: from <= to ==>
      if to - from + 1 <= k then node(n, from, to).Ok?
      else node(n, from, to).Err? && IsRangeTooWide(node(n, from, to).error)
  }

  /** How many blocks a scan copes with that may still split `levels` times. */
  function Capacity(k: nat, levels: nat): (r: nat)
    ensures r >= k
  {
    if levels == 0 then k else 2 * Capacity(k, levels - 1)
  }

  lemma ServesHere(node: Node, k: nat, n: nat, from: nat, to: nat)
    requires ServesUpTo(node, k) && from <= to
    ensures node(n, from, to).Ok? <==> to - from + 1 <= k
    ensures node(n, from, to).Err? ==> IsRangeTooWide(node(n, from, to).error)
  {}

  lemma HalfFits(size: nat, cap: nat)
    requires size >= 1
    ensures size <= 2 * cap <==> (size - 1) / 2 + 1 <= cap && size - ((size - 1) / 2 + 1) <= cap
  {}

  lemma {:induction false} SucceedsAtDepth(node: Node, k: nat, from: nat, to: nat, depth: nat, n: nat)
    requires k >= 1 && ServesUpTo(node, k) && from <= to && depth <= MAX_SPLIT_DEPTH
    ensures Scan(node, from, to, depth, n).0.Ok? <==> to - from + 1 <= Capacity(k, MAX_SPLIT_DEPTH - depth)
    decreases MAX_SPLIT_DEPTH - depth
  {
    hide IsRangeTooWide, ServesUpTo;
    ServesHere(node, k, n, from, to);
    if to - from + 1 > k && depth < MAX_SPLIT_DEPTH {
      var mid := Mid(from, to);
      var next := Scan(node, from, mid, depth + 1, n + 1).1;
      SucceedsAtDepth(node, k, from, mid, depth + 1, n + 1);
      SucceedsAtDepth(node, k, mid + 1, to, depth + 1, next);
      HalfFits(to - from + 1, Capacity(k, MAX_SPLIT_DEPTH - depth - 1));
      SplitSucceeds(node, from, to, depth, n);
      hide Scan;
    }
  }

  lemma SplitSucceeds(node: Node, from: nat, to: nat, depth: nat, n: nat)
    requires depth < MAX_SPLIT_DEPTH && from < to
    requires node(n, from, to).Err? && IsRangeTooWide(node(n, from, to).error)
    ensures var left := Scan(node, from, Mid(from, to), depth + 1, n + 1);
            Scan(node, from, to, depth, n).0.Ok? <==>
            left.0.Ok? && Scan(node, Mid(from, to) + 1, to, depth + 1, left.1).0.Ok?
  {
    hide IsRangeTooWide;
  }

  lemma FourLevels(k: nat, levels: nat)
    ensures Capacity(k, levels + 4) == 16 * Capacity(k, levels)
  {
    assert Capacity(k, levels + 2) == 4 * Capacity(k, levels);
  }

  /** On such a node a scan succeeds exactly if it spans at most 4096*k blocks. */
  lemma SucceedsExactly(node: Node, k: nat, from: nat, to: nat)
    requires k >= 1 && ServesUpTo(node, k) && from <= to
    ensures Scan(node, from, to, 0, 0).0.Ok? <==> to - from + 1 <= 4096 * k
  {
    hide Scan, ServesUpTo;
    SucceedsAtDepth(node, k, from, to, 0, 0);
    FourLevels(k, 0);
    FourLevels(k, 4);
    FourLevels(k, 8);
  }
}
