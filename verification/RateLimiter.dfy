/**
 The server's fixed-window rate limiter (crates/server/src/limit.rs). Times are readings of a
 monotone clock; a request reads it once to check the window and, if the window is over, once more
 to start the next one.
 */
module RateLimiter {
  import opened Seqs

  datatype Window = Window(start: int, count: nat)

  datatype Request = Request(at: int, restart: int)

  function Elapsed(start: int, t: int): nat {
    if t < start then 0 else t - start
  }

  predicate Rolls(window: nat, w: Window, r: Request) {
    Elapsed(w.start, r.at) >= window
  }

  function Checked(max: nat, window: nat, w: Window, r: Request): (Window, bool) {
    if max == 0 then (w, true)
    else
      var open := if Rolls(window, w, r) then Window(r.restart, 0) else w;
      if open.count >= max then (open, false) else (open.(count := open.count + 1), true)
  }

  class RateLimiter {
    const max: nat
    const window: nat
    var start: int
    var count: nat

    ghost function View(): Window
      reads this
    {
      Window(start, count)
    }

    constructor (max: nat, window: nat, now: int)
      ensures this.max == max && this.window == window && View() == Window(now, 0)
    {
      this.max, this.window := max, window;
      start, count := now, 0;
    }

    method Check(r: Request) returns (ok: bool)
      modifies this
      ensures (View(), ok) == Checked(max, window, old(View()), r)
    {
      if max == 0 {
        return true;
      }
      if Elapsed(start, r.at) >= window {
        start := r.restart;
        count := 0;
      }
      if count >= max {
        return false;
      }
      count := count + 1;
      ok := true;
    }
  }

  /**
   A request is accepted exactly if the limit is off, its window is over (at once, if windows have no
   length), or fewer than `max` were counted in it; only accepted requests are counted.
   */
  lemma CheckedExactly(max: nat, window: nat, w: Window, r: Request)
    ensures var (after, ok) := Checked(max, window, w, r);
            var over := window == 0 || r.at - w.start >= window;
            && (ok <==> max == 0 || over || w.count < max)
            && after == if max == 0 || !ok then w
                        else if over then Window(r.restart, 1) else Window(w.start, w.count + 1)
  {}

  // ---- traces ----

  /** The readings never go back. */
  predicate Ordered(from: int, rs: seq<Request>)
    decreases |rs|
  {
    rs == [] || (from <= rs[0].at <= rs[0].restart && Ordered(rs[0].restart, rs[1..]))
  }

  /** How many of the requests are accepted from state `w`. */
  function Accepted(max: nat, window: nat, w: Window, rs: seq<Request>): nat
    decreases |rs|
  {
    if rs == [] then 0
    else
      var (next, ok) := Checked(max, window, w, rs[0]);
      (if ok then 1 else 0) + Accepted(max, window, next, rs[1..])
  }

  function After(max: nat, window: nat, w: Window, rs: seq<Request>): Window
    decreases |rs|
  {
    if rs == [] then w else After(max, window, Checked(max, window, w, rs[0]).0, rs[1..])
  }

  predicate Before(rs: seq<Request>, b: int) {
    forall k :: 0 <= k < |rs| ==> rs[k].at <= b
  }

  lemma BeforeRest(rs: seq<Request>, b: int)
    requires Before(rs, b) && rs != []
    ensures Before(rs[1..], b)
  {}

  /** Until the open window ends, only what it has left is accepted. */
  lemma {:induction false} WithinWindow(max: nat, window: nat, w: Window, rs: seq<Request>, b: int)
    requires max > 0 && window > 0 && w.count <= max
    requires Before(rs, b) && b < w.start + window
    ensures Accepted(max, window, w, rs) <= max - w.count
    decreases |rs|
  {
    if rs != [] {
      BeforeRest(rs, b);
      WithinWindow(max, window, Checked(max, window, w, rs[0]).0, rs[1..], b);
    }
  }

  /** If the open window was still running at `a`, at most one more opens by `a + window`. */
  lemma {:induction false} OneMoreWindow(max: nat, window: nat, w: Window, rs: seq<Request>, a: int, b: int)
    requires max > 0 && window > 0 && w.count <= max
    requires a < w.start + window && b <= a + window
    requires Ordered(w.start, rs) && Before(rs, b)
    ensures Accepted(max, window, w, rs) <= (max - w.count) + max
    decreases |rs|
  {
    if rs != [] {
      BeforeRest(rs, b);
      var next := Checked(max, window, w, rs[0]).0;
      if Rolls(window, w, rs[0]) {
        WithinWindow(max, window, next, rs[1..], b);
      } else {
        OrderedFrom(w.start, rs[0].restart, rs[1..]);
        OneMoreWindow(max, window, next, rs[1..], a, b);
      }
    }
  }

  lemma OrderedFrom(from: int, later: int, rs: seq<Request>)
    requires from <= later && Ordered(later, rs)
    ensures Ordered(from, rs)
  {}

  /**
   Any stretch of requests no longer than the window contains at most 2*max accepted ones, whatever
   state the limiter was in when it began.
   */
  lemma AtMostTwice(max: nat, window: nat, w: Window, rs: seq<Request>)
    requires max > 0 && window > 0 && w.count <= max
    requires Ordered(w.start, rs)
    requires rs != [] ==> Before(rs, rs[0].at + window)
    ensures Accepted(max, window, w, rs) <= 2 * max
  {
    if rs != [] {
      var a := rs[0].at;
      if Rolls(window, w, rs[0]) {
        BeforeRest(rs, a + window);
        OneMoreWindow(max, window, Checked(max, window, w, rs[0]).0, rs[1..], a, a + window);
      } else {
        OneMoreWindow(max, window, w, rs, a, a + window);
      }
    }
  }

  /** The counter never passes `max`, and a state reached on ordered readings starts before the rest. */
  lemma {:induction false} AfterIsSound(max: nat, window: nat, w: Window, rs: seq<Request>, more: seq<Request>)
    requires w.count <= max && Ordered(w.start, rs + more)
    ensures After(max, window, w, rs).count <= max && Ordered(After(max, window, w, rs).start, more)
    decreases |rs|
  {
    if rs == [] {
      AppendNil(more);
    } else {
      assert (rs + more)[1..] == rs[1..] + more;
      var next := Checked(max, window, w, rs[0]).0;
      OrderedFrom(next.start, rs[0].restart, rs[1..] + more);
      AfterIsSound(max, window, next, rs[1..], more);
    }
  }

  /** The bound for every trace of a fresh limiter and every stretch of it. */
  lemma EveryInterval(max: nat, window: nat, now: int, before: seq<Request>, stretch: seq<Request>, after: seq<Request>)
    requires max > 0 && window > 0
    requires Ordered(now, before + stretch + after)
    requires stretch != [] ==> Before(stretch, stretch[0].at + window)
    ensures Accepted(max, window, After(max, window, Window(now, 0), before), stretch) <= 2 * max
  {
    OrderedPrefix(now, before + stretch, after);
    AfterIsSound(max, window, Window(now, 0), before, stretch);
    AtMostTwice(max, window, After(max, window, Window(now, 0), before), stretch);
  }

  lemma {:induction false} OrderedPrefix(from: int, rs: seq<Request>, more: seq<Request>)
    requires Ordered(from, rs + more)
    ensures Ordered(from, rs)
    decreases |rs|
  {
    if rs != [] {
      assert (rs + more)[1..] == rs[1..] + more;
      OrderedPrefix(rs[0].restart, rs[1..], more);
    }
  }

  /** Between two openings of a window at most `max` requests are accepted, the opening one included. */
  lemma {:induction false} PerWindow(max: nat, window: nat, w: Window, rs: seq<Request>)
    requires max > 0 && w.count <= max
    requires forall k :: 0 <= k < |rs| ==> !Rolls(window, w, rs[k])
    ensures Accepted(max, window, w, rs) <= max - w.count
    ensures After(max, window, w, rs) == Window(w.start, w.count + Accepted(max, window, w, rs))
    decreases |rs|
  {
    if rs != [] {
      var next := Checked(max, window, w, rs[0]).0;
      forall k | 0 <= k < |rs[1..]|
        ensures !Rolls(window, next, rs[1..][k])
      {
        assert !Rolls(window, w, rs[k + 1]);
      }
      PerWindow(max, window, next, rs[1..]);
    }
  }

  // ---- the bound is sharp, and needs a window ----

  function Burst(n: nat, t: int): seq<Request> {
    if n == 0 then [] else [Request(t, t)] + Burst(n - 1, t)
  }

  lemma {:induction false} BurstFits(max: nat, window: nat, w: Window, n: nat, t: int, more: seq<Request>)
    requires max > 0 && w.count + n <= max && t < w.start + window && w.start <= t
    ensures Accepted(max, window, w, Burst(n, t) + more) ==
            n + Accepted(max, window, Window(w.start, w.count + n), more)
    decreases n
  {
    var rs := Burst(n, t) + more;
    if n == 0 {
      assert rs == more;
    } else {
      assert rs[0] == Request(t, t) && rs[1..] == Burst(n - 1, t) + more;
      BurstFits(max, window, Window(w.start, w.count + 1), n - 1, t, more);
    }
  }

  /** Two bursts on either side of a window's end: 2*max accepted one clock tick apart. */
  lemma TwiceIsReached(max: nat, window: nat)
    requires max > 0 && window > 0
    ensures Accepted(max, window, Window(0, 0), Burst(max, window - 1) + Burst(max, window)) == 2 * max
  {
    var late := Burst(max, window);
    BurstFits(max, window, Window(0, 0), max, window - 1, late);
    var second := Checked(max, window, Window(0, max), late[0]).0;
    assert late[1..] == Burst(max - 1, window);
    BurstFits(max, window, second, max - 1, window, []);
    AppendNil(Burst(max - 1, window));
  }

  /** With a zero window every request opens a new one, and the limiter accepts everything. */
  lemma {:induction false} ZeroWindowAcceptsAll(max: nat, w: Window, rs: seq<Request>)
    ensures Accepted(max, 0, w, rs) == |rs|
    decreases |rs|
  {
    if rs != [] {
      ZeroWindowAcceptsAll(max, Checked(max, 0, w, rs[0]).0, rs[1..]);
    }
  }

  /** `max == 0` disables the limiter. */
  lemma {:induction false} ZeroMaxAcceptsAll(window: nat, w: Window, rs: seq<Request>)
    ensures Accepted(0, window, w, rs) == |rs|
    decreases |rs|
  {
    if rs != [] {
      ZeroMaxAcceptsAll(window, w, rs[1..]);
    }
  }

  /** The bound, as one statement about a configuration. */
  ghost predicate Limits(max: nat, window: nat) {
    forall w: Window, rs: seq<Request> ::
      w.count <= max && Ordered(w.start, rs) && (rs != [] ==> Before(rs, rs[0].at + window)) ==>
        Accepted(max, window, w, rs) <= 2 * max
  }

  lemma {:induction false} BurstIsOrdered(n: nat, t: int)
    ensures |Burst(n, t)| == n && Ordered(t, Burst(n, t)) && Before(Burst(n, t), t)
    ensures n > 0 ==> Burst(n, t)[0].at == t
  {
    if n > 0 {
      BurstIsOrdered(n - 1, t);
    }
  }

  /** A configuration limits anything exactly if both its numbers are positive. */
  lemma LimitsIff(max: nat, window: nat)
    ensures Limits(max, window) <==> max > 0 && window > 0
  {
    if max > 0 && window > 0 {
      forall w: Window, rs: seq<Request> |
        w.count <= max && Ordered(w.start, rs) && (rs != [] ==> Before(rs, rs[0].at + window))
        ensures Accepted(max, window, w, rs) <= 2 * max
      {
        AtMostTwice(max, window, w, rs);
      }
    } else {
      var rs := Burst(2 * max + 1, 0);
      BurstIsOrdered(2 * max + 1, 0);
      if max == 0 {
        ZeroMaxAcceptsAll(window, Window(0, 0), rs);
      } else {
        ZeroWindowAcceptsAll(max, Window(0, 0), rs);
      }
      assert Accepted(max, window, Window(0, 0), rs) > 2 * max;
    }
  }
}
