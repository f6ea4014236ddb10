/**
 * The freq limiter (leak.go): what cleaning the timestamp list can lose, and how many requests a
 * whole run can admit in any interval.
 */
module SlidingWindow {
  import opened Bursts
  import opened GoTypes
  import opened Intervals
  import opened Lists
  import opened Limiters

  predicate Nonincreasing(l: seq<int>) {
    forall i, j :: 0 <= i < j < |l| ==> l[i] >= l[j]
  }

  /** The timestamps of `l` that are still in the window. */
  function InWindow(l: seq<int>, windowStart: int): seq<int> {
    if l == [] then [] else (if l[0] >= windowStart then [l[0]] else []) + InWindow(l[1..], windowStart)
  }

  lemma InWindowHead(l: seq<int>, w: int)
    ensures InWindow(l, w) == if l == [] then [] else (if l[0] >= w then [l[0]] else []) + InWindow(l[1..], w)
  {
  }

  lemma {:induction false} InWindowConcat(l: seq<int>, m: seq<int>, w: int)
    ensures InWindow(l + m, w) == InWindow(l, w) + InWindow(m, w)
  {
    hide InWindow;
    InWindowHead(l, w);
    if l == [] {
      assert l + m == m;
    } else {
      assert (l + m)[0] == l[0] && (l + m)[1..] == l[1..] + m;
      InWindowHead(l + m, w);
      InWindowConcat(l[1..], m, w);
    }
  }

  lemma {:induction false} InWindowEmpty(l: seq<int>, w: int)
    ensures InWindow(l, w) == [] <==> forall i :: 0 <= i < |l| ==> l[i] < w
  {
    if l != [] {
      InWindowEmpty(l[1..], w);
      if InWindow(l, w) == [] {
        forall i | 0 <= i < |l| ensures l[i] < w {
          assert i > 0 ==> l[i] == l[1..][i - 1];
        }
      } else if l[0] < w {
        var k :| 0 <= k < |l[1..]| && l[1..][k] >= w;
        assert l[k + 1] >= w;
      }
    }
  }

  /** Unless nothing is in the window, cleaning cuts off as many entries at the end as are out of the window in front. */
  lemma CleanCuts(l: seq<int>, w: int)
    requires FirstLive(l, w) < |l|
    ensures Clean(l, w) == l[..|l| - FirstLive(l, w)]
  {
  }

  lemma OldAtEnd(l: seq<int>, v: nat, cut: seq<int>, w: int)
    requires v <= |l| && cut == l[|l| - v..]
    ensures (forall i :: 0 <= i < |cut| ==> cut[i] < w) <==> forall i :: |l| - v <= i < |l| ==> l[i] < w
  {
    assert forall i :: |l| - v <= i < |l| ==> l[i] == cut[i - (|l| - v)];
    assert forall i :: 0 <= i < |cut| ==> cut[i] == l[i + (|l| - v)];
  }

  /**
   * On any list, cleaning keeps every in-window timestamp exactly when the entries it cuts off at
   * the end, as many as there are out-of-window entries in front, are all out of the window.
   */
  lemma CleanKeepsExactly(l: seq<int>, w: int)
    ensures var v := FirstLive(l, w);
            InWindow(Clean(l, w), w) == InWindow(l, w) <==> v == |l| || forall i :: |l| - v <= i < |l| ==> l[i] < w
  {
    var v := FirstLive(l, w);
    InWindowEmpty(l, w);
    if v < |l| {
      hide FirstLive, Clean, Slice, InWindow;
      var kept, cut := l[..|l| - v], l[|l| - v..];
      assert l == kept + cut;
      CleanCuts(l, w);
      InWindowConcat(kept, cut, w);
      InWindowEmpty(cut, w);
      OldAtEnd(l, v, cut, w);
    }
  }

  /** On a non-increasing list the partial trim never happens: the list is kept whole or cleared. */
  lemma CleanKeepsOrClears(l: seq<int>, w: int)
    requires Nonincreasing(l)
    ensures Clean(l, w) == if l != [] && l[0] >= w then l else []
  {
    var v := FirstLive(l, w);
    if 0 < v < |l| {
      assert false;
    }
  }

  /** No in-window timestamp is ever lost from a non-increasing list. */
  lemma CleanLosesNothing(l: seq<int>, w: int)
    requires Nonincreasing(l)
    ensures InWindow(Clean(l, w), w) == InWindow(l, w)
  {
    CleanKeepsOrClears(l, w);
    InWindowEmpty(l, w);
    assert l != [] ==> forall i :: 0 < i < |l| ==> l[0] >= l[i];
  }

  /** An earlier cleaning does not change what a later one leaves. */
  lemma CleanTwice(l: seq<int>, w: int, w': int)
    requires Nonincreasing(l) && w <= w'
    ensures Clean(Clean(l, w), w') == Clean(l, w')
  {
    CleanKeepsOrClears(l, w);
    CleanKeepsOrClears(l, w');
    CleanKeepsOrClears(Clean(l, w), w');
  }

  /** It is so for all non-increasing lists exactly when the earlier cleaning asks for no less of the past. */
  lemma CleanTwiceExactly(w: int, w': int)
    ensures (forall l :: Nonincreasing(l) ==> Clean(Clean(l, w), w') == Clean(l, w')) <==> w <= w'
  {
    hide Clean;
    if w <= w' {
      forall l | Nonincreasing(l) ensures Clean(Clean(l, w), w') == Clean(l, w') {
        CleanTwice(l, w, w');
      }
    } else {
      var l := [w'];
      CleanKeepsOrClears(l, w);
      CleanKeepsOrClears(l, w');
      CleanKeepsOrClears([], w');
    }
  }

  /** One request: the list it leaves, and the instant of the push when it is admitted. */
  function Step(l: seq<int>, lim: Limit, ev: Event): (seq<int>, Option<int>) {
    var (browsed, hit) := LeakBrowse(l, lim, ev.clk);
    if ev.check && !hit then (LeakUpdate(browsed, lim, ev.clk), Some(ev.clk.u2)) else (browsed, None)
  }

  /** A sequential run on one key: the list it leaves and the instants of its admissions. */
  function Run(l: seq<int>, lim: Limit, evs: seq<Event>): (seq<int>, seq<int>)
    decreases evs
  {
    if evs == [] then (l, []) else
      var (next, admitted) := Step(l, lim, evs[0]);
      var (last, later) := Run(next, lim, evs[1..]);
      (last, (if admitted.Some? then [admitted.value] else []) + later)
  }

  /** The part of the window that the millisecond timestamps can tell apart. */
  function WholeMillis(lim: Limit): int {
    Millis(lim.time) * MILLI
  }

  /**
   * The state of a run that has admitted at `hist` (oldest first) and last read the clock at `now`:
   * the list holds the newest admissions, and all it no longer holds had left the window.
   */
  ghost predicate Inv(l: seq<int>, hist: seq<int>, now: int, lim: Limit) {
    && |l| <= |hist| && |l| <= lim.count
    && (forall i :: 0 <= i < |l| ==> l[i] == Millis(hist[|hist| - 1 - i]))
    && (forall i :: 0 <= i < |hist| - |l| ==> Millis(hist[i]) < WindowStart(now, lim))
    && (forall i :: 0 <= i < |hist| ==> hist[i] <= now)
    && Nondecreasing(hist)
    && Spread(hist, lim.count, WholeMillis(lim))
  }

  lemma InvNonincreasing(l: seq<int>, hist: seq<int>, now: int, lim: Limit)
    requires Inv(l, hist, now, lim)
    ensures Nonincreasing(l)
  {
    forall i, j | 0 <= i < j < |l| ensures l[i] >= l[j] {
      assert hist[|hist| - 1 - j] <= hist[|hist| - 1 - i];
    }
  }

  lemma InvClean(l: seq<int>, hist: seq<int>, now: int, lim: Limit, t: int)
    requires Inv(l, hist, now, lim) && now <= t
    ensures Inv(Clean(l, WindowStart(t, lim)), hist, t, lim)
  {
    InvNonincreasing(l, hist, now, lim);
    CleanKeepsOrClears(l, WindowStart(t, lim));
    forall i | |hist| - |l| <= i < |hist| && l[0] < WindowStart(t, lim)
      ensures Millis(hist[i]) < WindowStart(t, lim)
    {
      assert hist[i] <= hist[|hist| - 1];
    }
  }

  lemma MillisApart(x: int, t: int, lim: Limit)
    requires Millis(x) < WindowStart(t, lim)
    ensures t - x > WholeMillis(lim)
  {
  }

  lemma InvPush(l: seq<int>, hist: seq<int>, now: int, lim: Limit, t: int)
    requires Inv(l, hist, now, lim) && now <= t && |l| < lim.count && lim.time > 0
    ensures Inv(Pushed(l, [Millis(t)]), hist + [t], t, lim)
  {
    hide Millis, WholeMillis;
    InvLater(l, hist, now, lim, t);
    forall i | 0 <= i && i + lim.count <= |hist| ensures t - hist[i] > WholeMillis(lim) {
      assert Millis(hist[i]) < WindowStart(t, lim);
      MillisApart(hist[i], t, lim);
    }
    assert Pushed(l, [Millis(t)]) == [Millis(t)] + l;
  }

  lemma InvLater(l: seq<int>, hist: seq<int>, now: int, lim: Limit, t: int)
    requires Inv(l, hist, now, lim) && now <= t
    ensures Inv(l, hist, t, lim)
  {
  }

  lemma StepKeepsInv(l: seq<int>, hist: seq<int>, now: int, lim: Limit, ev: Event)
    requires Inv(l, hist, now, lim) && ev.clk.From(now) && ValidLimit(lim)
    ensures var (next, admitted) := Step(l, lim, ev);
            Inv(next, if admitted.Some? then hist + [admitted.value] else hist, ev.clk.u4, lim)
  {
    var clk := ev.clk;
    InvClean(l, hist, now, lim, clk.b1);
    var (browsed, hit) := LeakBrowse(l, lim, clk);
    if ev.check && !hit {
      var cleaned := Clean(browsed, WindowStart(clk.u1, lim));
      InvClean(browsed, hist, clk.b1, lim, clk.u1);
      assert |cleaned| <= |browsed| by {
        InvNonincreasing(browsed, hist, clk.b1, lim);
        CleanKeepsOrClears(browsed, WindowStart(clk.u1, lim));
      }
      InvPush(cleaned, hist, clk.u1, lim, clk.u2);
      InvLater(LeakUpdate(browsed, lim, clk), hist + [clk.u2], clk.u2, lim, clk.u4);
    } else {
      InvLater(browsed, hist, clk.b1, lim, clk.u4);
    }
  }

  lemma {:induction false} RunKeepsInv(l: seq<int>, hist: seq<int>, now: int, lim: Limit, evs: seq<Event>)
    returns (last: int)
    requires Inv(l, hist, now, lim) && Timed(now, evs) && ValidLimit(lim)
    ensures var (left, admissions) := Run(l, lim, evs);
            Inv(left, hist + admissions, last, lim)
    decreases evs
  {
    hide Inv, Step;
    if evs == [] {
      assert hist + [] == hist;
      last := now;
    } else {
      var (next, admitted) := Step(l, lim, evs[0]);
      StepKeepsInv(l, hist, now, lim, evs[0]);
      var hist' := if admitted.Some? then hist + [admitted.value] else hist;
      last := RunKeepsInv(next, hist', evs[0].clk.u4, lim, evs[1..]);
      assert hist + Run(l, lim, evs).1 == hist' + Run(next, lim, evs[1..]).1;
    }
  }

  /** In every reachable state the list is non-increasing and no longer than `count`. */
  lemma ListInvariant(now: int, lim: Limit, evs: seq<Event>)
    requires Timed(now, evs) && ValidLimit(lim)
    ensures Nonincreasing(Run([], lim, evs).0) && |Run([], lim, evs).0| <= lim.count
  {
    var last := RunKeepsInv([], [], now, lim, evs);
    var (left, admissions) := Run([], lim, evs);
    InvNonincreasing(left, [] + admissions, last, lim);
  }

  /** In every run, any closed interval of the window's length in whole milliseconds holds at most `count` admissions. */
  lemma SlidingWindowSafe(now: int, lim: Limit, evs: seq<Event>)
    requires Timed(now, evs) && ValidLimit(lim)
    ensures AtMost(Run([], lim, evs).1, lim.count, WholeMillis(lim))
  {
    var _ := RunKeepsInv([], [], now, lim, evs);
    var admissions := Run([], lim, evs).1;
    assert [] + admissions == admissions;
    SpreadIffAtMost(admissions, lim.count, WholeMillis(lim));
  }

  // The limit is met on the configured window itself exactly when that is a whole number of milliseconds.

  lemma BurstStep(k: nat, t: int, lim: Limit)
    requires k < lim.count && ValidLimit(lim)
    ensures Step(Copies(k, Millis(t)), lim, Event(true, Instant(t))) == (Copies(k + 1, Millis(t)), Some(t))
  {
    var l := Copies(k, Millis(t));
    CleanKeepsOrClears(l, WindowStart(t, lim));
    assert Clean(l, WindowStart(t, lim)) == l;
    assert Pushed(l, [Millis(t)]) == [Millis(t)] + l;
  }

  lemma {:induction false} BurstRun(k: nat, n: nat, t: int, lim: Limit, tail: seq<Event>)
    requires k + n <= lim.count && ValidLimit(lim)
    ensures Run(Copies(k, Millis(t)), lim, Burst(n, t) + tail).1
         == Copies(n, t) + Run(Copies(k + n, Millis(t)), lim, tail).1
    decreases n
  {
    hide Step;
    var evs := Burst(n, t) + tail;
    if n == 0 {
      assert evs == tail;
    } else {
      assert evs[0] == Event(true, Instant(t)) && evs[1..] == Burst(n - 1, t) + tail;
      BurstStep(k, t, lim);
      BurstRun(k + 1, n - 1, t, lim, tail);
      assert Copies(n, t) == [t] + Copies(n - 1, t);
    }
  }

  /** Once all of a full list has left the window the next request is admitted. */
  lemma LateRun(lim: Limit, t: int, t': int)
    requires ValidLimit(lim) && Millis(t) < WindowStart(t', lim)
    ensures Run(Copies(lim.count, Millis(t)), lim, [Event(true, Instant(t'))]).1 == [t']
  {
    var full := Copies(lim.count, Millis(t));
    CleanKeepsOrClears(full, WindowStart(t', lim));
    var evs := [Event(true, Instant(t'))];
    assert Step(full, lim, evs[0]).1 == Some(t');
    assert evs[1..] == [];
  }

  /** A window with a fraction of a millisecond: `count` requests at the end of one millisecond and one more too soon. */
  lemma FractionalWindowFails(lim: Limit)
    requires ValidLimit(lim) && lim.time % 1_000_000 != 0
    ensures exists evs :: Timed(0, evs) && !AtMost(Run([], lim, evs).1, lim.count, lim.time)
  {
    hide Step, Run, Burst, Copies;
    var t := MILLI - 1;
    var t' := (Millis(lim.time) + 1) * MILLI;
    var tail := [Event(true, Instant(t'))];
    var evs := Burst(lim.count, t) + tail;
    BurstTimed(lim.count, t, tail);
    LateRun(lim, t, t');
    assert Copies(0, Millis(t)) == [];
    BurstRun(0, lim.count, t, lim, tail);
    var admissions := Run([], lim, evs).1;
    assert admissions == Copies(lim.count, t) + [t'];
    SpreadIffAtMost(admissions, lim.count, lim.time);
    assert admissions[lim.count] - admissions[0] <= lim.time;
  }

  /**
   * Every run keeps every closed interval of the configured window's length to `count` admissions,
   * if and only if that window is a whole number of milliseconds.
   */
  lemma SlidingWindowExact(lim: Limit)
    requires ValidLimit(lim)
    ensures (forall now, evs :: Timed(now, evs) ==> AtMost(Run([], lim, evs).1, lim.count, lim.time))
       <==> lim.time % 1_000_000 == 0
  {
    if lim.time % 1_000_000 == 0 {
      forall now, evs | Timed(now, evs) ensures AtMost(Run([], lim, evs).1, lim.count, lim.time) {
        SlidingWindowSafe(now, lim, evs);
      }
    } else {
      FractionalWindowFails(lim);
    }
  }
}
