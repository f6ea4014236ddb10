/** The count limiter (count.go) over a counter with an expiry set at creation: whole runs on one key. */
module FixedWindow {
  import opened Bursts
  import opened GoTypes
  import opened Intervals
  import opened Limiters
  import opened Windows

  /** One request: the cell it leaves, and the bump when it is admitted. */
  function Step(c: Cell, lim: Limit, ev: Event): (r: (Cell, Option<Hit>))
    requires ValidLimit(lim) && CellOk(c)
    ensures CellOk(r.0)
  {
    var (browsed, hit) := CountBrowse(c, lim, ev.clk);
    if ev.check && !hit then
      var updated := CountUpdate(browsed, lim, ev.clk);
      (updated, Some(HitOf(updated.value, ev.clk.u1, lim.time)))
    else
      (browsed, None)
  }

  /** The bumps of a sequential run on one key, one for each admission. */
  function Run(c: Cell, lim: Limit, evs: seq<Event>): seq<Hit>
    requires ValidLimit(lim) && CellOk(c)
    decreases evs
  {
    if evs == [] then [] else
      var (next, admitted) := Step(c, lim, evs[0]);
      (if admitted.Some? then [admitted.value] else []) + Run(next, lim, evs[1..])
  }

  lemma StepTracks(x: Hit, c: Cell, now: int, lim: Limit, ev: Event)
    requires ValidLimit(lim) && CellOk(c) && Tracks(x, c, now, lim.time) && ev.clk.From(now)
    ensures var (next, admitted) := Step(c, lim, ev);
            Tracks(x, next, ev.clk.u4, lim.time) && (admitted.Some? ==> After(x, admitted.value, lim.time))
  {
    TracksDrop(x, c, now, lim.time, ev.clk.b1);
    var (browsed, hit) := CountBrowse(c, lim, ev.clk);
    if ev.check && !hit {
      TracksBump(x, browsed, ev.clk.b1, lim.time, ev.clk.u1, ev.clk.u2);
    }
  }

  lemma StepSound(c: Cell, lim: Limit, ev: Event, now: int)
    requires ValidLimit(lim) && CellOk(c) && ev.clk.From(now)
    ensures var (next, admitted) := Step(c, lim, ev);
            admitted.Some? ==> Sound(admitted.value, lim.time, lim.count) && Tracks(admitted.value, next, ev.clk.u4, lim.time)
  {
    var (browsed, hit) := CountBrowse(c, lim, ev.clk);
    if ev.check && !hit {
      BumpSound(browsed, lim.time, ev.clk.u1, ev.clk.u2);
    }
  }

  lemma {:induction false} RunAfter(x: Hit, c: Cell, now: int, lim: Limit, evs: seq<Event>)
    requires ValidLimit(lim) && CellOk(c) && Tracks(x, c, now, lim.time) && Timed(now, evs)
    ensures forall i :: 0 <= i < |Run(c, lim, evs)| ==> After(x, Run(c, lim, evs)[i], lim.time)
    decreases evs
  {
    hide Step, Tracks, After;
    if evs != [] {
      StepTracks(x, c, now, lim, evs[0]);
      RunAfter(x, Step(c, lim, evs[0]).0, evs[0].clk.u4, lim, evs[1..]);
    }
  }

  /** Every bump is within its window's limit, and windows open more than the configured time apart. */
  lemma {:induction false} RunIsLog(c: Cell, now: int, lim: Limit, evs: seq<Event>)
    requires ValidLimit(lim) && CellOk(c) && Timed(now, evs)
    ensures IsLog(Run(c, lim, evs), lim.time, lim.count)
    decreases evs
  {
    hide Step, Tracks, After, Sound;
    if evs != [] {
      var (next, admitted) := Step(c, lim, evs[0]);
      RunIsLog(next, evs[0].clk.u4, lim, evs[1..]);
      if admitted.Some? {
        StepSound(c, lim, evs[0], now);
        RunAfter(admitted.value, next, evs[0].clk.u4, lim, evs[1..]);
      }
    }
  }

  /** In every run any closed interval of the window's length holds at most `2 * count - 1` admissions. */
  lemma FixedWindowSafe(now: int, lim: Limit, evs: seq<Event>)
    requires ValidLimit(lim) && Timed(now, evs)
    ensures AtMost(Times(Run(None, lim, evs)), 2 * lim.count - 1, lim.time)
  {
    var log := Run(None, lim, evs);
    RunIsLog(None, now, lim, evs);
    WindowSpread(log, lim.time, lim.count);
    SpreadIffAtMost(Times(log), 2 * lim.count - 1, lim.time);
  }

  // The bound is reached: one request opens a window, the rest of the window's limit comes at its
  // last live instant, and the next window is filled one instant later.

  lemma EmptyRun(c: Cell, lim: Limit)
    requires ValidLimit(lim) && CellOk(c)
    ensures Times(Run(c, lim, [])) == []
  {
  }

  lemma RunHead(c: Cell, lim: Limit, ev: Event, tail: seq<Event>)
    requires ValidLimit(lim) && CellOk(c)
    ensures var (next, admitted) := Step(c, lim, ev);
            Times(Run(c, lim, [ev] + tail)) == (if admitted.Some? then [admitted.value.time] else []) + Times(Run(next, lim, tail))
  {
    hide Step;
    assert ([ev] + tail)[1..] == tail;
    var (next, admitted) := Step(c, lim, ev);
    if admitted.Some? {
      TimesConcat([admitted.value], Run(next, lim, tail));
    }
  }

  lemma CheckRun(c: Cell, t: int, lim: Limit, tail: seq<Event>)
    requires ValidLimit(lim) && CellOk(c) && Value(Drop(c, t)) < lim.count
    ensures var e := Add(c, 1, lim.time, t, t);
            CellOk(Some(e)) && Times(Run(c, lim, [Event(true, Instant(t))] + tail)) == [t] + Times(Run(Some(e), lim, tail))
  {
    var (next, admitted) := Step(c, lim, Event(true, Instant(t)));
    assert admitted.Some? && admitted.value.time == t && next == Some(Add(c, 1, lim.time, t, t));
    RunHead(c, lim, Event(true, Instant(t)), tail);
  }

  lemma {:induction false} BurstRun(c: Cell, n: nat, t: int, lim: Limit, tail: seq<Event>)
    requires ValidLimit(lim) && c.Some? && CellOk(c) && t <= c.value.expires.time && c.value.value + n <= lim.count
    ensures Times(Run(c, lim, Burst(n, t) + tail))
         == Copies(n, t) + Times(Run(Some(c.value.(value := c.value.value + n)), lim, tail))
    decreases n
  {
    hide Run;
    if n == 0 {
      assert Burst(n, t) + tail == tail;
    } else {
      assert Burst(n, t) + tail == [Event(true, Instant(t))] + (Burst(n - 1, t) + tail);
      CheckRun(c, t, lim, Burst(n - 1, t) + tail);
      BurstRun(Some(c.value.(value := c.value.value + 1)), n - 1, t, lim, tail);
    }
  }

  function FullWindow(lim: Limit, t: int, tail: seq<Event>): seq<Event>
    requires ValidLimit(lim)
  {
    [Event(true, Instant(t))] + (Burst(lim.count - 1, t) + tail)
  }

  /** Opens a window at 0, fills it at its last live instant, then fills the next window at once. */
  function DoubleBurst(lim: Limit): seq<Event>
    requires ValidLimit(lim)
  {
    [Event(true, Instant(0))] + (Burst(lim.count - 1, lim.time) + FullWindow(lim, lim.time + 1, []))
  }

  lemma DoubleBurstTimed(lim: Limit)
    requires ValidLimit(lim)
    ensures Timed(0, DoubleBurst(lim))
  {
    hide Burst;
    var n, t := lim.count, lim.time;
    BurstTimed(n - 1, t + 1, []);
    var next := FullWindow(lim, t + 1, []);
    assert next[1..] == Burst(n - 1, t + 1) + [];
    BurstTimed(n - 1, t, next);
    assert DoubleBurst(lim)[1..] == Burst(n - 1, t) + next;
  }

  lemma DoubleBurstRun(lim: Limit)
    requires ValidLimit(lim)
    ensures Times(Run(None, lim, DoubleBurst(lim)))
         == [0] + (Copies(lim.count - 1, lim.time) + ([lim.time + 1] + Copies(lim.count - 1, lim.time + 1)))
  {
    hide Run, Burst, Copies;
    var n, t := lim.count, lim.time;
    var w1, w2 := Counter(1, At(t)), Counter(1, At(t + 1 + t));
    var next := FullWindow(lim, t + 1, []);
    CheckRun(None, 0, lim, Burst(n - 1, t) + next);
    BurstRun(Some(w1), n - 1, t, lim, next);
    CheckRun(Some(w1.(value := n)), t + 1, lim, Burst(n - 1, t + 1) + []);
    BurstRun(Some(w2), n - 1, t + 1, lim, []);
    EmptyRun(Some(w2.(value := n)), lim);
  }

  lemma DoubleBurstCount(lim: Limit)
    requires ValidLimit(lim)
    ensures !AtMost(Times(Run(None, lim, DoubleBurst(lim))), 2 * lim.count - 2, lim.time)
  {
    hide Run, Burst, DoubleBurst, Copies;
    var ts := Times(Run(None, lim, DoubleBurst(lim)));
    DoubleBurstRun(lim);
    CountInBlock(ts, 1, 2 * lim.count - 1, 1, lim.time);
    assert CountIn(ts, 1, lim.time) > 2 * lim.count - 2;
  }

  /** `n` bounds the admissions of every run in every interval of the window's length if and only if `n >= 2 * count - 1`. */
  lemma FixedWindowExact(lim: Limit, n: nat)
    requires ValidLimit(lim)
    ensures (forall now, evs :: Timed(now, evs) ==> AtMost(Times(Run(None, lim, evs)), n, lim.time)) <==> n >= 2 * lim.count - 1
  {
    hide Run, DoubleBurst;
    if n >= 2 * lim.count - 1 {
      forall now, evs | Timed(now, evs) ensures AtMost(Times(Run(None, lim, evs)), n, lim.time) {
        FixedWindowSafe(now, lim, evs);
      }
    } else {
      DoubleBurstTimed(lim);
      DoubleBurstCount(lim);
      var log := Times(Run(None, lim, DoubleBurst(lim)));
      var lo :| CountIn(log, lo, lim.time) > 2 * lim.count - 2;
      assert CountIn(log, lo, lim.time) > n;
    }
  }
}
