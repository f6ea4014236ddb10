/** The accumulate limiter (base.go): a total counter with a clamped expiry gates a fixed-window counter. */
module Accumulate {
  import opened Bursts
  import opened GoTypes
  import opened Intervals
  import opened Limiters
  import opened Windows

  /**
   * The clamped expiry is ten windows, but an hour at least and seven days at most, unless the product
   * wraps; it covers the window exactly when the window is at most seven days.
   */
  lemma ClampCoversWindow(window: int)
    requires IsInt64(window)
    ensures IsInt64(10 * window) ==> ClampTTL(window) == Min(Max(10 * window, 3_600_000_000_000), 604_800_000_000_000)
    ensures HOUR <= ClampTTL(window) <= SEVEN_DAYS
    ensures ClampTTL(window) >= window <==> window <= SEVEN_DAYS
  {
    if 0 <= window <= SEVEN_DAYS {
      assert IsInt64(window * 10);
    }
  }

  /**
   * An admitted request and the bump of the counter that let it through, which is when it is
   * admitted: the total counter while that has not passed the base, then the secondary counter.
   */
  datatype Pass = Free(hit: Hit) | Gated(hit: Hit)

  /** The counters can still be bumped `n` times without passing the largest 64-bit integer. */
  predicate Ready(c: BaseCells, n: nat) {
    && CellOk(c.total) && Value(c.total) + n <= MAX_INT64
    && CellOk(c.secondary) && Value(c.secondary) + n <= MAX_INT64
  }

  const NO_CELLS := BaseCells(None, None)

  /** One request: the cells it leaves, and how it was let through when it is admitted. */
  function Step(c: BaseCells, lim: Limit, ev: Event): (r: (BaseCells, Option<Pass>))
    requires ValidLimit(lim) && Ready(c, 1)
    ensures forall n: nat :: Ready(c, n + 1) ==> Ready(r.0, n)
  {
    var (browsed, hit) := BaseBrowse(c, lim, ev.clk);
    if ev.check && !hit then
      var updated := BaseUpdate(browsed, lim, ev.clk);
      (updated, Some(if updated.total.value.value <= lim.base + 1
                     then Free(HitOf(updated.total.value, ev.clk.u1, ClampTTL(lim.time)))
                     else Gated(HitOf(updated.secondary.value, ev.clk.u3, lim.time))))
    else
      (browsed, None)
  }

  /** The admitted requests of a sequential run on one key. */
  function Run(c: BaseCells, lim: Limit, evs: seq<Event>): seq<Pass>
    requires ValidLimit(lim) && Ready(c, |evs|)
    decreases evs
  {
    if evs == [] then [] else
      var (next, admitted) := Step(c, lim, evs[0]);
      (if admitted.Some? then [admitted.value] else []) + Run(next, lim, evs[1..])
  }

  function Instants(ps: seq<Pass>): (ts: seq<int>)
    ensures |ts| == |ps| && forall i :: 0 <= i < |ps| ==> ts[i] == ps[i].hit.time
  {
    seq(|ps|, i requires 0 <= i < |ps| => ps[i].hit.time)
  }

  function Hits(ps: seq<Pass>, free: bool): seq<Hit> {
    if ps == [] then [] else (if ps[0].Free? == free then [ps[0].hit] else []) + Hits(ps[1..], free)
  }

  /** The window length of the counter that let `p` through. */
  function Length(lim: Limit, free: bool): int {
    if free then ClampTTL(lim.time) else lim.time
  }

  function CellOf(c: BaseCells, free: bool): Cell {
    if free then c.total else c.secondary
  }

  lemma StepTracks(x: Hit, free: bool, c: BaseCells, now: int, lim: Limit, ev: Event)
    requires ValidLimit(lim) && Ready(c, 1) && Tracks(x, CellOf(c, free), now, Length(lim, free)) && ev.clk.From(now)
    ensures var (next, admitted) := Step(c, lim, ev);
            && Tracks(x, CellOf(next, free), ev.clk.u4, Length(lim, free))
            && (admitted.Some? && admitted.value.Free? == free ==> After(x, admitted.value.hit, Length(lim, free)))
  {
    hide ClampTTL;
    ClampCoversWindow(lim.time);
    var clk := ev.clk;
    var t, u, s := if free then clk.b1 else clk.b2, if free then clk.u1 else clk.u3, if free then clk.u2 else clk.u4;
    TracksDrop(x, CellOf(c, free), now, Length(lim, free), t);
    var (browsed, hit) := BaseBrowse(c, lim, clk);
    if ev.check && !hit {
      TracksBump(x, CellOf(browsed, free), t, Length(lim, free), u, s);
    }
  }

  /** A free bump is one of the first `base + 1` of its window, a gated one one of the first `count` of its window. */
  lemma StepSound(c: BaseCells, lim: Limit, ev: Event, now: int)
    requires ValidLimit(lim) && Ready(c, 1) && ev.clk.From(now)
    ensures var (next, admitted) := Step(c, lim, ev);
            admitted.Some? ==>
              var (p, free) := (admitted.value, admitted.value.Free?);
              && Tracks(p.hit, CellOf(next, free), ev.clk.u4, Length(lim, free))
              && Sound(p.hit, Length(lim, free), if free then lim.base + 1 else lim.count)
  {
    hide ClampTTL;
    ClampCoversWindow(lim.time);
    var (browsed, hit) := BaseBrowse(c, lim, ev.clk);
    if ev.check && !hit {
      BumpSound(browsed.total, ClampTTL(lim.time), ev.clk.u1, ev.clk.u2);
      BumpSound(browsed.secondary, lim.time, ev.clk.u3, ev.clk.u4);
    }
  }

  lemma HitsConcat(p: Option<Pass>, rest: seq<Pass>, free: bool)
    ensures Hits((if p.Some? then [p.value] else []) + rest, free)
         == (if p.Some? && p.value.Free? == free then [p.value.hit] else []) + Hits(rest, free)
  {
    if p.Some? {
      assert ([p.value] + rest)[1..] == rest;
    } else {
      assert [] + rest == rest;
    }
  }

  lemma {:induction false} RunAfter(x: Hit, free: bool, c: BaseCells, now: int, lim: Limit, evs: seq<Event>)
    requires ValidLimit(lim) && Ready(c, |evs|) && Tracks(x, CellOf(c, free), now, Length(lim, free)) && Timed(now, evs)
    ensures forall y :: y in Hits(Run(c, lim, evs), free) ==> After(x, y, Length(lim, free))
    decreases evs
  {
    hide Step, Tracks, After, Length, CellOf;
    if evs != [] {
      var (next, admitted) := Step(c, lim, evs[0]);
      StepTracks(x, free, c, now, lim, evs[0]);
      RunAfter(x, free, next, evs[0].clk.u4, lim, evs[1..]);
      HitsConcat(admitted, Run(next, lim, evs[1..]), free);
    }
  }

  /** Free requests never pass bump `base + 1` of a total window, gated ones never bump `count` of a secondary window. */
  lemma {:induction false} RunIsLogs(free: bool, c: BaseCells, now: int, lim: Limit, evs: seq<Event>)
    requires ValidLimit(lim) && Ready(c, |evs|) && Timed(now, evs)
    ensures IsLog(Hits(Run(c, lim, evs), free), Length(lim, free), if free then lim.base + 1 else lim.count)
    decreases evs
  {
    hide Step, Tracks, After, Sound, Length, CellOf;
    if evs != [] {
      var (next, admitted) := Step(c, lim, evs[0]);
      RunIsLogs(free, next, evs[0].clk.u4, lim, evs[1..]);
      HitsConcat(admitted, Run(next, lim, evs[1..]), free);
      if admitted.Some? && admitted.value.Free? == free {
        StepSound(c, lim, evs[0], now);
        RunAfter(admitted.value.hit, free, next, evs[0].clk.u4, lim, evs[1..]);
      }
    }
  }

  lemma {:induction false} CountSplits(ps: seq<Pass>, lo: int, len: int)
    ensures CountIn(Instants(ps), lo, len)
         == CountIn(Times(Hits(ps, true)), lo, len) + CountIn(Times(Hits(ps, false)), lo, len)
  {
    if ps != [] {
      CountSplits(ps[1..], lo, len);
      assert Instants(ps)[1..] == Instants(ps[1..]);
      var rest := Hits(ps[1..], ps[0].Free?);
      assert Times([ps[0].hit] + rest)[1..] == Times(rest);
      assert Hits(ps, !ps[0].Free?) == Hits(ps[1..], !ps[0].Free?);
    }
  }

  /** How many admissions any interval of the window's length can hold; a negative base lets nothing through. */
  function Bound(lim: Limit): int
    requires ValidLimit(lim)
  {
    ClampCoversWindow(lim.time);
    if lim.base < 0 then 2 * lim.count - 1
    else Multiple(Fitting(lim.time, ClampTTL(lim.time)) + 2, lim.base + 1) + 2 * lim.count - 2
  }

  lemma BoundWithinAWeek(lim: Limit)
    requires ValidLimit(lim)
    ensures Bound(lim) >= 0
    ensures lim.base >= 0 ==> (Bound(lim) == 2 * (lim.base + lim.count) <==> lim.time <= SEVEN_DAYS)
  {
    hide ClampTTL, Multiple, Fitting;
    ClampCoversWindow(lim.time);
    if lim.base >= 0 {
      NoneFits(lim.time, ClampTTL(lim.time));
      TwoMore(Fitting(lim.time, ClampTTL(lim.time)), lim.base + 1);
    }
  }

  /** What the total counter lets through. */
  lemma FreeCount(now: int, lim: Limit, evs: seq<Event>, lo: int)
    requires ValidLimit(lim) && |evs| <= MAX_INT64 && Timed(now, evs)
    ensures var free := CountIn(Times(Hits(Run(NO_CELLS, lim, evs), true)), lo, lim.time);
            if lim.base < 0 then free == 0
            else free <= Multiple(Fitting(lim.time, ClampTTL(lim.time)) + 2, lim.base + 1) - 1
  {
    hide Run, Hits, Multiple, Fitting;
    var free := Hits(Run(NO_CELLS, lim, evs), true);
    ClampCoversWindow(lim.time);
    RunIsLogs(true, NO_CELLS, now, lim, evs);
    if lim.base < 0 {
      assert free != [] ==> Sound(free[0], ClampTTL(lim.time), lim.base + 1);
    } else {
      LogSpread(free, ClampTTL(lim.time), lim.base + 1, lim.time);
      SpreadCounts(Times(free), Multiple(Fitting(lim.time, ClampTTL(lim.time)) + 2, lim.base + 1) - 1, lim.time, lo);
    }
  }

  /**
   * In every run any closed interval of the window's length holds at most `Bound` admissions: the
   * total counter lets its windows' bases through, the secondary counter `2 * count - 1`.
   */
  lemma AccumulateSafe(now: int, lim: Limit, evs: seq<Event>)
    requires ValidLimit(lim) && |evs| <= MAX_INT64 && Timed(now, evs)
    ensures Bound(lim) >= 0 && AtMost(Instants(Run(NO_CELLS, lim, evs)), Bound(lim), lim.time)
  {
    hide Run, Hits, Multiple, Fitting, ClampTTL;
    var run := Run(NO_CELLS, lim, evs);
    var gated := Hits(run, false);
    BoundWithinAWeek(lim);
    RunIsLogs(false, NO_CELLS, now, lim, evs);
    WindowSpread(gated, lim.time, lim.count);
    forall lo ensures CountIn(Instants(run), lo, lim.time) <= Bound(lim) {
      CountSplits(run, lo, lim.time);
      FreeCount(now, lim, evs, lo);
      SpreadCounts(Times(gated), 2 * lim.count - 1, lim.time, lo);
    }
  }

  // For a base of 0 and a count of 1 the bound is reached: a gated request comes at the last live instant
  // of the total counter, and a free one an instant later, whatever the secondary counter holds.

  lemma ClampExceeds(window: int)
    requires 0 < window < SEVEN_DAYS
    ensures ClampTTL(window) > window
  {
    assert IsInt64(window * 10);
  }

  lemma OneStep(c: BaseCells, lim: Limit, ev: Event, rest: seq<Event>, p: Pass, next: BaseCells)
    requires ValidLimit(lim) && Ready(c, |rest| + 1) && Step(c, lim, ev) == (next, Some(p))
    ensures Ready(next, |rest|) && Instants(Run(c, lim, [ev] + rest)) == [p.hit.time] + Instants(Run(next, lim, rest))
  {
    hide Step;
    assert ([ev] + rest)[1..] == rest;
    assert Run(c, lim, [ev] + rest) == [p] + Run(next, lim, rest);
  }

  function ThreeChecks(lim: Limit): (evs: seq<Event>)
    ensures |evs| == 3
  {
    var d := ClampTTL(lim.time);
    [Event(true, Instant(0))] + ([Event(true, Instant(d))] + ([Event(true, Instant(d + 1))] + []))
  }

  lemma ThreeChecksRun(lim: Limit)
    requires ValidLimit(lim) && lim.base == 0 && lim.count == 1 && lim.time < SEVEN_DAYS
    ensures var d := ClampTTL(lim.time);
            Instants(Run(NO_CELLS, lim, ThreeChecks(lim))) == [0] + ([d] + ([d + 1] + []))
  {
    hide Run, ClampTTL;
    var d, t := ClampTTL(lim.time), lim.time;
    ClampExceeds(t);
    var e0, e1, e2 := Event(true, Instant(0)), Event(true, Instant(d)), Event(true, Instant(d + 1));
    var c1 := BaseCells(Some(Counter(1, At(d))), Some(Counter(1, At(t))));
    var c2 := BaseCells(Some(Counter(2, At(d))), Some(Counter(1, At(d + t))));
    var c3 := BaseCells(Some(Counter(1, At(d + 1 + d))), Some(Counter(2, At(d + t))));
    OneStep(NO_CELLS, lim, e0, [e1] + ([e2] + []), Free(Hit(0, 0, 1)), c1);
    OneStep(c1, lim, e1, [e2] + [], Gated(Hit(d, d, 1)), c2);
    OneStep(c2, lim, e2, [], Free(Hit(d + 1, d + 1, 1)), c3);
    NoPasses(c3, lim);
  }

  lemma ThreeChecksTimed(lim: Limit)
    requires ValidLimit(lim)
    ensures Timed(0, ThreeChecks(lim))
  {
    ClampCoversWindow(lim.time);
    var d := ClampTTL(lim.time);
    var e2 := [Event(true, Instant(d + 1))] + [];
    var e1 := [Event(true, Instant(d))] + e2;
    assert ThreeChecks(lim)[1..] == e1 && e1[1..] == e2 && e2[1..] == [];
    assert Timed(d, e2) && Timed(0, e1);
  }

  lemma NoPasses(c: BaseCells, lim: Limit)
    requires ValidLimit(lim) && Ready(c, 0)
    ensures Instants(Run(c, lim, [])) == []
  {
  }

  /** `n` bounds the admissions of every run in every interval of the window's length. */
  ghost predicate Bounds(lim: Limit, n: nat)
    requires ValidLimit(lim)
  {
    forall now, evs :: |evs| <= MAX_INT64 && Timed(now, evs) ==> AtMost(Instants(Run(NO_CELLS, lim, evs)), n, lim.time)
  }

  /** For base 0, count 1 and a window under seven days that is so if and only if `n` is at least `Bound`. */
  lemma BoundLeastForOne(lim: Limit, n: nat)
    requires ValidLimit(lim) && lim.base == 0 && lim.count == 1 && lim.time < SEVEN_DAYS
    ensures Bounds(lim, n) <==> n >= Bound(lim)
  {
    hide Run, ClampTTL, Multiple, Fitting, ThreeChecks;
    BoundWithinAWeek(lim);
    if n >= Bound(lim) {
      forall now, evs | |evs| <= MAX_INT64 && Timed(now, evs) ensures AtMost(Instants(Run(NO_CELLS, lim, evs)), n, lim.time) {
        AccumulateSafe(now, lim, evs);
      }
    } else {
      var d := ClampTTL(lim.time);
      ClampExceeds(lim.time);
      ThreeChecksRun(lim);
      ThreeChecksTimed(lim);
      var ts := Instants(Run(NO_CELLS, lim, ThreeChecks(lim)));
      CountInBlock(ts, 1, 2, d, lim.time);
      assert !AtMost(ts, n, lim.time);
    }
  }

  // For a base of 0 and any count: a secondary window is filled at the last live instant of the total
  // counter, a free request comes an instant later, and the next secondary window is filled at once.

  /** A request that finds the total counter expired. */
  lemma FreeStep(c: BaseCells, t: int, lim: Limit, rest: seq<Event>) returns (next: BaseCells)
    requires ValidLimit(lim) && lim.base == 0 && Ready(c, |rest| + 1) && Drop(c.total, t) == None
    ensures Ready(next, |rest|)
    ensures next == BaseCells(Some(Counter(1, At(t + ClampTTL(lim.time)))), Some(Add(c.secondary, 1, lim.time, t, t)))
    ensures Instants(Run(c, lim, [Event(true, Instant(t))] + rest)) == [t] + Instants(Run(next, lim, rest))
  {
    hide ClampTTL;
    ClampCoversWindow(lim.time);
    var ev := Event(true, Instant(t));
    next := Step(c, lim, ev).0;
    OneStep(c, lim, ev, rest, Step(c, lim, ev).1.value, next);
  }

  /** A request past the base, when the secondary counter is below its limit. */
  lemma GatedStep(c: BaseCells, t: int, lim: Limit, rest: seq<Event>) returns (next: BaseCells)
    requires ValidLimit(lim) && lim.base == 0 && Ready(c, |rest| + 1)
    requires c.total.Some? && t <= c.total.value.expires.time && Value(Drop(c.secondary, t)) < lim.count
    ensures Ready(next, |rest|) && next.secondary == Some(Add(c.secondary, 1, lim.time, t, t))
    ensures next.total == Some(c.total.value.(value := c.total.value.value + 1))
    ensures Instants(Run(c, lim, [Event(true, Instant(t))] + rest)) == [t] + Instants(Run(next, lim, rest))
  {
    hide ClampTTL;
    ClampCoversWindow(lim.time);
    var ev := Event(true, Instant(t));
    next := Step(c, lim, ev).0;
    OneStep(c, lim, ev, rest, Step(c, lim, ev).1.value, next);
  }

  lemma {:induction false} GatedBurst(c: BaseCells, n: nat, t: int, lim: Limit, rest: seq<Event>) returns (next: BaseCells)
    requires ValidLimit(lim) && lim.base == 0 && Ready(c, n + |rest|)
    requires c.total.Some? && t <= c.total.value.expires.time
    requires c.secondary.Some? && t <= c.secondary.value.expires.time && c.secondary.value.value + n <= lim.count
    ensures Ready(next, |rest|) && next.secondary == Some(c.secondary.value.(value := c.secondary.value.value + n))
    ensures next.total.Some? && next.total.value.expires == c.total.value.expires
    ensures Instants(Run(c, lim, Burst(n, t) + rest)) == Copies(n, t) + Instants(Run(next, lim, rest))
    decreases n
  {
    hide Run;
    if n == 0 {
      assert Burst(n, t) + rest == rest;
      next := c;
    } else {
      assert Burst(n, t) + rest == [Event(true, Instant(t))] + (Burst(n - 1, t) + rest);
      next := GatedStep(c, t, lim, Burst(n - 1, t) + rest);
      next := GatedBurst(next, n - 1, t, lim, rest);
      assert Copies(n, t) == [t] + Copies(n - 1, t);
    }
  }

  function TwoWindows(lim: Limit): (evs: seq<Event>)
    requires ValidLimit(lim)
    ensures |evs| == 2 * lim.count + 2
  {
    var d, n := ClampTTL(lim.time), lim.count - 1;
    [Event(true, Instant(0))] + ([Event(true, Instant(d - 1))] + (Burst(n, d) + ([Event(true, Instant(d + 1))]
    + ([Event(true, Instant(d + lim.time))] + (Burst(n, d + lim.time) + [])))))
  }

  lemma OneTimed(now: int, t: int, rest: seq<Event>)
    requires now <= t && Timed(t, rest)
    ensures Timed(now, [Event(true, Instant(t))] + rest)
  {
    assert ([Event(true, Instant(t))] + rest)[1..] == rest;
  }

  lemma TimedBefore(now: int, t: int, evs: seq<Event>)
    requires now <= t && Timed(t, evs)
    ensures Timed(now, evs)
  {
  }

  lemma TwoWindowsTimed(lim: Limit)
    requires ValidLimit(lim)
    ensures Timed(0, TwoWindows(lim))
  {
    hide Burst, ClampTTL;
    ClampCoversWindow(lim.time);
    var d, n, t := ClampTTL(lim.time), lim.count - 1, lim.time;
    assert Timed(d + t, []);
    BurstTimed(n, d + t, []);
    var e4 := Burst(n, d + t) + [];
    OneTimed(d + 1, d + t, e4);
    OneTimed(d, d + 1, [Event(true, Instant(d + t))] + e4);
    var e2 := [Event(true, Instant(d + 1))] + ([Event(true, Instant(d + t))] + e4);
    BurstTimed(n, d, e2);
    TimedBefore(d - 1, d, Burst(n, d) + e2);
    OneTimed(0, d - 1, Burst(n, d) + e2);
    OneTimed(0, 0, [Event(true, Instant(d - 1))] + (Burst(n, d) + e2));
  }

  lemma TwoWindowsRun(lim: Limit)
    requires ValidLimit(lim) && lim.base == 0 && 2 <= lim.time <= SEVEN_DAYS - 2 && 2 * lim.count + 2 <= MAX_INT64
    ensures var (d, n) := (ClampTTL(lim.time), lim.count - 1);
            Instants(Run(NO_CELLS, lim, TwoWindows(lim)))
            == [0] + ([d - 1] + (Copies(n, d) + ([d + 1] + ([d + lim.time] + (Copies(n, d + lim.time) + [])))))
  {
    hide Run, Burst, Copies, ClampTTL;
    var d, n, t := ClampTTL(lim.time), lim.count - 1, lim.time;
    ClampExceedsTwo(t);
    var e4 := Burst(n, d + t) + [];
    var e3 := [Event(true, Instant(d + t))] + e4;
    var e2 := [Event(true, Instant(d + 1))] + e3;
    var e1 := [Event(true, Instant(d - 1))] + (Burst(n, d) + e2);
    var c := FreeStep(NO_CELLS, 0, lim, e1);
    c := GatedStep(c, d - 1, lim, Burst(n, d) + e2);
    c := GatedBurst(c, n, d, lim, e2);
    c := FreeStep(c, d + 1, lim, e3);
    c := GatedStep(c, d + t, lim, e4);
    c := GatedBurst(c, n, d + t, lim, []);
    NoPasses(c, lim);
  }

  lemma ClampExceedsTwo(window: int)
    requires 2 <= window <= SEVEN_DAYS - 2
    ensures ClampTTL(window) >= window + 2
  {
    assert IsInt64(window * 10);
  }

  /** For base 0, any count and a window of at least two nanoseconds and a little less than seven days `Bound` is the least bound. */
  lemma BoundLeastForZero(lim: Limit, n: nat)
    requires ValidLimit(lim) && lim.base == 0 && 2 <= lim.time <= SEVEN_DAYS - 2 && 2 * lim.count + 2 <= MAX_INT64
    ensures Bounds(lim, n) <==> n >= Bound(lim)
  {
    hide Run, ClampTTL, Multiple, Fitting, TwoWindows, Copies;
    BoundWithinAWeek(lim);
    if n >= Bound(lim) {
      forall now, evs | |evs| <= MAX_INT64 && Timed(now, evs) ensures AtMost(Instants(Run(NO_CELLS, lim, evs)), n, lim.time) {
        AccumulateSafe(now, lim, evs);
      }
    } else {
      var d := ClampTTL(lim.time);
      TwoWindowsRun(lim);
      TwoWindowsTimed(lim);
      var ts := Instants(Run(NO_CELLS, lim, TwoWindows(lim)));
      CountInBlock(ts, 2, 2 * lim.count + 1, d, lim.time);
      assert CountIn(ts, d, lim.time) > n;
      assert !AtMost(ts, n, lim.time);
    }
  }

  // Beyond seven days the total counter expires within the window and the base is granted again.

  /** One request that finds the total counter at or below the base. */
  lemma FreeCheck(c: BaseCells, t: int, lim: Limit, rest: seq<Event>) returns (next: BaseCells)
    requires ValidLimit(lim) && Ready(c, |rest| + 1) && Value(Drop(c.total, t)) <= lim.base
    ensures Ready(next, |rest|) && next.total == Some(Add(c.total, 1, ClampTTL(lim.time), t, t))
    ensures Times(Hits(Run(c, lim, [Event(true, Instant(t))] + rest), true)) == [t] + Times(Hits(Run(next, lim, rest), true))
  {
    hide ClampTTL, Hits;
    var evs := [Event(true, Instant(t))] + rest;
    assert evs[1..] == rest;
    ClampCoversWindow(lim.time);
    var admitted := Step(c, lim, evs[0]).1;
    next := Step(c, lim, evs[0]).0;
    assert admitted.Some? && admitted.value.Free? && admitted.value.hit.time == t;
    HitsConcat(admitted, Run(next, lim, rest), true);
    TimesConcat([admitted.value.hit], Hits(Run(next, lim, rest), true));
  }

  lemma {:induction false} FreeBurst(c: BaseCells, n: nat, t: int, lim: Limit, rest: seq<Event>) returns (next: BaseCells)
    requires ValidLimit(lim) && Ready(c, n + |rest|) && c.total.Some? && t <= c.total.value.expires.time
    requires c.total.value.value + n <= lim.base + 1
    ensures Ready(next, |rest|) && next.total == Some(c.total.value.(value := c.total.value.value + n))
    ensures Times(Hits(Run(c, lim, Burst(n, t) + rest), true)) == Copies(n, t) + Times(Hits(Run(next, lim, rest), true))
    decreases n
  {
    hide Run, Hits;
    if n == 0 {
      assert Burst(n, t) + rest == rest;
      next := c;
    } else {
      assert Burst(n, t) + rest == [Event(true, Instant(t))] + (Burst(n - 1, t) + rest);
      next := FreeCheck(c, t, lim, Burst(n - 1, t) + rest);
      next := FreeBurst(next, n - 1, t, lim, rest);
    }
  }

  /** Uses up the base at once, and again when the total counter has just expired. */
  function TwoBases(lim: Limit): (evs: seq<Event>)
    requires ValidLimit(lim) && lim.base >= 0
    ensures |evs| == 2 * lim.base + 2
  {
    var d := ClampTTL(lim.time);
    [Event(true, Instant(0))] + (Burst(lim.base, 0) + ([Event(true, Instant(d + 1))] + (Burst(lim.base, d + 1) + [])))
  }

  lemma TwoBasesTimed(lim: Limit)
    requires ValidLimit(lim) && lim.base >= 0
    ensures Timed(0, TwoBases(lim))
  {
    hide Burst;
    var d := ClampTTL(lim.time);
    ClampCoversWindow(lim.time);
    BurstTimed(lim.base, d + 1, []);
    var again := [Event(true, Instant(d + 1))] + (Burst(lim.base, d + 1) + []);
    assert again[1..] == Burst(lim.base, d + 1) + [];
    BurstTimed(lim.base, 0, again);
    assert TwoBases(lim)[1..] == Burst(lim.base, 0) + again;
  }

  lemma TwoBasesRun(lim: Limit)
    requires ValidLimit(lim) && 0 <= lim.base && 2 * lim.base + 2 <= MAX_INT64
    ensures var d := ClampTTL(lim.time);
            Times(Hits(Run(NO_CELLS, lim, TwoBases(lim)), true)) ==
            [0] + (Copies(lim.base, 0) + ([d + 1] + Copies(lim.base, d + 1)))
  {
    hide Run, Hits, Burst, Copies, ClampTTL;
    var n, d := lim.base, ClampTTL(lim.time);
    ClampCoversWindow(lim.time);
    var tail := Burst(n, d + 1) + [];
    var again := [Event(true, Instant(d + 1))] + tail;
    var c := FreeCheck(NO_CELLS, 0, lim, Burst(n, 0) + again);
    c := FreeBurst(c, n, 0, lim, again);
    c := FreeCheck(c, d + 1, lim, tail);
    c := FreeBurst(c, n, d + 1, lim, []);
    EmptyRun(c, lim);
  }

  lemma EmptyRun(c: BaseCells, lim: Limit)
    requires ValidLimit(lim) && Ready(c, 0)
    ensures Times(Hits(Run(c, lim, []), true)) == []
  {
  }

  /** The total counter lets at most `2 * base + 1` requests through in any interval of length `len`. */
  ghost predicate GrantsOnce(lim: Limit, len: nat)
    requires ValidLimit(lim) && lim.base >= 0
  {
    forall now, evs :: |evs| <= MAX_INT64 && Timed(now, evs)
      ==> AtMost(Times(Hits(Run(NO_CELLS, lim, evs), true)), 2 * lim.base + 1, len)
  }

  lemma GrantsOnceWhileLive(lim: Limit, len: nat)
    requires ValidLimit(lim) && 0 <= lim.base && 2 * lim.base + 2 <= MAX_INT64
    ensures GrantsOnce(lim, len) <==> len <= ClampTTL(lim.time)
  {
    hide Run, Hits, ClampTTL, TwoBases;
    ClampCoversWindow(lim.time);
    if len <= ClampTTL(lim.time) {
      forall now, evs | |evs| <= MAX_INT64 && Timed(now, evs)
        ensures AtMost(Times(Hits(Run(NO_CELLS, lim, evs), true)), 2 * lim.base + 1, len)
      {
        var free := Hits(Run(NO_CELLS, lim, evs), true);
        RunIsLogs(true, NO_CELLS, now, lim, evs);
        WindowSpread(free, ClampTTL(lim.time), lim.base + 1);
        SpreadIffAtMost(Times(free), 2 * lim.base + 1, len);
      }
    } else {
      TwoBasesTimed(lim);
      TwoBasesRun(lim);
      var ts := Times(Hits(Run(NO_CELLS, lim, TwoBases(lim)), true));
      CountInBlock(ts, 0, 2 * lim.base + 1, 0, len);
      assert CountIn(ts, 0, len) > 2 * lim.base + 1;
    }
  }

  /** In every interval of the window's length it does so in every run if and only if the window is at most seven days. */
  lemma GrantsOnceExactly(lim: Limit)
    requires ValidLimit(lim) && 0 <= lim.base && 2 * lim.base + 2 <= MAX_INT64
    ensures GrantsOnce(lim, lim.time) <==> lim.time <= 7 * 24 * 3_600_000_000_000
  {
    hide ClampTTL;
    ClampCoversWindow(lim.time);
    GrantsOnceWhileLive(lim, lim.time);
  }

  /**
   * How long the base stays granted, in nanoseconds. With `product` the 64-bit product of the window
   * and ten, no interval of length `len` of any run lets more than `2 * base + 1` requests through below
   * the base if and only if `len` is at most that product, but an hour at least and seven days at most.
   */
  lemma BaseGrantedFor(lim: Limit, product: int, len: nat)
    requires ValidLimit(lim) && 0 <= lim.base && 2 * lim.base + 2 <= MAX_INT64
    requires IsInt64(product) && (10 * lim.time - product) % 0x1_0000_0000_0000_0000 == 0
    ensures GrantsOnce(lim, len) <==> len <= Min(Max(product, 3_600_000_000_000), 604_800_000_000_000)
  {
    hide GrantsOnce;
    Wrap64Is(10 * lim.time, product);
    GrantsOnceWhileLive(lim, len);
  }

  // While nothing expires the limiter admits exactly a prefix of the requests.

  function Decisions(c: BaseCells, lim: Limit, evs: seq<Event>): (ds: seq<bool>)
    requires ValidLimit(lim) && Ready(c, |evs|)
    ensures |ds| == |evs|
    decreases evs
  {
    if evs == [] then [] else
      var (next, admitted) := Step(c, lim, evs[0]);
      [admitted.Some?] + Decisions(next, lim, evs[1..])
  }

  /** Along a run, neither counter has expired when an event last reads the clock. */
  predicate NothingExpires(c: BaseCells, lim: Limit, evs: seq<Event>)
    requires ValidLimit(lim) && Ready(c, |evs|)
    decreases evs
  {
    evs == [] || (
      && Drop(c.total, evs[0].clk.u4) == c.total && Drop(c.secondary, evs[0].clk.u4) == c.secondary
      && NothingExpires(Step(c, lim, evs[0]).0, lim, evs[1..]))
  }

  /** The admissions that the two counters allow while they live, a negative base counting as none. */
  function Allowance(lim: Limit): int {
    Max(lim.base, 0) + lim.count
  }

  /** The cells after `k` admissions. */
  predicate Holds(c: BaseCells, k: nat, lim: Limit) {
    Value(c.total) == k && Value(c.secondary) == Max(0, k - Max(lim.base, 0))
  }

  /** How many of the first `i` requests are checks. */
  function ChecksBefore(evs: seq<Event>, i: nat): nat
    requires i <= |evs|
    decreases evs
  {
    if i == 0 then 0 else (if evs[0].check then 1 else 0) + ChecksBefore(evs[1..], i - 1)
  }

  lemma PrefixStep(c: BaseCells, k: nat, now: int, lim: Limit, ev: Event)
    requires ValidLimit(lim) && Ready(c, 1) && Holds(c, k, lim) && k <= Allowance(lim) && ev.clk.From(now)
    requires Drop(c.total, ev.clk.u4) == c.total && Drop(c.secondary, ev.clk.u4) == c.secondary
    ensures var (next, admitted) := Step(c, lim, ev);
            && (admitted.Some? <==> ev.check && k < Allowance(lim))
            && Holds(next, if admitted.Some? then k + 1 else k, lim)
  {
    hide ClampTTL;
    ClampCoversWindow(lim.time);
  }

  lemma {:induction false} PrefixFrom(c: BaseCells, k: nat, now: int, lim: Limit, evs: seq<Event>)
    requires ValidLimit(lim) && Ready(c, |evs|) && Holds(c, k, lim) && k <= Allowance(lim)
    requires Timed(now, evs) && NothingExpires(c, lim, evs)
    ensures forall i :: 0 <= i < |evs| ==>
              (Decisions(c, lim, evs)[i] <==> evs[i].check && k + ChecksBefore(evs, i) < Allowance(lim))
    decreases evs
  {
    hide Step, Holds, Allowance;
    if evs != [] {
      var (next, admitted) := Step(c, lim, evs[0]);
      PrefixStep(c, k, now, lim, evs[0]);
      PrefixFrom(next, if admitted.Some? then k + 1 else k, evs[0].clk.u4, lim, evs[1..]);
    }
  }

  /** In every run in which neither counter expires exactly the first `base + count` checks are admitted. */
  lemma AdmitsExactPrefix(now: int, lim: Limit, evs: seq<Event>)
    requires ValidLimit(lim) && |evs| <= MAX_INT64 && Timed(now, evs) && NothingExpires(NO_CELLS, lim, evs)
    ensures forall i :: 0 <= i < |evs| ==>
              (Decisions(NO_CELLS, lim, evs)[i] <==> evs[i].check && ChecksBefore(evs, i) < Max(lim.base, 0) + lim.count)
  {
    PrefixFrom(NO_CELLS, 0, now, lim, evs);
  }
}
