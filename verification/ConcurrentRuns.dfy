/**
 * Whole runs of concurrent Checks and Browses on one key, with a clock that never goes back: how many
 * requests any interval can hold when at most `n` Checks are in flight.
 */
module ConcurrentRuns {
  import opened GoTypes
  import opened Intervals
  import opened Limiters
  import opened OverAdmission
  import opened Windows
  import SlidingWindow

  predicate Reads(now: int, mv: Move) {
    match mv
    case BrowseStep(clk) => now <= clk.b1
    case UpdateStep(clk) => now <= clk.u1 <= clk.u2
    case GlanceStep(clk) => now <= clk.b1
  }

  function Ends(mv: Move): int {
    match mv
    case BrowseStep(clk) => clk.b1
    case UpdateStep(clk) => clk.u2
    case GlanceStep(clk) => clk.b1
  }

  predicate TimedMoves(now: int, mvs: seq<Move>)
    decreases mvs
  {
    mvs == [] || (Reads(now, mvs[0]) && TimedMoves(Ends(mvs[0]), mvs[1..]))
  }

  /** A run of at most `n` Checks at a time. */
  predicate Concurrent(s: State, n: nat, lim: Limit, now: int, mvs: seq<Move>) {
    Possible(s, n, lim, mvs) && TimedMoves(now, mvs)
  }

  /** When the updates of a run count: at the bump of the counter, or at the push of the timestamp. */
  function Admitted(freq: bool, mvs: seq<Move>): seq<int> {
    if mvs == [] then [] else
      (if mvs[0].UpdateStep? then [if freq then mvs[0].clk.u2 else mvs[0].clk.u1] else []) + Admitted(freq, mvs[1..])
  }

  // count

  predicate CountOk(s: State) {
    s.slot.CountSlot? && CellOk(s.slot.cell)
  }

  /** The bumps of the counter of a count rule. */
  function CountLog(s: State, lim: Limit, mvs: seq<Move>): seq<Hit>
    requires ValidLimit(lim) && s.slot.CountSlot? && (s.slot.cell.Some? ==> s.slot.cell.value.expires.At?)
    decreases mvs
  {
    if mvs == [] then [] else
      var next := Next(s, lim, mvs[0]);
      (if mvs[0].UpdateStep? then [HitOf(next.slot.cell.value, mvs[0].clk.u1, lim.time)] else []) + CountLog(next, lim, mvs[1..])
  }

  lemma {:induction false} LogIsAdmitted(s: State, lim: Limit, mvs: seq<Move>)
    requires ValidLimit(lim) && s.slot.CountSlot? && (s.slot.cell.Some? ==> s.slot.cell.value.expires.At?)
    ensures Times(CountLog(s, lim, mvs)) == Admitted(false, mvs)
    decreases mvs
  {
    if mvs != [] {
      var next := Next(s, lim, mvs[0]);
      LogIsAdmitted(next, lim, mvs[1..]);
      if mvs[0].UpdateStep? {
        TimesConcat([HitOf(next.slot.cell.value, mvs[0].clk.u1, lim.time)], CountLog(next, lim, mvs[1..]));
      }
    }
  }

  /** What every move keeps, and what bounds the bump of an update. */
  lemma CountMove(s: State, n: nat, lim: Limit, now: int, mv: Move)
    requires ValidLimit(lim) && 1 <= n && lim.count + n <= MAX_INT64 && Inv(s, n, lim) && CountOk(s)
    requires Enabled(s, n, mv) && Reads(now, mv)
    ensures Inv(Next(s, lim, mv), n, lim) && CountOk(Next(s, lim, mv))
    ensures mv.UpdateStep? ==> Next(s, lim, mv).slot.cell.Some?
    ensures mv.UpdateStep? ==>
              var e := Next(s, lim, mv).slot.cell.value;
              var y := HitOf(e, mv.clk.u1, lim.time);
              Sound(y, lim.time, lim.count + n - 1) && Tracks(y, Some(e), Ends(mv), lim.time)
  {
    NextKeepsInv(s, n, lim, mv);
    if mv.UpdateStep? {
      BumpSound(s.slot.cell, lim.time, mv.clk.u1, mv.clk.u2);
    }
  }

  lemma CountTracks(x: Hit, s: State, n: nat, lim: Limit, now: int, mv: Move)
    requires ValidLimit(lim) && lim.count + n <= MAX_INT64 && Inv(s, n, lim) && CountOk(s)
    requires Enabled(s, n, mv) && Reads(now, mv) && Tracks(x, s.slot.cell, now, lim.time)
    ensures var next := Next(s, lim, mv).slot.cell;
            && Tracks(x, next, Ends(mv), lim.time)
            && (mv.UpdateStep? ==> After(x, HitOf(next.value, mv.clk.u1, lim.time), lim.time))
  {
    match mv
    case BrowseStep(clk) => TracksDrop(x, s.slot.cell, now, lim.time, clk.b1);
    case UpdateStep(clk) => TracksBump(x, s.slot.cell, now, lim.time, clk.u1, clk.u2);
    case GlanceStep(clk) => TracksDrop(x, s.slot.cell, now, lim.time, clk.b1);
  }

  lemma {:induction false} LogAfter(x: Hit, s: State, n: nat, lim: Limit, now: int, mvs: seq<Move>)
    requires ValidLimit(lim) && 1 <= n && lim.count + n <= MAX_INT64 && Inv(s, n, lim) && CountOk(s)
    requires Concurrent(s, n, lim, now, mvs) && Tracks(x, s.slot.cell, now, lim.time)
    ensures forall y :: y in CountLog(s, lim, mvs) ==> After(x, y, lim.time)
    decreases mvs
  {
    hide Next, Inv, Tracks, After, Enabled, Reads;
    if mvs != [] {
      CountMove(s, n, lim, now, mvs[0]);
      CountTracks(x, s, n, lim, now, mvs[0]);
      LogAfter(x, Next(s, lim, mvs[0]), n, lim, Ends(mvs[0]), mvs[1..]);
    }
  }

  lemma {:induction false} LogIsLog(s: State, n: nat, lim: Limit, now: int, mvs: seq<Move>)
    requires ValidLimit(lim) && 1 <= n && lim.count + n <= MAX_INT64 && Inv(s, n, lim) && CountOk(s)
    requires Concurrent(s, n, lim, now, mvs)
    ensures IsLog(CountLog(s, lim, mvs), lim.time, lim.count + n - 1)
    decreases mvs
  {
    hide Next, Inv, Tracks, After, Sound, Enabled, Reads;
    if mvs != [] {
      var next := Next(s, lim, mvs[0]);
      CountMove(s, n, lim, now, mvs[0]);
      LogIsLog(next, n, lim, Ends(mvs[0]), mvs[1..]);
      if mvs[0].UpdateStep? {
        LogAfter(HitOf(next.slot.cell.value, mvs[0].clk.u1, lim.time), next, n, lim, Ends(mvs[0]), mvs[1..]);
      }
    }
  }

  // freq

  /** The limit that concurrent Checks really meet. */
  function Widened(lim: Limit, n: nat): Limit {
    lim.(count := lim.count + n - 1)
  }

  lemma FreqMove(s: State, hist: seq<int>, n: nat, lim: Limit, now: int, mv: Move)
    requires ValidLimit(lim) && 1 <= n && lim.count + n <= MAX_INT64 && Inv(s, n, lim) && Enabled(s, n, mv) && Reads(now, mv)
    requires s.slot.FreqSlot? && SlidingWindow.Inv(s.slot.stamps, hist, now, Widened(lim, n))
    ensures var next := Next(s, lim, mv);
            && Inv(next, n, lim) && next.slot.FreqSlot?
            && SlidingWindow.Inv(next.slot.stamps, hist + Admitted(true, [mv]), Ends(mv), Widened(lim, n))
  {
    hide SlidingWindow.Inv, Clean, Millis;
    NextKeepsInv(s, n, lim, mv);
    assert [mv][1..] == [];
    var l, wide := s.slot.stamps, Widened(lim, n);
    match mv
    case BrowseStep(clk) =>
      SlidingWindow.InvClean(l, hist, now, wide, clk.b1);
      assert hist + Admitted(true, [mv]) == hist;
    case GlanceStep(clk) =>
      SlidingWindow.InvClean(l, hist, now, wide, clk.b1);
      assert hist + Admitted(true, [mv]) == hist;
    case UpdateStep(clk) =>
      var w := WindowStart(clk.u1, lim);
      SlidingWindow.InvClean(l, hist, now, wide, clk.u1);
      CleanShrinks(l, w);
      SlidingWindow.InvPush(Clean(l, w), hist, clk.u1, wide, clk.u2);
      assert hist + Admitted(true, [mv]) == hist + [clk.u2];
  }

  lemma {:induction false} FreqRun(s: State, hist: seq<int>, n: nat, lim: Limit, now: int, mvs: seq<Move>)
    requires ValidLimit(lim) && 1 <= n && lim.count + n <= MAX_INT64 && Inv(s, n, lim) && Concurrent(s, n, lim, now, mvs)
    requires s.slot.FreqSlot? && SlidingWindow.Inv(s.slot.stamps, hist, now, Widened(lim, n))
    ensures var all := hist + Admitted(true, mvs);
            Nondecreasing(all) && Spread(all, lim.count + n - 1, SlidingWindow.WholeMillis(lim))
    decreases mvs
  {
    hide Next, Inv, Enabled, Reads, SlidingWindow.WholeMillis;
    if mvs == [] {
      assert hist + Admitted(true, mvs) == hist;
      SameMillis(lim, n);
    } else {
      hide SlidingWindow.Inv;
      FreqMove(s, hist, n, lim, now, mvs[0]);
      FreqRun(Next(s, lim, mvs[0]), hist + Admitted(true, [mvs[0]]), n, lim, Ends(mvs[0]), mvs[1..]);
      assert [mvs[0]][1..] == [];
      assert hist + Admitted(true, mvs) == hist + Admitted(true, [mvs[0]]) + Admitted(true, mvs[1..]);
    }
  }

  lemma SameMillis(lim: Limit, n: nat)
    ensures SlidingWindow.WholeMillis(Widened(lim, n)) == SlidingWindow.WholeMillis(lim)
  {
  }

  // The bound

  /** The interval over which a rule is meant to limit requests, in whole milliseconds for a freq rule. */
  function Span(freq: bool, lim: Limit): int {
    if freq then SlidingWindow.WholeMillis(lim) else lim.time
  }

  /** One window's worth for a freq rule, and two less one request for a count rule. */
  function Bound(freq: bool, n: nat, lim: Limit): int {
    if freq then lim.count + n - 1 else 2 * (lim.count + n - 1) - 1
  }

  lemma ConcurrentSafe(freq: bool, n: nat, lim: Limit, now: int, mvs: seq<Move>)
    requires ValidLimit(lim) && 1 <= n && lim.count + n <= MAX_INT64
    requires Concurrent(State(Empty(freq), 0), n, lim, now, mvs)
    ensures AtMost(Admitted(freq, mvs), Bound(freq, n, lim), Span(freq, lim))
  {
    hide Concurrent, SlidingWindow.WholeMillis;
    var s := State(Empty(freq), 0);
    if freq {
      FreqRun(s, [], n, lim, now, mvs);
      assert [] + Admitted(true, mvs) == Admitted(true, mvs);
      SpreadIffAtMost(Admitted(true, mvs), lim.count + n - 1, SlidingWindow.WholeMillis(lim));
    } else {
      LogIsLog(s, n, lim, now, mvs);
      LogIsAdmitted(s, lim, mvs);
      WindowSpread(CountLog(s, lim, mvs), lim.time, lim.count + n - 1);
      SpreadIffAtMost(Admitted(false, mvs), 2 * (lim.count + n - 1) - 1, lim.time);
    }
  }

  // The bound is reached: one request opens a window at 0 while the others in flight wait; for a count
  // rule they all fill it at its last live instant, and then the next window an instant later.

  /** The requests that fill a window once it is open, and then the updates that were pending. */
  function Filling(n: nat, lim: Limit, t: int): seq<Move>
    requires ValidLimit(lim) && n >= 1
  {
    Checks(lim.count - 1, t) + Updates(n - 1, t)
  }

  function Worst(freq: bool, n: nat, lim: Limit): seq<Move>
    requires ValidLimit(lim) && n >= 1
  {
    if freq then Opening(n, 0) + Filling(n, lim, 0)
    else (Opening(n, 0) + Filling(n, lim, lim.time)) + (Opening(n, lim.time + 1) + Filling(n, lim, lim.time + 1))
  }

  lemma WindowLeads(freq: bool, slot: Slot, n: nat, start: int, t: int, lim: Limit)
    requires ValidLimit(lim) && n >= 1 && lim.count + n <= MAX_INT64
    requires BrowseSlot(slot, lim, Instant(start)) == (Empty(freq), false)
    requires start <= t <= start + lim.time && (freq ==> t == start)
    ensures Leads(State(slot, 0), Opening(n, start) + Filling(n, lim, t),
                  State(Filled(freq, lim.count + n - 1, start, lim), 0), n, lim)
  {
    hide BrowseSlot, Filled, Leads, Opening;
    var c := lim.count;
    var begun, full := State(Filled(freq, 1, start, lim), n - 1), State(Filled(freq, c, start, lim), n - 1);
    var done := State(Filled(freq, c + n - 1, start, lim), 0);
    OpeningLeads(freq, slot, n, start, lim);
    ChecksLead(freq, 1, n - 1, c - 1, start, t, n, lim);
    UpdatesLead(freq, c, n - 1, n - 1, start, t, n, lim);
    LeadsOn(begun, Checks(c - 1, t), full, Updates(n - 1, t), done, n, lim);
    LeadsOn(State(slot, 0), Opening(n, start), begun, Filling(n, lim, t), done, n, lim);
  }

  lemma WorstPossible(freq: bool, n: nat, lim: Limit)
    requires ValidLimit(lim) && n >= 1 && lim.count + n <= MAX_INT64
    ensures Possible(State(Empty(freq), 0), n, lim, Worst(freq, n, lim))
  {
    hide Opening, Filling;
    var t := lim.time;
    EmptyBrowse(freq, lim);
    WindowLeads(freq, Empty(freq), n, 0, if freq then 0 else t, lim);
    if !freq {
      var full := Filled(false, lim.count + n - 1, 0, lim);
      WindowLeads(false, full, n, t + 1, t + 1, lim);
      LeadsOn(State(Empty(false), 0), Opening(n, 0) + Filling(n, lim, t), State(full, 0),
              Opening(n, t + 1) + Filling(n, lim, t + 1), State(Filled(false, lim.count + n - 1, t + 1, lim), 0), n, lim);
    }
  }

  lemma EmptyBrowse(freq: bool, lim: Limit)
    requires ValidLimit(lim)
    ensures BrowseSlot(Empty(freq), lim, Instant(0)) == (Empty(freq), false)
  {
  }

  /** All moves read the clock at `t`. */
  predicate AllAt(mvs: seq<Move>, t: int) {
    forall mv :: mv in mvs ==> mv.clk == Instant(t)
  }

  lemma BlocksAt(k: nat, t: int)
    ensures AllAt(Browses(k, t), t) && AllAt(Updates(k, t), t) && AllAt(Checks(k, t), t)
  {
  }

  lemma {:induction false} AllAtTimed(mvs: seq<Move>, now: int, t: int, rest: seq<Move>)
    requires AllAt(mvs, t) && now <= t && TimedMoves(t, rest)
    ensures TimedMoves(now, mvs + rest)
    decreases mvs
  {
    if mvs == [] {
      assert mvs + rest == rest;
    } else {
      assert (mvs + rest)[0] == mvs[0] && (mvs + rest)[1..] == mvs[1..] + rest;
      AllAtTimed(mvs[1..], t, t, rest);
    }
  }

  lemma WorstTimed(freq: bool, n: nat, lim: Limit)
    requires ValidLimit(lim) && n >= 1
    ensures TimedMoves(0, Worst(freq, n, lim))
  {
    hide AllAt, TimedMoves, Opening, Filling;
    var t := if freq then 0 else lim.time;
    var a, b := Opening(n, 0), Filling(n, lim, t);
    PartsAt(n, lim, 0);
    PartsAt(n, lim, t);
    NoMoves(t);
    AllAtTimed(b, 0, t, []);
    assert b + [] == b;
    if freq {
      AllAtTimed(a, 0, 0, b);
    } else {
      var c, d := Opening(n, t + 1), Filling(n, lim, t + 1);
      PartsAt(n, lim, t + 1);
      NoMoves(t + 1);
      AllAtTimed(d, t + 1, t + 1, []);
      assert d + [] == d;
      AllAtTimed(c, t, t + 1, d);
      AllAtTimed(b, 0, t, c + d);
      AllAtTimed(a, 0, 0, b + (c + d));
      assert a + (b + (c + d)) == (a + b) + (c + d);
    }
  }

  lemma NoMoves(now: int)
    ensures TimedMoves(now, [])
  {
  }

  lemma PartsAt(n: nat, lim: Limit, t: int)
    requires ValidLimit(lim) && n >= 1
    ensures AllAt(Opening(n, t), t) && AllAt(Filling(n, lim, t), t)
  {
    BlocksAt(n, t);
    BlocksAt(1, t);
    BlocksAt(lim.count - 1, t);
    BlocksAt(n - 1, t);
  }

  lemma {:induction false} AdmittedConcat(freq: bool, a: seq<Move>, b: seq<Move>)
    ensures Admitted(freq, a + b) == Admitted(freq, a) + Admitted(freq, b)
  {
    if a == [] {
      assert a + b == b;
    } else {
      assert (a + b)[0] == a[0] && (a + b)[1..] == a[1..] + b;
      AdmittedConcat(freq, a[1..], b);
    }
  }

  lemma {:induction false} BlocksAdmit(freq: bool, k: nat, t: int)
    ensures Admitted(freq, Browses(k, t)) == [] && Admitted(freq, Updates(k, t)) == Copies(k, t) == Admitted(freq, Checks(k, t))
  {
    if k > 0 {
      BlocksAdmit(freq, k - 1, t);
      assert Browses(k, t)[1..] == Browses(k - 1, t) && Updates(k, t)[1..] == Updates(k - 1, t);
      assert Checks(k, t)[1..][1..] == Checks(k - 1, t) && Checks(k, t)[1..][0] == UpdateStep(Instant(t));
    }
  }

  lemma WindowAdmits(freq: bool, n: nat, start: int, t: int, lim: Limit)
    requires ValidLimit(lim) && n >= 1
    ensures Admitted(freq, Opening(n, start) + Filling(n, lim, t)) == [start] + (Copies(lim.count - 1, t) + Copies(n - 1, t))
  {
    hide Admitted, Copies, Browses, Updates, Checks;
    OneCopy(start);
    BlocksAdmit(freq, n, start);
    BlocksAdmit(freq, 1, start);
    BlocksAdmit(freq, lim.count - 1, t);
    BlocksAdmit(freq, n - 1, t);
    AdmittedConcat(freq, Browses(n, start), Updates(1, start));
    AdmittedConcat(freq, Checks(lim.count - 1, t), Updates(n - 1, t));
    AdmittedConcat(freq, Opening(n, start), Filling(n, lim, t));
  }

  lemma OneCopy(x: int)
    ensures Copies(1, x) == [x]
  {
    assert Copies(0, x) == [];
  }

  lemma WorstCount(freq: bool, n: nat, lim: Limit)
    requires ValidLimit(lim) && n >= 1
    ensures exists lo :: CountIn(Admitted(freq, Worst(freq, n, lim)), lo, Span(freq, lim)) >= Bound(freq, n, lim)
  {
    hide Admitted, Copies, Opening, Filling;
    var t, m := lim.time, lim.count + n - 1;
    var ts := Admitted(freq, Worst(freq, n, lim));
    if freq {
      WindowAdmits(true, n, 0, 0, lim);
      CountInBlock(ts, 0, m - 1, 0, Span(true, lim));
    } else {
      WindowAdmits(false, n, 0, t, lim);
      WindowAdmits(false, n, t + 1, t + 1, lim);
      AdmittedConcat(false, Opening(n, 0) + Filling(n, lim, t), Opening(n, t + 1) + Filling(n, lim, t + 1));
      CountInBlock(ts, 1, 2 * m - 1, 1, Span(false, lim));
    }
  }

  /**
   * With at most `n` Checks in flight, `bound` limits the admissions of every run in every interval
   * of the rule's window if and only if it is at least `count + n - 1` for a freq rule, and at least
   * `2 * (count + n - 1) - 1` for a count rule.
   */
  lemma ConcurrentExact(freq: bool, n: nat, lim: Limit, bound: nat)
    requires ValidLimit(lim) && 1 <= n && lim.count + n <= MAX_INT64
    ensures (forall now, mvs :: Concurrent(State(Empty(freq), 0), n, lim, now, mvs)
               ==> AtMost(Admitted(freq, mvs), bound, Span(freq, lim)))
       <==> bound >= Bound(freq, n, lim)
  {
    hide Possible, TimedMoves, Admitted, Worst;
    var start := State(Empty(freq), 0);
    if bound >= Bound(freq, n, lim) {
      forall now, mvs | Concurrent(start, n, lim, now, mvs) ensures AtMost(Admitted(freq, mvs), bound, Span(freq, lim)) {
        ConcurrentSafe(freq, n, lim, now, mvs);
      }
    } else {
      WorstPossible(freq, n, lim);
      WorstTimed(freq, n, lim);
      assert Concurrent(start, n, lim, 0, Worst(freq, n, lim));
      WorstCount(freq, n, lim);
    }
  }
}
