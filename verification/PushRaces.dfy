/**
 * Concurrent Checks and Browses on a freq key beside the store's sweep (leak.go, local.go). LPush finds
 * its list under the lock of the map and writes to it outside. A sweep in between deletes the list if
 * it is empty, and the timestamp is lost.
 */
module PushRaces {
  import opened GoTypes
  import opened Intervals
  import opened Limiters
  import opened Lists
  import opened SlidingWindow

  /** An update that has found its list: the timestamp, and whether the list is still in the map. */
  datatype Writing = Writing(stamp: int, kept: bool)

  /** The list under the key, the Checks that have browsed and not begun to update, and the update that holds the key's lock. */
  datatype State = State(list: seq<int>, pending: nat, writing: Option<Writing>)

  datatype Move =
    | Browse(check: bool, now: int)  // cleans and measures; a Check that is not hit goes on to update
    | Clear(now: int, stamp: int)    // an update cleans, stamps, and finds the list to push to
    | Write                          // and writes
    | Sweep(now: int)                // deletes the list if it is empty

  /** With at most `n` Checks in flight. Browsing and updating take the key's lock, the sweep does not. */
  predicate Enabled(s: State, n: nat, mv: Move) {
    match mv
    case Browse(check, _) => s.writing.None? && (check ==> s.pending < n)
    case Clear(_, _) => s.writing.None? && s.pending > 0
    case Write => s.writing.Some?
    case Sweep(_) => true
  }

  function Next(s: State, n: nat, lim: Limit, mv: Move): State
    requires Enabled(s, n, mv)
  {
    match mv
    case Browse(check, now) =>
      var l := Clean(s.list, WindowStart(now, lim));
      State(l, if check && |l| < lim.count then s.pending + 1 else s.pending, None)
    case Clear(now, stamp) => State(Clean(s.list, WindowStart(now, lim)), s.pending - 1, Some(Writing(Millis(stamp), true)))
    case Write =>
      State(if s.writing.value.kept then Pushed(s.list, [s.writing.value.stamp]) else s.list, s.pending, None)
    case Sweep(_) => if s.writing.Some? && s.list == [] then s.(writing := Some(s.writing.value.(kept := false))) else s
  }

  function Begins(now: int, mv: Move): int {
    if mv.Write? then now else mv.now
  }

  function Ends(now: int, mv: Move): int {
    if mv.Write? then now else if mv.Clear? then mv.stamp else mv.now
  }

  predicate Reads(now: int, mv: Move) {
    now <= Begins(now, mv) <= Ends(now, mv)
  }

  /** The moves can be made one after the other, and the clock never goes back. */
  predicate Possible(s: State, n: nat, lim: Limit, now: int, mvs: seq<Move>)
    decreases mvs
  {
    mvs == [] || (Enabled(s, n, mvs[0]) && Reads(now, mvs[0]) && Possible(Next(s, n, lim, mvs[0]), n, lim, Ends(now, mvs[0]), mvs[1..]))
  }

  /** When the requests are admitted, or the sweeps take place. */
  function Instants(mvs: seq<Move>, sweeps: bool): seq<int> {
    if mvs == [] then [] else
      (if sweeps && mvs[0].Sweep? then [mvs[0].now] else if !sweeps && mvs[0].Clear? then [mvs[0].stamp] else [])
      + Instants(mvs[1..], sweeps)
  }

  const START := State([], 0, None)

  /** The list once the update in progress has written. */
  function Logical(s: State): seq<int> {
    if s.writing.Some? && s.writing.value.kept then Pushed(s.list, [s.writing.value.stamp]) else s.list
  }

  ghost predicate Inv(s: State, n: nat, lim: Limit, now: int) {
    var l := Logical(s);
    && Nonincreasing(l) && (forall i :: 0 <= i < |l| ==> l[i] <= Millis(now))
    && |l| + s.pending <= lim.count + n - 1 && s.pending + (if s.writing.Some? then 1 else 0) <= n
  }

  /** The timestamps of an interval that begins at `lo`. */
  function Recent(l: seq<int>, lo: int): nat {
    |InWindow(l, Millis(lo))|
  }

  lemma {:induction false} RecentWithin(l: seq<int>, lo: int)
    ensures Recent(l, lo) <= |l|
  {
    if l != [] {
      RecentWithin(l[1..], lo);
    }
  }

  /** Pushing adds one, before the window is over cleaning takes none away. */
  lemma RecentPushed(l: seq<int>, x: int, lo: int)
    ensures Recent(Pushed(l, [x]), lo) == Recent(l, lo) + (if x >= Millis(lo) then 1 else 0)
  {
    assert Pushed(l, [x]) == [x] + l;
    InWindowHead(Pushed(l, [x]), Millis(lo));
  }

  lemma RecentClean(l: seq<int>, lim: Limit, t: int, lo: int)
    requires Nonincreasing(l) && t <= lo + WholeMillis(lim)
    ensures Recent(Clean(l, WindowStart(t, lim)), lo) == Recent(l, lo)
  {
    CleanKeepsOrClears(l, WindowStart(t, lim));
    InWindowEmpty(l, Millis(lo));
    InWindowEmpty([], Millis(lo));
    assert l != [] ==> forall i :: 0 < i < |l| ==> l[0] >= l[i];
  }

  lemma CleanKeepsInv(s: State, n: nat, lim: Limit, now: int, t: int)
    requires Inv(s, n, lim, now) && now <= t && s.writing.None?
    ensures var l := Clean(s.list, WindowStart(t, lim));
            Nonincreasing(l) && (forall i :: 0 <= i < |l| ==> l[i] <= Millis(t)) && |l| <= |s.list|
  {
    CleanKeepsOrClears(s.list, WindowStart(t, lim));
  }

  lemma NextKeepsInv(s: State, n: nat, lim: Limit, now: int, mv: Move)
    requires ValidLimit(lim) && Inv(s, n, lim, now) && Enabled(s, n, mv) && Reads(now, mv)
    ensures Inv(Next(s, n, lim, mv), n, lim, Ends(now, mv))
  {
    hide Clean, WindowStart;
    match mv
    case Browse(_, t) => CleanKeepsInv(s, n, lim, now, t);
    case Clear(t, stamp) =>
      CleanKeepsInv(s, n, lim, now, t);
      var l := Clean(s.list, WindowStart(t, lim));
      assert Pushed(l, [Millis(stamp)]) == [Millis(stamp)] + l;
    case Write =>
    case Sweep(t) =>
      assert Pushed([], [if s.writing.Some? then s.writing.value.stamp else 0]) != [];
  }

  /** What an interval has room for, of which each sweep can give back one place. */
  lemma StepCounts(s: State, n: nat, lim: Limit, now: int, mv: Move, lo: int)
    requires ValidLimit(lim) && Inv(s, n, lim, now) && Enabled(s, n, mv) && Reads(now, mv)
    requires Ends(now, mv) <= lo + WholeMillis(lim)
    ensures var s' := Next(s, n, lim, mv);
            Recent(Logical(s'), lo) >= Recent(Logical(s), lo) - (if mv.Sweep? then 1 else 0)
                                       + (if mv.Clear? && mv.stamp >= lo then 1 else 0)
  {
    hide Clean, WindowStart, InWindow;
    match mv
    case Browse(_, t) => RecentClean(s.list, lim, t, lo);
    case Clear(t, stamp) =>
      RecentClean(s.list, lim, t, lo);
      RecentPushed(Clean(s.list, WindowStart(t, lim)), Millis(stamp), lo);
    case Write =>
    case Sweep(t) =>
      if s.writing.Some? && s.list == [] {
        RecentPushed([], s.writing.value.stamp, lo);
        InWindowEmpty([], Millis(lo));
      }
  }

  lemma InstantsCount(mvs: seq<Move>, sweeps: bool, lo: int, len: int)
    requires mvs != []
    ensures var t := Ends(0, mvs[0]);
            CountIn(Instants(mvs, sweeps), lo, len)
            == (if (if sweeps then mvs[0].Sweep? else mvs[0].Clear?) && lo <= t <= lo + len then 1 else 0)
               + CountIn(Instants(mvs[1..], sweeps), lo, len)
  {
    var rest := Instants(mvs[1..], sweeps);
    if if sweeps then mvs[0].Sweep? else mvs[0].Clear? {
      assert Instants(mvs, sweeps)[1..] == rest;
    } else {
      assert Instants(mvs, sweeps) == rest;
    }
  }

  lemma {:induction false} LateRun(s: State, n: nat, lim: Limit, now: int, mvs: seq<Move>, lo: int, len: int)
    requires Possible(s, n, lim, now, mvs) && now > lo + len
    ensures CountIn(Instants(mvs, false), lo, len) == 0
    decreases mvs
  {
    hide Next, Enabled;
    if mvs != [] {
      InstantsCount(mvs, false, lo, len);
      LateRun(Next(s, n, lim, mvs[0]), n, lim, Ends(now, mvs[0]), mvs[1..], lo, len);
    }
  }

  /** The timestamps that count once the interval has begun. */
  function Used(s: State, now: int, lo: int): nat {
    if now < lo then 0 else Recent(Logical(s), lo)
  }

  lemma UsedWithin(s: State, n: nat, lim: Limit, now: int, lo: int)
    requires Inv(s, n, lim, now)
    ensures Used(s, now, lo) <= lim.count + n - 1
  {
    RecentWithin(Logical(s), lo);
  }

  /** A step within the interval, or into it. */
  lemma StepUses(s: State, n: nat, lim: Limit, now: int, mv: Move, lo: int)
    requires ValidLimit(lim) && Inv(s, n, lim, now) && Enabled(s, n, mv) && Reads(now, mv)
    requires Ends(now, mv) <= lo + WholeMillis(lim)
    ensures Used(s, now, lo) + (if mv.Clear? && lo <= mv.stamp then 1 else 0)
         <= Used(Next(s, n, lim, mv), Ends(now, mv), lo) + (if mv.Sweep? && lo <= mv.now then 1 else 0)
  {
    hide Recent, WholeMillis;
    if now >= lo {
      StepCounts(s, n, lim, now, mv, lo);
    } else if mv.Clear? && mv.stamp >= lo {
      RecentPushed(Clean(s.list, WindowStart(mv.now, lim)), Millis(mv.stamp), lo);
    }
  }

  lemma {:induction false} RunCounts(s: State, n: nat, lim: Limit, now: int, mvs: seq<Move>, lo: int)
    requires ValidLimit(lim) && Inv(s, n, lim, now) && Possible(s, n, lim, now, mvs)
    ensures now <= lo + WholeMillis(lim) ==>
              CountIn(Instants(mvs, false), lo, WholeMillis(lim)) + Used(s, now, lo)
              <= lim.count + n - 1 + CountIn(Instants(mvs, true), lo, WholeMillis(lim))
    decreases mvs
  {
    hide Inv, Next, Enabled, Used, WholeMillis;
    var len := WholeMillis(lim);
    UsedWithin(s, n, lim, now, lo);
    if mvs != [] && now <= lo + len {
      var mv := mvs[0];
      InstantsCount(mvs, false, lo, len);
      InstantsCount(mvs, true, lo, len);
      var next := Next(s, n, lim, mv);
      if Ends(now, mv) > lo + len {
        LateRun(next, n, lim, Ends(now, mv), mvs[1..], lo, len);
      } else {
        NextKeepsInv(s, n, lim, now, mv);
        StepUses(s, n, lim, now, mv, lo);
        RunCounts(next, n, lim, Ends(now, mv), mvs[1..], lo);
      }
    }
  }

  /** In every run each interval of the window holds at most as many admissions beyond `count + n - 1` as it holds sweeps. */
  lemma SweptSafe(n: nat, lim: Limit, now: int, mvs: seq<Move>, lo: int)
    requires ValidLimit(lim) && n >= 1 && Possible(START, n, lim, now, mvs)
    ensures CountIn(Instants(mvs, false), lo, WholeMillis(lim)) <= lim.count + n - 1 + CountIn(Instants(mvs, true), lo, WholeMillis(lim))
  {
    hide WholeMillis;
    assert Inv(START, n, lim, now);
    if now <= lo + WholeMillis(lim) {
      RunCounts(START, n, lim, now, mvs, lo);
    } else {
      LateRun(START, n, lim, now, mvs, lo, WholeMillis(lim));
    }
  }

  // The bound is reached: each sweep loses the only timestamp there is, and then `n` requests browse
  // before the last place is taken.

  ghost predicate Leads(s: State, n: nat, lim: Limit, mvs: seq<Move>, s': State)
    decreases mvs
  {
    if mvs == [] then s' == s
    else Enabled(s, n, mvs[0]) && Reads(0, mvs[0]) && Ends(0, mvs[0]) == 0 && Leads(Next(s, n, lim, mvs[0]), n, lim, mvs[1..], s')
  }

  lemma {:induction false} LeadsPossible(s: State, n: nat, lim: Limit, mvs: seq<Move>, s': State)
    requires Leads(s, n, lim, mvs, s')
    ensures Possible(s, n, lim, 0, mvs)
    decreases mvs
  {
    hide Next, Enabled;
    if mvs != [] {
      LeadsPossible(Next(s, n, lim, mvs[0]), n, lim, mvs[1..], s');
    }
  }

  lemma {:induction false} LeadsOn(s: State, n: nat, lim: Limit, mvs: seq<Move>, s': State, more: seq<Move>, s'': State)
    requires Leads(s, n, lim, mvs, s') && Leads(s', n, lim, more, s'')
    ensures Leads(s, n, lim, mvs + more, s'')
    decreases mvs
  {
    hide Next, Enabled;
    if mvs == [] {
      assert mvs + more == more;
    } else {
      assert (mvs + more)[0] == mvs[0] && (mvs + more)[1..] == mvs[1..] + more;
      LeadsOn(Next(s, n, lim, mvs[0]), n, lim, mvs[1..], s', more, s'');
    }
  }

  /** Four moves, one after the other. */
  lemma LeadsFour(s: State, n: nat, lim: Limit, mvs: seq<Move>, a: State, b: State, c: State, d: State)
    requires |mvs| == 4 && forall i :: 0 <= i < 4 ==> Reads(0, mvs[i]) && Ends(0, mvs[i]) == 0
    requires Enabled(s, n, mvs[0]) && a == Next(s, n, lim, mvs[0]) && Enabled(a, n, mvs[1]) && b == Next(a, n, lim, mvs[1])
    requires Enabled(b, n, mvs[2]) && c == Next(b, n, lim, mvs[2]) && Enabled(c, n, mvs[3]) && d == Next(c, n, lim, mvs[3])
    ensures Leads(s, n, lim, mvs, d)
  {
    hide Next, Enabled, Reads;
    assert Leads(d, n, lim, mvs[1..][1..][1..][1..], d);
    assert Leads(c, n, lim, mvs[1..][1..][1..], d);
    assert Leads(b, n, lim, mvs[1..][1..], d);
    assert Leads(a, n, lim, mvs[1..], d);
  }

  lemma LeadsTwo(s: State, n: nat, lim: Limit, mvs: seq<Move>, a: State, b: State)
    requires |mvs| == 2 && forall i :: 0 <= i < 2 ==> Reads(0, mvs[i]) && Ends(0, mvs[i]) == 0
    requires Enabled(s, n, mvs[0]) && a == Next(s, n, lim, mvs[0]) && Enabled(a, n, mvs[1]) && b == Next(a, n, lim, mvs[1])
    ensures Leads(s, n, lim, mvs, b)
  {
    hide Next, Enabled, Reads;
    assert Leads(b, n, lim, mvs[1..][1..], b);
    assert Leads(a, n, lim, mvs[1..], b);
  }

  lemma LeadsNowhere(s: State, n: nat, lim: Limit)
    ensures Leads(s, n, lim, [], s)
  {
  }

  function Lost(k: nat): seq<Move> {
    if k == 0 then [] else [Browse(true, 0), Clear(0, 0), Sweep(0), Write] + Lost(k - 1)
  }

  function Browses(k: nat): seq<Move> {
    if k == 0 then [] else [Browse(true, 0)] + Browses(k - 1)
  }

  function Updates(k: nat): seq<Move> {
    if k == 0 then [] else [Clear(0, 0), Write] + Updates(k - 1)
  }

  /** Checks one after the other. */
  function Checks(k: nat): seq<Move> {
    if k == 0 then [] else Browses(1) + (Updates(1) + Checks(k - 1))
  }

  lemma CleanNow(k: nat, lim: Limit)
    requires ValidLimit(lim)
    ensures Clean(Copies(k, 0), WindowStart(0, lim)) == Copies(k, 0) && Pushed(Copies(k, 0), [0]) == Copies(k + 1, 0)
  {
    CleanKeepsOrClears(Copies(k, 0), WindowStart(0, lim));
    assert Pushed(Copies(k, 0), [0]) == [0] + Copies(k, 0);
  }

  lemma {:induction false} LostLead(k: nat, n: nat, lim: Limit)
    requires ValidLimit(lim) && n >= 1
    ensures Leads(START, n, lim, Lost(k), START)
  {
    if k > 0 {
      var a, b, c := State([], 1, None), State([], 0, Some(Writing(0, true))), State([], 0, Some(Writing(0, false)));
      var mvs := [Browse(true, 0), Clear(0, 0), Sweep(0), Write];
      CleanShrinks([], WindowStart(0, lim));
      LeadsFour(START, n, lim, mvs, a, b, c, START);
      LostLead(k - 1, n, lim);
      LeadsOn(START, n, lim, mvs, START, Lost(k - 1), START);
    }
  }

  lemma {:induction false} BrowsesLead(l: nat, p: nat, k: nat, n: nat, lim: Limit)
    requires ValidLimit(lim) && p + k <= n && l < lim.count
    ensures Leads(State(Copies(l, 0), p, None), n, lim, Browses(k), State(Copies(l, 0), p + k, None))
    decreases k
  {
    if k > 0 {
      CleanNow(l, lim);
      BrowsesLead(l, p + 1, k - 1, n, lim);
      assert Browses(k)[1..] == Browses(k - 1);
    }
  }

  lemma {:induction false} UpdatesLead(l: nat, p: nat, k: nat, n: nat, lim: Limit)
    requires ValidLimit(lim) && k <= p
    ensures Leads(State(Copies(l, 0), p, None), n, lim, Updates(k), State(Copies(l + k, 0), p - k, None))
    decreases k
  {
    if k > 0 {
      hide Clean, Copies, Leads;
      CleanNow(l, lim);
      var s, held := State(Copies(l, 0), p, None), State(Copies(l, 0), p - 1, Some(Writing(0, true)));
      var s' := State(Copies(l + 1, 0), p - 1, None);
      LeadsTwo(s, n, lim, [Clear(0, 0), Write], held, s');
      UpdatesLead(l + 1, p - 1, k - 1, n, lim);
      LeadsOn(s, n, lim, [Clear(0, 0), Write], s', Updates(k - 1), State(Copies(l + k, 0), p - k, None));
    } else {
      LeadsNowhere(State(Copies(l, 0), p, None), n, lim);
    }
  }

  lemma {:induction false} ChecksLead(l: nat, p: nat, k: nat, n: nat, lim: Limit)
    requires ValidLimit(lim) && p < n && l + k <= lim.count
    ensures Leads(State(Copies(l, 0), p, None), n, lim, Checks(k), State(Copies(l + k, 0), p, None))
    decreases k
  {
    hide Copies, Leads, Browses, Updates;
    var s, s' := State(Copies(l, 0), p, None), State(Copies(l + k, 0), p, None);
    if k > 0 {
      var a, b := State(Copies(l, 0), p + 1, None), State(Copies(l + 1, 0), p, None);
      BrowsesLead(l, p, 1, n, lim);
      UpdatesLead(l, p + 1, 1, n, lim);
      ChecksLead(l + 1, p, k - 1, n, lim);
      LeadsOn(a, n, lim, Updates(1), b, Checks(k - 1), s');
      LeadsOn(s, n, lim, Browses(1), a, Updates(1) + Checks(k - 1), s');
    } else {
      LeadsNowhere(s, n, lim);
    }
  }

  /** `k` admissions lost to sweeps, then as many as concurrent Checks can make. */
  function Worst(k: nat, n: nat, lim: Limit): seq<Move>
    requires ValidLimit(lim) && n >= 1
  {
    Lost(k) + (Browses(n) + (Updates(1) + (Checks(lim.count - 1) + Updates(n - 1))))
  }

  lemma WorstPossible(k: nat, n: nat, lim: Limit)
    requires ValidLimit(lim) && n >= 1
    ensures Possible(START, n, lim, 0, Worst(k, n, lim))
  {
    hide Leads, Possible, Lost, Browses, Updates, Checks, Copies;
    var c := lim.count;
    assert Copies(0, 0) == [];
    var a, b := State(Copies(0, 0), n, None), State(Copies(1, 0), n - 1, None);
    var d, e := State(Copies(c, 0), n - 1, None), State(Copies(c + n - 1, 0), 0, None);
    LostLead(k, n, lim);
    BrowsesLead(0, 0, n, n, lim);
    UpdatesLead(0, n, 1, n, lim);
    ChecksLead(1, n - 1, c - 1, n, lim);
    UpdatesLead(c, n - 1, n - 1, n, lim);
    LeadsOn(b, n, lim, Checks(c - 1), d, Updates(n - 1), e);
    LeadsOn(a, n, lim, Updates(1), b, Checks(c - 1) + Updates(n - 1), e);
    LeadsOn(START, n, lim, Browses(n), a, Updates(1) + (Checks(c - 1) + Updates(n - 1)), e);
    LeadsOn(START, n, lim, Lost(k), START, Browses(n) + (Updates(1) + (Checks(c - 1) + Updates(n - 1))), e);
    LeadsPossible(START, n, lim, Worst(k, n, lim), e);
  }

  lemma {:induction false} InstantsConcat(a: seq<Move>, b: seq<Move>, sweeps: bool)
    ensures Instants(a + b, sweeps) == Instants(a, sweeps) + Instants(b, sweeps)
  {
    if a == [] {
      assert a + b == b;
    } else {
      assert (a + b)[0] == a[0] && (a + b)[1..] == a[1..] + b;
      InstantsConcat(a[1..], b, sweeps);
    }
  }

  lemma InstantsHead(mv: Move, rest: seq<Move>, sweeps: bool)
    ensures Instants([mv] + rest, sweeps)
         == (if sweeps && mv.Sweep? then [mv.now] else if !sweeps && mv.Clear? then [mv.stamp] else []) + Instants(rest, sweeps)
  {
    assert ([mv] + rest)[1..] == rest;
  }

  lemma {:induction false} LostInstants(k: nat, sweeps: bool)
    ensures Instants(Lost(k), sweeps) == Copies(k, 0)
  {
    if k > 0 {
      var more := Lost(k - 1);
      assert Lost(k) == [Browse(true, 0)] + ([Clear(0, 0)] + ([Sweep(0)] + ([Write] + more)));
      hide Instants;
      InstantsHead(Browse(true, 0), [Clear(0, 0)] + ([Sweep(0)] + ([Write] + more)), sweeps);
      InstantsHead(Clear(0, 0), [Sweep(0)] + ([Write] + more), sweeps);
      InstantsHead(Sweep(0), [Write] + more, sweeps);
      InstantsHead(Write, more, sweeps);
      LostInstants(k - 1, sweeps);
    } else {
      assert Instants([], sweeps) == [];
    }
  }

  lemma {:induction false} BlocksInstants(k: nat)
    ensures Instants(Browses(k), false) == [] == Instants(Browses(k), true)
    ensures Instants(Updates(k), false) == Copies(k, 0) && Instants(Updates(k), true) == []
  {
    if k > 0 {
      BlocksInstants(k - 1);
      assert Browses(k)[1..] == Browses(k - 1) && Updates(k)[1..][1..] == Updates(k - 1) && Updates(k)[1..][0] == Write;
    }
  }

  lemma {:induction false} ChecksInstants(k: nat)
    ensures Instants(Checks(k), false) == Copies(k, 0) && Instants(Checks(k), true) == []
  {
    if k > 0 {
      ChecksInstants(k - 1);
      BlocksInstants(1);
      assert Copies(1, 0) == [0];
      forall sweeps: bool ensures Instants(Checks(k), sweeps)
        == Instants(Browses(1), sweeps) + (Instants(Updates(1), sweeps) + Instants(Checks(k - 1), sweeps))
      {
        InstantsConcat(Updates(1), Checks(k - 1), sweeps);
        InstantsConcat(Browses(1), Updates(1) + Checks(k - 1), sweeps);
      }
    }
  }

  lemma WorstInstants(k: nat, n: nat, lim: Limit)
    requires ValidLimit(lim) && n >= 1
    ensures |Instants(Worst(k, n, lim), false)| == lim.count + n - 1 + k && |Instants(Worst(k, n, lim), true)| == k
    ensures forall i :: 0 <= i < lim.count + n - 1 + k ==> Instants(Worst(k, n, lim), false)[i] == 0
  {
    hide Instants, Lost, Browses, Updates, Checks, Copies;
    LostInstants(k, false);
    LostInstants(k, true);
    BlocksInstants(n);
    BlocksInstants(1);
    ChecksInstants(lim.count - 1);
    BlocksInstants(n - 1);
    var c, u := Checks(lim.count - 1), Updates(n - 1);
    forall sweeps: bool ensures Instants(Worst(k, n, lim), sweeps)
      == Instants(Lost(k), sweeps) + (Instants(Browses(n), sweeps) + (Instants(Updates(1), sweeps) + (Instants(c, sweeps) + Instants(u, sweeps))))
    {
      InstantsConcat(c, u, sweeps);
      InstantsConcat(Updates(1), c + u, sweeps);
      InstantsConcat(Browses(n), Updates(1) + (c + u), sweeps);
      InstantsConcat(Lost(k), Browses(n) + (Updates(1) + (c + u)), sweeps);
    }
  }

  /** `bound` limits the admissions of every run that has at most `k` sweeps in any interval of the window. */
  ghost predicate Bounds(bound: nat, k: nat, n: nat, lim: Limit)
    requires ValidLimit(lim)
  {
    forall now, mvs :: Possible(START, n, lim, now, mvs) && AtMost(Instants(mvs, true), k, WholeMillis(lim))
      ==> AtMost(Instants(mvs, false), bound, WholeMillis(lim))
  }

  /**
   * With at most `n` Checks in flight on a freq key, any Browses, and at most `k` sweeps in any interval
   * of the window's whole milliseconds, `bound` limits the admissions of every run in any such interval
   * if and only if it is at least `count + n - 1 + k`: without sweeps the bound of single-step Checks,
   * and one lost admission for each sweep.
   */
  lemma SweptExactly(bound: nat, k: nat, n: nat, lim: Limit)
    requires ValidLimit(lim) && n >= 1
    ensures Bounds(bound, k, n, lim) <==> bound >= lim.count + n - 1 + k
  {
    hide Possible, Instants, WholeMillis, Worst;
    if bound >= lim.count + n - 1 + k {
      forall now, mvs | Possible(START, n, lim, now, mvs) && AtMost(Instants(mvs, true), k, WholeMillis(lim))
        ensures AtMost(Instants(mvs, false), bound, WholeMillis(lim))
      {
        forall lo ensures CountIn(Instants(mvs, false), lo, WholeMillis(lim)) <= bound {
          SweptSafe(n, lim, now, mvs, lo);
          assert CountIn(Instants(mvs, true), lo, WholeMillis(lim)) <= k;
        }
      }
    } else {
      var mvs := Worst(k, n, lim);
      WorstPossible(k, n, lim);
      WorstInstants(k, n, lim);
      WholePositive(lim);
      forall lo ensures CountIn(Instants(mvs, true), lo, WholeMillis(lim)) <= k {
        CountBelow(Instants(mvs, true), lo, WholeMillis(lim));
      }
      var ts := Instants(mvs, false);
      CountInBlock(ts, 0, |ts| - 1, 0, WholeMillis(lim));
      assert CountIn(ts, 0, WholeMillis(lim)) > bound;
      assert !AtMost(ts, bound, WholeMillis(lim));
    }
  }

  lemma WholePositive(lim: Limit)
    requires ValidLimit(lim)
    ensures WholeMillis(lim) >= 0
  {
  }

  lemma {:induction false} CountBelow(ts: seq<int>, lo: int, len: int)
    ensures CountIn(ts, lo, len) <= |ts|
  {
    if ts != [] {
      CountBelow(ts[1..], lo, len);
    }
  }
}
