/** Runs through the failover manager that admit as much as they can. */
module FailoverRuns {
  import opened Failover
  import opened FailoverSpec
  import opened GoTypes
  import opened Intervals
  import opened Limiters
  import opened Windows

  // The bound is reached: each of the stores in use opens a window at 0, fills it at its last live
  // instant and fills the next one an instant later.

  function Check(t: int): Failover.Event {
    Request(true, Instant(t))
  }

  function Checks(n: nat, t: int): seq<Failover.Event> {
    if n == 0 then [] else [Check(t)] + Checks(n - 1, t)
  }

  function FailedPings(n: nat): seq<Failover.Event> {
    if n == 0 then [] else [Failover.Event.Ping(false)] + FailedPings(n - 1)
  }

  function Current(s: State): Cell {
    s.CellOf(s.manager.current)
  }

  /** A check that the current store has no live counter for: a fault, unless the manager is degraded. */
  lemma OpenCheck(s: State, t: int, lim: Limit, rest: seq<Failover.Event>)
    requires ValidLimit(lim) && Consistent(s) && Drop(Current(s), t) == None
    requires s.manager.hasPrimary && !s.manager.degraded ==> !RecordFailure(s.manager).degraded
    ensures var faulty := s.manager.hasPrimary && !s.manager.degraded;
            var next := s.With(s.manager.current, Some(Counter(1, At(t + lim.time))))
                         .(manager := if faulty then RecordFailure(s.manager) else s.manager);
            Consistent(next) && Instants(Run(s, lim, [Check(t)] + rest)) == [t] + Instants(Run(next, lim, rest))
  {
    hide Wrap32, Wrap64;
    assert Wrap64(1) == 1;
    assert ([Check(t)] + rest)[1..] == rest;
    var (next, admitted) := Step(s, lim, Check(t));
    assert admitted.Some? && admitted.value.hit.time == t;
    InstantsConcat(admitted.value, Run(next, lim, rest));
  }

  lemma InstantsConcat(a: Admission, rest: seq<Admission>)
    ensures Instants([a] + rest) == [a.hit.time] + Instants(rest)
  {
  }

  function WithValue(s: State, n: int): State
    requires Current(s).Some?
  {
    s.With(s.manager.current, Some(Current(s).value.(value := n)))
  }

  lemma LiveCheck(s: State, t: int, lim: Limit, rest: seq<Failover.Event>)
    requires ValidLimit(lim) && Consistent(s) && Current(s).Some?
    requires t <= Current(s).value.expires.time && Current(s).value.value < lim.count
    ensures var next := WithValue(s, Current(s).value.value + 1);
            Consistent(next) && Instants(Run(s, lim, [Check(t)] + rest)) == [t] + Instants(Run(next, lim, rest))
  {
    hide Wrap64;
    assert Wrap64(Current(s).value.value + 1) == Current(s).value.value + 1;
    assert ([Check(t)] + rest)[1..] == rest;
    var (next, admitted) := Step(s, lim, Check(t));
    assert admitted.Some? && admitted.value.hit.time == t;
    InstantsConcat(admitted.value, Run(next, lim, rest));
  }

  lemma {:induction false} LiveChecks(s: State, n: nat, t: int, lim: Limit, rest: seq<Failover.Event>)
    requires ValidLimit(lim) && Consistent(s) && Current(s).Some? && t <= Current(s).value.expires.time
    requires Current(s).value.value + n <= lim.count
    ensures var next := WithValue(s, Current(s).value.value + n);
            Consistent(next) && Instants(Run(s, lim, Checks(n, t) + rest)) == Copies(n, t) + Instants(Run(next, lim, rest))
    decreases n
  {
    hide Run;
    if n == 0 {
      assert Checks(n, t) + rest == rest;
    } else {
      assert Checks(n, t) + rest == [Check(t)] + (Checks(n - 1, t) + rest);
      LiveCheck(s, t, lim, Checks(n - 1, t) + rest);
      LiveChecks(WithValue(s, Current(s).value.value + 1), n - 1, t, lim, rest);
    }
  }

  /** `n` failed pings that use up the tolerance. */
  lemma {:induction false} PingsDegrade(s: State, n: nat, lim: Limit, rest: seq<Failover.Event>)
    requires ValidLimit(lim) && Consistent(s) && s.manager.hasPrimary && !s.manager.degraded && n > 0
    requires 0 <= s.manager.failures && s.manager.failures + n == s.manager.maxFailures <= MAX_INT32
    ensures var next := s.(manager := s.manager.(failures := s.manager.maxFailures, degraded := true, current := Fallback));
            Consistent(next) && Run(s, lim, FailedPings(n) + rest) == Run(next, lim, rest)
    decreases n
  {
    hide Wrap32;
    assert Wrap32(s.manager.failures + 1) == s.manager.failures + 1;
    var evs := FailedPings(n) + rest;
    assert evs[0] == Failover.Event.Ping(false) && evs[1..] == FailedPings(n - 1) + rest;
    if n == 1 {
      assert FailedPings(0) + rest == rest;
    } else {
      PingsDegrade(Step(s, lim, Failover.Event.Ping(false)).0, n - 1, lim, rest);
    }
  }

  function FilledWindow(lim: Limit, t: int, rest: seq<Failover.Event>): seq<Failover.Event>
    requires ValidLimit(lim)
  {
    [Check(t)] + (Checks(lim.count - 1, t) + rest)
  }

  /** With one store in use: by way of a failed ping, which with a primary is one fault too many. */
  function OneStore(lim: Limit): seq<Failover.Event>
    requires ValidLimit(lim)
  {
    FailedPings(1) + ([Check(0)] + (Checks(lim.count - 1, lim.time) + FilledWindow(lim, lim.time + 1, [])))
  }

  /** With both: the fallback opens its window while degraded, and the primary is back for the end of its own. */
  function BothStores(max: nat, lim: Limit): seq<Failover.Event>
    requires ValidLimit(lim) && max >= 2
  {
    var t := lim.time;
    [Check(0)] + (FailedPings(max - 1) + ([Check(0)] + (Checks(lim.count - 1, t) + ([Failover.Event.Ping(true)]
    + (Checks(lim.count - 1, t) + FilledWindow(lim, t + 1, FailedPings(max - 1) + FilledWindow(lim, t + 1, [])))))))
  }

  lemma {:induction false} ChecksTimed(n: nat, now: int, t: int, rest: seq<Failover.Event>)
    requires now <= t && Failover.Timed(t, rest)
    ensures Failover.Timed(now, Checks(n, t) + rest)
  {
    if n == 0 {
      assert Checks(n, t) + rest == rest;
      TimedEarlier(now, t, rest);
    } else {
      ChecksTimed(n - 1, t, t, rest);
      assert (Checks(n, t) + rest)[1..] == Checks(n - 1, t) + rest;
    }
  }

  lemma {:induction false} TimedEarlier(now: int, t: int, rest: seq<Failover.Event>)
    requires now <= t && Failover.Timed(t, rest)
    ensures Failover.Timed(now, rest)
    decreases rest
  {
    if rest != [] && rest[0].Ping? {
      TimedEarlier(now, t, rest[1..]);
    }
  }

  lemma CheckTimed(now: int, t: int, rest: seq<Failover.Event>)
    requires now <= t && Failover.Timed(t, rest)
    ensures Failover.Timed(now, [Check(t)] + rest)
  {
    assert ([Check(t)] + rest)[1..] == rest;
  }

  lemma {:induction false} PingsTimed(n: nat, now: int, rest: seq<Failover.Event>)
    requires Failover.Timed(now, rest)
    ensures Failover.Timed(now, FailedPings(n) + rest) && Failover.Timed(now, [Failover.Event.Ping(true)] + rest)
  {
    assert ([Failover.Event.Ping(true)] + rest)[1..] == rest;
    if n == 0 {
      assert FailedPings(n) + rest == rest;
    } else {
      PingsTimed(n - 1, now, rest);
      assert (FailedPings(n) + rest)[1..] == FailedPings(n - 1) + rest;
    }
  }

  lemma FilledTimed(lim: Limit, now: int, t: int, rest: seq<Failover.Event>)
    requires ValidLimit(lim) && now <= t && Failover.Timed(t, rest)
    ensures Failover.Timed(now, FilledWindow(lim, t, rest))
  {
    ChecksTimed(lim.count - 1, t, t, rest);
    CheckTimed(now, t, Checks(lim.count - 1, t) + rest);
  }

  lemma OneStoreTimed(lim: Limit)
    requires ValidLimit(lim)
    ensures Failover.Timed(0, OneStore(lim))
  {
    hide Checks, FailedPings, FilledWindow, Failover.Timed;
    var t := lim.time;
    EmptyTimed(t + 1);
    FilledTimed(lim, t, t + 1, []);
    var next := FilledWindow(lim, t + 1, []);
    ChecksTimed(lim.count - 1, 0, t, next);
    CheckTimed(0, 0, Checks(lim.count - 1, t) + next);
    PingsTimed(1, 0, [Check(0)] + (Checks(lim.count - 1, t) + next));
  }

  lemma EmptyTimed(now: int)
    ensures Failover.Timed(now, [])
  {
  }

  lemma BothStoresTimed(max: nat, lim: Limit)
    requires ValidLimit(lim) && max >= 2
    ensures Failover.Timed(0, BothStores(max, lim))
  {
    hide Checks, FailedPings, FilledWindow, Failover.Timed, Check;
    var t, n := lim.time, lim.count - 1;
    EmptyTimed(t + 1);
    var f := FilledWindow(lim, t + 1, []);
    FilledTimed(lim, t + 1, t + 1, []);
    PingsTimed(max - 1, t + 1, f);
    var p := FilledWindow(lim, t + 1, FailedPings(max - 1) + f);
    FilledTimed(lim, t, t + 1, FailedPings(max - 1) + f);
    ChecksTimed(n, t, t, p);
    PingsTimed(0, t, Checks(n, t) + p);
    var back := [Failover.Event.Ping(true)] + (Checks(n, t) + p);
    ChecksTimed(n, 0, t, back);
    CheckTimed(0, 0, Checks(n, t) + back);
    PingsTimed(max - 1, 0, [Check(0)] + (Checks(n, t) + back));
    CheckTimed(0, 0, FailedPings(max - 1) + ([Check(0)] + (Checks(n, t) + back)));
  }

  /** A window filled at once in the current store; opening it is a fault, unless the manager is degraded. */
  lemma FilledRun(s: State, t: int, lim: Limit, rest: seq<Failover.Event>)
    requires ValidLimit(lim) && Consistent(s) && Drop(Current(s), t) == None
    requires s.manager.hasPrimary && !s.manager.degraded ==> !RecordFailure(s.manager).degraded
    ensures var faulty := s.manager.hasPrimary && !s.manager.degraded;
            var next := s.With(s.manager.current, Some(Counter(lim.count, At(t + lim.time))))
                         .(manager := if faulty then RecordFailure(s.manager) else s.manager);
            && Consistent(next)
            && Instants(Run(s, lim, FilledWindow(lim, t, rest))) == [t] + Copies(lim.count - 1, t) + Instants(Run(next, lim, rest))
  {
    hide Run, Wrap32;
    OpenCheck(s, t, lim, Checks(lim.count - 1, t) + rest);
    var faulty := s.manager.hasPrimary && !s.manager.degraded;
    var begun := s.With(s.manager.current, Some(Counter(1, At(t + lim.time))))
                   .(manager := if faulty then RecordFailure(s.manager) else s.manager);
    assert begun.manager.current == s.manager.current;
    LiveChecks(begun, lim.count - 1, t, lim, rest);
  }

  lemma EmptyRun(s: State, lim: Limit)
    requires ValidLimit(lim) && Consistent(s)
    ensures Instants(Run(s, lim, [])) == []
  {
  }

  /** A single failed ping, when one is enough, leaves only the fallback in use. */
  lemma FirstPing(hasPrimary: bool, option: int, lim: Limit, rest: seq<Failover.Event>) returns (s: State)
    requires ValidLimit(lim) && (hasPrimary ==> MaxFailures(option) <= 1)
    ensures s.manager.current == Fallback && s.fallback == None && Consistent(s) && (s.manager.hasPrimary ==> s.manager.degraded)
    ensures Run(Start(hasPrimary, option), lim, FailedPings(1) + rest) == Run(s, lim, rest)
  {
    hide Wrap32, MaxFailures;
    assert Wrap32(1) == 1;
    var start := Start(hasPrimary, option);
    var evs := FailedPings(1) + rest;
    assert FailedPings(0) == [] && evs[0] == Failover.Event.Ping(false) && evs[1..] == rest;
    s := Step(start, lim, evs[0]).0;
  }

  lemma OneStoreRun(hasPrimary: bool, option: int, lim: Limit)
    requires ValidLimit(lim) && (hasPrimary ==> MaxFailures(option) <= 1)
    ensures Instants(Run(Start(hasPrimary, option), lim, OneStore(lim))) ==
            [0] + (Copies(lim.count - 1, lim.time) + ([lim.time + 1] + Copies(lim.count - 1, lim.time + 1) + []))
  {
    hide Run, Checks, FailedPings, FilledWindow, Wrap32, MaxFailures;
    var t, n := lim.time, lim.count;
    var next := FilledWindow(lim, t + 1, []);
    var s := FirstPing(hasPrimary, option, lim, [Check(0)] + (Checks(n - 1, t) + next));
    OpenCheck(s, 0, lim, Checks(n - 1, t) + next);
    s := s.(fallback := Some(Counter(1, At(t))));
    LiveChecks(s, n - 1, t, lim, next);
    s := s.(fallback := Some(Counter(n, At(t))));
    FilledRun(s, t + 1, lim, []);
    EmptyRun(s.(fallback := Some(Counter(n, At(t + 1 + t)))), lim);
  }

  /** The manager with `failures` counted, degraded or not. */
  function ManagerAt(max: nat, failures: nat, degraded: bool): Manager {
    Manager(true, max, failures, degraded, if degraded then Fallback else Primary)
  }

  lemma GoodPing(s: State, lim: Limit, rest: seq<Failover.Event>)
    requires ValidLimit(lim) && Consistent(s) && s.manager.hasPrimary && s.manager.degraded
    ensures var next := s.(manager := s.manager.(failures := 0, degraded := false, current := Primary));
            Consistent(next) && Run(s, lim, [Failover.Event.Ping(true)] + rest) == Run(next, lim, rest)
  {
    assert ([Failover.Event.Ping(true)] + rest)[1..] == rest;
  }

  /** The second half: with both counters full at the end of their windows, back at the primary. */
  lemma SecondHalf(max: nat, lim: Limit)
    requires ValidLimit(lim) && 2 <= max <= MAX_INT32
    ensures var (t, full) := (lim.time, Some(Counter(lim.count, At(lim.time))));
            var burst := [t + 1] + Copies(lim.count - 1, t + 1);
            Instants(Run(State(ManagerAt(max, 0, false), full, full), lim,
                         FilledWindow(lim, t + 1, FailedPings(max - 1) + FilledWindow(lim, t + 1, [])))) == burst + (burst + [])
  {
    hide Run, FailedPings, FilledWindow, Wrap32, Copies;
    assert Wrap32(1) == 1;
    var t := lim.time;
    var full, anew := Some(Counter(lim.count, At(t))), Some(Counter(lim.count, At(t + 1 + t)));
    var last := FilledWindow(lim, t + 1, []);
    FilledRun(State(ManagerAt(max, 0, false), full, full), t + 1, lim, FailedPings(max - 1) + last);
    PingsDegrade(State(ManagerAt(max, 1, false), anew, full), max - 1, lim, last);
    FilledRun(State(ManagerAt(max, max, true), anew, full), t + 1, lim, []);
    EmptyRun(State(ManagerAt(max, max, true), anew, anew), lim);
  }

  lemma BothStoresRun(option: int, lim: Limit)
    requires ValidLimit(lim) && MaxFailures(option) >= 2
    ensures var t := lim.time;
            var burst := [t + 1] + Copies(lim.count - 1, t + 1);
            Instants(Run(Start(true, option), lim, BothStores(MaxFailures(option), lim))) ==
            [0] + ([0] + (Copies(lim.count - 1, t) + (Copies(lim.count - 1, t) + (burst + (burst + [])))))
  {
    hide Run, Checks, FailedPings, FilledWindow, Wrap32, Copies;
    assert Wrap32(1) == 1;
    var t, n, max := lim.time, lim.count, MaxFailures(option);
    var full, one := Some(Counter(n, At(t))), Some(Counter(1, At(t)));
    var half := FilledWindow(lim, t + 1, FailedPings(max - 1) + FilledWindow(lim, t + 1, []));
    var e4 := Checks(n - 1, t) + half;
    var e3 := [Failover.Event.Ping(true)] + e4;
    var e2 := Checks(n - 1, t) + e3;
    var e1 := [Check(0)] + e2;
    OpenCheck(Start(true, option), 0, lim, FailedPings(max - 1) + e1);
    PingsDegrade(State(ManagerAt(max, 1, false), one, None), max - 1, lim, e1);
    OpenCheck(State(ManagerAt(max, max, true), one, None), 0, lim, e2);
    LiveChecks(State(ManagerAt(max, max, true), one, one), n - 1, t, lim, e3);
    GoodPing(State(ManagerAt(max, max, true), one, full), lim, e4);
    LiveChecks(State(ManagerAt(max, 0, false), one, full), n - 1, t, lim, half);
    SecondHalf(max, lim);
  }

  lemma BoundReached(hasPrimary: bool, option: int, lim: Limit) returns (evs: seq<Failover.Event>)
    requires ValidLimit(lim)
    ensures Failover.Timed(0, evs)
    ensures CountIn(Instants(Run(Start(hasPrimary, option), lim, evs)), 1, lim.time) >= Bound(hasPrimary, option, lim)
  {
    hide Run, Copies, OneStore, BothStores, MaxFailures, Failover.Timed;
    var n := lim.count;
    if hasPrimary && MaxFailures(option) >= 2 {
      evs := BothStores(MaxFailures(option), lim);
      BothStoresTimed(MaxFailures(option), lim);
      BothStoresRun(option, lim);
      CountInBlock(Instants(Run(Start(hasPrimary, option), lim, evs)), 2, 4 * n - 1, 1, lim.time);
    } else {
      evs := OneStore(lim);
      OneStoreTimed(lim);
      OneStoreRun(hasPrimary, option, lim);
      CountInBlock(Instants(Run(Start(hasPrimary, option), lim, evs)), 1, 2 * n - 1, 1, lim.time);
    }
  }

  /** `n` bounds the admissions of every run in every interval of the window's length. */
  ghost predicate Bounds(hasPrimary: bool, option: int, lim: Limit, n: nat)
    requires ValidLimit(lim)
  {
    forall now, evs :: Failover.Timed(now, evs) ==> AtMost(Instants(Run(Start(hasPrimary, option), lim, evs)), n, lim.time)
  }

  lemma BoundLeast(hasPrimary: bool, option: int, lim: Limit, n: nat)
    requires ValidLimit(lim)
    ensures Bounds(hasPrimary, option, lim, n) <==> n >= Bound(hasPrimary, option, lim)
  {
    hide Run, Bound, Failover.Timed;
    if n >= Bound(hasPrimary, option, lim) {
      forall now, evs | Failover.Timed(now, evs) ensures AtMost(Instants(Run(Start(hasPrimary, option), lim, evs)), n, lim.time) {
        FailoverSafe(hasPrimary, option, now, lim, evs);
      }
    } else {
      var evs := BoundReached(hasPrimary, option, lim);
      assert CountIn(Instants(Run(Start(hasPrimary, option), lim, evs)), 1, lim.time) > n;
    }
  }

  /**
   * `n` is such a bound if and only if it is at least `4 * count - 2` with a primary that is allowed
   * more than one fault, and at least `2 * count - 1` otherwise; `max` is the number of faults that
   * is configured, as far as 32 bits hold it.
   */
  lemma FailoverBoundLeast(hasPrimary: bool, option: int, max: int, lim: Limit, n: nat)
    requires ValidLimit(lim) && Configured(option, max)
    ensures Bounds(hasPrimary, option, lim, n) <==> n >= if hasPrimary && max >= 2 then 4 * lim.count - 2 else 2 * lim.count - 1
  {
    hide Bounds, MaxFailures;
    ConfiguredIsMax(option, max);
    BoundLeast(hasPrimary, option, lim, n);
  }

  /** For every number that 32 bits hold: none configured is three, and one is too many for the primary. */
  lemma FailoverExact(hasPrimary: bool, option: int, lim: Limit, n: nat)
    requires ValidLimit(lim) && option <= MAX_INT32
    ensures Bounds(hasPrimary, option, lim, n)
       <==> n >= if hasPrimary && (option <= 0 || option >= 2) then 4 * lim.count - 2 else 2 * lim.count - 1
  {
    hide Bounds;
    FailoverBoundLeast(hasPrimary, option, if option <= 0 then 3 else option, lim, n);
  }
}
