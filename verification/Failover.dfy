/**
 * A count rule behind the failover manager: each store keeps its own counter for the key, and the
 * only operation error is a missing key.
 */
module Failover {
  import opened FailoverSpec
  import opened GoTypes
  import opened Intervals
  import opened Limiters
  import opened Windows

  /** The manager and what the two stores hold under the key. */
  datatype State = State(manager: Manager, primary: Cell, fallback: Cell) {
    function CellOf(w: Which): Cell {
      if w.Primary? then primary else fallback
    }

    function With(w: Which, c: Cell): State {
      if w.Primary? then this.(primary := c) else this.(fallback := c)
    }
  }

  /** A health check, a request to the key, or an operation on another key that finds it missing or not. */
  datatype Event = Ping(alive: bool) | Request(check: bool, clk: Clock) | Other(missing: bool, clk: Clock)

  /** A lookup through the manager: the current store and, when its missing key trips the switch, the fallback. */
  function Lookup(s: State, clk: Clock): (State, Option<int>) {
    var first := s.manager.current;
    var c := Drop(s.CellOf(first), clk.b1);
    var read := s.With(first, c);
    if c.None? && s.manager.hasPrimary && !s.manager.degraded then
      var next := read.(manager := RecordFailure(s.manager));
      if next.manager.degraded then
        var d := Drop(next.fallback, clk.b2);
        (next.With(Fallback, d), if d.Some? then Some(d.value.value) else None)
      else (next, None)
    else (read, if c.Some? then Some(c.value.value) else None)
  }

  /** What a store answers to a lookup at `now`. */
  function Read(c: Cell, now: int): Result<int> {
    var d := Drop(c, now);
    if d.Some? then Ok(d.value.value) else Err(KeyNotFound)
  }

  /** A lookup is an operation of the manager, for what the two stores answer at the time they are tried. */
  lemma LookupIsExecute(s: State, clk: Clock)
    requires Consistent(s)
    ensures var ans := Answers(Read(s.primary, clk.b1), Read(s.fallback, if s.manager.current == Fallback then clk.b1 else clk.b2));
            var (m, _, r) := Execute(s.manager, ans);
            var (looked, count) := Lookup(s, clk);
            looked.manager == m && count == if r.Ok? then Some(r.value) else None
  {
    hide Wrap32;
  }

  /** An increment through the manager; it does not fail. */
  function Increment(s: State, lim: Limit, clk: Clock): State {
    s.With(s.manager.current, Some(Add(s.CellOf(s.manager.current), 1, lim.time, clk.u1, clk.u2)))
  }

  /** An admitted request: the store that counted it, and the bump of its counter. */
  datatype Admission = Admission(store: Which, hit: Hit)

  /** One event: the next state and, for an admitted request, how it was counted. */
  function Step(s: State, lim: Limit, ev: Event): (r: (State, Option<Admission>))
    requires ValidLimit(lim) && Consistent(s)
    ensures Consistent(r.0)
  {
    match ev
    case Ping(alive) => (s.(manager := CheckHealth(s.manager, alive)), None)
    case Other(missing, _) =>
      (if missing && s.manager.hasPrimary && !s.manager.degraded then s.(manager := RecordFailure(s.manager)) else s, None)
    case Request(check, clk) =>
      var (looked, count) := Lookup(s, clk);
      var hit := count.Some? && count.value >= lim.count;
      if check && !hit then
        var w := looked.manager.current;
        var counted := Increment(looked, lim, clk);
        (counted, Some(Admission(w, HitOf(counted.CellOf(w).value, clk.u1, lim.time))))
      else
        (looked, None)
  }

  /** The two stores, and a manager that is degraded exactly when it uses the fallback. */
  predicate Consistent(s: State) {
    CellOk(s.primary) && CellOk(s.fallback) && (s.manager.hasPrimary ==> (s.manager.degraded <==> s.manager.current == Fallback))
  }

  predicate Timed(now: int, evs: seq<Event>)
    decreases evs
  {
    evs == [] || (if evs[0].Ping? then Timed(now, evs[1..]) else evs[0].clk.From(now) && Timed(evs[0].clk.u4, evs[1..]))
  }

  function Run(s: State, lim: Limit, evs: seq<Event>): seq<Admission>
    requires ValidLimit(lim) && Consistent(s)
    decreases evs
  {
    if evs == [] then [] else
      var (next, admitted) := Step(s, lim, evs[0]);
      (if admitted.Some? then [admitted.value] else []) + Run(next, lim, evs[1..])
  }

  /** The bumps in store `w`. */
  function Bumps(run: seq<Admission>, w: Which): seq<Hit> {
    if run == [] then [] else (if run[0].store == w then [run[0].hit] else []) + Bumps(run[1..], w)
  }

  function Instants(run: seq<Admission>): (ts: seq<int>)
    ensures |ts| == |run| && forall i :: 0 <= i < |run| ==> ts[i] == run[i].hit.time
  {
    seq(|run|, i requires 0 <= i < |run| => run[i].hit.time)
  }

  /** A lookup answers from the store that the following increment goes to. */
  lemma LookupReadsCurrent(s: State, lim: Limit, clk: Clock)
    requires Consistent(s)
    ensures var (looked, count) := Lookup(s, clk);
            && Consistent(looked)
            && var c := looked.CellOf(looked.manager.current);
               count == if c.Some? then Some(c.value.value) else None
  {
    hide Wrap32;
  }

  /** A lookup does no more to either cell than drop it when expired. */
  lemma LookupDrops(s: State, clk: Clock, w: Which)
    requires Consistent(s) && clk.b1 <= clk.b2
    ensures var c := Lookup(s, clk).0.CellOf(w);
            c == s.CellOf(w) || c == Drop(s.CellOf(w), clk.b1) || c == Drop(s.CellOf(w), clk.b2)
  {
    hide Wrap32, Drop;
  }

  lemma StepTracks(x: Hit, w: Which, s: State, now: int, lim: Limit, ev: Event)
    requires ValidLimit(lim) && Consistent(s) && Tracks(x, s.CellOf(w), now, lim.time) && (ev.Ping? || ev.clk.From(now))
    ensures var (next, admitted) := Step(s, lim, ev);
            && Tracks(x, next.CellOf(w), if ev.Ping? then now else ev.clk.u4, lim.time)
            && (admitted.Some? && admitted.value.store == w ==> After(x, admitted.value.hit, lim.time))
  {
    hide Wrap32, Lookup;
    if ev.Request? {
      var clk := ev.clk;
      var looked := Lookup(s, clk).0;
      LookupDrops(s, clk, w);
      LookupReadsCurrent(s, lim, clk);
      TracksDrop(x, s.CellOf(w), now, lim.time, clk.b1);
      TracksDrop(x, s.CellOf(w), now, lim.time, clk.b2);
      if Step(s, lim, ev).1.Some? && looked.manager.current == w {
        TracksBump(x, looked.CellOf(w), clk.b2, lim.time, clk.u1, clk.u2);
      }
    }
  }

  lemma StepSound(s: State, now: int, lim: Limit, ev: Event)
    requires ValidLimit(lim) && Consistent(s) && ev.Request? && ev.clk.From(now)
    ensures var (next, admitted) := Step(s, lim, ev);
            admitted.Some? ==>
              var Admission(w, y) := admitted.value;
              Sound(y, lim.time, lim.count) && Tracks(y, next.CellOf(w), ev.clk.u4, lim.time)
  {
    hide Wrap32, Lookup;
    LookupReadsCurrent(s, lim, ev.clk);
    var looked := Lookup(s, ev.clk).0;
    if Step(s, lim, ev).1.Some? {
      BumpSound(looked.CellOf(looked.manager.current), lim.time, ev.clk.u1, ev.clk.u2);
    }
  }

  function Later(now: int, ev: Event): int {
    if ev.Ping? then now else ev.clk.u4
  }

  lemma BumpsConcat(a: Option<Admission>, rest: seq<Admission>, w: Which)
    ensures Bumps((if a.Some? then [a.value] else []) + rest, w)
         == (if a.Some? && a.value.store == w then [a.value.hit] else []) + Bumps(rest, w)
  {
    if a.Some? {
      assert ([a.value] + rest)[1..] == rest;
    } else {
      assert [] + rest == rest;
    }
  }

  lemma {:induction false} BumpsAfter(x: Hit, w: Which, s: State, now: int, lim: Limit, evs: seq<Event>)
    requires ValidLimit(lim) && Consistent(s) && Tracks(x, s.CellOf(w), now, lim.time) && Timed(now, evs)
    ensures forall y :: y in Bumps(Run(s, lim, evs), w) ==> After(x, y, lim.time)
    decreases evs
  {
    hide Step, Tracks, After, Consistent;
    if evs != [] {
      var (next, admitted) := Step(s, lim, evs[0]);
      StepTracks(x, w, s, now, lim, evs[0]);
      BumpsAfter(x, w, next, Later(now, evs[0]), lim, evs[1..]);
      BumpsConcat(admitted, Run(next, lim, evs[1..]), w);
    }
  }

  /**
   * Every event is one of the manager: a health check, an operation on another key that both stores
   * answer alike, or the lookup of a request, whose increment then changes nothing in the manager.
   */
  lemma StepIsManaged(s: State, lim: Limit, ev: Event)
    requires ValidLimit(lim) && Consistent(s)
    ensures var m := Step(s, lim, ev).0.manager;
            match ev
            case Ping(alive) => m == CheckHealth(s.manager, alive)
            case Other(missing, _) =>
              var answer := if missing then Err(KeyNotFound) else Ok(0);
              m == Execute(s.manager, Answers(answer, answer)).0
            case Request(_, clk) =>
              m == Execute(s.manager, Answers(Read(s.primary, clk.b1), Read(s.fallback, if s.manager.current == Fallback then clk.b1 else clk.b2))).0
  {
    hide Wrap32, Lookup, Read;
    if ev.Request? {
      LookupIsExecute(s, ev.clk);
    }
  }

  lemma OnlyRequestsAdmit(s: State, lim: Limit, ev: Event)
    requires ValidLimit(lim) && Consistent(s) && Step(s, lim, ev).1.Some?
    ensures ev.Request?
  {
  }

  /** Over any number of switches each store counts like a fixed-window limiter of its own. */
  lemma {:induction false} BumpsAreLog(w: Which, s: State, now: int, lim: Limit, evs: seq<Event>)
    requires ValidLimit(lim) && Consistent(s) && Timed(now, evs)
    ensures IsLog(Bumps(Run(s, lim, evs), w), lim.time, lim.count)
    decreases evs
  {
    hide Step, Tracks, After, Sound, Consistent;
    if evs != [] {
      var (next, admitted) := Step(s, lim, evs[0]);
      BumpsAreLog(w, next, Later(now, evs[0]), lim, evs[1..]);
      BumpsConcat(admitted, Run(next, lim, evs[1..]), w);
      if admitted.Some? && admitted.value.store == w {
        OnlyRequestsAdmit(s, lim, evs[0]);
        StepSound(s, now, lim, evs[0]);
        BumpsAfter(admitted.value.hit, w, next, evs[0].clk.u4, lim, evs[1..]);
      }
    }
  }

  lemma {:induction false} CountSplits(run: seq<Admission>, lo: int, len: int)
    ensures CountIn(Instants(run), lo, len)
         == CountIn(Times(Bumps(run, Primary)), lo, len) + CountIn(Times(Bumps(run, Fallback)), lo, len)
  {
    if run != [] {
      CountSplits(run[1..], lo, len);
      assert Instants(run)[1..] == Instants(run[1..]);
      var w := run[0].store;
      var rest := Bumps(run[1..], w);
      assert Times([run[0].hit] + rest)[1..] == Times(rest);
      assert w == Primary ==> Bumps(run, Fallback) == Bumps(run[1..], Fallback);
      assert w == Fallback ==> Bumps(run, Primary) == Bumps(run[1..], Primary);
    }
  }

  /**
   * Over any number of degrade and recover switches a count key admits at most `4 * count - 2`
   * requests in any closed interval of its window: the bound of one store, twice.
   */
  lemma FailoverBound(hasPrimary: bool, option: int, now: int, lim: Limit, evs: seq<Event>)
    requires ValidLimit(lim) && Timed(now, evs)
    ensures AtMost(Instants(Run(State(New(hasPrimary, option), None, None), lim, evs)), 4 * lim.count - 2, lim.time)
  {
    hide Step, Bumps, Run;
    var s := State(New(hasPrimary, option), None, None);
    var run := Run(s, lim, evs);
    var ps, fs := Bumps(run, Primary), Bumps(run, Fallback);
    BumpsAreLog(Primary, s, now, lim, evs);
    BumpsAreLog(Fallback, s, now, lim, evs);
    WindowSpread(ps, lim.time, lim.count);
    WindowSpread(fs, lim.time, lim.count);
    forall lo ensures CountIn(Instants(run), lo, lim.time) <= 4 * lim.count - 2 {
      CountSplits(run, lo, lim.time);
      SpreadCounts(Times(ps), 2 * lim.count - 1, lim.time, lo);
      SpreadCounts(Times(fs), 2 * lim.count - 1, lim.time, lo);
    }
  }

  // With a tolerance of one fault the primary never counts: its missing key degrades the manager at once.

  /** The primary holds nothing, and its next error trips the switch. */
  predicate Intolerant(s: State) {
    && Consistent(s) && s.manager.hasPrimary && s.manager.maxFailures <= 1
    && s.primary == None && (!s.manager.degraded ==> s.manager.failures == 0)
  }

  lemma IntolerantStep(s: State, lim: Limit, ev: Event)
    requires ValidLimit(lim) && Intolerant(s)
    ensures var (next, admitted) := Step(s, lim, ev);
            Intolerant(next) && (admitted.Some? ==> admitted.value.store == Fallback)
  {
    hide Wrap32;
    assert Wrap32(1) == 1;
  }

  lemma {:induction false} OnlyFallbackCounts(s: State, lim: Limit, evs: seq<Event>)
    requires ValidLimit(lim) && Consistent(s) && (Intolerant(s) || (!s.manager.hasPrimary && s.manager.current == Fallback))
    ensures Bumps(Run(s, lim, evs), Primary) == []
    decreases evs
  {
    hide Step, Intolerant, Consistent;
    if evs != [] {
      var (next, admitted) := Step(s, lim, evs[0]);
      if Intolerant(s) {
        IntolerantStep(s, lim, evs[0]);
      } else {
        NoPrimaryStep(s, lim, evs[0]);
      }
      OnlyFallbackCounts(next, lim, evs[1..]);
      BumpsConcat(admitted, Run(next, lim, evs[1..]), Primary);
    }
  }

  lemma NoPrimaryStep(s: State, lim: Limit, ev: Event)
    requires ValidLimit(lim) && Consistent(s) && !s.manager.hasPrimary && s.manager.current == Fallback
    ensures var (next, admitted) := Step(s, lim, ev);
            next.manager == s.manager && (admitted.Some? ==> admitted.value.store == Fallback)
  {
  }

  /** What one or two stores admit in an interval of the window's length. */
  function Bound(hasPrimary: bool, option: int, lim: Limit): (n: int)
    requires ValidLimit(lim)
    ensures n >= 1
  {
    if hasPrimary && MaxFailures(option) >= 2 then 4 * lim.count - 2 else 2 * lim.count - 1
  }

  function Start(hasPrimary: bool, option: int): State {
    State(New(hasPrimary, option), None, None)
  }

  lemma FailoverSafe(hasPrimary: bool, option: int, now: int, lim: Limit, evs: seq<Event>)
    requires ValidLimit(lim) && Timed(now, evs)
    ensures AtMost(Instants(Run(Start(hasPrimary, option), lim, evs)), Bound(hasPrimary, option, lim), lim.time)
  {
    hide Step, Bumps, Run, AtMost, MaxFailures, Wrap32;
    if hasPrimary && MaxFailures(option) >= 2 {
      FailoverBound(hasPrimary, option, now, lim, evs);
    } else {
      var s := Start(hasPrimary, option);
      var run := Run(s, lim, evs);
      var fs := Bumps(run, Fallback);
      OnlyFallbackCounts(s, lim, evs);
      BumpsAreLog(Fallback, s, now, lim, evs);
      WindowSpread(fs, lim.time, lim.count);
      forall lo ensures CountIn(Instants(run), lo, lim.time) <= 2 * lim.count - 1 {
        CountSplits(run, lo, lim.time);
        SpreadCounts(Times(fs), 2 * lim.count - 1, lim.time, lo);
      }
      AtMostIntro(Instants(run), 2 * lim.count - 1, lim.time);
    }
  }

  lemma AtMostIntro(ts: seq<int>, n: nat, len: int)
    requires forall lo :: CountIn(ts, lo, len) <= n
    ensures AtMost(ts, n, len)
  {
  }
}
