/**
 * Count rules that share a key: exactly when a rule's bound still holds, for any rules of which no
 * accumulate rule keeps a counter under that key.
 */
module CountKeys {
  import opened AlgorithmSpec
  import opened EngineRuns
  import opened EngineSpec
  import opened GoTypes
  import opened Intervals
  import opened Keys
  import opened Limiters
  import opened Memory
  import opened Transparency
  import opened Windows
  import FixedWindow
  import FreqKeys

  /** The request selects the count rule, and reaches `key` under it. */
  ghost predicate Reaches(rs: RuleSet, accepts: Accepts, rule: Rule, req: Request, key: string) {
    Selected(rs, req, accepts) == Some(Limited(rule)) && rule.algorithm.Count? && KeyFor(rule, req) == key
  }

  /** No request keeps a counter of an accumulate rule under `key`. */
  ghost predicate NoAccumulate(rs: RuleSet, accepts: Accepts, key: string) {
    forall rule, req :: Selected(rs, req, accepts) == Some(Limited(rule)) && rule.algorithm.Base?
      ==> TotalKey(KeyFor(rule, req)) != key && SecondaryKey(KeyFor(rule, req)) != key
  }

  // The bumps of one rule, in windows that others may open too

  /**
   * Every bump of the rule still to come after `now` will follow `x`. A rule with a count of one opens
   * all its windows itself, so that the windows of other rules do not matter to it (`once`).
   */
  predicate Kept(x: Hit, c: Cell, now: int, len: int, once: bool) {
    && x.time <= now
    && if c.Some? && c.value.expires == At(x.start + len) then x.nth <= c.value.value
       else now > x.start + len && (once || c.None? || (c.value.expires.At? && c.value.expires.time - len >= x.start + len))
  }

  lemma KeptDrop(x: Hit, c: Cell, now: int, len: int, once: bool, t: int)
    requires Kept(x, c, now, len, once) && now <= t
    ensures Kept(x, Drop(c, t), t, len, once)
  {
  }

  /** What bumping and looking demand of a cell: windows are positive, and below `limit` nothing wraps. */
  lemma BumpValue(c: Cell, ttl: int, t: int, stamp: int)
    requires CellOk(c) && ttl > 0 && Value(Drop(c, t)) < MAX_INT64
    ensures var e := Add(c, 1, ttl, t, stamp);
            && CellOk(Some(e)) && e.value == Value(Drop(c, t)) + 1
            && e.expires == if Drop(c, t).Some? then Drop(c, t).value.expires else At(stamp + ttl)
  {
  }

  /** A bump by any rule, whose windows are at most one instant shorter. */
  lemma KeptBump(x: Hit, c: Cell, now: int, len: int, once: bool, ttl: int, t: int, stamp: int)
    requires Kept(x, c, now, len, once) && now <= t <= stamp && len > 0 && ttl > 0 && (once || ttl >= len - 1)
    requires Value(Drop(c, t)) < MAX_INT64 && CellOk(c)
    ensures Kept(x, Some(Add(c, 1, ttl, t, stamp)), stamp, len, once)
  {
    hide Add;
    BumpValue(c, ttl, t, stamp);
    KeptDrop(x, c, now, len, once, t);
  }

  /** A bump by the rule itself follows `x`, is sound, and is kept in turn. */
  lemma OwnBump(x: Hit, c: Cell, now: int, len: int, once: bool, t: int, stamp: int)
    requires Kept(x, c, now, len, once) && now <= t <= stamp && len > 0
    requires Value(Drop(c, t)) < MAX_INT64 && CellOk(c) && (once ==> Value(Drop(c, t)) < 1)
    ensures Follows(x, HitOf(Add(c, 1, len, t, stamp), t, len), len)
  {
    hide Add;
    BumpValue(c, len, t, stamp);
    KeptDrop(x, c, now, len, once, t);
  }

  lemma OwnSound(c: Cell, len: int, once: bool, t: int, stamp: int)
    requires CellOk(c) && t <= stamp && len > 0 && Value(Drop(c, t)) < MAX_INT64
    ensures var e := Add(c, 1, len, t, stamp);
            var y := HitOf(e, t, len);
            Sound(y, len, e.value) && Kept(y, Some(e), stamp, len, once)
  {
    BumpSound(c, len, t, stamp);
  }

  // One request to the key, under the rule itself (`own`) or another count rule

  /** What a request leaves of the cell, and the bump when the rule itself admits it. */
  function Step(c: Cell, lim: Limit, lim': Limit, own: bool, ev: Event): (r: (Cell, Option<Hit>))
    requires ValidLimit(lim) && ValidLimit(lim') && (own ==> lim' == lim) && CellOk(c)
    ensures CellOk(r.0)
  {
    var (next, admitted) := FixedWindow.Step(c, lim', ev);
    (next, if own then admitted else None)
  }

  lemma StepKept(x: Hit, c: Cell, now: int, lim: Limit, lim': Limit, own: bool, ev: Event)
    requires ValidLimit(lim) && ValidLimit(lim') && (own ==> lim' == lim) && CellOk(c) && ev.clk.From(now)
    requires Kept(x, c, now, lim.time, lim.count == 1) && (lim.count == 1 || lim'.time >= lim.time - 1)
    ensures var (next, bump) := Step(c, lim, lim', own, ev);
            && Kept(x, next, ev.clk.u4, lim.time, lim.count == 1)
            && (bump.Some? ==> Follows(x, bump.value, lim.time))
  {
    hide Kept, Follows, Add, Drop;
    var clk, once := ev.clk, lim.count == 1;
    KeptDrop(x, c, now, lim.time, once, clk.b1);
    DropOk(c, clk.b1);
    var (browsed, hit) := CountBrowse(c, lim', clk);
    if ev.check && !hit {
      DropDrop(c, clk.b1, clk.u1);
      KeptBump(x, browsed, clk.b1, lim.time, once, lim'.time, clk.u1, clk.u2);
      KeptLater(x, CountUpdate(browsed, lim', clk), clk.u2, lim.time, once, clk.u4);
      if own {
        OwnBump(x, browsed, clk.b1, lim.time, once, clk.u1, clk.u2);
      }
    } else {
      KeptLater(x, browsed, clk.b1, lim.time, once, clk.u4);
    }
  }

  lemma DropOk(c: Cell, t: int)
    requires CellOk(c)
    ensures CellOk(Drop(c, t)) && Value(Drop(c, t)) >= 0
  {
  }

  /** A later look finds the same value or none. */
  lemma DropDrop(c: Cell, t: int, t': int)
    requires CellOk(c) && t <= t'
    ensures 0 <= Value(Drop(Drop(c, t), t')) <= Value(Drop(c, t))
  {
  }

  lemma KeptLater(x: Hit, c: Cell, now: int, len: int, once: bool, t: int)
    requires Kept(x, c, now, len, once) && now <= t
    ensures Kept(x, c, t, len, once)
  {
  }

  lemma StepSound(c: Cell, now: int, lim: Limit, ev: Event)
    requires ValidLimit(lim) && CellOk(c) && ev.clk.From(now)
    ensures var (next, bump) := Step(c, lim, lim, true, ev);
            bump.Some? ==> Sound(bump.value, lim.time, lim.count) && Kept(bump.value, next, ev.clk.u4, lim.time, lim.count == 1)
  {
    hide Kept, Sound, Drop;
    var clk := ev.clk;
    DropOk(c, clk.b1);
    var (browsed, hit) := CountBrowse(c, lim, clk);
    if ev.check && !hit {
      DropDrop(c, clk.b1, clk.u1);
      BumpValue(browsed, lim.time, clk.u1, clk.u2);
      OwnSound(browsed, lim.time, lim.count == 1, clk.u1, clk.u2);
      var e := Add(browsed, 1, lim.time, clk.u1, clk.u2);
      SoundBelow(HitOf(e, clk.u1, lim.time), lim.time, e.value, lim.count);
      KeptLater(HitOf(e, clk.u1, lim.time), Some(e), clk.u2, lim.time, lim.count == 1, clk.u4);
    }
  }

  lemma SoundBelow(y: Hit, len: int, cap: int, cap': int)
    requires Sound(y, len, cap) && cap <= cap'
    ensures Sound(y, len, cap')
  {
  }

  // Whole runs of the engine

  lemma CellsKept(a: Algorithm, m: Mem, key: string, lim: Limit, clk: Clock, other: string)
    requires a.Leak? || !Owns(a, key, other)
    ensures Browse(a, m, key, lim, clk).0.CellAt(other) == m.CellAt(other) && Browse(a, m, key, lim, clk).0.closed == m.closed
    ensures Update(a, m, key, lim, clk).0.CellAt(other) == m.CellAt(other) && Update(a, m, key, lim, clk).0.closed == m.closed
  {
    if a.Leak? {
    } else {
      hide Browse, Update, Owns;
      BrowseFrame(a, m, key, lim, clk, other);
      UpdateFrame(a, m, key, lim, clk, other);
    }
  }

  /** A request that does not reach the key under a count rule leaves its cell alone. */
  lemma OtherRequest(rs: RuleSet, accepts: Accepts, m: Mem, c: Call, key: string)
    requires NoAccumulate(rs, accepts, key)
    requires forall rule :: !Reaches(rs, accepts, rule, c.req, key)
    ensures var next := Serve(Selected(rs, c.req, accepts), m, c.req, c.clk, c.check).0;
            next.CellAt(key) == m.CellAt(key) && next.closed == m.closed
  {
    hide Browse, Update, KeyFor, Selected;
    var s := Selected(rs, c.req, accepts);
    if s.Some? && s.value.Limited? {
      var rule := s.value.rule;
      assert !Reaches(rs, accepts, rule, c.req, key);
      assert rule.algorithm.Leak? || !Owns(rule.algorithm, KeyFor(rule, c.req), key);
      CellsKept(rule.algorithm, m, KeyFor(rule, c.req), rule.limit, c.clk, key);
      CellsKept(rule.algorithm, Browse(rule.algorithm, m, KeyFor(rule, c.req), rule.limit, c.clk).0,
                KeyFor(rule, c.req), rule.limit, c.clk, key);
    }
  }

  lemma ReachesValid(rs: RuleSet, accepts: Accepts, rule: Rule, req: Request, key: string)
    requires FreqKeys.ValidRules(rs) && Reaches(rs, accepts, rule, req, key)
    ensures ValidLimit(rule.limit)
  {
    hide Selected, RateRules, KeyFor, ValidLimit;
    SelectedIsRateRule(rs, req, accepts);
  }

  /** No count rule that reaches the key has a window shorter by more than an instant, unless the rule's count is one. */
  ghost predicate NoShorter(rs: RuleSet, accepts: Accepts, rule: Rule, key: string) {
    || rule.limit.count == 1
    || forall rule', req' :: Reaches(rs, accepts, rule', req', key) ==> rule'.limit.time >= rule.limit.time - 1
  }

  /** One call: the next cell, and the bump when the rule itself admits it. */
  lemma CallSteps(rs: RuleSet, accepts: Accepts, rule: Rule, key: string, m: Mem, c: Call) returns (rule': Option<Rule>)
    requires FreqKeys.ValidRules(rs) && NoAccumulate(rs, accepts, key) && rule.algorithm.Count? && ValidLimit(rule.limit)
    requires !m.closed && CellOk(m.CellAt(key))
    ensures var (next, answer) := Serve(Selected(rs, c.req, accepts), m, c.req, c.clk, c.check);
            && !next.closed
            && (rule'.None? ==> next.CellAt(key) == m.CellAt(key) && !Hits(rs, accepts, rule, key, c.req))
            && (rule'.Some? ==>
                  && Reaches(rs, accepts, rule'.value, c.req, key) && ValidLimit(rule'.value.limit)
                  && var own := rule'.value == rule;
                     var (cell, bump) := Step(m.CellAt(key), rule.limit, rule'.value.limit, own, Event(c.check, c.clk));
                     && next.CellAt(key) == cell && (own <==> Hits(rs, accepts, rule, key, c.req))
                     && (own ==> (c.check && answer == Ok(ALLOWED) <==> bump.Some?))
                     && (bump.Some? ==> bump.value.time == c.clk.u1))
  {
    hide KeyFor, Selected, Serve, FixedWindow.Step, ValidLimit;
    var s := Selected(rs, c.req, accepts);
    if s.Some? && s.value.Limited? && s.value.rule.algorithm.Count? && KeyFor(s.value.rule, c.req) == key {
      rule' := Some(s.value.rule);
      assert Reaches(rs, accepts, s.value.rule, c.req, key);
      ReachesValid(rs, accepts, s.value.rule, c.req, key);
      CountCall(m, s.value.rule, c.req, c);
    } else {
      rule' := None;
      OtherRequest(rs, accepts, m, c, key);
    }
  }

  ghost predicate AllFollow(x: Hit, log: seq<Hit>, len: int) {
    forall i :: 0 <= i < |log| ==> Follows(x, log[i], len)
  }

  /** The rule's admissions under the key are bumps in windows that others may open too. */
  lemma {:induction false} RunLog(rs: RuleSet, accepts: Accepts, rule: Rule, key: string, m: Mem, now: int, calls: seq<Call>)
    returns (log: seq<Hit>)
    requires FreqKeys.ValidRules(rs) && NoAccumulate(rs, accepts, key) && NoShorter(rs, accepts, rule, key)
    requires rule.algorithm.Count? && ValidLimit(rule.limit) && !m.closed && CellOk(m.CellAt(key)) && TimedCalls(now, calls)
    ensures Times(log) == Admissions(rs, accepts, rule, key, m, calls) && IsShared(log, rule.limit.time, rule.limit.count)
    ensures forall x :: Kept(x, m.CellAt(key), now, rule.limit.time, rule.limit.count == 1) ==> AllFollow(x, log, rule.limit.time)
    decreases calls
  {
    hide FreqKeys.ValidRules, NoAccumulate, Selected, Serve, Hits, Step, Kept, Follows, Sound, CellOk, ValidLimit, Reaches;
    var lim, once := rule.limit, rule.limit.count == 1;
    if calls == [] {
      log := [];
    } else {
      var c := calls[0];
      var next := Serve(Selected(rs, c.req, accepts), m, c.req, c.clk, c.check).0;
      var rule' := CallSteps(rs, accepts, rule, key, m, c);
      if rule'.None? {
        var later := RunLog(rs, accepts, rule, key, next, c.clk.u4, calls[1..]);
        log := later;
        forall x | Kept(x, m.CellAt(key), now, lim.time, once) ensures AllFollow(x, log, lim.time) {
          KeptLater(x, m.CellAt(key), now, lim.time, once, c.clk.u4);
        }
      } else {
        log := ReachingCall(rs, accepts, rule, key, m, now, calls, rule'.value);
      }
    }
  }

  /** The step of the induction for a call that reaches the key. */
  lemma {:induction false} ReachingCall(rs: RuleSet, accepts: Accepts, rule: Rule, key: string, m: Mem, now: int, calls: seq<Call>, rule': Rule)
    returns (log: seq<Hit>)
    requires FreqKeys.ValidRules(rs) && NoAccumulate(rs, accepts, key) && NoShorter(rs, accepts, rule, key)
    requires rule.algorithm.Count? && ValidLimit(rule.limit) && !m.closed && CellOk(m.CellAt(key)) && TimedCalls(now, calls)
    requires calls != [] && Reaches(rs, accepts, rule', calls[0].req, key) && ValidLimit(rule'.limit)
    requires var c := calls[0];
             var (next, answer) := Serve(Selected(rs, c.req, accepts), m, c.req, c.clk, c.check);
             var own := rule' == rule;
             var (cell, bump) := Step(m.CellAt(key), rule.limit, rule'.limit, own, Event(c.check, c.clk));
             && !next.closed && next.CellAt(key) == cell && (own <==> Hits(rs, accepts, rule, key, c.req))
             && (own ==> (c.check && answer == Ok(ALLOWED) <==> bump.Some?))
             && (bump.Some? ==> bump.value.time == c.clk.u1)
    ensures Times(log) == Admissions(rs, accepts, rule, key, m, calls) && IsShared(log, rule.limit.time, rule.limit.count)
    ensures forall x :: Kept(x, m.CellAt(key), now, rule.limit.time, rule.limit.count == 1) ==> AllFollow(x, log, rule.limit.time)
    decreases calls, 0
  {
    hide FreqKeys.ValidRules, NoAccumulate, Selected, Serve, Hits, Kept, Follows, Sound, CellOk, ValidLimit, Reaches, FixedWindow.Step;
    var c, lim, once := calls[0], rule.limit, rule.limit.count == 1;
    var own := rule' == rule;
    var ev := Event(c.check, c.clk);
    var next := Serve(Selected(rs, c.req, accepts), m, c.req, c.clk, c.check).0;
    var bump := Step(m.CellAt(key), lim, rule'.limit, own, ev).1;
    var later := RunLog(rs, accepts, rule, key, next, c.clk.u4, calls[1..]);
    log := (if bump.Some? then [bump.value] else []) + later;
    assert lim.count == 1 || rule'.limit.time >= lim.time - 1;
    forall x | Kept(x, m.CellAt(key), now, lim.time, once) ensures AllFollow(x, log, lim.time) {
      StepKept(x, m.CellAt(key), now, lim, rule'.limit, own, ev);
      assert AllFollow(x, later, lim.time);
    }
    if bump.Some? {
      StepSound(m.CellAt(key), now, lim, ev);
      assert AllFollow(bump.value, later, lim.time);
      TimesConcat([bump.value], later);
    } else {
      assert log == later;
    }
  }

  /** No interval of the rule's window holds more than the bound, in any run of the engine. */
  ghost predicate Bounded(rs: RuleSet, accepts: Accepts, rule: Rule, key: string)
    requires ValidLimit(rule.limit)
  {
    forall now, calls :: TimedCalls(now, calls)
      ==> AtMost(Admissions(rs, accepts, rule, key, EMPTY, calls), 2 * rule.limit.count - 1, rule.limit.time)
  }

  lemma NoShorterBounded(rs: RuleSet, accepts: Accepts, rule: Rule, key: string, now: int, calls: seq<Call>)
    requires FreqKeys.ValidRules(rs) && NoAccumulate(rs, accepts, key) && NoShorter(rs, accepts, rule, key)
    requires rule.algorithm.Count? && ValidLimit(rule.limit) && TimedCalls(now, calls)
    ensures AtMost(Admissions(rs, accepts, rule, key, EMPTY, calls), 2 * rule.limit.count - 1, rule.limit.time)
  {
    hide FreqKeys.ValidRules, NoAccumulate, NoShorter, Admissions, TimedCalls;
    assert EMPTY.CellAt(key) == None;
    var log := RunLog(rs, accepts, rule, key, EMPTY, now, calls);
    SharedSpread(log, rule.limit.time, rule.limit.count);
    SpreadIffAtMost(Times(log), 2 * rule.limit.count - 1, rule.limit.time);
  }

  // A run that overruns the bound: the other rule opens two short windows, the rule itself fills the
  // first at its last live instant, the second at once, and then a third of its own.

  function One(req: Request, t: int): Call {
    Call(req, true, false, Instant(t))
  }

  function Burst(n: nat, req: Request, t: int): seq<Call> {
    if n == 0 then [] else [One(req, t)] + Burst(n - 1, req, t)
  }

  function Overrun(n: nat, req: Request, req': Request, t: int): seq<Call>
    requires n >= 1
  {
    [One(req', 0)] + (Burst(n - 1, req, t) + ([One(req', t + 1)] + (Burst(n - 1, req, t + 1)
    + ([One(req, 2 * t + 2)] + (Burst(n - 1, req, 2 * t + 2) + [])))))
  }

  lemma OneTimed(now: int, req: Request, t: int, rest: seq<Call>)
    requires now <= t && TimedCalls(t, rest)
    ensures TimedCalls(now, [One(req, t)] + rest)
  {
    assert ([One(req, t)] + rest)[1..] == rest;
  }

  lemma {:induction false} BurstTimed(now: int, n: nat, req: Request, t: int, rest: seq<Call>)
    requires now <= t && TimedCalls(t, rest)
    ensures TimedCalls(now, Burst(n, req, t) + rest)
    decreases n
  {
    if n == 0 {
      assert Burst(n, req, t) + rest == rest;
      LaterTimed(now, t, rest);
    } else {
      BurstTimed(t, n - 1, req, t, rest);
      assert (Burst(n, req, t) + rest)[1..] == Burst(n - 1, req, t) + rest;
    }
  }

  lemma LaterTimed(now: int, t: int, calls: seq<Call>)
    requires now <= t && TimedCalls(t, calls)
    ensures TimedCalls(now, calls)
  {
  }

  lemma OverrunTimed(n: nat, req: Request, req': Request, t: nat)
    requires n >= 1
    ensures TimedCalls(0, Overrun(n, req, req', t))
  {
    hide Burst, One;
    var last := 2 * t + 2;
    assert TimedCalls(last, []);
    BurstTimed(last, n - 1, req, last, []);
    var c3 := Burst(n - 1, req, last) + [];
    OneTimed(t + 1, req, last, c3);
    BurstTimed(t + 1, n - 1, req, t + 1, [One(req, last)] + c3);
    var c2 := Burst(n - 1, req, t + 1) + ([One(req, last)] + c3);
    OneTimed(t, req', t + 1, c2);
    BurstTimed(0, n - 1, req, t, [One(req', t + 1)] + c2);
    OneTimed(0, req', 0, Burst(n - 1, req, t) + ([One(req', t + 1)] + c2));
  }

  /** A check under a rule that reaches the key, of a cell it does not find full. */
  lemma CheckRun(rs: RuleSet, accepts: Accepts, rule: Rule, key: string, m: Mem, rule': Rule, req': Request, t: int, rest: seq<Call>)
    returns (m': Mem)
    requires Reaches(rs, accepts, rule', req', key) && ValidLimit(rule'.limit) && rule.algorithm.Count?
    requires !m.closed && CellOk(m.CellAt(key)) && Value(Drop(m.CellAt(key), t)) < rule'.limit.count
    ensures !m'.closed && m'.CellAt(key) == Some(Add(m.CellAt(key), 1, rule'.limit.time, t, t)) && CellOk(m'.CellAt(key))
    ensures Admissions(rs, accepts, rule, key, m, [One(req', t)] + rest)
         == (if rule' == rule then [t] else []) + Admissions(rs, accepts, rule, key, m', rest)
  {
    hide KeyFor, Selected, Serve, FixedWindow.Step;
    var c := One(req', t);
    assert ([c] + rest)[0] == c && ([c] + rest)[1..] == rest;
    CountCall(m, rule', req', c);
    m' := Serve(Some(Limited(rule')), m, req', c.clk, true).0;
    CheckStep(m.CellAt(key), rule'.limit, t);
    assert Hits(rs, accepts, rule, key, req') <==> rule' == rule;
  }

  lemma CheckStep(c: Cell, lim: Limit, t: int)
    requires ValidLimit(lim) && CellOk(c) && Value(Drop(c, t)) < lim.count
    ensures var (next, admitted) := FixedWindow.Step(c, lim, Event(true, Instant(t)));
            admitted.Some? && admitted.value.time == t && next == Some(Add(c, 1, lim.time, t, t)) && CellOk(next)
  {
  }

  lemma {:induction false} BurstRun(rs: RuleSet, accepts: Accepts, rule: Rule, key: string, req: Request, m: Mem, e: Counter, n: nat, t: int, rest: seq<Call>)
    returns (m': Mem)
    requires Reaches(rs, accepts, rule, req, key) && ValidLimit(rule.limit) && rule.algorithm.Count?
    requires !m.closed && m.CellAt(key) == Some(e) && CellOk(Some(e)) && t <= e.expires.time && e.value + n <= rule.limit.count
    ensures !m'.closed && m'.CellAt(key) == Some(e.(value := e.value + n)) && CellOk(m'.CellAt(key))
    ensures Admissions(rs, accepts, rule, key, m, Burst(n, req, t) + rest)
         == Copies(n, t) + Admissions(rs, accepts, rule, key, m', rest)
    decreases n
  {
    hide Reaches, Admissions, One;
    if n == 0 {
      assert Burst(n, req, t) + rest == rest;
      m' := m;
    } else {
      assert Burst(n, req, t) + rest == [One(req, t)] + (Burst(n - 1, req, t) + rest);
      var next := CheckRun(rs, accepts, rule, key, m, rule, req, t, Burst(n - 1, req, t) + rest);
      m' := BurstRun(rs, accepts, rule, key, req, next, e.(value := e.value + 1), n - 1, t, rest);
      assert Copies(n, t) == [t] + Copies(n - 1, t);
    }
  }

  lemma OverrunRun(rs: RuleSet, accepts: Accepts, rule: Rule, key: string, req: Request, rule': Rule, req': Request)
    requires Reaches(rs, accepts, rule, req, key) && Reaches(rs, accepts, rule', req', key) && rule' != rule
    requires ValidLimit(rule.limit) && ValidLimit(rule'.limit) && rule.algorithm.Count? && rule.limit.count >= 2
    ensures var (n, t) := (rule.limit.count, rule'.limit.time);
            Admissions(rs, accepts, rule, key, EMPTY, Overrun(n, req, req', t))
            == Copies(n - 1, t) + (Copies(n - 1, t + 1) + ([2 * t + 2] + Copies(n - 1, 2 * t + 2)))
  {
    hide Reaches, Admissions, One, Burst, Copies;
    var n, t, len := rule.limit.count, rule'.limit.time, rule.limit.time;
    var last := 2 * t + 2;
    var c3 := Burst(n - 1, req, last) + [];
    var c2 := Burst(n - 1, req, t + 1) + ([One(req, last)] + c3);
    assert EMPTY.CellAt(key) == None;
    var m := CheckRun(rs, accepts, rule, key, EMPTY, rule', req', 0, Burst(n - 1, req, t) + ([One(req', t + 1)] + c2));
    m := BurstRun(rs, accepts, rule, key, req, m, Counter(1, At(t)), n - 1, t, [One(req', t + 1)] + c2);
    m := CheckRun(rs, accepts, rule, key, m, rule', req', t + 1, c2);
    m := BurstRun(rs, accepts, rule, key, req, m, Counter(1, At(t + 1 + t)), n - 1, t + 1, [One(req, last)] + c3);
    m := CheckRun(rs, accepts, rule, key, m, rule, req, last, c3);
    m := BurstRun(rs, accepts, rule, key, req, m, Counter(1, At(last + len)), n - 1, last, []);
    assert Admissions(rs, accepts, rule, key, m, []) == [] by {
      NoCalls(rs, accepts, rule, key, m);
    }
  }

  lemma NoCalls(rs: RuleSet, accepts: Accepts, rule: Rule, key: string, m: Mem)
    ensures Admissions(rs, accepts, rule, key, m, []) == []
  {
  }

  lemma OverrunFails(rs: RuleSet, accepts: Accepts, rule: Rule, key: string, req: Request, rule': Rule, req': Request)
    requires Reaches(rs, accepts, rule, req, key) && Reaches(rs, accepts, rule', req', key)
    requires ValidLimit(rule.limit) && ValidLimit(rule'.limit) && rule.limit.count >= 2 && rule'.limit.time < rule.limit.time - 1
    ensures var (n, t) := (rule.limit.count, rule'.limit.time);
            && TimedCalls(0, Overrun(n, req, req', t))
            && CountIn(Admissions(rs, accepts, rule, key, EMPTY, Overrun(n, req, req', t)), t, rule.limit.time) >= 3 * n - 2
    ensures !Bounded(rs, accepts, rule, key)
  {
    hide Reaches, Admissions, Overrun, Copies, TimedCalls;
    var n, t := rule.limit.count, rule'.limit.time;
    ReachesCount(rs, accepts, rule, req, key);
    OverrunTimed(n, req, req', t);
    OverrunRun(rs, accepts, rule, key, req, rule', req');
    var ts := Admissions(rs, accepts, rule, key, EMPTY, Overrun(n, req, req', t));
    CountInBlock(ts, 0, 3 * n - 3, t, rule.limit.time);
    assert CountIn(ts, t, rule.limit.time) > 2 * n - 1;
  }

  lemma ReachesCount(rs: RuleSet, accepts: Accepts, rule: Rule, req: Request, key: string)
    requires Reaches(rs, accepts, rule, req, key)
    ensures rule.algorithm.Count?
  {
  }

  /**
   * Under a key without accumulate counters a count rule keeps to its bound in every run of the engine
   * if and only if its count is one or no count rule that reaches the key has a window shorter by more
   * than an instant.
   */
  lemma BoundedExactly(rs: RuleSet, accepts: Accepts, rule: Rule, req: Request, key: string)
    requires FreqKeys.ValidRules(rs) && NoAccumulate(rs, accepts, key) && Reaches(rs, accepts, rule, req, key) && ValidLimit(rule.limit)
    ensures Bounded(rs, accepts, rule, key) <==> NoShorter(rs, accepts, rule, key)
  {
    hide Reaches, FreqKeys.ValidRules, NoAccumulate, Admissions, TimedCalls;
    ReachesCount(rs, accepts, rule, req, key);
    if NoShorter(rs, accepts, rule, key) {
      forall now, calls | TimedCalls(now, calls)
        ensures AtMost(Admissions(rs, accepts, rule, key, EMPTY, calls), 2 * rule.limit.count - 1, rule.limit.time)
      {
        NoShorterBounded(rs, accepts, rule, key, now, calls);
      }
    } else {
      var rule', req' :| Reaches(rs, accepts, rule', req', key) && rule'.limit.time < rule.limit.time - 1;
      ReachesValid(rs, accepts, rule', req', key);
      OverrunFails(rs, accepts, rule, key, req, rule', req');
    }
  }
}
