/**
 * Freq rules that share a key: for any rule set, exactly when browsing is still invisible and
 * exactly when a rule's bound still holds.
 */
module FreqKeys {
  import opened AlgorithmSpec
  import opened EngineRuns
  import opened EngineSpec
  import opened GoTypes
  import opened Intervals
  import opened Keys
  import opened Limiters
  import opened Lists
  import opened Memory
  import opened Transparency
  import SlidingWindow

  ghost predicate ValidRules(rs: RuleSet) {
    forall rule :: rule in RateRules(rs) ==> ValidLimit(rule.limit)
  }

  /** The request selects the freq rule, and reaches `key` under it. */
  ghost predicate Reaches(rs: RuleSet, accepts: Accepts, rule: Rule, req: Request, key: string) {
    Selected(rs, req, accepts) == Some(Limited(rule)) && rule.algorithm.Leak? && KeyFor(rule, req) == key
  }

  lemma ReachesValid(rs: RuleSet, accepts: Accepts, rule: Rule, req: Request, key: string)
    requires ValidRules(rs) && Reaches(rs, accepts, rule, req, key)
    ensures ValidLimit(rule.limit)
  {
    hide Selected, RateRules, KeyFor, ValidLimit;
    SelectedIsRateRule(rs, req, accepts);
  }

  /** The calls to be left out are browses. */
  ghost predicate ExtrasBrowse(calls: seq<Call>) {
    forall c :: c in calls && c.extra ==> !c.check
  }

  // A burst of checks under one rule, a browse under another, and one more check

  function Burst(n: nat, req: Request): (calls: seq<Call>)
    ensures forall c :: c in calls ==> !c.extra && c.check
  {
    if n == 0 then [] else [Call(req, true, false, Instant(0))] + Burst(n - 1, req)
  }

  function Intrusion(n: nat, req: Request, req': Request, t: int): seq<Call> {
    Burst(n, req) + [Call(req', false, true, Instant(t)), Call(req, true, false, Instant(t))]
  }

  /** The first millisecond at which a timestamp of 0 has left the window. */
  function After(lim: Limit): int {
    (Millis(lim.time) + 1) * MILLI
  }

  lemma {:induction false} BurstTimed(n: nat, req: Request, tail: seq<Call>)
    requires TimedCalls(0, tail)
    ensures TimedCalls(0, Burst(n, req) + tail)
  {
    if n == 0 {
      assert Burst(n, req) + tail == tail;
    } else {
      BurstTimed(n - 1, req, tail);
      assert (Burst(n, req) + tail)[1..] == Burst(n - 1, req) + tail;
    }
  }

  lemma IntrusionTimed(n: nat, req: Request, req': Request, t: nat)
    ensures TimedCalls(0, Intrusion(n, req, req', t)) && ExtrasBrowse(Intrusion(n, req, req', t))
  {
    var a, b := Call(req', false, true, Instant(t)), Call(req, true, false, Instant(t));
    assert [a, b][1..] == [b] && [b][1..] == [];
    BurstTimed(n, req, [a, b]);
  }

  function Repeated(n: nat, answer: Result<Response>): (r: seq<Result<Response>>)
    ensures |r| == n
  {
    if n == 0 then [] else [answer] + Repeated(n - 1, answer)
  }

  /** The first of some calls, a check that reaches the rule. */
  lemma CheckHead(rs: RuleSet, accepts: Accepts, rule: Rule, req: Request, m: Mem, t: int, rest: seq<Call>)
    requires Reaches(rs, accepts, rule, req, KeyFor(rule, req))
    ensures var c := Call(req, true, false, Instant(t));
            var (next, answer) := Serve(Some(Limited(rule)), m, req, c.clk, true);
            && Admissions(rs, accepts, rule, KeyFor(rule, req), m, [c] + rest)
               == (if answer == Ok(ALLOWED) then [t] else []) + Admissions(rs, accepts, rule, KeyFor(rule, req), next, rest)
            && Answers(rs, accepts, m, [c] + rest, true) == [answer] + Answers(rs, accepts, next, rest, true)
            && Answers(rs, accepts, m, [c] + rest, false) == [answer] + Answers(rs, accepts, next, rest, false)
  {
    hide Selected, KeyFor, Serve;
    var c := Call(req, true, false, Instant(t));
    assert ([c] + rest)[0] == c && ([c] + rest)[1..] == rest;
    assert Hits(rs, accepts, rule, KeyFor(rule, req), req);
  }

  /** A check while the list holds `k` timestamps of this instant. */
  lemma FilledCheck(m: Mem, rule: Rule, req: Request, k: nat)
    requires !m.closed && rule.algorithm.Leak? && ValidLimit(rule.limit) && k < rule.limit.count
    requires m.ListAt(KeyFor(rule, req)) == Copies(k, 0)
    ensures var (next, answer) := Serve(Some(Limited(rule)), m, req, Instant(0), true);
            !next.closed && next.ListAt(KeyFor(rule, req)) == Copies(k + 1, 0) && answer == Ok(ALLOWED)
  {
    hide KeyFor, Serve, SlidingWindow.Step;
    LeakCall(m, rule, req, Call(req, true, false, Instant(0)));
    SlidingWindow.BurstStep(k, 0, rule.limit);
  }

  /** A burst up to the limit is admitted. */
  lemma {:induction false} BurstRun(rs: RuleSet, accepts: Accepts, rule: Rule, req: Request, m: Mem, k: nat, n: nat, tail: seq<Call>)
    returns (m': Mem)
    requires Reaches(rs, accepts, rule, req, KeyFor(rule, req)) && ValidLimit(rule.limit)
    requires !m.closed && k + n <= rule.limit.count && m.ListAt(KeyFor(rule, req)) == Copies(k, 0)
    ensures !m'.closed && m'.ListAt(KeyFor(rule, req)) == Copies(k + n, 0)
    ensures Admissions(rs, accepts, rule, KeyFor(rule, req), m, Burst(n, req) + tail)
         == Copies(n, 0) + Admissions(rs, accepts, rule, KeyFor(rule, req), m', tail)
    ensures Answers(rs, accepts, m, Burst(n, req) + tail, true) == Repeated(n, Ok(ALLOWED)) + Answers(rs, accepts, m', tail, true)
    ensures Answers(rs, accepts, m, Burst(n, req) + tail, false) == Repeated(n, Ok(ALLOWED)) + Answers(rs, accepts, m', tail, false)
    decreases n
  {
    hide Reaches, KeyFor, Serve, Answers, Admissions, ValidLimit;
    if n == 0 {
      assert Burst(n, req) + tail == tail;
      m' := m;
    } else {
      var c := Call(req, true, false, Instant(0));
      var rest := Burst(n - 1, req) + tail;
      assert Burst(n, req) + tail == [c] + rest;
      ReachesFreq(rs, accepts, rule, req);
      CheckHead(rs, accepts, rule, req, m, 0, rest);
      FilledCheck(m, rule, req, k);
      var next := Serve(Some(Limited(rule)), m, req, c.clk, true).0;
      m' := BurstRun(rs, accepts, rule, req, next, k + 1, n - 1, tail);
    }
  }

  lemma ReachesFreq(rs: RuleSet, accepts: Accepts, rule: Rule, req: Request)
    requires Reaches(rs, accepts, rule, req, KeyFor(rule, req))
    ensures rule.algorithm.Leak?
  {
  }

  // What the browse does

  /** A shorter window has passed when a longer one has not. */
  lemma WindowsApart(lim: Limit, lim': Limit)
    requires ValidLimit(lim) && ValidLimit(lim') && Millis(lim'.time) < Millis(lim.time)
    ensures var t := After(lim');
            && 0 <= t <= SlidingWindow.WholeMillis(lim)
            && SlidingWindow.Step(Copies(lim.count, 0), lim', Event(false, Instant(t))).0 == []
            && SlidingWindow.Step([], lim, Event(true, Instant(t))).1 == Some(t)
            && SlidingWindow.Step(Copies(lim.count, 0), lim, Event(true, Instant(t))).1 == None
  {
    hide Clean;
    var t := After(lim');
    assert Millis(t) == Millis(lim'.time) + 1;
    SlidingWindow.CleanKeepsOrClears(Copies(lim.count, 0), WindowStart(t, lim'));
    SlidingWindow.CleanKeepsOrClears(Copies(lim.count, 0), WindowStart(t, lim));
    SlidingWindow.CleanKeepsOrClears([], WindowStart(t, lim));
  }

  /** After the burst: with the browse the last check is admitted, without it is not. */
  lemma LastCheck(rs: RuleSet, accepts: Accepts, rule: Rule, req: Request, rule': Rule, req': Request, m: Mem)
    requires Reaches(rs, accepts, rule, req, KeyFor(rule, req)) && Reaches(rs, accepts, rule', req', KeyFor(rule, req))
    requires ValidLimit(rule.limit) && ValidLimit(rule'.limit) && Millis(rule'.limit.time) < Millis(rule.limit.time)
    requires !m.closed && m.ListAt(KeyFor(rule, req)) == Copies(rule.limit.count, 0)
    ensures var t := After(rule'.limit);
            var tail := [Call(req', false, true, Instant(t)), Call(req, true, false, Instant(t))];
            && Admissions(rs, accepts, rule, KeyFor(rule, req), m, tail) == [t]
            && Answers(rs, accepts, m, tail, true) == [Ok(ALLOWED)]
            && |Answers(rs, accepts, m, tail, false)| == 1 && Answers(rs, accepts, m, tail, false)[0] != Ok(ALLOWED)
  {
    hide Selected, KeyFor, Serve, SlidingWindow.Step, ValidLimit;
    var t := After(rule'.limit);
    var a, b := Call(req', false, true, Instant(t)), Call(req, true, false, Instant(t));
    WindowsApart(rule.limit, rule'.limit);
    LeakCall(m, rule', req', a);
    var m' := Serve(Some(Limited(rule')), m, req', a.clk, false).0;
    LeakCall(m', rule, req, b);
    LeakCall(m, rule, req, b);
    CheckHead(rs, accepts, rule, req, m, t, []);
    CheckHead(rs, accepts, rule, req, m', t, []);
    assert [a, b][1..] == [b] && [b] == [b] + [];
  }

  /** `count` checks at 0, a browse under a shorter window once that has passed, and a check. */
  function Intruded(rule: Rule, req: Request, rule': Rule, req': Request): seq<Call>
    requires rule.limit.count >= 0
  {
    Intrusion(rule.limit.count, req, req', After(rule'.limit))
  }

  lemma IntrusionFails(rs: RuleSet, accepts: Accepts, rule: Rule, req: Request, rule': Rule, req': Request)
    requires Reaches(rs, accepts, rule, req, KeyFor(rule, req)) && Reaches(rs, accepts, rule', req', KeyFor(rule, req))
    requires ValidLimit(rule.limit) && ValidLimit(rule'.limit) && Millis(rule'.limit.time) < Millis(rule.limit.time)
    ensures var calls := Intruded(rule, req, rule', req');
            && TimedCalls(0, calls) && ExtrasBrowse(calls)
            && Answers(rs, accepts, EMPTY, calls, true) != Answers(rs, accepts, EMPTY, calls, false)
            && !AtMost(Admissions(rs, accepts, rule, KeyFor(rule, req), EMPTY, calls),
                       rule.limit.count, SlidingWindow.WholeMillis(rule.limit))
  {
    hide Reaches, KeyFor, Answers, Admissions, Burst;
    var n, t, lim := rule.limit.count, After(rule'.limit), rule.limit;
    var tail := [Call(req', false, true, Instant(t)), Call(req, true, false, Instant(t))];
    IntrusionTimed(n, req, req', t);
    assert EMPTY.ListAt(KeyFor(rule, req)) == Copies(0, 0);
    var m := BurstRun(rs, accepts, rule, req, EMPTY, 0, n, tail);
    WindowsApart(lim, rule'.limit);
    LastCheck(rs, accepts, rule, req, rule', req', m);
    assert Answers(rs, accepts, EMPTY, Burst(n, req) + tail, true)[n] != Answers(rs, accepts, EMPTY, Burst(n, req) + tail, false)[n];
    var ts := Admissions(rs, accepts, rule, KeyFor(rule, req), EMPTY, Burst(n, req) + tail);
    assert ts == Copies(n, 0) + [t];
    CountInBlock(ts, 0, n, 0, SlidingWindow.WholeMillis(lim));
    assert CountIn(ts, 0, SlidingWindow.WholeMillis(lim)) > n;
  }

  // Browsing

  /** Any two requests that reach one key under freq rules do so with one window. */
  ghost predicate OneWindow(rs: RuleSet, accepts: Accepts) {
    forall rule, req, rule', req', key :: Reaches(rs, accepts, rule, req, key) && Reaches(rs, accepts, rule', req', key)
      ==> Millis(rule.limit.time) == Millis(rule'.limit.time)
  }

  /** In every run from a fresh store, browses inserted anywhere change no other answer. */
  ghost predicate BrowsingInvisible(rs: RuleSet, accepts: Accepts) {
    forall now, calls :: TimedCalls(now, calls) && ExtrasBrowse(calls)
      ==> Answers(rs, accepts, EMPTY, calls, true) == Answers(rs, accepts, EMPTY, calls, false)
  }

  lemma OneWindowInvisible(rs: RuleSet, accepts: Accepts, now: int, calls: seq<Call>)
    requires OneWindow(rs, accepts) && TimedCalls(now, calls) && ExtrasBrowse(calls)
    ensures Answers(rs, accepts, EMPTY, calls, true) == Answers(rs, accepts, EMPTY, calls, false)
  {
    hide Selected, KeyFor, Millis, Answers, TimedCalls;
    forall c, c', key | c in calls && c' in calls && UsesFreqKey(rs, accepts, c.req, key) && UsesFreqKey(rs, accepts, c'.req, key)
      ensures WindowFor(rs, accepts, c.req, key) == WindowFor(rs, accepts, c'.req, key)
    {
      assert Reaches(rs, accepts, Selected(rs, c.req, accepts).value.rule, c.req, key);
      assert Reaches(rs, accepts, Selected(rs, c'.req, accepts).value.rule, c'.req, key);
    }
    OneWindowAgrees(rs, accepts, calls);
    BrowseIsTransparent(rs, accepts, now, WindowByKey(rs, accepts, calls), calls);
  }

  /** For any rules and matchers, browsing is invisible if and only if requests that share a freq key share its window. */
  lemma BrowsingInvisibleExactly(rs: RuleSet, accepts: Accepts)
    requires ValidRules(rs)
    ensures BrowsingInvisible(rs, accepts) <==> OneWindow(rs, accepts)
  {
    hide Reaches, Answers, TimedCalls, ValidLimit, ValidRules, Millis;
    if OneWindow(rs, accepts) {
      forall now, calls | TimedCalls(now, calls) && ExtrasBrowse(calls)
        ensures Answers(rs, accepts, EMPTY, calls, true) == Answers(rs, accepts, EMPTY, calls, false)
      {
        OneWindowInvisible(rs, accepts, now, calls);
      }
    } else {
      var rule, req, rule', req', key :| Reaches(rs, accepts, rule, req, key) && Reaches(rs, accepts, rule', req', key)
        && Millis(rule.limit.time) != Millis(rule'.limit.time);
      Unequal(rs, accepts, rule, req, rule', req', key);
    }
  }

  lemma Unequal(rs: RuleSet, accepts: Accepts, rule: Rule, req: Request, rule': Rule, req': Request, key: string)
    requires ValidRules(rs) && Reaches(rs, accepts, rule, req, key) && Reaches(rs, accepts, rule', req', key)
    requires Millis(rule.limit.time) != Millis(rule'.limit.time)
    ensures !BrowsingInvisible(rs, accepts)
  {
    hide Answers, TimedCalls, Selected, KeyFor, ValidLimit, Millis, Intrusion, After;
    ReachesValid(rs, accepts, rule, req, key);
    ReachesValid(rs, accepts, rule', req', key);
    assert rule.limit.count >= 0 && rule'.limit.count >= 0 by {
      CountPositive(rule.limit);
      CountPositive(rule'.limit);
    }
    if Millis(rule'.limit.time) < Millis(rule.limit.time) {
      IntrusionFails(rs, accepts, rule, req, rule', req');
    } else {
      IntrusionFails(rs, accepts, rule', req', rule, req);
    }
  }

  lemma CountPositive(lim: Limit)
    requires ValidLimit(lim)
    ensures lim.count >= 1
  {
  }

  // The bound of a freq rule that shares its keys

  /**
   * The list holds every admission of one rule that is still in that rule's window, beside whatever
   * other rules push to it.
   */
  ghost predicate Inv(l: seq<int>, hist: seq<int>, now: int, lim: Limit) {
    && lim.count >= 0
    && SlidingWindow.Nonincreasing(l) && (forall i :: 0 <= i < |l| ==> l[i] <= Millis(now))
    && Nondecreasing(hist) && (forall i :: 0 <= i < |hist| ==> hist[i] <= now)
    && Spread(hist, lim.count, SlidingWindow.WholeMillis(lim))
    && (forall i :: 0 <= i < |hist| && Millis(hist[i]) >= WindowStart(now, lim) ==> |l| >= |hist| - i && l[0] >= Millis(hist[i]))
  }

  lemma InvClean(l: seq<int>, hist: seq<int>, now: int, lim: Limit, lim': Limit, t: int)
    requires Inv(l, hist, now, lim) && now <= t && Millis(lim'.time) >= Millis(lim.time)
    ensures Inv(Clean(l, WindowStart(t, lim')), hist, t, lim)
  {
    hide Clean;
    SlidingWindow.CleanKeepsOrClears(l, WindowStart(t, lim'));
  }

  lemma InvOther(l: seq<int>, hist: seq<int>, now: int, lim: Limit, t: int)
    requires Inv(l, hist, now, lim) && now <= t
    ensures Inv(Pushed(l, [Millis(t)]), hist, t, lim)
  {
    hide SlidingWindow.WholeMillis, Spread;
    assert Pushed(l, [Millis(t)]) == [Millis(t)] + l;
  }

  lemma InvOwn(l: seq<int>, hist: seq<int>, now: int, lim: Limit, t: int)
    requires Inv(l, hist, now, lim) && now <= t && |l| < lim.count && ValidLimit(lim)
    ensures Inv(Pushed(l, [Millis(t)]), hist + [t], t, lim)
  {
    hide Millis, SlidingWindow.WholeMillis;
    InvOther(l, hist, now, lim, t);
    var l' := Pushed(l, [Millis(t)]);
    assert l' == [Millis(t)] + l;
    forall i | 0 <= i && i + lim.count <= |hist| ensures t - hist[i] > SlidingWindow.WholeMillis(lim) {
      Later(now, t);
      SlidingWindow.MillisApart(hist[i], t, lim);
    }
    forall i | 0 <= i < |hist| && Millis(hist[i]) >= WindowStart(t, lim) ensures |l'| >= |hist| + 1 - i && l'[0] >= Millis(hist[i]) {
      Later(now, t);
    }
  }

  lemma Later(now: int, t: int)
    requires now <= t
    ensures Millis(now) <= Millis(t)
  {
  }

  lemma InvLater(l: seq<int>, hist: seq<int>, now: int, lim: Limit, t: int)
    requires Inv(l, hist, now, lim) && now <= t
    ensures Inv(l, hist, t, lim)
  {
    hide Spread, SlidingWindow.WholeMillis;
  }

  /** A request under a rule whose window is no shorter, the rule itself or another. */
  lemma StepKeepsInv(l: seq<int>, hist: seq<int>, now: int, lim: Limit, lim': Limit, own: bool, ev: Event)
    requires Inv(l, hist, now, lim) && ev.clk.From(now) && ValidLimit(lim)
    requires Millis(lim'.time) >= Millis(lim.time) && (own ==> lim' == lim)
    ensures var (next, admitted) := SlidingWindow.Step(l, lim', ev);
            Inv(next, if own && admitted.Some? then hist + [admitted.value] else hist, ev.clk.u4, lim)
  {
    hide Inv, Millis, Pushed;
    var clk := ev.clk;
    InvClean(l, hist, now, lim, lim', clk.b1);
    var (browsed, hit) := LeakBrowse(l, lim', clk);
    if ev.check && !hit {
      var cleaned := Clean(browsed, WindowStart(clk.u1, lim'));
      InvClean(browsed, hist, clk.b1, lim, lim', clk.u1);
      if own {
        CleanShrinks(browsed, WindowStart(clk.u1, lim'));
        InvOwn(cleaned, hist, clk.u1, lim, clk.u2);
        InvLater(LeakUpdate(browsed, lim', clk), hist + [clk.u2], clk.u2, lim, clk.u4);
      } else {
        InvOther(cleaned, hist, clk.u1, lim, clk.u2);
        InvLater(LeakUpdate(browsed, lim', clk), hist, clk.u2, lim, clk.u4);
      }
    } else {
      InvLater(browsed, hist, clk.b1, lim, clk.u4);
    }
  }

  lemma ListsKept(a: Algorithm, m: Mem, key: string, lim: Limit, clk: Clock, other: string)
    requires !a.Leak? || key != other
    ensures Browse(a, m, key, lim, clk).0.ListAt(other) == m.ListAt(other) && Browse(a, m, key, lim, clk).0.closed == m.closed
    ensures Update(a, m, key, lim, clk).0.ListAt(other) == m.ListAt(other) && Update(a, m, key, lim, clk).0.closed == m.closed
  {
    hide CountBrowse, CountUpdate, BaseBrowse, BaseUpdate, LeakBrowse, LeakUpdate;
  }

  /** Only a freq rule that reaches a key changes its list. */
  lemma OtherRequest(choice: Option<Choice>, m: Mem, req: Request, clk: Clock, update: bool, key: string)
    requires choice.Some? && choice.value.Limited? && choice.value.rule.algorithm.Leak? ==> KeyFor(choice.value.rule, req) != key
    ensures var next := Serve(choice, m, req, clk, update).0;
            next.ListAt(key) == m.ListAt(key) && next.closed == m.closed
  {
    hide Browse, Update, KeyFor;
    if choice.Some? && choice.value.Limited? {
      var rule := choice.value.rule;
      ListsKept(rule.algorithm, m, KeyFor(rule, req), rule.limit, clk, key);
      ListsKept(rule.algorithm, Browse(rule.algorithm, m, KeyFor(rule, req), rule.limit, clk).0, KeyFor(rule, req), rule.limit, clk, key);
    }
  }

  /** No request reaches the key under a freq rule with a shorter window. */
  ghost predicate NoShorter(rs: RuleSet, accepts: Accepts, rule: Rule, key: string) {
    forall rule', req' :: Reaches(rs, accepts, rule', req', key) ==> Millis(rule'.limit.time) >= Millis(rule.limit.time)
  }

  function Own(admits: bool, t: int): seq<int> {
    if admits then [t] else []
  }

  ghost predicate Admits(rs: RuleSet, accepts: Accepts, rule: Rule, key: string, m: Mem, c: Call) {
    Hits(rs, accepts, rule, key, c.req) && c.check && Serve(Selected(rs, c.req, accepts), m, c.req, c.clk, c.check).1 == Ok(ALLOWED)
  }

  lemma CallKeepsInv(rs: RuleSet, accepts: Accepts, rule: Rule, key: string, m: Mem, hist: seq<int>, now: int, c: Call)
    requires NoShorter(rs, accepts, rule, key) && rule.algorithm.Leak? && ValidLimit(rule.limit)
    requires !m.closed && c.clk.From(now) && Inv(m.ListAt(key), hist, now, rule.limit)
    ensures var next := Serve(Selected(rs, c.req, accepts), m, c.req, c.clk, c.check).0;
            !next.closed && Inv(next.ListAt(key), hist + Own(Admits(rs, accepts, rule, key, m, c), c.clk.u2), c.clk.u4, rule.limit)
  {
    hide Inv, Selected, KeyFor, Serve, SlidingWindow.Step, Millis, ValidLimit;
    var s := Selected(rs, c.req, accepts);
    assert hist + [] == hist;
    if s.Some? && s.value.Limited? && s.value.rule.algorithm.Leak? && KeyFor(s.value.rule, c.req) == key {
      var rule' := s.value.rule;
      assert Reaches(rs, accepts, rule', c.req, key);
      LeakCall(m, rule', c.req, c);
      StepKeepsInv(m.ListAt(key), hist, now, rule.limit, rule'.limit, rule' == rule, Event(c.check, c.clk));
    } else {
      OtherRequest(s, m, c.req, c.clk, c.check, key);
      InvLater(m.ListAt(key), hist, now, rule.limit, c.clk.u4);
    }
  }

  lemma {:induction false} RunKeepsInv(rs: RuleSet, accepts: Accepts, rule: Rule, key: string, m: Mem, hist: seq<int>, now: int, calls: seq<Call>)
    requires NoShorter(rs, accepts, rule, key) && rule.algorithm.Leak? && ValidLimit(rule.limit)
    requires !m.closed && TimedCalls(now, calls) && Inv(m.ListAt(key), hist, now, rule.limit)
    ensures var all := hist + Admissions(rs, accepts, rule, key, m, calls);
            Nondecreasing(all) && Spread(all, rule.limit.count, SlidingWindow.WholeMillis(rule.limit))
    decreases calls
  {
    hide NoShorter, Selected, Serve, Hits, Millis, ValidLimit, SlidingWindow.WholeMillis;
    if calls == [] {
      assert hist + [] == hist;
    } else {
      hide Inv;
      var c := calls[0];
      var own := Own(Admits(rs, accepts, rule, key, m, c), c.clk.u2);
      var next := Serve(Selected(rs, c.req, accepts), m, c.req, c.clk, c.check).0;
      CallKeepsInv(rs, accepts, rule, key, m, hist, now, c);
      RunKeepsInv(rs, accepts, rule, key, next, hist + own, c.clk.u4, calls[1..]);
      var later := Admissions(rs, accepts, rule, key, next, calls[1..]);
      assert hist + own + later == hist + (own + later);
    }
  }

  /** What every interval of a freq rule's whole-millisecond window holds, in every run of the engine. */
  ghost predicate Bounded(rs: RuleSet, accepts: Accepts, rule: Rule, key: string)
    requires ValidLimit(rule.limit)
  {
    forall now, calls :: TimedCalls(now, calls)
      ==> AtMost(Admissions(rs, accepts, rule, key, EMPTY, calls), rule.limit.count, SlidingWindow.WholeMillis(rule.limit))
  }

  lemma NoShorterBounded(rs: RuleSet, accepts: Accepts, rule: Rule, key: string, now: int, calls: seq<Call>)
    requires NoShorter(rs, accepts, rule, key) && rule.algorithm.Leak? && ValidLimit(rule.limit) && TimedCalls(now, calls)
    ensures AtMost(Admissions(rs, accepts, rule, key, EMPTY, calls), rule.limit.count, SlidingWindow.WholeMillis(rule.limit))
  {
    hide NoShorter, Admissions, TimedCalls, SlidingWindow.WholeMillis;
    var ts := Admissions(rs, accepts, rule, key, EMPTY, calls);
    assert EMPTY.ListAt(key) == [];
    RunKeepsInv(rs, accepts, rule, key, EMPTY, [], now, calls);
    assert [] + ts == ts;
    SpreadIffAtMost(ts, rule.limit.count, SlidingWindow.WholeMillis(rule.limit));
  }

  /**
   * For any rules and matchers, a freq rule keeps to its bound under a key in every run of the engine
   * if and only if no freq rule with a shorter window reaches that key.
   */
  lemma BoundedExactly(rs: RuleSet, accepts: Accepts, rule: Rule, req: Request)
    requires ValidRules(rs) && Reaches(rs, accepts, rule, req, KeyFor(rule, req)) && ValidLimit(rule.limit)
    ensures Bounded(rs, accepts, rule, KeyFor(rule, req)) <==> NoShorter(rs, accepts, rule, KeyFor(rule, req))
  {
    hide Reaches, ValidRules, Admissions, TimedCalls, KeyFor, Millis, ValidLimit, Intrusion;
    var key := KeyFor(rule, req);
    if NoShorter(rs, accepts, rule, key) {
      ReachesFreq(rs, accepts, rule, req);
      CountPositive(rule.limit);
      forall now, calls | TimedCalls(now, calls)
        ensures AtMost(Admissions(rs, accepts, rule, key, EMPTY, calls), rule.limit.count, SlidingWindow.WholeMillis(rule.limit))
      {
        NoShorterBounded(rs, accepts, rule, key, now, calls);
      }
    } else {
      var rule', req' :| Reaches(rs, accepts, rule', req', key) && Millis(rule'.limit.time) < Millis(rule.limit.time);
      ReachesValid(rs, accepts, rule', req', key);
      IntrusionFails(rs, accepts, rule, req, rule', req');
    }
  }
}
