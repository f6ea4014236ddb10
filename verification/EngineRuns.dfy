/**
 * Whole runs of the engine: what one rate rule admits under one of its keys, among requests of
 * all kinds to all other rules and keys, is a run of that rule's algorithm on that key alone.
 */
module EngineRuns {
  import opened AlgorithmSpec
  import opened EngineSpec
  import opened GoTypes
  import opened Intervals
  import opened Keys
  import opened Limiters
  import opened Memory
  import opened Transparency
  import Accumulate
  import Algorithms
  import FixedWindow
  import SlidingWindow
  import Windows

  // When two rules keep apart in the store

  /** Rate rules have colon-free names and no two of them the same one. */
  ghost predicate NamesSeparate(rs: RuleSet) {
    && (forall r :: r in RateRules(rs) ==> ColonFree(r.name))
    && (forall r, r' :: r in RateRules(rs) && r' in RateRules(rs) && r.name == r'.name ==> r == r')
  }

  /** Names, fields and the request's values are free of the characters that separate the parts of a key. */
  ghost predicate Plain(rs: RuleSet, req: Request) {
    forall r :: r in RateRules(rs) ==> ColonFree(r.name) && forall f :: f in r.conditions ==> PlainPart(f, req.GetField(f))
  }

  /** Another request's keys are told apart from those of `rule` for `req`: by the rules' names, or by all they are made of. */
  ghost predicate ToldApart(rs: RuleSet, accepts: Accepts, rule: Rule, req: Request, req': Request) {
    || NamesSeparate(rs)
    || (Selected(rs, req, accepts) == Some(Limited(rule)) && Plain(rs, req) && Plain(rs, req'))
  }

  ghost predicate Separated(rs: RuleSet, accepts: Accepts, rule: Rule, req: Request, calls: seq<Call>) {
    rule in RateRules(rs) && forall c :: c in calls ==> ToldApart(rs, accepts, rule, req, c.req)
  }

  lemma {:induction false} FirstMatchIn(cs: seq<Choice>, req: Request, accepts: Accepts)
    ensures FirstMatch(cs, req, accepts).Some? ==> FirstMatch(cs, req, accepts).value in cs
  {
    if cs != [] {
      FirstMatchIn(cs[1..], req, accepts);
    }
  }

  lemma SelectedIsRateRule(rs: RuleSet, req: Request, accepts: Accepts)
    ensures var s := Selected(rs, req, accepts);
            s.Some? && s.value.Limited? ==> s.value.rule in RateRules(rs)
  {
    hide RateRules, FirstMatch;
    FirstMatchIn(Choices(rs), req, accepts);
  }

  /** Two first matches that each satisfy the other's request are the same. */
  lemma {:induction false} FirstMatchBoth(cs: seq<Choice>, accepts: Accepts, req: Request, c: Choice, req': Request, c': Choice)
    requires FirstMatch(cs, req, accepts) == Some(c) && FirstMatch(cs, req', accepts) == Some(c')
    requires Matches(c.rule, req', accepts) && Matches(c'.rule, req, accepts)
    ensures c == c'
  {
    hide Matches;
    if !Matches(cs[0].rule, req, accepts) && !Matches(cs[0].rule, req', accepts) {
      FirstMatchBoth(cs[1..], accepts, req, c, req', c');
    }
  }

  lemma SameFieldsMatch(rule: Rule, req: Request, accepts: Accepts, rule': Rule, req': Request)
    requires Matches(rule, req, accepts) && rule.conditions.Keys == rule'.conditions.Keys
    requires forall f :: f in rule'.conditions.Keys ==> req.GetField(f) == req'.GetField(f)
    ensures Matches(rule, req', accepts)
  {
    hide Request.GetField, MatcherFor;
    assert forall f :: f in rule.conditions ==> f in rule'.conditions.Keys;
  }

  lemma {:induction false} FirstMatchMatches(cs: seq<Choice>, req: Request, accepts: Accepts)
    ensures FirstMatch(cs, req, accepts).Some? ==> Matches(FirstMatch(cs, req, accepts).value.rule, req, accepts)
  {
    hide Matches;
    if cs != [] {
      FirstMatchMatches(cs[1..], req, accepts);
    }
  }

  /** Plain requests that reach the same store key reach the same rule, even where rules share a name. */
  lemma SameKeySameRule(rs: RuleSet, accepts: Accepts, req: Request, rule: Rule, suffix: string,
                        req': Request, rule': Rule, suffix': string)
    requires Plain(rs, req) && Plain(rs, req') && IsSuffix(suffix) && IsSuffix(suffix')
    requires Selected(rs, req, accepts) == Some(Limited(rule)) && Selected(rs, req', accepts) == Some(Limited(rule'))
    requires KeyFor(rule, req) + suffix == KeyFor(rule', req') + suffix'
    ensures rule == rule' && KeyFor(rule, req) == KeyFor(rule', req')
  {
    hide KeyOf, Matches, FirstMatch, RateRules, Choices, PlainPart, IsSuffix, Request.GetField;
    SelectedIsRateRule(rs, req, accepts);
    SelectedIsRateRule(rs, req', accepts);
    KeysDetermine(rule.name, rule.conditions.Keys, req.GetField, suffix, rule'.name, rule'.conditions.Keys, req'.GetField, suffix');
    FirstMatchMatches(Choices(rs), req, accepts);
    FirstMatchMatches(Choices(rs), req', accepts);
    SameFieldsMatch(rule, req, accepts, rule', req');
    SameFieldsMatch(rule', req', accepts, rule, req);
    FirstMatchBoth(Choices(rs), accepts, req, Limited(rule), req', Limited(rule'));
    KeyUnsuffixed(KeyFor(rule, req), KeyFor(rule', req'), suffix);
  }

  lemma KeyUnsuffixed(k: string, k': string, suffix: string)
    requires k + suffix == k' + suffix
    ensures k == k'
  {
    assert k == (k + suffix)[..|k|] && k' == (k' + suffix)[..|k'|];
  }

  // The runs

  /** `rule` is selected for the request, under `key`. */
  ghost predicate Hits(rs: RuleSet, accepts: Accepts, rule: Rule, key: string, req: Request) {
    Selected(rs, req, accepts) == Some(Limited(rule)) && KeyFor(rule, req) == key
  }

  /** The calls that reach `rule` under `key`. */
  ghost function EventsFor(rs: RuleSet, accepts: Accepts, rule: Rule, key: string, calls: seq<Call>): seq<Event> {
    if calls == [] then [] else
      (if Hits(rs, accepts, rule, key, calls[0].req) then [Event(calls[0].check, calls[0].clk)] else [])
      + EventsFor(rs, accepts, rule, key, calls[1..])
  }

  /** When an admitted check counts: at the push of a timestamp, or at the bump of the counter that let it through. */
  ghost function AdmittedAt(rule: Rule, key: string, after: Mem, clk: Clock): int {
    match rule.algorithm
    case Leak => clk.u2
    case Base => if Windows.Value(after.CellAt(TotalKey(key))) <= rule.limit.base + 1 then clk.u1 else clk.u3
    case _ => clk.u1
  }

  /** The instants at which `rule` admits a check under `key` in a run of the whole engine. */
  ghost function Admissions(rs: RuleSet, accepts: Accepts, rule: Rule, key: string, m: Mem, calls: seq<Call>): seq<int>
    decreases calls
  {
    if calls == [] then [] else
      var c := calls[0];
      var (next, answer) := Serve(Selected(rs, c.req, accepts), m, c.req, c.clk, c.check);
      (if Hits(rs, accepts, rule, key, c.req) && c.check && answer == Ok(ALLOWED) then [AdmittedAt(rule, key, next, c.clk)] else [])
      + Admissions(rs, accepts, rule, key, next, calls[1..])
  }

  lemma {:induction false} EventsTimed(rs: RuleSet, accepts: Accepts, rule: Rule, key: string, now: int, calls: seq<Call>)
    requires TimedCalls(now, calls)
    ensures Timed(now, EventsFor(rs, accepts, rule, key, calls)) && |EventsFor(rs, accepts, rule, key, calls)| <= |calls|
    decreases calls
  {
    hide Hits;
    if calls != [] {
      EventsTimed(rs, accepts, rule, key, calls[0].clk.u4, calls[1..]);
      var later := EventsFor(rs, accepts, rule, key, calls[1..]);
      if Hits(rs, accepts, rule, key, calls[0].req) {
        assert ([Event(calls[0].check, calls[0].clk)] + later)[1..] == later;
      } else {
        TimedEarlier(now, calls[0].clk.u4, later);
        assert [] + later == later;
      }
    }
  }

  lemma TimedEarlier(now: int, then_: int, evs: seq<Event>)
    requires now <= then_ && Timed(then_, evs)
    ensures Timed(now, evs)
  {
  }

  /** No other rule, and no other key of the same rule, touches the store keys of `rule` for `req`. */
  lemma OthersKeepAway(rs: RuleSet, accepts: Accepts, rule: Rule, req: Request, rule': Rule, req': Request, other: string)
    requires ToldApart(rs, accepts, rule, req, req') && rule in RateRules(rs)
    requires Selected(rs, req', accepts) == Some(Limited(rule')) && Owns(rule.algorithm, KeyFor(rule, req), other)
    requires rule' != rule || KeyFor(rule', req') != KeyFor(rule, req)
    ensures !Owns(rule'.algorithm, KeyFor(rule', req'), other)
  {
    hide KeyOf, RateRules, Selected, Plain, IsSuffix, Owns;
    var k, k' := KeyFor(rule, req), KeyFor(rule', req');
    if NamesSeparate(rs) && rule' == rule {
      OneRule(rule.algorithm, k, k', other);
    } else {
      SelectedIsRateRule(rs, req', accepts);
      forall suffix, suffix' | IsSuffix(suffix) && IsSuffix(suffix') ensures k + suffix != k' + suffix' {
        if NamesSeparate(rs) {
          KeysSeparateRules(rule.name, rule.conditions.Keys, req.GetField, suffix,
                            rule'.name, rule'.conditions.Keys, req'.GetField, suffix');
        } else if k + suffix == k' + suffix' {
          SameKeySameRule(rs, accepts, req, rule, suffix, req', rule', suffix');
        }
      }
      SuffixCases(k, k');
    }
  }

  lemma OneRule(a: Algorithm, k: string, k': string, other: string)
    requires k != k' && Owns(a, k, other)
    ensures !Owns(a, k', other)
  {
    SuffixesSeparate(k, k');
    SuffixesSeparate(k', k);
  }

  lemma SuffixCases(k: string, k': string)
    requires forall suffix, suffix' :: IsSuffix(suffix) && IsSuffix(suffix') ==> k + suffix != k' + suffix'
    ensures forall a: Algorithm, b: Algorithm, other :: Owns(a, k, other) ==> !Owns(b, k', other)
  {
    assert k + "" == k && k' + "" == k';
    assert IsSuffix("") && IsSuffix(":total") && IsSuffix(":secondary");
  }

  /** A call that does not reach `rule` under `key` leaves the store keys of both alone. */
  lemma OtherCalls(rs: RuleSet, accepts: Accepts, rule: Rule, req: Request, m: Mem, c: Call, other: string)
    requires ToldApart(rs, accepts, rule, req, c.req) && rule in RateRules(rs) && Owns(rule.algorithm, KeyFor(rule, req), other)
    requires !Hits(rs, accepts, rule, KeyFor(rule, req), c.req)
    ensures SameAt(m, Serve(Selected(rs, c.req, accepts), m, c.req, c.clk, c.check).0, other)
  {
    hide KeyFor, RateRules, Selected, Owns, SameAt, ToldApart;
    var choice := Selected(rs, c.req, accepts);
    if choice.Some? && choice.value.Limited? {
      OthersKeepAway(rs, accepts, rule, req, choice.value.rule, c.req, other);
    }
    ServeFrame(choice, m, c.req, c.clk, c.check, other);
  }

  lemma HitsSelects(rs: RuleSet, accepts: Accepts, rule: Rule, req: Request, req': Request)
    requires Hits(rs, accepts, rule, KeyFor(rule, req), req')
    ensures Selected(rs, req', accepts) == Some(Limited(rule)) && KeyFor(rule, req') == KeyFor(rule, req)
  {
  }

  // freq

  lemma LeakCall(m: Mem, rule: Rule, req: Request, c: Call)
    requires !m.closed && rule.algorithm.Leak? && KeyFor(rule, c.req) == KeyFor(rule, req)
    ensures var key := KeyFor(rule, req);
            var (next, answer) := Serve(Some(Limited(rule)), m, c.req, c.clk, c.check);
            var (l, admitted) := SlidingWindow.Step(m.ListAt(key), rule.limit, Event(c.check, c.clk));
            && !next.closed && next.ListAt(key) == l
            && (c.check && answer == Ok(ALLOWED) <==> admitted.Some?) && (admitted.Some? ==> admitted.value == c.clk.u2)
  {
    hide LeakBrowse, LeakUpdate, KeyFor;
    EmptyBrowse(rule.limit, c.clk);
  }

  lemma EmptyBrowse(lim: Limit, clk: Clock)
    ensures LeakBrowse([], lim, clk).0 == []
  {
  }

  lemma {:induction false} LeakRun(rs: RuleSet, accepts: Accepts, rule: Rule, req: Request, m: Mem, calls: seq<Call>)
    requires Separated(rs, accepts, rule, req, calls) && rule.algorithm.Leak? && !m.closed
    ensures Admissions(rs, accepts, rule, KeyFor(rule, req), m, calls)
         == SlidingWindow.Run(m.ListAt(KeyFor(rule, req)), rule.limit, EventsFor(rs, accepts, rule, KeyFor(rule, req), calls)).1
    decreases calls
  {
    hide ToldApart, RateRules, Selected, KeyFor, Serve, SlidingWindow.Step;
    if calls != [] {
      var c, key := calls[0], KeyFor(rule, req);
      var next := Serve(Selected(rs, c.req, accepts), m, c.req, c.clk, c.check).0;
      var later := EventsFor(rs, accepts, rule, key, calls[1..]);
      if Hits(rs, accepts, rule, key, c.req) {
        LeakCall(m, rule, req, c);
        assert ([Event(c.check, c.clk)] + later)[1..] == later;
      } else {
        OtherCalls(rs, accepts, rule, req, m, c, key);
        assert [] + later == later;
      }
      LeakRun(rs, accepts, rule, req, next, calls[1..]);
    }
  }

  // count

  lemma CountCall(m: Mem, rule: Rule, req: Request, c: Call)
    requires !m.closed && rule.algorithm.Count? && KeyFor(rule, c.req) == KeyFor(rule, req)
    requires ValidLimit(rule.limit) && Windows.CellOk(m.CellAt(KeyFor(rule, req)))
    ensures var key := KeyFor(rule, req);
            var (next, answer) := Serve(Some(Limited(rule)), m, c.req, c.clk, c.check);
            var (cell, admitted) := FixedWindow.Step(m.CellAt(key), rule.limit, Event(c.check, c.clk));
            && !next.closed && next.CellAt(key) == cell
            && (c.check && answer == Ok(ALLOWED) <==> admitted.Some?) && (admitted.Some? ==> admitted.value.time == c.clk.u1)
  {
    hide KeyFor;
  }

  lemma {:induction false} CountRun(rs: RuleSet, accepts: Accepts, rule: Rule, req: Request, m: Mem, calls: seq<Call>)
    requires Separated(rs, accepts, rule, req, calls) && rule.algorithm.Count? && !m.closed
    requires ValidLimit(rule.limit) && Windows.CellOk(m.CellAt(KeyFor(rule, req)))
    ensures Admissions(rs, accepts, rule, KeyFor(rule, req), m, calls)
         == Windows.Times(FixedWindow.Run(m.CellAt(KeyFor(rule, req)), rule.limit,
                                          EventsFor(rs, accepts, rule, KeyFor(rule, req), calls)))
    decreases calls
  {
    hide ToldApart, RateRules, Selected, KeyFor, Serve, FixedWindow.Step, FixedWindow.Run, Hits;
    if calls == [] {
      FixedWindow.EmptyRun(m.CellAt(KeyFor(rule, req)), rule.limit);
    } else {
      var c, key := calls[0], KeyFor(rule, req);
      var next := Serve(Selected(rs, c.req, accepts), m, c.req, c.clk, c.check).0;
      var later := EventsFor(rs, accepts, rule, key, calls[1..]);
      if Hits(rs, accepts, rule, key, c.req) {
        HitsSelects(rs, accepts, rule, req, c.req);
        CountCall(m, rule, req, c);
        FixedWindow.RunHead(m.CellAt(key), rule.limit, Event(c.check, c.clk), later);
      } else {
        OtherCalls(rs, accepts, rule, req, m, c, key);
        assert [] + later == later;
      }
      CountRun(rs, accepts, rule, req, next, calls[1..]);
    }
  }

  // accumulate

  lemma BaseCall(m: Mem, rule: Rule, req: Request, c: Call)
    requires !m.closed && rule.algorithm.Base? && KeyFor(rule, c.req) == KeyFor(rule, req)
    requires ValidLimit(rule.limit) && Accumulate.Ready(BaseAt(m, KeyFor(rule, req)), 1)
    ensures var key := KeyFor(rule, req);
            var (next, answer) := Serve(Some(Limited(rule)), m, c.req, c.clk, c.check);
            var (cells, admitted) := Accumulate.Step(BaseAt(m, key), rule.limit, Event(c.check, c.clk));
            && !next.closed && BaseAt(next, key) == cells
            && (c.check && answer == Ok(ALLOWED) <==> admitted.Some?)
            && (admitted.Some? ==> admitted.value.hit.time == AdmittedAt(rule, key, next, c.clk))
  {
    hide KeyFor, BaseBrowse, ClampTTL, Windows.Add, WithBase;
    var key := KeyFor(rule, req);
    Algorithms.SeparateKeys(key);
    var (browsed, hit) := BaseBrowse(BaseAt(m, key), rule.limit, c.clk);
    var m' := WithBase(m, key, browsed);
    WithBaseAt(m, key, browsed);
    if c.check && !hit {
      WithBaseAt(m', key, BaseUpdate(browsed, rule.limit, c.clk));
    }
  }

  lemma WithBaseAt(m: Mem, key: string, c: BaseCells)
    ensures BaseAt(WithBase(m, key, c), key) == c && WithBase(m, key, c).closed == m.closed
  {
    Algorithms.SeparateKeys(key);
  }

  lemma {:induction false} BaseRun(rs: RuleSet, accepts: Accepts, rule: Rule, req: Request, m: Mem, calls: seq<Call>)
    requires Separated(rs, accepts, rule, req, calls) && rule.algorithm.Base? && !m.closed
    requires ValidLimit(rule.limit)
    requires Accumulate.Ready(BaseAt(m, KeyFor(rule, req)), |EventsFor(rs, accepts, rule, KeyFor(rule, req), calls)|)
    ensures Admissions(rs, accepts, rule, KeyFor(rule, req), m, calls)
         == Accumulate.Instants(Accumulate.Run(BaseAt(m, KeyFor(rule, req)), rule.limit,
                                               EventsFor(rs, accepts, rule, KeyFor(rule, req), calls)))
    decreases calls
  {
    hide ToldApart, RateRules, Selected, KeyFor, Serve, Accumulate.Step;
    if calls != [] {
      var c, key := calls[0], KeyFor(rule, req);
      var next := Serve(Selected(rs, c.req, accepts), m, c.req, c.clk, c.check).0;
      var later := EventsFor(rs, accepts, rule, key, calls[1..]);
      if Hits(rs, accepts, rule, key, c.req) {
        BaseCall(m, rule, req, c);
        assert ([Event(c.check, c.clk)] + later)[1..] == later;
      } else {
        OtherCalls(rs, accepts, rule, req, m, c, TotalKey(key));
        OtherCalls(rs, accepts, rule, req, m, c, SecondaryKey(key));
        assert [] + later == later;
      }
      BaseRun(rs, accepts, rule, req, next, calls[1..]);
    }
  }

  // The bounds, for the whole engine

  const EMPTY := Mem(map[], map[], false)

  /** In any run of the engine a freq rule admits at most `count` requests per key in any closed interval of its window. */
  lemma FreqRuleBound(rs: RuleSet, accepts: Accepts, rule: Rule, req: Request, now: int, calls: seq<Call>)
    requires Separated(rs, accepts, rule, req, calls) && rule.algorithm.Leak? && ValidLimit(rule.limit) && TimedCalls(now, calls)
    ensures AtMost(Admissions(rs, accepts, rule, KeyFor(rule, req), EMPTY, calls),
                   rule.limit.count, SlidingWindow.WholeMillis(rule.limit))
  {
    hide ToldApart, RateRules, KeyFor, AtMost;
    var key := KeyFor(rule, req);
    LeakRun(rs, accepts, rule, req, EMPTY, calls);
    EventsTimed(rs, accepts, rule, key, now, calls);
    SlidingWindow.SlidingWindowSafe(now, rule.limit, EventsFor(rs, accepts, rule, key, calls));
  }

  /** ... a count rule at most `2 * count - 1` ... */
  lemma CountRuleBound(rs: RuleSet, accepts: Accepts, rule: Rule, req: Request, now: int, calls: seq<Call>)
    requires Separated(rs, accepts, rule, req, calls) && rule.algorithm.Count? && ValidLimit(rule.limit) && TimedCalls(now, calls)
    ensures AtMost(Admissions(rs, accepts, rule, KeyFor(rule, req), EMPTY, calls), 2 * rule.limit.count - 1, rule.limit.time)
  {
    hide ToldApart, RateRules, KeyFor, AtMost;
    var key := KeyFor(rule, req);
    CountRun(rs, accepts, rule, req, EMPTY, calls);
    EventsTimed(rs, accepts, rule, key, now, calls);
    FixedWindow.FixedWindowSafe(now, rule.limit, EventsFor(rs, accepts, rule, key, calls));
  }

  /** ... and an accumulate rule at most its bound, which is `2 * (base + count)` for a window of at most seven days. */
  lemma AccumulateRuleBound(rs: RuleSet, accepts: Accepts, rule: Rule, req: Request, now: int, calls: seq<Call>)
    requires Separated(rs, accepts, rule, req, calls) && rule.algorithm.Base? && ValidLimit(rule.limit) && TimedCalls(now, calls)
    requires |calls| <= MAX_INT64
    ensures var bound := Accumulate.Bound(rule.limit);
            && bound >= 0
            && (0 <= rule.limit.base && rule.limit.time <= SEVEN_DAYS ==> bound == 2 * (rule.limit.base + rule.limit.count))
            && AtMost(Admissions(rs, accepts, rule, KeyFor(rule, req), EMPTY, calls), bound, rule.limit.time)
  {
    hide ToldApart, RateRules, KeyFor, AtMost, Accumulate.Bound;
    var key := KeyFor(rule, req);
    EventsTimed(rs, accepts, rule, key, now, calls);
    assert BaseAt(EMPTY, key) == Accumulate.NO_CELLS;
    BaseRun(rs, accepts, rule, req, EMPTY, calls);
    Accumulate.AccumulateSafe(now, rule.limit, EventsFor(rs, accepts, rule, key, calls));
    Accumulate.BoundWithinAWeek(rule.limit);
  }

  // Browsing is invisible

  /** Rules that are told apart by their names, or requests with unambiguous keys. */
  ghost predicate KeysClear(rs: RuleSet, calls: seq<Call>) {
    NamesSeparate(rs) || forall c :: c in calls ==> Plain(rs, c.req)
  }

  /** The request selects a freq rule and reaches the key under it. */
  ghost predicate UsesFreqKey(rs: RuleSet, accepts: Accepts, req: Request, key: string) {
    var s := Selected(rs, req, accepts);
    s.Some? && s.value.Limited? && s.value.rule.algorithm.Leak? && KeyFor(s.value.rule, req) == key
  }

  ghost function WindowFor(rs: RuleSet, accepts: Accepts, req: Request, key: string): int
    requires UsesFreqKey(rs, accepts, req, key)
  {
    Millis(Selected(rs, req, accepts).value.rule.limit.time)
  }

  /** Calls that reach one key under freq rules do so with one window. */
  ghost predicate OneWindowAmong(rs: RuleSet, accepts: Accepts, calls: seq<Call>) {
    forall c, c', key :: c in calls && c' in calls && UsesFreqKey(rs, accepts, c.req, key) && UsesFreqKey(rs, accepts, c'.req, key)
      ==> WindowFor(rs, accepts, c.req, key) == WindowFor(rs, accepts, c'.req, key)
  }

  /** The window of the first call found that uses a key. */
  ghost function WindowByKey(rs: RuleSet, accepts: Accepts, calls: seq<Call>): WindowOf {
    key => if exists c :: c in calls && UsesFreqKey(rs, accepts, c.req, key)
           then var c :| c in calls && UsesFreqKey(rs, accepts, c.req, key); WindowFor(rs, accepts, c.req, key)
           else 0
  }

  lemma OneWindowAgrees(rs: RuleSet, accepts: Accepts, calls: seq<Call>)
    requires OneWindowAmong(rs, accepts, calls)
    ensures WindowsAgree(rs, accepts, calls, WindowByKey(rs, accepts, calls))
  {
    hide Selected, KeyFor, Millis;
    var window := WindowByKey(rs, accepts, calls);
    forall c | c in calls ensures KeyWindow(rs, accepts, c, window) {
      var s := Selected(rs, c.req, accepts);
      if s.Some? && s.value.Limited? && s.value.rule.algorithm.Leak? {
        var key := KeyFor(s.value.rule, c.req);
        assert UsesFreqKey(rs, accepts, c.req, key);
        var c' :| c' in calls && UsesFreqKey(rs, accepts, c'.req, key) && window(key) == WindowFor(rs, accepts, c'.req, key);
      }
    }
  }

  lemma SameKeySameWindow(rs: RuleSet, accepts: Accepts, req: Request, req': Request, key: string)
    requires NamesSeparate(rs) || (Plain(rs, req) && Plain(rs, req'))
    requires UsesFreqKey(rs, accepts, req, key) && UsesFreqKey(rs, accepts, req', key)
    ensures Selected(rs, req, accepts) == Selected(rs, req', accepts)
  {
    hide KeyOf, RateRules, Selected, Plain;
    var rule, rule' := Selected(rs, req, accepts).value.rule, Selected(rs, req', accepts).value.rule;
    assert key + "" == key && IsSuffix("");
    SelectedIsRateRule(rs, req, accepts);
    SelectedIsRateRule(rs, req', accepts);
    if NamesSeparate(rs) {
      if rule != rule' {
        KeysSeparateRules(rule.name, rule.conditions.Keys, req.GetField, "",
                          rule'.name, rule'.conditions.Keys, req'.GetField, "");
      }
    } else {
      SameKeySameRule(rs, accepts, req, rule, "", req', rule', "");
    }
  }

  lemma ClearKeysAgree(rs: RuleSet, accepts: Accepts, calls: seq<Call>)
    requires KeysClear(rs, calls)
    ensures OneWindowAmong(rs, accepts, calls)
  {
    hide NamesSeparate, Plain, Selected, UsesFreqKey;
    forall c, c', key | c in calls && c' in calls && UsesFreqKey(rs, accepts, c.req, key) && UsesFreqKey(rs, accepts, c'.req, key)
      ensures WindowFor(rs, accepts, c.req, key) == WindowFor(rs, accepts, c'.req, key)
    {
      SameKeySameWindow(rs, accepts, c.req, c'.req, key);
    }
  }

  /** In every run of the engine from a fresh store, browses inserted anywhere change no other answer. */
  lemma BrowseIsInvisible(rs: RuleSet, accepts: Accepts, now: int, calls: seq<Call>)
    requires TimedCalls(now, calls) && KeysClear(rs, calls)
    requires forall c :: c in calls && c.extra ==> !c.check
    ensures Answers(rs, accepts, EMPTY, calls, true) == Answers(rs, accepts, EMPTY, calls, false)
  {
    ClearKeysAgree(rs, accepts, calls);
    OneWindowAgrees(rs, accepts, calls);
    BrowseIsTransparent(rs, accepts, now, WindowByKey(rs, accepts, calls), calls);
  }
}
