/** Rule sets, and what serving one request answers and makes of the store. */
module EngineSpec {
  import opened AlgorithmSpec
  import opened GoTypes
  import opened Keys
  import opened Limiters
  import opened Memory
  import opened Patterns
  import Windows

  datatype ResultConfig = ResultConfig(code: int, message: string, authType: int)

  datatype Rule = Rule(name: string, conditions: map<string, string>, matchers: map<string, Kind>,
                       limit: Limit, algorithm: Algorithm, result: ResultConfig)

  datatype RuleSet = RuleSet(whitelist: seq<Rule>, blacklist: seq<Rule>, business: seq<Rule>,
                             post: seq<Rule>, advanced: seq<Rule>, fallback: seq<Rule>)

  datatype Response = Response(allowed: bool, code: int, message: string, ruleName: string, authType: int)

  const ALLOWED := Response(true, 0, "ok", "", 0)

  /** Whether a matcher of a kind accepts a value for a pattern. */
  type Accepts = (Kind, string, string) -> bool

  /** The precompiled matcher of a condition, or the one its pattern asks for. */
  function MatcherFor(r: Rule, field: string): Kind
    requires field in r.conditions
  {
    if field in r.matchers then r.matchers[field] else Parse(r.conditions[field])
  }

  predicate Matches(r: Rule, req: Request, accepts: Accepts) {
    forall f :: f in r.conditions ==> accepts(MatcherFor(r, f), r.conditions[f], req.GetField(f))
  }

  /** A rule and what matching it decides. */
  datatype Choice = Allow(rule: Rule) | Deny(rule: Rule) | Limited(rule: Rule)

  function Tagged(rules: seq<Rule>, tag: Rule -> Choice): (cs: seq<Choice>)
    ensures |cs| == |rules| && forall i :: 0 <= i < |rules| ==> cs[i] == tag(rules[i])
  {
    seq(|rules|, i requires 0 <= i < |rules| => tag(rules[i]))
  }

  function RateRules(rs: RuleSet): seq<Rule> {
    rs.business + rs.post + rs.advanced + rs.fallback
  }

  /** All rules in the order of their phases. */
  function Choices(rs: RuleSet): seq<Choice> {
    Tagged(rs.whitelist, r => Allow(r)) + Tagged(rs.blacklist, r => Deny(r)) + Tagged(RateRules(rs), r => Limited(r))
  }

  function FirstMatch(cs: seq<Choice>, req: Request, accepts: Accepts): Option<Choice> {
    if cs == [] then None
    else if Matches(cs[0].rule, req, accepts) then Some(cs[0])
    else FirstMatch(cs[1..], req, accepts)
  }

  function Selected(rs: RuleSet, req: Request, accepts: Accepts): Option<Choice> {
    FirstMatch(Choices(rs), req, accepts)
  }

  function Verdict(rule: Rule, allowed: bool): Response {
    Response(allowed, rule.result.code, rule.result.message, rule.name, rule.result.authType)
  }

  ghost function KeyFor(rule: Rule, req: Request): string {
    RequestKey(rule.name, rule.conditions.Keys, req)
  }

  /** Browse under the selected rule and, unless that is hit or only browsing is wanted, update; an update error is not reported. */
  ghost function Apply(rule: Rule, m: Mem, req: Request, clk: Clock, update: bool): (Mem, Result<Response>) {
    var key := KeyFor(rule, req);
    var (browsed, hit) := Browse(rule.algorithm, m, key, rule.limit, clk);
    if hit.Err? then (browsed, Err(hit.error))
    else if hit.value then (browsed, Ok(Verdict(rule, false)))
    else if update then (Update(rule.algorithm, browsed, key, rule.limit, clk).0, Ok(ALLOWED))
    else (browsed, Ok(ALLOWED))
  }

  ghost function Serve(choice: Option<Choice>, m: Mem, req: Request, clk: Clock, update: bool): (Mem, Result<Response>) {
    match choice
    case None => (m, Ok(ALLOWED))
    case Some(Allow(rule)) => (m, Ok(Verdict(rule, true)))
    case Some(Deny(rule)) => (m, Ok(Verdict(rule, false)))
    case Some(Limited(rule)) => Apply(rule, m, req, clk, update)
  }

  /** Without a store no limit is checked. */
  function ServeWithoutStore(choice: Option<Choice>): Result<Response> {
    match choice
    case Some(Allow(rule)) => Ok(Verdict(rule, true))
    case Some(Deny(rule)) => Ok(Verdict(rule, false))
    case _ => Ok(ALLOWED)
  }

  // First match

  predicate NoneMatch(rules: seq<Rule>, req: Request, accepts: Accepts) {
    forall i :: 0 <= i < |rules| ==> !Matches(rules[i], req, accepts)
  }

  /** The first match is the entry that matches and has no matching entry before it. */
  lemma {:induction false} FirstMatchAt(cs: seq<Choice>, k: nat, req: Request, accepts: Accepts)
    requires k <= |cs| && forall i :: 0 <= i < k ==> !Matches(cs[i].rule, req, accepts)
    ensures k == |cs| ==> FirstMatch(cs, req, accepts) == None
    ensures k < |cs| && Matches(cs[k].rule, req, accepts) ==> FirstMatch(cs, req, accepts) == Some(cs[k])
  {
    hide Matches;
    if k > 0 {
      FirstMatchAt(cs[1..], k - 1, req, accepts);
    }
  }

  lemma AccessSelected(rs: RuleSet, i: nat, req: Request, accepts: Accepts)
    requires i < |rs.whitelist| + |rs.blacklist|
    requires NoneMatch((rs.whitelist + rs.blacklist)[..i], req, accepts)
    requires Matches((rs.whitelist + rs.blacklist)[i], req, accepts)
    ensures Selected(rs, req, accepts)
         == Some(if i < |rs.whitelist| then Allow(rs.whitelist[i]) else Deny(rs.blacklist[i - |rs.whitelist|]))
  {
    hide Matches, FirstMatch;
    var rules := rs.whitelist + rs.blacklist;
    var cs := Choices(rs);
    assert forall j :: 0 <= j <= i ==> cs[j].rule == rules[j];
    assert forall j :: 0 <= j < i ==> rules[j] == rules[..i][j];
    FirstMatchAt(cs, i, req, accepts);
  }

  lemma RateSelected(rs: RuleSet, i: nat, req: Request, accepts: Accepts)
    requires NoneMatch(rs.whitelist, req, accepts) && NoneMatch(rs.blacklist, req, accepts)
    requires i <= |RateRules(rs)| && NoneMatch(RateRules(rs)[..i], req, accepts)
    ensures i < |RateRules(rs)| && Matches(RateRules(rs)[i], req, accepts) ==>
              Selected(rs, req, accepts) == Some(Limited(RateRules(rs)[i]))
    ensures i == |RateRules(rs)| ==> Selected(rs, req, accepts) == None
  {
    hide Matches, FirstMatch, RateRules;
    var rate := RateRules(rs);
    var w, b := |rs.whitelist|, |rs.blacklist|;
    var cs := Choices(rs);
    assert forall j :: 0 <= j < w ==> cs[j].rule == rs.whitelist[j];
    assert forall j :: w <= j < w + b ==> cs[j].rule == rs.blacklist[j - w];
    assert forall j :: w + b <= j < |cs| ==> cs[j] == Limited(rate[j - w - b]);
    assert forall j :: 0 <= j < i ==> rate[j] == rate[..i][j];
    FirstMatchAt(cs, w + b + i, req, accepts);
  }

  // What a request must be answered, field by field

  /** `rules[i]` matches, and no rule before it. */
  predicate FirstIn(rules: seq<Rule>, i: nat, req: Request, accepts: Accepts) {
    i < |rules| && Matches(rules[i], req, accepts) && forall j :: 0 <= j < i ==> !Matches(rules[j], req, accepts)
  }

  /** The answer carries what the rule is configured to say. */
  predicate SaysAs(r: Response, rule: Rule) {
    r.code == rule.result.code && r.message == rule.result.message && r.ruleName == rule.name && r.authType == rule.result.authType
  }

  /** The value of a counter that has not expired. */
  function LiveValue(m: Mem, key: string, now: int): Option<int> {
    if key in m.counters && (m.counters[key].expires.At? ==> now <= m.counters[key].expires.time)
    then Some(m.counters[key].value) else None
  }

  /** Whether a rate rule's limit is used up, read off what the store holds. */
  predicate LimitHit(rule: Rule, m: Mem, key: string, clk: Clock) {
    match rule.algorithm
    case Direct => true
    case Count => var n := LiveValue(m, key, clk.b1); n.Some? && n.value >= rule.limit.count
    case Base =>
      var total, n := LiveValue(m, key + ":total", clk.b1), LiveValue(m, key + ":secondary", clk.b2);
      (if total.Some? then total.value else 0) > rule.limit.base && (if n.Some? then n.value else 0) >= rule.limit.count
    case Leak =>
      var l := if key in m.lists then m.lists[key] else [];
      |Clean(l, clk.b1 / 1_000_000 - rule.limit.time / 1_000_000)| >= rule.limit.count
  }

  /**
   * The answer to a request and what becomes of the store, if there is one: whitelist rules before
   * blacklist rules before the rate rules in their four phases, and of each the first that matches.
   */
  ghost predicate Answered(rs: RuleSet, req: Request, accepts: Accepts, store: Option<Mem>, after: Option<Mem>,
                           clk: Clock, r: Result<Response>)
  {
    var rate := rs.business + rs.post + rs.advanced + rs.fallback;
    && (forall i: nat :: FirstIn(rs.whitelist, i, req, accepts) ==>
          after == store && r.Ok? && r.value.allowed && SaysAs(r.value, rs.whitelist[i]))
    && (NoneMatch(rs.whitelist, req, accepts) ==>
          forall i: nat :: FirstIn(rs.blacklist, i, req, accepts) ==>
            after == store && r.Ok? && !r.value.allowed && SaysAs(r.value, rs.blacklist[i]))
    && (NoneMatch(rs.whitelist, req, accepts) && NoneMatch(rs.blacklist, req, accepts) ==>
          && (NoneMatch(rate, req, accepts) || store.None? ==> after == store && r == Ok(Response(true, 0, "ok", "", 0)))
          && (store.Some? ==> forall i: nat :: FirstIn(rate, i, req, accepts) ==> RateAnswered(rate[i], req, store.value, clk, r)))
  }

  /** The answer of a selected rate rule; a closed store is an error to all but the direct algorithm. */
  ghost predicate RateAnswered(rule: Rule, req: Request, m: Mem, clk: Clock, r: Result<Response>) {
    if m.closed && !rule.algorithm.Direct? then r == Err(StorageClosed)
    else
      && r.Ok? && (r.value.allowed <==> !LimitHit(rule, m, KeyFor(rule, req), clk))
      && if r.value.allowed then r.value == Response(true, 0, "ok", "", 0) else SaysAs(r.value, rule)
  }

  /** Where a rule matches, one is the first. */
  lemma {:induction false} FirstExists(rules: seq<Rule>, i: nat, req: Request, accepts: Accepts) returns (k: nat)
    requires i < |rules| && Matches(rules[i], req, accepts)
    ensures FirstIn(rules, k, req, accepts)
    decreases i
  {
    hide Matches;
    if j: nat :| j < i && Matches(rules[j], req, accepts) {
      k := FirstExists(rules, j, req, accepts);
    } else {
      k := i;
    }
  }

  lemma ApplyAnswers(rule: Rule, m: Mem, req: Request, clk: Clock, update: bool)
    ensures RateAnswered(rule, req, m, clk, Apply(rule, m, req, clk, update).1)
  {
    hide Update, KeyFor, Clean;
  }

  /** For every rule set, store, request and reading of the clock. */
  lemma ServeAnswers(rs: RuleSet, m: Mem, req: Request, accepts: Accepts, clk: Clock, update: bool)
    ensures var choice := Selected(rs, req, accepts);
            && Answered(rs, req, accepts, Some(m), Some(Serve(choice, m, req, clk, update).0), clk, Serve(choice, m, req, clk, update).1)
            && Answered(rs, req, accepts, None, None, clk, ServeWithoutStore(choice))
  {
    hide Matches, Selected, Apply, RateAnswered, KeyFor;
    var access, rate := rs.whitelist + rs.blacklist, rs.business + rs.post + rs.advanced + rs.fallback;
    forall i: nat | FirstIn(rs.whitelist, i, req, accepts) ensures Selected(rs, req, accepts) == Some(Allow(rs.whitelist[i])) {
      assert access[..i] == rs.whitelist[..i];
      AccessSelected(rs, i, req, accepts);
    }
    if NoneMatch(rs.whitelist, req, accepts) {
      forall i: nat | FirstIn(rs.blacklist, i, req, accepts) ensures Selected(rs, req, accepts) == Some(Deny(rs.blacklist[i])) {
        assert access[..|rs.whitelist| + i] == rs.whitelist + rs.blacklist[..i];
        AccessSelected(rs, |rs.whitelist| + i, req, accepts);
      }
      if NoneMatch(rs.blacklist, req, accepts) {
        assert rate[..|rate|] == rate == RateRules(rs);
        if NoneMatch(rate, req, accepts) {
          RateSelected(rs, |rate|, req, accepts);
        } else {
          var j: nat :| j < |rate| && Matches(rate[j], req, accepts);
          var i := FirstExists(rate, j, req, accepts);
          RateSelected(rs, i, req, accepts);
        }
        forall i: nat | FirstIn(rate, i, req, accepts)
          ensures Selected(rs, req, accepts) == Some(Limited(rate[i]))
          ensures RateAnswered(rate[i], req, m, clk, Apply(rate[i], m, req, clk, update).1)
        {
          RateSelected(rs, i, req, accepts);
          ApplyAnswers(rate[i], m, req, clk, update);
        }
      }
    }
  }

  // What an admitted check leaves in the store

  /** The counter has gone up by one since `m`, live at `now` or made with an expiry counted from `stamp`. */
  predicate Bumped(m: Mem, after: Mem, key: string, ttl: int, now: int, stamp: int) {
    key in after.counters && after.counters[key] == match LiveValue(m, key, now)
                                                    case Some(n) => m.counters[key].(value := Wrap64(n + 1))
                                                    case None => Windows.Counter(1, Windows.At(stamp + ttl))
  }

  /** The total counter and, above the base, the secondary one. */
  predicate BaseBumped(m: Mem, after: Mem, key: string, lim: Limit, clk: Clock) {
    var total, secondary := key + ":total", key + ":secondary";
    && Bumped(m, after, total, Min(Max(10 * lim.time, 3_600_000_000_000), 604_800_000_000_000), clk.u1, clk.u2)
    && if after.counters[total].value > lim.base then Bumped(m, after, secondary, lim.time, clk.u3, clk.u4)
       else LiveValue(after, secondary, clk.u4) == LiveValue(m, secondary, clk.u4)
  }

  /** Dropping a counter earlier does not change what a bump leaves. */
  lemma DroppedBump(c: Windows.Cell, t: int, ttl: int, now: int, stamp: int)
    requires t <= now && ttl > 0
    ensures Windows.Drop(Windows.Drop(c, t), now) == Windows.Drop(c, now)
    ensures Windows.Add(Windows.Drop(c, t), 1, ttl, now, stamp) == Windows.Add(c, 1, ttl, now, stamp)
    ensures Windows.Add(c, 1, ttl, now, stamp) == match Windows.Drop(c, now)
                                                  case Some(e) => e.(value := Wrap64(e.value + 1))
                                                  case None => Windows.Counter(1, Windows.At(stamp + ttl))
  {
    hide Wrap64;
    assert Wrap64(1) == 1;
  }

  lemma LiveCell(m: Mem, key: string, now: int)
    ensures var c := Windows.Drop(m.CellAt(key), now);
            LiveValue(m, key, now) == if c.Some? then Some(c.value.value) else None
    ensures var c := Windows.Drop(m.CellAt(key), now); c.Some? ==> m.CellAt(key) == c
  {
  }

  lemma BaseBumps(m: Mem, key: string, lim: Limit, clk: Clock)
    requires !m.closed && ValidLimit(lim) && clk.From(clk.b1) && IsInt64(10 * lim.time)
    requires !BaseBrowse(BaseAt(m, key), lim, clk).1
    ensures BaseBumped(m, Update(Base, Browse(Base, m, key, lim, clk).0, key, lim, clk).0, key, lim, clk)
  {
    hide Wrap64, Windows.Add, Windows.Drop, LiveValue;
    var ttl := ClampTTL(lim.time);
    assert ttl == Min(Max(10 * lim.time, 3_600_000_000_000), 604_800_000_000_000);
    hide ClampTTL;
    var total, secondary := key + ":total", key + ":secondary";
    SuffixesSeparate(key, key);
    var after := Update(Base, Browse(Base, m, key, lim, clk).0, key, lim, clk).0;
    DroppedBump(m.CellAt(total), clk.b1, ttl, clk.u1, clk.u2);
    DroppedBump(m.CellAt(secondary), clk.b2, lim.time, clk.u3, clk.u4);
    DroppedBump(m.CellAt(secondary), clk.b2, lim.time, clk.u4, clk.u4);
    LiveCell(m, total, clk.u1);
    LiveCell(m, secondary, clk.u3);
    LiveCell(m, secondary, clk.u4);
    LiveCell(after, secondary, clk.u4);
  }

  /**
   * An admitted check has bumped its rule's counter, or the total counter and above the base the
   * secondary one, or has put the time in front of its list, each as the clock reads then.
   */
  lemma AdmittedBumps(rule: Rule, m: Mem, req: Request, clk: Clock)
    requires !m.closed && ValidLimit(rule.limit) && clk.From(clk.b1)
    requires IsInt64(10 * rule.limit.time)
    ensures var (after, r) := Apply(rule, m, req, clk, true);
            var key := KeyFor(rule, req);
            r.Ok? && r.value.allowed ==>
              match rule.algorithm
              case Direct => false
              case Count => Bumped(m, after, key, rule.limit.time, clk.u1, clk.u2)
              case Base => BaseBumped(m, after, key, rule.limit, clk)
              case Leak => key in after.lists && after.lists[key] != [] && after.lists[key][0] == clk.u2 / 1_000_000
  {
    hide KeyFor, Clean, Wrap64, BaseBumped;
    assert Wrap64(1) == 1;
    if rule.algorithm.Base? && !BaseBrowse(BaseAt(m, KeyFor(rule, req)), rule.limit, clk).1 {
      BaseBumps(m, KeyFor(rule, req), rule.limit, clk);
    }
  }

  // What a rule matches

  /** A rule without conditions matches every request. */
  lemma NoConditionsMatch(r: Rule, req: Request, accepts: Accepts)
    requires r.conditions == map[]
    ensures Matches(r, req, accepts)
  {
  }

  /** One more condition: both the rule without it and the added pattern, by its own matcher, must accept the request. */
  lemma OneMoreCondition(r: Rule, field: string, pattern: string, req: Request, accepts: Accepts)
    requires field !in r.conditions
    ensures Matches(r.(conditions := r.conditions[field := pattern]), req, accepts)
       <==> && Matches(r, req, accepts)
            && accepts(if field in r.matchers then r.matchers[field] else Parse(pattern), pattern, req.GetField(field))
  {
    hide Request.GetField, Parse;
    var more := r.(conditions := r.conditions[field := pattern]);
    if Matches(more, req, accepts) {
      assert field in more.conditions;
      forall f | f in r.conditions ensures accepts(MatcherFor(r, f), r.conditions[f], req.GetField(f)) {
        assert f in more.conditions && MatcherFor(more, f) == MatcherFor(r, f);
      }
    }
  }

  // What a request can change

  /** Serving a request leaves every key alone that the selected rate rule does not own. */
  lemma ServeFrame(choice: Option<Choice>, m: Mem, req: Request, clk: Clock, update: bool, other: string)
    requires choice.Some? && choice.value.Limited? ==> !Owns(choice.value.rule.algorithm, KeyFor(choice.value.rule, req), other)
    ensures SameAt(m, Serve(choice, m, req, clk, update).0, other)
  {
    hide Browse, Update, KeyFor, Owns;
    if choice.Some? && choice.value.Limited? {
      var rule := choice.value.rule;
      var key := KeyFor(rule, req);
      BrowseFrame(rule.algorithm, m, key, rule.limit, clk, other);
      UpdateFrame(rule.algorithm, Browse(rule.algorithm, m, key, rule.limit, clk).0, key, rule.limit, clk, other);
    }
  }

  /** A counter is kept or, having expired when the request browses, dropped. */
  predicate KeptOrExpired(before: Windows.Cell, after: Windows.Cell, clk: Clock) {
    after == before || (after == None && (Windows.Drop(before, clk.b1) == None || Windows.Drop(before, clk.b2) == None))
  }

  lemma DropKeeps(c: Windows.Cell, clk: Clock)
    ensures KeptOrExpired(c, Windows.Drop(c, clk.b1), clk) && KeptOrExpired(c, Windows.Drop(c, clk.b2), clk)
  {
  }

  /** Browsing does no more than that to any counter, and no more than clean any list. */
  lemma BrowseOnlyDrops(a: Algorithm, m: Mem, key: string, lim: Limit, clk: Clock, other: string)
    ensures var after := Browse(a, m, key, lim, clk).0;
            && KeptOrExpired(m.CellAt(other), after.CellAt(other), clk)
            && (after.ListAt(other) == m.ListAt(other) || after.ListAt(other) == Clean(m.ListAt(other), WindowStart(clk.b1, lim)))
  {
    hide Windows.Drop, KeptOrExpired, Clean;
    if !Owns(a, key, other) {
      hide Browse;
      BrowseFrame(a, m, key, lim, clk, other);
      SameKept(m.CellAt(other), clk);
    } else {
      SameKept(m.CellAt(other), clk);
      DropKeeps(m.CellAt(other), clk);
    }
  }

  lemma SameKept(c: Windows.Cell, clk: Clock)
    ensures KeptOrExpired(c, c, clk)
  {
  }

  /** A request that is not admitted by a rate rule increments nothing and pushes nothing. */
  lemma DeniedLeavesCounters(choice: Option<Choice>, m: Mem, req: Request, clk: Clock, update: bool, key: string)
    requires Serve(choice, m, req, clk, update).1 != Ok(ALLOWED)
    ensures var after := Serve(choice, m, req, clk, update).0;
            && KeptOrExpired(m.CellAt(key), after.CellAt(key), clk)
            && (after.ListAt(key) == m.ListAt(key)
                || (choice.Some? && after.ListAt(key) == Clean(m.ListAt(key), WindowStart(clk.b1, choice.value.rule.limit))))
  {
    hide Browse, Update, KeyFor, KeptOrExpired, Clean;
    SameKept(m.CellAt(key), clk);
    if choice.Some? && choice.value.Limited? {
      var rule := choice.value.rule;
      BrowseOnlyDrops(rule.algorithm, m, KeyFor(rule, req), rule.limit, clk, key);
    }
  }
}

/** The engine (engine.go). */
module Engine {
  import opened AlgorithmSpec
  import opened Algorithms
  import opened EngineSpec
  import opened GoTypes
  import opened Keys
  import opened Limiters
  import opened LocalStorage
  import opened Memory

  class Engine {
    var rules: RuleSet
    var storage: LocalStorage?
    const accepts: Accepts

    constructor (storage: LocalStorage?, accepts: Accepts)
      ensures rules == RuleSet([], [], [], [], [], []) && this.storage == storage && this.accepts == accepts
    {
      rules := RuleSet([], [], [], [], [], []);
      this.storage, this.accepts := storage, accepts;
    }

    /** Conditions are tried in whatever order the map is iterated, up to the first that fails. */
    method MatchesScan(r: Rule, req: Request) returns (ok: bool)
      ensures ok == Matches(r, req, accepts)
    {
      var rest := r.conditions.Keys;
      while rest != {}
        invariant rest <= r.conditions.Keys
        invariant forall f :: f in r.conditions && f !in rest ==> accepts(MatcherFor(r, f), r.conditions[f], req.GetField(f))
      {
        var field :| field in rest;
        rest := rest - {field};
        if !accepts(MatcherFor(r, field), r.conditions[field], req.GetField(field)) {
          return false;
        }
      }
      return true;
    }

    ghost function StorageRepr(): set<object>
      reads this, storage
    {
      if storage == null then {} else storage.Repr
    }

    ghost predicate Valid()
      reads this, storage, StorageRepr()
    {
      storage != null ==> storage.Valid() && this !in storage.Repr
    }

    ghost function Store(): Option<Mem>
      reads this, storage, StorageRepr()
      requires Valid()
    {
      if storage == null then None else Some(storage.State())
    }

    /** Browse and, when not hit, update under one rate rule; without a store nothing is limited. */
    method LimitRule(rule: Rule, req: Request, clk: Clock, updateOnMatch: bool) returns (r: Result<Response>)
      requires Valid()
      modifies StorageRepr()
      ensures Valid() && fresh(StorageRepr() - old(StorageRepr()))
      ensures storage == null ==> r == Ok(ALLOWED)
      ensures storage != null ==> storage.State() == Apply(rule, old(storage.State()), req, clk, updateOnMatch).0
      ensures storage != null ==> r == Apply(rule, old(storage.State()), req, clk, updateOnMatch).1
    {
      hide Browse, Update, RequestKey;
      if storage == null {
        return Ok(ALLOWED);
      }
      var key := GenerateKey(rule.name, rule.conditions, req);
      var hit := BrowseStore(rule.algorithm, storage, key, rule.limit, clk);
      if hit.Err? {
        return Err(hit.error);
      }
      if hit.value {
        return Ok(Verdict(rule, false));
      }
      if updateOnMatch {
        var _ := UpdateStore(rule.algorithm, storage, key, rule.limit, clk);
      }
      return Ok(ALLOWED);
    }

    /** Access control: the whitelist, then the blacklist. */
    method MatchAccess(rs: RuleSet, req: Request) returns (found: Option<Choice>)
      ensures found.Some? ==> !found.value.Limited? && Selected(rs, req, accepts) == found
      ensures found.None? ==> NoneMatch(rs.whitelist, req, accepts) && NoneMatch(rs.blacklist, req, accepts)
    {
      hide Matches, Selected;
      for i := 0 to |rs.whitelist|
        invariant NoneMatch(rs.whitelist[..i], req, accepts)
      {
        var ok := MatchesScan(rs.whitelist[i], req);
        if ok {
          assert (rs.whitelist + rs.blacklist)[..i] == rs.whitelist[..i];
          AccessSelected(rs, i, req, accepts);
          return Some(Allow(rs.whitelist[i]));
        }
      }
      for i := 0 to |rs.blacklist|
        invariant NoneMatch(rs.blacklist[..i], req, accepts)
      {
        var ok := MatchesScan(rs.blacklist[i], req);
        if ok {
          ghost var n := |rs.whitelist| + i;
          assert (rs.whitelist + rs.blacklist)[..n] == rs.whitelist + rs.blacklist[..i];
          AccessSelected(rs, n, req, accepts);
          return Some(Deny(rs.blacklist[i]));
        }
      }
      return None;
    }

    /** The nested loops over the phases answer and change the store as the first matching rule demands. */
    method MatchRules(req: Request, clk: Clock, updateOnMatch: bool) returns (r: Result<Response>)
      requires Valid()
      modifies StorageRepr()
      ensures Valid() && fresh(StorageRepr() - old(StorageRepr()))
      ensures var choice := Selected(old(rules), req, accepts);
              && (storage == null ==> r == ServeWithoutStore(choice))
              && (storage != null ==>
                    && storage.State() == Serve(choice, old(storage.State()), req, clk, updateOnMatch).0
                    && r == Serve(choice, old(storage.State()), req, clk, updateOnMatch).1)
    {
      hide Matches, Selected, Apply;
      var access := MatchAccess(rules, req);
      match access {
        case Some(Allow(rule)) => r := Ok(Verdict(rule, true));
        case Some(choice) => r := Ok(Verdict(choice.rule, false));
        case None => r := MatchRateRules(rules, req, clk, updateOnMatch);
      }
    }

    method MatchRateRules(rs: RuleSet, req: Request, clk: Clock, updateOnMatch: bool) returns (r: Result<Response>)
      requires Valid() && NoneMatch(rs.whitelist, req, accepts) && NoneMatch(rs.blacklist, req, accepts)
      modifies StorageRepr()
      ensures Valid() && fresh(StorageRepr() - old(StorageRepr()))
      ensures var choice := Selected(rs, req, accepts);
              && (storage == null ==> r == ServeWithoutStore(choice))
              && (storage != null ==>
                    && storage.State() == Serve(choice, old(storage.State()), req, clk, updateOnMatch).0
                    && r == Serve(choice, old(storage.State()), req, clk, updateOnMatch).1)
    {
      hide Matches, Selected, Apply, RateRules;
      var phases := [rs.business, rs.post, rs.advanced, rs.fallback];
      ghost var rate := RateRules(rs);
      ghost var done := 0;
      for p := 0 to |phases|
        invariant Valid() && storage == old(storage) && StorageRepr() == old(StorageRepr())
        invariant storage != null ==> storage.State() == old(storage.State())
        invariant 0 <= done <= |rate| && NoneMatch(rate[..done], req, accepts)
        invariant done == PhaseStart(rs, p)
      {
        PhaseSlice(rs, p);
        for i := 0 to |phases[p]|
          invariant Valid() && storage == old(storage) && StorageRepr() == old(StorageRepr())
          invariant storage != null ==> storage.State() == old(storage.State())
          invariant NoneMatch(rate[..done + i], req, accepts)
        {
          assert rate[done + i] == phases[p][i];
          var ok := MatchesScan(phases[p][i], req);
          if ok {
            RateSelected(rs, done + i, req, accepts);
            r := LimitRule(phases[p][i], req, clk, updateOnMatch);
            return;
          }
          assert rate[..done + i + 1] == rate[..done + i] + [rate[done + i]];
        }
        done := done + |phases[p]|;
      }
      PhaseSlice(rs, 0);
      RateSelected(rs, |rate|, req, accepts);
      return Ok(ALLOWED);
    }

    method Check(req: Request, clk: Clock) returns (r: Result<Response>)
      requires Valid()
      modifies StorageRepr()
      ensures Valid() && fresh(StorageRepr() - old(StorageRepr()))
      ensures var choice := Selected(old(rules), req, accepts);
              && (storage == null ==> r == ServeWithoutStore(choice))
              && (storage != null ==>
                    && storage.State() == Serve(choice, old(storage.State()), req, clk, true).0
                    && r == Serve(choice, old(storage.State()), req, clk, true).1)
      ensures Answered(old(rules), req, accepts, old(Store()), Store(), clk, r)
    {
      hide Serve, ServeWithoutStore, Selected, Answered;
      if storage != null {
        ServeAnswers(rules, storage.State(), req, accepts, clk, true);
      } else {
        ServeAnswers(rules, Mem(map[], map[], false), req, accepts, clk, true);
      }
      r := MatchRules(req, clk, true);
    }

    /** Only look: the same decision, without the update. */
    method BrowseOnly(req: Request, clk: Clock) returns (r: Result<Response>)
      requires Valid()
      modifies StorageRepr()
      ensures Valid() && fresh(StorageRepr() - old(StorageRepr()))
      ensures var choice := Selected(old(rules), req, accepts);
              && (storage == null ==> r == ServeWithoutStore(choice))
              && (storage != null ==>
                    && storage.State() == Serve(choice, old(storage.State()), req, clk, false).0
                    && r == Serve(choice, old(storage.State()), req, clk, false).1)
      ensures Answered(old(rules), req, accepts, old(Store()), Store(), clk, r)
    {
      hide Serve, ServeWithoutStore, Selected, Answered;
      if storage != null {
        ServeAnswers(rules, storage.State(), req, accepts, clk, false);
      } else {
        ServeAnswers(rules, Mem(map[], map[], false), req, accepts, clk, false);
      }
      r := MatchRules(req, clk, false);
    }
  }

  /** Where a phase begins in the concatenation of the rate rules. */
  ghost function PhaseStart(rs: RuleSet, p: nat): nat {
    (if p > 0 then |rs.business| else 0) + (if p > 1 then |rs.post| else 0)
    + (if p > 2 then |rs.advanced| else 0) + (if p > 3 then |rs.fallback| else 0)
  }

  lemma PhaseSlice(rs: RuleSet, p: nat)
    requires p < 4
    ensures var phase := [rs.business, rs.post, rs.advanced, rs.fallback][p];
            var start := PhaseStart(rs, p);
            && start + |phase| == PhaseStart(rs, p + 1) <= |RateRules(rs)| == PhaseStart(rs, 4)
            && RateRules(rs)[start..start + |phase|] == phase
  {
  }
}
