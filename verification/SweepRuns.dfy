/** The store's background sweep between requests to the engine, for any rules, matchers and clock. */
module SweepRuns {
  import opened AlgorithmSpec
  import opened EngineSpec
  import opened GoTypes
  import opened Keys
  import opened Limiters
  import opened Memory

  datatype Step = Request(req: Keys.Request, check: bool, clk: Clock) | Sweep

  /** The answers to all requests, in a run that sweeps when told to or never does. */
  ghost function Answers(rs: RuleSet, accepts: Accepts, m: Mem, steps: seq<Step>, sweeping: bool): seq<Result<Response>>
    decreases steps
  {
    if steps == [] then [] else
      match steps[0]
      case Request(req, check, clk) =>
        var (next, answer) := Serve(Selected(rs, req, accepts), m, req, clk, check);
        [answer] + Answers(rs, accepts, next, steps[1..], sweeping)
      case Sweep => Answers(rs, accepts, if sweeping then m.CleanupLists() else m, steps[1..], sweeping)
  }

  /** The same counters, and the same list under every key, a missing one being empty. */
  ghost predicate SameStore(m: Mem, n: Mem) {
    m.closed == n.closed && m.counters == n.counters && forall k :: m.ListAt(k) == n.ListAt(k)
  }

  lemma SweepSame(m: Mem, n: Mem)
    requires SameStore(m, n)
    ensures SameStore(m.CleanupLists(), n)
  {
    forall k ensures m.CleanupLists().ListAt(k) == n.ListAt(k) {
      assert m.ListAt(k) == n.ListAt(k);
    }
  }

  lemma BrowseSame(a: Algorithm, m: Mem, n: Mem, key: string, lim: Limit, clk: Clock)
    requires SameStore(m, n)
    ensures Browse(a, m, key, lim, clk).1 == Browse(a, n, key, lim, clk).1
    ensures SameStore(Browse(a, m, key, lim, clk).0, Browse(a, n, key, lim, clk).0)
  {
    hide CountBrowse, BaseBrowse, Clean;
    CleanShrinks([], WindowStart(clk.b1, lim));
    assert m.ListAt(key) == n.ListAt(key);
    var m', n' := Browse(a, m, key, lim, clk).0, Browse(a, n, key, lim, clk).0;
    forall k ensures m'.ListAt(k) == n'.ListAt(k) {
      assert m.ListAt(k) == n.ListAt(k);
    }
  }

  lemma UpdateSame(a: Algorithm, m: Mem, n: Mem, key: string, lim: Limit, clk: Clock)
    requires SameStore(m, n)
    ensures SameStore(Update(a, m, key, lim, clk).0, Update(a, n, key, lim, clk).0)
  {
    hide CountUpdate, BaseUpdate, LeakUpdate;
    assert m.ListAt(key) == n.ListAt(key);
    var m', n' := Update(a, m, key, lim, clk).0, Update(a, n, key, lim, clk).0;
    forall k ensures m'.ListAt(k) == n'.ListAt(k) {
      assert m.ListAt(k) == n.ListAt(k);
    }
  }

  lemma ServeSame(choice: Option<Choice>, m: Mem, n: Mem, req: Keys.Request, clk: Clock, check: bool)
    requires SameStore(m, n)
    ensures Serve(choice, m, req, clk, check).1 == Serve(choice, n, req, clk, check).1
    ensures SameStore(Serve(choice, m, req, clk, check).0, Serve(choice, n, req, clk, check).0)
  {
    hide SameStore, Browse, Update, KeyFor, Verdict;
    if choice.Some? && choice.value.Limited? {
      var rule := choice.value.rule;
      var key := KeyFor(rule, req);
      BrowseSame(rule.algorithm, m, n, key, rule.limit, clk);
      UpdateSame(rule.algorithm, Browse(rule.algorithm, m, key, rule.limit, clk).0,
                 Browse(rule.algorithm, n, key, rule.limit, clk).0, key, rule.limit, clk);
    }
  }

  lemma {:induction false} AnswersSame(rs: RuleSet, accepts: Accepts, m: Mem, n: Mem, steps: seq<Step>)
    requires SameStore(m, n)
    ensures Answers(rs, accepts, m, steps, true) == Answers(rs, accepts, n, steps, false)
    decreases steps
  {
    hide SameStore, Serve, Selected;
    if steps != [] {
      match steps[0]
      case Request(req, check, clk) =>
        var choice := Selected(rs, req, accepts);
        ServeSame(choice, m, n, req, clk, check);
        AnswersSame(rs, accepts, Serve(choice, m, req, clk, check).0, Serve(choice, n, req, clk, check).0, steps[1..]);
      case Sweep =>
        SweepSame(m, n);
        AnswersSame(rs, accepts, m.CleanupLists(), n, steps[1..]);
    }
  }

  /** Sweeping between requests, at any points of any run of the engine, changes no answer. */
  lemma SweepIsInvisible(rs: RuleSet, accepts: Accepts, m: Mem, steps: seq<Step>)
    ensures Answers(rs, accepts, m, steps, true) == Answers(rs, accepts, m, steps, false)
  {
    AnswersSame(rs, accepts, m, m, steps);
  }
}
