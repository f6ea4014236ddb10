/**
 * Browsing changes nothing that any later request can see, although it deletes expired counters
 * and trims timestamp lists.
 */
module Transparency {
  import opened AlgorithmSpec
  import opened EngineSpec
  import opened GoTypes
  import opened Keys
  import opened Limiters
  import opened Lists
  import opened Memory
  import opened SlidingWindow
  import opened Windows

  /** For each key the window, in milliseconds, of the freq rule that uses it. */
  type WindowOf = string -> int

  /** Timestamps are non-increasing and not in the future. */
  predicate Ordered(l: seq<int>, now: int) {
    Nonincreasing(l) && forall i :: 0 <= i < |l| ==> l[i] <= Millis(now)
  }

  /** Two stores that nobody can tell apart from `now` on. */
  ghost predicate Equiv(m: Mem, n: Mem, now: int, window: WindowOf) {
    && m.closed == n.closed
    && (forall k :: Drop(m.CellAt(k), now) == Drop(n.CellAt(k), now))
    && (forall k :: EquivLists(m.ListAt(k), n.ListAt(k), now, window(k)))
  }

  ghost predicate EquivLists(l: seq<int>, l': seq<int>, now: int, window: int) {
    && Ordered(l, now) && Ordered(l', now)
    && Clean(l, Millis(now) - window) == Clean(l', Millis(now) - window)
  }

  lemma EquivListsLater(l: seq<int>, l': seq<int>, now: int, window: int, t: int)
    requires EquivLists(l, l', now, window) && now <= t
    ensures EquivLists(l, l', t, window)
  {
    var w, w' := Millis(now) - window, Millis(t) - window;
    CleanTwice(l, w, w');
    CleanTwice(l', w, w');
  }

  /** Cleaning one of two lists keeps them equivalent. */
  lemma EquivListsClean(l: seq<int>, l': seq<int>, now: int, window: int)
    requires EquivLists(l, l', now, window)
    ensures EquivLists(Clean(l, Millis(now) - window), l', now, window)
  {
    CleanTwice(l, Millis(now) - window, Millis(now) - window);
    CleanKeepsOrClears(l, Millis(now) - window);
  }

  lemma EquivLater(m: Mem, n: Mem, now: int, window: WindowOf, t: int)
    requires Equiv(m, n, now, window) && now <= t
    ensures Equiv(m, n, t, window)
  {
    hide EquivLists;
    forall k ensures Drop(m.CellAt(k), t) == Drop(n.CellAt(k), t) {
      assert Drop(m.CellAt(k), now) == Drop(n.CellAt(k), now);
    }
    forall k ensures EquivLists(m.ListAt(k), n.ListAt(k), t, window(k)) {
      EquivListsLater(m.ListAt(k), n.ListAt(k), now, window(k), t);
    }
  }

  lemma EquivSymmetric(m: Mem, n: Mem, now: int, window: WindowOf)
    requires Equiv(m, n, now, window)
    ensures Equiv(n, m, now, window)
  {
    forall k ensures EquivLists(n.ListAt(k), m.ListAt(k), now, window(k)) {
      assert EquivLists(m.ListAt(k), n.ListAt(k), now, window(k));
    }
  }

  lemma EquivWithCell(m: Mem, n: Mem, now: int, window: WindowOf, key: string, c: Cell, d: Cell)
    requires Equiv(m, n, now, window) && Drop(c, now) == Drop(d, now)
    ensures Equiv(m.WithCell(key, c), n.WithCell(key, d), now, window)
  {
    hide EquivLists;
    var m', n' := m.WithCell(key, c), n.WithCell(key, d);
    forall k ensures Drop(m'.CellAt(k), now) == Drop(n'.CellAt(k), now) {
      assert Drop(m.CellAt(k), now) == Drop(n.CellAt(k), now);
    }
    forall k ensures EquivLists(m'.ListAt(k), n'.ListAt(k), now, window(k)) {
      assert EquivLists(m.ListAt(k), n.ListAt(k), now, window(k));
    }
  }

  /** A cell written back unchanged is no change. */
  lemma SameCell(m: Mem, key: string)
    ensures m.WithCell(key, m.CellAt(key)) == m
  {
  }

  lemma EquivCell(m: Mem, n: Mem, now: int, window: WindowOf, key: string, c: Cell)
    requires Equiv(m, n, now, window) && Drop(c, now) == Drop(n.CellAt(key), now)
    ensures Equiv(m.WithCell(key, c), n, now, window)
  {
    SameCell(n, key);
    EquivWithCell(m, n, now, window, key, c, n.CellAt(key));
  }

  ghost predicate SetsList(m: Mem, m': Mem, key: string, l: seq<int>) {
    m'.closed == m.closed && m'.counters == m.counters && forall k :: m'.ListAt(k) == if k == key then l else m.ListAt(k)
  }

  lemma EquivSetsList(m: Mem, n: Mem, now: int, window: WindowOf, key: string, m': Mem, l: seq<int>, n': Mem, l': seq<int>)
    requires Equiv(m, n, now, window) && EquivLists(l, l', now, window(key))
    requires SetsList(m, m', key, l) && SetsList(n, n', key, l')
    ensures Equiv(m', n', now, window)
  {
    hide EquivLists;
    forall k ensures Drop(m'.CellAt(k), now) == Drop(n'.CellAt(k), now) {
      assert Drop(m.CellAt(k), now) == Drop(n.CellAt(k), now);
    }
    forall k ensures EquivLists(m'.ListAt(k), n'.ListAt(k), now, window(k)) {
      assert EquivLists(m.ListAt(k), n.ListAt(k), now, window(k));
    }
  }

  lemma EquivTransitive(a: Mem, b: Mem, c: Mem, now: int, window: WindowOf)
    requires Equiv(a, b, now, window) && Equiv(b, c, now, window)
    ensures Equiv(a, c, now, window)
  {
    forall k ensures Drop(a.CellAt(k), now) == Drop(c.CellAt(k), now) {
      assert Drop(a.CellAt(k), now) == Drop(b.CellAt(k), now) == Drop(c.CellAt(k), now);
    }
    forall k ensures EquivLists(a.ListAt(k), c.ListAt(k), now, window(k)) {
      assert EquivLists(a.ListAt(k), b.ListAt(k), now, window(k)) && EquivLists(b.ListAt(k), c.ListAt(k), now, window(k));
    }
  }

  // One request. A key of a freq rule has that rule's window.

  ghost predicate HasWindow(a: Algorithm, key: string, lim: Limit, window: WindowOf) {
    a.Leak? ==> window(key) == Millis(lim.time)
  }

  lemma BrowseCountKeeps(m: Mem, n: Mem, now: int, window: WindowOf, key: string, lim: Limit, clk: Clock)
    requires Equiv(m, n, now, window) && clk.From(now) && !m.closed
    ensures Browse(Count, m, key, lim, clk).1 == Browse(Count, n, key, lim, clk).1
    ensures Equiv(Browse(Count, m, key, lim, clk).0, n, clk.b2, window)
  {
    hide EquivLists;
    EquivLater(m, n, now, window, clk.b1);
    assert Drop(m.CellAt(key), clk.b1) == Drop(n.CellAt(key), clk.b1);
    EquivCell(m, n, clk.b1, window, key, Drop(m.CellAt(key), clk.b1));
    EquivLater(Browse(Count, m, key, lim, clk).0, n, clk.b1, window, clk.b2);
  }

  /** What a browse of the two accumulate counters answers depends only on what is live. */
  lemma BaseAnswers(c: BaseCells, d: BaseCells, lim: Limit, clk: Clock)
    requires Drop(c.total, clk.b1) == Drop(d.total, clk.b1) && Drop(c.secondary, clk.b2) == Drop(d.secondary, clk.b2)
    ensures var (c', hit) := BaseBrowse(c, lim, clk);
            && hit == BaseBrowse(d, lim, clk).1
            && c'.total == Drop(c.total, clk.b1)
            && Drop(c'.secondary, clk.b2) == Drop(d.secondary, clk.b2)
  {
  }

  lemma BrowseBaseKeeps(m: Mem, n: Mem, now: int, window: WindowOf, key: string, lim: Limit, clk: Clock)
    requires Equiv(m, n, now, window) && clk.From(now) && !m.closed
    ensures Browse(Base, m, key, lim, clk).1 == Browse(Base, n, key, lim, clk).1
    ensures Equiv(Browse(Base, m, key, lim, clk).0, n, clk.b2, window)
  {
    hide EquivLists, BaseBrowse, TotalKey, SecondaryKey;
    var t, s := TotalKey(key), SecondaryKey(key);
    EquivLater(m, n, now, window, clk.b1);
    EquivLater(m, n, now, window, clk.b2);
    assert Drop(m.CellAt(t), clk.b1) == Drop(n.CellAt(t), clk.b1) && Drop(m.CellAt(s), clk.b2) == Drop(n.CellAt(s), clk.b2);
    BaseAnswers(BaseAt(m, key), BaseAt(n, key), lim, clk);
    var c := BaseBrowse(BaseAt(m, key), lim, clk).0;
    EquivCell(m, n, clk.b1, window, t, c.total);
    EquivLater(m.WithCell(t, c.total), n, clk.b1, window, clk.b2);
    EquivCell(m.WithCell(t, c.total), n, clk.b2, window, s, c.secondary);
  }

  lemma BrowseLeakKeeps(m: Mem, n: Mem, now: int, window: WindowOf, key: string, lim: Limit, clk: Clock)
    requires Equiv(m, n, now, window) && clk.From(now) && !m.closed && window(key) == Millis(lim.time)
    ensures Browse(Leak, m, key, lim, clk).1 == Browse(Leak, n, key, lim, clk).1
    ensures Equiv(Browse(Leak, m, key, lim, clk).0, n, clk.b2, window)
  {
    hide Millis, Clean;
    EquivLater(m, n, now, window, clk.b1);
    var l, l' := m.ListAt(key), n.ListAt(key);
    assert EquivLists(l, l', clk.b1, window(key));
    EquivListsClean(l, l', clk.b1, window(key));
    var m' := Browse(Leak, m, key, lim, clk).0;
    CleanShrinks([], WindowStart(clk.b1, lim));
    assert SetsList(m, m', key, Clean(l, WindowStart(clk.b1, lim)));
    assert SetsList(n, n, key, l');
    EquivSetsList(m, n, clk.b1, window, key, m', Clean(l, WindowStart(clk.b1, lim)), n, l');
    EquivLater(m', n, clk.b1, window, clk.b2);
  }

  lemma BrowseKeeps(a: Algorithm, m: Mem, n: Mem, now: int, window: WindowOf, key: string, lim: Limit, clk: Clock)
    requires Equiv(m, n, now, window) && clk.From(now) && HasWindow(a, key, lim, window)
    ensures Browse(a, m, key, lim, clk).1 == Browse(a, n, key, lim, clk).1
    ensures Equiv(Browse(a, m, key, lim, clk).0, n, clk.b2, window)
  {
    hide Equiv, CountBrowse, BaseBrowse, LeakBrowse;
    if a.Direct? || m.closed {
      EquivLater(m, n, now, window, clk.b2);
      assert m.closed == n.closed by {
        SameClosed(m, n, now, window);
      }
    } else {
      match a
      case Count => BrowseCountKeeps(m, n, now, window, key, lim, clk);
      case Base => BrowseBaseKeeps(m, n, now, window, key, lim, clk);
      case Leak => BrowseLeakKeeps(m, n, now, window, key, lim, clk);
      case Direct =>
    }
  }

  lemma SameClosed(m: Mem, n: Mem, now: int, window: WindowOf)
    requires Equiv(m, n, now, window)
    ensures m.closed == n.closed
  {
  }

  lemma UpdateCountKeeps(m: Mem, n: Mem, now: int, window: WindowOf, key: string, lim: Limit, clk: Clock)
    requires Equiv(m, n, now, window) && now <= clk.u1 <= clk.u4 && !m.closed
    ensures Equiv(Update(Count, m, key, lim, clk).0, Update(Count, n, key, lim, clk).0, clk.u4, window)
  {
    hide EquivLists;
    EquivLater(m, n, now, window, clk.u1);
    assert Drop(m.CellAt(key), clk.u1) == Drop(n.CellAt(key), clk.u1);
    var c, d := CountUpdate(m.CellAt(key), lim, clk), CountUpdate(n.CellAt(key), lim, clk);
    assert c == d;
    EquivWithCell(m, n, clk.u1, window, key, c, d);
    EquivLater(m.WithCell(key, c), n.WithCell(key, d), clk.u1, window, clk.u4);
  }

  lemma BaseUpdates(c: BaseCells, d: BaseCells, lim: Limit, clk: Clock)
    requires Drop(c.total, clk.u1) == Drop(d.total, clk.u1) && Drop(c.secondary, clk.u3) == Drop(d.secondary, clk.u3)
    ensures var (c', d') := (BaseUpdate(c, lim, clk), BaseUpdate(d, lim, clk));
            c'.total == d'.total && Drop(c'.secondary, clk.u3) == Drop(d'.secondary, clk.u3)
  {
    hide ClampTTL, Wrap64;
  }

  lemma UpdateBaseKeeps(m: Mem, n: Mem, now: int, window: WindowOf, key: string, lim: Limit, clk: Clock)
    requires Equiv(m, n, now, window) && now <= clk.u1 <= clk.u3 <= clk.u4 && !m.closed
    ensures Equiv(Update(Base, m, key, lim, clk).0, Update(Base, n, key, lim, clk).0, clk.u4, window)
  {
    hide EquivLists, BaseUpdate, TotalKey, SecondaryKey;
    var t, s := TotalKey(key), SecondaryKey(key);
    EquivLater(m, n, now, window, clk.u1);
    EquivLater(m, n, now, window, clk.u3);
    assert Drop(m.CellAt(t), clk.u1) == Drop(n.CellAt(t), clk.u1) && Drop(m.CellAt(s), clk.u3) == Drop(n.CellAt(s), clk.u3);
    BaseUpdates(BaseAt(m, key), BaseAt(n, key), lim, clk);
    var c, d := BaseUpdate(BaseAt(m, key), lim, clk), BaseUpdate(BaseAt(n, key), lim, clk);
    var m1, n1 := m.WithCell(t, c.total), n.WithCell(t, d.total);
    EquivWithCell(m, n, clk.u1, window, t, c.total, d.total);
    EquivLater(m1, n1, clk.u1, window, clk.u3);
    EquivWithCell(m1, n1, clk.u3, window, s, c.secondary, d.secondary);
    EquivLater(m1.WithCell(s, c.secondary), n1.WithCell(s, d.secondary), clk.u3, window, clk.u4);
  }

  lemma PushOrdered(l: seq<int>, now: int, t: int)
    requires Ordered(l, now) && now <= t
    ensures Ordered(Pushed(l, [Millis(t)]), t)
  {
    assert Pushed(l, [Millis(t)]) == [Millis(t)] + l;
  }

  lemma UpdateLeakKeeps(m: Mem, n: Mem, now: int, window: WindowOf, key: string, lim: Limit, clk: Clock)
    requires Equiv(m, n, now, window) && now <= clk.u1 <= clk.u2 <= clk.u4 && !m.closed && window(key) == Millis(lim.time)
    ensures Equiv(Update(Leak, m, key, lim, clk).0, Update(Leak, n, key, lim, clk).0, clk.u4, window)
  {
    hide Millis, Clean, Pushed, Ordered;
    EquivLater(m, n, now, window, clk.u1);
    EquivLater(m, n, now, window, clk.u2);
    var l, l' := m.ListAt(key), n.ListAt(key);
    assert EquivLists(l, l', clk.u1, window(key));
    EquivListsClean(l, l', clk.u1, window(key));
    var pushed := LeakUpdate(l, lim, clk);
    assert pushed == LeakUpdate(l', lim, clk);
    PushOrdered(Clean(l, WindowStart(clk.u1, lim)), clk.u1, clk.u2);
    var m', n' := Update(Leak, m, key, lim, clk).0, Update(Leak, n, key, lim, clk).0;
    EquivSetsList(m, n, clk.u2, window, key, m', pushed, n', pushed);
    EquivLater(m', n', clk.u2, window, clk.u4);
  }

  lemma UpdateKeeps(a: Algorithm, m: Mem, n: Mem, now: int, window: WindowOf, key: string, lim: Limit, clk: Clock)
    requires Equiv(m, n, now, window) && now <= clk.u1 <= clk.u2 <= clk.u3 <= clk.u4 && HasWindow(a, key, lim, window)
    ensures Equiv(Update(a, m, key, lim, clk).0, Update(a, n, key, lim, clk).0, clk.u4, window)
  {
    hide Equiv, CountUpdate, BaseUpdate, LeakUpdate;
    SameClosed(m, n, now, window);
    if a.Direct? || m.closed {
      EquivLater(m, n, now, window, clk.u4);
    } else {
      match a
      case Count => UpdateCountKeeps(m, n, now, window, key, lim, clk);
      case Base => UpdateBaseKeeps(m, n, now, window, key, lim, clk);
      case Leak => UpdateLeakKeeps(m, n, now, window, key, lim, clk);
      case Direct =>
    }
  }

  /** Browsing both of two equivalent stores. */
  lemma BrowseBoth(a: Algorithm, m: Mem, n: Mem, now: int, window: WindowOf, key: string, lim: Limit, clk: Clock)
    requires Equiv(m, n, now, window) && clk.From(now) && HasWindow(a, key, lim, window)
    ensures Browse(a, m, key, lim, clk).1 == Browse(a, n, key, lim, clk).1
    ensures Equiv(Browse(a, m, key, lim, clk).0, Browse(a, n, key, lim, clk).0, clk.b2, window)
  {
    hide Equiv, Browse, HasWindow;
    var m', n' := Browse(a, m, key, lim, clk).0, Browse(a, n, key, lim, clk).0;
    BrowseKeeps(a, m, n, now, window, key, lim, clk);
    EquivSymmetric(m, n, now, window);
    BrowseKeeps(a, n, m, now, window, key, lim, clk);
    EquivSymmetric(n', m, clk.b2, window);
    EquivLater(n, m, now, window, clk.b2);
    EquivTransitive(m', n, m, clk.b2, window);
    EquivTransitive(m', m, n', clk.b2, window);
  }

  // Whole runs of the engine

  /** A call of the engine; an `extra` one is to be left out. */
  datatype Call = Call(req: Request, check: bool, extra: bool, clk: Clock)

  ghost predicate TimedCalls(now: int, calls: seq<Call>)
    decreases calls
  {
    calls == [] || (calls[0].clk.From(now) && TimedCalls(calls[0].clk.u4, calls[1..]))
  }

  /** The key that a call uses under a freq rule has that rule's window. */
  ghost predicate KeyWindow(rs: RuleSet, accepts: Accepts, c: Call, window: WindowOf) {
    var s := Selected(rs, c.req, accepts);
    s.Some? && s.value.Limited? ==> HasWindow(s.value.rule.algorithm, KeyFor(s.value.rule, c.req), s.value.rule.limit, window)
  }

  /** Calls that use the same key under freq rules do so with the same window. */
  ghost predicate WindowsAgree(rs: RuleSet, accepts: Accepts, calls: seq<Call>, window: WindowOf) {
    forall c :: c in calls ==> KeyWindow(rs, accepts, c, window)
  }

  /** The answers to all calls but the extra ones, in a run that performs the extra ones or not. */
  ghost function Answers(rs: RuleSet, accepts: Accepts, m: Mem, calls: seq<Call>, withExtra: bool): seq<Result<Response>>
    decreases calls
  {
    if calls == [] then [] else
      var c := calls[0];
      var (next, answer) := Serve(Selected(rs, c.req, accepts), m, c.req, c.clk, c.check);
      if !c.extra then [answer] + Answers(rs, accepts, next, calls[1..], withExtra)
      else Answers(rs, accepts, if withExtra then next else m, calls[1..], withExtra)
  }

  /** The same request to two equivalent stores gets the same answer and leaves equivalent stores. */
  lemma ServeBoth(rs: RuleSet, accepts: Accepts, m: Mem, n: Mem, now: int, window: WindowOf, c: Call)
    requires Equiv(m, n, now, window) && c.clk.From(now) && KeyWindow(rs, accepts, c, window)
    ensures var choice := Selected(rs, c.req, accepts);
            && Serve(choice, m, c.req, c.clk, c.check).1 == Serve(choice, n, c.req, c.clk, c.check).1
            && Equiv(Serve(choice, m, c.req, c.clk, c.check).0, Serve(choice, n, c.req, c.clk, c.check).0, c.clk.u4, window)
  {
    hide Equiv, Selected, Browse, Update, KeyFor, HasWindow, Verdict;
    var choice := Selected(rs, c.req, accepts);
    if choice.Some? && choice.value.Limited? {
      var rule, key := choice.value.rule, KeyFor(choice.value.rule, c.req);
      BrowseBoth(rule.algorithm, m, n, now, window, key, rule.limit, c.clk);
      var m', n' := Browse(rule.algorithm, m, key, rule.limit, c.clk).0, Browse(rule.algorithm, n, key, rule.limit, c.clk).0;
      EquivLater(m', n', c.clk.b2, window, c.clk.u4);
      UpdateKeeps(rule.algorithm, m', n', c.clk.b2, window, key, rule.limit, c.clk);
    } else {
      EquivLater(m, n, now, window, c.clk.u4);
    }
  }

  /** A browse leaves a store equivalent to the one before. */
  lemma ServeExtra(rs: RuleSet, accepts: Accepts, m: Mem, n: Mem, now: int, window: WindowOf, c: Call)
    requires Equiv(m, n, now, window) && c.clk.From(now) && KeyWindow(rs, accepts, c, window) && !c.check
    ensures Equiv(Serve(Selected(rs, c.req, accepts), m, c.req, c.clk, false).0, n, c.clk.u4, window)
  {
    hide Equiv, Selected, Browse, KeyFor, HasWindow, Verdict;
    var choice := Selected(rs, c.req, accepts);
    if choice.Some? && choice.value.Limited? {
      var rule, key := choice.value.rule, KeyFor(choice.value.rule, c.req);
      BrowseKeeps(rule.algorithm, m, n, now, window, key, rule.limit, c.clk);
      EquivLater(Browse(rule.algorithm, m, key, rule.limit, c.clk).0, n, c.clk.b2, window, c.clk.u4);
    } else {
      EquivLater(m, n, now, window, c.clk.u4);
    }
  }

  lemma {:induction false} AnswersEquiv(rs: RuleSet, accepts: Accepts, m: Mem, n: Mem, now: int, window: WindowOf, calls: seq<Call>)
    requires Equiv(m, n, now, window) && TimedCalls(now, calls) && WindowsAgree(rs, accepts, calls, window)
    requires forall c :: c in calls && c.extra ==> !c.check
    ensures Answers(rs, accepts, m, calls, true) == Answers(rs, accepts, n, calls, false)
    decreases calls
  {
    hide Equiv, Selected, Serve, KeyWindow;
    if calls != [] {
      var c := calls[0];
      var m' := Serve(Selected(rs, c.req, accepts), m, c.req, c.clk, c.check).0;
      if c.extra {
        ServeExtra(rs, accepts, m, n, now, window, c);
        EquivLater(m, n, now, window, c.clk.u4);
        AnswersEquiv(rs, accepts, m', n, c.clk.u4, window, calls[1..]);
      } else {
        ServeBoth(rs, accepts, m, n, now, window, c);
        AnswersEquiv(rs, accepts, m', Serve(Selected(rs, c.req, accepts), n, c.req, c.clk, c.check).0, c.clk.u4, window, calls[1..]);
      }
    }
  }

  /** In every run from a fresh store, browses inserted anywhere change no other answer. */
  lemma BrowseIsTransparent(rs: RuleSet, accepts: Accepts, now: int, window: WindowOf, calls: seq<Call>)
    requires TimedCalls(now, calls) && WindowsAgree(rs, accepts, calls, window)
    requires forall c :: c in calls && c.extra ==> !c.check
    ensures Answers(rs, accepts, Mem(map[], map[], false), calls, true) == Answers(rs, accepts, Mem(map[], map[], false), calls, false)
  {
    var m := Mem(map[], map[], false);
    assert Equiv(m, m, now, window);
    AnswersEquiv(rs, accepts, m, m, now, window, calls);
  }
}
