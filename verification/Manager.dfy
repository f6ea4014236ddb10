/** The failover state machine (manager.go) as a value, and what whole sequential runs of it do. */
module FailoverSpec {
  import opened GoTypes

  datatype Which = Primary | Fallback

  datatype Manager = Manager(hasPrimary: bool, maxFailures: int, failures: int, degraded: bool, current: Which)

  const DEFAULT_MAX_FAILURES := 3

  /** The configured number is narrowed to 32 bits. */
  function MaxFailures(option: int): int {
    Wrap32(if option <= 0 then DEFAULT_MAX_FAILURES else option)
  }

  function New(hasPrimary: bool, option: int): Manager {
    Manager(hasPrimary, MaxFailures(option), 0, false, if hasPrimary then Primary else Fallback)
  }

  function Degrade(m: Manager): Manager {
    if m.degraded then m else m.(degraded := true, current := Fallback)
  }

  function Recover(m: Manager): Manager {
    if !m.degraded || !m.hasPrimary then m else m.(degraded := false, current := Primary)
  }

  function RecordFailure(m: Manager): Manager {
    var failed := m.(failures := Wrap32(m.failures + 1));
    if failed.failures >= m.maxFailures && !m.degraded then Degrade(failed) else failed
  }

  function RecordSuccess(m: Manager): Manager {
    var cleared := m.(failures := 0);
    if m.degraded then Recover(cleared) else cleared
  }

  function CheckHealth(m: Manager, alive: bool): Manager {
    if !m.hasPrimary then m else if alive then RecordSuccess(m) else RecordFailure(m)
  }

  /** What the two stores would answer to an operation. */
  datatype Answers<+V> = Answers(primary: Result<V>, fallback: Result<V>) {
    function Of(w: Which): Result<V> {
      if w.Primary? then primary else fallback
    }
  }

  /** An operation: the next state, the stores tried in order, and the answer to the caller. */
  function Execute<V>(m: Manager, ans: Answers<V>): (Manager, seq<Which>, Result<V>) {
    var first := ans.Of(m.current);
    if first.Err? && m.hasPrimary && !m.degraded then
      var next := RecordFailure(m);
      if next.degraded then (next, [m.current, Fallback], ans.fallback) else (next, [m.current], first)
    else
      (m, [m.current], first)
  }

  // Runs

  datatype Event<+O, +V> = Ping(alive: bool) | Call(op: O, ans: Answers<V>)

  function Next<O, V>(m: Manager, ev: Event<O, V>): Manager {
    match ev
    case Ping(alive) => CheckHealth(m, alive)
    case Call(_, ans) => Execute(m, ans).0
  }

  function Last<O, V>(m: Manager, evs: seq<Event<O, V>>): Manager
    decreases evs
  {
    if evs == [] then m else Last(Next(m, evs[0]), evs[1..])
  }

  /** How often `w` stands in `tried`. */
  function Occurrences(tried: seq<Which>, w: Which): nat {
    if tried == [] then 0 else (if tried[0] == w then 1 else 0) + Occurrences(tried[1..], w)
  }

  function Repeat<O>(op: O, n: nat): seq<O> {
    if n == 0 then [] else [op] + Repeat(op, n - 1)
  }

  /** The operations that store `w` executes in a run, in order. */
  function Executed<O, V>(m: Manager, evs: seq<Event<O, V>>, w: Which): seq<O>
    decreases evs
  {
    if evs == [] then [] else
      (if evs[0].Call? then Repeat(evs[0].op, Occurrences(Execute(m, evs[0].ans).1, w)) else [])
      + Executed(Next(m, evs[0]), evs[1..], w)
  }

  /** The answers the callers get. */
  function Returned<O, V>(m: Manager, evs: seq<Event<O, V>>): seq<Result<V>>
    decreases evs
  {
    if evs == [] then [] else
      (if evs[0].Call? then [Execute(m, evs[0].ans).2] else []) + Returned(Next(m, evs[0]), evs[1..])
  }

  // The reference: a fault is a failed ping or an operation error of the primary; the manager is
  // degraded when enough faults have come since the last good ping.

  function IsFault<O, V>(ev: Event<O, V>): bool {
    match ev
    case Ping(alive) => !alive
    case Call(_, ans) => ans.primary.Err?
  }

  /** The faults since the last good ping, `faults` of them before `evs`. */
  function Faults<O, V>(faults: nat, evs: seq<Event<O, V>>): nat
    decreases evs
  {
    if evs == [] then faults
    else if evs[0] == Ping(true) then Faults(0, evs[1..])
    else Faults(faults + (if IsFault(evs[0]) then 1 else 0), evs[1..])
  }

  /** Fewer faults than this since the last good ping are tolerated. */
  function Tolerance(m: Manager): int {
    Max(m.maxFailures, 1)
  }

  /** What holds between operations, `faults` faults after the last good ping. */
  predicate Inv(m: Manager, faults: nat) {
    && m.hasPrimary && MIN_INT32 <= m.maxFailures <= MAX_INT32
    && (m.degraded <==> m.current == Fallback)
    && (m.degraded <==> faults >= Tolerance(m))
    && (!m.degraded ==> m.failures == faults)
  }

  lemma StepKeepsInv<O, V>(m: Manager, faults: nat, ev: Event<O, V>)
    requires Inv(m, faults)
    ensures var after := Faults(faults, [ev]);
            Inv(Next(m, ev), after) && Next(m, ev).maxFailures == m.maxFailures
  {
    assert [ev][1..] == [];
  }

  lemma {:induction false} RunKeepsInv<O, V>(m: Manager, faults: nat, evs: seq<Event<O, V>>)
    requires Inv(m, faults)
    ensures Inv(Last(m, evs), Faults(faults, evs)) && Last(m, evs).maxFailures == m.maxFailures
    decreases evs
  {
    hide Inv, Next;
    if evs != [] {
      StepKeepsInv(m, faults, evs[0]);
      assert [evs[0]][1..] == [];
      RunKeepsInv(Next(m, evs[0]), Faults(faults, [evs[0]]), evs[1..]);
    }
  }

  /** The configured number of failures, 3 if it is not positive, as far as 32 bits hold it. */
  predicate Configured(option: int, n: int) {
    MIN_INT32 <= n <= MAX_INT32 && ((if option <= 0 then 3 else option) - n) % 0x1_0000_0000 == 0
  }

  lemma ConfiguredIsMax(option: int, n: int)
    requires Configured(option, n)
    ensures MaxFailures(option) == n
  {
    Wrap32Is(if option <= 0 then 3 else option, n);
  }

  /**
   * After any run with a primary the manager is degraded, and its current store the fallback, exactly
   * when at least as many faults as configured, and at least one, have come since the last good ping;
   * until then `failures` counts them.
   */
  lemma DegradedWhenConfigured<O, V>(option: int, n: int, evs: seq<Event<O, V>>)
    requires Configured(option, n)
    ensures var (m, faults) := (Last(New(true, option), evs), Faults(0, evs));
            && (m.degraded <==> faults >= Max(n, 1))
            && (m.degraded <==> m.current == Fallback)
            && (!m.degraded ==> m.failures == faults)
  {
    ConfiguredIsMax(option, n);
    RunKeepsInv(New(true, option), 0, evs);
  }

  /** For every number that 32 bits hold: that many faults, or 3 where none is configured. */
  lemma DegradedExactly<O, V>(option: int, evs: seq<Event<O, V>>)
    requires option <= MAX_INT32
    ensures var (m, faults) := (Last(New(true, option), evs), Faults(0, evs));
            && (m.degraded <==> faults >= if option <= 0 then 3 else option)
            && (m.degraded <==> m.current == Fallback)
            && (!m.degraded ==> m.failures == faults)
  {
    DegradedWhenConfigured(option, if option <= 0 then 3 else option, evs);
  }

  lemma {:induction false} LastConcat<O, V>(m: Manager, evs: seq<Event<O, V>>, more: seq<Event<O, V>>)
    ensures Last(m, evs + more) == Last(Last(m, evs), more)
    decreases evs
  {
    if evs == [] {
      assert evs + more == more;
    } else {
      assert (evs + more)[0] == evs[0] && (evs + more)[1..] == evs[1..] + more;
      LastConcat(Next(m, evs[0]), evs[1..], more);
    }
  }

  /** One good ping restores the primary, whatever happened before. */
  lemma GoodPingRestores<O, V>(option: int, evs: seq<Event<O, V>>)
    ensures var m := Last(New(true, option), evs + [Ping(true)]);
            !m.degraded && m.current == Primary && m.failures == 0
  {
    LastConcat(New(true, option), evs, [Ping(true)]);
    RunKeepsInv(New(true, option), 0, evs);
    var m := Last(New(true, option), evs);
    var good: seq<Event<O, V>> := [Ping(true)];
    assert good[1..] == [];
  }

  /** Without a primary nothing ever changes: the fallback executes every operation. */
  lemma {:induction false} NoPrimary<O, V>(option: int, evs: seq<Event<O, V>>)
    ensures Last(New(false, option), evs) == New(false, option)
    decreases evs
  {
    if evs != [] {
      NoPrimary(option, evs[1..]);
    }
  }

  // Trace projection

  /** The operations issued in a state chosen by `degraded`, and with `tripped` also those whose error degraded the manager. */
  function Issued<O, V>(m: Manager, evs: seq<Event<O, V>>, degraded: bool, tripped: bool): seq<O>
    decreases evs
  {
    if evs == [] then [] else
      var next := Next(m, evs[0]);
      (if evs[0].Call? && (m.degraded == degraded || (tripped && !m.degraded && next.degraded)) then [evs[0].op] else [])
      + Issued(next, evs[1..], degraded, tripped)
  }

  /** The answer of the last store tried: the fallback's once the operation leaves the manager degraded. */
  function LastAnswers<O, V>(m: Manager, evs: seq<Event<O, V>>): seq<Result<V>>
    decreases evs
  {
    if evs == [] then [] else
      var next := Next(m, evs[0]);
      (if evs[0].Call? then [if next.degraded then evs[0].ans.fallback else evs[0].ans.primary] else [])
      + LastAnswers(next, evs[1..])
  }

  lemma Repeats<O>(op: O, tried: seq<Which>)
    ensures |tried| == 1 ==> forall w :: Repeat(op, Occurrences(tried, w)) == if tried[0] == w then [op] else []
    ensures |tried| == 2 ==> forall w :: Repeat(op, Occurrences(tried, w))
                                      == (if tried[0] == w then [op] else []) + (if tried[1] == w then [op] else [])
  {
    assert Repeat(op, 0) == [] && Repeat(op, 1) == [op] && Repeat(op, 2) == [op] + [op];
    if |tried| == 1 {
      assert tried[1..] == [];
    }
    if |tried| == 2 {
      assert tried[1..] == [tried[1]] && tried[1..][1..] == [];
    }
  }

  lemma CallProjects<O, V>(m: Manager, faults: nat, op: O, ans: Answers<V>)
    requires Inv(m, faults)
    ensures var (next, tried, answer) := Execute(m, ans);
            && answer == (if next.degraded then ans.fallback else ans.primary)
            && Repeat(op, Occurrences(tried, Primary)) == (if m.degraded then [] else [op])
            && Repeat(op, Occurrences(tried, Fallback)) == (if next.degraded then [op] else [])
            && (m.degraded ==> next.degraded)
  {
    Repeats(op, Execute(m, ans).1);
  }

  /**
   * In every run the primary executes exactly the operations issued while not degraded; the fallback
   * exactly those issued while degraded and those whose own error tripped the switch, each once and in
   * order; and each caller gets the answer of the last store tried.
   */
  lemma {:induction false} TraceProjection<O, V>(m: Manager, faults: nat, evs: seq<Event<O, V>>)
    requires Inv(m, faults)
    ensures Executed(m, evs, Primary) == Issued(m, evs, false, false)
    ensures Executed(m, evs, Fallback) == Issued(m, evs, true, true)
    ensures Returned(m, evs) == LastAnswers(m, evs)
    decreases evs
  {
    hide Inv, Execute, Occurrences, Repeat;
    if evs != [] {
      if evs[0].Call? {
        CallProjects(m, faults, evs[0].op, evs[0].ans);
      }
      StepKeepsInv(m, faults, evs[0]);
      TraceProjection(Next(m, evs[0]), Faults(faults, [evs[0]]), evs[1..]);
    }
  }
}

/** The manager itself, over two stores that record what they execute. */
module StorageManager {
  import opened FailoverSpec
  import opened GoTypes

  /** A store seen from the manager: it executes operations in order; what it answers is up to its environment. */
  class Backend<O> {
    var log: seq<O>

    constructor ()
      ensures log == []
    {
      log := [];
    }

    method Execute<V>(op: O, answer: Result<V>) returns (r: Result<V>)
      modifies this
      ensures log == old(log) + [op] && r == answer
    {
      log := log + [op];
      r := answer;
    }
  }

  class StorageManager<O> {
    const primary: Backend?<O>
    const fallback: Backend<O>
    const maxFailures: int
    var current: Backend<O>
    var failures: int
    var degraded: bool

    ghost predicate Valid()
      reads this
    {
      primary != fallback && (current == fallback || (primary != null && current == primary))
    }

    ghost function State(): Manager
      reads this
    {
      Manager(primary != null, maxFailures, failures, degraded, if current == fallback then Fallback else Primary)
    }

    constructor (fallback: Backend<O>, primary: Backend?<O>, maxFailuresOption: int)
      requires primary != fallback
      ensures Valid() && this.primary == primary && this.fallback == fallback
      ensures State() == New(primary != null, maxFailuresOption)
      ensures maxFailuresOption <= MAX_INT32 ==> maxFailures == if maxFailuresOption <= 0 then 3 else maxFailuresOption
    {
      this.fallback, this.primary := fallback, primary;
      maxFailures := Wrap32(if maxFailuresOption <= 0 then DEFAULT_MAX_FAILURES else maxFailuresOption);
      current := if primary != null then primary else fallback;
      failures, degraded := 0, false;
    }

    method DegradeNow()
      requires Valid()
      modifies this
      ensures Valid() && State() == Degrade(old(State()))
    {
      if degraded {
        return;
      }
      degraded := true;
      current := fallback;
    }

    method RecoverNow()
      requires Valid()
      modifies this
      ensures Valid() && State() == Recover(old(State()))
    {
      if !degraded || primary == null {
        return;
      }
      degraded := false;
      current := primary;
    }

    method Fail()
      requires Valid()
      modifies this
      ensures Valid() && State() == RecordFailure(old(State()))
    {
      failures := Wrap32(failures + 1);
      if failures >= maxFailures && !degraded {
        DegradeNow();
      }
    }

    method Succeed()
      requires Valid()
      modifies this
      ensures Valid() && State() == RecordSuccess(old(State()))
    {
      failures := 0;
      if degraded {
        RecoverNow();
      }
    }

    method Health(alive: bool)
      requires Valid()
      modifies this
      ensures Valid() && State() == CheckHealth(old(State()), alive)
    {
      if primary == null {
        return;
      }
      if alive {
        Succeed();
      } else {
        Fail();
      }
    }

    /** Try the current store; after an error that degrades the manager try the fallback as well. */
    method ExecuteWithFailover<V>(op: O, ans: Answers<V>) returns (r: Result<V>)
      requires Valid()
      modifies this, fallback, if primary == null then {} else {primary}
      ensures Valid() && State() == FailoverSpec.Execute(old(State()), ans).0
      ensures r == FailoverSpec.Execute(old(State()), ans).2
      ensures var tried := FailoverSpec.Execute(old(State()), ans).1;
              && fallback.log == old(fallback.log) + Repeat(op, Occurrences(tried, Fallback))
              && (primary != null ==> primary.log == old(primary.log) + Repeat(op, Occurrences(tried, Primary)))
    {
      ghost var before := State();
      ghost var tried := FailoverSpec.Execute(before, ans).1;
      Repeats(op, tried);
      r := current.Execute(op, if current == fallback then ans.fallback else ans.primary);
      if r.Err? && primary != null && !degraded {
        Fail();
        if degraded {
          r := fallback.Execute(op, ans.fallback);
        }
      }
    }
  }
}
