/**
 * The failover manager in single steps: any number of goroutines record failures and successes at
 * the same time, the failure counter outside the lock, the switch under it (manager.go).
 */
module ManagerSteps {
  import opened FailoverSpec
  import opened GoTypes

  /** Where a goroutine stands. */
  datatype Pc =
    | Idle
    | Counted(failures: int)  // has incremented the counter, which then read `failures`
    | ToDegrade               // waits for the lock in `degrade`
    | Degrading               // holds the lock, has not looked at `degraded`
    | DegradeStored           // has set `degraded`, not yet `current`
    | Cleared                 // has reset the counter
    | ToRecover               // waits for the lock in `recover`
    | Recovering              // holds the lock, has not looked at `degraded`
    | RecoverStored           // has cleared `degraded`, not yet set `current`
    | Unlocking               // about to release the lock

  datatype State = State(pcs: seq<Pc>, mu: Option<nat>, maxFailures: int, failures: int, degraded: bool, current: Which)

  /** Who moves; a goroutine that begins records a success or a failure. */
  datatype Move = Move(who: nat, success: bool)

  function At(s: State, i: nat, pc: Pc): State
    requires i < |s.pcs|
  {
    s.(pcs := s.pcs[i := pc])
  }

  /** One atomic step of one goroutine, with a primary present; waiting for a lock that is taken changes nothing. */
  function Step(s: State, mv: Move): State {
    var i := mv.who;
    if i >= |s.pcs| then s
    else match s.pcs[i]
      case Idle =>
        if mv.success then At(s, i, Cleared).(failures := 0)
        else var f := Wrap32(s.failures + 1); At(s, i, Counted(f)).(failures := f)
      case Counted(f) => At(s, i, if f >= s.maxFailures && !s.degraded then ToDegrade else Idle)
      case ToDegrade => if s.mu.None? then At(s, i, Degrading).(mu := Some(i)) else s
      case Degrading => if s.degraded then At(s, i, Unlocking) else At(s, i, DegradeStored).(degraded := true)
      case DegradeStored => At(s, i, Unlocking).(current := Fallback)
      case Cleared => At(s, i, if s.degraded then ToRecover else Idle)
      case ToRecover => if s.mu.None? then At(s, i, Recovering).(mu := Some(i)) else s
      case Recovering => if !s.degraded then At(s, i, Unlocking) else At(s, i, RecoverStored).(degraded := false)
      case RecoverStored => At(s, i, Unlocking).(current := Primary)
      case Unlocking => At(s, i, Idle).(mu := None)
  }

  function Run(s: State, mvs: seq<Move>): State
    decreases mvs
  {
    if mvs == [] then s else Run(Step(s, mvs[0]), mvs[1..])
  }

  predicate HoldsLock(pc: Pc) {
    pc.Degrading? || pc.DegradeStored? || pc.Recovering? || pc.RecoverStored? || pc.Unlocking?
  }

  /** The two fields differ only while the holder of the lock stands between its two stores. */
  ghost predicate Inv(s: State) {
    && (s.mu.Some? ==> s.mu.value < |s.pcs|)
    && (forall i :: 0 <= i < |s.pcs| ==> (HoldsLock(s.pcs[i]) <==> s.mu == Some(i)))
    && (var holder := if s.mu.Some? then s.pcs[s.mu.value] else Idle;
        match holder
        case DegradeStored => s.degraded && s.current == Primary
        case RecoverStored => !s.degraded && s.current == Fallback
        case _ => s.degraded <==> s.current == Fallback)
  }

  lemma StepKeepsInv(s: State, mv: Move)
    requires Inv(s)
    ensures Inv(Step(s, mv))
  {
    if mv.who < |s.pcs| {
      assert HoldsLock(s.pcs[mv.who]) <==> s.mu == Some(mv.who);
    }
  }

  function Start(n: nat, m: Manager): State {
    State(seq(n, _ => Idle), None, m.maxFailures, m.failures, m.degraded, m.current)
  }

  lemma {:induction false} RunKeepsInv(s: State, mvs: seq<Move>)
    requires Inv(s)
    ensures Inv(Run(s, mvs))
    decreases mvs
  {
    hide Inv, Step;
    if mvs != [] {
      StepKeepsInv(s, mvs[0]);
      RunKeepsInv(Step(s, mvs[0]), mvs[1..]);
    }
  }

  /** In every interleaving, whenever the lock is free, the manager is degraded exactly when its current store is the fallback. */
  lemma DegradedIffFallback(n: nat, option: int, mvs: seq<Move>)
    ensures var s := Run(Start(n, New(true, option)), mvs);
            s.mu.None? ==> (s.degraded <==> s.current == Fallback)
  {
    RunKeepsInv(Start(n, New(true, option)), mvs);
  }

  function Rank(pc: Pc): nat {
    match pc
    case Idle => 0
    case Unlocking => 1
    case DegradeStored => 2
    case RecoverStored => 2
    case Degrading => 3
    case Recovering => 3
    case ToDegrade => 4
    case ToRecover => 4
    case Counted(_) => 5
    case Cleared => 5
  }

  lemma AloneNeverWaits(s: State)
    requires Inv(s) && |s.pcs| == 1 && s.pcs[0] != Idle
    ensures var s' := Step(s, Move(0, false));
            Inv(s') && |s'.pcs| == 1 && Rank(s'.pcs[0]) < Rank(s.pcs[0])
  {
    StepKeepsInv(s, Move(0, false));
    assert HoldsLock(s.pcs[0]) <==> s.mu == Some(0);
  }

  /** The only goroutine finishes what it has begun. */
  ghost function Complete(s: State): State
    requires Inv(s) && |s.pcs| == 1
    decreases Rank(s.pcs[0])
  {
    if s.pcs[0] == Idle then s else
      AloneNeverWaits(s);
      Complete(Step(s, Move(0, false)))
  }

  lemma StepAlone(s: State, s': State)
    requires Inv(s) && |s.pcs| == 1 && s.pcs[0] != Idle && s' == Step(s, Move(0, false))
    ensures Inv(s') && |s'.pcs| == 1 && Complete(s) == Complete(s')
  {
    AloneNeverWaits(s);
  }

  function One(pc: Pc, mu: Option<nat>, m: Manager): State {
    State([pc], mu, m.maxFailures, m.failures, m.degraded, m.current)
  }

  /** A goroutine on its own does what the sequential manager does in one call. */
  lemma AloneIsAtomic(m: Manager, success: bool)
    requires m.hasPrimary && (m.degraded <==> m.current == Fallback)
    ensures var s := Step(One(Idle, None, m), Move(0, success));
            && Inv(s) && |s.pcs| == 1
            && Complete(s) == One(Idle, None, if success then RecordSuccess(m) else RecordFailure(m))
  {
    hide Complete;
    var s := Step(One(Idle, None, m), Move(0, success));
    assert Inv(s);
    if success {
      var m' := m.(failures := 0);
      if m.degraded {
        var m'' := m'.(degraded := false);
        StepAlone(s, One(ToRecover, None, m'));
        StepAlone(One(ToRecover, None, m'), One(Recovering, Some(0), m'));
        StepAlone(One(Recovering, Some(0), m'), One(RecoverStored, Some(0), m''));
        StepAlone(One(RecoverStored, Some(0), m''), One(Unlocking, Some(0), m''.(current := Primary)));
        StepAlone(One(Unlocking, Some(0), m''.(current := Primary)), One(Idle, None, m''.(current := Primary)));
        Completed(One(Idle, None, m''.(current := Primary)));
      } else {
        StepAlone(s, One(Idle, None, m'));
        Completed(One(Idle, None, m'));
      }
    } else {
      var m' := m.(failures := Wrap32(m.failures + 1));
      if m'.failures >= m.maxFailures && !m.degraded {
        var m'' := m'.(degraded := true);
        StepAlone(s, One(ToDegrade, None, m'));
        StepAlone(One(ToDegrade, None, m'), One(Degrading, Some(0), m'));
        StepAlone(One(Degrading, Some(0), m'), One(DegradeStored, Some(0), m''));
        StepAlone(One(DegradeStored, Some(0), m''), One(Unlocking, Some(0), m''.(current := Fallback)));
        StepAlone(One(Unlocking, Some(0), m''.(current := Fallback)), One(Idle, None, m''.(current := Fallback)));
        Completed(One(Idle, None, m''.(current := Fallback)));
      } else {
        StepAlone(s, One(Idle, None, m'));
        Completed(One(Idle, None, m'));
      }
    }
  }

  lemma Completed(s: State)
    requires Inv(s) && s.pcs == [Idle]
    ensures Complete(s) == s
  {
  }

  lemma {:induction false} RunPath(path: seq<State>, mvs: seq<Move>)
    requires |path| == |mvs| + 1 && forall i :: 0 <= i < |mvs| ==> Step(path[i], mvs[i]) == path[i + 1]
    ensures Run(path[0], mvs) == path[|mvs|]
    decreases mvs
  {
    hide Step;
    if mvs != [] {
      RunPath(path[1..], mvs[1..]);
    }
  }

  // When the last good ping decides

  /** Whether the last record begun is a success, `b` if none is. */
  function LastBegun(b: Option<bool>, s: State, mvs: seq<Move>): Option<bool>
    decreases mvs
  {
    if mvs == [] then b
    else LastBegun(if mvs[0].who < |s.pcs| && s.pcs[mvs[0].who].Idle? then Some(mvs[0].success) else b, Step(s, mvs[0]), mvs[1..])
  }

  predicate AllIdle(s: State) {
    forall i :: 0 <= i < |s.pcs| ==> s.pcs[i].Idle?
  }

  /** Every run that ends with all goroutines idle, and in which the last record begun is a success, ends at the primary. */
  ghost predicate LastGoodPingRestores(n: nat, option: int) {
    forall mvs :: (var start := Start(n, New(true, option));
                   AllIdle(Run(start, mvs)) && LastBegun(None, start, mvs) == Some(true))
      ==> var s := Run(Start(n, New(true, option)), mvs); !s.degraded && s.current == Primary
  }

  /** Where a goroutine can stand that restores the primary by itself. */
  predicate OnTheWay(pc: Pc, degraded: bool) {
    match pc
    case Idle => !degraded
    case Cleared => true
    case ToRecover => true
    case Recovering => true
    case RecoverStored => !degraded
    case Unlocking => !degraded
    case _ => false
  }

  /** The only goroutine, once it has begun to record a success. */
  predicate Restoring(s: State, b: Option<bool>) {
    |s.pcs| <= 1 && (b == Some(true) ==> |s.pcs| == 1 && OnTheWay(s.pcs[0], s.degraded))
  }

  lemma {:induction false} AloneRestores(s: State, b: Option<bool>, mvs: seq<Move>)
    requires Inv(s) && Restoring(s, b)
    ensures Inv(Run(s, mvs)) && Restoring(Run(s, mvs), LastBegun(b, s, mvs))
    decreases mvs
  {
    hide Inv;
    if mvs != [] {
      StepKeepsInv(s, mvs[0]);
      AloneRestores(Step(s, mvs[0]),
                    if mvs[0].who < |s.pcs| && s.pcs[mvs[0].who].Idle? then Some(mvs[0].success) else b, mvs[1..]);
    }
  }

  /** `n` goroutines, the first two at `a` and `b`, the lock taken by the first or free. */
  function Stand(n: nat, a: Pc, b: Pc, locked: bool, max: int, failures: int, degraded: bool, current: Which): State
    requires n >= 2
  {
    State(seq(n, _ => Idle)[0 := a][1 := b], if locked then Some(0) else None, max, failures, degraded, current)
  }

  lemma {:induction false} RunConcat(s: State, mvs: seq<Move>, more: seq<Move>, b: Option<bool>)
    ensures Run(s, mvs + more) == Run(Run(s, mvs), more)
    ensures LastBegun(b, s, mvs + more) == LastBegun(LastBegun(b, s, mvs), Run(s, mvs), more)
    decreases mvs
  {
    hide Step;
    if mvs == [] {
      assert mvs + more == more;
    } else {
      assert (mvs + more)[0] == mvs[0] && (mvs + more)[1..] == mvs[1..] + more;
      RunConcat(Step(s, mvs[0]), mvs[1..], more,
                if mvs[0].who < |s.pcs| && s.pcs[mvs[0].who].Idle? then Some(mvs[0].success) else b);
    }
  }

  /** `k` failures recorded one after the other. */
  function Failures(k: nat): seq<Move> {
    if k == 0 then [] else [Move(0, false), Move(0, false)] + Failures(k - 1)
  }

  lemma {:induction false} FailuresRun(n: nat, max: int, f: nat, k: nat)
    requires n >= 2 && f + k < max <= MAX_INT32
    ensures Run(Stand(n, Idle, Idle, false, max, f, false, Primary), Failures(k))
         == Stand(n, Idle, Idle, false, max, f + k, false, Primary)
    decreases k
  {
    hide Wrap32;
    if k > 0 {
      assert Wrap32(f + 1) == f + 1;
      var s := Stand(n, Idle, Idle, false, max, f, false, Primary);
      var counted := Stand(n, Counted(f + 1), Idle, false, max, f + 1, false, Primary);
      var next := Stand(n, Idle, Idle, false, max, f + 1, false, Primary);
      var mvs := Failures(k);
      assert mvs[1..][0] == Move(0, false) && mvs[1..][1..] == Failures(k - 1);
      assert Step(s, mvs[0]).pcs == counted.pcs && Step(counted, mvs[1..][0]).pcs == next.pcs;
      assert Run(s, mvs) == Run(counted, mvs[1..]) == Run(next, Failures(k - 1));
      FailuresRun(n, max, f + 1, k - 1);
    }
  }

  /** A failure is counted by goroutine 0, a good ping is recorded by goroutine 1, then 0 goes on. */
  function LateMoves(): seq<Move> {
    var fail, good := Move(0, false), Move(1, true);
    [fail, fail, good, good, fail, fail, fail, fail]
  }

  function LatePath(n: nat, max: int, f: int): (path: seq<State>)
    requires n >= 2
    ensures |path| == 9
  {
    [ Stand(n, Idle, Idle, false, max, f, false, Primary),
      Stand(n, Counted(f + 1), Idle, false, max, f + 1, false, Primary),
      Stand(n, ToDegrade, Idle, false, max, f + 1, false, Primary),
      Stand(n, ToDegrade, Cleared, false, max, 0, false, Primary),
      Stand(n, ToDegrade, Idle, false, max, 0, false, Primary),
      Stand(n, Degrading, Idle, true, max, 0, false, Primary),
      Stand(n, DegradeStored, Idle, true, max, 0, true, Primary),
      Stand(n, Unlocking, Idle, true, max, 0, true, Fallback),
      Stand(n, Idle, Idle, false, max, 0, true, Fallback) ]
  }

  lemma LateStep(n: nat, max: int, f: nat, i: nat)
    requires n >= 2 && f + 1 <= MAX_INT32 && f + 1 >= max && i < 8
    ensures Step(LatePath(n, max, f)[i], LateMoves()[i]) == LatePath(n, max, f)[i + 1]
  {
    hide Wrap32;
    assert Wrap32(f + 1) == f + 1;
    assert Step(LatePath(n, max, f)[i], LateMoves()[i]).pcs == LatePath(n, max, f)[i + 1].pcs;
  }

  lemma {:induction false} BegunPath(path: seq<State>, mvs: seq<Move>, b: Option<bool>, k: nat)
    requires |path| == |mvs| + 1 && forall i :: 0 <= i < |mvs| ==> Step(path[i], mvs[i]) == path[i + 1]
    requires k < |mvs| && mvs[k].who < |path[k].pcs| && path[k].pcs[mvs[k].who].Idle?
    requires forall i :: k < i < |mvs| ==> mvs[i].who < |path[i].pcs| && !path[i].pcs[mvs[i].who].Idle?
    ensures LastBegun(b, path[0], mvs) == Some(mvs[k].success)
    decreases k
  {
    hide Step;
    var next := if mvs[0].who < |path[0].pcs| && path[0].pcs[mvs[0].who].Idle? then Some(mvs[0].success) else b;
    if k > 0 {
      BegunPath(path[1..], mvs[1..], next, k - 1);
    } else {
      NoneBegun(path[1..], mvs[1..], next);
    }
  }

  lemma {:induction false} NoneBegun(path: seq<State>, mvs: seq<Move>, b: Option<bool>)
    requires |path| == |mvs| + 1 && forall i :: 0 <= i < |mvs| ==> Step(path[i], mvs[i]) == path[i + 1]
    requires forall i :: 0 <= i < |mvs| ==> mvs[i].who < |path[i].pcs| && !path[i].pcs[mvs[i].who].Idle?
    ensures LastBegun(b, path[0], mvs) == b
    decreases mvs
  {
    hide Step;
    if mvs != [] {
      NoneBegun(path[1..], mvs[1..], b);
    }
  }

  /** All but the last of the failures tolerated, and then the race. */
  function LateRun(option: int): seq<Move> {
    Failures(Max(MaxFailures(option), 1) - 1) + LateMoves()
  }

  /**
   * Between two or more goroutines a good ping does not always restore the primary: a failure counted
   * before it may switch to the fallback after it, and no fault is counted any more.
   */
  lemma LateDegrade(n: nat, option: int)
    requires n >= 2
    ensures var start := Start(n, New(true, option));
            && LastBegun(None, start, LateRun(option)) == Some(true)
            && Run(start, LateRun(option)) == Stand(n, Idle, Idle, false, MaxFailures(option), 0, true, Fallback)
  {
    hide Run, Step, LastBegun, MaxFailures, Failures;
    var max := MaxFailures(option);
    var k := Max(max, 1) - 1;
    var start := Start(n, New(true, option));
    assert start == Stand(n, Idle, Idle, false, max, 0, false, Primary) by {
      assert start.pcs == start.pcs[0 := Idle][1 := Idle];
    }
    SmallMax(option);
    if k > 0 {
      FailuresRun(n, max, 0, k);
    } else {
      NoFailures(start);
    }
    var path := LatePath(n, max, k);
    forall i | 0 <= i < 8 ensures Step(path[i], LateMoves()[i]) == path[i + 1] {
      LateStep(n, max, k, i);
    }
    RunPath(path, LateMoves());
    var b := LastBegun(None, start, Failures(k));
    BegunPath(path, LateMoves(), b, 2);
    RunConcat(start, Failures(k), LateMoves(), None);
  }

  lemma SmallMax(option: int)
    ensures MaxFailures(option) <= MAX_INT32
  {
  }

  lemma NoFailures(s: State)
    ensures Run(s, Failures(0)) == s
  {
  }

  /** A good ping that is the last to begin always restores the primary if and only if no two goroutines record at once. */
  lemma LastGoodPingExactly(n: nat, option: int)
    ensures LastGoodPingRestores(n, option) <==> n <= 1
  {
    hide Run, LastBegun, LateRun, MaxFailures;
    var start := Start(n, New(true, option));
    if n <= 1 {
      forall mvs | AllIdle(Run(start, mvs)) && LastBegun(None, start, mvs) == Some(true)
        ensures var s := Run(start, mvs); !s.degraded && s.current == Primary
      {
        AloneRestores(start, None, mvs);
        RestoredIdle(Run(start, mvs));
      }
    } else {
      LateDegrade(n, option);
      assert AllIdle(Run(start, LateRun(option)));
    }
  }

  lemma RestoredIdle(s: State)
    requires Inv(s) && Restoring(s, Some(true)) && AllIdle(s)
    ensures !s.degraded && s.current == Primary
  {
  }
}
