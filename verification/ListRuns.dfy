/** Runs of list operations on the in-memory store, with and without its background sweep. */
module ListRuns {
  import opened GoTypes
  import opened Memory
  import Lists

  datatype ListOp =
    | Push(key: string, values: seq<int>)
    | Length(key: string)
    | ElementAt(key: string, index: int)
    | Trim(key: string, start: int, stop: int)
    | Range(key: string, start: int, stop: int)

  datatype Answer = Done(err: Option<Error>) | Number(n: Result<int>) | Items(items: Result<seq<int>>)

  function Do(m: Mem, op: ListOp): (Mem, Answer) {
    match op
    case Push(key, values) => var (m', err) := m.LPush(key, values); (m', Done(err))
    case Length(key) => (m, Number(m.LLen(key)))
    case ElementAt(key, index) => (m, Number(m.LIndex(key, index)))
    case Trim(key, start, stop) => var (m', err) := m.LTrim(key, start, stop); (m', Done(err))
    case Range(key, start, stop) => (m, Items(m.LRange(key, start, stop)))
  }

  datatype Step = Op(op: ListOp) | Sweep

  /** The answers to all operations, in a run that sweeps when told to or never does. */
  function Answers(m: Mem, steps: seq<Step>, sweeping: bool): seq<Answer>
    decreases steps
  {
    if steps == [] then [] else
      match steps[0]
      case Op(op) => var (m', a) := Do(m, op); [a] + Answers(m', steps[1..], sweeping)
      case Sweep => Answers(if sweeping then m.CleanupLists() else m, steps[1..], sweeping)
  }

  /** The same list under every key, a missing one being empty. */
  ghost predicate SameLists(m: Mem, n: Mem) {
    m.closed == n.closed && forall k :: m.ListAt(k) == n.ListAt(k)
  }

  lemma DoSame(m: Mem, n: Mem, op: ListOp)
    requires SameLists(m, n)
    ensures Do(m, op).1 == Do(n, op).1 && SameLists(Do(m, op).0, Do(n, op).0)
  {
    hide Lists.Slice, Lists.Pushed, Lists.Index;
    EmptySlice();
    assert m.ListAt(op.key) == n.ListAt(op.key);
    var m', n' := Do(m, op).0, Do(n, op).0;
    forall k ensures m'.ListAt(k) == n'.ListAt(k) {
      assert m.ListAt(k) == n.ListAt(k);
    }
  }

  lemma EmptySlice()
    ensures forall start, stop :: Lists.Slice([], start, stop) == []
  {
  }

  lemma SweepSame(m: Mem, n: Mem)
    requires SameLists(m, n)
    ensures SameLists(m.CleanupLists(), n)
  {
    forall k ensures m.CleanupLists().ListAt(k) == n.ListAt(k) {
      assert m.ListAt(k) == n.ListAt(k);
    }
  }

  lemma {:induction false} AnswersSame(m: Mem, n: Mem, steps: seq<Step>)
    requires SameLists(m, n)
    ensures Answers(m, steps, true) == Answers(n, steps, false)
    decreases steps
  {
    hide SameLists, Do;
    if steps != [] {
      match steps[0]
      case Op(op) =>
        DoSame(m, n, op);
        AnswersSame(Do(m, op).0, Do(n, op).0, steps[1..]);
      case Sweep =>
        SweepSame(m, n);
        AnswersSame(m.CleanupLists(), n, steps[1..]);
    }
  }

  /** Sweeping between operations, at any points of any run, changes no answer. */
  lemma SweepIsInvisible(m: Mem, steps: seq<Step>)
    ensures Answers(m, steps, true) == Answers(m, steps, false)
  {
    AnswersSame(m, m, steps);
  }
}
