/** What browsing and updating make of the whole store, for each algorithm. */
module AlgorithmSpec {
  import opened GoTypes
  import opened Limiters
  import opened Memory

  datatype Algorithm = Direct | Count | Base | Leak

  function TotalKey(key: string): string {
    key + ":total"
  }

  function SecondaryKey(key: string): string {
    key + ":secondary"
  }

  function BaseAt(m: Mem, key: string): BaseCells {
    BaseCells(m.CellAt(TotalKey(key)), m.CellAt(SecondaryKey(key)))
  }

  function WithBase(m: Mem, key: string, c: BaseCells): Mem {
    m.WithCell(TotalKey(key), c.total).WithCell(SecondaryKey(key), c.secondary)
  }

  /** Whether the limit is hit; a closed store is an error to every algorithm that reads it. */
  function Browse(a: Algorithm, m: Mem, key: string, lim: Limit, clk: Clock): (Mem, Result<bool>) {
    if a.Direct? then (m, Ok(true))
    else if m.closed then (m, Err(StorageClosed))
    else match a
      case Count =>
        var (c, hit) := CountBrowse(m.CellAt(key), lim, clk);
        (m.WithCell(key, c), Ok(hit))
      case Base =>
        var (c, hit) := BaseBrowse(BaseAt(m, key), lim, clk);
        (WithBase(m, key, c), Ok(hit))
      case Leak =>
        var (l, hit) := LeakBrowse(m.ListAt(key), lim, clk);
        (m.WithList(key, l), Ok(hit))
  }

  function Update(a: Algorithm, m: Mem, key: string, lim: Limit, clk: Clock): (Mem, Option<Error>) {
    if a.Direct? then (m, None)
    else if m.closed then (m, Some(StorageClosed))
    else match a
      case Count => (m.WithCell(key, CountUpdate(m.CellAt(key), lim, clk)), None)
      case Base => (WithBase(m, key, BaseUpdate(BaseAt(m, key), lim, clk)), None)
      case Leak => (m.(lists := m.lists[key := LeakUpdate(m.ListAt(key), lim, clk)]), None)
  }

  /** The store keys that an algorithm reads and writes for a rule's key. */
  predicate Owns(a: Algorithm, key: string, other: string) {
    match a
    case Direct => false
    case Count => other == key
    case Base => other == TotalKey(key) || other == SecondaryKey(key)
    case Leak => other == key
  }

  ghost predicate SameAt(m: Mem, m': Mem, key: string) {
    m'.closed == m.closed && m'.CellAt(key) == m.CellAt(key) && m'.ListAt(key) == m.ListAt(key)
  }

  lemma BrowseFrame(a: Algorithm, m: Mem, key: string, lim: Limit, clk: Clock, other: string)
    requires !Owns(a, key, other)
    ensures SameAt(m, Browse(a, m, key, lim, clk).0, other)
  {
    hide CountBrowse, BaseBrowse, LeakBrowse;
  }

  lemma UpdateFrame(a: Algorithm, m: Mem, key: string, lim: Limit, clk: Clock, other: string)
    requires !Owns(a, key, other)
    ensures SameAt(m, Update(a, m, key, lim, clk).0, other)
  {
    hide CountUpdate, BaseUpdate, LeakUpdate;
  }
}

/** The algorithms (count.go, base.go, leak.go) against the in-memory store. */
module Algorithms {
  import opened AlgorithmSpec
  import opened GoTypes
  import opened Limiters
  import opened LocalStorage
  import opened Windows

  method BrowseCount(store: LocalStorage, key: string, lim: Limit, clk: Clock) returns (r: Result<bool>)
    requires store.Valid()
    modifies store.Repr
    ensures store.Valid() && fresh(store.Repr - old(store.Repr))
    ensures store.State() == Browse(Count, old(store.State()), key, lim, clk).0
    ensures r == Browse(Count, old(store.State()), key, lim, clk).1
  {
    var count := store.GetInt(key, clk.b1);
    match count {
      case Err(KeyNotFound) => r := Ok(false);
      case Err(e) => r := Err(e);
      case Ok(n) => r := Ok(n >= lim.count);
    }
  }

  method UpdateCount(store: LocalStorage, key: string, lim: Limit, clk: Clock) returns (err: Option<Error>)
    requires store.Valid()
    modifies store.Repr
    ensures store.Valid() && fresh(store.Repr - old(store.Repr))
    ensures store.State() == Update(Count, old(store.State()), key, lim, clk).0
    ensures err == Update(Count, old(store.State()), key, lim, clk).1
  {
    var r := store.IncrWithTTL(key, lim.time, clk.u1, clk.u2);
    err := r.Failure();
  }

  method BrowseBase(store: LocalStorage, key: string, lim: Limit, clk: Clock) returns (r: Result<bool>)
    requires store.Valid()
    modifies store.Repr
    ensures store.Valid() && fresh(store.Repr - old(store.Repr))
    ensures store.State() == Browse(Base, old(store.State()), key, lim, clk).0
    ensures r == Browse(Base, old(store.State()), key, lim, clk).1
  {
    ghost var m := store.State();
    var total := store.GetInt(TotalKey(key), clk.b1);
    if total.Err? && total != Err(KeyNotFound) {
      return Err(total.error);
    }
    SeparateKeys(key);
    if total.Else(0) <= lim.base {
      assert store.State() == WithBase(m, key, BaseBrowse(BaseAt(m, key), lim, clk).0);
      return Ok(false);
    }
    var count := store.GetInt(SecondaryKey(key), clk.b2);
    match count {
      case Err(KeyNotFound) => r := Ok(0 >= lim.count);
      case Err(e) => r := Err(e);
      case Ok(n) => r := Ok(n >= lim.count);
    }
  }

  method UpdateBase(store: LocalStorage, key: string, lim: Limit, clk: Clock) returns (err: Option<Error>)
    requires store.Valid()
    modifies store.Repr
    ensures store.Valid() && fresh(store.Repr - old(store.Repr))
    ensures store.State() == Update(Base, old(store.State()), key, lim, clk).0
    ensures err == Update(Base, old(store.State()), key, lim, clk).1
  {
    hide ClampTTL, Add;
    ghost var m := store.State();
    var total := store.IncrWithTTL(TotalKey(key), ClampTTL(lim.time), clk.u1, clk.u2);
    if total.Err? {
      return Some(total.error);
    }
    SeparateKeys(key);
    if total.value > lim.base {
      var r := store.IncrWithTTL(SecondaryKey(key), lim.time, clk.u3, clk.u4);
      err := r.Failure();
    } else {
      err := None;
      assert store.State() == WithBase(m, key, BaseUpdate(BaseAt(m, key), lim, clk));
    }
  }

  lemma SeparateKeys(key: string)
    ensures TotalKey(key) != SecondaryKey(key)
  {
    assert |TotalKey(key)| == |key| + 6 && |SecondaryKey(key)| == |key| + 10;
  }

  /** The scan of a list for its first timestamp in the window, or -1. */
  method FindValid(values: seq<int>, windowStart: int) returns (validStart: int)
    ensures validStart == -1 <==> forall i :: 0 <= i < |values| ==> values[i] < windowStart
    ensures validStart == if FirstLive(values, windowStart) == |values| then -1 else FirstLive(values, windowStart)
  {
    validStart := -1;
    for i := 0 to |values|
      invariant validStart == -1 && FirstLive(values, windowStart) >= i
    {
      FirstLiveAt(values, windowStart, i);
      if values[i] >= windowStart {
        validStart := i;
        break;
      }
    }
  }

  /** Read the list, find its first timestamp in the window, and trim the stored list. */
  method CleanExpired(store: LocalStorage, key: string, lim: Limit, now: int) returns (err: Option<Error>)
    requires store.Valid()
    modifies store.Repr
    ensures store.Valid() && fresh(store.Repr - old(store.Repr))
    ensures store.State() == if old(store.closed) then old(store.State())
                             else old(store.State()).WithList(key, Clean(old(store.State()).ListAt(key), WindowStart(now, lim)))
    ensures err == if old(store.closed) then Some(StorageClosed) else None
  {
    var windowStart := Millis(now) - Millis(lim.time);
    var r := store.LRange(key, 0, -1);
    if r.Err? {
      return Some(r.error);
    }
    var values := r.value;
    assert values == store.State().ListAt(key);
    if |values| == 0 {
      return None;
    }
    hide FirstLive;
    var validStart := FindValid(values, windowStart);
    if validStart == -1 {
      err := store.LTrim(key, 1, 0);
    } else if validStart > 0 {
      err := store.LTrim(key, 0, |values| - validStart - 1);
    } else {
      err := None;
    }
  }

  lemma FirstLiveAt(l: seq<int>, windowStart: int, i: nat)
    requires i < |l| && FirstLive(l, windowStart) >= i
    ensures FirstLive(l, windowStart) == i <==> l[i] >= windowStart
  {
  }

  method BrowseLeak(store: LocalStorage, key: string, lim: Limit, clk: Clock) returns (r: Result<bool>)
    requires store.Valid()
    modifies store.Repr
    ensures store.Valid() && fresh(store.Repr - old(store.Repr))
    ensures store.State() == Browse(Leak, old(store.State()), key, lim, clk).0
    ensures r == Browse(Leak, old(store.State()), key, lim, clk).1
  {
    var err := CleanExpired(store, key, lim, clk.b1);
    if err.Some? {
      return Err(err.value);
    }
    var length := store.LLen(key);
    match length {
      case Err(e) => r := Err(e);
      case Ok(n) => r := Ok(n >= lim.count);
    }
  }

  method UpdateLeak(store: LocalStorage, key: string, lim: Limit, clk: Clock) returns (err: Option<Error>)
    requires store.Valid()
    modifies store.Repr
    ensures store.Valid() && fresh(store.Repr - old(store.Repr))
    ensures store.State() == Update(Leak, old(store.State()), key, lim, clk).0
    ensures err == Update(Leak, old(store.State()), key, lim, clk).1
  {
    err := CleanExpired(store, key, lim, clk.u1);
    if err.Some? {
      return;
    }
    err := store.LPush(key, [Millis(clk.u2)]);
  }

  method BrowseStore(a: Algorithm, store: LocalStorage, key: string, lim: Limit, clk: Clock) returns (r: Result<bool>)
    requires store.Valid()
    modifies store.Repr
    ensures store.Valid() && fresh(store.Repr - old(store.Repr))
    ensures store.State() == Browse(a, old(store.State()), key, lim, clk).0
    ensures r == Browse(a, old(store.State()), key, lim, clk).1
  {
    match a {
      case Direct => r := Ok(true);
      case Count => r := BrowseCount(store, key, lim, clk);
      case Base => r := BrowseBase(store, key, lim, clk);
      case Leak => r := BrowseLeak(store, key, lim, clk);
    }
  }

  method UpdateStore(a: Algorithm, store: LocalStorage, key: string, lim: Limit, clk: Clock) returns (err: Option<Error>)
    requires store.Valid()
    modifies store.Repr
    ensures store.Valid() && fresh(store.Repr - old(store.Repr))
    ensures store.State() == Update(a, old(store.State()), key, lim, clk).0
    ensures err == Update(a, old(store.State()), key, lim, clk).1
  {
    match a {
      case Direct => err := None;
      case Count => err := UpdateCount(store, key, lim, clk);
      case Base => err := UpdateBase(store, key, lim, clk);
      case Leak => err := UpdateLeak(store, key, lim, clk);
    }
  }
}
