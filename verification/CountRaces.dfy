/**
 * Concurrent Checks and Browses on a count key of the in-memory store in single steps (count.go, local.go).
 * GetInt finds an entry, tests its expiry and then reads its value or deletes the key, all in separate
 * steps; IncrWithTTL finds or makes an entry under the lock and adds to it outside. A reader that
 * stalls before its deletion can remove a live counter.
 */
module CountRaces {
  import opened GoTypes
  import opened Intervals
  import opened Limiters

  datatype Entry = Entry(value: int, expires: int)

  /** Where one of the calls in flight stands. */
  datatype Pc =
    | Idle              // none in this place
    | Found(e: nat)     // GetInt has found an entry
    | Reading(e: nat)   // and has seen that it is live
    | Deleting(e: nat)  // or that it has expired
    | Pending           // the browse of a Check was not hit, its update has not begun
    | Holding(e: nat)   // IncrWithTTL has found or made an entry and will add to it

  /**
   * The entries ever made for the key, the one in the map, a place for each call in flight that may
   * be a Check or a Browse, and one for each call in flight that can only be a Browse.
   */
  datatype State = State(entries: seq<Entry>, current: Option<nat>, pcs: seq<Pc>, looks: seq<Pc>)

  datatype Move =
    | Find(i: nat)
    | Inspect(i: nat, now: int)
    | Load(i: nat)                          // of a Check, which goes on unless it is hit
    | Delete(i: nat)                        // of a Check, which goes on
    | Lookup(i: nat, now: int, stamp: int)
    | Add(i: nat)
    | Glance(i: nat)                        // the load of a Browse, which ends
    | Discard(i: nat)                       // the deletion of a Browse, which ends
    | Look(i: nat, now: int)                // the next step of a Browse in a place of its own, at `now`

  predicate Valid(s: State) {
    && (s.current.Some? ==> s.current.value < |s.entries|)
    && (forall i :: 0 <= i < |s.pcs| && !s.pcs[i].Idle? && !s.pcs[i].Pending? ==> s.pcs[i].e < |s.entries|)
    && (forall i :: 0 <= i < |s.looks| && !s.looks[i].Idle? && !s.looks[i].Pending? ==> s.looks[i].e < |s.entries|)
  }

  predicate Enabled(s: State, mv: Move) {
    && mv.i < |if mv.Look? then s.looks else s.pcs|
    && match mv
       case Find(i) => s.pcs[i].Idle?
       case Inspect(i, _) => s.pcs[i].Found?
       case Load(i) => s.pcs[i].Reading?
       case Delete(i) => s.pcs[i].Deleting?
       case Lookup(i, _, _) => s.pcs[i].Pending?
       case Add(i) => s.pcs[i].Holding?
       case Glance(i) => s.pcs[i].Reading?
       case Discard(i) => s.pcs[i].Deleting?
       case Look(i, _) => true
  }

  function At(s: State, i: nat, pc: Pc): State
    requires i < |s.pcs|
  {
    s.(pcs := s.pcs[i := pc])
  }

  function Next(s: State, lim: Limit, mv: Move): (s': State)
    requires Valid(s) && Enabled(s, mv)
    ensures Valid(s') && |s'.pcs| == |s.pcs| && |s'.looks| == |s.looks|
  {
    match mv
    case Find(i) => At(s, i, if s.current.Some? then Found(s.current.value) else Pending)
    case Inspect(i, now) =>
      var e := s.pcs[i].e;
      At(s, i, if now > s.entries[e].expires then Deleting(e) else Reading(e))
    case Load(i) => At(s, i, if s.entries[s.pcs[i].e].value >= lim.count then Idle else Pending)
    case Delete(i) => At(s, i, Pending).(current := None)
    case Lookup(i, now, stamp) =>
      if s.current.Some? && now <= s.entries[s.current.value].expires then At(s, i, Holding(s.current.value))
      else At(s, i, Holding(|s.entries|)).(entries := s.entries + [Entry(0, stamp + lim.time)], current := Some(|s.entries|))
    case Add(i) =>
      var e := s.pcs[i].e;
      At(s, i, Idle).(entries := s.entries[e := s.entries[e].(value := Wrap64(s.entries[e].value + 1))])
    case Glance(i) => At(s, i, Idle)
    case Discard(i) => At(s, i, Idle).(current := None)
    case Look(i, now) =>
      match s.looks[i]
      case Idle => if s.current.Some? then Seen(s, i, Found(s.current.value)) else s
      case Found(e) => Seen(s, i, if now > s.entries[e].expires then Deleting(e) else Reading(e))
      case Deleting(_) => Seen(s, i, Idle).(current := None)
      case _ => Seen(s, i, Idle)
  }

  function Seen(s: State, i: nat, pc: Pc): State
    requires i < |s.looks|
  {
    s.(looks := s.looks[i := pc])
  }

  // Runs

  predicate Reads(now: int, mv: Move) {
    match mv
    case Inspect(_, t) => now <= t
    case Lookup(_, t, stamp) => now <= t <= stamp
    case Look(_, t) => now <= t
    case _ => true
  }

  function Ends(now: int, mv: Move): int {
    match mv
    case Inspect(_, t) => t
    case Lookup(_, _, stamp) => stamp
    case Look(_, t) => t
    case _ => now
  }

  /** The moves can be made one after the other, and no reading of the clock lies before an earlier one. */
  predicate Possible(s: State, lim: Limit, now: int, mvs: seq<Move>)
    requires Valid(s)
    decreases mvs
  {
    mvs == [] || (Enabled(s, mvs[0]) && Reads(now, mvs[0]) && Possible(Next(s, lim, mvs[0]), lim, Ends(now, mvs[0]), mvs[1..]))
  }

  function Last(s: State, lim: Limit, now: int, mvs: seq<Move>): (s': State)
    requires Valid(s) && Possible(s, lim, now, mvs)
    ensures Valid(s') && |s'.pcs| == |s.pcs| && |s'.looks| == |s.looks|
    decreases mvs
  {
    if mvs == [] then s else Last(Next(s, lim, mvs[0]), lim, Ends(now, mvs[0]), mvs[1..])
  }

  /** When the admitted requests count: at the reading with which their update finds its entry. */
  function Admitted(mvs: seq<Move>): seq<int> {
    if mvs == [] then [] else (if mvs[0].Lookup? then [mvs[0].now] else []) + Admitted(mvs[1..])
  }

  /** `n` places for any call, and `b` for Browses only. */
  function Start(n: nat, b: nat): (s: State)
    ensures Valid(s) && |s.pcs| == n && |s.looks| == b && s.current == None && s.entries == []
    ensures (forall i :: 0 <= i < n ==> s.pcs[i] == Idle) && forall i :: 0 <= i < b ==> s.looks[i] == Idle
  {
    State([], None, seq(n, _ => Idle), seq(b, _ => Idle))
  }

  // Counting places

  datatype Test =
    | Charged(current: Option<nat>)
    | Holds(current: Option<nat>)
    | Looks(k: nat)
  {
    /**
     * Charged: the Check will bump the current counter, or may, whatever that counter's value. It is
     * pending, holds it, or looks at an entry that is no longer in the map. Looks: at one of the first
     * `k` entries.
     */
    predicate Is(pc: Pc) {
      match this
      case Charged(current) => (
        match pc
        case Idle => false
        case Found(e) => current != Some(e)
        case Reading(e) => current != Some(e)
        case Deleting(e) => current != Some(e)
        case Pending => true
        case Holding(e) => current == Some(e))
      case Holds(current) => pc.Holding? && current == Some(pc.e)
      case Looks(k) => (pc.Found? || pc.Reading? || pc.Deleting?) && pc.e < k
    }

    function One(pc: Pc): nat {
      if Is(pc) then 1 else 0
    }
  }

  function Count(pcs: seq<Pc>, t: Test): nat {
    if pcs == [] then 0 else t.One(pcs[0]) + Count(pcs[1..], t)
  }

  lemma {:induction false} CountAt(pcs: seq<Pc>, i: nat, pc: Pc, t: Test)
    requires i < |pcs|
    ensures Count(pcs[i := pc], t) == Count(pcs, t) - t.One(pcs[i]) + t.One(pc)
  {
    hide Test.Is, Test.One;
    if i == 0 {
      assert pcs[i := pc][1..] == pcs[1..];
    } else {
      assert pcs[i := pc][1..] == pcs[1..][i - 1 := pc];
      CountAt(pcs[1..], i - 1, pc, t);
    }
  }

  lemma {:induction false} CountNone(pcs: seq<Pc>, t: Test)
    requires forall i :: 0 <= i < |pcs| ==> !t.Is(pcs[i])
    ensures Count(pcs, t) == 0
  {
    if pcs != [] {
      CountNone(pcs[1..], t);
    }
  }

  lemma {:induction false} CountAll(pcs: seq<Pc>, t: Test)
    ensures Count(pcs, t) <= |pcs|
  {
    if pcs != [] {
      CountAll(pcs[1..], t);
    }
  }

  /** No place is counted twice. */
  lemma {:induction false} CountSum(pcs: seq<Pc>, current: Option<nat>, k: nat)
    requires current.Some? ==> current.value >= k
    ensures Count(pcs, Holds(current)) + Count(pcs, Looks(k)) <= Count(pcs, Charged(current)) <= |pcs|
  {
    if pcs != [] {
      CountSum(pcs[1..], current, k);
    }
  }

  function Level(s: State): int
    requires Valid(s)
  {
    if s.current.Some? then s.entries[s.current.value].value else 0
  }

  /** How often the counter in the map has been found by an update. */
  function Lookups(s: State): int
    requires Valid(s)
  {
    Level(s) + Count(s.pcs, Holds(s.current))
  }

  /** What holds in every reachable state, the clock last having read `now`. */
  ghost predicate Inv(s: State, lim: Limit, now: int) {
    Valid(s) && Clocked(s, lim, now) && Levels(s, lim)
  }

  /** What the counter in the map can still reach; one that has been made has been found by its maker. */
  ghost predicate Levels(s: State, lim: Limit)
    requires Valid(s)
  {
    && 0 <= Level(s) && Level(s) + Count(s.pcs, Charged(s.current)) <= lim.count + |s.pcs| - 1
    && (s.current.Some? ==> Lookups(s) >= 1)
  }

  /** No entry expires later than made now, and whoever is about to delete has seen an expired one. */
  ghost predicate Clocked(s: State, lim: Limit, now: int)
    requires Valid(s)
  {
    && (forall e :: 0 <= e < |s.entries| ==> s.entries[e].expires <= now + lim.time)
    && (forall i :: 0 <= i < |s.pcs| && s.pcs[i].Deleting? ==> s.entries[s.pcs[i].e].expires < now)
    && (forall i :: 0 <= i < |s.looks| && s.looks[i].Deleting? ==> s.entries[s.looks[i].e].expires < now)
  }

  predicate Fits(lim: Limit, n: nat) {
    ValidLimit(lim) && 1 <= n && lim.count + n <= MAX_INT64
  }

  lemma NextCounts(s: State, lim: Limit, mv: Move, t: Test)
    requires Valid(s) && Enabled(s, mv)
    ensures var s' := Next(s, lim, mv);
            if mv.Look? then Count(s'.pcs, t) == Count(s.pcs, t) && Count(s'.looks, t) == Count(s.looks, t) - t.One(s.looks[mv.i]) + t.One(s'.looks[mv.i])
            else Count(s'.looks, t) == Count(s.looks, t) && Count(s'.pcs, t) == Count(s.pcs, t) - t.One(s.pcs[mv.i]) + t.One(s'.pcs[mv.i])
  {
    hide Wrap64, Count, Test.One;
    var s' := Next(s, lim, mv);
    if mv.Look? {
      CountAt(s.looks, mv.i, s'.looks[mv.i], t);
      assert s'.looks == s.looks[mv.i := s'.looks[mv.i]];
    } else {
      CountAt(s.pcs, mv.i, s'.pcs[mv.i], t);
    }
  }

  /** A Browse in a place of its own changes at most which counter is in the map. */
  lemma LookKeeps(s: State, lim: Limit, mv: Move)
    requires Valid(s) && Enabled(s, mv) && mv.Look?
    ensures var s' := Next(s, lim, mv);
            && s'.entries == s.entries && s'.pcs == s.pcs
            && (s'.current == s.current || (s'.current == None && s.looks[mv.i].Deleting?))
            && (s'.looks[mv.i].Deleting? ==> s'.looks[mv.i].e < |s.entries| && s.entries[s'.looks[mv.i].e].expires < mv.now)
            && (forall i :: 0 <= i < |s.looks| && i != mv.i ==> s'.looks[i] == s.looks[i])
            && (forall k: nat :: k <= |s.entries| && (s.current.Some? ==> s.current.value >= k) && Looks(k).Is(s'.looks[mv.i])
                  ==> Looks(k).Is(s.looks[mv.i]))
  {
  }

  lemma LookKeepsInv(s: State, lim: Limit, now: int, mv: Move)
    requires Inv(s, lim, now) && Fits(lim, |s.pcs|) && Enabled(s, mv) && Reads(now, mv) && mv.Look?
    ensures Inv(Next(s, lim, mv), lim, Ends(now, mv))
  {
    hide Next, Count;
    LookKeeps(s, lim, mv);
    CountSum(s.pcs, None, 0);
  }

  lemma NextKeepsInv(s: State, lim: Limit, now: int, mv: Move)
    requires Inv(s, lim, now) && Fits(lim, |s.pcs|) && Enabled(s, mv) && Reads(now, mv)
    ensures Inv(Next(s, lim, mv), lim, Ends(now, mv))
  {
    if mv.Look? {
      LookKeepsInv(s, lim, now, mv);
    } else {
      CallKeepsInv(s, lim, now, mv);
    }
  }

  lemma CallKeepsInv(s: State, lim: Limit, now: int, mv: Move)
    requires Inv(s, lim, now) && Fits(lim, |s.pcs|) && Enabled(s, mv) && Reads(now, mv) && !mv.Look?
    ensures Inv(Next(s, lim, mv), lim, Ends(now, mv))
  {
    hide Clocked, Levels, Next;
    CallClocked(s, lim, now, mv);
    if mv.Add? {
      AddLevels(s, lim, mv);
    } else {
      CallLevels(s, lim, mv);
    }
  }

  lemma AddLevels(s: State, lim: Limit, mv: Move)
    requires Valid(s) && Levels(s, lim) && Fits(lim, |s.pcs|) && Enabled(s, mv) && mv.Add?
    ensures Levels(Next(s, lim, mv), lim)
  {
    hide Wrap64, Count;
    NextCounts(s, lim, mv, Charged(s.current));
    NextCounts(s, lim, mv, Holds(s.current));
    CountSum(s.pcs, s.current, 0);
    assert IsInt64(Level(s) + 1) ==> Wrap64(Level(s) + 1) == Level(s) + 1;
  }

  lemma CallLevels(s: State, lim: Limit, mv: Move)
    requires Valid(s) && Levels(s, lim) && Fits(lim, |s.pcs|) && Enabled(s, mv) && !mv.Look? && !mv.Add?
    ensures Levels(Next(s, lim, mv), lim)
  {
    hide Count;
    var s' := Next(s, lim, mv);
    CountSum(s'.pcs, s'.current, 0);
    NextCounts(s, lim, mv, Charged(s.current));
    NextCounts(s, lim, mv, Holds(s.current));
    NextHolds(s, lim, mv);
  }

  lemma CallClocked(s: State, lim: Limit, now: int, mv: Move)
    requires Valid(s) && Clocked(s, lim, now) && Enabled(s, mv) && Reads(now, mv) && !mv.Look?
    ensures Clocked(Next(s, lim, mv), lim, Ends(now, mv))
  {
    hide Wrap64;
  }

  /** A counter that has just been made is held by its maker only. */
  lemma NextHolds(s: State, lim: Limit, mv: Move)
    requires Valid(s) && Enabled(s, mv)
    ensures var s' := Next(s, lim, mv);
            && (s'.current.Some? && s'.current != s.current ==> Count(s'.pcs, Holds(s'.current)) == 1)
            && (s'.current.None? ==> Count(s'.pcs, Holds(s'.current)) == 0)
  {
    hide Wrap64;
    var s' := Next(s, lim, mv);
    if s'.current.None? {
      CountNone(s'.pcs, Holds(None));
    } else if s'.current != s.current {
      CountNone(s.pcs, Holds(s'.current));
      CountAt(s.pcs, mv.i, s'.pcs[mv.i], Holds(s'.current));
    }
  }

  lemma {:induction false} RunKeepsInv(s: State, lim: Limit, now: int, mvs: seq<Move>) returns (last: int)
    requires Inv(s, lim, now) && Fits(lim, |s.pcs|) && Possible(s, lim, now, mvs)
    ensures Inv(Last(s, lim, now, mvs), lim, last)
    decreases mvs
  {
    hide Next, Inv, Enabled, Reads, Fits;
    last := now;
    if mvs != [] {
      NextKeepsInv(s, lim, now, mvs[0]);
      InvValid(s, lim, now);
      last := RunKeepsInv(Next(s, lim, mvs[0]), lim, Ends(now, mvs[0]), mvs[1..]);
    }
  }

  /**
   * In every reachable state the live count and the updates that can still raise it are at most
   * `count + n - 1` together, as they are for Checks whose operations are single steps.
   */
  lemma LiveCountBound(n: nat, b: nat, lim: Limit, now: int, mvs: seq<Move>)
    requires Fits(lim, n) && Possible(Start(n, b), lim, now, mvs)
    ensures var s := Last(Start(n, b), lim, now, mvs);
            Level(s) + Count(s.pcs, Charged(s.current)) <= lim.count + n - 1
  {
    hide Next, Count, Possible, Last;
    StartInv(n, b, lim, now);
    var _ := RunKeepsInv(Start(n, b), lim, now, mvs);
  }

  lemma InvValid(s: State, lim: Limit, now: int)
    requires Inv(s, lim, now)
    ensures Valid(s)
  {
  }

  // How many updates can find their counter in `[hi - time, hi]`. A counter made in that interval lives
  // through it, and only a Check that looks at an older one can delete it.

  /** The most lookups there can be of the counter in the map, deletions aside. */
  function Capacity(s: State, lim: Limit): int {
    lim.count + |s.pcs| - 1
  }

  /** What `d` deletions make room for, one after the other, as each leaves one more place for requests. */
  function Rest(m: int, d: nat): int {
    if d == 0 then 0 else Rest(m, d - 1) + (m - (d - 1))
  }

  /** With `d` Checks that look at older counters, what is left for this one and for those after it. */
  function Room(m: int, d: nat, lookups: int): int {
    m - d - lookups + Rest(m, d)
  }

  lemma {:induction false} RoomGrows(m: int, d: nat, d': nat)
    requires d <= d' <= m
    ensures 0 <= Room(m, d, 0) <= Room(m, d', 0)
    decreases d'
  {
    if d < d' {
      RoomGrows(m, d, d' - 1);
    } else {
      RestNonnegative(m, d);
    }
  }

  lemma {:induction false} RestNonnegative(m: int, d: nat)
    requires d <= m
    ensures Rest(m, d) >= 0
  {
    if d > 0 {
      RestNonnegative(m, d - 1);
    }
  }

  /** What `d` deletions make room for that leave no place behind them. */
  function Extra(m: int, d: nat): int {
    if d == 0 then 0 else Extra(m, d - 1) + m
  }

  lemma {:induction false} ExtraGrows(m: nat, d: nat, d': nat)
    requires d <= d'
    ensures 0 <= Extra(m, d) <= Extra(m, d')
    decreases d'
  {
    if d' > 0 {
      ExtraGrows(m, if d < d' then d else d - 1, d' - 1);
    }
  }

  /** The entries from `k` on are made in the interval, and one of the places has made one. */
  ghost predicate Inside(s: State, lim: Limit, k: nat, now: int, hi: int) {
    && Inv(s, lim, now) && now >= hi - lim.time && k <= |s.entries|
    && (forall e :: 0 <= e < k ==> s.entries[e].expires < hi)
    && (forall e :: k <= e < |s.entries| ==> s.entries[e].expires >= hi)
    && (s.current.Some? ==> s.current.value >= k)
    && Count(s.pcs, Looks(k)) < |s.pcs|
  }

  function Left(s: State, lim: Limit, k: nat): int
    requires Valid(s)
  {
    Room(Capacity(s, lim), Count(s.pcs, Looks(k)), Lookups(s)) + Extra(Capacity(s, lim), Count(s.looks, Looks(k)))
  }

  function Begins(now: int, mv: Move): int {
    if mv.Inspect? || mv.Lookup? || mv.Look? then mv.now else now
  }

  function Found1(mv: Move): int {
    if mv.Lookup? then 1 else 0
  }

  lemma LeftNonnegative(s: State, lim: Limit, k: nat, now: int, hi: int)
    requires Inside(s, lim, k, now, hi) && lim.count >= 1
    ensures Left(s, lim, k) >= 0 && Lookups(s) + Count(s.pcs, Looks(k)) <= Capacity(s, lim)
  {
    hide Count;
    CountSum(s.pcs, s.current, k);
    RestNonnegative(Capacity(s, lim), Count(s.pcs, Looks(k)));
    ExtraGrows(Capacity(s, lim), 0, Count(s.looks, Looks(k)));
  }

  lemma StepInside(s: State, lim: Limit, k: nat, now: int, hi: int, mv: Move)
    requires Inside(s, lim, k, now, hi) && Fits(lim, |s.pcs|) && Enabled(s, mv) && Reads(now, mv)
    requires now <= hi && Begins(now, mv) <= hi
    ensures var s' := Next(s, lim, mv);
            Inside(s', lim, k, Ends(now, mv), hi) && Found1(mv) + Left(s', lim, k) <= Left(s, lim, k)
  {
    if mv.Look? {
      LookInside(s, lim, k, now, hi, mv);
    } else {
      CallInside(s, lim, k, now, hi, mv);
    }
  }

  /** A Browse that deletes a counter of the interval has been looking at an older one, and is done. */
  lemma LookInside(s: State, lim: Limit, k: nat, now: int, hi: int, mv: Move)
    requires Inside(s, lim, k, now, hi) && Fits(lim, |s.pcs|) && Enabled(s, mv) && Reads(now, mv) && mv.Look?
    requires now <= hi && mv.now <= hi
    ensures var s' := Next(s, lim, mv);
            Inside(s', lim, k, mv.now, hi) && Left(s', lim, k) <= Left(s, lim, k)
  {
    hide Next, Count;
    var s' := Next(s, lim, mv);
    LookKeeps(s, lim, mv);
    LookKeepsInv(s, lim, now, mv);
    LeftNonnegative(s, lim, k, now, hi);
    NextCounts(s, lim, mv, Looks(k));
    CountSum(s'.pcs, s'.current, k);
    if s'.current != s.current {
      CountNone(s.pcs, Holds(None));
      LookEnds(s, lim, mv);
    }
    ExtraGrows(Capacity(s, lim), Count(s'.looks, Looks(k)), Count(s.looks, Looks(k)));
  }

  lemma LookEnds(s: State, lim: Limit, mv: Move)
    requires Valid(s) && Enabled(s, mv) && mv.Look? && s.looks[mv.i].Deleting?
    ensures Next(s, lim, mv).looks[mv.i] == Idle
  {
  }

  lemma CallInside(s: State, lim: Limit, k: nat, now: int, hi: int, mv: Move)
    requires Inside(s, lim, k, now, hi) && Fits(lim, |s.pcs|) && Enabled(s, mv) && Reads(now, mv) && !mv.Look?
    requires now <= hi && Begins(now, mv) <= hi
    ensures var s' := Next(s, lim, mv);
            Inside(s', lim, k, Ends(now, mv), hi) && Found1(mv) + Left(s', lim, k) <= Left(s, lim, k)
  {
    if mv.Add? {
      AddInside(s, lim, k, now, hi, mv);
    } else {
      OtherInside(s, lim, k, now, hi, mv);
    }
  }

  lemma AddInside(s: State, lim: Limit, k: nat, now: int, hi: int, mv: Move)
    requires Inside(s, lim, k, now, hi) && Fits(lim, |s.pcs|) && Enabled(s, mv) && mv.Add?
    ensures var s' := Next(s, lim, mv);
            Inside(s', lim, k, now, hi) && Left(s', lim, k) <= Left(s, lim, k)
  {
    NextKeepsInv(s, lim, now, mv);
    LeftNonnegative(s, lim, k, now, hi);
    hide Wrap64, Count, Clocked;
    NextCounts(s, lim, mv, Looks(k));
    NextCounts(s, lim, mv, Holds(s.current));
    CountSum(s.pcs, s.current, k);
    assert IsInt64(Level(s) + 1) ==> Wrap64(Level(s) + 1) == Level(s) + 1;
  }

  lemma OtherInside(s: State, lim: Limit, k: nat, now: int, hi: int, mv: Move)
    requires Inside(s, lim, k, now, hi) && Fits(lim, |s.pcs|) && Enabled(s, mv) && Reads(now, mv) && !mv.Look? && !mv.Add?
    requires now <= hi && Begins(now, mv) <= hi
    ensures var s' := Next(s, lim, mv);
            Inside(s', lim, k, Ends(now, mv), hi) && Found1(mv) + Left(s', lim, k) <= Left(s, lim, k)
  {
    hide Count, Levels;
    var s' := Next(s, lim, mv);
    NextKeepsInv(s, lim, now, mv);
    LeftNonnegative(s, lim, k, now, hi);
    NextCounts(s, lim, mv, Looks(k));
    NextCounts(s, lim, mv, Holds(s.current));
    NextHolds(s, lim, mv);
    CountSum(s'.pcs, s'.current, k);
    if s.current.None? {
      CountNone(s.pcs, Holds(None));
    }
  }

  /** No entry has been made in the interval. */
  ghost predicate Older(s: State, lim: Limit, now: int, hi: int) {
    Inv(s, lim, now) && forall e :: 0 <= e < |s.entries| ==> s.entries[e].expires < hi
  }

  /** What is left then: the rest of the present counter, and all that the interval's own counters can take. */
  function LeftOlder(s: State, lim: Limit): int
    requires Valid(s) && |s.pcs| >= 1
  {
    var m := Capacity(s, lim);
    (if s.current.Some? then m - Lookups(s) else 0) + Room(m, |s.pcs| - 1, 0) + Extra(m, |s.looks|)
  }

  lemma LeftOlderNonnegative(s: State, lim: Limit, now: int)
    requires Inv(s, lim, now) && Fits(lim, |s.pcs|)
    ensures LeftOlder(s, lim) >= Room(Capacity(s, lim), |s.pcs| - 1, 0) + Extra(Capacity(s, lim), |s.looks|) >= 0
  {
    hide Count;
    CountSum(s.pcs, s.current, 0);
    RoomGrows(Capacity(s, lim), 0, |s.pcs| - 1);
    RoomGrows(Capacity(s, lim), |s.pcs| - 1, |s.pcs| - 1);
    ExtraGrows(Capacity(s, lim), 0, |s.looks|);
  }

  /** The first counter made in the interval: its maker does not look at an older one. */
  lemma FirstInside(s: State, lim: Limit, now: int, hi: int, mv: Move)
    requires Older(s, lim, now, hi) && Fits(lim, |s.pcs|) && Enabled(s, mv) && Reads(now, mv)
    requires mv.Lookup? && Next(s, lim, mv).current != s.current && mv.stamp + lim.time >= hi
    ensures var s' := Next(s, lim, mv);
            && Inside(s', lim, |s.entries|, Ends(now, mv), hi)
            && 1 + Left(s', lim, |s.entries|) <= Room(Capacity(s, lim), |s.pcs| - 1, 0) + Extra(Capacity(s, lim), |s.looks|)
  {
    hide Count;
    var s' := Next(s, lim, mv);
    var d := Count(s'.pcs, Looks(|s.entries|));
    NextKeepsInv(s, lim, now, mv);
    NextHolds(s, lim, mv);
    CountSum(s'.pcs, s'.current, |s.entries|);
    CountAll(s'.looks, Looks(|s.entries|));
    RoomGrows(Capacity(s, lim), d, |s.pcs| - 1);
    ExtraGrows(Capacity(s, lim), Count(s'.looks, Looks(|s.entries|)), |s.looks|);
  }

  lemma StepOlder(s: State, lim: Limit, now: int, hi: int, mv: Move)
    requires Older(s, lim, now, hi) && Fits(lim, |s.pcs|) && Enabled(s, mv) && Reads(now, mv)
    requires !(mv.Lookup? && Next(s, lim, mv).current != s.current)
    ensures var s' := Next(s, lim, mv);
            Older(s', lim, Ends(now, mv), hi) && Found1(mv) + LeftOlder(s', lim) <= LeftOlder(s, lim)
  {
    hide Wrap64, Count;
    var s' := Next(s, lim, mv);
    NextKeepsInv(s, lim, now, mv);
    NextCounts(s, lim, mv, Holds(s.current));
    CountSum(s.pcs, s.current, 0);
    LeftOlderNonnegative(s, lim, now);
    assert IsInt64(Level(s) + 1) ==> Wrap64(Level(s) + 1) == Level(s) + 1;
  }

  // Counting over a run

  lemma AdmittedCount(mvs: seq<Move>, lo: int, len: int)
    requires mvs != []
    ensures CountIn(Admitted(mvs), lo, len)
         == (if mvs[0].Lookup? && lo <= mvs[0].now <= lo + len then 1 else 0) + CountIn(Admitted(mvs[1..]), lo, len)
  {
    if mvs[0].Lookup? {
      assert Admitted(mvs)[1..] == Admitted(mvs[1..]);
    } else {
      assert Admitted(mvs) == Admitted(mvs[1..]);
    }
  }

  /** After the interval. */
  lemma {:induction false} LateRun(s: State, lim: Limit, now: int, mvs: seq<Move>, lo: int)
    requires Valid(s) && Possible(s, lim, now, mvs) && now > lo + lim.time
    ensures CountIn(Admitted(mvs), lo, lim.time) == 0
    decreases mvs
  {
    hide Next, Enabled;
    if mvs != [] {
      AdmittedCount(mvs, lo, lim.time);
      LateRun(Next(s, lim, mvs[0]), lim, Ends(now, mvs[0]), mvs[1..], lo);
    }
  }

  lemma PossibleFrom(s: State, lim: Limit, now: int, mvs: seq<Move>)
    requires Valid(s) && Possible(s, lim, now, mvs) && mvs != []
    ensures Possible(s, lim, Begins(now, mvs[0]), mvs) && now <= Begins(now, mvs[0])
  {
  }

  lemma {:induction false} InsideRun(s: State, lim: Limit, k: nat, now: int, mvs: seq<Move>, lo: int)
    requires Inside(s, lim, k, now, lo + lim.time) && Fits(lim, |s.pcs|) && Possible(s, lim, now, mvs)
    ensures CountIn(Admitted(mvs), lo, lim.time) <= Left(s, lim, k)
    decreases mvs
  {
    hide Next, Enabled, Inside, Left;
    var hi := lo + lim.time;
    InsideNonnegative(s, lim, k, now, hi);
    if mvs != [] {
      PossibleFrom(s, lim, now, mvs);
      if now > hi || Begins(now, mvs[0]) > hi {
        LateRun(s, lim, Begins(now, mvs[0]), mvs, lo);
      } else {
        StepInside(s, lim, k, now, hi, mvs[0]);
        AdmittedCount(mvs, lo, lim.time);
        InsideRun(Next(s, lim, mvs[0]), lim, k, Ends(now, mvs[0]), mvs[1..], lo);
      }
    }
  }

  lemma InsideNonnegative(s: State, lim: Limit, k: nat, now: int, hi: int)
    requires Inside(s, lim, k, now, hi) && Fits(lim, |s.pcs|)
    ensures Valid(s) && Left(s, lim, k) >= 0
  {
    LeftNonnegative(s, lim, k, now, hi);
  }

  lemma OlderInv(s: State, lim: Limit, now: int, hi: int)
    requires Older(s, lim, now, hi) && Fits(lim, |s.pcs|)
    ensures Inv(s, lim, now) && Valid(s) && LeftOlder(s, lim) >= 0
  {
    LeftOlderNonnegative(s, lim, now);
  }

  lemma OlderLater(s: State, lim: Limit, now: int, hi: int, t: int)
    requires Older(s, lim, now, hi) && now <= t
    ensures Older(s, lim, t, hi)
  {
    hide Count;
  }

  lemma {:induction false} OlderRun(s: State, lim: Limit, now: int, mvs: seq<Move>, lo: int)
    requires Older(s, lim, now, lo + lim.time) && Fits(lim, |s.pcs|) && Possible(s, lim, now, mvs) && now >= lo
    ensures CountIn(Admitted(mvs), lo, lim.time) <= LeftOlder(s, lim)
    decreases mvs
  {
    hide Enabled, Older, LeftOlder, Room, Next, Left, Inside;
    var hi := lo + lim.time;
    OlderInv(s, lim, now, hi);
    if mvs != [] {
      var mv := mvs[0];
      PossibleFrom(s, lim, now, mvs);
      if now > hi || Begins(now, mv) > hi {
        LateRun(s, lim, Begins(now, mv), mvs, lo);
      } else {
        var s' := Next(s, lim, mv);
        AdmittedCount(mvs, lo, lim.time);
        if mv.Lookup? && s'.current != s.current {
          FirstInside(s, lim, now, hi, mv);
          LeftOlderNonnegative(s, lim, now);
          InsideRun(s', lim, |s.entries|, Ends(now, mv), mvs[1..], lo);
        } else {
          StepOlder(s, lim, now, hi, mv);
          OlderRun(s', lim, Ends(now, mv), mvs[1..], lo);
        }
      }
    }
  }

  /**
   * What any interval can hold with at most `n` calls in flight and `b` more Browses: all but the
   * first lookup of a counter made before it, and `n + b` counters made in it, each but the first
   * after a deletion by a call that had been looking at the old one.
   */
  function Bound(n: nat, b: nat, lim: Limit): int
    requires n >= 1
  {
    var m := lim.count + n - 1;
    m - 1 + Room(m, n - 1, 0) + Extra(m, b)
  }

  lemma OlderWithinBound(s: State, lim: Limit, now: int)
    requires Inv(s, lim, now) && Fits(lim, |s.pcs|)
    ensures LeftOlder(s, lim) <= Bound(|s.pcs|, |s.looks|, lim)
  {
    hide Count;
  }

  lemma InvOlder(s: State, lim: Limit, now: int, lo: int)
    requires Inv(s, lim, now) && now < lo
    ensures Older(s, lim, now, lo + lim.time)
  {
  }

  /** The one move that may read the clock before the interval and then in it. */
  lemma {:induction false} CrossingRun(s: State, lim: Limit, now: int, mvs: seq<Move>, lo: int)
    requires Inv(s, lim, now) && Fits(lim, |s.pcs|) && Possible(s, lim, now, mvs) && mvs != []
    requires now < lo && Begins(now, mvs[0]) < lo <= Ends(now, mvs[0])
    ensures CountIn(Admitted(mvs), lo, lim.time) <= Bound(|s.pcs|, |s.looks|, lim)
  {
    hide Enabled, Room, Left, Inside, LeftOlder, Inv, Next, Bound;
    var mv, hi := mvs[0], lo + lim.time;
    InvOlder(s, lim, now, lo);
    OlderInv(s, lim, now, hi);
    var s' := Next(s, lim, mv);
    AdmittedCount(mvs, lo, lim.time);
    if s'.current != s.current {
      FirstInside(s, lim, now, hi, mv);
      LeftOlderNonnegative(s, lim, now);
      OlderWithinBound(s, lim, now);
      InsideRun(s', lim, |s.entries|, Ends(now, mv), mvs[1..], lo);
    } else {
      StepOlder(s, lim, now, hi, mv);
      OlderWithinBound(s, lim, now);
      OlderRun(s', lim, Ends(now, mv), mvs[1..], lo);
    }
  }

  lemma {:induction false} EarlierRun(s: State, lim: Limit, now: int, mvs: seq<Move>, lo: int)
    requires Inv(s, lim, now) && Fits(lim, |s.pcs|) && Possible(s, lim, now, mvs) && now < lo
    ensures CountIn(Admitted(mvs), lo, lim.time) <= Bound(|s.pcs|, |s.looks|, lim)
    decreases mvs
  {
    hide Enabled, Bound, Inv, Next, Older, LeftOlder;
    var hi := lo + lim.time;
    InvOlder(s, lim, now, lo);
    OlderInv(s, lim, now, hi);
    OlderWithinBound(s, lim, now);
    if mvs != [] {
      var mv := mvs[0];
      PossibleFrom(s, lim, now, mvs);
      if Begins(now, mv) >= lo {
        OlderLater(s, lim, now, hi, Begins(now, mv));
        OlderRun(s, lim, Begins(now, mv), mvs, lo);
      } else if Ends(now, mv) >= lo {
        CrossingRun(s, lim, now, mvs, lo);
      } else {
        NextKeepsInv(s, lim, now, mv);
        AdmittedCount(mvs, lo, lim.time);
        EarlierRun(Next(s, lim, mv), lim, Ends(now, mv), mvs[1..], lo);
      }
    }
  }

  lemma StartInv(n: nat, b: nat, lim: Limit, now: int)
    requires Fits(lim, n)
    ensures Inv(Start(n, b), lim, now)
  {
    hide Count;
    CountSum(Start(n, b).pcs, None, 0);
  }

  /** In every run of at most `n` calls and `b` more Browses at a time any closed interval of the window's length holds at most `Bound` admissions. */
  lemma RacesSafe(n: nat, b: nat, lim: Limit, now: int, mvs: seq<Move>)
    requires Fits(lim, n) && Possible(Start(n, b), lim, now, mvs)
    ensures Bound(n, b, lim) >= 0 && AtMost(Admitted(mvs), Bound(n, b, lim), lim.time)
  {
    hide Possible, Admitted, Bound, Inv, Older, LeftOlder;
    var s := Start(n, b);
    StartInv(n, b, lim, now);
    forall lo ensures 0 <= CountIn(Admitted(mvs), lo, lim.time) <= Bound(n, b, lim) {
      if now < lo {
        EarlierRun(s, lim, now, mvs, lo);
      } else {
        EmptyOlder(n, b, lim, now, lo + lim.time);
        OlderWithinBound(s, lim, now);
        OlderRun(s, lim, now, mvs, lo);
      }
    }
  }

  lemma EmptyOlder(n: nat, b: nat, lim: Limit, now: int, hi: int)
    requires Fits(lim, n)
    ensures Older(Start(n, b), lim, now, hi)
  {
    StartInv(n, b, lim, now);
  }

  lemma {:induction false} RestClosed(m: int, d: nat)
    ensures 2 * Rest(m, d) == d * (2 * m - d + 1)
  {
    if d > 0 {
      RestClosed(m, d - 1);
    }
  }

  lemma {:induction false} ExtraClosed(m: int, d: nat)
    ensures Extra(m, d) == d * m
  {
    if d > 0 {
      ExtraClosed(m, d - 1);
    }
  }

  /** The bound in closed form, without Browses beside the `n` calls and with `b` of them. */
  lemma BoundClosed(n: nat, b: nat, lim: Limit)
    requires n >= 1 && lim.count >= 1
    ensures 2 * Bound(n, 0, lim) == 2 * (lim.count + n - 2) + 2 * n * (lim.count - 1) + n * (n + 1)
    ensures Bound(n, b, lim) == Bound(n, 0, lim) + b * (lim.count + n - 1)
  {
    RestClosed(lim.count + n - 1, n - 1);
    ExtraClosed(lim.count + n - 1, b);
  }

  /** It is that of single-step Checks for one call at a time, and higher otherwise. */
  lemma BoundHigher(n: nat, b: nat, lim: Limit)
    requires n >= 1 && lim.count >= 1
    ensures Bound(n, b, lim) >= 2 * (lim.count + n - 1) - 1
    ensures Bound(n, b, lim) == 2 * (lim.count + n - 1) - 1 <==> n == 1 && b == 0
  {
    var m := lim.count + n - 1;
    RestAtLeast(m, n - 1);
    ExtraGrows(m, if b == 0 then 0 else 1, b);
    assert b > 0 ==> Extra(m, 1) == m;
  }

  lemma {:induction false} RestAtLeast(m: int, d: nat)
    requires m > d
    ensures Rest(m, d) >= d && (d > 0 ==> Rest(m, d) > d)
  {
    if d > 0 {
      RestAtLeast(m, d - 1);
    }
  }
}
