/**
 * A run of concurrent calls on a count key that reaches the bound, for any limit and any number of
 * places: all calls look at an expired counter and then delete, one after the other, a counter that
 * the others have just filled, first the Checks and then the Browses.
 */
module RaceRuns {
  import opened CountRaces
  import opened GoTypes
  import opened Intervals
  import opened Limiters

  // Moves without their clock

  predicate Runs(s: State, lim: Limit, mvs: seq<Move>)
    requires Valid(s)
    decreases mvs
  {
    mvs == [] || (Enabled(s, mvs[0]) && Runs(Next(s, lim, mvs[0]), lim, mvs[1..]))
  }

  function End(s: State, lim: Limit, mvs: seq<Move>): (s': State)
    requires Valid(s) && Runs(s, lim, mvs)
    ensures Valid(s') && |s'.pcs| == |s.pcs| && |s'.looks| == |s.looks|
    decreases mvs
  {
    if mvs == [] then s else End(Next(s, lim, mvs[0]), lim, mvs[1..])
  }

  /** `mvs` can be made from `s` and lead to `s'`. */
  ghost predicate Leads(s: State, lim: Limit, mvs: seq<Move>, s': State) {
    Valid(s) && Valid(s') && Runs(s, lim, mvs) && End(s, lim, mvs) == s'
  }

  lemma {:induction false} LeadsOn(s: State, lim: Limit, mvs: seq<Move>, s': State, more: seq<Move>, s'': State)
    requires Leads(s, lim, mvs, s') && Leads(s', lim, more, s'')
    ensures Leads(s, lim, mvs + more, s'')
    decreases mvs
  {
    hide Enabled, Next;
    if mvs == [] {
      assert mvs + more == more;
    } else {
      assert (mvs + more)[0] == mvs[0] && (mvs + more)[1..] == mvs[1..] + more;
      LeadsOn(Next(s, lim, mvs[0]), lim, mvs[1..], s', more, s'');
    }
  }

  lemma LeadsOne(s: State, lim: Limit, mv: Move)
    requires Valid(s) && Enabled(s, mv)
    ensures Leads(s, lim, [mv], Next(s, lim, mv))
  {
    hide Enabled, Next;
    var none: seq<Move> := [];
    assert [mv][0] == mv && [mv][1..] == none;
    assert Runs(Next(s, lim, mv), lim, none) && End(Next(s, lim, mv), lim, none) == Next(s, lim, mv);
    assert Runs(s, lim, [mv]) && End(s, lim, [mv]) == End(Next(s, lim, mv), lim, none);
  }

  lemma LeadsTwo(s: State, lim: Limit, mv: Move, mv': Move, s': State)
    requires Valid(s) && Enabled(s, mv) && Enabled(Next(s, lim, mv), mv') && s' == Next(Next(s, lim, mv), lim, mv')
    ensures Leads(s, lim, [mv, mv'], s')
  {
    hide Enabled, Next;
    var between := Next(s, lim, mv);
    LeadsOne(s, lim, mv);
    LeadsOne(between, lim, mv');
    LeadsOn(s, lim, [mv], between, [mv'], s');
    assert [mv] + [mv'] == [mv, mv'];
  }

  // Blocks of moves

  function FindAll(a: nat, b: nat): seq<Move>
    decreases b - a
  {
    if a >= b then [] else [Find(a)] + FindAll(a + 1, b)
  }

  /** Places that find an expired counter. */
  function StrandAll(a: nat, b: nat, t: int): seq<Move>
    decreases b - a
  {
    if a >= b then [] else [Find(a), Inspect(a, t)] + StrandAll(a + 1, b, t)
  }

  /** A Browse that is not hit. */
  function Pass(t: int): seq<Move> {
    [Find(0), Inspect(0, t)] + [Load(0)]
  }

  function Bump(i: nat, t: int): seq<Move> {
    [Lookup(i, t, t), Add(i)]
  }

  function BumpAll(a: nat, b: nat, t: int): seq<Move>
    decreases b - a
  {
    if a >= b then [] else Bump(a, t) + BumpAll(a + 1, b, t)
  }

  /** `k` Checks one after the other. */
  function Checks(k: nat, t: int): seq<Move> {
    if k == 0 then [] else (Pass(t) + Bump(0, t)) + Checks(k - 1, t)
  }

  /** `pcs` with `pc` in the places from `a` to `b`. */
  function Fill(pcs: seq<Pc>, a: nat, b: nat, pc: Pc): (r: seq<Pc>)
    requires b <= |pcs|
    ensures |r| == |pcs| && forall i :: 0 <= i < |pcs| ==> r[i] == if a <= i < b then pc else pcs[i]
    decreases b - a
  {
    if a >= b then pcs else Fill(pcs[a := pc], a + 1, b, pc)
  }

  function Bumped(s: State, k: nat): State
    requires Valid(s) && s.current.Some?
  {
    var e := s.current.value;
    s.(entries := s.entries[e := s.entries[e].(value := s.entries[e].value + k)])
  }

  /** The counter in the map is live at `t`, and `k` bumps are far from wrapping it around. */
  predicate Live(s: State, t: int, k: nat) {
    && Valid(s) && s.current.Some?
    && t <= s.entries[s.current.value].expires
    && 0 <= Level(s) && Level(s) + k <= MAX_INT64
  }

  lemma {:induction false} FindAllLeads(s: State, lim: Limit, a: nat, b: nat)
    requires Valid(s) && s.current == None && b <= |s.pcs| && forall i :: a <= i < b ==> s.pcs[i] == Idle
    ensures Leads(s, lim, FindAll(a, b), s.(pcs := Fill(s.pcs, a, b, Pending)))
    decreases b - a
  {
    if a < b {
      var s' := At(s, a, Pending);
      LeadsOne(s, lim, Find(a));
      FindAllLeads(s', lim, a + 1, b);
      LeadsOn(s, lim, [Find(a)], s', FindAll(a + 1, b), s.(pcs := Fill(s.pcs, a, b, Pending)));
    }
  }

  lemma {:induction false} StrandAllLeads(s: State, lim: Limit, a: nat, b: nat, t: int)
    requires Valid(s) && s.current.Some? && b <= |s.pcs| && forall i :: a <= i < b ==> s.pcs[i] == Idle
    requires t > s.entries[s.current.value].expires
    ensures Leads(s, lim, StrandAll(a, b, t), s.(pcs := Fill(s.pcs, a, b, Deleting(s.current.value))))
    decreases b - a
  {
    hide Runs, End;
    var last := s.(pcs := Fill(s.pcs, a, b, Deleting(s.current.value)));
    if a < b {
      var s' := At(s, a, Deleting(s.current.value));
      assert At(At(s, a, Found(s.current.value)), a, Deleting(s.current.value)) == s';
      LeadsTwo(s, lim, Find(a), Inspect(a, t), s');
      StrandAllLeads(s', lim, a + 1, b, t);
      LeadsOn(s, lim, [Find(a), Inspect(a, t)], s', StrandAll(a + 1, b, t), last);
    } else {
      NoMoves(s, lim);
    }
  }

  lemma NoMoves(s: State, lim: Limit)
    requires Valid(s)
    ensures Leads(s, lim, [], s)
  {
  }

  lemma BumpLeads(s: State, lim: Limit, i: nat, t: int)
    requires Live(s, t, 1) && i < |s.pcs| && s.pcs[i] == Pending
    ensures Leads(s, lim, Bump(i, t), At(Bumped(s, 1), i, Idle))
  {
    hide Runs, End, Wrap64;
    var e := s.current.value;
    var held := At(s, i, Holding(e));
    assert Wrap64(Level(s) + 1) == Level(s) + 1;
    assert Next(held, lim, Add(i)) == At(Bumped(s, 1), i, Idle) by {
      assert held.pcs[i := Idle] == s.pcs[i := Idle];
    }
    LeadsTwo(s, lim, Lookup(i, t, t), Add(i), At(Bumped(s, 1), i, Idle));
  }

  lemma {:induction false} BumpAllLeads(s: State, lim: Limit, a: nat, b: nat, t: int)
    requires a <= b <= |s.pcs| && Live(s, t, b - a) && forall i :: a <= i < b ==> s.pcs[i] == Pending
    ensures Leads(s, lim, BumpAll(a, b, t), Bumped(s, b - a).(pcs := Fill(s.pcs, a, b, Idle)))
    decreases b - a
  {
    hide Runs, End;
    var last := Bumped(s, b - a).(pcs := Fill(s.pcs, a, b, Idle));
    if a < b {
      var s' := At(Bumped(s, 1), a, Idle);
      BumpLeads(s, lim, a, t);
      BumpAllLeads(s', lim, a + 1, b, t);
      assert Bumped(s', b - a - 1).entries == Bumped(s, b - a).entries;
      LeadsOn(s, lim, Bump(a, t), s', BumpAll(a + 1, b, t), last);
    } else {
      assert Bumped(s, 0).entries == s.entries;
      NoMoves(s, lim);
    }
  }

  lemma PassLeads(s: State, lim: Limit, t: int)
    requires Live(s, t, 1) && |s.pcs| > 0 && s.pcs[0] == Idle && Level(s) < lim.count
    ensures Leads(s, lim, Pass(t), At(s, 0, Pending))
  {
    hide Runs, End;
    var reading := At(s, 0, Reading(s.current.value));
    assert At(At(s, 0, Found(s.current.value)), 0, Reading(s.current.value)) == reading;
    assert At(reading, 0, Pending) == At(s, 0, Pending);
    LeadsTwo(s, lim, Find(0), Inspect(0, t), reading);
    LeadsOne(reading, lim, Load(0));
    LeadsOn(s, lim, [Find(0), Inspect(0, t)], reading, [Load(0)], At(s, 0, Pending));
  }

  lemma {:induction false} ChecksLead(s: State, lim: Limit, k: nat, t: int)
    requires Live(s, t, k) && |s.pcs| > 0 && s.pcs[0] == Idle && Level(s) + k <= lim.count
    ensures Leads(s, lim, Checks(k, t), Bumped(s, k))
    decreases k
  {
    hide Runs, End;
    if k > 0 {
      var pending, s' := At(s, 0, Pending), Bumped(s, 1);
      PassLeads(s, lim, t);
      BumpLeads(pending, lim, 0, t);
      assert At(Bumped(pending, 1), 0, Idle) == s' by {
        assert pending.pcs[0 := Idle] == s.pcs;
      }
      LeadsOn(s, lim, Pass(t), pending, Bump(0, t), s');
      ChecksLead(s', lim, k - 1, t);
      assert Bumped(s', k - 1).entries == Bumped(s, k).entries;
      LeadsOn(s, lim, Pass(t) + Bump(0, t), s', Checks(k - 1, t), Bumped(s, k));
    } else {
      assert Bumped(s, 0).entries == s.entries;
      NoMoves(s, lim);
    }
  }

  // Windows and stages

  /** The first of `i` pending places makes a counter at `start`; it fills the counter at `t`, and then the others bump it. */
  function Window(i: nat, lim: Limit, start: int, t: int): seq<Move>
    requires ValidLimit(lim)
  {
    Bump(0, start) + (Checks(lim.count - 1, t) + BumpAll(1, i, t))
  }

  function Made(s: State, value: int, expires: int): State {
    s.(entries := s.entries + [Entry(value, expires)], current := Some(|s.entries|))
  }

  lemma OpeningLeads(s: State, lim: Limit, start: int)
    requires Valid(s) && s.current == None && |s.pcs| > 0 && s.pcs[0] == Pending
    ensures Leads(s, lim, Bump(0, start), At(Made(s, 1, start + lim.time), 0, Idle))
  {
    hide Runs, End, Wrap64;
    assert Wrap64(1) == 1;
    var held := At(Made(s, 0, start + lim.time), 0, Holding(|s.entries|));
    assert held.pcs[0 := Idle] == s.pcs[0 := Idle];
    LeadsTwo(s, lim, Lookup(0, start, start), Add(0), At(Made(s, 1, start + lim.time), 0, Idle));
  }

  lemma WindowLeads(s: State, lim: Limit, i: nat, start: int, t: int)
    requires Valid(s) && s.current == None && Fits(lim, |s.pcs|) && 1 <= i <= |s.pcs|
    requires (forall j :: 0 <= j < i ==> s.pcs[j] == Pending) && start <= t <= start + lim.time
    ensures Leads(s, lim, Window(i, lim, start, t),
                  Made(s, lim.count - 1 + i, start + lim.time).(pcs := Fill(s.pcs, 0, i, Idle)))
  {
    hide Leads, Fits, Checks, BumpAll, Bump;
    WhatFits(lim, |s.pcs|);
    var first := At(Made(s, 1, start + lim.time), 0, Idle);
    var full := Bumped(first, lim.count - 1);
    var last := Bumped(full, i - 1).(pcs := Fill(first.pcs, 1, i, Idle));
    OpeningLeads(s, lim, start);
    ChecksLead(first, lim, lim.count - 1, t);
    BumpAllLeads(full, lim, 1, i, t);
    assert last == Made(s, lim.count - 1 + i, start + lim.time).(pcs := Fill(s.pcs, 0, i, Idle));
    LeadsOn(first, lim, Checks(lim.count - 1, t), full, BumpAll(1, i, t), last);
    LeadsOn(s, lim, Bump(0, start), first, Checks(lim.count - 1, t) + BumpAll(1, i, t), last);
  }

  lemma WhatFits(lim: Limit, n: nat)
    requires Fits(lim, n)
    ensures ValidLimit(lim) && lim.count + n <= MAX_INT64 && n >= 1
  {
  }

  /** Place `j` deletes the counter in the map, the places before it find none, and all of them fill the next one. */
  function Stage(j: nat, lim: Limit, t: int): seq<Move>
    requires ValidLimit(lim)
  {
    [Delete(j)] + (FindAll(0, j) + Window(j + 1, lim, t, t))
  }

  function Stages(j: nat, n: nat, lim: Limit, t: int): seq<Move>
    requires ValidLimit(lim)
    decreases n - j
  {
    if j >= n then [] else Stage(j, lim, t) + Stages(j + 1, n, lim, t)
  }

  /** The places from `j` on are about to delete, the others are idle. */
  predicate Stranded(s: State, j: nat) {
    Valid(s) && j <= |s.pcs| && forall i :: 0 <= i < |s.pcs| ==> if i < j then s.pcs[i] == Idle else s.pcs[i].Deleting?
  }

  lemma StageLeads(s: State, lim: Limit, j: nat, t: int) returns (s': State)
    requires Stranded(s, j) && j < |s.pcs| && Fits(lim, |s.pcs|)
    ensures Leads(s, lim, Stage(j, lim, t), s') && Stranded(s', j + 1) && |s'.pcs| == |s.pcs| && s'.looks == s.looks
  {
    hide Leads, FindAll, Window, Fits;
    WhatFits(lim, |s.pcs|);
    var deleted := At(s, j, Pending).(current := None);
    var pending := deleted.(pcs := Fill(deleted.pcs, 0, j, Pending));
    s' := Made(pending, lim.count + j, t + lim.time).(pcs := Fill(pending.pcs, 0, j + 1, Idle));
    LeadsOne(s, lim, Delete(j));
    FindAllLeads(deleted, lim, 0, j);
    WindowLeads(pending, lim, j + 1, t, t);
    LeadsOn(deleted, lim, FindAll(0, j), pending, Window(j + 1, lim, t, t), s');
    LeadsOn(s, lim, [Delete(j)], deleted, FindAll(0, j) + Window(j + 1, lim, t, t), s');
  }

  lemma {:induction false} StagesLead(s: State, lim: Limit, j: nat, t: int) returns (s': State)
    requires Stranded(s, j) && Fits(lim, |s.pcs|)
    ensures Leads(s, lim, Stages(j, |s.pcs|, lim, t), s') && Stranded(s', |s.pcs|) && |s'.pcs| == |s.pcs| && s'.looks == s.looks
    decreases |s.pcs| - j
  {
    hide Leads, Stage, Fits;
    WhatFits(lim, |s.pcs|);
    if j < |s.pcs| {
      var between := StageLeads(s, lim, j, t);
      s' := StagesLead(between, lim, j + 1, t);
      LeadsOn(s, lim, Stage(j, lim, t), between, Stages(j + 1, |s.pcs|, lim, t), s');
    } else {
      NoMoves(s, lim);
      s' := s;
    }
  }

  // The Browses that have places of their own

  /** Browses that find an expired counter. */
  function GlanceAll(a: nat, b: nat, t: int): seq<Move>
    decreases b - a
  {
    if a >= b then [] else [Look(a, t), Look(a, t)] + GlanceAll(a + 1, b, t)
  }

  lemma {:induction false} GlanceAllLeads(s: State, lim: Limit, a: nat, b: nat, t: int)
    requires Valid(s) && s.current.Some? && b <= |s.looks| && forall i :: a <= i < b ==> s.looks[i] == Idle
    requires t > s.entries[s.current.value].expires
    ensures Leads(s, lim, GlanceAll(a, b, t), s.(looks := Fill(s.looks, a, b, Deleting(s.current.value))))
    decreases b - a
  {
    hide Runs, End;
    var last := s.(looks := Fill(s.looks, a, b, Deleting(s.current.value)));
    if a < b {
      var s' := Seen(s, a, Deleting(s.current.value));
      assert Seen(Seen(s, a, Found(s.current.value)), a, Deleting(s.current.value)) == s';
      LeadsTwo(s, lim, Look(a, t), Look(a, t), s');
      GlanceAllLeads(s', lim, a + 1, b, t);
      LeadsOn(s, lim, [Look(a, t), Look(a, t)], s', GlanceAll(a + 1, b, t), last);
    } else {
      NoMoves(s, lim);
    }
  }

  /** The Browse in place `j` deletes the counter in the map, and all other places fill the next one. */
  function Glimpse(j: nat, n: nat, lim: Limit, t: int): seq<Move>
    requires ValidLimit(lim)
  {
    [Look(j, t)] + (FindAll(0, n) + Window(n, lim, t, t))
  }

  function Glimpses(j: nat, b: nat, n: nat, lim: Limit, t: int): seq<Move>
    requires ValidLimit(lim)
    decreases b - j
  {
    if j >= b then [] else Glimpse(j, n, lim, t) + Glimpses(j + 1, b, n, lim, t)
  }

  /** The Browses from `j` on are about to delete, everybody else is idle. */
  predicate Glimpsing(s: State, j: nat) {
    && Valid(s) && j <= |s.looks| && (forall i :: 0 <= i < |s.pcs| ==> s.pcs[i] == Idle)
    && forall i :: 0 <= i < |s.looks| ==> if i < j then s.looks[i] == Idle else s.looks[i].Deleting?
  }

  lemma GlimpseLeads(s: State, lim: Limit, j: nat, t: int) returns (s': State)
    requires Glimpsing(s, j) && j < |s.looks| && Fits(lim, |s.pcs|)
    ensures Leads(s, lim, Glimpse(j, |s.pcs|, lim, t), s') && Glimpsing(s', j + 1) && |s'.pcs| == |s.pcs| && |s'.looks| == |s.looks|
  {
    hide Leads, FindAll, Window, Fits;
    var n := |s.pcs|;
    WhatFits(lim, n);
    var deleted := Seen(s, j, Idle).(current := None);
    var pending := deleted.(pcs := Fill(deleted.pcs, 0, n, Pending));
    s' := Made(pending, lim.count - 1 + n, t + lim.time).(pcs := Fill(pending.pcs, 0, n, Idle));
    LeadsOne(s, lim, Look(j, t));
    FindAllLeads(deleted, lim, 0, n);
    WindowLeads(pending, lim, n, t, t);
    LeadsOn(deleted, lim, FindAll(0, n), pending, Window(n, lim, t, t), s');
    LeadsOn(s, lim, [Look(j, t)], deleted, FindAll(0, n) + Window(n, lim, t, t), s');
  }

  lemma {:induction false} GlimpsesLead(s: State, lim: Limit, j: nat, t: int) returns (s': State)
    requires Glimpsing(s, j) && Fits(lim, |s.pcs|)
    ensures Leads(s, lim, Glimpses(j, |s.looks|, |s.pcs|, lim, t), s')
    decreases |s.looks| - j
  {
    hide Leads, Glimpse, Fits;
    WhatFits(lim, |s.pcs|);
    if j < |s.looks| {
      var between := GlimpseLeads(s, lim, j, t);
      s' := GlimpsesLead(between, lim, j + 1, t);
      LeadsOn(s, lim, Glimpse(j, |s.pcs|, lim, t), between, Glimpses(j + 1, |s.looks|, |s.pcs|, lim, t), s');
    } else {
      NoMoves(s, lim);
      s' := s;
    }
  }

  /** All calls see the counter expired, and then everybody deletes in turn. */
  function Aftermath(n: nat, b: nat, lim: Limit, t: int): seq<Move>
    requires ValidLimit(lim)
  {
    GlanceAll(0, b, t) + (StrandAll(0, n, t) + (Stages(0, n, lim, t) + Glimpses(0, b, n, lim, t)))
  }

  lemma AftermathLeads(s: State, lim: Limit, t: int) returns (s': State)
    requires Valid(s) && s.current.Some? && Fits(lim, |s.pcs|) && t > s.entries[s.current.value].expires
    requires (forall i :: 0 <= i < |s.pcs| ==> s.pcs[i] == Idle) && forall i :: 0 <= i < |s.looks| ==> s.looks[i] == Idle
    ensures Leads(s, lim, Aftermath(|s.pcs|, |s.looks|, lim, t), s')
  {
    hide Leads, FindAll, GlanceAll, StrandAll, Stages, Glimpses, Fits;
    var n, b, e := |s.pcs|, |s.looks|, s.current.value;
    WhatFits(lim, n);
    var glanced := s.(looks := Fill(s.looks, 0, b, Deleting(e)));
    var stranded := glanced.(pcs := Fill(s.pcs, 0, n, Deleting(e)));
    GlanceAllLeads(s, lim, 0, b, t);
    StrandAllLeads(glanced, lim, 0, n, t);
    var staged := StagesLead(stranded, lim, 0, t);
    s' := GlimpsesLead(staged, lim, 0, t);
    LeadsOn(stranded, lim, Stages(0, n, lim, t), staged, Glimpses(0, b, n, lim, t), s');
    LeadsOn(glanced, lim, StrandAll(0, n, t), stranded, Stages(0, n, lim, t) + Glimpses(0, b, n, lim, t), s');
    LeadsOn(s, lim, GlanceAll(0, b, t), glanced, StrandAll(0, n, t) + (Stages(0, n, lim, t) + Glimpses(0, b, n, lim, t)), s');
  }

  /** A window opened at 0 and filled at its last live instant; an instant later everybody sees it expired. */
  function Worst(n: nat, b: nat, lim: Limit): seq<Move>
    requires ValidLimit(lim)
  {
    FindAll(0, n) + (Window(n, lim, 0, lim.time) + Aftermath(n, b, lim, lim.time + 1))
  }

  lemma WorstLeads(n: nat, b: nat, lim: Limit) returns (s: State)
    requires Fits(lim, n)
    ensures Leads(Start(n, b), lim, Worst(n, b, lim), s)
  {
    hide Leads, FindAll, Window, Aftermath, Fits;
    WhatFits(lim, n);
    var start := Start(n, b);
    var t := lim.time;
    var pending := start.(pcs := Fill(start.pcs, 0, n, Pending));
    var full := Made(pending, lim.count - 1 + n, t).(pcs := Fill(pending.pcs, 0, n, Idle));
    FindAllLeads(start, lim, 0, n);
    WindowLeads(pending, lim, n, 0, t);
    s := AftermathLeads(full, lim, t + 1);
    LeadsOn(pending, lim, Window(n, lim, 0, t), full, Aftermath(n, b, lim, t + 1), s);
    LeadsOn(start, lim, FindAll(0, n), pending, Window(n, lim, 0, t) + Aftermath(n, b, lim, t + 1), s);
  }

  // The clock

  predicate Timed(now: int, mvs: seq<Move>)
    decreases mvs
  {
    mvs == [] || (Reads(now, mvs[0]) && Timed(Ends(now, mvs[0]), mvs[1..]))
  }

  lemma {:induction false} RunsPossible(s: State, lim: Limit, now: int, mvs: seq<Move>)
    requires Valid(s) && Runs(s, lim, mvs) && Timed(now, mvs)
    ensures Possible(s, lim, now, mvs)
    decreases mvs
  {
    hide Next, Enabled;
    if mvs != [] {
      RunsPossible(Next(s, lim, mvs[0]), lim, Ends(now, mvs[0]), mvs[1..]);
    }
  }

  /** Every reading of the clock is `t`. */
  predicate AllAt(mvs: seq<Move>, t: int) {
    forall mv :: mv in mvs ==> (mv.Inspect? || mv.Look? ==> mv.now == t) && (mv.Lookup? ==> mv.now == t && mv.stamp == t)
  }

  lemma {:induction false} TimedEarlier(now: int, t: int, mvs: seq<Move>)
    requires now <= t && Timed(t, mvs)
    ensures Timed(now, mvs)
    decreases mvs
  {
    if mvs != [] {
      TimedEarlier(Ends(now, mvs[0]), Ends(t, mvs[0]), mvs[1..]);
    }
  }

  lemma {:induction false} AllAtTimed(mvs: seq<Move>, now: int, t: int, rest: seq<Move>)
    requires AllAt(mvs, t) && now <= t && Timed(t, rest)
    ensures Timed(now, mvs + rest)
    decreases mvs
  {
    if mvs == [] {
      assert mvs + rest == rest;
      TimedEarlier(now, t, rest);
    } else {
      assert (mvs + rest)[0] == mvs[0] && (mvs + rest)[1..] == mvs[1..] + rest;
      assert mvs[0] in mvs;
      AllAtTimed(mvs[1..], Ends(now, mvs[0]), t, rest);
    }
  }

  lemma {:induction false} PlacesAt(a: nat, b: nat, t: int)
    ensures AllAt(FindAll(a, b), t) && AllAt(StrandAll(a, b, t), t) && AllAt(BumpAll(a, b, t), t) && AllAt(GlanceAll(a, b, t), t)
    decreases b - a
  {
    if a < b {
      PlacesAt(a + 1, b, t);
    }
  }

  lemma {:induction false} ChecksAt(k: nat, t: int)
    ensures AllAt(Checks(k, t), t)
  {
    if k > 0 {
      ChecksAt(k - 1, t);
    }
  }

  lemma {:induction false} StagesAt(j: nat, n: nat, lim: Limit, t: int)
    requires ValidLimit(lim)
    ensures AllAt(Stages(j, n, lim, t), t)
    decreases n - j
  {
    if j < n {
      StagesAt(j + 1, n, lim, t);
      PlacesAt(0, j, t);
      PlacesAt(1, j + 1, t);
      ChecksAt(lim.count - 1, t);
    }
  }

  lemma {:induction false} GlimpsesAt(j: nat, b: nat, n: nat, lim: Limit, t: int)
    requires ValidLimit(lim)
    ensures AllAt(Glimpses(j, b, n, lim, t), t)
    decreases b - j
  {
    if j < b {
      GlimpsesAt(j + 1, b, n, lim, t);
      PlacesAt(0, n, t);
      PlacesAt(1, n, t);
      ChecksAt(lim.count - 1, t);
    }
  }

  lemma AftermathAt(n: nat, b: nat, lim: Limit, t: int)
    requires ValidLimit(lim)
    ensures AllAt(Aftermath(n, b, lim, t), t)
  {
    hide AllAt, StrandAll, GlanceAll, Stages, Glimpses;
    PlacesAt(0, n, t);
    PlacesAt(0, b, t);
    StagesAt(0, n, lim, t);
    GlimpsesAt(0, b, n, lim, t);
    AllAtConcat(Stages(0, n, lim, t), Glimpses(0, b, n, lim, t), t);
    AllAtConcat(StrandAll(0, n, t), Stages(0, n, lim, t) + Glimpses(0, b, n, lim, t), t);
    AllAtConcat(GlanceAll(0, b, t), StrandAll(0, n, t) + (Stages(0, n, lim, t) + Glimpses(0, b, n, lim, t)), t);
  }

  lemma WorstTimed(n: nat, b: nat, lim: Limit)
    requires ValidLimit(lim)
    ensures Timed(0, Worst(n, b, lim))
  {
    hide AllAt, Timed, FindAll, BumpAll, Checks, Aftermath, Bump;
    var t := lim.time;
    var first, second := Checks(lim.count - 1, t) + BumpAll(1, n, t), Aftermath(n, b, lim, t + 1);
    PlacesAt(0, n, 0);
    PlacesAt(1, n, t);
    ChecksAt(lim.count - 1, t);
    AftermathAt(n, b, lim, t + 1);
    AllAtConcat(Checks(lim.count - 1, t), BumpAll(1, n, t), t);
    BumpAt(0);
    NoneTimed(t + 1);
    AllAtTimed(second, t, t + 1, []);
    assert second + [] == second;
    AllAtTimed(first, 0, t, second);
    AllAtTimed(Bump(0, 0), 0, 0, first + second);
    AllAtTimed(FindAll(0, n), 0, 0, Bump(0, 0) + (first + second));
    assert Bump(0, 0) + (first + second) == Window(n, lim, 0, t) + second;
  }

  lemma AllAtConcat(a: seq<Move>, b: seq<Move>, t: int)
    requires AllAt(a, t) && AllAt(b, t)
    ensures AllAt(a + b, t)
  {
  }

  lemma BumpAt(t: int)
    ensures AllAt(Bump(0, t), t)
  {
  }

  lemma NoneTimed(now: int)
    ensures Timed(now, [])
  {
  }

  // What it admits

  /** The admissions of `mvs` in an interval. */
  function In(mvs: seq<Move>, lo: int, len: int): nat {
    CountIn(Admitted(mvs), lo, len)
  }

  lemma {:induction false} InConcat(a: seq<Move>, b: seq<Move>, lo: int, len: int)
    ensures In(a + b, lo, len) == In(a, lo, len) + In(b, lo, len)
  {
    if a == [] {
      assert a + b == b;
    } else {
      assert (a + b)[0] == a[0] && (a + b)[1..] == a[1..] + b;
      AdmittedCount(a, lo, len);
      AdmittedCount(a + b, lo, len);
      InConcat(a[1..], b, lo, len);
    }
  }

  lemma InPair(mv: Move, mv': Move, lo: int, len: int)
    ensures var (x, y) := (if mv.Lookup? && lo <= mv.now <= lo + len then 1 else 0,
                           if mv'.Lookup? && lo <= mv'.now <= lo + len then 1 else 0);
            In([mv, mv'], lo, len) == x + y && In([mv], lo, len) == x
  {
    assert [mv, mv'][1..] == [mv'] && [mv'][1..] == [] && [mv][1..] == [];
    AdmittedCount([mv, mv'], lo, len);
    AdmittedCount([mv'], lo, len);
    AdmittedCount([mv], lo, len);
  }

  lemma {:induction false} PlacesIn(a: nat, b: nat, t: int, lo: int, len: int)
    requires lo <= t <= lo + len && a <= b
    ensures In(FindAll(a, b), lo, len) == 0 && In(StrandAll(a, b, t), lo, len) == 0 && In(BumpAll(a, b, t), lo, len) == b - a
    ensures In(GlanceAll(a, b, t), lo, len) == 0
    decreases b - a
  {
    hide In;
    if a < b {
      PlacesIn(a + 1, b, t, lo, len);
      InPair(Find(a), Inspect(a, t), lo, len);
      InPair(Lookup(a, t, t), Add(a), lo, len);
      InPair(Look(a, t), Look(a, t), lo, len);
      InConcat([Look(a, t), Look(a, t)], GlanceAll(a + 1, b, t), lo, len);
      InConcat([Find(a)], FindAll(a + 1, b), lo, len);
      InConcat([Find(a), Inspect(a, t)], StrandAll(a + 1, b, t), lo, len);
      InConcat(Bump(a, t), BumpAll(a + 1, b, t), lo, len);
    } else {
      NoneIn(lo, len);
    }
  }

  lemma NoneIn(lo: int, len: int)
    ensures In([], lo, len) == 0
  {
  }

  lemma {:induction false} ChecksIn(k: nat, t: int, lo: int, len: int)
    requires lo <= t <= lo + len
    ensures In(Checks(k, t), lo, len) == k
  {
    hide In;
    if k > 0 {
      ChecksIn(k - 1, t, lo, len);
      InPair(Find(0), Inspect(0, t), lo, len);
      InPair(Load(0), Load(0), lo, len);
      InPair(Lookup(0, t, t), Add(0), lo, len);
      InConcat([Find(0), Inspect(0, t)], [Load(0)], lo, len);
      InConcat(Pass(t), Bump(0, t), lo, len);
      InConcat(Pass(t) + Bump(0, t), Checks(k - 1, t), lo, len);
    } else {
      NoneIn(lo, len);
    }
  }

  lemma WindowIn(i: nat, lim: Limit, start: int, t: int, lo: int, len: int)
    requires ValidLimit(lim) && i >= 1 && lo <= t <= lo + len
    ensures In(Window(i, lim, start, t), lo, len) == (if lo <= start <= lo + len then 1 else 0) + lim.count - 1 + i - 1
  {
    hide In, Checks, BumpAll;
    InPair(Lookup(0, start, start), Add(0), lo, len);
    ChecksIn(lim.count - 1, t, lo, len);
    PlacesIn(1, i, t, lo, len);
    InConcat(Checks(lim.count - 1, t), BumpAll(1, i, t), lo, len);
    InConcat(Bump(0, start), Checks(lim.count - 1, t) + BumpAll(1, i, t), lo, len);
  }

  lemma {:induction false} StagesIn(j: nat, n: nat, lim: Limit, t: int, lo: int, len: int)
    requires ValidLimit(lim) && j <= n && lo <= t <= lo + len
    ensures In(Stages(j, n, lim, t), lo, len) == Rest(lim.count + n - 1, n - j)
    decreases n - j
  {
    hide In, Window, FindAll;
    if j < n {
      StagesIn(j + 1, n, lim, t, lo, len);
      InPair(Delete(j), Delete(j), lo, len);
      PlacesIn(0, j, t, lo, len);
      WindowIn(j + 1, lim, t, t, lo, len);
      InConcat(FindAll(0, j), Window(j + 1, lim, t, t), lo, len);
      InConcat([Delete(j)], FindAll(0, j) + Window(j + 1, lim, t, t), lo, len);
      InConcat(Stage(j, lim, t), Stages(j + 1, n, lim, t), lo, len);
    } else {
      NoneIn(lo, len);
    }
  }

  lemma {:induction false} GlimpsesIn(j: nat, b: nat, n: nat, lim: Limit, t: int, lo: int, len: int)
    requires ValidLimit(lim) && j <= b && n >= 1 && lo <= t <= lo + len
    ensures In(Glimpses(j, b, n, lim, t), lo, len) == Extra(lim.count + n - 1, b - j)
    decreases b - j
  {
    hide In, Window, FindAll;
    if j < b {
      GlimpsesIn(j + 1, b, n, lim, t, lo, len);
      InPair(Look(j, t), Look(j, t), lo, len);
      PlacesIn(0, n, t, lo, len);
      WindowIn(n, lim, t, t, lo, len);
      InConcat(FindAll(0, n), Window(n, lim, t, t), lo, len);
      InConcat([Look(j, t)], FindAll(0, n) + Window(n, lim, t, t), lo, len);
      InConcat(Glimpse(j, n, lim, t), Glimpses(j + 1, b, n, lim, t), lo, len);
    } else {
      NoneIn(lo, len);
    }
  }

  lemma AftermathIn(n: nat, b: nat, lim: Limit, t: int, lo: int, len: int)
    requires ValidLimit(lim) && n >= 1 && lo <= t <= lo + len
    ensures In(Aftermath(n, b, lim, t), lo, len) == Rest(lim.count + n - 1, n) + Extra(lim.count + n - 1, b)
  {
    hide In, StrandAll, GlanceAll, Stages, Glimpses, Rest, Extra;
    PlacesIn(0, n, t, lo, len);
    PlacesIn(0, b, t, lo, len);
    StagesIn(0, n, lim, t, lo, len);
    GlimpsesIn(0, b, n, lim, t, lo, len);
    InConcat(Stages(0, n, lim, t), Glimpses(0, b, n, lim, t), lo, len);
    InConcat(StrandAll(0, n, t), Stages(0, n, lim, t) + Glimpses(0, b, n, lim, t), lo, len);
    InConcat(GlanceAll(0, b, t), StrandAll(0, n, t) + (Stages(0, n, lim, t) + Glimpses(0, b, n, lim, t)), lo, len);
  }

  lemma WorstIn(n: nat, b: nat, lim: Limit)
    requires ValidLimit(lim) && n >= 1
    ensures CountIn(Admitted(Worst(n, b, lim)), 1, lim.time) == Bound(n, b, lim)
  {
    var t := lim.time;
    assert In(Worst(n, b, lim), 1, t) == Bound(n, b, lim) by {
      hide In, FindAll, Window, Aftermath;
      PlacesIn(0, n, t + 1, 1, t);
      WindowIn(n, lim, 0, t, 1, t);
      AftermathIn(n, b, lim, t + 1, 1, t);
      InConcat(Window(n, lim, 0, t), Aftermath(n, b, lim, t + 1), 1, t);
      InConcat(FindAll(0, n), Window(n, lim, 0, t) + Aftermath(n, b, lim, t + 1), 1, t);
    }
  }

  lemma WorstPossible(n: nat, b: nat, lim: Limit)
    requires Fits(lim, n)
    ensures Possible(Start(n, b), lim, 0, Worst(n, b, lim))
  {
    hide Possible, Worst;
    var _ := WorstLeads(n, b, lim);
    WorstTimed(n, b, lim);
    RunsPossible(Start(n, b), lim, 0, Worst(n, b, lim));
  }

  /**
   * With at most `n` calls in flight on a count key of the in-memory store, Checks and Browses
   * together, and at most `b` more Browses, `bound` limits the admissions of every run in every
   * interval of the window's length if and only if it is at least `Bound(n, b, lim)`.
   */
  lemma RacesExact(n: nat, b: nat, lim: Limit, bound: nat)
    requires Fits(lim, n)
    ensures (forall now, mvs :: Possible(Start(n, b), lim, now, mvs) ==> AtMost(Admitted(mvs), bound, lim.time))
       <==> bound >= Bound(n, b, lim)
  {
    hide Possible, Admitted, Bound, Worst;
    if bound >= Bound(n, b, lim) {
      forall now, mvs | Possible(Start(n, b), lim, now, mvs) ensures AtMost(Admitted(mvs), bound, lim.time) {
        RacesSafe(n, b, lim, now, mvs);
      }
    } else {
      WorstPossible(n, b, lim);
      WorstIn(n, b, lim);
    }
  }

  /** The bound of Checks whose operations are single steps holds for all runs if and only if there is one call at a time. */
  lemma AtomicBoundExactly(n: nat, b: nat, lim: Limit)
    requires Fits(lim, n)
    ensures (forall now, mvs :: Possible(Start(n, b), lim, now, mvs)
               ==> AtMost(Admitted(mvs), 2 * (lim.count + n - 1) - 1, lim.time))
       <==> n == 1 && b == 0
  {
    hide Possible, Admitted, Bound;
    BoundHigher(n, b, lim);
    RacesExact(n, b, lim, 2 * (lim.count + n - 1) - 1);
  }

  /** One Check at a time and one Browse: a run of them admits `count` more than any run of single-step calls. */
  lemma OneBrowseBeside(lim: Limit)
    requires Fits(lim, 1)
    ensures Possible(Start(1, 1), lim, 0, Worst(1, 1, lim))
    ensures CountIn(Admitted(Worst(1, 1, lim)), 1, lim.time) == 3 * lim.count - 1
  {
    hide Possible, Admitted, Worst;
    WorstPossible(1, 1, lim);
    WorstIn(1, 1, lim);
    BoundClosed(1, 1, lim);
  }
}
