/**
 * IncrWithTTL finds its entry under the lock and adds to it outside; GetInt looks up, tests the expiry
 * and reads or deletes in separate steps (local.go). Interleavings of any number of callers on one key.
 */
module Increments {
  import opened GoTypes
  import opened Windows

  datatype Entry = Entry(value: int, expires: Expiry)

  datatype Adder = Start | Holding(e: nat) | Added(value: int)

  datatype Reader = Begin | Found(e: nat) | Reading(e: nat) | Deleting(e: nat) | Answered(r: Option<int>)

  /** Entries ever made for the key, the one in the map, the callers, and the values returned so far. */
  datatype State = State(entries: seq<Entry>, current: Option<nat>, adders: seq<Adder>, readers: seq<Reader>, returned: seq<int>)

  datatype Move =
    | Lookup(i: nat, now: int, stamp: int)  // an adder takes the live entry of the map, or makes one
    | Add(i: nat)                           // and adds to it
    | Find(j: nat)                          // a reader takes the entry of the map
    | Inspect(j: nat, now: int)             // tests whether it has expired
    | Load(j: nat)                          // reads it if not
    | Delete(j: nat)                        // and otherwise deletes the key

  function Step(s: State, ttl: int, mv: Move): State {
    match mv
    case Lookup(i, now, stamp) =>
      if i >= |s.adders| || !s.adders[i].Start? then s
      else if s.current.Some? && s.current.value < |s.entries| && !Passed(s.entries[s.current.value].expires, now) then
        s.(adders := s.adders[i := Holding(s.current.value)])
      else
        s.(entries := s.entries + [Entry(0, if ttl > 0 then At(stamp + ttl) else Never)],
           current := Some(|s.entries|), adders := s.adders[i := Holding(|s.entries|)])
    case Add(i) =>
      if i >= |s.adders| || !s.adders[i].Holding? || s.adders[i].e >= |s.entries| then s
      else
        var e := s.entries[s.adders[i].e];
        var v := Wrap64(e.value + 1);
        s.(entries := s.entries[s.adders[i].e := e.(value := v)], adders := s.adders[i := Added(v)], returned := s.returned + [v])
    case Find(j) =>
      if j >= |s.readers| || !s.readers[j].Begin? then s
      else s.(readers := s.readers[j := if s.current.Some? then Found(s.current.value) else Answered(None)])
    case Inspect(j, now) =>
      if j >= |s.readers| || !s.readers[j].Found? || s.readers[j].e >= |s.entries| then s
      else
        var e := s.readers[j].e;
        s.(readers := s.readers[j := if Passed(s.entries[e].expires, now) then Deleting(e) else Reading(e)])
    case Load(j) =>
      if j >= |s.readers| || !s.readers[j].Reading? || s.readers[j].e >= |s.entries| then s
      else s.(readers := s.readers[j := Answered(Some(s.entries[s.readers[j].e].value))])
    case Delete(j) =>
      if j >= |s.readers| || !s.readers[j].Deleting? then s
      else s.(current := None, readers := s.readers[j := Answered(None)])
  }

  function Run(s: State, ttl: int, mvs: seq<Move>): State
    decreases mvs
  {
    if mvs == [] then s else Run(Step(s, ttl, mvs[0]), ttl, mvs[1..])
  }

  function Fresh(adders: nat, readers: nat): State {
    State([], None, seq(adders, _ => Start), seq(readers, _ => Begin), [])
  }

  /** No entry expires before `end`, and no clock is read after it. */
  predicate Unexpired(ttl: int, end: int, mv: Move) {
    match mv
    case Lookup(_, now, stamp) => now <= end && (ttl > 0 ==> end <= stamp + ttl)
    case Inspect(_, now) => now <= end
    case _ => true
  }

  /** `1, 2, ..., n`. */
  function UpTo(n: nat): seq<int> {
    if n == 0 then [] else UpTo(n - 1) + [n]
  }

  /**
   * Everybody in flight holds the one entry of the map, whose value is the number of completed adds;
   * the values returned so far are `1, 2, ...` in this order.
   */
  ghost predicate Inv(s: State, end: int) {
    && |s.entries| <= 1
    && s.current == (if s.entries == [] then None else Some(0))
    && (s.entries != [] ==> s.entries[0].value == |s.returned| && !Passed(s.entries[0].expires, end))
    && (s.entries == [] ==> s.returned == [])
    && (forall i :: 0 <= i < |s.adders| && s.adders[i].Holding? ==> s.current == Some(s.adders[i].e))
    && (forall j :: 0 <= j < |s.readers| ==> ReaderOk(s, s.readers[j]))
    && s.returned == UpTo(|s.returned|)
  }

  /** No reader deletes; one in flight looks at the entry of the map; an answer is a number of adds. */
  predicate ReaderOk(s: State, r: Reader) {
    && !r.Deleting?
    && (r.Found? || r.Reading? ==> s.current == Some(r.e))
    && (r.Answered? && r.r.Some? ==> 0 <= r.r.value <= |s.returned|)
  }

  lemma StepKeepsInv(s: State, ttl: int, end: int, mv: Move)
    requires Inv(s, end) && Unexpired(ttl, end, mv) && |s.returned| < MAX_INT64
    ensures Inv(Step(s, ttl, mv), end) && |Step(s, ttl, mv).returned| <= |s.returned| + 1
  {
    hide Wrap64;
    if mv.Add? && mv.i < |s.adders| && s.adders[mv.i].Holding? {
      assert Wrap64(|s.returned| + 1) == |s.returned| + 1;
    }
  }

  lemma {:induction false} RunKeepsInv(s: State, ttl: int, end: int, mvs: seq<Move>)
    requires Inv(s, end) && |s.returned| + |mvs| <= MAX_INT64
    requires forall mv :: mv in mvs ==> Unexpired(ttl, end, mv)
    ensures Inv(Run(s, ttl, mvs), end)
    decreases mvs
  {
    hide Inv, Step, Unexpired;
    if mvs != [] {
      StepKeepsInv(s, ttl, end, mvs[0]);
      RunKeepsInv(Step(s, ttl, mvs[0]), ttl, end, mvs[1..]);
    }
  }

  /** In every interleaving in which the key does not expire no increment is lost. */
  lemma NoLostIncrements(adders: nat, readers: nat, ttl: int, end: int, mvs: seq<Move>)
    requires |mvs| <= MAX_INT64 && forall mv :: mv in mvs ==> Unexpired(ttl, end, mv)
    ensures var s := Run(Fresh(adders, readers), ttl, mvs);
            && (forall i :: 0 <= i < |s.adders| && s.adders[i].Holding? ==> s.current == Some(s.adders[i].e))
            && (forall j :: 0 <= j < |s.readers| ==> ReaderOk(s, s.readers[j]))
            && (s.current.Some? ==> s.current.value < |s.entries| && s.entries[s.current.value].value == |s.returned|)
            && (s.current.None? ==> s.returned == [])
            && s.returned == UpTo(|s.returned|)
  {
    RunKeepsInv(Fresh(adders, readers), ttl, end, mvs);
  }

  // When a live counter can be lost

  /** No reading of the clock lies before an earlier one, or after `end`. */
  predicate Timed(now: int, end: int, mvs: seq<Move>)
    decreases mvs
  {
    mvs == [] || (now <= Begins(now, mvs[0]) <= Ends(now, mvs[0]) <= end && Timed(Ends(now, mvs[0]), end, mvs[1..]))
  }

  function Begins(now: int, mv: Move): int {
    if mv.Lookup? || mv.Inspect? then mv.now else now
  }

  function Ends(now: int, mv: Move): int {
    match mv
    case Lookup(_, _, stamp) => stamp
    case Inspect(_, t) => t
    case _ => now
  }

  /** The move takes a counter that has not expired out of the map. */
  predicate Loses(s: State, ttl: int, now: int, mv: Move) {
    && s.current.Some? && s.current.value < |s.entries|
    && Step(s, ttl, mv).current != s.current
    && !Passed(s.entries[s.current.value].expires, Begins(now, mv))
  }

  predicate Keeps(s: State, ttl: int, now: int, mvs: seq<Move>)
    decreases mvs
  {
    mvs == [] || (!Loses(s, ttl, now, mvs[0]) && Keeps(Step(s, ttl, mvs[0]), ttl, Ends(now, mvs[0]), mvs[1..]))
  }

  function Starts(adders: seq<Adder>): nat {
    if adders == [] then 0 else (if adders[0].Start? then 1 else 0) + Starts(adders[1..])
  }

  lemma {:induction false} StartsAt(adders: seq<Adder>, i: nat, a: Adder)
    requires i < |adders|
    ensures Starts(adders[i := a]) == Starts(adders) - (if adders[i].Start? then 1 else 0) + (if a.Start? then 1 else 0)
  {
    if i == 0 {
      assert adders[i := a][1..] == adders[1..];
    } else {
      assert adders[i := a][1..] == adders[1..][i - 1 := a];
      StartsAt(adders[1..], i - 1, a);
    }
  }

  lemma {:induction false} AllStart(n: nat)
    ensures Starts(seq(n, _ => Start)) == n
  {
    if n > 0 {
      assert seq(n, _ => Start)[1..] == seq(n - 1, _ => Start);
      AllStart(n - 1);
    }
  }

  /** Each entry was made by an adder of its own, none expires before `ttl`, and a deletion follows an expiry. */
  ghost predicate LossInv(s: State, ttl: int, now: int) {
    && (s.current.Some? ==> s.current.value < |s.entries|)
    && |s.entries| + Starts(s.adders) <= |s.adders|
    && (forall e :: 0 <= e < |s.entries| ==> if ttl > 0 then s.entries[e].expires.At? && s.entries[e].expires.time >= ttl
                                            else s.entries[e].expires == Never)
    && (forall j :: 0 <= j < |s.readers| && s.readers[j].Deleting? ==>
          s.readers[j].e < |s.entries| && Passed(s.entries[s.readers[j].e].expires, now))
  }

  lemma StepKeepsLossInv(s: State, ttl: int, now: int, end: int, mv: Move)
    requires LossInv(s, ttl, now) && 0 <= now <= Begins(now, mv) <= Ends(now, mv) <= end
    ensures var s' := Step(s, ttl, mv);
            LossInv(s', ttl, Ends(now, mv)) && |s'.adders| == |s.adders| && |s'.readers| == |s.readers|
  {
    hide Wrap64;
    var s' := Step(s, ttl, mv);
    if (mv.Lookup? || mv.Add?) && mv.i < |s.adders| {
      StartsAt(s.adders, mv.i, s'.adders[mv.i]);
      assert s'.adders == s.adders[mv.i := s'.adders[mv.i]];
    }
  }

  /** Only a deletion can lose a live counter, and it follows the expiry of another one. */
  lemma LossNeeds(s: State, ttl: int, now: int, end: int, mv: Move)
    requires LossInv(s, ttl, now) && now <= Begins(now, mv) <= end && Loses(s, ttl, now, mv)
    ensures 0 < ttl < end && |s.adders| >= 2 && |s.readers| >= 1
  {
    hide Wrap64;
    assert mv.Delete?;
  }

  lemma {:induction false} RunKeepsAll(s: State, ttl: int, now: int, end: int, mvs: seq<Move>)
    requires LossInv(s, ttl, now) && 0 <= now && Timed(now, end, mvs)
    requires ttl <= 0 || end <= ttl || |s.adders| <= 1 || |s.readers| == 0
    ensures Keeps(s, ttl, now, mvs)
    decreases mvs
  {
    hide LossInv, Step, Loses;
    if mvs != [] {
      StepKeepsLossInv(s, ttl, now, end, mvs[0]);
      if Loses(s, ttl, now, mvs[0]) {
        LossNeeds(s, ttl, now, end, mvs[0]);
      }
      RunKeepsAll(Step(s, ttl, mvs[0]), ttl, Ends(now, mvs[0]), end, mvs[1..]);
    }
  }

  // A reader that saw the first entry expired deletes the one made after it.

  lemma {:induction false} RunPath(path: seq<State>, ttl: int, mvs: seq<Move>)
    requires |path| == |mvs| + 1 && forall i :: 0 <= i < |mvs| ==> Step(path[i], ttl, mvs[i]) == path[i + 1]
    ensures Run(path[0], ttl, mvs) == path[|mvs|]
    decreases mvs
  {
    hide Step;
    if mvs != [] {
      RunPath(path[1..], ttl, mvs[1..]);
    }
  }

  function Race(ttl: int): (mvs: seq<Move>)
    ensures |mvs| == 7
  {
    [Lookup(0, 0, 0), Add(0), Find(0), Inspect(0, ttl + 1), Lookup(1, ttl + 1, ttl + 1), Add(1), Delete(0)]
  }

  /** The adders once the first two stand at `a` and `b`, the readers once the first stands at `r`. */
  function Stand(adders: nat, readers: nat, entries: seq<Entry>, current: Option<nat>, a: Adder, b: Adder, r: Reader, returned: seq<int>): State
    requires adders >= 2 && readers >= 1
  {
    var s := Fresh(adders, readers);
    State(entries, current, s.adders[0 := a][1 := b], s.readers[0 := r], returned)
  }

  function RacePath(adders: nat, readers: nat, ttl: int): (path: seq<State>)
    requires adders >= 2 && readers >= 1
    ensures |path| == 8
  {
    var x, y := At(ttl), At(ttl + 1 + ttl);
    [ Stand(adders, readers, [], None, Start, Start, Begin, []),
      Stand(adders, readers, [Entry(0, x)], Some(0), Holding(0), Start, Begin, []),
      Stand(adders, readers, [Entry(1, x)], Some(0), Added(1), Start, Begin, [1]),
      Stand(adders, readers, [Entry(1, x)], Some(0), Added(1), Start, Found(0), [1]),
      Stand(adders, readers, [Entry(1, x)], Some(0), Added(1), Start, Deleting(0), [1]),
      Stand(adders, readers, [Entry(1, x), Entry(0, y)], Some(1), Added(1), Holding(1), Deleting(0), [1]),
      Stand(adders, readers, [Entry(1, x), Entry(1, y)], Some(1), Added(1), Added(1), Deleting(0), [1, 1]),
      Stand(adders, readers, [Entry(1, x), Entry(1, y)], None, Added(1), Added(1), Answered(None), [1, 1]) ]
  }

  lemma RaceBegins(adders: nat, readers: nat, ttl: int, i: nat)
    requires adders >= 2 && readers >= 1 && ttl > 0 && 0 <= i < 2
    ensures Step(RacePath(adders, readers, ttl)[i], ttl, Race(ttl)[i]) == RacePath(adders, readers, ttl)[i + 1]
  {
    hide Wrap64;
    assert Wrap64(1) == 1;
    var path := RacePath(adders, readers, ttl);
    var s, s' := Step(path[i], ttl, Race(ttl)[i]), path[i + 1];
    assert s.adders == s'.adders && s.readers == s'.readers && s.entries == s'.entries && s.returned == s'.returned;
  }

  lemma RaceGoesOn(adders: nat, readers: nat, ttl: int, i: nat)
    requires adders >= 2 && readers >= 1 && ttl > 0 && 2 <= i < 5
    ensures Step(RacePath(adders, readers, ttl)[i], ttl, Race(ttl)[i]) == RacePath(adders, readers, ttl)[i + 1]
  {
    hide Wrap64;
    assert Wrap64(1) == 1;
    var path := RacePath(adders, readers, ttl);
    var s, s' := Step(path[i], ttl, Race(ttl)[i]), path[i + 1];
    assert s.adders == s'.adders && s.readers == s'.readers && s.entries == s'.entries && s.returned == s'.returned;
  }

  lemma RaceEnds(adders: nat, readers: nat, ttl: int, i: nat)
    requires adders >= 2 && readers >= 1 && ttl > 0 && 5 <= i < 7
    ensures Step(RacePath(adders, readers, ttl)[i], ttl, Race(ttl)[i]) == RacePath(adders, readers, ttl)[i + 1]
  {
    hide Wrap64;
    assert Wrap64(1) == 1;
    var path := RacePath(adders, readers, ttl);
    var s, s' := Step(path[i], ttl, Race(ttl)[i]), path[i + 1];
    assert s.adders == s'.adders && s.readers == s'.readers && s.entries == s'.entries && s.returned == s'.returned;
  }

  lemma RaceStep(adders: nat, readers: nat, ttl: int, i: nat)
    requires adders >= 2 && readers >= 1 && ttl > 0 && i < 7
    ensures Step(RacePath(adders, readers, ttl)[i], ttl, Race(ttl)[i]) == RacePath(adders, readers, ttl)[i + 1]
  {
    hide Step, RacePath, Race;
    if i < 2 {
      RaceBegins(adders, readers, ttl, i);
    } else if i < 5 {
      RaceGoesOn(adders, readers, ttl, i);
    } else {
      RaceEnds(adders, readers, ttl, i);
    }
  }

  /**
   * For every time to live and any callers beyond two adders and a reader: an increment right after
   * the expiry is gone, although its counter would have lived as long again.
   */
  lemma LateDeleteLosesIncrement(adders: nat, readers: nat, ttl: int)
    requires adders >= 2 && readers >= 1 && ttl > 0
    ensures Run(Fresh(adders, readers), ttl, Race(ttl))
         == Stand(adders, readers, [Entry(1, At(ttl)), Entry(1, At(ttl + 1 + ttl))], None, Added(1), Added(1), Answered(None), [1, 1])
  {
    hide Run, Step;
    var path := RacePath(adders, readers, ttl);
    assert path[0] == Fresh(adders, readers);
    forall i | 0 <= i < 7 ensures Step(path[i], ttl, Race(ttl)[i]) == path[i + 1] {
      RaceStep(adders, readers, ttl, i);
    }
    RunPath(path, ttl, Race(ttl));
  }

  lemma {:induction false} KeepsPath(path: seq<State>, ttl: int, now: int, mvs: seq<Move>, last: int)
    requires |path| == |mvs| + 1 && forall i :: 0 <= i < |mvs| ==> Step(path[i], ttl, mvs[i]) == path[i + 1]
    requires mvs != [] && (mvs[|mvs| - 1].Delete? || mvs[|mvs| - 1].Add?) && Finish(now, mvs) == last
    requires Loses(path[|mvs| - 1], ttl, last, mvs[|mvs| - 1])
    ensures !Keeps(path[0], ttl, now, mvs)
    decreases mvs
  {
    hide Step, Loses;
    if |mvs| > 1 {
      KeepsPath(path[1..], ttl, Ends(now, mvs[0]), mvs[1..], last);
    } else {
      assert mvs[1..] == [];
    }
  }

  /** The last reading of the clock. */
  function Finish(now: int, mvs: seq<Move>): int
    decreases mvs
  {
    if mvs == [] then now else Finish(Ends(now, mvs[0]), mvs[1..])
  }

  lemma RaceTimed(ttl: int, end: int)
    requires 0 < ttl < end
    ensures Timed(0, end, Race(ttl)) && Finish(0, Race(ttl)) == ttl + 1
  {
    var t := ttl + 1;
    var r6: seq<Move> := [Delete(0)];
    var r5 := [Add(1)] + r6;
    var r4 := [Lookup(1, t, t)] + r5;
    var r3 := [Inspect(0, t)] + r4;
    var r2 := [Find(0)] + r3;
    var r1 := [Add(0)] + r2;
    assert Race(ttl) == [Lookup(0, 0, 0)] + r1;
    assert r6[1..] == [] && r5[1..] == r6 && r4[1..] == r5 && r3[1..] == r4 && r2[1..] == r3 && r1[1..] == r2 && Race(ttl)[1..] == r1;
    assert Timed(t, end, r6) && Finish(t, r6) == t;
    assert Timed(t, end, r5) && Finish(t, r5) == t;
    assert Timed(t, end, r4) && Finish(t, r4) == t;
    assert Timed(0, end, r3) && Finish(0, r3) == t;
    assert Timed(0, end, r2) && Finish(0, r2) == t;
    assert Timed(0, end, r1) && Finish(0, r1) == t;
  }

  lemma RaceLoses(adders: nat, readers: nat, ttl: int, end: int)
    requires adders >= 2 && readers >= 1 && 0 < ttl < end
    ensures Timed(0, end, Race(ttl)) && !Keeps(Fresh(adders, readers), ttl, 0, Race(ttl))
  {
    hide Step, Keeps, Timed, Finish;
    var path := RacePath(adders, readers, ttl);
    assert path[0] == Fresh(adders, readers);
    forall i | 0 <= i < 7 ensures Step(path[i], ttl, Race(ttl)[i]) == path[i + 1] {
      RaceStep(adders, readers, ttl, i);
    }
    RaceTimed(ttl, end);
    assert Step(path[6], ttl, Race(ttl)[6]) == path[7];
    assert Loses(path[6], ttl, ttl + 1, Race(ttl)[6]);
    KeepsPath(path, ttl, 0, Race(ttl), ttl + 1);
  }

  /**
   * Over clock readings from 0 to `end` no run ever takes a live counter out of the map, if and only
   * if no counter can expire, or fewer than two callers increment, or none reads.
   */
  lemma NeverLosesExactly(adders: nat, readers: nat, ttl: int, end: int)
    ensures (forall mvs :: Timed(0, end, mvs) ==> Keeps(Fresh(adders, readers), ttl, 0, mvs))
       <==> ttl <= 0 || end <= ttl || adders <= 1 || readers == 0
  {
    hide Timed, Keeps, Race;
    if ttl <= 0 || end <= ttl || adders <= 1 || readers == 0 {
      AllStart(adders);
      forall mvs | Timed(0, end, mvs) ensures Keeps(Fresh(adders, readers), ttl, 0, mvs) {
        RunKeepsAll(Fresh(adders, readers), ttl, 0, end, mvs);
      }
    } else {
      RaceLoses(adders, readers, ttl, end);
    }
  }
}
