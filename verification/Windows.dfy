/**
 * One counter entry with an expiry time, as every limiter of the repository keeps it, and the
 * argument that bounds how often such an entry can be bumped in an interval.
 */
module Windows {
  import opened GoTypes
  import opened Intervals

  /** `time.Time` in nanoseconds; the zero time means that the entry never expires. */
  datatype Expiry = Never | At(time: int)

  datatype Counter = Counter(value: int, expires: Expiry)

  /** What a map holds under one key. */
  type Cell = Option<Counter>

  /** Expiry is strict: an entry is still live at the very instant it expires. */
  predicate Passed(e: Expiry, now: int) {
    e.At? && now > e.time
  }

  predicate Expired(c: Counter, now: int) {
    Passed(c.expires, now)
  }

  /** The cell after a lookup at `now`, which deletes an expired entry. */
  function Drop(c: Cell, now: int): Cell {
    if c.Some? && Expired(c.value, now) then None else c
  }

  function Value(c: Cell): int {
    if c.Some? then c.value.value else 0
  }

  /** The entry a lookup at `now` finds or makes; only a new one gets an expiry, counted from `stamp`. */
  function Found(c: Cell, ttl: int, now: int, stamp: int): Counter {
    var d := Drop(c, now);
    if d.Some? then d.value else Counter(0, if ttl > 0 then At(stamp + ttl) else Never)
  }

  /** Add `delta` to the entry for a key. */
  function Add(c: Cell, delta: int, ttl: int, now: int, stamp: int): Counter {
    var e := Found(c, ttl, now, stamp);
    e.(value := Wrap64(e.value + delta))
  }

  /** One bump of a counter: when it happened, when its window was opened, its number in the window. */
  datatype Hit = Hit(time: int, start: int, nth: int)

  /** The hit that left the counter in state `e`, for windows of length `len`. */
  function HitOf(e: Counter, time: int, len: int): Hit
    requires e.expires.At?
  {
    Hit(time, e.expires.time - len, e.value)
  }

  /**
   * `y` is a later bump by the same rule of one counter, in whose windows other rules may bump too, or
   * open them: higher in the same window, or in a window opened once that has passed.
   */
  predicate Follows(x: Hit, y: Hit, len: int) {
    && x.time <= y.time
    && if y.start == x.start then x.nth < y.nth else y.start >= x.start + len && y.time > x.start + len
  }

  /** `y` is a later bump of a counter of one rule alone: another window is opened more than `len` later. */
  predicate After(x: Hit, y: Hit, len: int) {
    Follows(x, y, len) && (y.start != x.start ==> y.start > x.start + len)
  }

  /** A bump happens while its window is live, and the first one no later than the window's opening stamp. */
  predicate Sound(x: Hit, len: int, cap: int) {
    1 <= x.nth <= cap && x.time <= x.start + len && (x.nth == 1 ==> x.time <= x.start)
  }

  /** Such bumps in order, none of them beyond number `cap` of its window. */
  ghost predicate IsShared(log: seq<Hit>, len: int, cap: int) {
    && (forall i :: 0 <= i < |log| ==> Sound(log[i], len, cap))
    && (forall i, j :: 0 <= i < j < |log| ==> Follows(log[i], log[j], len))
  }

  ghost predicate IsLog(log: seq<Hit>, len: int, cap: int) {
    && (forall i :: 0 <= i < |log| ==> Sound(log[i], len, cap))
    && (forall i, j :: 0 <= i < j < |log| ==> After(log[i], log[j], len))
  }

  lemma LogIsShared(log: seq<Hit>, len: int, cap: int)
    requires IsLog(log, len, cap)
    ensures IsShared(log, len, cap)
  {
    forall i, j | 0 <= i < j < |log| ensures Follows(log[i], log[j], len) {
      assert After(log[i], log[j], len);
    }
  }

  function Times(log: seq<Hit>): (ts: seq<int>)
    ensures |ts| == |log|
    ensures forall i :: 0 <= i < |ts| ==> ts[i] == log[i].time
  {
    seq(|log|, i requires 0 <= i < |log| => log[i].time)
  }

  lemma TimesConcat(xs: seq<Hit>, ys: seq<Hit>)
    ensures Times(xs + ys) == Times(xs) + Times(ys)
  {
  }

  lemma {:induction false} SameWindowCounts(log: seq<Hit>, len: nat, cap: int, i: nat, j: nat)
    requires IsShared(log, len, cap)
    requires i <= j < |log| && log[i].start == log[j].start
    ensures log[j].nth >= log[i].nth + (j - i)
    decreases j - i
  {
    if i < j {
      assert Follows(log[i], log[i + 1], len);
      assert i + 1 < j ==> Follows(log[i + 1], log[j], len);
      SameWindowCounts(log, len, cap, i + 1, j);
    }
  }

  /** After at most `cap - nth + 1` more bumps a new window has been opened. */
  lemma NextWindow(log: seq<Hit>, len: nat, cap: int, i: nat, j: nat)
    requires IsShared(log, len, cap)
    requires i < j < |log| && j >= i + cap - log[i].nth + 1
    ensures log[j].start >= log[i].start + len && log[j].time > log[i].start + len && log[j].start != log[i].start
  {
    assert Sound(log[j], len, cap) && Follows(log[i], log[j], len);
    if log[i].start == log[j].start {
      SameWindowCounts(log, len, cap, i, j);
    }
  }

  /** A counter shared like that is bumped by the rule at most `2 * cap - 1` times in any closed interval as long as its window. */
  lemma SharedSpread(log: seq<Hit>, len: nat, cap: int)
    requires IsShared(log, len, cap) && cap >= 1
    ensures Nondecreasing(Times(log)) && Spread(Times(log), 2 * cap - 1, len)
  {
    forall i, j | 0 <= i && i + (2 * cap - 1) <= j < |log| ensures log[j].time - log[i].time > len {
      assert Sound(log[i], len, cap);
      if log[i].nth == 1 {
        NextWindow(log, len, cap, i, j);
      } else {
        var p := i + cap - log[i].nth + 1;
        NextWindow(log, len, cap, i, p);
        assert Sound(log[p], len, cap);
        NextWindow(log, len, cap, p, j);
      }
    }
    forall i, j | 0 <= i < j < |log| ensures log[i].time <= log[j].time {
      assert Follows(log[i], log[j], len);
    }
  }

  /** A product under a name, which keeps it out of the linear arithmetic of the proofs below. */
  function Multiple(q: nat, x: int): int {
    q * x
  }

  lemma OneMore(q: nat, x: int)
    ensures Multiple(0, x) == 0 && Multiple(q + 1, x) == Multiple(q, x) + x
  {
  }

  /** Every further `cap` bumps open one more window, more than `len` later. */
  lemma {:induction false} LaterWindow(log: seq<Hit>, len: nat, cap: nat, i: nat, j: nat, q: nat)
    requires IsLog(log, len, cap)
    requires i < j < |log| && j >= i + cap - log[i].nth + 1 + Multiple(q, cap)
    ensures log[j].time >= log[i].start + Multiple(q + 1, len + 1)
    decreases q
  {
    hide Multiple;
    OneMore(q, len + 1);
    LogIsShared(log, len, cap);
    if q == 0 {
      OneMore(0, cap);
      NextWindow(log, len, cap, i, j);
    } else {
      var p := i + cap - log[i].nth + 1;
      OneMore(q - 1, cap);
      TwoMore(q - 1, cap);
      assert Sound(log[i], len, cap);
      NextWindow(log, len, cap, i, p);
      assert Sound(log[p], len, cap) && After(log[i], log[p], len);
      LaterWindow(log, len, cap, p, j, q - 1);
    }
  }

  /** How many windows of length `len` fit in `span`. */
  function Fitting(span: nat, len: nat): nat {
    span / (len + 1)
  }

  lemma FittingBound(span: nat, len: nat)
    ensures Multiple(Fitting(span, len) + 1, len + 1) > span
  {
    var q := Fitting(span, len);
    assert span == (len + 1) * q + span % (len + 1);
  }

  lemma NoneFits(span: nat, len: nat)
    ensures Fitting(span, len) == 0 <==> span <= len
  {
  }

  lemma TwoMore(q: nat, x: nat)
    ensures Multiple(q + 2, x) == Multiple(q, x) + 2 * x && Multiple(q, x) >= 0
    ensures x > 0 ==> (Multiple(q, x) == 0 <==> q == 0)
  {
  }

  /**
   * A fixed-window counter that never passes `cap` is bumped at most `(q + 2) * cap - 1` times in
   * any closed interval of length `span`, where `q` windows fit in `span`: an interval that
   * reaches a later window misses the bump that opened its first one.
   */
  lemma LogSpread(log: seq<Hit>, len: nat, cap: nat, span: nat)
    requires IsLog(log, len, cap) && cap >= 1
    ensures Nondecreasing(Times(log)) && Multiple(Fitting(span, len) + 2, cap) >= 1
    ensures Spread(Times(log), Multiple(Fitting(span, len) + 2, cap) - 1, span)
  {
    hide Multiple, Fitting;
    var q := Fitting(span, len);
    FittingBound(span, len);
    TwoMore(q, cap);
    LogIsShared(log, len, cap);
    forall i, j | 0 <= i && i + (Multiple(q + 2, cap) - 1) <= j < |log| ensures log[j].time - log[i].time > span {
      assert Sound(log[i], len, cap);
      if log[i].nth == 1 {
        LaterWindow(log, len, cap, i, j, q);
      } else {
        var p := i + cap - log[i].nth + 1;
        NextWindow(log, len, cap, i, p);
        assert Sound(log[p], len, cap);
        LaterWindow(log, len, cap, p, j, q);
      }
    }
    forall i, j | 0 <= i < j < |log| ensures log[i].time <= log[j].time {
      assert After(log[i], log[j], len);
    }
  }

  /** In an interval as long as its window that is `2 * cap - 1` times. */
  lemma WindowSpread(log: seq<Hit>, len: nat, cap: int)
    requires IsLog(log, len, cap) && cap >= 1
    ensures Nondecreasing(Times(log)) && Spread(Times(log), 2 * cap - 1, len)
  {
    LogIsShared(log, len, cap);
    SharedSpread(log, len, cap);
  }

  // How a log grows: what a past bump `x` and the present cell have to do with each other.

  /** Every bump still to come after `now` will be `After` `x`. */
  predicate Tracks(x: Hit, c: Cell, now: int, len: int) {
    && x.time <= now
    && match c {
      case None => now > x.start + len
      case Some(e) =>
        && e.expires.At?
        && var start := e.expires.time - len;
           if start == x.start then x.nth <= e.value else start > x.start + len && now > x.start + len
    }
  }

  predicate CellOk(c: Cell) {
    c.Some? ==> c.value.expires.At? && c.value.value >= 1
  }

  lemma TracksDrop(x: Hit, c: Cell, now: int, len: nat, t: int)
    requires Tracks(x, c, now, len) && now <= t
    ensures Tracks(x, Drop(c, t), t, len)
  {
  }

  lemma TracksBump(x: Hit, c: Cell, now: int, len: int, t: int, stamp: int)
    requires Tracks(x, c, now, len) && now <= t <= stamp && len > 0
    requires Value(Drop(c, t)) < MAX_INT64 && CellOk(c)
    ensures var e := Add(c, 1, len, t, stamp);
            Tracks(x, Some(e), stamp, len) && After(x, HitOf(e, t, len), len)
  {
  }

  lemma BumpSound(c: Cell, len: int, t: int, stamp: int)
    requires CellOk(c) && t <= stamp && len > 0 && Value(Drop(c, t)) < MAX_INT64
    ensures var e := Add(c, 1, len, t, stamp);
            var y := HitOf(e, t, len);
            && CellOk(Some(e)) && e.value == Value(Drop(c, t)) + 1
            && Sound(y, len, e.value) && Tracks(y, Some(e), stamp, len)
  {
  }
}
