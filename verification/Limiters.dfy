/** The three counting algorithms as functions of what the store holds under their keys. */
module Limiters {
  import opened GoTypes
  import opened Lists
  import opened Windows

  /** Limit of one rule; `time` is in nanoseconds, `base` is used by the accumulate algorithm only. */
  datatype Limit = Limit(time: int, count: int, base: int)

  /** What configuration loading guarantees of a rate rule, with the 64-bit range of the fields. */
  predicate ValidLimit(lim: Limit) {
    0 < lim.time <= MAX_INT64 && 1 <= lim.count <= MAX_INT64 && IsInt64(lim.base)
  }

  /** The readings of the clock that one request can cause: two while browsing, four while updating. */
  datatype Clock = Clock(b1: int, b2: int, u1: int, u2: int, u3: int, u4: int) {
    predicate From(now: int) {
      now <= b1 <= b2 <= u1 <= u2 <= u3 <= u4
    }
  }

  /** The clock read the same instant throughout. */
  function Instant(t: int): Clock {
    Clock(t, t, t, t, t, t)
  }

  /** One request to a key: `check` browses and, when not hit, updates; otherwise it only browses. */
  datatype Event = Event(check: bool, clk: Clock)

  /** The clock never goes back, within a request or between requests. */
  predicate Timed(now: int, evs: seq<Event>)
    decreases evs
  {
    evs == [] || (evs[0].clk.From(now) && Timed(evs[0].clk.u4, evs[1..]))
  }

  // count: fixed windows

  function CountBrowse(c: Cell, lim: Limit, clk: Clock): (Cell, bool) {
    var d := Drop(c, clk.b1);
    (d, d.Some? && d.value.value >= lim.count)
  }

  function CountUpdate(c: Cell, lim: Limit, clk: Clock): Cell {
    Some(Add(c, 1, lim.time, clk.u1, clk.u2))
  }

  // accumulate: a base threshold, then fixed windows

  datatype BaseCells = BaseCells(total: Cell, secondary: Cell)

  const HOUR := 3_600_000_000_000
  const SEVEN_DAYS := 7 * 24 * HOUR

  function ClampTTL(window: int): int {
    var ttl := Wrap64(window * 10);
    var atLeast := if ttl < HOUR then HOUR else ttl;
    if atLeast > SEVEN_DAYS then SEVEN_DAYS else atLeast
  }

  function BaseBrowse(c: BaseCells, lim: Limit, clk: Clock): (BaseCells, bool) {
    var t := Drop(c.total, clk.b1);
    if Value(t) <= lim.base then
      (BaseCells(t, c.secondary), false)
    else
      var s := Drop(c.secondary, clk.b2);
      (BaseCells(t, s), Value(s) >= lim.count)
  }

  function BaseUpdate(c: BaseCells, lim: Limit, clk: Clock): BaseCells {
    var t := Add(c.total, 1, ClampTTL(lim.time), clk.u1, clk.u2);
    BaseCells(Some(t), if t.value > lim.base then Some(Add(c.secondary, 1, lim.time, clk.u3, clk.u4)) else c.secondary)
  }

  // freq: a sliding window over a list of timestamps in milliseconds, newest first

  const MILLI := 1_000_000

  /** `UnixMilli` of an instant, and `Milliseconds` of a positive duration. */
  function Millis(t: int): int {
    t / 1_000_000
  }

  function WindowStart(now: int, lim: Limit): int {
    Millis(now) - Millis(lim.time)
  }

  /** The first position whose timestamp is in the window, or the length of the list. */
  function FirstLive(l: seq<int>, windowStart: int): (v: nat)
    ensures v <= |l|
    ensures forall i :: 0 <= i < v ==> l[i] < windowStart
    ensures v < |l| ==> l[v] >= windowStart
  {
    if l == [] || l[0] >= windowStart then 0 else 1 + FirstLive(l[1..], windowStart)
  }

  function Clean(l: seq<int>, windowStart: int): seq<int> {
    var v := FirstLive(l, windowStart);
    if l == [] then l
    else if v == |l| then Slice(l, 1, 0)
    else if v > 0 then Slice(l, 0, |l| - v - 1)
    else l
  }

  lemma CleanShrinks(l: seq<int>, w: int)
    ensures |Clean(l, w)| <= |l| && Clean([], w) == []
  {
  }

  function LeakBrowse(l: seq<int>, lim: Limit, clk: Clock): (seq<int>, bool) {
    var d := Clean(l, WindowStart(clk.b1, lim));
    (d, |d| >= lim.count)
  }

  function LeakUpdate(l: seq<int>, lim: Limit, clk: Clock): seq<int> {
    Pushed(Clean(l, WindowStart(clk.u1, lim)), [Millis(clk.u2)])
  }
}
