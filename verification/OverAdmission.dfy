/**
 * Browse and Update are two steps of a Check (engine.go), and other Checks and Browses run between
 * them: how far concurrent Checks on one key can overrun a count or freq limit.
 */
module OverAdmission {
  import opened GoTypes
  import opened Intervals
  import opened Limiters
  import opened Lists
  import opened SlidingWindow
  import opened Windows

  /** What the store holds under the key of a count rule or of a freq rule. */
  datatype Slot = CountSlot(cell: Cell) | FreqSlot(stamps: seq<int>)

  /** The number that the limit is compared with. */
  function Level(s: Slot): int {
    match s
    case CountSlot(c) => Value(c)
    case FreqSlot(l) => |l|
  }

  function BrowseSlot(s: Slot, lim: Limit, clk: Clock): (Slot, bool) {
    match s
    case CountSlot(c) => var (c', hit) := CountBrowse(c, lim, clk); (CountSlot(c'), hit)
    case FreqSlot(l) => var (l', hit) := LeakBrowse(l, lim, clk); (FreqSlot(l'), hit)
  }

  function UpdateSlot(s: Slot, lim: Limit, clk: Clock): Slot {
    match s
    case CountSlot(c) => CountSlot(CountUpdate(c, lim, clk))
    case FreqSlot(l) => FreqSlot(LeakUpdate(l, lim, clk))
  }

  /** The key, and how many Checks have browsed without being hit and not yet updated. */
  datatype State = State(slot: Slot, pending: nat)

  /** The two steps of a Check, or the one of a Browse. */
  datatype Move = BrowseStep(clk: Clock) | UpdateStep(clk: Clock) | GlanceStep(clk: Clock)

  /** With at most `n` Checks in flight a new one can browse only while fewer are pending. */
  predicate Enabled(s: State, n: nat, mv: Move) {
    match mv
    case BrowseStep(_) => s.pending < n
    case UpdateStep(_) => s.pending > 0
    case GlanceStep(_) => true
  }

  function Next(s: State, lim: Limit, mv: Move): State {
    match mv
    case BrowseStep(clk) =>
      var (slot, hit) := BrowseSlot(s.slot, lim, clk);
      State(slot, if hit then s.pending else s.pending + 1)
    case UpdateStep(clk) => State(UpdateSlot(s.slot, lim, clk), if s.pending > 0 then s.pending - 1 else 0)
    case GlanceStep(clk) => s.(slot := BrowseSlot(s.slot, lim, clk).0)
  }

  /** The moves can be made one after the other. The clock of each may read anything. */
  predicate Possible(s: State, n: nat, lim: Limit, mvs: seq<Move>)
    decreases mvs
  {
    mvs == [] || (Enabled(s, n, mvs[0]) && Possible(Next(s, lim, mvs[0]), n, lim, mvs[1..]))
  }

  function Last(s: State, lim: Limit, mvs: seq<Move>): State
    decreases mvs
  {
    if mvs == [] then s else Last(Next(s, lim, mvs[0]), lim, mvs[1..])
  }

  /** The level that is reached when all pending updates are done, unless something expires. */
  function Committed(s: State): int {
    Level(s.slot) + s.pending
  }

  predicate Inv(s: State, n: nat, lim: Limit) {
    Committed(s) <= lim.count + n - 1 && s.pending <= n && Level(s.slot) >= 0
  }

  lemma NextKeepsInv(s: State, n: nat, lim: Limit, mv: Move)
    requires ValidLimit(lim) && 1 <= n && lim.count + n <= MAX_INT64 && Inv(s, n, lim) && Enabled(s, n, mv)
    ensures Inv(Next(s, lim, mv), n, lim)
  {
    hide Clean, Millis;
    match s.slot
    case CountSlot(_) =>
    case FreqSlot(l) =>
      CleanShrinks(l, WindowStart(mv.clk.b1, lim));
      CleanShrinks(l, WindowStart(mv.clk.u1, lim));
  }

  lemma {:induction false} RunKeepsInv(s: State, n: nat, lim: Limit, mvs: seq<Move>)
    requires ValidLimit(lim) && 1 <= n && lim.count + n <= MAX_INT64 && Inv(s, n, lim) && Possible(s, n, lim, mvs)
    ensures Inv(Last(s, lim, mvs), n, lim)
    decreases mvs
  {
    hide Inv, Next;
    if mvs != [] {
      NextKeepsInv(s, n, lim, mvs[0]);
      RunKeepsInv(Next(s, lim, mvs[0]), n, lim, mvs[1..]);
    }
  }

  // Runs that reach a bound: `n` requests browse before any of them updates; one of them updates,
  // and requests that come one after the other fill the limit before the remaining ones update.

  function Empty(freq: bool): Slot {
    if freq then FreqSlot([]) else CountSlot(None)
  }

  /** The slot after `k` admissions, the first of them at `t`. */
  function Filled(freq: bool, k: nat, t: int, lim: Limit): Slot {
    if k == 0 then Empty(freq)
    else if freq then FreqSlot(Copies(k, Millis(t)))
    else CountSlot(Some(Counter(k, At(t + lim.time))))
  }

  function Browses(k: nat, t: int): seq<Move> {
    if k == 0 then [] else [BrowseStep(Instant(t))] + Browses(k - 1, t)
  }

  function Updates(k: nat, t: int): seq<Move> {
    if k == 0 then [] else [UpdateStep(Instant(t))] + Updates(k - 1, t)
  }

  function Checks(k: nat, t: int): seq<Move> {
    if k == 0 then [] else [BrowseStep(Instant(t)), UpdateStep(Instant(t))] + Checks(k - 1, t)
  }

  /** At its first instant, and for a counter up to its last, a slot is still as full as it was. */
  lemma FilledSteps(freq: bool, k: nat, start: int, t: int, lim: Limit)
    requires ValidLimit(lim) && k < MAX_INT64 && start <= t <= start + lim.time && (freq || k == 0 ==> t == start)
    ensures k < lim.count ==> BrowseSlot(Filled(freq, k, start, lim), lim, Instant(t)) == (Filled(freq, k, start, lim), false)
    ensures UpdateSlot(Filled(freq, k, start, lim), lim, Instant(t)) == Filled(freq, k + 1, start, lim)
    ensures Level(Filled(freq, k, start, lim)) == k
  {
    hide Wrap64;
    assert Wrap64(k + 1) == k + 1;
    if freq {
      var l := Copies(k, Millis(t));
      CleanKeepsOrClears(l, WindowStart(t, lim));
      assert Clean(l, WindowStart(t, lim)) == l;
      assert Pushed(l, [Millis(t)]) == [Millis(t)] + l;
      assert Copies(0, Millis(t)) == [];
    }
  }

  /** `mvs` can be made from `s`, and then `rest` from `s'`, which `mvs` leads to. */
  ghost predicate Leads(s: State, mvs: seq<Move>, s': State, n: nat, lim: Limit) {
    Possible(s, n, lim, mvs) && Last(s, lim, mvs) == s'
  }

  lemma {:induction false} LeadsOn(s: State, mvs: seq<Move>, s': State, more: seq<Move>, s'': State, n: nat, lim: Limit)
    requires Leads(s, mvs, s', n, lim) && Leads(s', more, s'', n, lim)
    ensures Leads(s, mvs + more, s'', n, lim)
    decreases mvs
  {
    hide Enabled, Next;
    if mvs == [] {
      assert mvs + more == more;
    } else {
      assert (mvs + more)[0] == mvs[0] && (mvs + more)[1..] == mvs[1..] + more;
      LeadsOn(Next(s, lim, mvs[0]), mvs[1..], s', more, s'', n, lim);
    }
  }

  lemma {:induction false} BrowsesLead(slot: Slot, p: nat, k: nat, t: int, n: nat, lim: Limit)
    requires p + k <= n && BrowseSlot(slot, lim, Instant(t)) == (slot, false)
    ensures Leads(State(slot, p), Browses(k, t), State(slot, p + k), n, lim)
    decreases k
  {
    hide BrowseSlot;
    if k > 0 {
      BrowsesLead(slot, p + 1, k - 1, t, n, lim);
      assert Browses(k, t)[1..] == Browses(k - 1, t);
    }
  }

  lemma {:induction false} UpdatesLead(freq: bool, j: nat, p: nat, k: nat, start: int, t: int, n: nat, lim: Limit)
    requires ValidLimit(lim) && k <= p && j + k <= MAX_INT64 && start <= t <= start + lim.time && (freq || j == 0 ==> t == start)
    ensures Leads(State(Filled(freq, j, start, lim), p), Updates(k, t), State(Filled(freq, j + k, start, lim), p - k), n, lim)
    decreases k
  {
    hide UpdateSlot, Filled;
    if k > 0 {
      FilledSteps(freq, j, start, t, lim);
      UpdatesLead(freq, j + 1, p - 1, k - 1, start, t, n, lim);
      assert Updates(k, t)[1..] == Updates(k - 1, t);
    }
  }

  lemma {:induction false} ChecksLead(freq: bool, j: nat, p: nat, k: nat, start: int, t: int, n: nat, lim: Limit)
    requires ValidLimit(lim) && p < n && j + k <= lim.count && start <= t <= start + lim.time && (freq || j == 0 ==> t == start)
    ensures Leads(State(Filled(freq, j, start, lim), p), Checks(k, t), State(Filled(freq, j + k, start, lim), p), n, lim)
    decreases k
  {
    hide BrowseSlot, UpdateSlot, Filled;
    if k > 0 {
      FilledSteps(freq, j, start, t, lim);
      ChecksLead(freq, j + 1, p, k - 1, start, t, n, lim);
      var mvs := Checks(k, t);
      assert mvs[1..][0] == UpdateStep(Instant(t)) && mvs[1..][1..] == Checks(k - 1, t);
      var browsed, updated := State(Filled(freq, j, start, lim), p + 1), State(Filled(freq, j + 1, start, lim), p);
      assert Next(browsed, lim, mvs[1..][0]) == updated;
      assert Leads(browsed, mvs[1..], State(Filled(freq, j + k, start, lim), p), n, lim);
    }
  }

  /** `n` requests browse, one of them updates. */
  function Opening(n: nat, t: int): seq<Move> {
    Browses(n, t) + Updates(1, t)
  }

  /** From a slot that holds nothing any more. */
  lemma OpeningLeads(freq: bool, slot: Slot, n: nat, t: int, lim: Limit)
    requires ValidLimit(lim) && n >= 1 && BrowseSlot(slot, lim, Instant(t)) == (Empty(freq), false)
    ensures Leads(State(slot, 0), Opening(n, t), State(Filled(freq, 1, t, lim), n - 1), n, lim)
  {
    hide BrowseSlot, UpdateSlot, Leads, Updates;
    FilledSteps(freq, 0, t, t, lim);
    assert Browses(n, t)[1..] == Browses(n - 1, t);
    BrowsesLead(Empty(freq), 1, n - 1, t, n, lim);
    FirstBrowse(freq, slot, n, t, lim);
    UpdatesLead(freq, 0, n, 1, t, t, n, lim);
    LeadsOn(State(slot, 0), Browses(n, t), State(Empty(freq), n), Updates(1, t), State(Filled(freq, 1, t, lim), n - 1), n, lim);
  }

  lemma FirstBrowse(freq: bool, slot: Slot, n: nat, t: int, lim: Limit)
    requires n >= 1 && BrowseSlot(slot, lim, Instant(t)) == (Empty(freq), false)
    requires Leads(State(Empty(freq), 1), Browses(n - 1, t), State(Empty(freq), n), n, lim)
    ensures Leads(State(slot, 0), Browses(n, t), State(Empty(freq), n), n, lim)
  {
    hide BrowseSlot;
    assert Browses(n, t)[1..] == Browses(n - 1, t);
  }

  function Overrun(n: nat, lim: Limit): seq<Move>
    requires ValidLimit(lim)
  {
    Opening(n, 0) + Checks(lim.count - 1, 0)
  }

  lemma OverrunReaches(freq: bool, n: nat, lim: Limit)
    requires ValidLimit(lim) && n >= 1
    ensures Possible(State(Empty(freq), 0), n, lim, Overrun(n, lim))
    ensures Committed(Last(State(Empty(freq), 0), lim, Overrun(n, lim))) == lim.count + n - 1
  {
    hide Possible, Last, Opening, Checks, BrowseSlot;
    var full := State(Filled(freq, lim.count, 0, lim), n - 1);
    FilledSteps(freq, 0, 0, 0, lim);
    OpeningLeads(freq, Empty(freq), n, 0, lim);
    ChecksLead(freq, 1, n - 1, lim.count - 1, 0, 0, n, lim);
    LeadsOn(State(Empty(freq), 0), Opening(n, 0), State(Filled(freq, 1, 0, lim), n - 1), Checks(lim.count - 1, 0), full, n, lim);
  }

  /** `bound` holds in every reachable state with at most `n` Checks in flight if and only if `bound >= count + n - 1`. */
  lemma OverAdmissionExact(freq: bool, n: nat, lim: Limit, bound: int)
    requires ValidLimit(lim) && 1 <= n && lim.count + n <= MAX_INT64
    ensures (forall mvs :: Possible(State(Empty(freq), 0), n, lim, mvs)
               ==> Committed(Last(State(Empty(freq), 0), lim, mvs)) <= bound)
       <==> bound >= lim.count + n - 1
  {
    hide Possible, Last, Overrun;
    var start := State(Empty(freq), 0);
    if bound >= lim.count + n - 1 {
      forall mvs | Possible(start, n, lim, mvs) ensures Committed(Last(start, lim, mvs)) <= bound {
        RunKeepsInv(start, n, lim, mvs);
      }
    } else {
      OverrunReaches(freq, n, lim);
    }
  }
}
