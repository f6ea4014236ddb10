/** The API's own rate limiter (middleware.go) on values: its decisions, its sweep, and whole runs. */
module RateLimitSpec {
  import opened GoTypes
  import opened Intervals
  import Windows

  datatype Entry = Entry(count: int, windowEnd: int, lastAccess: int)

  /** One request: a new window after the last one has passed, otherwise a bump below the limit. */
  function Handle(c: Option<Entry>, limit: int, window: int, now: int): (Entry, bool) {
    if c.None? || now > c.value.windowEnd then (Entry(1, now + window, now), true)
    else if c.value.count >= limit then (c.value.(lastAccess := now), false)
    else (c.value.(count := c.value.count + 1, lastAccess := now), true)
  }

  type Counters = map<string, Entry>

  function At(m: Counters, ip: string): Option<Entry> {
    if ip in m then Some(m[ip]) else None
  }

  /** The sweep deletes what has not been accessed for longer than the window. */
  function Sweep(m: Counters, window: int, now: int): Counters {
    map ip | ip in m && !(now - m[ip].lastAccess > window) :: m[ip]
  }

  datatype Event = Request(ip: string, now: int) | Cleanup(now: int)

  predicate Timed(now: int, evs: seq<Event>)
    decreases evs
  {
    evs == [] || (now <= evs[0].now && Timed(evs[0].now, evs[1..]))
  }

  datatype Decision = Decision(ip: string, now: int, accepted: bool)

  /** The decisions on all requests, in a run that sweeps when told to or never does. */
  function Trace(m: Counters, limit: int, window: int, evs: seq<Event>, sweeping: bool): seq<Decision>
    decreases evs
  {
    if evs == [] then [] else
      match evs[0]
      case Request(ip, now) =>
        var (e, accepted) := Handle(At(m, ip), limit, window, now);
        [Decision(ip, now, accepted)] + Trace(m[ip := e], limit, window, evs[1..], sweeping)
      case Cleanup(now) =>
        Trace(if sweeping then Sweep(m, window, now) else m, limit, window, evs[1..], sweeping)
  }

  // The sweep is invisible.

  /** What a request at `now` or later can see of an entry. */
  function Live(c: Option<Entry>, now: int): Option<Entry> {
    if c.Some? && now > c.value.windowEnd then None else c
  }

  ghost predicate Equiv(m: Counters, n: Counters, now: int) {
    forall ip :: Live(At(m, ip), now) == Live(At(n, ip), now)
  }

  /** A window never ends later than one window after the last access. */
  ghost predicate Inv(m: Counters, window: int, now: int) {
    forall ip :: ip in m ==> m[ip].windowEnd <= m[ip].lastAccess + window && m[ip].lastAccess <= now
  }

  lemma SweepEquiv(m: Counters, n: Counters, window: int, now: int, t: int)
    requires Inv(m, window, now) && Equiv(m, n, now) && now <= t
    ensures Inv(Sweep(m, window, t), window, t) && Equiv(Sweep(m, window, t), n, t)
  {
    forall ip ensures Live(At(Sweep(m, window, t), ip), t) == Live(At(n, ip), t) {
      assert Live(At(m, ip), now) == Live(At(n, ip), now);
    }
  }

  lemma EquivLater(m: Counters, n: Counters, window: int, now: int, t: int)
    requires Inv(m, window, now) && Equiv(m, n, now) && now <= t
    ensures Inv(m, window, t) && Equiv(m, n, t)
  {
    forall ip ensures Live(At(m, ip), t) == Live(At(n, ip), t) {
      assert Live(At(m, ip), now) == Live(At(n, ip), now);
    }
  }

  lemma HandleEquiv(m: Counters, n: Counters, limit: int, window: int, now: int, ip: string)
    requires Inv(m, window, now) && Equiv(m, n, now)
    ensures Handle(At(m, ip), limit, window, now) == Handle(At(n, ip), limit, window, now)
    ensures var e := Handle(At(m, ip), limit, window, now).0;
            Inv(m[ip := e], window, now) && Equiv(m[ip := e], n[ip := e], now)
  {
    assert Live(At(m, ip), now) == Live(At(n, ip), now);
    var e := Handle(At(m, ip), limit, window, now).0;
    var m', n' := m[ip := e], n[ip := e];
    forall other ensures Live(At(m', other), now) == Live(At(n', other), now) {
      assert Live(At(m, other), now) == Live(At(n, other), now);
    }
  }

  lemma {:induction false} TraceEquiv(m: Counters, n: Counters, limit: int, window: int, now: int, evs: seq<Event>)
    requires Inv(m, window, now) && Equiv(m, n, now) && Timed(now, evs)
    ensures Trace(m, limit, window, evs, true) == Trace(n, limit, window, evs, false)
    decreases evs
  {
    hide Inv, Equiv, Handle, Sweep;
    if evs != [] {
      var t := evs[0].now;
      EquivLater(m, n, window, now, t);
      match evs[0]
      case Request(ip, _) =>
        HandleEquiv(m, n, limit, window, t, ip);
        var e := Handle(At(m, ip), limit, window, t).0;
        TraceEquiv(m[ip := e], n[ip := e], limit, window, t, evs[1..]);
      case Cleanup(_) =>
        SweepEquiv(m, n, window, now, t);
        TraceEquiv(Sweep(m, window, t), n, limit, window, t, evs[1..]);
    }
  }

  /** Running the sweep at any points gives the same decisions as never running it. */
  lemma SweepIsInvisible(limit: int, window: int, now: int, evs: seq<Event>)
    requires Timed(now, evs)
    ensures Trace(map[], limit, window, evs, true) == Trace(map[], limit, window, evs, false)
  {
    TraceEquiv(map[], map[], limit, window, now, evs);
  }

  // What the sweep leaves

  /** The entries after a run. */
  function After(m: Counters, limit: int, window: int, evs: seq<Event>): Counters
    decreases evs
  {
    if evs == [] then m else
      match evs[0]
      case Request(ip, now) => After(m[ip := Handle(At(m, ip), limit, window, now).0], limit, window, evs[1..])
      case Cleanup(now) => After(Sweep(m, window, now), limit, window, evs[1..])
  }

  /** When a client was last seen, `seen` being when before `evs`. */
  function Seen(seen: Option<int>, evs: seq<Event>, ip: string): Option<int>
    decreases evs
  {
    if evs == [] then seen
    else Seen(if evs[0].Request? && evs[0].ip == ip then Some(evs[0].now) else seen, evs[1..], ip)
  }

  function Ended(now: int, evs: seq<Event>): int {
    if evs == [] then now else evs[|evs| - 1].now
  }

  /** An entry knows when its client was last seen; a client without one has not been for longer than the window. */
  predicate Remembers(c: Option<Entry>, seen: Option<int>, window: int, now: int) {
    && (c.Some? ==> seen == Some(c.value.lastAccess))
    && (c.None? && seen.Some? ==> now - seen.value > window)
  }

  lemma {:induction false} RunRemembers(m: Counters, limit: int, window: int, now: int, evs: seq<Event>, ip: string, seen: Option<int>)
    requires Timed(now, evs) && Remembers(At(m, ip), seen, window, now)
    ensures Remembers(At(After(m, limit, window, evs), ip), Seen(seen, evs, ip), window, Ended(now, evs))
    decreases evs
  {
    if evs != [] {
      var ev := evs[0];
      match ev
      case Request(client, t) =>
        var m' := m[client := Handle(At(m, client), limit, window, t).0];
        assert client != ip ==> At(m', ip) == At(m, ip);
        RunRemembers(m', limit, window, t, evs[1..], ip, if client == ip then Some(t) else seen);
      case Cleanup(t) =>
        RunRemembers(Sweep(m, window, t), limit, window, t, evs[1..], ip, seen);
    }
  }

  /** The last time a client was seen is the latest of its requests. */
  lemma {:induction false} SeenIsLatest(seen: Option<int>, now: int, evs: seq<Event>, ip: string)
    requires Timed(now, evs) && (seen.Some? ==> seen.value <= now)
    ensures var s := Seen(seen, evs, ip);
            && (s.Some? ==> s == seen || Request(ip, s.value) in evs)
            && (seen.Some? ==> s.Some? && s.value >= seen.value)
            && (forall t :: Request(ip, t) in evs ==> s.Some? && s.value >= t)
    decreases evs
  {
    if evs != [] {
      SeenIsLatest(if evs[0].Request? && evs[0].ip == ip then Some(evs[0].now) else seen, evs[0].now, evs[1..], ip);
      assert forall ev :: ev in evs <==> ev == evs[0] || ev in evs[1..];
    }
  }

  /** After a sweep, in every run, exactly the clients are remembered that have sent a request within the window. */
  lemma SweepForgetsExactly(limit: int, window: int, now: int, evs: seq<Event>, t: int, ip: string)
    requires Timed(now, evs) && Ended(now, evs) <= t
    ensures ip in Sweep(After(map[], limit, window, evs), window, t)
       <==> exists s :: Request(ip, s) in evs && t - s <= window
  {
    RunRemembers(map[], limit, window, now, evs, ip, None);
    SeenIsLatest(None, now, evs, ip);
  }

  // The bound for one client

  function AcceptedAt(ds: seq<Decision>, ip: string): seq<int> {
    if ds == [] then [] else (if ds[0].ip == ip && ds[0].accepted then [ds[0].now] else []) + AcceptedAt(ds[1..], ip)
  }

  /** An entry is a counter that expires when its window ends. */
  function AsCell(c: Option<Entry>): Windows.Cell {
    if c.None? then None else Some(Windows.Counter(c.value.count, Windows.At(c.value.windowEnd)))
  }

  predicate Sane(c: Option<Entry>, limit: int) {
    c.Some? ==> 1 <= c.value.count <= Max(limit, 1)
  }

  /** The bumps of one client's counter, one for each accepted request. */
  function Bumps(c: Option<Entry>, limit: int, window: int, evs: seq<Event>, ip: string): seq<Windows.Hit>
    decreases evs
  {
    if evs == [] then []
    else if evs[0].Request? && evs[0].ip == ip then
      var (e, accepted) := Handle(c, limit, window, evs[0].now);
      (if accepted then [Windows.Hit(evs[0].now, e.windowEnd - window, e.count)] else [])
      + Bumps(Some(e), limit, window, evs[1..], ip)
    else Bumps(c, limit, window, evs[1..], ip)
  }

  lemma {:induction false} BumpsAreAccepted(m: Counters, limit: int, window: int, evs: seq<Event>, ip: string)
    ensures AcceptedAt(Trace(m, limit, window, evs, false), ip) == Windows.Times(Bumps(At(m, ip), limit, window, evs, ip))
    decreases evs
  {
    hide Handle;
    if evs != [] {
      match evs[0]
      case Request(other, now) =>
        var (e, accepted) := Handle(At(m, other), limit, window, now);
        var m' := m[other := e];
        BumpsAreAccepted(m', limit, window, evs[1..], ip);
        assert ([Decision(other, now, accepted)] + Trace(m', limit, window, evs[1..], false))[1..] == Trace(m', limit, window, evs[1..], false);
        assert other != ip ==> At(m', ip) == At(m, ip);
      case Cleanup(_) =>
        BumpsAreAccepted(m, limit, window, evs[1..], ip);
    }
  }

  lemma HandleTracks(x: Windows.Hit, c: Option<Entry>, limit: int, window: int, now: int, t: int)
    requires window > 0 && limit <= MAX_INT64 && Sane(c, limit) && Windows.Tracks(x, AsCell(c), now, window) && now <= t
    ensures var (e, accepted) := Handle(c, limit, window, t);
            && Sane(Some(e), limit) && Windows.Tracks(x, AsCell(Some(e)), t, window)
            && (accepted ==> Windows.After(x, Windows.Hit(t, e.windowEnd - window, e.count), window))
  {
  }

  lemma HandleSound(c: Option<Entry>, limit: int, window: int, t: int)
    requires window > 0 && Sane(c, limit)
    ensures var (e, accepted) := Handle(c, limit, window, t);
            && Sane(Some(e), limit)
            && (accepted ==>
                  var y := Windows.Hit(t, e.windowEnd - window, e.count);
                  Windows.Sound(y, window, Max(limit, 1)) && Windows.Tracks(y, AsCell(Some(e)), t, window))
  {
  }

  lemma {:induction false} BumpsAfter(x: Windows.Hit, c: Option<Entry>, limit: int, window: int, now: int, evs: seq<Event>, ip: string)
    requires window > 0 && limit <= MAX_INT64 && Sane(c, limit) && Windows.Tracks(x, AsCell(c), now, window) && Timed(now, evs)
    ensures forall y :: y in Bumps(c, limit, window, evs, ip) ==> Windows.After(x, y, window)
    decreases evs
  {
    hide Handle, Sane, Windows.Tracks, Windows.After;
    if evs != [] {
      if evs[0].Request? && evs[0].ip == ip {
        HandleTracks(x, c, limit, window, now, evs[0].now);
        BumpsAfter(x, Some(Handle(c, limit, window, evs[0].now).0), limit, window, evs[0].now, evs[1..], ip);
      } else {
        TracksLater(x, AsCell(c), now, window, evs[0].now);
        BumpsAfter(x, c, limit, window, evs[0].now, evs[1..], ip);
      }
    }
  }

  lemma TracksLater(x: Windows.Hit, c: Windows.Cell, now: int, window: int, t: int)
    requires Windows.Tracks(x, c, now, window) && now <= t
    ensures Windows.Tracks(x, c, t, window)
  {
  }

  lemma {:induction false} BumpsAreLog(c: Option<Entry>, limit: int, window: int, now: int, evs: seq<Event>, ip: string)
    requires window > 0 && limit <= MAX_INT64 && Sane(c, limit) && Timed(now, evs)
    ensures Windows.IsLog(Bumps(c, limit, window, evs, ip), window, Max(limit, 1))
    decreases evs
  {
    hide Handle, Sane, Max, Windows.Tracks, Windows.After, Windows.Sound;
    if evs != [] {
      if evs[0].Request? && evs[0].ip == ip {
        var (e, accepted) := Handle(c, limit, window, evs[0].now);
        HandleSound(c, limit, window, evs[0].now);
        BumpsAreLog(Some(e), limit, window, evs[0].now, evs[1..], ip);
        if accepted {
          BumpsAfter(Windows.Hit(evs[0].now, e.windowEnd - window, e.count), Some(e), limit, window, evs[0].now, evs[1..], ip);
        }
      } else {
        BumpsAreLog(c, limit, window, evs[0].now, evs[1..], ip);
      }
    }
  }

  /**
   * Sweeping or not, any closed interval as long as the window holds at most `2 * max(limit, 1) - 1`
   * accepted requests of one client.
   */
  lemma ClientBound(limit: int, window: int, now: int, evs: seq<Event>, sweeping: bool, ip: string)
    requires 0 < window && IsInt64(limit) && Timed(now, evs)
    ensures AtMost(AcceptedAt(Trace(map[], limit, window, evs, sweeping), ip), 2 * Max(limit, 1) - 1, window)
  {
    SweepIsInvisible(limit, window, now, evs);
    BumpsAreAccepted(map[], limit, window, evs, ip);
    var log := Bumps(None, limit, window, evs, ip);
    BumpsAreLog(None, limit, window, now, evs, ip);
    Windows.WindowSpread(log, window, Max(limit, 1));
    SpreadIffAtMost(Windows.Times(log), 2 * Max(limit, 1) - 1, window);
  }

  // The bound is reached: one request opens a window, the others allowed come at its last live instant,
  // and the next window is filled an instant later.

  function Burst(n: nat, ip: string, t: int): seq<Event> {
    if n == 0 then [] else [Request(ip, t)] + Burst(n - 1, ip, t)
  }

  function FilledWindow(limit: int, ip: string, t: int): seq<Event> {
    [Request(ip, t)] + (Burst(Max(limit, 1) - 1, ip, t) + [])
  }

  function DoubleBurst(limit: int, window: int, ip: string): seq<Event> {
    [Request(ip, 0)] + (Burst(Max(limit, 1) - 1, ip, window) + FilledWindow(limit, ip, window + 1))
  }

  lemma {:induction false} BurstTimed(n: nat, ip: string, t: int, rest: seq<Event>)
    requires Timed(t, rest)
    ensures Timed(t, Burst(n, ip, t) + rest)
  {
    if n == 0 {
      assert Burst(n, ip, t) + rest == rest;
    } else {
      BurstTimed(n - 1, ip, t, rest);
      assert (Burst(n, ip, t) + rest)[1..] == Burst(n - 1, ip, t) + rest;
    }
  }

  lemma DoubleBurstTimed(limit: int, window: nat, ip: string)
    ensures Timed(0, DoubleBurst(limit, window, ip))
  {
    hide Burst;
    var n := Max(limit, 1) - 1;
    var next := FilledWindow(limit, ip, window + 1);
    BurstTimed(n, ip, window + 1, []);
    assert next[1..] == Burst(n, ip, window + 1) + [];
    BurstTimed(n, ip, window, next);
    assert DoubleBurst(limit, window, ip)[1..] == Burst(n, ip, window) + next;
    LaterTimed(0, window, Burst(n, ip, window) + next);
  }

  lemma LaterTimed(now: int, t: int, evs: seq<Event>)
    requires now <= t && Timed(t, evs)
    ensures Timed(now, evs)
  {
  }

  /** The instants at which one client's requests are accepted, from what is kept of the client. */
  function AcceptedOf(c: Option<Entry>, limit: int, window: int, evs: seq<Event>, ip: string): seq<int> {
    Windows.Times(Bumps(c, limit, window, evs, ip))
  }

  lemma RequestHead(c: Option<Entry>, limit: int, window: int, ip: string, t: int, rest: seq<Event>)
    ensures var (e, accepted) := Handle(c, limit, window, t);
            AcceptedOf(c, limit, window, [Request(ip, t)] + rest, ip)
            == (if accepted then [t] else []) + AcceptedOf(Some(e), limit, window, rest, ip)
  {
    hide Handle;
    assert ([Request(ip, t)] + rest)[1..] == rest;
    var (e, accepted) := Handle(c, limit, window, t);
    if accepted {
      Windows.TimesConcat([Windows.Hit(t, e.windowEnd - window, e.count)], Bumps(Some(e), limit, window, rest, ip));
    }
  }

  lemma {:induction false} BurstAccepted(e: Entry, n: nat, limit: int, window: int, ip: string, t: int, rest: seq<Event>)
    returns (e': Entry)
    requires t <= e.windowEnd && (n > 0 ==> e.count + n <= limit)
    ensures e'.windowEnd == e.windowEnd
    ensures AcceptedOf(Some(e), limit, window, Burst(n, ip, t) + rest, ip)
         == Copies(n, t) + AcceptedOf(Some(e'), limit, window, rest, ip)
    decreases n
  {
    hide AcceptedOf;
    if n == 0 {
      assert Burst(n, ip, t) + rest == rest;
      e' := e;
    } else {
      assert Burst(n, ip, t) + rest == [Request(ip, t)] + (Burst(n - 1, ip, t) + rest);
      RequestHead(Some(e), limit, window, ip, t, Burst(n - 1, ip, t) + rest);
      e' := BurstAccepted(Handle(Some(e), limit, window, t).0, n - 1, limit, window, ip, t, rest);
      assert Copies(n, t) == [t] + Copies(n - 1, t);
    }
  }

  lemma DoubleBurstAccepted(limit: int, window: nat, ip: string)
    ensures var n := Max(limit, 1) - 1;
            AcceptedOf(None, limit, window, DoubleBurst(limit, window, ip), ip)
            == [0] + (Copies(n, window) + ([window + 1] + (Copies(n, window + 1) + [])))
  {
    hide AcceptedOf, Burst, Copies;
    var n := Max(limit, 1) - 1;
    var next := FilledWindow(limit, ip, window + 1);
    RequestHead(None, limit, window, ip, 0, Burst(n, ip, window) + next);
    var e := BurstAccepted(Entry(1, window, 0), n, limit, window, ip, window, next);
    RequestHead(Some(e), limit, window, ip, window + 1, Burst(n, ip, window + 1) + []);
    e := BurstAccepted(Entry(1, window + 1 + window, window + 1), n, limit, window, ip, window + 1, []);
    NoneAccepted(e, limit, window, ip);
  }

  lemma NoneAccepted(e: Entry, limit: int, window: int, ip: string)
    ensures AcceptedOf(Some(e), limit, window, [], ip) == []
  {
  }

  lemma DoubleBurstCount(limit: int, window: nat, ip: string, sweeping: bool)
    requires window > 0
    ensures CountIn(AcceptedAt(Trace(map[], limit, window, DoubleBurst(limit, window, ip), sweeping), ip), 1, window)
         >= 2 * Max(limit, 1) - 1
  {
    hide Trace, DoubleBurst, Copies, Bumps;
    var n := Max(limit, 1) - 1;
    var evs := DoubleBurst(limit, window, ip);
    DoubleBurstTimed(limit, window, ip);
    SweepIsInvisible(limit, window, 0, evs);
    BumpsAreAccepted(map[], limit, window, evs, ip);
    DoubleBurstAccepted(limit, window, ip);
    var ts := AcceptedAt(Trace(map[], limit, window, evs, sweeping), ip);
    assert ts == [0] + (Copies(n, window) + ([window + 1] + (Copies(n, window + 1) + [])));
    CountInBlock(ts, 1, 2 * n + 1, 1, window);
  }

  /**
   * Sweeping or not, `n` bounds one client's accepted requests in every interval of the window's length,
   * in every run, if and only if it is at least `2 * max(limit, 1) - 1`.
   */
  lemma ClientExact(limit: int, window: int, sweeping: bool, ip: string, n: nat)
    requires 0 < window && IsInt64(limit)
    ensures (forall now, evs :: Timed(now, evs)
               ==> AtMost(AcceptedAt(Trace(map[], limit, window, evs, sweeping), ip), n, window))
       <==> n >= 2 * Max(limit, 1) - 1
  {
    hide Trace, DoubleBurst, Max, Timed;
    if n >= 2 * Max(limit, 1) - 1 {
      forall now, evs | Timed(now, evs)
        ensures AtMost(AcceptedAt(Trace(map[], limit, window, evs, sweeping), ip), n, window)
      {
        PositiveMax(limit);
        ClientBound(limit, window, now, evs, sweeping, ip);
      }
    } else {
      DoubleBurstTimed(limit, window, ip);
      DoubleBurstCount(limit, window, ip, sweeping);
      var evs := DoubleBurst(limit, window, ip);
      assert CountIn(AcceptedAt(Trace(map[], limit, window, evs, sweeping), ip), 1, window) > n;
    }
  }

  lemma PositiveMax(limit: int)
    ensures Max(limit, 1) >= 1
  {
  }
}

/** The limiter itself, with entries updated in place. */
module RateLimit {
  import opened RateLimitSpec

  class RateLimitCounter {
    ghost const ip: string
    var count: int
    var windowEnd: int
    var lastAccess: int

    constructor (ghost ip: string, count: int, windowEnd: int, lastAccess: int)
      ensures this.ip == ip && this.count == count && this.windowEnd == windowEnd && this.lastAccess == lastAccess
    {
      this.ip := ip;
      this.count, this.windowEnd, this.lastAccess := count, windowEnd, lastAccess;
    }
  }

  class RateLimitMiddleware {
    var counters: map<string, RateLimitCounter>
    const limit: int
    const window: int

    constructor (limit: int, window: int)
      ensures Valid() && Entries() == map[] && this.limit == limit && this.window == window
    {
      counters := map[];
      this.limit, this.window := limit, window;
    }

    /** No entry is shared between clients. */
    ghost predicate Valid()
      reads this, counters.Values
    {
      forall ip :: ip in counters ==> counters[ip].ip == ip
    }

    ghost function Entries(): Counters
      reads this, counters.Values
    {
      map ip | ip in counters :: Entry(counters[ip].count, counters[ip].windowEnd, counters[ip].lastAccess)
    }

    method HandleRequest(clientIP: string, now: int) returns (accepted: bool)
      requires Valid()
      modifies this, counters.Values
      ensures Valid() && fresh(counters.Values - old(counters.Values))
      ensures Entries() == old(Entries())[clientIP := Handle(At(old(Entries()), clientIP), limit, window, now).0]
      ensures accepted == Handle(At(old(Entries()), clientIP), limit, window, now).1
    {
      if clientIP !in counters || now > counters[clientIP].windowEnd {
        var entry := new RateLimitCounter(clientIP, 1, now + window, now);
        counters := counters[clientIP := entry];
        return true;
      }
      var counter := counters[clientIP];
      if counter.count >= limit {
        counter.lastAccess := now;
        return false;
      }
      counter.count := counter.count + 1;
      counter.lastAccess := now;
      return true;
    }

    /** Deleting while looping over the map, in whatever order. */
    method CleanupNow(now: int)
      requires Valid()
      modifies this
      ensures Valid() && counters.Values <= old(counters.Values)
      ensures Entries() == Sweep(old(Entries()), window, now)
    {
      var rest := counters.Keys;
      while rest != {}
        invariant rest <= counters.Keys <= old(counters.Keys)
        invariant forall ip :: ip in counters ==> counters[ip] == old(counters)[ip]
        invariant forall ip :: ip in old(counters) && ip !in rest ==> (ip in counters <==> !(now - old(counters)[ip].lastAccess > window))
      {
        var ip :| ip in rest;
        rest := rest - {ip};
        if now - counters[ip].lastAccess > window {
          counters := counters - {ip};
        }
      }
    }
  }
}
