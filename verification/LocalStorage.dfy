/** What the in-memory store holds, as a value, and what each operation makes of it. */
module Memory {
  import opened GoTypes
  import opened Lists
  import opened Windows

  datatype Mem = Mem(counters: map<string, Counter>, lists: map<string, seq<int>>, closed: bool) {

    function CellAt(key: string): Cell {
      if key in counters then Some(counters[key]) else None
    }

    function WithCell(key: string, c: Cell): Mem {
      this.(counters := if c.Some? then counters[key := c.value] else counters - {key})
    }

    function ListAt(key: string): seq<int> {
      if key in lists then lists[key] else []
    }

    /** Rewrite a list that exists. */
    function WithList(key: string, l: seq<int>): Mem {
      if key in lists then this.(lists := lists[key := l]) else this
    }

    function GetInt(key: string, now: int): (Mem, Result<int>) {
      if closed then (this, Err(StorageClosed)) else
        var c := Drop(CellAt(key), now);
        (WithCell(key, c), if c.Some? then Ok(c.value.value) else Err(KeyNotFound))
    }

    function SetInt(key: string, value: int, ttl: int, now: int): (Mem, Option<Error>) {
      if closed then (this, Some(StorageClosed)) else
        (WithCell(key, Some(Counter(value, if ttl > 0 then At(now + ttl) else Never))), None)
    }

    function Incr(key: string, delta: int, ttl: int, now: int, stamp: int): (Mem, Result<int>) {
      if closed then (this, Err(StorageClosed)) else
        var e := Add(CellAt(key), delta, ttl, now, stamp);
        (WithCell(key, Some(e)), Ok(e.value))
    }

    function LPush(key: string, values: seq<int>): (Mem, Option<Error>) {
      if closed then (this, Some(StorageClosed)) else
        (this.(lists := lists[key := Pushed(ListAt(key), values)]), None)
    }

    function LLen(key: string): Result<int> {
      if closed then Err(StorageClosed) else Ok(|ListAt(key)|)
    }

    function LIndex(key: string, index: int): Result<int> {
      if closed then Err(StorageClosed) else Index(ListAt(key), index)
    }

    function LTrim(key: string, start: int, stop: int): (Mem, Option<Error>) {
      if closed then (this, Some(StorageClosed)) else (WithList(key, Slice(ListAt(key), start, stop)), None)
    }

    function LRange(key: string, start: int, stop: int): Result<seq<int>> {
      if closed then Err(StorageClosed) else Ok(Slice(ListAt(key), start, stop))
    }

    function CleanupLists(): Mem {
      this.(lists := map key | key in lists && lists[key] != [] :: lists[key])
    }
  }

  // What one operation lets a later one see

  /** What is set is read until its time to live is over, for ever without one. */
  lemma SetThenGet(m: Mem, key: string, value: int, ttl: int, now: int, t: int)
    requires !m.closed
    ensures m.SetInt(key, value, ttl, now).0.GetInt(key, t).1
         == if ttl <= 0 || t <= now + ttl then Ok(value) else Err(KeyNotFound)
  {
  }

  /**
   * An increment returns what was there, or 0, plus `delta`, modulo 2^64. It is read afterwards as long
   * as what was there would have been, or for the time to live of a new counter.
   */
  lemma IncrThenGet(m: Mem, key: string, delta: int, ttl: int, now: int, stamp: int, t: int)
    requires !m.closed && now <= stamp <= t
    ensures var (before, (after, n)) := (m.GetInt(key, now).1, m.Incr(key, delta, ttl, now, stamp));
            && n.Ok? && IsInt64(n.value) && (n.value - (if before.Ok? then before.value else 0) - delta) % 0x1_0000_0000_0000_0000 == 0
            && (after.GetInt(key, t).1 == n || after.GetInt(key, t).1 == Err(KeyNotFound))
            && (after.GetInt(key, t).1.Ok? <==> if before.Ok? then m.GetInt(key, t).1.Ok? else ttl <= 0 || t <= stamp + ttl)
  {
  }

  /** Operations on one key are not seen at any other. */
  lemma OtherKeysKept(m: Mem, key: string, other: string, x: int, values: seq<int>, y: int, ttl: int, now: int, stamp: int)
    requires other != key
    ensures forall m' :: m' in {m.GetInt(key, now).0, m.SetInt(key, x, ttl, now).0, m.Incr(key, x, ttl, now, stamp).0,
                                m.LPush(key, values).0, m.LTrim(key, x, y).0} ==>
              m'.CellAt(other) == m.CellAt(other) && m'.ListAt(other) == m.ListAt(other)
  {
    hide Pushed, Slice;
  }

  /** A closed store refuses every operation and changes no more. */
  lemma ClosedRefuses(m: Mem, key: string, x: int, values: seq<int>, y: int, ttl: int, now: int, stamp: int)
    requires m.closed
    ensures m.GetInt(key, now) == (m, Err(StorageClosed)) == m.Incr(key, x, ttl, now, stamp)
    ensures m.SetInt(key, x, ttl, now) == (m, Some(StorageClosed)) == m.LPush(key, values) == m.LTrim(key, x, y)
    ensures m.LLen(key) == Err(StorageClosed) == m.LIndex(key, x) && m.LRange(key, x, y) == Err(StorageClosed)
  {
  }

  /** The last value pushed is read first, then the others back to what was there before. */
  lemma PushThenIndex(m: Mem, key: string, values: seq<int>, i: nat)
    requires !m.closed
    ensures m.LPush(key, values).0.LLen(key) == Ok(|m.ListAt(key)| + |values|)
    ensures m.LPush(key, values).0.LIndex(key, i) == if i < |values| then Ok(values[|values| - 1 - i]) else m.LIndex(key, i - |values|)
  {
  }

  /** The sweep removes the keys of empty lists and no others, and changes no list. */
  lemma CleanupRemovesEmpty(m: Mem, key: string)
    ensures var m' := m.CleanupLists();
            && (key in m'.lists <==> m.ListAt(key) != [])
            && m'.ListAt(key) == m.ListAt(key) && m'.CellAt(key) == m.CellAt(key) && m'.closed == m.closed
  {
  }
}

/** The in-memory store (local.go): maps from keys to entries that are updated in place. */
module LocalStorage {
  import opened GoTypes
  import opened Lists
  import opened Memory
  import opened Windows

  class CounterEntry {
    ghost const key: string
    var value: int
    var expires: Expiry

    constructor (ghost key: string, value: int, expires: Expiry)
      ensures this.key == key && this.value == value && this.expires == expires
    {
      this.key, this.value, this.expires := key, value, expires;
    }
  }

  class ListEntry {
    ghost const key: string
    var data: seq<int>
    var expires: Expiry

    constructor (ghost key: string)
      ensures this.key == key && data == [] && expires == Never
    {
      this.key, data, expires := key, [], Never;
    }
  }

  class LocalStorage {
    var counters: map<string, CounterEntry>
    var lists: map<string, ListEntry>
    var closed: bool
    ghost var Repr: set<object>

    /** No entry is shared between keys, and nothing ever sets the expiry of a list. */
    ghost predicate Valid()
      reads this, Repr
      ensures Valid() ==> this in Repr
    {
      && this in Repr
      && (forall k :: k in counters ==> counters[k] in Repr && counters[k].key == k)
      && (forall k :: k in lists ==> lists[k] in Repr && lists[k].key == k && lists[k].expires == Never)
    }

    ghost function Counters(): map<string, Counter>
      reads `counters, counters.Values
    {
      map k | k in counters :: Counter(counters[k].value, counters[k].expires)
    }

    ghost function Lists(): map<string, seq<int>>
      reads `lists, lists.Values
    {
      map k | k in lists :: lists[k].data
    }

    ghost function State(): Mem
      reads this, counters.Values, lists.Values
    {
      Mem(Counters(), Lists(), closed)
    }

    constructor ()
      ensures Valid() && fresh(Repr)
      ensures State() == Mem(map[], map[], false)
    {
      counters, lists, closed, Repr := map[], map[], false, {this};
    }

    method GetInt(key: string, now: int) returns (r: Result<int>)
      requires Valid()
      modifies Repr
      ensures Valid() && fresh(Repr - old(Repr))
      ensures State() == old(State()).GetInt(key, now).0
      ensures r == old(State()).GetInt(key, now).1
    {
      if closed {
        return Err(StorageClosed);
      }
      if key !in counters {
        return Err(KeyNotFound);
      }
      var entry := counters[key];
      if Passed(entry.expires, now) {
        counters := counters - {key};
        assert Counters() == old(Counters()) - {key};
        return Err(KeyNotFound);
      }
      assert old(Counters()) == old(Counters())[key := Counter(entry.value, entry.expires)];
      return Ok(entry.value);
    }

    method SetInt(key: string, value: int, ttl: int, now: int) returns (err: Option<Error>)
      requires Valid()
      modifies Repr
      ensures Valid() && fresh(Repr - old(Repr))
      ensures State() == old(State()).SetInt(key, value, ttl, now).0
      ensures err == old(State()).SetInt(key, value, ttl, now).1
    {
      if closed {
        return Some(StorageClosed);
      }
      var entry := new CounterEntry(key, value, if ttl > 0 then At(now + ttl) else Never);
      counters, Repr := counters[key := entry], Repr + {entry};
      assert Counters() == old(Counters())[key := Counter(value, entry.expires)];
      return None;
    }

    /** The part of an increment that runs under the lock: find a live entry for the key, or make one. */
    method Entry(key: string, ttl: int, now: int, stamp: int) returns (entry: CounterEntry)
      requires Valid()
      modifies this
      ensures Valid() && fresh(Repr - old(Repr))
      ensures key in counters && counters[key] == entry && lists == old(lists) && closed == old(closed)
      ensures Counters() == old(Counters())[key := Found(old(State()).CellAt(key), ttl, now, stamp)]
    {
      var found := key in counters;
      if found && Passed(counters[key].expires, now) {
        counters := counters - {key};
        found := false;
      }
      if found {
        entry := counters[key];
      } else {
        entry := new CounterEntry(key, 0, if ttl > 0 then At(stamp + ttl) else Never);
        counters, Repr := counters[key := entry], Repr + {entry};
      }
    }

    /** The part of an increment that runs outside the lock. */
    method AddTo(ghost key: string, entry: CounterEntry, delta: int) returns (newVal: int)
      requires Valid() && key in counters && counters[key] == entry
      modifies entry
      ensures Valid() && Lists() == old(Lists())
      ensures newVal == Wrap64(old(Counters())[key].value + delta)
      ensures Counters() == old(Counters())[key := old(Counters())[key].(value := newVal)]
    {
      hide Wrap64;
      entry.value := Wrap64(entry.value + delta);
      newVal := entry.value;
    }

    method IncrBy(key: string, delta: int, now: int) returns (r: Result<int>)
      requires Valid()
      modifies Repr
      ensures Valid() && fresh(Repr - old(Repr))
      ensures State() == old(State()).Incr(key, delta, 0, now, now).0
      ensures r == old(State()).Incr(key, delta, 0, now, now).1
    {
      if closed {
        return Err(StorageClosed);
      }
      var entry := Entry(key, 0, now, now);
      var newVal := AddTo(key, entry, delta);
      return Ok(newVal);
    }

    method IncrWithTTL(key: string, ttl: int, now: int, stamp: int) returns (r: Result<int>)
      requires Valid()
      modifies Repr
      ensures Valid() && fresh(Repr - old(Repr))
      ensures State() == old(State()).Incr(key, 1, ttl, now, stamp).0
      ensures r == old(State()).Incr(key, 1, ttl, now, stamp).1
    {
      if closed {
        return Err(StorageClosed);
      }
      var entry := Entry(key, ttl, now, stamp);
      var newVal := AddTo(key, entry, 1);
      return Ok(newVal);
    }

    /** Values in reverse order in front of the data, in a buffer of their joint length. */
    static method Prepend(values: seq<int>, data: seq<int>) returns (r: seq<int>)
      ensures r == Pushed(data, values)
    {
      var newData := new int[|values| + |data|];
      for i := 0 to |values|
        invariant forall j :: 0 <= j < i ==> newData[|values| - 1 - j] == values[j]
      {
        newData[|values| - 1 - i] := values[i];
      }
      forall i | |values| <= i < newData.Length {
        newData[i] := data[i - |values|];
      }
      r := newData[..];
      assert forall i :: 0 <= i < |values| ==> r[i] == values[|values| - 1 - i];
    }

    method ListFor(key: string) returns (entry: ListEntry)
      requires Valid()
      modifies this
      ensures Valid() && fresh(Repr - old(Repr)) && counters == old(counters) && closed == old(closed)
      ensures key in lists && lists[key] == entry && entry.data == old(State()).ListAt(key)
      ensures Lists() == old(Lists())[key := entry.data]
    {
      if key !in lists {
        entry := new ListEntry(key);
        lists, Repr := lists[key := entry], Repr + {entry};
      } else {
        entry := lists[key];
      }
    }

    /** Replace what an entry holds; other keys have other entries. */
    method SetData(ghost key: string, entry: ListEntry, data: seq<int>)
      requires Valid() && key in lists && lists[key] == entry
      modifies entry
      ensures Valid() && Counters() == old(Counters())
      ensures Lists() == old(Lists())[key := data]
    {
      entry.data := data;
    }

    /** A push to a store that is open. */
    method PushTo(key: string, values: seq<int>)
      requires Valid()
      modifies Repr
      ensures Valid() && fresh(Repr - old(Repr)) && closed == old(closed) && Counters() == old(Counters())
      ensures Lists() == old(Lists())[key := Pushed(old(State()).ListAt(key), values)]
    {
      hide Pushed;
      var entry := ListFor(key);
      var newData := Prepend(values, entry.data);
      SetData(key, entry, newData);
    }

    method LPush(key: string, values: seq<int>) returns (err: Option<Error>)
      requires Valid()
      modifies Repr
      ensures Valid() && fresh(Repr - old(Repr))
      ensures State() == old(State()).LPush(key, values).0
      ensures err == old(State()).LPush(key, values).1
    {
      hide Pushed, Counters, Lists, Mem.ListAt;
      if closed {
        return Some(StorageClosed);
      }
      PushTo(key, values);
      return None;
    }

    method LLen(key: string) returns (r: Result<int>)
      requires Valid()
      ensures r == State().LLen(key)
    {
      if closed {
        return Err(StorageClosed);
      }
      if key !in lists {
        return Ok(0);
      }
      return Ok(|lists[key].data|);
    }

    method LIndex(key: string, index: int) returns (r: Result<int>)
      requires Valid()
      ensures r == State().LIndex(key, index)
    {
      if closed {
        return Err(StorageClosed);
      }
      if key !in lists {
        return Err(IndexOutOfRange);
      }
      var data := lists[key].data;
      if |data| == 0 {
        return Err(IndexOutOfRange);
      }
      var i := if index < 0 then |data| + index else index;
      if i < 0 || i >= |data| {
        return Err(IndexOutOfRange);
      }
      return Ok(data[i]);
    }

    /** The index arithmetic that trimming and reading a range have in common. */
    static method Clamped(data: seq<int>, start: int, stop: int) returns (r: seq<int>)
      ensures r == Slice(data, start, stop)
    {
      var length := |data|;
      if length == 0 {
        return [];
      }
      var first, last := start, stop;
      if first < 0 {
        first := length + first;
      }
      if last < 0 {
        last := length + last;
      }
      if first < 0 {
        first := 0;
      }
      if last >= length {
        last := length - 1;
      }
      if first > last || first >= length {
        return [];
      }
      return data[first..last + 1];
    }

    method LTrim(key: string, start: int, stop: int) returns (err: Option<Error>)
      requires Valid()
      modifies Repr
      ensures Valid() && fresh(Repr - old(Repr))
      ensures State() == old(State()).LTrim(key, start, stop).0
      ensures err == old(State()).LTrim(key, start, stop).1
    {
      if closed {
        return Some(StorageClosed);
      }
      if key !in lists {
        return None;
      }
      hide Slice;
      var entry := lists[key];
      var kept := Clamped(entry.data, start, stop);
      SetData(key, entry, kept);
      return None;
    }

    method LRange(key: string, start: int, stop: int) returns (r: Result<seq<int>>)
      requires Valid()
      ensures r == State().LRange(key, start, stop)
    {
      if closed {
        return Err(StorageClosed);
      }
      if key !in lists {
        return Ok([]);
      }
      var data := Clamped(lists[key].data, start, stop);
      return Ok(data);
    }

    method Close()
      requires Valid()
      modifies this
      ensures Valid() && Repr == old(Repr)
      ensures State() == old(State()).(closed := true)
    {
      closed := true;
    }

    /** The background sweep: collect the keys of empty or expired lists, then delete those that still are. */
    method CleanupLists(now: int)
      requires Valid()
      modifies Repr
      ensures Valid() && fresh(Repr - old(Repr))
      ensures State() == old(State()).CleanupLists()
    {
      var keysToDelete: seq<string> := [];
      var rest := lists.Keys;
      while rest != {}
        invariant rest <= lists.Keys
        invariant forall k :: k in keysToDelete <==> k in lists && k !in rest && lists[k].data == []
      {
        var key :| key in rest;
        rest := rest - {key};
        var entry := lists[key];
        var isEmpty := |entry.data| == 0;
        var isExpired := Passed(entry.expires, now);
        if isEmpty || isExpired {
          keysToDelete := keysToDelete + [key];
        }
      }
      for i := 0 to |keysToDelete|
        modifies `lists
        invariant lists == old(lists) - (set k | k in keysToDelete[..i])
      {
        var key := keysToDelete[i];
        if key in lists {
          var entry := lists[key];
          var stillEmpty := |entry.data| == 0;
          var stillExpired := Passed(entry.expires, now);
          if stillEmpty || stillExpired {
            lists := lists - {key};
          }
        }
      }
    }
  }
}
