/**
 * The Redis-style list operations on a sequence of 64-bit integers, newest element first, with
 * signed indices that count from the end when negative.
 */
module Lists {
  import opened GoTypes

  /** A negative index counts from the end. */
  function Norm(length: int, index: int): int {
    if index < 0 then length + index else index
  }

  /** What `LTrim` keeps and what `LRange` returns. */
  function Slice(l: seq<int>, start: int, stop: int): seq<int> {
    var lo := Max(Norm(|l|, start), 0);
    var hi := Min(Norm(|l|, stop), |l| - 1);
    if lo > hi || lo >= |l| then [] else l[lo..hi + 1]
  }

  function Index(l: seq<int>, index: int): Result<int> {
    var i := Norm(|l|, index);
    if 0 <= i < |l| then Ok(l[i]) else Err(IndexOutOfRange)
  }

  function Reversed(vs: seq<int>): (r: seq<int>)
    ensures |r| == |vs|
    ensures forall i :: 0 <= i < |vs| ==> r[|vs| - 1 - i] == vs[i]
  {
    seq(|vs|, i requires 0 <= i < |vs| => vs[|vs| - 1 - i])
  }

  /** A multi-value `LPush`: the last value pushed ends up in front. */
  function Pushed(l: seq<int>, values: seq<int>): seq<int> {
    Reversed(values) + l
  }

  // The reference: a list is the elements at its positions, and pushing is putting one value in front.

  /** The elements at the first `n` positions of `l` whose position lies in `[lo, hi]`, in order. */
  function Between(l: seq<int>, n: nat, lo: int, hi: int): seq<int>
    requires n <= |l|
  {
    if n == 0 then [] else Between(l, n - 1, lo, hi) + if lo <= n - 1 <= hi then [l[n - 1]] else []
  }

  function PushEach(l: seq<int>, values: seq<int>): seq<int>
    decreases values
  {
    if values == [] then l else PushEach([values[0]] + l, values[1..])
  }

  lemma {:induction false} BetweenIsSubsequence(l: seq<int>, n: nat, lo: nat, hi: int)
    requires n <= |l| && -1 <= hi < |l|
    ensures var end := Min(hi + 1, n);
            Between(l, n, lo, hi) == if lo < end then l[lo..end] else []
  {
    if n > 0 {
      BetweenIsSubsequence(l, n - 1, lo, hi);
      if lo <= n - 1 <= hi {
        assert l[lo..n] == l[lo..n - 1] + [l[n - 1]];
      }
    }
  }

  lemma {:induction false} BetweenClamps(l: seq<int>, n: nat, lo: int, hi: int)
    requires n <= |l|
    ensures Between(l, n, lo, hi) == Between(l, n, Max(lo, 0), Max(Min(hi, |l| - 1), -1))
  {
    if n > 0 {
      BetweenClamps(l, n - 1, lo, hi);
    }
  }

  /** For all signed bounds, the clamping arithmetic selects exactly the positions between the two normalised bounds. */
  lemma SliceIsBetween(l: seq<int>, start: int, stop: int)
    ensures Slice(l, start, stop) == Between(l, |l|, Norm(|l|, start), Norm(|l|, stop))
  {
    hide Between, Norm;
    var lo, hi := Norm(|l|, start), Norm(|l|, stop);
    BetweenClamps(l, |l|, lo, hi);
    BetweenIsSubsequence(l, |l|, Max(lo, 0), Max(Min(hi, |l| - 1), -1));
  }

  /** Trimming to a range and reading everything back is reading that range before. */
  lemma TrimThenRange(l: seq<int>, start: int, stop: int)
    ensures Slice(Slice(l, start, stop), 0, -1) == Slice(l, start, stop)
  {
    var kept := Slice(l, start, stop);
    assert kept[..|kept|] == kept;
  }

  /** `LIndex(i)` fails exactly where `LRange(i, i)` is empty, and otherwise names its one element. */
  lemma IndexAgreesWithRange(l: seq<int>, index: int)
    ensures Index(l, index).Ok? <==> Slice(l, index, index) != []
    ensures Index(l, index).Ok? ==> Slice(l, index, index) == [Index(l, index).value]
  {
  }

  /** Index `-k` is the `k`-th element from the end, and from there the last `k` are read. */
  lemma FromTheEnd(l: seq<int>, k: int)
    requires 1 <= k <= |l|
    ensures Index(l, -k) == Ok(l[|l| - k]) && Slice(l, -k, -1) == l[|l| - k..]
    ensures Index(l, k - 1) == Ok(l[k - 1]) && Slice(l, 0, k - 1) == l[..k]
  {
  }

  lemma {:induction false} PushIsPushEach(l: seq<int>, values: seq<int>)
    ensures Pushed(l, values) == PushEach(l, values)
    decreases values
  {
    if values == [] {
      assert Pushed(l, values) == l;
    } else {
      PushIsPushEach([values[0]] + l, values[1..]);
      assert Reversed(values) == Reversed(values[1..]) + [values[0]];
      assert Pushed(l, values) == Reversed(values[1..]) + ([values[0]] + l);
    }
  }
}
