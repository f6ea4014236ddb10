/** Counting events in time intervals. Every rate bound of the project is stated here once. */
module Intervals {

  predicate Nondecreasing(ts: seq<int>) {
    forall i, j :: 0 <= i < j < |ts| ==> ts[i] <= ts[j]
  }

  /** How many of the instants `ts` lie in the closed interval `[lo, lo + len]`. */
  function CountIn(ts: seq<int>, lo: int, len: int): nat {
    if ts == [] then 0 else (if lo <= ts[0] <= lo + len then 1 else 0) + CountIn(ts[1..], lo, len)
  }

  /** No closed interval of length `len` holds more than `n` of the instants. */
  ghost predicate AtMost(ts: seq<int>, n: nat, len: int) {
    forall lo :: CountIn(ts, lo, len) <= n
  }

  /** Any two instants that are `n` or more places apart are more than `len` apart in time. */
  predicate Spread(ts: seq<int>, n: nat, len: int) {
    forall i, j :: 0 <= i && i + n <= j < |ts| ==> ts[j] - ts[i] > len
  }

  /** `n` events at one instant. */
  function Copies(n: nat, x: int): (r: seq<int>)
    ensures |r| == n && forall i :: 0 <= i < n ==> r[i] == x
  {
    if n == 0 then [] else [x] + Copies(n - 1, x)
  }

  lemma {:induction false} CountInPrefix(ts: seq<int>, m: nat, lo: int, len: int)
    requires m <= |ts|
    requires forall j :: m <= j < |ts| ==> ts[j] > lo + len
    ensures CountIn(ts, lo, len) <= m
  {
    if ts != [] {
      CountInPrefix(ts[1..], if m == 0 then 0 else m - 1, lo, len);
    }
  }

  lemma {:induction false} CountInBlock(ts: seq<int>, i: nat, j: nat, lo: int, len: int)
    requires i <= j < |ts|
    requires forall k :: i <= k <= j ==> lo <= ts[k] <= lo + len
    ensures CountIn(ts, lo, len) >= j - i + 1
  {
    if i > 0 {
      CountInBlock(ts[1..], i - 1, j - 1, lo, len);
    } else if j > 0 {
      CountInBlock(ts[1..], 0, j - 1, lo, len);
    }
  }

  lemma {:induction false} SpreadCounts(ts: seq<int>, n: nat, len: int, lo: int)
    requires Nondecreasing(ts) && Spread(ts, n, len)
    ensures CountIn(ts, lo, len) <= n
  {
    if ts == [] || n >= |ts| {
      CountInPrefix(ts, |ts|, lo, len);
    } else if lo <= ts[0] {
      CountInPrefix(ts, n, lo, len);
    } else {
      SpreadCounts(ts[1..], n, len, lo);
    }
  }

  /** The pairwise form and the interval form of a rate bound are the same property. */
  lemma SpreadIffAtMost(ts: seq<int>, n: nat, len: int)
    requires Nondecreasing(ts)
    ensures Spread(ts, n, len) <==> AtMost(ts, n, len)
  {
    if Spread(ts, n, len) {
      forall lo ensures CountIn(ts, lo, len) <= n {
        SpreadCounts(ts, n, len, lo);
      }
    }
    if AtMost(ts, n, len) {
      forall i, j | 0 <= i && i + n <= j < |ts| ensures ts[j] - ts[i] > len {
        assert CountIn(ts, ts[i], len) <= n;
        if ts[j] - ts[i] <= len {
          CountInBlock(ts, i, j, ts[i], len);
        }
      }
    }
  }

}
