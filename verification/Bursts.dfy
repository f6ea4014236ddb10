/** Runs that reach a bound: several requests at one instant. */
module Bursts {
  import opened Limiters

  /** `n` checks, all of them at instant `t`. */
  function Burst(n: nat, t: int): (evs: seq<Event>)
    ensures |evs| == n
  {
    if n == 0 then [] else [Event(true, Instant(t))] + Burst(n - 1, t)
  }

  lemma {:induction false} BurstTimed(n: nat, t: int, tail: seq<Event>)
    requires Timed(t, tail)
    ensures Timed(t, Burst(n, t) + tail)
  {
    if n == 0 {
      assert Burst(n, t) + tail == tail;
    } else {
      BurstTimed(n - 1, t, tail);
      assert (Burst(n, t) + tail)[1..] == Burst(n - 1, t) + tail;
    }
  }
}
