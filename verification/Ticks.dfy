/**
 The 32-bit tick and millisecond counters.

 Every deadline in the firmware is tested on the signed 32-bit difference of two wrapped
 counter values. The lemmas below say when that agrees with comparing the true times.
 */
module Ticks {

  const WRAP := 0x1_0000_0000
  const HALF := 0x8000_0000

  /** A `uint32_t` counter value. */
  type Tick = x: int | 0 <= x < WRAP

  /** The wrapped counter at a true, unbounded time. */
  function At(time: int): (t: Tick) { time % WRAP }

  /** `uint32_t` addition. */
  function Add(t: Tick, delta: Tick): (r: Tick)
  {
    if t + delta < WRAP then t + delta else t + delta - WRAP
  }

  /** The `uint32_t` difference of two counter values, reinterpreted as `int32_t`. */
  function SignedDifference(now: Tick, since: Tick): (d: int)
  {
    var d := now - since;
    if d >= HALF then d - WRAP else if d < -HALF then d + WRAP else d
  }

  /** `tick_reached`. */
  predicate Reached(now: Tick, deadline: Tick) { SignedDifference(now, deadline) >= 0 }

  /** `guard_elapsed`, for any window. */
  predicate Elapsed(now: Tick, since: Tick, window: nat) { SignedDifference(now, since) >= window }

  /** The signed difference is the one number in the `int32_t` range congruent to the true one. */
  lemma DifferenceOfTimes(now: int, since: int)
    requires -HALF <= now - since < HALF
    ensures SignedDifference(At(now), At(since)) == now - since
  {
    var q, p := now / WRAP, since / WRAP;
    assert now == q * WRAP + At(now) && since == p * WRAP + At(since);
  }

  /** Adding an interval to a counter is adding it to the true time. */
  lemma AddOfTimes(time: int, delta: Tick)
    ensures Add(At(time), delta) == At(time + delta)
  {
    var q, t := time / WRAP, At(time);
    assert time == q * WRAP + t;
    if t + delta < WRAP {
      OneRemainder(time + delta, q, t + delta);
    } else {
      OneRemainder(time + delta, q + 1, t + delta - WRAP);
    }
  }

  /** A number within the counter's range that differs from the time by whole turns is the counter. */
  lemma OneRemainder(time: int, turns: int, t: int)
    requires 0 <= t < WRAP && time == turns * WRAP + t
    ensures At(time) == t
  {
  }

  /** A wrapped deadline is reached exactly when the true deadline is, within half the range. */
  lemma ReachedMeansTrueTime(now: int, deadline: int)
    requires -HALF <= now - deadline < HALF
    ensures Reached(At(now), At(deadline)) <==> now >= deadline
  {
    DifferenceOfTimes(now, deadline);
  }

  /** A guard window has elapsed exactly when it truly has, within half the range. */
  lemma ElapsedMeansTrueTime(now: int, since: int, window: nat)
    requires -HALF <= now - since < HALF
    ensures Elapsed(At(now), At(since), window) <==> now - since >= window
  {
    DifferenceOfTimes(now, since);
  }

  /** Beyond half the range the comparison is wrong: a gap of 2^31 reads as not elapsed. */
  lemma HalfRangeReadsAsNotElapsed(since: int, gap: nat, window: nat)
    requires HALF <= gap < WRAP
    ensures !Elapsed(At(since + gap), At(since), window)
    ensures !Reached(At(since + gap), At(since))
  {
    DifferenceOfTimes(since + gap - WRAP, since);
    assert At(since + gap - WRAP) == At(since + gap);
  }
}
