/** The wall clock of `SharedData::get_unix_time`.

    Actor time is an integer number of nanoseconds (the unit in which the
    delivery index compares wake-ups); the wall clock is a saturating count of
    whole seconds. */
module UnixClock {
  const NANOS := 1_000_000_000
  const MAX_INT32 := 0x7fff_ffff

  function Min(a: int, b: int): int { if a <= b then a else b }

  /** `difference` is the offset of the unix epoch from actor time zero. */
  function UnixTime(difference: int, now: int): (r: int)
    ensures 0 <= r <= MAX_INT32
  {
    var result := difference + now;
    if result <= 0 then 0
    else if result >= MAX_INT32 * NANOS then MAX_INT32
    else result / NANOS
  }

  /** Between its clamps the wall clock shows the whole seconds since the epoch. */
  lemma UnixTimeIsSeconds(difference: int, now: int)
    ensures difference + now <= 0 ==> UnixTime(difference, now) == 0
    ensures difference + now >= 2147483647 * 1_000_000_000 ==> UnixTime(difference, now) == 2147483647
    ensures 0 < difference + now < 2147483647 * 1_000_000_000 ==>
              UnixTime(difference, now) * 1_000_000_000 <= difference + now < (UnixTime(difference, now) + 1) * 1_000_000_000
  {
  }

  lemma UnixTimeMonotone(d: int, t: int, d': int, t': int)
    requires d + t <= d' + t'
    ensures UnixTime(d, t) <= UnixTime(d', t')
  {
    assert forall a: int, b: int | 0 <= a <= b :: a / NANOS <= b / NANOS;
  }

  /** While the clock is above its lower clamp, sleeping k seconds advances it
      by exactly k, or to the upper clamp. */
  lemma UnixTimeAdvances(d: int, t: int, k: nat)
    requires 0 < d + t
    ensures UnixTime(d, t + k * NANOS) == Min(UnixTime(d, t) + k, MAX_INT32)
  {
    assert (d + t + k * NANOS) / NANOS == (d + t) / NANOS + k;
  }
}
