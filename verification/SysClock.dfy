/** The wrapping millisecond clock and the difference of two of its readings (utils_common.c). */
module SysClock {
  import opened Common

  function DeltaTime(timeNew: U32, timeOld: U32): (delta: U32)
  {
    if timeNew >= timeOld then timeNew - timeOld
    else 0xFFFF_FFFF - timeOld + timeNew + 1
  }

  /** The reading of the clock when its unbounded time is t. */
  function Reading(t: nat): U32 { ToU32(t) }

  /** Across any number of wraps the difference is the elapsed time modulo the wrap,
      hence exact if and only if less than one wrap has elapsed. */
  lemma DeltaTimeIsElapsed(t: nat, elapsed: nat)
    ensures DeltaTime(Reading(t + elapsed), Reading(t)) == elapsed % TWO32
    ensures DeltaTime(Reading(t + elapsed), Reading(t)) == elapsed <==> elapsed < TWO32
  {
    var q1, q2 := t / TWO32, (t + elapsed) / TWO32;
    var r1, r2 := t % TWO32, (t + elapsed) % TWO32;
    var q := if r2 >= r1 then q2 - q1 else q2 - q1 - 1;
    var d := DeltaTime(Reading(t + elapsed), Reading(t));
    assert elapsed == TWO32 * q + d;
    ModUnique(elapsed, q, d);
  }

  lemma ModUnique(x: int, q: int, r: int)
    requires x == TWO32 * q + r && 0 <= r < TWO32
    ensures x % TWO32 == r
  {}
}
