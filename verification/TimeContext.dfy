/** The process-wide UTC clock of utils_time.c: a stamp, the system clock reading at which it was
    set, and a time zone. */
module TimeContext {
  import opened Common
  import opened SysClock
  import TimeConvert

  datatype ClockError = NotSync | Overflow | Convert(error: TimeConvert.TimeError)

  datatype Zone = Zone(hour: Byte, min: Byte, isEast: bool, isInit: bool)

  const MS_PER_HOUR: int := 3600000
  const MS_PER_MIN: int := 60000
  const DEFAULT_ZONE: Zone := Zone(8, 0, true, true)

  /** The zone recorded for an hour and minute offset: the sign comes from the hour alone. */
  function ZoneOf(hour: I8, min: I8): Zone {
    Zone(Max(hour, 0 - hour), ToU8(min), hour > 0, true)
  }

  /** The local time stamp; towards the west the subtraction wraps, towards the east an overflow fails. */
  function LocalTime(utc: U64, zone: Zone): Result<U64, ClockError> {
    var delta := zone.hour * MS_PER_HOUR + zone.min * MS_PER_MIN;
    if !zone.isEast then Ok(ToU64(utc - delta))
    else if delta > 0xFFFF_FFFF_FFFF_FFFF - utc then Err(Overflow)
    else Ok(utc + delta)
  }

  /** The stamp advanced by the time the system clock shows since it was set. */
  function Advanced(stamp: U64, setAt: U32, now: U32): Result<U64, ClockError> {
    var delta := DeltaTime(now, setAt);
    if delta > 0xFFFF_FFFF_FFFF_FFFF - stamp then Err(Overflow) else Ok(stamp + delta)
  }

  /** A stamp set at time t and read after some elapsed time comes back advanced by that time, less the
      whole turns of the system clock: exactly by that time if and only if there were none and the sum fits
      64 bits. */
  lemma AdvancedExact(stamp: U64, t: nat, elapsed: nat)
    ensures Advanced(stamp, Reading(t), Reading(t + elapsed))
         == if stamp + elapsed % TWO32 < TWO64 then Ok(stamp + elapsed % TWO32) else Err(Overflow)
    ensures Advanced(stamp, Reading(t), Reading(t + elapsed)) == Ok(stamp + elapsed)
       <==> elapsed < TWO32 && stamp + elapsed < TWO64
  {
    DeltaTimeIsElapsed(t, elapsed);
  }

  function Fields(stamp: U64, setAt: U32, now: U32): Result<TimeConvert.TimeInfo, ClockError> {
    var at := Advanced(stamp, setAt, now);
    if at.Err? then Err(at.error)
    else
      var info := TimeConvert.ConvertTime(at.value);
      if info.Err? then Err(Convert(info.error)) else Ok(info.value)
  }

  /** The fields name the second. */
  predicate Names(r: Result<TimeConvert.TimeInfo, ClockError>, second: nat) {
    r.Ok? && r.value.Valid() && r.value.EpochSecond() == second
  }

  /** The calendar fields are valid, and they name the second that has been reached if and only if the
      system clock has not gone a full turn and the minutes fit 32 bits; there are none for the time zero
      and for a sum that does not fit 64 bits. */
  lemma FieldsFollowClock(stamp: U64, t: nat, elapsed: nat)
    ensures var r := Fields(stamp, Reading(t), Reading(t + elapsed));
      && (r.Ok? <==> 0 < stamp + elapsed % TWO32 < TWO64)
      && (r.Ok? ==> r.value.Valid())
      && (Names(r, (stamp + elapsed) / 1000) <==>
            0 < stamp + elapsed && elapsed < TWO32 && (stamp + elapsed) / 60000 < TWO32)
  {
    AdvancedExact(stamp, t, elapsed);
    var at := Advanced(stamp, Reading(t), Reading(t + elapsed));
    if at.Ok? && at.value > 0 {
      TimeConvert.ConvertTimeCorrect(at.value);
      TimeConvert.ConvertTimeExact(at.value);
      TurnsShow(stamp, elapsed);
    }
  }

  /** A whole turn of the system clock is missing from the seconds. */
  lemma TurnsShow(stamp: nat, elapsed: nat)
    ensures elapsed >= TWO32 ==> (stamp + elapsed % TWO32) / 1000 < (stamp + elapsed) / 1000
    ensures elapsed < TWO32 ==> elapsed % TWO32 == elapsed
  {
    var short := stamp + elapsed % TWO32;
    if elapsed >= TWO32 {
      assert elapsed == TWO32 * (elapsed / TWO32) + elapsed % TWO32;
      assert short + 1000 <= stamp + elapsed;
    }
  }

  predicate SignsFit(hour: I8, min: I8) {
    if hour > 0 then min >= 0 else min == 0 || min == -128
  }

  /** The local time is the UTC time plus the signed offset (when that sum fits) if and only if the minutes
      are non-negative towards the east and zero (or the one value that its own cast negates) otherwise. A sum
      that is too large fails towards the east; one below zero wraps around towards the west. */
  lemma LocalTimeExact(utc: U64, hour: I8, min: I8)
    ensures var sum := utc + hour * 3600000 + min * 60000;
      && (0 <= sum < TWO64 ==> (LocalTime(utc, ZoneOf(hour, min)) == Ok(sum) <==> SignsFit(hour, min)))
      && (hour > 0 && min >= 0 && sum >= TWO64 ==> LocalTime(utc, ZoneOf(hour, min)) == Err(Overflow))
      && (hour <= 0 && min == 0 && sum < 0 ==> LocalTime(utc, ZoneOf(hour, min)) == Ok(sum + TWO64))
  {}

  /** Until a zone is set it is that of eight hours to the east. */
  lemma DefaultIsEight(utc: U64)
    ensures LocalTime(utc, DEFAULT_ZONE) == if utc + 28800000 < TWO64 then Ok(utc + 28800000) else Err(Overflow)
    ensures DEFAULT_ZONE == ZoneOf(8, 0)
  {}

  predicate Offsets(utc: U64, zone: Zone, offset: int) {
    LocalTime(utc, zone) == Ok(utc + offset)
  }

  /** The clock as it stands in memory. Times are those of an unbounded system clock: the reading of the
      real one is handed in with the time at which it is taken. */
  class TimeContext {
    var isTimeSet: bool
    var lastUtcTime: U64
    var lastLocalTime: U64
    var lastSystemTime: U32
    var zone: Zone
    ghost var setAt: nat

    ghost predicate Valid()
      reads this
    {
      lastSystemTime == Reading(setAt)
    }

    constructor ()
      ensures Valid() && !isTimeSet && !zone.isInit && lastUtcTime == lastLocalTime == setAt == 0
    {
      isTimeSet, lastUtcTime, lastLocalTime, lastSystemTime := false, 0, 0, 0;
      zone := Zone(0, 0, false, false);
      setAt := 0;
    }

    /** A failed call has already replaced the UTC stamp; only the local stamp stays behind. */
    method SetUtcTimeStamp(stamp: U64, now: U32, ghost t: nat) returns (r: Result<(), ClockError>)
      requires now == Reading(t)
      modifies this
      ensures Valid() && setAt == t && lastUtcTime == stamp
      ensures zone == if old(zone).isInit then old(zone) else DEFAULT_ZONE
      ensures r.Ok? <==> LocalTime(stamp, zone).Ok?
      ensures r.Ok? ==> isTimeSet && lastLocalTime == LocalTime(stamp, zone).value
      ensures r.Err? ==> r.error == Overflow && isTimeSet == old(isTimeSet) && lastLocalTime == old(lastLocalTime)
    {
      if !zone.isInit {
        zone := DEFAULT_ZONE;
      }
      lastUtcTime := stamp;
      lastSystemTime := now;
      setAt := t;
      var local := LocalTime(stamp, zone);
      if local.Err? {
        return Err(local.error);
      }
      lastLocalTime := local.value;
      isTimeSet := true;
      return Ok(());
    }

    /** The stamps stay as they are: the zone counts from the next time that is set, and it then moves every
        UTC time by its offset if and only if hours and minutes have the signs that the casts assume. */
    method SetTimezone(hour: I8, min: I8)
      modifies this`zone
      ensures zone == ZoneOf(hour, min)
      ensures var offset := hour * 3600000 + min * 60000;
        forall utc: U64 :: 0 <= utc + offset < TWO64 ==> (Offsets(utc, zone, offset) <==> SignsFit(hour, min))
    {
      zone := ZoneOf(hour, min);
      var offset := hour * 3600000 + min * 60000;
      forall utc: U64 | 0 <= utc + offset < TWO64 ensures Offsets(utc, zone, offset) <==> SignsFit(hour, min) {
        LocalTimeExact(utc, hour, min);
      }
    }

    /** Set, wait, read: the stamp has advanced by the time that has gone by, if and only if a time was set,
        the system clock has not gone a full turn since and the sum fits 64 bits. */
    method GetUtcTimeStamp(now: U32, ghost t: nat) returns (r: Result<U64, ClockError>)
      requires Valid() && setAt <= t && now == Reading(t)
      ensures r == Err(NotSync) <==> !isTimeSet
      ensures r == Err(Overflow) <==> isTimeSet && lastUtcTime + (t - setAt) % TWO32 >= TWO64
      ensures r.Ok? ==> r.value == lastUtcTime + (t - setAt) % TWO32
      ensures r == Ok(lastUtcTime + (t - setAt))
         <==> isTimeSet && t - setAt < TWO32 && lastUtcTime + (t - setAt) < TWO64
    {
      if !isTimeSet {
        return Err(NotSync);
      }
      AdvancedExact(lastUtcTime, setAt, t - setAt);
      r := Advanced(lastUtcTime, lastSystemTime, now);
    }

    /** Set, wait, read: the fields are valid and name the second that has been reached, if and only if a
        time was set, the system clock has not gone a full turn since and the minutes fit 32 bits. */
    method GetTimeInfo(local: bool, now: U32, ghost t: nat) returns (r: Result<TimeConvert.TimeInfo, ClockError>)
      requires Valid() && setAt <= t && now == Reading(t)
      ensures r == Err(NotSync) <==> !isTimeSet
      ensures r.Ok? ==> r.value.Valid()
      ensures var stamp, elapsed := if local then lastLocalTime else lastUtcTime, t - setAt;
        && (r.Ok? <==> isTimeSet && 0 < stamp + elapsed % TWO32 < TWO64)
        && (Names(r, (stamp + elapsed) / 1000) <==>
              isTimeSet && 0 < stamp + elapsed && elapsed < TWO32 && (stamp + elapsed) / 60000 < TWO32)
    {
      if !isTimeSet {
        return Err(NotSync);
      }
      var stamp := if local then lastLocalTime else lastUtcTime;
      FieldsFollowClock(stamp, setAt, t - setAt);
      var at := Advanced(stamp, lastSystemTime, now);
      if at.Err? {
        return Err(at.error);
      }
      var info := TimeConvert.ConvertTime(at.value);
      if info.Err? {
        return Err(Convert(info.error));
      }
      r := Ok(info.value);
    }
  }
}
