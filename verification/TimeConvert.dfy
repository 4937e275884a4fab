/** Conversion of a millisecond time stamp into calendar fields and a weekday bit, by the
    closed-form integer formulas of utils_time.c, with every unsigned truncation written out. */
module TimeConvert {
  import opened Common
  import opened Calendar

  datatype TimeError = ParamInvalid | GetDateFailed | GetWeekdayFailed

  datatype TimeInfo = TimeInfo(year: U16, month: Byte, day: Byte, week: Byte, hour: Byte, min: Byte, sec: Byte)
  {
    function DateOf(): Date { Date(year, month, day) }

    predicate Valid() {
      ValidDate(DateOf()) && hour < 24 && min < 60 && sec < 60
    }

    /** Seconds from 1970-01-01 00:00:00, by the leap-year definition of the calendar. */
    function EpochSecond(): int
      requires Valid()
    {
      EpochDay(DateOf()) * 86400 + hour * 3600 + min * 60 + sec
    }
  }

  const UINT_MAX: int := 0xFFFF_FFFF

  /** The day number shifted so that years are Julian ones beginning on 1 March. */
  function ShiftedDay(days: U64): U32 {
    var a := ToU32(ToU64(4 * days + 102032) / 146097 + 15);
    ToU32(days + 2442113 + a - a / 4)
  }

  function DateFields(c: U32, e: U32, f: U32): Date {
    if e <= 13 then Date(ToU16(c - 4716), ToU8(e - 1), ToU8(f))
    else Date(ToU16(c - 4715), ToU8(e - 13), ToU8(f))
  }

  function GetDate(days: U64): (r: Result<Date, TimeError>) {
    var b := ShiftedDay(days);
    if b > UINT_MAX / 20 then Err(GetDateFailed)
    else
      var c := ToU32(20 * b - 2442) / 7305;
      var d := ToU32(b - 365 * c - c / 4);
      if d > UINT_MAX / 1000 then Err(GetDateFailed)
      else
        var e := ToU32(d * 1000) / 30601;
        var f := ToU32(d - e * 30 - ToU32(e * 601) / 1000);
        Ok(DateFields(c, e, f))
  }

  /** The Kim Larsson sum, with January and February as months 13 and 14 of the year before. */
  function WeekSum(y: int, m: int, day: int): int {
    day + 2 * m + 3 * (m + 1) / 5 + y + y / 4 - y / 100 + y / 400
  }

  function GetWeekDay(year: U16, month: Byte, day: Byte): (r: Result<Byte, TimeError>) {
    var early := month == 1 || month == 2;
    var m := if early then month + 12 else month;
    var y := if early then ToU16(year - 1) else year;
    if m > 14 then Err(GetWeekdayFailed)
    else Ok(WeekSum(y, m, day) % 7)
  }

  function Pow2(k: nat): nat {
    if k == 0 then 1 else 2 * Pow2(k - 1)
  }

  /** The fields of the result: the weekday becomes one bit of a byte. */
  function FillInfo(date: Date, weekDay: Byte, secs: U64, mins: U32): TimeInfo {
    TimeInfo(ToU16(date.year), ToU8(date.month), ToU8(date.day), ToU8(Pow2(weekDay)),
             ToU8(mins / 60 % 24), ToU8(mins % 60), ToU8(secs % 60))
  }

  /** The conversion once the date formulas have answered. */
  function FromDate(r: Result<Date, TimeError>, secs: U64, mins: U32): Result<TimeInfo, TimeError> {
    match r
    case Err(_) => Err(GetDateFailed)
    case Ok(date) =>
      match GetWeekDay(ToU16(date.year), ToU8(date.month), ToU8(date.day))
      case Err(_) => Err(GetWeekdayFailed)
      case Ok(weekDay) => Ok(FillInfo(date, weekDay, secs, mins))
  }

  function ConvertTime(timeMs: U64): (r: Result<TimeInfo, TimeError>) {
    if timeMs == 0 then Err(ParamInvalid)
    else
      var secs := timeMs / 1000;
      var mins := ToU32(secs / 60);
      FromDate(GetDate(mins / 60 / 24), secs, mins)
  }

  // ----- the date formulas invert the day count -----

  /** The century of the March-based year comes out of the first formula. */
  lemma CenturyStep(date: Date)
    requires ValidDate(date)
    ensures (4 * EpochDay(date) + 102032) / 146097 == MarchYear(date) / 100 - 19
  {
    EpochDayClosed(date);
    var y := MarchYear(date);
    var cent, j := y / 100, y % 100;
    CenturyBounds(y, cent, j, MarchDay(date));
  }

  lemma CenturyBounds(y: int, cent: int, j: int, doy: int)
    requires y == 100 * cent + j && 0 <= j < 100 && 0 <= doy <= 365
    requires doy == 365 ==> IsLeap(y + 1)
    ensures 146097 * cent <= 4 * (365 * y + LeapsThrough(y) + doy) + 3 < 146097 * (cent + 1)
  {
    var s := j / 4;
    assert y / 4 == 25 * cent + s by { DivIs4(y, 25 * cent + s); }
    assert y / 100 == cent;
    var q := cent / 4;
    assert y / 400 == q by { DivIs400(y, q); }
    if doy == 365 && j == 99 {
      assert y + 1 == 100 * (cent + 1);
      Multiple100(y + 1, cent + 1);
      var k := (y + 1) / 400;
      assert y + 1 == 400 * k;
      assert cent + 1 == 4 * k;
      assert cent % 4 == 3;
    }
  }

  lemma DivIs4(y: int, q: int)
    requires 4 * q <= y < 4 * q + 4
    ensures y / 4 == q
  {}

  lemma DivIs400(y: int, q: int)
    requires 400 * q <= y < 400 * q + 400
    ensures y / 400 == q
  {}

  /** Adding back the century leap days turns the day number into a Julian-style one,
      whose year is found by the third formula. */
  lemma YearStep(date: Date, a: int, b: int)
    requires ValidDate(date)
    requires a == MarchYear(date) / 100 - 4
    requires b == EpochDay(date) + 2442113 + a - a / 4
    ensures var c := MarchYear(date) + 4716;
      && (20 * b - 2442) / 7305 == c
      && b - 365 * c - c / 4 == MarchDay(date) + 123
  {
    EpochDayClosed(date);
    var y := MarchYear(date);
    var c := y + 4716;
    var cent := y / 100;
    var q := y / 400;
    assert a / 4 == q - 1 by { DivIs4(a, q - 1); }
    var s := y / 4;
    assert c / 4 == s + 1179 by { DivIs4(c, s + 1179); }
    assert b == 365 * c + c / 4 + MarchDay(date) + 123;
    if MarchDay(date) == 365 {
      Divisors(y + 1);
      var k := (y + 1) / 4;
      assert y + 1 == 4 * k;
      assert y == 4 * (k - 1) + 3;
      assert s == k - 1 by { DivIs4(y, k - 1); }
    }
    var t := c - 4 * (c / 4);
    assert 20 * b - 2442 == 7305 * c - 5 * t + 20 * MarchDay(date) + 18;
    assert 0 <= 20 * MarchDay(date) + 18 - 5 * t < 7305;
    DivIs7305(20 * b - 2442, c);
  }

  lemma DivIs7305(x: int, q: int)
    requires 7305 * q <= x < 7305 * q + 7305
    ensures x / 7305 == q
  {}

  /** The month and day come out of the last two formulas. */
  lemma MonthStep(date: Date)
    requires ValidDate(date)
    ensures var d := MarchDay(date) + 123;
            var e := MarchMonth(date) + 1;
      && d * 1000 / 30601 == e
      && d - e * 30 - e * 601 / 1000 == date.day
  {
    var m, k := MarchMonth(date), date.day;
    assert 3 <= m <= 14 && 1 <= k <= 31;
    assert m in {4, 6, 9, 11} ==> k <= 30;
    assert m == 14 ==> k <= 29;
  }

  const DAY_LIMIT: int := TWO32 / 1440 + 1

  lemma Fits(x: int)
    ensures 0 <= x < TWO32 ==> ToU32(x) == x
    ensures 0 <= x < TWO64 ==> ToU64(x) == x
  {}

  lemma ShiftedDayEval(n: U64, a: int)
    requires n < DAY_LIMIT && a == (4 * n + 102032) / 146097 + 15
    ensures ShiftedDay(n) == n + 2442113 + a - a / 4 < 6000000
  {
    assert 15 <= a < 100;
    Fits(4 * n + 102032);
    Fits(a);
    Fits(n + 2442113 + a - a / 4);
  }

  /** When no step of GetDate wraps, its result is read off the exact quotients. */
  lemma GetDateEval(n: U64, b: int, c: int, d: int, e: int, f: int)
    requires b == ShiftedDay(n) && 1000 <= b < 6000000
    requires 4716 <= c < 20000 && 4 <= e <= 15 && 1 <= f <= 31
    requires c == (20 * b - 2442) / 7305
    requires d == b - 365 * c - c / 4 && 0 <= d < 1000
    requires e == d * 1000 / 30601
    requires f == d - e * 30 - e * 601 / 1000
    ensures GetDate(n) == Ok(DateFields(c, e, f))
  {
    Fits(20 * b - 2442);
    Fits(d);
    Fits(d * 1000);
    Fits(e * 601);
    Fits(f);
  }

  /** Every valid date within the range of ConvertTime is recovered from its day number. */
  lemma GetDateInverts(date: Date)
    requires ValidDate(date) && EpochDay(date) < DAY_LIMIT
    ensures 0 <= EpochDay(date) && GetDate(EpochDay(date)) == Ok(date)
    ensures date.year < 15000
  {
    var n := EpochDay(date);
    DayRange(date);
    CenturyStep(date);
    var a := MarchYear(date) / 100 - 4;
    var b := n + 2442113 + a - a / 4;
    YearStep(date, a, b);
    MonthStep(date);
    ShiftedDayEval(n, a);
    GetDateEval(n, b, MarchYear(date) + 4716, MarchDay(date) + 123, MarchMonth(date) + 1, date.day);
    DateFieldsOf(date);
  }

  lemma DateFieldsOf(date: Date)
    requires ValidDate(date) && date.year < 15000
    ensures DateFields(MarchYear(date) + 4716, MarchMonth(date) + 1, date.day) == date
  {}

  lemma DayRange(date: Date)
    requires ValidDate(date) && EpochDay(date) < DAY_LIMIT
    ensures 0 <= EpochDay(date) && 1969 <= MarchYear(date) <= date.year < 15000
    ensures 0 <= MarchDay(date) <= 365
  {
    EpochDayClosed(date);
    EpochDayMonotone(Date(1970, 1, 1), date);
    assert LeapsThrough(MarchYear(date)) >= 0;
  }

  /** GetDate gives a valid date, and exactly the date of its argument. */
  lemma GetDateCorrect(days: U64)
    requires days < DAY_LIMIT
    ensures GetDate(days).Ok?
    ensures ValidDate(GetDate(days).value) && EpochDay(GetDate(days).value) == days
    ensures GetDate(days).value.year < 15000
  {
    var date := DateOfDay(days);
    GetDateInverts(date);
  }

  lemma Wrap32(x: int)
    requires -TWO32 <= x < TWO32
    ensures ToU32(x) == if x < 0 then x + TWO32 else x
  {}

  /** What GetDate calls c and d, for a shifted day that is small enough. */
  function YearCount(b: U32): U32 {
    ToU32(20 * b - 2442) / 7305
  }

  function DayOfYear(b: U32): U32 {
    ToU32(b - 365 * YearCount(b) - YearCount(b) / 4)
  }

  lemma EarlyDay(b: U32)
    requires b < 123
    ensures DayOfYear(b) > UINT_MAX / 1000
  {
    var c := YearCount(b);
    Wrap32(20 * b - 2442);
    assert 587000 <= c <= 588000;
    Wrap32(b - 365 * c - c / 4);
  }

  lemma UsualDay(b: U32)
    requires 123 <= b <= 214748364
    ensures DayOfYear(b) <= UINT_MAX / 1000
  {
    var c := YearCount(b);
    Wrap32(20 * b - 2442);
    assert 7305 * c <= 20 * b - 2442 < 7305 * (c + 1);
    assert 0 <= b - 365 * c - c / 4 <= 1000;
    Wrap32(b - 365 * c - c / 4);
  }

  /** For every argument, also one so large that the casts wrap around: GetDate fails if and only if the shifted
      day is outside 123 to 214748364. */
  lemma GetDateFails(days: U64)
    ensures GetDate(days).Ok? <==> 123 <= ShiftedDay(days) <= 214748364
  {
    GuardsOf(days, ShiftedDay(days));
    if ShiftedDay(days) < 123 { EarlyDay(ShiftedDay(days)); }
    else if ShiftedDay(days) <= 214748364 { UsualDay(ShiftedDay(days)); }
  }

  lemma GuardsOf(days: U64, b: U32)
    requires b == ShiftedDay(days)
    ensures GetDate(days).Ok? <==> b <= 214748364 && DayOfYear(b) <= UINT_MAX / 1000
  {}

  /** The weekday is refused exactly for months above 14. */
  lemma GetWeekDayFails(year: U16, month: Byte, day: Byte)
    ensures GetWeekDay(year, month, day) == Err(GetWeekdayFailed) <==> month > 14
  {}

  /** The weekday formula agrees with counting days: Monday is 0 and 1970-01-01 a Thursday. */
  lemma WeekDayCorrect(date: Date)
    requires ValidDate(date) && date.year < TWO16
    ensures GetWeekDay(date.year, date.month, date.day) == Ok((EpochDay(date) + 3) % 7)
  {
    var sum := WeekSum(MarchYear(date), MarchMonth(date), date.day);
    assert GetWeekDay(date.year, date.month, date.day) == Ok(sum % 7) by {
      assert ToU16(date.year - 1) == date.year - 1;
    }
    WeekSumCounts(date);
  }

  lemma WeekSumCounts(date: Date)
    requires ValidDate(date)
    ensures WeekSum(MarchYear(date), MarchMonth(date), date.day) % 7 == (EpochDay(date) + 3) % 7
  {
    EpochDayClosed(date);
    WeekAlign(MarchYear(date), MarchMonth(date), date.day, EpochDay(date));
  }

  lemma WeekAlign(y: int, m: int, day: int, n: int)
    requires 3 <= m <= 14
    requires n == 365 * y + LeapsThrough(y) + MarchOffset(m) + day - 1 - 719468
    ensures WeekSum(y, m, day) % 7 == (n + 3) % 7
  {
    WeekMonth(m);
    var w := (2 * m + 3 * (m + 1) / 5 - MarchOffset(m) - 1) / 7;
    ModShift7(n + 3, WeekSum(y, m, day), 52 * y - 102781 - w);
  }

  lemma WeekMonth(m: int)
    requires 3 <= m <= 14
    ensures (2 * m + 3 * (m + 1) / 5 - MarchOffset(m) - 1) % 7 == 0
  {}

  lemma ModShift7(x: int, z: int, k: int)
    requires x == z + 7 * k
    ensures x % 7 == z % 7
  {}

  // ----- the whole conversion -----

  /** For every time stamp the fields are a valid calendar time, the weekday is one bit, that of plain
      day counting from Thursday 1970-01-01 (Monday bit 0), and the fields re-encode to the seconds of
      the time stamp reduced by the 32-bit truncation of the minute count. */
  lemma ConvertTimeCorrect(timeMs: U64)
    requires timeMs > 0
    ensures var r := ConvertTime(timeMs);
      && r.Ok? && r.value.Valid()
      && r.value.EpochSecond() == timeMs / 1000 % (60 * TWO32)
      && r.value.week == [1, 2, 4, 8, 16, 32, 64][(EpochDay(r.value.DateOf()) + 3) % 7]
  {
    var secs := timeMs / 1000;
    var mins := ToU32(secs / 60);
    var date := ConvertTimeFields(timeMs);
    SecondsSplit(secs, mins, mins / 60, mins / 60 / 24);
  }

  /** The time stamp zero is refused. */
  lemma ZeroRefused()
    ensures ConvertTime(0) == Err(ParamInvalid)
  {}

  /** The fields are those of the date that the day count names. */
  lemma ConvertTimeFields(timeMs: U64) returns (date: Date)
    requires timeMs > 0
    ensures var secs := timeMs / 1000;
            var mins := ToU32(secs / 60);
      && ValidDate(date) && date.year < 15000 && EpochDay(date) == mins / 60 / 24
      && ConvertTime(timeMs)
         == Ok(TimeInfo(date.year, date.month, date.day, [1, 2, 4, 8, 16, 32, 64][(EpochDay(date) + 3) % 7],
                        mins / 60 % 24, mins % 60, secs % 60))
  {
    var secs := timeMs / 1000;
    var mins := ToU32(secs / 60);
    var days := mins / 60 / 24;
    GetDateCorrect(days);
    date := GetDate(days).value;
    FromDateExact(date, secs, mins);
  }

  /** No field is truncated. */
  lemma FromDateExact(date: Date, secs: U64, mins: U32)
    requires ValidDate(date) && date.year < 15000
    ensures FromDate(Ok(date), secs, mins)
         == Ok(TimeInfo(date.year, date.month, date.day, [1, 2, 4, 8, 16, 32, 64][(EpochDay(date) + 3) % 7],
                        mins / 60 % 24, mins % 60, secs % 60))
  {
    var w := (EpochDay(date) + 3) % 7;
    WeekDayCorrect(date);
    WeekBits(w);
    FillInfoExact(date, w, secs, mins);
  }

  lemma FillInfoExact(date: Date, weekDay: Byte, secs: U64, mins: U32)
    requires ValidDate(date) && date.year < 15000 && Pow2(weekDay) < 0x100
    ensures ToU16(date.year) == date.year && ToU8(date.month) == date.month && ToU8(date.day) == date.day
    ensures FillInfo(date, weekDay, secs, mins)
         == TimeInfo(date.year, date.month, date.day, Pow2(weekDay), mins / 60 % 24, mins % 60, secs % 60)
  {}

  lemma WeekBits(k: int)
    requires 0 <= k < 7
    ensures Pow2(k) == [1, 2, 4, 8, 16, 32, 64][k]
  {
    assert Pow2(1) == 2 && Pow2(2) == 4 && Pow2(3) == 8;
    assert Pow2(4) == 16 && Pow2(5) == 32 && Pow2(6) == 64;
  }

  lemma SecondsSplit(secs: int, mins: int, hours: int, days: int)
    requires 0 <= secs && mins == secs / 60 % TWO32 && hours == mins / 60 && days == hours / 24
    ensures days * 86400 + hours % 24 * 3600 + mins % 60 * 60 + secs % 60 == secs % (60 * TWO32)
  {
    MinutesWrap(secs / 60, secs % 60);
  }

  lemma MinutesWrap(minutes: int, sec: int)
    requires 0 <= minutes && 0 <= sec < 60
    ensures (minutes * 60 + sec) % (60 * TWO32) == minutes % TWO32 * 60 + sec
  {
    var q, r := minutes / TWO32, minutes % TWO32 * 60 + sec;
    assert minutes * 60 + sec == 60 * TWO32 * q + r;
  }

  /** The time stamp is re-encoded exactly if and only if its minute count fits 32 bits. */
  lemma ConvertTimeExact(timeMs: U64)
    requires timeMs > 0
    ensures var r := ConvertTime(timeMs);
      r.Ok? && r.value.Valid() &&
      (r.value.EpochSecond() == timeMs / 1000 <==> timeMs / 60000 < TWO32)
  {
    ConvertTimeCorrect(timeMs);
    MinuteCount(timeMs);
  }

  lemma MinuteCount(timeMs: int)
    requires 0 <= timeMs
    ensures var secs := timeMs / 1000;
      secs % (60 * TWO32) == secs <==> timeMs / 60000 < TWO32
  {
    var mins := timeMs / 60000;
    var secs := timeMs / 1000;
    assert 60 * mins <= secs < 60 * mins + 60;
  }

  predicate NotAfter(a: TimeInfo, b: TimeInfo) {
    || DateBefore(a.DateOf(), b.DateOf())
    || (a.DateOf() == b.DateOf() &&
        (|| a.hour < b.hour
         || (a.hour == b.hour && a.min < b.min)
         || (a.hour == b.hour && a.min == b.min && a.sec <= b.sec)))
  }

  /** Later time stamps give lexicographically no earlier fields. */
  lemma ConvertTimeMonotone(t1: U64, t2: U64)
    requires 0 < t1 <= t2 && t2 / 60000 < TWO32
    ensures ConvertTime(t1).Ok? && ConvertTime(t2).Ok?
    ensures NotAfter(ConvertTime(t1).value, ConvertTime(t2).value)
  {
    ConvertTimeExact(t1);
    ConvertTimeExact(t2);
    var a, b := ConvertTime(t1).value, ConvertTime(t2).value;
    EpochDayMonotone(a.DateOf(), b.DateOf());
  }
}
