/** The date arithmetic of ngx_parse_time.c and ngx_times.c. */
module Times {
  import opened Words
  import opened Calendar

  const DAY := 86400

  function Low64(x: int): Word { x % W64 }

  /** The days since January 1, 1970 by Gauss' formula, as `ngx_parse_http_time` computes
      them from a year, a month from 0 to 11 and a day. */
  function GaussDays(year0: nat, month0: nat, day: nat): int
    requires month0 <= 11
  {
    var month := if month0 - 1 <= 0 then month0 - 1 + 12 else month0 - 1;
    var year := if month0 - 1 <= 0 then Low64(year0 - 1) else year0;
    365 * year + year / 4 - year / 100 + year / 400
    + 367 * month / 12 - 30
    + day - 1
    - 719527 + 31 + 28
  }

  /** The time_t that is computed in unsigned 64-bit arithmetic. */
  function UnixTime(days: int, hour: nat, min: nat, sec: nat): int {
    Signed(Low64(Low64(days) * DAY + hour * 3600 + min * 60 + sec))
  }

  const EPOCH := Date(1970, 1, 1)

  lemma {:induction false} EpochNumber()
    ensures EPOCH.Valid() && DayNumber(EPOCH) == 719162
  {
    YearsClosed(1970);
  }

  /** The closed formula counts the days of the calendar from 1970 on, or back from it. */
  lemma {:induction false} GaussCounts(d: Date)
    requires d.Valid() && d.year < W64
    ensures EPOCH.Valid() && GaussDays(d.year, d.month - 1, d.day) == DayNumber(d) - DayNumber(EPOCH)
  {
    EpochNumber();
    GaussAny(d.year, d.month, d.day);
  }

  /** ... for any year and day, but for January and February of year 0. */
  lemma {:induction false} GaussAny(year: nat, month: nat, day: nat)
    requires 1 <= month <= 12 && year < W64 && (year >= 1 || month > 2)
    ensures GaussDays(year, month - 1, day) == DayCount(year, month, day) - 719162
  {
    MonthStarts(year);
    if month <= 2 {
      GaussEarly(year, month, day);
    } else if year >= 1 {
      YearsClosed(year);
      LeapDaysStep(year - 1);
    }
  }

  lemma {:induction false} GaussEarly(year: nat, month: nat, day: nat)
    requires 1 <= year < W64 && 1 <= month <= 2
    ensures GaussDays(year, month - 1, day) == DayCount(year, month, day) - 719162
  {
    YearsClosed(year);
    assert DaysBeforeMonth(year, 1) == 0 && DaysBeforeMonth(year, 2) == 31;
    assert Low64(year - 1) == year - 1;
  }

  /** The next day is 86400 seconds later, across months, leap days and centuries. */
  lemma {:induction false} NextDayLater(d: Date)
    requires d.Valid() && d.year + 1 < W64
    ensures var e := Tomorrow(d);
      GaussDays(e.year, e.month - 1, e.day) * DAY
      == GaussDays(d.year, d.month - 1, d.day) * DAY + DAY
  {
    GaussCounts(d);
    GaussCounts(Tomorrow(d));
    TomorrowCounts(d);
  }

  /** Unsigned arithmetic gives the signed time that is right but for multiples of 2^64. */
  lemma {:induction false} UnixTimeModulo(days: int, hour: nat, min: nat, sec: nat, t: int, k: int)
    requires days * DAY + hour * 3600 + min * 60 + sec == t + k * W64 && -HALF64 <= t < HALF64
    ensures UnixTime(days, hour, min, sec) == t
  {
    var q := days / W64;
    assert Low64(days) == days - q * W64;
    assert Low64(days) * DAY + hour * 3600 + min * 60 + sec == t - (q * DAY - k) * W64;
    LowMultiple(t, q * DAY - k);
  }

  /** So it gives the right time, also before 1970. */
  lemma {:induction false} UnixTimeExact(days: int, hour: nat, min: nat, sec: nat)
    requires -HALF64 <= days * DAY + hour * 3600 + min * 60 + sec < HALF64
    ensures UnixTime(days, hour, min, sec) == days * DAY + hour * 3600 + min * 60 + sec
  {
    UnixTimeModulo(days, hour, min, sec, days * DAY + hour * 3600 + min * 60 + sec, 0);
  }

  /** In January and February of year 0 the year before wraps around, and the time is too
      late by two hours, 52 minutes and 48 seconds. */
  const YEAR_ZERO_ERROR := 10368

  lemma {:induction false} GaussYearZero(month: nat, day: nat, hour: nat, min: nat, sec: nat)
    requires 1 <= month <= 2 && day < 100 && hour < 24 && min < 60 && sec < 60
    ensures UnixTime(GaussDays(0, month - 1, day), hour, min, sec)
      == (DayCount(0, month, day) - 719162) * DAY + hour * 3600 + min * 60 + sec + YEAR_ZERO_ERROR
  {
    assert DaysBeforeMonth(0, 1) == 0 && DaysBeforeMonth(0, 2) == 31 && YearDays(0) == 366;
    var e := 365 * W64 + W64 / 4 - 184467440737095517 + 46116860184273880;
    assert GaussDays(0, month - 1, day) == DayCount(0, month, day) - 719162 + e;
    var k := (e * DAY - YEAR_ZERO_ERROR) / W64;
    assert e * DAY == k * W64 + YEAR_ZERO_ERROR;
    var rest := hour * 3600 + min * 60 + sec;
    UnixTimeModulo(GaussDays(0, month - 1, day), hour, min, sec,
                   (DayCount(0, month, day) - 719162) * DAY + rest + YEAR_ZERO_ERROR, k);
  }

  lemma {:induction false} LowMultiple(t: int, k: int)
    ensures Low64(t - k * W64) == Low64(t)
  {
    var q := t / W64;
    assert t - k * W64 == (q - k) * W64 + t % W64;
  }

  // ---- ngx_gmtime ----

  datatype Tm = Tm(sec: nat, min: nat, hour: nat, mday: nat, mon: nat, year: int, wday: nat)

  /** Days from March 1, 1 BC to March 1 of `year`. */
  function MarchDays(year: nat): int { 365 * year + LeapDays(year) }

  /** The year by division is right or one too large. */
  lemma {:induction false} YearFound(days: nat)
    requires days >= 719468
    ensures var e := (days + 2) * 400 / 146097; e >= 1 && MarchDays(e - 1) <= days < MarchDays(e + 1)
  {
  }

  /** The lengths of the months from March to February of a leap year. */
  const MARCH_MONTHS: seq<nat> := [31, 30, 31, 30, 31, 31, 30, 31, 30, 31, 31, 29]

  function MonthOf(yday: nat): nat { (yday + 31) * 10 / 306 }

  function DayOf(yday: nat): int { yday - (367 * MonthOf(yday) / 12 - 30) + 1 }

  /** The month and the day in it, counted from March 1. */
  lemma {:induction false} MonthFound(yday: nat)
    requires yday <= 365
    ensures 1 <= MonthOf(yday) <= 12 && 1 <= DayOf(yday) <= MARCH_MONTHS[MonthOf(yday) - 1]
    ensures yday >= 306 <==> MonthOf(yday) >= 11
    ensures MonthOf(yday) == 12 && DayOf(yday) == 29 ==> yday == 365
  {
  }

  /** Day `yday` from March 1 of `year` on. */
  function MarchDate(year: nat, yday: nat): Date
    requires yday <= 365
  {
    MonthFound(yday);
    if yday >= 306 then Date(year + 1, MonthOf(yday) - 10, DayOf(yday)) else Date(year, MonthOf(yday) + 2, DayOf(yday))
  }

  lemma {:induction false} MarchDateValid(year: nat, yday: nat)
    requires year >= 1 && yday < 365 + (if Leap(year + 1) then 1 else 0)
    ensures MarchDate(year, yday).Valid()
  {
    MonthFound(yday);
  }

  /** March 1 of year 0 is 306 days before January 1 of year 1. */
  lemma {:induction false} MarchDateNumber(year: nat, yday: nat)
    requires year >= 1 && yday <= 365 && MarchDate(year, yday).Valid()
    ensures DayNumber(MarchDate(year, yday)) == MarchDays(year) + yday - 306
  {
    MonthFound(yday);
    var d := MarchDate(year, yday);
    YearsClosed(d.year);
    LeapDaysStep(year - 1);
    MonthStarts(d.year);
  }

  /** The year from March on, and the day in it, for a day after March 1, 1 BC. */
  function MarchYear(days: nat): (r: (nat, nat))
    requires days >= 719468
    ensures r.0 >= 1 && MarchDays(r.0) + r.1 == days && r.1 < 365 + (if Leap(r.0 + 1) then 1 else 0)
  {
    YearFound(days);
    var year := (days + 2) * 400 / (365 * 400 + 100 - 4 + 1);
    var yday := days - MarchDays(year);
    LeapDaysStep(year - 1);
    LeapDaysStep(year);
    if yday < 0 then (year - 1, 365 + (if Leap(year) then 1 else 0) + yday) else (year, yday)
  }

  /** The date of a time. */
  function DateOf(t: nat): Date {
    var (year, yday) := MarchYear(t / DAY - (31 + 28) + 719527);
    MarchDate(year, yday)
  }

  /** The year is kept in an int. */
  function Int32(n: nat): int {
    var low := n % 0x1_0000_0000;
    if low < 0x8000_0000 then low else low - 0x1_0000_0000
  }

  /** `ngx_gmtime`, for the times it is meant for. */
  function GmTime(t: nat): Tm {
    var n, d := t % DAY, DateOf(t);
    Tm(n % 3600 % 60, n % 3600 / 60, n / 3600, d.day, d.month, Int32(d.year), (4 + t / DAY) % 7)
  }

  lemma {:induction false} TimeOfDay(n: nat)
    requires n < DAY
    ensures n / 3600 < 24 && n % 3600 / 60 < 60 && n % 3600 % 60 < 60
    ensures n / 3600 * 3600 + n % 3600 / 60 * 60 + n % 3600 % 60 == n
  {
  }

  /** The date that `ngx_gmtime` gives is the day of that number in the calendar, but for the
      year from 2^31 on, and the rest of the time is the time of day. */
  lemma {:induction false} GmTimeExact(t: nat)
    ensures var tm, d := GmTime(t), DateOf(t);
      && d.Valid() && EPOCH.Valid() && DayNumber(d) == DayNumber(EPOCH) + t / DAY
      && tm.mon == d.month && tm.mday == d.day && (tm.year == d.year <==> d.year < 0x8000_0000)
      && tm.hour < 24 && tm.min < 60 && tm.sec < 60 && tm.hour * 3600 + tm.min * 60 + tm.sec == t % DAY
      && tm.wday == (DayNumber(d) + 1) % 7
  {
    DateOfExact(t);
    Int32Exact(DateOf(t).year);
    EpochNumber();
    TimeOfDay(t % DAY);
    Weekday(t / DAY);
  }

  lemma {:induction false} Int32Exact(n: nat)
    ensures Int32(n) == n <==> n < 0x8000_0000
  {
  }

  lemma {:induction false} DateOfExact(t: nat)
    ensures DateOf(t).Valid() && DayNumber(DateOf(t)) == 719162 + t / DAY
  {
    var (year, yday) := MarchYear(t / DAY - (31 + 28) + 719527);
    MarchDateValid(year, yday);
    MarchDateNumber(year, yday);
  }

  /** January 1 of year 1 was a Monday, January 1, 1970 a Thursday. */
  lemma {:induction false} Weekday(days: nat)
    ensures (4 + days) % 7 == (719162 + days + 1) % 7
  {
    assert 719162 + days + 1 == (4 + days) + 7 * 102737;
  }

  /** ... so the formula of the parser inverts it ... */
  lemma {:induction false} GaussInvertsGmTime(t: nat)
    requires t < HALF64
    ensures var tm, d := GmTime(t), DateOf(t);
      && d.Valid() && d.month == tm.mon && d.day == tm.mday && (d.year < 0x8000_0000 ==> tm.year == d.year)
      && GaussDays(d.year, d.month - 1, d.day) * DAY + tm.hour * 3600 + tm.min * 60 + tm.sec == t
  {
    GmTimeExact(t);
    DateOfExact(t);
    assert DateOf(t).year < W64 by { YearBound(t); }
    assert GaussDays(DateOf(t).year, DateOf(t).month - 1, DateOf(t).day) == t / DAY by {
      GaussAny(DateOf(t).year, DateOf(t).month, DateOf(t).day);
    }
  }

  lemma {:induction false} YearBound(t: nat)
    ensures DateOf(t).year <= t / DAY + 719469
  {
    var (year, yday) := MarchYear(t / DAY - (31 + 28) + 719527);
  }

  lemma {:induction false} DayAndRest(days: int, rest: nat)
    requires rest < DAY
    ensures (days * DAY + rest) / DAY == days && (days * DAY + rest) % DAY == rest
  {
  }

  lemma {:induction false} SinceEpoch(d: Date)
    requires d.Valid() && 1970 <= d.year < W64
    ensures GaussDays(d.year, d.month - 1, d.day) == DayNumber(d) - 719162 >= 0
  {
    GaussCounts(d);
    EpochNumber();
    YearsMono(1970, d.year);
    DayInYear(d);
  }

  lemma {:induction false} DaySplit(days: int, hour: nat, min: nat, sec: nat)
    requires hour < 24 && min < 60 && sec < 60
    ensures var t := days * DAY + hour * 3600 + min * 60 + sec;
      t / DAY == days && t % DAY == hour * 3600 + min * 60 + sec
  {
    DayAndRest(days, hour * 3600 + min * 60 + sec);
  }

  lemma {:induction false} ClockUnique(hour: nat, min: nat, sec: nat, hour': nat, min': nat, sec': nat)
    requires min < 60 && sec < 60 && min' < 60 && sec' < 60
    requires hour * 3600 + min * 60 + sec == hour' * 3600 + min' * 60 + sec'
    ensures hour == hour' && min == min' && sec == sec'
  {
  }

  lemma {:induction false} TimeFound(d: Date, days: nat, t: nat, hour: nat, min: nat, sec: nat)
    requires d.Valid() && days == DayNumber(d) - 719162 && t / DAY == days && t % DAY == hour * 3600 + min * 60 + sec
    requires hour < 24 && min < 60 && sec < 60
    ensures var tm := GmTime(t);
      && DateOf(t) == d && tm.mon == d.month && tm.mday == d.day && (d.year < 0x8000_0000 ==> tm.year == d.year)
      && tm.hour == hour && tm.min == min && tm.sec == sec
  {
    DateFound(d, days, t);
    GmTimeExact(t);
    ClockUnique(GmTime(t).hour, GmTime(t).min, GmTime(t).sec, hour, min, sec);
  }

  lemma {:induction false} DateFound(d: Date, days: nat, t: nat)
    requires d.Valid() && days == DayNumber(d) - 719162 && t / DAY == days
    ensures DateOf(t) == d
  {
    DateOfExact(t);
    DayNumberInjective(d, DateOf(t));
  }

  /** ... and is inverted by it, from 1970 on. */
  lemma {:induction false} GmTimeInvertsGauss(d: Date, hour: nat, min: nat, sec: nat)
    requires d.Valid() && 1970 <= d.year < W64 && hour < 24 && min < 60 && sec < 60
    ensures var t := GaussDays(d.year, d.month - 1, d.day) * DAY + hour * 3600 + min * 60 + sec;
      && t >= 0
      && var tm := GmTime(t);
      && DateOf(t) == d && tm.mon == d.month && tm.mday == d.day && (d.year < 0x8000_0000 ==> tm.year == d.year)
      && tm.hour == hour && tm.min == min && tm.sec == sec
  {
    SinceEpoch(d);
    var days := GaussDays(d.year, d.month - 1, d.day);
    var t := days * DAY + hour * 3600 + min * 60 + sec;
    DaySplit(days, hour, min, sec);
    TimeFound(d, days, t, hour, min, sec);
  }
}
