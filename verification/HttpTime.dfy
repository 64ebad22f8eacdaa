/** Dates as text: `ngx_http_time` of ngx_times.c and `ngx_parse_http_time`. */
module HttpTime {
  import opened Words
  import opened Calendar
  import opened Times

  datatype Option<T> = None | Some(value: T)

  // ---- Writing ----

  const WEEK: seq<string> := ["Sun", "Mon", "Tue", "Wed", "Thu", "Fri", "Sat"]
  const MONTHS: seq<string> := ["Jan", "Feb", "Mar", "Apr", "May", "Jun", "Jul", "Aug", "Sep", "Oct", "Nov", "Dec"]

  function DigitChar(d: nat): char
    requires d < 10
  {
    '0' + d as char
  }

  /** %d */
  function Decimal(n: nat): (s: string)
    ensures s != []
  {
    if n < 10 then [DigitChar(n)] else Decimal(n / 10) + [DigitChar(n % 10)]
  }

  /** %02d of a number below 100 */
  function TwoDigits(n: nat): string
    requires n < 100
  {
    [DigitChar(n / 10), DigitChar(n % 10)]
  }

  /** %4d; the sign is not part of the width. */
  function FourWide(n: int): string {
    if n < 0 then "-" + Padded(-n) else Padded(n)
  }

  function Padded(n: nat): string {
    var s := Decimal(n);
    if |s| == 1 then "   " + s else if |s| == 2 then "  " + s else if |s| == 3 then " " + s else s
  }

  function Clock(hour: nat, min: nat, sec: nat): string
    requires hour < 100 && min < 100 && sec < 100
  {
    TwoDigits(hour) + [':'] + TwoDigits(min) + [':'] + TwoDigits(sec)
  }

  function HttpText(tm: Tm): string
    requires tm.wday < 7 && 1 <= tm.mon <= 12 && tm.mday < 100 && tm.hour < 100 && tm.min < 100 && tm.sec < 100
  {
    WEEK[tm.wday] + ", " + TwoDigits(tm.mday) + " " + MONTHS[tm.mon - 1] + " " + FourWide(tm.year) + " "
    + Clock(tm.hour, tm.min, tm.sec) + " GMT"
  }

  // ---- Reading: what is accepted ----

  predicate Digit(c: char) { '0' <= c <= '9' }

  function Value(c: char): nat
    requires Digit(c)
  {
    c as int - '0' as int
  }

  predicate Digits(v: string, p: nat, n: nat)
    requires p + n <= |v|
  {
    forall i :: p <= i < p + n ==> Digit(v[i])
  }

  function Two(v: string, p: nat): nat
    requires p + 2 <= |v| && Digits(v, p, 2)
  {
    Value(v[p]) * 10 + Value(v[p + 1])
  }

  function Four(v: string, p: nat): nat
    requires p + 4 <= |v| && Digits(v, p, 4)
  {
    Value(v[p]) * 1000 + Value(v[p + 1]) * 100 + Value(v[p + 2]) * 10 + Value(v[p + 3])
  }

  /** The month from 0 to 11 that three letters stand for; most are told from one letter. */
  function Month(v: string, p: nat): Option<nat>
    requires p + 3 <= |v|
  {
    match v[p]
    case 'J' => Some(if v[p + 1] == 'a' then 0 else if v[p + 2] == 'n' then 5 else 6)
    case 'F' => Some(1)
    case 'M' => Some(if v[p + 2] == 'r' then 2 else 4)
    case 'A' => Some(if v[p + 1] == 'p' then 3 else 7)
    case 'S' => Some(8)
    case 'O' => Some(9)
    case 'N' => Some(10)
    case 'D' => Some(11)
    case _ => None
  }

  /** hh:mm:ss at `p`. */
  predicate ClockAt(v: string, p: nat)
    requires p + 8 <= |v|
  {
    && Digit(v[p]) && Digit(v[p + 1]) && v[p + 2] == ':' && Digit(v[p + 3]) && Digit(v[p + 4])
    && v[p + 5] == ':' && Digit(v[p + 6]) && Digit(v[p + 7])
  }

  /** The fields of a date, not checked yet. */
  datatype Fields = Fields(year: nat, month: nat, day: nat, hour: nat, min: nat, sec: nat)

  function WithClock(v: string, p: nat, year: nat, month: nat, day: nat): Fields
    requires p + 8 <= |v| && ClockAt(v, p)
  {
    Fields(year, month, day, Value(v[p]) * 10 + Value(v[p + 1]), Value(v[p + 3]) * 10 + Value(v[p + 4]),
      Value(v[p + 6]) * 10 + Value(v[p + 7]))
  }

  /** "10 Nov 2002 23:50:13" at `p`. */
  function Rfc822(v: string, p: nat): Option<Fields> {
    if p + 20 <= |v| && Digits(v, p, 2) && v[p + 2] == ' ' && Month(v, p + 3).Some? && v[p + 6] == ' '
       && Digits(v, p + 7, 4) && v[p + 11] == ' ' && ClockAt(v, p + 12)
    then Some(WithClock(v, p + 12, Four(v, p + 7), Month(v, p + 3).value, Two(v, p)))
    else None
  }

  /** "10-Dec-02 23:50:13" at `p`. */
  function Rfc850(v: string, p: nat): Option<Fields> {
    if p + 18 <= |v| && Digits(v, p, 2) && v[p + 2] == '-' && Month(v, p + 3).Some? && v[p + 6] == '-'
       && Digits(v, p + 7, 2) && v[p + 9] == ' ' && ClockAt(v, p + 10)
    then
      var year := Two(v, p + 7);
      Some(WithClock(v, p + 10, year + if year < 70 then 2000 else 1900, Month(v, p + 3).value, Two(v, p)))
    else None
  }

  /** Where the day of the month starts in the third format, and its length. */
  function IsoDay(v: string, p: nat): nat
    requires p + 5 <= |v|
  {
    if v[p + 4] == ' ' then p + 5 else p + 4
  }

  /** " 23:50:13 2002" at `q`. */
  function IsoRest(v: string, q: nat, month: nat, day: nat): Option<Fields> {
    if q + 14 <= |v| && v[q] == ' ' && ClockAt(v, q + 1) && v[q + 9] == ' ' && Digits(v, q + 10, 4)
    then Some(WithClock(v, q + 1, Four(v, q + 10), month, day))
    else None
  }

  /** "Dec 10 23:50:13 2002" at `p`. */
  function Isoc(v: string, p: nat): Option<Fields> {
    if p + 18 <= |v| && Month(v, p).Some? && Digit(v[IsoDay(v, p)])
    then
      var q, month := IsoDay(v, p), Month(v, p).value;
      if v[q + 1] == ' ' then IsoRest(v, q + 1, month, Value(v[q]))
      else if Digit(v[q + 1]) then IsoRest(v, q + 2, month, Value(v[q]) * 10 + Value(v[q + 1]))
      else None
    else None
  }

  /** The first comma or space at or after `p`. */
  function Mark(v: string, p: nat): (q: nat)
    requires p <= |v|
    ensures p <= q <= |v|
    decreases |v| - p
  {
    if p < |v| && v[p] != ',' && v[p] != ' ' then Mark(v, p + 1) else p
  }

  function NotSpace(v: string, p: nat): (q: nat)
    requires p <= |v| + 1
    ensures p <= q <= |v| + 1
    decreases |v| + 1 - p
  {
    if p < |v| && v[p] == ' ' then NotSpace(v, p + 1) else p
  }

  /** The fields of a date in one of the three formats. */
  function Recognize(v: string): Option<Fields> {
    var m := Mark(v, 0);
    var p := NotSpace(v, m + 1);
    if m < |v| && v[m] == ' ' then Isoc(v, p)
    else if p + 2 < |v| && v[p + 2] == ' ' then Rfc822(v, p)
    else Rfc850(v, p)
  }

  const MDAY: seq<nat> := [31, 28, 31, 30, 31, 30, 31, 31, 30, 31, 30, 31]

  /** The checks on the fields, and the time. */
  function TimeOf(f: Fields): Option<int>
    requires f.month <= 11
  {
    if f.hour > 23 || f.min > 59 || f.sec > 59 then None
    else if f.day == 29 && f.month == 1 then
      if f.year % 4 != 0 || (f.year % 100 == 0 && f.year % 400 != 0) then None
      else Some(UnixTime(GaussDays(f.year, f.month, f.day), f.hour, f.min, f.sec))
    else if f.day > MDAY[f.month] then None
    else Some(UnixTime(GaussDays(f.year, f.month, f.day), f.hour, f.min, f.sec))
  }

  lemma {:induction false} RecognizedMonth(v: string)
    requires Recognize(v).Some?
    ensures Recognize(v).value.month <= 11
  {
  }

  function ParseHttpTime(v: string): Option<int> {
    var f := Recognize(v);
    if f.None? then None else (RecognizedMonth(v); TimeOf(f.value))
  }

  // ---- Reading: the cursor that does it ----

  datatype Format = No | FmtRfc822 | FmtRfc850 | FmtIsoc

  /** The two loops that skip the day of the week. */
  method SkipWeekday(value: string) returns (p: nat, fmt: Format)
    ensures p == NotSpace(value, Mark(value, 0) + 1)
    ensures fmt == if Mark(value, 0) < |value| && value[Mark(value, 0)] == ' ' then FmtIsoc else No
  {
    var end := |value|;
    fmt := No;
    p := 0;
    while p < end
      invariant p <= end && fmt == No && Mark(value, 0) == Mark(value, p)
    {
      if value[p] == ',' { break; }
      if value[p] == ' ' {
        fmt := FmtIsoc;
        break;
      }
      p := p + 1;
    }
    p := p + 1;
    while p < end
      invariant p <= end + 1 && NotSpace(value, Mark(value, 0) + 1) == NotSpace(value, p)
    {
      if value[p] != ' ' { break; }
      p := p + 1;
    }
  }

  /** "hh:mm:ss", after the space before it. */
  method ReadClock(value: string, p0: nat) returns (ok: bool, p: nat, hour: nat, min: nat, sec: nat)
    requires p0 + 9 <= |value|
    ensures ok <==> value[p0] == ' ' && ClockAt(value, p0 + 1)
    ensures ok ==> p == p0 + 9 && WithClock(value, p0 + 1, 0, 0, 0) == Fields(0, 0, 0, hour, min, sec)
  {
    ok, p, hour, min, sec := false, p0, 0, 0, 0;
    if value[p] != ' ' { return; }
    p := p + 1;
    if !Digit(value[p]) || !Digit(value[p + 1]) { return; }
    hour := Value(value[p]) * 10 + Value(value[p + 1]);
    p := p + 2;
    if value[p] != ':' { return; }
    p := p + 1;
    if !Digit(value[p]) || !Digit(value[p + 1]) { return; }
    min := Value(value[p]) * 10 + Value(value[p + 1]);
    p := p + 2;
    if value[p] != ':' { return; }
    p := p + 1;
    if !Digit(value[p]) || !Digit(value[p + 1]) { return; }
    sec := Value(value[p]) * 10 + Value(value[p + 1]);
    p := p + 2;
    ok := true;
  }

  /** A year of four digits, or of two. */
  method ReadYear(value: string, p: nat, fmt: Format) returns (known: bool, year: nat, q: nat)
    requires p + 4 <= |value|
    ensures known <==> Digits(value, p, if fmt == FmtRfc822 then 4 else 2)
    ensures known && fmt == FmtRfc822 ==> year == Four(value, p) && q == p + 4
    ensures known && fmt != FmtRfc822 ==>
      year == Two(value, p) + (if Two(value, p) < 70 then 2000 else 1900) && q == p + 2
  {
    if fmt == FmtRfc822 {
      if !Digit(value[p]) || !Digit(value[p + 1]) || !Digit(value[p + 2]) || !Digit(value[p + 3]) {
        return false, 0, p;
      }
      year := Value(value[p]) * 1000 + Value(value[p + 1]) * 100 + Value(value[p + 2]) * 10 + Value(value[p + 3]);
      return true, year, p + 4;
    }
    if !Digit(value[p]) || !Digit(value[p + 1]) { return false, 0, p; }
    year := Value(value[p]) * 10 + Value(value[p + 1]);
    return true, year + if year < 70 then 2000 else 1900, p + 2;
  }

  /** The two formats that start with the day. */
  method ReadDayFirst(value: string, p0: nat) returns (f: Option<Fields>)
    requires p0 + 18 <= |value|
    ensures f == if value[p0 + 2] == ' ' then Rfc822(value, p0) else Rfc850(value, p0)
  {
    var p, end := p0, |value|;
    var fmt;
    if !Digit(value[p]) || !Digit(value[p + 1]) { return None; }
    var day := Value(value[p]) * 10 + Value(value[p + 1]);
    p := p + 2;
    if value[p] == ' ' {
      if end - p < 18 { return None; }
      fmt := FmtRfc822;
    } else if value[p] == '-' {
      fmt := FmtRfc850;
    } else {
      return None;
    }
    p := p + 1;
    var month := Month(value, p);
    if month.None? { return None; }
    p := p + 3;
    if (fmt == FmtRfc822 && value[p] != ' ') || (fmt == FmtRfc850 && value[p] != '-') { return None; }
    p := p + 1;
    var known, year;
    known, year, p := ReadYear(value, p, fmt);
    if !known { return None; }
    var ok, q, hour, min, sec := ReadClock(value, p);
    f := if ok then Some(Fields(year, month.value, day, hour, min, sec)) else None;
  }

  /** The format that starts with the month. */
  method ReadMonthFirst(value: string, p0: nat) returns (f: Option<Fields>)
    requires p0 + 18 <= |value|
    ensures f == Isoc(value, p0)
  {
    var p := p0;
    var month := Month(value, p);
    if month.None? { return None; }
    p := p + 4;
    if value[p] == ' ' { p := p + 1; }
    if !Digit(value[p]) { return None; }
    var day := Value(value[p]);
    p := p + 1;
    if value[p] != ' ' {
      if !Digit(value[p]) { return None; }
      day := day * 10 + Value(value[p]);
      p := p + 1;
    }
    f := ReadIsoRest(value, p, month.value, day);
  }

  /** The time of day and the year, where they come last. */
  method ReadIsoRest(value: string, p: nat, month: nat, day: nat) returns (f: Option<Fields>)
    requires p <= |value|
    ensures f == IsoRest(value, p, month, day)
  {
    if |value| - p < 14 { return None; }
    var ok, q, hour, min, sec := ReadClock(value, p);
    if !ok || value[q] != ' ' { return None; }
    q := q + 1;
    if !Digit(value[q]) || !Digit(value[q + 1]) || !Digit(value[q + 2]) || !Digit(value[q + 3]) { return None; }
    var year := Value(value[q]) * 1000 + Value(value[q + 1]) * 100 + Value(value[q + 2]) * 10 + Value(value[q + 3]);
    f := Some(Fields(year, month, day, hour, min, sec));
  }

  /** `ngx_parse_http_time`: every access is inside the string. */
  method Parse(value: string) returns (r: Option<int>)
    ensures r == ParseHttpTime(value)
  {
    var p, fmt := SkipWeekday(value);
    if |value| - p < 18 { return None; }
    var f;
    if fmt != FmtIsoc {
      f := ReadDayFirst(value, p);
    } else {
      f := ReadMonthFirst(value, p);
    }
    if f.None? { return None; }
    RecognizedMonth(value);
    r := TimeOf(f.value);
  }

  // ---- What the time is ----

  /** Fields are accepted exactly if they are a time of day and a day not after the end of
      the month; the day 0 is let through. */
  lemma {:induction false} AcceptedFields(f: Fields)
    requires f.month <= 11
    ensures TimeOf(f).Some? <==> f.hour < 24 && f.min < 60 && f.sec < 60 && f.day <= MonthDays(f.year, f.month + 1)
  {
  }

  /** The time of fields whose day is `days` days after the epoch. */
  lemma {:induction false} AcceptedAs(f: Fields, days: int, t: int)
    requires f.month <= 11 && TimeOf(f).Some? && GaussDays(f.year, f.month, f.day) == days
    requires t == days * DAY + f.hour * 3600 + f.min * 60 + f.sec && -HALF64 <= t < HALF64
    ensures TimeOf(f) == Some(t)
  {
    UnixTimeExact(days, f.hour, f.min, f.sec);
  }

  /** A date of the years that can be written is within the range of time_t. */
  lemma {:induction false} YearRange(year: nat, month: nat, day: nat)
    requires year <= 9999 && 1 <= month <= 12 && day <= 31
    ensures -720000 <= DayCount(year, month, day) - 719162 <= 3_000_000
  {
    MonthStarts(year);
    if year >= 1 { YearsClosed(year); }
  }

  /** The time by the calendar. */
  function CalendarTime(f: Fields): int
    requires f.month <= 11
  {
    (DayCount(f.year, f.month + 1, f.day) - DayNumber(EPOCH)) * DAY + f.hour * 3600 + f.min * 60 + f.sec
  }

  /** ... and the time is the one of the calendar, where day 0 is the last of the month
      before, exactly if it is not in January or February of year 0. */
  lemma {:induction false} AcceptedTime(f: Fields)
    requires f.month <= 11 && TimeOf(f).Some? && f.year <= 9999
    ensures TimeOf(f).value == CalendarTime(f) + if f.year == 0 && f.month <= 1 then YEAR_ZERO_ERROR else 0
  {
    AcceptedFields(f);
    EpochNumber();
    YearRange(f.year, f.month + 1, f.day);
    if f.year == 0 && f.month <= 1 {
      GaussYearZero(f.month + 1, f.day, f.hour, f.min, f.sec);
    } else {
      GaussAny(f.year, f.month + 1, f.day);
      AcceptedAs(f, DayCount(f.year, f.month + 1, f.day) - 719162, CalendarTime(f));
    }
  }

  lemma {:induction false} RecognizedYear(v: string)
    requires Recognize(v).Some?
    ensures Recognize(v).value.year <= 9999
  {
  }

  /** What is read from a text: nothing, if no format fits it or the fields are no date and
      time of day, and otherwise the time of its fields. */
  lemma {:induction false} ParsedTime(v: string)
    ensures ParseHttpTime(v).Some? ==> Recognize(v).Some?
    ensures ParseHttpTime(v).Some? ==>
      var f := Recognize(v).value;
      && f.month <= 11 && f.hour < 24 && f.min < 60 && f.sec < 60 && f.day <= MonthDays(f.year, f.month + 1)
      && ParseHttpTime(v).value == CalendarTime(f) + if f.year == 0 && f.month <= 1 then YEAR_ZERO_ERROR else 0
  {
    if ParseHttpTime(v).Some? {
      RecognizedMonth(v);
      RecognizedYear(v);
      AcceptedFields(Recognize(v).value);
      AcceptedTime(Recognize(v).value);
    }
  }

  // ---- Writing and reading back ----

  predicate Writable(tm: Tm) {
    tm.wday < 7 && 1 <= tm.mon <= 12 && tm.mday < 32 && tm.hour < 24 && tm.min < 60 && tm.sec < 60
  }

  lemma {:induction false} DigitBack(d: nat)
    requires d < 10
    ensures Digit(DigitChar(d)) && Value(DigitChar(d)) == d
  {
  }

  lemma {:induction false} DecimalDigits(n: nat, i: nat)
    requires i < |Decimal(n)|
    ensures Digit(Decimal(n)[i])
  {
    DigitBack(n % 10);
    if n >= 10 && i < |Decimal(n / 10)| { DecimalDigits(n / 10, i); }
  }

  lemma {:induction false} DecimalLength(n: nat)
    requires n >= 10000
    ensures |Decimal(n)| >= 5
  {
    assert |Decimal(n)| == 1 + |Decimal(n / 10)| == 2 + |Decimal(n / 10 / 10)|;
    assert |Decimal(n / 10 / 10)| == 1 + |Decimal(n / 10 / 10 / 10)|;
  }

  /** The four digits of a year. */
  lemma {:induction false} DecimalFour(n: nat)
    requires 1000 <= n <= 9999
    ensures Decimal(n) == [DigitChar(n / 1000), DigitChar(n / 100 % 10), DigitChar(n / 10 % 10), DigitChar(n % 10)]
  {
    var a, b, c := n / 10, n / 100, n / 1000;
    assert a / 10 == b && b / 10 == c;
    assert Decimal(c) == [DigitChar(c)];
    assert Decimal(b) == [DigitChar(c), DigitChar(b % 10)];
    assert Decimal(a) == [DigitChar(c), DigitChar(b % 10), DigitChar(a % 10)];
  }

  function Tail(tm: Tm): string
    requires Writable(tm)
  {
    [' ', DigitChar(tm.hour / 10), DigitChar(tm.hour % 10), ':', DigitChar(tm.min / 10), DigitChar(tm.min % 10), ':',
     DigitChar(tm.sec / 10), DigitChar(tm.sec % 10), ' ', 'G', 'M', 'T']
  }

  function Head(tm: Tm): string
    requires Writable(tm)
  {
    var w, m := WEEK[tm.wday], MONTHS[tm.mon - 1];
    [w[0], w[1], w[2], ',', ' ', DigitChar(tm.mday / 10), DigitChar(tm.mday % 10), ' ', m[0], m[1], m[2], ' ']
  }

  lemma {:induction false} TextParts(tm: Tm)
    requires Writable(tm)
    ensures HttpText(tm) == Head(tm) + FourWide(tm.year) + Tail(tm)
  {
    var w, m := WEEK[tm.wday], MONTHS[tm.mon - 1];
    assert w + ", " + TwoDigits(tm.mday) + " " + m + " " == Head(tm);
    assert " " + Clock(tm.hour, tm.min, tm.sec) + " GMT" == Tail(tm);
    JoinText(w + ", " + TwoDigits(tm.mday) + " " + m + " ", FourWide(tm.year), Clock(tm.hour, tm.min, tm.sec));
  }

  lemma {:induction false} JoinText(head: string, year: string, clock: string)
    ensures head + year + " " + clock + " GMT" == head + year + (" " + clock + " GMT")
  {
  }

  /** The month names are read back as they are written. */
  lemma {:induction false} MonthBack(v: string, p: nat, mon: nat)
    requires p + 3 <= |v| && 1 <= mon <= 12
    requires v[p] == MONTHS[mon - 1][0] && v[p + 1] == MONTHS[mon - 1][1] && v[p + 2] == MONTHS[mon - 1][2]
    ensures Month(v, p) == Some(mon - 1)
  {
  }

  /** Behind the day of the week the date starts at position 5. */
  lemma {:induction false} StartFound(v: string, tm: Tm)
    requires Writable(tm) && 12 <= |v| && v[..12] == Head(tm)
    ensures Mark(v, 0) == 3 && NotSpace(v, 4) == 5 && v[3] == ',' && v[7] == ' '
    ensures Digits(v, 5, 2) && Two(v, 5) == tm.mday && Month(v, 8) == Some(tm.mon - 1) && v[11] == ' '
  {
    forall i | 0 <= i < 12 ensures v[i] == Head(tm)[i] { assert v[..12][i] == v[i]; }
    assert Mark(v, 3) == 3;
    assert Mark(v, 2) == 3;
    assert Mark(v, 1) == 3;
    DigitBack(tm.mday / 10);
    DigitBack(tm.mday % 10);
    MonthBack(v, 8, tm.mon);
  }

  lemma {:induction false} ClockBack(v: string, p: nat, tm: Tm)
    requires Writable(tm) && p + 13 <= |v| && v[p..p + 13] == Tail(tm)
    ensures v[p] == ' ' && ClockAt(v, p + 1) && WithClock(v, p + 1, 0, 0, 0) == Fields(0, 0, 0, tm.hour, tm.min, tm.sec)
  {
    var u := v[p..p + 13];
    assert v[p] == u[0] && v[p + 1] == u[1] && v[p + 2] == u[2] && v[p + 3] == u[3] && v[p + 4] == u[4];
    assert v[p + 5] == u[5] && v[p + 6] == u[6] && v[p + 7] == u[7] && v[p + 8] == u[8];
    DigitBack(tm.hour / 10);
    DigitBack(tm.hour % 10);
    DigitBack(tm.min / 10);
    DigitBack(tm.min % 10);
    DigitBack(tm.sec / 10);
    DigitBack(tm.sec % 10);
  }

  lemma {:induction false} FourDigits(n: nat)
    requires n <= 9999
    ensures n / 1000 < 10 && n / 1000 * 1000 + n / 100 % 10 * 100 + n / 10 % 10 * 10 + n % 10 == n
  {
    var a, b, c := n / 10, n / 100, n / 1000;
    assert a / 10 == b && b / 10 == c;
    assert n == 10 * a + n % 10 && a == 10 * b + a % 10 && b == 10 * c + b % 10;
  }

  lemma {:induction false} FourRead(v: string, p: nat, a: nat, b: nat, c: nat, d: nat)
    requires p + 4 <= |v| && a < 10 && b < 10 && c < 10 && d < 10
    requires v[p] == DigitChar(a) && v[p + 1] == DigitChar(b) && v[p + 2] == DigitChar(c) && v[p + 3] == DigitChar(d)
    ensures Digits(v, p, 4) && Four(v, p) == a * 1000 + b * 100 + c * 10 + d
  {
    DigitBack(a);
    DigitBack(b);
    DigitBack(c);
    DigitBack(d);
  }

  lemma {:induction false} FourBack(v: string, p: nat, n: nat)
    requires 1000 <= n <= 9999 && p + 4 <= |v| && v[p..p + 4] == Decimal(n)
    ensures Digits(v, p, 4) && Four(v, p) == n
  {
    DecimalFour(n);
    FourDigits(n);
    var u := v[p..p + 4];
    assert v[p] == u[0] && v[p + 1] == u[1] && v[p + 2] == u[2] && v[p + 3] == u[3];
    FourRead(v, p, n / 1000, n / 100 % 10, n / 10 % 10, n % 10);
  }

  /** A date with a year of four digits is recognized as what was written. */
  lemma {:induction false} TextCut(tm: Tm)
    requires Writable(tm) && 1000 <= tm.year <= 9999
    ensures var v := HttpText(tm);
      |v| == 29 && v[..12] == Head(tm) && v[12..16] == Decimal(tm.year) && v[16..29] == Tail(tm)
  {
    TextParts(tm);
    DecimalFour(tm.year);
  }

  lemma {:induction false} Rfc822Back(v: string, tm: Tm)
    requires Writable(tm) && 1000 <= tm.year <= 9999
    requires |v| == 29 && v[..12] == Head(tm) && v[12..16] == Decimal(tm.year) && v[16..29] == Tail(tm)
    ensures Rfc822(v, 5) == Some(Fields(tm.year, tm.mon - 1, tm.mday, tm.hour, tm.min, tm.sec))
  {
    StartFound(v, tm);
    FourBack(v, 12, tm.year);
    ClockBack(v, 16, tm);
  }

  lemma {:induction false} TextRecognized(tm: Tm)
    requires Writable(tm) && 1000 <= tm.year <= 9999
    ensures Recognize(HttpText(tm)) == Some(Fields(tm.year, tm.mon - 1, tm.mday, tm.hour, tm.min, tm.sec))
  {
    TextCut(tm);
    StartFound(HttpText(tm), tm);
    Rfc822Back(HttpText(tm), tm);
  }

  /** With a year that has not four digits it is not recognized. */
  lemma {:induction false} OtherYearRefused(tm: Tm)
    requires Writable(tm) && !(1000 <= tm.year <= 9999)
    ensures Recognize(HttpText(tm)) == None
  {
    var v := HttpText(tm);
    TextParts(tm);
    assert v[..12] == Head(tm);
    StartFound(v, tm);
    if tm.year >= 10000 {
      DecimalLength(tm.year);
      assert v[16] == Decimal(tm.year)[4];
      DecimalDigits(tm.year, 4);
    } else {
      NoDigit(tm.year);
      assert v[12] == FourWide(tm.year)[0];
    }
  }

  lemma {:induction false} NoDigit(n: int)
    requires n < 1000
    ensures !Digit(FourWide(n)[0])
  {
    if n >= 0 { ShortDecimal(n); }
  }

  lemma {:induction false} ShortDecimal(n: nat)
    requires n < 1000
    ensures |Decimal(n)| <= 3
  {
    if n >= 10 { assert |Decimal(n)| == |Decimal(n / 10)| + 1; }
    if n >= 100 { assert |Decimal(n / 10)| == |Decimal(n / 10 / 10)| + 1; }
  }

  lemma {:induction false} GmWritable(t: nat)
    ensures Writable(GmTime(t)) && DateOf(t).year >= 1970
  {
    GmTimeExact(t);
    var d := DateOf(t);
    EpochNumber();
    if d.year < 1970 {
      DayInYear(d);
      YearsMono(d.year + 1, 1970);
    }
  }

  function FieldsOf(tm: Tm): Fields
    requires tm.year >= 0 && tm.mon >= 1
  {
    Fields(tm.year, tm.mon - 1, tm.mday, tm.hour, tm.min, tm.sec)
  }

  lemma {:induction false} FieldsAccepted(t: nat)
    requires DateOf(t).year <= 9999
    ensures var tm := GmTime(t);
      tm.year >= 0 && 1 <= tm.mon <= 12 && TimeOf(FieldsOf(tm)).Some?
  {
    GmTimeExact(t);
    AcceptedFields(FieldsOf(GmTime(t)));
  }

  lemma {:induction false} FieldsRead(t: nat)
    requires t < HALF64 && DateOf(t).year <= 9999
    ensures var tm := GmTime(t);
      tm.year >= 0 && 1 <= tm.mon <= 12 && TimeOf(FieldsOf(tm)) == Some(t)
  {
    FieldsAccepted(t);
    GaussInvertsGmTime(t);
    var f := FieldsOf(GmTime(t));
    AcceptedAs(f, GaussDays(f.year, f.month, f.day), t);
  }

  /** A year that wrapped around to four digits is read as another time. */
  lemma {:induction false} WrappedDiffers(t: nat)
    requires DateOf(t).year > 9999 && Writable(GmTime(t)) && 1000 <= GmTime(t).year <= 9999
    ensures TimeOf(FieldsOf(GmTime(t))) != Some(t)
  {
    GmTimeExact(t);
    var f := FieldsOf(GmTime(t));
    if TimeOf(f) == Some(t) { SameYear(t, f); }
  }

  lemma {:induction false} SameYear(t: nat, f: Fields)
    requires f.month <= 11 && 1 <= f.year <= 9999 && f.day >= 1 && TimeOf(f) == Some(t)
    ensures DateOf(t).year == f.year
  {
    AcceptedFields(f);
    AcceptedTime(f);
    DateOfExact(t);
    EpochNumber();
    var e := Date(f.year, f.month + 1, f.day);
    DayAndRest(DayNumber(e) - 719162, f.hour * 3600 + f.min * 60 + f.sec);
    DayNumberInjective(DateOf(t), e);
  }

  lemma {:induction false} TextRead(tm: Tm)
    requires Writable(tm)
    ensures ParseHttpTime(HttpText(tm)) == if 1000 <= tm.year <= 9999 then TimeOf(FieldsOf(tm)) else None
  {
    if 1000 <= tm.year <= 9999 { TextRecognized(tm); } else { OtherYearRefused(tm); }
  }

  /** What `ngx_http_time` writes, `ngx_parse_http_time` reads back as the same time exactly
      up to the year 9999; after that the text is refused, or, where the year has wrapped
      around to four digits, taken for a time in that year. */
  lemma {:induction false} WrittenIsRead(t: nat)
    requires t < HALF64
    ensures Writable(GmTime(t))
    ensures ParseHttpTime(HttpText(GmTime(t))) == Some(t) <==> DateOf(t).year <= 9999
    ensures var tm := GmTime(t);
      ParseHttpTime(HttpText(tm)) == if 1000 <= tm.year <= 9999 then TimeOf(FieldsOf(tm)) else None
  {
    var tm := GmTime(t);
    GmWritable(t);
    TextRead(tm);
    assert DateOf(t).year <= 9999 ==> tm.year == DateOf(t).year by { GmTimeExact(t); }
    if 1000 <= tm.year <= 9999 {
      if DateOf(t).year <= 9999 { FieldsRead(t); } else { WrappedDiffers(t); }
    }
  }

  // ---- The other two formats (section 7.1.1.1 of RFC 7231) ----

  /** " hh:mm:ss" stands at `p`. */
  predicate ClockText(v: string, p: nat, tm: Tm)
    requires Writable(tm)
  {
    p + 9 <= |v| && v[p..p + 9] == Tail(tm)[..9]
  }

  lemma {:induction false} ClockRead(v: string, p: nat, tm: Tm)
    requires Writable(tm) && ClockText(v, p, tm)
    ensures v[p] == ' ' && ClockAt(v, p + 1) && WithClock(v, p + 1, 0, 0, 0) == Fields(0, 0, 0, tm.hour, tm.min, tm.sec)
  {
    var u, w := v[p..p + 9], Tail(tm);
    assert v[p] == u[0] && v[p + 1] == u[1] && v[p + 2] == u[2] && v[p + 3] == u[3] && v[p + 4] == u[4];
    assert v[p + 5] == u[5] && v[p + 6] == u[6] && v[p + 7] == u[7] && v[p + 8] == u[8];
    assert u[0] == w[0] && u[1] == w[1] && u[2] == w[2] && u[3] == w[3] && u[4] == w[4];
    assert u[5] == w[5] && u[6] == w[6] && u[7] == w[7] && u[8] == w[8];
    DigitBack(tm.hour / 10);
    DigitBack(tm.hour % 10);
    DigitBack(tm.min / 10);
    DigitBack(tm.min % 10);
    DigitBack(tm.sec / 10);
    DigitBack(tm.sec % 10);
  }

  /** The first comma or space is the one at `k`. */
  lemma {:induction false} MarkAt(v: string, p: nat, k: nat)
    requires p <= k < |v| && (v[k] == ',' || v[k] == ' ') && forall i :: p <= i < k ==> v[i] != ',' && v[i] != ' '
    ensures Mark(v, p) == k
    decreases k - p
  {
    if p < k { MarkAt(v, p + 1, k); }
  }

  /** "10-Dec-02" stands at `p`. */
  predicate ShortDateText(v: string, p: nat, tm: Tm, year: nat)
    requires Writable(tm) && year < 100
  {
    var m := MONTHS[tm.mon - 1];
    && p + 9 <= |v| && v[p] == DigitChar(tm.mday / 10) && v[p + 1] == DigitChar(tm.mday % 10) && v[p + 2] == '-'
    && v[p + 3] == m[0] && v[p + 4] == m[1] && v[p + 5] == m[2] && v[p + 6] == '-'
    && v[p + 7] == DigitChar(year / 10) && v[p + 8] == DigitChar(year % 10)
  }

  /** A date of the second format, "Tuesday, 10-Dec-02 23:50:13": the day of the week, a comma
      and a space, the date, and the time, whatever follows. */
  lemma {:induction false} Rfc850Read(v: string, tm: Tm, week: nat, year: nat)
    requires Writable(tm) && year < 100 && 1 <= week && week + 20 <= |v|
    requires (forall i :: 0 <= i < week ==> v[i] != ',' && v[i] != ' ') && v[week] == ',' && v[week + 1] == ' '
    requires ShortDateText(v, week + 2, tm, year) && ClockText(v, week + 11, tm)
    ensures Recognize(v)
         == Some(Fields(if year < 70 then 2000 + year else 1900 + year, tm.mon - 1, tm.mday, tm.hour, tm.min, tm.sec))
  {
    var p := week + 2;
    MarkAt(v, 0, week);
    ShortDateRead(v, p, tm, year);
    assert NotSpace(v, p) == p && NotSpace(v, week + 1) == p;
    ClockRead(v, p + 9, tm);
  }

  lemma {:induction false} ShortDateRead(v: string, p: nat, tm: Tm, year: nat)
    requires Writable(tm) && year < 100 && ShortDateText(v, p, tm, year)
    ensures Digits(v, p, 2) && Two(v, p) == tm.mday && v[p] != ' ' && v[p + 2] == '-' && v[p + 6] == '-'
    ensures Month(v, p + 3) == Some(tm.mon - 1) && Digits(v, p + 7, 2) && Two(v, p + 7) == year
  {
    DigitBack(tm.mday / 10);
    DigitBack(tm.mday % 10);
    DigitBack(year / 10);
    DigitBack(year % 10);
    MonthBack(v, p + 3, tm.mon);
  }

  /** A date of the third format, "Tue Dec 10 23:50:13 2002", with a space before a day of one
      digit. */
  predicate AscDateText(v: string, tm: Tm)
    requires Writable(tm)
  {
    var w, m := WEEK[tm.wday], MONTHS[tm.mon - 1];
    && |v| >= 24 && v[0] == w[0] && v[1] == w[1] && v[2] == w[2] && v[3] == ' '
    && v[4] == m[0] && v[5] == m[1] && v[6] == m[2] && v[7] == ' '
    && v[8] == (if tm.mday < 10 then ' ' else DigitChar(tm.mday / 10)) && v[9] == DigitChar(tm.mday % 10)
  }

  lemma {:induction false} AscRead(v: string, tm: Tm)
    requires Writable(tm) && 1000 <= tm.year <= 9999
    requires AscDateText(v, tm) && ClockText(v, 10, tm) && v[19] == ' ' && v[20..24] == Decimal(tm.year)
    ensures Recognize(v) == Some(FieldsOf(tm))
  {
    WeekLetters(tm.wday);
    MarkAt(v, 0, 3);
    MonthLetter(tm.mon);
    assert NotSpace(v, 4) == 4;
    AscRest(v, tm);
    AscDay(v, tm);
  }

  /** The day, of one digit or of two. */
  lemma {:induction false} AscDay(v: string, tm: Tm)
    requires Writable(tm) && AscDateText(v, tm) && v[10] == ' '
    ensures Isoc(v, 4) == IsoRest(v, 10, tm.mon - 1, tm.mday)
  {
    MonthBack(v, 4, tm.mon);
    DigitBack(tm.mday % 10);
    if tm.mday >= 10 { DigitBack(tm.mday / 10); }
    assert IsoDay(v, 4) == if tm.mday < 10 then 9 else 8;
  }

  lemma {:induction false} AscRest(v: string, tm: Tm)
    requires Writable(tm) && 1000 <= tm.year <= 9999 && |v| >= 24
    requires ClockText(v, 10, tm) && v[19] == ' ' && v[20..24] == Decimal(tm.year)
    ensures v[10] == ' ' && IsoRest(v, 10, tm.mon - 1, tm.mday) == Some(FieldsOf(tm))
  {
    ClockRead(v, 10, tm);
    FourBack(v, 20, tm.year);
  }

  lemma {:induction false} WeekLetters(d: nat)
    requires d < 7
    ensures forall i :: 0 <= i < 3 ==> WEEK[d][i] != ',' && WEEK[d][i] != ' '
  {
  }

  lemma {:induction false} MonthLetter(mon: nat)
    requires 1 <= mon <= 12
    ensures MONTHS[mon - 1][0] != ' '
  {
  }

  /** The example of section 7.1.1.1 of RFC 7231, a Sunday, and the six days after it. */
  lemma {:induction false} WeekExample(d: nat)
    requires d < 7
    ensures var tm := GmTime(784111777 + d * 86400);
      && Writable(tm)
      && HttpText(tm) == ["Sun, 06", "Mon, 07", "Tue, 08", "Wed, 09", "Thu, 10", "Fri, 11", "Sat, 12"][d]
                         + " Nov 1994 08:49:37 GMT"
  {
    ExampleTime(d);
    ExampleText(GmTime(784111777 + d * 86400), d);
  }

  lemma {:induction false} ExampleText(tm: Tm, d: nat)
    requires d < 7 && tm == Tm(37, 49, 8, 6 + d, 11, 1994, d)
    ensures Writable(tm)
    ensures HttpText(tm) == ["Sun, 06", "Mon, 07", "Tue, 08", "Wed, 09", "Thu, 10", "Fri, 11", "Sat, 12"][d]
                            + " Nov 1994 08:49:37 GMT"
  {
    TextParts(tm);
    DecimalFour(1994);
    assert FourWide(1994) == "1994" && Tail(tm) == " 08:49:37 GMT";
    ExampleHead(tm, d);
    JoinDay(["Sun, 06", "Mon, 07", "Tue, 08", "Wed, 09", "Thu, 10", "Fri, 11", "Sat, 12"][d]);
  }

  lemma {:induction false} JoinDay(day: string)
    ensures day + " Nov " + "1994" + " 08:49:37 GMT" == day + " Nov 1994 08:49:37 GMT"
  {
    assert " Nov " + "1994" + " 08:49:37 GMT" == " Nov 1994 08:49:37 GMT";
  }

  lemma {:induction false} ExampleHead(tm: Tm, d: nat)
    requires d < 7 && Writable(tm) && tm.wday == d && tm.mday == 6 + d && tm.mon == 11
    ensures Head(tm) == ["Sun, 06", "Mon, 07", "Tue, 08", "Wed, 09", "Thu, 10", "Fri, 11", "Sat, 12"][d] + " Nov "
  {
    if d == 0 {
      assert Head(tm) == "Sun, 06" + " Nov ";
    } else if d == 1 {
      assert Head(tm) == "Mon, 07" + " Nov ";
    } else if d == 2 {
      assert Head(tm) == "Tue, 08" + " Nov ";
    } else if d == 3 {
      assert Head(tm) == "Wed, 09" + " Nov ";
    } else if d == 4 {
      assert Head(tm) == "Thu, 10" + " Nov ";
    } else if d == 5 {
      assert Head(tm) == "Fri, 11" + " Nov ";
    } else {
      assert Head(tm) == "Sat, 12" + " Nov ";
    }
  }

  lemma {:induction false} ExampleTime(d: nat)
    requires d < 7
    ensures GmTime(784111777 + d * 86400) == Tm(37, 49, 8, 6 + d, 11, 1994, d)
  {
    var t := 784111777 + d * 86400;
    assert GaussDays(1994, 10, 6 + d) == 9075 + d;
    GmTimeInvertsGauss(Date(1994, 11, 6 + d), 8, 49, 37);
    assert t == (9075 + d) * DAY + 8 * 3600 + 49 * 60 + 37;
    assert t / DAY == 9075 + d;
  }
}
