/** The Gregorian calendar, counted day by day. */
module Calendar {

  predicate Leap(y: nat) { y % 4 == 0 && (y % 100 != 0 || y % 400 == 0) }

  /** Months are 1 to 12. */
  function MonthDays(y: nat, m: nat): nat
    requires 1 <= m <= 12
  {
    if m == 2 then (if Leap(y) then 29 else 28)
    else if m in {4, 6, 9, 11} then 30
    else 31
  }

  function YearDays(y: nat): nat { if Leap(y) then 366 else 365 }

  /** Days from January 1 of year 1 to January 1 of year `y`. */
  function DaysBeforeYear(y: nat): nat
    requires y >= 1
  {
    if y == 1 then 0 else DaysBeforeYear(y - 1) + YearDays(y - 1)
  }

  /** Days from January 1 to the first of month `m`. */
  function DaysBeforeMonth(y: nat, m: nat): nat
    requires 1 <= m <= 12
  {
    if m == 1 then 0 else DaysBeforeMonth(y, m - 1) + MonthDays(y, m - 1)
  }

  datatype Date = Date(year: nat, month: nat, day: nat) {
    predicate Valid() { year >= 1 && 1 <= month <= 12 && 1 <= day <= MonthDays(year, month) }
  }

  /** Days since January 1 of year 1. */
  function DayNumber(d: Date): nat
    requires d.Valid()
  {
    DaysBeforeYear(d.year) + DaysBeforeMonth(d.year, d.month) + d.day - 1
  }

  /** The same for any year and day: year 0 is a leap year before year 1, and day 0 of a month
      is the day before its first. */
  function DayCount(year: nat, month: nat, day: nat): int
    requires 1 <= month <= 12
  {
    var before: int := if year == 0 then 0 - YearDays(0) else DaysBeforeYear(year);
    before + DaysBeforeMonth(year, month) + day - 1
  }

  function Tomorrow(d: Date): (e: Date)
    requires d.Valid()
    ensures e.Valid()
  {
    if d.day < MonthDays(d.year, d.month) then d.(day := d.day + 1)
    else if d.month < 12 then Date(d.year, d.month + 1, 1)
    else Date(d.year + 1, 1, 1)
  }

  /** The day number counts the days. */
  lemma {:induction false} TomorrowCounts(d: Date)
    requires d.Valid()
    ensures DayNumber(Tomorrow(d)) == DayNumber(d) + 1
  {
    if d.month == 12 && d.day == 31 { YearLength(d.year); }
  }

  lemma {:induction false} MonthStarts(y: nat)
    ensures DaysBeforeMonth(y, 2) == 31
    ensures var f := if Leap(y) then 29 else 28;
      && DaysBeforeMonth(y, 3) == 31 + f && DaysBeforeMonth(y, 4) == 62 + f && DaysBeforeMonth(y, 5) == 92 + f
      && DaysBeforeMonth(y, 6) == 123 + f && DaysBeforeMonth(y, 7) == 153 + f && DaysBeforeMonth(y, 8) == 184 + f
      && DaysBeforeMonth(y, 9) == 215 + f && DaysBeforeMonth(y, 10) == 245 + f && DaysBeforeMonth(y, 11) == 276 + f
      && DaysBeforeMonth(y, 12) == 306 + f
  {
    assert DaysBeforeMonth(y, 3) == DaysBeforeMonth(y, 2) + MonthDays(y, 2);
    assert DaysBeforeMonth(y, 4) == DaysBeforeMonth(y, 3) + 31;
    assert DaysBeforeMonth(y, 5) == DaysBeforeMonth(y, 4) + 30;
    assert DaysBeforeMonth(y, 6) == DaysBeforeMonth(y, 5) + 31;
    assert DaysBeforeMonth(y, 7) == DaysBeforeMonth(y, 6) + 30;
    assert DaysBeforeMonth(y, 8) == DaysBeforeMonth(y, 7) + 31;
    assert DaysBeforeMonth(y, 9) == DaysBeforeMonth(y, 8) + 31;
    assert DaysBeforeMonth(y, 10) == DaysBeforeMonth(y, 9) + 30;
    assert DaysBeforeMonth(y, 11) == DaysBeforeMonth(y, 10) + 31;
  }

  lemma {:induction false} YearLength(y: nat)
    ensures DaysBeforeMonth(y, 12) + 31 == YearDays(y)
  {
    MonthStarts(y);
  }

  /** The leap days of the years up to `y`. */
  function LeapDays(y: nat): int { y / 4 - y / 100 + y / 400 }

  lemma {:induction false} LeapDaysStep(y: nat)
    ensures LeapDays(y + 1) == LeapDays(y) + if Leap(y + 1) then 1 else 0
  {
    Quarter(y);
    Century(y);
    FourCenturies(y);
    Centuries(y + 1);
  }

  lemma {:induction false} Quarter(y: nat)
    ensures (y + 1) / 4 == y / 4 + if (y + 1) % 4 == 0 then 1 else 0
  {
  }

  lemma {:induction false} Century(y: nat)
    ensures (y + 1) / 100 == y / 100 + if (y + 1) % 100 == 0 then 1 else 0
  {
  }

  lemma {:induction false} FourCenturies(y: nat)
    ensures (y + 1) / 400 == y / 400 + if (y + 1) % 400 == 0 then 1 else 0
  {
  }

  lemma {:induction false} Centuries(z: nat)
    ensures z % 400 == 0 ==> z % 100 == 0
    ensures z % 100 == 0 ==> z % 4 == 0
  {
    Hundreds(z / 400);
    Fours(z / 100);
  }

  lemma {:induction false} Hundreds(q: nat)
    ensures 400 * q % 100 == 0
  {
    var k := 4 * q;
    assert 400 * q == 100 * k;
  }

  lemma {:induction false} Fours(q: nat)
    ensures 100 * q % 4 == 0
  {
    var k := 25 * q;
    assert 100 * q == 4 * k;
  }

  /** The days before a year in closed form. */
  lemma {:induction false} YearsClosed(y: nat)
    requires y >= 1
    ensures DaysBeforeYear(y) == 365 * (y - 1) + LeapDays(y - 1)
  {
    if y > 1 {
      YearsClosed(y - 1);
      LeapDaysStep(y - 2);
    }
  }

  /** A date lies within its year. */
  lemma {:induction false} DayInYear(d: Date)
    requires d.Valid()
    ensures DaysBeforeYear(d.year) <= DayNumber(d) < DaysBeforeYear(d.year + 1)
  {
    MonthStarts(d.year);
  }

  lemma {:induction false} YearsMono(x: nat, y: nat)
    requires 1 <= x <= y
    ensures DaysBeforeYear(x) <= DaysBeforeYear(y)
  {
    if x < y { YearsMono(x, y - 1); }
  }

  /** No two dates have the same number. */
  lemma {:induction false} DayNumberInjective(d: Date, e: Date)
    requires d.Valid() && e.Valid() && DayNumber(d) == DayNumber(e)
    ensures d == e
  {
    DayInYear(d);
    DayInYear(e);
    if d.year < e.year { YearsMono(d.year + 1, e.year); }
    if e.year < d.year { YearsMono(e.year + 1, d.year); }
    MonthStarts(d.year);
  }
}
