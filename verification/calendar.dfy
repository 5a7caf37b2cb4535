/**
 A day-granular proleptic Gregorian calendar: the part of
 `java.util.GregorianCalendar` that the occurrence generator relies on.

 Dates are civil triples (year, month, day). Every date also has a serial
 day number (0001-01-01 is day 0), which is what `Date.before` and
 `Date.after` compare, and which makes adding days and weekdays plain
 arithmetic.
 */
module Calendar {

  datatype Civil = Civil(year: int, month: int, day: int)

  predicate IsLeapYear(y: int) {
    y % 4 == 0 && (y % 100 != 0 || y % 400 == 0)
  }

  function DaysInMonth(y: int, m: int): (n: int)
    requires 1 <= m <= 12
    ensures 28 <= n <= 31
  {
    if m == 2 then (if IsLeapYear(y) then 29 else 28)
    else if m == 4 || m == 6 || m == 9 || m == 11 then 30
    else 31
  }

  predicate ValidCivil(c: Civil) {
    1 <= c.month <= 12 && 1 <= c.day <= DaysInMonth(c.year, c.month)
  }

  /** A calendar day; time of day, time zones and eras are not modelled. */
  type Date = c: Civil | ValidCivil(c) witness Civil(1970, 1, 1)

  function YearLength(y: int): int {
    if IsLeapYear(y) then 366 else 365
  }

  /** Days from 0001-01-01 to January 1st of year `y` (negative before year 1). */
  function DaysBeforeYear(y: int): int {
    var p := y - 1;
    365 * p + p / 4 - p / 100 + p / 400
  }

  /** Days from January 1st of year `y` to the first of month `m`. */
  function DaysBeforeMonth(y: int, m: int): int
    requires 1 <= m <= 12
  {
    var leap := if IsLeapYear(y) && m > 2 then 1 else 0;
    leap + (match m
            case 1 => 0   case 2 => 31  case 3 => 59  case 4 => 90
            case 5 => 120 case 6 => 151 case 7 => 181 case 8 => 212
            case 9 => 243 case 10 => 273 case 11 => 304 case _ => 334)
  }

  lemma YearStep(y: int)
    ensures DaysBeforeYear(y + 1) == DaysBeforeYear(y) + YearLength(y)
  {
    var p := y - 1;
    assert y / 4 - p / 4 == (if y % 4 == 0 then 1 else 0);
    assert y / 100 - p / 100 == (if y % 100 == 0 then 1 else 0);
    assert y / 400 - p / 400 == (if y % 400 == 0 then 1 else 0);
  }

  lemma MonthStep(y: int, m: int)
    requires 1 <= m < 12
    ensures DaysBeforeMonth(y, m + 1) == DaysBeforeMonth(y, m) + DaysInMonth(y, m)
  {
  }

  /** The serial number of a day: what `Date.getTime()` orders by. */
  function DayNumber(d: Date): int {
    DaysBeforeYear(d.year) + DaysBeforeMonth(d.year, d.month) + d.day - 1
  }

  /** `a.before(b)` on two calendar days. */
  predicate Before(a: Date, b: Date) {
    DayNumber(a) < DayNumber(b)
  }

  /** Months counted from January of year 0. */
  function MonthIndex(d: Civil): int {
    12 * d.year + d.month - 1
  }

  /** The serial number of the first day of month number `mi`. */
  function MonthStart(mi: int): int {
    DaysBeforeYear(mi / 12) + DaysBeforeMonth(mi / 12, mi % 12 + 1)
  }

  function MonthLength(mi: int): int {
    DaysInMonth(mi / 12, mi % 12 + 1)
  }

  lemma MonthIndexParts(d: Civil)
    ensures 1 <= d.month <= 12 ==> MonthIndex(d) / 12 == d.year && MonthIndex(d) % 12 == d.month - 1
  {
  }

  lemma DayNumberInMonth(d: Date)
    ensures DayNumber(d) == MonthStart(MonthIndex(d)) + d.day - 1
    ensures MonthLength(MonthIndex(d)) == DaysInMonth(d.year, d.month)
  {
    MonthIndexParts(d);
  }

  lemma MonthStartStep(mi: int)
    ensures MonthStart(mi + 1) == MonthStart(mi) + MonthLength(mi)
  {
    var y, r := mi / 12, mi % 12;
    if r < 11 {
      assert (mi + 1) / 12 == y && (mi + 1) % 12 == r + 1;
      MonthStep(y, r + 1);
    } else {
      assert (mi + 1) / 12 == y + 1 && (mi + 1) % 12 == 0;
      YearStep(y);
    }
  }

  /** Later months start later, by at least the length of the earlier month. */
  lemma {:induction false} MonthStartMonotone(a: int, b: int)
    requires a < b
    ensures MonthStart(a) + MonthLength(a) <= MonthStart(b)
    decreases b - a
  {
    MonthStartStep(a);
    if a + 1 < b {
      MonthStartMonotone(a + 1, b);
    }
  }

  /** A day in an earlier month is an earlier day. */
  lemma MonthOrder(a: Date, b: Date)
    requires MonthIndex(a) < MonthIndex(b)
    ensures Before(a, b)
  {
    DayNumberInMonth(a);
    DayNumberInMonth(b);
    MonthStartMonotone(MonthIndex(a), MonthIndex(b));
  }

  /** An earlier day is in the same month or an earlier one. */
  lemma BeforeMonth(a: Date, b: Date)
    requires Before(a, b)
    ensures MonthIndex(a) <= MonthIndex(b)
  {
    if MonthIndex(b) < MonthIndex(a) {
      MonthOrder(b, a);
    }
  }

  /** Two dates with the same serial number are the same date. */
  lemma DayNumberInjective(a: Date, b: Date)
    requires DayNumber(a) == DayNumber(b)
    ensures a == b
  {
    if MonthIndex(a) < MonthIndex(b) {
      MonthOrder(a, b);
    } else if MonthIndex(b) < MonthIndex(a) {
      MonthOrder(b, a);
    } else {
      MonthIndexParts(a);
      MonthIndexParts(b);
    }
  }

  /** The day after `d` (`add(DATE, 1)`). */
  function NextDay(d: Date): (r: Date)
    ensures DayNumber(r) == DayNumber(d) + 1
  {
    if d.day < DaysInMonth(d.year, d.month) then
      Civil(d.year, d.month, d.day + 1)
    else if d.month < 12 then
      MonthStep(d.year, d.month);
      Civil(d.year, d.month + 1, 1)
    else
      YearStep(d.year);
      Civil(d.year + 1, 1, 1)
  }

  /** The day before `d` (`add(DATE, -1)`). */
  function PrevDay(d: Date): (r: Date)
    ensures DayNumber(r) == DayNumber(d) - 1
  {
    if d.day > 1 then
      Civil(d.year, d.month, d.day - 1)
    else if d.month > 1 then
      MonthStep(d.year, d.month - 1);
      Civil(d.year, d.month - 1, DaysInMonth(d.year, d.month - 1))
    else
      YearStep(d.year - 1);
      Civil(d.year - 1, 12, 31)
  }

  /** `add(DATE, n)`: the date `n` days after (or, for negative `n`, before) `d`. */
  function AddDays(d: Date, n: int): (r: Date)
    ensures DayNumber(r) == DayNumber(d) + n
    decreases if n < 0 then -n else n
  {
    if n == 0 then d
    else if n > 0 then AddDays(NextDay(d), n - 1)
    else AddDays(PrevDay(d), n + 1)
  }

  /** Adding days lands on the date with the shifted serial number. */
  lemma AddDaysTo(d: Date, n: int, e: Date)
    requires DayNumber(e) == DayNumber(d) + n
    ensures AddDays(d, n) == e
  {
    DayNumberInjective(AddDays(d, n), e);
  }

  /** Day of the week, Sunday = 0 through Saturday = 6 (0001-01-01 was a Monday). */
  function DayOfWeek(d: Date): int {
    (DayNumber(d) + 1) % 7
  }

  /** Weekdays advance with the day count, modulo 7. */
  lemma DayOfWeekShift(d: Date, n: int)
    ensures DayOfWeek(AddDays(d, n)) == (DayOfWeek(d) + n) % 7
  {
    var e := AddDays(d, n);
    ShiftMod7(DayNumber(d) + 1, n);
  }

  lemma ShiftMod7(x: int, n: int)
    ensures (x + n) % 7 == (x % 7 + n) % 7
  {
    var q := x / 7;
    assert x == 7 * q + x % 7;
  }

  /** `k` days after a Sunday, for `k` below 7, is weekday `k`. */
  lemma DayInWeek(d: Date, k: int)
    requires DayOfWeek(d) == 0 && 0 <= k < 7
    ensures DayOfWeek(AddDays(d, k)) == k
  {
    var x, y := DayNumber(d) + 1, DayNumber(AddDays(d, k)) + 1;
    assert y == x + k;
    Residue(x, k);
  }

  /** A whole number of weeks after a Sunday is a Sunday. */
  lemma SundayAfterWeeks(d: Date, n: int)
    requires DayOfWeek(d) == 0 && n % 7 == 0
    ensures DayOfWeek(AddDays(d, n)) == 0
  {
    var x, y := DayNumber(d) + 1, DayNumber(AddDays(d, n)) + 1;
    assert y == x + n;
    Residue(x, n);
  }

  lemma Residue(x: int, k: int)
    requires x % 7 == 0
    ensures (x + k) % 7 == k % 7
    ensures 0 <= k < 7 ==> (x + k) % 7 == k
  {
    ShiftMod7(x, k);
  }

  /** The serial number of the Sunday that begins `d`'s week. */
  function WeekStart(d: Date): int {
    DayNumber(d) - DayOfWeek(d)
  }

  /** `set(DAY_OF_WEEK, SUNDAY)` with Sunday as the first day of the week. */
  function SundayOf(d: Date): (r: Date)
    ensures DayOfWeek(r) == 0
    ensures DayNumber(r) == WeekStart(d)
    ensures DayNumber(d) - 6 <= DayNumber(r) <= DayNumber(d)
  {
    DayOfWeekShift(d, -DayOfWeek(d));
    AddDays(d, -DayOfWeek(d))
  }

  /**
   Lenient `set(DAY_OF_MONTH, dom)` followed by `getTime()`: the day that is
   `dom - 1` days after the first of `c`'s month, so a day past the month's
   end rolls into the following month.
   */
  function SetDayOfMonth(c: Date, dom: int): (r: Date)
    requires 1 <= dom <= 31
    ensures DayNumber(r) == MonthStart(MonthIndex(c)) + dom - 1
    ensures MonthIndex(c) <= MonthIndex(r) <= MonthIndex(c) + 1
    ensures r.day <= dom
  {
    DayNumberInMonth(c);
    var len := DaysInMonth(c.year, c.month);
    // December has 31 days, so a roll-over never crosses into a new year.
    if dom <= len then
      Civil(c.year, c.month, dom)
    else
      MonthStep(c.year, c.month);
      Civil(c.year, c.month + 1, dom - len)
  }

  function Min(a: int, b: int): int {
    if a <= b then a else b
  }

  /**
   `add(MONTH, k)`: move `k` months, keeping the day of the month unless the
   target month is shorter, in which case the day is pinned to its last day.
   */
  function AddMonths(c: Date, k: int): (r: Date)
    ensures MonthIndex(r) == MonthIndex(c) + k
    ensures r.day <= c.day
    ensures r.day < c.day ==> r.day == DaysInMonth(r.year, r.month)
  {
    var mi := MonthIndex(c) + k;
    var y, m := mi / 12, mi % 12 + 1;
    MonthIndexParts(Civil(y, m, 1));
    Civil(y, m, Min(c.day, DaysInMonth(y, m)))
  }
}
