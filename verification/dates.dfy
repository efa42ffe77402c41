/** Calendar arithmetic on whole days in the proleptic Gregorian calendar. It stands in for
    the date-fns helpers the views call (startOfMonth, endOfMonth, startOfWeek, endOfWeek,
    addDays, addMonths, subMonths, eachDayOfInterval, isSameDay, isSameMonth); a time of day
    never matters to the app, so a moment is represented by its calendar day. */
module Dates {

  /** A calendar day; meaningful when `ValidDate` holds. */
  datatype Date = Date(year: int, month: int, day: int)

  predicate IsLeapYear(y: int)
  {
    y % 4 == 0 && (y % 100 != 0 || y % 400 == 0)
  }

  function DaysInYear(y: int): int
  {
    if IsLeapYear(y) then 366 else 365
  }

  function DaysInMonth(y: int, m: int): (n: int)
    requires 1 <= m <= 12
    ensures 28 <= n <= 31
  {
    if m == 2 then (if IsLeapYear(y) then 29 else 28)
    else if m == 4 || m == 6 || m == 9 || m == 11 then 30
    else 31
  }

  predicate ValidDate(d: Date)
  {
    1 <= d.month <= 12 && 1 <= d.day <= DaysInMonth(d.year, d.month)
  }

  /** Days from 0001-01-01 to January 1st of year `y`. Dafny's division rounds down for a
      positive divisor, so the count is right for years before 1 as well. */
  function DaysBeforeYear(y: int): int
  {
    365 * (y - 1) + (y - 1) / 4 - (y - 1) / 100 + (y - 1) / 400
  }

  /** Days from January 1st of `y` to the 1st of month `m`. */
  function DaysBeforeMonth(y: int, m: int): int
    requires 1 <= m <= 12
  {
    var common :=
      if m == 1 then 0 else if m == 2 then 31 else if m == 3 then 59
      else if m == 4 then 90 else if m == 5 then 120 else if m == 6 then 151
      else if m == 7 then 181 else if m == 8 then 212 else if m == 9 then 243
      else if m == 10 then 273 else if m == 11 then 304 else 334;
    if m > 2 && IsLeapYear(y) then common + 1 else common
  }

  /** The day's ordinal: 0 for 0001-01-01, one more for each following day. It orders days
      the way `Date.getTime()` orders their midnights. */
  function DayNumber(d: Date): int
    requires 1 <= d.month <= 12
  {
    DaysBeforeYear(d.year) + DaysBeforeMonth(d.year, d.month) + d.day - 1
  }

  /** Day of the week, Sunday = 0 through Saturday = 6 (0001-01-01 was a Monday). */
  function Weekday(d: Date): (w: int)
    requires 1 <= d.month <= 12
    ensures 0 <= w < 7
  {
    (DayNumber(d) + 1) % 7
  }

  lemma WeekdayDecompose(d: Date)
    requires 1 <= d.month <= 12
    ensures DayNumber(d) + 1 == 7 * ((DayNumber(d) + 1) / 7) + Weekday(d)
  {
  }

  /** Lexicographic order on (year, month, day): the calendar's "earlier than". */
  predicate Precedes(a: Date, b: Date)
  {
    a.year < b.year || (a.year == b.year && (a.month < b.month || (a.month == b.month && a.day < b.day)))
  }

  // ---- Day numbers are consistent with the calendar ----

  lemma MonthStep(y: int, m: int)
    requires 1 <= m < 12
    ensures DaysBeforeMonth(y, m + 1) == DaysBeforeMonth(y, m) + DaysInMonth(y, m)
  {
  }

  lemma LastMonthStep(y: int)
    ensures DaysBeforeMonth(y, 12) + DaysInMonth(y, 12) == DaysInYear(y)
  {
  }

  /** A year has as many days as the leap rule says: 366 exactly when divisible by 4 and
      not by 100, or divisible by 400. */
  lemma YearLength(y: int)
    ensures DaysBeforeYear(y + 1) == DaysBeforeYear(y) + DaysInYear(y)
  {
    DivStep(y, 4);
    DivStep(y, 100);
    DivStep(y, 400);
    CenturiesAreLeapCandidates(y);
  }

  lemma CenturiesAreLeapCandidates(y: int)
    ensures y % 400 == 0 ==> y % 100 == 0
    ensures y % 100 == 0 ==> y % 4 == 0
  {
    if y % 400 == 0 {
      var k := y / 400;
      assert y == 100 * (4 * k);
    }
    if y % 100 == 0 {
      var k := y / 100;
      assert y == 4 * (25 * k);
    }
  }

  lemma DivStep(a: int, k: int)
    requires k == 4 || k == 100 || k == 400
    ensures a / k - (a - 1) / k == if a % k == 0 then 1 else 0
  {
    var q, r := a / k, a % k;
    assert a == k * q + r;
    if r == 0 {
      assert a - 1 == k * (q - 1) + (k - 1);
    } else {
      assert a - 1 == k * q + (r - 1);
    }
  }

  lemma {:induction false} DaysBeforeYearGrows(y1: int, y2: int)
    requires y1 <= y2
    ensures DaysBeforeYear(y1) + 365 * (y2 - y1) <= DaysBeforeYear(y2)
    decreases y2 - y1
  {
    if y1 < y2 {
      DaysBeforeYearGrows(y1, y2 - 1);
      YearLength(y2 - 1);
    }
  }

  lemma {:induction false} DaysBeforeMonthGrows(y: int, m1: int, m2: int)
    requires 1 <= m1 < m2 <= 12
    ensures DaysBeforeMonth(y, m1) + DaysInMonth(y, m1) <= DaysBeforeMonth(y, m2)
    decreases m2 - m1
  {
    MonthStep(y, m1);
    if m1 + 1 < m2 {
      DaysBeforeMonthGrows(y, m1 + 1, m2);
    }
  }

  lemma MonthFitsInYear(y: int, m: int)
    requires 1 <= m <= 12
    ensures DaysBeforeMonth(y, m) + DaysInMonth(y, m) <= DaysInYear(y)
  {
    LastMonthStep(y);
    if m < 12 {
      DaysBeforeMonthGrows(y, m, 12);
    }
  }

  lemma PrecedesSmaller(a: Date, b: Date)
    requires ValidDate(a) && ValidDate(b) && Precedes(a, b)
    ensures DayNumber(a) < DayNumber(b)
  {
    if a.year < b.year {
      MonthFitsInYear(a.year, a.month);
      YearLength(a.year);
      DaysBeforeYearGrows(a.year + 1, b.year);
    } else if a.month < b.month {
      DaysBeforeMonthGrows(a.year, a.month, b.month);
    }
  }

  /** Day numbers order valid days exactly as the calendar does. */
  lemma DayNumberOrder(a: Date, b: Date)
    requires ValidDate(a) && ValidDate(b)
    ensures Precedes(a, b) <==> DayNumber(a) < DayNumber(b)
  {
    if Precedes(a, b) {
      PrecedesSmaller(a, b);
    } else if a != b {
      PrecedesSmaller(b, a);
    }
  }

  /** Two valid days are the same day exactly when their day numbers agree; this is
      what isSameDay tests. */
  lemma DayNumberInjective(a: Date, b: Date)
    requires ValidDate(a) && ValidDate(b)
    ensures DayNumber(a) == DayNumber(b) <==> a == b
  {
    DayNumberOrder(a, b);
    DayNumberOrder(b, a);
  }

  // ---- Stepping by days ----

  /** The following calendar day. */
  function NextDay(d: Date): (r: Date)
    requires ValidDate(d)
    ensures ValidDate(r)
    ensures DayNumber(r) == DayNumber(d) + 1
  {
    if d.day < DaysInMonth(d.year, d.month) then Date(d.year, d.month, d.day + 1)
    else if d.month < 12 then
      MonthStep(d.year, d.month);
      Date(d.year, d.month + 1, 1)
    else
      LastMonthStep(d.year);
      YearLength(d.year);
      Date(d.year + 1, 1, 1)
  }

  /** The preceding calendar day. */
  function PrevDay(d: Date): (r: Date)
    requires ValidDate(d)
    ensures ValidDate(r)
    ensures DayNumber(r) == DayNumber(d) - 1
  {
    if d.day > 1 then Date(d.year, d.month, d.day - 1)
    else if d.month > 1 then
      MonthStep(d.year, d.month - 1);
      Date(d.year, d.month - 1, DaysInMonth(d.year, d.month - 1))
    else
      LastMonthStep(d.year - 1);
      YearLength(d.year - 1);
      Date(d.year - 1, 12, 31)
  }

  /** addDays(d, k) for k >= 0. */
  function AddDays(d: Date, k: nat): (r: Date)
    requires ValidDate(d)
    ensures ValidDate(r)
    ensures DayNumber(r) == DayNumber(d) + k
  {
    if k == 0 then d else NextDay(AddDays(d, k - 1))
  }

  /** subDays(d, k) for k >= 0. */
  function SubDays(d: Date, k: nat): (r: Date)
    requires ValidDate(d)
    ensures ValidDate(r)
    ensures DayNumber(r) == DayNumber(d) - k
  {
    if k == 0 then d else PrevDay(SubDays(d, k - 1))
  }

  // ---- Weeks and months ----

  /** startOfWeek with the default Sunday week start: the Sunday on or before `d`. */
  function StartOfWeek(d: Date): (r: Date)
    requires ValidDate(d)
    ensures ValidDate(r) && Weekday(r) == 0
    ensures DayNumber(d) - 6 <= DayNumber(r) <= DayNumber(d)
  {
    var r := SubDays(d, Weekday(d));
    WeekAlign(DayNumber(d) + 1);
    r
  }

  /** endOfWeek with the default Sunday week start: the Saturday on or after `d`. */
  function EndOfWeek(d: Date): (r: Date)
    requires ValidDate(d)
    ensures ValidDate(r) && Weekday(r) == 6
    ensures DayNumber(d) <= DayNumber(r) <= DayNumber(d) + 6
  {
    var r := AddDays(d, 6 - Weekday(d));
    WeekAlign(DayNumber(d) + 1);
    r
  }

  lemma WeekAlign(n: int)
    ensures (n - n % 7) % 7 == 0
    ensures (n + 6 - n % 7) % 7 == 6
  {
    var q := n / 7;
    assert n - n % 7 == 7 * q;
    assert n + 6 - n % 7 == 7 * q + 6;
  }

  function StartOfMonth(d: Date): (r: Date)
    requires ValidDate(d)
    ensures ValidDate(r) && SameMonth(r, d) && r.day == 1
  {
    Date(d.year, d.month, 1)
  }

  function EndOfMonth(d: Date): (r: Date)
    requires ValidDate(d)
    ensures ValidDate(r) && SameMonth(r, d)
    ensures DayNumber(r) == DayNumber(StartOfMonth(d)) + DaysInMonth(d.year, d.month) - 1
  {
    Date(d.year, d.month, DaysInMonth(d.year, d.month))
  }

  /** isSameMonth: same year and same month. */
  predicate SameMonth(a: Date, b: Date)
  {
    a.year == b.year && a.month == b.month
  }

  /** A valid day lies in the month of `d` exactly when it lies between that month's
      first and last day. */
  lemma SameMonthIffBetween(c: Date, d: Date)
    requires ValidDate(c) && ValidDate(d)
    ensures SameMonth(c, d) <==>
      DayNumber(StartOfMonth(d)) <= DayNumber(c) <= DayNumber(EndOfMonth(d))
  {
    DayNumberOrder(c, StartOfMonth(d));
    DayNumberOrder(EndOfMonth(d), c);
  }

  /** The days start, start + 1, ..., start + count - 1. */
  function DaysFrom(start: Date, count: nat): (r: seq<Date>)
    requires ValidDate(start)
    ensures |r| == count
    ensures forall i :: 0 <= i < count ==> ValidDate(r[i]) && DayNumber(r[i]) == DayNumber(start) + i
  {
    seq(count, i requires 0 <= i < count => AddDays(start, i))
  }

  /** eachDayOfInterval({start, end}): every day from `start` through `end`, in order.
      Only intervals that do not end before they start are modelled; the month grid, the
      one caller, always passes such an interval. */
  function EachDayOfInterval(start: Date, end: Date): (r: seq<Date>)
    requires ValidDate(start) && ValidDate(end) && DayNumber(start) <= DayNumber(end)
    ensures |r| == DayNumber(end) - DayNumber(start) + 1
    ensures r[0] == start && r[|r| - 1] == end
    ensures forall i :: 0 <= i < |r| ==> ValidDate(r[i]) && DayNumber(r[i]) == DayNumber(start) + i
  {
    var r := DaysFrom(start, DayNumber(end) - DayNumber(start) + 1);
    DayNumberInjective(r[|r| - 1], end);
    r
  }

  /** addMonths(d, k) (and subMonths(d, k) as addMonths(d, -k)): the same day-of-month `k`
      months later, clamped to the last day of the target month when that month is shorter. */
  function AddMonths(d: Date, k: int): (r: Date)
    requires ValidDate(d)
    ensures ValidDate(r)
    ensures r.year * 12 + r.month == d.year * 12 + d.month + k
    ensures r.day == if d.day <= DaysInMonth(r.year, r.month) then d.day else DaysInMonth(r.year, r.month)
  {
    var index := d.year * 12 + (d.month - 1) + k;
    var y, m := index / 12, index % 12 + 1;
    var last := DaysInMonth(y, m);
    Date(y, m, if d.day <= last then d.day else last)
  }
}
