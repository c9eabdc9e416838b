/**
 * The viewer's local calendar (proleptic Gregorian), as seen through the
 * getters of a JavaScript `Date`: `getFullYear`, `getMonth() + 1`,
 * `getDate` and `getDay`.  Days are also numbered consecutively
 * (day 0 is 1970-01-01), which places local midnights on one time line.
 */
module Calendar {

  datatype Date = Date(year: int, month: int, day: int)

  predicate IsLeapYear(y: int) {
    y % 4 == 0 && (y % 100 != 0 || y % 400 == 0)
  }

  function DaysInMonth(y: int, m: int): (n: int)
    ensures 28 <= n <= 31
    ensures m == 12 || m == 1 ==> n == 31
  {
    if m == 2 then (if IsLeapYear(y) then 29 else 28)
    else if m == 4 || m == 6 || m == 9 || m == 11 then 30
    else 31
  }

  function DaysInYear(y: int): nat {
    if IsLeapYear(y) then 366 else 365
  }

  predicate ValidDate(d: Date) {
    1 <= d.month <= 12 && 1 <= d.day <= DaysInMonth(d.year, d.month)
  }

  /** Chronological order of calendar dates. */
  predicate Before(a: Date, b: Date) {
    a.year < b.year ||
    (a.year == b.year && (a.month < b.month || (a.month == b.month && a.day < b.day)))
  }

  /** The following calendar day: `d.setDate(d.getDate() + 1)`. */
  function NextDate(d: Date): (r: Date)
    requires ValidDate(d)
    ensures ValidDate(r) && Before(d, r)
  {
    if d.day < DaysInMonth(d.year, d.month) then Date(d.year, d.month, d.day + 1)
    else if d.month < 12 then Date(d.year, d.month + 1, 1)
    else Date(d.year + 1, 1, 1)
  }

  /** The preceding calendar day: `d.setDate(d.getDate() - 1)`. */
  function PrevDate(d: Date): (r: Date)
    requires ValidDate(d)
    ensures ValidDate(r) && Before(r, d)
  {
    if d.day > 1 then Date(d.year, d.month, d.day - 1)
    else if d.month > 1 then Date(d.year, d.month - 1, DaysInMonth(d.year, d.month - 1))
    else Date(d.year - 1, 12, 31)
  }

  lemma NextOfPrev(d: Date)
    requires ValidDate(d)
    ensures NextDate(PrevDate(d)) == d
  {
  }

  lemma PrevOfNext(d: Date)
    requires ValidDate(d)
    ensures PrevDate(NextDate(d)) == d
  {
  }

  /** No valid date lies strictly between a date and the next one. */
  lemma NothingBetween(d: Date, e: Date)
    requires ValidDate(d) && ValidDate(e)
    ensures !(Before(d, e) && Before(e, NextDate(d)))
  {
  }

  /** `d` stepped back `k` days. */
  function DaysBack(d: Date, k: nat): (r: Date)
    requires ValidDate(d)
    ensures ValidDate(r)
  {
    if k == 0 then d else PrevDate(DaysBack(d, k - 1))
  }

  /** Days in the months of year `y` before month `m`. */
  function DaysBeforeMonth(y: int, m: int): (n: nat)
    requires 1 <= m <= 12
    ensures n + DaysInMonth(y, m) <= DaysInYear(y)
    ensures m == 12 ==> n + DaysInMonth(y, m) == DaysInYear(y)
  {
    [0, 31, 59, 90, 120, 151, 181, 212, 243, 273, 304, 334][m - 1] +
    (if m > 2 && IsLeapYear(y) then 1 else 0)
  }

  lemma DaysBeforeNext(y: int, m: int)
    requires 1 <= m < 12
    ensures DaysBeforeMonth(y, m) + DaysInMonth(y, m) == DaysBeforeMonth(y, m + 1)
  {
  }

  /** The day number of January 1 of year `y`; day 0 is 1970-01-01. */
  function YearStart(y: int): int
    decreases if y < 1970 then 1970 - y else y - 1970
  {
    if y == 1970 then 0
    else if y > 1970 then YearStart(y - 1) + DaysInYear(y - 1)
    else YearStart(y + 1) - DaysInYear(y)
  }

  lemma YearStartSucc(y: int)
    ensures YearStart(y + 1) == YearStart(y) + DaysInYear(y)
  {
  }

  /** Later years start later. */
  lemma {:induction false} YearStartMonotone(y: int, z: int)
    requires y < z
    ensures YearStart(y) + DaysInYear(y) <= YearStart(z)
    decreases z - y
  {
    YearStartSucc(y);
    if y + 1 < z {
      YearStartMonotone(y + 1, z);
      YearStartSucc(y + 1);
    }
  }

  /**
   * The consecutive number of a local day (day 0 is 1970-01-01); local
   * midnight of date `d` is `DayNumber(d)` days after that of 1970-01-01.
   */
  function DayNumber(d: Date): int
    requires ValidDate(d)
  {
    YearStart(d.year) + DaysBeforeMonth(d.year, d.month) + d.day - 1
  }

  lemma DayNumberEpoch()
    ensures DayNumber(Date(1970, 1, 1)) == 0
  {
  }

  /** `setDate(getDate() + 1)` moves one day number on. */
  lemma DayNumberNext(d: Date)
    requires ValidDate(d)
    ensures DayNumber(NextDate(d)) == DayNumber(d) + 1
  {
    if d.day == DaysInMonth(d.year, d.month) {
      if d.month == 12 {
        YearStartSucc(d.year);
      } else {
        DaysBeforeNext(d.year, d.month);
      }
    }
  }

  lemma DayNumberPrev(d: Date)
    requires ValidDate(d)
    ensures DayNumber(PrevDate(d)) == DayNumber(d) - 1
  {
    DayNumberNext(PrevDate(d));
    NextOfPrev(d);
  }

  lemma {:induction false} DayNumberBack(d: Date, k: nat)
    requires ValidDate(d)
    ensures DayNumber(DaysBack(d, k)) == DayNumber(d) - k
  {
    if k > 0 {
      DayNumberBack(d, k - 1);
      DayNumberPrev(DaysBack(d, k - 1));
    }
  }

  /** Day numbers and dates are in the same order. */
  lemma DayNumberMonotone(a: Date, b: Date)
    requires ValidDate(a) && ValidDate(b) && Before(a, b)
    ensures DayNumber(a) < DayNumber(b)
  {
    if a.year < b.year {
      YearStartMonotone(a.year, b.year);
    } else if a.month < b.month {
      DaysBeforeMonotone(a.year, a.month, b.month);
    }
  }

  lemma {:induction false} DaysBeforeMonotone(y: int, m: int, n: int)
    requires 1 <= m < n <= 12
    ensures DaysBeforeMonth(y, m) + DaysInMonth(y, m) <= DaysBeforeMonth(y, n)
    decreases n - m
  {
    DaysBeforeNext(y, m);
    if m + 1 < n {
      DaysBeforeMonotone(y, m + 1, n);
    }
  }

  lemma DayNumberInjective(a: Date, b: Date)
    requires ValidDate(a) && ValidDate(b)
    ensures DayNumber(a) == DayNumber(b) <==> a == b
  {
    if Before(a, b) {
      DayNumberMonotone(a, b);
    } else if Before(b, a) {
      DayNumberMonotone(b, a);
    }
  }

  /** `d` stepped forward `k` days. */
  function DaysAhead(d: Date, k: nat): (r: Date)
    requires ValidDate(d)
    ensures ValidDate(r)
  {
    if k == 0 then d else NextDate(DaysAhead(d, k - 1))
  }

  lemma {:induction false} DayNumberAhead(d: Date, k: nat)
    requires ValidDate(d)
    ensures DayNumber(DaysAhead(d, k)) == DayNumber(d) + k
  {
    if k > 0 {
      var p := DaysAhead(d, k - 1);
      assert DaysAhead(d, k) == NextDate(p);
      DayNumberAhead(d, k - 1);
      DayNumberNext(p);
    }
  }

  /** `d <= e` on dates (`!(e < d)`) is the order of their day numbers. */
  lemma NotBeforeIff(d: Date, e: Date)
    requires ValidDate(d) && ValidDate(e)
    ensures !Before(e, d) <==> DayNumber(d) <= DayNumber(e)
  {
    if Before(e, d) {
      DayNumberMonotone(e, d);
    } else if Before(d, e) {
      DayNumberMonotone(d, e);
    }
  }

  /** The days of year `y` are numbered YearStart(y) .. YearStart(y) + DaysInYear(y) - 1. */
  lemma YearOfDayNumber(d: Date, y: int)
    requires ValidDate(d)
    ensures YearStart(y) <= DayNumber(d) < YearStart(y) + DaysInYear(y) <==> d.year == y
  {
    if d.year < y {
      YearStartMonotone(d.year, y);
    } else if d.year > y {
      YearStartMonotone(y, d.year);
    }
  }

  /** `getDay()` of day number `n`: 0 is Sunday; 1970-01-01 was a Thursday. */
  function Weekday(n: int): (w: int)
    ensures 0 <= w < 7
  {
    (n + 4) % 7
  }

  lemma WeekdaySucc(n: int)
    ensures Weekday(n + 1) == (Weekday(n) + 1) % 7
  {
  }
}
