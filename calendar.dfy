/** Proleptic Gregorian calendar dates, as Python's `datetime.date` handles them:
  * comparison is by (year, month, day), `toordinal` numbers the days from 0001-01-01 = 1,
  * and `date + timedelta(days=n)` fails with OverflowError outside years 1..9999. */
module Calendar {
  import opened Wrappers

  datatype Date = Date(year: int, month: int, day: int)

  const MIN_YEAR: int := 1
  const MAX_YEAR: int := 9999
  const FIRST_DATE: Date := Date(MIN_YEAR, 1, 1)
  const LAST_DATE: Date := Date(MAX_YEAR, 12, 31)

  predicate IsLeapYear(y: int) {
    y % 4 == 0 && (y % 100 != 0 || y % 400 == 0)
  }

  function DaysInMonth(y: int, m: int): (n: int)
    requires 1 <= m <= 12
    ensures 28 <= n <= 31
    ensures n == 28 <==> m == 2 && !IsLeapYear(y)
  {
    if m == 2 then (if IsLeapYear(y) then 29 else 28)
    else if m == 4 || m == 6 || m == 9 || m == 11 then 30
    else 31
  }

  function DaysInYear(y: int): int {
    if IsLeapYear(y) then 366 else 365
  }

  /** A day that exists in the proleptic Gregorian calendar (any year). */
  predicate IsCalendarDate(d: Date) {
    1 <= d.month <= 12 && 1 <= d.day <= DaysInMonth(d.year, d.month)
  }

  /** A value Python's `date` type can hold. */
  predicate IsPyDate(d: Date) {
    IsCalendarDate(d) && MIN_YEAR <= d.year <= MAX_YEAR
  }

  /** Python's `a < b` on dates: lexicographic on (year, month, day). */
  predicate Precedes(a: Date, b: Date) {
    a.year < b.year || (a.year == b.year && (a.month < b.month || (a.month == b.month && a.day < b.day)))
  }

  /** Python's `a <= b` on dates. */
  predicate NotAfter(a: Date, b: Date) {
    !Precedes(b, a)
  }

  function DaysBeforeMonth(y: int, m: int): (n: int)
    requires 1 <= m <= 12
    ensures n >= 0
  {
    if m == 1 then 0 else DaysBeforeMonth(y, m - 1) + DaysInMonth(y, m - 1)
  }

  /** The days in the years before `y`, counted from year 1 (negative before it): Python's
    * `_days_before_year`, with floor division extended to every year. */
  function DaysBeforeYear(y: int): int {
    var p := y - 1;
    365 * p + p / 4 - p / 100 + p / 400
  }

  /** Moving from `p - 1` to `p`, a quotient by 4, 100 or 400 grows by one exactly when the
    * divisor divides `p`. */
  lemma DivSteps(p: int)
    ensures p / 4 - (p - 1) / 4 == if p % 4 == 0 then 1 else 0
    ensures p / 100 - (p - 1) / 100 == if p % 100 == 0 then 1 else 0
    ensures p / 400 - (p - 1) / 400 == if p % 400 == 0 then 1 else 0
  {
  }

  /** Python's `date.toordinal()`, extended to every year. */
  function Ordinal(d: Date): int
    requires IsCalendarDate(d)
  {
    DaysBeforeYear(d.year) + DaysBeforeMonth(d.year, d.month) + d.day
  }

  lemma YearStep(y: int)
    ensures DaysBeforeYear(y + 1) == DaysBeforeYear(y) + DaysInYear(y)
  {
    DivSteps(y);
  }

  lemma MonthsFillYear(y: int)
    ensures DaysBeforeMonth(y, 12) + DaysInMonth(y, 12) == DaysInYear(y)
  {
    var feb := DaysInMonth(y, 2);
    assert DaysBeforeMonth(y, 2) == 31;
    assert DaysBeforeMonth(y, 3) == 31 + feb;
    assert DaysBeforeMonth(y, 4) == 62 + feb;
    assert DaysBeforeMonth(y, 5) == 92 + feb;
    assert DaysBeforeMonth(y, 6) == 123 + feb;
    assert DaysBeforeMonth(y, 7) == 153 + feb;
    assert DaysBeforeMonth(y, 8) == 184 + feb;
    assert DaysBeforeMonth(y, 9) == 215 + feb;
    assert DaysBeforeMonth(y, 10) == 245 + feb;
    assert DaysBeforeMonth(y, 11) == 276 + feb;
    assert DaysBeforeMonth(y, 12) == 306 + feb;
  }

  lemma {:induction false} MonthEndBound(y: int, m: int, m2: int)
    requires 1 <= m < m2 <= 12
    ensures DaysBeforeMonth(y, m) + DaysInMonth(y, m) <= DaysBeforeMonth(y, m2)
  {
    if m2 > m + 1 {
      MonthEndBound(y, m, m2 - 1);
    }
  }

  lemma MonthInsideYear(y: int, m: int)
    requires 1 <= m <= 12
    ensures DaysBeforeMonth(y, m) + DaysInMonth(y, m) <= DaysInYear(y)
  {
    MonthsFillYear(y);
    if m < 12 {
      MonthEndBound(y, m, 12);
    }
  }

  lemma {:induction false} YearEndBound(y: int, y2: int)
    requires y < y2
    ensures DaysBeforeYear(y) + DaysInYear(y) <= DaysBeforeYear(y2)
    decreases y2 - y
  {
    YearStep(y2 - 1);
    if y2 > y + 1 {
      YearEndBound(y, y2 - 1);
    }
  }

  lemma PrecedesOrdinal(a: Date, b: Date)
    requires IsCalendarDate(a) && IsCalendarDate(b) && Precedes(a, b)
    ensures Ordinal(a) < Ordinal(b)
  {
    if a.year < b.year {
      MonthInsideYear(a.year, a.month);
      YearEndBound(a.year, b.year);
    } else if a.month < b.month {
      MonthEndBound(a.year, a.month, b.month);
    }
  }

  /** Comparing dates is comparing their ordinals, so the ordinal numbers the days one by one. */
  lemma OrdinalOrder(a: Date, b: Date)
    requires IsCalendarDate(a) && IsCalendarDate(b)
    ensures Precedes(a, b) <==> Ordinal(a) < Ordinal(b)
    ensures a == b <==> Ordinal(a) == Ordinal(b)
  {
    if Precedes(a, b) {
      PrecedesOrdinal(a, b);
    } else if Precedes(b, a) {
      PrecedesOrdinal(b, a);
    }
  }

  /** The next day. */
  function Successor(d: Date): (r: Date)
    requires IsCalendarDate(d)
    ensures IsCalendarDate(r)
  {
    if d.day < DaysInMonth(d.year, d.month) then d.(day := d.day + 1)
    else if d.month < 12 then Date(d.year, d.month + 1, 1)
    else Date(d.year + 1, 1, 1)
  }

  /** The previous day. */
  function Predecessor(d: Date): (r: Date)
    requires IsCalendarDate(d)
    ensures IsCalendarDate(r)
  {
    if d.day > 1 then d.(day := d.day - 1)
    else if d.month > 1 then Date(d.year, d.month - 1, DaysInMonth(d.year, d.month - 1))
    else Date(d.year - 1, 12, 31)
  }

  lemma SuccessorOrdinal(d: Date)
    requires IsCalendarDate(d)
    ensures Ordinal(Successor(d)) == Ordinal(d) + 1
  {
    if d.day == DaysInMonth(d.year, d.month) && d.month == 12 {
      YearStep(d.year);
      MonthsFillYear(d.year);
    }
  }

  lemma PredecessorOrdinal(d: Date)
    requires IsCalendarDate(d)
    ensures Ordinal(Predecessor(d)) == Ordinal(d) - 1
  {
    if d.day == 1 && d.month == 1 {
      YearStep(d.year - 1);
      MonthsFillYear(d.year - 1);
    }
  }

  /** The day `n` days after `d` (before it when `n` is negative), in the unbounded calendar. */
  function Shift(d: Date, n: int): (r: Date)
    requires IsCalendarDate(d)
    ensures IsCalendarDate(r)
    decreases if n < 0 then -n else n
  {
    if n == 0 then d
    else if n > 0 then Shift(Successor(d), n - 1)
    else Shift(Predecessor(d), n + 1)
  }

  lemma {:induction false} ShiftOrdinal(d: Date, n: int)
    requires IsCalendarDate(d)
    ensures Ordinal(Shift(d, n)) == Ordinal(d) + n
    decreases if n < 0 then -n else n
  {
    if n > 0 {
      SuccessorOrdinal(d);
      ShiftOrdinal(Successor(d), n - 1);
    } else if n < 0 {
      PredecessorOrdinal(d);
      ShiftOrdinal(Predecessor(d), n + 1);
    }
  }

  /** Python's `d + timedelta(days=n)`: None stands for the OverflowError raised when the
    * result falls outside years 1..9999. */
  function AddDays(d: Date, n: int): (r: Option<Date>)
    requires IsPyDate(d)
    ensures r.Some? ==> IsPyDate(r.value)
  {
    var s := Shift(d, n);
    if MIN_YEAR <= s.year <= MAX_YEAR then Some(s) else None
  }

  /** The dates Python can hold are exactly those whose ordinal lies in 1..toordinal(9999-12-31). */
  lemma PyDateRange(d: Date)
    requires IsCalendarDate(d)
    ensures IsPyDate(d) <==> 1 <= Ordinal(d) <= Ordinal(LAST_DATE)
  {
    OrdinalOrder(d, FIRST_DATE);
    OrdinalOrder(d, LAST_DATE);
    assert Ordinal(FIRST_DATE) == 1;
  }

  /** `date + timedelta` moves the ordinal by exactly `n`, and fails exactly when the resulting
    * ordinal is out of Python's range. */
  lemma AddDaysOrdinal(d: Date, n: int)
    requires IsPyDate(d)
    ensures AddDays(d, n).Some? <==> 1 <= Ordinal(d) + n <= Ordinal(LAST_DATE)
    ensures AddDays(d, n).Some? ==> Ordinal(AddDays(d, n).value) == Ordinal(d) + n
  {
    ShiftOrdinal(d, n);
    PyDateRange(Shift(d, n));
  }

  /** The day `k` days before `d`. */
  function DaysEarlier(d: Date, k: nat): (r: Date)
    requires IsCalendarDate(d)
    ensures IsCalendarDate(r)
  {
    Shift(d, -(k as int))
  }
}
