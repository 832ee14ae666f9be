/** The dashboard's period filters: today, the last week, a custom range and a billing cycle.
  * Each keeps the rows whose date qualifies, with their multiplicity and in their order. */
module Filters {
  import opened Wrappers
  import opened Calendar
  import opened Fiscal
  import opened Entries

  /** The rows that satisfy `keep`, in their original order. */
  function Select(s: seq<Entry>, keep: Entry -> bool): (r: seq<Entry>)
    ensures forall e :: multiset(r)[e] == if keep(e) then multiset(s)[e] else 0
  {
    if s == [] then []
    else
      assert s == [s[0]] + s[1..];
      (if keep(s[0]) then [s[0]] else []) + Select(s[1..], keep)
  }

  /** Filtering the newest-first table leaves it newest first. */
  lemma {:induction false} SelectKeepsOrder(s: seq<Entry>, keep: Entry -> bool)
    requires NewestFirst(s)
    ensures NewestFirst(Select(s, keep))
  {
    if s != [] {
      var rest := Select(s[1..], keep);
      SelectKeepsOrder(s[1..], keep);
      if keep(s[0]) {
        forall y | y in rest
          ensures NotAfter(y.date, s[0].date)
        {
          assert y in multiset(rest);
          assert y in multiset(s[1..]);
          var j :| 0 <= j < |s[1..]| && s[1..][j] == y;
          assert s[j + 1] == y;
        }
        ConsNewestFirst(s[0], rest);
      } else {
        assert [] + rest == rest;
      }
    }
  }

  /** `from <= d <= to`, both ends included. */
  predicate Within(from: Date, to: Date, d: Date) {
    NotAfter(from, d) && NotAfter(d, to)
  }

  /** "Hoy": the rows dated today. */
  function FilterToday(rows: seq<Entry>, today: Date): (r: seq<Entry>)
    ensures forall e :: multiset(r)[e] == if e.date == today then multiset(rows)[e] else 0
  {
    Select(rows, (e: Entry) => e.date == today)
  }

  /** "Última Semana": the rows from seven days before today up to today. Computing the first
    * day fails (None) only in the first week of year 1. */
  function FilterLastWeek(rows: seq<Entry>, today: Date): (r: Option<seq<Entry>>)
    requires IsPyDate(today)
    ensures r.None? <==> Ordinal(today) <= 7
    ensures r.Some? <==> AddDays(today, -7).Some?
    ensures r.Some? ==> forall e :: multiset(r.value)[e] ==
                                   if Within(AddDays(today, -7).value, today, e.date) then multiset(rows)[e] else 0
  {
    AddDaysOrdinal(today, -7);
    PyDateRange(today);
    match AddDays(today, -7)
    case None => None
    case Some(start) => Some(Select(rows, (e: Entry) => Within(start, today, e.date)))
  }

  /** The last-week window is the eight calendar days today, today - 1, ..., today - 7. */
  lemma LastWeekIsEightDays(today: Date, d: Date)
    requires IsPyDate(today) && IsCalendarDate(d) && AddDays(today, -7).Some?
    ensures Within(AddDays(today, -7).value, today, d) <==>
      exists k :: 0 <= k <= 7 && d == DaysEarlier(today, k)
  {
    LastWeekByOrdinal(today, AddDays(today, -7).value, d);
    EightDaysByOrdinal(today, d);
  }

  lemma EightDaysByOrdinal(today: Date, d: Date)
    requires IsCalendarDate(today) && IsCalendarDate(d)
    ensures (exists k :: 0 <= k <= 7 && d == DaysEarlier(today, k)) <==>
      Ordinal(today) - 7 <= Ordinal(d) <= Ordinal(today)
  {
    if Ordinal(today) - 7 <= Ordinal(d) <= Ordinal(today) {
      WindowDay(today, d, Ordinal(today) - Ordinal(d));
    }
    if exists k :: 0 <= k <= 7 && d == DaysEarlier(today, k) {
      var k :| 0 <= k <= 7 && d == DaysEarlier(today, k);
      ShiftOrdinal(today, -(k as int));
    }
  }

  lemma LastWeekByOrdinal(today: Date, start: Date, d: Date)
    requires IsPyDate(today) && IsCalendarDate(d) && AddDays(today, -7) == Some(start)
    ensures Within(start, today, d) <==> Ordinal(today) - 7 <= Ordinal(d) <= Ordinal(today)
  {
    AddDaysOrdinal(today, -7);
    OrdinalOrder(start, d);
    OrdinalOrder(d, today);
  }

  lemma WindowDay(today: Date, d: Date, k: nat)
    requires IsCalendarDate(today) && IsCalendarDate(d) && k <= 7
    requires Ordinal(d) == Ordinal(today) - k
    ensures exists k' :: 0 <= k' <= 7 && d == DaysEarlier(today, k')
  {
    ShiftOrdinal(today, -(k as int));
    OrdinalOrder(d, DaysEarlier(today, k));
    assert d == DaysEarlier(today, k);
  }

  /** The eight days of the window are distinct days. */
  lemma LastWeekDaysDistinct(today: Date, k1: nat, k2: nat)
    requires IsCalendarDate(today) && k1 != k2
    ensures DaysEarlier(today, k1) != DaysEarlier(today, k2)
  {
    ShiftOrdinal(today, -(k1 as int));
    ShiftOrdinal(today, -(k2 as int));
  }

  /** The outcome of a filter that does not abort: its rows, and whether the range was rejected. */
  datatype Filtered = Filtered(rows: seq<Entry>, rangeError: bool)

  /** "Rango Personalizado": the rows from `from` to `to`, both included. An inverted range is
    * reported and selects nothing; the bounds are never swapped. */
  function FilterRange(rows: seq<Entry>, from: Date, to: Date): (r: Filtered)
    ensures r.rangeError <==> Precedes(to, from)
    ensures r.rangeError ==> r.rows == []
    ensures !r.rangeError ==> forall e :: multiset(r.rows)[e] ==
                                         if Within(from, to, e.date) then multiset(rows)[e] else 0
  {
    if NotAfter(from, to) then Filtered(Select(rows, (e: Entry) => Within(from, to, e.date)), false)
    else Filtered([], true)
  }

  /** An inverted range cannot contain a date, so no rows would be lost by rejecting it. */
  lemma InvertedRangeIsEmpty(from: Date, to: Date, d: Date)
    requires Precedes(to, from)
    ensures !Within(from, to, d)
  {
  }

  predicate AllPyDates(rows: seq<Entry>) {
    forall e :: e in rows ==> IsPyDate(e.date)
  }

  predicate InCycle(e: Entry, key: string) {
    IsPyDate(e.date) && CycleKey(e.date) == Some(key)
  }

  /** "Mes (Ciclo Copias)": the rows whose billing-cycle key is `key`. The keys are computed for
    * every row first, so one row dated 22-31 December 9999 aborts it (None). */
  function FilterCycle(rows: seq<Entry>, key: string): (r: Option<seq<Entry>>)
    requires AllPyDates(rows)
    ensures r.None? <==> exists e :: e in rows && ClosingCycle(e.date).None?
    ensures r.Some? ==> forall e :: multiset(r.value)[e] == if InCycle(e, key) then multiset(rows)[e] else 0
  {
    if exists e :: e in rows && ClosingCycle(e.date).None? then None
    else Some(Select(rows, (e: Entry) => InCycle(e, key)))
  }

  /** Selecting the key of cycle `p` keeps exactly the rows dated from the 22nd of the month
    * before `p` to the 21st of `p`'s month. */
  lemma CycleFilterWindow(rows: seq<Entry>, p: Period, e: Entry)
    requires AllPyDates(rows) && IsPeriod(p) && e in rows
    requires FilterCycle(rows, PeriodKey(p)).Some?
    ensures var q := PreviousPeriod(p);
      e in FilterCycle(rows, PeriodKey(p)).value <==>
      Within(Date(q.year, q.month, 22), Date(p.year, p.month, 21), e.date)
  {
    var r := FilterCycle(rows, PeriodKey(p)).value;
    assert e in multiset(rows);
    assert e in r <==> e in multiset(r);
    CycleWindow(e.date, p);
    match ClosingCycle(e.date) {
      case Some(c) => PeriodKeyInjective(c, p);
      case None =>
    }
  }

  /** The periods offered in the cycle selector: the distinct cycle keys of the rows. */
  function CycleMenu(rows: seq<Entry>): (keys: set<string>)
    requires AllPyDates(rows)
    ensures forall e :: e in rows && CycleKey(e.date).Some? ==> CycleKey(e.date).value in keys
    ensures forall k :: k in keys ==> exists e :: e in rows && CycleKey(e.date) == Some(k)
  {
    set e | e in rows && CycleKey(e.date).Some? :: CycleKey(e.date).value
  }

  /** A period picked from the selector always selects at least one row. */
  lemma MenuKeySelectsRows(rows: seq<Entry>, key: string)
    requires AllPyDates(rows) && key in CycleMenu(rows)
    requires FilterCycle(rows, key).Some?
    ensures FilterCycle(rows, key).value != []
  {
    var e :| e in rows && CycleKey(e.date) == Some(key);
    assert e in multiset(rows);
    assert InCycle(e, key);
    assert e in multiset(FilterCycle(rows, key).value);
  }

  /** The four choices of the "Filtrar por" selector. */
  datatype Choice = Today | LastWeek | CustomRange(from: Date, to: Date) | Cycle(key: string)

  /** The filter the dashboard applies; None where date arithmetic aborts the page. The
    * custom range first computes its default start, today - 30, which Python refuses in the
    * first thirty days of year 1. */
  function ApplyFilter(rows: seq<Entry>, choice: Choice, today: Date): (r: Option<Filtered>)
    requires AllPyDates(rows) && IsPyDate(today)
    ensures choice.Today? ==> r == Some(Filtered(FilterToday(rows, today), false))
    ensures choice.LastWeek? ==> (r.None? <==> FilterLastWeek(rows, today).None?)
    ensures choice.LastWeek? && r.Some? ==> r.value == Filtered(FilterLastWeek(rows, today).value, false)
    ensures choice.CustomRange? ==> (r.None? <==> Ordinal(today) <= 30)
    ensures choice.CustomRange? && r.Some? ==> r.value == FilterRange(rows, choice.from, choice.to)
    ensures choice.Cycle? ==> (r.None? <==> FilterCycle(rows, choice.key).None?)
    ensures choice.Cycle? && r.Some? ==> r.value == Filtered(FilterCycle(rows, choice.key).value, false)
    ensures r.Some? && r.value.rangeError ==> choice.CustomRange? && r.value.rows == []
    ensures r.Some? ==> forall e :: multiset(r.value.rows)[e] <= multiset(rows)[e]
  {
    match choice
    case Today => Some(Filtered(FilterToday(rows, today), false))
    case LastWeek =>
      (match FilterLastWeek(rows, today)
       case Some(kept) => Some(Filtered(kept, false))
       case None => None)
    case CustomRange(from, to) =>
      AddDaysOrdinal(today, -30);
      PyDateRange(today);
      (match AddDays(today, -30)
       case Some(_) => Some(FilterRange(rows, from, to))
       case None => None)
    case Cycle(key) =>
      (match FilterCycle(rows, key)
       case Some(kept) => Some(Filtered(kept, false))
       case None => None)
  }

  /** Whatever the choice, a newest-first table stays newest first after filtering. */
  lemma FilteredNewestFirst(rows: seq<Entry>, choice: Choice, today: Date)
    requires AllPyDates(rows) && IsPyDate(today) && NewestFirst(rows)
    requires ApplyFilter(rows, choice, today).Some?
    ensures NewestFirst(ApplyFilter(rows, choice, today).value.rows)
  {
    match choice
    case Today => SelectKeepsOrder(rows, (e: Entry) => e.date == today);
    case LastWeek =>
      var start := AddDays(today, -7).value;
      SelectKeepsOrder(rows, (e: Entry) => Within(start, today, e.date));
    case CustomRange(from, to) =>
      if NotAfter(from, to) {
        SelectKeepsOrder(rows, (e: Entry) => Within(from, to, e.date));
      }
    case Cycle(key) => SelectKeepsOrder(rows, (e: Entry) => InCycle(e, key));
  }
}
