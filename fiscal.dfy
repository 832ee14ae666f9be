/** The photocopy billing cycle, which closes on the 21st (`get_periodo_copia`): a date up to
  * the 21st belongs to its own month's cycle, a later date to the next month's. */
module Fiscal {
  import opened Wrappers
  import opened Digits
  import opened Calendar

  /** A cycle, named by the calendar month in which it closes. */
  datatype Period = Period(year: int, month: int)

  predicate IsPeriod(p: Period) {
    MIN_YEAR <= p.year <= MAX_YEAR && 1 <= p.month <= 12
  }

  function NextPeriod(p: Period): Period {
    if p.month == 12 then Period(p.year + 1, 1) else Period(p.year, p.month + 1)
  }

  function PreviousPeriod(p: Period): Period {
    if p.month == 1 then Period(p.year - 1, 12) else Period(p.year, p.month - 1)
  }

  /** `get_periodo_copia` before formatting. For a day after the 21st it moves the date to the
    * 28th and adds four days, which Python's `date` refuses (None) when that leaves year 9999.
    * The dashboard passes pandas timestamps, which end in 2262, so that case is out of reach
    * there; the model keeps Python's rule for every date. */
  function ClosingCycle(d: Date): (r: Option<Period>)
    requires IsPyDate(d)
    ensures r.Some? ==> IsPeriod(r.value)
  {
    if d.day > 21 then
      match AddDays(Date(d.year, d.month, 28), 4)
      case Some(n) => Some(Period(n.year, n.month))
      case None => None
    else Some(Period(d.year, d.month))
  }

  /** The day-28-plus-four-days step always lands on day 1..4 of the following month,
    * and December rolls over to January of the next year. */
  lemma {:induction false} RolloverLandsEarly(y: int, m: int)
    requires 1 <= m <= 12
    ensures var n := Shift(Date(y, m, 28), 4);
      n.day == 32 - DaysInMonth(y, m) && 1 <= n.day <= 4
      && Period(n.year, n.month) == NextPeriod(Period(y, m))
  {
    var d0 := Date(y, m, 28);
    var d1 := Successor(d0);
    var d2 := Successor(d1);
    var d3 := Successor(d2);
    var d4 := Successor(d3);
    assert Shift(d4, 0) == d4;
    assert Shift(d3, 1) == d4;
    assert Shift(d2, 2) == d4;
    assert Shift(d1, 3) == d4;
    assert Shift(d0, 4) == d4;
  }

  /** The cycle of a date, case by case. */
  lemma ClosingCycleCases(d: Date)
    requires IsPyDate(d)
    ensures d.day <= 21 ==> ClosingCycle(d) == Some(Period(d.year, d.month))
    ensures d.day > 21 && d.year == MAX_YEAR && d.month == 12 ==> ClosingCycle(d) == None
    ensures d.day > 21 && !(d.year == MAX_YEAR && d.month == 12) ==>
      ClosingCycle(d) == Some(NextPeriod(Period(d.year, d.month)))
  {
    if d.day > 21 {
      RolloverLandsEarly(d.year, d.month);
    }
  }

  /** Each cycle runs from the 22nd of the previous month to the 21st of its own month,
    * both included. */
  lemma CycleWindow(d: Date, p: Period)
    requires IsPyDate(d) && IsPeriod(p)
    ensures ClosingCycle(d) == Some(p) <==>
      var q := PreviousPeriod(p);
      NotAfter(Date(q.year, q.month, 22), d) && NotAfter(d, Date(p.year, p.month, 21))
  {
    ClosingCycleCases(d);
    var q := PreviousPeriod(p);
    MonthIndexOrder(q.year, q.month, d.year, d.month);
    MonthIndexOrder(d.year, d.month, q.year, q.month);
    MonthIndexOrder(d.year, d.month, p.year, p.month);
    MonthIndexOrder(p.year, p.month, d.year, d.month);
    var mp, md := MonthIndex(p), MonthIndex(Period(d.year, d.month));
    assert MonthIndex(q) == mp - 1;
    if d.day > 21 {
      assert MonthIndex(NextPeriod(Period(d.year, d.month))) == md + 1;
      MonthIndexInjective(p, NextPeriod(Period(d.year, d.month)));
    } else {
      MonthIndexInjective(p, Period(d.year, d.month));
    }
  }

  /** Months counted from year 0, so that consecutive months differ by one. */
  function MonthIndex(p: Period): int {
    12 * p.year + p.month
  }

  lemma MonthIndexOrder(y: int, m: int, y2: int, m2: int)
    requires 1 <= m <= 12 && 1 <= m2 <= 12
    ensures (y < y2 || (y == y2 && m < m2)) <==> MonthIndex(Period(y, m)) < MonthIndex(Period(y2, m2))
  {
  }

  lemma MonthIndexInjective(p: Period, q: Period)
    requires 1 <= p.month <= 12 && 1 <= q.month <= 12
    ensures MonthIndex(p) == MonthIndex(q) <==> p == q
  {
    MonthIndexOrder(p.year, p.month, q.year, q.month);
    MonthIndexOrder(q.year, q.month, p.year, p.month);
  }

  /** The key string: strftime("%Y-%m (Cierre 21)") with a four-digit year. It reads as the
    * year in four digits, a dash, the month in two digits and the closing-day suffix. */
  function PeriodKey(p: Period): (s: string)
    requires IsPeriod(p)
    ensures |s| == 19 && s[4] == '-' && s[7..] == " (Cierre 21)"
    ensures AllDigits(s[..4]) && DigitsValue(s[..4]) == p.year
    ensures AllDigits(s[5..7]) && DigitsValue(s[5..7]) == p.month
  {
    assert Pow10(4) == 10000 && Pow10(2) == 100;
    var year, month := PadNat(p.year, 4), PadNat(p.month, 2);
    var s := year + "-" + month + " (Cierre 21)";
    assert s[..4] == year && s[5..7] == month;
    s
  }

  /** Distinct cycles have distinct keys, so selecting by key selects by cycle. */
  lemma PeriodKeyInjective(p: Period, q: Period)
    requires IsPeriod(p) && IsPeriod(q)
    ensures PeriodKey(p) == PeriodKey(q) <==> p == q
  {
    if PeriodKey(p) == PeriodKey(q) {
      assert Pow10(4) == 10000 && Pow10(2) == 100;
      var s, t := PeriodKey(p), PeriodKey(q);
      assert s[..4] == PadNat(p.year, 4) && t[..4] == PadNat(q.year, 4);
      assert s[5..7] == PadNat(p.month, 2) && t[5..7] == PadNat(q.month, 2);
    }
  }

  /** The key of a date's cycle, or None where `get_periodo_copia` raises. */
  function CycleKey(d: Date): (r: Option<string>)
    requires IsPyDate(d)
    ensures r.Some? <==> ClosingCycle(d).Some?
  {
    match ClosingCycle(d)
    case Some(p) => Some(PeriodKey(p))
    case None => None
  }
}
