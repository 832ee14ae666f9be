/** The figures the dashboard shows for the selected rows: the totals, and in the billing-cycle
  * view the photocopy bill with its minimum volume. */
module Aggregate {
  import opened Wrappers
  import opened Calendar
  import opened Entries
  import opened Filters

  /** The column sum `df[col].sum()`: a column of non-negative values sums to a non-negative total. */
  function SumOf(rows: seq<Entry>, f: Entry -> real): (s: real)
    ensures (forall e :: e in rows ==> f(e) >= 0.0) ==> s >= 0.0
  {
    if rows == [] then 0.0
    else
      assert forall e :: e in rows[1..] ==> e in rows;
      f(rows[0]) + SumOf(rows[1..], f)
  }

  lemma {:induction false} SumOfAppend(a: seq<Entry>, b: seq<Entry>, f: Entry -> real)
    ensures SumOf(a + b, f) == SumOf(a, f) + SumOf(b, f)
  {
    if a == [] {
      assert a + b == b;
    } else {
      assert (a + b)[1..] == a[1..] + b;
      SumOfAppend(a[1..], b, f);
    }
  }

  /** A sum does not depend on the order of the rows, so sorting or filtering order is irrelevant. */
  lemma {:induction false} SumOfPermutation(a: seq<Entry>, b: seq<Entry>, f: Entry -> real)
    requires multiset(a) == multiset(b)
    ensures SumOf(a, f) == SumOf(b, f)
    decreases |a|
  {
    if a == [] {
      assert |b| == |multiset(b)| == 0;
    } else {
      var x := a[0];
      assert x in multiset(b);
      var j :| 0 <= j < |b| && b[j] == x;
      var rest := b[..j] + b[j + 1..];
      assert b == b[..j] + [x] + b[j + 1..];
      assert a == [x] + a[1..];
      assert multiset(rest) == multiset(b) - multiset{x};
      SumOfPermutation(a[1..], rest, f);
      SumOfRemove(b, j, f);
    }
  }

  /** Taking one row out of a sum takes its value out. */
  lemma SumOfRemove(b: seq<Entry>, j: nat, f: Entry -> real)
    requires j < |b|
    ensures SumOf(b, f) == f(b[j]) + SumOf(b[..j] + b[j + 1..], f)
  {
    var left, x, right := b[..j], b[j], b[j + 1..];
    assert left + [x] == b[..j + 1];
    assert b[..j + 1] + right == b;
    SumOfAppend(left + [x], right, f);
    SumOfAppend(left, [x], f);
    SumOfAppend(left, right, f);
    SumOfSingle(x, f);
  }

  lemma SumOfSingle(x: Entry, f: Entry -> real)
    ensures SumOf([x], f) == f(x)
  {
    assert [x][1..] == [];
  }

  /** The columns the dashboard sums. */
  function NetProfit(e: Entry): real { e.netProfit }
  function Sales(e: Entry): real { e.totalSales }
  function Payroll(e: Entry): real { e.payroll }
  function FixedExpenses(e: Entry): real { e.fixedExpenses }
  function CostOfGoods(e: Entry): real { e.costOfGoods }
  function CopyCost(e: Entry): real { e.copyCost }
  function Copies(e: Entry): real { e.copies }
  function UnitCost(e: Entry): real { e.copyUnitCost }

  datatype Totals = Totals(netProfit: real, sales: real, payroll: real, fixedExpenses: real, copies: real)

  /** The banner and the four metrics: net profit, sales, payroll, fixed expenses and copies.
    * Over rows the form derived, the banner is the sales metric minus every summed cost. */
  function TotalsOf(rows: seq<Entry>): (t: Totals)
    ensures (forall e :: e in rows ==> NetBalanced(e)) ==>
      t.netProfit == t.sales - SumOf(rows, CostOfGoods) - t.fixedExpenses - t.payroll - SumOf(rows, CopyCost)
  {
    var t := Totals(SumOf(rows, NetProfit), SumOf(rows, Sales), SumOf(rows, Payroll),
                    SumOf(rows, FixedExpenses), SumOf(rows, Copies));
    assert (forall e :: e in rows ==> NetBalanced(e)) ==>
      t.netProfit == t.sales - SumOf(rows, CostOfGoods) - t.fixedExpenses - t.payroll - SumOf(rows, CopyCost) by {
      if forall e :: e in rows ==> NetBalanced(e) {
        BalancedTotals(rows);
      }
    }
    t
  }

  /** The totals of the same rows in another order are the same totals. */
  lemma TotalsOrderIndependent(a: seq<Entry>, b: seq<Entry>)
    requires multiset(a) == multiset(b)
    ensures TotalsOf(a) == TotalsOf(b)
  {
    SumOfPermutation(a, b, NetProfit);
    SumOfPermutation(a, b, Sales);
    SumOfPermutation(a, b, Payroll);
    SumOfPermutation(a, b, FixedExpenses);
    SumOfPermutation(a, b, Copies);
  }

  /** Over rows the form derived, the net-profit sum equals total sales minus the summed costs. */
  lemma {:induction false} BalancedTotals(rows: seq<Entry>)
    requires forall e :: e in rows ==> NetBalanced(e)
    ensures SumOf(rows, NetProfit) == SumOf(rows, Sales) - SumOf(rows, CostOfGoods)
      - SumOf(rows, FixedExpenses) - SumOf(rows, Payroll) - SumOf(rows, CopyCost)
  {
    if rows != [] {
      assert rows[0] in rows;
      BalancedTotals(rows[1..]);
    }
  }

  /** The monthly volume the copy service is paid for at least. */
  const MINIMUM_COPIES: real := 20000.0

  /** The plain mean of the unit cost over the rows, used only when some copies were made
    * (otherwise 0): it is not weighted by each row's copies. */
  function AverageUnitCost(rows: seq<Entry>): (avg: real)
    ensures SumOf(rows, Copies) > 0.0 ==> |rows| > 0 && avg * (|rows| as real) == SumOf(rows, UnitCost)
    ensures SumOf(rows, Copies) <= 0.0 ==> avg == 0.0
  {
    if SumOf(rows, Copies) > 0.0 then
      assert rows != [];
      SumOf(rows, UnitCost) / (|rows| as real)
    else 0.0
  }

  /** The copy bill: below the minimum volume the minimum is charged and the shortfall shown,
    * otherwise the copies made are charged and the target is met. */
  datatype Billing = MinimumCharge(amount: real, shortfall: real) | UsageCharge(amount: real)

  function Bill(rows: seq<Entry>): (b: Billing)
    ensures b.MinimumCharge? <==> SumOf(rows, Copies) < MINIMUM_COPIES
    ensures b.MinimumCharge? ==> b.shortfall == MINIMUM_COPIES - SumOf(rows, Copies) > 0.0
    ensures b.amount == (if SumOf(rows, Copies) < MINIMUM_COPIES then MINIMUM_COPIES else SumOf(rows, Copies))
                        * AverageUnitCost(rows)
  {
    var total := SumOf(rows, Copies);
    var avg := AverageUnitCost(rows);
    if total < MINIMUM_COPIES then MinimumCharge(MINIMUM_COPIES * avg, MINIMUM_COPIES - total)
    else UsageCharge(total * avg)
  }

  /** With no copies made the bill is the minimum tier at zero: the mean is never taken. */
  lemma BillWithoutCopies(rows: seq<Entry>)
    requires SumOf(rows, Copies) <= 0.0
    ensures Bill(rows) == MinimumCharge(0.0, MINIMUM_COPIES - SumOf(rows, Copies))
  {
  }

  /** With non-negative unit costs the bill is never less than the copies made at the mean
    * cost, nor less than the minimum volume at that cost. */
  lemma BillCoversUsage(rows: seq<Entry>)
    requires forall e :: e in rows ==> e.copyUnitCost >= 0.0
    ensures var total, avg := SumOf(rows, Copies), AverageUnitCost(rows);
      Bill(rows).amount >= total * avg && Bill(rows).amount >= MINIMUM_COPIES * avg
  {
    MeanNonNegative(rows);
    ChargeCovers(SumOf(rows, Copies), AverageUnitCost(rows), Bill(rows).amount);
  }

  /** The charged volume is at least the copies made and at least the minimum, so at a
    * non-negative price the charge covers both. */
  lemma ChargeCovers(total: real, avg: real, amount: real)
    requires avg >= 0.0
    requires amount == (if total < MINIMUM_COPIES then MINIMUM_COPIES else total) * avg
    ensures amount >= total * avg && amount >= MINIMUM_COPIES * avg
  {
    var volume := if total < MINIMUM_COPIES then MINIMUM_COPIES else total;
    ScaleAtLeast(volume, total, avg);
    ScaleAtLeast(volume, MINIMUM_COPIES, avg);
  }

  /** Multiplying by a non-negative factor keeps the order. */
  lemma ScaleAtLeast(x: real, y: real, c: real)
    requires x >= y && c >= 0.0
    ensures x * c >= y * c
  {
    MulNonNegative(x - y, c);
    assert (x - y) * c == x * c - y * c;
  }

  lemma MulNonNegative(a: real, b: real)
    requires a >= 0.0 && b >= 0.0
    ensures a * b >= 0.0
  {
  }

  lemma MeanNonNegative(rows: seq<Entry>)
    requires forall e :: e in rows ==> e.copyUnitCost >= 0.0
    ensures AverageUnitCost(rows) >= 0.0
  {
    assert forall e :: e in rows ==> UnitCost(e) >= 0.0;
    var s := SumOf(rows, UnitCost);
    if SumOf(rows, Copies) > 0.0 {
      var n := |rows| as real;
      assert s >= 0.0 && n > 0.0;
      assert AverageUnitCost(rows) == s / n;
    }
  }

  /** The bill of the same rows in another order is the same bill. */
  lemma BillOrderIndependent(a: seq<Entry>, b: seq<Entry>)
    requires multiset(a) == multiset(b)
    ensures Bill(a) == Bill(b)
  {
    SumOfPermutation(a, b, Copies);
    SumOfPermutation(a, b, UnitCost);
    assert |a| == |multiset(a)| == |b|;
  }

  function CopyRow(d: Date, copies: real, unitCost: real): Entry {
    Entry(d, 0.0, 0.0, 0.0, copies, unitCost, 0.0, 0.0, 0.0, 0.0, 0.0)
  }

  /** The two tiers on sample months: 15,000 copies at 10 are billed 200,000 with 5,000 missing;
    * 25,000 copies at 10 are billed 250,000 and meet the target. */
  lemma BillSamples(d: Date)
    ensures Bill([CopyRow(d, 15000.0, 10.0)]) == MinimumCharge(200000.0, 5000.0)
    ensures Bill([CopyRow(d, 10000.0, 10.0), CopyRow(d, 15000.0, 10.0)]) == UsageCharge(250000.0)
  {
    var low := [CopyRow(d, 15000.0, 10.0)];
    assert low[1..] == [];
    var high := [CopyRow(d, 10000.0, 10.0), CopyRow(d, 15000.0, 10.0)];
    assert high[1..] == [CopyRow(d, 15000.0, 10.0)];
    assert high[1..][1..] == [];
    assert SumOf(high[1..], Copies) == 15000.0;
    assert SumOf(high, Copies) == 25000.0;
    assert SumOf(high[1..], UnitCost) == 10.0;
    assert SumOf(high, UnitCost) == 20.0;
  }

  datatype Summary = Summary(totals: Totals, billing: Option<Billing>)

  /** What the page shows for the selected rows: nothing for an empty selection ("No hay datos"),
    * otherwise the totals, and the copy bill only in the billing-cycle view. */
  function Summarise(rows: seq<Entry>, cycleView: bool): (r: Option<Summary>)
    ensures r.None? <==> rows == []
    ensures r.Some? ==> r.value.totals == TotalsOf(rows)
    ensures r.Some? ==> (r.value.billing.Some? <==> cycleView)
    ensures r.Some? && cycleView ==> r.value.billing == Some(Bill(rows))
  {
    if rows == [] then None
    else Some(Summary(TotalsOf(rows), if cycleView then Some(Bill(rows)) else None))
  }

  /** The whole dashboard below the form. */
  datatype Page = EmptySheet | Aborted | NoData(rangeError: bool) | Report(summary: Summary)

  /** The page for a non-empty sheet: it aborts exactly where the filter does; otherwise it
    * shows "no data" exactly when the filter keeps no row, and else the totals of the rows
    * kept, with the bill of those rows exactly in the cycle view. */
  function Dashboard(rows: seq<Entry>, choice: Choice, today: Date): (p: Page)
    requires AllPyDates(rows) && IsPyDate(today)
    ensures rows == [] <==> p.EmptySheet?
    ensures rows != [] ==> (p.Aborted? <==> ApplyFilter(rows, choice, today).None?)
    ensures p.NoData? ==> var f := ApplyFilter(rows, choice, today).value;
      f.rows == [] && p.rangeError == f.rangeError
    ensures p.Report? ==> var f := ApplyFilter(rows, choice, today).value;
      f.rows != [] && p.summary.totals == TotalsOf(f.rows)
    ensures p.Report? ==> (p.summary.billing.Some? <==> choice.Cycle?)
    ensures p.Report? && choice.Cycle? ==> p.summary.billing == Some(Bill(ApplyFilter(rows, choice, today).value.rows))
    ensures p.Aborted? ==> !choice.Today?
    ensures rows != [] && choice.CustomRange? && Precedes(choice.to, choice.from) && Ordinal(today) > 30 ==>
      p == NoData(true)
  {
    if rows == [] then EmptySheet
    else
      match ApplyFilter(rows, choice, today)
      case None => Aborted
      case Some(Filtered(kept, rangeError)) =>
        match Summarise(kept, choice.Cycle?)
        case None => NoData(rangeError)
        case Some(s) => Report(s)
  }

  /** In the cycle view, a period picked from the selector always shows a report with its bill. */
  lemma MenuCycleReports(rows: seq<Entry>, key: string, today: Date)
    requires AllPyDates(rows) && IsPyDate(today) && key in CycleMenu(rows)
    requires !Dashboard(rows, Cycle(key), today).Aborted?
    ensures Dashboard(rows, Cycle(key), today).Report?
    ensures Dashboard(rows, Cycle(key), today).summary.billing.Some?
  {
    MenuKeySelectsRows(rows, key);
  }
}
