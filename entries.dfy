/** The loaded rows the dashboard works on: each row's date and its cleaned numeric columns,
  * ordered newest first as `load_data` leaves them. */
module Entries {
  import opened Calendar
  import Ledger

  datatype Entry = Entry(
    date: Date,
    totalSales: real, netProfit: real, payroll: real,
    copies: real, copyUnitCost: real, fixedExpenses: real, copyCost: real,
    hourlyRate: real, marginPct: real, costOfGoods: real)

  /** How a stored record reads back, its numbers unchanged by the round trip through the sheet. */
  function EntryOf(r: Ledger.DailyRecord): Entry {
    Entry(r.date, r.totalSales, r.netProfit, r.payroll, r.copies as real, r.copyUnitCost,
          r.fixedExpenses, r.copyCost, r.hourlyRate, r.marginPct as real, r.costOfGoods)
  }

  /** The identity that links the loaded columns: net profit is sales minus every cost. */
  predicate NetBalanced(e: Entry) {
    e.netProfit == e.totalSales - e.costOfGoods - e.fixedExpenses - e.payroll - e.copyCost
  }

  /** A record derived by the form reads back balanced. */
  lemma StoredRecordBalanced(r: Ledger.DailyRecord)
    requires Ledger.Balanced(r)
    ensures NetBalanced(EntryOf(r))
  {
    Ledger.NetProfitFromSales(r);
  }

  predicate NewestFirst(s: seq<Entry>) {
    forall i, j :: 0 <= i < j < |s| ==> NotAfter(s[j].date, s[i].date)
  }

  /** Putting in front a row no older than any of the rest keeps the order. */
  lemma ConsNewestFirst(x: Entry, s: seq<Entry>)
    requires NewestFirst(s)
    requires forall y :: y in s ==> NotAfter(y.date, x.date)
    ensures NewestFirst([x] + s)
  {
    var r := [x] + s;
    forall i, j | 0 <= i < j < |r|
      ensures NotAfter(r[j].date, r[i].date)
    {
      assert r[j] == s[j - 1];
      if i > 0 {
        assert r[i] == s[i - 1];
      }
    }
  }

  function Insert(e: Entry, s: seq<Entry>): (r: seq<Entry>)
    requires NewestFirst(s)
    ensures NewestFirst(r)
    ensures multiset(r) == multiset(s) + multiset{e}
  {
    if s == [] then [e]
    else if NotAfter(s[0].date, e.date) then
      assert forall y :: y in s ==> NotAfter(y.date, e.date) by {
        forall y | y in s
          ensures NotAfter(y.date, e.date)
        {
          var j :| 0 <= j < |s| && s[j] == y;
        }
      }
      ConsNewestFirst(e, s);
      [e] + s
    else
      var rest := Insert(e, s[1..]);
      assert s == [s[0]] + s[1..];
      assert forall y :: y in rest ==> NotAfter(y.date, s[0].date) by {
        forall y | y in rest
          ensures NotAfter(y.date, s[0].date)
        {
          assert y in multiset(rest);
          if y != e {
            assert y in multiset(s[1..]);
            var j :| 0 <= j < |s[1..]| && s[1..][j] == y;
            assert s[j + 1] == y;
          }
        }
      }
      ConsNewestFirst(s[0], rest);
      [s[0]] + rest
  }

  /** The load's final sort by date, descending: the same rows, newest first. The order among
    * rows of the same date is not specified by pandas' sort; here it is one particular order. */
  function SortNewestFirst(s: seq<Entry>): (r: seq<Entry>)
    ensures NewestFirst(r)
    ensures multiset(r) == multiset(s)
  {
    if s == [] then []
    else
      assert s == [s[0]] + s[1..];
      Insert(s[0], SortNewestFirst(s[1..]))
  }
}
