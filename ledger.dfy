/** The daily record and the arithmetic that derives its computed fields from the form's
  * inputs when it is submitted. Money is exact: `real` stands for the source's floats. */
module Ledger {
  import opened Wrappers
  import opened Calendar
  import opened Records

  /** What the operator types into the daily form. */
  datatype FormInput = FormInput(
    date: Date,
    cash: real, mercadoPago: real,
    copies: int, copyUnitCost: real,
    staffHours: real, hourlyRate: real,
    fixedExpenses: real,
    marginPct: int,
    notes: string)

  /** One row of the sheet, inputs and derived fields together. */
  datatype DailyRecord = DailyRecord(
    date: Date,
    cash: real, mercadoPago: real, totalSales: real,
    marginPct: int, costOfGoods: real, grossProfit: real,
    fixedExpenses: real, staffHours: real, hourlyRate: real, payroll: real,
    copies: int, copyUnitCost: real, copyCost: real,
    netProfit: real,
    notes: string)

  /** The bookkeeping identities every derived record satisfies. */
  predicate Balanced(r: DailyRecord) {
    && r.totalSales == r.cash + r.mercadoPago
    && r.costOfGoods + r.grossProfit == r.totalSales
    && r.grossProfit == r.totalSales * (r.marginPct as real) / 100.0
    && r.payroll == r.staffHours * r.hourlyRate
    && r.copyCost == (r.copies as real) * r.copyUnitCost
    && r.netProfit == r.grossProfit - r.fixedExpenses - r.payroll - r.copyCost
  }

  /** The inputs a record was derived from. */
  function Inputs(r: DailyRecord): FormInput {
    FormInput(r.date, r.cash, r.mercadoPago, r.copies, r.copyUnitCost,
              r.staffHours, r.hourlyRate, r.fixedExpenses, r.marginPct, r.notes)
  }

  /** The form handler's derivation. The margin is not clamped here: the form's slider keeps
    * it in 10..90, and any integer gives a well-defined result. */
  function Derive(x: FormInput): (r: DailyRecord)
    ensures Balanced(r)
    ensures Inputs(r) == x
  {
    var totalSales := x.cash + x.mercadoPago;
    var costOfGoods := totalSales * (1.0 - (x.marginPct as real) / 100.0);
    var grossProfit := totalSales - costOfGoods;
    var payroll := x.staffHours * x.hourlyRate;
    var copyCost := (x.copies as real) * x.copyUnitCost;
    var netProfit := grossProfit - x.fixedExpenses - payroll - copyCost;
    DailyRecord(x.date, x.cash, x.mercadoPago, totalSales, x.marginPct, costOfGoods, grossProfit,
                x.fixedExpenses, x.staffHours, x.hourlyRate, payroll,
                x.copies, x.copyUnitCost, copyCost, netProfit, x.notes)
  }

  /** The balanced records are exactly the derived ones: re-deriving a balanced record from its
    * own inputs gives it back, so derivation is idempotent. */
  lemma RederiveBalanced(r: DailyRecord)
    requires Balanced(r)
    ensures Derive(Inputs(r)) == r
  {
    var m := (r.marginPct as real) / 100.0;
    assert r.grossProfit == r.totalSales * m;
    assert r.costOfGoods == r.totalSales * (1.0 - m);
  }

  /** Net profit is what is left of the sales after every cost. */
  lemma NetProfitFromSales(r: DailyRecord)
    requires Balanced(r)
    ensures r.netProfit == r.totalSales - r.costOfGoods - r.fixedExpenses - r.payroll - r.copyCost
  {
  }

  /** The sheet's column order, written as the header row when the sheet has none. */
  const DEFAULT_HEADERS: seq<string> := [
    "Fecha", "Venta_Efectivo", "Venta_MP", "Total_Ventas",
    "Margen_Porc", "Costo_Mercaderia", "Ganancia_Bruta",
    "Gastos_Fijos", "Horas_Trabajadas", "Valor_Hora", "Total_Sueldos",
    "Cant_Copias", "Costo_Copia_Unit", "Total_Costo_Copias",
    "Ganancia_Neta", "Notas"]

  /** The dictionary the form handler builds for a record, in its key order. */
  function RecordDict(r: DailyRecord): (rec: Record)
    ensures Keys(rec) == DEFAULT_HEADERS
    ensures rec[0].1 == Day(r.date)
    ensures forall i :: 1 <= i < |rec| ==> !rec[i].1.Day?
  {
    [("Fecha", Day(r.date)),
     ("Venta_Efectivo", Number(r.cash)), ("Venta_MP", Number(r.mercadoPago)),
     ("Total_Ventas", Number(r.totalSales)), ("Margen_Porc", Whole(r.marginPct)),
     ("Costo_Mercaderia", Number(r.costOfGoods)), ("Ganancia_Bruta", Number(r.grossProfit)),
     ("Gastos_Fijos", Number(r.fixedExpenses)), ("Horas_Trabajadas", Number(r.staffHours)),
     ("Valor_Hora", Number(r.hourlyRate)), ("Total_Sueldos", Number(r.payroll)),
     ("Cant_Copias", Whole(r.copies)), ("Costo_Copia_Unit", Number(r.copyUnitCost)),
     ("Total_Costo_Copias", Number(r.copyCost)),
     ("Ganancia_Neta", Number(r.netProfit)), ("Notas", Text(r.notes))]
  }

  /** Looking a header up in the record's dictionary finds the field of that name. */
  lemma RecordDictFields(r: DailyRecord)
    ensures var rec := RecordDict(r);
      Get(rec, "Fecha") == Some(Day(r.date))
      && Get(rec, "Venta_Efectivo") == Some(Number(r.cash))
      && Get(rec, "Venta_MP") == Some(Number(r.mercadoPago))
      && Get(rec, "Total_Ventas") == Some(Number(r.totalSales))
      && Get(rec, "Margen_Porc") == Some(Whole(r.marginPct))
      && Get(rec, "Costo_Mercaderia") == Some(Number(r.costOfGoods))
      && Get(rec, "Ganancia_Bruta") == Some(Number(r.grossProfit))
      && Get(rec, "Gastos_Fijos") == Some(Number(r.fixedExpenses))
      && Get(rec, "Horas_Trabajadas") == Some(Number(r.staffHours))
      && Get(rec, "Valor_Hora") == Some(Number(r.hourlyRate))
      && Get(rec, "Total_Sueldos") == Some(Number(r.payroll))
      && Get(rec, "Cant_Copias") == Some(Whole(r.copies))
      && Get(rec, "Costo_Copia_Unit") == Some(Number(r.copyUnitCost))
      && Get(rec, "Total_Costo_Copias") == Some(Number(r.copyCost))
      && Get(rec, "Ganancia_Neta") == Some(Number(r.netProfit))
      && Get(rec, "Notas") == Some(Text(r.notes))
  {
    var rec := RecordDict(r);
    DefaultHeadersDistinct();
    GetAt(rec, 0); GetAt(rec, 1); GetAt(rec, 2); GetAt(rec, 3);
    GetAt(rec, 4); GetAt(rec, 5); GetAt(rec, 6); GetAt(rec, 7);
    GetAt(rec, 8); GetAt(rec, 9); GetAt(rec, 10); GetAt(rec, 11);
    GetAt(rec, 12); GetAt(rec, 13); GetAt(rec, 14); GetAt(rec, 15);
  }

  lemma DefaultHeadersDistinct()
    ensures Distinct(DEFAULT_HEADERS)
  {
  }
}
