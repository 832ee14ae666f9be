/** `load_data`: the table read from the sheet, its date column parsed and its numeric columns
  * cleaned in place, column by column. */
module Loader {
  import opened Wrappers
  import opened Calendar
  import opened Records
  import opened Ledger
  import opened Normaliser
  import IsoDate

  /** A column of the table: raw text as read, numbers after cleaning, or parsed dates. */
  datatype Column = TextColumn(cells: seq<string>) | NumberColumn(values: seq<real>) | DateColumn(dates: seq<Date>)

  function Height(c: Column): nat {
    match c
    case TextColumn(cells) => |cells|
    case NumberColumn(values) => |values|
    case DateColumn(dates) => |dates|
  }

  /** The columns cleaned as numbers, in the order they are processed. */
  const NUMERIC_COLUMNS: seq<string> := [
    "Total_Ventas", "Ganancia_Neta", "Total_Sueldos", "Cant_Copias",
    "Costo_Copia_Unit", "Gastos_Fijos", "Total_Costo_Copias",
    "Valor_Hora", "Margen_Porc", "Costo_Mercaderia"]

  const DATE_COLUMN: string := "Fecha"

  lemma DateColumnNotNumeric()
    ensures DATE_COLUMN !in NUMERIC_COLUMNS
  {
    forall i | 0 <= i < |NUMERIC_COLUMNS|
      ensures NUMERIC_COLUMNS[i] != DATE_COLUMN
    {
      assert NUMERIC_COLUMNS[i][0] != 'F';
    }
  }

  /** One numeric column after `astype(str)`, the removal of `$` and `,`, and `to_numeric` with
    * NaN replaced by 0. A column that already holds numbers keeps them (the text of a number
    * reads back as that number); a column of dates becomes all zeros (the text of a timestamp
    * is not a number). */
  function NormaliseColumn(c: Column): (r: Column)
    ensures r.NumberColumn? && Height(r) == Height(c)
    ensures c.TextColumn? ==> forall i :: 0 <= i < |c.cells| ==> r.values[i] == NormaliseCell(c.cells[i])
    ensures c.NumberColumn? ==> r == c
    ensures c.DateColumn? ==> forall i :: 0 <= i < |c.dates| ==> r.values[i] == 0.0
  {
    match c
    case TextColumn(cells) => NumberColumn(seq(|cells|, i requires 0 <= i < |cells| => NormaliseCell(cells[i])))
    case NumberColumn(values) => c
    case DateColumn(dates) => NumberColumn(seq(|dates|, i => 0.0))
  }

  /** Cleaning a column twice is cleaning it once, so reloading a cleaned table changes nothing. */
  lemma NormaliseColumnIdempotent(c: Column)
    ensures NormaliseColumn(NormaliseColumn(c)) == NormaliseColumn(c)
  {
  }

  /** `pd.to_datetime` on a column of `YYYY-MM-DD` cells: every cell parsed, or None where one
    * does not parse (the load fails). */
  function ParseDateCells(cells: seq<string>): (r: Option<seq<Date>>)
    ensures r.Some? <==> forall i :: 0 <= i < |cells| ==> IsoDate.Parse(cells[i]).Some?
    ensures r.Some? ==> |r.value| == |cells|
    ensures r.Some? ==> forall i :: 0 <= i < |cells| ==> Some(r.value[i]) == IsoDate.Parse(cells[i])
  {
    if cells == [] then Some([])
    else
      match (IsoDate.Parse(cells[0]), ParseDateCells(cells[1..]))
      case (Some(d), Some(ds)) =>
        assert forall i :: 1 <= i < |cells| ==> cells[i] == cells[1..][i - 1];
        Some([d] + ds)
      case (None, _) => None
      case (_, None) =>
        assert forall i :: 0 <= i < |cells| - 1 ==> cells[1..][i] == cells[i + 1];
        None
  }

  /** The cells of column `j`, one per record. */
  function ColumnCells(records: seq<seq<string>>, j: nat): (cells: seq<string>)
    requires forall r :: r in records ==> j < |r|
    ensures |cells| == |records|
    ensures forall i :: 0 <= i < |records| ==> cells[i] == records[i][j]
  {
    seq(|records|, i requires 0 <= i < |records| => records[i][j])
  }

  function IndexOf(names: seq<string>, name: string): (j: nat)
    requires name in names
    ensures j < |names| && names[j] == name
  {
    if names[0] == name then 0 else 1 + IndexOf(names[1..], name)
  }

  /** The table as read: column `header[j]` holds the j-th cell of every record. */
  function RawColumns(header: seq<string>, records: seq<seq<string>>): (cols: map<string, Column>)
    requires Distinct(header)
    requires forall r :: r in records ==> |r| == |header|
    ensures forall k :: k in cols <==> k in header
    ensures forall k :: k in cols ==> cols[k].TextColumn?
    ensures forall j :: 0 <= j < |header| ==> cols[header[j]] == TextColumn(ColumnCells(records, j))
  {
    var cols := map k | k in header :: TextColumn(ColumnCells(records, IndexOf(header, k)));
    forall j | 0 <= j < |header|
      ensures IndexOf(header, header[j]) == j
    {
      var j' := IndexOf(header, header[j]);
      assert header[j'] == header[j];
    }
    cols
  }

  class Frame {
    /** `df.columns`, in order. */
    var names: seq<string>
    var columns: map<string, Column>
    /** The number of rows. */
    var height: nat

    ghost predicate Valid()
      reads this
    {
      && (forall k :: k in columns <==> k in names)
      && (forall k :: k in columns ==> Height(columns[k]) == height)
    }

    /** The table built from the sheet's records, or the empty table with the sheet's sixteen
      * columns when the sheet has no records. The sheet library hands over one cell per header
      * for every record and refuses a header row with repeated names. */
    constructor FromRecords(header: seq<string>, records: seq<seq<string>>)
      requires Distinct(header)
      requires forall r :: r in records ==> |r| == |header|
      ensures Valid()
      ensures records == [] ==> names == DEFAULT_HEADERS && height == 0
      ensures records == [] ==> forall k :: k in columns ==> columns[k] == TextColumn([])
      ensures records != [] ==> names == header && height == |records|
      ensures records != [] ==> columns == RawColumns(header, records)
    {
      if records == [] {
        names := DEFAULT_HEADERS;
        var cols := map k | k in DEFAULT_HEADERS :: TextColumn([]);
        assert forall k :: k in cols ==> Height(cols[k]) == 0;
        columns := cols;
        height := 0;
      } else {
        names := header;
        var cols := RawColumns(header, records);
        assert forall k :: k in cols ==> Height(cols[k]) == |records|;
        columns := cols;
        height := |records|;
      }
    }

    /** The `Fecha` column converted to dates when the table has it; false where a cell
      * is not a date, which aborts the load. */
    method ParseDates() returns (ok: bool)
      requires Valid()
      requires DATE_COLUMN in columns ==> columns[DATE_COLUMN].TextColumn?
      modifies this
      ensures Valid() && names == old(names) && height == old(height)
      ensures DATE_COLUMN !in old(columns) ==> ok && columns == old(columns)
      ensures DATE_COLUMN in old(columns) ==>
        var parsed := ParseDateCells(old(columns)[DATE_COLUMN].cells);
        ok == parsed.Some?
        && (ok ==> columns == old(columns)[DATE_COLUMN := DateColumn(parsed.value)])
      ensures !ok ==> columns == old(columns)
    {
      ok := true;
      if DATE_COLUMN in columns {
        var parsed := ParseDateCells(columns[DATE_COLUMN].cells);
        if parsed.Some? {
          columns := columns[DATE_COLUMN := DateColumn(parsed.value)];
        } else {
          ok := false;
        }
      }
    }

    /** The loop over the numeric columns: each one present is replaced by its cleaned version;
      * the other columns, the column order and the row count are unchanged. */
    method NormaliseNumeric()
      requires Valid()
      modifies this
      ensures Valid() && names == old(names) && height == old(height)
      ensures columns == Cleaned(old(columns), NUMERIC_COLUMNS)
    {
      for n := 0 to |NUMERIC_COLUMNS|
        invariant Valid() && names == old(names) && height == old(height)
        invariant columns == Cleaned(old(columns), NUMERIC_COLUMNS[..n])
      {
        var col := NUMERIC_COLUMNS[n];
        assert NUMERIC_COLUMNS[..n + 1] == NUMERIC_COLUMNS[..n] + [col];
        CleanedStep(old(columns), NUMERIC_COLUMNS[..n], col);
        if col in columns {
          columns := columns[col := NormaliseColumn(columns[col])];
        }
      }
      assert NUMERIC_COLUMNS[..|NUMERIC_COLUMNS|] == NUMERIC_COLUMNS;
    }

    /** The steps after reading a sheet with records: the dates parsed, then the numeric columns
      * cleaned; false where a date does not parse or, after cleaning, where there is no `Fecha`
      * column to sort by (a KeyError). */
    method ParseAndClean() returns (ok: bool)
      requires Valid()
      requires DATE_COLUMN in columns ==> columns[DATE_COLUMN].TextColumn?
      modifies this
      ensures Valid() && names == old(names) && height == old(height)
      ensures ok <==> Loaded(old(columns)).Some?
      ensures ok ==> columns == Loaded(old(columns)).value
    {
      if DATE_COLUMN in columns {
        ok := ParseDates();
        if ok {
          NormaliseNumeric();
        }
      } else {
        NormaliseNumeric();
        ok := false;
      }
    }
  }

  /** The table's columns with those named in `names` cleaned and every other left as it is. */
  function Cleaned(columns: map<string, Column>, names: seq<string>): (r: map<string, Column>)
    ensures r.Keys == columns.Keys
    ensures forall k :: k in r ==> Height(r[k]) == Height(columns[k])
    ensures forall k :: k in r ==> r[k] == if k in names then NormaliseColumn(columns[k]) else columns[k]
  {
    map k | k in columns :: if k in names then NormaliseColumn(columns[k]) else columns[k]
  }

  /** Cleaning one more column is one update of the map; a name met twice changes nothing more,
    * since cleaning is idempotent. */
  lemma CleanedStep(columns: map<string, Column>, names: seq<string>, col: string)
    ensures var c := Cleaned(columns, names);
      Cleaned(columns, names + [col]) == if col in c then c[col := NormaliseColumn(c[col])] else c
  {
    var c := Cleaned(columns, names);
    if col in c {
      NormaliseColumnIdempotent(columns[col]);
    }
    var l, r := Cleaned(columns, names + [col]), if col in c then c[col := NormaliseColumn(c[col])] else c;
    assert l.Keys == r.Keys;
    forall k | k in l
      ensures l[k] == r[k]
    {
      assert k in names + [col] <==> k in names || k == col;
    }
  }

  /** The columns `load_data` leaves from the table as read, or None where it raises: where a
    * `Fecha` cell is not a date, or where there is no `Fecha` column to sort by. */
  function Loaded(raw: map<string, Column>): (r: Option<map<string, Column>>)
    requires DATE_COLUMN in raw ==> raw[DATE_COLUMN].TextColumn?
  {
    if DATE_COLUMN !in raw then None
    else
      match ParseDateCells(raw[DATE_COLUMN].cells)
      case None => None
      case Some(dates) => Some(Cleaned(raw[DATE_COLUMN := DateColumn(dates)], NUMERIC_COLUMNS))
  }

  /** A load of a sheet with records fails exactly when there is no `Fecha` column or one of
    * its cells is not a date. */
  lemma LoadFails(header: seq<string>, records: seq<seq<string>>)
    requires Distinct(header)
    requires forall r :: r in records ==> |r| == |header|
    ensures Loaded(RawColumns(header, records)).Some? <==>
      DATE_COLUMN in header && ParseDateCells(ColumnCells(records, IndexOf(header, DATE_COLUMN))).Some?
  {
    var raw := RawColumns(header, records);
    LoadedSome(raw);
    if DATE_COLUMN in header {
      assert raw[DATE_COLUMN] == raw[header[IndexOf(header, DATE_COLUMN)]];
    }
  }

  lemma LoadedSome(raw: map<string, Column>)
    requires DATE_COLUMN in raw ==> raw[DATE_COLUMN].TextColumn?
    ensures Loaded(raw).Some? <==> DATE_COLUMN in raw && ParseDateCells(raw[DATE_COLUMN].cells).Some?
  {
  }

  /** What a successful load leaves in column `header[j]`: the parsed dates for `Fecha`, the
    * cleaned cells for a numeric column, and the cells as read for any other. */
  lemma LoadedColumn(header: seq<string>, records: seq<seq<string>>, j: nat)
    requires Distinct(header)
    requires forall r :: r in records ==> |r| == |header|
    requires j < |header| && Loaded(RawColumns(header, records)).Some?
    ensures var cols, cells := Loaded(RawColumns(header, records)).value, ColumnCells(records, j);
      && header[j] in cols
      && (header[j] == DATE_COLUMN ==> cols[header[j]].DateColumn? && ParseDateCells(cells) == Some(cols[header[j]].dates))
      && (header[j] in NUMERIC_COLUMNS ==> cols[header[j]] == NormaliseColumn(TextColumn(cells)))
      && (header[j] != DATE_COLUMN && header[j] !in NUMERIC_COLUMNS ==> cols[header[j]] == TextColumn(cells))
  {
    DateColumnNotNumeric();
    var raw := RawColumns(header, records);
    assert raw[header[j]] == TextColumn(ColumnCells(records, j));
  }

  /** `load_data`: build the table, and unless the sheet was empty parse the dates, clean the
    * numeric columns and sort by `Fecha`. `ok` is false where `load_data` raises. */
  method LoadData(header: seq<string>, records: seq<seq<string>>) returns (frame: Frame, ok: bool)
    requires Distinct(header)
    requires forall r :: r in records ==> |r| == |header|
    ensures fresh(frame) && frame.Valid()
    ensures records == [] ==> ok && frame.names == DEFAULT_HEADERS && frame.height == 0
    ensures records == [] ==> forall k :: k in frame.columns ==> frame.columns[k] == TextColumn([])
    ensures records != [] ==> (ok <==> Loaded(RawColumns(header, records)).Some?)
    ensures records != [] && ok ==> frame.names == header && frame.height == |records|
    ensures records != [] && ok ==> frame.columns == Loaded(RawColumns(header, records)).value
  {
    frame := new Frame.FromRecords(header, records);
    ok := true;
    if records != [] {
      ok := frame.ParseAndClean();
    }
  }
}
