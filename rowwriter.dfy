/** `save_new_record`: choosing the header row and turning a record into the list of cells
  * appended to the sheet, one per header, in header order. The sheet itself is outside the
  * model: the outcome of reading its first row is a parameter, and the rows appended are
  * the result. */
module RowWriter {
  import opened Wrappers
  import opened Calendar
  import opened Records
  import opened Ledger
  import IsoDate

  /** The cell written for a looked-up value: `""` for a missing key, `YYYY-MM-DD` for a date,
    * the value itself otherwise. No date object reaches the sheet, and a date's text reads
    * back as that date. */
  function Cell(v: Option<Value>): (c: Value)
    requires v.Some? && v.value.Day? ==> IsPyDate(v.value.date)
    ensures !c.Day?
    ensures v.Some? && v.value.Day? ==> c.Text? && IsoDate.Parse(c.text) == Some(v.value.date)
    ensures v.Some? && !v.value.Day? ==> c == v.value
  {
    match v
    case None => Text("")
    case Some(Day(d)) =>
      IsoDate.ParseFormat(d);
      Text(IsoDate.Format(d))
    case Some(other) => other
  }

  /** The row for `headers`: one cell per header, each the record's value under that header. */
  function RowFor(headers: seq<string>, rec: Record): (row: seq<Value>)
    requires WellDated(rec)
    ensures |row| == |headers|
    ensures forall i :: 0 <= i < |headers| ==> row[i] == Cell(Get(rec, headers[i]))
  {
    if headers == [] then []
    else
      [Cell(Get(rec, headers[0]))] + RowFor(headers[1..], rec)
  }

  /** The loop that fills `fila_a_subir`. */
  method BuildRow(headers: seq<string>, rec: Record) returns (row: seq<Value>)
    requires WellDated(rec)
    ensures row == RowFor(headers, rec)
  {
    row := [];
    var i := 0;
    while i < |headers|
      invariant 0 <= i <= |headers|
      invariant row == RowFor(headers[..i], rec)
    {
      var col := headers[i];
      var val := Get(rec, col);
      var cell := Cell(val);
      assert headers[..i + 1] == headers[..i] + [col];
      RowForAppend(headers[..i], [col], rec);
      row := row + [cell];
      i := i + 1;
    }
    assert headers[..i] == headers;
  }

  lemma RowForAppend(a: seq<string>, b: seq<string>, rec: Record)
    requires WellDated(rec)
    ensures RowFor(a + b, rec) == RowFor(a, rec) + RowFor(b, rec)
  {
    var l, r := RowFor(a + b, rec), RowFor(a, rec) + RowFor(b, rec);
    assert |l| == |r|;
    forall i | 0 <= i < |l|
      ensures l[i] == r[i]
    {
      if i < |a| {
        assert (a + b)[i] == a[i];
      } else {
        assert (a + b)[i] == b[i - |a|];
      }
    }
  }

  /** The outcome of `sheet.row_values(1)`: the header cells, or a failure. */
  datatype HeaderRead = Headers(names: seq<string>) | ReadFailed

  /** The headers the row is laid out by: the sheet's own, the default ones for a sheet without
    * a header row, or the record's keys when the sheet could not be read. */
  function ChosenHeaders(read: HeaderRead, rec: Record): (hs: seq<string>)
    ensures read.Headers? ==> hs != [] && (read.names != [] ==> hs == read.names)
    ensures read.Headers? && read.names == [] ==> hs == DEFAULT_HEADERS
    ensures read.ReadFailed? ==> hs == Keys(rec)
  {
    match read
    case Headers(names) => if names == [] then DEFAULT_HEADERS else names
    case ReadFailed => Keys(rec)
  }

  function TextRow(names: seq<string>): (row: seq<Value>)
    ensures |row| == |names| && forall i :: 0 <= i < |names| ==> row[i] == Text(names[i])
  {
    seq(|names|, i requires 0 <= i < |names| => Text(names[i]))
  }

  /** The `try` block that settles the headers: the sheet's first row, or the default names
    * (first written as a header row) when it is empty, or the record's keys when reading fails. */
  method ReadHeaders(read: HeaderRead, rec: Record) returns (headers: seq<string>, written: seq<seq<Value>>)
    ensures headers == ChosenHeaders(read, rec)
    ensures written == if read == Headers([]) then [TextRow(headers)] else []
  {
    written := [];
    match read {
      case Headers(names) =>
        headers := names;
        if headers == [] {
          headers := DEFAULT_HEADERS;
          written := written + [TextRow(headers)];
        }
      case ReadFailed =>
        headers := Keys(rec);
    }
  }

  /** The rows `save_new_record` appends, in order: the default header row first when the sheet
    * has none, then the record's row. */
  method SaveNewRecord(read: HeaderRead, rec: Record) returns (appended: seq<seq<Value>>)
    requires WellDated(rec)
    ensures appended == (if read == Headers([]) then [TextRow(ChosenHeaders(read, rec))] else [])
                        + [RowFor(ChosenHeaders(read, rec), rec)]
  {
    var headers, written := ReadHeaders(read, rec);
    var row := BuildRow(headers, rec);
    appended := written + [row];
  }

  /** When the headers are the record's own keys (the form's record and the default header row,
    * or the fallback to the record's keys), the row is the record's values in order, with no
    * blank cell, and its date cell reads back as the date. */
  lemma RowOfOwnKeys(rec: Record)
    requires WellDated(rec) && Distinct(Keys(rec))
    ensures forall i :: 0 <= i < |rec| ==> RowFor(Keys(rec), rec)[i] == Cell(Some(rec[i].1))
  {
    forall i | 0 <= i < |rec|
      ensures RowFor(Keys(rec), rec)[i] == Cell(Some(rec[i].1))
    {
      GetAt(rec, i);
    }
  }

  /** The row uploaded for a submitted form, whether the sheet had the default header row or
    * none yet: sixteen cells, the date as `YYYY-MM-DD` text that reads back as the date, then
    * every other value of the record in column order. */
  lemma SubmittedRow(r: DailyRecord)
    requires IsPyDate(r.date)
    ensures var rec := RecordDict(r);
      var row := RowFor(DEFAULT_HEADERS, rec);
      |row| == 16
      && row[0] == Text(IsoDate.Format(r.date))
      && IsoDate.Parse(row[0].text) == Some(r.date)
      && forall i :: 1 <= i < 16 ==> row[i] == rec[i].1
  {
    var rec := RecordDict(r);
    assert WellDated(rec);
    DefaultHeadersDistinct();
    RowOfOwnKeys(rec);
    var row := RowFor(DEFAULT_HEADERS, rec);
    assert row[0] == Cell(Some(Day(r.date)));
    forall i | 1 <= i < 16
      ensures row[i] == rec[i].1
    {
      assert row[i] == Cell(Some(rec[i].1));
    }
    IsoDate.ParseFormat(r.date);
  }
}
