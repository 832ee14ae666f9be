# Bookkeeping engine of the La Profe stationery-shop dashboard

A small shop keeps one row per day in a spreadsheet: cash and Mercado Pago sales, the
margin, the staff hours, fixed expenses and the photocopies made. A web dashboard
(`app.py`) derives the profit figures of a day when the operator submits the daily form,
appends the row to the sheet, loads the sheet back, filters it by period and totals it.
It also bills the photocopy service. That service is paid for a minimum of 20,000 copies
per billing cycle, and each cycle closes on the 21st of the month.

This project models that engine in Dafny and proves what it promises:

- **Calendar** (`calendar.dfy`, `isodate.dfy`): proleptic Gregorian dates and day
  ordinals numbered like Python's `toordinal`.
  - `date + timedelta` is modelled, including the `OverflowError` outside years 1..9999,
    which becomes `None`.
  - Dates are written and read in the `YYYY-MM-DD` full-date form of section 5.6 of
    RFC 3339.
- **Billing cycle** (`fiscal.dfy`): `get_periodo_copia`.
  - A day up to the 21st belongs to its own month's cycle.
  - A later day is moved to the 28th and four days are added. That always lands on day
    1..4 of the next month, with December rolling over to January of the next year.
  - Cycle `p` is therefore the window from the 22nd of the previous month to the 21st of
    `p`'s month.
- **Loading and numeric cleaning** (`normaliser.dfy`, `loader.dfy`):
  - Every `$` and `,` is removed and the rest is read as a decimal number: an optional `-`
    or `+`, then digits with at most one point among them and at least one digit.
  - What does not read as one (letters, a second point, no digit at all) becomes 0, never
    an error.
  - The load loop replaces each numeric column of the table in place.
  - The load fails where a `Fecha` cell is not a `YYYY-MM-DD` date, and where a sheet with records has
    no `Fecha` column at all: the final sort by date then raises.
- **Derivation and row writing** (`ledger.dfy`, `records.dfy`, `rowwriter.dfy`):
  - The form's arithmetic satisfies the bookkeeping identities.
  - The row appended to the sheet has one cell per header, in header order: `""` for a
    missing key, and `YYYY-MM-DD` text for the date.
  - A sheet without a header row first receives the default sixteen headers.
- **Dashboard** (`entries.dfy`, `filters.dfy`, `aggregate.dfy`):
  - The rows are sorted newest first.
  - Four period filters: today; the last week, which is eight calendar days inclusive
    although the page titles it "últimos 7 días"; a custom range, where an inverted range
    selects nothing and is reported; and a billing cycle.
  - Date arithmetic can abort the page: today − 7 for the last week, today − 30 for the
    custom range's default start, and the cycle of a date in late December 9999.
  - Column totals are shown.
  - The two-tier copy bill applies. Below 20,000 copies the minimum is charged at the mean
    unit cost and the shortfall is reported. Otherwise the copies made are charged at that
    cost.
  - The mean is taken only when some copies were made; otherwise it is 0.

Money is exact `real` arithmetic, so the profit identities hold exactly.

The sheet is outside the model:
- reading its first row is a parameter of `RowWriter.SaveNewRecord`, which returns the
  rows it would append;
- `Loader.LoadData` receives the header and the records as text;
- today's date and the user's filter choice are parameters of `Aggregate.Dashboard`.

## Model

| member | source | states |
|---|---|---|
| Calendar.OrdinalOrder | app.py:233 | comparing two dates is comparing their day ordinals, and equal ordinals mean the same date |
| Calendar.ShiftOrdinal | app.py:101 | moving a date by n days moves its ordinal by exactly n |
| Calendar.PyDateRange | app.py:232 | the dates Python can hold are exactly those with ordinal 1..toordinal(9999-12-31) |
| Calendar.AddDays | app.py:101 | `date + timedelta(days=n)` yields only dates Python can hold; Calendar.AddDaysOrdinal states exactly when it fails and where it lands |
| Calendar.AddDaysOrdinal | app.py:101 | `date + timedelta(days=n)` succeeds exactly when the resulting ordinal is in Python's range, and then moves the ordinal by n |
| IsoDate.Format | app.py:84-85 | the written date is ten characters with dashes at positions 4 and 7 |
| IsoDate.Parse | app.py:52 | only a real date in years 1..9999 is accepted |
| IsoDate.ParseFormat | app.py:84-85 | a date written as `YYYY-MM-DD` reads back as the same date |
| IsoDate.FormatParse | app.py:52 | every accepted text is exactly the writer's text for the date it yields (the form is canonical) |
| Fiscal.ClosingCycle | app.py:99-104 | the cycle of a date is a valid year-month |
| Fiscal.RolloverLandsEarly | app.py:100-101 | the 28th plus four days is day 32 minus the month length, always in 1..4, in the following month (January of the next year after December) |
| Fiscal.ClosingCycleCases | app.py:99-104 | day ≤ 21 gives the date's own month; a later day gives the next month; Python raises for 22..31 December 9999 (out of reach of the pandas timestamps the dashboard passes in, which end in 2262) |
| Fiscal.CycleWindow | app.py:99-104 | a date is in cycle p exactly when it lies from the 22nd of the previous month to the 21st of p's month, both included |
| Fiscal.PeriodKey | app.py:102-104 | the key is the four-digit year, a dash, the two-digit month and ` (Cierre 21)`: the digits read back as the cycle's year and month |
| Fiscal.PeriodKeyInjective | app.py:102-104 | two cycles have the same key exactly when they are the same cycle |
| Fiscal.CycleKey | app.py:99-104 | a date has a key exactly when its cycle can be computed |
| Normaliser.StripCurrency | app.py:60 | no `$` or `,` is left, and the text never grows |
| Normaliser.StripCurrencyKeepsOthers | app.py:60 | every other character is kept as often as it occurred |
| Normaliser.StripCurrencyAppend | app.py:60 | stripping works piece by piece and keeps the order of what it keeps |
| Normaliser.StripCurrencyKeeps | app.py:60 | text without `$` and `,` is unchanged, so stripping twice is stripping once |
| Normaliser.ParseNumber | app.py:61 | `to_numeric` reads a number only from text that has a digit |
| Normaliser.ParseNumberAccepts | app.py:61 | `to_numeric` reads a number exactly from the decimal texts (`IsDecimal`: an optional `-` or `+`, digits with at most one point, at least one digit); every other text, `12abc` and `1.2.3` among them, is NaN |
| Normaliser.ParseUnsignedAccepts | app.py:61 | the unsigned part is read exactly when it is digits with at most one point and at least one digit |
| Normaliser.NormaliseCell | app.py:60-61 | after `$` and `,` are removed, a cell that is not a decimal text loads as 0 (NaN filled with 0) and a decimal text loads as the number it reads as; a cell without a digit loads as 0 |
| Normaliser.ParseDecimal | app.py:61 | any sign (none, `-`, `+`), whole digits, a point and fraction digits, of any lengths with a digit on one side, read as `DecimalValue(whole, fraction)`, negated for `-` |
| Normaliser.DecimalValue | app.py:61 | the value of `whole.fraction` is the whole part plus the fraction's digits over ten to their number (`Shifted`), so `12.5` is 12 + 5/10 and `12.05` is 12 + 5/100 |
| Normaliser.FractionValue | app.py:61 | the fraction read from the digits after the point is their value over ten to their number (`Shifted`) |
| Normaliser.StrippedDigit | app.py:60 | a digit left after removing `$` and `,` was already in the cell |
| Normaliser.ParseInteger | app.py:61 | a digit string with no sign, `-` or `+` reads as its integer value, negated for `-` |
| Normaliser.ParseWithCents | app.py:61 | digits, a point and two more digits read as the whole part plus the two digits over 100 |
| Normaliser.StripGrouped | app.py:60 | removing the thousands commas from a grouped number leaves digits worth that number |
| Normaliser.NormaliseDisplayedAmount | app.py:60-61 | a whole amount in the dashboard's `$-1,234` form loads as that amount |
| Normaliser.NormaliseCurrencyWithCents | app.py:60-61 | `$1,234.56`-style text loads as the amount with its cents |
| Normaliser.NormaliseCurrencySample | app.py:60-61 | the cell `$1,234.00` loads as 1234 |
| Normaliser.NormaliseTextSamples | app.py:61 | the cells `abc` and `""` load as 0 |
| Normaliser.NormaliseLettersSample | app.py:61 | the cell `12abc`, which has digits but also letters, loads as 0 |
| Normaliser.NormaliseTwoPointsSample | app.py:61 | the cell `1.2.3` loads as 0 |
| Records.Get | app.py:83 | a lookup finds nothing exactly when the key is absent, and otherwise finds a value stored under that key |
| Records.GetAt | app.py:83 | with distinct keys, looking up the i-th key finds the i-th value |
| Ledger.Derive | app.py:179-184 | the derived record satisfies every identity (total = cash + Mercado Pago; cost of goods + gross = total; gross = total × margin/100; payroll = hours × rate; copy cost = copies × unit cost; net = gross − fixed − payroll − copy cost) and keeps the inputs unchanged |
| Ledger.RederiveBalanced | app.py:179-184 | re-deriving a balanced record from its own inputs gives it back, so the balanced records are exactly the derived ones |
| Ledger.NetProfitFromSales | app.py:184 | net profit is sales minus cost of goods, fixed expenses, payroll and copy cost |
| Ledger.RecordDict | app.py:186-196 | the record's keys are the sixteen default headers in order, with the date first and no other date |
| Ledger.RecordDictFields | app.py:186-196 | looking each of the sixteen headers up finds the field of that name: the date under `Fecha`, cash under `Venta_Efectivo`, …, the notes under `Notas` |
| Ledger.DefaultHeadersDistinct | app.py:70-76 | the default header row has no repeated name |
| RowWriter.RowFor | app.py:81-86 | one cell per header; cell i is the record's value under header i, `""` when absent, the `YYYY-MM-DD` text for a date |
| RowWriter.Cell | app.py:83-86 | a missing value is written as `""`, a date as text that reads back as that date, and any other value as it is; no cell is left a date |
| RowWriter.BuildRow | app.py:81-86 | the loop builds exactly that row |
| RowWriter.RowForAppend | app.py:82-86 | the row for a concatenation of header lists is the concatenation of their rows |
| RowWriter.TextRow | app.py:77 | the header row written is one text cell per default header, in order |
| RowWriter.ReadHeaders | app.py:67-79 | the headers are the sheet's first row; the sixteen default names, first written as a header row, when that row is empty; the record's keys when reading fails |
| RowWriter.ChosenHeaders | app.py:67-79 | the sheet's first row when it has one, the sixteen default headers when it is empty, and the record's keys when reading fails |
| RowWriter.SaveNewRecord | app.py:65-88 | the rows appended are the default header row (only when the sheet had none) followed by the record's row laid out by the chosen headers |
| RowWriter.RowOfOwnKeys | app.py:79-86 | laid out by its own keys, the row is the record's values in order with no blank cell |
| RowWriter.SubmittedRow | app.py:81-86 | a submitted form yields sixteen cells: the date as text that reads back as the date, then every other value in column order |
| Loader.DateColumnNotNumeric | app.py:51-56 | the date column is not one of the cleaned numeric columns |
| Loader.NormaliseColumn | app.py:59-61 | a cleaned column has the same height and holds numbers: each raw cell cleaned, numbers kept, dates turned to 0 |
| Loader.NormaliseColumnIdempotent | app.py:59-61 | cleaning a column twice is cleaning it once |
| Loader.ParseDateCells | app.py:52 | the date column parses exactly when every cell parses, and then cell by cell |
| Loader.RawColumns | app.py:48 | the table as read has one column per header, and column `header[j]` holds the j-th cell of every record, as text |
| Loader.Frame.FromRecords | app.py:39-48 | an empty sheet gives the sixteen default columns and no rows; otherwise the columns are the table as read (Loader.RawColumns) |
| Loader.Frame.ParseDates | app.py:51-52 | a table without `Fecha` is unchanged; otherwise the load fails exactly when a cell does not parse; on success only that column changes, and on failure nothing does |
| Loader.Frame.NormaliseNumeric | app.py:54-61 | each numeric column present is replaced by its cleaned version; other columns, the column order and the row count are unchanged |
| Loader.CleanedStep | app.py:58-61 | cleaning one more column is one update of the table; a column named twice is not changed again, since cleaning is idempotent |
| Loader.Frame.ParseAndClean | app.py:51-63 | the load succeeds exactly when `Fecha` is present and parses, and then leaves the parsed dates and the cleaned numeric columns (Loader.Loaded); without `Fecha` the sort raises |
| Loader.LoadFails | app.py:51-63 | a sheet with records fails to load exactly when it has no `Fecha` column (the sort by date raises KeyError) or one of its `Fecha` cells is not a `YYYY-MM-DD` date |
| Loader.LoadedColumn | app.py:51-61 | after a successful load, `Fecha` holds the parsed dates of its cells, each numeric column its cells cleaned, and every other column its cells as read |
| Loader.LoadData | app.py:35-63 | an empty sheet loads as the default columns; otherwise the load succeeds exactly when Loader.Loaded of the table as read does, and then leaves exactly those columns |
| Entries.StoredRecordBalanced | app.py:179-184 | a derived record reads back with net profit equal to sales minus every cost |
| Entries.ConsNewestFirst | app.py:63 | putting in front a row no older than the others keeps the newest-first order |
| Entries.Insert | app.py:63 | inserting into a newest-first table keeps it newest first and adds exactly that row |
| Entries.SortNewestFirst | app.py:63 | the sorted table is newest first and holds the same rows |
| Filters.Select | app.py:228 | each row is kept as often as it occurs when it qualifies, and otherwise not at all |
| Filters.SelectKeepsOrder | app.py:228 | filtering a newest-first table leaves it newest first |
| Filters.FilterToday | app.py:227-228 | the rows kept are exactly those dated today |
| Filters.FilterLastWeek | app.py:231-233 | the rows kept are exactly those from today − 7 to today inclusive; computing today − 7 fails only within the first week of year 1 |
| Filters.LastWeekIsEightDays | app.py:232-233 | the last-week window is exactly the days today − k for k in 0..7 |
| Filters.LastWeekDaysDistinct | app.py:232 | those eight days are distinct, so the window is eight days long |
| Filters.FilterRange | app.py:242-247 | for from ≤ to, the rows kept are exactly those with from ≤ date ≤ to; otherwise an error is reported and nothing is kept (the bounds are never swapped) |
| Filters.InvertedRangeIsEmpty | app.py:242-247 | an inverted range contains no date |
| Filters.FilterCycle | app.py:249-253 | the rows kept are exactly those whose cycle key is the chosen one; it aborts exactly when some row's cycle cannot be computed |
| Filters.CycleFilterWindow | app.py:249-253 | choosing cycle p's key keeps a row exactly when its date is from the 22nd of the previous month to the 21st of p's month |
| Filters.CycleMenu | app.py:250-252 | the period selector offers exactly the rows' cycle keys: every row's key, and no key without a row |
| Filters.MenuKeySelectsRows | app.py:250-253 | a period picked from the selector selects at least one row |
| Filters.ApplyFilter | app.py:227-255 | each choice keeps exactly the rows of its filter (today, last week, custom range, cycle); last week and cycle abort exactly when their filter does; the custom range aborts exactly when today − 30 overflows (the first thirty days of year 1); only the custom range reports an error, and then keeps nothing; no choice adds a row |
| Filters.FilteredNewestFirst | app.py:227-255 | whatever the choice, the kept rows of a newest-first table are newest first |
| Aggregate.SumOfAppend | app.py:263 | the column sum of two row lists together is the sum of their sums |
| Aggregate.SumOfPermutation | app.py:263 | a column sum does not depend on the order of the rows |
| Aggregate.SumOf | app.py:263 | a column of non-negative values sums to a non-negative total; SumOfAppend and SumOfPermutation state the rest |
| Aggregate.TotalsOf | app.py:263-276 | over derived rows, the banner's net profit is the sales metric minus cost of goods, fixed expenses, payroll and copy cost |
| Aggregate.TotalsOrderIndependent | app.py:273-276 | the banner and the four metrics are the same for the same rows in any order |
| Aggregate.BalancedTotals | app.py:263 | over derived rows, total net profit is total sales minus total cost of goods, fixed expenses, payroll and copy cost |
| Aggregate.AverageUnitCost | app.py:284 | with some copies made it is the plain mean of the unit cost over the rows; otherwise it is 0 |
| Aggregate.Bill | app.py:282-294 | the minimum tier applies exactly when total copies < 20,000, with shortfall 20,000 − total > 0; the amount is max(total, 20,000) × the mean unit cost |
| Aggregate.BillWithoutCopies | app.py:284-288 | with no copies made the minimum tier is billed at 0 |
| Aggregate.BillCoversUsage | app.py:287-293 | with non-negative unit costs the bill covers both the copies made and the minimum volume at the mean cost |
| Aggregate.MeanNonNegative | app.py:284 | with non-negative unit costs the mean unit cost is non-negative |
| Aggregate.BillOrderIndependent | app.py:282-294 | the bill is the same for the same rows in any order |
| Aggregate.BillSamples | app.py:283-294 | 15,000 copies at 10 are billed 200,000 with 5,000 missing; 25,000 copies at 10 are billed 250,000 |
| Aggregate.Summarise | app.py:259-294 | an empty selection shows "no data"; otherwise the totals of the selection are shown, and the bill appears exactly in the cycle view |
| Aggregate.Dashboard | app.py:211-260 | an empty sheet shows the empty-sheet notice; otherwise the page aborts exactly when the filter does; "no data" appears exactly when the filter keeps no row, with the filter's range error; a report shows the totals of the kept rows and, exactly in the cycle view, their bill; an inverted custom range shows "no data" with the error |
| Aggregate.MenuCycleReports | app.py:249-260 | in the cycle view, a period picked from the selector always yields a report with a bill |

## Left out

- User interface: page layout, widgets, HTML banners, metric display, spinners, reruns and
  the per-row table with its delete buttons (app.py:8, 114-176, 209-333). Only the
  `$1,234` display form is modelled, as the input of `Normaliser.NormaliseDisplayedAmount`.
- Google Sheets access through gspread (`get_connection`, `get_all_records`, `row_values`,
  `append_row`, `find`, `delete_rows`). These are network calls into a foreign library. The
  outcomes of those calls are parameters and results instead.
  - The case where `append_row(headers)` itself raises, which also falls back to the
    record's keys, is covered only through the `ReadFailed` parameter value.
- `delete_record_by_date`: `sheet.find` matches the date text in any cell of the sheet, not
  only in the date column, so which row it deletes depends on the whole sheet's contents.
- `check_password` and the session state: a fixed password gate over UI state.
- The form defaults taken from the newest row (app.py:139-144): pre-filling of widgets only.
- Loader.ParseDateCells: only the exact `YYYY-MM-DD` form that the writer produces is
  parsed. The many other forms `pd.to_datetime` accepts are not, and neither is the
  1677..2262 range of pandas timestamps: a `Fecha` cell outside it, such as `1500-01-01`,
  makes `pd.to_datetime` raise OutOfBoundsDatetime, so the load fails in the source, while
  the model loads it. Because of that range, the cycle of a date in
  22..31 December 9999, which Python cannot compute, never reaches the dashboard in the
  source; the model keeps the abort for it. A blank `Fecha` cell, which pandas loads as NaT
  (no date) without raising, also fails the load here; in the source such a row matches
  no date filter, and the cycle view raises on it when formatting its period.
- Normaliser.ParseNumber: sign, digits and an optional decimal part only. Exponents,
  `inf`/`nan` words and surrounding whitespace, which pandas also accepts, are not parsed
  (they become 0 here).
- Loader.NormaliseColumn: numbers that the sheet library already returns as numbers are
  kept as they are. Their text form reading back as the same number is assumed, not proved.
- Loader.LoadData: the table is built column by column, but the link from the loaded
  `Frame` to the typed rows (`Entries.Entry`) that the dashboard works on is not formalised.
- Entries.SortNewestFirst: the sort is modelled on typed rows rather than on the table's
  columns. The order among rows of the same date is unspecified in pandas and is one
  particular order here.
- Filters.CycleMenu: only the set of offered keys is modelled, not their descending order
  in the selector.
- Fiscal.PeriodKey and IsoDate.Format: assume `strftime('%Y')` pads the year to four
  digits, as current CPython does on common platforms; for years below 1000 this is what
  makes the written date ten characters long.
- Floating-point rounding: all amounts are exact reals, so no claim is made about
  bit-level float results.
- Ledger.Derive: does not model the bound of the margin slider (10..90). Any integer
  margin gives well-defined results.
