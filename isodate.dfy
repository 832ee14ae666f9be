/** The `YYYY-MM-DD` text form of a date (strftime('%Y-%m-%d'), the full-date form of
  * section 5.6 of RFC 3339): what the writer stores in the sheet and the loader reads back. */
module IsoDate {
  import opened Wrappers
  import opened Digits
  import opened Calendar

  function Format(d: Date): (s: string)
    requires IsPyDate(d)
    ensures |s| == 10 && s[4] == '-' && s[7] == '-'
  {
    assert Pow10(4) == 10000 && Pow10(2) == 100;
    PadNat(d.year, 4) + "-" + PadNat(d.month, 2) + "-" + PadNat(d.day, 2)
  }

  /** Reads exactly the form `Format` writes; anything else, including a day that does not
    * exist, is rejected. */
  function Parse(s: string): (r: Option<Date>)
    ensures r.Some? ==> IsPyDate(r.value)
  {
    if |s| == 10 && s[4] == '-' && s[7] == '-'
       && AllDigits(s[..4]) && AllDigits(s[5..7]) && AllDigits(s[8..])
    then
      var d := Date(DigitsValue(s[..4]), DigitsValue(s[5..7]), DigitsValue(s[8..]));
      if IsPyDate(d) then Some(d) else None
    else None
  }

  /** A written date reads back as itself. */
  lemma ParseFormat(d: Date)
    requires IsPyDate(d)
    ensures Parse(Format(d)) == Some(d)
  {
    var s := Format(d);
    assert Pow10(4) == 10000 && Pow10(2) == 100;
    assert s[..4] == PadNat(d.year, 4);
    assert s[5..7] == PadNat(d.month, 2);
    assert s[8..] == PadNat(d.day, 2);
  }

  /** Every text the reader accepts is the writer's text for the date it yields: the form is canonical. */
  lemma FormatParse(s: string)
    requires Parse(s).Some?
    ensures Format(Parse(s).value) == s
  {
    PadNatOfDigits(s[..4]);
    PadNatOfDigits(s[5..7]);
    PadNatOfDigits(s[8..]);
    assert s == s[..4] + "-" + s[5..7] + "-" + s[8..];
  }
}
