/** Cleaning of the numeric columns on load: every `$` and `,` is removed, the rest is read as
  * a decimal number, and whatever does not read as one becomes 0 (`to_numeric(errors='coerce')`
  * followed by `fillna(0)`). */
module Normaliser {
  import opened Wrappers
  import opened Digits

  predicate IsSeparator(c: char) {
    c == '$' || c == ','
  }

  /** The regular-expression replacement that deletes every `$` and `,`. */
  function StripCurrency(s: string): (r: string)
    ensures forall i :: 0 <= i < |r| ==> !IsSeparator(r[i])
    ensures |r| <= |s|
  {
    if s == [] then []
    else (if IsSeparator(s[0]) then [] else [s[0]]) + StripCurrency(s[1..])
  }

  /** Every character other than `$` and `,` is kept, as often as it occurs. */
  lemma {:induction false} StripCurrencyKeepsOthers(s: string, c: char)
    requires !IsSeparator(c)
    ensures multiset(StripCurrency(s))[c] == multiset(s)[c]
  {
    if s != [] {
      assert s == [s[0]] + s[1..];
      StripCurrencyKeepsOthers(s[1..], c);
    }
  }

  /** Stripping works piece by piece and keeps the order of what it keeps. */
  lemma {:induction false} StripCurrencyAppend(a: string, b: string)
    ensures StripCurrency(a + b) == StripCurrency(a) + StripCurrency(b)
  {
    if a != [] {
      var head := if IsSeparator(a[0]) then [] else [a[0]];
      assert (a + b)[0] == a[0];
      assert (a + b)[1..] == a[1..] + b;
      StripCurrencyAppend(a[1..], b);
      calc {
        StripCurrency(a + b);
        head + StripCurrency(a[1..] + b);
        head + (StripCurrency(a[1..]) + StripCurrency(b));
        (head + StripCurrency(a[1..])) + StripCurrency(b);
      }
    } else {
      assert a + b == b;
    }
  }

  /** A string with no `$` or `,` is left as it is; in particular stripping twice is stripping once. */
  lemma {:induction false} StripCurrencyKeeps(s: string)
    requires forall i :: 0 <= i < |s| ==> !IsSeparator(s[i])
    ensures StripCurrency(s) == s
  {
    if s != [] {
      StripCurrencyKeeps(s[1..]);
    }
  }

  /** How many decimal digits `s` starts with. */
  function LeadingDigits(s: string): (k: nat)
    ensures k <= |s| && AllDigits(s[..k])
    ensures k < |s| ==> !IsDigit(s[k])
  {
    if s == [] || !IsDigit(s[0]) then 0
    else
      var k := 1 + LeadingDigits(s[1..]);
      assert s[..k] == [s[0]] + s[1..][..k - 1];
      k
  }

  function Signed(negative: bool, x: real): real {
    if negative then -x else x
  }

  predicate HasDigit(s: string) {
    exists i :: 0 <= i < |s| && IsDigit(s[i])
  }

  predicate IsSign(c: char) {
    c == '-' || c == '+'
  }

  /** Digits with at most one point among them and at least one digit: `12`, `12.`, `.5`, `12.50`. */
  predicate IsUnsignedDecimal(b: string) {
    || (|b| >= 1 && AllDigits(b))
    || (|b| >= 2 && exists k :: 0 <= k < |b| && b[k] == '.' && AllDigits(b[..k]) && AllDigits(b[k + 1..]))
  }

  /** The texts read as numbers: an unsigned decimal, optionally preceded by `-` or `+`. Any
    * other text, `12abc`, `1.2.3`, `12-` or `1 234` among them, is not a number. */
  predicate IsDecimal(s: string) {
    IsUnsignedDecimal(s) || (|s| >= 1 && IsSign(s[0]) && IsUnsignedDecimal(s[1..]))
  }

  /** Digits, optionally followed by a point and more digits, with at least one digit in all. */
  function ParseUnsigned(body: string): (r: Option<real>)
    ensures r.Some? ==> HasDigit(body)
  {
    var k := LeadingDigits(body);
    if k == |body| then
      if k == 0 then None
      else
        assert IsDigit(body[..k][0]);
        Some(DigitsValue(body) as real)
    else if body[k] != '.' then None
    else
      var fraction := body[k + 1..];
      if !AllDigits(fraction) || (k == 0 && fraction == []) then None
      else
        assert k > 0 ==> IsDigit(body[..k][0]);
        assert k == 0 ==> IsDigit(body[k + 1]);
        Some(DigitsValue(body[..k]) as real + Fraction(fraction))
  }

  /** The value of the digits after the point, read from the last digit inwards: `.d e…` is
    * `(d + .e…) / 10`. */
  function Fraction(digits: string): real
    requires AllDigits(digits)
  {
    if digits == [] then 0.0 else ((DigitValue(digits[0]) as real) + Fraction(digits[1..])) / 10.0
  }

  /** `v` with the decimal point moved `n` places to the left: `v / 10^n`. */
  function Shifted(v: real, n: nat): real {
    if n == 0 then v else Shifted(v, n - 1) / 10.0
  }

  /** The fraction is the digits' value with the point moved left past all of them. */
  lemma {:induction false} FractionValue(digits: string)
    requires AllDigits(digits)
    ensures Fraction(digits) == Shifted(DigitsValue(digits) as real, |digits|)
  {
    if digits != [] {
      var rest := digits[1..];
      FractionValue(rest);
      LeadingDigit(digits);
      ShiftedDigit(DigitValue(digits[0]), DigitsValue(rest), |rest|);
    }
  }

  /** A digit `d` before `n` digits of value `r` becomes `d` plus a fraction once shifted `n` places. */
  lemma ShiftedDigit(d: nat, r: nat, n: nat)
    ensures Shifted((d * Pow10(n) + r) as real, n) == d as real + Shifted(r as real, n)
  {
    var p := Pow10(n);
    assert (d * p + r) as real == (d as real) * (p as real) + r as real;
    ShiftedAdd((d as real) * (p as real), r as real, n);
    ShiftedPow(d as real, n, (d as real) * (p as real));
    assert Shifted((d as real) * (p as real) + r as real, n) == d as real + Shifted(r as real, n);
  }

  /** Shifting is additive. */
  lemma {:induction false} ShiftedAdd(a: real, b: real, n: nat)
    ensures Shifted(a + b, n) == Shifted(a, n) + Shifted(b, n)
  {
    if n > 0 {
      ShiftedAdd(a, b, n - 1);
    }
  }

  /** Shifting `y = x 10^n` by `n` places gives back `x`. */
  lemma {:induction false} ShiftedPow(x: real, n: nat, y: real)
    requires y == x * (Pow10(n) as real)
    ensures Shifted(y, n) == x
    decreases n
  {
    if n > 0 {
      ShiftedPow(10.0 * x, n - 1, y);
    }
  }

  /** A digit string split after its first digit, in the fraction, the power and the value. */
  lemma LeadingDigit(digits: string)
    requires AllDigits(digits) && digits != []
    ensures Fraction(digits) == (DigitValue(digits[0]) as real + Fraction(digits[1..])) / 10.0
    ensures Pow10(|digits|) == 10 * Pow10(|digits| - 1)
    ensures DigitsValue(digits) == DigitValue(digits[0]) * Pow10(|digits| - 1) + DigitsValue(digits[1..])
  {
    var head, rest := [digits[0]], digits[1..];
    DigitsValueAppend(head, rest);
    assert head + rest == digits;
    assert DigitsValue(head) == DigitValue(digits[0]) by {
      assert head[..0] == [];
    }
  }

  lemma CentsFraction(cents: nat)
    requires cents < 100
    ensures Fraction(PadNat(cents, 2)) == (cents as real) / 100.0
  {
    var c := cents as real;
    FractionValue(PadNat(cents, 2));
    assert Shifted(c, 2) == Shifted(c, 1) / 10.0 && Shifted(c, 1) == c / 10.0;
  }

  /** A decimal number with an optional sign. None where pandas would produce NaN, in
    * particular for any text without a digit. */
  function ParseNumber(s: string): (r: Option<real>)
    ensures r.Some? ==> HasDigit(s)
  {
    if |s| > 0 && (s[0] == '-' || s[0] == '+') then
      match ParseUnsigned(s[1..])
      case Some(x) =>
        var i :| 0 <= i < |s[1..]| && IsDigit(s[1..][i]);
        assert IsDigit(s[i + 1]);
        Some(Signed(s[0] == '-', x))
      case None => None
    else ParseUnsigned(s)
  }

  /** The value a raw cell of a numeric column is given on load. Never fails: once `$` and `,`
    * are removed, text that is not a decimal number, in particular text without a digit, loads
    * as 0. */
  function NormaliseCell(raw: string): (x: real)
    ensures !IsDecimal(StripCurrency(raw)) ==> x == 0.0
    ensures IsDecimal(StripCurrency(raw)) ==> ParseNumber(StripCurrency(raw)) == Some(x)
    ensures !HasDigit(raw) ==> x == 0.0
  {
    ParseNumberAccepts(StripCurrency(raw));
    match ParseNumber(StripCurrency(raw))
    case Some(x) =>
      StrippedDigit(raw);
      x
    case None => 0.0
  }

  /** Where a decimal point stands after a run of digits, the digit run ends there. */
  lemma PointEndsDigits(b: string, j: nat)
    requires j < |b| && b[j] == '.' && AllDigits(b[..j])
    ensures LeadingDigits(b) == j
  {
    assert b == b[..j] + b[j..];
    LeadingDigitsStop(b[..j], b[j..]);
  }

  /** The unsigned reader accepts exactly the unsigned decimals. */
  lemma ParseUnsignedAccepts(b: string)
    ensures ParseUnsigned(b).Some? <==> IsUnsignedDecimal(b)
  {
    var k := LeadingDigits(b);
    if j :| 0 <= j < |b| && b[j] == '.' && AllDigits(b[..j]) && AllDigits(b[j + 1..]) {
      PointEndsDigits(b, j);
    }
    if k == |b| {
      assert b[..k] == b;
    } else {
      assert !IsDigit(b[k]);
    }
  }

  /** The reader accepts exactly the decimal numbers: anything else is NaN, and loads as 0. */
  lemma ParseNumberAccepts(s: string)
    ensures ParseNumber(s).Some? <==> IsDecimal(s)
  {
    ParseUnsignedAccepts(s);
    if |s| >= 1 {
      ParseUnsignedAccepts(s[1..]);
      if IsSign(s[0]) {
        assert !IsDigit(s[0]) && s[0] != '.';
        forall k | 0 < k <= |s|
          ensures !AllDigits(s[..k])
        {
          assert s[..k][0] == s[0];
        }
      }
    }
  }

  lemma LeadingDigitsAll(s: string)
    requires AllDigits(s)
    ensures LeadingDigits(s) == |s|
  {
    if s != [] {
      LeadingDigitsAll(s[1..]);
    }
  }

  lemma {:induction false} LeadingDigitsStop(a: string, b: string)
    requires AllDigits(a) && b != [] && !IsDigit(b[0])
    ensures LeadingDigits(a + b) == |a|
  {
    if a != [] {
      assert (a + b)[1..] == a[1..] + b;
      LeadingDigitsStop(a[1..], b);
    }
  }

  /** A sign in front of an unsigned text negates its value for `-` and keeps it for `+`. */
  lemma ParseSigned(sign: string, u: string)
    requires sign == "" || sign == "-" || sign == "+"
    requires u != [] && !IsSign(u[0])
    ensures ParseNumber(sign + u) ==
      if ParseUnsigned(u).Some? then Some(Signed(sign == "-", ParseUnsigned(u).value)) else None
  {
    if sign == "" {
      assert sign + u == u;
    } else {
      assert (sign + u)[1..] == u;
    }
  }

  /** A digit string, optionally signed, reads as the integer it denotes. */
  lemma ParseInteger(sign: string, s: string)
    requires sign == "" || sign == "-" || sign == "+"
    requires |s| >= 1 && AllDigits(s)
    ensures ParseNumber(sign + s) == Some(Signed(sign == "-", DigitsValue(s) as real))
  {
    LeadingDigitsAll(s);
    assert ParseUnsigned(s) == Some(DigitsValue(s) as real);
    assert IsDigit(s[0]);
    ParseSigned(sign, s);
  }

  /** Digits, a point and digits, optionally signed and with a digit on at least one side of
    * the point, read as their DecimalValue, negated for `-`: `12.5` is 12.5, `-0.125` is -0.125
    * and `+.5` is 0.5. */
  lemma ParseDecimal(sign: string, whole: string, fraction: string)
    requires sign == "" || sign == "-" || sign == "+"
    requires AllDigits(whole) && AllDigits(fraction) && |whole| + |fraction| >= 1
    ensures ParseNumber(sign + (whole + "." + fraction)) == Some(Signed(sign == "-", DecimalValue(whole, fraction)))
  {
    PointParse(whole, fraction);
    SignedValue(sign, whole + "." + fraction, DecimalValue(whole, fraction));
  }

  /** The value of `whole.fraction`: the whole part plus the fraction's digits over ten to their
    * number. */
  function DecimalValue(whole: string, fraction: string): (v: real)
    requires AllDigits(whole) && AllDigits(fraction)
    ensures v == DigitsValue(whole) as real + Shifted(DigitsValue(fraction) as real, |fraction|)
  {
    FractionValue(fraction);
    DigitsValue(whole) as real + Fraction(fraction)
  }

  /** `u` is unsigned text that reads as `v`. */
  predicate ReadsUnsigned(u: string, v: real) {
    u != [] && !IsSign(u[0]) && ParseUnsigned(u) == Some(v)
  }

  /** A sign in front of an unsigned text of value `v`. */
  lemma SignedValue(sign: string, u: string, v: real)
    requires sign == "" || sign == "-" || sign == "+"
    requires ReadsUnsigned(u, v)
    ensures ParseNumber(sign + u) == Some(Signed(sign == "-", v))
  {
    ParseSigned(sign, u);
  }

  /** `whole.fraction` reads as the whole part plus the fraction. */
  lemma PointParse(whole: string, fraction: string)
    requires AllDigits(whole) && AllDigits(fraction) && |whole| + |fraction| >= 1
    ensures ReadsUnsigned(whole + "." + fraction, DecimalValue(whole, fraction))
  {
    PointLayout(whole, fraction);
  }

  /** Digits, a point and two more digits read as the amount with its cents. */
  lemma ParseWithCents(s: string, cents: nat)
    requires |s| >= 1 && AllDigits(s) && cents < 100
    ensures ParseNumber(s + "." + PadNat(cents, 2)) == Some(DigitsValue(s) as real + (cents as real) / 100.0)
  {
    var t := s + "." + PadNat(cents, 2);
    PointLayout(s, PadNat(cents, 2));
    PointSplit(t, |s|);
    CentsFraction(cents);
  }

  /** Where the parts of `whole.fraction` sit. */
  lemma PointLayout(whole: string, fraction: string)
    requires AllDigits(whole) && AllDigits(fraction)
    ensures var t := whole + "." + fraction;
      && LeadingDigits(t) == |whole| && t[|whole|] == '.'
      && t[..|whole|] == whole && t[|whole| + 1..] == fraction
      && !IsSign(t[0])
  {
    var t := whole + "." + fraction;
    assert t == whole + ("." + fraction);
    LeadingDigitsStop(whole, "." + fraction);
  }

  /** A digit run, a point and a digit run, with a digit in one of the runs, read as the whole
    * part plus the fraction. */
  lemma PointSplit(t: string, k: nat)
    requires LeadingDigits(t) == k && k < |t| && t[k] == '.' && AllDigits(t[k + 1..]) && |t| >= 2
    ensures ParseUnsigned(t) == Some(DigitsValue(t[..k]) as real + Fraction(t[k + 1..]))
  {
  }

  /** Thousands grouping with commas, as Python's `,` format option writes a non-negative integer. */
  function Grouped(n: nat): (s: string)
    ensures |s| >= 1
  {
    if n < 1000 then NatText(n)
    else
      assert Pow10(3) == 1000;
      Grouped(n / 1000) + "," + PadNat(n % 1000, 3)
  }

  /** Removing the commas from a grouped number leaves its plain digits. */
  lemma {:induction false} StripGrouped(n: nat)
    ensures var t := StripCurrency(Grouped(n));
      |t| >= 1 && AllDigits(t) && DigitsValue(t) == n
  {
    if n < 1000 {
      StripCurrencyKeeps(NatText(n));
    } else {
      assert Pow10(3) == 1000;
      var head, tail := Grouped(n / 1000), PadNat(n % 1000, 3);
      StripGrouped(n / 1000);
      StripCurrencyAppend(head + ",", tail);
      StripCurrencyAppend(head, ",");
      StripCurrencyKeeps(tail);
      var h := StripCurrency(head);
      assert StripCurrency(",") == [];
      assert StripCurrency(Grouped(n)) == h + tail;
      DigitsValueAppend(h, tail);
    }
  }

  /** The dashboard's `f"${x:,.0f}"` text of a whole amount, negative amounts as `$-1,234`. */
  function DisplayedAmount(n: int): string {
    "$" + (if n < 0 then "-" else "") + Grouped(if n < 0 then -n else n)
  }

  /** An amount pasted back into the sheet the way the dashboard shows it loads as that amount. */
  lemma NormaliseDisplayedAmount(n: int)
    ensures NormaliseCell(DisplayedAmount(n)) == n as real
  {
    var sign := if n < 0 then "-" else "";
    var g := Grouped(if n < 0 then -n else n);
    StripCurrencyAppend("$" + sign, g);
    StripCurrencyAppend("$", sign);
    StripCurrencyKeeps(sign);
    assert StripCurrency("$") == [];
    StripGrouped(if n < 0 then -n else n);
    var digits := StripCurrency(g);
    assert StripCurrency(DisplayedAmount(n)) == sign + digits;
    ParseInteger(sign, digits);
  }

  /** An amount written with a currency sign, thousands separators and cents, as in `$1,234.56`,
    * loads as that amount. */
  lemma NormaliseCurrencyWithCents(cents: nat)
    ensures NormaliseCell("$" + Grouped(cents / 100) + "." + PadNat(cents % 100, 2)) == (cents as real) / 100.0
  {
    assert Pow10(2) == 100;
    var g, tail := Grouped(cents / 100), "." + PadNat(cents % 100, 2);
    assert "$" + g + "." + PadNat(cents % 100, 2) == "$" + g + tail;
    StripCurrencyAppend("$" + g, tail);
    StripCurrencyAppend("$", g);
    assert StripCurrency("$") == [];
    assert forall i :: 0 <= i < |tail| ==> !IsSeparator(tail[i]);
    StripCurrencyKeeps(tail);
    StripGrouped(cents / 100);
    var digits := StripCurrency(g);
    assert StripCurrency("$" + g + tail) == digits + "." + PadNat(cents % 100, 2);
    ParseWithCents(digits, cents % 100);
  }

  /** A digit left after stripping was already in the raw text. */
  lemma StrippedDigit(raw: string)
    requires HasDigit(StripCurrency(raw))
    ensures HasDigit(raw)
  {
    var t := StripCurrency(raw);
    var i :| 0 <= i < |t| && IsDigit(t[i]);
    StripCurrencyKeepsOthers(raw, t[i]);
    assert t[i] in multiset(t);
    assert t[i] in multiset(raw);
    var j :| 0 <= j < |raw| && raw[j] == t[i];
  }

  /** The sample cell `$1,234.00` is the dollar form of 123400 cents. */
  lemma SampleText()
    ensures "$" + Grouped(1234) + "." + PadNat(0, 2) == "$1,234.00"
  {
    GroupedSample();
    CentsSample();
    assert "$" + "1,234" + "." + "00" == "$1,234.00";
  }

  lemma CentsSample()
    ensures PadNat(0, 2) == "00"
  {
    assert Pow10(2) == 100 && Pow10(1) == 10;
    assert DigitChar(0) == '0';
    assert PadNat(0, 1) == "0";
  }

  lemma GroupedSample()
    ensures Grouped(1234) == "1,234"
  {
    assert Pow10(3) == 1000 && Pow10(2) == 100 && Pow10(1) == 10;
    assert DigitChar(1) == '1' && DigitChar(2) == '2';
    assert DigitChar(3) == '3' && DigitChar(4) == '4';
    assert PadNat(2, 1) == "2";
    assert PadNat(23, 2) == "23";
    assert Grouped(1) == "1";
  }

  /** The sample cell `$1,234.00` loads as 1234. */
  lemma NormaliseCurrencySample()
    ensures NormaliseCell("$1,234.00") == 1234.0
  {
    var cents := 123400;
    assert cents / 100 == 1234 && cents % 100 == 0;
    SampleText();
    NormaliseCurrencyWithCents(cents);
    assert (cents as real) / 100.0 == 1234.0;
  }

  /** The sample cells `abc` and the empty cell load as 0. */
  lemma NormaliseTextSamples()
    ensures NormaliseCell("abc") == 0.0
    ensures NormaliseCell("") == 0.0
  {
    assert "abc"[0] == 'a' && "abc"[1] == 'b' && "abc"[2] == 'c';
    assert !HasDigit("abc");
  }

  /** Text with digits that is still not a number loads as 0 too: `12abc` has letters. */
  lemma NormaliseLettersSample()
    ensures NormaliseCell("12abc") == 0.0
  {
    var t := "12abc";
    StripCurrencyKeeps(t);
    assert !IsDigit(t[2]) && !IsSign(t[0]);
    assert forall k :: 0 <= k < |t| ==> t[k] != '.';
  }

  /** `1.2.3` has two points and loads as 0. */
  lemma NormaliseTwoPointsSample()
    ensures NormaliseCell("1.2.3") == 0.0
  {
    var u := "1.2.3";
    StripCurrencyKeeps(u);
    assert !IsDigit(u[1]) && !IsSign(u[0]);
    forall k | 0 <= k < |u| && u[k] == '.'
      ensures !AllDigits(u[..k]) || !AllDigits(u[k + 1..])
    {
      if k == 1 {
        assert u[k + 1..][1] == '.';
      } else {
        assert k == 3 && u[..k][1] == '.';
      }
    }
  }
}
