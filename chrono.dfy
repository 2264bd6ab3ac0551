/** The part of chrono's `NaiveDateTime` that the notes use: the value, its
    formatting with `%Y-%m-%d %I:%M:%S %p`, parsing with the same pattern, and
    its `Display` (`%Y-%m-%d %H:%M:%S` plus a fraction). */
module Chrono {
  import opened Errors
  import opened Text

  /** The pattern the note headers use for dates. */
  const DateFormat: string := "%Y-%m-%d %I:%M:%S %p"

  /** Stands for the text of chrono's parse error, which the headers wrap
      in a `ParseError`. */
  const ParseErrorText: string := "input does not match the date format"

  /** chrono's year range. */
  const MinYear: int := -262143
  const MaxYear: int := 262142

  datatype DateTime = DateTime(year: int, month: int, day: int, hour: int, minute: int, second: int, nano: int)

  predicate IsLeapYear(y: int) {
    y % 4 == 0 && (y % 100 != 0 || y % 400 == 0)
  }

  function DaysInMonth(y: int, m: int): (n: int)
    ensures 28 <= n <= 31
  {
    if m == 2 then (if IsLeapYear(y) then 29 else 28)
    else if m == 4 || m == 6 || m == 9 || m == 11 then 30
    else 31
  }

  /** A calendar date with a time of day, without leap seconds. */
  predicate Valid(d: DateTime) {
    && MinYear <= d.year <= MaxYear
    && 1 <= d.month <= 12
    && 1 <= d.day <= DaysInMonth(d.year, d.month)
    && 0 <= d.hour < 24
    && 0 <= d.minute < 60
    && 0 <= d.second < 60
    && 0 <= d.nano < 1_000_000_000
  }

  type NaiveDateTime = d: DateTime | Valid(d) witness DateTime(1970, 1, 1, 0, 0, 0, 0)

  /** The value with its fraction of a second dropped. */
  function WholeSeconds(d: NaiveDateTime): (r: NaiveDateTime)
    ensures r.nano == 0
  {
    d.(nano := 0)
  }

  // -------------------------------------------------------------- digits

  predicate IsDigit(c: char) { '0' <= c <= '9' }

  predicate AllDigits(s: string) {
    forall i :: 0 <= i < |s| ==> IsDigit(s[i])
  }

  function DigitChar(n: int): (c: char)
    requires 0 <= n < 10
    ensures IsDigit(c)
  {
    ('0' as int + n) as char
  }

  function Pow10(w: nat): (p: nat)
    ensures p >= 1
  {
    if w == 0 then 1 else 10 * Pow10(w - 1)
  }

  /** The lowest `w` decimal digits of `n`, zero-padded to width `w`. */
  function Fixed(n: nat, w: nat): (r: string)
    ensures |r| == w
    ensures AllDigits(r)
  {
    if w == 0 then "" else Fixed(n / 10, w - 1) + [DigitChar(n % 10)]
  }

  /** The number of decimal digits of `n`. */
  function NumDigits(n: nat): (k: nat)
    ensures k >= 1
    ensures n < Pow10(k)
  {
    if n < 10 then 1 else 1 + NumDigits(n / 10)
  }

  /** The value of a string of decimal digits; `None` if some character is not a digit. */
  function ReadDigits(s: string): (r: Option<nat>)
    ensures r.Some? <==> AllDigits(s)
  {
    if s == [] then Some(0)
    else
      var c := s[|s| - 1];
      match ReadDigits(s[..|s| - 1])
      case None => None
      case Some(v) => if IsDigit(c) then Some(10 * v + (c as int - '0' as int)) else None
  }

  lemma {:induction false} ReadFixed(n: nat, w: nat)
    requires n < Pow10(w)
    ensures ReadDigits(Fixed(n, w)) == Some(n)
  {
    if w > 0 {
      ReadFixed(n / 10, w - 1);
      var s := Fixed(n, w);
      assert s[..|s| - 1] == Fixed(n / 10, w - 1);
    }
  }

  // ----------------------------------------------------------- formatting

  function Abs(n: int): nat { if n < 0 then -n else n }

  function Max(a: nat, b: nat): nat { if a < b then b else a }

  /** `%Y`: four digits for years 0 to 9999, otherwise a sign and at least four digits. */
  function YearText(y: int): (r: string)
    ensures 0 <= y <= 9999 ==> r == Fixed(y, 4)
    ensures !(0 <= y <= 9999) ==> |r| >= 5 && !IsDigit(r[0])
  {
    if 0 <= y <= 9999 then Fixed(y, 4)
    else (if y > 9999 then "+" else "-") + Fixed(Abs(y), Max(4, NumDigits(Abs(y))))
  }

  /** `%I`: the hour on a 12-hour clock, 1 to 12. */
  function Hour12(h: int): (r: int)
    requires 0 <= h < 24
    ensures 1 <= r <= 12
  {
    if h % 12 == 0 then 12 else h % 12
  }

  /** `%p`. */
  function AmPm(h: int): string {
    if h < 12 then "AM" else "PM"
  }

  /** `format_with_items("%Y-%m-%d %I:%M:%S %p")`. */
  function Format(d: NaiveDateTime): (r: string)
    ensures 0 <= d.year <= 9999 ==> |r| == 22
  {
    YearText(d.year) + "-" + Fixed(d.month, 2) + "-" + Fixed(d.day, 2) + " "
      + Fixed(Hour12(d.hour), 2) + ":" + Fixed(d.minute, 2) + ":" + Fixed(d.second, 2)
      + " " + AmPm(d.hour)
  }

  /** `Display for NaiveDateTime`: `%Y-%m-%d %H:%M:%S` and, when there is one,
      the fraction of a second in 3, 6 or 9 digits. */
  function DisplayFormat(d: NaiveDateTime): (r: string)
  {
    YearText(d.year) + "-" + Fixed(d.month, 2) + "-" + Fixed(d.day, 2) + " "
      + Fixed(d.hour, 2) + ":" + Fixed(d.minute, 2) + ":" + Fixed(d.second, 2)
      + Fraction(d.nano)
  }

  function Fraction(nano: nat): (r: string)
    ensures |r| in {0, 4, 7, 10}
  {
    if nano == 0 then ""
    else if nano % 1_000_000 == 0 then "." + Fixed(nano / 1_000_000, 3)
    else if nano % 1_000 == 0 then "." + Fixed(nano / 1_000, 6)
    else "." + Fixed(nano, 9)
  }

  // -------------------------------------------------------------- parsing

  /** `%p` as chrono reads it: `AM` or `PM` in either case; `Some(true)` for PM. */
  function ReadAmPm(s: string): (r: Option<bool>)
    ensures r.Some? ==> |s| == 2
  {
    if |s| == 2 && (s[0] == 'A' || s[0] == 'a') && (s[1] == 'M' || s[1] == 'm') then Some(false)
    else if |s| == 2 && (s[0] == 'P' || s[0] == 'p') && (s[1] == 'M' || s[1] == 'm') then Some(true)
    else None
  }

  /** `NaiveDateTime::parse_from_str(s, "%Y-%m-%d %I:%M:%S %p")` on the
      canonical zero-padded shape with a four-digit year: `None` when `s` is
      not of that shape or names no valid time. */
  function Parse(s: string): (r: Option<NaiveDateTime>)
    ensures r.Some? ==> |s| == 22 && r.value.nano == 0 && 0 <= r.value.year <= 9999
  {
    if |s| != 22 || s[4] != '-' || s[7] != '-' || s[10] != ' ' || s[13] != ':'
      || s[16] != ':' || s[19] != ' '
    then None
    else
      var y :- ReadDigits(s[0..4]);
      var mo :- ReadDigits(s[5..7]);
      var da :- ReadDigits(s[8..10]);
      var h :- ReadDigits(s[11..13]);
      var mi :- ReadDigits(s[14..16]);
      var se :- ReadDigits(s[17..19]);
      var pm :- ReadAmPm(s[20..22]);
      Assemble(y, mo, da, h, mi, se, pm)
  }

  /** The date named by the fields read with `%Y %m %d %I %M %S %p`, if there is one. */
  function Assemble(y: nat, mo: nat, da: nat, h12: nat, mi: nat, se: nat, pm: bool): (r: Option<NaiveDateTime>)
    ensures r.Some? ==> r.value.nano == 0 && 0 <= r.value.year <= 9999
  {
    if y <= 9999 && 1 <= mo <= 12 && 1 <= da <= DaysInMonth(y, mo) && 1 <= h12 <= 12
      && mi < 60 && se < 60
    then
      var d: NaiveDateTime := DateTime(y, mo, da, h12 % 12 + (if pm then 12 else 0), mi, se, 0);
      Some(d)
    else None
  }

  lemma AssembleFields(d: NaiveDateTime)
    requires 0 <= d.year <= 9999
    ensures Assemble(d.year, d.month, d.day, Hour12(d.hour), d.minute, d.second, d.hour >= 12)
      == Some(WholeSeconds(d))
  {
    var h12 := Hour12(d.hour);
    assert h12 % 12 + (if d.hour >= 12 then 12 else 0) == d.hour;
  }

  // ---------------------------------------------------------- properties

  /** Where the fields sit in a formatted date with a four-digit year. */
  lemma FormatFields(d: NaiveDateTime)
    requires 0 <= d.year <= 9999
    ensures var s := Format(d);
      && |s| == 22
      && s[4] == '-' && s[7] == '-' && s[10] == ' ' && s[13] == ':' && s[16] == ':' && s[19] == ' '
      && s[0..4] == Fixed(d.year, 4) && s[5..7] == Fixed(d.month, 2) && s[8..10] == Fixed(d.day, 2)
      && s[11..13] == Fixed(Hour12(d.hour), 2) && s[14..16] == Fixed(d.minute, 2)
      && s[17..19] == Fixed(d.second, 2) && s[20..22] == AmPm(d.hour)
  {
    var a := Fixed(d.year, 4) + "-";
    var b := a + Fixed(d.month, 2) + "-";
    var c := b + Fixed(d.day, 2) + " ";
    var e := c + Fixed(Hour12(d.hour), 2) + ":";
    var f := e + Fixed(d.minute, 2) + ":";
    var g := f + Fixed(d.second, 2) + " ";
    var s := g + AmPm(d.hour);
    assert s == Format(d);
    assert s[0..4] == a[0..4];
    assert s[5..7] == b[5..7];
    assert s[8..10] == c[8..10];
    assert s[11..13] == e[11..13];
    assert s[14..16] == f[14..16];
    assert s[17..19] == g[17..19];
  }

  /** Formatting and parsing are inverse on whole seconds: parsing the
      formatted value gives it back without its fraction (four-digit years). */
  lemma ParseFormat(d: NaiveDateTime)
    requires 0 <= d.year <= 9999
    ensures Parse(Format(d)) == Some(WholeSeconds(d))
  {
    var s := Format(d);
    var h12 := Hour12(d.hour);
    FormatFields(d);
    assert Pow10(2) == 100 && Pow10(4) == 10000;
    ReadFixed(d.year, 4);
    ReadFixed(d.month, 2);
    ReadFixed(d.day, 2);
    ReadFixed(h12, 2);
    ReadFixed(d.minute, 2);
    ReadFixed(d.second, 2);
    assert ReadAmPm(s[20..22]) == Some(d.hour >= 12);
    AssembleFields(d);
  }

  /** What the `Display` of a date writes is never read back by `Parse`. */
  lemma ParseRejectsDisplay(d: NaiveDateTime)
    ensures Parse(DisplayFormat(d)) == None
  {
    var s := DisplayFormat(d);
    if 0 <= d.year <= 9999 {
      assert |s| == 19 + |Fraction(d.nano)|;
    } else {
      var yt := YearText(d.year);
      assert s[0] == yt[0];
      assert s[0..4][0] == yt[0];
    }
  }

  /** The date of the header examples: `2025-01-01 12:50:19 AM` is 0:50:19
      on 1 January 2025. */
  lemma ParseExample()
    ensures Parse("2025-01-01 12:50:19 AM").Some?
    ensures Parse("2025-01-01 12:50:19 AM").value == DateTime(2025, 1, 1, 0, 50, 19, 0)
  {
    FormatExample();
    ParseFormat(DateTime(2025, 1, 1, 0, 50, 19, 0));
  }

  /** The same date written with `%Y-%m-%d %I:%M:%S %p`. */
  lemma FormatExample()
    ensures Format(DateTime(2025, 1, 1, 0, 50, 19, 0)) == "2025-01-01 12:50:19 AM"
  {
    var d: NaiveDateTime := DateTime(2025, 1, 1, 0, 50, 19, 0);
    FixedExamples();
    assert YearText(2025) == "2025" && Hour12(0) == 12 && AmPm(0) == "AM";
    assert Format(d) == "2025" + "-" + "01" + "-" + "01" + " " + "12" + ":" + "50" + ":" + "19" + " " + "AM";
    LiteralExample();
  }

  lemma FixedExamples()
    ensures Fixed(2025, 4) == "2025"
    ensures Fixed(1, 2) == "01" && Fixed(12, 2) == "12" && Fixed(50, 2) == "50" && Fixed(19, 2) == "19"
  {
    assert Fixed(2025, 4) == "2025";
    assert Fixed(1, 2) == "01";
    assert Fixed(12, 2) == "12";
    assert Fixed(50, 2) == "50";
    assert Fixed(19, 2) == "19";
  }

  lemma LiteralExample()
    ensures "2025" + "-" + "01" + "-" + "01" + " " + "12" + ":" + "50" + ":" + "19" + " " + "AM" == "2025-01-01 12:50:19 AM"
  {
    assert "2025" + "-" == "2025-";
    assert "2025-" + "01" == "2025-01";
    assert "2025-01" + "-" == "2025-01-";
    assert "2025-01-" + "01" == "2025-01-01";
    assert "2025-01-01" + " " == "2025-01-01 ";
    assert "2025-01-01 " + "12" == "2025-01-01 12";
    assert "2025-01-01 12" + ":" == "2025-01-01 12:";
    assert "2025-01-01 12:" + "50" == "2025-01-01 12:50";
    assert "2025-01-01 12:50" + ":" == "2025-01-01 12:50:";
    assert "2025-01-01 12:50:" + "19" == "2025-01-01 12:50:19";
    assert "2025-01-01 12:50:19" + " " == "2025-01-01 12:50:19 ";
  }

  lemma FixedNoLineBreak(n: nat, w: nat)
    ensures NoLineBreak(Fixed(n, w))
  {
    var r := Fixed(n, w);
    assert forall i :: 0 <= i < |r| ==> IsDigit(r[i]);
  }

  /** The formatted date stays on one line. */
  lemma FormatNoLineBreak(d: NaiveDateTime)
    ensures NoLineBreak(Format(d))
  {
    var y := YearText(d.year);
    assert NoLineBreak(y) by {
      FixedNoLineBreak(Abs(d.year), Max(4, NumDigits(Abs(d.year))));
    }
    FixedNoLineBreak(d.month, 2);
    FixedNoLineBreak(d.day, 2);
    FixedNoLineBreak(Hour12(d.hour), 2);
    FixedNoLineBreak(d.minute, 2);
    FixedNoLineBreak(d.second, 2);
  }

  /** The displayed date stays on one line. */
  lemma DisplayNoLineBreak(d: NaiveDateTime)
    ensures NoLineBreak(DisplayFormat(d))
  {
    var y := YearText(d.year);
    assert NoLineBreak(y) by {
      FixedNoLineBreak(Abs(d.year), Max(4, NumDigits(Abs(d.year))));
    }
    FixedNoLineBreak(d.month, 2);
    FixedNoLineBreak(d.day, 2);
    FixedNoLineBreak(d.hour, 2);
    FixedNoLineBreak(d.minute, 2);
    FixedNoLineBreak(d.second, 2);
    assert NoLineBreak(Fraction(d.nano)) by {
      FixedNoLineBreak(d.nano / 1_000_000, 3);
      FixedNoLineBreak(d.nano / 1_000, 6);
      FixedNoLineBreak(d.nano, 9);
    }
  }
}
