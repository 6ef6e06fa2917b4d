/**
 The three date attributes of convert.py (`date`, `yearmonth`, `year`): an
 optional calendar date rendered with `%Y-%m-%d`, `%Y-%m` and `%Y`, and the
 fixed null-date strings used when the record has no date.
 */
module Dates {
  import opened Options
  import opened Text

  datatype Date = Date(year: nat, month: nat, day: nat)

  predicate IsLeapYear(y: nat) {
    y % 4 == 0 && (y % 100 != 0 || y % 400 == 0)
  }

  function DaysInMonth(y: nat, m: nat): nat
    requires 1 <= m <= 12
  {
    if m == 2 then (if IsLeapYear(y) then 29 else 28)
    else if m == 4 || m == 6 || m == 9 || m == 11 then 30
    else 31
  }

  /** The dates Python's `datetime` can hold: years 1 through 9999. */
  predicate Valid(d: Date) {
    && 1 <= d.year <= 9999
    && 1 <= d.month <= 12
    && 1 <= d.day <= DaysInMonth(d.year, d.month)
  }

  type CivilDate = d: Date | Valid(d) witness Date(1, 1, 1)

  const NoDate: string := "0000-00-00"
  const NoYearMonth: string := "0000-00"
  const NoYear: string := "0000"

  /** Every field of a valid date fits its `strftime` width. */
  lemma FieldsFit(x: CivilDate)
    ensures x.year < Pow10(4) && x.month < Pow10(2) && x.day < Pow10(2)
  {
    assert Pow10(2) == 100;
    assert Pow10(4) == 10000;
    assert DaysInMonth(x.year, x.month) <= 31;
  }

  /** The fields the renderings print: those of the date, or all zero when
      there is no date, so that the null renderings are the all-zero ones. */
  function Fields(d: Option<CivilDate>): (f: Date)
    ensures f.year < Pow10(4) && f.month < Pow10(2) && f.day < Pow10(2)
    ensures d.Some? <==> 1 <= f.year
  {
    match d
    case None => Date(0, 0, 0)
    case Some(x) => FieldsFit(x); x
  }

  /** `year(d)`: `%Y`, or `0000` when there is no date. */
  function FormatYear(d: Option<CivilDate>): (r: string)
    ensures |r| == 4 && AllDigits(r)
  {
    PadDigits(Fields(d).year, 4)
  }

  /** `yearmonth(d)`: `%Y-%m`, or `0000-00` when there is no date. */
  function FormatYearMonth(d: Option<CivilDate>): (r: string)
    ensures |r| == 7 && r[4] == '-'
  {
    ConcatParts(FormatYear(d), '-', PadDigits(Fields(d).month, 2));
    FormatYear(d) + ['-'] + PadDigits(Fields(d).month, 2)
  }

  /** `date(d)`: `%Y-%m-%d`, or `0000-00-00` when there is no date. */
  function FormatDate(d: Option<CivilDate>): (r: string)
    ensures |r| == 10 && r[4] == '-' && r[7] == '-'
  {
    var ym := FormatYearMonth(d);
    ConcatParts(ym, '-', PadDigits(Fields(d).day, 2));
    assert (ym + ['-'] + PadDigits(Fields(d).day, 2))[4] == ym[4];
    ym + ['-'] + PadDigits(Fields(d).day, 2)
  }

  /** `year(d)` is the first four characters of `yearmonth(d)`. */
  lemma YearMonthPrefix(d: Option<CivilDate>)
    ensures FormatYearMonth(d)[..4] == FormatYear(d)
  {
    ConcatParts(FormatYear(d), '-', PadDigits(Fields(d).month, 2));
  }

  /** `yearmonth(d)` is the first seven characters of `date(d)`. */
  lemma DatePrefix(d: Option<CivilDate>)
    ensures FormatDate(d)[..7] == FormatYearMonth(d)
  {
    ConcatParts(FormatYearMonth(d), '-', PadDigits(Fields(d).day, 2));
  }

  /** The three renderings nest, for a date and for the null date alike:
      `year(d)` is a prefix of `yearmonth(d)`, which is a prefix of `date(d)`. */
  lemma FieldsNest(d: Option<CivilDate>)
    ensures FormatYear(d) == FormatDate(d)[..4]
    ensures FormatYearMonth(d) == FormatDate(d)[..7]
  {
    YearMonthPrefix(d);
    DatePrefix(d);
    var s := FormatDate(d);
    assert s[..7][..4] == s[..4];
  }

  /** A reader for the `%Y-%m-%d` layout: four, two and two digits separated
      by `-`, naming a valid date; anything else reads as no date. */
  function ParseDate(s: string): Option<CivilDate> {
    if |s| == 10 && s[4] == '-' && s[7] == '-'
       && AllDigits(s[..4]) && AllDigits(s[5..7]) && AllDigits(s[8..])
    then
      var d := Date(DecimalValue(s[..4]), DecimalValue(s[5..7]), DecimalValue(s[8..]));
      if Valid(d) then Some(d) else None
    else None
  }

  /** The reader finds in a rendered date the fields that were printed,
      each where the layout puts it. */
  lemma DateFieldsRead(d: Option<CivilDate>)
    ensures var s := FormatDate(d);
            && s[4] == '-' && s[7] == '-'
            && s[..4] == PadDigits(Fields(d).year, 4)
            && s[5..7] == PadDigits(Fields(d).month, 2)
            && s[8..] == PadDigits(Fields(d).day, 2)
  {
    var y, ym, s := FormatYear(d), FormatYearMonth(d), FormatDate(d);
    ConcatParts(y, '-', PadDigits(Fields(d).month, 2));
    ConcatParts(ym, '-', PadDigits(Fields(d).day, 2));
    FieldsNest(d);
    assert s[5..7] == ym[5..];
  }

  /** The `date` attribute determines the date: reading it back gives the
      date it was made from, and the null date reads back as no date (its
      year is 0). */
  lemma FormatDateRoundTrip(d: Option<CivilDate>)
    ensures ParseDate(FormatDate(d)) == d
  {
    DateFieldsRead(d);
  }

  /** Zero written as a two- and as a four-digit field. */
  lemma PadZero()
    ensures PadDigits(0, 2) == "00"
    ensures PadDigits(0, 4) == "0000"
  {
    assert PadDigits(0, 1) == "0";
    assert PadDigits(0, 2) == "00";
    assert PadDigits(0, 3) == "000";
  }

  /** The null renderings are the fixed strings of the script. */
  lemma NullLiterals()
    ensures FormatYear(None) == NoYear
    ensures FormatYearMonth(None) == NoYearMonth
    ensures FormatDate(None) == NoDate
  {
    PadZero();
    assert Fields(None) == Date(0, 0, 0);
    assert FormatYear(None) == "0000";
    assert FormatYearMonth(None) == "0000" + "-" + "00";
    assert FormatDate(None) == NoYearMonth + "-" + "00";
  }

  /** The null renderings appear exactly when there is no date: a real
      date's year is at least 1, so it never renders as `0000`. */
  lemma NullRenderings(d: Option<CivilDate>)
    ensures FormatYear(d) == NoYear <==> d.None?
    ensures FormatYearMonth(d) == NoYearMonth <==> d.None?
    ensures FormatDate(d) == NoDate <==> d.None?
  {
    NullLiterals();
    FieldsNest(d);
    FieldsNest(None);
  }
}
