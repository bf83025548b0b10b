/**
 * Calendar dates as `datetime.strptime(text, "%Y-%m-%d").date()` produces
 * them, and the order Python's `date` comparison puts them in.
 */
module Dates {
  import opened Wrappers
  import opened Text

  datatype Date = Date(year: int, month: int, day: int)

  predicate IsLeapYear(y: int)
  {
    y % 4 == 0 && (y % 100 != 0 || y % 400 == 0)
  }

  function DaysInMonth(y: int, m: int): (n: int)
    requires 1 <= m <= 12
    ensures 28 <= n <= 31
    ensures n == 29 <==> m == 2 && IsLeapYear(y)
  {
    if m == 2 then (if IsLeapYear(y) then 29 else 28)
    else if m == 4 || m == 6 || m == 9 || m == 11 then 30
    else 31
  }

  /** A date `datetime.date` can represent: years 1 to 9999, real month lengths. */
  predicate ValidDate(d: Date)
  {
    1 <= d.year <= 9999 && 1 <= d.month <= 12 && 1 <= d.day <= DaysInMonth(d.year, d.month)
  }

  /** `a < b` on dates: by year, then month, then day. */
  predicate Before(a: Date, b: Date)
  {
    a.year < b.year
    || (a.year == b.year && (a.month < b.month || (a.month == b.month && a.day < b.day)))
  }

  /**
   * `strptime(s, "%Y-%m-%d")`: four digits, a dash, two digits, a dash, two
   * digits, naming a day that exists.
   */
  function Parse(s: string): (r: Option<Date>)
    ensures r.Some? ==> ValidDate(r.value) && |s| == 10
  {
    if |s| == 10 && s[4] == '-' && s[7] == '-'
       && AllDigits(s[..4]) && AllDigits(s[5..7]) && AllDigits(s[8..])
    then
      var d := Date(DigitsValue(s[..4]), DigitsValue(s[5..7]), DigitsValue(s[8..]));
      if ValidDate(d) then Some(d) else None
    else None
  }

  /** `d.isoformat()`: the `YYYY-MM-DD` text of a date. */
  function Format(d: Date): (s: string)
    requires ValidDate(d)
    ensures |s| == 10
  {
    PadDigits(d.year, 4) + ("-" + (PadDigits(d.month, 2) + ("-" + PadDigits(d.day, 2))))
  }

  /** Every date is read back from its own text. */
  lemma ParseFormat(d: Date)
    requires ValidDate(d)
    ensures Parse(Format(d)) == Some(d)
  {
    var y, m, dd := PadDigits(d.year, 4), PadDigits(d.month, 2), PadDigits(d.day, 2);
    var s := Format(d);
    assert s == y + ("-" + (m + ("-" + dd)));
    assert s[..4] == y && s[4] == '-';
    assert s[5..7] == m && s[7] == '-';
    assert s[8..] == dd;
    assert Pow10(4) == 10000 && Pow10(2) == 100;
    PadDigitsValue(d.year, 4);
    PadDigitsValue(d.month, 2);
    PadDigitsValue(d.day, 2);
    assert Date(DigitsValue(s[..4]), DigitsValue(s[5..7]), DigitsValue(s[8..])) == d;
  }

  /** The parser accepts only the canonical text of the date it returns. */
  lemma FormatParse(s: string)
    requires Parse(s).Some?
    ensures Format(Parse(s).value) == s
  {
    DigitsValuePad(s[..4]);
    DigitsValuePad(s[5..7]);
    DigitsValuePad(s[8..]);
    assert s == s[..4] + ("-" + (s[5..7] + ("-" + s[8..])));
  }

  /** Prefixing the same character does not change the string order. */
  lemma LexLessDash(x: string, y: string)
    ensures LexLess("-" + x, "-" + y) <==> LexLess(x, y)
  {
    LexLessAppend("-", x, "-", y);
    LexTrichotomy("-", "-");
  }

  /**
   * Dates order as their texts do, so comparing two well-formed
   * `YYYY-MM-DD` strings compares the dates they name.
   */
  lemma FormatOrder(a: Date, b: Date)
    requires ValidDate(a) && ValidDate(b)
    ensures Before(a, b) <==> LexLess(Format(a), Format(b))
  {
    var ya, yb := PadDigits(a.year, 4), PadDigits(b.year, 4);
    var ma, mb := PadDigits(a.month, 2), PadDigits(b.month, 2);
    var da, db := PadDigits(a.day, 2), PadDigits(b.day, 2);
    assert Pow10(4) == 10000 && Pow10(2) == 100;
    LexLessAppend(ya, "-" + (ma + ("-" + da)), yb, "-" + (mb + ("-" + db)));
    PadDigitsOrder(a.year, b.year, 4);
    PadDigitsInjective(a.year, b.year, 4);
    LexLessDash(ma + ("-" + da), mb + ("-" + db));
    LexLessAppend(ma, "-" + da, mb, "-" + db);
    PadDigitsOrder(a.month, b.month, 2);
    PadDigitsInjective(a.month, b.month, 2);
    LexLessDash(da, db);
    PadDigitsOrder(a.day, b.day, 2);
  }

  /** `str(n)` of an integer is never a date, nor is `str(None)`. */
  lemma PyStrOfNonString(v: Value)
    requires !v.Str?
    ensures Parse(PyStr(v)) == None
  {
    if v.Int? {
      var s := Decimal(v.i);
      if |s| == 10 {
        if v.i < 0 {
          assert s[4] == Natural(-v.i)[3];
        } else {
          assert s[4] == Natural(v.i)[4];
        }
      }
    }
  }
}
