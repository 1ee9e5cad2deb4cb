/** `java.time.LocalDate` as the CSV files and the report hold it, in the
    pattern `yyyy-MM-dd` (the `full-date` form of section 5.6 of RFC 3339),
    parsed the way `DateTimeFormatter.ofPattern` parses by default. */
module Dates {
  import opened Wrappers
  import opened Numbers

  datatype Date = Date(year: nat, month: nat, day: nat)

  /** The proleptic Gregorian rule of the ISO calendar. */
  predicate IsLeapYear(y: nat) {
    y % 4 == 0 && (y % 100 != 0 || y % 400 == 0)
  }

  function DaysInMonth(y: nat, m: nat): (n: nat)
    ensures 28 <= n <= 31
  {
    if m == 2 then (if IsLeapYear(y) then 29 else 28)
    else if m == 4 || m == 6 || m == 9 || m == 11 then 30
    else 31
  }

  /** The Gregorian rule: a century year is a leap year only when it is a
      multiple of 400. */
  lemma LeapYearCases()
    ensures DaysInMonth(2000, 2) == 29 && DaysInMonth(1900, 2) == 28
    ensures DaysInMonth(2024, 2) == 29 && DaysInMonth(2023, 2) == 28
  {
  }

  /** A real calendar day whose year prints in four digits. */
  predicate ValidDate(d: Date) {
    1 <= d.year <= 9999 && 1 <= d.month <= 12 && 1 <= d.day <= DaysInMonth(d.year, d.month)
  }

  const DateSeparator: char := '-'

  /** `date.format(DATE_FMT)` with the pattern `yyyy-MM-dd`. */
  function FormatDate(d: Date): string {
    ZeroPad(Digits(d.year), 4) + [DateSeparator] + ZeroPad(Digits(d.month), 2) + [DateSeparator] + ZeroPad(Digits(d.day), 2)
  }

  /** A formatted date is made of digits and separators only, so it holds no
      comma and nothing that `trim()` removes. */
  lemma FormatDateChars(d: Date)
    ensures forall i :: 0 <= i < |FormatDate(d)| ==> IsDigit(FormatDate(d)[i]) || FormatDate(d)[i] == DateSeparator
  {
    DigitsAndSeparators(ZeroPad(Digits(d.year), 4), ZeroPad(Digits(d.month), 2), ZeroPad(Digits(d.day), 2));
  }

  lemma DigitsAndSeparators(y: string, m: string, dd: string)
    requires AllDigits(y) && AllDigits(m) && AllDigits(dd)
    ensures var s := y + [DateSeparator] + m + [DateSeparator] + dd;
      forall i :: 0 <= i < |s| ==> IsDigit(s[i]) || s[i] == DateSeparator
  {
  }

  lemma FieldWidths(d: Date)
    ensures ValidDate(d) ==> |ZeroPad(Digits(d.year), 4)| == 4
    ensures ValidDate(d) ==> |ZeroPad(Digits(d.month), 2)| == 2 && |ZeroPad(Digits(d.day), 2)| == 2
  {
    if ValidDate(d) {
      assert Pow10(4) == 10000 && Pow10(2) == 100;
      DigitsLength(d.year, 4);
      DigitsLength(d.month, 2);
      DigitsLength(d.day, 2);
    }
  }

  /** True when `s` has the shape `dddd-dd-dd`. */
  predicate DateShaped(s: string) {
    |s| == 10 && s[4] == DateSeparator && s[7] == DateSeparator
    && AllDigits(s[..4]) && AllDigits(s[5..7]) && AllDigits(s[8..])
  }

  /** `LocalDate.parse(s, DATE_FMT)`. The pattern reads exactly four year
      digits and two each for month and day; the default (smart) resolver
      refuses year-of-era 0, a month outside 1..12 and a day outside 1..31,
      and moves a day past the end of its month back to the month's last
      day. `None` stands for the DateTimeParseException. */
  function ParseDate(s: string): (r: Option<Date>)
    ensures r.Some? ==> DateShaped(s) && ValidDate(r.value)
  {
    if !DateShaped(s) then None
    else
      var y, m, dd := DigitsValue(s[..4]), DigitsValue(s[5..7]), DigitsValue(s[8..]);
      if y < 1 || m < 1 || 12 < m || dd < 1 || 31 < dd then None
      else
        assert y < 10000 by {
          DigitsValueBound(s[..4]);
          assert Pow10(4) == 10000;
        }
        Some(Date(y, m, if dd <= DaysInMonth(y, m) then dd else DaysInMonth(y, m)))
  }

  lemma PieceSlices(y: string, m: string, dd: string)
    requires |y| == 4 && |m| == 2 && |dd| == 2
    ensures var s := y + [DateSeparator] + m + [DateSeparator] + dd;
      |s| == 10 && s[4] == DateSeparator && s[7] == DateSeparator
      && s[..4] == y && s[5..7] == m && s[8..] == dd
  {
  }

  /** A text of the date shape is its three digit fields and two separators. */
  lemma ShapedPieces(s: string)
    requires DateShaped(s)
    ensures s == s[..4] + [DateSeparator] + s[5..7] + [DateSeparator] + s[8..]
  {
  }

  /** Parsing a formatted valid date gives back the date. */
  lemma ParseFormat(d: Date)
    requires ValidDate(d)
    ensures ParseDate(FormatDate(d)) == Some(d)
  {
    var s := FormatDate(d);
    var y, m, dd := ZeroPad(Digits(d.year), 4), ZeroPad(Digits(d.month), 2), ZeroPad(Digits(d.day), 2);
    assert DateShaped(s) && s[..4] == y && s[5..7] == m && s[8..] == dd by {
      FieldWidths(d);
      PieceSlices(y, m, dd);
    }
    assert DigitsValue(s[..4]) == d.year by { PaddedValue(d.year, 4); }
    assert DigitsValue(s[5..7]) == d.month by { PaddedValue(d.month, 2); }
    assert DigitsValue(s[8..]) == d.day by { PaddedValue(d.day, 2); }
    ParseInRange(s);
  }

  /** A text of the date shape whose fields are in range parses to exactly
      those fields. */
  lemma ParseInRange(s: string)
    requires DateShaped(s)
    requires 1 <= DigitsValue(s[..4]) && 1 <= DigitsValue(s[5..7]) <= 12
    requires 1 <= DigitsValue(s[8..]) <= DaysInMonth(DigitsValue(s[..4]), DigitsValue(s[5..7]))
    ensures ParseDate(s) == Some(Date(DigitsValue(s[..4]), DigitsValue(s[5..7]), DigitsValue(s[8..])))
  {
  }

  /** Formatting a parsed date gives back the text, unless the parser had to
      move the day back to the end of the month. */
  lemma FormatParse(s: string)
    requires ParseDate(s).Some?
    requires DigitsValue(s[8..]) <= DaysInMonth(DigitsValue(s[..4]), DigitsValue(s[5..7]))
    ensures FormatDate(ParseDate(s).value) == s
  {
    var d := ParseDate(s).value;
    var y, m, dd := s[..4], s[5..7], s[8..];
    assert d.year == DigitsValue(y) && d.month == DigitsValue(m) && d.day == DigitsValue(dd);
    assert ZeroPad(Digits(d.year), 4) == y by { ZeroPadDigitsValue(y); }
    assert ZeroPad(Digits(d.month), 2) == m by { ZeroPadDigitsValue(m); }
    assert ZeroPad(Digits(d.day), 2) == dd by { ZeroPadDigitsValue(dd); }
    assert FormatDate(d) == y + [DateSeparator] + m + [DateSeparator] + dd;
    ShapedPieces(s);
  }

  /** The smart resolver at work: the 30th of February 2023 reads as the
      28th, so two different texts load as the same date. */
  lemma ParseClampsDay()
    ensures ParseDate("2023-02-30") == Some(Date(2023, 2, 28))
    ensures ParseDate("2023-02-28") == Some(Date(2023, 2, 28))
  {
    var s := "2023-02-30";
    assert s[..4] == "2023" && s[5..7] == "02" && s[8..] == "30";
    assert DigitsValue("2023"[..3]) == 202 by {
      assert "2023"[..3][..2] == "20";
      assert "20"[..1] == "2";
    }
    assert DigitsValue("2023") == 2023;
    assert DigitsValue("02") == 2 by { assert "02"[..1] == "0"; }
    assert DigitsValue("30") == 30 by { assert "30"[..1] == "3"; }
    assert DigitsValue("28") == 28 by { assert "28"[..1] == "2"; }
    var t := "2023-02-28";
    assert t[..4] == "2023" && t[5..7] == "02" && t[8..] == "28";
  }

  /** Texts that are not dates are refused. */
  lemma ParseRejects()
    ensures ParseDate("2023-13-01") == None
    ensures ParseDate("2023-02-32") == None
    ensures ParseDate("0000-01-01") == None
    ensures ParseDate("2023-2-1") == None
  {
    var a, b, c := "2023-13-01", "2023-02-32", "0000-01-01";
    assert a[5..7] == "13" && DigitsValue("13") == 13 by { assert "13"[..1] == "1"; }
    assert a[..4] == "2023" && a[8..] == "01";
    assert b[8..] == "32" && DigitsValue("32") == 32 by { assert "32"[..1] == "3"; }
    assert b[..4] == "2023" && b[5..7] == "02";
    assert c[..4] == "0000" && DigitsValue("0000") == 0 by {
      assert "0000"[..3] == "000" && "000"[..2] == "00" && "00"[..1] == "0";
    }
    assert c[5..7] == "01" && c[8..] == "01";
  }

  /** `LocalDate.compareTo`: by year, then month, then day. */
  predicate DateLeq(a: Date, b: Date) {
    a.year < b.year || (a.year == b.year && (a.month < b.month || (a.month == b.month && a.day <= b.day)))
  }

  /** One integer per date, in the same order as the dates. */
  function DateKey(d: Date): nat {
    (d.year * 13 + d.month) * 32 + d.day
  }

  lemma DateKeyOrder(a: Date, b: Date)
    requires ValidDate(a) && ValidDate(b)
    ensures DateKey(a) <= DateKey(b) <==> DateLeq(a, b)
    ensures DateKey(a) == DateKey(b) <==> a == b
  {
    LexicographicKey(a.year * 13 + a.month, a.day, b.year * 13 + b.month, b.day, 32);
    LexicographicKey(b.year * 13 + b.month, b.day, a.year * 13 + a.month, a.day, 32);
    LexicographicKey(a.year, a.month, b.year, b.month, 13);
    LexicographicKey(b.year, b.month, a.year, a.month, 13);
  }
}
