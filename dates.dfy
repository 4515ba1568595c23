/**
 * Calendar dates as the task list reads and writes them: the grammar that
 * `datetime.strptime(text, "%Y-%m-%d")` accepts, the proleptic Gregorian
 * calendar that `datetime.date` enforces, and `date.strftime("%Y-%m-%d")`.
 */
module Dates {
  import opened Results
  import opened Text

  datatype Date = Date(year: int, month: int, day: int)

  /** The Gregorian rule: every fourth year, except centuries not divisible by 400. */
  predicate IsLeapYear(y: int) {
    y % 4 == 0 && (y % 100 != 0 || y % 400 == 0)
  }

  function DaysInMonth(y: int, m: int): (n: int)
    requires 1 <= m <= 12
    ensures 28 <= n <= 31
    ensures n == 31 <==> m in {1, 3, 5, 7, 8, 10, 12}
    ensures n == 30 <==> m in {4, 6, 9, 11}
    ensures n == 29 <==> m == 2 && IsLeapYear(y)
  {
    if m == 2 then (if IsLeapYear(y) then 29 else 28)
    else if m == 4 || m == 6 || m == 9 || m == 11 then 30
    else 31
  }

  /** What `datetime.date(year, month, day)` accepts (MINYEAR is 1, MAXYEAR 9999). */
  predicate ValidDate(d: Date) {
    && 1 <= d.year <= 9999
    && 1 <= d.month <= 12
    && 1 <= d.day <= DaysInMonth(d.year, d.month)
  }

  // ---------------------------------------------------------------------
  // strptime(text, "%Y-%m-%d")
  // ---------------------------------------------------------------------

  /** `%m`: `1[0-2]|0[1-9]|[1-9]`, that is one or two digits with a value in 1..12. */
  predicate IsMonthField(t: string) {
    || (|t| == 1 && '1' <= t[0] <= '9')
    || (|t| == 2 && AllDigits(t) && 1 <= DigitsValue(t) <= 12)
  }

  /**
   * `%d`: `3[01]|[12]\d|0[1-9]|[1-9]| [1-9]`, that is one or two digits
   * with a value in 1..31, or a space followed by a non-zero digit.
   */
  predicate IsDayField(t: string) {
    || (|t| == 1 && '1' <= t[0] <= '9')
    || (|t| == 2 && AllDigits(t) && 1 <= DigitsValue(t) <= 31)
    || (|t| == 2 && t[0] == ' ' && '1' <= t[1] <= '9')
  }

  /** The number a month or day field denotes. */
  function FieldValue(t: string): (v: int)
    requires IsMonthField(t) || IsDayField(t)
    ensures 1 <= v <= 31
  {
    if t[0] == ' ' then DigitValue(t[1])
    else
      DigitsValueShort(t);
      DigitsValue(t)
  }

  /** strptime reads each field with `int()`: FieldValue is that number (" 5" is 5, "07" is 7). */
  lemma FieldValueIsInt(t: string)
    requires IsMonthField(t) || IsDayField(t)
    ensures ParseInt(t) == Some(FieldValue(t))
  {
    if t[0] == ' ' {
      SpacedDigit(t);
    } else {
      ShortDigits(t);
    }
  }

  /** `int(" d")` is the digit's value. */
  lemma SpacedDigit(t: string)
    requires |t| == 2 && t[0] == ' ' && IsDigit(t[1])
    ensures ParseInt(t) == Some(DigitValue(t[1]))
  {
    var pad, digit := t[..1], t[1..];
    assert t == pad + digit + [];
    assert IsSpace(pad[0]) && !IsSeparator(pad[0]);
    ParseIntIgnoresPadding(pad, digit, []);
    DigitsValueShort(digit);
    ParseDigits(digit);
  }

  /** `int()` of one or two digits is their value. */
  lemma ShortDigits(t: string)
    requires (|t| == 1 || |t| == 2) && AllDigits(t)
    ensures ParseInt(t) == Some(DigitsValue(t))
  {
    ParseDigits(t);
  }

  /**
   * `datetime.strptime(text, "%Y-%m-%d").date()`: four digits of year, a
   * dash, the month field up to the next dash, and the day field up to the
   * end; then the date must exist. `None` stands for the `ValueError`.
   */
  function ParseDate(s: string): (r: Option<Date>)
    ensures r.Some? ==> ValidDate(r.value)
    ensures r.Some? ==> 8 <= |s| <= 10 && AllDigits(s[..4]) && s[4] == '-'
  {
    if |s| < 8 || !AllDigits(s[..4]) || s[4] != '-' then None
    else
      var rest := s[5..];
      var width := if rest[1] == '-' then 1 else if rest[2] == '-' then 2 else 0;
      if width == 0 then None
      else
        var month := rest[..width];
        var day := rest[width + 1..];
        if !IsMonthField(month) || !IsDayField(day) then None
        else
          var d := Date(DigitsValue(s[..4]), FieldValue(month), FieldValue(day));
          if ValidDate(d) then Some(d) else None
  }

  /**
   * The language of strptime's pattern for "%Y-%m-%d": `s` is four year
   * digits, a dash, the month field `m`, a dash and the day field `d`.
   */
  predicate IsDateText(s: string, m: string, d: string) {
    && |s| >= 4 && AllDigits(s[..4])
    && s == s[..4] + "-" + m + "-" + d
    && IsMonthField(m) && IsDayField(d)
  }

  /** Text that parses is in the pattern's language, and the date is read from its fields. */
  lemma ParseDateHasShape(s: string)
    requires ParseDate(s).Some?
    ensures exists m, d ::
              IsDateText(s, m, d) && ParseDate(s).value == Date(DigitsValue(s[..4]), FieldValue(m), FieldValue(d))
  {
    var rest := s[5..];
    var width := if rest[1] == '-' then 1 else 2;
    var m := rest[..width];
    var d := rest[width + 1..];
    assert s == s[..4] + "-" + m + "-" + d;
    assert IsDateText(s, m, d);
  }

  /** Text in the pattern's language parses exactly when its fields name a real date. */
  lemma ParseDateOfShape(s: string, m: string, d: string)
    requires IsDateText(s, m, d)
    ensures var date := Date(DigitsValue(s[..4]), FieldValue(m), FieldValue(d));
      ParseDate(s) == if ValidDate(date) then Some(date) else None
  {
    var rest := s[5..];
    assert rest == m + "-" + d;
    if |m| == 1 {
      assert rest[1] == '-' && rest[..1] == m && rest[2..] == d;
    } else {
      assert rest[1] == m[1] && IsDigit(m[1]);
      assert rest[2] == '-' && rest[..2] == m && rest[3..] == d;
    }
  }

  /** Ten characters that parse are canonical `YYYY-MM-DD` unless the day is space-padded. */
  lemma TenCharactersCanonical(s: string)
    requires |s| == 10 && ParseDate(s).Some? && s[8] != ' '
    ensures IsCanonical(s)
  {
    ParseDateHasShape(s);
    var m, d :| IsDateText(s, m, d);
    assert |m| == 2 && |d| == 2;
    assert s[5..7] == m && s[8..] == d;
  }

  // ---------------------------------------------------------------------
  // strftime("%Y-%m-%d")
  // ---------------------------------------------------------------------

  /** The complete representation `YYYY-MM-DD`: digits everywhere except two dashes. */
  predicate IsCanonical(s: string) {
    && |s| == 10
    && AllDigits(s[..4]) && s[4] == '-'
    && AllDigits(s[5..7]) && s[7] == '-'
    && AllDigits(s[8..])
  }

  /** `date.strftime("%Y-%m-%d")`, year padded to four digits, month and day to two. */
  function FormatDate(d: Date): (s: string)
    requires ValidDate(d)
    ensures IsCanonical(s)
  {
    var s := Pad(d.year, 4) + "-" + Pad(d.month, 2) + "-" + Pad(d.day, 2);
    assert s[..4] == Pad(d.year, 4) && s[5..7] == Pad(d.month, 2) && s[8..] == Pad(d.day, 2);
    s
  }

  /** Parsing what was formatted gives the date back. */
  lemma ParseFormat(d: Date)
    requires ValidDate(d)
    ensures ParseDate(FormatDate(d)) == Some(d)
  {
    var s := FormatDate(d);
    assert s[..4] == Pad(d.year, 4);
    assert s[5..][..2] == Pad(d.month, 2);
    assert s[5..][3..] == Pad(d.day, 2);
  }

  /**
   * On canonical text, parsing succeeds exactly when the three digit
   * groups name a real date.
   */
  lemma ParseCanonical(s: string)
    requires IsCanonical(s)
    ensures ParseDate(s).Some? <==>
      ValidDate(Date(DigitsValue(s[..4]), DigitsValue(s[5..7]), DigitsValue(s[8..])))
    ensures ParseDate(s).Some? ==>
      ParseDate(s).value == Date(DigitsValue(s[..4]), DigitsValue(s[5..7]), DigitsValue(s[8..]))
  {
    assert s[5..][..2] == s[5..7];
    assert s[5..][3..] == s[8..];
  }

  /** On canonical text, formatting the parsed date gives the same text back. */
  lemma FormatParse(s: string)
    requires IsCanonical(s) && ParseDate(s).Some?
    ensures FormatDate(ParseDate(s).value) == s
  {
    ParseCanonical(s);
    PadDigitsValue(s[..4]);
    PadDigitsValue(s[5..7]);
    PadDigitsValue(s[8..]);
    assert s == s[..4] + "-" + s[5..7] + "-" + s[8..];
  }

  /** The date that canonical text names, digit by digit. */
  function CanonicalDate(s: string): Date
    requires |s| == 10
    requires AllDigits(s[..4]) && AllDigits(s[5..7]) && AllDigits(s[8..])
  {
    Date(DigitValue(s[0]) * 1000 + DigitValue(s[1]) * 100 + DigitValue(s[2]) * 10 + DigitValue(s[3]),
         DigitValue(s[5]) * 10 + DigitValue(s[6]),
         DigitValue(s[8]) * 10 + DigitValue(s[9]))
  }

  /** ParseDate on canonical text, with the digit groups evaluated. */
  lemma ParseCanonicalDigits(s: string)
    requires IsCanonical(s)
    ensures ParseDate(s) == if ValidDate(CanonicalDate(s)) then Some(CanonicalDate(s)) else None
  {
    ParseCanonical(s);
    DigitsValueShort(s[..4]);
    DigitsValueShort(s[5..7]);
    DigitsValueShort(s[8..]);
  }

  /** Day-first text is refused. */
  lemma RejectsDayFirst()
    ensures ParseDate("30-11-2024") == None
  {
    assert !AllDigits("30-11-2024"[..4]) by {
      assert "30-11-2024"[..4][2] == '-';
    }
  }

  /** February 29th exists in 2024, a leap year. */
  lemma LeapDay2024()
    ensures ParseDate("2024-02-29") == Some(Date(2024, 2, 29))
  {
    ParseCanonicalDigits("2024-02-29");
  }

  /** February 29th exists in 2000: a century divisible by 400 is a leap year. */
  lemma LeapDay2000()
    ensures ParseDate("2000-02-29") == Some(Date(2000, 2, 29))
  {
    ParseCanonicalDigits("2000-02-29");
  }

  /** February 29th does not exist in 1900: a century not divisible by 400 is a common year. */
  lemma NoLeapDay1900()
    ensures ParseDate("1900-02-29") == None
  {
    ParseCanonicalDigits("1900-02-29");
  }

  /** February 29th does not exist in 2023, a common year. */
  lemma NoLeapDay2023()
    ensures ParseDate("2023-02-29") == None
  {
    ParseCanonicalDigits("2023-02-29");
  }

  /** A day beyond the month's length is refused. */
  lemma RejectsApril31()
    ensures ParseDate("2024-04-31") == None
  {
    ParseCanonicalDigits("2024-04-31");
  }

  /** Year 0 is refused. */
  lemma RejectsYearZero()
    ensures ParseDate("0000-01-01") == None
  {
    ParseCanonicalDigits("0000-01-01");
  }

  /** Month 13 is refused. */
  lemma RejectsMonth13()
    ensures ParseDate("2024-13-01") == None
  {
    ParseCanonicalDigits("2024-13-01");
  }

  /** strptime also takes an unpadded month and day. */
  lemma UnpaddedAccepted()
    ensures ParseDate("2024-1-5") == Some(Date(2024, 1, 5))
  {
    var s := "2024-1-5";
    assert s[..4] == "2024" && s[5..][..1] == "1" && s[5..][2..] == "5";
    DigitsValueShort("2024");
    DigitsValueShort("1");
    DigitsValueShort("5");
  }

  /**
   * Text that parses comes back unchanged from strftime exactly when it is
   * already canonical: unpadded months and days are normalised.
   */
  lemma RoundTripIffCanonical(s: string)
    requires ParseDate(s).Some?
    ensures FormatDate(ParseDate(s).value) == s <==> IsCanonical(s)
  {
    if IsCanonical(s) {
      FormatParse(s);
    }
  }

  /** "2024-1-5" is accepted but written back as something else. */
  lemma UnpaddedNormalised()
    ensures ParseDate("2024-1-5").Some? && FormatDate(ParseDate("2024-1-5").value) != "2024-1-5"
  {
    UnpaddedAccepted();
    RoundTripIffCanonical("2024-1-5");
  }
}
