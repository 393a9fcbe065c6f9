/** `datetime.strptime(s, '%Y-%m-%d')`, as CPython's `_strptime` implements it:
    one regular expression matched from the start of `s`, then a check that no
    text is left over, then the calendar check of the `date` constructor. */
module DateParse {

  import opened Wrappers
  import opened Decimal

  /** A calendar date; only year, month and day matter to the model. */
  datatype Date = Date(year: int, month: int, day: int)

  predicate IsLeapYear(y: int)
  {
    y % 4 == 0 && (y % 100 != 0 || y % 400 == 0)
  }

  function DaysInMonth(y: int, m: int): (n: int)
    requires 1 <= m <= 12
    ensures 28 <= n <= 31
    ensures n == 29 <==> m == 2 && IsLeapYear(y)
    ensures n == 31 <==> m in {1, 3, 5, 7, 8, 10, 12}
  {
    if m == 2 then (if IsLeapYear(y) then 29 else 28)
    else if m in {4, 6, 9, 11} then 30
    else 31
  }

  /** The dates Python's `date` type can hold (`MINYEAR` 1 to `MAXYEAR` 9999). */
  predicate ValidDate(d: Date)
  {
    1 <= d.year <= 9999 && 1 <= d.month <= 12 && 1 <= d.day <= DaysInMonth(d.year, d.month)
  }

  /** Zero-padded two-digit field, as `%m` and `%d` print. */
  function Pad2(n: int): (s: string)
    requires 0 <= n < 100
    ensures |s| == 2 && AllDigits(s) && DigitsValue(s) == n
  {
    DigitsValueAppend([], Digit(n / 10));
    DigitsValueAppend([Digit(n / 10)], Digit(n % 10));
    [Digit(n / 10), Digit(n % 10)]
  }

  /** Zero-padded four-digit field, as `%Y` prints years below 10000. */
  function Pad4(n: int): (s: string)
    requires 0 <= n < 10000
    ensures |s| == 4 && AllDigits(s) && DigitsValue(s) == n
  {
    var a, b, c, d := Digit(n / 1000), Digit(n / 100 % 10), Digit(n / 10 % 10), Digit(n % 10);
    DigitsValueAppend([], a);
    DigitsValueAppend([a], b);
    DigitsValueAppend([a, b], c);
    DigitsValueAppend([a, b, c], d);
    assert [] + [a] == [a] && [a] + [b] == [a, b] && [a, b] + [c] == [a, b, c] && [a, b, c] + [d] == [a, b, c, d];
    assert n / 100 == n / 1000 * 10 + n / 100 % 10;
    assert n / 10 == n / 100 * 10 + n / 10 % 10;
    [a, b, c, d]
  }

  // ---------------------------------------------------------------------------
  // The regular expression `(?P<Y>\d\d\d\d)-(?P<m>1[0-2]|0[1-9]|[1-9])-(?P<d>3[01]|[12]\d|0[1-9]|[1-9]| [1-9])`

  /** Length of the prefix of `r` that the first matching alternative of the
      `%m` group consumes when a `-` must follow it (0: no alternative fits). */
  function MonthMatch(r: string): (n: nat)
    ensures n <= 2
    ensures n > 0 ==> n < |r| && r[n] == '-'
  {
    if |r| >= 3 && r[0] == '1' && '0' <= r[1] <= '2' && r[2] == '-' then 2
    else if |r| >= 3 && r[0] == '0' && '1' <= r[1] <= '9' && r[2] == '-' then 2
    else if |r| >= 2 && '1' <= r[0] <= '9' && r[1] == '-' then 1
    else 0
  }

  /** Length of the prefix of `r` that the first matching alternative of the
      `%d` group consumes (0: no alternative fits). */
  function DayMatch(r: string): (n: nat)
    ensures n <= 2 && n <= |r|
  {
    if |r| >= 2 && r[0] == '3' && '0' <= r[1] <= '1' then 2
    else if |r| >= 2 && '1' <= r[0] <= '2' && IsDigit(r[1]) then 2
    else if |r| >= 2 && r[0] == '0' && '1' <= r[1] <= '9' then 2
    else if |r| >= 1 && '1' <= r[0] <= '9' then 1
    else if |r| >= 2 && r[0] == ' ' && '1' <= r[1] <= '9' then 2
    else 0
  }

  /** `int()` of a matched `%m` or `%d` group; `int()` ignores the leading
      blank that the last `%d` alternative allows. */
  function FieldValue(f: string): (n: int)
    requires 1 <= |f| <= 2
    requires f[0] == ' ' || IsDigit(f[0])
    requires IsDigit(f[|f| - 1])
    ensures 0 <= n < 100
  {
    if |f| == 1 then DigitValue(f[0])
    else if f[0] == ' ' then DigitValue(f[1])
    else DigitValue(f[0]) * 10 + DigitValue(f[1])
  }

  /** `datetime.strptime(s, '%Y-%m-%d')`: `None` where Python raises
      `ValueError` (no match, unconverted data remains, year 0, or a day the
      month does not have). Whatever it returns is a real calendar date. */
  function Parse(s: string): (r: Option<Date>)
    ensures r.Some? ==> ValidDate(r.value)
  {
    if |s| < 5 || !AllDigits(s[..4]) || s[4] != '-' then None
    else
      var rest := s[5..];
      var m := MonthMatch(rest);
      if m == 0 then None
      else
        var dayText := rest[m + 1..];
        var d := DayMatch(dayText);
        if d == 0 || d != |dayText| then None
        else
          var date := Date(DigitsValue(s[..4]), FieldValue(rest[..m]), FieldValue(dayText));
          if ValidDate(date) then Some(date) else None
  }

  // ---------------------------------------------------------------------------
  // The strings Parse accepts, described without the regular expression

  /** `YYYY-MM-DD` with every field zero-padded. */
  function Format(d: Date): (s: string)
    requires ValidDate(d)
    ensures |s| == 10
  {
    Pad4(d.year) + "-" + Pad2(d.month) + "-" + Pad2(d.day)
  }

  /** The spellings of a month that `%m` reads: two digits, or one below 10. */
  function MonthSpellings(m: int): set<string>
    requires 1 <= m <= 12
  {
    {Pad2(m)} + (if m < 10 then {[Digit(m)]} else {})
  }

  /** The spellings of a day that `%d` reads: two digits, or below 10 a
      single digit with or without one leading blank. */
  function DaySpellings(d: int): set<string>
    requires 1 <= d <= 31
  {
    {Pad2(d)} + (if d < 10 then {[Digit(d)], [' ', Digit(d)]} else {})
  }

  /** Every text that spells date `d` in the accepted format. */
  ghost predicate IsSpelling(s: string, d: Date)
    requires ValidDate(d)
  {
    exists mf, df :: mf in MonthSpellings(d.month) && df in DaySpellings(d.day) &&
      s == Pad4(d.year) + "-" + mf + "-" + df
  }

  // ---------------------------------------------------------------------------
  // Lemmas: Parse accepts exactly the spellings of valid dates

  lemma MonthFieldSpelling(rest: string)
    requires MonthMatch(rest) > 0
    ensures var f := rest[..MonthMatch(rest)];
      1 <= |f| <= 2 && (f[0] == ' ' || IsDigit(f[0])) && IsDigit(f[|f| - 1]) &&
      1 <= FieldValue(f) <= 12 && f in MonthSpellings(FieldValue(f))
  {
    var f := rest[..MonthMatch(rest)];
    if |f| == 2 {
      assert f == Pad2(FieldValue(f));
    } else {
      assert f == [Digit(FieldValue(f))];
    }
  }

  lemma DayFieldSpelling(t: string)
    requires 0 < DayMatch(t) == |t|
    ensures 1 <= |t| <= 2 && (t[0] == ' ' || IsDigit(t[0])) && IsDigit(t[|t| - 1])
    ensures 1 <= FieldValue(t) <= 31 ==> t in DaySpellings(FieldValue(t))
  {
    if |t| == 1 {
      assert t == [Digit(FieldValue(t))];
    } else if t[0] == ' ' {
      assert t == [' ', Digit(FieldValue(t))];
    } else if FieldValue(t) <= 31 {
      assert t == Pad2(FieldValue(t));
    }
  }

  /** Every text Parse accepts spells the date it returns. */
  lemma ParseOnlySpellings(s: string, d: Date)
    requires Parse(s) == Some(d)
    ensures ValidDate(d) && IsSpelling(s, d)
  {
    var yf, rest := s[..4], s[5..];
    var m := MonthMatch(rest);
    var mf := rest[..m];
    var df := rest[m + 1..];
    assert AllDigits(yf) && s[4] == '-' && m > 0 && 0 < DayMatch(df) == |df|;
    assert d == Date(DigitsValue(yf), FieldValue(mf), FieldValue(df));
    MonthFieldSpelling(rest);
    DayFieldSpelling(df);
    DigitsValueBound(yf);
    DigitsValueInjective(yf, Pad4(d.year));
    assert s == yf + "-" + mf + "-" + df by {
      assert s == s[..4] + [s[4]] + s[5..];
      assert rest == rest[..m] + [rest[m]] + rest[m + 1..];
    }
  }

  lemma MonthSpellingMatches(mf: string, m: int, tail: string)
    requires 1 <= m <= 12 && mf in MonthSpellings(m)
    ensures MonthMatch(mf + "-" + tail) == |mf|
    ensures 1 <= |mf| <= 2 && IsDigit(mf[0]) && IsDigit(mf[|mf| - 1]) && FieldValue(mf) == m
  {
  }

  lemma DaySpellingMatches(df: string, d: int)
    requires 1 <= d <= 31 && df in DaySpellings(d)
    ensures DayMatch(df) == |df|
    ensures 1 <= |df| <= 2 && (df[0] == ' ' || IsDigit(df[0])) && IsDigit(df[|df| - 1]) && FieldValue(df) == d
  {
  }

  /** Parse accepts every spelling of a valid date and returns that date. */
  lemma ParseAcceptsSpellings(d: Date, mf: string, df: string)
    requires ValidDate(d)
    requires mf in MonthSpellings(d.month) && df in DaySpellings(d.day)
    ensures Parse(Pad4(d.year) + "-" + mf + "-" + df) == Some(d)
  {
    var s := Pad4(d.year) + "-" + mf + "-" + df;
    var rest := mf + "-" + df;
    assert s[..4] == Pad4(d.year) && s[4] == '-' && s[5..] == rest;
    MonthSpellingMatches(mf, d.month, df);
    DaySpellingMatches(df, d.day);
    assert rest[|mf| + 1..] == df && rest[..|mf|] == mf;
  }

  /** Parse returns `d` exactly for the spellings of `d`, a valid date. */
  lemma ParseIffSpelling(s: string, d: Date)
    ensures Parse(s) == Some(d) <==> ValidDate(d) && IsSpelling(s, d)
  {
    if Parse(s) == Some(d) {
      ParseOnlySpellings(s, d);
    }
    if ValidDate(d) && IsSpelling(s, d) {
      var mf, df :| mf in MonthSpellings(d.month) && df in DaySpellings(d.day) &&
        s == Pad4(d.year) + "-" + mf + "-" + df;
      ParseAcceptsSpellings(d, mf, df);
    }
  }

  /** The canonical `YYYY-MM-DD` text of a valid date parses back to it. */
  lemma ParseFormat(d: Date)
    requires ValidDate(d)
    ensures Parse(Format(d)) == Some(d)
  {
    ParseAcceptsSpellings(d, Pad2(d.month), Pad2(d.day));
  }
}
