/** Calendar dates as the client reads and writes them: `strptime(text,
    "%Y-%m-%d")` to read a delivery-start date or the cutoff, `strftime(
    "%Y-%m-%d")` to print one, and the order of their midnight timestamps. */
module Dates {
  import opened Results
  import opened Decimal

  datatype Date = Date(year: int, month: int, day: int)

  predicate IsLeapYear(y: int) {
    y % 4 == 0 && (y % 100 != 0 || y % 400 == 0)
  }

  function DaysInMonth(y: int, m: int): int {
    if m == 2 then (if IsLeapYear(y) then 29 else 28)
    else if m == 4 || m == 6 || m == 9 || m == 11 then 30
    else 31
  }

  /** A date Python's `datetime` accepts. */
  predicate Valid(d: Date) {
    && 1 <= d.year <= 9999
    && 1 <= d.month <= 12
    && 1 <= d.day <= DaysInMonth(d.year, d.month)
  }

  /** `a` is the same day as `b` or later. Local midnights are strictly
      increasing in the date, so comparing the two `timestamp()` values with
      `>=` is this order on the dates. */
  predicate OnOrAfter(a: Date, b: Date) {
    || a.year > b.year
    || (a.year == b.year && a.month > b.month)
    || (a.year == b.year && a.month == b.month && a.day >= b.day)
  }

  /** The `%m` field: the first of the alternatives `1[0-2]`, `0[1-9]`, `[1-9]`
      that matches at the front of `t`, with the number of characters read. */
  function MatchMonth(t: string): (r: Option<(int, nat)>)
    ensures r.Some? ==> 1 <= r.value.0 <= 12 && 1 <= r.value.1 <= |t|
  {
    if |t| >= 2 && t[0] == '1' && '0' <= t[1] <= '2' then Some((10 + DigitValue(t[1]), 2))
    else if |t| >= 2 && t[0] == '0' && '1' <= t[1] <= '9' then Some((DigitValue(t[1]), 2))
    else if |t| >= 1 && '1' <= t[0] <= '9' then Some((DigitValue(t[0]), 1))
    else None
  }

  /** The `%d` field: the first of the alternatives `3[01]`, `[12][0-9]`,
      `0[1-9]`, `[1-9]`, ` [1-9]` that matches at the front of `t`. */
  function MatchDay(t: string): (r: Option<(int, nat)>)
    ensures r.Some? ==> 1 <= r.value.0 <= 31 && 1 <= r.value.1 <= |t|
  {
    if |t| >= 2 && t[0] == '3' && '0' <= t[1] <= '1' then Some((30 + DigitValue(t[1]), 2))
    else if |t| >= 2 && '1' <= t[0] <= '2' && IsDigit(t[1]) then Some((10 * DigitValue(t[0]) + DigitValue(t[1]), 2))
    else if |t| >= 2 && t[0] == '0' && '1' <= t[1] <= '9' then Some((DigitValue(t[1]), 2))
    else if |t| >= 1 && '1' <= t[0] <= '9' then Some((DigitValue(t[0]), 1))
    else if |t| >= 2 && t[0] == ' ' && '1' <= t[1] <= '9' then Some((DigitValue(t[1]), 2))
    else None
  }

  /** `datetime.strptime(s, "%Y-%m-%d")`: four digits, a dash, the month, a
      dash, the day, and nothing after it ("unconverted data remains"
      otherwise); the result must then be a real date. `None` stands for the
      `ValueError` raised on any other text. */
  function ParseIso(s: string): (r: Option<Date>)
    ensures r.Some? ==> Valid(r.value)
  {
    if |s| < 5 || !AllDigits(s[..4]) || s[4] != '-' then None
    else
      var year := DigitsValue(s[..4]);
      DigitsValueBound(s[..4]);
      assert Pow10(4) == 10000;
      match MatchMonth(s[5..])
      case None => None
      case Some(m) =>
        var t := s[5 + m.1..];
        if |t| == 0 || t[0] != '-' then None
        else
          match MatchDay(t[1..])
          case None => None
          case Some(d) =>
            if d.1 != |t| - 1 then None
            else if year >= 1 && d.0 <= DaysInMonth(year, m.0) then Some(Date(year, m.0, d.0))
            else None
  }

  /** `date.strftime("%Y-%m-%d")`: zero-padded year, month and day. */
  function FormatIso(d: Date): (s: string)
    requires Valid(d)
    ensures |s| == 10 && s[4] == '-' && s[7] == '-'
  {
    Pad(d.year, 4) + "-" + Pad(d.month, 2) + "-" + Pad(d.day, 2)
  }

  /** The printed fields are all digits and read back as the year, the month
      and the day. */
  lemma FormatIsoFields(d: Date)
    requires Valid(d)
    ensures var s := FormatIso(d);
      && AllDigits(s[..4]) && AllDigits(s[5..7]) && AllDigits(s[8..])
      && DigitsValue(s[..4]) == d.year && DigitsValue(s[5..7]) == d.month && DigitsValue(s[8..]) == d.day
  {
    var s := FormatIso(d);
    assert s[..4] == Pad(d.year, 4) && s[5..7] == Pad(d.month, 2) && s[8..] == Pad(d.day, 2);
    PadRoundTrip(d.year, 4);
    PadRoundTrip(d.month, 2);
    PadRoundTrip(d.day, 2);
  }


  lemma MonthFieldRoundTrip(m: int, rest: string)
    requires 1 <= m <= 12
    ensures MatchMonth(Pad(m, 2) + rest) == Some((m, 2))
  {
    var t := Pad(m, 2) + rest;
    PadTwo(m);
    DigitRoundTrip(m / 10);
    DigitRoundTrip(m % 10);
    assert t[0] == DigitChar(m / 10) && t[1] == DigitChar(m % 10);
  }

  lemma DayFieldRoundTrip(day: int)
    requires 1 <= day <= 31
    ensures MatchDay(Pad(day, 2)) == Some((day, 2))
  {
    PadTwo(day);
    DigitRoundTrip(day / 10);
    DigitRoundTrip(day % 10);
  }

  /** Reading a printed date gives the date back: `strptime(strftime(d)) == d`. */
  lemma ParseFormatRoundTrip(d: Date)
    requires Valid(d)
    ensures ParseIso(FormatIso(d)) == Some(d)
  {
    var s := FormatIso(d);
    assert s[..4] == Pad(d.year, 4);
    PadRoundTrip(d.year, 4);
    assert s[5..] == Pad(d.month, 2) + ("-" + Pad(d.day, 2));
    MonthFieldRoundTrip(d.month, "-" + Pad(d.day, 2));
    var t := s[7..];
    assert t == "-" + Pad(d.day, 2);
    assert t[1..] == Pad(d.day, 2);
    DayFieldRoundTrip(d.day);
  }

  /** Printing is canonical: whatever spelling was read, printing the date and
      reading it again yields the same date. */
  lemma ParseIsCanonical(s: string)
    requires ParseIso(s).Some?
    ensures ParseIso(FormatIso(ParseIso(s).value)) == ParseIso(s)
  {
    ParseFormatRoundTrip(ParseIso(s).value);
  }
}
