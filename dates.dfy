/**
 * The calendar dates the application reads and writes.
 *
 * Parsing follows CPython's `datetime.strptime`: a format is turned into a
 * regular expression in which `%Y` is four digits, `%m` is
 * `1[0-2]|0[1-9]|[1-9]` and `%d` is `3[01]|[12]\d|0[1-9]|[1-9]| [1-9]`; the
 * expression must match from the start and leave nothing over, and the date
 * it names must exist (year 1 to 9999, a day the month has).  Otherwise
 * strptime raises ValueError, which is `None` here.  Formatting follows
 * `strftime` with zero-padded `%d`, `%m` and four-digit `%Y`.
 */
module Dates {
  import opened Wrappers
  import opened Strings

  datatype Date = Date(year: int, month: int, day: int)

  /** A month of a year: what `strptime(s, "%m-%Y")` denotes. */
  datatype MonthKey = MonthKey(year: int, month: int)

  const MinYear := 1
  const MaxYear := 9999

  predicate IsLeapYear(y: int) {
    y % 4 == 0 && (y % 100 != 0 || y % 400 == 0)
  }

  function DaysInMonth(year: int, month: int): (n: int)
    requires 1 <= month <= 12
    ensures 28 <= n <= 31
    ensures n == 29 <==> month == 2 && IsLeapYear(year)
    ensures n == 28 <==> month == 2 && !IsLeapYear(year)
    ensures n == 30 <==> month == 4 || month == 6 || month == 9 || month == 11
  {
    if month == 2 then (if IsLeapYear(year) then 29 else 28)
    else if month == 4 || month == 6 || month == 9 || month == 11 then 30
    else 31
  }

  /** A date a `datetime` object can hold. */
  predicate ValidDate(d: Date) {
    MinYear <= d.year <= MaxYear && 1 <= d.month <= 12 && 1 <= d.day <= DaysInMonth(d.year, d.month)
  }

  // ---------------------------------------------------------------------
  // strftime
  // ---------------------------------------------------------------------

  function Pad2(n: int): (s: string)
    requires 0 <= n < 100
    ensures |s| == 2 && AllDigits(s)
  {
    [DigitChar(n / 10), DigitChar(n % 10)]
  }

  function Pad4(n: int): (s: string)
    requires 0 <= n < 10000
    ensures |s| == 4 && AllDigits(s)
  {
    [DigitChar(n / 1000), DigitChar(n / 100 % 10), DigitChar(n / 10 % 10), DigitChar(n % 10)]
  }

  /** `strftime("%d-%m-%Y")`, the form records are stored in. */
  function FormatDayMonthYear(d: Date): (s: string)
    requires ValidDate(d)
    ensures |s| == 10 && s[2] == '-' && s[5] == '-'
    ensures AllDigits(s[..2]) && AllDigits(s[3..5]) && AllDigits(s[6..])
    ensures DigitsToNat(s[..2]) == d.day && DigitsToNat(s[3..5]) == d.month && DigitsToNat(s[6..]) == d.year
  {
    Pad2Value(d.day);
    Pad2Value(d.month);
    Pad4Value(d.year);
    var s := Pad2(d.day) + "-" + Pad2(d.month) + "-" + Pad4(d.year);
    assert s[..2] == Pad2(d.day) && s[3..5] == Pad2(d.month) && s[6..] == Pad4(d.year);
    s
  }

  /** `strftime("%m-%Y")`, the month key of a record. */
  function FormatMonthYear(d: Date): (s: string)
    requires ValidDate(d)
    ensures |s| == 7 && s[2] == '-' && AllDigits(s[..2]) && AllDigits(s[3..])
    ensures DigitsToNat(s[..2]) == d.month && DigitsToNat(s[3..]) == d.year
  {
    Pad2Value(d.month);
    Pad4Value(d.year);
    var s := Pad2(d.month) + "-" + Pad4(d.year);
    assert s[..2] == Pad2(d.month) && s[3..] == Pad4(d.year);
    s
  }

  /** `strftime("%Y-%m-%d")`, the form an HTML date input submits. */
  function FormatIso(d: Date): (s: string)
    requires ValidDate(d)
    ensures |s| == 10 && s[4] == '-' && s[7] == '-'
    ensures AllDigits(s[..4]) && AllDigits(s[5..7]) && AllDigits(s[8..])
    ensures DigitsToNat(s[..4]) == d.year && DigitsToNat(s[5..7]) == d.month && DigitsToNat(s[8..]) == d.day
  {
    Pad2Value(d.day);
    Pad2Value(d.month);
    Pad4Value(d.year);
    var s := Pad4(d.year) + "-" + Pad2(d.month) + "-" + Pad2(d.day);
    assert s[..4] == Pad4(d.year) && s[5..7] == Pad2(d.month) && s[8..] == Pad2(d.day);
    s
  }

  // ---------------------------------------------------------------------
  // strptime
  // ---------------------------------------------------------------------

  /**
   * `%m` at position i, followed by the literal '-': the month and the
   * position of that '-'.  At most one alternative of the month pattern can
   * be followed by '-', so the regular expression's backtracking has exactly
   * one way to succeed.
   */
  function MonthThenDash(s: string, i: nat): (r: Option<(int, nat)>)
    ensures r.Some? ==> 1 <= r.value.0 <= 12 && i < r.value.1 < |s| && s[r.value.1] == '-'
  {
    if i + 1 < |s| && '1' <= s[i] <= '9' && s[i + 1] == '-' then
      Some((DigitValue(s[i]), i + 1))
    else if i + 2 < |s| && s[i + 2] == '-'
         && ((s[i] == '1' && '0' <= s[i + 1] <= '2') || (s[i] == '0' && '1' <= s[i + 1] <= '9')) then
      Some((10 * DigitValue(s[i]) + DigitValue(s[i + 1]), i + 2))
    else
      None
  }

  /**
   * `%d` at position i when nothing follows in the format: the first
   * alternative that matches wins.  Yields the day and the end of the match.
   */
  function DayField(s: string, i: nat): (r: Option<(int, nat)>)
    ensures r.Some? ==> 1 <= r.value.0 <= 31 && i < r.value.1 <= |s|
  {
    if i + 1 < |s| && s[i] == '3' && (s[i + 1] == '0' || s[i + 1] == '1') then
      Some((30 + DigitValue(s[i + 1]), i + 2))
    else if i + 1 < |s| && (s[i] == '1' || s[i] == '2') && IsDigit(s[i + 1]) then
      Some((10 * DigitValue(s[i]) + DigitValue(s[i + 1]), i + 2))
    else if i + 1 < |s| && s[i] == '0' && '1' <= s[i + 1] <= '9' then
      Some((DigitValue(s[i + 1]), i + 2))
    else if i < |s| && '1' <= s[i] <= '9' then
      Some((DigitValue(s[i]), i + 1))
    else if i + 1 < |s| && s[i] == ' ' && '1' <= s[i + 1] <= '9' then
      Some((DigitValue(s[i + 1]), i + 2))
    else
      None
  }

  /** `datetime.strptime(s, "%Y-%m-%d")`; None where it raises ValueError. */
  function ParseIsoDate(s: string): (r: Option<Date>)
    ensures r.Some? ==> ValidDate(r.value)
  {
    if |s| < 5 || !AllDigits(s[..4]) || s[4] != '-' then None
    else
      match MonthThenDash(s, 5)
      case None => None
      case Some((month, dash)) =>
        match DayField(s, dash + 1)
        case None => None
        case Some((day, end)) =>
          var d := Date(DigitsToNat(s[..4]), month, day);
          if end == |s| && ValidDate(d) then Some(d) else None
  }

  /** `datetime.strptime(s, "%m-%Y")`, as the month sort key; None where it raises ValueError. */
  function ParseMonthYear(s: string): (r: Option<MonthKey>)
    ensures r.Some? ==> MinYear <= r.value.year && 1 <= r.value.month <= 12
  {
    match MonthThenDash(s, 0)
    case None => None
    case Some((month, dash)) =>
      var digits := s[dash + 1..];
      if |digits| == 4 && AllDigits(digits) && DigitsToNat(digits) >= MinYear then
        Some(MonthKey(DigitsToNat(digits), month))
      else
        None
  }

  // ---------------------------------------------------------------------
  // Round trips and orderings
  // ---------------------------------------------------------------------

  lemma DigitsToNatSnoc(a: string, c: char)
    requires AllDigits(a) && IsDigit(c)
    ensures AllDigits(a + [c]) && DigitsToNat(a + [c]) == DigitsToNat(a) * 10 + DigitValue(c)
  {
    assert (a + [c])[..|a|] == a;
  }

  lemma Pad2Value(n: int)
    requires 0 <= n < 100
    ensures DigitsToNat(Pad2(n)) == n
  {
    DigitsToNatSnoc([], DigitChar(n / 10));
    assert [] + [DigitChar(n / 10)] == [DigitChar(n / 10)];
    DigitsToNatSnoc([DigitChar(n / 10)], DigitChar(n % 10));
    assert [DigitChar(n / 10)] + [DigitChar(n % 10)] == Pad2(n);
  }

  lemma Pad4Value(n: int)
    requires 0 <= n < 10000
    ensures DigitsToNat(Pad4(n)) == n
  {
    var a, b, c, d := DigitChar(n / 1000), DigitChar(n / 100 % 10), DigitChar(n / 10 % 10), DigitChar(n % 10);
    DigitsToNatSnoc([], a);
    assert [] + [a] == [a];
    DigitsToNatSnoc([a], b);
    assert [a] + [b] == [a, b];
    DigitsToNatSnoc([a, b], c);
    assert [a, b] + [c] == [a, b, c];
    DigitsToNatSnoc([a, b, c], d);
    assert [a, b, c] + [d] == Pad4(n);
    assert n / 100 == (n / 1000) * 10 + n / 100 % 10;
    assert n / 10 == (n / 100) * 10 + n / 10 % 10;
  }

  /** strptime("%Y-%m-%d") reads back what strftime("%Y-%m-%d") writes. */
  lemma {:induction false} ParseIsoOfFormat(d: Date)
    requires ValidDate(d)
    ensures ParseIsoDate(FormatIso(d)) == Some(d)
  {
    var s := FormatIso(d);
    assert s[..4] == Pad4(d.year);
    Pad4Value(d.year);
    assert MonthThenDash(s, 5) == Some((d.month, 7));
    assert DayField(s, 8) == Some((d.day, 10));
  }

  /** strptime("%m-%Y") reads back the month key strftime("%m-%Y") writes. */
  lemma {:induction false} ParseMonthYearOfFormat(d: Date)
    requires ValidDate(d)
    ensures ParseMonthYear(FormatMonthYear(d)) == Some(MonthKey(d.year, d.month))
  {
    var s := FormatMonthYear(d);
    assert MonthThenDash(s, 0) == Some((d.month, 2));
    assert s[3..] == Pad4(d.year);
    Pad4Value(d.year);
  }

  /** Zero-padded two-digit numbers sort as strings exactly as they sort as numbers. */
  lemma Pad2Order(x: int, y: int)
    requires 0 <= x < 100 && 0 <= y < 100
    ensures LexLess(Pad2(x), Pad2(y)) <==> x < y
  {
    var a1, a0, b1, b0 := x / 10, x % 10, y / 10, y % 10;
    assert x == 10 * a1 + a0 && y == 10 * b1 + b0;
    var p, q := Pad2(x), Pad2(y);
    assert p[0] as int == '0' as int + a1 && p[1] as int == '0' as int + a0;
    assert q[0] as int == '0' as int + b1 && q[1] as int == '0' as int + b0;
    if a1 != b1 {
      assert p[0] != q[0];
      assert LexLess(p, q) == (p[0] < q[0]);
    } else {
      assert p[0] == q[0];
      assert LexLess(p, q) == LexLess(p[1..], q[1..]);
      var p', q' := p[1..], q[1..];
      assert |p'| == 1 && |q'| == 1 && p'[0] == p[1] && q'[0] == q[1];
      if a0 != b0 {
        assert p'[0] != q'[0];
        assert LexLess(p', q') == (p'[0] < q'[0]);
      } else {
        assert p' == q';
        LexLessIrreflexive(p');
      }
    }
  }

  /**
   * Inside one month, the stored `DD-MM-YYYY` strings sort as their days do:
   * descending string order is descending day order.
   */
  lemma {:induction false} DayMonthYearOrderWithinMonth(a: Date, b: Date)
    requires ValidDate(a) && ValidDate(b)
    requires a.year == b.year && a.month == b.month
    ensures LexLess(FormatDayMonthYear(a), FormatDayMonthYear(b)) <==> a.day < b.day
    ensures FormatDayMonthYear(a) == FormatDayMonthYear(b) <==> a.day == b.day
  {
    var tail := "-" + Pad2(a.month) + "-" + Pad4(a.year);
    assert FormatDayMonthYear(a) == Pad2(a.day) + tail;
    assert FormatDayMonthYear(b) == Pad2(b.day) + tail;
    Pad2Value(a.day);
    Pad2Value(b.day);
    if a.day == b.day {
      LexLessIrreflexive(FormatDayMonthYear(a));
    } else {
      assert Pad2(a.day) != Pad2(b.day);
      LexLessCommonTail(Pad2(a.day), Pad2(b.day), tail, tail);
      Pad2Order(a.day, b.day);
      assert FormatDayMonthYear(a)[..2] != FormatDayMonthYear(b)[..2];
    }
  }

  /** February 29th parses in a leap year ... */
  lemma LeapDayParses()
    ensures ParseIsoDate("2024-02-29") == Some(Date(2024, 2, 29))
    ensures ParseIsoDate("2000-02-29") == Some(Date(2000, 2, 29))
  {
    assert FormatIso(Date(2024, 2, 29)) == "2024-02-29";
    ParseIsoOfFormat(Date(2024, 2, 29));
    assert FormatIso(Date(2000, 2, 29)) == "2000-02-29";
    ParseIsoOfFormat(Date(2000, 2, 29));
  }

  /** ... and not otherwise; 1900 is not a leap year. */
  lemma LeapDayRefused(y: int)
    requires 1 <= y <= 9999 && !IsLeapYear(y)
    ensures ParseIsoDate(Pad4(y) + "-02-29") == None
  {
    var s := Pad4(y) + "-02-29";
    assert s[..4] == Pad4(y);
    Pad4Value(y);
    assert MonthThenDash(s, 5) == Some((2, 7));
    assert DayField(s, 8) == Some((29, 10));
    assert !ValidDate(Date(y, 2, 29));
  }

  /** The month and the day may be written with one digit; trailing text, month 13 and year 0 are refused. */
  lemma ShapeExamples()
    ensures ParseIsoDate("2025-1-5") == Some(Date(2025, 1, 5))
    ensures ParseIsoDate("2025-01-05x") == None
    ensures ParseIsoDate("2025-13-01") == None
    ensures ParseIsoDate("0000-01-01") == None
    ensures ParseMonthYear("1-2025") == Some(MonthKey(2025, 1))
  {
    assert DigitsToNat("2025") == 2025 by { Pad4Value(2025); assert Pad4(2025) == "2025"; }
    assert DigitsToNat("0000") == 0 by { Pad4Value(0); assert Pad4(0) == "0000"; }
    assert "1-2025"[2..] == "2025";
    assert "2025-1-5"[..4] == "2025" && "0000-01-01"[..4] == "0000";
    assert MonthThenDash("2025-1-5", 5) == Some((1, 6));
    assert DayField("2025-1-5", 7) == Some((5, 8));
  }
}
