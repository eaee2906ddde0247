/** The part of Python's datetime module the scraper uses: proleptic
    Gregorian dates, a time of day to the minute, adding one day, comparing
    dates, strftime('%Y-%m-%d') and strptime with the formats '%Y-%m-%d' and
    '%Y-%m-%d-%H:%M' (flyhigh.py:11, 32, 39, 76-79, 88). */
module Calendar {
  import opened Wrappers
  import opened Text

  datatype Date = Date(year: int, month: int, day: int)

  /** A datetime read with '%H:%M': its seconds and microseconds are zero,
      so only the date, hour and minute are kept. */
  datatype DateTime = DateTime(date: Date, hour: int, minute: int)

  /** A datetime as datetime.now() gives it, down to the microsecond. */
  datatype Instant = Instant(at: DateTime, second: int, microsecond: int)

  const MinYear := 1
  const MaxYear := 9999

  /** datetime.MAXYEAR-12-31: the one date with no successor. */
  const LastDate := Date(MaxYear, 12, 31)

  predicate IsLeapYear(y: int) {
    y % 4 == 0 && (y % 100 != 0 || y % 400 == 0)
  }

  function DaysInYear(y: int): int {
    if IsLeapYear(y) then 366 else 365
  }

  function DaysInMonth(y: int, m: int): (n: int)
    requires 1 <= m <= 12
    ensures 28 <= n <= 31
  {
    if m == 2 then (if IsLeapYear(y) then 29 else 28)
    else if m == 4 || m == 6 || m == 9 || m == 11 then 30
    else 31
  }

  /** What the datetime constructor accepts. */
  predicate ValidDate(d: Date) {
    && MinYear <= d.year <= MaxYear
    && 1 <= d.month <= 12
    && 1 <= d.day <= DaysInMonth(d.year, d.month)
  }

  predicate ValidDateTime(t: DateTime) {
    ValidDate(t.date) && 0 <= t.hour <= 23 && 0 <= t.minute <= 59
  }

  /** datetime.strptime(date, '%Y-%m-%d') carries no time: midnight. */
  function Midnight(d: Date): DateTime {
    DateTime(d, 0, 0)
  }

  // ---------------------------------------------------------------------
  // Comparison and the ordinal day number
  // ---------------------------------------------------------------------

  /** Python's `<` on dates: lexicographic on (year, month, day). */
  predicate Before(a: Date, b: Date) {
    || a.year < b.year
    || (a.year == b.year && a.month < b.month)
    || (a.year == b.year && a.month == b.month && a.day < b.day)
  }

  /** Python's `<=` on dates. */
  predicate NotAfter(a: Date, b: Date)
    ensures NotAfter(a, b) <==> !Before(b, a)
  {
    a == b || Before(a, b)
  }

  /** Python's `<` on datetimes: by date, then by time of day. */
  predicate EarlierThan(a: DateTime, b: DateTime) {
    || Before(a.date, b.date)
    || (a.date == b.date && (a.hour < b.hour || (a.hour == b.hour && a.minute < b.minute)))
  }

  /** Days in the years before year y (0 for year 1). */
  function DaysBeforeYear(y: int): int
    requires y >= 1
  {
    var p := y - 1;
    p * 365 + p / 4 - p / 100 + p / 400
  }

  /** Days in the months of year y before month m. */
  function DaysBeforeMonth(y: int, m: int): (n: int)
    requires 1 <= m <= 12
    ensures 0 <= n
  {
    [0, 31, 59, 90, 120, 151, 181, 212, 243, 273, 304, 334][m - 1]
      + (if m > 2 && IsLeapYear(y) then 1 else 0)
  }

  /** date.toordinal(): 0001-01-01 is day 1. */
  function DayNumber(d: Date): int
    requires ValidDate(d)
  {
    DaysBeforeYear(d.year) + DaysBeforeMonth(d.year, d.month) + d.day
  }

  lemma DaysBeforeYearStep(y: int)
    requires y >= 1
    ensures DaysBeforeYear(y + 1) == DaysBeforeYear(y) + DaysInYear(y)
  {
    var p := y - 1;
    var e4, e100, e400 := (if y % 4 == 0 then 1 else 0), (if y % 100 == 0 then 1 else 0), (if y % 400 == 0 then 1 else 0);
    LeapCountStep(y);
    LeapIndicators(y);
    calc {
      DaysBeforeYear(y + 1);
      y * 365 + y / 4 - y / 100 + y / 400;
      (p * 365 + p / 4 - p / 100 + p / 400) + (365 + e4 - e100 + e400);
      DaysBeforeYear(y) + DaysInYear(y);
    }
  }

  /** A year has 365 days, one more when it is a multiple of 4, one fewer
      when it is a multiple of 100 and one more again when it is a multiple
      of 400. */
  lemma LeapIndicators(y: int)
    ensures DaysInYear(y) == 365 + (if y % 4 == 0 then 1 else 0)
      - (if y % 100 == 0 then 1 else 0) + (if y % 400 == 0 then 1 else 0)
  {
    if y % 400 == 0 {
      var k := y / 400;
      assert y == 100 * (4 * k) && y == 4 * (100 * k);
    } else if y % 100 == 0 {
      var k := y / 100;
      assert y == 4 * (25 * k);
    }
  }

  /** Going from year y - 1 to year y, each count of multiples (of 4, 100
      and 400) grows by one exactly when y is such a multiple. */
  lemma LeapCountStep(y: int)
    requires y >= 1
    ensures y / 4 == (y - 1) / 4 + (if y % 4 == 0 then 1 else 0)
    ensures y / 100 == (y - 1) / 100 + (if y % 100 == 0 then 1 else 0)
    ensures y / 400 == (y - 1) / 400 + (if y % 400 == 0 then 1 else 0)
  {
  }

  lemma {:induction false} DaysBeforeYearGrows(y: int, z: int)
    requires 1 <= y < z
    ensures DaysBeforeYear(y) + DaysInYear(y) <= DaysBeforeYear(z)
    decreases z - y
  {
    DaysBeforeYearStep(y);
    if y + 1 < z {
      DaysBeforeYearGrows(y + 1, z);
    }
  }

  lemma DaysBeforeMonthOfYear(y: int)
    ensures DaysBeforeMonth(y, 12) + 31 == DaysInYear(y)
  {
  }

  lemma DaysBeforeMonthStep(y: int, m: int)
    requires 1 <= m < 12
    ensures DaysBeforeMonth(y, m) + DaysInMonth(y, m) == DaysBeforeMonth(y, m + 1)
  {
  }

  lemma {:induction false} DaysBeforeMonthGrows(y: int, m: int, n: int)
    requires 1 <= m < n <= 12
    ensures DaysBeforeMonth(y, m) + DaysInMonth(y, m) <= DaysBeforeMonth(y, n)
    decreases n - m
  {
    DaysBeforeMonthStep(y, m);
    if m + 1 < n {
      DaysBeforeMonthGrows(y, m + 1, n);
    }
  }

  /** The ordinal numbering of valid dates follows Python's order. */
  lemma DayNumberOrder(a: Date, b: Date)
    requires ValidDate(a) && ValidDate(b)
    ensures Before(a, b) <==> DayNumber(a) < DayNumber(b)
    ensures a == b <==> DayNumber(a) == DayNumber(b)
  {
    if a.year < b.year {
      DayNumberWithinYear(a);
      DaysBeforeYearGrows(a.year, b.year);
    } else if b.year < a.year {
      DayNumberWithinYear(b);
      DaysBeforeYearGrows(b.year, a.year);
    } else if a.month < b.month {
      DaysBeforeMonthGrows(a.year, a.month, b.month);
    } else if b.month < a.month {
      DaysBeforeMonthGrows(a.year, b.month, a.month);
    }
  }

  lemma DayNumberWithinYear(d: Date)
    requires ValidDate(d)
    ensures DayNumber(d) <= DaysBeforeYear(d.year) + DaysInYear(d.year)
  {
    if d.month < 12 {
      DaysBeforeMonthGrows(d.year, d.month, 12);
    }
    DaysBeforeMonthOfYear(d.year);
  }

  // ---------------------------------------------------------------------
  // Adding one day
  // ---------------------------------------------------------------------

  /** d + timedelta(days = 1); Python raises OverflowError on LastDate. */
  function NextDay(d: Date): (r: Date)
    requires ValidDate(d) && d != LastDate
    ensures ValidDate(r) && Before(d, r)
  {
    if d.day < DaysInMonth(d.year, d.month) then Date(d.year, d.month, d.day + 1)
    else if d.month < 12 then Date(d.year, d.month + 1, 1)
    else Date(d.year + 1, 1, 1)
  }

  /** Adding a day adds one to the ordinal. */
  lemma NextDayNumber(d: Date)
    requires ValidDate(d) && d != LastDate
    ensures DayNumber(NextDay(d)) == DayNumber(d) + 1
  {
    if d.day == DaysInMonth(d.year, d.month) && d.month == 12 {
      DaysBeforeYearStep(d.year);
      DaysBeforeMonthOfYear(d.year);
    }
  }

  /** No valid date lies strictly between a date and the next one. */
  lemma NextDayIsSuccessor(d: Date, e: Date)
    requires ValidDate(d) && d != LastDate && ValidDate(e)
    ensures Before(d, e) <==> NotAfter(NextDay(d), e)
  {
    NextDayNumber(d);
    DayNumberOrder(d, e);
    DayNumberOrder(NextDay(d), e);
  }

  // ---------------------------------------------------------------------
  // The dates of a range, one day apart
  // ---------------------------------------------------------------------

  /** The dates first, first + 1 day, ..., last (empty when last < first),
      which the driver loop of flyhigh.py:77-88 walks through. */
  function DateRange(first: Date, last: Date): (r: seq<Date>)
    requires ValidDate(first) && ValidDate(last) && last != LastDate
    ensures r == [] <==> !NotAfter(first, last)
    ensures r != [] ==> r[0] == first
    decreases DayNumber(last) - DayNumber(first) + 1
  {
    if !NotAfter(first, last) then []
    else
      DayNumberOrder(first, last);
      NextDayNumber(first);
      [first] + DateRange(NextDay(first), last)
  }

  /** Stepping through a range: a date not after the last one is followed
      in the range by the range from the next day. */
  lemma DateRangeStep(cur: Date, last: Date)
    requires ValidDate(cur) && ValidDate(last) && last != LastDate
    requires NotAfter(cur, last)
    ensures cur != LastDate && ValidDate(NextDay(cur))
    ensures DateRange(cur, last) == [cur] + DateRange(NextDay(cur), last)
  {
    DayNumberOrder(cur, last);
    NextDayNumber(cur);
  }

  /** The range starts at `first`, every element is valid and inside the
      range, and each date is followed by the next day. */
  lemma {:induction false} DateRangeSteps(first: Date, last: Date)
    requires ValidDate(first) && ValidDate(last) && last != LastDate
    ensures var r := DateRange(first, last);
      && (NotAfter(first, last) ==> |r| > 0 && r[0] == first)
      && (forall i :: 0 <= i < |r| ==> ValidDate(r[i]) && NotAfter(first, r[i]) && NotAfter(r[i], last))
      && (forall i :: 0 <= i < |r| - 1 ==> r[i] != LastDate && r[i + 1] == NextDay(r[i]))
    decreases DayNumber(last) - DayNumber(first) + 1
  {
    if NotAfter(first, last) {
      DayNumberOrder(first, last);
      NextDayNumber(first);
      var next := NextDay(first);
      DateRangeSteps(next, last);
      var r := DateRange(first, last);
      var rest := DateRange(next, last);
      assert r == [first] + rest;
      forall i | 0 <= i < |r|
        ensures ValidDate(r[i]) && NotAfter(first, r[i]) && NotAfter(r[i], last)
      {
        if i > 0 {
          assert r[i] == rest[i - 1];
          DayNumberOrder(first, next);
          DayNumberOrder(next, r[i]);
          DayNumberOrder(first, r[i]);
        }
      }
    }
  }

  /** There are DayNumber(last) - DayNumber(first) + 1 dates in the range. */
  lemma {:induction false} DateRangeLength(first: Date, last: Date)
    requires ValidDate(first) && ValidDate(last) && last != LastDate
    requires NotAfter(first, last)
    ensures |DateRange(first, last)| == DayNumber(last) - DayNumber(first) + 1
    decreases DayNumber(last) - DayNumber(first) + 1
  {
    DayNumberOrder(first, last);
    NextDayNumber(first);
    var next := NextDay(first);
    if first != last {
      NextDayIsSuccessor(first, last);
      DateRangeLength(next, last);
    } else {
      DayNumberOrder(next, last);
    }
  }

  /** The dates of the range are strictly ascending, so none repeats. */
  lemma DateRangeAscending(first: Date, last: Date)
    requires ValidDate(first) && ValidDate(last) && last != LastDate
    ensures var r := DateRange(first, last);
      forall i, j :: 0 <= i < j < |r| ==> Before(r[i], r[j])
  {
    var r := DateRange(first, last);
    DateRangeSteps(first, last);
    forall i, j | 0 <= i < j < |r|
      ensures Before(r[i], r[j])
    {
      AscendingBySteps(r, i, j);
    }
  }

  lemma {:induction false} AscendingBySteps(r: seq<Date>, i: int, j: int)
    requires forall k :: 0 <= k < |r| ==> ValidDate(r[k])
    requires forall k :: 0 <= k < |r| - 1 ==> r[k] != LastDate && r[k + 1] == NextDay(r[k])
    requires 0 <= i < j < |r|
    ensures DayNumber(r[i]) < DayNumber(r[j]) && Before(r[i], r[j])
    decreases j - i
  {
    NextDayNumber(r[i]);
    if i + 1 < j {
      AscendingBySteps(r, i + 1, j);
    }
    DayNumberOrder(r[i], r[j]);
  }

  /** Every valid date between first and last is in the range, and
      nothing else is. */
  lemma {:induction false} DateRangeComplete(first: Date, last: Date, d: Date)
    requires ValidDate(first) && ValidDate(last) && last != LastDate && ValidDate(d)
    ensures d in DateRange(first, last) <==> NotAfter(first, d) && NotAfter(d, last)
    decreases DayNumber(last) - DayNumber(first) + 1
  {
    DateRangeSteps(first, last);
    if NotAfter(first, last) && NotAfter(first, d) && NotAfter(d, last) && d != first {
      DayNumberOrder(first, last);
      NextDayNumber(first);
      NextDayIsSuccessor(first, d);
      DayNumberOrder(d, last);
      DayNumberOrder(NextDay(first), d);
      DateRangeComplete(NextDay(first), last, d);
    }
  }

  // ---------------------------------------------------------------------
  // strftime('%Y-%m-%d')
  // ---------------------------------------------------------------------

  /** strftime's %Y hands the year to the C library, and glibc writes it
      without leading zeros: only a year from 1000 on comes out as the four
      digits strptime's %Y reads. */
  predicate FourDigitYear(d: Date) {
    1000 <= d.year
  }

  /** currentDate.strftime('%Y-%m-%d') (flyhigh.py:79): the year's digits,
      then the month and the day zero-padded to two places. */
  function FormatDate(d: Date): (s: string)
    requires ValidDate(d)
    ensures FourDigitYear(d) ==> |s| == 10 && s[4] == '-' && s[7] == '-'
    ensures !FourDigitYear(d) ==> 6 <= |s| < 10 && s[|s| - 6] == '-'
  {
    assert Pow10(2) == 100;
    YearDigits(d);
    PaddedLength(d.month, 2);
    PaddedLength(d.day, 2);
    Decimal(d.year) + "-" + Padded(d.month, 2) + "-" + Padded(d.day, 2)
  }

  /** A valid year has four digits from 1000 on and at most three below. */
  lemma YearDigits(d: Date)
    requires ValidDate(d)
    ensures FourDigitYear(d) ==> |Decimal(d.year)| == 4
    ensures !FourDigitYear(d) ==> |Decimal(d.year)| <= 3
  {
    if FourDigitYear(d) {
      DecimalOfFourDigits(d.year);
    } else {
      assert Pow10(3) == 1000;
      DecimalLength(d.year, 3);
    }
  }

  /** The clock text "HH:MM" as the result page shows it. */
  function ClockText(h: nat, m: nat): string {
    Padded(h, 2) + ":" + Padded(m, 2)
  }

  // ---------------------------------------------------------------------
  // strptime with '%Y-%m-%d' and '%Y-%m-%d-%H:%M'
  // ---------------------------------------------------------------------

  /** Length of the run of ASCII digits that starts s. */
  function DigitRun(s: string): (k: nat)
    ensures k <= |s| && AllDigits(s[..k])
    ensures k == |s| || !IsDigit(s[k])
  {
    if s == [] || !IsDigit(s[0]) then 0 else 1 + DigitRun(s[1..])
  }

  /** A one- or two-digit field (%m, %d, %H, %M) with its value in lo..hi,
      and the text after it. The regular expressions CPython builds for these
      directives accept exactly such a field whenever a non-digit (or the end
      of the text) follows it. */
  function NumberField(s: string, lo: nat, hi: nat): (r: Option<(nat, string)>)
    ensures r.Some? ==> lo <= r.value.0 <= hi && |r.value.1| < |s|
  {
    var k := DigitRun(s);
    if 1 <= k <= 2 && lo <= Numeral(s[..k]) <= hi then Some((Numeral(s[..k]), s[k..])) else None
  }

  /** %d also accepts a space followed by one non-zero digit. */
  function DayField(s: string): (r: Option<(nat, string)>)
    ensures r.Some? ==> 1 <= r.value.0 <= 31
  {
    if |s| >= 2 && s[0] == ' ' && '1' <= s[1] <= '9' then Some((DigitValue(s[1]), s[2..]))
    else NumberField(s, 1, 31)
  }

  /** "%m-%d" at the start of s: month, day and the text after them. */
  function MonthDay(s: string): Option<(nat, nat, string)> {
    var month := NumberField(s, 1, 12);
    if month.None? || month.value.1 == [] || month.value.1[0] != '-' then None
    else
      var day := DayField(month.value.1[1..]);
      if day.None? then None else Some((month.value.0, day.value.0, day.value.1))
  }

  /** The fields of "%Y-%m-%d" at the start of s (%Y is exactly four
      digits), before the date is checked, and the text after them. */
  function DateFields(s: string): Option<(Date, string)> {
    if |s| < 5 || !AllDigits(s[..4]) || s[4] != '-' then None
    else
      var md := MonthDay(s[5..]);
      if md.None? then None
      else Some((Date(Numeral(s[..4]), md.value.0, md.value.1), md.value.2))
  }

  /** "%H:%M" making up the whole of s: hour 0..23 and minute 0..59, one or
      two digits each; anything left over is "unconverted data". */
  function ParseClock(s: string): (r: Option<(nat, nat)>)
    ensures r.Some? ==> r.value.0 <= 23 && r.value.1 <= 59
  {
    var hour := NumberField(s, 0, 23);
    if hour.None? || hour.value.1 == [] || hour.value.1[0] != ':' then None
    else
      var minute := NumberField(hour.value.1[1..], 0, 59);
      if minute.None? || minute.value.1 != [] then None
      else Some((hour.value.0, minute.value.0))
  }

  /** datetime.strptime(s, '%Y-%m-%d'), None standing for ValueError. */
  function ParseDate(s: string): (r: Option<Date>)
    ensures r.Some? ==> ValidDate(r.value)
  {
    var fields := DateFields(s);
    if fields.None? || fields.value.1 != [] || !ValidDate(fields.value.0) then None
    else Some(fields.value.0)
  }

  /** datetime.strptime(s, '%Y-%m-%d-%H:%M'), None standing for ValueError. */
  function ParseStamp(s: string): (r: Option<DateTime>)
    ensures r.Some? ==> ValidDateTime(r.value)
  {
    var fields := DateFields(s);
    if fields.None? || fields.value.1 == [] || fields.value.1[0] != '-' then None
    else
      var clock := ParseClock(fields.value.1[1..]);
      if clock.None? || !ValidDate(fields.value.0) then None
      else Some(DateTime(fields.value.0, clock.value.0, clock.value.1))
  }

  // ---------------------------------------------------------------------
  // strptime inverts strftime
  // ---------------------------------------------------------------------

  lemma {:induction false} DigitRunOf(w: string, rest: string)
    requires AllDigits(w) && (rest == [] || !IsDigit(rest[0]))
    ensures DigitRun(w + rest) == |w|
  {
    if w != [] {
      assert (w + rest)[1..] == w[1..] + rest;
      DigitRunOf(w[1..], rest);
    } else {
      assert w + rest == rest;
    }
  }

  /** A two-digit zero-padded field followed by a non-digit reads back. */
  lemma NumberFieldOfPadded(n: nat, lo: nat, hi: nat, rest: string)
    requires n < 100 && (rest == [] || !IsDigit(rest[0]))
    ensures NumberField(Padded(n, 2) + rest, lo, hi)
      == if lo <= n <= hi then Some((n, rest)) else None
  {
    assert Pow10(2) == 100;
    PaddedLength(n, 2);
    var p := Padded(n, 2);
    DigitRunOf(p, rest);
    assert (p + rest)[..2] == p;
    assert (p + rest)[2..] == rest;
    NumeralOfPadded(n, 2);
  }

  /** A zero-padded day does not start with the space %d also allows. */
  lemma DayFieldOfPadded(n: nat, rest: string)
    requires 1 <= n <= 31 && (rest == [] || !IsDigit(rest[0]))
    ensures DayField(Padded(n, 2) + rest) == Some((n, rest))
  {
    var dd := Padded(n, 2);
    assert IsDigit(dd[0]);
    assert (dd + rest)[0] == dd[0];
    NumberFieldOfPadded(n, 1, 31, rest);
  }

  lemma MonthDayOfFormat(d: Date, rest: string)
    requires ValidDate(d) && (rest == [] || !IsDigit(rest[0]))
    ensures MonthDay(Padded(d.month, 2) + "-" + Padded(d.day, 2) + rest)
      == Some((d.month as nat, d.day as nat, rest))
  {
    var mm, dd := Padded(d.month, 2), Padded(d.day, 2);
    var tail := ['-'] + (dd + rest);
    calc {
      MonthDay(mm + "-" + dd + rest);
      { assert mm + "-" + dd + rest == mm + tail; }
      MonthDay(mm + tail);
      { NumberFieldOfPadded(d.month, 1, 12, tail); assert tail[1..] == dd + rest; }
      if DayField(dd + rest).None? then None
      else Some((d.month as nat, DayField(dd + rest).value.0, DayField(dd + rest).value.1));
      { DayFieldOfPadded(d.day, rest); }
      Some((d.month as nat, d.day as nat, rest));
    }
  }

  lemma DateFieldsOfFormat(d: Date, rest: string)
    requires ValidDate(d) && FourDigitYear(d) && (rest == [] || !IsDigit(rest[0]))
    ensures DateFields(FormatDate(d) + rest) == Some((d, rest))
  {
    var tail := Padded(d.month, 2) + "-" + Padded(d.day, 2) + rest;
    var s := FormatDate(d) + rest;
    DecimalOfFourDigits(d.year);
    assert s == Padded(d.year, 4) + ['-'] + tail;
    YearOfPadded(d.year, tail);
    MonthDayOfFormat(d, rest);
  }

  /** A four-digit zero-padded year and a '-' in front of the rest. */
  lemma YearOfPadded(year: nat, tail: string)
    requires year <= MaxYear
    ensures var s := Padded(year, 4) + ['-'] + tail;
      && |s| >= 5 && AllDigits(s[..4]) && s[4] == '-'
      && Numeral(s[..4]) == year && s[5..] == tail
  {
    assert Pow10(4) == 10000;
    PaddedLength(year, 4);
    NumeralOfPadded(year, 4);
    var y := Padded(year, 4);
    var s := y + ['-'] + tail;
    assert s[..4] == y;
    assert s[5..] == tail;
  }

  /** A year below 1000 is written with fewer than four digits, so the
      '-' after it falls among the four characters %Y reads as digits. */
  lemma ShortYearFields(d: Date, rest: string)
    requires ValidDate(d) && !FourDigitYear(d)
    ensures DateFields(FormatDate(d) + rest) == None
  {
    var k := |Decimal(d.year)|;
    assert Pow10(3) == 1000;
    DecimalLength(d.year, 3);
    var s := FormatDate(d) + rest;
    assert s[k] == '-';
    assert |s| < 5 || !AllDigits(s[..4]) by {
      if |s| >= 5 {
        assert s[..4][k] == '-';
      }
    }
  }

  /** strptime(strftime(d, '%Y-%m-%d'), '%Y-%m-%d') gives d back when its
      year has four digits, and raises ValueError otherwise. */
  lemma ParseDateOfFormat(d: Date)
    requires ValidDate(d)
    ensures ParseDate(FormatDate(d)) == if FourDigitYear(d) then Some(d) else None
  {
    assert FormatDate(d) + [] == FormatDate(d);
    if FourDigitYear(d) {
      DateFieldsOfFormat(d, []);
    } else {
      ShortYearFields(d, []);
    }
  }

  /** Parsing the searched date joined to a clock text by '-' yields that
      date with the clock's hour and minute when the year has four digits;
      it fails exactly when the clock text does or the year is shorter. */
  lemma ParseStampOfFormat(d: Date, clock: string)
    requires ValidDate(d)
    ensures ParseStamp(FormatDate(d) + "-" + clock)
      == if FourDigitYear(d) && ParseClock(clock).Some?
         then Some(DateTime(d, ParseClock(clock).value.0, ParseClock(clock).value.1))
         else None
  {
    var rest := "-" + clock;
    assert FormatDate(d) + "-" + clock == FormatDate(d) + rest;
    if FourDigitYear(d) {
      DateFieldsOfFormat(d, rest);
      assert rest[1..] == clock;
    } else {
      ShortYearFields(d, rest);
    }
  }

  /** "HH:MM" reads back as (HH, MM) exactly when it is a time of day. */
  lemma ParseClockOfText(h: nat, m: nat)
    requires h < 100 && m < 100
    ensures ParseClock(ClockText(h, m)) == if h <= 23 && m <= 59 then Some((h, m)) else None
  {
    var mm := Padded(m, 2);
    NumberFieldOfPadded(h, 0, 23, ":" + mm);
    assert ClockText(h, m) == Padded(h, 2) + (":" + mm);
    assert (":" + mm)[1..] == mm;
    NumberFieldOfPadded(m, 0, 59, []);
    assert mm + [] == mm;
  }
}
