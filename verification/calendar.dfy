/** The proleptic Gregorian calendar as Python's `datetime` counts it: day
    ordinals with 0001-01-01 as day 1, the valid range of years 1 to 9999,
    the spreadsheet serial-day epoch 1899-12-30, and `strftime('%d-%m-%Y')`. */
module Calendar {
  import opened Strings

  datatype CivilDate = CivilDate(year: int, month: int, day: int)

  predicate IsLeap(y: int) {
    y % 4 == 0 && (y % 100 != 0 || y % 400 == 0)
  }

  function DaysInYear(y: int): nat {
    if IsLeap(y) then 366 else 365
  }

  function DaysInMonth(y: int, m: int): nat
    requires 1 <= m <= 12
  {
    if m == 2 then (if IsLeap(y) then 29 else 28)
    else if m == 4 || m == 6 || m == 9 || m == 11 then 30
    else 31
  }

  /** Days of year `y` before the first of month `m`; month 13 stands for
      the end of the year. */
  function DaysBeforeMonth(y: int, m: int): nat
    requires 1 <= m <= 13
  {
    var common :=
      if m == 1 then 0 else if m == 2 then 31 else if m == 3 then 59
      else if m == 4 then 90 else if m == 5 then 120 else if m == 6 then 151
      else if m == 7 then 181 else if m == 8 then 212 else if m == 9 then 243
      else if m == 10 then 273 else if m == 11 then 304 else if m == 12 then 334
      else 365;
    common + (if m > 2 && IsLeap(y) then 1 else 0)
  }

  lemma DaysBeforeMonthStep(y: int, m: int)
    requires 1 <= m <= 12
    ensures DaysBeforeMonth(y, m + 1) == DaysBeforeMonth(y, m) + DaysInMonth(y, m)
    ensures DaysBeforeMonth(y, 13) == DaysInYear(y)
  {
  }

  /** A day of the proleptic Gregorian calendar from year 1 onward. */
  predicate IsCalendarDate(d: CivilDate) {
    && d.year >= 1
    && 1 <= d.month <= 12
    && 1 <= d.day <= DaysInMonth(d.year, d.month)
  }

  /** A date Python's `datetime` can hold: years 1 to 9999. */
  predicate ValidDate(d: CivilDate) {
    IsCalendarDate(d) && d.year <= 9999
  }

  /** Days in all years before year `y`. */
  function DaysBeforeYear(y: int): int
    requires y >= 1
  {
    var k := y - 1;
    365 * k + k / 4 - k / 100 + k / 400
  }

  /** `date.toordinal()`: 0001-01-01 is day 1. */
  function ToOrdinal(d: CivilDate): int
    requires d.year >= 1 && 1 <= d.month <= 12
  {
    DaysBeforeYear(d.year) + DaysBeforeMonth(d.year, d.month) + d.day
  }

  lemma DaysBeforeYearStep(y: int)
    requires y >= 1
    ensures DaysBeforeYear(y + 1) == DaysBeforeYear(y) + DaysInYear(y)
  {
    var k := y - 1;
    assert (k + 1) / 4 == k / 4 + (if y % 4 == 0 then 1 else 0);
    assert (k + 1) / 100 == k / 100 + (if y % 100 == 0 then 1 else 0);
    assert (k + 1) / 400 == k / 400 + (if y % 400 == 0 then 1 else 0);
  }

  /** Four hundred Gregorian years always hold 146097 days. */
  lemma DaysBeforeCycle(q: nat)
    ensures DaysBeforeYear(400 * q + 1) == 146097 * q
  {
    var k := 400 * q;
    assert k / 4 == 100 * q;
    assert k / 100 == 4 * q;
    assert k / 400 == q;
  }

  lemma {:induction false} DaysBeforeYearMonotone(a: int, b: int)
    requires 1 <= a <= b
    ensures DaysBeforeYear(a) + 365 * (b - a) <= DaysBeforeYear(b)
    decreases b - a
  {
    if a < b {
      DaysBeforeYearMonotone(a, b - 1);
      DaysBeforeYearStep(b - 1);
    }
  }

  /** Walks forward a year at a time from `y` while at least a whole year of
      the `r` remaining days is left. */
  function YearWalk(y: int, r: nat): (p: (int, nat))
    requires y >= 1
    ensures p.0 >= y && p.1 < DaysInYear(p.0)
    ensures DaysBeforeYear(p.0) + p.1 == DaysBeforeYear(y) + r
    decreases r
  {
    if r < DaysInYear(y) then (y, r)
    else
      DaysBeforeYearStep(y);
      YearWalk(y + 1, r - DaysInYear(y))
  }

  /** Walks forward a month at a time from month `m` of year `y`. */
  function MonthWalk(y: int, m: int, r: nat): (p: (int, nat))
    requires 1 <= m <= 12
    requires DaysBeforeMonth(y, m) + r < DaysInYear(y)
    ensures m <= p.0 <= 12 && p.1 < DaysInMonth(y, p.0)
    ensures DaysBeforeMonth(y, p.0) + p.1 == DaysBeforeMonth(y, m) + r
    decreases 12 - m
  {
    DaysBeforeMonthStep(y, m);
    if r < DaysInMonth(y, m) then (m, r)
    else MonthWalk(y, m + 1, r - DaysInMonth(y, m))
  }

  /** `date.fromordinal(n)`: whole 400-year cycles first, then years, then
      months. The result is a real calendar date with ordinal `n`. */
  function FromOrdinal(n: int): (d: CivilDate)
    requires n >= 1
    ensures IsCalendarDate(d)
    ensures ToOrdinal(d) == n
  {
    var q := (n - 1) / 146097;
    var rem := (n - 1) % 146097;
    assert n - 1 == 146097 * q + rem;
    DaysBeforeCycle(q);
    var yr := YearWalk(400 * q + 1, rem);
    assert DaysBeforeYear(yr.0) + yr.1 == n - 1;
    DaysBeforeMonthStep(yr.0, 12);
    var md := MonthWalk(yr.0, 1, yr.1);
    assert DaysBeforeMonth(yr.0, md.0) + md.1 == yr.1;
    CivilDate(yr.0, md.0, md.1 + 1)
  }

  /** A valid date's ordinal lies inside its own year. */
  lemma OrdinalWithinYear(d: CivilDate)
    requires IsCalendarDate(d)
    ensures DaysBeforeYear(d.year) < ToOrdinal(d) <= DaysBeforeYear(d.year + 1)
  {
    DaysBeforeYearStep(d.year);
    DaysBeforeMonthStep(d.year, d.month);
    DaysBeforeMonthMonotone(d.year, d.month + 1, 13);
  }

  lemma {:induction false} DaysBeforeMonthMonotone(y: int, a: int, b: int)
    requires 1 <= a <= b <= 13
    ensures DaysBeforeMonth(y, a) <= DaysBeforeMonth(y, b)
    decreases b - a
  {
    if a < b {
      DaysBeforeMonthMonotone(y, a, b - 1);
      DaysBeforeMonthStep(y, b - 1);
    }
  }

  /** Two real dates with the same ordinal are the same date. */
  lemma OrdinalInjective(a: CivilDate, b: CivilDate)
    requires IsCalendarDate(a)
    requires IsCalendarDate(b)
    requires ToOrdinal(a) == ToOrdinal(b)
    ensures a == b
  {
    OrdinalWithinYear(a);
    OrdinalWithinYear(b);
    if a.year < b.year {
      DaysBeforeYearMonotone(a.year + 1, b.year);
    } else if b.year < a.year {
      DaysBeforeYearMonotone(b.year + 1, a.year);
    }
    assert a.year == b.year;
    var y := a.year;
    DaysBeforeMonthStep(y, a.month);
    DaysBeforeMonthStep(y, b.month);
    if a.month < b.month {
      DaysBeforeMonthMonotone(y, a.month + 1, b.month);
    } else if b.month < a.month {
      DaysBeforeMonthMonotone(y, b.month + 1, a.month);
    }
  }

  /** `fromordinal(toordinal(d)) == d` for every real date. */
  lemma OrdinalRoundTrip(d: CivilDate)
    requires IsCalendarDate(d)
    ensures ToOrdinal(d) >= 1 && FromOrdinal(ToOrdinal(d)) == d
  {
    OrdinalWithinYear(d);
    OrdinalInjective(FromOrdinal(ToOrdinal(d)), d);
  }

  /** 1899-12-30, day zero of spreadsheet serial dates. */
  const EpochOrdinal := 693594
  /** 9999-12-31, the last day `datetime` can represent. */
  const MaxOrdinal := 3652059

  lemma EpochAndMaxOrdinals()
    ensures ToOrdinal(CivilDate(1899, 12, 30)) == EpochOrdinal
    ensures ToOrdinal(CivilDate(9999, 12, 31)) == MaxOrdinal
    ensures DaysBeforeYear(10000) == MaxOrdinal
  {
  }

  /** `datetime(1899, 12, 30) + timedelta(days=n)`: the date `n` days after
      the epoch, or `None` where Python raises `OverflowError` because the
      result falls outside years 1 to 9999. */
  function SerialToDate(n: int): (r: Option<CivilDate>)
    ensures r.Some? <==> 1 <= EpochOrdinal + n <= MaxOrdinal
    ensures r.Some? ==> ValidDate(r.value) && ToOrdinal(r.value) == EpochOrdinal + n
  {
    var k := EpochOrdinal + n;
    if 1 <= k <= MaxOrdinal then
      var d := FromOrdinal(k);
      YearAtMost9999(d);
      Some(d)
    else None
  }

  /** A date whose ordinal is at most that of 9999-12-31 lies in year 9999
      or earlier. */
  lemma YearAtMost9999(d: CivilDate)
    requires IsCalendarDate(d)
    requires ToOrdinal(d) <= MaxOrdinal
    ensures d.year <= 9999
  {
    OrdinalWithinYear(d);
    if d.year > 9999 {
      DaysBeforeYearMonotone(10000, d.year);
    }
  }

  /** Every real date of years 1 to 9999 is some serial day count, and
      converting that count gives the date back. */
  lemma SerialRoundTrip(d: CivilDate)
    requires ValidDate(d)
    ensures SerialToDate(ToOrdinal(d) - EpochOrdinal) == Some(d)
  {
    OrdinalWithinYear(d);
    DaysBeforeYearMonotone(d.year + 1, 10000);
    OrdinalRoundTrip(d);
  }

  /** Serial day 500000 is 12 December 3268. */
  lemma Serial500000()
    ensures SerialToDate(500000) == Some(CivilDate(3268, 12, 12))
  {
    var d := CivilDate(3268, 12, 12);
    assert ToOrdinal(d) == EpochOrdinal + 500000;
    SerialRoundTrip(d);
  }

  // ---------------------------------------------------------------------
  // strftime('%d-%m-%Y')

  /** `strftime('%d-%m-%Y')`: two-digit day, two-digit month and four-digit
      year, separated by hyphens. */
  function FormatDMY(d: CivilDate): (s: string)
    requires d.year >= 0 && d.month >= 0 && d.day >= 0
  {
    ZeroPad(d.day, 2) + "-" + ZeroPad(d.month, 2) + "-" + ZeroPad(d.year, 4)
  }

  /** Reads `DD-MM-YYYY` back into a date. */
  function ParseDMY(s: string): Option<CivilDate> {
    if |s| == 10 && s[2] == '-' && s[5] == '-'
       && AllDigits(s[0..2]) && AllDigits(s[3..5]) && AllDigits(s[6..10])
    then Some(CivilDate(DigitsValue(s[6..10]), DigitsValue(s[3..5]), DigitsValue(s[0..2])))
    else None
  }

  /** Every date of years 1 to 9999 is written in exactly ten characters
      and reads back as itself. */
  lemma FormatDMYRoundTrip(d: CivilDate)
    requires ValidDate(d)
    ensures |FormatDMY(d)| == 10
    ensures ParseDMY(FormatDMY(d)) == Some(d)
  {
    var dd := ZeroPad(d.day, 2);
    var mm := ZeroPad(d.month, 2);
    var yy := ZeroPad(d.year, 4);
    ZeroPadSmall(d.day, 2, 100);
    ZeroPadSmall(d.month, 2, 100);
    ZeroPadSmall(d.year, 4, 10000);
    ZeroPadRoundTrip(d.day, 2);
    ZeroPadRoundTrip(d.month, 2);
    ZeroPadRoundTrip(d.year, 4);
    var s := FormatDMY(d);
    assert s[0..2] == dd;
    assert s[3..5] == mm;
    assert s[6..10] == yy;
  }
}
