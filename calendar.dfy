/*
 * Calendar arithmetic of the clock: conversion between a 2000-based uint32
 * count of seconds and a broken-down `tm` record, and back.
 *
 * The reference calendar below (Gregorian leap rule, month lengths, days
 * before a year or a month, all counted from 2000-01-01) is independent of
 * the firmware's cycle arithmetic; the lemmas at the end connect the two.
 */
module Calendar {
  import opened FixedWidth

  const SUNDAY: int := 0
  const SATURDAY: int := 6
  const JANUARY: int := 0
  const FEBRUARY: int := 1
  const MARCH: int := 2
  const JULY: int := 6
  const DECEMBER: int := 11

  const SECONDS_PER_DAY: int := 86400

  /** The `tm` record: `int8_t` fields, except year, day of year and DST flag which are `int16_t`. */
  datatype Tm = Tm(sec: int8, min: int8, hour: int8, mday: int8, wday: int8,
                   mon: int8, year: int16, yday: int16, isdst: int16)

  // ---------------------------------------------------------------------
  // Reference calendar; years are offsets from 2000.
  // ---------------------------------------------------------------------

  predicate Gregorian(year: int) {
    year % 4 == 0 && (year % 100 != 0 || year % 400 == 0)
  }

  /** 1 when year 2000 + y has a February 29. */
  function LeapDay(y: int): int {
    if Gregorian(y + 2000) then 1 else 0
  }

  function DaysInYear(y: int): int {
    365 + LeapDay(y)
  }

  /** Days from 2000-01-01 to January 1 of year 2000 + y. */
  function DaysBefore(y: nat): nat {
    if y == 0 then 0 else DaysBefore(y - 1) + DaysInYear(y - 1)
  }

  /** Length of month m (0 = January) of a year with `leap` February 29s. */
  function MonthLength(leap: int, m: int): int
    requires 0 <= m < 12
  {
    [31, 28 + leap, 31, 30, 31, 30, 31, 31, 30, 31, 30, 31][m]
  }

  /** Days from January 1 to the first day of month m. */
  function DaysBeforeMonth(leap: int, m: int): int
    requires 0 <= m <= 12
  {
    if m == 0 then 0 else DaysBeforeMonth(leap, m - 1) + MonthLength(leap, m - 1)
  }

  /** A broken-down time that names an existing second of years 2000 to 2136. */
  predicate ValidDate(t: Tm) {
    && 0 <= t.sec < 60 && 0 <= t.min < 60 && 0 <= t.hour < 24
    && 0 <= t.mon < 12 && 0 <= t.year
    && 1 <= t.mday <= MonthLength(LeapDay(t.year), t.mon)
    && (DaysBefore(t.year) + DaysBeforeMonth(LeapDay(t.year), t.mon) + t.mday - 1) * SECONDS_PER_DAY
       + t.hour * 3600 + t.min * 60 + t.sec < 0x1_0000_0000
  }

  // ---------------------------------------------------------------------
  // The firmware (Time.cpp)
  // ---------------------------------------------------------------------

  /** `is_leap_year`: `year & 3` is the residue mod 4 in two's complement; `div` truncates. */
  function IsLeapYear(year: int16): (r: uint8)
  {
    if year % 4 != 0 then 0
    else if TruncMod(year, 100) != 0 then 1
    else if TruncDiv(year, 100) % 4 == 0 then 1
    else 0
  }

  /** The 100- and 4-year cycle mapping of `gmtime`: (years, day of year, leap flag). */
  function YearOfDay(days: nat): (nat, nat, nat)
  {
    var years0 := 100 * (days / 36525);
    var rem := days % 36525;
    var years1 := years0 + 4 * (rem / 1461);
    var d1 := rem % 1461;
    var d2 := if years1 > 100 then d1 + 1 else d1;
    var leap0 := if years1 == 100 then 0 else 1;
    if d2 > 364 + leap0 then
      var d3 := d2 - leap0;
      (years1 + d3 / 365, d3 % 365, 0)
    else
      (years1, d2, leap0)
  }

  /** The month split of `gmtime`: (month, zero-based day of month). */
  function MonthOfDay(yday: nat, leap: nat): (nat, nat)
  {
    var n := 59 + leap;
    if yday < n then
      (yday / 31, yday % 31)
    else
      var e := yday - n;
      var r1 := e % 153;
      var r2 := r1 % 61;
      (2 + (e / 153) * 5 + (r1 / 61) * 2 + r2 / 31, r2 % 31)
  }

  /** `gmtime`: breaks a 2000-based second count down into a `tm` record. */
  function GmTime(timer: uint32): (t: Tm)
  {
    var days := timer / SECONDS_PER_DAY;
    var fract := timer % SECONDS_PER_DAY;
    var yd := YearOfDay(days);
    YearOfDayBounds(days);
    var md := MonthOfDay(yd.1, yd.2);
    MonthOfDayBounds(yd.1, yd.2);
    Tm(fract % 60, (fract / 60) % 60, fract / 3600, md.1 + 1, (days + SATURDAY) % 7,
       md.0, yd.0, yd.1, 0)
  }

  /** `leaps` of `mktime`: February 29s before year n, ignoring the 400-year rule (16-bit `int`). */
  function MkLeaps(n: int16): int {
    if n == 0 then 0
    else
      var m := Signed16(n - 1);
      TruncDiv(m, 4) - TruncDiv(m, 100) + 1
  }

  /** `d` of `mktime`: day of year from month and day of month, with no range check. */
  function MkYearDay(t: Tm): int {
    var d := t.mday - 1;
    if t.mon < 2 then
      if t.mon != 0 then d + 31 else d
    else
      var d1 := d + 59 + IsLeapYear(Signed16(t.year + 2000));
      var n := t.mon - MARCH;
      var d2 := if n > JULY - MARCH then d1 + 153 else d1;
      var n5 := n % 5;
      var d3 := d2 + (n5 / 2) * 61;
      if n5 % 2 == 1 then d3 + 31 else d3
  }

  /** Whole days before the year, `365UL * n + leaps` in `uint32_t`. */
  function MkYearStart(n: int16): uint32 {
    Wrap32(Wrap32(365 * Wrap32(n)) + Wrap32(MkLeaps(n)))
  }

  /** `tmp += d`: the whole days before the given day. */
  function MkDayCount(t: Tm): uint32 {
    Wrap32(MkYearStart(t.year) + Wrap32(MkYearDay(t)))
  }

  /** The "fractional" day, hour * 3600 + min * 60 + sec in `uint32_t`. */
  function MkDaySeconds(t: Tm): uint32 {
    var f := Wrap32(Wrap32(Wrap32(t.hour) * 3600) + Wrap32(Wrap32(t.min) * 60));
    Wrap32(f + Wrap32(t.sec))
  }

  /**
   * `mktime`: every step is `uint32_t` arithmetic, so each conversion and
   * product wraps modulo 2^32, as the firmware computes it.
   */
  function MkTime(t: Tm): (r: uint32)
  {
    Wrap32(Wrap32(MkDayCount(t) * SECONDS_PER_DAY) + MkDaySeconds(t))
  }

  /**
   * `mktime` with its write-back: the caller's record is replaced by the
   * broken-down form of the result, so every field ends up in range.
   */
  method MkTimeWriteBack(t: Tm) returns (r: uint32, t': Tm)
    ensures r == MkTime(t) && t' == GmTime(r)
    ensures ValidDate(t') && t'.year <= 136 && 0 <= t'.wday < 7
    ensures t'.yday == DaysBeforeMonth(LeapDay(t'.year), t'.mon) + t'.mday - 1
  {
    r := MkTime(t);
    t' := GmTime(r);
    GmTimeCorrect(r);
  }

  // ---------------------------------------------------------------------
  // Bounds needed for the `int8`/`int16` fields
  // ---------------------------------------------------------------------

  lemma YearOfDayBounds(days: nat)
    ensures YearOfDay(days).0 <= 4 * days + 100 && YearOfDay(days).1 < 366 && YearOfDay(days).2 <= 1
    ensures days <= 49710 ==> YearOfDay(days).0 <= 200
  {}

  lemma MonthOfDayBounds(yday: nat, leap: nat)
    requires yday < 366 && leap <= 1
    ensures MonthOfDay(yday, leap).0 <= 12 && MonthOfDay(yday, leap).1 < 31
  {}

  // ---------------------------------------------------------------------
  // Leap years
  // ---------------------------------------------------------------------

  /** `is_leap_year` is the Gregorian rule for every 16-bit year, negative ones included. */
  lemma IsLeapYearGregorian(year: int16)
    ensures IsLeapYear(year) == 1 <==> Gregorian(year)
    ensures IsLeapYear(year) == 0 || IsLeapYear(year) == 1
  {
    if year % 4 == 0 && year % 100 == 0 {
      var q := year / 100;
      assert year == 100 * q;
      assert TruncMod(year, 100) == 0;
      assert TruncDiv(year, 100) == q;
      assert q % 4 == 0 <==> year % 400 == 0;
    } else if year % 4 == 0 {
      assert TruncMod(year, 100) != 0;
    }
  }

  /** 2000 is a leap year, 2100 is not, 2104 is (offsets 0, 100, 104). */
  lemma LeapYearExamples()
    ensures LeapDay(0) == 1 && LeapDay(4) == 1 && LeapDay(100) == 0 && LeapDay(104) == 1
    ensures IsLeapYear(2000) == 1 && IsLeapYear(2100) == 0 && IsLeapYear(2400) == 1
  {
    IsLeapYearGregorian(2000);
    IsLeapYearGregorian(2100);
    IsLeapYearGregorian(2400);
  }

  /** February 29s before year y, as the firmware counts them (no 400-year rule). */
  function LeapsBefore(y: nat): int {
    if y == 0 then 0 else (y - 1) / 4 - (y - 1) / 100 + 1
  }

  /** Between k - 1 and k, the quotient by d grows exactly when d divides k. */
  lemma DivStep(k: nat, d: nat)
    requires k > 0 && d > 0
    ensures k / d - (k - 1) / d == (if k % d == 0 then 1 else 0)
  {
    var q, r := (k - 1) / d, (k - 1) % d;
    if r == d - 1 {
      DivModUnique(k, q + 1, 0, d);
    } else {
      DivModUnique(k, q, r + 1, d);
    }
  }

  /** Below 2400 the Gregorian rule reduces to: divisible by 4 and, if by 100, then by 400 only at 2000. */
  lemma LeapDayRule(k: nat)
    requires k < 400
    ensures LeapDay(k) == (if k % 4 == 0 && (k % 100 != 0 || k == 0) then 1 else 0)
  {
    var y := k + 2000;
    assert y % 4 == k % 4 && y % 100 == k % 100 by {
      DivModUnique(y, k / 4 + 500, k % 4, 4);
      DivModUnique(y, k / 100 + 20, k % 100, 100);
    }
    if k % 100 == 0 {
      assert y % 400 == 0 <==> k == 0 by {
        if k == 0 {
          DivModUnique(y, 5, 0, 400);
        } else {
          var c := k / 100;
          assert 1 <= c <= 3 && k == 100 * c;
          DivModUnique(y, 5, 100 * c, 400);
        }
      }
    }
  }

  lemma {:induction false} DaysBeforeClosedForm(y: nat)
    requires y <= 400
    ensures DaysBefore(y) == 365 * y + LeapsBefore(y)
  {
    if y > 0 {
      DaysBeforeClosedForm(y - 1);
      LeapsStep(y - 1);
    }
  }

  /** Each year adds its own February 29 to the count. */
  lemma LeapsStep(k: nat)
    requires k < 400
    ensures LeapsBefore(k + 1) == LeapsBefore(k) + LeapDay(k)
  {
    LeapDayRule(k);
    if k > 0 {
      DivStep(k, 4);
      DivStep(k, 100);
    }
  }

  lemma {:induction false} DaysBeforeGrowth(y1: nat, y2: nat)
    requires y1 < y2
    ensures DaysBefore(y2) >= DaysBefore(y1) + DaysInYear(y1)
  {
    if y2 > y1 + 1 {
      DaysBeforeGrowth(y1, y2 - 1);
    }
  }

  /** `mktime`'s leap count is the reference count for every year gmtime can produce. */
  lemma MkLeapsCorrect(n: int16)
    requires 0 <= n <= 400
    ensures 365 * n + MkLeaps(n) == DaysBefore(n)
  {
    DaysBeforeClosedForm(n);
    if n > 0 {
      Signed16Id(n - 1);
      assert TruncDiv(n - 1, 4) == (n - 1) / 4 && TruncDiv(n - 1, 100) == (n - 1) / 100;
      assert MkLeaps(n) == LeapsBefore(n);
    }
  }

  // ---------------------------------------------------------------------
  // The month table
  // ---------------------------------------------------------------------

  lemma DaysBeforeMonthValues(leap: int)
    ensures DaysBeforeMonth(leap, 1) == 31 && DaysBeforeMonth(leap, 2) == 59 + leap
    ensures DaysBeforeMonth(leap, 3) == 90 + leap && DaysBeforeMonth(leap, 4) == 120 + leap
    ensures DaysBeforeMonth(leap, 5) == 151 + leap && DaysBeforeMonth(leap, 6) == 181 + leap
    ensures DaysBeforeMonth(leap, 7) == 212 + leap && DaysBeforeMonth(leap, 8) == 243 + leap
    ensures DaysBeforeMonth(leap, 9) == 273 + leap && DaysBeforeMonth(leap, 10) == 304 + leap
    ensures DaysBeforeMonth(leap, 11) == 334 + leap && DaysBeforeMonth(leap, 12) == 365 + leap
  {
    assert DaysBeforeMonth(leap, 1) == 31;
    assert DaysBeforeMonth(leap, 2) == 59 + leap;
    assert DaysBeforeMonth(leap, 3) == 90 + leap;
    assert DaysBeforeMonth(leap, 4) == 120 + leap;
    assert DaysBeforeMonth(leap, 5) == 151 + leap;
    assert DaysBeforeMonth(leap, 6) == 181 + leap;
    assert DaysBeforeMonth(leap, 7) == 212 + leap;
    assert DaysBeforeMonth(leap, 8) == 243 + leap;
    assert DaysBeforeMonth(leap, 9) == 273 + leap;
    assert DaysBeforeMonth(leap, 10) == 304 + leap;
    assert DaysBeforeMonth(leap, 11) == 334 + leap;
  }

  lemma {:induction false} DaysBeforeMonthGrowth(leap: int, m1: int, m2: int)
    requires 0 <= leap && 0 <= m1 < m2 <= 12
    ensures DaysBeforeMonth(leap, m2) >= DaysBeforeMonth(leap, m1) + MonthLength(leap, m1)
  {
    if m2 > m1 + 1 {
      DaysBeforeMonthGrowth(leap, m1, m2 - 1);
    }
  }

  /** A day of year lies in exactly one month. */
  lemma MonthUnique(leap: int, m1: int, d1: int, m2: int, d2: int)
    requires 0 <= leap <= 1 && 0 <= m1 < 12 && 0 <= m2 < 12
    requires 0 <= d1 < MonthLength(leap, m1) && 0 <= d2 < MonthLength(leap, m2)
    requires DaysBeforeMonth(leap, m1) + d1 == DaysBeforeMonth(leap, m2) + d2
    ensures m1 == m2 && d1 == d2
  {
    if m1 < m2 {
      DaysBeforeMonthGrowth(leap, m1, m2);
    } else if m2 < m1 {
      DaysBeforeMonthGrowth(leap, m2, m1);
    }
  }

  /** A day count since 2000 lies in exactly one year. */
  lemma YearUnique(y1: nat, d1: int, y2: nat, d2: int)
    requires 0 <= d1 < DaysInYear(y1) && 0 <= d2 < DaysInYear(y2)
    requires DaysBefore(y1) + d1 == DaysBefore(y2) + d2
    ensures y1 == y2 && d1 == d2
  {
    if y1 < y2 {
      DaysBeforeGrowth(y1, y2);
    } else if y2 < y1 {
      DaysBeforeGrowth(y2, y1);
    }
  }

  // ---------------------------------------------------------------------
  // gmtime against the reference calendar
  // ---------------------------------------------------------------------

  /** The year and day of year `YearOfDay` finds for a day count, checked against the reference. */
  predicate YearOfDayOk(days: nat) {
    var (y, yd, leap) := YearOfDay(days);
    && y <= 136 && DaysBefore(y) + yd == days && yd < DaysInYear(y)
    && (yd < 59 || leap == LeapDay(y)) && leap <= 1
  }

  /** January 1 of year 4k + j, for the years a uint32 reaches. */
  lemma DaysBeforeCycle(k: nat, j: nat)
    requires j < 4 && 4 * k + j <= 140
    ensures DaysBefore(4 * k + j) ==
      1461 * k + (if j == 0 then 0 else 365 * j + 1) - (if 4 * k + j > 100 then 1 else 0)
  {
    var y := 4 * k + j;
    DaysBeforeClosedForm(y);
    if y > 0 {
      if j == 0 {
        assert (y - 1) / 4 == k - 1;
      } else {
        assert (y - 1) / 4 == k;
      }
      assert (y - 1) / 100 == (if y > 100 then 1 else 0);
    }
  }

  /** Within the reach of a uint32 every fourth year is a leap year, except 2100. */
  lemma LeapDayCycle(k: nat, j: nat)
    requires j < 4 && 4 * k + j <= 140
    ensures LeapDay(4 * k + j) == (if j == 0 && k != 25 then 1 else 0)
  {
    var y := 4 * k + j + 2000;
    var q := y / 4;
    assert y == 4 * q + y % 4;
    assert y % 4 == j;
    if j == 0 {
      assert y % 100 == 0 <==> k == 0 || k == 25;
      assert y % 400 == 0 <==> k == 0;
    }
  }

  /** Years 2000 to 2099: four-year cycles, the first of each a leap year. */
  lemma YearOfDayFirstCentury(days: nat)
    requires days < 36525
    ensures YearOfDayOk(days)
  {
    var k := days / 1461;
    var d1 := days % 1461;
    DivModUnique(days, 0, days, 36525);
    assert days == 1461 * k + d1 && k <= 24;
    if d1 > 365 {
      var j := (d1 - 1) / 365;
      var yd := (d1 - 1) % 365;
      assert d1 - 1 == 365 * j + yd && 1 <= j <= 3;
      assert YearOfDay(days) == (4 * k + j, yd, 0);
      DaysBeforeCycle(k, j);
      LeapDayCycle(k, j);
    } else {
      assert YearOfDay(days) == (4 * k, d1, 1);
      DaysBeforeCycle(k, 0);
      LeapDayCycle(k, 0);
    }
  }

  /** Years 2100 to 2103: 2100 is not a leap year; day 1460 is January 1 of 2104. */
  lemma YearOfDay2100(days: nat)
    requires 36525 <= days < 36525 + 1461
    ensures YearOfDayOk(days)
  {
    var d1 := days - 36525;
    DivModUnique(days, 1, d1, 36525);
    DivModUnique(d1, 0, d1, 1461);
    if d1 > 364 {
      var j := d1 / 365;
      var yd := d1 % 365;
      assert d1 == 365 * j + yd && 1 <= j <= 4;
      assert YearOfDay(days) == (100 + j, yd, 0);
      if j == 4 {
        DaysBeforeCycle(26, 0);
      } else {
        DaysBeforeCycle(25, j);
        LeapDayCycle(25, j);
      }
    } else {
      assert YearOfDay(days) == (100, d1, 0);
      DaysBeforeCycle(25, 0);
      LeapDayCycle(25, 0);
    }
  }

  /** Years 2104 to 2136: four-year cycles shifted by the missing February 29 of 2100. */
  lemma YearOfDayLater(days: nat)
    requires 36525 + 1461 <= days <= 49710
    ensures YearOfDayOk(days)
  {
    var r := days - 36525;
    var k := r / 1461;
    var d1 := r % 1461;
    DivModUnique(days, 1, r, 36525);
    assert r == 1461 * k + d1 && 1 <= k <= 9;
    assert k == 9 ==> d1 <= 36;
    if d1 + 1 > 365 {
      var j := d1 / 365;
      var yd := d1 % 365;
      assert d1 == 365 * j + yd && 1 <= j <= 4;
      assert YearOfDay(days) == (100 + 4 * k + j, yd, 0);
      if j == 4 {
        DaysBeforeCycle(26 + k, 0);
      } else {
        DaysBeforeCycle(25 + k, j);
        LeapDayCycle(25 + k, j);
      }
    } else {
      assert YearOfDay(days) == (100 + 4 * k, d1 + 1, 1);
      DaysBeforeCycle(25 + k, 0);
      LeapDayCycle(25 + k, 0);
    }
  }

  /**
   * The cycle mapping finds the year and day of year of every day a uint32
   * reaches. Its leap flag is wrong only on January 1 of 2104, 2108, ...,
   * where the month split does not consult it.
   */
  lemma YearOfDayCorrect(days: nat)
    requires days <= 49710
    ensures YearOfDayOk(days)
  {
    if days < 36525 {
      YearOfDayFirstCentury(days);
    } else if days < 36525 + 1461 {
      YearOfDay2100(days);
    } else {
      YearOfDayLater(days);
    }
  }

  /** The month split finds the month and day of month of every day of a year. */
  lemma MonthOfDayCorrect(yd: nat, leap: nat)
    requires leap <= 1 && yd < 365 + leap
    ensures var (m, md) := MonthOfDay(yd, leap);
      m < 12 && md < MonthLength(leap, m) && DaysBeforeMonth(leap, m) + md == yd
  {
    DaysBeforeMonthValues(leap);
    var (m, md) := MonthOfDay(yd, leap);
    if yd >= 59 + leap {
      var e := yd - 59 - leap;
      var q1, r1 := if e < 153 then 0 else 1, if e < 153 then e else e - 153;
      DivModUnique(e, q1, r1, 153);
      var q2, r2 := if r1 < 61 then 0 else if r1 < 122 then 1 else 2,
        if r1 < 61 then r1 else if r1 < 122 then r1 - 61 else r1 - 122;
      DivModUnique(r1, q2, r2, 61);
      var q3, r3 := if r2 < 31 then 0 else 1, if r2 < 31 then r2 else r2 - 31;
      DivModUnique(r2, q3, r3, 31);
      assert m == 2 + q1 * 5 + q2 * 2 + q3 && md == r3;
    }
  }

  /**
   * `gmtime` is correct for every uint32: the fields are in range and name
   * the day `timer / 86400` and the second `timer % 86400` of that day,
   * the year is at most 136 and `tm_yday` is the zero-based day of year.
   */
  lemma GmTimeCorrect(timer: uint32)
    ensures var t := GmTime(timer);
      && 0 <= t.sec < 60 && 0 <= t.min < 60 && 0 <= t.hour < 24
      && 0 <= t.wday < 7 && 0 <= t.mon < 12 && 0 <= t.year <= 136 && t.isdst == 0
      && 1 <= t.mday <= MonthLength(LeapDay(t.year), t.mon)
      && t.yday == DaysBeforeMonth(LeapDay(t.year), t.mon) + t.mday - 1
      && t.yday < DaysInYear(t.year)
      && DaysBefore(t.year) + t.yday == timer / SECONDS_PER_DAY
      && t.hour * 3600 + t.min * 60 + t.sec == timer % SECONDS_PER_DAY
      && ValidDate(t)
  {
    var days := timer / SECONDS_PER_DAY;
    YearOfDayCorrect(days);
    var (y, yd, leap) := YearOfDay(days);
    if yd < 59 {
      var (m, md) := MonthOfDay(yd, leap);
      assert MonthOfDay(yd, leap) == MonthOfDay(yd, LeapDay(y));
    }
    MonthOfDayCorrect(yd, LeapDay(y));
    var t := GmTime(timer);
    SplitSeconds(timer);
    assert t.hour * 3600 + t.min * 60 + t.sec == timer % SECONDS_PER_DAY;
    assert DaysBefore(t.year) + DaysBeforeMonth(LeapDay(t.year), t.mon) + t.mday - 1 == days;
  }

  /** A second count is whole days plus hours, minutes and seconds of the last day. */
  lemma SplitSeconds(x: nat)
    ensures x == (x / SECONDS_PER_DAY) * SECONDS_PER_DAY + x % SECONDS_PER_DAY
    ensures var f := x % SECONDS_PER_DAY;
      f == (f / 3600) * 3600 + ((f / 60) % 60) * 60 + f % 60 && f / 3600 < 24
  {
    var f := x % SECONDS_PER_DAY;
    assert f == (f / 60) * 60 + f % 60;
    assert f / 60 == (f / 3600) * 60 + (f / 60) % 60;
  }

  lemma GmTimeWeekdayFormula(timer: uint32)
    ensures GmTime(timer).wday == (timer / SECONDS_PER_DAY + SATURDAY) % 7
  {}

  lemma NextDay(timer: nat)
    ensures (timer + SECONDS_PER_DAY) / SECONDS_PER_DAY == timer / SECONDS_PER_DAY + 1
    ensures ((timer + SECONDS_PER_DAY) / SECONDS_PER_DAY + SATURDAY) % 7
         == ((timer / SECONDS_PER_DAY + SATURDAY) % 7 + 1) % 7
  {}

  /** Every second of 2000-01-01 falls on a Saturday. */
  lemma FirstDayWeekday(timer: uint32)
    requires timer < SECONDS_PER_DAY
    ensures GmTime(timer).wday == SATURDAY
  {
    GmTimeWeekdayFormula(timer);
    FirstDayNumber(timer);
  }

  lemma FirstDayNumber(timer: nat)
    requires timer < SECONDS_PER_DAY
    ensures (timer / SECONDS_PER_DAY + SATURDAY) % 7 == SATURDAY
  {
    DivModUnique(timer, 0, timer, SECONDS_PER_DAY);
  }

  lemma NextWeekday(timer: uint32)
    requires timer + SECONDS_PER_DAY < 0x1_0000_0000
    ensures GmTime(timer + SECONDS_PER_DAY).wday == (GmTime(timer).wday + 1) % 7
  {
    GmTimeWeekdayFormula(timer);
    GmTimeWeekdayFormula(timer + SECONDS_PER_DAY);
    NextDay(timer);
  }

  /** 2000-01-01 was a Saturday, and the weekday advances by one each day. */
  lemma GmTimeWeekday(timer: uint32)
    ensures GmTime(0).wday == SATURDAY
    ensures timer + SECONDS_PER_DAY < 0x1_0000_0000 ==>
      GmTime(timer + SECONDS_PER_DAY).wday == (GmTime(timer).wday + 1) % 7
  {
    FirstDayWeekday(0);
    if timer + SECONDS_PER_DAY < 0x1_0000_0000 {
      NextWeekday(timer);
    }
  }

  /** The year 2100 (tm_year 100) has no February 29 in gmtime: its day 59 is March 1. */
  lemma GmTimeYear2100()
    ensures var t := GmTime((36525 + 59) * SECONDS_PER_DAY);
      t.year == 100 && t.mon == MARCH && t.mday == 1
    ensures var t := GmTime((36525 + 58) * SECONDS_PER_DAY);
      t.year == 100 && t.mon == FEBRUARY && t.mday == 28
  {}

  // ---------------------------------------------------------------------
  // mktime
  // ---------------------------------------------------------------------

  lemma ModAdd(a: int, b: int)
    ensures Wrap32(Wrap32(a) + b) == Wrap32(a + b)
    ensures Wrap32(a + Wrap32(b)) == Wrap32(a + b)
  {
    var M := 0x1_0000_0000;
    assert a == (a / M) * M + a % M;
    assert b == (b / M) * M + b % M;
    ModMultiple(a % M + b, a / M);
    ModMultiple(a + b % M, b / M);
  }

  lemma ModMultiple(a: int, k: int)
    ensures Wrap32(a + k * 0x1_0000_0000) == Wrap32(a)
  {
    var M := 0x1_0000_0000;
    var q := a / M;
    assert a + k * M == (q + k) * M + a % M;
  }

  lemma ModScale(a: int, c: int)
    requires c == 365 || c == 86400 || c == 3600 || c == 60
    ensures Wrap32(Wrap32(a) * c) == Wrap32(a * c)
  {
    var M := 0x1_0000_0000;
    assert a * c == Wrap32(a) * c + (a / M) * c * M;
    ModMultiple(Wrap32(a) * c, (a / M) * c);
  }

  /** The day count of `mktime` before the modular reduction. */
  function MkDays(t: Tm): int {
    365 * t.year + MkLeaps(t.year) + MkYearDay(t)
  }

  lemma MkYearStartForm(n: int16)
    ensures MkYearStart(n) == Wrap32(365 * n + MkLeaps(n))
  {
    ModScale(n, 365);
    ModAdd(365 * n, Wrap32(MkLeaps(n)));
    ModAdd(365 * n, MkLeaps(n));
  }

  lemma MkDayCountForm(t: Tm)
    ensures MkDayCount(t) == Wrap32(MkDays(t))
  {
    MkYearStartForm(t.year);
    var a := 365 * t.year + MkLeaps(t.year);
    ModAdd(a, Wrap32(MkYearDay(t)));
    ModAdd(a, MkYearDay(t));
  }

  lemma HourMinuteForm(hour: int, min: int)
    ensures Wrap32(Wrap32(Wrap32(hour) * 3600) + Wrap32(Wrap32(min) * 60)) == Wrap32(hour * 3600 + min * 60)
  {
    ModScale(hour, 3600);
    ModScale(min, 60);
    ModAdd(hour * 3600, Wrap32(min * 60));
    ModAdd(hour * 3600, min * 60);
  }

  lemma MkDaySecondsForm(t: Tm)
    ensures MkDaySeconds(t) == Wrap32(t.hour * 3600 + t.min * 60 + t.sec)
  {
    HourMinuteForm(t.hour, t.min);
    var x := t.hour * 3600 + t.min * 60;
    ModAdd(x, Wrap32(t.sec));
    ModAdd(x, t.sec);
  }

  /**
   * Every wrapping step of `mktime` composes to one reduction modulo 2^32,
   * so negative fields (a -1 edit) subtract through the wraparound.
   */
  lemma MkTimeClosedForm(t: Tm)
    ensures MkTime(t) == Wrap32(MkDays(t) * SECONDS_PER_DAY + t.hour * 3600 + t.min * 60 + t.sec)
  {
    MkDayCountForm(t);
    MkDaySecondsForm(t);
    ModScale(MkDays(t), SECONDS_PER_DAY);
    var a := MkDays(t) * SECONDS_PER_DAY;
    var b := t.hour * 3600 + t.min * 60 + t.sec;
    ModAdd(a, Wrap32(b));
    ModAdd(a, b);
  }

  /** For a month in range, `mktime`'s day of year is the reference one, whatever the day of month. */
  lemma MkYearDayCorrect(t: Tm)
    requires 0 <= t.mon < 12 && 0 <= t.year <= 400
    ensures MkYearDay(t) == DaysBeforeMonth(LeapDay(t.year), t.mon) + t.mday - 1
  {
    DaysBeforeMonthValues(LeapDay(t.year));
    IsLeapYearGregorian(t.year + 2000);
    assert Gregorian(t.year + 2000) <==> Gregorian(Signed16(t.year + 2000));
  }

  /**
   * `mktime` reads day of month, hour, minute and second as offsets that may
   * leave their ranges: the result is the start of the month plus those
   * offsets, reduced modulo 2^32 (January 32 is February 1).
   */
  lemma MkTimeNormalizes(t: Tm)
    requires 0 <= t.mon < 12 && 0 <= t.year <= 400
    ensures MkTime(t) == Wrap32((DaysBefore(t.year) + DaysBeforeMonth(LeapDay(t.year), t.mon) + t.mday - 1)
                                * SECONDS_PER_DAY + t.hour * 3600 + t.min * 60 + t.sec)
  {
    MkTimeClosedForm(t);
    MkYearDayCorrect(t);
    MkLeapsCorrect(t.year);
  }

  /**
   * Changing the second field by any amount moves the result by that many
   * seconds modulo 2^32: a -1 edit at 00:00:00 borrows from the minute,
   * hour and day before.
   */
  lemma MkTimeShiftSeconds(t: Tm, s: int8)
    requires 0 <= t.mon < 12 && 0 <= t.year <= 400
    ensures MkTime(t.(sec := s)) == Wrap32(MkTime(t) + s - t.sec)
  {
    MkTimeNormalizes(t);
    MkTimeNormalizes(t.(sec := s));
    var x := (DaysBefore(t.year) + DaysBeforeMonth(LeapDay(t.year), t.mon) + t.mday - 1)
             * SECONDS_PER_DAY + t.hour * 3600 + t.min * 60 + t.sec;
    ModAdd(x, s - t.sec);
  }

  /** Nor in mktime: February 28 and March 1 of 2100 are one day apart. */
  lemma MkTimeYear2100()
    ensures MkTime(Tm(0, 0, 0, 1, 0, MARCH, 100, 0, 0)) == MkTime(Tm(0, 0, 0, 28, 0, FEBRUARY, 100, 0, 0)) + SECONDS_PER_DAY
  {
    var mar := Tm(0, 0, 0, 1, 0, MARCH, 100, 0, 0);
    var feb := Tm(0, 0, 0, 28, 0, FEBRUARY, 100, 0, 0);
    MkTimeNormalizes(mar);
    MkTimeNormalizes(feb);
    LeapDayCycle(25, 0);
    DaysBeforeMonthValues(0);
    DaysBeforeCycle(25, 0);
    Wrap32Id(36525 * SECONDS_PER_DAY + 59 * SECONDS_PER_DAY);
    Wrap32Id(36525 * SECONDS_PER_DAY + 58 * SECONDS_PER_DAY);
  }

  /** `mktime` ignores `tm_wday`, `tm_yday` and `tm_isdst`. */
  lemma MkTimeIgnoresDerivedFields(t: Tm, wday: int8, yday: int16, isdst: int16)
    ensures MkTime(t.(wday := wday, yday := yday, isdst := isdst)) == MkTime(t)
  {}

  /** Round trip: `mktime(gmtime(t)) == t` for every uint32 t. */
  lemma MkTimeOfGmTime(timer: uint32)
    ensures MkTime(GmTime(timer)) == timer
  {
    var t := GmTime(timer);
    GmTimeCorrect(timer);
    MkTimeNormalizes(t);
    SplitSeconds(timer);
    var days := DaysBefore(t.year) + DaysBeforeMonth(LeapDay(t.year), t.mon) + t.mday - 1;
    assert days == timer / SECONDS_PER_DAY;
    assert days * SECONDS_PER_DAY + t.hour * 3600 + t.min * 60 + t.sec == timer;
    Wrap32Id(timer);
  }

  /** A day count and a time of day are recovered from their second count. */
  lemma JoinSeconds(d: nat, h: int, m: int, s: int)
    requires 0 <= h < 24 && 0 <= m < 60 && 0 <= s < 60
    ensures var x := d * SECONDS_PER_DAY + h * 3600 + m * 60 + s;
      x / SECONDS_PER_DAY == d && x % SECONDS_PER_DAY == h * 3600 + m * 60 + s
  {}

  /** Hours, minutes and seconds in range are determined by their second count. */
  lemma TimeOfDayUnique(h1: int, m1: int, s1: int, h2: int, m2: int, s2: int)
    requires 0 <= h1 < 24 && 0 <= m1 < 60 && 0 <= s1 < 60
    requires 0 <= h2 < 24 && 0 <= m2 < 60 && 0 <= s2 < 60
    requires h1 * 3600 + m1 * 60 + s1 == h2 * 3600 + m2 * 60 + s2
    ensures h1 == h2 && m1 == m2 && s1 == s2
  {}

  /** A valid date lies in the years a uint32 reaches. */
  lemma ValidDateYear(t: Tm)
    requires ValidDate(t)
    ensures t.year <= 136
  {
    if t.year > 136 {
      LateDateOverflows(t);
    }
  }

  /** From 2137 on, the second count of a date no longer fits in 32 bits. */
  lemma LateDateOverflows(t: Tm)
    requires t.year > 136 && 0 <= t.mon < 12 && 1 <= t.mday
    requires 0 <= t.sec && 0 <= t.min && 0 <= t.hour
    ensures (DaysBefore(t.year) + DaysBeforeMonth(LeapDay(t.year), t.mon) + t.mday - 1) * SECONDS_PER_DAY
       + t.hour * 3600 + t.min * 60 + t.sec >= 0x1_0000_0000
  {
    var leap := LeapDay(t.year);
    var days := DaysBefore(t.year) + DaysBeforeMonth(leap, t.mon) + t.mday - 1;
    DaysBeforeLate(t.year);
    if t.mon > 0 {
      DaysBeforeMonthGrowth(leap, 0, t.mon);
    }
    MulLeft(50039, days, SECONDS_PER_DAY);
  }

  /** January 1 of 2137 is day 50039, past the last day a uint32 second count reaches. */
  lemma DaysBeforeLate(y: nat)
    requires y >= 137
    ensures DaysBefore(y) >= 50039
  {
    DaysBeforeClosedForm(137);
    if y > 137 {
      DaysBeforeGrowth(137, y);
    }
  }

  /** Round trip the other way: `gmtime(mktime(t))` gives back every field of a valid date. */
  lemma GmTimeOfMkTime(t: Tm)
    requires ValidDate(t)
    ensures var g := GmTime(MkTime(t));
      g.sec == t.sec && g.min == t.min && g.hour == t.hour
      && g.mday == t.mday && g.mon == t.mon && g.year == t.year
  {
    var leap := LeapDay(t.year);
    var yd := DaysBeforeMonth(leap, t.mon) + t.mday - 1;
    DaysBeforeMonthGrowth(leap, t.mon, 12);
    DaysBeforeMonthValues(leap);
    assert 0 <= yd < DaysInYear(t.year);
    ValidDateYear(t);
    MkTimeNormalizes(t);
    var r := MkTime(t);
    var x := (DaysBefore(t.year) + yd) * SECONDS_PER_DAY + t.hour * 3600 + t.min * 60 + t.sec;
    Wrap32Id(x);
    assert r == x;
    JoinSeconds(DaysBefore(t.year) + yd, t.hour, t.min, t.sec);
    GmTimeCorrect(r);
    var g := GmTime(r);
    YearUnique(g.year, g.yday, t.year, yd);
    MonthUnique(leap, g.mon, g.mday - 1, t.mon, t.mday - 1);
    TimeOfDayUnique(g.hour, g.min, g.sec, t.hour, t.min, t.sec);
  }

  /** January 32 of any year up to 2135 is normalised forward to February 1. */
  lemma JanuaryThirtyTwo(t: Tm)
    requires t.mon == JANUARY && t.mday == 32 && 0 <= t.year <= 135
    requires 0 <= t.sec < 60 && 0 <= t.min < 60 && 0 <= t.hour < 24
    ensures var g := GmTime(MkTime(t));
      g.mon == FEBRUARY && g.mday == 1 && g.year == t.year
      && g.hour == t.hour && g.min == t.min && g.sec == t.sec
  {
    var feb := t.(mon := FEBRUARY, mday := 1);
    MkTimeNormalizes(t);
    MkTimeNormalizes(feb);
    DaysBeforeMonthValues(LeapDay(t.year));
    DaysBeforeClosedForm(t.year);
    assert MkTime(t) == MkTime(feb);
    GmTimeOfMkTime(feb);
  }
}
