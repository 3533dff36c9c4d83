/** Seconds since the Unix epoch as a UTC calendar date and time of day, and the two names
    the etcd commands build from it (commands/etcd.rs, commands/export_argocd.rs).

    The reference calendar below counts days one year and one month at a time.  The
    program's arithmetic uses 400-year eras that start on the first of March; the main
    results connect the two for every 64-bit second count. */
module Calendar {
  import opened Arithmetic

  type u64 = x: int | 0 <= x < 0x1_0000_0000_0000_0000
  type i64 = x: int | -0x8000_0000_0000_0000 <= x < 0x8000_0000_0000_0000
  type u32 = x: int | 0 <= x < 0x1_0000_0000
  type i32 = x: int | -0x8000_0000 <= x < 0x8000_0000

  const I64_MAX := 0x7fff_ffff_ffff_ffff
  const I32_MAX := 0x7fff_ffff

  // ---- the reference calendar -------------------------------------------------------

  datatype Civil = Civil(year: int, month: int, day: int, hour: int, minute: int, second: int)

  predicate IsLeap(y: int) {
    y % 4 == 0 && (y % 100 != 0 || y % 400 == 0)
  }

  function DaysInMonth(y: int, m: int): int {
    if m == 2 then (if IsLeap(y) then 29 else 28)
    else if m == 4 || m == 6 || m == 9 || m == 11 then 30
    else 31
  }

  function DaysInYear(y: int): int {
    if IsLeap(y) then 366 else 365
  }

  /** Days from 1970-01-01 to the first of January of year `y`. */
  function DaysBeforeYear(y: int): int
    requires 1970 <= y
    decreases y
  {
    if y == 1970 then 0 else DaysBeforeYear(y - 1) + DaysInYear(y - 1)
  }

  /** Days from the first of January of year `y` to the first of month `m`. */
  function DaysBeforeMonth(y: int, m: int): int
    requires 1 <= m
    decreases m
  {
    if m == 1 then 0 else DaysBeforeMonth(y, m - 1) + DaysInMonth(y, m - 1)
  }

  predicate ValidDate(y: int, m: int, d: int) {
    1970 <= y && 1 <= m <= 12 && 1 <= d <= DaysInMonth(y, m)
  }

  predicate Valid(c: Civil) {
    && ValidDate(c.year, c.month, c.day)
    && 0 <= c.hour < 24 && 0 <= c.minute < 60 && 0 <= c.second < 60
  }

  function DayCount(y: int, m: int, d: int): int
    requires ValidDate(y, m, d)
  {
    DaysBeforeYear(y) + DaysBeforeMonth(y, m) + d - 1
  }

  function TimeOfDay(c: Civil): int {
    3600 * c.hour + 60 * c.minute + c.second
  }

  /** The second count a calendar date and time of day stands for. */
  function Seconds(c: Civil): int
    requires Valid(c)
  {
    86400 * DayCount(c.year, c.month, c.day) + TimeOfDay(c)
  }

  // ---- the program's arithmetic -----------------------------------------------------

  function YearOfEra(doe: int): int {
    (doe - doe / 1460 + doe / 36524 - doe / 146096) / 365
  }

  function DayOfYear(doe: int): int {
    doe - (365 * YearOfEra(doe) + YearOfEra(doe) / 4 - YearOfEra(doe) / 100)
  }

  /** `u32::try_from(x).unwrap_or(fallback)` */
  function ToU32Or(x: int, fallback: u32): u32 {
    if 0 <= x < 0x1_0000_0000 then x else fallback
  }

  /** `civil_from_epoch` */
  function CivilFromEpoch(epochSecs: u64): Civil {
    var quotient := epochSecs / 86400;
    var days := if quotient <= I64_MAX then quotient else 0;
    var z := days + 719468;
    CivilFields(z / 146097, YearOfEra(z % 146097), DayOfYear(z % 146097), epochSecs % 86400)
  }

  /** The tail of `civil_from_epoch`: month, day and year from the day of the March-based
      year, and the time of day. */
  function CivilFields(era: int, yoe: int, doy: int, rem: int): Civil {
    var mp := (5 * doy + 2) / 153;
    var d := ToU32Or(doy - (153 * mp + 2) / 5 + 1, 1);
    var m := ToU32Or(if mp < 10 then mp + 3 else mp - 9, 1);
    var y := yoe + era * 400 + (if m <= 2 then 1 else 0);
    Civil(y, m, d, rem / 3600, (rem % 3600) / 60, rem % 60)
  }

  /** Two's-complement wrap-around of `i32` arithmetic. */
  function WrapI32(x: int): i32 {
    var low := x % 0x1_0000_0000;
    if low < 0x8000_0000 then low else low - 0x1_0000_0000
  }

  /** `epoch_to_utc_ymdhms`: the date is computed in `u32` and the year in `i32`. */
  function EpochToUtcYmdhms(secs: i64): Civil {
    var z := secs / 86400 + 719468;
    var era := z / 146097;
    var doe := (z - era * 146097) % 0x1_0000_0000;
    NarrowFields(era, YearOfEra(doe), DayOfYear(doe), secs % 86400)
  }

  function NarrowFields(era: int, yoe: int, doy: int, secsOfDay: int): Civil {
    var y := WrapI32(yoe + WrapI32(WrapI32(era) * 400));
    var mp := (5 * doy + 2) / 153;
    var m := if mp < 10 then mp + 3 else mp - 9;
    Civil(if m <= 2 then WrapI32(y + 1) else y, m, doy - (153 * mp + 2) / 5 + 1,
          secsOfDay / 3600, (secsOfDay / 60) % 60, secsOfDay % 60)
  }

  // ---- the era arithmetic agrees with the reference calendar ------------------------

  /** A day of the era lies `t` days into the `k`-th four-year group of century `c`. */
  lemma {:induction false} EraParts(doe: int, c: int, k: int, t: int, j: int)
    requires 0 <= doe < 146097
    requires c == (if doe < 146096 then doe / 36524 else 3)
    requires k == (doe - 36524 * c) / 1461 && t == (doe - 36524 * c) % 1461
    requires j == (if t < 1460 then t / 365 else 3)
    ensures 0 <= c <= 3 && 0 <= k <= 24 && 0 <= t <= 1460 && 0 <= j <= 3
    ensures doe == 36524 * c + 1461 * k + t
    ensures t == 1460 ==> k < 24 || c == 3
    ensures YearOfEra(doe) == 100 * c + 4 * k + j
    ensures DayOfYear(doe) == t - 365 * j
  {
    assert doe / 36524 - doe / 146096 == c;
    var b := if 24 * c + k + t >= 1460 then 1 else 0;
    assert doe == 1460 * (25 * c + k) + (24 * c + k + t);
    assert doe / 1460 == 25 * c + k + b;
    var n := doe - doe / 1460 + doe / 36524 - doe / 146096;
    assert n == 365 * (100 * c + 4 * k) + (t - b);
    assert 365 * j <= t - b < 365 * (j + 1);
    assert n / 365 == 100 * c + 4 * k + j;
    var y := YearOfEra(doe);
    assert y / 4 == 25 * c + k;
    assert y / 100 == c;
  }

  lemma {:induction false} EraBounds(doe: int)
    requires 0 <= doe < 146097
    ensures 0 <= YearOfEra(doe) <= 399 && 0 <= DayOfYear(doe) <= 365
    ensures DayOfYear(doe) == 365 ==> IsLeap(YearOfEra(doe) + 1)
  {
    var c := if doe < 146096 then doe / 36524 else 3;
    var r := doe - 36524 * c;
    var t := r % 1461;
    EraParts(doe, c, r / 1461, t, if t < 1460 then t / 365 else 3);
  }

  /** Leap days in the years 1 to `y`. */
  function LeapsThrough(y: int): int {
    y / 4 - y / 100 + y / 400
  }

  lemma {:induction false} QuotientOfPrevious(y: int, n: int)
    requires 0 < n
    ensures (y - 1) / n == y / n - (if y % n == 0 then 1 else 0)
  {
    var q, r := y / n, y % n;
    assert y == n * q + r;
    if r == 0 {
      QuotientUnique(y - 1, n, q - 1, n - 1);
    } else {
      QuotientUnique(y - 1, n, q, r - 1);
    }
  }

  lemma {:induction false} LeapsStep(y: int)
    ensures LeapsThrough(y) == LeapsThrough(y - 1) + (if IsLeap(y) then 1 else 0)
  {
    QuotientOfPrevious(y, 4);
    QuotientOfPrevious(y, 100);
    QuotientOfPrevious(y, 400);
    assert y % 400 == 0 ==> y % 100 == 0 by { FactorDivides(y, 100, 4); }
    assert y % 100 == 0 ==> y % 4 == 0 by { FactorDivides(y, 4, 25); }
  }

  lemma {:induction false} FactorDivides(y: int, n: int, k: int)
    requires 0 < n && 0 < k
    ensures y % (n * k) == 0 ==> y % n == 0
  {
    if y % (n * k) == 0 {
      var q := y / (n * k);
      assert y == n * k * q == n * (k * q) + 0;
      QuotientUnique(y, n, k * q, 0);
    }
  }

  lemma {:induction false} DaysBeforeYearClosed(y: int)
    requires 1970 <= y
    ensures DaysBeforeYear(y) == 365 * (y - 1970) + LeapsThrough(y - 1) - LeapsThrough(1969)
    decreases y
  {
    if y > 1970 {
      DaysBeforeYearClosed(y - 1);
      LeapsStep(y - 1);
    }
  }

  /** Month lengths from March to February are regular. */
  lemma {:induction false} MonthTable(y: int, doy: int)
    requires 0 <= doy <= 365
    ensures var mp := (5 * doy + 2) / 153;
            var d := doy - (153 * mp + 2) / 5 + 1;
            && 0 <= mp <= 11
            && (if mp < 10 then
                  && 1 <= d <= DaysInMonth(y, mp + 3)
                  && DaysBeforeMonth(y, mp + 3) + d - 1 == 59 + (if IsLeap(y) then 1 else 0) + doy
                else
                  && 1 <= d <= (if mp == 10 then 31 else 29)
                  && (mp == 11 && d == 29 <==> doy == 365)
                  && DaysBeforeMonth(y, mp - 9) + d - 1 == doy - 306)
  {
    var mp := (5 * doy + 2) / 153;
    assert DaysBeforeMonth(y, 1) == 0;
    assert DaysBeforeMonth(y, 2) == 31;
    assert DaysBeforeMonth(y, 3) == 59 + (if IsLeap(y) then 1 else 0);
    assert DaysBeforeMonth(y, 4) == 90 + (if IsLeap(y) then 1 else 0);
    assert DaysBeforeMonth(y, 5) == 120 + (if IsLeap(y) then 1 else 0);
    assert DaysBeforeMonth(y, 6) == 151 + (if IsLeap(y) then 1 else 0);
    assert DaysBeforeMonth(y, 7) == 181 + (if IsLeap(y) then 1 else 0);
    assert DaysBeforeMonth(y, 8) == 212 + (if IsLeap(y) then 1 else 0);
    assert DaysBeforeMonth(y, 9) == 243 + (if IsLeap(y) then 1 else 0);
    assert DaysBeforeMonth(y, 10) == 273 + (if IsLeap(y) then 1 else 0);
    assert DaysBeforeMonth(y, 11) == 304 + (if IsLeap(y) then 1 else 0);
    assert DaysBeforeMonth(y, 12) == 334 + (if IsLeap(y) then 1 else 0);
    assert mp == 0 || mp == 1 || mp == 2 || mp == 3 || mp == 4 || mp == 5
        || mp == 6 || mp == 7 || mp == 8 || mp == 9 || mp == 10 || mp == 11;
  }

  /** The calendar date `doy` days after the first of March of year `y`. */
  function DateFromMarch(y: int, doy: int): (int, int, int) {
    var mp := (5 * doy + 2) / 153;
    var m := if mp < 10 then mp + 3 else mp - 9;
    (y + (if m <= 2 then 1 else 0), m, doy - (153 * mp + 2) / 5 + 1)
  }

  /** The date the era arithmetic assigns to a day count. */
  function DateOfDays(days: int): (int, int, int) {
    var z := days + 719468;
    DateFromMarch(YearOfEra(z % 146097) + 400 * (z / 146097), DayOfYear(z % 146097))
  }

  lemma {:induction false} LeapPeriod(y: int, era: int)
    ensures IsLeap(y + 400 * era) <==> IsLeap(y)
  {
    QuotientUnique(y + 400 * era, 4, y / 4 + 100 * era, y % 4);
    QuotientUnique(y + 400 * era, 100, y / 100 + 4 * era, y % 100);
    QuotientUnique(y + 400 * era, 400, y / 400 + era, y % 400);
  }

  /** The first of March of year `y`, counted from 1970-01-01. */
  lemma {:induction false} FirstOfMarch(y: int)
    requires 1969 <= y
    ensures 1970 <= y ==>
      DaysBeforeYear(y) + 59 + (if IsLeap(y) then 1 else 0) == 365 * y + LeapsThrough(y) - 719468
    ensures DaysBeforeYear(y + 1) - 306 == 365 * y + LeapsThrough(y) - 719468
  {
    assert LeapsThrough(1969) == 477;
    DaysBeforeYearClosed(y + 1);
    if 1970 <= y {
      DaysBeforeYearClosed(y);
      LeapsStep(y);
    }
  }

  /** Whole years and days of the March-based year that make up a day count. */
  lemma {:induction false} EraDays(era: int, doe: int)
    requires 0 <= doe < 146097
    ensures var y := YearOfEra(doe) + 400 * era;
            146097 * era + doe == 365 * y + LeapsThrough(y) + DayOfYear(doe)
  {
    EraBounds(doe);
    var yoe := YearOfEra(doe);
    var y := yoe + 400 * era;
    QuotientUnique(y, 4, yoe / 4 + 100 * era, yoe % 4);
    QuotientUnique(y, 100, yoe / 100 + 4 * era, yoe % 100);
    QuotientUnique(y, 400, era, yoe);
  }

  /** The year, and the days since its first of March, of the `days`-th day. */
  lemma {:induction false} MarchYear(days: int) returns (y: int, doy: int)
    requires 0 <= days
    ensures y == YearOfEra((days + 719468) % 146097) + 400 * ((days + 719468) / 146097)
    ensures doy == DayOfYear((days + 719468) % 146097)
    ensures 1969 <= y && 0 <= doy <= 365
    ensures doy == 365 ==> IsLeap(y + 1)
    ensures y == 1969 ==> 306 <= doy
    ensures 1970 <= y ==> days == DaysBeforeYear(y) + 59 + (if IsLeap(y) then 1 else 0) + doy
    ensures days == DaysBeforeYear(y + 1) - 306 + doy
  {
    var era, doe := (days + 719468) / 146097, (days + 719468) % 146097;
    y, doy := YearOfEra(doe) + 400 * era, DayOfYear(doe);
    EraBounds(doe);
    EraDays(era, doe);
    assert days + 719468 == 365 * y + LeapsThrough(y) + doy;
    LeapPeriod(YearOfEra(doe) + 1, era);
    FirstYears(y, doy);
    FirstOfMarch(y);
  }

  lemma {:induction false} FirstYears(y: int, doy: int)
    requires 719468 <= 365 * y + LeapsThrough(y) + doy && 0 <= doy <= 365
    ensures 1969 <= y && (y == 1969 ==> 306 <= doy)
  {
    assert LeapsThrough(1969) == 477;
  }

  lemma {:induction false} DateFromMarchCorrect(y: int, doy: int, days: int)
    requires 1969 <= y && 0 <= doy <= 365
    requires doy == 365 ==> IsLeap(y + 1)
    requires y == 1969 ==> 306 <= doy
    requires 1970 <= y ==> days == DaysBeforeYear(y) + 59 + (if IsLeap(y) then 1 else 0) + doy
    requires days == DaysBeforeYear(y + 1) - 306 + doy
    ensures var (y', m, d) := DateFromMarch(y, doy);
            ValidDate(y', m, d) && DayCount(y', m, d) == days
  {
    if doy < 306 {
      MonthTable(y, doy);
    } else {
      MonthTable(y + 1, doy);
    }
  }

  lemma {:induction false} MonthBounds(doy: int)
    requires 0 <= doy <= 365
    ensures var mp := (5 * doy + 2) / 153;
            0 <= mp <= 11 && 1 <= doy - (153 * mp + 2) / 5 + 1 <= 31
  {
  }

  lemma {:induction false} CivilFieldsDate(era: int, yoe: int, doy: int, rem: int)
    requires 0 <= doy <= 365
    ensures var c := CivilFields(era, yoe, doy, rem);
            (c.year, c.month, c.day) == DateFromMarch(yoe + 400 * era, doy)
  {
    MonthBounds(doy);
  }

  lemma {:induction false} CivilFromEpochDate(secs: u64)
    ensures var c := CivilFromEpoch(secs);
            (c.year, c.month, c.day) == DateOfDays(secs / 86400)
  {
    var z := secs / 86400 + 719468;
    EraBounds(z % 146097);
    CivilFieldsDate(z / 146097, YearOfEra(z % 146097), DayOfYear(z % 146097), secs % 86400);
  }

  lemma {:induction false} ClockParts(rem: int)
    requires 0 <= rem < 86400
    ensures 0 <= rem / 3600 < 24 && 0 <= (rem % 3600) / 60 < 60 && 0 <= rem % 60 < 60
    ensures 3600 * (rem / 3600) + 60 * ((rem % 3600) / 60) + rem % 60 == rem
    ensures (rem / 60) % 60 == (rem % 3600) / 60
  {
    var h, r := rem / 3600, rem % 3600;
    QuotientUnique(rem, 60, 60 * h + r / 60, r % 60);
    QuotientUnique(60 * h + r / 60, 60, h, r / 60);
  }

  /** Every intermediate value of the two algorithms lies in the integer type the program
      gives it, so neither the fallbacks nor the casts ever take effect. */
  lemma {:induction false} NoOverflow(secs: u64)
    ensures secs / 86400 <= I64_MAX
    ensures var z := secs / 86400 + 719468;
            var doe := z % 146097;
            var (yoe, doy) := (YearOfEra(doe), DayOfYear(doe));
            var mp := (5 * doy + 2) / 153;
            && 0 <= z <= I64_MAX && 0 <= z / 146097 <= I32_MAX
            && 0 <= doe < 146097
            && 0 <= doe - doe / 1460 && 0 <= doe - doe / 1460 + doe / 36524 - doe / 146096 < 146097
            && 0 <= 365 * yoe + yoe / 4 - yoe / 100 <= doe
            && 0 <= 5 * doy + 2 < 2000 && 0 <= 153 * mp + 2 < 2000
            && 1 <= doy - (153 * mp + 2) / 5 + 1 <= 31
            && yoe + z / 146097 * 400 + 1 <= I64_MAX
  {
    var doe := (secs / 86400 + 719468) % 146097;
    EraBounds(doe);
    MonthBounds(DayOfYear(doe));
  }

  /** For every 64-bit second count the result is a valid date and time of day, and its
      second count is the input. */
  lemma {:induction false} CivilFromEpochCorrect(secs: u64)
    ensures Valid(CivilFromEpoch(secs))
    ensures Seconds(CivilFromEpoch(secs)) == secs
  {
    hide YearOfEra, DayOfYear, DateFromMarch, CivilFromEpoch, DaysBeforeYear, DaysBeforeMonth;
    var days := secs / 86400;
    CivilFromEpochDate(secs);
    CivilFromEpochClock(secs);
    var y, doy := MarchYear(days);
    DateFromMarchCorrect(y, doy, days);
  }

  lemma {:induction false} CivilFromEpochClock(secs: u64)
    ensures var c := CivilFromEpoch(secs);
            0 <= c.hour < 24 && 0 <= c.minute < 60 && 0 <= c.second < 60 && TimeOfDay(c) == secs % 86400
  {
    hide YearOfEra, DayOfYear;
    ClockParts(secs % 86400);
  }

  // ---- order and uniqueness ---------------------------------------------------------

  predicate DateBefore(y1: int, m1: int, d1: int, y2: int, m2: int, d2: int) {
    y1 < y2 || (y1 == y2 && (m1 < m2 || (m1 == m2 && d1 < d2)))
  }

  /** Order of calendar values, field by field. */
  predicate Before(a: Civil, b: Civil) {
    || DateBefore(a.year, a.month, a.day, b.year, b.month, b.day)
    || ((a.year, a.month, a.day) == (b.year, b.month, b.day)
        && (a.hour < b.hour || (a.hour == b.hour
            && (a.minute < b.minute || (a.minute == b.minute && a.second < b.second)))))
  }

  lemma {:induction false} MonthsWithinYear(y: int, m: int)
    requires 1 <= m <= 12
    ensures DaysBeforeMonth(y, m) + DaysInMonth(y, m) <= DaysInYear(y)
    decreases 12 - m
  {
    if m < 12 {
      MonthsWithinYear(y, m + 1);
    } else {
      MonthTable(y, 275);
    }
  }

  lemma {:induction false} MonthsIncrease(y: int, m1: int, m2: int)
    requires 1 <= m1 < m2 <= 12
    ensures DaysBeforeMonth(y, m1) + DaysInMonth(y, m1) <= DaysBeforeMonth(y, m2)
    decreases m2
  {
    if m1 < m2 - 1 {
      MonthsIncrease(y, m1, m2 - 1);
    }
  }

  lemma {:induction false} YearsIncrease(y1: int, y2: int)
    requires 1970 <= y1 < y2
    ensures DaysBeforeYear(y1) + DaysInYear(y1) <= DaysBeforeYear(y2)
    decreases y2
  {
    if y1 < y2 - 1 {
      YearsIncrease(y1, y2 - 1);
    }
  }

  lemma {:induction false} DaysBeforeMonthNonnegative(y: int, m: int)
    requires 1 <= m
    ensures 0 <= DaysBeforeMonth(y, m)
    decreases m
  {
    if m > 1 {
      DaysBeforeMonthNonnegative(y, m - 1);
    }
  }

  lemma {:induction false} DayCountIncreases(y1: int, m1: int, d1: int, y2: int, m2: int, d2: int)
    requires ValidDate(y1, m1, d1) && ValidDate(y2, m2, d2)
    requires DateBefore(y1, m1, d1, y2, m2, d2)
    ensures DayCount(y1, m1, d1) < DayCount(y2, m2, d2)
  {
    if y1 < y2 {
      YearsIncrease(y1, y2);
      MonthsWithinYear(y1, m1);
      DaysBeforeMonthNonnegative(y2, m2);
    } else if m1 < m2 {
      MonthsIncrease(y1, m1, m2);
    }
  }

  /** Earlier calendar values have smaller second counts. */
  lemma {:induction false} SecondsIncrease(a: Civil, b: Civil)
    requires Valid(a) && Valid(b) && Before(a, b)
    ensures Seconds(a) < Seconds(b)
  {
    if DateBefore(a.year, a.month, a.day, b.year, b.month, b.day) {
      DayCountIncreases(a.year, a.month, a.day, b.year, b.month, b.day);
    }
  }

  /** Smaller second counts belong to earlier calendar values, equal ones to equal values. */
  lemma {:induction false} SecondsOrder(a: Civil, b: Civil)
    requires Valid(a) && Valid(b)
    ensures Seconds(a) < Seconds(b) <==> Before(a, b)
    ensures Seconds(a) == Seconds(b) <==> a == b
  {
    if Before(a, b) {
      SecondsIncrease(a, b);
    } else if Before(b, a) {
      SecondsIncrease(b, a);
    }
  }

  /** A second count is the second count of exactly one valid date and time of day. */
  lemma {:induction false} CivilUnique(secs: u64, c: Civil)
    requires Valid(c) && Seconds(c) == secs
    ensures c == CivilFromEpoch(secs)
  {
    CivilFromEpochCorrect(secs);
    SecondsOrder(c, CivilFromEpoch(secs));
  }

  /** Later seconds give later calendar values. */
  lemma {:induction false} CivilFromEpochIncreases(s1: u64, s2: u64)
    requires s1 < s2
    ensures Before(CivilFromEpoch(s1), CivilFromEpoch(s2))
  {
    CivilFromEpochCorrect(s1);
    CivilFromEpochCorrect(s2);
    SecondsOrder(CivilFromEpoch(s1), CivilFromEpoch(s2));
  }

  lemma {:induction false} WrapI32Fits(x: int)
    ensures WrapI32(x) == x <==> -0x8000_0000 <= x < 0x8000_0000
  {
    if -0x8000_0000 <= x < 0 {
      QuotientUnique(x, 0x1_0000_0000, -1, x + 0x1_0000_0000);
    } else if 0 <= x < 0x8000_0000 {
      QuotientUnique(x, 0x1_0000_0000, 0, x);
    }
  }

  lemma {:induction false} NarrowFieldsAgree(era: int, yoe: int, doy: int, rem: int)
    requires 0 <= era <= I32_MAX && 0 <= yoe < 400 && 0 <= doy <= 365 && 0 <= rem < 86400
    ensures NarrowFields(era, yoe, doy, rem) == CivilFields(era, yoe, doy, rem)
       <==> CivilFields(era, yoe, doy, rem).year <= I32_MAX
  {
    MonthBounds(doy);
    ClockParts(rem);
    WrapI32Fits(era);
    WrapI32Fits(era * 400);
    WrapI32Fits(yoe + era * 400);
    WrapI32Fits(yoe + era * 400 + 1);
  }

  lemma {:induction false} CastKeepsDayOfEra(z: int)
    ensures (z - z / 146097 * 146097) % 0x1_0000_0000 == z % 146097
  {
    QuotientUnique(z - z / 146097 * 146097, 0x1_0000_0000, 0, z % 146097);
  }

  /** The narrow-integer copy of the algorithm agrees with the wide one exactly when the
      year fits its 32-bit result. */
  lemma {:induction false} NarrowAgrees(secs: u64)
    requires secs <= I64_MAX
    ensures EpochToUtcYmdhms(secs) == CivilFromEpoch(secs) <==> CivilFromEpoch(secs).year <= I32_MAX
  {
    var z := secs / 86400 + 719468;
    NoOverflow(secs);
    EraBounds(z % 146097);
    CastKeepsDayOfEra(z);
    NarrowFieldsAgree(z / 146097, YearOfEra(z % 146097), DayOfYear(z % 146097), secs % 86400);
  }
}
