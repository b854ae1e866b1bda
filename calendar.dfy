/**
 * The proleptic Gregorian calendar as used by `calendar.timegm` and by
 * `datetime.fromtimestamp(secs, tz=UTC)`: broken-down UTC fields and the
 * seconds since 1970-01-01T00:00:00 that they denote.
 */
module Calendar {

  /** The six wall-clock fields `(year, month, day, hour, minute, second)`. */
  datatype Fields = Fields(year: int, month: int, day: int, hour: int, minute: int, second: int)

  /** What a `datetime.datetime` guarantees of its fields (the year range is not modelled). */
  predicate ValidFields(f: Fields) {
    && 1 <= f.month <= 12
    && 1 <= f.day <= DaysInMonth(f.year, f.month)
    && 0 <= f.hour < 24
    && 0 <= f.minute < 60
    && 0 <= f.second < 60
  }

  predicate IsLeap(y: int) {
    y % 4 == 0 && (y % 100 != 0 || y % 400 == 0)
  }

  function DaysInMonth(y: int, m: int): int
    requires 1 <= m <= 12
  {
    if m == 2 then (if IsLeap(y) then 29 else 28)
    else if m == 4 || m == 6 || m == 9 || m == 11 then 30
    else 31
  }

  /** Days of year `y` before the first of month `m` (`_days_before_month`). */
  function DaysBeforeMonth(y: int, m: int): int
    requires 1 <= m <= 12
  {
    var common :=
      match m
      case 1 => 0    case 2 => 31   case 3 => 59   case 4 => 90
      case 5 => 120  case 6 => 151  case 7 => 181  case 8 => 212
      case 9 => 243  case 10 => 273 case 11 => 304 case _ => 334;
    common + (if m > 2 && IsLeap(y) then 1 else 0)
  }

  /** Days before January 1st of year `y`, counted from 0001-01-01 (`_days_before_year`). */
  function DaysBeforeYear(y: int): int {
    var p := y - 1;
    p * 365 + p / 4 - p / 100 + p / 400
  }

  /** `date(y, m, d).toordinal()`: 0001-01-01 is day 1. */
  function ToOrdinal(y: int, m: int, d: int): int
    requires 1 <= m <= 12
  {
    DaysBeforeYear(y) + DaysBeforeMonth(y, m) + d
  }

  /** `date(1970, 1, 1).toordinal()`. */
  const EpochOrdinal: int := 719163

  /**
   * `calendar.timegm(fields)`: seconds since the epoch of a UTC wall clock.
   * Day, hour, minute and second are added linearly as the library does; a
   * month outside 1..12 is carried into the year.
   */
  function Timegm(f: Fields): int {
    var y := f.year + (f.month - 1) / 12;
    var m := (f.month - 1) % 12 + 1;
    var days := ToOrdinal(y, m, 1) - EpochOrdinal + f.day - 1;
    ((days * 24 + f.hour) * 60 + f.minute) * 60 + f.second
  }

  /** Month of the zero-based day `doy` of year `y`. */
  function MonthOf(y: int, doy: int): int
  {
    if doy < DaysBeforeMonth(y, 2) then 1
    else if doy < DaysBeforeMonth(y, 3) then 2
    else if doy < DaysBeforeMonth(y, 4) then 3
    else if doy < DaysBeforeMonth(y, 5) then 4
    else if doy < DaysBeforeMonth(y, 6) then 5
    else if doy < DaysBeforeMonth(y, 7) then 6
    else if doy < DaysBeforeMonth(y, 8) then 7
    else if doy < DaysBeforeMonth(y, 9) then 8
    else if doy < DaysBeforeMonth(y, 10) then 9
    else if doy < DaysBeforeMonth(y, 11) then 10
    else if doy < DaysBeforeMonth(y, 12) then 11
    else 12
  }

  /**
   * Splits a zero-based day count into whole 400-, 100-, 4- and 1-year cycles
   * and the day within the last year, as `_ord2ymd` does.
   */
  function Cycles(n0: int): (c: (int, int, int, int, int))
    ensures n0 == 146097 * c.0 + 36524 * c.1 + 1461 * c.2 + 365 * c.3 + c.4
    ensures 0 <= c.1 <= 4 && 0 <= c.2 <= 24 && 0 <= c.3 <= 4 && 0 <= c.4 < 365
    ensures c.1 == 4 ==> c.2 == 0 && c.3 == 0 && c.4 == 0
    ensures c.3 == 4 ==> c.4 == 0 && c.2 <= 23
  {
    var r400 := n0 % 146097;
    var r100 := r400 % 36524;
    var r4 := r100 % 1461;
    (n0 / 146097, r400 / 36524, r100 / 1461, r4 / 365, r4 % 365)
  }

  /** `date.fromordinal(n)` as `(year, month, day)`. */
  function FromOrdinal(n: int): (int, int, int)
  {
    var (n400, n100, n4, n1, doy) := Cycles(n - 1);
    var year := n400 * 400 + n100 * 100 + n4 * 4 + n1 + 1;
    if n1 == 4 || n100 == 4 then (year - 1, 12, 31)
    else
      var m := MonthOf(year, doy);
      (year, m, doy - DaysBeforeMonth(year, m) + 1)
  }

  /** `datetime.fromtimestamp(secs, tz=UTC)` as wall-clock fields. */
  function Civil(secs: int): Fields {
    var days := secs / 86400;
    var sod := secs % 86400;
    var date := FromOrdinal(days + EpochOrdinal);
    Fields(date.0, date.1, date.2, sod / 3600, (sod % 3600) / 60, sod % 60)
  }

  /** `date(y, m, d).weekday()`: Monday is 0. */
  function Weekday(y: int, m: int, d: int): int
    requires 1 <= m <= 12
  {
    (ToOrdinal(y, m, d) + 6) % 7
  }

  // ---------------------------------------------------------------------
  // Proofs: Civil is the inverse of Timegm.

  /** A product of a positive factor and a positive integer is at least the factor. */
  lemma {:induction false} MulAtLeast(k: int, n: int)
    requires 0 < k && 1 <= n
    ensures k * n >= k
    decreases n
  {
    if n > 1 {
      MulAtLeast(k, n - 1);
      assert k * n == k * (n - 1) + k;
    }
  }

  /** Euclidean division: a quotient whose remainder is in range is the quotient. */
  lemma DivMod(p: int, k: int, q: int, r: int)
    requires 0 < k && 0 <= r < k && p == k * q + r
    ensures p / k == q && p % k == r
  {
    var q0 := p / k;
    if q0 < q {
      MulAtLeast(k, q - q0);
      assert false;
    } else if q < q0 {
      MulAtLeast(k, q0 - q);
      assert false;
    }
  }

  /** A year whose predecessor decomposes into whole cycles has the expected day count and leap flag. */
  lemma CycleDecomposition(a: int, b: int, c: int, e: int)
    requires 0 <= b <= 3 && 0 <= c <= 24 && 0 <= e <= 3
    ensures DaysBeforeYear(400 * a + 100 * b + 4 * c + e + 1) == 146097 * a + 36524 * b + 1461 * c + 365 * e
    ensures IsLeap(400 * a + 100 * b + 4 * c + e + 1) <==> e == 3 && (c != 24 || b == 3)
  {
    var p := 400 * a + 100 * b + 4 * c + e;
    DivMod(p, 4, 100 * a + 25 * b + c, e);
    DivMod(p, 100, 4 * a + b, 4 * c + e);
    DivMod(p, 400, a, 100 * b + 4 * c + e);
    CycleLeap(a, b, c, e);
  }

  /** The leap flag of the year after `p` whole cycles and `e` single years. */
  lemma CycleLeap(a: int, b: int, c: int, e: int)
    requires 0 <= b <= 3 && 0 <= c <= 24 && 0 <= e <= 3
    ensures IsLeap(400 * a + 100 * b + 4 * c + e + 1) <==> e == 3 && (c != 24 || b == 3)
  {
    var y := 400 * a + 100 * b + 4 * c + e + 1;
    if e == 3 {
      DivMod(y, 4, 100 * a + 25 * b + c + 1, 0);
    } else {
      DivMod(y, 4, 100 * a + 25 * b + c, e + 1);
    }
    if c == 24 && e == 3 {
      DivMod(y, 100, 4 * a + b + 1, 0);
    } else {
      DivMod(y, 100, 4 * a + b, 4 * c + e + 1);
    }
    if b == 3 && c == 24 && e == 3 {
      DivMod(y, 400, a + 1, 0);
    } else {
      DivMod(y, 400, a, 100 * b + 4 * c + e + 1);
    }
  }

  lemma MonthOfBounds(y: int, doy: int)
    requires 0 <= doy < 365 + (if IsLeap(y) then 1 else 0)
    ensures 1 <= MonthOf(y, doy) <= 12
    ensures DaysBeforeMonth(y, MonthOf(y, doy)) <= doy
    ensures doy < DaysBeforeMonth(y, MonthOf(y, doy)) + DaysInMonth(y, MonthOf(y, doy))
  {
  }

  /** `FromOrdinal` yields a valid date whose ordinal is the argument. */
  lemma FromOrdinalCorrect(n: int)
    ensures var (y, m, d) := FromOrdinal(n);
      1 <= m <= 12 && 1 <= d <= DaysInMonth(y, m) && ToOrdinal(y, m, d) == n
  {
    var (n400, n100, n4, n1, doy) := Cycles(n - 1);
    var year := n400 * 400 + n100 * 100 + n4 * 4 + n1 + 1;
    if n100 == 4 {
      LastDayOfQuadricentury(n400);
      assert ToOrdinal(year - 1, 12, 31) == n;
    } else if n1 == 4 {
      LastDayOfQuadrennium(n400, n100, n4);
      assert ToOrdinal(year - 1, 12, 31) == n;
    } else {
      CycleDecomposition(n400, n100, n4, n1);
      MonthOfBounds(year, doy);
      var m := MonthOf(year, doy);
      DayWithinMonth(year, m, doy);
    }
  }

  lemma DayWithinMonth(y: int, m: int, doy: int)
    requires 1 <= m <= 12
    requires DaysBeforeMonth(y, m) <= doy < DaysBeforeMonth(y, m) + DaysInMonth(y, m)
    ensures ToOrdinal(y, m, doy - DaysBeforeMonth(y, m) + 1) == DaysBeforeYear(y) + doy + 1
  {
  }

  /** Day 146097 of a 400-year cycle is December 31st of its last (leap) year. */
  lemma LastDayOfQuadricentury(a: int)
    ensures ToOrdinal(400 * a + 400, 12, 31) == 146097 * a + 146097
  {
    CycleDecomposition(a, 3, 24, 3);
    var y := 400 * a + 400;
    assert IsLeap(y) by {
      assert y == 400 * (a + 1);
    }
  }

  /** Day 1461 of a 4-year cycle that does not end a century is December 31st of a leap year. */
  lemma LastDayOfQuadrennium(a: int, b: int, c: int)
    requires 0 <= b <= 3 && 0 <= c <= 23
    ensures ToOrdinal(400 * a + 100 * b + 4 * c + 4, 12, 31) == 146097 * a + 36524 * b + 1461 * c + 1461
  {
    CycleDecomposition(a, b, c, 3);
    var y := 400 * a + 100 * b + 4 * c + 4;
    assert IsLeap(y) by {
      assert y == 4 * (100 * a + 25 * b + c + 1);
      assert y == 100 * (4 * a + b) + 4 * (c + 1);
    }
  }


  /** A second of the day splits into an hour, minute and second on the clock that add back up to it. */
  lemma ClockOfSecond(sod: int)
    requires 0 <= sod < 86400
    ensures 0 <= sod / 3600 < 24 && 0 <= (sod % 3600) / 60 < 60 && 0 <= sod % 60 < 60
    ensures (sod / 3600) * 3600 + ((sod % 3600) / 60) * 60 + sod % 60 == sod
  {
    SplitSeconds(sod);
    assert (sod % 3600) % 60 == sod % 60;
  }

  /**
   * For a month in range, `timegm` counts whole days since 1970-01-01 in
   * seconds and adds the time of day.
   */
  lemma TimegmInRange(f: Fields)
    requires 1 <= f.month <= 12
    ensures Timegm(f) == (ToOrdinal(f.year, f.month, f.day) - EpochOrdinal) * 86400
                         + f.hour * 3600 + f.minute * 60 + f.second
  {
    assert (f.month - 1) / 12 == 0 && (f.month - 1) % 12 + 1 == f.month;
  }

  /**
   * The UTC fields of an instant are valid, their date is the day the
   * instant falls on (whole days since 1970-01-01, rounded down), and their
   * time of day adds up to the seconds since that day's midnight.
   */
  lemma CivilDayAndSecond(secs: int)
    ensures ValidFields(Civil(secs))
    ensures ToOrdinal(Civil(secs).year, Civil(secs).month, Civil(secs).day) == secs / 86400 + EpochOrdinal
    ensures Civil(secs).hour * 3600 + Civil(secs).minute * 60 + Civil(secs).second == secs % 86400
  {
    FromOrdinalCorrect(secs / 86400 + EpochOrdinal);
    ClockOfSecond(secs % 86400);
  }

  /** The hours, minutes and seconds of a second of the day add back up to it. */
  lemma SplitSeconds(sod: int)
    ensures (sod / 3600) * 3600 + ((sod % 3600) / 60) * 60 + (sod % 3600) % 60 == sod
  {
  }

  /** Every instant is the `timegm` of its own UTC fields. */
  lemma TimegmOfCivil(secs: int)
    ensures ValidFields(Civil(secs))
    ensures Timegm(Civil(secs)) == secs
  {
    CivilDayAndSecond(secs);
    TimegmInRange(Civil(secs));
  }

  /** Moving from `y - 1` to `y` adds one to the quotient by `k` exactly when `k` divides `y`. */
  lemma QuotientStep(y: int, k: int)
    requires 0 < k
    ensures y / k == (y - 1) / k + (if y % k == 0 then 1 else 0)
  {
    var q := (y - 1) / k;
    var r := (y - 1) % k;
    if r + 1 == k {
      DivMod(y, k, q + 1, 0);
    } else {
      DivMod(y, k, q, r + 1);
    }
  }

  lemma DaysBeforeNextYear(y: int)
    ensures DaysBeforeYear(y + 1) == DaysBeforeYear(y) + 365 + (if IsLeap(y) then 1 else 0)
  {
    assert DaysBeforeYear(y + 1) == y * 365 + y / 4 - y / 100 + y / 400;
    assert DaysBeforeYear(y) == (y - 1) * 365 + (y - 1) / 4 - (y - 1) / 100 + (y - 1) / 400;
    QuotientStep(y, 4);
    QuotientStep(y, 100);
    QuotientStep(y, 400);
  }

  lemma {:induction false} DaysBeforeYearMonotone(y: int, z: int)
    requires y <= z
    ensures DaysBeforeYear(y) + 365 * (z - y) <= DaysBeforeYear(z)
    decreases z - y
  {
    if y < z {
      DaysBeforeYearMonotone(y, z - 1);
      DaysBeforeNextYear(z - 1);
    }
  }

  /** The ordinal of a valid date lies within its year. */
  lemma OrdinalWithinYear(y: int, m: int, d: int)
    requires 1 <= m <= 12 && 1 <= d <= DaysInMonth(y, m)
    ensures DaysBeforeYear(y) < ToOrdinal(y, m, d) <= DaysBeforeYear(y + 1)
  {
    DaysBeforeNextYear(y);
  }

  /** Two valid dates with the same ordinal are the same date. */
  lemma OrdinalInjective(y: int, m: int, d: int, y': int, m': int, d': int)
    requires 1 <= m <= 12 && 1 <= d <= DaysInMonth(y, m)
    requires 1 <= m' <= 12 && 1 <= d' <= DaysInMonth(y', m')
    requires ToOrdinal(y, m, d) == ToOrdinal(y', m', d')
    ensures y == y' && m == m' && d == d'
  {
    OrdinalWithinYear(y, m, d);
    OrdinalWithinYear(y', m', d');
    if y < y' {
      DaysBeforeYearMonotone(y + 1, y');
      assert false;
    } else if y' < y {
      DaysBeforeYearMonotone(y' + 1, y);
      assert false;
    } else {
      DayOfYearInjective(y, m, d, m', d');
    }
  }

  /** Within one year, two valid dates on the same day of the year are the same date. */
  lemma DayOfYearInjective(y: int, m: int, d: int, m': int, d': int)
    requires 1 <= m <= 12 && 1 <= d <= DaysInMonth(y, m)
    requires 1 <= m' <= 12 && 1 <= d' <= DaysInMonth(y, m')
    requires DaysBeforeMonth(y, m) + d == DaysBeforeMonth(y, m') + d'
    ensures m == m' && d == d'
  {
  }

  lemma TimeOfDay(h: int, mi: int, sec: int)
    requires 0 <= h < 24 && 0 <= mi < 60 && 0 <= sec < 60
    ensures var sod := h * 3600 + mi * 60 + sec;
      0 <= sod < 86400 && sod / 3600 == h && (sod % 3600) / 60 == mi && sod % 60 == sec
  {
    var sod := h * 3600 + mi * 60 + sec;
    DivMod(sod, 3600, h, mi * 60 + sec);
    DivMod(mi * 60 + sec, 60, mi, sec);
    DivMod(sod, 60, h * 60 + mi, sec);
  }

  /** The fields of an instant given as whole days since the epoch plus a second of the day. */
  lemma CivilOfDay(secs: int, days: int, sod: int)
    requires 0 <= sod < 86400 && secs == days * 86400 + sod
    ensures var date := FromOrdinal(days + EpochOrdinal);
      Civil(secs) == Fields(date.0, date.1, date.2, sod / 3600, (sod % 3600) / 60, sod % 60)
  {
    DivMod(secs, 86400, days, sod);
    assert secs / 86400 == days && secs % 86400 == sod;
  }

  /** Valid fields survive `timegm` followed by the conversion back. */
  lemma CivilOfTimegm(f: Fields)
    requires ValidFields(f)
    ensures Civil(Timegm(f)) == f
  {
    var days := ToOrdinal(f.year, f.month, f.day) - EpochOrdinal;
    var sod := f.hour * 3600 + f.minute * 60 + f.second;
    TimegmInRange(f);
    TimeOfDay(f.hour, f.minute, f.second);
    CivilOfDay(Timegm(f), days, sod);
    FromOrdinalCorrect(days + EpochOrdinal);
    var date := FromOrdinal(days + EpochOrdinal);
    OrdinalInjective(date.0, date.1, date.2, f.year, f.month, f.day);
  }
}
