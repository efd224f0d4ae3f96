/** The proleptic Gregorian calendar of Python's `datetime` module, reduced to
    integer arithmetic: day ordinals (`date.toordinal()`, 0001-01-01 is day 1)
    and the UTC reading of a Unix timestamp (`datetime.fromtimestamp(t, tz=timezone.utc)`). */
module CivilTime {
  import opened Wrappers

  const MinYear := 1
  const MaxYear := 9999
  const SecondsPerDay := 86400

  /** `date(1970, 1, 1).toordinal()` (see `EpochOrdinalValue`). */
  const EpochOrdinal := 719163
  /** `date.max.toordinal()` (see `MaxOrdinalValue`). */
  const MaxOrdinal := 3652059

  predicate IsLeapYear(y: int) {
    y % 4 == 0 && (y % 100 != 0 || y % 400 == 0)
  }

  function DaysInYear(y: int): int {
    if IsLeapYear(y) then 366 else 365
  }

  function DaysInMonth(y: int, m: int): int
    requires 1 <= m <= 12
  {
    if m == 2 then (if IsLeapYear(y) then 29 else 28)
    else if m == 4 || m == 6 || m == 9 || m == 11 then 30
    else 31
  }

  /** The dates `datetime.date` accepts. */
  predicate ValidDate(y: int, m: int, d: int) {
    MinYear <= y <= MaxYear && 1 <= m <= 12 && 1 <= d <= DaysInMonth(y, m)
  }

  /** A naive date-time with whole seconds. */
  datatype DateTime = DateTime(year: int, month: int, day: int, hour: int, minute: int, second: int)

  /** What the `datetime` constructor accepts (microseconds aside). */
  predicate Valid(t: DateTime) {
    && ValidDate(t.year, t.month, t.day)
    && 0 <= t.hour < 24 && 0 <= t.minute < 60 && 0 <= t.second < 60
  }

  // ---------------------------------------------------------------------------
  // Day ordinals

  /** Days in the years before `y`, the closed form of `_days_before_year`. */
  function DaysBeforeYear(y: int): int
    requires y >= 1
  {
    var k := y - 1;
    365 * k + k / 4 - k / 100 + k / 400
  }

  /** Days in the months of year `y` before month `m`. */
  function DaysBeforeMonth(y: int, m: int): int
    requires 1 <= m <= 13
    decreases m
  {
    if m == 1 then 0 else DaysBeforeMonth(y, m - 1) + DaysInMonth(y, m - 1)
  }

  /** `date(y, m, d).toordinal()`. */
  function ToOrdinal(y: int, m: int, d: int): int
    requires ValidDate(y, m, d)
  {
    DaysBeforeYear(y) + DaysBeforeMonth(y, m) + d
  }

  lemma DivStep(k: int, n: int)
    requires k >= 0 && n > 0
    ensures (k + 1) / n == k / n + (if (k + 1) % n == 0 then 1 else 0)
  {
    var q, r := k / n, k % n;
    assert k == q * n + r && 0 <= r < n;
    if r + 1 < n {
      DivUnique(k + 1, n, q, r + 1);
    } else {
      assert k + 1 == (q + 1) * n + 0;
      DivUnique(k + 1, n, q + 1, 0);
    }
  }

  /** Euclidean division has one quotient and one remainder. */
  lemma DivUnique(a: int, n: int, q: int, r: int)
    requires n > 0 && a == q * n + r && 0 <= r < n
    ensures a / n == q && a % n == r
  {
    var q', r' := a / n, a % n;
    assert a == q' * n + r' && 0 <= r' < n;
    assert (q - q') * n == r' - r;
    MulAtLeast(q - q', n);
    MulAtLeast(q' - q, n);
    assert (q' - q) * n == -((q - q') * n);
  }

  lemma {:induction false} MulAtLeast(x: int, n: int)
    requires n > 0
    ensures x >= 1 ==> x * n >= n
  {
    if x > 1 {
      MulAtLeast(x - 1, n);
      assert x * n == (x - 1) * n + n;
    }
  }

  /** Consecutive years are `DaysInYear` apart. */
  lemma DaysBeforeNextYear(y: int)
    requires y >= 1
    ensures DaysBeforeYear(y + 1) == DaysBeforeYear(y) + DaysInYear(y)
  {
    var k := y - 1;
    DivStep(k, 4);
    DivStep(k, 100);
    DivStep(k, 400);
    var a := if y % 4 == 0 then 1 else 0;
    var b := if y % 100 == 0 then 1 else 0;
    var c := if y % 400 == 0 then 1 else 0;
    assert y / 4 == k / 4 + a && y / 100 == k / 100 + b && y / 400 == k / 400 + c;
    MultipleOfMultiple(y, 100, 25);
    MultipleOfMultiple(y, 400, 4);
    assert DaysInYear(y) == 365 + a - b + c;
  }

  /** A multiple of `n * f` is a multiple of `n`, here with `n * f` written as
      one divisor: `y % 100 == 0` gives `y % 4 == 0`, `y % 400 == 0` gives
      `y % 100 == 0`. */
  lemma MultipleOfMultiple(y: int, m: int, f: int)
    requires f > 0 && m > 0 && m % f == 0
    ensures y % m == 0 ==> y % (m / f) == 0
  {
    if y % m == 0 {
      var q := y / m;
      var n := m / f;
      assert y == q * m;
      assert m == n * f;
      assert y == (q * f) * n;
      DivUnique(y, n, q * f, 0);
    }
  }

  lemma DaysBeforeYearMono(a: int, b: int)
    requires 1 <= a <= b
    ensures DaysBeforeYear(a) <= DaysBeforeYear(b)
    ensures a < b ==> DaysBeforeYear(a) + DaysInYear(a) <= DaysBeforeYear(b)
    decreases b - a
  {
    if a < b {
      DaysBeforeNextYear(a);
      DaysBeforeYearMono(a + 1, b);
    }
  }

  lemma DaysBeforeMonthMono(y: int, a: int, b: int)
    requires 1 <= a <= b <= 13
    ensures DaysBeforeMonth(y, a) <= DaysBeforeMonth(y, b)
    ensures a < b ==> DaysBeforeMonth(y, a) + DaysInMonth(y, a) <= DaysBeforeMonth(y, b)
    decreases b - a
  {
    if a < b {
      DaysBeforeMonthMono(y, a + 1, b);
    }
  }

  lemma DaysBeforeMonthYear(y: int)
    ensures DaysBeforeMonth(y, 13) == DaysInYear(y)
  {
  }

  /** The year holding day `n`, searched upwards from `y`. */
  function FindYear(n: int, y: int): (r: int)
    requires 1 <= y && DaysBeforeYear(y) < n
    ensures y <= r && DaysBeforeYear(r) < n <= DaysBeforeYear(r) + DaysInYear(r)
    decreases n - DaysBeforeYear(y)
  {
    DaysBeforeNextYear(y);
    if n <= DaysBeforeYear(y) + DaysInYear(y) then y else FindYear(n, y + 1)
  }

  /** The month of year `y` holding day `r` of that year, searched upwards from `m`. */
  function FindMonth(y: int, r: int, m: int): (k: int)
    requires 1 <= m <= 12 && DaysBeforeMonth(y, m) < r <= DaysInYear(y)
    ensures m <= k <= 12 && DaysBeforeMonth(y, k) < r <= DaysBeforeMonth(y, k) + DaysInMonth(y, k)
    decreases 12 - m
  {
    if r <= DaysBeforeMonth(y, m) + DaysInMonth(y, m) || m == 12 then
      m
    else
      FindMonth(y, r, m + 1)
  }

  lemma EpochOrdinalValue()
    ensures ToOrdinal(1970, 1, 1) == EpochOrdinal
  {
  }

  lemma MaxOrdinalValue()
    ensures ToOrdinal(MaxYear, 12, 31) == MaxOrdinal
  {
  }

  /** Every valid date has an ordinal in `1..MaxOrdinal`. */
  lemma ToOrdinalRange(y: int, m: int, d: int)
    requires ValidDate(y, m, d)
    ensures 1 <= ToOrdinal(y, m, d) <= MaxOrdinal
  {
    DaysBeforeYearMono(y, MaxYear + 1);
    DayOfYearRange(y, m, d);
    assert DaysBeforeYear(MaxYear + 1) == MaxOrdinal;
  }

  /** `date.fromordinal(n)`, as (year, month, day). */
  function FromOrdinal(n: int): (r: (int, int, int))
    requires 1 <= n <= MaxOrdinal
    ensures ValidDate(r.0, r.1, r.2) && ToOrdinal(r.0, r.1, r.2) == n
  {
    var y := FindYear(n, 1);
    DaysBeforeYearMono(y, MaxYear + 1);
    assert DaysBeforeYear(MaxYear + 1) == MaxOrdinal;
    var yd := n - DaysBeforeYear(y);
    DaysBeforeMonthYear(y);
    var m := FindMonth(y, yd, 1);
    (y, m, yd - DaysBeforeMonth(y, m))
  }

  /** Day `d` of month `m` is day `DaysBeforeMonth(y, m) + d` of the year. */
  lemma DayOfYearRange(y: int, m: int, d: int)
    requires ValidDate(y, m, d)
    ensures 1 <= DaysBeforeMonth(y, m) + d <= DaysInYear(y)
  {
    DaysBeforeMonthMono(y, m, 13);
    DaysBeforeMonthYear(y);
  }

  lemma YearsApart(a: int, b: int)
    requires 1 <= a && 1 <= b
    ensures a < b ==> DaysBeforeYear(a) + DaysInYear(a) <= DaysBeforeYear(b)
  {
    if a < b {
      DaysBeforeYearMono(a, b);
    }
  }

  lemma MonthsApart(y: int, a: int, b: int)
    requires 1 <= a <= 12 && 1 <= b <= 12
    ensures a < b ==> DaysBeforeMonth(y, a) + DaysInMonth(y, a) <= DaysBeforeMonth(y, b)
  {
    if a < b {
      DaysBeforeMonthMono(y, a, b);
    }
  }

  /** Distinct valid dates have distinct ordinals. */
  lemma ToOrdinalInjective(y1: int, m1: int, d1: int, y2: int, m2: int, d2: int)
    requires ValidDate(y1, m1, d1) && ValidDate(y2, m2, d2)
    requires ToOrdinal(y1, m1, d1) == ToOrdinal(y2, m2, d2)
    ensures y1 == y2 && m1 == m2 && d1 == d2
  {
    DayOfYearRange(y1, m1, d1);
    DayOfYearRange(y2, m2, d2);
    YearsApart(y1, y2);
    YearsApart(y2, y1);
    assert y1 == y2;
    MonthsApart(y1, m1, m2);
    MonthsApart(y1, m2, m1);
  }

  /** `date.fromordinal(d.toordinal()) == d`. */
  lemma FromOrdinalOfToOrdinal(y: int, m: int, d: int)
    requires ValidDate(y, m, d)
    ensures 1 <= ToOrdinal(y, m, d) <= MaxOrdinal
    ensures FromOrdinal(ToOrdinal(y, m, d)) == (y, m, d)
  {
    ToOrdinalRange(y, m, d);
    var r := FromOrdinal(ToOrdinal(y, m, d));
    ToOrdinalInjective(r.0, r.1, r.2, y, m, d);
  }

  // ---------------------------------------------------------------------------
  // Unix timestamps read in UTC

  /** The earliest and latest timestamps whose UTC date lies in years 1..9999. */
  const MinTimestamp := (1 - EpochOrdinal) * SecondsPerDay
  const MaxTimestamp := (MaxOrdinal - EpochOrdinal) * SecondsPerDay + SecondsPerDay - 1

  /** `datetime.fromtimestamp(ts, tz=timezone.utc)` for an integer `ts`, as its
      civil fields; `None` where Python raises because the year leaves 1..9999.
      Dafny's `/` and `%` by a positive divisor round towards minus infinity,
      as Python's do. */
  function FromTimestamp(ts: int): (r: Option<DateTime>)
    ensures r.Some? ==> Valid(r.value)
  {
    var days := ts / SecondsPerDay;
    var secs := ts % SecondsPerDay;
    var n := days + EpochOrdinal;
    if 1 <= n <= MaxOrdinal then
      var ymd := FromOrdinal(n);
      Some(DateTime(ymd.0, ymd.1, ymd.2, secs / 3600, secs % 3600 / 60, secs % 60))
    else
      None
  }

  /** Seconds since 1970-01-01 00:00:00 of a date-time read as UTC. */
  function ToTimestamp(t: DateTime): int
    requires Valid(t)
  {
    (ToOrdinal(t.year, t.month, t.day) - EpochOrdinal) * SecondsPerDay
      + t.hour * 3600 + t.minute * 60 + t.second
  }

  /** A timestamp converts exactly when it lies in the supported range, and the
      converted date-time is valid and names the same instant. */
  lemma FromTimestampSpec(ts: int)
    ensures FromTimestamp(ts).Some? <==> MinTimestamp <= ts <= MaxTimestamp
    ensures FromTimestamp(ts).Some? ==>
      Valid(FromTimestamp(ts).value) && ToTimestamp(FromTimestamp(ts).value) == ts
  {
    var days := ts / SecondsPerDay;
    var secs := ts % SecondsPerDay;
    assert ts == days * SecondsPerDay + secs && 0 <= secs < SecondsPerDay;
    assert 1 <= days + EpochOrdinal <= MaxOrdinal <==> MinTimestamp <= ts <= MaxTimestamp;
    ClockSplit(secs);
  }

  /** The hour, minute and second `FromTimestamp` reads off the seconds of a
      day are clock fields that add back up to them. */
  lemma ClockSplit(secs: int)
    requires 0 <= secs < SecondsPerDay
    ensures 0 <= secs / 3600 < 24 && 0 <= secs % 3600 / 60 < 60 && 0 <= secs % 60 < 60
    ensures secs / 3600 * 3600 + secs % 3600 / 60 * 60 + secs % 60 == secs
  {
    var h, r := secs / 3600, secs % 3600;
    assert secs == h * 3600 + r && 0 <= r < 3600;
    var m, s := r / 60, r % 60;
    assert r == m * 60 + s && 0 <= s < 60;
    DivUnique(secs, 60, h * 60 + m, s);
  }

  lemma ClockFields(h: int, m: int, s: int)
    requires 0 <= h < 24 && 0 <= m < 60 && 0 <= s < 60
    ensures 0 <= h * 3600 + m * 60 + s < SecondsPerDay
    ensures (h * 3600 + m * 60 + s) / 3600 == h
    ensures (h * 3600 + m * 60 + s) % 3600 / 60 == m
    ensures (h * 3600 + m * 60 + s) % 60 == s
  {
    DivUnique(h * 3600 + m * 60 + s, 3600, h, m * 60 + s);
    DivUnique(m * 60 + s, 60, m, s);
    DivUnique(h * 3600 + m * 60 + s, 60, h * 60 + m, s);
  }

  /** Formatting a valid date-time as a timestamp and reading it back is the identity. */
  lemma FromTimestampOfToTimestamp(t: DateTime)
    requires Valid(t)
    ensures FromTimestamp(ToTimestamp(t)) == Some(t)
  {
    var n := ToOrdinal(t.year, t.month, t.day);
    FromOrdinalOfToOrdinal(t.year, t.month, t.day);
    var secs := t.hour * 3600 + t.minute * 60 + t.second;
    ClockFields(t.hour, t.minute, t.second);
    DivUnique(ToTimestamp(t), SecondsPerDay, n - EpochOrdinal, secs);
  }
}
