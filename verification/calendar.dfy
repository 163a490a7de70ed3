/** Python `datetime` values as whole seconds, the proleptic Gregorian
    calendar CPython uses, and strftime's `%Y-%m-%d %H:%M` rendering. */
module Calendar {
  import opened Wrappers
  import opened Text

  const SecondsPerMinute: int := 60
  const MinutesPerDay: int := 1440
  const SecondsPerDay: int := 86400
  const MaxYear: int := 9999
  /** Days from 0001-01-01 up to 10000-01-01, the span `datetime` can hold. */
  const DaysInSpan: int := 3652059

  /** A point in time: seconds since 0001-01-01 00:00:00 UTC (sub-second
      precision is not modelled). */
  type Instant = t: int | 0 <= t < DaysInSpan * SecondsPerDay

  predicate IsLeap(y: int) {
    y % 4 == 0 && (y % 100 != 0 || y % 400 == 0)
  }

  function DaysInYear(y: int): int {
    if IsLeap(y) then 366 else 365
  }

  function DaysInMonth(y: int, m: int): int
    requires 1 <= m <= 12
  {
    if m == 2 then (if IsLeap(y) then 29 else 28)
    else if m == 4 || m == 6 || m == 9 || m == 11 then 30
    else 31
  }

  /** Days in the years before year `y` (CPython's `_days_before_year`). */
  function DaysBeforeYear(y: int): int
    requires y >= 1
  {
    var y1 := y - 1;
    y1 * 365 + y1 / 4 - y1 / 100 + y1 / 400
  }

  /** Days in the months of year `y` before month `m` (CPython's `_days_before_month`). */
  function DaysBeforeMonth(y: int, m: int): int
    requires 1 <= m <= 12
  {
    [0, 31, 59, 90, 120, 151, 181, 212, 243, 273, 304, 334][m - 1]
      + (if m > 2 && IsLeap(y) then 1 else 0)
  }

  /** Dividing consecutive numbers: the quotient grows exactly at multiples of `k`. */
  lemma QuotientStep(y: int, k: int)
    requires k > 0
    ensures y / k - (y - 1) / k == (if y % k == 0 then 1 else 0)
  {
    var q, r := (y - 1) / k, (y - 1) % k;
    assert y - 1 == q * k + r && 0 <= r < k;
    if r == k - 1 {
      assert y == (q + 1) * k + 0;
      DivModUnique(y, k, q + 1, 0);
    } else {
      assert y == q * k + (r + 1);
      DivModUnique(y, k, q, r + 1);
    }
  }

  lemma DivModUnique(n: int, k: int, q: int, r: int)
    requires k > 0 && 0 <= r < k && n == q * k + r
    ensures n / k == q && n % k == r
  {
    var q', r' := n / k, n % k;
    assert n == q' * k + r' && 0 <= r' < k;
    if q' != q {
      var lo, hi := if q' < q then q' else q, if q' < q then q else q';
      var d := hi - lo;
      assert hi * k == lo * k + d * k;
      MulAtLeast(d, k);
      assert false;
    }
  }

  lemma MulAtLeast(d: int, k: int)
    requires d >= 1 && k > 0
    ensures d * k >= k
  {
    assert d * k == k + (d - 1) * k;
  }

  lemma YearStep(y: int)
    requires y >= 1
    ensures DaysBeforeYear(y + 1) == DaysBeforeYear(y) + DaysInYear(y)
  {
    QuotientStep(y, 4);
    QuotientStep(y, 100);
    QuotientStep(y, 400);
    if y % 100 == 0 {
      DivModUnique(y, 4, 25 * (y / 100), 0);
    }
    if y % 400 == 0 {
      DivModUnique(y, 100, 4 * (y / 400), 0);
    }
    assert y * 365 == (y - 1) * 365 + 365;
  }

  lemma {:induction false} YearMonotone(a: int, b: int)
    requires 1 <= a <= b
    ensures DaysBeforeYear(a) <= DaysBeforeYear(b)
    decreases b - a
  {
    if a < b {
      YearMonotone(a, b - 1);
      YearStep(b - 1);
    }
  }

  lemma MonthStep(y: int, m: int)
    requires 1 <= m < 12
    ensures DaysBeforeMonth(y, m + 1) == DaysBeforeMonth(y, m) + DaysInMonth(y, m)
  {
  }

  lemma YearEnd(y: int)
    ensures DaysBeforeMonth(y, 12) + DaysInMonth(y, 12) == DaysInYear(y)
  {
  }

  datatype DateTime = DateTime(year: int, month: int, day: int, hour: int, minute: int, second: int)

  predicate ValidDateTime(dt: DateTime) {
    && 1 <= dt.year <= MaxYear
    && 1 <= dt.month <= 12
    && 1 <= dt.day <= DaysInMonth(dt.year, dt.month)
    && 0 <= dt.hour < 24
    && 0 <= dt.minute < 60
    && 0 <= dt.second < 60
  }

  /** Days since 0001-01-01 (CPython's `toordinal() - 1`). */
  function DayNumber(dt: DateTime): (n: int)
    requires ValidDateTime(dt)
    ensures 0 <= n < DaysInSpan
  {
    YearStep(dt.year);
    YearMonotone(dt.year + 1, MaxYear + 1);
    DaysBeforeYear(dt.year) + DaysBeforeMonth(dt.year, dt.month) + dt.day - 1
  }

  function ToInstant(dt: DateTime): Instant
    requires ValidDateTime(dt)
  {
    ((DayNumber(dt) * MinutesPerDay + dt.hour * 60 + dt.minute) * SecondsPerMinute) + dt.second
  }

  /** The year holding the `rem`-th day counted from the start of year `y`,
      and the day's offset inside that year. */
  function YearWalk(rem: nat, y: int): (r: (int, nat))
    requires y >= 1
    ensures y <= r.0 && r.1 < DaysInYear(r.0)
    ensures DaysBeforeYear(r.0) + r.1 == DaysBeforeYear(y) + rem
    decreases rem
  {
    if rem < DaysInYear(y) then (y, rem)
    else
      YearStep(y);
      YearWalk(rem - DaysInYear(y), y + 1)
  }

  /** The month of year `y` holding the `rem`-th day counted from the start
      of month `m`, and the day's offset inside that month. */
  function MonthWalk(rem: nat, y: int, m: int): (r: (int, nat))
    requires 1 <= m <= 12
    requires DaysBeforeMonth(y, m) + rem < DaysInYear(y)
    ensures m <= r.0 <= 12 && r.1 < DaysInMonth(y, r.0)
    ensures DaysBeforeMonth(y, r.0) + r.1 == DaysBeforeMonth(y, m) + rem
    decreases 12 - m
  {
    if rem < DaysInMonth(y, m) then (m, rem)
    else
      YearEnd(y);
      MonthStep(y, m);
      MonthWalk(rem - DaysInMonth(y, m), y, m + 1)
  }

  /** The calendar reading of an instant (CPython's `fromordinal` plus the time of day). */
  function FromInstant(t: Instant): (dt: DateTime)
    ensures ValidDateTime(dt)
    ensures ToInstant(dt) == t
  {
    var minutes := t / SecondsPerMinute;
    var days := minutes / MinutesPerDay;
    var ofDay := minutes % MinutesPerDay;
    var (y, dayOfYear) := YearWalk(days, 1);
    assert y <= MaxYear by {
      if y > MaxYear {
        YearMonotone(MaxYear + 1, y);
      }
    }
    var (m, dayOfMonth) := MonthWalk(dayOfYear, y, 1);
    DateTime(y, m, dayOfMonth + 1, ofDay / 60, ofDay % 60, t % SecondsPerMinute)
  }

  /** No two (year, offset) pairs name the same day. */
  lemma YearUnique(y1: int, r1: int, y2: int, r2: int)
    requires y1 >= 1 && y2 >= 1
    requires 0 <= r1 < DaysInYear(y1) && 0 <= r2 < DaysInYear(y2)
    requires DaysBeforeYear(y1) + r1 == DaysBeforeYear(y2) + r2
    ensures y1 == y2 && r1 == r2
  {
    if y1 < y2 {
      YearStep(y1);
      YearMonotone(y1 + 1, y2);
    } else if y2 < y1 {
      YearStep(y2);
      YearMonotone(y2 + 1, y1);
    }
  }

  lemma {:induction false} MonthUnique(y: int, m1: int, r1: int, m2: int, r2: int)
    requires 1 <= m1 <= 12 && 1 <= m2 <= 12
    requires 0 <= r1 < DaysInMonth(y, m1) && 0 <= r2 < DaysInMonth(y, m2)
    requires DaysBeforeMonth(y, m1) + r1 == DaysBeforeMonth(y, m2) + r2
    ensures m1 == m2 && r1 == r2
  {
  }

  /** The minutes since 0001-01-01 00:00 at which `dt` falls. */
  function MinuteNumber(dt: DateTime): int
    requires ValidDateTime(dt)
  {
    DayNumber(dt) * MinutesPerDay + dt.hour * 60 + dt.minute
  }

  lemma InstantMinute(dt: DateTime)
    requires ValidDateTime(dt)
    ensures ToInstant(dt) / SecondsPerMinute == MinuteNumber(dt)
  {
    DivModUnique(ToInstant(dt), SecondsPerMinute, MinuteNumber(dt), dt.second);
  }

  /** Reading an instant back as a calendar value gives the value it came from. */
  lemma FromToInstant(dt: DateTime)
    requires ValidDateTime(dt)
    ensures FromInstant(ToInstant(dt)) == dt
  {
    var t := ToInstant(dt);
    var back := FromInstant(t);
    var minutes := MinuteNumber(dt);
    InstantMinute(dt);
    DivModUnique(minutes, MinutesPerDay, DayNumber(dt), dt.hour * 60 + dt.minute);
    DivModUnique(dt.hour * 60 + dt.minute, 60, dt.hour, dt.minute);
    DivModUnique(t, SecondsPerMinute, minutes, dt.second);
    YearUnique(back.year, DaysBeforeMonth(back.year, back.month) + back.day - 1,
               dt.year, DaysBeforeMonth(dt.year, dt.month) + dt.day - 1) by {
      YearEnd(back.year);
      YearEnd(dt.year);
    }
    MonthUnique(dt.year, back.month, back.day - 1, dt.month, dt.day - 1);
  }

  /** strftime('%Y-%m-%d %H:%M'): seconds are dropped. */
  function Format(dt: DateTime): (s: string)
    requires ValidDateTime(dt)
    ensures |s| == 16
    ensures s[4] == '-' && s[7] == '-' && s[10] == ' ' && s[13] == ':'
  {
    Pad(dt.year, 4) + "-" + Pad(dt.month, 2) + "-" + Pad(dt.day, 2) + " "
      + Pad(dt.hour, 2) + ":" + Pad(dt.minute, 2)
  }

  /** Reads a `YYYY-MM-DD HH:MM` string back into its fields (second 0). */
  function Parse(s: string): Option<DateTime> {
    if |s| == 16 && s[4] == '-' && s[7] == '-' && s[10] == ' ' && s[13] == ':'
       && AllDigits(s[0..4]) && AllDigits(s[5..7]) && AllDigits(s[8..10])
       && AllDigits(s[11..13]) && AllDigits(s[14..16])
    then Some(DateTime(DigitsValue(s[0..4]), DigitsValue(s[5..7]), DigitsValue(s[8..10]),
                       DigitsValue(s[11..13]), DigitsValue(s[14..16]), 0))
    else None
  }

  lemma ParseFormat(dt: DateTime)
    requires ValidDateTime(dt)
    ensures Parse(Format(dt)) == Some(dt.(second := 0))
  {
    var s := Format(dt);
    assert s[0..4] == Pad(dt.year, 4);
    assert s[5..7] == Pad(dt.month, 2);
    assert s[8..10] == Pad(dt.day, 2);
    assert s[11..13] == Pad(dt.hour, 2);
    assert s[14..16] == Pad(dt.minute, 2);
  }

  /** The deadline text a reminder carries. */
  function FormatInstant(t: Instant): string {
    Format(FromInstant(t))
  }

  /** Instants in the same minute read alike up to their seconds. */
  lemma SameMinuteSameReading(a: Instant, b: Instant)
    requires a / SecondsPerMinute == b / SecondsPerMinute
    ensures FromInstant(a).(second := 0) == FromInstant(b).(second := 0)
  {
  }

  lemma SameFormatSameMinute(a: Instant, b: Instant)
    ensures FormatInstant(a) == FormatInstant(b) ==> a / SecondsPerMinute == b / SecondsPerMinute
  {
    if FormatInstant(a) != FormatInstant(b) {
      return;
    }
    var da, db := FromInstant(a), FromInstant(b);
    ParseFormat(da);
    ParseFormat(db);
    assert da.(second := 0) == db.(second := 0);
    InstantMinute(da);
    InstantMinute(db);
    assert MinuteNumber(da) == MinuteNumber(da.(second := 0));
    assert MinuteNumber(db) == MinuteNumber(db.(second := 0));
  }

  /** The rendered text identifies the instant exactly up to its minute:
      two instants render alike iff they fall in the same minute. */
  lemma FormatDeterminesMinute(a: Instant, b: Instant)
    ensures FormatInstant(a) == FormatInstant(b) <==> a / SecondsPerMinute == b / SecondsPerMinute
  {
    SameFormatSameMinute(a, b);
    if a / SecondsPerMinute == b / SecondsPerMinute {
      SameMinuteSameReading(a, b);
      var da, db := FromInstant(a), FromInstant(b);
      assert Format(da) == Format(da.(second := 0));
      assert Format(db) == Format(db.(second := 0));
    }
  }
}
