/** Naive civil date-times as Python's `datetime` holds them (proleptic
    Gregorian calendar, years 1 to 9999, whole seconds), the conversion of
    a local time to UTC by subtracting a fixed offset
    (`dt.replace(tzinfo=...).astimezone(timezone.utc)`, main.py:130-131),
    and the two renderings the loader writes: `isoformat()` of a UTC time
    (main.py:206) and `strftime("%Y-%m-%d %H:%M")` (main.py:235). */
module Calendar {
  import opened Wrappers
  import opened Text

  const MinYear: int := 1
  const MaxYear: int := 9999

  /** A UTC offset in seconds; `tzinfo.utcoffset` must lie strictly
      within one day either way. */
  type Offset = x: int | -86400 < x < 86400

  datatype DateTime = DateTime(year: int, month: int, day: int, hour: int, minute: int, second: int)

  predicate IsLeap(y: int) {
    y % 4 == 0 && (y % 100 != 0 || y % 400 == 0)
  }

  function YearDays(y: int): int {
    if IsLeap(y) then 366 else 365
  }

  function DaysIn(y: int, m: int): int
    requires 1 <= m <= 12
  {
    if m == 2 then (if IsLeap(y) then 29 else 28)
    else if m == 4 || m == 6 || m == 9 || m == 11 then 30
    else 31
  }

  /** What `datetime(...)` accepts without raising ValueError. */
  predicate Valid(dt: DateTime) {
    && MinYear <= dt.year <= MaxYear
    && 1 <= dt.month <= 12
    && 1 <= dt.day <= DaysIn(dt.year, dt.month)
    && 0 <= dt.hour < 24 && 0 <= dt.minute < 60 && 0 <= dt.second < 60
  }

  // ----- counting days and seconds -----

  /** Days from 0001-01-01 to January 1st of year `y`. */
  function DaysBeforeYear(y: int): int {
    var p := y - 1;
    p * 365 + p / 4 - p / 100 + p / 400
  }

  /** Days from January 1st to the first of month `m`. */
  function DaysBeforeMonth(y: int, m: int): int
    requires 1 <= m <= 12
  {
    var common :=
      if m == 1 then 0 else if m == 2 then 31 else if m == 3 then 59
      else if m == 4 then 90 else if m == 5 then 120 else if m == 6 then 151
      else if m == 7 then 181 else if m == 8 then 212 else if m == 9 then 243
      else if m == 10 then 273 else if m == 11 then 304 else 334;
    common + (if m > 2 && IsLeap(y) then 1 else 0)
  }

  /** Days since 0001-01-01 (the proleptic ordinal minus one). */
  ghost function DayNumber(dt: DateTime): int
    requires 1 <= dt.month <= 12
  {
    DaysBeforeYear(dt.year) + DaysBeforeMonth(dt.year, dt.month) + dt.day - 1
  }

  /** Seconds since 0001-01-01 00:00:00 of the same clock. */
  ghost function Instant(dt: DateTime): int
    requires 1 <= dt.month <= 12
  {
    DayNumber(dt) * 86400 + dt.hour * 3600 + dt.minute * 60 + dt.second
  }

  /** The first instant past 9999-12-31 23:59:59. */
  ghost const EndInstant: int := DaysBeforeYear(MaxYear + 1) * 86400

  lemma YearStep(y: int)
    requires y >= 1
    ensures DaysBeforeYear(y + 1) == DaysBeforeYear(y) + YearDays(y)
  {
    var p := y - 1;
    assert y / 4 == p / 4 + (if y % 4 == 0 then 1 else 0);
    assert y / 100 == p / 100 + (if y % 100 == 0 then 1 else 0);
    assert y / 400 == p / 400 + (if y % 400 == 0 then 1 else 0);
  }

  lemma {:induction false} DaysBeforeYearMono(a: int, b: int)
    requires 1 <= a <= b
    ensures DaysBeforeYear(a) <= DaysBeforeYear(b)
    decreases b - a
  {
    if a < b {
      YearStep(a);
      DaysBeforeYearMono(a + 1, b);
    }
  }

  lemma MonthStep(y: int, m: int)
    requires 1 <= m < 12
    ensures DaysBeforeMonth(y, m + 1) == DaysBeforeMonth(y, m) + DaysIn(y, m)
  {
  }

  lemma LastMonth(y: int)
    ensures DaysBeforeMonth(y, 12) + DaysIn(y, 12) == YearDays(y)
  {
  }

  lemma MonthMono(y: int, a: int, b: int)
    requires 1 <= a < b <= 12
    ensures DaysBeforeMonth(y, a) + DaysIn(y, a) <= DaysBeforeMonth(y, b)
  {
  }

  /** A valid date lies inside its year. */
  lemma DayNumberInYear(dt: DateTime)
    requires Valid(dt)
    ensures DaysBeforeYear(dt.year) <= DayNumber(dt) < DaysBeforeYear(dt.year + 1)
  {
    YearStep(dt.year);
    if dt.month < 12 {
      MonthMono(dt.year, dt.month, 12);
    }
    LastMonth(dt.year);
  }

  /** Every valid date-time lies between 0001-01-01 00:00:00 and
      9999-12-31 23:59:59. */
  lemma InstantRange(dt: DateTime)
    requires Valid(dt)
    ensures 0 <= Instant(dt) < EndInstant
  {
    DayNumberInYear(dt);
    DaysBeforeYearMono(1, dt.year);
    DaysBeforeYearMono(dt.year + 1, MaxYear + 1);
  }

  /** Different valid dates have different day numbers. */
  lemma DayNumberInjective(a: DateTime, b: DateTime)
    requires Valid(a) && Valid(b) && DayNumber(a) == DayNumber(b)
    ensures a.year == b.year && a.month == b.month && a.day == b.day
  {
    DayNumberInYear(a);
    DayNumberInYear(b);
    if a.year < b.year {
      DaysBeforeYearMono(a.year + 1, b.year);
    } else if b.year < a.year {
      DaysBeforeYearMono(b.year + 1, a.year);
    } else if a.month < b.month {
      MonthMono(a.year, a.month, b.month);
    } else if b.month < a.month {
      MonthMono(a.year, b.month, a.month);
    }
  }

  // ----- moving by one day -----

  /** The same clock time on the following day. */
  function NextDay(dt: DateTime): (r: DateTime)
    requires Valid(dt) && !(dt.year == MaxYear && dt.month == 12 && dt.day == 31)
    ensures Valid(r) && DayNumber(r) == DayNumber(dt) + 1
  {
    if dt.day < DaysIn(dt.year, dt.month) then dt.(day := dt.day + 1)
    else if dt.month < 12 then
      MonthStep(dt.year, dt.month);
      dt.(month := dt.month + 1, day := 1)
    else
      LastMonth(dt.year);
      YearStep(dt.year);
      dt.(year := dt.year + 1, month := 1, day := 1)
  }

  /** The same clock time on the previous day. */
  function PrevDay(dt: DateTime): (r: DateTime)
    requires Valid(dt) && !(dt.year == MinYear && dt.month == 1 && dt.day == 1)
    ensures Valid(r) && DayNumber(r) == DayNumber(dt) - 1
  {
    if dt.day > 1 then dt.(day := dt.day - 1)
    else if dt.month > 1 then
      MonthStep(dt.year, dt.month - 1);
      dt.(month := dt.month - 1, day := DaysIn(dt.year, dt.month - 1))
    else
      LastMonth(dt.year - 1);
      YearStep(dt.year - 1);
      dt.(year := dt.year - 1, month := 12, day := 31)
  }

  /** The date of `dt` at second `t` of the day. */
  function AtSecond(dt: DateTime, t: int): (r: DateTime)
    requires Valid(dt) && 0 <= t < 86400
    ensures Valid(r) && Instant(r) == DayNumber(dt) * 86400 + t
  {
    DateTime(dt.year, dt.month, dt.day, t / 3600, t % 3600 / 60, t % 60)
  }

  /** `local.replace(tzinfo=tz).astimezone(timezone.utc)` for a zone whose
      offset at `local` is `offset` seconds: the UTC time that is `offset`
      seconds before the local clock reading.  `None` is Python's
      OverflowError, raised exactly when that instant falls outside the
      years 1 to 9999. */
  function ToUtc(local: DateTime, offset: Offset): (r: Option<DateTime>)
    requires Valid(local)
    ensures r.Some? ==> Valid(r.value) && Instant(r.value) == Instant(local) - offset
    ensures r.None? <==> !(0 <= Instant(local) - offset < EndInstant)
  {
    var t := local.hour * 3600 + local.minute * 60 + local.second - offset;
    InstantRange(local);
    if t < 0 then
      if local.year == MinYear && local.month == 1 && local.day == 1 then None
      else
        var r := AtSecond(PrevDay(local), t + 86400);
        InstantRange(r);
        Some(r)
    else if t >= 86400 then
      if local.year == MaxYear && local.month == 12 && local.day == 31 then
        YearStep(MaxYear);
        LastMonth(MaxYear);
        None
      else
        var r := AtSecond(NextDay(local), t - 86400);
        InstantRange(r);
        Some(r)
    else
      var r := AtSecond(local, t);
      InstantRange(r);
      Some(r)
  }

  /** Converting with offset zero is the identity (UTC never overflows). */
  lemma ToUtcZero(local: DateTime)
    requires Valid(local)
    ensures ToUtc(local, 0) == Some(local)
  {
  }

  /** A valid date-time is determined by its instant, so the UTC time
      `ToUtc` returns is the only valid reading of that instant. */
  lemma InstantInjective(a: DateTime, b: DateTime)
    requires Valid(a) && Valid(b) && Instant(a) == Instant(b)
    ensures a == b
  {
    var ta := a.hour * 3600 + a.minute * 60 + a.second;
    var tb := b.hour * 3600 + b.minute * 60 + b.second;
    assert Instant(a) / 86400 == DayNumber(a) && Instant(a) % 86400 == ta;
    assert Instant(b) / 86400 == DayNumber(b) && Instant(b) % 86400 == tb;
    DayNumberInjective(a, b);
  }

  // ----- renderings -----

  /** `strftime("%Y-%m-%d %H:%M")`: the time truncated to the minute. */
  function MinuteKey(dt: DateTime): (r: string)
    requires Valid(dt)
    ensures |r| == 16
  {
    ZeroPad(dt.year, 4) + "-" + ZeroPad(dt.month, 2) + "-" + ZeroPad(dt.day, 2)
      + " " + ZeroPad(dt.hour, 2) + ":" + ZeroPad(dt.minute, 2)
  }

  /** `isoformat()` of a UTC `datetime` without microseconds: the minute
      key's fields with a `T` between date and time, then the seconds and
      the zone suffix `+00:00`. */
  function IsoFormat(dt: DateTime): (r: string)
    requires Valid(dt)
    ensures |r| == 25 && r[10] == 'T' && r[16] == ':'
    ensures r[17..19] == ZeroPad(dt.second, 2) && r[19..] == "+00:00"
  {
    ZeroPad(dt.year, 4) + "-" + ZeroPad(dt.month, 2) + "-" + ZeroPad(dt.day, 2)
      + "T" + ZeroPad(dt.hour, 2) + ":" + ZeroPad(dt.minute, 2) + ":" + ZeroPad(dt.second, 2)
      + "+00:00"
  }

  /** The minute key is the ISO date with its seconds and zone cut off and
      the `T` replaced by a space. */
  lemma MinuteKeyOfIso(dt: DateTime)
    requires Valid(dt)
    ensures MinuteKey(dt) == IsoFormat(dt)[..10] + " " + IsoFormat(dt)[11..16]
  {
    var y, mo, d := ZeroPad(dt.year, 4), ZeroPad(dt.month, 2), ZeroPad(dt.day, 2);
    var h, mi := ZeroPad(dt.hour, 2), ZeroPad(dt.minute, 2);
    var iso := IsoFormat(dt);
    assert iso[..10] == y + "-" + mo + "-" + d;
    assert iso[11..16] == h + ":" + mi;
  }

  /** The ISO text determines the time: different valid times never
      share a `Date`. */
  lemma IsoFormatInjective(a: DateTime, b: DateTime)
    requires Valid(a) && Valid(b)
    ensures IsoFormat(a) == IsoFormat(b) <==> a == b
  {
    if IsoFormat(a) == IsoFormat(b) {
      MinuteKeyOfIso(a);
      MinuteKeyOfIso(b);
      MinuteKeyFields(a, b);
      ZeroPadInjective(a.second, b.second, 2);
    }
  }

  /** Equal minute keys mean equal fields down to the minute. */
  lemma MinuteKeyFields(a: DateTime, b: DateTime)
    requires Valid(a) && Valid(b) && MinuteKey(a) == MinuteKey(b)
    ensures a.year == b.year && a.month == b.month && a.day == b.day
    ensures a.hour == b.hour && a.minute == b.minute
  {
    MinuteKeySlices(a);
    MinuteKeySlices(b);
    ZeroPadInjective(a.year, b.year, 4);
    ZeroPadInjective(a.month, b.month, 2);
    ZeroPadInjective(a.day, b.day, 2);
    ZeroPadInjective(a.hour, b.hour, 2);
    ZeroPadInjective(a.minute, b.minute, 2);
  }

  lemma MinuteKeySlices(dt: DateTime)
    requires Valid(dt)
    ensures var k := MinuteKey(dt);
      && k[..4] == ZeroPad(dt.year, 4) && k[5..7] == ZeroPad(dt.month, 2)
      && k[8..10] == ZeroPad(dt.day, 2) && k[11..13] == ZeroPad(dt.hour, 2)
      && k[14..16] == ZeroPad(dt.minute, 2)
  {
  }

  /** Two valid times have the same minute key exactly when they fall in
      the same minute of the timeline. */
  lemma MinuteKeySameMinute(a: DateTime, b: DateTime)
    requires Valid(a) && Valid(b)
    ensures MinuteKey(a) == MinuteKey(b) <==> Instant(a) / 60 == Instant(b) / 60
  {
    var ka := DayNumber(a) * 1440 + a.hour * 60 + a.minute;
    var kb := DayNumber(b) * 1440 + b.hour * 60 + b.minute;
    assert Instant(a) == ka * 60 + a.second && Instant(b) == kb * 60 + b.second;
    assert Instant(a) / 60 == ka && Instant(b) / 60 == kb;
    if MinuteKey(a) == MinuteKey(b) {
      MinuteKeyFields(a, b);
    }
    if ka == kb {
      var ta, tb := a.hour * 60 + a.minute, b.hour * 60 + b.minute;
      assert 0 <= ta < 1440 && 0 <= tb < 1440;
      assert ka / 1440 == DayNumber(a) && ka % 1440 == ta;
      assert kb / 1440 == DayNumber(b) && kb % 1440 == tb;
      DayNumberInjective(a, b);
    }
  }
}
