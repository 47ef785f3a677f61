/** Timestamp parsing (main.py:33-42, 115-135): the eight accepted layouts
    tried in a fixed order, the first that parses deciding, and the
    conversion of the local reading to UTC with the row's zone or the
    configured one. */
module LocalDates {
  import opened Wrappers
  import opened Combinators
  import opened Text
  import opened Calendar
  import opened Zones
  import opened Strptime

  // ----- DT_FORMATS -----

  /** "%Y-%m-%d %H:%M:%S" */
  const IsoSeconds: seq<Piece> :=
    [Field(Year4), Lit('-'), Field(Month), Lit('-'), Field(Day), Gap,
     Field(Hour24), Lit(':'), Field(Minute), Lit(':'), Field(Second)]
  /** "%Y-%m-%d %H:%M" */
  const IsoMinutes: seq<Piece> :=
    [Field(Year4), Lit('-'), Field(Month), Lit('-'), Field(Day), Gap,
     Field(Hour24), Lit(':'), Field(Minute)]
  /** "%m/%d/%Y %H:%M:%S" */
  const UsSeconds: seq<Piece> :=
    [Field(Month), Lit('/'), Field(Day), Lit('/'), Field(Year4), Gap,
     Field(Hour24), Lit(':'), Field(Minute), Lit(':'), Field(Second)]
  /** "%m/%d/%Y %H:%M" */
  const UsMinutes: seq<Piece> :=
    [Field(Month), Lit('/'), Field(Day), Lit('/'), Field(Year4), Gap,
     Field(Hour24), Lit(':'), Field(Minute)]
  /** "%m/%d/%y %H:%M:%S" */
  const UsShortSeconds: seq<Piece> :=
    [Field(Month), Lit('/'), Field(Day), Lit('/'), Field(Year2), Gap,
     Field(Hour24), Lit(':'), Field(Minute), Lit(':'), Field(Second)]
  /** "%m/%d/%y %H:%M" */
  const UsShortMinutes: seq<Piece> :=
    [Field(Month), Lit('/'), Field(Day), Lit('/'), Field(Year2), Gap,
     Field(Hour24), Lit(':'), Field(Minute)]
  /** "%m/%d/%y %I:%M %p" */
  const UsShortClock: seq<Piece> :=
    [Field(Month), Lit('/'), Field(Day), Lit('/'), Field(Year2), Gap,
     Field(Hour12), Lit(':'), Field(Minute), Gap, Field(AmPm)]
  /** "%m/%d/%Y %I:%M %p" */
  const UsClock: seq<Piece> :=
    [Field(Month), Lit('/'), Field(Day), Lit('/'), Field(Year4), Gap,
     Field(Hour12), Lit(':'), Field(Minute), Gap, Field(AmPm)]

  /** `DT_FORMATS`, in the order they are tried. */
  const Formats: seq<seq<Piece>> :=
    [IsoSeconds, IsoMinutes, UsSeconds, UsMinutes, UsShortSeconds, UsShortMinutes, UsShortClock, UsClock]

  // ----- the format loop -----

  /** One step of the format loop: `strptime(txt, fmt)`. */
  function ParseWith(txt: string): seq<Piece> -> Option<DateTime> {
    fmt => Parse(txt, fmt)
  }

  /** The `for fmt in DT_FORMATS` loop of `parse_date_local` without the
      zone: the naive datetime of the first format that parses `txt`, or
      `None` when every format raises ValueError. */
  function ParseLocal(txt: string): (r: Option<DateTime>)
    ensures r.None? <==> forall i :: 0 <= i < |Formats| ==> Parse(txt, Formats[i]).None?
    ensures r.Some? ==> Valid(r.value)
    ensures r.Some? ==> exists i :: 0 <= i < |Formats| && Parse(txt, Formats[i]) == r
                                    && forall j :: 0 <= j < i ==> Parse(txt, Formats[j]).None?
  {
    var f := ParseWith(txt);
    var r := FirstSome(Formats, f);
    assert forall i :: 0 <= i < |Formats| ==> f(Formats[i]) == Parse(txt, Formats[i]);
    r
  }

  /** The first format that parses decides, whatever later ones would say. */
  lemma ParseLocalFirstFormat(txt: string, i: nat)
    requires i < |Formats| && Parse(txt, Formats[i]).Some?
    requires forall j :: 0 <= j < i ==> Parse(txt, Formats[j]).None?
    ensures ParseLocal(txt) == Parse(txt, Formats[i])
  {
    var f := ParseWith(txt);
    assert FailsBefore(Formats, f, i);
    FirstSomeAt(Formats, f, i);
  }

  // ----- parse_date_local -----

  /** What `parse_date_local` ends in: `None`, the pair of the trimmed
      text and the UTC time, or the OverflowError `astimezone` raises when
      the UTC time falls outside the years 1 to 9999.  That error is not a
      ValueError, so the format loop does not catch it and it ends the
      whole run. */
  datatype DateResult = NoDate | Parsed(text: string, utc: DateTime) | Overflow

  /** The zone a row's time is read in: the row's own offset when it has
      one (a zone object is always truthy), else the configured zone. */
  function RowZone(rowTz: Option<Zone>, srcTz: Zone): (z: Zone)
    ensures rowTz.Some? ==> z == rowTz.value
    ensures rowTz.None? ==> z == srcTz
  {
    rowTz.GetOr(srcTz)
  }

  /** `parse_date_local(cell, tzinfo_override=rowTz)`.  `namedOffset` is
      the offset the time-zone database gives a named zone at a local
      time. */
  function ParseDateLocal(cell: Option<string>, rowTz: Option<Zone>, srcTz: Zone,
                          namedOffset: (string, DateTime) -> Offset): (r: DateResult)
    ensures r.NoDate? <==> cell.None? || AllSpace(cell.value) || ParseLocal(Strip(cell.value)).None?
    ensures r.Parsed? ==>
      && cell.Some? && r.text == Strip(cell.value) && r.text != [] && IsStripped(r.text)
      && ParseLocal(r.text).Some? && Valid(r.utc)
      && var local := ParseLocal(r.text).value;
         Instant(r.utc) == Instant(local) - OffsetAt(RowZone(rowTz, srcTz), local, namedOffset)
    ensures r.Overflow? ==>
      && cell.Some? && ParseLocal(Strip(cell.value)).Some?
      && var local := ParseLocal(Strip(cell.value)).value;
         !(0 <= Instant(local) - OffsetAt(RowZone(rowTz, srcTz), local, namedOffset) < EndInstant)
  {
    if cell.None? then NoDate
    else
      var txt := Strip(cell.value);
      StripEmpty(cell.value);
      if txt == [] then NoDate
      else
        match ParseLocal(txt)
        case None => NoDate
        case Some(local) => Localized(txt, local, RowZone(rowTz, srcTz), namedOffset)
  }

  /** `dt_naive.replace(tzinfo=...).astimezone(UTC)` for a text that parsed
      to `local`. */
  function Localized(txt: string, local: DateTime, z: Zone,
                     namedOffset: (string, DateTime) -> Offset): (r: DateResult)
    requires Valid(local)
    ensures !r.NoDate?
    ensures r.Parsed? ==> r.text == txt && Valid(r.utc)
                          && Instant(r.utc) == Instant(local) - OffsetAt(z, local, namedOffset)
    ensures r.Overflow? ==> !(0 <= Instant(local) - OffsetAt(z, local, namedOffset) < EndInstant)
  {
    match ToUtc(local, OffsetAt(z, local, namedOffset))
    case Some(u) => Parsed(txt, u)
    case None => Overflow
  }

  /** With a whole-hour zone the UTC time is the local reading moved back
      by exactly that many hours. */
  lemma ParseDateLocalFixed(cell: Option<string>, rowTz: Option<Zone>, srcTz: Zone,
                            namedOffset: (string, DateTime) -> Offset, h: Hours)
    requires RowZone(rowTz, srcTz) == Fixed(h)
    requires ParseDateLocal(cell, rowTz, srcTz, namedOffset).Parsed?
    ensures var r := ParseDateLocal(cell, rowTz, srcTz, namedOffset);
      Instant(r.utc) == Instant(ParseLocal(r.text).value) - h * 3600
  {
  }

  /** The row's offset wins over the configured zone, which is used only
      when the row has none. */
  lemma ParseDateLocalOverride(cell: Option<string>, h: Hours, srcTz: Zone, other: Zone,
                               namedOffset: (string, DateTime) -> Offset)
    ensures ParseDateLocal(cell, Some(Fixed(h)), srcTz, namedOffset)
         == ParseDateLocal(cell, Some(Fixed(h)), other, namedOffset)
  {
  }

  // ----- which format reads which text -----

  /** A text with no `x` at all is parsed by no format that has a literal
      `x`. */
  lemma MissingSeparator(t: string, fmt: seq<Piece>, x: char)
    requires Separator(x) && multiset(t)[x] != LitCount(fmt, 0, x)
    ensures Parse(t, fmt).None?
  {
    if Parse(t, fmt).Some? {
      ParseCountsSeparators(t, fmt, x);
    }
  }

  lemma DigitsHaveNoSeparator(s: string, x: char)
    requires AllDigits(s) && Separator(x)
    ensures multiset(s)[x] == 0
  {
    assert x !in s;
  }

  /** The `%Y-%m-%d %H:%M:%S` rendering of a time, the layout of the
      export's own timestamps. */
  function SecondsText(dt: DateTime): (r: string)
    requires Valid(dt)
    ensures |r| == 19 && r[..16] == MinuteKey(dt)
  {
    MinuteKey(dt) + ":" + ZeroPad(dt.second, 2)
  }

  /** The characters of the minute key, field by field. */
  lemma MinuteKeyLayout(dt: DateTime, t: string)
    requires Valid(dt) && |t| >= 16 && t[..16] == MinuteKey(dt)
    ensures t[0..4] == ZeroPad(dt.year, 4) && t[4] == '-' && t[5..7] == ZeroPad(dt.month, 2)
    ensures t[7] == '-' && t[8..10] == ZeroPad(dt.day, 2) && t[10] == ' '
    ensures t[11..13] == ZeroPad(dt.hour, 2) && t[13] == ':' && t[14..16] == ZeroPad(dt.minute, 2)
  {
    var k := MinuteKey(dt);
    MinuteKeySlices(dt);
    assert k[4] == '-' && k[7] == '-' && k[10] == ' ' && k[13] == ':';
    assert t[0..4] == k[..4] && t[5..7] == k[5..7] && t[8..10] == k[8..10];
    assert t[11..13] == k[11..13] && t[14..16] == k[14..16];
  }

  /** The first way of each piece of `%Y-%m-%d %H:%M` over the first
      sixteen characters reads the matching field of `dt`. */
  ghost predicate IsoMinutesWays(ways: WaySource, dt: DateTime, t: string) {
    && FirstWay(ways, Field(Year4), t, 0, Way(4, dt.year))
    && FirstWay(ways, Lit('-'), t, 4, Way(1, 0))
    && FirstWay(ways, Field(Month), t, 5, Way(2, dt.month))
    && FirstWay(ways, Lit('-'), t, 7, Way(1, 0))
    && FirstWay(ways, Field(Day), t, 8, Way(2, dt.day))
    && FirstWay(ways, Gap, t, 10, Way(1, 0))
    && FirstWay(ways, Field(Hour24), t, 11, Way(2, dt.hour))
    && FirstWay(ways, Lit(':'), t, 13, Way(1, 0))
    && FirstWay(ways, Field(Minute), t, 14, Way(2, dt.minute))
  }

  /** A text starting with the minute key of `dt` has those first ways. */
  lemma MinuteKeyWays(dt: DateTime, t: string)
    requires Valid(dt) && |t| >= 16 && t[..16] == MinuteKey(dt)
    ensures IsoMinutesWays(Ways, dt, t)
  {
    MinuteKeyDateWays(dt, t);
    MinuteKeyClockWays(dt, t);
  }

  lemma MinuteKeyDateWays(dt: DateTime, t: string)
    requires Valid(dt) && |t| >= 16 && t[..16] == MinuteKey(dt)
    ensures FirstWay(Ways, Field(Year4), t, 0, Way(4, dt.year)) && FirstWay(Ways, Lit('-'), t, 4, Way(1, 0))
    ensures FirstWay(Ways, Field(Month), t, 5, Way(2, dt.month)) && FirstWay(Ways, Lit('-'), t, 7, Way(1, 0))
    ensures FirstWay(Ways, Field(Day), t, 8, Way(2, dt.day))
  {
    MinuteKeyLayout(dt, t);
    PaddedFieldFirstWay(Year4, t, 0, dt.year);
    LitFirstWay(t, 4, '-');
    PaddedFieldFirstWay(Month, t, 5, dt.month);
    LitFirstWay(t, 7, '-');
    PaddedFieldFirstWay(Day, t, 8, dt.day);
  }

  lemma MinuteKeyClockWays(dt: DateTime, t: string)
    requires Valid(dt) && |t| >= 16 && t[..16] == MinuteKey(dt)
    ensures FirstWay(Ways, Gap, t, 10, Way(1, 0)) && FirstWay(Ways, Field(Hour24), t, 11, Way(2, dt.hour))
    ensures FirstWay(Ways, Lit(':'), t, 13, Way(1, 0)) && FirstWay(Ways, Field(Minute), t, 14, Way(2, dt.minute))
  {
    MinuteKeyLayout(dt, t);
    assert IsDigit(t[11]);
    GapFirstWay(t, 10);
    PaddedFieldFirstWay(Hour24, t, 11, dt.hour);
    LitFirstWay(t, 13, ':');
    PaddedFieldFirstWay(Minute, t, 14, dt.minute);
  }

  /** The ways the two ISO formats take through a rendering of `dt`. */
  function MinutesPath(dt: DateTime): seq<Way> {
    [Way(4, dt.year), Way(1, 0), Way(2, dt.month), Way(1, 0), Way(2, dt.day), Way(1, 0),
     Way(2, dt.hour), Way(1, 0), Way(2, dt.minute)]
  }

  function SecondsPath(dt: DateTime): seq<Way> {
    [Way(4, dt.year), Way(1, 0), Way(2, dt.month), Way(1, 0), Way(2, dt.day), Way(1, 0),
     Way(2, dt.hour), Way(1, 0), Way(2, dt.minute), Way(1, 0), Way(2, dt.second)]
  }

  lemma IsoMinutesAlong(ways: WaySource, dt: DateTime, t: string)
    requires IsoMinutesWays(ways, dt, t)
    ensures FirstWaysAlong(ways, IsoMinutes, MinutesPath(dt), 0, t, 0, 16)
  {
    var ps, p := IsoMinutes, MinutesPath(dt);
    assert FirstWaysAlong(ways, ps, p, 9, t, 16, 16);
    assert FirstWaysAlong(ways, ps, p, 8, t, 14, 16);
    assert FirstWaysAlong(ways, ps, p, 7, t, 13, 16);
    assert FirstWaysAlong(ways, ps, p, 6, t, 11, 16);
    assert FirstWaysAlong(ways, ps, p, 5, t, 10, 16);
    assert FirstWaysAlong(ways, ps, p, 4, t, 8, 16);
    assert FirstWaysAlong(ways, ps, p, 3, t, 7, 16);
    assert FirstWaysAlong(ways, ps, p, 2, t, 5, 16);
    assert FirstWaysAlong(ways, ps, p, 1, t, 4, 16);
  }

  lemma IsoSecondsAlong(ways: WaySource, dt: DateTime, t: string)
    requires IsoMinutesWays(ways, dt, t)
    requires FirstWay(ways, Lit(':'), t, 16, Way(1, 0)) && FirstWay(ways, Field(Second), t, 17, Way(2, dt.second))
    ensures FirstWaysAlong(ways, IsoSeconds, SecondsPath(dt), 0, t, 0, 19)
  {
    var ps, p := IsoSeconds, SecondsPath(dt);
    assert FirstWaysAlong(ways, ps, p, 11, t, 19, 19);
    assert FirstWaysAlong(ways, ps, p, 10, t, 17, 19);
    assert FirstWaysAlong(ways, ps, p, 9, t, 16, 19);
    assert FirstWaysAlong(ways, ps, p, 8, t, 14, 19);
    assert FirstWaysAlong(ways, ps, p, 7, t, 13, 19);
    assert FirstWaysAlong(ways, ps, p, 6, t, 11, 19);
    assert FirstWaysAlong(ways, ps, p, 5, t, 10, 19);
    assert FirstWaysAlong(ways, ps, p, 4, t, 8, 19);
    assert FirstWaysAlong(ways, ps, p, 3, t, 7, 19);
    assert FirstWaysAlong(ways, ps, p, 2, t, 5, 19);
    assert FirstWaysAlong(ways, ps, p, 1, t, 4, 19);
  }

  /** The groups the ISO paths capture are the fields of `dt`, so they
      convert back to `dt` (at second 0 without the seconds field). */
  lemma MinutesCollected(dt: DateTime)
    requires Valid(dt)
    ensures Convert(Collected(IsoMinutes, MinutesPath(dt), 0)) == Some(dt.(second := 0))
  {
    var ps, p := IsoMinutes, MinutesPath(dt);
    assert Collected(ps, p, 8) == map[Minute := dt.minute];
    assert Collected(ps, p, 6) == map[Minute := dt.minute, Hour24 := dt.hour];
    assert Collected(ps, p, 4) == map[Minute := dt.minute, Hour24 := dt.hour, Day := dt.day];
    assert Collected(ps, p, 2) == map[Minute := dt.minute, Hour24 := dt.hour, Day := dt.day, Month := dt.month];
  }

  lemma SecondsCollected(dt: DateTime)
    requires Valid(dt)
    ensures Convert(Collected(IsoSeconds, SecondsPath(dt), 0)) == Some(dt)
  {
    var ps, p := IsoSeconds, SecondsPath(dt);
    assert Collected(ps, p, 10) == map[Second := dt.second];
    assert Collected(ps, p, 8) == map[Second := dt.second, Minute := dt.minute];
    assert Collected(ps, p, 6) == map[Second := dt.second, Minute := dt.minute, Hour24 := dt.hour];
    assert Collected(ps, p, 4) == map[Second := dt.second, Minute := dt.minute, Hour24 := dt.hour, Day := dt.day];
    assert Collected(ps, p, 2) == map[Second := dt.second, Minute := dt.minute, Hour24 := dt.hour, Day := dt.day,
                                      Month := dt.month];
  }

  /** Round trip: the first format reads back every time it renders. */
  lemma IsoSecondsRoundTrip(dt: DateTime)
    requires Valid(dt)
    ensures Parse(SecondsText(dt), IsoSeconds) == Some(dt)
  {
    var t := SecondsText(dt);
    SecondsTextWays(dt);
    IsoSecondsAlong(Ways, dt, t);
    ParseAlongFirstWays(t, IsoSeconds, SecondsPath(dt));
    SecondsCollected(dt);
  }

  lemma SecondsTextWays(dt: DateTime)
    requires Valid(dt)
    ensures var t := SecondsText(dt);
      IsoMinutesWays(Ways, dt, t) && FirstWay(Ways, Lit(':'), t, 16, Way(1, 0))
      && FirstWay(Ways, Field(Second), t, 17, Way(2, dt.second))
  {
    var t := SecondsText(dt);
    MinuteKeyWays(dt, t);
    assert t[16] == ':' && t[17..19] == ZeroPad(dt.second, 2);
    LitFirstWay(t, 16, ':');
    PaddedFieldFirstWay(Second, t, 17, dt.second);
  }

  /** Round trip without seconds: the minute key itself, read by the
      second format, is the time at the start of its minute. */
  lemma IsoMinutesRoundTrip(dt: DateTime)
    requires Valid(dt)
    ensures Parse(MinuteKey(dt), IsoMinutes) == Some(dt.(second := 0))
  {
    var t := MinuteKey(dt);
    assert t[..16] == t;
    MinuteKeyWays(dt, t);
    IsoMinutesAlong(Ways, dt, t);
    ParseAlongFirstWays(t, IsoMinutes, MinutesPath(dt));
    MinutesCollected(dt);
  }

  /** `parse_date_local`'s loop reads a `%Y-%m-%d %H:%M:%S` rendering back
      unchanged: the first format takes it. */
  lemma ParseLocalSecondsText(dt: DateTime)
    requires Valid(dt)
    ensures ParseLocal(SecondsText(dt)) == Some(dt)
  {
    IsoSecondsRoundTrip(dt);
    ParseLocalFirstFormat(SecondsText(dt), 0);
  }

  /** The minute key has one colon, so the first format (two colons)
      fails on it and the second reads it. */
  lemma ParseLocalMinuteKey(dt: DateTime)
    requires Valid(dt)
    ensures ParseLocal(MinuteKey(dt)) == Some(dt.(second := 0))
  {
    MinuteKeyFormats(dt);
    ParseLocalSecondFormat(MinuteKey(dt));
  }

  lemma MinuteKeyFormats(dt: DateTime)
    requires Valid(dt)
    ensures Parse(MinuteKey(dt), IsoSeconds).None?
    ensures Parse(MinuteKey(dt), IsoMinutes) == Some(dt.(second := 0))
  {
    MinuteKeyColons(dt);
    FormatColons();
    MissingSeparator(MinuteKey(dt), IsoSeconds, ':');
    IsoMinutesRoundTrip(dt);
  }

  /** A text the first format rejects and the second accepts is read by
      the second. */
  lemma ParseLocalSecondFormat(txt: string)
    requires Parse(txt, IsoSeconds).None? && Parse(txt, IsoMinutes).Some?
    ensures ParseLocal(txt) == Parse(txt, IsoMinutes)
  {
    ParseLocalFirstFormat(txt, 1);
  }

  /** The minute key has a single colon. */
  lemma MinuteKeyColons(dt: DateTime)
    requires Valid(dt)
    ensures multiset(MinuteKey(dt))[':'] == 1
  {
    var y, mo, d := ZeroPad(dt.year, 4), ZeroPad(dt.month, 2), ZeroPad(dt.day, 2);
    var h, mi := ZeroPad(dt.hour, 2), ZeroPad(dt.minute, 2);
    DigitsHaveNoSeparator(y, ':');
    DigitsHaveNoSeparator(mo, ':');
    DigitsHaveNoSeparator(d, ':');
    DigitsHaveNoSeparator(h, ':');
    DigitsHaveNoSeparator(mi, ':');
  }

  /** The number of colons in each format. */
  lemma FormatColons()
    ensures LitCount(IsoSeconds, 0, ':') == 2 && LitCount(IsoMinutes, 0, ':') == 1
  {
    assert LitCount(IsoSeconds, 7, ':') == 2;
    assert LitCount(IsoMinutes, 7, ':') == 1;
  }

  // ----- the export's own layout: 9/2/25 11:02 -----

  /** Times the `%-m/%-d/%y %H:%M` layout of the call export can show: the
      month and day written without padding (one or two digits), a year
      that `%y` reads back into its own century (1969 to 2068), and no
      seconds. */
  predicate ShortDate(dt: DateTime) {
    Valid(dt) && 1969 <= dt.year <= 2068 && dt.second == 0
  }

  function ShortText(dt: DateTime): string
    requires ShortDate(dt)
  {
    ShowNat(dt.month) + "/" + ShowNat(dt.day) + "/" + ZeroPad(dt.year % 100, 2)
      + " " + ZeroPad(dt.hour, 2) + ":" + ZeroPad(dt.minute, 2)
  }

  /** Where the year of a short text starts. */
  function YearPos(dt: DateTime): nat
    requires ShortDate(dt)
  {
    |ShowNat(dt.month)| + |ShowNat(dt.day)| + 2
  }

  /** The shape of a short text: the month's `a` characters, a `/`, the
      day up to the `/` before the year at `e`, then the year, a space, the
      hour, a colon and the minute. */
  predicate ShortLayout(t: string, a: nat, e: nat, m: nat, d: nat, y: nat, h: nat, mi: nat) {
    && 1 <= a <= 2 && a + 3 <= e <= a + 4 && |t| == e + 8
    && 1 <= m <= 12 && 1 <= d <= 31 && y < 100 && h < 24 && mi < 60
    && t[0..a] == ShowNat(m) && t[a] == '/' && t[a + 1..e - 1] == ShowNat(d) && t[e - 1] == '/'
    && t[e..e + 2] == ZeroPad(y, 2) && t[e + 2] == ' ' && t[e + 3..e + 5] == ZeroPad(h, 2)
    && t[e + 5] == ':' && t[e + 6..e + 8] == ZeroPad(mi, 2)
  }

  lemma ShortTextLayout(dt: DateTime)
    requires ShortDate(dt)
    ensures ShortLayout(ShortText(dt), |ShowNat(dt.month)|, YearPos(dt), dt.month, dt.day,
                        dt.year % 100, dt.hour, dt.minute)
  {
    ShowNatSmall(dt.month);
    ShowNatSmall(dt.day);
    JoinedLayout(ShowNat(dt.month), ShowNat(dt.day), ZeroPad(dt.year % 100, 2), ZeroPad(dt.hour, 2),
                 ZeroPad(dt.minute, 2));
  }

  /** Where each part of `mo/d/y h:mi` sits. */
  lemma JoinedLayout(mo: string, d: string, y: string, h: string, mi: string)
    requires |y| == 2 && |h| == 2 && |mi| == 2
    ensures var t, a, e := mo + "/" + d + "/" + y + " " + h + ":" + mi, |mo|, |mo| + |d| + 2;
      && |t| == e + 8 && t[0..a] == mo && t[a] == '/' && t[a + 1..e - 1] == d && t[e - 1] == '/'
      && t[e..e + 2] == y && t[e + 2] == ' ' && t[e + 3..e + 5] == h && t[e + 5] == ':' && t[e + 6..e + 8] == mi
  {
  }

  /** The first way of each piece of `%m/%d/%y %H:%M` over a short text
      whose year starts at `e`, along the path `p`. */
  ghost predicate ShortWays(ways: WaySource, p: seq<Way>, t: string, a: nat, e: nat)
    requires |p| == 9 && e >= 1
  {
    && FirstWay(ways, Field(Month), t, 0, p[0])
    && FirstWay(ways, Lit('/'), t, a, p[1])
    && FirstWay(ways, Field(Day), t, a + 1, p[2])
    && FirstWay(ways, Lit('/'), t, e - 1, p[3])
    && FirstWay(ways, Field(Year2), t, e, p[4])
    && FirstWay(ways, Gap, t, e + 2, p[5])
    && FirstWay(ways, Field(Hour24), t, e + 3, p[6])
    && FirstWay(ways, Lit(':'), t, e + 5, p[7])
    && FirstWay(ways, Field(Minute), t, e + 6, p[8])
  }

  /** The ways a short text is read along: every piece takes its first. */
  function ShortPath(a: nat, e: nat, m: nat, d: nat, y: nat, h: nat, mi: nat): seq<Way>
    requires a + 2 <= e
  {
    [Way(a, m), Way(1, 0), Way(e - a - 2, d), Way(1, 0), Way(2, y), Way(1, 0), Way(2, h), Way(1, 0), Way(2, mi)]
  }

  lemma MonthWaysAt(t: string, a: nat, e: nat, m: nat, d: nat, y: nat, h: nat, mi: nat)
    requires ShortLayout(t, a, e, m, d, y, h, mi)
    ensures FirstWay(Ways, Field(Month), t, 0, Way(a, m)) && FirstWay(Ways, Lit('/'), t, a, Way(1, 0))
  {
    UnpaddedFirstWay(Month, t, 0, m);
    LitFirstWay(t, a, '/');
  }

  lemma DayWaysAt(t: string, a: nat, e: nat, m: nat, d: nat, y: nat, h: nat, mi: nat)
    requires ShortLayout(t, a, e, m, d, y, h, mi)
    ensures FirstWay(Ways, Field(Day), t, a + 1, Way(e - a - 2, d)) && FirstWay(Ways, Lit('/'), t, e - 1, Way(1, 0))
  {
    UnpaddedFirstWay(Day, t, a + 1, d);
    LitFirstWay(t, e - 1, '/');
  }

  lemma YearWaysAt(t: string, a: nat, e: nat, m: nat, d: nat, y: nat, h: nat, mi: nat)
    requires ShortLayout(t, a, e, m, d, y, h, mi)
    ensures FirstWay(Ways, Field(Year2), t, e, Way(2, y))
  {
    PaddedFieldFirstWay(Year2, t, e, y);
  }

  /** A space before a zero-padded hour: one way for `\s+`, the first way
      of `%H` takes both digits. */
  lemma HourWaysAt(t: string, e: nat, h: nat)
    requires h < 24 && e + 5 <= |t| && t[e + 2] == ' ' && t[e + 3..e + 5] == ZeroPad(h, 2)
    ensures FirstWay(Ways, Gap, t, e + 2, Way(1, 0)) && FirstWay(Ways, Field(Hour24), t, e + 3, Way(2, h))
  {
    assert IsDigit(t[e + 3]) by {
      assert t[e + 3] == t[e + 3..e + 5][0];
    }
    GapFirstWay(t, e + 2);
    PaddedFieldFirstWay(Hour24, t, e + 3, h);
  }

  lemma MinuteWaysAt(t: string, e: nat, mi: nat)
    requires mi < 60 && e + 8 <= |t| && t[e + 5] == ':' && t[e + 6..e + 8] == ZeroPad(mi, 2)
    ensures FirstWay(Ways, Lit(':'), t, e + 5, Way(1, 0)) && FirstWay(Ways, Field(Minute), t, e + 6, Way(2, mi))
  {
    LitFirstWay(t, e + 5, ':');
    PaddedFieldFirstWay(Minute, t, e + 6, mi);
  }

  lemma ShortLayoutWays(t: string, a: nat, e: nat, m: nat, d: nat, y: nat, h: nat, mi: nat)
    requires ShortLayout(t, a, e, m, d, y, h, mi)
    ensures ShortWays(Ways, ShortPath(a, e, m, d, y, h, mi), t, a, e)
  {
    MonthWaysAt(t, a, e, m, d, y, h, mi);
    DayWaysAt(t, a, e, m, d, y, h, mi);
    YearWaysAt(t, a, e, m, d, y, h, mi);
    HourWaysAt(t, e, h);
    MinuteWaysAt(t, e, mi);
  }

  lemma ShortAlong(ways: WaySource, p: seq<Way>, t: string, a: nat, e: nat)
    requires |p| == 9 && a + 3 <= e && ShortWays(ways, p, t, a, e)
    requires p[0].len == a && p[1].len == 1 && p[2].len == e - a - 2 && p[3].len == 1
    requires p[4].len == 2 && p[5].len == 1 && p[6].len == 2 && p[7].len == 1 && p[8].len == 2
    ensures FirstWaysAlong(ways, UsShortMinutes, p, 0, t, 0, e + 8)
  {
    var ps := UsShortMinutes;
    assert FirstWaysAlong(ways, ps, p, 9, t, e + 8, e + 8);
    assert FirstWaysAlong(ways, ps, p, 8, t, e + 6, e + 8);
    assert FirstWaysAlong(ways, ps, p, 7, t, e + 5, e + 8);
    assert FirstWaysAlong(ways, ps, p, 6, t, e + 3, e + 8);
    assert FirstWaysAlong(ways, ps, p, 5, t, e + 2, e + 8);
    assert FirstWaysAlong(ways, ps, p, 4, t, e, e + 8);
    assert FirstWaysAlong(ways, ps, p, 3, t, e - 1, e + 8);
    assert FirstWaysAlong(ways, ps, p, 2, t, a + 1, e + 8);
    assert FirstWaysAlong(ways, ps, p, 1, t, a, e + 8);
  }

  /** `%m/%d/%y %H:%M` reads a text of that shape along its first ways. */
  lemma ShortLayoutParse(t: string, a: nat, e: nat, m: nat, d: nat, y: nat, h: nat, mi: nat)
    requires ShortLayout(t, a, e, m, d, y, h, mi)
    ensures Parse(t, UsShortMinutes) == Convert(Collected(UsShortMinutes, ShortPath(a, e, m, d, y, h, mi), 0))
  {
    var p := ShortPath(a, e, m, d, y, h, mi);
    ShortLayoutWays(t, a, e, m, d, y, h, mi);
    ShortAlong(Ways, p, t, a, e);
    ParseAlongFirstWays(t, UsShortMinutes, p);
  }

  lemma ShortCollected(dt: DateTime)
    requires ShortDate(dt)
    ensures Convert(Collected(UsShortMinutes, ShortPath(|ShowNat(dt.month)|, YearPos(dt), dt.month, dt.day,
                                                         dt.year % 100, dt.hour, dt.minute), 0)) == Some(dt)
  {
    var ps := UsShortMinutes;
    var y := dt.year % 100;
    var p := ShortPath(|ShowNat(dt.month)|, YearPos(dt), dt.month, dt.day, y, dt.hour, dt.minute);
    assert Collected(ps, p, 8) == map[Minute := dt.minute];
    assert Collected(ps, p, 6) == map[Minute := dt.minute, Hour24 := dt.hour];
    assert Collected(ps, p, 4) == map[Minute := dt.minute, Hour24 := dt.hour, Year2 := y];
    assert Collected(ps, p, 2) == map[Minute := dt.minute, Hour24 := dt.hour, Year2 := y, Day := dt.day];
    assert Century(y) == dt.year;
  }

  /** `%m/%d/%y %H:%M` reads a short text back. */
  lemma ShortRoundTrip(dt: DateTime)
    requires ShortDate(dt)
    ensures Parse(ShortText(dt), UsShortMinutes) == Some(dt)
  {
    ShortTextLayout(dt);
    ShortLayoutParse(ShortText(dt), |ShowNat(dt.month)|, YearPos(dt), dt.month, dt.day,
                     dt.year % 100, dt.hour, dt.minute);
    ShortCollected(dt);
  }

  /** A four-digit year cannot start two characters before a space: after
      a month and a day of one or two digits each, the `%m/%d/%Y` formats
      find no `%Y`, and backtracking into the month or the day only moves
      a `/` onto a digit. */
  lemma FourDigitYearStuck(ps: seq<Piece>, t: string, a: nat, b: nat)
    requires |ps| >= 5 && ps[..5] == [Field(Month), Lit('/'), Field(Day), Lit('/'), Field(Year4)]
    requires 1 <= a <= 2 && 1 <= b <= 2 && a + b + 4 < |t|
    requires forall k :: 0 <= k < a ==> IsDigit(t[k])
    requires forall k :: a < k <= a + b ==> IsDigit(t[k])
    requires t[a] == '/' && t[a + b + 1] == '/' && IsDigit(t[a + b + 2]) && t[a + b + 4] == ' '
    ensures Match(Ways, ps, 0, t, 0).None?
  {
    assert ps[0] == ps[..5][0] && ps[1] == ps[..5][1] && ps[2] == ps[..5][2];
    assert ps[3] == ps[..5][3] && ps[4] == ps[..5][4];
    DayStuck(ps, t, a, b);
    FieldBeforeSlash(ps, 0, t, 0, a);
  }

  /** From the day on, `%d/%Y` is stuck the same way. */
  lemma DayStuck(ps: seq<Piece>, t: string, a: nat, b: nat)
    requires |ps| >= 5 && ps[2] == Field(Day) && ps[3] == Lit('/') && ps[4] == Field(Year4)
    requires 1 <= b <= 2 && a + b + 4 < |t|
    requires forall k :: a < k <= a + b ==> IsDigit(t[k])
    requires t[a + b + 1] == '/' && IsDigit(t[a + b + 2]) && t[a + b + 4] == ' '
    ensures Match(Ways, ps, 2, t, a + 1).None?
  {
    Year4NoWay(t, a + b + 2, 2);
    MatchNoWay(Ways, ps, 4, t, a + b + 2);
    FieldBeforeSlash(ps, 2, t, a + 1, b);
  }

  /** A text of the short shape has its month, day and year digits where
      `FourDigitYearStuck` needs them. */
  lemma ShortLayoutStuck(ps: seq<Piece>, t: string, a: nat, e: nat, m: nat, d: nat, y: nat, h: nat, mi: nat)
    requires ShortLayout(t, a, e, m, d, y, h, mi)
    requires |ps| >= 5 && ps[..5] == [Field(Month), Lit('/'), Field(Day), Lit('/'), Field(Year4)]
    ensures Match(Ways, ps, 0, t, 0).None?
  {
    forall k | 0 <= k < a
      ensures IsDigit(t[k])
    {
      assert t[k] == t[0..a][k];
    }
    forall k | a < k <= e - 2
      ensures IsDigit(t[k])
    {
      assert t[k] == t[a + 1..e - 1][k - a - 1];
    }
    assert IsDigit(t[e]) by {
      assert t[e] == t[e..e + 2][0];
    }
    FourDigitYearStuck(ps, t, a, e - a - 2);
  }

  lemma ShortNotFourDigitYear(dt: DateTime, ps: seq<Piece>)
    requires ShortDate(dt)
    requires |ps| >= 5 && ps[..5] == [Field(Month), Lit('/'), Field(Day), Lit('/'), Field(Year4)]
    ensures Parse(ShortText(dt), ps).None?
  {
    ShortTextLayout(dt);
    ShortLayoutStuck(ps, ShortText(dt), |ShowNat(dt.month)|, YearPos(dt), dt.month, dt.day,
                     dt.year % 100, dt.hour, dt.minute);
  }

  /** A short text has no dash and one colon. */
  lemma ShortSeparators(dt: DateTime)
    requires ShortDate(dt)
    ensures multiset(ShortText(dt))['-'] == 0 && multiset(ShortText(dt))[':'] == 1
  {
    ShortSeparator(dt, '-');
    ShortSeparator(dt, ':');
  }

  lemma ShortSeparator(dt: DateTime, x: char)
    requires ShortDate(dt) && (x == '-' || x == ':')
    ensures multiset(ShortText(dt))[x] == if x == ':' then 1 else 0
  {
    var mo, d := ShowNat(dt.month), ShowNat(dt.day);
    var y, h, mi := ZeroPad(dt.year % 100, 2), ZeroPad(dt.hour, 2), ZeroPad(dt.minute, 2);
    assert ShortText(dt) == mo + "/" + d + "/" + y + " " + h + ":" + mi;
    DigitsHaveNoSeparator(mo, x);
    DigitsHaveNoSeparator(d, x);
    DigitsHaveNoSeparator(y, x);
    DigitsHaveNoSeparator(h, x);
    DigitsHaveNoSeparator(mi, x);
  }

  lemma FormatDashesAndColons()
    ensures LitCount(IsoSeconds, 0, '-') == 2 && LitCount(IsoMinutes, 0, '-') == 2
    ensures LitCount(UsShortSeconds, 0, ':') == 2
  {
    assert LitCount(IsoSeconds, 5, '-') == 0;
    assert LitCount(IsoMinutes, 5, '-') == 0;
    assert LitCount(UsShortSeconds, 7, ':') == 2;
  }

  /** The ISO formats want dashes a short text does not have. */
  lemma ShortNotIso(dt: DateTime)
    requires ShortDate(dt)
    ensures Parse(ShortText(dt), IsoSeconds).None? && Parse(ShortText(dt), IsoMinutes).None?
  {
    ShortSeparators(dt);
    FormatDashesAndColons();
    MissingSeparator(ShortText(dt), IsoSeconds, '-');
    MissingSeparator(ShortText(dt), IsoMinutes, '-');
  }

  /** `%m/%d/%y %H:%M:%S` wants a second colon. */
  lemma ShortNotShortSeconds(dt: DateTime)
    requires ShortDate(dt)
    ensures Parse(ShortText(dt), UsShortSeconds).None?
  {
    ShortSeparators(dt);
    FormatDashesAndColons();
    MissingSeparator(ShortText(dt), UsShortSeconds, ':');
  }

  /** The sixth format decides a text the first five reject. */
  lemma ParseLocalSixthFormat(txt: string)
    requires Parse(txt, IsoSeconds).None? && Parse(txt, IsoMinutes).None?
    requires Parse(txt, UsSeconds).None? && Parse(txt, UsMinutes).None?
    requires Parse(txt, UsShortSeconds).None? && Parse(txt, UsShortMinutes).Some?
    ensures ParseLocal(txt) == Parse(txt, UsShortMinutes)
  {
    ParseLocalFirstFormat(txt, 5);
  }

  /** `parse_date_local`'s loop reads the export's layout back exactly:
      the five formats before `%m/%d/%y %H:%M` all reject it (the ISO ones
      want dashes, the ones with seconds a second colon, the four-digit
      year one is stuck at the year) and that one reads it. */
  lemma ParseLocalShortText(dt: DateTime)
    requires ShortDate(dt)
    ensures ParseLocal(ShortText(dt)) == Some(dt)
  {
    ShortNotIso(dt);
    ShortNotShortSeconds(dt);
    ShortNotFourDigitYear(dt, UsSeconds);
    ShortNotFourDigitYear(dt, UsMinutes);
    ShortRoundTrip(dt);
    ParseLocalSixthFormat(ShortText(dt));
  }

  /** The export's sample: "9/2/25 11:02" in a row whose offset is -4 is
      2025-09-02 15:02 UTC, whatever the configured zone. */
  lemma ParseDateLocalExample(cell: string, u: DateTime, srcTz: Zone, namedOffset: (string, DateTime) -> Offset)
    requires cell == "9/2/25 11:02" && u == DateTime(2025, 9, 2, 15, 2, 0)
    ensures ParseDateLocal(Some(cell), Some(Fixed(-4)), srcTz, namedOffset) == Parsed(cell, u)
    ensures IsoFormat(u) == "2025-09-02T15:02:00+00:00"
  {
    var local := DateTime(2025, 9, 2, 11, 2, 0);
    SampleLocal(cell, local);
    StripOfStripped(cell);
    SampleUtc(local, u, namedOffset);
    ParseDateLocalOf(cell, Some(Fixed(-4)), srcTz, namedOffset, local, u);
    SampleIso(u);
  }

  /** A non-blank cell the format loop reads, converted without overflow. */
  lemma ParseDateLocalOf(cell: string, rowTz: Option<Zone>, srcTz: Zone,
                         namedOffset: (string, DateTime) -> Offset, local: DateTime, u: DateTime)
    requires Strip(cell) != [] && ParseLocal(Strip(cell)) == Some(local)
    requires ToUtc(local, OffsetAt(RowZone(rowTz, srcTz), local, namedOffset)) == Some(u)
    ensures ParseDateLocal(Some(cell), rowTz, srcTz, namedOffset) == Parsed(Strip(cell), u)
  {
  }

  lemma SampleLocal(txt: string, local: DateTime)
    requires txt == "9/2/25 11:02" && local == DateTime(2025, 9, 2, 11, 2, 0)
    ensures ParseLocal(txt) == Some(local)
  {
    SampleText(local, txt);
    ParseLocalShortText(local);
  }

  lemma SampleText(dt: DateTime, txt: string)
    requires dt == DateTime(2025, 9, 2, 11, 2, 0) && txt == "9/2/25 11:02"
    ensures ShortText(dt) == txt
  {
    TwoDigits(25);
    TwoDigits(11);
    TwoDigits(2);
  }

  lemma SampleUtc(local: DateTime, u: DateTime, namedOffset: (string, DateTime) -> Offset)
    requires local == DateTime(2025, 9, 2, 11, 2, 0) && u == DateTime(2025, 9, 2, 15, 2, 0)
    ensures ToUtc(local, OffsetAt(Fixed(-4), local, namedOffset)) == Some(u)
  {
    assert OffsetAt(Fixed(-4), local, namedOffset) == -14400;
    assert AtSecond(local, 54120) == u;
  }

  lemma SampleIso(dt: DateTime)
    requires dt == DateTime(2025, 9, 2, 15, 2, 0)
    ensures IsoFormat(dt) == "2025-09-02T15:02:00+00:00"
  {
    SampleYear();
    SampleTwoDigits();
    IsoParts(dt, "2025", "09", "02", "15", "02", "00");
    SampleIsoText(IsoFormat(dt));
  }

  lemma SampleIsoText(s: string)
    requires s == "2025" + "-" + "09" + "-" + "02" + "T" + "15" + ":" + "02" + ":" + "00" + "+00:00"
    ensures s == "2025-09-02T15:02:00+00:00"
  {
    assert "2025" + "-" == "2025-";
    assert "2025-" + "09" == "2025-09";
    assert "2025-09" + "-" == "2025-09-";
    assert "2025-09-" + "02" == "2025-09-02";
    assert "2025-09-02" + "T" == "2025-09-02T";
    assert "2025-09-02T" + "15" == "2025-09-02T15";
    assert "2025-09-02T15" + ":" == "2025-09-02T15:";
    assert "2025-09-02T15:" + "02" == "2025-09-02T15:02";
    assert "2025-09-02T15:02" + ":" == "2025-09-02T15:02:";
    assert "2025-09-02T15:02:" + "00" == "2025-09-02T15:02:00";
    assert "2025-09-02T15:02:00" + "+00:00" == "2025-09-02T15:02:00+00:00";
  }

  /** `isoformat()` from the rendered parts. */
  lemma IsoParts(dt: DateTime, y: string, mo: string, d: string, h: string, mi: string, se: string)
    requires Valid(dt)
    requires ZeroPad(dt.year, 4) == y && ZeroPad(dt.month, 2) == mo && ZeroPad(dt.day, 2) == d
    requires ZeroPad(dt.hour, 2) == h && ZeroPad(dt.minute, 2) == mi && ZeroPad(dt.second, 2) == se
    ensures IsoFormat(dt) == y + "-" + mo + "-" + d + "T" + h + ":" + mi + ":" + se + "+00:00"
  {
  }

  lemma SampleYear()
    ensures ZeroPad(2025, 4) == "2025"
  {
    assert ZeroPad(2, 1) == "2";
    assert ZeroPad(20, 2) == "20";
    assert ZeroPad(202, 3) == "202";
  }

  lemma SampleTwoDigits()
    ensures ZeroPad(9, 2) == "09" && ZeroPad(2, 2) == "02" && ZeroPad(15, 2) == "15" && ZeroPad(0, 2) == "00"
  {
    TwoDigits(9);
    TwoDigits(2);
    TwoDigits(15);
    TwoDigits(0);
  }
}
