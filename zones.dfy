/** Time-zone resolution (main.py:44-72): the configured default zone
    (`resolve_tz`), the per-row hour offset (`tz_from_row_offset`) and the
    label `str()` gives a fixed-offset zone (main.py:225).  Both parsers
    degrade instead of raising.  Named zones come from the IANA database
    through `ZoneInfo`; the model sees them only through two parameters:
    which names the database knows, and the offset a named zone has at a
    given local time. */
module Zones {
  import opened Wrappers
  import opened Text
  import opened Calendar

  /** Whole-hour offsets `timezone(timedelta(hours=h))` accepts: it raises
      ValueError unless the offset is strictly within one day. */
  type Hours = h: int | -24 < h < 24

  datatype Zone = Fixed(hours: Hours) | Named(name: string)

  /** `timezone.utc`, the zone every failure degrades to. */
  const Utc: Zone := Fixed(0)

  predicate HasSign(s: string) {
    '+' in s || '-' in s
  }

  /** The shape that takes the fixed-offset branch of `resolve_tz`:
      upper-cased it starts with "UTC", and it contains a sign. */
  predicate UtcShaped(s: string) {
    UpperStartsWith(s, "UTC") && HasSign(s)
  }

  /** `resolve_tz`: a `UTC±H` string gives that fixed offset when the rest
      after deleting every "UTC" is an int of fewer than 24 hours, and UTC
      otherwise; any other string names a zone if the database knows it,
      and gives UTC otherwise. */
  function ResolveTz(tzStr: string, zoneKnown: string -> bool): (z: Zone)
    ensures z.Named? ==> zoneKnown(z.name) && !UtcShaped(z.name) && IsStripped(z.name)
    ensures z != Utc && z.Fixed? ==> UtcShaped(Strip(tzStr))
  {
    ResolveStripped(Strip(tzStr), zoneKnown)
  }

  /** `resolve_tz` after the `strip()`. */
  function ResolveStripped(s: string, zoneKnown: string -> bool): (z: Zone)
    ensures z.Named? ==> z.name == s && zoneKnown(s) && !UtcShaped(s)
    ensures z != Utc && z.Fixed? ==> UtcShaped(s)
  {
    if UtcShaped(s) then FixedOrUtc(PyInt(RemoveAll(s, "UTC")))
    else if zoneKnown(s) then Named(s)
    else Utc
  }

  /** `timezone(timedelta(hours=h))` inside `try`: the offset when `int()`
      succeeded and the offset is accepted, UTC otherwise. */
  function FixedOrUtc(h: Option<int>): Zone {
    match h
    case Some(h) => if -24 < h < 24 then Fixed(h) else Utc
    case None => Utc
  }

  /** How an offset is written after "UTC" in a configuration string:
      `-7`, `+5`, `+0`. */
  function SignedShow(h: int): (r: string)
    ensures |r| >= 2 && (r[0] == '+' || r[0] == '-') && HasSign(r)
  {
    if h < 0 then Show(h) else "+" + Show(h)
  }

  /** Reading the written offset back with `int()`. */
  lemma IntLiteralSignedShow(h: int)
    ensures IntLiteral(SignedShow(h)) == Some(h)
  {
    if h < 0 {
      IntLiteralShow(h);
    } else {
      IntLiteralPlusShow(h);
    }
  }

  lemma SignedShowShape(h: int)
    ensures 'U' !in SignedShow(h) && IsStripped(SignedShow(h))
    ensures forall i :: 1 <= i < |SignedShow(h)| ==> IsDigit(SignedShow(h)[i])
  {
    var t := SignedShow(h);
    var d := if h < 0 then ShowNat(-h) else ShowNat(h);
    assert t[1..] == d;
    assert forall i :: 1 <= i < |t| ==> t[i] == d[i - 1];
  }

  /** Surrounding whitespace never matters to `resolve_tz`. */
  lemma ResolveTzPadded(ws1: string, core: string, ws2: string, zoneKnown: string -> bool)
    requires AllSpace(ws1) && AllSpace(ws2) && IsStripped(core)
    ensures ResolveTz(ws1 + core + ws2, zoneKnown) == ResolveTz(core, zoneKnown)
  {
    StripPadded(ws1, core, ws2);
    StripOfStripped(core);
  }

  lemma ResolveTzShaped(s: string, zoneKnown: string -> bool)
    requires UtcShaped(Strip(s))
    ensures ResolveTz(s, zoneKnown) == FixedOrUtc(PyInt(RemoveAll(Strip(s), "UTC")))
  {
  }

  /** Deleting "UTC" from `"UTC" + tail` leaves the tail when the tail has
      no "U". */
  lemma RemoveUtcTail(tail: string)
    requires 'U' !in tail && IsStripped(tail)
    ensures PyInt(RemoveAll("UTC" + tail, "UTC")) == IntLiteral(tail)
  {
    RemoveAllPrefix("UTC", tail);
    RemoveAllAbsent(tail, "UTC");
    PyIntStripped(tail);
  }

  /** `"UTC" + tail`, already stripped, with a signed tail free of "U": the
      fixed-offset branch reads the tail with `int()`. */
  lemma ResolveTzUtcTail(core: string, tail: string, zoneKnown: string -> bool)
    requires core == "UTC" + tail && IsStripped(core) && UtcShaped(core)
    requires 'U' !in tail && IsStripped(tail)
    ensures ResolveTz(core, zoneKnown) == FixedOrUtc(IntLiteral(tail))
  {
    StripOfStripped(core);
    ResolveTzShaped(core, zoneKnown);
    RemoveUtcTail(tail);
  }

  lemma UtcTailShape(tail: string)
    requires HasSign(tail) && IsStripped(tail)
    ensures UtcShaped("UTC" + tail) && IsStripped("UTC" + tail)
  {
    UtcShapedOf("UTC", tail);
    var core := "UTC" + tail;
    assert core[|core| - 1] == tail[|tail| - 1];
  }

  /** `p + t` has the fixed-offset shape when `p` upper-cases to "UTC" and
      `t` carries a sign. */
  lemma UtcShapedOf(p: string, t: string)
    requires Upper(p) == "UTC" && HasSign(t)
    ensures UtcShaped(p + t)
  {
    UpperStartsWithPrefix(p, t, "UTC");
    if '+' in t {
      var i :| 0 <= i < |t| && t[i] == '+';
      assert (p + t)[|p| + i] == '+';
    } else {
      var i :| 0 <= i < |t| && t[i] == '-';
      assert (p + t)[|p| + i] == '-';
    }
  }

  /** `resolve_tz` on `UTC±H` (padding allowed) gives an offset of exactly
      H hours whenever `timezone` accepts it, and UTC when it does not. */
  lemma ResolveTzFixed(ws1: string, h: int, ws2: string, zoneKnown: string -> bool)
    requires AllSpace(ws1) && AllSpace(ws2)
    ensures ResolveTz(ws1 + "UTC" + SignedShow(h) + ws2, zoneKnown) ==
      if -24 < h < 24 then Fixed(h) else Utc
  {
    var t := SignedShow(h);
    var core := "UTC" + t;
    SignedShowShape(h);
    UtcTailShape(t);
    assert ws1 + "UTC" + t + ws2 == ws1 + core + ws2;
    ResolveTzPadded(ws1, core, ws2, zoneKnown);
    UnpaddedFixed(h, zoneKnown);
  }

  lemma UnpaddedFixed(h: int, zoneKnown: string -> bool)
    ensures ResolveTz("UTC" + SignedShow(h), zoneKnown) == if -24 < h < 24 then Fixed(h) else Utc
  {
    var t := SignedShow(h);
    SignedShowShape(h);
    UtcTailShape(t);
    ResolveTzUtcTail("UTC" + t, t, zoneKnown);
    IntLiteralSignedShow(h);
  }

  /** The default configuration, "UTC-7", is seven hours behind UTC. */
  lemma ResolveTzDefault(zoneKnown: string -> bool)
    ensures ResolveTz("UTC-7", zoneKnown) == Fixed(-7)
  {
    assert "UTC-7" == "UTC" + SignedShow(-7);
    UnpaddedFixed(-7, zoneKnown);
  }

  /** Lower-case "utc-7" passes the case-insensitive test but keeps its
      lower-case letters after `replace("UTC", "")`, so `int()` fails and
      the zone silently becomes UTC. */
  lemma ResolveTzLowercase(h: int, zoneKnown: string -> bool)
    ensures ResolveTz("utc" + SignedShow(h), zoneKnown) == Utc
  {
    var t := SignedShow(h);
    SignedShowShape(h);
    LowercaseShape(t);
    LowercaseFails("utc" + t, zoneKnown);
  }

  lemma LowercaseShape(t: string)
    requires HasSign(t) && IsStripped(t) && 'U' !in t
    ensures UtcShaped("utc" + t) && IsStripped("utc" + t) && 'U' !in "utc" + t
  {
    var s := "utc" + t;
    assert s[|s| - 1] == t[|t| - 1];
    assert Upper("utc") == "UTC";
    UtcShapedOf("utc", t);
  }

  lemma LowercaseFails(s: string, zoneKnown: string -> bool)
    requires UtcShaped(s) && IsStripped(s) && 'U' !in s && s[0] == 'u'
    ensures ResolveTz(s, zoneKnown) == Utc
  {
    StripOfStripped(s);
    ResolveTzShaped(s, zoneKnown);
    LowercaseNotInt(s);
  }

  lemma LowercaseNotInt(s: string)
    requires IsStripped(s) && 'U' !in s && |s| > 0 && s[0] == 'u'
    ensures PyInt(RemoveAll(s, "UTC")) == None
  {
    RemoveAllAbsent(s, "UTC");
    PyIntStripped(s);
    IntLiteralBadStart(s);
  }

  /** "UTC-7:30" and the like: the minutes make `int()` fail, so the zone
      becomes UTC, not a half-hour offset. */
  lemma ResolveTzMinutes(h: int, m: nat, zoneKnown: string -> bool)
    requires m < 60
    ensures ResolveTz("UTC" + SignedShow(h) + ":" + ZeroPad(m, 2), zoneKnown) == Utc
  {
    var t := SignedShow(h);
    var tail := t + ":" + ZeroPad(m, 2);
    SignedShowShape(h);
    assert "UTC" + t + ":" + ZeroPad(m, 2) == "UTC" + tail;
    assert tail[0] == t[0] && tail[|t|] == ':' && HasSign(tail);
    assert tail[|tail| - 1] == ZeroPad(m, 2)[1];
    assert 'U' !in tail;
    UtcTailShape(tail);
    ResolveTzUtcTail("UTC" + tail, tail, zoneKnown);
    IntLiteralBadChar(tail, |t|);
  }

  // ----- per-row offsets -----

  /** `tz_from_row_offset`: `int(str(cell).strip())` hours when that is an
      int `timezone` accepts, else `None`.  A missing cell becomes the text
      "None", which is not an int. */
  function TzFromRowOffset(cell: Option<string>): (r: Option<Zone>)
    ensures r.Some? ==> r.value.Fixed? && cell.Some? && PyInt(cell.value) == Some(r.value.hours)
    ensures r.None? <==> cell.None? || PyInt(cell.value).None? || !(-24 < PyInt(cell.value).value < 24)
  {
    var text := if cell.None? then "None" else cell.value;
    PyIntOfStripped(text);
    NoneIsNotInt();
    match PyInt(Strip(text))
    case Some(h) => if -24 < h < 24 then Some(Fixed(h)) else None
    case None => None
  }

  /** Python's `int()` strips on its own, so the extra `strip()` changes
      nothing. */
  lemma PyIntOfStripped(s: string)
    ensures PyInt(Strip(s)) == PyInt(s)
  {
    StripIdempotent(s);
  }

  lemma NoneIsNotInt()
    ensures PyInt("None") == None
  {
    NotIntAtStart("None");
  }

  lemma NotIntAtStart(t: string)
    requires IsStripped(t) && |t| > 0 && !IsDigit(t[0]) && t[0] != '+' && t[0] != '-'
    ensures PyInt(t) == None
  {
    PyIntStripped(t);
    IntLiteralBadStart(t);
  }

  /** A signed integer cell, padded or not, gives exactly that many hours. */
  lemma TzFromRowOffsetShow(ws1: string, h: Hours, ws2: string)
    requires AllSpace(ws1) && AllSpace(ws2)
    ensures TzFromRowOffset(Some(ws1 + Show(h) + ws2)) == Some(Fixed(h))
    ensures TzFromRowOffset(Some(ws1 + SignedShow(h) + ws2)) == Some(Fixed(h))
  {
    PyIntShow(ws1, h, ws2);
    SignedShowShape(h);
    PyIntPadded(ws1, SignedShow(h), ws2);
    IntLiteralSignedShow(h);
  }

  // ----- labels and offsets -----

  /** `str(timezone(timedelta(hours=h)))`: "UTC" for zero, otherwise
      "UTC", the sign, two-digit hours and ":00". */
  function FixedLabel(h: Hours): (r: string)
    ensures h == 0 <==> r == "UTC"
  {
    if h == 0 then "UTC"
    else "UTC" + (if h < 0 then "-" else "+") + ZeroPad(if h < 0 then -h else h, 2) + ":00"
  }

  /** The label `SourceTimezone` writes for the export's sample offset. */
  lemma FixedLabelExample(h: Hours, s: string)
    requires h == -4 && s == "UTC-04:00"
    ensures FixedLabel(h) == s
  {
    assert ZeroPad(0, 1) == "0";
    assert ZeroPad(4, 2) == "04";
  }

  /** Different offsets get different labels. */
  lemma FixedLabelInjective(h: Hours, k: Hours)
    requires FixedLabel(h) == FixedLabel(k)
    ensures h == k
  {
    if h != 0 && k != 0 {
      var a, b := FixedLabel(h), FixedLabel(k);
      assert a[3] == b[3];
      assert a[4..6] == b[4..6];
      ZeroPadInjective(if h < 0 then -h else h, if k < 0 then -k else k, 2);
    }
  }

  /** The label is not something `resolve_tz` reads back: for any nonzero
      offset the ":00" makes `int()` fail, so the zone becomes UTC. */
  lemma ResolveTzOfLabel(h: Hours, zoneKnown: string -> bool)
    requires h != 0
    ensures ResolveTz(FixedLabel(h), zoneKnown) == Utc
  {
    var a := if h < 0 then -h else h;
    var sign := if h < 0 then "-" else "+";
    var tail := sign + ZeroPad(a, 2) + ":00";
    assert FixedLabel(h) == "UTC" + tail;
    assert tail[0] == sign[0] && tail[3] == ':' && HasSign(tail);
    assert 'U' !in tail && tail[|tail| - 1] == '0';
    UtcTailShape(tail);
    ResolveTzUtcTail("UTC" + tail, tail, zoneKnown);
    IntLiteralBadChar(tail, 3);
  }

  /** The offset of a zone at a local time, in seconds east of UTC: whole
      hours for a fixed zone, and whatever the database says for a named
      one (its rules for daylight saving, gaps and folds are not part of
      this model). */
  function OffsetAt(z: Zone, local: DateTime, namedOffset: (string, DateTime) -> Offset): (r: Offset)
    ensures z.Fixed? ==> r == z.hours * 3600 && r % 3600 == 0
  {
    match z
    case Fixed(h) => h * 3600
    case Named(n) => namedOffset(n, local)
  }
}
