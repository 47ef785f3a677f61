/** Per-row record construction and fingerprint (main.py:192-243): the
    canonical record a good row becomes, its `DedupKey` (the cleaned
    identity fields and the UTC time cut to the minute, joined with `|`)
    and its `RowHash`. */
module Records {
  import opened Wrappers
  import opened Text
  import opened Headers
  import opened Fields
  import opened Calendar
  import opened Zones
  import opened LocalDates

  /** The environment settings the loader reads once at start-up
      (main.py:14-22): the object-name prefix it handles, the configured
      zone string, the merge tolerance and where the NDJSON file goes. */
  datatype Config = Config(bucketPrefix: string, sourceTz: string, timeTolSec: int, tmpPrefix: string)

  /** What the loader takes from libraries this model does not look into:
      which zone names the IANA database knows and their offsets, SHA-256
      as a hex digest, and `json.dumps` of a row and of a record. */
  datatype Env = Env(zoneKnown: string -> bool, namedOffset: (string, DateTime) -> Offset,
                     sha256: string -> string, dumpRow: Row -> string, dumpRecord: Record -> string)

  /** `SRC_TZ_OBJ`: the configured zone, resolved once. */
  function SourceZone(cfg: Config, env: Env): Zone {
    ResolveTz(cfg.sourceTz, env.zoneKnown)
  }

  /** The `mapped` dict with the three keys added after it is built. */
  datatype Record = Record(
    date: string,
    firstName: Option<string>, lastName: Option<string>, address: Option<string>,
    callNotes: Option<string>, talkTime: Option<string>, siteName: Option<string>,
    phone: Option<string>, email: Option<string>, leadId: Option<string>,
    listDescription: Option<string>, listId: Option<string>, disposition: Option<string>,
    termReason: Option<string>, subscriberId: Option<string>, source: Option<string>,
    leadType: Option<string>,
    sourceLocalTime: string, sourceTimezone: string, sourceFile: string,
    dedupKey: string, rowHash: string, raw: string)

  /** A cleaned text field: absent, or non-empty with no surrounding
      whitespace. */
  predicate Clean(v: Option<string>) {
    v.None? || (v.value != [] && IsStripped(v.value))
  }

  /** The fields the loader never fills. */
  predicate Unfilled(r: Record) {
    r.siteName.None? && r.termReason.None? && r.subscriberId.None? && r.source.None? && r.leadType.None?
  }

  /** `mapped.get(k) or ""`: an absent field joins as the empty string. */
  function OrEmpty(v: Option<string>): string {
    v.GetOr("")
  }

  /** `"|".join(key_parts)`: phone, lead id, list id, disposition and the
      UTC time as `%Y-%m-%d %H:%M`. */
  function DedupKey(phone: Option<string>, leadId: Option<string>, listId: Option<string>,
                    disposition: Option<string>, utc: DateTime): (k: string)
    requires Valid(utc)
    ensures |k| >= 20 && k[|k| - 16..] == MinuteKey(utc) && k[|k| - 17] == '|'
  {
    OrEmpty(phone) + "|" + OrEmpty(leadId) + "|" + OrEmpty(listId) + "|" + OrEmpty(disposition) + "|"
      + MinuteKey(utc)
  }

  /** `SourceTimezone`: the row offset's own label when the row has one,
      else the configured string as written (not the zone it resolved to). */
  function SourceTimezone(rowTz: Option<Zone>, sourceTz: string): (r: string)
    ensures rowTz.None? ==> r == sourceTz
    ensures rowTz.Some? && rowTz.value.Fixed? ==> r == FixedLabel(rowTz.value.hours)
  {
    match rowTz
    case Some(Fixed(h)) => FixedLabel(h)
    case Some(Named(n)) => n
    case None => sourceTz
  }

  /** The cell of the first candidate column that has one. */
  function Cell(row: Row, hm: HeaderMap, cands: seq<string>): Option<string> {
    GetVal(row, hm, cands)
  }

  /** The `mapped` dict literal (main.py:205-227), before the key, the
      hash and the raw row are added. */
  function Mapped(row: Row, hm: HeaderMap, cfg: Config, sourceFile: string,
                  rowTz: Option<Zone>, srcTxt: string, utc: DateTime): (r: Record)
    requires Valid(utc)
    ensures Unfilled(r)
    ensures Clean(r.firstName) && Clean(r.lastName) && Clean(r.address) && Clean(r.callNotes)
    ensures Clean(r.talkTime) && Clean(r.email) && Clean(r.leadId) && Clean(r.listDescription)
    ensures Clean(r.listId) && Clean(r.disposition)
    ensures r.phone.None? || (r.phone.value != [] && AllDigits(r.phone.value))
    ensures r.date == IsoFormat(utc) && MinuteKey(utc) == r.date[..10] + " " + r.date[11..16]
    ensures r.phone == NormalizePhone(Cell(row, hm, ["phone_number_dialed", "phone_number"]))
    ensures r.leadId == LeadIdField(row, hm)
    ensures r.listId == SafeStr(Cell(row, hm, ["list_id"])) && r.disposition == SafeStr(Cell(row, hm, ["status"]))
    ensures r.firstName == SafeStr(Cell(row, hm, ["first_name"])) && r.lastName == SafeStr(Cell(row, hm, ["last_name"]))
    ensures r.address == SafeStr(Cell(row, hm, ["address1"])) && r.callNotes == SafeStr(Cell(row, hm, ["call_notes"]))
    ensures r.talkTime == SafeStr(Cell(row, hm, ["campaign_id"])) && r.email == SafeStr(Cell(row, hm, ["email"]))
    ensures r.listDescription == SafeStr(Cell(row, hm, ["list_description"]))
    ensures r.sourceLocalTime == srcTxt && r.sourceFile == sourceFile
    ensures r.sourceTimezone == SourceTimezone(rowTz, cfg.sourceTz)
  {
    MinuteKeyOfIso(utc);
    Record(
      IsoFormat(utc),
      SafeStr(Cell(row, hm, ["first_name"])), SafeStr(Cell(row, hm, ["last_name"])),
      SafeStr(Cell(row, hm, ["address1"])), SafeStr(Cell(row, hm, ["call_notes"])),
      SafeStr(Cell(row, hm, ["campaign_id"])), None,
      NormalizePhone(Cell(row, hm, ["phone_number_dialed", "phone_number"])),
      SafeStr(Cell(row, hm, ["email"])), LeadIdField(row, hm),
      SafeStr(Cell(row, hm, ["list_description"])), SafeStr(Cell(row, hm, ["list_id"])),
      SafeStr(Cell(row, hm, ["status"])),
      None, None, None, None,
      srcTxt, SourceTimezone(rowTz, cfg.sourceTz), sourceFile,
      "", "", "")
  }

  /** The three keys set after the dict is built (main.py:230-240). */
  function Fingerprinted(mapped: Record, utc: DateTime, env: Env, row: Row): (r: Record)
    requires Valid(utc)
    ensures r == mapped.(dedupKey := r.dedupKey, rowHash := r.rowHash, raw := r.raw)
    ensures r.dedupKey == DedupKey(mapped.phone, mapped.leadId, mapped.listId, mapped.disposition, utc)
    ensures r.rowHash == env.sha256(r.dedupKey) && r.raw == env.dumpRow(row)
  {
    var dedup := DedupKey(mapped.phone, mapped.leadId, mapped.listId, mapped.disposition, utc);
    mapped.(dedupKey := dedup, rowHash := env.sha256(dedup), raw := env.dumpRow(row))
  }

  /** The record of a row whose date parsed to `srcTxt` and `utc`
      (main.py:202-240).  Its key ends in its own `Date` cut to the minute. */
  function BuildRecord(row: Row, hm: HeaderMap, cfg: Config, env: Env, sourceFile: string,
                       rowTz: Option<Zone>, srcTxt: string, utc: DateTime): (r: Record)
    requires Valid(utc)
    ensures Unfilled(r) && r.sourceFile == sourceFile && r.sourceLocalTime == srcTxt
    ensures r.date == IsoFormat(utc)
    ensures r.phone == NormalizePhone(Cell(row, hm, ["phone_number_dialed", "phone_number"]))
    ensures r.leadId == LeadIdField(row, hm)
    ensures r.listId == SafeStr(Cell(row, hm, ["list_id"])) && r.disposition == SafeStr(Cell(row, hm, ["status"]))
    ensures r.sourceTimezone == SourceTimezone(rowTz, cfg.sourceTz)
    ensures r.dedupKey == DedupKey(r.phone, r.leadId, r.listId, r.disposition, utc)
    ensures r.dedupKey[|r.dedupKey| - 16..] == r.date[..10] + " " + r.date[11..16]
    ensures r.rowHash == env.sha256(r.dedupKey)
  {
    Fingerprinted(Mapped(row, hm, cfg, sourceFile, rowTz, srcTxt, utc), utc, env, row)
  }

  /** The identity part of a record's key. */
  predicate SameIdentity(a: Record, b: Record) {
    a.phone == b.phone && a.leadId == b.leadId && a.listId == b.listId && a.disposition == b.disposition
  }

  // ----- the key -----

  /** Same identity fields, same key exactly when the two times fall in
      the same UTC minute. */
  lemma DedupKeySameMinute(phone: Option<string>, leadId: Option<string>, listId: Option<string>,
                           disposition: Option<string>, a: DateTime, b: DateTime)
    requires Valid(a) && Valid(b)
    ensures DedupKey(phone, leadId, listId, disposition, a) == DedupKey(phone, leadId, listId, disposition, b)
        <==> Instant(a) / 60 == Instant(b) / 60
  {
    var ka, kb := DedupKey(phone, leadId, listId, disposition, a), DedupKey(phone, leadId, listId, disposition, b);
    var prefix := OrEmpty(phone) + "|" + OrEmpty(leadId) + "|" + OrEmpty(listId) + "|" + OrEmpty(disposition) + "|";
    assert ka == prefix + MinuteKey(a) && kb == prefix + MinuteKey(b);
    if ka == kb {
      assert MinuteKey(a) == ka[|prefix|..] == kb[|prefix|..] == MinuteKey(b);
    }
    MinuteKeySameMinute(a, b);
  }

  /** Two good rows with the same identity fields whose times fall in the
      same UTC minute get the same key and the same hash, even when they
      come from different files with different header orders. */
  lemma SameMinuteSameFingerprint(r1: Record, u1: DateTime, row1: Row, tz1: Option<Zone>, txt1: string,
                                  hm1: HeaderMap, cfg1: Config, file1: string,
                                  r2: Record, u2: DateTime, row2: Row, tz2: Option<Zone>, txt2: string,
                                  hm2: HeaderMap, cfg2: Config, file2: string, env: Env)
    requires Valid(u1) && Valid(u2)
    requires r1 == BuildRecord(row1, hm1, cfg1, env, file1, tz1, txt1, u1)
    requires r2 == BuildRecord(row2, hm2, cfg2, env, file2, tz2, txt2, u2)
    requires SameIdentity(r1, r2) && Instant(u1) / 60 == Instant(u2) / 60
    ensures r1.dedupKey == r2.dedupKey && r1.rowHash == r2.rowHash
  {
    DedupKeySameMinute(r1.phone, r1.leadId, r1.listId, r1.disposition, u1, u2);
  }

  /** `RowHash` depends on nothing but `DedupKey`. */
  lemma HashFollowsKey(r1: Record, u1: DateTime, row1: Row, tz1: Option<Zone>, txt1: string, hm1: HeaderMap,
                       r2: Record, u2: DateTime, row2: Row, tz2: Option<Zone>, txt2: string, hm2: HeaderMap,
                       cfg: Config, env: Env, file1: string, file2: string)
    requires Valid(u1) && Valid(u2)
    requires r1 == BuildRecord(row1, hm1, cfg, env, file1, tz1, txt1, u1)
    requires r2 == BuildRecord(row2, hm2, cfg, env, file2, tz2, txt2, u2)
    requires r1.dedupKey == r2.dedupKey
    ensures r1.rowHash == r2.rowHash
  {
  }

  /** Where the first `|` of a text is (its length when there is none). */
  function FirstBar(x: string): (n: nat)
    ensures n <= |x| && forall i :: 0 <= i < n ==> x[i] != '|'
  {
    if x == [] || x[0] == '|' then 0 else 1 + FirstBar(x[1..])
  }

  lemma {:induction false} FirstBarAfter(a: string, r: string)
    requires '|' !in a
    ensures FirstBar(a + "|" + r) == |a|
  {
    if a != [] {
      assert (a + "|" + r)[1..] == a[1..] + "|" + r;
      FirstBarAfter(a[1..], r);
    }
  }

  /** Cutting a `|` off both sides: text before the first `|` is the same
      when neither part holds one. */
  lemma SplitAtBar(a: string, r: string, b: string, s: string)
    requires '|' !in a && '|' !in b && a + "|" + r == b + "|" + s
    ensures a == b && r == s
  {
    var x := a + "|" + r;
    FirstBarAfter(a, r);
    FirstBarAfter(b, s);
    assert a == x[..|a|] == b;
    assert r == x[|a| + 1..] == s;
  }

  /** The five parts of a key, nested from the right. */
  lemma KeyNesting(a: string, b: string, c: string, d: string, m: string)
    ensures a + "|" + b + "|" + c + "|" + d + "|" + m == a + "|" + (b + "|" + (c + "|" + (d + "|" + m)))
  {
  }

  /** Parts free of `|` are determined by their join. */
  lemma JoinDetermines(a1: string, b1: string, c1: string, d1: string, m1: string,
                       a2: string, b2: string, c2: string, d2: string, m2: string)
    requires '|' !in a1 && '|' !in b1 && '|' !in c1 && '|' !in d1
    requires '|' !in a2 && '|' !in b2 && '|' !in c2 && '|' !in d2
    requires a1 + "|" + (b1 + "|" + (c1 + "|" + (d1 + "|" + m1)))
          == a2 + "|" + (b2 + "|" + (c2 + "|" + (d2 + "|" + m2)))
    ensures a1 == a2 && b1 == b2 && c1 == c2 && d1 == d2 && m1 == m2
  {
    SplitAtBar(a1, b1 + "|" + (c1 + "|" + (d1 + "|" + m1)), a2, b2 + "|" + (c2 + "|" + (d2 + "|" + m2)));
    SplitAtBar(b1, c1 + "|" + (d1 + "|" + m1), b2, c2 + "|" + (d2 + "|" + m2));
    SplitAtBar(c1, d1 + "|" + m1, c2, d2 + "|" + m2);
    SplitAtBar(d1, m1, d2, m2);
  }

  /** When no identity field holds a `|`, the key determines the fields and
      the minute. */
  lemma DedupKeyDetermines(p1: Option<string>, l1: Option<string>, i1: Option<string>, d1: Option<string>, u1: DateTime,
                           p2: Option<string>, l2: Option<string>, i2: Option<string>, d2: Option<string>, u2: DateTime)
    requires Valid(u1) && Valid(u2)
    requires '|' !in OrEmpty(p1) && '|' !in OrEmpty(l1) && '|' !in OrEmpty(i1) && '|' !in OrEmpty(d1)
    requires '|' !in OrEmpty(p2) && '|' !in OrEmpty(l2) && '|' !in OrEmpty(i2) && '|' !in OrEmpty(d2)
    requires DedupKey(p1, l1, i1, d1, u1) == DedupKey(p2, l2, i2, d2, u2)
    ensures OrEmpty(p1) == OrEmpty(p2) && OrEmpty(l1) == OrEmpty(l2)
    ensures OrEmpty(i1) == OrEmpty(i2) && OrEmpty(d1) == OrEmpty(d2)
    ensures MinuteKey(u1) == MinuteKey(u2)
  {
    KeyNesting(OrEmpty(p1), OrEmpty(l1), OrEmpty(i1), OrEmpty(d1), MinuteKey(u1));
    KeyNesting(OrEmpty(p2), OrEmpty(l2), OrEmpty(i2), OrEmpty(d2), MinuteKey(u2));
    JoinDetermines(OrEmpty(p1), OrEmpty(l1), OrEmpty(i1), OrEmpty(d1), MinuteKey(u1),
                   OrEmpty(p2), OrEmpty(l2), OrEmpty(i2), OrEmpty(d2), MinuteKey(u2));
  }

  /** Fields are joined without escaping, so a `|` inside one lets two
      different rows share a key: lead id "a|b" with list "c", and lead
      id "a" with list "b|c". */
  lemma DedupKeyBarCollision(phone: Option<string>, disposition: Option<string>, u: DateTime)
    requires Valid(u)
    ensures DedupKey(phone, Some("a|b"), Some("c"), disposition, u)
         == DedupKey(phone, Some("a"), Some("b|c"), disposition, u)
  {
    assert "a|b" + "|" + "c" == "a" + "|" + "b|c";
  }

  /** An absent field and an empty one join alike: the key cannot tell a
      row with no list id from one whose list id cleaned to nothing, and
      `None` is the only way a cleaned field is empty. */
  lemma AbsentJoinsEmpty(v: Option<string>)
    requires Clean(v)
    ensures OrEmpty(v) == [] <==> v.None?
  {
  }

  /** A normalised phone is digits only, so it never holds a `|` and
      never shifts the fields after it in the key. */
  lemma PhoneHasNoBar(v: Option<string>)
    requires v.None? || AllDigits(v.value)
    ensures '|' !in OrEmpty(v)
  {
    if v.Some? {
      assert forall i :: 0 <= i < |v.value| ==> v.value[i] != '|';
    }
  }

  // ----- one row -----

  /** What the loop does with one row: count it bad, write its record, or
      stop the run with the OverflowError `astimezone` raised. */
  datatype RowOutcome = Bad | Good(record: Record) | Abort

  /** The per-row zone (main.py:192). */
  function RowTz(row: Row, hm: HeaderMap): Option<Zone> {
    TzFromRowOffset(GetVal(row, hm, ["gmt_offset_now"]))
  }

  /** The row's date (main.py:193). */
  function RowDate(row: Row, hm: HeaderMap, cfg: Config, env: Env): DateResult {
    ParseDateLocal(GetVal(row, hm, ["call_date"]), RowTz(row, hm), SourceZone(cfg, env), env.namedOffset)
  }

  /** One pass of the loop body (main.py:190-243). */
  function ProcessRow(row: Row, hm: HeaderMap, cfg: Config, env: Env, sourceFile: string): (r: RowOutcome)
    ensures r.Bad? <==> RowDate(row, hm, cfg, env).NoDate?
    ensures r.Abort? <==> RowDate(row, hm, cfg, env).Overflow?
    ensures r.Good? ==>
      && var cell := GetVal(row, hm, ["call_date"]);
         cell.Some? && r.record.sourceLocalTime == Strip(cell.value)
         && ParseLocal(Strip(cell.value)).Some?
         && Unfilled(r.record) && r.record.sourceFile == sourceFile
    ensures r.Good? ==>
      && RowDate(row, hm, cfg, env).Parsed?
      && r.record == BuildRecord(row, hm, cfg, env, sourceFile, RowTz(row, hm), r.record.sourceLocalTime,
                                 RowDate(row, hm, cfg, env).utc)
  {
    match RowDate(row, hm, cfg, env)
    case NoDate => Bad
    case Overflow => Abort
    case Parsed(txt, utc) => Good(BuildRecord(row, hm, cfg, env, sourceFile, RowTz(row, hm), txt, utc))
  }

  // ----- the export's sample row -----

  /** A row of the export as its header comment shows it: dialed number
      "555-123-4567", lead id "L1", list "A", status "SALE", called at
      "9/2/25 11:02" with offset "-4".  It becomes a record dated
      2025-09-02 15:02 UTC, labelled with the row's own zone, whose key
      joins the cleaned fields with that minute; the configured zone plays
      no part. */
  lemma SampleRowRecord(row: Row, hm: HeaderMap, cfg: Config, env: Env, sourceFile: string)
    requires GetVal(row, hm, ["call_date"]) == Some("9/2/25 11:02")
    requires GetVal(row, hm, ["gmt_offset_now"]) == Some("-4")
    requires GetVal(row, hm, ["phone_number_dialed", "phone_number"]) == Some("555-123-4567")
    requires GetVal(row, hm, ["lead_id"]) == Some("L1")
    requires GetVal(row, hm, ["list_id"]) == Some("A") && GetVal(row, hm, ["status"]) == Some("SALE")
    ensures ProcessRow(row, hm, cfg, env, sourceFile).Good?
    ensures var r := ProcessRow(row, hm, cfg, env, sourceFile).record;
      && r.dedupKey == "5551234567|L1|A|SALE|2025-09-02 15:02" && r.rowHash == env.sha256(r.dedupKey)
      && r.date == "2025-09-02T15:02:00+00:00" && r.sourceLocalTime == "9/2/25 11:02"
      && r.sourceTimezone == "UTC-04:00"
  {
    var u := SampleRowDate(row, hm, cfg, env);
    ProcessRowParsed(row, hm, cfg, env, sourceFile, "9/2/25 11:02", u);
    var r := ProcessRow(row, hm, cfg, env, sourceFile).record;
    SampleRecord(row, hm, cfg, env, sourceFile, u, r);
  }

  /** A row whose date parsed becomes the record built from that date. */
  lemma ProcessRowParsed(row: Row, hm: HeaderMap, cfg: Config, env: Env, sourceFile: string, txt: string, u: DateTime)
    requires RowDate(row, hm, cfg, env) == Parsed(txt, u)
    ensures ProcessRow(row, hm, cfg, env, sourceFile) == Good(BuildRecord(row, hm, cfg, env, sourceFile, RowTz(row, hm), txt, u))
  {
  }

  /** The sample's zone and date. */
  lemma SampleRowDate(row: Row, hm: HeaderMap, cfg: Config, env: Env) returns (u: DateTime)
    requires GetVal(row, hm, ["call_date"]) == Some("9/2/25 11:02")
    requires GetVal(row, hm, ["gmt_offset_now"]) == Some("-4")
    ensures Valid(u) && IsoFormat(u) == "2025-09-02T15:02:00+00:00"
    ensures RowTz(row, hm) == Some(Fixed(-4)) && RowDate(row, hm, cfg, env) == Parsed("9/2/25 11:02", u)
  {
    u := DateTime(2025, 9, 2, 15, 2, 0);
    SampleRowZone(row, hm, GetVal(row, hm, ["gmt_offset_now"]).value);
    ParseDateLocalExample(GetVal(row, hm, ["call_date"]).value, u, SourceZone(cfg, env), env.namedOffset);
  }

  /** The fields of the sample's record. */
  lemma SampleRecord(row: Row, hm: HeaderMap, cfg: Config, env: Env, sourceFile: string, u: DateTime, r: Record)
    requires Valid(u) && IsoFormat(u) == "2025-09-02T15:02:00+00:00"
    requires GetVal(row, hm, ["phone_number_dialed", "phone_number"]) == Some("555-123-4567")
    requires GetVal(row, hm, ["lead_id"]) == Some("L1")
    requires GetVal(row, hm, ["list_id"]) == Some("A") && GetVal(row, hm, ["status"]) == Some("SALE")
    requires r == BuildRecord(row, hm, cfg, env, sourceFile, Some(Fixed(-4)), "9/2/25 11:02", u)
    ensures r.dedupKey == "5551234567|L1|A|SALE|2025-09-02 15:02" && r.rowHash == env.sha256(r.dedupKey)
    ensures r.date == "2025-09-02T15:02:00+00:00" && r.sourceLocalTime == "9/2/25 11:02"
    ensures r.sourceTimezone == "UTC-04:00"
  {
    SampleIdentity(row, hm, r.phone, r.leadId, r.listId, r.disposition);
    SampleKey(u, r.dedupKey);
    FixedLabelExample(-4, "UTC-04:00");
  }

  lemma SampleRowZone(row: Row, hm: HeaderMap, cell: string)
    requires GetVal(row, hm, ["gmt_offset_now"]) == Some(cell) && cell == "-4"
    ensures RowTz(row, hm) == Some(Fixed(-4))
  {
    SampleOffset(cell);
  }

  lemma SampleOffset(cell: string)
    requires cell == "-4"
    ensures TzFromRowOffset(Some(cell)) == Some(Fixed(-4))
  {
    assert Show(-4) == cell;
    assert "" + Show(-4) + "" == cell;
    TzFromRowOffsetShow("", -4, "");
  }

  /** The sample's identity fields after cleaning. */
  lemma SampleIdentity(row: Row, hm: HeaderMap, phone: Option<string>, leadId: Option<string>,
                       listId: Option<string>, disposition: Option<string>)
    requires GetVal(row, hm, ["phone_number_dialed", "phone_number"]) == Some("555-123-4567")
    requires GetVal(row, hm, ["lead_id"]) == Some("L1")
    requires GetVal(row, hm, ["list_id"]) == Some("A") && GetVal(row, hm, ["status"]) == Some("SALE")
    requires phone == NormalizePhone(Cell(row, hm, ["phone_number_dialed", "phone_number"]))
    requires leadId == LeadIdField(row, hm)
    requires listId == SafeStr(Cell(row, hm, ["list_id"])) && disposition == SafeStr(Cell(row, hm, ["status"]))
    ensures phone == Some("5551234567") && leadId == Some("L1") && listId == Some("A") && disposition == Some("SALE")
  {
    DashedNumber("555-123-4567", "5551234567");
    SampleClean(row, hm, GetVal(row, hm, ["lead_id"]).value, GetVal(row, hm, ["list_id"]).value,
                GetVal(row, hm, ["status"]).value);
  }

  lemma SampleClean(row: Row, hm: HeaderMap, l: string, a: string, st: string)
    requires l == "L1" && a == "A" && st == "SALE"
    requires GetVal(row, hm, ["lead_id"]) == Some(l)
    ensures LeadIdField(row, hm) == Some(l) && SafeStr(Some(a)) == Some(a) && SafeStr(Some(st)) == Some(st)
  {
    CleanWord(l);
    CleanWord(a);
    CleanWord(st);
    LeadIdFieldFirstColumn(row, hm, "", l, "");
    SafeStrPadded("", a, "");
    SafeStrPadded("", st, "");
  }

  /** A word without surrounding whitespace, padded with nothing. */
  lemma CleanWord(w: string)
    requires w == "L1" || w == "A" || w == "SALE"
    ensures w != [] && IsStripped(w) && AllSpace("") && "" + w + "" == w
  {
  }

  /** The sample's key. */
  lemma SampleKey(u: DateTime, key: string)
    requires Valid(u) && IsoFormat(u) == "2025-09-02T15:02:00+00:00"
    requires key == DedupKey(Some("5551234567"), Some("L1"), Some("A"), Some("SALE"), u)
    ensures key == "5551234567|L1|A|SALE|2025-09-02 15:02"
  {
    var m := MinuteKey(u);
    SampleMinute(u, m);
    assert key == "5551234567" + "|" + "L1" + "|" + "A" + "|" + "SALE" + "|" + m;
    assert "5551234567" + "|" + "L1" + "|" == "5551234567|L1|";
    assert "5551234567|L1|" + "A" + "|" + "SALE" + "|" == "5551234567|L1|A|SALE|";
  }

  lemma SampleMinute(u: DateTime, k: string)
    requires Valid(u) && IsoFormat(u) == "2025-09-02T15:02:00+00:00" && k == MinuteKey(u)
    ensures k == "2025-09-02 15:02"
  {
    var iso := IsoFormat(u);
    MinuteKeyOfIso(u);
    assert iso[..10] == "2025-09-02" && iso[11..16] == "15:02";
  }

  /** `json.dumps(mapped) + "\n"`. */
  function Line(env: Env, r: Record): string {
    env.dumpRecord(r) + "\n"
  }
}
