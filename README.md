# call_backfill_cf: a Dafny model of the call-export loader

The loader is a Cloud Function. It runs when a CSV call export is uploaded to
a bucket. It reads every row and resolves columns by loose header names. It
cleans the text fields and reduces the phone number to its digits. It picks a
lead id and parses the call date with the first of eight `strptime` formats
that fits. It moves that local time to UTC, using the row's own
`gmt_offset_now` when the row has one and the configured zone otherwise. It
then builds a record with a dedup key (`Phone|LeadID|ListID|Disposition|`
plus the UTC minute) and a hash of that key. Records are written as NDJSON
lines. The file is staged and merged only when at least one row was good.

This project models that pipeline and proves what it promises:

- `Headers`: the header map from clean names to original headers, and
  `get_val`.
- `Fields`: `safe_str`, `normalize_phone`, `pick_lead_id` and the final
  `LeadID` expression.
- `Zones`: `resolve_tz` and `tz_from_row_offset` over whole-hour fixed
  offsets. Named zones come from a zone database that is a parameter.
- `Calendar`: proleptic Gregorian date-times, seconds since 0001-01-01, the
  move to UTC with its range limits, `isoformat` and the minute key.
- `Strptime`: CPython's `datetime.strptime` for the directives the eight
  formats use. Each format becomes a regular expression, matched
  case-insensitively from the start of the text with backtracking. The match
  must consume the whole text and the fields must form a real date.
- `LocalDates`: `parse_date_local`, meaning the ordered format search, the
  zone choice and the UTC conversion.
- `Records`: the `mapped` dict, `DedupKey`, `RowHash` and one pass of the row
  loop's body.
- `Ingest`: the row loop of `main` as a method with loop invariants, and the
  prefix filter and `good > 0` guard around it.
- `Wrappers` and `Combinators`: `Option`, the first-match-wins search loop and
  the last-one-wins dict comprehension. Each is proved once and used by
  `get_val`, `pick_lead_id`, the format search and the header map.

Three places follow the code where its comments say otherwise:

- `timezone(timedelta(hours=h))` rejects |h| >= 24. An out-of-range offset
  therefore gives `None` from `tz_from_row_offset` and UTC from `resolve_tz`.
- `astimezone` raises `OverflowError` near year 1 and year 9999. That is not
  the `ValueError` the format loop catches, so the error leaves
  `parse_date_local` and ends the run. The model calls this outcome
  `Overflow`, `Abort` and `Crashed`.
- The `Email` expression's `or None` changes nothing.

## Model

| member | source | states |
|---|---|---|
| Combinators.FirstSome | main.py:89-96 | The search loop returns `None` exactly when every candidate fails; otherwise it returns the result of a candidate that succeeds after all earlier ones failed |
| Combinators.FirstSomeAt | main.py:126-135 | When candidate i succeeds and all earlier ones fail, the search returns candidate i's result |
| Combinators.IndexLastWinsValue | main.py:83 | In a dict comprehension, a key's entry is the last item with that key |
| Headers.CleanName | main.py:79-82 | `clean(h)` has no BOM or NBSP, is stripped and is lower case |
| Headers.NormalizeHeadersHas | main.py:83 | Every header's clean name is a key of the header map |
| Headers.NormalizeHeadersLastWins | main.py:83 | A clean name maps to the last header that cleans to it |
| Headers.NormalizeHeadersKeys | main.py:83 | The map has no other keys |
| Headers.GetVal | main.py:85-96 | `None` exactly when no candidate is both in the map and present in the row; otherwise the value of the first candidate that is |
| Headers.GetValSpellingInsensitive | main.py:90 | Candidates that differ only in case, padding, BOM or NBSP give the same value |
| Headers.GetValFindsHeader | main.py:85-96 | A header read through any spelling of its name gives the row's value under that header |
| Headers.CleanNameOfClean | main.py:79-82 | Cleaning is idempotent |
| Headers.CleanNameIgnoresCase | main.py:82 | Names that differ only in ASCII case clean alike |
| Headers.CleanNameIgnoresPadding | main.py:82 | Surrounding whitespace does not change the clean name |
| Headers.CleanNameExample | main.py:77-82 | A header with a BOM, an NBSP and capitals cleans to its plain lower-case name |
| Fields.SafeStr | main.py:98-99 | `None` exactly for `None` or all-whitespace input; otherwise the stripped text, non-empty with no surrounding whitespace |
| Fields.SafeStrPadded | main.py:98-99 | Padding around a stripped value is dropped |
| Fields.SafeStrIdempotent | main.py:98-99 | Cleaning a cleaned value changes nothing |
| Fields.NormalizePhone | main.py:101-105 | `None` exactly for `None` or input with no digit; otherwise a non-empty string of digits only |
| Fields.NormalizePhoneKeepsDigits | main.py:104 | The result holds every digit exactly as often as the input does, and no other character |
| Fields.NormalizePhoneIgnoresSeparators | main.py:104 | Inserting non-digits anywhere does not change the result, so the digits keep their order |
| Fields.NormalizePhoneOfDigits | main.py:101-105 | A string of digits is its own normal form |
| Fields.NormalizePhoneIdempotent | main.py:101-105 | Normalising twice is normalising once |
| Fields.NormalizePhoneExample | main.py:104 | "555-123-4567" becomes "5551234567" |
| Fields.PickLeadId | main.py:107-112 | A result that is present is stripped |
| Fields.PickLeadIdNone | main.py:107-112 | The result is `None` exactly when no lead column holds a non-empty value |
| Fields.FallbackNeverFires | main.py:112 | The fallback line always returns `None` once the loop has found nothing |
| Fields.PickLeadIdFirstTruthy | main.py:108-111 | The first lead column with a non-empty value decides the result: its value, stripped |
| Fields.LeadIdField | main.py:216 | `LeadID` is `None` or a non-empty stripped string |
| Fields.BlankLeadIdShadowsVendorCode | main.py:108-111 | A whitespace-only `lead_id` is truthy, so it wins over `vendor_lead_code` and `LeadID` ends up absent |
| Fields.LeadIdFieldFirstColumn | main.py:108-111 | A `lead_id` with real content gives `LeadID` as that content, stripped |
| Zones.ResolveTz | main.py:47-62 | A named zone is known to the database, stripped and not `UTC±…`-shaped; a fixed non-UTC zone comes only from a `UTC±…`-shaped string |
| Zones.ResolveStripped | main.py:53-62 | After `strip()`: a named zone is the string itself, known to the database and not `UTC±…`-shaped; a fixed non-UTC zone comes only from a `UTC±…`-shaped string |
| Zones.ResolveTzPadded | main.py:52 | Surrounding whitespace does not matter |
| Zones.ResolveTzFixed | main.py:52-58 | `UTC±H`, padded or not, gives exactly H hours when -24 < H < 24, and UTC otherwise |
| Zones.ResolveTzDefault | main.py:15 | The default "UTC-7" is seven hours behind UTC |
| Zones.ResolveTzLowercase | main.py:53-58 | Lower-case "utc±H" passes the prefix test, but `int()` fails on it, so the zone is UTC |
| Zones.ResolveTzMinutes | main.py:55-58 | "UTC±H:MM" makes `int()` fail, so the zone is UTC |
| Zones.TzFromRowOffset | main.py:66-72 | A present result is a fixed offset of exactly `int(cell)` hours; `None` exactly when the cell is missing, not an int, or out of range |
| Zones.TzFromRowOffsetShow | main.py:66-72 | A signed integer cell, padded or not, gives that many hours |
| Zones.FixedLabel | main.py:225 | `str()` of a fixed offset is "UTC" exactly for offset zero |
| Zones.FixedLabelInjective | main.py:225 | Different offsets have different labels |
| Zones.FixedLabelExample | main.py:225 | Offset -4 is labelled "UTC-04:00" |
| Zones.ResolveTzOfLabel | main.py:52-58 | A nonzero offset's label read back through `resolve_tz` gives UTC |
| Zones.OffsetAt | main.py:130-131 | A fixed zone is exactly its hours times 3600 seconds from UTC |
| Calendar.DayNumberInjective | main.py:131 | Valid dates with the same day number are the same date |
| Calendar.InstantInjective | main.py:131 | Different valid date-times are different instants |
| Calendar.ToUtc | main.py:131 | When present, the UTC date-time's instant is the local instant minus the offset; absent exactly when that instant falls outside years 1 to 9999 |
| Calendar.ToUtcZero | main.py:131 | Offset zero leaves the date-time unchanged |
| Calendar.MinuteKey | main.py:235 | `%Y-%m-%d %H:%M` is 16 characters |
| Calendar.IsoFormat | main.py:206 | `isoformat()` of a UTC time is 25 characters: a `T` at index 10, a colon at 16, the zero-padded seconds at 17-18, then "+00:00" |
| Calendar.IsoFormatInjective | main.py:206 | Two valid times have the same ISO text exactly when they are equal |
| Calendar.MinuteKeyOfIso | main.py:206 | The minute key is the ISO text's date, a space, and its hours and minutes |
| Calendar.MinuteKeyFields | main.py:235 | Equal minute keys mean equal year, month, day, hour and minute |
| Calendar.MinuteKeySameMinute | main.py:235 | Two minute keys are equal exactly when the two instants fall in the same minute |
| Strptime.Convert | main.py:128 | Every date-time `strptime` builds is a valid calendar date |
| Strptime.Parse | main.py:128 | A successful parse is a valid date-time |
| Strptime.MatchFirstWay | main.py:128 | When a directive's first alternative leads to a match, the regular expression takes that one |
| Strptime.ParseAlongFirstWays | main.py:128 | When every directive takes its first alternative and the match consumes the text, the parse is the conversion of those fields |
| Strptime.PaddedFieldFirstWay | main.py:128 | A zero-padded field of full width is read through its first alternative, with its value |
| Strptime.ParseCountsSeparators | main.py:128 | A text a format parses has exactly as many '-', '/' and ':' as the format |
| LocalDates.ParseLocal | main.py:126-134 | `None` exactly when every format fails; otherwise the first format that parses decides, and its date-time is valid |
| LocalDates.ParseLocalFirstFormat | main.py:126-131 | The first format that parses decides, whatever later formats would give |
| LocalDates.ParseDateLocal | main.py:115-135 | No date exactly for a missing or blank cell or one no format reads; on success the stripped text, with UTC = local minus the offset of the row zone, else the configured zone; overflow only when that instant leaves the calendar |
| LocalDates.Localized | main.py:129-131 | Attaching the zone and converting never gives "no date": either the UTC instant is the local one minus the zone's offset, or that instant is outside the calendar and `astimezone` overflows |
| LocalDates.ParseDateLocalFixed | main.py:129-131 | With a whole-hour zone the UTC instant is the local one minus h * 3600 |
| LocalDates.ParseDateLocalOverride | main.py:129 | When the row has an offset, the configured zone does not matter |
| LocalDates.MissingSeparator | main.py:128 | A format whose count of '-', '/' or ':' differs from the text's fails on it |
| LocalDates.IsoSecondsRoundTrip | main.py:34 | `%Y-%m-%d %H:%M:%S` reads its own rendering back |
| LocalDates.IsoMinutesRoundTrip | main.py:35 | `%Y-%m-%d %H:%M` reads its own rendering back |
| LocalDates.ParseLocalSecondsText | main.py:126-131 | The loop reads an ISO text with seconds back as the same date-time |
| LocalDates.ParseLocalMinuteKey | main.py:126-131 | The loop reads a minute key back as its date-time at second 0, through the second format |
| LocalDates.ShortRoundTrip | main.py:39 | `%m/%d/%y %H:%M` reads the export's "M/D/YY HH:MM" layout back, for every valid minute of the years 1969-2068, with month and day of one or two digits |
| LocalDates.FourDigitYearStuck | main.py:36-37 | The `%m/%d/%Y` formats fail on a text with a two-digit year, whatever the regex backtracking tries in the month and day |
| LocalDates.ParseLocalShortText | main.py:126-131 | The five earlier formats reject the export's layout and the sixth reads it exactly, for every valid minute of the years 1969-2068 |
| LocalDates.ParseDateLocalExample | main.py:39 | "9/2/25 11:02" with row offset -4 is 2025-09-02 15:02 UTC, `isoformat` "2025-09-02T15:02:00+00:00", whatever the configured zone |
| Records.DedupKey | main.py:230-237 | The key ends in a bar and the 16-character UTC minute |
| Records.SourceTimezone | main.py:225 | The row offset's label when the row has one, else the configured string as written |
| Records.Mapped | main.py:205-227 | Each field comes from its own column: `Phone` from `phone_number_dialed` or `phone_number`, `LeadID` from the lead-id pick, `ListID` from `list_id`, `Disposition` from `status`, `TalkTime` from `campaign_id`; `Date` is the UTC ISO text, whose minute is the key's; every text field is clean and the five unfilled fields are `None` |
| Records.Fingerprinted | main.py:229-240 | Only `DedupKey`, `RowHash` and `_raw` are added; the key joins the mapped fields and the UTC minute; the hash is SHA-256 of the key |
| Records.BuildRecord | main.py:202-240 | `Date` is the ISO text of the UTC time; the identity fields come from their columns; the key joins them with that UTC time's minute, which is the record's own `Date` cut to the minute; `RowHash` is the key's hash |
| Records.DedupKeySameMinute | main.py:230-237 | Same identity fields give the same key exactly when the times fall in the same UTC minute |
| Records.SameMinuteSameFingerprint | main.py:229-239 | Two rows with the same identity fields in the same UTC minute get the same key and the same hash, even from different files with different headers |
| Records.HashFollowsKey | main.py:239 | `RowHash` depends on `DedupKey` alone |
| Records.DedupKeyDetermines | main.py:230-237 | When no identity field holds a bar, the key determines the four fields and the minute |
| Records.DedupKeyBarCollision | main.py:237 | Fields are joined without escaping, so a bar inside one field lets two different rows share a key |
| Records.AbsentJoinsEmpty | main.py:231-234 | A clean field joins as "" exactly when it is absent |
| Records.PhoneHasNoBar | main.py:231 | A normalised phone never holds a bar character, so it cannot shift the later key fields |
| Records.ProcessRow | main.py:190-243 | A row is bad exactly when its date does not parse; it aborts exactly when the UTC conversion overflows; a good row's record is the one built from the row's parsed UTC time, so its `Date` and key come from that time |
| Records.SampleRowRecord | main.py:202-240 | The sample row ("555-123-4567", "L1", "A", "SALE", "9/2/25 11:02" at -4) gets the key "5551234567", "L1", "A", "SALE" and "2025-09-02 15:02" joined by bars, `Date` "2025-09-02T15:02:00+00:00" and zone label "UTC-04:00" |
| Ingest.ProcessRows | main.py:184-243 | The loop's counters and buffer are those of the row-by-row specification, and it stops exactly when that specification does |
| Ingest.ScanCounts | main.py:188-198 | `total` is the number of rows, `total == good + bad`, and `bad` counts exactly the rows the handler rejects |
| Ingest.ScanStopsIff | main.py:188-243 | The run stops exactly when some row's conversion raises |
| Ingest.ScanStopsForGood | main.py:188-243 | Once stopped, later rows do not restart the run |
| Ingest.ScanAppend | main.py:242 | Rows are handled in order: the buffer of a file is the buffer of its first part followed by that of the rest |
| Ingest.ScanOne | main.py:194-243 | A bad row writes nothing; a good row writes exactly its own line |
| Ingest.ScanLines | main.py:242-243 | The buffer holds one newline per good row and ends in one when it is not empty |
| Ingest.HandleObject | main.py:163-254 | Objects outside the prefix are ignored; otherwise the run crashes exactly when the loop stops; a finished run reports the loop's counters and stages the buffer under `TMP_PREFIX + name + ".ndjson"` exactly when `good > 0` |

## Left out

- Cloud Storage and BigQuery are left out: the clients, the download, the
  CSV reader setup, the upload, the staging load, the merge call, the audit
  insert and the move of the file to `processed/` (main.py:25-26, 138-154,
  170-181, 250-276). `Ingest.HandleObject` returns what would be staged and
  the counters that would be audited.
- The time-tolerant merge is left out. Its SQL lives in `merge.sql`, which
  is not part of this model. Only the `good > 0` guard around it is modelled.
- Named zones are left out. The IANA database is a parameter: which names it
  knows (`zoneKnown`) and the offset of a name at a local time
  (`namedOffset`). Daylight-saving gaps and folds are not modelled.
- SHA-256 and `json.dumps` are opaque functions in `Records.Env`. The model
  does not say that the digest is 64 hex characters. `Ingest.ScanLines`
  takes as a hypothesis that a dumped record holds no raw newline.
- CSV parsing and `utf-8-sig` decoding are left out. The header list and the
  rows are inputs. Header names are `Option<string>` so that a missing name
  can be `None`.
- The `print` diagnostics (main.py:133) are left out. So are the environment
  reads (main.py:14-22), which become the `Records.Config` value.
  `TIME_TOL_SEC` is carried but only the merge uses it.
- Text operations are ASCII only. `lower()`, `upper()`, `str.isdigit`, `\d`
  and `int()` are modelled on ASCII characters. Unicode case mapping and
  Unicode digits are left out. Whitespace is Python's `str.isspace` set.
- Strptime.Parse: only the directives the eight formats use are modelled.
  These are `%Y %m %d %H %M %S %y %I %p` and whitespace. `%p` takes the
  English "AM" and "PM" only, not the locale's words.
- Calendar.MinuteKey: `%Y` is written with four digits for years below 1000
  as well. Some C libraries write fewer digits there.
- Ingest.ProcessRows: after an aborting row, the counters are not modelled,
  because the exception discards them along with the whole run.
- Records.BuildRecord: the `_raw` field is `json.dumps` of the row and is
  only carried through.
- LocalDates.ParseLocal: which formats read which texts is proved for four
  layouts. These are ISO with seconds, ISO to the minute, the export's
  "M/D/YY HH:MM" (every valid minute of 1969-2068, the years `%y` reads
  back into their own century), and any text whose separator counts rule
  a format out.
  The 12-hour formats are modelled but have no example lemma.
