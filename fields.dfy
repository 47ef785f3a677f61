/** Field cleaners (main.py:98-112, 216): trimming with empty-to-`None`
    coercion, digits-only phone numbers, and the lead-id pick over an
    ordered list of identity columns. */
module Fields {
  import opened Wrappers
  import opened Combinators
  import opened Text
  import opened Headers

  // ----- safe_str -----

  /** `safe_str`: `None` stays `None`; otherwise the text with surrounding
      whitespace removed, or `None` when nothing is left. */
  function SafeStr(x: Option<string>): (r: Option<string>)
    ensures r.None? <==> x.None? || AllSpace(x.value)
    ensures r.Some? ==> r.value != [] && IsStripped(r.value)
  {
    if x.None? then None
    else
      var t := Strip(x.value);
      StripEmpty(x.value);
      if t == [] then None else Some(t)
  }

  /** What survives is exactly the text between the padding. */
  lemma SafeStrPadded(ws1: string, t: string, ws2: string)
    requires AllSpace(ws1) && AllSpace(ws2) && IsStripped(t) && t != []
    ensures SafeStr(Some(ws1 + t + ws2)) == Some(t)
  {
    StripPadded(ws1, t, ws2);
  }

  /** Cleaning an already clean value changes nothing. */
  lemma SafeStrIdempotent(x: Option<string>)
    ensures SafeStr(SafeStr(x)) == SafeStr(x)
  {
    if SafeStr(x).Some? {
      StripOfStripped(SafeStr(x).value);
    }
  }

  // ----- normalize_phone -----

  /** `normalize_phone`: the digits of the text in their original order
      (`re.sub(r"\D+", "", ...)`), or `None` when the cell is `None` or
      has no digit at all. */
  function NormalizePhone(v: Option<string>): (r: Option<string>)
    ensures r.None? <==> v.None? || forall i :: 0 <= i < |v.value| ==> !IsDigit(v.value[i])
    ensures r.Some? ==> r.value != [] && AllDigits(r.value)
  {
    if v.None? then None
    else
      var d := Digits(v.value);
      DigitsEmpty(v.value);
      if d == [] then None else Some(d)
  }

  /** Every digit of the input survives, as often as it occurs, and no
      other character does. */
  lemma NormalizePhoneKeepsDigits(s: string, c: char)
    requires NormalizePhone(Some(s)).Some?
    ensures multiset(NormalizePhone(Some(s)).value)[c] == if IsDigit(c) then multiset(s)[c] else 0
  {
    DigitsKeepsEveryDigit(s, c);
  }

  /** Separators anywhere (dashes, dots, parentheses, spaces) do not change
      the result, so the digits keep their order. */
  lemma NormalizePhoneIgnoresSeparators(a: string, sep: string, b: string)
    requires forall i :: 0 <= i < |sep| ==> !IsDigit(sep[i])
    ensures NormalizePhone(Some(a + sep + b)) == NormalizePhone(Some(a + b))
  {
    DigitsAppend(a + sep, b);
    DigitsAppend(a, sep);
    DigitsAppend(a, b);
    DigitsEmpty(sep);
    assert Digits(a + sep) == Digits(a);
    assert Digits(a + sep + b) == Digits(a + b);
  }

  /** A phone number that is already digits only comes back unchanged, so
      normalising twice is normalising once. */
  lemma NormalizePhoneOfDigits(d: string)
    requires d != [] && AllDigits(d)
    ensures NormalizePhone(Some(d)) == Some(d)
  {
    DigitsOfDigits(d);
  }

  lemma NormalizePhoneIdempotent(v: Option<string>)
    ensures NormalizePhone(NormalizePhone(v)) == NormalizePhone(v)
  {
    if NormalizePhone(v).Some? {
      NormalizePhoneOfDigits(NormalizePhone(v).value);
    }
  }

  /** A dashed North American number keeps its ten digits. */
  lemma NormalizePhoneExample()
    ensures NormalizePhone(Some("555-123-4567")) == Some("5551234567")
  {
    DashedNumber("555-123-4567", "5551234567");
  }

  lemma DashedNumber(dashed: string, plain: string)
    requires dashed == "555-123-4567" && plain == "5551234567"
    ensures NormalizePhone(Some(dashed)) == Some(plain)
  {
    NormalizePhoneIgnoresSeparators("555", "-", "123-4567");
    NormalizePhoneIgnoresSeparators("555123", "-", "4567");
    assert "555" + "-" + "123-4567" == dashed;
    assert "555" + "123-4567" == "555123" + "-" + "4567";
    assert "555123" + "4567" == plain;
    NormalizePhoneOfDigits(plain);
  }

  // ----- pick_lead_id -----

  /** The identity columns tried, in order. */
  const LeadKeys: seq<string> := ["lead_id", "vendor_lead_code", "LeadID"]

  /** One step of the `for k in LEAD_KEYS` loop: the column's cell, trimmed,
      when the cell is truthy (present and not the empty string).  The
      trimmed text may itself be empty. */
  function LeadFrom(row: Row, hm: HeaderMap, k: string): Option<string> {
    var v := GetVal(row, hm, [k]);
    if v.Some? && v.value != [] then Some(Strip(v.value)) else None
  }

  /** The loop body as a function of the column name. */
  function LeadStep(row: Row, hm: HeaderMap): string -> Option<string> {
    k => LeadFrom(row, hm, k)
  }

  /** A cell that makes a lead column win. */
  predicate Truthy(v: Option<string>) {
    v.Some? && v.value != []
  }

  /** `pick_lead_id`: the trimmed cell of the first truthy identity column,
      else `safe_str` of the fallback pair `vendor_lead_code`, `lead_id`.
      The fallback can only ever produce `None` (PickLeadIdNone). */
  function PickLeadId(row: Row, hm: HeaderMap): (r: Option<string>)
    ensures r.Some? ==> IsStripped(r.value)
  {
    var f := LeadStep(row, hm);
    match FirstSome(LeadKeys, f)
    case Some(v) =>
      assert exists i :: 0 <= i < |LeadKeys| && f(LeadKeys[i]) == Some(v);
      Some(v)
    case None => SafeStr(GetVal(row, hm, ["vendor_lead_code", "lead_id"]))
  }

  /** The lead id is absent exactly when no lead column is truthy: it is
      reached only when both columns of the fallback pair are missing or
      empty, and then `get_val` yields `None` or an empty string. */
  lemma PickLeadIdNone(row: Row, hm: HeaderMap)
    ensures PickLeadId(row, hm).None? <==>
      && !Truthy(GetVal(row, hm, ["lead_id"]))
      && !Truthy(GetVal(row, hm, ["vendor_lead_code"]))
      && !Truthy(GetVal(row, hm, ["LeadID"]))
  {
    var f := LeadStep(row, hm);
    var r := FirstSome(LeadKeys, f);
    assert f(LeadKeys[0]) == LeadFrom(row, hm, "lead_id");
    assert f(LeadKeys[1]) == LeadFrom(row, hm, "vendor_lead_code");
    assert f(LeadKeys[2]) == LeadFrom(row, hm, "LeadID");
    if r.None? {
      FallbackNeverFires(row, hm);
    }
  }

  /** The fallback pair finds nothing usable once the ordered loop has
      found neither column truthy. */
  lemma FallbackNeverFires(row: Row, hm: HeaderMap)
    requires !Truthy(GetVal(row, hm, ["lead_id"])) && !Truthy(GetVal(row, hm, ["vendor_lead_code"]))
    ensures SafeStr(GetVal(row, hm, ["vendor_lead_code", "lead_id"])) == None
  {
    var cs := ["vendor_lead_code", "lead_id"];
    assert GetVal(row, hm, [cs[0]]).None? <==> Lookup(row, hm, cs[0]).None?;
    assert GetVal(row, hm, [cs[1]]).None? <==> Lookup(row, hm, cs[1]).None?;
    var r := GetVal(row, hm, cs);
    if r.Some? {
      if Lookup(row, hm, cs[0]).Some? {
        assert r == Lookup(row, hm, cs[0]);
        assert r == GetVal(row, hm, [cs[0]]);
      } else {
        assert r == Lookup(row, hm, cs[1]);
        assert r == GetVal(row, hm, [cs[1]]);
      }
      assert r.value == [];
    }
  }

  /** The first truthy lead column decides, trimmed. */
  lemma PickLeadIdFirstTruthy(row: Row, hm: HeaderMap, i: int)
    requires 0 <= i < |LeadKeys| && Truthy(GetVal(row, hm, [LeadKeys[i]]))
    requires forall j :: 0 <= j < i ==> !Truthy(GetVal(row, hm, [LeadKeys[j]]))
    ensures PickLeadId(row, hm) == Some(Strip(GetVal(row, hm, [LeadKeys[i]]).value))
  {
    var f := LeadStep(row, hm);
    assert FailsBefore(LeadKeys, f, i);
    FirstSomeAt(LeadKeys, f, i);
  }

  /** The `LeadID` field (main.py:216) is `safe_str` of the pick: `None` or
      a non-empty trimmed string. */
  function LeadIdField(row: Row, hm: HeaderMap): (r: Option<string>)
    ensures r.None? || (r.value != [] && IsStripped(r.value))
  {
    SafeStr(PickLeadId(row, hm))
  }

  /** A `lead_id` cell of only whitespace is truthy, so it wins the pick
      and then trims to nothing: the row gets no lead id even when
      `vendor_lead_code` holds one. */
  lemma BlankLeadIdShadowsVendorCode(row: Row, hm: HeaderMap)
    requires Truthy(GetVal(row, hm, ["lead_id"])) && AllSpace(GetVal(row, hm, ["lead_id"]).value)
    ensures LeadIdField(row, hm) == None
  {
    PickLeadIdFirstTruthy(row, hm, 0);
    StripEmpty(GetVal(row, hm, ["lead_id"]).value);
  }

  /** A truthy, non-blank cell of the first lead column is the lead id,
      trimmed. */
  lemma LeadIdFieldFirstColumn(row: Row, hm: HeaderMap, ws1: string, t: string, ws2: string)
    requires GetVal(row, hm, ["lead_id"]) == Some(ws1 + t + ws2)
    requires AllSpace(ws1) && AllSpace(ws2) && IsStripped(t) && t != []
    ensures LeadIdField(row, hm) == Some(t)
  {
    PickLeadIdFirstTruthy(row, hm, 0);
    StripPadded(ws1, t, ws2);
    StripOfStripped(t);
  }
}
