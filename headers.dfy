/** Header resolution (main.py:75-96): a per-file map from a cleaned column
    name to the header as the export spelled it, and a lookup that tries
    candidate column names in order. */
module Headers {
  import opened Wrappers
  import opened Combinators
  import opened Text

  /** One row as `csv.DictReader` yields it: header -> cell.  A cell is
      `None` when the line is shorter than the header row. */
  type Row = map<string, Option<string>>

  /** Cleaned name -> original header.  A header of `None` is kept (under
      the key ""), exactly as the dict comprehension keeps it. */
  type HeaderMap = map<string, Option<string>>

  /** The cleaning both sides of the lookup apply: drop every BOM, turn
      every NBSP into a space, strip, lower-case.  The result is a clean
      name: no padding, no BOM, no NBSP, no upper-case letter. */
  function CleanName(s: string): (r: string)
    ensures IsClean(r)
  {
    var y := RemoveChar(s, Bom);
    var x := ReplaceChar(y, Nbsp, ' ');
    ReplaceCharKeepsAbsent(y, Nbsp, ' ', Bom);
    var t := Strip(x);
    StripKeepsAbsent(x, Bom);
    StripKeepsAbsent(x, Nbsp);
    LowerSpaces(t);
    LowerKeepsAbsent(t, Bom);
    LowerKeepsAbsent(t, Nbsp);
    LowerIdempotent(t);
    Lower(t)
  }

  predicate IsClean(r: string) {
    IsStripped(r) && Bom !in r && Nbsp !in r && Lower(r) == r
  }

  function CleanHeader(h: Option<string>): string {
    match h
    case None => ""
    case Some(s) => CleanName(s)
  }

  /** `normalize_headers`: cleaned name -> original header, later headers
      overwriting earlier ones that clean alike. */
  function NormalizeHeaders(hs: seq<Option<string>>): HeaderMap {
    IndexLastWins(hs, CleanHeader)
  }

  /** Every header's cleaned name is a key. */
  lemma NormalizeHeadersHas(hs: seq<Option<string>>, i: int)
    requires 0 <= i < |hs|
    ensures CleanHeader(hs[i]) in NormalizeHeaders(hs)
  {
    IndexLastWinsHas(hs, CleanHeader, i);
  }

  /** The value under a key is the last header that cleans to it. */
  lemma NormalizeHeadersLastWins(hs: seq<Option<string>>, k: string, i: int)
    requires LastWith(hs, CleanHeader, k, i)
    ensures k in NormalizeHeaders(hs) && NormalizeHeaders(hs)[k] == hs[i]
  {
    IndexLastWinsValue(hs, CleanHeader, k, i);
  }

  /** No key is invented: every key is the cleaned name of some header,
      and the value under it is the last such header. */
  lemma NormalizeHeadersKeys(hs: seq<Option<string>>, k: string)
    requires k in NormalizeHeaders(hs)
    ensures exists i :: LastWith(hs, CleanHeader, k, i) && NormalizeHeaders(hs)[k] == hs[i]
  {
    IndexLastWinsKeys(hs, CleanHeader, k);
    var i :| LastWith(hs, CleanHeader, k, i);
    IndexLastWinsValue(hs, CleanHeader, k, i);
  }

  /** The cell one candidate name finds: its cleaned name must be a key,
      the header under it must not be `None`, and the cell must not be `None`. */
  function Lookup(row: Row, hm: HeaderMap, cand: string): Option<string> {
    var key := CleanName(cand);
    if key in hm && hm[key].Some? && hm[key].value in row then row[hm[key].value]
    else None
  }

  /** One step of the candidate loop. */
  function LookupIn(row: Row, hm: HeaderMap): string -> Option<string> {
    c => Lookup(row, hm, c)
  }

  /** `get_val`: the first candidate, in the order given, that finds a
      cell; `None` when none does. */
  function GetVal(row: Row, hm: HeaderMap, cands: seq<string>): (r: Option<string>)
    ensures r.None? <==> forall i :: 0 <= i < |cands| ==> Lookup(row, hm, cands[i]).None?
    ensures r.Some? ==> exists i :: 0 <= i < |cands| && Lookup(row, hm, cands[i]) == r
                                    && forall j :: 0 <= j < i ==> Lookup(row, hm, cands[j]).None?
  {
    var f := LookupIn(row, hm);
    var r := FirstSome(cands, f);
    assert forall i :: 0 <= i < |cands| ==> f(cands[i]) == Lookup(row, hm, cands[i]);
    r
  }

  /** A candidate list that spells the same columns differently (case,
      surrounding whitespace, BOM, NBSP: anything that cleans the same)
      finds the same value. */
  lemma GetValSpellingInsensitive(row: Row, hm: HeaderMap, cs: seq<string>, ds: seq<string>)
    requires |cs| == |ds|
    requires forall i :: 0 <= i < |cs| ==> CleanName(cs[i]) == CleanName(ds[i])
    ensures GetVal(row, hm, cs) == GetVal(row, hm, ds)
  {
    var f := LookupIn(row, hm);
    forall i | 0 <= i < |cs| ensures f(cs[i]) == f(ds[i]) {
      assert Lookup(row, hm, cs[i]) == Lookup(row, hm, ds[i]);
    }
    FirstSomeCongruent(cs, ds, f);
  }

  /** End to end: a candidate that cleans to the same name as a header
      finds that header's cell, taking the last such header when several
      collide. */
  lemma GetValFindsHeader(row: Row, hs: seq<Option<string>>, i: int, cand: string, v: string)
    requires LastWith(hs, CleanHeader, CleanName(cand), i) && hs[i].Some?
    requires hs[i].value in row && row[hs[i].value] == Some(v)
    ensures GetVal(row, NormalizeHeaders(hs), [cand]) == Some(v)
  {
    NormalizeHeadersLastWins(hs, CleanName(cand), i);
  }

  // ----- which spellings clean alike -----

  /** A clean name is its own key, so cleaning is idempotent. */
  lemma CleanNameOfClean(r: string)
    requires IsClean(r)
    ensures CleanName(r) == r
  {
    RemoveCharAbsent(r, Bom);
    ReplaceCharAbsent(r, Nbsp, ' ');
    StripOfStripped(r);
  }

  /** Case does not matter: two spellings equal up to ASCII case clean alike. */
  lemma CleanNameIgnoresCase(s: string, t: string)
    requires Lower(s) == Lower(t)
    ensures CleanName(s) == CleanName(t)
  {
    CleanNameLowersFirst(s);
    CleanNameLowersFirst(t);
  }

  /** Lower-casing first and cleaning afterwards gives the same name. */
  lemma CleanNameLowersFirst(s: string)
    ensures CleanName(s) == Strip(ReplaceChar(RemoveChar(Lower(s), Bom), Nbsp, ' '))
  {
    RemoveCharLower(s, Bom);
    var x := RemoveChar(s, Bom);
    ReplaceCharLower(x, Nbsp, ' ');
    StripLower(ReplaceChar(x, Nbsp, ' '));
  }

  lemma {:induction false} RemoveCharLower(s: string, c: char)
    requires !('A' <= c <= 'Z') && !('a' <= c <= 'z')
    ensures RemoveChar(Lower(s), c) == Lower(RemoveChar(s, c))
  {
    if s != [] {
      RemoveCharLower(s[1..], c);
      var l := Lower(s);
      assert l[0] == LowerChar(s[0]) && l[1..] == Lower(s[1..]);
      LowerAppend(if s[0] == c then [] else [s[0]], RemoveChar(s[1..], c));
    }
  }

  lemma {:induction false} ReplaceCharLower(s: string, c: char, d: char)
    requires !('A' <= c <= 'Z') && !('a' <= c <= 'z') && !('A' <= d <= 'Z')
    ensures ReplaceChar(Lower(s), c, d) == Lower(ReplaceChar(s, c, d))
  {
    if s != [] {
      ReplaceCharLower(s[1..], c, d);
    }
  }

  /** Padding of spaces (NBSP included) and byte-order marks on either
      side of a name does not matter. */
  lemma CleanNameIgnoresPadding(p: string, s: string, q: string)
    requires forall i :: 0 <= i < |p| ==> IsSpace(p[i]) || p[i] == Bom
    requires forall i :: 0 <= i < |q| ==> IsSpace(q[i]) || q[i] == Bom
    ensures CleanName(p + s + q) == CleanName(s)
  {
    RemoveCharAppend(p + s, q, Bom);
    RemoveCharAppend(p, s, Bom);
    var p1, s1, q1 := RemoveChar(p, Bom), RemoveChar(s, Bom), RemoveChar(q, Bom);
    SpacesWithoutBom(p);
    SpacesWithoutBom(q);
    ReplaceCharAppend(p1 + s1, q1, Nbsp, ' ');
    ReplaceCharAppend(p1, s1, Nbsp, ' ');
    var p2, s2, q2 := ReplaceChar(p1, Nbsp, ' '), ReplaceChar(s1, Nbsp, ' '), ReplaceChar(q1, Nbsp, ' ');
    ReplaceCharSpaces(p1, Nbsp, ' ');
    ReplaceCharSpaces(q1, Nbsp, ' ');
    StripAbsorbs(p2, s2, q2);
  }

  lemma {:induction false} SpacesWithoutBom(p: string)
    requires forall i :: 0 <= i < |p| ==> IsSpace(p[i]) || p[i] == Bom
    ensures AllSpace(RemoveChar(p, Bom))
  {
    if p != [] {
      SpacesWithoutBom(p[1..]);
    }
  }

  /** The header of a BOM-prefixed export, with stray padding and capitals,
      resolves under the same key as the plain lower-case candidate name. */
  lemma CleanNameExample()
    ensures CleanName("\U{FEFF}Phone_Number\U{00A0} ") == CleanName("phone_number")
  {
    PaddedSpelling("\U{FEFF}Phone_Number\U{00A0} ", "phone_number");
  }

  lemma PaddedSpelling(header: string, cand: string)
    requires header == "\U{FEFF}Phone_Number\U{00A0} " && cand == "phone_number"
    ensures CleanName(header) == CleanName(cand)
  {
    var s := "Phone_Number";
    var p, q := "\U{FEFF}", "\U{00A0} ";
    assert p + s + q == header;
    CleanNameIgnoresPadding(p, s, q);
    CapitalSpelling();
    CleanNameIgnoresCase(s, cand);
  }

  lemma CapitalSpelling()
    ensures Lower("Phone_Number") == Lower("phone_number")
  {
  }
}
