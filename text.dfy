/** The pieces of Python's `str` behaviour the loader relies on:
    `isspace`/`strip`, ASCII case mapping, character replacement, the
    `\D+` digit filter, `int()` on base-10 text and `str()` of an int. */
module Text {
  import opened Wrappers

  const Bom: char := '\U{FEFF}'
  const Nbsp: char := '\U{00A0}'

  /** Python's `str.isspace` for a single character (the Unicode White_Space
      set as CPython classifies it, which includes NBSP but not the BOM). */
  predicate IsSpace(c: char) {
    || '\U{0009}' <= c <= '\U{000D}'
    || '\U{001C}' <= c <= '\U{001F}'
    || c == ' ' || c == '\U{0085}' || c == '\U{00A0}' || c == '\U{1680}'
    || '\U{2000}' <= c <= '\U{200A}'
    || c == '\U{2028}' || c == '\U{2029}' || c == '\U{202F}' || c == '\U{205F}'
    || c == '\U{3000}'
  }

  predicate AllSpace(s: string) {
    forall i :: 0 <= i < |s| ==> IsSpace(s[i])
  }

  /** Neither end of `s` is a space: the shape `strip()` always produces. */
  predicate IsStripped(s: string) {
    s == [] || (!IsSpace(s[0]) && !IsSpace(s[|s| - 1]))
  }

  function LStrip(s: string): (r: string)
    ensures |r| <= |s| && r == s[|s| - |r|..]
    ensures r == [] || !IsSpace(r[0])
  {
    if |s| > 0 && IsSpace(s[0]) then LStrip(s[1..]) else s
  }

  /** Everything `lstrip()` cuts off is space. */
  lemma {:induction false} LStripCut(s: string)
    ensures AllSpace(s[..|s| - |LStrip(s)|])
  {
    if |s| > 0 && IsSpace(s[0]) {
      var t := s[1..];
      LStripCut(t);
      var n := |t| - |LStrip(t)|;
      assert s[..n + 1] == [s[0]] + t[..n];
    }
  }

  function RStrip(s: string): (r: string)
    ensures |r| <= |s| && r == s[..|r|]
    ensures r == [] || !IsSpace(r[|r| - 1])
    ensures AllSpace(s[|r|..])
  {
    if |s| > 0 && IsSpace(s[|s| - 1]) then
      var r := RStrip(s[..|s| - 1]);
      assert s[..|s| - 1][..|r|] == s[..|r|];
      assert s[|r|..] == s[..|s| - 1][|r|..] + [s[|s| - 1]];
      AllSpaceAppend(s[..|s| - 1][|r|..], [s[|s| - 1]]);
      r
    else s
  }

  /** `str.strip()`: a contiguous slice of `s`, everything cut off on
      either side is space, and the slice itself has no space at either end. */
  function Strip(s: string): (r: string)
    ensures IsStripped(r) && |r| <= |s|
  {
    RStrip(LStrip(s))
  }

  /** Where `strip()` cuts: the result is the slice `s[i..j]` and
      everything cut off on either side is space. */
  lemma StripBounds(s: string) returns (i: nat, j: nat)
    ensures i <= j <= |s| && Strip(s) == s[i..j]
    ensures AllSpace(s[..i]) && AllSpace(s[j..])
  {
    var l := LStrip(s);
    LStripCut(s);
    var r := RStrip(l);
    i, j := |s| - |l|, |s| - |l| + |r|;
    assert r == s[i..j];
    assert s[j..] == l[|r|..];
  }

  /** Stripping never introduces a character. */
  lemma StripKeepsAbsent(s: string, c: char)
    requires c !in s
    ensures c !in Strip(s)
  {
    var i, j := StripBounds(s);
    assert forall k :: i <= k < j ==> s[i..j][k - i] == s[k];
  }

  /** Spaces around any text are absorbed by strip. */
  lemma StripAbsorbs(p: string, x: string, q: string)
    requires AllSpace(p) && AllSpace(q)
    ensures Strip(p + x + q) == Strip(x)
  {
    var i, j := StripBounds(x);
    var a, b, c := x[..i], x[i..j], x[j..];
    assert p + x + q == (p + a) + b + (c + q) by {
      SliceThree(x, i, j);
      Regroup(p, a, b, c, q);
    }
    AllSpaceAppend(p, a);
    AllSpaceAppend(c, q);
    StripPadded(p + a, b, c + q);
  }

  lemma SliceThree(x: string, i: nat, j: nat)
    requires i <= j <= |x|
    ensures x == x[..i] + x[i..j] + x[j..]
  {
    assert x[..i] + x[i..j] == x[..j];
  }

  lemma Regroup(p: string, a: string, b: string, c: string, q: string)
    ensures p + (a + b + c) + q == (p + a) + b + (c + q)
  {
  }

  lemma AllSpaceAppend(a: string, b: string)
    requires AllSpace(a) && AllSpace(b)
    ensures AllSpace(a + b)
  {
    forall k | 0 <= k < |a + b| ensures IsSpace((a + b)[k]) {
      if k < |a| { assert (a + b)[k] == a[k]; } else { assert (a + b)[k] == b[k - |a|]; }
    }
  }

  /** Stripping is determined by the stripped core: surrounding any
      already-stripped text with spaces and stripping gives it back. */
  lemma {:induction false} StripPadded(ws1: string, t: string, ws2: string)
    requires AllSpace(ws1) && AllSpace(ws2) && IsStripped(t)
    ensures Strip(ws1 + t + ws2) == t
  {
    var u := t + ws2;
    assert ws1 + t + ws2 == ws1 + u;
    if t == [] {
      assert u == ws2;
      AllSpaceAppend(ws1, ws2);
      LStripSpacesThen(ws1 + ws2, []);
      assert ws1 + ws2 + [] == ws1 + u;
    } else {
      assert u[0] == t[0];
      LStripSpacesThen(ws1, u);
      RStripThenSpaces(t, ws2);
    }
  }

  lemma {:induction false} LStripSpacesThen(ws: string, u: string)
    requires AllSpace(ws) && (u == [] || !IsSpace(u[0]))
    ensures LStrip(ws + u) == u
  {
    if ws != [] {
      assert (ws + u)[1..] == ws[1..] + u;
      LStripSpacesThen(ws[1..], u);
    }
  }

  lemma {:induction false} RStripThenSpaces(t: string, ws: string)
    requires AllSpace(ws) && t != [] && !IsSpace(t[|t| - 1])
    ensures RStrip(t + ws) == t
  {
    if ws != [] {
      assert (t + ws)[..|t + ws| - 1] == t + ws[..|ws| - 1];
      RStripThenSpaces(t, ws[..|ws| - 1]);
    } else {
      assert t + ws == t;
    }
  }

  /** `strip()` leaves nothing exactly when the text is all spaces. */
  lemma StripEmpty(s: string)
    ensures Strip(s) == [] <==> AllSpace(s)
  {
    var i, j := StripBounds(s);
    if Strip(s) == [] {
      assert s == s[..i] + s[j..];
    }
    if AllSpace(s) {
      StripPadded(s, [], []);
      assert s + [] + [] == s;
    }
  }

  /** `strip()` is idempotent. */
  lemma StripIdempotent(s: string)
    ensures Strip(Strip(s)) == Strip(s)
  {
    StripOfStripped(Strip(s));
  }

  lemma StripOfStripped(t: string)
    requires IsStripped(t)
    ensures Strip(t) == t
  {
    StripPadded([], t, []);
    assert [] + t + [] == t;
  }

  // ----- ASCII case mapping -----

  function LowerChar(c: char): char {
    if 'A' <= c <= 'Z' then (c as int + 32) as char else c
  }

  function UpperChar(c: char): char {
    if 'a' <= c <= 'z' then (c as int - 32) as char else c
  }

  /** `str.lower()` on ASCII letters. */
  function Lower(s: string): (r: string)
    ensures |r| == |s|
  {
    if s == [] then [] else [LowerChar(s[0])] + Lower(s[1..])
  }

  /** `str.upper()` on ASCII letters. */
  function Upper(s: string): (r: string)
    ensures |r| == |s|
  {
    if s == [] then [] else [UpperChar(s[0])] + Upper(s[1..])
  }

  lemma {:induction false} LowerAppend(a: string, b: string)
    ensures Lower(a + b) == Lower(a) + Lower(b)
  {
    if a != [] {
      assert (a + b)[1..] == a[1..] + b;
      LowerAppend(a[1..], b);
    } else {
      assert a + b == b;
    }
  }

  lemma {:induction false} LowerIdempotent(s: string)
    ensures Lower(Lower(s)) == Lower(s)
  {
    if s != [] {
      LowerIdempotent(s[1..]);
    }
  }

  /** Lower-casing leaves spaces in place and never makes a space. */
  lemma {:induction false} LowerSpaces(s: string)
    ensures IsStripped(s) ==> IsStripped(Lower(s))
    ensures AllSpace(s) ==> Lower(s) == s
  {
    if s != [] {
      LowerSpaces(s[1..]);
      LowerLast(s);
    }
  }

  /** Case mapping keeps spaces spaces and non-spaces non-spaces, so it
      commutes with strip. */
  lemma StripLower(y: string)
    ensures Strip(Lower(y)) == Lower(Strip(y))
  {
    LStripLower(y);
    RStripLower(LStrip(y));
  }

  lemma {:induction false} LStripLower(y: string)
    ensures LStrip(Lower(y)) == Lower(LStrip(y))
  {
    if y != [] {
      var l := Lower(y);
      assert l[0] == LowerChar(y[0]) && l[1..] == Lower(y[1..]);
      LowerCharSpace(y[0]);
      LStripLower(y[1..]);
    }
  }

  lemma {:induction false} RStripLower(y: string)
    ensures RStrip(Lower(y)) == Lower(RStrip(y))
  {
    if y != [] {
      var n := |y| - 1;
      assert y == y[..n] + [y[n]];
      LowerAppend(y[..n], [y[n]]);
      var l := Lower(y);
      assert l[..n] == Lower(y[..n]) && l[n] == LowerChar(y[n]);
      LowerCharSpace(y[n]);
      RStripLower(y[..n]);
    }
  }

  lemma LowerCharSpace(c: char)
    ensures IsSpace(LowerChar(c)) == IsSpace(c)
    ensures IsSpace(c) ==> LowerChar(c) == c
  {
  }

  lemma {:induction false} LowerLast(s: string)
    requires s != []
    ensures Lower(s)[|s| - 1] == LowerChar(s[|s| - 1])
  {
    if |s| > 1 {
      LowerLast(s[1..]);
    }
  }

  /** A character that lower-casing neither produces nor changes stays
      absent. */
  lemma {:induction false} LowerKeepsAbsent(s: string, c: char)
    requires c !in s && !('A' <= c <= 'Z') && !('a' <= c <= 'z')
    ensures c !in Lower(s)
  {
    if s != [] {
      LowerKeepsAbsent(s[1..], c);
    }
  }

  // ----- character replacement (`str.replace` with one-character patterns) -----

  function RemoveChar(s: string, c: char): (r: string)
    ensures c !in r && |r| <= |s|
  {
    if s == [] then []
    else (if s[0] == c then [] else [s[0]]) + RemoveChar(s[1..], c)
  }

  function ReplaceChar(s: string, c: char, d: char): (r: string)
    ensures |r| == |s|
    ensures c != d ==> c !in r
  {
    if s == [] then [] else [if s[0] == c then d else s[0]] + ReplaceChar(s[1..], c, d)
  }

  lemma {:induction false} RemoveCharAppend(a: string, b: string, c: char)
    ensures RemoveChar(a + b, c) == RemoveChar(a, c) + RemoveChar(b, c)
  {
    if a != [] {
      assert (a + b)[0] == a[0];
      assert (a + b)[1..] == a[1..] + b;
      RemoveCharAppend(a[1..], b, c);
    } else {
      assert a + b == b;
    }
  }

  lemma {:induction false} ReplaceCharAppend(a: string, b: string, c: char, d: char)
    ensures ReplaceChar(a + b, c, d) == ReplaceChar(a, c, d) + ReplaceChar(b, c, d)
  {
    if a != [] {
      assert (a + b)[0] == a[0];
      assert (a + b)[1..] == a[1..] + b;
      ReplaceCharAppend(a[1..], b, c, d);
    } else {
      assert a + b == b;
    }
  }

  lemma {:induction false} RemoveCharAbsent(s: string, c: char)
    requires c !in s
    ensures RemoveChar(s, c) == s
  {
    if s != [] {
      RemoveCharAbsent(s[1..], c);
    }
  }

  lemma {:induction false} ReplaceCharAbsent(s: string, c: char, d: char)
    requires c !in s
    ensures ReplaceChar(s, c, d) == s
  {
    if s != [] {
      ReplaceCharAbsent(s[1..], c, d);
    }
  }

  /** Replacing one character by another leaves a third one absent. */
  lemma {:induction false} ReplaceCharKeepsAbsent(s: string, c: char, d: char, e: char)
    requires e !in s && e != d
    ensures e !in ReplaceChar(s, c, d)
  {
    if s != [] {
      ReplaceCharKeepsAbsent(s[1..], c, d, e);
    }
  }

  /** Replacing a space by a space keeps all-space text all space. */
  lemma {:induction false} ReplaceCharSpaces(s: string, c: char, d: char)
    requires AllSpace(s) && IsSpace(d)
    ensures AllSpace(ReplaceChar(s, c, d))
  {
    if s != [] {
      ReplaceCharSpaces(s[1..], c, d);
    }
  }

  // ----- digits -----

  predicate IsDigit(c: char) { '0' <= c <= '9' }

  predicate AllDigits(s: string) {
    forall i :: 0 <= i < |s| ==> IsDigit(s[i])
  }

  function DigitValue(c: char): nat
    requires IsDigit(c)
  {
    c as int - '0' as int
  }

  function DigitChar(d: nat): (c: char)
    requires d < 10
    ensures IsDigit(c) && DigitValue(c) == d
  {
    ('0' as int + d) as char
  }

  /** `re.sub(r"\D+", "", s)`: the digits of `s`, in order. */
  function Digits(s: string): (r: string)
    ensures AllDigits(r) && |r| <= |s|
  {
    if s == [] then []
    else (if IsDigit(s[0]) then [s[0]] else []) + Digits(s[1..])
  }

  /** The filter drops exactly the non-digit characters: every digit of
      the input occurs in the output as often as in the input. */
  lemma {:induction false} DigitsKeepsEveryDigit(s: string, c: char)
    ensures multiset(Digits(s))[c] == if IsDigit(c) then multiset(s)[c] else 0
  {
    if s != [] {
      var rest := s[1..];
      var head := if IsDigit(s[0]) then [s[0]] else [];
      DigitsKeepsEveryDigit(rest, c);
      assert s == [s[0]] + rest;
      assert multiset(s) == multiset([s[0]]) + multiset(rest);
      assert Digits(s) == head + Digits(rest);
      assert multiset(Digits(s)) == multiset(head) + multiset(Digits(rest));
    }
  }

  /** The digit filter distributes over concatenation, so punctuation
      anywhere in the text never changes which digits survive. */
  lemma {:induction false} DigitsAppend(a: string, b: string)
    ensures Digits(a + b) == Digits(a) + Digits(b)
  {
    if a != [] {
      assert (a + b)[0] == a[0];
      assert (a + b)[1..] == a[1..] + b;
      DigitsAppend(a[1..], b);
    } else {
      assert a + b == b;
    }
  }

  /** The filter leaves nothing exactly when the text has no digit. */
  lemma {:induction false} DigitsEmpty(s: string)
    ensures Digits(s) == [] <==> forall i :: 0 <= i < |s| ==> !IsDigit(s[i])
  {
    if s != [] {
      DigitsEmpty(s[1..]);
      assert forall i :: 1 <= i < |s| ==> s[i] == s[1..][i - 1];
    }
  }

  /** Text that is digits only passes through the filter unchanged. */
  lemma {:induction false} DigitsOfDigits(s: string)
    requires AllDigits(s)
    ensures Digits(s) == s
  {
    if s != [] {
      DigitsOfDigits(s[1..]);
    }
  }

  // ----- `str.replace(pat, "")` and `str.upper().startswith(...)` -----

  /** `s.replace(pat, "")`: every occurrence of `pat`, scanning left to
      right without overlap, is deleted. */
  function RemoveAll(s: string, pat: string): (r: string)
    requires pat != []
    ensures |r| <= |s|
    decreases |s|
  {
    if |s| >= |pat| && s[..|pat|] == pat then RemoveAll(s[|pat|..], pat)
    else if s == [] then []
    else [s[0]] + RemoveAll(s[1..], pat)
  }

  /** A leading occurrence is deleted. */
  lemma RemoveAllPrefix(pat: string, x: string)
    requires pat != []
    ensures RemoveAll(pat + x, pat) == RemoveAll(x, pat)
  {
    assert (pat + x)[..|pat|] == pat;
    assert (pat + x)[|pat|..] == x;
  }

  /** Text that does not contain the pattern's first character is left
      alone. */
  lemma {:induction false} RemoveAllAbsent(s: string, pat: string)
    requires pat != [] && pat[0] !in s
    ensures RemoveAll(s, pat) == s
  {
    if s != [] {
      assert s[0] != pat[0];
      RemoveAllAbsent(s[1..], pat);
    }
  }

  /** `s.upper().startswith(p)`. */
  predicate UpperStartsWith(s: string, p: string) {
    |p| <= |s| && Upper(s)[..|p|] == p
  }

  lemma {:induction false} UpperAppend(a: string, b: string)
    ensures Upper(a + b) == Upper(a) + Upper(b)
  {
    if a != [] {
      assert (a + b)[1..] == a[1..] + b;
      UpperAppend(a[1..], b);
    } else {
      assert a + b == b;
    }
  }

  /** Only the prefix matters for `upper().startswith`. */
  lemma UpperStartsWithPrefix(p: string, x: string, q: string)
    requires Upper(p) == q
    ensures UpperStartsWith(p + x, q)
  {
    UpperAppend(p, x);
  }

  // ----- Python int() on base-10 text -----

  /** Python's grammar for the digits of a base-10 int literal:
      digit (["_"] digit)*.  */
  predicate IsDigitPart(t: string) {
    && |t| > 0 && IsDigit(t[0]) && IsDigit(t[|t| - 1])
    && (forall i :: 0 <= i < |t| ==> IsDigit(t[i]) || t[i] == '_')
    && (forall i :: 0 <= i < |t| - 1 ==> !(t[i] == '_' && t[i + 1] == '_'))
  }

  /** The number a digit part denotes; underscores are only separators. */
  function DigitPartValue(t: string): nat
    requires forall i :: 0 <= i < |t| ==> IsDigit(t[i]) || t[i] == '_'
  {
    if t == [] then 0
    else if t[|t| - 1] == '_' then DigitPartValue(t[..|t| - 1])
    else DigitPartValue(t[..|t| - 1]) * 10 + DigitValue(t[|t| - 1])
  }

  /** `int(s)` with base 10: surrounding whitespace is ignored, then the
      literal is read; anything else raises ValueError (`None`). */
  function PyInt(s: string): Option<int> {
    IntLiteral(Strip(s))
  }

  /** One optional sign, then a digit part. */
  function IntLiteral(t: string): Option<int> {
    if |t| > 0 && (t[0] == '+' || t[0] == '-') then
      var u := t[1..];
      if IsDigitPart(u) then
        var v: int := DigitPartValue(u);
        Some(if t[0] == '-' then -v else v)
      else None
    else if IsDigitPart(t) then Some(DigitPartValue(t))
    else None
  }

  /** Whitespace around a literal does not matter. */
  lemma PyIntPadded(ws1: string, t: string, ws2: string)
    requires AllSpace(ws1) && AllSpace(ws2) && IsStripped(t)
    ensures PyInt(ws1 + t + ws2) == IntLiteral(t)
  {
    StripPadded(ws1, t, ws2);
  }

  lemma PyIntStripped(t: string)
    requires IsStripped(t)
    ensures PyInt(t) == IntLiteral(t)
  {
    StripOfStripped(t);
  }

  /** A character other than a digit or an underscore after the first
      position makes `int()` fail. */
  lemma IntLiteralBadChar(t: string, i: int)
    requires 1 <= i < |t| && !IsDigit(t[i]) && t[i] != '_'
    ensures IntLiteral(t) == None
  {
    assert t[1..][i - 1] == t[i];
  }

  /** So does a first character that is neither a sign nor a digit. */
  lemma IntLiteralBadStart(t: string)
    requires |t| > 0 && !IsDigit(t[0]) && t[0] != '+' && t[0] != '-'
    ensures IntLiteral(t) == None
  {
  }

  /** Python's `str()` of a natural number: decimal digits, no leading zero. */
  function ShowNat(n: nat): (r: string)
    ensures |r| > 0 && AllDigits(r)
    ensures |r| > 1 ==> r[0] != '0'
  {
    if n < 10 then [DigitChar(n)] else ShowNat(n / 10) + [DigitChar(n % 10)]
  }

  /** Python's `str()` of an int. */
  function Show(n: int): (r: string)
    ensures |r| > 0
  {
    if n < 0 then "-" + ShowNat(-n) else ShowNat(n)
  }

  lemma {:induction false} ShowNatValue(n: nat)
    ensures IsDigitPart(ShowNat(n)) && DigitPartValue(ShowNat(n)) == n
  {
    if n >= 10 {
      ShowNatValue(n / 10);
      var s := ShowNat(n);
      assert s[..|s| - 1] == ShowNat(n / 10);
    }
  }

  lemma ShowStripped(n: int)
    ensures IsStripped(Show(n))
  {
    var s := Show(n);
    if n < 0 {
      assert s[1..] == ShowNat(-n);
      assert s[|s| - 1] == ShowNat(-n)[|ShowNat(-n)| - 1];
    }
  }

  /** `int(str(n)) == n`, and `int()` tolerates whitespace around the
      number: the decimal rendering, padded with any spaces, reads back
      as itself. */
  lemma PyIntShow(ws1: string, n: int, ws2: string)
    requires AllSpace(ws1) && AllSpace(ws2)
    ensures PyInt(ws1 + Show(n) + ws2) == Some(n)
  {
    ShowStripped(n);
    PyIntPadded(ws1, Show(n), ws2);
    IntLiteralShow(n);
  }

  lemma IntLiteralShow(n: int)
    ensures IntLiteral(Show(n)) == Some(n)
  {
    var s := Show(n);
    if n < 0 {
      ShowNatValue(-n);
      assert s[1..] == ShowNat(-n);
    } else {
      ShowNatValue(n);
    }
  }

  /** An explicit plus sign is accepted too. */
  lemma IntLiteralPlusShow(n: nat)
    ensures IntLiteral("+" + Show(n)) == Some(n)
  {
    var s := "+" + Show(n);
    ShowNatValue(n);
    assert s[1..] == ShowNat(n);
  }

  // ----- fixed-width zero-padded decimal (strftime's %m, %d, %H, ...) -----

  function Pow10(w: nat): (p: nat)
    ensures p >= 1
  {
    if w == 0 then 1 else 10 * Pow10(w - 1)
  }

  /** `n` written with exactly `w` digits, leading zeros added. */
  function ZeroPad(n: nat, w: nat): (r: string)
    requires n < Pow10(w)
    ensures |r| == w && AllDigits(r)
  {
    if w == 0 then [] else ZeroPad(n / 10, w - 1) + [DigitChar(n % 10)]
  }

  /** Reading a zero-padded field back gives the number written. */
  lemma {:induction false} ZeroPadValue(n: nat, w: nat)
    requires n < Pow10(w)
    ensures DigitPartValue(ZeroPad(n, w)) == n
  {
    if w > 0 {
      ZeroPadValue(n / 10, w - 1);
      var s := ZeroPad(n, w);
      assert s[..|s| - 1] == ZeroPad(n / 10, w - 1);
    }
  }

  /** Zero padding to a fixed width is injective. */
  lemma ZeroPadInjective(n: nat, m: nat, w: nat)
    requires n < Pow10(w) && m < Pow10(w)
    requires ZeroPad(n, w) == ZeroPad(m, w)
    ensures n == m
  {
    ZeroPadValue(n, w);
    ZeroPadValue(m, w);
  }
}
