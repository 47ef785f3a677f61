/** `datetime.strptime` for the directives the loader's formats use
    (main.py:33-42, 128), as CPython's `_strptime` implements it: the format
    becomes a regular expression (each directive a fixed alternation, each
    whitespace run `\s+`), the expression is matched case-insensitively at
    the start of the text with backtracking, the match must reach the end
    of the text, and the captured numbers must form a real `datetime`.
    Every failure is a ValueError, here `None`. */
module Strptime {
  import opened Wrappers
  import opened Text
  import opened Calendar

  datatype Directive = Year4 | Year2 | Month | Day | Hour24 | Hour12 | Minute | Second | AmPm

  /** One element of a compiled format: a directive's group, a literal
      character, or `\s+`, which `_strptime` puts in place of every run of
      whitespace in the format.  A format is the sequence of its pieces:
      `"%m/%d/%y %H:%M"` is `[Field(Month), Lit('/'), Field(Day),
      Lit('/'), Field(Year2), Gap, Field(Hour24), Lit(':'), Field(Minute)]`. */
  datatype Piece = Field(d: Directive) | Lit(c: char) | Gap

  // ----- the directives' regular expressions -----

  /** A character class `[lo-hi]` (a single character when `lo == hi`). */
  datatype Span = Span(lo: char, hi: char)

  const Dig: Span := Span('0', '9')

  function One(c: char): Span { Span(c, c) }

  /** One alternative of a group: one or two character classes, or the
      four digits `\d\d\d\d`. */
  datatype Alt = Single(a: Span) | Pair(a: Span, b: Span) | FourDigits

  function AltLen(alt: Alt): nat {
    match alt
    case Single(_) => 1
    case Pair(_, _) => 2
    case FourDigits => 4
  }

  /** The alternatives of each directive's group, in the order the
      expression tries them:
      `%Y` `\d\d\d\d`, `%y` `\d\d`, `%m` and `%I` `1[0-2]|0[1-9]|[1-9]`,
      `%d` `3[01]|[12]\d|0[1-9]|[1-9]| [1-9]`, `%H` `2[0-3]|[0-1]\d|\d`,
      `%M` `[0-5]\d|\d`, `%S` `6[0-1]|[0-5]\d|\d`, `%p` `am|pm`. */
  function Alternatives(d: Directive): seq<Alt> {
    match d
    case Year4 => [FourDigits]
    case Year2 => [Pair(Dig, Dig)]
    case Month => [Pair(One('1'), Span('0', '2')), Pair(One('0'), Span('1', '9')), Single(Span('1', '9'))]
    case Hour12 => [Pair(One('1'), Span('0', '2')), Pair(One('0'), Span('1', '9')), Single(Span('1', '9'))]
    case Day => [Pair(One('3'), Span('0', '1')), Pair(Span('1', '2'), Dig), Pair(One('0'), Span('1', '9')),
                 Single(Span('1', '9')), Pair(One(' '), Span('1', '9'))]
    case Hour24 => [Pair(One('2'), Span('0', '3')), Pair(Span('0', '1'), Dig), Single(Dig)]
    case Minute => [Pair(Span('0', '5'), Dig), Single(Dig)]
    case Second => [Pair(One('6'), Span('0', '1')), Pair(Span('0', '5'), Dig), Single(Dig)]
    case AmPm => [Pair(One('a'), One('m')), Pair(One('p'), One('m'))]
  }

  /** A character of the text matches a class; the expression is compiled
      with IGNORECASE, which only matters for the letters of `am`/`pm`. */
  predicate Fits(c: char, s: Span) {
    s.lo <= LowerChar(c) <= s.hi
  }

  predicate FitsAt(t: string, pos: nat, alt: Alt) {
    pos + AltLen(alt) <= |t| &&
    match alt
    case Single(a) => Fits(t[pos], a)
    case Pair(a, b) => Fits(t[pos], a) && Fits(t[pos + 1], b)
    case FourDigits => IsDigit(t[pos]) && IsDigit(t[pos + 1]) && IsDigit(t[pos + 2]) && IsDigit(t[pos + 3])
  }

  /** `int()` of the characters an alternative took: a space in front is
      ignored (the ` [1-9]` alternative of `%d`), the rest are digits. */
  function NumberAt(t: string, pos: nat, alt: Alt): int
    requires pos + AltLen(alt) <= |t|
  {
    match alt
    case Single(_) => Val(t[pos])
    case Pair(_, _) => if t[pos] == ' ' then Val(t[pos + 1]) else Val(t[pos]) * 10 + Val(t[pos + 1])
    case FourDigits => Val(t[pos]) * 1000 + Val(t[pos + 1]) * 100 + Val(t[pos + 2]) * 10 + Val(t[pos + 3])
  }

  function Val(c: char): int {
    c as int - '0' as int
  }

  /** One way a piece can match at a position: how many characters it
      takes and the value it captures (for `%p`, 0 for am and 1 for pm). */
  datatype Way = Way(len: nat, value: int)

  /** The ways of a group from its `k`-th alternative on: one way per
      alternative that fits at `pos`, in order.  `ampm` says the group is
      `%p`, whose value is the alternative's index. */
  function AltWays(alts: seq<Alt>, ampm: bool, k: nat, t: string, pos: nat): seq<Way>
    decreases |alts| - k
  {
    if k >= |alts| then []
    else
      var here :=
        if FitsAt(t, pos, alts[k]) then
          [Way(AltLen(alts[k]), if ampm then k else NumberAt(t, pos, alts[k]))]
        else [];
      here + AltWays(alts, ampm, k + 1, t, pos)
  }

  function FieldWays(d: Directive, t: string, pos: nat): seq<Way> {
    AltWays(Alternatives(d), d == AmPm, 0, t, pos)
  }

  /** How many whitespace characters follow `pos`. */
  function SpaceRun(t: string, pos: nat): (n: nat)
    ensures pos <= |t| ==> pos + n <= |t|
    decreases |t| - pos
  {
    if pos < |t| && IsSpace(t[pos]) then 1 + SpaceRun(t, pos + 1) else 0
  }

  /** The greedy `\s+`: the longest run first, then shorter ones down to one. */
  function GapWays(n: nat): (ws: seq<Way>)
    ensures forall w :: w in ws ==> 1 <= w.len <= n
  {
    if n == 0 then [] else [Way(n, 0)] + GapWays(n - 1)
  }

  /** Every way a piece can match at `pos`, in the order the expression
      tries them. */
  function Ways(p: Piece, t: string, pos: nat): seq<Way> {
    match p
    case Field(d) => FieldWays(d, t, pos)
    case Lit(c) => if pos < |t| && t[pos] == c then [Way(1, 0)] else []
    case Gap => GapWays(SpaceRun(t, pos))
  }

  // ----- backtracking match -----

  /** Where the ways of each piece come from; the matcher below is stated
      for any such source and used with `Ways`. */
  type WaySource = (Piece, string, nat) -> seq<Way>

  /** The groups captured so far and where the match ends. */
  datatype Capture = Capture(fields: map<Directive, int>, end: nat)

  function Keep(p: Piece, v: int, c: Capture): Capture {
    if p.Field? then c.(fields := c.fields[p.d := v]) else c
  }

  /** `re.match`: the first way, in the expression's priority order, in
      which the pieces from index `i` on match one after another from
      `pos`; the text after the match is not looked at. */
  function Match(ways: WaySource, ps: seq<Piece>, i: nat, t: string, pos: nat): (r: Option<Capture>)
    requires i <= |ps| && pos <= |t|
    ensures r.Some? ==> pos <= r.value.end <= |t|
    decreases |ps| - i, 1, 0
  {
    if i == |ps| then Some(Capture(map[], pos))
    else TryWays(ways, ps, i, ways(ps[i], t, pos), 0, t, pos)
  }

  /** Try piece `i`'s ways from the `j`-th on; the first one after which
      the remaining pieces match wins, otherwise backtrack to the next.  A
      way running past the end of the text is passed over; `Ways` never
      yields one (WaysFit). */
  function TryWays(ways: WaySource, ps: seq<Piece>, i: nat, ws: seq<Way>, j: nat, t: string, pos: nat): (r: Option<Capture>)
    requires i < |ps| && j <= |ws| && pos <= |t|
    ensures r.Some? ==> pos <= r.value.end <= |t|
    decreases |ps| - i, 0, |ws| - j
  {
    if j == |ws| then None
    else if pos + ws[j].len > |t| then TryWays(ways, ps, i, ws, j + 1, t, pos)
    else
      match Match(ways, ps, i + 1, t, pos + ws[j].len)
      case Some(c) => Some(Keep(ps[i], ws[j].value, c))
      case None => TryWays(ways, ps, i, ws, j + 1, t, pos)
  }

  // ----- from captured groups to a datetime -----

  /** `%y`: 69-99 are the 1900s, 00-68 the 2000s. */
  function Century(y: int): int {
    if y <= 68 then y + 2000 else y + 1900
  }

  /** `%I` with `%p`: 12 AM is hour 0, 12 PM hour 12, other PM hours gain
      12; without an indicator the hour is read as AM. */
  function TwelveHour(h: int, pm: bool): int {
    if !pm then (if h == 12 then 0 else h)
    else if h == 12 then 12 else h + 12
  }

  function FieldOr(f: map<Directive, int>, d: Directive, default: int): int {
    if d in f then f[d] else default
  }

  /** The datetime the groups describe (year 1900, January, day 1 and
      midnight when a group is absent), or `None` when `datetime` would
      reject it: a day past the end of the month, year 0, second 60 or 61.
      Each of the loader's formats has one year group and one hour group. */
  function Convert(f: map<Directive, int>): (r: Option<DateTime>)
    ensures r.Some? ==> Valid(r.value)
  {
    var year :=
      if Year4 in f then f[Year4] else if Year2 in f then Century(f[Year2]) else 1900;
    var hour :=
      if Hour24 in f then f[Hour24]
      else if Hour12 in f then TwelveHour(f[Hour12], FieldOr(f, AmPm, 0) == 1)
      else 0;
    var dt := DateTime(year, FieldOr(f, Month, 1), FieldOr(f, Day, 1), hour,
                       FieldOr(f, Minute, 0), FieldOr(f, Second, 0));
    if Valid(dt) then Some(dt) else None
  }

  /** `datetime.strptime(txt, fmt)`, `None` standing for ValueError: the
      match must consume the whole text ("unconverted data remains"
      otherwise) and its groups must form a valid datetime. */
  function Parse(txt: string, fmt: seq<Piece>): (r: Option<DateTime>)
    ensures r.Some? ==> Valid(r.value)
  {
    match Match(Ways, fmt, 0, txt, 0)
    case None => None
    case Some(c) => if c.end == |txt| then Convert(c.fields) else None
  }

  // ----- every way stays inside the text -----

  /** Every way of a group comes from an alternative that fits there. */
  lemma {:induction false} AltWayFits(alts: seq<Alt>, ampm: bool, k: nat, t: string, pos: nat, n: nat) returns (j: nat)
    requires n < |AltWays(alts, ampm, k, t, pos)|
    ensures var w := AltWays(alts, ampm, k, t, pos)[n];
      k <= j < |alts| && FitsAt(t, pos, alts[j]) && w.len == AltLen(alts[j])
    decreases |alts| - k
  {
    var ws := AltWays(alts, ampm, k, t, pos);
    if FitsAt(t, pos, alts[k]) {
      if n == 0 {
        j := k;
      } else {
        assert ws[n] == AltWays(alts, ampm, k + 1, t, pos)[n - 1];
        j := AltWayFits(alts, ampm, k + 1, t, pos, n - 1);
      }
    } else {
      assert ws == AltWays(alts, ampm, k + 1, t, pos);
      j := AltWayFits(alts, ampm, k + 1, t, pos, n);
    }
  }

  /** No way of a piece runs past the end of the text, so the matcher's
      guard against that never fires. */
  lemma WaysFit(p: Piece, t: string, pos: nat, w: Way)
    requires pos <= |t| && w in Ways(p, t, pos)
    ensures pos + w.len <= |t|
  {
    var ws := Ways(p, t, pos);
    var n :| 0 <= n < |ws| && ws[n] == w;
    if p.Field? {
      var j := AltWayFits(Alternatives(p.d), p.d == AmPm, 0, t, pos, n);
    }
  }

  // ----- stepping through a match -----

  /** When a way of piece `i` leads to a match of the rest, the search
      over the ways from there on stops at it. */
  lemma TryTakesWay(ways: WaySource, ps: seq<Piece>, i: nat, ws: seq<Way>, j: nat, t: string, pos: nat, c: Capture)
    requires i < |ps| && j < |ws| && pos + ws[j].len <= |t|
    requires Match(ways, ps, i + 1, t, pos + ws[j].len) == Some(c)
    ensures TryWays(ways, ps, i, ws, j, t, pos) == Some(Keep(ps[i], ws[j].value, c))
  {
  }

  /** A way after which the rest fails is passed over. */
  lemma TrySkipsWay(ways: WaySource, ps: seq<Piece>, i: nat, ws: seq<Way>, j: nat, t: string, pos: nat)
    requires i < |ps| && j < |ws| && pos + ws[j].len <= |t|
    requires Match(ways, ps, i + 1, t, pos + ws[j].len).None?
    ensures TryWays(ways, ps, i, ws, j, t, pos) == TryWays(ways, ps, i, ws, j + 1, t, pos)
  {
  }

  /** `w` is the first way of piece `p` at `pos`, and it stays inside
      the text. */
  ghost predicate FirstWay(ways: WaySource, p: Piece, t: string, pos: nat, w: Way) {
    |ways(p, t, pos)| > 0 && ways(p, t, pos)[0] == w && pos + w.len <= |t|
  }

  /** When the first way of piece `i` leads to a match of the rest, that
      is the match: later ways are never tried. */
  lemma MatchFirstWay(ways: WaySource, ps: seq<Piece>, i: nat, t: string, pos: nat, w: Way, c: Capture)
    requires i < |ps| && FirstWay(ways, ps[i], t, pos, w)
    requires Match(ways, ps, i + 1, t, pos + w.len) == Some(c)
    ensures Match(ways, ps, i, t, pos) == Some(Keep(ps[i], w.value, c))
  {
    TryTakesWay(ways, ps, i, ways(ps[i], t, pos), 0, t, pos, c);
  }

  /** Every piece from `i` on takes its first way, `path[i]`, each one
      starting where the one before it ended, and the last one ends at
      `end`. */
  ghost predicate FirstWaysAlong(ways: WaySource, ps: seq<Piece>, path: seq<Way>, i: nat, t: string, pos: nat, end: nat)
    requires i <= |ps| == |path|
    decreases |ps| - i
  {
    if i == |ps| then pos == end
    else FirstWay(ways, ps[i], t, pos, path[i]) && FirstWaysAlong(ways, ps, path, i + 1, t, pos + path[i].len, end)
  }

  /** The groups a path of ways captures from piece `i` on. */
  function Collected(ps: seq<Piece>, path: seq<Way>, i: nat): map<Directive, int>
    requires i <= |ps| == |path|
    decreases |ps| - i
  {
    if i == |ps| then map[]
    else
      var m := Collected(ps, path, i + 1);
      if ps[i].Field? then m[ps[i].d := path[i].value] else m
  }

  /** A match in which every piece takes its first way is that path: its
      groups are the path's and it ends where the path ends. */
  lemma {:induction false} MatchAlongFirstWays(ways: WaySource, ps: seq<Piece>, path: seq<Way>, i: nat, t: string, pos: nat, end: nat)
    requires i <= |ps| == |path| && pos <= |t| && FirstWaysAlong(ways, ps, path, i, t, pos, end)
    ensures Match(ways, ps, i, t, pos) == Some(Capture(Collected(ps, path, i), end))
    decreases |ps| - i
  {
    if i < |ps| {
      var w := path[i];
      MatchAlongFirstWays(ways, ps, path, i + 1, t, pos + w.len, end);
      MatchFirstWay(ways, ps, i, t, pos, w, Capture(Collected(ps, path, i + 1), end));
    }
  }

  /** A format whose pieces take their first ways through the whole text
      parses to the datetime of the groups they capture. */
  lemma ParseAlongFirstWays(t: string, fmt: seq<Piece>, path: seq<Way>)
    requires |fmt| == |path| && FirstWaysAlong(Ways, fmt, path, 0, t, 0, |t|)
    ensures Parse(t, fmt) == Convert(Collected(fmt, path, 0))
  {
    MatchAlongFirstWays(Ways, fmt, path, 0, t, 0, |t|);
  }

  /** A piece with a single way leaves nothing to backtrack into. */
  lemma MatchOnlyWay(ways: WaySource, ps: seq<Piece>, i: nat, t: string, pos: nat, ws: seq<Way>)
    requires i < |ps| && ws == ways(ps[i], t, pos) && |ws| == 1 && pos + ws[0].len <= |t|
    ensures Match(ways, ps, i, t, pos)
         == match Match(ways, ps, i + 1, t, pos + ws[0].len)
            case Some(c) => Some(Keep(ps[i], ws[0].value, c))
            case None => None
  {
    var m := Match(ways, ps, i + 1, t, pos + ws[0].len);
    if m.Some? {
      TryTakesWay(ways, ps, i, ws, 0, t, pos, m.value);
    } else {
      TrySkipsWay(ways, ps, i, ws, 0, t, pos);
    }
  }

  /** A piece with no way at `pos` makes the whole match fail. */
  lemma MatchNoWay(ways: WaySource, ps: seq<Piece>, i: nat, t: string, pos: nat)
    requires i < |ps| && pos <= |t| && ways(ps[i], t, pos) == []
    ensures Match(ways, ps, i, t, pos) == None
  {
  }

  /** A single whitespace character before a non-space is one way of `\s+`. */
  lemma SingleGap(t: string, pos: nat)
    requires pos < |t| && IsSpace(t[pos])
    requires pos + 1 == |t| || !IsSpace(t[pos + 1])
    ensures Ways(Gap, t, pos) == [Way(1, 0)]
  {
    assert SpaceRun(t, pos + 1) == 0;
  }

  // ----- reading zero-padded fields -----

  /** The values each field of a zero-padded rendering can hold. */
  predicate InRange(d: Directive, n: int) {
    match d
    case Year4 => 0 <= n <= 9999
    case Year2 => 0 <= n <= 99
    case Month => 1 <= n <= 12
    case Hour12 => 1 <= n <= 12
    case Day => 1 <= n <= 31
    case Hour24 => 0 <= n <= 23
    case Minute => 0 <= n <= 59
    case Second => 0 <= n <= 59
    case AmPm => false
  }

  function Width(d: Directive): nat {
    if d == Year4 then 4 else 2
  }

  lemma TwoDigits(n: nat)
    requires n < 100
    ensures ZeroPad(n, 2) == [DigitChar(n / 10), DigitChar(n % 10)]
  {
    var q := n / 10;
    assert q < 10 && q / 10 == 0 && q % 10 == q;
    assert ZeroPad(n, 2) == ZeroPad(q, 1) + [DigitChar(n % 10)];
    assert ZeroPad(q, 1) == ZeroPad(0, 0) + [DigitChar(q)];
  }

  lemma FourDigitValue(n: nat)
    requires n < 10000
    ensures var z := ZeroPad(n, 4);
      Val(z[0]) * 1000 + Val(z[1]) * 100 + Val(z[2]) * 10 + Val(z[3]) == n
  {
    var q1 := n / 10;
    var q2 := q1 / 10;
    var q3 := q2 / 10;
    assert n == 10 * q1 + n % 10 && q1 == 10 * q2 + q1 % 10 && q2 == 10 * q3 + q2 % 10;
    assert q3 < 10 && q3 / 10 == 0 && q3 % 10 == q3;
    assert ZeroPad(q3, 1) == [DigitChar(q3)];
    assert ZeroPad(q2, 2) == [DigitChar(q3), DigitChar(q2 % 10)];
    assert ZeroPad(q1, 3) == [DigitChar(q3), DigitChar(q2 % 10), DigitChar(q1 % 10)];
    assert ZeroPad(n, 4) == [DigitChar(q3), DigitChar(q2 % 10), DigitChar(q1 % 10), DigitChar(n % 10)];
  }

  /** A field written zero-padded to its full width is read back whole by
      the first way of its group: the expression's alternatives are
      ordered so that the two-digit one that fits comes before the
      one-digit `[1-9]` or `\d`. */
  lemma PaddedFieldFirstWay(d: Directive, t: string, pos: nat, n: nat)
    requires InRange(d, n) && n < Pow10(Width(d))
    requires pos + Width(d) <= |t| && t[pos..pos + Width(d)] == ZeroPad(n, Width(d))
    ensures FirstWay(Ways, Field(d), t, pos, Way(Width(d), n))
  {
    var w := Width(d);
    assert t[pos..pos + w] == ZeroPad(n, w);
    if d == Year4 {
      assert forall i :: 0 <= i < 4 ==> t[pos + i] == ZeroPad(n, 4)[i];
      FourDigitValue(n);
      FirstFitting(Alternatives(d), false, t, pos, 0);
    } else {
      TwoDigits(n);
      assert t[pos] == ZeroPad(n, 2)[0] && t[pos + 1] == ZeroPad(n, 2)[1];
      PaddedTwoDigitField(d, t, pos, n);
    }
  }

  lemma PaddedTwoDigitField(d: Directive, t: string, pos: nat, n: nat)
    requires InRange(d, n) && d != Year4
    requires pos + 2 <= |t| && t[pos] == DigitChar(n / 10) && t[pos + 1] == DigitChar(n % 10)
    ensures |FieldWays(d, t, pos)| > 0 && FieldWays(d, t, pos)[0] == Way(2, n)
  {
    var hi, lo := t[pos], t[pos + 1];
    assert LowerChar(hi) == hi && LowerChar(lo) == lo;
    assert hi != ' ' && Val(hi) * 10 + Val(lo) == n;
    var k :=
      match d
      case Year2 => 0
      case Month => if n >= 10 then 0 else 1
      case Hour12 => if n >= 10 then 0 else 1
      case Day => if n >= 30 then 0 else if n >= 10 then 1 else 2
      case Hour24 => if n >= 20 then 0 else 1
      case Minute => 0
      case Second => 1;
    TwoCharAlternative(Alternatives(d), t, pos, k, n);
  }

  /** The two-character alternative `k` fits and every earlier one already
      fails on the first character. */
  lemma TwoCharAlternative(alts: seq<Alt>, t: string, pos: nat, k: nat, n: nat)
    requires k < |alts| && alts[k].Pair?
    requires pos + 2 <= |t| && t[pos] != ' ' && Val(t[pos]) * 10 + Val(t[pos + 1]) == n
    requires Fits(t[pos], alts[k].a) && Fits(t[pos + 1], alts[k].b)
    requires forall j :: 0 <= j < k ==> !alts[j].FourDigits? && !Fits(t[pos], alts[j].a)
    ensures |AltWays(alts, false, 0, t, pos)| > 0 && AltWays(alts, false, 0, t, pos)[0] == Way(2, n)
  {
    FirstFitting(alts, false, t, pos, k);
  }

  /** The first way comes from the first alternative that fits. */
  lemma FirstFitting(alts: seq<Alt>, ampm: bool, t: string, pos: nat, k: nat)
    requires k < |alts| && FitsAt(t, pos, alts[k])
    requires forall j :: 0 <= j < k ==> !FitsAt(t, pos, alts[j])
    ensures |AltWays(alts, ampm, 0, t, pos)| > 0
    ensures AltWays(alts, ampm, 0, t, pos)[0] == Way(AltLen(alts[k]), if ampm then k else NumberAt(t, pos, alts[k]))
  {
    FirstFittingFrom(alts, ampm, t, pos, 0, k);
  }

  lemma {:induction false} FirstFittingFrom(alts: seq<Alt>, ampm: bool, t: string, pos: nat, j: nat, k: nat)
    requires j <= k < |alts| && FitsAt(t, pos, alts[k])
    requires forall i :: j <= i < k ==> !FitsAt(t, pos, alts[i])
    ensures |AltWays(alts, ampm, j, t, pos)| > 0
    ensures AltWays(alts, ampm, j, t, pos)[0] == Way(AltLen(alts[k]), if ampm then k else NumberAt(t, pos, alts[k]))
    decreases k - j
  {
    if j < k {
      FirstFittingFrom(alts, ampm, t, pos, j + 1, k);
    }
  }

  // ----- the first way of each kind of piece -----

  lemma LitFirstWay(t: string, pos: nat, x: char)
    requires pos < |t| && t[pos] == x
    ensures Ways(Lit(x), t, pos) == [Way(1, 0)] && FirstWay(Ways, Lit(x), t, pos, Way(1, 0))
  {
  }

  /** A single whitespace character before a non-space: the only way of
      `\s+`. */
  lemma GapFirstWay(t: string, pos: nat)
    requires pos + 1 < |t| && IsSpace(t[pos]) && !IsSpace(t[pos + 1])
    ensures Ways(Gap, t, pos) == [Way(1, 0)] && FirstWay(Ways, Gap, t, pos, Way(1, 0))
  {
    SingleGap(t, pos);
  }

  lemma OneDigitFirstWay(d: Directive, t: string, pos: nat, n: nat)
    requires d == Month || d == Day
    requires 1 <= n <= 9 && pos + 1 < |t| && t[pos] == DigitChar(n) && t[pos + 1] == '/'
    ensures Ways(Field(d), t, pos) == [Way(1, n)] && FirstWay(Ways, Field(d), t, pos, Way(1, n))
  {
    OneDigitWays(d, t, pos, n);
  }

  /** `str()` of a month or day: one digit below ten, else the two digits
      zero padding would give. */
  lemma ShowNatSmall(n: nat)
    requires n < 100
    ensures ShowNat(n) == if n < 10 then [DigitChar(n)] else ZeroPad(n, 2)
  {
    if n >= 10 {
      TwoDigits(n);
      assert ShowNat(n / 10) == [DigitChar(n / 10)];
    }
  }

  /** A month or day written without padding in front of a `/` is read
      whole by the first way of its group: `1[0-2]` and `3[01]|[12]\d`
      come before the one-digit `[1-9]`. */
  lemma UnpaddedFirstWay(d: Directive, t: string, pos: nat, n: nat)
    requires (d == Month || d == Day) && InRange(d, n)
    requires pos + |ShowNat(n)| < |t| && t[pos..pos + |ShowNat(n)|] == ShowNat(n)
    requires t[pos + |ShowNat(n)|] == '/'
    ensures FirstWay(Ways, Field(d), t, pos, Way(|ShowNat(n)|, n))
  {
    ShowNatSmall(n);
    if n < 10 {
      assert t[pos] == t[pos..pos + 1][0];
      OneDigitFirstWay(d, t, pos, n);
    } else {
      assert Pow10(2) == 100;
      PaddedFieldFirstWay(d, t, pos, n);
    }
  }

  /** A month or day group takes one or two characters. */
  lemma MonthDayWayWidth(d: Directive, t: string, pos: nat, w: Way)
    requires (d == Month || d == Day) && w in FieldWays(d, t, pos)
    ensures 1 <= w.len <= 2
  {
    var ws := FieldWays(d, t, pos);
    var n :| 0 <= n < |ws| && ws[n] == w;
    var j := AltWayFits(Alternatives(d), false, 0, t, pos, n);
    MonthDayAltWidth(d, j);
  }

  lemma MonthDayAltWidth(d: Directive, j: nat)
    requires (d == Month || d == Day) && j < |Alternatives(d)|
    ensures 1 <= AltLen(Alternatives(d)[j]) <= 2
  {
  }

  /** When no way of piece `i` leads to a match of the rest, the search
      over its ways fails. */
  lemma {:induction false} TryWaysAllFail(ways: WaySource, ps: seq<Piece>, i: nat, ws: seq<Way>, j: nat, t: string, pos: nat)
    requires i < |ps| && j <= |ws| && pos <= |t|
    requires forall k :: j <= k < |ws| && pos + ws[k].len <= |t| ==> Match(ways, ps, i + 1, t, pos + ws[k].len).None?
    ensures TryWays(ways, ps, i, ws, j, t, pos).None?
    decreases |ws| - j
  {
    if j < |ws| {
      TryWaysAllFail(ways, ps, i, ws, j + 1, t, pos);
    }
  }

  /** A month or day group followed by a `/`, over one or two digits, a
      `/` and another digit: a way that takes fewer or more characters than
      the digits lands on a digit where the `/` should be, so backtracking
      into the group cannot rescue a rest that fails after the `/`. */
  lemma FieldBeforeSlash(ps: seq<Piece>, i: nat, t: string, pos: nat, n: nat)
    requires i + 1 < |ps| && (ps[i] == Field(Month) || ps[i] == Field(Day)) && ps[i + 1] == Lit('/')
    requires 1 <= n <= 2 && pos + n + 1 < |t|
    requires forall k :: pos <= k < pos + n ==> IsDigit(t[k])
    requires t[pos + n] == '/' && IsDigit(t[pos + n + 1])
    requires Match(Ways, ps, i + 2, t, pos + n + 1).None?
    ensures Match(Ways, ps, i, t, pos).None?
  {
    var ws := Ways(ps[i], t, pos);
    forall k | 0 <= k < |ws| && pos + ws[k].len <= |t|
      ensures Match(Ways, ps, i + 1, t, pos + ws[k].len).None?
    {
      SlashAfterWay(ps, i, t, pos, n, ws[k]);
    }
    TryWaysAllFail(Ways, ps, i, ws, 0, t, pos);
  }

  /** One way of the group in `FieldBeforeSlash`. */
  lemma SlashAfterWay(ps: seq<Piece>, i: nat, t: string, pos: nat, n: nat, w: Way)
    requires i + 1 < |ps| && (ps[i] == Field(Month) || ps[i] == Field(Day)) && ps[i + 1] == Lit('/')
    requires 1 <= n <= 2 && pos + n + 1 < |t|
    requires forall k :: pos <= k < pos + n ==> IsDigit(t[k])
    requires t[pos + n] == '/' && IsDigit(t[pos + n + 1])
    requires Match(Ways, ps, i + 2, t, pos + n + 1).None?
    requires w in Ways(ps[i], t, pos)
    ensures pos + w.len <= |t| && Match(Ways, ps, i + 1, t, pos + w.len).None?
  {
    MonthDayWayWidth(ps[i].d, t, pos, w);
    var e := pos + w.len;
    if w.len == n {
      LitFirstWay(t, e, '/');
      MatchOnlyWay(Ways, ps, i + 1, t, e, [Way(1, 0)]);
    } else {
      assert IsDigit(t[e]);
      assert Ways(Lit('/'), t, e) == [];
      MatchNoWay(Ways, ps, i + 1, t, e);
    }
  }

  /** Four digits are not there when a non-digit sits among them: `%Y`
      has no way. */
  lemma Year4NoWay(t: string, pos: nat, k: nat)
    requires k < 4 && pos + k < |t| && !IsDigit(t[pos + k])
    ensures Ways(Field(Year4), t, pos) == []
  {
    var alts := Alternatives(Year4);
    assert alts == [FourDigits] && !FitsAt(t, pos, FourDigits);
    assert AltWays(alts, false, 1, t, pos) == [];
    assert AltWays(alts, false, 0, t, pos) == [] + [];
  }

  /** An unpadded one-digit month or day in front of a `/`: the only way
      its group can take it is the `[1-9]` alternative. */
  lemma OneDigitWays(d: Directive, t: string, pos: nat, n: nat)
    requires d == Month || d == Day
    requires 1 <= n <= 9 && pos + 1 < |t| && t[pos] == DigitChar(n) && t[pos + 1] == '/'
    ensures Ways(Field(d), t, pos) == [Way(1, n)]
  {
    var alts := Alternatives(d);
    var k := if d == Month then 2 else 3;
    assert LowerChar(t[pos]) == t[pos] && LowerChar('/') == '/';
    assert forall j :: 0 <= j < |alts| ==> (FitsAt(t, pos, alts[j]) <==> j == k);
    assert AltWays(alts, false, k + 1, t, pos) == [];
    assert AltWays(alts, false, k, t, pos) == [Way(1, n)];
    if d == Day {
      assert AltWays(alts, false, 2, t, pos) == [Way(1, n)];
    }
    assert AltWays(alts, false, 1, t, pos) == [Way(1, n)];
  }

  // ----- separators are matched only by themselves -----

  /** The format's literal separators.  No group takes one (every
      character class is a space, digits or a letter of am/pm) and `\s+`
      takes only whitespace. */
  predicate Separator(x: char) {
    x == '-' || x == '/' || x == ':'
  }

  /** How often the literal `x` occurs among the pieces from index `i` on. */
  function LitCount(ps: seq<Piece>, i: nat, x: char): nat
    requires i <= |ps|
    decreases |ps| - i
  {
    if i == |ps| then 0 else (if ps[i] == Lit(x) then 1 else 0) + LitCount(ps, i + 1, x)
  }

  /** How often `x` occurs in `t[i..j]`. */
  function Occurrences(t: string, i: nat, j: nat, x: char): nat
    requires i <= j <= |t|
    decreases j - i
  {
    if i == j then 0 else (if t[i] == x then 1 else 0) + Occurrences(t, i + 1, j, x)
  }

  lemma {:induction false} OccurrencesSplit(t: string, i: nat, j: nat, k: nat, x: char)
    requires i <= j <= k <= |t|
    ensures Occurrences(t, i, k, x) == Occurrences(t, i, j, x) + Occurrences(t, j, k, x)
    decreases j - i
  {
    if i < j {
      OccurrencesSplit(t, i + 1, j, k, x);
    }
  }

  lemma {:induction false} OccurrencesNone(t: string, i: nat, j: nat, x: char)
    requires i <= j <= |t| && forall k :: i <= k < j ==> t[k] != x
    ensures Occurrences(t, i, j, x) == 0
    decreases j - i
  {
    if i < j {
      OccurrencesNone(t, i + 1, j, x);
    }
  }

  /** The count agrees with the text's multiset of characters. */
  lemma {:induction false} OccurrencesMultiset(t: string, i: nat, j: nat, x: char)
    requires i <= j <= |t|
    ensures Occurrences(t, i, j, x) == multiset(t[i..j])[x]
    decreases j - i
  {
    if i < j {
      OccurrencesMultiset(t, i + 1, j, x);
      assert t[i..j] == [t[i]] + t[i + 1..j];
    }
  }

  /** Way `w` of piece `p` takes one `x` when `p` is the literal `x`, and
      none otherwise. */
  predicate TakesOwnSeparator(p: Piece, t: string, pos: nat, w: Way, x: char)
    requires pos + w.len <= |t|
  {
    Occurrences(t, pos, pos + w.len, x) == if p == Lit(x) then 1 else 0
  }

  /** Every way the source offers takes only its own separator. */
  ghost predicate KeepsSeparators(ways: WaySource, x: char) {
    forall p: Piece, t: string, pos: nat, w: Way :: w in ways(p, t, pos) && pos + w.len <= |t| ==> TakesOwnSeparator(p, t, pos, w, x)
  }

  /** A successful match takes exactly as many copies of each separator
      from the text as the format has literals of it. */
  lemma {:induction false} MatchCountsSeparators(ways: WaySource, ps: seq<Piece>, i: nat, t: string, pos: nat, x: char, r: Capture)
    requires i <= |ps| && pos <= |t| && KeepsSeparators(ways, x) && Match(ways, ps, i, t, pos) == Some(r)
    ensures pos <= r.end <= |t| && Occurrences(t, pos, r.end, x) == LitCount(ps, i, x)
    decreases |ps| - i, 1
  {
    if i < |ps| {
      TryWaysCountsSeparators(ways, ps, i, ways(ps[i], t, pos), 0, t, pos, x, r);
    }
  }

  lemma {:induction false} TryWaysCountsSeparators(ways: WaySource, ps: seq<Piece>, i: nat, ws: seq<Way>, j: nat, t: string, pos: nat, x: char, r: Capture)
    requires i < |ps| && j <= |ws| && pos <= |t| && KeepsSeparators(ways, x)
    requires ws == ways(ps[i], t, pos) && TryWays(ways, ps, i, ws, j, t, pos) == Some(r)
    ensures pos <= r.end <= |t| && Occurrences(t, pos, r.end, x) == LitCount(ps, i, x)
    decreases |ps| - i, 0, |ws| - j
  {
    var w := ws[j];
    if pos + w.len > |t| {
      TryWaysCountsSeparators(ways, ps, i, ws, j + 1, t, pos, x, r);
    } else {
      var m := Match(ways, ps, i + 1, t, pos + w.len);
      if m.Some? {
        TryTakesWay(ways, ps, i, ws, j, t, pos, m.value);
        assert r.end == m.value.end;
        assert w in ws && TakesOwnSeparator(ps[i], t, pos, w, x);
        MatchCountsSeparators(ways, ps, i + 1, t, pos + w.len, x, m.value);
        OccurrencesSplit(t, pos, pos + w.len, r.end, x);
      } else {
        TrySkipsWay(ways, ps, i, ws, j, t, pos);
        TryWaysCountsSeparators(ways, ps, i, ws, j + 1, t, pos, x, r);
      }
    }
  }

  /** `Ways` takes separators only through literals. */
  lemma WaysKeepSeparators(x: char)
    requires Separator(x)
    ensures KeepsSeparators(Ways, x)
  {
    forall p: Piece, t: string, pos: nat, w: Way | w in Ways(p, t, pos) && pos + w.len <= |t|
      ensures TakesOwnSeparator(p, t, pos, w, x)
    {
      WayTakesSeparators(p, t, pos, w, x);
    }
  }

  /** One way of one piece takes a separator only when the piece is that
      literal. */
  lemma WayTakesSeparators(p: Piece, t: string, pos: nat, w: Way, x: char)
    requires Separator(x) && w in Ways(p, t, pos) && pos + w.len <= |t|
    ensures TakesOwnSeparator(p, t, pos, w, x)
  {
    match p
    case Field(d) =>
      FieldAvoidsSeparators(d, t, pos, w, x);
      OccurrencesNone(t, pos, pos + w.len, x);
    case Lit(c) =>
      assert Occurrences(t, pos + 1, pos + 1, x) == 0;
    case Gap =>
      SpaceRunIsSpace(t, pos);
      OccurrencesNone(t, pos, pos + w.len, x);
  }

  lemma FieldAvoidsSeparators(d: Directive, t: string, pos: nat, w: Way, x: char)
    requires Separator(x) && w in FieldWays(d, t, pos)
    ensures pos + w.len <= |t| && forall i :: pos <= i < pos + w.len ==> t[i] != x
  {
    var alts := Alternatives(d);
    var ws := FieldWays(d, t, pos);
    var n :| 0 <= n < |ws| && ws[n] == w;
    var j := AltWayFits(alts, d == AmPm, 0, t, pos, n);
    AlternativesClear(d, j);
  }

  /** No character class of any group admits a separator. */
  predicate SpanClear(sp: Span) {
    sp.hi == ' ' || ('0' <= sp.lo && sp.hi <= '9') || 'a' <= sp.lo
  }

  predicate AltClear(alt: Alt) {
    match alt
    case Single(a) => SpanClear(a)
    case Pair(a, b) => SpanClear(a) && SpanClear(b)
    case FourDigits => true
  }

  lemma AlternativesClear(d: Directive, j: nat)
    requires j < |Alternatives(d)|
    ensures AltClear(Alternatives(d)[j])
  {
  }

  lemma {:induction false} SpaceRunIsSpace(t: string, pos: nat)
    ensures forall i :: pos <= i < pos + SpaceRun(t, pos) ==> IsSpace(t[i])
    decreases |t| - pos
  {
    if pos < |t| && IsSpace(t[pos]) {
      SpaceRunIsSpace(t, pos + 1);
    }
  }

  /** A parse takes every separator of the text: the text has exactly as
      many of each as the format. */
  lemma ParseCountsSeparators(t: string, ps: seq<Piece>, x: char)
    requires Separator(x) && Parse(t, ps).Some?
    ensures multiset(t)[x] == LitCount(ps, 0, x)
  {
    var r := Match(Ways, ps, 0, t, 0).value;
    WaysKeepSeparators(x);
    MatchCountsSeparators(Ways, ps, 0, t, 0, x, r);
    OccurrencesMultiset(t, 0, |t|, x);
    assert t[0..|t|] == t;
  }
}
