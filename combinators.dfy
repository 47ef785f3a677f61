/** The two Python idioms the loader builds on: a search loop that returns
    the first candidate's result that is not `None` (column lookup over
    candidate names, lead-id lookup over identity columns, timestamp
    parsing over the ordered format list), and a dict comprehension in
    which a later entry overwrites an earlier one with the same key. */
module Combinators {
  import opened Wrappers

  /** The first `Some` that `f` produces when tried on `cs` in order, or
      `None` when every candidate fails.  This is the shape of a Python
      `for c in cs: ... return v` loop with a `return None` after it. */
  function FirstSome<C, T>(cs: seq<C>, f: C -> Option<T>): (r: Option<T>)
    ensures r.None? <==> forall i :: 0 <= i < |cs| ==> f(cs[i]).None?
    ensures r.Some? ==> exists i :: 0 <= i < |cs| && f(cs[i]) == r && FailsBefore(cs, f, i)
  {
    if |cs| == 0 then None
    else if f(cs[0]).Some? then
      assert FailsBefore(cs, f, 0);
      f(cs[0])
    else
      var r := FirstSome(cs[1..], f);
      if r.Some? then
        assert exists i :: 0 <= i < |cs| && f(cs[i]) == r && FailsBefore(cs, f, i) by {
          var i :| 0 <= i < |cs[1..]| && f(cs[1..][i]) == r && FailsBefore(cs[1..], f, i);
          assert cs[i + 1] == cs[1..][i];
          forall j | 0 <= j < i + 1 ensures f(cs[j]).None? {
            if j > 0 { assert cs[j] == cs[1..][j - 1]; }
          }
        }
        r
      else
        assert forall i :: 0 <= i < |cs[1..]| ==> f(cs[1..][i]).None?;
        assert forall i :: 1 <= i < |cs| ==> cs[i] == cs[1..][i - 1];
        r
  }

  /** Every candidate before position `i` fails. */
  ghost predicate FailsBefore<C, T>(cs: seq<C>, f: C -> Option<T>, i: int)
    requires i <= |cs|
  {
    forall j :: 0 <= j < i ==> f(cs[j]).None?
  }

  /** The winning candidate is unique: if candidate `i` succeeds and all
      before it fail, the search returns exactly what candidate `i` gave.
      This is the converse direction of the second ensures of FirstSome. */
  lemma {:induction false} FirstSomeAt<C, T>(cs: seq<C>, f: C -> Option<T>, i: int)
    requires 0 <= i < |cs| && f(cs[i]).Some? && FailsBefore(cs, f, i)
    ensures FirstSome(cs, f) == f(cs[i])
  {
    if i > 0 {
      assert f(cs[0]).None?;
      assert cs[1..][i - 1] == cs[i];
      assert FailsBefore(cs[1..], f, i - 1) by {
        forall j | 0 <= j < i - 1 ensures f(cs[1..][j]).None? {
          assert cs[1..][j] == cs[j + 1];
        }
      }
      FirstSomeAt(cs[1..], f, i - 1);
    }
  }

  /** Two searches whose candidates pointwise give the same answers agree. */
  lemma {:induction false} FirstSomeCongruent<C, T>(cs: seq<C>, ds: seq<C>, f: C -> Option<T>)
    requires |cs| == |ds|
    requires forall i :: 0 <= i < |cs| ==> f(cs[i]) == f(ds[i])
    ensures FirstSome(cs, f) == FirstSome(ds, f)
  {
    if |cs| > 0 {
      assert forall i :: 0 <= i < |cs| - 1 ==> cs[1..][i] == cs[i + 1] && ds[1..][i] == ds[i + 1];
      FirstSomeCongruent(cs[1..], ds[1..], f);
    }
  }

  /** Element `i` is the last one in `hs` whose key is `k`. */
  ghost predicate LastWith<H>(hs: seq<H>, key: H -> string, k: string, i: int) {
    && 0 <= i < |hs| && key(hs[i]) == k
    && forall j :: i < j < |hs| ==> key(hs[j]) != k
  }

  /** The dict comprehension `{key(h): h for h in hs}`, built the way
      Python builds it: entry by entry, so a later element overwrites an
      earlier one with the same key.  Its meaning is stated by the three
      lemmas below. */
  function IndexLastWins<H>(hs: seq<H>, key: H -> string): map<string, H> {
    if hs == [] then map[]
    else IndexLastWins(hs[..|hs| - 1], key)[key(hs[|hs| - 1]) := hs[|hs| - 1]]
  }

  /** Every element contributes its key. */
  lemma {:induction false} IndexLastWinsHas<H>(hs: seq<H>, key: H -> string, i: int)
    requires 0 <= i < |hs|
    ensures key(hs[i]) in IndexLastWins(hs, key)
  {
    if i < |hs| - 1 {
      var front := hs[..|hs| - 1];
      assert front[i] == hs[i];
      IndexLastWinsHas(front, key, i);
    }
  }

  /** The value under a key is the last element with that key. */
  lemma {:induction false} IndexLastWinsValue<H>(hs: seq<H>, key: H -> string, k: string, i: int)
    requires LastWith(hs, key, k, i)
    ensures k in IndexLastWins(hs, key) && IndexLastWins(hs, key)[k] == hs[i]
  {
    if i < |hs| - 1 {
      var front := hs[..|hs| - 1];
      assert key(hs[|hs| - 1]) != k;
      assert LastWith(front, key, k, i) by {
        forall j | i < j < |front| ensures key(front[j]) != k {
          assert front[j] == hs[j];
        }
      }
      IndexLastWinsValue(front, key, k, i);
    }
  }

  /** No key is invented: every key comes from some element. */
  lemma {:induction false} IndexLastWinsKeys<H>(hs: seq<H>, key: H -> string, k: string)
    requires k in IndexLastWins(hs, key)
    ensures exists i :: LastWith(hs, key, k, i)
  {
    var n := |hs| - 1;
    if key(hs[n]) == k {
      assert LastWith(hs, key, k, n);
    } else {
      var front := hs[..n];
      IndexLastWinsKeys(front, key, k);
      var i :| LastWith(front, key, k, i);
      assert front[i] == hs[i];
      assert LastWith(hs, key, k, i);
    }
  }
}
