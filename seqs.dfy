/**
 * The two sequence combinators the detectors use: `Array.prototype.filter`
 * and lodash's `_.uniq`.
 */
module Seqs {

  /** `r` can be obtained from `s` by deleting elements (matched greedily from the back). */
  ghost predicate IsSubsequence<T>(r: seq<T>, s: seq<T>)
    decreases |s|
  {
    if r == [] then true
    else if s == [] then false
    else if r[|r| - 1] == s[|s| - 1] then IsSubsequence(r[..|r| - 1], s[..|s| - 1])
    else IsSubsequence(r, s[..|s| - 1])
  }

  /** `s.filter(keep)`: the elements of `s` that `keep` accepts, in their original order. */
  function Filter<T>(s: seq<T>, keep: T -> bool): (r: seq<T>)
    ensures |r| <= |s|
    ensures forall i :: 0 <= i < |r| ==> keep(r[i])
    ensures multiset(r) <= multiset(s)
    ensures forall i :: 0 <= i < |s| && keep(s[i]) ==> multiset(r)[s[i]] == multiset(s)[s[i]]
    ensures IsSubsequence(r, s)
  {
    if s == [] then []
    else
      var p, x := s[..|s| - 1], s[|s| - 1];
      assert s == p + [x];
      var f := Filter(p, keep);
      forall i | 0 <= i < |p| ensures s[i] == p[i] { }
      if keep(x) then
        assert (f + [x])[..|f|] == f;
        f + [x]
      else
        SubsequenceOfAccepted(f, p, x, keep);
        f
  }

  /** A filtered prefix stays a subsequence when a rejected element is appended to the input. */
  lemma SubsequenceOfAccepted<T>(f: seq<T>, p: seq<T>, x: T, keep: T -> bool)
    requires IsSubsequence(f, p) && !keep(x)
    requires forall i :: 0 <= i < |f| ==> keep(f[i])
    ensures IsSubsequence(f, p + [x])
  {
    assert (p + [x])[..|p|] == p;
  }

  /** A prefix one longer is the prefix extended by the next element. */
  lemma TakeSnoc<T>(s: seq<T>, i: nat)
    requires i < |s|
    ensures s[..i + 1] == s[..i] + [s[i]]
  {
  }

  /** Filtering one more element extends the result by that element exactly when it is accepted. */
  lemma FilterSnoc<T>(s: seq<T>, x: T, keep: T -> bool)
    ensures Filter(s + [x], keep) == Filter(s, keep) + (if keep(x) then [x] else [])
  {
    assert (s + [x])[..|s|] == s;
  }

  /** No value occurs twice. */
  predicate NoDuplicates<T(==)>(s: seq<T>) {
    forall i, j :: 0 <= i < j < |s| ==> s[i] != s[j]
  }

  /** The index of the first occurrence of `x` in `s`. */
  function FirstIndex<T(==)>(s: seq<T>, x: T): (k: nat)
    requires x in s
    ensures k < |s| && s[k] == x
    ensures forall j :: 0 <= j < k ==> s[j] != x
  {
    if s[0] == x then 0 else 1 + FirstIndex(s[1..], x)
  }

  /** Appending an element does not move the first occurrence of a value already present. */
  lemma FirstIndexSnoc<T>(p: seq<T>, x: T, y: T)
    requires y in p
    ensures FirstIndex(p + [x], y) == FirstIndex(p, y)
  {
    var k := FirstIndex(p, y);
    assert (p + [x])[k] == y;
  }

  /**
   * `_.uniq(s)`: the distinct values of `s` (compared with `===`), each kept
   * at its first occurrence and in the order of those first occurrences.
   */
  function Uniq<T(==)>(s: seq<T>): (r: seq<T>)
    ensures NoDuplicates(r)
    ensures forall i :: 0 <= i < |r| ==> r[i] in s
    ensures forall i :: 0 <= i < |s| ==> s[i] in r
    ensures forall i, j :: 0 <= i < j < |r| ==> FirstIndex(s, r[i]) < FirstIndex(s, r[j])
  {
    if s == [] then []
    else
      var p, x := s[..|s| - 1], s[|s| - 1];
      assert s == p + [x];
      var u := Uniq(p);
      forall y | y in p ensures FirstIndex(s, y) == FirstIndex(p, y) {
        FirstIndexSnoc(p, x, y);
      }
      if x in u then u
      else
        assert FirstIndex(s, x) == |p|;
        u + [x]
  }

  /** A sequence without duplicates is its own `_.uniq`. */
  lemma {:induction false} UniqOfDistinct<T>(s: seq<T>)
    requires NoDuplicates(s)
    ensures Uniq(s) == s
  {
    if s != [] {
      var p, x := s[..|s| - 1], s[|s| - 1];
      assert s == p + [x];
      forall i, j | 0 <= i < j < |p| ensures p[i] != p[j] {
        assert p[i] == s[i] && p[j] == s[j];
      }
      UniqOfDistinct(p);
      forall k | 0 <= k < |p| ensures p[k] != x {
        assert p[k] == s[k];
      }
      assert x !in p;
    }
  }
}
