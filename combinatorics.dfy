/**
 * `itertools.combinations`: the k-element selections of a list, taken by
 * position and listed in lexicographic order of positions.
 */
module Combinatorics {

  /** Prefix x to every selection. */
  function PrependAll<T>(x: T, cs: seq<seq<T>>): (r: seq<seq<T>>)
    ensures |r| == |cs| && forall i :: 0 <= i < |r| ==> r[i] == [x] + cs[i]
  {
    if cs == [] then [] else [[x] + cs[0]] + PrependAll(x, cs[1..])
  }

  /** `list(combinations(s, k))`. */
  function Combinations<T>(s: seq<T>, k: nat): seq<seq<T>>
    decreases |s|
  {
    if k == 0 then [[]]
    else if s == [] then []
    else PrependAll(s[0], Combinations(s[1..], k - 1)) + Combinations(s[1..], k)
  }

  function Binom(n: nat, k: nat): nat {
    if k == 0 then 1
    else if n == 0 then 0
    else Binom(n - 1, k - 1) + Binom(n - 1, k)
  }

  /** c picks elements of s at strictly increasing positions. */
  predicate IsSubseq<T(==)>(c: seq<T>, s: seq<T>)
    decreases |s|
  {
    if c == [] then true
    else if s == [] then false
    else (c[0] == s[0] && IsSubseq(c[1..], s[1..])) || IsSubseq(c, s[1..])
  }

  predicate Distinct<T(==)>(s: seq<T>) {
    forall i, j :: 0 <= i < j < |s| ==> s[i] != s[j]
  }

  /** There are C(n, k) selections of k out of n. */
  lemma {:induction false} CombinationsCount<T>(s: seq<T>, k: nat)
    ensures |Combinations(s, k)| == Binom(|s|, k)
    decreases |s|
  {
    if k > 0 && s != [] {
      CombinationsCount(s[1..], k - 1);
      CombinationsCount(s[1..], k);
    }
  }

  /** Every listed selection has k elements, taken from s by position. */
  lemma {:induction false} CombinationsAreSubseqs<T>(s: seq<T>, k: nat, c: seq<T>)
    requires c in Combinations(s, k)
    ensures |c| == k && IsSubseq(c, s)
    decreases |s|
  {
    if k > 0 {
      var left := PrependAll(s[0], Combinations(s[1..], k - 1));
      assert Combinations(s, k) == left + Combinations(s[1..], k);
      if c in left {
        var i :| 0 <= i < |left| && left[i] == c;
        HeadedIsSubseq(s, k, i);
      } else {
        CombinationsAreSubseqs(s[1..], k, c);
      }
    }
  }

  /** A selection that starts with s[0] is s[0] before a selection from s[1..]. */
  lemma {:induction false} HeadedIsSubseq<T>(s: seq<T>, k: nat, i: nat)
    requires s != [] && k > 0 && i < |Combinations(s[1..], k - 1)|
    ensures var c := PrependAll(s[0], Combinations(s[1..], k - 1))[i];
            |c| == k && IsSubseq(c, s)
    decreases |s|, 0
  {
    var cs := Combinations(s[1..], k - 1);
    var c := PrependAll(s[0], cs)[i];
    CombinationsAreSubseqs(s[1..], k - 1, cs[i]);
    assert c[0] == s[0] && c[1..] == cs[i];
  }

  /** Every selection by position is listed. */
  lemma {:induction false} SubseqInCombinations<T>(s: seq<T>, c: seq<T>)
    requires IsSubseq(c, s)
    ensures c in Combinations(s, |c|)
    decreases |s|
  {
    if c != [] {
      var k := |c|;
      var left := PrependAll(s[0], Combinations(s[1..], k - 1));
      var right := Combinations(s[1..], k);
      assert Combinations(s, k) == left + right;
      if c[0] == s[0] && IsSubseq(c[1..], s[1..]) {
        SubseqInCombinations(s[1..], c[1..]);
        var cs := Combinations(s[1..], k - 1);
        var i :| 0 <= i < |cs| && cs[i] == c[1..];
        assert left[i] == [c[0]] + c[1..] == c;
        assert c in left;
      } else {
        SubseqInCombinations(s[1..], c);
        assert c in right;
      }
    }
  }

  /** A selection takes no element more often than s holds it. */
  lemma {:induction false} SubseqMultiset<T>(c: seq<T>, s: seq<T>)
    requires IsSubseq(c, s)
    ensures multiset(c) <= multiset(s)
    decreases |s|
  {
    if c != [] {
      assert s == [s[0]] + s[1..];
      if c[0] == s[0] && IsSubseq(c[1..], s[1..]) {
        SubseqMultiset(c[1..], s[1..]);
        assert c == [c[0]] + c[1..];
      } else {
        SubseqMultiset(c, s[1..]);
      }
    }
  }

  /** A selection from a list without repeats has no repeats. */
  lemma {:induction false} SubseqDistinct<T>(c: seq<T>, s: seq<T>)
    requires IsSubseq(c, s) && Distinct(s)
    ensures Distinct(c)
    decreases |s|
  {
    if c != [] {
      if c[0] == s[0] && IsSubseq(c[1..], s[1..]) {
        SubseqDistinct(c[1..], s[1..]);
        SubseqMultiset(c[1..], s[1..]);
        forall j | 0 < j < |c|
          ensures c[0] != c[j]
        {
          assert c[j] in multiset(c[1..]);
          assert c[j] in s[1..];
        }
      } else {
        SubseqDistinct(c, s[1..]);
      }
    }
  }

  /** The elements at positions i < j form a selection. */
  lemma {:induction false} PairIsSubseq<T>(s: seq<T>, i: nat, j: nat)
    requires i < j < |s|
    ensures IsSubseq([s[i], s[j]], s)
    decreases |s|
  {
    if i > 0 {
      PairIsSubseq(s[1..], i - 1, j - 1);
    } else {
      SingleIsSubseq(s[1..], j - 1);
    }
  }

  lemma {:induction false} SingleIsSubseq<T>(s: seq<T>, i: nat)
    requires i < |s|
    ensures IsSubseq([s[i]], s)
    decreases |s|
  {
    if i > 0 {
      SingleIsSubseq(s[1..], i - 1);
    }
  }

  /** The one-element selections are the elements, in order. */
  lemma {:induction false} CombinationsOfOne<T>(s: seq<T>)
    ensures |Combinations(s, 1)| == |s|
    ensures forall i :: 0 <= i < |s| ==> Combinations(s, 1)[i] == [s[i]]
    decreases |s|
  {
    if s != [] {
      CombinationsOfOne(s[1..]);
      assert Combinations(s[1..], 0) == [[]];
    }
  }
}
