/**
 * The canonical state key (`counter_key`) and the pivot the search anchors on.
 *
 * A state is the list of (key, count) pairs of a hand sorted by
 * `(key == 'J', key)`: coloured keys ascending by (colour, number), the joker
 * last.
 */
module Canonical {
  import opened Tiles
  import opened Hands

  type State = seq<(Key, nat)>

  /** The sort order of `counter_key`: the joker after every coloured key. */
  predicate KeyLt(a: Key, b: Key) {
    match a
    case Joker => false
    case Colored(c1, n1) =>
      match b
      case Joker => true
      case Colored(c2, n2) => c1 < c2 || (c1 == c2 && n1 < n2)
  }

  /** Strictly ascending keys, positive counts: what `counter_key` returns. */
  predicate IsCanonical(s: State) {
    && (forall i, j :: 0 <= i < j < |s| ==> KeyLt(s[i].0, s[j].0))
    && (forall i :: 0 <= i < |s| ==> s[i].1 > 0)
  }

  /** `Counter(dict(state))`: the hand a state lists. */
  function MultisetOf(s: State): Hand {
    if s == [] then multiset{} else Copies(s[0].0, s[0].1) + MultisetOf(s[1..])
  }

  lemma KeyLtTotal(a: Key, b: Key)
    ensures a == b || KeyLt(a, b) || KeyLt(b, a)
    ensures !(KeyLt(a, b) && KeyLt(b, a))
  {
  }

  lemma KeyLtTransitive(a: Key, b: Key, c: Key)
    requires KeyLt(a, b) && KeyLt(b, c)
    ensures KeyLt(a, c)
  {
  }

  lemma {:induction false} LeastExists(s: set<Key>)
    requires s != {}
    ensures exists k :: k in s && forall x :: x in s && x != k ==> KeyLt(k, x)
  {
    var y :| y in s;
    if s != {y} {
      LeastExists(s - {y});
      var m :| m in s - {y} && forall x :: x in s - {y} && x != m ==> KeyLt(m, x);
      KeyLtTotal(m, y);
      if KeyLt(y, m) {
        forall x | x in s && x != y
          ensures KeyLt(y, x)
        {
          if x != m { KeyLtTransitive(y, m, x); }
        }
      } else {
        assert forall x :: x in s && x != m ==> KeyLt(m, x);
      }
    }
  }

  /** The least key of a non-empty set. */
  function Least(s: set<Key>): (k: Key)
    requires s != {}
    ensures k in s && forall x :: x in s && x != k ==> KeyLt(k, x)
  {
    LeastExists(s);
    var k :| k in s && forall x :: x in s && x != k ==> KeyLt(k, x);
    k
  }

  /**
   * counter_key: the hand's (key, count) pairs in ascending key order. It is
   * canonical and lists exactly the hand.
   */
  function CanonicalKey(h: Hand): (s: State)
    ensures IsCanonical(s) && MultisetOf(s) == h
    ensures |s| > 0 ==> s[0].0 in h
    decreases |h|
  {
    if h == multiset{} then []
    else
      KeysNonEmpty(h);
      var k := Least(KeysOf(h));
      var rest := h[k := 0];
      var tail := CanonicalKey(rest);
      assert h == Copies(k, h[k]) + rest;
      assert forall j :: 0 <= j < |tail| ==> tail[j].0 in rest by {
        forall j | 0 <= j < |tail| ensures tail[j].0 in rest {
          KeysListed(tail, j);
        }
      }
      [(k, h[k])] + tail
  }

  /** The distinct keys of a hand. */
  function KeysOf(h: Hand): set<Key> {
    set x | x in h
  }

  lemma KeysNonEmpty(h: Hand)
    requires h != multiset{}
    ensures KeysOf(h) != {}
  {
    var x :| x in h;
    assert x in KeysOf(h);
  }

  lemma {:induction false} KeysListed(s: State, j: nat)
    requires IsCanonical(s) && j < |s|
    ensures s[j].0 in MultisetOf(s) && MultisetOf(s)[s[j].0] == s[j].1
  {
    if j > 0 {
      KeysListed(s[1..], j - 1);
    } else {
      Unlisted(s[1..], s[0].0);
    }
  }

  lemma {:induction false} Unlisted(s: State, k: Key)
    requires forall i :: 0 <= i < |s| ==> s[i].0 != k
    ensures MultisetOf(s)[k] == 0
  {
    if s != [] {
      Unlisted(s[1..], k);
    }
  }

  lemma {:induction false} OnlyListed(s: State, k: Key)
    requires k in MultisetOf(s)
    ensures exists i :: 0 <= i < |s| && s[i].0 == k
  {
    if forall i :: 0 <= i < |s| ==> s[i].0 != k {
      Unlisted(s, k);
    }
  }

  /**
   * The canonical listing of a hand is unique: any canonical state listing the
   * hand is its key, so hands with equal contents give equal keys whatever
   * order their entries were inserted in.
   */
  lemma {:induction false} CanonicalKeyUnique(h: Hand, s: State)
    requires IsCanonical(s) && MultisetOf(s) == h
    ensures CanonicalKey(h) == s
    decreases |s|
  {
    if s != [] {
      var k := s[0].0;
      KeysListed(s, 0);
      forall x | x in h && x != k
        ensures KeyLt(k, x)
      {
        OnlyListed(s, x);
        var i :| 0 <= i < |s| && s[i].0 == x;
      }
      KeysNonEmpty(h);
      var m := Least(KeysOf(h));
      KeyLtTotal(m, k);
      assert m == k;
      Unlisted(s[1..], k);
      assert h[k := 0] == MultisetOf(s[1..]);
      CanonicalKeyUnique(h[k := 0], s[1..]);
    } else {
      assert h == multiset{};
    }
  }

  /** `next(k for k in hand if k != 'J')`: the first coloured key of a state, if any. */
  function FirstReal(s: State): Option<Key> {
    if s == [] then None
    else if s[0].0 != Joker then Some(s[0].0)
    else FirstReal(s[1..])
  }

  /**
   * The pivot of a canonical state is its least coloured tile; there is none
   * exactly when the hand holds jokers only (or nothing).
   */
  lemma {:induction false} PivotIsLeastTile(s: State)
    requires IsCanonical(s)
    ensures FirstReal(s).None? <==> forall x :: x in MultisetOf(s) ==> x == Joker
    ensures FirstReal(s).Some? ==>
      var p := FirstReal(s).value;
      && p in MultisetOf(s) && p != Joker
      && forall x :: x in MultisetOf(s) && x != Joker && x != p ==> KeyLt(p, x)
  {
    if s != [] {
      KeysListed(s, 0);
      if s[0].0 != Joker {
        forall x | x in MultisetOf(s) && x != s[0].0
          ensures KeyLt(s[0].0, x)
        {
          OnlyListed(s, x);
          var i :| 0 <= i < |s| && s[i].0 == x;
        }
      } else {
        // the joker sorts last, so it is the only entry
        assert |s| == 1 || KeyLt(s[0].0, s[1].0);
        assert s[1..] == [];
        forall x | x in MultisetOf(s)
          ensures x == Joker
        {
          OnlyListed(s, x);
        }
      }
    }
  }
}
