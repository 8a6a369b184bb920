/**
 * Completeness of the partition search: when the hand can be laid out in
 * melds of the list, dfs does not come back with None.
 *
 * The search always takes a meld's real tiles first and covers only the rest
 * with jokers, whereas a given layout may have a joker stand in for a tile the
 * hand holds. Such a layout can always be rearranged: any real tile a meld
 * uses can be handed to the hand and a joker put in its place.
 */
module Completeness {
  import opened Tiles
  import opened Hands
  import opened Canonical
  import opened Solver

  /** The first meld of a layout, and a layout of what it leaves. */
  lemma SplitCover(lib: seq<Group>, sol: Solution, h: Hand)
    requires IsCover(lib, sol, h) && sol != []
    ensures Placed(lib, sol[0]) && IsCover(lib, sol[1..], TilesOf(sol[1..]))
    ensures h == Used(sol[0].0, sol[0].1) + TilesOf(sol[1..])
  {
    assert forall i :: 0 <= i < |sol[1..]| ==> sol[1..][i] == sol[i + 1];
  }

  /** Taking k out of one part of a hand and putting a joker in its place. */
  lemma SwapInPart(a: multiset<Key>, b: multiset<Key>, h: Hand, k: Key)
    requires h == a + b && k in a
    ensures (a - multiset{k} + multiset{Joker}) + b == h - multiset{k} + multiset{Joker}
    ensures b + (a - multiset{k} + multiset{Joker}) == h - multiset{k} + multiset{Joker}
  {
  }

  /** n jokers, key by key. */
  lemma JokerMsAt(n: nat, x: Key)
    ensures JokerMs(n)[x] == if x == Joker then n else 0
  {
  }

  /** A joker stands in for one more real tile k of a meld. */
  lemma UsedExchange(g: Group, js: seq<Key>, k: Key)
    requires k != Joker && k in Used(g, js) && multiset(js) <= GroupMs(g)
    ensures multiset(js + [k]) <= GroupMs(g)
    ensures Used(g, js + [k]) == Used(g, js) - multiset{k} + multiset{Joker}
  {
    var gm, jm, n := GroupMs(g), multiset(js), |js|;
    assert multiset(js + [k]) == jm + multiset{k};
    JokerMsAt(n, k);
    StandIn(gm, jm, k, n);
  }

  /** The multiset step behind `UsedExchange`. */
  lemma StandIn(gm: multiset<Key>, jm: multiset<Key>, k: Key, n: nat)
    requires k != Joker && k in (gm - jm) + JokerMs(n) && jm <= gm
    ensures jm + multiset{k} <= gm
    ensures (gm - (jm + multiset{k})) + JokerMs(n + 1) == (gm - jm) + JokerMs(n) - multiset{k} + multiset{Joker}
  {
    JokerMsAt(n, k);
    forall x
      ensures ((gm - (jm + multiset{k})) + JokerMs(n + 1))[x] == ((gm - jm) + JokerMs(n) - multiset{k} + multiset{Joker})[x]
    {
      JokerMsAt(n, x);
      JokerMsAt(n + 1, x);
    }
  }

  /**
   * Any real tile of a layout can be swapped for a joker: the same melds, one
   * joker standing in for k, lay out the hand with k replaced by a joker.
   */
  lemma {:induction false} ExchangeOne(lib: seq<Group>, sol: Solution, h: Hand, k: Key) returns (sol2: Solution)
    requires IsCover(lib, sol, h) && k in h && k != Joker
    ensures IsCover(lib, sol2, h - multiset{k} + multiset{Joker})
    decreases |sol|
  {
    assert sol != [];
    SplitCover(lib, sol, h);
    var m, tail := sol[0], sol[1..];
    var t, u := TilesOf(tail), Used(m.0, m.1);
    var h2 := h - multiset{k} + multiset{Joker};
    if k in u {
      UsedExchange(m.0, m.1, k);
      var m2 := (m.0, m.1 + [k]);
      SwapInPart(u, t, h, k);
      PrependCover(lib, m2, tail, t, h2);
      sol2 := [m2] + tail;
    } else {
      var tail2 := ExchangeOne(lib, tail, t, k);
      SwapInPart(t, u, h, k);
      PrependCover(lib, m, tail2, t - multiset{k} + multiset{Joker}, h2);
      sol2 := [m] + tail2;
    }
  }

  /** Swapping a whole multiset d of real tiles for jokers, one at a time. */
  lemma {:induction false} ExchangeMany(lib: seq<Group>, sol: Solution, h: Hand, d: multiset<Key>) returns (sol2: Solution)
    requires IsCover(lib, sol, h) && d <= h && d[Joker] == 0
    ensures IsCover(lib, sol2, (h - d) + JokerMs(|d|))
    decreases |d|
  {
    if d == multiset{} {
      JokersNone(h);
      sol2 := sol;
    } else {
      var k :| k in d;
      var sol1 := ExchangeOne(lib, sol, h, k);
      var d1 := d - multiset{k};
      SwapStep(h, d, k);
      sol2 := ExchangeMany(lib, sol1, h - multiset{k} + multiset{Joker}, d1);
    }
  }

  lemma JokersNone(h: Hand)
    ensures (h - multiset{}) + JokerMs(0) == h
  {
    forall x
      ensures ((h - multiset{}) + JokerMs(0))[x] == h[x]
    {
      JokerMsAt(0, x);
    }
  }

  /** Swapping k first and the rest of d afterwards swaps all of d. */
  lemma SwapStep(h: Hand, d: multiset<Key>, k: Key)
    requires d <= h && d[Joker] == 0 && k in d
    ensures var h1, d1 := h - multiset{k} + multiset{Joker}, d - multiset{k};
      && d1 <= h1 && d1[Joker] == 0 && |d1| < |d|
      && (h1 - d1) + JokerMs(|d1|) == (h - d) + JokerMs(|d|)
  {
    var h1, d1 := h - multiset{k} + multiset{Joker}, d - multiset{k};
    assert d == d1 + multiset{k};
    forall x
      ensures ((h1 - d1) + JokerMs(|d1|))[x] == ((h - d) + JokerMs(|d|))[x]
    {
      JokerMsAt(|d1|, x);
      JokerMsAt(|d|, x);
    }
  }

  /** The meld of a layout that uses tile p as a real tile, and a layout of the rest of the hand. */
  lemma {:induction false} SplitAt(lib: seq<Group>, sol: Solution, h: Hand, p: Key) returns (m: Meld, others: Solution)
    requires IsCover(lib, sol, h) && p in h && p != Joker
    ensures Placed(lib, m) && p in GroupMs(m.0) - multiset(m.1)
    ensures IsCover(lib, others, TilesOf(others)) && TilesOf(others) + Used(m.0, m.1) == h
    decreases |sol|
  {
    assert sol != [];
    SplitCover(lib, sol, h);
    var first, tail := sol[0], sol[1..];
    if p in Used(first.0, first.1) {
      assert JokerMs(|first.1|)[p] == 0;
      m, others := first, tail;
    } else {
      var rest;
      m, rest := SplitAt(lib, tail, TilesOf(tail), p);
      var t := TilesOf(rest) + Used(first.0, first.1);
      PrependCover(lib, first, rest, TilesOf(rest), t);
      Regroup(Used(first.0, first.1), TilesOf(rest), Used(m.0, m.1), TilesOf(tail), h);
      others := [first] + rest;
    }
  }

  /** Moving a meld's tiles from one part of a hand to the other. */
  lemma Regroup(a: multiset<Key>, b: multiset<Key>, c: multiset<Key>, t: multiset<Key>, h: multiset<Key>)
    requires t == b + c && h == a + t
    ensures (b + a) + c == h
  {
  }

  /**
   * A meld of a layout passes `can_subtract`: every tile of it the hand lacks
   * is one the layout has a joker stand in for.
   */
  lemma MeldFits(g: Group, js: seq<Key>, others: Hand, h: Hand)
    requires ValidGroup(g) && multiset(js) <= GroupMs(g) && others + Used(g, js) == h
    ensures Feasible(h, g) && Shortfall(h, g) <= h[Joker]
  {
    var gm, jm := GroupMs(g), multiset(js);
    GroupMsNoJoker(g);
    assert gm - h <= jm;
    assert jm == (gm - h) + (jm - (gm - h));
    assert h[Joker] >= JokerMs(|js|)[Joker];
    ShortfallIsMissing(h, g);
  }

  /**
   * What `subtract` leaves of the hand is what the layout's other melds lay
   * out, with the tiles d swapped for jokers: those the search takes as real
   * tiles where the layout used a joker.
   */
  lemma RestIsExchanged(g: Group, js: seq<Key>, others: Hand, h: Hand) returns (d: multiset<Key>)
    requires ValidGroup(g) && multiset(js) <= GroupMs(g) && others + Used(g, js) == h
    requires Feasible(h, g)
    ensures d <= others && d[Joker] == 0
    ensures Subtract(h, g).0 == (others - d) + JokerMs(|d|)
  {
    GroupMsNoJoker(g);
    SubtractLeaves(h, g);
    UsedSpelled(g, js);
    var gm, jm, rest := GroupMs(g), multiset(js), Subtract(h, g).0;
    forall x
      ensures h[x] == (others + (gm - jm) + JokerMs(|jm|))[x]
      ensures h[x] == (rest + (gm - (gm - h)) + JokerMs(|gm - h|))[x]
    {
    }
    d := Rearranged(GroupMs(g), multiset(js), h, others, Subtract(h, g).0);
  }

  /** `subtract` takes the meld's held tiles and one joker per missing tile. */
  lemma SubtractLeaves(h: Hand, g: Group)
    requires ValidGroup(g) && Feasible(h, g)
    ensures var gm := GroupMs(g);
      Subtract(h, g).0 + (gm - (gm - h)) + JokerMs(|gm - h|) == h
  {
    var (rest, sjs) := Subtract(h, g);
    assert |sjs| == |multiset(sjs)|;
  }

  lemma UsedSpelled(g: Group, js: seq<Key>)
    ensures Used(g, js) == (GroupMs(g) - multiset(js)) + JokerMs(|multiset(js)|)
  {
    assert |js| == |multiset(js)|;
  }

  /**
   * The multiset argument behind `RestIsExchanged`: gm is the meld, jm the
   * tiles the layout's jokers stand for, and rest what is left once the meld's
   * held tiles and one joker per missing tile are taken.
   */
  lemma Rearranged(gm: multiset<Key>, jm: multiset<Key>, h: Hand, others: Hand, rest: Hand) returns (d: multiset<Key>)
    requires jm <= gm && gm[Joker] == 0
    requires forall x :: h[x] == (others + (gm - jm) + JokerMs(|jm|))[x]
    requires forall x :: h[x] == (rest + (gm - (gm - h)) + JokerMs(|gm - h|))[x]
    ensures d <= others && d[Joker] == 0
    ensures rest == (others - d) + JokerMs(|d|)
  {
    var missing := gm - h;
    d := (gm - missing) - (gm - jm);
    forall x
      ensures jm[x] == (missing + d)[x]
      ensures x != Joker ==> d[x] <= others[x] && rest[x] == others[x] - d[x]
    {
      RearrangedAt(gm, jm, h, others, rest, x);
    }
    assert jm == missing + d;
    JokersAfter(gm, jm, h, others, rest, |d|);
    ResidualFromCounts(others, d, rest);
  }

  /** `Rearranged` at one key x, from the counts of x on both sides of the two hand equations. */
  lemma RearrangedAt(gm: multiset<Key>, jm: multiset<Key>, h: Hand, others: Hand, rest: Hand, x: Key)
    requires jm[x] <= gm[x] && gm[Joker] == 0
    requires h[x] == others[x] + (gm - jm)[x] + JokerMs(|jm|)[x]
    requires h[x] == rest[x] + (gm - (gm - h))[x] + JokerMs(|gm - h|)[x]
    ensures var d := (gm - (gm - h)) - (gm - jm);
      && jm[x] == ((gm - h) + d)[x]
      && (x != Joker ==> d[x] <= others[x] && rest[x] == others[x] - d[x])
  {
    JokerMsAt(|jm|, x);
    JokerMsAt(|gm - h|, x);
  }

  /** The joker count of what is left, once the stand-ins split as jm == (gm - h) + d. */
  lemma JokersAfter(gm: multiset<Key>, jm: multiset<Key>, h: Hand, others: Hand, rest: Hand, n: nat)
    requires jm <= gm && gm[Joker] == 0 && |jm| == |gm - h| + n
    requires h[Joker] == (others + (gm - jm) + JokerMs(|jm|))[Joker]
    requires h[Joker] == (rest + (gm - (gm - h)) + JokerMs(|gm - h|))[Joker]
    ensures rest[Joker] == others[Joker] + n
  {
    JokerMsAt(|jm|, Joker);
    JokerMsAt(|gm - h|, Joker);
  }

  /** The pointwise reading of `rest == (others - d) + JokerMs(|d|)`. */
  lemma ResidualFromCounts(others: Hand, d: multiset<Key>, rest: Hand)
    requires d[Joker] == 0 && rest[Joker] == others[Joker] + |d|
    requires forall x :: x != Joker ==> d[x] <= others[x] && rest[x] == others[x] - d[x]
    ensures d <= others
    ensures rest == (others - d) + JokerMs(|d|)
  {
    forall x
      ensures rest[x] == ((others - d) + JokerMs(|d|))[x]
    {
      JokerMsAt(|d|, x);
    }
  }

  /**
   * dfs is complete: when the melds of the list can lay out the whole hand,
   * it finds a layout or raises, and never returns None.
   */
  lemma {:induction false} SearchHandComplete(lib: seq<Group>, h: Hand, sol: Solution)
    requires ValidLibrary(lib) && IsCover(lib, sol, h)
    ensures !Failed(SearchHand(lib, h))
    decreases |h|
  {
    var s := CanonicalKey(h);
    PivotIsLeastTile(s);
    if s != [] && FirstReal(s).Some? {
      var p := FirstReal(s).value;
      var m, others := SplitAt(lib, sol, h, p);
      var g, t := m.0, TilesOf(others);
      var j :| 0 <= j < |lib| && lib[j] == g;
      MeldFits(g, m.1, t, h);
      ContainsIsMember(g, p);
      var d := RestIsExchanged(g, m.1, t, h);
      var rest := Subtract(h, g).0;
      var sol3 := ExchangeMany(lib, others, t, d);
      SubtractShrinks(h, g, p);
      SearchHandComplete(lib, rest, sol3);
      AttemptReaches(lib, h, p, j);
      TryFromReaches(lib, h, p, 0, j);
      assert SearchHand(lib, h) == TryFrom(lib, h, p, 0);
    }
  }
}
