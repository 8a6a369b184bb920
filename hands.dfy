/**
 * Hands and the meld-subtraction primitive (`can_subtract`, `subtract`).
 *
 * A hand is a Counter without zero entries, that is, a multiset of keys.
 * A group is a meld as the code stores it: the (key, count) items of a
 * Counter, in insertion order.
 */
module Hands {
  import opened Tiles

  type Hand = multiset<Key>

  type Group = seq<(Key, nat)>

  /** The items of a dict: no key twice. */
  predicate DistinctKeys(g: Group) {
    forall i, j :: 0 <= i < j < |g| ==> g[i].0 != g[j].0
  }

  /** A meld Counter: distinct coloured keys, each with a positive count. */
  predicate ValidGroup(g: Group) {
    DistinctKeys(g) && forall i :: 0 <= i < |g| ==> g[i].0 != Joker && g[i].1 > 0
  }

  /** n copies of k. */
  function Copies(k: Key, n: nat): multiset<Key> {
    multiset{}[k := n]
  }

  function JokerMs(n: nat): multiset<Key> {
    Copies(Joker, n)
  }

  function Min(a: nat, b: nat): nat {
    if a <= b then a else b
  }

  /** How many of v wanted tiles a count of `have` cannot supply. */
  function Excess(v: nat, have: nat): nat {
    if have < v then v - have else 0
  }

  /** The tiles of a meld, as a multiset. */
  function GroupMs(g: Group): multiset<Key> {
    if g == [] then multiset{}
    else GroupMs(g[..|g| - 1]) + Copies(g[|g| - 1].0, g[|g| - 1].1)
  }

  /** The per-token shortfall summed over the meld's items, in order (lines 47-50). */
  function Shortfall(h: Hand, g: Group): nat {
    if g == [] then 0
    else Shortfall(h, g[..|g| - 1]) + Excess(g[|g| - 1].1, h[g[|g| - 1].0])
  }

  /** The meld's missing tiles can all be stood in for by the hand's jokers. */
  predicate Feasible(h: Hand, g: Group) {
    |GroupMs(g) - h| <= h[Joker]
  }

  /** `[k] * n`. */
  function Repeat(k: Key, n: nat): (s: seq<Key>)
    ensures |s| == n
  {
    if n == 0 then [] else Repeat(k, n - 1) + [k]
  }

  /** Each meld token repeated by its shortfall, in meld order. */
  function JokersFor(h: Hand, g: Group): seq<Key> {
    if g == [] then []
    else JokersFor(h, g[..|g| - 1]) + Repeat(g[|g| - 1].0, Excess(g[|g| - 1].1, h[g[|g| - 1].0]))
  }

  /** The tiles one placed meld takes from a hand: its real tiles plus one joker per stand-in. */
  function Used(g: Group, jokers: seq<Key>): multiset<Key> {
    (GroupMs(g) - multiset(jokers)) + JokerMs(|jokers|)
  }

  // ---------------------------------------------------------------------------
  // Facts about the multiset of a meld

  lemma CopiesCount(k: Key, n: nat)
    ensures |Copies(k, n)| == n
    ensures multiset(Repeat(k, n)) == Copies(k, n)
  {
    if n > 0 {
      CopiesCount(k, n - 1);
      assert Copies(k, n) == Copies(k, n - 1) + multiset{k};
    }
  }

  lemma {:induction false} GroupMsOutside(g: Group, x: Key)
    requires forall i :: 0 <= i < |g| ==> g[i].0 != x
    ensures GroupMs(g)[x] == 0
  {
    if g != [] {
      GroupMsOutside(g[..|g| - 1], x);
    }
  }

  lemma {:induction false} GroupMsAt(g: Group, i: nat)
    requires DistinctKeys(g) && i < |g|
    ensures GroupMs(g)[g[i].0] == g[i].1
  {
    var init := g[..|g| - 1];
    if i == |g| - 1 {
      GroupMsOutside(init, g[i].0);
    } else {
      GroupMsAt(init, i);
    }
  }

  lemma GroupMsNoJoker(g: Group)
    requires ValidGroup(g)
    ensures GroupMs(g)[Joker] == 0
  {
    GroupMsOutside(g, Joker);
  }

  /** The per-token shortfall sum counts exactly the meld tiles the hand lacks. */
  lemma {:induction false} ShortfallIsMissing(h: Hand, g: Group)
    requires DistinctKeys(g)
    ensures Shortfall(h, g) == |GroupMs(g) - h|
  {
    if g != [] {
      var init, k, v := g[..|g| - 1], g[|g| - 1].0, g[|g| - 1].1;
      ShortfallIsMissing(h, init);
      GroupMsOutside(init, k);
      var a := GroupMs(init);
      assert (a + Copies(k, v)) - h == (a - h) + Copies(k, Excess(v, h[k]));
      CopiesCount(k, Excess(v, h[k]));
    }
  }

  /** The jokers' stand-ins are exactly the meld tiles the hand lacks. */
  lemma {:induction false} JokersForAreMissing(h: Hand, g: Group)
    requires DistinctKeys(g)
    ensures multiset(JokersFor(h, g)) == GroupMs(g) - h
  {
    if g != [] {
      var init, k, v := g[..|g| - 1], g[|g| - 1].0, g[|g| - 1].1;
      JokersForAreMissing(h, init);
      GroupMsOutside(init, k);
      CopiesCount(k, Excess(v, h[k]));
      var a := GroupMs(init);
      assert (a + Copies(k, v)) - h == (a - h) + Copies(k, Excess(v, h[k]));
    }
  }

  lemma {:induction false} ShortfallPrefix(h: Hand, g: Group, i: nat)
    requires i <= |g|
    ensures Shortfall(h, g[..i]) <= Shortfall(h, g)
    decreases |g|
  {
    if i < |g| {
      var init := g[..|g| - 1];
      assert g[..i] == init[..i];
      ShortfallPrefix(h, init, i);
    } else {
      assert g[..i] == g;
    }
  }

  // ---------------------------------------------------------------------------
  // can_subtract and subtract

  /**
   * can_subtract: accumulate the per-token shortfall and compare it with the
   * joker count. True exactly when the jokers can stand in for every meld
   * tile the hand lacks.
   */
  method CanSubtract(hand: Hand, group: Group) returns (ok: bool)
    requires DistinctKeys(group)
    ensures ok <==> |GroupMs(group) - hand| <= hand[Joker]
  {
    var needJ := 0;
    for i := 0 to |group|
      invariant needJ == Shortfall(hand, group[..i])
    {
      var (k, v) := group[i];
      if hand[k] < v {
        needJ := needJ + (v - hand[k]);
      }
      assert group[..i + 1][..i] == group[..i];
    }
    assert group[..|group|] == group;
    ShortfallIsMissing(hand, group);
    ok := needJ <= hand[Joker];
  }

  /**
   * subtract, as a value: the residual hand and the list of tokens the jokers
   * stood for. Real tiles are taken first; the shortfall is covered by jokers.
   */
  function Subtract(h: Hand, g: Group): (r: (Hand, seq<Key>))
    requires ValidGroup(g) && Feasible(h, g)
    ensures r.1 == JokersFor(h, g)
    ensures multiset(r.1) == GroupMs(g) - h
    ensures r.0 + Used(g, r.1) == h
    ensures r.0[Joker] == h[Joker] - |r.1|
    ensures forall k :: k != Joker ==> r.0[k] == h[k] - Min(h[k], GroupMs(g)[k])
  {
    var js := JokersFor(h, g);
    var rest := h - GroupMs(g) * h - JokerMs(|GroupMs(g) - h|);
    SubtractFacts(h, g, rest, js);
    (rest, js)
  }

  lemma SubtractFacts(h: Hand, g: Group, rest: Hand, js: seq<Key>)
    requires ValidGroup(g) && Feasible(h, g)
    requires js == JokersFor(h, g)
    requires rest == h - GroupMs(g) * h - JokerMs(|GroupMs(g) - h|)
    ensures multiset(js) == GroupMs(g) - h
    ensures rest + Used(g, js) == h
    ensures rest[Joker] == h[Joker] - |js|
    ensures forall k :: k != Joker ==> rest[k] == h[k] - Min(h[k], GroupMs(g)[k])
  {
    JokersForAreMissing(h, g);
    GroupMsNoJoker(g);
    assert |multiset(js)| == |js|;
    ResidualCounts(h, GroupMs(g), rest, |js|);
    Reconstruct(h, GroupMs(g), rest, js);
  }

  lemma ResidualCounts(h: Hand, G: multiset<Key>, rest: Hand, n: nat)
    requires G[Joker] == 0 && n <= h[Joker]
    requires rest == h - G * h - JokerMs(n)
    ensures rest[Joker] == h[Joker] - n
    ensures forall k :: k != Joker ==> rest[k] == h[k] - Min(h[k], G[k])
  {
    CopiesCount(Joker, n);
    forall k | k != Joker
      ensures rest[k] == h[k] - Min(h[k], G[k])
    {
      assert (G * h)[k] == Min(h[k], G[k]);
      assert JokerMs(n)[k] == 0;
    }
    assert (G * h)[Joker] == 0;
  }

  lemma Reconstruct(h: Hand, G: multiset<Key>, rest: Hand, js: seq<Key>)
    requires G[Joker] == 0 && multiset(js) == G - h
    requires rest[Joker] == h[Joker] - |js|
    requires forall k :: k != Joker ==> rest[k] == h[k] - Min(h[k], G[k])
    ensures rest + (G - multiset(js)) + JokerMs(|js|) == h
  {
    var used := (G - multiset(js)) + JokerMs(|js|);
    forall k
      ensures (rest + used)[k] == h[k]
    {
      if k == Joker {
        assert (G - multiset(js))[k] == 0;
      } else {
        assert (G - multiset(js))[k] == Min(h[k], G[k]);
        assert JokerMs(|js|)[k] == 0;
      }
    }
    assert rest + used == h;
  }

  /** The residual is strictly smaller whenever the meld holds a tile of the hand. */
  lemma SubtractShrinks(h: Hand, g: Group, p: Key)
    requires ValidGroup(g) && Feasible(h, g)
    requires p in h && p in GroupMs(g)
    ensures |Subtract(h, g).0| < |h|
  {
    var (rest, js) := Subtract(h, g);
    assert p != Joker by { GroupMsNoJoker(g); }
    assert (GroupMs(g) - multiset(js))[p] >= 1;
    assert |Used(g, js)| >= 1;
  }

  /**
   * subtract: copy the hand, take real tiles item by item, cover the rest with
   * jokers and record what each joker stood for. The caller's hand is a value
   * and is left as it was.
   */
  method SubtractTiles(hand: Hand, group: Group) returns (rest: Hand, jokerUsedAs: seq<Key>)
    requires ValidGroup(group) && Feasible(hand, group)
    ensures (rest, jokerUsedAs) == Subtract(hand, group)
  {
    rest := hand;
    jokerUsedAs := [];
    ghost var seen: multiset<Key> := multiset{};
    for i := 0 to |group|
      invariant TakenSoFar(hand, group, i, seen, rest, jokerUsedAs)
    {
      var (k, v) := group[i];
      ghost var before, jsBefore := rest, jokerUsedAs;
      StepBounds(hand, group, i, seen, rest, jokerUsedAs);
      var have := rest[k];
      var take := Min(have, v);
      if take > 0 {
        rest := rest[k := rest[k] - take];  // a count that reaches zero leaves the hand (`del`)
      } else {
        Unchanged(rest, k);
      }
      ghost var mid := rest;
      var missing := v - take;
      if missing > 0 {
        rest := rest[Joker := rest[Joker] - missing];
        jokerUsedAs := jokerUsedAs + Repeat(k, missing);
      } else {
        Unchanged(rest, Joker);
        assert jokerUsedAs + Repeat(k, missing) == jokerUsedAs;
      }
      SubtractStep(hand, group, i, seen, take, missing, before, mid, rest, jsBefore, jokerUsedAs);
      seen := seen + Copies(k, v);
    }
    SubtractLoopDone(hand, group, seen, rest, jokerUsedAs);
  }

  /** Before item i: its key is real, untouched so far, and the jokers left cover its shortfall. */
  lemma StepBounds(h: Hand, g: Group, i: nat, seen: multiset<Key>, rest: Hand, js: seq<Key>)
    requires ValidGroup(g) && Feasible(h, g) && i < |g|
    requires TakenSoFar(h, g, i, seen, rest, js)
    ensures g[i].0 != Joker && rest[g[i].0] == h[g[i].0]
    ensures g[i].1 - Min(h[g[i].0], g[i].1) <= rest[Joker]
  {
    PrefixStep(h, g, i);
  }

  lemma Unchanged(m: multiset<Key>, k: Key)
    ensures m[k := m[k] - 0] == m
  {
  }

  /** The state the loop of `SubtractTiles` keeps after the first i items. */
  ghost predicate TakenSoFar(h: Hand, g: Group, i: nat, seen: multiset<Key>, rest: Hand, js: seq<Key>)
    requires i <= |g|
  {
    && seen == GroupMs(g[..i]) && seen[Joker] == 0
    && (forall x :: x != Joker ==> rest[x] == h[x] - Min(h[x], seen[x]))
    && rest[Joker] == h[Joker] - Shortfall(h, g[..i])
    && Shortfall(h, g[..i]) <= h[Joker]
    && js == JokersFor(h, g[..i])
  }

  lemma SubtractStep(h: Hand, g: Group, i: nat, seen: multiset<Key>, take: nat, missing: nat,
                     before: Hand, mid: Hand, after: Hand, jsBefore: seq<Key>, jsAfter: seq<Key>)
    requires ValidGroup(g) && Feasible(h, g) && i < |g|
    requires TakenSoFar(h, g, i, seen, before, jsBefore)
    requires take == Min(before[g[i].0], g[i].1) && missing == g[i].1 - take
    requires mid == before[g[i].0 := before[g[i].0] - take]
    requires missing <= mid[Joker] && after == mid[Joker := mid[Joker] - missing]
    requires jsAfter == jsBefore + Repeat(g[i].0, missing)
    ensures TakenSoFar(h, g, i + 1, seen + Copies(g[i].0, g[i].1), after, jsAfter)
  {
    var k, v := g[i].0, g[i].1;
    PrefixStep(h, g, i);
    assert before[k] == h[k];
    assert missing == Excess(v, h[k]);
    StepRealCounts(h, k, v, seen, before, mid, after);
  }

  /** The real-tile counts after one more item: only the item's own key changes. */
  lemma StepRealCounts(h: Hand, k: Key, v: nat, seen: multiset<Key>, before: Hand, mid: Hand, after: Hand)
    requires k != Joker && seen[k] == 0 && before[k] == h[k]
    requires forall x :: x != Joker ==> before[x] == h[x] - Min(h[x], seen[x])
    requires mid[k] == h[k] - Min(h[k], v)
    requires forall x :: x != k ==> mid[x] == before[x]
    requires forall x :: x != Joker ==> after[x] == mid[x]
    ensures forall x :: x != Joker ==> after[x] == h[x] - Min(h[x], (seen + Copies(k, v))[x])
  {
  }

  lemma SubtractLoopDone(h: Hand, g: Group, seen: multiset<Key>, rest: Hand, js: seq<Key>)
    requires ValidGroup(g) && Feasible(h, g)
    requires TakenSoFar(h, g, |g|, seen, rest, js)
    ensures (rest, js) == Subtract(h, g)
  {
    assert g[..|g|] == g;
    ShortfallIsMissing(h, g);
    SamePointwise(rest, Subtract(h, g).0);
  }

  /** What one more item adds to the prefix sums the loop of `SubtractTiles` keeps. */
  lemma PrefixStep(h: Hand, g: Group, i: nat)
    requires ValidGroup(g) && Feasible(h, g) && i < |g|
    ensures g[i].0 != Joker && GroupMs(g[..i])[g[i].0] == 0
    ensures GroupMs(g[..i + 1]) == GroupMs(g[..i]) + Copies(g[i].0, g[i].1)
    ensures Shortfall(h, g[..i + 1]) == Shortfall(h, g[..i]) + Excess(g[i].1, h[g[i].0])
    ensures Shortfall(h, g[..i + 1]) <= h[Joker]
    ensures JokersFor(h, g[..i + 1]) == JokersFor(h, g[..i]) + Repeat(g[i].0, Excess(g[i].1, h[g[i].0]))
  {
    assert g[..i + 1][..i] == g[..i];
    GroupMsOutside(g[..i], g[i].0);
    ShortfallPrefix(h, g, i + 1);
    ShortfallIsMissing(h, g);
  }

  lemma SamePointwise(a: Hand, b: Hand)
    requires forall x :: a[x] == b[x]
    ensures a == b
  {
  }
}
