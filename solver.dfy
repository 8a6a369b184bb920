/**
 * The partition search (`dfs` inside `solve_and_print`) and its True/False
 * verdict.
 *
 * The search is written against any list of valid melds; `solve_and_print`
 * runs it on the meld library. A solution lists placed melds: a meld together
 * with the tokens its jokers stand for.
 */
module Solver {
  import opened Tiles
  import opened Hands
  import opened Canonical
  import opened Melds

  /** How a call ends: it returns a value, or `next` on an exhausted generator raises StopIteration. */
  datatype Exec<T> = Returned(value: T) | StopIteration

  /** The search came back empty-handed: it returned None. */
  predicate Failed<T>(r: Exec<Option<T>>) {
    r.Returned? && r.value.None?
  }

  /** A placed meld: the meld and the tokens its jokers stand for. */
  type Meld = (Group, seq<Key>)

  type Solution = seq<Meld>

  /** Every entry of the meld list is a meld Counter. */
  predicate ValidLibrary(lib: seq<Group>) {
    forall i :: 0 <= i < |lib| ==> ValidGroup(lib[i])
  }

  /** `pivot in g`: the key is one of the meld's items. */
  predicate Contains(g: Group, p: Key) {
    exists i :: 0 <= i < |g| && g[i].0 == p
  }

  /** The tiles a solution takes: for each placed meld, its real tiles and one joker per stand-in. */
  function TilesOf(sol: Solution): multiset<Key> {
    if sol == [] then multiset{} else Used(sol[0].0, sol[0].1) + TilesOf(sol[1..])
  }

  /** A meld of the list whose jokers stand only for tokens of that meld. */
  predicate Placed(lib: seq<Group>, m: Meld) {
    m.0 in lib && multiset(m.1) <= GroupMs(m.0)
  }

  /** The solution places melds of the list and uses exactly the tiles of h. */
  predicate IsCover(lib: seq<Group>, sol: Solution, h: Hand) {
    (forall i :: 0 <= i < |sol| ==> Placed(lib, sol[i])) && TilesOf(sol) == h
  }

  // ---------------------------------------------------------------------------
  // dfs

  /**
   * `dfs(counter_key(h))`: search the canonical state of a hand, as the
   * initial call and each recursive call do.
   */
  function SearchHand(lib: seq<Group>, h: Hand): Exec<Option<Solution>>
    requires ValidLibrary(lib)
    decreases |h|, 3, 0
  {
    Dfs(lib, CanonicalKey(h))
  }

  /**
   * dfs(state): an empty hand is solved by no melds; otherwise the least
   * coloured tile is the pivot, and a hand of jokers only has none, so `next`
   * raises. Every recursive call is on a hand with fewer tiles.
   */
  function Dfs(lib: seq<Group>, s: State): Exec<Option<Solution>>
    requires ValidLibrary(lib) && IsCanonical(s)
    decreases |MultisetOf(s)|, 2, 0
  {
    if s == [] then Returned(Some([]))
    else
      PivotIsLeastTile(s);
      match FirstReal(s)
      case None => StopIteration
      case Some(p) => TryFrom(lib, MultisetOf(s), p, 0)
  }

  /**
   * The `for g in ALL_GROUPS` loop from position i on: the first attempt that
   * does not come back empty-handed ends the loop, and an exhausted loop
   * gives None.
   */
  function TryFrom(lib: seq<Group>, h: Hand, p: Key, i: nat): Exec<Option<Solution>>
    requires ValidLibrary(lib) && p in h && p != Joker && i <= |lib|
    decreases |h|, 1, |lib| - i
  {
    if i == |lib| then Returned(None)
    else
      var r := Attempt(lib, h, p, i);
      if Failed(r) then TryFrom(lib, h, p, i + 1) else r
  }

  /**
   * One pass of the loop body: meld i is tried only if it holds the pivot
   * and `can_subtract` accepts it.
   */
  function Attempt(lib: seq<Group>, h: Hand, p: Key, i: nat): Exec<Option<Solution>>
    requires ValidLibrary(lib) && p in h && p != Joker && i < |lib|
    decreases |h|, 0, 2
  {
    if Contains(lib[i], p) && Shortfall(h, lib[i]) <= h[Joker] then Place(lib, h, p, lib[i]) else Returned(None)
  }

  /**
   * Take the meld from the hand (real tiles first) and search the residual's
   * canonical state; a solution of the residual is prefixed with this meld.
   */
  function Place(lib: seq<Group>, h: Hand, p: Key, g: Group): Exec<Option<Solution>>
    requires ValidLibrary(lib) && ValidGroup(g) && p in h && Contains(g, p) && Shortfall(h, g) <= h[Joker]
    decreases |h|, 0, 1
  {
    var (js, res) := Descend(lib, h, p, g);
    match res
    case StopIteration => StopIteration
    case Returned(None) => Returned(None)
    case Returned(Some(sol)) => Returned(Some([(g, js)] + sol))
  }

  function Descend(lib: seq<Group>, h: Hand, p: Key, g: Group): (seq<Key>, Exec<Option<Solution>>)
    requires ValidLibrary(lib) && ValidGroup(g) && p in h && Contains(g, p) && Shortfall(h, g) <= h[Joker]
    decreases |h|, 0, 0
  {
    ShortfallIsMissing(h, g);
    var (rest, js) := Subtract(h, g);
    ContainsIsMember(g, p);
    SubtractShrinks(h, g, p);
    (js, SearchHand(lib, rest))
  }

  // ---------------------------------------------------------------------------
  // Soundness

  /**
   * What the search may answer for hand h: a solution that places melds of the
   * list and uses exactly the tiles of h, None, or a raise on a hand that holds
   * a joker.
   */
  predicate Sound(lib: seq<Group>, h: Hand, r: Exec<Option<Solution>>) {
    && (r.Returned? && r.value.Some? ==> IsCover(lib, r.value.value, h))
    && (r.StopIteration? ==> Joker in h)
  }

  /** Every answer of dfs is sound. */
  lemma {:induction false} SearchHandSound(lib: seq<Group>, h: Hand)
    requires ValidLibrary(lib)
    ensures Sound(lib, h, SearchHand(lib, h))
    decreases |h|, 3, 0
  {
    DfsSound(lib, CanonicalKey(h));
  }

  lemma {:induction false} DfsSound(lib: seq<Group>, s: State)
    requires ValidLibrary(lib) && IsCanonical(s)
    ensures Sound(lib, MultisetOf(s), Dfs(lib, s))
    decreases |MultisetOf(s)|, 2, 0
  {
    if s != [] {
      PivotIsLeastTile(s);
      KeysListed(s, 0);
      if FirstReal(s).Some? {
        TryFromSound(lib, MultisetOf(s), FirstReal(s).value, 0);
      }
    }
  }

  lemma {:induction false} TryFromSound(lib: seq<Group>, h: Hand, p: Key, i: nat)
    requires ValidLibrary(lib) && p in h && p != Joker && i <= |lib|
    ensures Sound(lib, h, TryFrom(lib, h, p, i))
    decreases |h|, 1, |lib| - i
  {
    if i < |lib| {
      TryFromStep(lib, h, p, i);
      AttemptSound(lib, h, p, i);
      if Failed(Attempt(lib, h, p, i)) {
        TryFromSound(lib, h, p, i + 1);
      }
    }
  }

  /** An attempt that succeeds places meld i, which holds the pivot, first. */
  lemma AttemptSound(lib: seq<Group>, h: Hand, p: Key, i: nat)
    requires ValidLibrary(lib) && p in h && p != Joker && i < |lib|
    ensures Sound(lib, h, Attempt(lib, h, p, i))
    ensures var r := Attempt(lib, h, p, i);
      r.Returned? && r.value.Some? ==> |r.value.value| > 0 && r.value.value[0].0 == lib[i] && Contains(lib[i], p)
    decreases |h|, 0, 2
  {
    if Contains(lib[i], p) && Shortfall(h, lib[i]) <= h[Joker] {
      PlaceSound(lib, h, p, lib[i]);
    }
  }

  lemma {:induction false} PlaceSound(lib: seq<Group>, h: Hand, p: Key, g: Group)
    requires ValidLibrary(lib) && ValidGroup(g) && p in h && Contains(g, p) && Shortfall(h, g) <= h[Joker]
    requires g in lib
    ensures Sound(lib, h, Place(lib, h, p, g))
    ensures var r := Place(lib, h, p, g);
      r.Returned? && r.value.Some? ==> |r.value.value| > 0 && r.value.value[0].0 == g
    decreases |h|, 0, 1
  {
    ShortfallIsMissing(h, g);
    DescendSound(lib, h, p, g);
    var (js, r) := Descend(lib, h, p, g);
    if r.Returned? && r.value.Some? {
      PrependCover(lib, (g, js), r.value.value, Subtract(h, g).0, h);
    }
  }

  lemma {:induction false} DescendSound(lib: seq<Group>, h: Hand, p: Key, g: Group)
    requires ValidLibrary(lib) && ValidGroup(g) && p in h && Contains(g, p) && Shortfall(h, g) <= h[Joker]
    ensures var (js, r) := Descend(lib, h, p, g);
      && js == Subtract(h, g).1
      && Sound(lib, Subtract(h, g).0, r)
    decreases |h|, 0, 0
  {
    ShortfallIsMissing(h, g);
    var (rest, js) := Subtract(h, g);
    ContainsIsMember(g, p);
    SubtractShrinks(h, g, p);
    SearchHandSound(lib, rest);
  }

  /** A placed meld before a cover of what it leaves covers the whole hand. */
  lemma PrependCover(lib: seq<Group>, m: Meld, sol: Solution, rest: Hand, h: Hand)
    requires Placed(lib, m) && IsCover(lib, sol, rest) && rest + Used(m.0, m.1) == h
    ensures IsCover(lib, [m] + sol, h) && ([m] + sol)[0] == m
  {
    assert ([m] + sol)[1..] == sol;
  }

  lemma {:induction false} ContainsIsMember(g: Group, p: Key)
    requires ValidGroup(g)
    ensures Contains(g, p) <==> p in GroupMs(g)
  {
    if Contains(g, p) {
      var i :| 0 <= i < |g| && g[i].0 == p;
      GroupMsAt(g, i);
    } else {
      GroupMsOutside(g, p);
    }
  }

  // ---------------------------------------------------------------------------
  // Search order

  /** One turn of the loop: a failed attempt passes on to the next meld, any other outcome ends the loop. */
  lemma TryFromStep(lib: seq<Group>, h: Hand, p: Key, i: nat)
    requires ValidLibrary(lib) && p in h && p != Joker && i < |lib|
    ensures TryFrom(lib, h, p, i) == if Failed(Attempt(lib, h, p, i)) then TryFrom(lib, h, p, i + 1) else Attempt(lib, h, p, i)
  {
  }

  /** The loop's result is the first attempt, in list order, that does not come back with None. */
  lemma {:induction false} TryFromFirst(lib: seq<Group>, h: Hand, p: Key, i: nat, j: nat)
    requires ValidLibrary(lib) && p in h && p != Joker && i <= j < |lib|
    requires forall k :: i <= k < j ==> Failed(Attempt(lib, h, p, k))
    requires !Failed(Attempt(lib, h, p, j))
    ensures TryFrom(lib, h, p, i) == Attempt(lib, h, p, j)
    decreases j - i
  {
    TryFromStep(lib, h, p, i);
    if i < j {
      TryFromFirst(lib, h, p, i + 1, j);
    }
  }

  /** When every attempt from i on comes back with None, so does the loop. */
  lemma {:induction false} TryFromExhausted(lib: seq<Group>, h: Hand, p: Key, i: nat)
    requires ValidLibrary(lib) && p in h && p != Joker && i <= |lib|
    requires forall k :: i <= k < |lib| ==> Failed(Attempt(lib, h, p, k))
    ensures TryFrom(lib, h, p, i) == Returned(None)
    decreases |lib| - i
  {
    if i < |lib| {
      TryFromStep(lib, h, p, i);
      TryFromExhausted(lib, h, p, i + 1);
    }
  }

  /** No attempt that would succeed or raise is skipped: the loop then does not come back with None. */
  lemma {:induction false} TryFromReaches(lib: seq<Group>, h: Hand, p: Key, i: nat, j: nat)
    requires ValidLibrary(lib) && p in h && p != Joker && i <= j < |lib|
    requires !Failed(Attempt(lib, h, p, j))
    ensures !Failed(TryFrom(lib, h, p, i))
    decreases j - i
  {
    TryFromStep(lib, h, p, i);
    if i < j && Failed(Attempt(lib, h, p, i)) {
      TryFromReaches(lib, h, p, i + 1, j);
    }
  }

  /**
   * A meld that holds the pivot and passes `can_subtract` ends the loop unless
   * the search of what it leaves comes back with None, and raises when that
   * search raises.
   */
  lemma AttemptReaches(lib: seq<Group>, h: Hand, p: Key, i: nat)
    requires ValidLibrary(lib) && p in h && p != Joker && i < |lib|
    requires Contains(lib[i], p) && Shortfall(h, lib[i]) <= h[Joker] && Feasible(h, lib[i])
    ensures !Failed(SearchHand(lib, Subtract(h, lib[i]).0)) ==> !Failed(Attempt(lib, h, p, i))
    ensures SearchHand(lib, Subtract(h, lib[i]).0).StopIteration? ==> Attempt(lib, h, p, i).StopIteration?
  {
    var g := lib[i];
    assert Attempt(lib, h, p, i) == Place(lib, h, p, g);
    assert Descend(lib, h, p, g).1 == SearchHand(lib, Subtract(h, g).0);
  }
}
