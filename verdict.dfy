/**
 * The verdict of `solve_and_print`: parse the tokens, search the canonical
 * state of the hand over the meld library, and answer True when a layout was
 * found and False when the search came back with None. A StopIteration raised
 * inside the search is not caught and ends the program.
 */
module Verdict {
  import opened Tiles
  import opened Hands
  import opened Canonical
  import opened Melds
  import opened Solver
  import opened Completeness

  /** Every library meld is a valid meld Counter. */
  lemma LibraryIsValid()
    ensures ValidLibrary(Library())
  {
    forall i | 0 <= i < |Library()|
      ensures ValidGroup(Library()[i])
    {
      LibraryValid(Library()[i]);
    }
  }

  /** solve_and_print(tiles, raw_tiles), without its printing. */
  function SolveAndPrint(tiles: seq<Token>): Exec<bool>
    requires AllWellFormed(tiles)
  {
    LibraryIsValid();
    match SearchHand(Library(), Parsed(tiles))
    case StopIteration => StopIteration
    case Returned(None) => Returned(false)
    case Returned(Some(_)) => Returned(true)
  }

  /** The tiles can be laid out, every tile in exactly one library meld. */
  ghost predicate Solvable(tiles: seq<Token>)
    requires AllWellFormed(tiles)
  {
    exists sol :: IsCover(Library(), sol, Parsed(tiles))
  }

  /**
   * Whenever solve_and_print answers, it answers True exactly when the tiles
   * can be laid out in library melds.
   */
  lemma SolveAndPrintDecides(tiles: seq<Token>)
    requires AllWellFormed(tiles)
    ensures SolveAndPrint(tiles).Returned? ==> (SolveAndPrint(tiles).value <==> Solvable(tiles))
  {
    var lib, h := Library(), Parsed(tiles);
    LibraryIsValid();
    SearchHandSound(lib, h);
    var r := SearchHand(lib, h);
    if r.Returned? && r.value.Some? {
      assert IsCover(lib, r.value.value, h);
    }
    if Solvable(tiles) {
      var sol :| IsCover(lib, sol, h);
      SearchHandComplete(lib, h, sol);
    }
  }

  /** solve_and_print raises only on tiles that include a joker. */
  lemma RaisesOnlyWithJokers(tiles: seq<Token>)
    requires AllWellFormed(tiles)
    ensures SolveAndPrint(tiles).StopIteration? ==> "J" in tiles
  {
    LibraryIsValid();
    SearchHandSound(Library(), Parsed(tiles));
    ParsedJokers(tiles);
  }

  /** A non-empty hand of jokers only has no pivot: dfs raises on it. */
  lemma JokersOnlyRaise(lib: seq<Group>, n: nat)
    requires ValidLibrary(lib) && n > 0
    ensures SearchHand(lib, JokerMs(n)) == StopIteration
  {
    var s := [(Joker, n)];
    assert MultisetOf(s) == JokerMs(n) by {
      assert s[1..] == [];
    }
    CanonicalKeyUnique(JokerMs(n), s);
    assert FirstReal(s) == FirstReal(s[1..]) == None;
    assert SearchHand(lib, JokerMs(n)) == Dfs(lib, s);
  }

  // ---------------------------------------------------------------------------
  // A hand that can be laid out, on which solve_and_print raises

  /** The red tiles 1 to 3 and a joker. */
  function LeftoverTokens(): seq<Token> {
    ["R1", "R2", "R3", "J"]
  }

  function Red(n: nat): Key {
    Colored('R', n)
  }

  lemma LeftoverParsed()
    ensures AllWellFormed(LeftoverTokens())
    ensures Parsed(LeftoverTokens()) == multiset{Red(1), Red(2), Red(3), Joker}
  {
    var t := LeftoverTokens();
    TokenRoundTrip(Red(1));
    TokenRoundTrip(Red(2));
    TokenRoundTrip(Red(3));
    assert TokenOf(Red(1)) == t[0] && TokenOf(Red(2)) == t[1] && TokenOf(Red(3)) == t[2];
    assert AllWellFormed(t);
    var t1, t2, t3 := t[..1], t[..2], t[..3];
    assert t1[..0] == [] && t2[..1] == t1 && t3[..2] == t2 && t[..3] == t3;
    assert TileKeys(t1) == [Red(1)];
    assert TileKeys(t2) == [Red(1), Red(2)];
    assert TileKeys(t3) == [Red(1), Red(2), Red(3)];
    assert TileKeys(t) == [Red(1), Red(2), Red(3), Joker];
  }

  /** The red run 1 .. len holds each of R1 .. R(len) once and nothing else. */
  lemma RedRunCounts(len: nat, x: Key)
    requires 3 <= len <= MAX_NUMBER
    ensures GroupMs(RunGroup('R', 1, len))[x] == if x.Colored? && x.colour == 'R' && 1 <= x.number <= len then 1 else 0
  {
    var g := RunGroup('R', 1, len);
    RunGroupShape('R', 1, len);
    ShapesAreValid(g);
    if x.Colored? && x.colour == 'R' && 1 <= x.number <= len {
      assert g[x.number - 1].0 == x;
      GroupMsAt(g, x.number - 1);
    } else {
      GroupMsOutside(g, x);
    }
  }

  /** R1 R2 R3 J lays out as the run R1-R4 with the joker standing in for R4. */
  lemma LeftoverSolvable()
    ensures AllWellFormed(LeftoverTokens()) && Solvable(LeftoverTokens())
  {
    LeftoverParsed();
    var g := RunGroup('R', 1, 4);
    RunGroupShape('R', 1, 4);
    ShapeInLibrary(g);
    LongRunCovers(Library(), Parsed(LeftoverTokens()));
  }

  /** In any list holding R1-R4, that run with a joker for R4 covers R1 R2 R3 J. */
  lemma LongRunCovers(lib: seq<Group>, h: Hand)
    requires RunGroup('R', 1, 4) in lib
    requires h == multiset{Red(1), Red(2), Red(3), Joker}
    ensures IsCover(lib, [(RunGroup('R', 1, 4), [Red(4)])], h)
  {
    var g := RunGroup('R', 1, 4);
    RedRunCounts(4, Red(4));
    RunWithJokerUses();
    var sol: Solution := [(g, [Red(4)])];
    assert Placed(lib, sol[0]);
    assert TilesOf(sol[1..]) == multiset{};
  }

  /** R1-R4 with a joker for R4 takes exactly R1, R2, R3 and a joker. */
  lemma RunWithJokerUses()
    ensures Used(RunGroup('R', 1, 4), [Red(4)]) == multiset{Red(1), Red(2), Red(3), Joker}
  {
    forall x
      ensures Used(RunGroup('R', 1, 4), [Red(4)])[x] == multiset{Red(1), Red(2), Red(3), Joker}[x]
    {
      RunWithJokerAt(x);
    }
  }

  /** R1-R4 with a joker for R4 takes R1, R2, R3 and a joker, key by key. */
  lemma RunWithJokerAt(x: Key)
    ensures Used(RunGroup('R', 1, 4), [Red(4)])[x] == multiset{Red(1), Red(2), Red(3), Joker}[x]
  {
    RedRunCounts(4, x);
    assert multiset([Red(4)]) == multiset{Red(4)};
    JokerMsAt(1, x);
  }

  /**
   * dfs on R1 R2 R3 J takes the library's first meld, the run R1-R3, and is
   * left with a lone joker, on which `next` raises; the raise ends the search
   * before the run R1-R4 is tried.
   */
  lemma LeftoverRaises()
    ensures AllWellFormed(LeftoverTokens()) && SolveAndPrint(LeftoverTokens()) == StopIteration
  {
    LeftoverParsed();
    LibraryIsValid();
    LibraryHead();
    RaisesAfterFirstRun(Library(), Parsed(LeftoverTokens()));
  }

  /** Over any library that starts with the run R1-R3, the search of R1 R2 R3 J raises. */
  lemma RaisesAfterFirstRun(lib: seq<Group>, h: Hand)
    requires ValidLibrary(lib) && |lib| > 0 && lib[0] == RunGroup('R', 1, 3)
    requires h == multiset{Red(1), Red(2), Red(3), Joker}
    ensures SearchHand(lib, h) == StopIteration
  {
    StartsAtRedOne(lib, h);
    var g := lib[0];
    assert Contains(g, Red(1)) by {
      assert g[0].0 == Red(1);
    }
    ResidualIsLoneJoker(h, g);
    JokersOnlyRaise(lib, 1);
    AttemptReaches(lib, h, Red(1), 0);
    TryFromStep(lib, h, Red(1), 0);
  }

  /** The pivot of R1 R2 R3 J is R1, and the search starts at the first meld. */
  lemma StartsAtRedOne(lib: seq<Group>, h: Hand)
    requires ValidLibrary(lib)
    requires h == multiset{Red(1), Red(2), Red(3), Joker}
    ensures Red(1) in h
    ensures SearchHand(lib, h) == TryFrom(lib, h, Red(1), 0)
  {
    var s: State := [(Red(1), 1), (Red(2), 1), (Red(3), 1), (Joker, 1)];
    assert MultisetOf(s) == h by {
      assert |s[1..][1..][1..][1..]| == 0;
    }
    CanonicalKeyUnique(h, s);
  }

  /** The run R1-R3 fits in R1 R2 R3 J without a joker. */
  lemma FirstRunFits(h: Hand, g: Group)
    requires g == RunGroup('R', 1, 3) && h == multiset{Red(1), Red(2), Red(3), Joker}
    ensures ValidGroup(g) && GroupMs(g) - h == multiset{}
    ensures Shortfall(h, g) <= h[Joker] && Feasible(h, g)
    ensures forall x :: x != Joker ==> h[x] - Min(h[x], GroupMs(g)[x]) == 0
  {
    RunGroupShape('R', 1, 3);
    ShapesAreValid(g);
    forall x
      ensures (GroupMs(g) - h)[x] == 0
      ensures x != Joker ==> h[x] - Min(h[x], GroupMs(g)[x]) == 0
    {
      RedRunCounts(3, x);
    }
    ShortfallIsMissing(h, g);
  }

  /** Taking the run R1-R3 from R1 R2 R3 J takes three real tiles and leaves the joker. */
  lemma ResidualIsLoneJoker(h: Hand, g: Group)
    requires g == RunGroup('R', 1, 3) && h == multiset{Red(1), Red(2), Red(3), Joker}
    ensures ValidGroup(g) && Shortfall(h, g) <= h[Joker] && Feasible(h, g)
    ensures Subtract(h, g).0 == JokerMs(1) && Subtract(h, g).1 == []
  {
    FirstRunFits(h, g);
    var r := Subtract(h, g);
    assert |r.1| == |multiset(r.1)| == 0;
    forall x
      ensures r.0[x] == JokerMs(1)[x]
    {
      JokerMsAt(1, x);
    }
  }
}
