/**
 * The greedy placement driver of the main block: candidate batches from the
 * reserve (`all_k_subsets`), and the rounds that move the first batch the
 * solver accepts from the reserve onto the board.
 */
module Driver {
  import opened Tiles
  import opened Hands
  import opened Combinatorics
  import opened Solver
  import opened Verdict

  // ---------------------------------------------------------------------------
  // Token lists

  /** A list of well-formed tokens splits into two lists of well-formed tokens, and back. */
  lemma WellFormedConcat(a: seq<Token>, b: seq<Token>)
    ensures AllWellFormed(a + b) <==> AllWellFormed(a) && AllWellFormed(b)
  {
    if AllWellFormed(a + b) {
      forall j | 0 <= j < |a|
        ensures WellFormed(a[j])
      {
        assert a[j] == (a + b)[j];
      }
      forall j | 0 <= j < |b|
        ensures WellFormed(b[j])
      {
        assert b[j] == (a + b)[|a| + j];
      }
    }
    if AllWellFormed(a) && AllWellFormed(b) {
      forall j | 0 <= j < |a + b|
        ensures WellFormed((a + b)[j])
      {
        if j >= |a| {
          assert (a + b)[j] == b[j - |a|];
        }
      }
    }
  }

  lemma AppendTwice(a: seq<Token>, b: seq<Token>, c: seq<Token>)
    ensures (a + b) + c == a + (b + c)
  {
  }

  /** Tokens drawn from a list of well-formed tokens are well formed. */
  lemma WellFormedDrawn(a: seq<Token>, b: seq<Token>)
    requires multiset(a) <= multiset(b) && AllWellFormed(b)
    ensures AllWellFormed(a)
  {
    forall j | 0 <= j < |a|
      ensures WellFormed(a[j])
    {
      assert a[j] in multiset(b);
      var i :| 0 <= i < |b| && b[i] == a[j];
    }
  }

  /** `[x for x in lst if x != 'J']`. */
  function WithoutJokers(lst: seq<Token>): (w: seq<Token>)
    ensures "J" !in w
    ensures forall x :: multiset(w)[x] == if x == "J" then 0 else multiset(lst)[x]
    ensures IsSubseq(w, lst)
  {
    if lst == [] then []
    else
      var rest := WithoutJokers(lst[1..]);
      assert lst == [lst[0]] + lst[1..];
      if lst[0] == "J" then rest else [lst[0]] + rest
  }

  /** A list without a joker token is its own filtering. */
  lemma {:induction false} NoJokersToDrop(lst: seq<Token>)
    requires "J" !in lst
    ensures WithoutJokers(lst) == lst
  {
    if lst != [] {
      NoJokersToDrop(lst[1..]);
      assert lst == [lst[0]] + lst[1..];
    }
  }

  // ---------------------------------------------------------------------------
  // all_k_subsets

  /**
   * What `all_k_subsets(lst)` returns: the one- and then the two-element
   * selections of the tokens other than "J", by position. Three-element
   * batches are never produced (the range stops at 2).
   */
  function KSubsets(lst: seq<Token>): seq<seq<Token>> {
    var w := WithoutJokers(lst);
    Combinations(w, 1) + Combinations(w, 2)
  }

  /** all_k_subsets: filter out the jokers, then extend by the selections of size 1 .. min(3, n + 1) - 1. */
  method AllKSubsets(lst: seq<Token>) returns (res: seq<seq<Token>>)
    ensures res == KSubsets(lst)
  {
    var tmp := lst;
    res := [];
    if "J" in tmp {
      tmp := WithoutJokers(tmp);
    } else {
      NoJokersToDrop(tmp);
    }
    var n := |tmp|;
    for k := 1 to Min(3, n + 1)
      invariant tmp == WithoutJokers(lst)
      invariant res == if k == 1 then [] else if k == 2 then Combinations(tmp, 1) else KSubsets(lst)
    {
      res := res + Combinations(tmp, k);
    }
    if n < 2 {
      CombinationsCount(tmp, 2);
      CombinationsCount(tmp, 1);
    }
  }

  /**
   * Every batch holds one or two tokens, no "J", and takes tokens of the list
   * at increasing positions, never more copies than the list holds.
   */
  lemma KSubsetsShape(lst: seq<Token>, c: seq<Token>)
    requires c in KSubsets(lst)
    ensures 1 <= |c| <= 2 && "J" !in c
    ensures IsSubseq(c, WithoutJokers(lst))
    ensures multiset(c) <= multiset(lst)
  {
    var w := WithoutJokers(lst);
    if c in Combinations(w, 1) {
      CombinationsAreSubseqs(w, 1, c);
    } else {
      CombinationsAreSubseqs(w, 2, c);
    }
    SubseqMultiset(c, w);
    forall x
      ensures multiset(c)[x] <= multiset(lst)[x]
    {
    }
    assert "J" !in c by {
      assert multiset(c)["J"] <= multiset(w)["J"] == 0;
    }
  }

  /** Every selection of one or two non-joker tokens by position is a batch. */
  lemma KSubsetsComplete(lst: seq<Token>, c: seq<Token>)
    requires 1 <= |c| <= 2 && IsSubseq(c, WithoutJokers(lst))
    ensures c in KSubsets(lst)
  {
    var w := WithoutJokers(lst);
    SubseqInCombinations(w, c);
    InOneOrTwo(w, c, |c|);
  }

  /** Every token of the list other than "J" is a batch on its own. */
  lemma KSubsetsHasSingles(lst: seq<Token>, i: nat)
    requires i < |WithoutJokers(lst)|
    ensures [WithoutJokers(lst)[i]] in KSubsets(lst)
  {
    var w := WithoutJokers(lst);
    SingleIsSubseq(w, i);
    KSubsetsComplete(lst, [w[i]]);
  }

  /** Every two tokens other than "J", at increasing positions, form a batch. */
  lemma KSubsetsHasPairs(lst: seq<Token>, i: nat, j: nat)
    requires i < j < |WithoutJokers(lst)|
    ensures [WithoutJokers(lst)[i], WithoutJokers(lst)[j]] in KSubsets(lst)
  {
    var w := WithoutJokers(lst);
    PairIsSubseq(w, i, j);
    KSubsetsComplete(lst, [w[i], w[j]]);
  }

  lemma InOneOrTwo(w: seq<Token>, c: seq<Token>, k: nat)
    requires (k == 1 || k == 2) && c in Combinations(w, k)
    ensures c in Combinations(w, 1) + Combinations(w, 2)
  {
    if k == 1 {
      assert c in Combinations(w, 1);
    } else {
      assert k == 2;
      assert c in Combinations(w, 2);
    }
  }

  /**
   * The n single tokens come first, in list order, followed by the
   * n (n - 1) / 2 pairs, where n counts the non-joker tokens.
   */
  lemma KSubsetsOrder(lst: seq<Token>)
    ensures var w := WithoutJokers(lst);
            && |KSubsets(lst)| == |w| + |w| * (|w| - 1) / 2
            && forall i :: 0 <= i < |w| ==> KSubsets(lst)[i] == [w[i]]
  {
    var w := WithoutJokers(lst);
    CombinationsOfOne(w);
    CombinationsCount(w, 2);
    PairsCount(|w|);
  }

  lemma {:induction false} PairsCount(n: nat)
    ensures Binom(n, 2) == n * (n - 1) / 2
  {
    if n > 0 {
      PairsCount(n - 1);
      assert Binom(n - 1, 1) == n - 1 by {
        OnesCount(n - 1);
      }
    }
  }

  lemma {:induction false} OnesCount(n: nat)
    ensures Binom(n, 1) == n
  {
    if n > 0 {
      OnesCount(n - 1);
    }
  }

  // ---------------------------------------------------------------------------
  // list.remove

  /** The position of the first occurrence of x, where `list.remove` looks. */
  function FirstIndex(lst: seq<Token>, x: Token): (i: nat)
    requires x in lst
    ensures i < |lst| && lst[i] == x && x !in lst[..i]
  {
    if lst[0] == x then 0
    else
      var i := FirstIndex(lst[1..], x);
      assert lst[..i + 1] == [lst[0]] + lst[1..][..i];
      i + 1
  }

  /** `lst.remove(x)`: drop the first occurrence of x (x must occur: otherwise Python raises). */
  function RemoveFirst(lst: seq<Token>, x: Token): (r: seq<Token>)
    requires x in lst
    ensures multiset(r) == multiset(lst) - multiset{x}
    ensures |r| == |lst| - 1
  {
    var i := FirstIndex(lst, x);
    assert lst == lst[..i] + [x] + lst[i + 1..];
    lst[..i] + lst[i + 1..]
  }

  /** `for i in batch: lst.remove(i)`, the removals taken in batch order. */
  function RemoveEach(lst: seq<Token>, batch: seq<Token>): (r: seq<Token>)
    requires multiset(batch) <= multiset(lst)
    ensures multiset(r) == multiset(lst) - multiset(batch)
    ensures multiset(r) <= multiset(lst)
    ensures |r| == |lst| - |batch|
  {
    if batch == [] then lst
    else
      var x := batch[0];
      assert batch == [x] + batch[1..];
      assert x in multiset(lst);
      RemoveEach(RemoveFirst(lst, x), batch[1..])
  }

  // ---------------------------------------------------------------------------
  // The greedy rounds, over any decision procedure shaped like solve_and_print

  /**
   * A decision on a token list: True, False, or a StopIteration that
   * propagates. solve_and_print is one (`Verdict.SolveAndPrint`).
   */
  type Decider = seq<Token> --> Exec<bool>

  /** The decision is defined on every list of well-formed tokens. */
  ghost predicate Decides(solve: Decider) {
    forall t :: AllWellFormed(t) ==> solve.requires(t)
  }

  /** The decision raises only on lists that hold a "J". */
  ghost predicate RaisesOnJokersOnly(solve: Decider)
    requires Decides(solve)
  {
    forall t :: AllWellFormed(t) ==> solve(t).StopIteration? ==> "J" in t
  }

  /** How the main block ends. */
  datatype Outcome =
    | AllClear                                          // the whole reserve fits at once
    | Crashed                                           // the decision raised
    | Settled(board: seq<Token>, reserve: seq<Token>)   // a round found no batch

  /**
   * The loop over the candidates from position i on: the position of the first
   * batch for which the decision answers True, None when every one answers
   * False, and the raise of the first call that raises.
   */
  function FirstFit(solve: Decider, board: seq<Token>, cands: seq<seq<Token>>, i: nat): (r: Exec<Option<nat>>)
    requires Decides(solve) && i <= |cands|
    requires forall j :: 0 <= j < |cands| ==> AllWellFormed(board + cands[j])
    ensures r.Returned? && r.value.Some? ==> i <= r.value.value < |cands|
    decreases |cands| - i
  {
    if i == |cands| then Returned(None)
    else
      match solve(board + cands[i])
      case StopIteration => StopIteration
      case Returned(true) => Returned(Some(i))
      case Returned(false) => FirstFit(solve, board, cands, i + 1)
  }

  /**
   * The position found is the first from i on whose call answers True, every
   * earlier one answering False; None means every call answered False; a raise
   * comes from some call that raised.
   */
  lemma {:induction false} FirstFitFacts(solve: Decider, board: seq<Token>, cands: seq<seq<Token>>, i: nat)
    requires Decides(solve) && i <= |cands|
    requires forall j :: 0 <= j < |cands| ==> AllWellFormed(board + cands[j])
    ensures var r := FirstFit(solve, board, cands, i);
            r.Returned? && r.value.Some? ==>
              && solve(board + cands[r.value.value]) == Returned(true)
              && forall j :: i <= j < r.value.value ==> solve(board + cands[j]) == Returned(false)
    ensures FirstFit(solve, board, cands, i) == Returned(None) ==>
              forall j :: i <= j < |cands| ==> solve(board + cands[j]) == Returned(false)
    ensures FirstFit(solve, board, cands, i).StopIteration? ==>
              exists j :: i <= j < |cands| && solve(board + cands[j]).StopIteration?
    decreases |cands| - i
  {
    if i < |cands| && solve(board + cands[i]) == Returned(false) {
      FirstFitFacts(solve, board, cands, i + 1);
    }
  }

  /** The board with any batch of the reserve is a list of well-formed tokens. */
  lemma BatchesWellFormed(board: seq<Token>, reserve: seq<Token>)
    requires AllWellFormed(board) && AllWellFormed(reserve)
    ensures forall c :: c in KSubsets(reserve) ==> AllWellFormed(board + c)
  {
    forall c | c in KSubsets(reserve)
      ensures AllWellFormed(board + c)
    {
      KSubsetsShape(reserve, c);
      WellFormedDrawn(c, reserve);
      WellFormedConcat(board, c);
    }
  }

  /** One round: the first batch of `all_k_subsets(reserve)` the board accepts. */
  function Round(solve: Decider, board: seq<Token>, reserve: seq<Token>): Exec<Option<seq<Token>>>
    requires Decides(solve) && AllWellFormed(board) && AllWellFormed(reserve)
  {
    BatchesWellFormed(board, reserve);
    match FirstFit(solve, board, KSubsets(reserve), 0)
    case StopIteration => StopIteration
    case Returned(None) => Returned(None)
    case Returned(Some(j)) => Returned(Some(KSubsets(reserve)[j]))
  }

  /**
   * The rounds from a board and a reserve on: commit the round's batch (append
   * it to the board, remove its tokens from the reserve) and go on, until a
   * round finds nothing. The reserve shrinks by the batch each round, so the
   * rounds end.
   */
  function Settle(solve: Decider, board: seq<Token>, reserve: seq<Token>): Outcome
    requires Decides(solve) && AllWellFormed(board) && AllWellFormed(reserve)
    decreases |reserve|
  {
    match Round(solve, board, reserve)
    case StopIteration => Crashed
    case Returned(None) => Settled(board, reserve)
    case Returned(Some(c)) =>
      assert c in KSubsets(reserve);
      KSubsetsShape(reserve, c);
      var rest := RemoveEach(reserve, c);
      WellFormedDrawn(rest, reserve);
      WellFormedDrawn(c, reserve);
      WellFormedConcat(board, c);
      Settle(solve, board + c, rest)
  }

  /**
   * The main block: try the board with the whole reserve; when that fails,
   * run the rounds from the board and the reserve.
   */
  function Greedy(solve: Decider, rawTiles: seq<Token>, rawHands: seq<Token>): Outcome
    requires Decides(solve) && AllWellFormed(rawTiles + rawHands)
  {
    match solve(rawTiles + rawHands)
    case StopIteration => Crashed
    case Returned(true) => AllClear
    case Returned(false) =>
      WellFormedConcat(rawTiles, rawHands);
      Settle(solve, rawTiles, rawHands)
  }

  /**
   * One round of the `for selected in all_k_subsets(...)` loop: call the
   * decision on the board with each batch in turn and stop at the first True
   * (None when there is none; a raise propagates).
   */
  method FirstBatch(solve: Decider, tiles: seq<Token>, hands: seq<Token>) returns (r: Exec<Option<seq<Token>>>)
    requires Decides(solve) && AllWellFormed(tiles) && AllWellFormed(hands)
    ensures r == Round(solve, tiles, hands)
  {
    var cands := AllKSubsets(hands);
    BatchesWellFormed(tiles, hands);
    for i := 0 to |cands|
      invariant FirstFit(solve, tiles, cands, 0) == FirstFit(solve, tiles, cands, i)
    {
      var isValid := solve(tiles + cands[i]);
      if isValid.StopIteration? {
        return StopIteration;
      }
      if isValid.value {
        return Returned(Some(cands[i]));
      }
    }
    return Returned(None);
  }

  /** A round that commits c leaves a well-formed board and reserve, and the rounds go on from there. */
  lemma Committed(solve: Decider, tiles: seq<Token>, hands: seq<Token>, c: seq<Token>)
    requires Decides(solve) && AllWellFormed(tiles) && AllWellFormed(hands)
    requires Round(solve, tiles, hands) == Returned(Some(c))
    ensures 1 <= |c| && "J" !in c && multiset(c) <= multiset(hands)
    ensures AllWellFormed(tiles + c) && AllWellFormed(RemoveEach(hands, c))
    ensures Settle(solve, tiles, hands) == Settle(solve, tiles + c, RemoveEach(hands, c))
  {
    var cands := KSubsets(hands);
    BatchesWellFormed(tiles, hands);
    var j := FirstFit(solve, tiles, cands, 0).value.value;
    assert cands[j] == c;
    KSubsetsShape(hands, c);
    WellFormedDrawn(c, hands);
    WellFormedConcat(tiles, c);
    WellFormedDrawn(RemoveEach(hands, c), hands);
  }

  /** Removing a batch is removing its first token, then the rest of the batch. */
  lemma RemoveStep(lst: seq<Token>, batch: seq<Token>)
    requires batch != [] && multiset(batch) <= multiset(lst)
    ensures batch[0] in lst
    ensures multiset(batch[1..]) <= multiset(RemoveFirst(lst, batch[0]))
    ensures RemoveEach(lst, batch) == RemoveEach(RemoveFirst(lst, batch[0]), batch[1..])
  {
    assert batch == [batch[0]] + batch[1..];
    assert batch[0] in multiset(lst);
  }

  /** `for i in list(selected): current_hands.remove(i)`. */
  method RemoveBatch(hands: seq<Token>, selected: seq<Token>) returns (rest: seq<Token>)
    requires multiset(selected) <= multiset(hands)
    ensures rest == RemoveEach(hands, selected)
  {
    rest := hands;
    var todo := selected;
    while todo != []
      invariant multiset(todo) <= multiset(rest)
      invariant RemoveEach(hands, selected) == RemoveEach(rest, todo)
    {
      RemoveStep(rest, todo);
      rest := RemoveFirst(rest, todo[0]);
      todo := todo[1..];
    }
  }

  /**
   * The main block, step by step: the first call, then rounds, each commit
   * appending the batch to the board and to the list of added tokens and
   * removing it from the reserve one token at a time.
   */
  method GreedyPlace(solve: Decider, rawTiles: seq<Token>, rawHands: seq<Token>) returns (outcome: Outcome, added: seq<Token>)
    requires Decides(solve) && AllWellFormed(rawTiles + rawHands)
    ensures outcome == Greedy(solve, rawTiles, rawHands)
    ensures outcome.Settled? ==> outcome.board == rawTiles + added
  {
    added := [];
    var isValid := solve(rawTiles + rawHands);
    if isValid.StopIteration? {
      return Crashed, added;
    }
    if isValid.value {
      return AllClear, added;
    }
    WellFormedConcat(rawTiles, rawHands);
    var tiles, hands := rawTiles, rawHands;
    while true
      invariant AllWellFormed(tiles) && AllWellFormed(hands)
      invariant tiles == rawTiles + added
      invariant Greedy(solve, rawTiles, rawHands) == Settle(solve, tiles, hands)
      decreases |hands|
    {
      var found := FirstBatch(solve, tiles, hands);
      match found
      case StopIteration =>
        return Crashed, added;
      case Returned(None) =>
        return Settled(tiles, hands), added;
      case Returned(Some(selected)) =>
        Committed(solve, tiles, hands, selected);
        AppendTwice(rawTiles, added, selected);
        tiles := tiles + selected;
        added := added + selected;
        hands := RemoveBatch(hands, selected);
    }
  }

  // ---------------------------------------------------------------------------
  // What the rounds achieve

  /**
   * board2 and reserve2 come from board and reserve by moving tokens: board2
   * is board followed by tokens other than "J", and those tokens together with
   * reserve2 are exactly the tokens of reserve.
   */
  predicate Moved(board: seq<Token>, reserve: seq<Token>, board2: seq<Token>, reserve2: seq<Token>) {
    && |board| <= |board2| && board2[..|board|] == board
    && "J" !in board2[|board|..]
    && multiset(board2[|board|..]) + multiset(reserve2) == multiset(reserve)
  }

  lemma Refill(a: multiset<Token>, r: multiset<Token>)
    requires a <= r
    ensures a + (r - a) == r
  {
  }

  /** Moving c and then moving more is one move. */
  lemma MovedOn(board: seq<Token>, reserve: seq<Token>, c: seq<Token>, rest: seq<Token>, board2: seq<Token>, reserve2: seq<Token>)
    requires "J" !in c && multiset(c) <= multiset(reserve) && multiset(rest) == multiset(reserve) - multiset(c)
    requires Moved(board + c, rest, board2, reserve2)
    ensures Moved(board, reserve, board2, reserve2)
  {
    var tail := board2[|board + c|..];
    assert board2 == board + c + tail by {
      assert board2 == board2[..|board + c|] + tail;
    }
    assert board2[..|board|] == board;
    assert board2[|board|..] == c + tail;
    calc {
      multiset(board2[|board|..]) + multiset(reserve2);
      multiset(c) + (multiset(tail) + multiset(reserve2));
      multiset(c) + multiset(rest);
      { Refill(multiset(c), multiset(reserve)); }
      multiset(reserve);
    }
  }

  /**
   * The rounds never end all clear; with a decision that raises only on a
   * "J", they crash only when the board holds one; and when they settle,
   * tokens were moved from the reserve, every batch of the final reserve was
   * refused, and the final board is one the decision accepted unless nothing
   * was moved.
   */
  lemma {:induction false} SettleFacts(solve: Decider, board: seq<Token>, reserve: seq<Token>)
    requires Decides(solve) && RaisesOnJokersOnly(solve)
    requires AllWellFormed(board) && AllWellFormed(reserve)
    ensures !Settle(solve, board, reserve).AllClear?
    ensures Settle(solve, board, reserve).Crashed? ==> "J" in board
    ensures var o := Settle(solve, board, reserve);
            o.Settled? ==>
              && Moved(board, reserve, o.board, o.reserve)
              && AllWellFormed(o.board) && AllWellFormed(o.reserve)
              && (forall c :: c in KSubsets(o.reserve) ==> AllWellFormed(o.board + c) && solve(o.board + c) == Returned(false))
              && (o.board != board ==> solve(o.board) == Returned(true))
    decreases |reserve|
  {
    var cands := KSubsets(reserve);
    BatchesWellFormed(board, reserve);
    FirstFitFacts(solve, board, cands, 0);
    match FirstFit(solve, board, cands, 0)
    case StopIteration =>
      var j :| 0 <= j < |cands| && solve(board + cands[j]).StopIteration?;
      KSubsetsShape(reserve, cands[j]);
    case Returned(None) =>
      assert board[|board|..] == [];
      forall c | c in cands
        ensures AllWellFormed(board + c) && solve(board + c) == Returned(false)
      {
        var j :| 0 <= j < |cands| && cands[j] == c;
      }
    case Returned(Some(j)) =>
      var c := cands[j];
      assert Round(solve, board, reserve) == Returned(Some(c));
      Committed(solve, board, reserve, c);
      var rest := RemoveEach(reserve, c);
      SettleFacts(solve, board + c, rest);
      var o := Settle(solve, board + c, rest);
      if o.Crashed? {
        assert "J" in board + c;
      }
      if o.Settled? {
        MovedOn(board, reserve, c, rest, o.board, o.reserve);
      }
  }

  // ---------------------------------------------------------------------------
  // The main block with solve_and_print

  /** solve_and_print decides every list of well-formed tokens and raises only on a "J". */
  lemma SolveAndPrintIsDecider()
    ensures Decides(SolveAndPrint) && RaisesOnJokersOnly(SolveAndPrint)
  {
    forall t | AllWellFormed(t)
      ensures SolveAndPrint(t).StopIteration? ==> "J" in t
    {
      RaisesOnlyWithJokers(t);
    }
  }

  /**
   * The main block: it ends all clear exactly when solve_and_print accepts the
   * board with the whole reserve; a crash needs a joker, on the board unless
   * the first call raised; and when it settles, the board is the initial board
   * followed by tokens moved from the reserve, none of them "J", the board with
   * the whole reserve cannot be laid out, the final board can be laid out
   * unless nothing was moved, and no batch of the final reserve can be laid
   * out with the final board.
   */
  lemma GreedyFacts(rawTiles: seq<Token>, rawHands: seq<Token>)
    requires AllWellFormed(rawTiles + rawHands)
    ensures Greedy(SolveAndPrint, rawTiles, rawHands).AllClear? <==> SolveAndPrint(rawTiles + rawHands) == Returned(true)
    ensures Greedy(SolveAndPrint, rawTiles, rawHands).Crashed? ==>
              "J" in rawTiles || (SolveAndPrint(rawTiles + rawHands).StopIteration? && "J" in rawHands)
    ensures var o := Greedy(SolveAndPrint, rawTiles, rawHands);
            o.Settled? ==>
              && Moved(rawTiles, rawHands, o.board, o.reserve)
              && !Solvable(rawTiles + rawHands)
              && AllWellFormed(o.board)
              && (|o.board| > |rawTiles| ==> Solvable(o.board))
              && forall c :: c in KSubsets(o.reserve) ==> AllWellFormed(o.board + c) && !Solvable(o.board + c)
  {
    SolveAndPrintIsDecider();
    SolveAndPrintDecides(rawTiles + rawHands);
    RaisesOnlyWithJokers(rawTiles + rawHands);
    WellFormedConcat(rawTiles, rawHands);
    if SolveAndPrint(rawTiles + rawHands) == Returned(false) {
      SettleFacts(SolveAndPrint, rawTiles, rawHands);
      var o := Settle(SolveAndPrint, rawTiles, rawHands);
      if o.Settled? {
        if |o.board| > |rawTiles| {
          SolveAndPrintDecides(o.board);
        }
        NothingSolvable(o.board, o.reserve);
      }
    }
  }

  /** Batches solve_and_print refused cannot be laid out with the board. */
  lemma NothingSolvable(board: seq<Token>, reserve: seq<Token>)
    requires forall c :: c in KSubsets(reserve) ==> AllWellFormed(board + c) && SolveAndPrint(board + c) == Returned(false)
    ensures forall c :: c in KSubsets(reserve) ==> AllWellFormed(board + c) && !Solvable(board + c)
  {
    forall c | c in KSubsets(reserve)
      ensures AllWellFormed(board + c) && !Solvable(board + c)
    {
      SolveAndPrintDecides(board + c);
    }
  }

  /** The main block as the program runs it, with solve_and_print as the decision. */
  method MainBlock(rawTiles: seq<Token>, rawHands: seq<Token>) returns (outcome: Outcome, added: seq<Token>)
    requires AllWellFormed(rawTiles + rawHands)
    ensures outcome == Greedy(SolveAndPrint, rawTiles, rawHands)
    ensures outcome.Settled? ==> outcome.board == rawTiles + added
  {
    SolveAndPrintIsDecider();
    outcome, added := GreedyPlace(SolveAndPrint, rawTiles, rawHands);
  }
}
