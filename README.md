# Rummikub layout solver — a Dafny model

The program decides whether a collection of Rummikub tiles can be laid out
completely as melds. A meld is either a *run* or a *group*:

- A run is three or more consecutive numbers of one colour.
- A group is one number in three or four distinct colours.

A joker may stand in for any tile of a meld. When the whole collection of
tiles does not fit, a greedy driver looks for more tiles to lay out. It moves
one or two tiles at a time from the player's hand (the *reserve*) onto the
table (the *board*), and keeps a move whenever the board plus the moved tiles
can still be laid out.

The model follows the program's own structure, one module per part:

- `Tiles` (`tiles.dfy`): tile keys and the token parser (`parse_tiles`).
  - A token is "J" (the joker), or a colour character followed by a decimal
    number.
  - A hand is a multiset of keys.
- `Hands` (`hands.dfy`): the two primitives that take one meld from a hand.
  - `can_subtract` checks that the hand's jokers cover the tiles the meld lacks.
  - `subtract` takes the real tiles first, then jokers, and records what each
    joker stands for.
- `Canonical` (`canonical.dfy`): `counter_key`, the sorted state tuple the
  search memoises on, and the *pivot*. The pivot is the first coloured key of
  that tuple.
- `Melds` (`library.dfy`): `generate_all_groups`, the fixed list of 329 melds.
  It holds 264 runs followed by 65 groups.
- `Combinatorics` (`combinatorics.dfy`): `itertools.combinations` as a function
  on sequences, with its count and its subsequence characterisation.
- `Solver` (`solver.dfy`): the depth-first search `dfs` inside
  `solve_and_print`.
  - An empty hand is solved.
  - Otherwise every library meld that holds the pivot and fits is tried in
    library order.
  - The first residual that can be solved wins.
  - A hand of jokers only has no pivot, so `next` raises StopIteration, and
    nothing catches it.
- `Completeness` (`completeness.dfy`): the search never answers "no layout"
  for a hand that has a layout. The proof exchanges jokers for real tiles in a
  given layout until it matches the meld the search tries.
- `Verdict` (`verdict.dfy`): the True/False result of `solve_and_print`.
  - Whenever it answers, True means exactly that the tiles can be laid out.
  - It raises only when there is a joker.
  - A concrete hand, R1 R2 R3 J, can be laid out (as the run R1-R4 with the
    joker as R4), yet `solve_and_print` raises on it. The first meld in the
    library is the run R1-R3. Taking it leaves a lone joker, and `next` raises
    on that hand before any other meld is tried.
- `Driver` (`driver.dfy`): `all_k_subsets` and the greedy main loop.
  - The loop is written once, generic over a decision procedure shaped like
    `solve_and_print`, and proved against a recursive specification
    (`Greedy`/`Settle`).
  - `MainBlock` instantiates it with `solve_and_print`.

When no meld fits, `dfs` returns None, and `solve_and_print` turns that into
False (rummikub.py:120-122). The search can also end a third way:
`next` raises StopIteration when a residual hand holds only jokers
(rummikub.py:112), and nothing catches it. The model keeps all three
outcomes: every search result is `Returned(...)` or `StopIteration`, and the
driver's outcome has a `Crashed` case.

## Model

| member | source | states |
|---|---|---|
| Tiles.TileKey | rummikub.py:14-17 | defines the key a token is counted under: the joker for "J", otherwise the first character with `int` of the rest |
| Tiles.ParseTiles | rummikub.py:11-18 | the Counter built token by token is the multiset of the tokens' keys; it holds one key per token, and its joker count is the number of "J" tokens |
| Tiles.ParsedJokers | rummikub.py:14-15 | the parsed hand's joker count equals the number of "J" tokens in the list |
| Tiles.ParsedCanonicalCounts | rummikub.py:13-17 | when every token is spelled canonically, each key is counted exactly as often as its spelling occurs in the list |
| Tiles.TokenRoundTrip | rummikub.py:17 | spelling a key as colour plus number and parsing it back gives the key again |
| Tiles.DecimalRoundTrip | rummikub.py:17 | `int` of the decimal spelling of n is n |
| Canonical.KeyLt | rummikub.py:22 | defines the sort order `(k == 'J', k)`: coloured keys by colour then number, the joker after them all |
| Canonical.CanonicalKey | rummikub.py:21-22 | the state is strictly sorted by (is joker, key), with positive counts, and lists exactly the hand's tiles |
| Canonical.CanonicalKeyUnique | rummikub.py:21-22 | a sorted state with positive counts that lists a hand is that hand's canonical key, so equal hands share one memo key |
| Canonical.KeyLtTotal | rummikub.py:22 | the sort order is total and antisymmetric on keys |
| Canonical.KeyLtTransitive | rummikub.py:22 | the sort order is transitive |
| Canonical.FirstReal | rummikub.py:112 | defines the pivot: the first non-joker key of the state, or none when there is no such key |
| Canonical.PivotIsLeastTile | rummikub.py:112 | the pivot is missing exactly when the hand holds only jokers; otherwise it is a coloured tile of the hand below every other coloured tile |
| Melds.Library | rummikub.py:43 | defines `ALL_GROUPS`: the runs colour by colour, start by start, length by length, then the groups number by number, in `combinations` order |
| Melds.AppendRuns | rummikub.py:27-34 | the colour and start loops append exactly the library's runs, in generation order |
| Melds.AppendRunsFrom | rummikub.py:29-34 | the length loop with its `break` appends the runs of one colour from one start, lengths 3 upwards while the run ends at 13 at most |
| Melds.AppendNumberGroups | rummikub.py:35-39 | the number and size loops append exactly the library's groups, in generation order |
| Melds.AppendSets | rummikub.py:37-39 | the innermost loop appends one group of the number per colour selection, in selection order |
| Melds.GenerateAllGroups | rummikub.py:25-40 | the nested loops with their early break build exactly the meld library |
| Melds.LibraryIsRunsAndGroups | rummikub.py:25-40 | a meld is in the library if and only if it is a run (3 to 13 consecutive numbers of one colour, ending at 13 at most) or a group (one number, 3 or 4 distinct colours in R, B, K, O order) |
| Melds.LibraryValid | rummikub.py:33-38 | every library meld has distinct coloured keys, each with count 1 |
| Melds.ShapesAreValid | rummikub.py:33-38 | every run and every group has distinct coloured keys, each with count 1 |
| Melds.ShapeInLibrary | rummikub.py:25-40 | every run and every group appears in the library |
| Melds.LibrarySize | rummikub.py:25-40 | the library lists 264 runs, then 65 groups, 329 melds in all |
| Melds.LibraryHead | rummikub.py:27-34 | the first library meld is the red run 1-2-3 |
| Melds.RunGroupShape | rummikub.py:30-33 | a run built from a colour, a start and a length is a sequence of consecutive numbers in that colour |
| Hands.Shortfall | rummikub.py:47-50 | defines `need_j`: for each meld item in order, the count the hand lacks, summed |
| Hands.CanSubtract | rummikub.py:46-51 | accepts if and only if the tiles the meld lacks from the hand are no more than the hand's jokers |
| Hands.ShortfallIsMissing | rummikub.py:47-51 | the summed per-key shortfall is the number of meld tiles missing from the hand |
| Hands.JokersFor | rummikub.py:64-69 | defines `joker_used_as`: each meld item in order, repeated as many times as the hand lacks it |
| Hands.JokersForAreMissing | rummikub.py:64-69 | the jokers' stand-ins are exactly the meld tiles missing from the hand |
| Hands.Subtract | rummikub.py:54-70 | the stand-ins are `Hands.JokersFor`, each missing tile in meld order, so as a multiset they are exactly the missing tiles; the residual plus the real tiles and jokers taken gives back the hand; the jokers drop by the number of stand-ins, and every other key drops by min(have, wanted) |
| Hands.SubtractTiles | rummikub.py:54-70 | the item-by-item loop computes the same residual and stand-in list as `Hands.Subtract` |
| Hands.SubtractShrinks | rummikub.py:114-116 | the residual has fewer tiles than the hand when the meld holds a tile of the hand, so the search terminates |
| Solver.SearchHand | rummikub.py:116-120 | defines a search call `dfs(counter_key(h))`: the search of a hand's canonical state |
| Solver.Dfs | rummikub.py:108-119 | defines `dfs`: an empty state gives the empty layout; no pivot raises StopIteration; otherwise the loop over the library from its first meld |
| Solver.TryFrom | rummikub.py:113-119 | defines the `for g in ALL_GROUPS` loop from meld i on: the first attempt that does not come back None ends it, and an exhausted loop gives None |
| Solver.Attempt | rummikub.py:114 | defines one pass of the loop body: meld i is tried only when it holds the pivot and `can_subtract` accepts it |
| Solver.Place | rummikub.py:115-118 | defines the result of trying a meld: a raise propagates, None stays None, and a layout of the residual is prefixed with the meld and its stand-ins |
| Solver.Descend | rummikub.py:115-116 | defines the call `subtract` then `dfs(counter_key(rest))`, and checks that the residual is smaller, so the recursion terminates |
| Solver.SearchHandSound | rummikub.py:108-119 | a returned layout uses library melds whose jokers stand in for tokens of their meld, and takes exactly the hand's tiles; a raise happens only on a hand with a joker |
| Solver.TryFromFirst | rummikub.py:113-119 | the loop returns the result of the first meld whose attempt does not come back empty |
| Solver.TryFromExhausted | rummikub.py:113-119 | when every attempt comes back empty, the loop returns None |
| Solver.TryFromReaches | rummikub.py:113-119 | if any later attempt succeeds or raises, the loop does not return None |
| Solver.AttemptReaches | rummikub.py:114-118 | a meld holding the pivot that fits passes its residual's outcome on: a found layout or a raise is not turned into None |
| Completeness.SearchHandComplete | rummikub.py:108-119 | when library melds can lay out the whole hand, the search does not return None |
| Verdict.SolveAndPrint | rummikub.py:104-122 | defines the verdict: parse, search the library, False on None, True on a layout, and the StopIteration passed on |
| Verdict.SolveAndPrintDecides | rummikub.py:104-122 | whenever solve_and_print returns, it returns True exactly when the tiles can be laid out as library melds |
| Verdict.RaisesOnlyWithJokers | rummikub.py:112 | solve_and_print raises only on token lists holding a "J" |
| Verdict.JokersOnlyRaise | rummikub.py:109-112 | the search raises on a non-empty hand of jokers only |
| Verdict.LeftoverSolvable | rummikub.py:25-40 | R1 R2 R3 J can be laid out: the run R1-R4 with the joker as R4 |
| Verdict.LeftoverRaises | rummikub.py:108-120 | solve_and_print raises on R1 R2 R3 J, although that hand can be laid out |
| Combinatorics.CombinationsCount | rummikub.py:137-138 | `combinations(s, k)` yields C(len s, k) tuples |
| Combinatorics.CombinationsAreSubseqs | rummikub.py:137-138 | every tuple `combinations(s, k)` yields has length k and is a subsequence of s |
| Combinatorics.SubseqInCombinations | rummikub.py:137-138 | every subsequence of s of length k is among `combinations(s, k)` |
| Combinatorics.CombinationsOfOne | rummikub.py:137-138 | the 1-combinations of s are its elements as singletons, in order |
| Driver.WithoutJokers | rummikub.py:134-135 | the filtered list holds no "J", keeps every other token with its multiplicity, and is a subsequence of the input |
| Driver.KSubsets | rummikub.py:131-139 | defines the candidate batches: the 1-combinations, then the 2-combinations, of the list without "J" |
| Driver.AllKSubsets | rummikub.py:131-139 | the candidates are the 1-combinations then the 2-combinations of the list without "J" |
| Driver.KSubsetsShape | rummikub.py:131-139 | every candidate has one or two tokens, none of them "J", drawn from the list (as a subsequence and as a sub-multiset) |
| Driver.KSubsetsComplete | rummikub.py:136-138 | every subsequence of one or two tokens of the list without "J" is a candidate |
| Driver.KSubsetsHasSingles | rummikub.py:136-138 | every token of the list other than "J" is a candidate on its own |
| Driver.KSubsetsHasPairs | rummikub.py:136-138 | every two tokens other than "J", at increasing positions of the filtered list, form a candidate |
| Driver.KSubsetsOrder | rummikub.py:136-138 | there are n + n(n-1)/2 candidates for n non-joker tokens, and the singletons come first, in list order |
| Driver.FirstIndex | rummikub.py:163 | the index `remove` deletes at holds the token, and no earlier position does |
| Driver.RemoveFirst | rummikub.py:163 | removing a token present in the list drops exactly one copy of it |
| Driver.RemoveEach | rummikub.py:162-163 | removing the batch's tokens one by one drops exactly the batch's multiset from the reserve |
| Driver.RemoveBatch | rummikub.py:162-163 | the removal loop computes `Driver.RemoveEach` |
| Driver.FirstFit | rummikub.py:155-164 | the batch index the `for selected` loop stops at lies among the candidates not yet tried |
| Driver.Round | rummikub.py:155-164 | defines one round: the first candidate batch the decision accepts, None when it accepts none, and its raise passed on |
| Driver.Settle | rummikub.py:153-166 | defines the rounds: commit each round's batch (append it to the board, remove it from the reserve) until a round finds none; the reserve shrinks each round, so the rounds end |
| Driver.Greedy | rummikub.py:145-166 | defines the main block: all clear when the decision accepts the board with the whole reserve, a crash when it raises, otherwise the rounds |
| Driver.FirstFitFacts | rummikub.py:155-164 | the batch chosen is the first whose call answers True, all earlier calls answering False; no batch means every call answered False; a raise comes from some call |
| Driver.FirstBatch | rummikub.py:154-164 | the `for selected` loop with its early break computes one round of the specification |
| Driver.Committed | rummikub.py:158-164 | a chosen batch has one or two non-joker tokens from the reserve, and committing it continues the rounds from the extended board and the reduced reserve |
| Driver.GreedyPlace | rummikub.py:145-166 | the main loop ends with the outcome of the recursive specification, and a settled board is the initial board followed by the tokens added |
| Driver.SettleFacts | rummikub.py:153-166 | the rounds never end all clear; a crash needs a "J" on the board; a settled board extends the start by non-joker reserve tokens, the decision accepts it when anything moved, and it refuses every batch of the final reserve |
| Driver.SolveAndPrintIsDecider | rummikub.py:104-122 | solve_and_print is defined on every well-formed token list and raises only on lists holding a "J" |
| Driver.GreedyFacts | rummikub.py:145-166 | all clear exactly when solve_and_print accepts the whole reserve; a crash needs a joker; a settled board extends the initial board by non-joker reserve tokens, the whole collection cannot be laid out, the final board can be laid out when anything moved, and no batch of the final reserve can be laid out with it |
| Driver.NothingSolvable | rummikub.py:155-157 | batches solve_and_print refuses cannot be laid out with the board |
| Driver.MainBlock | rummikub.py:142-166 | the main block with solve_and_print ends with the specified outcome, and a settled board is the initial board followed by the tokens added |

## Left out

- Printing is not modelled. This covers the check mark, the numbered meld lines, `format_group_with_joker`, `ICON_MAP`, the `deepcopy` of the marked tiles, the tile counts and the running list of added tiles. It produces output only and does not affect any result. The `raw_tiles` argument of `solve_and_print` is used only by this printing, so `Verdict.SolveAndPrint` takes only the tiles.
- `lru_cache` on `dfs` is not modelled. Memoisation does not change the result of a pure search, so the model recomputes.
- The hard-coded tile and hand strings and their upper-casing and sorting are not modelled. `Driver.MainBlock` takes the board and the reserve as parameters.
- Tiles.WellFormed: tokens are assumed to be "J", or one character followed by ASCII decimal digits (a precondition everywhere). Tokens outside that form are not modelled: those Python's `int` still accepts, such as a sign, whitespace, underscores or non-ASCII digits, and those that raise, such as an empty token (IndexError at `t[0]`) or a non-numeric number (ValueError).
- Tile colours and numbers outside the library's range are parsed but never validated, as in the code. Such tiles belong to no library meld, so a list holding one is not solvable (`Solvable`).
- Counter bookkeeping (`del` of keys whose count reaches zero, `.get` with a default) is implicit: a hand is a multiset.
- Aliasing between `current_hands` and `raw_hands` is not modelled. The list is mutated in place, but `raw_hands` is not read again once the loop starts, so the model keeps the reserve as a value.
- Hands.Subtract requires that the hand's jokers cover the missing tiles. The code reaches `subtract` only after `can_subtract` accepts; without that guard, Python's Counter would go negative, and this is not modelled.
- Driver.RemoveFirst requires the token to be present. `list.remove` raises ValueError otherwise, and this cannot happen: every batch is drawn from the current reserve (`Driver.KSubsetsShape`).
- The StopIteration raised by `next` is modelled as a result value (`Exec.StopIteration`, `Outcome.Crashed`) rather than an exception that unwinds; the program stops at that point either way.
