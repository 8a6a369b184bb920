/**
 * The meld library (`generate_all_groups`, `ALL_GROUPS`): every run of one
 * colour and every group of one number, in the order the generator appends
 * them. Each meld is a Counter built from a generator of distinct keys, so its
 * items are those keys in generation order, each with count 1.
 */
module Melds {
  import opened Tiles
  import opened Hands
  import opened Combinatorics

  /** The run of colour c over start .. start + len - 1. */
  function RunGroup(c: char, start: nat, len: nat): (g: Group)
    ensures |g| == len
  {
    seq(len, i requires 0 <= i < len => (Colored(c, start + i), 1))
  }

  /** The group of number num in the colours cols, in that order. */
  function SetGroup(num: nat, cols: seq<char>): (g: Group)
    ensures |g| == |cols|
  {
    seq(|cols|, i requires 0 <= i < |cols| => (Colored(cols[i], num), 1))
  }

  // ---------------------------------------------------------------------------
  // The library, walked in the generator's loop order

  /** The runs of colour c from `start` with the lengths 3 .. n - 1 the length loop has passed. */
  function RunLengths(c: char, start: nat, n: nat): seq<Group>
  {
    if n <= 3 then []
    else RunLengths(c, start, n - 1)
         + (if start + (n - 1) - 1 <= MAX_NUMBER then [RunGroup(c, start, n - 1)] else [])
  }

  /** The runs of colour c for the starts 1 .. s - 1. */
  function RunsOfColour(c: char, s: nat): seq<Group>
  {
    if s <= 1 then [] else RunsOfColour(c, s - 1) + RunLengths(c, s - 1, 14)
  }

  /** The runs of the first ci colours of the palette. */
  function RunsUpTo(palette: seq<char>, ci: nat): seq<Group>
    requires ci <= |palette|
  {
    if ci == 0 then [] else RunsUpTo(palette, ci - 1) + RunsOfColour(palette[ci - 1], MAX_NUMBER + 1)
  }

  /** One group of number num per colour selection, in selection order. */
  function SetsOf(num: nat, cs: seq<seq<char>>): (r: seq<Group>)
    ensures |r| == |cs|
  {
    seq(|cs|, i requires 0 <= i < |cs| => SetGroup(num, cs[i]))
  }

  /**
   * The colour selections the group loop walks, one list per size:
   * `combinations(COLORS, 3)`, then `combinations(COLORS, 4)`.
   */
  function ColourChoices(): seq<seq<seq<char>>>
  {
    [Combinations(COLORS, 3), Combinations(COLORS, 4)]
  }

  /** The groups of number num, one per selection in the first k selection lists. */
  function SetsForNumber(choices: seq<seq<seq<char>>>, num: nat, k: nat): seq<Group>
    requires k <= |choices|
  {
    if k == 0 then [] else SetsForNumber(choices, num, k - 1) + SetsOf(num, choices[k - 1])
  }

  /** The groups of the numbers 1 .. m - 1. */
  function SetsUpTo(choices: seq<seq<seq<char>>>, m: nat): seq<Group>
  {
    if m <= 1 then [] else SetsUpTo(choices, m - 1) + SetsForNumber(choices, m - 1, |choices|)
  }

  /** `ALL_GROUPS`: all runs, colour by colour, then all groups, number by number. */
  function Library(): seq<Group>
  {
    RunsUpTo(COLORS, |COLORS|) + SetsUpTo(ColourChoices(), MAX_NUMBER + 1)
  }

  // ---------------------------------------------------------------------------
  // generate_all_groups

  /**
   * generate_all_groups: the run loops, then the group loops, appending to one
   * list; the result is exactly the library.
   */
  method GenerateAllGroups() returns (groups: seq<Group>)
    ensures groups == Library()
  {
    var runs := AppendRuns([]);
    assert runs == RunsUpTo(COLORS, |COLORS|);
    groups := AppendNumberGroups(runs);
  }

  /** The first loop nest of generate_all_groups: every colour, every start. */
  method AppendRuns(init: seq<Group>) returns (groups: seq<Group>)
    ensures groups == init + RunsUpTo(COLORS, |COLORS|)
  {
    groups := init;
    AppendEmpty(init);
    for ci := 0 to |COLORS|
      invariant groups == init + RunsUpTo(COLORS, ci)
    {
      var color := COLORS[ci];
      ghost var before := groups;
      AppendEmpty(before);
      for start := 1 to MAX_NUMBER + 1
        invariant groups == before + RunsOfColour(color, start)
      {
        groups := AppendRunsFrom(groups, color, start);
        StartStep(before, groups, color, start);
      }
      ColourStep(init, groups, COLORS, ci);
    }
  }

  /**
   * The innermost loop of generate_all_groups: the runs of one colour from one
   * start, lengths 3 upwards until the run would pass 13 (the `break`).
   */
  method AppendRunsFrom(init: seq<Group>, color: char, start: nat) returns (groups: seq<Group>)
    ensures groups == init + RunLengths(color, start, 14)
  {
    groups := init;
    AppendEmpty(init);
    for length := 3 to 14
      invariant groups == init + RunLengths(color, start, length)
    {
      if start + length - 1 > MAX_NUMBER {
        RunLengthsStop(color, start, length);
        break;
      }
      LengthStep(init, groups, color, start, length);
      groups := groups + [RunGroup(color, start, length)];
    }
  }

  /**
   * The second loop nest of generate_all_groups: for each number, the groups
   * of 3 and then of 4 colours, in `combinations` order.
   */
  method AppendNumberGroups(init: seq<Group>) returns (groups: seq<Group>)
    ensures groups == init + SetsUpTo(ColourChoices(), MAX_NUMBER + 1)
  {
    var sizes := [3, 4];
    ghost var choices := ColourChoices();
    groups := init;
    AppendEmpty(init);
    for num := 1 to MAX_NUMBER + 1
      invariant groups == init + SetsUpTo(choices, num)
    {
      ghost var before := groups;
      AppendEmpty(before);
      for si := 0 to |sizes|
        invariant groups == before + SetsForNumber(choices, num, si)
      {
        ghost var base := groups;
        var combos := Combinations(COLORS, sizes[si]);
        assert combos == choices[si];
        groups := AppendSets(groups, num, combos);
        SizeStep(before, base, groups, choices, num, si);
      }
      NumberStep(init, groups, choices, num);
    }
  }

  /** The innermost group loop: one group of number num per colour selection, in order. */
  method AppendSets(init: seq<Group>, num: nat, combos: seq<seq<char>>) returns (groups: seq<Group>)
    ensures groups == init + SetsOf(num, combos)
  {
    groups := init;
    ComboStart(init, num, combos);
    for j := 0 to |combos|
      invariant groups == init + SetsOf(num, combos[..j])
    {
      ComboStep(init, groups, num, combos, j);
      groups := groups + [SetGroup(num, combos[j])];
    }
    assert combos[..|combos|] == combos;
  }

  lemma AppendEmpty<T>(a: seq<T>)
    ensures a + [] == a
  {
  }

  lemma LengthStep(init: seq<Group>, groups: seq<Group>, c: char, start: nat, length: nat)
    requires 3 <= length && start + length - 1 <= MAX_NUMBER
    requires groups == init + RunLengths(c, start, length)
    ensures groups + [RunGroup(c, start, length)] == init + RunLengths(c, start, length + 1)
  {
    assert RunLengths(c, start, length + 1) == RunLengths(c, start, length) + [RunGroup(c, start, length)];
  }

  lemma StartStep(before: seq<Group>, groups: seq<Group>, c: char, start: nat)
    requires 1 <= start
    requires groups == (before + RunsOfColour(c, start)) + RunLengths(c, start, 14)
    ensures groups == before + RunsOfColour(c, start + 1)
  {
    assert RunsOfColour(c, start + 1) == RunsOfColour(c, start) + RunLengths(c, start, 14);
  }

  lemma ColourStep(init: seq<Group>, groups: seq<Group>, palette: seq<char>, ci: nat)
    requires ci < |palette|
    requires groups == (init + RunsUpTo(palette, ci)) + RunsOfColour(palette[ci], MAX_NUMBER + 1)
    ensures groups == init + RunsUpTo(palette, ci + 1)
  {
    assert RunsUpTo(palette, ci + 1) == RunsUpTo(palette, ci) + RunsOfColour(palette[ci], MAX_NUMBER + 1);
  }

  lemma ComboStart(base: seq<Group>, num: nat, cs: seq<seq<char>>)
    ensures base == base + SetsOf(num, cs[..0])
  {
    assert SetsOf(num, cs[..0]) == [];
  }

  lemma ComboStep(base: seq<Group>, groups: seq<Group>, num: nat, cs: seq<seq<char>>, j: nat)
    requires j < |cs|
    requires groups == base + SetsOf(num, cs[..j])
    ensures groups + [SetGroup(num, cs[j])] == base + SetsOf(num, cs[..j + 1])
  {
    assert SetsOf(num, cs[..j + 1]) == SetsOf(num, cs[..j]) + [SetGroup(num, cs[j])];
  }

  lemma SizeStep(before: seq<Group>, base: seq<Group>, groups: seq<Group>, choices: seq<seq<seq<char>>>, num: nat, k: nat)
    requires k < |choices|
    requires base == before + SetsForNumber(choices, num, k)
    requires groups == base + SetsOf(num, choices[k])
    ensures groups == before + SetsForNumber(choices, num, k + 1)
  {
    assert SetsForNumber(choices, num, k + 1) == SetsForNumber(choices, num, k) + SetsOf(num, choices[k]);
  }

  lemma NumberStep(init: seq<Group>, groups: seq<Group>, choices: seq<seq<seq<char>>>, num: nat)
    requires 1 <= num
    requires groups == (init + SetsUpTo(choices, num)) + SetsForNumber(choices, num, |choices|)
    ensures groups == init + SetsUpTo(choices, num + 1)
  {
    assert SetsUpTo(choices, num + 1) == SetsUpTo(choices, num) + SetsForNumber(choices, num, |choices|);
  }

  /** Once a run of some length passes 13, every longer one does: the `break` drops nothing. */
  lemma {:induction false} RunLengthsStop(c: char, start: nat, n: nat)
    requires 3 <= n <= 14 && start + n - 1 > MAX_NUMBER
    ensures RunLengths(c, start, 14) == RunLengths(c, start, n)
    decreases 14 - n
  {
    if n < 14 {
      RunLengthsStop(c, start, n + 1);
    }
  }

  // ---------------------------------------------------------------------------
  // The shape of a meld

  function Colour(k: Key): char {
    match k
    case Joker => 'J'
    case Colored(c, _) => c
  }

  /** The colours of a meld's keys, in item order. */
  function Colours(g: Group): (cs: seq<char>)
    ensures |cs| == |g|
  {
    seq(|g|, i requires 0 <= i < |g| => Colour(g[i].0))
  }

  /** Consecutive numbers of one colour from at least 1 to at most 13, at least three tiles, one of each. */
  predicate Consecutive(g: Group) {
    && |g| >= 3
    && g[0].0.Colored?
    && 1 <= g[0].0.number
    && g[0].0.number + |g| - 1 <= MAX_NUMBER
    && forall i :: 0 <= i < |g| ==> g[i] == (Colored(g[0].0.colour, g[0].0.number + i), 1)
  }

  /** A run: consecutive numbers in one of the four colours. */
  predicate IsRun(g: Group) {
    Consecutive(g) && g[0].0.colour in COLORS
  }

  /** One number from 1 to 13, three or four coloured tiles, one of each. */
  predicate SameNumber(g: Group) {
    && (|g| == 3 || |g| == 4)
    && g[0].0.Colored?
    && 1 <= g[0].0.number <= MAX_NUMBER
    && forall i :: 0 <= i < |g| ==> g[i].0.Colored? && g[i].0.number == g[0].0.number && g[i].1 == 1
  }

  /** A group: one number, three or four distinct colours taken in R, B, K, O order. */
  predicate IsNumberGroup(g: Group) {
    SameNumber(g) && IsSubseq(Colours(g), COLORS)
  }

  lemma RunGroupShape(c: char, start: nat, len: nat)
    requires 1 <= start && 3 <= len && start + len - 1 <= MAX_NUMBER
    ensures Consecutive(RunGroup(c, start, len)) && RunGroup(c, start, len)[0].0.colour == c
  {
  }

  lemma ConsecutiveIsRunGroup(g: Group)
    requires Consecutive(g)
    ensures g == RunGroup(g[0].0.colour, g[0].0.number, |g|)
  {
  }

  lemma SetGroupShape(num: nat, cols: seq<char>)
    requires 1 <= num <= MAX_NUMBER && (|cols| == 3 || |cols| == 4) && IsSubseq(cols, COLORS)
    ensures IsNumberGroup(SetGroup(num, cols))
  {
    assert Colours(SetGroup(num, cols)) == cols;
  }

  lemma {:induction false} RunLengthsAreRuns(c: char, start: nat, n: nat, g: Group)
    requires 1 <= start && g in RunLengths(c, start, n)
    ensures Consecutive(g) && g[0].0.colour == c
    decreases n
  {
    if n > 3 {
      if g in RunLengths(c, start, n - 1) {
        RunLengthsAreRuns(c, start, n - 1, g);
      } else {
        RunGroupShape(c, start, n - 1);
      }
    }
  }

  lemma {:induction false} RunsOfColourAreRuns(c: char, s: nat, g: Group)
    requires g in RunsOfColour(c, s)
    ensures Consecutive(g) && g[0].0.colour == c
    decreases s
  {
    if s > 1 {
      if g in RunsOfColour(c, s - 1) {
        RunsOfColourAreRuns(c, s - 1, g);
      } else {
        RunLengthsAreRuns(c, s - 1, 14, g);
      }
    }
  }

  lemma {:induction false} RunsUpToAreRuns(palette: seq<char>, ci: nat, g: Group)
    requires ci <= |palette| && g in RunsUpTo(palette, ci)
    ensures Consecutive(g) && g[0].0.colour in palette
    decreases ci
  {
    if ci > 0 {
      assert RunsUpTo(palette, ci) == RunsUpTo(palette, ci - 1) + RunsOfColour(palette[ci - 1], MAX_NUMBER + 1);
      if g in RunsUpTo(palette, ci - 1) {
        RunsUpToAreRuns(palette, ci - 1, g);
      } else {
        RunsOfColourAreRuns(palette[ci - 1], MAX_NUMBER + 1, g);
      }
    }
  }

  /** Every selection in every list has three or four colours, taken from COLORS in order. */
  predicate SelectionsFit(choices: seq<seq<seq<char>>>) {
    forall k, j :: 0 <= k < |choices| && 0 <= j < |choices[k]| ==>
      (|choices[k][j]| == 3 || |choices[k][j]| == 4) && IsSubseq(choices[k][j], COLORS)
  }

  lemma ColourChoicesFit()
    ensures SelectionsFit(ColourChoices())
  {
    var choices := ColourChoices();
    forall k, j | 0 <= k < |choices| && 0 <= j < |choices[k]|
      ensures (|choices[k][j]| == 3 || |choices[k][j]| == 4) && IsSubseq(choices[k][j], COLORS)
    {
      assert choices[k] == Combinations(COLORS, k + 3);
      CombinationsAreSubseqs(COLORS, k + 3, choices[k][j]);
    }
  }

  /** Every selection of three or four colours in order is listed, under its size. */
  lemma ColourChoicesComplete(cols: seq<char>)
    requires (|cols| == 3 || |cols| == 4) && IsSubseq(cols, COLORS)
    ensures cols in ColourChoices()[|cols| - 3]
  {
    SubseqInCombinations(COLORS, cols);
  }

  lemma {:induction false} SetsForNumberAreGroups(choices: seq<seq<seq<char>>>, num: nat, k: nat, g: Group)
    requires SelectionsFit(choices) && 1 <= num <= MAX_NUMBER
    requires k <= |choices| && g in SetsForNumber(choices, num, k)
    ensures IsNumberGroup(g)
    decreases k
  {
    if k > 0 {
      var sets := SetsOf(num, choices[k - 1]);
      assert SetsForNumber(choices, num, k) == SetsForNumber(choices, num, k - 1) + sets;
      if g in SetsForNumber(choices, num, k - 1) {
        SetsForNumberAreGroups(choices, num, k - 1, g);
      } else {
        var i :| 0 <= i < |sets| && sets[i] == g;
        SetGroupShape(num, choices[k - 1][i]);
      }
    }
  }

  lemma {:induction false} SetsUpToAreGroups(choices: seq<seq<seq<char>>>, m: nat, g: Group)
    requires SelectionsFit(choices) && m <= MAX_NUMBER + 1 && g in SetsUpTo(choices, m)
    ensures IsNumberGroup(g)
    decreases m
  {
    if m > 1 {
      assert SetsUpTo(choices, m) == SetsUpTo(choices, m - 1) + SetsForNumber(choices, m - 1, |choices|);
      if g in SetsUpTo(choices, m - 1) {
        SetsUpToAreGroups(choices, m - 1, g);
      } else {
        SetsForNumberAreGroups(choices, m - 1, |choices|, g);
      }
    }
  }

  lemma {:induction false} RunInRunLengths(c: char, start: nat, len: nat, n: nat)
    requires 3 <= len < n && start + len - 1 <= MAX_NUMBER
    ensures RunGroup(c, start, len) in RunLengths(c, start, n)
    decreases n
  {
    if len < n - 1 {
      RunInRunLengths(c, start, len, n - 1);
    }
  }

  lemma {:induction false} RunInRunsOfColour(c: char, start: nat, s: nat, g: Group)
    requires 1 <= start < s && g in RunLengths(c, start, 14)
    ensures g in RunsOfColour(c, s)
    decreases s
  {
    if start < s - 1 {
      RunInRunsOfColour(c, start, s - 1, g);
    }
    assert RunsOfColour(c, s) == RunsOfColour(c, s - 1) + RunLengths(c, s - 1, 14);
  }

  lemma {:induction false} RunInRunsUpTo(palette: seq<char>, ci: nat, c: char, start: nat, len: nat)
    requires ci <= |palette| && c in palette[..ci]
    requires 1 <= start && 3 <= len && start + len - 1 <= MAX_NUMBER
    ensures RunGroup(c, start, len) in RunsUpTo(palette, ci)
    decreases ci
  {
    assert RunsUpTo(palette, ci) == RunsUpTo(palette, ci - 1) + RunsOfColour(palette[ci - 1], MAX_NUMBER + 1);
    if c in palette[..ci - 1] {
      RunInRunsUpTo(palette, ci - 1, c, start, len);
    } else {
      assert palette[..ci] == palette[..ci - 1] + [palette[ci - 1]];
      RunInRunLengths(c, start, len, 14);
      RunInRunsOfColour(c, start, MAX_NUMBER + 1, RunGroup(c, start, len));
    }
  }

  lemma {:induction false} SetInSetsForNumber(choices: seq<seq<seq<char>>>, num: nat, k: nat, idx: nat, cols: seq<char>)
    requires idx < k <= |choices| && cols in choices[idx]
    ensures SetGroup(num, cols) in SetsForNumber(choices, num, k)
    decreases k
  {
    var sets := SetsOf(num, choices[k - 1]);
    assert SetsForNumber(choices, num, k) == SetsForNumber(choices, num, k - 1) + sets;
    if idx < k - 1 {
      SetInSetsForNumber(choices, num, k - 1, idx, cols);
    } else {
      var i :| 0 <= i < |choices[idx]| && choices[idx][i] == cols;
      assert sets[i] == SetGroup(num, cols);
    }
  }

  lemma {:induction false} SetInSetsUpTo(choices: seq<seq<seq<char>>>, num: nat, m: nat, g: Group)
    requires 1 <= num < m && g in SetsForNumber(choices, num, |choices|)
    ensures g in SetsUpTo(choices, m)
    decreases m
  {
    if num < m - 1 {
      SetInSetsUpTo(choices, num, m - 1, g);
    }
    assert SetsUpTo(choices, m) == SetsUpTo(choices, m - 1) + SetsForNumber(choices, m - 1, |choices|);
  }

  /** Every library meld is a run or a group. */
  lemma LibraryMeldShape(g: Group)
    requires g in Library()
    ensures IsRun(g) || IsNumberGroup(g)
  {
    if g in RunsUpTo(COLORS, |COLORS|) {
      RunsUpToAreRuns(COLORS, |COLORS|, g);
    } else {
      ColourChoicesFit();
      SetsUpToAreGroups(ColourChoices(), MAX_NUMBER + 1, g);
    }
  }

  /** Every run and every group is in the library. */
  lemma ShapeInLibrary(g: Group)
    requires IsRun(g) || IsNumberGroup(g)
    ensures g in Library()
  {
    if IsRun(g) {
      ConsecutiveIsRunGroup(g);
      assert COLORS[..|COLORS|] == COLORS;
      RunInRunsUpTo(COLORS, |COLORS|, g[0].0.colour, g[0].0.number, |g|);
    } else {
      var cols := Colours(g);
      assert g == SetGroup(g[0].0.number, cols);
      ColourChoicesComplete(cols);
      SetInSetsForNumber(ColourChoices(), g[0].0.number, 2, |cols| - 3, cols);
      SetInSetsUpTo(ColourChoices(), g[0].0.number, MAX_NUMBER + 1, g);
    }
  }

  /**
   * The library holds exactly the runs and the groups: every meld it lists has
   * one of the two shapes, and every meld of either shape is listed.
   */
  lemma LibraryIsRunsAndGroups(g: Group)
    ensures g in Library() <==> IsRun(g) || IsNumberGroup(g)
  {
    if g in Library() {
      LibraryMeldShape(g);
    } else if IsRun(g) || IsNumberGroup(g) {
      ShapeInLibrary(g);
    }
  }

  /** A run or a group is a valid meld Counter: distinct coloured keys, each once. */
  lemma ShapesAreValid(g: Group)
    requires IsRun(g) || IsNumberGroup(g)
    ensures ValidGroup(g)
    ensures forall i :: 0 <= i < |g| ==> g[i].1 == 1
  {
    if !IsRun(g) {
      assert Distinct(COLORS);
      SubseqDistinct(Colours(g), COLORS);
      forall i, j | 0 <= i < j < |g|
        ensures g[i].0 != g[j].0
      {
        assert Colours(g)[i] != Colours(g)[j];
      }
    }
  }

  /** Every library meld is a valid meld Counter whose tokens each have count 1. */
  lemma LibraryValid(g: Group)
    requires g in Library()
    ensures ValidGroup(g)
    ensures forall i :: 0 <= i < |g| ==> g[i].1 == 1
  {
    LibraryMeldShape(g);
    ShapesAreValid(g);
  }

  // ---------------------------------------------------------------------------
  // Counting

  lemma {:induction false} RunLengthsCount(c: char, start: nat, n: nat)
    requires 1 <= start && 3 <= n
    ensures |RunLengths(c, start, n)| ==
      if 15 - start <= 3 then 0 else if n <= 15 - start then n - 3 else 12 - start
    decreases n
  {
    if n > 3 {
      RunLengthsCount(c, start, n - 1);
    }
  }

  /** The number of runs of one colour for the starts 1 .. s - 1. */
  function RunTotal(s: nat): nat {
    if s <= 1 then 0 else RunTotal(s - 1) + (if s - 1 <= 11 then 12 - (s - 1) else 0)
  }

  lemma {:induction false} RunsOfColourCount(c: char, s: nat)
    ensures |RunsOfColour(c, s)| == RunTotal(s)
    decreases s
  {
    if s > 1 {
      RunsOfColourCount(c, s - 1);
      RunLengthsCount(c, s - 1, 14);
    }
  }

  lemma {:induction false} RunsUpToCount(palette: seq<char>, ci: nat)
    requires ci <= |palette|
    ensures |RunsUpTo(palette, ci)| == 66 * ci
    decreases ci
  {
    if ci > 0 {
      assert RunsUpTo(palette, ci) == RunsUpTo(palette, ci - 1) + RunsOfColour(palette[ci - 1], MAX_NUMBER + 1);
      RunsUpToCount(palette, ci - 1);
      RunsOfColourCount(palette[ci - 1], MAX_NUMBER + 1);
      assert RunTotal(14) == 66;
    }
  }

  /** Four selections of three colours and one of four. */
  lemma ColourChoicesCount()
    ensures |ColourChoices()| == 2 && |ColourChoices()[0]| == 4 && |ColourChoices()[1]| == 1
  {
    CombinationsCount(COLORS, 3);
    CombinationsCount(COLORS, 4);
    assert Binom(4, 3) == 4 && Binom(4, 4) == 1;
  }

  lemma SetsForNumberCount(choices: seq<seq<seq<char>>>, num: nat)
    requires |choices| == 2 && |choices[0]| == 4 && |choices[1]| == 1
    ensures |SetsForNumber(choices, num, 2)| == 5
  {
    assert SetsForNumber(choices, num, 1) == SetsForNumber(choices, num, 0) + SetsOf(num, choices[0]);
    assert SetsForNumber(choices, num, 2) == SetsForNumber(choices, num, 1) + SetsOf(num, choices[1]);
  }

  lemma {:induction false} SetsUpToCount(choices: seq<seq<seq<char>>>, m: nat)
    requires |choices| == 2 && |choices[0]| == 4 && |choices[1]| == 1
    ensures |SetsUpTo(choices, m)| == if m <= 1 then 0 else 5 * (m - 1)
    decreases m
  {
    if m > 1 {
      SetsUpToCount(choices, m - 1);
      SetsForNumberCount(choices, m - 1);
    }
  }

  /** 4 colours times 66 runs, plus 13 numbers times 5 groups: 329 melds. */
  lemma LibrarySize()
    ensures |RunsUpTo(COLORS, |COLORS|)| == 264
    ensures |SetsUpTo(ColourChoices(), MAX_NUMBER + 1)| == 65
    ensures |Library()| == 329
  {
    RunsUpToCount(COLORS, |COLORS|);
    ColourChoicesCount();
    SetsUpToCount(ColourChoices(), MAX_NUMBER + 1);
  }

  // ---------------------------------------------------------------------------
  // The first meld

  lemma {:induction false} RunLengthsHead(c: char, n: nat)
    requires 4 <= n
    ensures |RunLengths(c, 1, n)| > 0 && RunLengths(c, 1, n)[0] == RunGroup(c, 1, 3)
    decreases n
  {
    if n > 4 {
      RunLengthsHead(c, n - 1);
    }
  }

  lemma {:induction false} RunsOfColourHead(c: char, s: nat)
    requires 2 <= s
    ensures |RunsOfColour(c, s)| > 0 && RunsOfColour(c, s)[0] == RunGroup(c, 1, 3)
    decreases s
  {
    if s == 2 {
      RunLengthsHead(c, 14);
      assert RunsOfColour(c, s) == [] + RunLengths(c, 1, 14);
    } else {
      RunsOfColourHead(c, s - 1);
    }
  }

  lemma {:induction false} RunsUpToHead(palette: seq<char>, ci: nat)
    requires 1 <= ci <= |palette|
    ensures |RunsUpTo(palette, ci)| > 0 && RunsUpTo(palette, ci)[0] == RunGroup(palette[0], 1, 3)
    decreases ci
  {
    if ci == 1 {
      RunsOfColourHead(palette[0], MAX_NUMBER + 1);
      assert RunsUpTo(palette, ci) == [] + RunsOfColour(palette[0], MAX_NUMBER + 1);
    } else {
      RunsUpToHead(palette, ci - 1);
    }
  }

  /** The library opens with the red run 1-2-3: the first colour, the first start, the shortest length. */
  lemma LibraryHead()
    ensures |Library()| > 0 && Library()[0] == RunGroup('R', 1, 3)
  {
    RunsUpToHead(COLORS, |COLORS|);
  }
}
