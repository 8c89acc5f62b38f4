/** The board tests of Assets/Test/BoardTest/Editor/BlastRuleTests.cs:12-145.
    Each test method builds its board exactly as the test does and promises,
    in its postcondition, what the test asserts; the lemma beside it proves
    that promise about `Match.Move` on the board the test builds. */
module BoardScenarios {
  import opened Directions
  import opened Cells
  import opened TestBoards
  import opened GridRules
  import ItemTypes
  import Match
  import FloodFill
  import Rules
  import opened Wrappers

  // ---------------------------------------------------------------------
  // The boards the tests build

  /** What `BuildItems` returns, as a sequence. */
  function BuiltItems(width: nat, height: nat, defaultType: ItemTypes.ItemType): seq<ItemTypes.Item> {
    seq(2 * (width * height), i => if i < width * height then ItemTypes.Item(defaultType, 1) else ItemTypes.ZeroItem)
  }

  /** `items` after `items[k].itemType = t` for every `k` of `indexes`. */
  function Painted(items: seq<ItemTypes.Item>, indexes: seq<int>, t: ItemTypes.ItemType): (r: seq<ItemTypes.Item>)
    ensures |r| == |items|
  {
    seq(|items|, k requires 0 <= k < |items| => if k in indexes then items[k].(itemType := t) else items[k])
  }

  /** The tests' painting loop over an item array. */
  method PaintItems(items: array<ItemTypes.Item>, indexes: seq<int>, t: ItemTypes.ItemType)
    requires forall k :: 0 <= k < |indexes| ==> 0 <= indexes[k] < items.Length
    modifies items
    ensures items[..] == Painted(old(items[..]), indexes, t)
  {
    ghost var before := items[..];
    for i := 0 to |indexes|
      invariant items[..] == Painted(before, indexes[..i], t)
    {
      var k := indexes[i];
      items[k] := items[k].(itemType := t);
      assert indexes[..i + 1] == indexes[..i] + [k];
    }
    assert indexes[..|indexes|] == indexes;
  }

  /** The items of a test board: `defaultType` everywhere but on `painted`. */
  function TestItems(width: nat, height: nat, defaultType: ItemTypes.ItemType, painted: seq<int>,
                     paintType: ItemTypes.ItemType): seq<ItemTypes.Item> {
    Painted(BuiltItems(width, height, defaultType), painted, paintType)
  }

  /** A well-formed board whose cell `c` holds an item of `paintType`
      exactly when `c` is painted, and of `defaultType` otherwise. */
  predicate PaintedCells(cells: seq<BoardCell>, items: seq<ItemTypes.Item>, painted: seq<int>,
                         paintType: ItemTypes.ItemType, defaultType: ItemTypes.ItemType) {
    WellFormed(cells, |items|) &&
    forall c :: 0 <= c < |cells| ==>
      items[cells[c].itemIndex].itemType == (if c in painted then paintType else defaultType)
  }

  /** Such a board laid out on the `config` grid. */
  predicate PaintedGrid(config: Match.BoardConfig, cells: seq<BoardCell>, items: seq<ItemTypes.Item>,
                        painted: seq<int>, paintType: ItemTypes.ItemType, defaultType: ItemTypes.ItemType) {
    OnGrid(config, cells, items) && PaintedCells(cells, items, painted, paintType, defaultType)
  }

  /** Cell `c` holds item `c`. */
  predicate OwnItems(cells: seq<BoardCell>) {
    forall c :: 0 <= c < |cells| ==> cells[c].itemIndex == c
  }

  /** The board a test builds is such a board, and each cell holds its own
      item. */
  lemma TestBoardPainted(width: nat, height: nat, defaultType: ItemTypes.ItemType, painted: seq<int>,
                         paintType: ItemTypes.ItemType)
    ensures PaintedGrid(Match.BoardConfig(width, height), Grid(width, height),
                        TestItems(width, height, defaultType, painted, paintType), painted, paintType, defaultType)
    ensures OwnItems(Grid(width, height))
  {
    var items := TestItems(width, height, defaultType, painted, paintType);
    GridWellFormed(width, height, |items|);
    forall c | 0 <= c < width * height
      ensures Grid(width, height)[c].itemIndex == c
    {
      GridHoldsOwnItem(width, height, c);
    }
  }

  lemma SameTopologyTransitive(a: seq<BoardCell>, b: seq<BoardCell>, c: seq<BoardCell>)
    requires SameTopology(a, b) && SameTopology(a, c)
    ensures SameTopology(b, c)
  {
  }

  /** Swapping the items of two cells of the same type keeps the board
      painted the same way. */
  lemma SwapKeepsPainted(config: Match.BoardConfig, cells: seq<BoardCell>, items: seq<ItemTypes.Item>,
                         painted: seq<int>, paintType: ItemTypes.ItemType, defaultType: ItemTypes.ItemType,
                         a: int, b: int)
    requires PaintedGrid(config, cells, items, painted, paintType, defaultType)
    requires 0 <= a < |cells| && 0 <= b < |cells| && (a in painted <==> b in painted)
    ensures PaintedGrid(config, Match.Swap(cells, a, b), items, painted, paintType, defaultType)
  {
    var swapped := Match.Swap(cells, a, b);
    Match.SwapPermutesItems(cells, a, b, |items|);
    SameTopologyTransitive(cells, swapped, Grid(config.width, config.height));
  }

  // ---------------------------------------------------------------------
  // Facts about fills used by the scenarios

  /** A completed fill spreads: a selected cell's joinable neighbour is
      selected. */
  lemma Spreads(env: FloodFill.FillEnv, c: int, i: nat)
    requires FloodFill.EnvOk(env) && FloodFill.Fill(env).Some? && 0 <= c < |env.cells| && i < Count
    requires c in FloodFill.Fill(env).value.selected && FloodFill.Joinable(env, c, i)
    ensures FloodFill.Nbs(env, c)[i] in FloodFill.Fill(env).value.selected
  {
    var sel := FloodFill.Fill(env).value.selected;
    FloodFill.FillComplete(env);
    var q :| 0 <= q < |sel| && sel[q] == c;
    assert FloodFill.Closed(env, sel[q], sel);
  }

  /** A completed fill selects its seed. */
  lemma SeedSelected(env: FloodFill.FillEnv)
    requires FloodFill.EnvOk(env) && FloodFill.Fill(env).Some?
    ensures env.seed in FloodFill.Fill(env).value.selected
  {
    FloodFill.FillSound(env);
  }

  /** A second selected cell is a joinable neighbour of the seed: the fill
      grows from the seed only through such a neighbour. */
  lemma SecondJoinsSeed(env: FloodFill.FillEnv)
    requires FloodFill.EnvOk(env) && FloodFill.Fill(env).Some?
    ensures var sel := FloodFill.Fill(env).value.selected;
      |sel| >= 2 ==> exists i :: 0 <= i < Count && FloodFill.Joinable(env, env.seed, i) && FloodFill.Nbs(env, env.seed)[i] == sel[1]
  {
    var sel := FloodFill.Fill(env).value.selected;
    FloodFill.FillSound(env);
    if |sel| >= 2 {
      assert FloodFill.ReachedAt(env, sel, 1);
      assert sel[..1] == [env.seed];
      var j, i :| 0 <= j < 1 && 0 <= i < Count && 0 <= sel[..1][j] < |env.cells| &&
        HasFlag(env.mask, Flag(i)) && FloodFill.Nbs(env, sel[..1][j])[i] == sel[1];
      assert FloodFill.Joinable(env, env.seed, i);
    }
  }

  /** On a board where the painted cells are exactly those of the target
      type, a completed fill selects painted cells only, each once, starting
      with the seed. */
  lemma SelectsPainted(env: FloodFill.FillEnv, painted: seq<int>, paintType: ItemTypes.ItemType,
                       defaultType: ItemTypes.ItemType)
    requires FloodFill.EnvOk(env) && FloodFill.Fill(env).Some?
    requires forall c :: 0 <= c < |env.cells| ==>
      FloodFill.TypeAt(env, c) == (if c in painted then paintType else defaultType)
    requires FloodFill.Target(env) == paintType && paintType != defaultType
    ensures var sel := FloodFill.Fill(env).value.selected;
      |sel| >= 1 && sel[0] == env.seed && FloodFill.Distinct(sel) &&
      forall q :: 0 <= q < |sel| ==> sel[q] in painted
  {
    FloodFill.FillSound(env);
  }

  /** A sequence holding every member of `xs` is at least as long as `xs`
      is large. */
  lemma {:induction false} CoverSize(s: seq<int>, xs: set<int>)
    requires forall x :: x in xs ==> x in s
    ensures |xs| <= |s|
  {
    if s != [] {
      var last := s[|s| - 1];
      forall x | x in xs - {last}
        ensures x in s[..|s| - 1]
      {
        var k :| 0 <= k < |s| && s[k] == x;
        assert k < |s| - 1;
      }
      CoverSize(s[..|s| - 1], xs - {last});
    } else {
      assert forall x :: x !in xs;
    }
  }

  /** In a sequence of distinct entries every member occurs once. */
  lemma {:induction false} DistinctOnce(s: seq<int>, x: int)
    requires FloodFill.Distinct(s)
    ensures multiset(s)[x] == if x in s then 1 else 0
  {
    if s != [] {
      var init := s[..|s| - 1];
      assert s == init + [s[|s| - 1]];
      assert FloodFill.Distinct(init);
      DistinctOnce(init, x);
      assert s[|s| - 1] !in init;
    }
  }

  /** Two sequences of distinct entries, each holding every entry of the
      other, hold the same entries, which is what
      `CollectionAssert.AreEquivalent` compares. */
  lemma SameMembersEquivalent(s: seq<int>, t: seq<int>)
    requires FloodFill.Distinct(s) && FloodFill.Distinct(t)
    requires forall q :: 0 <= q < |s| ==> s[q] in t
    requires forall q :: 0 <= q < |t| ==> t[q] in s
    ensures multiset(s) == multiset(t)
  {
    forall x | true
      ensures multiset(s)[x] == multiset(t)[x]
    {
      DistinctOnce(s, x);
      DistinctOnce(t, x);
    }
  }

  // ---------------------------------------------------------------------
  // The moves of the tests

  /** On any grid, a board with at most four red cells among Special 1
      items never satisfies the Special 1 rule from a red cell: its fill
      completes and selects at most four cells, fewer than the five it
      needs. */
  lemma SpecialRejectsFewReds(config: Match.BoardConfig, cells: seq<BoardCell>, items: seq<ItemTypes.Item>,
                              painted: seq<int>, seed: int)
    requires PaintedCells(cells, items, painted, ItemTypes.BlastRed, ItemTypes.Special1)
    requires |cells| <= config.height * config.width
    requires 0 <= seed < |cells| && seed in painted && |painted| <= 4
    ensures Match.RuleRejected(cells, items, seed, Match.StandardRules(config)[0])
  {
    var env := Match.RuleEnv(cells, items, seed, Match.StandardRules(config)[0]);
    WholeBoardFits(env);
    SelectsPainted(env, painted, ItemTypes.BlastRed, ItemTypes.Special1);
    var sel := FloodFill.Fill(env).value.selected;
    var region := set x | x in painted;
    FloodFill.DistinctWithin(sel, region);
    CardinalityOfMembers(painted);
    SpecialRuleThreshold(cells, items, seed, config);
  }

  /** The members of a sequence are no more than its length. */
  lemma {:induction false} CardinalityOfMembers(s: seq<int>)
    ensures |set x | x in s| <= |s|
  {
    if s != [] {
      var init := s[..|s| - 1];
      assert (set x | x in s) == (set x | x in init) + {s[|s| - 1]};
      CardinalityOfMembers(init);
    }
  }

  /** The centre of a 5 by 5 grid: its links, the cell above it, and the
      completed fills of the vertical and horizontal rules from it. */
  lemma CentreOfFive(config: Match.BoardConfig, cells: seq<BoardCell>, items: seq<ItemTypes.Item>)
    requires config == Match.BoardConfig(5, 5) && OnGrid(config, cells, items)
    ensures |cells| == 25 && WellFormed(cells, |items|)
    ensures cells[12].upCellIndex == 17 && cells[12].downCellIndex == 7
    ensures cells[12].rightCellIndex == 13 && cells[12].leftCellIndex == 11
    ensures cells[17].upCellIndex == 22
    ensures FloodFill.Fill(Match.RuleEnv(cells, items, 12, Match.StandardRules(config)[1])).Some?
    ensures FloodFill.Fill(Match.RuleEnv(cells, items, 12, Match.StandardRules(config)[2])).Some?
  {
    GridLinks(config, cells, items, 2, 2);
    GridLinks(config, cells, items, 2, 3);
    VerticalFillInColumn(config, cells, items, 12);
    HorizontalFillInRow(config, cells, items, 12);
  }

  /** The vertical rule's fill from cell 12 reaches the three other red
      cells of column 2. */
  lemma ColumnOfFourCovered(config: Match.BoardConfig, cells: seq<BoardCell>, items: seq<ItemTypes.Item>)
    requires config == Match.BoardConfig(5, 5) && |cells| == 25
    requires PaintedCells(cells, items, [7, 12, 17, 22], ItemTypes.BlastRed, ItemTypes.Special1)
    requires cells[12].upCellIndex == 17 && cells[12].downCellIndex == 7 && cells[17].upCellIndex == 22
    requires FloodFill.Fill(Match.RuleEnv(cells, items, 12, Match.StandardRules(config)[1])).Some?
    ensures var sel := FloodFill.Fill(Match.RuleEnv(cells, items, 12, Match.StandardRules(config)[1])).value.selected;
      forall k :: 0 <= k < 4 ==> [7, 12, 17, 22][k] in sel
  {
    var env := Match.RuleEnv(cells, items, 12, Match.StandardRules(config)[1]);
    SeedSelected(env);
    AxisMasks();
    Spreads(env, 12, 0);
    Spreads(env, 12, 1);
    Spreads(env, 17, 0);
  }

  /** On the 5 by 5 board with cells 7, 12, 17 and 22 of column 2 red, the
      vertical rule from cell 12 selects exactly those four cells and accepts
      them. */
  lemma ColumnOfFourSelected(config: Match.BoardConfig, cells: seq<BoardCell>, items: seq<ItemTypes.Item>)
    requires config == Match.BoardConfig(5, 5) && |cells| == 25
    requires PaintedCells(cells, items, [7, 12, 17, 22], ItemTypes.BlastRed, ItemTypes.Special1)
    requires cells[12].upCellIndex == 17 && cells[12].downCellIndex == 7 && cells[17].upCellIndex == 22
    requires FloodFill.Fill(Match.RuleEnv(cells, items, 12, Match.StandardRules(config)[1])).Some?
    ensures var rule := Match.StandardRules(config)[1];
      var sel := FloodFill.Fill(Match.RuleEnv(cells, items, 12, rule)).value.selected;
      multiset(sel) == multiset([7, 12, 17, 22]) && Match.RuleAccepted(cells, items, 12, rule, sel)
  {
    var painted := [7, 12, 17, 22];
    var env := Match.RuleEnv(cells, items, 12, Match.StandardRules(config)[1]);
    ColumnOfFourCovered(config, cells, items);
    SelectsPainted(env, painted, ItemTypes.BlastRed, ItemTypes.Special1);
    SameMembersEquivalent(FloodFill.Fill(env).value.selected, painted);
    VerticalRuleThreshold(cells, items, 12, config);
  }

  /** On the 5 by 5 board with cells 7, 12 and 17 red, the vertical rule from
      cell 12 selects at least those three cells and accepts them. */
  lemma ColumnOfThreeSelected(config: Match.BoardConfig, cells: seq<BoardCell>, items: seq<ItemTypes.Item>)
    requires config == Match.BoardConfig(5, 5) && |cells| == 25
    requires PaintedCells(cells, items, [7, 12, 17], ItemTypes.BlastRed, ItemTypes.Special1)
    requires cells[12].upCellIndex == 17 && cells[12].downCellIndex == 7
    requires FloodFill.Fill(Match.RuleEnv(cells, items, 12, Match.StandardRules(config)[1])).Some?
    ensures var rule := Match.StandardRules(config)[1];
      var sel := FloodFill.Fill(Match.RuleEnv(cells, items, 12, rule)).value.selected;
      |sel| >= 3 && Match.RuleAccepted(cells, items, 12, rule, sel)
  {
    var env := Match.RuleEnv(cells, items, 12, Match.StandardRules(config)[1]);
    SeedSelected(env);
    AxisMasks();
    Spreads(env, 12, 0);
    Spreads(env, 12, 1);
    CoverSize(FloodFill.Fill(env).value.selected, {7, 12, 17});
    VerticalRuleThreshold(cells, items, 12, config);
  }

  /** On the 5 by 5 board with cells 11, 12 and 13 of row 2 red, the vertical
      rule from cell 12 finds no red cell above or below and is rejected. */
  lemma RowOfThreeNotVertical(config: Match.BoardConfig, cells: seq<BoardCell>, items: seq<ItemTypes.Item>)
    requires config == Match.BoardConfig(5, 5) && |cells| == 25
    requires PaintedCells(cells, items, [11, 12, 13], ItemTypes.BlastRed, ItemTypes.Special1)
    requires cells[12].upCellIndex == 17 && cells[12].downCellIndex == 7
    requires FloodFill.Fill(Match.RuleEnv(cells, items, 12, Match.StandardRules(config)[1])).Some?
    ensures Match.RuleRejected(cells, items, 12, Match.StandardRules(config)[1])
  {
    var env := Match.RuleEnv(cells, items, 12, Match.StandardRules(config)[1]);
    AxisMasks();
    forall i | 0 <= i < Count
      ensures !FloodFill.Joinable(env, 12, i)
    {
    }
    SecondJoinsSeed(env);
    VerticalRuleThreshold(cells, items, 12, config);
  }

  /** On the 5 by 5 board with cells 11, 12 and 13 red, the horizontal rule
      from cell 12 selects at least those three cells and accepts them. */
  lemma RowOfThreeSelected(config: Match.BoardConfig, cells: seq<BoardCell>, items: seq<ItemTypes.Item>)
    requires config == Match.BoardConfig(5, 5) && |cells| == 25
    requires PaintedCells(cells, items, [11, 12, 13], ItemTypes.BlastRed, ItemTypes.Special1)
    requires cells[12].rightCellIndex == 13 && cells[12].leftCellIndex == 11
    requires FloodFill.Fill(Match.RuleEnv(cells, items, 12, Match.StandardRules(config)[2])).Some?
    ensures var rule := Match.StandardRules(config)[2];
      var sel := FloodFill.Fill(Match.RuleEnv(cells, items, 12, rule)).value.selected;
      |sel| >= 3 && Match.RuleAccepted(cells, items, 12, rule, sel)
  {
    var env := Match.RuleEnv(cells, items, 12, Match.StandardRules(config)[2]);
    SeedSelected(env);
    AxisMasks();
    Spreads(env, 12, 2);
    Spreads(env, 12, 3);
    CoverSize(FloodFill.Fill(env).value.selected, {11, 12, 13});
    HorizontalRuleThreshold(cells, items, 12, config);
  }

  /** On the 5 by 5 board with cells 11, 12 and 13 red, the rules from cell
      12 reject the Special 1 and the vertical rule and fire the horizontal
      rule. */
  lemma RowOfThreeFires(config: Match.BoardConfig, cells: seq<BoardCell>, items: seq<ItemTypes.Item>,
                        rules: seq<Rules.BlastRule>)
    requires config == Match.BoardConfig(5, 5) && rules == Match.StandardRules(config) && |cells| == 25
    requires PaintedCells(cells, items, [11, 12, 13], ItemTypes.BlastRed, ItemTypes.Special1)
    requires cells[12].upCellIndex == 17 && cells[12].downCellIndex == 7
    requires cells[12].rightCellIndex == 13 && cells[12].leftCellIndex == 11
    requires FloodFill.Fill(Match.RuleEnv(cells, items, 12, rules[1])).Some?
    requires FloodFill.Fill(Match.RuleEnv(cells, items, 12, rules[2])).Some?
    ensures var fired := Match.EvalRules(cells, items, 12, rules, 0);
      fired.RuleFired? && fired.index == 2
  {
    SpecialRejectsFewReds(config, cells, items, [11, 12, 13], 12);
    RowOfThreeNotVertical(config, cells, items);
    RowOfThreeSelected(config, cells, items);
    var sel := FloodFill.Fill(Match.RuleEnv(cells, items, 12, rules[2])).value.selected;
    Match.EvalRulesFindsFirst(cells, items, 12, rules, 0, 2, sel);
  }

  /** The first test's move: moving cell 12 up on the board with column 2's
      cells 7, 12, 17 and 22 red blasts exactly those four cells by the
      vertical rule, and the swap stays. */
  lemma BlastColumnMove(cells: seq<BoardCell>, items: seq<ItemTypes.Item>, rules: seq<Rules.BlastRule>)
    requires cells == Grid(5, 5) && items == TestItems(5, 5, ItemTypes.Special1, [7, 12, 17, 22], ItemTypes.BlastRed)
    requires WellFormed(cells, |items|)
    requires rules == Match.StandardRules(Match.BoardConfig(5, 5))
    ensures var m := Match.Move(cells, items, rules, 12, Up);
      m.result.Success? && !m.result.value.isReturn && m.result.value.blastedTileIndexes.Some? &&
      multiset(m.result.value.blastedTileIndexes.value) == multiset([7, 12, 17, 22]) &&
      m.result.value.blastConditionDebugName == "Vertical Blast Rule" &&
      m.cells == Match.Swap(cells, 12, 17)
  {
    var config := Match.BoardConfig(5, 5);
    TestBoardPainted(5, 5, ItemTypes.Special1, [7, 12, 17, 22], ItemTypes.BlastRed);
    var painted := [7, 12, 17, 22];
    CentreOfFive(config, cells, items);
    SwapKeepsPainted(config, cells, items, painted, ItemTypes.BlastRed, ItemTypes.Special1, 12, 17);
    var swapped := Match.Swap(cells, 12, 17);
    CentreOfFive(config, swapped, items);
    SpecialRejectsFewReds(config, swapped, items, painted, 12);
    ColumnOfFourSelected(config, swapped, items);
    var sel := FloodFill.Fill(Match.RuleEnv(swapped, items, 12, rules[1])).value.selected;
    Match.EvalRulesFindsFirst(swapped, items, 12, rules, 0, 1, sel);
    Match.MoveBlastsWhenRuleFires(cells, items, rules, 12, Up);
  }

  /** The second test's move: moving cell 12 up on the board with cells 7, 12
      and 17 red fires the vertical rule. */
  lemma VerticalBlastMove(cells: seq<BoardCell>, items: seq<ItemTypes.Item>, rules: seq<Rules.BlastRule>)
    requires cells == Grid(5, 5) && items == TestItems(5, 5, ItemTypes.Special1, [7, 12, 17], ItemTypes.BlastRed)
    requires WellFormed(cells, |items|)
    requires rules == Match.StandardRules(Match.BoardConfig(5, 5))
    ensures var m := Match.Move(cells, items, rules, 12, Up);
      m.result.Success? && !m.result.value.isReturn &&
      m.result.value.blastConditionDebugName == "Vertical Blast Rule"
  {
    var config := Match.BoardConfig(5, 5);
    TestBoardPainted(5, 5, ItemTypes.Special1, [7, 12, 17], ItemTypes.BlastRed);
    var painted := [7, 12, 17];
    CentreOfFive(config, cells, items);
    SwapKeepsPainted(config, cells, items, painted, ItemTypes.BlastRed, ItemTypes.Special1, 12, 17);
    var swapped := Match.Swap(cells, 12, 17);
    CentreOfFive(config, swapped, items);
    SpecialRejectsFewReds(config, swapped, items, painted, 12);
    ColumnOfThreeSelected(config, swapped, items);
    var sel := FloodFill.Fill(Match.RuleEnv(swapped, items, 12, rules[1])).value.selected;
    Match.EvalRulesFindsFirst(swapped, items, 12, rules, 0, 1, sel);
    Match.MoveBlastsWhenRuleFires(cells, items, rules, 12, Up);
  }

  /** The third test's move: moving cell 12 right on the board with cells
      11, 12 and 13 red fires the horizontal rule, the two rules before it
      being rejected. */
  lemma HorizontalBlastMove(cells: seq<BoardCell>, items: seq<ItemTypes.Item>, rules: seq<Rules.BlastRule>)
    requires cells == Grid(5, 5) && items == TestItems(5, 5, ItemTypes.Special1, [11, 12, 13], ItemTypes.BlastRed)
    requires WellFormed(cells, |items|)
    requires rules == Match.StandardRules(Match.BoardConfig(5, 5))
    ensures var m := Match.Move(cells, items, rules, 12, Right);
      m.result.Success? && !m.result.value.isReturn &&
      m.result.value.blastConditionDebugName == "Horizontal Blast Rule"
  {
    var config := Match.BoardConfig(5, 5);
    TestBoardPainted(5, 5, ItemTypes.Special1, [11, 12, 13], ItemTypes.BlastRed);
    var painted := [11, 12, 13];
    CentreOfFive(config, cells, items);
    SwapKeepsPainted(config, cells, items, painted, ItemTypes.BlastRed, ItemTypes.Special1, 12, 13);
    var swapped := Match.Swap(cells, 12, 13);
    CentreOfFive(config, swapped, items);
    RowOfThreeFires(config, swapped, items, rules);
    Match.MoveBlastsWhenRuleFires(cells, items, rules, 12, Right);
  }

  /** The fourth test's move: on a 3 by 3 board of Special 1 items moving
      the centre up does not blast; the move returns with no blasted cells
      and the board as it was. */
  lemma NoBlastMove(cells: seq<BoardCell>, items: seq<ItemTypes.Item>, rules: seq<Rules.BlastRule>)
    requires cells == Grid(3, 3) && items == TestItems(3, 3, ItemTypes.Special1, [], ItemTypes.Special1)
    requires WellFormed(cells, |items|)
    ensures var m := Match.Move(cells, items, rules, 4, Up);
      m.result.Success? && m.result.value.isReturn && m.result.value.blastedTileIndexes.None? &&
      m.cells == cells
  {
    GridLinks(Match.BoardConfig(3, 3), cells, items, 1, 1);
    ItemTypes.NonBlastTypes();
    Match.MoveReturnRestores(cells, items, rules, 4, Up);
  }

  /** The fifth test's move: on its 2 by 1 board holding a Special 1 and a
      Special 2 item, moving cell 0 right swaps and swaps back, so each cell
      holds its own item again. */
  lemma SwapBackMove(cells: seq<BoardCell>, items: seq<ItemTypes.Item>, rules: seq<Rules.BlastRule>)
    requires cells == Grid(2, 1) && items == TestItems(2, 1, ItemTypes.Special1, [1], ItemTypes.Special2)
    requires WellFormed(cells, |items|)
    ensures var m := Match.Move(cells, items, rules, 0, Right);
      m.result.Success? && m.result.value.isReturn &&
      |m.cells| == 2 && m.cells[0].itemIndex == 0 && m.cells[1].itemIndex == 1
  {
    TestBoardPainted(2, 1, ItemTypes.Special1, [1], ItemTypes.Special2);
    GridLinks(Match.BoardConfig(2, 1), cells, items, 0, 0);
    ItemTypes.NonBlastTypes();
    Match.MoveReturnRestores(cells, items, rules, 0, Right);
  }

  // ---------------------------------------------------------------------
  // The tests

  /** Builds the board of a test: a fresh `Board`, grid cells, items of
      `defaultType` with `painted` repainted, both injected. */
  method SetUpBoard(width: nat, height: nat, defaultType: ItemTypes.ItemType, painted: seq<int>,
                    paintType: ItemTypes.ItemType)
    returns (board: Match.Board)
    requires forall k :: 0 <= k < |painted| ==> 0 <= painted[k] < width * height
    ensures fresh(board) && fresh(board.cells) && fresh(board.items) && board.Valid()
    ensures board.cells[..] == Grid(width, height)
    ensures board.items[..] == TestItems(width, height, defaultType, painted, paintType)
    ensures board.blastConditions == Match.StandardRules(Match.BoardConfig(width, height))
  {
    var data := Match.BoardConfig(width, height);
    board := new Match.Board(data);
    var cells := BuildCells(data.width, data.height);
    var items := BuildItems(data.width, data.height, defaultType);
    assert items[..] == BuiltItems(width, height, defaultType);
    PaintItems(items, painted, paintType);
    GridWellFormed(width, height, items.Length);
    board.InjectState(cells, items);
  }

  /** `OnBoardUpdate_WhenBlastColumnExists_ReturnsBlastedTiles`. */
  method BlastColumnReturnsBlastedTiles() returns (history: Result<Match.BoardUpdateResult, Match.MoveError>)
    ensures history.Success? && !history.value.isReturn
    ensures history.value.blastedTileIndexes.Some?
    ensures multiset(history.value.blastedTileIndexes.value) ==
            multiset([IndexOf(2, 1, 5), IndexOf(2, 2, 5), IndexOf(2, 3, 5), IndexOf(2, 4, 5)])
  {
    var blastIndexes := [IndexOf(2, 1, 5), IndexOf(2, 2, 5), IndexOf(2, 3, 5), IndexOf(2, 4, 5)];
    var board := SetUpBoard(5, 5, ItemTypes.Special1, blastIndexes, ItemTypes.BlastRed);
    ghost var cells, items := board.cells[..], board.items[..];
    history := board.OnBoardUpdate(IndexOf(2, 2, 5), Up);
    BlastColumnMove(cells, items, board.blastConditions);
  }

  /** `OnBoardUpdate_WhenVerticalBlast_SetsVerticalDebugName`. */
  method VerticalBlastSetsVerticalDebugName() returns (history: Result<Match.BoardUpdateResult, Match.MoveError>)
    ensures history.Success? && !history.value.isReturn
    ensures history.value.blastConditionDebugName == "Vertical Blast Rule"
  {
    var blastIndexes := [IndexOf(2, 1, 5), IndexOf(2, 2, 5), IndexOf(2, 3, 5)];
    var board := SetUpBoard(5, 5, ItemTypes.Special1, blastIndexes, ItemTypes.BlastRed);
    ghost var cells, items := board.cells[..], board.items[..];
    history := board.OnBoardUpdate(IndexOf(2, 2, 5), Up);
    VerticalBlastMove(cells, items, board.blastConditions);
  }

  /** `OnBoardUpdate_WhenHorizontalBlast_SetsHorizontalDebugName`. */
  method HorizontalBlastSetsHorizontalDebugName() returns (history: Result<Match.BoardUpdateResult, Match.MoveError>)
    ensures history.Success? && !history.value.isReturn
    ensures history.value.blastConditionDebugName == "Horizontal Blast Rule"
  {
    var blastIndexes := [IndexOf(1, 2, 5), IndexOf(2, 2, 5), IndexOf(3, 2, 5)];
    var board := SetUpBoard(5, 5, ItemTypes.Special1, blastIndexes, ItemTypes.BlastRed);
    ghost var cells, items := board.cells[..], board.items[..];
    history := board.OnBoardUpdate(IndexOf(2, 2, 5), Right);
    HorizontalBlastMove(cells, items, board.blastConditions);
  }

  /** `OnBoardUpdate_WhenNoBlast_ReturnsIsReturnTrueAndNoBlastedTiles`. */
  method NoBlastReturnsNoBlastedTiles() returns (history: Result<Match.BoardUpdateResult, Match.MoveError>)
    ensures history.Success? && history.value.isReturn
    ensures history.value.blastedTileIndexes.None?
  {
    var board := SetUpBoard(3, 3, ItemTypes.Special1, [], ItemTypes.Special1);
    ghost var cells, items := board.cells[..], board.items[..];
    history := board.OnBoardUpdate(IndexOf(1, 1, 3), Up);
    NoBlastMove(cells, items, board.blastConditions);
  }

  /** `OnBoardUpdate_WhenNoBlast_ReturnsSwappedTiles`: the writes
      `cells[0].itemIndex = 0`, `cells[1].itemIndex = 1` and
      `items[0].itemType = Special_1` repeat what the builders did, so only
      `items[1].itemType = Special_2` is made here. */
  method NoBlastReturnsSwappedTiles() returns (history: Result<Match.BoardUpdateResult, Match.MoveError>,
                                               updatedCells: seq<BoardCell>)
    ensures history.Success? && history.value.isReturn
    ensures |updatedCells| == 2 && updatedCells[0].itemIndex == 0 && updatedCells[1].itemIndex == 1
  {
    var board := SetUpBoard(2, 1, ItemTypes.Special1, [1], ItemTypes.Special2);
    ghost var cells, items := board.cells[..], board.items[..];
    SwapBackMove(cells, items, board.blastConditions);
    history := board.OnBoardUpdate(0, Right);
    updatedCells := board.cells[..];
  }
}
