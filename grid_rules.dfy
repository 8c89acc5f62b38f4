/** What the three rules installed by the `Board` constructor
    (Assets/Module/Game/Core/Board/Board.cs:20-74) decide, and why their
    selection buffers are large enough on a rectangular grid such as the
    board tests build: the Special 1 rule's buffer holds the whole board,
    the vertical rule's a column, the horizontal rule's a row. */
module GridRules {
  import opened Directions
  import opened Cells
  import opened TestBoards
  import Rules
  import FloodFill
  import Match
  import ItemTypes
  import Wrappers

  // ---------------------------------------------------------------------
  // The size tests of the three rules

  lemma SumSnoc(t: seq<int>, k: nat)
    requires k < |t|
    ensures FloodFill.Sum(t[..k + 1]) == FloodFill.Sum(t[..k]) + t[k]
  {
    assert t[..k + 1][..k] == t[..k];
  }

  /** The sum of the eight tallies, written out. */
  lemma SumOfEight(t: seq<int>)
    requires |t| == Count
    ensures FloodFill.Sum(t) == t[0] + t[1] + t[2] + t[3] + t[4] + t[5] + t[6] + t[7]
  {
    SumSnoc(t, 0); SumSnoc(t, 1); SumSnoc(t, 2); SumSnoc(t, 3);
    SumSnoc(t, 4); SumSnoc(t, 5); SumSnoc(t, 6); SumSnoc(t, 7);
    assert t[..8] == t;
  }

  /** Tallies of a fill along one of the rules' masks: every entry after the
      seed was found along the mask, so the mask's tallies add up to them and
      the other tallies are zero. */
  lemma MaskTallies(env: FloodFill.FillEnv, t: seq<int>, n: int)
    requires FloodFill.TalliesOk(env, t, n)
    ensures env.mask == Up | Down ==> t[0] + t[1] == n - 1
    ensures env.mask == Right | Left ==> t[2] + t[3] == n - 1
    ensures env.mask == Right | Up ==> t[0] + t[2] == n - 1 && t[1] == 0 && t[3] == 0
  {
    SumOfEight(t);
    AxisMasks();
  }

  /** The Special 1 rule, whose fill follows right and up, is valid exactly
      when the fill found at least two cells upwards and two to the right;
      so it needs at least five cells, the seed included. */
  lemma SpecialRuleThreshold(cells: seq<BoardCell>, items: seq<ItemTypes.Item>, seed: int, config: Match.BoardConfig)
    requires WellFormed(cells, |items|) && 0 <= seed < |cells| && config.height * config.width >= 0
    requires FloodFill.Fill(Match.RuleEnv(cells, items, seed, Match.StandardRules(config)[0])).Some?
    ensures var rule := Match.StandardRules(config)[0];
      var st := FloodFill.Fill(Match.RuleEnv(cells, items, seed, rule)).value;
      (Rules.BlastSizeValid(rule, st.tallies) <==> st.tallies[0] >= 2 && st.tallies[2] >= 2) &&
      (Rules.BlastSizeValid(rule, st.tallies) ==> |st.selected| >= 5)
  {
    var rule := Match.StandardRules(config)[0];
    var env := Match.RuleEnv(cells, items, seed, rule);
    var st := FloodFill.Fill(env).value;
    FloodFill.FillSound(env);
    MaskTallies(env, st.tallies, |st.selected|);
    Rules.SeedCountedImplicitly(st.tallies, 3);
    assert Rules.BlastSizeValid(rule, st.tallies) <==>
      Rules.RequirementMet(rule.blastSizes[0], st.tallies) && Rules.RequirementMet(rule.blastSizes[1], st.tallies);
  }

  /** The vertical rule is valid exactly when its fill selected at least
      three cells. */
  lemma VerticalRuleThreshold(cells: seq<BoardCell>, items: seq<ItemTypes.Item>, seed: int, config: Match.BoardConfig)
    requires WellFormed(cells, |items|) && 0 <= seed < |cells| && config.height >= 0
    requires FloodFill.Fill(Match.RuleEnv(cells, items, seed, Match.StandardRules(config)[1])).Some?
    ensures var rule := Match.StandardRules(config)[1];
      var st := FloodFill.Fill(Match.RuleEnv(cells, items, seed, rule)).value;
      Rules.BlastSizeValid(rule, st.tallies) <==> |st.selected| >= 3
  {
    var rule := Match.StandardRules(config)[1];
    var env := Match.RuleEnv(cells, items, seed, rule);
    var st := FloodFill.Fill(env).value;
    FloodFill.FillSound(env);
    MaskTallies(env, st.tallies, |st.selected|);
    Rules.SeedCountedImplicitly(st.tallies, 3);
    assert Rules.BlastSizeValid(rule, st.tallies) <==> Rules.RequirementMet(rule.blastSizes[0], st.tallies);
  }

  /** The horizontal rule is valid exactly when its fill selected at least
      three cells. */
  lemma HorizontalRuleThreshold(cells: seq<BoardCell>, items: seq<ItemTypes.Item>, seed: int, config: Match.BoardConfig)
    requires WellFormed(cells, |items|) && 0 <= seed < |cells| && config.width >= 0
    requires FloodFill.Fill(Match.RuleEnv(cells, items, seed, Match.StandardRules(config)[2])).Some?
    ensures var rule := Match.StandardRules(config)[2];
      var st := FloodFill.Fill(Match.RuleEnv(cells, items, seed, rule)).value;
      Rules.BlastSizeValid(rule, st.tallies) <==> |st.selected| >= 3
  {
    var rule := Match.StandardRules(config)[2];
    var env := Match.RuleEnv(cells, items, seed, rule);
    var st := FloodFill.Fill(env).value;
    FloodFill.FillSound(env);
    MaskTallies(env, st.tallies, |st.selected|);
    Rules.SeedCountedImplicitly(st.tallies, 3);
    assert Rules.BlastSizeValid(rule, st.tallies) <==> Rules.RequirementMet(rule.blastSizes[0], st.tallies);
  }

  // ---------------------------------------------------------------------
  // Buffers on a grid

  /** A board laid out as the `width` by `height` grid of the board tests
      (whatever items its cells hold). */
  predicate OnGrid(config: Match.BoardConfig, cells: seq<BoardCell>, items: seq<ItemTypes.Item>) {
    config.width >= 0 && config.height >= 0 && WellFormed(cells, |items|) &&
    SameTopology(cells, Grid(config.width, config.height))
  }

  /** The cardinal links of the cell at column `x`, row `y` of a grid board. */
  lemma GridLinks(config: Match.BoardConfig, cells: seq<BoardCell>, items: seq<ItemTypes.Item>, x: int, y: int)
    requires OnGrid(config, cells, items)
    requires 0 <= x < config.width && 0 <= y < config.height
    ensures var w, h := config.width, config.height;
      var c := IndexOf(x, y, w);
      0 <= c < |cells| &&
      cells[c].upCellIndex == (if y + 1 < h then IndexOf(x, y + 1, w) else -1) &&
      cells[c].downCellIndex == (if y - 1 >= 0 then IndexOf(x, y - 1, w) else -1) &&
      cells[c].rightCellIndex == (if x + 1 < w then IndexOf(x + 1, y, w) else -1) &&
      cells[c].leftCellIndex == (if x - 1 >= 0 then IndexOf(x - 1, y, w) else -1)
  {
    GridAt(config.width, config.height, x, y);
  }

  lemma ColumnMembers(x: int, width: nat, height: nat, c: int)
    ensures c in Column(x, width, height) <==> exists y :: 0 <= y < height && c == IndexOf(x, y, width)
  {
    if exists y :: 0 <= y < height && c == IndexOf(x, y, width) {
      var y :| 0 <= y < height && c == IndexOf(x, y, width);
      assert (y => IndexOf(x, y, width))(y) == c;
    }
  }

  lemma RowMembers(y: int, width: nat, c: int)
    ensures c in Row(y, width) <==> exists x :: 0 <= x < width && c == IndexOf(x, y, width)
  {
    if exists x :: 0 <= x < width && c == IndexOf(x, y, width) {
      var x :| 0 <= x < width && c == IndexOf(x, y, width);
      assert (x => IndexOf(x, y, width))(x) == c;
    }
  }

  lemma AllCellsMembers(n: nat, c: int)
    ensures c in AllCells(n) <==> 0 <= c < n
  {
    if 0 <= c < n {
      assert (c => c)(c) == c;
    }
  }

  /** A buffer at least as large as the board never overflows, whatever the
      mask: the whole board is a region closed under every step. */
  lemma WholeBoardFits(env: FloodFill.FillEnv)
    requires FloodFill.EnvOk(env) && |env.cells| <= env.capacity
    ensures FloodFill.Fill(env).Some?
  {
    var region := AllCells(|env.cells|);
    forall c | true
      ensures c in region <==> 0 <= c < |env.cells|
    {
      AllCellsMembers(|env.cells|, c);
    }
    assert FloodFill.RegionClosed(env, region);
    RegionSizes(0, 0, 0, 0, |env.cells|);
    FloodFill.FillWithin(env, region);
  }

  /** On a grid, the vertical links of a cell of column `x` stay in column `x`. */
  lemma ColumnLinks(config: Match.BoardConfig, cells: seq<BoardCell>, items: seq<ItemTypes.Item>, x: int, c: int)
    requires OnGrid(config, cells, items) && 0 <= x < config.width && c in Column(x, config.width, config.height)
    ensures 0 <= c < |cells|
    ensures cells[c].upCellIndex != -1 ==> cells[c].upCellIndex in Column(x, config.width, config.height)
    ensures cells[c].downCellIndex != -1 ==> cells[c].downCellIndex in Column(x, config.width, config.height)
  {
    var w, h := config.width, config.height;
    ColumnMembers(x, w, h, c);
    var y :| 0 <= y < h && c == IndexOf(x, y, w);
    GridLinks(config, cells, items, x, y);
    if y + 1 < h { ColumnMembers(x, w, h, IndexOf(x, y + 1, w)); }
    if y - 1 >= 0 { ColumnMembers(x, w, h, IndexOf(x, y - 1, w)); }
  }

  /** On a grid, the horizontal links of a cell of row `y` stay in row `y`. */
  lemma RowLinks(config: Match.BoardConfig, cells: seq<BoardCell>, items: seq<ItemTypes.Item>, y: int, c: int)
    requires OnGrid(config, cells, items) && 0 <= y < config.height && c in Row(y, config.width)
    ensures 0 <= c < |cells|
    ensures cells[c].rightCellIndex != -1 ==> cells[c].rightCellIndex in Row(y, config.width)
    ensures cells[c].leftCellIndex != -1 ==> cells[c].leftCellIndex in Row(y, config.width)
  {
    var w, h := config.width, config.height;
    RowMembers(y, w, c);
    var x :| 0 <= x < w && c == IndexOf(x, y, w);
    GridLinks(config, cells, items, x, y);
    if x + 1 < w { RowMembers(y, w, IndexOf(x + 1, y, w)); }
    if x - 1 >= 0 { RowMembers(y, w, IndexOf(x - 1, y, w)); }
  }

  /** A step of a fill along `Up | Down` from a cell of the column stays in it. */
  lemma ColumnStepStays(config: Match.BoardConfig, cells: seq<BoardCell>, items: seq<ItemTypes.Item>,
                    env: FloodFill.FillEnv, x: int, c: int, i: int)
    requires OnGrid(config, cells, items) && 0 <= x < config.width
    requires FloodFill.EnvOk(env) && env.cells == cells && env.mask == Up | Down
    requires c in Column(x, config.width, config.height) && 0 <= c < |cells| && 0 <= i < Count && HasFlag(env.mask, Flag(i))
    requires FloodFill.Nbs(env, c)[i] != -1
    ensures FloodFill.Nbs(env, c)[i] in Column(x, config.width, config.height)
  {
    AxisMasks();
    ColumnLinks(config, cells, items, x, c);
  }

  /** A fill along `Up | Down` from a cell of column `x` cannot leave the column. */
  lemma ColumnClosed(config: Match.BoardConfig, cells: seq<BoardCell>, items: seq<ItemTypes.Item>,
                     env: FloodFill.FillEnv, x: int)
    requires OnGrid(config, cells, items) && 0 <= x < config.width
    requires env.cells == cells && env.items == items && env.mask == Up | Down && env.capacity >= 0
    requires env.seed in Column(x, config.width, config.height)
    ensures FloodFill.EnvOk(env) && FloodFill.RegionClosed(env, Column(x, config.width, config.height))
  {
    var region := Column(x, config.width, config.height);
    ColumnLinks(config, cells, items, x, env.seed);
    forall c | c in region
      ensures 0 <= c < |cells|
    {
      ColumnLinks(config, cells, items, x, c);
    }
    forall c, i | c in region && 0 <= c < |cells| && 0 <= i < Count && HasFlag(env.mask, Flag(i)) &&
                  FloodFill.Nbs(env, c)[i] != -1
      ensures FloodFill.Nbs(env, c)[i] in region
    {
      ColumnStepStays(config, cells, items, env, x, c, i);
    }
  }

  /** A step of a fill along `Right | Left` from a cell of the row stays in it. */
  lemma RowStepStays(config: Match.BoardConfig, cells: seq<BoardCell>, items: seq<ItemTypes.Item>,
                    env: FloodFill.FillEnv, y: int, c: int, i: int)
    requires OnGrid(config, cells, items) && 0 <= y < config.height
    requires FloodFill.EnvOk(env) && env.cells == cells && env.mask == Right | Left
    requires c in Row(y, config.width) && 0 <= c < |cells| && 0 <= i < Count && HasFlag(env.mask, Flag(i))
    requires FloodFill.Nbs(env, c)[i] != -1
    ensures FloodFill.Nbs(env, c)[i] in Row(y, config.width)
  {
    AxisMasks();
    RowLinks(config, cells, items, y, c);
  }

  /** A fill along `Right | Left` from a cell of row `y` cannot leave the row. */
  lemma RowClosed(config: Match.BoardConfig, cells: seq<BoardCell>, items: seq<ItemTypes.Item>,
                  env: FloodFill.FillEnv, y: int)
    requires OnGrid(config, cells, items) && 0 <= y < config.height
    requires env.cells == cells && env.items == items && env.mask == Right | Left && env.capacity >= 0
    requires env.seed in Row(y, config.width)
    ensures FloodFill.EnvOk(env) && FloodFill.RegionClosed(env, Row(y, config.width))
  {
    var region := Row(y, config.width);
    RowLinks(config, cells, items, y, env.seed);
    forall c | c in region
      ensures 0 <= c < |cells|
    {
      RowLinks(config, cells, items, y, c);
    }
    forall c, i | c in region && 0 <= c < |cells| && 0 <= i < Count && HasFlag(env.mask, Flag(i)) &&
                  FloodFill.Nbs(env, c)[i] != -1
      ensures FloodFill.Nbs(env, c)[i] in region
    {
      RowStepStays(config, cells, items, env, y, c, i);
    }
  }

  /** On a grid, the vertical rule's fill stays in the seed's column, which
      its buffer of `height` entries holds. */
  lemma VerticalFillInColumn(config: Match.BoardConfig, cells: seq<BoardCell>, items: seq<ItemTypes.Item>, seed: int)
    requires OnGrid(config, cells, items) && 0 <= seed < |cells|
    ensures config.width > 0
    ensures var env := Match.RuleEnv(cells, items, seed, Match.StandardRules(config)[1]);
      FloodFill.Fill(env).Some? &&
      forall k :: 0 <= k < |FloodFill.Fill(env).value.selected| ==>
        FloodFill.Fill(env).value.selected[k] in Column(seed % config.width, config.width, config.height)
  {
    var w, h := config.width, config.height;
    var env := Match.RuleEnv(cells, items, seed, Match.StandardRules(config)[1]);
    GridCoordinates(w, h, seed);
    var x := seed % w;
    ColumnMembers(x, w, h, seed);
    ColumnClosed(config, cells, items, env, x);
    RegionSizes(x, 0, w, h, 0);
    FloodFill.FillWithin(env, Column(x, w, h));
  }

  /** On a grid, the horizontal rule's fill stays in the seed's row, which
      its buffer of `width` entries holds. */
  lemma HorizontalFillInRow(config: Match.BoardConfig, cells: seq<BoardCell>, items: seq<ItemTypes.Item>, seed: int)
    requires OnGrid(config, cells, items) && 0 <= seed < |cells|
    ensures config.width > 0
    ensures var env := Match.RuleEnv(cells, items, seed, Match.StandardRules(config)[2]);
      FloodFill.Fill(env).Some? &&
      forall k :: 0 <= k < |FloodFill.Fill(env).value.selected| ==>
        FloodFill.Fill(env).value.selected[k] in Row(seed / config.width, config.width)
  {
    var w, h := config.width, config.height;
    var env := Match.RuleEnv(cells, items, seed, Match.StandardRules(config)[2]);
    GridCoordinates(w, h, seed);
    var y := seed / w;
    RowMembers(y, w, seed);
    RowClosed(config, cells, items, env, y);
    RegionSizes(0, y, w, h, 0);
    FloodFill.FillWithin(env, Row(y, w));
  }

  /** On a grid board with the standard rules, no move raises the buffer
      exception: every rule's fill completes. */
  lemma GridMoveNeverOverflows(config: Match.BoardConfig, cells: seq<BoardCell>, items: seq<ItemTypes.Item>,
                               cellIndex: int, direction: Direction)
    requires OnGrid(config, cells, items)
    ensures Match.Move(cells, items, Match.StandardRules(config), cellIndex, direction).result !=
            Wrappers.Failure(Match.SelectionOverflow)
  {
    Match.MoveOverflowsExactly(cells, items, Match.StandardRules(config), cellIndex, direction);
    if 0 <= cellIndex < |cells| && Match.TargetOf(cells, cellIndex, direction) != -1 {
      var swapped := Match.Swap(cells, cellIndex, Match.TargetOf(cells, cellIndex, direction));
      SwapOnGrid(config, cells, items, cellIndex, Match.TargetOf(cells, cellIndex, direction));
      GridRulesNeverOverflow(config, swapped, items, cellIndex);
    }
  }

  /** Swapping two cells' items leaves a grid board a grid board. */
  lemma SwapOnGrid(config: Match.BoardConfig, cells: seq<BoardCell>, items: seq<ItemTypes.Item>, a: int, b: int)
    requires OnGrid(config, cells, items) && 0 <= a < |cells| && 0 <= b < |cells|
    ensures OnGrid(config, Match.Swap(cells, a, b), items)
  {
    Match.SwapPermutesItems(cells, a, b, |items|);
  }

  /** On a grid, the vertical and the horizontal rule's fills complete. */
  lemma AxisFillsComplete(config: Match.BoardConfig, cells: seq<BoardCell>, items: seq<ItemTypes.Item>, seed: int)
    requires OnGrid(config, cells, items) && 0 <= seed < |cells|
    ensures FloodFill.Fill(Match.RuleEnv(cells, items, seed, Match.StandardRules(config)[1])).Some?
    ensures FloodFill.Fill(Match.RuleEnv(cells, items, seed, Match.StandardRules(config)[2])).Some?
  {
    VerticalFillInColumn(config, cells, items, seed);
    HorizontalFillInRow(config, cells, items, seed);
  }

  /** On a grid, none of the three rules' fills overflows its buffer, so
      evaluating them never aborts. */
  lemma GridRulesNeverOverflow(config: Match.BoardConfig, cells: seq<BoardCell>, items: seq<ItemTypes.Item>, seed: int)
    requires OnGrid(config, cells, items) && 0 <= seed < |cells|
    ensures Match.EvalRules(cells, items, seed, Match.StandardRules(config), 0) != Match.Overflowed
  {
    AxisFillsComplete(config, cells, items, seed);
    RulesNeverOverflow(config, cells, items, seed);
  }

  /** The rules never abort when the board fits the Special 1 rule's buffer
      and the two axis rules' fills complete. */
  lemma RulesNeverOverflow(config: Match.BoardConfig, cells: seq<BoardCell>, items: seq<ItemTypes.Item>, seed: int)
    requires WellFormed(cells, |items|) && 0 <= seed < |cells| && config.width >= 0 && config.height >= 0
    requires |cells| <= config.height * config.width
    requires FloodFill.Fill(Match.RuleEnv(cells, items, seed, Match.StandardRules(config)[1])).Some?
    requires FloodFill.Fill(Match.RuleEnv(cells, items, seed, Match.StandardRules(config)[2])).Some?
    ensures Match.EvalRules(cells, items, seed, Match.StandardRules(config), 0) != Match.Overflowed
  {
    var rules := Match.StandardRules(config);
    WholeBoardFits(Match.RuleEnv(cells, items, seed, rules[0]));
    assert !Match.RuleAborted(cells, items, seed, rules[0]);
    assert !Match.RuleAborted(cells, items, seed, rules[1]);
    assert !Match.RuleAborted(cells, items, seed, rules[2]);
    Match.EvalRulesNeverAborts(cells, items, seed, rules, 0);
  }


}
