/** The match engine of Assets/Module/Game/Core/Board/Board.cs: a move swaps
    the items of a cell and its neighbour, then, if the moved item is a
    blast item, evaluates the blast rules in order with a flood fill from
    the source cell; the first rule whose size requirements hold blasts the
    filled cells, and when none holds the swap is undone. */
module Match {
  import opened Directions
  import opened Cells
  import ItemTypes
  import Rules
  import FloodFill
  import opened Wrappers

  /** `BoardConfig`: the board's dimensions (its private exclude list is
      never read). */
  datatype BoardConfig = BoardConfig(width: int, height: int)

  /** The cells and items of a move as they were before the swap. */
  datatype SwapMove = SwapMove(
    cellFrom: BoardCell,
    cellTo: BoardCell,
    itemFrom: ItemTypes.Item,
    itemTo: ItemTypes.Item)

  /** `BoardUpdateResult`; a null `blastedTileIndexes` is `None`, and the
      debug name is "" unless a rule fired. */
  datatype BoardUpdateResult = BoardUpdateResult(
    moveFirst: SwapMove,
    blastedTileIndexes: Option<seq<int>>,
    isReturn: bool,
    blastConditionDebugName: string)

  /** The exceptions `OnBoardUpdate` can raise: an index outside the cell
      array, a move towards a missing neighbour, and a selection buffer that
      is negative in size or too small for the fill. */
  datatype MoveError = CellOutOfRange | NoNeighbour | SelectionOverflow

  /** The three rules the constructor installs, in evaluation order. */
  function StandardRules(config: BoardConfig): (rules: seq<Rules.BlastRule>)
    ensures |rules| == 3
    ensures forall k :: 0 <= k < 3 ==> |rules[k].minCount| == Count
  {
    [Rules.BlastRule("Special 1 Blast Rule", 9, Right | Up, config.height * config.width, ItemTypes.Special1,
                     [Rules.BlastRequirement(3, Right | Left), Rules.BlastRequirement(3, Up | Down)],
                     Rules.ZeroMinCount()),
     Rules.BlastRule("Vertical Blast Rule", 10, Up | Down, config.height, ItemTypes.None,
                     [Rules.BlastRequirement(3, Up | Down)], Rules.ZeroMinCount()),
     Rules.BlastRule("Horizontal Blast Rule", 10, Right | Left, config.width, ItemTypes.None,
                     [Rules.BlastRequirement(3, Right | Left)], Rules.ZeroMinCount())]
  }

  // ---------------------------------------------------------------------
  // Swapping

  /** `SwapCellItem` on values: cells `a` and `b` exchange their items and
      nothing else changes. */
  function Swap(cells: seq<BoardCell>, a: int, b: int): (r: seq<BoardCell>)
    requires 0 <= a < |cells| && 0 <= b < |cells|
    ensures SameTopology(cells, r)
    ensures r[a].itemIndex == cells[b].itemIndex && r[b].itemIndex == cells[a].itemIndex
    ensures r[a].cellViewIndex == cells[a].cellViewIndex && r[b].cellViewIndex == cells[b].cellViewIndex
    ensures forall k :: 0 <= k < |r| && k != a && k != b ==> r[k] == cells[k]
  {
    var item1 := cells[a].itemIndex;
    var item2 := cells[b].itemIndex;
    var first := cells[a := cells[a].(itemIndex := item2)];
    first[b := first[b].(itemIndex := item1)]
  }

  /** Swapping twice restores the cells. */
  lemma SwapInvolution(cells: seq<BoardCell>, a: int, b: int)
    requires 0 <= a < |cells| && 0 <= b < |cells|
    ensures Swap(Swap(cells, a, b), a, b) == cells
  {
    var twice := Swap(Swap(cells, a, b), a, b);
    assert forall k :: 0 <= k < |cells| ==> twice[k] == cells[k];
  }

  /** The order of the two cells does not matter. */
  lemma SwapSymmetric(cells: seq<BoardCell>, a: int, b: int)
    requires 0 <= a < |cells| && 0 <= b < |cells|
    ensures Swap(cells, a, b) == Swap(cells, b, a)
  {
    var x, y := Swap(cells, a, b), Swap(cells, b, a);
    assert forall k :: 0 <= k < |cells| ==> x[k] == y[k];
  }

  /** The item indices held by the cells, in cell order. */
  function ItemIndices(cells: seq<BoardCell>): (r: seq<int>)
    ensures |r| == |cells| && forall k :: 0 <= k < |cells| ==> r[k] == cells[k].itemIndex
  {
    seq(|cells|, k requires 0 <= k < |cells| => cells[k].itemIndex)
  }

  /** A swap permutes the items over the cells: no item is lost or copied,
      and the cells stay well-formed. */
  lemma SwapPermutesItems(cells: seq<BoardCell>, a: int, b: int, m: int)
    requires 0 <= a < |cells| && 0 <= b < |cells|
    ensures multiset(ItemIndices(Swap(cells, a, b))) == multiset(ItemIndices(cells))
    ensures WellFormed(cells, m) ==> WellFormed(Swap(cells, a, b), m)
  {
    var s := ItemIndices(cells);
    var t := ItemIndices(Swap(cells, a, b));
    if a != b {
      assert t == s[a := s[b]][b := s[a]];
    } else {
      assert t == s;
    }
  }

  // ---------------------------------------------------------------------
  // Evaluating the rules

  /** The fill a rule runs from `seed`, its capacity being the rule's
      `maxPossibleSelectTile`. */
  function RuleEnv(cells: seq<BoardCell>, items: seq<ItemTypes.Item>, seed: int, rule: Rules.BlastRule): FloodFill.FillEnv {
    FloodFill.FillEnv(cells, items, seed, rule.direction, rule.maxPossibleSelectTile)
  }

  datatype RulesOutcome = NoRuleFired | RuleFired(index: nat, selected: seq<int>) | Overflowed

  /** The `for` loop over the rules from rule `i` on: each runs its fill and
      checks its sizes, the first valid one fires, and a fill that overflows
      (or a negative buffer size) aborts the loop. */
  function EvalRules(cells: seq<BoardCell>, items: seq<ItemTypes.Item>, seed: int,
                     rules: seq<Rules.BlastRule>, i: nat): (r: RulesOutcome)
    requires WellFormed(cells, |items|) && 0 <= seed < |cells| && i <= |rules|
    ensures r.RuleFired? ==> i <= r.index < |rules|
    decreases |rules| - i
  {
    if i == |rules| then NoRuleFired
    else
      var rule := rules[i];
      if rule.maxPossibleSelectTile < 0 then Overflowed
      else
        var env := RuleEnv(cells, items, seed, rule);
        match FloodFill.Fill(env)
        case None => Overflowed
        case Some(st) =>
          if Rules.BlastSizeValid(rule, st.tallies) then RuleFired(i, st.selected)
          else EvalRules(cells, items, seed, rules, i + 1)
  }

  /** The rule ran its fill to completion and its sizes did not hold. */
  predicate RuleRejected(cells: seq<BoardCell>, items: seq<ItemTypes.Item>, seed: int, rule: Rules.BlastRule)
    requires WellFormed(cells, |items|) && 0 <= seed < |cells|
  {
    rule.maxPossibleSelectTile >= 0 &&
    var env := RuleEnv(cells, items, seed, rule);
    FloodFill.Fill(env).Some? && !Rules.BlastSizeValid(rule, FloodFill.Fill(env).value.tallies)
  }

  /** The rule ran its fill to completion, selecting `sel`, and its sizes
      held. */
  predicate RuleAccepted(cells: seq<BoardCell>, items: seq<ItemTypes.Item>, seed: int, rule: Rules.BlastRule,
                         sel: seq<int>)
    requires WellFormed(cells, |items|) && 0 <= seed < |cells|
  {
    rule.maxPossibleSelectTile >= 0 &&
    var env := RuleEnv(cells, items, seed, rule);
    FloodFill.Fill(env).Some? && FloodFill.Fill(env).value.selected == sel &&
    Rules.BlastSizeValid(rule, FloodFill.Fill(env).value.tallies)
  }

  /** The rule's buffer could not be allocated or overflowed. */
  predicate RuleAborted(cells: seq<BoardCell>, items: seq<ItemTypes.Item>, seed: int, rule: Rules.BlastRule)
    requires WellFormed(cells, |items|) && 0 <= seed < |cells|
  {
    rule.maxPossibleSelectTile < 0 || FloodFill.Fill(RuleEnv(cells, items, seed, rule)).None?
  }

  /** Rules `i` up to (not including) `k` were all rejected. */
  predicate RejectedFrom(cells: seq<BoardCell>, items: seq<ItemTypes.Item>, seed: int,
                         rules: seq<Rules.BlastRule>, i: int, k: int)
    requires WellFormed(cells, |items|) && 0 <= seed < |cells| && 0 <= i && k <= |rules|
  {
    forall j :: i <= j < k ==> RuleRejected(cells, items, seed, rules[j])
  }

  /** What the rule loop computes, stated rule by rule: rule `k` fires
      exactly when every rule before it was rejected and it was accepted;
      no rule fires when all were rejected; otherwise some rule aborted
      after all earlier ones were rejected. */
  lemma {:induction false} EvalRulesSpec(cells: seq<BoardCell>, items: seq<ItemTypes.Item>, seed: int,
                                         rules: seq<Rules.BlastRule>, i: nat)
    requires WellFormed(cells, |items|) && 0 <= seed < |cells| && i <= |rules|
    ensures Explains(cells, items, seed, rules, i, EvalRules(cells, items, seed, rules, i))
    decreases |rules| - i
  {
    if i < |rules| {
      EvalRulesStep(cells, items, seed, rules, i);
      if RuleRejected(cells, items, seed, rules[i]) {
        EvalRulesSpec(cells, items, seed, rules, i + 1);
        ExplainsExtends(cells, items, seed, rules, i, EvalRules(cells, items, seed, rules, i + 1));
      } else {
        assert RejectedFrom(cells, items, seed, rules, i, i);
      }
    }
  }

  /** What the rule loop's outcome from rule `i` says about the rules: a
      fired rule was accepted after the rules before it were rejected; no
      blast means every rule was rejected; an abort comes from an aborting
      rule after rejected ones. */
  predicate Explains(cells: seq<BoardCell>, items: seq<ItemTypes.Item>, seed: int,
                     rules: seq<Rules.BlastRule>, i: nat, r: RulesOutcome)
    requires WellFormed(cells, |items|) && 0 <= seed < |cells| && i <= |rules|
  {
    match r
    case RuleFired(k, sel) =>
      i <= k < |rules| &&
      RejectedFrom(cells, items, seed, rules, i, k) && RuleAccepted(cells, items, seed, rules[k], sel)
    case NoRuleFired =>
      RejectedFrom(cells, items, seed, rules, i, |rules|)
    case Overflowed =>
      exists k :: i <= k < |rules| && RejectedFrom(cells, items, seed, rules, i, k) &&
        RuleAborted(cells, items, seed, rules[k])
  }

  /** A rejected rule `i` in front of an explained outcome from `i + 1`
      explains the same outcome from `i`. */
  lemma ExplainsExtends(cells: seq<BoardCell>, items: seq<ItemTypes.Item>, seed: int,
                        rules: seq<Rules.BlastRule>, i: nat, r: RulesOutcome)
    requires WellFormed(cells, |items|) && 0 <= seed < |cells| && i < |rules|
    requires RuleRejected(cells, items, seed, rules[i]) && Explains(cells, items, seed, rules, i + 1, r)
    ensures Explains(cells, items, seed, rules, i, r)
  {
    match r
    case RuleFired(k, sel) =>
      RejectedExtends(cells, items, seed, rules, i, k);
    case NoRuleFired =>
      RejectedExtends(cells, items, seed, rules, i, |rules|);
    case Overflowed =>
      var k :| i + 1 <= k < |rules| && RejectedFrom(cells, items, seed, rules, i + 1, k) &&
        RuleAborted(cells, items, seed, rules[k]);
      RejectedExtends(cells, items, seed, rules, i, k);
  }

  /** One rule of the loop: a rejected rule passes on to the next, an
      aborted one aborts, and any other fires with its selection. */
  lemma EvalRulesStep(cells: seq<BoardCell>, items: seq<ItemTypes.Item>, seed: int,
                      rules: seq<Rules.BlastRule>, i: nat)
    requires WellFormed(cells, |items|) && 0 <= seed < |cells| && i < |rules|
    ensures RuleRejected(cells, items, seed, rules[i]) ==>
      EvalRules(cells, items, seed, rules, i) == EvalRules(cells, items, seed, rules, i + 1)
    ensures RuleAborted(cells, items, seed, rules[i]) ==>
      EvalRules(cells, items, seed, rules, i) == Overflowed
    ensures !RuleRejected(cells, items, seed, rules[i]) && !RuleAborted(cells, items, seed, rules[i]) ==>
      EvalRules(cells, items, seed, rules, i).RuleFired? &&
      EvalRules(cells, items, seed, rules, i).index == i &&
      RuleAccepted(cells, items, seed, rules[i], EvalRules(cells, items, seed, rules, i).selected)
  {
  }

  /** A rejected rule `i` extends a run of rejected rules from `i + 1`. */
  lemma RejectedExtends(cells: seq<BoardCell>, items: seq<ItemTypes.Item>, seed: int,
                        rules: seq<Rules.BlastRule>, i: nat, k: nat)
    requires WellFormed(cells, |items|) && 0 <= seed < |cells| && i < k <= |rules|
    requires RuleRejected(cells, items, seed, rules[i]) && RejectedFrom(cells, items, seed, rules, i + 1, k)
    ensures RejectedFrom(cells, items, seed, rules, i, k)
  {
  }

  /** The loop aborts only through a rule that aborts: when no rule from
      `i` on aborts, neither does the loop. */
  lemma {:induction false} EvalRulesNeverAborts(cells: seq<BoardCell>, items: seq<ItemTypes.Item>, seed: int,
                                                rules: seq<Rules.BlastRule>, i: nat)
    requires WellFormed(cells, |items|) && 0 <= seed < |cells| && i <= |rules|
    requires forall k :: i <= k < |rules| ==> !RuleAborted(cells, items, seed, rules[k])
    ensures EvalRules(cells, items, seed, rules, i) != Overflowed
    decreases |rules| - i
  {
    if i < |rules| {
      assert !RuleAborted(cells, items, seed, rules[i]);
      EvalRulesNeverAborts(cells, items, seed, rules, i + 1);
    }
  }

  /** Conversely, the loop returns rule `k` and its selection whenever every
      rule before `k` was rejected and `k` was accepted. */
  lemma {:induction false} EvalRulesFindsFirst(cells: seq<BoardCell>, items: seq<ItemTypes.Item>, seed: int,
                                               rules: seq<Rules.BlastRule>, i: nat, k: nat, sel: seq<int>)
    requires WellFormed(cells, |items|) && 0 <= seed < |cells| && i <= k < |rules|
    requires RejectedFrom(cells, items, seed, rules, i, k) && RuleAccepted(cells, items, seed, rules[k], sel)
    ensures EvalRules(cells, items, seed, rules, i) == RuleFired(k, sel)
    decreases k - i
  {
    if i < k {
      assert RuleRejected(cells, items, seed, rules[i]);
      EvalRulesFindsFirst(cells, items, seed, rules, i + 1, k, sel);
    }
  }

  // ---------------------------------------------------------------------
  // A move

  /** The outcome of a move: the result or the exception, and the cells
      afterwards. */
  datatype MoveOutcome = MoveOutcome(result: Result<BoardUpdateResult, MoveError>, cells: seq<BoardCell>)

  /** `OnBoardUpdate` on values. The gate tests the item that was in the
      source cell before the swap; the fills start at the source cell, which
      after the swap holds the target's item. */
  function Move(cells: seq<BoardCell>, items: seq<ItemTypes.Item>, rules: seq<Rules.BlastRule>,
                cellIndex: int, direction: Direction): (m: MoveOutcome)
    requires WellFormed(cells, |items|)
    ensures SameTopology(cells, m.cells) && WellFormed(m.cells, |items|)
    ensures m.result.Failure? && m.result.error != SelectionOverflow ==> m.cells == cells
  {
    if !(0 <= cellIndex < |cells|) then MoveOutcome(Failure(CellOutOfRange), cells)
    else
      var cell := cells[cellIndex];
      var targetCellIndex := cell.GetDirectionIndex(direction);
      if targetCellIndex == -1 then MoveOutcome(Failure(NoNeighbour), cells)
      else
        var targetCell := cells[targetCellIndex];
        var swapped := Swap(cells, cellIndex, targetCellIndex);
        SwapPermutesItems(cells, cellIndex, targetCellIndex, |items|);
        var item := items[cell.itemIndex];
        var targetItem := items[targetCell.itemIndex];
        var moveFirst := SwapMove(cell, targetCell, item, targetItem);
        var returned := BoardUpdateResult(moveFirst, None, true, "");
        var undone := Swap(swapped, cellIndex, targetCellIndex);
        SwapPermutesItems(swapped, cellIndex, targetCellIndex, |items|);
        if !ItemTypes.HasFlag(item.itemType, ItemTypes.Blast) then
          MoveOutcome(Success(returned), undone)
        else
          match EvalRules(swapped, items, cellIndex, rules, 0)
          case Overflowed => MoveOutcome(Failure(SelectionOverflow), swapped)
          case NoRuleFired => MoveOutcome(Success(returned), undone)
          case RuleFired(k, selected) =>
            MoveOutcome(Success(BoardUpdateResult(moveFirst, Some(selected), false, rules[k].name)), swapped)
  }

  /** The neighbour a move swaps with, for a move that gets that far. */
  function TargetOf(cells: seq<BoardCell>, cellIndex: int, direction: Direction): int
    requires 0 <= cellIndex < |cells|
  {
    cells[cellIndex].GetDirectionIndex(direction)
  }

  /** The two exceptions raised before the swap, each exactly when its
      condition holds; any other move reaches the swap. */
  lemma MoveGuards(cells: seq<BoardCell>, items: seq<ItemTypes.Item>, rules: seq<Rules.BlastRule>,
                   cellIndex: int, direction: Direction)
    requires WellFormed(cells, |items|)
    ensures var r := Move(cells, items, rules, cellIndex, direction).result;
      (r == Failure(CellOutOfRange) <==> !(0 <= cellIndex < |cells|)) &&
      (r == Failure(NoNeighbour) <==> 0 <= cellIndex < |cells| && TargetOf(cells, cellIndex, direction) == -1)
  {
  }

  /** A move that returns: the swap is undone, so the cells are exactly as
      before; nothing is blasted and no rule is named. It returns whenever
      the moved item is not a blast item. */
  lemma MoveReturnRestores(cells: seq<BoardCell>, items: seq<ItemTypes.Item>, rules: seq<Rules.BlastRule>,
                           cellIndex: int, direction: Direction)
    requires WellFormed(cells, |items|)
    ensures var m := Move(cells, items, rules, cellIndex, direction);
      m.result.Success? && m.result.value.isReturn ==>
        m.cells == cells && m.result.value.blastedTileIndexes == None &&
        m.result.value.blastConditionDebugName == ""
    ensures (0 <= cellIndex < |cells| && TargetOf(cells, cellIndex, direction) != -1 &&
             !ItemTypes.HasFlag(items[cells[cellIndex].itemIndex].itemType, ItemTypes.Blast)) ==>
        var m := Move(cells, items, rules, cellIndex, direction);
        m.result.Success? && m.result.value.isReturn
  {
    if 0 <= cellIndex < |cells| && TargetOf(cells, cellIndex, direction) != -1 {
      SwapInvolution(cells, cellIndex, TargetOf(cells, cellIndex, direction));
    }
  }

  /** A move that blasts: it happened only for a blast item; the swap stays;
      the blasted cells are those of the first rule (in order) whose fill
      from the source cell completed with valid sizes, every earlier rule
      having been rejected; they start with the source cell, are pairwise
      distinct, hold the type the target cell's item has, and the fill
      could not have grown. */
  lemma MoveBlast(cells: seq<BoardCell>, items: seq<ItemTypes.Item>, rules: seq<Rules.BlastRule>,
                  cellIndex: int, direction: Direction)
    requires WellFormed(cells, |items|)
    requires Move(cells, items, rules, cellIndex, direction).result.Success?
    requires !Move(cells, items, rules, cellIndex, direction).result.value.isReturn
    ensures 0 <= cellIndex < |cells|
    ensures var target := TargetOf(cells, cellIndex, direction);
      var m := Move(cells, items, rules, cellIndex, direction);
      var swapped := Swap(cells, cellIndex, target);
      0 <= target < |cells| && m.cells == swapped &&
      ItemTypes.HasFlag(items[cells[cellIndex].itemIndex].itemType, ItemTypes.Blast) &&
      m.result.value.blastedTileIndexes.Some? &&
      var sel := m.result.value.blastedTileIndexes.value;
      exists k :: 0 <= k < |rules| && m.result.value.blastConditionDebugName == rules[k].name &&
        RejectedFrom(swapped, items, cellIndex, rules, 0, k) &&
        RuleAccepted(swapped, items, cellIndex, rules[k], sel) &&
        var env := RuleEnv(swapped, items, cellIndex, rules[k]);
        |sel| >= 1 && sel[0] == cellIndex && FloodFill.Distinct(sel) &&
        (forall q :: 0 <= q < |sel| ==>
           0 <= sel[q] < |cells| &&
           items[swapped[sel[q]].itemIndex].itemType == items[cells[target].itemIndex].itemType) &&
        (forall q :: 0 <= q < |sel| ==> FloodFill.Closed(env, sel[q], sel))
  {
    MoveBlastFired(cells, items, rules, cellIndex, direction);
    var target := TargetOf(cells, cellIndex, direction);
    var swapped := Swap(cells, cellIndex, target);
    EvalRulesSpec(swapped, items, cellIndex, rules, 0);
    var r := EvalRules(swapped, items, cellIndex, rules, 0);
    var k := r.index;
    var env := RuleEnv(swapped, items, cellIndex, rules[k]);
    FloodFill.FillSound(env);
    FloodFill.FillComplete(env);
    var sel := FloodFill.Fill(env).value.selected;
    assert FloodFill.SameType(env, sel);
    assert FloodFill.Target(env) == items[cells[target].itemIndex].itemType;
  }

  /** A move that blasts moved a blast item, kept the swap, and reports the
      rule that fired on the swapped board and its selection. */
  lemma MoveBlastFired(cells: seq<BoardCell>, items: seq<ItemTypes.Item>, rules: seq<Rules.BlastRule>,
                       cellIndex: int, direction: Direction)
    requires WellFormed(cells, |items|)
    requires Move(cells, items, rules, cellIndex, direction).result.Success?
    requires !Move(cells, items, rules, cellIndex, direction).result.value.isReturn
    ensures 0 <= cellIndex < |cells| && 0 <= TargetOf(cells, cellIndex, direction) < |cells|
    ensures ItemTypes.HasFlag(items[cells[cellIndex].itemIndex].itemType, ItemTypes.Blast)
    ensures var swapped := Swap(cells, cellIndex, TargetOf(cells, cellIndex, direction));
      var m := Move(cells, items, rules, cellIndex, direction);
      m.cells == swapped && WellFormed(swapped, |items|) &&
      var fired := EvalRules(swapped, items, cellIndex, rules, 0);
      fired.RuleFired? &&
      m.result.value.blastedTileIndexes == Some(fired.selected) &&
      m.result.value.blastConditionDebugName == rules[fired.index].name
  {
    SwapPermutesItems(cells, cellIndex, TargetOf(cells, cellIndex, direction), |items|);
  }

  /** Conversely, a move of a blast item blasts whenever a rule fires on the
      swapped board: the result names that rule and its selection, and the
      swap stays. */
  lemma MoveBlastsWhenRuleFires(cells: seq<BoardCell>, items: seq<ItemTypes.Item>, rules: seq<Rules.BlastRule>,
                                cellIndex: int, direction: Direction)
    requires WellFormed(cells, |items|)
    requires 0 <= cellIndex < |cells| && TargetOf(cells, cellIndex, direction) != -1
    requires ItemTypes.HasFlag(items[cells[cellIndex].itemIndex].itemType, ItemTypes.Blast)
    requires EvalRules(Swap(cells, cellIndex, TargetOf(cells, cellIndex, direction)), items, cellIndex, rules, 0).RuleFired?
    ensures var swapped := Swap(cells, cellIndex, TargetOf(cells, cellIndex, direction));
      var fired := EvalRules(swapped, items, cellIndex, rules, 0);
      var m := Move(cells, items, rules, cellIndex, direction);
      m.result.Success? && !m.result.value.isReturn &&
      m.result.value.blastedTileIndexes == Some(fired.selected) &&
      m.result.value.blastConditionDebugName == rules[fired.index].name &&
      m.cells == swapped
  {
  }

  /** A move whose selection buffer fails leaves the board swapped: the
      exception is raised after the swap. */
  lemma MoveOverflowKeepsSwap(cells: seq<BoardCell>, items: seq<ItemTypes.Item>, rules: seq<Rules.BlastRule>,
                              cellIndex: int, direction: Direction)
    requires WellFormed(cells, |items|)
    requires Move(cells, items, rules, cellIndex, direction).result == Failure(SelectionOverflow)
    ensures 0 <= cellIndex < |cells| && 0 <= TargetOf(cells, cellIndex, direction) < |cells|
    ensures Move(cells, items, rules, cellIndex, direction).cells ==
            Swap(cells, cellIndex, TargetOf(cells, cellIndex, direction))
  {
  }

  /** A move raises the buffer exception exactly when it reaches the swap,
      the moved item is a blast item and evaluating the rules on the swapped
      board aborts. */
  lemma MoveOverflowsExactly(cells: seq<BoardCell>, items: seq<ItemTypes.Item>, rules: seq<Rules.BlastRule>,
                             cellIndex: int, direction: Direction)
    requires WellFormed(cells, |items|)
    ensures Move(cells, items, rules, cellIndex, direction).result == Failure(SelectionOverflow) <==>
      0 <= cellIndex < |cells| && TargetOf(cells, cellIndex, direction) != -1 &&
      ItemTypes.HasFlag(items[cells[cellIndex].itemIndex].itemType, ItemTypes.Blast) &&
      EvalRules(Swap(cells, cellIndex, TargetOf(cells, cellIndex, direction)), items, cellIndex, rules, 0) == Overflowed
  {
  }

  // ---------------------------------------------------------------------
  // The board object

  class Board {
    /** `_cells`, `_items`, `_blastConditions` and `boardData`. */
    var cells: array<BoardCell>
    var items: array<ItemTypes.Item>
    const blastConditions: seq<Rules.BlastRule>
    const boardData: BoardConfig

    /** Every index the engine follows stays inside the arrays. */
    ghost predicate Valid()
      reads this, cells
    {
      WellFormed(cells[..], items.Length)
    }

    /** `new Board(boardData)`: zeroed arrays of `width*height` cells and
        twice as many items, and the three standard rules. */
    constructor(boardData: BoardConfig)
      requires boardData.width * boardData.height >= 0
      ensures Valid() && fresh(cells) && fresh(items)
      ensures cells[..] == seq(boardData.width * boardData.height, _ => ZeroCell)
      ensures items[..] == seq(2 * (boardData.width * boardData.height), _ => ItemTypes.ZeroItem)
      ensures blastConditions == StandardRules(boardData) && this.boardData == boardData
    {
      this.boardData := boardData;
      var size := boardData.width * boardData.height;
      cells := new BoardCell[size](_ => ZeroCell);
      items := new ItemTypes.Item[size * 2](_ => ItemTypes.ZeroItem);
      blastConditions := StandardRules(boardData);
    }

    /** The tests' reflection writes of `_cells` and `_items`: the board
        adopts the given arrays themselves, not copies. */
    method InjectState(newCells: array<BoardCell>, newItems: array<ItemTypes.Item>)
      requires WellFormed(newCells[..], newItems.Length)
      modifies this
      ensures cells == newCells && items == newItems && Valid()
    {
      cells := newCells;
      items := newItems;
    }

    /** `SwapCellItem`. */
    method SwapCellItem(cellFromIndex: int, cellToIndex: int)
      requires 0 <= cellFromIndex < cells.Length && 0 <= cellToIndex < cells.Length
      modifies cells
      ensures cells[..] == Swap(old(cells[..]), cellFromIndex, cellToIndex)
    {
      var swapItem1 := cells[cellFromIndex].itemIndex;
      var swapItem2 := cells[cellToIndex].itemIndex;
      cells[cellFromIndex] := cells[cellFromIndex].(itemIndex := swapItem2);
      cells[cellToIndex] := cells[cellToIndex].(itemIndex := swapItem1);
    }

    /** `OnBoardUpdate`: computes exactly `Move` on the board's state; an
        exception is returned as `Failure`, with the cells as the exception
        leaves them. */
    method OnBoardUpdate(cellIndex: int, direction: Direction) returns (r: Result<BoardUpdateResult, MoveError>)
      requires Valid()
      modifies cells
      ensures Valid()
      ensures r == Move(old(cells[..]), items[..], blastConditions, cellIndex, direction).result
      ensures cells[..] == Move(old(cells[..]), items[..], blastConditions, cellIndex, direction).cells
    {
      ghost var before := cells[..];
      if !(0 <= cellIndex < cells.Length) {
        return Failure(CellOutOfRange);
      }
      var cell := cells[cellIndex];
      var targetCellIndex := cell.GetDirectionIndex(direction);
      if targetCellIndex == -1 {
        return Failure(NoNeighbour);
      }
      var targetCell := cells[targetCellIndex];
      SwapCellItem(cellIndex, targetCellIndex);
      ghost var swapped := cells[..];
      SwapPermutesItems(before, cellIndex, targetCellIndex, items.Length);

      var item := items[cell.itemIndex];
      var targetItem := items[targetCell.itemIndex];
      var moveFirst := SwapMove(cell, targetCell, item, targetItem);

      var isBlast := false;
      var blasted: Option<seq<int>> := None;
      var debugName := "";
      if ItemTypes.HasFlag(item.itemType, ItemTypes.Blast) {
        var overflow;
        isBlast, blasted, debugName, overflow := EvaluateRules(cellIndex);
        if overflow {
          return Failure(SelectionOverflow);
        }
      }

      if !isBlast {
        SwapCellItem(cellIndex, targetCellIndex);
        SwapPermutesItems(swapped, cellIndex, targetCellIndex, items.Length);
      }
      r := Success(BoardUpdateResult(moveFirst, blasted, !isBlast, debugName));
    }

    /** The `for` loop of `OnBoardUpdate` over the blast rules: each rule
        runs `CheckBlastTile` from `cellIndex` into a fresh buffer of its
        `maxPossibleSelectTile` entries, and the first rule whose sizes are
        valid supplies the blasted cells and the debug name. `overflow` is
        the exception of a negative or too small buffer. */
    method EvaluateRules(cellIndex: int)
      returns (isBlast: bool, blasted: Option<seq<int>>, debugName: string, overflow: bool)
      requires Valid() && 0 <= cellIndex < cells.Length
      ensures var outcome := EvalRules(cells[..], items[..], cellIndex, blastConditions, 0);
        (overflow <==> outcome.Overflowed?) &&
        (!overflow ==> (isBlast <==> outcome.RuleFired?)) &&
        (!overflow && isBlast ==>
           blasted == Some(outcome.selected) && debugName == blastConditions[outcome.index].name) &&
        (!overflow && !isBlast ==> blasted == None && debugName == "")
    {
      isBlast, blasted, debugName, overflow := false, None, "", false;
      for i := 0 to |blastConditions|
        invariant EvalRules(cells[..], items[..], cellIndex, blastConditions, i) ==
                  EvalRules(cells[..], items[..], cellIndex, blastConditions, 0)
      {
        var blastCondition := blastConditions[i];
        var aborted, fired, selected := CheckRule(cellIndex, blastCondition);
        EvalRulesStep(cells[..], items[..], cellIndex, blastConditions, i);
        if aborted {
          return false, None, "", true;
        }
        if fired {
          return true, Some(selected), blastCondition.name, false;
        }
      }
    }

    /** One turn of the loop of `EvaluateRules`: allocates the rule's buffers,
        runs `CheckBlastTile` and checks the rule's sizes. `aborted` is the
        exception of a negative buffer size or of a full buffer. */
    method CheckRule(cellIndex: int, blastCondition: Rules.BlastRule)
      returns (aborted: bool, isBlast: bool, selected: seq<int>)
      requires Valid() && 0 <= cellIndex < cells.Length
      ensures aborted <==> RuleAborted(cells[..], items[..], cellIndex, blastCondition)
      ensures !aborted ==> (isBlast <==> !RuleRejected(cells[..], items[..], cellIndex, blastCondition))
      ensures !aborted && isBlast ==> RuleAccepted(cells[..], items[..], cellIndex, blastCondition, selected)
    {
      if blastCondition.maxPossibleSelectTile < 0 {
        return true, false, [];
      }
      var selectedTiles := new int[blastCondition.maxPossibleSelectTile](_ => -1);
      var countedTiles := new int[Count](_ => 0);
      var count := CheckBlastTile(cellIndex, selectedTiles, countedTiles, blastCondition.direction);
      if count.None? {
        return true, false, [];
      }
      aborted := false;
      isBlast := Rules.IsBlastSizeValid(blastCondition, countedTiles);
      selected := selectedTiles[..count.value];
    }

    /** `CheckBlastTile`: the flood fill, writing the selected cells into
        `selectedCells` (all -1 on entry) and the per-direction tallies into
        `countedTiles` (all 0 on entry). It computes exactly
        `FloodFill.Fill` with the buffer's length as capacity; `None` is the
        exception raised by writing past the buffer's end. */
    method CheckBlastTile(beginCellIndex: int, selectedCells: array<int>, countedTiles: array<int>,
                          direction: Direction) returns (count: Option<int>)
      requires Valid() && 0 <= beginCellIndex < cells.Length
      requires countedTiles != selectedCells && countedTiles.Length == Count
      requires forall k :: 0 <= k < selectedCells.Length ==> selectedCells[k] == -1
      requires forall k :: 0 <= k < Count ==> countedTiles[k] == 0
      modifies selectedCells, countedTiles
      ensures var env := FloodFill.FillEnv(cells[..], items[..], beginCellIndex, direction, selectedCells.Length);
        FloodFill.EnvOk(env) &&
        (count.None? <==> FloodFill.Fill(env).None?) &&
        (count.Some? ==>
           count.value == |FloodFill.Fill(env).value.selected| &&
           selectedCells[..count.value] == FloodFill.Fill(env).value.selected &&
           (forall k :: count.value <= k < selectedCells.Length ==> selectedCells[k] == -1) &&
           countedTiles[..] == FloodFill.Fill(env).value.tallies)
    {
      ghost var env := FloodFill.FillEnv(cells[..], items[..], beginCellIndex, direction, selectedCells.Length);
      var cell := cells[beginCellIndex];
      var n := 0;
      var cellIndexQueue := [beginCellIndex];
      var targetItem := items[cell.itemIndex];
      assert countedTiles[..] == FloodFill.ZeroTallies();
      assert selectedCells[..0] == [];
      ghost var st := FloodFill.Start(env);

      while cellIndexQueue != []
        invariant BufferTail(selectedCells[..], n)
        invariant st == FloodFill.FillState(cellIndexQueue, selectedCells[..n], countedTiles[..])
        invariant FloodFill.StateOk(env, st) && FloodFill.Run(env, st) == FloodFill.Fill(env)
        decreases selectedCells.Length - n, |cellIndexQueue|
      {
        var cellIndex := cellIndexQueue[0];
        cellIndexQueue := cellIndexQueue[1..];
        var cellQueue := cells[cellIndex];

        var ok;
        ghost var scanStart;
        n, ok, scanStart := SelectDequeued(env, selectedCells, n, cellIndex, st);
        if !ok {
          return None;
        }

        var cellIndexes := NeighbourIndexes(env, cellQueue, cellIndex);

        cellIndexQueue, n, ok := ScanNeighbours(env, cellIndex, cellIndexes, targetItem.itemType,
                                                selectedCells, countedTiles, cellIndexQueue, n, direction);
        if !ok {
          return None;
        }
        ghost var next := FloodFill.FillState(cellIndexQueue, selectedCells[..n], countedTiles[..]);
        FloodFill.TurnAdvances(env, st, next);
        st := next;
      }
      count := Some(n);
    }

    /** The eight neighbours of the dequeued cell, in direction order: up,
        down, right, left, then the diagonals reached through the up and the
        down neighbour (-1 where a link is missing). */
    method NeighbourIndexes(ghost env: FloodFill.FillEnv, cellQueue: BoardCell, cellIndex: int)
      returns (cellIndexes: seq<int>)
      requires FloodFill.EnvOk(env) && env.cells == cells[..] && 0 <= cellIndex < cells.Length
      requires cellQueue == cells[cellIndex]
      ensures cellIndexes == FloodFill.Nbs(env, cellIndex)
    {
      cellIndexes := [
        cellQueue.upCellIndex,
        cellQueue.downCellIndex,
        cellQueue.rightCellIndex,
        cellQueue.leftCellIndex,
        if cellQueue.upCellIndex != -1 then cells[cellQueue.upCellIndex].rightCellIndex else -1,
        if cellQueue.upCellIndex != -1 then cells[cellQueue.upCellIndex].leftCellIndex else -1,
        if cellQueue.downCellIndex != -1 then cells[cellQueue.downCellIndex].rightCellIndex else -1,
        if cellQueue.downCellIndex != -1 then cells[cellQueue.downCellIndex].leftCellIndex else -1];
    }

    /** The inner `for` loop of `CheckBlastTile`: scans the eight neighbours
        of the dequeued cell in direction order. It computes
        `FloodFill.ScanDirs`; `ok` is false when the buffer overflowed. */
    method ScanNeighbours(ghost env: FloodFill.FillEnv, cellIndex: int, cellIndexes: seq<int>,
                          targetType: ItemTypes.ItemType, selectedCells: array<int>, countedTiles: array<int>,
                          queue0: seq<int>, n0: int, direction: Direction)
      returns (queue: seq<int>, n: int, ok: bool)
      requires FloodFill.EnvOk(env) && env.cells == cells[..] && env.items == items[..] && env.mask == direction
      requires env.capacity == selectedCells.Length && countedTiles != selectedCells
      requires 0 <= cellIndex < cells.Length && cellIndexes == FloodFill.Nbs(env, cellIndex)
      requires targetType == FloodFill.Target(env)
      requires BufferTail(selectedCells[..], n0)
      requires FloodFill.StateOk(env, FloodFill.FillState(queue0, selectedCells[..n0], countedTiles[..]))
      modifies selectedCells, countedTiles
      ensures ok ==> BufferTail(selectedCells[..], n)
      ensures ok ==>
        FloodFill.ScanDirs(env, cellIndex, 0, FloodFill.FillState(queue0, old(selectedCells[..n0]), old(countedTiles[..]))) ==
        Some(FloodFill.FillState(queue, selectedCells[..n], countedTiles[..]))
      ensures !ok ==>
        FloodFill.ScanDirs(env, cellIndex, 0, FloodFill.FillState(queue0, old(selectedCells[..n0]), old(countedTiles[..]))) == None
    {
      ghost var start := FloodFill.FillState(queue0, selectedCells[..n0], countedTiles[..]);
      ghost var st := start;
      queue, n := queue0, n0;
      for i := 0 to Count
        invariant BufferTail(selectedCells[..], n)
        invariant st == FloodFill.FillState(queue, selectedCells[..n], countedTiles[..])
        invariant FloodFill.StateOk(env, st)
        invariant FloodFill.ScanDirs(env, cellIndex, i, st) == FloodFill.ScanDirs(env, cellIndex, 0, start)
      {
        ghost var next;
        queue, n, ok, next := ScanDirection(env, cellIndex, cellIndexes[i], i, targetType, selectedCells, countedTiles,
                                            queue, n, direction, st);
        if !ok {
          return;
        }
        st := next;
      }
      ok := true;
    }

    /** One turn of the inner loop of `CheckBlastTile`: the neighbour `nb` in
        direction `i` is passed over when the mask excludes the direction,
        when it is -1 or already selected, or when it holds another type;
        otherwise it is written to the buffer, queued and tallied. */
    method ScanDirection(ghost env: FloodFill.FillEnv, cellIndex: int, nb: int, i: nat,
                         targetType: ItemTypes.ItemType, selectedCells: array<int>, countedTiles: array<int>,
                         queue0: seq<int>, n0: int, direction: Direction, ghost st: FloodFill.FillState)
      returns (queue: seq<int>, n: int, ok: bool, ghost next: FloodFill.FillState)
      requires FloodFill.EnvOk(env) && env.cells == cells[..] && env.items == items[..] && env.mask == direction
      requires env.capacity == selectedCells.Length && countedTiles != selectedCells
      requires 0 <= cellIndex < cells.Length && i < Count && nb == FloodFill.Nbs(env, cellIndex)[i]
      requires targetType == FloodFill.Target(env)
      requires BufferTail(selectedCells[..], n0)
      requires st == FloodFill.FillState(queue0, selectedCells[..n0], countedTiles[..]) && FloodFill.StateOk(env, st)
      modifies selectedCells, countedTiles
      ensures ok ==> BufferTail(selectedCells[..], n) && next == FloodFill.FillState(queue, selectedCells[..n], countedTiles[..])
      ensures ok ==> FloodFill.StateOk(env, next) &&
                     FloodFill.ScanDirs(env, cellIndex, i, st) == FloodFill.ScanDirs(env, cellIndex, i + 1, next)
      ensures !ok ==> FloodFill.ScanDirs(env, cellIndex, i, st) == None
    {
      queue, n, ok, next := queue0, n0, true, st;
      if !HasFlag(direction, Flag(i)) || nb == -1 {
        assert !FloodFill.Joinable(env, cellIndex, i);
        FloodFill.ScanSkips(env, cellIndex, i, st);
        return;
      }
      var seen := IndexOf(selectedCells[..], nb);
      NotInBuffer(selectedCells[..], n, nb);
      if seen != -1 {
        assert nb in st.selected;
        FloodFill.ScanSkips(env, cellIndex, i, st);
        return;
      }
      if targetType != items[cells[nb].itemIndex].itemType {
        assert !FloodFill.Joinable(env, cellIndex, i);
        FloodFill.ScanSkips(env, cellIndex, i, st);
        return;
      }
      assert FloodFill.Joinable(env, cellIndex, i) && nb !in st.selected;
      if n == selectedCells.Length {
        FloodFill.ScanOverflows(env, cellIndex, i, st);
        return queue, n, false, st;
      }
      queue, n, next := AddNeighbour(env, cellIndex, nb, i, selectedCells, countedTiles, queue0, n0, st);
    }
  }

  /** The neighbour `nb` in direction `i` joins the selection: it is written
      to the buffer, queued and tallied, as the fill's scan adds it. */
  method AddNeighbour(ghost env: FloodFill.FillEnv, cellIndex: int, nb: int, i: nat,
                      selectedCells: array<int>, countedTiles: array<int>, queue0: seq<int>, n0: int,
                      ghost st: FloodFill.FillState)
    returns (queue: seq<int>, n: int, ghost next: FloodFill.FillState)
    requires FloodFill.EnvOk(env) && 0 <= cellIndex < |env.cells| && i < Count && nb == FloodFill.Nbs(env, cellIndex)[i]
    requires env.capacity == selectedCells.Length && countedTiles != selectedCells
    requires FloodFill.Joinable(env, cellIndex, i) && nb !in st.selected && n0 < selectedCells.Length
    requires BufferTail(selectedCells[..], n0)
    requires st == FloodFill.FillState(queue0, selectedCells[..n0], countedTiles[..]) && FloodFill.StateOk(env, st)
    modifies selectedCells, countedTiles
    ensures BufferTail(selectedCells[..], n) && next == FloodFill.FillState(queue, selectedCells[..n], countedTiles[..])
    ensures FloodFill.StateOk(env, next) &&
            FloodFill.ScanDirs(env, cellIndex, i, st) == FloodFill.ScanDirs(env, cellIndex, i + 1, next)
  {
    Select(selectedCells, countedTiles, n0, nb, i, st.selected, st.tallies);
    queue, n := queue0 + [nb], n0 + 1;
    FloodFill.ScanSelects(env, cellIndex, i, st);
    next := FloodFill.FillState(st.queue + [nb], st.selected + [nb], st.tallies[i := st.tallies[i] + 1]);
  }

  /** The start of a turn of `CheckBlastTile`'s outer loop, after the
      dequeue: the dequeued cell is written to the buffer unless the buffer
      holds it already; `ok` is false when the buffer is full. */
  method SelectDequeued(ghost env: FloodFill.FillEnv, selectedCells: array<int>, n0: int, cellIndex: int,
                        ghost st: FloodFill.FillState)
    returns (n: int, ok: bool, ghost scanStart: FloodFill.FillState)
    requires FloodFill.EnvOk(env) && FloodFill.StateOk(env, st) && st.queue != [] && cellIndex == st.queue[0]
    requires env.capacity == selectedCells.Length
    requires BufferTail(selectedCells[..], n0) && st.selected == selectedCells[..n0]
    modifies selectedCells
    ensures !ok ==> FloodFill.Step(env, st) == None
    ensures ok ==> BufferTail(selectedCells[..], n)
    ensures ok ==> scanStart == FloodFill.FillState(st.queue[1..], selectedCells[..n], st.tallies)
    ensures ok ==> FloodFill.StateOk(env, scanStart) &&
                   FloodFill.Step(env, st) == FloodFill.ScanDirs(env, cellIndex, 0, scanStart)
  {
    FloodFill.StepDequeues(env, st);
    n, ok := n0, true;
    scanStart := FloodFill.FillState(st.queue[1..], st.selected, st.tallies);
    var found := IndexOf(selectedCells[..], cellIndex);
    NotInBuffer(selectedCells[..], n, cellIndex);
    if found == -1 {
      if n == selectedCells.Length {
        return n, false, scanStart;
      }
      selectedCells[n] := cellIndex;
      assert selectedCells[..n + 1] == st.selected + [cellIndex];
      n := n + 1;
      BufferTailShrinks(selectedCells[..], n);
      scanStart := FloodFill.FillState(st.queue[1..], st.selected + [cellIndex], st.tallies);
    }
  }

  /** The body of a successful check in `CheckBlastTile`'s inner loop:
      `selectedCells[count] = cell` and `countedTiles[GetDirectionIndex(1 << i)]++`. */
  method Select(selectedCells: array<int>, countedTiles: array<int>, n: int, cell: int, i: nat,
                ghost selected: seq<int>, ghost tallies: seq<int>)
    requires BufferTail(selectedCells[..], n) && n < selectedCells.Length
    requires i < Count && countedTiles.Length == Count && countedTiles != selectedCells
    requires selected == selectedCells[..n] && tallies == countedTiles[..]
    modifies selectedCells, countedTiles
    ensures selectedCells[..n + 1] == selected + [cell]
    ensures BufferTail(selectedCells[..], n + 1)
    ensures countedTiles[..] == tallies[i := tallies[i] + 1]
  {
    selectedCells[n] := cell;
    IndexOfFlag(i);
    var d := GetDirectionIndex(Flag(i));
    countedTiles[d] := countedTiles[d] + 1;
  }

  /** `Span<int>.IndexOf`: the first position holding `x`, or -1. */
  function IndexOf(span: seq<int>, x: int): (r: int)
    ensures r == -1 <==> x !in span
    ensures r != -1 ==> 0 <= r < |span| && span[r] == x && x !in span[..r]
  {
    if span == [] then -1
    else if span[0] == x then 0
    else
      var r := IndexOf(span[1..], x);
      if r == -1 then -1
      else
        assert span[..r + 1] == [span[0]] + span[1..][..r];
        r + 1
  }

  /** The entries of the buffer from `n` on are still -1. */
  predicate BufferTail(buffer: seq<int>, n: int) {
    0 <= n <= |buffer| && forall k :: n <= k < |buffer| ==> buffer[k] == -1
  }

  lemma BufferTailShrinks(buffer: seq<int>, n: int)
    requires 1 <= n <= |buffer| && forall k :: n <= k < |buffer| ==> buffer[k] == -1
    ensures BufferTail(buffer, n)
  {
  }

  /** A buffer whose entries from `n` on are -1 holds a cell index (never
      negative) anywhere iff it holds it in its first `n` entries. */
  lemma NotInBuffer(buffer: seq<int>, n: int, x: int)
    requires BufferTail(buffer, n) && x >= 0
    ensures x in buffer <==> x in buffer[..n]
  {
    if x in buffer {
      var k :| 0 <= k < |buffer| && buffer[k] == x;
      assert buffer[..n][k] == x;
    }
  }
}
