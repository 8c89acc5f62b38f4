/** The cell record of Assets/Module/Game/Core/Board/BoardCell.cs: the index of
    the item it holds and the indices of its four cardinal neighbours, -1
    meaning "no cell there". */
module Cells {
  import opened Directions

  datatype BoardCell = BoardCell(
    itemIndex: int,
    cellViewIndex: int,
    upCellIndex: int,
    downCellIndex: int,
    rightCellIndex: int,
    leftCellIndex: int)
  {
    /** The neighbour in a cardinal direction; -1 for any other value,
        diagonals and combined masks included. */
    function GetDirectionIndex(direction: Direction): (r: int)
      ensures r == -1 || r == upCellIndex || r == downCellIndex ||
              r == rightCellIndex || r == leftCellIndex
      ensures !IsCardinal(direction) ==> r == -1
      ensures direction == Up ==> r == upCellIndex
      ensures direction == Down ==> r == downCellIndex
      ensures direction == Right ==> r == rightCellIndex
      ensures direction == Left ==> r == leftCellIndex
    {
      if direction == Up then upCellIndex
      else if direction == Down then downCellIndex
      else if direction == Right then rightCellIndex
      else if direction == Left then leftCellIndex
      else -1
    }
  }

  /** One of the four directions a cell stores a neighbour for. */
  predicate IsCardinal(d: Direction) {
    d == Up || d == Down || d == Right || d == Left
  }

  /** The value of a fresh `BoardCell`: every field zero. */
  const ZeroCell := BoardCell(0, 0, 0, 0, 0, 0)

  /** `k` is a usable neighbour link on an array of `n` cells. */
  predicate Link(k: int, n: int) {
    k == -1 || 0 <= k < n
  }

  /** Every link of `c` is -1 or a cell, and its item index addresses one of
      `m` items. */
  predicate CellOk(c: BoardCell, n: int, m: int) {
    0 <= c.itemIndex < m &&
    Link(c.upCellIndex, n) && Link(c.downCellIndex, n) &&
    Link(c.rightCellIndex, n) && Link(c.leftCellIndex, n)
  }

  /** Every cell of `cells` is well-linked with respect to `m` items: the
      indexing done by the match engine never leaves its arrays. */
  predicate WellFormed(cells: seq<BoardCell>, m: int) {
    forall i :: 0 <= i < |cells| ==> CellOk(cells[i], |cells|, m)
  }

  /** Two cell arrays with the same neighbour links (item indices may differ). */
  predicate SameTopology(a: seq<BoardCell>, b: seq<BoardCell>) {
    |a| == |b| &&
    forall i :: 0 <= i < |a| ==>
      a[i].upCellIndex == b[i].upCellIndex && a[i].downCellIndex == b[i].downCellIndex &&
      a[i].rightCellIndex == b[i].rightCellIndex && a[i].leftCellIndex == b[i].leftCellIndex
  }

  /** A link found by the cardinal lookup of a well-formed array is a cell or -1. */
  lemma LookupStaysOnBoard(cells: seq<BoardCell>, m: int, i: int, d: Direction)
    requires WellFormed(cells, m) && 0 <= i < |cells|
    ensures Link(cells[i].GetDirectionIndex(d), |cells|)
  {
  }
}
