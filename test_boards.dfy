/** The board builders of the board tests
    (Assets/Test/BoardTest/Editor/BlastRuleTests.cs:147-188): row-major cell
    indices, a rectangular grid of cells with cardinal links, and an item
    array. They are the only code that gives the board its topology. */
module TestBoards {
  import opened Cells
  import ItemTypes
  import Levels

  /** Row-major index of column `x`, row `y`. */
  function IndexOf(x: int, y: int, width: int): int {
    (y * width) + x
  }

  /** Coordinates survive the round trip through `IndexOf`. */
  lemma IndexOfRoundTrip(x: int, y: int, width: int)
    requires 0 <= x < width && 0 <= y
    ensures IndexOf(x, y, width) / width == y && IndexOf(x, y, width) % width == x
  {
    Levels.RowMajorRoundTrip(x, y, width);
  }

  /** An index of a cell inside the rectangle lies in `0 .. width*height`. */
  lemma IndexOfInRange(x: int, y: int, width: int, height: int)
    requires 0 <= x < width && 0 <= y < height
    ensures 0 <= IndexOf(x, y, width) < width * height
  {
    Levels.RowMajorInRange(x, y, width, height);
  }

  /** The cell `BuildCells` puts at column `x`, row `y`: it holds item
      `IndexOf(x, y)`, `up` is row `y + 1`, and a neighbour off the grid is -1. */
  function CellAt(x: int, y: int, width: int, height: int): BoardCell {
    BoardCell(
      IndexOf(x, y, width),
      0,
      if y + 1 < height then IndexOf(x, y + 1, width) else -1,
      if y - 1 >= 0 then IndexOf(x, y - 1, width) else -1,
      if x + 1 < width then IndexOf(x + 1, y, width) else -1,
      if x - 1 >= 0 then IndexOf(x - 1, y, width) else -1)
  }

  /** The cell array of a `width` by `height` grid, indexed row-major. */
  function Grid(width: nat, height: nat): (g: seq<BoardCell>)
    ensures |g| == width * height
  {
    if width == 0 then []
    else seq(width * height, c requires 0 <= c < width * height => CellAt(c % width, c / width, width, height))
  }

  /** `BuildCells`: fills a fresh array in row order with the grid's cells. */
  method BuildCells(width: nat, height: nat) returns (cells: array<BoardCell>)
    ensures fresh(cells) && cells[..] == Grid(width, height)
  {
    var size := width * height;
    ghost var g := Grid(width, height);
    cells := new BoardCell[size](_ => ZeroCell);
    for y := 0 to height
      invariant cells.Length == |g| && 0 <= y * width <= |g|
      invariant forall c :: 0 <= c < y * width ==> cells[c] == g[c]
    {
      Levels.MulMono(y + 1, height, width);
      for x := 0 to width
        invariant 0 <= y * width + x <= |g|
        invariant forall c :: 0 <= c < y * width + x ==> cells[c] == g[c]
      {
        var index := IndexOf(x, y, width);
        GridAt(width, height, x, y);
        cells[index] := CellAt(x, y, width, height);
      }
      assert y * width + width == (y + 1) * width;
    }
  }

  /** The grid cell at column `x`, row `y`. */
  lemma GridAt(width: nat, height: nat, x: int, y: int)
    requires 0 <= x < width && 0 <= y < height
    ensures 0 <= IndexOf(x, y, width) < |Grid(width, height)|
    ensures Grid(width, height)[IndexOf(x, y, width)] == CellAt(x, y, width, height)
  {
    IndexOfInRange(x, y, width, height);
    IndexOfRoundTrip(x, y, width);
  }

  /** Every index of the grid is `IndexOf` of its own coordinates. */
  lemma GridCoordinates(width: nat, height: nat, c: int)
    requires 0 <= c < width * height
    ensures width > 0 && 0 <= c % width < width && 0 <= c / width < height
    ensures c == IndexOf(c % width, c / width, width)
    ensures Grid(width, height)[c] == CellAt(c % width, c / width, width, height)
  {
    if c / width >= height {
      Levels.MulMono(height, c / width, width);
    }
  }

  /** `BuildCells` places item `i` in cell `i`. */
  lemma GridHoldsOwnItem(width: nat, height: nat, c: int)
    requires 0 <= c < width * height
    ensures Grid(width, height)[c].itemIndex == c
  {
    GridCoordinates(width, height, c);
  }

  /** The grid is well-formed for any item array of at least `width*height`
      items: every link is -1 or a cell, every item index an item. */
  lemma GridWellFormed(width: nat, height: nat, m: int)
    requires m >= width * height
    ensures WellFormed(Grid(width, height), m)
  {
    var g := Grid(width, height);
    forall c | 0 <= c < |g|
      ensures CellOk(g[c], |g|, m)
    {
      GridCoordinates(width, height, c);
      var x, y := c % width, c / width;
      IndexOfInRange(x, y, width, height);
      if y + 1 < height { IndexOfInRange(x, y + 1, width, height); }
      if y - 1 >= 0 { IndexOfInRange(x, y - 1, width, height); }
      if x + 1 < width { IndexOfInRange(x + 1, y, width, height); }
      if x - 1 >= 0 { IndexOfInRange(x - 1, y, width, height); }
    }
  }

  /** Grid adjacency is symmetric: `right`/`left` and `up`/`down` are mutual
      inverses wherever a link exists. */
  lemma GridSymmetric(width: nat, height: nat, c: int)
    requires 0 <= c < width * height
    ensures var g := Grid(width, height);
      (g[c].rightCellIndex != -1 ==> 0 <= g[c].rightCellIndex < |g| && g[g[c].rightCellIndex].leftCellIndex == c) &&
      (g[c].leftCellIndex != -1 ==> 0 <= g[c].leftCellIndex < |g| && g[g[c].leftCellIndex].rightCellIndex == c) &&
      (g[c].upCellIndex != -1 ==> 0 <= g[c].upCellIndex < |g| && g[g[c].upCellIndex].downCellIndex == c) &&
      (g[c].downCellIndex != -1 ==> 0 <= g[c].downCellIndex < |g| && g[g[c].downCellIndex].upCellIndex == c)
  {
    RowSymmetric(width, height, c);
    ColumnSymmetric(width, height, c);
  }

  /** The `right`/`left` half of `GridSymmetric`. */
  lemma RowSymmetric(width: nat, height: nat, c: int)
    requires 0 <= c < width * height
    ensures var g := Grid(width, height);
      (g[c].rightCellIndex != -1 ==> 0 <= g[c].rightCellIndex < |g| && g[g[c].rightCellIndex].leftCellIndex == c) &&
      (g[c].leftCellIndex != -1 ==> 0 <= g[c].leftCellIndex < |g| && g[g[c].leftCellIndex].rightCellIndex == c)
  {
    GridCoordinates(width, height, c);
    var x, y := c % width, c / width;
    if x + 1 < width { GridAt(width, height, x + 1, y); }
    if x - 1 >= 0 { GridAt(width, height, x - 1, y); }
  }

  /** The `up`/`down` half of `GridSymmetric`. */
  lemma ColumnSymmetric(width: nat, height: nat, c: int)
    requires 0 <= c < width * height
    ensures var g := Grid(width, height);
      (g[c].upCellIndex != -1 ==> 0 <= g[c].upCellIndex < |g| && g[g[c].upCellIndex].downCellIndex == c) &&
      (g[c].downCellIndex != -1 ==> 0 <= g[c].downCellIndex < |g| && g[g[c].downCellIndex].upCellIndex == c)
  {
    GridCoordinates(width, height, c);
    var x, y := c % width, c / width;
    if y + 1 < height { GridAt(width, height, x, y + 1); }
    if y - 1 >= 0 { GridAt(width, height, x, y - 1); }
  }

  /** `BuildItems`: `2 * width * height` items, the first `width * height` of
      the given type with health 1, the rest left at their zero value. */
  method BuildItems(width: nat, height: nat, defaultType: ItemTypes.ItemType) returns (items: array<ItemTypes.Item>)
    ensures fresh(items) && items.Length == 2 * (width * height)
    ensures forall i :: 0 <= i < width * height ==> items[i] == ItemTypes.Item(defaultType, 1)
    ensures forall i :: width * height <= i < items.Length ==> items[i] == ItemTypes.ZeroItem
  {
    var size := width * height;
    items := new ItemTypes.Item[size * 2](_ => ItemTypes.ZeroItem);
    for i := 0 to size
      invariant forall k :: 0 <= k < i ==> items[k] == ItemTypes.Item(defaultType, 1)
      invariant forall k :: size <= k < items.Length ==> items[k] == ItemTypes.ZeroItem
    {
      items[i] := ItemTypes.Item(defaultType, 1);
    }
  }

  // ---------------------------------------------------------------------
  // Rows and columns of the grid

  /** The image of `0 .. n` under `f`. */
  function Image(f: int -> int, n: nat): set<int> {
    set k | 0 <= k < n :: f(k)
  }

  lemma {:induction false} ImageSize(f: int -> int, n: nat)
    ensures |Image(f, n)| <= n
  {
    if n > 0 {
      assert Image(f, n) == Image(f, n - 1) + {f(n - 1)};
      ImageSize(f, n - 1);
    }
  }

  /** The cells of column `x`. */
  function Column(x: int, width: nat, height: nat): set<int> {
    Image(y => IndexOf(x, y, width), height)
  }

  /** The cells of row `y`. */
  function Row(y: int, width: nat): set<int> {
    Image(x => IndexOf(x, y, width), width)
  }

  /** All cells. */
  function AllCells(n: nat): set<int> {
    Image(c => c, n)
  }

  /** A column has `height` cells at most, a row `width`, the grid `n`. */
  lemma RegionSizes(x: int, y: int, width: nat, height: nat, n: nat)
    ensures |Column(x, width, height)| <= height
    ensures |Row(y, width)| <= width
    ensures |AllCells(n)| <= n
  {
    ImageSize(y => IndexOf(x, y, width), height);
    ImageSize(x => IndexOf(x, y, width), width);
    ImageSize(c => c, n);
  }
}
