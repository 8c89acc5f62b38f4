/** `LevelData` (Assets/Module/Game/Core/Level/LevelData.cs): the validated
    description of a level — its size, its move budget, and per cell an item
    type and an exclusion flag, stored row-major. */
module Levels {
  import opened Wrappers
  import opened Int32s
  import opened ItemTypes

  /** Why the constructor throws, one case per guard, in the order the
      guards run. */
  datatype LevelError =
    | WidthNotPositive     // ArgumentOutOfRangeException(width)
    | HeightNotPositive    // ArgumentOutOfRangeException(height)
    | MovesNegative        // ArgumentOutOfRangeException(moves)
    | ItemsNull            // ArgumentNullException(items)
    | ExcludedNull         // ArgumentNullException(excludedCells)
    | ItemsLength          // ArgumentException(items)
    | ExcludedLength       // ArgumentException(excludedCells)

  /** A constructed level. The arrays are immutable here: the class exposes
      them through getters only and the model never writes them. */
  datatype LevelData = LevelData(
    width: Int32, height: Int32, moves: Int32,
    items: seq<ItemType>, excludedCells: seq<bool>)

  /** A C# array fits an `int` length. */
  predicate IsArray<T>(a: Option<seq<T>>) {
    a.Some? ==> |a.value| <= MaxInt32
  }

  /** What a successfully constructed level satisfies. */
  predicate Valid(level: LevelData) {
    && level.width > 0 && level.height > 0 && level.moves >= 0
    && |level.items| == level.width * level.height
    && |level.excludedCells| == level.width * level.height
  }

  /** The guards of the constructor, with `width * height` computed exactly.
      `arrayLength` is the `int` the length check compares against. */
  function Check(width: Int32, height: Int32, moves: Int32,
                 items: Option<seq<ItemType>>, excludedCells: Option<seq<bool>>,
                 expectedLength: int): Result<LevelData, LevelError>
  {
    if width <= 0 then Failure(WidthNotPositive)
    else if height <= 0 then Failure(HeightNotPositive)
    else if moves < 0 then Failure(MovesNegative)
    else if items.None? then Failure(ItemsNull)
    else if excludedCells.None? then Failure(ExcludedNull)
    else if |items.value| != expectedLength then Failure(ItemsLength)
    else if |excludedCells.value| != expectedLength then Failure(ExcludedLength)
    else Success(LevelData(width, height, moves, items.value, excludedCells.value))
  }

  /** The constructor as written: `expectedLength` is the `int` product, which
      wraps for sizes past 2^31. */
  function NewLevelDataAsWritten(width: Int32, height: Int32, moves: Int32,
                                 items: Option<seq<ItemType>>, excludedCells: Option<seq<bool>>)
    : (r: Result<LevelData, LevelError>)
    ensures r.Success? ==> |r.value.items| == Wrap32(width * height)
  {
    Check(width, height, moves, items, excludedCells, Wrap32(width * height))
  }

  /** The constructor with the length check against the exact product, as
      the error message promises. The rest of the model builds levels with
      this one. */
  function NewLevelData(width: Int32, height: Int32, moves: Int32,
                        items: Option<seq<ItemType>>, excludedCells: Option<seq<bool>>)
    : (r: Result<LevelData, LevelError>)
    ensures r.Success? <==>
      && width > 0 && height > 0 && moves >= 0
      && items.Some? && excludedCells.Some?
      && |items.value| == width * height && |excludedCells.value| == width * height
    ensures r.Success? ==>
      && Valid(r.value)
      && r.value == LevelData(width, height, moves, items.value, excludedCells.value)
  {
    Check(width, height, moves, items, excludedCells, width * height)
  }

  /** The guards run in source order: the first one violated names the error. */
  lemma NewLevelDataErrors(width: Int32, height: Int32, moves: Int32,
                           items: Option<seq<ItemType>>, excludedCells: Option<seq<bool>>)
    ensures var r := NewLevelData(width, height, moves, items, excludedCells);
      && (width <= 0 ==> r == Failure(WidthNotPositive))
      && ((width > 0 && height <= 0) ==> r == Failure(HeightNotPositive))
      && ((width > 0 && height > 0 && moves < 0) ==> r == Failure(MovesNegative))
      && ((width > 0 && height > 0 && moves >= 0 && items.None?) ==> r == Failure(ItemsNull))
      && ((width > 0 && height > 0 && moves >= 0 && items.Some? && excludedCells.None?)
          ==> r == Failure(ExcludedNull))
      && ((width > 0 && height > 0 && moves >= 0 && items.Some? && excludedCells.Some?
           && |items.value| != width * height)
          ==> r == Failure(ItemsLength))
      && ((width > 0 && height > 0 && moves >= 0 && items.Some? && excludedCells.Some?
           && |items.value| == width * height && |excludedCells.value| != width * height)
          ==> r == Failure(ExcludedLength))
  {
  }

  /** A valid level's arrays fit `int` lengths, so its cell count is an `int`
      and the two constructors agree on it. */
  lemma ConstructorsAgree(width: Int32, height: Int32, moves: Int32,
                          items: Option<seq<ItemType>>, excludedCells: Option<seq<bool>>)
    requires IsArray(items) && IsArray(excludedCells)
    requires width <= 0 || height <= 0 || width * height <= MaxInt32
    ensures NewLevelDataAsWritten(width, height, moves, items, excludedCells)
         == NewLevelData(width, height, moves, items, excludedCells)
  {
    if width > 0 && height > 0 {
      Wrap32Identity(width * height);
    }
  }

  /** The as-written constructor accepts a 65536 by 65536 level with empty
      arrays: the product wraps to 0, and no cell of the level has an item. */
  lemma WrappedSizeAccepted()
    ensures var r := NewLevelDataAsWritten(65536, 65536, 0, Some([]), Some([]));
      r.Success? && !Valid(r.value) && GetItem(r.value, 0, 0).None?
    ensures NewLevelData(65536, 65536, 0, Some([]), Some([])) == Failure(ItemsLength)
  {
    assert 65536 * 65536 == 0x1_0000_0000;
    assert Wrap32(0x1_0000_0000) == 0;
  }

  /** `GetIndex`: `y * Width + x` in `int` arithmetic. */
  function GetIndex(level: LevelData, x: Int32, y: Int32): (r: Int32)
    ensures (r - (y * level.width + x)) % 0x1_0000_0000 == 0
    ensures MinInt32 <= y * level.width <= MaxInt32 && MinInt32 <= y * level.width + x <= MaxInt32 ==>
      r == y * level.width + x
  {
    var product := y * level.width;
    var row := Wrap32(product);
    var r := Wrap32(row + x);
    WrapSum(product, row, x, r);
    Wrap32Identity(product);
    Wrap32Identity(row + x);
    r
  }

  /** Wrapping a summand first wraps the same sum. */
  lemma WrapSum(a: int, wa: int, x: int, r: int)
    requires (wa - a) % 0x1_0000_0000 == 0 && (r - (wa + x)) % 0x1_0000_0000 == 0
    ensures (r - (a + x)) % 0x1_0000_0000 == 0
  {
    var m := 0x1_0000_0000;
    assert wa - a == m * ((wa - a) / m);
    assert r - (wa + x) == m * ((r - (wa + x)) / m);
    assert r - (a + x) == m * ((wa - a) / m + (r - (wa + x)) / m);
  }

  /** `GetItem`: the item at the computed index, or an
      IndexOutOfRangeException (`None`) when the index misses the array. */
  function GetItem(level: LevelData, x: Int32, y: Int32): (r: Option<ItemType>)
    ensures r.Some? <==> 0 <= GetIndex(level, x, y) < |level.items|
    ensures r.Some? ==> r.value == level.items[GetIndex(level, x, y)] && r.value in level.items
  {
    var i := GetIndex(level, x, y);
    if 0 <= i < |level.items| then Some(level.items[i]) else None
  }

  /** `IsExcluded`: the flag at the computed index, or an exception (`None`). */
  function IsExcluded(level: LevelData, x: Int32, y: Int32): (r: Option<bool>)
    ensures r.Some? <==> 0 <= GetIndex(level, x, y) < |level.excludedCells|
    ensures r.Some? ==> r.value == level.excludedCells[GetIndex(level, x, y)] && r.value in level.excludedCells
  {
    var i := GetIndex(level, x, y);
    if 0 <= i < |level.excludedCells| then Some(level.excludedCells[i]) else None
  }

  lemma MulMono(a: int, b: int, n: int)
    requires a <= b && 0 <= n
    ensures a * n <= b * n
  {
    assert b * n - a * n == (b - a) * n;
  }

  /** Row-major coordinates survive the round trip through the index. */
  lemma RowMajorRoundTrip(x: int, y: int, width: int)
    requires 0 <= x < width && 0 <= y
    ensures (y * width + x) / width == y && (y * width + x) % width == x
  {
    var i := y * width + x;
    var q, r := i / width, i % width;
    assert i == q * width + r && 0 <= r < width;
    if q < y {
      assert (q + 1) * width == q * width + width;
      MulMono(q + 1, y, width);
    } else if q > y {
      assert (y + 1) * width == y * width + width;
      MulMono(y + 1, q, width);
    }
  }

  /** A cell inside the rectangle has a row-major index inside
      `0 .. width * height`. */
  lemma RowMajorInRange(x: int, y: int, width: int, height: int)
    requires 0 <= x < width && 0 <= y < height
    ensures 0 <= y * width + x < width * height
  {
    MulMono(0, y, width);
    MulMono(y + 1, height, width);
    assert (y + 1) * width == y * width + width;
  }

  /** On a valid level every cell inside the rectangle is read without
      wrap-around at its own row-major index, and distinct cells read
      distinct entries. */
  lemma GetIndexInside(level: LevelData, x: Int32, y: Int32)
    requires Valid(level) && |level.items| <= MaxInt32
    requires 0 <= x < level.width && 0 <= y < level.height
    ensures GetIndex(level, x, y) == y * level.width + x
    ensures 0 <= GetIndex(level, x, y) < |level.items|
    ensures GetIndex(level, x, y) / level.width == y && GetIndex(level, x, y) % level.width == x
    ensures GetItem(level, x, y) == Some(level.items[y * level.width + x])
    ensures IsExcluded(level, x, y) == Some(level.excludedCells[y * level.width + x])
  {
    RowMajorInRange(x, y, level.width, level.height);
    MulMono(0, y, level.width);
    Wrap32Identity(y * level.width);
    Wrap32Identity(y * level.width + x);
    RowMajorRoundTrip(x, y, level.width);
  }

  /** Every entry of a valid level is the cell of the coordinates
      `(i % width, i / width)`, which lie inside the rectangle. */
  lemma GetIndexCovers(level: LevelData, i: int)
    requires Valid(level) && |level.items| <= MaxInt32
    requires 0 <= i < |level.items|
    ensures 0 <= i % level.width < level.width && 0 <= i / level.width < level.height
    ensures i == level.width * (i / level.width) + i % level.width
    ensures GetIndex(level, i % level.width, i / level.width) == i
  {
    var w := level.width;
    var x, y := i % w, i / w;
    assert i == y * w + x && i == w * y + x && 0 <= x < w;
    if y < 0 {
      MulMono(y, -1, w);
      assert false;
    }
    if y >= level.height {
      MulMono(level.height, y, w);
      assert false;
    }
    GetIndexInside(level, x, y);
  }

  /** There is no bounds check: a column one past the right edge reads the
      first cell of the next row instead of failing. */
  lemma GetItemAliasesNextRow(level: LevelData, y: Int32)
    requires Valid(level) && |level.items| <= MaxInt32
    requires 0 <= y && y + 1 < level.height
    ensures GetItem(level, level.width, y) == GetItem(level, 0, y + 1)
    ensures GetItem(level, level.width, y).Some?
  {
    var w := level.width;
    var row := y * w;
    GetIndexInside(level, 0, y + 1);
    assert (y + 1) * w == row + w;
    MulMono(0, y, w);
    assert 0 <= row < row + w < |level.items|;
    Wrap32Identity(row);
    Wrap32Identity(row + w);
    assert GetIndex(level, w, y) == row + w;
  }
}
