/** The bit-flag enumeration `Direction` of Assets/Module/Util/Enum/Direction.cs
    and the dense index of a single flag. */
module Directions {

  /** A direction or a mask of directions: the enum's 32-bit underlying value. */
  type Direction = bv32

  const Up: Direction := 1
  const Down: Direction := 2
  const Right: Direction := 4
  const Left: Direction := 8
  const UpRight: Direction := 16
  const UpLeft: Direction := 32
  const DownRight: Direction := 64
  const DownLeft: Direction := 128

  /** `Direction.Count`: the length of every per-direction array. As an enum
      member it carries the value 8, the same value as `Left`. */
  const Count: nat := 8

  /** .NET `Enum.HasFlag`: every bit of `flag` is set in `mask`. The empty
      flag and the mask itself are always held; the empty mask holds no
      other flag. */
  predicate HasFlag(mask: Direction, flag: Direction)
    ensures flag == 0 || flag == mask ==> HasFlag(mask, flag)
    ensures HasFlag(mask, flag) && flag != 0 ==> mask != 0
  {
    mask & flag == flag
  }

  /** `(Direction)(1 << i)`, the flag addressed by dense index `i`. */
  function Flag(i: nat): (d: Direction)
    requires i < Count
    ensures d != 0 && d & (d - 1) == 0
  {
    (1 as bv32) << i
  }

  /** One of the eight named single-bit directions. */
  predicate IsDirection(d: Direction) {
    d == Up || d == Down || d == Right || d == Left ||
    d == UpRight || d == UpLeft || d == DownRight || d == DownLeft
  }

  /** `Direction.GetDirectionIndex()`: the bit position of a single flag. */
  function GetDirectionIndex(d: Direction): (r: nat)
    requires IsDirection(d)
    ensures r < Count && Flag(r) == d
  {
    if d == Up then 0
    else if d == Down then 1
    else if d == Right then 2
    else if d == Left then 3
    else if d == UpRight then 4
    else if d == UpLeft then 5
    else if d == DownRight then 6
    else 7
  }

  /** The dense indices 0..7 name the directions in the order of the enum,
      which is also the order of the neighbour list of the flood fill. */
  lemma FlagNames()
    ensures Flag(0) == Up && Flag(1) == Down && Flag(2) == Right && Flag(3) == Left
    ensures Flag(4) == UpRight && Flag(5) == UpLeft && Flag(6) == DownRight && Flag(7) == DownLeft
  {
  }

  /** The eight named directions are exactly the flags `1 << i`, pairwise
      bit-disjoint. */
  lemma FlagsAreDistinctBits(i: nat, j: nat)
    requires i < Count && j < Count
    ensures IsDirection(Flag(i))
    ensures i != j ==> Flag(i) & Flag(j) == 0
  {
    FlagNames();
  }

  /** Flags and dense indices are inverse bijections between 0..7 and the
      eight named directions. */
  lemma IndexOfFlag(i: nat)
    requires i < Count
    ensures IsDirection(Flag(i)) && GetDirectionIndex(Flag(i)) == i
  {
    FlagNames();
  }

  /** Used as a mask, `Count` would select `Left` and nothing else. */
  lemma CountIsLeft()
    ensures Count as Direction == Left
    ensures forall i :: 0 <= i < Count ==> (HasFlag(Count as Direction, Flag(i)) <==> i == 3)
  {
    FlagNames();
  }

  /** Masks compose by bitwise or: a single flag is in `a | b` exactly when it
      is in `a` or in `b`. */
  lemma OrComposes(a: Direction, b: Direction, i: nat)
    requires i < Count
    ensures HasFlag(a | b, Flag(i)) <==> HasFlag(a, Flag(i)) || HasFlag(b, Flag(i))
  {
    FlagNames();
    var f := Flag(i);
    assert f == Up || f == Down || f == Right || f == Left ||
           f == UpRight || f == UpLeft || f == DownRight || f == DownLeft;
  }

  /** The single directions inside the three masks the engine's rules use:
      the vertical axis, the horizontal axis, and right-or-up. */
  lemma AxisMasks()
    ensures forall i :: 0 <= i < Count ==> (HasFlag(Up | Down, Flag(i)) <==> i == 0 || i == 1)
    ensures forall i :: 0 <= i < Count ==> (HasFlag(Right | Left, Flag(i)) <==> i == 2 || i == 3)
    ensures forall i :: 0 <= i < Count ==> (HasFlag(Right | Up, Flag(i)) <==> i == 0 || i == 2)
  {
    FlagNames();
    forall i | 0 <= i < Count
      ensures HasFlag(Up | Down, Flag(i)) <==> i == 0 || i == 1
      ensures HasFlag(Right | Left, Flag(i)) <==> i == 2 || i == 3
      ensures HasFlag(Right | Up, Flag(i)) <==> i == 0 || i == 2
    {
      if i == 0 {} else if i == 1 {} else if i == 2 {} else if i == 3 {}
      else if i == 4 {} else if i == 5 {} else if i == 6 {} else {}
    }
  }

  /** `HasFlag` with the empty flag holds of every mask. */
  lemma EmptyFlagAlwaysHeld(m: Direction)
    ensures HasFlag(m, 0)
  {
  }
}
