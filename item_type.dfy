/** The bit-flag enumeration `ItemType` of
    Assets/Module/Game/Core/Item/ItemType.cs: capability bits (`Blast`,
    `Special`, `Obstacle`) and the concrete item types built on them. */
module ItemTypes {

  /** An item type: the enum's 32-bit underlying value. */
  type ItemType = bv32

  const None: ItemType := 0
  const Blast: ItemType := 16
  const BlastRed: ItemType := 17
  const BlastBlue: ItemType := 18
  const BlastGreen: ItemType := 20
  const BlastYellow: ItemType := 21
  const Special: ItemType := 32
  const Special1: ItemType := 33
  const Special2: ItemType := 34
  const Special3: ItemType := 35
  const Obstacle: ItemType := 64
  const Obstacle1: ItemType := 65

  /** The twelve named values in declaration order. */
  const AllTypes: seq<ItemType> :=
    [None, Blast, BlastRed, BlastBlue, BlastGreen, BlastYellow,
     Special, Special1, Special2, Special3, Obstacle, Obstacle1]

  /** The four concrete blast colours. */
  const BlastColours: seq<ItemType> := [BlastRed, BlastBlue, BlastGreen, BlastYellow]

  /** .NET `Enum.HasFlag`: every bit of `flag` is set in `t`. The empty
      flag and the type itself are always held; `None` holds no other
      flag. */
  predicate HasFlag(t: ItemType, flag: ItemType)
    ensures flag == 0 || flag == t ==> HasFlag(t, flag)
    ensures HasFlag(t, flag) && flag != 0 ==> t != 0
  {
    t & flag == flag
  }

  /** An item: its type and a health value the engine never reads. The
      `Item` struct's own file is not part of this model; its two fields are
      the ones the board tests initialise. */
  datatype Item = Item(itemType: ItemType, health: int)

  /** The value of a fresh `Item`. */
  const ZeroItem := Item(None, 0)

  /** `None` is zero and carries no capability bit. */
  lemma NoneHasNoCapability()
    ensures None == 0
    ensures !HasFlag(None, Blast) && !HasFlag(None, Special) && !HasFlag(None, Obstacle)
  {
  }

  /** Every concrete blast colour carries the `Blast` bit, so it passes the
      blast gate of the match engine. */
  lemma BlastColoursAreBlast(k: nat)
    requires k < |BlastColours|
    ensures HasFlag(BlastColours[k], Blast)
  {
  }

  /** Specials and the obstacle lack the `Blast` bit, so they never start
      rule evaluation. */
  lemma NonBlastTypes()
    ensures !HasFlag(Special1, Blast) && !HasFlag(Special2, Blast) && !HasFlag(Special3, Blast)
    ensures !HasFlag(Obstacle1, Blast) && !HasFlag(Special, Blast) && !HasFlag(Obstacle, Blast)
  {
  }

  /** The named values are pairwise distinct, so type equality tells every
      concrete type apart. */
  lemma AllTypesDistinct()
    ensures forall i, j :: 0 <= i < j < |AllTypes| ==> AllTypes[i] != AllTypes[j]
  {
  }

  /** Concrete colours are not bit-disjoint: `BlastYellow` contains every bit
      of `BlastRed`, so matching must compare types for equality. */
  lemma ColoursOverlapAsFlags()
    ensures HasFlag(BlastYellow, BlastRed) && BlastYellow != BlastRed
  {
  }
}
