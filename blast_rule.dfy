/** Blast rules of Assets/Module/Game/Core/Util/BlastRule.cs: which directions
    a flood fill may follow, how large its selection buffer is, and the
    per-direction minimum counts that make a blast. */
module Rules {
  import opened Directions
  import ItemTypes

  /** At least `min` tiles in a line along the directions of `direction`,
      the seed tile included. */
  datatype BlastRequirement = BlastRequirement(min: int, direction: Direction)

  /** `minCount` is the struct's fixed buffer of `Direction.Count` integers;
      `order` and `itemType` are stored but never read by the engine. */
  datatype BlastRule = BlastRule(
    name: string,
    order: int,
    direction: Direction,
    maxPossibleSelectTile: int,
    itemType: ItemTypes.ItemType,
    blastSizes: seq<BlastRequirement>,
    minCount: seq<int>)

  /** Sum of `counted[j]` over the dense indices `j < upTo` whose flag is in
      `mask`. */
  function MaskedSum(counted: seq<int>, mask: Direction, upTo: nat): int
    requires upTo <= Count <= |counted|
  {
    if upTo == 0 then 0
    else MaskedSum(counted, mask, upTo - 1) +
         (if HasFlag(mask, Flag(upTo - 1)) then counted[upTo - 1] else 0)
  }

  /** The requirement holds of the tallies: its directions' tallies plus the
      seed reach `min`. */
  predicate RequirementMet(req: BlastRequirement, counted: seq<int>)
    requires |counted| == Count
  {
    MaskedSum(counted, req.direction, Count) + 1 >= req.min
  }

  /** Every requirement of the rule holds of the tallies. */
  predicate BlastSizeValid(rule: BlastRule, counted: seq<int>)
    requires |counted| == Count
  {
    forall k :: 0 <= k < |rule.blastSizes| ==> RequirementMet(rule.blastSizes[k], counted)
  }

  /** `BlastRule.IsBlastSizeValid`: checks the requirements in order and
      answers false at the first one whose tally plus the seed falls short. */
  method IsBlastSizeValid(rule: BlastRule, countedTiles: array<int>) returns (r: bool)
    requires countedTiles.Length == Count
    ensures r <==> BlastSizeValid(rule, countedTiles[..])
  {
    for i := 0 to |rule.blastSizes|
      invariant forall k :: 0 <= k < i ==> RequirementMet(rule.blastSizes[k], countedTiles[..])
    {
      var blastSize := rule.blastSizes[i];
      var totalCount := 0;
      for j := 0 to Count
        invariant totalCount == MaskedSum(countedTiles[..], blastSize.direction, j)
      {
        var dir := Flag(j);
        if HasFlag(blastSize.direction, dir) {
          totalCount := totalCount + countedTiles[j];
        }
      }
      if totalCount + 1 < blastSize.min {
        return false;
      }
    }
    return true;
  }

  /** `BlastRule.MinCountFind`: the minimum stored for a direction of the
      rule's mask, 0 for a direction outside it. Nothing ever writes the
      stored minimums, so the lookup is always 0: see `ZeroMinCount` and
      `MinCountFindOfZeroBuffer`. */
  function MinCountFind(rule: BlastRule, dir: Direction): (r: int)
    requires IsDirection(dir) && |rule.minCount| == Count
    ensures !HasFlag(rule.direction, dir) ==> r == 0
    ensures HasFlag(rule.direction, dir) ==> r == rule.minCount[GetDirectionIndex(dir)]
  {
    if HasFlag(rule.direction, dir) then rule.minCount[GetDirectionIndex(dir)] else 0
  }

  /** The `minCount` buffer as every rule of the engine has it: never written,
      so all zeros. */
  function ZeroMinCount(): (z: seq<int>)
    ensures |z| == Count && forall j :: 0 <= j < |z| ==> z[j] == 0
  {
    seq(Count, _ => 0)
  }

  /** With the never-written `minCount`, `MinCountFind` is zero for every
      direction. */
  lemma MinCountFindOfZeroBuffer(rule: BlastRule, dir: Direction)
    requires IsDirection(dir) && rule.minCount == ZeroMinCount()
    ensures MinCountFind(rule, dir) == 0
  {
  }

  /** A rule without requirements is valid for every tally. */
  lemma NoRequirementsAlwaysValid(rule: BlastRule, counted: seq<int>)
    requires |counted| == Count && rule.blastSizes == []
    ensures BlastSizeValid(rule, counted)
  {
  }

  /** Tallies of directions outside the mask do not change the masked sum. */
  lemma {:induction false} MaskedSumIgnoresOtherDirections(a: seq<int>, b: seq<int>, mask: Direction, upTo: nat)
    requires upTo <= Count && |a| == Count && |b| == Count
    requires forall j :: 0 <= j < Count && HasFlag(mask, Flag(j)) ==> a[j] == b[j]
    ensures MaskedSum(a, mask, upTo) == MaskedSum(b, mask, upTo)
  {
    if upTo > 0 {
      MaskedSumIgnoresOtherDirections(a, b, mask, upTo - 1);
    }
  }

  /** A requirement depends only on the tallies of its own directions. */
  lemma RequirementIgnoresOtherDirections(req: BlastRequirement, a: seq<int>, b: seq<int>)
    requires |a| == Count && |b| == Count
    requires forall j :: 0 <= j < Count && HasFlag(req.direction, Flag(j)) ==> a[j] == b[j]
    ensures RequirementMet(req, a) <==> RequirementMet(req, b)
  {
    MaskedSumIgnoresOtherDirections(a, b, req.direction, Count);
  }

  /** Raising tallies never lowers a masked sum. */
  lemma {:induction false} MaskedSumMonotone(a: seq<int>, b: seq<int>, mask: Direction, upTo: nat)
    requires upTo <= Count && |a| == Count && |b| == Count
    requires forall j :: 0 <= j < Count ==> a[j] <= b[j]
    ensures MaskedSum(a, mask, upTo) <= MaskedSum(b, mask, upTo)
  {
    if upTo > 0 {
      MaskedSumMonotone(a, b, mask, upTo - 1);
    }
  }

  /** Validity is monotone: raising any tally never turns a valid rule invalid. */
  lemma ValidityMonotone(rule: BlastRule, a: seq<int>, b: seq<int>)
    requires |a| == Count && |b| == Count
    requires forall j :: 0 <= j < Count ==> a[j] <= b[j]
    requires BlastSizeValid(rule, a)
    ensures BlastSizeValid(rule, b)
  {
    forall k | 0 <= k < |rule.blastSizes|
      ensures RequirementMet(rule.blastSizes[k], b)
    {
      MaskedSumMonotone(a, b, rule.blastSizes[k].direction, Count);
    }
  }

  /** The masked sum adds the tallies of exactly the directions in the mask. */
  lemma {:induction false} MaskedSumOfFlags(counted: seq<int>, mask: Direction)
    requires |counted| == Count
    ensures MaskedSum(counted, mask, Count) ==
      (if HasFlag(mask, Up) then counted[0] else 0) +
      (if HasFlag(mask, Down) then counted[1] else 0) +
      (if HasFlag(mask, Right) then counted[2] else 0) +
      (if HasFlag(mask, Left) then counted[3] else 0) +
      (if HasFlag(mask, UpRight) then counted[4] else 0) +
      (if HasFlag(mask, UpLeft) then counted[5] else 0) +
      (if HasFlag(mask, DownRight) then counted[6] else 0) +
      (if HasFlag(mask, DownLeft) then counted[7] else 0)
  {
    FlagNames();
    assert MaskedSum(counted, mask, 1) == (if HasFlag(mask, Up) then counted[0] else 0);
    assert MaskedSum(counted, mask, 2) == MaskedSum(counted, mask, 1) + (if HasFlag(mask, Down) then counted[1] else 0);
    assert MaskedSum(counted, mask, 3) == MaskedSum(counted, mask, 2) + (if HasFlag(mask, Right) then counted[2] else 0);
    assert MaskedSum(counted, mask, 4) == MaskedSum(counted, mask, 3) + (if HasFlag(mask, Left) then counted[3] else 0);
    assert MaskedSum(counted, mask, 5) == MaskedSum(counted, mask, 4) + (if HasFlag(mask, UpRight) then counted[4] else 0);
    assert MaskedSum(counted, mask, 6) == MaskedSum(counted, mask, 5) + (if HasFlag(mask, UpLeft) then counted[5] else 0);
    assert MaskedSum(counted, mask, 7) == MaskedSum(counted, mask, 6) + (if HasFlag(mask, DownRight) then counted[6] else 0);
  }

  /** The seed is counted implicitly: a requirement of `min` tiles along an
      axis is met by exactly `min - 1` tiles found in the axis' directions. */
  lemma SeedCountedImplicitly(counted: seq<int>, min: int)
    requires |counted| == Count
    ensures RequirementMet(BlastRequirement(min, Up | Down), counted) <==> counted[0] + counted[1] >= min - 1
    ensures RequirementMet(BlastRequirement(min, Right | Left), counted) <==> counted[2] + counted[3] >= min - 1
  {
    MaskedSumOfFlags(counted, Up | Down);
    MaskedSumOfFlags(counted, Right | Left);
  }
}
