/** `ProgressCounter` (Assets/Module/Util/ProgressCounter.cs): a counter
    identified by `id` that climbs from 0 towards `maxValue` and is clamped
    into `0 .. maxValue` after every increase. */
module Progress {
  import opened Int32s

  function Min(a: int, b: int): int { if a <= b then a else b }
  function Max(a: int, b: int): int { if a >= b then a else b }

  /** Unity.Mathematics `math.clamp(x, lo, hi)`, defined as
      `max(lo, min(hi, x))`: for `lo <= hi` the point of `lo .. hi` nearest
      to `x`, and `lo` when the bounds are crossed. */
  function Clamp(x: int, lo: int, hi: int): (r: int)
    ensures lo <= hi ==> lo <= r <= hi
    ensures lo <= hi ==> (r == x <==> lo <= x <= hi)
    ensures lo <= hi && x < lo ==> r == lo
    ensures lo <= hi && x > hi ==> r == hi
    ensures lo > hi ==> r == lo
  {
    Max(lo, Min(hi, x))
  }

  /** The new value as written: the sum is an `int` and wraps before it is
      clamped. The clamp still keeps it in range. */
  function AdvanceAsWritten(value: Int32, amount: Int32, maxValue: Int32): (r: Int32)
    ensures r >= 0
    ensures maxValue >= 0 ==> r <= maxValue
  {
    Clamp(Wrap32(value + amount), 0, maxValue)
  }

  /** As written, a non-negative increase reaches a positive maximum exactly
      when the sum reaches it without leaving the `int` range: past
      `int.MaxValue` the sum wraps negative and the counter drops to 0. */
  lemma AsWrittenReachesMax(value: Int32, amount: Int32, maxValue: Int32)
    requires maxValue > 0 && amount >= 0
    ensures AdvanceAsWritten(value, amount, maxValue) == maxValue <==> maxValue <= value + amount <= MaxInt32
  {
    if value + amount > MaxInt32 {
      assert Wrap32(value + amount) == value + amount - 0x1_0000_0000;
    } else {
      Wrap32Identity(value + amount);
    }
  }

  /** The new value with the exact sum, the saturating counter the clamp is
      there to give. `IncreaseProgress` uses this one. */
  function Advance(value: Int32, amount: Int32, maxValue: Int32): (r: Int32)
    ensures r >= 0
    ensures maxValue >= 0 ==> r <= maxValue
  {
    Clamp(value + amount, 0, maxValue)
  }

  /** An increase that stays in `0 .. maxValue` is exact; one past either end
      stops at that end. */
  lemma AdvanceExact(value: Int32, amount: Int32, maxValue: Int32)
    requires maxValue >= 0
    ensures 0 <= value + amount <= maxValue ==> Advance(value, amount, maxValue) == value + amount
    ensures value + amount < 0 ==> Advance(value, amount, maxValue) == 0
    ensures value + amount > maxValue ==> Advance(value, amount, maxValue) == maxValue
  {
  }

  /** A counter at its maximum stays there under any non-negative amount, and
      a counter at 0 stays there under any non-positive one. */
  lemma AdvanceSaturates(value: Int32, amount: Int32, maxValue: Int32)
    requires maxValue >= 0
    ensures value == maxValue && amount >= 0 ==> Advance(value, amount, maxValue) == maxValue
    ensures value == 0 && amount <= 0 ==> Advance(value, amount, maxValue) == 0
  {
  }

  /** A larger amount never gives a smaller value. */
  lemma AdvanceMonotone(value: Int32, a: Int32, b: Int32, maxValue: Int32)
    requires a <= b
    ensures Advance(value, a, maxValue) <= Advance(value, b, maxValue)
  {
  }

  /** `IsMax` holds after an increase exactly when the sum reached the
      maximum (for a positive maximum; a maximum of 0 is reached by every
      value). */
  lemma AdvanceReachesMax(value: Int32, amount: Int32, maxValue: Int32)
    requires maxValue > 0
    ensures Advance(value, amount, maxValue) == maxValue <==> value + amount >= maxValue
  {
  }

  /** The two agree whenever the sum fits an `int`. */
  lemma AdvanceAgrees(value: Int32, amount: Int32, maxValue: Int32)
    requires MinInt32 <= value + amount <= MaxInt32
    ensures AdvanceAsWritten(value, amount, maxValue) == Advance(value, amount, maxValue)
  {
    Wrap32Identity(value + amount);
  }

  /** As written, a counter at 1 of 10 given `int.MaxValue` wraps to a
      negative sum and drops to 0 instead of filling up. */
  lemma OverflowEmptiesCounter()
    ensures AdvanceAsWritten(1, MaxInt32, 10) == 0
    ensures Advance(1, MaxInt32, 10) == 10
  {
    assert Wrap32(1 + MaxInt32) == MinInt32;
  }

  /** The counter. The source declares a struct; here it is an object whose
      methods update its fields in place. */
  class ProgressCounter {
    var id: Int32
    var value: Int32
    var maxValue: Int32

    /** `new ProgressCounter(id, maxValue)` starts at 0. */
    constructor (id: Int32, maxValue: Int32)
      ensures this.id == id && this.maxValue == maxValue && value == 0
    {
      this.id := id;
      this.maxValue := maxValue;
      value := 0;
    }

    /** Adds `progressAmount` and clamps into `0 .. maxValue`, with the exact
        sum rather than the wrapping one (`AdvanceAsWritten` is the sum as
        written); `id` and `maxValue` are left alone. */
    method IncreaseProgress(progressAmount: Int32)
      modifies this
      ensures value == Advance(old(value), progressAmount, maxValue)
      ensures id == old(id) && maxValue == old(maxValue)
    {
      value := Advance(value, progressAmount, maxValue);
    }

    /** Whether the counter has reached its maximum. */
    predicate IsMax()
      reads this
    {
      maxValue == value
    }
  }
}
