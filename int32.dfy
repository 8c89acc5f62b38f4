/** C# `int`: 32-bit two's-complement integers, whose `+` and `*` wrap
    around in the default unchecked context. */
module Int32s {
  const MinInt32: int := -0x8000_0000
  const MaxInt32: int := 0x7fff_ffff

  /** A value of C# type `int`. */
  type Int32 = x: int | MinInt32 <= x <= MaxInt32

  /** The `int` that unchecked arithmetic yields for the exact value `x`:
      `x` reduced modulo 2^32 into the signed range. */
  function Wrap32(x: int): (r: Int32)
    ensures (r - x) % 0x1_0000_0000 == 0
  {
    (x - MinInt32) % 0x1_0000_0000 + MinInt32
  }

  /** Wrapping changes nothing for a value that fits, and only then. */
  lemma Wrap32Identity(x: int)
    ensures Wrap32(x) == x <==> MinInt32 <= x <= MaxInt32
  {
  }
}
