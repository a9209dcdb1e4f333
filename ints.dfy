/** The C++ integer types the game's arithmetic passes through. */
module Ints {
  /** A C++ `int` on the platforms the program targets: 32-bit two's complement. */
  newtype int32 = x: int | -0x8000_0000 <= x < 0x8000_0000

  /** 2^64: the number of values of the 64-bit `size_t`. */
  const SizeTModulus: int := 0x1_0000_0000_0000_0000

  /** The value an `int` takes when it is compared with a container size: the usual arithmetic
      conversions turn it into a `size_t`, so a negative value wraps around modulo 2^64. */
  function AsSizeT(n: int32): (r: nat)
    ensures r < SizeTModulus
    ensures (r - n as int) % SizeTModulus == 0
    ensures n >= 0 ==> r == n as int
  {
    if n < 0 then n as int + SizeTModulus else n as int
  }

  /** For any container that fits in memory, `size < num` with `num` converted to `size_t`
      holds exactly when `num` is negative or larger than the size. */
  lemma SizeComparison(size: nat, n: int32)
    requires size < 0x8000_0000_0000_0000
    ensures (size < AsSizeT(n)) <==> (n < 0 || size < n as int)
  {
  }
}
