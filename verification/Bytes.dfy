/** Bytes and little-endian 32-bit numbers, as Python's `struct` writes them. */
module Bytes {
  type Byte = b: int | 0 <= b < 256

  const U32 := 0x1_0000_0000

  function Le32(n: nat): (r: seq<Byte>)
    requires n < U32
    ensures |r| == 4
  {
    [n % 256, n / 256 % 256, n / 65_536 % 256, n / 16_777_216]
  }

  function FromLe32(b: seq<Byte>): (n: nat)
    requires |b| == 4
    ensures n < U32
  {
    b[0] as int + 256 * b[1] as int + 65_536 * b[2] as int + 16_777_216 * b[3] as int
  }

  /** Four bytes, the low one first. */
  lemma Le32Is(n: nat)
    requires n < U32
    ensures var b := Le32(n);
            n == b[0] as int + 0x100 * b[1] as int + 0x1_0000 * b[2] as int + 0x100_0000 * b[3] as int
  {
    assert n / 65_536 == n / 256 / 256 && n / 16_777_216 == n / 65_536 / 256;
  }

  lemma Le32RoundTrip(n: nat)
    requires n < U32
    ensures FromLe32(Le32(n)) == n
  {
    assert n / 65_536 == n / 256 / 256 && n / 16_777_216 == n / 65_536 / 256;
  }
}
