/** Bytes and the big-endian 32-bit packing of `struct.pack(">I", n)`. */
module Bytes {
  type byte = x: int | 0 <= x < 256

  const Two32: nat := 0x1_0000_0000

  /** The unsigned 32-bit value of four big-endian bytes. */
  function FromBE32(b: seq<byte>): (n: nat)
    requires |b| == 4
    ensures n < Two32
  {
    (b[0] as int) * 0x100_0000 + (b[1] as int) * 0x1_0000 + (b[2] as int) * 0x100 + b[3] as int
  }

  /** `struct.pack(">I", n)`: four bytes, most significant first. */
  function BE32(n: nat): (b: seq<byte>)
    requires n < Two32
    ensures |b| == 4 && FromBE32(b) == n
  {
    var q1 := n / 0x100;
    var q2 := q1 / 0x100;
    var q3 := q2 / 0x100;
    [q3, q2 % 0x100, q1 % 0x100, n % 0x100]
  }

  /** Packing after reading gives back the same four bytes. */
  lemma BE32OfFromBE32(b: seq<byte>)
    requires |b| == 4
    ensures BE32(FromBE32(b)) == b
  {
    Digits(b[0], b[1], b[2], b[3]);
  }

  lemma Digits(a: int, b: int, c: int, d: int)
    requires 0 <= a < 256 && 0 <= b < 256 && 0 <= c < 256 && 0 <= d < 256
    ensures var n := a * 0x100_0000 + b * 0x1_0000 + c * 0x100 + d;
      n / 0x100_0000 == a && (n / 0x1_0000) % 0x100 == b && (n / 0x100) % 0x100 == c && n % 0x100 == d
  {
    var n := a * 0x100_0000 + b * 0x1_0000 + c * 0x100 + d;
    var m := b * 0x1_0000 + c * 0x100 + d;
    assert 0 <= m < 0x100_0000;
    assert n / 0x100_0000 == a;
    var q := c * 0x100 + d;
    assert 0 <= q < 0x1_0000;
    assert n / 0x1_0000 == a * 0x100 + b;
    assert n / 0x100 == a * 0x1_0000 + b * 0x100 + c;
  }
}
