/** Bytes, little-endian words and the few sequence facts every other module leans on. */
module Bytes {
  type Byte = x: int | 0 <= x < 0x100

  datatype Option<T> = None | Some(value: T)

  const WORD := 0x1_0000_0000    // what a 32-bit quantity wraps at

  /** A 16-bit quantity in wire order: low byte first. */
  function Le16(n: int): (s: seq<Byte>)
    requires 0 <= n < 0x1_0000
    ensures |s| == 2
  {
    [n % 0x100, n / 0x100]
  }

  function FromLe16(lo: Byte, hi: Byte): (n: int)
    ensures 0 <= n < 0x1_0000
  {
    lo + 0x100 * hi
  }

  lemma Le16OfFromLe16(lo: Byte, hi: Byte)
    ensures Le16(FromLe16(lo, hi)) == [lo, hi]
  {
  }

  lemma FromLe16OfLe16(n: int)
    requires 0 <= n < 0x1_0000
    ensures FromLe16(Le16(n)[0], Le16(n)[1]) == n
  {
  }

  /** A 32-bit quantity, low byte first. */
  function Le32(n: int): (s: seq<Byte>)
    requires 0 <= n < WORD
    ensures |s| == 4
  {
    Le16(n % 0x1_0000) + Le16(n / 0x1_0000)
  }

  function FromLe32(b: seq<Byte>): (n: nat)
    requires |b| == 4
    ensures n < WORD
  {
    FromLe16(b[0], b[1]) + 0x1_0000 * FromLe16(b[2], b[3])
  }

  lemma Halves(lo: nat, hi: nat)
    requires lo < 0x1_0000
    ensures (lo + 0x1_0000 * hi) % 0x1_0000 == lo && (lo + 0x1_0000 * hi) / 0x1_0000 == hi
  {
  }

  lemma FromLe32OfLe32(n: int)
    requires 0 <= n < WORD
    ensures FromLe32(Le32(n)) == n
  {
    hide Le16, FromLe16;
    FromLe16OfLe16(n % 0x1_0000);
    FromLe16OfLe16(n / 0x1_0000);
  }

  lemma Le32OfFromLe32(b: seq<Byte>)
    requires |b| == 4
    ensures Le32(FromLe32(b)) == b
  {
    hide Le16, FromLe16;
    Le16OfFromLe16(b[0], b[1]);
    Le16OfFromLe16(b[2], b[3]);
    Halves(FromLe16(b[0], b[1]), FromLe16(b[2], b[3]));
    assert b == [b[0], b[1]] + [b[2], b[3]];
  }

  lemma MulMono(a: int, b: int, d: nat)
    requires a >= b
    ensures a * d >= b * d
  {
  }
}
