/** CRC-32/ISO-HDLC the way the flash store uses it: inverted on the way in and on the way
    out, so that one call's result is where the next call starts. */
module Crc32 {
  import opened Bytes
  import opened Crc16

  const POLY32 := 0xEDB8_8320

  function Not(w: Word): (x: Word)
    ensures |x| == |w|
  {
    seq(|w|, i requires 0 <= i < |w| => !w[i])
  }

  /** Least significant bit first. */
  function Shift(w: Word): (s: Word)
    requires |w| == 32
    ensures |s| == 32
  {
    if w[31] then Xor(ShiftRight(w, 1), Bits(POLY32, 32)) else ShiftRight(w, 1)
  }

  function Shifts(w: Word, n: nat): (s: Word)
    requires |w| == 32
    ensures |s| == 32
  {
    if n == 0 then w else Shift(Shifts(w, n - 1))
  }

  function Fold(w: Word, data: seq<Byte>): (s: Word)
    requires |w| == 32
    ensures |s| == 32
    decreases |data|
  {
    if data == [] then w
    else
      var n := |data| - 1;
      Shifts(Xor(Fold(w, data[..n]), Zeros(24) + Bits(data[n], 8)), 8)
  }

  function Extend(crc: nat, data: seq<Byte>): (r: nat)
    ensures r < WORD
  {
    var w := Not(Fold(Not(Bits(crc, 32)), data));
    ValueFits(w);
    Power32();
    Value(w)
  }

  lemma Power32()
    ensures Pow2(32) == WORD
  {
    Powers();
    assert Pow2(20) == 0x10_0000;
    assert Pow2(24) == 0x100_0000;
    assert Pow2(28) == 0x1000_0000;
  }

  lemma {:induction false} FoldConcat(w: Word, a: seq<Byte>, b: seq<Byte>)
    requires |w| == 32
    ensures Fold(w, a + b) == Fold(Fold(w, a), b)
    decreases |b|
  {
    if b == [] {
      assert a + b == a;
    } else {
      FoldConcat(w, a, b[..|b| - 1]);
      assert (a + b)[..|a + b| - 1] == a + b[..|b| - 1];
    }
  }

  /** However a stream is cut up, feeding the result back in gives the same number. */
  lemma Chains(crc: nat, a: seq<Byte>, b: seq<Byte>)
    ensures Extend(Extend(crc, a), b) == Extend(crc, a + b)
  {
    var w := Fold(Not(Bits(crc, 32)), a);
    BitsOfValue(Not(w));
    assert Not(Not(w)) == w;
    FoldConcat(Not(Bits(crc, 32)), a, b);
  }

  lemma EmptyIsIdentity(crc: nat)
    requires crc < WORD
    ensures Extend(crc, []) == crc
  {
    var w := Bits(crc, 32);
    assert Not(Not(w)) == w;
    Power32();
    ValueOfBits(crc, 32);
  }

  lemma {:induction false} ValueOfBits(v: nat, n: nat)
    requires v < Pow2(n)
    ensures Value(Bits(v, n)) == v
  {
    if n > 0 {
      ValueOfBits(v / 2, n - 1);
      assert Bits(v, n)[..n - 1] == Bits(v / 2, n - 1);
    }
  }
}
