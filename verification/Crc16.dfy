/** The link's CRC-16: the table-driven form against its bit-serial definition.
    Machine words are bit sequences, most significant bit first, so a shift drops
    the head and appends a zero and nothing about overflow is left implicit. */
module Crc16 {
  import opened Bytes

  type Word = seq<bool>

  function Xor(a: Word, b: Word): (x: Word)
    requires |a| == |b|
    ensures |x| == |a|
  {
    seq(|a|, i requires 0 <= i < |a| => a[i] != b[i])
  }

  function Zeros(n: nat): (z: Word)
    ensures |z| == n && forall i :: 0 <= i < n ==> !z[i]
  {
    seq(n, i => false)
  }

  function ShiftLeft(w: Word, n: nat): (s: Word)
    requires n <= |w|
    ensures |s| == |w|
  {
    w[n..] + Zeros(n)
  }

  function ShiftRight(w: Word, n: nat): (s: Word)
    requires n <= |w|
    ensures |s| == |w|
  {
    Zeros(n) + w[..|w| - n]
  }

  /** The low `n` bits: a truncating cast. */
  function Low(w: Word, n: nat): (s: Word)
    requires n <= |w|
    ensures |s| == n
  {
    w[|w| - n..]
  }

  function Bits(v: nat, n: nat): (w: Word)
    ensures |w| == n
  {
    if n == 0 then [] else Bits(v / 2, n - 1) + [v % 2 == 1]
  }

  function Value(w: Word): nat {
    if w == [] then 0 else 2 * Value(w[..|w| - 1]) + if w[|w| - 1] then 1 else 0
  }

  lemma {:induction false} BitsOfValue(w: Word)
    ensures Bits(Value(w), |w|) == w
  {
    if w != [] {
      BitsOfValue(w[..|w| - 1]);
      assert Value(w) / 2 == Value(w[..|w| - 1]);
    }
  }

  function Pow2(n: nat): nat {
    if n == 0 then 1 else 2 * Pow2(n - 1)
  }

  lemma Powers()
    ensures Pow2(8) == 0x100 && Pow2(16) == 0x1_0000
  {
    assert Pow2(4) == 0x10;
    assert Pow2(8) == 0x100;
    assert Pow2(12) == 0x1000;
  }

  lemma {:induction false} ValueFits(w: Word)
    ensures Value(w) < Pow2(|w|)
  {
    if w != [] { ValueFits(w[..|w| - 1]); }
  }

  // ---- the definition: a shift register fed one message bit at a time ----

  const POLY: Word := Bits(0x1021, 16)
  const INIT: Word := Bits(0xEF4A, 16)

  function FeedBit(crc: Word, bit: bool): (r: Word)
    requires |crc| == 16
    ensures |r| == 16
  {
    if crc[0] != bit then Xor(ShiftLeft(crc, 1), POLY) else ShiftLeft(crc, 1)
  }

  function FeedBits(crc: Word, bits: Word): (r: Word)
    requires |crc| == 16
    ensures |r| == 16
    decreases |bits|
  {
    if bits == [] then crc else FeedBits(FeedBit(crc, bits[0]), bits[1..])
  }

  /** CRC-16, polynomial 0x1021, initial value 0xEF4A, no reflection, no final xor. */
  function Crc(data: seq<Byte>): (r: Word)
    ensures |r| == 16
  {
    if data == [] then INIT
    else FeedBits(Crc(data[..|data| - 1]), Bits(data[|data| - 1], 8))
  }

  // ---- the division by the polynomial is linear ----

  /** `n` zero message bits. */
  function FeedZeros(crc: Word, n: nat): (r: Word)
    requires |crc| == 16
    ensures |r| == 16
    decreases n
  {
    if n == 0 then crc else FeedZeros(FeedBit(crc, false), n - 1)
  }

  lemma {:induction false} FeedZerosIsLinear(x: Word, y: Word, n: nat)
    requires |x| == 16 && |y| == 16
    ensures FeedZeros(Xor(x, y), n) == Xor(FeedZeros(x, n), FeedZeros(y, n))
    decreases n
  {
    if n != 0 {
      assert FeedBit(Xor(x, y), false) == Xor(FeedBit(x, false), FeedBit(y, false));
      FeedZerosIsLinear(FeedBit(x, false), FeedBit(y, false), n - 1);
    }
  }

  /** Feeding bits serially is adding them to the top of the register first. */
  lemma {:induction false} SerialIsParallel(crc: Word, bits: Word)
    requires |crc| == 16 && |bits| <= 16
    ensures FeedBits(crc, bits) == FeedZeros(Xor(crc, bits + Zeros(16 - |bits|)), |bits|)
    decreases |bits|
  {
    if bits == [] {
      assert Xor(crc, bits + Zeros(16 - |bits|)) == crc;
    } else {
      SerialIsParallel(FeedBit(crc, bits[0]), bits[1..]);
      TakeFirstBit(crc, bits);
    }
  }

  lemma TakeFirstBit(crc: Word, bits: Word)
    requires |crc| == 16 && 0 < |bits| <= 16
    ensures FeedBit(Xor(crc, bits + Zeros(16 - |bits|)), false)
         == Xor(FeedBit(crc, bits[0]), bits[1..] + Zeros(16 - |bits[1..]|))
  {
  }

  /** While only zeros leave the register it merely shifts. */
  lemma {:induction false} FeedZerosToLow(w: Word, n: nat)
    requires |w| == 16 && n <= 16 && forall i :: 0 <= i < n ==> !w[i]
    ensures FeedZeros(w, n) == ShiftLeft(w, n)
    decreases n
  {
    if n == 0 {
      assert ShiftLeft(w, 0) == w;
    } else {
      var s := ShiftLeft(w, 1);
      FeedZerosToLow(s, n - 1);
      assert ShiftLeft(s, n - 1) == ShiftLeft(w, n);
    }
  }

  // ---- the table-driven form ----

  /** One turn of the table builder's inner loop on its 32-bit accumulator. */
  function Step32(crc: Word): (r: Word)
    requires |crc| == 32
    ensures |r| == 32
    ensures Low(r, 16) == FeedBit(Low(crc, 16), false)
  {
    var t := ShiftLeft(crc, 1);
    var r := if crc[16] then Xor(t, Zeros(16) + POLY) else t;
    assert Low(r, 16) == FeedBit(Low(crc, 16), false);
    r
  }

  lemma {:induction false} FeedZerosSnoc(crc: Word, n: nat)
    requires |crc| == 16
    ensures FeedZeros(crc, n + 1) == FeedBit(FeedZeros(crc, n), false)
    decreases n
  {
    if n != 0 { FeedZerosSnoc(FeedBit(crc, false), n - 1); }
  }

  lemma {:induction false} BitsWiden(v: nat, n: nat, m: nat, top: nat)
    requires v < top && top == Pow2(n) && n <= m
    ensures Bits(v, m) == Zeros(m - n) + Bits(v, n)
  {
    if m != 0 {
      if n == 0 {
        BitsWiden(0, 0, m - 1, 1);
        assert Zeros(m) == Zeros(m - 1) + [false];
      } else {
        BitsWiden(v / 2, n - 1, m - 1, top / 2);
      }
    }
  }

  /** What slot `b` of the table has to hold. */
  function Entry(b: Word): (e: Word)
    requires |b| == 8
    ensures |e| == 16
  {
    FeedZeros(b + Zeros(8), 8)
  }

  /** The byte step: one table look-up does the work of eight register steps, whatever
      the accumulator holds above its low 16 bits. */
  lemma ByteStep(acc: Word, b: Word)
    requires |acc| == 32 && |b| == 8
    ensures FeedBits(Low(acc, 16), b)
         == Xor(Entry(Xor(acc[16..24], b)), Low(ShiftLeft(acc, 8), 16))
  {
    hide FeedBits, FeedZeros, Xor, ShiftLeft, Low, Zeros, Entry;
    var hi, lo := Xor(acc[16..24], b) + Zeros(8), Zeros(8) + acc[24..];
    SerialIsParallel(Low(acc, 16), b);
    SplitRegister(acc, b);
    FeedZerosIsLinear(hi, lo, 8);
    FeedZerosToLow(lo, 8);
    ShiftedOut(acc);
    EntryIsFeedZeros(Xor(acc[16..24], b));
  }

  lemma EntryIsFeedZeros(b: Word)
    requires |b| == 8
    ensures Entry(b) == FeedZeros(b + Zeros(8), 8)
  {
  }

  lemma SplitRegister(acc: Word, b: Word)
    requires |acc| == 32 && |b| == 8
    ensures Xor(Low(acc, 16), b + Zeros(8))
         == Xor(Xor(acc[16..24], b) + Zeros(8), Zeros(8) + acc[24..])
  {
  }

  lemma ShiftedOut(acc: Word)
    requires |acc| == 32
    ensures ShiftLeft(Zeros(8) + acc[24..], 8) == Low(ShiftLeft(acc, 8), 16)
  {
  }

  lemma BuilderStart(b: nat)
    requires b < 256
    ensures Low(ShiftLeft(Bits(b, 32), 8), 16) == Bits(b, 8) + Zeros(8)
  {
    Powers();
    BitsWiden(b, 8, 32, 256);
  }

  /** The table index the C expression `((crc >> 8) ^ d) & 0xFF` picks. */
  function Index(acc: Word, b: Word): (idx: Word)
    requires |acc| == 32 && |b| == 8
    ensures idx == Xor(acc[16..24], b)
    ensures Value(idx) < 256 && Bits(Value(idx), 8) == idx
  {
    var idx := Low(Xor(ShiftRight(acc, 8), Zeros(24) + b), 8);
    assert idx == Xor(acc[16..24], b);
    Powers();
    ValueFits(idx);
    BitsOfValue(idx);
    idx
  }

  lemma LowOfXor(a: Word, b: Word, n: nat)
    requires |a| == |b| && n <= |a|
    ensures Low(Xor(a, b), n) == Xor(Low(a, n), Low(b, n))
  {
  }

  lemma TableStep(acc: Word, b: Word, entry: Word)
    requires |acc| == 32 && |b| == 8 && entry == Entry(Bits(Value(Index(acc, b)), 8))
    ensures Low(Xor(Zeros(16) + entry, ShiftLeft(acc, 8)), 16) == FeedBits(Low(acc, 16), b)
  {
    ByteStep(acc, b);
    LowOfXor(Zeros(16) + entry, ShiftLeft(acc, 8), 16);
    assert Low(Zeros(16) + entry, 16) == entry;
  }

  class CrcTable {
    var tab: array<Word>
    var ready: bool

    ghost predicate Valid()
      reads this, tab
    {
      && tab.Length == 256
      && (ready ==> forall b :: 0 <= b < 256 ==> tab[b] == Entry(Bits(b, 8)))
    }

    constructor ()
      ensures Valid() && !ready && fresh(tab)
    {
      tab := new Word[256](i => []);
      ready := false;
    }

    method Build()
      requires Valid()
      modifies this`ready, tab
      ensures Valid() && ready
    {
      for b := 0 to 256
        invariant forall k :: 0 <= k < b ==> tab[k] == Entry(Bits(k, 8))
      {
        var crc := ShiftLeft(Bits(b, 32), 8);
        ghost var start := Bits(b, 8) + Zeros(8);
        BuilderStart(b);
        for i := 0 to 8
          invariant |crc| == 32 && Low(crc, 16) == FeedZeros(start, i)
          modifies {}
        {
          crc := Step32(crc);
          FeedZerosSnoc(start, i);
        }
        tab[b] := Low(crc, 16);
      }
      ready := true;
    }

    method Advance(acc: Word, byte: Byte) returns (next: Word)
      requires Valid() && ready && |acc| == 32
      ensures |next| == 32 && Low(next, 16) == FeedBits(Low(acc, 16), Bits(byte, 8))
    {
      hide FeedBits, Entry, Low;
      var b := Bits(byte, 8);
      var entry := tab[Value(Index(acc, b))];
      TableStep(acc, b, entry);
      next := Xor(Zeros(16) + entry, ShiftLeft(acc, 8));
    }

    method Compute(data: seq<Byte>) returns (crc: Word)
      requires Valid()
      modifies this`ready, tab
      ensures Valid() && ready && crc == Crc(data)
    {
      hide FeedBits, Entry;
      if !ready { Build(); }
      var acc := Zeros(16) + INIT;
      for j := 0 to |data|
        invariant Valid() && ready
        invariant |acc| == 32 && Low(acc, 16) == Crc(data[..j])
      {
        acc := Advance(acc, data[j]);
        assert data[..j + 1][..j] == data[..j];
      }
      assert data[..|data|] == data;
      crc := Low(acc, 16);
    }
  }

  /** The 16-bit number the frame header carries. */
  function Checksum(data: seq<Byte>): (n: int)
    ensures 0 <= n < 0x1_0000 && Bits(n, 16) == Crc(data)
  {
    var w := Crc(data);
    Powers();
    ValueFits(w);
    BitsOfValue(w);
    Value(w)
  }
}
