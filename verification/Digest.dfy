/** The module's checksum over a flash range, a sum of little-endian words, computed byte by
    byte from slices of any size. */
module Digest {
  import opened Bytes

  function Shift(n: nat): (m: nat)
    requires n < 4
  {
    if n == 0 then 1 else if n == 1 then 0x100 else if n == 2 then 0x1_0000 else 0x100_0000
  }

  /** Up to four bytes as a number, low byte first, missing bytes zero. */
  function Partial(s: seq<Byte>): (n: nat)
    requires |s| <= 4
    ensures n < WORD
  {
    (if |s| > 0 then s[0] as int else 0) + (if |s| > 1 then 0x100 * (s[1] as int) else 0)
    + (if |s| > 2 then 0x1_0000 * (s[2] as int) else 0)
    + (if |s| > 3 then 0x100_0000 * (s[3] as int) else 0)
  }

  function AddWords(a: nat, b: nat): (c: nat)
    ensures c < WORD
  {
    (a + b) % WORD
  }

  function WordSum(s: seq<Byte>): (n: nat)
    ensures n < WORD
    decreases |s|
  {
    if |s| <= 4 then Partial(s) else AddWords(Partial(s[..4]), WordSum(s[4..]))
  }

  /** A word is the little-endian number of its bytes, a short last one filled up with zeros. */
  lemma PartialIsLe32(s: seq<Byte>)
    requires |s| <= 4
    ensures WordSum(s) == Partial(s) == FromLe32(s + seq(4 - |s|, _ => 0))
  {
  }

  lemma AddWordsAssoc(a: nat, b: nat, c: nat)
    ensures AddWords(a, AddWords(b, c)) == AddWords(AddWords(a, b), c)
  {
  }

  /** At a word boundary the sum splits. */
  lemma {:induction false} WordSumSplits(a: seq<Byte>, b: seq<Byte>)
    requires |a| % 4 == 0
    ensures WordSum(a + b) == AddWords(WordSum(a), WordSum(b))
    decreases |a|
  {
    hide Partial, AddWords;
    EmptyPartial();
    AddZero(WordSum(b));
    AddZero(WordSum(a));
    if a == [] {
      assert a + b == b;
    } else {
      WordSumSplits(a[4..], b);
      assert (a + b)[..4] == a[..4] && (a + b)[4..] == a[4..] + b;
      AddWordsAssoc(Partial(a[..4]), WordSum(a[4..]), WordSum(b));
      FirstWord(a);
      if |a + b| == 4 {
        assert b == [] && a + b == a && a[..4] == a;
      }
    }
  }

  lemma AddZero(a: nat)
    requires a < WORD
    ensures AddWords(0, a) == a && AddWords(a, 0) == a
  {
  }

  lemma EmptyPartial()
    ensures Partial([]) == 0
  {
  }

  lemma FirstWord(a: seq<Byte>)
    requires |a| >= 4
    ensures WordSum(a) == AddWords(Partial(a[..4]), WordSum(a[4..]))
  {
    hide Partial, AddWords;
    if |a| == 4 {
      assert a[..4] == a && a[4..] == [];
      EmptyPartial();
      AddZero(Partial(a));
    }
  }

  /** The registers, after `fed`. */
  predicate Holds(fed: seq<Byte>, sum: nat, acc: nat, nacc: nat) {
    && nacc == |fed| % 4
    && sum == WordSum(fed[..|fed| - nacc]) && acc == Partial(fed[|fed| - nacc..])
  }

  lemma HoldsEmpty()
    ensures Holds([], 0, 0, 0)
  {
  }

  lemma HoldsMore(fed: seq<Byte>, sum: nat, acc: nat, nacc: nat, b: Byte)
    requires Holds(fed, sum, acc, nacc)
    ensures nacc < 4
    ensures nacc < 3 ==> Holds(fed + [b], sum, acc + b * Shift(nacc), nacc + 1)
    ensures nacc == 3 ==> Holds(fed + [b], AddWords(sum, acc + b * Shift(nacc)), 0, 0)
  {
    hide WordSum, Partial, AddWords, Shift;
    Boundary(|fed|);
    var whole, part := fed[..|fed| - nacc], fed[|fed| - nacc..];
    var more := fed + [b];
    assert more == whole + (part + [b]);
    PartialMore(part, b);
    if nacc == 3 {
      WordSumSplits(whole, part + [b]);
      ShortIsPartial(part + [b]);
      EmptyPartial();
      assert more[..|more|] == more && more[|more|..] == [];
    } else {
      assert more[..|more| - (nacc + 1)] == whole && more[|more| - (nacc + 1)..] == part + [b];
    }
  }

  lemma Boundary(n: nat)
    ensures n % 4 < 4 && n % 4 <= n && (n - n % 4) % 4 == 0
    ensures (n + 1) % 4 == if n % 4 == 3 then 0 else n % 4 + 1
  {
  }

  lemma HoldsValue(fed: seq<Byte>, sum: nat, acc: nat, nacc: nat)
    requires Holds(fed, sum, acc, nacc)
    ensures WordSum(fed) == if nacc == 0 then sum else AddWords(sum, acc)
  {
    hide Partial, AddWords, WordSum;
    Boundary(|fed|);
    var whole, part := fed[..|fed| - nacc], fed[|fed| - nacc..];
    WordSumSplits(whole, part);
    assert whole + part == fed;
    if nacc == 0 { assert whole == fed; } else { ShortIsPartial(part); }
  }

  lemma ShortIsPartial(s: seq<Byte>)
    requires |s| <= 4
    ensures WordSum(s) == Partial(s)
  {
  }

  class Accumulator {
    var sum: nat
    var acc: nat
    var nacc: nat
    ghost var fed: seq<Byte>

    ghost predicate Valid()
      reads this
    {
      Holds(fed, sum, acc, nacc)
    }

    constructor ()
      ensures Valid() && fed == []
    {
      hide Holds;
      HoldsEmpty();
      sum, acc, nacc, fed := 0, 0, 0, [];
    }

    method Add(p: seq<Byte>)
      requires Valid()
      modifies this
      ensures Valid() && fed == old(fed) + p
    {
      hide Holds, AddWords, Shift;
      for i := 0 to |p|
        invariant Valid() && fed == old(fed) + p[..i]
      {
        HoldsMore(fed, sum, acc, nacc, p[i]);
        acc := acc + p[i] * Shift(nacc);        // the bytes of a word do not overlap
        nacc := nacc + 1;
        if nacc == 4 {
          sum := AddWords(sum, acc);
          acc, nacc := 0, 0;
        }
        fed := fed + [p[i]];
        assert p[..i + 1] == p[..i] + [p[i]];
      }
      assert p[..|p|] == p;
    }

    /** However the bytes were sliced, the value is the word sum of all of them. */
    method Value() returns (v: nat)
      requires Valid()
      ensures v == WordSum(fed)
    {
      hide Holds, AddWords, WordSum;
      HoldsValue(fed, sum, acc, nacc);
      v := if nacc == 0 then sum else AddWords(sum, acc);
    }
  }

  lemma PartialMore(part: seq<Byte>, b: Byte)
    requires |part| < 4
    ensures Partial(part + [b]) == Partial(part) + b * Shift(|part|)
  {
  }

  /** Two slicings of the same bytes digest alike. */
  method Slices(first: seq<seq<Byte>>, second: seq<seq<Byte>>) returns (a: nat, b: nat)
    requires Flat(first) == Flat(second)
    ensures a == b == WordSum(Flat(first))
  {
    hide WordSum;
    a := OneSlicing(first);
    b := OneSlicing(second);
  }

  function Flat(ss: seq<seq<Byte>>): seq<Byte> {
    if ss == [] then [] else Flat(ss[..|ss| - 1]) + ss[|ss| - 1]
  }

  method OneSlicing(slices: seq<seq<Byte>>) returns (v: nat)
    ensures v == WordSum(Flat(slices))
  {
    hide WordSum, Holds;
    var d := new Accumulator();
    for k := 0 to |slices|
      invariant d.Valid() && d.fed == Flat(slices[..k])
    {
      assert slices[..k + 1][..k] == slices[..k];
      d.Add(slices[k]);
    }
    assert slices[..|slices|] == slices;
    v := d.Value();
  }
}
