/** A NOR device: programs only clear bits, and may stop at any subset of them. */
module NorFlash {
  import opened Bytes

  const NOR_SIZE := 0x100_0000
  const ERASED: Byte := 0xFF

  function And(a: nat, b: nat): (c: nat)
    ensures c <= a && c <= b
    decreases a
  {
    if a == 0 || b == 0 then 0
    else 2 * And(a / 2, b / 2) + if a % 2 == 1 && b % 2 == 1 then 1 else 0
  }

  /** Every bit of a is a bit of b. */
  predicate Within(a: nat, b: nat) {
    And(a, b) == a
  }

  lemma {:induction false} AndCommutes(a: nat, b: nat)
    ensures And(a, b) == And(b, a)
    decreases a
  {
    if a != 0 && b != 0 { AndCommutes(a / 2, b / 2); }
  }

  lemma {:induction false} AndIsWithin(a: nat, b: nat)
    ensures Within(And(a, b), a)
    decreases a
  {
    if a != 0 && b != 0 { AndIsWithin(a / 2, b / 2); }
  }

  lemma {:induction false} WithinSelf(a: nat)
    ensures Within(a, a)
  {
    if a != 0 { WithinSelf(a / 2); }
  }

  lemma ErasedTakesAll(b: Byte)
    ensures And(ERASED, b) == b
  {
    Ones(b, 0xFF);
  }

  /** `ones` is one less than a power of two, and b fits in it. */
  predicate AllOnes(ones: nat) {
    ones == 0 || (ones % 2 == 1 && AllOnes(ones / 2))
  }

  lemma {:induction false} Ones(b: nat, ones: nat)
    requires AllOnes(ones) && b <= ones
    ensures And(ones, b) == b
    decreases ones
  {
    if ones != 0 && b != 0 { Ones(b / 2, ones / 2); }
  }

  /** What a cell may hold once `data` has begun to be programmed over `was`. */
  predicate Between(cell: Byte, was: Byte, data: Byte) {
    Within(And(was, data), cell) && Within(cell, was)
  }

  /** A program of `data` at `at`, complete or cut anywhere, and nothing else changed. */
  predicate Programmed(was: seq<Byte>, now: seq<Byte>, at: nat, data: seq<Byte>, complete: bool) {
    && |now| == |was| && at + |data| <= |was|
    && (forall a :: 0 <= a < |was| && !(at <= a < at + |data|) ==> now[a] == was[a])
    && (forall i :: 0 <= i < |data| ==> CellOk(was[at + i], now[at + i], data[i], complete))
  }

  predicate CellOk(was: Byte, now: Byte, data: Byte, complete: bool) {
    Between(now, was, data) && (complete ==> now == And(was, data))
  }

  datatype Result = Ok | Err | PowerLost

  /** One operation and how it went: what the device's history is made of. */
  datatype Op =
    | Wrote(at: nat, data: seq<Byte>, r: Result)
    | Wiped(at: nat, len: nat, r: Result)
    | Got(at: nat, len: nat, ok: bool)

  predicate Went(op: Op) {
    match op
    case Wrote(_, _, r) => r == Ok
    case Wiped(_, _, r) => r == Ok
    case Got(_, _, ok) => ok
  }

  predicate CutShort(op: Op) {
    match op
    case Wrote(_, _, r) => r == PowerLost
    case Wiped(_, _, r) => r == PowerLost
    case Got(_, _, _) => false
  }

  /** Every operation of the history from its entry `from` on succeeded. */
  predicate AllWent(log: seq<Op>, from: nat) {
    forall i :: from <= i < |log| ==> Went(log[i])
  }

  /** Some operation from there on was cut short by the power. */
  predicate PowerWent(log: seq<Op>, from: nat) {
    exists i :: from <= i < |log| && CutShort(log[i])
  }

  lemma CompleteIsOk(was: Byte, data: Byte)
    ensures CellOk(was, And(was, data), data, true) && CellOk(was, was, data, false)
  {
    AndIsWithin(was, data);
    WithinSelf(was);
    WithinSelf(And(was, data));
  }

  class Nor {
    const cells: array<Byte>
    ghost var log: seq<Op>    // every operation so far, with its answer

    constructor ()
      ensures cells.Length == NOR_SIZE && fresh(cells) && log == []
    {
      log := [];
      cells := new Byte[NOR_SIZE](_ => ERASED);
    }

    /** nor_write: all of it, or an error or a power loss with any part of it done. */
    method Program(at: nat, data: seq<Byte>) returns (r: Result)
      requires at + |data| <= cells.Length
      modifies cells, `log
      ensures Programmed(old(cells[..]), cells[..], at, data, r == Ok)
      ensures log == old(log) + [Wrote(at, data, r)]
    {
      hide Between, And;
      r := *;
      for i := 0 to |data|
        invariant log == old(log)
        invariant forall a :: 0 <= a < cells.Length && !(at <= a < at + i) ==>
          cells[a] == old(cells[a])
        invariant forall k :: 0 <= k < i ==>
          CellOk(old(cells[at + k]), cells[at + k], data[k], r == Ok)
      {
        var was := cells[at + i];
        CompleteIsOk(was, data[i]);
        if r == Ok {
          cells[at + i] := And(was, data[i]);
        } else {
          var cell: Byte :| CellOk(was, cell, data[i], false);
          cells[at + i] := cell;
        }
      }
      log := log + [Wrote(at, data, r)];
    }

    method Erase(at: nat, len: nat) returns (r: Result)
      requires at + len <= cells.Length
      modifies cells, `log
      ensures forall a :: 0 <= a < cells.Length && !(at <= a < at + len) ==>
        cells[a] == old(cells[a])
      ensures r == Ok ==> forall a :: at <= a < at + len ==> cells[a] == ERASED
      ensures log == old(log) + [Wiped(at, len, r)]
    {
      r := *;
      for i := 0 to len
        invariant log == old(log)
        invariant forall a :: 0 <= a < cells.Length && !(at <= a < at + i) ==>
          cells[a] == old(cells[a])
        invariant r == Ok ==> forall a :: at <= a < at + i ==> cells[a] == ERASED
      {
        var left: Byte :| r == Ok ==> left == ERASED;
        cells[at + i] := left;
      }
      log := log + [Wiped(at, len, r)];
    }

    method Read(at: nat, len: nat) returns (ok: bool, data: seq<Byte>)
      requires at + len <= cells.Length
      modifies `log
      ensures ok ==> data == cells[at..at + len]
      ensures log == old(log) + [Got(at, len, ok)]
    {
      ok := *;
      log := log + [Got(at, len, ok)];
      data := cells[at..at + len];
    }
  }
}
