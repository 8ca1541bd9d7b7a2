/** One DATA buffer pool in place: free stack, index ring, state and epoch arrays.  Every
    method is one critical section and one step of Pools. */
module SlotPools {
  import opened Bytes
  import opened Pools

  /** The k-th ring position from `tail`, in a ring of n + 1 entries. */
  function RingAt(tail: nat, k: nat, n: nat): nat {
    if tail + k <= n then tail + k else tail + k - (n + 1)
  }

  lemma WrapAround(x: nat, n: nat)
    requires x <= n
    ensures (x + 1) % (n + 1) == RingAt(x, 1, n)
  {
    if x == n { assert (n + 1) % (n + 1) == 0; } else { SmallMod(x + 1, n + 1); }
  }

  lemma SmallMod(x: nat, m: nat)
    requires x < m
    ensures x % m == x
  {
  }

  function RingLen(tail: nat, head: nat, n: nat): nat
    requires tail <= n && head <= n
  {
    if tail <= head then head - tail else head + n + 1 - tail
  }

  /** What the ring holds, oldest first. */
  function Waiting(ring: seq<nat>, tail: nat, head: nat): (q: seq<nat>)
    requires tail < |ring| && head < |ring|
    ensures |q| == RingLen(tail, head, |ring| - 1)
  {
    var n := |ring| - 1;
    seq(RingLen(tail, head, n), k requires 0 <= k < RingLen(tail, head, n) => ring[RingAt(tail, k, n)])
  }

  lemma NothingWaiting(ring: seq<nat>)
    requires ring != []
    ensures Waiting(ring, 0, 0) == []
  {
  }

  lemma RingPush(ring: seq<nat>, tail: nat, head: nat, i: nat)
    requires tail < |ring| && head < |ring| && RingLen(tail, head, |ring| - 1) < |ring| - 1
    ensures (head + 1) % |ring| < |ring|
    ensures Waiting(ring[head := i], tail, (head + 1) % |ring|) == Waiting(ring, tail, head) + [i]
  {
    WrapAround(head, |ring| - 1);
  }

  lemma RingPop(ring: seq<nat>, tail: nat, head: nat)
    requires tail < |ring| && head < |ring| && tail != head
    ensures (tail + 1) % |ring| < |ring|
    ensures Waiting(ring, tail, head)[0] == ring[tail]
    ensures Waiting(ring, (tail + 1) % |ring|, head) == Waiting(ring, tail, head)[1..]
  {
    WrapAround(tail, |ring| - 1);
  }

  /** The free stack holds every free slot exactly once. */
  predicate FreeOk(free: seq<nat>, place: seq<Place>) {
    && (forall k :: 0 <= k < |free| ==> At(place, free[k], Free))
    && (forall j, k :: 0 <= j < k < |free| ==> free[j] != free[k])
    && (forall i :: 0 <= i < |place| && place[i] == Free ==> i in free)
    && |free| == Count(place, Free)
  }

  lemma FreePush(free: seq<nat>, place: seq<Place>, i: nat)
    requires FreeOk(free, place) && i < |place| && place[i] != Free
    ensures FreeOk(free + [i], place[i := Free]) && |free| < |place|
  {
    CountMove(place, i, Free, Free);
    CountsAddUp(place);
    CountPositive(place, i);
    var f := free + [i];
    assert i !in free by {
      forall k | 0 <= k < |free| ensures free[k] != i {
        assert At(place, free[k], Free);
      }
    }
    forall j | 0 <= j < |place| && place[i := Free][j] == Free ensures j in f {
      if j == i { assert f[|free|] == i; } else { assert j in free; }
    }
  }

  lemma FreePop(free: seq<nat>, place: seq<Place>)
    requires FreeOk(free, place) && free != []
    ensures free[|free| - 1] < |place| && place[free[|free| - 1]] == Free
    ensures FreeOk(free[..|free| - 1], place[free[|free| - 1] := Held])
  {
    var n, i := |free| - 1, free[|free| - 1];
    assert At(place, free[n], Free);
    CountMove(place, i, Held, Free);
    forall j | 0 <= j < |place| && place[i := Held][j] == Free ensures j in free[..n] {
      var k :| 0 <= k < |free| && free[k] == j;
      assert free[..n][k] == j;
    }
  }

  /** Moves that leave the free slots alone leave the stack right. */
  lemma FreeSame(free: seq<nat>, place: seq<Place>, i: nat, to: Place)
    requires FreeOk(free, place) && i < |place| && place[i] != Free && to != Free
    ensures FreeOk(free, place[i := to])
  {
    CountMove(place, i, to, Free);
    forall k | 0 <= k < |free|
      ensures At(place[i := to], free[k], Free)
    {
      assert At(place, free[k], Free);
    }
  }

  lemma EmptyOk()
    ensures FreeOk([], [])
  {
  }

  lemma FreeLen(free: seq<nat>, place: seq<Place>)
    requires FreeOk(free, place)
    ensures |free| == Count(place, Free)
  {
  }

  /** One more slot, pushed if it is free: the rebuilding loop of a reset. */
  lemma FreeExtend(free: seq<nat>, place: seq<Place>, last: Place)
    requires FreeOk(free, place)
    ensures last != Free ==> FreeOk(free, place + [last])
    ensures last == Free ==> FreeOk(free + [|place|], place + [last])
  {
    var n, r := |place|, place + [last];
    assert r[..n] == place;
    forall k | 0 <= k < |free| ensures At(r, free[k], Free) && free[k] < n {
      assert At(place, free[k], Free);
    }
    if last == Free { assert (free + [n])[|free|] == n; }
    forall i | 0 <= i < |r| && r[i] == Free ensures i in free + [n] && (i < n ==> i in free) {
    }
  }

  /** A held slot leaves room in the ring for itself. */
  lemma RoomToQueue(place: seq<Place>, i: nat)
    requires i < |place| && place[i] == Held
    ensures Count(place, Queued) < |place|
  {
    CountsAddUp(place);
    CountPositive(place, i);
  }

  lemma {:induction false} AllFree(place: seq<Place>)
    requires forall i :: 0 <= i < |place| ==> place[i] == Free
    ensures Count(place, Free) == |place| && Count(place, Queued) == 0
    decreases |place|
  {
    if place != [] { AllFree(place[..|place| - 1]); }
  }

  lemma FreshOk(free: seq<nat>, place: seq<Place>)
    requires |free| == |place|
    requires forall i :: 0 <= i < |place| ==> place[i] == Free && free[i] == i
    ensures FreeOk(free, place)
  {
    AllFree(place);
  }

  lemma FreshInv(p: Pool)
    requires |p.born| == |p.place| && p.queue == []
    requires forall i :: 0 <= i < |p.place| ==> p.place[i] == Free && p.born[i] == 0
    ensures Inv(p)
  {
  }

  lemma QueuedBound(p: Pool)
    requires Inv(p) && p.queue != []
    ensures Is(p, p.queue[0], Queued) && LooksCurrent(p, p.queue[0])
  {
  }

  lemma FreeWhileQueued(p: Pool, i: nat)
    requires Inv(p) && Is(p, i, Queued)
    ensures !Inv(p.(place := p.place[i := Free]))
  {
    var k :| 0 <= k < |p.queue| && p.queue[k] == i;
    var r := p.(place := p.place[i := Free]);
    assert !Is(r, r.queue[k], Queued);
  }

  class SlotPool {
    const size: nat
    const free: array<nat>
    var freeCount: nat
    const ring: array<nat>
    var head: nat
    var tail: nat
    const state: array<Place>
    const stamp: array<nat>          // 8 bits each
    ghost var born: seq<nat>
    ghost var resets: nat
    ghost const Repr: set<object>

    ghost predicate Shape()
      reads this
    {
      && free.Length == state.Length == stamp.Length == |born| == size
      && ring.Length == size + 1 && freeCount <= size && head <= size && tail <= size
      && free != ring && free != stamp && ring != stamp
      && Repr == {this, free, ring, state, stamp}
    }

    ghost function View(): Pool
      reads this, Repr
      requires Shape()
    {
      Pool(state[..], Waiting(ring[..], tail, head), born, resets)
    }

    ghost predicate Valid()
      reads this, Repr
    {
      && Shape()
      && FreeOk(free[..freeCount], state[..])
      && |View().queue| == Count(state[..], Queued)
      && (forall i :: 0 <= i < size ==> stamp[i] == born[i] % EPOCHS)
      && Inv(View())
    }

    /** ld_init_locked: everything free. */
    constructor (n: nat)
      ensures Valid() && Shape() && size == n && fresh(Repr) && resets == 0 && freeCount == n
      ensures View().queue == [] && forall i :: 0 <= i < n ==> View().place[i] == Free
    {
      hide FreeOk, Inv, Count, Is, Waiting;
      var f, r := new nat[n](i => i), new nat[n + 1](_ => 0);
      var s, t := new Place[n](_ => Free), new nat[n](_ => 0);
      size, free, ring, state, stamp := n, f, r, s, t;
      freeCount, head, tail := n, 0, 0;
      born, resets := seq(n, _ => 0), 0;
      Repr := {this, f, r, s, t};
      new;
      NothingWaiting(ring[..]);
      AllFree(state[..]);
      FreshOk(free[..freeCount], state[..]);
      FreshInv(View());
    }

    /** Take a slot off the free stack and stamp it with the current epoch. */
    method Take(epoch: nat) returns (slot: Option<nat>)
      requires Valid() && epoch == resets % EPOCHS
      modifies Repr
      ensures Valid() && resets == old(resets)
      ensures slot == None <==> Count(old(View()).place, Free) == 0
      ensures slot.Some? ==> Is(old(View()), slot.value, Free) && Is(View(), slot.value, Held)
      ensures freeCount == if slot == None then old(freeCount) else old(freeCount) - 1
      ensures View() == if slot == None then old(View()) else Step(old(View()), Claim(slot.value))
    {
      hide FreeOk, Inv, Count, Waiting;
      slot := None;
      FreeLen(free[..freeCount], state[..]);
      if freeCount == 0 { return; }
      ghost var p, f := View(), free[..freeCount];
      FreePop(f, p.place);
      freeCount := freeCount - 1;
      var i := free[freeCount];
      StepKeepsInv(p, Claim(i));
      CountMove(p.place, i, Held, Queued);
      state[i], stamp[i] := Held, epoch;
      born := born[i := resets];
      slot := Some(i);
      assert state[..] == p.place[i := Held] && free[..freeCount] == f[..|f| - 1];
    }

    /** Give a slot back: harmless for a slot already free, and ruinous for exactly the one
        kind of slot that is nobody's to give, a queued one. */
    method Release(i: nat)
      requires Valid() && i < size
      modifies Repr
      ensures Shape() && resets == old(resets)
      ensures Valid() <==> old(state[i]) != Queued
      ensures state[i] == Free
      ensures old(state[i]) != Queued ==> View() == Step(old(View()), Pools.Release(i))
      ensures old(state[i]) == Queued ==> View() == old(View()).(place := old(state[..])[i := Free])
      ensures freeCount == if old(state[i]) == Free then old(freeCount) else old(freeCount) + 1
    {
      hide FreeOk, Inv, Count, Waiting;
      if state[i] == Free { return; }
      ghost var p, f := View(), free[..freeCount];
      FreePush(f, p.place, i);
      CountMove(p.place, i, Free, Queued);
      if p.place[i] == Queued {
        FreeWhileQueued(p, i);
      } else {
        StepKeepsInv(p, Pools.Release(i));
      }
      state[i] := Free;
      free[freeCount] := i;
      freeCount := freeCount + 1;
      assert state[..] == p.place[i := Free] && free[..freeCount] == f + [i];
    }

    /** Queue a held slot unless a reset has passed since it was claimed. */
    method Publish(i: nat, epoch: nat) returns (queued: bool)
      requires Valid() && i < size && state[i] == Held && epoch == resets % EPOCHS
      modifies Repr
      ensures Valid() && resets == old(resets)
      ensures View() == Step(old(View()), Pools.Publish(i))
      ensures queued <==> LooksCurrent(old(View()), i)
      ensures state[i] == if queued then Queued else Free
      ensures View().queue == old(View()).queue + if queued then [i] else []
      ensures freeCount == if queued then old(freeCount) else old(freeCount) + 1
    {
      hide FreeOk, Inv, Count, Waiting;
      queued := stamp[i] == epoch;
      ghost var p, f, r := View(), free[..freeCount], ring[..];
      StepKeepsInv(p, Pools.Publish(i));
      if !queued {
        FreePush(f, p.place, i);
        CountMove(p.place, i, Free, Queued);
        state[i] := Free;
        free[freeCount] := i;
        freeCount := freeCount + 1;
        assert state[..] == p.place[i := Free] && free[..freeCount] == f + [i];
        return;
      }
      RoomToQueue(p.place, i);
      RingPush(r, tail, head, i);
      FreeSame(f, p.place, i, Queued);
      CountMove(p.place, i, Queued, Queued);
      state[i] := Queued;
      ring[head] := i;
      head := (head + 1) % (size + 1);
      assert state[..] == p.place[i := Queued] && free[..freeCount] == f;
      assert ring[..] == r[old(head) := i];
    }

    /** The oldest queued slot goes to the consumer.  The stale test is the source's; it
        never fires, because a reset empties the queue. */
    method TakeOldest(epoch: nat) returns (slot: Option<nat>)
      requires Valid() && epoch == resets % EPOCHS
      modifies Repr
      ensures Valid() && resets == old(resets)
      ensures View() == Step(old(View()), Pools.Take)
      ensures slot == if old(View()).queue == [] then None else Some(old(View()).queue[0])
      ensures slot.Some? ==> slot.value < size && state[slot.value] == Held
      ensures slot.Some? ==> View().queue == old(View()).queue[1..]
      ensures freeCount == old(freeCount)
    {
      hide FreeOk, Inv, Count, Waiting;
      slot := None;
      if head == tail { return; }
      ghost var p, f := View(), free[..freeCount];
      RingPop(ring[..], tail, head);
      QueuedBound(p);
      StepKeepsInv(p, Pools.Take);
      var i := ring[tail];
      tail := (tail + 1) % (size + 1);
      if state[i] != Queued || stamp[i] != epoch { assert false; }
      FreeSame(f, p.place, i, Held);
      CountMove(p.place, i, Held, Queued);
      state[i] := Held;
      slot := Some(i);
      assert state[..] == p.place[i := Held] && free[..freeCount] == f;
    }

    /** The oldest queued slot has been written out. */
    method PopOldest()
      requires Valid()
      modifies Repr
      ensures Valid() && resets == old(resets)
      ensures View() == Step(old(View()), Pools.Pop)
      ensures old(View()).queue == [] ==> View() == old(View()) && freeCount == old(freeCount)
      ensures old(View()).queue != [] ==> View().queue == old(View()).queue[1..]
      ensures old(View()).queue != [] ==> Is(View(), old(View()).queue[0], Free)
      ensures old(View()).queue != [] ==> freeCount == old(freeCount) + 1
    {
      hide FreeOk, Inv, Count, Waiting;
      if head == tail { return; }
      ghost var p, f := View(), free[..freeCount];
      RingPop(ring[..], tail, head);
      QueuedBound(p);
      StepKeepsInv(p, Pools.Pop);
      var i := ring[tail];
      tail := (tail + 1) % (size + 1);
      if state[i] != Free {
        FreePush(f, p.place, i);
        CountMove(p.place, i, Free, Queued);
        state[i] := Free;
        free[freeCount] := i;
        freeCount := freeCount + 1;
        assert state[..] == p.place[i := Free] && free[..freeCount] == f + [i];
      }
    }

    /** Take back everything nobody holds, and count what stays in use. */
    method Reclaim() returns (inUse: nat)
      requires Valid()
      modifies Repr
      ensures Valid() && resets == old(resets) + 1
      ensures View() == Step(old(View()), Reset)
      ensures inUse == size - freeCount
    {
      hide FreeOk, Inv, Count, Is;
      ghost var p := View();
      StepKeepsInv(p, Reset);
      CountReclaimed(p.place);
      head, tail := 0, 0;
      inUse := Rebuild();
      resets := resets + 1;
      assert View().queue == [];
    }

    /** Put every slot nobody holds on a fresh free stack. */
    method Rebuild() returns (inUse: nat)
      requires Shape()
      modifies `freeCount, free, state
      ensures Shape() && state[..] == Reclaimed(old(state[..])) && stamp[..] == old(stamp[..])
      ensures FreeOk(free[..freeCount], state[..]) && inUse == size - freeCount
      ensures ring[..] == old(ring[..])
    {
      hide FreeOk;
      ghost var was := state[..];
      freeCount, inUse := 0, 0;
      EmptyOk();
      for i := 0 to size
        invariant freeCount + inUse == i
        invariant state[..i] == Reclaimed(was)[..i] && state[i..] == was[i..]
        invariant FreeOk(free[..freeCount], state[..i])
      {
        ghost var f, s := free[..freeCount], state[..i];
        assert state[i] == state[i..][0] == was[i];
        if state[i] == Queued { state[i] := Free; }
        if state[i] == Free {
          free[freeCount] := i;
          freeCount := freeCount + 1;
          assert free[..freeCount] == f + [i];
        } else {
          inUse := inUse + 1;
        }
        assert state[..i + 1] == s + [state[i]];
        FreeExtend(f, s, state[i]);
        assert state[i + 1..] == was[i..][1..];
      }
      assert state[..] == state[..size];
    }
  }
}
