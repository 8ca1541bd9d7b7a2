/** The DATA channel's critical sections, in place on the two pools and their buffers, and
    link_data_send, which copies its frame between two of them while anything may happen. */
module LinkData {
  import opened Bytes
  import opened Crc16
  import opened Pools
  import opened SlotPools

  const RX_BUFS := 8
  const TX_BUFS := 16
  const HDR := 2
  const PAYLOAD_MAX := 1536
  const BODY_MAX := HDR + PAYLOAD_MAX

  datatype Buf = Buf(body: seq<Byte>, crc: int)

  /** A complete frame whose checksum is its own. */
  predicate Sealed(b: Buf) {
    HDR <= |b.body| && b.crc == Checksum(b.body)
  }

  /** Whatever is queued is sealed. */
  predicate AllSealed(place: seq<Place>, bufs: seq<Buf>) {
    |place| == |bufs| && forall i :: 0 <= i < |place| && place[i] == Queued ==> Sealed(bufs[i])
  }

  lemma NoneQueued(place: seq<Place>, bufs: seq<Buf>)
    requires |place| == |bufs| && forall i :: 0 <= i < |place| ==> place[i] == Free
    ensures AllSealed(place, bufs)
  {
  }

  /** A frame on its way to the consumer: the slot it sits in, and what it says. */
  datatype Delivery = Delivery(slot: nat, buf: Buf)

  lemma StepKeepsSealed(p: Pool, e: Event, bufs: seq<Buf>)
    requires Inv(p) && AllSealed(p.place, bufs)
    requires e.Publish? && Is(p, e.slot, Held) && LooksCurrent(p, e.slot) ==> Sealed(bufs[e.slot])
    ensures AllSealed(Step(p, e).place, bufs)
  {
    if p.queue != [] { assert Is(p, p.queue[0], Queued); }
  }

  /** Only queued frames need a seal. */
  lemma WriteKeepsSealed(place: seq<Place>, bufs: seq<Buf>, i: nat, b: Buf)
    requires AllSealed(place, bufs) && i < |place| && (place[i] != Queued || Sealed(b))
    ensures AllSealed(place, bufs[i := b])
  {
  }

  lemma HeadIsSealed(p: Pool, bufs: seq<Buf>)
    requires Inv(p) && AllSealed(p.place, bufs) && p.queue != []
    ensures p.queue[0] < |bufs| && Sealed(bufs[p.queue[0]])
  {
    assert Is(p, p.queue[0], Queued);
  }

  class Channel {
    const rx: SlotPool
    const tx: SlotPool
    const rxBuf: array<Buf>
    const txBuf: array<Buf>
    var epoch: nat                 // 8 bits, shared by both pools
    var attached: bool             // is there a consumer
    var rxInUse: nat
    ghost const Repr: set<object>

    ghost predicate Shape()
      reads this, rx, tx
    {
      && rx.Repr !! tx.Repr && this !in rx.Repr + tx.Repr
      && Repr == {this, rxBuf, txBuf} + rx.Repr + tx.Repr
      && rx in rx.Repr && tx in tx.Repr
      && rxBuf !in rx.Repr + tx.Repr && txBuf !in rx.Repr + tx.Repr && rxBuf != txBuf
      && rx.size == rxBuf.Length == RX_BUFS && tx.size == txBuf.Length == TX_BUFS
    }

    ghost predicate Valid()
      reads this, rx, tx, rx.Repr, tx.Repr, rxBuf, txBuf
    {
      && Shape()
      && rx.Valid() && tx.Valid()
      && rx.resets == tx.resets && epoch == rx.resets % EPOCHS
      && rxInUse == RX_BUFS - rx.freeCount
      && AllSealed(rx.View().place, rxBuf[..]) && AllSealed(tx.View().place, txBuf[..])
    }

    constructor ()
      ensures Valid() && fresh(Repr) && !attached
      ensures rx.View().queue == [] && tx.View().queue == []
    {
      hide FreeOk, Inv, Count, Waiting, Sealed, Is, LooksCurrent, AllSealed, SlotPool.Valid;
      var r := new SlotPool(RX_BUFS);
      var t := new SlotPool(TX_BUFS);
      var rb, tb := new Buf[RX_BUFS](_ => Buf([], 0)), new Buf[TX_BUFS](_ => Buf([], 0));
      rx, tx, rxBuf, txBuf, epoch, attached, rxInUse := r, t, rb, tb, 0, false, 0;
      Repr := {this, rb, tb} + r.Repr + t.Repr;
      NoneQueued(r.View().place, rb[..]);
      NoneQueued(t.View().place, tb[..]);
    }

    // ---- the consumer ----

    method Attach() returns (ok: bool)
      requires Valid()
      modifies `attached
      ensures Valid() && attached && ok == !old(attached)
    {
      ok := !attached;
      attached := true;
    }

    /** link_data_reset: both pools give up everything nobody holds, under a new epoch. */
    method LinkReset()
      requires Valid()
      modifies Repr
      ensures Valid() && attached == old(attached)
      ensures rx.View() == Step(old(rx.View()), Reset) && rxBuf[..] == old(rxBuf[..])
      ensures tx.View() == Step(old(tx.View()), Reset) && txBuf[..] == old(txBuf[..])
    {
      hide FreeOk, Inv, Count, Waiting, Step, AllSealed;
      StepKeepsSealed(rx.View(), Reset, rxBuf[..]);
      StepKeepsSealed(tx.View(), Reset, txBuf[..]);
      NextEpoch(rx.resets);
      epoch := (epoch + 1) % EPOCHS;
      rxInUse := rx.Reclaim();
      var _ := tx.Reclaim();
    }

    method Detach()
      requires Valid()
      modifies Repr
      ensures Valid() && !attached
      ensures rx.View() == Step(old(rx.View()), Reset) && rxBuf[..] == old(rxBuf[..])
      ensures tx.View() == Step(old(tx.View()), Reset) && txBuf[..] == old(txBuf[..])
    {
      attached := false;
      LinkReset();
    }

    // ---- receive ----

    /** A buffer for a body of this length, or none: then the reader drains the body. */
    method RxClaim(bodyLen: nat) returns (slot: Option<nat>)
      requires Valid()
      modifies `rxInUse, rx.Repr
      ensures Valid()
      ensures bodyLen < HDR || bodyLen > BODY_MAX ==> slot == None
      ensures HDR <= bodyLen <= BODY_MAX ==>
        (slot == None <==> Count(old(rx.View()).place, Free) == 0)
      ensures slot.Some? ==> Is(old(rx.View()), slot.value, Free)
      ensures rx.View() ==
        if slot == None then old(rx.View()) else Step(old(rx.View()), Claim(slot.value))
    {
      hide FreeOk, Inv, Count, Waiting, Step, AllSealed;
      slot := None;
      if bodyLen < HDR || bodyLen > BODY_MAX { return; }
      ghost var p := rx.View();
      slot := rx.Take(epoch);
      if slot.Some? {
        rxInUse := rxInUse + 1;
        StepKeepsSealed(p, Claim(slot.value), rxBuf[..]);
      }
    }

    /** The reader, who holds the slot, fills it in. */
    method RxFill(i: nat, body: seq<Byte>, crc: int)
      requires Valid() && i < RX_BUFS && rx.state[i] == Held
      modifies rxBuf
      ensures Valid() && rxBuf[..] == old(rxBuf[..])[i := Buf(body, crc)]
    {
      hide FreeOk, Inv, Count, Waiting, Step, AllSealed;
      WriteKeepsSealed(rx.View().place, rxBuf[..], i, Buf(body, crc));
      rxBuf[i] := Buf(body, crc);
    }

    /** Abort, free, and every other way of giving a receive slot back.  A consumer that hands
        back a slot still queued breaks the pool, and nothing else does. */
    method RxRelease(i: nat)
      requires Valid() && i < RX_BUFS
      modifies `rxInUse, rx.Repr
      ensures Shape() && rx.Shape() && (Valid() <==> old(rx.state[i]) != Queued)
      ensures old(rx.state[i]) != Queued ==> rx.View() == Step(old(rx.View()), Release(i))
      ensures rx.state[i] == Free
    {
      hide FreeOk, Inv, Count, Waiting, AllSealed;
      StepKeepsSealed(rx.View(), Release(i), rxBuf[..]);
      if rx.state[i] != Free && rxInUse != 0 { rxInUse := rxInUse - 1; }
      rx.Release(i);
    }

    /** A complete body: queued for the consumer if and only if its checksum is right, no
        reset has passed and somebody is attached; otherwise its slot is free again. */
    method RxCommit(i: nat) returns (queued: bool)
      requires Valid() && i < RX_BUFS && rx.state[i] == Held
      modifies `rxInUse, rx.Repr
      ensures Valid()
      ensures queued <==> Sealed(rxBuf[i]) && LooksCurrent(old(rx.View()), i) && attached
      ensures rx.View() == Step(old(rx.View()), if queued then Publish(i) else Release(i))
      ensures rx.state[i] == if queued then Queued else Free
    {
      hide FreeOk, Inv, Count, Waiting, AllSealed, Checksum;
      ghost var p := rx.View();
      var b := rxBuf[i];
      queued := false;
      if |b.body| < HDR || Checksum(b.body) != b.crc { RxRelease(i); return; }
      if rx.stamp[i] != epoch { RxRelease(i); return; }
      if !attached { RxRelease(i); return; }
      StepKeepsSealed(p, Publish(i), rxBuf[..]);
      queued := rx.Publish(i, epoch);
    }

    /** One turn of the delivery loop: the oldest frame, now the consumer's to hold. */
    method RxTake() returns (d: Option<Delivery>)
      requires Valid()
      modifies rx.Repr
      ensures Valid() && rx.View() == Step(old(rx.View()), Take)
      ensures d == None <==> old(rx.View()).queue == []
      ensures d.Some? ==> d.value.slot == old(rx.View()).queue[0] < RX_BUFS
      ensures d.Some? ==> d.value.buf == rxBuf[d.value.slot] && Sealed(d.value.buf)
      ensures d.Some? ==> rx.state[d.value.slot] == Held
    {
      hide FreeOk, Inv, Count, Waiting, Step, AllSealed, Sealed;
      ghost var p := rx.View();
      StepKeepsSealed(p, Take, rxBuf[..]);
      if p.queue != [] { HeadIsSealed(p, rxBuf[..]); }
      var slot := rx.TakeOldest(epoch);
      d := if slot == None then None else Some(Delivery(slot.value, rxBuf[slot.value]));
    }

    // ---- transmit ----

    /** The first section of link_data_send. */
    method TxClaim() returns (slot: Option<nat>)
      requires Valid()
      modifies tx.Repr
      ensures Valid()
      ensures slot == None <==> Count(old(tx.View()).place, Free) == 0
      ensures slot.Some? ==> Is(old(tx.View()), slot.value, Free)
      ensures tx.View() ==
        if slot == None then old(tx.View()) else Step(old(tx.View()), Claim(slot.value))
    {
      hide FreeOk, Inv, Count, Waiting, Step, AllSealed;
      ghost var p := tx.View();
      slot := tx.Take(epoch);
      if slot.Some? { StepKeepsSealed(p, Claim(slot.value), txBuf[..]); }
    }

    /** The copy between them, outside any lock, into a slot that is the sender's own. */
    method TxFill(i: nat, body: seq<Byte>)
      requires Valid() && i < TX_BUFS && tx.state[i] == Held
      modifies txBuf
      ensures Valid() && txBuf[..] == old(txBuf[..])[i := Buf(body, Checksum(body))]
    {
      hide FreeOk, Inv, Count, Waiting, Step, AllSealed, Checksum;
      WriteKeepsSealed(tx.View().place, txBuf[..], i, Buf(body, Checksum(body)));
      txBuf[i] := Buf(body, Checksum(body));
    }

    /** The second section: queue, or drop if a reset has passed. */
    method TxPublish(i: nat) returns (queued: bool)
      requires Valid() && i < TX_BUFS && tx.state[i] == Held && Sealed(txBuf[i])
      modifies tx.Repr
      ensures Valid() && tx.View() == Step(old(tx.View()), Publish(i))
      ensures queued <==> LooksCurrent(old(tx.View()), i)
    {
      hide FreeOk, Inv, Count, Waiting, Step, AllSealed, Sealed;
      StepKeepsSealed(tx.View(), Publish(i), txBuf[..]);
      queued := tx.Publish(i, epoch);
    }

    method TxPeek() returns (b: Option<Buf>)
      requires Valid()
      ensures b == None <==> tx.View().queue == []
      ensures b.Some? ==> Sealed(b.value) && tx.View().queue[0] < TX_BUFS
      ensures b.Some? ==> b.value == txBuf[tx.View().queue[0]]
    {
      hide FreeOk, Inv, Count, AllSealed, Sealed;
      b := None;
      if tx.head != tx.tail {
        HeadIsSealed(tx.View(), txBuf[..]);
        b := Some(txBuf[tx.ring[tx.tail]]);
      }
    }

    method TxPop()
      requires Valid()
      modifies tx.Repr
      ensures Valid() && tx.View() == Step(old(tx.View()), Pop)
      ensures old(tx.View()).queue != [] ==> Is(tx.View(), old(tx.View()).queue[0], Free)
      ensures old(tx.View()).queue != [] ==> tx.freeCount == old(tx.freeCount) + 1
    {
      hide FreeOk, Inv, Count, Waiting, Step, AllSealed;
      StepKeepsSealed(tx.View(), Pop, txBuf[..]);
      tx.PopOldest();
    }

    /** link_data_stats, the two instantaneous figures. */
    method Stats() returns (txQueued: nat, inUse: nat)
      requires Valid()
      ensures txQueued == |tx.View().queue| == Count(tx.View().place, Queued)
      ensures inUse == Count(rx.View().place, Held) + Count(rx.View().place, Queued)
      ensures inUse + Count(rx.View().place, Free) == RX_BUFS
    {
      hide FreeOk, Inv, Count, AllSealed, Waiting;
      CountsAddUp(rx.state[..]);
      FreeLen(rx.free[..rx.freeCount], rx.state[..]);
      Masked(tx.tail, tx.head);
      txQueued := (tx.head + (TX_BUFS + 1) - tx.tail) % (TX_BUFS + 1);
      inUse := rxInUse;
    }

    // ---- everybody else ----

    /** One section of some other thread, anything but giving up slot i, which is not its
        to give or to write. */
    method OneOther(i: nat) returns (ghost e: Event)
      requires Valid() && i < TX_BUFS && tx.state[i] == Held
      modifies Repr
      ensures Valid() && tx.View() == Step(old(tx.View()), e) && LeavesAlone(e, i)
      ensures txBuf[i] == old(txBuf[i])
    {
      hide FreeOk, Inv, Count, Waiting, Step, AllSealed, Checksum, Sealed;
      e := Release(TX_BUFS);
      NoSuchSlot(tx.View());
      var pick: int, j: nat, body: seq<Byte>, crc: int := *, *, *, *;
      if pick == 0 {
        e := Reset;
        LinkReset();
      } else if pick == 1 {
        e := Reset;
        Detach();
      } else if pick == 2 {
        var slot := TxClaim();
        if slot.Some? { e := Claim(slot.value); }
      } else if pick == 3 {
        if j < TX_BUFS && j != i && tx.state[j] == Held { TxFill(j, body); }
      } else if pick == 4 {
        if j < TX_BUFS && j != i && tx.state[j] == Held {
          if Sealed(txBuf[j]) {
            e := Publish(j);
            var _ := TxPublish(j);
          }
        }
      } else if pick == 5 {
        e := Pop;
        TxPop();
      } else if pick == 6 {
        var _ := RxClaim(|body|);
      } else if pick == 7 {
        if j < RX_BUFS && rx.state[j] == Held { RxFill(j, body, crc); }
      } else if pick == 8 {
        if j < RX_BUFS && rx.state[j] == Held { var _ := RxCommit(j); }
      } else if pick == 9 {
        if j < RX_BUFS && rx.state[j] != Queued { RxRelease(j); }
      } else if pick == 10 {
        var _ := RxTake();
      } else {
        var _ := Attach();
      }
    }

    method Others(i: nat) returns (ghost es: seq<Event>)
      requires Valid() && i < TX_BUFS && tx.state[i] == Held
      modifies Repr
      ensures Valid() && tx.View() == Run(old(tx.View()), es)
      ensures forall e <- es :: LeavesAlone(e, i)
      ensures tx.state[i] == Held && txBuf[i] == old(txBuf[i])
    {
      hide FreeOk, Count, Waiting, Step, AllSealed, Inv;
      es := [];
      ghost var p := tx.View();
      var n: nat :| 0 <= n;
      for k := 0 to n
        invariant Valid() && tx.View() == Run(p, es) && forall e <- es :: LeavesAlone(e, i)
        invariant tx.state[i] == Held && txBuf[i] == old(txBuf[i])
      {
        ghost var q := tx.View();
        ghost var e := OneOther(i);
        StepKeepsHeld(q, e, i);
        RunSnoc(p, es, e);
        es := es + [e];
      }
    }

    /** link_data_send.  Whatever runs during the copy, the frame goes on the end of the
        queue, whole and sealed, if and only if the number of resets meanwhile is a
        multiple of 256; otherwise its slot is free again. */
    method Send(chan: Byte, payload: seq<Byte>)
      returns (ok: bool, slot: Option<nat>, ghost es: seq<Event>)
      requires Valid()
      modifies Repr
      ensures Valid()
      ensures slot == None <==>
        |payload| > PAYLOAD_MAX || Count(old(tx.View()).place, Free) == 0
      ensures slot == None ==> !ok && tx.View() == old(tx.View()) && es == []
      ensures slot.Some? ==> Is(old(tx.View()), slot.value, Free)
      ensures slot.Some? ==> forall e <- es :: LeavesAlone(e, slot.value)
      ensures slot.Some? ==>
        tx.View() == Step(Run(Step(old(tx.View()), Claim(slot.value)), es), Publish(slot.value))
      ensures ok <==> slot.Some? && Resets(es) % EPOCHS == 0
      ensures ok ==> |tx.View().queue| > 0
      ensures ok ==> tx.View().queue[|tx.View().queue| - 1] == slot.value < TX_BUFS
      ensures ok ==> txBuf[slot.value] == Buf([chan, 0] + payload, Checksum([chan, 0] + payload))
      ensures slot.Some? && !ok ==> Is(tx.View(), slot.value, Free)
    {
      hide FreeOk, Inv, Count, Waiting, Step, AllSealed, Checksum;
      ok, slot, es := false, None, [];
      if |payload| > PAYLOAD_MAX { return; }
      ghost var p := tx.View();
      slot := TxClaim();
      if slot == None { return; }
      var i := slot.value;
      ClaimHolds(p, i);
      TxFill(i, [chan, 0] + payload);
      es := Others(i);
      QueuedIffNoReset(p, es, i);
      ok := TxPublish(i);
      CurrentIffNoReset(p, es, i);
    }
  }

  /** The masked difference of the transmit indices. */
  lemma Masked(tail: nat, head: nat)
    requires tail <= TX_BUFS && head <= TX_BUFS
    ensures (head + (TX_BUFS + 1) - tail) % (TX_BUFS + 1) == RingLen(tail, head, TX_BUFS)
  {
  }

  lemma ClaimHolds(p: Pool, i: nat)
    requires Inv(p) && Is(p, i, Free)
    ensures Is(Step(p, Claim(i)), i, Held)
  {
  }

  lemma CurrentIffNoReset(p: Pool, es: seq<Event>, i: nat)
    requires Inv(p) && Is(p, i, Free) && forall e <- es :: LeavesAlone(e, i)
    ensures LooksCurrent(Run(Step(p, Claim(i)), es), i) <==> Resets(es) % EPOCHS == 0
  {
    var start := Step(p, Claim(i));
    StepKeepsInv(p, Claim(i));
    HeldIsKept(start, es, i);
    ResetsCounted(start, es);
    SameEpoch(start.resets, Resets(es));
  }

  lemma NoSuchSlot(p: Pool)
    requires |p.place| == |p.born| <= TX_BUFS
    ensures Step(p, Release(TX_BUFS)) == p
  {
  }

  lemma NextEpoch(resets: nat)
    ensures (resets % EPOCHS + 1) % EPOCHS == (resets + 1) % EPOCHS
  {
  }
}
