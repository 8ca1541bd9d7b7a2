/** What every section of the slot table is there to bring about: a call that can begin does,
    a frame that may go does, and a reply that matches lands. */
module CallProgress {
  import opened Bytes
  import opened Calls
  import opened CallRuns

  predicate AlikeBut(a: seq<Slot>, b: seq<Slot>, i: nat) {
    |a| == |b| && forall k :: 0 <= k < |a| && k != i ==> a[k] == b[k]
  }

  /** A call begins if and only if the link is up, the request fits and some slot is free;
      the slot it gets then holds exactly what the caller handed over, under a number no
      call has had. */
  lemma BeginTakesASlot(t: Table, e: Event) returns (i: nat)
    requires Inv(t) && e.Begin? && BufferFits(t.mem, e.out, e.cap)
    ensures var r := Step(t, e);
      if t.linkUp && e.reqLen <= REQ_MAX && exists k :: 0 <= k < SLOTS && t.slots[k].phase == Free
      then
        && i < SLOTS && t.slots[i].phase == Free && AlikeBut(t.slots, r.slots, i)
        && r.slots[i] == Slot(Queued, e.service, e.request, t.nextSeq + 1, e.out, e.cap, 0,
                              8 + e.reqLen, None)
        && forall k :: 0 <= k < SLOTS && Live(t.slots[k]) ==> t.slots[k].call <= t.nextSeq
      else r == t
  {
    i := FirstFree(t.slots);
    assert forall k :: 0 <= k < SLOTS ==> SlotOk(t.slots[k], t.nextSeq, t.mem);
  }

  // ---- sending ----

  predicate LedgerEmpty(debts: seq<Option<Debt>>) {
    forall k :: 0 <= k < |debts| ==> debts[k] == None
  }

  lemma {:induction false} OnWireNothing(debts: seq<Option<Debt>>)
    requires LedgerEmpty(debts)
    ensures OnWire(debts) == 0
    decreases |debts|
  {
    if debts != [] { OnWireNothing(debts[..|debts| - 1]); }
  }

  /** A queued frame may go if and only if the link is up, the ledger has room, and either
      nothing at all is outstanding or the frame fits what is left of the budget. */
  lemma MayGoIff(t: Table, i: nat)
    requires Inv(t) && i < SLOTS && t.slots[i].phase == Queued
    ensures Step(t, Send(i)) != t <==>
      t.linkUp && None in t.debts &&
      (LedgerEmpty(t.debts) || OnWire(t.debts) + t.slots[i].bodyLen + 4 <= t.budget)
  {
    if LedgerEmpty(t.debts) { OnWireNothing(t.debts); }
    if OnWire(t.debts) == 0 {
      forall k | 0 <= k < DEBTS ensures t.debts[k] == None { OnWireZero(t.debts, k); }
    }
    if None in t.debts {
      var k :| 0 <= k < DEBTS && t.debts[k] == None;
      assert FirstRoom(t.debts) <= k;
    }
    assert Step(t, Send(i)) != t ==> Step(t, Send(i)).slots[i].phase == Sent;
  }

  /** And when it goes, its slot is SENT and its whole frame is on the ledger. */
  lemma SendLands(t: Table, i: nat)
    requires Inv(t) && i < SLOTS && t.slots[i].phase == Queued && Step(t, Send(i)) != t
    ensures var r := Step(t, Send(i));
      && r.slots[i] == t.slots[i].(phase := Sent) && AlikeBut(t.slots, r.slots, i)
      && Some(Debt(t.slots[i].call, t.slots[i].bodyLen + 4)) in r.debts
      && OnWire(r.debts) == OnWire(t.debts) + t.slots[i].bodyLen + 4
  {
    var d := Debt(t.slots[i].call, t.slots[i].bodyLen + 4);
    assert Eligible(t, i);
    OnWirePut(t.debts, FirstRoom(t.debts), d);
    assert Step(t, Send(i)).debts[FirstRoom(t.debts)] == Some(d);
  }

  // ---- the reply ----

  /** On the wire with this very sequence number, service and request. */
  predicate Awaits(s: Slot, e: Event) {
    && e.Reply? && s.phase == Sent
    && s.call == e.call && s.service == e.service && s.request == e.request
  }

  predicate Holds(mem: map<Buffer, seq<Byte>>, b: Buffer, k: nat, value: Byte) {
    b in mem && k < |mem[b]| && mem[b][k] == value
  }

  /** The caller's buffer gets the payload as far as there is room for it, and keeps the
      rest of what it held. */
  predicate Received(was: Table, now: Table, s: Slot, payload: seq<Byte>) {
    s.out.Some? && s.out.value in was.mem ==>
      forall k :: 0 <= k < |was.mem[s.out.value]| ==>
        Holds(now.mem, s.out.value, k,
              if k < |payload| && k < s.cap then payload[k] else was.mem[s.out.value][k])
  }

  /** Whichever slot a reply is for, it lands there: the slot is DONE with the payload's
      length, the caller's buffer has the payload, and nobody else's slot or buffer is
      touched. */
  lemma ReplyLands(t: Table, e: Event, i: nat)
    requires Inv(t) && i < SLOTS && Awaits(t.slots[i], e)
    ensures var r := Step(t, e);
      && r.slots[i] == t.slots[i].(phase := Done, replyLen := |e.payload|)
      && AlikeBut(t.slots, r.slots, i) && Received(t, r, t.slots[i], e.payload)
      && (forall b <- t.mem :: t.slots[i].out != Some(b) ==> b in r.mem && r.mem[b] == t.mem[b])
  {
    hide WaitsOk, DebtsOk, OnWire, FirstRoom, FirstFree;
    var j := FirstSent(t.slots, e.call);
    assert j == i by { assert Live(t.slots[i]) && (j < SLOTS ==> Live(t.slots[j])); }
    assert SlotOk(t.slots[i], t.nextSeq, t.mem);
  }

  /** A reply nobody awaits touches no slot and no buffer. */
  lemma StrayReplyIsDropped(t: Table, e: Event)
    requires Inv(t) && e.Reply? && forall i :: 0 <= i < SLOTS ==> !Awaits(t.slots[i], e)
    ensures Step(t, e).slots == t.slots && Step(t, e).mem == t.mem
  {
    assert Addressee(t, e).Some? ==> Awaits(t.slots[Addressee(t, e).value], e);
  }

  // ---- what a begun call keeps ----

  predicate Serves(s: Slot, q: nat) {
    Live(s) && s.call == q && s.phase != Abandoned
  }

  predicate SameHandover(a: Slot, b: Slot) {
    && a.service == b.service && a.request == b.request
    && a.out == b.out && a.cap == b.cap && a.bodyLen == b.bodyLen
  }

  lemma StepKeepsHandover(t: Table, e: Event, i: nat, q: nat)
    requires Inv(t) && i < SLOTS && q <= t.nextSeq && Serves(Step(t, e).slots[i], q)
    ensures Serves(t.slots[i], q) && SameHandover(t.slots[i], Step(t, e).slots[i])
  {
    hide WaitsOk, DebtsOk, OnWire, FirstRoom;
  }

  /** As long as a slot serves a call it has the service, the request, the buffer and the
      capacity that call was handed. */
  lemma {:induction false} HandoverIsKept(t: Table, es: seq<Event>, i: nat, q: nat)
    requires Inv(t) && i < SLOTS && q <= t.nextSeq && Serves(Run(t, es).slots[i], q)
    ensures Serves(t.slots[i], q) && SameHandover(t.slots[i], Run(t, es).slots[i])
    decreases |es|
  {
    if es != [] {
      hide Step, Inv, Serves;
      var head := es[..|es| - 1];
      RunKeepsInv(t, head);
      SeqGrows(t, head);
      StepKeepsHandover(Run(t, head), es[|es| - 1], i, q);
      HandoverIsKept(t, head, i, q);
    }
  }

  // ---- the other sections ----

  predicate MayWait(t: Table, th: Thread, token: nat) {
    && token < |t.slots| && t.slots[token].phase != Free
    && (t.slots[token].waiter == None || t.slots[token].waiter == Some(th))
  }

  predicate Emptied(s: Slot) {
    s.phase == Free && s.out == None && s.waiter == None
  }

  /** A thread becomes the waiter of a live slot that is nobody else's, and of no other. */
  lemma RegisterLands(t: Table, th: Thread, token: nat)
    requires Inv(t) && th !in t.waits
    ensures var r := Step(t, Register(th, token));
      if MayWait(t, th, token)
      then th in r.waits && r.waits[th] == Wait(token, t.slots[token].call)
           && r.slots == t.slots[token := t.slots[token].(waiter := Some(th))]
      else r == t
  {
  }

  /** Cancelling empties exactly such a slot. */
  lemma CancelLands(t: Table, th: Thread, token: nat)
    requires Inv(t) && th !in t.waits
    ensures var r := Step(t, Cancel(th, token));
      if MayWait(t, th, token) then Emptied(r.slots[token]) && AlikeBut(t.slots, r.slots, token)
      else r == t
  {
  }

  /** A waiter's look empties its slot if the call is done or torn down, or if the waiter has
      had enough, and otherwise leaves everything as it is. */
  lemma SettleLands(t: Table, th: Thread, fail: bool)
    requires Inv(t) && th in t.waits
    ensures t.waits[th].token < SLOTS
    ensures var r, i := Step(t, Settle(th, fail)), t.waits[th].token;
      if fail || t.slots[i].phase in {Done, Abandoned}
      then Emptied(r.slots[i]) && AlikeBut(t.slots, r.slots, i) && th !in r.waits
      else r == t
  {
    assert WaitOk(t.slots, th, t.waits[th]);
  }

  /** Abandoning empties every slot nobody waits on, tells every waiter, detaches every
      buffer, and leaves the ledger empty and the link down. */
  lemma AbandonLands(t: Table)
    requires Inv(t)
    ensures var r := Step(t, AbandonAll);
      && !r.linkUp && LedgerEmpty(r.debts) && r.waits == t.waits
      && forall i :: 0 <= i < SLOTS ==>
           if t.slots[i].waiter == None then Emptied(r.slots[i])
           else r.slots[i].phase == Abandoned && r.slots[i].out == None
                && r.slots[i].waiter == t.slots[i].waiter
  {
    forall i | 0 <= i < SLOTS ensures SlotOk(t.slots[i], t.nextSeq, t.mem) {}
  }

  /** The module's generation is what the budget follows. */
  lemma BudgetFollows(t: Table, gen: nat)
    ensures Step(t, SetGen(gen)).budget == if gen < 4 then 127 else 4096
  {
  }

  // ---- what becomes of a wait ----

  /** Step k of the run brings slot i its reply, and nobody tears the link down after it. */
  predicate LandedAt(t: Table, es: seq<Event>, i: nat, k: nat)
    requires i < |t.slots|
  {
    k < |es| && Awaits(Run(t, es[..k]).slots[i], es[k]) && AbandonAll !in es[k + 1..]
  }

  lemma StepOnWaited(t: Table, e: Event, th: Thread)
    requires Inv(t) && th in t.waits && !By(e, th)
    ensures t.waits[th].token < SLOTS
    ensures var i := t.waits[th].token;
      var s, r := t.slots[i], Step(t, e).slots[i];
      && (e == AbandonAll ==> r.phase == Abandoned)
      && (Awaits(s, e) ==> s.phase == Sent && r.phase == Done && r.replyLen == |e.payload|)
      && (e != AbandonAll && !Awaits(s, e) ==>
            r.replyLen == s.replyLen && (r.phase == s.phase || (s.phase == Queued && r.phase == Sent)))
  {
    hide DebtsOk, OnWire, FirstRoom;
    assert WaitOk(t.slots, th, t.waits[th]);
    if Awaits(t.slots[t.waits[th].token], e) { ReplyLands(t, e, t.waits[th].token); }
  }

  /** What a waiter will find in its slot: torn down if and only if somebody abandoned the
      link, done if and only if a matching reply came and nobody abandoned the link after. */
  ghost predicate Fate(t: Table, es: seq<Event>, i: nat)
    requires i < |t.slots|
  {
    var was, now := t.slots[i], Run(t, es).slots[i];
    && (now.phase == Abandoned <==> AbandonAll in es || was.phase == Abandoned)
    && (forall k: nat :: LandedAt(t, es, i, k) ==>
          now.phase == Done && now.replyLen == |es[k].payload|)
    && (now.phase == Done ==>
          || (was.phase == Done && now.replyLen == was.replyLen)
          || exists k: nat :: LandedAt(t, es, i, k))
  }

  lemma {:induction false} WaitEndsAsItMust(t: Table, es: seq<Event>, th: Thread)
    requires Inv(t) && th in t.waits && forall e <- es :: !By(e, th)
    ensures t.waits[th].token < SLOTS && Fate(t, es, t.waits[th].token)
    decreases |es|
  {
    var i := t.waits[th].token;
    assert WaitOk(t.slots, th, t.waits[th]);
    if es == [] {
    } else {
      hide Step, Inv, Awaits, Fate;
      var n := |es| - 1;
      WaitEndsAsItMust(t, es[..n], th);
      WaitIsKept(t, es[..n], th);
      StepOnWaited(Run(t, es[..n]), es[n], th);
      FateSnoc(t, es, i);
    }
  }

  lemma FateSnoc(t: Table, es: seq<Event>, i: nat)
    requires i < |t.slots| && es != [] && Fate(t, es[..|es| - 1], i)
    requires var s, r, e := Run(t, es[..|es| - 1]).slots[i], Run(t, es).slots[i], es[|es| - 1];
      && (e == AbandonAll ==> r.phase == Abandoned)
      && (Awaits(s, e) ==> s.phase == Sent && r.phase == Done && r.replyLen == |e.payload|)
      && (e != AbandonAll && !Awaits(s, e) ==>
            r.replyLen == s.replyLen && (r.phase == s.phase || (s.phase == Queued && r.phase == Sent)))
    ensures Fate(t, es, i)
  {
    hide Run;
    var n := |es| - 1;
    var s := Run(t, es[..n]).slots[i];
    assert AbandonAll in es <==> AbandonAll in es[..n] || es[n] == AbandonAll;
    forall k: nat | LandedAt(t, es, i, k)
      ensures Run(t, es).slots[i].phase == Done && Run(t, es).slots[i].replyLen == |es[k].payload|
    {
      LandedSnoc(t, es, i, k);
      if k < n { assert LandedAt(t, es[..n], i, k) && es[..n][k] == es[k]; }
    }
    if Awaits(s, es[n]) { LandedSnoc(t, es, i, n); }
    if k: nat :| LandedAt(t, es[..n], i, k) { LandedSnoc(t, es, i, k); }
  }

  lemma LandedSnoc(t: Table, es: seq<Event>, i: nat, k: nat)
    requires i < |t.slots| && es != []
    ensures var n := |es| - 1;
      LandedAt(t, es, i, k)
      <==> if k == n then Awaits(Run(t, es[..n]).slots[i], es[n])
           else LandedAt(t, es[..n], i, k) && es[n] != AbandonAll
  {
    hide Run;
    var n := |es| - 1;
    if k < n {
      assert es[..n][..k] == es[..k] && es[k + 1..] == es[..n][k + 1..] + [es[n]];
    }
  }
}
