/** What holds over whole runs of the slot table, whatever the interleaving. */
module CallRuns {
  import opened Bytes
  import opened Calls

  lemma InvHasSlots(t: Table)
    requires Inv(t)
    ensures SlotsOk(t.slots, t.nextSeq, t.mem) && |t.debts| == DEBTS
  {
  }

  lemma RunSnoc(t: Table, es: seq<Event>, e: Event)
    ensures Run(t, es + [e]) == Step(Run(t, es), e)
  {
    assert (es + [e])[..|es|] == es;
  }

  lemma {:induction false} RunConcat(t: Table, es: seq<Event>, fs: seq<Event>)
    ensures Run(t, es + fs) == Run(Run(t, es), fs)
    decreases |fs|
  {
    if fs == [] {
      assert es + fs == es;
    } else {
      RunConcat(t, es, fs[..|fs| - 1]);
      assert (es + fs)[..|es + fs| - 1] == es + fs[..|fs| - 1];
    }
  }

  // ---- replies ----

  /** Still waiting for its reply. */
  predicate Pending(s: Slot, q: nat) {
    s.phase in {Queued, Sent} && s.call == q
  }

  predicate NothingPending(t: Table, q: nat) {
    q <= t.nextSeq && forall i :: 0 <= i < |t.slots| ==> !Pending(t.slots[i], q)
  }

  predicate Dead(t: Table, q: nat) {
    && q <= t.nextSeq
    && forall i :: 0 <= i < |t.slots| && Live(t.slots[i]) ==> t.slots[i].call != q
  }

  predicate Addresses(t: Table, e: Event, q: nat) {
    e.Reply? && Addressee(t, e).Some? && e.call == q
  }

  lemma StepKeepsNothingPending(t: Table, e: Event, q: nat)
    requires SlotsOk(t.slots, t.nextSeq, t.mem) && NothingPending(t, q)
    ensures NothingPending(Step(t, e), q) && !Addresses(t, e, q)
    ensures Dead(t, q) ==> Dead(Step(t, e), q)
  {
    hide OnWire, FirstRoom;
  }

  lemma {:induction false} NothingPendingStays(t: Table, es: seq<Event>, q: nat)
    requires Inv(t) && NothingPending(t, q)
    ensures NothingPending(Run(t, es), q) && (Dead(t, q) ==> Dead(Run(t, es), q))
    decreases |es|
  {
    if es != [] {
      hide Step, Inv, NothingPending, Dead;
      var head := es[..|es| - 1];
      NothingPendingStays(t, head, q);
      RunKeepsInv(t, head);
      InvHasSlots(Run(t, head));
      StepKeepsNothingPending(Run(t, head), es[|es| - 1], q);
    }
  }

  /** A call whose reply has landed, or whose caller has left, is never written again. */
  lemma NoFurtherReply(t: Table, es: seq<Event>, q: nat)
    requires Inv(t) && NothingPending(t, q)
    ensures forall k :: 0 <= k < |es| ==> !Addresses(Run(t, es[..k]), es[k], q)
  {
    hide Step, Inv, NothingPending, Dead, Addresses, Run;
    forall k | 0 <= k < |es| ensures !Addresses(Run(t, es[..k]), es[k], q) {
      NothingPendingStays(t, es[..k], q);
      RunKeepsInv(t, es[..k]);
      InvHasSlots(Run(t, es[..k]));
      StepKeepsNothingPending(Run(t, es[..k]), es[k], q);
    }
  }

  /** The reply that finished call q: same sequence, same service, same request. */
  predicate RepliedIn(es: seq<Event>, s: Slot) {
    exists k :: 0 <= k < |es| && ReplyFor(es[k], s)
  }

  predicate ReplyFor(e: Event, s: Slot) {
    && e.Reply? && e.call == s.call && e.service == s.service && e.request == s.request
    && |e.payload| == s.replyLen
  }

  predicate SameRequest(a: Slot, b: Slot) {
    a.call == b.call && a.service == b.service && a.request == b.request
  }

  predicate SameButWaiter(a: Slot, b: Slot) {
    a.(waiter := None) == b.(waiter := None)
  }

  /** Every completed call was completed by its own reply. */
  lemma {:induction false} DoneMeansReplied(t: Table, es: seq<Event>, i: nat)
    requires Inv(t) && i < SLOTS && Run(t, es).slots[i].phase == Done
    ensures RepliedIn(es, Run(t, es).slots[i])
         || (t.slots[i].phase == Done && SameButWaiter(t.slots[i], Run(t, es).slots[i]))
    decreases |es|
  {
    if es != [] {
      hide Step, SlotsOk, WaitsOk, DebtsOk;
      var n := |es| - 1;
      var before, s := Run(t, es[..n]), Run(t, es).slots[i];
      RunKeepsInv(t, es[..n]);
      StepToDone(before, es[n], i);
      if before.slots[i].phase == Done {
        DoneMeansReplied(t, es[..n], i);
        if k :| 0 <= k < n && ReplyFor(es[..n][k], s) {
          assert ReplyFor(es[k], s);
        }
      }
    }
  }

  lemma StepToDone(t: Table, e: Event, i: nat)
    requires Inv(t) && i < SLOTS && Step(t, e).slots[i].phase == Done
    ensures var s, s0 := Step(t, e).slots[i], t.slots[i];
      if s0.phase == Done then SameButWaiter(s0, s) else ReplyFor(e, s)
  {
  }

  // ---- the waiter ----

  predicate By(e: Event, th: Thread) {
    match e
    case Register(x, _) => x == th
    case Settle(x, _) => x == th
    case Cancel(x, _) => x == th
    case _ => false
  }

  lemma StepKeepsWait(t: Table, e: Event, th: Thread)
    requires Inv(t) && th in t.waits && !By(e, th)
    ensures th in Step(t, e).waits && Step(t, e).waits[th] == t.waits[th]
  {
  }

  /** Nothing other threads do takes a registered waiter's slot from it. */
  lemma {:induction false} WaitIsKept(t: Table, es: seq<Event>, th: Thread)
    requires Inv(t) && th in t.waits && forall e <- es :: !By(e, th)
    ensures Inv(Run(t, es)) && th in Run(t, es).waits && Run(t, es).waits[th] == t.waits[th]
    ensures WaitOk(Run(t, es).slots, th, t.waits[th])
    decreases |es|
  {
    if es != [] {
      WaitIsKept(t, es[..|es| - 1], th);
      StepKeepsWait(Run(t, es[..|es| - 1]), es[|es| - 1], th);
    }
    RunKeepsInv(t, es);
  }

  /** The look that decides ends the wait and the call with it. */
  lemma DecisionEndsTheCall(t: Table, th: Thread, fail: bool)
    requires Inv(t) && th in t.waits
    requires VerdictOf(t.slots[t.waits[th].token], fail) != Undecided
    ensures var t' := Step(t, Settle(th, fail));
      th !in t'.waits && Dead(t', t.waits[th].call) && t'.mem == t.mem
  {
  }

  // ---- the caller's buffer ----

  /** Nobody but call q may write buffer b. */
  predicate BufferOf(t: Table, b: Buffer, q: nat) {
    forall i :: 0 <= i < |t.slots| && t.slots[i].out == Some(b) ==> t.slots[i].call == q
  }

  predicate Hands(e: Event, b: Buffer) {
    e.Begin? && e.out == Some(b)
  }

  lemma StepOnBuffer(t: Table, e: Event, b: Buffer, q: nat)
    requires Inv(t) && b in t.mem && BufferOf(t, b, q) && !Hands(e, b)
    ensures b in Step(t, e).mem && BufferOf(Step(t, e), b, q)
    ensures !Addresses(t, e, q) ==> Step(t, e).mem[b] == t.mem[b]
  {
    hide WaitsOk, DebtsOk, FirstRoom, OnWire;
  }

  lemma {:induction false} DeadCallWritesNothing(t: Table, es: seq<Event>, b: Buffer, q: nat)
    requires Inv(t) && b in t.mem && BufferOf(t, b, q) && NothingPending(t, q)
    requires forall e <- es :: !Hands(e, b)
    ensures b in Run(t, es).mem && Run(t, es).mem[b] == t.mem[b] && BufferOf(Run(t, es), b, q)
    decreases |es|
  {
    if es != [] {
      var n := |es| - 1;
      DeadCallWritesNothing(t, es[..n], b, q);
      RunKeepsInv(t, es[..n]);
      NothingPendingStays(t, es[..n], q);
      StepKeepsNothingPending(Run(t, es[..n]), es[n], q);
      StepOnBuffer(Run(t, es[..n]), es[n], b, q);
    }
  }

  lemma {:induction false} BufferStaysWithCall(t: Table, es: seq<Event>, b: Buffer, q: nat)
    requires Inv(t) && b in t.mem && BufferOf(t, b, q)
    requires forall e <- es :: !Hands(e, b)
    ensures b in Run(t, es).mem && BufferOf(Run(t, es), b, q)
    decreases |es|
  {
    if es != [] {
      BufferStaysWithCall(t, es[..|es| - 1], b, q);
      RunKeepsInv(t, es[..|es| - 1]);
      StepOnBuffer(Run(t, es[..|es| - 1]), es[|es| - 1], b, q);
    }
  }

  /** After erpc_wait has returned, by whatever verdict, and whatever everybody does next,
      the caller's buffer keeps the contents it had at the return, until it is handed to
      another call. */
  lemma BufferIsSafeAfterReturn(t: Table, es: seq<Event>, th: Thread, fail: bool,
                                after: seq<Event>, b: Buffer)
    requires Inv(t) && th in t.waits && b in t.mem && BufferOf(t, b, t.waits[th].call)
    requires forall e <- es :: !By(e, th) && !Hands(e, b)
    requires VerdictOf(Run(t, es).slots[t.waits[th].token], fail) != Undecided
    requires forall e <- after :: !Hands(e, b)
    ensures var back := Run(t, es + [Settle(th, fail)]);
      th !in back.waits && b in back.mem
      && b in Run(back, after).mem && Run(back, after).mem[b] == back.mem[b]
  {
    var q, at := t.waits[th].call, Run(t, es);
    WaitIsKept(t, es, th);
    BufferStaysWithCall(t, es, b, q);
    RunSnoc(t, es, Settle(th, fail));
    DecisionEndsTheCall(at, th, fail);
    StepOnBuffer(at, Settle(th, fail), b, q);
    RunKeepsInv(t, es + [Settle(th, fail)]);
    DeadCallWritesNothing(Step(at, Settle(th, fail)), after, b, q);
  }

  /** A call still pending after a step was pending before it, its buffer as it was. */
  lemma StepPending(t: Table, e: Event, i: nat, q: nat, b: Buffer)
    requires Inv(t) && i < SLOTS && q <= t.nextSeq && Pending(Step(t, e).slots[i], q)
    requires b in t.mem && BufferOf(t, b, q) && !Hands(e, b)
    ensures Pending(t.slots[i], q) && SameRequest(t.slots[i], Step(t, e).slots[i])
    ensures Untouched(t, Step(t, e), i, b)
  {
    hide WaitsOk, DebtsOk, OnWire, FirstRoom, FirstFree;
  }

  predicate Untouched(t: Table, u: Table, i: nat, b: Buffer) {
    && i < |t.slots| && i < |u.slots|
    && t.slots[i].out == u.slots[i].out && t.slots[i].cap == u.slots[i].cap
    && b in t.mem && b in u.mem && t.mem[b] == u.mem[b]
  }

  lemma UntouchedChains(t: Table, u: Table, v: Table, i: nat, b: Buffer)
    requires Untouched(t, u, i, b) && Untouched(u, v, i, b)
    ensures Untouched(t, v, i, b)
  {
  }

  lemma {:induction false} PendingKeepsBuffer(t: Table, es: seq<Event>, i: nat, q: nat, b: Buffer)
    requires Inv(t) && i < SLOTS && q <= t.nextSeq && Pending(Run(t, es).slots[i], q)
    requires b in t.mem && BufferOf(t, b, q) && forall e <- es :: !Hands(e, b)
    ensures Untouched(t, Run(t, es), i, b)
    decreases |es|
  {
    InvHasSlots(t);
    if es != [] {
      hide Step, Inv, BufferOf, Pending, Untouched, SameRequest;
      var head := es[..|es| - 1];
      RunKeepsInv(t, head);
      BufferStaysWithCall(t, head, b, q);
      SeqGrows(t, head);
      StepPending(Run(t, head), es[|es| - 1], i, q, b);
      PendingKeepsBuffer(t, head, i, q, b);
      UntouchedChains(t, Run(t, head), Run(t, es), i, b);
    }
  }

  lemma SeqStep(t: Table, e: Event)
    ensures t.nextSeq <= Step(t, e).nextSeq
  {
  }

  lemma {:induction false} SeqGrows(t: Table, es: seq<Event>)
    ensures t.nextSeq <= Run(t, es).nextSeq
    decreases |es|
  {
    if es != [] {
      hide Step;
      SeqGrows(t, es[..|es| - 1]);
      SeqStep(Run(t, es[..|es| - 1]), es[|es| - 1]);
    }
  }

  /** The reply landing: from pending to done in one step, with the copy. */
  lemma StepDelivers(t: Table, e: Event, i: nat, b: Buffer)
    requires Inv(t) && i < SLOTS && Step(t, e).slots[i].phase == Done && t.slots[i].phase != Done
    requires b in t.mem && t.slots[i].out == Some(b)
    ensures e.Reply? && t.slots[i].cap <= |t.mem[b]|
    ensures Pending(t.slots[i], Step(t, e).slots[i].call) && ReplyFor(e, Step(t, e).slots[i])
    ensures b in Step(t, e).mem
    ensures Step(t, e).mem[b] == Copied(t.mem[b], e.payload, t.slots[i].cap)
  {
  }

  /** Done has nothing pending behind it. */
  lemma DoneIsAlone(t: Table, i: nat)
    requires Inv(t) && i < SLOTS && t.slots[i].phase == Done
    ensures NothingPending(t, t.slots[i].call)
  {
  }

  /** Step k of the run is the reply, and the buffer holds what it brought. */
  predicate DeliveredBy(t: Table, es: seq<Event>, i: nat, b: Buffer, k: nat)
    requires i < |t.slots|
  {
    && k < |es| && ReplyFor(es[k], Run(t, es).slots[i])
    && b in t.mem && b in Run(t, es).mem && t.slots[i].cap <= |t.mem[b]|
    && Run(t, es).mem[b] == Copied(t.mem[b], es[k].payload, t.slots[i].cap)
  }

  /** What a completed call finds in its buffer is its own reply's payload, cut to the
      room there was, and nothing else's. */
  lemma {:induction false} ReplyIsDelivered(t: Table, es: seq<Event>, i: nat, q: nat, b: Buffer)
    requires Inv(t) && i < SLOTS && Pending(t.slots[i], q) && t.slots[i].out == Some(b)
    requires BufferOf(t, b, q) && b in t.mem && q <= t.nextSeq && forall e <- es :: !Hands(e, b)
    requires Run(t, es).slots[i].phase == Done && Run(t, es).slots[i].call == q
    ensures exists k: nat :: DeliveredBy(t, es, i, b, k)
    decreases |es|
  {
    hide Step, Inv, BufferOf, NothingPending, Addresses, Copied;
    InvHasSlots(t);
    var n := |es| - 1;
    var head, before := es[..n], Run(t, es[..n]);
    RunKeepsInv(t, head);
    BufferStaysWithCall(t, head, b, q);
    StepToDone(before, es[n], i);
    if before.slots[i].phase == Done {
      ReplyIsDelivered(t, head, i, q, b);
      var k: nat :| DeliveredBy(t, head, i, b, k);
      DoneIsAlone(before, i);
      InvHasSlots(before);
      StepKeepsNothingPending(before, es[n], q);
      StepOnBuffer(before, es[n], b, q);
      assert DeliveredBy(t, es, i, b, k);
    } else {
      SeqGrows(t, head);
      WasPending(before, es[n], i);
      PendingKeepsBuffer(t, head, i, q, b);
      StepDelivers(before, es[n], i, b);
      assert DeliveredBy(t, es, i, b, n);
    }
  }

  lemma WasPending(t: Table, e: Event, i: nat)
    requires Inv(t) && i < SLOTS && Step(t, e).slots[i].phase == Done && t.slots[i].phase != Done
    ensures Pending(t.slots[i], Step(t, e).slots[i].call)
  {
  }

  // ---- the wire ledger ----

  predicate Sends(t: Table, e: Event, d: Debt) {
    && e.Send? && Eligible(t, e.index)
    && d == Debt(t.slots[e.index].call, t.slots[e.index].bodyLen + 4)
  }

  predicate Answers(e: Event, q: nat) {
    (e.Reply? && e.call == q) || e.AbandonAll? || e.Opened?
  }

  /** d was written at step k and neither answered nor wiped since. */
  predicate OutstandingSince(t: Table, es: seq<Event>, d: Debt, k: nat) {
    && k < |es| && Sends(Run(t, es[..k]), es[k], d)
    && forall m :: k < m < |es| ==> !Answers(es[m], d.call)
  }

  lemma LedgerStep(t: Table, e: Event, d: Debt)
    requires |t.debts| == DEBTS
    ensures Some(d) in Step(t, e).debts
       <==> Sends(t, e, d) || (Some(d) in t.debts && !Answers(e, d.call))
  {
    hide OnWire, FirstRoom, FirstSent, FirstFree;
    var t' := Step(t, e);
    if Sends(t, e, d) {
      assert t'.debts[FirstRoom(t.debts)] == Some(d);
    } else if Some(d) in t.debts && !Answers(e, d.call) {
      var k :| 0 <= k < DEBTS && t.debts[k] == Some(d);
      assert t'.debts[k] == Some(d);
    }
  }

  /** The ledger is exactly the set of frames written and not yet answered, whatever has
      become of the callers. */
  lemma {:induction false} LedgerIsOutstanding(t: Table, es: seq<Event>, d: Debt)
    requires Inv(t) && t.debts == NoDebts()
    ensures Some(d) in Run(t, es).debts <==> exists k: nat :: OutstandingSince(t, es, d, k)
    decreases |es|
  {
    if es != [] {
      hide Step, Inv, Sends, Answers, OutstandingSince;
      var n := |es| - 1;
      var before := Run(t, es[..n]);
      LedgerIsOutstanding(t, es[..n], d);
      RunKeepsInv(t, es[..n]);
      InvHasSlots(before);
      LedgerStep(before, es[n], d);
      if Some(d) in Run(t, es).debts {
        if Sends(before, es[n], d) {
          OutstandingSnoc(t, es, d, n);
        } else {
          var k: nat :| OutstandingSince(t, es[..n], d, k);
          OutstandingSnoc(t, es, d, k);
        }
      }
      if k: nat :| OutstandingSince(t, es, d, k) {
        OutstandingSnoc(t, es, d, k);
      }
    }
  }

  lemma OutstandingSnoc(t: Table, es: seq<Event>, d: Debt, k: nat)
    requires es != []
    ensures var n := |es| - 1;
      OutstandingSince(t, es, d, k)
      <==> if k == n then Sends(Run(t, es[..n]), es[n], d)
           else OutstandingSince(t, es[..n], d, k) && !Answers(es[n], d.call)
  {
    hide Run, Sends, Answers;
    var n := |es| - 1;
    if k < n { assert es[..n][..k] == es[..k] && es[..n][k] == es[k]; }
    if k < n && OutstandingSince(t, es[..n], d, k) && !Answers(es[n], d.call) {
      forall m | k < m < |es| ensures !Answers(es[m], d.call) {
        if m < n { assert es[m] == es[..n][m]; }
      }
    }
    if k < n && OutstandingSince(t, es, d, k) {
      forall m | k < m < n ensures !Answers(es[..n][m], d.call) {
        assert es[m] == es[..n][m];
      }
    }
  }

  predicate AtMostOne(debts: seq<Option<Debt>>) {
    forall j, k :: 0 <= j < k < |debts| ==> debts[j] == None || debts[k] == None
  }

  predicate WithinBudget(t: Table) {
    AtMostOne(t.debts) || OnWire(t.debts) <= t.budget
  }

  lemma {:induction false} OnWirePut(debts: seq<Option<Debt>>, k: nat, d: Debt)
    requires k < |debts| && debts[k] == None
    ensures OnWire(debts[k := Some(d)]) == OnWire(debts) + d.len
    decreases |debts|
  {
    var n := |debts| - 1;
    if k == n {
      assert debts[k := Some(d)][..n] == debts[..n];
    } else {
      OnWirePut(debts[..n], k, d);
      assert debts[k := Some(d)][..n] == debts[..n][k := Some(d)];
    }
  }

  lemma {:induction false} OnWireCleared(debts: seq<Option<Debt>>, q: nat)
    ensures OnWire(Cleared(debts, q)) <= OnWire(debts)
    decreases |debts|
  {
    if debts != [] {
      var n := |debts| - 1;
      OnWireCleared(debts[..n], q);
      assert Cleared(debts, q)[..n] == Cleared(debts[..n], q);
    }
  }

  /** Nothing on the wire means the ledger is empty. */
  lemma {:induction false} OnWireZero(debts: seq<Option<Debt>>, k: nat)
    requires k < |debts| && OnWire(debts) == 0
    requires forall j :: 0 <= j < |debts| && debts[j].Some? ==> 0 < debts[j].value.len
    ensures debts[k] == None
    decreases |debts|
  {
    if k < |debts| - 1 { OnWireZero(debts[..|debts| - 1], k); }
  }

  /** The 16-bit sum of the ledger never wraps. */
  lemma {:induction false} OnWireFits(debts: seq<Option<Debt>>)
    requires forall j :: 0 <= j < |debts| && debts[j].Some? ==> debts[j].value.len <= 12 + REQ_MAX
    ensures OnWire(debts) <= |debts| * (12 + REQ_MAX)
    decreases |debts|
  {
    if debts != [] { OnWireFits(debts[..|debts| - 1]); }
  }

  lemma SendKeepsBudget(t: Table, i: nat)
    requires Inv(t) && Eligible(t, i)
    ensures WithinBudget(Step(t, Send(i)))
  {
    var d := Debt(t.slots[i].call, t.slots[i].bodyLen + 4);
    OnWirePut(t.debts, FirstRoom(t.debts), d);
    if OnWire(t.debts) == 0 {
      forall k | 0 <= k < DEBTS ensures t.debts[k] == None { OnWireZero(t.debts, k); }
    }
  }

  lemma StepKeepsBudget(t: Table, e: Event)
    requires Inv(t) && WithinBudget(t) && !e.SetGen?
    ensures WithinBudget(Step(t, e))
  {
    hide SlotsOk, WaitsOk, FirstSent, FirstFree;
    match e
    case Send(i) =>
      if Eligible(t, i) { SendKeepsBudget(t, i); }
    case Reply(q, _, _, _) => OnWireCleared(t.debts, q);
    case AbandonAll => assert AtMostOne(NoDebts());
    case Opened(_) => assert AtMostOne(NoDebts());
    case _ =>
  }

  /** While the budget is not changed, either one lone frame is outstanding, whatever its
      size, or everything outstanding fits the budget. */
  lemma {:induction false} RunKeepsBudget(t: Table, es: seq<Event>)
    requires Inv(t) && WithinBudget(t) && forall e <- es :: !e.SetGen?
    ensures WithinBudget(Run(t, es)) && Run(t, es).budget == t.budget
    decreases |es|
  {
    if es != [] {
      RunKeepsBudget(t, es[..|es| - 1]);
      RunKeepsInv(t, es[..|es| - 1]);
      StepKeepsBudget(Run(t, es[..|es| - 1]), es[|es| - 1]);
    }
  }
}
