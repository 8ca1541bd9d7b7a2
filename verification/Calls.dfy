/** The eRPC slot table and wire ledger as one atomic step per locked section.  Threads
    appear only through the sections they run, in any order whatever. */
module Calls {
  import opened Bytes

  const SLOTS := 4
  const DEBTS := 8
  const REQ_MAX := 320
  const BUDGET_SAFE := 127
  const BUDGET_FAST := 4096

  type Thread = nat
  type Buffer = nat

  datatype Phase = Free | Queued | Sent | Done | Abandoned

  datatype Slot = Slot(
    phase: Phase,
    service: Byte,
    request: Byte,
    call: nat,                 // its sequence number: which call this slot is serving
    out: Option<Buffer>,
    cap: nat,
    replyLen: nat,
    bodyLen: nat,
    waiter: Option<Thread>)

  /** A request frame written and not yet answered. */
  datatype Debt = Debt(call: nat, len: nat)

  /** Where a thread inside erpc_wait is standing. */
  datatype Wait = Wait(token: nat, call: nat)

  datatype Table = Table(
    slots: seq<Slot>,
    debts: seq<Option<Debt>>,
    nextSeq: nat,
    linkUp: bool,
    budget: nat,
    waits: map<Thread, Wait>,
    mem: map<Buffer, seq<Byte>>)

  datatype Event =
    | Begin(service: Byte, request: Byte, reqLen: nat, out: Option<Buffer>, cap: nat)
    | Register(thread: Thread, token: nat)
    | Settle(thread: Thread, fail: bool)
    | Cancel(thread: Thread, token: nat)
    | Send(index: nat)
    | Reply(call: nat, service: Byte, request: Byte, payload: seq<Byte>)
    | AbandonAll
    | Opened(carries: bool)
    | SetGen(gen: nat)

  // ---- looking things up ----

  predicate Live(s: Slot) { s.phase != Free }

  /** The first index at or after `from` whose slot satisfies the test, or the length. */
  function FirstFree(slots: seq<Slot>, from: nat := 0): (i: nat)
    requires from <= |slots|
    ensures from <= i <= |slots|
    ensures i < |slots| ==> slots[i].phase == Free
    ensures forall k :: from <= k < i ==> slots[k].phase != Free
    decreases |slots| - from
  {
    if from == |slots| || slots[from].phase == Free then from else FirstFree(slots, from + 1)
  }

  function FirstSent(slots: seq<Slot>, q: nat, from: nat := 0): (i: nat)
    requires from <= |slots|
    ensures from <= i <= |slots|
    ensures i < |slots| ==> slots[i].phase == Sent && slots[i].call == q
    ensures forall k :: from <= k < i ==> !(slots[k].phase == Sent && slots[k].call == q)
    decreases |slots| - from
  {
    if from == |slots| || (slots[from].phase == Sent && slots[from].call == q) then from
    else FirstSent(slots, q, from + 1)
  }

  function FirstRoom(debts: seq<Option<Debt>>, from: nat := 0): (i: nat)
    requires from <= |debts|
    ensures from <= i <= |debts|
    ensures i < |debts| ==> debts[i] == None
    ensures forall k :: from <= k < i ==> debts[k] != None
    decreases |debts| - from
  {
    if from == |debts| || debts[from] == None then from else FirstRoom(debts, from + 1)
  }

  function LenOf(d: Option<Debt>): nat {
    match d
    case None => 0
    case Some(debt) => debt.len
  }

  function OnWire(debts: seq<Option<Debt>>): nat {
    if debts == [] then 0 else OnWire(debts[..|debts| - 1]) + LenOf(debts[|debts| - 1])
  }

  /** May this slot's frame go out now? */
  predicate Eligible(t: Table, i: nat) {
    && t.linkUp && i < |t.slots| && t.slots[i].phase == Queued
    && FirstRoom(t.debts) < |t.debts|
    && (OnWire(t.debts) == 0 || OnWire(t.debts) + t.slots[i].bodyLen + 4 <= t.budget)
  }

  // ---- the sections ----

  function Released(s: Slot): Slot {
    s.(phase := Free, out := None, cap := 0, waiter := None)
  }

  function Torn(s: Slot): Slot {
    if s.phase == Free then s
    else if s.waiter == None then Released(s)
    else s.(phase := Abandoned, out := None, cap := 0)
  }

  function Cleared(debts: seq<Option<Debt>>, q: nat): (r: seq<Option<Debt>>)
    ensures |r| == |debts|
  {
    seq(|debts|, k requires 0 <= k < |debts| =>
      if debts[k].Some? && debts[k].value.call == q then None else debts[k])
  }

  function NoDebts(): (r: seq<Option<Debt>>)
    ensures |r| == DEBTS
  {
    seq(DEBTS, k => None)
  }

  function Min(a: nat, b: nat): nat { if a < b then a else b }

  /** The caller's buffer after a reply of which it has room for the first `cap` bytes. */
  function Copied(was: seq<Byte>, payload: seq<Byte>, cap: nat): seq<Byte>
    requires cap <= |was|
  {
    payload[..Min(|payload|, cap)] + was[Min(|payload|, cap)..]
  }

  predicate BufferFits(mem: map<Buffer, seq<Byte>>, out: Option<Buffer>, cap: nat) {
    out.Some? ==> out.value in mem && cap <= |mem[out.value]|
  }

  datatype Verdict = Undecided | Replied(len: nat) | TornDown | GaveUp

  /** What one locked look at the slot decides for its waiter. */
  function VerdictOf(s: Slot, fail: bool): Verdict {
    if s.phase == Done then Replied(s.replyLen)
    else if s.phase == Abandoned then TornDown
    else if fail then GaveUp
    else Undecided
  }

  /** A token a thread may start waiting on, or cancel: live, and nobody else's. */
  predicate MayTake(t: Table, th: Thread, token: nat) {
    && token < |t.slots| && Live(t.slots[token]) && th !in t.waits
    && (t.slots[token].waiter == None || t.slots[token].waiter == Some(th))
  }

  predicate MayBegin(t: Table, e: Event)
    requires e.Begin?
  {
    && t.linkUp && e.reqLen <= REQ_MAX && BufferFits(t.mem, e.out, e.cap)
    && FirstFree(t.slots) < |t.slots|
  }

  /** The slot a reply is for: still on the wire, same sequence, same service and request. */
  function Addressee(t: Table, e: Event): (i: Option<nat>)
    requires e.Reply?
    ensures i.Some? ==> i.value < |t.slots| && t.slots[i.value].phase == Sent
    ensures i.Some? ==> t.slots[i.value].call == e.call
    ensures i.Some? ==> t.slots[i.value].service == e.service
    ensures i.Some? ==> t.slots[i.value].request == e.request
  {
    var i := FirstSent(t.slots, e.call);
    if i < |t.slots| && t.slots[i].service == e.service && t.slots[i].request == e.request
    then Some(i) else None
  }

  function Step(t: Table, e: Event): (r: Table)
    ensures |r.slots| == |t.slots|
  {
    match e
    case Begin(service, request, reqLen, out, cap) =>
      if !MayBegin(t, e) then t
      else
        var s := Slot(Queued, service, request, t.nextSeq + 1, out, cap, 0, 8 + reqLen, None);
        t.(slots := t.slots[FirstFree(t.slots) := s], nextSeq := t.nextSeq + 1)
    case Register(th, token) =>
      if !MayTake(t, th, token) then t
      else t.(slots := t.slots[token := t.slots[token].(waiter := Some(th))],
              waits := t.waits[th := Wait(token, t.slots[token].call)])
    case Settle(th, fail) =>
      if th !in t.waits || t.waits[th].token >= |t.slots| then t
      else
        var i := t.waits[th].token;
        if VerdictOf(t.slots[i], fail) == Undecided then t
        else t.(slots := t.slots[i := Released(t.slots[i])], waits := t.waits - {th})
    case Cancel(th, token) =>
      if !MayTake(t, th, token) then t
      else t.(slots := t.slots[token := Released(t.slots[token])])
    case Send(i) =>
      if !Eligible(t, i) then t
      else
        var s := t.slots[i];
        t.(slots := t.slots[i := s.(phase := Sent)],
           debts := t.debts[FirstRoom(t.debts) := Some(Debt(s.call, s.bodyLen + 4))])
    case Reply(q, _, _, payload) =>
      var t' := t.(debts := Cleared(t.debts, q));
      var i := Addressee(t, e);
      if i == None then t'
      else
        var s := t.slots[i.value];
        t'.(slots := t.slots[i.value := s.(phase := Done, replyLen := |payload|)],
            mem := if s.out.Some? && BufferFits(t.mem, s.out, s.cap)
                   then t.mem[s.out.value := Copied(t.mem[s.out.value], payload, s.cap)]
                   else t.mem)
    case AbandonAll =>
      t.(linkUp := false, debts := NoDebts(),
         slots := seq(|t.slots|, k requires 0 <= k < |t.slots| => Torn(t.slots[k])))
    case Opened(carries) => t.(debts := NoDebts(), linkUp := carries)
    case SetGen(gen) => t.(budget := if gen >= 4 then BUDGET_FAST else BUDGET_SAFE)
  }

  function Run(t: Table, es: seq<Event>): (r: Table)
    ensures |r.slots| == |t.slots|
  {
    if es == [] then t else Step(Run(t, es[..|es| - 1]), es[|es| - 1])
  }

  // ---- what every section keeps ----

  predicate SlotOk(s: Slot, nextSeq: nat, mem: map<Buffer, seq<Byte>>) {
    && (Live(s) ==> 0 < s.call <= nextSeq && s.bodyLen <= 8 + REQ_MAX)
    && BufferFits(mem, s.out, s.cap)
    && (s.phase in {Free, Abandoned} ==> s.out == None)
    && (s.phase == Free ==> s.waiter == None)
  }

  predicate Distinct(slots: seq<Slot>) {
    forall i, j :: 0 <= i < j < |slots| && Live(slots[i]) && Live(slots[j]) ==>
      slots[i].call != slots[j].call
  }

  /** Live slots serve different calls. */
  predicate SlotsOk(slots: seq<Slot>, nextSeq: nat, mem: map<Buffer, seq<Byte>>) {
    && |slots| == SLOTS
    && (forall i :: 0 <= i < SLOTS ==> SlotOk(slots[i], nextSeq, mem))
    && Distinct(slots)
  }

  /** A thread inside its wait is the registered waiter of that very call. */
  predicate WaitOk(slots: seq<Slot>, th: Thread, w: Wait) {
    && w.token < |slots| && Live(slots[w.token])
    && slots[w.token].waiter == Some(th) && slots[w.token].call == w.call
  }

  predicate WaitsOk(slots: seq<Slot>, waits: map<Thread, Wait>) {
    && (forall th <- waits :: WaitOk(slots, th, waits[th]))
    && (forall i :: 0 <= i < |slots| && slots[i].waiter.Some? ==>
          slots[i].waiter.value in waits && waits[slots[i].waiter.value].token == i)
  }

  predicate DebtOk(d: Debt, slots: seq<Slot>, nextSeq: nat) {
    && d.call <= nextSeq && 0 < d.len <= 12 + REQ_MAX
    && (forall i :: 0 <= i < |slots| && slots[i].phase == Queued ==> slots[i].call != d.call)
  }

  /** No call owes twice, and a queued call owes nothing yet. */
  predicate DebtsOk(debts: seq<Option<Debt>>, slots: seq<Slot>, nextSeq: nat) {
    && |debts| == DEBTS
    && (forall k :: 0 <= k < DEBTS && debts[k].Some? ==> DebtOk(debts[k].value, slots, nextSeq))
    && (forall j, k :: 0 <= j < k < DEBTS && debts[j].Some? && debts[k].Some? ==>
          debts[j].value.call != debts[k].value.call)
  }

  predicate Inv(t: Table) {
    && SlotsOk(t.slots, t.nextSeq, t.mem)
    && WaitsOk(t.slots, t.waits)
    && DebtsOk(t.debts, t.slots, t.nextSeq)
  }

  lemma BeginKeepsSlots(t: Table, e: Event)
    requires SlotsOk(t.slots, t.nextSeq, t.mem) && e.Begin?
    ensures var t' := Step(t, e); SlotsOk(t'.slots, t'.nextSeq, t'.mem)
  {
    assert forall i :: 0 <= i < SLOTS ==> SlotOk(t.slots[i], t.nextSeq + 1, t.mem);
  }

  lemma ReplyKeepsSlots(t: Table, e: Event)
    requires SlotsOk(t.slots, t.nextSeq, t.mem) && e.Reply?
    ensures var t' := Step(t, e); SlotsOk(t'.slots, t'.nextSeq, t'.mem)
  {
    var t' := Step(t, e);
    assert forall b <- t.mem :: b in t'.mem && |t'.mem[b]| == |t.mem[b]|;
  }

  lemma StepKeepsSlots(t: Table, e: Event)
    requires SlotsOk(t.slots, t.nextSeq, t.mem)
    ensures var t' := Step(t, e); SlotsOk(t'.slots, t'.nextSeq, t'.mem)
  {
    match e
    case Begin(_, _, _, _, _) => BeginKeepsSlots(t, e);
    case Register(_, _) =>
    case Settle(_, _) =>
    case Cancel(_, _) =>
    case Send(_) =>
    case Reply(_, _, _, _) => ReplyKeepsSlots(t, e);
    case AbandonAll =>
    case Opened(_) =>
    case SetGen(_) =>
  }

  lemma StepKeepsWaits(t: Table, e: Event)
    requires SlotsOk(t.slots, t.nextSeq, t.mem) && WaitsOk(t.slots, t.waits)
    ensures var t' := Step(t, e); WaitsOk(t'.slots, t'.waits)
  {
    match e
    case Begin(_, _, _, _, _) => BeginKeepsWaits(t, e);
    case Register(th, token) => RegisterKeepsWaits(t, th, token);
    case Settle(th, fail) => SettleKeepsWaits(t, th, fail);
    case AbandonAll => AbandonKeepsWaits(t);
    case _ => OtherKeepsWaits(t, e);
  }

  lemma BeginKeepsWaits(t: Table, e: Event)
    requires SlotsOk(t.slots, t.nextSeq, t.mem) && WaitsOk(t.slots, t.waits) && e.Begin?
    ensures WaitsOk(Step(t, e).slots, Step(t, e).waits)
  {
  }

  lemma RegisterKeepsWaits(t: Table, th: Thread, token: nat)
    requires WaitsOk(t.slots, t.waits)
    ensures var t' := Step(t, Register(th, token)); WaitsOk(t'.slots, t'.waits)
  {
  }

  lemma AbandonKeepsWaits(t: Table)
    requires WaitsOk(t.slots, t.waits)
    ensures WaitsOk(Step(t, AbandonAll).slots, t.waits)
  {
  }

  lemma OtherKeepsWaits(t: Table, e: Event)
    requires SlotsOk(t.slots, t.nextSeq, t.mem) && WaitsOk(t.slots, t.waits)
    requires e.Cancel? || e.Send? || e.Reply? || e.Opened? || e.SetGen?
    ensures var t' := Step(t, e); WaitsOk(t'.slots, t'.waits)
  {
  }

  lemma SettleKeepsWaits(t: Table, th: Thread, fail: bool)
    requires SlotsOk(t.slots, t.nextSeq, t.mem) && WaitsOk(t.slots, t.waits)
    ensures var t' := Step(t, Settle(th, fail)); WaitsOk(t'.slots, t'.waits)
  {
  }

  lemma SendKeepsDebts(t: Table, i: nat)
    requires SlotsOk(t.slots, t.nextSeq, t.mem) && DebtsOk(t.debts, t.slots, t.nextSeq)
    ensures var t' := Step(t, Send(i)); DebtsOk(t'.debts, t'.slots, t'.nextSeq)
  {
  }

  lemma BeginKeepsDebts(t: Table, e: Event)
    requires SlotsOk(t.slots, t.nextSeq, t.mem) && DebtsOk(t.debts, t.slots, t.nextSeq) && e.Begin?
    ensures var t' := Step(t, e); DebtsOk(t'.debts, t'.slots, t'.nextSeq)
  {
  }

  lemma ReplyKeepsDebts(t: Table, e: Event)
    requires SlotsOk(t.slots, t.nextSeq, t.mem) && DebtsOk(t.debts, t.slots, t.nextSeq) && e.Reply?
    ensures var t' := Step(t, e); DebtsOk(t'.debts, t'.slots, t'.nextSeq)
  {
    hide SlotOk, Distinct;
  }

  lemma StepKeepsDebts(t: Table, e: Event)
    requires SlotsOk(t.slots, t.nextSeq, t.mem) && DebtsOk(t.debts, t.slots, t.nextSeq)
    ensures var t' := Step(t, e); DebtsOk(t'.debts, t'.slots, t'.nextSeq)
  {
    hide SlotOk, Distinct;
    match e
    case Begin(_, _, _, _, _) => BeginKeepsDebts(t, e);
    case Send(i) => SendKeepsDebts(t, i);
    case Reply(_, _, _, _) => ReplyKeepsDebts(t, e);
    case _ =>
  }

  lemma {:induction false} RunKeepsInv(t: Table, es: seq<Event>)
    requires Inv(t)
    ensures Inv(Run(t, es))
    decreases |es|
  {
    if es != [] {
      hide Step, SlotsOk, WaitsOk, DebtsOk;
      var before := Run(t, es[..|es| - 1]);
      RunKeepsInv(t, es[..|es| - 1]);
      StepKeepsSlots(before, es[|es| - 1]);
      StepKeepsWaits(before, es[|es| - 1]);
      StepKeepsDebts(before, es[|es| - 1]);
    }
  }
}
