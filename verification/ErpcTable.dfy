/** The eRPC client's locked sections, in place on the slot and ledger arrays, each proved
    to be one step of Calls; and erpc_wait, which strings them together while everybody
    else keeps running. */
module ErpcTable {
  import opened Bytes
  import opened Crc16
  import opened Calls
  import opened CallRuns
  import opened CallProgress
  import Frames

  const CODEC_VERSION: Byte := 1
  const MSGTYPE_REPLY := 2

  /** The message header word, low byte first: type, request, service, codec version. */
  predicate IsReply(body: seq<Byte>, crc: int) {
    && |body| >= 8 && Checksum(body) == crc
    && body[3] == CODEC_VERSION && body[0] == MSGTYPE_REPLY
  }

  /** A reply to the call slot `s` has on the wire: what its request carried, byte for byte,
      but for the type. */
  predicate IsReplyTo(body: seq<Byte>, s: Slot) {
    && s.phase == Sent && |body| >= 8 && body[..4] == [MSGTYPE_REPLY, s.request, s.service, CODEC_VERSION]
    && FromLe32(body[4..8]) == s.call
  }

  function ReplyIn(body: seq<Byte>): Event
    requires |body| >= 8
  {
    Reply(FromLe32(body[4..8]), body[2], body[1], body[8..])
  }

  /** A request body and its checksum, built under the lock and sent later. */
  datatype Built = Built(body: seq<Byte>, crc: int)

  const INVOCATION: Byte := 0

  /** What slot `s` was filled for, in wire form: codec version, service, request and type,
      then the sequence number's low 32 bits. */
  predicate IsRequest(b: Built, s: Slot) {
    && |b.body| == s.bodyLen >= 8 && b.crc == Checksum(b.body)
    && b.body[..8] == [INVOCATION, s.request, s.service, CODEC_VERSION] + Le32(s.call % WORD)
  }

  predicate AllBuilt(slots: seq<Slot>, built: seq<Built>) {
    && |slots| <= |built|
    && forall i :: 0 <= i < |slots| && slots[i].phase == Queued ==> IsRequest(built[i], slots[i])
  }

  function RequestBody(service: Byte, request: Byte, call: nat, req: seq<Byte>): seq<Byte> {
    Le32(FromLe32([INVOCATION, request, service, CODEC_VERSION])) + Le32(call % WORD) + req
  }

  /** The frame written is one its receiver recovers (Frames.FramesAreRecovered), and its
      body is the request the slot was filled for. */
  predicate Wrote(before: seq<Byte>, after: seq<Byte>, b: Built, s: Slot) {
    var f := Frames.Frame(Frames.Erpc, b.body);
    Frames.WellFormed(f) && after == before + Frames.Wire(f) && IsRequest(b, s)
  }

  lemma RequestIsBuilt(s: Slot, req: seq<Byte>)
    requires s.bodyLen == 8 + |req|
    ensures var body := RequestBody(s.service, s.request, s.call, req);
      IsRequest(Built(body, Checksum(body)), s) && body[8..] == req
  {
    hide Le32, FromLe32, Checksum;
    Le32OfFromLe32([INVOCATION, s.request, s.service, CODEC_VERSION]);
  }

  /** The k-th slot the round robin looks at. */
  function Turn(rr: nat, k: nat): nat {
    (rr + k) % SLOTS
  }

  datatype Outcome = Refused | Finished(verdict: Verdict)

  class Client {
    const slots: array<Slot>
    const debts: array<Option<Debt>>
    const built: array<Built>         // each slot's request body
    var nextSeq: nat
    var linkUp: bool
    var budget: nat
    var rr: nat                       // round-robin start of the next send
    var waits: map<Thread, Wait>      // the program counters of threads in erpc_wait
    var mem: map<Buffer, seq<Byte>>   // the callers' reply buffers
    var wire: seq<Byte>               // what went to the UART

    ghost function View(): Table
      reads this, slots, debts
    {
      Table(slots[..], debts[..], nextSeq, linkUp, budget, waits, mem)
    }

    ghost predicate Valid()
      reads this, slots, debts, built
    {
      && slots.Length == built.Length == SLOTS && debts.Length == DEBTS && rr < SLOTS
      && Inv(View()) && AllBuilt(slots[..], built[..])
    }

    constructor (buffers: map<Buffer, seq<Byte>>)
      ensures Valid() && fresh(slots) && fresh(debts) && fresh(built)
      ensures View().debts == NoDebts() && !linkUp && mem == buffers && waits == map[]
      ensures wire == []
    {
      var free := Slot(Free, 0, 0, 0, None, 0, 0, 0, None);
      slots := new Slot[SLOTS](_ => free);
      debts := new Option<Debt>[DEBTS](_ => None);
      built := new Built[SLOTS](_ => Built([], 0));
      nextSeq, linkUp, budget, rr, waits, mem, wire := 0, false, BUDGET_SAFE, 0, map[], buffers, [];
    }

    // ---- the wire ledger ----

    /** The 16-bit accumulator of the source; it never actually wraps. */
    method BytesOnWire() returns (sum: nat)
      requires Valid()
      ensures sum == OnWire(debts[..])
    {
      sum := 0;
      for i := 0 to DEBTS
        invariant sum == OnWire(debts[..i]) < 0x1_0000
      {
        assert debts[..i + 1][..i] == debts[..i];
        OnWireFits(debts[..i + 1]);
        if debts[i].Some? { sum := (sum + debts[i].value.len) % 0x1_0000; }
      }
      assert debts[..DEBTS] == debts[..];
    }

    method DebtSlot() returns (k: nat)
      requires Valid()
      ensures k == FirstRoom(debts[..])
    {
      k := 0;
      while k < DEBTS && debts[k].Some?
        invariant k <= DEBTS && forall j :: 0 <= j < k ==> debts[j].Some?
      {
        k := k + 1;
      }
    }

    method DebtClear(q: nat)
      requires debts.Length == DEBTS && slots.Length == SLOTS
      modifies debts
      ensures debts[..] == Cleared(old(debts[..]), q)
    {
      for i := 0 to DEBTS
        invariant forall k :: 0 <= k < i ==> debts[k] == Cleared(old(debts[..]), q)[k]
        invariant forall k :: i <= k < DEBTS ==> debts[k] == old(debts[k])
      {
        if debts[i].Some? && debts[i].value.call == q { debts[i] := None; }
      }
    }

    method DebtReset()
      requires debts.Length == DEBTS
      modifies debts
      ensures debts[..] == NoDebts()
    {
      forall i | 0 <= i < DEBTS { debts[i] := None; }
    }

    // ---- the callers' sections ----

    method FreeSlot() returns (i: nat)
      requires Valid()
      ensures i == FirstFree(slots[..])
    {
      i := 0;
      while i < SLOTS && slots[i].phase != Free
        invariant i <= SLOTS && forall k :: 0 <= k < i ==> slots[k].phase != Free
      {
        i := i + 1;
      }
    }

    method BeginCall(service: Byte, request: Byte, req: seq<Byte>, out: Option<Buffer>, cap: nat)
      returns (token: Option<nat>)
      requires Valid() && BufferFits(mem, out, cap)
      modifies `nextSeq, slots, built
      ensures Valid() && View() == Step(old(View()), Begin(service, request, |req|, out, cap))
      ensures token == if MayBegin(old(View()), Begin(service, request, |req|, out, cap))
                       then Some(FirstFree(old(slots[..]))) else None
      ensures token.Some? ==> token.value < SLOTS && IsRequest(built[token.value], slots[token.value])
      ensures token.Some? ==> built[token.value].body[8..] == req
    {
      hide Inv, Step, AllBuilt, IsRequest;
      token := None;
      if |req| <= REQ_MAX && linkUp {
        var i := FreeSlot();
        if i < SLOTS {
          Fill(i, service, request, req, out, cap);
          return Some(i);
        }
      }
      RefusedBegin(View(), Begin(service, request, |req|, out, cap));
    }

    method Fill(i: nat, service: Byte, request: Byte, req: seq<Byte>, out: Option<Buffer>, cap: nat)
      requires Valid() && MayBegin(View(), Begin(service, request, |req|, out, cap))
      requires i == FirstFree(slots[..])
      modifies `nextSeq, slots, built
      ensures Valid() && View() == Step(old(View()), Begin(service, request, |req|, out, cap))
      ensures IsRequest(built[i], slots[i]) && built[i].body[8..] == req
    {
      hide Inv, Checksum, RequestBody, IsRequest;
      StepKeepsInv(View(), Begin(service, request, |req|, out, cap));
      nextSeq := nextSeq + 1;
      var body := RequestBody(service, request, nextSeq, req);
      built[i] := Built(body, Checksum(body));
      slots[i] := Slot(Queued, service, request, nextSeq, out, cap, 0, 8 + |req|, None);
      RequestIsBuilt(slots[i], req);
    }

    method RegisterWaiter(th: Thread, token: nat) returns (ok: bool)
      requires Valid() && th !in waits
      modifies this`waits, slots
      ensures Valid() && View() == Step(old(View()), Register(th, token))
      ensures ok <==> MayWait(old(View()), th, token)
      ensures ok ==> token < SLOTS && th in waits && waits[th] == Wait(token, old(slots[token].call))
    {
      hide AllBuilt, IsRequest, Checksum;
      ok := false;
      if token >= SLOTS { return; }
      var s := slots[token];
      if s.phase == Free || (s.waiter.Some? && s.waiter.value != th) { return; }
      StepKeepsAll(View(), Register(th, token), built[..]);
      slots[token] := s.(waiter := Some(th));
      waits := waits[th := Wait(token, s.call)];
      ok := true;
    }

    /** Decide a waiter's fate in one locked look. */
    method SettleSlot(th: Thread, token: nat, fail: bool) returns (v: Verdict)
      requires Valid() && th in waits && waits[th].token == token
      modifies this`waits, slots
      ensures Valid() && View() == Step(old(View()), Settle(th, fail))
      ensures token < SLOTS && v == VerdictOf(old(slots[token]), fail)
      ensures v.Replied? <==> old(slots[token]).phase == Done
      ensures v.Replied? ==> v.len == old(slots[token]).replyLen
      ensures v == TornDown <==> old(slots[token]).phase == Abandoned
      ensures v == GaveUp <==> fail && old(slots[token]).phase in {Queued, Sent}
    {
      hide AllBuilt, IsRequest, Checksum;
      StepKeepsAll(View(), Settle(th, fail), built[..]);
      assert WaitOk(slots[..], th, waits[th]);
      var s := slots[token];
      v := if s.phase == Done then Replied(s.replyLen)
           else if s.phase == Abandoned then TornDown
           else if fail then GaveUp
           else Undecided;
      if v != Undecided {
        slots[token] := s.(phase := Free, out := None, cap := 0, waiter := None);
        waits := waits - {th};
      }
    }

    method CancelCall(th: Thread, token: nat)
      requires Valid() && th !in waits
      modifies slots
      ensures Valid() && View() == Step(old(View()), Cancel(th, token))
      ensures MayWait(old(View()), th, token) ==> token < SLOTS && Emptied(slots[token])
    {
      hide AllBuilt, IsRequest, Checksum;
      StepKeepsAll(View(), Cancel(th, token), built[..]);
      if token >= SLOTS { return; }
      var s := slots[token];
      if s.phase != Free && (s.waiter == None || s.waiter == Some(th)) {
        slots[token] := s.(phase := Free, out := None, cap := 0, waiter := None);
      }
    }

    // ---- the service thread's sections ----

    /** Send at most one queued frame, round robin; a frame too big for the budget is
        passed over for a smaller one behind it. */
    method SendOne(attached: bool)
      returns (sent: Option<nat>, flushed: bool, ghost skipped: nat)
      requires Valid()
      modifies `rr, `wire, slots, debts
      ensures Valid()
      ensures sent == None ==>
        View() == old(View()) && rr == old(rr) && forall i: nat :: !Eligible(View(), i)
      ensures sent == None ==> wire == old(wire)
      ensures sent.Some? ==> Eligible(old(View()), sent.value)
      ensures sent.Some? ==> View() == Step(old(View()), Send(sent.value))
      ensures sent.Some? ==> Wrote(old(wire), wire, built[sent.value], old(slots[..])[sent.value])
      ensures sent.Some? ==> sent.value == Turn(old(rr), skipped) && rr == (sent.value + 1) % SLOTS
      ensures forall j :: 0 <= j < skipped ==> !Eligible(old(View()), Turn(old(rr), j))
      ensures flushed <==> sent.Some? && OnWire(old(debts[..])) == 0 && !attached
    {
      hide Inv, Step, OnWire, AllBuilt, Wrote;
      sent, flushed, skipped := None, false, 0;
      if !linkUp { return; }
      for k := 0 to SLOTS
        invariant View() == old(View()) && rr == old(rr) && skipped == k && Valid() && wire == old(wire)
        invariant forall j :: 0 <= j < k ==> !Eligible(View(), Turn(rr, j))
      {
        var i := Turn(rr, k);
        var onWire := BytesOnWire();
        var room := DebtSlot();
        if slots[i].phase == Queued {
          if room == DEBTS { return; }
          if onWire == 0 || onWire + slots[i].bodyLen + 4 <= budget {
            flushed := onWire == 0 && !attached;
            MarkSent(i, room);
            rr := (i + 1) % SLOTS;
            sent := Some(i);
            return;
          }
        }
        assert !Eligible(View(), i);
        skipped := k + 1;
      }
      forall i: nat ensures !Eligible(View(), i) {
        if i < SLOTS { RoundRobin(rr, i); }
      }
    }

    method MarkSent(i: nat, room: nat)
      requires Valid() && Eligible(View(), i) && room == FirstRoom(debts[..])
      modifies `wire, slots, debts
      ensures Valid() && View() == Step(old(View()), Send(i))
      ensures Wrote(old(wire), wire, built[i], old(slots[..])[i])
    {
      hide Inv, Checksum;
      StepKeepsAll(View(), Send(i), built[..]);
      SlotIsBounded(View(), i);
      var b := built[i];
      wire := wire + Frames.Header(Frames.Erpc, |b.body|, b.crc) + b.body;
      assert wire == old(wire) + Frames.Wire(Frames.Frame(Frames.Erpc, b.body));
      debts[room] := Some(Debt(slots[i].call, slots[i].bodyLen + 4));
      slots[i] := slots[i].(phase := Sent);
    }

    /** Route one complete frame body. */
    method Dispatch(body: seq<Byte>, crc: int)
      requires Valid()
      modifies this`mem, slots, debts
      ensures Valid()
      ensures View() == if IsReply(body, crc) then Step(old(View()), ReplyIn(body))
                        else old(View())
      ensures forall i :: 0 <= i < SLOTS && Checksum(body) == crc && IsReplyTo(body, old(slots[..])[i]) ==>
        slots[i].phase == Done && slots[i].replyLen == |body| - 8
      ensures forall i :: 0 <= i < SLOTS && Checksum(body) == crc && IsReplyTo(body, old(slots[..])[i]) ==>
        Received(old(View()), View(), old(slots[..])[i], body[8..])
    {
      hide Inv, AllBuilt, Step, Received, Checksum, FromLe32, IsRequest;
      if |body| < 8 || Checksum(body) != crc { return; }
      if body[3] != CODEC_VERSION { return; }
      if body[0] != MSGTYPE_REPLY { return; }
      Deliver(FromLe32(body[4..8]), body);
    }

    /** A verified reply: its request is off the wire, and if its caller is still there
        the payload goes to it, truncated to what it has room for. */
    method Deliver(q: nat, body: seq<Byte>)
      requires Valid() && |body| >= 8 && q == FromLe32(body[4..8])
      modifies this`mem, slots, debts
      ensures Valid() && View() == Step(old(View()), ReplyIn(body))
      ensures forall i :: 0 <= i < SLOTS && Awaits(old(slots[..])[i], ReplyIn(body)) ==>
        slots[i].phase == Done && slots[i].replyLen == |body| - 8
      ensures forall i :: 0 <= i < SLOTS && Awaits(old(slots[..])[i], ReplyIn(body)) ==>
        Received(old(View()), View(), old(slots[..])[i], body[8..])
    {
      DeliverInPlace(q, body);
      forall i | 0 <= i < SLOTS && Awaits(old(slots[..])[i], ReplyIn(body))
        ensures slots[i].phase == Done && slots[i].replyLen == |body| - 8
        ensures Received(old(View()), View(), old(slots[..])[i], body[8..])
      {
        hide Inv, Awaits, Step, AllBuilt, Received;
        ReplyLands(old(View()), ReplyIn(body), i);
        assert View().slots[i] == slots[i];
      }
    }

    method DeliverInPlace(q: nat, body: seq<Byte>)
      requires Valid() && |body| >= 8 && q == FromLe32(body[4..8])
      modifies this`mem, slots, debts
      ensures Valid() && View() == Step(old(View()), ReplyIn(body))
    {
      hide Inv, AllBuilt, IsRequest, Checksum;
      ghost var t := View();
      StepKeepsAll(t, ReplyIn(body), built[..]);
      DebtClear(q);
      var i := 0;
      while i < SLOTS && !(slots[i].phase == Sent && slots[i].call == q)
        invariant i <= SLOTS
        invariant forall k :: 0 <= k < i ==> !(slots[k].phase == Sent && slots[k].call == q)
        modifies {}
      {
        i := i + 1;
      }
      assert i == FirstSent(t.slots, q);
      if i == SLOTS { return; }
      var s := slots[i];
      if body[2] != s.service || body[1] != s.request { return; }
      var plen := |body| - 8;
      var copy := if plen < s.cap then plen else s.cap;
      assert SlotOk(s, nextSeq, mem) by { InvHasSlots(t); }
      if s.out.Some? {
        assert body[8..][..copy] == body[8..8 + copy];
        mem := mem[s.out.value := body[8..8 + copy] + mem[s.out.value][copy..]];
      }
      slots[i] := s.(phase := Done, replyLen := plen);
    }

    /** The link goes away: nothing may be written again, waiters are told, and a slot
        somebody is blocked on stays theirs to release. */
    method Abandon()
      requires Valid()
      modifies this`linkUp, slots, debts
      ensures Valid() && View() == Step(old(View()), AbandonAll)
    {
      hide AllBuilt, IsRequest, Checksum;
      ghost var t := View();
      StepKeepsAll(t, AbandonAll, built[..]);
      linkUp := false;
      DebtReset();
      for i := 0 to SLOTS
        invariant debts[..] == NoDebts()
        invariant forall k :: 0 <= k < i ==> slots[k] == Torn(t.slots[k])
        invariant forall k :: i <= k < SLOTS ==> slots[k] == t.slots[k]
        modifies slots
      {
        var s := slots[i];
        if s.phase != Free {
          if s.waiter == None {
            slots[i] := s.(phase := Free, out := None, cap := 0, waiter := None);
          } else {
            slots[i] := s.(phase := Abandoned, out := None, cap := 0);
          }
        }
      }
      assert slots[..] == Step(t, AbandonAll).slots;
    }

    method LinkOpened(carries: bool)
      requires Valid()
      modifies this`linkUp, debts
      ensures Valid() && View() == Step(old(View()), Opened(carries))
    {
      hide AllBuilt, IsRequest, Checksum;
      StepKeepsAll(View(), Opened(carries), built[..]);
      DebtReset();
      linkUp := carries;
    }

    method SetModuleGen(gen: nat)
      requires Valid()
      modifies this`budget
      ensures Valid() && View() == Step(old(View()), SetGen(gen))
    {
      hide AllBuilt, IsRequest, Checksum;
      StepKeepsAll(View(), SetGen(gen), built[..]);
      budget := if gen >= 4 then BUDGET_FAST else BUDGET_SAFE;
    }

    // ---- erpc_wait, with everybody else running between its locked looks ----

    /** One locked section of somebody else's, with any arguments. */
    method OneOther(me: Thread) returns (ghost e: Event)
      requires Valid()
      modifies this, slots, debts, built
      ensures Valid() && View() == Step(old(View()), e) && !By(e, me)
    {
      hide Inv, Step, AllBuilt, IsRequest, Wrote;
      var pick: nat, n: nat, th: Thread, yes: bool := *, *, *, *;
      if pick == 0 {
        var service: Byte, request: Byte, cap: nat := *, *, *;
        var out := if n in mem && cap <= |mem[n]| then Some(n) else None;
        var req: seq<Byte> := *;
        e := Begin(service, request, |req|, out, cap);
        var _ := BeginCall(service, request, req, out, cap);
      } else if pick == 1 && th != me && th !in waits {
        e := Register(th, n);
        var _ := RegisterWaiter(th, n);
      } else if pick == 2 && th != me && th in waits {
        e := Settle(th, yes);
        var _ := SettleSlot(th, waits[th].token, yes);
      } else if pick == 3 && th != me && th !in waits {
        e := Cancel(th, n);
        CancelCall(th, n);
      } else if pick == 4 {
        var sent, flushed;
        ghost var skipped;
        sent, flushed, skipped := SendOne(yes);
        e := if sent.Some? then Send(sent.value) else Send(SLOTS);
        NoSuchSlot(old(View()));
      } else if pick == 5 {
        var body: seq<Byte>, crc: int := *, *;
        if IsReply(body, crc) {
          e := ReplyIn(body);
          Dispatch(body, crc);
        } else {
          e := Send(SLOTS);
          NoSuchSlot(View());
        }
      } else if pick == 6 {
        e := AbandonAll;
        Abandon();
      } else if pick == 7 {
        e := Opened(yes);
        LinkOpened(yes);
      } else {
        e := SetGen(n);
        SetModuleGen(n);
      }
    }

    method Others(me: Thread) returns (ghost es: seq<Event>)
      requires Valid()
      modifies this, slots, debts, built
      ensures Valid() && View() == Run(old(View()), es) && forall e <- es :: !By(e, me)
    {
      hide Inv, Step;
      es := [];
      var n: nat :| 0 <= n;
      for i := 0 to n
        invariant Valid() && View() == Run(old(View()), es) && forall e <- es :: !By(e, me)
      {
        ghost var e := OneOther(me);
        RunSnoc(old(View()), es, e);
        es := es + [e];
      }
    }

    /** erpc_wait: at most `ticks` slices of polling, fewer if the caller's hook asks for an
        end to it (`aborts`).  However the others interleave, a thread that was let in leaves
        with exactly one verdict, its own call's: torn down if and only if the link was
        abandoned, replied if a matching reply came before and the link was not abandoned
        after it, and given up only at the deadline or by its own hook.  The call is dead
        behind it. */
    method WaitFor(me: Thread, token: nat, ticks: nat, aborts: seq<bool>)
      returns (out: Outcome, ghost es: seq<Event>, fail: bool, slices: nat)
      requires Valid() && me !in waits
      modifies this, slots, debts, built
      ensures Valid() && me !in waits
      ensures out == Refused <==> !MayWait(old(View()), me, token)
      ensures out == Refused ==> View() == old(View())
      ensures out != Refused ==> forall e <- es :: !By(e, me)
      ensures out != Refused ==> var at := Run(Step(old(View()), Register(me, token)), es);
        && View() == Step(at, Settle(me, fail))
        && at.slots[token].call == old(slots[token].call)
        && Dead(View(), old(slots[token].call))
      ensures out != Refused ==>
        token < SLOTS && Right(Step(old(View()), Register(me, token)), es, token, out.verdict)
      ensures out != Refused ==> out.verdict != Undecided && (out.verdict == GaveUp ==> fail)
      ensures slices <= ticks && forall j :: 0 <= j < slices ==> !Aborted(aborts, j)
      ensures fail <==> out != Refused && (slices == ticks || Aborted(aborts, slices))
    {
      hide Inv, Step, VerdictOf, MayTake, MayWait, Dead, Fate, Right;
      es, fail, out, slices := [], false, Refused, 0;
      ghost var call := if token < SLOTS then slots[token].call else 0;
      var ok := RegisterWaiter(me, token);
      if !ok { RefusedChangesNothing(old(View()), me, token); return; }
      ghost var start := View();
      while true
        invariant Valid() && View() == Run(start, es) && forall e <- es :: !By(e, me)
        invariant me in start.waits && start.waits[me] == Wait(token, call)
        invariant slices <= ticks && forall j :: 0 <= j < slices ==> !Aborted(aborts, j)
        decreases ticks - slices
      {
        WaitIsKept(start, es, me);
        WaitEndsAsItMust(start, es, me);
        fail := slices == ticks || Aborted(aborts, slices);
        ghost var at := View();
        var v := SettleSlot(me, token, fail);
        if v != Undecided {
          DecisionEndsTheCall(at, me, fail);
          TheVerdict(start, es, token, fail);
          out := Finished(v);
          return;
        }
        UndecidedChangesNothing(at, me, fail);
        ghost var more := Others(me);
        RunConcat(start, es, more);
        es, slices := es + more, slices + 1;
      }
    }
  }

  predicate Aborted(aborts: seq<bool>, k: nat) {
    k < |aborts| && aborts[k]
  }

  /** Torn down if and only if somebody abandoned the link; replied if and only if the reply
      came, in the run or before it, and nobody abandoned the link since. */
  ghost predicate Right(t: Table, es: seq<Event>, i: nat, v: Verdict)
    requires i < |t.slots|
  {
    && (v == TornDown <==> AbandonAll in es || t.slots[i].phase == Abandoned)
    && (forall k: nat :: LandedAt(t, es, i, k) ==> v == Replied(|es[k].payload|))
    && (v.Replied? ==> t.slots[i].phase == Done || exists k: nat :: LandedAt(t, es, i, k))
  }

  lemma TheVerdict(t: Table, es: seq<Event>, i: nat, fail: bool)
    requires i < |t.slots| && Fate(t, es, i)
    ensures Right(t, es, i, VerdictOf(Run(t, es).slots[i], fail))
  {
    hide Run;
  }

  lemma RefusedBegin(t: Table, e: Event)
    requires e.Begin? && !MayBegin(t, e)
    ensures Step(t, e) == t
  {
  }

  lemma RefusedChangesNothing(t: Table, th: Thread, token: nat)
    requires !MayWait(t, th, token)
    ensures Step(t, Register(th, token)) == t
  {
  }

  lemma UndecidedChangesNothing(t: Table, th: Thread, fail: bool)
    requires th in t.waits && t.waits[th].token < |t.slots|
    requires VerdictOf(t.slots[t.waits[th].token], fail) == Undecided
    ensures Step(t, Settle(th, fail)) == t && !fail
  {
  }

  lemma NoSuchSlot(t: Table)
    requires |t.slots| == SLOTS
    ensures Step(t, Send(SLOTS)) == t && forall th :: !By(Send(SLOTS), th)
  {
  }

  lemma RoundRobin(rr: nat, i: nat)
    requires rr < SLOTS && i < SLOTS
    ensures exists k :: 0 <= k < SLOTS && Turn(rr, k) == i
  {
    var k := if rr <= i then i - rr else i + SLOTS - rr;
    assert Turn(rr, k) == i;
  }

  lemma StepKeepsInv(t: Table, e: Event)
    requires Inv(t)
    ensures Inv(Step(t, e))
  {
    StepKeepsSlots(t, e);
    StepKeepsWaits(t, e);
    StepKeepsDebts(t, e);
  }

  /** No section but the one that builds a request makes a slot wait to be sent. */
  lemma StepKeepsAll(t: Table, e: Event, built: seq<Built>)
    requires Inv(t) && AllBuilt(t.slots, built) && !e.Begin?
    ensures Inv(Step(t, e)) && AllBuilt(Step(t, e).slots, built)
  {
    StepKeepsInv(t, e);
    hide Inv, IsRequest, OnWire;
    var r := Step(t, e).slots;
    forall i | 0 <= i < |r| && r[i].phase == Queued ensures IsRequest(built[i], r[i]) {
      QueuedBefore(t, e, i);
      SameRequest(built[i], t.slots[i], r[i]);
    }
  }

  lemma QueuedBefore(t: Table, e: Event, i: nat)
    requires !e.Begin? && i < |t.slots| && Step(t, e).slots[i].phase == Queued
    ensures var s, r := t.slots[i], Step(t, e).slots[i];
      && s.phase == Queued && r.service == s.service && r.request == s.request
      && r.call == s.call && r.bodyLen == s.bodyLen
  {
  }

  lemma SameRequest(b: Built, s: Slot, r: Slot)
    requires IsRequest(b, s)
    requires r.service == s.service && r.request == s.request
    requires r.call == s.call && r.bodyLen == s.bodyLen
    ensures IsRequest(b, r)
  {
  }

  lemma SlotIsBounded(t: Table, i: nat)
    requires Inv(t) && i < |t.slots| && t.slots[i].phase == Queued
    ensures t.slots[i].bodyLen <= 8 + REQ_MAX
  {
  }
}
