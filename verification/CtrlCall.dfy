/** The LINK-CTRL exchange: one slot, one exchange at a time, and eight bits of sequence
    number to tell a late reply by. */
module CtrlCall {
  import opened Bytes
  import opened Crc16
  import opened Frames
  import Calls

  type Thread = nat
  type Buffer = nat

  const TAGS := 256

  datatype Slot = Slot(
    phase: Calls.Phase, cmd: Byte, tag: Byte, status: Byte, body: seq<Byte>, crc: int,
    out: Option<Buffer>, cap: nat, replyLen: nat, waiter: Option<Thread>)

  /** `count` is how many exchanges were ever started, which the slot only knows modulo 256;
      `wire` is everything the send step wrote to the UART. */
  datatype Exchange = Exchange(slot: Slot, count: nat, linkUp: bool, wire: seq<Byte>,
                               mem: map<Buffer, seq<Byte>>)

  datatype Event =
    | Ask(thread: Thread, cmd: Byte, req: seq<Byte>, out: Option<Buffer>, cap: nat)
    | Send
    | Reply(body: seq<Byte>)   // a CTRL body whose checksum held
    | Settle(fail: bool)       // the waiter's locked look
    | Teardown
    | Opened(carries: bool)

  predicate MayAsk(c: Exchange, e: Event)
    requires e.Ask?
  {
    && c.linkUp && c.slot.phase == Calls.Free && |e.req| <= CTRL_MAX - CTRL_HDR
    && Calls.BufferFits(c.mem, e.out, e.cap)
  }

  /** The command and the sequence number of the exchange on the wire. */
  predicate Echoes(body: seq<Byte>, cmd: Byte, tag: Byte) {
    |body| >= CTRL_HDR && body[0] == cmd && body[1] == tag
  }

  predicate Taken(c: Exchange, body: seq<Byte>) {
    c.slot.phase == Calls.Sent && Echoes(body, c.slot.cmd, c.slot.tag)
  }

  function Released(s: Slot): Slot {
    s.(phase := Calls.Free, out := None, cap := 0, waiter := None)
  }

  /** Whether the waiter's look decides anything. */
  predicate Decides(s: Slot, fail: bool) {
    s.phase == Calls.Done || s.phase == Calls.Abandoned || fail
  }

  function Request(cmd: Byte, tag: Byte, req: seq<Byte>): seq<Byte> {
    [cmd, tag, 0, 0] + req
  }

  function Asked(e: Event, tag: Byte): Slot
    requires e.Ask?
  {
    var body := Request(e.cmd, tag, e.req);
    Slot(Calls.Queued, e.cmd, tag, 0, body, Checksum(body), e.out, e.cap, 0, Some(e.thread))
  }

  function Answered(s: Slot, body: seq<Byte>): Slot
    requires |body| >= CTRL_HDR
  {
    s.(phase := Calls.Done, status := body[2], replyLen := |body| - CTRL_HDR)
  }

  function Torn(s: Slot): Slot {
    if s.phase == Calls.Free then s
    else if s.waiter == None then Released(s)
    else s.(phase := Calls.Abandoned, out := None, cap := 0)
  }

  function Step(c: Exchange, e: Event): Exchange {
    match e
    case Ask(_, _, _, _, _) =>
      if !MayAsk(c, e) then c
      else c.(slot := Asked(e, (c.count + 1) % TAGS), count := c.count + 1)
    case Send =>
      if !c.linkUp || c.slot.phase != Calls.Queued || !WellFormed(Frame(Ctrl, c.slot.body)) then c
      else c.(slot := c.slot.(phase := Calls.Sent), wire := c.wire + Wire(Frame(Ctrl, c.slot.body)))
    case Reply(body) =>
      if !Taken(c, body) then c
      else c.(slot := Answered(c.slot, body),
              mem := if c.slot.out.Some? && Calls.BufferFits(c.mem, c.slot.out, c.slot.cap)
                     then c.mem[c.slot.out.value := Calls.Copied(c.mem[c.slot.out.value],
                                                      body[CTRL_HDR..], c.slot.cap)]
                     else c.mem)
    case Settle(fail) =>
      if c.slot.waiter == None || !Decides(c.slot, fail) then c
      else c.(slot := Released(c.slot))
    case Teardown => c.(linkUp := false, slot := Torn(c.slot))
    case Opened(carries) => c.(linkUp := carries)
  }

  function Run(c: Exchange, es: seq<Event>): Exchange {
    if es == [] then c else Step(Run(c, es[..|es| - 1]), es[|es| - 1])
  }

  lemma RunSnoc(c: Exchange, es: seq<Event>, e: Event)
    ensures Run(c, es + [e]) == Step(Run(c, es), e)
  {
    assert (es + [e])[..|es|] == es;
  }

  lemma {:induction false} RunConcat(c: Exchange, es: seq<Event>, fs: seq<Event>)
    ensures Run(c, es + fs) == Run(Run(c, es), fs)
    decreases |fs|
  {
    hide Step;
    if fs == [] {
      assert es + fs == es;
    } else {
      RunConcat(c, es, fs[..|fs| - 1]);
      assert (es + fs)[..|es + fs| - 1] == es + fs[..|fs| - 1];
    }
  }

  // ---- what every section keeps ----

  /** Whatever is in the slot is the latest exchange, somebody waits for it, and its frame
      is the one its command and number call for. */
  predicate Inv(c: Exchange) {
    && (c.slot.phase == Calls.Free <==> c.slot.waiter == None)
    && (c.slot.phase in {Calls.Free, Calls.Abandoned} ==> c.slot.out == None)
    && (c.slot.phase != Calls.Free ==>
          && c.slot.tag == c.count % TAGS
          && WellFormed(Frame(Ctrl, c.slot.body)) && c.slot.crc == Checksum(c.slot.body)
          && c.slot.body[..4] == [c.slot.cmd, c.slot.tag, 0, 0])
    && Calls.BufferFits(c.mem, c.slot.out, c.slot.cap)
  }

  lemma StepKeepsInv(c: Exchange, e: Event)
    requires Inv(c)
    ensures Inv(Step(c, e))
  {
    hide Wire;
    match e
    case Ask(th, cmd, req, out, cap) =>
      var tag: Byte := (c.count + 1) % TAGS;
      assert Request(cmd, tag, req)[..4] == [cmd, tag, 0, 0];
    case _ =>
  }

  lemma {:induction false} RunKeepsInv(c: Exchange, es: seq<Event>)
    requires Inv(c)
    ensures Inv(Run(c, es))
    decreases |es|
  {
    if es != [] {
      RunKeepsInv(c, es[..|es| - 1]);
      StepKeepsInv(Run(c, es[..|es| - 1]), es[|es| - 1]);
    }
  }

  // ---- which replies are told apart ----

  /** A reply to exchange `m` is taken if and only if an exchange is on the wire with the
      same command and as good as the same number: `m` itself, or a multiple of 256 later. */
  lemma TakenIff(c: Exchange, body: seq<Byte>, m: nat)
    requires Inv(c) && |body| >= CTRL_HDR && body[1] == m % TAGS && m <= c.count
    ensures Taken(c, body) <==>
      c.slot.phase == Calls.Sent && body[0] == c.slot.cmd && (c.count - m) % TAGS == 0
    ensures c.count - m < TAGS ==>
      (Taken(c, body) <==> c.slot.phase == Calls.Sent && body[0] == c.slot.cmd && m == c.count)
  {
    SameTag(m, c.count - m);
  }

  lemma SameTag(m: nat, d: nat)
    ensures m % TAGS == (m + d) % TAGS <==> d % TAGS == 0
  {
  }

  function Round(th: Thread, cmd: Byte): seq<Event> {
    [Ask(th, cmd, [], None, 0), Send, Settle(true)]
  }

  lemma NextTag(n: nat)
    ensures (n % TAGS + 1) % TAGS == (n + 1) % TAGS
  {
  }

  /** n exchanges of the same command, each sent and given up. */
  function GivenUp(th: Thread, cmd: Byte, n: nat): seq<Event> {
    if n == 0 then [] else GivenUp(th, cmd, n - 1) + Round(th, cmd)
  }

  lemma RunRound(c: Exchange, th: Thread, cmd: Byte)
    ensures Run(c, Round(th, cmd)) == Step(Step(Step(c, Ask(th, cmd, [], None, 0)), Send), Settle(true))
  {
    hide Step;
    var ask := Ask(th, cmd, [], None, 0);
    assert [] + [ask] == [ask] && [ask] + [Send] == [ask, Send];
    assert [ask, Send] + [Settle(true)] == Round(th, cmd);
    RunSnoc(c, [], ask);
    RunSnoc(c, [ask], Send);
    RunSnoc(c, [ask, Send], Settle(true));
  }

  lemma OneGivenUp(c: Exchange, th: Thread, cmd: Byte)
    requires Inv(c) && c.linkUp && c.slot.phase == Calls.Free
    ensures var sent := Step(Step(c, Ask(th, cmd, [], None, 0)), Send);
      && Inv(sent) && sent.slot.phase == Calls.Sent && sent.slot.cmd == cmd
      && sent.linkUp && sent.count == c.count + 1
      && var r := Step(sent, Settle(true));
         Inv(r) && r.linkUp && r.slot.phase == Calls.Free && r.count == c.count + 1
  {
    hide Wire, Checksum;
    StepKeepsInv(c, Ask(th, cmd, [], None, 0));
    StepKeepsInv(Step(c, Ask(th, cmd, [], None, 0)), Send);
    StepKeepsInv(Step(Step(c, Ask(th, cmd, [], None, 0)), Send), Settle(true));
  }

  lemma {:induction false} GivenUpCounts(c: Exchange, th: Thread, cmd: Byte, n: nat)
    requires Inv(c) && c.linkUp && c.slot.phase == Calls.Free
    ensures var r := Run(c, GivenUp(th, cmd, n));
      Inv(r) && r.linkUp && r.slot.phase == Calls.Free && r.count == c.count + n
  {
    if n > 0 {
      hide Step, Inv, Run;
      GivenUpCounts(c, th, cmd, n - 1);
      var before := Run(c, GivenUp(th, cmd, n - 1));
      OneGivenUp(before, th, cmd);
      RunRound(before, th, cmd);
      RunConcat(c, GivenUp(th, cmd, n - 1), Round(th, cmd));
    }
  }

  /** And the condition bites: the reply to an exchange given up 256 exchanges ago settles
      the one on the wire now. */
  lemma LateReplyIsTaken(c: Exchange, th: Thread, cmd: Byte, body: seq<Byte>)
    requires Inv(c) && c.linkUp && c.slot.phase == Calls.Free
    requires Echoes(body, cmd, (c.count + 1) % TAGS)
    ensures var r := Run(c, GivenUp(th, cmd, TAGS) + [Ask(th, cmd, [], None, 0), Send]);
      r.count == c.count + 1 + TAGS && Taken(r, body)
  {
    hide Step, Run;
    var es, ask := GivenUp(th, cmd, TAGS), Ask(th, cmd, [], None, 0);
    GivenUpCounts(c, th, cmd, TAGS);
    RunSnoc(c, es, ask);
    RunSnoc(c, es + [ask], Send);
    assert es + [ask] + [Send] == es + [ask, Send];
    OneGivenUp(Run(c, es), th, cmd);
    SameTag(c.count + 1, TAGS);
  }

  // ---- one waiter, while everybody else runs ----

  predicate Others(es: seq<Event>) {
    forall e <- es :: !e.Settle?
  }

  predicate SameExchange(c: Exchange, r: Exchange) {
    && r.slot.cmd == c.slot.cmd && r.slot.tag == c.slot.tag
    && r.slot.waiter == c.slot.waiter && r.count == c.count
  }

  predicate Holds(mem: map<Buffer, seq<Byte>>, b: Buffer, bytes: seq<Byte>) {
    b in mem && mem[b] == bytes
  }

  /** The reply `answer` is what the slot and the caller's buffer hold. */
  predicate AnsweredBy(c: Exchange, r: Exchange, answer: seq<Byte>)
    requires Calls.BufferFits(c.mem, c.slot.out, c.slot.cap)
  {
    && Echoes(answer, c.slot.cmd, c.slot.tag)
    && r.slot.status == answer[2] && r.slot.replyLen == |answer| - CTRL_HDR
    && (c.slot.out.Some? ==> Holds(r.mem, c.slot.out.value,
          Calls.Copied(c.mem[c.slot.out.value], answer[CTRL_HDR..], c.slot.cap)))
  }

  predicate Awaiting(c: Exchange) {
    Inv(c) && c.slot.phase in {Calls.Queued, Calls.Sent}
  }

  // ---- what must happen ----

  /** A request is in the slot and its frame says what was asked. */
  lemma AskLands(c: Exchange, th: Thread, cmd: Byte, req: seq<Byte>, out: Option<Buffer>, cap: nat)
    requires c.linkUp && c.slot.phase == Calls.Free && |req| <= CTRL_MAX - CTRL_HDR
    requires Calls.BufferFits(c.mem, out, cap)
    ensures var r := Step(c, Ask(th, cmd, req, out, cap));
      && r.slot.phase == Calls.Queued && r.slot.waiter == Some(th) && r.count == c.count + 1
      && r.slot.cmd == cmd && r.slot.tag == (c.count + 1) % TAGS
      && r.slot.out == out && r.slot.cap == cap && r.mem == c.mem && r.wire == c.wire
      && r.slot.body == [cmd, (c.count + 1) % TAGS, 0, 0] + req
  {
  }

  /** On an open link a queued request goes out, once and whole. */
  lemma SendLands(c: Exchange)
    requires Inv(c) && c.linkUp && c.slot.phase == Calls.Queued
    ensures var r := Step(c, Send);
      && r.slot == c.slot.(phase := Calls.Sent) && r.mem == c.mem
      && r.wire == c.wire + Header(Ctrl, |c.slot.body|, c.slot.crc) + c.slot.body
  {
  }

  /** A reply that echoes the exchange on the wire settles it and fills its buffer, as far as
      there is room; any other changes nothing. */
  lemma ReplyLands(c: Exchange, body: seq<Byte>)
    requires Inv(c) && |body| >= CTRL_HDR
    ensures var r := Step(c, Reply(body));
      if c.slot.phase == Calls.Sent && body[0] == c.slot.cmd && body[1] == c.slot.tag
      then Settled(c, r, body)
      else r == c
  {
  }

  predicate Settled(c: Exchange, r: Exchange, body: seq<Byte>)
    requires Calls.BufferFits(c.mem, c.slot.out, c.slot.cap) && |body| >= CTRL_HDR
  {
    && r.slot.phase == Calls.Done && r.slot.waiter == c.slot.waiter
    && r.slot.status == body[2] && r.slot.replyLen == |body| - CTRL_HDR
    && (c.slot.out.Some? ==>
          var b := c.slot.out.value;
          && b in r.mem && |r.mem[b]| == |c.mem[b]|
          && (forall k :: 0 <= k < |c.mem[b]| ==>
                r.mem[b][k] == if k < c.slot.cap && k < |body| - CTRL_HDR then body[CTRL_HDR + k]
                               else c.mem[b][k]))
    && (forall b :: b in c.mem && Some(b) != c.slot.out ==> b in r.mem && r.mem[b] == c.mem[b])
  }

  /** Exchange `c` is still in the slot, and done only as `answer` says. */
  predicate Stands(c: Exchange, r: Exchange, answer: seq<Byte>)
    requires Calls.BufferFits(c.mem, c.slot.out, c.slot.cap)
  {
    && Inv(r) && SameExchange(c, r) && r.slot.phase != Calls.Free
    && (Awaiting(r) ==> r.slot.out == c.slot.out && r.slot.cap == c.slot.cap && r.mem == c.mem)
    && (r.slot.phase == Calls.Done ==> AnsweredBy(c, r, answer))
    && r.slot.body == c.slot.body
    && (c.slot.phase == Calls.Queued ==> OnWireOnce(c, r))
  }

  /** The queued frame of exchange `c` has gone out at most once, and has if `r` has passed
      the queue. */
  predicate OnWireOnce(c: Exchange, r: Exchange) {
    && (r.wire == c.wire || (WellFormed(Frame(Ctrl, c.slot.body)) &&
                             r.wire == c.wire + Wire(Frame(Ctrl, c.slot.body))))
    && (r.slot.phase == Calls.Queued ==> r.wire == c.wire)
    && (r.slot.phase in {Calls.Sent, Calls.Done} ==> r.wire != c.wire)
  }

  lemma StandsOn(c: Exchange, r: Exchange, e: Event, answer: seq<Byte>)
    requires Awaiting(c) && Stands(c, r, answer) && !e.Settle?
    ensures Stands(c, Step(r, e), if e.Reply? && Taken(r, e.body) then e.body else answer)
    ensures Step(r, e).slot.phase == Calls.Done && r.slot.phase != Calls.Done ==>
      e.Reply? && Taken(r, e.body)
  {
    hide Wire, Checksum;
    StepKeepsInv(r, e);
    assert |Wire(Frame(Ctrl, c.slot.body))| > 0;
  }

  /** Until its waiter looks, an exchange keeps the slot: nobody else's call gets in, and
      it is done only by a reply that echoes it, copied into its own buffer. */
  lemma {:induction false} Awaited(c: Exchange, es: seq<Event>) returns (answer: seq<Byte>)
    requires Awaiting(c) && Others(es)
    ensures Stands(c, Run(c, es), answer)
    ensures Run(c, es).slot.phase == Calls.Done ==> Reply(answer) in es
    decreases |es|
  {
    answer := [];
    if es != [] {
      hide Step, Stands;
      var n := |es| - 1;
      var e, r := es[n], Run(c, es[..n]);
      answer := Awaited(c, es[..n]);
      StandsOn(c, r, e, answer);
      assert e in es;
      if e.Reply? && Taken(r, e.body) { answer := e.body; }
    }
  }

  /** The k-th of these events is a reply that echoes exchange `c` while it is on the wire. */
  predicate LandsAt(c: Exchange, es: seq<Event>, k: nat)
    requires k < |es|
  {
    es[k].Reply? && Run(c, es[..k]).slot.phase == Calls.Sent
    && Echoes(es[k].body, c.slot.cmd, c.slot.tag)
  }

  predicate Landed(c: Exchange, es: seq<Event>) {
    exists k :: 0 <= k < |es| && LandsAt(c, es, k)
  }

  lemma LandedSnoc(c: Exchange, es: seq<Event>)
    requires es != []
    ensures Landed(c, es) <==> Landed(c, es[..|es| - 1]) || LandsAt(c, es, |es| - 1)
  {
    hide Run, Echoes;
    var n := |es| - 1;
    assert forall k :: 0 <= k < n ==> es[..n][..k] == es[..k];
    forall k | 0 <= k < n ensures LandsAt(c, es[..n], k) <==> LandsAt(c, es, k) {
      assert es[..n][k] == es[k];
    }
  }

  /** What becomes of an exchange nobody has looked at: abandoned exactly if the link was torn
      down under it, and otherwise done exactly if its reply landed. */
  lemma {:induction false} Fate(c: Exchange, es: seq<Event>)
    requires Awaiting(c) && Others(es)
    ensures var r := Run(c, es);
      && SameExchange(c, r) && r.slot.phase != Calls.Free
      && (r.slot.phase == Calls.Abandoned <==> Teardown in es)
      && (r.slot.phase == Calls.Done <==> Teardown !in es && Landed(c, es))
    decreases |es|
  {
    if es != [] {
      var n := |es| - 1;
      var e, r := es[n], Run(c, es[..n]);
      hide Step, Wire, Checksum, Landed;
      assert forall x <- es[..n] :: x in es;
      assert es == es[..n] + [e];
      Fate(c, es[..n]);
      RunKeepsInv(c, es[..n]);
      LandedSnoc(c, es);
      OneMore(c, r, e);
    } else {
      assert !Landed(c, es);
    }
  }

  lemma OneMore(c: Exchange, r: Exchange, e: Event)
    requires Inv(r) && SameExchange(c, r) && r.slot.phase != Calls.Free && !e.Settle?
    ensures var q := Step(r, e);
      && SameExchange(c, q) && q.slot.phase != Calls.Free
      && (q.slot.phase == Calls.Abandoned <==> r.slot.phase == Calls.Abandoned || e.Teardown?)
      && (q.slot.phase == Calls.Done <==>
            (r.slot.phase == Calls.Done && !e.Teardown?)
            || (e.Reply? && r.slot.phase == Calls.Sent && Echoes(e.body, c.slot.cmd, c.slot.tag)))
  {
    hide Wire, Checksum;
  }

  /** A buffer the slot does not hold, and is not handed, is not written. */
  lemma {:induction false} BufferIsLeftAlone(c: Exchange, es: seq<Event>, b: Buffer)
    requires c.slot.out != Some(b) && b in c.mem
    requires forall e <- es :: e.Ask? ==> e.out != Some(b)
    ensures var r := Run(c, es); r.slot.out != Some(b) && b in r.mem && r.mem[b] == c.mem[b]
    decreases |es|
  {
    if es != [] {
      hide Wire;
      assert es[|es| - 1] in es;
      BufferIsLeftAlone(c, es[..|es| - 1], b);
    }
  }

  lemma RefusedChangesNothing(c: Exchange, e: Event)
    requires e.Ask? && !MayAsk(c, e)
    ensures Step(c, e) == c
  {
  }

  lemma AskedIsAwaiting(c: Exchange, e: Event)
    requires e.Ask? && MayAsk(c, e) && Inv(c)
    ensures var r := Step(c, e);
      && Awaiting(r) && r.mem == c.mem && r.slot.waiter == Some(e.thread)
      && r.slot.cmd == e.cmd && r.slot.out == e.out && r.slot.cap == e.cap
  {
    StepKeepsInv(c, e);
  }

  lemma DecidedIs(c: Exchange, fail: bool)
    requires c.slot.waiter.Some? && Decides(c.slot, fail)
    ensures Step(c, Settle(fail)) == Step(c, Settle(true))
    ensures Step(c, Settle(fail)).mem == c.mem
  {
  }

  lemma UndecidedChangesNothing(c: Exchange, fail: bool)
    requires !Decides(c.slot, fail)
    ensures Step(c, Settle(fail)) == c && !fail
  {
  }

  // ---- erpc_ctrl_call ----

  datatype Result = Refused | Lost | Failed(status: Byte) | Got(len: nat)

  function Verdict(s: Slot): Result {
    if s.phase != Calls.Done then Lost
    else if s.status != 0 then Failed(s.status)
    else Got(s.replyLen)
  }

  const NO_SLOT := Slot(Calls.Free, 0, 0, 0, [], 0, None, 0, 0, None)

  class Client {
    var slot: Slot
    var lastTag: Byte                 // erpc_ctrl_seq
    var linkUp: bool
    var wire: seq<Byte>               // what went to the UART
    var mem: map<Buffer, seq<Byte>>   // the callers' reply buffers
    ghost var count: nat

    ghost function View(): Exchange
      reads this
    {
      Exchange(slot, count, linkUp, wire, mem)
    }

    ghost predicate Valid()
      reads this
    {
      Inv(View()) && lastTag == count % TAGS
    }

    constructor (buffers: map<Buffer, seq<Byte>>)
      ensures Valid() && View() == Exchange(NO_SLOT, 0, false, [], buffers)
    {
      slot, lastTag, linkUp, wire, mem, count := NO_SLOT, 0, false, [], buffers, 0;
    }

    method AskFor(th: Thread, cmd: Byte, req: seq<Byte>, out: Option<Buffer>, cap: nat)
      returns (ok: bool)
      requires Valid() && Calls.BufferFits(mem, out, cap)
      modifies `slot, `lastTag, `count
      ensures Valid() && View() == Step(old(View()), Ask(th, cmd, req, out, cap))
      ensures ok <==> MayAsk(old(View()), Ask(th, cmd, req, out, cap))
      ensures ok <==> |req| <= CTRL_MAX - CTRL_HDR && linkUp && old(slot.phase) == Calls.Free
      ensures ok ==> slot.phase == Calls.Queued && slot.body == [cmd, lastTag, 0, 0] + req
    {
      hide Inv, Checksum;
      ok := |req| <= CTRL_MAX - CTRL_HDR && linkUp && slot.phase == Calls.Free;
      if ok {
        NextTag(count);
        StepKeepsInv(View(), Ask(th, cmd, req, out, cap));
        lastTag, count := (lastTag + 1) % TAGS, count + 1;
        var body := [cmd, lastTag, 0, 0] + req;
        slot := Slot(Calls.Queued, cmd, lastTag, 0, body, Checksum(body), out, cap, 0, Some(th));
      }
    }

    method SendQueued()
      requires Valid()
      modifies `slot, `wire
      ensures Valid() && View() == Step(old(View()), Send)
      ensures old(linkUp && slot.phase == Calls.Queued) ==>
        slot.phase == Calls.Sent && wire == old(wire) + Wire(Frame(Ctrl, old(slot.body)))
    {
      if linkUp && slot.phase == Calls.Queued {
        StepKeepsInv(View(), Send);
        wire := wire + Header(Ctrl, |slot.body|, slot.crc) + slot.body;
        slot := slot.(phase := Calls.Sent);
        assert wire == old(wire) + Wire(Frame(Ctrl, slot.body));
      }
    }

    /** A body that fails its checksum makes the whole stream suspect; one that nobody waits
        for is dropped and nothing else happens. */
    method Dispatch(body: seq<Byte>, crc: int) returns (suspect: bool)
      requires Valid()
      modifies `slot, `mem
      ensures Valid()
      ensures suspect <==> |body| < CTRL_HDR || Checksum(body) != crc
      ensures View() == if suspect then old(View()) else Step(old(View()), Reply(body))
      ensures !suspect && old(slot.phase) == Calls.Sent && body[0] == slot.cmd && body[1] == slot.tag ==>
        Settled(old(View()), View(), body)
    {
      if |body| >= CTRL_HDR { ReplyLands(View(), body); }
      suspect := |body| < CTRL_HDR || Checksum(body) != crc;
      if suspect || slot.phase != Calls.Sent || body[0] != slot.cmd || body[1] != slot.tag {
        return;
      }
      StepKeepsInv(View(), Reply(body));
      var plen := |body| - CTRL_HDR;
      var copy := if plen < slot.cap then plen else slot.cap;
      if slot.out.Some? {
        var b := slot.out.value;
        assert body[CTRL_HDR..][..copy] == body[CTRL_HDR..CTRL_HDR + copy];
        mem := mem[b := body[CTRL_HDR..CTRL_HDR + copy] + mem[b][copy..]];
      }
      slot := slot.(phase := Calls.Done, status := body[2], replyLen := plen);
    }

    method Look(fail: bool) returns (decided: bool, res: Result)
      requires Valid() && slot.waiter.Some?
      modifies `slot
      ensures Valid() && View() == Step(old(View()), Settle(fail))
      ensures decided == Decides(old(slot), fail) && res == Verdict(old(slot))
      ensures decided <==> fail || old(slot.phase) in {Calls.Done, Calls.Abandoned}
      ensures old(slot.phase) != Calls.Done <==> res == Lost
      ensures old(slot.phase) == Calls.Done ==>
        res == if old(slot.status) != 0 then Failed(old(slot.status)) else Got(old(slot.replyLen))
      ensures decided ==> slot.phase == Calls.Free && slot.out == None
    {
      StepKeepsInv(View(), Settle(fail));
      decided := slot.phase in {Calls.Done, Calls.Abandoned} || fail;
      res := if slot.phase != Calls.Done then Lost
             else if slot.status != 0 then Failed(slot.status) else Got(slot.replyLen);
      if decided { slot := slot.(phase := Calls.Free, out := None, cap := 0, waiter := None); }
    }

    method TearDown()
      requires Valid()
      modifies `slot, `linkUp
      ensures Valid() && View() == Step(old(View()), Teardown)
    {
      StepKeepsInv(View(), Teardown);
      linkUp := false;
      if slot.phase != Calls.Free {
        slot := slot.(out := None, cap := 0);
        slot := slot.(phase := if slot.waiter == None then Calls.Free else Calls.Abandoned);
      }
    }

    method LinkOpened(carries: bool)
      requires Valid()
      modifies `linkUp
      ensures Valid() && View() == Step(old(View()), Opened(carries))
    {
      linkUp := carries;
    }

    /** One locked section of somebody else's, with any arguments; a second caller's is no
        more than a refused request while this exchange stands. */
    method OneOther() returns (ghost e: Event)
      requires Valid()
      modifies this
      ensures Valid() && View() == Step(old(View()), e) && !e.Settle?
    {
      hide Inv, Step;
      var pick: nat, th: Thread, cmd: Byte, bytes: seq<Byte>, crc: int, n: nat, yes: bool
        := *, *, *, *, *, *, *;
      if pick == 0 {
        var out := if n in mem && 0 <= crc <= |mem[n]| then Some(n) else None;
        var cap: nat := if crc >= 0 then crc else 0;
        e := Ask(th, cmd, bytes, out, cap);
        var _ := AskFor(th, cmd, bytes, out, cap);
      } else if pick == 1 {
        e := Send;
        SendQueued();
      } else if pick == 2 && |bytes| >= CTRL_HDR {
        e := Reply(bytes);
        var _ := Dispatch(bytes, Checksum(bytes));
      } else if pick == 3 {
        e := Teardown;
        TearDown();
      } else {
        e := Opened(yes);
        LinkOpened(yes);
      }
    }

    method Interlude() returns (ghost es: seq<Event>)
      requires Valid()
      modifies this
      ensures Valid() && View() == Run(old(View()), es) && Others(es)
    {
      hide Inv, Step;
      es := [];
      var n: nat :| 0 <= n;
      for i := 0 to n
        invariant Valid() && View() == Run(old(View()), es) && Others(es)
      {
        ghost var e := OneOther();
        RunSnoc(old(View()), es, e);
        es := es + [e];
      }
    }

    /** One whole exchange of `ticks` polls, everybody else running in between.  The verdict
        is the slot's at the look that ends it, so that no reply taken before is thrown away.
        A length or a status is what some reply with this exchange's command and number said
        to the request that went out, and the buffer holds that reply's payload; and there is
        one exactly if such a reply landed and the link was not torn down.  Lost on a link
        that stayed up, the exchange had all its polls.  Whatever the verdict, the slot is
        free behind it and holds no buffer. */
    method Call(me: Thread, cmd: Byte, req: seq<Byte>, out: Option<Buffer>, cap: nat, ticks: nat)
      returns (res: Result, ghost es: seq<Event>, ghost answer: seq<Byte>, ghost polls: nat)
      requires Valid() && Calls.BufferFits(mem, out, cap)
      modifies this
      ensures Valid()
      ensures res == Refused <==> !MayAsk(old(View()), Ask(me, cmd, req, out, cap))
      ensures res == Refused <==>
        |req| > CTRL_MAX - CTRL_HDR || !old(linkUp) || old(slot.phase) != Calls.Free
      ensures res == Refused ==> View() == old(View())
      ensures res != Refused ==>
        (res.Got? || res.Failed? <==>
           Teardown !in es && Landed(Step(old(View()), Ask(me, cmd, req, out, cap)), es))
      ensures polls <= ticks && (res == Lost && Teardown !in es ==> polls == ticks)
      ensures res.Got? || res.Failed? ==>
        wire == old(wire) + Wire(Frame(Ctrl, [cmd, (old(count) + 1) % TAGS, 0, 0] + req))
      ensures res != Refused ==>
        var mine := Step(old(View()), Ask(me, cmd, req, out, cap));
        && Others(es) && View() == Step(Run(mine, es), Settle(true))
        && res == Verdict(Run(mine, es).slot)
        && (res.Got? || res.Failed? ==>
              && Reply(answer) in es && Echoes(answer, cmd, mine.slot.tag)
              && res == (if answer[2] != 0 then Failed(answer[2]) else Got(|answer| - CTRL_HDR))
              && (out.Some? ==> Holds(mem, out.value,
                    Calls.Copied(old(mem)[out.value], answer[CTRL_HDR..], cap))))
    {
      hide Inv, Step, MayAsk, Holds, Landed, Wire;
      res, es, answer, polls := Refused, [], [], 0;
      ghost var before := View();
      var ok := AskFor(me, cmd, req, out, cap);
      if !ok {
        RefusedChangesNothing(old(View()), Ask(me, cmd, req, out, cap));
        return;
      }
      ghost var mine := View();
      AskedIsAwaiting(old(View()), Ask(me, cmd, req, out, cap));
      AskLands(before, me, cmd, req, out, cap);
      var left := ticks;
      while true
        invariant Valid() && View() == Run(mine, es) && Others(es)
        invariant polls == ticks - left
        decreases left
      {
        ghost var more := Interlude();
        RunConcat(mine, es, more);
        es := es + more;
        answer := Awaited(mine, es);
        Fate(mine, es);
        var decided, r := Look(left == 0);
        if decided {
          res := r;
          DecidedIs(Run(mine, es), left == 0);
          return;
        }
        UndecidedChangesNothing(Run(mine, es), left == 0);
        left, polls := left - 1, polls + 1;
      }
    }
  }
}
