/** Programming the module's flash over its downloader: what goes on the wire, in what order,
    and behind which gates, whatever the module answers. */
module Flasher {
  import opened Bytes
  import opened Digest

  const STX: Byte := 0x02
  const SOH: Byte := 0x01
  const PAD: Byte := 0xFF
  const FLASH_BASE := 0x0800_0000
  const READ_MAX := 0x100_0000
  const WRITE_MAX := 0x20_0000
  const SECTOR := 4096
  const STUB_ADDR := 0x8_2000
  const STUB_ENTRY := 0x8_2021
  const STUB_MAX := 0x1_0000
  const KM0_MAGIC: seq<Byte> := [0x99, 0x99, 0x96, 0x96, 0x3F, 0xCC, 0x66, 0xFC]

  datatype Cmd =
    | Enter
    | ReadWord(at: nat)
    | SetBaud(rate: nat)
    | Reopen(rate: nat)       // the host's own end, acknowledged if it opened
    | Begin
    | Block(head: Byte, number: Byte, addr: nat, data: seq<Byte>)
    | End
    | ReadFlash(off: nat, sectors: nat)
    | Erase(off: nat)
    | AskSum(off: nat, len: nat)

  /** What came back: nothing, an acknowledgement, a number or a span of the flash; or the
      user gave up waiting. */
  datatype Answer = Silence | Aborted | Ack | Word(value: nat) | Span(bytes: seq<Byte>)

  /** One command and its answer. */
  datatype Turn = Turn(cmd: Cmd, answer: Answer)

  datatype Result =
    | Ok | BadArgs | NoSession | NotFirmware | TooBig | EraseFailed | WriteFailed
    | NoSecondSession | NoSum | Mismatch | ProbeFailed

  /** dl_flash_range_ok */
  predicate RangeOk(off: nat, len: nat, max: nat): (ok: bool)
    ensures ok <==> off % SECTOR == 0 && len % SECTOR == 0 && 0 < len && off + len <= max
  {
    off % SECTOR == 0 && len % SECTOR == 0 && len != 0 && off < max && len <= max - off
  }

  // ---- the bytes of a block ----

  function Sum(s: seq<Byte>): nat {
    if s == [] then 0 else Sum(s[..|s| - 1]) + s[|s| - 1] as int
  }

  function Packet(head: Byte, number: Byte, addr: nat, data: seq<Byte>): seq<Byte>
    requires addr < WORD
  {
    [head, number, 0xFF - number] + Le32(addr) + data + [Sum(Le32(addr) + data) % 0x100]
  }

  function Padded(data: seq<Byte>, n: nat): (p: seq<Byte>)
    requires |data| <= n
    ensures |p| == n
  {
    data + seq(n - |data|, _ => PAD)
  }

  // ---- what a transfer consists of ----

  function Size(left: nat): (n: nat)
    ensures n == 128 || n == 1024
  {
    if left > 128 then 1024 else 128
  }

  function Take(left: nat): (t: nat)
    ensures t <= left && t <= Size(left) && (left > 0 ==> t > 0)
  {
    if left < Size(left) then left else Size(left)
  }

  function BlockAt(data: seq<Byte>, addr: nat, off: nat, number: Byte): (b: Cmd)
    requires off < |data|
    ensures b.Block? && b.addr == addr + off
    ensures b.data == Padded(data[off..off + Take(|data| - off)], Size(|data| - off))
  {
    var left := |data| - off;
    Block(if left > 128 then STX else SOH, number, addr + off,
          Padded(data[off..off + Take(left)], Size(left)))
  }

  lemma BlockIs(data: seq<Byte>, addr: nat, off: nat, number: Byte)
    requires off < |data|
    ensures var left := |data| - off;
      BlockAt(data, addr, off, number) ==
        Block(if left > 128 then STX else SOH, number, addr + off,
              Padded(data[off..off + Take(left)], Size(left)))
  {
  }

  function Blocks(data: seq<Byte>, addr: nat, off: nat, number: Byte): (cs: seq<Cmd>)
    requires off <= |data|
    decreases |data| - off
  {
    if off == |data| then []
    else
      [BlockAt(data, addr, off, number)]
      + Blocks(data, addr, off + Take(|data| - off), (number + 1) % 0x100)
  }

  function Transfer(data: seq<Byte>, addr: nat): seq<Cmd> {
    [Begin] + Blocks(data, addr, 0, 1) + [End]
  }

  /** In whole sectors the blocks tile the range: the k-th carries the k-th kilobyte, to its
      own address, nothing but it, and there is one for each. */
  lemma {:induction false} BlocksTile(data: seq<Byte>, addr: nat, off: nat, number: Byte, k: nat)
    requires off <= |data| && (|data| - off) % 1024 == 0
    ensures |Blocks(data, addr, off, number)| * 1024 == |data| - off
    ensures k < |Blocks(data, addr, off, number)| ==>
      var b := Blocks(data, addr, off, number)[k];
      && off + (k + 1) * 1024 <= |data|
      && b == Block(STX, (number + k) % 0x100, addr + off + k * 1024,
                    data[off + k * 1024..off + (k + 1) * 1024])
    decreases |data| - off
  {
    hide Blocks;
    if off < |data| {
      var next: Byte := (number + 1) % 0x100;
      FirstBlock(data, addr, off, number);
      BlocksTile(data, addr, off + 1024, next, if k == 0 then 0 else k - 1);
      if k > 0 { NextKilobyte(off, number, k); }
    } else {
      LastBlockOff(data, addr, number);
    }
  }

  lemma NextKilobyte(off: nat, number: nat, k: nat)
    requires k > 0
    ensures off + 1024 + (k - 1) * 1024 == off + k * 1024
    ensures off + 1024 + (k - 1 + 1) * 1024 == off + (k + 1) * 1024
    ensures ((number + 1) % 0x100 + (k - 1)) % 0x100 == (number + k) % 0x100
  {
  }

  lemma FirstBlock(data: seq<Byte>, addr: nat, off: nat, number: Byte)
    requires off < |data| && (|data| - off) % 1024 == 0
    ensures off + 1024 <= |data|
    ensures Blocks(data, addr, off, number)
         == [Block(STX, number, addr + off, data[off..off + 1024])]
            + Blocks(data, addr, off + 1024, (number + 1) % 0x100)
  {
    NoPadding(data[off..off + 1024], 1024);
    assert Take(|data| - off) == 1024;
  }

  lemma NoPadding(data: seq<Byte>, n: nat)
    requires |data| == n
    ensures Padded(data, n) == data
  {
  }

  function Erases(off: nat, sectors: nat): (cs: seq<Cmd>)
    ensures |cs| == sectors
  {
    seq(sectors, i requires 0 <= i < sectors => Erase(off + i * SECTOR))
  }

  /** Everything destructive about programming `data` at `off`. */
  function Work(off: nat, data: seq<Byte>): seq<Cmd> {
    Erases(off, |data| / SECTOR) + Transfer(data, FLASH_BASE + off)
  }

  predicate Harmless(c: Cmd) {
    !c.Erase? && (c.Block? ==> c.addr + |c.data| <= FLASH_BASE)
  }

  /** Touches nothing outside [lo, hi) of the flash. */
  predicate Within(c: Cmd, lo: nat, hi: nat) {
    && (c.Erase? ==> lo <= c.off && c.off + SECTOR <= hi)
    && (c.Block? ==> FLASH_BASE + lo <= c.addr && c.addr + |c.data| <= FLASH_BASE + hi)
  }

  lemma Aligned(n: nat)
    requires n % SECTOR == 0
    ensures n % 1024 == 0 && n / 1024 * 1024 == n && n / SECTOR * SECTOR == n
  {
    var q := n / SECTOR;
    assert n == 1024 * (4 * q);
  }

  lemma BlockInside(data: seq<Byte>, addr: nat, k: nat)
    requires |data| % SECTOR == 0 && k < |data| / 1024
    ensures |Blocks(data, addr, 0, 1)| == |data| / 1024 && (k + 1) * 1024 <= |data|
    ensures Blocks(data, addr, 0, 1)[k] ==
      Block(STX, (1 + k) % 0x100, addr + k * 1024, data[k * 1024..(k + 1) * 1024])
  {
    hide Blocks;
    Aligned(|data|);
    BlocksTile(data, addr, 0, 1, k);
  }

  /** The work stays inside its range. */
  lemma WorkIsWithin(off: nat, data: seq<Byte>)
    requires RangeOk(off, |data|, WRITE_MAX)
    ensures forall c <- Work(off, data) :: Within(c, off, off + |data|)
  {
    hide Blocks;
    var n, bs := |data| / SECTOR, Blocks(data, FLASH_BASE + off, 0, 1);
    Aligned(|data|);
    forall i | 0 <= i < n ensures Within(Erases(off, n)[i], off, off + |data|) {
      assert (i + 1) * SECTOR <= n * SECTOR;
    }
    BlocksTile(data, FLASH_BASE + off, 0, 1, 0);
    forall k | 0 <= k < |bs| ensures Within(bs[k], off, off + |data|) {
      BlockInside(data, FLASH_BASE + off, k);
    }
  }

  /** Sector by sector and kilobyte by kilobyte, the work covers its range once, in order:
      the i-th erase and the k-th block are exactly these, and there is nothing else. */
  lemma WorkTiles(off: nat, data: seq<Byte>, i: nat, k: nat)
    requires RangeOk(off, |data|, WRITE_MAX) && i < |data| / SECTOR && k < |data| / 1024
    ensures var n, m := |data| / SECTOR, |data| / 1024;
      && n * SECTOR == m * 1024 == |data| && |Work(off, data)| == n + m + 2
      && Work(off, data)[i] == Erase(off + i * SECTOR)
      && Work(off, data)[n] == Begin && Work(off, data)[n + m + 1] == End
      && (k + 1) * 1024 <= |data|
      && Work(off, data)[n + 1 + k] ==
         Block(STX, (1 + k) % 0x100, FLASH_BASE + off + k * 1024, data[k * 1024..(k + 1) * 1024])
  {
    hide Blocks;
    Aligned(|data|);
    BlockInside(data, FLASH_BASE + off, k);
    Placed(Erases(off, |data| / SECTOR), Blocks(data, FLASH_BASE + off, 0, 1), k);
  }

  lemma Placed(es: seq<Cmd>, bs: seq<Cmd>, k: nat)
    requires k < |bs|
    ensures (es + ([Begin] + bs + [End]))[|es| + 1 + k] == bs[k]
  {
  }

  // ---- what the answers say ----

  function Said(ts: seq<Turn>): (cs: seq<Cmd>)
    ensures |cs| == |ts|
  {
    seq(|ts|, i requires 0 <= i < |ts| => ts[i].cmd)
  }

  lemma SaidConcat(a: seq<Turn>, b: seq<Turn>)
    ensures Said(a + b) == Said(a) + Said(b)
  {
  }

  /** The commands `cs` one by one, each only after the one before it was acknowledged: all
      of them if `ok`, otherwise up to the first that was not. */
  predicate Ran(ts: seq<Turn>, cs: seq<Cmd>, ok: bool) {
    && Said(ts) <= cs
    && (forall k :: 0 <= k < |ts| - 1 ==> ts[k].answer == Ack)
    && (ok ==> |ts| == |cs| && (ts != [] ==> ts[|ts| - 1].answer == Ack))
    && (!ok ==> ts != [] && ts[|ts| - 1].answer != Ack)
  }

  lemma RanMore(a: seq<Turn>, cs: seq<Cmd>, b: seq<Turn>, ds: seq<Cmd>, ok: bool)
    requires Ran(a, cs, true) && Ran(b, ds, ok)
    ensures Ran(a + b, cs + ds, ok)
  {
    assert Said(a) == cs;
    SaidConcat(a, b);
  }

  lemma RanShort(a: seq<Turn>, cs: seq<Cmd>, ds: seq<Cmd>)
    requires Ran(a, cs, false)
    ensures Ran(a, cs + ds, false)
  {
  }

  /** The flashloader answered for itself at the end of `ts`. */
  predicate Resident(ts: seq<Turn>) {
    ts != [] && ts[|ts| - 1] == Turn(ReadWord(STUB_ADDR), Word(STUB_ENTRY))
  }

  // ---- bringing the flashloader up ----

  const ROM_BAUD := 115_200
  const FAST_BAUD := 1_500_000
  const START: seq<Cmd> := [Enter, SetBaud(FAST_BAUD), Reopen(FAST_BAUD)]

  predicate StubOk(stub: seq<Byte>) {
    0 < |stub| <= STUB_MAX
  }

  /** Everything it takes to get the stub running at the working rate. */
  function Upload(stub: seq<Byte>): seq<Cmd> {
    Transfer(stub, STUB_ADDR) + [Reopen(ROM_BAUD), SetBaud(FAST_BAUD), Reopen(FAST_BAUD)]
  }

  /** The session opened, up to `ok`: the start, then a look whether the stub is there
      already, and unless it is, or the user gave up, the upload and a second look. */
  predicate Opened(ts: seq<Turn>, stub: seq<Byte>, ok: bool) {
    var n := |START|;
    if |ts| <= n then !ok && Ran(ts, START, false)
    else
      && Ran(ts[..n], START, true) && ts[n].cmd == ReadWord(STUB_ADDR)
      && if ts[n].answer in {Aborted, Word(STUB_ENTRY)}
         then |ts| == n + 1 && (ok <==> ts[n].answer != Aborted)
         else Uploaded(ts[n + 1..], stub, ok)
  }

  predicate Uploaded(ts: seq<Turn>, stub: seq<Byte>, ok: bool) {
    var n := |Upload(stub)|;
    if !StubOk(stub) then ts == [] && !ok
    else if |ts| <= n then !ok && Ran(ts, Upload(stub), false)
    else
      && |ts| == n + 1 && Ran(ts[..n], Upload(stub), true)
      && ts[n].cmd == ReadWord(STUB_ADDR) && (ok <==> ts[n].answer == Word(STUB_ENTRY))
  }

  predicate Plain(c: Cmd) {
    Harmless(c) && !c.ReadWord?
  }

  lemma UploadIsPlain(stub: seq<Byte>)
    requires StubOk(stub)
    ensures forall c <- Upload(stub) :: Plain(c)
  {
    TransferIsHarmless(stub, STUB_ADDR);
  }

  lemma RanIsPlain(ts: seq<Turn>, cs: seq<Cmd>, ok: bool)
    requires Ran(ts, cs, ok) && forall c <- cs :: Plain(c)
    ensures forall k :: 0 <= k < |ts| ==> Plain(ts[k].cmd)
    ensures AllHarmless(ts) && !Resident(ts)
  {
    forall k | 0 <= k < |ts| ensures Plain(ts[k].cmd) { assert Said(ts)[k] == cs[k]; }
  }

  lemma UploadedIff(ts: seq<Turn>, stub: seq<Byte>, ok: bool)
    requires Uploaded(ts, stub, ok)
    ensures AllHarmless(ts) && (ok <==> Resident(ts))
  {
    hide Ran, Upload, Harmless;
    var n := |Upload(stub)|;
    if StubOk(stub) {
      UploadIsPlain(stub);
      if |ts| <= n {
        RanIsPlain(ts, Upload(stub), false);
      } else {
        RanIsPlain(ts[..n], Upload(stub), true);
        forall k | 0 <= k < |ts| ensures Harmless(ts[k].cmd) {
          if k < n { assert Plain(ts[..n][k].cmd); } else { LookIsHarmless(); }
        }
      }
    }
  }

  lemma LookIsHarmless()
    ensures Harmless(ReadWord(STUB_ADDR)) && forall c <- START :: Plain(c)
  {
  }

  /** Whether it came up is what it said of itself last; and nothing was harmed. */
  lemma OpenedIff(ts: seq<Turn>, stub: seq<Byte>, ok: bool)
    requires Opened(ts, stub, ok)
    ensures AllHarmless(ts) && (ok <==> Resident(ts))
  {
    hide Ran, Uploaded, Harmless;
    var n := |START|;
    LookIsHarmless();
    if |ts| <= n {
      RanIsPlain(ts, START, false);
    } else {
      var more := ts[n + 1..];
      RanIsPlain(ts[..n], START, true);
      if ts[n].answer !in {Aborted, Word(STUB_ENTRY)} { UploadedIff(more, stub, ok); }
      forall k | 0 <= k < |ts| ensures Harmless(ts[k].cmd) {
        if k < n { assert Plain(ts[..n][k].cmd); }
        if k > n { assert ts[k] == more[k - n - 1]; }
      }
    }
  }

  /** A module that answered the first look with anything but the stub's own word is sent the
      stub, from its first byte, before the session may fail for any other reason; and there
      is a second look once all of it has been acknowledged. */
  lemma StubGoesUp(ts: seq<Turn>, stub: seq<Byte>, ok: bool)
    requires Opened(ts, stub, ok) && StubOk(stub)
    requires |ts| > 3 && ts[3].answer !in {Aborted, Word(STUB_ENTRY)}
    ensures |ts| > 4 && ts[4].cmd == Begin
    ensures forall k :: 4 <= k < |ts| && k < 4 + |Transfer(stub, STUB_ADDR)| ==>
      ts[k].cmd == Transfer(stub, STUB_ADDR)[k - 4]
    ensures forall k :: 4 <= k < |ts| - 1 ==> ts[k].answer == Ack
    ensures var last := ts[|ts| - 1];
      last.answer == Ack ==> last.cmd == ReadWord(STUB_ADDR)
    ensures var last := ts[|ts| - 1];
      last.cmd == ReadWord(STUB_ADDR) ==> |ts| == 5 + |Upload(stub)|
  {
    var sent, more, n := Transfer(stub, STUB_ADDR), ts[4..], |Upload(stub)|;
    assert sent[0] == Begin;
    var run := if |more| <= n then more else more[..n];
    UploadIsPlain(stub);
    RanIsPlain(run, Upload(stub), |more| > n);
    forall k | 0 <= k < |run| ensures run[k] == ts[4 + k] && run[k].cmd == Upload(stub)[k] {
      assert Said(run)[k] == Upload(stub)[k];
    }
    forall k | 4 <= k < |ts| && k < 4 + |sent| ensures ts[k].cmd == sent[k - 4] {
      assert run[k - 4] == ts[k];
    }
    forall k | 4 <= k < |ts| - 1 ensures ts[k].answer == Ack { assert run[k - 4] == ts[k]; }
    if |more| <= n { assert run[|run| - 1] == ts[|ts| - 1]; }
  }

  /** Why there is no session: a step that was not acknowledged, a look that the user broke
      off or that did not show the stub, or a stub that is no stub. */
  lemma WhyNoSession(ts: seq<Turn>, stub: seq<Byte>)
    requires Opened(ts, stub, false)
    ensures ts != []
    ensures var last := ts[|ts| - 1];
      if last.cmd != ReadWord(STUB_ADDR) then last.answer != Ack
      else if |ts| == 4 then last.answer == Aborted || !StubOk(stub)
      else last.answer != Word(STUB_ENTRY) && |ts| == 5 + |Upload(stub)|
  {
    LookIsHarmless();
    if |ts| <= 3 {
      RanIsPlain(ts, START, false);
    } else if ts[3].answer != Aborted && StubOk(stub) {
      StubGoesUp(ts, stub, false);
      assert ts[4..][|ts| - 5] == ts[|ts| - 1];
    }
  }

  const CANDIDATES := [0x10_0000, 0x20_0000, 0x40_0000, 0x80_0000]

  function Blank(): (b: seq<Byte>)
    ensures |b| == SECTOR
  {
    seq(SECTOR, _ => PAD)
  }

  datatype Probe = Failed | BlankChip | Sized(size: nat)   // 0: no wrap seen

  /** The whole sector, if that is what came back. */
  function Seen(t: Turn): Option<seq<Byte>> {
    if t.answer.Span? && |t.answer.bytes| == SECTOR then Some(t.answer.bytes) else None
  }

  /** Where the k-th look of the size probe goes. */
  function LookAt(k: nat): Cmd
    requires k <= |CANDIDATES|
  {
    ReadFlash(if k == 0 then 0 else CANDIDATES[k - 1], 1)
  }

  /** Looks in order, every one answered in full but possibly the last, and no candidate's
      sector the same as the first sector but possibly the last's. */
  predicate Probing(looks: seq<Turn>) {
    && 0 < |looks| <= 1 + |CANDIDATES|
    && (forall k :: 0 <= k < |looks| ==> looks[k].cmd == LookAt(k))
    && (forall k :: 0 <= k < |looks| - 1 ==> Seen(looks[k]) != None)
    && (forall k :: 1 <= k < |looks| - 1 ==> Seen(looks[k]) != Seen(looks[0]))
    && (|looks| > 1 ==> Seen(looks[0]) != Some(Blank()))
  }

  lemma FirstLook(t: Turn)
    requires t.cmd == LookAt(0)
    ensures Probing([t])
  {
  }

  lemma NextLook(looks: seq<Turn>, t: Turn)
    requires Probing(looks) && |looks| <= |CANDIDATES| && t.cmd == LookAt(|looks|)
    requires Seen(looks[|looks| - 1]) != None && Seen(looks[0]) != Some(Blank())
    requires |looks| > 1 ==> Seen(looks[|looks| - 1]) != Seen(looks[0])
    ensures Probing(looks + [t])
  {
    hide Seen, LookAt;
  }

  /** What the looks show.  A capacity is where the first sector came back again. */
  predicate Shows(looks: seq<Turn>, probe: Probe) {
    Probing(looks) &&
    var last := looks[|looks| - 1];
    match probe
    case Failed => Seen(last) == None
    case BlankChip => |looks| == 1 && Seen(last) == Some(Blank())
    case Sized(size) =>
      && Seen(last) != None && |looks| > 1
      && if size != 0 then last.cmd.off == size && Seen(last) == Seen(looks[0])
         else |looks| == 1 + |CANDIDATES| && Seen(last) != Seen(looks[0])
  }

  /** The answers leave no choice. */
  lemma ShowsOne(looks: seq<Turn>, p: Probe, q: Probe)
    requires Shows(looks, p) && Shows(looks, q)
    ensures p == q
  {
  }

  predicate ImageOk(off: nat, data: seq<Byte>) {
    off == 0 ==> KM0_MAGIC <= data
  }

  predicate Fits(probe: Probe, off: nat, len: nat) {
    && probe != Failed
    && (probe.Sized? && probe.size != 0 ==> off + len <= probe.size)
  }

  /** The command the turns end with. */
  function Last(ts: seq<Turn>): Cmd {
    if ts == [] then Enter else ts[|ts| - 1].cmd
  }

  /** All three gates were passed. */
  predicate Passed(r: Result) {
    r in {EraseFailed, WriteFailed, NoSecondSession, NoSum, Mismatch, Ok}
  }

  /** What the second session says of the range: nothing if it did not come up, and
      otherwise what the module answers to the one question put to it. */
  function Judged(session: seq<Turn>, asked: seq<Turn>, data: seq<Byte>): Result {
    if !Resident(session) then NoSecondSession
    else if asked == [] || !asked[0].answer.Word? then NoSum
    else if asked[0].answer.value != WordSum(data) then Mismatch
    else Ok
  }

  predicate AllHarmless(ts: seq<Turn>) {
    forall t <- ts :: Harmless(t.cmd)
  }

  // ---- the session ----

  class Session {
    var talk: seq<Turn>            // everything said, and what was answered
    const pkt: array<Byte>
    const stub: seq<Byte>          // the flashloader's image

    constructor (flashloader: seq<Byte>)
      ensures talk == [] && pkt.Length == 1032 && stub == flashloader
    {
      talk, stub := [], flashloader;
      pkt := new Byte[1032](_ => 0);
    }

    method Say(c: Cmd) returns (answer: Answer)
      modifies `talk
      ensures talk == old(talk) + [Turn(c, answer)]
    {
      answer := *;
      talk := talk + [Turn(c, answer)];
    }

    /** A command that only wants acknowledging. */
    method Order(c: Cmd) returns (ok: bool, ghost ts: seq<Turn>)
      modifies `talk
      ensures talk == old(talk) + ts && Ran(ts, [c], ok)
    {
      var answer := Say(c);
      ok, ts := answer == Ack, [Turn(c, answer)];
    }

    /** The block in its buffer, padded and summed as the module wants it. */
    method MakeBlock(number: Byte, addr: nat, piece: seq<Byte>, n: nat, head: Byte) returns (len: nat)
      requires pkt.Length == 1032 && addr < WORD && |piece| <= n && (n == 128 || n == 1024)
      modifies pkt
      ensures len == 8 + n && pkt[..len] == Packet(head, number, addr, Padded(piece, n))
    {
      hide Le32, Sum;
      var a := Le32(addr);
      ghost var body := a + Padded(piece, n);
      pkt[0], pkt[1], pkt[2] := head, number, 0xFF - number;
      pkt[3], pkt[4], pkt[5], pkt[6] := a[0], a[1], a[2], a[3];
      for i := 0 to n
        invariant pkt[..3] == [head, number, 0xFF - number]
        invariant forall k :: 0 <= k < 4 + i ==> pkt[3 + k] == body[k]
      {
        pkt[7 + i] := if i < |piece| then piece[i] else PAD;
      }
      assert pkt[3..7 + n] == body;
      var sum := SumOf(3, 7 + n);
      pkt[7 + n] := sum % 0x100;
      len := 8 + n;
      assert pkt[..len] == pkt[..3] + pkt[3..7 + n] + [pkt[7 + n]];
    }

    method SumOf(lo: nat, hi: nat) returns (sum: nat)
      requires lo <= hi <= pkt.Length
      ensures sum == Sum(pkt[lo..hi])
    {
      sum := 0;
      for i := lo to hi
        invariant sum == Sum(pkt[lo..i])
      {
        assert pkt[lo..i + 1][..i - lo] == pkt[lo..i];
        sum := sum + pkt[i] as int;
      }
    }

    /** What goes out for a block is the packet in the buffer. */
    method OrderBlock(len: nat, c: Cmd) returns (ok: bool, ghost ts: seq<Turn>)
      requires c.Block? && c.addr < WORD && len <= pkt.Length
      requires pkt[..len] == Packet(c.head, c.number, c.addr, c.data)
      modifies `talk
      ensures talk == old(talk) + ts && Ran(ts, [c], ok)
    {
      ok, ts := Order(c);
    }

    /** dl_send_blocks: the transfer, each packet only after the one before it was
        acknowledged. */
    method SendBlocks(data: seq<Byte>, addr: nat) returns (ok: bool, ghost ts: seq<Turn>)
      requires pkt.Length == 1032 && addr + |data| < WORD
      modifies `talk, pkt
      ensures talk == old(talk) + ts && Ran(ts, Transfer(data, addr), ok)
    {
      hide BlockAt, Padded, Packet, Size, Take, Ran, Blocks;
      ghost var t, done: seq<Cmd> := [], [Begin];
      ok, ts := Order(Begin);
      TransferIs(data, addr);
      if !ok { RanShort(ts, done, Blocks(data, addr, 0, 1) + [End]); return; }
      var off, number: Byte := 0, 1;
      while off < |data|
        invariant off <= |data| && talk == old(talk) + ts && Ran(ts, done, true)
        invariant done + (Blocks(data, addr, off, number) + [End]) == Transfer(data, addr)
      {
        var left := |data| - off;
        var n, take := Size(left), Take(left);
        var head := if left > 128 then STX else SOH;
        var len := MakeBlock(number, addr + off, data[off..off + take], n, head);
        var block := Block(head, number, addr + off, Padded(data[off..off + take], n));
        OneBlockOff(data, addr, off, number);
        ok, t := OrderBlock(len, block);
        RanMore(ts, done, t, [block], ok);
        ts := ts + t;
        number, off := (number + 1) % 0x100, off + take;
        ghost var rest := Blocks(data, addr, off, number) + [End];
        assert done + [block] + rest == Transfer(data, addr);
        if !ok { RanShort(ts, done + [block], rest); return; }
        done := done + [block];
      }
      LastBlockOff(data, addr, number);
      assert [] + [End] == [End];
      ok, t := Order(End);
      RanMore(ts, done, t, [End], ok);
      ts := ts + t;
    }

    /** Only the flashloader's own window: this path can never reach the flash. */
    method SendSram(data: seq<Byte>, at: nat) returns (ok: bool, ghost ts: seq<Turn>)
      requires pkt.Length == 1032
      modifies `talk, pkt
      ensures talk == old(talk) + ts && AllHarmless(ts)
      ensures if at == STUB_ADDR && StubOk(data) then Ran(ts, Transfer(data, at), ok) else !ok && ts == []
    {
      hide Ran;
      if at != STUB_ADDR || |data| == 0 || |data| > STUB_MAX { return false, []; }
      ok, ts := SendBlocks(data, at);
      TransferIsHarmless(data, at);
      RanIsPlain(ts, Transfer(data, at), ok);
    }

    method SendFlash(data: seq<Byte>, off: nat) returns (ok: bool, ghost ts: seq<Turn>)
      requires pkt.Length == 1032
      modifies `talk, pkt
      ensures talk == old(talk) + ts
      ensures RangeOk(off, |data|, WRITE_MAX) ==> Ran(ts, Transfer(data, FLASH_BASE + off), ok)
      ensures !RangeOk(off, |data|, WRITE_MAX) ==> !ok && ts == []
    {
      if !RangeOk(off, |data|, WRITE_MAX) { return false, []; }
      ok, ts := SendBlocks(data, off % 0x100_0000 + FLASH_BASE);
    }

    method EraseSectors(off: nat, sectors: nat) returns (ok: bool, ghost ts: seq<Turn>)
      modifies `talk
      ensures talk == old(talk) + ts
      ensures RangeOk(off, sectors * SECTOR, WRITE_MAX) ==> Ran(ts, Erases(off, sectors), ok)
      ensures !RangeOk(off, sectors * SECTOR, WRITE_MAX) ==> !ok && ts == []
    {
      hide Ran;
      if sectors == 0 || sectors > 0x1_0000 || !RangeOk(off, sectors * SECTOR, WRITE_MAX) {
        return false, [];
      }
      ghost var all, t := Erases(off, sectors), [];
      ts := [];
      RanNothing();
      for i := 0 to sectors
        invariant talk == old(talk) + ts && Ran(ts, all[..i], true)
      {
        ok, t := Order(Erase(off + i * SECTOR));
        RanMore(ts, all[..i], t, [all[i]], ok);
        ts := ts + t;
        assert all[..i] + [all[i]] == all[..i + 1] && all[..i + 1] + all[i + 1..] == all;
        if !ok { RanShort(ts, all[..i + 1], all[i + 1..]); return; }
      }
      ok := true;
      assert all[..sectors] == all;
    }

    // ---- the steps that destroy nothing ----

    /** rtl_dl_set_baud: the module first, then the host's own end. */
    method Rate(baud: nat) returns (ok: bool, ghost ts: seq<Turn>)
      modifies `talk
      ensures talk == old(talk) + ts && Ran(ts, [SetBaud(baud), Reopen(baud)], ok)
    {
      hide Ran;
      ghost var t;
      assert [SetBaud(baud)] + [Reopen(baud)] == [SetBaud(baud), Reopen(baud)];
      ok, ts := Order(SetBaud(baud));
      if !ok { RanShort(ts, [SetBaud(baud)], [Reopen(baud)]); return; }
      ok, t := Order(Reopen(baud));
      RanMore(ts, [SetBaud(baud)], t, [Reopen(baud)], ok);
      ts := ts + t;
    }

    /** Power-cycle into the downloader and bring its flashloader up.  Every failure is one
        of those the turns show, and every step is tried before the one after it. */
    method Open() returns (ok: bool, ghost ts: seq<Turn>)
      requires pkt.Length == 1032
      modifies `talk, pkt
      ensures talk == old(talk) + ts && Opened(ts, stub, ok)
    {
      hide Ran, Uploaded;
      ghost var t;
      ghost var rate := [SetBaud(FAST_BAUD), Reopen(FAST_BAUD)];
      assert START == [Enter] + rate;
      ok, ts := Order(Enter);
      if !ok { RanShort(ts, [Enter], rate); RanLength(ts, START, false); return; }
      ok, t := Rate(FAST_BAUD);
      RanMore(ts, [Enter], t, rate, ok);
      ts := ts + t;
      RanLength(ts, START, ok);
      if !ok { return; }
      var answer := Say(ReadWord(STUB_ADDR));
      ghost var before := ts;
      ts := ts + [Turn(ReadWord(STUB_ADDR), answer)];
      assert ts[..|START|] == before;
      if answer == Aborted { return false, ts; }
      if answer == Word(STUB_ENTRY) { return true, ts; }
      ok, t := Load();
      before := ts;
      ts := ts + t;
      assert ts[..|START|] == before[..|START|] && ts[|START| + 1..] == t;
    }

    /** The stub into the module's memory, and another look whether it runs. */
    method Load() returns (ok: bool, ghost ts: seq<Turn>)
      requires pkt.Length == 1032
      modifies `talk, pkt
      ensures talk == old(talk) + ts && Uploaded(ts, stub, ok)
    {
      hide Ran, Transfer;
      ghost var sent, again := Transfer(stub, STUB_ADDR), [SetBaud(FAST_BAUD), Reopen(FAST_BAUD)];
      ghost var all, t := Upload(stub), [];
      assert all == sent + ([Reopen(ROM_BAUD)] + again) == sent + [Reopen(ROM_BAUD)] + again;
      ok, ts := SendSram(stub, STUB_ADDR);
      if !ok {
        if StubOk(stub) { RanShort(ts, sent, [Reopen(ROM_BAUD)] + again); RanLength(ts, all, false); }
        return;
      }
      ok, t := Order(Reopen(ROM_BAUD));
      RanMore(ts, sent, t, [Reopen(ROM_BAUD)], ok);
      ts := ts + t;
      if !ok { RanShort(ts, sent + [Reopen(ROM_BAUD)], again); RanLength(ts, all, false); return; }
      ok, t := Rate(FAST_BAUD);
      RanMore(ts, sent + [Reopen(ROM_BAUD)], t, again, ok);
      ts := ts + t;
      RanLength(ts, all, ok);
      if !ok { return; }
      var answer := Say(ReadWord(STUB_ADDR));
      ok := answer == Word(STUB_ENTRY);
      ghost var before := ts;
      ts := ts + [Turn(ReadWord(STUB_ADDR), answer)];
      assert ts[..|all|] == before;
    }

    /** The capacity, from where the address lines wrap. */
    method DetectSize() returns (probe: Probe, ghost looks: seq<Turn>)
      modifies `talk
      ensures talk == old(talk) + looks && Shows(looks, probe)
    {
      hide Probing, Blank;
      var base := Say(LookAt(0));
      looks := [Turn(LookAt(0), base)];
      FirstLook(looks[0]);
      if !base.Span? || |base.bytes| != SECTOR { return Failed, looks; }
      if base.bytes == Blank() { return BlankChip, looks; }
      for i := 0 to |CANDIDATES|
        invariant talk == old(talk) + looks && |looks| == i + 1 && Probing(looks)
        invariant Seen(looks[0]) == Some(base.bytes) != Some(Blank()) && Seen(looks[i]) != None
        invariant i > 0 ==> Seen(looks[i]) != Seen(looks[0])
      {
        var there := Say(ReadFlash(CANDIDATES[i], 1));
        NextLook(looks, Turn(LookAt(i + 1), there));
        looks := looks + [Turn(LookAt(i + 1), there)];
        if !there.Span? || |there.bytes| != SECTOR { return Failed, looks; }
        if there.bytes == base.bytes { return Sized(CANDIDATES[i]), looks; }
      }
      probe := Sized(0);
    }

    method FlashSum(off: nat, len: nat) returns (sum: Option<nat>, ghost ts: seq<Turn>)
      modifies `talk
      ensures talk == old(talk) + ts && AllHarmless(ts)
      ensures RangeOk(off, len, READ_MAX) ==> |ts| == 1 && ts[0].cmd == AskSum(off, len)
      ensures sum == if |ts| == 1 && ts[0].answer.Word? then Some(ts[0].answer.value) else None
    {
      if !RangeOk(off, len, READ_MAX) { return None, []; }
      var answer := Say(AskSum(off, len));
      ts := [Turn(AskSum(off, len), answer)];
      sum := if answer.Word? then Some(answer.value) else None;
    }

    // ---- the whole of it ----

    /** Erase, then write. */
    method Destroy(off: nat, data: seq<Byte>)
      returns (erased: bool, written: bool, ghost work: seq<Turn>)
      requires pkt.Length == 1032 && RangeOk(off, |data|, WRITE_MAX)
      modifies `talk, pkt
      ensures talk == old(talk) + work && Ran(work, Work(off, data), written)
      ensures !written ==> (erased <==> !Last(work).Erase?)
    {
      hide RangeOk, Erases, Transfer, Ran;
      SectorsOf(off, data);
      written := false;
      ghost var first, second := [], [];
      erased, first := EraseSectors(off, |data| / SECTOR);
      work := first;
      if !erased {
        RanShort(first, Erases(off, |data| / SECTOR), Transfer(data, FLASH_BASE + off));
        LastIsErase(first, off, |data| / SECTOR);
        return;
      }
      written, second := SendFlash(data, off);
      work := first + second;
      RanMore(first, Erases(off, |data| / SECTOR), second, Transfer(data, FLASH_BASE + off), written);
      if !written { LastIsNoErase(first, second, data, FLASH_BASE + off); }
    }

    /** rtl_dl_flash_program.  Whatever the module answers, what goes out is harmless until
        all three gates have been passed, the third on the strength of what the module
        showed at its candidate capacities; then the work in its order, each command only
        after the last was acknowledged; and then, only after all of it, harmless again.
        The result is what the answers say it is: success if and only if all the work was
        acknowledged and the module itself, asked last, summed the range to what was to be
        written. */
    method Program(off: nat, data: seq<Byte>)
      returns (r: Result, probe: Probe, ghost pre: seq<Turn>, ghost looks: seq<Turn>,
               ghost work: seq<Turn>, ghost post: seq<Turn>, ghost asked: seq<Turn>)
      requires pkt.Length == 1032
      modifies `talk, pkt
      ensures talk == old(talk) + pre + looks + work + post + asked
      ensures AllHarmless(pre) && AllHarmless(looks) && AllHarmless(post) && AllHarmless(asked)
      ensures r == BadArgs <==> !RangeOk(off, |data|, WRITE_MAX)
      ensures r == NotFirmware <==> RangeOk(off, |data|, WRITE_MAX) && !ImageOk(off, data)
      ensures r in {BadArgs, NotFirmware} ==> pre == []
      ensures r !in {BadArgs, NotFirmware} ==> Opened(pre, stub, r != NoSession)
      ensures r == NoSession ==> !Resident(pre)
      ensures r !in {BadArgs, NotFirmware, NoSession} ==> Resident(pre)
      ensures if Resident(pre) then Shows(looks, probe) else looks == work == post == asked == []
      ensures Resident(pre) ==> (r == ProbeFailed <==> probe == Failed)
      ensures Resident(pre) ==> (r == TooBig <==> probe != Failed && !Fits(probe, off, |data|))
      ensures r == TooBig <==> Resident(pre) && probe.Sized? && 0 < probe.size < off + |data|
      ensures r in {ProbeFailed, TooBig} ==> work == post == asked == []
      ensures Passed(r) ==> RangeOk(off, |data|, WRITE_MAX) && ImageOk(off, data)
      ensures Passed(r) ==> Resident(pre) && Fits(probe, off, |data|)
      ensures Passed(r) ==> Ran(work, Work(off, data), r !in {EraseFailed, WriteFailed})
      ensures r in {EraseFailed, WriteFailed} ==> post == asked == []
      ensures r in {EraseFailed, WriteFailed} ==> (r == EraseFailed <==> Last(work).Erase?)
      ensures Passed(r) && r !in {EraseFailed, WriteFailed} ==> r == Judged(post, asked, data)
      ensures Passed(r) && r !in {EraseFailed, WriteFailed} ==> Opened(post, stub, r != NoSecondSession)
      ensures Resident(post) ==> |asked| == 1 && asked[0].cmd == AskSum(off, |data|)
    {
      hide WordSum, Work, Harmless, RangeOk, Fits, ImageOk, Ran, Resident, Shows, Judged, Opened;
      pre, looks, work, post, asked, probe := [], [], [], [], [], Failed;
      NothingIsResident();
      if !RangeOk(off, |data|, WRITE_MAX) { r := BadArgs; return; }
      if !ImageOk(off, data) { r := NotFirmware; return; }
      var hostSum := HostSum(data);
      var ok: bool;
      ok, pre := Open();
      OpenedIff(pre, stub, ok);
      if !ok { r := NoSession; return; }
      probe, looks := DetectSize();
      LooksAreHarmless(looks, probe);
      FitsIs(probe, off, |data|);
      if probe == Failed { r := ProbeFailed; return; }
      if !Fits(probe, off, |data|) { r := TooBig; return; }
      var erased, written;
      erased, written, work := Destroy(off, data);
      if !written { r := if erased then WriteFailed else EraseFailed; return; }
      r, post, asked := Confirm(off, data, hostSum);
    }

    /** A second session, whose last word is the module's own sum of the range. */
    method Confirm(off: nat, data: seq<Byte>, hostSum: nat)
      returns (r: Result, ghost session: seq<Turn>, ghost asked: seq<Turn>)
      requires pkt.Length == 1032 && RangeOk(off, |data|, WRITE_MAX) && hostSum == WordSum(data)
      modifies `talk, pkt
      ensures talk == old(talk) + session + asked && AllHarmless(session) && AllHarmless(asked)
      ensures r == Judged(session, asked, data) && Opened(session, stub, r != NoSecondSession)
      ensures r in {NoSecondSession, NoSum, Mismatch, Ok}
      ensures if Resident(session) then |asked| == 1 && asked[0].cmd == AskSum(off, |data|)
              else asked == []
    {
      hide Harmless, WordSum, Resident, Opened;
      var ok: bool;
      asked := [];
      ok, session := Open();
      OpenedIff(session, stub, ok);
      if !ok { r := NoSecondSession; return; }
      var sum: Option<nat>;
      sum, asked := FlashSum(off, |data|);
      if sum == None { r := NoSum; return; }
      r := if sum.value != hostSum then Mismatch else Ok;
    }

    method HostSum(data: seq<Byte>) returns (sum: nat)
      ensures sum == WordSum(data)
    {
      hide WordSum, Holds;
      var d := new Accumulator();
      d.Add(data);
      sum := d.Value();
      assert [] + data == data;
    }
  }

  lemma RanLength(ts: seq<Turn>, cs: seq<Cmd>, ok: bool)
    requires Ran(ts, cs, ok)
    ensures |ts| <= |cs| && (ok ==> |ts| == |cs|)
  {
  }

  lemma RanNothing()
    ensures Ran([], [], true)
  {
  }

  lemma NothingIsResident()
    ensures !Resident([])
  {
  }

  lemma FitsIs(probe: Probe, off: nat, len: nat)
    ensures Fits(probe, off, len) <==>
      probe == BlankChip || (probe.Sized? && !(0 < probe.size < off + len))
  {
  }

  lemma LooksAreHarmless(looks: seq<Turn>, probe: Probe)
    requires Shows(looks, probe)
    ensures AllHarmless(looks)
  {
  }

  lemma SectorsOf(off: nat, data: seq<Byte>)
    requires RangeOk(off, |data|, WRITE_MAX)
    ensures |data| / SECTOR * SECTOR == |data|
  {
    Aligned(|data|);
  }

  lemma LastIsErase(ts: seq<Turn>, off: nat, sectors: nat)
    requires Ran(ts, Erases(off, sectors), false)
    ensures Last(ts).Erase?
  {
    assert Said(ts)[|ts| - 1] == Erases(off, sectors)[|ts| - 1];
  }

  lemma LastIsNoErase(before: seq<Turn>, ts: seq<Turn>, data: seq<Byte>, addr: nat)
    requires Ran(ts, Transfer(data, addr), false)
    ensures !Last(before + ts).Erase?
  {
    BlocksAreBlocks(data, addr, 0, 1);
    assert Said(ts)[|ts| - 1] in Transfer(data, addr);
  }

  lemma {:induction false} BlocksAreBlocks(data: seq<Byte>, addr: nat, off: nat, number: Byte)
    requires off <= |data|
    ensures forall c <- Blocks(data, addr, off, number) :: c.Block?
    decreases |data| - off
  {
    if off < |data| {
      BlocksAreBlocks(data, addr, off + Take(|data| - off), (number + 1) % 0x100);
    }
  }

  lemma TransferIs(data: seq<Byte>, addr: nat)
    ensures Transfer(data, addr) == [Begin] + (Blocks(data, addr, 0, 1) + [End])
  {
  }

  lemma OneBlockOff(data: seq<Byte>, addr: nat, off: nat, number: Byte)
    requires off < |data|
    ensures var left := |data| - off;
      Blocks(data, addr, off, number) ==
        [Block(if left > 128 then STX else SOH, number, addr + off,
               Padded(data[off..off + Take(left)], Size(left)))]
        + Blocks(data, addr, off + Take(left), (number + 1) % 0x100)
  {
    BlockIs(data, addr, off, number);
  }

  lemma LastBlockOff(data: seq<Byte>, addr: nat, number: Byte)
    ensures Blocks(data, addr, |data|, number) == []
  {
  }

  lemma TransferIsHarmless(data: seq<Byte>, at: nat)
    requires at == STUB_ADDR && |data| <= STUB_MAX
    ensures forall c <- Transfer(data, at) :: Harmless(c) && !c.ReadWord?
  {
    BlocksStayBelow(data, at, 0, 1);
    BlocksAreBlocks(data, at, 0, 1);
  }

  lemma {:induction false} BlocksStayBelow(data: seq<Byte>, addr: nat, off: nat, number: Byte)
    requires off <= |data| && addr + |data| + 1024 <= FLASH_BASE
    ensures forall c <- Blocks(data, addr, off, number) :: Harmless(c)
    decreases |data| - off
  {
    if off < |data| {
      BlocksStayBelow(data, addr, off + Take(|data| - off), (number + 1) % 0x100);
    }
  }
}
