/** The resumable frame reader: partial-frame state kept across calls, never blocking. */
module FrameReader {
  import opened Bytes
  import opened Frames
  import opened Crc16

  /** The receive ring as the reader sees it: bytes still to come, of which the last `late`
      have not arrived yet.  More may arrive whenever it is looked at. */
  class Uart {
    var stream: seq<Byte>
    var late: nat

    constructor (bytes: seq<Byte>, coming: nat)
      ensures stream == bytes && late == coming
    {
      stream, late := bytes, coming;
    }

    /** How many bytes are there to be read, after as many more have arrived as do. */
    method Available() returns (n: nat)
      modifies `late
      ensures late <= old(late) && n <= |stream|
      ensures n == 0 ==> |stream| <= late
    {
      var still: nat :| still <= late;
      late := still;
      n := if late <= |stream| then |stream| - late else 0;
    }

    /** Moves into `buf[at..at + n]` what is there, or as much of it as fits. */
    method Read(buf: array<Byte>, at: nat, n: nat) returns (r: nat)
      requires at + n <= buf.Length
      modifies this, buf
      ensures r <= n && r <= |old(stream)| && late <= old(late)
      ensures n > 0 && |old(stream)| > old(late) ==> r > 0
      ensures stream == old(stream)[r..]
      ensures buf[..at + r] == old(buf[..at]) + old(stream)[..r]
      ensures buf[at + r..] == old(buf[at + r..])
    {
      var here := Available();
      r := if here < n then here else n;
      for i := 0 to r
        invariant buf[..at + i] == old(buf[..at]) + stream[..i]
        invariant buf[at + i..] == old(buf[at + i..])
        modifies buf
      {
        ghost var upTo, from := buf[..at + i], buf[at + i..];
        buf[at + i] := stream[i];
        assert buf[..at + i + 1] == upTo + [stream[i]];
        assert buf[at + i + 1..] == from[1..];
      }
      stream := stream[r..];
    }

    /** erpc_rx_flush: throws away what is there, but not for ever if more keeps coming. */
    method Flush() returns (ghost gone: seq<Byte>)
      modifies this
      ensures old(stream) == gone + stream && late <= old(late)
      ensures |stream| <= old(late) || SCRATCH <= |gone|
      ensures |gone| < SCRATCH + 64
    {
      var tmp := new Byte[64];
      var budget := SCRATCH;
      gone := [];
      while budget != 0
        invariant old(stream) == gone + stream && late <= old(late)
        invariant |gone| < SCRATCH + 64
        invariant budget == if |gone| < SCRATCH then SCRATCH - |gone| else 0
        modifies this, tmp
      {
        ghost var was := stream;
        var r := Read(tmp, 0, 64);
        if r == 0 { break; }
        gone := gone + was[..r];
        budget := if r > budget then 0 else budget - r;
      }
    }
  }

  ghost predicate Resynced(before: seq<Event>, after: seq<Event>) {
    |before| < |after| && after[|after| - 1] == Resync
  }

  /** A resynchronisation, and nothing else, throws away what has arrived: all of it, of which
      `left` and no more than what is `late` remain, or a scratch-full. */
  ghost predicate Threw(before: seq<Event>, after: seq<Event>, lost: seq<Byte>, left: nat, late: nat) {
    if Resynced(before, after) then left <= late || SCRATCH <= |lost| else lost == []
  }

  // ---- what a piece of input does to the byte machine ----

  lemma HeaderFed(base: seq<Event>, fed: seq<Arrival>, got: seq<Byte>, took: seq<Byte>,
                  room: bool, log: seq<Event>)
    requires FeedAll(State(Boundary, base), fed) == State(InHeader(got), log)
    requires took != [] && |got| < Need(got) && |got| + |took| <= Need(got)
    ensures var h := got + took;
      FeedAll(State(Boundary, base), fed + Tagged(took, room))
        == if |h| == Need(h) then EndHeader(h, room, log) else State(InHeader(h), log)
  {
    hide FeedAll, Feed, EndHeader, Need;
    var xs := Tagged(took, room);
    assert BytesOf(xs) == took;
    HeaderRun(State(InHeader(got), log), xs);
    FeedSplits(State(Boundary, base), fed, xs);
  }

  lemma BodyFed(base: seq<Event>, fed: seq<Arrival>, mode: Mode, took: seq<Byte>,
                room: bool, log: seq<Event>)
    requires FeedAll(State(Boundary, base), fed) == State(mode, log)
    requires mode.InBody? && |mode.body| < mode.size && |mode.body| + |took| <= mode.size
    ensures var b := mode.body + took;
      FeedAll(State(Boundary, base), fed + Tagged(took, room))
        == if |b| == mode.size then EndBody(mode.chan, mode.crc, b, log)
           else State(mode.(body := b), log)
  {
    hide FeedAll, Feed, EndBody;
    var xs := Tagged(took, room);
    assert BytesOf(xs) == took;
    BodyRun(State(mode, log), xs);
    FeedSplits(State(Boundary, base), fed, xs);
  }

  lemma DrainFed(base: seq<Event>, fed: seq<Arrival>, left: nat, took: seq<Byte>, log: seq<Event>)
    requires FeedAll(State(Boundary, base), fed) == State(Draining(left), log)
    requires |took| <= left && left != 0
    ensures FeedAll(State(Boundary, base), fed + Tagged(took, false))
         == State(if |took| == left then Boundary else Draining(left - |took|), log)
  {
    DrainRun(State(Draining(left), log), Tagged(took, false));
    FeedSplits(State(Boundary, base), fed, Tagged(took, false));
  }

  lemma TaggedBytes(xs: seq<Arrival>, bs: seq<Byte>, room: bool)
    ensures BytesOf(xs + Tagged(bs, room)) == BytesOf(xs) + bs
  {
  }

  lemma TaggedParts(a: seq<Byte>, b: seq<Byte>, room: bool)
    ensures Tagged(a, room) + Tagged(b, room) == Tagged(a + b, room)
  {
  }

  // ---- what the reader does with the DATA pool ----

  datatype PoolUse = Claim(granted: bool) | Fill | Commit | Abort

  datatype Holding = Nothing | OneBuffer | Broken

  /** A buffer is claimed when none is held; filled, committed or aborted when one is. */
  function After(h: Holding, u: PoolUse): Holding {
    match u
    case Claim(granted) => if h != Nothing then Broken else if granted then OneBuffer else Nothing
    case Fill => if h == OneBuffer then OneBuffer else Broken
    case _ => if h == OneBuffer then Nothing else Broken
  }

  function Standing(uses: seq<PoolUse>): Holding {
    if uses == [] then Nothing else After(Standing(uses[..|uses| - 1]), uses[|uses| - 1])
  }

  lemma StandingSnoc(uses: seq<PoolUse>, u: PoolUse)
    ensures Standing(uses + [u]) == After(Standing(uses), u)
  {
    assert (uses + [u])[..|uses|] == uses;
  }

  // ---- the partial frame ----

  /** Everything the reader remembers between calls but the bytes themselves. */
  datatype Partial = Partial(
    hdrGot: nat, hdrNeed: nat, isCtrl: bool, isData: bool, size: nat, crc: nat,
    bodyGot: nat, drainLeft: nat, active: bool,
    claimed: bool)               // the body is going to a DATA pool buffer

  const IDLE := Partial(0, 4, false, false, 0, 0, 0, 0, false, false)

  function Kind(p: Partial): Channel {
    if p.isData then Data else if p.isCtrl then Ctrl else Erpc
  }

  /** The header bytes `h` read so far have been acted on. */
  predicate Noted(p: Partial, h: seq<Byte>) {
    |h| <= p.hdrNeed == Need(h) && Kind(p) == ChannelOf(h) && !(p.isCtrl && p.isData)
  }

  predicate Shaped(p: Partial, h: seq<Byte>) {
    && |h| == p.hdrGot <= p.hdrNeed <= 6
    && (p.claimed <==> p.isData && p.drainLeft == 0 && p.hdrGot == p.hdrNeed)
    && (p.drainLeft > 0 ==> p.hdrGot == p.hdrNeed)
    && (p.drainLeft == 0 ==>
          && Noted(p, h)
          && (p.hdrGot < p.hdrNeed ==> p.bodyGot == 0)
          && (p.hdrGot == p.hdrNeed ==> p.bodyGot < p.size <= Room(p)))
  }

  function Room(p: Partial): nat {
    if p.isData then DATA_BODY_MAX else SCRATCH
  }

  function ModeOf(p: Partial, h: seq<Byte>, body: seq<Byte>): Mode {
    if p.drainLeft > 0 then Draining(p.drainLeft)
    else if p.hdrGot < p.hdrNeed then InHeader(h)
    else InBody(Kind(p), p.size, p.crc, body)
  }

  function HoldingOf(p: Partial): Holding {
    if p.claimed then OneBuffer else Nothing
  }

  class Reader {
    const hdr: array<Byte>
    const scratch: array<Byte>
    const pooled: array<Byte>       // whichever DATA pool buffer the reader holds
    var at: Partial
    var log: seq<Event>

    ghost var uses: seq<PoolUse>    // every call made to the pool
    ghost var base: seq<Event>      // the log when the stream last restarted
    ghost var fed: seq<Arrival>     // every byte consumed since then

    ghost predicate Buffers() {
      && hdr.Length == 6 && scratch.Length == SCRATCH && pooled.Length == DATA_BODY_MAX
      && hdr != scratch && hdr != pooled && scratch != pooled
    }

    ghost predicate Shape()
      reads this, hdr
    {
      Buffers() && at.hdrGot <= 6 && Shaped(at, hdr[..at.hdrGot])
    }

    ghost function ModeNow(): Mode
      requires Shape()
      reads this, hdr, scratch, pooled
    {
      ModeOf(at, hdr[..at.hdrGot],
             if at.drainLeft > 0 || at.hdrGot < at.hdrNeed then []
             else if at.isData then pooled[..at.bodyGot] else scratch[..at.bodyGot])
    }

    /** The reader is exactly where the byte machine would be after the same bytes, and
        holds a pool buffer exactly when its calls to the pool say so. */
    ghost predicate Valid()
      reads this, hdr, scratch, pooled
    {
      && Shape()
      && Standing(uses) == HoldingOf(at)
      && FeedAll(State(Boundary, base), fed) == State(ModeNow(), log)
    }

    constructor ()
      ensures Valid() && fresh(hdr) && fresh(scratch) && fresh(pooled)
      ensures ModeNow() == Boundary && log == [] && fed == []
      ensures base == [] && uses == []
    {
      hdr := new Byte[6];
      scratch := new Byte[SCRATCH];
      pooled := new Byte[DATA_BODY_MAX];
      at := IDLE;
      log, base, fed, uses := [], [], [], [];
      new;
      assert hdr[..0] == [];
    }

    /** Forget any partial frame; a claimed pool buffer goes back to its pool. */
    method Clear()
      requires Buffers() && Standing(uses) == HoldingOf(at)
      modifies `at, `uses
      ensures Shape() && ModeNow() == Boundary && at == IDLE && Standing(uses) == Nothing
      ensures uses == if old(at.claimed) then old(uses) + [Abort] else old(uses)
    {
      hide FeedAll, Feed, Standing;
      if at.claimed {
        StandingSnoc(uses, Abort);
        uses := uses + [Abort];
      }
      at := IDLE;
      assert hdr[..0] == [];
    }

    /** The overflow and stall backstops, and every send on an idle link, start the
        stream over: the frame in progress is lost, the reports made so far are not. */
    method StreamReset(uart: Uart)
      requires Valid()
      modifies this, uart
      ensures Valid() && ModeNow() == Boundary
      ensures log == old(log) && base == log && fed == []
      ensures uses == if old(at.claimed) then old(uses) + [Abort] else old(uses)
      ensures exists n :: 0 <= n <= |old(uart.stream)| && uart.stream == old(uart.stream)[n..]
      ensures |uart.stream| <= old(uart.late) || |uart.stream| + SCRATCH <= |old(uart.stream)|
    {
      ghost var gone := uart.Flush();
      assert uart.stream == old(uart.stream)[|gone|..];
      Clear();
      base, fed := log, [];
    }

    /** Discard an oversize or unbuffered frame, exactly, in 64-byte bites. */
    method Drain(uart: Uart) returns (progress: bool, ghost took: seq<Byte>)
      requires Valid() && at.drainLeft != 0
      modifies this, uart
      ensures Valid()
      ensures old(uart.stream) == took + uart.stream && uart.late <= old(uart.late)
      ensures fed == old(fed) + Tagged(took, false) && base == old(base) && log == old(log)
      ensures uses == old(uses)
      ensures progress <==> took != []
      ensures |old(uart.stream)| > old(uart.late) ==> progress
    {
      hide FeedAll, Feed, Standing, Need, ChannelOf;
      ghost var left := at.drainLeft;
      progress, took := Discard(uart);
      DrainFed(base, fed, left, took, log);
      if at.drainLeft == 0 { Clear(); }
      fed := fed + Tagged(took, false);
    }

    method Discard(uart: Uart) returns (progress: bool, ghost took: seq<Byte>)
      requires at.drainLeft != 0
      modifies `at, uart
      ensures old(at.drainLeft) == at.drainLeft + |took|
      ensures at == old(at).(drainLeft := at.drainLeft)
      ensures old(uart.stream) == took + uart.stream && uart.late <= old(uart.late)
      ensures progress <==> took != []
      ensures |old(uart.stream)| > old(uart.late) ==> progress
    {
      progress, took := false, [];
      var tmp := new Byte[64];
      while at.drainLeft != 0
        invariant at.drainLeft + |took| == old(at.drainLeft)
        invariant at == old(at).(drainLeft := at.drainLeft)
        invariant old(uart.stream) == took + uart.stream && uart.late <= old(uart.late)
        invariant progress <==> took != []
        modifies `at, uart, tmp
      {
        var want := if at.drainLeft < 64 then at.drainLeft else 64;
        ghost var stream := uart.stream;
        var r := uart.Read(tmp, 0, want);
        if r == 0 { break; }
        took := took + stream[..r];
        at := at.(drainLeft := at.drainLeft - r);
        progress := true;
      }
    }

    /** A header turns six bytes long as soon as its first two are a marker; what length
        it carries has not been looked at yet. */
    method NoteChannel(ghost before: nat)
      requires Buffers() && before <= at.hdrGot <= at.hdrNeed <= 6
      requires Noted(at, hdr[..before])
      modifies `at
      ensures at == old(at).(isCtrl := at.isCtrl, isData := at.isData, hdrNeed := at.hdrNeed)
      ensures Noted(at, hdr[..at.hdrGot]) && at.hdrNeed <= 6
    {
      if at.hdrGot >= 2 && at.hdrNeed == 4 {
        var lead := FromLe16(hdr[0], hdr[1]);
        if lead == CTRL_MAGIC {
          at := at.(isCtrl := true, hdrNeed := 6);
        } else if lead == DATA_MAGIC {
          at := at.(isData := true, hdrNeed := 6);
        }
      }
    }

    /** The header is complete and not yet believed. */
    ghost predicate HeaderIn(room: bool)
      reads this, hdr
    {
      && Buffers() && at.drainLeft == 0 && at.hdrGot == at.hdrNeed <= 6
      && !at.claimed && Standing(uses) == Nothing && Noted(at, hdr[..at.hdrGot])
      && FeedAll(State(Boundary, base), fed) == EndHeader(hdr[..at.hdrGot], room, log)
    }

    method HeaderBytes(uart: Uart, ghost room: bool) returns (ghost took: seq<Byte>)
      requires Valid() && at.drainLeft == 0 && at.hdrGot < at.hdrNeed
      modifies `at, `fed, hdr, uart
      ensures old(uart.stream) == took + uart.stream && uart.late <= old(uart.late)
      ensures fed == old(fed) + Tagged(took, room) && at.hdrGot == old(at.hdrGot) + |took|
      ensures |old(uart.stream)| > old(uart.late) ==> took != []
      ensures at.hdrGot < at.hdrNeed ==> Valid()
      ensures at.hdrGot >= at.hdrNeed ==> HeaderIn(room)
    {
      hide FeedAll, Feed, EndHeader, FromLe16, Checksum, Standing, Need, ChannelOf;
      ghost var got, stream := hdr[..at.hdrGot], uart.stream;
      var r := uart.Read(hdr, at.hdrGot, at.hdrNeed - at.hdrGot);
      took := stream[..r];
      if r == 0 {
        assert fed + Tagged(took, room) == fed && hdr[..at.hdrGot] == got;
        return;
      }
      at := at.(hdrGot := at.hdrGot + r, active := true);
      assert hdr[..at.hdrGot] == got + took;
      assert hdr[..|got|] == hdr[..at.hdrGot][..|got|] == got;
      HeaderFed(base, fed, got, took, room, log);
      fed := fed + Tagged(took, room);
      NoteChannel(|got|);
    }

    /** Collect header bytes; once all are in, act on what they announce. */
    method HeaderStep(uart: Uart)
      returns (progress: bool, ghost took: seq<Byte>, ghost lost: seq<Byte>, room: bool)
      requires Valid() && at.drainLeft == 0 && at.hdrGot < at.hdrNeed
      modifies this, hdr, uart
      ensures Valid()
      ensures old(uart.stream) == took + lost + uart.stream && uart.late <= old(uart.late)
      ensures fed == old(fed) + Tagged(took, room) && base == old(base) && old(uses) <= uses
      ensures old(log) <= log && Threw(old(log), log, lost, |uart.stream|, old(uart.late))
      ensures at.drainLeft == 0 && at.hdrNeed <= at.hdrGot ==> lost == []
      ensures progress <==> took != []
      ensures |old(uart.stream)| > old(uart.late) ==> progress
    {
      hide FeedAll, Feed, EndHeader, Standing, Shaped, ModeOf, Noted;
      room := *;
      lost := [];
      var before := at.hdrGot;
      took := HeaderBytes(uart, room);
      progress := at.hdrGot != before;
      if at.hdrGot < at.hdrNeed { return; }
      lost := OpenBody(uart, room);
    }

    /** A complete header: start the body, drain it, or refuse to believe it. */
    method OpenBody(uart: Uart, room: bool) returns (ghost lost: seq<Byte>)
      requires HeaderIn(room)
      modifies `at, `uses, `log, uart
      ensures Valid()
      ensures old(uart.stream) == lost + uart.stream && uart.late <= old(uart.late)
      ensures uses == old(uses) + if old(at.isData) then [Claim(at.claimed)] else []
      ensures old(log) <= log && Threw(old(log), log, lost, |uart.stream|, old(uart.late))
      ensures at.drainLeft == 0 && at.hdrNeed <= at.hdrGot ==> lost == []
    {
      hide FeedAll, Feed, FromLe16, Checksum, Standing;
      lost := [];
      if at.isData {
        at := at.(bodyGot := 0, size := FromLe16(hdr[2], hdr[3]), crc := FromLe16(hdr[4], hdr[5]));
        lost := OpenData(uart, room);
      } else if at.isCtrl {
        at := at.(bodyGot := 0, size := FromLe16(hdr[2], hdr[3]), crc := FromLe16(hdr[4], hdr[5]));
        if at.size > CTRL_MAX || at.size < CTRL_HDR {
          log := log + [Resync];
          lost := uart.Flush();
          Clear();
        }
      } else {
        at := at.(bodyGot := 0, size := FromLe16(hdr[0], hdr[1]), crc := FromLe16(hdr[2], hdr[3]));
        if at.size > SCRATCH {
          log := log + [Oversize(at.size)];
          at := at.(drainLeft := at.size);
        } else if at.size < ERPC_HDR {
          log := log + [Runt];
          Clear();
        }
      }
    }

    /** A DATA header: a length out of bounds is no frame at all, and a frame the pool has
        no buffer for is drained. */
    method OpenData(uart: Uart, room: bool) returns (ghost lost: seq<Byte>)
      requires Buffers() && at.drainLeft == 0 && at.hdrGot == at.hdrNeed <= 6 && at.isData
      requires !at.claimed && Standing(uses) == Nothing && Noted(at, hdr[..at.hdrGot])
      requires at.bodyGot == 0
      requires FeedAll(State(Boundary, base), fed) == Open(Data, at.size, at.crc, room, log)
      modifies `at, `uses, `log, uart
      ensures Valid()
      ensures old(uart.stream) == lost + uart.stream && uart.late <= old(uart.late)
      ensures uses == old(uses) + if old(at.isData) then [Claim(at.claimed)] else []
      ensures old(log) <= log && Threw(old(log), log, lost, |uart.stream|, old(uart.late))
      ensures at.drainLeft == 0 && at.hdrNeed <= at.hdrGot ==> lost == []
    {
      hide FeedAll, Feed, FromLe16, Checksum, Standing, Need, ChannelOf;
      lost := [];
      var granted := DATA_HDR <= at.size <= DATA_BODY_MAX && room;
      StandingSnoc(uses, Claim(granted));
      uses := uses + [Claim(granted)];
      if at.size < DATA_HDR || at.size > DATA_BODY_MAX {
        at := at.(isData := false);
        log := log + [Resync];
        lost := uart.Flush();
        Clear();
      } else if granted {
        at := at.(claimed := true);
        assert pooled[..0] == [];
      } else {
        at := at.(isData := false, drainLeft := at.size);
        log := log + [NoBuffer(at.size)];
      }
    }

    /** The body is complete and not yet dispatched. */
    ghost predicate BodyIn()
      reads this, scratch, pooled
    {
      && Buffers() && !(at.isCtrl && at.isData) && at.size <= Room(at)
      && at.claimed == at.isData && Standing(uses) == HoldingOf(at)
      && FeedAll(State(Boundary, base), fed)
           == EndBody(Kind(at), at.crc, (if at.isData then pooled else scratch)[..at.size], log)
    }

    method BodyBytes(uart: Uart, ghost room: bool) returns (ghost took: seq<Byte>)
      requires Valid() && at.drainLeft == 0 && at.hdrNeed <= at.hdrGot
      modifies `at, `fed, `uses, scratch, pooled, uart
      ensures old(uart.stream) == took + uart.stream && uart.late <= old(uart.late)
      ensures old(uses) <= uses
      ensures fed == old(fed) + Tagged(took, room) && at.bodyGot == old(at.bodyGot) + |took|
      ensures |old(uart.stream)| > old(uart.late) ==> took != []
      ensures at.bodyGot < at.size ==> Valid()
      ensures at.bodyGot >= at.size ==> at.bodyGot == at.size && BodyIn()
    {
      hide FeedAll, Feed, EndBody, FromLe16, Checksum, Standing, Need, ChannelOf;
      var target := if at.isData then pooled else scratch;
      ghost var mode, stream := ModeNow(), uart.stream;
      var r := uart.Read(target, at.bodyGot, at.size - at.bodyGot);
      took := stream[..r];
      if at.isData && r != 0 {
        StandingSnoc(uses, Fill);
        uses := uses + [Fill];
      }
      at := at.(bodyGot := at.bodyGot + r);
      assert target[..at.bodyGot] == mode.body + took;
      BodyFed(base, fed, mode, took, room, log);
      fed := fed + Tagged(took, room);
    }

    /** Collect body bytes; a complete body goes to its channel's dispatcher. */
    method BodyStep(uart: Uart, ghost room: bool)
      returns (progress: bool, ghost took: seq<Byte>, ghost lost: seq<Byte>)
      requires Valid() && at.drainLeft == 0 && at.hdrNeed <= at.hdrGot
      modifies this, scratch, pooled, uart
      ensures Valid()
      ensures old(uart.stream) == took + lost + uart.stream && uart.late <= old(uart.late)
      ensures fed == old(fed) + Tagged(took, room) && base == old(base) && old(uses) <= uses
      ensures old(log) <= log && Threw(old(log), log, lost, |uart.stream|, old(uart.late))
      ensures progress <==> took != []
      ensures |old(uart.stream)| > old(uart.late) ==> progress
    {
      hide FeedAll, Feed, EndBody, Standing, Shaped, ModeOf;
      lost := [];
      var before := at.bodyGot;
      took := BodyBytes(uart, room);
      progress := at.bodyGot != before;
      if at.bodyGot == at.size { lost := Dispatch(uart); }
    }

    /** A complete body goes to its channel's dispatcher; a CTRL body that fails its
        checksum says the stream itself is suspect. */
    method Dispatch(uart: Uart) returns (ghost lost: seq<Byte>)
      requires BodyIn()
      modifies `at, `uses, `log, uart
      ensures Valid()
      ensures old(uart.stream) == lost + uart.stream && uart.late <= old(uart.late)
      ensures uses == if old(at.isData) then old(uses) + [Commit] else old(uses)
      ensures old(log) <= log && Threw(old(log), log, lost, |uart.stream|, old(uart.late))
    {
      hide FeedAll, Feed, Standing;
      lost := [];
      var body := (if at.isData then pooled else scratch)[..at.size];
      log := log + [Delivered(Kind(at), body, at.crc)];
      if at.isData {
        StandingSnoc(uses, Commit);
        uses := uses + [Commit];
        at := at.(isData := false, claimed := false);
      }
      if at.isCtrl && Checksum(body) != at.crc {
        log := log + [Resync];
        lost := uart.Flush();
      } else {
        assert log + [] == log;
      }
      Clear();
    }

    /** One call of the reader: drain, or header and then body, as far as the bytes go.
        `took` went through the frame machine; `lost` was flushed by a resynchronisation,
        which throws away all that has arrived, and by nothing else. */
    method RxStep(uart: Uart)
      returns (progress: bool, ghost took: seq<Byte>, ghost lost: seq<Byte>, ghost room: bool)
      requires Valid()
      modifies this, hdr, scratch, pooled, uart
      ensures Valid()
      ensures old(uart.stream) == took + lost + uart.stream && uart.late <= old(uart.late)
      ensures fed == old(fed) + Tagged(took, room) && base == old(base) && old(uses) <= uses
      ensures old(log) <= log && Threw(old(log), log, lost, |uart.stream|, old(uart.late))
      ensures progress <==> took != []
      ensures |old(uart.stream)| > old(uart.late) ==> progress
    {
      hide FeedAll, Feed, EndHeader, EndBody, Standing, Shaped, ModeOf, Tagged;
      lost, room := [], false;
      if at.drainLeft != 0 {
        progress, took := Drain(uart);
        return;
      }
      progress, took := false, [];
      if at.hdrGot < at.hdrNeed {
        progress, took, lost, room := HeaderStep(uart);
        if at.drainLeft != 0 || at.hdrGot < at.hdrNeed { return; }
        assert lost == [];
      }
      var p;
      ghost var more;
      p, more, lost := BodyStep(uart, room);
      TaggedParts(took, more, room);
      took, progress := took + more, progress || p;
    }

    /** One step on a stream of well-formed frames: nothing is ever flushed, and a byte that
        has arrived is never left for later. */
    method StepAlong(uart: Uart, ghost fs: seq<Frame>) returns (progress: bool)
      requires Valid() && base == [] && (forall f <- fs :: WellFormed(f))
      requires BytesOf(fed) + uart.stream == Wires(fs)
      modifies this, hdr, scratch, pooled, uart
      ensures Valid() && base == [] && BytesOf(fed) + uart.stream == Wires(fs)
      ensures uart.late <= old(uart.late)
      ensures if progress then |uart.stream| < |old(uart.stream)|
              else |uart.stream| <= |old(uart.stream)| <= old(uart.late)
    {
      hide FeedAll, Feed, WellFormed, Outcomes, Wires, BytesOf, Tagged, Shaped, Standing;
      ghost var f0 := fed;
      ghost var took, lost, room;
      progress, took, lost, room := RxStep(uart);
      TaggedBytes(f0, took, room);
      assert BytesOf(fed) + (lost + uart.stream) == Wires(fs);
      ghost var _ := InStep(fs, fed, lost + uart.stream);
    }

    /** One receive pass: at most 32 steps, and fewer only with nothing more to read. */
    method Pass(uart: Uart, ghost fs: seq<Frame>)
      requires Valid() && base == [] && (forall f <- fs :: WellFormed(f))
      requires BytesOf(fed) + uart.stream == Wires(fs)
      modifies this, hdr, scratch, pooled, uart
      ensures Valid() && base == [] && BytesOf(fed) + uart.stream == Wires(fs)
      ensures uart.late <= old(uart.late)
      ensures |uart.stream| <= old(uart.late) || |uart.stream| + 32 <= |old(uart.stream)|
    {
      hide FeedAll, Feed, WellFormed, Outcomes, Wires, BytesOf, Shaped, Standing;
      var guard, going := 0, true;
      while guard < 32 && going
        invariant Valid() && base == [] && BytesOf(fed) + uart.stream == Wires(fs)
        invariant uart.late <= old(uart.late) && guard <= 32
        invariant if going then |uart.stream| + guard <= |old(uart.stream)|
                  else |uart.stream| <= old(uart.late)
      {
        going := StepAlong(uart, fs);
        guard := guard + 1;
      }
    }

    /** The service loop's receive phase, any number of passes: on a stream of well-formed
        frames it never resynchronises, reports a prefix of the frames' outcomes, and once
        every byte is in, exactly those outcomes.  Of bytes that have all arrived, every
        pass takes 32 or what there is. */
    method Receive(uart: Uart, passes: nat, ghost fs: seq<Frame>)
      returns (ghost xs: seq<Arrival>)
      requires Valid() && fed == [] && base == []
      requires (forall f <- fs :: WellFormed(f)) && uart.stream == Wires(fs)
      modifies this, hdr, scratch, pooled, uart
      ensures Valid() && BytesOf(fed) + uart.stream == Wires(fs)
      ensures fed <= xs && BytesOf(xs) == Wires(fs) && log <= Outcomes(fs, xs)
      ensures uart.stream == [] ==> log == Outcomes(fs, fed) && ModeNow() == Boundary
      ensures old(uart.late) == 0 && |Wires(fs)| <= 32 * passes ==> uart.stream == []
    {
      hide FeedAll, Feed, WellFormed, Outcomes, Wires;
      assert BytesOf(fed) + uart.stream == Wires(fs);
      for pass := 0 to passes
        invariant Valid() && base == [] && BytesOf(fed) + uart.stream == Wires(fs)
        invariant uart.late <= old(uart.late)
        invariant old(uart.late) == 0 ==>
          uart.stream == [] || |uart.stream| + 32 * pass <= |old(uart.stream)|
      {
        Pass(uart, fs);
      }
      xs := InStep(fs, fed, uart.stream);
    }
  }
}
