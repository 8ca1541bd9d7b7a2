/** The three frame layouts that share the link, and the reader they have to drive:
    a machine that takes one byte at a time.  Nothing here buffers or blocks; the
    resumable reader of FrameReader is proved to compute this machine. */
module Frames {
  import opened Bytes
  import opened Crc16

  const SCRATCH := 4096
  const CTRL_MAGIC := 0xFFFF
  const CTRL_HDR := 4
  const CTRL_MAX := 1600
  const DATA_MAGIC := 0xFFFE
  const DATA_HDR := 2
  const DATA_BODY_MAX := 1538
  const ERPC_HDR := 8

  datatype Channel = Erpc | Ctrl | Data

  datatype Frame = Frame(chan: Channel, body: seq<Byte>)

  /** What the send steps can produce: an eRPC body holds at least its 8-byte header and
      its length is never a channel marker; the other two respect their channel's bounds. */
  predicate WellFormed(f: Frame) {
    match f.chan
    case Erpc => ERPC_HDR <= |f.body| < DATA_MAGIC
    case Ctrl => CTRL_HDR <= |f.body| <= CTRL_MAX
    case Data => DATA_HDR <= |f.body| <= DATA_BODY_MAX
  }

  function Header(chan: Channel, size: int, crc: int): (h: seq<Byte>)
    requires 0 <= size < 0x1_0000 && 0 <= crc < 0x1_0000
    ensures |h| == if chan == Erpc then 4 else 6
  {
    match chan
    case Erpc => Le16(size) + Le16(crc)
    case Ctrl => Le16(CTRL_MAGIC) + Le16(size) + Le16(crc)
    case Data => Le16(DATA_MAGIC) + Le16(size) + Le16(crc)
  }

  /** The bytes a send step writes for `f`. */
  function Wire(f: Frame): (w: seq<Byte>)
    requires WellFormed(f)
    ensures |w| == (if f.chan == Erpc then 4 else 6) + |f.body|
  {
    Header(f.chan, |f.body|, Checksum(f.body)) + f.body
  }

  function Wires(fs: seq<Frame>): seq<Byte>
    requires forall f <- fs :: WellFormed(f)
  {
    if fs == [] then [] else Wire(fs[0]) + Wires(fs[1..])
  }

  // ---- the byte-at-a-time machine ----

  /** A byte, and what the DATA pool would answer if this byte completed a header. */
  datatype Arrival = Arrival(byte: Byte, room: bool)

  datatype Mode =
    | InHeader(got: seq<Byte>)
    | InBody(chan: Channel, size: int, crc: int, body: seq<Byte>)
    | Draining(left: nat)

  datatype Event =
    | Delivered(chan: Channel, body: seq<Byte>, crc: int)  // handed to its dispatcher
    | Oversize(size: int)      // eRPC body too large: drained
    | NoBuffer(size: int)      // DATA pool empty: drained
    | Runt                     // eRPC body too short to be a message
    | Resync                   // a length or checksum not to be believed

  datatype State = State(mode: Mode, log: seq<Event>)

  const Boundary := InHeader([])

  function Lead(h: seq<Byte>): int
    requires |h| >= 2
  {
    FromLe16(h[0], h[1])
  }

  /** The channel a header prefix announces; eRPC until a marker is seen. */
  function ChannelOf(h: seq<Byte>): Channel {
    if |h| < 2 then Erpc
    else if Lead(h) == CTRL_MAGIC then Ctrl
    else if Lead(h) == DATA_MAGIC then Data
    else Erpc
  }

  function Need(h: seq<Byte>): int {
    if ChannelOf(h) == Erpc then 4 else 6
  }

  function EndHeader(h: seq<Byte>, room: bool, log: seq<Event>): State
    requires |h| == Need(h)
  {
    var at := if ChannelOf(h) == Erpc then 0 else 2;
    Open(ChannelOf(h), FromLe16(h[at], h[at + 1]), FromLe16(h[at + 2], h[at + 3]), room, log)
  }

  /** A complete header: start the body, drain it, or refuse to believe it. */
  function Open(chan: Channel, size: nat, crc: int, room: bool, log: seq<Event>): State {
    match chan
    case Erpc =>
      if size > SCRATCH then State(Draining(size), log + [Oversize(size)])
      else if size < ERPC_HDR then State(Boundary, log + [Runt])
      else State(InBody(Erpc, size, crc, []), log)
    case Ctrl =>
      if size < CTRL_HDR || size > CTRL_MAX then State(Boundary, log + [Resync])
      else State(InBody(Ctrl, size, crc, []), log)
    case Data =>
      if size < DATA_HDR || size > DATA_BODY_MAX then State(Boundary, log + [Resync])
      else if !room then State(Draining(size), log + [NoBuffer(size)])
      else State(InBody(Data, size, crc, []), log)
  }

  function EndBody(chan: Channel, crc: int, body: seq<Byte>, log: seq<Event>): State {
    State(Boundary, log + [Delivered(chan, body, crc)]
                  + if chan == Ctrl && Checksum(body) != crc then [Resync] else [])
  }

  function Feed(s: State, a: Arrival): State {
    match s.mode
    case InHeader(got) =>
      var h := got + [a.byte];
      if |h| == Need(h) then EndHeader(h, a.room, s.log) else s.(mode := InHeader(h))
    case InBody(chan, size, crc, body) =>
      var b := body + [a.byte];
      if |b| == size then EndBody(chan, crc, b, s.log)
      else s.(mode := InBody(chan, size, crc, b))
    case Draining(left) =>
      s.(mode := if left <= 1 then Boundary else Draining(left - 1))
  }

  function FeedAll(s: State, xs: seq<Arrival>): State
    decreases |xs|
  {
    if xs == [] then s else FeedAll(Feed(s, xs[0]), xs[1..])
  }

  function Tagged(bs: seq<Byte>, room: bool): (xs: seq<Arrival>)
    ensures |xs| == |bs|
  {
    seq(|bs|, i requires 0 <= i < |bs| => Arrival(bs[i], room))
  }

  function BytesOf(xs: seq<Arrival>): (bs: seq<Byte>)
    ensures |bs| == |xs|
  {
    seq(|xs|, i requires 0 <= i < |xs| => xs[i].byte)
  }

  lemma BytesOfParts(xs: seq<Arrival>, n: nat)
    requires n <= |xs|
    ensures xs == xs[..n] + xs[n..]
    ensures BytesOf(xs[..n]) == BytesOf(xs)[..n] && BytesOf(xs[n..]) == BytesOf(xs)[n..]
  {
  }

  /** How the bytes are cut up makes no difference. */
  lemma {:induction false} FeedSplits(s: State, xs: seq<Arrival>, ys: seq<Arrival>)
    ensures FeedAll(s, xs + ys) == FeedAll(FeedAll(s, xs), ys)
    decreases |xs|
  {
    if xs == [] {
      assert xs + ys == ys;
    } else {
      assert (xs + ys)[1..] == xs[1..] + ys;
      FeedSplits(Feed(s, xs[0]), xs[1..], ys);
    }
  }

  lemma FeedNone(s: State)
    ensures FeedAll(s, []) == s
  {
  }

  lemma FeedOne(s: State, a: Arrival)
    ensures FeedAll(s, [a]) == Feed(s, a)
  {
    assert [a][1..] == [];
    assert FeedAll(Feed(s, a), []) == Feed(s, a);
  }

  /** Feeding only ever appends to the log. */
  lemma {:induction false} LogGrows(s: State, xs: seq<Arrival>)
    ensures s.log <= FeedAll(s, xs).log
    decreases |xs|
  {
    if xs != [] { LogGrows(Feed(s, xs[0]), xs[1..]); }
  }

  // ---- runs inside one header, body or drain ----

  lemma {:induction false} HeaderRun(s: State, xs: seq<Arrival>)
    requires s.mode.InHeader? && xs != []
    requires |s.mode.got| < Need(s.mode.got) && |s.mode.got| + |xs| <= Need(s.mode.got)
    ensures var h := s.mode.got + BytesOf(xs);
      FeedAll(s, xs) == if |h| == Need(h) then EndHeader(h, xs[|xs| - 1].room, s.log)
                        else s.(mode := InHeader(h))
    decreases |xs|
  {
    var g := s.mode.got + [xs[0].byte];
    assert s.mode.got + BytesOf(xs) == g + BytesOf(xs[1..]);
    if |xs| == 1 {
      FeedOne(s, xs[0]);
      assert xs == [xs[0]] && g + BytesOf(xs[1..]) == g;
    } else {
      assert |g| < Need(g);
      HeaderRun(s.(mode := InHeader(g)), xs[1..]);
    }
  }

  lemma {:induction false} BodyRun(s: State, xs: seq<Arrival>)
    requires s.mode.InBody? && |s.mode.body| + |xs| <= s.mode.size
    requires |s.mode.body| < s.mode.size
    ensures var b := s.mode.body + BytesOf(xs);
      FeedAll(s, xs) == if |b| == s.mode.size then EndBody(s.mode.chan, s.mode.crc, b, s.log)
                        else s.(mode := s.mode.(body := b))
    decreases |xs|
  {
    if xs == [] {
      assert s.mode.body + BytesOf(xs) == s.mode.body;
    } else {
      var g := s.mode.body + [xs[0].byte];
      assert s.mode.body + BytesOf(xs) == g + BytesOf(xs[1..]);
      if |xs| == 1 {
        FeedOne(s, xs[0]);
        assert xs == [xs[0]] && g + BytesOf(xs[1..]) == g;
      } else {
        BodyRun(s.(mode := s.mode.(body := g)), xs[1..]);
      }
    }
  }

  lemma {:induction false} DrainRun(s: State, xs: seq<Arrival>)
    requires s.mode.Draining? && |xs| <= s.mode.left && 0 < s.mode.left
    ensures FeedAll(s, xs) == s.(mode := if |xs| == s.mode.left then Boundary
                                         else Draining(s.mode.left - |xs|))
    decreases |xs|
  {
    if |xs| == 1 {
      FeedOne(s, xs[0]);
      assert xs == [xs[0]];
    } else if xs != [] {
      DrainRun(s.(mode := Draining(s.mode.left - 1)), xs[1..]);
    }
  }

  // ---- whole frames ----

  /** What becomes of one frame, given the pool's answer at its header. */
  function Outcome(f: Frame, room: bool): Event
    requires WellFormed(f)
  {
    if f.chan == Erpc && |f.body| > SCRATCH then Oversize(|f.body|)
    else if f.chan == Data && !room then NoBuffer(|f.body|)
    else Delivered(f.chan, f.body, Checksum(f.body))
  }

  /** One outcome per frame, in order. */
  function Outcomes(fs: seq<Frame>, xs: seq<Arrival>): (es: seq<Event>)
    requires forall f <- fs :: WellFormed(f)
    requires BytesOf(xs) == Wires(fs)
    ensures |es| == |fs|
  {
    if fs == [] then [] else
      var n := |Wire(fs[0])|;
      assert BytesOf(xs[n..]) == Wires(fs[1..]) by {
        assert BytesOf(xs[n..]) == BytesOf(xs)[n..];
      }
      [Outcome(fs[0], xs[|Wire(fs[0])| - |fs[0].body| - 1].room)] + Outcomes(fs[1..], xs[n..])
  }

  lemma HeaderDecodes(chan: Channel, size: int, crc: int, room: bool, log: seq<Event>)
    requires 0 <= size < (if chan == Erpc then DATA_MAGIC else 0x1_0000) && 0 <= crc < 0x1_0000
    ensures var h := Header(chan, size, crc);
      ChannelOf(h) == chan && |h| == Need(h)
      && EndHeader(h, room, log) == Open(chan, size, crc, room, log)
  {
    FromLe16OfLe16(size);
    FromLe16OfLe16(crc);
    FromLe16OfLe16(CTRL_MAGIC);
    FromLe16OfLe16(DATA_MAGIC);
  }

  /** From a frame boundary, one frame's bytes produce its outcome and end at a boundary. */
  lemma OneFrame(f: Frame, log: seq<Event>, xs: seq<Arrival>)
    requires WellFormed(f) && BytesOf(xs) == Wire(f)
    ensures FeedAll(State(Boundary, log), xs)
         == State(Boundary, log + [Outcome(f, xs[|xs| - |f.body| - 1].room)])
  {
    var n := |xs| - |f.body|;
    BytesOfParts(xs, n);
    var h := Header(f.chan, |f.body|, Checksum(f.body));
    assert Wire(f)[..n] == h && Wire(f)[n..] == f.body;
    FrameParts(f, log, xs[..n], xs[n..]);
    FeedSplits(State(Boundary, log), xs[..n], xs[n..]);
  }

  lemma FrameParts(f: Frame, log: seq<Event>, hs: seq<Arrival>, bs: seq<Arrival>)
    requires WellFormed(f) && BytesOf(bs) == f.body
    requires BytesOf(hs) == Header(f.chan, |f.body|, Checksum(f.body))
    ensures FeedAll(FeedAll(State(Boundary, log), hs), bs)
         == State(Boundary, log + [Outcome(f, hs[|hs| - 1].room)])
  {
    var size, crc, room := |f.body|, Checksum(f.body), hs[|hs| - 1].room;
    HeaderDecodes(f.chan, size, crc, room, log);
    HeaderOnly(State(Boundary, log), hs, Header(f.chan, size, crc));
    BodyParts(f, log, room, bs);
  }

  lemma BodyParts(f: Frame, log: seq<Event>, room: bool, bs: seq<Arrival>)
    requires WellFormed(f) && BytesOf(bs) == f.body
    ensures FeedAll(Open(f.chan, |f.body|, Checksum(f.body), room, log), bs)
         == State(Boundary, log + [Outcome(f, room)])
  {
    hide FeedAll, Feed, Checksum, BytesOf;
    var t := Open(f.chan, |f.body|, Checksum(f.body), room, log);
    if t.mode.Draining? {
      DrainRun(t, bs);
    } else {
      BodyRun(t, bs);
      assert [] + BytesOf(bs) == f.body;
      assert log + [Outcome(f, room)] + [] == log + [Outcome(f, room)];
    }
  }

  lemma HeaderOnly(s: State, xs: seq<Arrival>, h: seq<Byte>)
    requires s.mode == Boundary && BytesOf(xs) == h && |h| == Need(h)
    ensures FeedAll(s, xs) == EndHeader(h, xs[|xs| - 1].room, s.log)
  {
    var first, rest := xs[..4], xs[4..];
    assert xs == first + rest;
    assert [] + BytesOf(first) == h[..4] by { assert BytesOf(first) == BytesOf(xs)[..4]; }
    assert ChannelOf(h[..4]) == ChannelOf(h);
    HeaderRun(s, first);
    if rest == [] {
      assert xs == first && h[..4] == h;
    } else {
      FeedSplits(s, first, rest);
      assert h[..4] + BytesOf(rest) == h by { assert BytesOf(rest) == BytesOf(xs)[4..]; }
      HeaderRun(State(InHeader(h[..4]), s.log), rest);
    }
  }

  // ---- frames no sender makes ----

  /** Where a channel's length is not one it can have. */
  predicate OutOfBounds(chan: Channel, size: nat) {
    match chan
    case Erpc => size < ERPC_HDR
    case Ctrl => size < CTRL_HDR || size > CTRL_MAX
    case Data => size < DATA_HDR || size > DATA_BODY_MAX
  }

  /** A CTRL or DATA header whose length cannot be is never drained and never believed: the
      reader resynchronises on the spot.  An eRPC one too short for a message is reported. */
  lemma BadLength(chan: Channel, size: nat, crc: nat, log: seq<Event>, xs: seq<Arrival>)
    requires size < (if chan == Erpc then DATA_MAGIC else 0x1_0000) && crc < 0x1_0000
    requires OutOfBounds(chan, size) && BytesOf(xs) == Header(chan, size, crc)
    ensures FeedAll(State(Boundary, log), xs)
         == State(Boundary, log + [if chan == Erpc then Runt else Resync])
  {
    HeaderDecodes(chan, size, crc, xs[|xs| - 1].room, log);
    HeaderOnly(State(Boundary, log), xs, Header(chan, size, crc));
  }

  /** A frame too large for the scratch, or with no pool buffer to go to, is reported once
      and swallowed exactly, whatever its bytes are: the reader is at a boundary after the
      last of them and not before. */
  lemma DrainedWhole(chan: Channel, size: nat, crc: nat, log: seq<Event>,
                     hs: seq<Arrival>, bs: seq<Arrival>)
    requires size < DATA_MAGIC && crc < 0x1_0000 && BytesOf(hs) == Header(chan, size, crc)
    requires |bs| <= size
    requires chan == (if size > SCRATCH then Erpc else Data)
    requires chan == Data ==> !OutOfBounds(Data, size) && !hs[|hs| - 1].room
    ensures var s := FeedAll(State(Boundary, log), hs + bs);
      && s.log == log + [if chan == Erpc then Oversize(size) else NoBuffer(size)]
      && (s.mode == Boundary <==> |bs| == size)
  {
    HeaderDecodes(chan, size, crc, hs[|hs| - 1].room, log);
    HeaderOnly(State(Boundary, log), hs, Header(chan, size, crc));
    FeedSplits(State(Boundary, log), hs, bs);
    DrainRun(FeedAll(State(Boundary, log), hs), bs);
  }

  /** A body that is not what its checksum says is handed on with that checksum; on the CTRL
      channel, and only there, the stream itself is then no longer trusted. */
  lemma BadChecksum(f: Frame, crc: nat, log: seq<Event>, hs: seq<Arrival>, bs: seq<Arrival>)
    requires WellFormed(f) && |f.body| <= SCRATCH && crc < 0x1_0000 && crc != Checksum(f.body)
    requires BytesOf(hs) == Header(f.chan, |f.body|, crc) && BytesOf(bs) == f.body
    requires f.chan == Data ==> hs[|hs| - 1].room
    ensures FeedAll(State(Boundary, log), hs + bs)
         == State(Boundary, log + [Delivered(f.chan, f.body, crc)]
                                + if f.chan == Ctrl then [Resync] else [])
  {
    hide FeedAll, Feed, Checksum, BytesOf;
    var start, begun := State(Boundary, log), State(InBody(f.chan, |f.body|, crc, []), log);
    HeaderDecodes(f.chan, |f.body|, crc, hs[|hs| - 1].room, log);
    HeaderOnly(start, hs, Header(f.chan, |f.body|, crc));
    FeedSplits(start, hs, bs);
    BodyRun(begun, bs);
    assert [] + BytesOf(bs) == f.body;
  }

  /** Any sequence of well-formed frames is recovered exactly, in order, and leaves the
      reader at a frame boundary; what is lost is lost alone. */
  lemma {:induction false} FramesAreRecovered(fs: seq<Frame>, log: seq<Event>, xs: seq<Arrival>)
    requires forall f <- fs :: WellFormed(f)
    requires BytesOf(xs) == Wires(fs)
    ensures FeedAll(State(Boundary, log), xs) == State(Boundary, log + Outcomes(fs, xs))
    decreases |fs|
  {
    hide FeedAll, Feed, Wire, Outcome, BytesOf;
    if fs == [] {
      assert xs == [] && log + Outcomes(fs, xs) == log;
      FeedNone(State(Boundary, log));
    } else {
      var n := |Wire(fs[0])|;
      var head, tail := xs[..n], xs[n..];
      BytesOfParts(xs, n);
      assert BytesOf(head) == Wire(fs[0]) && BytesOf(tail) == Wires(fs[1..]) by {
        assert Wires(fs) == Wire(fs[0]) + Wires(fs[1..]);
      }
      var e := Outcome(fs[0], xs[n - |fs[0].body| - 1].room);
      var mid := State(Boundary, log + [e]);
      assert FeedAll(State(Boundary, log), xs) == FeedAll(mid, tail) by {
        OneFrame(fs[0], log, head);
        FeedSplits(State(Boundary, log), head, tail);
      }
      FramesAreRecovered(fs[1..], log + [e], tail);
      assert Outcomes(fs, xs) == [e] + Outcomes(fs[1..], tail);
      assert log + [e] + Outcomes(fs[1..], tail) == log + Outcomes(fs, xs);
    }
  }

  /** Part-way through, what has been reported is a prefix of what will be. */
  lemma PartialStream(fs: seq<Frame>, xs: seq<Arrival>, n: nat)
    requires forall f <- fs :: WellFormed(f)
    requires BytesOf(xs) == Wires(fs) && n <= |xs|
    ensures FeedAll(State(Boundary, []), xs[..n]).log <= Outcomes(fs, xs)
  {
    assert xs == xs[..n] + xs[n..];
    FeedSplits(State(Boundary, []), xs[..n], xs[n..]);
    LogGrows(FeedAll(State(Boundary, []), xs[..n]), xs[n..]);
    FramesAreRecovered(fs, [], xs);
    assert [] + Outcomes(fs, xs) == Outcomes(fs, xs);
  }

  lemma {:induction false} NothingResyncs(fs: seq<Frame>, xs: seq<Arrival>)
    requires forall f <- fs :: WellFormed(f)
    requires BytesOf(xs) == Wires(fs)
    ensures forall e <- Outcomes(fs, xs) :: e != Resync
    decreases |fs|
  {
    if fs != [] {
      BytesOfParts(xs, |Wire(fs[0])|);
      NothingResyncs(fs[1..], xs[|Wire(fs[0])|..]);
    }
  }

  /** While the bytes fed and the bytes to come make up well-formed frames, the log is
      some of the frames' outcomes and never a resynchronisation; at the end, all of them. */
  lemma InStep(fs: seq<Frame>, fed: seq<Arrival>, rest: seq<Byte>) returns (xs: seq<Arrival>)
    requires forall f <- fs :: WellFormed(f)
    requires BytesOf(fed) + rest == Wires(fs)
    ensures fed <= xs && BytesOf(xs) == Wires(fs)
    ensures var s := FeedAll(State(Boundary, []), fed);
      s.log <= Outcomes(fs, xs) && Resync !in s.log
      && (rest == [] ==> xs == fed && s == State(Boundary, Outcomes(fs, fed)))
  {
    hide FeedAll, Feed, Outcomes, Wires, WellFormed;
    xs := fed + Tagged(rest, false);
    assert BytesOf(xs) == BytesOf(fed) + rest;
    assert xs[..|fed|] == fed;
    PartialStream(fs, xs, |fed|);
    NothingResyncs(fs, xs);
    assert forall e <- FeedAll(State(Boundary, []), fed).log :: e in Outcomes(fs, xs);
    if rest == [] {
      assert xs == fed;
      FramesAreRecovered(fs, [], fed);
      assert [] + Outcomes(fs, fed) == Outcomes(fs, fed);
    }
  }
}
