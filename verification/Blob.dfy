/** The asset store: a header written last and in two steps, so that a slot reads valid at
    any power cut only if everything it promises had been written and checked. */
module Blob {
  import opened Bytes
  import opened Crc32
  import opened NorFlash

  const MAGIC := 0x314C_4257
  const FMT_VER: Byte := 2
  const HDR_BODY := 4
  const HDR_BYTES := 80
  const HDR_NAME := 16
  const NAME_MAX := 63

  const SLOT_COUNT := 6
  const REGION_BASE := 0x10_0000
  const SLOT_SIZE := 0x8_0000
  const HDR_SIZE := 4096
  const PAYLOAD_MAX := SLOT_SIZE - HDR_SIZE
  const PAGE := 256

  function SlotAddr(slot: nat): nat { REGION_BASE + slot * SLOT_SIZE }

  function PayloadAddr(slot: nat): nat { SlotAddr(slot) + HDR_SIZE }

  // ---- the header ----

  datatype State = Empty | Incomplete | Invalid | Valid(name: seq<Byte>, length: nat, crc: nat)

  function SafeChar(c: Byte): Byte {
    if 0x20 <= c < 0x7F then c else 0x5F
  }

  function Safe(name: seq<Byte>): (s: seq<Byte>)
    ensures |s| == |name|
  {
    seq(|name|, i requires 0 <= i < |name| => SafeChar(name[i]))
  }

  function Blank(n: nat): (s: seq<Byte>)
    ensures |s| == n && forall i :: 0 <= i < n ==> s[i] == ERASED
  {
    seq(n, _ => ERASED)
  }

  function Padding(n: nat): (s: seq<Byte>)
    ensures |s| == n
  {
    seq(n, _ => 0)
  }

  function Body(name: seq<Byte>, length: nat, crc: nat): (b: seq<Byte>)
    requires |name| <= NAME_MAX && length <= PAYLOAD_MAX && crc < WORD
    ensures |b| == HDR_BYTES - HDR_BODY
  {
    [FMT_VER, |name|, 0, 0] + Le32(length) + Le32(crc) + name + Padding(64 - |name|)
  }

  function Decode(hdr: seq<Byte>): (s: State)
    requires |hdr| == HDR_BYTES
    ensures s.Valid? ==> |s.name| <= NAME_MAX && 0 < s.length <= PAYLOAD_MAX
  {
    if hdr == Blank(HDR_BYTES) then Empty
    else if FromLe32(hdr[..4]) == 0xFFFF_FFFF then Incomplete
    else if FromLe32(hdr[..4]) != MAGIC then Invalid
    else DecodeBody(hdr)
  }

  function DecodeBody(hdr: seq<Byte>): (s: State)
    requires |hdr| == HDR_BYTES
    ensures s.Valid? || s == Invalid
    ensures s.Valid? ==> |s.name| <= NAME_MAX && 0 < s.length <= PAYLOAD_MAX
  {
    if hdr[4] != FMT_VER || hdr[5] > NAME_MAX || FromLe16(hdr[6], hdr[7]) != 0 then Invalid
    else
      var length := FromLe32(hdr[8..12]);
      if length == 0 || length > PAYLOAD_MAX then Invalid
      else Valid(Safe(hdr[HDR_NAME..HDR_NAME + hdr[5]]), length, FromLe32(hdr[12..16]))
  }

  /** Before the magic, nothing reads valid. */
  lemma NoMagicNotValid(hdr: seq<Byte>)
    requires |hdr| == HDR_BYTES && hdr[..HDR_BODY] == Blank(HDR_BODY)
    ensures Decode(hdr) in {Empty, Incomplete}
  {
  }

  /** Over a good body, a magic cut anywhere reads valid only when it is all there; and
      then the header says what was meant. */
  lemma MagicDecides(hdr: seq<Byte>, name: seq<Byte>, length: nat, crc: nat)
    requires |name| <= NAME_MAX && 0 < length <= PAYLOAD_MAX && crc < WORD
    requires Safe(name) == name
    requires |hdr| == HDR_BYTES && hdr[HDR_BODY..] == Body(name, length, crc)
    ensures Decode(hdr).Valid? <==> hdr[..HDR_BODY] == Le32(MAGIC)
    ensures Decode(hdr).Valid? ==> Decode(hdr) == Valid(name, length, crc)
  {
    hide FromLe32, Le32, Le16, Body, DecodeBody;
    BodyDecodes(hdr, name, length, crc);
    FromLe32OfLe32(MAGIC);
    Le32OfFromLe32(hdr[..4]);
    assert hdr[4] == Body(name, length, crc)[0] == FMT_VER by { BodyParts(hdr, name, length, crc); }
    assert hdr != Blank(HDR_BYTES) by { assert Blank(HDR_BYTES)[4] == ERASED; }
  }

  /** And nothing reads valid but a header that says, up to its name, exactly that. */
  lemma ValidMeans(hdr: seq<Byte>)
    requires |hdr| == HDR_BYTES
    ensures var s := Decode(hdr);
      s.Valid? ==>
        && s.crc < WORD && hdr[..HDR_NAME] == (Le32(MAGIC) + Body(s.name, s.length, s.crc))[..HDR_NAME]
        && Safe(hdr[HDR_NAME..HDR_NAME + |s.name|]) == s.name
  {
    hide FromLe32, Le32;
    var s := Decode(hdr);
    if !s.Valid? { return; }
    Le32OfFromLe32(hdr[..4]);
    Le32OfFromLe32(hdr[8..12]);
    Le32OfFromLe32(hdr[12..16]);
    var whole := Le32(MAGIC) + Body(s.name, s.length, s.crc);
    assert whole[..HDR_NAME] == Le32(MAGIC) + [FMT_VER, |s.name|, 0, 0] + Le32(s.length) + Le32(s.crc);
    assert hdr[..HDR_NAME] == hdr[..4] + [hdr[4], hdr[5], hdr[6], hdr[7]] + hdr[8..12] + hdr[12..16];
  }

  lemma ZeroPad()
    ensures FromLe16(0, 0) == 0
  {
  }

  lemma BodyDecodes(hdr: seq<Byte>, name: seq<Byte>, length: nat, crc: nat)
    requires |name| <= NAME_MAX && 0 < length <= PAYLOAD_MAX && crc < WORD
    requires Safe(name) == name
    requires |hdr| == HDR_BYTES && hdr[HDR_BODY..] == Body(name, length, crc)
    ensures DecodeBody(hdr) == Valid(name, length, crc)
  {
    hide FromLe32, Le32, Le16, FromLe16, Body, Safe;
    ZeroPad();
    BodyParts(hdr, name, length, crc);
    FromLe32OfLe32(length);
    FromLe32OfLe32(crc);
  }

  lemma BodyParts(hdr: seq<Byte>, name: seq<Byte>, length: nat, crc: nat)
    requires |name| <= NAME_MAX && length <= PAYLOAD_MAX && crc < WORD
    requires |hdr| == HDR_BYTES && hdr[HDR_BODY..] == Body(name, length, crc)
    ensures hdr[4] == FMT_VER && hdr[5] == |name| && hdr[6] == 0 && hdr[7] == 0
    ensures hdr[8..12] == Le32(length) && hdr[12..16] == Le32(crc)
    ensures hdr[HDR_NAME..HDR_NAME + |name|] == name
  {
    var b := Body(name, length, crc);
    assert hdr[8..12] == b[4..8] && hdr[12..16] == b[8..12];
    assert hdr[16..16 + |name|] == b[12..12 + |name|] == name;
    assert b[0] == hdr[4] && b[1] == hdr[5] && b[2] == hdr[6] && b[3] == hdr[7];
  }

  // ---- the sink ----

  function HeaderOf(flash: seq<Byte>, slot: nat): (h: seq<Byte>)
    requires |flash| == NOR_SIZE && slot < SLOT_COUNT
    ensures |h| == HDR_BYTES
  {
    flash[SlotAddr(slot)..SlotAddr(slot) + HDR_BYTES]
  }

  function PayloadOf(flash: seq<Byte>, slot: nat): (p: seq<Byte>)
    requires |flash| == NOR_SIZE && slot < SLOT_COUNT
    ensures |p| == PAYLOAD_MAX
  {
    flash[PayloadAddr(slot)..PayloadAddr(slot) + PAYLOAD_MAX]
  }

  lemma HeaderSlice(flash: seq<Byte>, slot: nat)
    requires |flash| == NOR_SIZE && slot < SLOT_COUNT
    ensures SlotAddr(slot) + SLOT_SIZE <= NOR_SIZE
    ensures HeaderOf(flash, slot) == flash[SlotAddr(slot)..SlotAddr(slot) + HDR_BYTES]
  {
  }

  lemma PayloadSlice(flash: seq<Byte>, slot: nat, off: nat, len: nat)
    requires |flash| == NOR_SIZE && slot < SLOT_COUNT && off + len <= PAYLOAD_MAX
    ensures PayloadAddr(slot) + off + len <= NOR_SIZE
    ensures PayloadOf(flash, slot)[off..off + len] ==
            flash[PayloadAddr(slot) + off..PayloadAddr(slot) + off + len]
  {
    var p, at := PayloadOf(flash, slot), PayloadAddr(slot);
    var a, b := p[off..off + len], flash[at + off..at + off + len];
    forall i | 0 <= i < len ensures a[i] == b[i] {
      assert p[off + i] == flash[at + off + i];
    }
  }

  lemma HeaderPart(flash: seq<Byte>, slot: nat, off: nat, len: nat)
    requires |flash| == NOR_SIZE && slot < SLOT_COUNT && off + len <= HDR_BYTES
    ensures HeaderOf(flash, slot)[off..off + len] ==
            flash[SlotAddr(slot) + off..SlotAddr(slot) + off + len]
    ensures off + len == HDR_BYTES ==>
      HeaderOf(flash, slot)[off..] == HeaderOf(flash, slot)[off..off + len]
    ensures off == 0 ==> HeaderOf(flash, slot)[..len] == HeaderOf(flash, slot)[0..len]
  {
    var h, at := HeaderOf(flash, slot), SlotAddr(slot);
    var a, b := h[off..off + len], flash[at + off..at + off + len];
    forall i | 0 <= i < len ensures a[i] == b[i] {
      assert h[off + i] == flash[at + off + i];
    }
  }

  lemma ErasedSlot(flash: seq<Byte>, slot: nat)
    requires |flash| == NOR_SIZE && slot < SLOT_COUNT
    requires forall a :: SlotAddr(slot) <= a < SlotAddr(slot) + SLOT_SIZE ==> flash[a] == ERASED
    ensures HeaderOf(flash, slot) == Blank(HDR_BYTES) && PayloadOf(flash, slot) == Blank(PAYLOAD_MAX)
  {
    var p, at := PayloadOf(flash, slot), PayloadAddr(slot);
    forall i | 0 <= i < PAYLOAD_MAX ensures p[i] == ERASED { assert p[i] == flash[at + i]; }
  }

  datatype Status = Done | BadParam | BadState | Short | IoError | CrcError | NoBlob | Dark

  /** What the payload says once `stream` has been programmed over `under`. */
  function Layered(under: seq<Byte>, stream: seq<Byte>): (p: seq<Byte>)
    requires |stream| <= |under|
    ensures |p| == |under|
  {
    seq(|under|, i requires 0 <= i < |under| =>
      if i < |stream| then And(under[i], stream[i]) as Byte else under[i])
  }

  lemma LayerMore(under: seq<Byte>, stream: seq<Byte>, data: seq<Byte>, was: seq<Byte>, now: seq<Byte>)
    requires |stream| + |data| <= |under| && was == Layered(under, stream)
    requires Programmed(was, now, |stream|, data, true)
    ensures now == Layered(under, stream + data)
  {
    hide And, Between;
    var r := Layered(under, stream + data);
    forall i | 0 <= i < |under| ensures now[i] == r[i] {
      if |stream| <= i < |stream| + |data| {
        var k := i - |stream|;
        assert CellOk(was[|stream| + k], now[|stream| + k], data[k], true);
      }
    }
  }

  /** Programming `data` over `was` needs no bit that is already clear. */
  predicate Takes(was: seq<Byte>, data: seq<Byte>)
    requires |data| <= |was|
  {
    forall i :: 0 <= i < |data| ==> Within(data[i], was[i])
  }

  lemma BlankTakesAll(n: nat, data: seq<Byte>)
    requires |data| <= n
    ensures Takes(Blank(n), data)
  {
    hide And;
    forall i | 0 <= i < |data| ensures Within(data[i], ERASED) {
      AndCommutes(ERASED, data[i]);
      ErasedTakesAll(data[i]);
    }
  }

  /** A complete program reads back as the data exactly when the flash took it. */
  lemma ReadsBackIff(was: seq<Byte>, now: seq<Byte>, off: nat, data: seq<Byte>)
    requires Programmed(was, now, off, data, true)
    ensures now[off..off + |data|] == data <==> Takes(was[off..], data)
  {
    hide And;
    var back := now[off..off + |data|];
    forall i | 0 <= i < |data| ensures back[i] == data[i] <==> Within(data[i], was[off..][i]) {
      assert CellOk(was[off + i], now[off + i], data[i], true);
      AndCommutes(was[off + i], data[i]);
    }
  }

  /** The payload is the stream exactly when the stream needs no bit that was already clear
      when it began; over an erased slot that is always so. */
  lemma PayloadIsStreamIff(under: seq<Byte>, stream: seq<Byte>)
    requires |stream| <= |under|
    ensures Layered(under, stream)[..|stream|] == stream <==> Takes(under, stream)
    ensures under == Blank(|under|) ==> Layered(under, stream)[..|stream|] == stream
  {
    var p := Layered(under, stream);
    forall i | 0 <= i < |stream|
      ensures p[i] == stream[i] <==> Within(stream[i], under[i])
      ensures under == Blank(|under|) ==> p[i] == stream[i]
    {
      AndCommutes(under[i], stream[i]);
      ErasedTakesAll(stream[i]);
    }
    if p[..|stream|] == stream {
      forall i | 0 <= i < |stream| ensures Within(stream[i], under[i]) {
        assert p[..|stream|][i] == p[i];
      }
    }
  }

  /** A second file begun over the first is lost as soon as it needs one bit back. */
  lemma SecondBeginCanCorrupt()
    ensures var first, second: seq<Byte> := [0x0F], [0xF0];
      Layered(Layered(Blank(1), first), second)[..1] != second
  {
    ErasedTakesAll(0x0F);
    assert And(1, 30) == 2 * And(0, 15);
    assert And(3, 60) == 2 * And(1, 30);
    assert And(7, 120) == 2 * And(3, 60);
    assert And(0x0F, 0xF0) == 2 * And(7, 120);
    var first, second: seq<Byte> := [0x0F], [0xF0];
    assert Layered(Blank(1), first)[0] == 0x0F;
    assert Layered(Layered(Blank(1), first), second)[0] == 0;
  }

  class Sink {
    const nor: Nor
    var armed: bool
    var begun: bool
    var failed: bool
    var slot: nat
    var cap: nat
    var pos: nat
    var crc: nat
    var name: seq<Byte>
    ghost var stream: seq<Byte>    // what has been accepted since the last begin
    ghost var under: seq<Byte>     // the payload area as that begin found it

    ghost function Header(): (h: seq<Byte>)
      reads this, nor.cells
      requires nor.cells.Length == NOR_SIZE && slot < SLOT_COUNT
      ensures |h| == HDR_BYTES
    {
      HeaderOf(nor.cells[..], slot)
    }

    ghost function Payload(): (p: seq<Byte>)
      reads this, nor.cells
      requires nor.cells.Length == NOR_SIZE && slot < SLOT_COUNT
      ensures |p| == PAYLOAD_MAX
    {
      PayloadOf(nor.cells[..], slot)
    }

    ghost predicate Valid()
      reads this, nor.cells
    {
      && nor.cells.Length == NOR_SIZE && slot < SLOT_COUNT
      && (begun ==> armed && 0 < cap <= PAYLOAD_MAX)
      && |name| <= NAME_MAX && Safe(name) == name
      && pos == |stream| <= cap <= PAYLOAD_MAX && crc == Extend(0, stream)
      && |under| == PAYLOAD_MAX
      && (begun && !failed ==> Payload() == Layered(under, stream))
    }

    /** Nothing outside slot s has changed. */
    twostate predicate OnlySlot(s: nat)
      reads nor.cells
    {
      forall a :: 0 <= a < nor.cells.Length && !(SlotAddr(s) <= a < SlotAddr(s) + SLOT_SIZE) ==>
        nor.cells[a] == old(nor.cells[a])
    }

    constructor (flash: Nor)
      requires flash.cells.Length == NOR_SIZE
      ensures Valid() && nor == flash && !armed
    {
      nor := flash;
      armed, begun, failed, slot, cap, pos, crc, name := false, false, false, 0, 0, 0, 0, [];
      stream, under := [], Blank(PAYLOAD_MAX);
      EmptyIsIdentity(0);
    }

    method Reset()
      requires nor.cells.Length == NOR_SIZE
      modifies this
      ensures Valid() && !armed
    {
      armed, begun, failed, slot, cap, pos, crc, name := false, false, false, 0, 0, 0, 0, [];
      stream, under := [], Blank(PAYLOAD_MAX);
      EmptyIsIdentity(0);
    }

    method Arm(target: nat) returns (s: Status)
      requires Valid()
      modifies this, nor.cells, nor`log
      ensures old(nor.log) <= nor.log && (|nor.log| == |old(nor.log)| + 1 <==> target < SLOT_COUNT)
      ensures s == Done <==> target < SLOT_COUNT && AllWent(nor.log, |old(nor.log)|)
      ensures s == Dark <==> PowerWent(nor.log, |old(nor.log)|)
      ensures Valid() && !begun && (armed <==> s == Done)
      ensures s in {Done, BadParam, IoError, Dark} && (target >= SLOT_COUNT <==> s == BadParam)
      ensures OnlySlot(target) && (s == BadParam ==> nor.cells[..] == old(nor.cells[..]))
      ensures s == Done ==> slot == target
      ensures s == Done ==> Header() == Blank(HDR_BYTES) && Payload() == Blank(PAYLOAD_MAX)
    {
      hide Layered, Extend, HeaderOf, PayloadOf, Safe;
      Reset();
      if target >= SLOT_COUNT { return BadParam; }
      var r := nor.Erase(SlotAddr(target), SLOT_SIZE);
      if r != Ok {
        assert CutShort(nor.log[|old(nor.log)|]) <==> r == PowerLost;
        assert !Went(nor.log[|old(nor.log)|]);
        return if r == PowerLost then Dark else IoError;
      }
      slot, armed := target, true;
      ErasedSlot(nor.cells[..], target);
      return Done;
    }

    /** The sender's block 0: a name and a size. */
    method Begin(fileName: seq<Byte>, size: nat) returns (ok: bool)
      requires Valid()
      modifies this
      ensures Valid() && armed == old(armed) && slot == old(slot)
      ensures ok <==> armed && 0 < size <= PAYLOAD_MAX
      ensures ok ==> begun && !failed && cap == size && stream == [] && under == Payload()
      ensures ok ==> name == Safe(UpToNul(fileName))
      ensures !ok && armed ==> !begun
    {
      hide Extend, HeaderOf, PayloadOf, UpToNul;
      if !armed { return false; }
      begun, failed, cap, pos, crc, stream := false, false, 0, 0, 0, [];
      EmptyIsIdentity(0);
      if size == 0 || size > PAYLOAD_MAX { return false; }
      name := Safe(UpToNul(fileName));
      SafeTwice(UpToNul(fileName));
      cap, begun, under := size, true, Payload();
      assert Payload() == Layered(under, stream);
      return true;
    }

    /** One block.  More than was declared is refused, not cut short. */
    method Write(data: seq<Byte>) returns (r: Result)
      requires Valid()
      modifies this, nor.cells, nor`log
      ensures Valid() && OnlySlot(old(slot))
      ensures nor.log == old(nor.log) +
        if old(begun && !failed) && old(pos) + |data| <= old(cap)
        then [Wrote(PayloadAddr(old(slot)) + old(pos), data, r)] else []
      ensures r == PowerLost ==> Decode(HeaderOf(nor.cells[..], old(slot))) == Decode(old(Header()))
      ensures r != PowerLost ==> armed == old(armed) && slot == old(slot) && under == old(under)
      ensures r != PowerLost ==> Header() == old(Header()) && cap == old(cap) && name == old(name)
      ensures r == Ok ==> begun && !failed && stream == old(stream) + data
      ensures nor.log == old(nor.log) ==> r == Err
      ensures r != Ok && old(begun && !failed) && old(pos) + |data| <= old(cap) ==>
        failed || r == PowerLost
    {
      hide Extend, Layered, HeaderOf, PayloadOf, CellOk, Safe;
      if !armed || !begun || failed { return Err; }
      if pos > cap || |data| > cap - pos { return Err; }
      ghost var flash := nor.cells[..];
      var at := PayloadAddr(slot) + pos;
      r := nor.Program(at, data);
      AreaChange(flash, nor.cells[..], slot, pos, data, r == Ok);
      if r == PowerLost { Reset(); return; }
      if r == Err { failed := true; return; }
      LayerMore(under, stream, data, PayloadOf(flash, slot), Payload());
      Chains(0, stream, data);
      crc := Extend(crc, data);
      pos := pos + |data|;
      stream := stream + data;
    }

    /** The outcome of what was tried from entry `from` of the device's history on.  Done is
        reported exactly when every operation succeeded and the flash could take the bytes,
        a cut exactly when one was cut, and nothing is tried after a failure. */
    ghost predicate Tried(from: nat, s: Status, takes: bool)
      reads nor`log
    {
      && (s == Done <==> AllWent(nor.log, from) && takes)
      && (s == Dark <==> PowerWent(nor.log, from))
      && (forall i :: from <= i < |nor.log| - 1 ==> Went(nor.log[i]))
    }

    /** The header but for its first word, written and read back. */
    method ProgramBody() returns (s: Status)
      requires Valid() && begun && !failed && pos == cap
      modifies nor.cells, nor`log
      ensures s in {Done, IoError, Dark} && OnlySlot(slot) && Payload() == old(Payload())
      ensures Tried(|old(nor.log)|, s, Takes(old(Header())[HDR_BODY..], Body(name, pos, crc)))
      ensures old(nor.log) <= nor.log
      ensures Header()[..HDR_BODY] == old(Header()[..HDR_BODY])
      ensures s == Done ==> Header()[HDR_BODY..] == Body(name, pos, crc)
    {
      hide Extend, Layered, Body, CellOk, Safe, HeaderOf, PayloadOf;
      ghost var was := nor.cells[..];
      var base, body := SlotAddr(slot), Body(name, pos, crc);
      var r := nor.Program(base + HDR_BODY, body);
      HeadChange(was, nor.cells[..], slot, HDR_BODY, body, r == Ok);
      if r != Ok {
        assert CutShort(nor.log[|old(nor.log)|]) <==> r == PowerLost;
        assert !Went(nor.log[|old(nor.log)|]);
        return if r == PowerLost then Dark else IoError;
      }
      ReadsBackIff(HeaderOf(was, slot), Header(), HDR_BODY, body);
      HeaderPart(nor.cells[..], slot, HDR_BODY, |body|);
      var ok, back := nor.Read(base + HDR_BODY, |body|);
      assert Went(nor.log[|old(nor.log)| + 1]) <==> ok;
      s := if !ok || back != body then IoError else Done;
    }

    /** The word that turns the slot valid, in a program that writes nothing else. */
    method ProgramMagic() returns (s: Status)
      requires Valid() && begun && !failed && pos == cap
      modifies nor.cells, nor`log
      ensures s in {Done, IoError, Dark} && OnlySlot(slot) && Payload() == old(Payload())
      ensures Tried(|old(nor.log)|, s, Takes(old(Header()), Le32(MAGIC)))
      ensures old(nor.log) <= nor.log
      ensures Header()[HDR_BODY..] == old(Header()[HDR_BODY..])
      ensures s == Done ==> Header()[..HDR_BODY] == Le32(MAGIC)
    {
      hide Extend, Layered, CellOk, Safe, HeaderOf, PayloadOf, Le32;
      ghost var was := nor.cells[..];
      var base := SlotAddr(slot);
      var r := nor.Program(base, Le32(MAGIC));
      HeadChange(was, nor.cells[..], slot, 0, Le32(MAGIC), r == Ok);
      if r != Ok {
        assert CutShort(nor.log[|old(nor.log)|]) <==> r == PowerLost;
        assert !Went(nor.log[|old(nor.log)|]);
        return if r == PowerLost then Dark else IoError;
      }
      ReadsBackIff(HeaderOf(was, slot), Header(), 0, Le32(MAGIC));
      HeaderPart(nor.cells[..], slot, 0, HDR_BODY);
      var ok, back := nor.Read(base, HDR_BODY);
      assert Went(nor.log[|old(nor.log)| + 1]) <==> ok;
      s := if !ok || back != Le32(MAGIC) then IoError else Done;
    }

    /** Body, read back, then magic.  Over an erased header the slot reads valid, whatever
        the outcome and wherever the power went, only if every declared byte had arrived and
        the body is exactly the one meant. */
    method Commit() returns (s: Status)
      requires Valid()
      modifies this, nor.cells, nor`log
      ensures Valid() && OnlySlot(old(slot)) && old(nor.log) <= nor.log
      ensures old(begun && !failed && pos == cap) ==>
        && s in {Done, IoError, Dark}
        && Tried(|old(nor.log)|, s, Takes(old(Header()), Le32(MAGIC) + Body(old(name), old(cap), old(crc))))
      ensures s in {BadState, Short} ==> nor.log == old(nor.log)
      ensures PayloadOf(nor.cells[..], old(slot)) == old(Payload())
      ensures s == BadState <==> !old(begun && !failed)
      ensures s == Short <==> old(begun && !failed) && old(pos) != old(cap)
      ensures s in {BadState, Short} ==> nor.cells[..] == old(nor.cells[..])
      ensures var now := Decode(HeaderOf(nor.cells[..], old(slot)));
        && (s == Done ==> now.Valid?)
        && (now.Valid? && (s == Done || old(Header()) == Blank(HDR_BYTES)) ==>
              old(begun && !failed && pos == cap) && now == State.Valid(old(name), old(cap), old(crc)))
    {
      hide Extend, Layered, Decode, Body, Safe, Le32, HeaderOf, PayloadOf;
      BlankIsEmpty();
      if !armed || !begun || failed { return BadState; }
      if pos != cap { return Short; }
      TakesParts(Header(), Body(name, pos, crc));
      s := ProgramBody();
      if old(Header()) == Blank(HDR_BYTES) { NoMagicNotValid(Header()); }
      if s == Done {
        s := ProgramMagic();
        MagicDecides(Header(), name, pos, crc);
      }
      if s != IoError { Reset(); }
    }
  }

  lemma TakesParts(hdr: seq<Byte>, body: seq<Byte>)
    requires |hdr| == HDR_BYTES && |body| == HDR_BYTES - HDR_BODY
    ensures Takes(hdr, Le32(MAGIC) + body) <==>
      Takes(hdr[HDR_BODY..], body) && Takes(hdr[..HDR_BODY], Le32(MAGIC))
    ensures Takes(hdr[..HDR_BODY], Le32(MAGIC)) <==> Takes(hdr, Le32(MAGIC))
  {
    hide And, Le32;
    var whole := Le32(MAGIC) + body;
    if Takes(hdr, whole) {
      forall i | 0 <= i < |body| ensures Within(body[i], hdr[HDR_BODY..][i]) {
        assert whole[HDR_BODY + i] == body[i];
      }
      forall i | 0 <= i < HDR_BODY ensures Within(Le32(MAGIC)[i], hdr[..HDR_BODY][i]) {
        assert whole[i] == Le32(MAGIC)[i];
      }
    }
    if Takes(hdr[HDR_BODY..], body) && Takes(hdr[..HDR_BODY], Le32(MAGIC)) {
      forall i | 0 <= i < |whole| ensures Within(whole[i], hdr[i]) {
        if i >= HDR_BODY { assert hdr[HDR_BODY..][i - HDR_BODY] == hdr[i]; }
      }
    }
  }

  lemma BlankIsEmpty()
    ensures Decode(Blank(HDR_BYTES)) == Empty
  {
  }

  /** A program inside the header sector, seen from the header and from the payload. */
  lemma HeadChange(was: seq<Byte>, now: seq<Byte>, slot: nat, off: nat, data: seq<Byte>, complete: bool)
    requires |was| == NOR_SIZE && slot < SLOT_COUNT && off + |data| <= HDR_BYTES
    requires Programmed(was, now, SlotAddr(slot) + off, data, complete)
    ensures Programmed(HeaderOf(was, slot), HeaderOf(now, slot), off, data, complete)
    ensures HeaderOf(now, slot)[..off] == HeaderOf(was, slot)[..off]
    ensures HeaderOf(now, slot)[off + |data|..] == HeaderOf(was, slot)[off + |data|..]
    ensures PayloadOf(now, slot) == PayloadOf(was, slot)
  {
    hide CellOk;
    var a, b := HeaderOf(was, slot), HeaderOf(now, slot);
    forall i | 0 <= i < |data| ensures CellOk(a[off + i], b[off + i], data[i], complete) {
      assert a[off + i] == was[SlotAddr(slot) + off + i];
    }
  }

  function UpToNul(name: seq<Byte>): (s: seq<Byte>)
    ensures |s| <= NAME_MAX && |s| <= |name| && s == name[..|s|] && 0 !in s
    ensures |s| == NAME_MAX || |s| == |name| || name[|s|] == 0
  {
    UpToNulFrom(name, 0)
  }

  function UpToNulFrom(name: seq<Byte>, i: nat): (s: seq<Byte>)
    requires i <= |name| && i <= NAME_MAX && 0 !in name[..i]
    ensures |s| <= NAME_MAX && |s| <= |name| && s == name[..|s|] && 0 !in s
    ensures |s| == NAME_MAX || |s| == |name| || name[|s|] == 0
    decreases |name| - i
  {
    if i == NAME_MAX || i == |name| || name[i] == 0 then name[..i]
    else
      assert name[..i + 1] == name[..i] + [name[i]];
      UpToNulFrom(name, i + 1)
  }

  lemma SafeTwice(name: seq<Byte>)
    ensures Safe(Safe(name)) == Safe(name)
  {
  }

  /** A program inside the payload area, seen from the area and from the header. */
  lemma AreaChange(was: seq<Byte>, now: seq<Byte>, slot: nat, pos: nat, data: seq<Byte>, complete: bool)
    requires |was| == NOR_SIZE && slot < SLOT_COUNT && pos + |data| <= PAYLOAD_MAX
    requires Programmed(was, now, PayloadAddr(slot) + pos, data, complete)
    ensures Programmed(PayloadOf(was, slot), PayloadOf(now, slot), pos, data, complete)
    ensures HeaderOf(now, slot) == HeaderOf(was, slot)
  {
    hide CellOk;
    var at := PayloadAddr(slot);
    var a, b := PayloadOf(was, slot), PayloadOf(now, slot);
    forall i | 0 <= i < |data| ensures CellOk(a[pos + i], b[pos + i], data[i], complete) {
      assert a[pos + i] == was[at + pos + i] && b[pos + i] == now[at + pos + i];
    }
  }

  // ---- reading it back ----

  /** What blob_verify is there to say about a slot. */
  function Verdict(flash: seq<Byte>, slot: nat): Status
    requires |flash| == NOR_SIZE && slot < SLOT_COUNT
  {
    match Decode(HeaderOf(flash, slot))
    case Valid(_, length, crc) =>
      if Extend(0, PayloadOf(flash, slot)[..length]) == crc then Done else CrcError
    case _ => NoBlob
  }

  /** The checksum of as much payload as the header says there is. */
  function PayloadCrc(flash: seq<Byte>, slot: nat): nat
    requires |flash| == NOR_SIZE && slot < SLOT_COUNT && Verdict(flash, slot) != NoBlob
  {
    Extend(0, PayloadOf(flash, slot)[..Decode(HeaderOf(flash, slot)).length])
  }

  /** blob_verify: page by page, feeding each checksum into the next.  An error is reported
      exactly when a read of its own failed; the number goes out only with a verdict. */
  method Verify(nor: Nor, slot: nat) returns (s: Status, crc: nat)
    requires nor.cells.Length == NOR_SIZE
    modifies nor`log
    ensures old(nor.log) <= nor.log
    ensures s == BadParam <==> slot >= SLOT_COUNT
    ensures slot < SLOT_COUNT ==>
      s == if AllWent(nor.log, |old(nor.log)|) then Verdict(nor.cells[..], slot) else IoError
    ensures crc == if s in {Done, CrcError} then PayloadCrc(nor.cells[..], slot) else 0
  {
    hide Extend, Decode, PayloadOf, HeaderOf;
    crc := 0;
    ghost var from := |nor.log|;
    if slot >= SLOT_COUNT { return BadParam, 0; }
    ghost var payload := PayloadOf(nor.cells[..], slot);
    var ok, data := nor.Read(SlotAddr(slot), HDR_BYTES);
    if !ok { assert !Went(nor.log[from]); return IoError, 0; }
    HeaderSlice(nor.cells[..], slot);
    var info := Decode(data);
    if !info.Valid? { return NoBlob, 0; }
    var done := 0;
    EmptyIsIdentity(0);
    while done < info.length
      invariant done <= info.length <= PAYLOAD_MAX && crc == Extend(0, payload[..done])
      invariant old(nor.log) <= nor.log && AllWent(nor.log, from)
    {
      var chunk := if info.length - done > PAGE then PAGE else info.length - done;
      ok, data := nor.Read(PayloadAddr(slot) + done, chunk);
      if !ok { assert !Went(nor.log[|nor.log| - 1]); return IoError, 0; }
      PayloadSlice(nor.cells[..], slot, done, chunk);
      assert payload[..done + chunk] == payload[..done] + data;
      Chains(0, payload[..done], data);
      crc := Extend(crc, data);
      done := done + chunk;
    }
    s := if crc == info.crc then Done else CrcError;
  }

  function Concat(blocks: seq<seq<Byte>>): seq<Byte> {
    if blocks == [] then [] else Concat(blocks[..|blocks| - 1]) + blocks[|blocks| - 1]
  }

  lemma {:induction false} ConcatGrows(blocks: seq<seq<Byte>>, k: nat)
    requires k <= |blocks|
    ensures |Concat(blocks[..k])| <= |Concat(blocks)|
    decreases |blocks|
  {
    if k == |blocks| {
      assert blocks[..k] == blocks;
    } else {
      var shorter := blocks[..|blocks| - 1];
      assert shorter[..k] == blocks[..k];
      ConcatGrows(shorter, k);
    }
  }

  /** Slot `slot` holds exactly this file, and reading it back confirms it. */
  predicate Holds(flash: seq<Byte>, slot: nat, name: seq<Byte>, size: nat, file: seq<Byte>)
    requires |flash| == NOR_SIZE && slot < SLOT_COUNT
  {
    && |file| == size <= PAYLOAD_MAX && PayloadOf(flash, slot)[..size] == file
    && Decode(HeaderOf(flash, slot)) == State.Valid(Safe(UpToNul(name)), size, Extend(0, file))
    && Verdict(flash, slot) == Done
  }

  /** The blocks of one file, one after the other.  All of them are taken exactly when they
      are no more than was declared and every program succeeded. */
  method Pour(sink: Sink, blocks: seq<seq<Byte>>) returns (r: Result)
    requires sink.Valid() && sink.begun && !sink.failed && sink.stream == []
    modifies sink, sink.nor.cells, sink.nor`log
    ensures sink.Valid() && old(sink.nor.log) <= sink.nor.log
    ensures r == Ok <==>
      AllWent(sink.nor.log, |old(sink.nor.log)|) && |Concat(blocks)| <= old(sink.cap)
    ensures r == PowerLost <==> PowerWent(sink.nor.log, |old(sink.nor.log)|)
    ensures r == Ok ==> sink.begun && !sink.failed && sink.stream == Concat(blocks)
    ensures r == Ok ==> sink.slot == old(sink.slot) && sink.Header() == old(sink.Header())
    ensures r == Ok ==> sink.under == old(sink.under)
    ensures r == Ok ==> sink.cap == old(sink.cap) && sink.name == old(sink.name)
    ensures Decode(HeaderOf(sink.nor.cells[..], old(sink.slot))) == Decode(old(sink.Header()))
  {
    hide Extend, Decode, Layered, Safe, HeaderOf, PayloadOf;
    ghost var from := |sink.nor.log|;
    for k := 0 to |blocks|
      invariant sink.Valid() && sink.begun && !sink.failed && sink.stream == Concat(blocks[..k])
      invariant sink.slot == old(sink.slot) && sink.Header() == old(sink.Header())
      invariant sink.under == old(sink.under)
      invariant sink.cap == old(sink.cap) && sink.name == old(sink.name)
      invariant old(sink.nor.log) <= sink.nor.log && AllWent(sink.nor.log, from)
    {
      assert blocks[..k + 1][..k] == blocks[..k];
      ConcatGrows(blocks, k + 1);
      ghost var was := |sink.nor.log|;
      r := sink.Write(blocks[k]);
      if r != Ok {
        if was < |sink.nor.log| {
          assert CutShort(sink.nor.log[was]) <==> r == PowerLost;
          assert !Went(sink.nor.log[was]);
        }
        return;
      }
    }
    assert blocks[..|blocks|] == blocks;
    r := Ok;
  }

  /** One transfer into a wiped slot.  Whatever goes wrong and wherever the power is cut,
      afterwards the slot reads valid only if it holds the whole file, and then verifying it
      succeeds.  The transfer is reported done exactly when a sound file arrived whole and
      every operation on the flash succeeded, and then the slot does hold it. */
  method Receive(nor: Nor, slot: nat, name: seq<Byte>, size: nat, blocks: seq<seq<Byte>>)
    returns (s: Status, wiped: bool)
    requires nor.cells.Length == NOR_SIZE
    modifies nor.cells, nor`log
    ensures old(nor.log) <= nor.log
    ensures s == Done <==> slot < SLOT_COUNT && 0 < size <= PAYLOAD_MAX &&
                           |Concat(blocks)| == size && AllWent(nor.log, |old(nor.log)|)
    ensures s == Dark <==> PowerWent(nor.log, |old(nor.log)|)
    ensures s == Done ==> wiped
    ensures wiped <==> slot < SLOT_COUNT && |nor.log| > |old(nor.log)| && Went(nor.log[|old(nor.log)|])
    ensures s == Done ==> Holds(nor.cells[..], slot, name, size, Concat(blocks))
    ensures wiped && Decode(HeaderOf(nor.cells[..], slot)).Valid? ==>
      Holds(nor.cells[..], slot, name, size, Concat(blocks))
  {
    hide Extend, Decode, Layered, Safe, Verdict, HeaderOf, PayloadOf, Takes, And;
    BlankIsEmpty();
    var sink := new Sink(nor);
    s := sink.Arm(slot);
    wiped := s == Done;
    if !wiped { return; }
    var ok := sink.Begin(name, size);
    if !ok { return BadState, true; }
    var r := Pour(sink, blocks);
    if r == PowerLost { return Dark, true; }
    if r == Err { return IoError, true; }
    ghost var file := sink.stream;
    PayloadIsStreamIff(sink.under, file);
    BlankTakesAll(HDR_BYTES, Le32(MAGIC) + Body(sink.name, sink.cap, sink.crc));
    s := sink.Commit();
    if Decode(HeaderOf(nor.cells[..], slot)).Valid? {
      CommittedVerifies(nor.cells[..], slot, Safe(UpToNul(name)), file);
    }
  }

  lemma CommittedVerifies(flash: seq<Byte>, slot: nat, name: seq<Byte>, file: seq<Byte>)
    requires |flash| == NOR_SIZE && slot < SLOT_COUNT && |file| <= PAYLOAD_MAX
    requires Decode(HeaderOf(flash, slot)) == State.Valid(name, |file|, Extend(0, file))
    requires PayloadOf(flash, slot)[..|file|] == file
    ensures Verdict(flash, slot) == Done
  {
  }
}
