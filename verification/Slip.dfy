/** SLIP framing with a leading END: the encoder and the decoder of the download probe. */
module Slip {
  import opened Bytes

  const END: Byte := 0xC0
  const ESC: Byte := 0xDB
  const ESC_END: Byte := 0xDC
  const ESC_ESC: Byte := 0xDD

  function Stuffed(b: Byte): (s: seq<Byte>)
    ensures 1 <= |s| <= 2
  {
    if b == END then [ESC, ESC_END] else if b == ESC then [ESC, ESC_ESC] else [b]
  }

  function Body(data: seq<Byte>): (s: seq<Byte>)
    ensures |data| <= |s|
  {
    if data == [] then [] else Body(data[..|data| - 1]) + Stuffed(data[|data| - 1])
  }

  function Encoded(data: seq<Byte>): seq<Byte> {
    [END] + Body(data) + [END]
  }

  // ---- the decoder as a byte machine ----

  datatype State = State(started: bool, esc: bool, done: bool, out: seq<Byte>)

  function Unescaped(b: Byte): Byte {
    if b == ESC_END then END else if b == ESC_ESC then ESC else b
  }

  function Put(out: seq<Byte>, b: Byte, cap: nat): seq<Byte> {
    if |out| < cap then out + [b] else out
  }

  function Step(s: State, b: Byte, cap: nat): State {
    if s.done then s
    else if b == END then
      if s.started && |s.out| > 0 then s.(done := true) else s.(started := true)
    else if !s.started then s
    else if s.esc then s.(esc := false, out := Put(s.out, Unescaped(b), cap))
    else if b == ESC then s.(esc := true)
    else s.(out := Put(s.out, b, cap))
  }

  function Decode(s: State, bytes: seq<Byte>, cap: nat): State {
    if bytes == [] then s else Step(Decode(s, bytes[..|bytes| - 1], cap), bytes[|bytes| - 1], cap)
  }

  const START := State(false, false, false, [])
  const READY := State(true, false, false, [])

  lemma {:induction false} DecodeConcat(s: State, a: seq<Byte>, b: seq<Byte>, cap: nat)
    ensures Decode(s, a + b, cap) == Decode(Decode(s, a, cap), b, cap)
    decreases |b|
  {
    if b == [] {
      assert a + b == a;
    } else {
      DecodeConcat(s, a, b[..|b| - 1], cap);
      assert (a + b)[..|a + b| - 1] == a + b[..|b| - 1];
    }
  }

  /** The codes of RFC 1055: the delimiter goes as DB DC, the escape as DB DD and everything
      else as itself. */
  lemma Codes(b: Byte)
    ensures b == 0xC0 ==> Encoded([b]) == [0xC0, 0xDB, 0xDC, 0xC0]
    ensures b == 0xDB ==> Encoded([b]) == [0xC0, 0xDB, 0xDD, 0xC0]
    ensures b !in {0xC0, 0xDB} ==> Encoded([b]) == [0xC0, b, 0xC0]
  {
    assert [b][..0] == [];
    assert Body([b]) == [] + Stuffed(b);
  }

  /** And back; an escape before anything else is dropped. */
  lemma Escapes(b: Byte, cap: nat)
    requires b != 0xC0 && cap > 0
    ensures Decode(START, [0xC0, 0xDB, b], cap).out ==
            [if b == 0xDC then 0xC0 else if b == 0xDD then 0xDB else b]
  {
    assert [0xC0, 0xDB, b][..2] == [0xC0, 0xDB];
    assert [0xC0, 0xDB][..1] == [0xC0] && [0xC0][..0] == [];
    assert Decode(START, [0xC0], cap) == READY;
    assert Decode(START, [0xC0, 0xDB], cap) == READY.(esc := true);
  }

  /** No bare delimiter inside. */
  lemma {:induction false} BodyHasNoEnd(data: seq<Byte>)
    ensures END !in Body(data)
    decreases |data|
  {
    if data != [] { BodyHasNoEnd(data[..|data| - 1]); }
  }

  lemma {:induction false} NoiseIsIgnored(noise: seq<Byte>, cap: nat)
    requires END !in noise
    ensures Decode(START, noise, cap) == START
    decreases |noise|
  {
    if noise != [] { NoiseIsIgnored(noise[..|noise| - 1], cap); }
  }

  lemma {:induction false} BodyDecodes(data: seq<Byte>, cap: nat)
    requires |data| <= cap
    ensures Decode(READY, Body(data), cap) == State(true, false, false, data)
    decreases |data|
  {
    hide Step, Stuffed;
    if data != [] {
      var n := |data| - 1;
      BodyDecodes(data[..n], cap);
      BodyStep(READY, data[..n], data[n], cap);
      assert data[..n] + [data[n]] == data;
    }
  }

  lemma BodyStep(s: State, data: seq<Byte>, b: Byte, cap: nat)
    requires |data| < cap && Decode(s, Body(data), cap) == State(true, false, false, data)
    ensures Decode(s, Body(data) + Stuffed(b), cap) == State(true, false, false, data + [b])
  {
    hide Step, Stuffed, Decode, Body;
    DecodeConcat(s, Body(data), Stuffed(b), cap);
    OneByte(State(true, false, false, data), b, cap);
  }

  lemma OneByte(s: State, b: Byte, cap: nat)
    requires s.started && !s.esc && !s.done && |s.out| < cap
    ensures Decode(s, Stuffed(b), cap) == s.(out := s.out + [b])
  {
    if b == END || b == ESC {
      assert Stuffed(b)[..1] == [ESC];
      assert Decode(s, [ESC], cap) == s.(esc := true) by { assert [ESC][..0] == []; }
    } else {
      assert Stuffed(b)[..0] == [];
    }
  }

  /** Decoding undoes encoding for everything that fits, after any noise without a
      delimiter and whatever follows; a byte string that is empty decodes to nothing only
      if nothing follows. */
  lemma RoundTrip(noise: seq<Byte>, data: seq<Byte>, rest: seq<Byte>, cap: nat)
    requires END !in noise && |data| <= cap && (data != [] || rest == [])
    ensures Decode(START, noise + Encoded(data) + rest, cap).out == data
    ensures data != [] ==> Decode(START, noise + Encoded(data) + rest, cap).done
  {
    var start := READY;
    NoiseIsIgnored(noise, cap);
    DecodeConcat(START, noise + Encoded(data), rest, cap);
    DecodeConcat(START, noise, Encoded(data), cap);
    DecodeConcat(START, [END] + Body(data), [END], cap);
    DecodeConcat(START, [END], Body(data), cap);
    assert [END][..0] == [] && Decode(START, [END], cap) == start;
    BodyDecodes(data, cap);
    var s := State(true, false, false, data);
    assert Decode(s, [END], cap) == Step(s, END, cap) by { assert [END][..0] == []; }
    if data != [] { DoneStays(s.(done := true), rest, cap); }
  }

  lemma {:induction false} DoneStays(s: State, rest: seq<Byte>, cap: nat)
    requires s.done
    ensures Decode(s, rest, cap) == s
    decreases |rest|
  {
    if rest != [] { DoneStays(s, rest[..|rest| - 1], cap); }
  }

  // ---- the loops ----

  /** slip_encode: the encoding, or refusal exactly when it does not fit. */
  method Encode(data: seq<Byte>, cap: nat) returns (out: Option<seq<Byte>>)
    ensures out == if |Encoded(data)| <= cap then Some(Encoded(data)) else None
  {
    if 0 >= cap { return None; }
    var o := [END];
    for i := 0 to |data|
      invariant o == [END] + Body(data[..i]) && |o| <= cap
    {
      assert data[..i + 1][..i] == data[..i];
      BodyGrows(data, i + 1);
      var s := Stuffed(data[i]);
      if |o| + |s| > cap { return None; }
      o := o + s;
    }
    assert data[..|data|] == data;
    if |o| >= cap { return None; }
    out := Some(o + [END]);
  }

  lemma {:induction false} BodyGrows(data: seq<Byte>, i: nat)
    requires i <= |data|
    ensures |Body(data[..i])| <= |Body(data)|
    decreases |data|
  {
    if i == |data| {
      assert data[..i] == data;
    } else {
      var n := |data| - 1;
      BodyGrows(data[..n], i);
      assert data[..n][..i] == data[..i];
    }
  }

  /** slip_decode: what the machine has put out when it stops. */
  method DecodeFrame(bytes: seq<Byte>, cap: nat) returns (out: seq<Byte>)
    ensures out == Decode(START, bytes, cap).out && |out| <= cap
  {
    out := [];
    var started, esc := false, false;
    for i := 0 to |bytes|
      invariant Decode(START, bytes[..i], cap) == State(started, esc, false, out) && |out| <= cap
    {
      assert bytes[..i + 1][..i] == bytes[..i];
      var b := bytes[i];
      if b == END {
        if started && |out| > 0 {
          assert bytes == bytes[..i + 1] + bytes[i + 1..];
          DecodeConcat(START, bytes[..i + 1], bytes[i + 1..], cap);
          DoneStays(State(started, esc, true, out), bytes[i + 1..], cap);
          return;
        }
        started := true;
        continue;
      }
      if !started { continue; }
      if esc {
        b := Unescaped(b);
        esc := false;
      } else if b == ESC {
        esc := true;
        continue;
      }
      if |out| < cap { out := out + [b]; }
    }
    assert bytes[..|bytes|] == bytes;
  }
}
