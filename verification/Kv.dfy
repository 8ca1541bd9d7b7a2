/** Configuration records: a packer and an unpacker that must agree byte for byte. */
module Kv {
  import opened Bytes

  const MAGIC := 0x3156_4B57
  const VERSION: Byte := 1
  const HDR := 12
  const DESC_MAX := 64
  const VALUE_MAX := 256
  const REC_MAX := HDR + DESC_MAX + VALUE_MAX

  const TYPE_STR: Byte := 0
  const TYPE_U32: Byte := 1
  const TYPE_BOOL: Byte := 2
  const TYPE_BYTES: Byte := 3

  datatype Value = Value(kind: Byte, data: seq<Byte>, desc: seq<Byte>)

  predicate KindOk(kind: Byte) {
    kind in {TYPE_STR, TYPE_U32, TYPE_BOOL, TYPE_BYTES}
  }

  predicate LenOk(kind: Byte, len: nat) {
    0 < len <= VALUE_MAX && (kind == TYPE_U32 ==> len == 4) && (kind == TYPE_BOOL ==> len == 1)
  }

  /** What a record may hold. */
  predicate Storable(v: Value) {
    && KindOk(v.kind) && LenOk(v.kind, |v.data|) && (v.kind == TYPE_BOOL ==> v.data[0] <= 1)
    && |v.desc| <= DESC_MAX
  }

  function Head(kind: Byte, descLen: nat, total: nat): (h: seq<Byte>)
    requires descLen < 0x1_0000 && total < WORD
    ensures |h| == HDR
  {
    Le32(MAGIC) + [VERSION, kind] + Le16(descLen) + Le32(total)
  }

  function Total(v: Value): nat { HDR + |v.desc| + |v.data| }

  function Record(v: Value): (r: seq<Byte>)
    requires Storable(v)
    ensures |r| == Total(v) <= REC_MAX
  {
    Head(v.kind, |v.desc|, Total(v)) + v.desc + v.data
  }

  /** What the fields of a header say, and that they say everything about it. */
  lemma HeadFields(kind: Byte, descLen: nat, total: nat)
    requires descLen < 0x1_0000 && total < WORD
    ensures var h := Head(kind, descLen, total);
      && FromLe32(h[0..4]) == MAGIC && h[4] == VERSION && h[5] == kind
      && FromLe16(h[6], h[7]) == descLen && FromLe32(h[8..12]) == total
  {
    hide Le32, Le16, FromLe32, FromLe16;
    FromLe32OfLe32(MAGIC);
    FromLe32OfLe32(total);
    FromLe16OfLe16(descLen);
    var h := Head(kind, descLen, total);
    assert h[0..4] == Le32(MAGIC) && h[8..12] == Le32(total) && h[6..8] == Le16(descLen);
    assert h[6] == h[6..8][0] && h[7] == h[6..8][1];
  }

  lemma HeadOf(raw: seq<Byte>)
    requires |raw| >= HDR && FromLe32(raw[0..4]) == MAGIC && raw[4] == VERSION
    ensures raw[..HDR] == Head(raw[5], FromLe16(raw[6], raw[7]), FromLe32(raw[8..12]))
  {
    hide Le32, Le16, FromLe32;
    Le32OfFromLe32(raw[0..4]);
    Le32OfFromLe32(raw[8..12]);
    Le16OfFromLe16(raw[6], raw[7]);
    assert raw[..HDR] == raw[0..4] + [raw[4], raw[5]] + [raw[6], raw[7]] + raw[8..12];
  }

  /** Every record says what was put in it: no two values share one. */
  lemma RecordIsInjective(v: Value, w: Value)
    requires Storable(v) && Storable(w) && Record(v) == Record(w)
    ensures v == w
  {
    hide Head;
    RecordParts(v);
    RecordParts(w);
    HeadFields(v.kind, |v.desc|, Total(v));
    HeadFields(w.kind, |w.desc|, Total(w));
  }

  lemma RecordParts(v: Value)
    requires Storable(v)
    ensures var r, n := Record(v), HDR + |v.desc|;
      r[..HDR] == Head(v.kind, |v.desc|, Total(v)) && r[HDR..n] == v.desc && r[n..] == v.data
  {
    hide Head;
  }

  /** A C string: its bytes up to the first NUL. */
  function CString(s: seq<Byte>): (c: seq<Byte>)
    ensures |c| <= |s| && c <= s && 0 !in c && (|c| < |s| ==> s[|c|] == 0)
  {
    if s == [] || s[0] == 0 then [] else
      var rest := CString(s[1..]);
      assert s == [s[0]] + s[1..];
      [s[0]] + rest
  }

  ghost predicate IsRecord(raw: seq<Byte>) {
    exists v: Value :: Storable(v) && Record(v) == raw
  }

  lemma RecordIs(v: Value)
    requires Storable(v)
    ensures Record(v) == Head(v.kind, |v.desc|, Total(v)) + v.desc + v.data
  {
  }

  /** kv_pack: the record of exactly these, or zero if they do not make one. */
  method Pack(out: array<Byte>, kind: Byte, data: seq<Byte>, desc: Option<seq<Byte>>)
    returns (total: nat)
    requires out.Length >= REC_MAX
    modifies out
    ensures var v := Value(kind, data, if desc.Some? then CString(desc.value) else []);
      && (total != 0 <==> Storable(v)) && total <= REC_MAX
      && (total != 0 ==> out[..total] == Record(v))
    ensures total == 0 ==> out[..] == old(out[..])
  {
    hide CString, Head, Record;
    var d := if desc.Some? then CString(desc.value) else [];
    ghost var v := Value(kind, data, d);
    if !KindOk(kind) || !LenOk(kind, |data|) || (kind == TYPE_BOOL && data[0] > 1) || |d| > DESC_MAX {
      return 0;
    }
    total := HDR + |d| + |data|;
    Lay(out, Head(kind, |d|, total), d, data);
    RecordIs(v);
  }

  /** Three pieces, one after the other. */
  method Lay(out: array<Byte>, a: seq<Byte>, b: seq<Byte>, c: seq<Byte>)
    requires |a| + |b| + |c| <= out.Length
    modifies out
    ensures out[..|a| + |b| + |c|] == a + b + c
  {
    Copy(out, 0, a);
    Copy(out, |a|, b);
    Copy(out, |a| + |b|, c);
    ghost var n := |a| + |b|;
    assert out[..n + |c|] == out[..|a|] + out[|a|..n] + out[n..n + |c|];
  }

  method Copy(out: array<Byte>, at: nat, bytes: seq<Byte>)
    requires at + |bytes| <= out.Length
    modifies out
    ensures out[at..at + |bytes|] == bytes
    ensures out[..at] == old(out[..at]) && out[at + |bytes|..] == old(out[at + |bytes|..])
  {
    for i := 0 to |bytes|
      invariant forall k :: 0 <= k < i ==> out[at + k] == bytes[k]
      invariant forall k :: 0 <= k < out.Length && !(at <= k < at + i) ==> out[k] == old(out[k])
    {
      out[at + i] := bytes[i];
    }
  }

  /** kv_unpack: accepts exactly the records, and recovers exactly what is in them.  Each
      subtraction is of naturals, so none of them can wrap. */
  method Unpack(raw: seq<Byte>) returns (out: Option<Value>)
    requires |raw| < WORD
    ensures out.Some? <==> IsRecord(raw)
    ensures out.Some? ==> Storable(out.value) && Record(out.value) == raw
  {
    hide Le16, Le32, FromLe16, FromLe32, Head, Record;
    out := None;
    if |raw| < HDR { NotShort(raw); return; }
    ghost var fits := FromLe32(raw[0..4]) == MAGIC && raw[4] == VERSION;
    RecordsHaveHeads(raw);
    if FromLe32(raw[0..4]) != MAGIC || raw[4] != VERSION { return; }
    var kind := raw[5];
    if !KindOk(kind) { return; }
    var total := FromLe32(raw[8..12]);
    if total != |raw| { return; }
    var descLen: nat := FromLe16(raw[6], raw[7]);
    var room: nat := total - HDR;
    if descLen > room { return; }
    var len: nat := total - HDR - descLen;
    var data := raw[HDR + descLen..];
    if descLen > DESC_MAX || !LenOk(kind, len) || (kind == TYPE_BOOL && data[0] > 1) { return; }
    var v := Value(kind, data, raw[HDR..HDR + descLen]);
    Rebuilt(raw, v);
    out := Some(v);
  }

  lemma NotShort(raw: seq<Byte>)
    requires |raw| < HDR
    ensures !IsRecord(raw)
  {
  }

  /** What holds of any record, field by field. */
  lemma RecordsHaveHeads(raw: seq<Byte>)
    requires |raw| >= HDR
    ensures IsRecord(raw) ==>
      var n: nat := FromLe16(raw[6], raw[7]);
      && FromLe32(raw[0..4]) == MAGIC && raw[4] == VERSION && KindOk(raw[5])
      && FromLe32(raw[8..12]) == |raw| && n <= DESC_MAX && HDR + n <= |raw|
      && LenOk(raw[5], |raw| - HDR - n) && (raw[5] == TYPE_BOOL ==> raw[HDR + n] <= 1)
  {
    if IsRecord(raw) {
      hide Head, FromLe16, FromLe32, Record;
      var v: Value :| Storable(v) && Record(v) == raw;
      RecordParts(v);
      HeadFields(v.kind, |v.desc|, Total(v));
      var h := raw[..HDR];
      assert h[0..4] == raw[0..4] && h[8..12] == raw[8..12];
      assert raw[HDR + |v.desc|..] == v.data;
    }
  }

  lemma Rebuilt(raw: seq<Byte>, v: Value)
    requires |raw| >= HDR && FromLe32(raw[0..4]) == MAGIC && raw[4] == VERSION
    requires Storable(v) && v.kind == raw[5] && FromLe16(raw[6], raw[7]) == |v.desc|
    requires FromLe32(raw[8..12]) == |raw| == Total(v)
    requires raw[HDR..HDR + |v.desc|] == v.desc && raw[HDR + |v.desc|..] == v.data
    ensures Record(v) == raw && IsRecord(raw)
  {
    hide Head, FromLe16, FromLe32;
    HeadOf(raw);
    assert raw == raw[..HDR] + raw[HDR..HDR + |v.desc|] + raw[HDR + |v.desc|..];
  }

  /** What was packed is what is unpacked. */
  method PackThenUnpack(kind: Byte, data: seq<Byte>, desc: Option<seq<Byte>>)
    returns (back: Option<Value>)
    ensures var v := Value(kind, data, if desc.Some? then CString(desc.value) else []);
      back == if Storable(v) then Some(v) else None
  {
    var buf := new Byte[REC_MAX];
    ghost var v := Value(kind, data, if desc.Some? then CString(desc.value) else []);
    var n := Pack(buf, kind, data, desc);
    if n == 0 { return None; }
    back := Unpack(buf[..n]);
    assert IsRecord(buf[..n]);
    RecordIsInjective(back.value, v);
  }

  /** A record with a NUL in its description is one, and packs to something else. */
  lemma NulIsLost()
    ensures var v := Value(TYPE_BOOL, [1], [0]);
      Storable(v) && IsRecord(Record(v)) && Record(Value(TYPE_BOOL, [1], CString([0]))) != Record(v)
  {
    var v := Value(TYPE_BOOL, [1], [0]);
    CStringWhole(v.desc);
    Repacks(Record(v), v);
  }

  /** What was unpacked packs to the same bytes again exactly when its description has no NUL
      in it. */
  method UnpackThenPack(raw: seq<Byte>) returns (same: bool)
    requires |raw| < WORD && IsRecord(raw)
    ensures same <==> exists v: Value :: Storable(v) && Record(v) == raw && 0 !in v.desc
  {
    hide Record, Head;
    var v := Unpack(raw);
    var w := v.value;
    var buf := new Byte[REC_MAX];
    var n := Pack(buf, w.kind, w.data, Some(w.desc));
    same := buf[..n] == raw;
    Repacks(raw, w);
  }

  lemma CStringWhole(s: seq<Byte>)
    ensures CString(s) == s <==> 0 !in s
  {
  }

  lemma Repacks(raw: seq<Byte>, w: Value)
    requires Storable(w) && Record(w) == raw
    ensures var c := Value(w.kind, w.data, CString(w.desc));
      && Storable(c)
      && (Record(c) == raw <==> 0 !in w.desc)
    ensures (exists v: Value :: Storable(v) && Record(v) == raw && 0 !in v.desc) <==> 0 !in w.desc
  {
    hide Record, Head;
    var c := Value(w.kind, w.data, CString(w.desc));
    CStringWhole(w.desc);
    if Record(c) == raw { RecordIsInjective(c, w); }
    forall v: Value | Storable(v) && Record(v) == raw ensures v == w { RecordIsInjective(v, w); }
  }
}
