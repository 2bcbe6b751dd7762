/**
 The encoder: the bytes a struct stands for, and the methods that write them to a stream.
 The same methods run twice for every nested message, first on a counting stream.
 */
module PbEncode {
  import opened Common
  import opened PbVarint
  import opened PbStream
  import opened PbWire
  import opened PbMessage

  // ----- the encoding as a function (None: the encoder reports an error) -----

  function WireType(l: LType): (w: nat)
    ensures w < 8
  {
    match l
    case LFixed32 => WT_32BIT
    case LFixed64 => WT_64BIT
    case LBytes => WT_STRING
    case LString => WT_STRING
    case LFixedBytes => WT_STRING
    case LSubmessage(_) => WT_STRING
    case _ => WT_VARINT
  }

  function EncodeScalar(f: Field, v: Value): seq<byte>
    requires Packable(f.ltype) && SizeOk(f) && TypedValue(f, v)
  {
    if f.ltype.LBool? then Varint(if v.n != 0 then 1 else 0)
    else if f.ltype.LUVarint? then Varint(v.n)
    else if f.ltype.LSVarint? then Varint(ZigZag(v.n))
    else if f.ltype.LFixed32? then LittleEndian(v.n, 4)
    else if f.ltype.LFixed64? then LittleEndian(v.n, 8)
    else Varint(Unsigned64(v.n))
  }

  /** A payload behind its length, as far as a 64-bit size_t can count. */
  function WithLength(payload: seq<byte>): Option<seq<byte>> {
    if |payload| < TWO64 then Some(Varint(|payload|) + payload) else None
  }

  function EncodeValue(f: Field, unions: nat, v: Value): Option<seq<byte>>
    requires FieldOk(f, unions) && TypedValue(f, v)
    decreases f, 0
  {
    match f.ltype
    case LBytes => if |v.b| > f.dataSize - 2 then None else WithLength(v.b)
    case LString => if StrLen(v.buf) == |v.buf| then None else WithLength(v.buf[..StrLen(v.buf)])
    case LFixedBytes => WithLength(v.b)
    case LSubmessage(sub) =>
      var payload := EncodeFrom(sub, v.m, 0);
      if payload.None? then None else WithLength(payload.value)
    case _ => Some(EncodeScalar(f, v))
  }

  function EncodeRecord(f: Field, unions: nat, v: Value): Option<seq<byte>>
    requires FieldOk(f, unions) && TypedValue(f, v)
    decreases f, 1
  {
    Concat(Some(Varint(Key(WireType(f.ltype), f.tag))), EncodeValue(f, unions, v))
  }

  function EncodePacked(f: Field, items: seq<Value>): seq<byte>
    requires Packable(f.ltype) && SizeOk(f) && forall i :: 0 <= i < |items| ==> TypedValue(f, items[i])
  {
    if items == [] then [] else EncodeScalar(f, items[0]) + EncodePacked(f, items[1..])
  }

  function EncodeItems(f: Field, unions: nat, items: seq<Value>): Option<seq<byte>>
    requires FieldOk(f, unions) && forall i :: 0 <= i < |items| ==> TypedValue(f, items[i])
    decreases f, 2, |items|
  {
    if items == [] then Some([])
    else Concat(EncodeRecord(f, unions, items[0]), EncodeItems(f, unions, items[1..]))
  }

  /** The element count; a fixed-count array has all its elements. */
  function Count(f: Field, s: Slot): nat
    requires s.Rep? || s.Fix?
  {
    if s.Rep? then s.count else f.arraySize
  }

  function EncodeArray(f: Field, unions: nat, s: Slot): Option<seq<byte>>
    requires FieldOk(f, unions) && IsArray(f.htype) && TypedSlot(f, s)
    decreases f, 3
  {
    if Count(f, s) == 0 then Some([])
    else if Count(f, s) > f.arraySize then None
    else if Packable(f.ltype) then
      Concat(Some(Varint(Key(WT_STRING, f.tag))), WithLength(EncodePacked(f, s.items[..Count(f, s)])))
    else EncodeItems(f, unions, s.items[..Count(f, s)])
  }

  /** pb_check_proto3_default_value. */
  predicate IsDefault(f: Field, unions: nat, s: Slot, which: seq<nat>)
    requires FieldOk(f, unions) && TypedSlot(f, s) && |which| == unions
    decreases f, 1
  {
    match f.htype
    case Required => false
    case Repeated => s.count == 0
    case FixArray => f.arraySize == 0
    case Oneof(u) => which[u] == 0
    case Optional => !s.has
    case Singular => IsDefaultValue(f, unions, s.v)
  }

  predicate IsDefaultValue(f: Field, unions: nat, v: Value)
    requires FieldOk(f, unions) && TypedValue(f, v)
    decreases f, 0
  {
    match f.ltype
    case LBytes => v.b == []
    case LString => v.buf[0] == 0
    case LFixedBytes => f.dataSize == 0
    case LSubmessage(sub) => IsDefaultFrom(sub, v.m, 0)
    case _ => v.n == 0
  }

  predicate IsDefaultFrom(d: MsgDesc, m: Msg, i: nat)
    requires WellFormed(d) && Typed(d, m) && i <= |d.fields|
    decreases d, |d.fields| - i
  {
    i == |d.fields| || (IsDefault(d.fields[i], d.unions, m.slots[i], m.which) && IsDefaultFrom(d, m, i + 1))
  }

  function EncodeField(f: Field, unions: nat, s: Slot, which: seq<nat>): Option<seq<byte>>
    requires FieldOk(f, unions) && TypedSlot(f, s) && |which| == unions
    decreases f, 4
  {
    match f.htype
    case Required => EncodeRecord(f, unions, s.v)
    case Optional => if s.has then EncodeRecord(f, unions, s.v) else Some([])
    case Singular => if IsDefault(f, unions, s, which) then Some([]) else EncodeRecord(f, unions, s.v)
    case Oneof(u) => if which[u] == f.tag then EncodeRecord(f, unions, s.v) else Some([])
    case _ => EncodeArray(f, unions, s)
  }

  function EncodeFrom(d: MsgDesc, m: Msg, i: nat): Option<seq<byte>>
    requires WellFormed(d) && Typed(d, m) && i <= |d.fields|
    decreases d, |d.fields| - i
  {
    if i == |d.fields| then Some([])
    else Concat(EncodeField(d.fields[i], d.unions, m.slots[i], m.which), EncodeFrom(d, m, i + 1))
  }

  /** All bytes of a message. */
  function Encode(d: MsgDesc, m: Msg): Option<seq<byte>>
    requires WellFormed(d) && Typed(d, m)
  {
    EncodeFrom(d, m, 0)
  }
}
