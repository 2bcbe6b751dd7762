/**
 Message descriptors and the structs they describe, as data. A descriptor is a list of fields;
 a struct has one slot per field and, per oneof union, the tag of the active member.
 */
module PbMessage {
  import opened Common

  datatype LType =
    | LBool | LVarint | LUVarint | LSVarint | LFixed32 | LFixed64
    | LBytes | LString | LFixedBytes
    | LSubmessage(sub: MsgDesc)

  /** Optional fields have a has-flag in the struct; Singular ones are the flagless fields of proto3. */
  datatype HType = Required | Optional | Singular | Repeated | FixArray | Oneof(union: nat)

  /** Where a field's data and its count or flag lie in the C struct, and the packed width of its entry in words. */
  datatype Layout = Layout(width: nat, dataOffset: nat, sizeOffset: nat)

  datatype Field = Field(tag: nat, ltype: LType, htype: HType, dataSize: nat, arraySize: nat, layout: Layout)

  datatype MsgDesc = MsgDesc(fields: seq<Field>, unions: nat)

  /** What a field's memory holds: a number, counted bytes, a character buffer, or a nested struct. */
  datatype Value = VInt(n: int) | VBytes(b: seq<byte>) | VStr(buf: seq<byte>) | VMsg(m: Msg)

  datatype Slot = One(v: Value) | Opt(has: bool, v: Value) | Rep(count: nat, items: seq<Value>) | Fix(items: seq<Value>)

  datatype Msg = Msg(slots: seq<Slot>, which: seq<nat>)

  predicate Packable(l: LType) {
    !l.LBytes? && !l.LString? && !l.LFixedBytes? && !l.LSubmessage?
  }

  predicate IsArray(h: HType) {
    h.Repeated? || h.FixArray?
  }

  /** The number of values a dataSize-byte integer can take. */
  function Modulus(dataSize: nat): (p: nat)
    ensures p % 2 == 0 && 0x100 <= p <= TWO64
  {
    match dataSize case 1 => 0x100 case 2 => 0x1_0000 case 4 => 0x1_0000_0000 case _ => TWO64
  }

  // ----- what the generator promises about a descriptor -----

  ghost predicate WellFormed(d: MsgDesc) {
    && |d.fields| < 0xFFFF
    && (forall i, j :: 0 <= i < j < |d.fields| ==> d.fields[i].tag < d.fields[j].tag)
    && (forall i :: 0 <= i < |d.fields| ==> FieldOk(d.fields[i], d.unions))
  }

  ghost predicate FieldOk(f: Field, unions: nat) {
    && 0 < f.tag && 0 < f.arraySize && Fits(f)
    && (f.htype.Oneof? ==> f.htype.union < unions)
    && SizeOk(f)
    && (f.ltype.LSubmessage? ==> WellFormed(f.ltype.sub))
  }

  /** The PB_FITS assertions for the chosen width; tags, sizes and counts are 16-bit. */
  predicate Fits(f: Field) {
    && f.tag < 0x1_0000 && f.dataSize < 0x1_0000 && f.arraySize < 0x1_0000 && f.layout.dataOffset < 0x1_0000
    && match f.layout.width
       case 1 => f.tag < 0x40 && f.layout.dataOffset < 0x100 && f.layout.sizeOffset < 0x10 && f.dataSize < 0x10 && f.arraySize < 2
       case 2 => f.tag < 0x400 && f.layout.sizeOffset < 0x10 && f.dataSize < 0x1000 && f.arraySize < 0x1000
       case 4 => f.layout.sizeOffset < 0x80
       case 8 => f.layout.sizeOffset < 0x80
       case _ => false
  }

  predicate SizeOk(f: Field) {
    match f.ltype
    case LBool => f.dataSize == 1
    case LVarint => f.dataSize in {1, 2, 4, 8}
    case LUVarint => f.dataSize in {1, 2, 4, 8}
    case LSVarint => f.dataSize in {1, 2, 4, 8}
    case LFixed32 => f.dataSize == 4
    case LFixed64 => f.dataSize == 8
    case LBytes => 2 <= f.dataSize
    case LString => 1 <= f.dataSize
    case LFixedBytes => true
    case LSubmessage(_) => true
  }

  // ----- structs that have the shape the descriptor says -----

  ghost predicate Typed(d: MsgDesc, m: Msg) {
    && |m.slots| == |d.fields| && |m.which| == d.unions
    && (forall i :: 0 <= i < |d.fields| ==> TypedSlot(d.fields[i], m.slots[i]))
  }

  ghost predicate TypedSlot(f: Field, s: Slot) {
    match f.htype
    case Optional => s.Opt? && TypedValue(f, s.v)
    case Repeated => s.Rep? && s.count < 0x1_0000 && |s.items| == f.arraySize && forall i :: 0 <= i < |s.items| ==> TypedValue(f, s.items[i])
    case FixArray => s.Fix? && |s.items| == f.arraySize && forall i :: 0 <= i < |s.items| ==> TypedValue(f, s.items[i])
    case _ => s.One? && TypedValue(f, s.v)
  }

  ghost predicate TypedValue(f: Field, v: Value) {
    match f.ltype
    case LBool => v.VInt? && 0 <= v.n <= 1
    case LVarint => v.VInt? && -(Modulus(f.dataSize) / 2) <= v.n < Modulus(f.dataSize) / 2
    case LUVarint => v.VInt? && 0 <= v.n < Modulus(f.dataSize)
    case LSVarint => v.VInt? && -(Modulus(f.dataSize) / 2) <= v.n < Modulus(f.dataSize) / 2
    case LFixed32 => v.VInt? && 0 <= v.n < TWO32
    case LFixed64 => v.VInt? && 0 <= v.n < TWO64
    case LBytes => v.VBytes? && |v.b| < 0x1_0000
    case LString => v.VStr? && |v.buf| == f.dataSize
    case LFixedBytes => v.VBytes? && |v.b| == f.dataSize
    case LSubmessage(sub) => v.VMsg? && Typed(sub, v.m)
  }

  // ----- the part of a struct that means something -----

  /** The characters before the first NUL; the buffer's length when there is none. */
  function StrLen(buf: seq<byte>): (n: nat)
    ensures n <= |buf|
    ensures forall i :: 0 <= i < n ==> buf[i] != 0
    ensures n < |buf| ==> buf[n] == 0
  {
    if buf == [] || buf[0] == 0 then 0 else 1 + StrLen(buf[1..])
  }

  /** Equal where it matters: array elements up to the count, strings up to NUL, the active oneof member. */
  ghost predicate Same(d: MsgDesc, a: Msg, b: Msg)
    requires Typed(d, a) && Typed(d, b) && WellFormed(d)
  {
    forall i :: 0 <= i < |d.fields| ==> SameSlot(d.fields[i], d.unions, a.slots[i], a.which, b.slots[i], b.which)
  }

  ghost predicate SameSlot(f: Field, unions: nat, s: Slot, whichS: seq<nat>, t: Slot, whichT: seq<nat>)
    requires FieldOk(f, unions) && TypedSlot(f, s) && TypedSlot(f, t) && |whichS| == |whichT| == unions
  {
    match f.htype
    case Optional => s.has == t.has && (s.has ==> SameValue(f, unions, s.v, t.v))
    case Repeated => s.count == t.count && forall i :: 0 <= i < s.count && i < |s.items| ==> SameValue(f, unions, s.items[i], t.items[i])
    case FixArray => forall i :: 0 <= i < |s.items| ==> SameValue(f, unions, s.items[i], t.items[i])
    case Oneof(u) =>
      && (whichS[u] == f.tag <==> whichT[u] == f.tag)
      && (whichS[u] == f.tag ==> SameValue(f, unions, s.v, t.v))
    case _ => SameValue(f, unions, s.v, t.v)
  }

  ghost predicate SameValue(f: Field, unions: nat, v: Value, w: Value)
    requires FieldOk(f, unions) && TypedValue(f, v) && TypedValue(f, w)
  {
    match f.ltype
    case LString => v.buf[..StrLen(v.buf)] == w.buf[..StrLen(w.buf)]
    case LSubmessage(sub) => Same(sub, v.m, w.m)
    case _ => v == w
  }

  // ----- default values -----

  function Zeros(n: nat): (bs: seq<byte>)
    ensures |bs| == n && forall i :: 0 <= i < n ==> bs[i] == 0
  {
    seq(n, _ => 0)
  }

  function ZeroValue(f: Field): Value
    decreases f, 0
  {
    match f.ltype
    case LBytes => VBytes([])
    case LString => VStr(Zeros(f.dataSize))
    case LFixedBytes => VBytes(Zeros(f.dataSize))
    case LSubmessage(sub) => VMsg(ZeroMsg(sub))
    case _ => VInt(0)
  }

  function ZeroSlot(f: Field): Slot
    decreases f, 1
  {
    match f.htype
    case Optional => Opt(false, ZeroValue(f))
    case Repeated => Rep(0, seq(f.arraySize, _ => ZeroValue(f)))
    case FixArray => Fix(seq(f.arraySize, _ => ZeroValue(f)))
    case _ => One(ZeroValue(f))
  }

  /** A struct cleared by memset. */
  function ZeroMsg(d: MsgDesc): Msg
    decreases d, 0
  {
    Msg(seq(|d.fields|, i requires 0 <= i < |d.fields| => ZeroSlot(d.fields[i])), seq(d.unions, _ => 0))
  }

  predicate HasSubmessage(d: MsgDesc) {
    exists i :: 0 <= i < |d.fields| && d.fields[i].ltype.LSubmessage?
  }

  predicate HasMember(d: MsgDesc, union: nat) {
    exists i :: 0 <= i < |d.fields| && d.fields[i].htype == Oneof(union)
  }

  /** pb_message_set_to_defaults: counts, has-flags and union tags are cleared; array and union contents stay. */
  function DefaultMsg(d: MsgDesc, m: Msg): Msg
    requires |m.slots| == |d.fields|
  {
    Msg(seq(|d.fields|, i requires 0 <= i < |d.fields| => DefaultSlot(d.fields[i], m.slots[i])), seq(|m.which|, u requires 0 <= u < |m.which| => if HasMember(d, u) then 0 else m.which[u]))
  }

  function DefaultSlot(f: Field, s: Slot): Slot {
    match f.htype
    case Optional => if s.Opt? then Opt(false, DefaultValue(f, s.v)) else s
    case Repeated => if s.Rep? then Rep(0, s.items) else s
    case FixArray => s
    case Oneof(_) => s
    case _ => if s.One? then One(DefaultValue(f, s.v)) else s
  }

  /** A nested struct is walked only when it has nested structs itself; otherwise it is cleared. */
  function DefaultValue(f: Field, v: Value): Value {
    if f.ltype.LSubmessage? && HasSubmessage(f.ltype.sub) && v.VMsg? && |v.m.slots| == |f.ltype.sub.fields|
    then VMsg(DefaultMsg(f.ltype.sub, v.m))
    else ZeroValue(f)
  }

  /** Every field reads as "not set yet". */
  ghost predicate Fresh(d: MsgDesc, m: Msg)
    requires Typed(d, m) && WellFormed(d)
  {
    forall i :: 0 <= i < |d.fields| ==> FreshSlot(d.fields[i], d.unions, m.slots[i], m.which)
  }

  ghost predicate FreshSlot(f: Field, unions: nat, s: Slot, which: seq<nat>)
    requires FieldOk(f, unions) && TypedSlot(f, s) && |which| == unions
  {
    match f.htype
    case Optional => !s.has && FreshValue(f, unions, s.v)
    case Repeated => s.count == 0
    case FixArray => true
    case Oneof(u) => which[u] != f.tag
    case _ => FreshValue(f, unions, s.v)
  }

  ghost predicate FreshValue(f: Field, unions: nat, v: Value)
    requires FieldOk(f, unions) && TypedValue(f, v)
  {
    match f.ltype
    case LBytes => v.b == []
    case LString => v.buf[0] == 0
    case LFixedBytes => v.b == Zeros(f.dataSize)
    case LSubmessage(sub) => Fresh(sub, v.m)
    case _ => v.n == 0
  }

  lemma {:induction false} ZeroFresh(d: MsgDesc)
    requires WellFormed(d)
    ensures Typed(d, ZeroMsg(d)) && Fresh(d, ZeroMsg(d))
  {
    var m := ZeroMsg(d);
    forall i | 0 <= i < |d.fields|
      ensures TypedSlot(d.fields[i], m.slots[i]) && FreshSlot(d.fields[i], d.unions, m.slots[i], m.which)
    {
      ZeroValueFresh(d.fields[i], d.unions);
    }
  }

  lemma {:induction false} ZeroValueFresh(f: Field, unions: nat)
    requires FieldOk(f, unions)
    ensures TypedValue(f, ZeroValue(f)) && FreshValue(f, unions, ZeroValue(f))
  {
    if f.ltype.LSubmessage? {
      ZeroFresh(f.ltype.sub);
    }
  }

  /** Whatever the struct held before, setting defaults makes every field read as not set. */
  lemma {:induction false} DefaultFresh(d: MsgDesc, m: Msg)
    requires WellFormed(d) && Typed(d, m)
    ensures Typed(d, DefaultMsg(d, m)) && Fresh(d, DefaultMsg(d, m))
    decreases d
  {
    var m' := DefaultMsg(d, m);
    forall i | 0 <= i < |d.fields|
      ensures TypedSlot(d.fields[i], m'.slots[i]) && FreshSlot(d.fields[i], d.unions, m'.slots[i], m'.which)
    {
      DefaultSlotFresh(d.fields[i], d.unions, m.slots[i], m'.which);
    }
  }

  lemma {:induction false} DefaultSlotFresh(f: Field, unions: nat, s: Slot, which: seq<nat>)
    requires FieldOk(f, unions) && TypedSlot(f, s) && |which| == unions
    requires match f.htype case Oneof(u) => which[u] == 0 case Required => true case Singular => true case Optional => true case Repeated => true case FixArray => true
    ensures TypedSlot(f, DefaultSlot(f, s)) && FreshSlot(f, unions, DefaultSlot(f, s), which)
    decreases f, 1
  {
    if s.One? || s.Opt? {
      DefaultValueFresh(f, unions, s.v);
    }
  }

  lemma {:induction false} DefaultValueFresh(f: Field, unions: nat, v: Value)
    requires FieldOk(f, unions) && TypedValue(f, v)
    ensures TypedValue(f, DefaultValue(f, v)) && FreshValue(f, unions, DefaultValue(f, v))
    decreases f, 0
  {
    ZeroValueFresh(f, unions);
    if f.ltype.LSubmessage? {
      DefaultFresh(f.ltype.sub, v.m);
    }
  }
}
