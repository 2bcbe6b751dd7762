/**
 The decoder as a function on bytes: what each field contributes to the struct, and when the
 whole message is refused. Every step keeps the struct in the shape the descriptor says,
 whatever the bytes are.
 */
module PbParse {
  import opened Common
  import opened PbVarint
  import opened PbWire
  import opened PbMessage

  predicate WireOk(l: LType, wireType: nat) {
    match l
    case LFixed32 => wireType == WT_32BIT || wireType == WT_PACKED
    case LFixed64 => wireType == WT_64BIT || wireType == WT_PACKED
    case LBytes => wireType == WT_STRING
    case LString => wireType == WT_STRING
    case LFixedBytes => wireType == WT_STRING
    case LSubmessage(_) => wireType == WT_STRING
    case _ => wireType == WT_VARINT || wireType == WT_PACKED
  }

  /** A signed result is refused when it does not survive the cast to the field's size. */
  function Narrow(n: int, dataSize: nat): Option<Value> {
    if -(Modulus(dataSize) / 2) <= n < Modulus(dataSize) / 2 then Some(VInt(n)) else None
  }

  function NumberOf(f: Field, u: nat): Option<Value>
    requires u < TWO64
  {
    if f.ltype.LUVarint? then (if u < Modulus(f.dataSize) then Some(VInt(u)) else None)
    else if f.ltype.LSVarint? then Narrow(UnZigZag(u), f.dataSize)
    else Narrow(if f.dataSize == 8 then Signed(u, TWO64) else Signed(u % TWO32, TWO32), f.dataSize)
  }

  function ParseNumber(f: Field, s: seq<byte>): (r: Option<(Value, seq<byte>)>)
    requires Packable(f.ltype) && SizeOk(f)
    ensures r.Some? ==> TypedValue(f, r.value.0) && |r.value.1| < |s|
  {
    if f.ltype.LBool? then
      var r := Decode32(s);
      if r.None? then None else Some((VInt(if r.value.0 != 0 then 1 else 0), r.value.1))
    else if f.ltype.LFixed32? then (if |s| < 4 then None else Fixed(s, 4))
    else if f.ltype.LFixed64? then (if |s| < 8 then None else Fixed(s, 8))
    else
      var r := Decode64(s);
      if r.None? then None
      else
        Decode64Fits(s);
        var v := NumberOf(f, r.value.0);
        if v.None? then None else Some((v.value, r.value.1))
  }

  function Fixed(s: seq<byte>, count: nat): (r: Option<(Value, seq<byte>)>)
    requires count <= |s| && count in {4, 8}
    ensures r.Some? && r.value.0.VInt? && 0 <= r.value.0.n < (if count == 4 then TWO32 else TWO64)
    ensures r.value.1 == s[count..]
  {
    FromLittleEndianBound(s[..count]);
    SpanValues();
    Some((VInt(FromLittleEndian(s[..count])), s[count..]))
  }

  lemma SpanValues()
    ensures Span(4) == TWO32 && Span(8) == TWO64
  {
    assert Span(2) == 0x1_0000;
    assert Span(4) == 0x1_0000 * Span(2) by { assert Span(3) == 256 * Span(2); }
    assert Span(6) == 0x1_0000 * Span(4) by { assert Span(5) == 256 * Span(4); }
    assert Span(8) == 0x1_0000 * Span(6) by { assert Span(7) == 256 * Span(6); }
  }

  /** The value of one field; before is what the memory held, which strings and nested structs build on. */
  function ParseValue(f: Field, unions: nat, wireType: nat, s: seq<byte>, before: Value): (r: Option<(Value, seq<byte>)>)
    requires FieldOk(f, unions) && TypedValue(f, before)
    ensures r.Some? ==> TypedValue(f, r.value.0) && |r.value.1| < |s|
    decreases f, 1
  {
    if !WireOk(f.ltype, wireType) then None
    else if Packable(f.ltype) then ParseNumber(f, s)
    else
      var size := Decode32(s);
      if size.None? then None else ParseSized(f, unions, size.value.0, size.value.1, before)
  }

  /** A value behind its length n. */
  function ParseSized(f: Field, unions: nat, n: nat, rest: seq<byte>, before: Value): (r: Option<(Value, seq<byte>)>)
    requires FieldOk(f, unions) && TypedValue(f, before) && !Packable(f.ltype)
    ensures r.Some? ==> TypedValue(f, r.value.0) && |r.value.1| <= |rest|
    decreases f, 0
  {
    if f.ltype.LBytes? then
      if n > 0xFFFF || n + 2 > f.dataSize || |rest| < n then None
      else Some((VBytes(rest[..n]), rest[n..]))
    else if f.ltype.LString? then
      if n == TWO32 - 1 || n + 1 > f.dataSize || |rest| < n then None
      else Some((VStr(rest[..n] + [0] + before.buf[n + 1..]), rest[n..]))
    else if f.ltype.LFixedBytes? then
      if n > 0xFFFF then None
      else if n == 0 then Some((VBytes(Zeros(f.dataSize)), rest))
      else if n != f.dataSize || |rest| < n then None
      else Some((VBytes(rest[..n]), rest[n..]))
    else
      if |rest| < n then None
      else
        var m := ParseMsg(f.ltype.sub, rest[..n], before.m, IsArray(f.htype));
        if m.None? then None else Some((VMsg(m.value), rest[n..]))
  }

  /** The elements of a packed array, stored from position size on. */
  function ParsePacked(f: Field, s: seq<byte>, items: seq<Value>, size: nat): (r: Option<(seq<Value>, nat)>)
    requires Packable(f.ltype) && SizeOk(f) && forall i :: 0 <= i < |items| ==> TypedValue(f, items[i])
    ensures r.Some? ==> |r.value.0| == |items| && (forall i :: 0 <= i < |items| ==> TypedValue(f, r.value.0[i]))
    ensures r.Some? ==> size <= r.value.1 && (r.value.1 == size || r.value.1 <= |items|)
    decreases |s|
  {
    if s == [] then Some((items, size))
    else if size >= |items| then None
    else
      var r := ParseNumber(f, s);
      if r.None? then None else ParsePacked(f, r.value.1, items[size := r.value.0], size + 1)
  }

  datatype SlotResult = SlotResult(slot: Slot, which: seq<nat>, fixedSize: nat, rest: seq<byte>)

  /** What a union member is before its first bytes arrive. */
  function UnionValue(f: Field): Value
    requires f.ltype.LSubmessage?
  {
    VMsg(if HasSubmessage(f.ltype.sub) then DefaultMsg(f.ltype.sub, ZeroMsg(f.ltype.sub)) else ZeroMsg(f.ltype.sub))
  }

  lemma UnionValueTyped(f: Field, unions: nat)
    requires FieldOk(f, unions)
    ensures f.ltype.LSubmessage? ==> TypedValue(f, UnionValue(f)) && FreshValue(f, unions, UnionValue(f))
  {
    if f.ltype.LSubmessage? {
      ZeroFresh(f.ltype.sub);
      DefaultFresh(f.ltype.sub, ZeroMsg(f.ltype.sub));
    }
  }

  /** Where an array goes on: its own count, or the running count of a fixed-count array. */
  function ArraySize(s: Slot, fixedSize: nat): nat {
    if s.Rep? then s.count else fixedSize
  }

  function WithArray(s: Slot, which: seq<nat>, items: seq<Value>, size: nat, fixedSize: nat, rest: seq<byte>): SlotResult {
    if s.Rep? then SlotResult(Rep(size, items), which, fixedSize, rest)
    else SlotResult(Fix(items), which, size, rest)
  }

  /** decode_static_field. */
  function ParseSlot(f: Field, unions: nat, wireType: nat, s: seq<byte>, slot: Slot, which: seq<nat>, fixedSize: nat): (r: Option<SlotResult>)
    requires FieldOk(f, unions) && TypedSlot(f, slot) && |which| == unions
    ensures r.Some? ==> TypedSlot(f, r.value.slot) && |r.value.which| == unions && |r.value.rest| < |s|
    decreases f, 3
  {
    match f.htype
    case Optional =>
      var r := ParseValue(f, unions, wireType, s, slot.v);
      if r.None? then None else Some(SlotResult(Opt(true, r.value.0), which, fixedSize, r.value.1))
    case Oneof(u) =>
      var unset := f.ltype.LSubmessage? && which[u] != f.tag;
      UnionValueTyped(f, unions);
      var r := ParseValue(f, unions, wireType, s, if unset then UnionValue(f) else slot.v);
      if r.None? then None else Some(SlotResult(One(r.value.0), which[u := f.tag], fixedSize, r.value.1))
    case Repeated => ParseElement(f, unions, wireType, s, slot, which, fixedSize)
    case FixArray => ParseElement(f, unions, wireType, s, slot, which, fixedSize)
    case _ =>
      var r := ParseValue(f, unions, wireType, s, slot.v);
      if r.None? then None else Some(SlotResult(One(r.value.0), which, fixedSize, r.value.1))
  }

  function ParseElement(f: Field, unions: nat, wireType: nat, s: seq<byte>, slot: Slot, which: seq<nat>, fixedSize: nat): (r: Option<SlotResult>)
    requires FieldOk(f, unions) && IsArray(f.htype) && TypedSlot(f, slot) && |which| == unions
    ensures r.Some? ==> TypedSlot(f, r.value.slot) && |r.value.which| == unions && |r.value.rest| < |s|
    decreases f, 2
  {
    var size := ArraySize(slot, fixedSize);
    if wireType == WT_STRING && Packable(f.ltype) then
      var d := Delimited(s);
      if d.None? then None
      else
        var r := ParsePacked(f, d.value.0, slot.items, size);
        if r.None? then None else Some(WithArray(slot, which, r.value.0, r.value.1, fixedSize, d.value.1))
    else if size >= f.arraySize then None
    else
      var r := ParseValue(f, unions, wireType, s, slot.items[size]);
      if r.None? then None
      else Some(WithArray(slot, which, slot.items[size := r.value.0], size + 1, fixedSize, r.value.1))
  }

  // ----- whole messages -----

  const NO_FIELD := 0xFFFF
  const MAX_REQUIRED := 64

  /** The struct so far, the fixed-count array being filled, and the required fields seen. */
  datatype Progress = Progress(m: Msg, fixedField: nat, fixedSize: nat, fixedTotal: nat, seen: set<nat>)

  /** The position of the field with this tag, or the number of fields. */
  function Find(fields: seq<Field>, tag: nat): (i: nat)
    ensures i <= |fields|
    ensures i < |fields| ==> fields[i].tag == tag
    ensures forall j :: 0 <= j < i ==> fields[j].tag != tag
  {
    if fields == [] || fields[0].tag == tag then 0 else 1 + Find(fields[1..], tag)
  }

  /** How many of the first i fields are required. */
  function RequiredBefore(fields: seq<Field>, i: nat): (n: nat)
    requires i <= |fields|
    ensures n <= i
  {
    if i == 0 then 0 else RequiredBefore(fields, i - 1) + if fields[i - 1].htype.Required? then 1 else 0
  }

  /** The bookkeeping before a known field is decoded; None when a fixed-count array was left incomplete. */
  function Track(d: MsgDesc, i: nat, p: Progress): (r: Option<Progress>)
    requires i < |d.fields|
    ensures r.Some? ==> r.value.m == p.m
  {
    var f := d.fields[i];
    if f.htype.FixArray? && p.fixedField != i then
      if p.fixedField != NO_FIELD && p.fixedSize != p.fixedTotal then None
      else Some(p.(fixedField := i, fixedSize := 0, fixedTotal := f.arraySize))
    else if f.htype.Required? && RequiredBefore(d.fields, i) < MAX_REQUIRED then
      Some(p.(seen := p.seen + {RequiredBefore(d.fields, i)}))
    else Some(p)
  }

  /** The value of field i: bookkeeping, then the slot. */
  function ParseKnown(d: MsgDesc, i: nat, wireType: nat, s: seq<byte>, p: Progress): (r: Option<(Progress, seq<byte>)>)
    requires WellFormed(d) && Typed(d, p.m) && i < |d.fields|
    ensures r.Some? ==> Typed(d, r.value.0.m) && |r.value.1| < |s|
    decreases d, 0
  {
    var q := Track(d, i, p);
    if q.None? then None
    else
      var r := ParseSlot(d.fields[i], d.unions, wireType, s, p.m.slots[i], p.m.which, q.value.fixedSize);
      if r.None? then None else Some((Store(q.value, i, r.value), r.value.rest))
  }

  /** What follows a key: the value of a known field, or something to skip. */
  function ParseTagged(d: MsgDesc, tag: nat, wireType: nat, s: seq<byte>, p: Progress): (r: Option<(Progress, seq<byte>)>)
    requires WellFormed(d) && Typed(d, p.m)
    ensures r.Some? ==> Typed(d, r.value.0.m) && |r.value.1| <= |s|
    decreases d, 1
  {
    var i := Find(d.fields, tag);
    if i == |d.fields| then
      var rest := AfterField(wireType, s);
      if rest.None? then None else Some((p, rest.value))
    else ParseKnown(d, i, wireType, s, p)
  }

  /** One record: its key and its value. */
  function ParseRecord(d: MsgDesc, s: seq<byte>, p: Progress): (r: Option<(Progress, seq<byte>)>)
    requires WellFormed(d) && Typed(d, p.m)
    ensures r.Some? ==> Typed(d, r.value.0.m) && |r.value.1| < |s|
    decreases d, 2
  {
    var key := Decode32(s);
    if key.None? || key.value.0 / 8 == 0 then None
    else ParseTagged(d, key.value.0 / 8, key.value.0 % 8, key.value.1, p)
  }

  function Store(p: Progress, i: nat, r: SlotResult): Progress
    requires i < |p.m.slots|
  {
    p.(m := Msg(p.m.slots[i := r.slot], r.which), fixedSize := r.fixedSize)
  }

  function ParseFields(d: MsgDesc, s: seq<byte>, p: Progress): (r: Option<Progress>)
    requires WellFormed(d) && Typed(d, p.m)
    ensures r.Some? ==> Typed(d, r.value.m)
    decreases d, 3, |s|
  {
    if s == [] then Some(p)
    else
      var r := ParseRecord(d, s, p);
      if r.None? then None else ParseFields(d, r.value.1, r.value.0)
  }

  function Min(a: nat, b: nat): nat {
    if a <= b then a else b
  }

  /** The last fixed-count array is complete and every tracked required field was there. */
  predicate Complete(d: MsgDesc, p: Progress) {
    && (p.fixedField == NO_FIELD || p.fixedSize == p.fixedTotal)
    && forall k :: 0 <= k < Min(RequiredBefore(d.fields, |d.fields|), MAX_REQUIRED) ==> k in p.seen
  }

  /** Where decoding begins: the destination as it is, or set to defaults first. */
  function Start(d: MsgDesc, m: Msg, init: bool): (p: Progress)
    requires WellFormed(d) && Typed(d, m)
    ensures Typed(d, p.m)
  {
    DefaultFresh(d, m);
    Progress(if init then DefaultMsg(d, m) else m, NO_FIELD, 0, 0, {})
  }

  /** pb_decode_inner, with or without setting defaults first. */
  function ParseMsg(d: MsgDesc, s: seq<byte>, m: Msg, init: bool): (r: Option<Msg>)
    requires WellFormed(d) && Typed(d, m)
    ensures r.Some? ==> Typed(d, r.value)
    decreases d, 4
  {
    var p := ParseFields(d, s, Start(d, m, init));
    if p.None? || !Complete(d, p.value) then None else Some(p.value.m)
  }
}
