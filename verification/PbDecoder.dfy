/**
 The decoder's methods, each proved against its function in PbParse. Reading never leaves the
 stream's window, and on success position plus bytes left is conserved.
 */
module PbDecoder {
  import opened Common
  import opened PbVarint
  import opened PbStream
  import opened PbWire
  import opened PbMessage
  import opened PbParse
  import opened PbIter

  /** pb_dec_bool, pb_dec_varint, pb_decode_fixed32/64. */
  method DecodeNumber(stream: IStream, f: Field) returns (ok: bool, v: Value)
    requires stream.Valid() && Packable(f.ltype) && SizeOk(f)
    modifies stream
    ensures stream.Parsed(ok, v, ParseNumber(f, old(stream.Rest())))
  {
    v := VInt(0);
    if f.ltype.LBool? {
      var n: nat;
      ok, n := DecodeVarint32(stream);
      v := VInt(if n != 0 then 1 else 0);
    } else if f.ltype.LFixed32? || f.ltype.LFixed64? {
      var data: seq<byte>;
      ok, data := stream.Read(if f.ltype.LFixed32? then 4 else 8);
      if ok {
        v := VInt(FromLittleEndian(data));
      }
    } else {
      var n: nat;
      ghost var s := stream.Rest();
      ok, n := DecodeVarint(stream);
      if ok {
        Decode64Fits(s);
        var r := NumberOf(f, n);
        ok, v := r.Some?, if r.Some? then r.value else v;
      }
    }
  }

  /** pb_dec_bytes. */
  method DecodeBytes(stream: IStream, f: Field, unions: nat, before: Value) returns (ok: bool, v: Value)
    requires stream.Valid() && FieldOk(f, unions) && TypedValue(f, before) && f.ltype.LBytes?
    modifies stream
    ensures stream.Parsed(ok, v, ParseValue(f, unions, WT_STRING, old(stream.Rest()), before))
  {
    v := before;
    var size: nat;
    ok, size := DecodeVarint32(stream);
    if !ok || size > 0xFFFF || size + 2 > f.dataSize {
      return false, before;
    }
    var data;
    ok, data := stream.Read(size);
    if ok {
      v := VBytes(data);
    }
  }

  /** pb_dec_string: the terminator goes in before the characters are read. */
  method DecodeText(stream: IStream, f: Field, unions: nat, before: Value) returns (ok: bool, v: Value)
    requires stream.Valid() && FieldOk(f, unions) && TypedValue(f, before) && f.ltype.LString?
    modifies stream
    ensures stream.Parsed(ok, v, ParseValue(f, unions, WT_STRING, old(stream.Rest()), before))
  {
    v := before;
    var size: nat;
    ok, size := DecodeVarint32(stream);
    if !ok || size == TWO32 - 1 || size + 1 > f.dataSize {
      return false, before;
    }
    var dest := before.buf[size := 0];
    var data;
    ok, data := stream.Read(size);
    if ok {
      v := VStr(data + dest[size..]);
      assert data + dest[size..] == data + [0] + before.buf[size + 1..];
    }
  }

  /** pb_dec_fixed_length_bytes. */
  method DecodeFixedBytes(stream: IStream, f: Field, unions: nat, before: Value) returns (ok: bool, v: Value)
    requires stream.Valid() && FieldOk(f, unions) && TypedValue(f, before) && f.ltype.LFixedBytes?
    modifies stream
    ensures stream.Parsed(ok, v, ParseValue(f, unions, WT_STRING, old(stream.Rest()), before))
  {
    v := before;
    var size: nat;
    ok, size := DecodeVarint32(stream);
    if !ok || size > 0xFFFF {
      return false, before;
    }
    if size == 0 {
      return true, VBytes(Zeros(f.dataSize));
    }
    if size != f.dataSize {
      return false, before;
    }
    var data;
    ok, data := stream.Read(f.dataSize);
    if ok {
      v := VBytes(data);
    }
  }

  /** pb_dec_submessage: the nested message may not take more than its own bytes. */
  method DecodeSubmessage(stream: IStream, f: Field, unions: nat, before: Value) returns (ok: bool, v: Value)
    requires stream.Valid() && FieldOk(f, unions) && TypedValue(f, before) && f.ltype.LSubmessage?
    modifies stream
    ensures stream.Parsed(ok, v, ParseValue(f, unions, WT_STRING, old(stream.Rest()), before))
    decreases f, 0
  {
    v := before;
    var sub: IStream;
    ok, sub := MakeSubstream(stream);
    if !ok {
      return;
    }
    var status, m := DecodeInner(sub, f.ltype.sub, before.m, IsArray(f.htype));
    ok := CloseSubstream(stream, sub);
    if status {
      v := VMsg(m);
    }
    ok := ok && status;
  }

  /** decode_basic_field. */
  method DecodeBasicField(stream: IStream, f: Field, unions: nat, wireType: nat, before: Value) returns (ok: bool, v: Value)
    requires stream.Valid() && FieldOk(f, unions) && TypedValue(f, before)
    modifies stream
    ensures stream.Parsed(ok, v, ParseValue(f, unions, wireType, old(stream.Rest()), before))
    decreases f, 1
  {
    if !WireOk(f.ltype, wireType) {
      return false, before;
    }
    match f.ltype
    case LBytes => ok, v := DecodeBytes(stream, f, unions, before);
    case LString => ok, v := DecodeText(stream, f, unions, before);
    case LFixedBytes => ok, v := DecodeFixedBytes(stream, f, unions, before);
    case LSubmessage(_) => ok, v := DecodeSubmessage(stream, f, unions, before);
    case _ => ok, v := DecodeNumber(stream, f);
  }

  /** The packed half of the repeated case: elements up to the end of the payload or of the array. */
  method DecodePackedArray(stream: IStream, f: Field, items0: seq<Value>, size0: nat) returns (ok: bool, items: seq<Value>, size: nat)
    requires stream.Valid() && Packable(f.ltype) && SizeOk(f) && forall i :: 0 <= i < |items0| ==> TypedValue(f, items0[i])
    modifies stream
    ensures stream.Within() && (ok ==> stream.Advanced())
    ensures var d := Delimited(old(stream.Rest()));
            ok == (d.Some? && ParsePacked(f, d.value.0, items0, size0).Some?)
    ensures ok ==> var d := Delimited(old(stream.Rest()));
                   stream.Rest() == d.value.1 && (items, size) == ParsePacked(f, d.value.0, items0, size0).value
  {
    items, size := items0, size0;
    ghost var d := Delimited(stream.Rest());
    var sub: IStream;
    ok, sub := MakeSubstream(stream);
    if !ok {
      return;
    }
    ghost var all := ParsePacked(f, sub.Rest(), items, size);
    ghost var edge := sub.state + sub.bytesLeft;
    assert stream.Within();
    var status := true;
    while sub.bytesLeft > 0 && size < |items|
      invariant sub.Valid() && sub.state + sub.bytesLeft == edge
      invariant Open(stream, sub) && Behind(stream, sub) == d.value.1 && Edge(stream, sub) == old(stream.state + stream.bytesLeft)
      invariant forall i :: 0 <= i < |items| ==> TypedValue(f, items[i])
      invariant all == ParsePacked(f, sub.Rest(), items, size)
      invariant status
      modifies sub
      decreases sub.bytesLeft
    {
      var v: Value;
      status, v := DecodeNumber(sub, f);
      if !status {
        break;
      }
      items := items[size := v];
      size := size + 1;
    }
    if sub.bytesLeft != 0 {
      return false, items, size;
    }
    ok := CloseSubstream(stream, sub);
    ok := ok && status;
  }

  /** The repeated case of decode_static_field. */
  method DecodeElement(stream: IStream, f: Field, unions: nat, wireType: nat, slot: Slot, which: seq<nat>, fixedSize: nat)
    returns (ok: bool, r: SlotResult)
    requires stream.Valid() && FieldOk(f, unions) && IsArray(f.htype) && TypedSlot(f, slot) && |which| == unions
    modifies stream
    ensures stream.Within() && (ok ==> stream.Advanced())
    ensures ok == ParseElement(f, unions, wireType, old(stream.Rest()), slot, which, fixedSize).Some?
    ensures ok ==> var p := ParseElement(f, unions, wireType, old(stream.Rest()), slot, which, fixedSize).value; r == p.(rest := []) && stream.Rest() == p.rest
    decreases f, 2
  {
    r := SlotResult(slot, which, fixedSize, []);
    var size := ArraySize(slot, fixedSize);
    if wireType == WT_STRING && Packable(f.ltype) {
      var items: seq<Value>;
      ok, items, size := DecodePackedArray(stream, f, slot.items, size);
      r := WithArray(slot, which, items, size, fixedSize, []);
    } else if size >= f.arraySize {
      ok := false;
    } else {
      var v: Value;
      ok, v := DecodeBasicField(stream, f, unions, wireType, slot.items[size]);
      r := WithArray(slot, which, slot.items[size := v], size + 1, fixedSize, []);
    }
  }

  /** decode_static_field. */
  method DecodeStaticField(stream: IStream, f: Field, unions: nat, wireType: nat, slot: Slot, which: seq<nat>, fixedSize: nat)
    returns (ok: bool, r: SlotResult)
    requires stream.Valid() && FieldOk(f, unions) && TypedSlot(f, slot) && |which| == unions
    modifies stream
    ensures stream.Within() && (ok ==> stream.Advanced())
    ensures ok == ParseSlot(f, unions, wireType, old(stream.Rest()), slot, which, fixedSize).Some?
    ensures ok ==> var p := ParseSlot(f, unions, wireType, old(stream.Rest()), slot, which, fixedSize).value; r == p.(rest := []) && stream.Rest() == p.rest
    decreases f, 3
  {
    if IsArray(f.htype) {
      ok, r := DecodeElement(stream, f, unions, wireType, slot, which, fixedSize);
      return;
    }
    var before := slot.v;
    var which' := which;
    UnionValueTyped(f, unions);
    if f.htype.Oneof? {
      if f.ltype.LSubmessage? && which[f.htype.union] != f.tag {
        before := UnionValue(f);
      }
      which' := which[f.htype.union := f.tag];
    }
    var v: Value;
    ok, v := DecodeBasicField(stream, f, unions, wireType, before);
    r := SlotResult(if f.htype.Optional? then Opt(true, v) else One(v), which', fixedSize, []);
  }

  /** pb_message_set_to_defaults, field by field and into nested messages that have some of their own. */
  method SetDefaults(d: MsgDesc, m: Msg) returns (m': Msg)
    requires WellFormed(d) && Typed(d, m)
    ensures m' == DefaultMsg(d, m)
    decreases d, 1
  {
    m' := m;
    if |d.fields| == 0 {
      assert m' == DefaultMsg(d, m);
      return;
    }
    var iter := new FieldIter(d);
    ghost var done := 0;
    while true
      invariant iter.Standing() && iter.d == d && fresh(iter)
      invariant iter.index == done < |d.fields|
      invariant PartlyDefault(d, m, done, m')
      decreases |d.fields| - done
    {
      m' := SetFieldDefault(d, m, iter.index, m');
      var more := iter.Next();
      if !more {
        break;
      }
      done := done + 1;
    }
    assert m' == DefaultMsg(d, m);
  }

  /** pb_field_set_to_default for field i. */
  method SetFieldDefault(d: MsgDesc, m: Msg, i: nat, partly: Msg) returns (m': Msg)
    requires WellFormed(d) && Typed(d, m) && i < |d.fields| && PartlyDefault(d, m, i, partly)
    ensures PartlyDefault(d, m, i + 1, m')
    decreases d, 0
  {
    var f, s := d.fields[i], m.slots[i];
    assert FieldOk(f, d.unions) && TypedSlot(f, s);
    match f.htype
    case Oneof(u) => m' := partly.(which := partly.which[u := 0]);
    case Repeated => m' := partly.(slots := partly.slots[i := Rep(0, s.items)]);
    case FixArray => m' := partly;
    case Optional =>
      var v := SetDefault(f, d.unions, s.v);
      m' := partly.(slots := partly.slots[i := Opt(false, v)]);
    case _ =>
      var v := SetDefault(f, d.unions, s.v);
      m' := partly.(slots := partly.slots[i := One(v)]);
  }

  ghost predicate PartlyDefault(d: MsgDesc, m: Msg, n: nat, m': Msg)
    requires |m.slots| == |d.fields| && n <= |d.fields|
  {
    && |m'.slots| == |m.slots| && |m'.which| == |m.which|
    && (forall j :: 0 <= j < n ==> m'.slots[j] == DefaultSlot(d.fields[j], m.slots[j]))
    && (forall j :: n <= j < |d.fields| ==> m'.slots[j] == m.slots[j])
    && (forall u :: 0 <= u < |m.which| ==>
          m'.which[u] == if exists j :: 0 <= j < n && d.fields[j].htype == Oneof(u) then 0 else m.which[u])
  }

  method SetDefault(f: Field, unions: nat, v: Value) returns (v': Value)
    requires FieldOk(f, unions) && TypedValue(f, v)
    ensures v' == DefaultValue(f, v)
    decreases f
  {
    if f.ltype.LSubmessage? && HasSubmessage(f.ltype.sub) {
      var m := SetDefaults(f.ltype.sub, v.m);
      v' := VMsg(m);
    } else {
      v' := ZeroValue(f);
    }
  }

  /** A field the iterator has found: fixed-count and required bookkeeping, then its value. */
  method DecodeKnown(stream: IStream, iter: FieldIter, d: MsgDesc, wireType: nat, p0: Progress) returns (ok: bool, p: Progress)
    requires stream.Valid() && WellFormed(d) && Typed(d, p0.m)
    requires iter.Standing() && iter.d == d && |d.fields| > 0
    modifies stream
    ensures stream.Within() && (ok ==> stream.Advanced())
    ensures ok == ParseKnown(d, iter.index, wireType, old(stream.Rest()), p0).Some?
    ensures ok ==> Some((p, stream.Rest())) == ParseKnown(d, iter.index, wireType, old(stream.Rest()), p0)
    decreases d, 0
  {
    p := p0;
    ok := true;
    var i := iter.index;
    var f := d.fields[i];
    if f.htype.FixArray? {
      if p.fixedField != i {
        if p.fixedField != NO_FIELD && p.fixedSize != p.fixedTotal {
          return false, p;
        }
        p := p.(fixedField := i, fixedSize := 0, fixedTotal := iter.field.arraySize);
      }
    }
    if f.htype.Required? && iter.requiredFieldIndex < MAX_REQUIRED {
      p := p.(seen := p.seen + {iter.requiredFieldIndex});
    }
    assert Track(d, i, p0) == Some(p);
    var r: SlotResult;
    ok, r := DecodeStaticField(stream, f, d.unions, wireType, p.m.slots[i], p.m.which, p.fixedSize);
    p := if ok then Store(p, i, r) else p;
  }

  /** One round of the field loop of pb_decode_inner. */
  method DecodeRecord(stream: IStream, iter: FieldIter, d: MsgDesc, p0: Progress) returns (ok: bool, p: Progress)
    requires stream.Valid() && stream.bytesLeft > 0 && WellFormed(d) && Typed(d, p0.m)
    requires iter.Standing() && iter.d == d
    modifies stream, iter
    ensures iter.Standing()
    ensures stream.Parsed(ok, p, ParseRecord(d, old(stream.Rest()), p0))
    decreases d, 2
  {
    p := p0;
    var key: nat;
    ok, key := DecodeVarint32(stream);
    if !ok {
      return;
    }
    var tag, wireType := key / 8, key % 8;
    if tag == 0 {
      return false, p;
    }
    ok, p := DecodeTagged(stream, iter, d, tag, wireType, p);
  }

  /** What follows the key: the value of a known field, or something to skip. */
  method DecodeTagged(stream: IStream, iter: FieldIter, d: MsgDesc, tag: nat, wireType: nat, p0: Progress) returns (ok: bool, p: Progress)
    requires stream.Valid() && WellFormed(d) && Typed(d, p0.m) && tag > 0
    requires iter.Standing() && iter.d == d
    modifies stream, iter
    ensures iter.Standing()
    ensures stream.Parsed(ok, p, ParseTagged(d, tag, wireType, old(stream.Rest()), p0))
    decreases d, 1
  {
    p := p0;
    var found := iter.FindTag(tag);
    if found {
      ok, p := DecodeKnown(stream, iter, d, wireType, p);
    } else {
      ok := SkipField(stream, wireType);
    }
  }

  /** pb_decode_inner. */
  method DecodeInner(stream: IStream, d: MsgDesc, m0: Msg, init: bool) returns (ok: bool, m: Msg)
    requires stream.Valid() && WellFormed(d) && Typed(d, m0)
    modifies stream
    ensures stream.Within() && (ok ==> stream.Advanced())
    ensures ok == ParseMsg(d, old(stream.Rest()), m0, init).Some?
    ensures ok ==> m == ParseMsg(d, old(stream.Rest()), m0, init).value && stream.bytesLeft == 0
    decreases d, 3
  {
    m := m0;
    if init {
      m := SetDefaults(d, m0);
    }
    var iter := new FieldIter(d);
    var p := Progress(m, NO_FIELD, 0, 0, {});
    ghost var s0 := stream.Rest();
    assert p == Start(d, m0, init);
    while stream.bytesLeft > 0
      invariant stream.Advanced() && iter.Standing() && iter.d == d && Typed(d, p.m)
      invariant ParseFields(d, s0, Start(d, m0, init)) == ParseFields(d, stream.Rest(), p)
      decreases stream.bytesLeft
    {
      ghost var s, q := stream.Rest(), p;
      ok, p := DecodeRecord(stream, iter, d, p);
      assert ParseFields(d, s, q) == if ok then ParseFields(d, stream.Rest(), p) else None;
      if !ok {
        return false, m;
      }
    }
    m := p.m;
    ok := Complete(d, p);
  }

  /** pb_decode, on a stream over the whole buffer. */
  method Decode(msg: seq<byte>, d: MsgDesc, m0: Msg) returns (ok: bool, m: Msg)
    requires WellFormed(d) && Typed(d, m0)
    ensures ok == ParseMsg(d, msg, m0, true).Some?
    ensures ok ==> m == ParseMsg(d, msg, m0, true).value
  {
    var stream := new IStream.FromBuffer(msg);
    ok, m := DecodeInner(stream, d, m0, true);
  }
}
