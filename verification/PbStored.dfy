/**
 Which structs encode, and that every decoded one does: whatever bytes arrive, the decoder keeps
 each value within its storage, so that what was received can be sent on.
 */
module PbStored {
  import opened Common
  import opened PbVarint
  import PbWire
  import opened PbMessage
  import opened PbEncode
  import opened PbParse
  import opened PbRoundTrip
  import opened PbLayout
  import Reads = PbReads
  import Spec = PbSpec

  // ----- when a struct encodes -----

  /** Bytes within the field, strings with their end, and nested structs that encode to a countable length. */
  ghost predicate Writable(f: Field, unions: nat, v: Value)
    requires FieldOk(f, unions) && TypedValue(f, v)
    decreases f, 0
  {
    match f.ltype
    case LBytes => |v.b| + 2 <= f.dataSize
    case LString => 0 in v.buf
    case LSubmessage(sub) =>
      WritableFrom(sub, v.m, 0) && Shorter(EncodeFrom(sub, v.m, 0), 0x1_0000_0000_0000_0000)
    case _ => true
  }

  /** Only what is written matters: the value of a set field, the elements up to the count. */
  ghost predicate WritableSlot(f: Field, unions: nat, s: Slot, which: seq<nat>)
    requires FieldOk(f, unions) && TypedSlot(f, s) && |which| == unions
    decreases f, 1
  {
    if IsArray(f.htype) then
      (s.Rep? ==> s.count <= f.arraySize) && forall v :: v in Spec.Elements(s) ==> TypedValue(f, v) && Writable(f, unions, v)
    else Spec.HasRecord(f, unions, s, which) ==> Writable(f, unions, s.v)
  }

  ghost predicate WritableFrom(d: MsgDesc, m: Msg, i: nat)
    requires WellFormed(d) && Typed(d, m) && i <= |d.fields|
    decreases d, |d.fields| - i
  {
    i == |d.fields| || (WritableSlot(d.fields[i], d.unions, m.slots[i], m.which) && WritableFrom(d, m, i + 1))
  }

  lemma {:induction false} StringEnds(buf: seq<byte>)
    ensures StrLen(buf) < |buf| <==> 0 in buf
  {
    if buf != [] && buf[0] != 0 {
      StringEnds(buf[1..]);
      assert 0 in buf <==> 0 in buf[1..];
    }
  }

  lemma {:induction false} ValueEncodes(f: Field, unions: nat, v: Value)
    requires FieldOk(f, unions) && TypedValue(f, v)
    ensures EncodeValue(f, unions, v).Some? <==> Writable(f, unions, v)
    ensures EncodeRecord(f, unions, v).Some? <==> Writable(f, unions, v)
    decreases f, 0
  {
    if f.ltype.LString? {
      StringEnds(v.buf);
    } else if f.ltype.LSubmessage? {
      FieldsEncodeIff(f.ltype.sub, v.m, 0);
    }
  }

  lemma {:induction false} ItemsEncode(f: Field, unions: nat, items: seq<Value>)
    requires FieldOk(f, unions) && forall e :: 0 <= e < |items| ==> TypedValue(f, items[e])
    ensures EncodeItems(f, unions, items).Some? <==> forall v :: v in items ==> Writable(f, unions, v)
    decreases f, 1, |items|
  {
    if items != [] {
      ValueEncodes(f, unions, items[0]);
      ItemsEncode(f, unions, items[1..]);
      assert items == [items[0]] + items[1..];
    }
  }

  lemma {:induction false} ArrayEncodes(f: Field, unions: nat, s: Slot, which: seq<nat>)
    requires FieldOk(f, unions) && TypedSlot(f, s) && |which| == unions && IsArray(f.htype)
    ensures EncodeArray(f, unions, s).Some? <==> WritableSlot(f, unions, s, which)
    decreases f, 2
  {
    if Count(f, s) <= f.arraySize {
      assert Spec.Elements(s) == s.items[..Count(f, s)];
      if Packable(f.ltype) {
        PackedShort(f, s.items[..Count(f, s)]);
      } else {
        ItemsEncode(f, unions, s.items[..Count(f, s)]);
      }
    }
  }

  lemma {:induction false} FieldEncodes(f: Field, unions: nat, s: Slot, which: seq<nat>)
    requires FieldOk(f, unions) && TypedSlot(f, s) && |which| == unions
    ensures EncodeField(f, unions, s, which).Some? <==> WritableSlot(f, unions, s, which)
    decreases f, 3
  {
    if IsArray(f.htype) {
      ArrayEncodes(f, unions, s, which);
    } else {
      ValueEncodes(f, unions, s.v);
      if f.htype.Singular? {
        Reads.DefaultIsUnset(f, unions, s.v);
      }
    }
  }

  lemma {:induction false} FieldsEncodeIff(d: MsgDesc, m: Msg, i: nat)
    requires WellFormed(d) && Typed(d, m) && i <= |d.fields|
    ensures EncodeFrom(d, m, i).Some? <==> WritableFrom(d, m, i)
    decreases d, |d.fields| - i
  {
    if i < |d.fields| {
      FieldEncodes(d.fields[i], d.unions, m.slots[i], m.which);
      FieldsEncodeIff(d, m, i + 1);
    }
  }

  /** The encoder fails on no other struct. */
  lemma EncodesIff(d: MsgDesc, m: Msg)
    requires WellFormed(d) && Typed(d, m)
    ensures Encode(d, m).Some? <==> WritableFrom(d, m, 0)
  {
    FieldsEncodeIff(d, m, 0);
  }

  // ----- what every decoded struct is like -----

  /** The value stays within its storage: room for the bytes, an end to the string. */
  ghost predicate Contained(f: Field, unions: nat, v: Value)
    requires FieldOk(f, unions) && TypedValue(f, v)
    decreases f, 0
  {
    match f.ltype
    case LBytes => |v.b| + 2 <= f.dataSize
    case LString => 0 in v.buf
    case LSubmessage(sub) => ContainedMsg(sub, v.m)
    case _ => true
  }

  ghost predicate AllContained(f: Field, unions: nat, items: seq<Value>)
    requires FieldOk(f, unions) && forall e :: 0 <= e < |items| ==> TypedValue(f, items[e])
    decreases f, 1
  {
    forall e :: 0 <= e < |items| ==> Contained(f, unions, items[e])
  }

  ghost predicate ContainedSlot(f: Field, unions: nat, s: Slot)
    requires FieldOk(f, unions) && TypedSlot(f, s)
    decreases f, 2
  {
    match s
    case Rep(count, items) => count <= f.arraySize && AllContained(f, unions, items)
    case Fix(items) => AllContained(f, unions, items)
    case _ => Contained(f, unions, s.v)
  }

  ghost predicate ContainedMsg(d: MsgDesc, m: Msg)
    requires WellFormed(d) && Typed(d, m)
    decreases d, 3
  {
    forall i :: 0 <= i < |d.fields| ==> ContainedSlot(d.fields[i], d.unions, m.slots[i])
  }

  lemma {:induction false} ZeroContained(f: Field, unions: nat)
    requires FieldOk(f, unions)
    ensures TypedValue(f, ZeroValue(f)) && Contained(f, unions, ZeroValue(f))
    decreases f
  {
    ZeroValueFresh(f, unions);
    if f.ltype.LSubmessage? {
      ZeroMsgContained(f.ltype.sub);
    } else if f.ltype.LString? {
      assert ZeroValue(f).buf[0] == 0;
    }
  }

  lemma {:induction false} ZeroMsgContained(d: MsgDesc)
    requires WellFormed(d)
    ensures Typed(d, ZeroMsg(d)) && ContainedMsg(d, ZeroMsg(d))
    decreases d
  {
    ZeroFresh(d);
    forall i | 0 <= i < |d.fields|
      ensures ContainedSlot(d.fields[i], d.unions, ZeroMsg(d).slots[i])
    {
      ZeroContained(d.fields[i], d.unions);
    }
  }

  lemma {:induction false} DefaultContained(f: Field, unions: nat, v: Value)
    requires FieldOk(f, unions) && TypedValue(f, v) && Contained(f, unions, v)
    ensures TypedValue(f, DefaultValue(f, v)) && Contained(f, unions, DefaultValue(f, v))
    decreases f
  {
    DefaultValueFresh(f, unions, v);
    ZeroContained(f, unions);
    if f.ltype.LSubmessage? {
      DefaultMsgContained(f.ltype.sub, v.m);
    }
  }

  lemma {:induction false} DefaultMsgContained(d: MsgDesc, m: Msg)
    requires WellFormed(d) && Typed(d, m) && ContainedMsg(d, m)
    ensures Typed(d, DefaultMsg(d, m)) && ContainedMsg(d, DefaultMsg(d, m))
    decreases d
  {
    DefaultFresh(d, m);
    forall i | 0 <= i < |d.fields|
      ensures ContainedSlot(d.fields[i], d.unions, DefaultMsg(d, m).slots[i])
    {
      var f, s := d.fields[i], m.slots[i];
      assert ContainedSlot(f, d.unions, s);
      if s.One? || s.Opt? {
        DefaultContained(f, d.unions, s.v);
      }
    }
  }

  lemma {:induction false} ValueContained(f: Field, unions: nat, wireType: nat, s: seq<byte>, before: Value)
    requires FieldOk(f, unions) && TypedValue(f, before) && Contained(f, unions, before)
    requires ParseValue(f, unions, wireType, s, before).Some?
    ensures Contained(f, unions, ParseValue(f, unions, wireType, s, before).value.0)
    decreases f, 0
  {
    if !Packable(f.ltype) {
      var (n, rest) := Decode32(s).value;
      var v := ParseValue(f, unions, wireType, s, before).value.0;
      if f.ltype.LString? {
        assert v.buf[n] == 0;
      } else if f.ltype.LSubmessage? {
        DecodedContained(f.ltype.sub, rest[..n], before.m, IsArray(f.htype));
      }
    }
  }

  lemma {:induction false} PackedContained(f: Field, unions: nat, s: seq<byte>, items: seq<Value>, size: nat)
    requires FieldOk(f, unions) && Packable(f.ltype) && forall e :: 0 <= e < |items| ==> TypedValue(f, items[e])
    requires ParsePacked(f, s, items, size).Some?
    ensures AllContained(f, unions, ParsePacked(f, s, items, size).value.0)
  {
  }

  lemma {:induction false} ElementContained(f: Field, unions: nat, wireType: nat, s: seq<byte>, slot: Slot, which: seq<nat>, fixedSize: nat)
    requires FieldOk(f, unions) && IsArray(f.htype) && TypedSlot(f, slot) && |which| == unions && ContainedSlot(f, unions, slot)
    requires ParseElement(f, unions, wireType, s, slot, which, fixedSize).Some?
    ensures ContainedSlot(f, unions, ParseElement(f, unions, wireType, s, slot, which, fixedSize).value.slot)
    decreases f, 1
  {
    var size := ArraySize(slot, fixedSize);
    assert AllContained(f, unions, slot.items);
    if wireType == PbWire.WT_STRING && Packable(f.ltype) {
      PackedContained(f, unions, PbWire.Delimited(s).value.0, slot.items, size);
    } else {
      ValueContained(f, unions, wireType, s, slot.items[size]);
    }
  }

  lemma {:induction false} SlotContained(f: Field, unions: nat, wireType: nat, s: seq<byte>, slot: Slot, which: seq<nat>, fixedSize: nat)
    requires FieldOk(f, unions) && TypedSlot(f, slot) && |which| == unions && ContainedSlot(f, unions, slot)
    requires ParseSlot(f, unions, wireType, s, slot, which, fixedSize).Some?
    ensures ContainedSlot(f, unions, ParseSlot(f, unions, wireType, s, slot, which, fixedSize).value.slot)
    decreases f, 2
  {
    if IsArray(f.htype) {
      ElementContained(f, unions, wireType, s, slot, which, fixedSize);
    } else if f.htype.Oneof? && f.ltype.LSubmessage? && which[f.htype.union] != f.tag {
      UnionValueTyped(f, unions);
      ZeroMsgContained(f.ltype.sub);
      DefaultMsgContained(f.ltype.sub, ZeroMsg(f.ltype.sub));
      ValueContained(f, unions, wireType, s, UnionValue(f));
    } else {
      ValueContained(f, unions, wireType, s, slot.v);
    }
  }

  lemma {:induction false} RecordContained(d: MsgDesc, s: seq<byte>, p: Progress)
    requires WellFormed(d) && Typed(d, p.m) && ContainedMsg(d, p.m) && ParseRecord(d, s, p).Some?
    ensures ContainedMsg(d, ParseRecord(d, s, p).value.0.m)
    decreases d, 1
  {
    var (key, tail) := Decode32(s).value;
    var i := Find(d.fields, key / 8);
    if i < |d.fields| {
      assert ParseRecord(d, s, p) == ParseKnown(d, i, key % 8, tail, p);
      assert ContainedSlot(d.fields[i], d.unions, p.m.slots[i]);
      SlotContained(d.fields[i], d.unions, key % 8, tail, p.m.slots[i], p.m.which, Track(d, i, p).value.fixedSize);
    }
  }

  lemma {:induction false} FieldsContained(d: MsgDesc, s: seq<byte>, p: Progress)
    requires WellFormed(d) && Typed(d, p.m) && ContainedMsg(d, p.m) && ParseFields(d, s, p).Some?
    ensures ContainedMsg(d, ParseFields(d, s, p).value.m)
    decreases d, 2, |s|
  {
    if s != [] {
      RecordContained(d, s, p);
      FieldsContained(d, ParseRecord(d, s, p).value.1, ParseRecord(d, s, p).value.0);
    }
  }

  /** Whatever the bytes, a decoded struct keeps every value within its storage. */
  lemma {:induction false} DecodedContained(d: MsgDesc, s: seq<byte>, m: Msg, init: bool)
    requires WellFormed(d) && Typed(d, m) && ContainedMsg(d, m) && ParseMsg(d, s, m, init).Some?
    ensures ContainedMsg(d, ParseMsg(d, s, m, init).value)
    decreases d, 3
  {
    DefaultMsgContained(d, m);
    FieldsContained(d, s, Start(d, m, init));
  }

  // ----- what was received can be sent on -----

  lemma {:induction false} ContainedWritable(f: Field, unions: nat, v: Value, k: nat)
    requires FieldOk(f, unions) && TypedValue(f, v) && Contained(f, unions, v)
    requires LaidField(f, unions) && DeepField(f, k) && Ordinary(k)
    ensures Writable(f, unions, v)
    decreases f
  {
    if f.ltype.LSubmessage? {
      Scale(k - 1, k, 23 * 0xFFFF);
      ContainedFields(f.ltype.sub, v.m, 0, k - 1);
      PayloadOrdinary(f, unions, v, k);
    }
  }

  lemma {:induction false} ContainedFields(d: MsgDesc, m: Msg, i: nat, k: nat)
    requires WellFormed(d) && Typed(d, m) && i <= |d.fields| && ContainedMsg(d, m) && Laid(d) && Deep(d, k) && Ordinary(k)
    ensures WritableFrom(d, m, i)
    decreases d, |d.fields| - i
  {
    if i < |d.fields| {
      var f, s := d.fields[i], m.slots[i];
      assert ContainedSlot(f, d.unions, s);
      if IsArray(f.htype) {
        assert AllContained(f, d.unions, s.items);
        forall v | v in Spec.Elements(s)
          ensures TypedValue(f, v) && Writable(f, d.unions, v)
        {
          var e :| 0 <= e < |s.items| && s.items[e] == v;
          assert TypedValue(f, s.items[e]);
          ContainedWritable(f, d.unions, v, k);
        }
      } else {
        ContainedWritable(f, d.unions, s.v, k);
      }
      ContainedFields(d, m, i + 1, k);
    }
  }

  /**
   Relaying. Whatever bytes a receiver decodes over a cleared struct, the struct encodes, and
   decoding what was encoded gives the same struct: one pass normalises any accepted input.
   */
  lemma Relayed(d: MsgDesc, s: seq<byte>, m0: Msg, k: nat)
    requires WellFormed(d) && Laid(d) && Deep(d, k) && k <= 2849 && Typed(d, m0)
    ensures Typed(d, ZeroMsg(d))
    ensures ParseMsg(d, s, ZeroMsg(d), true).Some? ==>
              var m := ParseMsg(d, s, ZeroMsg(d), true).value;
              && Encode(d, m).Some?
              && var r := ParseMsg(d, Encode(d, m).value, m0, true);
                 r.Some? && Same(d, m, r.value)
  {
    ZeroMsgContained(d);
    if ParseMsg(d, s, ZeroMsg(d), true).Some? {
      var m := ParseMsg(d, s, ZeroMsg(d), true).value;
      DecodedContained(d, s, ZeroMsg(d), true);
      assert Ordinary(k) by { Scale(k, 2849, 23 * 0xFFFF); }
      ContainedFields(d, m, 0, k);
      EncodesIff(d, m);
      LaidRoundTrip(d, m, m0, true, k);
    }
  }
}
