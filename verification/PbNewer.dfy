/**
 A newer sender. Its descriptor has fields the receiver's lacks, at any place and at any depth of
 nesting; what the receiver decodes is the part of the struct the two share.
 */
module PbNewer {
  import opened Common
  import opened PbVarint
  import opened PbWire
  import opened PbMessage
  import opened PbEncode
  import opened PbParse
  import opened PbRoundTrip
  import opened PbUnknown
  import opened PbSkip

  // ----- descriptors with more fields -----

  /** Every field of d is in e, with the same tag, rule and type; nested messages may have more fields again. */
  ghost predicate Extends(e: MsgDesc, d: MsgDesc)
    decreases d
  {
    d.unions <= e.unions &&
    forall i :: 0 <= i < |d.fields| ==>
      !Lacks(e, d.fields[i].tag) && ExtendsField(e.fields[Find(e.fields, d.fields[i].tag)], d.fields[i])
  }

  /** The place of a field in the struct is free, and the size of a nested struct is its own. */
  ghost predicate ExtendsField(g: Field, f: Field)
    decreases f
  {
    && g.tag == f.tag && g.htype == f.htype && g.arraySize == f.arraySize
    && if f.ltype.LSubmessage? then g.ltype.LSubmessage? && Extends(g.ltype.sub, f.ltype.sub)
       else g.ltype == f.ltype && g.dataSize == f.dataSize
  }

  /** What a struct of the larger descriptor says about the fields of the smaller one. */
  ghost function Shared(d: MsgDesc, e: MsgDesc, m: Msg): (r: Msg)
    requires Extends(e, d) && Typed(e, m)
    ensures Typed(d, r)
    decreases d
  {
    Msg(seq(|d.fields|, i requires 0 <= i < |d.fields| => SharedAt(d, e, m, i)), m.which[..d.unions])
  }

  ghost function SharedAt(d: MsgDesc, e: MsgDesc, m: Msg, i: nat): (r: Slot)
    requires Extends(e, d) && Typed(e, m) && i < |d.fields|
    ensures TypedSlot(d.fields[i], r)
    decreases d.fields[i], 2
  {
    var k := Find(e.fields, d.fields[i].tag);
    SharedSlot(d.fields[i], e.fields[k], m.slots[k])
  }

  ghost function SharedSlot(f: Field, g: Field, s: Slot): (r: Slot)
    requires ExtendsField(g, f) && TypedSlot(g, s)
    ensures TypedSlot(f, r)
    decreases f, 1
  {
    match s
    case One(v) => One(SharedValue(f, g, v))
    case Opt(has, v) => Opt(has, SharedValue(f, g, v))
    case Rep(count, items) => Rep(count, SharedItems(f, g, items))
    case Fix(items) => Fix(SharedItems(f, g, items))
  }

  ghost function SharedItems(f: Field, g: Field, items: seq<Value>): (r: seq<Value>)
    requires ExtendsField(g, f) && forall i :: 0 <= i < |items| ==> TypedValue(g, items[i])
    ensures |r| == |items| && forall i :: 0 <= i < |items| ==> r[i] == SharedValue(f, g, items[i])
    decreases f, 0, |items|
  {
    if items == [] then [] else [SharedValue(f, g, items[0])] + SharedItems(f, g, items[1..])
  }

  ghost function SharedValue(f: Field, g: Field, v: Value): (r: Value)
    requires ExtendsField(g, f) && TypedValue(g, v)
    ensures TypedValue(f, r)
    decreases f, 0, 0
  {
    if f.ltype.LSubmessage? then VMsg(Shared(f.ltype.sub, g.ltype.sub, v.m)) else v
  }

  // ----- walking both descriptors -----

  /** The first i fields of d are those that stand among the first k fields of e. */
  ghost predicate Between(d: MsgDesc, e: MsgDesc, i: nat, k: nat) {
    && i <= |d.fields| && k <= |e.fields|
    && forall j :: 0 <= j < |d.fields| ==> (j < i <==> Find(e.fields, d.fields[j].tag) < k)
  }

  lemma SharedNext(d: MsgDesc, e: MsgDesc, i: nat, k: nat)
    requires WellFormed(d) && WellFormed(e) && Extends(e, d) && Between(d, e, i, k)
    requires i < |d.fields| && k < |e.fields| && e.fields[k].tag == d.fields[i].tag
    ensures Find(e.fields, d.fields[i].tag) == k && Between(d, e, i + 1, k + 1)
  {
    FindAt(e, k);
  }

  lemma ExtraNext(d: MsgDesc, e: MsgDesc, i: nat, k: nat)
    requires WellFormed(d) && WellFormed(e) && Extends(e, d) && Between(d, e, i, k)
    requires k < |e.fields| && (i < |d.fields| ==> e.fields[k].tag != d.fields[i].tag)
    ensures Lacks(d, e.fields[k].tag) && Between(d, e, i, k + 1)
  {
    FindAt(e, k);
    forall j | 0 <= j < |d.fields|
      ensures d.fields[j].tag != e.fields[k].tag
    {
      if j > i {
        assert d.fields[i].tag < d.fields[j].tag;
        assert Find(e.fields, d.fields[i].tag) >= k;
      }
    }
  }

  lemma AllShared(d: MsgDesc, e: MsgDesc, i: nat)
    requires Extends(e, d) && Between(d, e, i, |e.fields|)
    ensures i == |d.fields|
  {
    assert i < |d.fields| ==> !Lacks(e, d.fields[i].tag);
  }

  // ----- fields of the same type: the same bytes -----

  lemma {:induction false} PackedSame(f: Field, g: Field, items: seq<Value>)
    requires Packable(f.ltype) && SizeOk(f) && SizeOk(g) && g.ltype == f.ltype && g.dataSize == f.dataSize
    requires forall i :: 0 <= i < |items| ==> TypedValue(f, items[i]) && TypedValue(g, items[i])
    ensures EncodePacked(g, items) == EncodePacked(f, items)
  {
    if items != [] {
      PackedSame(f, g, items[1..]);
    }
  }

  lemma RecordSame(f: Field, unions: nat, g: Field, unionsG: nat, v: Value)
    requires FieldOk(f, unions) && FieldOk(g, unionsG) && !f.ltype.LSubmessage? && ExtendsField(g, f)
    requires TypedValue(f, v) && TypedValue(g, v)
    ensures EncodeRecord(g, unionsG, v) == EncodeRecord(f, unions, v)
    ensures IsDefaultValue(g, unionsG, v) == IsDefaultValue(f, unions, v)
  {
    assert EncodeValue(g, unionsG, v) == EncodeValue(f, unions, v);
  }

  lemma {:induction false} ItemsSame(f: Field, unions: nat, g: Field, unionsG: nat, items: seq<Value>)
    requires FieldOk(f, unions) && FieldOk(g, unionsG) && !f.ltype.LSubmessage? && ExtendsField(g, f)
    requires forall i :: 0 <= i < |items| ==> TypedValue(f, items[i]) && TypedValue(g, items[i])
    ensures EncodeItems(g, unionsG, items) == EncodeItems(f, unions, items)
    decreases |items|
  {
    if items != [] {
      RecordSame(f, unions, g, unionsG, items[0]);
      ItemsSame(f, unions, g, unionsG, items[1..]);
    }
  }

  lemma PlainShared(f: Field, g: Field, items: seq<Value>)
    requires ExtendsField(g, f) && !f.ltype.LSubmessage? && forall i :: 0 <= i < |items| ==> TypedValue(g, items[i])
    ensures SharedItems(f, g, items) == items
  {
  }

  lemma PlainArray(f: Field, unions: nat, g: Field, unionsG: nat, s: Slot)
    requires FieldOk(f, unions) && FieldOk(g, unionsG) && !f.ltype.LSubmessage? && ExtendsField(g, f)
    requires TypedSlot(g, s) && IsArray(f.htype)
    ensures SharedSlot(f, g, s) == s && EncodeArray(g, unionsG, s) == EncodeArray(f, unions, s)
  {
    PlainShared(f, g, s.items);
    if 0 < Count(f, s) <= f.arraySize {
      if Packable(f.ltype) {
        PackedSame(f, g, s.items[..Count(f, s)]);
      } else {
        ItemsSame(f, unions, g, unionsG, s.items[..Count(f, s)]);
      }
    }
  }

  lemma PlainField(f: Field, unions: nat, g: Field, unionsG: nat, s: Slot, which: seq<nat>)
    requires FieldOk(f, unions) && FieldOk(g, unionsG) && !f.ltype.LSubmessage? && ExtendsField(g, f)
    requires TypedSlot(g, s) && |which| == unionsG && unions <= unionsG
    ensures SharedSlot(f, g, s) == s && EncodeField(g, unionsG, s, which) == EncodeField(f, unions, s, which[..unions])
  {
    if IsArray(f.htype) {
      PlainArray(f, unions, g, unionsG, s);
    } else {
      assert SharedValue(f, g, s.v) == s.v;
      RecordSame(f, unions, g, unionsG, s.v);
    }
  }

  // ----- the shared part is no longer than the whole -----

  lemma {:induction false} VarintGrows(a: nat, b: nat)
    requires a <= b
    ensures |Varint(a)| <= |Varint(b)|
  {
    if a >= 128 {
      VarintGrows(a / 128, b / 128);
    }
  }

  lemma {:induction false} RecordShrinks(f: Field, unions: nat, g: Field, unionsG: nat, v: Value)
    requires FieldOk(f, unions) && FieldOk(g, unionsG) && f.ltype.LSubmessage? && ExtendsField(g, f) && TypedValue(g, v)
    requires EncodeRecord(g, unionsG, v).Some? && PayloadFits(g, unionsG, v)
    ensures EncodeRecord(f, unions, SharedValue(f, g, v)).Some? && PayloadFits(f, unions, SharedValue(f, g, v))
    ensures |EncodeRecord(f, unions, SharedValue(f, g, v)).value| <= |EncodeRecord(g, unionsG, v).value|
    decreases f, 0, 0
  {
    var sub, bigger := f.ltype.sub, g.ltype.sub;
    ShortMessageFits(bigger, v.m, 0);
    Shrinks(sub, bigger, v.m, 0, 0);
    VarintGrows(|EncodeFrom(sub, Shared(sub, bigger, v.m), 0).value|, |EncodeFrom(bigger, v.m, 0).value|);
  }

  lemma {:induction false} ItemsShrink(f: Field, unions: nat, g: Field, unionsG: nat, items: seq<Value>)
    requires FieldOk(f, unions) && FieldOk(g, unionsG) && f.ltype.LSubmessage? && ExtendsField(g, f)
    requires forall i :: 0 <= i < |items| ==> TypedValue(g, items[i])
    requires EncodeItems(g, unionsG, items).Some? && ItemsFit(g, unionsG, items)
    ensures EncodeItems(f, unions, SharedItems(f, g, items)).Some? && ItemsFit(f, unions, SharedItems(f, g, items))
    ensures |EncodeItems(f, unions, SharedItems(f, g, items)).value| <= |EncodeItems(g, unionsG, items).value|
    decreases f, 1, |items|
  {
    if items != [] {
      ItemsBytes(g, unionsG, items, []);
      RecordShrinks(f, unions, g, unionsG, items[0]);
      ItemsShrink(f, unions, g, unionsG, items[1..]);
      assert SharedItems(f, g, items)[1..] == SharedItems(f, g, items[1..]);
      forall e | 0 <= e < |items|
        ensures PayloadFits(f, unions, SharedItems(f, g, items)[e])
      {
        if e > 0 {
          assert SharedItems(f, g, items)[e] == SharedItems(f, g, items[1..])[e - 1];
        }
      }
    }
  }

  lemma {:induction false} DefaultShared(f: Field, unions: nat, g: Field, unionsG: nat, v: Value)
    requires FieldOk(f, unions) && FieldOk(g, unionsG) && f.ltype.LSubmessage? && ExtendsField(g, f) && TypedValue(g, v)
    requires IsDefaultValue(g, unionsG, v)
    ensures IsDefaultValue(f, unions, SharedValue(f, g, v))
    decreases f, 0
  {
    DefaultsShared(f.ltype.sub, g.ltype.sub, v.m, 0);
  }

  lemma {:induction false} DefaultSlotShared(f: Field, unions: nat, g: Field, unionsG: nat, s: Slot, which: seq<nat>)
    requires FieldOk(f, unions) && FieldOk(g, unionsG) && ExtendsField(g, f)
    requires TypedSlot(g, s) && |which| == unionsG && unions <= unionsG && IsDefault(g, unionsG, s, which)
    ensures IsDefault(f, unions, SharedSlot(f, g, s), which[..unions])
    decreases f, 1
  {
    if f.htype.Singular? {
      if f.ltype.LSubmessage? {
        DefaultShared(f, unions, g, unionsG, s.v);
      } else {
        RecordSame(f, unions, g, unionsG, s.v);
      }
    }
  }

  lemma {:induction false} DefaultsShared(d: MsgDesc, e: MsgDesc, m: Msg, i: nat)
    requires WellFormed(d) && WellFormed(e) && Extends(e, d) && Typed(e, m) && i <= |d.fields| && IsDefaultFrom(e, m, 0)
    ensures IsDefaultFrom(d, Shared(d, e, m), i)
    decreases d, |d.fields| - i
  {
    if i < |d.fields| {
      var k := Find(e.fields, d.fields[i].tag);
      IsDefaultAt(e, m, 0, k);
      DefaultSlotShared(d.fields[i], d.unions, e.fields[k], e.unions, m.slots[k], m.which);
      DefaultsShared(d, e, m, i + 1);
    }
  }

  lemma {:induction false} FieldShrinks(f: Field, unions: nat, g: Field, unionsG: nat, s: Slot, which: seq<nat>)
    requires FieldOk(f, unions) && FieldOk(g, unionsG) && ExtendsField(g, f)
    requires TypedSlot(g, s) && |which| == unionsG && unions <= unionsG
    requires EncodeField(g, unionsG, s, which).Some? && FieldFits(g, unionsG, s, which)
    ensures var e := EncodeField(f, unions, SharedSlot(f, g, s), which[..unions]);
            e.Some? && |e.value| <= |EncodeField(g, unionsG, s, which).value|
    ensures FieldFits(f, unions, SharedSlot(f, g, s), which[..unions])
    decreases f, 2
  {
    if !f.ltype.LSubmessage? {
      PlainField(f, unions, g, unionsG, s, which);
    } else if IsArray(f.htype) {
      if 0 < Count(g, s) <= |s.items| {
        assert SharedItems(f, g, s.items)[..Count(g, s)] == SharedItems(f, g, s.items[..Count(g, s)]);
        ItemsShrink(f, unions, g, unionsG, s.items[..Count(g, s)]);
      }
    } else {
      if EncodeField(g, unionsG, s, which).value != [] {
        RecordShrinks(f, unions, g, unionsG, s.v);
      } else if f.htype.Singular? {
        DefaultShared(f, unions, g, unionsG, s.v);
      }
    }
  }

  lemma FieldInFront(d: MsgDesc, m: Msg, i: nat)
    requires WellFormed(d) && Typed(d, m) && i < |d.fields| && EncodeFrom(d, m, i + 1).Some? && PayloadsFit(d, m, i + 1)
    requires EncodeField(d.fields[i], d.unions, m.slots[i], m.which).Some? && FieldFits(d.fields[i], d.unions, m.slots[i], m.which)
    ensures EncodeFrom(d, m, i).Some? && PayloadsFit(d, m, i)
    ensures |EncodeFrom(d, m, i).value| == |EncodeField(d.fields[i], d.unions, m.slots[i], m.which).value| + |EncodeFrom(d, m, i + 1).value|
  {
  }

  lemma {:induction false} Shrinks(d: MsgDesc, e: MsgDesc, m: Msg, i: nat, k: nat)
    requires WellFormed(d) && WellFormed(e) && Extends(e, d) && Typed(e, m) && Between(d, e, i, k)
    requires EncodeFrom(e, m, k).Some? && PayloadsFit(e, m, k)
    ensures EncodeFrom(d, Shared(d, e, m), i).Some? && PayloadsFit(d, Shared(d, e, m), i)
    ensures |EncodeFrom(d, Shared(d, e, m), i).value| <= |EncodeFrom(e, m, k).value|
    decreases d, |e.fields| - k
  {
    if k == |e.fields| {
      AllShared(d, e, i);
    } else {
      FieldsEncode(e, m, k);
      if i < |d.fields| && e.fields[k].tag == d.fields[i].tag {
        SharedNext(d, e, i, k);
        assert Shared(d, e, m).slots[i] == SharedAt(d, e, m, i);
        FieldShrinks(d.fields[i], d.unions, e.fields[k], e.unions, m.slots[k], m.which);
        Shrinks(d, e, m, i + 1, k + 1);
        FieldInFront(d, Shared(d, e, m), i);
      } else {
        ExtraNext(d, e, i, k);
        Shrinks(d, e, m, i, k + 1);
      }
    }
  }

  // ----- nested messages: other bytes, the same meaning to the receiver -----

  /** Where a nested message is parsed from: its own payload only. */
  lemma PayloadDecides(f: Field, unions: nat, a: seq<byte>, b: seq<byte>, before: Value)
    requires FieldOk(f, unions) && f.ltype.LSubmessage? && TypedValue(f, before) && |a| < TWO32 && |b| < TWO32
    requires ParseMsg(f.ltype.sub, a, before.m, IsArray(f.htype)) == ParseMsg(f.ltype.sub, b, before.m, IsArray(f.htype))
    ensures WithLength(a).Some? && WithLength(b).Some?
    ensures ParseValue(f, unions, WT_STRING, WithLength(a).value, before) == ParseValue(f, unions, WT_STRING, WithLength(b).value, before)
  {
    SizedRoundTrip(f, unions, a, before, []);
    SizedRoundTrip(f, unions, b, before, []);
    assert WithLength(a).value + [] == WithLength(a).value && WithLength(b).value + [] == WithLength(b).value;
  }

  lemma {:induction false} NestedAlike(f: Field, unions: nat, g: Field, unionsG: nat, v: Value, before: Value)
    requires FieldOk(f, unions) && FieldOk(g, unionsG) && f.ltype.LSubmessage? && ExtendsField(g, f)
    requires TypedValue(g, v) && TypedValue(f, before) && (!IsArray(f.htype) ==> FreshValue(f, unions, before))
    requires EncodeRecord(g, unionsG, v).Some? && PayloadFits(g, unionsG, v)
    ensures EncodeRecord(f, unions, SharedValue(f, g, v)).Some?
    ensures ParseValue(f, unions, WT_STRING, EncodeValue(g, unionsG, v).value, before) ==
            ParseValue(f, unions, WT_STRING, EncodeValue(f, unions, SharedValue(f, g, v)).value, before)
    decreases f, 0
  {
    var sub, bigger := f.ltype.sub, g.ltype.sub;
    RecordShrinks(f, unions, g, unionsG, v);
    ShortMessageFits(bigger, v.m, 0);
    DefaultFresh(sub, before.m);
    FieldsAlike(sub, bigger, v.m, 0, 0, Start(sub, before.m, IsArray(f.htype)));
    PayloadDecides(f, unions, EncodeFrom(bigger, v.m, 0).value, EncodeFrom(sub, Shared(sub, bigger, v.m), 0).value, before);
  }

  lemma {:induction false} SlotAlike(f: Field, unions: nat, g: Field, unionsG: nat, v: Value, slot: Slot, which: seq<nat>, fixedSize: nat)
    requires FieldOk(f, unions) && FieldOk(g, unionsG) && f.ltype.LSubmessage? && ExtendsField(g, f)
    requires TypedValue(g, v) && TypedSlot(f, slot) && |which| == unions && (!IsArray(f.htype) ==> FreshSlot(f, unions, slot, which))
    requires EncodeRecord(g, unionsG, v).Some? && PayloadFits(g, unionsG, v)
    ensures EncodeRecord(f, unions, SharedValue(f, g, v)).Some?
    ensures ParseSlot(f, unions, WT_STRING, EncodeValue(g, unionsG, v).value, slot, which, fixedSize) ==
            ParseSlot(f, unions, WT_STRING, EncodeValue(f, unions, SharedValue(f, g, v)).value, slot, which, fixedSize)
    decreases f, 1
  {
    RecordShrinks(f, unions, g, unionsG, v);
    if IsArray(f.htype) {
      if ArraySize(slot, fixedSize) < f.arraySize {
        NestedAlike(f, unions, g, unionsG, v, slot.items[ArraySize(slot, fixedSize)]);
      }
    } else {
      UnionValueTyped(f, unions);
      NestedAlike(f, unions, g, unionsG, v, if f.htype.Oneof? then UnionValue(f) else slot.v);
    }
  }

  /** A record of field i, taken apart. */
  lemma RecordParse(d: MsgDesc, i: nat, wireType: nat, tail: seq<byte>, p: Progress)
    requires WellFormed(d) && Typed(d, p.m) && i < |d.fields| && wireType < 8
    ensures ParseFields(d, Varint(Key(wireType, d.fields[i].tag)) + tail, p) ==
            var r := ParseKnown(d, i, wireType, tail, p);
            if r.None? then None else ParseFields(d, r.value.1, r.value.0)
  {
    FindAt(d, i);
    VarintRoundTrip32(Key(wireType, d.fields[i].tag), tail);
    var bytes := Varint(Key(wireType, d.fields[i].tag)) + tail;
    assert ParseRecord(d, bytes, p) == ParseKnown(d, i, wireType, tail, p);
  }

  lemma {:induction false} RecordAlike(d: MsgDesc, i: nat, g: Field, unionsG: nat, v: Value, p: Progress)
    requires WellFormed(d) && Typed(d, p.m) && i < |d.fields| && d.fields[i].ltype.LSubmessage?
    requires FieldOk(g, unionsG) && ExtendsField(g, d.fields[i]) && TypedValue(g, v)
    requires !IsArray(d.fields[i].htype) ==> FieldOk(d.fields[i], d.unions) && FreshSlot(d.fields[i], d.unions, p.m.slots[i], p.m.which)
    requires EncodeRecord(g, unionsG, v).Some? && PayloadFits(g, unionsG, v)
    ensures FieldOk(d.fields[i], d.unions) && EncodeRecord(d.fields[i], d.unions, SharedValue(d.fields[i], g, v)).Some?
    ensures ParseFields(d, EncodeRecord(g, unionsG, v).value, p) ==
            ParseFields(d, EncodeRecord(d.fields[i], d.unions, SharedValue(d.fields[i], g, v)).value, p)
    decreases d.fields[i], 2
  {
    var f := d.fields[i];
    RecordShrinks(f, d.unions, g, unionsG, v);
    RecordParse(d, i, WT_STRING, EncodeValue(g, unionsG, v).value, p);
    RecordParse(d, i, WT_STRING, EncodeValue(f, d.unions, SharedValue(f, g, v)).value, p);
    if Track(d, i, p).Some? {
      SlotAlike(f, d.unions, g, unionsG, v, p.m.slots[i], p.m.which, Track(d, i, p).value.fixedSize);
    }
  }

  // ----- a nested message the receiver sees nothing new in -----

  lemma {:induction false} DefaultWritesNothing(d: MsgDesc, m: Msg, i: nat)
    requires WellFormed(d) && Typed(d, m) && i <= |d.fields| && IsDefaultFrom(d, m, i)
    ensures EncodeFrom(d, m, i) == Some([]) && RequiredBefore(d.fields, |d.fields|) == RequiredBefore(d.fields, i)
    decreases |d.fields| - i
  {
    if i < |d.fields| {
      assert IsDefault(d.fields[i], d.unions, m.slots[i], m.which) && FieldOk(d.fields[i], d.unions);
      assert EncodeField(d.fields[i], d.unions, m.slots[i], m.which) == Some([]);
      DefaultWritesNothing(d, m, i + 1);
      FieldsEncode(d, m, i);
    }
  }

  /** The record of a struct that is unset as far as the receiver knows leaves the receiver as it was. */
  lemma {:induction false} NothingNew(d: MsgDesc, i: nat, v: Value, p: Progress)
    requires WellFormed(d) && Typed(d, p.m) && i < |d.fields| && d.fields[i].htype.Singular? && d.fields[i].ltype.LSubmessage?
    requires FieldOk(d.fields[i], d.unions) && TypedValue(d.fields[i], v) && IsDefaultValue(d.fields[i], d.unions, v)
    requires EncodeRecord(d.fields[i], d.unions, v).Some?
    ensures ParseFields(d, EncodeRecord(d.fields[i], d.unions, v).value, p) == Some(p)
  {
    var f, before := d.fields[i], p.m.slots[i].v;
    DefaultWritesNothing(f.ltype.sub, v.m, 0);
    RecordParse(d, i, WT_STRING, EncodeValue(f, d.unions, v).value, p);
    SizedRoundTrip(f, d.unions, [], before, []);
    assert WithLength([]).value + [] == WithLength([]).value;
    assert ParseMsg(f.ltype.sub, [], before.m, false) == Some(before.m);
    assert ParseValue(f, d.unions, WT_STRING, WithLength([]).value, before) == Some((before, []));
    assert p.m.slots[i := One(before)] == p.m.slots;
  }

  // ----- fields -----

  lemma ItemsSplit(f: Field, unions: nat, items: seq<Value>)
    requires FieldOk(f, unions) && items != [] && forall e :: 0 <= e < |items| ==> TypedValue(f, items[e])
    requires EncodeItems(f, unions, items).Some?
    ensures EncodeRecord(f, unions, items[0]).Some? && EncodeItems(f, unions, items[1..]).Some?
    ensures EncodeItems(f, unions, items).value == EncodeRecord(f, unions, items[0]).value + EncodeItems(f, unions, items[1..]).value
  {
  }

  /** Records that take the receiver to the same state, in front of others. */
  lemma BothStep(d: MsgDesc, a: seq<byte>, b: seq<byte>, p: Progress, next: Progress, restA: seq<byte>, restB: seq<byte>)
    requires WellFormed(d) && Typed(d, p.m) && Typed(d, next.m)
    requires ParseFields(d, a, p) == ParseFields(d, b, p) && ParseFields(d, b, p) == ParseFields(d, [], next)
    ensures ParseFields(d, a + restA, p) == ParseFields(d, restA, next)
    ensures ParseFields(d, b + restB, p) == ParseFields(d, restB, next)
  {
    FieldsAppend(d, a, p, restA);
    FieldsAppend(d, b, p, restB);
  }

  /** One element and the others behind it. */
  lemma {:induction false} ItemAlike(d: MsgDesc, m: Msg, i: nat, f: Field, s: Slot, g: Field, unionsG: nat, items: seq<Value>, k: nat, p: Progress)
    returns (next: Progress)
    requires WellFormed(d) && Typed(d, m) && i < |d.fields| && f == d.fields[i] && s == m.slots[i]
    requires FieldOk(f, d.unions) && TypedSlot(f, s) && f.ltype.LSubmessage? && IsArray(f.htype)
    requires FieldOk(g, unionsG) && ExtendsField(g, f) && items != [] && forall e :: 0 <= e < |items| ==> TypedValue(g, items[e])
    requires EncodeItems(g, unionsG, items).Some? && ItemsFit(g, unionsG, items)
    requires Filling(d, m, i, f, s, k, p) && k < f.arraySize && s.items[k] == SharedValue(f, g, items[0])
    requires EncodeItems(f, d.unions, SharedItems(f, g, items)).Some?
    ensures EncodeItems(g, unionsG, items[1..]).Some? && EncodeItems(f, d.unions, SharedItems(f, g, items[1..])).Some?
    ensures Filling(d, m, i, f, s, k + 1, next)
    ensures ParseFields(d, EncodeItems(g, unionsG, items).value, p) == ParseFields(d, EncodeItems(g, unionsG, items[1..]).value, next)
    ensures ParseFields(d, EncodeItems(f, d.unions, SharedItems(f, g, items)).value, p) ==
            ParseFields(d, EncodeItems(f, d.unions, SharedItems(f, g, items[1..])).value, next)
    decreases f, 3, 0
  {
    var shared := SharedItems(f, g, items);
    assert shared[1..] == SharedItems(f, g, items[1..]);
    ItemsSplit(g, unionsG, items);
    ItemsSplit(f, d.unions, shared);
    RecordShrinks(f, d.unions, g, unionsG, items[0]);
    RecordAlike(d, i, g, unionsG, items[0], p);
    var a, b := EncodeRecord(g, unionsG, items[0]).value, EncodeRecord(f, d.unions, s.items[k]).value;
    next := ElementStep(d, m, i, f, s, k, p, []);
    assert b + [] == b;
    BothStep(d, a, b, p, next, EncodeItems(g, unionsG, items[1..]).value, EncodeItems(f, d.unions, shared[1..]).value);
  }

  /** The shared parts of the items stand in the array from k on. */
  ghost predicate StandAt(f: Field, g: Field, all: seq<Value>, items: seq<Value>, k: nat)
    requires ExtendsField(g, f) && forall e :: 0 <= e < |items| ==> TypedValue(g, items[e])
  {
    k + |items| <= |all| && all[k..k + |items|] == SharedItems(f, g, items)
  }

  lemma SharedTail(f: Field, g: Field, unionsG: nat, all: seq<Value>, items: seq<Value>, k: nat)
    requires FieldOk(g, unionsG) && ExtendsField(g, f) && items != [] && forall e :: 0 <= e < |items| ==> TypedValue(g, items[e])
    requires StandAt(f, g, all, items, k) && ItemsFit(g, unionsG, items)
    ensures k < |all| && all[k] == SharedValue(f, g, items[0])
    ensures StandAt(f, g, all, items[1..], k + 1) && ItemsFit(g, unionsG, items[1..])
  {
    assert all[k..k + |items|][0] == all[k];
    assert all[k + 1..k + 1 + |items[1..]|] == all[k..k + |items|][1..];
  }

  lemma {:induction false} ItemsAlike(d: MsgDesc, m: Msg, i: nat, f: Field, s: Slot, g: Field, unionsG: nat, items: seq<Value>, k: nat, p: Progress)
    requires WellFormed(d) && Typed(d, m) && i < |d.fields| && f == d.fields[i] && s == m.slots[i]
    requires FieldOk(f, d.unions) && TypedSlot(f, s) && f.ltype.LSubmessage? && IsArray(f.htype)
    requires FieldOk(g, unionsG) && ExtendsField(g, f) && forall e :: 0 <= e < |items| ==> TypedValue(g, items[e])
    requires EncodeItems(g, unionsG, items).Some? && ItemsFit(g, unionsG, items)
    requires Filling(d, m, i, f, s, k, p) && StandAt(f, g, s.items, items, k)
    requires EncodeItems(f, d.unions, SharedItems(f, g, items)).Some?
    ensures ParseFields(d, EncodeItems(g, unionsG, items).value, p) == ParseFields(d, EncodeItems(f, d.unions, SharedItems(f, g, items)).value, p)
    decreases f, 3, |items|
  {
    if items != [] {
      SharedTail(f, g, unionsG, s.items, items, k);
      var next := ItemAlike(d, m, i, f, s, g, unionsG, items, k, p);
      ItemsAlike(d, m, i, f, s, g, unionsG, items[1..], k + 1, next);
    }
  }

  lemma {:induction false} ArrayAlike(d: MsgDesc, m: Msg, i: nat, f: Field, g: Field, unionsG: nat, s: Slot, p: Progress)
    requires WellFormed(d) && Typed(d, m) && i < |d.fields| && f == d.fields[i] && Reached(d, m, i, p)
    requires FieldOk(f, d.unions) && FieldOk(g, unionsG) && ExtendsField(g, f) && f.ltype.LSubmessage? && IsArray(f.htype)
    requires TypedSlot(g, s) && m.slots[i] == SharedSlot(f, g, s) && 0 < Count(g, s) <= |s.items|
    requires EncodeArray(g, unionsG, s).Some? && ItemsFit(g, unionsG, s.items[..Count(g, s)])
    requires EncodeArray(f, d.unions, m.slots[i]).Some?
    ensures ParseFields(d, EncodeArray(g, unionsG, s).value, p) == ParseFields(d, EncodeArray(f, d.unions, m.slots[i]).value, p)
    decreases f, 3, |s.items| + 1
  {
    var items := s.items[..Count(g, s)];
    assert SharedItems(f, g, s.items)[..Count(g, s)] == SharedItems(f, g, items);
    assert FreshSlot(f, d.unions, p.m.slots[i], p.m.which);
    ItemsAlike(d, m, i, f, m.slots[i], g, unionsG, items, 0, p);
  }

  /** A field of one record, as far as the sender wrote it. */
  lemma {:induction false} SingleAlike(d: MsgDesc, m: Msg, i: nat, f: Field, g: Field, unionsG: nat, s: Slot, which: seq<nat>, p: Progress)
    requires WellFormed(d) && Typed(d, m) && i < |d.fields| && f == d.fields[i] && Reached(d, m, i, p)
    requires FieldOk(f, d.unions) && FieldOk(g, unionsG) && ExtendsField(g, f) && f.ltype.LSubmessage? && !IsArray(f.htype)
    requires TypedSlot(g, s) && |which| == unionsG && d.unions <= unionsG
    requires m.slots[i] == SharedSlot(f, g, s) && m.which == which[..d.unions]
    requires EncodeField(g, unionsG, s, which).Some? && FieldFits(g, unionsG, s, which) && EncodeField(g, unionsG, s, which).value != []
    ensures EncodeField(f, d.unions, m.slots[i], m.which).Some?
    ensures ParseFields(d, EncodeField(g, unionsG, s, which).value, p) == ParseFields(d, EncodeField(f, d.unions, m.slots[i], m.which).value, p)
    decreases f, 3
  {
    assert FreshSlot(f, d.unions, p.m.slots[i], p.m.which);
    RecordAlike(d, i, g, unionsG, s.v, p);
    if f.htype.Singular? && IsDefault(f, d.unions, m.slots[i], m.which) {
      NothingNew(d, i, SharedValue(f, g, s.v), p);
    }
  }

  /** What is written for a field of both: the receiver makes the same of it as of the shared part. */
  lemma {:induction false} FieldAlike(d: MsgDesc, m: Msg, i: nat, f: Field, g: Field, unionsG: nat, s: Slot, which: seq<nat>, p: Progress)
    requires WellFormed(d) && Typed(d, m) && i < |d.fields| && f == d.fields[i] && Reached(d, m, i, p)
    requires FieldOk(f, d.unions) && FieldOk(g, unionsG) && ExtendsField(g, f)
    requires TypedSlot(g, s) && |which| == unionsG && d.unions <= unionsG
    requires m.slots[i] == SharedSlot(f, g, s) && m.which == which[..d.unions]
    requires EncodeField(g, unionsG, s, which).Some? && FieldFits(g, unionsG, s, which)
    requires EncodeField(f, d.unions, m.slots[i], m.which).Some?
    ensures ParseFields(d, EncodeField(g, unionsG, s, which).value, p) == ParseFields(d, EncodeField(f, d.unions, m.slots[i], m.which).value, p)
    decreases f, 4
  {
    assert FreshSlot(f, d.unions, p.m.slots[i], p.m.which);
    if !f.ltype.LSubmessage? {
      PlainField(f, d.unions, g, unionsG, s, which);
    } else if IsArray(f.htype) {
      if Count(g, s) > 0 {
        ArrayAlike(d, m, i, f, g, unionsG, s, p);
      }
    } else if EncodeField(g, unionsG, s, which).value != [] {
      SingleAlike(d, m, i, f, g, unionsG, s, which, p);
    } else if f.htype.Singular? {
      DefaultShared(f, d.unions, g, unionsG, s.v);
    }
  }

  lemma {:induction false} FieldsAlike(d: MsgDesc, e: MsgDesc, m: Msg, i: nat, k: nat, p: Progress)
    requires WellFormed(d) && WellFormed(e) && Extends(e, d) && Typed(e, m) && Between(d, e, i, k)
    requires EncodeFrom(e, m, k).Some? && PayloadsFit(e, m, k) && Reached(d, Shared(d, e, m), i, p)
    ensures EncodeFrom(d, Shared(d, e, m), i).Some?
    ensures ParseFields(d, EncodeFrom(e, m, k).value, p) == ParseFields(d, EncodeFrom(d, Shared(d, e, m), i).value, p)
    decreases d, |e.fields| - k
  {
    if k == |e.fields| {
      AllShared(d, e, i);
    } else if i < |d.fields| && e.fields[k].tag == d.fields[i].tag {
      SharedFieldAlike(d, e, m, i, k, p);
    } else {
      ExtraNext(d, e, i, k);
      ExtraSkipped(d, e, m, k, p);
      FieldsAlike(d, e, m, i, k + 1, p);
    }
  }

  /** A field the receiver lacks, in front of the others. */
  lemma ExtraSkipped(d: MsgDesc, e: MsgDesc, m: Msg, k: nat, p: Progress)
    requires WellFormed(d) && WellFormed(e) && Typed(e, m) && Typed(d, p.m) && k < |e.fields| && Lacks(d, e.fields[k].tag)
    requires EncodeFrom(e, m, k).Some? && PayloadsFit(e, m, k)
    ensures EncodeFrom(e, m, k + 1).Some? && PayloadsFit(e, m, k + 1)
    ensures ParseFields(d, EncodeFrom(e, m, k).value, p) == ParseFields(d, EncodeFrom(e, m, k + 1).value, p)
  {
    FieldsEncode(e, m, k);
    var bytes := EncodeField(e.fields[k], e.unions, m.slots[k], m.which).value;
    FieldUnknown(d, e.fields[k], e.unions, m.slots[k], m.which, []);
    assert bytes + [] == bytes;
    UnknownSkipped(d, bytes, p);
    FieldsAppend(d, bytes, p, EncodeFrom(e, m, k + 1).value);
  }

  lemma {:induction false} SharedFieldAlike(d: MsgDesc, e: MsgDesc, m: Msg, i: nat, k: nat, p: Progress)
    requires WellFormed(d) && WellFormed(e) && Extends(e, d) && Typed(e, m) && Between(d, e, i, k)
    requires i < |d.fields| && k < |e.fields| && e.fields[k].tag == d.fields[i].tag
    requires EncodeFrom(e, m, k).Some? && PayloadsFit(e, m, k) && Reached(d, Shared(d, e, m), i, p)
    ensures EncodeFrom(d, Shared(d, e, m), i).Some?
    ensures ParseFields(d, EncodeFrom(e, m, k).value, p) == ParseFields(d, EncodeFrom(d, Shared(d, e, m), i).value, p)
    decreases d, |e.fields| - k, 0
  {
    var shared, f, g := Shared(d, e, m), d.fields[i], e.fields[k];
    SharedNext(d, e, i, k);
    FieldsEncode(e, m, k);
    assert shared.slots[i] == SharedAt(d, e, m, i);
    FieldShrinks(f, d.unions, g, e.unions, m.slots[k], m.which);
    FieldAlike(d, shared, i, f, g, e.unions, m.slots[k], m.which, p);
    Shrinks(d, e, m, i + 1, k + 1);
    var a, b := EncodeField(g, e.unions, m.slots[k], m.which).value, EncodeField(f, d.unions, shared.slots[i], shared.which).value;
    var next := FieldStep(d, shared, i, f, shared.slots[i], p, []);
    assert b + [] == b;
    BothStep(d, a, b, p, next, EncodeFrom(e, m, k + 1).value, EncodeFrom(d, shared, i + 1).value);
    FieldsEncode(d, shared, i);
    FieldsAlike(d, e, m, i + 1, k + 1, next);
  }

  /**
   Forward compatibility. What a sender with more fields encodes, a receiver decodes to the fields
   they share, nested messages included, over whatever its destination held.
   */
  lemma NewerSender(d: MsgDesc, e: MsgDesc, m: Msg, m0: Msg)
    requires WellFormed(d) && WellFormed(e) && Extends(e, d) && Typed(e, m) && Typed(d, m0)
    requires Encode(e, m).Some? && PayloadsFit(e, m, 0)
    ensures var r := ParseMsg(d, Encode(e, m).value, m0, true);
            r.Some? && Same(d, Shared(d, e, m), r.value)
  {
    DefaultFresh(d, m0);
    Shrinks(d, e, m, 0, 0);
    FieldsAlike(d, e, m, 0, 0, Start(d, m0, true));
    MsgRoundTrip(d, Shared(d, e, m), m0, true);
  }
}
