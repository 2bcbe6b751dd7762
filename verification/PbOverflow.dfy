/**
 Where the round trip ends: lengths are written as 64-bit numbers and read as 32-bit ones, so a
 nested message of 2^32 bytes or more is written but not read back.
 */
module PbOverflow {
  import opened Common
  import opened PbVarint
  import opened PbWire
  import opened PbMessage
  import opened PbEncode
  import opened PbParse
  import opened PbRoundTrip

  /** From here on a length has the bits that make the decoder take it for a negative number. */
  const SIGN_LIKE := 0x7_8000_0000

  lemma KnownFails(d: MsgDesc, i: nat, wireType: nat, tail: seq<byte>, p: Progress, q: Progress)
    requires WellFormed(d) && Typed(d, p.m) && i < |d.fields| && wireType < 8
    requires Track(d, i, p) == Some(q)
    requires ParseSlot(d.fields[i], d.unions, wireType, tail, p.m.slots[i], p.m.which, q.fixedSize) == None
    ensures ParseFields(d, Varint(Key(wireType, d.fields[i].tag)) + tail, p) == None
  {
    var bytes := Varint(Key(wireType, d.fields[i].tag)) + tail;
    VarintRoundTrip32(Key(wireType, d.fields[i].tag), tail);
    FindAt(d, i);
    assert ParseRecord(d, bytes, p) == ParseKnown(d, i, wireType, tail, p);
  }

  /** A nested message whose length overflows. */
  lemma ValueFails(f: Field, unions: nat, v: Value, before: Value, rest: seq<byte>)
    requires FieldOk(f, unions) && TypedValue(f, v) && TypedValue(f, before) && EncodeValue(f, unions, v).Some?
    requires !PayloadFits(f, unions, v) && PayloadFits(f, unions, v, SIGN_LIKE)
    ensures ParseValue(f, unions, WireType(f.ltype), EncodeValue(f, unions, v).value + rest, before) == None
  {
    var payload := EncodeFrom(f.ltype.sub, v.m, 0).value;
    OverflowRejected(|payload|, payload + rest);
    assert Varint(|payload|) + payload + rest == Varint(|payload|) + (payload + rest);
  }

  lemma SlotFails(f: Field, unions: nat, s: Slot, which: seq<nat>, t: Slot, whichT: seq<nat>, fixedSize: nat, rest: seq<byte>)
    requires FieldOk(f, unions) && TypedSlot(f, s) && |which| == unions && Present(f, unions, s, which)
    requires TypedSlot(f, t) && |whichT| == unions
    requires TypedValue(f, s.v) && EncodeValue(f, unions, s.v).Some?
    requires !PayloadFits(f, unions, s.v) && PayloadFits(f, unions, s.v, SIGN_LIKE)
    ensures ParseSlot(f, unions, WireType(f.ltype), EncodeValue(f, unions, s.v).value + rest, t, whichT, fixedSize) == None
  {
    UnionValueTyped(f, unions);
    var unset := f.htype.Oneof? && whichT[f.htype.union] != f.tag;
    ValueFails(f, unions, s.v, if unset then UnionValue(f) else t.v, rest);
  }

  lemma SingleFails(d: MsgDesc, m: Msg, i: nat, f: Field, s: Slot, p: Progress, rest: seq<byte>)
    requires WellFormed(d) && Typed(d, m) && i < |d.fields| && Reached(d, m, i, p)
    requires f == d.fields[i] && s == m.slots[i] && FieldOk(f, d.unions) && TypedSlot(f, s) && Present(f, d.unions, s, m.which)
    requires TypedValue(f, s.v) && EncodeRecord(f, d.unions, s.v).Some?
    requires !PayloadFits(f, d.unions, s.v) && PayloadFits(f, d.unions, s.v, SIGN_LIKE)
    ensures ParseFields(d, EncodeRecord(f, d.unions, s.v).value + rest, p) == None
  {
    RecordBytes(f, d.unions, s.v, rest);
    var q := TrackFirst(d, i, p);
    SlotFails(f, d.unions, s, m.which, p.m.slots[i], p.m.which, q.fixedSize, rest);
    KnownFails(d, i, WireType(f.ltype), EncodeValue(f, d.unions, s.v).value + rest, p, q);
  }

  lemma ElementFails(d: MsgDesc, m: Msg, i: nat, f: Field, s: Slot, k: nat, p: Progress, rest: seq<byte>)
    requires WellFormed(d) && Typed(d, m) && i < |d.fields|
    requires f == d.fields[i] && s == m.slots[i] && FieldOk(f, d.unions) && TypedSlot(f, s)
    requires IsArray(f.htype) && !Packable(f.ltype) && k < f.arraySize && Filling(d, m, i, f, s, k, p)
    requires TypedValue(f, s.items[k]) && EncodeRecord(f, d.unions, s.items[k]).Some?
    requires !PayloadFits(f, d.unions, s.items[k]) && PayloadFits(f, d.unions, s.items[k], SIGN_LIKE)
    ensures ParseFields(d, EncodeRecord(f, d.unions, s.items[k]).value + rest, p) == None
  {
    RecordBytes(f, d.unions, s.items[k], rest);
    var q := TrackElement(d, m, i, f, s, k, p);
    var t := p.m.slots[i];
    var bytes := EncodeValue(f, d.unions, s.items[k]).value + rest;
    ValueFails(f, d.unions, s.items[k], t.items[k], rest);
    assert ParseSlot(f, d.unions, WireType(f.ltype), bytes, t, p.m.which, q.fixedSize) == ParseElement(f, d.unions, WireType(f.ltype), bytes, t, p.m.which, q.fixedSize);
    KnownFails(d, i, WireType(f.ltype), bytes, p, q);
  }

  lemma {:induction false} ItemsFail(d: MsgDesc, m: Msg, i: nat, f: Field, s: Slot, items: seq<Value>, k: nat, p: Progress, rest: seq<byte>)
    requires WellFormed(d) && Typed(d, m) && i < |d.fields|
    requires f == d.fields[i] && s == m.slots[i] && FieldOk(f, d.unions) && TypedSlot(f, s)
    requires IsArray(f.htype) && !Packable(f.ltype) && Filling(d, m, i, f, s, k, p)
    requires k + |items| <= f.arraySize && s.items[k..k + |items|] == items
    requires forall e :: 0 <= e < |items| ==> TypedValue(f, items[e])
    requires EncodeItems(f, d.unions, items).Some? && !ItemsFit(f, d.unions, items) && ItemsFit(f, d.unions, items, SIGN_LIKE)
    ensures ParseFields(d, EncodeItems(f, d.unions, items).value + rest, p) == None
    decreases |items|
  {
    assert items[0] == s.items[k];
    ItemsBytes(f, d.unions, items, rest);
    var tail := EncodeItems(f, d.unions, items[1..]).value + rest;
    if PayloadFits(f, d.unions, items[0]) {
      assert items[1..] == s.items[k + 1..k + 1 + |items[1..]|];
      var next := ElementStep(d, m, i, f, s, k, p, tail);
      ItemsFail(d, m, i, f, s, items[1..], k + 1, next, rest);
    } else {
      ElementFails(d, m, i, f, s, k, p, tail);
    }
  }

  lemma FieldFails(d: MsgDesc, m: Msg, i: nat, f: Field, s: Slot, p: Progress, rest: seq<byte>)
    requires WellFormed(d) && Typed(d, m) && i < |d.fields| && Reached(d, m, i, p)
    requires f == d.fields[i] && s == m.slots[i] && FieldOk(f, d.unions) && TypedSlot(f, s)
    requires EncodeField(f, d.unions, s, m.which).Some?
    requires !FieldFits(f, d.unions, s, m.which) && FieldFits(f, d.unions, s, m.which, SIGN_LIKE)
    ensures ParseFields(d, EncodeField(f, d.unions, s, m.which).value + rest, p) == None
  {
    if IsArray(f.htype) {
      assert FreshSlot(f, d.unions, p.m.slots[i], p.m.which);
      ItemsFail(d, m, i, f, s, s.items[..Count(f, s)], 0, p, rest);
    } else {
      SingleFails(d, m, i, f, s, p, rest);
    }
  }

  lemma {:induction false} FieldsFail(d: MsgDesc, m: Msg, i: nat, p: Progress)
    requires WellFormed(d) && Typed(d, m) && i <= |d.fields| && Reached(d, m, i, p)
    requires EncodeFrom(d, m, i).Some? && !PayloadsFit(d, m, i) && PayloadsFit(d, m, i, SIGN_LIKE)
    ensures ParseFields(d, EncodeFrom(d, m, i).value, p) == None
    decreases |d.fields| - i
  {
    FieldsEncode(d, m, i);
    var rest := EncodeFrom(d, m, i + 1).value;
    if FieldFits(d.fields[i], d.unions, m.slots[i], m.which) {
      var next := FieldStep(d, m, i, d.fields[i], m.slots[i], p, rest);
      FieldsFail(d, m, i + 1, next);
    } else {
      FieldFails(d, m, i, d.fields[i], m.slots[i], p, rest);
    }
  }

  /**
   The round trip with its exact condition, for messages whose nested messages stay below the
   lengths that look negative: it succeeds when they are below 2^32 bytes, and otherwise decoding fails.
   */
  lemma MsgRoundTripIff(d: MsgDesc, m: Msg, m0: Msg, init: bool)
    requires WellFormed(d) && Typed(d, m) && Typed(d, m0) && (init || Fresh(d, m0))
    requires Encode(d, m).Some? && PayloadsFit(d, m, 0, SIGN_LIKE)
    ensures var r := ParseMsg(d, Encode(d, m).value, m0, init);
            && (PayloadsFit(d, m, 0) ==> r.Some? && Same(d, m, r.value))
            && (r.Some? ==> PayloadsFit(d, m, 0))
  {
    if PayloadsFit(d, m, 0) {
      MsgRoundTrip(d, m, m0, init);
    } else {
      DefaultFresh(d, m0);
      FieldsFail(d, m, 0, Start(d, m0, init));
    }
  }
}
