/**
 Skipping, seen from the writing side: a receiver passes over every payload that a reader of the
 specification can read, and so over every record of a field it does not have.
 */
module PbSkip {
  import opened Common
  import opened PbVarint
  import opened PbWire
  import opened PbMessage
  import opened PbEncode
  import opened PbParse
  import opened PbRoundTrip
  import opened PbUnknown
  import Reads = PbReads
  import Spec = PbSpec

  // ----- payloads -----

  lemma {:induction false} VarintSkipped(s: seq<byte>, limit: nat)
    requires Spec.ReadVarint(s, limit).Some?
    ensures AfterVarint(s) == Some(Spec.ReadVarint(s, limit).value.1)
  {
    if s[0] >= 0x80 {
      VarintSkipped(s[1..], limit - 1);
    }
  }

  /** The two number decoders against the specification's reader, for numbers they have room for. */
  lemma NumbersAgree(s: seq<byte>)
    requires Spec.ReadVarint(s).Some?
    ensures Decode64(s) == (if Spec.ReadVarint(s).value.0 < 0x1_0000_0000_0000_0000 then Spec.ReadVarint(s) else None)
    ensures Spec.ReadVarint(s).value.0 < 0x1_0000_0000 ==> Decode32(s) == Spec.ReadVarint(s)
  {
    RoomAtStart();
    Reads.Decode64Reads(s, 0);
    Decode32Agrees(s);
    if Decode64(s).Some? {
      Decode64Fits(s);
    }
  }

  /** Every payload of the specification is passed over whole; lengths are read as 32-bit numbers. */
  lemma PayloadSkipped(wireType: nat, s: seq<byte>)
    requires Spec.ReadPayload(wireType, s).Some?
    requires Spec.ReadPayload(wireType, s).value.0.Bytes? ==> |Spec.ReadPayload(wireType, s).value.0.b| < TWO32
    ensures AfterField(wireType, s) == Some(Spec.ReadPayload(wireType, s).value.1)
  {
    match wireType
    case 0 => VarintSkipped(s, 10);
    case 2 => NumbersAgree(s);
    case _ =>
  }

  /** Of any other wire type nothing is passed over. */
  lemma NothingElseSkipped(wireType: nat, s: seq<byte>)
    requires AfterField(wireType, s).Some?
    ensures wireType in {0, 1, 2, 5}
    ensures wireType == 1 || wireType == 5 ==> Spec.ReadPayload(wireType, s).Some?
  {
  }

  // ----- what the encoder writes -----

  /** The encoded value of any field is passed over by its wire type, whatever follows. */
  lemma ValueSkipped(f: Field, unions: nat, v: Value, rest: seq<byte>)
    requires FieldOk(f, unions) && TypedValue(f, v)
    requires EncodeValue(f, unions, v).Some? && PayloadFits(f, unions, v)
    ensures AfterField(WireType(f.ltype), EncodeValue(f, unions, v).value + rest) == Some(rest)
  {
    var p := Reads.ValueReads(f, unions, v, rest);
    match f.ltype {
      case LBytes => Reads.LengthReads(v.b, rest);
      case LString => Reads.LengthReads(v.buf[..StrLen(v.buf)], rest);
      case LFixedBytes => Reads.LengthReads(v.b, rest);
      case LSubmessage(sub) => Reads.LengthReads(EncodeFrom(sub, v.m, 0).value, rest);
      case _ =>
    }
    PayloadSkipped(WireType(f.ltype), EncodeValue(f, unions, v).value + rest);
  }

  predicate Lacks(d: MsgDesc, tag: nat) {
    Find(d.fields, tag) == |d.fields|
  }

  lemma KeyedUnknown(d: MsgDesc, wireType: nat, tag: nat, tail: seq<byte>, rest: seq<byte>)
    requires wireType < 8 && 0 < tag < 0x1_0000 && Lacks(d, tag)
    requires AfterField(wireType, tail) == Some(rest) && Unknown(d, rest)
    ensures Unknown(d, Varint(Key(wireType, tag)) + tail)
  {
    VarintRoundTrip32(Key(wireType, tag), tail);
    Reads.KeyParts(tag, wireType);
  }

  lemma RecordUnknown(d: MsgDesc, f: Field, unions: nat, v: Value, rest: seq<byte>)
    requires FieldOk(f, unions) && TypedValue(f, v) && Lacks(d, f.tag)
    requires EncodeRecord(f, unions, v).Some? && PayloadFits(f, unions, v) && Unknown(d, rest)
    ensures Unknown(d, EncodeRecord(f, unions, v).value + rest)
  {
    RecordBytes(f, unions, v, rest);
    ValueSkipped(f, unions, v, rest);
    KeyedUnknown(d, WireType(f.ltype), f.tag, EncodeValue(f, unions, v).value + rest, rest);
  }

  lemma {:induction false} ItemsUnknown(d: MsgDesc, f: Field, unions: nat, items: seq<Value>, rest: seq<byte>)
    requires FieldOk(f, unions) && Lacks(d, f.tag) && forall e :: 0 <= e < |items| ==> TypedValue(f, items[e])
    requires EncodeItems(f, unions, items).Some? && ItemsFit(f, unions, items) && Unknown(d, rest)
    ensures Unknown(d, EncodeItems(f, unions, items).value + rest)
    decreases |items|
  {
    if items == [] {
      assert [] + rest == rest;
    } else {
      ItemsBytes(f, unions, items, rest);
      ItemsUnknown(d, f, unions, items[1..], rest);
      RecordUnknown(d, f, unions, items[0], EncodeItems(f, unions, items[1..]).value + rest);
    }
  }

  lemma PackedUnknown(d: MsgDesc, f: Field, unions: nat, s: Slot, rest: seq<byte>)
    requires FieldOk(f, unions) && Lacks(d, f.tag) && TypedSlot(f, s) && IsArray(f.htype) && Packable(f.ltype)
    requires EncodeArray(f, unions, s).Some? && Count(f, s) != 0 && Unknown(d, rest)
    ensures Unknown(d, EncodeArray(f, unions, s).value + rest)
  {
    var payload := EncodePacked(f, s.items[..Count(f, s)]);
    PackedBytes(f, unions, s, rest);
    PackedShort(f, s.items[..Count(f, s)]);
    LengthRoundTrip(payload, rest);
    KeyedUnknown(d, WT_STRING, f.tag, WithLength(payload).value + rest, rest);
  }

  /** Everything a sender writes for a field the receiver lacks is unknown to it, and so skipped. */
  lemma FieldUnknown(d: MsgDesc, f: Field, unions: nat, s: Slot, which: seq<nat>, rest: seq<byte>)
    requires FieldOk(f, unions) && TypedSlot(f, s) && |which| == unions && Lacks(d, f.tag)
    requires EncodeField(f, unions, s, which).Some? && FieldFits(f, unions, s, which) && Unknown(d, rest)
    ensures Unknown(d, EncodeField(f, unions, s, which).value + rest)
  {
    var bytes := EncodeField(f, unions, s, which).value;
    if bytes == [] {
      assert [] + rest == rest;
    } else if IsArray(f.htype) {
      assert bytes == EncodeArray(f, unions, s).value;
      if Packable(f.ltype) {
        PackedUnknown(d, f, unions, s, rest);
      } else {
        ItemsUnknown(d, f, unions, s.items[..Count(f, s)], rest);
      }
    } else {
      RecordUnknown(d, f, unions, s.v, rest);
    }
  }

  // ----- what any sender writes -----

  ghost predicate Skippable(d: MsgDesc, r: Spec.Record) {
    Lacks(d, r.number) && r.number < 0x2000_0000 && (r.payload.Bytes? ==> |r.payload.b| < TWO32)
  }

  lemma KeyBelow(key: nat)
    requires key / 8 < 0x2000_0000
    ensures key < TWO32
  {
  }

  lemma FirstUnknown(d: MsgDesc, u: seq<byte>)
    requires Spec.ReadRecord(u).Some? && Skippable(d, Spec.ReadRecord(u).value.0) && Unknown(d, Spec.ReadRecord(u).value.1)
    ensures Unknown(d, u)
  {
    var (key, tail) := Spec.ReadVarint(u).value;
    KeyBelow(key);
    NumbersAgree(u);
    PayloadSkipped(key % 8, tail);
  }

  /** Whatever records of the specification come from fields the receiver lacks, it skips them. */
  lemma {:induction false} RecordsUnknown(d: MsgDesc, u: seq<byte>)
    requires Spec.ReadRecords(u).Some? && forall r :: r in Spec.ReadRecords(u).value ==> Skippable(d, r)
    ensures Unknown(d, u)
    decreases |u|
  {
    if u != [] {
      var (r, rest) := Spec.ReadRecord(u).value;
      assert r == Spec.ReadRecords(u).value[0] && Spec.ReadRecords(rest).value == Spec.ReadRecords(u).value[1..];
      RecordsUnknown(d, rest);
      FirstUnknown(d, u);
    }
  }
}
