/**
 What the encoder writes, seen by a reader of the specification: for every struct that encodes
 the bytes split into the records of its set fields, in order, each with its value as payload.
 */
module PbReads {
  import opened Common
  import opened PbVarint
  import opened PbMessage
  import opened PbEncode
  import Wire = PbWire
  import opened PbSpec

  // ----- numbers -----

  lemma {:induction false} VarintReads(n: nat, limit: nat, rest: seq<byte>)
    requires |Varint(n)| <= limit
    ensures ReadVarint(Varint(n) + rest, limit) == Some((n, rest))
  {
    if n >= 128 {
      VarintReads(n / 128, limit - 1, rest);
      assert Varint(n) + rest == [128 + n % 128] + (Varint(n / 128) + rest);
    }
  }

  lemma NumberReads(n: nat, rest: seq<byte>)
    requires n < TWO64
    ensures ReadVarint(Varint(n) + rest) == Some((n, rest))
  {
    VarintAtMostTen(n);
    VarintReads(n, 10, rest);
  }

  /** The 64-bit decoder reads what the specification's reader reads, as long as it fits in 64 bits. */
  lemma {:induction false} Decode64Reads(s: seq<byte>, k: nat)
    requires k <= 9
    ensures Decode64(s, k).Some? ==> ReadVarint(s, 10 - k) == Decode64(s, k)
    ensures ReadVarint(s, 10 - k).Some? && ReadVarint(s, 10 - k).value.0 < Room(k) ==> Decode64(s, k) == ReadVarint(s, 10 - k)
    decreases 9 - k
  {
    if s != [] && s[0] >= 0x80 && k < 9 {
      Decode64Reads(s[1..], k + 1);
    }
  }

  lemma {:induction false} FixedReads(n: nat, count: nat)
    requires n < Wire.Span(count)
    ensures ReadNumber(Wire.LittleEndian(n, count)) == n
  {
    if count > 0 {
      FixedReads(n / 256, count - 1);
    }
  }

  lemma Spans()
    ensures Wire.Span(4) == TWO32 && Wire.Span(8) == TWO64
  {
    assert Wire.Span(2) == 0x1_0000;
    assert Wire.Span(4) == 0x1_0000 * Wire.Span(2) by { assert Wire.Span(3) == 256 * Wire.Span(2); }
    assert Wire.Span(6) == 0x1_0000 * Wire.Span(4) by { assert Wire.Span(5) == 256 * Wire.Span(4); }
    assert Wire.Span(8) == 0x1_0000 * Wire.Span(6) by { assert Wire.Span(7) == 256 * Wire.Span(6); }
  }

  // ----- values -----

  /** The specification's wire type of a field type. */
  function WireTypeOf(l: LType): nat {
    if Packable(l) then ElementWireType(l) else 2
  }

  lemma ScalarReads(f: Field, unions: nat, v: Value, rest: seq<byte>) returns (p: Payload)
    requires FieldOk(f, unions) && Packable(f.ltype) && TypedValue(f, v)
    ensures ReadPayload(WireTypeOf(f.ltype), EncodeScalar(f, v) + rest) == Some((p, rest))
    ensures Spells(f, unions, v, p)
  {
    Spans();
    if f.ltype.LFixed32? {
      FixedReads(v.n, 4);
      ConcatSplit(Wire.LittleEndian(v.n, 4), rest);
      p := Fixed32(v.n);
    } else if f.ltype.LFixed64? {
      FixedReads(v.n, 8);
      ConcatSplit(Wire.LittleEndian(v.n, 8), rest);
      p := Fixed64(v.n);
    } else {
      p := IntegerReads(f, unions, v, rest);
    }
  }

  lemma IntegerReads(f: Field, unions: nat, v: Value, rest: seq<byte>) returns (p: Payload)
    requires FieldOk(f, unions) && TypedValue(f, v)
    requires f.ltype.LBool? || f.ltype.LVarint? || f.ltype.LUVarint? || f.ltype.LSVarint?
    ensures ReadPayload(0, EncodeScalar(f, v) + rest) == Some((p, rest))
    ensures Spells(f, unions, v, p)
  {
    var n: nat := if f.ltype.LSVarint? then ZigZag(v.n) else if f.ltype.LVarint? then Unsigned64(v.n) else v.n;
    if f.ltype.LSVarint? {
      ZigZagInterleaves(v.n);
    }
    NumberReads(n, rest);
    p := Number(n);
  }

  lemma LengthReads(payload: seq<byte>, rest: seq<byte>)
    requires |payload| < TWO64
    ensures ReadPayload(2, Varint(|payload|) + payload + rest) == Some((Bytes(payload), rest))
  {
    NumberReads(|payload|, payload + rest);
    assert Varint(|payload|) + payload + rest == Varint(|payload|) + (payload + rest);
    ConcatSplit(payload, rest);
  }

  lemma {:induction false} ValueReads(f: Field, unions: nat, v: Value, rest: seq<byte>) returns (p: Payload)
    requires FieldOk(f, unions) && TypedValue(f, v) && EncodeValue(f, unions, v).Some?
    ensures ReadPayload(WireTypeOf(f.ltype), EncodeValue(f, unions, v).value + rest) == Some((p, rest))
    ensures Spells(f, unions, v, p)
    decreases f, 0
  {
    if f.ltype.LBytes? || f.ltype.LFixedBytes? {
      LengthReads(v.b, rest);
      p := Bytes(v.b);
    } else if f.ltype.LString? {
      LengthReads(v.buf[..StrLen(v.buf)], rest);
      p := Bytes(v.buf[..StrLen(v.buf)]);
    } else if f.ltype.LSubmessage? {
      LengthReads(EncodeFrom(f.ltype.sub, v.m, 0).value, rest);
      p := Bytes(EncodeFrom(f.ltype.sub, v.m, 0).value);
      var rs := FieldsRead(f.ltype.sub, v.m, 0);
    } else {
      p := ScalarReads(f, unions, v, rest);
    }
  }

  /** A record in front of others. */
  lemma {:induction false} RecordReads(f: Field, unions: nat, v: Value, rest: seq<byte>, more: seq<Record>) returns (p: Payload)
    requires FieldOk(f, unions) && TypedValue(f, v) && EncodeRecord(f, unions, v).Some?
    requires ReadRecords(rest) == Some(more)
    ensures ReadRecords(EncodeRecord(f, unions, v).value + rest) == Some([Record(f.tag, p)] + more)
    ensures Spells(f, unions, v, p)
    decreases f, 1
  {
    var value := EncodeValue(f, unions, v).value;
    assert WireType(f.ltype) == WireTypeOf(f.ltype) < 8;
    p := ValueReads(f, unions, v, rest);
    KeyReads(f.tag, WireTypeOf(f.ltype), value + rest, p, rest, more);
    Assoc(Varint(Wire.Key(WireTypeOf(f.ltype), f.tag)), value, rest);
  }

  lemma KeyReads(tag: nat, wireType: nat, tail: seq<byte>, p: Payload, rest: seq<byte>, more: seq<Record>)
    requires 0 < tag < 0x1_0000 && wireType < 8
    requires ReadPayload(wireType, tail) == Some((p, rest)) && ReadRecords(rest) == Some(more)
    ensures ReadRecords(Varint(Wire.Key(wireType, tag)) + tail) == Some([Record(tag, p)] + more)
  {
    KeyParts(tag, wireType);
    RecordBehindKey(Wire.Key(wireType, tag), tail, p, rest);
  }

  lemma KeyParts(tag: nat, wireType: nat)
    requires wireType < 8
    ensures Wire.Key(wireType, tag) / 8 == tag && Wire.Key(wireType, tag) % 8 == wireType
  {
  }

  lemma RecordBehindKey(key: nat, tail: seq<byte>, p: Payload, rest: seq<byte>)
    requires 0 < key / 8 && key < 0x8_0000 && ReadPayload(key % 8, tail) == Some((p, rest))
    ensures ReadRecord(Varint(key) + tail) == Some((Record(key / 8, p), rest))
  {
    NumberReads(key, tail);
  }

  // ----- arrays -----

  lemma SpellsNext(f: Field, unions: nat, items: seq<Value>, p: Payload, ps: seq<Payload>)
    requires FieldOk(f, unions) && items != [] && forall e :: 0 <= e < |items| ==> TypedValue(f, items[e])
    requires Spells(f, unions, items[0], p) && SpellsEach(f, unions, items[1..], ps)
    ensures SpellsEach(f, unions, items, [p] + ps)
  {
    forall e | 0 < e < |items|
      ensures Spells(f, unions, items[e], ([p] + ps)[e])
    {
      assert items[e] == items[1..][e - 1];
    }
  }

  lemma {:induction false} PackedReads(f: Field, unions: nat, items: seq<Value>) returns (ps: seq<Payload>)
    requires FieldOk(f, unions) && Packable(f.ltype) && forall e :: 0 <= e < |items| ==> TypedValue(f, items[e])
    ensures ReadElements(ElementWireType(f.ltype), EncodePacked(f, items)) == Some(ps)
    ensures SpellsEach(f, unions, items, ps)
  {
    ps := [];
    if items != [] {
      var more := PackedReads(f, unions, items[1..]);
      var p := ScalarReads(f, unions, items[0], EncodePacked(f, items[1..]));
      ps := [p] + more;
      SpellsNext(f, unions, items, p, more);
    }
  }

  lemma {:induction false} ItemsRead(f: Field, unions: nat, items: seq<Value>, rest: seq<byte>, more: seq<Record>) returns (rs: seq<Record>)
    requires FieldOk(f, unions) && forall e :: 0 <= e < |items| ==> TypedValue(f, items[e])
    requires EncodeItems(f, unions, items).Some? && ReadRecords(rest) == Some(more)
    ensures ReadRecords(EncodeItems(f, unions, items).value + rest) == Some(rs + more)
    ensures (forall r :: r in rs ==> r.number == f.tag) && SpellsEach(f, unions, items, Payloads(rs))
    decreases f, 2, |items|
  {
    rs := [];
    if items == [] {
      assert [] + rest == rest && [] + more == more;
    } else {
      var tail := ItemsRead(f, unions, items[1..], rest, more);
      var p := RecordReads(f, unions, items[0], EncodeItems(f, unions, items[1..]).value + rest, tail + more);
      rs := [Record(f.tag, p)] + tail;
      Assoc(EncodeRecord(f, unions, items[0]).value, EncodeItems(f, unions, items[1..]).value, rest);
      Assoc([Record(f.tag, p)], tail, more);
      assert Payloads(rs) == [p] + Payloads(tail);
      SpellsNext(f, unions, items, p, Payloads(tail));
    }
  }

  lemma PackedRecord(tag: nat, payload: seq<byte>, rest: seq<byte>, more: seq<Record>)
    requires 0 < tag < 0x1_0000 && |payload| < TWO64 && ReadRecords(rest) == Some(more)
    ensures ReadRecords(Varint(Wire.Key(2, tag)) + (Varint(|payload|) + payload) + rest) == Some([Record(tag, Bytes(payload))] + more)
  {
    LengthReads(payload, rest);
    KeyReads(tag, 2, Varint(|payload|) + payload + rest, Bytes(payload), rest, more);
    Assoc(Varint(Wire.Key(2, tag)), Varint(|payload|) + payload, rest);
  }

  // ----- fields -----

  lemma {:induction false} DefaultIsUnset(f: Field, unions: nat, v: Value)
    requires FieldOk(f, unions) && TypedValue(f, v)
    ensures IsDefaultValue(f, unions, v) <==> Unset(f, unions, v)
    decreases f, 0
  {
    if f.ltype.LSubmessage? {
      DefaultsAreUnset(f.ltype.sub, v.m, 0);
    }
  }

  lemma {:induction false} DefaultsAreUnset(d: MsgDesc, m: Msg, i: nat)
    requires WellFormed(d) && Typed(d, m) && i <= |d.fields|
    ensures IsDefaultFrom(d, m, i) <==> forall j :: i <= j < |d.fields| ==> UnsetSlot(d.fields[j], d.unions, m.slots[j], m.which)
    decreases d, |d.fields| - i
  {
    if i < |d.fields| {
      var f := d.fields[i];
      if f.htype.Singular? {
        DefaultIsUnset(f, d.unions, m.slots[i].v);
      }
      assert IsDefault(f, d.unions, m.slots[i], m.which) <==> UnsetSlot(f, d.unions, m.slots[i], m.which);
      DefaultsAreUnset(d, m, i + 1);
    }
  }

  lemma {:induction false} ArrayReads(f: Field, unions: nat, s: Slot, which: seq<nat>, rest: seq<byte>, more: seq<Record>) returns (rs: seq<Record>)
    requires FieldOk(f, unions) && TypedSlot(f, s) && |which| == unions && IsArray(f.htype)
    requires EncodeArray(f, unions, s).Some? && ReadRecords(rest) == Some(more)
    ensures ReadRecords(EncodeArray(f, unions, s).value + rest) == Some(rs + more)
    ensures SpellsField(f, unions, s, which, rs)
    decreases f, 3
  {
    rs := [];
    var items := Elements(s);
    if Count(f, s) == 0 {
      assert [] + rest == rest && [] + more == more && items == [];
    } else {
      assert items == s.items[..Count(f, s)];
      if Packable(f.ltype) {
        var ps := PackedReads(f, unions, items);
        PackedRecord(f.tag, EncodePacked(f, items), rest, more);
        rs := [Record(f.tag, Bytes(EncodePacked(f, items)))];
      } else {
        rs := ItemsRead(f, unions, items, rest, more);
      }
    }
  }

  lemma {:induction false} FieldReads(f: Field, unions: nat, s: Slot, which: seq<nat>, rest: seq<byte>, more: seq<Record>) returns (rs: seq<Record>)
    requires FieldOk(f, unions) && TypedSlot(f, s) && |which| == unions
    requires EncodeField(f, unions, s, which).Some? && ReadRecords(rest) == Some(more)
    ensures ReadRecords(EncodeField(f, unions, s, which).value + rest) == Some(rs + more)
    ensures SpellsField(f, unions, s, which, rs)
    decreases f, 4
  {
    if IsArray(f.htype) {
      rs := ArrayReads(f, unions, s, which, rest, more);
    } else {
      if f.htype.Singular? {
        DefaultIsUnset(f, unions, s.v);
      }
      if HasRecord(f, unions, s, which) {
        var p := RecordReads(f, unions, s.v, rest, more);
        rs := [Record(f.tag, p)];
      } else {
        rs := [];
        assert [] + rest == rest && [] + more == more;
      }
    }
  }

  lemma {:induction false} FieldsRead(d: MsgDesc, m: Msg, i: nat) returns (rs: seq<Record>)
    requires WellFormed(d) && Typed(d, m) && i <= |d.fields| && EncodeFrom(d, m, i).Some?
    ensures ReadRecords(EncodeFrom(d, m, i).value) == Some(rs) && SpellsFrom(d, m, i, rs)
    decreases d, |d.fields| - i
  {
    if i == |d.fields| {
      rs := [];
    } else {
      var more := FieldsRead(d, m, i + 1);
      var front := FieldReads(d.fields[i], d.unions, m.slots[i], m.which, EncodeFrom(d, m, i + 1).value, more);
      rs := front + more;
      ConcatSplit(front, more);
    }
  }

  /**
   The encoder against the specification. A reader of the specification splits the bytes of any
   struct that encodes into the records of its set fields, in the order of the fields.
   */
  lemma EncodeReads(d: MsgDesc, m: Msg)
    requires WellFormed(d) && Typed(d, m) && Encode(d, m).Some?
    ensures var rs := ReadRecords(Encode(d, m).value);
            rs.Some? && SpellsFrom(d, m, 0, rs.value)
  {
    var rs := FieldsRead(d, m, 0);
  }
}
