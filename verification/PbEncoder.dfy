/**
 The encoder's methods. Each is proved to append exactly the bytes of the function in
 PbEncode, on a counting stream and on a buffer alike: so a counting pass agrees with the
 writing pass at every nesting level, and a length prefix is always the length of what follows.
 */
module PbEncoder {
  import opened Common
  import opened PbVarint
  import opened PbStream
  import opened PbWire
  import opened PbMessage
  import opened PbEncode

  /** pb_enc_varint: also how the elements of packed bool arrays are written. */
  method EncodeInteger(stream: OStream, f: Field, v: Value) returns (ok: bool)
    requires stream.Valid() && SizeOk(f) && TypedValue(f, v)
    requires Packable(f.ltype) && !f.ltype.LFixed32? && !f.ltype.LFixed64?
    modifies stream, stream.buf
    ensures stream.Appended(ok, Some(EncodeScalar(f, v)))
  {
    if f.ltype.LUVarint? {
      ok := EncodeVarint(stream, v.n);
    } else if f.ltype.LSVarint? {
      ok := EncodeSVarint(stream, v.n);
    } else {
      ok := EncodeVarint(stream, Unsigned64(v.n));
    }
  }

  /** pb_enc_fixed, which goes by the size of the field. */
  method EncodeFixed(stream: OStream, f: Field, v: Value) returns (ok: bool)
    requires stream.Valid() && SizeOk(f) && TypedValue(f, v) && (f.ltype.LFixed32? || f.ltype.LFixed64?)
    modifies stream, stream.buf
    ensures stream.Appended(ok, Some(EncodeScalar(f, v)))
  {
    if f.dataSize == 4 {
      ok := stream.Write(LittleEndian(v.n, 4));
    } else {
      ok := stream.Write(LittleEndian(v.n, 8));
    }
  }

  method EncodePayload(stream: OStream, data: seq<byte>) returns (ok: bool)
    requires stream.Valid()
    modifies stream, stream.buf
    ensures stream.Appended(ok, WithLength(data))
  {
    if |data| >= TWO64 {
      return false;
    }
    ok := EncodeString(stream, data);
  }

  /** pb_enc_string: the text up to NUL, which must come before the end of the buffer. */
  method EncodeText(stream: OStream, f: Field, unions: nat, v: Value) returns (ok: bool)
    requires stream.Valid() && FieldOk(f, unions) && f.ltype.LString? && TypedValue(f, v)
    modifies stream, stream.buf
    ensures stream.Appended(ok, EncodeValue(f, unions, v))
  {
    var maxSize := f.dataSize - 1;
    var size := 0;
    while size < maxSize && v.buf[size] != 0
      invariant 0 <= size <= maxSize
      invariant forall i :: 0 <= i < size ==> v.buf[i] != 0
    {
      size := size + 1;
    }
    if v.buf[size] != 0 {
      return false;
    }
    assert size == StrLen(v.buf);
    ok := EncodePayload(stream, v.buf[..size]);
  }

  /** pb_encode_submessage: a counting pass for the length, then the same pass into a window of that size. */
  method EncodeSubmessage(stream: OStream, sub: MsgDesc, m: Msg) returns (ok: bool)
    requires stream.Valid() && WellFormed(sub) && Typed(sub, m)
    modifies stream, stream.buf
    ensures stream.Appended(ok, var e := Encode(sub, m); if e.None? then None else WithLength(e.value))
    decreases sub, |sub.fields| + 1
  {
    var counter := new OStream.Sizing();
    ok := EncodeMessage(counter, sub, m);
    if !ok {
      return;
    }
    var size := counter.bytesWritten;
    if size >= TWO64 {
      return false;
    }
    ghost var v0 := stream.View();
    ghost var payload := Encode(sub, m).value;
    ok := EncodeVarint(stream, size);
    if !ok {
      return;
    }
    ghost var v1 := stream.View();
    if stream.buf == null {
      stream.Count(size);
      Then(v0, Some(Varint(size)), v1, true, Some(payload), stream.View());
      return true;
    }
    if stream.bytesWritten + size > stream.maxSize {
      return false;
    }
    var window := new OStream.Window(stream, size);
    var status := EncodeMessage(window, sub, m);
    stream.bytesWritten := stream.bytesWritten + window.bytesWritten;
    stream.state := window.state;
    ok := status && window.bytesWritten == size;  // otherwise "submsg size changed"
    Then(v0, Some(Varint(size)), v1, ok, Some(payload), stream.View());
  }

  /** The switch of encode_basic_field. */
  method EncodeContents(stream: OStream, f: Field, unions: nat, v: Value) returns (ok: bool)
    requires stream.Valid() && FieldOk(f, unions) && TypedValue(f, v)
    modifies stream, stream.buf
    ensures stream.Appended(ok, EncodeValue(f, unions, v))
    decreases f, 0
  {
    match f.ltype
    case LBool => ok := EncodeVarint(stream, if v.n != 0 then 1 else 0);
    case LVarint => ok := EncodeInteger(stream, f, v);
    case LUVarint => ok := EncodeInteger(stream, f, v);
    case LSVarint => ok := EncodeInteger(stream, f, v);
    case LFixed32 => ok := EncodeFixed(stream, f, v);
    case LFixed64 => ok := EncodeFixed(stream, f, v);
    case LBytes =>
      if |v.b| > f.dataSize - 2 {
        return false;
      }
      ok := EncodePayload(stream, v.b);
    case LString => ok := EncodeText(stream, f, unions, v);
    case LFixedBytes => ok := EncodePayload(stream, v.b);
    case LSubmessage(sub) => ok := EncodeSubmessage(stream, sub, v.m);
  }

  /** encode_basic_field. */
  method EncodeBasicField(stream: OStream, f: Field, unions: nat, v: Value) returns (ok: bool)
    requires stream.Valid() && FieldOk(f, unions) && TypedValue(f, v)
    modifies stream, stream.buf
    ensures stream.Appended(ok, EncodeRecord(f, unions, v))
    decreases f, 1
  {
    ghost var v0 := stream.View();
    ok := EncodeTag(stream, WireType(f.ltype), f.tag);
    if !ok {
      return;
    }
    ghost var v1 := stream.View();
    ok := EncodeContents(stream, f, unions, v);
    Then(v0, Some(Varint(Key(WireType(f.ltype), f.tag))), v1, ok, EncodeValue(f, unions, v), stream.View());
  }

  method EncodeElement(stream: OStream, f: Field, v: Value) returns (ok: bool)
    requires stream.Valid() && SizeOk(f) && TypedValue(f, v) && Packable(f.ltype)
    modifies stream, stream.buf
    ensures stream.Appended(ok, Some(EncodeScalar(f, v)))
  {
    if f.ltype.LFixed32? || f.ltype.LFixed64? {
      ok := EncodeFixed(stream, f, v);
    } else {
      ok := EncodeInteger(stream, f, v);
    }
  }

  /** The elements of a packed array, one after the other. */
  method EncodeElements(stream: OStream, f: Field, items: seq<Value>) returns (ok: bool)
    requires stream.Valid() && Packable(f.ltype) && SizeOk(f)
    requires forall i :: 0 <= i < |items| ==> TypedValue(f, items[i])
    modifies stream, stream.buf
    ensures stream.Appended(ok, Some(EncodePacked(f, items)))
  {
    ghost var v0 := stream.View();
    ghost var done: seq<byte> := [];
    var i := 0;
    ConcatUnit(Some(EncodePacked(f, items)));
    assert items[0..] == items;
    while i < |items|
      invariant 0 <= i <= |items|
      invariant stream.Appended(true, Some(done))
      invariant Some(EncodePacked(f, items)) == Concat(Some(done), Some(EncodePacked(f, items[i..])))
    {
      NextElement(f, items, i, done);
      ghost var v := stream.View();
      ok := EncodeElement(stream, f, items[i]);
      Then(v0, Some(done), v, ok, Some(EncodeScalar(f, items[i])), stream.View());
      if !ok {
        return;
      }
      done := done + EncodeScalar(f, items[i]);
      i := i + 1;
    }
    ok := true;
  }

  lemma NextElement(f: Field, items: seq<Value>, i: nat, done: seq<byte>)
    requires Packable(f.ltype) && SizeOk(f) && i < |items|
    requires forall e :: 0 <= e < |items| ==> TypedValue(f, items[e])
    ensures Concat(Some(done), Some(EncodePacked(f, items[i..]))) ==
            Concat(Some(done + EncodeScalar(f, items[i])), Some(EncodePacked(f, items[i + 1..])))
  {
    assert items[i..][1..] == items[i + 1..];
    ConcatStep(done, Some(EncodeScalar(f, items[i])), Some(EncodePacked(f, items[i + 1..])));
  }

  /** How much a packed array takes; integers have to be encoded to know. */
  method PackedSize(f: Field, items: seq<Value>) returns (size: nat)
    requires Packable(f.ltype) && SizeOk(f)
    requires forall i :: 0 <= i < |items| ==> TypedValue(f, items[i])
    ensures size == |EncodePacked(f, items)|
  {
    if f.ltype.LFixed32? || f.ltype.LFixed64? {
      FixedSize(f, items);
      size := (if f.ltype.LFixed32? then 4 else 8) * |items|;
    } else {
      var counter := new OStream.Sizing();
      var ok := EncodeElements(counter, f, items);
      size := counter.bytesWritten;
    }
  }

  lemma {:induction false} FixedSize(f: Field, items: seq<Value>)
    requires SizeOk(f) && (f.ltype.LFixed32? || f.ltype.LFixed64?)
    requires forall i :: 0 <= i < |items| ==> TypedValue(f, items[i])
    ensures |EncodePacked(f, items)| == (if f.ltype.LFixed32? then 4 else 8) * |items|
  {
    if items != [] {
      FixedSize(f, items[1..]);
    }
  }

  /** The packed half of encode_array, after the key. */
  method EncodePackedArray(stream: OStream, f: Field, items: seq<Value>) returns (ok: bool)
    requires stream.Valid() && Packable(f.ltype) && SizeOk(f)
    requires forall i :: 0 <= i < |items| ==> TypedValue(f, items[i])
    modifies stream, stream.buf
    ensures stream.Appended(ok, WithLength(EncodePacked(f, items)))
  {
    var size := PackedSize(f, items);
    if size >= TWO64 {
      return false;
    }
    ghost var v0 := stream.View();
    ok := EncodeVarint(stream, size);
    if !ok {
      return;
    }
    ghost var v1 := stream.View();
    if stream.buf == null {
      stream.Count(size);
    } else {
      ok := EncodeElements(stream, f, items);
    }
    Then(v0, Some(Varint(size)), v1, ok, Some(EncodePacked(f, items)), stream.View());
  }

  /** The unpacked half of encode_array: every element is a record of its own. */
  method EncodeUnpackedArray(stream: OStream, f: Field, unions: nat, items: seq<Value>) returns (ok: bool)
    requires stream.Valid() && FieldOk(f, unions) && forall i :: 0 <= i < |items| ==> TypedValue(f, items[i])
    modifies stream, stream.buf
    ensures stream.Appended(ok, EncodeItems(f, unions, items))
    decreases f, 2
  {
    ghost var v0 := stream.View();
    ghost var done: seq<byte> := [];
    var i := 0;
    ConcatUnit(EncodeItems(f, unions, items));
    assert items[0..] == items;
    while i < |items|
      invariant 0 <= i <= |items|
      invariant stream.Appended(true, Some(done))
      invariant EncodeItems(f, unions, items) == Concat(Some(done), EncodeItems(f, unions, items[i..]))
    {
      assert items[i..][1..] == items[i + 1..];
      ghost var bytes := EncodeRecord(f, unions, items[i]);
      ConcatStep(done, bytes, EncodeItems(f, unions, items[i + 1..]));
      ghost var v := stream.View();
      ok := EncodeBasicField(stream, f, unions, items[i]);
      Then(v0, Some(done), v, ok, bytes, stream.View());
      if !ok {
        return;
      }
      done := done + bytes.value;
      i := i + 1;
    }
    ok := true;
  }

  /** encode_array. */
  method EncodeArrayField(stream: OStream, f: Field, unions: nat, s: Slot) returns (ok: bool)
    requires stream.Valid() && FieldOk(f, unions) && IsArray(f.htype) && TypedSlot(f, s)
    modifies stream, stream.buf
    ensures stream.Appended(ok, EncodeArray(f, unions, s))
    decreases f, 3
  {
    var count := Count(f, s);
    if count == 0 {
      ok := stream.Write([]);
    } else if count > f.arraySize {
      ok := false;
    } else if Packable(f.ltype) {
      ghost var v0 := stream.View();
      ok := EncodeTag(stream, WT_STRING, f.tag);
      if ok {
        ghost var v1 := stream.View();
        ok := EncodePackedArray(stream, f, s.items[..count]);
        Then(v0, Some(Varint(Key(WT_STRING, f.tag))), v1, ok, WithLength(EncodePacked(f, s.items[..count])), stream.View());
      }
    } else {
      ok := EncodeUnpackedArray(stream, f, unions, s.items[..count]);
    }
  }

  /** encode_field: presence first, then the contents. */
  method EncodeOneField(stream: OStream, f: Field, unions: nat, s: Slot, which: seq<nat>) returns (ok: bool)
    requires stream.Valid() && FieldOk(f, unions) && TypedSlot(f, s) && |which| == unions
    modifies stream, stream.buf
    ensures stream.Appended(ok, EncodeField(f, unions, s, which))
    decreases f, 4
  {
    if (f.htype.Oneof? && which[f.htype.union] != f.tag)
       || (f.htype.Optional? && !s.has)
       || (f.htype.Singular? && IsDefault(f, unions, s, which)) {
      ok := stream.Write([]);
    } else if IsArray(f.htype) {
      ok := EncodeArrayField(stream, f, unions, s);
    } else {
      ok := EncodeBasicField(stream, f, unions, s.v);
    }
  }

  /** pb_encode. */
  method EncodeMessage(stream: OStream, d: MsgDesc, m: Msg) returns (ok: bool)
    requires stream.Valid() && WellFormed(d) && Typed(d, m)
    modifies stream, stream.buf
    ensures stream.Appended(ok, Encode(d, m))
    decreases d, |d.fields|
  {
    ghost var v0 := stream.View();
    ghost var done: seq<byte> := [];
    var i := 0;
    ConcatUnit(Encode(d, m));
    while i < |d.fields|
      invariant 0 <= i <= |d.fields|
      invariant stream.Appended(true, Some(done))
      invariant Encode(d, m) == Concat(Some(done), EncodeFrom(d, m, i))
    {
      ghost var bytes := EncodeField(d.fields[i], d.unions, m.slots[i], m.which);
      ConcatStep(done, bytes, EncodeFrom(d, m, i + 1));
      ghost var v := stream.View();
      ok := EncodeOneField(stream, d.fields[i], d.unions, m.slots[i], m.which);
      Then(v0, Some(done), v, ok, bytes, stream.View());
      if !ok {
        return;
      }
      done := done + bytes.value;
      i := i + 1;
    }
    ok := true;
  }

  /** pb_get_encoded_size: what a counting pass reports is exactly the room a buffer needs. */
  method EncodedSize(d: MsgDesc, m: Msg) returns (ok: bool, size: nat)
    requires WellFormed(d) && Typed(d, m)
    ensures ok == Encode(d, m).Some?
    ensures ok ==> size == |Encode(d, m).value|
  {
    var counter := new OStream.Sizing();
    ok := EncodeMessage(counter, d, m);
    size := counter.bytesWritten;
  }

  /** Serialising into a buffer of the given size succeeds exactly when that size suffices. */
  method EncodeToBuffer(buffer: array<byte>, d: MsgDesc, m: Msg) returns (ok: bool, written: nat)
    requires WellFormed(d) && Typed(d, m)
    modifies buffer
    ensures ok == (Encode(d, m).Some? && |Encode(d, m).value| <= buffer.Length)
    ensures ok ==> written <= buffer.Length && buffer[..written] == Encode(d, m).value
  {
    var stream := new OStream.FromBuffer(buffer);
    ghost var before := stream.View();
    ok := EncodeMessage(stream, d, m);
    written := stream.bytesWritten;
    BufferFilled(before, ok, Encode(d, m), stream.View());
  }

  lemma BufferFilled(before: Written, ok: bool, enc: Option<seq<byte>>, after: Written)
    requires Step(before, ok, enc, after) && !before.counting && before.written == 0 && before.text == []
    ensures ok == (enc.Some? && |enc.value| <= before.maxSize)
    ensures ok ==> after.written == |enc.value| && after.text == enc.value
  {
  }
}
