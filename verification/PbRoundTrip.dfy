/**
 Decoding undoes encoding. For every descriptor and every struct that can be encoded, the
 decoder accepts the bytes and rebuilds the meaningful part of the struct over whatever the
 destination held; and fields it does not know change nothing.
 */
module PbRoundTrip {
  import opened Common
  import opened PbVarint
  import opened PbWire
  import opened PbMessage
  import opened PbEncode
  import opened PbParse

  // ----- one value -----

  lemma ScalarRoundTrip(f: Field, v: Value, rest: seq<byte>)
    requires Packable(f.ltype) && SizeOk(f) && TypedValue(f, v)
    ensures ParseNumber(f, EncodeScalar(f, v) + rest) == Some((v, rest))
  {
    if f.ltype.LBool? {
      VarintRoundTrip32(v.n, rest);
    } else if f.ltype.LFixed32? {
      FixedRoundTrip(v.n, 4, rest);
    } else if f.ltype.LFixed64? {
      FixedRoundTrip(v.n, 8, rest);
    } else {
      IntegerRoundTrip(f, v.n);
      VarintRoundTrip64(Pattern(f, v.n), rest);
    }
  }

  /** The unsigned number that goes on the wire for an integer field. */
  function Pattern(f: Field, n: int): nat
    requires SizeOk(f) && TypedValue(f, VInt(n)) && (f.ltype.LVarint? || f.ltype.LUVarint? || f.ltype.LSVarint?)
  {
    if f.ltype.LUVarint? then n else if f.ltype.LSVarint? then ZigZag(n) else Unsigned64(n)
  }

  lemma IntegerRoundTrip(f: Field, n: int)
    requires SizeOk(f) && TypedValue(f, VInt(n)) && (f.ltype.LVarint? || f.ltype.LUVarint? || f.ltype.LSVarint?)
    ensures Pattern(f, n) < TWO64 && NumberOf(f, Pattern(f, n)) == Some(VInt(n))
  {
    if f.ltype.LSVarint? {
      ZigZagInverse(n, 0);
    } else if f.ltype.LVarint? {
      SignedRoundTrip(n);
    }
  }

  lemma SignedRoundTrip(n: int)
    requires -TWO63 <= n < TWO63
    ensures Signed(Unsigned64(n), TWO64) == n
    ensures -TWO31 <= n < TWO31 ==> Signed(Unsigned64(n) % TWO32, TWO32) == n
  {
    if -TWO31 <= n < 0 {
      assert Unsigned64(n) == (n + TWO32) + 0xFFFF_FFFF * 0x1_0000_0000;
    }
  }

  lemma FixedRoundTrip(n: nat, count: nat, rest: seq<byte>)
    requires count in {4, 8} && n < (if count == 4 then TWO32 else TWO64)
    ensures Fixed(LittleEndian(n, count) + rest, count) == Some((VInt(n), rest))
  {
    SpanValues();
    LittleEndianRoundTrip(n, count);
    ConcatSplit(LittleEndian(n, count), rest);
  }

  lemma StrLenOf(s: seq<byte>, tail: seq<byte>)
    requires forall i :: 0 <= i < |s| ==> s[i] != 0
    ensures StrLen(s + [0] + tail) == |s|
  {
    var t := s + [0] + tail;
    assert t[|s|] == 0;
    assert forall i :: 0 <= i < |s| ==> t[i] == s[i];
  }

  /** The length prefix in front of a payload is read back, and the payload is what follows. */
  lemma LengthRoundTrip(payload: seq<byte>, rest: seq<byte>)
    requires |payload| < TWO32
    ensures WithLength(payload).Some?
    ensures Decode32(WithLength(payload).value + rest) == Some((|payload|, payload + rest))
    ensures (payload + rest)[..|payload|] == payload && (payload + rest)[|payload|..] == rest
    ensures Delimited(WithLength(payload).value + rest) == Some((payload, rest))
  {
    VarintRoundTrip32(|payload|, payload + rest);
    assert Varint(|payload|) + payload + rest == Varint(|payload|) + (payload + rest);
  }

  /** Exactly the lengths below 2^32 are read back: this is where the size limit comes from. */
  lemma LengthReadsIff(payload: seq<byte>, rest: seq<byte>)
    requires |payload| < TWO64
    ensures WithLength(payload).Some?
    ensures Delimited(WithLength(payload).value + rest) == Some((payload, rest)) <==> |payload| < TWO32
  {
    if |payload| < TWO32 {
      LengthRoundTrip(payload, rest);
    } else {
      assert Varint(|payload|) + payload + rest == Varint(|payload|) + (payload + rest);
      VarintReadsIff(|payload|, payload + rest);
      if Delimited(WithLength(payload).value + rest).Some? {
        DelimitedShort(WithLength(payload).value + rest);
      }
    }
  }

  /** A delimited payload is shorter than 2^32. */
  lemma DelimitedShort(s: seq<byte>)
    requires Delimited(s).Some?
    ensures |Delimited(s).value.0| < TWO32
  {
    Decode32Agrees(s);
  }

  /** Behind its length, a payload is what is parsed. */
  lemma SizedRoundTrip(f: Field, unions: nat, payload: seq<byte>, before: Value, rest: seq<byte>)
    requires FieldOk(f, unions) && TypedValue(f, before) && !Packable(f.ltype) && |payload| < TWO32
    ensures WithLength(payload).Some? && (payload + rest)[..|payload|] == payload && (payload + rest)[|payload|..] == rest
    ensures ParseValue(f, unions, WireType(f.ltype), WithLength(payload).value + rest, before) == ParseSized(f, unions, |payload|, payload + rest, before)
  {
    LengthRoundTrip(payload, rest);
  }

  ghost predicate ReadsBack(f: Field, unions: nat, v: Value, before: Value, rest: seq<byte>)
    requires FieldOk(f, unions) && TypedValue(f, v) && TypedValue(f, before) && EncodeValue(f, unions, v).Some?
  {
    var r := ParseValue(f, unions, WireType(f.ltype), EncodeValue(f, unions, v).value + rest, before);
    r.Some? && r.value.1 == rest && SameValue(f, unions, v, r.value.0)
  }

  /** The only payloads that can be too long to read back are nested messages; all others are bounded by 16-bit sizes. */
  ghost predicate PayloadFits(f: Field, unions: nat, v: Value, bound: nat := TWO32)
    requires FieldOk(f, unions) && TypedValue(f, v)
  {
    f.ltype.LSubmessage? ==> Shorter(EncodeFrom(f.ltype.sub, v.m, 0), bound)
  }

  predicate Shorter(payload: Option<seq<byte>>, bound: nat) {
    payload.Some? ==> |payload.value| < bound
  }

  lemma BytesRoundTrip(f: Field, unions: nat, v: Value, before: Value, rest: seq<byte>)
    requires FieldOk(f, unions) && TypedValue(f, v) && TypedValue(f, before) && (f.ltype.LBytes? || f.ltype.LFixedBytes?)
    requires EncodeValue(f, unions, v).Some? && PayloadFits(f, unions, v)
    ensures ReadsBack(f, unions, v, before, rest)
  {
    SizedRoundTrip(f, unions, v.b, before, rest);
    if f.ltype.LFixedBytes? && v.b == [] {
      assert v.b == Zeros(f.dataSize);
    }
  }

  lemma StringRoundTrip(f: Field, unions: nat, v: Value, before: Value, rest: seq<byte>)
    requires FieldOk(f, unions) && TypedValue(f, v) && TypedValue(f, before) && f.ltype.LString?
    requires EncodeValue(f, unions, v).Some? && PayloadFits(f, unions, v)
    ensures ReadsBack(f, unions, v, before, rest)
  {
    var s := v.buf[..StrLen(v.buf)];
    SizedRoundTrip(f, unions, s, before, rest);
    StrLenOf(s, before.buf[|s| + 1..]);
  }

  lemma {:induction false} NestedRoundTrip(f: Field, unions: nat, v: Value, before: Value, rest: seq<byte>)
    requires FieldOk(f, unions) && TypedValue(f, v) && TypedValue(f, before) && f.ltype.LSubmessage?
    requires EncodeValue(f, unions, v).Some? && PayloadFits(f, unions, v)
    requires !IsArray(f.htype) ==> FreshValue(f, unions, before)
    ensures ReadsBack(f, unions, v, before, rest)
    decreases f, 0
  {
    var sub := f.ltype.sub;
    SizedRoundTrip(f, unions, EncodeFrom(sub, v.m, 0).value, before, rest);
    ShortMessageFits(sub, v.m, 0);
    MsgRoundTrip(sub, v.m, before.m, IsArray(f.htype));
  }

  lemma {:induction false} ValueRoundTrip(f: Field, unions: nat, v: Value, before: Value, rest: seq<byte>)
    requires FieldOk(f, unions) && TypedValue(f, v) && TypedValue(f, before)
    requires EncodeValue(f, unions, v).Some? && PayloadFits(f, unions, v)
    requires f.ltype.LSubmessage? && !IsArray(f.htype) ==> FreshValue(f, unions, before)
    ensures ReadsBack(f, unions, v, before, rest)
    decreases f, 1
  {
    if f.ltype.LBytes? || f.ltype.LFixedBytes? {
      BytesRoundTrip(f, unions, v, before, rest);
    } else if f.ltype.LString? {
      StringRoundTrip(f, unions, v, before, rest);
    } else if f.ltype.LSubmessage? {
      NestedRoundTrip(f, unions, v, before, rest);
    } else {
      ScalarRoundTrip(f, v, rest);
    }
  }

  lemma {:induction false} PackedRoundTrip(f: Field, unions: nat, items: seq<Value>, k: nat, target: seq<Value>)
    requires FieldOk(f, unions) && Packable(f.ltype)
    requires k <= |items| <= |target|
    requires forall i :: 0 <= i < |items| ==> TypedValue(f, items[i])
    requires forall i :: 0 <= i < |target| ==> TypedValue(f, target[i])
    requires forall i :: 0 <= i < k ==> target[i] == items[i]
    ensures var r := ParsePacked(f, EncodePacked(f, items[k..]), target, k);
            r.Some? && r.value.1 == |items| && forall i :: 0 <= i < |items| ==> r.value.0[i] == items[i]
    decreases |items| - k
  {
    if k < |items| {
      ScalarRoundTrip(f, items[k], EncodePacked(f, items[k + 1..]));
      assert items[k..][1..] == items[k + 1..];
      PackedRoundTrip(f, unions, items, k + 1, target[k := items[k]]);
    }
  }

  // ----- the state of the decoder after the first i fields -----

  ghost predicate Done(d: MsgDesc, m: Msg, i: nat, p: Progress)
    requires WellFormed(d) && Typed(d, m) && Typed(d, p.m) && i <= |d.fields|
  {
    forall j :: 0 <= j < i ==> SameSlot(d.fields[j], d.unions, m.slots[j], m.which, p.m.slots[j], p.m.which)
  }

  ghost predicate Todo(d: MsgDesc, i: nat, p: Progress)
    requires WellFormed(d) && Typed(d, p.m)
  {
    forall j :: i <= j < |d.fields| ==> FreshSlot(d.fields[j], d.unions, p.m.slots[j], p.m.which)
  }

  ghost predicate SeenBefore(d: MsgDesc, i: nat, p: Progress)
    requires i <= |d.fields|
  {
    forall k :: 0 <= k < Min(RequiredBefore(d.fields, i), MAX_REQUIRED) ==> k in p.seen
  }

  ghost predicate FixedDone(i: nat, p: Progress) {
    p.fixedField == NO_FIELD || (p.fixedField < i && p.fixedSize == p.fixedTotal)
  }

  ghost predicate Reached(d: MsgDesc, m: Msg, i: nat, p: Progress)
    requires WellFormed(d) && Typed(d, m) && i <= |d.fields|
  {
    Typed(d, p.m) && Done(d, m, i, p) && Todo(d, i, p) && SeenBefore(d, i, p) && FixedDone(i, p)
  }

  lemma FindAt(d: MsgDesc, i: nat)
    requires WellFormed(d) && i < |d.fields|
    ensures Find(d.fields, d.fields[i].tag) == i
  {
  }

  /** A record of field i is consumed as one step. */
  lemma KnownRecord(d: MsgDesc, i: nat, wireType: nat, tail: seq<byte>, p: Progress, q: Progress, r: SlotResult)
    requires WellFormed(d) && Typed(d, p.m) && i < |d.fields| && wireType < 8
    requires Track(d, i, p) == Some(q)
    requires ParseSlot(d.fields[i], d.unions, wireType, tail, p.m.slots[i], p.m.which, q.fixedSize) == Some(r)
    ensures Typed(d, Store(q, i, r).m)
    ensures ParseFields(d, Varint(Key(wireType, d.fields[i].tag)) + tail, p) == ParseFields(d, r.rest, Store(q, i, r))
  {
    FindAt(d, i);
    VarintRoundTrip32(Key(wireType, d.fields[i].tag), tail);
    assert ParseKnown(d, i, wireType, tail, p) == Some((Store(q, i, r), r.rest));
    var bytes := Varint(Key(wireType, d.fields[i].tag)) + tail;
    assert ParseRecord(d, bytes, p) == ParseKnown(d, i, wireType, tail, p);
  }

  /** The union of field i was switched to field i, which is what the encoded struct says. */
  ghost predicate Activated(f: Field, unions: nat, which: seq<nat>, before: seq<nat>, after: seq<nat>)
    requires FieldOk(f, unions) && |which| == |before| == unions
  {
    f.htype.Oneof? && which[f.htype.union] == f.tag && after == before[f.htype.union := f.tag]
  }

  /** Changing field i alone leaves what is known about the other fields. */
  lemma OthersKept(d: MsgDesc, m: Msg, i: nat, p: Progress, p': Progress)
    requires WellFormed(d) && Typed(d, m) && i < |d.fields| && Typed(d, p.m) && Typed(d, p'.m)
    requires Done(d, m, i, p) && Todo(d, i + 1, p)
    requires forall j :: 0 <= j < |d.fields| && j != i ==> p'.m.slots[j] == p.m.slots[j]
    requires p'.m.which == p.m.which || Activated(d.fields[i], d.unions, m.which, p.m.which, p'.m.which)
    ensures Done(d, m, i, p') && Todo(d, i + 1, p')
  {
    forall j | 0 <= j < i
      ensures SameSlot(d.fields[j], d.unions, m.slots[j], m.which, p'.m.slots[j], p'.m.which)
    {
      assert SameSlot(d.fields[j], d.unions, m.slots[j], m.which, p.m.slots[j], p.m.which);
    }
    forall j | i + 1 <= j < |d.fields|
      ensures FreshSlot(d.fields[j], d.unions, p'.m.slots[j], p'.m.which)
    {
      assert FreshSlot(d.fields[j], d.unions, p.m.slots[j], p.m.which);
    }
  }

  lemma DoneNext(d: MsgDesc, m: Msg, i: nat, p: Progress)
    requires WellFormed(d) && Typed(d, m) && i < |d.fields| && Typed(d, p.m) && Done(d, m, i, p)
    requires SameSlot(d.fields[i], d.unions, m.slots[i], m.which, p.m.slots[i], p.m.which)
    ensures Done(d, m, i + 1, p)
  {
  }

  /** The bookkeeping before field i's first record never refuses. */
  lemma TrackFirst(d: MsgDesc, i: nat, p: Progress) returns (q: Progress)
    requires WellFormed(d) && i < |d.fields| && SeenBefore(d, i, p) && FixedDone(i, p)
    ensures Track(d, i, p) == Some(q) && q.m == p.m && SeenBefore(d, i + 1, q)
    ensures if d.fields[i].htype.FixArray?
            then q.fixedField == i && q.fixedSize == 0 && q.fixedTotal == d.fields[i].arraySize
            else q.fixedField == p.fixedField && q.fixedSize == p.fixedSize && q.fixedTotal == p.fixedTotal
  {
    q := Track(d, i, p).value;
  }

  /** With field i stored whole, the decoder has reached field i + 1. */
  lemma StoreReached(d: MsgDesc, m: Msg, i: nat, p: Progress, q: Progress, r: SlotResult)
    requires WellFormed(d) && Typed(d, m) && i < |d.fields| && Reached(d, m, i, p)
    requires q.m == p.m && SeenBefore(d, i + 1, q)
    requires if d.fields[i].htype.FixArray? then q.fixedField == i && r.fixedSize == q.fixedTotal
             else FixedDone(i, q) && r.fixedSize == q.fixedSize
    requires TypedSlot(d.fields[i], r.slot) && |r.which| == d.unions
    requires SameSlot(d.fields[i], d.unions, m.slots[i], m.which, r.slot, r.which)
    requires r.which == p.m.which || Activated(d.fields[i], d.unions, m.which, p.m.which, r.which)
    ensures Reached(d, m, i + 1, Store(q, i, r))
  {
    var p' := Store(q, i, r);
    OthersKept(d, m, i, p, p');
    DoneNext(d, m, i, p');
  }

  lemma RecordBytes(f: Field, unions: nat, v: Value, rest: seq<byte>)
    requires FieldOk(f, unions) && TypedValue(f, v) && EncodeRecord(f, unions, v).Some?
    ensures EncodeValue(f, unions, v).Some? && |EncodeValue(f, unions, v).value| <= |EncodeRecord(f, unions, v).value|
    ensures EncodeRecord(f, unions, v).value + rest ==
            Varint(Key(WireType(f.ltype), f.tag)) + (EncodeValue(f, unions, v).value + rest)
  {
    var key, value := Varint(Key(WireType(f.ltype), f.tag)), EncodeValue(f, unions, v).value;
    assert key + value + rest == key + (value + rest);
  }

  /** The field is present and takes exactly one record. */
  ghost predicate Present(f: Field, unions: nat, s: Slot, which: seq<nat>)
    requires FieldOk(f, unions) && TypedSlot(f, s) && |which| == unions
  {
    match f.htype
    case Optional => s.has
    case Oneof(u) => which[u] == f.tag
    case _ => !IsArray(f.htype)
  }

  /** The slot of a present field is rebuilt from its one record. */
  lemma {:induction false} SlotRoundTrip(f: Field, unions: nat, s: Slot, which: seq<nat>, t: Slot, whichT: seq<nat>, fixedSize: nat, rest: seq<byte>)
    returns (r: SlotResult)
    requires FieldOk(f, unions) && TypedSlot(f, s) && |which| == unions && Present(f, unions, s, which)
    requires TypedSlot(f, t) && |whichT| == unions && FreshSlot(f, unions, t, whichT)
    requires TypedValue(f, s.v) && EncodeValue(f, unions, s.v).Some? && PayloadFits(f, unions, s.v)
    ensures ParseSlot(f, unions, WireType(f.ltype), EncodeValue(f, unions, s.v).value + rest, t, whichT, fixedSize) == Some(r)
    ensures r.rest == rest && r.fixedSize == fixedSize && TypedSlot(f, r.slot) && |r.which| == unions
    ensures SameSlot(f, unions, s, which, r.slot, r.which)
    ensures r.which == whichT || Activated(f, unions, which, whichT, r.which)
    decreases f, 2
  {
    UnionValueTyped(f, unions);
    var before := if f.htype.Oneof? && f.ltype.LSubmessage? then UnionValue(f) else t.v;
    ValueRoundTrip(f, unions, s.v, before, rest);
    r := ParseSlot(f, unions, WireType(f.ltype), EncodeValue(f, unions, s.v).value + rest, t, whichT, fixedSize).value;
  }

  /** A field that is one record. */
  lemma {:induction false} SingleStep(d: MsgDesc, m: Msg, i: nat, f: Field, s: Slot, p: Progress, rest: seq<byte>) returns (p': Progress)
    requires WellFormed(d) && Typed(d, m) && i < |d.fields| && Reached(d, m, i, p)
    requires f == d.fields[i] && s == m.slots[i] && FieldOk(f, d.unions) && TypedSlot(f, s) && Present(f, d.unions, s, m.which)
    requires TypedValue(f, s.v) && EncodeRecord(f, d.unions, s.v).Some? && PayloadFits(f, d.unions, s.v)
    ensures Reached(d, m, i + 1, p')
    ensures ParseFields(d, EncodeRecord(f, d.unions, s.v).value + rest, p) == ParseFields(d, rest, p')
    decreases f, 3
  {
    RecordBytes(f, d.unions, s.v, rest);
    var q := TrackFirst(d, i, p);
    assert FreshSlot(f, d.unions, p.m.slots[i], p.m.which);
    var r := SlotRoundTrip(f, d.unions, s, m.which, p.m.slots[i], p.m.which, q.fixedSize, rest);
    KnownRecord(d, i, WireType(f.ltype), EncodeValue(f, d.unions, s.v).value + rest, p, q, r);
    p' := Store(q, i, r);
    StoreReached(d, m, i, p, q, r);
  }

  lemma PackedBytes(f: Field, unions: nat, s: Slot, rest: seq<byte>)
    requires FieldOk(f, unions) && TypedSlot(f, s) && IsArray(f.htype) && Packable(f.ltype) && Count(f, s) != 0
    requires EncodeArray(f, unions, s).Some?
    ensures Count(f, s) <= f.arraySize
    ensures WithLength(EncodePacked(f, s.items[..Count(f, s)])).Some?
    ensures |EncodePacked(f, s.items[..Count(f, s)])| <= |EncodeArray(f, unions, s).value|
    ensures EncodeArray(f, unions, s).value + rest ==
            Varint(Key(WT_STRING, f.tag)) + (WithLength(EncodePacked(f, s.items[..Count(f, s)])).value + rest)
  {
    var key, record := Varint(Key(WT_STRING, f.tag)), WithLength(EncodePacked(f, s.items[..Count(f, s)])).value;
    assert key + record + rest == key + (record + rest);
  }

  lemma ScalarShort(f: Field, v: Value)
    requires Packable(f.ltype) && SizeOk(f) && TypedValue(f, v)
    ensures |EncodeScalar(f, v)| <= 10
  {
    if f.ltype.LBool? {
      VarintAtMostTen(v.n);
    } else if !f.ltype.LFixed32? && !f.ltype.LFixed64? {
      IntegerRoundTrip(f, v.n);
      VarintAtMostTen(Pattern(f, v.n));
    }
  }

  /** A packed array of 16-bit count is far below 2^32 bytes. */
  lemma {:induction false} PackedShort(f: Field, items: seq<Value>)
    requires Packable(f.ltype) && SizeOk(f) && forall i :: 0 <= i < |items| ==> TypedValue(f, items[i])
    ensures |EncodePacked(f, items)| <= 10 * |items|
  {
    if items != [] {
      ScalarShort(f, items[0]);
      PackedShort(f, items[1..]);
    }
  }

  /** A packed array is one record that carries every element. */
  lemma PackedStep(d: MsgDesc, m: Msg, i: nat, f: Field, s: Slot, p: Progress, rest: seq<byte>) returns (p': Progress)
    requires WellFormed(d) && Typed(d, m) && i < |d.fields| && Reached(d, m, i, p)
    requires f == d.fields[i] && s == m.slots[i] && FieldOk(f, d.unions) && TypedSlot(f, s)
    requires IsArray(f.htype) && Packable(f.ltype) && Count(f, s) != 0
    requires EncodeArray(f, d.unions, s).Some?
    ensures Reached(d, m, i + 1, p')
    ensures ParseFields(d, EncodeArray(f, d.unions, s).value + rest, p) == ParseFields(d, rest, p')
  {
    var payload := EncodePacked(f, s.items[..Count(f, s)]);
    PackedBytes(f, d.unions, s, rest);
    PackedShort(f, s.items[..Count(f, s)]);
    var q := TrackFirst(d, i, p);
    assert FreshSlot(f, d.unions, p.m.slots[i], p.m.which);
    var r := PackedSlot(f, d.unions, s, m.which, p.m.slots[i], p.m.which, q.fixedSize, rest);
    KnownRecord(d, i, WT_STRING, WithLength(payload).value + rest, p, q, r);
    p' := Store(q, i, r);
    StoreReached(d, m, i, p, q, r);
  }

  lemma PackedSlot(f: Field, unions: nat, s: Slot, which: seq<nat>, t: Slot, whichT: seq<nat>, fixedSize: nat, rest: seq<byte>)
    returns (r: SlotResult)
    requires FieldOk(f, unions) && IsArray(f.htype) && Packable(f.ltype)
    requires TypedSlot(f, s) && TypedSlot(f, t) && |which| == |whichT| == unions
    requires FreshSlot(f, unions, t, whichT) && (f.htype.FixArray? ==> fixedSize == 0)
    requires Count(f, s) <= f.arraySize && |EncodePacked(f, s.items[..Count(f, s)])| < TWO32
    ensures ParseSlot(f, unions, WT_STRING, WithLength(EncodePacked(f, s.items[..Count(f, s)])).value + rest, t, whichT, fixedSize) == Some(r)
    ensures r.rest == rest && TypedSlot(f, r.slot) && r.which == whichT
    ensures r.fixedSize == if f.htype.FixArray? then f.arraySize else fixedSize
    ensures SameSlot(f, unions, s, which, r.slot, r.which)
  {
    var items := s.items[..Count(f, s)];
    var payload := EncodePacked(f, items);
    LengthRoundTrip(payload, rest);
    PackedRoundTrip(f, unions, items, 0, t.items);
    assert items[0..] == items;
    var bytes := WithLength(payload).value + rest;
    assert ParseSlot(f, unions, WT_STRING, bytes, t, whichT, fixedSize) == ParseElement(f, unions, WT_STRING, bytes, t, whichT, fixedSize);
    r := ParseElement(f, unions, WT_STRING, bytes, t, whichT, fixedSize).value;
  }

  /** The decoder inside an unpacked array, k elements in. */
  ghost predicate Filling(d: MsgDesc, m: Msg, i: nat, f: Field, s: Slot, k: nat, p: Progress)
    requires WellFormed(d) && Typed(d, m) && i < |d.fields|
    requires FieldOk(f, d.unions) && TypedSlot(f, s) && IsArray(f.htype)
  {
    && Typed(d, p.m) && Done(d, m, i, p) && Todo(d, i + 1, p) && SeenBefore(d, i, p)
    && (if f.htype.FixArray? && k > 0 then p.fixedField == i && p.fixedSize == k && p.fixedTotal == f.arraySize else FixedDone(i, p))
    && FilledTo(f, d.unions, s, p.m.slots[i], k)
  }

  ghost predicate FilledTo(f: Field, unions: nat, s: Slot, t: Slot, k: nat)
    requires FieldOk(f, unions) && TypedSlot(f, s) && IsArray(f.htype)
  {
    && TypedSlot(f, t) && k <= f.arraySize
    && (f.htype.Repeated? ==> t.count == k)
    && forall e :: 0 <= e < k ==> SameValue(f, unions, s.items[e], t.items[e])
  }

  /** Element k of an unpacked array is stored behind the k elements before it. */
  lemma {:induction false} ElementSlot(f: Field, unions: nat, s: Slot, k: nat, t: Slot, whichT: seq<nat>, fixedSize: nat, rest: seq<byte>)
    returns (r: SlotResult)
    requires FieldOk(f, unions) && IsArray(f.htype) && !Packable(f.ltype)
    requires TypedSlot(f, s) && |whichT| == unions && FilledTo(f, unions, s, t, k) && k < f.arraySize
    requires f.htype.FixArray? ==> fixedSize == k
    requires TypedValue(f, s.items[k])
    requires EncodeValue(f, unions, s.items[k]).Some? && PayloadFits(f, unions, s.items[k])
    ensures ParseSlot(f, unions, WireType(f.ltype), EncodeValue(f, unions, s.items[k]).value + rest, t, whichT, fixedSize) == Some(r)
    ensures r.rest == rest && r.which == whichT && r.fixedSize == if f.htype.FixArray? then k + 1 else fixedSize
    ensures FilledTo(f, unions, s, r.slot, k + 1)
    decreases f, 2
  {
    ValueRoundTrip(f, unions, s.items[k], t.items[k], rest);
    var bytes := EncodeValue(f, unions, s.items[k]).value + rest;
    assert ParseSlot(f, unions, WireType(f.ltype), bytes, t, whichT, fixedSize) == ParseElement(f, unions, WireType(f.ltype), bytes, t, whichT, fixedSize);
    r := ParseElement(f, unions, WireType(f.ltype), bytes, t, whichT, fixedSize).value;
  }

  lemma TrackElement(d: MsgDesc, m: Msg, i: nat, f: Field, s: Slot, k: nat, p: Progress) returns (q: Progress)
    requires WellFormed(d) && Typed(d, m) && i < |d.fields|
    requires f == d.fields[i] && s == m.slots[i] && FieldOk(f, d.unions) && TypedSlot(f, s)
    requires IsArray(f.htype) && Filling(d, m, i, f, s, k, p)
    ensures Track(d, i, p) == Some(q) && q.m == p.m && SeenBefore(d, i, q)
    ensures if f.htype.FixArray? then q.fixedField == i && q.fixedSize == k && q.fixedTotal == f.arraySize
            else FixedDone(i, q) && q.fixedSize == p.fixedSize
  {
    q := Track(d, i, p).value;
  }

  lemma {:induction false} ElementStep(d: MsgDesc, m: Msg, i: nat, f: Field, s: Slot, k: nat, p: Progress, rest: seq<byte>) returns (p': Progress)
    requires WellFormed(d) && Typed(d, m) && i < |d.fields|
    requires f == d.fields[i] && s == m.slots[i] && FieldOk(f, d.unions) && TypedSlot(f, s)
    requires IsArray(f.htype) && !Packable(f.ltype) && k < f.arraySize && Filling(d, m, i, f, s, k, p)
    requires TypedValue(f, s.items[k])
    requires EncodeRecord(f, d.unions, s.items[k]).Some? && PayloadFits(f, d.unions, s.items[k])
    ensures Filling(d, m, i, f, s, k + 1, p')
    ensures ParseFields(d, EncodeRecord(f, d.unions, s.items[k]).value + rest, p) == ParseFields(d, rest, p')
    decreases f, 3
  {
    RecordBytes(f, d.unions, s.items[k], rest);
    var q := TrackElement(d, m, i, f, s, k, p);
    var r := ElementSlot(f, d.unions, s, k, p.m.slots[i], p.m.which, q.fixedSize, rest);
    KnownRecord(d, i, WireType(f.ltype), EncodeValue(f, d.unions, s.items[k]).value + rest, p, q, r);
    p' := Store(q, i, r);
    OthersKept(d, m, i, p, p');
  }

  lemma ItemsBytes(f: Field, unions: nat, items: seq<Value>, rest: seq<byte>)
    requires FieldOk(f, unions) && items != [] && forall e :: 0 <= e < |items| ==> TypedValue(f, items[e])
    requires EncodeItems(f, unions, items).Some?
    ensures EncodeRecord(f, unions, items[0]).Some? && EncodeItems(f, unions, items[1..]).Some?
    ensures |EncodeRecord(f, unions, items[0]).value| <= |EncodeItems(f, unions, items).value|
    ensures |EncodeItems(f, unions, items[1..]).value| <= |EncodeItems(f, unions, items).value|
    ensures EncodeItems(f, unions, items).value + rest ==
            EncodeRecord(f, unions, items[0]).value + (EncodeItems(f, unions, items[1..]).value + rest)
  {
    Assoc(EncodeRecord(f, unions, items[0]).value, EncodeItems(f, unions, items[1..]).value, rest);
  }

  ghost predicate ItemsFit(f: Field, unions: nat, items: seq<Value>, bound: nat := TWO32)
    requires FieldOk(f, unions) && forall e :: 0 <= e < |items| ==> TypedValue(f, items[e])
  {
    forall e :: 0 <= e < |items| ==> PayloadFits(f, unions, items[e], bound)
  }

  lemma {:induction false} ElementSteps(d: MsgDesc, m: Msg, i: nat, f: Field, s: Slot, items: seq<Value>, k: nat, p: Progress, rest: seq<byte>) returns (p': Progress)
    requires WellFormed(d) && Typed(d, m) && i < |d.fields|
    requires f == d.fields[i] && s == m.slots[i] && FieldOk(f, d.unions) && TypedSlot(f, s)
    requires IsArray(f.htype) && !Packable(f.ltype) && Filling(d, m, i, f, s, k, p)
    requires k + |items| <= f.arraySize && s.items[k..k + |items|] == items
    requires forall e :: 0 <= e < |items| ==> TypedValue(f, items[e])
    requires EncodeItems(f, d.unions, items).Some? && ItemsFit(f, d.unions, items)
    ensures Filling(d, m, i, f, s, k + |items|, p')
    ensures ParseFields(d, EncodeItems(f, d.unions, items).value + rest, p) == ParseFields(d, rest, p')
    decreases f, 4, |items|
  {
    if items == [] {
      p' := p;
      assert EncodeItems(f, d.unions, items).value + rest == rest;
    } else {
      assert items[0] == s.items[k];
      assert items[1..] == s.items[k + 1..k + 1 + |items[1..]|];
      ItemsBytes(f, d.unions, items, rest);
      var next := ElementStep(d, m, i, f, s, k, p, EncodeItems(f, d.unions, items[1..]).value + rest);
      p' := ElementSteps(d, m, i, f, s, items[1..], k + 1, next, rest);
    }
  }

  // ----- fields that were not written -----

  /** A field the encoder leaves out as default reads the same from a struct where it was never set. */
  lemma {:induction false} DefaultValueSame(f: Field, unions: nat, v: Value, w: Value)
    requires FieldOk(f, unions) && TypedValue(f, v) && TypedValue(f, w)
    requires IsDefaultValue(f, unions, v) && FreshValue(f, unions, w)
    ensures SameValue(f, unions, v, w)
    decreases f
  {
    if f.ltype.LSubmessage? {
      DefaultMsgSame(f.ltype.sub, v.m, w.m);
    }
  }

  lemma {:induction false} DefaultMsgSame(d: MsgDesc, a: Msg, b: Msg)
    requires WellFormed(d) && Typed(d, a) && Typed(d, b)
    requires IsDefaultFrom(d, a, 0) && Fresh(d, b)
    ensures Same(d, a, b)
    decreases d
  {
    forall i | 0 <= i < |d.fields|
      ensures SameSlot(d.fields[i], d.unions, a.slots[i], a.which, b.slots[i], b.which)
    {
      IsDefaultAt(d, a, 0, i);
      var f := d.fields[i];
      assert FreshSlot(f, d.unions, b.slots[i], b.which);
      if f.htype.Singular? {
        DefaultValueSame(f, d.unions, a.slots[i].v, b.slots[i].v);
      }
    }
  }

  lemma {:induction false} IsDefaultAt(d: MsgDesc, m: Msg, from: nat, i: nat)
    requires WellFormed(d) && Typed(d, m) && from <= i < |d.fields| && IsDefaultFrom(d, m, from)
    ensures IsDefault(d.fields[i], d.unions, m.slots[i], m.which)
    decreases i - from
  {
    if from < i {
      IsDefaultAt(d, m, from + 1, i);
    }
  }

  /** An absent field: nothing is written and nothing needs to be read. */
  lemma AbsentSame(f: Field, unions: nat, s: Slot, which: seq<nat>, t: Slot, whichT: seq<nat>)
    requires FieldOk(f, unions) && TypedSlot(f, s) && TypedSlot(f, t) && |which| == |whichT| == unions
    requires !f.htype.Required?
    requires if f.htype.Singular? then IsDefault(f, unions, s, which)
             else if IsArray(f.htype) then Count(f, s) == 0 else !Present(f, unions, s, which)
    requires FreshSlot(f, unions, t, whichT)
    ensures SameSlot(f, unions, s, which, t, whichT)
  {
    if f.htype.Singular? {
      DefaultValueSame(f, unions, s.v, t.v);
    }
  }

  // ----- the whole message -----

  /** Every nested message written for the field is shorter than the bound. */
  ghost predicate FieldFits(f: Field, unions: nat, s: Slot, which: seq<nat>, bound: nat := TWO32)
    requires FieldOk(f, unions) && TypedSlot(f, s) && |which| == unions && EncodeField(f, unions, s, which).Some?
  {
    if IsArray(f.htype) then Count(f, s) <= |s.items| ==> ItemsFit(f, unions, s.items[..Count(f, s)], bound)
    else EncodeField(f, unions, s, which).value != [] ==> PayloadFits(f, unions, s.v, bound)
  }

  lemma FieldsEncode(d: MsgDesc, m: Msg, i: nat)
    requires WellFormed(d) && Typed(d, m) && i < |d.fields| && EncodeFrom(d, m, i).Some?
    ensures EncodeField(d.fields[i], d.unions, m.slots[i], m.which).Some? && EncodeFrom(d, m, i + 1).Some?
    ensures EncodeFrom(d, m, i).value == EncodeField(d.fields[i], d.unions, m.slots[i], m.which).value + EncodeFrom(d, m, i + 1).value
  {
  }

  /** Every nested message written for the fields from i on is shorter than the bound. */
  ghost predicate PayloadsFit(d: MsgDesc, m: Msg, i: nat, bound: nat := TWO32)
    requires WellFormed(d) && Typed(d, m) && i <= |d.fields| && EncodeFrom(d, m, i).Some?
    decreases |d.fields| - i
  {
    i == |d.fields| || (FieldFits(d.fields[i], d.unions, m.slots[i], m.which, bound) && PayloadsFit(d, m, i + 1, bound))
  }

  lemma ShortValueFits(f: Field, unions: nat, v: Value)
    requires FieldOk(f, unions) && TypedValue(f, v)
    requires EncodeRecord(f, unions, v).Some? && |EncodeRecord(f, unions, v).value| < TWO32
    ensures PayloadFits(f, unions, v)
  {
  }

  lemma {:induction false} ShortItemsFit(f: Field, unions: nat, items: seq<Value>)
    requires FieldOk(f, unions) && forall e :: 0 <= e < |items| ==> TypedValue(f, items[e])
    requires EncodeItems(f, unions, items).Some? && |EncodeItems(f, unions, items).value| < TWO32
    ensures ItemsFit(f, unions, items)
    decreases |items|
  {
    if items != [] {
      ItemsBytes(f, unions, items, []);
      ShortValueFits(f, unions, items[0]);
      ShortItemsFit(f, unions, items[1..]);
      assert forall e :: 1 <= e < |items| ==> items[e] == items[1..][e - 1];
    }
  }

  lemma ShortFieldFits(f: Field, unions: nat, s: Slot, which: seq<nat>)
    requires FieldOk(f, unions) && TypedSlot(f, s) && |which| == unions
    requires EncodeField(f, unions, s, which).Some? && |EncodeField(f, unions, s, which).value| < TWO32
    ensures FieldFits(f, unions, s, which)
  {
    if IsArray(f.htype) {
      if !Packable(f.ltype) && 0 < Count(f, s) <= |s.items| {
        ShortItemsFit(f, unions, s.items[..Count(f, s)]);
      }
    } else if EncodeField(f, unions, s, which).value != [] {
      ShortValueFits(f, unions, s.v);
    }
  }

  /** A message below 2^32 bytes has no longer part. */
  lemma {:induction false} ShortMessageFits(d: MsgDesc, m: Msg, i: nat)
    requires WellFormed(d) && Typed(d, m) && i <= |d.fields|
    requires EncodeFrom(d, m, i).Some? && |EncodeFrom(d, m, i).value| < TWO32
    ensures PayloadsFit(d, m, i)
    decreases |d.fields| - i
  {
    if i < |d.fields| {
      FieldsEncode(d, m, i);
      ShortFieldFits(d.fields[i], d.unions, m.slots[i], m.which);
      ShortMessageFits(d, m, i + 1);
    }
  }

  lemma {:induction false} FieldStep(d: MsgDesc, m: Msg, i: nat, f: Field, s: Slot, p: Progress, rest: seq<byte>) returns (p': Progress)
    requires WellFormed(d) && Typed(d, m) && i < |d.fields| && Reached(d, m, i, p)
    requires f == d.fields[i] && s == m.slots[i] && FieldOk(f, d.unions) && TypedSlot(f, s)
    requires EncodeField(f, d.unions, s, m.which).Some? && FieldFits(f, d.unions, s, m.which)
    ensures Reached(d, m, i + 1, p')
    ensures ParseFields(d, EncodeField(f, d.unions, s, m.which).value + rest, p) == ParseFields(d, rest, p')
    decreases f, 6
  {
    var bytes := EncodeField(f, d.unions, s, m.which).value;
    if IsArray(f.htype) && Count(f, s) != 0 {
      assert bytes == EncodeArray(f, d.unions, s).value;
      if Packable(f.ltype) {
        p' := PackedStep(d, m, i, f, s, p, rest);
      } else {
        p' := UnpackedStep(d, m, i, f, s, p, rest);
      }
    } else if !IsArray(f.htype) && Present(f, d.unions, s, m.which) && !(f.htype.Singular? && IsDefault(f, d.unions, s, m.which)) {
      p' := SingleStep(d, m, i, f, s, p, rest);
    } else {
      assert bytes == [] && bytes + rest == rest;
      assert FreshSlot(f, d.unions, p.m.slots[i], p.m.which);
      AbsentSame(f, d.unions, s, m.which, p.m.slots[i], p.m.which);
      p' := p;
      DoneNext(d, m, i, p);
    }
  }

  lemma {:induction false} UnpackedStep(d: MsgDesc, m: Msg, i: nat, f: Field, s: Slot, p: Progress, rest: seq<byte>) returns (p': Progress)
    requires WellFormed(d) && Typed(d, m) && i < |d.fields| && Reached(d, m, i, p)
    requires f == d.fields[i] && s == m.slots[i] && FieldOk(f, d.unions) && TypedSlot(f, s)
    requires IsArray(f.htype) && !Packable(f.ltype) && 0 < Count(f, s) <= |s.items|
    requires EncodeArray(f, d.unions, s).Some? && ItemsFit(f, d.unions, s.items[..Count(f, s)])
    ensures Reached(d, m, i + 1, p')
    ensures ParseFields(d, EncodeArray(f, d.unions, s).value + rest, p) == ParseFields(d, rest, p')
    decreases f, 5
  {
    assert FreshSlot(f, d.unions, p.m.slots[i], p.m.which);
    var items := s.items[..Count(f, s)];
    p' := ElementSteps(d, m, i, f, s, items, 0, p, rest);
    DoneNext(d, m, i, p');
  }

  lemma {:induction false} FieldsRoundTrip(d: MsgDesc, m: Msg, i: nat, p: Progress) returns (p': Progress)
    requires WellFormed(d) && Typed(d, m) && i <= |d.fields| && Reached(d, m, i, p)
    requires EncodeFrom(d, m, i).Some? && PayloadsFit(d, m, i)
    ensures ParseFields(d, EncodeFrom(d, m, i).value, p) == Some(p')
    ensures Reached(d, m, |d.fields|, p')
    decreases d, |d.fields| - i
  {
    if i == |d.fields| {
      p' := p;
    } else {
      var next := FieldStep(d, m, i, d.fields[i], m.slots[i], p, EncodeFrom(d, m, i + 1).value);
      p' := FieldsRoundTrip(d, m, i + 1, next);
    }
  }

  /**
   The main law. Any struct that encodes is decoded again, over any old contents of the
   destination, to a struct that agrees with it wherever it means something. Lengths on the wire
   are read as 32-bit numbers, so no nested message may be longer; the whole one may be.
   */
  lemma {:induction false} MsgRoundTrip(d: MsgDesc, m: Msg, m0: Msg, init: bool)
    requires WellFormed(d) && Typed(d, m) && Typed(d, m0)
    requires Encode(d, m).Some? && PayloadsFit(d, m, 0)
    requires init || Fresh(d, m0)
    ensures var r := ParseMsg(d, Encode(d, m).value, m0, init);
            r.Some? && Same(d, m, r.value)
    decreases d, |d.fields| + 1
  {
    DefaultFresh(d, m0);
    var p := FieldsRoundTrip(d, m, 0, Start(d, m0, init));
  }
}
