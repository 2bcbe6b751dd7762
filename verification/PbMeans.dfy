/**
 What the decoder makes of a record, against the reader of the specification: which numbers a
 field takes and as what, which wire types and lengths, and that nothing else in the struct moves.
 */
module PbMeans {
  import opened Common
  import opened PbVarint
  import opened PbWire
  import opened PbMessage
  import opened PbParse
  import opened PbSpec
  import Reads = PbReads
  import Skip = PbSkip

  // ----- numbers -----

  /** The number a payload stands for in a field of this type; signed numbers are read at 32 or 64 bits. */
  ghost predicate Means(f: Field, p: Payload, n: int)
    requires Packable(f.ltype)
  {
    match f.ltype
    case LBool => p.Number? && n == if p.n % 0x1_0000_0000 == 0 then 0 else 1
    case LUVarint => p.Number? && n == p.n
    case LSVarint => p.Number? && p.n == if n < 0 then -2 * n - 1 else 2 * n
    case LVarint => p.Number? && if f.dataSize == 8 then Wraps(p.n, n, 0x1_0000_0000_0000_0000) else Wraps(p.n, n, 0x1_0000_0000)
    case LFixed32 => p.Fixed32? && n == p.n
    case LFixed64 => p.Fixed64? && n == p.n
  }

  /** n is the two's complement reading of u at the given span. */
  predicate Wraps(u: nat, n: int, span: nat)
    requires span > 0
  {
    0 <= 2 * n + span < 2 * span && (u - n) % span == 0
  }

  /** The field has room for it. */
  predicate Fitting(f: Field, n: int)
    requires Packable(f.ltype)
  {
    match f.ltype
    case LBool => true
    case LUVarint => f.dataSize == 8 || n < (if f.dataSize == 1 then 0x100 else if f.dataSize == 2 then 0x1_0000 else 0x1_0000_0000)
    case LFixed32 => true
    case LFixed64 => true
    case _ =>
      var half := if f.dataSize == 1 then 0x80 else if f.dataSize == 2 then 0x8000 else if f.dataSize == 4 then 0x8000_0000 else 0x8000_0000_0000_0000;
      -half <= n < half
  }

  lemma WrapsSigned(u: nat, n: int, span: nat)
    requires u < span && span in {TWO32, TWO64}
    ensures Wraps(u, n, span) <==> n == Signed(u, span)
  {
    if span == TWO32 {
      assert Wraps(u, n, TWO32) <==> n == Signed(u, TWO32);
    } else {
      assert Wraps(u, n, TWO64) <==> n == Signed(u, TWO64);
    }
  }

  lemma WrapsReduced(u: nat, n: int)
    ensures Wraps(u, n, TWO32) <==> Wraps(u % TWO32, n, TWO32)
  {
    assert u == u / TWO32 * TWO32 + u % TWO32;
  }

  /** An accepted number of 64 bits is taken as what it means, and refused when the field has no room for it. */
  lemma NumberMeans(f: Field, u: nat, n: int)
    requires SizeOk(f) && (f.ltype.LVarint? || f.ltype.LUVarint? || f.ltype.LSVarint?) && u < TWO64
    ensures NumberOf(f, u) == Some(VInt(n)) <==> Means(f, Number(u), n) && Fitting(f, n)
  {
    if f.ltype.LSVarint? {
      ZigZagInverse(0, u);
      ZigZagInterleaves(UnZigZag(u));
    } else if f.ltype.LVarint? {
      if f.dataSize == 8 {
        WrapsSigned(u, n, TWO64);
      } else {
        WrapsReduced(u, n);
        WrapsSigned(u % TWO32, n, TWO32);
      }
    }
  }

  /** Numbers the decoder has room for; a flag is read at 32 bits. */
  predicate Readable(f: Field, p: Payload) {
    match p
    case Number(n) => n < if f.ltype.LBool? then TWO32 else TWO64
    case Bytes(b) => |b| < TWO32
    case _ => true
  }

  lemma {:induction false} FixedRead(bs: seq<byte>)
    ensures ReadNumber(bs) == FromLittleEndian(bs)
  {
    if bs != [] {
      FixedRead(bs[1..]);
    }
  }

  /** On every byte string: a number is accepted only as what it means there. */
  lemma ScalarSound(f: Field, unions: nat, s: seq<byte>)
    requires FieldOk(f, unions) && Packable(f.ltype) && ParseNumber(f, s).Some?
    ensures var (v, rest), r := ParseNumber(f, s).value, ReadPayload(ElementWireType(f.ltype), s);
            r.Some? && r.value.1 == rest && v.VInt? && Means(f, r.value.0, v.n) && Fitting(f, v.n)
  {
    if f.ltype.LFixed32? {
      FixedRead(s[..4]);
    } else if f.ltype.LFixed64? {
      FixedRead(s[..8]);
    } else {
      RoomAtStart();
      Reads.Decode64Reads(s, 0);
      Decode32Agrees(s);
      if !f.ltype.LBool? {
        Decode64Fits(s);
        NumberMeans(f, Decode64(s).value.0, ParseNumber(f, s).value.0.n);
      }
    }
  }

  /** And every number the field has room for is accepted. */
  lemma ScalarMeans(f: Field, unions: nat, s: seq<byte>, n: int)
    requires FieldOk(f, unions) && Packable(f.ltype)
    requires ReadPayload(ElementWireType(f.ltype), s).Some? && Readable(f, ReadPayload(ElementWireType(f.ltype), s).value.0)
    ensures var (p, rest) := ReadPayload(ElementWireType(f.ltype), s).value;
            ParseNumber(f, s) == Some((VInt(n), rest)) <==> Means(f, p, n) && Fitting(f, n)
  {
    if f.ltype.LFixed32? {
      FixedRead(s[..4]);
    } else if f.ltype.LFixed64? {
      FixedRead(s[..8]);
    } else {
      Skip.NumbersAgree(s);
      if !f.ltype.LBool? {
        NumberMeans(f, Decode64(s).value.0, n);
      }
    }
  }

  // ----- values -----

  /** What one payload makes of what the memory held. */
  ghost predicate Stores(f: Field, unions: nat, p: Payload, before: Value, after: Value)
    requires FieldOk(f, unions) && TypedValue(f, before)
  {
    match f.ltype
    case LBytes => p.Bytes? && |p.b| + 2 <= f.dataSize && after == VBytes(p.b)
    case LString => p.Bytes? && |p.b| + 1 <= f.dataSize && after == VStr(p.b + [0] + before.buf[|p.b| + 1..])
    case LFixedBytes => p.Bytes? && after == VBytes(if p.b == [] then Zeros(f.dataSize) else p.b) && |p.b| in {0, f.dataSize}
    case LSubmessage(sub) => p.Bytes? && after.VMsg? && ParseMsg(sub, p.b, before.m, IsArray(f.htype)) == Some(after.m)
    case _ => after.VInt? && Means(f, p, after.n) && Fitting(f, after.n)
  }

  /** A value is decoded exactly when its payload is of the field's own kind and can be stored. */
  lemma ValueMeans(f: Field, unions: nat, wireType: nat, s: seq<byte>, before: Value, after: Value)
    requires FieldOk(f, unions) && TypedValue(f, before) && wireType < 8
    requires ReadPayload(wireType, s).Some? && Readable(f, ReadPayload(wireType, s).value.0)
    ensures var (p, rest) := ReadPayload(wireType, s).value;
            ParseValue(f, unions, wireType, s, before) == Some((after, rest)) <==> Stores(f, unions, p, before, after)
  {
    if wireType == Reads.WireTypeOf(f.ltype) {
      if Packable(f.ltype) {
        if after.VInt? {
          ScalarMeans(f, unions, s, after.n);
        } else if ParseNumber(f, s).Some? {
          ScalarSound(f, unions, s);
        }
      } else {
        Skip.NumbersAgree(s);
      }
    }
  }

  // ----- arrays -----

  /** Payloads stored as the elements from position size on, and no other element touched. */
  ghost predicate StoresEach(f: Field, unions: nat, ps: seq<Payload>, before: seq<Value>, size: nat, after: seq<Value>)
    requires FieldOk(f, unions) && forall j :: 0 <= j < |before| ==> TypedValue(f, before[j])
  {
    && |after| == |before| && (ps == [] || size + |ps| <= |before|)
    && (forall j :: 0 <= j < |before| && (j < size || size + |ps| <= j) ==> after[j] == before[j])
    && forall j :: size <= j < size + |ps| ==> Stores(f, unions, ps[j - size], before[j], after[j])
  }

  lemma StoresNext(f: Field, unions: nat, ps: seq<Payload>, before: seq<Value>, size: nat, after: seq<Value>)
    requires FieldOk(f, unions) && Packable(f.ltype) && forall j :: 0 <= j < |before| ==> TypedValue(f, before[j])
    requires ps != [] && size < |before| && |after| == |before|
    requires TypedValue(f, after[size]) && Stores(f, unions, ps[0], before[size], after[size])
    ensures StoresEach(f, unions, ps, before, size, after) <==> StoresEach(f, unions, ps[1..], before[size := after[size]], size + 1, after)
  {
    var next := before[size := after[size]];
    if StoresEach(f, unions, ps[1..], next, size + 1, after) {
      forall j | size <= j < size + |ps|
        ensures Stores(f, unions, ps[j - size], before[j], after[j])
      {
        if j > size {
          assert ps[j - size] == ps[1..][j - (size + 1)] && next[j] == before[j];
        }
      }
    }
    if StoresEach(f, unions, ps, before, size, after) {
      forall j | size + 1 <= j < size + 1 + |ps[1..]|
        ensures Stores(f, unions, ps[1..][j - (size + 1)], next[j], after[j])
      {
        assert ps[j - size] == ps[1..][j - (size + 1)] && next[j] == before[j];
      }
    }
  }

  /** All payloads of a packed record, as far as the decoder has room for them. */
  ghost predicate ReadablePacked(f: Field, s: seq<byte>)
    requires Packable(f.ltype)
  {
    var ps := ReadElements(ElementWireType(f.ltype), s);
    ps.Some? && forall p :: p in ps.value ==> Readable(f, p)
  }

  lemma FirstElement(f: Field, s: seq<byte>)
    requires Packable(f.ltype) && ReadablePacked(f, s) && s != []
    ensures var (w, ps) := (ElementWireType(f.ltype), ReadElements(ElementWireType(f.ltype), s).value);
            && ReadPayload(w, s).Some? && ps != [] && ps[0] == ReadPayload(w, s).value.0 && Readable(f, ps[0])
            && ReadElements(w, ReadPayload(w, s).value.1) == Some(ps[1..]) && ReadablePacked(f, ReadPayload(w, s).value.1)
  {
  }

  lemma {:induction false} PackedStores(f: Field, unions: nat, s: seq<byte>, items: seq<Value>, size: nat)
    requires FieldOk(f, unions) && Packable(f.ltype) && forall j :: 0 <= j < |items| ==> TypedValue(f, items[j])
    requires ReadablePacked(f, s) && ParsePacked(f, s, items, size).Some?
    ensures var (ps, r) := (ReadElements(ElementWireType(f.ltype), s).value, ParsePacked(f, s, items, size).value);
            StoresEach(f, unions, ps, items, size, r.0) && r.1 == size + |ps|
    decreases |s|
  {
    if s != [] {
      var ps, after := ReadElements(ElementWireType(f.ltype), s).value, ParsePacked(f, s, items, size).value.0;
      FirstElement(f, s);
      ScalarSound(f, unions, s);
      var (v, rest) := ParseNumber(f, s).value;
      PackedStores(f, unions, rest, items[size := v], size + 1);
      assert after[size] == items[size := v][size];
      StoresNext(f, unions, ps, items, size, after);
    }
  }

  lemma {:induction false} PackedAccepts(f: Field, unions: nat, s: seq<byte>, items: seq<Value>, size: nat, after: seq<Value>)
    requires FieldOk(f, unions) && Packable(f.ltype) && forall j :: 0 <= j < |items| ==> TypedValue(f, items[j])
    requires ReadablePacked(f, s) && StoresEach(f, unions, ReadElements(ElementWireType(f.ltype), s).value, items, size, after)
    ensures ParsePacked(f, s, items, size) == Some((after, size + |ReadElements(ElementWireType(f.ltype), s).value|))
    decreases |s|
  {
    if s == [] {
      assert after == items;
    } else {
      var ps := ReadElements(ElementWireType(f.ltype), s).value;
      FirstElement(f, s);
      assert Stores(f, unions, ps[size - size], items[size], after[size]);
      ScalarMeans(f, unions, s, after[size].n);
      StoresNext(f, unions, ps, items, size, after);
      PackedAccepts(f, unions, ReadPayload(ElementWireType(f.ltype), s).value.1, items[size := after[size]], size + 1, after);
    }
  }

  lemma PackedMeans(f: Field, unions: nat, s: seq<byte>, items: seq<Value>, size: nat, after: seq<Value>, total: nat)
    requires FieldOk(f, unions) && Packable(f.ltype) && ReadablePacked(f, s) && forall j :: 0 <= j < |items| ==> TypedValue(f, items[j])
    ensures var ps := ReadElements(ElementWireType(f.ltype), s).value;
            ParsePacked(f, s, items, size) == Some((after, total)) <==> StoresEach(f, unions, ps, items, size, after) && total == size + |ps|
  {
    if ParsePacked(f, s, items, size).Some? {
      PackedStores(f, unions, s, items, size);
    }
    if StoresEach(f, unions, ReadElements(ElementWireType(f.ltype), s).value, items, size, after) {
      PackedAccepts(f, unions, s, items, size, after);
    }
  }

  lemma {:induction false} PackedSound(f: Field, unions: nat, s: seq<byte>, items: seq<Value>, size: nat)
    requires FieldOk(f, unions) && Packable(f.ltype) && forall j :: 0 <= j < |items| ==> TypedValue(f, items[j])
    requires ParsePacked(f, s, items, size).Some?
    ensures ReadElements(ElementWireType(f.ltype), s).Some?
    decreases |s|
  {
    if s != [] {
      ScalarSound(f, unions, s);
      var (v, rest) := ParseNumber(f, s).value;
      PackedSound(f, unions, rest, items[size := v], size + 1);
    }
  }

  // ----- slots -----

  /** The values a record brings to a field: of a packed array all, else one. */
  function Brought(f: Field, p: Payload): Option<seq<Payload>> {
    if p.Bytes? && Packable(f.ltype) then ReadElements(ElementWireType(f.ltype), p.b) else Some([p])
  }

  /** What a record makes of a field: an array grows, anything else is replaced, built on or switched to. */
  ghost predicate StoresSlot(f: Field, unions: nat, p: Payload, slot: Slot, which: seq<nat>, fixedSize: nat, r: SlotResult)
    requires FieldOk(f, unions) && TypedSlot(f, slot) && |which| == unions
  {
    match f.htype
    case Optional => r.slot.Opt? && r.slot.has && Stores(f, unions, p, slot.v, r.slot.v) && r.which == which && r.fixedSize == fixedSize
    case Oneof(u) =>
      UnionValueTyped(f, unions);
      && r.slot.One? && r.which == which[u := f.tag] && r.fixedSize == fixedSize
      && Stores(f, unions, p, if f.ltype.LSubmessage? && which[u] != f.tag then UnionValue(f) else slot.v, r.slot.v)
    case Repeated =>
      && r.slot.Rep? && r.which == which && r.fixedSize == fixedSize && Brought(f, p).Some?
      && r.slot.count == slot.count + |Brought(f, p).value|
      && StoresEach(f, unions, Brought(f, p).value, slot.items, slot.count, r.slot.items)
    case FixArray =>
      && r.slot.Fix? && r.which == which && Brought(f, p).Some?
      && r.fixedSize == fixedSize + |Brought(f, p).value|
      && StoresEach(f, unions, Brought(f, p).value, slot.items, fixedSize, r.slot.items)
    case _ => r.slot.One? && Stores(f, unions, p, slot.v, r.slot.v) && r.which == which && r.fixedSize == fixedSize
  }

  /** The exact outcome of decoding one record's payload into a field. */
  lemma SlotMeans(f: Field, unions: nat, wireType: nat, s: seq<byte>, slot: Slot, which: seq<nat>, fixedSize: nat, r: SlotResult)
    requires FieldOk(f, unions) && TypedSlot(f, slot) && |which| == unions && wireType < 8
    requires ReadableElement(f, wireType, s) && ReadPayload(wireType, s).value.1 == r.rest
    ensures ParseSlot(f, unions, wireType, s, slot, which, fixedSize) == Some(r) <==>
            StoresSlot(f, unions, ReadPayload(wireType, s).value.0, slot, which, fixedSize, r)
  {
    match f.htype
    case Optional => SingleMeans(f, unions, wireType, s, slot.v, r);
    case Oneof(u) =>
      UnionValueTyped(f, unions);
      SingleMeans(f, unions, wireType, s, if f.ltype.LSubmessage? && which[u] != f.tag then UnionValue(f) else slot.v, r);
    case Repeated => ElementMeans(f, unions, wireType, s, slot, which, fixedSize, r);
    case FixArray => ElementMeans(f, unions, wireType, s, slot, which, fixedSize, r);
    case _ => SingleMeans(f, unions, wireType, s, slot.v, r);
  }

  /** A field that is not an array: for the value the record leaves, and for no other. */
  lemma SingleMeans(f: Field, unions: nat, wireType: nat, s: seq<byte>, before: Value, r: SlotResult)
    requires FieldOk(f, unions) && TypedValue(f, before) && wireType < 8 && !IsArray(f.htype)
    requires ReadPayload(wireType, s).Some? && Readable(f, ReadPayload(wireType, s).value.0)
    ensures var (p, rest) := ReadPayload(wireType, s).value;
            && (r.slot.One? || r.slot.Opt? ==>
                  (ParseValue(f, unions, wireType, s, before) == Some((r.slot.v, rest)) <==> Stores(f, unions, p, before, r.slot.v)))
            && (ParseValue(f, unions, wireType, s, before).Some? ==> ParseValue(f, unions, wireType, s, before).value.1 == rest)
  {
    if r.slot.One? || r.slot.Opt? {
      ValueMeans(f, unions, wireType, s, before, r.slot.v);
    }
    RestMeans(f, unions, wireType, s, before);
  }

  lemma RestMeans(f: Field, unions: nat, wireType: nat, s: seq<byte>, before: Value)
    requires FieldOk(f, unions) && TypedValue(f, before) && wireType < 8
    requires ReadPayload(wireType, s).Some? && Readable(f, ReadPayload(wireType, s).value.0)
    ensures ParseValue(f, unions, wireType, s, before).Some? ==>
            ParseValue(f, unions, wireType, s, before).value.1 == ReadPayload(wireType, s).value.1
  {
    if ParseValue(f, unions, wireType, s, before).Some? {
      if Packable(f.ltype) {
        ScalarSound(f, unions, s);
      } else {
        Skip.NumbersAgree(s);
      }
    }
  }

  ghost predicate ReadableElement(f: Field, wireType: nat, s: seq<byte>) {
    && ReadPayload(wireType, s).Some?
    && var p := ReadPayload(wireType, s).value.0;
       Readable(f, p) && (Brought(f, p).Some? ==> forall e :: e in Brought(f, p).value ==> Readable(f, e))
  }

  lemma ElementMeans(f: Field, unions: nat, wireType: nat, s: seq<byte>, slot: Slot, which: seq<nat>, fixedSize: nat, r: SlotResult)
    requires FieldOk(f, unions) && IsArray(f.htype) && TypedSlot(f, slot) && |which| == unions && wireType < 8
    requires ReadableElement(f, wireType, s) && ReadPayload(wireType, s).value.1 == r.rest
    ensures ParseElement(f, unions, wireType, s, slot, which, fixedSize) == Some(r) <==>
            StoresSlot(f, unions, ReadPayload(wireType, s).value.0, slot, which, fixedSize, r)
  {
    var size := ArraySize(slot, fixedSize);
    if wireType == 2 && Packable(f.ltype) {
      PackedElement(f, unions, s, slot, which, fixedSize, r);
    } else if size < f.arraySize {
      RestMeans(f, unions, wireType, s, slot.items[size]);
      if r.slot.Rep? || r.slot.Fix? {
        OneMore(f, unions, wireType, s, slot.items, size, r.slot.items);
      }
    }
  }

  lemma PackedElement(f: Field, unions: nat, s: seq<byte>, slot: Slot, which: seq<nat>, fixedSize: nat, r: SlotResult)
    requires FieldOk(f, unions) && IsArray(f.htype) && TypedSlot(f, slot) && |which| == unions && Packable(f.ltype)
    requires ReadableElement(f, 2, s) && ReadPayload(2, s).value.1 == r.rest
    ensures ParseElement(f, unions, 2, s, slot, which, fixedSize) == Some(r) <==>
            StoresSlot(f, unions, ReadPayload(2, s).value.0, slot, which, fixedSize, r)
  {
    var (p, rest) := ReadPayload(2, s).value;
    var size := ArraySize(slot, fixedSize);
    Skip.NumbersAgree(s);
    assert Delimited(s) == Some((p.b, rest));
    if ReadElements(ElementWireType(f.ltype), p.b).None? {
      if ParsePacked(f, p.b, slot.items, size).Some? {
        PackedSound(f, unions, p.b, slot.items, size);
      }
    } else if r.slot.Rep? {
      PackedMeans(f, unions, p.b, slot.items, size, r.slot.items, r.slot.count);
    } else if r.slot.Fix? {
      PackedMeans(f, unions, p.b, slot.items, size, r.slot.items, r.fixedSize);
    }
  }

  lemma OneMore(f: Field, unions: nat, wireType: nat, s: seq<byte>, items: seq<Value>, size: nat, after: seq<Value>)
    requires FieldOk(f, unions) && wireType < 8 && size < |items| && forall j :: 0 <= j < |items| ==> TypedValue(f, items[j])
    requires ReadPayload(wireType, s).Some? && Readable(f, ReadPayload(wireType, s).value.0)
    ensures var r := ParseValue(f, unions, wireType, s, items[size]);
            r.Some? && after == items[size := r.value.0] <==> StoresEach(f, unions, [ReadPayload(wireType, s).value.0], items, size, after)
  {
    var p := ReadPayload(wireType, s).value.0;
    RestMeans(f, unions, wireType, s, items[size]);
    if |after| == |items| {
      ValueMeans(f, unions, wireType, s, items[size], after[size]);
      assert StoresEach(f, unions, [p], items, size, after) ==> after == items[size := after[size]];
    }
  }

  // ----- records -----

  /** Everything in the record is within the decoder's widths; numbers above them are PbVarint's matter. */
  ghost predicate WithinWidths(d: MsgDesc, r: Record) {
    && r.number < 0x2000_0000
    && (r.payload.Bytes? ==> |r.payload.b| < TWO32)
    && forall i :: 0 <= i < |d.fields| && d.fields[i].tag == r.number ==>
         Readable(d.fields[i], r.payload) &&
         (Brought(d.fields[i], r.payload).Some? ==> forall e :: e in Brought(d.fields[i], r.payload).value ==> Readable(d.fields[i], e))
  }

  lemma KeyMeans(d: MsgDesc, s: seq<byte>, p: Progress)
    requires WellFormed(d) && Typed(d, p.m) && ReadRecord(s).Some? && ReadRecord(s).value.0.number < 0x2000_0000
    ensures var (key, tail) := ReadVarint(s).value;
            ParseRecord(d, s, p) == ParseTagged(d, key / 8, key % 8, tail, p)
  {
    Skip.KeyBelow(ReadVarint(s).value.0);
    Skip.NumbersAgree(s);
  }

  /** One record of a field the receiver has: what is stored and where, and when the record is refused. */
  lemma RecordMeans(d: MsgDesc, s: seq<byte>, p: Progress, q: Progress)
    requires WellFormed(d) && Typed(d, p.m) && ReadRecord(s).Some? && WithinWidths(d, ReadRecord(s).value.0)
    requires !Skip.Lacks(d, ReadRecord(s).value.0.number) && |q.m.slots| == |d.fields|
    ensures var (r, rest) := ReadRecord(s).value;
            var i := Find(d.fields, r.number);
            ParseRecord(d, s, p) == Some((q, rest)) <==>
            && Track(d, i, p).Some? && q == Store(Track(d, i, p).value, i, SlotResult(q.m.slots[i], q.m.which, q.fixedSize, rest))
            && StoresSlot(d.fields[i], d.unions, r.payload, p.m.slots[i], p.m.which, Track(d, i, p).value.fixedSize,
                          SlotResult(q.m.slots[i], q.m.which, q.fixedSize, rest))
  {
    var (r, rest) := ReadRecord(s).value;
    var i := Find(d.fields, r.number);
    var (key, tail) := ReadVarint(s).value;
    KeyMeans(d, s, p);
    if Track(d, i, p).Some? {
      var fixedSize := Track(d, i, p).value.fixedSize;
      SlotMeans(d.fields[i], d.unions, key % 8, tail, p.m.slots[i], p.m.which, fixedSize, SlotResult(q.m.slots[i], q.m.which, q.fixedSize, rest));
      var parsed := ParseSlot(d.fields[i], d.unions, key % 8, tail, p.m.slots[i], p.m.which, fixedSize);
      if parsed.Some? {
        assert Store(Track(d, i, p).value, i, parsed.value).m.slots[i] == parsed.value.slot;
      }
    }
  }

  /** One record of any other field: nothing happens. */
  lemma OtherRecord(d: MsgDesc, s: seq<byte>, p: Progress)
    requires WellFormed(d) && Typed(d, p.m) && ReadRecord(s).Some? && WithinWidths(d, ReadRecord(s).value.0)
    requires Skip.Lacks(d, ReadRecord(s).value.0.number)
    ensures ParseRecord(d, s, p) == Some((p, ReadRecord(s).value.1))
  {
    KeyMeans(d, s, p);
    Skip.PayloadSkipped(ReadVarint(s).value.0 % 8, ReadVarint(s).value.1);
  }
}
