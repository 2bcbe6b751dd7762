/**
 Descriptors whose sizes are those of C structs: how many bytes a struct can encode to, why no
 nested message of ordinary depth is too long to be read back, and one of extraordinary depth that is.
 */
module PbLayout {
  import opened Common
  import opened PbVarint
  import opened PbStream
  import opened PbWire
  import opened PbMessage
  import opened PbEncode
  import opened PbParse
  import opened PbRoundTrip
  import opened PbOverflow

  // ----- what a C compiler lays out -----

  /** The bytes of a field, where a union holds the member that is chosen. */
  function FieldBytes(f: Field, which: seq<nat>): nat
    requires f.htype.Oneof? ==> f.htype.union < |which|
  {
    if f.htype.Oneof? && which[f.htype.union] != f.tag then 0 else f.dataSize * f.arraySize
  }

  ghost function Occupied(d: MsgDesc, which: seq<nat>, i: nat): nat
    requires WellFormed(d) && |which| == d.unions && i <= |d.fields|
    decreases |d.fields| - i
  {
    if i == |d.fields| then 0
    else
      assert FieldOk(d.fields[i], d.unions);
      FieldBytes(d.fields[i], which) + Occupied(d, which, i + 1)
  }

  /** Objects have a size, and whatever members are chosen lie side by side in the struct: data_size is its sizeof. */
  ghost predicate Laid(d: MsgDesc)
    requires WellFormed(d)
  {
    forall i :: 0 <= i < |d.fields| ==> LaidField(d.fields[i], d.unions)
  }

  ghost predicate LaidField(f: Field, unions: nat)
    requires FieldOk(f, unions)
  {
    1 <= f.dataSize && (f.ltype.LSubmessage? ==> Laid(f.ltype.sub) && Holds(f.ltype.sub, f.dataSize))
  }

  ghost predicate Holds(d: MsgDesc, size: nat)
    requires WellFormed(d)
  {
    forall which: seq<nat> :: |which| == d.unions ==> Occupied(d, which, 0) <= size
  }

  /** Messages are nested at most k levels deep. */
  ghost predicate Deep(d: MsgDesc, k: nat)
    decreases d
  {
    forall i :: 0 <= i < |d.fields| ==> DeepField(d.fields[i], k)
  }

  ghost predicate DeepField(f: Field, k: nat) {
    f.ltype.LSubmessage? ==> k > 0 && Deep(f.ltype.sub, k - 1)
  }

  // ----- how many bytes of encoding a byte of struct can become -----

  /** Twenty-three for every level: key, length or value, and what is inside. */
  function Load(k: nat): nat {
    23 * (k + 1)
  }

  lemma KeyLength(f: Field, unions: nat, w: nat)
    requires FieldOk(f, unions) && w < 8
    ensures |Varint(Key(w, f.tag))| <= 3
  {
    Shift7Four(1);
    VarintLength(Key(w, f.tag), 3);
  }

  lemma Scale(a: nat, b: nat, s: nat)
    requires a <= b
    ensures a * s <= b * s
  {
  }

  /** One more level costs a byte of struct twenty-three bytes more, which is room for a key and a length. */
  lemma LevelUp(k: nat, s: nat)
    requires k > 0 && s >= 1
    ensures 13 + Load(k - 1) * s <= Load(k) * s && 23 * s <= Load(k) * s
  {
    assert Load(k) * s == 23 * s + Load(k - 1) * s;
  }

  lemma {:induction false} RecordLength(f: Field, unions: nat, v: Value, k: nat)
    requires FieldOk(f, unions) && TypedValue(f, v) && LaidField(f, unions) && DeepField(f, k)
    requires EncodeRecord(f, unions, v).Some?
    ensures |EncodeRecord(f, unions, v).value| <= Load(k) * f.dataSize
    decreases f, 0
  {
    RecordBytes(f, unions, v, []);
    KeyLength(f, unions, WireType(f.ltype));
    Scale(23, Load(k), f.dataSize);
    match f.ltype
    case LBytes => VarintAtMostTen(|v.b|);
    case LString => VarintAtMostTen(StrLen(v.buf));
    case LFixedBytes => VarintAtMostTen(|v.b|);
    case LSubmessage(sub) =>
      var payload := EncodeFrom(sub, v.m, 0).value;
      VarintAtMostTen(|payload|);
      NestedLength(sub, v.m, k - 1, f.dataSize);
      LevelUp(k, f.dataSize);
    case _ => ScalarShort(f, v);
  }

  /** A nested message is bounded by the size of its struct and its depth. */
  lemma {:induction false} NestedLength(d: MsgDesc, m: Msg, k: nat, size: nat)
    requires WellFormed(d) && Typed(d, m) && Laid(d) && Deep(d, k) && Holds(d, size) && EncodeFrom(d, m, 0).Some?
    ensures |EncodeFrom(d, m, 0).value| <= Load(k) * size
    decreases d, |d.fields| + 1
  {
    MsgLength(d, m, 0, k);
    Times(Load(k), Occupied(d, m.which, 0), size);
  }

  lemma Times(w: nat, a: nat, b: nat)
    requires a <= b
    ensures w * a <= w * b
  {
  }

  lemma TimesSum(w: nat, a: nat, b: nat)
    ensures w * a + w * b == w * (a + b)
  {
  }

  lemma {:induction false} ItemsLengthBound(f: Field, unions: nat, items: seq<Value>, k: nat, each: nat)
    requires FieldOk(f, unions) && LaidField(f, unions) && DeepField(f, k) && each == Load(k) * f.dataSize
    requires (forall e :: 0 <= e < |items| ==> TypedValue(f, items[e])) && EncodeItems(f, unions, items).Some?
    ensures |EncodeItems(f, unions, items).value| <= each * |items|
    decreases f, 1, |items|
  {
    if items != [] {
      ItemsBytes(f, unions, items, []);
      RecordLength(f, unions, items[0], k);
      ItemsLengthBound(f, unions, items[1..], k, each);
      assert each * |items| == each + each * (|items| - 1);
    }
  }

  lemma {:induction false} ArrayLength(f: Field, unions: nat, s: Slot, k: nat)
    requires FieldOk(f, unions) && TypedSlot(f, s) && LaidField(f, unions) && DeepField(f, k) && IsArray(f.htype)
    requires EncodeArray(f, unions, s).Some?
    ensures |EncodeArray(f, unions, s).value| <= (Load(k) * f.dataSize) * f.arraySize
    decreases f, 2
  {
    var each, n := Load(k) * f.dataSize, Count(f, s);
    if 0 < n <= f.arraySize {
      Times(each, n, f.arraySize);
      if Packable(f.ltype) {
        Scale(23, Load(k), f.dataSize);
        Scale(23, each, n);
        PackedLength(f, unions, s.items[..n]);
      } else {
        ItemsLengthBound(f, unions, s.items[..n], k, each);
      }
    }
  }

  lemma PackedLength(f: Field, unions: nat, items: seq<Value>)
    requires FieldOk(f, unions) && Packable(f.ltype) && 0 < |items| < 0x1_0000 && forall i :: 0 <= i < |items| ==> TypedValue(f, items[i])
    ensures var e := Concat(Some(Varint(Key(WT_STRING, f.tag))), WithLength(EncodePacked(f, items)));
            e.Some? ==> |e.value| <= 23 * |items|
  {
    KeyLength(f, unions, WT_STRING);
    PackedShort(f, items);
    VarintAtMostTen(|EncodePacked(f, items)|);
  }

  lemma Regroup(a: nat, b: nat, c: nat)
    ensures (a * b) * c == a * (b * c)
  {
  }

  lemma {:induction false} FieldLength(f: Field, unions: nat, s: Slot, which: seq<nat>, k: nat)
    requires FieldOk(f, unions) && TypedSlot(f, s) && |which| == unions && LaidField(f, unions) && DeepField(f, k)
    requires EncodeField(f, unions, s, which).Some?
    ensures |EncodeField(f, unions, s, which).value| <= Load(k) * FieldBytes(f, which)
    decreases f, 3
  {
    Regroup(Load(k), f.dataSize, f.arraySize);
    if IsArray(f.htype) {
      ArrayLength(f, unions, s, k);
    } else if EncodeField(f, unions, s, which).value != [] {
      RecordLength(f, unions, s.v, k);
      Times(Load(k) * f.dataSize, 1, f.arraySize);
    }
  }

  /** A message is bounded by the bytes its struct has in use and its depth. */
  lemma {:induction false} MsgLength(d: MsgDesc, m: Msg, i: nat, k: nat)
    requires WellFormed(d) && Typed(d, m) && i <= |d.fields| && Laid(d) && Deep(d, k) && EncodeFrom(d, m, i).Some?
    ensures |EncodeFrom(d, m, i).value| <= Load(k) * Occupied(d, m.which, i)
    decreases d, |d.fields| - i
  {
    if i < |d.fields| {
      var f := d.fields[i];
      FieldsEncode(d, m, i);
      FieldLength(f, d.unions, m.slots[i], m.which, k);
      MsgLength(d, m, i + 1, k);
      TimesSum(Load(k), FieldBytes(f, m.which), Occupied(d, m.which, i + 1));
    }
  }

  // ----- why ordinary messages can be read back -----

  /** With 16-bit sizes: up to 2849 levels. */
  predicate Ordinary(k: nat) {
    23 * k * 0xFFFF < TWO32
  }

  lemma PayloadOrdinary(f: Field, unions: nat, v: Value, k: nat)
    requires FieldOk(f, unions) && TypedValue(f, v) && LaidField(f, unions) && DeepField(f, k) && Ordinary(k)
    ensures PayloadFits(f, unions, v)
  {
    if f.ltype.LSubmessage? && EncodeFrom(f.ltype.sub, v.m, 0).Some? {
      NestedLength(f.ltype.sub, v.m, k - 1, f.dataSize);
      Times(Load(k - 1), f.dataSize, 0xFFFF);
    }
  }

  lemma {:induction false} MessageOrdinary(d: MsgDesc, m: Msg, i: nat, k: nat)
    requires WellFormed(d) && Typed(d, m) && i <= |d.fields| && Laid(d) && Deep(d, k) && Ordinary(k) && EncodeFrom(d, m, i).Some?
    ensures PayloadsFit(d, m, i)
    decreases |d.fields| - i
  {
    if i < |d.fields| {
      var f, s := d.fields[i], m.slots[i];
      FieldsEncode(d, m, i);
      if IsArray(f.htype) {
        forall e | 0 <= e < |s.items| ensures PayloadFits(f, d.unions, s.items[e]) {
          PayloadOrdinary(f, d.unions, s.items[e], k);
        }
      } else {
        PayloadOrdinary(f, d.unions, s.v, k);
      }
      MessageOrdinary(d, m, i + 1, k);
    }
  }

  /** So for structs as a compiler lays them out, nested up to 2849 levels, the round trip needs no bound on lengths. */
  lemma LaidRoundTrip(d: MsgDesc, m: Msg, m0: Msg, init: bool, k: nat)
    requires WellFormed(d) && Typed(d, m) && Typed(d, m0) && (init || Fresh(d, m0))
    requires Laid(d) && Deep(d, k) && k <= 2849 && Encode(d, m).Some?
    ensures var r := ParseMsg(d, Encode(d, m).value, m0, init);
            r.Some? && Same(d, m, r.value)
  {
    assert Ordinary(k) by { Scale(k, 2849, 23 * 0xFFFF); }
    MessageOrdinary(d, m, 0, k);
    MsgRoundTrip(d, m, m0, init);
  }

  // ----- a message that is too long -----

  /** A flag inside n structs, one inside the other, of one byte each. */
  function Link(n: nat): MsgDesc {
    if n == 0 then MsgDesc([Field(1, LBool, Required, 1, 1, Layout(4, 0, 0))], 0) else MsgDesc([Inner(Link(n - 1))], 0)
  }

  function Inner(d: MsgDesc): Field {
    Field(1, LSubmessage(d), Required, 1, 1, Layout(4, 0, 0))
  }

  function Chain(n: nat): Msg {
    if n == 0 then Msg([One(VInt(1))], []) else Msg([One(VMsg(Chain(n - 1)))], [])
  }

  lemma {:induction false} LinkLaid(n: nat)
    requires WellFormed(Link(n))
    ensures Laid(Link(n)) && Holds(Link(n), 1)
  {
    var d := Link(n);
    assert FieldOk(d.fields[0], 0);
    if n > 0 {
      LinkLaid(n - 1);
    }
    forall which: seq<nat> | |which| == 0 ensures Occupied(d, which, 0) <= 1 {
      assert Occupied(d, which, 1) == 0;
    }
  }

  lemma {:induction false} LinkOk(n: nat)
    ensures WellFormed(Link(n)) && Typed(Link(n), Chain(n))
  {
    if n > 0 {
      LinkOk(n - 1);
    }
  }

  lemma Around(f: Field, v: Value)
    requires FieldOk(f, 0) && f.ltype.LSubmessage? && f.tag == 1 && TypedValue(f, v)
    requires var e := EncodeFrom(f.ltype.sub, v.m, 0); e.Some? && |e.value| < 0x20_0000
    ensures var inner, e := |EncodeFrom(f.ltype.sub, v.m, 0).value|, EncodeRecord(f, 0, v);
            e.Some? && inner + 2 <= |e.value| <= inner + 4
  {
    Shift7Four(1);
    VarintLength(|EncodeFrom(f.ltype.sub, v.m, 0).value|, 3);
    assert |Varint(Key(WT_STRING, 1))| == 1;
  }

  /** Each level adds a key of one byte and a length of one to three. */
  lemma {:induction false} ChainLength(n: nat)
    requires n <= 0x8000
    ensures WellFormed(Link(n)) && Typed(Link(n), Chain(n))
    ensures var e := EncodeFrom(Link(n), Chain(n), 0); e.Some? && 2 + 2 * n <= |e.value| <= 2 + 4 * n
  {
    var d, m := Link(n), Chain(n);
    var f := d.fields[0];
    LinkOk(n);
    assert FieldOk(f, 0) && EncodeFrom(d, m, 1) == Some([]);
    assert EncodeField(f, 0, m.slots[0], []) == EncodeRecord(f, 0, m.slots[0].v);
    if n == 0 {
      assert |Varint(Key(WT_VARINT, 1))| == 1 && |Varint(1)| == 1;
    } else {
      ChainLength(n - 1);
      Around(f, m.slots[0].v);
    }
  }

  /** As many chains as fit into a struct whose size has 16 bits. */
  function Bundle(n: nat): Field {
    Field(1, LSubmessage(Link(n)), FixArray, 1, 0xFFFF, Layout(4, 0, 0))
  }

  function Bundles(n: nat): MsgDesc {
    MsgDesc([Bundle(n)], 0)
  }

  function Holder(n: nat): MsgDesc {
    MsgDesc([Field(1, LSubmessage(Bundles(n)), Required, 0xFFFF, 1, Layout(4, 0, 0))], 0)
  }

  function Chains(n: nat): Msg {
    Msg([Fix(seq(0xFFFF, _ => VMsg(Chain(n))))], [])
  }

  function Held(n: nat): Msg {
    Msg([One(VMsg(Chains(n)))], [])
  }

  lemma BundleOk(n: nat)
    ensures WellFormed(Bundles(n)) && Typed(Bundles(n), Chains(n)) && FieldOk(Bundle(n), 0) && TypedValue(Bundle(n), VMsg(Chain(n)))
    ensures WellFormed(Holder(n)) && Typed(Holder(n), Held(n))
  {
    LinkOk(n);
    assert FieldOk(Bundle(n), 0);
    assert TypedSlot(Bundle(n), Chains(n).slots[0]);
    assert WellFormed(Bundles(n)) && Typed(Bundles(n), Chains(n));
    assert FieldOk(Holder(n).fields[0], 0);
    assert TypedSlot(Holder(n).fields[0], Held(n).slots[0]);
  }

  /** The sizes add up as in C. */
  lemma HolderLaid(n: nat)
    requires WellFormed(Link(n)) && WellFormed(Bundles(n)) && WellFormed(Holder(n))
    ensures Laid(Holder(n))
  {
    LinkLaid(n);
    assert LaidField(Bundle(n), 0);
    forall which: seq<nat> | |which| == 0 ensures Occupied(Bundles(n), which, 0) <= 0xFFFF {
      assert Occupied(Bundles(n), which, 1) == 0;
    }
    assert LaidField(Holder(n).fields[0], 0);
  }

  lemma {:induction false} ManyLength(f: Field, items: seq<Value>, v: Value, each: nat)
    requires FieldOk(f, 0) && TypedValue(f, v) && EncodeRecord(f, 0, v).Some? && each == |EncodeRecord(f, 0, v).value|
    requires forall e :: 0 <= e < |items| ==> items[e] == v
    ensures EncodeItems(f, 0, items).Some? && |EncodeItems(f, 0, items).value| == each * |items|
    decreases |items|
  {
    if items != [] {
      ManyLength(f, items[1..], v, each);
      assert each * |items| == each + each * (|items| - 1);
    }
  }

  lemma BundleLength(n: nat)
    requires n == 0x8000
    ensures WellFormed(Bundles(n)) && Typed(Bundles(n), Chains(n))
    ensures var e := EncodeFrom(Bundles(n), Chains(n), 0); e.Some? && TWO32 <= |e.value| < SIGN_LIKE
  {
    var f, v := Bundle(n), VMsg(Chain(n));
    var each := EachLength(n);
    BundleIs(n, Chains(n).slots[0].items);
    ManyLength(f, Chains(n).slots[0].items, v, each);
  }

  lemma EachLength(n: nat) returns (each: nat)
    requires n == 0x8000
    ensures FieldOk(Bundle(n), 0) && TypedValue(Bundle(n), VMsg(Chain(n)))
    ensures var e := EncodeRecord(Bundle(n), 0, VMsg(Chain(n))); e.Some? && each == |e.value| && 0x1_0004 <= each <= 0x2_0006
  {
    BundleOk(n);
    ChainLength(n);
    Around(Bundle(n), VMsg(Chain(n)));
    each := |EncodeRecord(Bundle(n), 0, VMsg(Chain(n))).value|;
  }

  lemma BundleIs(n: nat, items: seq<Value>)
    requires items == Chains(n).slots[0].items
    ensures WellFormed(Bundles(n)) && Typed(Bundles(n), Chains(n)) && FieldOk(Bundle(n), 0)
    ensures forall e :: 0 <= e < |items| ==> TypedValue(Bundle(n), items[e])
    ensures |items| == 0xFFFF && EncodeFrom(Bundles(n), Chains(n), 0) == Concat(EncodeItems(Bundle(n), 0, items), Some([]))
  {
    BundleOk(n);
    assert items[..0xFFFF] == items;
    assert EncodeField(Bundle(n), 0, Chains(n).slots[0], []) == EncodeItems(Bundle(n), 0, items);
    assert EncodeFrom(Bundles(n), Chains(n), 1) == Some([]);
  }

  /** It encodes, and the decoder refuses what was written. */
  lemma TooLong(n: nat, m0: Msg)
    requires n == 0x8000 && Typed(Holder(n), m0)
    ensures WellFormed(Holder(n)) && Laid(Holder(n)) && Typed(Holder(n), Held(n)) && Encode(Holder(n), Held(n)).Some?
    ensures ParseMsg(Holder(n), Encode(Holder(n), Held(n)).value, m0, true) == None
  {
    LinkOk(n);
    BundleOk(n);
    HolderLaid(n);
    BundleLength(n);
    HolderFits(Holder(n), Holder(n).fields[0], Held(n), VMsg(Chains(n)));
    MsgRoundTripIff(Holder(n), Held(n), m0, true);
  }

  /** A message of one required field. */
  lemma HolderFits(d: MsgDesc, f: Field, m: Msg, v: Value)
    requires WellFormed(d) && d == MsgDesc([f], 0) && Typed(d, m) && m == Msg([One(v)], []) && f.htype.Required?
    requires FieldOk(f, 0) && TypedValue(f, v) && f.ltype.LSubmessage?
    requires var e := EncodeFrom(f.ltype.sub, v.m, 0); e.Some? && TWO32 <= |e.value| < SIGN_LIKE
    ensures Encode(d, m).Some? && PayloadsFit(d, m, 0, SIGN_LIKE) && !PayloadsFit(d, m, 0)
  {
    assert EncodeField(f, 0, m.slots[0], []) == EncodeRecord(f, 0, v);
    assert EncodeFrom(d, m, 1) == Some([]);
    assert EncodeValue(f, 0, v).Some?;
    assert EncodeFrom(d, m, 0) == Concat(EncodeField(f, 0, m.slots[0], []), EncodeFrom(d, m, 1));
    assert PayloadFits(f, 0, v, SIGN_LIKE) && !PayloadFits(f, 0, v);
    assert PayloadsFit(d, m, 1, SIGN_LIKE);
  }
}
