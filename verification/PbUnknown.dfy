/**
 Forward compatibility: a record whose tag the descriptor does not have can be put at any
 record boundary, any number of times, without changing what is decoded.
 */
module PbUnknown {
  import opened Common
  import opened PbVarint
  import opened PbWire
  import opened PbMessage
  import opened PbEncode
  import opened PbParse
  import opened PbRoundTrip

  /** Whole records with non-zero tags the descriptor does not have. */
  predicate Unknown(d: MsgDesc, u: seq<byte>)
    decreases |u|
  {
    u == [] ||
    var key := Decode32(u);
    && key.Some? && key.value.0 / 8 != 0 && Find(d.fields, key.value.0 / 8) == |d.fields|
    && AfterField(key.value.0 % 8, key.value.1).Some?
    && Unknown(d, AfterField(key.value.0 % 8, key.value.1).value)
  }

  // ----- no parser looks past the record it accepts -----

  lemma {:induction false} Decode32Suffix(s: seq<byte>, k: nat, negative: bool, t: seq<byte>)
    requires Decode32(s, k, negative).Some?
    ensures Decode32(s + t, k, negative) == Some((Decode32(s, k, negative).value.0, Decode32(s, k, negative).value.1 + t))
    decreases s
  {
    assert (s + t)[1..] == s[1..] + t;
    if s[0] >= 128 {
      Decode32Suffix(s[1..], k + 1, if k == 4 then s[0] % 128 % 16 >= 8 else negative, t);
    }
  }

  lemma {:induction false} Decode64Suffix(s: seq<byte>, k: nat, t: seq<byte>)
    requires Decode64(s, k).Some?
    ensures Decode64(s + t, k) == Some((Decode64(s, k).value.0, Decode64(s, k).value.1 + t))
    decreases s
  {
    assert (s + t)[1..] == s[1..] + t;
    if s[0] >= 128 {
      Decode64Suffix(s[1..], k + 1, t);
    }
  }

  lemma {:induction false} AfterVarintSuffix(s: seq<byte>, t: seq<byte>)
    requires AfterVarint(s).Some?
    ensures AfterVarint(s + t) == Some(AfterVarint(s).value + t)
  {
    assert (s + t)[1..] == s[1..] + t;
    if s[0] >= 128 {
      AfterVarintSuffix(s[1..], t);
    }
  }

  lemma CutSuffix(s: seq<byte>, n: nat, t: seq<byte>)
    requires n <= |s|
    ensures (s + t)[..n] == s[..n] && (s + t)[n..] == s[n..] + t
  {
  }

  lemma DelimitedSuffix(s: seq<byte>, t: seq<byte>)
    requires Delimited(s).Some?
    ensures Delimited(s + t) == Some((Delimited(s).value.0, Delimited(s).value.1 + t))
  {
    Decode32Suffix(s, 0, false, t);
    CutSuffix(Decode32(s).value.1, Decode32(s).value.0, t);
  }

  lemma AfterFieldSuffix(wireType: nat, s: seq<byte>, t: seq<byte>)
    requires AfterField(wireType, s).Some?
    ensures AfterField(wireType, s + t) == Some(AfterField(wireType, s).value + t)
  {
    if wireType == WT_VARINT {
      AfterVarintSuffix(s, t);
    } else if wireType == WT_STRING {
      DelimitedSuffix(s, t);
    } else {
      CutSuffix(s, if wireType == WT_64BIT then 8 else 4, t);
    }
  }

  lemma NumberSuffix(f: Field, s: seq<byte>, t: seq<byte>)
    requires Packable(f.ltype) && SizeOk(f) && ParseNumber(f, s).Some?
    ensures ParseNumber(f, s + t) == Some((ParseNumber(f, s).value.0, ParseNumber(f, s).value.1 + t))
  {
    if f.ltype.LBool? {
      Decode32Suffix(s, 0, false, t);
    } else if f.ltype.LFixed32? {
      CutSuffix(s, 4, t);
    } else if f.ltype.LFixed64? {
      CutSuffix(s, 8, t);
    } else {
      Decode64Suffix(s, 0, t);
    }
  }

  lemma ValueSuffix(f: Field, unions: nat, wireType: nat, s: seq<byte>, before: Value, t: seq<byte>)
    requires FieldOk(f, unions) && TypedValue(f, before) && ParseValue(f, unions, wireType, s, before).Some?
    ensures ParseValue(f, unions, wireType, s + t, before) ==
            Some((ParseValue(f, unions, wireType, s, before).value.0, ParseValue(f, unions, wireType, s, before).value.1 + t))
  {
    if Packable(f.ltype) {
      NumberSuffix(f, s, t);
    } else {
      Decode32Suffix(s, 0, false, t);
      var (n, rest) := Decode32(s).value;
      if n <= |rest| {
        CutSuffix(rest, n, t);
      }
    }
  }

  function Behind(r: Option<SlotResult>, t: seq<byte>): Option<SlotResult> {
    if r.None? then None else Some(r.value.(rest := r.value.rest + t))
  }

  lemma SlotSuffix(f: Field, unions: nat, wireType: nat, s: seq<byte>, slot: Slot, which: seq<nat>, fixedSize: nat, t: seq<byte>)
    requires FieldOk(f, unions) && TypedSlot(f, slot) && |which| == unions
    requires ParseSlot(f, unions, wireType, s, slot, which, fixedSize).Some?
    ensures ParseSlot(f, unions, wireType, s + t, slot, which, fixedSize) ==
            Behind(ParseSlot(f, unions, wireType, s, slot, which, fixedSize), t)
  {
    if IsArray(f.htype) {
      assert ParseSlot(f, unions, wireType, s, slot, which, fixedSize) == ParseElement(f, unions, wireType, s, slot, which, fixedSize);
      ElementSuffix(f, unions, wireType, s, slot, which, fixedSize, t);
    } else {
      UnionValueTyped(f, unions);
      var unset := f.htype.Oneof? && f.ltype.LSubmessage? && which[f.htype.union] != f.tag;
      ValueSuffix(f, unions, wireType, s, if unset then UnionValue(f) else slot.v, t);
    }
  }

  lemma ElementSuffix(f: Field, unions: nat, wireType: nat, s: seq<byte>, slot: Slot, which: seq<nat>, fixedSize: nat, t: seq<byte>)
    requires FieldOk(f, unions) && IsArray(f.htype) && TypedSlot(f, slot) && |which| == unions
    requires ParseElement(f, unions, wireType, s, slot, which, fixedSize).Some?
    ensures ParseElement(f, unions, wireType, s + t, slot, which, fixedSize) ==
            Behind(ParseElement(f, unions, wireType, s, slot, which, fixedSize), t)
  {
    if wireType == WT_STRING && Packable(f.ltype) {
      DelimitedSuffix(s, t);
    } else {
      ValueSuffix(f, unions, wireType, s, slot.items[ArraySize(slot, fixedSize)], t);
    }
  }

  lemma RecordSuffix(d: MsgDesc, s: seq<byte>, p: Progress, t: seq<byte>)
    requires WellFormed(d) && Typed(d, p.m) && ParseRecord(d, s, p).Some?
    ensures ParseRecord(d, s + t, p) == Some((ParseRecord(d, s, p).value.0, ParseRecord(d, s, p).value.1 + t))
  {
    Decode32Suffix(s, 0, false, t);
    var (key, tail) := Decode32(s).value;
    var i := Find(d.fields, key / 8);
    if i == |d.fields| {
      AfterFieldSuffix(key % 8, tail, t);
    } else {
      assert ParseRecord(d, s, p) == ParseKnown(d, i, key % 8, tail, p);
      assert ParseRecord(d, s + t, p) == ParseKnown(d, i, key % 8, tail + t, p);
      var q := Track(d, i, p).value;
      SlotSuffix(d.fields[i], d.unions, key % 8, tail, p.m.slots[i], p.m.which, q.fixedSize, t);
    }
  }

  /** Decoding is a left fold over records: a prefix of whole records can be decoded first. */
  lemma {:induction false} FieldsAppend(d: MsgDesc, s: seq<byte>, p: Progress, t: seq<byte>)
    requires WellFormed(d) && Typed(d, p.m) && ParseFields(d, s, p).Some?
    ensures ParseFields(d, s + t, p) == ParseFields(d, t, ParseFields(d, s, p).value)
    decreases |s|
  {
    if s == [] {
      assert s + t == t;
    } else {
      RecordSuffix(d, s, p, t);
      FieldsAppend(d, ParseRecord(d, s, p).value.1, ParseRecord(d, s, p).value.0, t);
    }
  }

  lemma {:induction false} UnknownSkipped(d: MsgDesc, u: seq<byte>, p: Progress)
    requires WellFormed(d) && Typed(d, p.m) && Unknown(d, u)
    ensures ParseFields(d, u, p) == Some(p)
    decreases |u|
  {
    if u != [] {
      var key := Decode32(u).value;
      assert ParseTagged(d, key.0 / 8, key.0 % 8, key.1, p) == Some((p, AfterField(key.0 % 8, key.1).value));
      UnknownSkipped(d, AfterField(Decode32(u).value.0 % 8, Decode32(u).value.1).value, p);
    }
  }

  // ----- insertion anywhere -----

  /** The message cut at record boundaries. */
  ghost predicate Boundaries(d: MsgDesc, parts: seq<seq<byte>>, p: Progress)
    requires WellFormed(d) && Typed(d, p.m)
    decreases |parts|
  {
    parts == [] || (ParseFields(d, parts[0], p).Some? && Boundaries(d, parts[1..], ParseFields(d, parts[0], p).value))
  }

  function Join(parts: seq<seq<byte>>): seq<byte> {
    if parts == [] then [] else parts[0] + Join(parts[1..])
  }

  /** The parts with padding behind each of them. */
  function Pad(parts: seq<seq<byte>>, padding: seq<seq<byte>>): seq<byte>
    requires |parts| == |padding|
  {
    if parts == [] then [] else parts[0] + (padding[0] + Pad(parts[1..], padding[1..]))
  }

  lemma {:induction false} PaddedFields(d: MsgDesc, parts: seq<seq<byte>>, padding: seq<seq<byte>>, p: Progress)
    requires WellFormed(d) && Typed(d, p.m) && Boundaries(d, parts, p)
    requires |parts| == |padding| && forall i :: 0 <= i < |padding| ==> Unknown(d, padding[i])
    ensures ParseFields(d, Join(parts), p).Some?
    ensures ParseFields(d, Pad(parts, padding), p) == ParseFields(d, Join(parts), p)
    decreases |parts|
  {
    if parts != [] {
      var q := ParseFields(d, parts[0], p).value;
      PaddedFields(d, parts[1..], padding[1..], q);
      FieldsAppend(d, parts[0], p, Join(parts[1..]));
      FieldsAppend(d, parts[0], p, padding[0] + Pad(parts[1..], padding[1..]));
      UnknownSkipped(d, padding[0], q);
      FieldsAppend(d, padding[0], q, Pad(parts[1..], padding[1..]));
    }
  }

  /** Unknown records between the records of a message change neither success nor the struct. */
  lemma UnknownFieldsIgnored(d: MsgDesc, parts: seq<seq<byte>>, padding: seq<seq<byte>>, m0: Msg, init: bool)
    requires WellFormed(d) && Typed(d, m0)
    requires Boundaries(d, parts, Start(d, m0, init))
    requires |parts| == |padding| && forall i :: 0 <= i < |padding| ==> Unknown(d, padding[i])
    ensures ParseMsg(d, Pad(parts, padding), m0, init) == ParseMsg(d, Join(parts), m0, init)
  {
    PaddedFields(d, parts, padding, Start(d, m0, init));
  }

  // ----- insertion into what the encoder wrote -----

  function ItemRecords(f: Field, unions: nat, items: seq<Value>): seq<seq<byte>>
    requires FieldOk(f, unions) && forall e :: 0 <= e < |items| ==> TypedValue(f, items[e])
    requires EncodeItems(f, unions, items).Some?
  {
    if items == [] then [] else [EncodeRecord(f, unions, items[0]).value] + ItemRecords(f, unions, items[1..])
  }

  /** What is written for a field, cut between the elements of an array that is not packed. */
  function FieldRecords(f: Field, unions: nat, s: Slot, which: seq<nat>): seq<seq<byte>>
    requires FieldOk(f, unions) && TypedSlot(f, s) && |which| == unions && EncodeField(f, unions, s, which).Some?
  {
    if IsArray(f.htype) && !Packable(f.ltype) && 0 < Count(f, s) <= |s.items|
    then
      assert EncodeField(f, unions, s, which) == EncodeArray(f, unions, s);
      ItemRecords(f, unions, s.items[..Count(f, s)])
    else
      [EncodeField(f, unions, s, which).value]
  }

  /** The encoding of the fields from i on, cut into records. */
  function Records(d: MsgDesc, m: Msg, i: nat): seq<seq<byte>>
    requires WellFormed(d) && Typed(d, m) && i <= |d.fields| && EncodeFrom(d, m, i).Some?
    decreases |d.fields| - i
  {
    if i == |d.fields| then []
    else FieldRecords(d.fields[i], d.unions, m.slots[i], m.which) + Records(d, m, i + 1)
  }

  lemma {:induction false} JoinConcat(a: seq<seq<byte>>, b: seq<seq<byte>>)
    ensures Join(a + b) == Join(a) + Join(b)
  {
    if a == [] {
      assert a + b == b;
    } else {
      JoinConcat(a[1..], b);
      assert (a + b)[1..] == a[1..] + b && (a + b)[0] == a[0];
      Assoc(a[0], Join(a[1..]), Join(b));
    }
  }

  lemma {:induction false} BoundariesConcat(d: MsgDesc, a: seq<seq<byte>>, b: seq<seq<byte>>, p: Progress, q: Progress)
    requires WellFormed(d) && Typed(d, p.m) && Typed(d, q.m)
    requires Boundaries(d, a, p) && ParseFields(d, Join(a), p) == Some(q) && Boundaries(d, b, q)
    ensures Boundaries(d, a + b, p)
    decreases |a|
  {
    if a == [] {
      assert a + b == b;
    } else {
      var r := ParseFields(d, a[0], p).value;
      FieldsAppend(d, a[0], p, Join(a[1..]));
      BoundariesConcat(d, a[1..], b, r, q);
      assert (a + b)[1..] == a[1..] + b;
    }
  }

  lemma {:induction false} ItemsJoin(f: Field, unions: nat, items: seq<Value>)
    requires FieldOk(f, unions) && forall e :: 0 <= e < |items| ==> TypedValue(f, items[e])
    requires EncodeItems(f, unions, items).Some?
    ensures Join(ItemRecords(f, unions, items)) == EncodeItems(f, unions, items).value
    decreases |items|
  {
    if items != [] {
      ItemsJoin(f, unions, items[1..]);
    }
  }

  /** Decoding may stop after every element. */
  lemma {:induction false} ItemBoundaries(d: MsgDesc, m: Msg, i: nat, f: Field, s: Slot, items: seq<Value>, k: nat, p: Progress)
    requires WellFormed(d) && Typed(d, m) && i < |d.fields|
    requires f == d.fields[i] && s == m.slots[i] && FieldOk(f, d.unions) && TypedSlot(f, s)
    requires IsArray(f.htype) && !Packable(f.ltype) && Filling(d, m, i, f, s, k, p)
    requires k + |items| <= f.arraySize && s.items[k..k + |items|] == items
    requires forall e :: 0 <= e < |items| ==> TypedValue(f, items[e])
    requires EncodeItems(f, d.unions, items).Some? && ItemsFit(f, d.unions, items)
    ensures Boundaries(d, ItemRecords(f, d.unions, items), p)
    decreases |items|
  {
    if items != [] {
      assert items[0] == s.items[k];
      assert items[1..] == s.items[k + 1..k + 1 + |items[1..]|];
      var record := EncodeRecord(f, d.unions, items[0]).value;
      var next := ElementStep(d, m, i, f, s, k, p, []);
      assert record + [] == record;
      ItemBoundaries(d, m, i, f, s, items[1..], k + 1, next);
    }
  }

  lemma FieldBoundaries(d: MsgDesc, m: Msg, i: nat, f: Field, s: Slot, p: Progress) returns (p': Progress)
    requires WellFormed(d) && Typed(d, m) && i < |d.fields| && Reached(d, m, i, p)
    requires f == d.fields[i] && s == m.slots[i] && FieldOk(f, d.unions) && TypedSlot(f, s)
    requires EncodeField(f, d.unions, s, m.which).Some? && FieldFits(f, d.unions, s, m.which)
    ensures Reached(d, m, i + 1, p')
    ensures Join(FieldRecords(f, d.unions, s, m.which)) == EncodeField(f, d.unions, s, m.which).value
    ensures ParseFields(d, Join(FieldRecords(f, d.unions, s, m.which)), p) == Some(p')
    ensures Boundaries(d, FieldRecords(f, d.unions, s, m.which), p)
  {
    var bytes := EncodeField(f, d.unions, s, m.which).value;
    p' := FieldStep(d, m, i, f, s, p, []);
    assert bytes + [] == bytes;
    if IsArray(f.htype) && !Packable(f.ltype) && 0 < Count(f, s) <= |s.items| {
      assert FreshSlot(f, d.unions, p.m.slots[i], p.m.which);
      ItemsJoin(f, d.unions, s.items[..Count(f, s)]);
      ItemBoundaries(d, m, i, f, s, s.items[..Count(f, s)], 0, p);
    } else {
      assert Join([bytes]) == bytes;
    }
  }

  lemma {:induction false} EncodedBoundaries(d: MsgDesc, m: Msg, i: nat, p: Progress)
    requires WellFormed(d) && Typed(d, m) && i <= |d.fields| && Reached(d, m, i, p)
    requires EncodeFrom(d, m, i).Some? && PayloadsFit(d, m, i)
    ensures Join(Records(d, m, i)) == EncodeFrom(d, m, i).value && Boundaries(d, Records(d, m, i), p)
    decreases |d.fields| - i
  {
    if i < |d.fields| {
      FieldsEncode(d, m, i);
      var q := FieldBoundaries(d, m, i, d.fields[i], m.slots[i], p);
      EncodedBoundaries(d, m, i + 1, q);
      var front := FieldRecords(d.fields[i], d.unions, m.slots[i], m.which);
      JoinConcat(front, Records(d, m, i + 1));
      BoundariesConcat(d, front, Records(d, m, i + 1), p, q);
    }
  }

  /**
   The round trip with a newer sender: whatever unknown records stand between the records of an
   encoding, also between two elements of an array, the struct is restored.
   */
  lemma RoundTripAmongUnknown(d: MsgDesc, m: Msg, m0: Msg, padding: seq<seq<byte>>)
    requires WellFormed(d) && Typed(d, m) && Typed(d, m0)
    requires Encode(d, m).Some? && PayloadsFit(d, m, 0)
    requires |padding| == |Records(d, m, 0)| && forall i :: 0 <= i < |padding| ==> Unknown(d, padding[i])
    ensures var r := ParseMsg(d, Pad(Records(d, m, 0), padding), m0, true);
            r.Some? && Same(d, m, r.value)
  {
    DefaultFresh(d, m0);
    EncodedBoundaries(d, m, 0, Start(d, m0, true));
    UnknownFieldsIgnored(d, Records(d, m, 0), padding, m0, true);
    MsgRoundTrip(d, m, m0, true);
  }
}
