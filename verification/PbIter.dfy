/**
 The field iterator. A descriptor is a list of 32-bit words, one, two, four or eight per field;
 the iterator walks it with three running indices and finds a tag by a search that wraps around.
 */
module PbIter {
  import opened Common
  import opened PbMessage
  import opened PbParse

  // ----- PB_FIELDINFO_1/2/4/8 -----

  function LTypeCode(l: LType): nat {
    match l
    case LBool => 0x00 case LVarint => 0x01 case LUVarint => 0x02 case LSVarint => 0x03
    case LFixed32 => 0x04 case LFixed64 => 0x05 case LBytes => 0x06 case LString => 0x07
    case LSubmessage(_) => 0x08 case LFixedBytes => 0x0B
  }

  function HTypeCode(h: HType): nat {
    match h
    case Required => 0x00 case Optional => 0x10 case Singular => 0x10
    case Repeated => 0x20 case FixArray => 0x20 case Oneof(_) => 0x30
  }

  function TypeCode(f: Field): (t: nat)
    ensures t < 0x40
    ensures t / 0x10 == HTypeCode(f.htype) / 0x10 && t % 0x10 == LTypeCode(f.ltype)
  {
    HTypeCode(f.htype) + LTypeCode(f.ltype)
  }

  /** The low 16 bits every format shares: length code, six bits of tag, type. */
  function Head(code: nat, f: Field): nat {
    code + f.tag * 4 % 0x100 + TypeCode(f) * 0x100
  }

  /** The words of one field; the masks and shifts of the macros as arithmetic on disjoint bit ranges. */
  function Pack(f: Field): (ws: seq<nat>)
    ensures f.layout.width in {1, 2, 4, 8} ==> |ws| == f.layout.width
  {
    var (offset, size) := (f.layout.dataOffset, f.layout.sizeOffset);
    match f.layout.width
    case 1 => [Head(0, f) + offset % 0x100 * 0x1_0000 + size % 0x10 * 0x100_0000 + f.dataSize % 0x10 * 0x1000_0000]
    case 2 => [Head(1, f) + f.arraySize % 0x1000 * 0x1_0000 + size % 0x10 * 0x1000_0000,
               offset % 0x1_0000 + f.dataSize % 0x1000 * 0x1_0000 + f.tag / 0x40 % 0x10 * 0x1000_0000]
    case 4 => [Head(2, f) + f.arraySize % 0x1_0000 * 0x1_0000, size + f.tag / 0x40 * 0x100, offset, f.dataSize]
    case 8 => [Head(3, f), size + f.tag / 0x40 * 0x100, offset, f.dataSize, f.arraySize, 0, 0, 0]
    case _ => []
  }

  function PackAll(fields: seq<Field>): seq<nat> {
    if fields == [] then [] else PackAll(fields[..|fields| - 1]) + Pack(fields[|fields| - 1])
  }

  /** What load_descriptor_values extracts. */
  datatype Loaded = Loaded(tag: nat, typ: nat, dataSize: nat, arraySize: nat, dataOffset: nat, sizeOffset: nat)

  function Unpack(ws: seq<nat>): Loaded
    requires Loadable(ws)
  {
    var w := ws[0];
    var typ, low := w / 0x100 % 0x100, w / 4 % 0x40;
    if w % 4 == 0 then
      Loaded(low, typ, w / 0x1000_0000 % 0x10, 1, w / 0x1_0000 % 0x100, w / 0x100_0000 % 0x10)
    else if w % 4 == 1 then
      Loaded(low + ws[1] / 0x1000_0000 * 0x40, typ, ws[1] / 0x1_0000 % 0x1000, w / 0x1_0000 % 0x1000, ws[1] % 0x1_0000, w / 0x1000_0000 % 0x10)
    else if w % 4 == 2 then
      Loaded((low + ws[1] / 0x100 * 0x40) % 0x1_0000, typ, ws[3] % 0x1_0000, w / 0x1_0000 % 0x1_0000, ws[2], ws[1] % 0x100)
    else
      Loaded((low + ws[1] / 0x100 * 0x40) % 0x1_0000, typ, ws[3] % 0x1_0000, ws[4] % 0x1_0000, ws[2], ws[1] % 0x100)
  }

  /** The low half of the first word, whatever stands above it. */
  lemma HeadFields(code: nat, f: Field, above: nat)
    requires code < 4 && Fits(f)
    ensures (Head(code, f) + above * 0x1_0000) % 4 == code
    ensures (Head(code, f) + above * 0x1_0000) / 4 % 0x40 == f.tag % 0x40
    ensures (Head(code, f) + above * 0x1_0000) / 0x100 % 0x100 == TypeCode(f)
    ensures (Head(code, f) + above * 0x1_0000) / 0x1_0000 == above
    ensures Head(code, f) < 0x1_0000
  {
    Digits(code, f.tag % 0x40, TypeCode(f), above);
    assert f.tag * 4 % 0x100 == f.tag % 0x40 * 4;
    assert Head(code, f) + above * 0x1_0000 == code + 4 * (f.tag % 0x40 + 0x40 * (TypeCode(f) + 0x100 * above));
  }

  lemma Digits(code: nat, low: nat, typ: nat, above: nat)
    requires code < 4 && low < 0x40 && typ < 0x100
    ensures var w := code + 4 * (low + 0x40 * (typ + 0x100 * above));
            w % 4 == code && w / 4 % 0x40 == low && w / 0x100 % 0x100 == typ && w / 0x1_0000 == above
  {
    var a := typ + 0x100 * above;
    var b := low + 0x40 * a;
    var w := code + 4 * b;
    assert w % 4 == code && w / 4 == b;
    assert b % 0x40 == low && b / 0x40 == a;
    assert w / 0x100 == a && w / 0x1_0000 == a / 0x100;
  }

  ghost function InfoOf(f: Field): Loaded {
    Loaded(f.tag, TypeCode(f), f.dataSize, f.arraySize, f.layout.dataOffset, f.layout.sizeOffset)
  }

  lemma SplitByte(low: nat, high: nat)
    requires low < 0x100
    ensures (low + high * 0x100) % 0x100 == low && (low + high * 0x100) / 0x100 == high
  {
  }

  lemma SplitTwelve(low: nat, high: nat)
    requires low < 0x1000
    ensures (low + high * 0x1000) % 0x1000 == low && (low + high * 0x1000) / 0x1000 == high
  {
  }

  lemma SplitHalf(low: nat, high: nat)
    requires low < 0x1_0000
    ensures (low + high * 0x1_0000) % 0x1_0000 == low && (low + high * 0x1_0000) / 0x1_0000 == high
  {
  }

  /** Dividing by a larger power of two is dividing twice. */
  lemma UpperHalf(w: nat)
    ensures w / 0x100_0000 == w / 0x1_0000 / 0x100 && w / 0x1000_0000 == w / 0x1_0000 / 0x1000
  {
  }

  lemma JoinTag(tag: nat)
    requires tag < 0x1_0000
    ensures (tag % 0x40 + tag / 0x40 * 0x40) % 0x1_0000 == tag == tag % 0x40 + tag / 0x40 * 0x40
  {
  }

  lemma UnpackOne(f: Field)
    requires Fits(f) && 0 < f.arraySize && f.layout.width == 1
    ensures Pack(f)[0] < TWO32 && Pack(f)[0] % 4 == 0 && Unpack(Pack(f)) == InfoOf(f)
  {
    var above := f.layout.dataOffset + (f.layout.sizeOffset + f.dataSize * 0x10) * 0x100;
    assert Pack(f)[0] == Head(0, f) + above * 0x1_0000;
    HeadFields(0, f, above);
    OnlyWord(Pack(f)[0], above, f.layout.dataOffset, f.layout.sizeOffset, f.dataSize);
  }

  lemma OnlyWord(w: nat, above: nat, offset: nat, size: nat, data: nat)
    requires offset < 0x100 && size < 0x10 && data < 0x10
    requires w / 0x1_0000 == above == offset + (size + data * 0x10) * 0x100
    ensures w / 0x1_0000 % 0x100 == offset && w / 0x100_0000 % 0x10 == size && w / 0x1000_0000 == data && w < TWO32
  {
    UpperHalf(w);
    SplitByte(offset, size + data * 0x10);
    SplitTwelve(offset + size * 0x100, data);
  }

  lemma SecondWord(w: nat, offset: nat, size: nat, high: nat)
    requires offset < 0x1_0000 && size < 0x1000 && high < 0x10 && w == offset + (size + high * 0x1000) * 0x1_0000
    ensures w % 0x1_0000 == offset && w / 0x1_0000 % 0x1000 == size && w / 0x1000_0000 == high && w < TWO32
  {
    SplitHalf(offset, size + high * 0x1000);
    UpperHalf(w);
    SplitTwelve(size, high);
  }

  lemma FirstWord(f: Field)
    requires Fits(f) && f.layout.width == 2
    ensures var w := Pack(f)[0];
            && w < TWO32 && w % 4 == 1 && w / 4 % 0x40 == f.tag % 0x40 && w / 0x100 % 0x100 == TypeCode(f)
            && w / 0x1_0000 % 0x1000 == f.arraySize && w / 0x1000_0000 % 0x10 == f.layout.sizeOffset
  {
    var above := AboveTwo(f);
    HeadFields(1, f, above);
    UpperHalf(Pack(f)[0]);
    SplitTwelve(f.arraySize, f.layout.sizeOffset);
  }

  lemma UnpackTwo(f: Field)
    requires Fits(f) && f.layout.width == 2
    ensures Pack(f)[0] < TWO32 && Pack(f)[1] < TWO32 && Pack(f)[0] % 4 == 1 && Unpack(Pack(f)) == InfoOf(f)
  {
    FirstWord(f);
    SecondWord(Pack(f)[1], f.layout.dataOffset, f.dataSize, f.tag / 0x40);
    JoinTag(f.tag);
  }

  lemma UnpackFour(f: Field)
    requires Fits(f) && f.layout.width == 4
    ensures Pack(f)[0] < TWO32 && Pack(f)[1] < TWO32
    ensures Pack(f)[0] % 4 == 2 && Unpack(Pack(f)) == InfoOf(f)
  {
    assert Pack(f)[0] == Head(2, f) + f.arraySize * 0x1_0000;
    HeadFields(2, f, f.arraySize);
    SplitByte(f.layout.sizeOffset, f.tag / 0x40);
    JoinTag(f.tag);
  }

  lemma UnpackEight(f: Field)
    requires Fits(f) && f.layout.width == 8
    ensures Pack(f)[0] < TWO32 && Pack(f)[1] < TWO32
    ensures Pack(f)[0] % 4 == 3 && Unpack(Pack(f)) == InfoOf(f)
  {
    assert Pack(f)[0] == Head(3, f) + 0 * 0x1_0000;
    HeadFields(3, f, 0);
    SplitByte(f.layout.sizeOffset, f.tag / 0x40);
    JoinTag(f.tag);
  }

  /** The words of a field, found in front of anything else, load as what was packed. */
  lemma UnpackPack(f: Field, rest: seq<nat>)
    requires Fits(f) && 0 < f.arraySize
    ensures |Pack(f)| == f.layout.width && forall k :: 0 <= k < |Pack(f)| ==> Pack(f)[k] < TWO32
    ensures Pack(f)[0] % 4 == LengthCode(f.layout.width)
    ensures Unpack(Pack(f) + rest) == InfoOf(f)
  {
    match f.layout.width
    case 1 => UnpackOne(f);
    case 2 => UnpackTwo(f);
    case 4 => UnpackFour(f);
    case 8 => UnpackEight(f);
    UnpackPrefix(Pack(f), rest);
  }

  lemma UnpackPrefix(ws: seq<nat>, rest: seq<nat>)
    requires Loadable(ws)
    ensures Unpack(ws + rest) == Unpack(ws)
  {
    var all := ws + rest;
    assert all[0] == ws[0];
    assert |ws| >= 2 ==> all[1] == ws[1];
    assert |ws| >= 4 ==> all[2] == ws[2] && all[3] == ws[3];
    assert |ws| >= 5 ==> all[4] == ws[4];
  }

  function LengthCode(width: nat): (code: nat)
    ensures code < 4
  {
    match width case 1 => 0 case 2 => 1 case 4 => 2 case _ => 3
  }

  /** Length code, six bits of the tag and the type are readable without loading the field. */
  lemma HeadOf(f: Field)
    requires Fits(f)
    ensures Pack(f)[0] % 4 == LengthCode(f.layout.width)
    ensures Pack(f)[0] / 4 % 0x40 == f.tag % 0x40
    ensures Pack(f)[0] / 0x100 % 0x100 == TypeCode(f)
  {
    var above := Above(f);
    HeadFields(LengthCode(f.layout.width), f, above);
  }

  /** The upper half of the first word. */
  lemma Above(f: Field) returns (above: nat)
    requires Fits(f)
    ensures Pack(f)[0] == Head(LengthCode(f.layout.width), f) + above * 0x1_0000
  {
    match f.layout.width
    case 1 => above := AboveOne(f);
    case 2 => above := AboveTwo(f);
    case 4 => above := f.arraySize;
    case 8 => above := 0;
  }

  lemma AboveOne(f: Field) returns (above: nat)
    requires Fits(f) && f.layout.width == 1
    ensures Pack(f)[0] == Head(0, f) + above * 0x1_0000
  {
    above := f.layout.dataOffset + f.layout.sizeOffset * 0x100 + f.dataSize * 0x1000;
  }

  lemma AboveTwo(f: Field) returns (above: nat)
    requires Fits(f) && f.layout.width == 2
    ensures above == f.arraySize + f.layout.sizeOffset * 0x1000
    ensures Pack(f)[0] == Head(1, f) + above * 0x1_0000
  {
    above := f.arraySize + f.layout.sizeOffset * 0x1000;
  }

  // ----- the running indices -----

  /** The words, and the submessage fields, in front of field i. */
  function WordsBefore(fields: seq<Field>, i: nat): nat
    requires i <= |fields|
  {
    if i == 0 then 0 else WordsBefore(fields, i - 1) + |Pack(fields[i - 1])|
  }

  function SubmessagesBefore(fields: seq<Field>, i: nat): nat
    requires i <= |fields|
  {
    if i == 0 then 0 else SubmessagesBefore(fields, i - 1) + if fields[i - 1].ltype.LSubmessage? then 1 else 0
  }

  lemma {:induction false} PrefixWords(fields: seq<Field>, more: seq<Field>, i: nat)
    requires i <= |fields|
    ensures WordsBefore(fields + more, i) == WordsBefore(fields, i)
  {
    if i > 0 {
      PrefixWords(fields, more, i - 1);
    }
  }

  lemma {:induction false} WordsMonotone(fields: seq<Field>, i: nat, j: nat)
    requires i <= j <= |fields|
    ensures WordsBefore(fields, i) <= WordsBefore(fields, j)
  {
    if i < j {
      WordsMonotone(fields, i, j - 1);
    }
  }

  /** Field i's words stand right behind those of the fields before it. */
  lemma {:induction false} WordsAt(fields: seq<Field>, i: nat) returns (before: seq<nat>, rest: seq<nat>)
    requires i < |fields|
    ensures |before| == WordsBefore(fields, i) && PackAll(fields) == before + (Pack(fields[i]) + rest)
    decreases |fields|
  {
    var n := |fields| - 1;
    var front, last := fields[..n], Pack(fields[n]);
    LastWords(fields, i);
    if i == n {
      PackLength(front);
      before, rest := PackAll(front), [];
      assert last + rest == last;
    } else {
      var inner;
      before, inner := WordsAt(front, i);
      rest := inner + last;
      Assoc(before, Pack(fields[i]) + inner, last);
      Assoc(Pack(fields[i]), inner, last);
    }
  }

  /** Dropping the last field does not move the others. */
  lemma LastWords(fields: seq<Field>, i: nat)
    requires i < |fields|
    ensures WordsBefore(fields[..|fields| - 1], i) == WordsBefore(fields, i) <= WordsBefore(fields[..|fields| - 1], |fields| - 1)
  {
    var n := |fields| - 1;
    assert fields == fields[..n] + [fields[n]];
    PrefixWords(fields[..n], [fields[n]], i);
    WordsMonotone(fields[..n], i, n);
  }

  lemma {:induction false} PackLength(fields: seq<Field>)
    ensures |PackAll(fields)| == WordsBefore(fields, |fields|)
  {
    if fields != [] {
      var n := |fields| - 1;
      PackLength(fields[..n]);
      assert fields == fields[..n] + [fields[n]];
      PrefixWords(fields[..n], [fields[n]], n);
    }
  }

  /** What the iterator reads at field i's position: its first word at a glance, and all its values. */
  lemma FieldWords(d: MsgDesc, i: nat)
    requires WellFormed(d) && i < |d.fields|
    ensures var at := WordsBefore(d.fields, i);
            at < |PackAll(d.fields)| && Loadable(PackAll(d.fields)[at..]) && Unpack(PackAll(d.fields)[at..]) == InfoOf(d.fields[i])
    ensures var w := PackAll(d.fields)[WordsBefore(d.fields, i)];
            Glance(w, d.fields[i])
  {
    var f := d.fields[i];
    assert FieldOk(f, d.unions);
    var before, rest := WordsAt(d.fields, i);
    ConcatSplit(before, Pack(f) + rest);
    UnpackPack(f, rest);
    TypeOf(f);
    var here := PackAll(d.fields)[WordsBefore(d.fields, i)..];
    assert here[0] == Pack(f)[0];
    HeadOf(f);
  }

  predicate Loadable(ws: seq<nat>) {
    |ws| >= 1 && (ws[0] % 4 == 1 ==> |ws| >= 2) && (ws[0] % 4 == 2 ==> |ws| >= 4) && (ws[0] % 4 == 3 ==> |ws| >= 5)
  }

  /** What the first word of a field tells without loading it. */
  predicate Glance(w: nat, f: Field) {
    && Pow2(w % 4) == |Pack(f)|
    && w / 4 % 0x40 == f.tag % 0x40
    && (w / 0x100 % 0x100 / 0x10 % 4 == 0 <==> f.htype.Required?)
    && (w / 0x100 % 0x100 % 0x10 in {8, 9} <==> f.ltype.LSubmessage?)
  }

  class FieldIter {
    const info: seq<nat>       // descriptor->field_info
    const fieldCount: nat
    const largestTag: nat
    ghost const d: MsgDesc     // what the words describe
    var index: nat
    var fieldInfoIndex: nat
    var requiredFieldIndex: nat
    var submessageIndex: nat
    var field: Loaded          // the values of the field the iterator last loaded

    ghost predicate Describes() {
      && WellFormed(d) && fieldCount == |d.fields| && info == PackAll(d.fields)
      && largestTag == if |d.fields| == 0 then 0 else d.fields[|d.fields| - 1].tag
    }

    /** The running indices are the sums over the preceding fields. */
    ghost predicate Valid()
      reads this
    {
      && Describes()
      && (fieldCount == 0 ==> index == 0)
      && (fieldCount > 0 ==> index < fieldCount)
      && fieldInfoIndex == WordsBefore(d.fields, index)
      && requiredFieldIndex == RequiredBefore(d.fields, index)
      && submessageIndex == SubmessagesBefore(d.fields, index)
    }

    /** The loaded values are those of the field the iterator stands on. */
    ghost predicate Standing()
      reads this
    {
      Valid() && field == if fieldCount == 0 then Loaded(0, 0, 0, 0, 0, 0) else InfoOf(d.fields[index])
    }

    /** pb_field_iter_begin. */
    constructor (desc: MsgDesc)
      requires WellFormed(desc)
      ensures Standing() && d == desc && index == 0
    {
      info, fieldCount, d := PackAll(desc.fields), |desc.fields|, desc;
      largestTag := if |desc.fields| == 0 then 0 else desc.fields[|desc.fields| - 1].tag;
      index, fieldInfoIndex, requiredFieldIndex, submessageIndex := 0, 0, 0, 0;
      field := Loaded(0, 0, 0, 0, 0, 0);
      new;
      var ok := Load();
    }

    /** load_descriptor_values. */
    method Load() returns (ok: bool)
      requires Valid()
      modifies this`field
      ensures ok == (fieldCount != 0)
      ensures ok ==> Standing()
      ensures !ok ==> field == old(field)
    {
      if index >= fieldCount {
        return false;
      }
      FieldWords(d, index);
      field := Unpack(info[fieldInfoIndex..]);
      ok := true;
    }

    /** The indices are still the sums over the fields before the one just left. */
    ghost predicate Behind()
      reads this
    {
      && Describes() && 0 < index < fieldCount
      && fieldInfoIndex == WordsBefore(d.fields, index - 1)
      && requiredFieldIndex == RequiredBefore(d.fields, index - 1)
      && submessageIndex == SubmessagesBefore(d.fields, index - 1)
    }

    /** The increments of advance_iterator: the packed words of the field just left bring the sums up to date. */
    method AddPrevious()
      requires Behind()
      modifies this`fieldInfoIndex, this`requiredFieldIndex, this`submessageIndex
      ensures Valid()
    {
      ghost var word, kind := AdvanceSums(d, index - 1);
      var previous := info[fieldInfoIndex];
      var typ := previous / 0x100 % 0x100;
      fieldInfoIndex := fieldInfoIndex + Pow2(previous % 4);
      requiredFieldIndex := requiredFieldIndex + CountsRequired(typ);
      submessageIndex := submessageIndex + CountsSubmessage(typ);
    }

    /** advance_iterator, also from the end marker fieldCount, where it starts over. */
    method Advance()
      requires fieldCount > 0 && Describes()
      requires index == fieldCount || Valid()
      modifies this`index, this`fieldInfoIndex, this`requiredFieldIndex, this`submessageIndex
      ensures Valid()
      ensures index == if old(index) + 1 >= fieldCount then 0 else old(index) + 1
    {
      index := index + 1;
      if index >= fieldCount {
        index, fieldInfoIndex, submessageIndex, requiredFieldIndex := 0, 0, 0, 0;
      } else {
        AddPrevious();
      }
    }

    /** pb_field_iter_next: false when it has come round to the first field. */
    method Next() returns (more: bool)
      requires Standing() && fieldCount > 0
      modifies this
      ensures Standing() && more == (index != 0)
      ensures index == if old(index) + 1 == fieldCount then 0 else old(index) + 1
    {
      Advance();
      var ok := Load();
      more := index != 0;
    }

    /**
     pb_field_iter_find: a wrap-around search from the current field that only loads candidates
     whose low six tag bits match. It finds the tag exactly when some field has it, and then
     stands on that field; otherwise it is back where it was.
     */
    method FindTag(tag: nat) returns (found: bool)
      requires Standing() && tag > 0
      modifies this
      ensures Standing()
      ensures found == (exists i :: 0 <= i < |d.fields| && d.fields[i].tag == tag)
      ensures index == if found then Find(d.fields, tag) else old(index)
    {
      if field.tag == tag {
        return true;
      }
      if tag > largestTag {
        return false;
      }
      found := Search(tag, index);
    }

    /** The wrap-around loop, from the field the iterator stands on. */
    method Search(tag: nat, start: nat) returns (found: bool)
      requires Standing() && start == index && index < fieldCount && field.tag != tag
      modifies this
      ensures Standing()
      ensures found ==> index == Find(d.fields, tag) && d.fields[index].tag == tag
      ensures !found ==> index == start && forall i :: 0 <= i < |d.fields| ==> d.fields[i].tag != tag
    {
      if tag < field.tag {
        index := fieldCount;
      }
      found := false;
      while true
        invariant Describes() && start < fieldCount && d.fields[start].tag != tag
        invariant index == fieldCount || Valid()
        invariant tag < d.fields[start].tag ==> index == fieldCount || index < start
        invariant tag > d.fields[start].tag ==> index < fieldCount
        invariant index < fieldCount ==> Passed(d, tag, start, index)
        decreases if index == fieldCount then start + 1 else if index >= start then fieldCount - index + start else start - index
      {
        ghost var before := index;
        found := Visit(tag);
        if found {
          return;
        }
        PassedNext(d, tag, start, before, index);
        if index == start {
          break;
        }
      }
      NotThere(d, tag, start);
      var ok := Load();
    }

    /** One step of the search: only a candidate whose low tag bits match is loaded. */
    method Visit(tag: nat) returns (found: bool)
      requires fieldCount > 0 && Describes()
      requires index == fieldCount || Valid()
      modifies this
      ensures Valid()
      ensures index == if old(index) + 1 >= fieldCount then 0 else old(index) + 1
      ensures found == (d.fields[index].tag == tag)
      ensures found ==> Standing() && index == Find(d.fields, tag)
    {
      Advance();
      FieldWords(d, index);
      var word := info[fieldInfoIndex];
      found := false;
      if word / 4 % 0x40 == tag % 0x40 {
        var ok := Load();
        found := field.tag == tag;
      }
    }
  }

  /** PB_HTYPE(type) == PB_HTYPE_REQUIRED, as a number. */
  function CountsRequired(typ: nat): nat {
    if typ / 0x10 % 4 == 0 then 1 else 0
  }

  /** PB_LTYPE_IS_SUBMSG(type), as a number. */
  function CountsSubmessage(typ: nat): nat {
    if typ % 0x10 in {8, 9} then 1 else 0
  }

  /** What the packed words of a field say moves the running indices on to the next one. */
  lemma AdvanceSums(d: MsgDesc, i: nat) returns (previous: nat, typ: nat)
    requires WellFormed(d) && i + 1 < |d.fields|
    ensures WordsBefore(d.fields, i) < |PackAll(d.fields)|
    ensures previous == PackAll(d.fields)[WordsBefore(d.fields, i)] && typ == previous / 0x100 % 0x100
    ensures WordsBefore(d.fields, i + 1) == WordsBefore(d.fields, i) + Pow2(previous % 4)
    ensures RequiredBefore(d.fields, i + 1) == RequiredBefore(d.fields, i) + CountsRequired(typ)
    ensures SubmessagesBefore(d.fields, i + 1) == SubmessagesBefore(d.fields, i) + CountsSubmessage(typ)
  {
    FieldWords(d, i);
    previous := PackAll(d.fields)[WordsBefore(d.fields, i)];
    typ := previous / 0x100 % 0x100;
  }

  /** The fields a search from start has passed when it stands on index do not have the tag. */
  ghost predicate Passed(d: MsgDesc, tag: nat, start: nat, index: nat)
    requires start < |d.fields| && index < |d.fields|
  {
    if tag < d.fields[start].tag then forall i :: 0 <= i <= index ==> d.fields[i].tag != tag
    else if index >= start then forall i :: start <= i <= index ==> d.fields[i].tag != tag
    else (forall i :: 0 <= i <= index ==> d.fields[i].tag != tag) && forall i :: start <= i < |d.fields| ==> d.fields[i].tag != tag
  }

  /** One more field without the tag. */
  lemma PassedNext(d: MsgDesc, tag: nat, start: nat, before: nat, index: nat)
    requires start < |d.fields| && index < |d.fields| && before <= |d.fields| && d.fields[index].tag != tag
    requires index == if before + 1 >= |d.fields| then 0 else before + 1
    requires d.fields[start].tag != tag
    requires tag < d.fields[start].tag ==> before == |d.fields| || before < start
    requires tag > d.fields[start].tag ==> before < |d.fields|
    requires before < |d.fields| ==> (before == start && tag > d.fields[start].tag) || Passed(d, tag, start, before)
    ensures Passed(d, tag, start, index)
  {
  }

  lemma NotThere(d: MsgDesc, tag: nat, start: nat)
    requires WellFormed(d) && start < |d.fields| && Passed(d, tag, start, start) && d.fields[start].tag != tag
    requires tag > d.fields[start].tag ==> forall i :: 0 <= i < |d.fields| ==> i < start || d.fields[i].tag != tag
    ensures forall i :: 0 <= i < |d.fields| ==> d.fields[i].tag != tag
  {
  }

  function Pow2(n: nat): nat
    requires n < 4
  {
    match n case 0 => 1 case 1 => 2 case 2 => 4 case _ => 8
  }

  lemma TypeOf(f: Field)
    ensures TypeCode(f) < 0x100
    ensures TypeCode(f) / 0x10 % 4 == 0 <==> f.htype.Required?
    ensures TypeCode(f) % 0x10 in {8, 9} <==> f.ltype.LSubmessage?
  {
  }
}
