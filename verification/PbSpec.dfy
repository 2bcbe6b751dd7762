/**
 The wire format, written from the Protocol Buffers Encoding specification and not from the
 encoder: a reader that splits bytes into records, and what the records of a struct must say.
 */
module PbSpec {
  import opened Common
  import opened PbMessage

  // ----- "Message Structure": records of a field number and a payload -----

  datatype Payload = Number(n: nat) | Fixed64(n: nat) | Bytes(b: seq<byte>) | Fixed32(n: nat)

  datatype Record = Record(number: nat, payload: Payload)

  /** "Base 128 Varints": seven bits a byte, low group first, a top bit on all but the last, ten bytes at most. */
  function ReadVarint(s: seq<byte>, limit: nat := 10): (r: Option<(nat, seq<byte>)>)
    ensures r.Some? ==> |r.value.1| < |s|
  {
    if limit == 0 || s == [] then None
    else if s[0] < 0x80 then Some((s[0], s[1..]))
    else
      var more := ReadVarint(s[1..], limit - 1);
      if more.None? then None else Some((s[0] - 0x80 + 0x80 * more.value.0, more.value.1))
  }

  /** "Non-varint Numbers": least significant byte first. */
  function ReadNumber(bs: seq<byte>): nat {
    if bs == [] then 0 else bs[0] + 0x100 * ReadNumber(bs[1..])
  }

  /** The payload of a wire type: VARINT, I64, LEN or I32; the group markers are not read. */
  function ReadPayload(wireType: nat, s: seq<byte>): (r: Option<(Payload, seq<byte>)>)
    ensures r.Some? ==> |r.value.1| < |s|
  {
    match wireType
    case 0 =>
      var n := ReadVarint(s);
      if n.None? then None else Some((Number(n.value.0), n.value.1))
    case 1 => if |s| < 8 then None else Some((Fixed64(ReadNumber(s[..8])), s[8..]))
    case 2 =>
      var n := ReadVarint(s);
      if n.None? || |n.value.1| < n.value.0 then None
      else Some((Bytes(n.value.1[..n.value.0]), n.value.1[n.value.0..]))
    case 5 => if |s| < 4 then None else Some((Fixed32(ReadNumber(s[..4])), s[4..]))
    case _ => None
  }

  function ReadRecord(s: seq<byte>): (r: Option<(Record, seq<byte>)>)
    ensures r.Some? ==> |r.value.1| < |s|
  {
    var key := ReadVarint(s);
    if key.None? || key.value.0 / 8 == 0 then None
    else
      var p := ReadPayload(key.value.0 % 8, key.value.1);
      if p.None? then None else Some((Record(key.value.0 / 8, p.value.0), p.value.1))
  }

  function ReadRecords(s: seq<byte>): Option<seq<Record>>
    decreases |s|
  {
    if s == [] then Some([])
    else
      var first := ReadRecord(s);
      if first.None? then None
      else
        var rest := ReadRecords(first.value.1);
        if rest.None? then None else Some([first.value.0] + rest.value)
  }

  /** "Packed Repeated Fields": payloads of one wire type without keys. */
  function ReadElements(wireType: nat, s: seq<byte>): Option<seq<Payload>>
    decreases |s|
  {
    if s == [] then Some([])
    else
      var first := ReadPayload(wireType, s);
      if first.None? then None
      else
        var rest := ReadElements(wireType, first.value.1);
        if rest.None? then None else Some([first.value.0] + rest.value)
  }

  function ElementWireType(l: LType): nat
    requires Packable(l)
  {
    match l case LFixed32 => 5 case LFixed64 => 1 case _ => 0
  }

  // ----- what the records say about a struct -----

  /** The payload of one value: "More Integer Types" for numbers, "Length-Delimited Records" for the rest. */
  ghost predicate Spells(f: Field, unions: nat, v: Value, p: Payload)
    requires FieldOk(f, unions) && TypedValue(f, v)
    decreases f, 0
  {
    match f.ltype
    case LBool => p.Number? && p.n == v.n
    case LVarint => p.Number? && p.n == if v.n < 0 then v.n + 0x1_0000_0000_0000_0000 else v.n
    case LUVarint => p.Number? && p.n == v.n
    case LSVarint => p.Number? && p.n == if v.n < 0 then -2 * v.n - 1 else 2 * v.n
    case LFixed32 => p.Fixed32? && p.n == v.n
    case LFixed64 => p.Fixed64? && p.n == v.n
    case LBytes => p == Bytes(v.b)
    case LString => p.Bytes? && |p.b| < |v.buf| && v.buf[|p.b|] == 0 && v.buf[..|p.b|] == p.b && 0 !in p.b
    case LFixedBytes => p == Bytes(v.b)
    case LSubmessage(sub) =>
      p.Bytes? && ReadRecords(p.b).Some? && SpellsFrom(sub, v.m, 0, ReadRecords(p.b).value)
  }

  /** "Field Presence": a field without presence is left out with its zero value; here a nested struct can be one. */
  ghost predicate Unset(f: Field, unions: nat, v: Value)
    requires FieldOk(f, unions) && TypedValue(f, v)
    decreases f, 0
  {
    match f.ltype
    case LBytes => |v.b| == 0
    case LString => v.buf[0] == 0
    case LFixedBytes => |v.b| == 0
    case LSubmessage(sub) => UnsetMsg(sub, v.m)
    case _ => v.n == 0
  }

  ghost predicate UnsetMsg(d: MsgDesc, m: Msg)
    requires WellFormed(d) && Typed(d, m)
    decreases d, 2
  {
    forall i :: 0 <= i < |d.fields| ==> UnsetSlot(d.fields[i], d.unions, m.slots[i], m.which)
  }

  ghost predicate UnsetSlot(f: Field, unions: nat, s: Slot, which: seq<nat>)
    requires FieldOk(f, unions) && TypedSlot(f, s) && |which| == unions
    decreases f, 1
  {
    match f.htype
    case Required => false
    case Optional => !s.has
    case Singular => Unset(f, unions, s.v)
    case Repeated => s.count == 0
    case FixArray => false
    case Oneof(u) => which[u] == 0
  }

  /** A field that is not an array has its record when it is set. */
  ghost predicate HasRecord(f: Field, unions: nat, s: Slot, which: seq<nat>)
    requires FieldOk(f, unions) && TypedSlot(f, s) && |which| == unions
  {
    match f.htype
    case Required => true
    case Optional => s.has
    case Singular => !Unset(f, unions, s.v)
    case Oneof(u) => which[u] == f.tag
    case _ => false
  }

  /** The elements of an array that count. */
  function Elements(s: Slot): seq<Value>
    requires s.Rep? || s.Fix?
  {
    if s.Fix? || s.count > |s.items| then s.items else s.items[..s.count]
  }

  /** One record per value; one for all values of a packed array. */
  ghost function RecordCount(f: Field, unions: nat, s: Slot, which: seq<nat>): nat
    requires FieldOk(f, unions) && TypedSlot(f, s) && |which| == unions
  {
    if !IsArray(f.htype) then (if HasRecord(f, unions, s, which) then 1 else 0)
    else if !Packable(f.ltype) then |Elements(s)|
    else if Elements(s) == [] then 0 else 1
  }

  ghost predicate SpellsEach(f: Field, unions: nat, vs: seq<Value>, ps: seq<Payload>)
    requires FieldOk(f, unions) && forall e :: 0 <= e < |vs| ==> TypedValue(f, vs[e])
    decreases f, 1
  {
    |ps| == |vs| && forall e :: 0 <= e < |vs| ==> Spells(f, unions, vs[e], ps[e])
  }

  ghost predicate SpellsPacked(f: Field, unions: nat, vs: seq<Value>, p: Payload)
    requires FieldOk(f, unions) && Packable(f.ltype) && forall e :: 0 <= e < |vs| ==> TypedValue(f, vs[e])
    decreases f, 2
  {
    && p.Bytes? && ReadElements(ElementWireType(f.ltype), p.b).Some?
    && SpellsEach(f, unions, vs, ReadElements(ElementWireType(f.ltype), p.b).value)
  }

  /** The records of one field: its number, and its values in order. */
  ghost predicate SpellsField(f: Field, unions: nat, s: Slot, which: seq<nat>, rs: seq<Record>)
    requires FieldOk(f, unions) && TypedSlot(f, s) && |which| == unions
    decreases f, 3
  {
    && |rs| == RecordCount(f, unions, s, which)
    && (forall r :: r in rs ==> r.number == f.tag)
    && if rs == [] then true
       else if !IsArray(f.htype) then Spells(f, unions, s.v, rs[0].payload)
       else if Packable(f.ltype) then SpellsPacked(f, unions, Elements(s), rs[0].payload)
       else SpellsEach(f, unions, Elements(s), Payloads(rs))
  }

  function Payloads(rs: seq<Record>): seq<Payload> {
    seq(|rs|, e requires 0 <= e < |rs| => rs[e].payload)
  }

  /** The records of the fields from i on, in the order of the fields, and nothing else. */
  ghost predicate SpellsFrom(d: MsgDesc, m: Msg, i: nat, rs: seq<Record>)
    requires WellFormed(d) && Typed(d, m) && i <= |d.fields|
    decreases d, |d.fields| - i
  {
    if i == |d.fields| then rs == []
    else
      var n := RecordCount(d.fields[i], d.unions, m.slots[i], m.which);
      && n <= |rs|
      && SpellsField(d.fields[i], d.unions, m.slots[i], m.which, rs[..n])
      && SpellsFrom(d, m, i + 1, rs[n..])
  }
}
