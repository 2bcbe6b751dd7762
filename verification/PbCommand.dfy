/**
 The robot command: the message the application sends. Every command there is fits the buffer and
 comes out of the decoder as it went in.
 */
module PbCommand {
  import opened Common
  import opened PbVarint
  import opened PbWire
  import opened PbMessage
  import opened PbEncode
  import opened PbParse
  import opened PbRoundTrip
  import opened PbSerializer

  /** A float of the command, as its 32 bits. */
  function FloatField(tag: nat): Field
    requires tag >= 1
  {
    Field(tag, LFixed32, Singular, 4, 1, Layout(1, 4 * (tag - 1), 0))
  }

  /** id, vx, vy, w, chargeVal, kickVal, dribbler. */
  const ROBOT_COMMAND: MsgDesc :=
    MsgDesc([Field(1, LUVarint, Singular, 4, 1, Layout(1, 0, 0)), FloatField(2), FloatField(3), FloatField(4), FloatField(5), FloatField(6), FloatField(7)], 0)

  function Command(id: nat, floats: seq<nat>): Msg
    requires |floats| == 6
  {
    Msg([One(VInt(id))] + seq(6, i requires 0 <= i < 6 => One(VInt(floats[i]))), [])
  }

  lemma CommandOk()
    ensures WellFormed(ROBOT_COMMAND)
  {
    assert forall i :: 0 <= i < 7 ==> FieldOk(ROBOT_COMMAND.fields[i], 0);
  }

  lemma CommandTyped(id: nat, floats: seq<nat>)
    requires id < TWO32 && |floats| == 6 && forall i :: 0 <= i < 6 ==> floats[i] < TWO32
    ensures WellFormed(ROBOT_COMMAND) && Typed(ROBOT_COMMAND, Command(id, floats))
  {
    CommandOk();
    forall i | 0 <= i < 7
      ensures TypedSlot(ROBOT_COMMAND.fields[i], Command(id, floats).slots[i])
    {
    }
  }

  /** A key of one byte and at most five of value. */
  lemma CommandField(i: nat, v: Value)
    requires i < 7 && FieldOk(ROBOT_COMMAND.fields[i], 0) && TypedValue(ROBOT_COMMAND.fields[i], v)
    ensures var e := EncodeRecord(ROBOT_COMMAND.fields[i], 0, v); e.Some? && |e.value| <= 6
  {
    var f := ROBOT_COMMAND.fields[i];
    assert f.tag == i + 1 && |Varint(Key(WireType(f.ltype), f.tag))| == 1;
    if i == 0 {
      Shift7Four(1);
      assert Shift7(1, 5) == 0x80 * Shift7(1, 4);
      VarintLength(v.n, 5);
    }
  }

  /** The bytes of a field in front of the others. */
  lemma FieldAndRest(d: MsgDesc, m: Msg, i: nat)
    requires WellFormed(d) && Typed(d, m) && i < |d.fields|
    requires EncodeField(d.fields[i], d.unions, m.slots[i], m.which).Some? && EncodeFrom(d, m, i + 1).Some?
    ensures var front, rest := EncodeField(d.fields[i], d.unions, m.slots[i], m.which).value, EncodeFrom(d, m, i + 1).value;
            EncodeFrom(d, m, i) == Some(if front == [] then rest else if rest == [] then front else front + rest)
  {
    var front, rest := EncodeField(d.fields[i], d.unions, m.slots[i], m.which).value, EncodeFrom(d, m, i + 1).value;
    assert front == [] ==> front + rest == rest;
    assert rest == [] ==> front + rest == front;
  }

  lemma {:induction false} CommandLength(m: Msg, i: nat)
    requires WellFormed(ROBOT_COMMAND) && Typed(ROBOT_COMMAND, m) && i <= 7
    ensures var e := EncodeFrom(ROBOT_COMMAND, m, i); e.Some? && |e.value| <= 6 * (7 - i)
    decreases 7 - i
  {
    if i < 7 {
      assert FieldOk(ROBOT_COMMAND.fields[i], 0) && TypedSlot(ROBOT_COMMAND.fields[i], m.slots[i]);
      CommandField(i, m.slots[i].v);
      CommandLength(m, i + 1);
      assert |EncodeField(ROBOT_COMMAND.fields[i], 0, m.slots[i], m.which).value| <= 6;
      FieldAndRest(ROBOT_COMMAND, m, i);
    }
  }

  /** Structs of this descriptor that say the same are the same. */
  lemma SameCommand(m: Msg, r: Msg)
    requires WellFormed(ROBOT_COMMAND) && Typed(ROBOT_COMMAND, m) && Typed(ROBOT_COMMAND, r) && Same(ROBOT_COMMAND, m, r)
    ensures r == m
  {
    forall i | 0 <= i < 7
      ensures r.slots[i] == m.slots[i]
    {
      SameNumber(ROBOT_COMMAND.fields[i], m.slots[i], m.which, r.slots[i], r.which);
    }
    assert r.slots == m.slots && r.which == m.which;
  }

  lemma SameNumber(f: Field, s: Slot, which: seq<nat>, t: Slot, whichT: seq<nat>)
    requires FieldOk(f, 0) && TypedSlot(f, s) && TypedSlot(f, t) && |which| == |whichT| == 0
    requires f.htype.Singular? && Packable(f.ltype) && SameSlot(f, 0, s, which, t, whichT)
    ensures s == t
  {
  }

  /** Every command there is arrives, bit for bit. */
  lemma CommandDelivered(m: Msg)
    requires Typed(ROBOT_COMMAND, m)
    ensures WellFormed(ROBOT_COMMAND) && Typed(ROBOT_COMMAND, ZeroMsg(ROBOT_COMMAND))
    ensures |Serialized(ROBOT_COMMAND, m)| <= 42
    ensures ParseMsg(ROBOT_COMMAND, Serialized(ROBOT_COMMAND, m), ZeroMsg(ROBOT_COMMAND), true) == Some(m)
  {
    CommandOk();
    ZeroFresh(ROBOT_COMMAND);
    CommandLength(m, 0);
    ShortMessageFits(ROBOT_COMMAND, m, 0);
    MsgRoundTrip(ROBOT_COMMAND, m, ZeroMsg(ROBOT_COMMAND), true);
    SameCommand(m, ParseMsg(ROBOT_COMMAND, Serialized(ROBOT_COMMAND, m), ZeroMsg(ROBOT_COMMAND), true).value);
  }

  // ----- one command, byte by byte -----

  /** Fields of value zero are not written. */
  lemma {:induction false} NothingBehind(m: Msg, i: nat)
    requires WellFormed(ROBOT_COMMAND) && Typed(ROBOT_COMMAND, m) && i <= 7
    requires forall j :: i <= j < 7 ==> m.slots[j] == One(VInt(0))
    ensures EncodeFrom(ROBOT_COMMAND, m, i) == Some([])
    decreases 7 - i
  {
    if i < 7 {
      NothingBehind(m, i + 1);
      ZeroUnwritten(ROBOT_COMMAND.fields[i], m.slots[i], m.which);
      FieldAndRest(ROBOT_COMMAND, m, i);
    }
  }

  lemma ZeroUnwritten(f: Field, s: Slot, which: seq<nat>)
    requires FieldOk(f, 0) && TypedSlot(f, s) && |which| == 0 && f.htype.Singular? && Packable(f.ltype) && s == One(VInt(0))
    ensures EncodeField(f, 0, s, which) == Some([])
  {
    assert IsDefaultValue(f, 0, s.v);
    assert IsDefault(f, 0, s, which);
  }

  lemma FloatRecord(f: Field, s: Slot, which: seq<nat>)
    requires f == FloatField(2) && FieldOk(f, 0) && s == One(VInt(0x3F80_0000)) && TypedSlot(f, s) && |which| == 0
    ensures EncodeField(f, 0, s, which) == Some([0x15, 0x00, 0x00, 0x80, 0x3F])
  {
    assert LittleEndian(0x3F80_0000, 4) == [0x00, 0x00, 0x80, 0x3F] by {
      assert LittleEndian(0x3F80, 2) == [0x80, 0x3F];
    }
    assert !IsDefaultValue(f, 0, s.v);
    assert EncodeField(f, 0, s, which) == EncodeRecord(f, 0, s.v);
    assert EncodeValue(f, 0, s.v) == Some(EncodeScalar(f, s.v));
    assert Varint(Key(5, 2)) == [0x15];
    assert [0x15] + [0x00, 0x00, 0x80, 0x3F] == [0x15, 0x00, 0x00, 0x80, 0x3F];
  }

  /** vx = 1.0 and nothing else set: the key of an I32 field with number 2, and 0x3F800000 from its low byte on. */
  lemma ForwardBytes()
    ensures var m := Command(0, [0x3F80_0000, 0, 0, 0, 0, 0]);
            && WellFormed(ROBOT_COMMAND) && Typed(ROBOT_COMMAND, m)
            && Encode(ROBOT_COMMAND, m) == Some([0x15, 0x00, 0x00, 0x80, 0x3F])
  {
    var d, m := ROBOT_COMMAND, Command(0, [0x3F80_0000, 0, 0, 0, 0, 0]);
    CommandTyped(0, [0x3F80_0000, 0, 0, 0, 0, 0]);
    NothingBehind(m, 2);
    FloatRecord(d.fields[1], m.slots[1], m.which);
    ZeroUnwritten(d.fields[0], m.slots[0], m.which);
    FieldAndRest(d, m, 1);
    FieldAndRest(d, m, 0);
  }
}
