/**
 The application's use of the codec: a robot command is encoded into a 256-byte buffer and
 handed over as a string, which is empty when the encoder refused.
 */
module PbSerializer {
  import opened Common
  import opened PbVarint
  import opened PbWire
  import opened PbMessage
  import opened PbEncode
  import opened PbParse
  import opened PbRoundTrip
  import opened PbEncoder
  import opened PbDecoder

  const BUFFER_SIZE := 256

  function Serialized(d: MsgDesc, m: Msg): seq<byte>
    requires WellFormed(d) && Typed(d, m)
  {
    var e := Encode(d, m);
    if e.Some? && |e.value| <= BUFFER_SIZE then e.value else []
  }

  /** SerializeRobotCommandMsg. */
  method Serialize(d: MsgDesc, m: Msg) returns (payload: seq<byte>)
    requires WellFormed(d) && Typed(d, m)
    ensures payload == Serialized(d, m)
  {
    var buffer := new byte[BUFFER_SIZE];
    var ok, written := EncodeToBuffer(buffer, d, m);
    payload := if ok then buffer[..written] else [];
  }

  /** DeserializeRobotCommandMsg: the destination is cleared first. */
  method Deserialize(d: MsgDesc, payload: seq<byte>) returns (ok: bool, m: Msg)
    requires WellFormed(d)
    ensures Typed(d, ZeroMsg(d))
    ensures ok == ParseMsg(d, payload, ZeroMsg(d), true).Some?
    ensures ok ==> m == ParseMsg(d, payload, ZeroMsg(d), true).value
  {
    ZeroFresh(d);
    ok, m := Decode(payload, d, ZeroMsg(d));
  }

  /** The receiver ends up with the command the sender meant. */
  ghost predicate Delivered(d: MsgDesc, m: Msg)
    requires WellFormed(d) && Typed(d, m)
  {
    ZeroFresh(d);
    var r := ParseMsg(d, Serialized(d, m), ZeroMsg(d), true);
    r.Some? && Same(d, m, r.value)
  }

  /** What a receiver makes of an empty payload: the default message, unless some field is required. */
  lemma EmptyPayload(d: MsgDesc)
    requires WellFormed(d)
    ensures Typed(d, ZeroMsg(d))
    ensures ParseMsg(d, [], ZeroMsg(d), true) ==
            if RequiredBefore(d.fields, |d.fields|) == 0 then Some(DefaultMsg(d, ZeroMsg(d))) else None
  {
    ZeroFresh(d);
    var p := Start(d, ZeroMsg(d), true);
    if RequiredBefore(d.fields, |d.fields|) > 0 {
      assert 0 !in p.seen;
    }
  }

  /**
   A command arrives exactly when it encodes into the buffer, or when it means nothing more than
   the defaults: an encoder failure is not reported on the wire, and the empty string it becomes
   is accepted as an all-default command.
   */
  lemma DeliveredIff(d: MsgDesc, m: Msg)
    requires WellFormed(d) && Typed(d, m)
    ensures Typed(d, DefaultMsg(d, ZeroMsg(d)))
    ensures Delivered(d, m) <==>
            || (Encode(d, m).Some? && |Encode(d, m).value| <= 256)
            || (RequiredBefore(d.fields, |d.fields|) == 0 && Same(d, m, DefaultMsg(d, ZeroMsg(d))))
  {
    ZeroFresh(d);
    DefaultFresh(d, ZeroMsg(d));
    EmptyPayload(d);
    if Encode(d, m).Some? && |Encode(d, m).value| <= BUFFER_SIZE {
      ShortMessageFits(d, m, 0);
      MsgRoundTrip(d, m, ZeroMsg(d), true);
    }
  }

  // ----- a command that is lost -----

  const PAYLOAD: Field := Field(1, LBytes, Singular, 302, 1, Layout(4, 0, 0))
  const COMMAND: MsgDesc := MsgDesc([PAYLOAD], 0)

  function Blob(): Value {
    VBytes(seq(300, _ => 1))
  }

  /** 303 bytes: key, two bytes of length, payload. */
  lemma BlobLength()
    ensures FieldOk(PAYLOAD, 0) && TypedValue(PAYLOAD, Blob())
    ensures WellFormed(COMMAND) && Typed(COMMAND, Msg([One(Blob())], []))
    ensures var e := Encode(COMMAND, Msg([One(Blob())], [])); e.Some? && |e.value| == 303
  {
    var m := Msg([One(Blob())], []);
    assert Varint(Key(WT_STRING, 1)) == [10];
    assert Varint(300) == [172] + Varint(2) && Varint(2) == [2] && |Varint(300)| == 2;
    assert EncodeField(PAYLOAD, 0, m.slots[0], []) == EncodeRecord(PAYLOAD, 0, Blob());
    assert EncodeFrom(COMMAND, m, 1) == Some([]);
  }

  /** A command of 300 bytes becomes an empty payload, which the receiver accepts as one of no bytes. */
  lemma LongBlobLost()
    ensures var m := Msg([One(Blob())], []);
            && WellFormed(COMMAND) && Typed(COMMAND, m)
            && Typed(COMMAND, ZeroMsg(COMMAND))
            && Serialized(COMMAND, m) == []
            && ParseMsg(COMMAND, [], ZeroMsg(COMMAND), true) == Some(Msg([One(VBytes([]))], []))
            && !Delivered(COMMAND, m)
  {
    BlobLength();
    EmptyPayload(COMMAND);
    assert RequiredBefore(COMMAND.fields, 1) == 0;
    assert DefaultMsg(COMMAND, ZeroMsg(COMMAND)) == Msg([One(VBytes([]))], []);
    assert !SameSlot(PAYLOAD, 0, One(Blob()), [], One(VBytes([])), []);
  }
}
