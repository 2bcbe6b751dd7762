/**
 The wire primitives of the encoder and the decoder as methods on streams, each proved
 against its function on bytes.
 */
module PbWire {
  import opened Common
  import opened PbVarint
  import opened PbStream

  // ----- writing -----

  /** 2^(32-7i): the weight of the high half once i groups of the low half are out. */
  function HighWeight(i: nat, high: nat): nat
    requires i <= 4
  {
    match i
    case 0 => high * 0x1_0000_0000
    case 1 => high * 0x200_0000
    case 2 => high * 0x4_0000
    case 3 => high * 0x800
    case _ => high * 0x10
  }

  /** What may be left of the low half with i bytes out. */
  function LowRoom(i: nat): nat
    requires i <= 4
  {
    match i case 0 => 0x200_0000 case 1 => 0x4_0000 case 2 => 0x800 case 3 => 0x10 case _ => 1
  }

  /** What may be left of the high half with i bytes out. */
  function HighRoom(i: nat): nat
    requires 4 <= i <= 9
  {
    match i case 4 => 0x2000_0000 case 5 => 0x40_0000 case 6 => 0x8000 case 7 => 0x100 case 8 => 2 case _ => 1
  }

  /** The bytes of a 64-bit value, produced from its two 32-bit halves without 64-bit shifts. */
  method FillVarint(low0: nat, high0: nat, buffer: array<byte>) returns (i: nat)
    requires low0 < TWO32 && high0 < TWO32 && buffer.Length == 10
    modifies buffer
    ensures i <= 10 && buffer[..i] == Varint(low0 + high0 * TWO32)
  {
    ghost var all := Varint(low0 + high0 * TWO32);
    var b: byte;
    i, b := FillLow(buffer, low0, high0);
    if high0 != 0 {
      b := b + high0 % 8 * 0x10;
      i, b := FillHigh(buffer, i, b, high0 / 8, all);
    }
    buffer[i] := b;
    i := i + 1;
  }

  /** The first half: the groups that come from the low word, four of them when there is a high word. */
  method FillLow(buffer: array<byte>, low0: nat, high: nat) returns (i: nat, b: byte)
    requires low0 < TWO32 && high < TWO32 && buffer.Length == 10
    modifies buffer
    ensures i <= 4 && b < 0x80 && (i == 4 ==> b < 0x10) && (high != 0 ==> i == 4)
    ensures Varint(low0 + high * TWO32) == buffer[..i] + Varint(b + HighWeight(i, high))
  {
    var low: nat := low0;
    i := 0;
    b := low % 0x80;
    low := low / 0x80;
    ghost var all := Varint(low0 + high * TWO32);
    while i < 4 && (low != 0 || high != 0)
      invariant 0 <= i <= 4 && b < 0x80 && low < LowRoom(i)
      invariant i == 4 ==> b < 0x10
      invariant all == buffer[..i] + Varint(b + 0x80 * low + HighWeight(i, high))
      decreases 4 - i
    {
      GroupOut(i, b, low, high);
      buffer[i] := b + 0x80;
      b := low % 0x80;
      low := low / 0x80;
      i := i + 1;
    }
  }

  /** The second half of the fill: the remaining groups come from the high word alone. */
  method FillHigh(buffer: array<byte>, i0: nat, b0: byte, high0: nat, ghost all: seq<byte>) returns (i: nat, b: byte)
    requires buffer.Length == 10 && i0 == 4 && b0 < 0x80 && high0 < HighRoom(4)
    requires all == buffer[..i0] + Varint(b0 + 0x80 * high0)
    modifies buffer
    ensures 4 <= i <= 9 && b < 0x80 && all == buffer[..i] + [b]
  {
    var high: nat := high0;
    i, b := i0, b0;
    while high != 0
      invariant 4 <= i <= 9 && b < 0x80 && high < HighRoom(i)
      invariant all == buffer[..i] + Varint(b + 0x80 * high)
    {
      assert Varint(b + 0x80 * high) == [b + 0x80] + Varint(high);
      buffer[i] := b + 0x80;
      b := high % 0x80;
      high := high / 0x80;
      i := i + 1;
    }
  }

  lemma GroupOut(i: nat, b: byte, low: nat, high: nat)
    requires i < 4 && b < 0x80 && (low != 0 || high != 0)
    ensures Varint(b + 0x80 * low + HighWeight(i, high)) ==
            [b + 0x80] + Varint(low % 0x80 + 0x80 * (low / 0x80) + HighWeight(i + 1, high))
  {
    var x := b + 0x80 * low + HighWeight(i, high);
    assert x == b + 0x80 * (low + HighWeight(i + 1, high));
  }

  method EncodeVarint(stream: OStream, value: nat) returns (ok: bool)
    requires stream.Valid() && value < TWO64
    modifies stream, stream.buf
    ensures stream.Appended(ok, Some(Varint(value)))
  {
    if value <= 0x7F {
      ok := stream.Write([value]);
    } else {
      var buffer := new byte[10];
      var i := FillVarint(value % TWO32, value / TWO32, buffer);
      ok := stream.Write(buffer[..i]);
    }
  }

  method EncodeSVarint(stream: OStream, value: int) returns (ok: bool)
    requires stream.Valid() && -TWO63 <= value < TWO63
    modifies stream, stream.buf
    ensures stream.Appended(ok, Some(Varint(ZigZag(value))))
  {
    var mask := TWO63;
    var zigzagged: nat;
    if value < 0 {
      zigzagged := TWO64 - 1 - (Unsigned64(value) % mask * 2) % TWO64;
    } else {
      zigzagged := value * 2;
    }
    ok := EncodeVarint(stream, zigzagged);
  }

  /** The bytes of n, least significant first. */
  function LittleEndian(n: nat, count: nat): (bs: seq<byte>)
    ensures |bs| == count
  {
    if count == 0 then [] else [n % 256] + LittleEndian(n / 256, count - 1)
  }

  function FromLittleEndian(bs: seq<byte>): nat {
    if bs == [] then 0 else bs[0] + 256 * FromLittleEndian(bs[1..])
  }

  /** 256^count. */
  function Span(count: nat): (p: nat)
    ensures p >= 1
  {
    if count == 0 then 1 else 256 * Span(count - 1)
  }

  lemma {:induction false} LittleEndianRoundTrip(n: nat, count: nat)
    requires n < Span(count)
    ensures FromLittleEndian(LittleEndian(n, count)) == n
  {
    if count > 0 {
      LittleEndianRoundTrip(n / 256, count - 1);
    }
  }

  lemma {:induction false} FromLittleEndianBound(bs: seq<byte>)
    ensures FromLittleEndian(bs) < Span(|bs|)
  {
    if bs != [] {
      FromLittleEndianBound(bs[1..]);
    }
  }

  const WT_VARINT := 0
  const WT_64BIT := 1
  const WT_STRING := 2
  const WT_32BIT := 5
  const WT_PACKED := 255  // internal marker for an element of a packed array, never on the wire

  /** A field's key: its tag above three bits of wire type. */
  function Key(wireType: nat, tag: nat): nat {
    tag * 8 + wireType
  }

  method EncodeTag(stream: OStream, wireType: nat, tag: nat) returns (ok: bool)
    requires stream.Valid() && wireType < 8 && tag < 0x1_0000
    modifies stream, stream.buf
    ensures stream.Appended(ok, Some(Varint(Key(wireType, tag))))
  {
    ok := EncodeVarint(stream, tag * 8 + wireType);
  }

  method EncodeString(stream: OStream, data: seq<byte>) returns (ok: bool)
    requires stream.Valid() && |data| < TWO64
    modifies stream, stream.buf
    ensures stream.Appended(ok, Some(Varint(|data|) + data))
  {
    ghost var v0 := stream.View();
    ok := EncodeVarint(stream, |data|);
    if !ok {
      return;
    }
    ghost var v1 := stream.View();
    ok := stream.Write(data);
    Then(v0, Some(Varint(|data|)), v1, ok, Some(data), stream.View());
  }

  // ----- reading -----

  /** A whole number from the groups read so far and what the bytes from number k on will give. */
  ghost function Resume(result: nat, k: nat, rest: Option<(nat, seq<byte>)>): Option<(nat, seq<byte>)> {
    if rest.None? then None else Some((result + Shift7(rest.value.0, k), rest.value.1))
  }

  lemma ResumeStep(s: seq<byte>, k: nat, result: nat)
    requires s != [] && !(k >= 9 && s[0] >= 2)
    ensures Resume(result, k, Decode64(s, k)) ==
            if s[0] < 128 then Some((result + Shift7(s[0] % 128, k), s[1..]))
            else Resume(result + Shift7(s[0] % 128, k), k + 1, Decode64(s[1..], k + 1))
  {
    if s[0] >= 128 && Decode64(s[1..], k + 1).Some? {
      Shift7Carry(s[0] - 128, Decode64(s[1..], k + 1).value.0, k);
    }
  }

  method DecodeVarint(stream: IStream) returns (ok: bool, value: nat)
    requires stream.Valid()
    modifies stream
    ensures stream.Parsed(ok, value, Decode64(old(stream.Rest())))
  {
    ghost var all := Decode64(stream.Rest());
    var k := 0;  // bitpos is 7k
    value := 0;
    while true
      invariant k <= 9 && stream.Advanced()
      invariant all == Resume(value, k, Decode64(stream.Rest(), k))
      decreases stream.bytesLeft
    {
      ghost var s := stream.Rest();
      var b: byte;
      ok, b := stream.ReadByte();
      if !ok {
        return;
      }
      if k >= 9 && b >= 2 {
        return false, 0;
      }
      ResumeStep(s, k, value);
      value := value + Shift7(b % 128, k);
      if b < 128 {
        return;
      }
      k := k + 1;
    }
  }

  /** The same for 32-bit numbers; bytes from number 5 on contribute nothing. */
  ghost function Resume32(result: nat, k: nat, rest: Option<(nat, seq<byte>)>): Option<(nat, seq<byte>)> {
    if rest.None? then None
    else Some((if k <= 4 then result + Shift7(rest.value.0, k) else result, rest.value.1))
  }

  method DecodeVarint32(stream: IStream) returns (ok: bool, value: nat)
    requires stream.Valid()
    modifies stream
    ensures stream.Parsed(ok, value, Decode32(old(stream.Rest())))
    ensures ok ==> value < TWO32
  {
    ghost var s0 := stream.Rest();
    var b: byte;
    ok, b := stream.ReadByte();
    if !ok {
      value := 0;
    } else if b < 128 {
      value := b;
    } else {
      Resume32Low(s0, 0, 0);
      ok, value := DecodeVarint32Rest(stream, b % 128);
    }
  }

  /** The multi-byte case: data bytes 1 to 4, then the sign-extension bytes. */
  method DecodeVarint32Rest(stream: IStream, first: nat) returns (ok: bool, value: nat)
    requires stream.Valid() && first < 128
    modifies stream
    ensures stream.Parsed(ok, value, Resume32(first, 1, Decode32(old(stream.Rest()), 1)))
    ensures ok ==> value < TWO32
  {
    ghost var all := Resume32(first, 1, Decode32(stream.Rest(), 1));
    var k := 1;  // bitpos is 7k
    value := first;
    while true
      invariant 1 <= k <= 10 && stream.Advanced()
      invariant value < Bound32(k)
      invariant all == Resume32(value, k, Decode32(stream.Rest(), k, k >= 5 && value >= TWO31))
      decreases stream.bytesLeft
    {
      ghost var s := stream.Rest();
      var b: byte;
      ok, b := stream.ReadByte();
      if !ok {
        return;
      }
      if !Accepts32(b, k, k >= 5 && value >= TWO31) {
        return false, 0;
      }
      Resume32Step(s, k, value);
      value := Gather32(value, k, b);
      if b < 128 {
        return;
      }
      k := k + 1;
    }
  }

  /** What a result gathered from k bytes stays below. */
  ghost function Bound32(k: nat): nat {
    if k <= 4 then Shift7(1, k) else TWO32
  }

  /** The data bits of byte number k, put in place; none are left for the bytes after number 4. */
  function Gather32(result: nat, k: nat, b: byte): nat {
    if k < 4 then result + Shift7(b % 128, k)
    else if k == 4 then result + Shift7(b % 128 % 16, 4)
    else result
  }

  lemma Resume32Step(s: seq<byte>, k: nat, result: nat)
    requires 1 <= k <= 9 && s != [] && result < Bound32(k)
    requires Accepts32(s[0], k, k >= 5 && result >= TWO31)
    ensures Gather32(result, k, s[0]) < Bound32(k + 1)
    ensures Resume32(result, k, Decode32(s, k, k >= 5 && result >= TWO31)) ==
            if s[0] < 128 then Some((Gather32(result, k, s[0]), s[1..]))
            else Resume32(Gather32(result, k, s[0]), k + 1, Decode32(s[1..], k + 1, k >= 4 && Gather32(result, k, s[0]) >= TWO31))
  {
    if k < 4 {
      Resume32Low(s, k, result);
    } else if k == 4 {
      Resume32Fourth(s, result);
    }
  }

  lemma Resume32Low(s: seq<byte>, k: nat, result: nat)
    requires k < 4 && s != [] && result < Shift7(1, k)
    ensures Gather32(result, k, s[0]) < Shift7(1, k + 1)
    ensures Resume32(result, k, Decode32(s, k)) ==
            if s[0] < 128 then Some((Gather32(result, k, s[0]), s[1..]))
            else Resume32(Gather32(result, k, s[0]), k + 1, Decode32(s[1..], k + 1))
  {
    var group: nat := s[0] % 128;
    Shift7Carry(0, 1, k);
    Shift7Add(1, group, k);
    Shift7AtMost(1 + group, 128, k);
    if s[0] >= 128 && Decode32(s[1..], k + 1).Some? {
      Shift7Carry(group, Decode32(s[1..], k + 1).value.0, k);
    }
  }

  lemma {:induction false} Shift7Add(a: nat, b: nat, k: nat)
    ensures Shift7(a + b, k) == Shift7(a, k) + Shift7(b, k)
  {
    if k > 0 {
      Shift7Add(a, b, k - 1);
    }
  }

  lemma Shift7AtMost(a: nat, b: nat, k: nat)
    requires a <= b
    ensures Shift7(a, k) <= Shift7(b, k)
  {
    Shift7Add(a, b - a, k);
  }

  lemma Resume32Fourth(s: seq<byte>, result: nat)
    requires s != [] && result < Shift7(1, 4) && Accepts32(s[0], 4, false)
    ensures Gather32(result, 4, s[0]) < TWO32
    ensures Gather32(result, 4, s[0]) >= TWO31 <==> s[0] % 128 % 16 >= 8
    ensures Resume32(result, 4, Decode32(s, 4)) ==
            if s[0] < 128 then Some((Gather32(result, 4, s[0]), s[1..]))
            else Resume32(Gather32(result, 4, s[0]), 5, Decode32(s[1..], 5, Gather32(result, 4, s[0]) >= TWO31))
  {
    Shift7Four(1);
    Shift7Four(s[0] % 128 % 16);
  }

  // ----- fields and substreams -----

  /** What is left after a varint of any length. */
  function AfterVarint(s: seq<byte>): (r: Option<seq<byte>>)
    ensures r.Some? ==> |r.value| < |s|
  {
    if s == [] then None else if s[0] < 128 then Some(s[1..]) else AfterVarint(s[1..])
  }

  /** A length-delimited record: its payload and what follows. */
  function Delimited(s: seq<byte>): (r: Option<(seq<byte>, seq<byte>)>)
    ensures r.Some? ==> |r.value.0| + |r.value.1| < |s|
  {
    var size := Decode32(s);
    if size.None? || |size.value.1| < size.value.0 then None
    else Some((size.value.1[..size.value.0], size.value.1[size.value.0..]))
  }

  /** What is left after the value of a field that is not understood. */
  function AfterField(wireType: nat, s: seq<byte>): (r: Option<seq<byte>>)
    ensures r.Some? ==> |r.value| <= |s|
  {
    if wireType == WT_VARINT then AfterVarint(s)
    else if wireType == WT_64BIT then (if |s| < 8 then None else Some(s[8..]))
    else if wireType == WT_STRING then
      var d := Delimited(s);
      if d.None? then None else Some(d.value.1)
    else if wireType == WT_32BIT then (if |s| < 4 then None else Some(s[4..]))
    else None
  }

  method SkipVarint(stream: IStream) returns (ok: bool)
    requires stream.Valid()
    modifies stream
    ensures stream.Within() && ok == AfterVarint(old(stream.Rest())).Some?
    ensures ok ==> stream.Advanced() && stream.Rest() == AfterVarint(old(stream.Rest())).value
  {
    ghost var s0 := stream.Rest();
    while true
      invariant stream.Advanced() && AfterVarint(s0) == AfterVarint(stream.Rest())
      decreases stream.bytesLeft
    {
      var data: seq<byte>;
      ok, data := stream.Read(1);
      if !ok {
        return false;
      }
      if data[0] < 128 {
        return true;
      }
    }
  }

  method SkipString(stream: IStream) returns (ok: bool)
    requires stream.Valid()
    modifies stream
    ensures stream.Within() && ok == Delimited(old(stream.Rest())).Some?
    ensures ok ==> stream.Advanced() && stream.Rest() == Delimited(old(stream.Rest())).value.1
  {
    var length: nat;
    ok, length := DecodeVarint32(stream);
    if !ok {
      return;
    }
    var data;
    ok, data := stream.Read(length);
  }

  method SkipField(stream: IStream, wireType: nat) returns (ok: bool)
    requires stream.Valid()
    modifies stream
    ensures stream.Within() && ok == AfterField(wireType, old(stream.Rest())).Some?
    ensures ok ==> stream.Advanced() && stream.Rest() == AfterField(wireType, old(stream.Rest())).value
  {
    var data;
    if wireType == WT_VARINT {
      ok := SkipVarint(stream);
    } else if wireType == WT_64BIT {
      ok, data := stream.Read(8);
    } else if wireType == WT_STRING {
      ok := SkipString(stream);
    } else if wireType == WT_32BIT {
      ok, data := stream.Read(4);
    } else {
      ok := false;
    }
  }

  /**
   A substream over the next length-delimited payload. The parent gives the payload up at once
   but its position only moves when the substream is closed.
   */
  method MakeSubstream(stream: IStream) returns (ok: bool, sub: IStream)
    requires stream.Valid()
    modifies stream
    ensures fresh(sub) && sub.Valid() && sub.buf == stream.buf
    ensures ok == Delimited(old(stream.Rest())).Some?
    ensures stream.Within()
    ensures ok ==> sub.Rest() == Delimited(old(stream.Rest())).value.0
    ensures ok ==> old(stream.state) <= stream.state && Open(stream, sub)
    ensures ok ==> Behind(stream, sub) == Delimited(old(stream.Rest())).value.1
    ensures ok ==> Edge(stream, sub) == old(stream.state + stream.bytesLeft)
  {
    var size: nat;
    ok, size := DecodeVarint32(stream);
    sub := new IStream.FromBuffer(stream.buf);
    if !ok {
      return;
    }
    if stream.bytesLeft < size {
      return false, sub;
    }
    sub.state, sub.bytesLeft := stream.state, size;
    stream.bytesLeft := stream.bytesLeft - size;
  }

  /** Where the parent's data end while a substream is open. */
  function Edge(stream: IStream, sub: IStream): nat
    reads stream, sub
  {
    sub.state + sub.bytesLeft + stream.bytesLeft
  }

  /** The bytes an open substream's parent will go on with. */
  ghost function Behind(stream: IStream, sub: IStream): seq<byte>
    requires Open(stream, sub)
    reads stream, sub
  {
    stream.buf[sub.state + sub.bytesLeft..Edge(stream, sub)]
  }

  ghost predicate Open(stream: IStream, sub: IStream)
    reads stream, sub
  {
    && stream != sub && stream.buf == sub.buf && stream.Valid() && sub.Valid()
    && stream.state <= sub.state && Edge(stream, sub) <= |stream.buf|
  }

  /** However little of the payload was read, the parent ends up right behind it. */
  method CloseSubstream(stream: IStream, sub: IStream) returns (ok: bool)
    requires Open(stream, sub)
    modifies stream, sub
    ensures ok && stream.Valid() && stream.Rest() == old(Behind(stream, sub))
    ensures stream.state == old(sub.state + sub.bytesLeft) && stream.bytesLeft == old(stream.bytesLeft)
  {
    if sub.bytesLeft != 0 {
      var data;
      ok, data := sub.Read(sub.bytesLeft);
      if !ok {
        return;
      }
    }
    stream.state := sub.state;
    ok := true;
  }
}
