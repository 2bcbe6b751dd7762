/**
 The reader's side, written from the standards and not from the compressor: DEFLATE (RFC 1951
 sections 3.2.3 to 3.2.6) inside the zlib container (RFC 1950 section 2.2).
 */
module ZInflate {
  import opened Common
  import opened ZBits

  // ----- section 3.2.6: the fixed literal/length code -----

  /** Reads one symbol; the code is prefix-free, so its first bits tell its length. */
  function DecodeSymbol(bits: seq<bool>): (r: Option<(nat, seq<bool>)>)
    ensures r.Some? ==> r.value.0 < 288 && |r.value.1| < |bits|
  {
    if |bits| < 7 then None
    else
      var v7 := MsbValue(bits[..7]);
      MsbBound(bits[..7]);
      if v7 < 24 then Some((256 + v7, bits[7..]))
      else if |bits| < 8 then None
      else
        var v8 := MsbValue(bits[..8]);
        MsbBound(bits[..8]);
        if 48 <= v8 < 192 then Some((v8 - 48, bits[8..]))
        else if 192 <= v8 < 200 then Some((280 + v8 - 192, bits[8..]))
        else if |bits| < 9 then None
        else
          var v9 := MsbValue(bits[..9]);
          MsbBound(bits[..9]);
          if 400 <= v9 then Some((144 + v9 - 400, bits[9..])) else None
  }

  lemma {:induction false} MsbLess(bits: seq<bool>)
    ensures MsbValue(bits) < Shl(1, |bits|)
  {
    if bits != [] {
      MsbLess(bits[..|bits| - 1]);
    }
  }

  lemma MsbBound(bits: seq<bool>)
    ensures |bits| == 5 ==> MsbValue(bits) < 32
    ensures |bits| == 7 ==> MsbValue(bits) < 128
    ensures |bits| == 8 ==> MsbValue(bits) < 256
    ensures |bits| == 9 ==> MsbValue(bits) < 512
  {
    MsbLess(bits);
    assert Shl(1, 3) == 8;
    assert Shl(1, 5) == 4 * Shl(1, 3) by { assert Shl(1, 4) == 2 * Shl(1, 3); }
    assert Shl(1, 7) == 4 * Shl(1, 5) by { assert Shl(1, 6) == 2 * Shl(1, 5); }
    assert Shl(1, 9) == 4 * Shl(1, 7) by { assert Shl(1, 8) == 2 * Shl(1, 7); }
  }

  // ----- section 3.2.5: lengths and distances -----

  /** Base length and number of extra bits of length codes 257 to 285. */
  function LengthCode(symbol: nat): (nat, nat)
    requires 257 <= symbol <= 285
  {
    if symbol < 265 then (symbol - 254, 0)
    else if symbol < 269 then (11 + 2 * (symbol - 265), 1)
    else if symbol < 273 then (19 + 4 * (symbol - 269), 2)
    else if symbol < 277 then (35 + 8 * (symbol - 273), 3)
    else if symbol < 281 then (67 + 16 * (symbol - 277), 4)
    else if symbol < 285 then (131 + 32 * (symbol - 281), 5)
    else (258, 0)
  }

  /** Base distance and number of extra bits of distance codes 0 to 29. */
  function DistanceCode(code: nat): (nat, nat)
    requires code < 30
  {
    if code < 4 then (code + 1, 0)
    else
      var extra := code / 2 - 1;
      (1 + Shl(2 + code % 2, extra), extra)
  }

  /** A number of n bits, least significant first. */
  function TakeNumber(bits: seq<bool>, n: nat): (r: Option<(nat, seq<bool>)>)
    ensures r.Some? ==> |r.value.1| == |bits| - n
  {
    if |bits| < n then None else Some((LsbValue(bits[..n]), bits[n..]))
  }

  /** The length and distance of a match whose length symbol has been read. */
  function DecodeMatch(symbol: nat, bits: seq<bool>): (r: Option<(nat, nat, seq<bool>)>)
    requires 257 <= symbol
    ensures r.Some? ==> |r.value.2| <= |bits|
  {
    if symbol > 285 then None
    else
      var (base, extra) := LengthCode(symbol);
      var l := TakeNumber(bits, extra);
      if l.None? || |l.value.1| < 5 then None
      else
        var code := MsbValue(l.value.1[..5]);
        if code >= 30 then None
        else
          var (dbase, dextra) := DistanceCode(code);
          var d := TakeNumber(l.value.1[5..], dextra);
          if d.None? then None else Some((base + l.value.0, dbase + d.value.0, d.value.1))
  }

  /** Copies byte by byte, so that a match may reach into its own output. */
  function CopyBack(out: seq<byte>, length: nat, distance: nat): (r: seq<byte>)
    requires 1 <= distance <= |out|
    ensures |r| == |out| + length
    decreases length
  {
    if length == 0 then out else CopyBack(out + [out[|out| - distance]], length - 1, distance)
  }

  /** Section 3.2.3: the symbols of one compressed block, up to end-of-block. */
  function Symbols(bits: seq<bool>, out: seq<byte>): (r: Option<(seq<byte>, seq<bool>)>)
    ensures r.Some? ==> |r.value.1| < |bits|
    decreases |bits|
  {
    var s := DecodeSymbol(bits);
    if s.None? then None
    else if s.value.0 < 256 then Symbols(s.value.1, out + [s.value.0])
    else if s.value.0 == 256 then Some((out, s.value.1))
    else
      var m := DecodeMatch(s.value.0, s.value.1);
      if m.None? || !(1 <= m.value.1 <= |out|) then None
      else Symbols(m.value.2, CopyBack(out, m.value.0, m.value.1))
  }

  /** A 16-bit number, low byte first. */
  function Word(low: nat, high: nat): nat {
    low + 256 * high
  }

  /** Section 3.2.4: a stored block starts at a byte boundary with LEN and its complement. */
  function StoredBlock(bits: seq<bool>, out: seq<byte>): (r: Option<(seq<byte>, seq<bool>)>)
    ensures r.Some? ==> |r.value.1| <= |bits|
  {
    var head := TakeBytes(bits[|bits| % 8..], LENGTH_BYTES);
    if head.None? then None else StoredBody(head.value.0, head.value.1, out)
  }

  const LENGTH_BYTES: nat := 4

  function StoredBody(h: seq<byte>, bits: seq<bool>, out: seq<byte>): (r: Option<(seq<byte>, seq<bool>)>)
    requires |h| == LENGTH_BYTES
    ensures r.Some? ==> |r.value.1| <= |bits|
  {
    var len, nlen := Word(h[0], h[1]), Word(h[2], h[3]);
    if len + nlen != 0xFFFF then None
    else
      var body := TakeBytes(bits, len);
      if body.None? then None else Some((out + body.value.0, body.value.1))
  }

  function Blocks(bits: seq<bool>, out: seq<byte>): (r: Option<(seq<byte>, seq<bool>)>)
    decreases |bits|
  {
    if |bits| < 3 then None
    else
      var (last, type0, type1) := (bits[0], bits[1], bits[2]);
      var r := if type1 then None  // dynamic codes, or the reserved type
               else if type0 then Symbols(bits[3..], out)
               else StoredBlock(bits[3..], out);
      if r.None? || last then r else Blocks(r.value.1, r.value.0)
  }

  // ----- RFC 1950 -----

  /** The two sums of Adler-32, each reduced at every byte. */
  function AdlerSums(data: seq<byte>): (s: (nat, nat))
    ensures s.0 < 65521 && s.1 < 65521
  {
    if data == [] then (1, 0) else AdlerStep(AdlerSums(data[..|data| - 1]), data[|data| - 1])
  }

  function AdlerStep(s: (nat, nat), b: nat): (r: (nat, nat))
    ensures r.0 < 65521 && r.1 < 65521
  {
    var t := (s.0 + b) % 65521;
    (t, (s.1 + t) % 65521)
  }

  /** Most significant byte first. */
  function AdlerBytes(data: seq<byte>): (bs: seq<byte>)
    ensures |bs| == 4
  {
    var (s1, s2) := AdlerSums(data);
    [s2 / 256, s2 % 256, s1 / 256, s1 % 256]
  }

  /** Method 8 with a window of at most 32K, a correct check value, no preset dictionary. */
  predicate HeaderOk(cmf: nat, flg: nat) {
    cmf % 16 == 8 && cmf / 16 <= 7 && (cmf * 256 + flg) % 31 == 0 && flg / 32 % 2 == 0
  }

  /** What a byte-aligned trailer must be for the content to count. */
  predicate TrailerOk(data: seq<byte>, rest: seq<bool>) {
    TakeBytes(rest[|rest| % 8..], |AdlerBytes(data)|) == Some((AdlerBytes(data), []))
  }

  /** The content of a zlib stream, or None when it is not one. */
  function Unzlib(stream: seq<byte>): Option<seq<byte>> {
    if |stream| < 2 || !HeaderOk(stream[0], stream[1]) then None
    else
      var r := Blocks(BitsOf(stream[2..]), []);
      if r.None? || !TrailerOk(r.value.0, r.value.1) then None else Some(r.value.0)
  }
}
