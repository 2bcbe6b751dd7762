/**
 stbi_zlib_compress: hash-table match search, fixed Huffman output, stored fallback and Adler-32
 trailer, proved against the reader of ZInflate.
 */
module ZCompress {
  import opened Common
  import opened ZBits
  import opened ZInflate
  import opened ZDeflate

  // ----- the tables lengthc, lengtheb, distc and disteb -----

  datatype Tables = Tables(lengthc: seq<nat>, lengtheb: seq<nat>, distc: seq<nat>, disteb: seq<nat>)

  /** Row j of the length tables is section 3.2.5's, and its extra bits reach the next base length. */
  ghost predicate LengthRow(t: Tables, j: nat)
    requires j + 1 < |t.lengthc| && j < |t.lengtheb|
  {
    && j < 29 && LengthCode(257 + j) == (t.lengthc[j], t.lengtheb[j]) && t.lengtheb[j] <= 5
    && t.lengthc[j] < t.lengthc[j + 1] <= t.lengthc[j] + Shl(1, t.lengtheb[j])
  }

  /** Row j of the distance tables likewise. */
  ghost predicate DistanceRow(t: Tables, j: nat)
    requires j + 1 < |t.distc| && j < |t.disteb|
  {
    && j < 30 && DistanceCode(j) == (t.distc[j], t.disteb[j]) && t.disteb[j] <= 13
    && t.distc[j] < t.distc[j + 1] <= t.distc[j] + Shl(1, t.disteb[j])
  }

  ghost predicate Standard(t: Tables) {
    && |t.lengthc| == 30 && |t.lengtheb| == 29 && |t.distc| == 31 && |t.disteb| == 30
    && t.lengthc[0] == 3 && t.lengthc[29] == 259 && t.distc[0] == 1 && t.distc[30] == 32768
    && (forall j :: 0 <= j < 29 ==> LengthRow(t, j))
    && (forall j :: 0 <= j < 30 ==> DistanceRow(t, j))
  }

  const LENGTHC: seq<nat> := [3, 4, 5, 6, 7, 8, 9, 10, 11, 13, 15, 17, 19, 23, 27, 31, 35, 43, 51, 59, 67, 83, 99, 115, 131, 163, 195, 227, 258, 259]
  const LENGTHEB: seq<nat> := [0, 0, 0, 0, 0, 0, 0, 0, 1, 1, 1, 1, 2, 2, 2, 2, 3, 3, 3, 3, 4, 4, 4, 4, 5, 5, 5, 5, 0]
  const DISTC: seq<nat> := [1, 2, 3, 4, 5, 7, 9, 13, 17, 25, 33, 49, 65, 97, 129, 193, 257, 385, 513, 769, 1025, 1537, 2049, 3073, 4097, 6145, 8193, 12289, 16385, 24577, 32768]
  const DISTEB: seq<nat> := [0, 0, 0, 0, 1, 1, 2, 2, 3, 3, 4, 4, 5, 5, 6, 6, 7, 7, 8, 8, 9, 9, 10, 10, 11, 11, 12, 12, 13, 13]

  /** Row j's entries are the standard's, whose extra bits cover the step to the next row. */
  ghost predicate LengthEntry(j: nat, step: nat)
    requires j < 29
  {
    && LengthCode(257 + j) == (LENGTHC[j], LENGTHEB[j])
    && LENGTHC[j] < LENGTHC[j + 1] <= LENGTHC[j] + step
  }

  function LengthExtra(j: nat): nat {
    if j < 8 || j == 28 then 0 else j / 4 - 1
  }

  lemma ShortLengths(j: nat, step: nat)
    requires j < 14 && step == Shl(1, LengthExtra(j))
    ensures LENGTHEB[j] == LengthExtra(j) && LengthEntry(j, step)
  {
    ShlTable();
  }

  lemma LongLengths(j: nat, step: nat)
    requires 14 <= j < 29 && step == Shl(1, LengthExtra(j))
    ensures LENGTHEB[j] == LengthExtra(j) && LengthEntry(j, step)
  {
    ShlTable();
  }

  lemma LengthRowAt(t: Tables, j: nat)
    requires t.lengthc == LENGTHC && t.lengtheb == LENGTHEB && j < 29
    ensures LengthRow(t, j)
  {
    if j < 14 {
      ShortLengths(j, Shl(1, LengthExtra(j)));
    } else {
      LongLengths(j, Shl(1, LengthExtra(j)));
    }
  }

  ghost predicate DistancePower(j: nat, power: nat)
    requires 4 <= j < 30
  {
    && DISTEB[j] == j / 2 - 1
    && DISTC[j] == (if j % 2 == 0 then 1 + 2 * power else 1 + 3 * power)
    && DISTC[j] < DISTC[j + 1] <= DISTC[j] + power
  }

  lemma DistancePowersLow(j: nat, power: nat)
    requires 4 <= j < 16 && power == Shl(1, j / 2 - 1)
    ensures DistancePower(j, power)
  {
    ShlTable();
  }

  lemma DistancePowersHigh(j: nat, power: nat)
    requires 16 <= j < 30 && power == Shl(1, j / 2 - 1)
    ensures DistancePower(j, power)
  {
    ShlTable();
  }

  lemma DistanceCodes(j: nat, extra: nat, power: nat)
    requires 4 <= j < 30 && extra == j / 2 - 1 && power == Shl(1, extra)
    ensures DistanceCode(j) == (if j % 2 == 0 then 1 + 2 * power else 1 + 3 * power, extra)
  {
    ShlAdd(1, 1, extra);
    ShlAdd(1, 2, extra);
  }

  lemma FirstDistances(t: Tables, j: nat)
    requires t.distc == DISTC && t.disteb == DISTEB && j < 4
    ensures DistanceRow(t, j)
  {
  }

  lemma LaterDistances(t: Tables, j: nat)
    requires t.distc == DISTC && t.disteb == DISTEB && 4 <= j < 30
    ensures DistanceRow(t, j)
  {
    var power := Shl(1, j / 2 - 1);
    if j < 16 {
      DistancePowersLow(j, power);
    } else {
      DistancePowersHigh(j, power);
    }
    DistanceCodes(j, j / 2 - 1, power);
  }

  lemma TablesStandard(t: Tables)
    requires t == Tables(LENGTHC, LENGTHEB, DISTC, DISTEB)
    ensures Standard(t)
  {
    forall j | 0 <= j < 29 ensures LengthRow(t, j) {
      LengthRowAt(t, j);
    }
    forall j | 0 <= j < 30 ensures DistanceRow(t, j) {
      if j < 4 {
        FirstDistances(t, j);
      } else {
        LaterDistances(t, j);
      }
    }
  }

  // ----- tokens -----

  /** What the compressor decides on: a literal byte, or a copy of earlier output. */
  datatype Token = Literal(b: byte) | Match(length: nat, distance: nat)

  /** How many bytes a token sequence stands for. */
  function Size(ts: seq<Token>): nat {
    if ts == [] then 0
    else Size(ts[..|ts| - 1]) + match ts[|ts| - 1] case Literal(_) => 1 case Match(length, _) => length
  }

  /** Every match is 3 to 258 bytes long and reaches back 1 to 32767 bytes, not past the beginning. */
  predicate Sound(ts: seq<Token>) {
    ts == [] ||
    (Sound(ts[..|ts| - 1]) &&
     match ts[|ts| - 1]
     case Literal(_) => true
     case Match(length, distance) => 3 <= length <= 258 && 1 <= distance <= 32767 && distance <= Size(ts[..|ts| - 1]))
  }

  /** The data a token sequence stands for. */
  function Expand(ts: seq<Token>): (data: seq<byte>)
    requires Sound(ts)
    ensures |data| == Size(ts)
  {
    if ts == [] then [] else Expanded(Expand(ts[..|ts| - 1]), ts[|ts| - 1])
  }

  /** One token more. */
  function Expanded(data: seq<byte>, k: Token): seq<byte>
    requires k.Match? ==> 1 <= k.distance <= |data|
  {
    match k
    case Literal(b) => data + [b]
    case Match(length, distance) => CopyBack(data, length, distance)
  }

  function LengthIndexFrom(t: Tables, length: nat, j: nat): (r: nat)
    requires Standard(t) && j < 29 && t.lengthc[j] <= length <= 258
    ensures r < 29 && t.lengthc[r] <= length < t.lengthc[r + 1]
    decreases 29 - j
  {
    if length >= t.lengthc[j + 1] then LengthIndexFrom(t, length, j + 1) else j
  }

  function DistanceIndexFrom(t: Tables, distance: nat, j: nat): (r: nat)
    requires Standard(t) && j < 30 && t.distc[j] <= distance <= 32767
    ensures r < 30 && t.distc[r] <= distance < t.distc[r + 1]
    decreases 30 - j
  {
    if distance >= t.distc[j + 1] then DistanceIndexFrom(t, distance, j + 1) else j
  }

  /** The length symbol and its extra bits. */
  function LengthBits(t: Tables, length: nat): seq<bool>
    requires Standard(t) && 3 <= length <= 258
  {
    var j := LengthIndexFrom(t, length, 0);
    assert LengthRow(t, j);
    SymbolBits(257 + j) + LsbBits(length - t.lengthc[j], t.lengtheb[j])
  }

  /** The distance code and its extra bits. */
  function DistanceBits(t: Tables, distance: nat): seq<bool>
    requires Standard(t) && 1 <= distance <= 32767
  {
    var j := DistanceIndexFrom(t, distance, 0);
    assert DistanceRow(t, j);
    MsbBits(j, 5) + LsbBits(distance - t.distc[j], t.disteb[j])
  }

  function TokenBits(t: Tables, k: Token): seq<bool>
    requires Standard(t) && (k.Match? ==> 3 <= k.length <= 258 && 1 <= k.distance <= 32767)
  {
    match k
    case Literal(b) => SymbolBits(b)
    case Match(length, distance) => LengthBits(t, length) + DistanceBits(t, distance)
  }

  function TokensBits(t: Tables, ts: seq<Token>): seq<bool>
    requires Standard(t) && Sound(ts)
  {
    if ts == [] then [] else TokensBits(t, ts[..|ts| - 1]) + TokenBits(t, ts[|ts| - 1])
  }

  // ----- what a token writes is what the reader reads -----

  lemma NumberReads(v: nat, n: nat, rest: seq<bool>)
    requires v < Shl(1, n)
    ensures TakeNumber(LsbBits(v, n) + rest, n) == Some((v, rest))
  {
    LsbRoundTrip(v, n);
    ConcatSplit(LsbBits(v, n), rest);
  }

  lemma LengthRange(t: Tables, length: nat, j: nat)
    requires j + 1 < |t.lengthc| && j < |t.lengtheb| && LengthRow(t, j) && t.lengthc[j] <= length < t.lengthc[j + 1]
    ensures length - t.lengthc[j] < Shl(1, t.lengtheb[j]) && t.lengtheb[j] <= 13
    ensures LengthCode(257 + j) == (t.lengthc[j], t.lengtheb[j])
  {
  }

  /** The bits of a length, by its index. */
  lemma LengthBitsAt(t: Tables, length: nat, j: nat)
    requires Standard(t) && 3 <= length <= 258 && j == LengthIndexFrom(t, length, 0)
    ensures j < 29 && t.lengthc[j] <= length && length - t.lengthc[j] < Shl(1, t.lengtheb[j]) && t.lengtheb[j] <= 13
    ensures LengthCode(257 + j) == (t.lengthc[j], t.lengtheb[j])
    ensures LengthBits(t, length) == SymbolBits(257 + j) + LsbBits(length - t.lengthc[j], t.lengtheb[j])
  {
    assert LengthRow(t, j);
    LengthRange(t, length, j);
    assert LengthBits(t, length) == SymbolBits(257 + j) + LsbBits(length - t.lengthc[j], t.lengtheb[j]);
  }

  lemma DistanceRange(t: Tables, d: nat, j: nat)
    requires j + 1 < |t.distc| && j < |t.disteb| && DistanceRow(t, j) && t.distc[j] <= d < t.distc[j + 1]
    ensures d - t.distc[j] < Shl(1, t.disteb[j]) && t.disteb[j] <= 13
    ensures DistanceCode(j) == (t.distc[j], t.disteb[j])
  {
  }

  /** The bits of a distance, by its index. */
  lemma DistanceBitsAt(t: Tables, d: nat, j: nat)
    requires Standard(t) && 1 <= d <= 32767 && j == DistanceIndexFrom(t, d, 0)
    ensures j < 30 && t.distc[j] <= d && d - t.distc[j] < Shl(1, t.disteb[j]) && t.disteb[j] <= 13
    ensures DistanceCode(j) == (t.distc[j], t.disteb[j])
    ensures DistanceBits(t, d) == MsbBits(j, 5) + LsbBits(d - t.distc[j], t.disteb[j])
  {
    assert DistanceRow(t, j);
    DistanceRange(t, d, j);
    assert DistanceBits(t, d) == MsbBits(j, 5) + LsbBits(d - t.distc[j], t.disteb[j]);
  }

  /** A length symbol with its extra bits, in front of anything. */
  ghost predicate LengthOk(bits: seq<bool>, length: nat, tail: seq<bool>) {
    var s := DecodeSymbol(bits + tail);
    && s.Some? && 257 <= s.value.0 <= 285 && LengthCode(s.value.0).0 <= length
    && TakeNumber(s.value.1, LengthCode(s.value.0).1) == Some((length - LengthCode(s.value.0).0, tail))
  }

  /** A distance code with its extra bits, in front of anything. */
  ghost predicate DistanceOk(bits: seq<bool>, distance: nat, rest: seq<bool>) {
    var s := bits + rest;
    && |s| >= 5 && MsbValue(s[..5]) < 30 && DistanceCode(MsbValue(s[..5])).0 <= distance
    && TakeNumber(s[5..], DistanceCode(MsbValue(s[..5])).1) == Some((distance - DistanceCode(MsbValue(s[..5])).0, rest))
  }

  lemma LengthRoundTrip(t: Tables, length: nat, tail: seq<bool>)
    requires Standard(t) && 3 <= length <= 258
    ensures LengthOk(LengthBits(t, length), length, tail)
  {
    var j := LengthIndexFrom(t, length, 0);
    LengthBitsAt(t, length, j);
    SymbolReads(257 + j, length - t.lengthc[j], t.lengtheb[j], tail);
  }

  /** A symbol and its extra bits. */
  lemma SymbolReads(symbol: nat, value: nat, extra: nat, tail: seq<bool>)
    requires symbol < 288 && value < Shl(1, extra)
    ensures var s := DecodeSymbol(SymbolBits(symbol) + LsbBits(value, extra) + tail);
            s.Some? && s.value.0 == symbol && TakeNumber(s.value.1, extra) == Some((value, tail))
  {
    var bits := LsbBits(value, extra);
    assert SymbolBits(symbol) + bits + tail == SymbolBits(symbol) + (bits + tail);
    SymbolRoundTrip(symbol, bits + tail);
    NumberReads(value, extra, tail);
  }

  lemma DistanceRoundTrip(t: Tables, distance: nat, rest: seq<bool>)
    requires Standard(t) && 1 <= distance <= 32767
    ensures DistanceOk(DistanceBits(t, distance), distance, rest)
  {
    var j := DistanceIndexFrom(t, distance, 0);
    DistanceBitsAt(t, distance, j);
    DistanceReads(j, distance, t.distc[j], t.disteb[j], rest);
  }

  lemma DistanceReads(j: nat, distance: nat, base: nat, extra: nat, rest: seq<bool>)
    requires j < 30 && DistanceCode(j) == (base, extra) && base <= distance && distance - base < Shl(1, extra)
    ensures DistanceOk(MsbBits(j, 5) + LsbBits(distance - base, extra), distance, rest)
  {
    NumberReads(distance - base, extra, rest);
    CodeReads(j, LsbBits(distance - base, extra), rest);
  }

  lemma CodeReads(j: nat, extra: seq<bool>, rest: seq<bool>)
    requires j < 30
    ensures var s := MsbBits(j, 5) + extra + rest;
            |s| >= 5 && MsbValue(s[..5]) == j && s[5..] == extra + rest
  {
    ShlTable();
    var code := MsbBits(j, 5);
    assert code + extra + rest == code + (extra + rest);
    MsbFront(j, 5, extra + rest);
    ConcatSplit(code, extra + rest);
  }

  lemma MatchReads(length: nat, lengthBits: seq<bool>, distance: nat, distanceBits: seq<bool>, rest: seq<bool>, data: seq<byte>)
    requires LengthOk(lengthBits, length, distanceBits + rest) && DistanceOk(distanceBits, distance, rest)
    requires 1 <= distance <= |data|
    ensures Symbols(lengthBits + distanceBits + rest, data) == Symbols(rest, CopyBack(data, length, distance))
  {
    var bits := lengthBits + (distanceBits + rest);
    Assoc(lengthBits, distanceBits, rest);
    var s := DecodeSymbol(bits).value;
    MatchDecodes(s.0, s.1, length, distance, distanceBits, rest);
    SymbolsMatch(bits, s, length, distance, rest, data);
  }

  lemma MatchDecodes(symbol: nat, bits: seq<bool>, length: nat, distance: nat, distanceBits: seq<bool>, rest: seq<bool>)
    requires 257 <= symbol <= 285 && LengthCode(symbol).0 <= length && DistanceOk(distanceBits, distance, rest)
    requires TakeNumber(bits, LengthCode(symbol).1) == Some((length - LengthCode(symbol).0, distanceBits + rest))
    ensures DecodeMatch(symbol, bits) == Some((length, distance, rest))
  {
  }

  lemma SymbolsMatch(bits: seq<bool>, s: (nat, seq<bool>), length: nat, distance: nat, rest: seq<bool>, data: seq<byte>)
    requires DecodeSymbol(bits) == Some(s) && 257 <= s.0
    requires DecodeMatch(s.0, s.1) == Some((length, distance, rest)) && 1 <= distance <= |data|
    ensures Symbols(bits, data) == Symbols(rest, CopyBack(data, length, distance))
  {
  }

  lemma LiteralReads(b: byte, rest: seq<bool>, data: seq<byte>)
    ensures Symbols(SymbolBits(b) + rest, data) == Symbols(rest, data + [b])
  {
    SymbolRoundTrip(b, rest);
  }

  lemma TokenReads(t: Tables, k: Token, rest: seq<bool>, data: seq<byte>)
    requires Standard(t) && (k.Match? ==> 3 <= k.length <= 258 && 1 <= k.distance <= 32767 && k.distance <= |data|)
    ensures Symbols(TokenBits(t, k) + rest, data) == Symbols(rest, Expanded(data, k))
  {
    match k
    case Literal(b) =>
      LiteralReads(b, rest, data);
    case Match(length, distance) =>
      var l, d := LengthBits(t, length), DistanceBits(t, distance);
      LengthRoundTrip(t, length, d + rest);
      DistanceRoundTrip(t, distance, rest);
      MatchReads(length, l, distance, d, rest, data);
  }

  /** The reader turns the bits of a token sequence into its data, and goes on behind them. */
  lemma {:induction false} TokensRead(t: Tables, ts: seq<Token>, rest: seq<bool>)
    requires Standard(t) && Sound(ts)
    ensures Symbols(TokensBits(t, ts) + rest, []) == Symbols(rest, Expand(ts))
  {
    if ts == [] {
      assert TokensBits(t, ts) + rest == rest;
    } else {
      var front, last := ts[..|ts| - 1], ts[|ts| - 1];
      TokensRead(t, front, TokenBits(t, last) + rest);
      Assoc(TokensBits(t, front), TokenBits(t, last), rest);
      TokenReads(t, last, rest, Expand(front));
    }
  }

  lemma BlockReads(t: Tables, ts: seq<Token>, rest: seq<bool>)
    requires Standard(t) && Sound(ts)
    ensures Symbols(TokensBits(t, ts) + SymbolBits(256) + rest, []) == Some((Expand(ts), rest))
  {
    assert TokensBits(t, ts) + SymbolBits(256) + rest == TokensBits(t, ts) + (SymbolBits(256) + rest);
    TokensRead(t, ts, SymbolBits(256) + rest);
    SymbolRoundTrip(256, rest);
  }

  // ----- writing tokens -----

  /** The extra bits of a code; codes without any write nothing. */
  method AddExtra(w: BitWriter, value: nat, extra: nat)
    requires w.Valid() && extra <= 13 && value < Shl(1, extra)
    modifies w
    ensures w.Valid() && w.Bits() == old(w.Bits()) + LsbBits(value, extra)
  {
    if extra != 0 {
      w.Add(value, extra);
    }
  }

  method LengthIndex(t: Tables, best: nat) returns (j: nat)
    requires Standard(t) && 3 <= best <= 258
    ensures j == LengthIndexFrom(t, best, 0)
  {
    j := 0;
    while best >= t.lengthc[j + 1]
      invariant j < 29 && t.lengthc[j] <= best && LengthIndexFrom(t, best, j) == LengthIndexFrom(t, best, 0)
      decreases 29 - j
    {
      j := j + 1;
    }
  }

  method DistanceIndex(t: Tables, d: nat) returns (j: nat)
    requires Standard(t) && 1 <= d <= 32767
    ensures j == DistanceIndexFrom(t, d, 0)
  {
    j := 0;
    while d >= t.distc[j + 1]
      invariant j < 30 && t.distc[j] <= d && DistanceIndexFrom(t, d, j) == DistanceIndexFrom(t, d, 0)
      decreases 30 - j
    {
      j := j + 1;
    }
  }

  method AddSymbolExtra(w: BitWriter, symbol: nat, value: nat, extra: nat)
    requires w.Valid() && symbol < 288 && extra <= 13 && value < Shl(1, extra)
    modifies w
    ensures w.Valid() && w.Bits() == old(w.Bits()) + (SymbolBits(symbol) + LsbBits(value, extra))
  {
    ghost var before := w.Bits();
    w.AddSymbol(symbol);
    AddExtra(w, value, extra);
    Assoc(before, SymbolBits(symbol), LsbBits(value, extra));
  }

  method AddCodeExtra(w: BitWriter, code: nat, value: nat, extra: nat)
    requires w.Valid() && extra <= 13 && value < Shl(1, extra)
    modifies w
    ensures w.Valid() && w.Bits() == old(w.Bits()) + (MsbBits(code, 5) + LsbBits(value, extra))
  {
    ghost var before := w.Bits();
    w.AddCode(code, 5);
    AddExtra(w, value, extra);
    Assoc(before, MsbBits(code, 5), LsbBits(value, extra));
  }

  method EmitLength(w: BitWriter, t: Tables, best: nat)
    requires Standard(t) && w.Valid() && 3 <= best <= 258
    modifies w
    ensures w.Valid() && w.Bits() == old(w.Bits()) + LengthBits(t, best)
  {
    var j := LengthIndex(t, best);
    LengthBitsAt(t, best, j);
    AddSymbolExtra(w, 257 + j, best - t.lengthc[j], t.lengtheb[j]);
  }

  method EmitDistance(w: BitWriter, t: Tables, d: nat)
    requires Standard(t) && w.Valid() && 1 <= d <= 32767
    modifies w
    ensures w.Valid() && w.Bits() == old(w.Bits()) + DistanceBits(t, d)
  {
    var j := DistanceIndex(t, d);
    DistanceBitsAt(t, d, j);
    AddCodeExtra(w, j, d - t.distc[j], t.disteb[j]);
  }

  // ----- finding matches -----

  /** The bytes at a and at b agree over the given length; the two stretches may overlap. */
  ghost predicate Agree(data: seq<byte>, a: nat, b: nat, length: nat)
    requires a <= b && b + length <= |data|
  {
    forall p :: a <= p < a + length ==> data[p] == data[p + (b - a)]
  }

  /** A match inside the data is what copying from its own output produces. */
  lemma {:induction false} CopyIsMatch(data: seq<byte>, i: nat, from: nat, length: nat)
    requires from < i && i + length <= |data| && Agree(data, from, i, length)
    ensures CopyBack(data[..i], length, i - from) == data[..i + length]
    decreases length
  {
    if length > 0 {
      assert data[..i] + [data[..i][i - (i - from)]] == data[..i + 1];
      CopyIsMatch(data, i + 1, from + 1, length - 1);
    }
  }

  /** A match of that length, at most 258, is there. */
  ghost predicate Reaches(data: seq<byte>, a: nat, b: nat, length: nat)
    requires a <= b
  {
    length <= 258 && b + length <= |data| && Agree(data, a, b, length)
  }

  lemma Mismatch(data: seq<byte>, a: nat, b: nat, i: nat, longer: nat)
    requires a <= b && b + i < |data| && data[a + i] != data[b + i] && i < longer
    ensures !Reaches(data, a, b, longer)
  {
    var p := a + i;
    assert data[p] != data[p + (b - a)];
  }

  /** stbiw__zlib_countm: the length of the longest match, up to 258. */
  method CountMatch(data: seq<byte>, a: nat, b: nat, limit: nat) returns (i: nat)
    requires a <= b && b + limit == |data|
    ensures Reaches(data, a, b, i) && forall longer :: i < longer ==> !Reaches(data, a, b, longer)
  {
    i := 0;
    while i < limit && i < 258
      invariant 0 <= i <= limit && i <= 258 && Agree(data, a, b, i)
    {
      if data[a + i] != data[b + i] {
        forall longer | i < longer ensures !Reaches(data, a, b, longer) {
          Mismatch(data, a, b, i, longer);
        }
        return;
      }
      i := i + 1;
    }
  }

  /** A usable match at position i: within the window, 3 to 258 bytes long. */
  ghost predicate GoodMatch(data: seq<byte>, i: nat, loc: nat, best: nat) {
    loc < i && i - loc <= 32767 && 3 <= best && Reaches(data, loc, i, best)
  }

  ghost predicate Below(bucket: seq<nat>, i: nat) {
    forall e :: 0 <= e < |bucket| ==> bucket[e] < i
  }

  /** No entry of the bucket within the window matches at position i for that length. */
  ghost predicate Unmatched(data: seq<byte>, bucket: seq<nat>, i: nat, length: nat, window: nat) {
    forall e :: 0 <= e < |bucket| && bucket[e] <= i && i - bucket[e] < window ==> !Reaches(data, bucket[e], i, length)
  }

  /** The latest longest match among the bucket's entries in the window. */
  method FindMatch(data: seq<byte>, bucket: seq<nat>, i: nat) returns (best: nat, bestloc: Option<nat>)
    requires i <= |data| && Below(bucket, i)
    ensures bestloc.Some? ==> bestloc.value in bucket && GoodMatch(data, i, bestloc.value, best)
    ensures Unmatched(data, bucket, i, if bestloc.Some? then best + 1 else 3, 32768)
  {
    best, bestloc := 3, None;
    var j := 0;
    while j < |bucket|
      invariant 0 <= j <= |bucket| && 3 <= best <= 258
      invariant bestloc.Some? ==> bestloc.value in bucket && GoodMatch(data, i, bestloc.value, best)
      invariant bestloc.None? ==> best == 3
      invariant Unmatched(data, bucket[..j], i, if bestloc.Some? then best + 1 else 3, 32768)
    {
      if bucket[j] > i - 32768 {
        var d := CountMatch(data, bucket[j], i, |data| - i);
        if d >= best {
          StillUnmatched(data, bucket[..j], i, if bestloc.Some? then best + 1 else 3, d + 1, 32768);
          best, bestloc := d, Some(bucket[j]);
        }
      }
      assert bucket[..j + 1] == bucket[..j] + [bucket[j]];
      j := j + 1;
    }
    assert bucket[..j] == bucket;
  }

  lemma StillUnmatched(data: seq<byte>, bucket: seq<nat>, i: nat, length: nat, longer: nat, window: nat)
    requires Unmatched(data, bucket, i, length, window) && length <= longer
    ensures Unmatched(data, bucket, i, longer, window)
  {
    forall e | 0 <= e < |bucket| && bucket[e] <= i && i - bucket[e] < window ensures !Reaches(data, bucket[e], i, longer) {
      assert Reaches(data, bucket[e], i, longer) ==> Reaches(data, bucket[e], i, length);
    }
  }

  /** Lazy matching: is there a longer match one byte further on? */
  method BetterNext(data: seq<byte>, bucket: seq<nat>, i: nat, best: nat) returns (better: bool)
    requires i < |data| && Below(bucket, i + 1)
    ensures better <==> !Unmatched(data, bucket, i + 1, best + 1, 32768)
  {
    var j := 0;
    while j < |bucket|
      invariant 0 <= j <= |bucket| && Unmatched(data, bucket[..j], i + 1, best + 1, 32768)
    {
      if bucket[j] > i - 32767 {
        var e := CountMatch(data, bucket[j], i + 1, |data| - i - 1);
        if e > best {
          assert Reaches(data, bucket[j], i + 1, best + 1);
          return true;
        }
      }
      assert bucket[..j + 1] == bucket[..j] + [bucket[j]];
      j := j + 1;
    }
    assert bucket[..j] == bucket;
    better := false;
  }

  const ZHASH := 16384

  /** stbiw__zhash, on 32-bit words, and the bucket it selects. */
  function Hash(data: seq<byte>, i: nat): (h: nat)
    requires i + 2 < |data|
    ensures h < ZHASH
  {
    var (b0: nat, b1: nat, b2: nat) := (data[i], data[i + 1], data[i + 2]);
    var h0: bv32 := (b0 + b1 * 0x100 + b2 * 0x1_0000) as bv32;
    var h1 := h0 ^ (h0 << 3);
    var h2 := h1 + (h1 >> 5);
    var h3 := h2 ^ (h2 << 4);
    var h4 := h3 + (h3 >> 17);
    var h5 := h4 ^ (h4 << 25);
    var h6 := h5 + (h5 >> 6);
    h6 as int % ZHASH
  }

  ghost predicate TableBelow(table: seq<seq<nat>>, i: nat) {
    |table| == ZHASH && forall h :: 0 <= h < |table| ==> Below(table[h], i)
  }

  /** The bucket after a position is remembered; a full one first loses its older half. */
  function Remembered(bucket: seq<nat>, i: nat, quality: nat): seq<nat> {
    (if |bucket| == 2 * quality then bucket[quality..] else bucket) + [i]
  }

  lemma RememberedBelow(table: seq<seq<nat>>, h: nat, i: nat, quality: nat)
    requires h < |table| && TableBelow(table, i)
    ensures TableBelow(table[h := Remembered(table[h], i, quality)], i + 1)
  {
    assert Below(table[h], i);
  }

  method Remember(table: array<seq<nat>>, h: nat, i: nat, quality: nat)
    requires h < table.Length
    modifies table
    ensures table[..] == old(table[..])[h := Remembered(old(table[h]), i, quality)]
  {
    var bucket := table[h];
    if |bucket| == 2 * quality {
      bucket := bucket[quality..];
    }
    table[h] := bucket + [i];
  }

  // ----- the compressed block -----

  /** The tokens written so far stand for the first i bytes of the data. */
  ghost predicate Covers(ts: seq<Token>, data: seq<byte>, i: nat) {
    Sound(ts) && i <= |data| && Expand(ts) == data[..i]
  }

  lemma CoverLiteral(t: Tables, ts: seq<Token>, data: seq<byte>, i: nat)
    requires Standard(t) && i < |data| && Covers(ts, data, i)
    ensures Covers(ts + [Literal(data[i])], data, i + 1)
    ensures TokensBits(t, ts + [Literal(data[i])]) == TokensBits(t, ts) + SymbolBits(data[i])
  {
    assert (ts + [Literal(data[i])])[..|ts|] == ts;
    assert data[..i] + [data[i]] == data[..i + 1];
  }

  lemma MatchFollows(ts: seq<Token>, length: nat, distance: nat)
    requires Sound(ts) && 3 <= length <= 258 && 1 <= distance <= 32767 && distance <= Size(ts)
    ensures var more := ts + [Match(length, distance)]; Sound(more) && Expand(more) == CopyBack(Expand(ts), length, distance)
  {
    assert (ts + [Match(length, distance)])[..|ts|] == ts;
  }

  lemma MatchBits(t: Tables, ts: seq<Token>, length: nat, distance: nat)
    requires Standard(t) && Sound(ts) && Sound(ts + [Match(length, distance)])
    requires 3 <= length <= 258 && 1 <= distance <= 32767
    ensures TokensBits(t, ts + [Match(length, distance)]) == TokensBits(t, ts) + (LengthBits(t, length) + DistanceBits(t, distance))
  {
    assert (ts + [Match(length, distance)])[..|ts|] == ts;
  }

  lemma CoverMatch(ts: seq<Token>, data: seq<byte>, i: nat, loc: nat, length: nat)
    requires Covers(ts, data, i) && GoodMatch(data, i, loc, length)
    ensures Covers(ts + [Match(length, i - loc)], data, i + length)
  {
    MatchFollows(ts, length, i - loc);
    CopyIsMatch(data, i, loc, length);
  }

  lemma Regroup(start: seq<bool>, bits: seq<bool>, a: seq<bool>, b: seq<bool>)
    ensures start + bits + a == start + (bits + a)
    ensures start + bits + a + b == start + (bits + (a + b))
  {
  }

  method EmitLiteral(w: BitWriter, b: byte, ghost start: seq<bool>, ghost bits: seq<bool>)
    requires w.Valid() && w.Bits() == start + bits
    modifies w
    ensures w.Valid() && w.Bits() == start + (bits + SymbolBits(b))
  {
    w.AddSymbol(b);
    Regroup(start, bits, SymbolBits(b), []);
  }

  method EmitMatch(w: BitWriter, t: Tables, best: nat, d: nat, ghost start: seq<bool>, ghost bits: seq<bool>)
    requires Standard(t) && w.Valid() && 3 <= best <= 258 && 1 <= d <= 32767 && w.Bits() == start + bits
    modifies w
    ensures w.Valid() && w.Bits() == start + (bits + (LengthBits(t, best) + DistanceBits(t, d)))
  {
    EmitLength(w, t, best);
    EmitDistance(w, t, d);
    Regroup(start, bits, LengthBits(t, best), DistanceBits(t, d));
  }

  /** A longest match of the bucket, given up exactly when the next position has a longer one in its own bucket. */
  ghost predicate Chosen(data: seq<byte>, i: nat, bucket: seq<nat>, next: seq<nat>, best: nat, bestloc: Option<nat>) {
    if bestloc.Some? then
      && bestloc.value in bucket && GoodMatch(data, i, bestloc.value, best)
      && Unmatched(data, bucket, i, best + 1, 32768) && Unmatched(data, next, i + 1, best + 1, 32768)
    else
      Unmatched(data, bucket, i, 3, 32768) || !Unmatched(data, next, i + 1, best + 1, 32768)
  }

  /** The match to use at position i, if any; position i is remembered either way. */
  method ChooseMatch(data: seq<byte>, i: nat, table: array<seq<nat>>, quality: nat) returns (best: nat, bestloc: Option<nat>)
    requires i + 3 < |data| && TableBelow(table[..], i)
    modifies table
    ensures table[..] == old(table[..])[Hash(data, i) := Remembered(old(table[Hash(data, i)]), i, quality)]
    ensures TableBelow(table[..], i + 1)
    ensures Chosen(data, i, old(table[Hash(data, i)]), table[Hash(data, i + 1)], best, bestloc)
  {
    var h := Hash(data, i);
    assert Below(table[..][h], i);
    best, bestloc := FindMatch(data, table[h], i);
    RememberedBelow(table[..], h, i, quality);
    Remember(table, h, i, quality);
    if bestloc.Some? {
      h := Hash(data, i + 1);
      assert Below(table[..][h], i + 1);
      var better := BetterNext(data, table[h], i, best);
      if better {
        bestloc := None;
      }
    }
  }

  lemma TableGrows(table: seq<seq<nat>>, i: nat, j: nat)
    requires i <= j && TableBelow(table, i)
    ensures TableBelow(table, j)
  {
    forall h | 0 <= h < |table| ensures Below(table[h], j) {
      assert Below(table[h], i);
    }
  }

  method EmitMatchAt(w: BitWriter, t: Tables, data: seq<byte>, i: nat, loc: nat, best: nat, ghost start: seq<bool>, ghost ts0: seq<Token>)
    returns (ghost ts: seq<Token>)
    requires Standard(t) && w.Valid() && Covers(ts0, data, i) && w.Bits() == start + TokensBits(t, ts0)
    requires GoodMatch(data, i, loc, best)
    modifies w
    ensures w.Valid() && Covers(ts, data, i + best) && w.Bits() == start + TokensBits(t, ts)
  {
    CoverMatch(ts0, data, i, loc, best);
    MatchBits(t, ts0, best, i - loc);
    EmitMatch(w, t, best, i - loc, start, TokensBits(t, ts0));
    ts := ts0 + [Match(best, i - loc)];
  }

  method EmitLiteralAt(w: BitWriter, ghost t: Tables, data: seq<byte>, i: nat, ghost start: seq<bool>, ghost ts0: seq<Token>)
    returns (ghost ts: seq<Token>)
    requires Standard(t) && w.Valid() && Covers(ts0, data, i) && w.Bits() == start + TokensBits(t, ts0) && i < |data|
    modifies w
    ensures w.Valid() && Covers(ts, data, i + 1) && w.Bits() == start + TokensBits(t, ts)
  {
    CoverLiteral(t, ts0, data, i);
    EmitLiteral(w, data[i], start, TokensBits(t, ts0));
    ts := ts0 + [Literal(data[i])];
  }

  /** The end of a turn of the main loop: the match chosen at position i, or a literal. */
  method EmitChosen(w: BitWriter, t: Tables, data: seq<byte>, i: nat, best: nat, bestloc: Option<nat>, ghost start: seq<bool>, ghost ts0: seq<Token>)
    returns (next: nat, ghost ts: seq<Token>)
    requires Standard(t) && w.Valid() && Covers(ts0, data, i) && w.Bits() == start + TokensBits(t, ts0) && i < |data|
    requires bestloc.Some? ==> GoodMatch(data, i, bestloc.value, best)
    modifies w
    ensures next == if bestloc.Some? then i + best else i + 1
    ensures w.Valid() && Covers(ts, data, next) && w.Bits() == start + TokensBits(t, ts)
  {
    if bestloc.Some? {
      ts := EmitMatchAt(w, t, data, i, bestloc.value, best, start, ts0);
      next := i + best;
    } else {
      ts := EmitLiteralAt(w, t, data, i, start, ts0);
      next := i + 1;
    }
  }

  /** What the rest of a turn needs of the match chosen for it. */
  method MatchHere(data: seq<byte>, i: nat, table: array<seq<nat>>, quality: nat) returns (best: nat, bestloc: Option<nat>)
    requires i + 3 < |data| && TableBelow(table[..], i)
    modifies table
    ensures bestloc.Some? ==> GoodMatch(data, i, bestloc.value, best)
    ensures TableBelow(table[..], if bestloc.Some? then i + best else i + 1)
  {
    best, bestloc := ChooseMatch(data, i, table, quality);
    TableGrows(table[..], i + 1, if bestloc.Some? then i + best else i + 1);
  }

  /** One turn of the main loop: a match or a literal at position i. */
  method EmitNext(w: BitWriter, t: Tables, data: seq<byte>, i: nat, table: array<seq<nat>>, quality: nat, ghost start: seq<bool>, ghost ts0: seq<Token>)
    returns (next: nat, ghost ts: seq<Token>)
    requires Standard(t) && w.Valid() && Covers(ts0, data, i) && w.Bits() == start + TokensBits(t, ts0)
    requires i + 3 < |data| && TableBelow(table[..], i)
    modifies w, table
    ensures i < next && TableBelow(table[..], next)
    ensures w.Valid() && Covers(ts, data, next) && w.Bits() == start + TokensBits(t, ts)
  {
    var best, bestloc := MatchHere(data, i, table, quality);
    ghost var after := table[..];
    next, ts := EmitChosen(w, t, data, i, best, bestloc, start, ts0);
    assert table[..] == after;
  }

  /** The main loop, then the last bytes as literals. */
  method EmitTokens(w: BitWriter, t: Tables, data: seq<byte>, quality: nat, ghost start: seq<bool>) returns (ghost ts: seq<Token>)
    requires Standard(t) && w.Valid() && w.Bits() == start
    modifies w
    ensures w.Valid() && Covers(ts, data, |data|) && w.Bits() == start + TokensBits(t, ts)
  {
    var table := new seq<nat>[ZHASH](_ => []);
    ts := [];
    var i := 0;
    assert start + TokensBits(t, ts) == start && Covers(ts, data, 0);
    while i < |data| - 3
      invariant 0 <= i <= |data| && TableBelow(table[..], i) && fresh(table)
      invariant w.Valid() && Covers(ts, data, i) && w.Bits() == start + TokensBits(t, ts)
    {
      i, ts := EmitNext(w, t, data, i, table, quality, start, ts);
    }
    ts := EmitTail(w, t, data, i, start, ts);
  }

  /** The last bytes, too few to look for matches. */
  method EmitTail(w: BitWriter, ghost t: Tables, data: seq<byte>, i0: nat, ghost start: seq<bool>, ghost ts0: seq<Token>) returns (ghost ts: seq<Token>)
    requires Standard(t) && w.Valid() && Covers(ts0, data, i0) && w.Bits() == start + TokensBits(t, ts0)
    modifies w
    ensures w.Valid() && Covers(ts, data, |data|) && w.Bits() == start + TokensBits(t, ts)
  {
    ts := ts0;
    var i := i0;
    while i < |data|
      invariant 0 <= i <= |data|
      invariant w.Valid() && Covers(ts, data, i) && w.Bits() == start + TokensBits(t, ts)
    {
      ts := EmitLiteralAt(w, t, data, i, start, ts);
      i := i + 1;
    }
  }
}
