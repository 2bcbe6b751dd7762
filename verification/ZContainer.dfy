/**
 The rest of stbi_zlib_compress: padding, the stored fallback, the Adler-32 trailer, and the
 main result about the whole stream.
 */
module ZContainer {
  import opened Common
  import opened ZBits
  import opened ZInflate
  import opened ZDeflate
  import opened ZCompress

  // ----- Adler-32 in blocks -----

  const BASE := 65521
  const BLOCK := 5552

  /** The two sums without reduction, from given starts. */
  function RawSums(s1: nat, s2: nat, data: seq<byte>): (nat, nat) {
    if data == [] then (s1, s2)
    else
      var (t1, t2) := RawSums(s1, s2, data[..|data| - 1]);
      (t1 + data[|data| - 1], t2 + t1 + data[|data| - 1])
  }

  lemma ModSum(a: nat, b: nat)
    ensures (a + b) % BASE == (a % BASE + b) % BASE == (a % BASE + b % BASE) % BASE
  {
    var q := a / BASE;
    var r := b / BASE;
    assert a == a % BASE + q * BASE && b == b % BASE + r * BASE;
    ModShift(a % BASE + b, q);
    ModShift(a % BASE + b % BASE, r);
  }

  lemma {:induction false} ModShift(a: nat, q: nat)
    ensures (a + q * BASE) % BASE == a % BASE
  {
    if q > 0 {
      ModShift(a, q - 1);
      assert (a + (q - 1) * BASE + BASE) % BASE == (a + (q - 1) * BASE) % BASE;
    }
  }

  function Reduced(s: (nat, nat)): (nat, nat) {
    (s.0 % BASE, s.1 % BASE)
  }

  /** One byte: reducing before and after it is as good as reducing only after it. */
  lemma ReduceStep(r: (nat, nat), b: nat)
    ensures AdlerStep(Reduced(r), b) == Reduced((r.0 + b, r.1 + r.0 + b))
  {
    ModSum(r.0, b);
    ModSum(r.1, r.0 + b);
  }

  /** Reducing at the end of a block is as good as reducing at every byte. */
  lemma {:induction false} ReduceLater(front: seq<byte>, block: seq<byte>)
    ensures AdlerSums(front + block) == Reduced(RawSums(AdlerSums(front).0, AdlerSums(front).1, block))
  {
    if block == [] {
      assert front + block == front;
    } else {
      var n, s := |block| - 1, AdlerSums(front);
      ReduceLater(front, block[..n]);
      AdlerLast(front, block);
      Combine(AdlerSums(front + block[..n]), RawSums(s.0, s.1, block[..n]), block[n], AdlerSums(front + block));
    }
  }

  lemma Combine(s: (nat, nat), r: (nat, nat), b: nat, t: (nat, nat))
    requires s == Reduced(r) && t == AdlerStep(s, b)
    ensures t == Reduced((r.0 + b, r.1 + r.0 + b))
  {
    ReduceStep(r, b);
  }

  lemma AdlerLast(front: seq<byte>, block: seq<byte>)
    requires block != []
    ensures AdlerSums(front + block) == AdlerStep(AdlerSums(front + block[..|block| - 1]), block[|block| - 1])
  {
    var all, n := front + block, |block| - 1;
    assert all[..|all| - 1] == front + block[..n] && all[|all| - 1] == block[n];
    AdlerLastOf(all);
  }

  lemma AdlerLastOf(all: seq<byte>)
    requires all != []
    ensures AdlerSums(all) == AdlerStep(AdlerSums(all[..|all| - 1]), all[|all| - 1])
  {
  }

  /** In a block of at most 5552 bytes the 32-bit sums do not wrap. */
  lemma {:induction false} SumsFit(s1: nat, s2: nat, data: seq<byte>)
    requires s1 < BASE && s2 < BASE && |data| <= BLOCK
    ensures RawSums(s1, s2, data).0 <= 65520 + 255 * |data| < TWO32
    ensures 2 * RawSums(s1, s2, data).1 <= 131040 * (|data| + 1) + 255 * Triangle(|data|)
    ensures RawSums(s1, s2, data).1 < TWO32
  {
    if data != [] {
      SumsFit(s1, s2, data[..|data| - 1]);
    }
    TriangleBound(|data|, BLOCK);
    TriangleAtBlock();
  }

  /** n(n+1). */
  function Triangle(n: nat): nat {
    if n == 0 then 0 else Triangle(n - 1) + 2 * n
  }

  lemma {:induction false} TriangleBound(m: nat, n: nat)
    requires m <= n
    ensures Triangle(m) <= Triangle(n)
  {
    if m < n {
      TriangleBound(m, n - 1);
    }
  }

  lemma {:induction false} TriangleClosed(n: nat)
    ensures Triangle(n) == n * (n + 1)
  {
    if n > 0 {
      TriangleClosed(n - 1);
    }
  }

  lemma TriangleAtBlock()
    ensures Triangle(BLOCK) == 30_830_256
  {
    TriangleClosed(BLOCK);
  }

  method ComputeAdler(data: seq<byte>) returns (s1: nat, s2: nat)
    ensures (s1, s2) == AdlerSums(data)
  {
    s1, s2 := 1, 0;
    var blocklen := |data| % BLOCK;
    ghost var left := |data| / BLOCK;
    var j := 0;
    assert data[..0] == [];
    while j < |data|
      invariant 0 <= j <= |data| && blocklen <= BLOCK
      invariant blocklen == BLOCK || j == 0
      invariant |data| - j == if blocklen == BLOCK then left * BLOCK else blocklen + left * BLOCK
      invariant (s1, s2) == AdlerSums(data[..j]) && s1 < BASE && s2 < BASE
      decreases |data| - j, BLOCK - blocklen
    {
      s1, s2 := AdlerBlock(data, j, blocklen, s1, s2);
      j := j + blocklen;
      if blocklen == BLOCK {
        left := left - 1;
      }
      blocklen := BLOCK;
    }
    assert data[..j] == data;
  }

  /** One block, and the reduction behind it. */
  method AdlerBlock(data: seq<byte>, j: nat, blocklen: nat, a: nat, b: nat) returns (s1: nat, s2: nat)
    requires j + blocklen <= |data| && blocklen <= BLOCK && (a, b) == AdlerSums(data[..j]) && a < BASE && b < BASE
    ensures (s1, s2) == AdlerSums(data[..j + blocklen]) && s1 < BASE && s2 < BASE
  {
    var block := data[j..j + blocklen];
    s1, s2 := SumBlock(block, a, b);
    ReduceLater(data[..j], block);
    CutAt(data, j, j + blocklen);
    s1, s2 := s1 % BASE, s2 % BASE;
  }

  /** The inner loop, on 32-bit sums. */
  method SumBlock(block: seq<byte>, a: nat, b: nat) returns (s1: nat, s2: nat)
    requires |block| <= BLOCK && a < BASE && b < BASE
    ensures (s1, s2) == RawSums(a, b, block) && s1 < TWO32 && s2 < TWO32
  {
    s1, s2 := a, b;
    var i := 0;
    assert block[..0] == [];
    while i < |block|
      invariant 0 <= i <= |block| && (s1, s2) == RawSums(a, b, block[..i]) && s1 < TWO32 && s2 < TWO32
    {
      assert block[..i + 1][..i] == block[..i];
      SumsFit(a, b, block[..i + 1]);
      s1 := s1 + block[i];
      s2 := s2 + s1;
      i := i + 1;
    }
    assert block[..i] == block;
    SumsFit(a, b, block);
  }

  // ----- stored blocks -----

  const STORED := 32767

  /** How much goes into the next stored block. */
  function Chunk(length: nat): (n: nat)
    ensures n <= length && n <= STORED && (length > 0 ==> n > 0)
  {
    if length > STORED then STORED else length
  }

  /** LEN and NLEN. */
  function Lengths(n: nat): (h: seq<byte>)
    requires n <= STORED
    ensures |h| == LENGTH_BYTES && Word(h[0], h[1]) == n && Word(h[2], h[3]) == 0xFFFF - n
  {
    [n % 256, n / 256, 255 - n % 256, 255 - n / 256]
  }

  function StoredHead(last: bool, n: nat): seq<byte>
    requires n <= STORED
  {
    [if last then 1 else 0] + Lengths(n)
  }

  function StoredBytes(data: seq<byte>): (bs: seq<byte>)
    decreases |data|
  {
    if data == [] then []
    else
      var n := Chunk(|data|);
      StoredHead(n == |data|, n) + data[..n] + StoredBytes(data[n..])
  }

  /** How many stored blocks a length needs, as the code rounds it up. */
  function StoredBlocks(length: nat): nat {
    (length + (STORED - 1)) / STORED
  }

  lemma {:induction false} StoredSize(data: seq<byte>)
    ensures |StoredBytes(data)| == |data| + 5 * StoredBlocks(|data|)
    decreases |data|
  {
    if data != [] {
      var n := Chunk(|data|);
      StoredSize(data[n..]);
    }
  }

  /** Reading a stored block's header byte and its two lengths. */
  lemma StoredHeadBits(last: bool, lengths: seq<byte>, rest: seq<bool>)
    ensures var bits := BitsOf([if last then 1 else 0] + lengths) + rest;
            bits[..3] == [last, false, false] && bits[8..] == BitsOf(lengths) + rest
  {
    var flag: byte := if last then 1 else 0;
    BitsOfConcat([flag], lengths);
    assert BitsOf([]) == [] && BitsOf([flag]) == LsbBits(flag, 8);
    LowBits(last);
    FrontOf(LsbBits(flag, 8), BitsOf(lengths), rest);
  }

  lemma FrontOf(a: seq<bool>, b: seq<bool>, c: seq<bool>)
    ensures (a + b + c)[|a|..] == b + c
    ensures |a| >= 3 ==> (a + b + c)[..3] == a[..3]
  {
  }

  lemma StoredBodyReads(h: seq<byte>, body: seq<byte>, rest: seq<bool>, out: seq<byte>)
    requires |h| == LENGTH_BYTES && Word(h[0], h[1]) == |body| && Word(h[2], h[3]) == 0xFFFF - |body|
    ensures StoredBody(h, BitsOf(body) + rest, out) == Some((out + body, rest))
  {
    TakeBytesRoundTrip(body, rest);
  }

  lemma AlignedReads(bits: seq<bool>, head: seq<byte>, after: seq<bool>, k: nat, out: seq<byte>)
    requires |bits| >= 5 && |head| == LENGTH_BYTES && bits[5..] == BitsOf(head) + after && |after| == 8 * k
    ensures StoredBlock(bits, out) == StoredBody(head, after, out)
  {
    assert |bits| % 8 == 5 by {
      ModFive(|bits|, LENGTH_BYTES + k);
    }
    TakeBytesRoundTrip(head, after);
  }

  lemma ModFive(n: nat, q: nat)
    requires n == 5 + 8 * q
    ensures n % 8 == 5
  {
  }

  lemma DropDrop(bits: seq<bool>)
    requires |bits| >= 8
    ensures bits[3..][5..] == bits[8..]
  {
  }

  /** One stored block in front of whole bytes, its first byte half read. */
  lemma StoredBlockReads(h: seq<byte>, body: seq<byte>, rest: seq<bool>, k: nat, out: seq<byte>, tail: seq<bool>)
    requires |h| == LENGTH_BYTES && Word(h[0], h[1]) == |body| && Word(h[2], h[3]) == 0xFFFF - |body|
    requires |tail| >= 5 && tail[5..] == BitsOf(h) + (BitsOf(body) + rest) && |rest| == 8 * k
    ensures StoredBlock(tail, out) == Some((out + body, rest))
  {
    StoredBodyReads(h, body, rest, out);
    AlignedReads(tail, h, BitsOf(body) + rest, |body| + k, out);
  }

  /** Reading a stored block is reading what follows it, or being done. */
  lemma StoredStep(last: bool, h: seq<byte>, body: seq<byte>, rest: seq<bool>, k: nat, out: seq<byte>, bits: seq<bool>)
    requires |h| == LENGTH_BYTES && Word(h[0], h[1]) == |body| && Word(h[2], h[3]) == 0xFFFF - |body|
    requires |rest| == 8 * k && bits == BitsOf([if last then 1 else 0] + h) + (BitsOf(body) + rest)
    ensures Blocks(bits, out) == if last then Some((out + body, rest)) else Blocks(rest, out + body)
  {
    StoredHeadBits(last, h, BitsOf(body) + rest);
    DropDrop(bits);
    StoredBlockReads(h, body, rest, k, out, bits[3..]);
    BlockHeader(bits, last, out);
  }

  lemma BlockHeader(bits: seq<bool>, last: bool, out: seq<byte>)
    requires |bits| >= 3 && bits[..3] == [last, false, false]
    ensures var r := StoredBlock(bits[3..], out);
            Blocks(bits, out) == if r.None? || last then r else Blocks(r.value.1, r.value.0)
  {
    assert bits[0] == bits[..3][0] && bits[1] == bits[..3][1] && bits[2] == bits[..3][2];
  }

  lemma LowBits(last: bool)
    ensures LsbBits(if last then 1 else 0, 8)[..3] == [last, false, false]
  {
    var v := if last then 1 else 0;
    assert LsbBits(v, 8) == [last] + LsbBits(0, 7) && LsbBits(0, 7) == [false] + LsbBits(0, 6);
    assert LsbBits(0, 6) == [false] + LsbBits(0, 5);
  }

  /** The reader gets the data back from its stored blocks. */
  lemma {:induction false} StoredReads(data: seq<byte>, rest: seq<bool>, k: nat, out: seq<byte>, bits: seq<bool>)
    requires data != [] && |rest| == 8 * k && bits == BitsOf(StoredBytes(data)) + rest
    ensures Blocks(bits, out) == Some((out + data, rest))
    decreases |data|
  {
    var n := Chunk(|data|);
    var body, more := data[..n], data[n..];
    var tail := BitsOf(StoredBytes(more)) + rest;
    StoredSplit(data, rest);
    StoredStep(n == |data|, Lengths(n), body, tail, |StoredBytes(more)| + k, out, bits);
    if n == |data| {
      assert body == data && tail == rest;
    } else {
      StoredReads(more, rest, k, out + body, tail);
      Rejoin(out, data, n);
    }
  }

  lemma Rejoin(out: seq<byte>, data: seq<byte>, n: nat)
    requires n <= |data|
    ensures out + data[..n] + data[n..] == out + data
  {
  }

  lemma StoredSplit(data: seq<byte>, rest: seq<bool>)
    requires data != []
    ensures var n := Chunk(|data|);
            BitsOf(StoredBytes(data)) + rest == BitsOf(StoredHead(n == |data|, n)) + (BitsOf(data[..n]) + (BitsOf(StoredBytes(data[n..])) + rest))
  {
    var n := Chunk(|data|);
    var head, body, tail := StoredHead(n == |data|, n), data[..n], StoredBytes(data[n..]);
    BitsOfConcat(head + body, tail);
    BitsOfConcat(head, body);
    Associate(BitsOf(head), BitsOf(body), BitsOf(tail), rest);
  }

  lemma Associate(a: seq<bool>, b: seq<bool>, c: seq<bool>, d: seq<bool>)
    ensures a + b + c + d == a + (b + (c + d))
  {
  }

  /** Appending one chunk takes it off what remains to be stored. */
  lemma StoreStep(before: seq<byte>, data: seq<byte>, j: nat, out: seq<byte>)
    requires j < |data|
    requires var n := Chunk(|data| - j); out == before + (StoredHead(|data| - j == n, n) + data[j..j + n])
    ensures out + StoredBytes(data[j + Chunk(|data| - j)..]) == before + StoredBytes(data[j..])
  {
    var n := Chunk(|data| - j);
    var head, chunk := StoredHead(|data| - j == n, n), data[j..j + n];
    assert data[j..][..n] == chunk && data[j..][n..] == data[j + n..];
    Assoc(before, head + chunk, StoredBytes(data[j + n..]));
  }

  /** The five header bytes and the chunk itself. */
  method PushBlock(start: seq<byte>, chunk: seq<byte>, last: bool) returns (out: seq<byte>)
    requires |chunk| <= STORED
    ensures out == start + (StoredHead(last, |chunk|) + chunk)
  {
    var blocklen := |chunk|;
    out := start + [if last then 1 else 0];
    out := out + [blocklen % 256] + [blocklen / 256];
    out := out + [255 - blocklen % 256] + [255 - blocklen / 256];
    out := out + chunk;
  }

  /** The fallback loop: the data in stored blocks behind the two header bytes. */
  method Store(start: seq<byte>, data: seq<byte>) returns (out: seq<byte>)
    ensures out == start + StoredBytes(data)
  {
    out := start;
    var j := 0;
    assert data[0..] == data;
    while j < |data|
      invariant 0 <= j <= |data| && out + StoredBytes(data[j..]) == start + StoredBytes(data)
    {
      var blocklen := |data| - j;
      if blocklen > STORED {
        blocklen := STORED;
      }
      ghost var before := out;
      out := PushBlock(out, data[j..j + blocklen], |data| - j == blocklen);
      StoreStep(before, data, j, out);
      j := j + blocklen;
    }
    assert StoredBytes(data[j..]) == [] && out + [] == out;
  }

  // ----- the whole stream -----

  /** Pads with zero bits to a byte boundary. */
  method Pad(w: BitWriter) returns (ghost pad: seq<bool>)
    requires w.Valid()
    modifies w
    ensures w.Valid() && w.bitcount == 0 && |pad| < 8 && BitsOf(w.out) == old(w.Bits()) + pad
  {
    pad := [];
    ghost var before := w.Bits();
    while w.bitcount != 0
      invariant w.Valid() && w.Bits() == before + pad
      invariant if w.bitcount == 0 then |pad| < 8 else |pad| + 8 - w.bitcount < 8
      decreases if w.bitcount == 0 then 0 else 8 - w.bitcount
    {
      w.Add(0, 1);
      pad := pad + LsbBits(0, 1);
    }
    assert w.Bits() == BitsOf(w.out) + [];
  }

  /** Bytes are determined by their bits. */
  lemma BitsInjective(a: seq<byte>, b: seq<byte>)
    requires |a| == |b| && BitsOf(a) == BitsOf(b)
    ensures a == b
  {
    TakeBytesRoundTrip(a, []);
    TakeBytesRoundTrip(b, []);
  }

  lemma SplitEqual(a: seq<bool>, b: seq<bool>, c: seq<bool>, d: seq<bool>)
    requires |a| == |c| && a + b == c + d
    ensures a == c && b == d
  {
    ConcatSplit(a, b);
    ConcatSplit(c, d);
  }

  lemma BitsFront(a: seq<byte>, front: seq<byte>, back: seq<byte>, tail: seq<bool>)
    requires |front| == |a| && BitsOf(front + back) == BitsOf(a) + tail
    ensures front == a && BitsOf(back) == tail
  {
    BitsOfConcat(front, back);
    SplitEqual(BitsOf(front), BitsOf(back), BitsOf(a), tail);
    BitsInjective(a, front);
  }

  lemma BitsPrefix(a: seq<byte>, out: seq<byte>, tail: seq<bool>)
    requires BitsOf(out) == BitsOf(a) + tail
    ensures |a| <= |out| && out == a + out[|a|..] && BitsOf(out[|a|..]) == tail
  {
    var n := |a|;
    assert 8 * |out| == 8 * n + |tail|;
    CutAt(out, n, n);
    BitsFront(a, out[..n], out[n..], tail);
  }

  const HEADER: seq<byte> := [0x78, 0x5e]

  /** The bits of the one compressed block: final, type 1, the tokens, end of block, padding. */
  ghost predicate Compressed(bits: seq<bool>, t: Tables, ts: seq<Token>, pad: seq<bool>, data: seq<byte>) {
    && Standard(t) && Covers(ts, data, |data|) && |pad| < 8
    && bits == [true, true, false] + (TokensBits(t, ts) + SymbolBits(256)) + pad
  }

  lemma CompressedReads(bits: seq<bool>, t: Tables, ts: seq<Token>, pad: seq<bool>, data: seq<byte>, rest: seq<bool>)
    requires Compressed(bits, t, ts, pad, data)
    ensures Blocks(bits + rest, []) == Some((data, pad + rest))
  {
    BlockReads(t, ts, pad + rest);
    assert data[..|data|] == data;
    FixedBlock(TokensBits(t, ts) + SymbolBits(256), pad, rest, data, bits + rest);
  }

  lemma FixedBlock(body: seq<bool>, pad: seq<bool>, rest: seq<bool>, data: seq<byte>, bits: seq<bool>)
    requires Symbols(body + (pad + rest), []) == Some((data, pad + rest))
    requires bits == [true, true, false] + body + pad + rest
    ensures Blocks(bits, []) == Some((data, pad + rest))
  {
    FixedHeader(body, pad, rest, bits);
    FinalFixed(bits, data, pad + rest);
  }

  lemma FixedHeader(body: seq<bool>, pad: seq<bool>, rest: seq<bool>, bits: seq<bool>)
    requires bits == [true, true, false] + body + pad + rest
    ensures |bits| >= 3 && bits[0] && bits[1] && !bits[2] && bits[3..] == body + (pad + rest)
  {
    var h := [true, true, false];
    Assoc(h, body, pad);
    Assoc(h, body + pad, rest);
    Assoc(body, pad, rest);
    ConcatSplit(h, body + pad + rest);
  }

  lemma FinalFixed(bits: seq<bool>, data: seq<byte>, rest: seq<bool>)
    requires |bits| >= 3 && bits[0] && bits[1] && !bits[2] && Symbols(bits[3..], []) == Some((data, rest))
    ensures Blocks(bits, []) == Some((data, rest))
  {
  }

  method Begin(w: BitWriter)
    requires w.Valid() && w.bitcount == 0 && w.out == []
    modifies w
    ensures w.Valid() && w.Bits() == BitsOf(HEADER) + [true, true, false]
  {
    w.Push(0x78);
    w.Push(0x5e);
    assert w.out == HEADER && w.Bits() == BitsOf(HEADER) + [];
    ghost var start := BitsOf(HEADER);
    w.Add(1, 1);
    assert w.Bits() == start + [true];
    w.Add(1, 2);
    assert LsbBits(1, 2) == [true, false];
    assert w.Bits() == start + [true, true, false];
  }

  method DeflateFixed(data: seq<byte>, quality: nat, t: Tables) returns (out: seq<byte>, ghost ts: seq<Token>, ghost pad: seq<bool>)
    requires Standard(t)
    ensures |out| >= 2 && out == HEADER + out[2..] && Compressed(BitsOf(out[2..]), t, ts, pad, data)
  {
    var w := new BitWriter();
    Begin(w);
    ts := EmitTokens(w, t, data, quality, BitsOf(HEADER) + [true, true, false]);
    w.AddSymbol(256);
    pad := Pad(w);
    out := w.out;
    Finished(out, HEADER, [true, true, false], TokensBits(t, ts), SymbolBits(256), pad);
  }

  lemma Finished(out: seq<byte>, h: seq<byte>, a: seq<bool>, b: seq<bool>, c: seq<bool>, d: seq<bool>)
    requires BitsOf(out) == BitsOf(h) + a + b + c + d
    ensures |h| <= |out| && out == h + out[|h|..] && BitsOf(out[|h|..]) == a + (b + c) + d
  {
    var tail := a + (b + c) + d;
    AssociateFive(BitsOf(h), a, b, c, d);
    BitsPrefix(h, out, tail);
  }

  lemma AssociateFive(h: seq<bool>, a: seq<bool>, b: seq<bool>, c: seq<bool>, d: seq<bool>)
    ensures h + a + b + c + d == h + (a + (b + c) + d)
  {
  }

  /** A block's bits, whole bytes of trailer behind them: what makes a stream readable. */
  lemma StreamReads(stream: seq<byte>, body: seq<byte>, data: seq<byte>, pad: seq<bool>)
    requires stream == HEADER + body + AdlerBytes(data)
    requires Blocks(BitsOf(body) + BitsOf(AdlerBytes(data)), []) == Some((data, pad + BitsOf(AdlerBytes(data)))) && |pad| < 8
    ensures Unzlib(stream) == Some(data)
  {
    var trailer := AdlerBytes(data);
    HeaderFine(stream, body + trailer);
    BitsOfConcat(body, trailer);
    TrailerReads(data, pad, pad + BitsOf(trailer));
    ContentReads(stream, BitsOf(body) + BitsOf(trailer), data, pad + BitsOf(trailer));
  }

  lemma HeaderFine(stream: seq<byte>, rest: seq<byte>)
    requires stream == HEADER + rest
    ensures |stream| >= 2 && HeaderOk(stream[0], stream[1]) && stream[2..] == rest
  {
  }

  lemma ContentReads(stream: seq<byte>, bits: seq<bool>, data: seq<byte>, rest: seq<bool>)
    requires |stream| >= 2 && HeaderOk(stream[0], stream[1]) && BitsOf(stream[2..]) == bits
    requires Blocks(bits, []) == Some((data, rest)) && TrailerOk(data, rest)
    ensures Unzlib(stream) == Some(data)
  {
  }

  lemma TrailerReads(data: seq<byte>, pad: seq<bool>, rest: seq<bool>)
    requires |pad| < 8 && rest == pad + BitsOf(AdlerBytes(data))
    ensures TrailerOk(data, rest)
  {
    assert |rest| % 8 == |pad|;
    assert rest[|pad|..] == BitsOf(AdlerBytes(data)) + [];
    TakeBytesRoundTrip(AdlerBytes(data), []);
  }

  /** The stored form of some data is a stream, too. */
  lemma StoredStream(stream: seq<byte>, data: seq<byte>)
    requires data != [] && stream == HEADER + StoredBytes(data) + AdlerBytes(data)
    ensures Unzlib(stream) == Some(data)
  {
    var trailer := BitsOf(AdlerBytes(data));
    StoredReads(data, trailer, |AdlerBytes(data)|, [], BitsOf(StoredBytes(data)) + trailer);
    assert [] + data == data && [] + trailer == trailer;
    StreamReads(stream, StoredBytes(data), data, []);
  }

  /** Without any block, the reader takes the trailer for one and runs out of input. */
  lemma EmptyUnreadable(stream: seq<byte>)
    requires stream == HEADER + AdlerBytes([])
    ensures Unzlib(stream) == None
  {
    var rest: seq<byte> := [0, 0, 1];
    assert AdlerBytes([]) == [0] + rest;
    HeaderFine(stream, [0] + rest);
    var bits := BitsOf([0] + rest);
    TrailerAsBlock(bits, rest);
    TooShort(bits[3..][5..]);
  }

  lemma TrailerAsBlock(bits: seq<bool>, rest: seq<byte>)
    requires bits == BitsOf([0] + rest) && |rest| == 3
    ensures bits[..3] == [false, false, false] && |bits| == 32
  {
    BitsOfConcat([0], rest);
    assert BitsOf([]) == [] && BitsOf([0]) == LsbBits(0, 8);
    LowBits(false);
  }

  lemma TooShort(bits: seq<bool>)
    requires |bits| < 32
    ensures TakeBytes(bits, LENGTH_BYTES) == None
  {
    var r := TakeBytes(bits, LENGTH_BYTES);
    assert 8 * LENGTH_BYTES == 32;
  }

  method Trailer(data: seq<byte>) returns (bs: seq<byte>)
    ensures bs == AdlerBytes(data)
  {
    var s1, s2 := ComputeAdler(data);
    bs := [s2 / 256] + [s2 % 256] + [s1 / 256] + [s1 % 256];
  }

  /** An end-of-block symbol alone takes more room than no stored block at all. */
  lemma NotKeptWhenEmpty(out: seq<byte>, t: Tables, ts: seq<Token>, pad: seq<bool>, data: seq<byte>)
    requires |out| >= 2 && Compressed(BitsOf(out[2..]), t, ts, pad, data)
    ensures |out| >= 4
  {
    assert |SymbolBits(256)| == 7;
    assert 8 * (|out| - 2) >= 10;
  }

  lemma FallbackReads(stream: seq<byte>, data: seq<byte>)
    requires stream == HEADER + StoredBytes(data) + AdlerBytes(data)
    ensures Unzlib(stream) == if data == [] then None else Some(data)
  {
    if data == [] {
      assert HEADER + StoredBytes(data) == HEADER;
      EmptyUnreadable(stream);
    } else {
      StoredStream(stream, data);
    }
  }

  lemma KeptReads(out: seq<byte>, t: Tables, ts: seq<Token>, pad: seq<bool>, data: seq<byte>)
    requires |out| >= 2 && out == HEADER + out[2..] && Compressed(BitsOf(out[2..]), t, ts, pad, data)
    requires |out| <= |data| + 2 + StoredBlocks(|data|) * 5
    ensures data != [] && Unzlib(out + AdlerBytes(data)) == Some(data)
  {
    NotKeptWhenEmpty(out, t, ts, pad, data);
    CompressedReads(BitsOf(out[2..]), t, ts, pad, data, BitsOf(AdlerBytes(data)));
    StreamReads(out + AdlerBytes(data), out[2..], data, pad);
  }

  /** stbi_zlib_compress. Only the empty input comes out as a stream without any block. */
  method Compress(data: seq<byte>, quality0: int) returns (stream: seq<byte>)
    ensures Unzlib(stream) == if data == [] then None else Some(data)
  {
    var quality := if quality0 < 5 then 5 else quality0;
    var t := Tables(LENGTHC, LENGTHEB, DISTC, DISTEB);
    TablesStandard(t);
    var out, ts, pad := DeflateFixed(data, quality, t);
    var trailer := Trailer(data);
    if |out| > |data| + 2 + StoredBlocks(|data|) * 5 {
      StoredSize(data);
      stream := Store(out[..2], data);
      assert |stream| < |out|;  // no reallocation: the copies stay inside the old buffer
      stream := stream + trailer;
      FallbackReads(stream, data);
    } else {
      KeptReads(out, t, ts, pad, data);
      stream := out + trailer;
    }
  }
}
