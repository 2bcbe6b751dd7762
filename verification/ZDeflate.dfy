/**
 The compressor's bit writer and Huffman tables, and the proof that what one token writes is
 what the reader reads.
 */
module ZDeflate {
  import opened Common
  import opened ZBits
  import opened ZInflate

  // ----- the fixed literal/length code, as the macros write it -----

  /** Code and length of symbol n. */
  function Huffman(n: nat): (c: (nat, nat))
    requires n < 288
  {
    if n <= 143 then (0x30 + n, 8)
    else if n <= 255 then (0x190 + n - 144, 9)
    else if n <= 279 then (n - 256, 7)
    else (0xC0 + n - 280, 8)
  }

  function SymbolBits(n: nat): seq<bool>
    requires n < 288
  {
    MsbBits(Huffman(n).0, Huffman(n).1)
  }

  lemma ShlTable()
    ensures Shl(1, 0) == 1 && Shl(1, 1) == 2 && Shl(1, 2) == 4 && Shl(1, 3) == 8 && Shl(1, 4) == 16
    ensures Shl(1, 5) == 32 && Shl(1, 6) == 64 && Shl(1, 7) == 128 && Shl(1, 8) == 256 && Shl(1, 9) == 512
    ensures Shl(1, 10) == 1024 && Shl(1, 11) == 2048 && Shl(1, 12) == 4096 && Shl(1, 13) == 8192
  {
    assert Shl(1, 1) == 2 && Shl(1, 2) == 4 && Shl(1, 3) == 8;
    assert Shl(1, 4) == 2 * Shl(1, 3) && Shl(1, 5) == 2 * Shl(1, 4) && Shl(1, 6) == 2 * Shl(1, 5);
    assert Shl(1, 7) == 2 * Shl(1, 6) && Shl(1, 8) == 2 * Shl(1, 7) && Shl(1, 9) == 2 * Shl(1, 8);
    assert Shl(1, 10) == 2 * Shl(1, 9) && Shl(1, 11) == 2 * Shl(1, 10) && Shl(1, 12) == 2 * Shl(1, 11);
    assert Shl(1, 13) == 2 * Shl(1, 12);
  }

  lemma MsbFront(v: nat, n: nat, rest: seq<bool>)
    requires v < Shl(1, n)
    ensures MsbValue((MsbBits(v, n) + rest)[..n]) == v
    ensures n > 0 ==> MsbValue((MsbBits(v, n) + rest)[..n - 1]) == v / 2
    ensures n > 1 ==> MsbValue((MsbBits(v, n) + rest)[..n - 2]) == v / 4
  {
    var bits := MsbBits(v, n) + rest;
    assert bits[..n] == MsbBits(v, n);
    MsbRoundTrip(v, n);
    if n > 0 {
      assert bits[..n - 1] == MsbBits(v / 2, n - 1);
      MsbRoundTrip(v / 2, n - 1);
      if n > 1 {
        assert bits[..n - 2] == MsbBits(v / 2 / 2, n - 2);
        MsbRoundTrip(v / 2 / 2, n - 2);
      }
    }
  }

  /** The table agrees with section 3.2.6, and the bits of no symbol are mistaken for another's. */
  lemma SymbolRoundTrip(n: nat, rest: seq<bool>)
    requires n < 288
    ensures DecodeSymbol(SymbolBits(n) + rest) == Some((n, rest))
  {
    var (code, len) := Huffman(n);
    ShlTable();
    MsbFront(code, len, rest);
    assert (SymbolBits(n) + rest)[len..] == rest;
  }

  // ----- the bit writer -----

  /** stbiw__zlib_bitrev. */
  method BitReverse(code0: nat, codebits: nat) returns (res: nat)
    ensures LsbBits(res, codebits) == MsbBits(code0, codebits)
    ensures res < Shl(1, codebits)
  {
    res := 0;
    var code := code0;
    var left := codebits;
    while left > 0
      invariant 0 <= left <= codebits && res < Shl(1, codebits - left)
      invariant MsbBits(code0, codebits) == MsbBits(code, left) + LsbBits(res, codebits - left)
    {
      ReverseStep(code, left, res, codebits - left);
      res := 2 * res + code % 2;
      code := code / 2;
      left := left - 1;
    }
  }

  lemma ReverseStep(code: nat, left: nat, res: nat, done: nat)
    requires left > 0 && res < Shl(1, done)
    ensures MsbBits(code, left) + LsbBits(res, done) == MsbBits(code / 2, left - 1) + LsbBits(2 * res + code % 2, done + 1)
    ensures 2 * res + code % 2 < Shl(1, done + 1)
  {
    Assoc(MsbBits(code / 2, left - 1), [code % 2 == 1], LsbBits(res, done));
    assert (2 * res + code % 2) / 2 == res && (2 * res + code % 2) % 2 == code % 2;
  }

  class BitWriter {
    var out: seq<byte>
    var bitbuf: nat
    var bitcount: nat

    ghost predicate Valid()
      reads this
    {
      bitcount < 8 && bitbuf < Shl(1, bitcount)
    }

    /** All bits written, whole bytes and pending ones. */
    ghost function Bits(): seq<bool>
      reads this
    {
      BitsOf(out) + LsbBits(bitbuf, bitcount)
    }

    constructor ()
      ensures Valid() && out == [] && bitcount == 0 && Bits() == []
    {
      out, bitbuf, bitcount := [], 0, 0;
    }

    method Push(b: byte)
      requires Valid() && bitcount == 0
      modifies this`out
      ensures Valid() && out == old(out) + [b]
    {
      out := out + [b];
    }

    /** stbiw__zlib_flushf. */
    method Flush()
      requires bitbuf < Shl(1, bitcount)
      modifies this
      ensures Valid() && Bits() == old(Bits())
      ensures bitcount == old(bitcount) % 8 && old(out) <= out
    {
      while bitcount >= 8
        invariant bitbuf < Shl(1, bitcount) && Bits() == old(Bits())
        invariant bitcount % 8 == old(bitcount) % 8 && old(out) <= out
        decreases bitcount
      {
        FlushByte();
      }
    }

    method FlushByte()
      requires bitcount >= 8 && bitbuf < Shl(1, bitcount)
      modifies this
      ensures bitbuf < Shl(1, bitcount) && Bits() == old(Bits())
      ensures bitcount == old(bitcount) - 8 && old(out) <= out
    {
      ByteOut(out, bitbuf, bitcount - 8);
      out := out + [bitbuf % 256];
      bitbuf := bitbuf / 256;
      bitcount := bitcount - 8;
    }

    /** stbiw__zlib_add: with at most 7 bits pending and 13 new ones, the 32-bit buffer never overflows. */
    method Add(code: nat, codebits: nat)
      requires Valid() && codebits <= 13 && code < Shl(1, codebits)
      modifies this
      ensures Valid() && Bits() == old(Bits()) + LsbBits(code, codebits)
      ensures bitcount == (old(bitcount) + codebits) % 8 && old(out) <= out
    {
      BitsAdded(out, bitbuf, bitcount, code, codebits);
      bitbuf := bitbuf + Shl(code, bitcount);  // disjoint bits, so | is +
      assert bitbuf < TWO32;
      bitcount := bitcount + codebits;
      Flush();
    }

    /** stbiw__zlib_huffa: a Huffman code goes out most significant bit first. */
    method AddCode(code: nat, codebits: nat)
      requires Valid() && codebits <= 13
      modifies this
      ensures Valid() && Bits() == old(Bits()) + MsbBits(code, codebits)
    {
      var reversed := BitReverse(code, codebits);
      Add(reversed, codebits);
    }

    /** stbiw__zlib_huff. */
    method AddSymbol(n: nat)
      requires Valid() && n < 288
      modifies this
      ensures Valid() && Bits() == old(Bits()) + SymbolBits(n)
    {
      var code, codebits;
      if n <= 143 {
        code, codebits := 0x30 + n, 8;
      } else if n <= 255 {
        code, codebits := 0x190 + n - 144, 9;
      } else if n <= 279 {
        code, codebits := n - 256, 7;
      } else {
        code, codebits := 0xC0 + n - 280, 8;
      }
      assert (code, codebits) == Huffman(n);
      AddCode(code, codebits);
    }
  }

  /** Moving eight pending bits to the output leaves the bits written as they are. */
  lemma ByteOut(out: seq<byte>, v: nat, n: nat)
    requires v < Shl(1, n + 8)
    ensures BitsOf(out) + LsbBits(v, n + 8) == BitsOf(out + [v % 256]) + LsbBits(v / 256, n)
    ensures v / 256 < Shl(1, n)
  {
    LowByte(v, n);
    assert (out + [v % 256])[..|out|] == out;
    Assoc(BitsOf(out), LsbBits(v % 256, 8), LsbBits(v / 256, n));
  }

  lemma LowByte(v: nat, n: nat)
    requires v < Shl(1, n + 8)
    ensures LsbBits(v, n + 8) == LsbBits(v % 256, 8) + LsbBits(v / 256, n)
    ensures v / 256 < Shl(1, n)
  {
    assert v == v % 256 + Shl(v / 256, 8) by { ShlEight(v / 256); }
    assert v % 256 < Shl(1, 8) by { ShlTable(); }
    AppendBits(v % 256, 8, v / 256, n);
    assert Shl(1, n + 8) == Shl(Shl(1, n), 8) by { ShlShl(1, n, 8); }
    ShlEight(Shl(1, n));
  }

  lemma ShlEight(n: nat)
    ensures Shl(n, 8) == 256 * n
  {
    assert Shl(n, 2) == 4 * n by { assert Shl(n, 1) == 2 * n; }
    assert Shl(n, 4) == 4 * Shl(n, 2) by { assert Shl(n, 3) == 2 * Shl(n, 2); }
    assert Shl(n, 6) == 4 * Shl(n, 4) by { assert Shl(n, 5) == 2 * Shl(n, 4); }
    assert Shl(n, 8) == 4 * Shl(n, 6) by { assert Shl(n, 7) == 2 * Shl(n, 6); }
  }

  /** New bits go above the pending ones. */
  lemma BitsAdded(out: seq<byte>, buf: nat, count: nat, code: nat, codebits: nat)
    requires count < 8 && buf < Shl(1, count) && codebits <= 13 && code < Shl(1, codebits)
    ensures buf + Shl(code, count) < TWO32 && buf + Shl(code, count) < Shl(1, count + codebits)
    ensures BitsOf(out) + LsbBits(buf + Shl(code, count), count + codebits) == BitsOf(out) + LsbBits(buf, count) + LsbBits(code, codebits)
  {
    BufferRoom(buf, count, code, codebits);
    AppendBits(buf, count, code, codebits);
    Assoc(BitsOf(out), LsbBits(buf, count), LsbBits(code, codebits));
  }

  lemma BufferRoom(buf: nat, count: nat, code: nat, codebits: nat)
    requires count < 8 && buf < Shl(1, count) && codebits <= 13 && code < Shl(1, codebits)
    ensures buf + Shl(code, count) < Shl(1, count + codebits) < TWO32
  {
    ShlMonotone(code + 1, Shl(1, codebits), count);
    ShlAdd(code, 1, count);
    ShlShl(1, codebits, count);
    ShlGrows(count + codebits, 20);
    assert Shl(1, 20) < TWO32 by {
      ShlTable();
      ShlShl(1, 12, 8);
      ShlEight(Shl(1, 12));
    }
  }
}
