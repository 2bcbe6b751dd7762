/**
 Base-128 varints and zigzag numbers: the canonical form the encoder emits, the
 two decoders (64-bit and 32-bit) as functions on the unread bytes, and the laws
 that connect them.
 */
module PbVarint {
  import opened Common

  /** The canonical base-128 form: low group first, continuation bit on all but the last. */
  function Varint(n: nat): (bs: seq<byte>)
    ensures 1 <= |bs|
  {
    if n < 128 then [n] else [128 + n % 128] + Varint(n / 128)
  }

  /** n shifted left by k groups of seven bits. */
  function Shift7(n: nat, k: nat): (r: nat)
    ensures n == 0 <==> r == 0
  {
    if k == 0 then n else 128 * Shift7(n, k - 1)
  }

  lemma {:induction false} Shift7Carry(low: nat, high: nat, k: nat)
    ensures Shift7(low + 128 * high, k) == Shift7(low, k) + Shift7(high, k + 1)
  {
    if k > 0 {
      Shift7Carry(low, high, k - 1);
    }
  }

  lemma {:induction false} Shift7Less(a: nat, b: nat, k: nat)
    requires a < b
    ensures Shift7(a, k) < Shift7(b, k)
  {
    if k > 0 {
      Shift7Less(a, b, k - 1);
    }
  }

  lemma Shift7Four(n: nat)
    ensures Shift7(n, 3) == 0x20_0000 * n && Shift7(n, 4) == 0x1000_0000 * n
  {
    assert Shift7(n, 2) == 0x4000 * n by { assert Shift7(n, 1) == 0x80 * n; }
  }

  lemma {:induction false} VarintLength(n: nat, k: nat)
    requires n < Shift7(1, k) && 1 <= k
    ensures |Varint(n)| <= k
  {
    if n >= 128 {
      VarintLength(n / 128, k - 1);
    }
  }

  lemma VarintAtMostTen(n: nat)
    requires n < TWO64
    ensures |Varint(n)| <= 10
  {
    Shift7Four(1);
    assert Shift7(1, 6) == 0x4000 * Shift7(1, 4) by { assert Shift7(1, 5) == 0x80 * Shift7(1, 4); }
    assert Shift7(1, 8) == 0x4000 * Shift7(1, 6) by { assert Shift7(1, 7) == 0x80 * Shift7(1, 6); }
    assert Shift7(1, 10) == 0x4000 * Shift7(1, 8) by { assert Shift7(1, 9) == 0x80 * Shift7(1, 8); }
    VarintLength(n, 10);
  }

  /** Every byte but the last carries the continuation bit, and the last group is not redundant. */
  lemma {:induction false} VarintCanonical(n: nat)
    ensures forall i :: 0 <= i < |Varint(n)| - 1 ==> Varint(n)[i] >= 128
    ensures Varint(n)[|Varint(n)| - 1] < 128
    ensures |Varint(n)| > 1 ==> Varint(n)[|Varint(n)| - 1] != 0
  {
    if n >= 128 {
      VarintCanonical(n / 128);
    }
  }

  // ----- the 64-bit decoder -----

  /** The value of the groups from byte number k on; byte number 9 may only hold one bit. */
  function Decode64(s: seq<byte>, k: nat := 0): (r: Option<(nat, seq<byte>)>)
    ensures r.Some? ==> |r.value.1| < |s|
  {
    if s == [] || (k >= 9 && s[0] >= 2) then None
    else if s[0] < 128 then Some((s[0], s[1..]))
    else
      var rest := Decode64(s[1..], k + 1);
      if rest.None? then None else Some((s[0] - 128 + 128 * rest.value.0, rest.value.1))
  }

  /** What is left of 64 bits at byte number k. */
  function Room(k: nat): (p: nat)
    ensures p >= 2
    decreases 9 - k
  {
    if k >= 9 then 2 else 128 * Room(k + 1)
  }

  lemma RoomAtStart()
    ensures Room(0) == TWO64
  {
    assert Room(6) == 128 * 128 * 128 * Room(9) by { assert Room(7) == 128 * 128 * Room(9); }
    assert Room(3) == 128 * 128 * 128 * Room(6) by { assert Room(4) == 128 * 128 * Room(6); }
    assert Room(0) == 128 * 128 * 128 * Room(3) by { assert Room(1) == 128 * 128 * Room(3); }
  }

  lemma {:induction false} Decode64Bound(s: seq<byte>, k: nat)
    requires k <= 9 && Decode64(s, k).Some?
    ensures Decode64(s, k).value.0 < Room(k)
  {
    if s[0] >= 128 {
      assert k < 9;
      Decode64Bound(s[1..], k + 1);
    }
  }

  lemma Decode64Fits(s: seq<byte>)
    requires Decode64(s).Some?
    ensures Decode64(s).value.0 < TWO64
  {
    RoomAtStart();
    Decode64Bound(s, 0);
  }

  lemma {:induction false} Decode64Varint(n: nat, k: nat, rest: seq<byte>)
    requires k <= 9 && n < Room(k)
    ensures Decode64(Varint(n) + rest, k) == Some((n, rest))
  {
    if n < 128 {
      assert (Varint(n) + rest)[1..] == rest;
    } else {
      RoomAfter(n, k);
      Decode64Varint(n / 128, k + 1, rest);
      assert (Varint(n) + rest)[1..] == Varint(n / 128) + rest;
    }
  }

  lemma RoomAfter(n: nat, k: nat)
    requires 128 <= n < Room(k)
    ensures k < 9 && n / 128 < Room(k + 1)
  {
  }

  /** The decoder undoes the encoder for every uint64, whatever follows on the wire. */
  lemma VarintRoundTrip64(n: nat, rest: seq<byte>)
    requires n < TWO64
    ensures Decode64(Varint(n) + rest) == Some((n, rest))
  {
    RoomAtStart();
    Decode64Varint(n, 0, rest);
  }

  // ----- the 32-bit decoder -----

  /**
   The value of the groups from byte number k on, as far as it fits below bit 32: byte number 4
   gives four bits, and later bytes may only repeat what bit 31 says (negative).
   */
  function Decode32(s: seq<byte>, k: nat := 0, negative: bool := false): (r: Option<(nat, seq<byte>)>)
    ensures r.Some? ==> |r.value.1| < |s|
    decreases s
  {
    if s == [] || !Accepts32(s[0], k, negative) then None
    else
      var group := if k < 4 then s[0] % 128 else if k == 4 then s[0] % 128 % 16 else 0;
      if s[0] < 128 then Some((group, s[1..]))
      else
        var rest := Decode32(s[1..], k + 1, if k == 4 then s[0] % 128 % 16 >= 8 else negative);
        if rest.None? then None else Some((group + if k < 4 then 128 * rest.value.0 else 0, rest.value.1))
  }

  predicate Accepts32(b: byte, k: nat, negative: bool) {
    if k < 4 then true
    else if k == 4 then b % 128 / 16 == 0 || b / 8 % 16 == 15
    else k < 10 && (b % 128 == 0 || (negative && b == if k < 9 then 0xFF else 0x01))
  }

  /** Past bit 31 the 32-bit decoder only accepts what the 64-bit one accepts. */
  lemma {:induction false} TailExtension(s: seq<byte>, k: nat, negative: bool)
    requires 5 <= k
    ensures Decode32(s, k, negative).Some? ==>
              && k <= 9 && Decode32(s, k, negative).value.0 == 0
              && Decode64(s, k).Some? && Decode64(s, k).value.1 == Decode32(s, k, negative).value.1
    ensures k <= 9 && Decode64(s, k).Some? && Decode64(s, k).value.0 == 0 ==> Decode32(s, k, negative).Some?
    decreases |s|
  {
    if s != [] && k <= 9 {
      TailExtension(s[1..], k + 1, negative);
    }
  }

  /** The bits a 64-bit reading has at bit 32 of the whole number and above. */
  ghost function High(s: seq<byte>, k: nat): nat
    requires k <= 4 && Decode64(s, k).Some?
    decreases 4 - k
  {
    if k == 4 then Decode64(s, 4).value.0 / 16
    else if s[0] < 128 then 0 else High(s[1..], k + 1)
  }

  /** n placed at bit 32 of the whole number, seen from byte number k. */
  function AtBit32(n: nat, k: nat): (r: nat)
    requires k <= 4
    ensures n == 0 <==> r == 0
    decreases 4 - k
  {
    if k == 4 then 16 * n else 128 * AtBit32(n, k + 1)
  }

  lemma AtBit32Start(n: nat)
    ensures AtBit32(n, 0) == TWO32 * n
  {
    assert AtBit32(n, 2) == 128 * 128 * 16 * n by { assert AtBit32(n, 3) == 128 * 16 * n; }
    assert AtBit32(n, 0) == 128 * 128 * AtBit32(n, 2) by { assert AtBit32(n, 1) == 128 * AtBit32(n, 2); }
  }

  lemma {:induction false} HighBound(s: seq<byte>, k: nat)
    requires k <= 4 && Decode64(s, k).Some?
    ensures AtBit32(High(s, k), k) <= Decode64(s, k).value.0
    decreases 4 - k
  {
    if k < 4 && s[0] >= 128 {
      HighBound(s[1..], k + 1);
    }
  }

  /** The two decoders on the same bytes from byte number k on. */
  ghost predicate Agree(s: seq<byte>, k: nat)
    requires k <= 4
  {
    var r32, r64 := Decode32(s, k, false), Decode64(s, k);
    && (r32.Some? ==>
          && r64.Some? && r64.value.1 == r32.value.1 && r32.value.0 < AtBit32(1, k)
          && r64.value.0 == r32.value.0 + AtBit32(High(s, k), k))
    && (r64.Some? && High(s, k) == 0 ==> r32.Some?)
  }

  lemma Nibbles(group: nat, above: nat)
    ensures group == 16 * (group / 16) + group % 16
    ensures (group + 128 * above) / 16 == group / 16 + 8 * above
  {
  }

  lemma AgreeAtFour(s: seq<byte>)
    ensures Agree(s, 4)
  {
    if s != [] {
      if s[0] < 128 {
        LastAtFour(s);
      } else {
        MoreAtFour(s);
      }
    }
  }

  lemma LastAtFour(s: seq<byte>)
    requires s != [] && s[0] < 128
    ensures Agree(s, 4)
  {
    Nibbles(s[0], 0);
    assert High(s, 4) == s[0] / 16;
  }

  lemma MoreAtFour(s: seq<byte>)
    requires s != [] && s[0] >= 128
    ensures Agree(s, 4)
  {
    var negative := s[0] % 128 % 16 >= 8;
    TailExtension(s[1..], 5, negative);
    if Decode64(s[1..], 5).Some? {
      Nibbles(s[0] % 128, Decode64(s[1..], 5).value.0);
      MoreHigh(s);
    }
  }

  lemma MoreHigh(s: seq<byte>)
    requires s != [] && s[0] >= 128 && Decode64(s[1..], 5).Some?
    ensures Decode64(s, 4).Some? && Decode64(s, 4).value.1 == Decode64(s[1..], 5).value.1
    ensures Decode64(s, 4).value.0 == s[0] % 128 + 128 * Decode64(s[1..], 5).value.0
    ensures High(s, 4) == (s[0] % 128 + 128 * Decode64(s[1..], 5).value.0) / 16
  {
  }

  lemma {:induction false} AgreeFrom(s: seq<byte>, k: nat)
    requires k <= 4
    ensures Agree(s, k)
    decreases 4 - k
  {
    if k == 4 {
      AgreeAtFour(s);
    } else if s != [] && s[0] >= 128 {
      AgreeFrom(s[1..], k + 1);
    }
  }

  /**
   The 32-bit decoder against the 64-bit one, on every byte string: it never succeeds alone,
   it agrees mod 2^32, and it accepts every encoding of a value below 2^32.
   */
  lemma Decode32Agrees(s: seq<byte>)
    ensures Decode32(s).Some? ==>
              && Decode64(s).Some? && Decode64(s).value.1 == Decode32(s).value.1
              && Decode64(s).value.0 % TWO32 == Decode32(s).value.0
    ensures Decode64(s).Some? && Decode64(s).value.0 < TWO32 ==> Decode32(s) == Decode64(s)
  {
    AgreeFrom(s, 0);
    AtBit32Start(1);
    if Decode64(s).Some? {
      HighBound(s, 0);
      AtBit32Start(High(s, 0));
    }
  }

  lemma VarintRoundTrip32(n: nat, rest: seq<byte>)
    requires n < TWO32
    ensures Decode32(Varint(n) + rest) == Some((n, rest))
  {
    VarintRoundTrip64(n, rest);
    Decode32Agrees(Varint(n) + rest);
  }

  /** The 32-bit decoder reads an encoding back exactly when the value fits in 32 bits. */
  lemma VarintReadsIff(n: nat, rest: seq<byte>)
    requires n < TWO64
    ensures Decode32(Varint(n) + rest) == Some((n, rest)) <==> n < TWO32
  {
    VarintRoundTrip64(n, rest);
    Decode32Agrees(Varint(n) + rest);
  }

  /** The least number, seen from byte number k, whose bits 31 to 34 are all set, as for a negative number. */
  function SignLike(k: nat): (r: nat)
    requires k <= 4
    decreases 4 - k
  {
    if k == 4 then 0x78 else 128 * SignLike(k + 1)
  }

  lemma SignLikeStart()
    ensures SignLike(0) == 0x7_8000_0000
  {
    assert SignLike(2) == 128 * 128 * 0x78 by { assert SignLike(3) == 128 * 0x78; }
    assert SignLike(0) == 128 * 128 * SignLike(2) by { assert SignLike(1) == 128 * SignLike(2); }
  }

  lemma {:induction false} RejectsFrom(n: nat, k: nat, rest: seq<byte>)
    requires k <= 4 && AtBit32(1, k) <= n < SignLike(k)
    ensures Decode32(Varint(n) + rest, k, false) == None
    decreases 4 - k
  {
    if k == 4 {
      assert (Varint(n) + rest)[0] == n;
    } else {
      assert n >= 128;
      RejectsFrom(n / 128, k + 1, rest);
      assert Varint(n) + rest == [128 + n % 128] + (Varint(n / 128) + rest);
    }
  }

  /** A value from 2^32 up to where its bits can be taken for a sign makes the 32-bit decoder fail. */
  lemma OverflowRejected(n: nat, rest: seq<byte>)
    requires TWO32 <= n < 0x7_8000_0000
    ensures Decode32(Varint(n) + rest) == None
  {
    AtBit32Start(1);
    SignLikeStart();
    RejectsFrom(n, 0, rest);
  }

  // ----- two's complement and zigzag -----

  /** The unsigned 64-bit pattern of a signed number. */
  function Unsigned64(v: int): (u: nat)
    requires -TWO63 <= v < TWO63
    ensures u < TWO64
  {
    if v < 0 then v + TWO64 else v
  }

  /** The signed reading of a pattern of the given modulus. */
  function Signed(u: nat, modulus: nat): int
    requires u < modulus
  {
    if u < modulus / 2 then u else u - modulus
  }

  function ZigZag(v: int): (z: nat)
    requires -TWO63 <= v < TWO63
    ensures z < TWO64
  {
    if v < 0 then TWO64 - 1 - (Unsigned64(v) % TWO63 * 2) % TWO64 else v * 2
  }

  function UnZigZag(z: nat): int
    requires z < TWO64
  {
    if z % 2 == 1 then Signed(TWO64 - 1 - z / 2, TWO64) else z / 2
  }

  /** Small magnitudes of either sign get small codes: 0, -1, 1, -2, ... are 0, 1, 2, 3, ... */
  lemma ZigZagInterleaves(v: int)
    requires -TWO63 <= v < TWO63
    ensures ZigZag(v) == if v < 0 then -2 * v - 1 else 2 * v
  {
  }

  lemma ZigZagInverse(v: int, z: nat)
    requires -TWO63 <= v < TWO63 && z < TWO64
    ensures UnZigZag(ZigZag(v)) == v
    ensures -TWO63 <= UnZigZag(z) < TWO63 && ZigZag(UnZigZag(z)) == z
  {
    ZigZagInterleaves(v);
  }
}
