/**
 Bit strings as DEFLATE packs them: numbers least significant bit first, Huffman codes most
 significant bit first, bytes from their low bit up.
 */
module ZBits {
  import opened Common

  /** The low n bits of v, least significant first. */
  function LsbBits(v: nat, n: nat): (bits: seq<bool>)
    ensures |bits| == n
  {
    if n == 0 then [] else [v % 2 == 1] + LsbBits(v / 2, n - 1)
  }

  function LsbValue(bits: seq<bool>): nat {
    if bits == [] then 0 else (if bits[0] then 1 else 0) + 2 * LsbValue(bits[1..])
  }

  /** The low n bits of v, most significant first. */
  function MsbBits(v: nat, n: nat): (bits: seq<bool>)
    ensures |bits| == n
  {
    if n == 0 then [] else MsbBits(v / 2, n - 1) + [v % 2 == 1]
  }

  function MsbValue(bits: seq<bool>): nat {
    if bits == [] then 0 else 2 * MsbValue(bits[..|bits| - 1]) + if bits[|bits| - 1] then 1 else 0
  }

  /** n shifted left by k bits. */
  function Shl(n: nat, k: nat): (r: nat)
    ensures n == 0 <==> r == 0
  {
    if k == 0 then n else 2 * Shl(n, k - 1)
  }

  lemma {:induction false} LsbRoundTrip(v: nat, n: nat)
    requires v < Shl(1, n)
    ensures LsbValue(LsbBits(v, n)) == v
  {
    if n > 0 {
      LsbRoundTrip(v / 2, n - 1);
    }
  }

  lemma {:induction false} MsbRoundTrip(v: nat, n: nat)
    requires v < Shl(1, n)
    ensures MsbValue(MsbBits(v, n)) == v
  {
    if n > 0 {
      MsbRoundTrip(v / 2, n - 1);
      assert MsbBits(v, n)[..n - 1] == MsbBits(v / 2, n - 1);
    }
  }

  /** Putting code above the k bits already in x is appending its bits. */
  lemma {:induction false} AppendBits(x: nat, k: nat, code: nat, n: nat)
    requires x < Shl(1, k)
    ensures LsbBits(x + Shl(code, k), k + n) == LsbBits(x, k) + LsbBits(code, n)
  {
    if k > 0 {
      assert (x + Shl(code, k)) / 2 == x / 2 + Shl(code, k - 1);
      AppendBits(x / 2, k - 1, code, n);
    }
  }

  /** The first k of k + n bits, and the rest. */
  lemma {:induction false} SplitBits(v: nat, k: nat, n: nat)
    ensures LsbBits(v, k + n) == LsbBits(v, k) + LsbBits(Shr(v, k), n)
  {
    if k > 0 {
      SplitBits(v / 2, k - 1, n);
    }
  }

  function Shr(n: nat, k: nat): nat {
    if k == 0 then n else Shr(n / 2, k - 1)
  }

  lemma {:induction false} ShlAdd(a: nat, b: nat, k: nat)
    ensures Shl(a + b, k) == Shl(a, k) + Shl(b, k)
  {
    if k > 0 {
      ShlAdd(a, b, k - 1);
    }
  }

  lemma {:induction false} ShlShl(n: nat, j: nat, k: nat)
    ensures Shl(Shl(n, j), k) == Shl(n, j + k)
  {
    if k > 0 {
      ShlShl(n, j, k - 1);
    }
  }

  lemma {:induction false} ShlMonotone(a: nat, b: nat, k: nat)
    requires a <= b
    ensures Shl(a, k) <= Shl(b, k)
  {
    ShlAdd(a, b - a, k);
  }

  lemma {:induction false} ShlGrows(j: nat, k: nat)
    requires j <= k
    ensures Shl(1, j) <= Shl(1, k)
  {
    if j < k {
      ShlGrows(j, k - 1);
    }
  }

  /** The bits of a byte string. */
  function BitsOf(bs: seq<byte>): (bits: seq<bool>)
    ensures |bits| == 8 * |bs|
  {
    if bs == [] then [] else BitsOf(bs[..|bs| - 1]) + LsbBits(bs[|bs| - 1], 8)
  }

  lemma {:induction false} BitsOfConcat(a: seq<byte>, b: seq<byte>)
    ensures BitsOf(a + b) == BitsOf(a) + BitsOf(b)
  {
    if b == [] {
      assert a + b == a;
    } else {
      var n := |b| - 1;
      BitsOfConcat(a, b[..n]);
      assert (a + b)[..|a + b| - 1] == a + b[..n];
    }
  }

  /** Reading whole bytes. */
  function TakeBytes(bits: seq<bool>, n: nat): (r: Option<(seq<byte>, seq<bool>)>)
    ensures r.Some? ==> |r.value.0| == n && |r.value.1| == |bits| - 8 * n
  {
    if n == 0 then Some(([], bits))
    else if |bits| < 8 then None
    else
      LsbValueBound(bits[..8]);
      var r := TakeBytes(bits[8..], n - 1);
      if r.None? then None else Some(([LsbValue(bits[..8])] + r.value.0, r.value.1))
  }

  lemma LsbValueBound(bits: seq<bool>)
    ensures LsbValue(bits) < Shl(1, |bits|)
    ensures |bits| == 8 ==> LsbValue(bits) < 256
  {
    LsbValueLess(bits);
    assert Shl(1, 8) == 16 * Shl(1, 4);
  }

  lemma {:induction false} LsbValueLess(bits: seq<bool>)
    ensures LsbValue(bits) < Shl(1, |bits|)
  {
    if bits != [] {
      LsbValueLess(bits[1..]);
    }
  }

  lemma {:induction false} TakeBytesRoundTrip(bs: seq<byte>, rest: seq<bool>)
    ensures TakeBytes(BitsOf(bs) + rest, |bs|) == Some((bs, rest))
  {
    if bs == [] {
      assert BitsOf(bs) + rest == rest;
    } else {
      assert bs == [bs[0]] + bs[1..];
      BitsOfConcat([bs[0]], bs[1..]);
      assert BitsOf([]) == [] && BitsOf([bs[0]]) == LsbBits(bs[0], 8);
      LsbRoundTrip(bs[0], 8);
      var bits := BitsOf(bs) + rest;
      assert bits[..8] == LsbBits(bs[0], 8);
      assert bits[8..] == BitsOf(bs[1..]) + rest;
      TakeBytesRoundTrip(bs[1..], rest);
    }
  }
}
