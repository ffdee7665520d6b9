/** Byte strings, big-endian integers and two's complement, as the codecs use them. */
module Bytes {

  type byte = x: int | 0 <= x < 256

  const TWO15 := 0x8000
  const TWO16 := 0x1_0000
  const TWO31 := 0x8000_0000
  const TWO32 := 0x1_0000_0000
  const TWO63 := 0x8000_0000_0000_0000
  const TWO64 := 0x1_0000_0000_0000_0000

  /** 256 to the power w: the number of values a w-byte integer can hold. */
  function Pow256(w: nat): (p: nat)
    ensures p >= 1
  {
    if w == 0 then 1 else 256 * Pow256(w - 1)
  }

  /** The low w bytes of v, most significant first. */
  function BE(v: nat, w: nat): (bs: seq<byte>)
    ensures |bs| == w
  {
    if w == 0 then [] else BE(v / 256, w - 1) + [v % 256]
  }

  /** The unsigned integer whose big-endian bytes are bs. */
  function FromBE(bs: seq<byte>): (v: nat)
    ensures v < Pow256(|bs|)
  {
    if bs == [] then 0 else 256 * FromBE(bs[..|bs| - 1]) + bs[|bs| - 1]
  }

  /** The two's-complement reading of bs. */
  function SignedBE(bs: seq<byte>): int
    requires bs != []
  {
    if bs[0] < 128 then FromBE(bs) else FromBE(bs) - Pow256(|bs|)
  }

  /** The signed integer of the given width that has the same bits as v. */
  function ToSigned(v: nat, modulus: nat): int {
    if 2 * v < modulus then v else v - modulus
  }

  /** The big-endian store into the first w bytes of an array. */
  method PutBE(a: array<byte>, v: nat, w: nat)
    requires w <= a.Length
    modifies a
    ensures a[..w] == BE(v, w)
    ensures a[w..] == old(a[w..])
  {
    var x, k := v, w;
    while k > 0
      invariant 0 <= k <= w
      invariant BE(x, k) + a[k..w] == BE(v, w)
      invariant a[w..] == old(a[w..])
    {
      ghost var rest := a[k..w];
      a[k - 1] := x % 256;
      assert a[k - 1..w] == [x % 256] + rest;
      assert BE(x / 256, k - 1) + a[k - 1..w] == BE(x, k) + rest;
      k, x := k - 1, x / 256;
    }
    assert BE(x, 0) + a[0..w] == a[..w];
  }

  lemma {:induction false} FromBEOfBE(v: nat, w: nat)
    requires v < Pow256(w)
    ensures FromBE(BE(v, w)) == v
  {
    if w > 0 {
      FromBEOfBE(v / 256, w - 1);
      assert BE(v, w)[..w - 1] == BE(v / 256, w - 1);
    }
  }

  lemma {:induction false} BEOfFromBE(bs: seq<byte>)
    ensures BE(FromBE(bs), |bs|) == bs
  {
    if bs != [] {
      var q, last := FromBE(bs[..|bs| - 1]), bs[|bs| - 1];
      BEOfFromBE(bs[..|bs| - 1]);
      assert (256 * q + last) / 256 == q && (256 * q + last) % 256 == last;
      assert bs == bs[..|bs| - 1] + [last];
    }
  }

  lemma {:induction false} Pow256Values()
    ensures Pow256(1) == 0x100 && Pow256(2) == TWO16 && Pow256(3) == 0x100_0000 && Pow256(4) == TWO32
    ensures Pow256(5) == 256 * TWO32 && Pow256(6) == TWO16 * TWO32 && Pow256(7) == 0x100_0000 * TWO32 && Pow256(8) == TWO64
  {
    assert Pow256(1) == 256 * Pow256(0);
    assert Pow256(3) == 256 * Pow256(2);
    assert Pow256(5) == 256 * Pow256(4);
    assert Pow256(7) == 256 * Pow256(6);
  }

  /** The leading byte carries the weight of all the bytes after it. */
  lemma {:induction false} FromBEHead(bs: seq<byte>)
    requires bs != []
    ensures FromBE(bs) == bs[0] * Pow256(|bs| - 1) + FromBE(bs[1..])
  {
    var n := |bs| - 1;
    if n == 0 {
      assert bs[..0] == [] && bs[1..] == [];
      assert FromBE(bs) == 256 * FromBE(bs[..0]) + bs[0];
    } else {
      FromBEHead(bs[..n]);
      assert bs[..n][1..] == bs[1..][..n - 1];
      assert FromBE(bs[1..]) == 256 * FromBE(bs[1..][..n - 1]) + bs[n];
      assert 256 * (bs[0] * Pow256(n - 1)) == bs[0] * Pow256(n);
    }
  }

  lemma {:induction false} MulMono(a: nat, b: nat, p: nat)
    requires a <= b
    ensures a * p <= b * p
  {
  }

  /** The sign bit of a byte string is the sign of its two's-complement value. */
  lemma {:induction false} SignOfBE(bs: seq<byte>)
    requires bs != []
    ensures bs[0] < 128 <==> 2 * FromBE(bs) < Pow256(|bs|)
    ensures 0 - Pow256(|bs|) <= 2 * SignedBE(bs) < Pow256(|bs|)
  {
    FromBEHead(bs);
    var p := Pow256(|bs| - 1);
    if bs[0] < 128 {
      MulMono(bs[0], 127, p);
    } else {
      MulMono(128, bs[0], p);
    }
  }

  // ------------------------------------------------------------------
  // Pruning of redundant sign-extension bytes

  /** How many leading bytes repeat the sign of the byte that follows them. */
  function PruneCount(v: seq<byte>, pos: bool): (n: nat)
    ensures n == 0 || n < |v|
  {
    if |v| >= 2 && v[0] == (if pos then 0 else 255) && (v[1] < 128) == pos then 1 + PruneCount(v[1..], pos) else 0
  }

  method PruneSignExt(v: array<byte>, lim: nat, pos: bool) returns (n: nat)
    requires lim <= v.Length
    ensures n == PruneCount(v[..lim], pos)
  {
    n := 0;
    if lim < 2 {
    } else if pos && v[0] == 0 {
      while v[n] == 0 && n + 1 < lim && v[n + 1] < 128
        invariant n < lim
        invariant n + PruneCount(v[n..lim], pos) == PruneCount(v[..lim], pos)
      {
        assert v[n..lim][1..] == v[n + 1..lim];
        n := n + 1;
      }
    } else if !pos && v[0] == 255 {
      while v[n] == 255 && n + 1 < lim && v[n + 1] >= 128
        invariant n < lim
        invariant n + PruneCount(v[n..lim], pos) == PruneCount(v[..lim], pos)
      {
        assert v[n..lim][1..] == v[n + 1..lim];
        n := n + 1;
      }
    }
  }

  /** Pruning keeps the two's-complement value, and the unsigned one when only zeros go. */
  lemma {:induction false} PruneKeepsValue(v: seq<byte>, pos: bool)
    requires v != []
    ensures SignedBE(v[PruneCount(v, pos)..]) == SignedBE(v)
    ensures pos ==> FromBE(v[PruneCount(v, pos)..]) == FromBE(v)
    decreases |v|
  {
    if PruneCount(v, pos) == 0 {
      assert v[0..] == v;
    } else {
      PruneKeepsValue(v[1..], pos);
      FromBEHead(v);
      assert v[1..][PruneCount(v[1..], pos)..] == v[PruneCount(v, pos)..];
    }
  }

  /** v fits in w bytes of two's complement. */
  predicate FitsSigned(v: int, w: nat) {
    0 - Pow256(w) <= 2 * v < Pow256(w)
  }

  /** A string pruned with its own sign is the shortest one with that value. */
  lemma {:induction false} PruneIsShortest(v: seq<byte>)
    requires v != []
    ensures var w := |v| - PruneCount(v, v[0] < 128);
            FitsSigned(SignedBE(v), w) && (w > 1 ==> !FitsSigned(SignedBE(v), w - 1))
    decreases |v|
  {
    var pos := v[0] < 128;
    SignOfBE(v);
    if PruneCount(v, pos) == 0 {
      if |v| > 1 {
        FromBEHead(v);
        SignOfBE(v[1..]);
        var p := Pow256(|v| - 1);
        if pos {
          if v[0] > 0 { MulMono(1, v[0], p); }
        } else {
          if v[0] < 255 { MulMono(v[0], 254, p); }
        }
      }
    } else {
      PruneIsShortest(v[1..]);
      PruneKeepsValue(v, pos);
      PruneKeepsValue(v[1..], pos);
      assert v[1..][PruneCount(v[1..], pos)..] == v[PruneCount(v, pos)..];
    }
  }
}
