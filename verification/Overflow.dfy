/** The shift-and-compare overflow test that both decoders use, on 64-bit words. */
module Overflow {
  import opened Bytes

  function Pow2(k: nat): (p: nat)
    ensures p >= 1
  {
    if k == 0 then 1 else 2 * Pow2(k - 1)
  }

  /** (i << (64 - bits)) >> (64 - bits) on int64: the left shift drops high bits, the right one keeps the sign. */
  function ShiftSigned(i: int, bits: nat): int
    requires bits <= 64
  {
    ToSigned((i * Pow2(64 - bits)) % TWO64, TWO64) / Pow2(64 - bits)
  }

  /** The same two shifts on uint64. */
  function ShiftUnsigned(u: nat, bits: nat): int
    requires bits <= 64
  {
    (u * Pow2(64 - bits)) % TWO64 / Pow2(64 - bits)
  }

  lemma {:induction false} Pow2Add(a: nat, b: nat)
    ensures Pow2(a) * Pow2(b) == Pow2(a + b)
  {
    if a > 0 {
      Pow2Add(a - 1, b);
      assert Pow2(a) * Pow2(b) == 2 * (Pow2(a - 1) * Pow2(b));
    }
  }

  lemma {:induction false} Pow2Values()
    ensures Pow2(7) == 0x80 && Pow2(8) == 0x100 && Pow2(15) == TWO15 && Pow2(16) == TWO16
    ensures Pow2(31) == TWO31 && Pow2(32) == TWO32 && Pow2(63) == TWO63 && Pow2(64) == TWO64
  {
    assert Pow2(4) == 16;
    Pow2Add(4, 4); Pow2Add(8, 8); Pow2Add(16, 16); Pow2Add(32, 32);
    assert Pow2(8) == 2 * Pow2(7) && Pow2(16) == 2 * Pow2(15) && Pow2(32) == 2 * Pow2(31) && Pow2(64) == 2 * Pow2(63);
  }

  lemma {:induction false} DivUnique(x: int, y: int, q: int, r: int)
    requires y > 0 && 0 <= r < y && x == q * y + r
    ensures x / y == q && x % y == r
  {
    var d := q - x / y;
    assert d * y == x % y - r by {
      assert x == (x / y) * y + x % y;
      assert d * y == q * y - (x / y) * y;
    }
    assert d >= 1 ==> d * y >= y;
    assert d <= -1 ==> d * y <= -y;
  }

  lemma {:induction false} ModScale(x: int, q: nat, p: nat)
    requires q >= 1 && p >= 1
    ensures q * p >= 1 && (x * p) % (q * p) == (x % q) * p
  {
    var k, r := x / q, x % q;
    assert q * p >= 1 && r * p < q * p by {
      assert (q - r) * p >= 1;
      assert (q - r) * p == q * p - r * p;
    }
    assert x * p == k * (q * p) + r * p by {
      assert x == k * q + r;
      assert x * p == (k * q) * p + r * p;
      assert (k * q) * p == k * (q * p);
    }
    DivUnique(x * p, q * p, k, r * p);
  }

  lemma {:induction false} SignedScale(r: nat, q: nat, p: nat)
    requires r < q && p >= 1
    ensures ToSigned(r * p, q * p) / p == ToSigned(r, q)
  {
    if 2 * r < q {
      assert (q - 2 * r) * p >= 1;
      assert (q - 2 * r) * p == q * p - 2 * (r * p);
      DivUnique(r * p, p, r, 0);
    } else {
      assert (2 * r - q) * p >= 0;
      assert (2 * r - q) * p == 2 * (r * p) - q * p;
      assert r * p - q * p == (r - q) * p;
      DivUnique(r * p - q * p, p, r - q, 0);
    }
  }

  lemma {:induction false} ShiftSignedValue(i: int, bits: nat)
    requires 1 <= bits <= 64
    ensures ShiftSigned(i, bits) == ToSigned(i % Pow2(bits), Pow2(bits))
  {
    var p, q := Pow2(64 - bits), Pow2(bits);
    assert q * p == TWO64 by { Pow2Add(bits, 64 - bits); Pow2Values(); }
    ModScale(i, q, p);
    SignedScale(i % q, q, p);
  }

  /** The signed test accepts exactly the integers of the given width. */
  lemma {:induction false} ShiftSignedIsRange(i: int, bits: nat)
    requires 1 <= bits <= 64
    ensures ShiftSigned(i, bits) == i <==> 0 - Pow2(bits - 1) <= i < Pow2(bits - 1)
  {
    ShiftSignedValue(i, bits);
    var h := Pow2(bits - 1);
    assert Pow2(bits) == 2 * h;
    if 0 <= i < h {
      DivUnique(i, 2 * h, 0, i);
    } else if -h <= i < 0 {
      DivUnique(i, 2 * h, -1, i + 2 * h);
    }
  }

  /** The unsigned test accepts exactly the naturals of the given width. */
  lemma {:induction false} ShiftUnsignedIsRange(u: nat, bits: nat)
    requires 1 <= bits <= 64
    ensures ShiftUnsigned(u, bits) == u <==> u < Pow2(bits)
  {
    hide Pow2;
    var p, q := Pow2(64 - bits), Pow2(bits);
    Pow2Add(bits, 64 - bits);
    Pow2Values();
    ModScale(u, q, p);
    DivUnique((u % q) * p, p, u % q, 0);
    if u < q { DivUnique(u, q, 0, u); }
  }

  // ------------------------------------------------------------------
  // Go's float64(i), on bit patterns

  function Exponent(m: nat): nat
    requires m > 0
  {
    if m == 1 then 0 else 1 + Exponent(m / 2)
  }

  /** m / 2^k rounded to the nearest, and to the even one of two. */
  function RoundShift(m: nat, k: nat): nat {
    var p := Pow2(k);
    var q, r := m / p, m % p;
    if 2 * r > p || (2 * r == p && q % 2 == 1) then q + 1 else q
  }

  /** The significand carries its leading bit into the exponent. */
  function FloatOfInt(i: int): nat {
    if i == 0 then 0
    else
      var m: nat := if i < 0 then -i else i;
      var e := Exponent(m);
      (if i < 0 then TWO63 else 0) + (e + 1022) * 0x10_0000_0000_0000 + (if e <= 52 then m * Pow2(52 - e) else RoundShift(m, e - 52))
  }
}
