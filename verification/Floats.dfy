/** What the bit patterns of floats stand for, and that the conversions keep or round it as IEEE 754 says. */
module Floats {
  import opened Bytes
  import opened Values
  import opened Overflow

  const TWO23 := 0x80_0000
  const TWO52 := 0x10_0000_0000_0000

  // ------------------------------------------------------------------
  // Values, as integers

  predicate Negative64(f: nat) {
    f / TWO63 % 2 == 1
  }

  function Exponent64(f: nat): nat {
    f / TWO52 % 2048
  }

  function Fraction64(f: nat): nat {
    f % TWO52
  }

  predicate Finite64(f: nat) {
    Exponent64(f) < 2047
  }

  /** The magnitude of a finite double in units of 2^-1074. */
  function Magnitude64(f: nat): nat {
    if Exponent64(f) == 0 then Fraction64(f) else (TWO52 + Fraction64(f)) * Pow2(Exponent64(f) - 1)
  }

  predicate Negative32(b: nat) {
    b / TWO31 % 2 == 1
  }

  function Exponent32(b: nat): nat {
    b / TWO23 % 256
  }

  function Fraction32(b: nat): nat {
    b % TWO23
  }

  predicate Finite32(b: nat) {
    Exponent32(b) < 255
  }

  /** The magnitude of a finite float in units of 2^-149. */
  function Magnitude32(b: nat): nat {
    if Exponent32(b) == 0 then Fraction32(b) else (TWO23 + Fraction32(b)) * Pow2(Exponent32(b) - 1)
  }

  /** The fields of a pattern put together from them. */
  lemma {:induction false} Fields(sign: bool, e: nat, m: nat)
    requires e < 2048 && m < TWO52
    ensures var f := (if sign then TWO63 else 0) + e * TWO52 + m;
            (Negative64(f) <==> sign) && Exponent64(f) == e && Fraction64(f) == m
  {
    var f := (if sign then TWO63 else 0) + e * TWO52 + m;
    var q := (if sign then 2048 else 0) + e;
    assert TWO63 == 2048 * TWO52;
    assert f == q * TWO52 + m;
    assert f / TWO52 == q;
  }

  // ------------------------------------------------------------------
  // Widening

  /** Doubling until the top bit is set keeps the value, one exponent for each doubling. */
  lemma {:induction false} Normalised(m: nat, e: int, k: nat)
    requires 0 < m < 2 * TWO23 && m * Pow2(k) >= TWO23
    ensures var (e2, m2) := Normalise(m, e); e - k <= e2 <= e && m2 < TWO23 && m2 + TWO23 == m * Pow2(e - e2)
    decreases k
  {
    if m < TWO23 {
      assert 2 * m * Pow2(k - 1) == m * Pow2(k);
      Normalised(2 * m, e - 1, k - 1);
      var (e2, m2) := Normalise(m, e);
      assert Pow2(e - e2) == 2 * Pow2(e - 1 - e2);
      assert 2 * m * Pow2(e - 1 - e2) == m * Pow2(e - e2);
    }
  }

  lemma {:induction false} Pow2Of23()
    ensures Pow2(23) == TWO23 && Pow2(29) * TWO23 == TWO52 && Pow2(29) == 0x2000_0000
  {
    assert Pow2(7) == 0x80;
    Pow2Values();
    Pow2Add(16, 7);
    assert Pow2(5) == 32 && Pow2(8) == 256;
    Pow2Add(16, 8);
    Pow2Add(24, 5);
  }

  /** (2^23 + m2) 2^(e2 - 1) 2^29 units of the one are (2^23 + m2) 2^j of the other. */
  lemma {:induction false} Shifted(m2: nat, e2: nat, j: nat)
    requires e2 >= 1 && j + 925 == e2 - 1 + 29
    ensures (TWO52 + m2 * 0x2000_0000) * Pow2(e2 - 1) == (TWO23 + m2) * Pow2(j) * Pow2(925)
  {
    hide Pow2;
    Pow2Of23();
    Pow2Add(29, e2 - 1);
    Pow2Add(j, 925);
    assert TWO52 + m2 * 0x2000_0000 == (TWO23 + m2) * Pow2(29);
    Regroup(TWO23 + m2, Pow2(29), Pow2(e2 - 1), Pow2(j), Pow2(925));
  }

  lemma {:induction false} Regroup(a: nat, p: nat, q: nat, r: nat, t: nat)
    requires p * q == r * t
    ensures a * p * q == a * r * t
  {
    assert a * p * q == a * (p * q) && a * r * t == a * (r * t);
  }

  /** Decoding a float32 gives the float64 of the same value; infinities and NaN stay what they are. */
  lemma {:induction false} WidenKeepsValue(b: nat)
    requires b < TWO32
    ensures Widen(b) < TWO64 && (Negative64(Widen(b)) <==> Negative32(b)) && (Finite64(Widen(b)) <==> Finite32(b))
    ensures Finite32(b) ==> Magnitude64(Widen(b)) == Magnitude32(b) * Pow2(925)
    ensures !Finite32(b) ==> (Fraction64(Widen(b)) == 0 <==> Fraction32(b) == 0)
  {
    hide Pow2, Normalise;
    var sign, e, m := Negative32(b), Exponent32(b), Fraction32(b);
    if e == 255 {
      Fields(sign, 2047, if m == 0 then 0 else 0x8_0000_0000_0000 + m % 0x40_0000 * 0x2000_0000);
    } else if e > 0 {
      Fields(sign, e + 896, m * 0x2000_0000);
      Shifted(m, e + 896, e - 1);
    } else if m == 0 {
      Fields(sign, 0, 0);
    } else {
      Pow2Of23();
      assert m * Pow2(23) >= Pow2(23);
      Normalised(m, 897, 23);
      var (e2, m2) := Normalise(m, 897);
      Fields(sign, e2, m2 * 0x2000_0000);
      Subnormal(m, e2, m2);
    }
  }

  lemma {:induction false} Subnormal(m: nat, e2: nat, m2: nat)
    requires 1 <= e2 <= 897 && m2 + TWO23 == m * Pow2(897 - e2)
    ensures (TWO52 + m2 * 0x2000_0000) * Pow2(e2 - 1) == m * Pow2(925)
  {
    hide Pow2;
    Pow2Of23();
    Pow2Add(29, e2 - 1);
    Pow2Add(897 - e2, 28 + e2);
    assert TWO52 + m2 * 0x2000_0000 == (TWO23 + m2) * Pow2(29);
    Regroup(TWO23 + m2, Pow2(29), Pow2(e2 - 1), 1, Pow2(28 + e2));
    Regroup(m, Pow2(897 - e2), Pow2(28 + e2), 1, Pow2(925));
  }

  // ------------------------------------------------------------------
  // Integers as floats

  /** The exponent is that of the leading bit. */
  lemma {:induction false} Leading(m: nat)
    requires m > 0
    ensures Pow2(Exponent(m)) <= m < 2 * Pow2(Exponent(m))
  {
    if m > 1 {
      Leading(m / 2);
      var p := Pow2(Exponent(m / 2));
      assert Pow2(Exponent(m)) == 2 * p;
    }
  }

  /** No multiple of 2^k is nearer to m, and of two that are as near the even one is taken. */
  lemma {:induction false} Rounded(m: nat, k: nat)
    ensures var q, p := RoundShift(m, k), Pow2(k);
            && 2 * q * p - p <= 2 * m <= 2 * q * p + p
            && (2 * m == 2 * q * p - p || 2 * m == 2 * q * p + p ==> q % 2 == 0)
  {
    hide Pow2;
    var p := Pow2(k);
    var q, r := m / p, m % p;
    assert m == q * p + r;
    assert 2 * (q + 1) * p == 2 * q * p + 2 * p;
  }

  lemma {:induction false} Pow2Monotone(a: nat, b: nat)
    requires a <= b
    ensures Pow2(a) <= Pow2(b)
    decreases b
  {
    if a < b { Pow2Monotone(a, b - 1); }
  }

  lemma {:induction false} ExponentIs(m: nat, e: nat)
    requires Pow2(e) <= m < 2 * Pow2(e)
    ensures m > 0 && Exponent(m) == e
  {
    Leading(m);
    var x := Exponent(m);
    if x < e {
      Pow2Monotone(x + 1, e);
    } else if x > e {
      Pow2Monotone(e + 1, x);
    }
  }

  lemma {:induction false} Doubled(e: nat)
    ensures Pow2(e + 1) == 2 * Pow2(e)
  {
  }

  /** A significand from 2^52 to 2^53, put above an exponent, has its value; the last one carries. */
  lemma {:induction false} Carried(sign: bool, e: nat, s: nat)
    requires e <= 63 && TWO52 <= s <= 2 * TWO52
    ensures var f := (if sign then TWO63 else 0) + (e + 1022) * TWO52 + s;
            && f < TWO64 && Finite64(f) && (Negative64(f) <==> sign) && Magnitude64(f) == s * Pow2(e + 1022)
            && (s % 2 == 0 ==> Fraction64(f) % 2 == 0)
  {
    hide Pow2, Exponent64, Fraction64, Negative64;
    if s == 2 * TWO52 {
      Fields(sign, e + 1024, 0);
      Doubled(e + 1022);
    } else {
      Fields(sign, e + 1023, s - TWO52);
    }
  }

  /** q is a nearest multiple of 2^k to m, and with an even significand when another is as near. */
  predicate Nearest(f: nat, m: nat, q: nat, k: nat) {
    && 2 * q * Pow2(k) - Pow2(k) <= 2 * m <= 2 * q * Pow2(k) + Pow2(k)
    && (2 * m == 2 * q * Pow2(k) - Pow2(k) || 2 * m == 2 * q * Pow2(k) + Pow2(k) ==> Fraction64(f) % 2 == 0)
  }

  /**
   * float64(i): the sign of i, and the double nearest to it: a multiple q of the spacing of doubles at i, 2^k, not
   * more than half of that away from i, and with an even significand when it is exactly half; below 2^53 it is i.
   */
  lemma {:induction false} FloatOfIntRounds(i: int, k: nat) returns (q: nat)
    requires -TWO63 <= i < TWO63
    requires var m := if i < 0 then -i else i; if m < 2 * TWO52 then k == 0 else Pow2(52 + k) <= m < 2 * Pow2(52 + k)
    ensures var f := FloatOfInt(i); var m := if i < 0 then -i else i;
            && f < TWO64 && Finite64(f) && (Negative64(f) <==> i < 0)
            && Magnitude64(f) == q * Pow2(k) * Pow2(1074) && (m < 2 * TWO52 ==> q == m) && (m >= 2 * TWO52 ==> Nearest(f, m, q, k))
  {
    var m: nat := if i < 0 then -i else i;
    if i == 0 {
      Fields(false, 0, 0);
      q := 0;
    } else if m < 2 * TWO52 {
      SmallRounds(i, m);
      q := m;
    } else {
      BigRounds(i, m, k);
      q := RoundShift(m, k);
    }
  }

  lemma {:induction false} SmallRounds(i: int, m: nat)
    requires i != 0 && m == (if i < 0 then -i else i) < 2 * TWO52
    ensures var f := FloatOfInt(i); f < TWO64 && Finite64(f) && (Negative64(f) <==> i < 0) && Magnitude64(f) == m * Pow2(0) * Pow2(1074)
  {
    hide Pow2, Exponent, Magnitude64, Fraction64, Finite64, Negative64;
    Pow2Of52();
    Leading(m);
    SmallExponent(m, 52);
    var e := Exponent(m);
    SmallInteger(m, e);
    Carried(i < 0, e, m * Pow2(52 - e));
    Pow2Add(52 - e, e + 1022);
    Regroup(m, Pow2(52 - e), Pow2(e + 1022), 1, Pow2(1074));
    One();
  }

  lemma {:induction false} One()
    ensures Pow2(0) == 1
  {
  }

  lemma {:induction false} BigRounds(i: int, m: nat, k: nat)
    requires i != 0 && m == (if i < 0 then -i else i) <= TWO63 && Pow2(52 + k) <= m < 2 * Pow2(52 + k) && m >= 2 * TWO52
    ensures var f := FloatOfInt(i); var q := RoundShift(m, k);
            && f < TWO64 && Finite64(f) && (Negative64(f) <==> i < 0) && Magnitude64(f) == q * Pow2(k) * Pow2(1074) && Nearest(f, m, q, k)
  {
    hide Pow2, Exponent, Magnitude64, Fraction64, Finite64, Negative64, RoundShift;
    Pow2Values();
    Pow2Of52();
    ExponentIs(m, 52 + k);
    SmallExponent(m, 63);
    BigExponent(m, k);
    var q := RoundShift(m, k);
    Rounded(m, k);
    BigInteger(m, k);
    Carried(i < 0, 52 + k, q);
    Pow2Add(k, 1074);
    Regroup(q, 1, Pow2(k + 1074), Pow2(k), Pow2(1074));
  }

  lemma {:induction false} BigExponent(m: nat, k: nat)
    requires m >= Pow2(53) && m < 2 * Pow2(52 + k)
    ensures k > 0
  {
  }

  lemma {:induction false} Pow2Of52()
    ensures Pow2(52) == TWO52 && Pow2(53) == 2 * TWO52
  {
    Pow2Of23();
    Pow2Add(29, 23);
  }

  lemma {:induction false} SmallExponent(m: nat, e: nat)
    requires 0 < m < 2 * Pow2(e)
    ensures Exponent(m) <= e
  {
    Leading(m);
    if Exponent(m) > e { Pow2Monotone(e + 1, Exponent(m)); }
  }

  lemma {:induction false} SmallInteger(m: nat, e: nat)
    requires e <= 52 && Pow2(e) <= m < 2 * Pow2(e)
    ensures TWO52 <= m * Pow2(52 - e) <= 2 * TWO52
  {
    hide Pow2;
    Pow2Of52();
    Pow2Add(e, 52 - e);
    var p := Pow2(52 - e);
    assert Pow2(e) * p <= m * p <= 2 * Pow2(e) * p;
  }

  lemma {:induction false} QuotientRange(q: nat, r: nat, p: nat)
    requires r < p && TWO52 * p <= q * p + r < 2 * TWO52 * p
    ensures TWO52 <= q < 2 * TWO52
  {
    assert q < TWO52 ==> (q + 1) * p <= TWO52 * p;
    assert q >= 2 * TWO52 ==> q * p >= 2 * TWO52 * p;
  }

  lemma {:induction false} BigInteger(m: nat, k: nat)
    requires Pow2(52 + k) <= m < 2 * Pow2(52 + k)
    ensures TWO52 <= RoundShift(m, k) <= 2 * TWO52
  {
    hide Pow2;
    Pow2Of52();
    Pow2Add(52, k);
    var p := Pow2(k);
    var q, r := m / p, m % p;
    assert m == q * p + r;
    QuotientRange(q, r, p);
  }
}
