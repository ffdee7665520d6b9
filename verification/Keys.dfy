/** When two decoded keys are one key of a Go map, which keys a map can have, and what storing an entry does. */
module Keys {
  import opened Bytes
  import opened Values
  import opened Overflow
  import opened Floats

  // ------------------------------------------------------------------
  // Equal numbers

  predicate NaN64(f: nat) {
    !Finite64(f) && Fraction64(f) != 0
  }

  /** IEEE equality: NaN equals nothing, infinities by sign, finite numbers by value. */
  predicate SameFloat(f: nat, g: nat) {
    && !NaN64(f) && !NaN64(g) && (Finite64(f) <==> Finite64(g))
    && (Finite64(f) ==> Magnitude64(f) == Magnitude64(g))
    && ((Finite64(f) && Magnitude64(f) == 0) || (Negative64(f) <==> Negative64(g)))
  }

  /** Larger exponents mean larger magnitudes, whatever the fractions. */
  lemma {:induction false} ExponentsOrder(f: nat, g: nat)
    requires Exponent64(f) < Exponent64(g)
    ensures Magnitude64(f) < Magnitude64(g)
  {
    hide Exponent64, Fraction64;
    var e1, e2 := Exponent64(f), Exponent64(g);
    if e1 == 0 {
      Pow2Monotone(0, e2 - 1);
      FractionBound(f);
      assert (TWO52 + Fraction64(g)) * Pow2(e2 - 1) >= TWO52 * 1;
    } else {
      FractionBound(f);
      Pow2Monotone(e1, e2 - 1);
      var p := Pow2(e1 - 1);
      assert Pow2(e1) == 2 * p;
      assert (TWO52 + Fraction64(f)) * p < 2 * TWO52 * p;
      assert (TWO52 + Fraction64(g)) * Pow2(e2 - 1) >= TWO52 * (2 * p);
    }
  }

  lemma {:induction false} FractionBound(f: nat)
    ensures Fraction64(f) < TWO52
  {
  }

  /** A finite double is its sign and its magnitude. */
  lemma {:induction false} OnePattern(f: nat, g: nat)
    requires f < TWO64 && g < TWO64 && Magnitude64(f) == Magnitude64(g)
    ensures Exponent64(f) == Exponent64(g) && Fraction64(f) == Fraction64(g)
  {
    hide Exponent64, Fraction64;
    if Exponent64(f) < Exponent64(g) {
      ExponentsOrder(f, g);
    } else if Exponent64(g) < Exponent64(f) {
      ExponentsOrder(g, f);
    } else if Exponent64(f) > 0 {
      Cancel(TWO52 + Fraction64(f), TWO52 + Fraction64(g), Pow2(Exponent64(f) - 1));
    }
  }

  lemma {:induction false} Cancel(a: nat, b: nat, p: nat)
    requires p > 0 && a * p == b * p
    ensures a == b
  {
  }

  lemma {:induction false} Parts(f: nat)
    requires f < TWO64
    ensures f == (if Negative64(f) then TWO63 else 0) + Exponent64(f) * TWO52 + Fraction64(f)
    ensures f % TWO63 == Exponent64(f) * TWO52 + Fraction64(f)
  {
    assert TWO63 == 2048 * TWO52;
    var q := f / TWO52;
    assert f == q * TWO52 + Fraction64(f);
    assert q == (q / 2048) * 2048 + q % 2048;
    assert q / 2048 == f / TWO63;
  }

  lemma {:induction false} ZeroMagnitude(f: nat)
    requires f < TWO64
    ensures Magnitude64(f) == 0 <==> Exponent64(f) == 0 && Fraction64(f) == 0
  {
    hide Exponent64, Fraction64;
    if Exponent64(f) > 0 {
      assert (TWO52 + Fraction64(f)) * Pow2(Exponent64(f) - 1) >= TWO52 * 1;
    }
  }

  // ------------------------------------------------------------------
  // Equal keys

  lemma {:induction false} FloatKeys(f: nat, g: nat)
    requires f < TWO64 && g < TWO64
    ensures KeyEq(Float64(f), Float64(g)) <==> SameFloat(f, g)
  {
    hide Magnitude64, Exponent64, Fraction64, Negative64;
    Parts(f);
    Parts(g);
    FractionBound(f);
    FractionBound(g);
    ExponentBound(f);
    ExponentBound(g);
    ZeroMagnitude(f);
    ZeroMagnitude(g);
    if Magnitude64(f) == Magnitude64(g) { OnePattern(f, g); }
    if f == g || (f % TWO63 == 0 && g % TWO63 == 0) { OneMagnitude(f, g); }
  }

  lemma {:induction false} ExponentBound(f: nat)
    ensures Exponent64(f) <= 2047
  {
  }

  lemma {:induction false} OneMagnitude(f: nat, g: nat)
    requires Exponent64(f) == Exponent64(g) && Fraction64(f) == Fraction64(g)
    ensures Magnitude64(f) == Magnitude64(g)
  {
  }

  /**
   * Two keys are one exactly when they are the same value, but for floats, which are one when they are equal numbers,
   * and for times, where one with an explicit zone is a key of its own.
   */
  lemma {:induction false} KeyEqExact(a: Value, b: Value)
    requires (a.Float64? ==> a.f64 < TWO64) && (b.Float64? ==> b.f64 < TWO64)
    ensures !(a.Float64? && b.Float64?) && !(a.Time? && b.Time?) ==> (KeyEq(a, b) <==> a == b)
    ensures a.Float64? && b.Float64? ==> (KeyEq(a, b) <==> SameFloat(a.f64, b.f64))
    ensures a.Time? && b.Time? ==> (KeyEq(a, b) <==> a == b && a.zone == None)
  {
    hide SameFloat;
    if a.Float64? && b.Float64? { FloatKeys(a.f64, b.f64); }
  }

  /** Everything a map key can be in Go; a byte string has become a string by then. */
  lemma {:induction false} HashableExact(v: Value)
    ensures v.Nil? || v.Bool? || v.Int? || v.Uint? || v.Float32? || v.Float64? || v.Str? || v.Sym? || v.Time? ==> Hashable(KeyOf(v))
    ensures v.Bytes? ==> KeyOf(v) == Str(v.bs) && Hashable(KeyOf(v))
    ensures v.Array? || v.Map? || v.Ext? ==> !Hashable(KeyOf(v))
    ensures !v.Bytes? ==> KeyOf(v) == v
  {
  }

  lemma {:induction false} KeyEqEquivalence(a: Value, b: Value, c: Value)
    ensures KeyEq(a, b) ==> KeyEq(b, a)
    ensures KeyEq(a, b) && KeyEq(b, c) ==> KeyEq(a, c)
  {
  }

  // ------------------------------------------------------------------
  // Storing entries

  /** What a map has under a key. */
  function Stored(m: seq<Pair>, k: Value): Option<Value> {
    var j := Find(m, k); if j < |m| then Some(m[j].v) else None
  }

  lemma {:induction false} Equivalence()
    ensures forall a, b :: KeyEq(a, b) ==> KeyEq(b, a)
    ensures forall a, b, c :: KeyEq(a, b) && KeyEq(b, c) ==> KeyEq(a, c)
  {
    hide KeyEq;
    forall a, b ensures KeyEq(a, b) ==> KeyEq(b, a) {
      KeyEqEquivalence(a, b, a);
    }
    forall a, b, c ensures KeyEq(a, b) && KeyEq(b, c) ==> KeyEq(a, c) {
      KeyEqEquivalence(a, b, c);
    }
  }

  lemma {:induction false} PutDistinct(m: seq<Pair>, k: Value, v: Value)
    requires DistinctKeys(m)
    ensures DistinctKeys(Put(m, k, v)) && |Put(m, k, v)| == |m| + (if Stored(m, k).None? then 1 else 0)
  {
    hide KeyEq;
    Equivalence();
    var m2 := Put(m, k, v);
    forall a, b | 0 <= a < b < |m2| ensures !KeyEq(m2[a].k, m2[b].k) {
    }
  }

  /** Under a key that equals itself the later value wins; other keys keep theirs, and there is still one entry for each. */
  lemma {:induction false} LaterWins(m: seq<Pair>, k: Value, v: Value, q: Value)
    requires KeyEq(k, k) && DistinctKeys(m)
    ensures Stored(Put(m, k, v), q) == if KeyEq(k, q) then Some(v) else Stored(m, q)
    ensures DistinctKeys(Put(m, k, v)) && |Put(m, k, v)| == |m| + (if Stored(m, k).None? then 1 else 0)
  {
    hide KeyEq, DistinctKeys;
    PutDistinct(m, k, v);
    Equivalence();
    var j, m2 := Find(m, k), Put(m, k, v);
    var i2 := Find(m2, q);
    if KeyEq(k, q) {
      assert m2[j].k == k;
      assert i2 == j;
    } else {
      var i := Find(m, q);
      assert i < |m| ==> i != j && m2[i] == m[i];
      assert i2 < |m2| ==> i2 != j;
    }
  }

  /** A key that does not equal itself is added every time. */
  lemma {:induction false} NeverFound(m: seq<Pair>, k: Value, v: Value)
    requires !KeyEq(k, k)
    ensures Put(m, k, v) == m + [Pair(k, v)]
  {
    hide KeyEq;
    var j := Find(m, k);
    if j < |m| {
      KeyEqEquivalence(m[j].k, k, m[j].k);
      KeyEqEquivalence(k, m[j].k, k);
    }
  }

  function PutAll(m: seq<Pair>, kvs: seq<Pair>): seq<Pair>
    decreases |kvs|
  {
    if kvs == [] then m else PutAll(Put(m, kvs[0].k, kvs[0].v), kvs[1..])
  }

  /** Entries stored one after the other: under every key the last value stored for it, or what was there before. */
  lemma {:induction false} LastWins(m: seq<Pair>, kvs: seq<Pair>, q: Value)
    requires DistinctKeys(m) && forall i :: 0 <= i < |kvs| ==> KeyEq(kvs[i].k, kvs[i].k)
    ensures (forall i :: 0 <= i < |kvs| ==> !KeyEq(kvs[i].k, q)) ==> Stored(PutAll(m, kvs), q) == Stored(m, q)
    ensures forall i :: 0 <= i < |kvs| && KeyEq(kvs[i].k, q) && (forall k :: i < k < |kvs| ==> !KeyEq(kvs[k].k, q)) ==>
              Stored(PutAll(m, kvs), q) == Some(kvs[i].v)
    ensures DistinctKeys(PutAll(m, kvs))
    decreases |kvs|
  {
    hide KeyEq, Put, Stored, DistinctKeys;
    if kvs != [] {
      var m2 := Put(m, kvs[0].k, kvs[0].v);
      LaterWins(m, kvs[0].k, kvs[0].v, q);
      assert forall i :: 0 <= i < |kvs| - 1 ==> kvs[1..][i] == kvs[i + 1];
      LastWins(m2, kvs[1..], q);
      forall i | 0 <= i < |kvs| && KeyEq(kvs[i].k, q) && (forall k :: i < k < |kvs| ==> !KeyEq(kvs[k].k, q))
        ensures Stored(PutAll(m, kvs), q) == Some(kvs[i].v)
      {
        if i > 0 {
          assert kvs[1..][i - 1] == kvs[i];
        }
      }
    }
  }
}
