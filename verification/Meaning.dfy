/** What a decoded value has in common with the value encoded, said without the normal form the proofs are about. */
module Meaning {
  import opened Bytes
  import opened Values
  import opened Codec
  import opened Floats
  import opened Keys
  import opened Overflow
  import Timestamp
  import B = BincDriver
  import M = MsgpackDriver

  // ------------------------------------------------------------------
  // Numbers and texts

  predicate IsNumber(v: Value) {
    v.Int? || v.Uint?
  }

  function Number(v: Value): int
    requires IsNumber(v)
  {
    if v.Int? then v.i else v.u
  }

  predicate IsText(v: Value) {
    v.Str? || v.Sym?
  }

  function Text(v: Value): seq<byte>
    requires IsText(v)
  {
    if v.Str? then v.s else v.sym
  }

  /** The negative integers of which Binc does not restore every byte. */
  predicate Pruned(h: Handle, z: int) {
    h.Binc? && z < 0 && 0xFF80_0000 <= -z <= 0xFFFF_FFFF
  }

  /** A string is a string in Binc, and in MessagePack with RawToString; otherwise it is bytes. */
  predicate ReadsAsString(h: Handle) {
    h.Binc? || h.rawToString
  }

  predicate MeansRaw(h: Handle, s: seq<byte>, w: Value) {
    w == if ReadsAsString(h) then Str(s) else Bytes(s)
  }

  /** A float32 and a float64 of the same value. */
  predicate SameValue(b: nat, f: nat) {
    && (Negative64(f) <==> Negative32(b)) && (Finite64(f) <==> Finite32(b))
    && (Finite32(b) ==> Magnitude64(f) == Magnitude32(b) * Pow2(925))
    && (!Finite32(b) ==> (Fraction64(f) == 0 <==> Fraction32(b) == 0))
  }

  // ------------------------------------------------------------------
  // What a decoded value means

  /**
   * w means v: numbers have the same value whatever their Go type, floats are widened, texts and byte strings have the
   * same bytes, an extension its tag and data, a time its instant; containers mean each other element by element.
   * Binc writes both zeros as zero.
   */
  predicate Means(h: Handle, v: Value, w: Value)
    decreases v, 1
  {
    match v
    case Nil => w.Nil?
    case Bool(b) => w == Bool(b)
    case Int(z) => IsNumber(w) && (!Pruned(h, z) ==> Number(w) == z)
    case Uint(z) => IsNumber(w) && Number(w) == z
    case Float32(b) => w.Float64? && if h.Binc? && b % TWO31 == 0 then w.f64 == 0 else SameValue(b, w.f64)
    case Float64(f) => w.Float64? && w.f64 == if h.Binc? && f == TWO63 then 0 else f
    case Str(s) => MeansRaw(h, s, w)
    case Sym(s) => MeansRaw(h, s, w)
    case Bytes(s) => if h.Binc? || h.writeExt then w == Bytes(s) else MeansRaw(h, s, w)
    case Ext(tag, None) => w.Nil?
    case Ext(tag, Some(data)) =>
      if h.Msgpack? && !h.writeExt then MeansRaw(h, data, w)
      else w.Ext? && w.tag == tag && (if data == [] then w.data.None? else w.data == Some(data))
    case Time(secs, nsecs, zone) => w.Time? && w.secs == secs && w.nsecs == nsecs && MeansZone(zone, w.zone)
    case Array(es) => w.Array? && MeansSeq(h, es, w.es)
    case Map(kvs) => w.Map? && MeansPairs(h, kvs, w.kvs)
    case Unsupported => false
  }

  /** A zone of whole minutes in 14 bits keeps its offset, where offset zero is UTC. */
  predicate MeansZone(zone: Option<int>, z: Option<int>) {
    && (zone.None? ==> z.None?)
    && (zone.Some? && zone.value % 60 == 0 && -8192 * 60 <= zone.value <= 8191 * 60 ==> z == if zone.value == 0 then None else zone)
  }

  predicate MeansSeq(h: Handle, es: seq<Value>, ws: seq<Value>)
    decreases es, 0
  {
    |es| == |ws| && (es != [] ==> Means(h, es[0], ws[0]) && MeansSeq(h, es[1..], ws[1..]))
  }

  /** A key that was read as bytes is a string. */
  predicate MeansKey(h: Handle, k: Value, w: Value)
    decreases k, 2
  {
    Means(h, k, w) || (w.Str? && Means(h, k, Bytes(w.s)))
  }

  predicate MeansPairs(h: Handle, kvs: seq<Pair>, ws: seq<Pair>)
    decreases kvs, 0
  {
    |kvs| == |ws| && (kvs != [] ==> (EntryBelow(kvs); MeansKey(h, kvs[0].k, ws[0].k) && Means(h, kvs[0].v, ws[0].v)) && MeansPairs(h, kvs[1..], ws[1..]))
  }

  // ------------------------------------------------------------------
  // The normal form means the value

  lemma {:induction false} LeafMeans(h: Handle, v: Value)
    requires FitsHead(h, v) && !v.Array? && !v.Map?
    ensures Means(h, v, Norm(h, v))
  {
    hide B.NegMagnitude, Widen, Magnitude64, Magnitude32, Timestamp.SignExtend14, SameValue, Pow2;
    if v.Float32? {
      WidenMeans(v.f32);
    } else if v.Int? && h.Binc? && v.i < -1 {
      B.DecIntExact(v.i, 1, []);
    } else if v.Time? && v.zone.Some? {
      ZoneMeans(v.zone.value);
    }
  }

  lemma {:induction false} WidenMeans(b: nat)
    requires b < TWO32
    ensures SameValue(b, Widen(b))
  {
    hide Magnitude64, Magnitude32, Widen;
    WidenKeepsValue(b);
  }

  lemma {:induction false} ZoneMeans(offset: int)
    ensures MeansZone(Some(offset), Timestamp.NormZone(Some(offset)))
  {
    Timestamp.ZoneKept(offset);
    if offset % 60 == 0 {
      assert Timestamp.TruncDiv(offset, 60) * 60 == offset;
    }
  }

  /** Whatever is encodable, decoding its encoding gives a value that means it. */
  lemma {:induction false} NormMeans(h: Handle, v: Value)
    requires Encodable(h, v)
    ensures Means(h, v, Norm(h, v))
    decreases v, 1
  {
    match v {
      case Array(es) => NormSeqMeans(h, es);
      case Map(kvs) => NormPairsMean(h, kvs);
      case _ => LeafMeans(h, v);
    }
  }

  lemma {:induction false} NormSeqMeans(h: Handle, es: seq<Value>)
    requires EncodableSeq(h, es)
    ensures MeansSeq(h, es, NormSeq(h, es))
    decreases es, 0
  {
    hide Norm, Means, Encodable;
    if es != [] {
      NormMeans(h, es[0]);
      NormSeqMeans(h, es[1..]);
    }
  }

  lemma {:induction false} NormPairsMean(h: Handle, kvs: seq<Pair>)
    requires EncodablePairs(h, kvs)
    ensures MeansPairs(h, kvs, NormPairs(h, kvs))
    decreases kvs, 0
  {
    hide Norm, Means, Encodable;
    if kvs != [] {
      EntryBelow(kvs);
      NormMeans(h, kvs[0].k);
      NormMeans(h, kvs[0].v);
      NormPairsMean(h, kvs[1..]);
    }
  }

  /** Decoding what was encoded, followed by anything: a value with the same meaning, and exactly what followed. */
  lemma {:induction false} DecodedMeans(h: Handle, d: Symbols, names: Names, v: Value, suffix: seq<byte>) returns (w: Value)
    requires Encodable(h, v) && InStep(h, d, names) && |Enc(h, d, v).syms.ids| <= TWO16
    ensures var r := Dec(h, names, Enc(h, d, v).bytes + suffix); r.Ok? && r.rest == suffix && r.value.value == w && Means(h, v, w)
  {
    hide InStep, Enc, Dec, Norm, Encodable, Means;
    RoundTrip(h, d, names, v, suffix);
    NormMeans(h, v);
    w := Norm(h, v);
  }

  // ------------------------------------------------------------------
  // Maps that can be encoded

  /** An integer that survives, or a text. */
  predicate IsKey(h: Handle, k: Value) {
    IsText(k) || (IsNumber(k) && !Pruned(h, Number(k)))
  }

  predicate SameKey(a: Value, b: Value) {
    (IsText(a) && IsText(b) && Text(a) == Text(b)) || (IsNumber(a) && IsNumber(b) && Number(a) == Number(b))
  }

  lemma {:induction false} KeyForm(h: Handle, k: Value)
    requires FitsHead(h, k) && IsKey(h, k)
    ensures var w := KeyOf(Norm(h, k));
            Hashable(w) && (IsText(k) ==> w == Str(Text(k))) && (IsNumber(k) ==> w == NumberKey(h, Number(k)))
  {
    hide B.NegMagnitude;
    if h.Binc? && k.Int? && k.i < -1 { B.DecIntExact(k.i, 1, []); }
  }

  /** The form in which a number is a key, which only depends on the number. */
  function NumberKey(h: Handle, z: int): (w: Value)
    ensures IsNumber(w) && (z >= -TWO63 ==> Number(w) == z)
  {
    if z > (if h.Binc? then 0 else 127) then Uint(z) else Int(z)
  }

  lemma {:induction false} KeyFormAt(h: Handle, kvs: seq<Pair>, i: nat)
    requires i < |kvs|
    ensures NormPairs(h, kvs)[i] == Pair(KeyOf(Norm(h, kvs[i].k)), Norm(h, kvs[i].v))
    decreases |kvs|
  {
    hide Norm, KeyOf;
    EntryBelow(kvs);
    if i > 0 { KeyFormAt(h, kvs[1..], i - 1); }
  }

  lemma {:induction false} PartsEncodable(h: Handle, kvs: seq<Pair>)
    requires forall i :: 0 <= i < |kvs| ==> Encodable(h, kvs[i].k) && Encodable(h, kvs[i].v)
    ensures EncodablePairs(h, kvs)
    decreases |kvs|
  {
    hide Encodable;
    if kvs != [] {
      EntryBelow(kvs);
      assert forall i :: 0 <= i < |kvs| - 1 ==> kvs[1..][i] == kvs[i + 1];
      PartsEncodable(h, kvs[1..]);
    }
  }

  /** A map whose keys are different integers or texts can be encoded whenever its parts can. */
  lemma {:induction false} MapEncodable(h: Handle, kvs: seq<Pair>)
    requires FitsHead(h, Map(kvs)) && forall i :: 0 <= i < |kvs| ==> Encodable(h, kvs[i].k) && Encodable(h, kvs[i].v) && IsKey(h, kvs[i].k)
    requires forall i, j :: 0 <= i < j < |kvs| ==> !SameKey(kvs[i].k, kvs[j].k)
    ensures Encodable(h, Map(kvs))
  {
    hide Norm, FitsHead, KeyEq, Hashable, IsKey;
    PartsEncodable(h, kvs);
    var ps := NormPairs(h, kvs);
    forall i | 0 <= i < |kvs| ensures Hashable(ps[i].k) {
      KeyFormAt(h, kvs, i);
      HeadFits(h, kvs[i].k);
      KeyForm(h, kvs[i].k);
    }
    forall i, j | 0 <= i < j < |kvs| ensures !KeyEq(ps[i].k, ps[j].k) {
      KeyFormAt(h, kvs, i);
      KeyFormAt(h, kvs, j);
      HeadFits(h, kvs[i].k);
      HeadFits(h, kvs[j].k);
      KeysDiffer(h, kvs[i].k, kvs[j].k);
    }
  }

  lemma {:induction false} HeadFits(h: Handle, v: Value)
    requires Encodable(h, v)
    ensures FitsHead(h, v) && (v.Int? ==> v.i >= -TWO63)
  {
  }

  lemma {:induction false} KeysDiffer(h: Handle, a: Value, b: Value)
    requires FitsHead(h, a) && FitsHead(h, b) && IsKey(h, a) && IsKey(h, b) && !SameKey(a, b)
    requires (a.Int? ==> a.i >= -TWO63) && (b.Int? ==> b.i >= -TWO63)
    ensures !KeyEq(KeyOf(Norm(h, a)), KeyOf(Norm(h, b)))
  {
    hide Norm, FitsHead, KeyOf, KeyEq;
    KeyForm(h, a);
    KeyForm(h, b);
    KeyEqExact(KeyOf(Norm(h, a)), KeyOf(Norm(h, b)));
  }

  /** Such a map comes back with as many entries, each under the same integer or text with a value of the same meaning. */
  lemma {:induction false} MapComesBack(h: Handle, d: Symbols, names: Names, kvs: seq<Pair>, suffix: seq<byte>) returns (m: seq<Pair>)
    requires FitsHead(h, Map(kvs)) && forall i :: 0 <= i < |kvs| ==> Encodable(h, kvs[i].k) && Encodable(h, kvs[i].v) && IsKey(h, kvs[i].k)
    requires forall i, j :: 0 <= i < j < |kvs| ==> !SameKey(kvs[i].k, kvs[j].k)
    requires InStep(h, d, names) && |Enc(h, d, Map(kvs)).syms.ids| <= TWO16
    ensures var r := Dec(h, names, Enc(h, d, Map(kvs)).bytes + suffix); r.Ok? && r.rest == suffix && r.value.value == Map(m) && |m| == |kvs|
    ensures forall i :: 0 <= i < |kvs| ==>
              && Means(h, kvs[i].v, m[i].v) && (IsText(kvs[i].k) ==> m[i].k == Str(Text(kvs[i].k)))
              && (IsNumber(kvs[i].k) ==> IsNumber(m[i].k) && Number(m[i].k) == Number(kvs[i].k))
  {
    hide InStep, Enc, Dec, Encodable, Means, FitsHead, KeyOf, IsKey, SameKey;
    MapEncodable(h, kvs);
    RoundTrip(h, d, names, Map(kvs), suffix);
    m := NormPairs(h, kvs);
    NormOfMap(h, kvs);
    forall i | 0 <= i < |kvs|
      ensures Means(h, kvs[i].v, m[i].v) && (IsText(kvs[i].k) ==> m[i].k == Str(Text(kvs[i].k)))
      ensures IsNumber(kvs[i].k) ==> IsNumber(m[i].k) && Number(m[i].k) == Number(kvs[i].k)
    {
      KeyFormAt(h, kvs, i);
      HeadFits(h, kvs[i].k);
      KeyForm(h, kvs[i].k);
      NormMeans(h, kvs[i].v);
    }
  }

  lemma {:induction false} NormOfMap(h: Handle, kvs: seq<Pair>)
    ensures Norm(h, Map(kvs)) == Map(NormPairs(h, kvs))
  {
  }

  // ------------------------------------------------------------------
  // Scalars that can be encoded

  /** Encodable, for what is no container: within the widths of Go's types and the formats' lengths, and no more. */
  lemma {:induction false} ScalarEncodable(h: Handle, v: Value)
    requires !v.Array? && !v.Map?
    ensures var longest := if h.Msgpack? then TWO32 else TWO16;
            Encodable(h, v) <==>
              && (v.Int? ==> -TWO63 <= v.i < TWO63) && (v.Uint? ==> v.u < TWO64)
              && (v.Float32? ==> v.f32 < TWO32) && (v.Float64? ==> v.f64 < TWO64)
              && (v.Str? ==> |v.s| < longest) && (v.Bytes? ==> |v.bs| < longest)
              && (v.Sym? ==> |v.sym| < if h.Msgpack? then TWO32 else TWO63)
              && (v.Ext? && v.data.Some? ==> |v.data.value| < longest)
              && (v.Time? ==> h.Binc? && -TWO63 <= v.secs < TWO63 && v.nsecs < 1_000_000_000)
              && !v.Unsupported?
  {
  }

  // ------------------------------------------------------------------
  // Values the encoder refuses

  /** x is v, or somewhere inside it. */
  ghost predicate Occurs(x: Value, v: Value)
    decreases v
  {
    || x == v
    || (v.Array? && exists i :: 0 <= i < |v.es| && Occurs(x, v.es[i]))
    || (v.Map? && exists i :: 0 <= i < |v.kvs| && (PairBelow(v.kvs, i); Occurs(x, v.kvs[i].k) || Occurs(x, v.kvs[i].v)))
  }

  lemma {:induction false} PairBelow(kvs: seq<Pair>, i: nat)
    requires i < |kvs|
    ensures (kvs decreases to kvs[i].k) && (kvs decreases to kvs[i].v)
  {
    assert (kvs decreases to kvs[i]);
    assert (kvs[i] decreases to kvs[i].k) && (kvs[i] decreases to kvs[i].v);
  }

  /** A channel, a function and the like, and in MessagePack a time. */
  predicate Refusable(h: Handle, x: Value) {
    x.Unsupported? || (h.Msgpack? && x.Time?)
  }

  ghost predicate Clean(h: Handle, v: Value) {
    forall x :: Occurs(x, v) ==> !Refusable(h, x)
  }

  /** The encoder refuses exactly the values with such a thing somewhere inside. */
  lemma {:induction false} SupportedExactly(h: Handle, v: Value)
    ensures Supported(h, v) <==> Clean(h, v)
    decreases v, 1
  {
    match v {
      case Array(es) => SeqSupported(h, es);
      case Map(kvs) => PairsSupported(h, kvs);
      case _ => assert Occurs(v, v);
    }
    CleanParts(h, v);
  }

  lemma {:induction false} CleanParts(h: Handle, v: Value)
    ensures v.Array? ==> (Clean(h, v) <==> forall i :: 0 <= i < |v.es| ==> Clean(h, v.es[i]))
    ensures v.Map? ==> (Clean(h, v) <==> forall i :: 0 <= i < |v.kvs| ==> Clean(h, v.kvs[i].k) && Clean(h, v.kvs[i].v))
  {
    if v.Array? {
      assert forall i, x :: 0 <= i < |v.es| && Occurs(x, v.es[i]) ==> Occurs(x, v);
    }
    if v.Map? {
      assert forall i, x :: 0 <= i < |v.kvs| && Occurs(x, v.kvs[i].k) ==> Occurs(x, v);
      assert forall i, x :: 0 <= i < |v.kvs| && Occurs(x, v.kvs[i].v) ==> Occurs(x, v);
    }
  }

  lemma {:induction false} SeqSupported(h: Handle, es: seq<Value>)
    ensures SupportedSeq(h, es) <==> forall i :: 0 <= i < |es| ==> Clean(h, es[i])
    decreases es, 0
  {
    hide Clean, Supported;
    if es != [] {
      SupportedExactly(h, es[0]);
      SeqSupported(h, es[1..]);
      assert forall i :: 0 < i < |es| ==> es[1..][i - 1] == es[i];
    }
  }

  lemma {:induction false} PairsSupported(h: Handle, kvs: seq<Pair>)
    ensures SupportedPairs(h, kvs) <==> forall i :: 0 <= i < |kvs| ==> Clean(h, kvs[i].k) && Clean(h, kvs[i].v)
    decreases kvs, 0
  {
    hide Clean, Supported;
    if kvs != [] {
      EntryBelow(kvs);
      SupportedExactly(h, kvs[0].k);
      SupportedExactly(h, kvs[0].v);
      PairsSupported(h, kvs[1..]);
      assert forall i :: 0 < i < |kvs| ==> kvs[1..][i - 1] == kvs[i];
    }
  }
}
