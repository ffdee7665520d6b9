/** The format-independent encoder and schema-less decoder over nested values. */
module Codec {
  import opened Bytes
  import opened Values
  import M = MsgpackDriver
  import B = BincDriver

  type Symbols = B.Symbols
  type Names = B.Names

  /** No symbol has been numbered yet. */
  const NO_SYMBOLS: Symbols := B.Symbols(map[], 0)

  /** What an encode call appends to the stream, and the symbols numbered once it is done. */
  datatype Out = Out(bytes: seq<byte>, syms: Symbols)

  // ------------------------------------------------------------------
  // Encoding

  function EncHead(h: Handle, d: Symbols, v: Value): Out {
    if h.Msgpack? then Out(M.EncHead(h, v), d)
    else var (bs, d2) := B.EncHead(d, v); Out(bs, d2)
  }

  /** encode: a scalar, or a preamble followed by the elements in order. */
  function Enc(h: Handle, d: Symbols, v: Value): (r: Out)
    ensures d.ids.Keys <= r.syms.ids.Keys
    decreases v, 1
  {
    var head := EncHead(h, d, v);
    match v
    case Array(es) => var tail := EncSeq(h, head.syms, es); Out(head.bytes + tail.bytes, tail.syms)
    case Map(kvs) => var tail := EncPairs(h, head.syms, kvs); Out(head.bytes + tail.bytes, tail.syms)
    case _ => head
  }

  function EncSeq(h: Handle, d: Symbols, es: seq<Value>): (r: Out)
    ensures d.ids.Keys <= r.syms.ids.Keys
    decreases es, 0
  {
    if es == [] then Out([], d)
    else
      var first := Enc(h, d, es[0]);
      var tail := EncSeq(h, first.syms, es[1..]);
      Out(first.bytes + tail.bytes, tail.syms)
  }

  function EncPairs(h: Handle, d: Symbols, kvs: seq<Pair>): (r: Out)
    ensures d.ids.Keys <= r.syms.ids.Keys
    decreases kvs, 0
  {
    if kvs == [] then Out([], d)
    else
      EntryBelow(kvs);
      var k := Enc(h, d, kvs[0].k);
      var v := Enc(h, k.syms, kvs[0].v);
      var tail := EncPairs(h, v.syms, kvs[1..]);
      Out(k.bytes + v.bytes + tail.bytes, tail.syms)
  }

  // ------------------------------------------------------------------
  // Schema-less decoding

  function DecHead(h: Handle, names: Names, bs: seq<byte>): (r: Read<B.Named<Head>>)
    ensures r.Ok? ==> |r.rest| < |bs|
  {
    var (bd, tail) :- ReadN1(bs);
    if h.Msgpack? then var (x, r) :- M.Naked(h, bd, tail); Ok(B.Named(x, names), r)
    else B.Naked(names, bd, tail)
  }

  // ------------------------------------------------------------------
  // Byte strings and lengths, read for a destination that is known

  predicate IsNilByte(h: Handle, bd: byte) {
    bd == (if h.Msgpack? then M.NIL else 0)
  }

  /** Strings and byte strings, as currentEncodedType tells them. */
  predicate IsRawByte(h: Handle, bd: byte) {
    if h.Msgpack? then var t := M.TypeOf(h, bd); t.TString? || t.TBytes? else bd / 16 == 4 || bd / 16 == 5
  }

  /** decodeBytes into a fresh slice. */
  function DecRawBytes(h: Handle, bd: byte, bs: seq<byte>): (r: Read<seq<byte>>)
    ensures r.Ok? ==> |r.rest| <= |bs|
  {
    if h.Msgpack? then M.ReadRaw(M.BytesContainer(bd), bd, bs) else B.DecRaw(bd % 16, bs)
  }

  /** readMapLen, for whatever descriptor it takes. */
  function DecMapLen(h: Handle, bd: byte, bs: seq<byte>): (r: Read<nat>)
    ensures r.Ok? ==> |r.rest| <= |bs|
  {
    if h.Msgpack? then var (n, r) :- M.ReadLen(M.MAP, bd, bs); Ok(if n < 0 then 0 else n, r)
    else if bd / 16 == 7 then B.DecLen(bd % 16, bs)
    else Err(BadDescriptor)
  }

  /** decContLens: the elements a slice takes from an array or, keys and values alike, from a map; None is nil. */
  function DecSliceLen(h: Handle, names: Names, bs: seq<byte>): (r: Read<B.Named<Option<nat>>>)
    ensures r.Ok? ==> |r.rest| < |bs|
  {
    var (x, tail) :- DecHead(h, names, bs);
    match x.value
    case ArrayHead(n) => Ok(B.Named(Some(n), x.names), tail)
    case MapHead(n) => Ok(B.Named(Some(2 * n), x.names), tail)
    case Leaf(v) => if v.Nil? then Ok(B.Named(None, x.names), tail) else Err(WrongKind)
  }

  /** One element of a []byte that comes as an array. */
  function DecOctet(h: Handle, bs: seq<byte>): (r: Read<byte>)
    ensures r.Ok? ==> |r.rest| < |bs|
  {
    var (bd, tail) :- ReadN1(bs);
    if IsNilByte(h, bd) then Ok(0, tail)
    else var (u, r) :- if h.Msgpack? then M.DecUint(bd, tail, 8) else B.DecUint(bd, tail, 8); Ok(u % 256, r)
  }

  function DecOctets(h: Handle, n: nat, bs: seq<byte>): (r: Read<seq<byte>>)
    ensures r.Ok? ==> |r.rest| <= |bs| - n && |r.value| == n
  {
    if n == 0 then Ok([], bs)
    else
      var (x, tail) :- DecOctet(h, bs);
      var (xs, r) :- DecOctets(h, n - 1, tail);
      Ok([x] + xs, r)
  }

  /**
   * A []byte that holds b: a string or byte string replaces it, unless empty, and an array updates its first
   * elements. One that sits in an interface cannot be given another length.
   */
  function DecBytesInto(h: Handle, names: Names, b: seq<byte>, fixed: bool, bs: seq<byte>): (r: Read<B.Named<seq<byte>>>)
    ensures r.Ok? ==> |r.rest| < |bs|
  {
    var (bd, tail) :- ReadN1(bs);
    if IsRawByte(h, bd) then
      var (s, r) :- DecRawBytes(h, bd, tail);
      if s == [] then Ok(B.Named(b, names), r)
      else if fixed && |s| != |b| then Err(Populated)
      else Ok(B.Named(s, names), r)
    else DecOctetsInto(h, names, b, fixed, bs)
  }

  function DecOctetsInto(h: Handle, names: Names, b: seq<byte>, fixed: bool, bs: seq<byte>): (r: Read<B.Named<seq<byte>>>)
    ensures r.Ok? ==> |r.rest| < |bs|
  {
    var (n, tail) :- DecSliceLen(h, names, bs);
    var l := if n.value.Some? then n.value.value else 0;
    if fixed && l > |b| then Err(Populated)
    else var (os, r) :- DecOctets(h, l, tail); Ok(B.Named(if l < |b| then os + b[l..] else os, n.names), r)
  }

  // ------------------------------------------------------------------
  // Values of any type

  /** decode into a nil interface: total on every byte string, and at least one byte is consumed. */
  function Dec(h: Handle, names: Names, bs: seq<byte>): (r: Read<B.Named<Value>>)
    ensures r.Ok? ==> |r.rest| < |bs|
    decreases |bs|, 0
  {
    var (x, tail) :- DecHead(h, names, bs);
    match x.value
    case Leaf(v) => Ok(B.Named(v, x.names), tail)
    case ArrayHead(n) => var (es, r) :- DecSeq(h, x.names, n, tail); Ok(B.Named(Array(es.value), es.names), r)
    case MapHead(n) => var (m, r) :- DecMap(h, x.names, n, [], tail); Ok(B.Named(Map(m.value), m.names), r)
  }

  function DecSeq(h: Handle, names: Names, n: nat, bs: seq<byte>): (r: Read<B.Named<seq<Value>>>)
    ensures r.Ok? ==> |r.rest| <= |bs| - n && |r.value.value| == n
    decreases |bs|, 2
  {
    if n == 0 then Ok(B.Named([], names), bs)
    else
      var (x, tail) :- Dec(h, names, bs);
      var (xs, r) :- DecSeq(h, x.names, n - 1, tail);
      Ok(B.Named([x.value] + xs.value, xs.names), r)
  }

  /** decMapIntfIntf: the n entries still to come, on top of the entries stored in m. */
  function DecMap(h: Handle, names: Names, n: nat, m: seq<Pair>, bs: seq<byte>): (r: Read<B.Named<seq<Pair>>>)
    ensures r.Ok? ==> |r.rest| <= |bs| - 2 * n
    decreases |bs|, 2
  {
    if n == 0 then Ok(B.Named(m, names), bs)
    else
      var (x, tail) :- Dec(h, names, bs);
      var k := KeyOf(x.value);
      if !Hashable(k) then Err(Unhashable)
      else
        var j := Find(m, k);
        var (v, r) :- DecOnto(h, x.names, if j < |m| then m[j].v else Nil, tail);
        DecMap(h, v.names, n - 1, Put(m, k, v.value), r)
  }

  /** decode into an interface that holds old. */
  function DecOnto(h: Handle, names: Names, was: Value, bs: seq<byte>): (r: Read<B.Named<Value>>)
    ensures r.Ok? ==> |r.rest| < |bs|
    decreases |bs|, 1
  {
    if was.Nil? then Dec(h, names, bs) else DecOver(h, names, was, bs)
  }

  /**
   * decode into an interface that holds something: nil clears it; a slice, byte string or map is updated where it
   * is; anything else cannot be set.
   */
  function DecOver(h: Handle, names: Names, was: Value, bs: seq<byte>): (r: Read<B.Named<Value>>)
    ensures r.Ok? ==> |r.rest| < |bs|
    decreases |bs|, 0
  {
    var (bd, tail) :- ReadN1(bs);
    if IsNilByte(h, bd) then Ok(B.Named(Nil, names), tail)
    else
      match was
      case Bytes(b) => var (s, r) :- DecBytesInto(h, names, b, true, bs); Ok(B.Named(Bytes(s.value), s.names), r)
      case Array(es) =>
        var (n, t) :- DecSliceLen(h, names, bs);
        var l := if n.value.Some? then n.value.value else 0;
        if l > |es| then Err(Populated)
        else var (vs, r) :- DecEachOnto(h, n.names, es[..l], t); Ok(B.Named(Array(vs.value + es[l..]), vs.names), r)
      case Map(m) =>
        var (n, t) :- DecMapLen(h, bd, tail);
        var (kvs, r) :- DecMerge(h, names, n, m, t);
        Ok(B.Named(Map(kvs.value), kvs.names), r)
      case _ => Err(Populated)
  }

  /** The elements of a slice of interfaces, each decoded onto what it holds. */
  function DecEachOnto(h: Handle, names: Names, es: seq<Value>, bs: seq<byte>): (r: Read<B.Named<seq<Value>>>)
    ensures r.Ok? ==> |r.rest| <= |bs| - |es| && |r.value.value| == |es|
    decreases |bs|, 2
  {
    if es == [] then Ok(B.Named([], names), bs)
    else
      var (x, tail) :- DecOnto(h, names, es[0], bs);
      var (xs, r) :- DecEachOnto(h, x.names, es[1..], tail);
      Ok(B.Named([x.value] + xs.value, xs.names), r)
  }

  /** kMap on a map in an interface: a nil key is an error, and values are replaced. */
  function DecMerge(h: Handle, names: Names, n: nat, m: seq<Pair>, bs: seq<byte>): (r: Read<B.Named<seq<Pair>>>)
    ensures r.Ok? ==> |r.rest| <= |bs| - 2 * n
    decreases |bs|, 2
  {
    if n == 0 then Ok(B.Named(m, names), bs)
    else
      var (x, tail) :- Dec(h, names, bs);
      var k := KeyOf(x.value);
      if k.Nil? || !Hashable(k) then Err(Unhashable)
      else
        var (v, r) :- Dec(h, x.names, tail);
        DecMerge(h, v.names, n - 1, Put(m, k, v.value), r)
  }

  // ------------------------------------------------------------------
  // Normal forms

  function NormHead(h: Handle, v: Value): Head {
    if h.Msgpack? then M.NormHead(h, v) else B.NormHead(v)
  }

  function NormLeaf(h: Handle, v: Value): Value {
    var n := NormHead(h, v);
    if n.Leaf? then n.v else Nil
  }

  /** The value a schema-less reader gets for v: integers by sign and size, strings by the handle's flags. */
  function Norm(h: Handle, v: Value): Value
    decreases v, 1
  {
    match v
    case Array(es) => Array(NormSeq(h, es))
    case Map(kvs) => Map(NormPairs(h, kvs))
    case _ => NormLeaf(h, v)
  }

  function NormSeq(h: Handle, es: seq<Value>): (r: seq<Value>)
    ensures |r| == |es|
    decreases es, 0
  {
    if es == [] then [] else [Norm(h, es[0])] + NormSeq(h, es[1..])
  }

  function NormPairs(h: Handle, kvs: seq<Pair>): (r: seq<Pair>)
    ensures |r| == |kvs|
    decreases kvs, 0
  {
    if kvs == [] then []
    else
      EntryBelow(kvs);
      [Pair(KeyOf(Norm(h, kvs[0].k)), Norm(h, kvs[0].v))] + NormPairs(h, kvs[1..])
  }

  predicate HashableKeys(m: seq<Pair>) {
    forall i :: 0 <= i < |m| ==> Hashable(m[i].k)
  }

  predicate FitsHead(h: Handle, v: Value) {
    if h.Msgpack? then M.Fits(h, v) else B.Fits(v)
  }

  /** A value the encoder is asked to write: within the format's lengths, maps with distinct scalar keys. */
  predicate Encodable(h: Handle, v: Value)
    decreases v, 1
  {
    FitsHead(h, v) &&
    match v
    case Array(es) => EncodableSeq(h, es)
    case Map(kvs) => EncodablePairs(h, kvs) && DistinctKeys(NormPairs(h, kvs)) && HashableKeys(NormPairs(h, kvs))
    case _ => true
  }

  predicate EncodableSeq(h: Handle, es: seq<Value>)
    decreases es, 0
  {
    es == [] || (Encodable(h, es[0]) && EncodableSeq(h, es[1..]))
  }

  predicate EncodablePairs(h: Handle, kvs: seq<Pair>)
    decreases kvs, 0
  {
    if kvs == [] then true
    else
      EntryBelow(kvs);
      Encodable(h, kvs[0].k) && Encodable(h, kvs[0].v) && EncodablePairs(h, kvs[1..])
  }

  // ------------------------------------------------------------------
  // Values the encoder refuses

  /** encode succeeds: no value of an unsupported kind anywhere, and in MessagePack no time outside an extension. */
  predicate Supported(h: Handle, v: Value)
    decreases v, 1
  {
    match v
    case Unsupported => false
    case Time(_, _, _) => h.Binc?
    case Array(es) => SupportedSeq(h, es)
    case Map(kvs) => SupportedPairs(h, kvs)
    case _ => true
  }

  predicate SupportedSeq(h: Handle, es: seq<Value>)
    decreases es, 0
  {
    es == [] || (Supported(h, es[0]) && SupportedSeq(h, es[1..]))
  }

  predicate SupportedPairs(h: Handle, kvs: seq<Pair>)
    decreases kvs, 0
  {
    if kvs == [] then true
    else
      EntryBelow(kvs);
      Supported(h, kvs[0].k) && Supported(h, kvs[0].v) && SupportedPairs(h, kvs[1..])
  }

  lemma {:induction false} EncodableSupported(h: Handle, v: Value)
    requires Encodable(h, v)
    ensures Supported(h, v)
    decreases v, 1
  {
    match v {
      case Array(es) => EncodableSupportedSeq(h, es);
      case Map(kvs) => EncodableSupportedPairs(h, kvs);
      case _ =>
    }
  }

  lemma {:induction false} EncodableSupportedSeq(h: Handle, es: seq<Value>)
    requires EncodableSeq(h, es)
    ensures SupportedSeq(h, es)
    decreases es, 0
  {
    if es != [] {
      EncodableSupported(h, es[0]);
      EncodableSupportedSeq(h, es[1..]);
    }
  }

  lemma {:induction false} EncodableSupportedPairs(h: Handle, kvs: seq<Pair>)
    requires EncodablePairs(h, kvs)
    ensures SupportedPairs(h, kvs)
    decreases kvs, 0
  {
    if kvs != [] {
      EntryBelow(kvs);
      EncodableSupported(h, kvs[0].k);
      EncodableSupported(h, kvs[0].v);
      EncodableSupportedPairs(h, kvs[1..]);
    }
  }

  /** The two ends of a connection agree on the symbols defined so far. */
  ghost predicate InStep(h: Handle, d: Symbols, names: Names) {
    h.Binc? ==> B.Inverse(d, names)
  }

  // ------------------------------------------------------------------
  // Decoding inverts encoding

  lemma {:induction false} HeadRoundTrip(h: Handle, d: Symbols, names: Names, v: Value, suffix: seq<byte>)
    requires FitsHead(h, v) && InStep(h, d, names) && |EncHead(h, d, v).syms.ids| <= TWO16
    ensures var out := EncHead(h, d, v); var r := DecHead(h, names, out.bytes + suffix);
            && r.Ok? && r.rest == suffix && r.value.value == NormHead(h, v) && InStep(h, out.syms, r.value.names)
  {
    hide B.Inverse, B.EncPlain, B.NormHead, M.EncHead, M.NormHead, B.Naked, M.Naked, B.EncSym, B.Fits, M.Fits;
    if h.Msgpack? {
      M.HeadRoundTrip(h, v, suffix);
    } else {
      SymbolFits(d, names, v);
      B.HeadRoundTrip(d, names, v, suffix);
    }
  }

  lemma {:induction false} SymbolFits(d: Symbols, names: Names, v: Value)
    requires B.Inverse(d, names) && |B.EncHead(d, v).1.ids| <= TWO16
    ensures v.Sym? ==> |v.sym| <= 1 || v.sym in d.ids || d.s < TWO16
  {
  }

  /** A larger dictionary has at least as many symbols. */
  lemma {:induction false} FewerSymbols(d: Symbols, d2: Symbols)
    requires d.ids.Keys <= d2.ids.Keys
    ensures |d.ids| <= |d2.ids|
  {
    SubsetSize(d.ids.Keys, d2.ids.Keys);
  }

  /**
   * Decoding the encoding of v, followed by anything, returns the normal form of v, leaves exactly
   * what followed, and keeps the symbol dictionaries in step.
   */
  lemma {:induction false} RoundTrip(h: Handle, d: Symbols, names: Names, v: Value, suffix: seq<byte>)
    requires Encodable(h, v) && InStep(h, d, names) && |Enc(h, d, v).syms.ids| <= TWO16
    ensures var out := Enc(h, d, v); var r := Dec(h, names, out.bytes + suffix);
            && r.Ok? && r.rest == suffix && r.value.value == Norm(h, v) && InStep(h, out.syms, r.value.names)
    decreases v, 2
  {
    if v.Array? {
      ArrayRoundTrip(h, d, names, v, suffix);
    } else if v.Map? {
      MapValueRoundTrip(h, d, names, v, suffix);
    } else {
      hide InStep, EncHead, DecHead, NormHead, FitsHead;
      HeadRoundTrip(h, d, names, v, suffix);
      ContainerHead(h, v);
    }
  }

  lemma {:induction false} ArrayRoundTrip(h: Handle, d: Symbols, names: Names, v: Value, suffix: seq<byte>)
    requires v.Array? && Encodable(h, v) && InStep(h, d, names) && |Enc(h, d, v).syms.ids| <= TWO16
    ensures var out := Enc(h, d, v); var r := Dec(h, names, out.bytes + suffix);
            && r.Ok? && r.rest == suffix && r.value.value == Norm(h, v) && InStep(h, out.syms, r.value.names)
    decreases v, 1
  {
    hide InStep, EncHead, DecHead, NormHead, FitsHead, DecMap, EncPairs;
    var head := EncHead(h, d, v);
    var tail := EncSeq(h, head.syms, v.es);
    FewerSymbols(head.syms, tail.syms);
    assert Enc(h, d, v).bytes + suffix == head.bytes + (tail.bytes + suffix);
    HeadRoundTrip(h, d, names, v, tail.bytes + suffix);
    ContainerHead(h, v);
    SeqRoundTrip(h, head.syms, DecHead(h, names, head.bytes + (tail.bytes + suffix)).value.names, v.es, suffix);
  }

  lemma {:induction false} MapValueRoundTrip(h: Handle, d: Symbols, names: Names, v: Value, suffix: seq<byte>)
    requires v.Map? && Encodable(h, v) && InStep(h, d, names) && |Enc(h, d, v).syms.ids| <= TWO16
    ensures var out := Enc(h, d, v); var r := Dec(h, names, out.bytes + suffix);
            && r.Ok? && r.rest == suffix && r.value.value == Norm(h, v) && InStep(h, out.syms, r.value.names)
    decreases v, 1
  {
    hide InStep, EncHead, DecHead, NormHead, FitsHead, DecSeq, EncSeq;
    var head := EncHead(h, d, v);
    var tail := EncPairs(h, head.syms, v.kvs);
    FewerSymbols(head.syms, tail.syms);
    assert Enc(h, d, v).bytes + suffix == head.bytes + (tail.bytes + suffix);
    HeadRoundTrip(h, d, names, v, tail.bytes + suffix);
    ContainerHead(h, v);
    assert [] + NormPairs(h, v.kvs) == NormPairs(h, v.kvs);
    MapRoundTrip(h, head.syms, DecHead(h, names, head.bytes + (tail.bytes + suffix)).value.names, v.kvs, [], suffix);
  }

  lemma {:induction false} ContainerHead(h: Handle, v: Value)
    ensures NormHead(h, v) == (if v.Array? then ArrayHead(|v.es|) else if v.Map? then MapHead(|v.kvs|) else Leaf(NormLeaf(h, v)))
  {
  }

  lemma {:induction false} SeqRoundTrip(h: Handle, d: Symbols, names: Names, es: seq<Value>, suffix: seq<byte>)
    requires EncodableSeq(h, es) && InStep(h, d, names) && |EncSeq(h, d, es).syms.ids| <= TWO16
    ensures var out := EncSeq(h, d, es); var r := DecSeq(h, names, |es|, out.bytes + suffix);
            && r.Ok? && r.rest == suffix && r.value.value == NormSeq(h, es) && InStep(h, out.syms, r.value.names)
    decreases es, 0
  {
    hide InStep, Enc, Dec, Norm, Encodable;
    if es == [] {
      assert [] + suffix == suffix;
    } else {
      var first := Enc(h, d, es[0]);
      var tail := EncSeq(h, first.syms, es[1..]);
      FewerSymbols(first.syms, tail.syms);
      assert EncSeq(h, d, es).bytes + suffix == first.bytes + (tail.bytes + suffix);
      RoundTrip(h, d, names, es[0], tail.bytes + suffix);
      SeqRoundTrip(h, first.syms, Dec(h, names, first.bytes + (tail.bytes + suffix)).value.names, es[1..], suffix);
    }
  }

  lemma {:induction false} MapRoundTrip(h: Handle, d: Symbols, names: Names, kvs: seq<Pair>, m: seq<Pair>, suffix: seq<byte>)
    requires EncodablePairs(h, kvs) && InStep(h, d, names) && |EncPairs(h, d, kvs).syms.ids| <= TWO16
    requires DistinctKeys(m + NormPairs(h, kvs)) && HashableKeys(NormPairs(h, kvs))
    ensures var out := EncPairs(h, d, kvs); var r := DecMap(h, names, |kvs|, m, out.bytes + suffix);
            && r.Ok? && r.rest == suffix && r.value.value == m + NormPairs(h, kvs) && InStep(h, out.syms, r.value.names)
    decreases kvs, 0
  {
    hide InStep, Enc, Dec, Norm, Encodable, KeyOf, Hashable, DistinctKeys, DecOver;
    if kvs == [] {
      assert [] + suffix == suffix && m + [] == m;
    } else {
      EntryBelow(kvs);
      var k := Enc(h, d, kvs[0].k);
      var v := Enc(h, k.syms, kvs[0].v);
      var tail := EncPairs(h, v.syms, kvs[1..]);
      FewerSymbols(v.syms, tail.syms);
      FewerSymbols(k.syms, v.syms);
      assert EncPairs(h, d, kvs).bytes + suffix == k.bytes + (v.bytes + (tail.bytes + suffix));
      RoundTrip(h, d, names, kvs[0].k, v.bytes + (tail.bytes + suffix));
      var x := Dec(h, names, k.bytes + (v.bytes + (tail.bytes + suffix))).value;
      RoundTrip(h, k.syms, x.names, kvs[0].v, tail.bytes + suffix);
      var y := Dec(h, x.names, v.bytes + (tail.bytes + suffix)).value;
      var p := NormPairs(h, kvs)[0];
      assert NormPairs(h, kvs) == [p] + NormPairs(h, kvs[1..]);
      assert (m + [p]) + NormPairs(h, kvs[1..]) == m + NormPairs(h, kvs);
      NextKey(m, p, NormPairs(h, kvs[1..]));
      OtherKeys(h, kvs);
      MapRoundTrip(h, v.syms, y.names, kvs[1..], m + [p], suffix);
    }
  }

  lemma {:induction false} OtherKeys(h: Handle, kvs: seq<Pair>)
    requires kvs != [] && HashableKeys(NormPairs(h, kvs))
    ensures HashableKeys(NormPairs(h, kvs[1..])) && Hashable(NormPairs(h, kvs)[0].k)
  {
    hide Norm, KeyOf, Hashable;
    forall i | 0 <= i < |kvs| - 1 ensures Hashable(NormPairs(h, kvs[1..])[i].k) {
      assert NormPairs(h, kvs[1..])[i] == NormPairs(h, kvs)[i + 1];
    }
  }

  lemma {:induction false} NextKey(m: seq<Pair>, p: Pair, others: seq<Pair>)
    requires DistinctKeys((m + [p]) + others)
    ensures Find(m, p.k) == |m| && Put(m, p.k, p.v) == m + [p]
  {
    assert (m + [p]) + others == m + ([p] + others);
    FreshKey(m, [p] + others);
  }

  lemma {:induction false} FreshKey(m: seq<Pair>, rest: seq<Pair>)
    requires rest != [] && DistinctKeys(m + rest)
    ensures Find(m, rest[0].k) == |m|
  {
    var all := m + rest;
    assert all[|m|] == rest[0];
    forall i | 0 <= i < |m| ensures !KeyEq(m[i].k, rest[0].k) {
      assert all[i] == m[i];
    }
  }

  /** Strings and byte strings come back apart exactly in Binc, or in MessagePack with both flags on. */
  lemma {:induction false} StringsKeptApart(h: Handle)
    ensures (forall s, b :: Norm(h, Str(s)) != Norm(h, Bytes(b))) <==> h.Binc? || (h.writeExt && h.rawToString)
  {
    assert Norm(h, Str([])) == NormLeaf(h, Str([])) && Norm(h, Bytes([])) == NormLeaf(h, Bytes([]));
  }
}
