/**
 * Decoding into an interface, or a []byte, that already holds something, and into a container of another kind: what is
 * replaced, what stays, what fails.
 */
module Updates {
  import opened Bytes
  import opened Values
  import opened Codec
  import opened Structs
  import opened Keys
  import Overflow
  import B = BincDriver
  import M = MsgpackDriver

  /** Nil clears the interface; anything else fails when it holds no slice, byte string or map. */
  lemma {:induction false} OverScalar(h: Handle, names: Names, was: Value, bs: seq<byte>)
    requires !was.Nil? && !was.Bytes? && !was.Array? && !was.Map? && bs != []
    ensures DecOver(h, names, was, bs) == if IsNilByte(h, bs[0]) then Ok(B.Named(Nil, names), bs[1..]) else Err(Populated)
  {
  }

  /** Only nil starts with the byte of nil. */
  lemma {:induction false} ContainerStarts(h: Handle, d: Symbols, v: Value, suffix: seq<byte>)
    requires FitsHead(h, v) && (v.Array? || v.Map? || v.Bytes? || v.Str?)
    ensures var e := Enc(h, d, v).bytes + suffix; e != [] && !IsNilByte(h, e[0])
  {
    hide M.EncLen, B.EncLen;
    if v.Bytes? || v.Str? {
      RawBytesRead(h, d, v, suffix);
    } else if v.Map? {
      MapLenRead(h, d, v, EncPairs(h, d, v.kvs).bytes + suffix);
    } else {
      ArrayStarts(h, |v.es|);
    }
  }

  lemma {:induction false} ArrayStarts(h: Handle, l: nat)
    ensures h.Msgpack? ==> M.EncLen(M.LIST, h.writeExt, l) != [] && M.EncLen(M.LIST, h.writeExt, l)[0] != M.NIL
    ensures h.Binc? ==> B.EncLen(0x60, l) != [] && B.EncLen(0x60, l)[0] != 0
  {
    hide BE;
  }

  /** An array onto a slice: one that is longer fails; the elements that come replace nils, the others stay. */
  lemma {:induction false} OverSlice(h: Handle, d: Symbols, names: Names, was: seq<Value>, v: Value, suffix: seq<byte>)
    requires v.Array? && Encodable(h, v) && InStep(h, d, names) && |Enc(h, d, v).syms.ids| <= TWO16
    requires forall i :: 0 <= i < |v.es| && i < |was| ==> was[i].Nil?
    ensures var out := Enc(h, d, v); var r := DecOver(h, names, Array(was), out.bytes + suffix);
            if |v.es| > |was| then r == Err(Populated) else Yields(h, out.syms, r, Array(NormSeq(h, v.es) + was[|v.es|..]), suffix)
  {
    hide InStep, EncHead, DecHead, NormHead, FitsHead, EncSeq, DecEachOnto, IsNilByte;
    var head := EncHead(h, d, v);
    var tail := EncSeq(h, head.syms, v.es);
    FewerSymbols(head.syms, tail.syms);
    var bs := head.bytes + (tail.bytes + suffix);
    assert Enc(h, d, v).bytes + suffix == bs;
    ContainerStarts(h, d, v, suffix);
    HeadRoundTrip(h, d, names, v, tail.bytes + suffix);
    ContainerHead(h, v);
    if |v.es| <= |was| {
      EachOntoNil(h, head.syms, DecHead(h, names, bs).value.names, was[..|v.es|], v.es, suffix);
    }
  }

  lemma {:induction false} EachOntoNil(h: Handle, d: Symbols, names: Names, was: seq<Value>, es: seq<Value>, suffix: seq<byte>)
    requires |was| == |es| && (forall i :: 0 <= i < |was| ==> was[i].Nil?)
    requires EncodableSeq(h, es) && InStep(h, d, names) && |EncSeq(h, d, es).syms.ids| <= TWO16
    ensures var out := EncSeq(h, d, es); Yields(h, out.syms, DecEachOnto(h, names, was, out.bytes + suffix), NormSeq(h, es), suffix)
    decreases |es|
  {
    hide InStep, Enc, Dec, Norm, Encodable;
    if es == [] {
      assert [] + suffix == suffix;
    } else {
      var first := Enc(h, d, es[0]);
      var tail := EncSeq(h, first.syms, es[1..]);
      FewerSymbols(first.syms, tail.syms);
      assert EncSeq(h, d, es).bytes + suffix == first.bytes + (tail.bytes + suffix);
      RoundTrip(h, d, names, es[0], tail.bytes + suffix);
      EachOntoNil(h, first.syms, Dec(h, names, first.bytes + (tail.bytes + suffix)).value.names, was[1..], es[1..], suffix);
    }
  }

  /** A map onto a map: its entries are stored on top of those there, one after the other. */
  lemma {:induction false} OverMap(h: Handle, d: Symbols, names: Names, was: seq<Pair>, v: Value, suffix: seq<byte>)
    requires v.Map? && Encodable(h, v) && InStep(h, d, names) && |Enc(h, d, v).syms.ids| <= TWO16
    requires forall i :: 0 <= i < |v.kvs| ==> !NormPairs(h, v.kvs)[i].k.Nil?
    ensures var out := Enc(h, d, v);
            Yields(h, out.syms, DecOver(h, names, Map(was), out.bytes + suffix), Map(PutAll(was, NormPairs(h, v.kvs))), suffix)
  {
    hide InStep, EncHead, DecHead, FitsHead, EncPairs, DecMerge, DecMapLen, IsNilByte, NormPairs, PutAll;
    var head := EncHead(h, d, v);
    HeadKeepsSymbols(h, d, v);
    var tail := EncPairs(h, d, v.kvs);
    assert Enc(h, d, v).bytes + suffix == head.bytes + (tail.bytes + suffix);
    MapLenRead(h, d, v, tail.bytes + suffix);
    MergeRoundTrip(h, d, names, v.kvs, was, suffix);
  }

  lemma {:induction false} MergeRoundTrip(h: Handle, d: Symbols, names: Names, kvs: seq<Pair>, m: seq<Pair>, suffix: seq<byte>)
    requires EncodablePairs(h, kvs) && InStep(h, d, names) && |EncPairs(h, d, kvs).syms.ids| <= TWO16
    requires HashableKeys(NormPairs(h, kvs)) && forall i :: 0 <= i < |kvs| ==> !NormPairs(h, kvs)[i].k.Nil?
    ensures var out := EncPairs(h, d, kvs);
            Yields(h, out.syms, DecMerge(h, names, |kvs|, m, out.bytes + suffix), PutAll(m, NormPairs(h, kvs)), suffix)
    decreases |kvs|
  {
    hide InStep, Enc, Dec, Norm, Encodable, KeyOf, Hashable, Put;
    if kvs == [] {
      assert [] + suffix == suffix;
    } else {
      EntryBelow(kvs);
      var k := Enc(h, d, kvs[0].k);
      var v := Enc(h, k.syms, kvs[0].v);
      var tail := EncPairs(h, v.syms, kvs[1..]);
      FewerSymbols(v.syms, tail.syms);
      FewerSymbols(k.syms, v.syms);
      assert EncPairs(h, d, kvs).bytes + suffix == k.bytes + (v.bytes + (tail.bytes + suffix));
      RoundTrip(h, d, names, kvs[0].k, v.bytes + (tail.bytes + suffix));
      var x := Dec(h, names, k.bytes + (v.bytes + (tail.bytes + suffix))).value;
      RoundTrip(h, k.syms, x.names, kvs[0].v, tail.bytes + suffix);
      var y := Dec(h, x.names, v.bytes + (tail.bytes + suffix)).value;
      var ps := NormPairs(h, kvs);
      assert ps == [ps[0]] + NormPairs(h, kvs[1..]) && ps[1..] == NormPairs(h, kvs[1..]);
      OtherKeys(h, kvs);
      MergeRoundTrip(h, v.syms, y.names, kvs[1..], Put(m, ps[0].k, ps[0].v), suffix);
    }
  }

  /** Bytes onto bytes: none leave what is there; others replace it, but not with another length in an interface. */
  lemma {:induction false} OntoBytes(h: Handle, d: Symbols, names: Names, was: seq<byte>, v: Value, suffix: seq<byte>)
    requires FitsHead(h, v) && (v.Bytes? || v.Str?)
    ensures var s := if v.Bytes? then v.bs else v.s; var e := Enc(h, d, v).bytes + suffix;
            && DecInto(h, names, KBytes, Bytes(was), e) == Ok(B.Named(Bytes(if s == [] then was else s), names), suffix)
            && DecOver(h, names, Bytes(was), e) == (if s != [] && |s| != |was| then Err(Populated) else Ok(B.Named(Bytes(if s == [] then was else s), names), suffix))
  {
    hide Enc, DecOctetsInto, IsRawByte, IsNilByte, DecRawBytes, FitsHead;
    RawBytesRead(h, d, v, suffix);
  }

  // ------------------------------------------------------------------
  // Containers of another kind

  /** The keys and values of a map, one after the other. */
  function Flat(kvs: seq<Pair>): (r: seq<Value>)
    ensures |r| == 2 * |kvs|
  {
    if kvs == [] then [] else [kvs[0].k, kvs[0].v] + Flat(kvs[1..])
  }

  lemma {:induction false} FlatBytes(h: Handle, d: Symbols, kvs: seq<Pair>)
    ensures EncSeq(h, d, Flat(kvs)) == EncPairs(h, d, kvs)
    decreases |kvs|
  {
    hide Enc;
    if kvs != [] {
      EntryBelow(kvs);
      var es := Flat(kvs);
      assert es[0] == kvs[0].k && es[1..][0] == kvs[0].v && es[1..][1..] == Flat(kvs[1..]);
      FlatBytes(h, Enc(h, Enc(h, d, kvs[0].k).syms, kvs[0].v).syms, kvs[1..]);
      assert EncSeq(h, Enc(h, d, es[0]).syms, es[1..]).bytes
          == Enc(h, Enc(h, d, es[0]).syms, kvs[0].v).bytes + EncPairs(h, Enc(h, Enc(h, d, kvs[0].k).syms, kvs[0].v).syms, kvs[1..]).bytes;
    }
  }

  lemma {:induction false} FlatEncodable(h: Handle, kvs: seq<Pair>)
    requires EncodablePairs(h, kvs)
    ensures EncodableSeq(h, Flat(kvs))
    decreases |kvs|
  {
    hide Encodable;
    if kvs != [] {
      EntryBelow(kvs);
      var es := Flat(kvs);
      assert es[0] == kvs[0].k && es[1..][0] == kvs[0].v && es[1..][1..] == Flat(kvs[1..]);
      FlatEncodable(h, kvs[1..]);
    }
  }

  /** A map read into a slice: its keys and values in turn, twice as many elements as entries. */
  lemma {:induction false} MapIntoSlice(h: Handle, d: Symbols, names: Names, elem: Kind, kvs: seq<Pair>, suffix: seq<byte>)
    requires Encodable(h, Map(kvs)) && InStep(h, d, names) && |Enc(h, d, Map(kvs)).syms.ids| <= TWO16
    requires KSlice(elem).Valid() && ConvertSeq(h, elem, Flat(kvs)).Some?
    ensures Yields(h, Enc(h, d, Map(kvs)).syms, DecField(h, names, KSlice(elem), Enc(h, d, Map(kvs)).bytes + suffix),
                   Array(ConvertSeq(h, elem, Flat(kvs)).value), suffix)
  {
    hide InStep, EncHead, DecHead, FitsHead, EncPairs, EncSeq, DecElems, ConvertSeq, Fresh, EncodablePairs, EncodableSeq, Flat;
    var v, es, n := Map(kvs), Flat(kvs), 2 * |kvs|;
    var head := EncHead(h, d, v);
    HeadKeepsSymbols(h, d, v);
    FlatBytes(h, d, kvs);
    FlatEncodable(h, kvs);
    var tail := EncPairs(h, d, kvs);
    assert Enc(h, d, v).bytes + suffix == head.bytes + (tail.bytes + suffix);
    FewerSymbols(d, tail.syms);
    HeadRoundTrip(h, d, names, v, tail.bytes + suffix);
    ContainerHead(h, v);
    ZerosFresh(elem, n);
    assert [] + Zeros(elem, n) == Zeros(elem, n) && Zeros(elem, n)[..n] == Zeros(elem, n) && Zeros(elem, n)[n..] == [];
    ElemsRoundTrip(h, d, DecHead(h, names, head.bytes + (tail.bytes + suffix)).value.names, elem, Zeros(elem, n), es, suffix);
    assert ConvertSeq(h, elem, es).value + [] == ConvertSeq(h, elem, es).value;
  }

  lemma {:induction false} ZerosFresh(elem: Kind, n: nat)
    ensures forall i :: 0 <= i < n ==> Fresh(elem, Zeros(elem, n)[i])
  {
  }

  /** The small integers of an array. */
  predicate Octets(es: seq<Value>) {
    forall i :: 0 <= i < |es| ==> (es[i].Uint? && es[i].u < 0x100) || (es[i].Int? && 0 <= es[i].i < 0x100)
  }

  function OctetsOf(es: seq<Value>): (r: seq<byte>)
    requires Octets(es)
    ensures |r| == |es|
  {
    seq(|es|, i requires 0 <= i < |es| => if es[i].Uint? then es[i].u else es[i].i)
  }

  lemma {:induction false} OctetRead(h: Handle, d: Symbols, names: Names, v: Value, suffix: seq<byte>)
    requires Octets([v]) && InStep(h, d, names)
    ensures DecOctet(h, Enc(h, d, v).bytes + suffix) == Ok(OctetsOf([v])[0], suffix) && Enc(h, d, v).syms == d
  {
    hide InStep, Enc, DecTyped, M.DecUint, B.DecUint;
    assert [v][0] == v;
    Overflow.Pow2Values();
    FitsSmall(h, v);
    IntField(h, d, names, KUint(8), v, suffix);
    EncNumberOf(h, d, v);
    SameAsUint8(h, names, Enc(h, d, v).bytes + suffix);
  }

  lemma {:induction false} FitsSmall(h: Handle, v: Value)
    requires Octets([v])
    ensures FitsHead(h, v) && ConvertScalar(h, KUint(8), v) == Some(Uint(OctetsOf([v])[0]))
  {
    assert [v][0] == v;
    Overflow.Pow2Values();
  }

  lemma {:induction false} SameAsUint8(h: Handle, names: Names, bs: seq<byte>)
    ensures match DecScalar(h, names, KUint(8), bs)
            case Ok(x, r) => x.value.Uint? && DecOctet(h, bs) == Ok(x.value.u % 256, r)
            case Err(e) => DecOctet(h, bs) == Err(e)
  {
    hide M.DecUint, B.DecUint;
  }

  lemma {:induction false} OctetsRead(h: Handle, d: Symbols, names: Names, es: seq<Value>, suffix: seq<byte>)
    requires Octets(es) && InStep(h, d, names)
    ensures DecOctets(h, |es|, EncSeq(h, d, es).bytes + suffix) == Ok(OctetsOf(es), suffix)
    decreases |es|
  {
    hide InStep, Enc, DecOctet;
    if es == [] {
      assert [] + suffix == suffix;
    } else {
      var first := Enc(h, d, es[0]);
      var tail := EncSeq(h, first.syms, es[1..]);
      assert EncSeq(h, d, es).bytes + suffix == first.bytes + (tail.bytes + suffix);
      assert Octets([es[0]]);
      OctetRead(h, d, names, es[0], tail.bytes + suffix);
      OctetsRead(h, d, names, es[1..], suffix);
      assert OctetsOf(es) == [OctetsOf([es[0]])[0]] + OctetsOf(es[1..]);
    }
  }

  /** An array of small integers into a []byte: its first bytes are replaced, and those that do not come stay. */
  lemma {:induction false} OctetsIntoBytes(h: Handle, d: Symbols, names: Names, was: seq<byte>, es: seq<Value>, suffix: seq<byte>)
    requires FitsHead(h, Array(es)) && Octets(es) && InStep(h, d, names) && |Enc(h, d, Array(es)).syms.ids| <= TWO16
    ensures var r := DecInto(h, names, KBytes, Bytes(was), Enc(h, d, Array(es)).bytes + suffix);
            r.Ok? && r.rest == suffix && r.value.value == Bytes(if |es| < |was| then OctetsOf(es) + was[|es|..] else OctetsOf(es))
  {
    hide InStep, EncHead, DecHead, FitsHead, EncSeq, DecOctets, IsNilByte, IsRawByte, DecRawBytes;
    var v := Array(es);
    var head := EncHead(h, d, v);
    var tail := EncSeq(h, head.syms, es);
    FewerSymbols(head.syms, tail.syms);
    var bs := head.bytes + (tail.bytes + suffix);
    assert Enc(h, d, v).bytes + suffix == bs;
    ContainerStarts(h, d, v, suffix);
    NotRaw(h, d, v, suffix);
    HeadRoundTrip(h, d, names, v, tail.bytes + suffix);
    ContainerHead(h, v);
    OctetsRead(h, head.syms, DecHead(h, names, bs).value.names, es, suffix);
  }

  lemma {:induction false} NotRaw(h: Handle, d: Symbols, v: Value, suffix: seq<byte>)
    requires FitsHead(h, v) && v.Array?
    ensures var e := Enc(h, d, v).bytes + suffix; e != [] && !IsRawByte(h, e[0])
  {
    hide BE;
  }

  /** Booleans from their two descriptors, in MessagePack also from the integers 0 and 1, and from nothing else. */
  lemma {:induction false} BoolsRead(bd: byte, rest: seq<byte>)
    ensures M.DecBool(bd, rest) == if bd == 0xc2 || bd == 0x00 then Ok(false, rest) else if bd == 0xc3 || bd == 0x01 then Ok(true, rest) else Err(BadDescriptor)
    ensures B.DecBool(bd, rest) == if bd == 0x01 then Ok(false, rest) else if bd == 0x02 then Ok(true, rest) else Err(BadDescriptor)
  {
  }

  /** Integers from no descriptor but those of integers; strings, in Binc, from those of strings and symbols. */
  lemma {:induction false} NothingElse(names: B.Names, bd: byte, rest: seq<byte>, bits: nat)
    requires 1 <= bits <= 64
    ensures 0x80 <= bd < 0xcc || 0xd4 <= bd < 0xe0 ==> M.DecInt(bd, rest, bits).Err? && M.DecUint(bd, rest, bits).Err?
    ensures bd != 7 && bd != 8 && !(0x10 <= bd < 0x30) && !(0x90 <= bd < 0xa0) ==> B.DecInt(bd, rest, bits).Err? && B.DecUint(bd, rest, bits).Err?
    ensures !(0x40 <= bd < 0x60) && !(0xb0 <= bd < 0xc0) ==> B.DecString(names, bd, rest).Err?
  {
  }

  /** A nil key fails in a map that sits in an interface. */
  lemma {:induction false} NilKeyFails(h: Handle, names: Names, n: nat, m: seq<Pair>, bs: seq<byte>)
    requires n > 0 && bs != [] && IsNilByte(h, bs[0])
    ensures DecMerge(h, names, n, m, bs).Err?
  {
    hide B.DecSym, B.DecTimestamp, B.DecExt, B.DecMagnitude, B.DecLen, B.DecRaw, B.DecFloat, M.ReadLen, M.ReadRaw, M.ReadExt;
  }
}
