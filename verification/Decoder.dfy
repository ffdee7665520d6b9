/** The decoder as the source runs it: one loop for each kind of container, over either driver. */
module Decoder {
  import opened Bytes
  import opened Values
  import opened Codec
  import opened Reader
  import MsgpackDecoder
  import BincDecoder
  import M = MsgpackDriver
  import B = BincDriver

  /** What the decoder returns, the symbols it then knows and what it leaves are those of the specification. */
  ghost predicate Follows<T>(spec: Read<B.Named<T>>, o: Outcome<T>, names: Names, rest: seq<byte>) {
    match spec
    case Ok(x, tail) => o == Done(x.value) && names == x.names && rest == tail
    case Err(e) => o == Panic(e)
  }

  /** A container decoder that has done some elements: the whole is what is done followed by what is to come. */
  ghost predicate Continues(whole: Read<B.Named<seq<Value>>>, done: seq<Value>, rest: Read<B.Named<seq<Value>>>) {
    match rest
    case Ok(x, tail) => whole == Ok(B.Named(done + x.value, x.names), tail)
    case Err(e) => whole == Err(e)
  }

  /** The container loop goes on with one more element. */
  lemma {:induction false} ContinuesOn(whole: Read<B.Named<seq<Value>>>, s: seq<Value>, rest: Read<B.Named<seq<Value>>>, x: Value, rest2: Read<B.Named<seq<Value>>>)
    requires Continues(whole, s, rest) && Continues(rest, [x], rest2)
    ensures Continues(whole, s + [x], rest2)
  {
    if rest2.Ok? {
      assert s + ([x] + rest2.value.value) == (s + [x]) + rest2.value.value;
    }
  }

  /** One turn of the loop over the elements of a slice of interfaces. */
  lemma {:induction false} EachStep(h: Handle, names: Names, es: seq<Value>, bs: seq<byte>)
    ensures es == [] ==> DecEachOnto(h, names, es, bs) == Ok(B.Named([], names), bs)
    ensures es != [] ==>
              match DecOnto(h, names, es[0], bs)
              case Ok(x, tail) => Continues(DecEachOnto(h, names, es, bs), [x.value], DecEachOnto(h, x.names, es[1..], tail))
              case Err(e) => DecEachOnto(h, names, es, bs) == Err(e)
  {
    hide DecOnto;
  }

  lemma {:induction false} OverMap(h: Handle, names: Names, m: seq<Pair>, bs: seq<byte>)
    requires bs != [] && !IsNilByte(h, bs[0])
    ensures match DecMapLen(h, bs[0], bs[1..])
            case Err(e) => DecOver(h, names, Map(m), bs) == Err(e)
            case Ok(n, r) =>
              match DecMerge(h, names, n, m, r)
              case Err(e) => DecOver(h, names, Map(m), bs) == Err(e)
              case Ok(x, r2) => DecOver(h, names, Map(m), bs) == Ok(B.Named(Map(x.value), x.names), r2)
  {
    hide DecMerge, DecMapLen, IsNilByte;
  }

  class Decoder {
    const h: Handle
    const r: BytesDecReader
    const msgpack: MsgpackDecoder.MsgpackDecDriver
    const binc: BincDecoder.BincDecDriver

    ghost predicate Valid()
      reads this, r, msgpack, binc
    {
      msgpack.r == r && binc.r == r && msgpack.Valid() && binc.Valid() && (h.Msgpack? ==> msgpack.h == h)
    }

    /** The looked-ahead descriptor, if any, and the bytes not read yet: its length bounds all further work. */
    ghost function Input(): (s: seq<byte>)
      requires r.Valid() && msgpack.r == r && binc.r == r
      reads this, r, msgpack, binc
    {
      if h.Msgpack? then msgpack.Input() else binc.Input()
    }

    ghost predicate Held()
      reads msgpack, binc
    {
      if h.Msgpack? then msgpack.bdRead else binc.bdRead
    }

    ghost function Syms(): Names
      reads binc
    {
      binc.m
    }

    constructor (h: Handle, r: BytesDecReader)
      requires r.Valid()
      ensures Valid() && this.h == h && this.r == r && Input() == r.Rest() && Syms() == map[] && !Held()
      ensures fresh(msgpack) && fresh(binc) && fresh(binc.b)
    {
      this.h := h;
      this.r := r;
      msgpack := new MsgpackDecoder.MsgpackDecDriver(r, if h.Msgpack? then h else Msgpack(false, false));
      binc := new BincDecoder.BincDecDriver(r);
    }

    method DecodeHead() returns (o: Outcome<Head>)
      requires Valid()
      modifies r, msgpack, binc, binc.b
      ensures Valid() && Follows(DecHead(h, old(Syms()), old(Input())), o, Syms(), Input()) && (o.Done? ==> !Held())
    {
      hide M.Naked, B.Naked;
      if h.Msgpack? {
        var _ :- msgpack.InitReadNext();
        o := msgpack.DecodeHead();
      } else {
        var _ :- binc.InitReadNext();
        o := binc.DecodeHead();
      }
    }

    /** initReadNext. */
    method LookAhead() returns (o: Outcome<()>)
      requires Valid()
      modifies r, msgpack, binc
      ensures Valid() && Input() == old(Input()) && Syms() == old(Syms())
      ensures o == (if old(Input()) == [] then Panic(EOF) else Done(())) && Held() == o.Done?
    {
      if h.Msgpack? {
        o := msgpack.InitReadNext();
      } else {
        o := binc.InitReadNext();
      }
    }

    /** tryDecodeAsNil. */
    method TakeNil() returns (nil: bool)
      requires Valid() && Held()
      modifies msgpack`bdRead, binc`bdRead
      ensures Valid() && nil == IsNilByte(h, old(Input())[0]) && Held() == !nil
      ensures Input() == if nil then old(Input())[1..] else old(Input())
    {
      if h.Msgpack? {
        nil := msgpack.bd == M.NIL;
        if nil { msgpack.bdRead := false; }
      } else {
        nil := binc.bd == 0;
        if nil { binc.bdRead := false; }
      }
    }

    /** What decodeValue does first. */
    method LookForNil() returns (o: Outcome<bool>)
      requires Valid() && !Held()
      modifies r, msgpack, binc, binc.b
      ensures Valid() && Syms() == old(Syms()) && (o.Panic? <==> old(Input()) == []) && (o.Panic? ==> o.error == EOF)
      ensures o.Done? ==> o.value == IsNilByte(h, old(Input())[0]) && Held() == !o.value
      ensures o.Done? ==> Input() == if o.value then old(Input())[1..] else old(Input())
    {
      hide IsNilByte;
      var _ :- LookAhead();
      var nil := TakeNil();
      return Done(nil);
    }

    /** decContLens. */
    method DecodeSliceLen() returns (o: Outcome<Option<nat>>)
      requires Valid()
      modifies r, msgpack, binc, binc.b
      ensures Valid() && (o.Done? ==> !Held())
      ensures Follows(DecSliceLen(h, old(Syms()), old(Input())), o, Syms(), Input())
    {
      hide DecHead;
      var head :- DecodeHead();
      match head {
        case ArrayHead(n) => return Done(Some(n));
        case MapHead(n) => return Done(Some(2 * n));
        case Leaf(v) =>
          if v.Nil? {
            return Done(None);
          }
          return Panic(WrongKind);
      }
    }

    method DecodeMapLen() returns (o: Outcome<nat>)
      requires Valid() && Held()
      modifies r, msgpack, binc, binc.b
      ensures Valid() && (o.Done? ==> !Held()) && Syms() == old(Syms())
      ensures match DecMapLen(h, old(Input())[0], old(Input())[1..])
              case Ok(n, rest) => o == Done(n) && Input() == rest
              case Err(e) => o == Panic(e)
    {
      hide M.ReadLen, B.DecLen;
      assert Input()[1..] == r.Rest();
      if h.Msgpack? {
        var n :- msgpack.ReadContainerLen(M.MAP);
        return Done(if n < 0 then 0 else n);
      } else {
        var n :- binc.ReadMapLen();
        return Done(n);
      }
    }

    /** One element of a []byte that comes as an array. */
    method DecodeOctet() returns (o: Outcome<byte>)
      requires Valid() && !Held()
      modifies r, msgpack, binc, binc.b
      ensures Valid() && (o.Done? ==> !Held()) && Syms() == old(Syms())
      ensures match DecOctet(h, old(Input())) case Ok(x, rest) => o == Done(x) && Input() == rest case Err(e) => o == Panic(e)
    {
      hide IsNilByte, M.DecUint, B.DecUint;
      var nil :- LookForNil();
      if nil {
        return Done(0);
      }
      assert Input()[1..] == r.Rest();
      var u;
      if h.Msgpack? { u :- msgpack.DecodeUint(8); } else { u :- binc.DecodeUint(8); }
      return Done(u % 256);
    }

    method DecodeOctets(n: nat) returns (o: Outcome<seq<byte>>)
      requires Valid() && !Held()
      modifies r, msgpack, binc, binc.b
      ensures Valid() && (o.Done? ==> !Held()) && Syms() == old(Syms())
      ensures match DecOctets(h, n, old(Input())) case Ok(s, rest) => o == Done(s) && Input() == rest case Err(e) => o == Panic(e)
    {
      hide DecOctet;
      ghost var whole := DecOctets(h, n, Input());
      var s: seq<byte> := [];
      assert whole.Ok? ==> s + whole.value == whole.value;
      for j := 0 to n
        invariant Valid() && !Held() && Syms() == old(Syms())
        invariant match DecOctets(h, n - j, Input()) case Ok(xs, tail) => whole == Ok(s + xs, tail) case Err(e) => whole == Err(e)
      {
        var x :- DecodeOctet();
        assert forall xs: seq<byte> :: s + ([x] + xs) == (s + [x]) + xs;
        s := s + [x];
      }
      assert s + [] == s;
      return Done(s);
    }

    /** A held descriptor tells a string or byte string. */
    method SeesRaw() returns (raw: bool)
      requires Valid() && Held()
      ensures raw == IsRawByte(h, Input()[0])
    {
      if h.Msgpack? {
        var t := M.TypeOf(h, msgpack.bd);
        raw := t.TString? || t.TBytes?;
      } else {
        raw := binc.vd == 4 || binc.vd == 5;
      }
    }

    /** decodeBytes. */
    method DecodeRawBytes() returns (o: Outcome<seq<byte>>)
      requires Valid() && Held() && IsRawByte(h, Input()[0])
      modifies r, msgpack, binc, binc.b
      ensures Valid() && (o.Done? ==> !Held()) && Syms() == old(Syms())
      ensures match DecRawBytes(h, old(Input())[0], old(Input())[1..])
              case Ok(s, rest) => o == Done(s) && Input() == rest
              case Err(e) => o == Panic(e)
    {
      hide M.ReadRaw, B.DecRaw;
      assert Input()[1..] == r.Rest();
      if h.Msgpack? {
        o := msgpack.DecodeRaw(M.BytesContainer(msgpack.bd));
      } else {
        o := binc.DecodeBytes();
      }
    }

    /** A []byte that holds b: at once, or element by element. */
    method DecodeBytesInto(b: seq<byte>, fixed: bool) returns (o: Outcome<seq<byte>>)
      requires Valid() && Held()
      modifies r, msgpack, binc, binc.b
      ensures Valid() && (o.Done? ==> !Held())
      ensures Follows(DecBytesInto(h, old(Syms()), b, fixed, old(Input())), o, Syms(), Input())
    {
      hide IsRawByte, DecRawBytes, DecOctetsInto;
      var raw := SeesRaw();
      if raw {
        var s :- DecodeRawBytes();
        if s == [] {
          return Done(b);
        }
        if fixed && |s| != |b| {
          return Panic(Populated);
        }
        return Done(s);
      }
      o := DecodeOctetsInto(b, fixed);
    }

    method DecodeOctetsInto(b: seq<byte>, fixed: bool) returns (o: Outcome<seq<byte>>)
      requires Valid() && Held()
      modifies r, msgpack, binc, binc.b
      ensures Valid() && (o.Done? ==> !Held())
      ensures Follows(DecOctetsInto(h, old(Syms()), b, fixed, old(Input())), o, Syms(), Input())
    {
      hide DecSliceLen, DecOctets;
      var n :- DecodeSliceLen();
      var l := if n.Some? then n.value else 0;
      if fixed && l > |b| {
        return Panic(Populated);
      }
      var os :- DecodeOctets(l);
      return Done(if l < |b| then os + b[l..] else os);
    }

    /** decode into a nil interface. */
    method Decode() returns (o: Outcome<Value>)
      requires Valid()
      modifies r, msgpack, binc, binc.b
      ensures Valid() && Follows(Dec(h, old(Syms()), old(Input())), o, Syms(), Input()) && (o.Done? ==> !Held())
      decreases |Input()|, 0
    {
      hide DecHead, DecSeq, DecMap;
      var head :- DecodeHead();
      match head {
        case Leaf(v) => return Done(v);
        case ArrayHead(n) => var es :- DecSliceIntf(n); return Done(Array(es));
        case MapHead(n) => var m :- DecMapIntfIntf(n); return Done(Map(m));
      }
    }

    method DecSliceIntf(n: nat) returns (o: Outcome<seq<Value>>)
      requires Valid() && !Held()
      modifies r, msgpack, binc, binc.b
      ensures Valid() && Follows(DecSeq(h, old(Syms()), n, old(Input())), o, Syms(), Input()) && (o.Done? ==> !Held())
      decreases |Input()|, 2
    {
      hide Dec;
      ghost var whole := DecSeq(h, Syms(), n, Input());
      var s: seq<Value> := [];
      assert whole.Ok? ==> s + whole.value.value == whole.value.value;
      for j := 0 to n
        invariant Valid() && !Held() && |Input()| <= old(|Input()|)
        invariant Continues(whole, s, DecSeq(h, Syms(), n - j, Input()))
      {
        var x :- Decode();
        assert forall xs: seq<Value> :: s + ([x] + xs) == (s + [x]) + xs;
        s := s + [x];
      }
      assert s + [] == s;
      return Done(s);
    }

    method DecMapIntfIntf(n: nat) returns (o: Outcome<seq<Pair>>)
      requires Valid() && !Held()
      modifies r, msgpack, binc, binc.b
      ensures Valid() && Follows(DecMap(h, old(Syms()), n, [], old(Input())), o, Syms(), Input()) && (o.Done? ==> !Held())
      decreases |Input()|, 2
    {
      hide Dec, DecOnto;
      ghost var whole := DecMap(h, Syms(), n, [], Input());
      var m: seq<Pair> := [];
      for j := 0 to n
        invariant Valid() && !Held() && |Input()| <= old(|Input()|)
        invariant whole == DecMap(h, Syms(), n - j, m, Input())
      {
        var x :- Decode();
        var k := KeyOf(x);
        if !Hashable(k) {
          return Panic(Unhashable);
        }
        var i := Find(m, k);
        var v :- DecodeOnto(if i < |m| then m[i].v else Nil);
        m := Put(m, k, v);
      }
      return Done(m);
    }

    /** decode into an interface, which may hold something. */
    method DecodeOnto(was: Value) returns (o: Outcome<Value>)
      requires Valid() && !Held()
      modifies r, msgpack, binc, binc.b
      ensures Valid() && Follows(DecOnto(h, old(Syms()), was, old(Input())), o, Syms(), Input()) && (o.Done? ==> !Held())
      decreases |Input()|, 1
    {
      hide Dec, DecOver;
      if was.Nil? {
        o := Decode();
      } else {
        o := DecodeOver(was);
      }
    }

    /** kInterface on an interface that holds something. */
    method DecodeOver(was: Value) returns (o: Outcome<Value>)
      requires Valid() && !Held() && !was.Nil?
      modifies r, msgpack, binc, binc.b
      ensures Valid() && Follows(DecOver(h, old(Syms()), was, old(Input())), o, Syms(), Input()) && (o.Done? ==> !Held())
      decreases |Input()|, 0, 2
    {
      hide DecBytesInto, DecSliceLen, DecMapLen, DecEachOnto, DecMerge, IsNilByte;
      var nil :- LookForNil();
      if nil {
        return Done(Nil);
      }
      o := DecodeHeldOver(was);
    }

    method DecodeHeldOver(was: Value) returns (o: Outcome<Value>)
      requires Valid() && Held() && !was.Nil? && !IsNilByte(h, Input()[0])
      modifies r, msgpack, binc, binc.b
      ensures Valid() && Follows(DecOver(h, old(Syms()), was, old(Input())), o, Syms(), Input()) && (o.Done? ==> !Held())
      decreases |Input()|, 0, 1
    {
      hide DecBytesInto, DecSliceLen, DecMapLen, DecEachOnto, DecMerge, IsNilByte;
      if was.Bytes? {
        var s :- DecodeBytesInto(was.bs, true);
        return Done(Bytes(s));
      } else if was.Array? {
        o := DecodeOverSlice(was);
      } else if was.Map? {
        o := DecodeOverMap(was);
      } else {
        return Panic(Populated);
      }
    }

    method DecodeOverSlice(was: Value) returns (o: Outcome<Value>)
      requires Valid() && Held() && was.Array? && !IsNilByte(h, Input()[0])
      modifies r, msgpack, binc, binc.b
      ensures Valid() && Follows(DecOver(h, old(Syms()), was, old(Input())), o, Syms(), Input()) && (o.Done? ==> !Held())
      decreases |Input()|, 0, 0
    {
      hide DecSliceLen, DecEachOnto, IsNilByte;
      var n :- DecodeSliceLen();
      var l := if n.Some? then n.value else 0;
      if l > |was.es| {
        return Panic(Populated);
      }
      var vs :- DecodeEachOnto(was.es[..l]);
      return Done(Array(vs + was.es[l..]));
    }

    method DecodeOverMap(was: Value) returns (o: Outcome<Value>)
      requires Valid() && Held() && was.Map? && !IsNilByte(h, Input()[0])
      modifies r, msgpack, binc, binc.b
      ensures Valid() && Follows(DecOver(h, old(Syms()), was, old(Input())), o, Syms(), Input()) && (o.Done? ==> !Held())
      decreases |Input()|, 0, 0
    {
      hide DecOver, DecMapLen, DecMerge, IsNilByte;
      OverMap(h, Syms(), was.kvs, Input());
      var n :- DecodeMapLen();
      var m :- DecodeMerge(n, was.kvs);
      return Done(Map(m));
    }

    method DecodeEachOnto(es: seq<Value>) returns (o: Outcome<seq<Value>>)
      requires Valid() && !Held()
      modifies r, msgpack, binc, binc.b
      ensures Valid() && Follows(DecEachOnto(h, old(Syms()), es, old(Input())), o, Syms(), Input()) && (o.Done? ==> !Held())
      decreases |Input()|, 2
    {
      hide DecOnto, DecEachOnto;
      ghost var whole := DecEachOnto(h, Syms(), es, Input());
      var s: seq<Value> := [];
      assert whole.Ok? ==> s + whole.value.value == whole.value.value;
      assert es[0..] == es;
      for j := 0 to |es|
        invariant Valid() && !Held() && |Input()| <= old(|Input()|)
        invariant Continues(whole, s, DecEachOnto(h, Syms(), es[j..], Input()))
      {
        assert es[j..][0] == es[j] && es[j..][1..] == es[j + 1..];
        EachStep(h, Syms(), es[j..], Input());
        ghost var rest := DecEachOnto(h, Syms(), es[j..], Input());
        var x :- DecodeOnto(es[j]);
        ContinuesOn(whole, s, rest, x, DecEachOnto(h, Syms(), es[j + 1..], Input()));
        s := s + [x];
      }
      EachStep(h, Syms(), [], Input());
      assert s + [] == s;
      return Done(s);
    }

    /** kMap on a map in an interface. */
    method DecodeMerge(n: nat, m0: seq<Pair>) returns (o: Outcome<seq<Pair>>)
      requires Valid() && !Held()
      modifies r, msgpack, binc, binc.b
      ensures Valid() && Follows(DecMerge(h, old(Syms()), n, m0, old(Input())), o, Syms(), Input()) && (o.Done? ==> !Held())
      decreases |Input()|, 2
    {
      hide Dec;
      ghost var whole := DecMerge(h, Syms(), n, m0, Input());
      var m := m0;
      for j := 0 to n
        invariant Valid() && !Held() && |Input()| <= old(|Input()|)
        invariant whole == DecMerge(h, Syms(), n - j, m, Input())
      {
        var x :- Decode();
        var k := KeyOf(x);
        if k.Nil? || !Hashable(k) {
          return Panic(Unhashable);
        }
        var v :- Decode();
        m := Put(m, k, v);
      }
      return Done(m);
    }
  }
}
