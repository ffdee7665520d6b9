/** The encoder as the source runs it: one loop for each kind of container, over either driver. */
module Encoder {
  import opened Bytes
  import opened Values
  import opened Codec
  import opened Writer
  import MsgpackEncoder
  import BincEncoder

  lemma {:induction false} SeqSnoc(h: Handle, d: Symbols, es: seq<Value>, x: Value)
    ensures var a := EncSeq(h, d, es); var b := Enc(h, a.syms, x); EncSeq(h, d, es + [x]) == Out(a.bytes + b.bytes, b.syms)
    decreases |es|
  {
    hide Enc;
    if es == [] {
      assert [] + [x] == [x] && [x][1..] == [];
      assert EncSeq(h, Enc(h, d, x).syms, []).bytes == [];
    } else {
      var first := Enc(h, d, es[0]);
      SeqSnoc(h, first.syms, es[1..], x);
      assert (es + [x])[1..] == es[1..] + [x];
    }
  }

  lemma {:induction false} PairsSnoc(h: Handle, d: Symbols, kvs: seq<Pair>, x: Pair)
    ensures var a := EncPairs(h, d, kvs); var k := Enc(h, a.syms, x.k); var v := Enc(h, k.syms, x.v);
            EncPairs(h, d, kvs + [x]) == Out(a.bytes + k.bytes + v.bytes, v.syms)
    decreases |kvs|
  {
    hide Enc;
    if kvs == [] {
      assert [] + [x] == [x] && [x][1..] == [];
    } else {
      var k := Enc(h, d, kvs[0].k);
      var v := Enc(h, k.syms, kvs[0].v);
      PairsSnoc(h, v.syms, kvs[1..], x);
      assert (kvs + [x])[1..] == kvs[1..] + [x];
    }
  }

  class Encoder {
    const h: Handle
    const w: BytesEncWriter
    const msgpack: MsgpackEncoder.MsgpackEncDriver
    const binc: BincEncoder.BincEncDriver

    ghost predicate Valid()
      reads this, binc, w
    {
      binc.w == w && msgpack.w == w && msgpack.h == h && binc.Valid()
    }

    /** The symbols numbered so far; MessagePack leaves them alone. */
    ghost function Syms(): Symbols
      reads binc
    {
      binc.Syms()
    }

    constructor (h: Handle, w: BytesEncWriter)
      requires w.Valid()
      ensures Valid() && fresh(binc) && fresh(binc.b) && this.h == h && this.w == w && w.Contents() == old(w.Contents()) && Syms() == NO_SYMBOLS
    {
      this.h := h;
      this.w := w;
      msgpack := new MsgpackEncoder.MsgpackEncDriver(w, h);
      binc := new BincEncoder.BincEncDriver(w);
    }

    method EncodeHead(v: Value)
      requires Valid()
      modifies binc, binc.b, w, w.b
      ensures Valid() && (w.b == old(w.b) || fresh(w.b))
      ensures w.Contents() == old(w.Contents()) + EncHead(h, old(Syms()), v).bytes
      ensures Syms() == EncHead(h, old(Syms()), v).syms
    {
      if h.Msgpack? {
        msgpack.EncodeHead(v);
      } else {
        binc.EncodeHead(v);
      }
    }

    /**
     * encode: on success what has been appended is the encoding that the specification gives. It fails exactly on
     * values with an unsupported part; what was in the buffer stays there, with what was written before that part.
     */
    method Encode(v: Value) returns (ok: bool)
      requires Valid()
      modifies binc, binc.b, w, w.b
      ensures Valid() && (w.b == old(w.b) || fresh(w.b)) && ok == Supported(h, v)
      ensures ok ==> w.Contents() == old(w.Contents()) + Enc(h, old(Syms()), v).bytes && Syms() == Enc(h, old(Syms()), v).syms
      ensures old(w.Contents()) <= w.Contents()
      ensures v.Unsupported? ==> w.Contents() == old(w.Contents()) && Syms() == old(Syms())
      decreases v, 1
    {
      hide Codec.EncHead, EncSeq, EncPairs;
      if v.Unsupported? || (v.Time? && h.Msgpack?) {
        return false;
      }
      ok := true;
      EncodeHead(v);
      match v {
        case Array(es) => ok := EncSliceIntf(es);
        case Map(kvs) => ok := EncMapIntfIntf(kvs);
        case _ =>
      }
    }

    method EncSliceIntf(es: seq<Value>) returns (ok: bool)
      requires Valid()
      modifies binc, binc.b, w, w.b
      ensures Valid() && (w.b == old(w.b) || fresh(w.b)) && ok == SupportedSeq(h, es)
      ensures ok ==> w.Contents() == old(w.Contents()) + EncSeq(h, old(Syms()), es).bytes && Syms() == EncSeq(h, old(Syms()), es).syms
      ensures old(w.Contents()) <= w.Contents()
      decreases es, 0
    {
      hide Enc, EncSeq, Supported, BytesEncWriter.Contents, BytesEncWriter.Valid;
      NoElements(h, Syms());
      assert es[0..] == es;
      for j := 0 to |es|
        invariant Valid() && (w.b == old(w.b) || fresh(w.b))
        invariant SupportedSeq(h, es[j..]) == SupportedSeq(h, es)
        invariant w.Contents() == old(w.Contents()) + EncSeq(h, old(Syms()), es[..j]).bytes
        invariant Syms() == EncSeq(h, old(Syms()), es[..j]).syms
      {
        SeqSnoc(h, old(Syms()), es[..j], es[j]);
        assert es[..j] + [es[j]] == es[..j + 1];
        assert es[j..][0] == es[j] && es[j..][1..] == es[j + 1..];
        var done := Encode(es[j]);
        if !done {
          return false;
        }
      }
      assert es[..|es|] == es;
      return true;
    }

    method EncMapIntfIntf(kvs: seq<Pair>) returns (ok: bool)
      requires Valid()
      modifies binc, binc.b, w, w.b
      ensures Valid() && (w.b == old(w.b) || fresh(w.b)) && ok == SupportedPairs(h, kvs)
      ensures ok ==> w.Contents() == old(w.Contents()) + EncPairs(h, old(Syms()), kvs).bytes && Syms() == EncPairs(h, old(Syms()), kvs).syms
      ensures old(w.Contents()) <= w.Contents()
      decreases kvs, 0
    {
      hide Enc, EncPairs, Supported, BytesEncWriter.Contents, BytesEncWriter.Valid;
      NoElements(h, Syms());
      assert kvs[0..] == kvs;
      for j := 0 to |kvs|
        invariant Valid() && (w.b == old(w.b) || fresh(w.b))
        invariant SupportedPairs(h, kvs[j..]) == SupportedPairs(h, kvs)
        invariant w.Contents() == old(w.Contents()) + EncPairs(h, old(Syms()), kvs[..j]).bytes
        invariant Syms() == EncPairs(h, old(Syms()), kvs[..j]).syms
      {
        PairsSnoc(h, old(Syms()), kvs[..j], kvs[j]);
        assert kvs[..j] + [kvs[j]] == kvs[..j + 1];
        assert kvs[j..][0] == kvs[j] && kvs[j..][1..] == kvs[j + 1..];
        assert (kvs decreases to kvs[j]) && (kvs[j] decreases to kvs[j].k) && (kvs[j] decreases to kvs[j].v);
        var done := Encode(kvs[j].k);
        if !done {
          return false;
        }
        done := Encode(kvs[j].v);
        if !done {
          return false;
        }
      }
      assert kvs[..|kvs|] == kvs;
      return true;
    }
  }

  lemma {:induction false} NoElements(h: Handle, d: Symbols)
    ensures EncSeq(h, d, []) == Out([], d) && EncPairs(h, d, []) == Out([], d)
  {
  }
}
