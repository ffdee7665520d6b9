/** The running encoder and decoder put together: values written to a buffer and read back from its bytes. */
module Transfer {
  import opened Bytes
  import opened Values
  import opened Codec
  import opened Streams
  import W = Writer
  import R = Reader
  import E = Encoder
  import D = Decoder

  /** One encoder, a growing buffer, and one encode call for each value, until one fails. */
  method WriteValues(h: Handle, vs: seq<Value>) returns (ok: bool, bs: seq<byte>)
    ensures ok == SupportedSeq(h, vs)
    ensures ok ==> bs == EncSeq(h, NO_SYMBOLS, vs).bytes
  {
    hide EncSeq;
    var w := new W.BytesEncWriter(64);
    var enc := new E.Encoder(h, w);
    ok := enc.EncSliceIntf(vs);
    bs := w.b[..w.c];
    assert ok ==> bs == [] + EncSeq(h, NO_SYMBOLS, vs).bytes;
  }

  /** One decoder over a byte string, and n decode calls. */
  method ReadValues(h: Handle, bs: seq<byte>, n: nat) returns (o: R.Outcome<seq<Value>>, left: nat)
    ensures match DecSeq(h, map[], n, bs)
            case Ok(x, rest) => o == R.Done(x.value) && left == |rest|
            case Err(e) => o == R.Panic(e)
  {
    hide DecSeq;
    var r := new R.BytesDecReader(bs);
    var dec := new D.Decoder(h, r);
    o := dec.DecSliceIntf(n);
    left := r.a;
  }

  /**
   * Values sent one after the other through one encoder and one decoder, which keep their symbol dictionaries
   * from one value to the next, arrive in their normal forms, in order, and use up the bytes written.
   */
  method SendAll(h: Handle, vs: seq<Value>) returns (got: seq<Value>, left: nat)
    requires EncodableSeq(h, vs) && |EncSeq(h, NO_SYMBOLS, vs).syms.ids| <= TWO16
    ensures got == NormSeq(h, vs) && left == 0
  {
    hide EncSeq, DecSeq, EncodableSeq, NormSeq, InStep;
    EncodableSupportedSeq(h, vs);
    var _, bs := WriteValues(h, vs);
    FreshInStep(h);
    assert bs + [] == bs;
    SeqRoundTrip(h, NO_SYMBOLS, map[], vs, []);
    var o, n := ReadValues(h, bs, |vs|);
    got, left := o.value, n;
  }
}
