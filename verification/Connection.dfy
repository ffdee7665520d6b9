/** MsgpackCodec: a flag, an encoder for one direction of a connection and a decoder for the other. */
module Connection {
  import opened Bytes
  import opened Values
  import opened Codec
  import opened Structs
  import opened Streams
  import opened Reader
  import B = BincDriver
  import E = Encoder
  import D = Decoder
  import SE = StructEncoder
  import SD = StructDecoder
  import W = Writer

  class MsgpackCodec {
    var closed: bool
    const enc: E.Encoder
    const dec: D.Decoder

    constructor (enc: E.Encoder, dec: D.Decoder)
      ensures this.enc == enc && this.dec == dec && !closed
    {
      this.enc, this.dec, closed := enc, dec, false;
    }

    /** Only the first Close reaches the connection and returns what that returns. */
    method Close(connResult: Option<Error>) returns (err: Option<Error>)
      modifies this
      ensures closed && err == if old(closed) then None else connResult
    {
      if closed {
        return None;
      }
      closed := true;
      return connResult;
    }

    /**
     * WriteRequest and WriteResponse: the header, then the body. When the body turns out not to be encodable the
     * header has been written, and it stays in the buffer for the next message to follow it.
     */
    method Write(asSymbols: bool, m: Message) returns (err: Option<Error>)
      requires enc.Valid()
      modifies enc.binc, enc.binc.b, enc.w, enc.w.b
      ensures enc.Valid() && (enc.w.b == old(enc.w.b) || fresh(enc.w.b))
      ensures closed ==> err == Some(EOF) && enc.w.Contents() == old(enc.w.Contents()) && enc.Syms() == old(enc.Syms())
      ensures !closed ==> err == if SupportedMessage(enc.h, asSymbols, m) then None else Some(Refused)
      ensures err.None? ==> enc.w.Contents() == old(enc.w.Contents()) + WriteAll(enc.h, old(enc.Syms()), asSymbols, [m]).bytes
      ensures err.None? ==> enc.Syms() == WriteAll(enc.h, old(enc.Syms()), asSymbols, [m]).syms
      ensures !closed && err.Some? && SupportedStruct(enc.h, asSymbols, m.header) ==>
                old(enc.w.Contents()) + EncStruct(enc.h, old(enc.Syms()), asSymbols, m.header).bytes <= enc.w.Contents()
      ensures !closed && m.body.Unsupported? && SupportedStruct(enc.h, asSymbols, m.header) ==>
                enc.w.Contents() == old(enc.w.Contents()) + EncStruct(enc.h, old(enc.Syms()), asSymbols, m.header).bytes
    {
      hide Enc, EncStruct, SupportedStruct, W.BytesEncWriter.Contents, W.BytesEncWriter.Valid;
      if closed {
        return Some(EOF);
      }
      OneMessage(enc.h, enc.Syms(), asSymbols, m);
      var ok := SE.EncodeStruct(enc, asSymbols, m.header);
      if !ok {
        return Some(Refused);
      }
      ok := enc.Encode(m.body);
      if !ok {
        return Some(Refused);
      }
      return None;
    }

    /** ReadRequestHeader and ReadResponseHeader. */
    method ReadHeader(ti: SD.TypeInfo) returns (o: Outcome<seq<Value>>)
      requires dec.Valid() && ti.Valid()
      modifies dec.r, dec.msgpack, dec.binc, dec.binc.b
      ensures dec.Valid() && (o.Done? ==> !dec.Held())
      ensures if closed then o == Panic(EOF) else D.Follows(DecStruct(dec.h, old(dec.Syms()), ti.sfip, old(dec.Input())), o, dec.Syms(), dec.Input())
    {
      if closed {
        return Panic(EOF);
      }
      o := SD.DecodeStruct(dec, ti);
    }

    /** ReadRequestBody and ReadResponseBody; with nothing to decode into, the value is decoded all the same. */
    method ReadBody(wanted: Option<Kind>) returns (o: Outcome<Option<Value>>)
      requires dec.Valid() && !dec.Held() && KindOf(wanted).Valid()
      modifies dec.r, dec.msgpack, dec.binc, dec.binc.b
      ensures dec.Valid() && (o.Done? ==> !dec.Held())
      ensures closed ==> o == Panic(EOF)
      ensures !closed ==> match DecField(dec.h, old(dec.Syms()), KindOf(wanted), old(dec.Input()))
                          case Ok(v, rest) => o == Done(if wanted.Some? then Some(v.value) else None) && dec.Syms() == v.names && dec.Input() == rest
                          case Err(e) => o == Panic(e)
    {
      hide DecField;
      if closed {
        return Panic(EOF);
      }
      var v :- SD.DecodeField(dec, KindOf(wanted));
      return Done(if wanted.Some? then Some(v) else None);
    }
  }

  predicate SupportedMessage(h: Handle, asSymbols: bool, m: Message) {
    SupportedStruct(h, asSymbols, m.header) && Supported(h, m.body)
  }

  lemma {:induction false} OneMessage(h: Handle, d: Symbols, asSymbols: bool, m: Message)
    ensures var header := EncStruct(h, d, asSymbols, m.header); var body := Enc(h, header.syms, m.body);
            WriteAll(h, d, asSymbols, [m]) == Out(header.bytes + body.bytes, body.syms)
  {
    hide Enc, EncStruct;
    assert [m][1..] == [];
    assert WriteAll(h, Enc(h, EncStruct(h, d, asSymbols, m.header).syms, m.body).syms, asSymbols, []).bytes == [];
  }

  lemma {:induction false} FirstMessage(h: Handle, d: Symbols, asSymbols: bool, msgs: seq<Message>)
    requires msgs != []
    ensures var first := WriteAll(h, d, asSymbols, [msgs[0]]); var others := WriteAll(h, first.syms, asSymbols, msgs[1..]);
            WriteAll(h, d, asSymbols, msgs) == Out(first.bytes + others.bytes, others.syms)
  {
    hide Enc, EncStruct;
    OneMessage(h, d, asSymbols, msgs[0]);
  }

  lemma {:induction false} NoMessages(h: Handle, d: Symbols, asSymbols: bool)
    ensures WriteAll(h, d, asSymbols, []) == Out([], d)
  {
  }

  /** Messages written one after the other on an open connection, until one is refused. */
  method WriteMessages(cc: MsgpackCodec, asSymbols: bool, msgs: seq<Message>) returns (ok: bool)
    requires cc.enc.Valid() && !cc.closed
    modifies cc.enc.binc, cc.enc.binc.b, cc.enc.w, cc.enc.w.b
    ensures cc.enc.Valid() && (cc.enc.w.b == old(cc.enc.w.b) || fresh(cc.enc.w.b))
    ensures ok <==> forall i :: 0 <= i < |msgs| ==> SupportedMessage(cc.enc.h, asSymbols, msgs[i])
    ensures ok ==> cc.enc.w.Contents() == old(cc.enc.w.Contents()) + WriteAll(cc.enc.h, old(cc.enc.Syms()), asSymbols, msgs).bytes
    ensures ok ==> cc.enc.Syms() == WriteAll(cc.enc.h, old(cc.enc.Syms()), asSymbols, msgs).syms
  {
    hide WriteAll, SupportedMessage, W.BytesEncWriter.Contents, W.BytesEncWriter.Valid;
    var enc := cc.enc;
    ghost var whole := WriteAll(enc.h, enc.Syms(), asSymbols, msgs);
    ghost var start := enc.w.Contents();
    assert msgs[0..] == msgs;
    for i := 0 to |msgs|
      invariant enc.Valid() && (enc.w.b == old(enc.w.b) || fresh(enc.w.b))
      invariant forall k :: 0 <= k < i ==> SupportedMessage(enc.h, asSymbols, msgs[k])
      invariant enc.w.Contents() + WriteAll(enc.h, enc.Syms(), asSymbols, msgs[i..]).bytes == start + whole.bytes
      invariant WriteAll(enc.h, enc.Syms(), asSymbols, msgs[i..]).syms == whole.syms
    {
      FirstMessage(enc.h, enc.Syms(), asSymbols, msgs[i..]);
      assert msgs[i..][0] == msgs[i] && msgs[i..][1..] == msgs[i + 1..];
      var err := cc.Write(asSymbols, msgs[i]);
      if err.Some? {
        return false;
      }
    }
    NoMessages(enc.h, enc.Syms(), asSymbols);
    return true;
  }

  /** The reader has got some messages: the whole is those followed by what is to come. */
  ghost predicate Goes(whole: Read<B.Named<seq<Received>>>, got: seq<Received>, rest: Read<B.Named<seq<Received>>>) {
    match rest
    case Ok(x, tail) => whole == Ok(B.Named(got + x.value, x.names), tail)
    case Err(e) => whole == Err(e)
  }

  /** One turn of the reader. */
  lemma {:induction false} OneRead(h: Handle, names: Names, fields: seq<Field>, wanted: seq<Option<Kind>>, bs: seq<byte>)
    requires ValidFields(fields) && ValidKinds(wanted)
    ensures wanted == [] ==> ReadAll(h, names, fields, wanted, bs) == Ok(B.Named([], names), bs)
    ensures wanted != [] ==>
              var header := DecStruct(h, names, fields, bs);
              if header.Err? then ReadAll(h, names, fields, wanted, bs) == Err(header.error)
              else
                var body := DecField(h, header.value.names, KindOf(wanted[0]), header.rest);
                if body.Err? then ReadAll(h, names, fields, wanted, bs) == Err(body.error)
                else Goes(ReadAll(h, names, fields, wanted, bs),
                          [Received(header.value.value, if wanted[0].Some? then Some(body.value.value) else None)],
                          ReadAll(h, body.value.names, fields, wanted[1..], body.rest))
  {
    hide DecField, DecStruct;
  }

  lemma {:induction false} GoesOn(whole: Read<B.Named<seq<Received>>>, got: seq<Received>, rest: Read<B.Named<seq<Received>>>,
      x: Received, rest2: Read<B.Named<seq<Received>>>)
    requires Goes(whole, got, rest) && Goes(rest, [x], rest2)
    ensures Goes(whole, got + [x], rest2)
  {
    if rest2.Ok? {
      assert got + ([x] + rest2.value.value) == (got + [x]) + rest2.value.value;
    }
  }

  /** Headers and bodies read in pairs from an open connection, the bodies that are not wanted to nowhere. */
  method ReadMessages(cc: MsgpackCodec, ti: SD.TypeInfo, wanted: seq<Option<Kind>>) returns (o: Outcome<seq<Received>>)
    requires cc.dec.Valid() && !cc.dec.Held() && ti.Valid() && ValidKinds(wanted) && !cc.closed
    modifies cc.dec.r, cc.dec.msgpack, cc.dec.binc, cc.dec.binc.b
    ensures cc.dec.Valid() && (o.Done? ==> !cc.dec.Held())
    ensures D.Follows(ReadAll(cc.dec.h, old(cc.dec.Syms()), ti.sfip, wanted, old(cc.dec.Input())), o, cc.dec.Syms(), cc.dec.Input())
  {
    hide ReadAll, DecField, DecStruct;
    var dec := cc.dec;
    ghost var whole := ReadAll(dec.h, dec.Syms(), ti.sfip, wanted, dec.Input());
    var got: seq<Received> := [];
    assert wanted[0..] == wanted && (whole.Ok? ==> got + whole.value.value == whole.value.value);
    for i := 0 to |wanted|
      invariant dec.Valid() && !dec.Held() && Goes(whole, got, ReadAll(dec.h, dec.Syms(), ti.sfip, wanted[i..], dec.Input()))
    {
      OneRead(dec.h, dec.Syms(), ti.sfip, wanted[i..], dec.Input());
      assert wanted[i..][1..] == wanted[i + 1..];
      ghost var rest := ReadAll(dec.h, dec.Syms(), ti.sfip, wanted[i..], dec.Input());
      var header :- cc.ReadHeader(ti);
      var body :- cc.ReadBody(wanted[i]);
      GoesOn(whole, got, rest, Received(header, body), ReadAll(dec.h, dec.Syms(), ti.sfip, wanted[i + 1..], dec.Input()));
      got := got + [Received(header, body)];
    }
    OneRead(dec.h, dec.Syms(), ti.sfip, [], dec.Input());
    assert got + [] == got;
    return Done(got);
  }

  method Outgoing(h: Handle, asSymbols: bool, msgs: seq<Message>) returns (bs: seq<byte>)
    requires forall i :: 0 <= i < |msgs| ==> SupportedMessage(h, asSymbols, msgs[i])
    ensures bs == WriteAll(h, NO_SYMBOLS, asSymbols, msgs).bytes
  {
    hide WriteAll;
    var w := new W.BytesEncWriter(64);
    var enc := new E.Encoder(h, w);
    var r := new BytesDecReader([]);
    var dec := new D.Decoder(h, r);
    var cc := new MsgpackCodec(enc, dec);
    var _ := WriteMessages(cc, asSymbols, msgs);
    bs := w.b[..w.c];
    assert bs == [] + WriteAll(h, NO_SYMBOLS, asSymbols, msgs).bytes;
  }

  method Incoming(h: Handle, ti: SD.TypeInfo, wanted: seq<Option<Kind>>, bs: seq<byte>) returns (o: Outcome<seq<Received>>, left: nat)
    requires ti.Valid() && ValidKinds(wanted)
    ensures match ReadAll(h, map[], ti.sfip, wanted, bs)
            case Ok(x, rest) => o == Done(x.value) && left == |rest|
            case Err(e) => o == Panic(e)
  {
    hide ReadAll;
    var r := new BytesDecReader(bs);
    var dec := new D.Decoder(h, r);
    var w := new W.BytesEncWriter(0);
    var enc := new E.Encoder(h, w);
    var cc := new MsgpackCodec(enc, dec);
    o := ReadMessages(cc, ti, wanted);
    left := r.a;
  }

  lemma {:induction false} WritableSupported(h: Handle, asSymbols: bool, fields: seq<Field>, wanted: Option<Kind>, m: Message)
    requires ValidFields(fields) && KindOf(wanted).Valid() && Writable(h, asSymbols, fields, wanted, m)
    ensures SupportedMessage(h, asSymbols, m)
  {
    hide Supported, Encodable, Convert;
    EncodableSupported(h, m.body);
    SentSupported(h, asSymbols, fields, Sent(m.header));
    MapSupported(h, Entries(asSymbols, Sent(m.header)));
  }

  lemma {:induction false} SentSupported(h: Handle, asSymbols: bool, fields: seq<Field>, fs: seq<OutField>)
    requires ValidFields(fields) && Compatible(h, asSymbols, fs, fields)
    ensures SupportedPairs(h, Entries(asSymbols, fs))
    decreases |fs|
  {
    hide Encodable, Convert, FitsHead, Supported;
    if fs != [] {
      var kvs := Entries(asSymbols, fs);
      assert kvs[1..] == Entries(asSymbols, fs[1..]);
      assert forall i :: 0 <= i < |fs| - 1 ==> fs[1..][i] == fs[i + 1];
      NameSupported(h, asSymbols, fs[0].name);
      EncodableSupported(h, fs[0].v);
      SentSupported(h, asSymbols, fields, fs[1..]);
    }
  }

  lemma {:induction false} NameSupported(h: Handle, asSymbols: bool, name: seq<byte>)
    ensures Supported(h, NameValue(asSymbols, name))
  {
  }

  lemma {:induction false} MapSupported(h: Handle, kvs: seq<Pair>)
    ensures Supported(h, Map(kvs)) == SupportedPairs(h, kvs)
  {
  }

  /**
   * The two ends of a connection: all the headers and wanted bodies arrive in order, whichever bodies are thrown
   * away, and the last read stops where the last write did.
   */
  method Exchange(h: Handle, asSymbols: bool, ti: SD.TypeInfo, msgs: seq<Message>, wanted: seq<Option<Kind>>) returns (got: seq<Received>, left: nat)
    requires ti.Valid() && ValidKinds(wanted) && |wanted| == |msgs| && |WriteAll(h, NO_SYMBOLS, asSymbols, msgs).syms.ids| <= TWO16
    requires forall i :: 0 <= i < |msgs| ==> Writable(h, asSymbols, ti.sfip, wanted[i], msgs[i])
    ensures got == Delivered(h, ti.sfip, wanted, msgs) && left == 0
  {
    hide WriteAll, ReadAll, Delivered, Writable, InStep, SupportedMessage;
    forall i | 0 <= i < |msgs| ensures SupportedMessage(h, asSymbols, msgs[i]) {
      WritableSupported(h, asSymbols, ti.sfip, wanted[i], msgs[i]);
    }
    var bs := Outgoing(h, asSymbols, msgs);
    FreshInStep(h);
    assert bs + [] == bs;
    StreamRoundTrip(h, NO_SYMBOLS, map[], asSymbols, ti.sfip, wanted, msgs, []);
    var o, n := Incoming(h, ti, wanted, bs);
    got, left := o.value, n;
  }
}
