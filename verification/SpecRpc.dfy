/**
 * The MessagePack-RPC codec: a message is one four-item array, but its header is parsed by hand so that
 * the body can be decoded on its own later.
 */
module SpecRpc {
  import opened Bytes
  import opened Values
  import opened Codec
  import opened Overflow
  import M = MsgpackDriver

  const FOUR_ITEMS: byte := 0x94

  /** WriteRequest: the arguments are an array, of one element unless the caller passes several. */
  function RequestItems(seqNo: nat, method_: seq<byte>, args: seq<Value>): seq<Value> {
    [Int(0), Uint(seqNo % TWO32), Str(method_), Array(args)]
  }

  /** WriteResponse: no error is nil, and an error suppresses the body. */
  function ResponseItems(seqNo: nat, error: seq<byte>, body: Value): seq<Value> {
    [Int(1), Uint(seqNo % TWO32), if error == [] then Nil else Str(error), if error == [] then body else Nil]
  }

  function Write(h: Handle, items: seq<Value>): seq<byte> {
    Enc(h, NO_SYMBOLS, Array(items)).bytes
  }

  /** decode into an unsigned integer variable: nil is not accepted. */
  function ReadUnsigned(bs: seq<byte>, bits: nat): Read<nat>
    requires bits <= 64
  {
    var (bd, r) :- ReadN1(bs);
    M.DecUint(bd, r, bits)
  }

  /** decode into a string variable: nil is the empty string. */
  function ReadText(bs: seq<byte>): Read<seq<byte>> {
    var (bd, r) :- ReadN1(bs);
    M.ReadRaw(M.STR, bd, r)
  }

  datatype Header = Header(seqNo: nat, text: seq<byte>)

  /** parseCustomHeader: the array byte, the message type, the sequence number, the method or error. */
  function ParseHeader(expected: nat, bs: seq<byte>): Read<Header> {
    var (b, r) :- ReadN1(bs);
    if b != FOUR_ITEMS then Err(WrongHeader)
    else
      var (kind, r2) :- ReadUnsigned(r, 8);
      if kind != expected then Err(WrongHeader)
      else
        var (n, r3) :- ReadUnsigned(r2, 64);
        var (s, r4) :- ReadText(r3);
        Ok(Header(n, s), r4)
  }

  // ------------------------------------------------------------------

  /** The four items laid out one after another behind the array byte. */
  lemma {:induction false} FourItems(h: Handle, a: Value, b: Value, c: Value, e: Value, suffix: seq<byte>)
    requires h.Msgpack?
    ensures var d := NO_SYMBOLS;
            Write(h, [a, b, c, e]) + suffix
            == [FOUR_ITEMS] + (Enc(h, d, a).bytes + (Enc(h, d, b).bytes + (Enc(h, d, c).bytes + (Enc(h, d, e).bytes + suffix))))
  {
    hide Enc;
    var d := NO_SYMBOLS;
    SameSymbols(h, a); SameSymbols(h, b); SameSymbols(h, c); SameSymbols(h, e);
    var items := [a, b, c, e];
    assert items[1..] == [b, c, e] && [b, c, e][1..] == [c, e] && [c, e][1..] == [e] && [e][1..] == [];
    EncArray(h, items);
    assert EncSeq(h, d, [e]).bytes == Enc(h, d, e).bytes + [];
    assert EncSeq(h, d, [c, e]).bytes == Enc(h, d, c).bytes + EncSeq(h, d, [e]).bytes;
    assert EncSeq(h, d, [b, c, e]).bytes == Enc(h, d, b).bytes + EncSeq(h, d, [c, e]).bytes;
    assert EncSeq(h, d, items).bytes == Enc(h, d, a).bytes + EncSeq(h, d, [b, c, e]).bytes;
  }

  lemma {:induction false} EncArray(h: Handle, items: seq<Value>)
    requires h.Msgpack? && |items| == 4
    ensures Write(h, items) == [FOUR_ITEMS] + EncSeq(h, NO_SYMBOLS, items).bytes
  {
    hide EncSeq;
  }

  /** MessagePack has no symbols, so encoding leaves the (empty) dictionary alone. */
  lemma {:induction false} SameSymbols(h: Handle, v: Value)
    requires h.Msgpack?
    ensures Enc(h, NO_SYMBOLS, v).syms == NO_SYMBOLS
    decreases v, 1
  {
    match v
    case Array(es) => SameSymbolsSeq(h, es);
    case Map(kvs) => SameSymbolsPairs(h, kvs);
    case _ =>
  }

  lemma {:induction false} SameSymbolsSeq(h: Handle, es: seq<Value>)
    requires h.Msgpack?
    ensures EncSeq(h, NO_SYMBOLS, es).syms == NO_SYMBOLS
    decreases es, 0
  {
    if es != [] {
      SameSymbols(h, es[0]);
      SameSymbolsSeq(h, es[1..]);
    }
  }

  lemma {:induction false} SameSymbolsPairs(h: Handle, kvs: seq<Pair>)
    requires h.Msgpack?
    ensures EncPairs(h, NO_SYMBOLS, kvs).syms == NO_SYMBOLS
    decreases kvs, 0
  {
    if kvs != [] {
      EntryBelow(kvs);
      SameSymbols(h, kvs[0].k);
      SameSymbols(h, kvs[0].v);
      SameSymbolsPairs(h, kvs[1..]);
    }
  }

  lemma {:induction false} UnsignedRead(h: Handle, v: Value, bits: nat, suffix: seq<byte>)
    requires h.Msgpack? && (v.Int? || v.Uint?) && 1 <= bits <= 64
    requires var z := if v.Int? then v.i else v.u; 0 <= z < TWO63 && z < Pow2(bits)
    ensures ReadUnsigned(Enc(h, NO_SYMBOLS, v).bytes + suffix, bits) == Ok(if v.Int? then v.i else v.u, suffix)
  {
    hide M.DecUint, Pow2;
    var z := if v.Int? then v.i else v.u;
    M.DecUintExact(z, bits, suffix);
    M.NumberRoundTrip(z, suffix);
  }

  lemma {:induction false} TextRead(h: Handle, v: Value, suffix: seq<byte>)
    requires h.Msgpack? && (v.Nil? || (v.Str? && |v.s| < TWO32))
    ensures ReadText(Enc(h, NO_SYMBOLS, v).bytes + suffix) == Ok(if v.Nil? then [] else v.s, suffix)
  {
    if v.Nil? {
      assert ([M.NIL] + suffix)[1..] == suffix;
    } else {
      M.RawRoundTrip(M.STR, h.writeExt, v.s, suffix);
    }
  }

  /** The hand-written parse of a message of either kind stops right in front of the body. */
  lemma {:induction false} HeaderOfMessage(h: Handle, kind: nat, n: nat, text: Value, body: Value, suffix: seq<byte>)
    requires h.Msgpack? && kind <= 1 && n < TWO32 && (text.Nil? || (text.Str? && |text.s| < TWO32))
    ensures ParseHeader(kind, Write(h, [Int(kind), Uint(n), text, body]) + suffix)
         == Ok(Header(n, if text.Nil? then [] else text.s), Enc(h, NO_SYMBOLS, body).bytes + suffix)
  {
    hide Enc, ReadUnsigned, ReadText, Write;
    var d := NO_SYMBOLS;
    FourItems(h, Int(kind), Uint(n), text, body, suffix);
    var r4 := Enc(h, d, body).bytes + suffix;
    var r3 := Enc(h, d, text).bytes + r4;
    var r2 := Enc(h, d, Uint(n)).bytes + r3;
    var r1 := Enc(h, d, Int(kind)).bytes + r2;
    assert ([FOUR_ITEMS] + r1)[1..] == r1;
    assert Pow2(8) == 256 && TWO63 <= Pow2(64) by { Pow2Values(); }
    UnsignedRead(h, Int(kind), 8, r2);
    UnsignedRead(h, Uint(n), 64, r3);
    TextRead(h, text, r4);
  }

  lemma {:induction false} ItemsEncodable(h: Handle, a: Value, b: Value, c: Value, e: Value)
    requires h.Msgpack? && Encodable(h, a) && Encodable(h, b) && Encodable(h, c) && Encodable(h, e)
    ensures Encodable(h, Array([a, b, c, e]))
    ensures Norm(h, Array([a, b, c, e])) == Array([Norm(h, a), Norm(h, b), Norm(h, c), Norm(h, e)])
  {
    hide Encodable, Norm;
    EncodableArray(h, [a, b, c, e]);
    assert [a, b, c, e][1..] == [b, c, e] && [b, c, e][1..] == [c, e] && [c, e][1..] == [e] && [e][1..] == [];
    assert EncodableSeq(h, []) && EncodableSeq(h, [e]) && EncodableSeq(h, [c, e]) && EncodableSeq(h, [b, c, e]);
    assert NormSeq(h, [e]) == [Norm(h, e)];
    assert NormSeq(h, [c, e]) == [Norm(h, c)] + NormSeq(h, [e]);
    assert NormSeq(h, [b, c, e]) == [Norm(h, b)] + NormSeq(h, [c, e]);
  }

  lemma {:induction false} EncodableArray(h: Handle, es: seq<Value>)
    requires h.Msgpack? && |es| < TWO32
    ensures Encodable(h, Array(es)) == EncodableSeq(h, es)
    ensures Norm(h, Array(es)) == Array(NormSeq(h, es))
  {
  }

  /**
   * Parsing the header by hand and then decoding the body gives the four items that decoding the whole
   * message as one array gives, and both stop at the end of the message.
   */
  lemma {:induction false} HeaderThenBody(h: Handle, kind: nat, n: nat, text: Value, body: Value, suffix: seq<byte>)
    requires h.Msgpack? && kind <= 1 && n < TWO32 && (text.Nil? || (text.Str? && |text.s| < TWO32)) && Encodable(h, body)
    ensures var bs := Write(h, [Int(kind), Uint(n), text, body]) + suffix;
            var whole, header := Dec(h, map[], bs), ParseHeader(kind, bs);
            && whole.Ok? && whole.rest == suffix
            && whole.value.value == Array([Int(kind), Norm(h, Uint(n)), Norm(h, text), Norm(h, body)])
            && header.Ok? && header.value == Header(n, if text.Nil? then [] else text.s)
            && var r := Dec(h, map[], header.rest); r.Ok? && r.value.value == Norm(h, body) && r.rest == suffix
  {
    hide Enc, Dec, Norm, ParseHeader;
    SmallEncodable(h, Int(kind)); SmallEncodable(h, Uint(n)); SmallEncodable(h, text);
    ItemsEncodable(h, Int(kind), Uint(n), text, body);
    KindNorm(h, kind);
    HeaderOfMessage(h, kind, n, text, body, suffix);
    SameSymbols(h, body);
    SameSymbols(h, Array([Int(kind), Uint(n), text, body]));
    RoundTrip(h, NO_SYMBOLS, map[], Array([Int(kind), Uint(n), text, body]), suffix);
    RoundTrip(h, NO_SYMBOLS, map[], body, suffix);
  }

  lemma {:induction false} SmallEncodable(h: Handle, v: Value)
    requires h.Msgpack? && M.Fits(h, v) && (v.Int? || v.Uint? || v.Nil? || v.Str?)
    ensures Encodable(h, v)
  {
  }

  lemma {:induction false} KindNorm(h: Handle, kind: nat)
    requires h.Msgpack? && kind <= 1
    ensures Norm(h, Int(kind)) == Int(kind)
  {
  }

  /** A request's header comes back with its own sequence number exactly when that fits 32 bits. */
  lemma {:induction false} RequestHeader(h: Handle, seqNo: nat, method_: seq<byte>, args: seq<Value>, suffix: seq<byte>)
    requires h.Msgpack? && |method_| < TWO32 && Encodable(h, Array(args))
    ensures var bs := Write(h, RequestItems(seqNo, method_, args)) + suffix; var r := ParseHeader(0, bs);
            && r.Ok? && r.value.text == method_ && (r.value.seqNo == seqNo <==> seqNo < TWO32)
            && var body := Dec(h, map[], r.rest);
               body.Ok? && body.value.value == Norm(h, Array(args)) && body.rest == suffix
  {
    hide Write, ParseHeader, Encodable, Dec, Norm;
    HeaderThenBody(h, 0, seqNo % TWO32, Str(method_), Array(args), suffix);
  }

  /** A response likewise; the error text is empty exactly when there was no error. */
  lemma {:induction false} ResponseHeader(h: Handle, seqNo: nat, error: seq<byte>, body: Value, suffix: seq<byte>)
    requires h.Msgpack? && |error| < TWO32 && Encodable(h, body)
    ensures var bs := Write(h, ResponseItems(seqNo, error, body)) + suffix; var r := ParseHeader(1, bs);
            && r.Ok? && r.value.text == error && (r.value.seqNo == seqNo <==> seqNo < TWO32)
            && var b := Dec(h, map[], r.rest);
               b.Ok? && b.value.value == Norm(h, if error == [] then body else Nil) && b.rest == suffix
  {
    hide Write, ParseHeader, Dec, Norm;
    SmallEncodable(h, Nil);
    hide Encodable;
    HeaderThenBody(h, 1, seqNo % TWO32, if error == [] then Nil else Str(error), if error == [] then body else Nil, suffix);
  }
}
