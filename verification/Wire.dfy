/** The bytes of RPC messages in MessagePack: a header struct, then a body. */
module Wire {
  import opened Bytes
  import opened Values
  import opened Codec
  import opened Structs
  import opened Streams
  import opened Overflow
  import C = Client
  import M = MsgpackDriver

  type MsgpackHandle = h: Handle | h.Msgpack? witness Msgpack(false, false)

  type ValidKind = k: Kind | k.Valid() witness KAny

  // ------------------------------------------------------------------
  // The headers

  /** "Seq", "ServiceMethod" and "Error". */
  const SEQ: Text := [83, 101, 113]
  const SERVICE_METHOD: Text := [83, 101, 114, 118, 105, 99, 101, 77, 101, 116, 104, 111, 100]
  const ERROR: Text := [69, 114, 114, 111, 114]

  /** The exported fields of rpc.Request and rpc.Response, as declared. */
  const REQUEST := [Field(SERVICE_METHOD, KString), Field(SEQ, KUint(64))]
  const RESPONSE := [Field(SERVICE_METHOD, KString), Field(SEQ, KUint(64)), Field(ERROR, KString)]

  /** A map is written with its fields sorted by name. */
  function RequestFields(n: nat, m: Text): seq<OutField> {
    [OutField(SEQ, KUint(64), false, Uint(n)), OutField(SERVICE_METHOD, KString, false, Str(m))]
  }

  function ResponseFields(r: C.Response): seq<OutField> {
    [OutField(ERROR, KString, false, Str(r.error)), OutField(SEQ, KUint(64), false, Uint(r.seqno)), OutField(SERVICE_METHOD, KString, false, Str(r.serviceMethod))]
  }

  // ------------------------------------------------------------------
  // What is written and read; MessagePack has no symbols to remember

  function HeaderBytes(h: MsgpackHandle, fs: seq<OutField>): seq<byte> {
    EncStruct(h, NO_SYMBOLS, true, fs).bytes
  }

  function BodyBytes(h: MsgpackHandle, v: Value): seq<byte> {
    Enc(h, NO_SYMBOLS, v).bytes
  }

  /** What one successful write puts on the wire. */
  function MessageBytes(h: MsgpackHandle, fs: seq<OutField>, v: Value): seq<byte> {
    WriteAll(h, NO_SYMBOLS, true, [Message(fs, v)]).bytes
  }

  function NumberIn(v: Value): nat {
    if v.Uint? then v.u else 0
  }

  function TextIn(v: Value): Text {
    if v.Str? then v.s else []
  }

  function DecRequest(h: MsgpackHandle, bs: seq<byte>): (r: Read<(nat, Text)>)
    ensures r.Ok? ==> |r.rest| < |bs|
  {
    var (x, rest) :- DecStruct(h, map[], REQUEST, bs);
    Ok((NumberIn(x.value[1]), TextIn(x.value[0])), rest)
  }

  function DecResponse(h: MsgpackHandle, bs: seq<byte>): (r: Read<C.Response>)
    ensures r.Ok? ==> |r.rest| < |bs|
  {
    var (x, rest) :- DecStruct(h, map[], RESPONSE, bs);
    Ok(C.Response(NumberIn(x.value[1]), TextIn(x.value[0]), TextIn(x.value[2])), rest)
  }

  function DecBody(h: MsgpackHandle, kind: ValidKind, bs: seq<byte>): (r: Read<Value>)
    ensures r.Ok? ==> |r.rest| < |bs|
  {
    var (x, rest) :- DecField(h, map[], kind, bs);
    Ok(x.value, rest)
  }

  // ------------------------------------------------------------------
  // Reading what was written

  lemma {:induction false} NoSymbols(h: MsgpackHandle, d: Symbols, v: Value)
    ensures Enc(h, d, v).syms == d
    decreases v, 1
  {
    match v {
      case Array(es) => NoSymbolsSeq(h, d, es);
      case Map(kvs) => NoSymbolsPairs(h, d, kvs);
      case _ =>
    }
  }

  lemma {:induction false} NoSymbolsSeq(h: MsgpackHandle, d: Symbols, es: seq<Value>)
    ensures EncSeq(h, d, es).syms == d
    decreases es, 0
  {
    if es != [] {
      NoSymbols(h, d, es[0]);
      NoSymbolsSeq(h, d, es[1..]);
    }
  }

  lemma {:induction false} NoSymbolsPairs(h: MsgpackHandle, d: Symbols, kvs: seq<Pair>)
    ensures EncPairs(h, d, kvs).syms == d
    decreases kvs, 0
  {
    if kvs != [] {
      EntryBelow(kvs);
      NoSymbols(h, d, kvs[0].k);
      NoSymbols(h, d, kvs[0].v);
      NoSymbolsPairs(h, d, kvs[1..]);
    }
  }

  lemma {:induction false} Pieces(h: MsgpackHandle, fs: seq<OutField>, v: Value)
    ensures MessageBytes(h, fs, v) == HeaderBytes(h, fs) + BodyBytes(h, v)
  {
    hide Enc, Sent, Entries;
    NoSymbols(h, NO_SYMBOLS, Map(Entries(true, Sent(fs))));
    assert [Message(fs, v)][1..] == [];
    assert WriteAll(h, Enc(h, NO_SYMBOLS, v).syms, true, []).bytes == [];
  }

  lemma {:induction false} EmptyIds()
    ensures |NO_SYMBOLS.ids| == 0
  {
  }

  /** A body read into a type that holds it. */
  lemma {:induction false} BodyRead(h: MsgpackHandle, kind: ValidKind, v: Value, suffix: seq<byte>)
    requires Encodable(h, v) && Convert(h, kind, v).Some?
    ensures DecBody(h, kind, BodyBytes(h, v) + suffix) == Ok(Convert(h, kind, v).value, suffix)
  {
    hide Enc, Encodable, Convert, DecField;
    NoSymbols(h, NO_SYMBOLS, v);
    EmptyIds();
    FieldRoundTrip(h, NO_SYMBOLS, map[], kind, v, suffix);
  }

  lemma {:induction false} AllSent(fs: seq<OutField>)
    requires forall i :: 0 <= i < |fs| ==> !fs[i].omitEmpty
    ensures Sent(fs) == fs
    decreases |fs|
  {
    if fs != [] {
      AllSent(fs[1..]);
      assert [fs[0]] + fs[1..] == fs;
    }
  }

  predicate HeaderKind(kind: Kind, v: Value) {
    if kind == KUint(64) then v.Uint? && v.u < TWO64 else kind.KString? && v.Str? && |v.s| < TWO32
  }

  /** A header that gives every field of the receiver's struct a value of its type; `at` says where. */
  predicate Gives(fs: seq<OutField>, fields: seq<Field>, at: seq<nat>) {
    && ValidFields(fields) && DistinctFields(fields) && DistinctNames(fs) && |at| == |fields| && |fs| < TWO16
    && (forall i :: 0 <= i < |fs| ==> !fs[i].omitEmpty && |fs[i].name| < TWO32 && HeaderKind(fs[i].kind, fs[i].v))
    && (forall k :: 0 <= k < |fields| ==> at[k] < |fs| && fs[at[k]].name == fields[k].name && fs[at[k]].kind == fields[k].kind)
  }

  lemma {:induction false} HeaderRead(h: MsgpackHandle, fs: seq<OutField>, fields: seq<Field>, at: seq<nat>, suffix: seq<byte>)
    requires Gives(fs, fields, at)
    ensures var r := DecStruct(h, map[], fields, HeaderBytes(h, fs) + suffix);
            r.Ok? && r.rest == suffix && forall k :: 0 <= k < |fields| ==> r.value.value[k] == fs[at[k]].v
  {
    hide Enc, DecStruct, Entries, Merge, EncStruct, IndexOf, Convert, Encodable, FitsHead, NameValue, HeaderKind;
    AllSent(fs);
    NoHeaderSymbols(h, fs);
    EmptyIds();
    HeaderCompatible(h, fs, fields, at);
    StructRoundTrip(h, NO_SYMBOLS, map[], true, fs, fields, suffix);
    forall k | 0 <= k < |fields| ensures Merge(h, fields, Zeroed(fields), fs)[k] == fs[at[k]].v {
      MergedField(h, fields, fs, k);
      HeaderField(h, fs[at[k]]);
    }
  }

  lemma {:induction false} NoHeaderSymbols(h: MsgpackHandle, fs: seq<OutField>)
    ensures EncStruct(h, NO_SYMBOLS, true, fs).syms == NO_SYMBOLS
  {
    hide Enc, Entries, Sent;
    NoSymbols(h, NO_SYMBOLS, Map(Entries(true, Sent(fs))));
  }

  lemma {:induction false} NameFits(h: MsgpackHandle, name: Text)
    requires |name| < TWO32
    ensures FitsHead(h, NameValue(true, name))
  {
  }

  lemma {:induction false} NumberFits(h: MsgpackHandle, u: nat)
    requires u < TWO64
    ensures Encodable(h, Uint(u)) && Convert(h, KUint(64), Uint(u)) == Some(Uint(u))
  {
    Pow2Values();
  }

  lemma {:induction false} TextFits(h: MsgpackHandle, s: Text)
    requires |s| < TWO32
    ensures Encodable(h, Str(s)) && Convert(h, KString, Str(s)) == Some(Str(s))
  {
  }

  lemma {:induction false} HeaderField(h: MsgpackHandle, f: OutField)
    requires |f.name| < TWO32 && HeaderKind(f.kind, f.v)
    ensures Encodable(h, f.v) && FitsHead(h, NameValue(true, f.name)) && f.kind.Valid() && Convert(h, f.kind, f.v) == Some(f.v)
  {
    hide Encodable, FitsHead, Convert, NameValue;
    NameFits(h, f.name);
    if f.kind == KUint(64) {
      NumberFits(h, f.v.u);
    } else {
      TextFits(h, f.v.s);
    }
  }

  lemma {:induction false} HeaderCompatible(h: MsgpackHandle, fs: seq<OutField>, fields: seq<Field>, at: seq<nat>)
    requires Gives(fs, fields, at)
    ensures Compatible(h, true, fs, fields)
  {
    hide Convert, Encodable, FitsHead, NameValue, HeaderKind;
    forall i | 0 <= i < |fs|
      ensures Encodable(h, fs[i].v) && FitsHead(h, NameValue(true, fs[i].name))
      ensures var k := IndexOf(fields, fs[i].name); k < |fields| ==> Convert(h, fields[k].kind, fs[i].v).Some?
    {
      HeaderField(h, fs[i]);
      var k := IndexOf(fields, fs[i].name);
      if k < |fields| {
        assert at[k] == i;
      }
    }
  }

  lemma {:induction false} NamesDiffer()
    ensures SEQ != SERVICE_METHOD && ERROR != SEQ && ERROR != SERVICE_METHOD
    ensures |SEQ| < TWO32 && |ERROR| < TWO32 && |SERVICE_METHOD| < TWO32
  {
    assert |SEQ| == 3 && |ERROR| == 5 && |SERVICE_METHOD| == 13;
  }

  lemma {:induction false} RequestRead(h: MsgpackHandle, n: nat, m: Text, suffix: seq<byte>)
    requires n < TWO64 && |m| < TWO32
    ensures DecRequest(h, HeaderBytes(h, RequestFields(n, m)) + suffix) == Ok((n, m), suffix)
  {
    hide DecStruct, HeaderBytes, SEQ, SERVICE_METHOD, ERROR;
    NamesDiffer();
    HeaderRead(h, RequestFields(n, m), REQUEST, [1, 0], suffix);
  }

  lemma {:induction false} ResponseRead(h: MsgpackHandle, r: C.Response, suffix: seq<byte>)
    requires r.seqno < TWO64 && |r.serviceMethod| < TWO32 && |r.error| < TWO32
    ensures DecResponse(h, HeaderBytes(h, ResponseFields(r)) + suffix) == Ok(r, suffix)
  {
    hide DecStruct, HeaderBytes, SEQ, SERVICE_METHOD, ERROR;
    NamesDiffer();
    HeaderRead(h, ResponseFields(r), RESPONSE, [2, 1, 0], suffix);
  }

  /** A struct with more fields than a request is read as a request all the same. */
  lemma {:induction false} ResponseAsRequest(h: MsgpackHandle, r: C.Response, suffix: seq<byte>)
    requires r.seqno < TWO64 && |r.serviceMethod| < TWO32 && |r.error| < TWO32
    ensures DecRequest(h, HeaderBytes(h, ResponseFields(r)) + suffix) == Ok((r.seqno, r.serviceMethod), suffix)
  {
    hide DecStruct, HeaderBytes, SEQ, SERVICE_METHOD, ERROR;
    NamesDiffer();
    HeaderRead(h, ResponseFields(r), REQUEST, [2, 1], suffix);
  }

  // ------------------------------------------------------------------
  // A header is also a map

  function HeaderMap(fs: seq<OutField>): Value {
    Map(Entries(true, fs))
  }

  /** A header can be sent as a body, and read as one it is a map with an entry for each field. */
  lemma {:induction false} HeaderAsBody(h: MsgpackHandle, fs: seq<OutField>, suffix: seq<byte>)
    requires DistinctNames(fs) && |fs| < TWO16
    requires forall i :: 0 <= i < |fs| ==> !fs[i].omitEmpty && |fs[i].name| < TWO32 && HeaderKind(fs[i].kind, fs[i].v)
    ensures Encodable(h, HeaderMap(fs)) && BodyBytes(h, HeaderMap(fs)) == HeaderBytes(h, fs)
    ensures var r := DecBody(h, KAny, HeaderBytes(h, fs) + suffix);
            r.Ok? && r.rest == suffix && r.value == Norm(h, HeaderMap(fs)) && r.value.Map? && |r.value.kvs| == |fs|
  {
    hide Enc, Encodable, DecBody, Entries, HeaderKind, NormPairs, EncodablePairs, FitsHead;
    AllSent(fs);
    HeaderEntries(h, fs);
    MapEncodable(h, Entries(true, fs));
    AnyConverts(h, HeaderMap(fs));
    BodyRead(h, KAny, HeaderMap(fs), suffix);
  }

  lemma {:induction false} MapEncodable(h: MsgpackHandle, kvs: seq<Pair>)
    requires |kvs| < TWO16 && EncodablePairs(h, kvs) && DistinctKeys(NormPairs(h, kvs)) && HashableKeys(NormPairs(h, kvs))
    ensures Encodable(h, Map(kvs))
  {
  }

  lemma {:induction false} NameNorm(h: MsgpackHandle, name: Text)
    ensures KeyOf(Norm(h, Sym(name))) == Str(name)
  {
  }

  lemma {:induction false} HeaderPairs(h: MsgpackHandle, fs: seq<OutField>)
    requires forall i :: 0 <= i < |fs| ==> |fs[i].name| < TWO32 && HeaderKind(fs[i].kind, fs[i].v)
    ensures EncodablePairs(h, Entries(true, fs))
    ensures forall i :: 0 <= i < |fs| ==> NormPairs(h, Entries(true, fs))[i].k == Str(fs[i].name)
    decreases |fs|
  {
    hide Encodable, Norm, FitsHead, HeaderKind, KeyOf;
    if fs != [] {
      var kvs := Entries(true, fs);
      assert kvs[0] == Pair(Sym(fs[0].name), fs[0].v) && kvs[1..] == Entries(true, fs[1..]);
      assert forall i :: 0 <= i < |fs| - 1 ==> fs[1..][i] == fs[i + 1];
      HeaderField(h, fs[0]);
      NameEncodable(h, fs[0].name);
      NameNorm(h, fs[0].name);
      HeaderPairs(h, fs[1..]);
      assert NormPairs(h, kvs)[1..] == NormPairs(h, kvs[1..]);
    }
  }

  lemma {:induction false} NameEncodable(h: MsgpackHandle, name: Text)
    requires |name| < TWO32
    ensures Encodable(h, Sym(name))
  {
  }

  lemma {:induction false} HeaderEntries(h: MsgpackHandle, fs: seq<OutField>)
    requires DistinctNames(fs) && forall i :: 0 <= i < |fs| ==> |fs[i].name| < TWO32 && HeaderKind(fs[i].kind, fs[i].v)
    ensures var kvs := Entries(true, fs); EncodablePairs(h, kvs) && DistinctKeys(NormPairs(h, kvs)) && HashableKeys(NormPairs(h, kvs))
  {
    hide Entries, EncodablePairs, NormPairs, HeaderKind;
    HeaderPairs(h, fs);
  }
}
