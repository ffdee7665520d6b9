/** A connection: header and body pairs written one after another and read back in order. */
module Streams {
  import opened Bytes
  import opened Values
  import opened Codec
  import opened Structs
  import B = BincDriver

  /** A request or response header, as a struct, and its body. */
  datatype Message = Message(header: seq<OutField>, body: Value)

  /** MsgpackCodec.write, over and over: the header's encoding, then the body's. */
  function WriteAll(h: Handle, d: Symbols, asSymbols: bool, msgs: seq<Message>): (r: Out)
    ensures d.ids.Keys <= r.syms.ids.Keys
    decreases |msgs|
  {
    if msgs == [] then Out([], d)
    else
      var header := EncStruct(h, d, asSymbols, msgs[0].header);
      var body := Enc(h, header.syms, msgs[0].body);
      var others := WriteAll(h, body.syms, asSymbols, msgs[1..]);
      Out(header.bytes + body.bytes + others.bytes, others.syms)
  }

  /** What a reader gets of a message: the header's fields, and the body unless it was read to nowhere. */
  datatype Received = Received(header: seq<Value>, body: Option<Value>)

  /** The type a body is decoded into; one that is not wanted is decoded into a nil interface all the same. */
  function KindOf(wanted: Option<Kind>): Kind {
    if wanted.Some? then wanted.value else KAny
  }

  predicate ValidKinds(wanted: seq<Option<Kind>>) {
    forall i :: 0 <= i < |wanted| ==> KindOf(wanted[i]).Valid()
  }

  /** MsgpackCodec.read in pairs. */
  function ReadAll(h: Handle, names: Names, fields: seq<Field>, wanted: seq<Option<Kind>>, bs: seq<byte>): Read<B.Named<seq<Received>>>
    requires ValidFields(fields) && ValidKinds(wanted)
    decreases |wanted|
  {
    if wanted == [] then Ok(B.Named([], names), bs)
    else
      var (header, mid) :- DecStruct(h, names, fields, bs);
      var (body, rest) :- DecField(h, header.names, KindOf(wanted[0]), mid);
      var (others, r) :- ReadAll(h, body.names, fields, wanted[1..], rest);
      Ok(B.Named([Received(header.value, if wanted[0].Some? then Some(body.value) else None)] + others.value, others.names), r)
  }

  /** The messages as they should arrive. */
  function Delivered(h: Handle, fields: seq<Field>, wanted: seq<Option<Kind>>, msgs: seq<Message>): seq<Received>
    requires ValidFields(fields) && ValidKinds(wanted) && |wanted| == |msgs|
  {
    if msgs == [] then []
    else
      [Received(Merge(h, fields, Zeroed(fields), Sent(msgs[0].header)), if wanted[0].Some? then Convert(h, wanted[0].value, msgs[0].body) else None)]
      + Delivered(h, fields, wanted[1..], msgs[1..])
  }

  /** The header can be written and read, and the body has a type that holds it. */
  predicate Writable(h: Handle, asSymbols: bool, fields: seq<Field>, wanted: Option<Kind>, m: Message)
    requires ValidFields(fields) && KindOf(wanted).Valid()
  {
    && DistinctNames(Sent(m.header)) && Compatible(h, asSymbols, Sent(m.header), fields) && |Sent(m.header)| < TWO16
    && Encodable(h, m.body) && Convert(h, KindOf(wanted), m.body).Some?
  }

  /**
   * Whatever was written before, and whichever bodies the reader throws away, the reader gets the headers and
   * bodies in order, each in the type it asked for, and stops where the writer did; symbols defined in skipped
   * parts stay known.
   */
  lemma {:induction false} StreamRoundTrip(h: Handle, d: Symbols, names: Names, asSymbols: bool, fields: seq<Field>,
      wanted: seq<Option<Kind>>, msgs: seq<Message>, suffix: seq<byte>)
    requires ValidFields(fields) && DistinctFields(fields) && ValidKinds(wanted) && |wanted| == |msgs|
    requires forall i :: 0 <= i < |msgs| ==> Writable(h, asSymbols, fields, wanted[i], msgs[i])
    requires InStep(h, d, names) && |WriteAll(h, d, asSymbols, msgs).syms.ids| <= TWO16
    ensures var out := WriteAll(h, d, asSymbols, msgs);
            Yields(h, out.syms, ReadAll(h, names, fields, wanted, out.bytes + suffix), Delivered(h, fields, wanted, msgs), suffix)
    decreases |msgs|
  {
    hide InStep, Enc, EncStruct, DecField, DecStruct, Encodable, Compatible, DistinctNames, DistinctFields, Merge, Convert, Sent;
    var out := WriteAll(h, d, asSymbols, msgs);
    if msgs == [] {
      assert out.bytes + suffix == suffix;
    } else {
      var m := msgs[0];
      assert Writable(h, asSymbols, fields, wanted[0], m);
      var header := EncStruct(h, d, asSymbols, m.header);
      var body := Enc(h, header.syms, m.body);
      var others := WriteAll(h, body.syms, asSymbols, msgs[1..]);
      FewerSymbols(header.syms, body.syms);
      FewerSymbols(body.syms, others.syms);
      assert out.bytes + suffix == header.bytes + (body.bytes + (others.bytes + suffix));
      StructRoundTrip(h, d, names, asSymbols, m.header, fields, body.bytes + (others.bytes + suffix));
      var x := DecStruct(h, names, fields, header.bytes + (body.bytes + (others.bytes + suffix))).value;
      FieldRoundTrip(h, header.syms, x.names, KindOf(wanted[0]), m.body, others.bytes + suffix);
      var y := DecField(h, x.names, KindOf(wanted[0]), body.bytes + (others.bytes + suffix)).value;
      StreamRoundTrip(h, body.syms, y.names, asSymbols, fields, wanted[1..], msgs[1..], suffix);
    }
  }

  /** A fresh connection starts with empty dictionaries, which are in step. */
  lemma {:induction false} FreshInStep(h: Handle)
    ensures InStep(h, NO_SYMBOLS, map[])
  {
  }
}
