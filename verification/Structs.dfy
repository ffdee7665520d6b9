/** Structs on the wire: a map from field names to values, decoded field by field into a zeroed destination. */
module Structs {
  import opened Bytes
  import opened Values
  import opened Codec
  import opened Overflow
  import M = MsgpackDriver
  import opened Keys
  import Floats
  import B = BincDriver

  /**
   * A static type, as far as decoding depends on it: interface{}, bool, integers, float64, string, []byte, slices of any other
   * element type, maps from strings to any type but interface{}, and structs.
   */
  datatype Kind =
    | KAny | KBool | KInt(bits: nat) | KUint(bits: nat) | KFloat | KString | KBytes
    | KSlice(elem: Kind) | KMap(val: Kind) | KStruct(fields: seq<Field>)
  {
    predicate Valid() {
      match this
      case KInt(bits) => 1 <= bits <= 64
      case KUint(bits) => 1 <= bits <= 64
      case KSlice(elem) => elem.Valid() && elem != KUint(8)
      case KMap(val) => val.Valid() && !val.KAny?
      case KStruct(fields) => DistinctFields(fields) && forall k :: 0 <= k < |fields| ==> fields[k].kind.Valid()
      case _ => true
    }

    predicate Scalar() {
      KBool? || KInt? || KUint? || KFloat? || KString?
    }
  }

  predicate DistinctFields(fields: seq<Field>) {
    forall i, j :: 0 <= i < j < |fields| ==> fields[i].name != fields[j].name
  }

  /** A field's type is below the struct it is in. */
  lemma {:induction false} FieldBelow(fields: seq<Field>, k: nat)
    requires k < |fields|
    ensures (fields decreases to fields[k].kind)
  {
    assert (fields decreases to fields[k]) && (fields[k] decreases to fields[k].kind);
  }

  /** The zero value; a struct is the array of its fields in the order of declaration. */
  function Zero(kind: Kind): Value
    decreases kind
  {
    match kind
    case KAny => Nil
    case KBool => Bool(false)
    case KInt(_) => Int(0)
    case KUint(_) => Uint(0)
    case KFloat => Float64(0)
    case KString => Str([])
    case KBytes => Bytes([])
    case KSlice(_) => Nil
    case KMap(_) => Nil
    case KStruct(fields) => Array(Zeroed(fields))
  }

  function Zeroed(fields: seq<Field>): (r: seq<Value>)
    ensures |r| == |fields|
    decreases fields
  {
    seq(|fields|, k requires 0 <= k < |fields| => FieldBelow(fields, k); Zero(fields[k].kind))
  }

  datatype Field = Field(name: seq<byte>, kind: Kind)

  /** A field of the sender: what it holds, and whether it is left out when empty. */
  datatype OutField = OutField(name: seq<byte>, kind: Kind, omitEmpty: bool, v: Value)

  /** isEmptyValue, on what is sent for the field: a slice, map or string without elements is empty, a struct never. */
  predicate IsEmpty(kind: Kind, v: Value) {
    match kind
    case KAny => v.Nil?
    case KBool => v == Bool(false)
    case KInt(_) => v == Int(0)
    case KUint(_) => v == Uint(0)
    case KFloat => v.Float64? && v.f64 % TWO63 == 0
    case KString => v == Str([])
    case KBytes => v.Nil? || v == Bytes([])
    case KSlice(_) => v.Nil? || v == Array([])
    case KMap(_) => v.Nil? || v == Map([])
    case KStruct(_) => false
  }

  /** The entries kStruct writes, in field order. */
  function Sent(fs: seq<OutField>): seq<OutField> {
    if fs == [] then []
    else if fs[0].omitEmpty && IsEmpty(fs[0].kind, fs[0].v) then Sent(fs[1..])
    else [fs[0]] + Sent(fs[1..])
  }

  /** Field names are written as symbols unless the handle says otherwise. */
  function NameValue(asSymbols: bool, name: seq<byte>): Value {
    if asSymbols then Sym(name) else Str(name)
  }

  function Entries(asSymbols: bool, fs: seq<OutField>): (r: seq<Pair>)
    ensures |r| == |fs|
  {
    seq(|fs|, i requires 0 <= i < |fs| => Pair(NameValue(asSymbols, fs[i].name), fs[i].v))
  }

  function EncStruct(h: Handle, d: Symbols, asSymbols: bool, fs: seq<OutField>): Out {
    Enc(h, d, Map(Entries(asSymbols, Sent(fs))))
  }

  predicate SupportedStruct(h: Handle, asSymbols: bool, fs: seq<OutField>) {
    Supported(h, Map(Entries(asSymbols, Sent(fs))))
  }

  // ------------------------------------------------------------------
  // Decoding

  /** decodeString; a MessagePack nil is the empty string. */
  function DecName(h: Handle, names: Names, bs: seq<byte>): (r: Read<B.Named<seq<byte>>>)
    ensures r.Ok? ==> |r.rest| < |bs|
  {
    var (bd, tail) :- ReadN1(bs);
    if h.Msgpack? then var (s, r) :- M.ReadRaw(M.STR, bd, tail); Ok(B.Named(s, names), r)
    else B.DecString(names, bd, tail)
  }

  /** The basic types, after a descriptor that is not nil. */
  function DecTyped(h: Handle, names: Names, kind: Kind, bd: byte, bs: seq<byte>): (r: Read<B.Named<Value>>)
    requires kind.Valid() && kind.Scalar()
    ensures r.Ok? ==> |r.rest| <= |bs|
  {
    match kind
    case KBool =>
      var (b, r) :- if h.Msgpack? then M.DecBool(bd, bs) else B.DecBool(bd, bs);
      Ok(B.Named(Bool(b), names), r)
    case KInt(bits) =>
      var (i, r) :- if h.Msgpack? then M.DecInt(bd, bs, bits) else B.DecInt(bd, bs, bits);
      Ok(B.Named(Int(i), names), r)
    case KUint(bits) =>
      var (u, r) :- if h.Msgpack? then M.DecUint(bd, bs, bits) else B.DecUint(bd, bs, bits);
      Ok(B.Named(Uint(u), names), r)
    case KFloat =>
      var (f, r) :- if h.Msgpack? then M.DecFloat64(bd, bs) else B.DecFloat64(bd, bs);
      Ok(B.Named(Float64(f), names), r)
    case KString =>
      if h.Msgpack? then var (s, r) :- M.ReadRaw(M.STR, bd, bs); Ok(B.Named(Str(s), names), r)
      else var (s, r) :- B.DecString(names, bd, bs); Ok(B.Named(Str(s.value), s.names), r)
  }

  /** decodeValue into a zeroed variable of a basic type: nil leaves the zero value. */
  function DecScalar(h: Handle, names: Names, kind: Kind, bs: seq<byte>): (r: Read<B.Named<Value>>)
    requires kind.Valid() && kind.Scalar()
    ensures r.Ok? ==> |r.rest| < |bs|
  {
    var (bd, tail) :- ReadN1(bs);
    if IsNilByte(h, bd) then Ok(B.Named(Zero(kind), names), tail)
    else DecTyped(h, names, kind, bd, tail)
  }

  /** decodeValue into a zeroed variable. */
  function DecField(h: Handle, names: Names, kind: Kind, bs: seq<byte>): (r: Read<B.Named<Value>>)
    requires kind.Valid()
    ensures r.Ok? ==> |r.rest| < |bs|
  {
    DecInto(h, names, kind, Zero(kind), bs)
  }

  function Zeros(elem: Kind, n: nat): (r: seq<Value>)
    ensures |r| == n
  {
    seq(n, i => Zero(elem))
  }

  /** The elements of a slice once there is room for n. */
  function Room(elem: Kind, was: Value, n: nat): (r: seq<Value>)
    ensures |r| >= n
  {
    var es := if was.Array? then was.es else [];
    if n <= |es| then es else es + Zeros(elem, n - |es|)
  }

  /** The fields of a struct that holds was. */
  function FieldsIn(fields: seq<Field>, was: Value): (r: seq<Value>)
    ensures |r| == |fields|
  {
    if was.Array? && |was.es| == |fields| then was.es else Zeroed(fields)
  }

  /**
   * decodeValue into a variable that holds was: nil zeroes it; basic values are replaced; of a slice the first
   * elements are updated, of a map entries are replaced and added, and of a struct the fields that come are updated.
   */
  function DecInto(h: Handle, names: Names, kind: Kind, was: Value, bs: seq<byte>): (r: Read<B.Named<Value>>)
    requires kind.Valid()
    ensures r.Ok? ==> |r.rest| < |bs|
    decreases kind, 0, 0
  {
    match kind
    case KAny => DecOnto(h, names, was, bs)
    case KStruct(fields) => var (x, r) :- DecStructInto(h, names, fields, FieldsIn(fields, was), bs); Ok(B.Named(Array(x.value), x.names), r)
    case KSlice(elem) =>
      var (n, tail) :- DecSliceLen(h, names, bs);
      if n.value.None? then Ok(B.Named(Nil, n.names), tail)
      else
        var l, room := n.value.value, Room(elem, was, n.value.value);
        var (es, r) :- DecElems(h, n.names, elem, room[..l], tail);
        Ok(B.Named(Array(es.value + room[l..]), es.names), r)
    case KMap(val) =>
      var (bd, tail) :- ReadN1(bs);
      if IsNilByte(h, bd) then Ok(B.Named(Nil, names), tail)
      else
        var (n, r) :- DecMapLen(h, bd, tail);
        var (m, r2) :- DecMapOf(h, names, val, n, if was.Map? then was.kvs else [], r);
        Ok(B.Named(Map(m.value), m.names), r2)
    case KBytes =>
      var (bd, tail) :- ReadN1(bs);
      if IsNilByte(h, bd) then Ok(B.Named(Bytes([]), names), tail)
      else var (s, r) :- DecBytesInto(h, names, if was.Bytes? then was.bs else [], false, bs); Ok(B.Named(Bytes(s.value), s.names), r)
    case _ => DecScalar(h, names, kind, bs)
  }

  /** The elements of a slice, each into what its place holds. */
  function DecElems(h: Handle, names: Names, elem: Kind, es: seq<Value>, bs: seq<byte>): (r: Read<B.Named<seq<Value>>>)
    requires elem.Valid()
    ensures r.Ok? ==> |r.rest| <= |bs| - |es| && |r.value.value| == |es|
    decreases elem, 1, |es|
  {
    if es == [] then Ok(B.Named([], names), bs)
    else
      var (x, tail) :- DecInto(h, names, elem, es[0], bs);
      var (xs, r) :- DecElems(h, x.names, elem, es[1..], tail);
      Ok(B.Named([x.value] + xs.value, xs.names), r)
  }

  /** kMap: n entries still to come, each value read into a zeroed variable, on top of the entries stored. */
  function DecMapOf(h: Handle, names: Names, val: Kind, n: nat, m: seq<Pair>, bs: seq<byte>): (r: Read<B.Named<seq<Pair>>>)
    requires val.Valid()
    ensures r.Ok? ==> |r.rest| <= |bs| - 2 * n
    decreases val, 1, n
  {
    if n == 0 then Ok(B.Named(m, names), bs)
    else
      var (k, tail) :- DecScalar(h, names, KString, bs);
      var (v, r) :- DecInto(h, k.names, val, Zero(val), tail);
      DecMapOf(h, v.names, val, n - 1, Put(m, k.value, v.value), r)
  }

  predicate ValidFields(fields: seq<Field>) {
    forall k :: 0 <= k < |fields| ==> fields[k].kind.Valid()
  }

  /** The first field with the given name, or |fields|. */
  function IndexOf(fields: seq<Field>, name: seq<byte>): (k: nat)
    ensures k <= |fields|
    ensures k < |fields| ==> fields[k].name == name
    ensures forall i :: 0 <= i < k ==> fields[i].name != name
  {
    if fields == [] then 0 else if fields[0].name == name then 0 else 1 + IndexOf(fields[1..], name)
  }

  /** The value for a field that holds was, or for no field at all: read to nowhere. */
  function DecSlot(h: Handle, names: Names, fields: seq<Field>, k: nat, was: Value, bs: seq<byte>): (r: Read<B.Named<Value>>)
    requires ValidFields(fields)
    ensures r.Ok? ==> |r.rest| < |bs|
    decreases fields, 0, 0
  {
    if k < |fields| then FieldBelow(fields, k); DecInto(h, names, fields[k].kind, was, bs) else Dec(h, names, bs)
  }

  /** What field k holds. */
  function At(dest: seq<Value>, k: nat): Value {
    if k < |dest| then dest[k] else Nil
  }

  /** The map branch of kStruct: n entries to go; a name that is not a field's is read to nowhere. */
  function DecEntries(h: Handle, names: Names, fields: seq<Field>, dest: seq<Value>, n: nat, bs: seq<byte>): (r: Read<B.Named<seq<Value>>>)
    requires ValidFields(fields) && |dest| == |fields|
    ensures r.Ok? ==> |r.rest| <= |bs| && |r.value.value| == |fields|
    decreases fields, 1, n
  {
    if n == 0 then Ok(B.Named(dest, names), bs)
    else
      var (name, tail) :- DecName(h, names, bs);
      var k := IndexOf(fields, name.value);
      var (v, r) :- DecSlot(h, name.names, fields, k, At(dest, k), tail);
      DecEntries(h, v.names, fields, if k < |fields| then dest[k := v.value] else dest, n - 1, r)
  }

  /** The array branch of kStruct: fields by position, surplus elements read to nowhere. */
  function DecPositions(h: Handle, names: Names, fields: seq<Field>, dest: seq<Value>, j: nat, n: nat, bs: seq<byte>): (r: Read<B.Named<seq<Value>>>)
    requires ValidFields(fields) && |dest| == |fields| && j <= n
    ensures r.Ok? ==> |r.rest| <= |bs| && |r.value.value| == |fields|
    decreases fields, 1, n - j
  {
    if j == n then Ok(B.Named(dest, names), bs)
    else
      var (v, r) :- DecSlot(h, names, fields, j, At(dest, j), bs);
      DecPositions(h, v.names, fields, if j < |fields| then dest[j := v.value] else dest, j + 1, n, r)
  }

  /** kStruct, with ErrorIfNoField off, into a struct whose fields hold dest. */
  function DecStructInto(h: Handle, names: Names, fields: seq<Field>, dest: seq<Value>, bs: seq<byte>): (r: Read<B.Named<seq<Value>>>)
    requires ValidFields(fields) && |dest| == |fields|
    ensures r.Ok? ==> |r.value.value| == |fields| && |r.rest| < |bs|
    decreases fields, 2, 0
  {
    var (x, tail) :- DecHead(h, names, bs);
    match x.value
    case MapHead(n) => DecEntries(h, x.names, fields, dest, n, tail)
    case ArrayHead(n) => DecPositions(h, x.names, fields, dest, 0, n, tail)
    case Leaf(v) => if v.Nil? then Ok(B.Named(Zeroed(fields), x.names), tail) else Err(WrongKind)
  }

  /** The same into a zeroed struct. */
  function DecStruct(h: Handle, names: Names, fields: seq<Field>, bs: seq<byte>): (r: Read<B.Named<seq<Value>>>)
    requires ValidFields(fields)
    ensures r.Ok? ==> |r.value.value| == |fields| && |r.rest| < |bs|
  {
    DecStructInto(h, names, fields, Zeroed(fields), bs)
  }

  // ------------------------------------------------------------------
  // A typed field read from an encoded value

  /** The int64 a reader sees for an encoded integer. */
  function SeenInt(h: Handle, z: int): int {
    if h.Binc? then B.Seen(z) else ToSigned(z % TWO64, TWO64)
  }

  /** What a variable of a basic type receives when v, which is not nil, was sent. Binc's minus one is no float. */
  function ConvertScalar(h: Handle, kind: Kind, v: Value): Option<Value>
    requires kind.Valid() && kind.Scalar()
  {
    var z := if v.Int? then v.i else if v.Uint? then v.u else 0;
    match kind
    case KBool => if v.Bool? then Some(v) else None
    case KInt(bits) =>
      if (v.Int? || v.Uint?) && 0 - Pow2(bits - 1) <= SeenInt(h, z) < Pow2(bits - 1) then Some(Int(SeenInt(h, z))) else None
    case KUint(bits) =>
      if (v.Int? || v.Uint?) && 0 <= z < Pow2(bits) then Some(Uint(z)) else None
    case KFloat =>
      if v.Float32? || v.Float64? then Some(Norm(h, v))
      else if (v.Int? || v.Uint?) && !(h.Binc? && z == -1) then Some(Float64(FloatOfInt(SeenInt(h, z))))
      else None
    case KString =>
      if v.Str? then Some(Str(v.s)) else if v.Sym? then Some(Str(v.sym)) else None
  }

  /** The name that a key writes. */
  function NameIn(k: Value): seq<byte> {
    if k.Sym? then k.sym else if k.Str? then k.s else []
  }

  /** A map whose keys are all written as symbols, or all as strings, is what a struct with these fields sends. */
  function FieldsOf(kvs: seq<Pair>): (r: seq<OutField>)
    ensures |r| == |kvs|
  {
    seq(|kvs|, i requires 0 <= i < |kvs| => OutField(NameIn(kvs[i].k), KAny, false, kvs[i].v))
  }

  predicate AsSymbols(kvs: seq<Pair>) {
    kvs != [] && kvs[0].k.Sym?
  }

  predicate IsStruct(kvs: seq<Pair>) {
    Entries(AsSymbols(kvs), FieldsOf(kvs)) == kvs && DistinctNames(FieldsOf(kvs))
  }

  /** What a variable of the given type receives when v was sent; None when it has no place for it. */
  function Convert(h: Handle, kind: Kind, v: Value): Option<Value>
    requires kind.Valid()
    decreases kind, 0, 0
  {
    if kind.KAny? then Some(Norm(h, v))
    else if v.Nil? then Some(Zero(kind))
    else if kind.Scalar() then ConvertScalar(h, kind, v)
    else if kind.KBytes? then (if v.Bytes? then Some(v) else if v.Str? then Some(Bytes(v.s)) else None)
    else if kind.KSlice? then
      if !v.Array? then None
      else var es := ConvertSeq(h, kind.elem, v.es); if es.None? then None else Some(Array(es.value))
    else if kind.KMap? then
      if !v.Map? || !IsStruct(v.kvs) then None
      else var m := ConvertPairs(h, kind.val, v.kvs); if m.None? then None else Some(Map(m.value))
    else if v.Map? && IsStruct(v.kvs) && Holds(h, FieldsOf(v.kvs), kind.fields) then
      Some(Array(Merge(h, kind.fields, Zeroed(kind.fields), FieldsOf(v.kvs))))
    else None
  }

  function ConvertSeq(h: Handle, elem: Kind, es: seq<Value>): (r: Option<seq<Value>>)
    requires elem.Valid()
    decreases elem, 1, |es|
  {
    if es == [] then Some([])
    else
      var x := Convert(h, elem, es[0]);
      var xs := ConvertSeq(h, elem, es[1..]);
      if x.None? || xs.None? then None else Some([x.value] + xs.value)
  }

  function ConvertPairs(h: Handle, val: Kind, kvs: seq<Pair>): (r: Option<seq<Pair>>)
    requires val.Valid()
    decreases val, 1, |kvs|
  {
    if kvs == [] then Some([])
    else
      var x := Convert(h, val, kvs[0].v);
      var xs := ConvertPairs(h, val, kvs[1..]);
      if x.None? || xs.None? then None else Some([Pair(Str(NameIn(kvs[0].k)), x.value)] + xs.value)
  }

  /** Each entry's value fits the field of its name, if there is one. */
  predicate Holds(h: Handle, fs: seq<OutField>, fields: seq<Field>)
    requires ValidFields(fields)
    decreases fields, 1, 0
  {
    forall i :: 0 <= i < |fs| ==>
      var k := IndexOf(fields, fs[i].name); k < |fields| ==> (FieldBelow(fields, k); Convert(h, fields[k].kind, fs[i].v).Some?)
  }

  /** The struct the receiver should end up with: shared fields converted, the rest as they were. */
  function Merge(h: Handle, fields: seq<Field>, dest: seq<Value>, fs: seq<OutField>): (r: seq<Value>)
    requires ValidFields(fields) && |dest| == |fields|
    ensures |r| == |fields|
    decreases fields, 1, 0
  {
    seq(|fields|, k requires 0 <= k < |fields| =>
      FieldBelow(fields, k);
      var j := SentIndex(fs, fields[k].name);
      if j < |fs| && Convert(h, fields[k].kind, fs[j].v).Some? then Convert(h, fields[k].kind, fs[j].v).value else dest[k])
  }

  predicate DistinctNames(fs: seq<OutField>) {
    forall i, j :: 0 <= i < j < |fs| ==> fs[i].name != fs[j].name
  }

  /** The index of the field sent under a name, or |fs|. */
  function SentIndex(fs: seq<OutField>, name: seq<byte>): (j: nat)
    ensures j <= |fs|
    ensures j < |fs| ==> fs[j].name == name
    ensures forall i :: 0 <= i < j ==> fs[i].name != name
  {
    if fs == [] then 0 else if fs[0].name == name then 0 else 1 + SentIndex(fs[1..], name)
  }

  /** A read that yields v, stops at suffix and keeps the dictionaries in step with d. */
  ghost predicate Yields<T>(h: Handle, d: Symbols, r: Read<B.Named<T>>, v: T, suffix: seq<byte>) {
    r.Ok? && r.rest == suffix && r.value.value == v && InStep(h, d, r.value.names)
  }

  lemma {:induction false} NumberFirstByte(h: Handle, z: int, suffix: seq<byte>)
    requires -TWO63 <= z < TWO64
    ensures M.EncInt(if z < TWO63 then z else 0) != [] && M.EncUint(if z >= 0 then z else 0) != []
    ensures !IsNilByte(h, EncNumber(h, z)[0])
  {
    if h.Msgpack? {
      M.NumberRoundTrip(z, suffix);
    } else if z > 16 {
      var xs := B.MagnitudeShape(0x10, true, z);
    } else if z < -1 {
      var xs := B.MagnitudeShape(0x20, false, -z);
    }
  }

  /** The bytes of an integer; its Go type does not matter. */
  function EncNumber(h: Handle, z: int): (e: seq<byte>)
    ensures e != []
  {
    if h.Msgpack? then (if z < TWO63 then M.EncInt(z) else M.EncUint(z))
    else if z < 0 then B.EncInt(z)
    else B.EncMagnitude(0x10, true, z)
  }

  lemma {:induction false} EncNumberOf(h: Handle, d: Symbols, v: Value)
    requires FitsHead(h, v) && (v.Int? || v.Uint?)
    ensures Enc(h, d, v) == Out(EncNumber(h, if v.Int? then v.i else v.u), d)
  {
  }

  /** An integer into a variable of an integer type: its conversion when there is one, and an error when not. */
  lemma {:induction false} IntField(h: Handle, d: Symbols, names: Names, kind: Kind, v: Value, suffix: seq<byte>)
    requires FitsHead(h, v) && InStep(h, d, names) && (v.Int? || v.Uint?) && (kind.KInt? || kind.KUint?) && kind.Valid()
    ensures var r := DecScalar(h, names, kind, Enc(h, d, v).bytes + suffix);
            if ConvertScalar(h, kind, v).Some? then Yields(h, d, r, ConvertScalar(h, kind, v).value, suffix) else r.Err?
  {
    hide InStep, EncNumber, B.DecInt, M.DecInt, B.DecUint, M.DecUint, Pow2, SeenInt;
    var z := if v.Int? then v.i else v.u;
    EncNumberOf(h, d, v);
    NumberFirstByte(h, z, suffix);
    TypedInt(h, kind, z, suffix);
  }

  lemma {:induction false} TypedInt(h: Handle, kind: Kind, z: int, suffix: seq<byte>)
    requires -TWO63 <= z < TWO64 && kind.Valid() && (kind.KInt? || kind.KUint?)
    ensures kind.KInt? ==>
              var e := EncNumber(h, z) + suffix;
              var r := if h.Msgpack? then M.DecInt(e[0], e[1..], kind.bits) else B.DecInt(e[0], e[1..], kind.bits);
              if 0 - Pow2(kind.bits - 1) <= SeenInt(h, z) < Pow2(kind.bits - 1) then r == Ok(SeenInt(h, z), suffix) else r.Err?
    ensures kind.KUint? ==>
              var e := EncNumber(h, z) + suffix;
              var r := if h.Msgpack? then M.DecUint(e[0], e[1..], kind.bits) else B.DecUint(e[0], e[1..], kind.bits);
              if 0 <= z < Pow2(kind.bits) then r == Ok(z, suffix) else r.Err?
  {
    hide B.EncInt, B.EncMagnitude, M.EncInt, M.EncUint, B.DecInt, B.DecUint, M.DecInt, M.DecUint, Pow2, B.Seen;
    if h.Msgpack? {
      if kind.KInt? { M.DecIntExact(z, kind.bits, suffix); } else { M.DecUintExact(z, kind.bits, suffix); }
    } else if kind.KInt? {
      B.DecIntExact(z, kind.bits, suffix);
    } else {
      B.UintRoundTrip(z, kind.bits, suffix);
    }
  }

  lemma {:induction false} StringBytes(h: Handle, d: Symbols, names: Names, v: Value, suffix: seq<byte>)
    requires FitsHead(h, v) && InStep(h, d, names) && (v.Str? || v.Sym?) && |Enc(h, d, v).syms.ids| <= TWO16
    ensures var out := Enc(h, d, v); var s := if v.Str? then v.s else v.sym;
            && out.bytes != [] && !IsNilByte(h, out.bytes[0])
            && Yields(h, out.syms, DecName(h, names, out.bytes + suffix), s, suffix)
  {
    hide B.Inverse, B.EncLen, B.DecSym, B.DecRaw, B.SymOk;
    var s := if v.Str? then v.s else v.sym;
    if h.Msgpack? {
      M.RawRoundTrip(M.STR, h.writeExt, s, suffix);
    } else if v.Str? {
      B.RawRoundTrip(0x40, s, suffix);
      StrFirst(s);
    } else {
      SymbolFits(d, names, v);
      B.SymTag(d, s) by { SymIds(d, names, s); }
      SymName(d, names, s, suffix);
    }
  }

  lemma {:induction false} StrFirst(s: seq<byte>)
    ensures B.EncLen(0x40, |s|) != [] && B.EncLen(0x40, |s|)[0] != 0
  {
  }

  lemma {:induction false} SymIds(d: Symbols, names: Names, s: seq<byte>)
    requires B.Inverse(d, names)
    ensures |s| <= 1 || s !in d.ids || d.ids[s] < TWO16
  {
  }

  lemma {:induction false} SymName(d: Symbols, names: Names, s: seq<byte>, suffix: seq<byte>)
    requires B.Inverse(d, names) && |s| < TWO63 && (|s| <= 1 || s in d.ids || d.s < TWO16)
    ensures Yields(Binc, B.EncSym(d, s).1, DecName(Binc, names, B.EncSym(d, s).0 + suffix), s, suffix)
  {
    hide B.EncSym, B.DecString, B.Inverse;
    B.SymRoundTrip(d, names, s, suffix);
  }

  lemma {:induction false} StringField(h: Handle, d: Symbols, names: Names, v: Value, suffix: seq<byte>)
    requires FitsHead(h, v) && InStep(h, d, names) && (v.Str? || v.Sym?) && |Enc(h, d, v).syms.ids| <= TWO16
    ensures Yields(h, Enc(h, d, v).syms, DecScalar(h, names, KString, Enc(h, d, v).bytes + suffix), ConvertScalar(h, KString, v).value, suffix)
  {
    hide InStep, Enc, M.ReadRaw, B.DecString, FitsHead;
    StringBytes(h, d, names, v, suffix);
  }

  lemma {:induction false} BoolField(h: Handle, d: Symbols, names: Names, v: Value, suffix: seq<byte>)
    requires InStep(h, d, names) && v.Bool?
    ensures Yields(h, Enc(h, d, v).syms, DecScalar(h, names, KBool, Enc(h, d, v).bytes + suffix), v, suffix)
  {
    hide InStep;
    assert (Enc(h, d, v).bytes + suffix)[1..] == suffix;
  }

  /** A number that reads as a float without a schema reads as that float into one. */
  lemma {:induction false} FloatHead(h: Handle, names: Names, bs: seq<byte>, f: nat, names2: Names, rest: seq<byte>)
    requires DecHead(h, names, bs) == Ok(B.Named(Leaf(Float64(f)), names2), rest)
    ensures DecScalar(h, names, KFloat, bs) == Ok(B.Named(Float64(f), names2), rest)
  {
    hide M.Naked, B.Naked, M.DecFloat64, B.DecFloat64;
    if h.Msgpack? {
      M.NakedFloat(h, bs[0], bs[1..], f, rest);
    } else {
      B.NakedFloat(names, bs[0], bs[1..], f, names2, rest);
    }
  }

  lemma {:induction false} FloatField(h: Handle, d: Symbols, names: Names, v: Value, suffix: seq<byte>)
    requires FitsHead(h, v) && InStep(h, d, names) && (v.Float32? || v.Float64?) && |Enc(h, d, v).syms.ids| <= TWO16
    ensures Yields(h, Enc(h, d, v).syms, DecScalar(h, names, KFloat, Enc(h, d, v).bytes + suffix), Norm(h, v), suffix)
  {
    hide InStep, EncHead, DecHead, FitsHead, DecScalar;
    HeadRoundTrip(h, d, names, v, suffix);
    FloatNorm(h, v);
    var x := DecHead(h, names, EncHead(h, d, v).bytes + suffix).value;
    FloatHead(h, names, EncHead(h, d, v).bytes + suffix, Norm(h, v).f64, x.names, suffix);
  }

  lemma {:induction false} FloatNorm(h: Handle, v: Value)
    requires v.Float32? || v.Float64?
    ensures NormHead(h, v).Leaf? && NormHead(h, v).v == Norm(h, v) && Norm(h, v).Float64?
  {
  }

  /** An integer reads as a float unless it is Binc's minus one. */
  lemma {:induction false} IntAsFloat(h: Handle, d: Symbols, names: Names, v: Value, suffix: seq<byte>)
    requires FitsHead(h, v) && InStep(h, d, names) && (v.Int? || v.Uint?)
    ensures var z := if v.Int? then v.i else v.u;
            !(h.Binc? && z == -1) <==>
            Yields(h, d, DecScalar(h, names, KFloat, Enc(h, d, v).bytes + suffix), Float64(FloatOfInt(SeenInt(h, z))), suffix)
  {
    hide InStep, EncNumber, M.DecFloat64, B.DecFloat64, FloatOfInt;
    var z := if v.Int? then v.i else v.u;
    EncNumberOf(h, d, v);
    NumberFirstByte(h, z, suffix);
    if h.Binc? && z == -1 {
      MinusOneIsNoFloat(suffix);
    } else {
      NumberAsFloat(h, z, suffix);
    }
  }

  lemma {:induction false} MinusOneIsNoFloat(suffix: seq<byte>)
    ensures var e := EncNumber(Binc, -1) + suffix; e[0] == 8 && B.DecFloat64(e[0], e[1..]).Err?
  {
  }

  lemma {:induction false} NumberAsFloat(h: Handle, z: int, suffix: seq<byte>)
    requires -TWO63 <= z < TWO64 && !(h.Binc? && z == -1)
    ensures var e := EncNumber(h, z) + suffix;
            (if h.Msgpack? then M.DecFloat64(e[0], e[1..]) else B.DecFloat64(e[0], e[1..])) == Ok(FloatOfInt(SeenInt(h, z)), suffix)
  {
    hide M.EncInt, M.EncUint, B.EncInt, B.EncMagnitude, M.DecInt, B.DecIntAny, B.DecFloat64, FloatOfInt, B.NegMagnitude;
    Pow2Values();
    SeenInRange(h, z);
    if h.Msgpack? {
      TypedInt(h, KInt(64), z, suffix);
      var e := EncNumber(h, z) + suffix;
      SameInt(e[0], e[1..]);
    } else {
      var e := EncNumber(h, z) + suffix;
      B.IntAnyRoundTrip(z, suffix);
      B.NotMinusOne(z);
      B.AnyAsFloat(e[0], e[1..]);
    }
  }

  lemma {:induction false} SeenInRange(h: Handle, z: int)
    requires -TWO63 <= z < TWO64
    ensures -TWO63 <= SeenInt(h, z) < TWO63
  {
  }

  lemma {:induction false} SameInt(bd: byte, bs: seq<byte>)
    requires M.DecInt(bd, bs, 64).Ok?
    ensures M.DecInt(bd, bs, 0) == M.DecInt(bd, bs, 64) && bd != M.FLOAT && bd != M.DOUBLE
  {
  }

  /** Nil leaves the zero value of any type. */
  lemma {:induction false} NilField(h: Handle, d: Symbols, names: Names, kind: Kind, suffix: seq<byte>)
    requires InStep(h, d, names) && kind.Valid() && !kind.KAny?
    ensures Yields(h, Enc(h, d, Nil).syms, DecField(h, names, kind, Enc(h, d, Nil).bytes + suffix), Zero(kind), suffix)
  {
    hide InStep, DecEntries, DecPositions, DecElems, DecMapOf, DecMapLen, DecBytesInto, DecTyped, Zeroed, DecOver, Room;
    var e := Enc(h, d, Nil).bytes;
    assert |e| == 1 && IsNilByte(h, e[0]) && (e + suffix)[1..] == suffix;
    assert DecHead(h, names, e + suffix) == Ok(B.Named(Leaf(Nil), names), suffix);
    if kind.KStruct? {
      assert DecStructInto(h, names, kind.fields, FieldsIn(kind.fields, Zero(kind)), e + suffix) == Ok(B.Named(Zeroed(kind.fields), names), suffix);
    } else if kind.KSlice? {
      assert DecSliceLen(h, names, e + suffix) == Ok(B.Named(None, names), suffix);
    } else if kind.Scalar() {
      assert DecScalar(h, names, kind, e + suffix) == Ok(B.Named(Zero(kind), names), suffix);
    }
  }

  lemma {:induction false} ScalarField(h: Handle, d: Symbols, names: Names, kind: Kind, v: Value, suffix: seq<byte>)
    requires Encodable(h, v) && InStep(h, d, names) && |Enc(h, d, v).syms.ids| <= TWO16 && !v.Nil?
    requires kind.Valid() && kind.Scalar() && ConvertScalar(h, kind, v).Some?
    ensures Yields(h, Enc(h, d, v).syms, DecScalar(h, names, kind, Enc(h, d, v).bytes + suffix), ConvertScalar(h, kind, v).value, suffix)
  {
    hide InStep, Enc, DecTyped, FitsHead, SeenInt, Pow2, DecScalar;
    if v.Bool? {
      BoolField(h, d, names, v, suffix);
    } else if v.Float32? || v.Float64? {
      FloatField(h, d, names, v, suffix);
    } else if v.Int? || v.Uint? {
      EncNumberOf(h, d, v);
      if kind.KFloat? { IntAsFloat(h, d, names, v, suffix); } else { IntField(h, d, names, kind, v, suffix); }
    } else {
      StringField(h, d, names, v, suffix);
    }
  }

  // ------------------------------------------------------------------
  // A struct sent as a map

  /** Every field sent can be written, and read by the receiver's field of that name if it has one. */
  predicate Compatible(h: Handle, asSymbols: bool, fs: seq<OutField>, fields: seq<Field>)
    requires ValidFields(fields)
  {
    forall i :: 0 <= i < |fs| ==>
      && Encodable(h, fs[i].v) && FitsHead(h, NameValue(asSymbols, fs[i].name))
      && (var k := IndexOf(fields, fs[i].name); k < |fields| ==> Convert(h, fields[k].kind, fs[i].v).Some?)
  }

  /** One received field put in its place, if the receiver has one for it. */
  function Store(h: Handle, fields: seq<Field>, dest: seq<Value>, f: OutField): (r: seq<Value>)
    requires ValidFields(fields) && |dest| == |fields|
    ensures |r| == |fields|
  {
    var k := IndexOf(fields, f.name);
    if k < |fields| && Convert(h, fields[k].kind, f.v).Some? then dest[k := Convert(h, fields[k].kind, f.v).value] else dest
  }

  lemma {:induction false} MergeStep(h: Handle, fields: seq<Field>, dest: seq<Value>, fs: seq<OutField>)
    requires ValidFields(fields) && DistinctFields(fields) && |dest| == |fields| && fs != [] && DistinctNames(fs)
    requires var k := IndexOf(fields, fs[0].name); k < |fields| ==> Convert(h, fields[k].kind, fs[0].v).Some?
    ensures Merge(h, fields, dest, fs) == Merge(h, fields, Store(h, fields, dest, fs[0]), fs[1..])
  {
    hide Convert;
    var k := IndexOf(fields, fs[0].name);
    var dest2 := Store(h, fields, dest, fs[0]);
    forall i | 0 <= i < |fields|
      ensures Merge(h, fields, dest, fs)[i] == Merge(h, fields, dest2, fs[1..])[i]
    {
      if fields[i].name == fs[0].name {
        assert i == k;
        forall q | 0 <= q < |fs| - 1 ensures fs[1..][q].name != fs[0].name {
          assert fs[1..][q] == fs[q + 1];
        }
        assert SentIndex(fs[1..], fields[i].name) == |fs| - 1;
      } else {
        assert SentIndex(fs, fields[i].name) == 1 + SentIndex(fs[1..], fields[i].name);
      }
    }
  }

  /** What is decoded does not depend on what the variable holds. */
  predicate Fresh(kind: Kind, was: Value) {
    kind.Scalar() || was == Zero(kind)
  }

  /** The fields that will be sent hold nothing that matters. */
  predicate FreshFor(fields: seq<Field>, dest: seq<Value>, fs: seq<OutField>)
    requires |dest| == |fields|
  {
    forall k :: 0 <= k < |fields| && SentIndex(fs, fields[k].name) < |fs| ==> Fresh(fields[k].kind, dest[k])
  }

  /** The map loop of kStruct, on entries that are still to come. */
  lemma {:induction false} EntriesRoundTrip(h: Handle, d: Symbols, names: Names, asSymbols: bool, fs: seq<OutField>,
      fields: seq<Field>, dest: seq<Value>, suffix: seq<byte>)
    requires ValidFields(fields) && DistinctFields(fields) && DistinctNames(fs) && Compatible(h, asSymbols, fs, fields)
    requires |dest| == |fields| && InStep(h, d, names) && |EncPairs(h, d, Entries(asSymbols, fs)).syms.ids| <= TWO16
    requires FreshFor(fields, dest, fs)
    ensures var out := EncPairs(h, d, Entries(asSymbols, fs));
            Yields(h, out.syms, DecEntries(h, names, fields, dest, |fs|, out.bytes + suffix), Merge(h, fields, dest, fs), suffix)
    decreases fields, 1, |fs|, 1
  {
    hide InStep, Enc, Encodable, FitsHead, Convert, DecSlot, DecName, IndexOf, SentIndex, Merge;
    if fs == [] {
      assert EncPairs(h, d, Entries(asSymbols, fs)).bytes + suffix == suffix;
      EmptyMerge(h, fields, dest);
    } else {
      EntryRoundTrip(h, d, names, asSymbols, fs, fields, dest, suffix);
    }
  }

  lemma {:induction false} EmptyMerge(h: Handle, fields: seq<Field>, dest: seq<Value>)
    requires ValidFields(fields) && |dest| == |fields|
    ensures Merge(h, fields, dest, []) == dest
  {
  }

  /** One turn of the loop: a name, its field, and the value stored or dropped. */
  lemma {:induction false} EntryStep(h: Handle, names: Names, fields: seq<Field>, dest: seq<Value>, n: nat, bs: seq<byte>,
      name: B.Named<seq<byte>>, mid: seq<byte>, v: B.Named<Value>, rest: seq<byte>)
    requires ValidFields(fields) && |dest| == |fields|
    requires DecName(h, names, bs) == Ok(name, mid)
    requires var k := IndexOf(fields, name.value); DecSlot(h, name.names, fields, k, At(dest, k), mid) == Ok(v, rest)
    ensures var k := IndexOf(fields, name.value);
            DecEntries(h, names, fields, dest, n + 1, bs)
            == DecEntries(h, v.names, fields, if k < |fields| then dest[k := v.value] else dest, n, rest)
  {
    hide DecName, DecSlot, IndexOf;
  }

  /** The type a name's value is read into. */
  function SlotKind(fields: seq<Field>, name: seq<byte>): (r: Kind)
    requires ValidFields(fields)
    ensures r.Valid()
  {
    var k := IndexOf(fields, name); if k < |fields| then fields[k].kind else KAny
  }

  lemma {:induction false} SlotRoundTrip(h: Handle, d: Symbols, names: Names, fields: seq<Field>, name: seq<byte>, was: Value, v: Value, suffix: seq<byte>)
    requires Encodable(h, v) && InStep(h, d, names) && |Enc(h, d, v).syms.ids| <= TWO16
    requires ValidFields(fields) && Convert(h, SlotKind(fields, name), v).Some?
    requires IndexOf(fields, name) < |fields| ==> Fresh(SlotKind(fields, name), was)
    ensures Yields(h, Enc(h, d, v).syms, DecSlot(h, names, fields, IndexOf(fields, name), was, Enc(h, d, v).bytes + suffix),
                   Convert(h, SlotKind(fields, name), v).value, suffix)
    decreases fields, 0, 0
  {
    hide InStep, Enc, Encodable, DecInto, Dec, IndexOf, Zero;
    var k := IndexOf(fields, name);
    if k < |fields| {
      FieldBelow(fields, k);
      FieldRoundTrip(h, d, names, fields[k].kind, v, suffix);
      FreshRead(h, names, fields[k].kind, was, Enc(h, d, v).bytes + suffix);
    } else {
      AnyConverts(h, v);
      RoundTrip(h, d, names, v, suffix);
    }
  }

  lemma {:induction false} FreshRead(h: Handle, names: Names, kind: Kind, was: Value, bs: seq<byte>)
    requires kind.Valid() && Fresh(kind, was)
    ensures DecInto(h, names, kind, was, bs) == DecField(h, names, kind, bs)
  {
    hide DecScalar;
  }

  /** The bytes of one entry read as its name and its converted value. */
  lemma {:induction false} EntryBytes(h: Handle, d: Symbols, names: Names, asSymbols: bool, fields: seq<Field>, was: Value, f: OutField, rest: seq<byte>)
    returns (name: B.Named<seq<byte>>, mid: seq<byte>, v: B.Named<Value>)
    requires Encodable(h, f.v) && FitsHead(h, NameValue(asSymbols, f.name)) && ValidFields(fields)
    requires Convert(h, SlotKind(fields, f.name), f.v).Some? && InStep(h, d, names)
    requires IndexOf(fields, f.name) < |fields| ==> Fresh(SlotKind(fields, f.name), was)
    requires |Enc(h, Enc(h, d, NameValue(asSymbols, f.name)).syms, f.v).syms.ids| <= TWO16
    ensures var key := Enc(h, d, NameValue(asSymbols, f.name));
            var val := Enc(h, key.syms, f.v);
            && mid == val.bytes + rest
            && DecName(h, names, key.bytes + mid) == Ok(name, mid) && name.value == f.name
            && DecSlot(h, name.names, fields, IndexOf(fields, f.name), was, mid) == Ok(v, rest)
            && v.value == Convert(h, SlotKind(fields, f.name), f.v).value && InStep(h, val.syms, v.names)
    decreases fields, 0, 1
  {
    hide InStep, Enc, Encodable, FitsHead, Convert, DecSlot, DecName, SlotKind, IndexOf, Fresh;
    var key := Enc(h, d, NameValue(asSymbols, f.name));
    var val := Enc(h, key.syms, f.v);
    FewerSymbols(key.syms, val.syms);
    mid := val.bytes + rest;
    StringBytes(h, d, names, NameValue(asSymbols, f.name), mid);
    name := DecName(h, names, key.bytes + mid).value;
    SlotRoundTrip(h, key.syms, name.names, fields, f.name, was, f.v, rest);
    v := DecSlot(h, name.names, fields, IndexOf(fields, f.name), was, mid).value;
  }

  lemma {:induction false} PairBytes(h: Handle, d: Symbols, asSymbols: bool, fs: seq<OutField>, suffix: seq<byte>)
    requires fs != []
    ensures var key := Enc(h, d, NameValue(asSymbols, fs[0].name));
            var val := Enc(h, key.syms, fs[0].v);
            var tail := EncPairs(h, val.syms, Entries(asSymbols, fs[1..]));
            var out := EncPairs(h, d, Entries(asSymbols, fs));
            && out.bytes + suffix == key.bytes + (val.bytes + (tail.bytes + suffix)) && out.syms == tail.syms
            && |val.syms.ids| <= |out.syms.ids|
  {
    hide Enc;
    var kvs := Entries(asSymbols, fs);
    assert kvs[0] == Pair(NameValue(asSymbols, fs[0].name), fs[0].v) && kvs[1..] == Entries(asSymbols, fs[1..]);
    var val := Enc(h, Enc(h, d, kvs[0].k).syms, fs[0].v);
    FewerSymbols(val.syms, EncPairs(h, val.syms, kvs[1..]).syms);
  }

  lemma {:induction false} StillFresh(h: Handle, fields: seq<Field>, dest: seq<Value>, fs: seq<OutField>)
    requires ValidFields(fields) && |dest| == |fields| && fs != [] && DistinctNames(fs) && FreshFor(fields, dest, fs)
    ensures FreshFor(fields, Store(h, fields, dest, fs[0]), fs[1..])
  {
    hide Convert, Fresh;
    forall i | 0 <= i < |fields| && SentIndex(fs[1..], fields[i].name) < |fs| - 1
      ensures Store(h, fields, dest, fs[0])[i] == dest[i] && Fresh(fields[i].kind, dest[i])
    {
      var j := SentIndex(fs[1..], fields[i].name);
      assert fs[1..][j] == fs[j + 1];
      assert SentIndex(fs, fields[i].name) == j + 1;
    }
  }

  /** What is asked of all the fields sent holds of the first and of the others. */
  lemma {:induction false} FirstAndOthers(h: Handle, asSymbols: bool, fs: seq<OutField>, fields: seq<Field>)
    requires ValidFields(fields) && DistinctNames(fs) && Compatible(h, asSymbols, fs, fields) && fs != []
    ensures DistinctNames(fs[1..]) && Compatible(h, asSymbols, fs[1..], fields)
    ensures Encodable(h, fs[0].v) && FitsHead(h, NameValue(asSymbols, fs[0].name))
    ensures var k := IndexOf(fields, fs[0].name); k < |fields| ==> Convert(h, fields[k].kind, fs[0].v).Some?
  {
    hide Encodable, FitsHead, Convert, NameValue;
    assert forall i :: 0 <= i < |fs| - 1 ==> fs[1..][i] == fs[i + 1];
  }

  lemma {:induction false} EntryRoundTrip(h: Handle, d: Symbols, names: Names, asSymbols: bool, fs: seq<OutField>,
      fields: seq<Field>, dest: seq<Value>, suffix: seq<byte>)
    requires ValidFields(fields) && DistinctFields(fields) && DistinctNames(fs) && Compatible(h, asSymbols, fs, fields)
    requires |dest| == |fields| && InStep(h, d, names) && |EncPairs(h, d, Entries(asSymbols, fs)).syms.ids| <= TWO16
    requires FreshFor(fields, dest, fs) && fs != []
    ensures var out := EncPairs(h, d, Entries(asSymbols, fs));
            Yields(h, out.syms, DecEntries(h, names, fields, dest, |fs|, out.bytes + suffix), Merge(h, fields, dest, fs), suffix)
    decreases fields, 1, |fs|, 0
  {
    hide InStep, Enc, Encodable, FitsHead, Convert, DecSlot, DecName, Merge, EncPairs, DecEntries, Compatible, DistinctNames, DistinctFields;
    hide NameValue, Entries, Fresh;
    var f := fs[0];
    FirstAndOthers(h, asSymbols, fs, fields);
    var k := IndexOf(fields, f.name);
    AnyConverts(h, f.v);
    PairBytes(h, d, asSymbols, fs, suffix);
    var key := Enc(h, d, NameValue(asSymbols, f.name));
    var val := Enc(h, key.syms, f.v);
    var tail := EncPairs(h, val.syms, Entries(asSymbols, fs[1..]));
    assert k < |fields| ==> SentIndex(fs, fields[k].name) == 0;
    var name, mid, v := EntryBytes(h, d, names, asSymbols, fields, At(dest, k), f, tail.bytes + suffix);
    EntryStep(h, names, fields, dest, |fs| - 1, key.bytes + mid, name, mid, v, tail.bytes + suffix);
    MergeStep(h, fields, dest, fs);
    StillFresh(h, fields, dest, fs);
    EntriesRoundTrip(h, val.syms, v.names, asSymbols, fs[1..], fields, Store(h, fields, dest, f), suffix);
  }

  lemma {:induction false} AnyConverts(h: Handle, v: Value)
    ensures Convert(h, KAny, v) == Some(Norm(h, v))
  {
  }

  /**
   * A struct sent as a map onto one that holds dest: the shared fields are replaced, where what they held does not
   * matter, and every other field keeps what it held.
   */
  lemma {:induction false} StructUpdate(h: Handle, d: Symbols, names: Names, asSymbols: bool, fs: seq<OutField>,
      fields: seq<Field>, dest: seq<Value>, suffix: seq<byte>)
    requires ValidFields(fields) && DistinctFields(fields) && DistinctNames(fs) && Compatible(h, asSymbols, fs, fields)
    requires FitsHead(h, Map(Entries(asSymbols, fs))) && |dest| == |fields| && FreshFor(fields, dest, fs)
    requires InStep(h, d, names) && |Enc(h, d, Map(Entries(asSymbols, fs))).syms.ids| <= TWO16
    ensures var out := Enc(h, d, Map(Entries(asSymbols, fs)));
            Yields(h, out.syms, DecStructInto(h, names, fields, dest, out.bytes + suffix), Merge(h, fields, dest, fs), suffix)
    decreases fields, 3, 0
  {
    hide InStep, EncHead, DecHead, Merge, DecEntries, EncPairs, Compatible, DistinctFields, DistinctNames, Sent, FitsHead, FreshFor;
    var kvs := Entries(asSymbols, fs);
    var v := Map(kvs);
    var head := EncHead(h, d, v);
    HeadKeepsSymbols(h, d, v);
    var tail := EncPairs(h, d, kvs);
    assert Enc(h, d, v).bytes + suffix == head.bytes + (tail.bytes + suffix);
    FewerSymbols(d, tail.syms);
    HeadRoundTrip(h, d, names, v, tail.bytes + suffix);
    ContainerHead(h, v);
    var x := DecHead(h, names, head.bytes + (tail.bytes + suffix)).value;
    EntriesRoundTrip(h, d, x.names, asSymbols, fs, fields, dest, suffix);
  }

  lemma {:induction false} ZeroedFresh(fields: seq<Field>, fs: seq<OutField>)
    ensures FreshFor(fields, Zeroed(fields), fs)
  {
  }

  /**
   * A struct sent as a map by a sender with any other field set: the receiver's zeroed struct gets exactly
   * the shared fields, the rest stays zero, unknown fields are skipped with their symbols still learnt,
   * and reading stops at the end of the map.
   */
  lemma {:induction false} StructRoundTrip(h: Handle, d: Symbols, names: Names, asSymbols: bool, fs: seq<OutField>,
      fields: seq<Field>, suffix: seq<byte>)
    requires ValidFields(fields) && DistinctFields(fields) && DistinctNames(Sent(fs))
    requires Compatible(h, asSymbols, Sent(fs), fields) && |Sent(fs)| < TWO16
    requires InStep(h, d, names) && |EncStruct(h, d, asSymbols, fs).syms.ids| <= TWO16
    ensures var out := EncStruct(h, d, asSymbols, fs);
            Yields(h, out.syms, DecStruct(h, names, fields, out.bytes + suffix), Merge(h, fields, Zeroed(fields), Sent(fs)), suffix)
  {
    hide InStep, Enc, DecStructInto, Merge, Compatible, DistinctFields, DistinctNames, Sent, FitsHead, FreshFor;
    SmallMap(h, Entries(asSymbols, Sent(fs)));
    ZeroedFresh(fields, Sent(fs));
    StructUpdate(h, d, names, asSymbols, Sent(fs), fields, Zeroed(fields), suffix);
  }

  lemma {:induction false} HeadKeepsSymbols(h: Handle, d: Symbols, v: Value)
    requires v.Map?
    ensures EncHead(h, d, v).syms == d
  {
  }

  lemma {:induction false} SmallMap(h: Handle, kvs: seq<Pair>)
    requires |kvs| < TWO16
    ensures FitsHead(h, Map(kvs))
  {
  }

  // ------------------------------------------------------------------
  // A struct sent as an array

  /** The elements still to come have a type each: that of the field at their position, or none after the last. */
  predicate PlacesHold(h: Handle, fields: seq<Field>, es: seq<Value>, j: nat)
    requires ValidFields(fields)
  {
    forall k :: 0 <= k < |es| && j + k < |fields| ==> Convert(h, fields[j + k].kind, es[k]).Some?
  }

  /** The struct once the elements have filled its fields from j on; more elements than fields go nowhere. */
  function Filled(h: Handle, fields: seq<Field>, dest: seq<Value>, es: seq<Value>, j: nat): (r: seq<Value>)
    requires ValidFields(fields) && |dest| == |fields| && PlacesHold(h, fields, es, j)
    ensures |r| == |fields|
  {
    seq(|fields|, k requires 0 <= k < |fields| =>
      if j <= k < j + |es| then assert fields[j + (k - j)] == fields[k]; Convert(h, fields[k].kind, es[k - j]).value else dest[k])
  }

  lemma {:induction false} PositionsRoundTrip(h: Handle, d: Symbols, names: Names, fields: seq<Field>, dest: seq<Value>, es: seq<Value>, j: nat, suffix: seq<byte>)
    requires ValidFields(fields) && |dest| == |fields| && PlacesHold(h, fields, es, j)
    requires forall k :: j <= k < |fields| && k < j + |es| ==> Fresh(fields[k].kind, dest[k])
    requires EncodableSeq(h, es) && InStep(h, d, names) && |EncSeq(h, d, es).syms.ids| <= TWO16
    ensures var out := EncSeq(h, d, es);
            Yields(h, out.syms, DecPositions(h, names, fields, dest, j, j + |es|, out.bytes + suffix), Filled(h, fields, dest, es, j), suffix)
    decreases |es|
  {
    hide InStep, Enc, DecSlot, Convert, Encodable, Fresh;
    if es == [] {
      assert [] + suffix == suffix;
      assert Filled(h, fields, dest, es, j) == dest;
    } else {
      var first := Enc(h, d, es[0]);
      var tail := EncSeq(h, first.syms, es[1..]);
      FewerSymbols(first.syms, tail.syms);
      assert EncSeq(h, d, es).bytes + suffix == first.bytes + (tail.bytes + suffix);
      PlaceRoundTrip(h, d, names, fields, j, At(dest, j), es[0], tail.bytes + suffix);
      var x := DecSlot(h, names, fields, j, At(dest, j), first.bytes + (tail.bytes + suffix)).value;
      var dest2 := if j < |fields| then dest[j := x.value] else dest;
      assert PlacesHold(h, fields, es[1..], j + 1) by {
        assert forall k :: 0 <= k < |es| - 1 ==> es[1..][k] == es[k + 1] && j + 1 + k == j + (k + 1);
      }
      PositionsRoundTrip(h, first.syms, x.names, fields, dest2, es[1..], j + 1, suffix);
      assert Filled(h, fields, dest2, es[1..], j + 1) == Filled(h, fields, dest, es, j);
    }
  }

  lemma {:induction false} PlaceRoundTrip(h: Handle, d: Symbols, names: Names, fields: seq<Field>, j: nat, was: Value, v: Value, suffix: seq<byte>)
    requires ValidFields(fields) && Encodable(h, v) && InStep(h, d, names) && |Enc(h, d, v).syms.ids| <= TWO16
    requires j < |fields| ==> Convert(h, fields[j].kind, v).Some? && Fresh(fields[j].kind, was)
    ensures Yields(h, Enc(h, d, v).syms, DecSlot(h, names, fields, j, was, Enc(h, d, v).bytes + suffix),
                   if j < |fields| then Convert(h, fields[j].kind, v).value else Norm(h, v), suffix)
  {
    hide InStep, Enc, Encodable, DecInto, Dec, Zero, Convert;
    if j < |fields| {
      FieldRoundTrip(h, d, names, fields[j].kind, v, suffix);
      FreshRead(h, names, fields[j].kind, was, Enc(h, d, v).bytes + suffix);
    } else {
      RoundTrip(h, d, names, v, suffix);
    }
  }

  /**
   * A struct sent as an array: its elements fill the fields by position, fields beyond the last element keep what
   * they held, and elements beyond the last field are read to nowhere, with their symbols still learnt.
   */
  lemma {:induction false} ArrayForm(h: Handle, d: Symbols, names: Names, es: seq<Value>, fields: seq<Field>, dest: seq<Value>, suffix: seq<byte>)
    requires ValidFields(fields) && |dest| == |fields| && Encodable(h, Array(es)) && PlacesHold(h, fields, es, 0)
    requires forall k :: 0 <= k < |fields| && k < |es| ==> Fresh(fields[k].kind, dest[k])
    requires InStep(h, d, names) && |Enc(h, d, Array(es)).syms.ids| <= TWO16
    ensures var out := Enc(h, d, Array(es));
            Yields(h, out.syms, DecStructInto(h, names, fields, dest, out.bytes + suffix), Filled(h, fields, dest, es, 0), suffix)
  {
    hide InStep, EncHead, DecHead, FitsHead, EncSeq, DecPositions, Filled, PlacesHold, Fresh;
    var head := EncHead(h, d, Array(es));
    var tail := EncSeq(h, head.syms, es);
    FewerSymbols(head.syms, tail.syms);
    assert Enc(h, d, Array(es)).bytes + suffix == head.bytes + (tail.bytes + suffix);
    HeadRoundTrip(h, d, names, Array(es), tail.bytes + suffix);
    ContainerHead(h, Array(es));
    var x := DecHead(h, names, head.bytes + (tail.bytes + suffix)).value;
    PositionsRoundTrip(h, head.syms, x.names, fields, dest, es, 0, suffix);
  }

  /** Reading Filled: by position, whatever the numbers of fields and elements. */
  lemma {:induction false} FilledField(h: Handle, fields: seq<Field>, dest: seq<Value>, es: seq<Value>, k: nat)
    requires ValidFields(fields) && |dest| == |fields| && PlacesHold(h, fields, es, 0) && k < |fields|
    ensures var r := Filled(h, fields, dest, es, 0)[k]; if k < |es| then Convert(h, fields[k].kind, es[k]) == Some(r) else r == dest[k]
  {
    hide Convert;
    assert 0 + k == k;
  }

  // ------------------------------------------------------------------
  // Fields left out

  /** What a sender's field of the given type can hold, as it is written. */
  predicate OfType(kind: Kind, v: Value) {
    match kind
    case KAny => true
    case KBool => v.Bool?
    case KInt(_) => v.Int?
    case KUint(_) => v.Uint?
    case KFloat => v.Float64? && v.f64 < TWO64
    case KString => v.Str?
    case KBytes => v.Nil? || v.Bytes?
    case KSlice(_) => v.Nil? || v.Array?
    case KMap(_) => v.Nil? || v.Map?
    case KStruct(_) => v.Map?
  }

  /** The field holds something: true, a number other than zero, at least one byte or element, a struct, no nil interface. */
  predicate Something(kind: Kind, v: Value)
    requires OfType(kind, v)
  {
    && (kind.KBool? ==> v.b) && (kind.KInt? ==> v.i != 0) && (kind.KUint? ==> v.u > 0)
    && (kind.KFloat? ==> v.f64 != 0 && v.f64 != TWO63) && (kind.KString? ==> |v.s| > 0) && (kind.KAny? ==> !v.Nil?)
    && (kind.KBytes? ==> v.Bytes? && |v.bs| > 0) && (kind.KSlice? ==> v.Array? && |v.es| > 0) && (kind.KMap? ==> v.Map? && |v.kvs| > 0)
  }

  /** A field is left out only when it is marked omitempty and holds nothing; those sent keep their values and order. */
  lemma {:induction false} SentExactly(fs: seq<OutField>, i: nat)
    requires DistinctNames(fs) && i < |fs| && OfType(fs[i].kind, fs[i].v)
    ensures var sent := Sent(fs); var j := SentIndex(sent, fs[i].name);
            && (j < |sent| <==> !fs[i].omitEmpty || Something(fs[i].kind, fs[i].v))
            && (j < |sent| ==> sent[j] == fs[i] && j <= i)
    decreases |fs|
  {
    hide OfType, Something, IsEmpty;
    SentDistinct(fs);
    EmptyExactly(fs[i].kind, fs[i].v);
    var others, sent := Sent(fs[1..]), Sent(fs);
    assert forall k :: 0 <= k < |fs| - 1 ==> fs[1..][k] == fs[k + 1];
    if i > 0 {
      SentExactly(fs[1..], i - 1);
      if sent != others {
        assert sent == [fs[0]] + others;
        assert sent[1..] == others;
      }
    } else if sent == others {
      assert forall f :: f in others ==> f.name != fs[0].name;
    }
  }

  lemma {:induction false} EmptyExactly(kind: Kind, v: Value)
    requires OfType(kind, v)
    ensures IsEmpty(kind, v) <==> !Something(kind, v)
  {
  }

  lemma {:induction false} SentDistinct(fs: seq<OutField>)
    requires DistinctNames(fs)
    ensures DistinctNames(Sent(fs)) && forall f :: f in Sent(fs) ==> f in fs
    ensures fs != [] ==> forall f :: f in Sent(fs[1..]) ==> f.name != fs[0].name
    decreases |fs|
  {
    if fs != [] {
      assert forall k :: 0 <= k < |fs| - 1 ==> fs[1..][k] == fs[k + 1];
      SentDistinct(fs[1..]);
      forall f | f in Sent(fs[1..]) ensures f in fs && f.name != fs[0].name {
        var k :| 0 <= k < |fs| - 1 && fs[1..][k] == f;
        assert fs[k + 1] == f;
      }
    }
  }

  /** What becomes of a field that is left out: a slice or map without elements turns nil and minus zero turns zero. */
  predicate Faded(v: Value, r: Value) {
    ((v == Array([]) || v == Map([])) && r.Nil?) || (v == Float64(TWO63) && r == Float64(0))
  }

  lemma {:induction false} EmptyConverts(h: Handle, kind: Kind, v: Value)
    requires kind.Valid() && OfType(kind, v) && !Something(kind, v)
    ensures Convert(h, kind, v) == Some(Zero(kind)) || Faded(v, Zero(kind))
  {
  }

  /**
   * A sender and a receiver of one struct type, whatever fields are marked omitempty and whatever order they are
   * written in: every field arrives as the conversion of what the sender's field holds, even when it was left out.
   */
  lemma {:induction false} OmittedOrNot(h: Handle, d: Symbols, names: Names, asSymbols: bool, fs: seq<OutField>,
      fields: seq<Field>, suffix: seq<byte>) returns (x: B.Named<seq<Value>>)
    requires ValidFields(fields) && DistinctFields(fields) && DistinctNames(fs)
    requires Compatible(h, asSymbols, Sent(fs), fields) && |Sent(fs)| < TWO16
    requires InStep(h, d, names) && |EncStruct(h, d, asSymbols, fs).syms.ids| <= TWO16
    requires forall k :: 0 <= k < |fields| ==>
               var j := SentIndex(fs, fields[k].name); j < |fs| && fs[j].kind == fields[k].kind && OfType(fs[j].kind, fs[j].v)
    ensures var out := EncStruct(h, d, asSymbols, fs);
            DecStruct(h, names, fields, out.bytes + suffix) == Ok(x, suffix) && InStep(h, out.syms, x.names) && |x.value| == |fields|
    ensures forall k :: 0 <= k < |fields| ==>
              var f := fs[SentIndex(fs, fields[k].name)];
              Convert(h, f.kind, f.v) == Some(x.value[k]) || (f.omitEmpty && Faded(f.v, x.value[k]))
  {
    hide InStep, EncStruct, DecStruct, Merge, Compatible, DistinctFields, Convert, Zero, Zeroed, OfType;
    SentDistinct(fs);
    StructRoundTrip(h, d, names, asSymbols, fs, fields, suffix);
    x := DecStruct(h, names, fields, EncStruct(h, d, asSymbols, fs).bytes + suffix).value;
    forall k | 0 <= k < |fields|
      ensures var f := fs[SentIndex(fs, fields[k].name)]; Convert(h, f.kind, f.v) == Some(x.value[k]) || (f.omitEmpty && Faded(f.v, x.value[k]))
    {
      OneField(h, asSymbols, fs, fields, k);
    }
  }

  lemma {:induction false} OneField(h: Handle, asSymbols: bool, fs: seq<OutField>, fields: seq<Field>, k: nat)
    requires ValidFields(fields) && DistinctFields(fields) && DistinctNames(fs) && DistinctNames(Sent(fs)) && k < |fields|
    requires Compatible(h, asSymbols, Sent(fs), fields)
    requires var j := SentIndex(fs, fields[k].name); j < |fs| && fs[j].kind == fields[k].kind && OfType(fs[j].kind, fs[j].v)
    ensures var f := fs[SentIndex(fs, fields[k].name)]; var r := Merge(h, fields, Zeroed(fields), Sent(fs))[k];
            Convert(h, f.kind, f.v) == Some(r) || (f.omitEmpty && Faded(f.v, r))
  {
    hide Merge, Convert, Zero, Zeroed, OfType, Encodable, FitsHead, Something;
    var i := SentIndex(fs, fields[k].name);
    var sent := Sent(fs);
    var j := SentIndex(sent, fields[k].name);
    SentExactly(fs, i);
    MergedField(h, fields, sent, k);
    if j < |sent| {
      assert IndexOf(fields, sent[j].name) == k;
    } else {
      EmptyConverts(h, fs[i].kind, fs[i].v);
    }
  }

  // ------------------------------------------------------------------
  // Values of any type

  /** The places that the n elements of a slice will take hold nothing that matters. */
  predicate FreshRoom(elem: Kind, was: Value, n: nat) {
    forall i :: 0 <= i < n ==> Fresh(elem, Room(elem, was, n)[i])
  }

  /** A slice onto one that holds something: its first elements are replaced, and those that do not come stay. */
  lemma {:induction false} SliceUpdate(h: Handle, d: Symbols, names: Names, kind: Kind, was: Value, v: Value, suffix: seq<byte>)
    requires Encodable(h, v) && InStep(h, d, names) && |Enc(h, d, v).syms.ids| <= TWO16
    requires kind.Valid() && kind.KSlice? && v.Array? && ConvertSeq(h, kind.elem, v.es).Some? && FreshRoom(kind.elem, was, |v.es|)
    ensures Yields(h, Enc(h, d, v).syms, DecInto(h, names, kind, was, Enc(h, d, v).bytes + suffix),
                   Array(ConvertSeq(h, kind.elem, v.es).value + Room(kind.elem, was, |v.es|)[|v.es|..]), suffix)
    decreases kind, 0, 0
  {
    hide InStep, EncHead, DecHead, NormHead, FitsHead, EncSeq, DecElems, ConvertSeq, Room, Fresh;
    var head := EncHead(h, d, v);
    var tail := EncSeq(h, head.syms, v.es);
    FewerSymbols(head.syms, tail.syms);
    assert Enc(h, d, v).bytes + suffix == head.bytes + (tail.bytes + suffix);
    HeadRoundTrip(h, d, names, v, tail.bytes + suffix);
    ContainerHead(h, v);
    var room := Room(kind.elem, was, |v.es|);
    ElemsRoundTrip(h, head.syms, DecHead(h, names, head.bytes + (tail.bytes + suffix)).value.names, kind.elem, room[..|v.es|], v.es, suffix);
  }

  lemma {:induction false} SliceField(h: Handle, d: Symbols, names: Names, kind: Kind, v: Value, suffix: seq<byte>)
    requires Encodable(h, v) && InStep(h, d, names) && |Enc(h, d, v).syms.ids| <= TWO16
    requires kind.Valid() && kind.KSlice? && v.Array? && ConvertSeq(h, kind.elem, v.es).Some?
    ensures Yields(h, Enc(h, d, v).syms, DecField(h, names, kind, Enc(h, d, v).bytes + suffix), Array(ConvertSeq(h, kind.elem, v.es).value), suffix)
    decreases kind, 0, 1
  {
    hide InStep, Enc, Encodable, DecInto, ConvertSeq;
    var n := |v.es|;
    assert [] + Zeros(kind.elem, n) == Zeros(kind.elem, n) && Room(kind.elem, Nil, n)[n..] == [];
    SliceUpdate(h, d, names, kind, Nil, v, suffix);
    assert ConvertSeq(h, kind.elem, v.es).value + [] == ConvertSeq(h, kind.elem, v.es).value;
  }

  lemma {:induction false} ElemsRoundTrip(h: Handle, d: Symbols, names: Names, elem: Kind, was: seq<Value>, es: seq<Value>, suffix: seq<byte>)
    requires EncodableSeq(h, es) && InStep(h, d, names) && |EncSeq(h, d, es).syms.ids| <= TWO16
    requires elem.Valid() && ConvertSeq(h, elem, es).Some? && |was| == |es| && forall i :: 0 <= i < |es| ==> Fresh(elem, was[i])
    ensures var out := EncSeq(h, d, es);
            Yields(h, out.syms, DecElems(h, names, elem, was, out.bytes + suffix), ConvertSeq(h, elem, es).value, suffix)
    decreases elem, 1, |es|
  {
    hide InStep, Enc, DecInto, DecField, Convert, Encodable, Fresh;
    if es == [] {
      assert [] + suffix == suffix;
    } else {
      var first := Enc(h, d, es[0]);
      var tail := EncSeq(h, first.syms, es[1..]);
      FewerSymbols(first.syms, tail.syms);
      assert EncSeq(h, d, es).bytes + suffix == first.bytes + (tail.bytes + suffix);
      FieldRoundTrip(h, d, names, elem, es[0], tail.bytes + suffix);
      FreshRead(h, names, elem, was[0], first.bytes + (tail.bytes + suffix));
      ElemsRoundTrip(h, first.syms, DecField(h, names, elem, first.bytes + (tail.bytes + suffix)).value.names, elem, was[1..], es[1..], suffix);
    }
  }

  /** readMapLen on the preamble of a map. */
  lemma {:induction false} MapLenRead(h: Handle, d: Symbols, v: Value, suffix: seq<byte>)
    requires v.Map? && FitsHead(h, v)
    ensures var e := EncHead(h, d, v).bytes + suffix;
            e != [] && !IsNilByte(h, e[0]) && DecMapLen(h, e[0], e[1..]) == Ok(|v.kvs|, suffix)
  {
    hide M.ReadLen, B.EncLen, B.DecLen;
    if h.Msgpack? {
      M.LenRoundTrip(M.MAP, h.writeExt, |v.kvs|, suffix);
    } else {
      B.LenShape(0x70, |v.kvs|, suffix);
      B.LenRoundTripExact(|v.kvs|, suffix);
    }
  }

  /** A map onto one that holds something: its entries are stored one after the other on top of those there. */
  lemma {:induction false} MapUpdate(h: Handle, d: Symbols, names: Names, kind: Kind, was: Value, v: Value, suffix: seq<byte>)
    requires Encodable(h, v) && InStep(h, d, names) && |Enc(h, d, v).syms.ids| <= TWO16
    requires kind.Valid() && kind.KMap? && v.Map? && ConvertPairs(h, kind.val, v.kvs).Some? && forall i :: 0 <= i < |v.kvs| ==> IsName(v.kvs[i].k)
    ensures Yields(h, Enc(h, d, v).syms, DecInto(h, names, kind, was, Enc(h, d, v).bytes + suffix),
                   Map(PutAll(if was.Map? then was.kvs else [], ConvertPairs(h, kind.val, v.kvs).value)), suffix)
    decreases kind, 0, 0
  {
    hide InStep, EncHead, DecHead, FitsHead, EncPairs, DecMapOf, ConvertPairs, DecMapLen, IsNilByte, PutAll;
    var head := EncHead(h, d, v);
    HeadKeepsSymbols(h, d, v);
    var tail := EncPairs(h, d, v.kvs);
    assert Enc(h, d, v).bytes + suffix == head.bytes + (tail.bytes + suffix);
    MapLenRead(h, d, v, tail.bytes + suffix);
    MapOfLastWins(h, d, names, kind.val, v.kvs, if was.Map? then was.kvs else [], suffix);
  }

  lemma {:induction false} MapField(h: Handle, d: Symbols, names: Names, kind: Kind, v: Value, suffix: seq<byte>)
    requires Encodable(h, v) && InStep(h, d, names) && |Enc(h, d, v).syms.ids| <= TWO16
    requires kind.Valid() && kind.KMap? && v.Map? && IsStruct(v.kvs) && ConvertPairs(h, kind.val, v.kvs).Some?
    ensures Yields(h, Enc(h, d, v).syms, DecField(h, names, kind, Enc(h, d, v).bytes + suffix), Map(ConvertPairs(h, kind.val, v.kvs).value), suffix)
    decreases kind, 0, 1
  {
    hide InStep, Enc, Encodable, DecInto, ConvertPairs, PutAll, IsStruct;
    ConvertedKeys(h, kind.val, v.kvs);
    var m := ConvertPairs(h, kind.val, v.kvs).value;
    assert [] + m == m;
    MapUpdate(h, d, names, kind, Nil, v, suffix);
    PutAllDistinct([], m);
  }

  lemma {:induction false} PutAllDistinct(m: seq<Pair>, kvs: seq<Pair>)
    requires DistinctKeys(m + kvs)
    ensures PutAll(m, kvs) == m + kvs
    decreases |kvs|
  {
    if kvs == [] {
      assert m + kvs == m;
    } else {
      assert (m + [kvs[0]]) + kvs[1..] == m + kvs;
      NextKey(m, kvs[0], kvs[1..]);
      PutAllDistinct(m + [kvs[0]], kvs[1..]);
    }
  }

  predicate IsName(k: Value) {
    k.Sym? || k.Str?
  }

  lemma {:induction false} ConvertedKey(h: Handle, val: Kind, kvs: seq<Pair>, i: nat)
    requires val.Valid() && ConvertPairs(h, val, kvs).Some? && i < |kvs|
    ensures |ConvertPairs(h, val, kvs).value| == |kvs| && ConvertPairs(h, val, kvs).value[i].k == Str(NameIn(kvs[i].k))
    decreases |kvs|
  {
    hide Convert;
    if i > 0 {
      ConvertedKey(h, val, kvs[1..], i - 1);
    } else if |kvs| > 1 {
      ConvertedKey(h, val, kvs[1..], 0);
    }
  }

  lemma {:induction false} ConvertedKeys(h: Handle, val: Kind, kvs: seq<Pair>)
    requires val.Valid() && IsStruct(kvs) && ConvertPairs(h, val, kvs).Some?
    ensures DistinctKeys(ConvertPairs(h, val, kvs).value) && forall i :: 0 <= i < |kvs| ==> IsName(kvs[i].k)
  {
    hide ConvertPairs;
    var m := ConvertPairs(h, val, kvs).value;
    forall i | 0 <= i < |kvs| ensures IsName(kvs[i].k) {
      assert kvs[i] == Entries(AsSymbols(kvs), FieldsOf(kvs))[i];
    }
    if kvs != [] { ConvertedKey(h, val, kvs, 0); } else { NoPairs(h, val); }
    forall i, j | 0 <= i < j < |m| ensures !KeyEq(m[i].k, m[j].k) {
      ConvertedKey(h, val, kvs, i);
      ConvertedKey(h, val, kvs, j);
      assert FieldsOf(kvs)[i].name != FieldsOf(kvs)[j].name;
    }
  }

  lemma {:induction false} NoPairs(h: Handle, val: Kind)
    requires val.Valid()
    ensures ConvertPairs(h, val, []) == Some([])
  {
  }

  /** The entries of a typed map, repeated keys or not: each is stored on top of the ones before. */
  lemma {:induction false} MapOfLastWins(h: Handle, d: Symbols, names: Names, val: Kind, kvs: seq<Pair>, m: seq<Pair>, suffix: seq<byte>)
    requires EncodablePairs(h, kvs) && InStep(h, d, names) && |EncPairs(h, d, kvs).syms.ids| <= TWO16
    requires val.Valid() && ConvertPairs(h, val, kvs).Some? && forall i :: 0 <= i < |kvs| ==> IsName(kvs[i].k)
    ensures var out := EncPairs(h, d, kvs);
            Yields(h, out.syms, DecMapOf(h, names, val, |kvs|, m, out.bytes + suffix), PutAll(m, ConvertPairs(h, val, kvs).value), suffix)
    decreases val, 1, |kvs|
  {
    hide InStep, Enc, DecInto, DecField, DecScalar, Convert, Encodable, NameIn, Zero, Put, Find;
    if kvs == [] {
      assert [] + suffix == suffix;
    } else {
      EntryBelow(kvs);
      var k := Enc(h, d, kvs[0].k);
      var v := Enc(h, k.syms, kvs[0].v);
      var tail := EncPairs(h, v.syms, kvs[1..]);
      FewerSymbols(v.syms, tail.syms);
      FewerSymbols(k.syms, v.syms);
      assert EncPairs(h, d, kvs).bytes + suffix == k.bytes + (v.bytes + (tail.bytes + suffix));
      KeyField(h, d, names, kvs[0].k, v.bytes + (tail.bytes + suffix));
      var x := DecScalar(h, names, KString, k.bytes + (v.bytes + (tail.bytes + suffix))).value;
      FieldRoundTrip(h, k.syms, x.names, val, kvs[0].v, tail.bytes + suffix);
      ZeroRead(h, x.names, val, v.bytes + (tail.bytes + suffix));
      var y := DecField(h, x.names, val, v.bytes + (tail.bytes + suffix)).value;
      MapOfLastWins(h, v.syms, y.names, val, kvs[1..], Put(m, x.value, y.value), suffix);
    }
  }

  lemma {:induction false} ZeroRead(h: Handle, names: Names, kind: Kind, bs: seq<byte>)
    requires kind.Valid()
    ensures DecInto(h, names, kind, Zero(kind), bs) == DecField(h, names, kind, bs)
  {
  }

  lemma {:induction false} KeyField(h: Handle, d: Symbols, names: Names, k: Value, suffix: seq<byte>)
    requires Encodable(h, k) && InStep(h, d, names) && IsName(k) && |Enc(h, d, k).syms.ids| <= TWO16
    ensures Yields(h, Enc(h, d, k).syms, DecScalar(h, names, KString, Enc(h, d, k).bytes + suffix), Str(NameIn(k)), suffix)
  {
    hide InStep, Enc, DecScalar, FitsHead;
    StringField(h, d, names, k, suffix);
  }

  lemma {:induction false} StructField(h: Handle, d: Symbols, names: Names, kind: Kind, v: Value, suffix: seq<byte>)
    requires Encodable(h, v) && InStep(h, d, names) && |Enc(h, d, v).syms.ids| <= TWO16
    requires kind.Valid() && kind.KStruct? && v.Map? && IsStruct(v.kvs) && Holds(h, FieldsOf(v.kvs), kind.fields)
    ensures Yields(h, Enc(h, d, v).syms, DecField(h, names, kind, Enc(h, d, v).bytes + suffix),
                   Array(Merge(h, kind.fields, Zeroed(kind.fields), FieldsOf(v.kvs))), suffix)
    decreases kind, 0, 0
  {
    hide InStep, Enc, DecStructInto, FitsHead, EncodablePairs, Holds, Merge, Compatible, FieldsOf, Entries, AsSymbols, DistinctNames, DistinctFields, FreshFor;
    var fs, b := FieldsOf(v.kvs), AsSymbols(v.kvs);
    NestedCompatible(h, b, fs, kind.fields);
    ZeroedFresh(kind.fields, fs);
    StructUpdate(h, d, names, b, fs, kind.fields, Zeroed(kind.fields), suffix);
  }

  lemma {:induction false} NestedCompatible(h: Handle, asSymbols: bool, fs: seq<OutField>, fields: seq<Field>)
    requires ValidFields(fields) && EncodablePairs(h, Entries(asSymbols, fs)) && Holds(h, fs, fields)
    ensures Compatible(h, asSymbols, fs, fields)
  {
    hide Encodable, FitsHead, Convert, EncodablePairs, Entries;
    EachEncodable(h, asSymbols, fs);
  }

  lemma {:induction false} EachEncodable(h: Handle, asSymbols: bool, fs: seq<OutField>)
    requires EncodablePairs(h, Entries(asSymbols, fs))
    ensures forall i :: 0 <= i < |fs| ==> Encodable(h, fs[i].v) && FitsHead(h, NameValue(asSymbols, fs[i].name))
    decreases |fs|
  {
    hide FitsHead;
    if fs != [] {
      var kvs := Entries(asSymbols, fs);
      assert kvs[0] == Pair(NameValue(asSymbols, fs[0].name), fs[0].v) && kvs[1..] == Entries(asSymbols, fs[1..]);
      EachEncodable(h, asSymbols, fs[1..]);
      assert forall i :: 0 < i < |fs| ==> fs[1..][i - 1] == fs[i];
    }
  }

  /** The first byte of a string or byte string tells the family it is in. */
  lemma {:induction false} RawFirst(h: Handle, ct: M.Container, l: nat)
    requires h.Msgpack? && (ct == M.STR || ct == M.BIN)
    ensures var e := M.EncLen(ct, h.writeExt, l);
            e != [] && e[0] != M.NIL && IsRawByte(h, e[0]) && M.BytesContainer(e[0]) == ct
  {
    hide BE;
  }

  lemma {:induction false} RawBytesRead(h: Handle, d: Symbols, v: Value, suffix: seq<byte>)
    requires FitsHead(h, v) && (v.Bytes? || v.Str?)
    ensures var e := Enc(h, d, v).bytes + suffix;
            && e != [] && !IsNilByte(h, e[0]) && IsRawByte(h, e[0])
            && DecRawBytes(h, e[0], e[1..]) == Ok(if v.Bytes? then v.bs else v.s, suffix)
  {
    hide M.EncLen, M.ReadLen, B.EncLen, B.DecLen;
    var s := if v.Bytes? then v.bs else v.s;
    if h.Msgpack? {
      var ct := if v.Str? then M.STR else M.RawContainer(h.writeExt);
      RawFirst(h, ct, |s|);
      M.RawRoundTrip(ct, h.writeExt, s, suffix);
    } else {
      B.RawRoundTrip(if v.Str? then 0x40 else 0x50, s, suffix);
    }
  }

  lemma {:induction false} RawKeepsSymbols(h: Handle, d: Symbols, v: Value)
    requires v.Bytes? || v.Str?
    ensures Enc(h, d, v).syms == d
  {
  }

  lemma {:induction false} BytesField(h: Handle, d: Symbols, names: Names, v: Value, suffix: seq<byte>)
    requires Encodable(h, v) && InStep(h, d, names) && (v.Bytes? || v.Str?)
    ensures Yields(h, Enc(h, d, v).syms, DecField(h, names, KBytes, Enc(h, d, v).bytes + suffix), Bytes(if v.Bytes? then v.bs else v.s), suffix)
  {
    hide InStep, Enc, DecOctetsInto, IsRawByte, IsNilByte, DecRawBytes, FitsHead;
    RawKeepsSymbols(h, d, v);
    RawBytesRead(h, d, v, suffix);
  }

  /**
   * Integers into integer types, in both formats and at every width: a number z that the width holds is read as z,
   * any other is an error, apart from what the formats change: from 2^63 on decodeInt reads z - 2^64, and Binc
   * loses leading bytes of some negative magnitudes.
   */
  lemma {:induction false} IntegerExact(h: Handle, d: Symbols, names: Names, kind: Kind, v: Value, suffix: seq<byte>)
    requires FitsHead(h, v) && InStep(h, d, names) && (v.Int? || v.Uint?) && (kind.KInt? || kind.KUint?) && kind.Valid()
    requires var z := if v.Int? then v.i else v.u; !(h.Binc? && 0xFF80_0000 <= -z <= 0xFFFF_FFFF)
    ensures var z := if v.Int? then v.i else v.u;
            var r := DecField(h, names, kind, Enc(h, d, v).bytes + suffix);
            var i := if z < TWO63 then z else z - TWO64;
            if kind.KInt? then (if 0 - Pow2(kind.bits - 1) <= i < Pow2(kind.bits - 1) then Yields(h, d, r, Int(i), suffix) else r.Err?)
            else (if 0 <= z < Pow2(kind.bits) then Yields(h, d, r, Uint(z), suffix) else r.Err?)
  {
    hide InStep, Enc, DecScalar, Pow2, SeenInt, FitsHead;
    IntField(h, d, names, kind, v, suffix);
    NumberRange(h, v);
    SeenExact(h, if v.Int? then v.i else v.u);
  }

  lemma {:induction false} NumberRange(h: Handle, v: Value)
    requires FitsHead(h, v) && (v.Int? || v.Uint?)
    ensures -TWO63 <= (if v.Int? then v.i else v.u) < TWO64
  {
  }

  lemma {:induction false} SeenExact(h: Handle, z: int)
    requires -TWO63 <= z < TWO64 && !(h.Binc? && 0xFF80_0000 <= -z <= 0xFFFF_FFFF)
    ensures SeenInt(h, z) == if z < TWO63 then z else z - TWO64
  {
    hide B.Seen;
    if h.Binc? { B.DecIntExact(z, 1, []); }
  }

  /** Reading an integer into an integer type fails exactly when it has no conversion. */
  lemma {:induction false} NoConversion(h: Handle, d: Symbols, names: Names, kind: Kind, v: Value, suffix: seq<byte>)
    requires FitsHead(h, v) && InStep(h, d, names) && (v.Int? || v.Uint?) && (kind.KInt? || kind.KUint?) && kind.Valid()
    ensures DecField(h, names, kind, Enc(h, d, v).bytes + suffix).Err? <==> Convert(h, kind, v).None?
  {
    hide InStep, Enc, DecScalar, ConvertScalar, FitsHead;
    IntField(h, d, names, kind, v, suffix);
  }

  /** A variable of any type that can hold what was sent receives exactly its conversion. */
  lemma {:induction false} FieldRoundTrip(h: Handle, d: Symbols, names: Names, kind: Kind, v: Value, suffix: seq<byte>)
    requires Encodable(h, v) && InStep(h, d, names) && |Enc(h, d, v).syms.ids| <= TWO16
    requires kind.Valid() && Convert(h, kind, v).Some?
    ensures Yields(h, Enc(h, d, v).syms, DecField(h, names, kind, Enc(h, d, v).bytes + suffix), Convert(h, kind, v).value, suffix)
    decreases kind, 0, 2
  {
    hide InStep, Enc, FitsHead, Dec, Norm, Encodable, DecScalar, ConvertScalar, ConvertSeq, ConvertPairs, Merge, Holds, IsStruct;
    if kind.KAny? {
      RoundTrip(h, d, names, v, suffix);
    } else if v.Nil? {
      NilField(h, d, names, kind, suffix);
    } else if kind.KSlice? {
      SliceField(h, d, names, kind, v, suffix);
    } else if kind.KMap? {
      MapField(h, d, names, kind, v, suffix);
    } else if kind.KStruct? {
      StructField(h, d, names, kind, v, suffix);
    } else if kind.KBytes? {
      BytesField(h, d, names, v, suffix);
    } else {
      ScalarField(h, d, names, kind, v, suffix);
    }
  }

  // ------------------------------------------------------------------
  // Sender and receiver with the same type

  /**
   * x is a value of the type and v is how it is written: a struct as a map with its fields in any order, those left
   * out being zero. In an interface only normal forms, and in Binc not the integers and floats that it changes.
   */
  ghost predicate WrittenAs(h: Handle, kind: Kind, x: Value, v: Value)
    requires kind.Valid()
    decreases kind
  {
    match kind
    case KAny => v == x && Norm(h, x) == x
    case KBool => v == x && x.Bool?
    case KInt(bits) => v == x && x.Int? && 0 - Pow2(bits - 1) <= x.i < Pow2(bits - 1) && SeenInt(h, x.i) == x.i
    case KUint(bits) => v == x && x.Uint? && x.u < Pow2(bits)
    case KFloat => v == x && x.Float64? && Norm(h, x) == x
    case KString => v == x && x.Str?
    case KBytes => v == x && x.Bytes?
    case KSlice(elem) =>
      || (x.Nil? && v.Nil?)
      || (x.Array? && v.Array? && |x.es| == |v.es| && forall i :: 0 <= i < |x.es| ==> WrittenAs(h, elem, x.es[i], v.es[i]))
    case KMap(val) =>
      || (x.Nil? && v.Nil?)
      || (x.Map? && v.Map? && IsStruct(v.kvs) && |x.kvs| == |v.kvs|
          && forall i :: 0 <= i < |x.kvs| ==> x.kvs[i].k == Str(NameIn(v.kvs[i].k)) && WrittenAs(h, val, x.kvs[i].v, v.kvs[i].v))
    case KStruct(fields) =>
      && x.Array? && v.Map? && |x.es| == |fields| && IsStruct(v.kvs)
      && forall k :: 0 <= k < |fields| ==>
           var j := SentIndex(FieldsOf(v.kvs), fields[k].name);
           if j < |v.kvs| then (FieldBelow(fields, k); WrittenAs(h, fields[k].kind, x.es[k], v.kvs[j].v)) else x.es[k] == Zero(fields[k].kind)
  }

  /** The values of a type that the format keeps: in an interface only normal forms, in Binc not all numbers. */
  ghost predicate HasType(h: Handle, kind: Kind, x: Value)
    requires kind.Valid()
    decreases kind
  {
    match kind
    case KAny => Norm(h, x) == x
    case KBool => x.Bool?
    case KInt(bits) => x.Int? && 0 - Pow2(bits - 1) <= x.i < Pow2(bits - 1) && !(h.Binc? && 0xFF80_0000 <= -x.i <= 0xFFFF_FFFF)
    case KUint(bits) => x.Uint? && x.u < Pow2(bits)
    case KFloat => x.Float64? && !(h.Binc? && x.f64 % TWO63 == 0 && x.f64 != 0)
    case KString => x.Str?
    case KBytes => x.Bytes?
    case KSlice(elem) => x.Nil? || (x.Array? && forall i :: 0 <= i < |x.es| ==> HasType(h, elem, x.es[i]))
    case KMap(val) =>
      x.Nil? || (x.Map? && (forall i :: 0 <= i < |x.kvs| ==> x.kvs[i].k.Str? && HasType(h, val, x.kvs[i].v))
                 && forall i, j :: 0 <= i < j < |x.kvs| ==> x.kvs[i].k != x.kvs[j].k)
    case KStruct(fields) =>
      x.Array? && |x.es| == |fields| && forall k :: 0 <= k < |fields| ==> (FieldBelow(fields, k); HasType(h, fields[k].kind, x.es[k]))
  }

  lemma {:induction false} ScalarWritten(h: Handle, kind: Kind, x: Value)
    requires kind.Valid() && (kind.Scalar() || kind.KAny? || kind.KBytes?) && HasType(h, kind, x)
    ensures WrittenAs(h, kind, x, x)
  {
    hide Pow2, B.Seen;
    if kind.KInt? {
      IntWidth(kind.bits);
      SeenExact(h, x.i);
    }
  }

  lemma {:induction false} IntWidth(bits: nat)
    requires 1 <= bits <= 64
    ensures Pow2(bits - 1) <= TWO63
  {
    hide Pow2;
    Pow2Values();
    Floats.Pow2Monotone(bits - 1, 63);
  }

  /** Every value of every type can be written, a struct with all its fields. */
  lemma {:induction false} CanBeWritten(h: Handle, kind: Kind, x: Value) returns (v: Value)
    requires kind.Valid() && HasType(h, kind, x)
    ensures WrittenAs(h, kind, x, v)
    decreases kind, 0, 0
  {
    hide Pow2, SeenInt, IsStruct, FieldsOf, SentIndex, Norm;
    v := x;
    if kind.KSlice? && x.Array? {
      var vs := ElemsCanBeWritten(h, kind.elem, x.es);
      v := Array(vs);
    } else if kind.KMap? && x.Map? {
      var kvs := EntriesCanBeWritten(h, kind.val, x.kvs);
      NamedEntries(x.kvs, kvs);
      v := Map(kvs);
    } else if kind.KStruct? {
      var kvs := FieldsCanBeWritten(h, kind.fields, x.es, |kind.fields|);
      FieldEntries(kind.fields, kvs);
      v := Map(kvs);
    } else if !kind.KSlice? && !kind.KMap? {
      ScalarWritten(h, kind, x);
    }
  }

  lemma {:induction false} ElemsCanBeWritten(h: Handle, elem: Kind, xs: seq<Value>) returns (vs: seq<Value>)
    requires elem.Valid() && forall i :: 0 <= i < |xs| ==> HasType(h, elem, xs[i])
    ensures |vs| == |xs| && forall i :: 0 <= i < |xs| ==> WrittenAs(h, elem, xs[i], vs[i])
    decreases elem, 1, |xs|
  {
    hide HasType, WrittenAs;
    vs := [];
    if xs != [] {
      var v := CanBeWritten(h, elem, xs[0]);
      var others := ElemsCanBeWritten(h, elem, xs[1..]);
      vs := [v] + others;
      assert forall i :: 0 < i < |xs| ==> xs[1..][i - 1] == xs[i];
    }
  }

  lemma {:induction false} EntriesCanBeWritten(h: Handle, val: Kind, xs: seq<Pair>) returns (kvs: seq<Pair>)
    requires val.Valid() && forall i :: 0 <= i < |xs| ==> HasType(h, val, xs[i].v)
    ensures |kvs| == |xs| && forall i :: 0 <= i < |xs| ==> kvs[i].k == xs[i].k && WrittenAs(h, val, xs[i].v, kvs[i].v)
    decreases val, 1, |xs|
  {
    hide HasType, WrittenAs;
    kvs := [];
    if xs != [] {
      var v := CanBeWritten(h, val, xs[0].v);
      var others := EntriesCanBeWritten(h, val, xs[1..]);
      kvs := [Pair(xs[0].k, v)] + others;
      assert forall i :: 0 < i < |xs| ==> xs[1..][i - 1] == xs[i];
    }
  }

  /** The first n fields of a struct. */
  lemma {:induction false} FieldsCanBeWritten(h: Handle, fields: seq<Field>, xs: seq<Value>, n: nat) returns (kvs: seq<Pair>)
    requires ValidFields(fields) && |xs| == |fields| && n <= |fields| && forall k :: 0 <= k < |fields| ==> HasType(h, fields[k].kind, xs[k])
    ensures |kvs| == n && forall k :: 0 <= k < n ==> kvs[k].k == Str(fields[k].name) && WrittenAs(h, fields[k].kind, xs[k], kvs[k].v)
    decreases fields, 1, n
  {
    hide HasType, WrittenAs;
    kvs := [];
    if n > 0 {
      kvs := FieldsCanBeWritten(h, fields, xs, n - 1);
      FieldBelow(fields, n - 1);
      var v := CanBeWritten(h, fields[n - 1].kind, xs[n - 1]);
      kvs := kvs + [Pair(Str(fields[n - 1].name), v)];
    }
  }

  lemma {:induction false} NamedEntries(xs: seq<Pair>, kvs: seq<Pair>)
    requires |xs| == |kvs| && forall i :: 0 <= i < |xs| ==> xs[i].k.Str? && kvs[i].k == xs[i].k
    requires forall i, j :: 0 <= i < j < |xs| ==> xs[i].k != xs[j].k
    ensures IsStruct(kvs) && forall i :: 0 <= i < |xs| ==> xs[i].k == Str(NameIn(kvs[i].k))
  {
    var fs := FieldsOf(kvs);
    assert forall i :: 0 <= i < |kvs| ==> Entries(AsSymbols(kvs), fs)[i] == kvs[i];
  }

  lemma {:induction false} FieldEntries(fields: seq<Field>, kvs: seq<Pair>)
    requires DistinctFields(fields) && |kvs| == |fields| && forall k :: 0 <= k < |fields| ==> kvs[k].k == Str(fields[k].name)
    ensures IsStruct(kvs) && forall k :: 0 <= k < |fields| ==> SentIndex(FieldsOf(kvs), fields[k].name) == k
  {
    var fs := FieldsOf(kvs);
    assert forall i :: 0 <= i < |kvs| ==> Entries(AsSymbols(kvs), fs)[i] == kvs[i];
    forall k | 0 <= k < |fields| ensures SentIndex(fs, fields[k].name) == k {
      assert fs[k].name == fields[k].name;
    }
  }

  lemma {:induction false} SameScalar(h: Handle, kind: Kind, x: Value)
    requires kind.Valid() && kind.Scalar() && WrittenAs(h, kind, x, x)
    ensures !x.Nil? && ConvertScalar(h, kind, x) == Some(x)
  {
  }

  /** A variable of the sender's own type receives the very value sent. */
  lemma {:induction false} SameType(h: Handle, kind: Kind, x: Value, v: Value)
    requires kind.Valid() && WrittenAs(h, kind, x, v)
    ensures Convert(h, kind, v) == Some(x)
    decreases kind, 0, 0
  {
    hide ConvertSeq, ConvertPairs, ConvertScalar, Norm, IsStruct, Holds, Merge, SeenInt, Pow2, FieldsOf, SentIndex;
    if kind.Scalar() {
      SameScalar(h, kind, x);
    } else if kind.KSlice? && !x.Nil? {
      SameElems(h, kind.elem, x.es, v.es);
    } else if kind.KMap? && !x.Nil? {
      SamePairs(h, kind.val, x.kvs, v.kvs);
    } else if kind.KStruct? {
      SameStruct(h, kind.fields, x.es, v.kvs);
    }
  }

  lemma {:induction false} SameElems(h: Handle, elem: Kind, xs: seq<Value>, vs: seq<Value>)
    requires elem.Valid() && |xs| == |vs| && forall i :: 0 <= i < |xs| ==> WrittenAs(h, elem, xs[i], vs[i])
    ensures ConvertSeq(h, elem, vs) == Some(xs)
    decreases elem, 1, |xs|
  {
    hide WrittenAs, Convert;
    if vs != [] {
      SameType(h, elem, xs[0], vs[0]);
      SameElems(h, elem, xs[1..], vs[1..]);
      assert [xs[0]] + xs[1..] == xs;
    }
  }

  lemma {:induction false} SamePairs(h: Handle, val: Kind, xs: seq<Pair>, kvs: seq<Pair>)
    requires val.Valid() && |xs| == |kvs|
    requires forall i :: 0 <= i < |xs| ==> xs[i].k == Str(NameIn(kvs[i].k)) && WrittenAs(h, val, xs[i].v, kvs[i].v)
    ensures ConvertPairs(h, val, kvs) == Some(xs)
    decreases val, 1, |xs|
  {
    hide WrittenAs, Convert, NameIn;
    if kvs != [] {
      SameType(h, val, xs[0].v, kvs[0].v);
      SamePairs(h, val, xs[1..], kvs[1..]);
      assert [xs[0]] + xs[1..] == xs;
    }
  }

  lemma {:induction false} SameStruct(h: Handle, fields: seq<Field>, xs: seq<Value>, kvs: seq<Pair>)
    requires ValidFields(fields) && DistinctFields(fields) && |xs| == |fields| && IsStruct(kvs)
    requires forall k :: 0 <= k < |fields| ==>
               var j := SentIndex(FieldsOf(kvs), fields[k].name);
               if j < |kvs| then WrittenAs(h, fields[k].kind, xs[k], kvs[j].v) else xs[k] == Zero(fields[k].kind)
    ensures Holds(h, FieldsOf(kvs), fields) && Merge(h, fields, Zeroed(fields), FieldsOf(kvs)) == xs
    decreases fields, 1, 0
  {
    hide WrittenAs, Convert, Zero, IndexOf, SentIndex;
    var fs := FieldsOf(kvs);
    forall k | 0 <= k < |fields| && SentIndex(fs, fields[k].name) < |fs|
      ensures Convert(h, fields[k].kind, fs[SentIndex(fs, fields[k].name)].v) == Some(xs[k])
    {
      FieldBelow(fields, k);
      SameType(h, fields[k].kind, xs[k], kvs[SentIndex(fs, fields[k].name)].v);
    }
    forall i | 0 <= i < |fs| && IndexOf(fields, fs[i].name) < |fields|
      ensures SentIndex(fs, fields[IndexOf(fields, fs[i].name)].name) == i
    {
    }
  }

  /** Encoding a value and decoding it into a variable of its own type, however deeply nested, gives it back. */
  lemma {:induction false} TypedRoundTrip(h: Handle, d: Symbols, names: Names, kind: Kind, x: Value, v: Value, suffix: seq<byte>)
    requires kind.Valid() && WrittenAs(h, kind, x, v) && Encodable(h, v)
    requires InStep(h, d, names) && |Enc(h, d, v).syms.ids| <= TWO16
    ensures Yields(h, Enc(h, d, v).syms, DecField(h, names, kind, Enc(h, d, v).bytes + suffix), x, suffix)
  {
    hide InStep, Enc, Encodable, DecField, Convert, WrittenAs;
    SameType(h, kind, x, v);
    FieldRoundTrip(h, d, names, kind, v, suffix);
  }

  /** Reading Merge: a field shared with the sender holds its conversion, any other is zero. */
  lemma {:induction false} MergedField(h: Handle, fields: seq<Field>, fs: seq<OutField>, k: nat)
    requires ValidFields(fields) && k < |fields| && DistinctNames(fs)
    ensures var r := Merge(h, fields, Zeroed(fields), fs)[k];
            && (forall j :: 0 <= j < |fs| && fs[j].name == fields[k].name && Convert(h, fields[k].kind, fs[j].v).Some?
                  ==> r == Convert(h, fields[k].kind, fs[j].v).value)
            && ((forall j :: 0 <= j < |fs| ==> fs[j].name != fields[k].name) ==> r == Zero(fields[k].kind))
  {
    hide Convert;
    var j := SentIndex(fs, fields[k].name);
  }
}
