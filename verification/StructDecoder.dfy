/** kStruct as the source runs it: a loop over the stream's entries that fills the destination's fields in place. */
module StructDecoder {
  import opened Bytes
  import opened Values
  import opened Codec
  import opened Reader
  import opened Structs
  import opened FieldIndex
  import opened Decoder
  import M = MsgpackDriver
  import B = BincDriver

  /**
   * A struct type: its fields in declaration order, and the order that sorts them by encoded name.
   * Position j of the sorted list is the field sorted[j].
   */
  datatype TypeInfo = TypeInfo(sfip: seq<Field>, sorted: seq<nat>) {
    ghost predicate Valid() {
      && ValidFields(sfip) && |sorted| == |sfip|
      && (forall j :: 0 <= j < |sorted| ==> sorted[j] < |sfip|)
      && (forall i :: 0 <= i < |sfip| ==> i in sorted)
      && (forall i, j :: 0 <= i < j < |sfip| ==> sfip[i].name != sfip[j].name)
      && Sorted(Sfi())
    }

    function Sfi(): (r: seq<Field>)
      requires forall j :: 0 <= j < |sorted| ==> sorted[j] < |sfip|
      ensures |r| == |sorted| && forall j :: 0 <= j < |r| ==> r[j] == sfip[sorted[j]]
    {
      seq(|sorted|, j requires 0 <= j < |sorted| => sfip[sorted[j]])
    }
  }

  predicate Ordered(fields: seq<Field>, order: seq<nat>) {
    && (forall j :: 0 <= j < |order| ==> order[j] < |fields|)
    && (forall a, b :: 0 <= a < b < |order| ==> !Less(fields[order[b]].name, fields[order[a]].name))
  }

  /** The place for field i among those sorted so far. */
  method PlaceFor(fields: seq<Field>, order: seq<nat>, i: nat) returns (p: nat)
    requires i < |fields| && Ordered(fields, order)
    ensures p <= |order| && Ordered(fields, order[..p] + [i] + order[p..])
  {
    p := 0;
    while p < |order| && !Less(fields[i].name, fields[order[p]].name)
      invariant p <= |order| && forall a :: 0 <= a < p ==> !Less(fields[i].name, fields[order[a]].name)
    {
      p := p + 1;
    }
    forall b | p <= b < |order| ensures !Less(fields[order[b]].name, fields[i].name) {
      LessTotal(fields[i].name, fields[order[p]].name);
      if Less(fields[order[b]].name, fields[i].name) {
        LessTotal(fields[i].name, fields[order[b]].name);
        LessTrans(fields[order[p]].name, fields[order[b]].name, fields[i].name);
      }
    }
  }

  /** getTypeInfo: the fields as declared, and their order by encoded name. */
  method TypeInfoOf(fields: seq<Field>) returns (ti: TypeInfo)
    requires ValidFields(fields) && DistinctFields(fields)
    ensures ti.Valid() && ti.sfip == fields
  {
    hide Less, ValidFields;
    var order: seq<nat> := [];
    for i := 0 to |fields|
      invariant |order| == i && Ordered(fields, order) && forall k: nat :: k < i ==> k in order
    {
      var p := PlaceFor(fields, order, i);
      ghost var was := order;
      order := order[..p] + [i] + order[p..];
      assert order[p] == i;
      forall k: nat | k < i ensures k in order {
        assert k in was;
        var a :| 0 <= a < |was| && was[a] == k;
        assert order[if a < p then a else a + 1] == k;
      }
    }
    return TypeInfo(fields, order);
  }

  /** The position found in the sorted list leads to the field of that name. */
  lemma {:induction false} SlotOf(ti: TypeInfo, name: seq<byte>)
    requires ti.Valid()
    ensures var k, slot := IndexOf(ti.Sfi(), name), IndexOf(ti.sfip, name);
            (k < |ti.sfip| <==> slot < |ti.sfip|) && (k < |ti.sfip| ==> ti.sorted[k] == slot)
  {
    hide Sorted;
    var slot := IndexOf(ti.sfip, name);
    if slot < |ti.sfip| {
      assert slot in ti.sorted;
      var j :| 0 <= j < |ti.sorted| && ti.sorted[j] == slot;
      assert ti.Sfi()[j].name == name;
    }
  }

  /** A field's name, always read as a string. */
  method DecodeName(dec: Decoder) returns (o: Outcome<seq<byte>>)
    requires dec.Valid() && !dec.Held()
    modifies dec.r, dec.msgpack, dec.binc, dec.binc.b
    ensures dec.Valid() && (o.Done? ==> !dec.Held())
    ensures Follows(DecName(dec.h, old(dec.Syms()), old(dec.Input())), o, dec.Syms(), dec.Input())
  {
    hide M.ReadRaw, B.DecString;
    if dec.h.Msgpack? {
      var _ :- dec.msgpack.InitReadNext();
      o := dec.msgpack.DecodeRaw(M.STR);
    } else {
      var _ :- dec.binc.InitReadNext();
      o := dec.binc.DecodeString();
    }
  }

  /** A descriptor is held and is no nil: the value for a field of a basic kind. */
  method DecodeTyped(dec: Decoder, kind: Kind) returns (o: Outcome<Value>)
    requires dec.Valid() && dec.Held() && kind.Valid() && kind.Scalar()
    modifies dec.r, dec.msgpack, dec.binc, dec.binc.b
    ensures dec.Valid() && (o.Done? ==> !dec.Held())
    ensures Follows(DecTyped(dec.h, old(dec.Syms()), kind, old(dec.Input())[0], old(dec.Input())[1..]), o, dec.Syms(), dec.Input())
  {
    hide M.ReadRaw, B.DecString, M.DecInt, B.DecInt, M.DecUint, B.DecUint, M.DecFloat64, B.DecFloat64;
    assert dec.Input()[1..] == dec.r.Rest();
    match kind {
      case KBool =>
        var b;
        if dec.h.Msgpack? { b :- dec.msgpack.DecodeBool(); } else { b :- dec.binc.DecodeBool(); }
        return Done(Bool(b));
      case KInt(bits) =>
        var i;
        if dec.h.Msgpack? { i :- dec.msgpack.DecodeInt(bits); } else { i :- dec.binc.DecodeInt(bits); }
        return Done(Int(i));
      case KUint(bits) =>
        var u;
        if dec.h.Msgpack? { u :- dec.msgpack.DecodeUint(bits); } else { u :- dec.binc.DecodeUint(bits); }
        return Done(Uint(u));
      case KFloat =>
        var f;
        if dec.h.Msgpack? { f :- dec.msgpack.DecodeFloat(); } else { f :- dec.binc.DecodeFloat64(); }
        return Done(Float64(f));
      case KString =>
        var s;
        if dec.h.Msgpack? { s :- dec.msgpack.DecodeRaw(M.STR); } else { s :- dec.binc.DecodeString(); }
        return Done(Str(s));
    }
  }

  /** decodeValue into a zeroed variable of a basic type. */
  method DecodeScalar(dec: Decoder, kind: Kind) returns (o: Outcome<Value>)
    requires dec.Valid() && !dec.Held() && kind.Valid() && kind.Scalar()
    modifies dec.r, dec.msgpack, dec.binc, dec.binc.b
    ensures dec.Valid() && (o.Done? ==> !dec.Held())
    ensures Follows(DecScalar(dec.h, old(dec.Syms()), kind, old(dec.Input())), o, dec.Syms(), dec.Input())
  {
    hide DecTyped, IsNilByte;
    var nil :- dec.LookForNil();
    if nil {
      return Done(Zero(kind));
    }
    o := DecodeTyped(dec, kind);
  }

  /** decodeValue into a zeroed variable of any type. */
  method DecodeField(dec: Decoder, kind: Kind) returns (o: Outcome<Value>)
    requires dec.Valid() && !dec.Held() && kind.Valid()
    modifies dec.r, dec.msgpack, dec.binc, dec.binc.b
    ensures dec.Valid() && (o.Done? ==> !dec.Held())
    ensures Follows(DecField(dec.h, old(dec.Syms()), kind, old(dec.Input())), o, dec.Syms(), dec.Input())
  {
    hide DecInto, Zero;
    o := DecodeInto(dec, kind, Zero(kind));
  }

  lemma {:induction false} IntoPlain(h: Handle, names: Names, kind: Kind, was: Value, bs: seq<byte>)
    requires kind.Valid()
    ensures kind.KAny? ==> DecInto(h, names, kind, was, bs) == DecOnto(h, names, was, bs)
    ensures kind.Scalar() ==> DecInto(h, names, kind, was, bs) == DecScalar(h, names, kind, bs)
    ensures kind.KStruct? ==>
              match DecStructInto(h, names, kind.fields, FieldsIn(kind.fields, was), bs)
              case Ok(x, r) => DecInto(h, names, kind, was, bs) == Ok(B.Named(Array(x.value), x.names), r)
              case Err(e) => DecInto(h, names, kind, was, bs) == Err(e)
  {
    hide DecOnto, DecScalar, DecStructInto, FieldsIn;
  }

  /** decodeValue into a variable of any type that holds was. */
  method DecodeInto(dec: Decoder, kind: Kind, was: Value) returns (o: Outcome<Value>)
    requires dec.Valid() && !dec.Held() && kind.Valid()
    modifies dec.r, dec.msgpack, dec.binc, dec.binc.b
    ensures dec.Valid() && (o.Done? ==> !dec.Held())
    ensures Follows(DecInto(dec.h, old(dec.Syms()), kind, was, old(dec.Input())), o, dec.Syms(), dec.Input())
    decreases kind, 0, 1
  {
    hide DecInto, DecOnto, DecScalar, DecStructInto, FieldsIn;
    IntoPlain(dec.h, dec.Syms(), kind, was, dec.Input());
    if kind.KSlice? {
      o := DecodeSlice(dec, kind, was);
    } else if kind.KMap? {
      o := DecodeMap(dec, kind, was);
    } else if kind.KBytes? {
      o := DecodeBytes(dec, was);
    } else if kind.KAny? {
      o := dec.DecodeOnto(was);
    } else if kind.KStruct? {
      var ti := TypeInfoOf(kind.fields);
      var vs :- DecodeStructInto(dec, ti, FieldsIn(kind.fields, was));
      return Done(Array(vs));
    } else {
      o := DecodeScalar(dec, kind);
    }
  }

  /** decodeValue on a nil, and on a map or a []byte that is not. */
  lemma {:induction false} IntoNil(h: Handle, names: Names, kind: Kind, was: Value, bs: seq<byte>)
    requires kind.Valid() && (kind.KMap? || kind.KBytes?)
    ensures bs == [] ==> DecInto(h, names, kind, was, bs) == Err(EOF)
    ensures bs != [] && IsNilByte(h, bs[0]) ==> DecInto(h, names, kind, was, bs) == Ok(B.Named(Zero(kind), names), bs[1..])
  {
    hide DecBytesInto, DecMapOf, DecMapLen, IsNilByte;
  }

  lemma {:induction false} IntoMap(h: Handle, names: Names, val: Kind, was: Value, bs: seq<byte>)
    requires KMap(val).Valid() && bs != [] && !IsNilByte(h, bs[0])
    ensures match DecMapLen(h, bs[0], bs[1..])
            case Err(e) => DecInto(h, names, KMap(val), was, bs) == Err(e)
            case Ok(n, r) =>
              match DecMapOf(h, names, val, n, if was.Map? then was.kvs else [], r)
              case Err(e) => DecInto(h, names, KMap(val), was, bs) == Err(e)
              case Ok(m, r2) => DecInto(h, names, KMap(val), was, bs) == Ok(B.Named(Map(m.value), m.names), r2)
  {
    hide DecMapOf, DecMapLen, IsNilByte;
  }

  lemma {:induction false} IntoBytes(h: Handle, names: Names, was: Value, bs: seq<byte>)
    requires bs != [] && !IsNilByte(h, bs[0])
    ensures match DecBytesInto(h, names, if was.Bytes? then was.bs else [], false, bs)
            case Err(e) => DecInto(h, names, KBytes, was, bs) == Err(e)
            case Ok(s, r) => DecInto(h, names, KBytes, was, bs) == Ok(B.Named(Bytes(s.value), s.names), r)
  {
    hide DecBytesInto, IsNilByte;
  }

  /** kSlice on a []byte. */
  method DecodeBytes(dec: Decoder, was: Value) returns (o: Outcome<Value>)
    requires dec.Valid() && !dec.Held()
    modifies dec.r, dec.msgpack, dec.binc, dec.binc.b
    ensures dec.Valid() && (o.Done? ==> !dec.Held())
    ensures Follows(DecInto(dec.h, old(dec.Syms()), KBytes, was, old(dec.Input())), o, dec.Syms(), dec.Input())
  {
    hide DecInto, DecBytesInto, IsNilByte;
    IntoNil(dec.h, dec.Syms(), KBytes, was, dec.Input());
    var nil :- dec.LookForNil();
    if nil {
      return Done(Bytes([]));
    }
    IntoBytes(dec.h, dec.Syms(), was, dec.Input());
    var s :- dec.DecodeBytesInto(if was.Bytes? then was.bs else [], false);
    return Done(Bytes(s));
  }

  /** kSlice: room is made for the elements that come, and those that do not come stay. */
  method DecodeSlice(dec: Decoder, kind: Kind, was: Value) returns (o: Outcome<Value>)
    requires dec.Valid() && !dec.Held() && kind.Valid() && kind.KSlice?
    modifies dec.r, dec.msgpack, dec.binc, dec.binc.b
    ensures dec.Valid() && (o.Done? ==> !dec.Held())
    ensures Follows(DecInto(dec.h, old(dec.Syms()), kind, was, old(dec.Input())), o, dec.Syms(), dec.Input())
    decreases kind, 0, 0
  {
    hide DecSliceLen, DecElems, Room;
    var n :- dec.DecodeSliceLen();
    if n.None? {
      return Done(Nil);
    }
    var room := Room(kind.elem, was, n.value);
    var es :- DecodeElems(dec, kind.elem, room[..n.value]);
    return Done(Array(es + room[n.value..]));
  }

  /** kMap. */
  method DecodeMap(dec: Decoder, kind: Kind, was: Value) returns (o: Outcome<Value>)
    requires dec.Valid() && !dec.Held() && kind.Valid() && kind.KMap?
    modifies dec.r, dec.msgpack, dec.binc, dec.binc.b
    ensures dec.Valid() && (o.Done? ==> !dec.Held())
    ensures Follows(DecInto(dec.h, old(dec.Syms()), kind, was, old(dec.Input())), o, dec.Syms(), dec.Input())
    decreases kind, 0, 0
  {
    hide DecInto, DecMapOf, DecMapLen, IsNilByte;
    IntoNil(dec.h, dec.Syms(), kind, was, dec.Input());
    var nil :- dec.LookForNil();
    if nil {
      return Done(Nil);
    }
    IntoMap(dec.h, dec.Syms(), kind.val, was, dec.Input());
    var n :- dec.DecodeMapLen();
    var m :- DecodeMapOf(dec, kind.val, n, if was.Map? then was.kvs else []);
    return Done(Map(m));
  }

  /** One turn of the element loop. */
  lemma {:induction false} ElemStep(h: Handle, names: Names, elem: Kind, es: seq<Value>, bs: seq<byte>)
    requires elem.Valid()
    ensures es == [] ==> DecElems(h, names, elem, es, bs) == Ok(B.Named([], names), bs)
    ensures es != [] ==>
              match DecInto(h, names, elem, es[0], bs)
              case Ok(x, tail) => Continues(DecElems(h, names, elem, es, bs), [x.value], DecElems(h, x.names, elem, es[1..], tail))
              case Err(e) => DecElems(h, names, elem, es, bs) == Err(e)
  {
    hide DecInto;
  }

  /** The element loop of kSlice. */
  method DecodeElems(dec: Decoder, elem: Kind, es: seq<Value>) returns (o: Outcome<seq<Value>>)
    requires dec.Valid() && !dec.Held() && elem.Valid()
    modifies dec.r, dec.msgpack, dec.binc, dec.binc.b
    ensures dec.Valid() && (o.Done? ==> !dec.Held())
    ensures Follows(DecElems(dec.h, old(dec.Syms()), elem, es, old(dec.Input())), o, dec.Syms(), dec.Input())
    decreases elem, 1, 0
  {
    hide DecInto, DecElems;
    ghost var whole := DecElems(dec.h, dec.Syms(), elem, es, dec.Input());
    var s: seq<Value> := [];
    assert whole.Ok? ==> s + whole.value.value == whole.value.value;
    assert es[0..] == es;
    for j := 0 to |es|
      invariant dec.Valid() && !dec.Held()
      invariant Continues(whole, s, DecElems(dec.h, dec.Syms(), elem, es[j..], dec.Input()))
    {
      assert es[j..][0] == es[j] && es[j..][1..] == es[j + 1..];
      ElemStep(dec.h, dec.Syms(), elem, es[j..], dec.Input());
      ghost var rest := DecElems(dec.h, dec.Syms(), elem, es[j..], dec.Input());
      var x :- DecodeInto(dec, elem, es[j]);
      ContinuesOn(whole, s, rest, x, DecElems(dec.h, dec.Syms(), elem, es[j + 1..], dec.Input()));
      s := s + [x];
    }
    ElemStep(dec.h, dec.Syms(), elem, [], dec.Input());
    assert s + [] == s;
    return Done(s);
  }

  /** One turn of the entry loop. */
  lemma {:induction false} MapStep(h: Handle, names: Names, val: Kind, n: nat, m: seq<Pair>, bs: seq<byte>)
    requires val.Valid()
    ensures n == 0 ==> DecMapOf(h, names, val, n, m, bs) == Ok(B.Named(m, names), bs)
    ensures n > 0 ==>
              match DecScalar(h, names, KString, bs)
              case Err(e) => DecMapOf(h, names, val, n, m, bs) == Err(e)
              case Ok(k, tail) =>
                match DecInto(h, k.names, val, Zero(val), tail)
                case Err(e) => DecMapOf(h, names, val, n, m, bs) == Err(e)
                case Ok(v, r) => DecMapOf(h, names, val, n, m, bs) == DecMapOf(h, v.names, val, n - 1, Put(m, k.value, v.value), r)
  {
    hide DecInto, DecScalar, Zero;
  }

  /** The entry loop of kMap. */
  method DecodeMapOf(dec: Decoder, val: Kind, n: nat, m0: seq<Pair>) returns (o: Outcome<seq<Pair>>)
    requires dec.Valid() && !dec.Held() && val.Valid()
    modifies dec.r, dec.msgpack, dec.binc, dec.binc.b
    ensures dec.Valid() && (o.Done? ==> !dec.Held())
    ensures Follows(DecMapOf(dec.h, old(dec.Syms()), val, n, m0, old(dec.Input())), o, dec.Syms(), dec.Input())
    decreases val, 1, 0
  {
    hide DecInto, DecScalar, DecMapOf, Put, Zero;
    ghost var whole := DecMapOf(dec.h, dec.Syms(), val, n, m0, dec.Input());
    var m := m0;
    for j := 0 to n
      invariant dec.Valid() && !dec.Held()
      invariant whole == DecMapOf(dec.h, dec.Syms(), val, n - j, m, dec.Input())
    {
      MapStep(dec.h, dec.Syms(), val, n - j, m, dec.Input());
      var k :- DecodeScalar(dec, KString);
      var v :- DecodeInto(dec, val, Zero(val));
      m := Put(m, k, v);
    }
    MapStep(dec.h, dec.Syms(), val, 0, m, dec.Input());
    return Done(m);
  }

  /** One entry of a map: its effect on the destination. */
  function DecEntry(h: Handle, names: Names, fields: seq<Field>, dest: seq<Value>, bs: seq<byte>): (r: Read<B.Named<seq<Value>>>)
    requires ValidFields(fields) && |dest| == |fields|
    ensures r.Ok? ==> |r.value.value| == |fields|
  {
    var (name, tail) :- DecName(h, names, bs);
    var k := IndexOf(fields, name.value);
    var (v, r) :- DecSlot(h, name.names, fields, k, At(dest, k), tail);
    Ok(B.Named(if k < |fields| then dest[k := v.value] else dest, v.names), r)
  }

  lemma {:induction false} EntryStep(h: Handle, names: Names, fields: seq<Field>, dest: seq<Value>, n: nat, bs: seq<byte>)
    requires ValidFields(fields) && |dest| == |fields| && n > 0
    ensures DecEntries(h, names, fields, dest, n, bs) ==
            match DecEntry(h, names, fields, dest, bs)
            case Ok(x, r) => DecEntries(h, x.names, fields, x.value, n - 1, r)
            case Err(e) => Err(e)
  {
    hide DecName, DecSlot, IndexOf;
  }

  lemma {:induction false} NoEntries(h: Handle, names: Names, fields: seq<Field>, dest: seq<Value>, bs: seq<byte>)
    requires ValidFields(fields) && |dest| == |fields|
    ensures DecEntries(h, names, fields, dest, 0, bs) == Ok(B.Named(dest, names), bs)
  {
  }

  /** One element of an array: its effect on the destination. */
  lemma {:induction false} PositionStep(h: Handle, names: Names, fields: seq<Field>, dest: seq<Value>, j: nat, n: nat, bs: seq<byte>)
    requires ValidFields(fields) && |dest| == |fields| && j <= n
    ensures j == n ==> DecPositions(h, names, fields, dest, j, n, bs) == Ok(B.Named(dest, names), bs)
    ensures j < n ==> (DecPositions(h, names, fields, dest, j, n, bs) ==
                       match DecSlot(h, names, fields, j, At(dest, j), bs)
                       case Ok(v, r) => DecPositions(h, v.names, fields, if j < |fields| then dest[j := v.value] else dest, j + 1, n, r)
                       case Err(e) => Err(e))
  {
    hide DecSlot;
  }

  /** A value for a field that holds was, or for none. */
  method DecodeSlot(dec: Decoder, fields: seq<Field>, k: nat, was: Value) returns (o: Outcome<Value>)
    requires dec.Valid() && !dec.Held() && ValidFields(fields)
    modifies dec.r, dec.msgpack, dec.binc, dec.binc.b
    ensures dec.Valid() && (o.Done? ==> !dec.Held())
    ensures Follows(DecSlot(dec.h, old(dec.Syms()), fields, k, was, old(dec.Input())), o, dec.Syms(), dec.Input())
    decreases fields, 0, 0
  {
    hide DecInto, Dec;
    if k < |fields| {
      FieldBelow(fields, k);
      o := DecodeInto(dec, fields[k].kind, was);
    } else {
      o := dec.Decode();
    }
  }

  /** The next entry of the stream: found by name, or read to nowhere. */
  method DecodeEntry(dec: Decoder, ti: TypeInfo, dest: array<Value>) returns (o: Outcome<()>)
    requires dec.Valid() && !dec.Held() && ti.Valid() && dest.Length == |ti.sfip|
    modifies dec.r, dec.msgpack, dec.binc, dec.binc.b, dest
    ensures dec.Valid() && (o.Done? ==> !dec.Held())
    ensures Follows(DecEntry(dec.h, old(dec.Syms()), ti.sfip, old(dest[..]), old(dec.Input())),
                    if o.Done? then Done(dest[..]) else Panic(o.error), dec.Syms(), dec.Input())
    decreases ti.sfip, 0, 1
  {
    hide Dec, DecSlot, DecName, Sorted, IndexOf, Zero;
    ghost var was := dest[..];
    var name :- DecodeName(dec);
    var k := IndexForEncName(ti.Sfi(), name);
    SlotOf(ti, name);
    var slot: nat := if k >= 0 then ti.sorted[k] else |ti.sfip|;
    var v :- DecodeSlot(dec, ti.sfip, slot, At(dest[..], slot));
    assert dest[..] == was;
    if slot < |ti.sfip| {
      dest[slot] := v;
      assert dest[..] == was[slot := v];
    }
    return Done(());
  }

  /** The entries of a map, in the order of the stream. */
  method DecodeEntries(dec: Decoder, ti: TypeInfo, dest: array<Value>, n: nat) returns (o: Outcome<()>)
    requires dec.Valid() && !dec.Held() && ti.Valid() && dest.Length == |ti.sfip|
    modifies dec.r, dec.msgpack, dec.binc, dec.binc.b, dest
    ensures dec.Valid() && (o.Done? ==> !dec.Held())
    ensures Follows(DecEntries(dec.h, old(dec.Syms()), ti.sfip, old(dest[..]), n, old(dec.Input())),
                    if o.Done? then Done(dest[..]) else Panic(o.error), dec.Syms(), dec.Input())
    decreases ti.sfip, 1, 0
  {
    hide DecEntry, DecEntries, Sorted, ValidFields;
    ghost var whole := DecEntries(dec.h, dec.Syms(), ti.sfip, dest[..], n, dec.Input());
    for j := 0 to n
      invariant dec.Valid() && !dec.Held()
      invariant whole == DecEntries(dec.h, dec.Syms(), ti.sfip, dest[..], n - j, dec.Input())
    {
      EntryStep(dec.h, dec.Syms(), ti.sfip, dest[..], n - j, dec.Input());
      var _ :- DecodeEntry(dec, ti, dest);
    }
    NoEntries(dec.h, dec.Syms(), ti.sfip, dest[..], dec.Input());
    return Done(());
  }

  /** The next element: the field at its position, or read to nowhere. */
  method DecodePosition(dec: Decoder, fields: seq<Field>, dest: array<Value>, j: nat) returns (o: Outcome<()>)
    requires dec.Valid() && !dec.Held() && ValidFields(fields) && dest.Length == |fields|
    modifies dec.r, dec.msgpack, dec.binc, dec.binc.b, dest
    ensures dec.Valid() && (o.Done? ==> !dec.Held())
    ensures match DecSlot(dec.h, old(dec.Syms()), fields, j, At(old(dest[..]), j), old(dec.Input()))
            case Ok(v, r) => o == Done(()) && dec.Syms() == v.names && dec.Input() == r && dest[..] == (if j < |fields| then old(dest[..])[j := v.value] else old(dest[..]))
            case Err(e) => o == Panic(e)
    decreases fields, 0, 1
  {
    hide DecSlot;
    ghost var was := dest[..];
    var v :- DecodeSlot(dec, fields, j, At(dest[..], j));
    assert dest[..] == was;
    if j < |fields| {
      dest[j] := v;
    }
    return Done(());
  }

  /** The elements of an array, in order. */
  method DecodePositions(dec: Decoder, fields: seq<Field>, dest: array<Value>, n: nat) returns (o: Outcome<()>)
    requires dec.Valid() && !dec.Held() && ValidFields(fields) && dest.Length == |fields|
    modifies dec.r, dec.msgpack, dec.binc, dec.binc.b, dest
    ensures dec.Valid() && (o.Done? ==> !dec.Held())
    ensures Follows(DecPositions(dec.h, old(dec.Syms()), fields, old(dest[..]), 0, n, old(dec.Input())),
                    if o.Done? then Done(dest[..]) else Panic(o.error), dec.Syms(), dec.Input())
    decreases fields, 1, 0
  {
    hide DecSlot, DecPositions, ValidFields;
    ghost var whole := DecPositions(dec.h, dec.Syms(), fields, dest[..], 0, n, dec.Input());
    for j := 0 to n
      invariant dec.Valid() && !dec.Held()
      invariant whole == DecPositions(dec.h, dec.Syms(), fields, dest[..], j, n, dec.Input())
    {
      PositionStep(dec.h, dec.Syms(), fields, dest[..], j, n, dec.Input());
      var _ :- DecodePosition(dec, fields, dest, j);
    }
    PositionStep(dec.h, dec.Syms(), fields, dest[..], n, n, dec.Input());
    return Done(());
  }

  /** kStruct into a zeroed struct. */
  method DecodeStruct(dec: Decoder, ti: TypeInfo) returns (o: Outcome<seq<Value>>)
    requires dec.Valid() && ti.Valid()
    modifies dec.r, dec.msgpack, dec.binc, dec.binc.b
    ensures dec.Valid() && (o.Done? ==> !dec.Held())
    ensures Follows(DecStruct(dec.h, old(dec.Syms()), ti.sfip, old(dec.Input())), o, dec.Syms(), dec.Input())
  {
    hide DecStructInto, Zeroed;
    o := DecodeStructInto(dec, ti, Zeroed(ti.sfip));
  }

  /** kStruct into a struct that holds was: the fields the stream has, from either form of a struct. */
  method DecodeStructInto(dec: Decoder, ti: TypeInfo, was: seq<Value>) returns (o: Outcome<seq<Value>>)
    requires dec.Valid() && ti.Valid() && |was| == |ti.sfip|
    modifies dec.r, dec.msgpack, dec.binc, dec.binc.b
    ensures dec.Valid() && (o.Done? ==> !dec.Held())
    ensures Follows(DecStructInto(dec.h, old(dec.Syms()), ti.sfip, was, old(dec.Input())), o, dec.Syms(), dec.Input())
    decreases ti.sfip, 2, 0
  {
    hide DecHead, DecEntries, DecPositions, Sorted, ValidFields, Zero;
    var dest := new Value[|ti.sfip|](k requires 0 <= k < |ti.sfip| => was[k]);
    assert dest[..] == was;
    var head :- dec.DecodeHead();
    match head {
      case MapHead(n) => var _ :- DecodeEntries(dec, ti, dest, n); return Done(dest[..]);
      case ArrayHead(n) => var _ :- DecodePositions(dec, ti.sfip, dest, n); return Done(dest[..]);
      case Leaf(v) =>
        if v.Nil? {
          return Done(Zeroed(ti.sfip));
        }
        return Panic(WrongKind);
    }
  }
}
