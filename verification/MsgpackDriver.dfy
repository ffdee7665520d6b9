/**
 * The MessagePack encoding and decoding drivers: one descriptor byte with its payload.
 * Containers are left to the Codec module; a driver only writes and reads their length.
 */
module MsgpackDriver {
  import opened Bytes
  import opened Values
  import opened Overflow

  const NIL: byte := 0xc0
  const FALSE: byte := 0xc2
  const TRUE: byte := 0xc3
  const FLOAT: byte := 0xca
  const DOUBLE: byte := 0xcb
  const UINT8: byte := 0xcc
  const UINT16: byte := 0xcd
  const UINT32: byte := 0xce
  const UINT64: byte := 0xcf
  const INT8: byte := 0xd0
  const INT16: byte := 0xd1
  const INT32: byte := 0xd2
  const INT64: byte := 0xd3
  const BIN8: byte := 0xc4
  const BIN16: byte := 0xc5
  const BIN32: byte := 0xc6
  const EXT8: byte := 0xc7
  const EXT16: byte := 0xc8
  const EXT32: byte := 0xc9
  const FIXEXT1: byte := 0xd4
  const FIXEXT2: byte := 0xd5
  const FIXEXT4: byte := 0xd6
  const FIXEXT8: byte := 0xd7
  const FIXEXT16: byte := 0xd8

  /** The four length-prefixed families; a missing 8-bit or fix form has the byte 0, as in the source. */
  datatype Container = Container(fixCutoff: nat, bFixMin: byte, b8: byte, b16: byte, b32: byte, hasFixMin: bool, has8: bool, has8Always: bool)

  const STR := Container(32, 0xa0, 0xd9, 0xda, 0xdb, true, true, false)
  const BIN := Container(0, 0, BIN8, BIN16, BIN32, false, true, true)
  const LIST := Container(16, 0x90, 0, 0xdc, 0xdd, true, false, false)
  const MAP := Container(16, 0x80, 0, 0xde, 0xdf, true, false, false)

  // ------------------------------------------------------------------
  // Encoding

  function EncUint(u: nat): seq<byte> {
    if u <= 0x7f then [u % 256]
    else if u < 0x100 then [UINT8, u]
    else if u < TWO16 then [UINT16] + BE(u, 2)
    else if u < TWO32 then [UINT32] + BE(u, 4)
    else [UINT64] + BE(u, 8)
  }

  /** A conversion to a narrower unsigned type keeps the low bits. */
  function EncInt(i: int): seq<byte> {
    if i >= 0 then EncUint(i)
    else if i >= -32 then [i % 0x100]
    else if i >= -0x80 then [INT8, i % 0x100]
    else if i >= -TWO15 then [INT16] + BE(i % TWO16, 2)
    else if i >= -TWO31 then [INT32] + BE(i % TWO32, 4)
    else [INT64] + BE(i % TWO64, 8)
  }

  /** bFixMin has no bits in common with a length below fixCutoff, so the source's `|` is a sum. */
  function EncLen(ct: Container, writeExt: bool, l: nat): seq<byte>
    requires ct == STR || ct == BIN || ct == LIST || ct == MAP
  {
    if ct.hasFixMin && l < ct.fixCutoff then [ct.bFixMin + l]
    else if ct.has8 && l < 256 && (ct.has8Always || writeExt) then [ct.b8, l]
    else if l < TWO16 then [ct.b16] + BE(l, 2)
    else [ct.b32] + BE(l, 4)
  }

  function EncRaw(ct: Container, writeExt: bool, s: seq<byte>): seq<byte>
    requires ct == STR || ct == BIN
  {
    EncLen(ct, writeExt, |s|) + s
  }

  function EncExtLen(tag: byte, l: nat): seq<byte> {
    if l == 1 then [FIXEXT1, tag]
    else if l == 2 then [FIXEXT2, tag]
    else if l == 4 then [FIXEXT4, tag]
    else if l == 8 then [FIXEXT8, tag]
    else if l == 16 then [FIXEXT16, tag]
    else if l < 256 then [EXT8, l, tag]
    else if l < TWO16 then [EXT16] + BE(l, 2) + [tag]
    else [EXT32] + BE(l, 4) + [tag]
  }

  function EncExt(tag: byte, data: seq<byte>): seq<byte> {
    EncExtLen(tag, |data|) + data
  }

  /** The container a byte string is written in: the bin family only exists with WriteExt. */
  function RawContainer(writeExt: bool): Container {
    if writeExt then BIN else STR
  }

  /** What is written for a scalar, or in front of a container's elements. */
  function EncHead(h: Handle, v: Value): seq<byte>
    requires h.Msgpack?
  {
    match v
    case Nil => [NIL]
    case Bool(b) => [if b then TRUE else FALSE]
    case Int(i) => EncInt(i)
    case Uint(u) => EncUint(u)
    case Float32(f) => [FLOAT] + BE(f, 4)
    case Float64(f) => [DOUBLE] + BE(f, 8)
    case Str(s) => EncRaw(STR, h.writeExt, s)
    case Sym(s) => EncRaw(STR, h.writeExt, s)
    case Bytes(s) => EncRaw(RawContainer(h.writeExt), h.writeExt, s)
    case Ext(tag, None) => [NIL]
    case Ext(tag, Some(data)) =>
      if h.writeExt then EncExt(tag, data) else EncRaw(STR, h.writeExt, data)
    case Time(_, _, _) => []
    case Array(es) => EncLen(LIST, h.writeExt, |es|)
    case Map(kvs) => EncLen(MAP, h.writeExt, |kvs|)
    case Unsupported => []
  }

  // ------------------------------------------------------------------
  // Decoding

  datatype ValueType = TNil | TInt | TUint | TFloat | TBool | TString | TBytes | TMap | TArray | TExt | TBad

  /** currentEncodedType: the descriptor byte decides the kind of what follows. */
  function TypeOf(h: Handle, bd: byte): ValueType
    requires h.Msgpack?
  {
    if bd == NIL then TNil
    else if bd == FALSE || bd == TRUE then TBool
    else if bd == FLOAT || bd == DOUBLE then TFloat
    else if UINT8 <= bd <= UINT64 then TUint
    else if INT8 <= bd <= INT64 then TInt
    else if bd <= 0x7f || 0xe0 <= bd then TInt
    else if 0xd9 <= bd <= 0xdb || 0xa0 <= bd <= 0xbf then (if h.rawToString then TString else TBytes)
    else if BIN8 <= bd <= BIN32 then TBytes
    else if bd == 0xdc || bd == 0xdd || 0x90 <= bd <= 0x9f then TArray
    else if bd == 0xde || bd == 0xdf || 0x80 <= bd <= 0x8f then TMap
    else if FIXEXT1 <= bd <= FIXEXT16 || EXT8 <= bd <= EXT32 then TExt
    else TBad
  }

  /** (mask & bd) == mask, bit by bit. */
  predicate HasBits(bd: byte, mask: byte) {
    && (mask / 128 % 2 <= bd / 128 % 2) && (mask / 64 % 2 <= bd / 64 % 2)
    && (mask / 32 % 2 <= bd / 32 % 2) && (mask / 16 % 2 <= bd / 16 % 2)
    && (mask / 8 % 2 <= bd / 8 % 2) && (mask / 4 % 2 <= bd / 4 % 2)
    && (mask / 2 % 2 <= bd / 2 % 2) && (mask % 2 <= bd % 2)
  }

  /** readContainerLen; -1 stands for nil. When the mask is included, `^` is a difference. */
  function ReadLen(ct: Container, bd: byte, bs: seq<byte>): (r: Read<int>)
    ensures r.Ok? ==> |r.rest| <= |bs| && r.value >= -1
  {
    if bd == NIL then Ok(-1, bs)
    else if bd == ct.b8 then var (n, r) :- ReadN1(bs); Ok(n, r)
    else if bd == ct.b16 then ReadUint(bs, 2)
    else if bd == ct.b32 then ReadUint(bs, 4)
    else if HasBits(bd, ct.bFixMin) then Ok(if bd >= ct.bFixMin then bd - ct.bFixMin else 0, bs)
    else Err(BadDescriptor)
  }

  /** decodeString, and decodeBytes into a fresh slice: the bytes of a str or bin. */
  function ReadRaw(ct: Container, bd: byte, bs: seq<byte>): (r: Read<seq<byte>>)
    ensures r.Ok? ==> |r.rest| <= |bs|
  {
    var (n, r) :- ReadLen(ct, bd, bs);
    var (s, r2) :- ReadN(r, n);
    Ok(s, r2)
  }

  function BytesContainer(bd: byte): Container {
    if BIN8 <= bd <= BIN32 then BIN else STR
  }

  function ReadExtLen(bd: byte, bs: seq<byte>): (r: Read<nat>)
    ensures r.Ok? ==> |r.rest| <= |bs|
  {
    if bd == FIXEXT1 then Ok(1, bs)
    else if bd == FIXEXT2 then Ok(2, bs)
    else if bd == FIXEXT4 then Ok(4, bs)
    else if bd == FIXEXT8 then Ok(8, bs)
    else if bd == FIXEXT16 then Ok(16, bs)
    else if bd == EXT8 then var (n, r) :- ReadN1(bs); Ok(n, r)
    else if bd == EXT16 then ReadUint(bs, 2)
    else if bd == EXT32 then ReadUint(bs, 4)
    else Err(BadDescriptor)
  }

  /** A RawExt; readn(0) yields a nil slice. */
  function ReadExt(bd: byte, bs: seq<byte>): (r: Read<Value>)
    ensures r.Ok? ==> |r.rest| <= |bs|
  {
    var (n, r) :- ReadExtLen(bd, bs);
    var (tag, r2) :- ReadN1(r);
    var (data, r3) :- ReadN(r2, n);
    Ok(Ext(tag, if data == [] then None else Some(data)), r3)
  }

  predicate IsNumber(bd: byte) {
    FLOAT <= bd <= INT64 || bd <= 0x7f || 0xe0 <= bd
  }

  /** The bytes after the descriptor of a number; a fixnum has none. */
  function NumberWidth(bd: byte): nat {
    if bd == UINT8 || bd == INT8 then 1
    else if bd == UINT16 || bd == INT16 then 2
    else if bd == FLOAT || bd == UINT32 || bd == INT32 then 4
    else if bd == DOUBLE || bd == UINT64 || bd == INT64 then 8
    else 0
  }

  function NumberOf(bd: byte, x: nat): Value {
    if bd == FLOAT then Float64(Widen(x))
    else if bd == DOUBLE then Float64(x)
    else if UINT8 <= bd <= UINT64 then Uint(x)
    else if bd == INT8 then Int(ToSigned(x, 0x100))
    else if bd == INT16 then Int(ToSigned(x, TWO16))
    else if bd == INT32 then Int(ToSigned(x, TWO32))
    else if bd == INT64 then Int(ToSigned(x, TWO64))
    else Int(ToSigned(bd, 0x100))
  }

  function ReadNumber(bd: byte, bs: seq<byte>): (r: Read<Value>)
    ensures r.Ok? ==> |r.rest| <= |bs|
  {
    var (x, r) :- ReadUint(bs, NumberWidth(bd));
    Ok(NumberOf(bd, x), r)
  }

  /** decodeNaked after the descriptor byte, with the container length when there is one. */
  function Naked(h: Handle, bd: byte, bs: seq<byte>): (r: Read<Head>)
    requires h.Msgpack?
    ensures r.Ok? ==> |r.rest| <= |bs|
  {
    match TypeOf(h, bd)
    case TNil => Ok(Leaf(Nil), bs)
    case TBool => Ok(Leaf(Bool(bd == TRUE)), bs)
    case TInt => var (v, r) :- ReadNumber(bd, bs); Ok(Leaf(v), r)
    case TUint => var (v, r) :- ReadNumber(bd, bs); Ok(Leaf(v), r)
    case TFloat => var (v, r) :- ReadNumber(bd, bs); Ok(Leaf(v), r)
    case TString => var (s, r) :- ReadRaw(STR, bd, bs); Ok(Leaf(Str(s)), r)
    case TBytes => var (s, r) :- ReadRaw(BytesContainer(bd), bd, bs); Ok(Leaf(Bytes(s)), r)
    case TArray => var (n, r) :- ReadLen(LIST, bd, bs); Ok(ArrayHead(if n < 0 then 0 else n), r)
    case TMap => var (n, r) :- ReadLen(MAP, bd, bs); Ok(MapHead(if n < 0 then 0 else n), r)
    case TExt => var (v, r) :- ReadExt(bd, bs); Ok(Leaf(v), r)
    case TBad => Err(BadDescriptor)
  }

  // ------------------------------------------------------------------
  // Decoding into typed destinations

  function ReadInt(bd: byte, bs: seq<byte>): (r: Read<int>)
    ensures r.Ok? ==> |r.rest| <= |bs|
  {
    if UINT8 <= bd <= INT64 || bd <= 0x7f || 0xe0 <= bd then
      var (v, r) :- ReadNumber(bd, bs);
      Ok(if v.Int? then v.i else if v.Uint? then ToSigned(v.u, TWO64) else 0, r)
    else Err(BadDescriptor)
  }

  /** decodeInt: bitsize 0 means no overflow test. */
  function DecInt(bd: byte, bs: seq<byte>, bitsize: nat): (r: Read<int>)
    requires bitsize <= 64
    ensures r.Ok? ==> |r.rest| <= |bs|
  {
    var (i, r) :- ReadInt(bd, bs);
    if bitsize > 0 && i != ShiftSigned(i, bitsize) then Err(Error.Overflow) else Ok(i, r)
  }

  /** decodeFloat: a float, or an integer converted. */
  function DecFloat64(bd: byte, bs: seq<byte>): (r: Read<nat>)
    ensures r.Ok? ==> |r.rest| <= |bs|
  {
    if bd == FLOAT || bd == DOUBLE then var (v, r) :- ReadNumber(bd, bs); Ok(v.f64, r)
    else var (i, r) :- DecInt(bd, bs, 0); Ok(FloatOfInt(i), r)
  }

  /** What reads as a float without a schema reads as that float into one. */
  lemma {:induction false} NakedFloat(h: Handle, bd: byte, bs: seq<byte>, f: nat, rest: seq<byte>)
    requires h.Msgpack? && Naked(h, bd, bs) == Ok(Leaf(Float64(f)), rest)
    ensures bd != NIL && DecFloat64(bd, bs) == Ok(f, rest)
  {
    hide ReadLen, ReadRaw, ReadExtLen, Widen, DecInt;
  }

  /** decodeUint. */
  function DecUint(bd: byte, bs: seq<byte>, bitsize: nat): (r: Read<nat>)
    requires bitsize <= 64
    ensures r.Ok? ==> |r.rest| <= |bs|
  {
    if UINT8 <= bd <= INT64 || bd <= 0x7f || 0xe0 <= bd then
      var (v, r) :- ReadNumber(bd, bs);
      var z := if v.Int? then v.i else if v.Uint? then v.u else 0;
      if z < 0 then Err(NegativeToUnsigned)
      else if bitsize > 0 && z != ShiftUnsigned(z, bitsize) then Err(Error.Overflow)
      else Ok(z, r)
    else Err(BadDescriptor)
  }

  function DecBool(bd: byte, bs: seq<byte>): (r: Read<bool>)
    ensures r.Ok? ==> |r.rest| <= |bs|
  {
    if bd == FALSE || bd == 0 then Ok(false, bs)
    else if bd == TRUE || bd == 1 then Ok(true, bs)
    else Err(BadDescriptor)
  }

  // ------------------------------------------------------------------
  // What a driver writes, the other driver reads

  /** A Go value of its static type, with every length below 2^32. */
  predicate Fits(h: Handle, v: Value)
    requires h.Msgpack?
  {
    match v
    case Int(i) => -TWO63 <= i < TWO63
    case Uint(u) => u < TWO64
    case Float32(f) => f < TWO32
    case Float64(f) => f < TWO64
    case Str(s) => |s| < TWO32
    case Sym(s) => |s| < TWO32
    case Bytes(s) => |s| < TWO32
    case Ext(_, Some(data)) => |data| < TWO32
    case Time(_, _, _) => false
    case Array(es) => |es| < TWO32
    case Map(kvs) => |kvs| < TWO32
    case Unsupported => false
    case _ => true
  }

  /** A str comes back as a string or as bytes, by the RawToString flag. */
  function RawValue(h: Handle, s: seq<byte>): Value
    requires h.Msgpack?
  {
    if h.rawToString then Str(s) else Bytes(s)
  }

  /** The normal form of a head: what a schema-less reader sees of it. */
  function NormHead(h: Handle, v: Value): Head
    requires h.Msgpack?
  {
    match v
    case Int(i) => Leaf(if i <= 0x7f then Int(i) else Uint(i))
    case Uint(u) => Leaf(if u <= 0x7f then Int(u) else Uint(u))
    case Float32(f) => Leaf(Float64(Widen(f)))
    case Str(s) => Leaf(RawValue(h, s))
    case Sym(s) => Leaf(RawValue(h, s))
    case Bytes(s) => Leaf(if h.writeExt then Bytes(s) else RawValue(h, s))
    case Ext(tag, None) => Leaf(Nil)
    case Ext(tag, Some(data)) =>
      Leaf(if !h.writeExt then RawValue(h, data) else Ext(tag, if data == [] then None else Some(data)))
    case Array(es) => ArrayHead(|es|)
    case Map(kvs) => MapHead(|kvs|)
    case _ => Leaf(v)
  }

  /** Splitting off the descriptor byte of something written. */
  lemma {:induction false} Tail(bd: byte, xs: seq<byte>, suffix: seq<byte>)
    ensures ([bd] + xs + suffix)[0] == bd && ([bd] + xs + suffix)[1..] == xs + suffix
  {
    assert [bd] + xs + suffix == [bd] + (xs + suffix);
  }

  lemma {:induction false} LenRoundTrip(ct: Container, writeExt: bool, l: nat, suffix: seq<byte>)
    requires ct == STR || ct == BIN || ct == LIST || ct == MAP
    requires l < TWO32
    ensures var e := EncLen(ct, writeExt, l) + suffix; ReadLen(ct, e[0], e[1..]) == Ok(l, suffix)
  {
    hide BE, FromBE;
    Pow256Values();
    var e := EncLen(ct, writeExt, l);
    if ct.hasFixMin && l < ct.fixCutoff {
      assert e + suffix == [ct.bFixMin + l] + suffix;
    } else if ct.has8 && l < 256 && (ct.has8Always || writeExt) {
      Tail(ct.b8, [l], suffix);
      assert [ct.b8] + [l] + suffix == e + suffix && ([l] + suffix)[1..] == suffix;
    } else if l < TWO16 {
      Tail(ct.b16, BE(l, 2), suffix);
      ReadUintOfBE(l, 2, suffix);
    } else {
      Tail(ct.b32, BE(l, 4), suffix);
      ReadUintOfBE(l, 4, suffix);
    }
  }

  /** The descriptor EncLen writes belongs to its own family. */
  lemma {:induction false} LenDescriptor(h: Handle, ct: Container, l: nat)
    requires h.Msgpack? && (ct == STR || ct == BIN || ct == LIST || ct == MAP)
    ensures var bd := EncLen(ct, h.writeExt, l)[0];
            && TypeOf(h, bd) == (if ct == LIST then TArray else if ct == MAP then TMap
                                 else if ct == BIN || !h.rawToString then TBytes else TString)
            && (ct == STR || ct == BIN ==> BytesContainer(bd) == ct)
  {
  }

  lemma {:induction false} RawRoundTrip(ct: Container, writeExt: bool, s: seq<byte>, suffix: seq<byte>)
    requires ct == STR || ct == BIN
    requires |s| < TWO32
    ensures var e := EncRaw(ct, writeExt, s) + suffix; ReadRaw(ct, e[0], e[1..]) == Ok(s, suffix)
  {
    LenRoundTrip(ct, writeExt, |s|, s + suffix);
    assert EncRaw(ct, writeExt, s) + suffix == EncLen(ct, writeExt, |s|) + (s + suffix);
    ReadNOfConcat(s, suffix);
  }

  lemma {:induction false} ExtLenRoundTrip(tag: byte, l: nat, rest: seq<byte>)
    requires l < TWO32
    ensures var e := EncExtLen(tag, l) + rest;
            && (FIXEXT1 <= e[0] <= FIXEXT16 || EXT8 <= e[0] <= EXT32)
            && ReadExtLen(e[0], e[1..]) == Ok(l, [tag] + rest)
  {
    hide BE, FromBE;
    Pow256Values();
    var e := EncExtLen(tag, l) + rest;
    var tail := [tag] + rest;
    if l == 1 || l == 2 || l == 4 || l == 8 || l == 16 {
      assert e[1..] == tail;
    } else if l < 256 {
      assert e[1..] == [l] + tail;
      assert ([l] + tail)[1..] == tail;
    } else if l < TWO16 {
      assert e[1..] == BE(l, 2) + tail;
      ReadUintOfBE(l, 2, tail);
    } else {
      assert e[1..] == BE(l, 4) + tail;
      ReadUintOfBE(l, 4, tail);
    }
  }

  lemma {:induction false} ExtRoundTrip(tag: byte, data: seq<byte>, suffix: seq<byte>)
    requires |data| < TWO32
    ensures var e := EncExt(tag, data) + suffix;
            && (FIXEXT1 <= e[0] <= FIXEXT16 || EXT8 <= e[0] <= EXT32)
            && ReadExt(e[0], e[1..]) == Ok(Ext(tag, if data == [] then None else Some(data)), suffix)
  {
    ExtLenRoundTrip(tag, |data|, data + suffix);
    assert EncExt(tag, data) + suffix == EncExtLen(tag, |data|) + (data + suffix);
    assert ([tag] + (data + suffix))[1..] == data + suffix;
    ReadNOfConcat(data, suffix);
  }

  lemma {:induction false} NumberRead(bd: byte, x: nat, w: nat, suffix: seq<byte>)
    requires w == NumberWidth(bd) && x < Pow256(w)
    ensures var e := [bd] + BE(x, w) + suffix;
            e[0] == bd && ReadNumber(bd, e[1..]) == Ok(NumberOf(bd, x), suffix)
  {
    Tail(bd, BE(x, w), suffix);
    ReadUintOfBE(x, w, suffix);
  }

  lemma {:induction false} ByteBE(x: byte)
    ensures BE(x, 0) == [] && BE(x, 1) == [x]
  {
    assert BE(x, 1) == BE(x / 256, 0) + [x % 256];
  }

  /** Every integer is a descriptor and a big-endian payload of that descriptor's width. */
  lemma {:induction false} NumberShape(z: int) returns (bd: byte, x: nat, w: nat)
    requires -TWO63 <= z < TWO64
    ensures (UINT8 <= bd <= INT64 || bd <= 0x7f || 0xe0 <= bd) && w == NumberWidth(bd) && x < Pow256(w)
    ensures (if z < TWO63 then EncInt(z) else EncUint(z)) == [bd] + BE(x, w)
    ensures NumberOf(bd, x) == if z <= 0x7f then Int(z) else Uint(z)
  {
    hide BE;
    Pow256Values();
    if -32 <= z <= 0x7f {
      bd, x, w := z % 256, 0, 0;
      ByteBE(x);
    } else if -0x80 <= z < 0x100 {
      bd, x, w := if z < 0 then INT8 else UINT8, if z < 0 then z + 256 else z, 1;
      ByteBE(x);
    } else if -TWO15 <= z < TWO16 {
      bd, x, w := if z < 0 then INT16 else UINT16, if z < 0 then z + TWO16 else z, 2;
    } else if -TWO31 <= z < TWO32 {
      bd, x, w := if z < 0 then INT32 else UINT32, if z < 0 then z + TWO32 else z, 4;
    } else {
      bd, x, w := if z < 0 then INT64 else UINT64, if z < 0 then z + TWO64 else z, 8;
    }
  }

  /** Every integer is written so that its value, its sign and a numeric type come back. */
  lemma {:induction false} NumberRoundTrip(z: int, suffix: seq<byte>)
    requires -TWO63 <= z < TWO64
    ensures var e := (if z < TWO63 then EncInt(z) else EncUint(z)) + suffix;
            && e != [] && (UINT8 <= e[0] <= INT64 || e[0] <= 0x7f || 0xe0 <= e[0])
            && ReadNumber(e[0], e[1..]) == Ok(if z <= 0x7f then Int(z) else Uint(z), suffix)
  {
    var bd, x, w := NumberShape(z);
    NumberRead(bd, x, w, suffix);
  }

  /** Reading any number through decodeNaked. */
  lemma {:induction false} NakedNumber(h: Handle, bd: byte, bs: seq<byte>)
    requires h.Msgpack? && IsNumber(bd)
    ensures Naked(h, bd, bs) == (match ReadNumber(bd, bs) case Ok(v, r) => Ok(Leaf(v), r) case Err(e) => Err(e))
  {
  }

  lemma {:induction false} NakedExt(h: Handle, bd: byte, bs: seq<byte>)
    requires h.Msgpack? && (FIXEXT1 <= bd <= FIXEXT16 || EXT8 <= bd <= EXT32)
    ensures Naked(h, bd, bs) == (match ReadExt(bd, bs) case Ok(v, r) => Ok(Leaf(v), r) case Err(e) => Err(e))
  {
  }

  /** Reading back the head of v gives its normal form and stops at its end. */
  ghost predicate HeadOk(h: Handle, v: Value, suffix: seq<byte>)
    requires h.Msgpack?
  {
    var e := EncHead(h, v) + suffix;
    EncHead(h, v) != [] && Naked(h, e[0], e[1..]) == Ok(NormHead(h, v), suffix)
  }

  lemma {:induction false} NumberHead(h: Handle, v: Value, suffix: seq<byte>)
    requires h.Msgpack? && Fits(h, v) && (v.Int? || v.Uint?)
    ensures HeadOk(h, v, suffix)
  {
    var z := if v.Int? then v.i else v.u;
    NumberRoundTrip(z, suffix);
    var e := EncHead(h, v) + suffix;
    assert v.Uint? && z < TWO63 ==> EncInt(z) == EncUint(z);
    NakedNumber(h, e[0], e[1..]);
  }

  lemma {:induction false} FloatHead(h: Handle, v: Value, suffix: seq<byte>)
    requires h.Msgpack? && Fits(h, v) && (v.Float32? || v.Float64?)
    ensures HeadOk(h, v, suffix)
  {
    Pow256Values();
    var bd := if v.Float32? then FLOAT else DOUBLE;
    var f := if v.Float32? then v.f32 else v.f64;
    NumberRead(bd, f, NumberWidth(bd), suffix);
    var e := EncHead(h, v) + suffix;
    NakedNumber(h, bd, e[1..]);
  }

  lemma {:induction false} RawRead(h: Handle, ct: Container, s: seq<byte>, suffix: seq<byte>)
    requires h.Msgpack? && |s| < TWO32
    requires ct == STR || ct == BIN
    ensures var e := EncRaw(ct, h.writeExt, s) + suffix;
            Naked(h, e[0], e[1..]) == Ok(Leaf(if ct == STR then RawValue(h, s) else Bytes(s)), suffix)
  {
    RawRoundTrip(ct, h.writeExt, s, suffix);
    LenDescriptor(h, ct, |s|);
    var e := EncRaw(ct, h.writeExt, s) + suffix;
    assert e[0] == EncLen(ct, h.writeExt, |s|)[0];
  }

  lemma {:induction false} RawHead(h: Handle, v: Value, suffix: seq<byte>)
    requires h.Msgpack? && Fits(h, v) && (v.Str? || v.Sym? || v.Bytes?)
    ensures HeadOk(h, v, suffix)
  {
    if v.Bytes? {
      RawRead(h, RawContainer(h.writeExt), v.bs, suffix);
    } else {
      RawRead(h, STR, if v.Str? then v.s else v.sym, suffix);
    }
  }

  lemma {:induction false} ExtHead(h: Handle, v: Value, suffix: seq<byte>)
    requires h.Msgpack? && Fits(h, v) && v.Ext? && v.data.Some?
    ensures HeadOk(h, v, suffix)
  {
    if h.writeExt {
      ExtRoundTrip(v.tag, v.data.value, suffix);
      var e := EncHead(h, v) + suffix;
      NakedExt(h, e[0], e[1..]);
    } else {
      RawRead(h, STR, v.data.value, suffix);
    }
  }

  lemma {:induction false} LenHead(h: Handle, v: Value, suffix: seq<byte>)
    requires h.Msgpack? && Fits(h, v) && (v.Array? || v.Map?)
    ensures HeadOk(h, v, suffix)
  {
    var ct := if v.Array? then LIST else MAP;
    var l := if v.Array? then |v.es| else |v.kvs|;
    LenRoundTrip(ct, h.writeExt, l, suffix);
    LenDescriptor(h, ct, l);
  }

  /** Schema-less reading of what the encoder writes gives the normal form and stops at its end. */
  lemma {:induction false} HeadRoundTrip(h: Handle, v: Value, suffix: seq<byte>)
    requires h.Msgpack? && Fits(h, v)
    ensures HeadOk(h, v, suffix)
  {
    match v
    case Int(_) => NumberHead(h, v, suffix);
    case Uint(_) => NumberHead(h, v, suffix);
    case Float32(_) => FloatHead(h, v, suffix);
    case Float64(_) => FloatHead(h, v, suffix);
    case Str(_) => RawHead(h, v, suffix);
    case Sym(_) => RawHead(h, v, suffix);
    case Bytes(_) => RawHead(h, v, suffix);
    case Ext(_, Some(_)) => ExtHead(h, v, suffix);
    case Array(_) => LenHead(h, v, suffix);
    case Map(_) => LenHead(h, v, suffix);
    case Nil => assert ([NIL] + suffix)[1..] == suffix;
    case Bool(b) => assert (EncHead(h, v) + suffix)[1..] == suffix;
    case Ext(_, None) => assert ([NIL] + suffix)[1..] == suffix;
    case Time(_, _, _) =>
    case Unsupported =>
  }

  // ------------------------------------------------------------------
  // Typed integers

  /** decodeUint succeeds exactly on the naturals of its width, and returns the number encoded. */
  lemma {:induction false} DecUintExact(z: int, bitsize: nat, suffix: seq<byte>)
    requires -TWO63 <= z < TWO64 && 1 <= bitsize <= 64
    ensures var e := (if z < TWO63 then EncInt(z) else EncUint(z)) + suffix;
            var r := DecUint(e[0], e[1..], bitsize);
            if 0 <= z < Pow2(bitsize) then r == Ok(z, suffix) else r.Err?
  {
    hide ShiftUnsigned, Pow2, EncInt, EncUint, ReadNumber;
    NumberRoundTrip(z, suffix);
    if z >= 0 { ShiftUnsignedIsRange(z, bitsize); }
  }

  /**
   * decodeInt succeeds exactly when the number, read modulo 2^64 as an int64, has the given width.
   * Below 2^63 that is the number encoded; from 2^63 on it is the number minus 2^64.
   */
  lemma {:induction false} DecIntExact(z: int, bitsize: nat, suffix: seq<byte>)
    requires -TWO63 <= z < TWO64 && 1 <= bitsize <= 64
    ensures var e := (if z < TWO63 then EncInt(z) else EncUint(z)) + suffix;
            var r := DecInt(e[0], e[1..], bitsize);
            var i := if z < TWO63 then z else z - TWO64;
            if 0 - Pow2(bitsize - 1) <= i < Pow2(bitsize - 1) then r == Ok(i, suffix) else r.Err?
  {
    hide ShiftSigned, Pow2, EncInt, EncUint, ReadNumber;
    NumberRoundTrip(z, suffix);
    ShiftSignedIsRange(if z < TWO63 then z else z - TWO64, bitsize);
  }

  /** readContainerLen's fix test takes more descriptors than its family: exactly these. */
  lemma {:induction false} FixTestAccepts(bd: byte)
    ensures HasBits(bd, STR.bFixMin) <==> 0xa0 <= bd <= 0xbf || 0xe0 <= bd
    ensures HasBits(bd, LIST.bFixMin) <==> 0x90 <= bd && bd / 16 % 2 == 1
    ensures HasBits(bd, MAP.bFixMin) <==> 0x80 <= bd
    ensures HasBits(bd, BIN.bFixMin)
  {
    assert bd / 128 % 2 == 1 <==> 128 <= bd;
    assert bd / 32 % 2 == 1 <==> 32 <= bd < 64 || 96 <= bd < 128 || 160 <= bd < 192 || 224 <= bd;
  }

  /** The descriptors readContainerLen refuses: none for bin, whose fix mask is zero, and for the others just these. */
  predicate Refused(ct: Container, bd: byte)
    requires ct == STR || ct == BIN || ct == LIST || ct == MAP
  {
    if ct == STR then bd != NIL && !(0xa0 <= bd <= 0xbf) && !(0xd9 <= bd <= 0xdb) && bd < 0xe0
    else if ct == LIST then bd != NIL && bd != 0 && bd != 0xdc && bd != 0xdd && !(0x90 <= bd && bd / 16 % 2 == 1)
    else if ct == MAP then bd != 0 && bd < 0x80
    else false
  }

  /** The family currentEncodedType puts a descriptor in. */
  predicate InFamily(h: Handle, ct: Container, bd: byte)
    requires h.Msgpack?
  {
    if ct == LIST then TypeOf(h, bd).TArray?
    else if ct == MAP then TypeOf(h, bd).TMap?
    else (TypeOf(h, bd).TString? || TypeOf(h, bd).TBytes?) && BytesContainer(bd) == ct
  }

  /**
   * readContainerLen refuses a descriptor exactly when Refused says so. It never refuses one of its own family,
   * nor nil; but a list or map also takes the zero byte, whose 8-bit form it does not have, and every family
   * takes descriptors that belong to another kind of value.
   */
  lemma {:induction false} LenAccepts(h: Handle, ct: Container, bd: byte, bs: seq<byte>)
    requires h.Msgpack? && (ct == STR || ct == BIN || ct == LIST || ct == MAP)
    ensures ReadLen(ct, bd, bs) == Err(BadDescriptor) <==> Refused(ct, bd)
    ensures InFamily(h, ct, bd) || bd == NIL ==> !Refused(ct, bd)
  {
    FixTestAccepts(bd);
  }

  /** For each family, a descriptor that currentEncodedType puts elsewhere and readContainerLen takes all the same. */
  lemma {:induction false} TakesForeign(h: Handle, bs: seq<byte>)
    requires h.Msgpack?
    ensures TypeOf(h, 0xff).TInt? && ReadLen(STR, 0xff, bs) == Ok(95, bs)
    ensures TypeOf(h, 0).TInt? && (bs != [] ==> ReadLen(LIST, 0, bs) == Ok(bs[0], bs[1..]) && ReadLen(MAP, 0, bs) == Ok(bs[0], bs[1..]))
    ensures TypeOf(h, TRUE).TBool? && ReadLen(BIN, TRUE, bs) == Ok(0xc3, bs)
  {
    FixTestAccepts(0xff);
    FixTestAccepts(TRUE);
  }
}
