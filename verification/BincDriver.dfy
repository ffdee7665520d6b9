/**
 * The Binc encoding and decoding drivers: pruned integers and floats, timestamps, and the
 * symbol dictionaries that the two ends of a connection build up in step.
 */
module BincDriver {
  import opened Bytes
  import opened Values
  import opened Overflow
  import Timestamp

  // ------------------------------------------------------------------
  // Integers

  /** encIntegerPrune: the magnitude in lim bytes, pruned; the low bits of the descriptor give the width. */
  function EncPruned(bd: byte, pos: bool, v: nat, lim: nat): seq<byte>
    requires bd <= 0xf0 && 1 <= lim <= 8
  {
    var b := BE(v, lim);
    var i := PruneCount(b, pos);
    [bd + lim - 1 - i] + b[i..]
  }

  function EncMagnitude(bd: byte, pos: bool, v: nat): seq<byte>
    requires bd <= 0xf0
  {
    if v == 0 then [7]
    else if pos && v <= 16 then [0x90 + v - 1]
    else if v < 0x100 then [bd, v]
    else if v < TWO16 then [bd + 1] + BE(v, 2)
    else if v < TWO32 then EncPruned(bd, pos, v, 4)
    else EncPruned(bd, pos, v, 8)
  }

  function EncInt(i: int): seq<byte> {
    if i >= 0 then EncMagnitude(0x10, true, i)
    else if i == -1 then [8]
    else EncMagnitude(0x20, false, -i)
  }

  /** decUint: the width is one more than the low descriptor bits, up to eight bytes. */
  function DecMagnitude(vs: nat, bs: seq<byte>): (r: Read<nat>)
    ensures r.Ok? ==> |r.rest| <= |bs|
  {
    if vs <= 7 then ReadUint(bs, vs + 1) else Err(BadDescriptor)
  }

  /** Negation on int64, which wraps at the smallest value. */
  function Negate(u: nat): int {
    ToSigned((0 - u) % TWO64, TWO64)
  }

  /** The magnitude that comes back: leading ff bytes of a negative number are pruned but not restored. */
  function NegMagnitude(m: nat): nat {
    if m < TWO16 then m
    else
      var b := if m < TWO32 then BE(m, 4) else BE(m, 8);
      FromBE(b[PruneCount(b, false)..])
  }

  // ------------------------------------------------------------------
  // Floats

  /** The length left when trailing zero bytes are dropped. */
  function Trimmed(b: seq<byte>): (n: nat)
    ensures n <= |b|
  {
    if b == [] then 0 else if b[|b| - 1] != 0 then |b| else Trimmed(b[..|b| - 1])
  }

  function EncFloat64(f: nat): seq<byte> {
    if f % TWO63 == 0 then [6]
    else
      var b := BE(f, 8);
      var i := Trimmed(b);
      if i <= 6 then [0x3b, i] + b[..i] else [0x33] + b
  }

  function Zeros(n: nat): (z: seq<byte>)
    ensures |z| == n
  {
    seq(n, _ => 0)
  }

  /** An explicit length, that many bytes, and zeros up to the eighth. */
  function DecPadded(bs: seq<byte>): (r: Read<seq<byte>>)
    ensures r.Ok? ==> |r.rest| <= |bs| && |r.value| == 8
  {
    var (l, r) :- ReadN1(bs);
    if l > 8 then Err(BadDescriptor)
    else
      var (x, r2) :- ReadN(r, l);
      Ok(x + Zeros(8 - l), r2)
  }

  /** decFloatPre: the first n bytes of the scratch buffer. */
  function DecFloatBytes(vs: nat, n: nat, bs: seq<byte>): (r: Read<seq<byte>>)
    requires n <= 8
    ensures r.Ok? ==> |r.rest| <= |bs| && |r.value| == n
  {
    if vs / 8 % 2 == 0 then ReadN(bs, n)
    else var (b, r) :- DecPadded(bs); Ok(b[..n], r)
  }

  function DecFloat(vs: nat, bs: seq<byte>): (r: Read<nat>)
    ensures r.Ok? ==> |r.rest| <= |bs|
  {
    if vs % 8 == 1 then var (b, r) :- DecFloatBytes(vs, 4, bs); Ok(Widen(FromBE(b)), r)
    else if vs % 8 == 3 then var (b, r) :- DecFloatBytes(vs, 8, bs); Ok(FromBE(b), r)
    else Err(BadDescriptor)
  }

  // ------------------------------------------------------------------
  // Lengths

  /** The low descriptor bits of a length: the length itself plus four, or the tag of a number that follows. */
  function LenTag(l: nat): (t: nat)
    ensures t < 16
  {
    if l < 12 then l + 4 else if l < 0x100 then 0 else if l < TWO16 then 1 else if l < TWO32 then 2 else 3
  }

  function LenNumber(l: nat): seq<byte> {
    if l < 12 then []
    else if l < 0x100 then [l]
    else if l < TWO16 then BE(l, 2)
    else if l < TWO32 then BE(l, 4)
    else BE(l, 8)
  }

  function EncLen(bd: byte, l: nat): seq<byte>
    requires bd <= 0xf0
  {
    [bd + LenTag(l)] + LenNumber(l)
  }

  function DecLen(vs: nat, bs: seq<byte>): (r: Read<nat>)
    ensures r.Ok? ==> |r.rest| <= |bs|
  {
    if vs <= 3 then DecMagnitude(vs, bs) else Ok(vs - 4, bs)
  }

  function DecRaw(vs: nat, bs: seq<byte>): (r: Read<seq<byte>>)
    ensures r.Ok? ==> |r.rest| <= |bs|
  {
    var (n, r) :- DecLen(vs, bs);
    var (s, r2) :- ReadN(r, n);
    Ok(s, r2)
  }

  // ------------------------------------------------------------------
  // Symbols

  /** The encoder's side: an id for every symbol written, and the sequencer. */
  datatype Symbols = Symbols(ids: map<seq<byte>, nat>, s: nat)

  /** The decoder's side: the string behind every id seen. */
  type Names = map<nat, seq<byte>>

  function LenPrecision(l: nat): nat {
    if l < 0x100 then 0 else if l < TWO16 then 1 else if l < TWO32 then 2 else 3
  }

  function PrecisionWidth(p: nat): nat {
    if p == 0 then 1 else if p == 1 then 2 else if p == 2 then 4 else 8
  }

  /** A descriptor 0xB0 with flags, then the id in one byte or, with flag 8, in two. */
  function EncId(flags: nat, id: nat): seq<byte>
    requires flags < 8
  {
    [IdTag(flags, id)] + BE(id, IdWidth(id))
  }

  function IdWidth(id: nat): nat {
    if id <= 0xff then 1 else 2
  }

  function IdTag(flags: nat, id: nat): byte
    requires flags < 8
  {
    0xb0 + (if id <= 0xff then 0 else 8) + flags
  }

  /** The sequencer counts in 32 bits; an id is its low 16. */
  function NextId(d: Symbols): nat {
    (d.s + 1) % TWO32 % TWO16
  }

  function EncSym(d: Symbols, v: seq<byte>): (seq<byte>, Symbols) {
    if |v| <= 1 then (EncLen(0x40, |v|) + v, d)
    else if v in d.ids then (EncId(0, d.ids[v]), d)
    else
      (EncDefinition(NextId(d), v), Symbols(d.ids[v := NextId(d)], (d.s + 1) % TWO32))
  }

  /** The first use of a symbol: its id, its length and its bytes. */
  function EncDefinition(id: nat, v: seq<byte>): seq<byte> {
    EncId(4 + LenPrecision(|v|), id) + (BE(|v|, PrecisionWidth(LenPrecision(|v|))) + v)
  }

  datatype Named<+T> = Named(value: T, names: Names)

  /** A string with its length in a number of the given precision. */
  function DecDefinition(p: nat, bs: seq<byte>): (r: Read<seq<byte>>)
    ensures r.Ok? ==> |r.rest| <= |bs|
  {
    var (l, r) :- ReadUint(bs, PrecisionWidth(p));
    var (s, r2) :- ReadN(r, ToSigned(l, TWO64));
    Ok(s, r2)
  }

  /** A reference to a symbol, or its definition; an unknown id is the empty string. */
  function DecSym(names: Names, vs: nat, bs: seq<byte>): (r: Read<Named<seq<byte>>>)
    ensures r.Ok? ==> |r.rest| <= |bs|
  {
    var (id, r) :- ReadUint(bs, if vs / 8 % 2 == 0 then 1 else 2);
    if vs / 4 % 2 == 0 then
      Ok(Named(if id in names then names[id] else [], names), r)
    else
      var (s, r2) :- DecDefinition(vs % 4, r);
      Ok(Named(s, names[id := s]), r2)
  }

  /** The two dictionaries are mutual inverses. */
  ghost predicate Mutual(d: Symbols, names: Names) {
    && (forall v :: v in d.ids ==> d.ids[v] in names && names[d.ids[v]] == v)
    && (forall i :: i in names ==> names[i] in d.ids && d.ids[names[i]] == i)
  }

  /** Mutual inverses reached with at most 65536 symbols, all longer than one byte, numbered in turn. */
  ghost predicate Inverse(d: Symbols, names: Names) {
    && Mutual(d, names)
    && d.s == |d.ids| <= TWO16
    && (forall i :: i in names ==> 1 <= i <= d.s < TWO16 || (d.s == TWO16 && i < TWO16))
    && (forall v :: v in d.ids ==> |v| > 1)
  }

  // ------------------------------------------------------------------
  // Heads

  function EncHead(d: Symbols, v: Value): (seq<byte>, Symbols) {
    match v
    case Sym(s) => EncSym(d, s)
    case _ => (EncPlain(v), d)
  }

  /** Everything but symbols is written without the dictionary. */
  function EncPlain(v: Value): seq<byte> {
    match v
    case Nil => [0]
    case Bool(b) => [if b then 2 else 1]
    case Int(i) => EncInt(i)
    case Uint(u) => EncMagnitude(0x10, true, u)
    case Float32(f) => if f % TWO31 == 0 then [6] else [0x31] + BE(f, 4)
    case Float64(f) => EncFloat64(f)
    case Str(s) => EncLen(0x40, |s|) + s
    case Sym(s) => []
    case Bytes(s) => EncLen(0x50, |s|) + s
    case Ext(tag, None) => [0]
    case Ext(tag, Some(data)) => EncLen(0xf0, |data|) + [tag] + data
    case Time(secs, nsecs, zone) =>
      var bs := Timestamp.EncTime(secs, nsecs, zone);
      [(0x80 + |bs|) % 0x100] + bs
    case Array(es) => EncLen(0x60, |es|)
    case Map(kvs) => EncLen(0x70, |kvs|)
    case Unsupported => []
  }

  const NAN := 0x7FF8_0000_0000_0001
  const POS_INF := 0x7FF0_0000_0000_0000
  const NEG_INF := 0xFFF0_0000_0000_0000

  function Special(vs: nat, bs: seq<byte>): (r: Read<Head>)
    ensures r.Ok? ==> |r.rest| <= |bs|
  {
    if vs == 0 then Ok(Leaf(Nil), bs)
    else if vs == 1 || vs == 2 then Ok(Leaf(Bool(vs == 2)), bs)
    else if vs == 3 then Ok(Leaf(Float64(NAN)), bs)
    else if vs == 4 then Ok(Leaf(Float64(POS_INF)), bs)
    else if vs == 5 then Ok(Leaf(Float64(NEG_INF)), bs)
    else if vs == 6 then Ok(Leaf(Float64(0)), bs)
    else if vs == 7 then Ok(Leaf(Int(0)), bs)
    else if vs == 8 then Ok(Leaf(Int(-1)), bs)
    else Err(BadDescriptor)
  }

  function DecExt(vs: nat, bs: seq<byte>): (r: Read<Head>)
    ensures r.Ok? ==> |r.rest| <= |bs|
  {
    var (n, r) :- DecLen(vs, bs);
    var (tag, r2) :- ReadN1(r);
    var (data, r3) :- ReadN(r2, n);
    Ok(Leaf(Ext(tag, if data == [] then None else Some(data))), r3)
  }

  /** The reader's slice reaches, by its capacity, into the bytes that follow. */
  function DecTimestamp(vs: nat, bs: seq<byte>): (r: Read<Head>)
    ensures r.Ok? ==> |r.rest| <= |bs|
  {
    var (x, r) :- ReadN(bs, vs);
    match Timestamp.DecTime(x, r)
    case None => Err(BadTime)
    case Some(t) => Ok(Leaf(t), r)
  }

  /** decodeNaked for every descriptor that does not touch the dictionary. */
  function Plain(vd: nat, vs: nat, bs: seq<byte>): (r: Read<Head>)
    ensures r.Ok? ==> |r.rest| <= |bs|
  {
    if vd == 0 then Special(vs, bs)
    else if vd == 1 then var (u, r) :- DecMagnitude(vs, bs); Ok(Leaf(Uint(u)), r)
    else if vd == 2 then var (u, r) :- DecMagnitude(vs, bs); Ok(Leaf(Int(Negate(u))), r)
    else if vd == 3 then var (f, r) :- DecFloat(vs, bs); Ok(Leaf(Float64(f)), r)
    else if vd == 4 then var (s, r) :- DecRaw(vs, bs); Ok(Leaf(Str(s)), r)
    else if vd == 5 then var (s, r) :- DecRaw(vs, bs); Ok(Leaf(Bytes(s)), r)
    else if vd == 6 then var (n, r) :- DecLen(vs, bs); Ok(ArrayHead(n), r)
    else if vd == 7 then var (n, r) :- DecLen(vs, bs); Ok(MapHead(n), r)
    else if vd == 8 then DecTimestamp(vs, bs)
    else if vd == 9 then Ok(Leaf(Uint(vs + 1)), bs)
    else if vd == 15 then DecExt(vs, bs)
    else Err(BadDescriptor)
  }

  /** decodeNaked after the descriptor byte; a symbol comes back as a string. */
  function Naked(names: Names, bd: byte, bs: seq<byte>): (r: Read<Named<Head>>)
    ensures r.Ok? ==> |r.rest| <= |bs|
  {
    if bd / 16 == 11 then
      var (s, r) :- DecSym(names, bd % 16, bs);
      Ok(Named(Leaf(Str(s.value)), s.names), r)
    else
      var (v, r) :- Plain(bd / 16, bd % 16, bs);
      Ok(Named(v, names), r)
  }

  // ------------------------------------------------------------------
  // Typed destinations

  /** decIntAny; the flag says whether the descriptor is a negative one. */
  function DecIntAny(bd: byte, bs: seq<byte>): (r: Read<(nat, int, bool)>)
    ensures r.Ok? ==> |r.rest| <= |bs|
  {
    var vd, vs := bd / 16, bd % 16;
    if vd == 1 then var (u, r) :- DecMagnitude(vs, bs); Ok((u, ToSigned(u, TWO64), false), r)
    else if vd == 2 then var (u, r) :- DecMagnitude(vs, bs); Ok((u, Negate(u), true), r)
    else if vd == 9 then Ok((vs + 1, vs + 1, false), bs)
    else if bd == 7 then Ok((0, 0, false), bs)
    else if bd == 8 then Ok((1, -1, true), bs)
    else Err(BadDescriptor)
  }

  function DecInt(bd: byte, bs: seq<byte>, bitsize: nat): (r: Read<int>)
    requires bitsize <= 64
    ensures r.Ok? ==> |r.rest| <= |bs|
  {
    var (x, r) :- DecIntAny(bd, bs);
    if bitsize > 0 && x.1 != 0 && x.1 != ShiftSigned(x.1, bitsize) then Err(Error.Overflow) else Ok(x.1, r)
  }

  function DecUint(bd: byte, bs: seq<byte>, bitsize: nat): (r: Read<nat>)
    requires bitsize <= 64
    ensures r.Ok? ==> |r.rest| <= |bs|
  {
    var (x, r) :- DecIntAny(bd, bs);
    if x.2 then Err(NegativeToUnsigned)
    else if bitsize > 0 && x.0 != 0 && x.0 != ShiftUnsigned(x.0, bitsize) then Err(Error.Overflow)
    else Ok(x.0, r)
  }

  /** decodeFloat: a float, one of the special ones, or an integer converted. */
  function DecFloat64(bd: byte, bs: seq<byte>): (r: Read<nat>)
    ensures r.Ok? ==> |r.rest| <= |bs|
  {
    if bd / 16 == 0 then
      if bd == 3 then Ok(NAN, bs)
      else if bd == 4 then Ok(POS_INF, bs)
      else if bd == 5 then Ok(NEG_INF, bs)
      else if bd == 6 || bd == 7 then Ok(0, bs)
      else Err(BadDescriptor)
    else if bd / 16 == 3 then DecFloat(bd % 16, bs)
    else var (x, r) :- DecIntAny(bd, bs); Ok(FloatOfInt(x.1), r)
  }

  /** What reads as a float without a schema reads as that float into one. */
  lemma {:induction false} NakedFloat(names: Names, bd: byte, bs: seq<byte>, f: nat, names2: Names, rest: seq<byte>)
    requires Naked(names, bd, bs) == Ok(Named(Leaf(Float64(f)), names2), rest)
    ensures bd != 0 && DecFloat64(bd, bs) == Ok(f, rest) && names2 == names
  {
    hide DecLen, DecRaw, DecFloat, DecSym, DecMagnitude, DecIntAny;
    assert bd / 16 == 0 ==> bd % 16 == bd;
  }

  /** An integer other than the one-byte minus one is converted. */
  lemma {:induction false} AnyAsFloat(bd: byte, bs: seq<byte>)
    requires DecIntAny(bd, bs).Ok? && bd != 8
    ensures DecFloat64(bd, bs) == Ok(FloatOfInt(DecIntAny(bd, bs).value.1), DecIntAny(bd, bs).rest)
  {
    hide DecMagnitude;
  }

  lemma {:induction false} NotMinusOne(z: int)
    requires -TWO63 <= z < TWO64 && z != -1
    ensures var e := if z < 0 then EncInt(z) else EncMagnitude(0x10, true, z); e != [] && e[0] != 8
  {
    hide EncPruned;
    if z > 16 {
      var _ := MagnitudeShape(0x10, true, z);
    } else if z < -1 {
      var _ := MagnitudeShape(0x20, false, -z);
    }
  }

  function DecBool(bd: byte, bs: seq<byte>): (r: Read<bool>)
    ensures r.Ok? ==> |r.rest| <= |bs|
  {
    if bd == 1 || bd == 2 then Ok(bd == 2, bs) else Err(BadDescriptor)
  }

  function DecString(names: Names, bd: byte, bs: seq<byte>): (r: Read<Named<seq<byte>>>)
    ensures r.Ok? ==> |r.rest| <= |bs|
  {
    if bd / 16 == 4 || bd / 16 == 5 then var (s, r) :- DecRaw(bd % 16, bs); Ok(Named(s, names), r)
    else if bd / 16 == 11 then DecSym(names, bd % 16, bs)
    else Err(BadDescriptor)
  }

  // ------------------------------------------------------------------
  // What the encoder writes, the decoder reads

  /** A Go value of its static type, with the lengths on which the two drivers agree. */
  predicate Fits(v: Value) {
    match v
    case Int(i) => -TWO63 <= i < TWO63
    case Uint(u) => u < TWO64
    case Float32(f) => f < TWO32
    case Float64(f) => f < TWO64
    case Str(s) => |s| < TWO16
    case Sym(s) => |s| < TWO63
    case Bytes(s) => |s| < TWO16
    case Ext(_, Some(data)) => |data| < TWO16
    case Time(secs, nsecs, _) => Timestamp.IsTime(secs, nsecs)
    case Array(es) => |es| < TWO16
    case Map(kvs) => |kvs| < TWO16
    case Unsupported => false
    case _ => true
  }

  function NormHead(v: Value): Head {
    match v
    case Int(i) => IntHead(i)
    case Uint(u) => IntHead(u)
    case Float32(f) => Leaf(Float64(if f % TWO31 == 0 then 0 else Widen(f)))
    case Float64(f) => Leaf(Float64(if f % TWO63 == 0 then 0 else f))
    case Sym(s) => Leaf(Str(s))
    case Ext(tag, None) => Leaf(Nil)
    case Ext(tag, Some(data)) => Leaf(Ext(tag, if data == [] then None else Some(data)))
    case Time(secs, nsecs, zone) => Leaf(Time(secs, nsecs, Timestamp.NormZone(zone)))
    case Array(es) => ArrayHead(|es|)
    case Map(kvs) => MapHead(|kvs|)
    case _ => Leaf(v)
  }

  lemma {:induction false} Split(bd: byte, xs: seq<byte>, suffix: seq<byte>)
    ensures var e := [bd] + xs + suffix; e[0] == bd && e[1..] == xs + suffix
  {
    assert [bd] + xs + suffix == [bd] + (xs + suffix);
  }

  lemma {:induction false} ReadUintOfBytes(xs: seq<byte>, suffix: seq<byte>)
    ensures ReadUint(xs + suffix, |xs|) == Ok(FromBE(xs), suffix)
  {
    ReadNOfConcat(xs, suffix);
  }

  lemma {:induction false} PrunedShape(bd: byte, pos: bool, v: nat, lim: nat)
    requires bd <= 0xf0 && 1 <= lim <= 8 && v < Pow256(lim)
    ensures var b := BE(v, lim); var xs := b[PruneCount(b, pos)..];
            && 1 <= |xs| <= lim && EncPruned(bd, pos, v, lim) == [bd + |xs| - 1] + xs
            && (pos ==> FromBE(xs) == v)
  {
    FromBEOfBE(v, lim);
    PruneKeepsValue(BE(v, lim), pos);
  }

  lemma {:induction false} OneByte(v: byte)
    ensures FromBE([v]) == v
  {
    assert FromBE([v]) == 256 * FromBE([v][..0]) + v;
  }

  /** A magnitude that is not a special case: a width in the descriptor, then that many bytes. */
  lemma {:induction false} MagnitudeShape(bd: byte, pos: bool, v: nat) returns (xs: seq<byte>)
    requires bd <= 0xf0 && v < TWO64 && v > (if pos then 16 else 0)
    ensures 1 <= |xs| <= 8 && EncMagnitude(bd, pos, v) == [bd + |xs| - 1] + xs
    ensures FromBE(xs) == if pos then v else NegMagnitude(v)
  {
    hide Pow256, BE, EncPruned, FromBE, PruneCount;
    Pow256Values();
    if v < 0x100 {
      xs := [v];
      OneByte(v);
    } else if v < TWO16 {
      xs := BE(v, 2);
      FromBEOfBE(v, 2);
    } else {
      var lim := if v < TWO32 then 4 else 8;
      PrunedShape(bd, pos, v, lim);
      xs := BE(v, lim)[PruneCount(BE(v, lim), pos)..];
    }
  }

  lemma {:induction false} MagnitudeRead(xs: seq<byte>, suffix: seq<byte>)
    requires 1 <= |xs| <= 8
    ensures DecMagnitude(|xs| - 1, xs + suffix) == Ok(FromBE(xs), suffix)
  {
    ReadUintOfBytes(xs, suffix);
  }

  /** decIntAny on any encoded integer: its value, except that negative magnitudes may lose leading bytes. */
  lemma {:induction false} IntAnyRoundTrip(z: int, suffix: seq<byte>)
    requires -TWO63 <= z < TWO64
    ensures var e := (if z < 0 then EncInt(z) else EncMagnitude(0x10, true, z)) + suffix;
            var i := if z < -1 then Negate(NegMagnitude(-z)) else ToSigned(if z < 0 then TWO64 - 1 else z, TWO64);
            && e != [] && DecIntAny(e[0], e[1..]).Ok? && DecIntAny(e[0], e[1..]).rest == suffix
            && var x := DecIntAny(e[0], e[1..]).value; x.1 == i && (x.2 <==> z < 0) && (z >= 0 ==> x.0 == z)
  {
    hide NegMagnitude, DecMagnitude, EncPruned, BE, FromBE;
    var e := (if z < 0 then EncInt(z) else EncMagnitude(0x10, true, z)) + suffix;
    if -1 <= z <= 16 {
      assert e[1..] == suffix;
    } else if z > 0 {
      var xs := MagnitudeShape(0x10, true, z);
      Split(0x10 + |xs| - 1, xs, suffix);
      MagnitudeRead(xs, suffix);
    } else {
      var xs := MagnitudeShape(0x20, false, -z);
      Split(0x20 + |xs| - 1, xs, suffix);
      MagnitudeRead(xs, suffix);
    }
  }

  lemma {:induction false} SuffixBound(b: seq<byte>, n: nat)
    requires 1 <= n <= |b|
    ensures FromBE(b[n..]) < Pow256(|b| - 1)
  {
    Pow256Mono(|b| - n, |b| - 1);
  }

  lemma {:induction false} Pow256Mono(a: nat, b: nat)
    requires a <= b
    ensures Pow256(a) <= Pow256(b)
    decreases b
  {
    if a < b { Pow256Mono(a, b - 1); }
  }

  lemma {:induction false} TopBytes(b: seq<byte>, m: nat)
    requires |b| >= 2 && FromBE(b) == m
    ensures b[0] == 255 && b[1] >= 128 <==> 2 * m >= 511 * Pow256(|b| - 1)
  {
    var p := Pow256(|b| - 1);
    FromBEHead(b);
    SignOfBE(b[1..]);
    if b[0] < 255 { MulMono(b[0], 254, p); }
  }

  /** Exactly the magnitudes from ff800000 to ffffffff are changed by the missing sign bytes. */
  lemma {:induction false} NegMagnitudeExact(m: nat)
    requires m <= TWO63
    ensures NegMagnitude(m) == m <==> !(0xFF80_0000 <= m <= 0xFFFF_FFFF)
  {
    if m >= TWO16 {
      Pow256Values();
      var b := if m < TWO32 then BE(m, 4) else BE(m, 8);
      FromBEOfBE(m, |b|);
      TopBytes(b, m);
      assert b[0..] == b;
      var n := PruneCount(b, false);
      if n > 0 { SuffixBound(b, n); }
    }
  }

  lemma {:induction false} NegMagnitudeBound(m: nat)
    requires m < TWO64
    ensures NegMagnitude(m) < TWO64
  {
    if m >= TWO16 {
      Pow256Values();
      var b := if m < TWO32 then BE(m, 4) else BE(m, 8);
      Pow256Mono(|b| - PruneCount(b, false), 8);
    }
  }

  lemma {:induction false} NegateInjective(n: nat, m: nat)
    requires n < TWO64 && 0 < m <= TWO63
    ensures Negate(n) == 0 - m <==> n == m
  {
  }

  /** An int64 survives the round trip exactly when it is not negative with such a magnitude. */
  lemma {:induction false} IntRoundTripExact(i: int, suffix: seq<byte>)
    requires -TWO63 <= i < TWO63
    ensures var e := EncInt(i) + suffix; var r := DecInt(e[0], e[1..], 64);
            r == Ok(i, suffix) <==> !(i < 0 && 0xFF80_0000 <= -i <= 0xFFFF_FFFF)
  {
    hide NegMagnitude, EncMagnitude, DecIntAny, ShiftSigned;
    IntAnyRoundTrip(i, suffix);
    var e := EncInt(i) + suffix;
    DecInt64(e[0], e[1..]);
    if i < -1 {
      NegMagnitudeExact(-i);
      NegMagnitudeBound(-i);
      NegateInjective(NegMagnitude(-i), -i);
    }
  }

  /** The int64 a reader sees: from 2^63 on the number less 2^64, and a negative one as far as its magnitude survives. */
  function Seen(z: int): int {
    if z < -1 then Negate(NegMagnitude(-z)) else if z < TWO63 then z else z - TWO64
  }

  /** decodeInt succeeds exactly when the integer seen has the given width, for every integer and every width. */
  lemma {:induction false} DecIntExact(z: int, bitsize: nat, suffix: seq<byte>)
    requires -TWO63 <= z < TWO64 && 1 <= bitsize <= 64
    ensures var e := (if z < 0 then EncInt(z) else EncMagnitude(0x10, true, z)) + suffix;
            var r := DecInt(e[0], e[1..], bitsize);
            if 0 - Pow2(bitsize - 1) <= Seen(z) < Pow2(bitsize - 1) then r == Ok(Seen(z), suffix) else r.Err?
    ensures !(z < 0 && 0xFF80_0000 <= -z <= 0xFFFF_FFFF) ==> Seen(z) == if z < TWO63 then z else z - TWO64
  {
    hide NegMagnitude, EncMagnitude, EncInt, DecIntAny, ShiftSigned, Pow2, Seen;
    SeenAny(z, suffix);
    ShiftSignedIsRange(Seen(z), bitsize);
    ZeroInRange(bitsize);
    SeenNumber(z);
  }

  lemma {:induction false} SeenAny(z: int, suffix: seq<byte>)
    requires -TWO63 <= z < TWO64
    ensures var e := (if z < 0 then EncInt(z) else EncMagnitude(0x10, true, z)) + suffix; var x := DecIntAny(e[0], e[1..]);
            e != [] && x.Ok? && x.rest == suffix && x.value.1 == Seen(z)
  {
    hide NegMagnitude, EncMagnitude, EncInt, DecIntAny;
    IntAnyRoundTrip(z, suffix);
  }

  lemma {:induction false} SeenNumber(z: int)
    requires -TWO63 <= z < TWO64
    ensures !(z < 0 && 0xFF80_0000 <= -z <= 0xFFFF_FFFF) ==> Seen(z) == if z < TWO63 then z else z - TWO64
  {
    hide NegMagnitude, Negate;
    if z < -1 {
      NegMagnitudeExact(-z);
      Negated(-z);
    }
  }

  lemma {:induction false} Negated(u: nat)
    requires 0 < u <= TWO63
    ensures Negate(u) == 0 - u
  {
    assert (0 - u) % TWO64 == TWO64 - u;
  }

  lemma {:induction false} ZeroInRange(bitsize: nat)
    requires bitsize >= 1
    ensures Pow2(bitsize - 1) >= 1
  {
  }

  /** At full width the overflow test never fires on an int64. */
  lemma {:induction false} DecInt64(bd: byte, bs: seq<byte>)
    ensures var x := DecIntAny(bd, bs);
            x.Ok? && -TWO63 <= x.value.1 < TWO63 ==> DecInt(bd, bs, 64) == Ok(x.value.1, x.rest)
  {
    var x := DecIntAny(bd, bs);
    if x.Ok? {
      Pow2Values();
      ShiftSignedIsRange(x.value.1, 64);
    }
  }

  /** Every uint64 survives at the widths it fits and fails at the others, and a negative integer fails at all. */
  lemma {:induction false} UintRoundTrip(z: int, bitsize: nat, suffix: seq<byte>)
    requires -TWO63 <= z < TWO64 && 1 <= bitsize <= 64
    ensures var e := (if z < 0 then EncInt(z) else EncMagnitude(0x10, true, z)) + suffix; var r := DecUint(e[0], e[1..], bitsize);
            if 0 <= z < Pow2(bitsize) then r == Ok(z, suffix) else r.Err?
  {
    hide EncInt, EncMagnitude, DecIntAny, ShiftUnsigned, Pow2, NegMagnitude;
    IntAnyRoundTrip(z, suffix);
    if z >= 0 { ShiftUnsignedIsRange(z, bitsize); }
    ZeroInRange(bitsize + 1);
  }

  // ------------------------------------------------------------------

  /** The two drivers agree on a length exactly up to 65535. */
  lemma {:induction false} LenRoundTripExact(l: nat, suffix: seq<byte>)
    requires l < TWO64
    ensures DecLen(LenTag(l), LenNumber(l) + suffix) == Ok(l, suffix) <==> l < TWO16
  {
    Pow256Values();
    if l < 12 {
      assert LenNumber(l) + suffix == suffix;
    } else if l < 0x100 {
      ReadUintOfBytes([l], suffix);
      assert FromBE([l]) == 256 * FromBE([l][..0]) + l;
    } else if l < TWO16 {
      ReadUintOfBE(l, 2, suffix);
    }
  }

  lemma {:induction false} Nibbles(bd: byte, t: nat)
    requires bd <= 0xf0 && bd % 16 == 0 && t < 16
    ensures (bd + t) / 16 == bd / 16 && (bd + t) % 16 == t
  {
  }

  lemma {:induction false} LenShape(bd: byte, l: nat, rest: seq<byte>)
    requires bd <= 0xf0 && bd % 16 == 0
    ensures var e := EncLen(bd, l) + rest;
            e != [] && e[0] / 16 == bd / 16 && e[0] % 16 == LenTag(l) && e[1..] == LenNumber(l) + rest
  {
    Split(bd + LenTag(l), LenNumber(l), rest);
    Nibbles(bd, LenTag(l));
  }

  lemma {:induction false} RawRead(s: seq<byte>, suffix: seq<byte>)
    requires |s| < TWO16
    ensures DecRaw(LenTag(|s|), LenNumber(|s|) + (s + suffix)) == Ok(s, suffix)
  {
    LenRoundTripExact(|s|, s + suffix);
    ReadNOfConcat(s, suffix);
  }

  lemma {:induction false} RawRoundTrip(bd: byte, s: seq<byte>, suffix: seq<byte>)
    requires bd <= 0xf0 && bd % 16 == 0 && |s| < TWO16
    ensures var e := EncLen(bd, |s|) + s + suffix;
            e != [] && e[0] / 16 == bd / 16 && DecRaw(e[0] % 16, e[1..]) == Ok(s, suffix)
  {
    RawRead(s, suffix);
    LenShape(bd, |s|, s + suffix);
    assert EncLen(bd, |s|) + s + suffix == EncLen(bd, |s|) + (s + suffix);
  }

  /** Dropping trailing zero bytes and zero-filling again is the identity. */
  lemma {:induction false} TrimmedRestores(b: seq<byte>)
    ensures b[..Trimmed(b)] + Zeros(|b| - Trimmed(b)) == b
  {
    if b != [] && b[|b| - 1] == 0 {
      var p := b[..|b| - 1];
      TrimmedRestores(p);
      assert b == p + [0];
      assert Zeros(|b| - Trimmed(b)) == Zeros(|p| - Trimmed(p)) + [0];
      assert b[..Trimmed(b)] == p[..Trimmed(p)];
    }
  }

  lemma {:induction false} TrimmedRead(b: seq<byte>, suffix: seq<byte>)
    requires |b| == 8
    ensures DecPadded([Trimmed(b)] + b[..Trimmed(b)] + suffix) == Ok(b, suffix)
  {
    var i: byte := Trimmed(b);
    Split(i, b[..i], suffix);
    ReadNOfConcat(b[..i], suffix);
    TrimmedRestores(b);
  }

  /** A float64 other than the two zeros keeps all its bits, pruned or not. */
  lemma {:induction false} FloatRoundTrip(f: nat, suffix: seq<byte>)
    requires f < TWO64 && f % TWO63 != 0
    ensures var e := EncFloat64(f) + suffix; e[0] / 16 == 3 && DecFloat(e[0] % 16, e[1..]) == Ok(f, suffix)
  {
    Pow256Values();
    var b := BE(f, 8);
    FromBEOfBE(f, 8);
    if Trimmed(b) <= 6 {
      PrunedFloatRead(b, suffix);
    } else {
      Split(0x33, b, suffix);
      ReadNOfConcat(b, suffix);
    }
  }

  /** decodeNaked gives back the bits of every float64 but negative zero, which is written as plain zero. */
  lemma {:induction false} FloatExact(names: Names, f: nat, suffix: seq<byte>)
    requires f < TWO64
    ensures var e := EncFloat64(f) + suffix;
            Naked(names, e[0], e[1..]) == Ok(Named(Leaf(Float64(f)), names), suffix) <==> f != TWO63
  {
    hide DecFloat, EncFloat64, BE;
    var e := EncFloat64(f) + suffix;
    if f % TWO63 == 0 {
      ZeroFloat(f);
      assert e[0] == 6 && e[1..] == suffix;
    } else {
      FloatRoundTrip(f, suffix);
    }
  }

  lemma {:induction false} ZeroFloat(f: nat)
    requires f % TWO63 == 0
    ensures EncFloat64(f) == [6]
  {
  }

  lemma {:induction false} PrunedFloatRead(b: seq<byte>, suffix: seq<byte>)
    requires |b| == 8
    ensures var e := [0x3b, Trimmed(b)] + b[..Trimmed(b)] + suffix; e[0] == 0x3b && DecFloat(11, e[1..]) == Ok(FromBE(b), suffix)
  {
    var i: byte := Trimmed(b);
    var tail := [i] + b[..i] + suffix;
    assert [0x3b, i] + b[..i] + suffix == [0x3b] + tail;
    assert ([0x3b] + tail)[1..] == tail;
    TrimmedRead(b, suffix);
    assert b[..8] == b;
  }

  // ------------------------------------------------------------------

  lemma {:induction false} IdRead(flags: nat, id: nat, rest: seq<byte>)
    requires flags < 8 && id < TWO16
    ensures var e := EncId(flags, id) + rest; var vs := e[0] % 16;
            && e[0] / 16 == 11 && vs / 4 % 2 == flags / 4 && vs % 4 == flags % 4
            && ReadUint(e[1..], if vs / 8 % 2 == 0 then 1 else 2) == Ok(id, rest)
  {
    Pow256Values();
    Split(IdTag(flags, id), BE(id, IdWidth(id)), rest);
    ReadUintOfBE(id, IdWidth(id), rest);
  }

  lemma {:induction false} LookupRead(names: Names, id: nat, suffix: seq<byte>)
    requires id < TWO16 && id in names
    ensures var e := EncId(0, id) + suffix;
            DecString(names, e[0], e[1..]) == Ok(Named(names[id], names), suffix)
  {
    IdRead(0, id, suffix);
  }

  lemma {:induction false} PrecisionFits(l: nat)
    requires l < TWO63
    ensures l < Pow256(PrecisionWidth(LenPrecision(l)))
  {
    Pow256Values();
  }

  lemma {:induction false} DefinitionRead(v: seq<byte>, suffix: seq<byte>)
    requires |v| < TWO63
    ensures var p := LenPrecision(|v|);
            DecDefinition(p, BE(|v|, PrecisionWidth(p)) + (v + suffix)) == Ok(v, suffix)
  {
    PrecisionFits(|v|);
    ReadUintOfBE(|v|, PrecisionWidth(LenPrecision(|v|)), v + suffix);
    ReadNOfConcat(v, suffix);
  }

  lemma {:induction false} SymDefines(names: Names, bd: byte, bs: seq<byte>, id: nat, rest: seq<byte>, v: seq<byte>, suffix: seq<byte>)
    requires bd / 16 == 11 && bd % 16 / 4 % 2 == 1
    requires ReadUint(bs, if bd % 16 / 8 % 2 == 0 then 1 else 2) == Ok(id, rest)
    requires DecDefinition(bd % 16 % 4, rest) == Ok(v, suffix)
    ensures DecString(names, bd, bs) == Ok(Named(v, names[id := v]), suffix)
  {
  }

  lemma {:induction false} DefineRead(names: Names, id: nat, v: seq<byte>, suffix: seq<byte>)
    requires id < TWO16 && |v| < TWO63
    ensures var e := EncDefinition(id, v) + suffix;
            DecString(names, e[0], e[1..]) == Ok(Named(v, names[id := v]), suffix)
  {
    var p := LenPrecision(|v|);
    var payload := BE(|v|, PrecisionWidth(p)) + (v + suffix);
    var e := EncId(4 + p, id) + payload;
    assert EncDefinition(id, v) + suffix == e by { assert EncDefinition(id, v) == EncId(4 + p, id) + (BE(|v|, PrecisionWidth(p)) + v); }
    DefinitionRead(v, suffix);
    IdRead(4 + p, id, payload);
    var bd, bs := e[0], e[1..];
    SymDefines(names, bd, bs, id, payload, v, suffix);
  }

  /** A symbol written under d decodes to the string it stands for, and leaves inverse dictionaries. */
  ghost predicate SymOk(d: Symbols, names: Names, v: seq<byte>, suffix: seq<byte>, e: seq<byte>)
  {
    && e == EncSym(d, v).0 + suffix && e != []
    && var r := DecString(names, e[0], e[1..]);
       r.Ok? && r.rest == suffix && r.value.value == v && Inverse(EncSym(d, v).1, r.value.names)
  }

  lemma {:induction false} SymDefined(d: Symbols, names: Names, v: seq<byte>, suffix: seq<byte>)
    requires Inverse(d, names) && 1 < |v| < TWO63 && v !in d.ids && d.s < TWO16
    ensures SymOk(d, names, v, suffix, EncSym(d, v).0 + suffix)
  {
    var id := NextId(d);
    var d2 := DefineInverse(d, names, v);
    assert EncSym(d, v) == (EncDefinition(id, v), d2);
    var e := EncDefinition(id, v) + suffix;
    assert e[0] == IdTag(4 + LenPrecision(|v|), id);
    DefineRead(names, id, v, suffix);
  }

  lemma {:induction false} SymShort(d: Symbols, names: Names, v: seq<byte>, suffix: seq<byte>)
    requires Inverse(d, names) && |v| <= 1
    ensures SymOk(d, names, v, suffix, EncSym(d, v).0 + suffix)
  {
    RawRoundTrip(0x40, v, suffix);
  }

  /** A symbol decodes to the string encoded, and the two dictionaries stay mutual inverses. */
  lemma {:induction false} SymRoundTrip(d: Symbols, names: Names, v: seq<byte>, suffix: seq<byte>)
    requires Inverse(d, names) && |v| < TWO63
    requires |v| <= 1 || v in d.ids || d.s < TWO16
    ensures SymOk(d, names, v, suffix, EncSym(d, v).0 + suffix)
  {
    if |v| <= 1 {
      SymShort(d, names, v, suffix);
    } else if v in d.ids {
      LookupRead(names, d.ids[v], suffix);
    } else {
      SymDefined(d, names, v, suffix);
    }
  }

  lemma {:induction false} DefineInverse(d: Symbols, names: Names, v: seq<byte>) returns (d2: Symbols)
    requires Inverse(d, names) && v !in d.ids && |v| > 1 && d.s < TWO16
    ensures d2 == Symbols(d.ids[v := NextId(d)], (d.s + 1) % TWO32)
    ensures Inverse(d2, names[NextId(d) := v])
  {
    var id := NextId(d);
    d2 := Symbols(d.ids[v := id], (d.s + 1) % TWO32);
    assert id == (if d.s + 1 == TWO16 then 0 else d.s + 1) && d2.s == d.s + 1;
    assert id !in names;
    InverseMore(d, names, v, id, d2);
  }

  lemma {:induction false} InverseMore(d: Symbols, names: Names, v: seq<byte>, id: nat, d2: Symbols)
    requires Inverse(d, names) && v !in d.ids && id !in names && |v| > 1 && d2 == Symbols(d.ids[v := id], d.s + 1) && d.s < TWO16
    requires id == (if d.s + 1 == TWO16 then 0 else d.s + 1)
    ensures Inverse(d2, names[id := v])
  {
    var names2 := names[id := v];
    assert |d2.ids| == |d.ids| + 1;
    forall u | u in d2.ids ensures d2.ids[u] in names2 && names2[d2.ids[u]] == u {
      if u != v { assert d.ids[u] in names; }
    }
    forall i | i in names2 ensures names2[i] in d2.ids && d2.ids[names2[i]] == i {
      if i != id { assert names[i] in d.ids && d.ids[names[i]] == i; }
    }
  }

  /** A set of numbers below n with n elements holds them all. */
  lemma {:induction false} AllBelow(ids: set<nat>, n: nat, i: nat)
    requires forall k :: k in ids ==> k < n
    requires |ids| == n && i < n
    ensures i in ids
  {
    if i !in ids {
      FewBelow(ids + {i}, n);
    }
  }

  lemma {:induction false} FewBelow(ids: set<nat>, n: nat)
    requires forall k :: k in ids ==> k < n
    ensures |ids| <= n
  {
    if n > 0 {
      FewBelow(ids - {n - 1}, n - 1);
    } else {
      assert ids == {};
    }
  }

  /** As many ids as symbols: mutual inverses have equally many entries. */
  lemma {:induction false} AsMany(ids: map<seq<byte>, nat>, names: Names)
    requires Mutual(Symbols(ids, 0), names)
    ensures |names.Keys| == |ids.Keys|
    decreases |ids|
  {
    if ids.Keys == {} {
      assert names.Keys == {};
    } else {
      var v :| v in ids.Keys;
      var i := ids[v];
      assert i in names && names[i] == v;
      var ids2, names2 := ids - {v}, names - {i};
      assert ids2.Keys == ids.Keys - {v} && names2.Keys == names.Keys - {i};
      AsMany(ids2, names2);
    }
  }

  /** With 65536 symbols numbered every 16-bit id is taken. */
  lemma {:induction false} IdTaken(d: Symbols, names: Names, i: nat)
    requires Inverse(d, names) && d.s == TWO16 && i < TWO16
    ensures i in names
  {
    AsMany(d.ids, names);
    AllBelow(names.Keys, TWO16, i);
  }

  /**
   * The 65537th symbol takes the id of an earlier one, whatever the symbols are: its definition overwrites that
   * name, and the next use of the earlier symbol decodes to the new string.
   */
  lemma {:induction false} SymbolIdsWrap(d: Symbols, names: Names, v: seq<byte>, suffix: seq<byte>) returns (earlier: seq<byte>)
    requires Inverse(d, names) && d.s == TWO16
    requires 1 < |v| < TWO63 && v !in d.ids
    ensures earlier in d.ids && earlier != v
    ensures var def := EncSym(d, v);
            var e := def.0 + suffix;
            var r := DecString(names, e[0], e[1..]);
            var use := EncSym(def.1, earlier).0 + suffix;
            && r.Ok? && r.rest == suffix && r.value.value == v
            && DecString(r.value.names, use[0], use[1..]) == Ok(Named(v, r.value.names), suffix)
            && !Mutual(def.1, r.value.names)
  {
    IdTaken(d, names, 1);
    earlier := names[1];
    WrapsOnto(d, names, v, earlier, suffix);
  }

  lemma {:induction false} WrapsOnto(d: Symbols, names: Names, v: seq<byte>, earlier: seq<byte>, suffix: seq<byte>)
    requires 1 < |v| < TWO63 && v !in d.ids && d.s == TWO16
    requires |earlier| > 1 && earlier in d.ids && d.ids[earlier] == 1
    ensures var def := EncSym(d, v);
            var e := def.0 + suffix;
            var r := DecString(names, e[0], e[1..]);
            var use := EncSym(def.1, earlier).0 + suffix;
            && r == Ok(Named(v, names[1 := v]), suffix)
            && DecString(names[1 := v], use[0], use[1..]) == Ok(Named(v, names[1 := v]), suffix)
            && !Mutual(def.1, names[1 := v])
  {
    assert NextId(d) == 1;
    DefineRead(names, 1, v, suffix);
    LookupRead(names[1 := v], 1, suffix);
    assert EncSym(d, v).1.ids[earlier] == 1;
  }

  /** The next symbol always decodes to itself; it leaves the dictionaries mutual inverses exactly while an id is left for it. */
  lemma {:induction false} SymExact(d: Symbols, names: Names, v: seq<byte>, suffix: seq<byte>)
    requires Inverse(d, names) && |v| < TWO63
    ensures var e := EncSym(d, v).0 + suffix;
            var r := DecString(names, e[0], e[1..]);
            && r.Ok? && r.rest == suffix && r.value.value == v
            && (Mutual(EncSym(d, v).1, r.value.names) <==> |v| <= 1 || v in d.ids || d.s < TWO16)
  {
    hide EncSym, DecString, Mutual;
    if |v| <= 1 || v in d.ids || d.s < TWO16 {
      SymRoundTrip(d, names, v, suffix);
      assert forall d2, names2 :: Inverse(d2, names2) ==> Mutual(d2, names2);
    } else {
      var earlier := SymbolIdsWrap(d, names, v, suffix);
    }
  }

  /** What the two ends know after the k symbols 0, 1, 2, ..., each written as four bytes. */
  ghost function Numbered(k: nat): (r: (Symbols, Names)) {
    if k == 0 then (Symbols(map[], 0), map[])
    else
      var (d, names) := Numbered(k - 1);
      var (bytes, d2) := EncSym(d, BE(k - 1, 4));
      (d2, if bytes == [] then names else
        match DecString(names, bytes[0], bytes[1..])
        case Ok(x, _) => x.names
        case Err(_) => names)
  }

  /** A run of k different symbols over a fresh connection reaches dictionaries with k entries, for k up to 65536. */
  lemma {:induction false} NumberedReached(k: nat)
    requires k <= TWO16
    ensures var (d, names) := Numbered(k); Inverse(d, names) && d.s == k && forall v :: v in d.ids ==> FromBE(v) < k
    decreases k
  {
    hide DecString, EncSym, BE, Inverse, FromBE;
    if k == 0 {
      EmptyInverse();
    } else {
      NumberedReached(k - 1);
      var (d, names) := Numbered(k - 1);
      var v := BE(k - 1, 4);
      Pow256Values();
      FromBEOfBE(k - 1, 4);
      SymRoundTrip(d, names, v, []);
      assert EncSym(d, v).0 + [] == EncSym(d, v).0;
      NewSymbol(d, names, v);
    }
  }

  lemma {:induction false} EmptyInverse()
    ensures Inverse(Symbols(map[], 0), map[])
  {
  }

  lemma {:induction false} NewSymbol(d: Symbols, names: Names, v: seq<byte>)
    requires Inverse(d, names) && v !in d.ids && |v| > 1 && d.s < TWO16
    ensures EncSym(d, v).1.s == d.s + 1 && EncSym(d, v).1.ids.Keys == d.ids.Keys + {v}
  {
    hide Mutual, EncDefinition;
  }

  /** p followed by suffix reads as the head n, up to suffix, and leaves names inverse to d. */
  ghost predicate ReadsAs(names: Names, p: seq<byte>, suffix: seq<byte>, n: Head, d: Symbols)
  {
    && p != []
    && var r := Naked(names, (p + suffix)[0], (p + suffix)[1..]);
       r.Ok? && r.rest == suffix && r.value.value == n && Inverse(d, r.value.names)
  }

  /** For everything but symbols it is enough that the plain reader gets the head. */
  lemma {:induction false} PlainReadsAs(names: Names, p: seq<byte>, suffix: seq<byte>, n: Head, d: Symbols, vd: nat, vs: nat, bs: seq<byte>)
    requires Inverse(d, names) && vd < 16 && vs < 16 && vd != 11 && p != []
    requires p + suffix == [16 * vd + vs] + bs
    requires Plain(vd, vs, bs) == Ok(n, suffix)
    ensures ReadsAs(names, p, suffix, n, d)
  {
    hide Plain;
    var bd: byte := 16 * vd + vs;
    assert bd / 16 == vd && bd % 16 == vs;
    assert (p + suffix)[1..] == bs;
  }

  /** decodeNaked and decIntAny read an integer the same way. */
  lemma {:induction false} NakedInt(bd: byte, bs: seq<byte>, vd: nat, vs: nat)
    requires vd == bd / 16 && vs == bd % 16
    requires vd == 0 || vd == 1 || vd == 2 || vd == 9
    requires DecIntAny(bd, bs).Ok?
    ensures var x := DecIntAny(bd, bs);
            Plain(vd, vs, bs) == Ok(Leaf(if bd == 7 then Int(0) else if x.value.2 then Int(x.value.1) else Uint(x.value.0)), x.rest)
  {
    assert vd == 0 ==> vs == bd;
  }

  lemma {:induction false} IntDescriptor(bd: byte, bs: seq<byte>)
    requires DecIntAny(bd, bs).Ok?
    ensures bd / 16 == 0 || bd / 16 == 1 || bd / 16 == 2 || bd / 16 == 9
  {
  }

  /** The head an integer comes back as. */
  function IntHead(z: int): Head {
    Leaf(if z > 0 then Uint(z) else if z >= -1 then Int(z) else Int(Negate(NegMagnitude(-z))))
  }

  lemma {:induction false} IntReadsAs(names: Names, d: Symbols, z: int, suffix: seq<byte>)
    requires Inverse(d, names) && -TWO63 <= z < TWO64
    ensures ReadsAs(names, if z < 0 then EncInt(z) else EncMagnitude(0x10, true, z), suffix, IntHead(z), d)
  {
    hide Inverse, ReadsAs, NegMagnitude, BE, FromBE, PruneCount, DecMagnitude;
    IntAnyRoundTrip(z, suffix);
    ZeroByte(z, suffix);
    var p := if z < 0 then EncInt(z) else EncMagnitude(0x10, true, z);
    var bd, bs := (p + suffix)[0], (p + suffix)[1..];
    IntDescriptor(bd, bs);
    NakedInt(bd, bs, bd / 16, bd % 16);
    PlainReadsAs(names, p, suffix, IntHead(z), d, bd / 16, bd % 16, bs);
  }

  lemma {:induction false} ZeroByte(z: int, suffix: seq<byte>)
    requires -TWO63 <= z < TWO64
    ensures ((if z < 0 then EncInt(z) else EncMagnitude(0x10, true, z)) + suffix)[0] == 7 <==> z == 0
  {
    if z > 16 {
      var xs := MagnitudeShape(0x10, true, z);
    } else if z < -1 {
      var xs := MagnitudeShape(0x20, false, -z);
    }
  }

  lemma {:induction false} Float32ReadsAs(names: Names, d: Symbols, f: nat, suffix: seq<byte>)
    requires Inverse(d, names) && f < TWO32
    ensures ReadsAs(names, [0x31] + BE(f, 4), suffix, Leaf(Float64(Widen(f))), d)
  {
    hide ReadsAs, Inverse, Widen, BE, FromBE, Pow256;
    Pow256Values();
    FromBEOfBE(f, 4);
    ReadNOfConcat(BE(f, 4), suffix);
    assert [0x31] + BE(f, 4) + suffix == [0x31] + (BE(f, 4) + suffix);
    PlainReadsAs(names, [0x31] + BE(f, 4), suffix, Leaf(Float64(Widen(f))), d, 3, 1, BE(f, 4) + suffix);
  }

  lemma {:induction false} Float64ReadsAs(names: Names, d: Symbols, f: nat, suffix: seq<byte>)
    requires Inverse(d, names) && f % TWO63 != 0 && f < TWO64
    ensures ReadsAs(names, EncFloat64(f), suffix, Leaf(Float64(f)), d)
  {
    FloatRoundTrip(f, suffix);
    var e := EncFloat64(f) + suffix;
    var vs := e[0] % 16;
    assert e == [16 * 3 + vs] + e[1..];
    PlainReadsAs(names, EncFloat64(f), suffix, Leaf(Float64(f)), d, 3, vs, e[1..]);
  }

  lemma {:induction false} RawReadsAs(names: Names, d: Symbols, vd: nat, s: seq<byte>, suffix: seq<byte>)
    requires Inverse(d, names) && |s| < TWO16 && (vd == 4 || vd == 5)
    ensures ReadsAs(names, EncLen(16 * vd, |s|) + s, suffix, Leaf(if vd == 4 then Str(s) else Bytes(s)), d)
  {
    hide ReadsAs, Inverse, LenNumber, DecRaw, ReadN;
    RawRead(s, suffix);
    var p := EncLen(16 * vd, |s|) + s;
    assert p + suffix == [16 * vd + LenTag(|s|)] + (LenNumber(|s|) + (s + suffix));
    PlainReadsAs(names, p, suffix, Leaf(if vd == 4 then Str(s) else Bytes(s)), d, vd, LenTag(|s|), LenNumber(|s|) + (s + suffix));
  }

  lemma {:induction false} LenReadsAs(names: Names, d: Symbols, vd: nat, l: nat, suffix: seq<byte>)
    requires Inverse(d, names) && l < TWO16 && (vd == 6 || vd == 7)
    ensures ReadsAs(names, EncLen(16 * vd, l), suffix, if vd == 6 then ArrayHead(l) else MapHead(l), d)
  {
    hide ReadsAs, Inverse, LenNumber, DecLen;
    LenRoundTripExact(l, suffix);
    var p := EncLen(16 * vd, l);
    assert p + suffix == [16 * vd + LenTag(l)] + (LenNumber(l) + suffix);
    PlainReadsAs(names, p, suffix, if vd == 6 then ArrayHead(l) else MapHead(l), d, vd, LenTag(l), LenNumber(l) + suffix);
  }

  lemma {:induction false} ExtRead(tag: byte, data: seq<byte>, suffix: seq<byte>)
    requires |data| < TWO16
    ensures DecExt(LenTag(|data|), LenNumber(|data|) + ([tag] + (data + suffix)))
         == Ok(Leaf(Ext(tag, if data == [] then None else Some(data))), suffix)
  {
    hide LenNumber, LenTag, DecLen;
    var tail := [tag] + (data + suffix);
    LenRoundTripExact(|data|, tail);
    assert tail[1..] == data + suffix;
    ReadNOfConcat(data, suffix);
  }

  lemma {:induction false} ExtReadsAs(names: Names, d: Symbols, tag: byte, data: seq<byte>, suffix: seq<byte>)
    requires Inverse(d, names) && |data| < TWO16
    ensures ReadsAs(names, EncLen(0xf0, |data|) + [tag] + data, suffix, Leaf(Ext(tag, if data == [] then None else Some(data))), d)
  {
    hide ReadsAs, Inverse, LenNumber, LenTag, DecExt;
    var l := |data|;
    var bs := LenNumber(l) + ([tag] + (data + suffix));
    ExtRead(tag, data, suffix);
    var p := EncLen(0xf0, l) + [tag] + data;
    assert p + suffix == [0xf0 + LenTag(l)] + bs;
    PlainReadsAs(names, p, suffix, Leaf(Ext(tag, if data == [] then None else Some(data))), d, 15, LenTag(l), bs);
  }

  lemma {:induction false} TimeReadsAs(names: Names, d: Symbols, secs: int, nsecs: nat, zone: Option<int>, suffix: seq<byte>)
    requires Inverse(d, names) && Timestamp.IsTime(secs, nsecs)
    ensures |Timestamp.EncTime(secs, nsecs, zone)| <= 15
    ensures var bs := Timestamp.EncTime(secs, nsecs, zone);
            ReadsAs(names, [0x80 + |bs|] + bs, suffix, Leaf(Time(secs, nsecs, Timestamp.NormZone(zone))), d)
  {
    hide ReadsAs, Inverse, Timestamp.EncTime, Timestamp.NormZone, Timestamp.DecTime;
    Timestamp.TimeRoundTrip(secs, nsecs, zone, suffix);
    var bs := Timestamp.EncTime(secs, nsecs, zone);
    TimestampReadsAs(names, d, bs, Time(secs, nsecs, Timestamp.NormZone(zone)), suffix);
  }

  lemma {:induction false} TimestampReadsAs(names: Names, d: Symbols, bs: seq<byte>, t: Value, suffix: seq<byte>)
    requires Inverse(d, names) && |bs| <= 15 && Timestamp.DecTime(bs, suffix) == Some(t)
    ensures ReadsAs(names, [0x80 + |bs|] + bs, suffix, Leaf(t), d)
  {
    hide ReadsAs, Inverse;
    ReadNOfConcat(bs, suffix);
    assert [0x80 + |bs|] + bs + suffix == [0x80 + |bs|] + (bs + suffix);
    PlainReadsAs(names, [0x80 + |bs|] + bs, suffix, Leaf(t), d, 8, |bs|, bs + suffix);
  }

  lemma {:induction false} SymNaked(names: Names, bd: byte, bs: seq<byte>)
    requires bd / 16 == 11 || bd / 16 == 4
    ensures Naked(names, bd, bs)
         == (match DecString(names, bd, bs) case Ok(s, r) => Ok(Named(Leaf(Str(s.value)), s.names), r) case Err(e) => Err(e))
  {
  }

  lemma {:induction false} SymTag(d: Symbols, v: seq<byte>)
    requires |v| <= 1 || v !in d.ids || d.ids[v] < TWO16
    ensures EncSym(d, v).0 != [] && (EncSym(d, v).0[0] / 16 == 11 || EncSym(d, v).0[0] / 16 == 4)
  {
    Nibbles(0x40, LenTag(|v|));
  }

  lemma {:induction false} SymReadsAs(names: Names, d: Symbols, s: seq<byte>, suffix: seq<byte>)
    requires Inverse(d, names) && |s| < TWO63
    requires |s| <= 1 || s in d.ids || d.s < TWO16
    ensures ReadsAs(names, EncSym(d, s).0, suffix, Leaf(Str(s)), EncSym(d, s).1)
  {
    SymRoundTrip(d, names, s, suffix);
    SymTag(d, s);
    var e := EncSym(d, s).0 + suffix;
    SymNaked(names, e[0], e[1..]);
  }

  lemma {:induction false} ByteReadsAs(names: Names, d: Symbols, b: byte, n: Head, suffix: seq<byte>)
    requires Inverse(d, names) && b <= 8 && Special(b, suffix) == Ok(n, suffix)
    ensures ReadsAs(names, [b], suffix, n, d)
  {
    PlainReadsAs(names, [b], suffix, n, d, 0, b, suffix);
  }

  /**
   * Schema-less reading of what the encoder writes, for every value the drivers agree on:
   * the normal form, nothing more consumed, and dictionaries still inverse.
   */
  lemma {:induction false} HeadRoundTrip(d: Symbols, names: Names, v: Value, suffix: seq<byte>)
    requires Inverse(d, names) && Fits(v)
    requires v.Sym? ==> |v.sym| <= 1 || v.sym in d.ids || d.s < TWO16
    ensures ReadsAs(names, EncHead(d, v).0, suffix, NormHead(v), EncHead(d, v).1)
  {
    hide ReadsAs, Inverse, EncSym, EncMagnitude, EncLen, IntHead, NegMagnitude, Widen, BE, Timestamp.EncTime, Timestamp.NormZone;
    match v
    case Int(i) =>
      IntReadsAs(names, d, i, suffix);
      assert i >= 0 ==> EncInt(i) == EncMagnitude(0x10, true, i);
    case Uint(u) => IntReadsAs(names, d, u, suffix);
    case Float32(f) =>
      if f % TWO31 == 0 { ByteReadsAs(names, d, 6, NormHead(v), suffix); } else { Float32ReadsAs(names, d, f, suffix); }
    case Float64(f) =>
      if f % TWO63 == 0 { ByteReadsAs(names, d, 6, NormHead(v), suffix); } else { Float64ReadsAs(names, d, f, suffix); }
    case Str(s) => RawReadsAs(names, d, 4, s, suffix);
    case Bytes(s) => RawReadsAs(names, d, 5, s, suffix);
    case Sym(s) => SymReadsAs(names, d, s, suffix);
    case Ext(tag, Some(data)) => ExtReadsAs(names, d, tag, data, suffix);
    case Time(secs, nsecs, zone) => TimeReadsAs(names, d, secs, nsecs, zone, suffix);
    case Array(es) => LenReadsAs(names, d, 6, |es|, suffix);
    case Map(kvs) => LenReadsAs(names, d, 7, |kvs|, suffix);
    case Nil => ByteReadsAs(names, d, 0, NormHead(v), suffix);
    case Bool(b) => ByteReadsAs(names, d, if b then 2 else 1, NormHead(v), suffix);
    case Ext(_, None) => ByteReadsAs(names, d, 0, NormHead(v), suffix);
    case Unsupported =>
  }
}
