/** The tables of the two formats, byte by byte: what the drivers write, and what they take other descriptors for. */
module Formats {
  import opened Bytes
  import opened Values
  import opened Codec
  import opened Structs
  import opened Wire
  import B = BincDriver
  import M = MsgpackDriver
  import S = SpecRpc
  import T = Timestamp
  import C = Client

  lemma {:induction false} BigEndian(v: nat)
    ensures v < 0x1_0000 ==> BE(v, 2) == [v / 0x100, v % 0x100]
    ensures v < 0x1_0000_0000 ==> BE(v, 4) == [v / 0x100_0000, v / 0x1_0000 % 0x100, v / 0x100 % 0x100, v % 0x100]
  {
    assert BE(v, 0) == [] && BE(v, 1) == [v % 256];
    assert BE(v, 2) == BE(v / 256, 1) + [v % 256];
    assert BE(v, 3) == BE(v / 256, 2) + [v % 256];
    assert BE(v, 4) == BE(v / 256, 3) + [v % 256];
    if v < 0x1_0000_0000 { Quarters(v); }
  }

  lemma {:induction false} Quarters(v: nat)
    requires v < 0x1_0000_0000
    ensures v / 256 / 256 == v / 0x1_0000 && v / 256 / 256 / 256 == v / 0x100_0000 && v / 0x100_0000 < 256
  {
  }

  // ------------------------------------------------------------------
  // MessagePack, written

  /** Integers take the shortest form that holds them, with the descriptors of the format. */
  lemma {:induction false} MsgpackIntegers(z: int)
    requires -TWO63 <= z < TWO64
    ensures 0 <= z < 0x80 ==> M.EncUint(z) == [z]
    ensures 0x80 <= z < 0x100 ==> M.EncUint(z) == [0xcc, z]
    ensures 0x100 <= z < 0x1_0000 ==> M.EncUint(z) == [0xcd, z / 0x100, z % 0x100]
    ensures 0x1_0000 <= z < 0x1_0000_0000 ==> M.EncUint(z) == [0xce, z / 0x100_0000, z / 0x1_0000 % 0x100, z / 0x100 % 0x100, z % 0x100]
    ensures 0x1_0000_0000 <= z ==> M.EncUint(z) == [0xcf] + BE(z, 8)
    ensures 0 <= z ==> M.EncInt(z) == M.EncUint(z)
    ensures -32 <= z < 0 ==> M.EncInt(z) == [0x100 + z]
    ensures -0x80 <= z < -32 ==> M.EncInt(z) == [0xd0, 0x100 + z]
    ensures -0x8000 <= z < -0x80 ==> M.EncInt(z) == [0xd1, (0x1_0000 + z) / 0x100, z % 0x100]
    ensures -0x8000_0000 <= z < -0x8000 ==> M.EncInt(z) == [0xd2] + BE(0x1_0000_0000 + z, 4)
    ensures z < -0x8000_0000 ==> M.EncInt(z) == [0xd3] + BE(TWO64 + z, 8)
  {
    hide BE;
    if z >= 0 {
      BigEndian(z);
    } else if z >= -0x8000 {
      BigEndian(0x1_0000 + z);
    }
  }

  /** Nil, booleans and floats; strings, byte strings, arrays and maps by their lengths. */
  lemma {:induction false} MsgpackHeads(h: MsgpackHandle, b: bool, f: nat, l: nat)
    requires l < TWO32
    ensures M.EncHead(h, Nil) == [0xc0] && M.EncHead(h, Bool(b)) == [if b then 0xc3 else 0xc2]
    ensures f < TWO32 ==> M.EncHead(h, Float32(f)) == [0xca] + BE(f, 4)
    ensures f < TWO64 ==> M.EncHead(h, Float64(f)) == [0xcb] + BE(f, 8)
    ensures var long: seq<byte> := if l < 0x1_0000 then [l / 0x100, l % 0x100] else BE(l, 4);
            && M.EncLen(M.STR, h.writeExt, l) == (if l < 32 then [0xa0 + l] else if l < 256 && h.writeExt then [0xd9, l] else [if l < 0x1_0000 then 0xda else 0xdb] + long)
            && M.EncLen(M.BIN, h.writeExt, l) == (if l < 256 then [0xc4, l] else [if l < 0x1_0000 then 0xc5 else 0xc6] + long)
            && M.EncLen(M.LIST, h.writeExt, l) == (if l < 16 then [0x90 + l] else [if l < 0x1_0000 then 0xdc else 0xdd] + long)
            && M.EncLen(M.MAP, h.writeExt, l) == (if l < 16 then [0x80 + l] else [if l < 0x1_0000 then 0xde else 0xdf] + long)
  {
    hide BE;
    BigEndian(l);
  }

  /** A text of 300 bytes. */
  lemma {:induction false} Text300(h: MsgpackHandle, s: seq<byte>)
    requires |s| == 300
    ensures M.EncHead(h, Str(s)) == [0xda, 0x01, 0x2c] + s
  {
    hide BE, M.EncLen;
    MsgpackHeads(h, false, 0, 300);
  }

  lemma {:induction false} MsgpackExtensions(tag: byte, data: seq<byte>)
    requires |data| < TWO32
    ensures var l := |data|;
            M.EncExt(tag, data) ==
            (if l == 1 then [0xd4, tag] else if l == 2 then [0xd5, tag] else if l == 4 then [0xd6, tag] else if l == 8 then [0xd7, tag]
             else if l == 16 then [0xd8, tag] else if l < 256 then [0xc7, l, tag]
             else if l < 0x1_0000 then [0xc8, l / 0x100, l % 0x100, tag] else [0xc9] + BE(l, 4) + [tag]) + data
  {
    hide BE;
    BigEndian(|data|);
  }

  // ------------------------------------------------------------------
  // MessagePack, read: every descriptor of the format, whether the encoder writes it or not

  /** A payload of one, two, four or eight bytes. */
  lemma {:induction false} Payload(x: nat, w: nat, rest: seq<byte>)
    requires w == 1 || w == 2 || w == 4 || w == 8
    ensures x < (if w == 1 then 0x100 else if w == 2 then 0x1_0000 else if w == 4 then 0x1_0000_0000 else TWO64) ==>
              ReadUint(BE(x, w) + rest, w) == Ok(x, rest)
  {
    hide BE, ReadUint;
    Pow256Values();
    if x < Pow256(w) { ReadUintOfBE(x, w, rest); }
  }

  /** Unsigned integers and floats after their descriptor. */
  lemma {:induction false} MsgpackNumbersRead(h: MsgpackHandle, x: nat, rest: seq<byte>)
    ensures x < 0x80 ==> M.Naked(h, x, rest) == Ok(Leaf(Int(x)), rest)
    ensures 0xe0 <= x < 0x100 ==> M.Naked(h, x, rest) == Ok(Leaf(Int(x - 0x100)), rest)
    ensures x < 0x100 ==> M.Naked(h, 0xcc, BE(x, 1) + rest) == Ok(Leaf(Uint(x)), rest)
    ensures x < 0x1_0000 ==> M.Naked(h, 0xcd, BE(x, 2) + rest) == Ok(Leaf(Uint(x)), rest)
    ensures x < 0x1_0000_0000 ==> M.Naked(h, 0xce, BE(x, 4) + rest) == Ok(Leaf(Uint(x)), rest)
    ensures x < TWO64 ==> M.Naked(h, 0xcf, BE(x, 8) + rest) == Ok(Leaf(Uint(x)), rest)
    ensures x < 0x1_0000_0000 ==> M.Naked(h, 0xca, BE(x, 4) + rest) == Ok(Leaf(Float64(Widen(x))), rest)
    ensures x < TWO64 ==> M.Naked(h, 0xcb, BE(x, 8) + rest) == Ok(Leaf(Float64(x)), rest)
  {
    hide BE, Widen, ReadUint;
    Payload(x, 1, rest);
    Payload(x, 2, rest);
    Payload(x, 4, rest);
    Payload(x, 8, rest);
    if x < 0x100 { NoNumber(x, rest); }
  }

  /** Signed integers after their descriptor. */
  lemma {:induction false} MsgpackSignedRead(h: MsgpackHandle, x: nat, rest: seq<byte>)
    ensures x < 0x100 ==> M.Naked(h, 0xd0, BE(x, 1) + rest) == Ok(Leaf(Int(if x < 0x80 then x else x - 0x100)), rest)
    ensures x < 0x1_0000 ==> M.Naked(h, 0xd1, BE(x, 2) + rest) == Ok(Leaf(Int(if x < 0x8000 then x else x - 0x1_0000)), rest)
    ensures x < 0x1_0000_0000 ==> M.Naked(h, 0xd2, BE(x, 4) + rest) == Ok(Leaf(Int(if x < 0x8000_0000 then x else x - 0x1_0000_0000)), rest)
    ensures x < TWO64 ==> M.Naked(h, 0xd3, BE(x, 8) + rest) == Ok(Leaf(Int(if x < TWO63 then x else x - TWO64)), rest)
  {
    hide BE, ReadUint;
    Payload(x, 1, rest);
    Payload(x, 2, rest);
    Payload(x, 4, rest);
    Payload(x, 8, rest);
  }

  lemma {:induction false} NoNumber(bd: byte, rest: seq<byte>)
    ensures bd < 0x80 || 0xe0 <= bd ==> M.ReadNumber(bd, rest) == Ok(Int(if bd < 0x80 then bd else bd - 0x100), rest)
  {
    assert FromBE([]) == 0;
  }

  /** A length after the descriptor of its family, and the lengths that sit in one. */
  lemma {:induction false} MsgpackLengthsRead(h: MsgpackHandle, l: nat, rest: seq<byte>)
    ensures l < 32 ==> M.ReadLen(M.STR, 0xa0 + l, rest) == Ok(l, rest)
    ensures l < 16 ==> M.ReadLen(M.LIST, 0x90 + l, rest) == Ok(l, rest) && M.ReadLen(M.MAP, 0x80 + l, rest) == Ok(l, rest)
    ensures l < 0x100 ==> M.ReadLen(M.STR, 0xd9, [l] + rest) == Ok(l, rest) && M.ReadLen(M.BIN, 0xc4, [l] + rest) == Ok(l, rest)
    ensures l < 0x1_0000 ==> M.ReadLen(M.STR, 0xda, BE(l, 2) + rest) == Ok(l, rest) && M.ReadLen(M.BIN, 0xc5, BE(l, 2) + rest) == Ok(l, rest)
    ensures l < 0x1_0000 ==> M.ReadLen(M.LIST, 0xdc, BE(l, 2) + rest) == Ok(l, rest) && M.ReadLen(M.MAP, 0xde, BE(l, 2) + rest) == Ok(l, rest)
    ensures l < TWO32 ==> M.ReadLen(M.STR, 0xdb, BE(l, 4) + rest) == Ok(l, rest) && M.ReadLen(M.BIN, 0xc6, BE(l, 4) + rest) == Ok(l, rest)
    ensures l < TWO32 ==> M.ReadLen(M.LIST, 0xdd, BE(l, 4) + rest) == Ok(l, rest) && M.ReadLen(M.MAP, 0xdf, BE(l, 4) + rest) == Ok(l, rest)
  {
    hide BE, FromBE, Pow256, ReadN;
    Pow256Values();
    forall w | w in {2, 4} && l < Pow256(w) ensures ReadUint(BE(l, w) + rest, w) == Ok(l, rest) {
      ReadUintOfBE(l, w, rest);
    }
    assert l < 0x100 ==> ([l] + rest)[1..] == rest;
  }

  /** Which descriptors stand for what. */
  lemma {:induction false} MsgpackKinds(h: MsgpackHandle, bd: byte)
    ensures M.TypeOf(h, bd) ==
            if bd < 0x80 then M.TInt else if bd < 0x90 then M.TMap else if bd < 0xa0 then M.TArray
            else if bd < 0xc0 then (if h.rawToString then M.TString else M.TBytes)
            else if bd == 0xc0 then M.TNil else if bd == 0xc1 then M.TBad else if bd < 0xc4 then M.TBool
            else if bd < 0xc7 then M.TBytes else if bd < 0xca then M.TExt else if bd < 0xcc then M.TFloat
            else if bd < 0xd0 then M.TUint else if bd < 0xd4 then M.TInt else if bd < 0xd9 then M.TExt
            else if bd < 0xdc then (if h.rawToString then M.TString else M.TBytes)
            else if bd < 0xde then M.TArray else if bd < 0xe0 then M.TMap else M.TInt
  {
  }

  /** The data of an extension, of a fixed length or one that follows; then the tag, and the data. */
  lemma {:induction false} MsgpackExtensionsRead(tag: byte, data: seq<byte>, rest: seq<byte>)
    requires data != []
    ensures var l := |data|; var v := Ext(tag, Some(data)); var x := [tag] + (data + rest);
            && (l == 1 ==> M.ReadExt(0xd4, x) == Ok(v, rest)) && (l == 2 ==> M.ReadExt(0xd5, x) == Ok(v, rest))
            && (l == 4 ==> M.ReadExt(0xd6, x) == Ok(v, rest)) && (l == 8 ==> M.ReadExt(0xd7, x) == Ok(v, rest))
            && (l == 16 ==> M.ReadExt(0xd8, x) == Ok(v, rest)) && (l < 0x100 ==> M.ReadExt(0xc7, [l] + x) == Ok(v, rest))
            && (l < 0x1_0000 ==> M.ReadExt(0xc8, BE(l, 2) + x) == Ok(v, rest)) && (l < TWO32 ==> M.ReadExt(0xc9, BE(l, 4) + x) == Ok(v, rest))
  {
    hide BE, FromBE, Pow256;
    Pow256Values();
    var l, x := |data|, [tag] + (data + rest);
    assert x[1..] == data + rest;
    ReadNOfConcat(data, rest);
    if l < 0x100 { assert ([l] + x)[1..] == x; }
    if l < 0x1_0000 { ReadUintOfBE(l, 2, x); }
    if l < TWO32 { ReadUintOfBE(l, 4, x); }
  }

  // ------------------------------------------------------------------
  // Binc, written

  /** Scalars of one byte, and numbers by the width that is left of them. */
  lemma {:induction false} BincScalars(z: int, b: bool)
    requires -TWO63 <= z < TWO64
    ensures B.EncPlain(Nil) == [0x00] && B.EncPlain(Bool(b)) == [if b then 0x02 else 0x01]
    ensures B.EncPlain(Float64(0)) == [0x06] && B.EncPlain(Int(0)) == [0x07] && B.EncPlain(Uint(0)) == [0x07] && B.EncPlain(Int(-1)) == [0x08]
    ensures 0 <= z ==> B.EncPlain(Uint(z)) == B.EncPlain(Int(z))
    ensures 1 <= z <= 16 ==> B.EncPlain(Int(z)) == [0x90 + z - 1]
    ensures 17 <= z < 0x100 ==> B.EncPlain(Int(z)) == [0x10, z]
    ensures 0x100 <= z < 0x1_0000 ==> B.EncPlain(Int(z)) == [0x11, z / 0x100, z % 0x100]
    ensures -0x100 < z < -1 ==> B.EncPlain(Int(z)) == [0x20, -z]
    ensures -0x1_0000 < z <= -0x100 ==> B.EncPlain(Int(z)) == [0x21, -z / 0x100, -z % 0x100]
  {
    hide BE, B.EncPruned;
    if z >= 0 { BigEndian(z); } else { BigEndian(-z); }
  }

  /** A larger natural has as many bytes as it needs, but at least three of four or eight, and never a lone top zero. */
  lemma {:induction false} BincWideScalars(z: nat) returns (xs: seq<byte>)
    requires 0x1_0000 <= z < TWO64
    ensures 1 <= |xs| <= 8 && FromBE(xs) == z && B.EncPlain(Uint(z)) == [0x10 + |xs| - 1] + xs
  {
    hide BE, FromBE, B.EncMagnitude;
    xs := B.MagnitudeShape(0x10, true, z);
  }

  /** Lengths of strings, byte strings, arrays, maps and extensions, below the length where the format breaks. */
  lemma {:induction false} BincLengths(s: seq<byte>, es: seq<Value>, kvs: seq<Pair>, tag: byte)
    ensures B.EncPlain(Str(s)) == LenBytes(0x40, |s|) + s && B.EncPlain(Bytes(s)) == LenBytes(0x50, |s|) + s
    ensures B.EncPlain(Array(es)) == LenBytes(0x60, |es|) && B.EncPlain(Map(kvs)) == LenBytes(0x70, |kvs|)
    ensures B.EncPlain(Ext(tag, Some(s))) == LenBytes(0xf0, |s|) + [tag] + s
  {
  }

  function LenBytes(bd: byte, l: nat): seq<byte>
    requires bd <= 0xf0
  {
    if l < 12 then [bd + 4 + l] else if l < 0x100 then [bd, l] else if l < 0x1_0000 then [bd + 1] + BE(l, 2)
    else if l < 0x1_0000_0000 then [bd + 2] + BE(l, 4) else [bd + 3] + BE(l, 8)
  }

  /** A symbol: as a string when short, and by its id when known. */
  lemma {:induction false} BincSymbols(d: Symbols, s: seq<byte>)
    requires |s| > 1 && s in d.ids ==> d.ids[s] < 0x1_0000
    ensures var bs := B.EncHead(d, Sym(s)).0;
            && (|s| <= 1 ==> bs == B.EncPlain(Str(s)))
            && (|s| > 1 && s in d.ids && d.ids[s] < 0x100 ==> bs == [0xb0, d.ids[s]])
            && (|s| > 1 && s in d.ids && d.ids[s] >= 0x100 ==> bs == [0xb8, d.ids[s] / 0x100, d.ids[s] % 0x100])
  {
    hide BE;
    if |s| > 1 && s in d.ids {
      OneByte(d.ids[s]);
      BigEndian(d.ids[s]);
    }
  }

  /** A new symbol: the next id, its length and its bytes. */
  lemma {:induction false} BincNewSymbols(d: Symbols, s: seq<byte>)
    requires d.s < 0x1_0000 - 1 && 1 < |s| < 0x100 && s !in d.ids
    ensures var bs := B.EncHead(d, Sym(s)).0; var id := d.s + 1;
            bs == (if id < 0x100 then [0xb4, id, |s|] else [0xbc, id / 0x100, id % 0x100, |s|]) + s
  {
    hide BE;
    OneByte(d.s + 1);
    OneByte(|s|);
    BigEndian(d.s + 1);
  }

  lemma {:induction false} OneByte(v: nat)
    ensures v < 0x100 ==> BE(v, 1) == [v]
  {
    assert BE(v, 0) == [];
  }

  /** A float64 other than zero has its eight bytes, or says how many are left when trailing zeros are dropped. */
  lemma {:induction false} BincFloats(f: nat)
    requires f < TWO64 && f % TWO63 != 0
    ensures B.EncPlain(Float64(f)) == [0x33] + BE(f, 8) ||
            exists n: byte :: n <= 6 && B.EncPlain(Float64(f)) == [0x3b, n] + BE(f, 8)[..n] && forall k :: n <= k < 8 ==> BE(f, 8)[k] == 0
  {
    hide BE;
    TrimmedZeros(BE(f, 8));
    var n := B.Trimmed(BE(f, 8));
    if n <= 6 {
      var b: byte := n;
      assert B.EncPlain(Float64(f)) == [0x3b, b] + BE(f, 8)[..b];
    }
  }

  lemma {:induction false} TrimmedZeros(b: seq<byte>)
    ensures forall k :: B.Trimmed(b) <= k < |b| ==> b[k] == 0
  {
    if b != [] && b[|b| - 1] == 0 {
      TrimmedZeros(b[..|b| - 1]);
      forall k | B.Trimmed(b) <= k < |b| ensures b[k] == 0 {
        if k < |b| - 1 { assert b[..|b| - 1][k] == b[k]; }
      }
    }
  }

  // ------------------------------------------------------------------
  // Binc, read

  /** The special values, some of which the encoder never writes. */
  lemma {:induction false} BincSpecialsRead(names: B.Names, rest: seq<byte>)
    ensures B.Naked(names, 0, rest) == Ok(B.Named(Leaf(Nil), names), rest)
    ensures B.Naked(names, 1, rest) == Ok(B.Named(Leaf(Bool(false)), names), rest) && B.Naked(names, 2, rest) == Ok(B.Named(Leaf(Bool(true)), names), rest)
    ensures B.Naked(names, 3, rest) == Ok(B.Named(Leaf(Float64(0x7ff8_0000_0000_0001)), names), rest)
    ensures B.Naked(names, 4, rest) == Ok(B.Named(Leaf(Float64(0x7ff0_0000_0000_0000)), names), rest)
    ensures B.Naked(names, 5, rest) == Ok(B.Named(Leaf(Float64(0xfff0_0000_0000_0000)), names), rest)
    ensures B.Naked(names, 6, rest) == Ok(B.Named(Leaf(Float64(0)), names), rest)
    ensures B.Naked(names, 7, rest) == Ok(B.Named(Leaf(Int(0)), names), rest) && B.Naked(names, 8, rest) == Ok(B.Named(Leaf(Int(-1)), names), rest)
  {
    hide B.DecSym, B.DecTimestamp, B.DecExt, B.DecMagnitude, B.DecLen, B.DecRaw, B.DecFloat;
  }

  /** Integers of any width, shortest or not; a negative one is written by its magnitude. */
  lemma {:induction false} BincNumbersRead(names: B.Names, xs: seq<byte>, rest: seq<byte>)
    requires 1 <= |xs| <= 8
    ensures B.Naked(names, 0x10 + |xs| - 1, xs + rest) == Ok(B.Named(Leaf(Uint(FromBE(xs))), names), rest)
    ensures FromBE(xs) <= TWO63 ==> B.Naked(names, 0x20 + |xs| - 1, xs + rest) == Ok(B.Named(Leaf(Int(0 - FromBE(xs))), names), rest)
    ensures 1 <= |xs| <= 8 ==> B.Naked(names, 0x90 + |xs| - 1, rest) == Ok(B.Named(Leaf(Uint(|xs|)), names), rest)
  {
    hide FromBE;
    B.ReadUintOfBytes(xs, rest);
  }

  lemma {:induction false} PaddedRead(xs: seq<byte>, rest: seq<byte>)
    requires |xs| <= 8
    ensures B.DecPadded([|xs|] + xs + rest) == Ok(xs + B.Zeros(8 - |xs|), rest)
  {
    ReadNOfConcat(xs, rest);
    assert [|xs|] + xs + rest == [|xs|] + (xs + rest);
    assert ([|xs|] + (xs + rest))[1..] == xs + rest;
  }

  /** Floats in full, or with their trailing zeros dropped, of either width. */
  lemma {:induction false} BincFloatsRead(names: B.Names, xs: seq<byte>, rest: seq<byte>)
    requires |xs| <= 8
    ensures |xs| == 4 ==> B.Naked(names, 0x31, xs + rest) == Ok(B.Named(Leaf(Float64(Widen(FromBE(xs)))), names), rest)
    ensures |xs| == 8 ==> B.Naked(names, 0x33, xs + rest) == Ok(B.Named(Leaf(Float64(FromBE(xs))), names), rest)
    ensures B.Naked(names, 0x3b, [|xs|] + xs + rest) == Ok(B.Named(Leaf(Float64(FromBE(xs + B.Zeros(8 - |xs|)))), names), rest)
    ensures |xs| <= 4 ==> B.Naked(names, 0x39, [|xs|] + xs + rest) == Ok(B.Named(Leaf(Float64(Widen(FromBE(xs + B.Zeros(4 - |xs|))))), names), rest)
  {
    hide FromBE, Widen, B.DecSym, B.DecTimestamp, B.DecExt, B.DecMagnitude, B.DecLen, B.DecRaw, B.Special, B.DecPadded, B.DecFloat, ReadN;
    FloatFull(xs, rest);
    FloatPadded(xs, rest);
  }

  lemma {:induction false} FloatFull(xs: seq<byte>, rest: seq<byte>)
    ensures |xs| == 4 ==> B.DecFloat(1, xs + rest) == Ok(Widen(FromBE(xs)), rest)
    ensures |xs| == 8 ==> B.DecFloat(3, xs + rest) == Ok(FromBE(xs), rest)
  {
    hide FromBE, Widen;
    ReadNOfConcat(xs, rest);
  }

  lemma {:induction false} FloatPadded(xs: seq<byte>, rest: seq<byte>)
    requires |xs| <= 8
    ensures B.DecFloat(11, [|xs|] + xs + rest) == Ok(FromBE(xs + B.Zeros(8 - |xs|)), rest)
    ensures |xs| <= 4 ==> B.DecFloat(9, [|xs|] + xs + rest) == Ok(Widen(FromBE(xs + B.Zeros(4 - |xs|))), rest)
  {
    hide FromBE, Widen, B.DecPadded;
    PaddedRead(xs, rest);
    var padded := xs + B.Zeros(8 - |xs|);
    assert padded[..8] == padded;
    if |xs| <= 4 { assert padded[..4] == xs + B.Zeros(4 - |xs|); }
  }

  /** Lengths in the descriptor, or in a number of one, two or four bytes after it; the tag is one less than that. */
  lemma {:induction false} BincLengthsRead(l: nat, rest: seq<byte>)
    ensures l < 12 ==> B.DecLen(l + 4, rest) == Ok(l, rest)
    ensures l < 0x100 ==> B.DecLen(0, BE(l, 1) + rest) == Ok(l, rest)
    ensures l < 0x1_0000 ==> B.DecLen(1, BE(l, 2) + rest) == Ok(l, rest)
    ensures l < 0x1_0000_0000 ==> B.DecLen(3, BE(l, 4) + rest) == Ok(l, rest)
  {
    hide BE, ReadUint;
    Payload(l, 1, rest);
    Payload(l, 2, rest);
    Payload(l, 4, rest);
  }

  /** A known id is its symbol and an unknown one the empty string. */
  lemma {:induction false} BincSymbolsRead(names: B.Names, id: nat, rest: seq<byte>)
    requires id < 0x1_0000
    ensures var s := if id in names then names[id] else [];
            && (id < 0x100 ==> B.Naked(names, 0xb0, BE(id, 1) + rest) == Ok(B.Named(Leaf(Str(s)), names), rest))
            && B.Naked(names, 0xb8, BE(id, 2) + rest) == Ok(B.Named(Leaf(Str(s)), names), rest)
  {
    hide BE, ReadUint;
    Payload(id, 1, rest);
    Payload(id, 2, rest);
  }

  // ------------------------------------------------------------------
  // Timestamps

  /**
   * Bit 7 says that seconds follow and bits 4 to 2 how many bytes less one, bit 6 nanoseconds and bits 1 and 0 their
   * bytes, bit 5 a zone of two bytes: minutes in 14 bits. Seconds are in two's complement, nanoseconds unsigned.
   */
  lemma {:induction false} TimeLayout(secs: int, nsecs: nat, zone: Option<int>) returns (a: seq<byte>, b: seq<byte>, z: seq<byte>)
    requires T.IsTime(secs, nsecs)
    ensures T.EncTime(secs, nsecs, zone) ==
            [(if secs == 0 then 0 else 0x80 + 4 * (|a| - 1)) + (if nsecs == 0 then 0 else 0x40 + |b| - 1) + (if zone.None? then 0 else 0x20)] + a + b + z
    ensures if secs == 0 then a == [] else 1 <= |a| <= 8 && SignedBE(a) == secs
    ensures if nsecs == 0 then b == [] else 1 <= |b| <= 4 && FromBE(b) == nsecs
    ensures if zone.None? then z == [] else |z| == 2 && z[0] < 0x40 && (-8192 * 60 <= zone.value <= 8191 * 60 ==>
              var m := if zone.value >= 0 then zone.value / 60 else 0 - (-zone.value) / 60; (256 * z[0] + z[1] - m) % 0x4000 == 0)
  {
    a, b, z := T.SecsField(secs), T.NsecsField(nsecs), T.ZoneField(zone);
    hide BE, FromBE, PruneCount, SignedBE;
    if secs != 0 { T.SecsShortest(secs); }
    if nsecs != 0 { T.NsecsValue(nsecs); }
    if zone.Some? { ZoneLayout(T.TruncDiv(zone.value, 60)); }
  }

  lemma {:induction false} ZoneLayout(m: int)
    ensures var z := m % TWO16; (256 * (z / 256 % 64) + z % 256 - m) % 0x4000 == 0
  {
    var z := m % TWO16;
    var q, k := m / TWO16, z / 256 / 64;
    assert m == TWO16 * q + z && z == 256 * (z / 256) + z % 256 && z / 256 == 64 * k + z / 256 % 64;
    Multiple(0 - k - 4 * q);
  }

  lemma {:induction false} Multiple(k: int)
    ensures 0x4000 * k % 0x4000 == 0
  {
  }

  /** Nanoseconds of a second or more are carried: the instant stays, while the seconds do not overflow. */
  lemma {:induction false} CarriedTime(secs: int, nsecs: nat, zone: Option<int>)
    requires -TWO63 <= secs && secs + nsecs / 1_000_000_000 < TWO63
    ensures var t := T.Unix(secs, nsecs, zone);
            t.Time? && t.secs * 1_000_000_000 + t.nsecs == secs * 1_000_000_000 + nsecs && t.nsecs < 1_000_000_000 && t.zone == zone
  {
  }

  // ------------------------------------------------------------------
  // The RPC headers

  /** A name and a value after another map entry. */
  lemma {:induction false} EntryBytes(h: MsgpackHandle, fs: seq<OutField>)
    requires fs != []
    ensures EncPairs(h, NO_SYMBOLS, Entries(true, fs)).bytes ==
            M.EncRaw(M.STR, h.writeExt, fs[0].name) + Enc(h, NO_SYMBOLS, fs[0].v).bytes + EncPairs(h, NO_SYMBOLS, Entries(true, fs[1..])).bytes
  {
    hide M.EncRaw;
    var kvs := Entries(true, fs);
    assert kvs[0] == Pair(Sym(fs[0].name), fs[0].v) && kvs[1..] == Entries(true, fs[1..]);
    NoSymbols(h, NO_SYMBOLS, fs[0].v);
  }

  lemma {:induction false} HeaderOfFields(h: MsgpackHandle, fs: seq<OutField>)
    requires |fs| < 16 && forall i :: 0 <= i < |fs| ==> !fs[i].omitEmpty
    ensures HeaderBytes(h, fs) == [0x80 + |fs|] + EncPairs(h, NO_SYMBOLS, Entries(true, fs)).bytes
  {
    hide EncPairs;
    AllSent(fs);
  }

  lemma {:induction false} Names(h: MsgpackHandle)
    ensures M.EncRaw(M.STR, h.writeExt, SEQ) == [0xa3, 0x53, 0x65, 0x71]
    ensures M.EncRaw(M.STR, h.writeExt, ERROR) == [0xa5, 0x45, 0x72, 0x72, 0x6f, 0x72]
    ensures M.EncRaw(M.STR, h.writeExt, SERVICE_METHOD) == [0xad, 0x53, 0x65, 0x72, 0x76, 0x69, 0x63, 0x65, 0x4d, 0x65, 0x74, 0x68, 0x6f, 0x64]
  {
  }

  lemma {:induction false} NoFields(h: MsgpackHandle)
    ensures EncPairs(h, NO_SYMBOLS, Entries(true, [])).bytes == []
  {
  }

  lemma {:induction false} ScalarBytes(h: MsgpackHandle, n: nat, m: Text)
    ensures Enc(h, NO_SYMBOLS, Uint(n)).bytes == M.EncUint(n) && Enc(h, NO_SYMBOLS, Str(m)).bytes == M.EncRaw(M.STR, h.writeExt, m)
    ensures Enc(h, NO_SYMBOLS, Nil).bytes == [0xc0]
  {
  }

  /** An rpc.Request on the wire: a map of two entries, "Seq" and "ServiceMethod". */
  lemma {:induction false} RequestBytes(h: MsgpackHandle, n: nat, m: Text)
    ensures HeaderBytes(h, RequestFields(n, m)) ==
            [0x82, 0xa3, 0x53, 0x65, 0x71] + M.EncUint(n)
            + [0xad, 0x53, 0x65, 0x72, 0x76, 0x69, 0x63, 0x65, 0x4d, 0x65, 0x74, 0x68, 0x6f, 0x64] + M.EncRaw(M.STR, h.writeExt, m)
  {
    hide M.EncRaw, M.EncUint, EncPairs, Enc, Entries, SEQ, SERVICE_METHOD, HeaderBytes;
    var fs := RequestFields(n, m);
    Names(h);
    NoFields(h);
    ScalarBytes(h, n, m);
    HeaderOfFields(h, fs);
    EntryBytes(h, fs);
    EntryBytes(h, fs[1..]);
    assert fs[1..][1..] == [];
  }

  /** An rpc.Response: a map of three entries, "Error", "Seq" and "ServiceMethod". */
  lemma {:induction false} ResponseBytes(h: MsgpackHandle, r: C.Response)
    ensures HeaderBytes(h, ResponseFields(r)) ==
            [0x83, 0xa5, 0x45, 0x72, 0x72, 0x6f, 0x72] + M.EncRaw(M.STR, h.writeExt, r.error)
            + [0xa3, 0x53, 0x65, 0x71] + M.EncUint(r.seqno)
            + [0xad, 0x53, 0x65, 0x72, 0x76, 0x69, 0x63, 0x65, 0x4d, 0x65, 0x74, 0x68, 0x6f, 0x64] + M.EncRaw(M.STR, h.writeExt, r.serviceMethod)
  {
    hide M.EncRaw, M.EncUint, EncPairs, Enc, Entries, SEQ, SERVICE_METHOD, ERROR, HeaderBytes;
    var fs := ResponseFields(r);
    Names(h);
    NoFields(h);
    ScalarBytes(h, r.seqno, r.error);
    ScalarBytes(h, r.seqno, r.serviceMethod);
    HeaderOfFields(h, fs);
    EntryBytes(h, fs);
    EntryBytes(h, fs[1..]);
    EntryBytes(h, fs[2..]);
    assert fs[1..][1..] == fs[2..] && fs[2..][1..] == [];
  }

  /** A MessagePack-RPC request: four items, the type 0, the number, the method and the arguments. */
  lemma {:induction false} SpecRequestBytes(h: MsgpackHandle, n: nat, m: Text, args: seq<Value>)
    ensures S.Write(h, S.RequestItems(n, m, args)) == [0x94, 0x00] + M.EncUint(n % TWO32) + M.EncRaw(M.STR, h.writeExt, m) + Enc(h, NO_SYMBOLS, Array(args)).bytes
  {
    hide Enc, M.EncRaw, M.EncUint, S.Write;
    S.FourItems(h, Int(0), Uint(n % TWO32), Str(m), Array(args), []);
    var bs := S.Write(h, S.RequestItems(n, m, args));
    assert bs + [] == bs;
    TypeBytes(h);
    ScalarBytes(h, n % TWO32, m);
  }

  lemma {:induction false} TypeBytes(h: MsgpackHandle)
    ensures Enc(h, NO_SYMBOLS, Int(0)).bytes == [0x00] && Enc(h, NO_SYMBOLS, Int(1)).bytes == [0x01] && S.FOUR_ITEMS == 0x94
  {
  }

  /** A response: the type 1, the number, nil or the error, the result or nil. */
  lemma {:induction false} SpecResponseBytes(h: MsgpackHandle, n: nat, error: Text, body: Value)
    ensures S.Write(h, S.ResponseItems(n, error, body)) ==
            [0x94, 0x01] + M.EncUint(n % TWO32)
            + (if error == [] then [0xc0] + Enc(h, NO_SYMBOLS, body).bytes else M.EncRaw(M.STR, h.writeExt, error) + [0xc0])
  {
    hide Enc, M.EncRaw, M.EncUint, S.Write;
    S.FourItems(h, Int(1), Uint(n % TWO32), if error == [] then Nil else Str(error), if error == [] then body else Nil, []);
    var bs := S.Write(h, S.ResponseItems(n, error, body));
    assert bs + [] == bs;
    TypeBytes(h);
    ScalarBytes(h, n % TWO32, error);
  }
}
