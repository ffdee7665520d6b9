/** The Binc decoding driver as the source runs it: a scratch array, a looked-ahead descriptor and a symbol map. */
module BincDecoder {
  import opened Bytes
  import opened Values
  import opened Overflow
  import opened BincDriver
  import opened Reader
  import Timestamp

  /** Leading zero bytes do not change an unsigned number. */
  lemma {:induction false} LeadingZeros(xs: seq<byte>, k: nat)
    requires k <= |xs| && forall i :: 0 <= i < k ==> xs[i] == 0
    ensures FromBE(xs) == FromBE(xs[k..])
    decreases k
  {
    if k == 0 {
      assert xs[0..] == xs;
    } else {
      FromBEHead(xs);
      assert xs[1..][k - 1..] == xs[k..];
      LeadingZeros(xs[1..], k - 1);
    }
  }

  class BincDecDriver {
    const r: BytesDecReader
    var bdRead: bool
    var bd: byte
    var vd: nat
    var vs: nat
    const b: array<byte>
    var m: Names

    ghost predicate Valid()
      reads this, r
    {
      r.Valid() && b.Length == 8 && vd == bd / 16 && vs == bd % 16
    }

    ghost function Input(): (s: seq<byte>)
      requires r.Valid()
      reads this, r
      ensures |s| == r.a + (if bdRead then 1 else 0)
    {
      (if bdRead then [bd] else []) + r.Rest()
    }

    constructor (r: BytesDecReader)
      requires r.Valid()
      ensures Valid() && this.r == r && !bdRead && Input() == r.Rest() && m == map[] && fresh(b)
    {
      this.r := r;
      bdRead, bd, vd, vs, m := false, 0, 0, 0, map[];
      b := new byte[8](_ => 0);
    }

    method InitReadNext() returns (o: Outcome<()>)
      requires Valid()
      modifies this, r
      ensures Valid() && Input() == old(Input()) && m == old(m)
      ensures o == (if old(Input()) == [] then Panic(EOF) else Done(())) && bdRead == o.Done?
    {
      if bdRead {
        return Done(());
      }
      var x :- r.Readn1();
      bd, vd, vs, bdRead := x, x / 16, x % 16, true;
      return Done(());
    }

    /** readb into the scratch array from lo up to hi. */
    method Readb(lo: nat, hi: nat) returns (o: Outcome<()>)
      requires Valid() && lo <= hi <= 8
      modifies r, b
      ensures Valid()
      ensures var spec := ReadN(old(r.Rest()), hi - lo);
              if spec.Ok? then o == Done(()) && r.Rest() == spec.rest && b[lo..hi] == spec.value else o == Panic(spec.error)
      ensures b[..lo] == old(b[..lo]) && b[hi..] == old(b[hi..])
    {
      var x :- r.Readn(hi - lo);
      forall i | 0 <= i < hi - lo {
        b[lo + i] := x[i];
      }
      assert b[lo..hi] == x;
      return Done(());
    }

    /** Reads up to the end of the scratch array, with zeros in front. */
    method ReadPadded(lim: nat) returns (o: Outcome<nat>)
      requires Valid() && lim < 8
      modifies r, b
      ensures Valid() && Agrees(ReadUint(old(r.Rest()), 8 - lim), o, r.Rest())
    {
      var _ :- Readb(lim, 8);
      ghost var x := b[lim..8];
      for i := 0 to lim
        invariant b[lim..8] == x && forall j :: 0 <= j < i ==> b[j] == 0
        modifies b
      {
        b[i] := 0;
      }
      LeadingZeros(b[..], lim);
      assert b[..][lim..] == x;
      return Done(FromBE(b[..]));
    }

    /** decUint: the width is one more than vs, and anything above eight bytes is refused. */
    method DecUint() returns (o: Outcome<nat>)
      requires Valid()
      modifies r, b
      ensures Valid() && Agrees(DecMagnitude(vs, old(r.Rest())), o, r.Rest())
    {
      if vs == 0 {
        o := r.ReadUintN(1);
      } else if vs == 1 {
        var _ :- Readb(6, 8);
        return Done(FromBE(b[6..8]));
      } else if vs == 2 {
        b[4] := 0;
        var _ :- Readb(5, 8);
        assert b[4] == b[..5][4];
        LeadingZeros(b[4..8], 1);
        assert b[4..8][1..] == b[5..8];
        return Done(FromBE(b[4..8]));
      } else if vs == 3 {
        var _ :- Readb(4, 8);
        return Done(FromBE(b[4..8]));
      } else if vs <= 6 {
        o := ReadPadded(7 - vs);
      } else if vs == 7 {
        var _ :- Readb(0, 8);
        return Done(FromBE(b[0..8]));
      } else {
        return Panic(BadDescriptor);
      }
    }

    /** decFloatPre: n bytes as they are, or an explicit number of them and zeros up to the eighth. */
    method DecFloatPre(n: nat) returns (o: Outcome<seq<byte>>)
      requires Valid() && n <= 8
      modifies r, b
      ensures Valid() && Agrees(DecFloatBytes(vs, n, old(r.Rest())), o, r.Rest())
    {
      if vs / 8 % 2 == 0 {
        var _ :- Readb(0, n);
        return Done(b[..n]);
      }
      var l :- r.Readn1();
      if l > 8 {
        return Panic(BadDescriptor);
      }
      for i := l to 8
        invariant forall j :: l <= j < i ==> b[j] == 0
        modifies b
      {
        b[i] := 0;
      }
      ghost var tail := b[l..];
      var _ :- Readb(0, l);
      assert tail == Zeros(8 - l);
      assert b[..] == b[0..l] + tail;
      assert b[..n] == b[..][..n];
      return Done(b[..n]);
    }

    method DecodeFloat() returns (o: Outcome<nat>)
      requires Valid()
      modifies r, b
      ensures Valid() && Agrees(DecFloat(vs, old(r.Rest())), o, r.Rest())
    {
      if vs % 8 == 1 {
        var x :- DecFloatPre(4);
        return Done(Widen(FromBE(x)));
      } else if vs % 8 == 3 {
        var x :- DecFloatPre(8);
        return Done(FromBE(x));
      } else {
        return Panic(BadDescriptor);
      }
    }

    method DecLength() returns (o: Outcome<nat>)
      requires Valid()
      modifies r, b
      ensures Valid() && Agrees(DecLen(vs, old(r.Rest())), o, r.Rest())
    {
      if vs <= 3 {
        o := DecUint();
      } else {
        return Done(vs - 4);
      }
    }

    /** decodeString and decodeBytes for a plain string. */
    method DecodeRaw() returns (o: Outcome<seq<byte>>)
      requires Valid()
      modifies r, b
      ensures Valid() && Agrees(DecRaw(vs, old(r.Rest())), o, r.Rest())
    {
      var n :- DecLength();
      var s: seq<byte> := [];
      if n > 0 {
        s :- r.Readn(n);
      }
      return Done(s);
    }

    method DecodeDefinition() returns (o: Outcome<seq<byte>>)
      requires Valid()
      modifies r
      ensures Valid() && Agrees(DecDefinition(vs % 4, old(r.Rest())), o, r.Rest())
    {
      var l: nat;
      if vs % 4 == 0 {
        l :- r.ReadUintN(1);
      } else if vs % 4 == 1 {
        l :- r.ReadUintN(2);
      } else if vs % 4 == 2 {
        l :- r.ReadUintN(4);
      } else {
        l :- r.ReadUintN(8);
      }
      o := r.Readn(ToSigned(l, TWO64));
    }

    /** decodeString for a symbol: a reference is looked up, a definition is remembered. */
    method DecodeSymbol() returns (o: Outcome<seq<byte>>)
      requires Valid()
      modifies this`m, r
      ensures Valid()
      ensures match DecSym(old(m), vs, old(r.Rest()))
              case Ok(s, rest) => o == Done(s.value) && m == s.names && r.Rest() == rest
              case Err(e) => o == Panic(e)
    {
      var symbol: nat;
      if vs / 8 % 2 == 0 {
        symbol :- r.ReadUintN(1);
      } else {
        symbol :- r.ReadUintN(2);
      }
      if vs / 4 % 2 == 0 {
        return Done(if symbol in m then m[symbol] else []);
      }
      var s :- DecodeDefinition();
      m := m[symbol := s];
      return Done(s);
    }

    method DecodeExt() returns (o: Outcome<Head>)
      requires Valid()
      modifies r, b
      ensures Valid() && Agrees(DecExt(vs, old(r.Rest())), o, r.Rest())
    {
      var n :- DecLength();
      var tag :- r.Readn1();
      var data :- r.Readn(n);
      return Done(Leaf(Ext(tag, if |data| == 0 then None else Some(data))));
    }

    method DecodeTime() returns (o: Outcome<Head>)
      requires Valid()
      modifies r
      ensures Valid() && Agrees(DecTimestamp(vs, old(r.Rest())), o, r.Rest())
    {
      hide Timestamp.DecTime;
      var x :- r.Readn(vs);
      var t := Timestamp.DecodeTime(x, r.b[r.c..]);
      if t.None? {
        return Panic(BadTime);
      }
      return Done(Leaf(t.value));
    }

    method DecodeSpecial() returns (o: Outcome<Head>)
      requires Valid()
      ensures Agrees(Special(vs, r.Rest()), o, r.Rest())
    {
      if vs == 0 {
        return Done(Leaf(Nil));
      } else if vs == 1 {
        return Done(Leaf(Bool(false)));
      } else if vs == 2 {
        return Done(Leaf(Bool(true)));
      } else if vs == 3 {
        return Done(Leaf(Float64(NAN)));
      } else if vs == 4 {
        return Done(Leaf(Float64(POS_INF)));
      } else if vs == 5 {
        return Done(Leaf(Float64(NEG_INF)));
      } else if vs == 6 {
        return Done(Leaf(Float64(0)));
      } else if vs == 7 {
        return Done(Leaf(Int(0)));
      } else if vs == 8 {
        return Done(Leaf(Int(-1)));
      } else {
        return Panic(BadDescriptor);
      }
    }

    /** decodeNaked for the descriptors without a symbol. */
    method DecodePlain() returns (o: Outcome<Head>)
      requires Valid()
      modifies r, b
      ensures Valid() && Agrees(Plain(vd, vs, old(r.Rest())), o, r.Rest())
    {
      hide Special, DecMagnitude, DecFloat, DecRaw, DecLen, DecTimestamp, DecExt;
      if vd == 0 {
        o := DecodeSpecial();
      } else if vd == 1 {
        var u :- DecUint();
        return Done(Leaf(Uint(u)));
      } else if vd == 2 {
        var u :- DecUint();
        return Done(Leaf(Int(Negate(u))));
      } else if vd == 3 {
        var f :- DecodeFloat();
        return Done(Leaf(Float64(f)));
      } else if vd == 4 {
        var s :- DecodeRaw();
        return Done(Leaf(Str(s)));
      } else if vd == 5 {
        var s :- DecodeRaw();
        return Done(Leaf(Bytes(s)));
      } else if vd == 6 {
        var n :- DecLength();
        return Done(ArrayHead(n));
      } else if vd == 7 {
        var n :- DecLength();
        return Done(MapHead(n));
      } else if vd == 8 {
        o := DecodeTime();
      } else if vd == 9 {
        return Done(Leaf(Uint(vs + 1)));
      } else if vd == 15 {
        o := DecodeExt();
      } else {
        return Panic(BadDescriptor);
      }
    }

    /** decodeNaked and what it hands on: a scalar, or the length of a container. No descriptor is held afterwards. */
    method DecodeHead() returns (o: Outcome<Head>)
      requires Valid() && bdRead
      modifies this, r, b
      ensures Valid() && (o.Done? ==> !bdRead)
      ensures match Naked(old(m), old(bd), old(r.Rest()))
              case Ok(x, rest) => o == Done(x.value) && m == x.names && r.Rest() == rest
              case Err(e) => o == Panic(e)
    {
      hide DecSym, Plain;
      var head;
      if vd == 11 {
        var s :- DecodeSymbol();
        head := Leaf(Str(s));
      } else {
        head :- DecodePlain();
      }
      bdRead := false;
      return Done(head);
    }

    /** decIntAny: the unsigned and the signed reading, and whether the descriptor is a negative one. */
    method DecIntegers() returns (o: Outcome<(nat, int, bool)>)
      requires Valid()
      modifies r, b
      ensures Valid() && Agrees(DecIntAny(bd, old(r.Rest())), o, r.Rest())
    {
      if vd == 1 {
        var ui :- DecUint();
        return Done((ui, ToSigned(ui, TWO64), false));
      } else if vd == 2 {
        var ui :- DecUint();
        return Done((ui, Negate(ui), true));
      } else if vd == 9 {
        return Done((vs + 1, vs + 1, false));
      } else if vd == 0 && vs == 7 {
        return Done((0, 0, false));
      } else if vd == 0 && vs == 8 {
        return Done((1, -1, true));
      } else {
        return Panic(BadDescriptor);
      }
    }

    method DecodeInt(bitsize: nat) returns (o: Outcome<int>)
      requires Valid() && bdRead && bitsize <= 64
      modifies this`bdRead, r, b
      ensures Valid() && (o.Done? ==> !bdRead) && Agrees(DecInt(bd, old(r.Rest()), bitsize), o, r.Rest())
    {
      hide DecIntAny, ShiftSigned;
      var x :- DecIntegers();
      if bitsize > 0 && x.1 != 0 && x.1 != ShiftSigned(x.1, bitsize) {
        return Panic(Error.Overflow);
      }
      bdRead := false;
      return Done(x.1);
    }

    /** decodeFloat: a float, one of the special ones, or an integer converted. */
    method DecodeFloat64() returns (o: Outcome<nat>)
      requires Valid() && bdRead
      modifies this`bdRead, r, b
      ensures Valid() && (o.Done? ==> !bdRead) && Agrees(DecFloat64(bd, old(r.Rest())), o, r.Rest())
    {
      hide DecIntAny, FloatOfInt, DecFloat;
      var f;
      if vd == 0 {
        if vs == 3 {
          f := NAN;
        } else if vs == 4 {
          f := POS_INF;
        } else if vs == 5 {
          f := NEG_INF;
        } else if vs == 6 || vs == 7 {
          f := 0;
        } else {
          return Panic(BadDescriptor);
        }
      } else if vd == 3 {
        f :- DecodeFloat();
      } else {
        var x :- DecIntegers();
        f := FloatOfInt(x.1);
      }
      bdRead := false;
      return Done(f);
    }

    method DecodeUint(bitsize: nat) returns (o: Outcome<nat>)
      requires Valid() && bdRead && bitsize <= 64
      modifies this`bdRead, r, b
      ensures Valid() && (o.Done? ==> !bdRead) && Agrees(BincDriver.DecUint(bd, old(r.Rest()), bitsize), o, r.Rest())
    {
      hide DecIntAny, ShiftUnsigned;
      var x :- DecIntegers();
      if x.2 {
        return Panic(NegativeToUnsigned);
      }
      if bitsize > 0 && x.0 != 0 && x.0 != ShiftUnsigned(x.0, bitsize) {
        return Panic(Error.Overflow);
      }
      bdRead := false;
      return Done(x.0);
    }

    method DecodeBool() returns (o: Outcome<bool>)
      requires Valid() && bdRead
      modifies this`bdRead
      ensures Valid() && (o.Done? ==> !bdRead) && Agrees(DecBool(bd, r.Rest()), o, r.Rest())
    {
      if bd != 1 && bd != 2 {
        return Panic(BadDescriptor);
      }
      bdRead := false;
      return Done(bd == 2);
    }

    method ReadMapLen() returns (o: Outcome<nat>)
      requires Valid() && bdRead
      modifies this`bdRead, r, b
      ensures Valid() && (o.Done? ==> !bdRead)
      ensures Agrees(if bd / 16 == 7 then DecLen(bd % 16, old(r.Rest())) else Err(BadDescriptor), o, r.Rest())
    {
      hide DecLen;
      if vd != 7 {
        return Panic(BadDescriptor);
      }
      var n :- DecLength();
      bdRead := false;
      return Done(n);
    }

    /** decodeBytes into a fresh slice. */
    method DecodeBytes() returns (o: Outcome<seq<byte>>)
      requires Valid() && bdRead
      modifies this`bdRead, r, b
      ensures Valid() && (o.Done? ==> !bdRead)
      ensures Agrees(if bd / 16 == 4 || bd / 16 == 5 then DecRaw(bd % 16, old(r.Rest())) else Err(BadDescriptor), o, r.Rest())
    {
      hide DecRaw;
      if vd != 4 && vd != 5 {
        return Panic(BadDescriptor);
      }
      var s :- DecodeRaw();
      bdRead := false;
      return Done(s);
    }

    method DecodeString() returns (o: Outcome<seq<byte>>)
      requires Valid() && bdRead
      modifies this`bdRead, this`m, r, b
      ensures Valid() && (o.Done? ==> !bdRead)
      ensures match DecString(old(m), bd, old(r.Rest()))
              case Ok(s, rest) => o == Done(s.value) && m == s.names && r.Rest() == rest
              case Err(e) => o == Panic(e)
    {
      hide DecRaw, DecSym;
      var s;
      if vd == 4 || vd == 5 {
        s :- DecodeRaw();
      } else if vd == 11 {
        s :- DecodeSymbol();
      } else {
        return Panic(BadDescriptor);
      }
      bdRead := false;
      return Done(s);
    }
  }
}
