/** The MessagePack decoding driver as the source runs it: one looked-ahead descriptor byte over a reader. */
module MsgpackDecoder {
  import opened Bytes
  import opened Values
  import opened Overflow
  import opened MsgpackDriver
  import opened Reader

  class MsgpackDecDriver {
    const r: BytesDecReader
    const h: Handle
    var bd: byte
    var bdRead: bool
    /** The kind of the current descriptor, once somebody has asked. */
    var bdType: Option<ValueType>

    ghost predicate Valid()
      reads this, r
    {
      r.Valid() && h.Msgpack? && (bdType.Some? ==> bdType.value == TypeOf(h, bd) && !bdType.value.TBad?)
    }

    /** What is still to be decoded; a descriptor held back is at its front. */
    ghost function Input(): (s: seq<byte>)
      requires r.Valid()
      reads this, r
      ensures |s| == r.a + (if bdRead then 1 else 0)
    {
      (if bdRead then [bd] else []) + r.Rest()
    }

    constructor (r: BytesDecReader, h: Handle)
      requires r.Valid() && h.Msgpack?
      ensures Valid() && this.r == r && this.h == h && !bdRead && Input() == r.Rest()
    {
      this.r := r;
      this.h := h;
      bd, bdRead, bdType := 0, false, None;
    }

    method InitReadNext() returns (o: Outcome<()>)
      requires Valid()
      modifies this, r
      ensures Valid() && Input() == old(Input())
      ensures o == (if old(Input()) == [] then Panic(EOF) else Done(())) && bdRead == o.Done?
    {
      if bdRead {
        return Done(());
      }
      var x :- r.Readn1();
      bd, bdRead, bdType := x, true, None;
      return Done(());
    }

    /** The descriptor's kind, looked up once for each descriptor. */
    method CurrentEncodedType() returns (o: Outcome<ValueType>)
      requires Valid()
      modifies this`bdType
      ensures Valid() && o == if TypeOf(h, bd).TBad? then Panic(BadDescriptor) else Done(TypeOf(h, bd))
    {
      if bdType.None? {
        if bd == NIL {
          bdType := Some(TNil);
        } else if bd == FALSE || bd == TRUE {
          bdType := Some(TBool);
        } else if bd == FLOAT || bd == DOUBLE {
          bdType := Some(TFloat);
        } else if bd == UINT8 || bd == UINT16 || bd == UINT32 || bd == UINT64 {
          bdType := Some(TUint);
        } else if bd == INT8 || bd == INT16 || bd == INT32 || bd == INT64 {
          bdType := Some(TInt);
        } else if bd <= 0x7f {
          bdType := Some(TInt);
        } else if bd >= 0xe0 {
          bdType := Some(TInt);
        } else if bd == STR.b8 || bd == STR.b16 || bd == STR.b32 || 0xa0 <= bd <= 0xbf {
          bdType := Some(if h.rawToString then TString else TBytes);
        } else if bd == BIN8 || bd == BIN16 || bd == BIN32 {
          bdType := Some(TBytes);
        } else if bd == LIST.b16 || bd == LIST.b32 || 0x90 <= bd <= 0x9f {
          bdType := Some(TArray);
        } else if bd == MAP.b16 || bd == MAP.b32 || 0x80 <= bd <= 0x8f {
          bdType := Some(TMap);
        } else if FIXEXT1 <= bd <= FIXEXT16 || EXT8 <= bd <= EXT32 {
          bdType := Some(TExt);
        } else {
          return Panic(BadDescriptor);
        }
      }
      return Done(bdType.value);
    }

    method ReadContainerLen(ct: Container) returns (o: Outcome<int>)
      requires Valid() && bdRead
      modifies this`bdRead, r
      ensures Valid() && (o.Done? ==> !bdRead) && Agrees(ReadLen(ct, bd, old(r.Rest())), o, r.Rest())
    {
      var clen: int;
      if bd == NIL {
        clen := -1;
      } else if bd == ct.b8 {
        clen :- r.Readn1();
      } else if bd == ct.b16 {
        clen :- r.ReadUintN(2);
      } else if bd == ct.b32 {
        clen :- r.ReadUintN(4);
      } else if HasBits(bd, ct.bFixMin) {
        clen := if bd >= ct.bFixMin then bd - ct.bFixMin else 0;
      } else {
        return Panic(BadDescriptor);
      }
      bdRead := false;
      return Done(clen);
    }

    /** decodeString, and decodeBytes into a fresh slice. */
    method DecodeRaw(ct: Container) returns (o: Outcome<seq<byte>>)
      requires Valid() && bdRead
      modifies this`bdRead, r
      ensures Valid() && (o.Done? ==> !bdRead) && Agrees(ReadRaw(ct, bd, old(r.Rest())), o, r.Rest())
    {
      var clen :- ReadContainerLen(ct);
      var s: seq<byte> := [];
      if clen > 0 {
        s :- r.Readn(clen);
      }
      bdRead := false;
      return Done(s);
    }

    method ReadExtLength() returns (o: Outcome<nat>)
      requires Valid() && (FIXEXT1 <= bd <= FIXEXT16 || EXT8 <= bd <= EXT32)
      modifies r
      ensures Valid() && Agrees(ReadExtLen(bd, old(r.Rest())), o, r.Rest())
    {
      if bd == FIXEXT1 {
        return Done(1);
      } else if bd == FIXEXT2 {
        return Done(2);
      } else if bd == FIXEXT4 {
        return Done(4);
      } else if bd == FIXEXT8 {
        return Done(8);
      } else if bd == FIXEXT16 {
        return Done(16);
      } else if bd == EXT8 {
        var n :- r.Readn1();
        return Done(n);
      } else if bd == EXT16 {
        o := r.ReadUintN(2);
      } else {
        o := r.ReadUintN(4);
      }
    }

    method DecodeRawExt() returns (o: Outcome<Value>)
      requires Valid() && (FIXEXT1 <= bd <= FIXEXT16 || EXT8 <= bd <= EXT32)
      modifies r
      ensures Valid() && Agrees(MsgpackDriver.ReadExt(bd, old(r.Rest())), o, r.Rest())
    {
      var clen :- ReadExtLength();
      var tag :- r.Readn1();
      var data :- r.Readn(clen);
      return Done(Ext(tag, if |data| == 0 then None else Some(data)));
    }

    /** The number after a numeric descriptor; a fixnum is its own descriptor. */
    method DecodeNumber() returns (o: Outcome<Value>)
      requires Valid() && IsNumber(bd)
      modifies r
      ensures Valid() && Agrees(ReadNumber(bd, old(r.Rest())), o, r.Rest())
    {
      var x := 0;
      if bd == UINT8 || bd == INT8 {
        x :- r.ReadUintN(1);
      } else if bd == UINT16 || bd == INT16 {
        x :- r.ReadUintN(2);
      } else if bd == FLOAT || bd == UINT32 || bd == INT32 {
        x :- r.ReadUintN(4);
      } else if bd == DOUBLE || bd == UINT64 || bd == INT64 {
        x :- r.ReadUintN(8);
      }
      return Done(NumberOf(bd, x));
    }

    method DecodeInt(bitsize: nat) returns (o: Outcome<int>)
      requires Valid() && bdRead && bitsize <= 64
      modifies this`bdRead, r
      ensures Valid() && (o.Done? ==> !bdRead) && Agrees(DecInt(bd, old(r.Rest()), bitsize), o, r.Rest())
    {
      if !(UINT8 <= bd <= INT64 || bd <= 0x7f || 0xe0 <= bd) {
        return Panic(BadDescriptor);
      }
      var v :- DecodeNumber();
      var i := if v.Int? then v.i else if v.Uint? then ToSigned(v.u, TWO64) else 0;
      if bitsize > 0 {
        if i != ShiftSigned(i, bitsize) {
          return Panic(Error.Overflow);
        }
      }
      bdRead := false;
      return Done(i);
    }

    /** A float, or an integer converted. */
    method DecodeFloat() returns (o: Outcome<nat>)
      requires Valid() && bdRead
      modifies this`bdRead, r
      ensures Valid() && (o.Done? ==> !bdRead) && Agrees(DecFloat64(bd, old(r.Rest())), o, r.Rest())
    {
      hide DecInt, FloatOfInt;
      var f;
      if bd == FLOAT {
        var x :- r.ReadUintN(4);
        f := Widen(x);
      } else if bd == DOUBLE {
        f :- r.ReadUintN(8);
      } else {
        var i :- DecodeInt(0);
        f := FloatOfInt(i);
      }
      bdRead := false;
      return Done(f);
    }

    method DecodeUint(bitsize: nat) returns (o: Outcome<nat>)
      requires Valid() && bdRead && bitsize <= 64
      modifies this`bdRead, r
      ensures Valid() && (o.Done? ==> !bdRead) && Agrees(DecUint(bd, old(r.Rest()), bitsize), o, r.Rest())
    {
      if !(UINT8 <= bd <= INT64 || bd <= 0x7f || 0xe0 <= bd) {
        return Panic(BadDescriptor);
      }
      var v :- DecodeNumber();
      var z := if v.Int? then v.i else if v.Uint? then v.u else 0;
      if z < 0 {
        return Panic(NegativeToUnsigned);
      }
      if bitsize > 0 {
        if z != ShiftUnsigned(z, bitsize) {
          return Panic(Error.Overflow);
        }
      }
      bdRead := false;
      return Done(z);
    }

    /** A bool also from the fixnums 0 and 1. */
    method DecodeBool() returns (o: Outcome<bool>)
      requires Valid() && bdRead
      modifies this`bdRead
      ensures Valid() && (o.Done? ==> !bdRead) && Agrees(DecBool(bd, r.Rest()), o, r.Rest())
    {
      if bd == FALSE || bd == 0 {
        o := Done(false);
      } else if bd == TRUE || bd == 1 {
        o := Done(true);
      } else {
        return Panic(BadDescriptor);
      }
      bdRead := false;
    }

    /** decodeNaked and what it hands on: a scalar, or the length of a container. No descriptor is held afterwards. */
    method DecodeHead() returns (o: Outcome<Head>)
      requires Valid() && bdRead
      modifies this, r
      ensures Valid() && (o.Done? ==> !bdRead) && Agrees(Naked(h, old(bd), old(r.Rest())), o, r.Rest())
    {
      hide MsgpackDriver.ReadExt, ReadLen, ReadRaw, ReadNumber;
      var vt :- CurrentEncodedType();
      match vt {
        case TNil => bdRead := false; return Done(Leaf(Nil));
        case TBool => bdRead := false; return Done(Leaf(Bool(bd == TRUE)));
        case TInt => var v :- DecodeNumber(); bdRead := false; return Done(Leaf(v));
        case TUint => var v :- DecodeNumber(); bdRead := false; return Done(Leaf(v));
        case TFloat => var v :- DecodeNumber(); bdRead := false; return Done(Leaf(v));
        case TString => var s :- DecodeRaw(STR); return Done(Leaf(Str(s)));
        case TBytes => var s :- DecodeRaw(BytesContainer(bd)); return Done(Leaf(Bytes(s)));
        case TArray => var n :- ReadContainerLen(LIST); return Done(ArrayHead(if n < 0 then 0 else n));
        case TMap => var n :- ReadContainerLen(MAP); return Done(MapHead(if n < 0 then 0 else n));
        case TExt => var v :- DecodeRawExt(); bdRead := false; return Done(Leaf(v));
      }
    }
  }
}
