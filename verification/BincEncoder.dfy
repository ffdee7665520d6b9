/** The Binc encoding driver as the source runs it: a scratch array, a symbol map and a sequencer. */
module BincEncoder {
  import opened Bytes
  import opened Values
  import opened BincDriver
  import opened Writer
  import Timestamp

  lemma {:induction false} ExtBytes(tag: byte, data: seq<byte>)
    ensures EncPlain(Ext(tag, Some(data))) == BincDriver.EncLen(0xf0, |data|) + ([tag] + data)
  {
    hide BincDriver.EncLen;
  }

  class BincEncDriver {
    const w: BytesEncWriter
    var m: map<seq<byte>, nat>
    var s: nat
    const b: array<byte>

    ghost predicate Valid()
      reads this, w
    {
      w.Valid() && b.Length == 8 && b != w.b
    }

    function Syms(): Symbols
      reads this
    {
      Symbols(m, s)
    }

    constructor (w: BytesEncWriter)
      requires w.Valid()
      ensures Valid() && this.w == w && fresh(b) && Syms() == Symbols(map[], 0)
    {
      this.w := w;
      m := map[];
      s := 0;
      b := new byte[8](_ => 0);
    }

    method EncIntegerPrune(bd: byte, pos: bool, v: nat, lim: nat)
      requires Valid() && bd <= 0xf0 && 1 <= lim <= 8
      modifies w, w.b, b
      ensures Valid() && (w.b == old(w.b) || fresh(w.b))
      ensures w.Contents() == old(w.Contents()) + EncPruned(bd, pos, v, lim)
    {
      hide BE, BytesEncWriter.Contents, BytesEncWriter.Valid;
      PutBE(b, v, lim);
      var i := PruneSignExt(b, lim, pos);
      w.Writen1(bd + lim - 1 - i);
      assert b[i..lim] == BE(v, lim)[i..];
      w.Writeb(b[i..lim]);
    }

    method EncUint(bd: byte, pos: bool, v: nat)
      requires Valid() && bd <= 0xf0
      modifies w, w.b, b
      ensures Valid() && (w.b == old(w.b) || fresh(w.b))
      ensures w.Contents() == old(w.Contents()) + EncMagnitude(bd, pos, v)
    {
      hide BE, BytesEncWriter.Contents, BytesEncWriter.Valid;
      if v == 0 {
        w.Writen1(7);
      } else if pos && v <= 16 {
        w.Writen1(0x90 + v - 1);
      } else if v < 0x100 {
        w.Writen2(bd, v);
      } else if v < TWO16 {
        w.Writen1(bd + 1);
        w.WriteUint16(v);
      } else if v < TWO32 {
        EncIntegerPrune(bd, pos, v, 4);
      } else {
        EncIntegerPrune(bd, pos, v, 8);
      }
    }

    method EncodeInt(i: int)
      requires Valid()
      modifies w, w.b, b
      ensures Valid() && (w.b == old(w.b) || fresh(w.b))
      ensures w.Contents() == old(w.Contents()) + EncInt(i)
    {
      if i >= 0 {
        EncUint(0x10, true, i);
      } else if i == -1 {
        w.Writen1(8);
      } else {
        EncUint(0x20, false, -i);
      }
    }

    method EncodeFloat32(f: nat)
      requires Valid()
      modifies w, w.b
      ensures Valid() && (w.b == old(w.b) || fresh(w.b))
      ensures w.Contents() == old(w.Contents()) + EncPlain(Float32(f))
    {
      hide BE, BytesEncWriter.Contents, BytesEncWriter.Valid;
      if f % TWO31 == 0 {
        w.Writen1(6);
      } else {
        w.Writen1(0x31);
        w.WriteUint32(f);
      }
    }

    /** The length left when trailing zero bytes of the scratch array are dropped. */
    method TrimScratch() returns (i: nat)
      requires b.Length == 8
      ensures i == Trimmed(b[..]) && i <= 8
    {
      var k := 7;
      assert b[..8] == b[..];
      while k >= 0 && b[k] == 0
        invariant -1 <= k <= 7
        invariant Trimmed(b[..k + 1]) == Trimmed(b[..])
      {
        assert b[..k + 1][..k] == b[..k];
        k := k - 1;
      }
      i := k + 1;
    }

    /** A float's descriptor, with a length and that many bytes. */
    method WriteTrimmed(x: seq<byte>)
      requires Valid() && |x| <= 6
      modifies w, w.b
      ensures Valid() && (w.b == old(w.b) || fresh(w.b)) && w.Contents() == old(w.Contents()) + ([0x3b, |x|] + x)
    {
      hide BytesEncWriter.Contents, BytesEncWriter.Valid;
      w.Writen1(0x3b);
      w.Writen1(|x|);
      w.Writeb(x);
    }

    method WriteWhole(x: seq<byte>)
      requires Valid()
      modifies w, w.b
      ensures Valid() && (w.b == old(w.b) || fresh(w.b)) && w.Contents() == old(w.Contents()) + ([0x33] + x)
    {
      hide BytesEncWriter.Contents, BytesEncWriter.Valid;
      w.Writen1(0x33);
      w.Writeb(x);
    }

    /** Trailing zero bytes are dropped when that saves anything. */
    method EncodeFloat64(f: nat)
      requires Valid()
      modifies w, w.b, b
      ensures Valid() && (w.b == old(w.b) || fresh(w.b))
      ensures w.Contents() == old(w.Contents()) + BincDriver.EncFloat64(f)
    {
      hide BE, Trimmed, BytesEncWriter.Contents, BytesEncWriter.Valid;
      if f % TWO63 == 0 {
        w.Writen1(6);
        return;
      }
      PutBE(b, f, 8);
      assert b[..] == b[..8] == BE(f, 8);
      var i := TrimScratch();
      if i <= 6 {
        WriteTrimmed(b[..i]);
      } else {
        WriteWhole(b[..]);
      }
    }

    method EncLen(bd: byte, l: nat)
      requires Valid() && bd <= 0xf0
      modifies w, w.b
      ensures Valid() && (w.b == old(w.b) || fresh(w.b))
      ensures w.Contents() == old(w.Contents()) + BincDriver.EncLen(bd, l)
    {
      hide BE, BytesEncWriter.Contents, BytesEncWriter.Valid;
      if l < 12 {
        w.Writen1(bd + l + 4);
      } else if l < 0x100 {
        w.Writen2(bd, l);
      } else if l < TWO16 {
        w.Writen1(bd + 1);
        w.WriteUint16(l);
      } else if l < TWO32 {
        w.Writen1(bd + 2);
        w.WriteUint32(l);
      } else {
        w.Writen1(bd + 3);
        w.WriteUint64(l);
      }
    }

    method EncodeRaw(bd: byte, s: seq<byte>)
      requires Valid() && bd <= 0xf0
      modifies w, w.b
      ensures Valid() && (w.b == old(w.b) || fresh(w.b))
      ensures w.Contents() == old(w.Contents()) + (BincDriver.EncLen(bd, |s|) + s)
    {
      EncLen(bd, |s|);
      if |s| > 0 {
        w.Writeb(s);
      }
    }

    method WriteId(flags: nat, id: nat)
      requires Valid() && flags < 8
      modifies w, w.b
      ensures Valid() && (w.b == old(w.b) || fresh(w.b))
      ensures w.Contents() == old(w.Contents()) + EncId(flags, id)
    {
      hide BE, BytesEncWriter.Contents, BytesEncWriter.Valid;
      BEBytes(id);
      if id <= 0xff {
        w.Writen2(0xb0 + flags, id);
      } else {
        w.Writen1(0xb0 + 8 + flags);
        w.WriteUint16(id);
      }
    }

    /** A string's length in one, two, four or eight bytes. */
    method WriteLen(l: nat)
      requires Valid()
      modifies w, w.b
      ensures Valid() && (w.b == old(w.b) || fresh(w.b))
      ensures w.Contents() == old(w.Contents()) + BE(l, PrecisionWidth(LenPrecision(l)))
    {
      hide BE, BytesEncWriter.Contents, BytesEncWriter.Valid;
      BEBytes(l);
      if l < 0x100 {
        w.Writen1(l);
      } else if l < TWO16 {
        w.WriteUint16(l);
      } else if l < TWO32 {
        w.WriteUint32(l);
      } else {
        w.WriteUint64(l);
      }
    }

    /** A known symbol is written as its id; a new one is numbered and spelt out. */
    method EncodeSymbol(v: seq<byte>)
      requires Valid()
      modifies this, w, w.b
      ensures Valid() && (w.b == old(w.b) || fresh(w.b))
      ensures w.Contents() == old(w.Contents()) + EncSym(old(Syms()), v).0
      ensures Syms() == EncSym(old(Syms()), v).1
    {
      if |v| <= 1 {
        EncodeRaw(0x40, v);
      } else if v in m {
        WriteId(0, m[v]);
      } else {
        s := (s + 1) % TWO32;
        var ui := s % TWO16;
        m := m[v := ui];
        WriteId(4 + LenPrecision(|v|), ui);
        WriteLen(|v|);
        w.Writeb(v);
        assert w.Contents() == old(w.Contents()) + EncDefinition(ui, v);
      }
    }

    /** The extension's bytes after their length. */
    method WriteTagged(tag: byte, data: seq<byte>)
      requires Valid()
      modifies w, w.b
      ensures Valid() && (w.b == old(w.b) || fresh(w.b)) && w.Contents() == old(w.Contents()) + ([tag] + data)
    {
      hide BytesEncWriter.Contents, BytesEncWriter.Valid;
      w.Writen1(tag);
      w.Writeb(data);
    }

    method EncodeExt(tag: byte, data: seq<byte>)
      requires Valid()
      modifies w, w.b
      ensures Valid() && (w.b == old(w.b) || fresh(w.b))
      ensures w.Contents() == old(w.Contents()) + EncPlain(Ext(tag, Some(data)))
    {
      hide BincDriver.EncLen, EncPlain, BytesEncWriter.Contents, BytesEncWriter.Valid;
      EncLen(0xf0, |data|);
      WriteTagged(tag, data);
      ExtBytes(tag, data);
    }

    method WriteTime(bs: seq<byte>)
      requires Valid()
      modifies w, w.b
      ensures Valid() && (w.b == old(w.b) || fresh(w.b)) && w.Contents() == old(w.Contents()) + ([(0x80 + |bs|) % 0x100] + bs)
    {
      hide BytesEncWriter.Contents, BytesEncWriter.Valid;
      w.Writen1((0x80 + |bs|) % 0x100);
      w.Writeb(bs);
    }

    method EncodeTime(secs: int, nsecs: nat, zone: Option<int>)
      requires Valid()
      modifies w, w.b
      ensures Valid() && (w.b == old(w.b) || fresh(w.b))
      ensures w.Contents() == old(w.Contents()) + EncPlain(Time(secs, nsecs, zone))
    {
      hide Timestamp.EncTime, BytesEncWriter.Contents, BytesEncWriter.Valid;
      var bs := Timestamp.EncodeTime(secs, nsecs, zone);
      WriteTime(bs);
    }

    /** A scalar, or the length in front of a container's elements. */
    method EncodeHead(v: Value)
      requires Valid()
      modifies this, w, w.b, b
      ensures Valid() && (w.b == old(w.b) || fresh(w.b))
      ensures w.Contents() == old(w.Contents()) + EncHead(old(Syms()), v).0
      ensures Syms() == EncHead(old(Syms()), v).1
    {
      hide EncSym, BincDriver.EncInt, EncMagnitude, BincDriver.EncFloat64, BincDriver.EncLen;
      match v {
        case Nil => w.Writen1(0);
        case Bool(x) => w.Writen1(if x then 2 else 1);
        case Int(i) => EncodeInt(i);
        case Uint(u) => EncUint(0x10, true, u);
        case Float32(f) => EncodeFloat32(f);
        case Float64(f) => EncodeFloat64(f);
        case Str(x) => EncodeRaw(0x40, x);
        case Sym(x) => EncodeSymbol(x);
        case Bytes(x) => EncodeRaw(0x50, x);
        case Ext(tag, None) => w.Writen1(0);
        case Ext(tag, Some(data)) => EncodeExt(tag, data);
        case Time(secs, nsecs, zone) => EncodeTime(secs, nsecs, zone);
        case Array(es) => EncLen(0x60, |es|);
        case Map(kvs) => EncLen(0x70, |kvs|);
        case Unsupported =>
      }
    }
  }
}
