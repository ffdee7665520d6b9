/** The MessagePack encoding driver as the source runs it: methods that append to a growable buffer. */
module MsgpackEncoder {
  import opened Bytes
  import opened Values
  import opened MsgpackDriver
  import opened Writer

  class MsgpackEncDriver {
    const w: BytesEncWriter
    const h: Handle

    constructor (w: BytesEncWriter, h: Handle)
      ensures this.w == w && this.h == h
    {
      this.w := w;
      this.h := h;
    }

    method EncodeUint(u: nat)
      requires w.Valid()
      modifies w, w.b
      ensures w.Valid() && (w.b == old(w.b) || fresh(w.b))
      ensures w.Contents() == old(w.Contents()) + EncUint(u)
    {
      hide BE, BytesEncWriter.Contents, BytesEncWriter.Valid;
      if u <= 0x7f {
        w.Writen1(u);
      } else if u < 0x100 {
        w.Writen2(UINT8, u);
      } else if u < TWO16 {
        w.Writen1(UINT16);
        w.WriteUint16(u);
      } else if u < TWO32 {
        w.Writen1(UINT32);
        w.WriteUint32(u);
      } else {
        w.Writen1(UINT64);
        w.WriteUint64(u);
      }
    }

    method EncodeInt(i: int)
      requires w.Valid()
      modifies w, w.b
      ensures w.Valid() && (w.b == old(w.b) || fresh(w.b))
      ensures w.Contents() == old(w.Contents()) + EncInt(i)
    {
      hide BE, BytesEncWriter.Contents, BytesEncWriter.Valid;
      if i >= 0 {
        EncodeUint(i);
      } else if i >= -32 {
        w.Writen1(i % 0x100);
      } else if i >= -0x80 {
        w.Writen2(INT8, i % 0x100);
      } else if i >= -TWO15 {
        w.Writen1(INT16);
        w.WriteUint16(i % TWO16);
      } else if i >= -TWO31 {
        w.Writen1(INT32);
        w.WriteUint32(i % TWO32);
      } else {
        w.Writen1(INT64);
        w.WriteUint64(i % TWO64);
      }
    }

    method WriteContainerLen(ct: Container, l: nat)
      requires w.Valid() && h.Msgpack? && (ct == STR || ct == BIN || ct == LIST || ct == MAP)
      modifies w, w.b
      ensures w.Valid() && (w.b == old(w.b) || fresh(w.b))
      ensures w.Contents() == old(w.Contents()) + EncLen(ct, h.writeExt, l)
    {
      hide BE, BytesEncWriter.Contents, BytesEncWriter.Valid;
      if ct.hasFixMin && l < ct.fixCutoff {
        w.Writen1(ct.bFixMin + l);
      } else if ct.has8 && l < 256 && (ct.has8Always || h.writeExt) {
        w.Writen2(ct.b8, l);
      } else if l < TWO16 {
        w.Writen1(ct.b16);
        w.WriteUint16(l);
      } else {
        w.Writen1(ct.b32);
        w.WriteUint32(l);
      }
    }

    method EncodeRaw(ct: Container, s: seq<byte>)
      requires w.Valid() && h.Msgpack? && (ct == STR || ct == BIN)
      modifies w, w.b
      ensures w.Valid() && (w.b == old(w.b) || fresh(w.b))
      ensures w.Contents() == old(w.Contents()) + EncRaw(ct, h.writeExt, s)
    {
      hide EncLen;
      WriteContainerLen(ct, |s|);
      w.Writeb(s);
      assert w.Contents() == old(w.Contents()) + (EncLen(ct, h.writeExt, |s|) + s);
    }

    method EncodeExtPreamble(tag: byte, l: nat)
      requires w.Valid()
      modifies w, w.b
      ensures w.Valid() && (w.b == old(w.b) || fresh(w.b))
      ensures w.Contents() == old(w.Contents()) + EncExtLen(tag, l)
    {
      hide BE, BytesEncWriter.Contents, BytesEncWriter.Valid;
      if l == 1 {
        w.Writen2(FIXEXT1, tag);
      } else if l == 2 {
        w.Writen2(FIXEXT2, tag);
      } else if l == 4 {
        w.Writen2(FIXEXT4, tag);
      } else if l == 8 {
        w.Writen2(FIXEXT8, tag);
      } else if l == 16 {
        w.Writen2(FIXEXT16, tag);
      } else if l < 256 {
        w.Writen2(EXT8, l);
        w.Writen1(tag);
      } else if l < TWO16 {
        w.Writen1(EXT16);
        w.WriteUint16(l);
        w.Writen1(tag);
      } else {
        w.Writen1(EXT32);
        w.WriteUint32(l);
        w.Writen1(tag);
      }
    }

    method EncodeRawExt(tag: byte, data: Option<seq<byte>>)
      requires w.Valid() && h.Msgpack?
      modifies w, w.b
      ensures w.Valid() && (w.b == old(w.b) || fresh(w.b))
      ensures w.Contents() == old(w.Contents()) + EncHead(h, Ext(tag, data))
    {
      hide EncRaw, EncExtLen, BytesEncWriter.Contents, BytesEncWriter.Valid;
      if data.None? {
        w.Writen1(NIL);
      } else if h.writeExt {
        EncodeExtPreamble(tag, |data.value|);
        w.Writeb(data.value);
        assert w.Contents() == old(w.Contents()) + (EncExtLen(tag, |data.value|) + data.value);
      } else {
        EncodeRaw(STR, data.value);
      }
    }

    /** A scalar, or the length in front of a container's elements. */
    method EncodeHead(v: Value)
      requires w.Valid() && h.Msgpack?
      modifies w, w.b
      ensures w.Valid() && (w.b == old(w.b) || fresh(w.b))
      ensures w.Contents() == old(w.Contents()) + EncHead(h, v)
    {
      hide BE, EncInt, EncUint, EncRaw, EncLen, EncExt, BytesEncWriter.Contents, BytesEncWriter.Valid;
      match v {
        case Nil => w.Writen1(NIL);
        case Bool(b) => w.Writen1(if b then TRUE else FALSE);
        case Int(i) => EncodeInt(i);
        case Uint(u) => EncodeUint(u);
        case Float32(f) => w.Writen1(FLOAT); w.WriteUint32(f);
        case Float64(f) => w.Writen1(DOUBLE); w.WriteUint64(f);
        case Str(s) => EncodeRaw(STR, s);
        case Sym(s) => EncodeRaw(STR, s);
        case Bytes(s) => EncodeRaw(RawContainer(h.writeExt), s);
        case Ext(tag, data) => EncodeRawExt(tag, data);
        case Time(_, _, _) =>
        case Array(es) => WriteContainerLen(LIST, |es|);
        case Map(kvs) => WriteContainerLen(MAP, |kvs|);
        case Unsupported =>
      }
    }
  }
}
