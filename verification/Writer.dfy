/** bytesEncWriter: a growable byte buffer with a write cursor. */
module Writer {
  import opened Bytes

  lemma {:induction false} BEBytes(v: nat)
    ensures BE(v, 1) == [v % 256]
    ensures BE(v, 2) == [v / 0x100 % 256, v % 256]
    ensures BE(v, 4) == BE(v / TWO16, 2) + BE(v, 2)
    ensures BE(v, 8) == BE(v / TWO32, 4) + BE(v, 4)
  {
    BEStep(v); BEStep(v / 0x100); BEStep(v / 0x1_0000); BEStep(v / 0x100_0000);
    Quotients(v, 0x100); Quotients(v, 0x1_0000); Quotients(v, 0x100_0000);
    assert BE(v / 0x100, 1) == [v / 0x100 % 256];
    assert BE(v, 2) == BE(v / 0x100, 1) + [v % 256];
  }

  lemma {:induction false} BEStep(v: nat)
    ensures forall w: nat :: w > 0 ==> BE(v, w) == BE(v / 0x100, w - 1) + [v % 256]
  {
  }

  lemma {:induction false} Quotients(v: nat, p: nat)
    requires p == 0x100 || p == 0x1_0000 || p == 0x100_0000
    ensures v / p / 0x100 == v / (0x100 * p)
  {
  }

  class BytesEncWriter {
    var b: array<byte>
    /** The slice's length; its capacity is that of the array. */
    var len: nat
    var c: nat
    /** All the bytes moved by regrowths so far. */
    ghost var copied: nat

    /** Copies cost at most two bytes for every byte written. */
    ghost predicate Valid()
      reads this
    {
      c <= len <= b.Length && copied <= b.Length && copied <= 2 * c
    }

    ghost function Contents(): (s: seq<byte>)
      requires Valid()
      reads this, b
    {
      b[..c]
    }

    constructor (size: nat)
      ensures Valid() && Contents() == [] && fresh(b) && copied == 0
    {
      b := new byte[size](_ => 0);
      len := size;
      c := 0;
      copied := 0;
    }

    /** Makes room for n more bytes; the caller fills them in. */
    method Grow(n: nat) returns (oldCursor: nat)
      requires Valid()
      modifies this
      ensures Valid() && oldCursor == old(c) && c == old(c) + n
      ensures b == old(b) || fresh(b)
      ensures b[..oldCursor] == old(b[..c])
    {
      oldCursor := c;
      c := oldCursor + n;
      if c > b.Length {
        var bs := new byte[2 * b.Length + n](_ => 0);
        forall k | 0 <= k < oldCursor {
          bs[k] := b[k];
        }
        copied := copied + oldCursor;
        b := bs;
        len := bs.Length;
      } else if c > len {
        len := b.Length;
      }
    }

    method Writen1(x: byte)
      requires Valid()
      modifies this, b
      ensures Valid() && (b == old(b) || fresh(b))
      ensures Contents() == old(Contents()) + [x]
    {
      var k := Grow(1);
      b[k] := x;
    }

    method Writen2(x: byte, y: byte)
      requires Valid()
      modifies this, b
      ensures Valid() && (b == old(b) || fresh(b))
      ensures Contents() == old(Contents()) + [x, y]
    {
      var k := Grow(2);
      b[k] := x;
      b[k + 1] := y;
    }

    method WriteUint16(v: nat)
      requires Valid()
      modifies this, b
      ensures Valid() && (b == old(b) || fresh(b))
      ensures Contents() == old(Contents()) + BE(v, 2)
    {
      BEBytes(v);
      var k := Grow(2);
      b[k] := v / 0x100 % 256;
      b[k + 1] := v % 256;
    }

    /** Stores the four bytes of v at k, where there is room for them. */
    method Store4(k: nat, v: nat)
      requires k + 4 <= b.Length
      modifies b
      ensures b[..k + 4] == old(b[..k]) + BE(v, 4)
    {
      BEBytes(v);
      BEBytes(v / TWO16);
      b[k] := v / TWO16 / 0x100 % 256;
      b[k + 1] := v / TWO16 % 256;
      b[k + 2] := v / 0x100 % 256;
      b[k + 3] := v % 256;
      assert b[k..k + 4] == BE(v / TWO16, 2) + BE(v, 2);
      assert b[..k + 4] == b[..k] + b[k..k + 4];
    }

    method WriteUint32(v: nat)
      requires Valid()
      modifies this, b
      ensures Valid() && (b == old(b) || fresh(b))
      ensures Contents() == old(Contents()) + BE(v, 4)
    {
      var k := Grow(4);
      Store4(k, v);
    }

    method WriteUint64(v: nat)
      requires Valid()
      modifies this, b
      ensures Valid() && (b == old(b) || fresh(b))
      ensures Contents() == old(Contents()) + BE(v, 8)
    {
      BEBytes(v);
      ghost var was := Contents();
      var k := Grow(8);
      Store4(k, v / TWO32);
      Store4(k + 4, v);
      assert Contents() == was + (BE(v / TWO32, 4) + BE(v, 4));
    }

    method Writeb(s: seq<byte>)
      requires Valid()
      modifies this, b
      ensures Valid() && (b == old(b) || fresh(b))
      ensures Contents() == old(Contents()) + s
    {
      if |s| == 0 {
        assert Contents() == old(Contents()) + s;
        return;
      }
      var k := Grow(|s|);
      forall i | 0 <= i < |s| {
        b[k + i] := s[i];
      }
      assert b[k..k + |s|] == s;
      assert b[..c] == b[..k] + b[k..c];
    }
  }

  /** Any sequence of writes: the buffer holds their concatenation, at a cost linear in its length. */
  method WriteAll(chunks: seq<seq<byte>>, size: nat) returns (w: BytesEncWriter)
    ensures w.Valid() && w.Contents() == Concat(chunks)
    ensures w.copied <= 2 * |Concat(chunks)|
  {
    w := new BytesEncWriter(size);
    for i := 0 to |chunks|
      invariant w.Valid() && fresh(w) && fresh(w.b) && w.Contents() == Concat(chunks[..i])
    {
      ConcatStep(chunks, i);
      w.Writeb(chunks[i]);
    }
    assert chunks[..|chunks|] == chunks;
  }

  function Concat(chunks: seq<seq<byte>>): seq<byte> {
    if chunks == [] then [] else Concat(chunks[..|chunks| - 1]) + chunks[|chunks| - 1]
  }

  lemma {:induction false} ConcatStep(chunks: seq<seq<byte>>, i: nat)
    requires i < |chunks|
    ensures Concat(chunks[..i + 1]) == Concat(chunks[..i]) + chunks[i]
  {
    assert chunks[..i + 1][..i] == chunks[..i];
  }
}
