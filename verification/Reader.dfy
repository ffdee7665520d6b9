/** bytesDecReader: a cursor over a byte string; every panic of the source is an outcome. */
module Reader {
  import opened Bytes
  import opened Values

  /** How a call that may panic ends. */
  datatype Outcome<+T> = Done(value: T) | Panic(error: Error) {
    predicate IsFailure() { Panic? }
    function PropagateFailure<U>(): Outcome<U> requires Panic? { Panic(error) }
    function Extract(): T requires Done? { value }
  }

  /** The outcome, and what is left to read after a success, are those of the specification. */
  ghost predicate Agrees<T>(spec: Read<T>, r: Outcome<T>, rest: seq<byte>) {
    match spec
    case Ok(v, tail) => r == Done(v) && rest == tail
    case Err(e) => r == Panic(e)
  }

  class BytesDecReader {
    const b: seq<byte>
    var c: nat
    var a: nat

    ghost predicate Valid()
      reads this
    {
      c + a == |b|
    }

    ghost function Rest(): (s: seq<byte>)
      requires Valid()
      reads this
      ensures |s| == a
    {
      b[c..]
    }

    constructor (b: seq<byte>)
      ensures Valid() && Rest() == b && this.b == b
    {
      this.b := b;
      c, a := 0, |b|;
    }

    /** Moves the cursor past n bytes, or leaves it where it is. */
    method Consume(n: nat) returns (r: Outcome<nat>)
      requires Valid()
      modifies this
      ensures Valid()
      ensures r == if old(a) == 0 then Panic(EOF) else if n > old(a) then Panic(ShortRead) else Done(old(c))
      ensures r.Panic? ==> c == old(c)
      ensures r.Done? ==> c == old(c) + n
    {
      if a == 0 {
        return Panic(EOF);
      }
      if n > a {
        return Panic(ShortRead);
      }
      r := Done(c);
      c, a := c + n, a - n;
    }

    method Readn(n: int) returns (r: Outcome<seq<byte>>)
      requires Valid()
      modifies this
      ensures Valid() && Agrees(ReadN(old(Rest()), n), r, Rest()) && (r.Panic? ==> Rest() == old(Rest()))
    {
      if n <= 0 {
        return Done([]);
      }
      var c0 :- Consume(n);
      assert b[c0..c] == old(Rest())[..n];
      return Done(b[c0..c]);
    }

    method Readn1() returns (r: Outcome<byte>)
      requires Valid()
      modifies this
      ensures Valid() && Agrees(ReadN1(old(Rest())), r, Rest()) && (r.Panic? ==> Rest() == old(Rest()))
    {
      var c0 :- Consume(1);
      return Done(b[c0]);
    }

    /** readUint16, readUint32, readUint64. */
    method ReadUintN(w: nat) returns (r: Outcome<nat>)
      requires Valid() && w > 0
      modifies this
      ensures Valid() && Agrees(ReadUint(old(Rest()), w), r, Rest()) && (r.Panic? ==> Rest() == old(Rest()))
    {
      var c0 :- Consume(w);
      assert b[c0..c] == old(Rest())[..w];
      return Done(FromBE(b[c0..c]));
    }
  }
}
