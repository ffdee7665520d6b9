/** The values the encoder accepts and the schema-less decoder returns, and the byte reader. */
module Values {
  import opened Bytes

  datatype Option<+T> = None | Some(value: T)

  /** A Go string is its bytes. */
  type Text = seq<byte>

  /**
   * A Go value handed to the encoder, or stored in a nil interface by the decoder.
   * Floats are IEEE bit patterns; a Go map is its entries in iteration order.
   * Sym is a string written through encodeSymbol (struct field names, map keys).
   * A time is Unix seconds, nanoseconds and, unless UTC, the zone offset in seconds.
   * Unsupported is a value of a kind the encoder refuses: a channel, a function, a complex number.
   */
  datatype Value =
    | Nil
    | Bool(b: bool)
    | Int(i: int)
    | Uint(u: nat)
    | Float32(f32: nat)
    | Float64(f64: nat)
    | Str(s: seq<byte>)
    | Sym(sym: seq<byte>)
    | Bytes(bs: seq<byte>)
    | Ext(tag: byte, data: Option<seq<byte>>)
    | Time(secs: int, nsecs: nat, zone: Option<int>)
    | Array(es: seq<Value>)
    | Map(kvs: seq<Pair>)
    | Unsupported

  datatype Pair = Pair(k: Value, v: Value)

  /** An entry's key and value are below the map they sit in. */
  lemma {:induction false} EntryBelow(kvs: seq<Pair>)
    requires kvs != []
    ensures (kvs decreases to kvs[0].k) && (kvs decreases to kvs[0].v)
  {
    assert (kvs decreases to kvs[0]);
    assert (kvs[0] decreases to kvs[0].k) && (kvs[0] decreases to kvs[0].v);
  }

  /** A subset has no more elements. */
  lemma {:induction false} SubsetSize<T>(a: set<T>, b: set<T>)
    requires a <= b
    ensures |a| <= |b|
  {
    if a != {} {
      var x :| x in a;
      SubsetSize(a - {x}, b - {x});
    }
  }

  /** The two wire formats with the options that change what is written or returned. */
  datatype Handle = Msgpack(writeExt: bool, rawToString: bool) | Binc

  /** What makes the decoder panic; Decode turns the panic into an error. */
  datatype Error =
    | EOF | ShortRead | BadDescriptor | Overflow | NegativeToUnsigned
    | Unhashable | Populated | BadTime | WrongKind | WrongHeader | Refused

  /** The outcome of reading from a byte string: a value and what is left, or an error. */
  datatype Read<+T> = Ok(value: T, rest: seq<byte>) | Err(error: Error) {
    predicate IsFailure() { Err? }
    function PropagateFailure<U>(): Read<U> requires Err? { Err(error) }
    function Extract(): (T, seq<byte>) requires Ok? { (value, rest) }
  }

  /** What a driver reads in one go: a scalar, or the length of a container whose elements follow. */
  datatype Head = Leaf(v: Value) | ArrayHead(n: nat) | MapHead(n: nat)

  /** The reader's n-byte read: nothing is consumed when n is not positive. */
  function ReadN(bs: seq<byte>, n: int): (r: Read<seq<byte>>)
    ensures r.Ok? ==> |r.value| == (if n <= 0 then 0 else n) && |r.rest| == |bs| - |r.value|
    ensures r.Ok? <==> n <= |bs| 
  {
    if n <= 0 then Ok([], bs)
    else if bs == [] then Err(EOF)
    else if n > |bs| then Err(ShortRead)
    else Ok(bs[..n], bs[n..])
  }

  function ReadN1(bs: seq<byte>): (r: Read<byte>)
    ensures r.Ok? ==> |r.rest| == |bs| - 1
  {
    if bs == [] then Err(EOF) else Ok(bs[0], bs[1..])
  }

  /** A big-endian unsigned integer of w bytes. */
  function ReadUint(bs: seq<byte>, w: nat): (r: Read<nat>)
    ensures r.Ok? ==> |r.rest| == |bs| - w && r.value < Pow256(w)
  {
    var (x, rest) :- ReadN(bs, w);
    Ok(FromBE(x), rest)
  }

  lemma {:induction false} ReadUintOfBE(v: nat, w: nat, suffix: seq<byte>)
    requires v < Pow256(w)
    ensures ReadUint(BE(v, w) + suffix, w) == Ok(v, suffix)
  {
    FromBEOfBE(v, w);
    if w > 0 {
      assert (BE(v, w) + suffix)[..w] == BE(v, w) && (BE(v, w) + suffix)[w..] == suffix;
    } else {
      assert BE(v, w) + suffix == suffix;
    }
  }

  lemma {:induction false} ReadNOfConcat(xs: seq<byte>, suffix: seq<byte>)
    ensures ReadN(xs + suffix, |xs|) == Ok(xs, suffix)
  {
    if xs == [] {
      assert xs + suffix == suffix;
    } else {
      assert (xs + suffix)[..|xs|] == xs && (xs + suffix)[|xs|..] == suffix;
    }
  }

  // ------------------------------------------------------------------
  // Widening a float32 to a float64, on bit patterns

  /** Doubles a subnormal mantissa until its top bit is set, lowering the exponent each time. */
  function Normalise(m: nat, e: int): (int, nat)
    requires 0 < m < 0x100_0000
    decreases 0x80_0000 - m
  {
    if m >= 0x80_0000 then (e, m - 0x80_0000) else Normalise(2 * m, e - 1)
  }

  function Widen(b: nat): nat {
    var sign, e, m := b / TWO31 % 2 * TWO63, b / 0x80_0000 % 256, b % 0x80_0000;
    if e == 255 then
      sign + 0x7FF0_0000_0000_0000 + (if m == 0 then 0 else 0x8_0000_0000_0000 + m % 0x40_0000 * 0x2000_0000)
    else if e > 0 then
      sign + (e + 896) * 0x10_0000_0000_0000 + m * 0x2000_0000
    else if m == 0 then
      sign
    else
      var (e2, m2) := Normalise(m, 897);
      if e2 < 0 then sign else sign + e2 * 0x10_0000_0000_0000 + m2 * 0x2000_0000
  }

  // ------------------------------------------------------------------
  // Map keys

  predicate IsNaN(bits: nat) {
    bits % TWO63 > 0x7FF0_0000_0000_0000
  }

  /** decMapIntfIntf stores a byte-string key as a string. */
  function KeyOf(v: Value): Value {
    if v.Bytes? then Str(v.bs) else v
  }

  /** Keys that Go can hash; the others make the map lookup panic. */
  predicate Hashable(v: Value) {
    !v.Array? && !v.Map? && !v.Ext? && !v.Bytes?
  }

  /**
   * Go's == on two decoded keys: NaN differs from itself, the two zeros agree, and a time
   * with an explicit zone carries a fresh *Location that equals no other.
   */
  predicate KeyEq(a: Value, b: Value) {
    if a.Float64? && b.Float64? then
      !IsNaN(a.f64) && (a.f64 == b.f64 || (a.f64 % TWO63 == 0 && b.f64 % TWO63 == 0))
    else if a.Time? && b.Time? then
      a == b && a.zone.None?
    else
      a == b
  }

  /** One entry for each key. */
  predicate DistinctKeys(m: seq<Pair>) {
    forall i, j :: 0 <= i < j < |m| ==> !KeyEq(m[i].k, m[j].k)
  }

  /** The index of the entry with key k, or |m|. */
  function Find(m: seq<Pair>, k: Value): (j: nat)
    ensures j <= |m|
    ensures j < |m| ==> KeyEq(m[j].k, k)
    ensures forall i :: 0 <= i < j ==> !KeyEq(m[i].k, k)
  {
    if m == [] then 0 else if KeyEq(m[0].k, k) then 0 else 1 + Find(m[1..], k)
  }

  function Put(m: seq<Pair>, k: Value, v: Value): seq<Pair> {
    var j := Find(m, k);
    if j < |m| then m[j := Pair(k, v)] else m + [Pair(k, v)]
  }
}
