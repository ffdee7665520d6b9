/** The timestamp format: a descriptor byte, then seconds, nanoseconds and zone, each only when present. */
module Timestamp {
  import opened Bytes
  import opened Values

  /** Go's integer division truncates toward zero. */
  function TruncDiv(a: int, b: nat): int
    requires b > 0
  {
    if a >= 0 then a / b else -((-a) / b)
  }

  /** The 64-bit word with the same bits as an int64. */
  function Word(secs: int): nat {
    secs % TWO64
  }

  function SecsBytes(secs: int): seq<byte> {
    var b := BE(Word(secs), 8);
    b[PruneCount(b, secs >= 0)..]
  }

  function NsecsBytes(nsecs: nat): seq<byte> {
    var b := BE(nsecs, 4);
    b[PruneCount(b, true)..]
  }

  /** The offset in minutes, as 16 bits with the two daylight-saving bits cleared. */
  function ZoneBytes(offset: int): seq<byte> {
    var z := TruncDiv(offset, 60) % TWO16;
    [z / 256 % 64, z % 256]
  }

  /** The three fields; one that is zero or UTC is left out. */
  function SecsField(secs: int): seq<byte> {
    if secs != 0 then SecsBytes(secs) else []
  }

  function NsecsField(nsecs: nat): seq<byte> {
    if nsecs != 0 then NsecsBytes(nsecs) else []
  }

  function ZoneField(zone: Option<int>): seq<byte> {
    if zone.Some? then ZoneBytes(zone.value) else []
  }

  function Flags(n1: nat, n2: nat, zoned: bool): byte
    requires n1 <= 8 && n2 <= 4
  {
    (if n1 > 0 then 0x80 + 4 * (n1 - 1) else 0) + (if n2 > 0 then 0x40 + (n2 - 1) else 0) + (if zoned then 0x20 else 0)
  }

  function EncTime(secs: int, nsecs: nat, zone: Option<int>): seq<byte> {
    var a, b, z := SecsField(secs), NsecsField(nsecs), ZoneField(zone);
    [Flags(|a|, |b|, zone.Some?)] + a + b + z
  }

  /** Sign extension from bit 13 over the two daylight-saving bits. */
  function SignExtend14(tz: nat): int {
    var t := tz % 0x4000;
    if t < 0x2000 then t else t - 0x4000
  }

  /** time.Unix with nanoseconds of a second or more carried into the seconds. */
  function Unix(secs: int, nsecs: nat, zone: Option<int>): Value {
    if nsecs < 1_000_000_000 then Time(secs, nsecs, zone)
    else Time(ToSigned((secs + nsecs / 1_000_000_000) % TWO64, TWO64), nsecs % 1_000_000_000, zone)
  }

  /** The time made of the three fields; an absent field is empty. */
  function Assemble(a: seq<byte>, b: seq<byte>, z: seq<byte>): Value {
    var secs := if a == [] then 0 else SignedBE(a);
    var tz := SignExtend14(FromBE(z));
    Unix(secs, FromBE(b), if tz == 0 then None else Some(tz * 60))
  }

  /**
   * decodeTime on a slice with the given bytes between its length and its capacity; None where it panics.
   * A re-slice is checked against the capacity, so that a short input reads on into those bytes; only the
   * look at the first byte of the seconds is checked against the length.
   */
  function DecTime(bs: seq<byte>, beyond: seq<byte>): Option<Value> {
    if bs == [] then None
    else
      var bd, all := bs[0], bs + beyond;
      var n1 := if bd / 128 == 1 then bd / 4 % 8 + 1 else 0;
      var n2 := if bd / 64 % 2 == 1 then bd % 4 + 1 else 0;
      var n3 := if bd / 32 % 2 == 1 then 2 else 0;
      if |all| < 1 + n1 + n2 + n3 || (n1 > 0 && |bs| < 2) then None
      else
        Some(Assemble(all[1..1 + n1], all[1 + n1..1 + n1 + n2], all[1 + n1 + n2..1 + n1 + n2 + n3]))
  }

  /** What the format keeps of a zone: whole minutes in 14 bits, and UTC for offset zero. */
  function NormZone(zone: Option<int>): Option<int> {
    if zone.None? then None
    else
      var tz := SignExtend14(TruncDiv(zone.value, 60) % TWO16);
      if tz == 0 then None else Some(tz * 60)
  }

  function OffsetOf(zone: Option<int>): int {
    if zone.None? then 0 else zone.value
  }

  predicate IsTime(secs: int, nsecs: nat) {
    -TWO63 <= secs < TWO63 && nsecs < 1_000_000_000
  }

  // ------------------------------------------------------------------

  lemma {:induction false} WordSigned(secs: int)
    requires -TWO63 <= secs < TWO63
    ensures SignedBE(BE(Word(secs), 8)) == secs
    ensures BE(Word(secs), 8)[0] < 128 <==> secs >= 0
  {
    Pow256Values();
    FromBEOfBE(Word(secs), 8);
    SignOfBE(BE(Word(secs), 8));
  }

  /** The seconds field is the shortest two's-complement form of the seconds. */
  lemma {:induction false} SecsShortest(secs: int)
    requires -TWO63 <= secs < TWO63
    ensures var a := SecsBytes(secs);
            && 1 <= |a| <= 8 && SignedBE(a) == secs
            && FitsSigned(secs, |a|) && (|a| > 1 ==> !FitsSigned(secs, |a| - 1))
  {
    WordSigned(secs);
    PruneKeepsValue(BE(Word(secs), 8), secs >= 0);
    PruneIsShortest(BE(Word(secs), 8));
  }

  lemma {:induction false} NsecsValue(nsecs: nat)
    requires nsecs < TWO32
    ensures 1 <= |NsecsBytes(nsecs)| <= 4 && FromBE(NsecsBytes(nsecs)) == nsecs
  {
    Pow256Values();
    FromBEOfBE(nsecs, 4);
    PruneKeepsValue(BE(nsecs, 4), true);
  }

  lemma {:induction false} ZoneValue(offset: int)
    ensures SignExtend14(FromBE(ZoneBytes(offset))) == SignExtend14(TruncDiv(offset, 60) % TWO16)
  {
    var z := TruncDiv(offset, 60) % TWO16;
    var bs: seq<byte> := ZoneBytes(offset);
    assert bs[..1] == [bs[0]] && bs[..1][..0] == [];
    assert FromBE(bs[..1]) == 256 * FromBE(bs[..1][..0]) + bs[0];
    assert FromBE(bs) == 256 * FromBE(bs[..1]) + bs[1];
    assert (256 * (z / 256 % 64) + z % 256) % 0x4000 == z % 0x4000;
  }

  lemma {:induction false} FlagsDecode(n1: nat, n2: nat, zoned: bool)
    requires n1 <= 8 && n2 <= 4
    ensures var bd := Flags(n1, n2, zoned);
            && (bd / 128 == 1 <==> n1 > 0) && (n1 > 0 ==> bd / 4 % 8 + 1 == n1)
            && (bd / 64 % 2 == 1 <==> n2 > 0) && (n2 > 0 ==> bd % 4 + 1 == n2)
            && (bd / 32 % 2 == 1 <==> zoned)
  {
  }

  lemma {:induction false} Layout(bd: byte, a: seq<byte>, b: seq<byte>, z: seq<byte>, beyond: seq<byte>)
    ensures var bs := [bd] + a + b + z + beyond;
            && |bs| == 1 + |a| + |b| + |z| + |beyond| && bs[0] == bd && bs[1..1 + |a|] == a
            && bs[1 + |a|..1 + |a| + |b|] == b && bs[1 + |a| + |b|..1 + |a| + |b| + |z|] == z
  {
  }

  lemma {:induction false} DecTimeOfLayout(a: seq<byte>, b: seq<byte>, z: seq<byte>, beyond: seq<byte>)
    requires |a| <= 8 && |b| <= 4 && (|z| == 0 || |z| == 2)
    ensures DecTime([Flags(|a|, |b|, |z| == 2)] + a + b + z, beyond) == Some(Assemble(a, b, z))
  {
    hide Flags, Assemble;
    FlagsDecode(|a|, |b|, |z| == 2);
    Layout(Flags(|a|, |b|, |z| == 2), a, b, z, beyond);
  }

  lemma {:induction false} AssembleValue(secs: int, nsecs: nat, zone: Option<int>)
    requires IsTime(secs, nsecs)
    ensures var a, b, z := SecsField(secs), NsecsField(nsecs), ZoneField(zone);
            && |a| <= 8 && |b| <= 4 && |z| == (if zone.Some? then 2 else 0)
            && Assemble(a, b, z) == Time(secs, nsecs, NormZone(zone))
  {
    hide BE, FromBE, SignedBE, PruneCount, Pow256, TruncDiv, SignExtend14;
    SecsShortest(secs);
    NsecsValue(nsecs);
    NoBytes();
    if zone.Some? { ZoneValue(zone.value); }
  }

  lemma {:induction false} NoBytes()
    ensures FromBE([]) == 0 && SignExtend14(0) == 0
  {
  }

  /**
   * Decoding an encoded time gives the same instant, in the zone the format keeps, whatever lies beyond it;
   * the whole fits Binc's four-bit length.
   */
  lemma {:induction false} TimeRoundTrip(secs: int, nsecs: nat, zone: Option<int>, beyond: seq<byte>)
    requires IsTime(secs, nsecs)
    ensures DecTime(EncTime(secs, nsecs, zone), beyond) == Some(Time(secs, nsecs, NormZone(zone)))
    ensures 1 <= |EncTime(secs, nsecs, zone)| <= 15
  {
    AssembleValue(secs, nsecs, zone);
    var a, b, z := SecsField(secs), NsecsField(nsecs), ZoneField(zone);
    DecTimeOfLayout(a, b, z, beyond);
    assert EncTime(secs, nsecs, zone) == [Flags(|a|, |b|, |z| == 2)] + a + b + z;
  }

  /** The zone offset survives exactly when it is a whole number of minutes in 14 bits. */
  lemma {:induction false} ZoneKept(offset: int)
    ensures OffsetOf(NormZone(Some(offset))) == offset
       <==> TruncDiv(offset, 60) * 60 == offset && -8192 <= TruncDiv(offset, 60) <= 8191
  {
    var m := TruncDiv(offset, 60);
    assert (m % TWO16) % 0x4000 == m % 0x4000;
  }

  // ------------------------------------------------------------------
  // The source's form: fixed buffers filled in place

  /** Writes v big-endian into btmp, prunes it and copies what is left to dst at i. */
  method PutPruned(dst: array<byte>, i: nat, btmp: array<byte>, v: nat, w: nat, pos: bool) returns (n: nat)
    requires dst != btmp && w <= btmp.Length && i + w <= dst.Length
    requires w > 0
    modifies dst, btmp
    ensures i + n <= dst.Length && n <= w
    ensures dst[..i + n] == old(dst[..i]) + BE(v, w)[PruneCount(BE(v, w), pos)..]
  {
    PutBE(btmp, v, w);
    var f := PruneSignExt(btmp, w, pos);
    n := w - f;
    forall k | 0 <= k < n {
      dst[i + k] := btmp[f + k];
    }
    assert btmp[f..w] == btmp[..w][f..];
    assert dst[i..i + n] == btmp[f..w];
  }

  method PutSecs(bs: array<byte>, i: nat, btmp: array<byte>, secs: int) returns (n: nat)
    requires bs != btmp && btmp.Length == 8 && i + 8 <= bs.Length
    modifies bs, btmp
    ensures i + n <= bs.Length && n <= 8
    ensures bs[..i + n] == old(bs[..i]) + SecsField(secs)
  {
    n := 0;
    if secs != 0 {
      n := PutPruned(bs, i, btmp, Word(secs), 8, secs >= 0);
    }
  }

  method PutNsecs(bs: array<byte>, i: nat, btmp: array<byte>, nsecs: nat) returns (n: nat)
    requires bs != btmp && btmp.Length == 8 && i + 4 <= bs.Length
    modifies bs, btmp
    ensures i + n <= bs.Length && n <= 4
    ensures bs[..i + n] == old(bs[..i]) + NsecsField(nsecs)
  {
    n := 0;
    if nsecs != 0 {
      n := PutPruned(bs, i, btmp, nsecs, 4, true);
    }
  }

  method PutZone(bs: array<byte>, i: nat, zone: Option<int>) returns (n: nat)
    requires i + 2 <= bs.Length
    modifies bs
    ensures i + n <= bs.Length
    ensures bs[..i + n] == old(bs[..i]) + ZoneField(zone)
  {
    n := 0;
    if zone.Some? {
      var z := TruncDiv(zone.value, 60) % TWO16;
      bs[i], bs[i + 1] := z / 256 % 64, z % 256;
      n := 2;
    }
  }

  /** Fills in the descriptor, which is only known once the fields are written. */
  method PutFlags(bs: array<byte>, k: nat, flags: byte, ghost a: seq<byte>, ghost b: seq<byte>, ghost z: seq<byte>)
    requires k <= bs.Length && bs[..k] == [0] + a + b + z
    modifies bs
    ensures bs[..k] == [flags] + a + b + z
  {
    ghost var was := bs[..k];
    bs[0] := flags;
    assert bs[..k] == was[0 := flags];
  }

  method EncodeTime(secs: int, nsecs: nat, zone: Option<int>) returns (out: seq<byte>)
    ensures out == EncTime(secs, nsecs, zone)
  {
    hide SecsField, NsecsField, ZoneField, Flags;
    var btmp := new byte[8](_ => 0);
    var bs := new byte[16](_ => 0);
    assert bs[..1] == [0];
    var n1 := PutSecs(bs, 1, btmp, secs);
    var n2 := PutNsecs(bs, 1 + n1, btmp, nsecs);
    var n3 := PutZone(bs, 1 + n1 + n2, zone);
    PutFlags(bs, 1 + n1 + n2 + n3, Flags(n1, n2, zone.Some?), SecsField(secs), NsecsField(nsecs), ZoneField(zone));
    out := bs[..1 + n1 + n2 + n3];
  }

  /** Sign bytes in front of a two's-complement string leave its value alone. */
  lemma {:induction false} FillKeepsValue(fill: seq<byte>, a: seq<byte>)
    requires a != [] && forall k :: 0 <= k < |fill| ==> fill[k] == (if a[0] < 128 then 0 else 255)
    ensures SignedBE(fill + a) == SignedBE(a)
  {
    if fill == [] {
      assert fill + a == a;
    } else {
      FillKeepsValue(fill[1..], a);
      FromBEHead(fill + a);
      assert (fill + a)[1..] == fill[1..] + a;
    }
  }

  /** The seconds: copied to the end of an 8-byte buffer and sign-extended in place. */
  method DecodeSecs(bs: seq<byte>, lo: nat, n: nat) returns (secs: int)
    requires lo + n <= |bs| && 1 <= n <= 8
    ensures secs == SignedBE(bs[lo..lo + n])
  {
    var btmp := new byte[8](_ => 0);
    forall k | 0 <= k < n {
      btmp[8 - n + k] := bs[lo + k];
    }
    if bs[lo] >= 128 {
      forall k | 0 <= k < 8 - n {
        btmp[k] := 255;
      }
    }
    assert btmp[..] == btmp[..8 - n] + bs[lo..lo + n];
    FillKeepsValue(btmp[..8 - n], bs[lo..lo + n]);
    Pow256Values();
    SignOfBE(btmp[..]);
    secs := ToSigned(FromBE(btmp[..]), TWO64);
  }

  method DecodeTime(bs: seq<byte>, beyond: seq<byte>) returns (r: Option<Value>)
    ensures r == DecTime(bs, beyond)
  {
    if |bs| == 0 {
      return None;
    }
    var bd, all := bs[0], bs + beyond;
    var secs, nsecs, i := 0, 0, 1;
    if bd / 128 == 1 {
      var n := bd / 4 % 8 + 1;
      if |all| < i + n || |bs| < 2 {
        return None;
      }
      secs := DecodeSecs(all, i, n);
      i := i + n;
    }
    if bd / 64 % 2 == 1 {
      var n := bd % 4 + 1;
      if |all| < i + n {
        return None;
      }
      nsecs := FromBE(all[i..i + n]);
      i := i + n;
    }
    if bd / 32 % 2 == 0 {
      return Some(Unix(secs, nsecs, None));
    }
    if |all| < i + 2 {
      return None;
    }
    var tz := SignExtend14(FromBE(all[i..i + 2]));
    return Some(Unix(secs, nsecs, if tz == 0 then None else Some(tz * 60)));
  }
}
