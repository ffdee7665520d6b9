/** Looking a field up by its encoded name: linear below sixteen fields, binary from there on. */
module FieldIndex {
  import opened Bytes
  import opened Structs

  const THRESHOLD := 16

  /** Go's < on strings: bytewise, a prefix first. */
  predicate Less(a: seq<byte>, b: seq<byte>) {
    if b == [] then false
    else if a == [] then true
    else if a[0] != b[0] then a[0] < b[0]
    else Less(a[1..], b[1..])
  }

  /** sort.Sort by encoded name; equal names may stand in any order. */
  predicate Sorted(fields: seq<Field>) {
    forall i, j :: 0 <= i < j < |fields| ==> !Less(fields[j].name, fields[i].name)
  }

  lemma {:induction false} LessTotal(a: seq<byte>, b: seq<byte>)
    ensures Less(a, b) || Less(b, a) || a == b
    ensures !(Less(a, b) && Less(b, a))
    decreases |a| + |b|
  {
    if a != [] && b != [] {
      if a[0] == b[0] {
        LessTotal(a[1..], b[1..]);
        assert a == [a[0]] + a[1..] && b == [b[0]] + b[1..];
      }
    }
  }

  lemma {:induction false} LessTrans(a: seq<byte>, b: seq<byte>, c: seq<byte>)
    requires !Less(b, a) && Less(b, c)
    ensures Less(a, c)
  {
    if a != [] && b != [] && a[0] == b[0] && c[0] == b[0] {
      LessTrans(a[1..], b[1..], c[1..]);
    }
  }

  /** Whatever the number of fields and the name, both searches find the first field of that name. */
  method IndexForEncName(fields: seq<Field>, name: seq<byte>) returns (r: int)
    requires Sorted(fields)
    ensures r == if IndexOf(fields, name) < |fields| then IndexOf(fields, name) else -1
  {
    if |fields| < THRESHOLD {
      for i := 0 to |fields|
        invariant forall q :: 0 <= q < i ==> fields[q].name != name
      {
        if fields[i].name == name {
          return i;
        }
      }
      return -1;
    }
    var i, j := 0, |fields|;
    while i < j
      invariant 0 <= i <= j <= |fields|
      invariant forall q :: 0 <= q < i ==> Less(fields[q].name, name)
      invariant forall q :: j <= q < |fields| ==> !Less(fields[q].name, name)
    {
      var h := i + (j - i) / 2;
      if Less(fields[h].name, name) {
        forall q | 0 <= q < h ensures Less(fields[q].name, name) {
          LessTrans(fields[q].name, fields[h].name, name);
        }
        i := h + 1;
      } else {
        forall q | h < q < |fields| ensures !Less(fields[q].name, name) {
          if Less(fields[q].name, name) { LessTrans(fields[h].name, fields[q].name, name); }
        }
        j := h;
      }
    }
    LessTotal(name, name);
    if i < |fields| && fields[i].name == name {
      return i;
    }
    if i < |fields| {
      LessTotal(fields[i].name, name);
      forall q | i < q < |fields| ensures fields[q].name != name {
        assert !Less(fields[q].name, fields[i].name);
      }
    }
    return -1;
  }
}
