/** kStruct as the source runs it: the fields to send are collected first, then written as a map. */
module StructEncoder {
  import opened Bytes
  import opened Values
  import opened Codec
  import opened Structs
  import opened Encoder

  /** The loop over the sorted fields that skips the empty ones marked omitempty. */
  method CollectSent(fs: seq<OutField>) returns (sent: seq<OutField>)
    ensures sent == Sent(fs)
  {
    sent := [];
    assert fs[0..] == fs;
    for i := 0 to |fs|
      invariant sent + Sent(fs[i..]) == Sent(fs)
    {
      assert fs[i..][0] == fs[i] && fs[i..][1..] == fs[i + 1..];
      if !(fs[i].omitEmpty && IsEmpty(fs[i].kind, fs[i].v)) {
        sent := sent + [fs[i]];
      }
    }
  }

  /** It fails exactly when a field to be sent holds something unsupported. */
  method EncodeStruct(enc: Encoder, asSymbols: bool, fs: seq<OutField>) returns (ok: bool)
    requires enc.Valid()
    modifies enc.binc, enc.binc.b, enc.w, enc.w.b
    ensures enc.Valid() && (enc.w.b == old(enc.w.b) || fresh(enc.w.b)) && ok == SupportedStruct(enc.h, asSymbols, fs)
    ensures ok ==> enc.w.Contents() == old(enc.w.Contents()) + EncStruct(enc.h, old(enc.Syms()), asSymbols, fs).bytes
    ensures ok ==> enc.Syms() == EncStruct(enc.h, old(enc.Syms()), asSymbols, fs).syms
    ensures old(enc.w.Contents()) <= enc.w.Contents()
  {
    hide Enc, Entries, Structs.Sent, Supported;
    var sent := CollectSent(fs);
    ok := enc.Encode(Map(Entries(asSymbols, sent)));
  }
}
