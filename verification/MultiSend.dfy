/** The packed body of the Safe MultiSend contract: calls written back to back without padding. */
module MultiSend {
  import opened Abi
  import opened Bytes
  import opened Primitives
  import opened Wrappers

  datatype Call = Call(operation: byte, to: address, value: word, data: seq<byte>)

  function EncodeOne(c: Call): (s: seq<byte>)
    ensures |s| == 85 + |c.data|
  {
    [c.operation] + c.to + c.value + WordUsize(|c.data|) + c.data
  }

  function EncodeCalls(calls: seq<Call>): (s: seq<byte>)
  {
    if calls == [] then [] else EncodeOne(calls[0]) + EncodeCalls(calls[1..])
  }

  /** A plain call that moves no native value. */
  function PlainCall(to: address, data: seq<byte>): (c: Call)
  {
    Call(0, to, Zeros(32), data)
  }

  /** What the MultiSend contract executes for a packed body; it reverts on a cut-off call. */
  function DecodeCalls(s: seq<byte>): (calls: Option<seq<Call>>)
  {
    if s == [] then Some([])
    else if |s| < 85 then None
    else
      var len := FromBE(s[53..85]);
      if |s| < 85 + len then None
      else
        match DecodeCalls(s[85 + len..])
        case None => None
        case Some(rest) => Some([Call(s[0], s[1..21], s[21..53], s[85..85 + len])] + rest)
  }

  lemma OneLayout(c: Call, rest: seq<byte>)
    ensures var s := EncodeOne(c) + rest;
            && s[0] == c.operation && s[1..21] == c.to && s[21..53] == c.value
            && s[53..85] == WordUsize(|c.data|) && s[85..85 + |c.data|] == c.data
            && s[85 + |c.data|..] == rest
  {
  }

  /** A packed body names its list of calls unambiguously, whatever their number and data lengths. */
  lemma {:induction false} DecodeEncodeCalls(calls: seq<Call>)
    requires |EncodeCalls(calls)| < Pow256(8)
    ensures DecodeCalls(EncodeCalls(calls)) == Some(calls)
  {
    if calls != [] {
      var c := calls[0];
      var rest := EncodeCalls(calls[1..]);
      OneLayout(c, rest);
      WordUsizeValue(|c.data|);
      DecodeEncodeCalls(calls[1..]);
      assert [c] + calls[1..] == calls;
    }
  }

  /** The buffer is one plain call without native value, as the contract decodes it. */
  method EncodeMultiSendTransaction(to: address, data: seq<byte>) returns (encoded: seq<byte>)
    ensures encoded == EncodeOne(PlainCall(to, data))
    ensures |encoded| < Pow256(8) ==> DecodeCalls(encoded) == Some([Call(0, to, Zeros(32), data)])
  {
    encoded := [];
    encoded := encoded + [0];
    encoded := encoded + to;
    encoded := encoded + Zeros(32);
    encoded := encoded + WordUsize(|data|);
    encoded := encoded + data;
    PlainCallDecoded(to, data);
  }

  lemma PlainCallDecoded(to: address, data: seq<byte>)
    ensures var s := EncodeOne(PlainCall(to, data));
            |s| < Pow256(8) ==> DecodeCalls(s) == Some([Call(0, to, Zeros(32), data)])
  {
    hide EncodeOne, DecodeCalls, Pow256;
    var call := PlainCall(to, data);
    var s := EncodeOne(call);
    assert [call][1..] == [] && EncodeCalls([call]) == s + [] == s;
    if |s| < Pow256(8) {
      DecodeEncodeCalls([call]);
    }
  }
}
