/**
  Solidity Contract ABI, "Formal Specification of the Encoding": the call data the payload
  generators write word by word, and the reading of call data by a contract or a parser.
 */
module Abi {
  import opened Arithmetic
  import opened Bytes
  import opened Primitives
  import opened Wrappers

  type selector = s: seq<byte> | |s| == 4 witness [0, 0, 0, 0]

  // ----- what the encoding helpers write

  /** Right-aligns at most 32 big-endian bytes in a zero-padded word. */
  function RightAlign32(data: seq<byte>): (w: word)
    requires |data| <= 32
  {
    ToBE(FromBE(data), 32)
  }

  function Addr32(a: address): (w: word)
  {
    RightAlign32(a)
  }

  /** Keeps the low `keep` bytes of a big-endian integer. */
  function TruncatedWord(full: seq<byte>, keep: nat): (w: word)
    requires keep <= |full| && keep <= 32
  {
    RightAlign32(full[|full| - keep..])
  }

  /** An offset or a length, held in a 64-bit integer. */
  function WordUsize(v: nat): (w: word)
  {
    RightAlign32(ToBE(v, 8))
  }

  function Padding(n: nat): (p: nat)
    ensures p < 32 && (n + p) % 32 == 0
  {
    (32 - n % 32) % 32
  }

  /** A `bytes` value: its length, its content and zeros up to a word boundary. */
  function DynTail(data: seq<byte>): (s: seq<byte>)
  {
    WordUsize(|data|) + data + Zeros(Padding(|data|))
  }

  function Concat(words: seq<word>): (s: seq<byte>)
    ensures |s| == 32 * |words|
  {
    if words == [] then [] else Concat(words[..|words| - 1]) + words[|words| - 1]
  }

  function StaticCall(sel: selector, words: seq<word>): (s: seq<byte>)
  {
    sel + Concat(words)
  }

  function CallWithBytes(sel: selector, words: seq<word>, data: seq<byte>): (s: seq<byte>)
  {
    sel + (Concat(words + [WordUsize(32 * (|words| + 1))]) + DynTail(data))
  }

  // ----- the buffers the helpers grow

  /** Behind the data stand zeros only, as few as fill the last word. */
  lemma DynTailPads(data: seq<byte>)
    ensures var s := DynTail(data);
            && |s| % 32 == 0 && 32 + |data| <= |s| < 64 + |data|
            && s[32..32 + |data|] == data && forall i :: 32 + |data| <= i < |s| ==> s[i] == 0
  {
    hide WordUsize;
    var s, pad := DynTail(data), Zeros(Padding(|data|));
    assert |s| == 32 + (|data| + Padding(|data|));
    assert s == (WordUsize(|data|) + data) + pad;
    assert forall i :: 32 + |data| <= i < |s| ==> s[i] == pad[i - 32 - |data|];
  }

  method AbiDynTail(data: seq<byte>) returns (out: seq<byte>)
    ensures out == DynTail(data)
    ensures |out| % 32 == 0 && |out| < 64 + |data|
    ensures forall i :: 32 + |data| <= i < |out| ==> out[i] == 0
  {
    hide WordUsize, Zeros;
    DynTailPads(data);
    var pad := (32 - |data| % 32) % 32;
    out := [];
    out := out + WordUsize(|data|);
    out := out + data;
    out := out + Zeros(pad);
  }

  lemma ConcatAppend(words: seq<word>, w: word)
    ensures Concat(words + [w]) == Concat(words) + w
  {
    assert (words + [w])[..|words|] == words;
  }

  method AppendWords(head: seq<byte>, words: seq<word>) returns (out: seq<byte>)
    ensures out == head + Concat(words)
  {
    out := head;
    for i := 0 to |words|
      invariant out == head + Concat(words[..i])
    {
      assert words[..i + 1][..i] == words[..i];
      out := out + words[i];
    }
    assert words[..|words|] == words;
  }

  method EncodeStaticCall(sel: selector, words: seq<word>) returns (out: seq<byte>)
    ensures out == StaticCall(sel, words)
  {
    out := AppendWords(sel, words);
  }

  method EncodeCallWithBytes(sel: selector, words: seq<word>, data: seq<byte>) returns (out: seq<byte>)
    ensures out == CallWithBytes(sel, words, data)
  {
    hide WordUsize, DynTail;
    var offset := (|words| + 1) * 32;
    var tail := AbiDynTail(data);
    out := AppendWords(sel, words);
    assert (words + [WordUsize(offset)])[..|words|] == words;
    out := out + WordUsize(offset);
    out := out + tail;
  }

  // ----- reading call data

  /** The argument block of a call, if the selector is the expected one. */
  function Args(sel: selector, input: seq<byte>): (args: Option<seq<byte>>)
  {
    if |input| >= 4 && input[..4] == sel then Some(input[4..]) else None
  }

  /** The `i`-th head slot. */
  function Slot(args: seq<byte>, i: nat): (w: word)
    requires 32 * (i + 1) <= |args|
  {
    args[32 * i..32 * i + 32]
  }

  function AddressOf(w: word): (a: address)
  {
    w[12..]
  }

  /** An unsigned integer type of `k` bytes. */
  function UintOf(w: word, k: nat): (v: nat)
    requires k <= 32
  {
    FromBE(w[32 - k..])
  }

  /** The dynamic `bytes` argument whose offset stands in head slot `i`. */
  function BytesOf(args: seq<byte>, i: nat): (data: Option<seq<byte>>)
    requires 32 * (i + 1) <= |args|
  {
    var offset := FromBE(Slot(args, i));
    if |args| < offset + 32 then None
    else
      var len := FromBE(args[offset..offset + 32]);
      if |args| < offset + 32 + len then None
      else Some(args[offset + 32..offset + 32 + len])
  }

  // ----- reading undoes writing

  lemma RightAlignPads(data: seq<byte>)
    requires |data| <= 32
    ensures RightAlign32(data) == Zeros(32 - |data|) + data
    ensures FromBE(RightAlign32(data)) == FromBE(data)
    ensures RightAlign32(data)[32 - |data|..] == data
  {
    ToBEPadded(data, 32);
    FromBEPadded(32 - |data|, data);
  }

  lemma AddressRoundTrip(a: address)
    ensures AddressOf(Addr32(a)) == a
  {
    RightAlignPads(a);
  }

  lemma WordUsizeValue(v: nat)
    requires v < Pow256(8)
    ensures FromBE(WordUsize(v)) == v
  {
    RightAlignPads(ToBE(v, 8));
    FromToBE(v, 8);
  }

  /** A truncated word keeps exactly the value modulo 2^(8*keep). */
  lemma TruncatedWordValue(v: nat, keep: nat)
    requires keep <= 32
    ensures UintOf(TruncatedWord(ToBE(v, 32), keep), keep) == v % Pow256(keep)
  {
    ToBESuffix(v, 32, keep);
    RightAlignPads(ToBE(v, keep));
    FromToBEMod(v, keep);
  }

  lemma {:induction false} FromToBEMod(v: nat, n: nat)
    ensures FromBE(ToBE(v, n)) == v % Pow256(n)
  {
    if n > 0 {
      FromToBEMod(v / 256, n - 1);
      assert ToBE(v, n)[..n - 1] == ToBE(v / 256, n - 1);
      ModSplit(v, Pow256(n - 1));
    }
  }

  lemma {:induction false} ConcatSlot(words: seq<word>, tail: seq<byte>, i: nat)
    requires i < |words|
    ensures Slot(Concat(words) + tail, i) == words[i]
  {
    var n := |words| - 1;
    if i < n {
      ConcatSlot(words[..n], words[n] + tail, i);
      assert Concat(words) + tail == Concat(words[..n]) + (words[n] + tail);
    } else {
      assert Concat(words) + tail == Concat(words[..n]) + (words[n] + tail);
    }
  }

  lemma TailSlices(head: seq<byte>, i: nat, len: word, data: seq<byte>, after: seq<byte>)
    requires 32 * (i + 1) <= |head|
    ensures var args := head + (len + (data + after));
            && Slot(args, i) == Slot(head, i) && args[|head|..|head| + 32] == len
            && args[|head| + 32..|head| + 32 + |data|] == data
  {
    var args := head + (len + (data + after));
    Middle(head, len, data + after);
    assert (head + len) + (data + after) == args;
    Middle(head + len, data, after);
  }

  lemma BytesAt(head: seq<byte>, i: nat, len: word, data: seq<byte>, after: seq<byte>)
    requires 32 * (i + 1) <= |head| && FromBE(Slot(head, i)) == |head| && FromBE(len) == |data|
    ensures BytesOf(head + (len + (data + after)), i) == Some(data)
  {
    TailSlices(head, i, len, data, after);
  }

  /** A tail written behind a head is found through the offset that points at its start. */
  lemma DynTailRead(head: seq<byte>, i: nat, data: seq<byte>, rest: seq<byte>)
    requires 32 * (i + 1) <= |head| < Pow256(8) && |data| < Pow256(8)
    requires Slot(head, i) == WordUsize(|head|)
    ensures BytesOf(head + (DynTail(data) + rest), i) == Some(data)
  {
    WordUsizeValue(|head|);
    WordUsizeValue(|data|);
    var after := Zeros(Padding(|data|)) + rest;
    BytesAt(head, i, WordUsize(|data|), data, after);
    assert DynTail(data) + rest == WordUsize(|data|) + (data + after);
  }

  /** The arguments of a static call are its words. */
  lemma StaticCallArgs(sel: selector, words: seq<word>)
    ensures Args(sel, StaticCall(sel, words)) == Some(Concat(words))
    ensures forall i :: 0 <= i < |words| ==> Slot(Concat(words), i) == words[i]
  {
    assert StaticCall(sel, words)[4..] == Concat(words);
    forall i | 0 <= i < |words| ensures Slot(Concat(words), i) == words[i] {
      ConcatSlot(words, [], i);
      assert Concat(words) + [] == Concat(words);
    }
  }

  /** A call with one `bytes` argument gives back its words and its bytes. */
  lemma CallWithBytesArgs(sel: selector, words: seq<word>, data: seq<byte>)
    requires 32 * (|words| + 1) < Pow256(8) && |data| < Pow256(8)
    ensures var args := Args(sel, CallWithBytes(sel, words, data));
            && args.Some? && 32 * (|words| + 1) <= |args.value|
            && (forall i :: 0 <= i < |words| ==> Slot(args.value, i) == words[i])
            && BytesOf(args.value, |words|) == Some(data)
  {
    var offset := WordUsize(32 * (|words| + 1));
    var all := words + [offset];
    var args := Concat(all) + DynTail(data);
    assert CallWithBytes(sel, words, data)[4..] == args;
    forall i | 0 <= i < |all| ensures Slot(args, i) == all[i] && Slot(Concat(all), i) == all[i] {
      ConcatSlot(all, DynTail(data), i);
      ConcatSlot(all, [], i);
      assert Concat(all) + [] == Concat(all);
    }
    DynTailRead(Concat(all), |words|, data, []);
    assert args == Concat(all) + (DynTail(data) + []);
    assert forall i :: 0 <= i < |words| ==> all[i] == words[i];
  }
}
