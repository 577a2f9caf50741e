/**
  Recursive Length Prefix, Appendix B of the Ethereum Yellow Paper: the encoding of a transaction
  envelope, and the strict decoder a node applies to it.
 */
module Rlp {
  import opened Wrappers
  import opened Bytes

  datatype Item = Str(bytes: seq<byte>) | List(items: seq<Item>)

  /** Big-endian bytes of a number without leading zeros; zero is the empty string. */
  function MinimalBE(v: nat): (s: seq<byte>)
    ensures s != [] ==> s[0] != 0
    ensures s == [] <==> v == 0
  {
    if v == 0 then [] else MinimalBE(v / 256) + [v % 256]
  }

  /** The prefix of a string (`base` 0x80) or of a list (`base` 0xc0) with a payload of `n` bytes. */
  function Header(base: nat, n: nat): (h: seq<byte>)
    ensures |h| >= 1
  {
    if n <= 55 then [(base + n) % 256]
    else
      var l := MinimalBE(n);
      [(base + 55 + |l|) % 256] + l
  }

  function Encode(x: Item): (s: seq<byte>)
    ensures |s| >= 1
  {
    match x
    case Str(b) => if |b| == 1 && b[0] < 128 then b else Header(0x80, |b|) + b
    case List(xs) => var p := EncodeAll(xs); Header(0xc0, |p|) + p
  }

  function EncodeAll(xs: seq<Item>): (s: seq<byte>)
  {
    if xs == [] then [] else Encode(xs[0]) + EncodeAll(xs[1..])
  }

  /** Where the payload of the first item of a byte string lies. */
  datatype Head = Head(isList: bool, start: nat, len: nat)

  /** The length written in long form, if it is written without slack and stays inside `s`. */
  function LongLength(s: seq<byte>, ll: nat): (n: Option<nat>)
    ensures n.Some? ==> 1 + ll + n.value <= |s|
  {
    if |s| < 1 + ll || ll == 0 || s[1] == 0 then None
    else
      var n := FromBE(s[1..1 + ll]);
      if n <= 55 || |s| < 1 + ll + n then None else Some(n)
  }

  function DecodeHead(s: seq<byte>): (h: Option<Head>)
    ensures h.Some? ==> 0 < h.value.start + h.value.len <= |s|
    ensures h.Some? && h.value.isList ==> h.value.start > 0
  {
    if s == [] then None
    else
      var b := s[0];
      if b < 0x80 then Some(Head(false, 0, 1))
      else if b <= 0xb7 then
        var n := b - 0x80;
        if |s| < 1 + n || (n == 1 && s[1] < 0x80) then None else Some(Head(false, 1, n))
      else if b <= 0xbf then
        match LongLength(s, b - 0xb7)
        case None => None
        case Some(n) => Some(Head(false, 1 + (b - 0xb7), n))
      else if b <= 0xf7 then
        var n := b - 0xc0;
        if |s| < 1 + n then None else Some(Head(true, 1, n))
      else
        match LongLength(s, b - 0xf7)
        case None => None
        case Some(n) => Some(Head(true, 1 + (b - 0xf7), n))
  }

  /** The first item of `s` and the bytes behind it. */
  function Decode(s: seq<byte>): (r: Option<(Item, seq<byte>)>)
    ensures r.Some? ==> |r.value.1| < |s|
    decreases |s|, 0
  {
    match DecodeHead(s)
    case None => None
    case Some(h) =>
      var payload := s[h.start..h.start + h.len];
      var rest := s[h.start + h.len..];
      if !h.isList then Some((Str(payload), rest))
      else
        match DecodeAll(payload)
        case None => None
        case Some(xs) => Some((List(xs), rest))
  }

  /** All the items of `s`, which must end exactly where an item ends. */
  function DecodeAll(s: seq<byte>): (r: Option<seq<Item>>)
    decreases |s|, 1
  {
    if s == [] then Some([])
    else
      match Decode(s)
      case None => None
      case Some((x, rest)) =>
        match DecodeAll(rest)
        case None => None
        case Some(xs) => Some([x] + xs)
  }

  // ----- the numbers inside headers

  lemma {:induction false} FromMinimalBE(v: nat)
    ensures FromBE(MinimalBE(v)) == v
  {
    if v > 0 {
      FromMinimalBE(v / 256);
      assert MinimalBE(v)[..|MinimalBE(v)| - 1] == MinimalBE(v / 256);
    }
  }

  lemma {:induction false} MinimalFromBE(s: seq<byte>)
    requires s != [] ==> s[0] != 0
    ensures MinimalBE(FromBE(s)) == s
  {
    if s != [] {
      var t := s[..|s| - 1];
      MinimalFromBE(t);
      assert s == t + [s[|s| - 1]];
    }
  }

  lemma {:induction false} MinimalBELength(v: nat, n: nat)
    requires v < Pow256(n)
    ensures |MinimalBE(v)| <= n
  {
    if v > 0 {
      MinimalBELength(v / 256, n - 1);
    }
  }

  lemma OneByte(v: nat)
    requires v < 256
    ensures |MinimalBE(v)| <= 1
  {
  }

  // ----- decoding undoes encoding

  lemma LongHeaderRoundTrip(base: nat, n: nat, tail: seq<byte>)
    requires 55 < n < Pow256(8) && n <= |tail| && base <= 0xc0
    ensures var h := Header(base, n);
            && 2 <= |h| <= 9 && (h + tail)[0] == base + 55 + (|h| - 1)
            && LongLength(h + tail, |h| - 1) == Some(n)
  {
    hide MinimalBE, FromBE, Pow256;
    var l := MinimalBE(n);
    MinimalBELength(n, 8);
    FromMinimalBE(n);
    var s := Header(base, n) + tail;
    assert s[1..1 + |l|] == l;
    assert s[1] == l[0];
  }

  /** A header written for a string or a list is read back, whatever payload and bytes follow. */
  lemma HeaderRoundTrip(isList: bool, p: seq<byte>, rest: seq<byte>)
    requires |p| < Pow256(8)
    requires !isList ==> !(|p| == 1 && p[0] < 0x80)
    ensures var h := Header(if isList then 0xc0 else 0x80, |p|);
            DecodeHead(h + (p + rest)) == Some(Head(isList, |h|, |p|))
  {
    hide MinimalBE, FromBE, Pow256;
    var base := if isList then 0xc0 else 0x80;
    if |p| > 55 {
      LongHeaderRoundTrip(base, |p|, p + rest);
    } else if |p| == 1 {
      assert (Header(base, 1) + (p + rest))[1] == p[0];
    }
  }

  lemma DecodeSmallByte(b: byte, rest: seq<byte>)
    requires b < 128
    ensures Decode([b] + rest) == Some((Str([b]), rest))
  {
    hide LongLength, DecodeAll;
    var s := [b] + rest;
    assert DecodeHead(s) == Some(Head(false, 0, 1));
    assert s[0..1] == [b] && s[1..] == rest;
  }

  lemma DecodeEncodeStr(b: seq<byte>, rest: seq<byte>)
    requires |b| < Pow256(8)
    ensures Decode(Encode(Str(b)) + rest) == Some((Str(b), rest))
  {
    hide Header, DecodeHead, DecodeAll, EncodeAll, Pow256;
    if |b| == 1 && b[0] < 128 {
      assert b == [b[0]];
      DecodeSmallByte(b[0], rest);
    } else {
      var h := Header(0x80, |b|);
      HeaderRoundTrip(false, b, rest);
      Middle(h, b, rest);
      assert (h + b) + rest == h + (b + rest);
    }
  }

  lemma DecodeEncodeList(xs: seq<Item>, rest: seq<byte>)
    requires |EncodeAll(xs)| < Pow256(8)
    requires DecodeAll(EncodeAll(xs)) == Some(xs)
    ensures Decode(Encode(List(xs)) + rest) == Some((List(xs), rest))
  {
    hide Header, DecodeHead, DecodeAll, EncodeAll, Pow256;
    var p := EncodeAll(xs);
    var h := Header(0xc0, |p|);
    HeaderRoundTrip(true, p, rest);
    Middle(h, p, rest);
    assert (h + p) + rest == h + (p + rest);
  }

  /** Every item is recovered from its encoding, and exactly its encoding is consumed. */
  lemma {:induction false} DecodeEncode(x: Item, rest: seq<byte>)
    requires |Encode(x)| < Pow256(8)
    ensures Decode(Encode(x) + rest) == Some((x, rest))
    decreases x, 0
  {
    match x
    case Str(b) => DecodeEncodeStr(b, rest);
    case List(xs) =>
      DecodeEncodeAll(xs);
      DecodeEncodeList(xs, rest);
  }

  lemma {:induction false} DecodeEncodeAll(xs: seq<Item>)
    requires |EncodeAll(xs)| < Pow256(8)
    ensures DecodeAll(EncodeAll(xs)) == Some(xs)
    decreases xs, 1
  {
    if xs != [] {
      DecodeEncode(xs[0], EncodeAll(xs[1..]));
      DecodeEncodeAll(xs[1..]);
      assert [xs[0]] + xs[1..] == xs;
    }
  }

  // ----- the decoder accepts nothing but encodings

  lemma LongLengthCanonical(base: nat, s: seq<byte>, ll: nat)
    requires s != [] && s[0] == base + 55 + ll
    requires LongLength(s, ll).Some?
    ensures Header(base, LongLength(s, ll).value) == s[..1 + ll]
  {
    hide MinimalBE, FromBE;
    MinimalFromBE(s[1..1 + ll]);
    assert s[..1 + ll] == [s[0]] + s[1..1 + ll];
  }

  lemma HeadCanonical(s: seq<byte>)
    requires DecodeHead(s).Some?
    ensures var h := DecodeHead(s).value;
            var payload := s[h.start..h.start + h.len];
            && (h.isList ==> Header(0xc0, h.len) == s[..h.start])
            && (!h.isList ==> Encode(Str(payload)) == s[..h.start] + payload)
  {
    hide MinimalBE, FromBE;
    var b := s[0];
    if 0xb7 < b <= 0xbf {
      LongLengthCanonical(0x80, s, b - 0xb7);
    } else if 0xf7 < b {
      LongLengthCanonical(0xc0, s, b - 0xf7);
    } else if 0x80 <= b {
      assert s[..1] == [b];
    } else {
      assert s[..0] + s[0..1] == [b];
    }
  }

  /** Whatever the strict decoder accepts is the encoding of what it returns. */
  lemma {:induction false} EncodeDecode(s: seq<byte>)
    requires Decode(s).Some?
    ensures var (x, rest) := Decode(s).value; s == Encode(x) + rest
    decreases |s|, 0
  {
    hide Header, DecodeHead, EncodeAll, DecodeAll;
    var h := DecodeHead(s).value;
    var payload := s[h.start..h.start + h.len];
    assert s == s[..h.start] + payload + s[h.start + h.len..];
    HeadCanonical(s);
    if h.isList {
      EncodeDecodeAll(payload);
    }
  }

  lemma {:induction false} EncodeDecodeAll(s: seq<byte>)
    requires DecodeAll(s).Some?
    ensures EncodeAll(DecodeAll(s).value) == s
    decreases |s|, 1
  {
    if s != [] {
      EncodeDecode(s);
      var (x, rest) := Decode(s).value;
      EncodeDecodeAll(rest);
      var xs := DecodeAll(rest).value;
      assert ([x] + xs)[1..] == xs;
    }
  }

  /** Two items with the same encoding are the same item. */
  lemma EncodeInjective(x: Item, y: Item)
    requires |Encode(x)| < Pow256(8) && Encode(x) == Encode(y)
    ensures x == y
  {
    DecodeEncode(x, []);
    DecodeEncode(y, []);
  }
}
