/** Hexadecimal text of fixed-size values, and the checksummed form of addresses (EIP-55). */
module HexText {
  import opened Ascii
  import opened Bytes
  import opened Primitives
  import opened Wrappers

  /** The size of the stack buffer of the short decoding path. */
  const STACK_BUFFER: nat := 128

  function DigitChar(d: nat): (c: char)
    requires d < 16
  {
    if d < 10 then (48 + d) as char else (87 + d) as char
  }

  /** Both cases of the letters are read. */
  function DigitValue(c: char): (d: Option<nat>)
    ensures d.Some? ==> d.value < 16
  {
    if '0' <= c <= '9' then Some(c as int - 48)
    else if 'a' <= c <= 'f' then Some(c as int - 87)
    else if 'A' <= c <= 'F' then Some(c as int - 55)
    else None
  }

  function EncodeHex(b: seq<byte>): (s: string)
    ensures |s| == 2 * |b|
  {
    if b == [] then [] else [DigitChar(b[0] / 16), DigitChar(b[0] % 16)] + EncodeHex(b[1..])
  }

  function ByteOf(high: char, low: char): (b: Option<byte>) {
    match (DigitValue(high), DigitValue(low))
    case (Some(h), Some(l)) => Some(16 * h + l)
    case _ => None
  }

  function DecodeHex(s: string): (r: Option<seq<byte>>)
    ensures r.Some? ==> 2 * |r.value| == |s|
  {
    if s == [] then Some([])
    else if |s| == 1 then None
    else
      match (ByteOf(s[0], s[1]), DecodeHex(s[2..]))
      case (Some(b), Some(rest)) => Some([b] + rest)
      case _ => None
  }

  function ToHex(v: seq<byte>): (s: string) {
    "0x" + EncodeHex(v)
  }

  function StripPrefix(s: string): (data: string)
    ensures |data| <= |s| && |data| % 2 == |s| % 2
  {
    if "0x" <= s || "0X" <= s then s[2..] else s
  }

  // ----- the two decoding paths

  /** The decoding library itself strips one lowercase prefix more. */
  function LibraryStrip(s: string): (digits: string)
    ensures |digits| <= |s| && |digits| % 2 == |s| % 2
  {
    if "0x" <= s then s[2..] else s
  }

  function OfSize(v: Option<seq<byte>>, size: nat): (r: Option<seq<byte>>) {
    if v.Some? && |v.value| == size then v else None
  }

  /** `decode_to_slice` into the room counted before the library strips: the lengths must still agree. */
  function StackPath(data: string, size: nat): (r: Option<seq<byte>>) {
    if |LibraryStrip(data)| != |data| then None else OfSize(DecodeHex(LibraryStrip(data)), size)
  }

  /** `decode` allocates what it needs after stripping. */
  function HeapPath(data: string, size: nat): (r: Option<seq<byte>>) {
    OfSize(DecodeHex(LibraryStrip(data)), size)
  }

  /** `from_hex` of a value of `size` bytes. */
  function FromHex(s: string, size: nat): (r: Option<seq<byte>>) {
    if s == [] || |s| % 2 != 0 then None
    else
      var data := StripPrefix(s);
      if |data| / 2 <= STACK_BUFFER then StackPath(data, size) else HeapPath(data, size)
  }

  /** Decodes digits into the front of a buffer. */
  method DecodeDigits(digits: string, buf: array<byte>) returns (ok: bool)
    requires |digits| % 2 == 0 && |digits| / 2 <= buf.Length
    modifies buf
    ensures ok <==> DecodeHex(digits).Some?
    ensures ok ==> buf[..|digits| / 2] == DecodeHex(digits).value
  {
    hide ByteOf;
    for i := 0 to |digits| / 2
      invariant DecodeHex(digits).Some? <==> DecodeHex(digits[2 * i..]).Some?
      invariant DecodeHex(digits).Some? ==> DecodeHex(digits).value == buf[..i] + DecodeHex(digits[2 * i..]).value
    {
      var rest := digits[2 * i..];
      assert rest[2..] == digits[2 * (i + 1)..];
      var b := ByteOf(digits[2 * i], digits[2 * i + 1]);
      if b.None? {
        return false;
      }
      buf[i] := b.value;
      assert buf[..i + 1] == buf[..i] + [b.value];
    }
    return true;
  }

  /** `decode_to_slice`: strips, compares the lengths, and decodes into the first `n` bytes of a buffer. */
  method DecodeToSlice(data: string, buf: array<byte>, n: nat) returns (ok: bool)
    requires n <= buf.Length
    modifies buf
    ensures ok <==> |LibraryStrip(data)| == 2 * n && DecodeHex(LibraryStrip(data)).Some?
    ensures ok ==> buf[..n] == DecodeHex(LibraryStrip(data)).value
  {
    hide LibraryStrip, DecodeHex;
    var digits := LibraryStrip(data);
    if |digits| != 2 * n {
      return false;
    }
    ok := DecodeDigits(digits, buf);
  }

  /** Short values are decoded on the stack, longer ones on the heap. */
  method FromHexBuffered(s: string, size: nat) returns (r: Option<seq<byte>>)
    ensures r == FromHex(s, size)
  {
    if s == [] || |s| % 2 != 0 {
      return None;
    }
    var data := StripPrefix(s);
    var halfLen := |data| / 2;
    if halfLen <= STACK_BUFFER {
      var buf := new byte[STACK_BUFFER](_ => 0);
      var ok := DecodeToSlice(data, buf, halfLen);
      if !ok {
        return None;
      }
      return if halfLen == size then Some(buf[..halfLen]) else None;
    }
    match DecodeHex(LibraryStrip(data))
    case None => return None;
    case Some(v) => return if |v| == size then Some(v) else None;
  }

  // ----- round trips

  lemma DigitRoundTrip(d: nat)
    requires d < 16
    ensures DigitValue(DigitChar(d)) == Some(d)
  {}

  lemma {:induction false} DecodeEncode(b: seq<byte>)
    ensures DecodeHex(EncodeHex(b)) == Some(b)
  {
    if b != [] {
      DecodeEncode(b[1..]);
      DigitRoundTrip(b[0] / 16);
      DigitRoundTrip(b[0] % 16);
      assert EncodeHex(b)[2..] == EncodeHex(b[1..]);
      assert [b[0]] + b[1..] == b;
    }
  }

  lemma EncodedHasNoPrefix(v: seq<byte>)
    ensures LibraryStrip(EncodeHex(v)) == EncodeHex(v)
  {
    if v != [] {
      assert EncodeHex(v)[1] == DigitChar(v[0] % 16);
    }
  }

  lemma Prefixed(t: string)
    ensures StripPrefix("0x" + t) == t && LibraryStrip("0x" + t) == t
  {
    var s := "0x" + t;
    assert s[..2] == "0x" && s[2..] == t;
  }

  /** A value of any size comes back from its text, on either path. */
  lemma HexRoundTrip(v: seq<byte>)
    ensures FromHex(ToHex(v), |v|) == Some(v)
    ensures StackPath(EncodeHex(v), |v|) == HeapPath(EncodeHex(v), |v|) == Some(v)
  {
    hide EncodeHex, DecodeHex, StripPrefix, LibraryStrip;
    DecodeEncode(v);
    EncodedHasNoPrefix(v);
    Prefixed(EncodeHex(v));
  }

  function LowerAll(s: string): (t: string)
    ensures |t| == |s| && forall i :: 0 <= i < |s| ==> t[i] == Lower(s[i])
  {
    seq(|s|, i requires 0 <= i < |s| => Lower(s[i]))
  }

  predicate AllHex(s: string) {
    forall i :: 0 <= i < |s| ==> DigitValue(s[i]).Some?
  }

  lemma DigitBack(c: char)
    requires DigitValue(c).Some?
    ensures DigitChar(DigitValue(c).value) == Lower(c)
  {}

  /** Decoding accepts exactly the hex digits, and what it accepts is the text of the result up to case. */
  lemma {:induction false} DecodeAccepts(s: string)
    requires |s| % 2 == 0
    ensures DecodeHex(s).Some? <==> AllHex(s)
    ensures DecodeHex(s).Some? ==> EncodeHex(DecodeHex(s).value) == LowerAll(s)
    decreases |s|
  {
    if s != [] {
      DecodeAccepts(s[2..]);
      assert forall i :: 2 <= i < |s| ==> s[i] == s[2..][i - 2];
      if DecodeHex(s).Some? {
        DigitBack(s[0]);
        DigitBack(s[1]);
        var h, l := DigitValue(s[0]).value, DigitValue(s[1]).value;
        assert (16 * h + l) / 16 == h && (16 * h + l) % 16 == l;
        assert LowerAll(s) == [Lower(s[0]), Lower(s[1])] + LowerAll(s[2..]);
        assert DecodeHex(s).value[1..] == DecodeHex(s[2..]).value;
      }
    }
  }

  /**
    The two paths agree on a text behind its prefix except when a second prefix is followed by
    exactly the digits of a value, which only the heap path reads.
   */
  lemma PathsAgree(data: string, size: nat)
    requires |data| % 2 == 0
    ensures StackPath(data, size) == HeapPath(data, size) <==>
            !("0x" <= data && |data| == 2 * size + 2 && AllHex(data[2..]))
  {
    DecodeAccepts(LibraryStrip(data));
  }

  /** A doubled prefix is read from 128 bytes on, where the heap path takes over, and refused below. */
  lemma DoubledPrefix(v: seq<byte>)
    ensures FromHex("0x" + ToHex(v), |v|) == if |v| >= STACK_BUFFER then Some(v) else None
  {
    hide EncodeHex, DecodeHex, StripPrefix, LibraryStrip;
    DecodeEncode(v);
    Prefixed(ToHex(v));
    Prefixed(EncodeHex(v));
  }

  /** Without a prefix, behind `0x` and behind `0X` digits are read alike. */
  lemma PrefixesAlike(t: string, size: nat)
    requires t != [] && !("0x" <= t) && !("0X" <= t)
    ensures FromHex(t, size) == FromHex("0x" + t, size) == FromHex("0X" + t, size)
  {
    hide DecodeHex, OfSize;
    assert ("0x" + t)[2..] == t && ("0X" + t)[2..] == t && ("0X" + t)[..2] == "0X" && ("0x" + t)[..2] == "0x";
    assert StripPrefix("0x" + t) == StripPrefix("0X" + t) == StripPrefix(t) == t;
  }

  /** What follows the prefix or prefixes of an accepted text. */
  function Digits(s: string): (digits: string) {
    LibraryStrip(StripPrefix(s))
  }

  /**
    Which texts are read as a value of a given size: the right number of hex digits behind an optional
    prefix, or from 128 bytes on behind two; and what they spell.
   */
  lemma FromHexAccepts(s: string, size: nat)
    ensures FromHex(s, size).Some? <==>
            && s != [] && |Digits(s)| == 2 * size && AllHex(Digits(s))
            && (Digits(s) == StripPrefix(s) || size >= STACK_BUFFER)
    ensures FromHex(s, size).Some? ==> EncodeHex(FromHex(s, size).value) == LowerAll(Digits(s))
  {
    if |s| % 2 == 0 {
      DecodeAccepts(Digits(s));
    }
  }

  lemma {:induction false} DecodeIgnoresCase(s: string, t: string)
    requires |s| == |t| && LowerAll(s) == LowerAll(t)
    ensures DecodeHex(s) == DecodeHex(t)
    decreases |s|
  {
    if |s| >= 2 {
      assert forall i :: 0 <= i < |s| ==> Lower(s[i]) == Lower(t[i]) by {
        assert forall i :: 0 <= i < |s| ==> LowerAll(s)[i] == LowerAll(t)[i];
      }
      SameDigit(s[0], t[0]);
      SameDigit(s[1], t[1]);
      assert LowerAll(s[2..]) == LowerAll(t[2..]);
      DecodeIgnoresCase(s[2..], t[2..]);
    }
  }

  lemma SameDigit(a: char, b: char)
    requires Lower(a) == Lower(b)
    ensures DigitValue(a) == DigitValue(b)
  {}

  // ----- EIP-55

  /** The `i`-th nibble of a hash, the high one of a byte first. */
  function Nibble(hash: word, i: nat): (n: nat)
    requires i < 64
    ensures n < 16
  {
    if (i + 1) % 2 == 1 then hash[i / 2] / 16 else hash[i / 2] % 16
  }

  /** A text that is the checksummed form of an address under some hash. */
  predicate Checksummed(ret: string, a: address, hash: word) {
    && |ret| == 42 && ret[..2] == "0x"
    && forall i :: 0 <= i < 40 ==>
         ret[i + 2] == if Nibble(hash, i) < 8 then EncodeHex(a)[i] else Upper(EncodeHex(a)[i])
  }

  /** The checksummed address, built character by character. */
  method ToChecksum(a: address, keccak: string -> word) returns (ret: string)
    ensures Checksummed(ret, a, keccak(EncodeHex(a)))
  {
    var addressHex := EncodeHex(a);
    var hash := keccak(addressHex);
    ret := "0x";
    for i := 0 to 40
      invariant |ret| == i + 2 && ret[..2] == "0x"
      invariant forall j :: 0 <= j < i ==>
                  ret[j + 2] == if Nibble(hash, j) < 8 then addressHex[j] else Upper(addressHex[j])
    {
      ret := ret + [if Nibble(hash, i) < 8 then addressHex[i] else Upper(addressHex[i])];
    }
  }

  /** The nibbles are the digits of the hash's own text. */
  lemma {:induction false} NibbleIsDigit(b: seq<byte>, i: nat)
    requires i < 2 * |b|
    ensures DigitValue(EncodeHex(b)[i]) == Some(if i % 2 == 0 then b[i / 2] / 16 else b[i / 2] % 16)
  {
    DigitRoundTrip(b[0] / 16);
    DigitRoundTrip(b[0] % 16);
    if i >= 2 {
      NibbleIsDigit(b[1..], i - 2);
    }
  }

  /** The nibbles that decide are the hexadecimal digits of the hash, as EIP-55 has it. */
  lemma NibblesOfHash(hash: word, i: nat)
    requires i < 64
    ensures DigitValue(EncodeHex(hash)[i]) == Some(Nibble(hash, i))
  {
    NibbleIsDigit(hash, i);
  }

  lemma {:induction false} EncodeIsLower(b: seq<byte>, i: nat)
    requires i < 2 * |b|
    ensures Lower(EncodeHex(b)[i]) == EncodeHex(b)[i] == Lower(Upper(EncodeHex(b)[i]))
  {
    if i >= 2 {
      EncodeIsLower(b[1..], i - 2);
    }
  }

  lemma LowerTwice(v: seq<byte>)
    ensures LowerAll(EncodeHex(v)) == EncodeHex(v)
  {
    forall i | 0 <= i < 2 * |v| ensures LowerAll(EncodeHex(v))[i] == EncodeHex(v)[i] {
      EncodeIsLower(v, i);
    }
  }

  lemma SecondIsDigit(t: string, v: seq<byte>)
    requires LowerAll(t) == EncodeHex(v)
    ensures LibraryStrip(t) == t
  {
    if v != [] {
      assert EncodeHex(v)[1] == DigitChar(v[0] % 16) && LowerAll(t)[1] == Lower(t[1]);
    }
  }

  /** A text that lowers to the digits of a short value is read as that value behind a prefix. */
  lemma LowerHexParses(t: string, v: seq<byte>)
    requires LowerAll(t) == EncodeHex(v) && |v| <= STACK_BUFFER
    ensures FromHex("0x" + t, |v|) == Some(v)
  {
    hide DecodeHex, LibraryStrip, EncodeHex, FromHex;
    SecondIsDigit(t, v);
    DecodeEncode(v);
    LowerTwice(v);
    DecodeIgnoresCase(t, EncodeHex(v));
    ShortPath(t, |v|);
  }

  lemma ShortPath(t: string, size: nat)
    requires |t| % 2 == 0 && |t| / 2 <= STACK_BUFFER && LibraryStrip(t) == t
    ensures FromHex("0x" + t, size) == OfSize(DecodeHex(t), size)
  {
    hide StripPrefix, DecodeHex, LibraryStrip, OfSize;
    Prefixed(t);
    assert |"0x" + t| == |t| + 2;
  }

  lemma LowerPrefixed(t: string)
    ensures LowerAll("0x" + t) == "0x" + LowerAll(t)
  {}

  /** The digits of a checksummed form lower to the digits of the address. */
  lemma ChecksumLowers(ret: string, a: address, hash: word)
    requires Checksummed(ret, a, hash)
    ensures ret == "0x" + ret[2..] && LowerAll(ret[2..]) == EncodeHex(a)
  {
    hide EncodeHex, Nibble;
    assert ret == ret[..2] + ret[2..];
    forall i | 0 <= i < 40 ensures LowerAll(ret[2..])[i] == EncodeHex(a)[i] {
      EncodeIsLower(a, i);
      assert ret[2..][i] == ret[i + 2];
    }
  }

  /**
    Whatever the hash, the checksummed form differs from the lowercase form in case only and parses
    back to the address.
   */
  lemma ChecksumParsesBack(ret: string, a: address, hash: word)
    requires Checksummed(ret, a, hash)
    ensures LowerAll(ret) == ToHex(a)
    ensures FromHex(ret, 20) == Some(a)
  {
    ChecksumLowers(ret, a, hash);
    hide EncodeHex, Checksummed, FromHex, LowerAll;
    LowerHexParses(ret[2..], a);
    LowerPrefixed(ret[2..]);
  }
}
