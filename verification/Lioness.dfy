/**
  The Lioness wide-block cipher over any keyed hash and any stream cipher: an unbalanced Feistel
  network of four rounds, run from one buffer to another or in place.
 */
module Lioness {

  type bytes = seq<bv8>

  /** The hash of a key and a message, and the first bytes of a keystream. */
  datatype Primitives = Primitives(hash: (bytes, bytes) -> bytes, stream: (bytes, bytes, nat) -> bytes)

  /** Four keys of the stream cipher's key size and two initialization vectors. */
  datatype Cipher = Cipher(p: Primitives, k1: bytes, k2: bytes, k3: bytes, k4: bytes, iv1: bytes, iv2: bytes)

  /** Hashes and keys have the size `k`; a keystream has the length asked for. */
  ghost predicate Lawful(c: Cipher, k: nat) {
    && |c.k1| == |c.k2| == |c.k3| == |c.k4| == k
    && (forall key: bytes, m: bytes :: |c.p.hash(key, m)| == k)
    && (forall key: bytes, iv: bytes, n: nat :: |c.p.stream(key, iv, n)| == n)
  }

  /** `KeyIvInit::new`: the key in four parts, the initialization vector in two. */
  function New(p: Primitives, key: bytes, iv: bytes, k: nat, i: nat): (c: Cipher)
    requires |key| == 4 * k && |iv| == 2 * i
    ensures |c.k1| == |c.k2| == |c.k3| == |c.k4| == k && c.k1 + c.k2 + c.k3 + c.k4 == key && c.iv1 + c.iv2 == iv
  {
    Cipher(p, key[0..k], key[k..2 * k], key[2 * k..3 * k], key[3 * k..4 * k], iv[0..i], iv[i..2 * i])
  }

  function Xor(a: bytes, b: bytes): (x: bytes)
    requires |a| == |b|
    ensures |x| == |a| && forall i :: 0 <= i < |a| ==> x[i] == a[i] ^ b[i]
  {
    seq(|a|, i requires 0 <= i < |a| => a[i] ^ b[i])
  }

  lemma XorByte(x: bv8, y: bv8)
    ensures (x ^ y) ^ y == x
  {}

  /** Masking twice with the same bytes gives the bytes back. */
  lemma XorCancel(a: bytes, b: bytes)
    requires |a| == |b|
    ensures Xor(Xor(a, b), b) == a
  {
    forall i | 0 <= i < |a| ensures Xor(Xor(a, b), b)[i] == a[i] {
      XorByte(a[i], b[i]);
    }
  }

  // ----- the two halves of a round

  /** The right part masked with the keystream of the masked left part. */
  function MaskRight(c: Cipher, key: bytes, iv: bytes, l: bytes, r: bytes): (r': bytes)
    requires |l| == |key| && |c.p.stream(Xor(l, key), iv, |r|)| == |r|
    ensures |r'| == |r|
  {
    Xor(r, c.p.stream(Xor(l, key), iv, |r|))
  }

  /** The left part masked with the keyed hash of the right part. */
  function MaskLeft(c: Cipher, key: bytes, l: bytes, r: bytes): (l': bytes)
    requires |l| == |c.p.hash(key, r)|
    ensures |l'| == |l|
  {
    Xor(l, c.p.hash(key, r))
  }

  function Encrypt(c: Cipher, k: nat, block: bytes): (out: bytes)
    requires Lawful(c, k) && k <= |block|
    ensures |out| == |block|
  {
    var (l, r) := (block[..k], block[k..]);
    var r1 := MaskRight(c, c.k1, c.iv1, l, r);
    var l1 := MaskLeft(c, c.k2, l, r1);
    var r2 := MaskRight(c, c.k3, c.iv2, l1, r1);
    var l2 := MaskLeft(c, c.k4, l1, r2);
    l2 + r2
  }

  function Decrypt(c: Cipher, k: nat, block: bytes): (out: bytes)
    requires Lawful(c, k) && k <= |block|
    ensures |out| == |block|
  {
    var (l2, r2) := (block[..k], block[k..]);
    var l1 := MaskLeft(c, c.k4, l2, r2);
    var r1 := MaskRight(c, c.k3, c.iv2, l1, r2);
    var l := MaskLeft(c, c.k2, l1, r1);
    var r := MaskRight(c, c.k1, c.iv1, l, r1);
    l + r
  }

  lemma MaskRightTwice(c: Cipher, key: bytes, iv: bytes, l: bytes, r: bytes)
    requires |l| == |key| && forall k: bytes, v: bytes, n: nat :: |c.p.stream(k, v, n)| == n
    ensures MaskRight(c, key, iv, l, MaskRight(c, key, iv, l, r)) == r
  {
    XorCancel(r, c.p.stream(Xor(l, key), iv, |r|));
  }

  lemma MaskLeftTwice(c: Cipher, key: bytes, l: bytes, r: bytes)
    requires |l| == |c.p.hash(key, r)|
    ensures MaskLeft(c, key, MaskLeft(c, key, l, r), r) == l
  {
    XorCancel(l, c.p.hash(key, r));
  }

  /** Decryption undoes encryption, whatever the hash and the keystream are. */
  lemma DecryptEncrypt(c: Cipher, k: nat, block: bytes)
    requires Lawful(c, k) && k <= |block|
    ensures Decrypt(c, k, Encrypt(c, k, block)) == block
  {
    hide MaskRight, MaskLeft, Xor;
    var (l, r) := (block[..k], block[k..]);
    var r1 := MaskRight(c, c.k1, c.iv1, l, r);
    var l1 := MaskLeft(c, c.k2, l, r1);
    var r2 := MaskRight(c, c.k3, c.iv2, l1, r1);
    var l2 := MaskLeft(c, c.k4, l1, r2);
    assert (l2 + r2)[..k] == l2 && (l2 + r2)[k..] == r2;
    MaskLeftTwice(c, c.k4, l1, r2);
    MaskRightTwice(c, c.k3, c.iv2, l1, r1);
    MaskLeftTwice(c, c.k2, l, r1);
    MaskRightTwice(c, c.k1, c.iv1, l, r);
    assert block == l + r;
  }

  /** Encryption undoes decryption. */
  lemma EncryptDecrypt(c: Cipher, k: nat, block: bytes)
    requires Lawful(c, k) && k <= |block|
    ensures Encrypt(c, k, Decrypt(c, k, block)) == block
  {
    hide MaskRight, MaskLeft, Xor;
    var (l2, r2) := (block[..k], block[k..]);
    var l1 := MaskLeft(c, c.k4, l2, r2);
    var r1 := MaskRight(c, c.k3, c.iv2, l1, r2);
    var l := MaskLeft(c, c.k2, l1, r1);
    var r := MaskRight(c, c.k1, c.iv1, l, r1);
    assert (l + r)[..k] == l && (l + r)[k..] == r;
    MaskRightTwice(c, c.k1, c.iv1, l, r1);
    MaskLeftTwice(c, c.k2, l1, r1);
    MaskRightTwice(c, c.k3, c.iv2, l1, r2);
    MaskLeftTwice(c, c.k4, l2, r2);
    assert block == l2 + r2;
  }

  // ----- the rounds, byte by byte

  /** One part is another masked with some bytes. */
  predicate Masks(masked: bytes, plain: bytes, mask: bytes) {
    |masked| == |plain| == |mask| && forall i :: 0 <= i < |masked| ==> masked[i] == plain[i] ^ mask[i]
  }

  lemma MaskIsXor(masked: bytes, plain: bytes, mask: bytes)
    requires |plain| == |mask|
    ensures Masks(masked, plain, mask) <==> masked == Xor(plain, mask)
  {}

  /** The left part masked with a key seeds the stream that masks the right part. */
  ghost predicate StreamRound(c: Cipher, key: bytes, iv: bytes, l: bytes, r: bytes, r': bytes) {
    exists seed: bytes :: Masks(seed, l, key) && Masks(r', r, c.p.stream(seed, iv, |r|))
  }

  /** The keyed hash of the right part masks the left part. */
  predicate HashRound(c: Cipher, key: bytes, l: bytes, r: bytes, l': bytes) {
    Masks(l', l, c.p.hash(key, r))
  }

  lemma StreamRoundIff(c: Cipher, key: bytes, iv: bytes, l: bytes, r: bytes, r': bytes)
    requires |l| == |key| && |c.p.stream(Xor(l, key), iv, |r|)| == |r|
    ensures StreamRound(c, key, iv, l, r, r') <==> r' == MaskRight(c, key, iv, l, r)
  {
    forall seed: bytes ensures Masks(seed, l, key) <==> seed == Xor(l, key) {
      MaskIsXor(seed, l, key);
    }
    MaskIsXor(r', r, c.p.stream(Xor(l, key), iv, |r|));
    hide Masks, Xor;
  }

  lemma HashRoundIff(c: Cipher, key: bytes, l: bytes, r: bytes, l': bytes)
    requires |l| == |c.p.hash(key, r)|
    ensures HashRound(c, key, l, r, l') <==> l' == MaskLeft(c, key, l, r)
  {
    MaskIsXor(l', l, c.p.hash(key, r));
  }

  /**
    The four rounds: the halves of the output are those of the input, each masked twice, in turn with
    the stream seeded by the left part under the first key and vector, with the hash of the right part
    under the second key, with the stream again under the third key and second vector, and with the
    hash again under the fourth key.
   */
  lemma FourRounds(c: Cipher, k: nat, block: bytes, out: bytes)
    requires Lawful(c, k) && k <= |block| == |out|
    ensures out == Encrypt(c, k, block) <==>
            exists l: bytes, r: bytes ::
              && StreamRound(c, c.k1, c.iv1, block[..k], block[k..], r) && HashRound(c, c.k2, block[..k], r, l)
              && StreamRound(c, c.k3, c.iv2, l, r, out[k..]) && HashRound(c, c.k4, l, out[k..], out[..k])
  {
    hide StreamRound, HashRound, MaskRight, MaskLeft, Xor;
    var r1 := MaskRight(c, c.k1, c.iv1, block[..k], block[k..]);
    var l1 := MaskLeft(c, c.k2, block[..k], r1);
    forall l: bytes, r: bytes
      ensures StreamRound(c, c.k1, c.iv1, block[..k], block[k..], r) && HashRound(c, c.k2, block[..k], r, l)
              <==> r == r1 && l == l1
    {
      StreamRoundIff(c, c.k1, c.iv1, block[..k], block[k..], r);
      HashRoundIff(c, c.k2, block[..k], r1, l);
    }
    StreamRoundIff(c, c.k3, c.iv2, l1, r1, out[k..]);
    var r2 := MaskRight(c, c.k3, c.iv2, l1, r1);
    HashRoundIff(c, c.k4, l1, r2, out[..k]);
    HalvesMatch(out, k, MaskLeft(c, c.k4, l1, r2), r2);
    StreamRoundIff(c, c.k1, c.iv1, block[..k], block[k..], r1);
    HashRoundIff(c, c.k2, block[..k], r1, l1);
    assert StreamRound(c, c.k1, c.iv1, block[..k], block[k..], r1) && HashRound(c, c.k2, block[..k], r1, l1);
    if out == Encrypt(c, k, block) {
      assert StreamRound(c, c.k3, c.iv2, l1, r1, out[k..]) && HashRound(c, c.k4, l1, out[k..], out[..k]);
    }
  }

  lemma HalvesMatch(out: bytes, k: nat, l: bytes, r: bytes)
    requires k <= |out| && |l| == k
    ensures out == l + r <==> out[..k] == l && out[k..] == r
  {
    assert out == out[..k] + out[k..];
  }

  // ----- the buffers

  /** The first bytes of a block masked with a key, in a buffer of their own. */
  method LeftPrime(block: array<bv8>, key: bytes) returns (left: bytes)
    requires |key| <= block.Length
    ensures left == Xor(block[..|key|], key)
  {
    ghost var part := block[..|key|];
    var buf := new bv8[|key|](i requires 0 <= i < |key| && |key| <= block.Length reads block => block[i]);
    for i := 0 to |key|
      invariant forall j :: 0 <= j < i ==> buf[j] == part[j] ^ key[j]
      invariant forall j :: i <= j < |key| ==> buf[j] == part[j]
    {
      buf[i] := buf[i] ^ key[i];
    }
    left := buf[..];
    assert left == Xor(part, key);
  }

  /** Masks a copy of the right part of one block into the right part of another, possibly the same one. */
  method ApplyKeystream(inp: array<bv8>, out: array<bv8>, k: nat, keystream: bytes)
    requires k <= inp.Length == out.Length && |keystream| == inp.Length - k
    modifies out
    ensures out[k..] == Xor(old(inp[k..]), keystream) && out[..k] == old(out[..k])
    ensures inp != out ==> inp[..] == old(inp[..])
  {
    ghost var left, right := out[..k], inp[k..];
    var copy := inp[k..];
    for i := 0 to |keystream|
      invariant out[..k] == left
      invariant forall j :: 0 <= j < i ==> out[k + j] == right[j] ^ keystream[j]
      invariant inp != out ==> inp[..] == old(inp[..])
    {
      out[k + i] := copy[i] ^ keystream[i];
    }
    assert out[k..] == Xor(right, keystream);
  }

  /** Masks the left part of one block into the left part of another, possibly the same one. */
  method XorLeft(inp: array<bv8>, out: array<bv8>, mask: bytes)
    requires |mask| <= inp.Length == out.Length
    modifies out
    ensures out[..|mask|] == Xor(old(inp[..|mask|]), mask) && out[|mask|..] == old(out[|mask|..])
    ensures inp != out ==> inp[..] == old(inp[..])
  {
    ghost var left, right := inp[..|mask|], out[|mask|..];
    for i := 0 to |mask|
      invariant out[|mask|..] == right
      invariant forall j :: 0 <= j < i ==> out[j] == left[j] ^ mask[j]
      invariant forall j :: i <= j < |mask| ==> inp[j] == left[j]
      invariant inp != out ==> inp[..] == old(inp[..])
    {
      out[i] := inp[i] ^ mask[i];
    }
    assert out[..|mask|] == Xor(left, mask);
  }

  /** In place or into a second buffer the result is the same, and a separate input is left alone. */
  method EncryptBlock(c: Cipher, k: nat, inp: array<bv8>, out: array<bv8>)
    requires Lawful(c, k) && k < inp.Length == out.Length
    modifies out
    ensures out[..] == Encrypt(c, k, old(inp[..]))
    ensures inp != out ==> inp[..] == old(inp[..])
  {
    hide Xor;
    var left := LeftPrime(inp, c.k1);
    ApplyKeystream(inp, out, k, c.p.stream(left, c.iv1, inp.Length - k));
    XorLeft(inp, out, c.p.hash(c.k2, out[k..]));
    left := LeftPrime(out, c.k3);
    ApplyKeystream(out, out, k, c.p.stream(left, c.iv2, inp.Length - k));
    XorLeft(out, out, c.p.hash(c.k4, out[k..]));
    assert out[..] == out[..k] + out[k..];
  }

  method DecryptBlock(c: Cipher, k: nat, inp: array<bv8>, out: array<bv8>)
    requires Lawful(c, k) && k < inp.Length == out.Length
    modifies out
    ensures out[..] == Decrypt(c, k, old(inp[..]))
    ensures inp != out ==> inp[..] == old(inp[..])
  {
    hide Xor;
    XorLeft(inp, out, c.p.hash(c.k4, inp[k..]));
    var left := LeftPrime(out, c.k3);
    ApplyKeystream(inp, out, k, c.p.stream(left, c.iv2, inp.Length - k));
    XorLeft(out, out, c.p.hash(c.k2, out[k..]));
    left := LeftPrime(out, c.k1);
    ApplyKeystream(out, out, k, c.p.stream(left, c.iv1, inp.Length - k));
    assert out[..] == out[..k] + out[k..];
  }
}
