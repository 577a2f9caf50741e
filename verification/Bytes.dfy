/** Byte strings and big-endian numbers, shared by every wire format of the project. */
module Bytes {

  type byte = b: int | 0 <= b < 256

  /** 256^n. */
  ghost function Pow256(n: nat): (p: nat)
    ensures p >= 1
  {
    if n == 0 then 1 else 256 * Pow256(n - 1)
  }

  /** `n` zero bytes. */
  function Zeros(n: nat): (z: seq<byte>)
    ensures |z| == n && forall i :: 0 <= i < n ==> z[i] == 0
  {
    seq(n, _ => 0)
  }

  /** The number a big-endian byte string denotes. */
  function FromBE(s: seq<byte>): (v: nat)
  {
    if s == [] then 0 else FromBE(s[..|s| - 1]) * 256 + s[|s| - 1]
  }

  /** The low `n` bytes of `v`, most significant first. */
  function ToBE(v: nat, n: nat): (s: seq<byte>)
    ensures |s| == n
  {
    if n == 0 then [] else ToBE(v / 256, n - 1) + [v % 256]
  }

  lemma {:induction false} FromBEBound(s: seq<byte>)
    ensures FromBE(s) < Pow256(|s|)
  {
    if s != [] {
      FromBEBound(s[..|s| - 1]);
    }
  }

  /** Reading back the bytes of a number that fits gives the number. */
  lemma {:induction false} FromToBE(v: nat, n: nat)
    requires v < Pow256(n)
    ensures FromBE(ToBE(v, n)) == v
  {
    if n > 0 {
      FromToBE(v / 256, n - 1);
      assert ToBE(v, n)[..n - 1] == ToBE(v / 256, n - 1);
    }
  }

  /** Writing the number of a byte string at its own width gives the string. */
  lemma {:induction false} ToFromBE(s: seq<byte>)
    ensures ToBE(FromBE(s), |s|) == s
  {
    if s != [] {
      var t := s[..|s| - 1];
      ToFromBE(t);
      assert FromBE(s) / 256 == FromBE(t) && FromBE(s) % 256 == s[|s| - 1];
      assert s == t + [s[|s| - 1]];
    }
  }

  /** Big-endian reading is injective at a fixed width. */
  lemma FromBEInjective(s: seq<byte>, t: seq<byte>)
    requires |s| == |t| && FromBE(s) == FromBE(t)
    ensures s == t
  {
    ToFromBE(s);
    ToFromBE(t);
  }

  lemma {:induction false} FromBEConcat(s: seq<byte>, t: seq<byte>)
    ensures FromBE(s + t) == FromBE(s) * Pow256(|t|) + FromBE(t)
  {
    if t == [] {
      assert s + t == s;
    } else {
      var u := t[..|t| - 1];
      FromBEConcat(s, u);
      assert (s + t)[..|s + t| - 1] == s + u;
    }
  }

  lemma {:induction false} FromBEZeros(n: nat)
    ensures FromBE(Zeros(n)) == 0
  {
    if n > 0 {
      FromBEZeros(n - 1);
      assert Zeros(n)[..n - 1] == Zeros(n - 1);
    }
  }

  /** Leading zero bytes do not change the number. */
  lemma FromBEPadded(n: nat, s: seq<byte>)
    ensures FromBE(Zeros(n) + s) == FromBE(s)
  {
    FromBEConcat(Zeros(n), s);
    FromBEZeros(n);
  }

  /** A short byte string written at a larger width is the string behind zero bytes. */
  lemma ToBEPadded(s: seq<byte>, n: nat)
    requires |s| <= n
    ensures ToBE(FromBE(s), n) == Zeros(n - |s|) + s
  {
    var padded := Zeros(n - |s|) + s;
    FromBEPadded(n - |s|, s);
    ToFromBE(padded);
  }

  /** The last `k` bytes of a wide encoding are the narrow encoding. */
  lemma {:induction false} ToBESuffix(v: nat, n: nat, k: nat)
    requires k <= n
    ensures ToBE(v, n)[n - k..] == ToBE(v, k)
  {
    if k > 0 {
      ToBESuffix(v / 256, n - 1, k - 1);
      assert ToBE(v, n)[n - k..] == ToBE(v / 256, n - 1)[n - k..] + [v % 256];
    }
  }

  lemma {:induction false} Pow256Monotone(m: nat, n: nat)
    requires m <= n
    ensures Pow256(m) <= Pow256(n)
  {
    if m < n {
      Pow256Monotone(m, n - 1);
    }
  }

  lemma {:induction false} Pow256Add(m: nat, n: nat)
    ensures Pow256(m + n) == Pow256(m) * Pow256(n)
  {
    if n > 0 {
      Pow256Add(m, n - 1);
      assert Pow256(m + n) == 256 * Pow256(m + n - 1);
      assert 256 * (Pow256(m) * Pow256(n - 1)) == Pow256(m) * (256 * Pow256(n - 1));
    }
  }

  /** The middle and the end of three strings put together. */
  lemma Middle(a: seq<byte>, b: seq<byte>, c: seq<byte>)
    ensures var s := a + (b + c);
            s[..|a|] == a && s[|a|..|a| + |b|] == b && s[|a| + |b|..] == c
  {
  }
}
