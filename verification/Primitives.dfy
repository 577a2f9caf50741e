/** Fixed-width values the library passes around by copy. */
module Primitives {
  import opened Bytes

  /** A 20-byte Ethereum address. */
  type address = a: seq<byte> | |a| == 20 witness seq(20, _ => 0)

  /** A 32-byte ABI word, hash or key. */
  type word = w: seq<byte> | |w| == 32 witness seq(32, _ => 0)

  /** A compact Ed25519 public key, not checked to be a point. */
  type packetkey = word

  const ZERO_WORD: word := Zeros(32)

  /** A compact 64-byte signature, `r || s`. */
  type signature = s: seq<byte> | |s| == 64 witness seq(64, _ => 0)

  /** `primitive_types::U256`. */
  type u256 = v: nat |
    v < 0x1_0000000000000000_0000000000000000_0000000000000000_0000000000000000

  type u64 = v: nat | v < 0x1_0000_0000_0000_0000

  type u32 = v: nat | v < 0x1_0000_0000

  type u16 = v: nat | v < 0x1_0000

  datatype Currency = WxHOPR | XHOPR | XDai
  {
    function Name(): (s: string) {
      match this
      case WxHOPR => "wxHOPR"
      case XHOPR => "xHOPR"
      case XDai => "xDai"
    }
  }

  /** What a channel is funded with at most: ten million tokens. */
  const MAX_FUNDING_AMOUNT: nat := 10_000_000_000_000_000_000_000_000

  /** The bounds of the machine types as powers of 256. */
  lemma Widths()
    ensures Pow256(3) == 0x100_0000 && Pow256(4) == 0x1_0000_0000
    ensures Pow256(6) == 0x1_0000_0000_0000 && Pow256(8) == 0x1_0000_0000_0000_0000
    ensures Pow256(7) == 0x100_0000_0000_0000
    ensures Pow256(12) == 0x1_0000_0000_0000_0000_0000_0000
    ensures Pow256(16) == 0x1_0000000000000000_0000000000000000
    ensures Pow256(32) == 0x1_0000000000000000_0000000000000000_0000000000000000_0000000000000000
  {
    assert Pow256(4) == 0x1_0000_0000;
    Pow256Add(4, 2);
    Pow256Add(4, 3);
    Pow256Add(4, 4);
    Pow256Add(8, 4);
    Pow256Add(8, 8);
    Pow256Add(16, 16);
  }
}
