/**
  What the hash of a ticket commits to: the layout the contract hashes, that no other ticket, issuer
  or separator has the same hash for every digest, and what a signature and a draw are therefore about.
 */
module Binding {
  import opened Bytes
  import opened Primitives
  import opened Tickets
  import opened TicketStates
  import opened Wrappers
  import Payload
  import V = Vrf

  // ----- the layout

  /** The 80 bytes of a ticket in a channel, read field by field. */
  predicate IsTicketData(s: seq<byte>, channelId: word, t: Ticket) {
    && |s| == 80 && s[..32] == channelId
    && FromBE(s[32..44]) == t.amount && FromBE(s[44..50]) == t.index && FromBE(s[50..53]) == t.channelEpoch
    && s[53..60] == t.encodedWinProb && s[60..] == t.challenge
  }

  lemma DataOfTicket(s: seq<byte>, keccak: Digest, t: Ticket, issuer: address)
    requires BuilderValid(t) && IsTicketData(s, ChannelId(keccak, issuer, t.counterparty), t)
    ensures s == ForSigning(keccak, t, issuer)
  {
    WrittenBack(s[32..44], 32);
    WrittenBack(s[44..50], 8);
    WrittenBack(s[50..53], 4);
    hide FromBE, ToBE, ChannelId;
    assert s == s[..32] + (s[32..44] + s[44..50] + s[50..53] + s[53..60] + s[60..]);
  }

  /**
    The hash as a contract computes it from the fields: Keccak of the prefix 0x1901, the domain
    separator and the Keccak of the redemption selector behind which, in the second word, stands the
    Keccak of the 80 bytes of the ticket in the channel of issuer and counterparty.
   */
  lemma HashOfFields(keccak: Digest, t: Ticket, issuer: address, dst: word, pair: seq<byte>, data: seq<byte>,
                     call: seq<byte>, typed: seq<byte>)
    requires BuilderValid(t)
    requires |pair| == 40 && pair[..20] == issuer && pair[20..] == t.counterparty
    requires IsTicketData(data, keccak(pair), t)
    requires |call| == 64 && call[..4] == Payload.REDEEM_TICKET
    requires call[4..32] == Zeros(28) && call[32..] == keccak(data)
    requires |typed| == 66 && typed[..2] == [0x19, 0x01] && typed[2..34] == dst && typed[34..] == keccak(call)
    ensures GetHash(keccak, t, issuer, dst) == (keccak(pair), keccak(typed))
  {
    assert pair == issuer + t.counterparty;
    DataOfTicket(data, keccak, t, issuer);
    hide ForSigning;
    assert call == REDEEM_CALL_SELECTOR + Zeros(28) + keccak(data) by {
      assert call == call[..4] + call[4..32] + call[32..];
    }
    assert typed == [0x19, 0x01] + dst + keccak(call) by {
      assert typed == typed[..2] + typed[2..34] + typed[34..];
    }
  }

  // ----- nothing else has the same hash

  /** Two tickets, to be hashed for an issuer under a separator, that are the same up to the signature. */
  predicate Alike(t: Ticket, i: address, d: word, u: Ticket, j: address, e: word) {
    t.(signature := None) == u.(signature := None) && i == j && d == e
  }

  function Mark(yes: bool): (w: word) {
    Zeros(31) + [if yes then 1 else 0]
  }

  lemma MarksDiffer()
    ensures Mark(true) != Mark(false)
  {
    assert Mark(true)[31] != Mark(false)[31];
  }

  /** A digest that tells one pair of accounts, one ticket tail and one separator from all others. */
  function Marking(pair: seq<byte>, tail: seq<byte>, dst: word): (keccak: Digest) {
    x => Mark(if |x| == 40 then x == pair
              else if |x| == 80 then x[..32] == Mark(true) && x[32..] == tail
              else if |x| == 64 then x[32..] == Mark(true)
              else |x| == 66 && x[2..34] == dst && x[34..] == Mark(true))
  }

  lemma MarkedHash(pair: seq<byte>, tail: seq<byte>, dst: word, u: Ticket, j: address, e: word)
    ensures GetHash(Marking(pair, tail, dst), u, j, e).1
         == Mark(j + u.counterparty == pair && Tail(u) == tail && e == dst)
  {
    hide Mark, Tail;
    MarksDiffer();
    var keccak := Marking(pair, tail, dst);
    var channelId := ChannelId(keccak, j, u.counterparty);
    assert channelId == Mark(j + u.counterparty == pair);
    var data := ForSigning(keccak, u, j);
    assert data[..32] == channelId && data[32..] == Tail(u);
    assert keccak(data) == Mark(j + u.counterparty == pair && Tail(u) == tail);
    var call := REDEEM_CALL_SELECTOR + Zeros(28) + keccak(data);
    assert |call| == 64 && call[32..] == keccak(data);
    var typed := [0x19, 0x01] + e + keccak(call);
    assert |typed| == 66 && typed[2..34] == e && typed[34..] == keccak(call);
  }

  /** The tail of a ticket in range determines all its fields but counterparty and signature. */
  lemma TailDetermines(t: Ticket, u: Ticket)
    requires BuilderValid(t) && BuilderValid(u) && Tail(t) == Tail(u) && t.counterparty == u.counterparty
    ensures t.(signature := None) == u.(signature := None)
  {
    hide FromBE, ToBE, Tail;
    TailLayout(t);
    TailLayout(u);
    FieldsSurvive(t);
    FieldsSurvive(u);
  }

  lemma PairDetermines(i: address, a: address, j: address, b: address)
    ensures i + a == j + b <==> i == j && a == b
  {
    assert (i + a)[..20] == i && (i + a)[20..] == a;
    assert (j + b)[..20] == j && (j + b)[20..] == b;
  }

  /**
    The hash binds every field of a ticket in range, the issuer and the separator: two of these have
    the same hash under every digest if and only if they are the same up to the signature.
   */
  lemma HashBinds(t: Ticket, i: address, d: word, u: Ticket, j: address, e: word)
    requires BuilderValid(t) && BuilderValid(u)
    ensures (forall keccak: Digest :: GetHash(keccak, t, i, d).1 == GetHash(keccak, u, j, e).1) <==>
            Alike(t, i, d, u, j, e)
  {
    if Alike(t, i, d, u, j, e) {
      forall keccak: Digest ensures GetHash(keccak, t, i, d).1 == GetHash(keccak, u, j, e).1 {
        SignatureNotHashed(keccak, t, None, i, d);
        SignatureNotHashed(keccak, u, None, j, e);
      }
    } else {
      var keccak := Marking(i + t.counterparty, Tail(t), d);
      MarkedHash(i + t.counterparty, Tail(t), d, t, i, d);
      MarkedHash(i + t.counterparty, Tail(t), d, u, j, e);
      PairDetermines(i, t.counterparty, j, u.counterparty);
      if Tail(t) == Tail(u) && t.counterparty == u.counterparty {
        TailDetermines(t, u);
      }
      MarksDiffer();
      hide Tail, Marking, Mark, GetHash;
      assert GetHash(keccak, t, i, d).1 != GetHash(keccak, u, j, e).1;
    }
  }

  /** A channel is the pair of its accounts, in order. */
  lemma ChannelBinds(a: address, b: address, i: address, j: address)
    ensures (forall keccak: Digest :: ChannelId(keccak, a, b) == ChannelId(keccak, i, j)) <==> a == i && b == j
  {
    PairDetermines(a, b, i, j);
    if a != i || b != j {
      var keccak := Marking(a + b, [], ZERO_WORD);
      MarksDiffer();
      hide Mark;
      assert ChannelId(keccak, a, b) != ChannelId(keccak, i, j);
    }
  }

  // ----- one signature for two tickets

  /** The four strings hashed on the way to a ticket's hash. */
  function Hashed(keccak: Digest, t: Ticket, issuer: address, dst: word): (strings: seq<seq<byte>>) {
    var data := ForSigning(keccak, t, issuer);
    var call := REDEEM_CALL_SELECTOR + Zeros(28) + keccak(data);
    [issuer + t.counterparty, data, call, [0x19, 0x01] + dst + keccak(call)]
  }

  predicate Collide(keccak: Digest, x: seq<byte>, y: seq<byte>) {
    x != y && keccak(x) == keccak(y)
  }

  /** Whatever the digest is, two different tickets with one hash exhibit a collision of it. */
  lemma SameHashCollides(keccak: Digest, t: Ticket, i: address, d: word, u: Ticket, j: address, e: word)
    returns (n: nat)
    requires BuilderValid(t) && BuilderValid(u) && !Alike(t, i, d, u, j, e)
    requires GetHash(keccak, t, i, d).1 == GetHash(keccak, u, j, e).1
    ensures n < 4
    ensures Collide(keccak, Hashed(keccak, t, i, d)[n], Hashed(keccak, u, j, e)[n])
  {
    var (x, y) := (Hashed(keccak, t, i, d), Hashed(keccak, u, j, e));
    hide ForSigning;
    assert x[3][2..34] == d && y[3][2..34] == e && x[3][34..] == keccak(x[2]) && y[3][34..] == keccak(y[2]);
    assert x[2][32..] == keccak(x[1]) && y[2][32..] == keccak(y[1]);
    if x[3] != y[3] {
      n := 3;
    } else if x[2] != y[2] {
      n := 2;
    } else if x[1] != y[1] {
      n := 1;
    } else {
      n := 0;
      DataDetermines(keccak, t, i, u, j);
      PairDetermines(i, t.counterparty, j, u.counterparty);
      if x[0] == y[0] {
        TailDetermines(t, u);
      }
    }
  }

  lemma DataDetermines(keccak: Digest, t: Ticket, i: address, u: Ticket, j: address)
    requires ForSigning(keccak, t, i) == ForSigning(keccak, u, j)
    ensures Tail(t) == Tail(u) && keccak(i + t.counterparty) == keccak(j + u.counterparty)
  {
    hide Tail;
    assert ForSigning(keccak, t, i)[32..] == Tail(t) && ForSigning(keccak, u, j)[32..] == Tail(u);
    assert ForSigning(keccak, t, i)[..32] == ForSigning(keccak, u, j)[..32];
  }

  /**
    One signature accepted for two different tickets, or under two separators, recovers the issuer
    for two different hashes, or the digest has a collision among the strings hashed for them.
   */
  lemma SignatureBinds(c: Crypto, t: Ticket, d: word, u: Ticket, e: word, issuer: address)
    requires BuilderValid(t) && BuilderValid(u) && !Alike(t, issuer, d, u, issuer, e) && t.signature == u.signature
    requires Verify(c, t, issuer, d).Some? && Verify(c, u, issuer, e).Some?
    ensures var (h, k) := (GetHash(c.keccak, t, issuer, d).1, GetHash(c.keccak, u, issuer, e).1);
            && RecoverFromHash(c, t.signature.value, h) == RecoverFromHash(c, t.signature.value, k) == Some(issuer)
            && (h != k || exists n :: 0 <= n < 4 &&
                                      Collide(c.keccak, Hashed(c.keccak, t, issuer, d)[n],
                                              Hashed(c.keccak, u, issuer, e)[n]))
  {
    if GetHash(c.keccak, t, issuer, d).1 == GetHash(c.keccak, u, issuer, e).1 {
      var n := SameHashCollides(c.keccak, t, issuer, d, u, issuer, e);
    }
    hide GetHash, RecoverFromHash, Hashed;
  }

  // ----- the draw

  /**
    A ticket wins exactly when the first seven bytes of the digest of its hash, the two coordinates
    of V, the response and the signature, in this order, are at most its winning probability.
   */
  lemma DrawOfTicket(c: Crypto, v: VerifiedTicket, response: word, proof: V.Proof, drawn: seq<byte>)
    requires v.ticket.signature.Some?
    requires var n := |c.hashes.coordinates(proof.V)|;
             && |drawn| == 32 + n + 32 + 64 && drawn[..32] == v.hash
             && drawn[32..32 + n] == c.hashes.coordinates(proof.V)
             && drawn[32 + n..64 + n] == response && drawn[64 + n..] == v.ticket.signature.value
    ensures TicketWins(c, v, response, proof) <==> FromBE(c.keccak(drawn)[..7]) <= FromBE(v.ticket.encodedWinProb)
  {
    var n := |c.hashes.coordinates(proof.V)|;
    assert drawn == drawn[..32] + drawn[32..32 + n] + drawn[32 + n..64 + n] + drawn[64 + n..];
    Widths();
    hide FromBE;
  }
}
