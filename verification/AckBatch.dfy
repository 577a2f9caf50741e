/**
  Verification of acknowledgements, one by one and in batches. The batch check pulls its entries
  lazily from an iterator that records what it yields, and memoizes decoded keys in eight slots.
 */
module AckBatch {
  import opened Bytes
  import opened Primitives
  import opened Wrappers

  /** A half-key and an Ed25519 signature of it. */
  type ack = a: seq<byte> | |a| == 96 witness seq(96, _ => 0)

  type VerifyingKey(==, !new)

  /** Ed25519: decoding a compact key may fail; single and batch verification. */
  datatype Ed25519 = Ed25519(
    decode: packetkey -> Option<VerifyingKey>,
    verifyStrict: (VerifyingKey, word, signature) -> bool,
    verifyBatch: (seq<word>, seq<signature>, seq<VerifyingKey>) -> bool)

  /** A batch that passes holds only valid signatures. */
  ghost predicate SoundBatch(e: Ed25519) {
    forall msgs: seq<word>, sigs: seq<signature>, keys: seq<VerifyingKey> ::
      |msgs| == |sigs| == |keys| && e.verifyBatch(msgs, sigs, keys) ==>
        forall i :: 0 <= i < |msgs| ==> e.verifyStrict(keys[i], msgs[i], sigs[i])
  }

  datatype VerifiedAck = VerifiedAck(share: word, sig: signature)

  datatype AckError = InvalidAcknowledgement

  type AckResult = Result<VerifiedAck, AckError>

  type Entry = (packetkey, ack)

  const MIN_BATCH_SIZE: nat := 4
  const MEMO_CAPACITY: nat := 8

  // ----- single acknowledgements

  function Parse(a: ack): (v: VerifiedAck) {
    VerifiedAck(a[0..32], a[32..96])
  }

  /** `leak`: back to the serializable form. */
  function Leak(v: VerifiedAck): (a: ack) {
    v.share + v.sig
  }

  predicate VerifyMessage(e: Ed25519, key: packetkey, msg: word, sig: signature) {
    e.decode(key).Some? && e.verifyStrict(e.decode(key).value, msg, sig)
  }

  function VerifyOne(e: Ed25519, entry: Entry): (r: AckResult) {
    var v := Parse(entry.1);
    if VerifyMessage(e, entry.0, v.share, v.sig) then Ok(v) else Err(InvalidAcknowledgement)
  }

  function Each(e: Ed25519, entries: seq<Entry>): (rs: seq<AckResult>)
    ensures |rs| == |entries| && forall i :: 0 <= i < |entries| ==> rs[i] == VerifyOne(e, entries[i])
  {
    seq(|entries|, i requires 0 <= i < |entries| => VerifyOne(e, entries[i]))
  }

  lemma LeakParse(a: ack)
    ensures Leak(Parse(a)) == a
  {}

  // ----- what the batch check is given

  predicate Decodes(e: Ed25519, entry: Entry) {
    e.decode(entry.0).Some?
  }

  predicate AllDecode(e: Ed25519, entries: seq<Entry>) {
    forall i :: 0 <= i < |entries| ==> Decodes(e, entries[i])
  }

  function Decoded(e: Ed25519, entries: seq<Entry>): (keys: seq<VerifyingKey>)
    requires AllDecode(e, entries)
    ensures |keys| == |entries| && forall i :: 0 <= i < |entries| ==> Some(keys[i]) == e.decode(entries[i].0)
  {
    seq(|entries|, i requires 0 <= i < |entries| => assert Decodes(e, entries[i]); e.decode(entries[i].0).value)
  }

  function Shares(entries: seq<Entry>): (msgs: seq<word>)
    ensures |msgs| == |entries| && forall i :: 0 <= i < |entries| ==> msgs[i] == Parse(entries[i].1).share
  {
    seq(|entries|, i requires 0 <= i < |entries| => Parse(entries[i].1).share)
  }

  function Signatures(entries: seq<Entry>): (sigs: seq<signature>)
    ensures |sigs| == |entries| && forall i :: 0 <= i < |entries| ==> sigs[i] == Parse(entries[i].1).sig
  {
    seq(|entries|, i requires 0 <= i < |entries| => Parse(entries[i].1).sig)
  }

  /** The batch check with every key decoded afresh. */
  predicate BatchPasses(e: Ed25519, entries: seq<Entry>) {
    AllDecode(e, entries) && e.verifyBatch(Shares(entries), Signatures(entries), Decoded(e, entries))
  }

  /** How many entries are pulled: all of them, or up to the first key that does not decode. */
  function Pulled(e: Ed25519, entries: seq<Entry>): (n: nat)
    ensures n <= |entries|
  {
    if entries == [] then 0
    else if !Decodes(e, entries[0]) then 1
    else 1 + Pulled(e, entries[1..])
  }

  function Optimistic(entries: seq<Entry>): (rs: seq<AckResult>)
    ensures |rs| == |entries| && forall i :: 0 <= i < |entries| ==> rs[i] == Ok(Parse(entries[i].1))
  {
    seq(|entries|, i requires 0 <= i < |entries| => Ok(Parse(entries[i].1)))
  }

  /** What a batch verification returns; the iterator promises at least `hint` entries. */
  function BatchResults(e: Ed25519, entries: seq<Entry>, hint: nat): (rs: seq<AckResult>)
  {
    if hint < MIN_BATCH_SIZE then Each(e, entries)
    else
      var pulled := entries[..Pulled(e, entries)];
      if BatchPasses(e, entries) then Optimistic(pulled) else Each(e, pulled)
  }

  // ----- the iterator, the memo and the fallback

  /** The filtering iterator: every entry it yields is first recorded. */
  class AckSource {
    const entries: seq<Entry>
    var pos: nat
    var keys: seq<packetkey>
    var optimistic: seq<AckResult>

    ghost predicate Valid()
      reads this
    {
      && pos <= |entries| && |keys| == pos
      && (forall i :: 0 <= i < pos ==> keys[i] == entries[i].0)
      && optimistic == Optimistic(entries[..pos])
    }

    constructor (entries: seq<Entry>)
      ensures this.entries == entries && pos == 0 && Valid()
    {
      this.entries, pos, keys, optimistic := entries, 0, [], [];
    }

    method Next() returns (entry: Option<Entry>)
      requires Valid()
      modifies this`pos, this`keys, this`optimistic
      ensures Valid()
      ensures old(pos) < |entries| ==> entry == Some(entries[old(pos)]) && pos == old(pos) + 1
      ensures old(pos) == |entries| ==> entry == None && pos == old(pos)
    {
      if pos == |entries| {
        return None;
      }
      var next := entries[pos];
      optimistic := optimistic + [Ok(Parse(next.1))];
      keys := keys + [next.0];
      pos := pos + 1;
      assert entries[..pos] == entries[..pos - 1] + [next];
      return Some(next);
    }
  }

  /** The memo: decoded keys, each with its compact form. */
  predicate Memo(e: Ed25519, seen: seq<(packetkey, VerifyingKey)>) {
    forall i :: 0 <= i < |seen| ==> e.decode(seen[i].0) == Some(seen[i].1)
  }

  method Find(e: Ed25519, seen: seq<(packetkey, VerifyingKey)>, key: packetkey) returns (found: Option<VerifyingKey>)
    requires Memo(e, seen)
    ensures found.Some? ==> found == e.decode(key)
  {
    for i := 0 to |seen| {
      if seen[i].0 == key {
        return Some(seen[i].1);
      }
    }
    return None;
  }

  /** `OffchainSignature::verify_batch`: the same answer as with every key decoded afresh, however full the memo is. */
  method VerifySignatures(e: Ed25519, source: AckSource) returns (ok: bool)
    requires source.Valid() && source.pos == 0
    modifies source
    ensures source.Valid() && source.pos == Pulled(e, source.entries)
    ensures ok <==> BatchPasses(e, source.entries)
  {
    ghost var all := source.entries;
    var msgs: seq<word>, sigs: seq<signature>, verifying: seq<VerifyingKey> := [], [], [];
    var seen: seq<(packetkey, VerifyingKey)> := [];
    while true
      invariant source.Valid() && AllDecode(e, all[..source.pos])
      invariant msgs == Shares(all[..source.pos]) && sigs == Signatures(all[..source.pos])
      invariant verifying == Decoded(e, all[..source.pos])
      invariant Memo(e, seen) && |seen| <= MEMO_CAPACITY
      invariant Pulled(e, all) == source.pos + Pulled(e, all[source.pos..])
      decreases |all| - source.pos
    {
      ghost var n := source.pos;
      var entry := source.Next();
      if entry.None? {
        break;
      }
      assert all[n..][0] == entry.value && all[n..][1..] == all[n + 1..];
      var key := entry.value.0;
      var decoded := Find(e, seen, key);
      if decoded.None? {
        decoded := e.decode(key);
        if decoded.None? {
          assert !Decodes(e, all[n]);
          return false;
        }
        if |seen| < MEMO_CAPACITY {
          seen := seen + [(key, decoded.value)];
        }
      }
      assert Decodes(e, entry.value);
      Extend(e, all, n);
      msgs := msgs + [Parse(entry.value.1).share];
      sigs := sigs + [Parse(entry.value.1).sig];
      verifying := verifying + [decoded.value];
    }
    assert all[..source.pos] == all;
    ok := e.verifyBatch(msgs, sigs, verifying);
  }

  /** One more entry extends all the lists. */
  lemma Extend(e: Ed25519, all: seq<Entry>, n: nat)
    requires n < |all| && AllDecode(e, all[..n]) && Decodes(e, all[n])
    ensures AllDecode(e, all[..n + 1])
    ensures Shares(all[..n + 1]) == Shares(all[..n]) + [Parse(all[n].1).share]
    ensures Signatures(all[..n + 1]) == Signatures(all[..n]) + [Parse(all[n].1).sig]
    ensures Decoded(e, all[..n + 1]) == Decoded(e, all[..n]) + [e.decode(all[n].0).value]
  {
    assert forall i :: 0 <= i < n ==> all[..n + 1][i] == all[..n][i];
    assert forall i :: 0 <= i < n ==> Decodes(e, all[..n][i]);
  }

  /** `Acknowledgement::verify_batch`. */
  method VerifyBatch(e: Ed25519, entries: seq<Entry>, hint: nat) returns (results: seq<AckResult>)
    ensures results == BatchResults(e, entries, hint)
  {
    results := [];
    if hint < MIN_BATCH_SIZE {
      for i := 0 to |entries|
        invariant results == Each(e, entries)[..i]
      {
        results := results + [VerifyOne(e, entries[i])];
      }
      return;
    }
    var source := new AckSource(entries);
    var passed := VerifySignatures(e, source);
    if passed {
      return source.optimistic;
    }
    var keys, optimistic := source.keys, source.optimistic;
    ghost var pulled := entries[..source.pos];
    assert |keys| == |optimistic| == |pulled|;
    for i := 0 to |keys|
      invariant results == Each(e, pulled)[..i]
    {
      if optimistic[i].Ok? {
        LeakParse(entries[i].1);
        assert (keys[i], Leak(optimistic[i].value)) == pulled[i];
        results := results + [VerifyOne(e, (keys[i], Leak(optimistic[i].value)))];
      }
    }
  }

  // ----- batch against single verification

  lemma {:induction false} PulledIsFirstBad(e: Ed25519, entries: seq<Entry>)
    ensures forall i :: 0 <= i < Pulled(e, entries) - 1 ==> Decodes(e, entries[i])
    ensures Pulled(e, entries) < |entries| ==>
              Pulled(e, entries) > 0 && !Decodes(e, entries[Pulled(e, entries) - 1])
  {
    if entries != [] && Decodes(e, entries[0]) {
      PulledIsFirstBad(e, entries[1..]);
      assert forall i :: 0 < i < |entries| ==> entries[i] == entries[1..][i - 1];
    }
  }

  /**
    A batch verification returns what single verification returns, in the same order, for every
    entry it has pulled: for all of a small batch, otherwise up to the first key off the curve.
   */
  lemma BatchIsPrefixOfEach(e: Ed25519, entries: seq<Entry>, hint: nat)
    requires SoundBatch(e)
    ensures BatchResults(e, entries, hint) ==
            Each(e, if hint < 4 then entries else entries[..Pulled(e, entries)])
  {
    if hint >= 4 && BatchPasses(e, entries) {
      var pulled := entries[..Pulled(e, entries)];
      AllPulled(e, entries);
      assert pulled == entries;
      forall i | 0 <= i < |entries| ensures Optimistic(entries)[i] == Each(e, entries)[i] {
        assert Decodes(e, entries[i]);
        assert e.verifyStrict(Decoded(e, entries)[i], Shares(entries)[i], Signatures(entries)[i]);
      }
    }
  }

  lemma {:induction false} AllPulled(e: Ed25519, entries: seq<Entry>)
    requires AllDecode(e, entries)
    ensures Pulled(e, entries) == |entries|
  {
    PulledIsFirstBad(e, entries);
  }

  /**
    The results are those of single verification, complete and in order, if and only if the batch is
    small or no key before the last entry is off the curve.
   */
  lemma BatchIffKeysDecode(e: Ed25519, entries: seq<Entry>, hint: nat)
    requires SoundBatch(e)
    ensures BatchResults(e, entries, hint) == Each(e, entries) <==>
            hint < 4 || forall i :: 0 <= i < |entries| - 1 ==> Decodes(e, entries[i])
  {
    BatchIsPrefixOfEach(e, entries, hint);
    PulledIsFirstBad(e, entries);
    var n := Pulled(e, entries);
    assert n == |entries| ==> entries[..n] == entries;
    assert |Each(e, entries[..n])| == n && |Each(e, entries)| == |entries|;
  }

  /** Four valid acknowledgements behind one whose key is off the curve: only the first result is returned. */
  lemma BadKeyHidesTheRest(e: Ed25519, bad: Entry, good: Entry)
    requires SoundBatch(e) && !Decodes(e, bad) && VerifyOne(e, good).Ok?
    ensures var entries := [bad, good, good, good, good];
            && BatchResults(e, entries, 5) == [Err(InvalidAcknowledgement)]
            && Each(e, entries)[4] == Ok(Parse(good.1))
  {
    var entries := [bad, good, good, good, good];
    BatchIsPrefixOfEach(e, entries, 5);
    assert entries[..1] == [bad];
    assert Each(e, [bad]) == [VerifyOne(e, bad)];
  }

  // ----- what is accepted

  /** The key decodes, and it has signed the half-key of the acknowledgement. */
  ghost predicate Genuine(e: Ed25519, key: packetkey, a: ack) {
    exists vk: VerifyingKey :: e.decode(key) == Some(vk) && e.verifyStrict(vk, a[..32], a[32..])
  }

  /** Single verification accepts exactly the genuine acknowledgements, and returns half-key and signature. */
  lemma AcceptsGenuine(e: Ed25519, key: packetkey, a: ack)
    ensures VerifyOne(e, (key, a)) ==
            if Genuine(e, key, a) then Ok(VerifiedAck(a[..32], a[32..])) else Err(InvalidAcknowledgement)
  {
    var v := Parse(a);
    assert v.share == a[..32] && v.sig == a[32..];
    if e.decode(key).Some? && e.verifyStrict(e.decode(key).value, a[..32], a[32..]) {
      assert Genuine(e, key, a);
    }
  }

  /**
    Every result of a batch is about the entry at its place: `Ok` with that entry's half-key and
    signature exactly if the entry is genuine. No batch accepts a bad signature or a key off the curve.
   */
  lemma BatchAcceptsGenuine(e: Ed25519, entries: seq<Entry>, hint: nat, i: nat)
    requires SoundBatch(e) && i < |BatchResults(e, entries, hint)|
    ensures i < |entries|
    ensures var (key, a) := entries[i];
            BatchResults(e, entries, hint)[i] ==
            if Genuine(e, key, a) then Ok(VerifiedAck(a[..32], a[32..])) else Err(InvalidAcknowledgement)
  {
    BatchIsPrefixOfEach(e, entries, hint);
    hide BatchResults, VerifyOne, Genuine;
    AcceptsGenuine(e, entries[i].0, entries[i].1);
  }
}
