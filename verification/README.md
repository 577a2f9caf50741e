# A verified model of the HOPR node types

This project models, in Dafny, the parts of the HOPR types library in which bytes, money or shared
state can go wrong, and proves what the library promises about them.

* **Transactions** (`Abi`, `MultiSend`, `Payload`, `Contracts`, `Execution`, `Parser`,
  `ParserProofs`, `ParserSound`, `Rlp`, `Envelope`, `EndToEnd`): node actions are compiled to ABI
  call data, directly or through a Safe module, and signed into an EIP-1559 envelope; the parser
  reads them back. The main results say what the chain executes for every generated request, exactly
  for which actions the parser inverts the generators, from the action to the signed bytes and back,
  and exactly for which transactions, generated or not, the parser reports which action.
* **Tickets** (`Tickets`, `TicketStates`, `Binding`, `Redemption`, `WinProb`, `ProofOfRelay`, `Vrf`,
  `Groups`): the 132-byte wire form, the signed bytes and the redemption words; what the hash of a
  ticket commits to; winning probabilities in 56 bits; the challenge and response algebra; the VRF
  proof over any group of prime order, complete and sound; the state machine from received to
  redeemed, with what holds of every ticket after any sequence of steps; and the proof's points and
  scalars in the words of the redemption call.
* **Telemetry** (`Schedules`, `Gauges`, `MultiGauges`, `MetricRouter`): gauges updated by any number
  of threads in separate atomic steps, guards, and the list of providers searched for the longest
  prefix.
* **Arithmetic** (`NumberTheory`, `Bn254`, `FloatOps`): point compression over an odd prime field,
  and `U256` scaled by a double through the bits of a rounded sum.
* **Fast against simple** (`Lioness`, `Paths`, `AckBatch`): a wide-block cipher in place or between
  buffers, path validation against a declarative definition, batch against single verification.
* **Text** (`Ascii`, `Balances`, `HexText`): printed balances, hexadecimal text and EIP-55.

`Arithmetic`, `Bytes`, `Primitives` and `Wrappers` hold what the others share.

Hashes, ciphers, curves and signature schemes are function values with explicitly stated laws, so
every result holds for all of them. `hide` statements in proofs only keep definitions the proof does
not need away from the solver.

## Where the code and its promises differ

Each of these is proved, with the exact condition under which the promise holds.

* The parser is called the inverse of the generators. It is, exactly when `Parser.ReadBack` holds:
  among others the funded amount must be below 2^96 (the Basic generator drops the rest), a native
  amount must not be zero, a native destination of the Basic generator must be neither a contract
  nor the module, an ERC-777 recipient must not be the announcements contract, and an announced
  address must not have an empty text. A Safe deployment is read as a token withdrawal.
* `r` and `s` are written with all their 32 bytes, so a strict decoder of the signed envelope
  rejects a signature with a leading zero byte, and one whose recovery id is above one
  (`Envelope.SignedRoundTrip`; `EndToEnd.LeadingZeroIsLost` names a request and a signature).
* Batch verification of acknowledgements returns too few results when a key is off the curve: the
  batch check stops pulling from the iterator that records the entries
  (`AckBatch.BatchIffKeysDecode`).
* `mul_f64` gives zero for factors that round to one or to one unit (2^-52) below one, as the
  mantissa wraps, and panics where the product by units exceeds 256 bits; in all other cases the
  product is close to the exact one (`FloatOps.MulIsClose`).
* `div_f64` panics on factors that round to zero or one (`FloatOps.DivPanics`), divides only the low
  204 bits of the dividend, and so is exact division by the units if and only if the dividend is
  below 2^204 (`FloatOps.DivExact`). It is said to refuse every factor outside (0, 1] and does not
  refuse a NaN, by whose mantissa bits it divides (`FloatOps.RefusedFactors`, `FloatOps.NanDivides`).
* A recovery id of two or three keeps only its parity, so recovery can find another signer first.
  Every signed ticket of a run can be trusted if and only if no signature of the run is of this kind
  (`TicketStates.SignedRecovers`, `TicketStates.RunKeepsSound`).
* Taking a transferable ticket back is to give a ticket that can be redeemed. It checks the V of its
  proof through the win, but not the proof itself: the ticket carries a verifying proof if and only
  if the one received verifies for its hash (`TicketStates.TakenBackProof`, and over whole runs
  `TicketStates.RunKeepsProofs`); `TicketStates.FalseProofTakenBack` names one that does not.
* The two paths of `from_hex` differ on a text with two `0x` prefixes: the heap path, from 128 bytes
  on, reads the value behind them, the stack path refuses it (`HexText.PathsAgree`,
  `HexText.DoubledPrefix`).
* The bytes of an accepted VRF proof are the bytes the proof is written to if and only if both
  points carry a tag of the compressed form; the decoding library reads another one too
  (`Vrf.BytesCanonical`).
* `NEVER` still lets one of the 2^56 draws win (`WinProb.WinningDrawsCount`).
* An accepted compressed BN254 key re-encodes to itself except for a y of zero with the sign bit set,
  which the curve itself rules out (`Bn254.CompressDecompress`).

## Model

| member | source | states |
|---|---|---|
| `Abi.AbiDynTail` | src/chain/payload/static_based.rs:110-117 | the growing buffer is the length word, the bytes and zeros up to a multiple of 32 |
| `Abi.DynTailPads` | src/chain/payload/static_based.rs:110-117 | behind the data stand zeros only, as few as fill the last word |
| `Abi.EncodeStaticCall` | src/chain/payload/static_based.rs:120-127 | the buffer grown word by word is the selector followed by all words |
| `Abi.EncodeCallWithBytes` | src/chain/payload/static_based.rs:131-143 | the buffer is selector, static words, the offset behind them and the dynamic tail |
| `Abi.RightAlignPads` | src/chain/payload/static_based.rs:88-91 | a short value stands at the end of its word behind zeros, and is read back from there |
| `Abi.TruncatedWordValue` | src/chain/payload/static_based.rs:100-103 | a truncated word reads as the value modulo the kept width |
| `Abi.DynTailRead` | src/chain/payload/static_based.rs:105-117 | bytes of any length are found again behind the offset that points at them |
| `Abi.StaticCallArgs` | src/chain/payload/static_based.rs:120-127 | an ABI reader finds each word of a static call in its slot |
| `Abi.CallWithBytesArgs` | src/chain/payload/static_based.rs:131-143 | an ABI reader finds each word and exactly the bytes of a call with one dynamic argument |
| `MultiSend.EncodeMultiSendTransaction` | src/chain/payload/static_based.rs:235-245 | the buffer decodes to one call with operation 0, the target, value zero and exactly the data |
| `MultiSend.DecodeEncodeCalls` | src/chain/payload/static_based.rs:235-245 | a packed body of any number of calls with any data lengths decodes to exactly those calls |
| `Payload.EncodeExecFromModuleWithOperation` | src/chain/payload/static_based.rs:191-208 | the grown buffer is the module call with its offset word and tail |
| `Payload.ExecRoundTrip` | src/chain/payload/static_based.rs:191-213 | target, value, data of any length and operation of a module call are all read back |
| `Payload.EncodePaidServiceRegistryPayload` | src/chain/payload/static_based.rs:247-261 | the payload grown step by step is one delegate call of MultiSend with the burn approval, if any, and the write |
| `Payload.PaidServiceRegistryBundle` | src/chain/payload/static_based.rs:247-261 | the payload executes the write as its last call, plain and without value, and with a burn exactly one call before it: a plain call of the token that an ABI reader reads as approve(registry, burn) |
| `Payload.EncodeKeyBindAnnounceBody` | src/chain/payload/static_based.rs:446-466 | the announcement body is the caller, both signature halves, the key, the offset and the text |
| `Payload.EncodeUserDataBody` | src/chain/payload/static_based.rs:468-487 | the deployment body is its five words and one word per admin, in order |
| `Payload.UserDataReadBack` | src/chain/payload/static_based.rs:468-487 | an ABI reader finds identifier, nonce, target and exactly the list of admins, of any length and in order, behind the offset 128 |
| `Execution.GeneratedPerforms` | src/chain/payload/static_based.rs:656-1078 | for every action and generator the chain executes one plain call of the right contract from the right account, in which the contract reads every argument of the action; native value moves for native transfers only, a paid write is led by its approval, and the gas limit is the default one of a Safe |
| `Execution.GenerateRefuses` | src/chain/payload/static_based.rs:656-1078 | exactly which actions each generator refuses, and with which of the two errors |
| `ParserProofs.ApproveParsed` | src/chain/parser.rs:323-334 | an approval is read with its spender, its amount and its payer |
| `ParserProofs.TransferParsed` | src/chain/parser.rs:335-348 | a token transfer is read with its recipient, its amount and its payer |
| `ParserProofs.SendParsed` | src/chain/parser.rs:281-321 | an ERC-777 send is a withdrawal, unless the announcements contract receives it |
| `ParserProofs.AnnouncementParsed` | src/chain/parser.rs:282-309 | key and text of an announcement survive the re-added offset; an empty text is read as no address |
| `ParserProofs.FundParsed` | src/chain/parser.rs:158-167 | funding is read with its account and the amount modulo 2^96, through the module or not |
| `ParserProofs.InitiateParsed` | src/chain/parser.rs:168-178 | an initiated closure is read as the channel from the signer |
| `ParserProofs.FinalizeParsed` | src/chain/parser.rs:179-189 | a finalized closure is read as the channel from the signer |
| `ParserProofs.IncomingParsed` | src/chain/parser.rs:190-199 | an incoming closure is read as the channel towards the signer |
| `ParserProofs.RedeemParsed` | src/chain/parser.rs:200-219 | a redemption is read with its channel, index and amount at their on-chain widths |
| `ParserProofs.Unwrapped` | src/chain/parser.rs:109-148 | behind target and module the parser sees the call the generator wrapped |
| `ParserProofs.NativeTransfer` | src/chain/parser.rs:109-147 | a native transfer is read back exactly when the amount is positive and, for the Basic generator, the destination is no contract and not the module |
| `ParserProofs.ParseInvertsGenerate` | src/chain/parser.rs:43-353 | for every action, payload length and generator: the request is read back as that action, amount, channel and payer if and only if `ReadBack` holds |
| `ParserProofs.DeploymentLooksLikeWithdrawal` | src/chain/parser.rs:280-321 | a Safe deployment is read as a token withdrawal to the stake factory |
| `ParserProofs.ServiceWritesRejected` | src/chain/parser.rs:149-353 | registry writes and deregistrations are never read as another action |
| `ParserSound.ParseReads` | src/chain/parser.rs:86-353 | for every transaction, generated or not, the parser reports an action if and only if the call made, directly or through the module, is read by its contract as that action, or moves native value |
| `Rlp.DecodeEncode` | src/chain/payload/static_based.rs:591-638 | every RLP item of any depth and length decodes to itself and consumes exactly its bytes |
| `Rlp.EncodeDecode` | src/chain/payload/static_based.rs:591-638 | what a strict decoder accepts is the encoding of what it returns |
| `Rlp.EncodeInjective` | src/chain/payload/static_based.rs:591-638 | two items never share an encoding |
| `Envelope.BuildStream` | src/chain/payload/static_based.rs:591-609 | the stream appended field by field holds the nine fields, and the three of a signature, in EIP-1559 order |
| `Envelope.SignAndEncodeToEip2718` | src/chain/payload/static_based.rs:574-637 | the output is the envelope of the request with the signature over the hash of its signing payload, with default gas where none is given |
| `Envelope.TrimIsMinimal` | src/chain/payload/static_based.rs:30-33 | trimming leading zeros gives the minimal big-endian form of the same number |
| `Envelope.SigningPayloadRoundTrip` | src/chain/payload/static_based.rs:591-615 | a strict decoder recovers chain id, nonce, fees, gas, target, value and input of any length from the signing payload |
| `Envelope.SigningPayloadInjective` | src/chain/payload/static_based.rs:591-615 | requests that differ in a field never share a signing payload |
| `Envelope.SignedRoundTrip` | src/chain/payload/static_based.rs:591-638 | a signed envelope is accepted exactly when recovery id and leading bytes of r and s are canonical, and then gives back all fields and the signature |
| `Envelope.RecoveryPayload` | src/chain/parser.rs:86-102 | whatever a signed envelope holds, the payload its signer is recovered from is the list of exactly its first nine items, access list included |
| `EndToEnd.ParseInvertsSign` | src/chain/parser.rs:86-353 | generate, sign, decode, recover the signer and parse gives back the action if and only if the signature is canonical and `ReadBack` holds |
| `EndToEnd.LeadingZeroIsLost` | src/chain/payload/static_based.rs:602-606 | the registration of any safe signed with an r that starts with a zero byte is refused, while the same request with another r is read back |
| `Tickets.BuilderRoundTrip` | src/internal/tickets.rs:453-499 | the tickets that some builder, however it was filled, yields are exactly those with amount, index and epoch in range, and exactly these are rebuilt from themselves |
| `Tickets.BuilderYields` | src/internal/tickets.rs:453-499 | a builder yields a ticket if and only if it is complete with one amount, its fields are those of the ticket and these are in range |
| `Tickets.EncodeTailWithoutSignature` | src/internal/tickets.rs:620-641 | the buffer filled at a moving offset is amount, index, epoch, probability and challenge at their wire widths |
| `Tickets.EncodeForTransfer` | src/internal/tickets.rs:643-652 | the buffer is the counterparty and the tail |
| `Tickets.EncodeForSigning` | src/internal/tickets.rs:654-667 | the buffer is the channel of issuer and counterparty and the tail |
| `Tickets.IntoBytes` | src/internal/tickets.rs:740-754 | the 132 bytes are counterparty, tail and signature |
| `Tickets.DecodeAccepts` | src/internal/tickets.rs:756-802 | exactly the strings of 132 bytes with an amount in range are accepted, and give a signed ticket in range |
| `Tickets.DecodeEncode` | src/internal/tickets.rs:740-802 | a signed ticket comes back from its bytes if and only if its fields are in range |
| `Tickets.EncodeDecode` | src/internal/tickets.rs:740-802 | every accepted byte string re-encodes to itself |
| `Tickets.RedeemCarriesSignedBytes` | src/chain/payload/static_based.rs:339-377 | the five ticket words of the redemption carry exactly the first 60 signed bytes behind zeros |
| `Tickets.RedeemWordsValues` | src/chain/payload/static_based.rs:339-377 | the contract reads back every field, the signature and the response of a ticket in range |
| `Gauges.StepKeepsInvariant` | src/telemetry/metrics.rs:179-197 | every atomic step keeps the totals balanced, each call accounted for once, and the shadow equal to the replay of its log |
| `Gauges.TotalsAgreeUpToPending` | src/telemetry/metrics.rs:325-340 | at every moment of every run exporter plus pending exporter amounts equals shadow plus pending shadow amounts |
| `Gauges.NoUpdateLost` | src/telemetry/metrics.rs:325-340 | at rest both totals are the replay of exactly the issued effects, and the sum of all amounts if nothing was set |
| `Gauges.FailedExchangeWasOvertaken` | src/telemetry/metrics.rs:179-197 | an exchange that finds the shadow changed was overtaken by another call since its load |
| `Gauges.ReachedKeepsInvariant` | src/telemetry/metrics.rs:325-340 | whatever is reached by calls among other threads keeps the invariant of every run |
| `Gauges.SimpleGauge.Step` | src/telemetry/metrics.rs:174-197 | one atomic step in place does what the state machine says and nothing else |
| `Gauges.SimpleGauge.FetchAdd` | src/telemetry/metrics.rs:179-197 | whatever other threads do, the loop ends with the amount added last and returns the resulting value |
| `Gauges.SimpleGauge.Increment` | src/telemetry/metrics.rs:325-328 | an increment among any other threads is a run of the machine that ends with its amount taken; alone it raises both totals |
| `Gauges.SimpleGauge.Decrement` | src/telemetry/metrics.rs:331-334 | as an increment by the negated amount |
| `Gauges.SimpleGauge.Set` | src/telemetry/metrics.rs:337-340 | whatever other threads do, the shadow takes the value after the call was made and the log only grows; alone it stores the value and corrects the exporter by the difference |
| `Gauges.GuardsHoldTheGauge` | src/telemetry/guard.rs:11-22 | a gauge driven only by guards stands at its start plus the live guards' amounts whenever no call is in flight |
| `Gauges.GaugeGuard.constructor` | src/telemetry/guard.rs:12-15 | creating a guard increments the gauge by its amount among any other threads |
| `Gauges.GaugeGuard.Drop` | src/telemetry/guard.rs:18-22 | dropping a guard takes its amount back |
| `MultiGauges.RunRefines` | src/telemetry/metrics.rs:389-436 | any run of the labelled gauge is, seen through any one key, a run of a simple gauge |
| `MultiGauges.StepWellFormed` | src/telemetry/metrics.rs:389-400 | a thread past `ensure_shadow` always finds its entry; entries are made on first use and never reset |
| `MultiGauges.TotalsAgreeUpToPending` | src/telemetry/metrics.rs:403-436 | per key, both totals agree up to what the key's calls in flight still owe |
| `MultiGauges.NoUpdateLost` | src/telemetry/metrics.rs:403-444 | per key, at rest both totals are the replay of exactly the key's effects, and get finds a value exactly for called keys |
| `MultiGauges.GuardsHoldTheKey` | src/telemetry/guard.rs:27-45 | per key, at rest the gauge stands at the sum of the key's live guards |
| `MultiGauges.MultiGauge.Step` | src/telemetry/metrics.rs:389-436 | one atomic step in place does what the state machine says |
| `MultiGauges.MultiGauge.Increment` | src/telemetry/metrics.rs:403-412 | an increment among any other threads, entry races included, ends with its amount taken last by the key |
| `MultiGauges.MultiGauge.Decrement` | src/telemetry/metrics.rs:415-424 | as an increment by the negated amount |
| `MultiGauges.MultiGauge.Set` | src/telemetry/metrics.rs:427-436 | whatever other threads do, it finds or makes its entry and the key's shadow takes the value after the call was made; alone it stores the value and corrects the exporter by the difference |
| `MetricRouter.SortIsStable` | src/telemetry/metrics.rs:111-115 | the sort orders by falling prefix length and keeps entries of equal length in their order |
| `MetricRouter.RegisterKeepsOrder` | src/telemetry/metrics.rs:86-117 | a registration keeps prefixes distinct, non-empty and falling in length, and changes the provider of its own prefix only |
| `MetricRouter.HistoryKeepsOrder` | src/telemetry/metrics.rs:70-117 | after any operations the list is ordered and holds exactly the latest provider of each prefix registered since setup |
| `MetricRouter.LongestPrefixWins` | src/telemetry/metrics.rs:83-131 | after any operations a name is served by the latest provider of its longest registered prefix, else by the default |
| `MetricRouter.Registry.RegisterPrefixProvider` | src/telemetry/metrics.rs:86-117 | the in-place search, replacement or push and sort is the registration step; empty prefixes and an unset state are refused |
| `MetricRouter.Registry.InitWithProvider` | src/telemetry/metrics.rs:70-81 | the provider is set only if the state is not set up yet |
| `MetricRouter.Registry.MeterForMetric` | src/telemetry/metrics.rs:119-131 | the search from the front serves the name as specified, setting up the state on first use |
| `Bn254.ToBytes` | src/crypto/types.rs:1024-1042 | the buffer with its sign bit is the compressed point |
| `Bn254.CanonicalIsReduced` | src/crypto/types.rs:797-802 | exactly the fully reduced field elements are accepted, with their value |
| `Bn254.DecompressAccepts` | src/crypto/types.rs:807-829 | exactly the strings whose masked x is reduced and on the curve are accepted |
| `Bn254.DecompressedPoint` | src/crypto/types.rs:807-829 | the point has the x of the string, lies on the curve, and its y has the parity the sign bit says unless y is zero |
| `Bn254.DecompressCompress` | src/crypto/types.rs:807-829 | every curve point survives compression, for any odd prime and any correct square root |
| `Bn254.CompressDecompress` | src/crypto/types.rs:807-829 | an accepted string re-encodes to itself if and only if y is not zero or its sign bit is clear |
| `Bn254.SignBitOfZeroIsLost` | src/crypto/types.rs:815-824 | over the field of five elements a string with the sign bit set on a zero y is accepted but not re-encoded to itself |
| `Bn254.LawsHoldForSeven` | src/crypto/types.rs:788-829 | an odd prime, a square root and a curve point meet all the laws the results rely on |
| `Bn254.CompressionIsBijective` | src/crypto/types.rs:831-846 | where x^3 + 3 has no root, accepted strings and points correspond one to one |
| `Bn254.AffineRoundTrip` | src/crypto/types.rs:914-948 | coordinates are accepted exactly when both are reduced and on the curve, and the key gives them back |
| `Bn254.KeyRoundTrip` | src/crypto/types.rs:914-948 | a key's coordinates rebuild the key |
| `Bn254.Limbs` | src/crypto/types.rs:886-889 | the limbs filled chunk by chunk denote the little-endian number |
| `Bn254.FromPrivkeyLimbs` | src/crypto/types.rs:873-898 | comparing the limbs with the order accepts the same secrets, and gives the same keys, as comparing the numbers |
| `Bn254.PrivkeyAccepts` | src/crypto/types.rs:866-912 | exactly the non-zero reduced scalars are accepted, in either byte order |
| `Bn254.PrivkeyInjective` | src/crypto/types.rs:881-898 | two accepted secrets with the same key are the same bytes |
| `NumberTheory.Euclid` | src/crypto/types.rs:817-824 | a prime that divides a product divides one of its factors, by descent |
| `NumberTheory.InverseExists` | src/crypto/vrf.rs:98-138 | numbers below a prime have inverses, by the same descent |
| `NumberTheory.TwoRoots` | src/crypto/types.rs:815-824 | a square has at most two roots modulo a prime, each the negative of the other |
| `FloatOps.Mantissas` | src/primitive/primitives.rs:194-228 | the bits read are the factor in units of 2^-52, one more for a product, and zero where the rounded sum reaches two |
| `FloatOps.MulByUnits` | src/primitive/primitives.rs:194-212 | a product in whole numbers, its panic on overflow and its collapse to zero |
| `FloatOps.MulIsClose` | src/primitive/primitives.rs:194-212 | for every value, the product is a number between the exact one rounded down and the exact one plus 1.5 units if and only if the factor is more than one unit below one and the product by units fits 256 bits, or the factor is not and the exact product is below one |
| `FloatOps.NearOneGivesZero` | src/primitive/primitives.rs:194-212 | 1000 times 1 - 2^-52 is zero |
| `FloatOps.DivByUnits` | src/primitive/primitives.rs:214-228 | a quotient in whole numbers, with its division by zero and its dropped high bits |
| `FloatOps.DivLowBits` | src/primitive/primitives.rs:214-228 | every quotient is the integer quotient of the low 204 bits of the dividend |
| `FloatOps.DivExact` | src/primitive/primitives.rs:214-228 | a quotient is exact integer division by the units if and only if the dividend is below 2^204; at 2^204 it is zero |
| `FloatOps.DivPanics` | src/primitive/primitives.rs:214-228 | division by zero happens exactly for factors that round to zero or one |
| `FloatOps.RefusedFactors` | src/primitive/primitives.rs:194-228 | exactly which factors each operation refuses; the division refuses no NaN |
| `FloatOps.NanDivides` | src/primitive/primitives.rs:214-228 | a division by any NaN gives the integer quotient of the low 204 bits by its mantissa bits |
| `FloatOps.Ends` | src/primitive/primitives.rs:194-228 | multiplying and dividing by one change nothing, and a product with zero is zero |
| `FloatOps.QuietNanDoubles` | src/primitive/primitives.rs:214-228 | the quiet NaN doubles every dividend below 2^204 |
| `FloatOps.DivMulBack` | src/primitive/primitives.rs:194-228 | for every dividend, a quotient multiplied back is a number between x - 1 and x plus one unit per quotient if and only if x is below 2^204 and either the factor is more than one unit below one and the product by units fits 256 bits, or x is at most one |
| `WinProb.WinningDrawsCount` | src/internal/tickets.rs:275-295 | one more draw than the luck wins, also for NEVER |
| `WinProb.WinsByDraw` | src/internal/tickets.rs:275-295 | a ticket wins exactly when the first seven bytes of its hash are one of the counted draws |
| `WinProb.ShareWithinUnit` | src/internal/tickets.rs:70-88 | the share of winning draws is at least the double and less than 2^-52 above it |
| `WinProb.AsF64Monotone` | src/internal/tickets.rs:70-88 | the double is monotone in the luck across both special cases |
| `WinProb.TryFromAccepts` | src/internal/tickets.rs:91-119 | every double in [0, 1] and nothing else is accepted; the subtraction never underflows |
| `WinProb.MiddleShare` | src/internal/tickets.rs:107-119 | away from the snapped ends the share of winning draws is the double rounded to 2^-52, exactly |
| `WinProb.TryFromMonotone` | src/internal/tickets.rs:91-119 | a larger double never gives less luck |
| `WinProb.RoundTrip` | src/internal/tickets.rs:70-119 | a probability survives the double if and only if it is an end, or not snapped and a full multiple of sixteen draws |
| `WinProb.ApproxAgreesWithLuck` | src/internal/tickets.rs:122-141 | where the approximate comparison decides, the lucks agree with it |
| `Groups.SmallMultiple` | src/crypto/types.rs:88-120 | an element killed by a number strictly between zero and the prime order is zero, by descent |
| `Groups.MulInjective` | src/crypto/types.rs:1277-1313 | reduced multiples of a non-zero element are all different |
| `Groups.TwoAnswers` | src/crypto/vrf.rs:98-138 | two answers to different challenges for one commitment relate the two points |
| `ProofOfRelay.ChallengeOfSum` | src/crypto/types.rs:88-135 | adding two half-key challenges gives the challenge of the summed half-keys; both fail exactly when the scalars add up to zero |
| `ProofOfRelay.ResponseIffChallenge` | src/crypto/types.rs:1289-1300 | for any two words a response exists if and only if both have challenges and these add up to a challenge |
| `ProofOfRelay.MatchingKeyAccepted` | src/internal/tickets.rs:972-986 | the half-key a challenge was built for is accepted with the summed response |
| `ProofOfRelay.OnlyMatchingKeyAccepted` | src/internal/tickets.rs:972-986 | for an injective address hash a half-key is accepted if and only if it is the matching one |
| `Vrf.DerivedProves` | src/crypto/vrf.rs:217-354 | every proof derived by either build verifies, and its witnesses satisfy s*B = h*V + r*B and s*G = h*A + r*G |
| `Vrf.AcceptedIff` | src/crypto/vrf.rs:98-138 | a proof is accepted if and only if its challenge is the hash of account, A, V, R_G, R_V and message for the commitments with R_V + h*V = s*B and R_G + h*A = s*G |
| `Vrf.Sound` | src/crypto/vrf.rs:98-138 | two proofs for the same commitments, V and A that answer different challenges force V = x*B and A = x*G for one x |
| `Vrf.AcceptedTwice` | src/crypto/vrf.rs:98-138 | proofs accepted with the same V, A and commitments under two hashes that differ there are about one secret |
| `Vrf.TotalHashesDerive` | src/crypto/vrf.rs:217-272 | where hashing does not fail a proof can always be derived |
| `Vrf.NonceBinds` | src/crypto/vrf.rs:239-248 | two nonces agree for every hash only if secret, V and randomness are the same |
| `Vrf.NativeSucceeds` | src/crypto/vrf.rs:279-354 | where the derivation from partial operations succeeds it gives the same proof |
| `Vrf.VariantsAgree` | src/crypto/vrf.rs:217-354 | the derivation from partial operations gives the proof of the plain one, and fails in addition exactly for a payload at infinity and a zero nonce |
| `Vrf.IntoBytes` | src/crypto/vrf.rs:46-63 | the buffer filled at a running offset is V, h, s and A |
| `Vrf.BytesRoundTrip` | src/crypto/vrf.rs:46-89 | a proof with finite points and reduced scalars comes back from its 130 bytes |
| `Vrf.BytesCanonical` | src/crypto/vrf.rs:65-89 | accepted bytes are the bytes of the proof they stand for if and only if both points carry a tag of the compressed form |
| `TicketStates.EmbedExtract` | src/crypto/signing.rs:145-164 | every compact signature is put together again from its raw parts |
| `TicketStates.ExtractEmbed` | src/crypto/signing.rs:145-164 | a raw signature survives exactly when s leaves the top bit clear and the recovery id is a parity |
| `Binding.HashOfFields` | src/internal/tickets.rs:654-682 | the hash is the one a contract computes from the fields: Keccak of 0x1901, the separator and the Keccak of the redemption selector with the Keccak of the 80 bytes |
| `Binding.HashBinds` | src/internal/tickets.rs:654-682 | tickets in range, with their issuers and separators, have the same hash under every digest if and only if they differ in the signature at most |
| `Binding.SameHashCollides` | src/internal/tickets.rs:654-682 | whatever the digest is, two different tickets with one hash exhibit a collision among the strings hashed |
| `Binding.SignatureBinds` | src/internal/tickets.rs:703-731 | a signature accepted for two different tickets recovers the issuer for two different hashes, or the digest collides |
| `Binding.ChannelBinds` | src/internal/channels.rs:417-419 | a channel id stands for the ordered pair of its accounts |
| `Binding.DrawOfTicket` | src/internal/tickets.rs:275-297 | a ticket wins exactly if the first seven bytes of the digest of its hash, the coordinates of V, the response and the signature are at most its probability |
| `TicketStates.SignedRecovers` | src/crypto/signing.rs:172-216 | a fresh signature recovers to its signer except when the id is above one and its parity alone recovers somebody else |
| `TicketStates.SignTrusted` | src/internal/tickets.rs:687-731 | a signed ticket has the right hash, channel and signer if and only if its signature recovers |
| `TicketStates.TransitionSound` | src/internal/tickets.rs:687-731 | each transition yields verified tickets with the right hash, channel and signer and redeemable ones that win, if and only if a signature it makes recovers |
| `TicketStates.RunKeepsSound` | src/internal/tickets.rs:556-575 | the same for every ticket of every run of the state machine, if and only if every signature made along the run recovers |
| `TicketStates.TransitionCarries` | src/internal/tickets.rs:556-575 | only signing touches a ticket, and only its signature; a verified ticket, a response and a proof are handed on unchanged |
| `TicketStates.RunKnowsTickets` | src/internal/tickets.rs:556-575 | no run makes up a ticket: every object holds one that was there or was received, up to its signature |
| `TicketStates.TransitionProven` | src/internal/tickets.rs:972-1254 | each transition under one separator keeps what tickets are hashed with and that redeemable and transferable ones carry verifying proofs |
| `TicketStates.RunKeepsProofs` | src/internal/tickets.rs:1185-1254 | along every run under one separator, in which each transferable ticket received carries a verifying proof, every redeemable ticket carries a proof that verifies for some account |
| `TicketStates.SignThenVerify` | src/internal/tickets.rs:687-731 | a signed ticket verifies to the very same verified ticket if and only if its signature recovers |
| `TicketStates.RedeemedProofVerifies` | src/internal/tickets.rs:1059-1095 | a ticket made redeemable carries a proof that verifies for a redeemer who is not its issuer |
| `TicketStates.RedeemsExactly` | src/internal/tickets.rs:1059-1095 | a ticket is made redeemable exactly by an account that did not issue it, derives a proof and wins with it |
| `TicketStates.TakesBackExactly` | src/internal/tickets.rs:1204-1234 | a transferable ticket is taken back exactly if its signer is the expected issuer, its signature recovers that issuer under the separator, and it wins, and then as this verified ticket |
| `TicketStates.AcknowledgedSolves` | src/internal/tickets.rs:972-986 | an accepted acknowledgement gives a response that solves the ticket's challenge |
| `TicketStates.TransferRoundTrip` | src/internal/tickets.rs:1204-1254 | a redeemable ticket comes back from its transferable form with its proof if and only if the separator is the one of its hash and of its proof; otherwise not even an equal one comes back |
| `TicketStates.TakenBackProof` | src/internal/tickets.rs:1196-1234 | the proof of a ticket taken back verifies for an account if and only if the one received does for the ticket's hash |
| `TicketStates.FalseProofTakenBack` | src/internal/tickets.rs:1196-1234 | an accepted transferable ticket whose proof verifies for nobody |
| `Redemption.WordsSatisfyEquations` | src/chain/payload/static_based.rs:381-425 | the fourteen proof words of a ticket made redeemable spell the two equations of the proof, with V and A of the redeemer's secret |
| `Redemption.SpelledReadBack` | src/chain/payload/static_based.rs:381-425 | a reader finds the coordinates of the six points and both scalars in the words, in the order of the contract |
| `Redemption.CallCarriesWords` | src/chain/payload/static_based.rs:325-330 | the redemption call carries the eight words of the ticket's channel, fields and response, and the proof words behind them |
| `Lioness.New` | src/crypto/lioness.rs:106-124 | the key is split in four equal parts and the vector in two, in order |
| `Lioness.DecryptEncrypt` | src/crypto/lioness.rs:157-245 | decryption undoes encryption for any hash and keystream |
| `Lioness.EncryptDecrypt` | src/crypto/lioness.rs:157-245 | encryption undoes decryption |
| `Lioness.FourRounds` | src/crypto/lioness.rs:157-245 | byte by byte, the output is the encryption if and only if its halves are those of the input masked by the four rounds, streams seeded by the left part and hashes of the right part in turn |
| `Lioness.EncryptBlock` | src/crypto/lioness.rs:157-200 | in place or between buffers the output is the encryption of the old input, and a separate input is unchanged |
| `Lioness.DecryptBlock` | src/crypto/lioness.rs:203-245 | the same for decryption |
| `Paths.New` | src/internal/path.rs:254-340 | the loop returns the resolved path or the first error in the order of the checks |
| `Paths.ValidateIffValid` | src/internal/path.rs:242-340 | validation succeeds exactly for non-empty, resolvable paths without repeated addresses, not starting at the origin, with open channels on all edges but the last; keys and addresses match index by index |
| `Paths.FirstErrorDecides` | src/internal/path.rs:254-340 | the error is exactly that of the first thing wrong: an empty path, an origin without address, or the first hop that does not pass, and what is wrong with it |
| `Paths.Revalidate` | src/internal/path.rs:254-340 | with a consistent resolver the result validates to itself, as keys or as addresses |
| `Paths.OriginMayReturn` | src/internal/path.rs:306-314 | the origin may appear again as a later hop |
| `Paths.CycleIsRepetition` | src/internal/path.rs:40-47 | a path contains a cycle exactly when an entry occurs twice |
| `Paths.ValidatedHasNoCycle` | src/internal/path.rs:306-314 | the addresses of a validated path contain no cycle |
| `AckBatch.VerifySignatures` | src/crypto/signing.rs:297-344 | the memo hands the batch check the same keys as decoding each afresh, and entries are pulled up to the first bad key |
| `AckBatch.VerifyBatch` | src/internal/protocol.rs:92-151 | the loops return the results of the entries that were pulled, in order |
| `AckBatch.AcceptsGenuine` | src/internal/protocol.rs:62-75 | an acknowledgement is accepted if and only if its key decodes and strictly verifies the signature over the half-key, and then returned as its half-key and signature |
| `AckBatch.BatchAcceptsGenuine` | src/internal/protocol.rs:92-151 | every result a batch returns is `Ok` exactly if the entry at its place is genuine, with that entry's half-key and signature |
| `AckBatch.BatchIsPrefixOfEach` | src/internal/protocol.rs:92-151 | a batch gives exactly the results of single verification for every entry it pulled |
| `AckBatch.BatchIffKeysDecode` | src/internal/protocol.rs:76-91 | batch and single verification agree completely if and only if the batch is small or no key before the last entry is off the curve |
| `AckBatch.BadKeyHidesTheRest` | src/internal/protocol.rs:76-151 | four valid acknowledgements behind a bad key are not reported |
| `AckBatch.LeakParse` | src/internal/protocol.rs:179-185 | leaking a parsed acknowledgement gives its bytes back |
| `Balances.ParseBaseUnits` | src/primitive/balance.rs:133-178 | any decimal number in base units is worth its digits times 10^18, cut off behind the eighteenth fractional digit; it is refused exactly when that reaches 2^256 |
| `Balances.ParseWei` | src/primitive/balance.rs:126-178 | a number in wei, with nothing, an underscore or white space between unit and name, is worth its whole part, or refused from 2^256 on |
| `Balances.BaseRoundTrip` | src/primitive/balance.rs:118-232 | every printed balance of every currency is parsed back |
| `Balances.WeiRoundTrip` | src/primitive/balance.rs:234-237 | every balance printed in wei is parsed back |
| `Balances.PrintInjective` | src/primitive/balance.rs:118-237 | no two amounts share a printed form |
| `Balances.PrintExact` | src/primitive/balance.rs:222-232 | a number without needless zeros is the printed form of a balance if and only if it is worth it |
| `Balances.PrintsCanonical` | src/primitive/balance.rs:222-232 | every printed number has no needless zeros and no point without digits behind it |
| `Balances.WeiPrintExact` | src/primitive/balance.rs:234-237 | digits without leading zeros are the form printed in wei if and only if they denote the balance |
| `Balances.NameDecides` | src/primitive/balance.rs:128-178 | letters behind a number that begin with wei and go on name a currency in wei, others one in base units; the name is read without regard to case, and other names are refused |
| `Balances.BlankInside` | src/primitive/balance.rs:126-155 | a blank anywhere in front of the last digit of a number changes nothing |
| `Balances.GapRead` | src/primitive/balance.rs:126-129 | any white space between number and letters reads like one blank |
| `Balances.OtherSpaceRefused` | src/primitive/balance.rs:126-155 | white space other than blanks inside a number is refused |
| `Balances.OnlyReads` | src/primitive/balance.rs:126-155 | nothing else is read: an accepted text is digits, points and white space with a digit at the end, then white space, then the name, alone or behind wei and at most one separator |
| `Balances.SumSaturates` | src/primitive/balance.rs:342-346 | a sum is the true total or the maximum |
| `Balances.AddThenSub` | src/primitive/balance.rs:258-294 | subtracting what was added restores a balance exactly when the sum did not saturate |
| `Balances.Balance.AddAssign` | src/primitive/balance.rs:274-278 | the field becomes the sum or the maximum |
| `Balances.Balance.SubAssign` | src/primitive/balance.rs:302-306 | the field becomes the difference or zero |
| `HexText.FromHexBuffered` | src/primitive/traits.rs:93-120 | the stack buffer filled digit by digit and the heap path give what `from_hex` is specified to give |
| `HexText.DecodeToSlice` | src/primitive/traits.rs:104-107 | the slice is filled exactly if the digits behind one more prefix are hexadecimal and as many as it has room for |
| `HexText.HexRoundTrip` | src/primitive/traits.rs:88-120 | a value of any size comes back from its text, on either path |
| `HexText.PathsAgree` | src/primitive/traits.rs:101-115 | the two paths agree on a text if and only if it is not a second prefix with the digits of a value |
| `HexText.DoubledPrefix` | src/primitive/traits.rs:101-115 | every value behind two prefixes is read from 128 bytes on and refused below |
| `HexText.PrefixesAlike` | src/primitive/traits.rs:93-100 | digits are read alike without a prefix, behind 0x and behind 0X |
| `HexText.FromHexAccepts` | src/primitive/traits.rs:93-120 | exactly the texts of the right number of hex digits behind an optional prefix, or from 128 bytes on behind two, are read, and spell the value up to case |
| `HexText.ToChecksum` | src/primitive/primitives.rs:69-92 | each character is raised exactly when the hash nibble of its place is at least eight |
| `HexText.NibblesOfHash` | src/primitive/primitives.rs:82-84 | the deciding nibbles are the hexadecimal digits of the hash, as EIP-55 has it |
| `HexText.ChecksumParsesBack` | src/primitive/primitives.rs:69-92 | whatever the hash, the checksummed text differs in case only and parses back to the address |

## Left out

- The ABI bindings and their decoder are not part of this model; an ABI reader written from the Solidity ABI specification stands in. It reads addresses and integers from the low bytes of their slots and tolerates trailing data.
- Lengths are bounded by a 64-bit `usize`, as in the code.
- `multiaddr` parsing: an announced address is its text, and printing and parsing it are taken as inverse.
- The entries of an EIP-1559 access list are kept undecoded; the code always writes an empty list.
- The gas limit stored in a request is not used by signing, and so not in the envelope.
- Hashing, signing, recovery, curve arithmetic, square roots, stream ciphers and random bytes are parameters with stated laws; no claim of unforgeability or randomness is made.
- Gauges.NoUpdateLost: amounts are exact real numbers, so rounding of sums of doubles, NaN and signed zero are not modelled.
- MultiGauges.RunRefines: the read-write lock is not modelled; the machine allows every interleaving the lock allows and more.
- Gauges.SimpleGauge.Set: which value the exporter is corrected by is stated for a call without interference; among other threads the run-level results apply.
- TicketStates.RunKeepsSound: `build_verified` is excluded, as it takes the hash on trust.
- TicketStates.RunKeepsProofs: a run uses one domain separator; what a run that mixes separators keeps of the proofs is stated step by step only (`TicketStates.TakenBackProof`).
- WinProb.TryFromMonotone: the tolerance is the decimal 10^-8, which differs from its nearest double by less than 10^-24.
- Balances.ParseBaseUnits: text is ASCII; other Unicode digits and blanks, which the pattern admits, are not modelled.
- Vrf.VariantsAgree: the secret scalar of a key pair is taken to be valid, as key pairs are checked when made.
- Redemption.SpelledReadBack: the point at infinity has no coordinates; the model then has no words, where the code panics.
- Saturating multiplication of balances and the wrappers of balances around `mul_f64` would only add easy members.
- BN254 and Baby Jubjub key derivation beyond the scalar range, `PeerId` and `NodeId` conversions, channel and account types, serde, errors as text, keystores and files are left out as easy or outside the logic.
- Histograms, counters and timers keep no state of their own.
- Scheduling of parallel verification is left out; results keep their order either way.
