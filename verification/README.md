# Verified models of flow-go-cata

This project models the hardest parts of the flow-go-cata node software in Dafny 4.11 and
proves properties of the models. `dafny verify dfyconfig.toml` checks all of it.

| modules | what they model |
|---|---|
| `ModArith`, `Groups`, `Bytes` | arithmetic modulo a prime up to Fermat's theorem and modular inverses, abelian groups, elements of prime order, bilinear maps, big-endian integers, concatenation |
| `Polynomials` | polynomial evaluation in Zr and in the group, commitments, vector sums |
| `FeldmanSpec`, `FeldmanVSSQual`, `FeldmanSafety`, `FeldmanObserver`, `FeldmanAgreement`, `HonestDealer`, `PromptParticipants`, `FeldmanReports`, `FeldmanLimits` | the Feldman VSS protocol with complaints: a transition function, the class that implements it, its invariant over all runs, what the broadcast log alone says, agreement between participants, what an honest dealer is promised, who complains about it, what is sent and reported, and where agreement stops |
| `JointKeys`, `JointFeldman`, `JointLiveness`, `JointLimits` | n parallel instances, the qualified set, the joint keys, when they are delivered, and where their zero check stops |
| `Lagrange`, `LagrangeCoefficient`, `ThresholdSignatures`, `SharePool` | threshold signatures: interpolation, the batched coefficient loop, reconstruction, key generation, the share pool |
| `Bls`, `SchemeExample`, `BatchVerify`, `BatchCancellation`, `ManyMessages` | BLS verification, an instance of its contracts, batch verification with a tree of aggregates, how rarely its random weights fail, many-message verification |
| `Sswu` | the simplified SWU map of section 6.6.3 of draft-irtf-cfrg-hash-to-curve-14 |
| `WorkerPool`, `TransactionVerifier` | the concurrent signature verification and transaction authorization |
| `TransactionState`, `Executor` | nested transactions and the transaction executor |
| `TrieCodec`, `TrieCodecExact`, `TrieCodecPanics`, `CompactHash` | the ledger's binary formats, the inputs their decoders accept and those on which they panic, and its sparse Merkle hash |
| `Notifier` | the capacity-one wakeup channel |

Code that changes state is modelled by classes and methods with loops. Each such method is
proved equal to a function of its old state, and the properties are proved about that function,
over all inputs or over all runs. Concurrent code is a state machine whose runs are all
interleavings of its steps.

## Contracts of foreign code

- The curve library is an abelian group with an element of prime order r, 2^254 < r < 2^255, an
  encoding that decoding inverts, and a pairing that is bilinear on E1 × G2 and separates the points
  of the subgroup of order r. Polynomials over G2 use the same group interface.
  `SchemeExample.ContractsAreConsistent` gives an instance of all these contracts.
- Hashing to the curve is a function into the subgroup; the modular exponentiation `bn_mxp_slide`
  and `fp_exp` are powers modulo the prime.
- Sampled polynomials, batch weights and message schedules are parameters of the operations.
- A buffer that is read past its end (signature shares shorter than 48 bytes added without
  verification) is followed by arbitrary `memory`, so that the results hold whatever is there.
- Calls of the executor into the runtime are parameters: their writes, their error, and on an error
  the nested transactions they leave open. The meter lookup and the collection of the output values
  have no errors of the transaction, only failures.

## Places where the code decides

- `bn_sum_vector` reduces only sums strictly above r, so a sum of shares can be represented by r.
  The zero test of Joint Feldman misses that value: `JointLimits.ZeroShareEscapes` says exactly when
  `End` returns an identity public key share, and `JointLimits.ZeroShareExample` is such a run.
- `ForceDisqualify` of Joint Feldman indexes its instances before any range check, although its
  comment promises an error for an invalid index: it panics exactly there, and never returns that
  error (`JointFeldman.Joint.ForceDisqualify`). The single-dealer protocol does check.
- A complaint replaces the participant's own entry, with any answer that came before it. The comment
  at the complaints timeout expects such answers to be settled by then. Agreement holds whenever no
  participant that complains was answered before it complained, and `FeldmanAgreement.AgreementIff`
  says exactly when it holds otherwise.
- Agreement of `End` on the returned status is weaker than agreement on the verdict, because the
  share of one participant can be zero (`FeldmanLimits.EndAgreement` states exactly when they differ,
  `FeldmanLimits.EndDiffers` is a run where they do).
- The verification pool needs a worker: with `VerificationConcurrency` at zero and something to
  verify it blocks, and with a negative one the wait group panics (`WorkerPool.ReturnsIff`). The
  executor uses four.
- The trie update encoder stops after the number of paths when there are none, and the decoder reads a
  path size all the same (`TrieCodec.UpdateRoundTrip`).
- Many-message verification promises the behaviour of one-message verification when all messages are
  equal. Identity keys are rejected one by one there and as an aggregate here, so the promise holds
  exactly under the condition of `ManyMessages.OneMessageIff`.
- An 8-byte size of 2^63 or more becomes a negative `int` that passes the length check of `ReadSlice`,
  so the ledger decoders panic there instead of returning an error (`TrieCodecPanics`, with an input
  for each decoder).

## Model

| member | source | states |
|---|---|---|
| `Polynomials.PolynomialImage` | crypto/dkg_core.c:28-54 | The Horner loop returns P(x) mod r and the point P(x)·g2; inside, the product of the accumulator and the one-byte point stays below 2^264, the Fr_BITS + 9 bits allotted to it. |
| `Polynomials.AccumulatorFits` | crypto/dkg_core.c:33-45 | A value below 2r times a one-byte point fits Fr_BITS + 9 bits. |
| `Polynomials.PointImage` | crypto/dkg_core.c:59-74 | The Horner loop in the group returns the vector polynomial evaluated at x. |
| `Polynomials.PointImages` | crypto/dkg_core.c:79-89 | Entry i of the public keys is the vector evaluated at i + 1, for every participant. |
| `Polynomials.CommitEval` | crypto/dkg_core.c:28-89 | Evaluation commutes with commitment: evaluating the committed coefficients in the group gives P(x)·g2. |
| `Polynomials.SumVector` | crypto/bls12381_utils.c:559-571 | The sum reduces only when strictly above r: the result is congruent to the sum and lies in [0, r], and it is zero exactly when every summand is. |
| `Polynomials.SumPoints` | crypto/bls12381_utils.c:574-582 | The loop returns the group sum of the vector. |
| `Polynomials.SubtractPoints` | crypto/bls12381_utils.c:656-660 | Adding the vector back gives the original point. |
| `Polynomials.RemovalUndoesAggregation` | crypto/bls_multisig.go:232-261 | Removing keys from an aggregate leaves the aggregate of the others. |
| `FeldmanSpec.NewConfig` | crypto/dkg.go:126-156 | Parameters are accepted exactly when size is in [2, 254], both indices are below size and the threshold is in [1, size - 1], and the result carries them. |
| `FeldmanVSSQual.Participant.constructor` | crypto/dkg_feldmanvssq.go:75-98 | A new participant is in the initial state: nothing received, no timeout passed, dealer not disqualified. |
| `FeldmanVSSQual.Participant.Start` | crypto/dkg_feldmanvss.go:97-108 | A second start is an invalid transition that changes nothing; the first one starts the run, and at the dealer produces exactly the shares, public keys and messages of its polynomial. |
| `FeldmanVSSQual.Participant.GenerateShares` | crypto/dkg_feldmanvss.go:261-314 | The dealer keeps P(i+1) mod r as its own share, sends every other participant its share, and broadcasts the commitment to P. |
| `FeldmanVSSQual.Participant.ComputeShares` | crypto/dkg_feldmanvss.go:286-303 | The shares are P(i+1) mod r and the points computed beside them are the public keys the commitment gives. |
| `FeldmanVSSQual.Participant.ReadVerifVector` | crypto/dkg_core.c:107-117 | The vector is read only if every 96-byte chunk decodes. |
| `FeldmanVSSQual.Participant.NextTimeout` | crypto/dkg_feldmanvssq.go:110-136 | The whole new state after each of the two timeouts, and the error of a third one, as the transition function says. |
| `FeldmanVSSQual.Participant.HandleBroadcastMsg` | crypto/dkg_feldmanvssq.go:219-266 | The whole new state and status for every tag, origin and length of a broadcast, including the ones that are only flagged. |
| `FeldmanVSSQual.Participant.HandlePrivateMsg` | crypto/dkg_feldmanvssq.go:275-302 | The whole new state and status for every private message. |
| `FeldmanVSSQual.Participant.ForceDisqualify` | crypto/dkg_feldmanvssq.go:313-326 | Disqualifies the dealer exactly when the index names it; an index out of range is an error. |
| `FeldmanVSSQual.Participant.ReceiveShare` | crypto/dkg_feldmanvssq.go:363-421 | A late, repeated, malformed or unverifiable share leads to a complaint or a flag, never to acceptance. |
| `FeldmanVSSQual.Participant.ReceiveVerifVector` | crypto/dkg_feldmanvssq.go:423-481 | A malformed vector disqualifies; a valid one is checked against the own share and every early answer. |
| `FeldmanVSSQual.Participant.FindWrongAnswer` | crypto/dkg_feldmanvssq.go:463-474 | The loop over the complaints finds an answered complaint whose share does not verify exactly when there is one. |
| `FeldmanVSSQual.Participant.BuildAndBroadcastComplaint` | crypto/dkg_feldmanvssq.go:485-492 | The own entry is replaced and one complaint broadcast. |
| `FeldmanVSSQual.Participant.ReceiveComplaint` | crypto/dkg_feldmanvssq.go:515-590 | The whole new state, at the dealer and at the others: answers, duplicates, complaints after their answer, and the count above the threshold that disqualifies. |
| `FeldmanVSSQual.Participant.BuildAndBroadcastComplaintAnswer` | crypto/dkg_feldmanvssq.go:496-503 | The dealer marks the complaint answered and broadcasts the complainer's share. |
| `FeldmanVSSQual.Participant.ReceiveComplaintAnswer` | crypto/dkg_feldmanvssq.go:593-675 | The whole new state for every answer: wrong origin, length, index or scalar, an answer before its complaint, a wrong share, and the own answer that becomes the share. |
| `FeldmanVSSQual.Participant.End` | crypto/dkg_feldmanvssq.go:149-205 | Keys are returned exactly when the dealer is qualified, no complaint is unanswered and neither key is the identity; any other ending disqualifies. |
| `FeldmanVSSQual.Participant.FindUnanswered` | crypto/dkg_feldmanvssq.go:158-170 | The loop finds an unanswered complaint exactly when there is one. |
| `FeldmanSafety.StepInv` | crypto/dkg_feldmanvssq.go:110-675 | Every event, whoever sends it, keeps the participant invariant: a held share that is not being disputed verifies against the held vector, every accepted answer verifies, and the complaint map is consistent with the phase. |
| `FeldmanSafety.DisqualifiedForever` | crypto/dkg_feldmanvssq.go:331-361 | Whatever the event, a disqualified dealer stays disqualified. |
| `FeldmanSafety.RunInv` | crypto/dkg_feldmanvssq.go:110-675 | The participant invariant holds after every sequence of events from the start. |
| `FeldmanSafety.QualifiedShare` | crypto/dkg_feldmanvssq.go:149-205 | In a state with the invariant, a qualified dealer has delivered the vector, everyone's public keys and a share with x·g2 = y[myIndex]. |
| `FeldmanSafety.ShareValidity` | crypto/dkg_feldmanvssq.go:149-205 | The same over all runs, whatever the dealer sends: no disqualification at the end implies a valid vector and a valid share. |
| `FeldmanObserver.ObserveSplit` | crypto/dkg_feldmanvssq.go:593-675 | On every log, the dealer's answers to one participant change nothing in what the others learn: only its own entry, and a disqualification drawn from it, depend on the first such answer. |
| `FeldmanAgreement.RunFollows` | crypto/dkg_feldmanvssq.go:363-675 | After every run, a participant that never complained knows exactly what the log says, and one that did knows the log without the answers to it plus the first answer after its complaint. |
| `FeldmanAgreement.VerdictIsPublic` | crypto/dkg_feldmanvssq.go:349-361 | A participant's verdict at the end is a function of the public log alone, although it also sees private messages and rewrites its own complaint entry; the only order asked for is that no answer to it came before it complained, if it complained. |
| `FeldmanAgreement.VerdictIsPublicIff` | crypto/dkg_feldmanvssq.go:485-492 | Without any order: its verdict is the log's if and only if something else decides it, it never complained, no answer came before its complaint, or the first answer before and the first answer after are equally good. |
| `FeldmanAgreement.Agreement` | crypto/dkg_feldmanvssq.go:110-675 | Two honest participants fed the same broadcasts and timeouts end with the same phase and verdict, and with the same vector if they qualify the dealer; unsolicited answers to a participant that never complains are allowed. |
| `FeldmanAgreement.AgreementIff` | crypto/dkg_feldmanvssq.go:110-675 | Without the order they agree if and only if both or neither follow the log in the sense above. |
| `FeldmanLimits.EarlyAnswerAtComplainer` | crypto/dkg_feldmanvssq.go:485-492 | A run where they do not: a participant that is answered before it complains replaces the answered entry and disqualifies the dealer at the end of this log. |
| `FeldmanLimits.EarlyAnswerAtWitness` | crypto/dkg_feldmanvssq.go:515-590 | A witness of the very same log, where the early answer and the late complaint meet in one entry, keeps the dealer. |
| `FeldmanLimits.EndIff` | crypto/dkg_feldmanvssq.go:158-205 | When End returns keys, as a condition on the vector alone. |
| `FeldmanLimits.EndAgreement` | crypto/dkg_feldmanvssq.go:190-205 | The identity checks of End are local: two honest participants get the same answer if and only if the polynomial vanishes at both of their points or at neither. |
| `FeldmanLimits.EndDiffers` | crypto/dkg_feldmanvssq.go:190-205 | A run of a qualified dealer, with the polynomial 2 - X, where End fails at participant 1 and returns keys to participant 2. |
| `HonestDealer.ReadEncodedVector` | crypto/dkg_feldmanvss.go:422-440 | Reading a written verification vector gives the vector back. |
| `HonestDealer.ShareAtVerifies` | crypto/dkg_feldmanvss.go:442-446 | Every share the dealer computes verifies against its own vector. |
| `HonestDealer.VectorSent` | crypto/dkg_feldmanvss.go:303-308 | On starting, the dealer broadcasts the commitment to its polynomial and nothing else, and no other participant broadcasts anything. |
| `HonestDealer.RunLockstep` | crypto/dkg_feldmanvssq.go:349-361 | While at most t participants complain, what everyone hears from the dealer matches what the dealer did: every complaint it saw is answered with the right share. |
| `HonestDealer.DealerMakesHonest` | crypto/dkg_feldmanvssq.go:515-590 | An honest dealer answers only complaints it has heard, so on its log no answer precedes its complaint. |
| `HonestDealer.HonestDealerQualifies` | crypto/dkg_feldmanvssq.go:593-675 | An honest dealer with at most t complainers is never disqualified by an honest participant, and not at the end either once its answers were heard; nothing is assumed of the order of its answers. |
| `HonestDealer.DealerAgreement` | crypto/dkg_feldmanvssq.go:149-205 | The honest dealer and every honest participant reach the same verdict on it, and hold the same vector. |
| `PromptParticipants.SharesSent` | crypto/dkg_feldmanvss.go:287-303 | On starting, the dealer privately sends participant k, for every k but itself, the share tag and the 32 bytes of P(k + 1) mod r, and nothing else; nobody else sends anything. |
| `PromptParticipants.RunSends` | crypto/dkg_feldmanvss.go:287-303 | No later event makes a participant send a share: over every run the private messages are those of the start. |
| `PromptParticipants.NeverComplains` | crypto/dkg_feldmanvssq.go:363-421 | A participant that runs the code and to which the private message that the dealer sent it is delivered before the first timeout never broadcasts a complaint against that dealer. |
| `PromptParticipants.FewComplainers` | crypto/dkg_feldmanvssq.go:485-492 | So no more participants complain about an honest dealer than are faulty or late. |
| `PromptParticipants.HonestDealerStays` | crypto/dkg_feldmanvssq.go:349-361 | An honest dealer is never disqualified, nor at the end once its answers were heard, if at most t participants are faulty or late. |
| `FeldmanReports.NothingBeforeStart` | crypto/dkg_feldmanvssq.go:110-302 | Before Start, no event changes anything or causes any output. |
| `FeldmanReports.DisqualifiedIsReported` | crypto/dkg_feldmanvssq.go:110-675 | Over every run, the dealer is disqualified if and only if that was reported to the processor or forced from outside. |
| `FeldmanReports.ShareReply` | crypto/dkg_feldmanvssq.go:363-421 | What a private message of the dealer causes, by the history of the run: a flag if it comes after a timeout or after another one; a complaint and a flag if it is not the tag and the 32 bytes of a scalar below r; a complaint if the vector seen before refutes it; and nothing otherwise. |
| `FeldmanReports.VectorFlag` | crypto/dkg_feldmanvssq.go:423-440 | A vector is flagged, and otherwise ignored, if and only if a timeout or another vector came before it. |
| `FeldmanReports.ComplaintFlag` | crypto/dkg_feldmanvssq.go:515-590 | A complaint is flagged, and otherwise ignored, if and only if the second timeout or a complaint of the same sender came before it. |
| `JointFeldman.Joint.constructor` | crypto/dkg_jointfeldman.go:75-103 | One fresh instance per dealer. |
| `JointFeldman.Joint.Start` | crypto/dkg_jointfeldman.go:114-128 | Starts every instance once, its own as dealer. |
| `JointFeldman.Joint.NextTimeout` | crypto/dkg_jointfeldman.go:136-148 | Passes the timeout to every instance; all instances stay in one phase. |
| `JointFeldman.Joint.HandleBroadcastMsg` | crypto/dkg_jointfeldman.go:241-252 | Passes the message to every instance and changes nothing else. |
| `JointFeldman.Joint.HandlePrivateMsg` | crypto/dkg_jointfeldman.go:261-272 | Passes the message to every instance and changes nothing else. |
| `JointFeldman.Joint.ForceDisqualify` | crypto/dkg_jointfeldman.go:286-298 | Disqualifies exactly the named dealer. While running it panics exactly on an index out of range, where a single instance returns the promised error; that error is never returned here. |
| `JointFeldman.Joint.End` | crypto/dkg_jointfeldman.go:162-232 | Marks every dealer with an unanswered complaint, and returns keys exactly when at most t dealers are lost, more than t are left, and neither the sum of the shares nor the group key is zero; the keys are then the sums over the qualified dealers. |
| `JointFeldman.Joint.MarkUnanswered` | crypto/dkg_jointfeldman.go:167-190 | The loop disqualifies exactly the dealers with an unanswered complaint and counts the others. |
| `JointFeldman.Joint.GetQualifiedKeys` | crypto/dkg_jointfeldman.go:323-341 | Collects share, vector and public keys of exactly the qualified dealers, in order. |
| `JointFeldman.Joint.SumUpQualifiedKeys` | crypto/dkg_jointfeldman.go:301-320 | The joint share is congruent to the sum of the shares, the group key is the sum of the constant commitments, and joint key j is the sum of the dealers' keys of j. |
| `JointFeldman.JointStepInv` | crypto/dkg_jointfeldman.go:136-298 | Every event keeps the invariant of all instances and their common phase. |
| `JointKeys.JointKeysOnVector` | crypto/dkg_jointfeldman.go:301-320 | Sums of shares, group keys and public keys are share, value at zero and values of the summed vector. |
| `JointKeys.JointKeysOnPolynomial` | crypto/dkg_jointfeldman.go:301-341 | Whatever the points, the joint keys are the values of the summed vector; if the vectors are commitments, one polynomial of degree at most t gives the joint share P(i+1) mod r, every joint key P(j+1)·g2 and the group key P(0)·g2. |
| `JointFeldman.JointAgreement` | crypto/dkg_jointfeldman.go:162-232 | Two honest participants with the same log qualify the same dealers and hold the same vectors of them; only of dealers that are neither of the two it is asked that they do not answer a complaint before it is made. |
| `JointFeldman.JointAgreementIff` | crypto/dkg_jointfeldman.go:162-232 | Without that order they qualify the same dealers if and only if on every such dealer both or neither follow the log. |
| `JointFeldman.JointEndToEnd` | crypto/dkg_jointfeldman.go:162-232 | End to end, on the same runs: both hold shares and keys of one and the same vector of t + 1 points, and of one and the same polynomial of degree at most t when the qualified vectors are commitments. |
| `JointLimits.ZeroShareEscapes` | crypto/dkg_jointfeldman.go:225-227 | End returns keys of which this participant's public key share is the identity if and only if enough dealers are qualified, the group key is not the identity, and the shares add up to zero modulo r without all being zero. |
| `JointLimits.ZeroShareExample` | crypto/bls12381_utils.c:559-571 | A run of two honest dealers, with shares 1 and r - 1, after which End can only succeed, with the joint share r and an identity public key share. |
| `JointLiveness.EnoughIff` | crypto/dkg_jointfeldman.go:193-199 | End goes on to the keys if and only if at most t dealers are disqualified and more than t are not. |
| `JointLiveness.HonestMajorityEnds` | crypto/dkg_jointfeldman.go:162-232 | If at most t participants are faulty or late and 2t < n, every other participant keeps all dealers that are not, whatever the faulty ones send, and its End returns keys if and only if neither the sum of its shares nor the group key is zero. |
| `Lagrange.InterpolationAtZero` | crypto/bls_thresholdsign_core.c:88-123 | For every polynomial with at most as many coefficients as there are nodes, the weighted values add up to P(0) modulo r. |
| `Lagrange.CoefficientsSumToOne` | crypto/bls_thresholdsign_core.c:5-86 | The coefficients of any nonempty set of nodes add up to one modulo r. |
| `LagrangeCoefficient.Batch` | crypto/bls_thresholdsign_core.c:45-55 | One batch multiplies at most 32 factors, returns absolute differences, numerators and the tracked sign whose product is the signed one, and with distinct signers both products stay below r. |
| `LagrangeCoefficient.BatchFits` | crypto/bls_thresholdsign_core.c:41-43 | Thirty-two distinct one-byte indices give products below 2^254, hence below r. |
| `LagrangeCoefficient.LagrangeCoefficientAtZero` | crypto/bls_thresholdsign_core.c:7-86 | The result solves c·Π(s_j − i) = Π(s_j + 1) modulo r over the signers other than i, and lies in [1, r − 1]. |
| `ThresholdSignatures.LoopGivesCoef` | crypto/bls_thresholdsign_core.c:7-86 | For any signers, repeated or not, that congruence has one solution below r, which is what the loop returns. |
| `ThresholdSignatures.LagrangeInterpolateAtZero` | crypto/bls_thresholdsign_core.c:92-123 | For any signers, repeated or not, it fails exactly when a share is not the encoding of a point, and otherwise encodes the sum of the shares weighted by the quotients the coefficient loop computes. |
| `ThresholdSignatures.CoefIsLagrange` | crypto/bls_thresholdsign_core.c:7-90 | Among distinct signers these quotients are the Lagrange coefficients at zero. |
| `ThresholdSignatures.ReconstructionExact` | crypto/bls_thresholdsign_core.c:92-123 | The shares P(s+1)·H of any distinct signers, at least as many as P has coefficients, in any order, interpolate to P(0)·H. |
| `ThresholdSignatures.SameSignature` | crypto/bls_thresholdsign.go:399-439 | So every set of signers gives the same signature. |
| `ThresholdSignatures.CheckSigners` | crypto/bls_thresholdsign.go:491-505 | The first index out of range or seen before decides the error, and otherwise all indices are kept in order and are distinct. |
| `ThresholdSignatures.ReconstructThresholdSignature` | crypto/bls_thresholdsign.go:457-517 | Parameters out of range or too few shares are invalid inputs, then the first bad signer decides; otherwise the signature interpolated from the first threshold + 1 shares, or an error if one is no point. |
| `ThresholdSignatures.HonestReconstruction` | crypto/bls_thresholdsign.go:457-517 | From the shares of P the stateless reconstruction returns the encoding of P(0)·H. |
| `ThresholdSignatures.ThresholdKeyGen` | crypto/bls_thresholdsign.go:544-607 | Fails exactly on parameters out of range; otherwise key i is P(i+1) mod r with public key P(i+1)·g2 and the group key is P(0)·g2. |
| `ThresholdSignatures.GeneratedKeysReconstruct` | crypto/bls_thresholdsign.go:544-607 | Signatures under generated keys of any threshold + 1 distinct signers interpolate to a signature the group key verifies. |
| `ThresholdSignatures.GeneratedKeysMatch` | crypto/bls_thresholdsign.go:588-607 | Under the generated public key of a participant exactly the signature of its private key verifies. |
| `Bls.DoublePairingExact` | crypto/bls_core.c:116-164 | The product e(s, −g2)·e(H, pk) is one exactly when e(s, g2) = e(H, pk). |
| `Bls.ShortcutExact` | crypto/bls_core.c:128-138 | The shortcut for the key −g2 agrees with the pairing. |
| `Bls.VerifyPoint` | crypto/bls_core.c:95-173 | With both shortcuts the result is the pairing equation. |
| `Bls.Verify` | crypto/bls.go:198-233 | Length, identity key, deserialization and subgroup checks, then the equation. |
| `Bls.VerifiesExactly` | crypto/bls_core.c:367-381 | Under the key x·g2 exactly the encodings of x·H verify, and nothing verifies under the identity key. |
| `SchemeExample.ContractsAreConsistent` | crypto/bls_core.c:95-153 | The contracts of the curve library can be met: residues modulo the order of BLS12-381 with multiplication as pairing meet them, given that this order is prime. |
| `SharePool.Inspector.New` | crypto/bls_thresholdsign.go:147-187 | Fails exactly on parameters out of range; otherwise the pool is empty. |
| `SharePool.Inspector.TrustedAdd` | crypto/bls_thresholdsign.go:301-319 | A share of a valid, unseen index is kept while at most t are held; otherwise nothing changes. Status and the enough flag for every index and share. |
| `SharePool.Inspector.VerifyAndAdd` | crypto/bls_thresholdsign.go:336-361 | A verifying share of a valid, unseen index is kept while at most t are held; otherwise nothing changes. Status and both flags for every index and share. |
| `SharePool.Inspector.EnoughShares` | crypto/bls_thresholdsign.go:253-264 | Equality with threshold + 1 is the same as more than threshold shares. |
| `SharePool.Inspector.ListShares` | crypto/bls_thresholdsign.go:410-413 | The loop over the map lists every signer once, in some order, with the concatenated shares. |
| `SharePool.Inspector.ThresholdSignature` | crypto/bls_thresholdsign.go:374-439 | Returns the cached signature, or reconstructs, verifies and caches, for some order of the map; exactly when it finds not enough shares or a share that is no point; what it returns verifies under the group key. |
| `SharePool.StepInv` | crypto/bls_thresholdsign.go:301-439 | Every operation keeps: at most t + 1 shares of valid distinct signers, a cached signature that verifies, and nothing collected or cached is ever replaced. |
| `SharePool.RunInv` | crypto/bls_thresholdsign.go:301-439 | The same over every interleaving of the locked operations. |
| `SharePool.SignedForever` | crypto/bls_thresholdsign.go:374-391 | Once a signature has been returned, every later call returns the same one, whatever is called in between. |
| `SharePool.OfferedIsKept` | crypto/bls_thresholdsign.go:301-361 | Over every interleaving, a signer whose share some call brings is in the pool at the end, unless t + 1 others are. |
| `SharePool.FirstIsKept` | crypto/bls_thresholdsign.go:301-361 | What the pool holds for a signer is what the first call with an acceptable share of that signer brought. |
| `SharePool.ManyOffersFill` | crypto/bls_thresholdsign.go:301-361 | Acceptable shares of t + 1 distinct signers fill the pool, in whatever order and among whatever other calls they come. |
| `SharePool.HonestPoolSigns` | crypto/bls_thresholdsign.go:399-439 | A full pool of verified shares reconstructs the encoding of P(0)·H in every map order, unless P(0) is zero modulo r, when it is rejected. |
| `SharePool.VerifiedPoolAlwaysSigns` | crypto/bls_thresholdsign.go:336-439 | Once VerifyAndAdd alone has been called with verifying shares of t + 1 distinct signers, among any other calls, the pool always signs when P(0) is nonzero, and its signature is P(0)·H. |
| `BatchVerify.TreeError` | crypto/bls_core.c:425-463 | The error e(sig, g2) − e(H, pk) of every aggregate in the tree is the sum of the errors of its leaves. |
| `BatchVerify.WeightKeepsError` | crypto/bls_core.c:533-539 | A weight below r leaves the pairing equation of a subgroup point unchanged. |
| `BatchVerify.EntryExact` | crypto/bls_core.c:520-539 | One entry is neither rejected up front nor in error exactly when its signature verifies; a rejected one is in error exactly when its key does not pair to one with the hash. |
| `BatchVerify.BatchVerifyTree` | crypto/bls_core.c:466-492 | Writes exactly its part of the results buffer, with the verdicts the errors of the leaves determine, and makes exactly the counted number of checks. |
| `BatchVerify.BatchVerifyAll` | crypto/bls_core.c:501-560 | The whole buffer holds those verdicts for the weighted inputs, unreadable ones marked invalid up front. |
| `BatchVerify.SearchSound` | crypto/bls_core.c:466-492 | No entry stays undefined, entries marked invalid stay invalid, and every valid entry is reported valid. |
| `BatchVerify.SearchExact` | crypto/bls_core.c:466-492 | The verdicts equal one-by-one verification if and only if no accepted part of the tree hides cancelling errors. |
| `BatchVerify.SearchCost` | crypto/bls_core.c:466-492 | With k failing entries among n the search makes at most 1 + 2k⌈log2 n⌉ checks, and exactly one when k = 0. |
| `BatchVerify.CeilLog2Correct` | crypto/bls_core.c:432-434 | The depth of the left-heavy tree is the logarithm of n rounded up. |
| `BatchVerify.BatchVerifyOneMessage` | crypto/bls_multisig.go:479-547 | The list errors; every signature that verifies is reported valid; and the answer equals one-by-one verification if and only if nothing cancels. |
| `BatchVerify.BatchExact` | crypto/bls_multisig.go:479-547 | The if and only if behind it, entry by entry: wrong length, identity key, no point, outside the subgroup, wrong signature. |
| `BatchCancellation.OneWeight` | crypto/bls_core.c:533-539 | If the errors of a part add up to zero, the weight below r of a failing entry in it is determined by the other weights. |
| `BatchCancellation.TuplesSize` | crypto/bls_core.c:533-539 | There are m^n vectors of n weights from 1 to m. |
| `BatchCancellation.CancelsSomewhere` | crypto/bls_core.c:465-492 | A cancellation anywhere in the search is one of its parts that is accepted with a failing entry. |
| `BatchCancellation.CancellationsAreRare` | crypto/bls_core.c:501-547 | Of the vectors of n weights, at most 2n - 1 times the number of vectors of n - 1 weights make the search accept a part with a failing entry, whatever signatures and keys are given. |
| `BatchCancellation.BatchRarelyMisreports` | crypto/bls_multisig.go:479-547 | So the result of the batch differs from one-by-one verification for at most 2n - 1 in 2^128 of the weight vectors that can be drawn. |
| `ManyMessages.AppendToGroup` | crypto/bls_multisig.go:388-389 | Appending to a group of either map adds exactly that pair to the grouped product. |
| `ManyMessages.ListedTotal` | crypto/bls_multisig.go:401-430 | The product over the groups does not depend on the order in which the map is walked. |
| `ManyMessages.FillMaps` | crypto/bls_multisig.go:376-390 | Stops at an identity key; otherwise both maps group exactly the input pairs. |
| `ManyMessages.VerifyPerDistinctMessage` | crypto/bls_core.c:189-258 | One pairing per hash, on summed keys read at running offsets, decides the ungrouped product. |
| `ManyMessages.VerifyPerDistinctKey` | crypto/bls_core.c:274-361 | One pairing per key, on summed hashes read at two running offsets, decides the ungrouped product. |
| `ManyMessages.VerifyManyMessages` | crypto/bls_multisig.go:330-449 | The list errors; otherwise the answer is the ungrouped equation, whichever map is smaller and however fine the key representation groups. |
| `ManyMessages.OneMessageIff` | crypto/bls_multisig.go:315-316 | With one message the answer is that of the aggregated key for every signature if and only if an identity key occurs exactly when the aggregate is the identity. |
| `ManyMessages.OppositeKeys` | crypto/bls_multisig.go:315-320 | The smallest case where the two answers differ: opposite keys and the identity signature. |
| `ManyMessages.OneKeyAgrees` | crypto/bls_multisig.go:316-317 | With one key and one message the answer is that of the key. |
| `Sswu.SqrtRatio` | crypto/bls12381_hashtocurve.c:80-99 | Returns whether u/v is a square, decided exactly, with y²·v = u if it is and y²·v = z·u if not. |
| `Sswu.KeyIdentity` | crypto/bls12381_hashtocurve.c:123-157 | With N = b(w+1), D = −a·w and w = ξ² + ξ, g(ξN/D) = ξ³·g(N/D): the identity the non-square branch rests on. |
| `Sswu.ExceptionalSquare` | crypto/bls12381_hashtocurve.c:131-135 | When w vanishes, D = a·z and g(b/(a·z)) is a square, so the non-square branch is not taken. |
| `Sswu.NonSquarePoint` | crypto/bls12381_hashtocurve.c:153-157 | The non-square branch gives a point of the curve. |
| `Sswu.MapUnique` | crypto/bls12381_hashtocurve.c:114-170 | The map as the draft states it (x1 from the fraction or its exceptional value, x2 = ξ·x1 when g(x1) is no square, the sign of y that of t) has one result modulo p. |
| `Sswu.CodeIsMap` | crypto/bls12381_hashtocurve.c:124-157 | The fraction, the ratio test and the square root that the code computes give the map of the draft, in both branches and at the exceptional inputs. |
| `Sswu.MapToE1` | crypto/bls12381_hashtocurve.c:114-170 | For every field element the Jacobian point is on the curve with Z nonzero, and its affine coordinates are those of the draft's map. |
| `Sswu.SmallCurve` | crypto/bls12381_hashtocurve.c:108-113 | The conditions on the curve constants are consistent: a curve over seven elements meets them. |
| `WorkerPool.StepInv` | fvm/transactionVerifier.go:299-383 | Every step of every thread keeps the pool invariant. |
| `WorkerPool.ResultIsDeterministic` | fvm/transactionVerifier.go:301-371 | Whatever the schedule, the pool returns the lowest failing entry, or success if none fails; the final panic is unreachable, and a negative concurrency panics at the start. |
| `WorkerPool.NeverStuck` | fvm/transactionVerifier.go:299-383 | In every reachable state that has not returned some thread can move, as long as there is a worker. |
| `WorkerPool.RunsAreBounded` | fvm/transactionVerifier.go:299-383 | Every schedule is finite, bounded by a rank of the initial state. |
| `WorkerPool.ReturnsIff` | fvm/transactionVerifier.go:301-371 | Some schedule ends if and only if the number of workers is not zero or there is nothing to verify; with a negative number that end is the panic. |
| `WorkerPool.ReceivedWeights` | fvm/transactionVerifier.go:348-369 | On success every entry was received exactly once, so any sum over the received entries is the sum over all of them. |
| `TransactionVerifier.NewSignatureEntries` | fvm/transactionVerifier.go:84-156 | All entries, payload first, unless a key occurs twice in either list; then the first such entry. |
| `TransactionVerifier.PayloadFirst` | fvm/transactionVerifier.go:125-156 | The entries are the payload signatures, in order, and then the envelope signatures. |
| `TransactionVerifier.GetAccountKeys` | fvm/transactionVerifier.go:261-295 | Succeeds exactly when every key exists and is not revoked and the proposal key is among the signers; the first unusable key is blamed ahead of a missing proposal. |
| `TransactionVerifier.CheckWeights` | fvm/transactionVerifier.go:230-256 | Blames the first authorizer besides the payer whose payload keys weigh too little, and the payer when there is none and its envelope keys do; no error exactly when neither happens. |
| `TransactionVerifier.RefusedOnce` | fvm/transactionVerifier.go:188-257 | At most one error is the right one for a transaction. |
| `TransactionVerifier.Aggregate` | fvm/transactionVerifier.go:364 | The weight of every address is the sum over the received entries of that group. |
| `TransactionVerifier.VerifyTransaction` | fvm/transactionVerifier.go:188-257 | Under every schedule of the pool, accepts exactly the authorized transactions and refuses each other one with exactly one error: the earliest failing check at its first entry, the lowest-index invalid signature among them. It panics exactly when the pool is started with a negative concurrency, and asks for a pool outcome only when the pool is started. |
| `TransactionState.NestedTransactions.Begin` | fvm/state/transaction_state.go:225-263 | Pushes an empty frame, unless the current one is parse restricted. |
| `TransactionState.NestedTransactions.Commit` | fvm/state/transaction_state.go:303-339 | Merges the current frame into its parent exactly when the id matches, it is unrestricted and not the main one. |
| `TransactionState.NestedTransactions.Restart` | fvm/state/transaction_state.go:392-419 | Everything above the named frame disappears and its own changes are dropped; an unknown id changes nothing. |
| `TransactionState.NestedTransactions.Pause` | fvm/state/transaction_state.go:362-380 | Detaches the current frame with its writes. |
| `TransactionState.NestedTransactions.Resume` | fvm/state/transaction_state.go:382-384 | Pushes the detached frame back. |
| `TransactionState.CollectValid` | fvm/errors/errors_collector.go:27-60 | A collected failure is never lost, and no other error becomes one. |
| `TransactionState.CollectReports` | fvm/errors/errors_collector.go:27-60 | Of any errors collected in any order, a collector returns the first failure, and the first error when there is no failure. |
| `Executor.TransactionExecutor.HandleError` | fvm/transactionInvoker.go:121-139 | Only failures are returned; a transaction error goes to the output. |
| `Executor.TransactionExecutor.PreprocessTransactionBody` | fvm/transactionInvoker.go:157-211 | Which failure it returns; without one the stack is back to the main transaction, and the paused one holds the preprocessing writes, or none after an error. |
| `Executor.TransactionExecutor.AbortPreprocessed` | fvm/transactionInvoker.go:249-266 | The main transaction is unchanged and nothing is left open. |
| `Executor.TransactionExecutor.CheckAndIncrementSequenceNumber` | fvm/transactionSequenceNum.go:34-89 | Commits the incremented number exactly when the key exists, is not revoked, carries the proposed number and is stored; otherwise nothing, with the error of the first of these that fails. |
| `Executor.TransactionExecutor.NormalExecution` | fvm/transactionInvoker.go:354-433 | The first error ends it; without one the writes of the balance check, body, flush, storage check and fees are merged, in that order. |
| `Executor.TransactionExecutor.ErrorExecution` | fvm/transactionInvoker.go:436-467 | All writes are dropped, whatever was left open, and the fees are kept only if their deduction succeeds. |
| `Executor.TransactionExecutor.Commit` | fvm/transactionInvoker.go:469-499 | The depth check never fires, and the body's writes are merged into the main transaction. |
| `Executor.TransactionExecutor.ExecuteTransactionBody` | fvm/transactionInvoker.go:268-296 | The error it returns is the first failure, else the first error, of preprocessing, the body, the second fee deduction and the commit; without a failure one frame is left. |
| `Executor.TransactionExecutor.Run` | fvm/transactionInvoker.go:213-247 | The same over all stages, where a check that fails is the last one, for every combination of errors and switched-off stages, and what is left in the main transaction. |
| `Executor.TransactionExecutor.Procedure` | fvm/fvm.go:82-89 | Preprocess then Execute: it halts if and only if a stage that is reached fails fatally, with the first such failure; otherwise the output is the first error. Then nesting is back to the main transaction, which gained nothing on an authorization or sequence failure, the sequence number and at most the fees on a body failure, and the sequence number with all writes and fees on success; the output error is empty exactly then. |
| `Executor.ErrorsMean` | fvm/transactionInvoker.go:213-296 | The errors of the stages that are reached report a failure exactly when the run halts, and nothing exactly when it succeeds. |
| `Executor.NoReplay` | fvm/transactionSequenceNum.go:66-83 | After a run that was not turned down, whether its body succeeded or not, the same proposal fails the sequence number check. |
| `TrieCodec.ItemsRoundTrip` | ledger/trie_encoder.go:196-210 | A list of length-prefixed items decodes to itself whenever its elements do and their sizes fit. |
| `TrieCodec.KeyRoundTrip` | ledger/trie_encoder.go:176-283 | A key whose counts and lengths fit decodes to itself. |
| `TrieCodec.EncodeKey` | ledger/trie_encoder.go:176-210 | The append loop produces that encoding. |
| `TrieCodec.DecodeKey` | ledger/trie_encoder.go:223-283 | The reading loop is that decoder, on every input. |
| `TrieCodec.PayloadRoundTrip` | ledger/trie_encoder.go:329-504 | Payloads round trip in versions 0 and 1, and so does a missing payload. |
| `TrieCodec.PayloadKeyRoundTrip` | ledger/trie_encoder.go:371-397 | The key stored in a payload survives the round trip. |
| `TrieCodec.UpdateRoundTrip` | ledger/trie_encoder.go:507-641 | A trie update round trips if and only if it is missing or has a path; one without paths is rejected by the decoder. |
| `TrieCodec.EmptyUpdateIsLost` | ledger/trie_encoder.go:533-535 | The smallest update that does not come back. |
| `TrieCodec.EncodeTrieUpdate` | ledger/trie_encoder.go:507-553 | The two append loops produce that encoding. |
| `TrieCodec.DecodeTrieUpdate` | ledger/trie_encoder.go:556-641 | The two reading loops are that decoder, on every input. |
| `TrieCodec.ProofRoundTrip` | ledger/trie_encoder.go:644-801 | A proof whose sizes fit decodes to itself. |
| `TrieCodec.EncodeTrieProof` | ledger/trie_encoder.go:644-694 | The encoder produces that encoding. |
| `TrieCodec.DecodeTrieProof` | ledger/trie_encoder.go:697-801 | The reading loop is that decoder, on every input. |
| `TrieCodec.BatchProofRoundTrip` | ledger/trie_encoder.go:804-888 | A batch proof, empty or not, decodes to itself. |
| `TrieCodec.EncodeTrieBatchProof` | ledger/trie_encoder.go:804-834 | The append loop produces that encoding. |
| `TrieCodec.DecodeTrieBatchProof` | ledger/trie_encoder.go:837-888 | The reading loop is that decoder, on every input. |
| `TrieCodecExact.HeaderIs` | ledger/trie_encoder.go:66-99 | A header is accepted if and only if its version is supported and its type the expected one. |
| `TrieCodecExact.KeyExact` | ledger/trie_encoder.go:223-283 | The converse of the round trip: an input decodes to a key if and only if it begins with an encoding of that key in a supported version. |
| `TrieCodecExact.PayloadExact` | ledger/trie_encoder.go:423-504 | The same for payloads in versions 0 and 1; exactly the empty input is a missing payload. |
| `TrieCodecExact.UpdateExact` | ledger/trie_encoder.go:556-641 | An input decodes to an update if and only if it is laid out as root hash, count, path size 32 (any, without paths), paths and sized payloads, with the right header; bytes at the end, and after each payload in its block, are ignored. |
| `TrieCodecExact.ProofExact` | ledger/trie_encoder.go:697-801 | The same for proofs: inclusion in the top bit of the first byte, steps, flags, a 32-byte path, a sized payload and 32-byte interim hashes. |
| `TrieCodecExact.BatchExact` | ledger/trie_encoder.go:837-888 | The same for batches: a count and that many sized proofs. |
| `TrieCodecPanics.SizedPanics` | ledger/common/utils/utils.go:79-84 | Reading a length-prefixed slice panics if and only if the size field has 8 bytes and holds 2^63 or more. |
| `TrieCodecPanics.KeyNeverPanics` | ledger/trie_encoder.go:223-283 | Decoding a key never panics, on any input. |
| `TrieCodecPanics.PayloadPanics` | ledger/trie_encoder.go:423-504 | Decoding a payload panics if and only if it has version 0 and the 8-byte value size after its key is too large. |
| `TrieCodecPanics.PayloadPanicExample` | ledger/trie_encoder.go:473-485 | It happens: a payload with an empty key and the value size 2^63. |
| `TrieCodecPanics.UpdatePanics` | ledger/trie_encoder.go:556-641 | Decoding a trie update panics if and only if, by its bytes, the first payload that does not fit has a value size that is too large. |
| `TrieCodecPanics.UpdatePanicExample` | ledger/trie_encoder.go:618-633 | It happens: an update of one path with that payload. |
| `TrieCodecPanics.ProofPanics` | ledger/trie_encoder.go:697-801 | Decoding a proof panics if and only if the payload size after its path, or the value size inside the payload, is too large. |
| `TrieCodecPanics.ProofPanicExample` | ledger/trie_encoder.go:757-764 | It happens: a proof with the payload size 2^63. |
| `TrieCodecPanics.BatchPanics` | ledger/trie_encoder.go:837-888 | Decoding a batch proof panics if and only if, by its bytes, the first proof that does not fit is too large or has a size inside that is. |
| `TrieCodecPanics.BatchPanicExample` | ledger/trie_encoder.go:870-880 | It happens: a batch of one proof of size 2^63. |
| `CompactHash.ReadBitIsDigit` | ledger/common/bitutils/utils.go:5-9 | Bit i of a byte string is the i-th binary digit, from the top, of the big-endian number the bytes spell. |
| `CompactHash.NumberOfPrefix` | ledger/trie.go:79-84 | The first i branching decisions of a path are the high part of its number. |
| `CompactHash.BitsCount` | ledger/trie.go:65-87 | Descending by the bits of a path and counting leaves from the left lead to the same place of the complete tree. |
| `CompactHash.DefaultIsRoot` | ledger/trie.go:43-55 | Each default hash is the root of the all-default tree of its height. |
| `CompactHash.OffPath` | ledger/trie.go:65-87 | A subtree that does not lead to the leaf has the default root. |
| `CompactHash.InitDefaultHashes` | ledger/trie.go:43-55 | The table equals the roots of the all-default trees at every height from 0 to 256. |
| `CompactHash.ComputeCompactValue` | ledger/trie.go:68-87 | For every path, value and height from 0 to 256 the result is the node of that height above leaf number `path`, counted from the left, of the fully expanded tree in which only that leaf holds a value. |
| `CompactHash.HashUp` | ledger/trie.go:76-87 | The loop climbs from the leaf to the root of the subtree, against default siblings. |
| `Notifier.StepKeeps` | engine/notifier.go:30-47 | Every step keeps: a message in a store implies a token, an awake consumer that has yet to poll that store, or a producer about to notify. |
| `Notifier.RunKeeps` | engine/notifier.go:30-47 | The same over every interleaving of any number of producers, consumers and stores. |
| `Notifier.MessagesGetServed` | engine/enqueue.go:65-97 | Once the producers are done and a store holds a message, a consumer that will poll it can move or be woken, or the token waits for the first consumer that gets back to it. |
| `Notifier.PollsTake` | engine/common/synchronization/engine.go:256-281 | A consumer that has yet to poll a nonempty store takes a message after at most as many polls as there are stores up to it. |
| `Notifier.DrainIsBounded` | engine/common/synchronization/engine.go:242-281 | However the consumers interleave, they make at most a computed number of steps: a round of polls for each message, one for the token, and the polls under way. |
| `Notifier.EverythingDrains` | engine/enqueue.go:65-97 | After any run that leaves the producers idle, the consumers' steps are bounded, and when none of them can move all stores are empty. |
| `Notifier.MessageHandler.Process` | engine/enqueue.go:65-97 | The first matching pattern decides; a kept message is appended to its store and the token is set, and nothing changes otherwise. A kept call is the Put and Notify steps of the machine, a rejected one its Refused step. |

## Left out

- The plain Feldman VSS protocol without complaints (crypto/dkg_feldmanvss.go, message handlers): it would only add easier members; the parts the complaint protocol reuses are modelled.
- FeldmanVSSQual.Participant.Start: does not model a failure to seed the random generator; the sampled polynomial is a parameter.
- FeldmanVSSQual.Participant.GenerateShares: sampling and seeding errors are not modelled, for the same reason.
- SchemeExample.ContractsAreConsistent: takes the primality of the order of BLS12-381 as given.
- SharePool.Inspector.New: keys of other schemes and their error are not modelled.
- Bls.Verify: hasher errors are not modelled; the hash point is given.
- JointFeldman.JointEndToEnd: the common polynomial is stated for vectors of multiples of the generator; for other points, which the code reads without a subgroup check, the common vector is.
- JointFeldman.Joint.Start: the running flag that the instances share through one structure is modelled as equal flags in all instances, an invariant of the class.
- SharePool.Inspector.VerifyAndAdd: hasher errors of the signature check are not modelled; the inspector builds its own hasher.
- BatchVerify.BatchVerifyOneMessage: allocation failures, the unexpected read error and hasher errors are not modelled.
- ManyMessages.VerifyManyMessages: hashes are given, so hasher errors and keys of other schemes are not modelled; 32-bit counts do not overflow.
- ThresholdSignatures.ThresholdKeyGen: seeding of the random generator is not modelled.
- Sswu.MapToE1: ends at the isogenous curve; the 11-isogeny, cofactor clearing and message expansion are not modelled. Montgomery form is not modelled.
- WorkerPool.StepInv: worker steps between two channel or flag accesses are atomic, which the channels and the wait group justify.
- TransactionVerifier.VerifyTransaction: error wrapping and tracing are not modelled, and weights are unbounded integers.
- Executor.TransactionExecutor.Procedure: metering limits, events and derived-data invalidation are not modelled, and merging frames does not fail.
- TransactionState.NestedTransactions.Restart: meter and touched-register bookkeeping of merged frames is not modelled.
- TrieCodec.DecodeKey: key parts and values as top-level entities, and JSON or CBOR forms, are not modelled.
- CompactHash.ComputeCompactValue: SHA3 is an arbitrary pair of functions.
- Notifier.EverythingDrains: that the scheduler keeps running a consumer that can move is assumed of the runtime, not modelled.
- Point serialization, subgroup checks, SPoCK proofs, ECDSA, KMAC and key derivation from seeds: thin layers over the curve and hash libraries.
- Consensus, networking, access nodes, the Cadence runtime and command-line wiring.
