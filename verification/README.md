# Verification of the trail, signature and exactly-once cores

This project models, in Dafny, the parts of the repository whose correctness is not visible in any
single function, and proves what they promise.

**Tamper evidence.** A producer appends records to a per-agent hash chain, seals the heads of a
period under a Merkle root, and a verifier later answers "complete", "truncated", "broken" and so
on. `Jcs`, `Merkle`, `TrailHead` model the three layers. `JcsTheorems` and `MerkleTheorems` prove
what the lower two promise, `TrailTheorems` what a positive verdict means, `TrailHonest` what
undamaged logs and windows are answered, `TrailDamage` what gaps and reordered records are,
`TrailTamper` what altered records are, and `TrailErrors` when the verifier raises instead of
answering. `TrailVerdicts` is a second description of the verifier, by the presented data alone: for
every report the condition under which it is the answer. `TrailProducer` does the same for the
producer. SHA-256 is an arbitrary function to 32-byte strings. A
result that rests on it reads "either the claim holds, or two different messages of this finite set,
all of them hashed by the functions involved, have the same hash"; the set is explicit because some
collision always exists. `EcmaNumber` covers the printing of floats, `EcmaText` characterizes the one
text each has, and `JcsNumbers` places them among the integers of a JSON value, `Cadence` the ceiling on the gap between checkpoints,
`Timestamps` and `ActionRef` the domain and the digest of an action.

**BIP-340.** `Modular`, `Curve`, `Group` and `Bip340` model the curve arithmetic, from Fermat's
little theorem to signing and verification. `ChordTangent` says which point a sum is, by the line
through the summands and without a slope, and `Bip340Verify` what `schnorr_verify` accepts and what
`schnorr_sign` returns, in terms of curve points and multiples. `CubeTest` computes the one power that shows secp256k1
to have no point with y = 0, so that its addition is closed. That P is prime, that the addition of
the source's `point_add` is associative on curve points, and that G has order N are hypotheses of
the theorems (`Bip340.GroupLaw`); everything else is proved, commutativity included, for all domain parameters of the
source's shape and, in `Bip340.Secp256k1SignVerifies`, `Bip340Verify.Secp256k1VerifyExactly` and
`CubeTest.Secp256k1Closed`, for its constants.

**Exactly-once protocols.** `Guard` is a state machine with one step per SQL statement or
transaction of the idempotency guard and the effect store, in which any process can stop between
two steps; `GuardObjects` has the source's objects, each of whose calls is an uninterrupted run of
that machine. `Settlement` is one round of `execute_payment` against an adversary that decides, for
every call, whether it writes and what it answers; `SettlementBackends` shows the two backends of
the repository to be such adversaries in every mode, and `SettlementObjects` has the store, the
backends and the client as classes.

**Chains.** `Scopes` and `Delegation` model the delegation-chain verifier with its replay registry,
`DelegationFindings` says of each possible finding when it is reported;
`TrailGraph` and `TrailTree` the parent walk and the descendant tree of trails.

`Python`, `Bytes`, `Order`, `Unicode` and `Decimal` hold what several of these share: exceptions,
hexadecimal text, lexicographic order and the stable sort, UTF-8 and UTF-16, and digit strings.

Check the whole project with `dafny verify dfyconfig.toml` in this directory (Dafny 4.11).

## What the code does differently from its documentation

- `_is_hex64` (plugins/agt_evidence_anchor/trail_head.py:75-82) promises 64 lowercase hexadecimal
  characters, but `bytes.fromhex` skips white space between bytes, so shorter digests padded with
  blanks pass. `Bytes.IsHex64Exactly` gives the exact condition under which code and documentation
  agree, `Bytes.BlankedTextAccepted` the texts on which they do not. The theorems follow the code.
- `execute_payment` is documented to preserve the broadcast hash of an indeterminate settlement
  (examples/conformance/settlement-retry-safety/execute_payment.py:3-5), but a later failure without
  a reference overwrites it. `Settlement.BroadcastRefKept` gives the exact condition,
  `Settlement.BroadcastRefCanBeLost` a run in which it is lost. At most one entry per key holds
  regardless.
- The narrowing check between neighbouring hops
  (examples/conformance/delegation-chain-ref/verify.py:264-272) does not carry over to the chain
  from a scope that ends in ":*:*". `Scopes.TransitiveExactly` and `Scopes.NeighboursEnoughExactly`
  state that this is the only exception.
- `verify_trail` promises a verdict for each failure (plugins/agt_evidence_anchor/trail_head.py:280),
  but some requests raise an exception instead. `TrailErrors.RaisesExactly` states which ones, and
  which exception: among them a window of two or more records that all carry an `agent_seq`, the first
  of them null (TypeError; in a full log the same is an agent gap, `TrailErrors.NullCountersRaise`),
  and a proven checkpoint without `period_end` whose age is asked for or whose head is matched
  (KeyError). The model raises them too.

## Model

| member | source | states |
|---|---|---|
| JcsTheorems.JcsDumpsDefined | jcs.py:78-116 | jcs_dumps raises, and raises ValueError, exactly on values that hold an integer outside +/-(2^53-1), a NaN or an infinity |
| JcsTheorems.ParseInvertsJcsDumps | jcs.py:107-116 | An independent parser of canonical text gives every printed value back, floats included, up to key order and the type of a number, with keys ascending; a UTF-8 decoder gives the text back from the bytes |
| JcsTheorems.TextSpelling | jcs.py:85-86 | A string is written between quotes, every character literally except quotes, backslashes and control characters, which have one escape each, lower case where it has digits |
| Unicode.Utf8RoundTrip | jcs.py:119-120 | A strict UTF-8 decoder gives the text back from the bytes |
| JcsTheorems.JcsBytesInjective | jcs.py:119-120 | Two values have equal bytes exactly when they are equal as JSON, where 1 and 1.0 are one number |
| JcsNumbers.SameText | jcs.py:51-73 | Numbers below 10^21, ints and floats alike, are written alike exactly when they have one value |
| JcsNumbers.WrittenIsRead | jcs.py:51-73 | The text of a finite float is read back as a number of the same value that is written the same |
| JcsTheorems.CanonicalKeysAscend | jcs.py:26-32 | Keys ascend strictly in UTF-16 code units in every dict at every depth |
| JcsTheorems.CanonicalEqual | jcs.py:26-32 | Two values have one canonical form, up to the type of numbers, exactly when they are equal as JSON |
| Unicode.BigEndianOrder | jcs.py:28 | Sorting by big-endian UTF-16 bytes is sorting by code units |
| Unicode.Utf16RoundTrip | jcs.py:28 | A strict UTF-16 decoder gives a key back from the code units it is sorted by |
| EcmaNumber.NumberStringValue | jcs.py:51-73 | The text written for a shortest decimal text denotes exactly the same decimal value |
| EcmaNumber.FixedExactly | jcs.py:65-73 | Fixed notation exactly for values from 1e-6 up to but not including 1e21, an exponent otherwise |
| EcmaNumber.NumberStringForm | jcs.py:59-73 | No superfluous leading or trailing zero, no dangling point, a signed exponent without leading zero |
| EcmaNumber.OneTextPerValue | jcs.py:51-73 | Two decimal texts are written alike exactly when they denote one value |
| EcmaNumber.EcmaNumberStringMeans | jcs.py:35-75 | NaN and infinities are refused; every other float's text denotes it, signed, both zeros as "0" |
| EcmaNumber.EcmaNumberStringUnique | jcs.py:35-75 | Two finite floats are written alike exactly when they are equal |
| EcmaText.EcmaTextExactly | jcs.py:35-75 | A float is written as a text exactly if that text has the shape the standard fixes for its magnitude and denotes its value: there is one such text |
| Merkle.BuildMerkleTree | plugins/agt_evidence_anchor/merkle.py:74-109 | The nested loops compute the levels of the specification, or refuse an empty list or an invalid reference |
| Merkle.GetProof | plugins/agt_evidence_anchor/merkle.py:112-131 | The sibling hashes on the way up from the first leaf that is this reference, or the refusal |
| Merkle.VerifyInclusion | plugins/agt_evidence_anchor/merkle.py:134-155 | Accepts exactly when the decoded reference climbs with the decoded siblings to the root |
| MerkleTheorems.RootIsTreeHash | plugins/agt_evidence_anchor/merkle.py:95-109 | The level-by-level root is the hash of a binary tree defined by recursion over the leaves |
| MerkleTheorems.InclusionSound | plugins/agt_evidence_anchor/merkle.py:134-155 | An accepted proof of any length, siblings of any byte length, proves membership among the decoded leaves, or a collision |
| MerkleTheorems.InclusionExactly | plugins/agt_evidence_anchor/merkle.py:134-155 | A proof is accepted exactly if all its texts are hexadecimal, the reference has 64 characters and the root is the hash of the path folded from the leaf |
| MerkleTheorems.EqualRootsBindLeaves | plugins/agt_evidence_anchor/merkle.py:46-48 | Roots of two lists of any lengths are equal exactly if the trees are equal up to exchanged siblings, with equal multisets of leaves, or a collision |
| MerkleTheorems.ProofAccepted | plugins/agt_evidence_anchor/merkle.py:112-155 | The proof for every member is accepted against the tree's root and has at most one sibling per level |
| MerkleTheorems.TreeDepth | plugins/agt_evidence_anchor/merkle.py:95-109 | n leaves give d+1 levels with 2^(d-1) < n <= 2^d |
| TrailHead.TrailLog.AppendEntry | plugins/agt_evidence_anchor/trail_head.py:134-144 | Appends the next record of the chain and changes nothing when it raises |
| TrailProducer.AppendExactly | plugins/agt_evidence_anchor/trail_head.py:99-144 | append_entry refuses exactly malformed references and counters out of range, always with a ValueError |
| TrailProducer.ParseTsExactly | plugins/agt_evidence_anchor/trail_head.py:88-91 | A timestamp is read as an instant exactly if it is a text that ends in Z and the rest is read as UTC |
| TrailProducer.CheckpointExactly | plugins/agt_evidence_anchor/trail_head.py:147-158 | The checkpoint shows the last record; only an empty log and an unreadable period end are refused |
| TrailProducer.SealExactly | plugins/agt_evidence_anchor/trail_head.py:165-180 | A period is sealed exactly if it has checkpoints, one per agent, one period end and values within the profile; the root is the tree of their digests by agent |
| TrailHead.CheckShape | plugins/agt_evidence_anchor/trail_head.py:279-292 | The loop over record shapes stops at the first malformed record |
| TrailHead.CheckChain | plugins/agt_evidence_anchor/trail_head.py:304-319 | The loop with prev_seq and prev_head reports the first record that breaks the chain, with the verdict that TrailVerdicts.ReportExactly pins |
| TrailHead.CheckCounters | plugins/agt_evidence_anchor/trail_head.py:355-358 | The loop over neighbours reports the first jump of the agent's own counter, or the TypeError of a null |
| TrailHead.RunVerifyTrail | plugins/agt_evidence_anchor/trail_head.py:251-409 | The verifier with its loops answers any JSON value as the specification VerifyTrail, which the next rows and the theorems below pin report by report |
| TrailVerdicts.ReportExactly | plugins/agt_evidence_anchor/trail_head.py:251-409 | For every report with its verdict, reason, position and numbers: it is the answer exactly under its condition on the presented records, anchor and checkpoint, and the conditions follow the order of the checks |
| TrailVerdicts.ContinuityOnlyMeans | plugins/agt_evidence_anchor/trail_head.py:304-365 | A continuity_only answer means that every record states the hash of its own fields and the head of the record before it, counters run on, and a certified first prev_head is the head of an anchor proven in the anchor root |
| TrailTamper.AlterationIsReported | plugins/agt_evidence_anchor/trail_head.py:304-319 | A record of an honest log or window replaced by one that does not hash to its head is head_mismatch at its number; rehashed but not linked to its predecessor it is link_mismatch |
| TrailTamper.KeptHeadIsReported | plugins/agt_evidence_anchor/trail_head.py:304-319 | A record with another committed field and the honest head is head_mismatch at its number, or its bytes and the honest ones collide |
| TrailTheorems.PreimageInjective | plugins/agt_evidence_anchor/trail_head.py:99-127 | The encoded preimage determines seq, action_ref, prev_head and agent_seq |
| TrailTheorems.LogIsHonest | plugins/agt_evidence_anchor/trail_head.py:134-144 | Every record of a log built by append_entry is numbered by position, linked to its predecessor and hashed |
| TrailTheorems.ChainBindsBackward | plugins/agt_evidence_anchor/trail_head.py:304-319 | A head that matches an honest one commits to every presented record before it |
| TrailTheorems.OneCheckpointPerAgent | plugins/agt_evidence_anchor/trail_head.py:165-180 | A sealed period holds one checkpoint per agent |
| TrailTheorems.IncludedWasSealed | plugins/agt_evidence_anchor/trail_head.py:373-375 | A checkpoint proven in a sealed root is one of those that were sealed, if no collision |
| TrailTheorems.SealedVerdictBindsLog | plugins/agt_evidence_anchor/trail_head.py:383-409 | A positive verdict, of a full log or of a window, means the presented records equal the honest log in every committed field and a window's first prev_head is the honest one even without anchor, or a collision |
| TrailHonest.HonestLogIsContinuous | plugins/agt_evidence_anchor/trail_head.py:362-365 | Every undamaged log or window verifies, with the certified anchor or none; without a checkpoint its completeness is not evaluated |
| TrailHonest.HonestVerdict | plugins/agt_evidence_anchor/trail_head.py:362-409 | Records k to m against the sealed checkpoint at n: not evaluated for n < k, truncated at m+1 for m < n, complete for m = n, complete with exactly m-n unsealed for m > n, in the words for a log or a window; stale with its age exactly when the caller's bound is exceeded |
| TrailHonest.SealedCheckpointHasProof | plugins/agt_evidence_anchor/trail_head.py:165-180 | Every sealed checkpoint has a proof, and it is accepted against the period's root |
| TrailErrors.RaisesExactly | plugins/agt_evidence_anchor/trail_head.py:279-409 | The verifier raises an exception exactly in the listed situations, each with its exception, and answers otherwise |
| TrailErrors.TypeErrorOnlyInWindows | plugins/agt_evidence_anchor/trail_head.py:346-358 | A TypeError needs a window of two or more records whose first counter is present and null |
| TrailErrors.NullCountersRaise | plugins/agt_evidence_anchor/trail_head.py:346-358 | Honest records with null counters added: an agent gap at 1 in a full log, a TypeError in every window of two or more |
| TrailDamage.RemovalIsGap | plugins/agt_evidence_anchor/trail_head.py:304-308 | Any selection of records of a log or window with a hole before its end is seq_gap at the first record after the hole |
| TrailDamage.ReorderIsReported | plugins/agt_evidence_anchor/trail_head.py:300-303 | Any permutation of a log or window but the identity is seq_order at the first misplaced record |
| Bytes.HexRoundTrip | plugins/agt_evidence_anchor/merkle.py:42-43 | Decoding inverts hexadecimal printing |
| Bytes.IsHex64Exactly | plugins/agt_evidence_anchor/trail_head.py:75-82 | The shape check equals "64 lowercase hex characters" exactly on texts without white space |
| Bytes.BlankedTextAccepted | plugins/agt_evidence_anchor/trail_head.py:75-82 | A family of texts the code accepts and its documentation does not |
| Cadence.CheckCadence | plugins/agt_evidence_anchor/trail_head.py:195-248 | The loop over neighbours in time answers as the specification, for any ceiling, NaN and infinities included |
| Cadence.CadenceRefusals | plugins/agt_evidence_anchor/trail_head.py:223-237 | Exactly when a ceiling is refused, agents cannot be compared, a stream is malformed and with which reason |
| Cadence.CadenceCovers | plugins/agt_evidence_anchor/trail_head.py:234-248 | "ok" exactly when from every instant between the first and the last checkpoint the next is within the ceiling, in whatever order they are given |
| Cadence.CadenceBreach | plugins/agt_evidence_anchor/trail_head.py:238-247 | A reported breach names two checkpoints of the stream, with that gap, none between them, and everything before them covered: it is the first |
| Timestamps.StringOrderIsTimeOrder | plugins/agt_evidence_anchor/action_ref.py:50 | For accepted texts string order is chronological order, and one instant has one text |
| Timestamps.EveryInstantHasText | plugins/agt_evidence_anchor/action_ref.py:128-153 | Every millisecond of the years 1 to 9999 has an accepted text |
| Timestamps.FormatAccepted | plugins/agt_evidence_anchor/action_ref.py:174-181 | The output of format_timestamp is accepted exactly from the year 1000 on, and denotes the datetime cut to the millisecond |
| Timestamps.AcceptedExactly | plugins/agt_evidence_anchor/action_ref.py:50-153 | Exactly the texts YYYY-MM-DDTHH:MM:SS.mmmZ that name a day of the calendar and a time of day are accepted |
| ActionRef.JcsEncodeIsJcs | plugins/agt_evidence_anchor/action_ref.py:156-171 | For keys within the Basic Multilingual Plane the code-point sort gives the canonical encoding |
| ActionRef.RefDefined | plugins/agt_evidence_anchor/action_ref.py:65-153 | An action_ref is computed exactly for actions of the domain: 64 lowercase hex characters, the digest of the canonical JSON |
| ActionRef.RefusedExactly | plugins/agt_evidence_anchor/action_ref.py:104-153 | The digest is computed exactly for ASCII fields, a scope that is not empty and an accepted timestamp; otherwise the exception names the first field at fault |
| ActionRef.RefText | plugins/agt_evidence_anchor/action_ref.py:206-214 | The digest is that of the JSON text with these four keys in ascending order and no white space |
| ActionRef.ActionRefBinds | plugins/agt_evidence_anchor/action_ref.py:184-214 | Two accepted actions have one action_ref exactly when agent, type, scope and instant agree, or their preimages collide |
| Modular.Fermat | examples/conformance/composed-attestation-bip340-cell/bip340.py:43-45 | Fermat's little theorem, which makes pow(d, P-2, P) an inverse |
| Modular.InverseByPower | examples/conformance/composed-attestation-bip340-cell/bip340.py:43-45 | pow(d, p-2, p) is the inverse of every d that is not zero modulo the prime p |
| CubeTest.Secp256k1Closed | examples/conformance/composed-attestation-bip340-cell/bip340.py:35-47 | For the source's P, if it is prime: no curve point has y = 0, point_add maps curve points to curve points or infinity, and it is the chord and tangent sum for all of them |
| Curve.ClosedExactly | examples/conformance/composed-attestation-bip340-cell/bip340.py:35-47 | Modulo any prime above 7 point_add is closed exactly when no curve point has y = 0 |
| Curve.PointAddCloses | examples/conformance/composed-attestation-bip340-cell/bip340.py:35-47 | Chord and tangent through two curve points meet the curve again: the sum is on it, unless a point with y = 0 is doubled (the curve of the source has none) |
| ChordTangent.SumExactly | examples/conformance/composed-attestation-bip340-cell/bip340.py:35-47 | On curve points point_add returns a point exactly if it is the sum: infinity for opposite points, otherwise the reflection of the third point where the chord, or the tangent, meets the curve; for a doubled y = 0 see Curve.ClosedExactly |
| ChordTangent.Commutative | examples/conformance/composed-attestation-bip340-cell/bip340.py:35-47 | The sum does not depend on the order of its points |
| Curve.LiftXSound | examples/conformance/composed-attestation-bip340-cell/bip340.py:79-86 | What lift_x returns is on the curve, has this x and an even y |
| Curve.LiftXComplete | examples/conformance/composed-attestation-bip340-cell/bip340.py:79-86 | lift_x returns the even point for the x of every curve point |
| Curve.LiftXExact | examples/conformance/composed-attestation-bip340-cell/bip340.py:79-86 | lift_x returns None exactly for the x of no curve point |
| Group.TimesSum | examples/conformance/composed-attestation-bip340-cell/bip340.py:35-47 | (m + n) A is m A + n A, from associativity |
| Group.DoubleAndAdd | examples/conformance/composed-attestation-bip340-cell/bip340.py:50-56 | The double-and-add loop adds w times the scalar to u, from any state of its two variables |
| Group.ComplementIsOpposite | examples/conformance/composed-attestation-bip340-cell/bip340.py:109-115 | k G and (n - k) G have one x and opposite y |
| Group.CombinedMultiple | examples/conformance/composed-attestation-bip340-cell/bip340.py:136 | s G + (n - e)(d G) is k G when s is k + e d modulo the order |
| Bip340.ComputePointMul | examples/conformance/composed-attestation-bip340-cell/bip340.py:50-56 | The 256-step loop computes the recursive double-and-add |
| Bip340.PointMulIsTimes | examples/conformance/composed-attestation-bip340-cell/bip340.py:50-56 | point_mul is scalar multiplication for every scalar below 2^256 |
| Bip340.EvenScalarSound | examples/conformance/composed-attestation-bip340-cell/bip340.py:108-115 | The scalar chosen by parity has the same x and an even y, for the key and for the nonce |
| Bip340.EquationHolds | examples/conformance/composed-attestation-bip340-cell/bip340.py:125-139 | verify accepts R and (k + e d) mod N for even-y points of k and d |
| Bip340Verify.VerifyExactly | examples/conformance/composed-attestation-bip340-cell/bip340.py:125-139 | verify accepts exactly 32 and 64 bytes with r below P and s below N, a key that is the x of an even curve point K, and s G + (N - e) K the even curve point with x = r |
| Bip340Verify.VerifyRefuses | examples/conformance/composed-attestation-bip340-cell/bip340.py:126-132 | Wrong lengths, a key that does not lift, r not below P or s not below N are refused, without any hypothesis |
| Bip340Verify.AcceptedScalar | examples/conformance/composed-attestation-bip340-cell/bip340.py:125-139 | For the r of a nonce k and the key of d exactly one s is accepted: k + e d modulo N |
| Bip340Verify.OneScalar | examples/conformance/composed-attestation-bip340-cell/bip340.py:125-139 | For one message, key and r at most one signature is accepted |
| Bip340Verify.SignExactly | examples/conformance/composed-attestation-bip340-cell/bip340.py:94-122 | What sign returns: key, nonce and challenge written out with their tagged hashes, and r and s from them |
| Bip340.SignVerifies | examples/conformance/composed-attestation-bip340-cell/bip340.py:94-122 | sign succeeds exactly on keys in range, 32 auxiliary bytes and a nonzero nonce; every signature it returns is accepted under pubkey_gen of the key, so the self-check error is unreachable |
| Bip340.Secp256k1SignVerifies | examples/conformance/composed-attestation-bip340-cell/bip340.py:94-139 | The same for the source's P, N and G, whose G is shown to be on the curve |
| Bip340Verify.Secp256k1VerifyExactly | examples/conformance/composed-attestation-bip340-cell/bip340.py:125-139 | VerifyExactly for the source's P, N and G |
| Guard.NextKeeps | examples/conformance/crewai-unguarded-retry/durable_idempotency_guard.py:52-141 | Every statement of every process, and every crash, keeps the invariant of tables and processes |
| Guard.EffectAtMostOnce | examples/conformance/crewai-unguarded-retry/durable_idempotency_guard.py:82-141 | In every interleaving with crashes each action has at most one effect row, and every effect_id returned or stored is that row's |
| Guard.StepAdvances | examples/conformance/crewai-unguarded-retry/durable_idempotency_guard.py:61-80 | One step moves a record only from absent to PENDING, or to COMMITTED |
| Guard.CommittedForever | examples/conformance/crewai-unguarded-retry/durable_idempotency_guard.py:61-80 | A record never disappears, and a committed one never changes |
| Guard.FirstCallCommits | examples/conformance/crewai-unguarded-retry/durable_idempotency_guard.py:108-121 | An undisturbed first call runs the effect once, commits it and returns its id |
| Guard.ReconcileExactly | examples/conformance/crewai-unguarded-retry/durable_idempotency_guard.py:123-141 | An uninterrupted reconcile of a PENDING record with a readable stored effect commits the effect_id of least attempt number and returns it; every other one changes no table and returns nothing |
| Guard.OrphanIsRecovered | examples/conformance/crewai-unguarded-retry/durable_idempotency_guard.py:82-141 | An effect that commits and then raises, then reconcile, then a retry: the id is returned by both and there is one effect |
| Guard.CommittedCallReturns | examples/conformance/crewai-unguarded-retry/durable_idempotency_guard.py:90-95 | A call for a committed record returns its id and runs nothing |
| Guard.PendingCallWaits | examples/conformance/crewai-unguarded-retry/durable_idempotency_guard.py:97-106 | A call for a PENDING record changes nothing and returns no id |
| Guard.FailedCallPends | examples/conformance/crewai-unguarded-retry/durable_idempotency_guard.py:110-115 | A first call whose effect fails leaves a PENDING record, and an effect exactly if it committed before raising |
| Guard.RaceLoserObserves | examples/conformance/crewai-unguarded-retry/durable_idempotency_guard.py:84-106 | A call that loses the reservation runs nothing and returns the id exactly if the winner has committed |
| Guard.AtMostOnceExactly | examples/conformance/crewai-unguarded-retry/durable_idempotency_guard.py:82-141 | At most one effect per action holds in all runs exactly when each action has one reference |
| Guard.TwoReferencesRunTwice | examples/conformance/crewai-unguarded-retry/durable_idempotency_guard.py:82-121 | Any two different references of one action run its effect twice |
| GuardObjects.EffectStore.ApplyEffect | examples/conformance/crewai-unguarded-retry/effect_store.py:39-55 | The counter and the row change together or not at all |
| GuardObjects.EffectStore.ReadIndependent | examples/conformance/crewai-unguarded-retry/effect_store.py:57-86 | When readable, the counter and the rows of the action, each as often as it is stored and none else, by ascending attempt number |
| GuardObjects.GuardTable.Reserve | examples/conformance/crewai-unguarded-retry/durable_idempotency_guard.py:71-80 | Inserts a PENDING row exactly when there is none, and says so |
| GuardObjects.DurableIdempotencyGuard.Guard | examples/conformance/crewai-unguarded-retry/durable_idempotency_guard.py:82-121 | One call has the effects of an uninterrupted run of the state machine, returns what the run returned, and logs its outcome; it raises exactly if it reserved and the effect failed |
| GuardObjects.DurableIdempotencyGuard.Reconcile | examples/conformance/crewai-unguarded-retry/durable_idempotency_guard.py:123-141 | The same for reconcile, whose run is pinned by Guard.ReconcileExactly |
| Settlement.AfterKeeps | examples/conformance/settlement-retry-safety/execute_payment.py:19-61 | One round keeps store and ledger consistent, whatever the backend does |
| Settlement.ChargedAtMostOnce | examples/conformance/settlement-retry-safety/execute_payment.py:9-12 | After any rounds for any keys and faults: every entry was made for exactly one key, a submitted one; no key has two entries; a settled record carries its entry's transaction |
| Settlement.AuthorizationLocked | examples/conformance/settlement-retry-safety/execute_payment.py:4-7 | Once submitted, a key keeps its record, with the authorization and time of the first submission, through any rounds |
| Settlement.TerminalForever | examples/conformance/settlement-retry-safety/execute_payment.py:28-31 | A settled or refused record never changes, and dropping all later calls for its key changes nothing at all |
| Settlement.SettlesExactly | examples/conformance/settlement-retry-safety/execute_payment.py:33-61 | A round ends settled exactly if it already was, reconciliation finds the broadcast, or settle confirms at the first call or after one challenge |
| Settlement.TerminalRound | examples/conformance/settlement-retry-safety/execute_payment.py:28-31 | A round for a record that is not indeterminate returns it and calls nothing |
| Settlement.FoundRound | examples/conformance/settlement-retry-safety/execute_payment.py:33-41 | A round whose reconciliation finds the broadcast settles with its reference and does not present again |
| Settlement.PresentedRound | examples/conformance/settlement-retry-safety/execute_payment.py:43-61 | Every other round presents once, or twice after a challenge; record, ledger and outcome for each answer |
| Settlement.BroadcastRefKept | examples/conformance/settlement-retry-safety/execute_payment.py:43-55 | An unsettled round keeps the broadcast reference exactly if its last failure surfaces it or leaves as an exception |
| Settlement.BroadcastRefCanBeLost | examples/conformance/settlement-retry-safety/pending_settlement_store.py:41-45 | A run of two rounds that loses the reference |
| SettlementBackends.BatteryIsRun | examples/conformance/settlement-retry-safety/generic_backend.py:67-128 | Every run against either backend in any mode is a run against the adversary |
| SettlementBackends.RetryLoopEnds | examples/conformance/settlement-retry-safety/facilitator_harness.py:66-136 | In every mode of either backend every submission but the very first of a run settles its key, with one entry |
| SettlementBackends.VectorsHold | examples/conformance/settlement-retry-safety/vectors.json:1-76 | In every mode two or more submissions end settled with the transaction, the one ledger entry and the call counts that the published vectors list, for every key and number of submissions |
| SettlementObjects.PendingSettlementStore.Start | examples/conformance/settlement-retry-safety/pending_settlement_store.py:29-39 | The record of the key is a fresh indeterminate one with the time it was started, no other changes |
| SettlementObjects.PendingSettlementStore.MarkIndeterminate | examples/conformance/settlement-retry-safety/pending_settlement_store.py:41-45 | Sets verdict and reference of this record alone; an unknown key is a KeyError |
| SettlementObjects.PendingSettlementStore.MarkSettled | examples/conformance/settlement-retry-safety/pending_settlement_store.py:47-52 | Sets verdict, transaction and declared_safe of this record alone |
| SettlementObjects.PendingSettlementStore.MarkRefused | examples/conformance/settlement-retry-safety/pending_settlement_store.py:54-58 | Sets verdict and reason of this record alone |
| SettlementObjects.MockFacilitator.Settle | examples/conformance/settlement-retry-safety/facilitator_harness.py:66-127 | Ledger and answer are those of the adversary with the mode's turn for this call |
| SettlementObjects.MockFacilitator.Reconcile | examples/conformance/settlement-retry-safety/facilitator_harness.py:129-136 | Answers from the ledger, except the first call in one mode |
| SettlementObjects.GenericBackend.Settle | examples/conformance/settlement-retry-safety/generic_backend.py:67-119 | The same for the second backend |
| SettlementObjects.GenericBackend.Reconcile | examples/conformance/settlement-retry-safety/generic_backend.py:121-128 | The same for the second backend |
| SettlementObjects.ExecutePayment | examples/conformance/settlement-retry-safety/execute_payment.py:19-61 | The round leaves exactly the records, ledger, outcome and call counts of Execute with the backend's own turns |
| Scopes.TransitiveExactly | examples/conformance/delegation-chain-ref/verify.py:73-93 | What is narrower than a narrower scope is narrower, exactly unless the scope ends in ":*:*" |
| Scopes.NarrowsIsInside | examples/conformance/delegation-chain-ref/verify.py:88-93 | Narrowing is membership in the namespace of the parent, with or without wildcard |
| Scopes.MutualExactly | examples/conformance/delegation-chain-ref/verify.py:88-93 | Two scopes narrow each other exactly if they differ by one final wildcard at most |
| Scopes.NeighboursEnoughExactly | examples/conformance/delegation-chain-ref/verify.py:264-272 | Checking neighbours is enough for every chain from a scope exactly unless it ends in ":*:*" |
| Delegation.EvaluateVector | examples/conformance/delegation-chain-ref/verify.py:167-295 | The loops find exactly the specified findings in order, and record the chain exactly when it passes |
| Delegation.SeenRegistry.ContainsChain | examples/conformance/delegation-chain-ref/verify.py:115-116 | The chain id or one of the delegation references was recorded |
| Delegation.SeenRegistry.RecordChain | examples/conformance/delegation-chain-ref/verify.py:118-120 | Adds the chain id and its references, nothing else |
| Delegation.PassExactly | examples/conformance/delegation-chain-ref/verify.py:186-295 | PASS exactly when the chain conforms as a whole and nothing of it was accepted before; only then is it recorded |
| Delegation.VerdictExactly | examples/conformance/delegation-chain-ref/verify.py:170-185 | FAIL exactly for an adverse finding or a replay, NOT_ASSESSED exactly when there is none but a signed hop has no key and the keys are not declared complete |
| DelegationFindings.FindingsExactly | examples/conformance/delegation-chain-ref/verify.py:186-295 | The report lists exactly the findings that hold of the chain, each described on its own, once and in the order of the checks |
| Delegation.PassNarrowsChainWide | examples/conformance/delegation-chain-ref/verify.py:223-272 | With enforcement, a passing chain narrows from every hop without ":*:*" to every later hop and to the leaf |
| Delegation.NoReplayPasses | examples/conformance/delegation-chain-ref/verify.py:96-120 | Over any run, passing chains have pairwise different ids and disjoint delegation references |
| Delegation.PassesExactly | examples/conformance/delegation-chain-ref/verify.py:274-289 | Whether a submission passes depends only on its chain and the chains accepted before it |
| Delegation.RejectedLeaveNoTrace | examples/conformance/delegation-chain-ref/verify.py:104-108 | Without the submissions that did not pass, the same ones pass and the registry ends the same |
| Delegation.RejectedChangesNoReport | examples/conformance/delegation-chain-ref/verify.py:275-289 | Deleting any submission that did not pass leaves every other report as it was |
| TrailGraph.VerifyChain | mycelium_trails.py:588-647 | The walk with its visited set terminates on every table and reports as the specification |
| TrailGraph.ValidExactly | mycelium_trails.py:601-647 | Valid exactly when the parents lead, over rows without offence, to a row without parent |
| TrailGraph.BrokenExactly | mycelium_trails.py:601-639 | Otherwise the first id of the walk that repeats, is missing or has an offence, with that reason |
| TrailGraph.ReportShows | mycelium_trails.py:588-647 | The negotiation fields of the report are those of the row asked for |
| TrailGraph.TrailsTable.RecordTrail | mycelium_trails.py:225-273 | Appends one signed row or changes nothing; fresh ids keep the table built |
| TrailGraph.BuiltAppend | mycelium_trails.py:240-271 | A table is built by fresh inserts exactly if it was before and the new row is fresh |
| TrailGraph.NoCycle | mycelium_trails.py:604-611 | In a table built by record_trail with fresh ids no walk is reported as a cycle |
| TrailTree.EndsExactly | mycelium_trails.py:499-505 | The climb from a trail ends, or takes any number of steps: exactly then get_trail_graph does not return |
| TrailTree.BuiltReturns | mycelium_trails.py:489-531 | On a table built by record_trail with fresh ids it returns for every id |
| TrailTree.GetTrailGraph | mycelium_trails.py:489-531 | Where the climb ends, it ends at the topmost trail, and the tree below it is finite and returned, or None for an unknown id |
| TrailTree.TreeTimes | mycelium_trails.py:508-529 | The tree below a trail lists its descendants and itself, each once, and nothing else |
| TrailTree.TreeMirrors | mycelium_trails.py:508-529 | Each node shows the columns of its row, and its children are the nodes of exactly the rows that name it as parent, in order |
| TrailTree.GraphListsFamily | mycelium_trails.py:495-531 | The graph of a trail lists exactly the trails with the same topmost ancestor, each once |

## Left out

- SHA-256, Ed25519 and SQLite: a hash is an arbitrary function, the signature check a parameter, and each statement or transaction one atomic step.
- `jcs_dumps` with `ensure_ascii=True`, lone surrogates and keys that are not strings: the model covers the default mode over Unicode scalar values.
- The text repr() gives for a float: taken as given, a decimal text with the float's value; how it is found is not modelled.
- `datetime.fromisoformat` and the clocks: parameters; fromisoformat gives microseconds.
- TrailHead.RunVerifyTrail: does not report the constant field `root_anchoring`.
- Cadence.CheckCadence: does not model the rounding of `total_seconds` to a float; gaps are exact.
- Timestamps.FormatAccepted: models `%Y` as the C library of Linux writes it, without padding, which is what refuses years below 1000.
- `_validate_domain` with `allow_epoch_ms=True` and `compute_action_ref_v2`: one route outside the canonical derivation, and the same digest under a domain tag.
- `DurableIdempotencyGuard` with `reset=True`: it deletes the records the protocol rests on.
- That the settlement store hands out its live records: a returned record is its value at that time.
- `chain_artifact` fields beyond those that are checked, missing fields, and the digests of `delegation_chain_ref` and the leaf: the artifact has its schema, and the digests are parameters.
- TrailGraph.TrailsTable.RecordTrail: does not compute the rate limits or the uuid, which are parameters, and keeps only the columns that the walk and the graph read.
- TrailTree.GetTrailGraph: requires ids that are unique and not empty, as the primary key and uuid4 give, and that the climb ends; does not model Python's recursion limit, and lists children in insertion order, which the source's query leaves open.
- The karma economy, PAYG credits, rate limits, HTTP and MCP routes, pollers, payments on chain and root anchoring: mostly single SQL statements or calls into services.
