# Proofs about the Texas hold'em proving stack

The repository proves poker hands in zero knowledge. Its hard claims are refinements: hand-written trace
builders and field-constraint systems must agree with the plain function they stand for, over whole runs.
This project models those builders, constraints and checkers in Dafny and proves the agreement.
`dafny verify dfyconfig.toml` checks everything.

| component | modules | what is shown |
|---|---|---|
| integers, bits, prime fields | `Arith`, `Bits`, `Words`, `Wrappers`, `Primes`, `Field31`, `StarkField` | both moduli are proved prime, so boolean and inverse columns mean what they should and cubing is injective over the Stark field |
| lookup-backed BLAKE2b | `Rfc7693`, `Blake2bG`, `Blake2bGRow`, `Blake2bGExact`, `LogUp`, `Blake2bGProof`, `Blake2bScheduler`, `Blake2bSchedulerTrace`, `SchedulerLookups`, `Blake2bHash`, `Blake2bAccepted`, `SparseMerkle`, `SparseMerkleTree` | byte constraints force G, rows force every call of the compression function, archives whose sums cancel force the digest of RFC 7693, paths bind positions and open the leaf their key names; each builder's trace passes, balanced books mean that every lookup hits, and what the verifiers accept is characterised exactly |
| Poseidon252 witness engine | `Limbs`, `LimbDivision`, `LimbReduction`, `Hades`, `PoseidonRows`, `PoseidonRound`, `PoseidonForced`, `PoseidonChain` | limb arithmetic is exact, compressed keys keep the permutation, every witness row tracks the native field, and the columns of a round force the native round |
| reveal ledger | `RevealEntry`, `RevealLedger`, `RevealTrace` | the constraint system against the validator, both directions |
| shuffle, reveal, reconstruct protocol | `ShuffleChain`, `BlindRotation` | every producer run is accepted and consumed exactly, call by call, and n pending seats close a phase in n rows; the blind rotation is fair |
| codecs, segmentation, caches | `DualCodec`, `OuterCodec`, `FlockSegments`, `Caches`, `Twiddles` | strict round trips, a partition both sides share, safety under every interleaving |

Conventions. A constraint is an integer polynomial in the columns that must be divisible by 2^31 - 1. A row's lookup
hits when it is in the fixed table; `LogUp` proves the books of the argument that stands behind it, where a random
challenge is taken as agreement for every weight function and a trace makes fewer lookups than the field has elements.
What a verifier accepts is stated as it checks it: constraints on the committed rows, and the sums it recomputes. Rows are in call order, the order in which the next-row masks link
them, and columns of the scheduler and of the ledger are grouped by word or by slot. Words are integers with
explicit bounds and wrap-around. Hashes of other systems, curve proofs and commitments are function values. RFC
7693 is the reference for BLAKE2b: section 2.7 (schedule), 3.1 (G), 3.2 (F), 3.3 (padding and digest).

Where code and comments disagree, the code is modelled:

- `coprocessor_row_counts` says padding rows carry no algebra; it counts them, and the builder emits them, like any other row.
- `reduce16_with_carries` expects a mix value below 2 P; mix values reach 13 P, and the reduction is exact for every sixteen-limb value, with a quotient below 32.
- `anchor_state` ignores the initial state a chain trace starts from. `PoseidonChain.AnchorMetIffZero` proves that the anchor row meets the anchor exactly when that state is zero; from (1, 0, 0) it misses the anchor for every message (`PoseidonChain.NonzeroStartMissesAnchor`).
- The key column of slot 0 of the reveal ledger is tied to nothing, so the order of the first two targets is left to the validator. `RevealTrace.FirstPairNotForced` is a ledger the constraints accept and the validator refuses; `RevealTrace.ValidIff` is the exact difference.
- An all-zero row satisfies the G constraints over any scope: `Blake2bGExact.SatisfiesIff` says exactly which rows do. That every call nevertheless has an active row follows from the sum the verifier recomputes from its own trace (`Blake2bGProof.AcceptedIff`).
- The comment on the compression prover says that the scheduler constrains all eight final hash words (src/blake2b_lookup_compression.rs:1219-1220). `verify_schedule_proof` recomputes the sum of the scheduler and the sum of the table from the statement and hands both on without comparing them (src/blake2b_lookup_compression.rs:948-979); that they cancel is asserted only by the prover, in debug builds (src/blake2b_lookup_compression.rs:837-840). The Poseidon verifier returns an error for the same condition (src/poseidon252_v2.rs:1780-1784). So the hash words of a statement, and with them its digests, are not constrained: `Blake2bHash.VerifiedIffWired` says exactly which statements are accepted, `Blake2bAccepted.VerifiedIffLengths` and `Blake2bAccepted.AnyDigestAccepted` that any digests are, and `Blake2bAccepted.WrongDigestVerified` is one statement with a wrong digest. With the guard `SumsCancel`, a test on the archive alone, acceptance is exactly truth (`Blake2bHash.GuardedIffTrue`); the theorems about hashes and paths below name it as a hypothesis.
- The verifiers of sparse-Merkle paths do not compare initial states with the fixed vector the prover uses. `SparseMerkle.PathsAcceptedIff` says what is accepted over any vector when the sums cancel, `SparseMerkle.EveryVectorAccepted` that over every vector there are such paths; over the fixed vector the nodes are BLAKE2b-256 (`SparseMerkle.NodeIsBlake2b`).
- `DualProofBundle::encode` checks neither version, nor route, nor the 4 MiB binding limit that `decode` enforces; the round trips below are exact about that.
- The two derivations of the blinds disagree in three ways: a seat that waits for the next hand takes part in one only (`BlindRotation.WaitingDisagrees`), one takes two active seats for heads-up and the other two participants, so a folded seat parts them (`BlindRotation.FoldedDisagrees`), and one names no blinds at all for an empty hand (`BlindRotation.EmptyHandDisagrees`). `BlindRotation.DerivationsAgree` is the exact condition, for every table.

## Model

| member | source | states |
|---|---|---|
| `Field31.ModulusIsPrime` | src/blake2b_lookup_g.rs:314-338 | the field of every constraint system is an integral domain: 2^31 - 1 is prime |
| `Field31.NoZeroDivisors` | src/blake2b_lookup_compression.rs:996-1172 | a product constraint vanishes only when a factor does, which is what boolean and gated columns rely on |
| `Blake2bG.SatisfiedRowIsG` | src/blake2b_lookup_g.rs:349-482 | an active row that satisfies every constraint and lookup has the outputs of G of RFC 7693: carries stay in 0..3 and nothing wraps in the field |
| `Blake2bGExact.SatisfiesIff` | src/blake2b_lookup_g.rs:349-482 | over the scope of a call exactly two rows pass: all zero, and for a true call the row built for it; so every carry, bit and cyclic rotation column is determined |
| `Blake2bGExact.PaddingIff` | src/blake2b_lookup_g.rs:358-363 | over a padding scope only the all-zero row passes |
| `Blake2bGProof.MakeTrace` | src/blake2b_lookup_g.rs:178-191 | one built row per call, all-zero rows after them |
| `Blake2bGProof.GBalance` | src/blake2b_lookup_g.rs:692-730 | all forty lookups of every active row, exclusive or and rotation, balance against the two tables for every pair of weights |
| `Blake2bGProof.CallsActive` | src/blake2b_lookup_g.rs:917-932 | rows with the sum the verifier recomputes are active for every call |
| `Blake2bGProof.AcceptedIff` | src/blake2b_lookup_g.rs:873-964 | constraints on every row and the recomputed sum accept exactly the built trace of true calls |
| `Blake2bG.AdditionOfBytes` | src/blake2b_lookup_g.rs:314-338 | eight byte-sum constraints with their carries force 64-bit addition modulo 2^64 |
| `Blake2bGRow.AddWithCarries` | src/blake2b_lookup_g.rs:121-135 | the wrapping sum and the eight byte carries that the addition constraints need |
| `Blake2bGRow.MakeCallRow` | src/blake2b_lookup_g.rs:137-176 | the builder's row buffer is the layout of the call's words, carries and rotation columns |
| `Blake2bGRow.CallRowSatisfiesIffG` | src/blake2b_lookup_g.rs:137-176 | the built row satisfies every constraint and lookup exactly when the call's outputs are G of its inputs |
| `Blake2bScheduler.WalkIsCompression` | src/blake2b_lookup_compression.rs:270-285 | 96 scheduled steps, over the twelve-row table that is the ten rows of section 2.7 taken cyclically, and the final exclusive or are the compression function of section 3.2 |
| `Blake2bScheduler.RowSound` | src/blake2b_lookup_compression.rs:1077-1172 | a satisfied active row makes exactly the wired call, carries the state one wired step, into the successor when it advances, and has the flags of its scope |
| `Blake2bScheduler.TailSound` | src/blake2b_lookup_compression.rs:1117-1134 | the final row binds the digest to the first four hash words and a chained successor to all eight |
| `Blake2bScheduler.RowsWalk` | src/blake2b_lookup_compression.rs:1157-1168 | by induction over the rows of a block, every row is entered with the state the walk prescribes |
| `Blake2bScheduler.TraceWired` | src/blake2b_lookup_compression.rs:996-1172 | the polynomial constraints alone, with true calls, force every call of every block from the state its predecessors leave, every digest to truncate the hash words and every chained successor to start from them |
| `Blake2bScheduler.TraceCloses` | src/blake2b_lookup_compression.rs:996-1172 | a passing trace, its lookups hit, with true calls forces every call, hash, digest and link of any number of blocks |
| `Blake2bScheduler.TraceForcesCompression` | src/blake2b_lookup_compression.rs:996-1172 | a passing trace, its lookups hit, with true calls makes every block's hash words the compression of its initial state and message |
| `Blake2bSchedulerTrace.GOutputs` | src/blake2b_lookup_compression.rs:258-268 | the builder's G, rotating left by one, is G of RFC 7693, which rotates right by 63 |
| `Blake2bSchedulerTrace.CompressionCalls` | src/blake2b_lookup_compression.rs:297-341 | the calls of every block in order, each from the state its predecessors leave, and every block's compression; refused only for a shape mismatch |
| `Blake2bSchedulerTrace.TraceColumns` | src/blake2b_lookup_compression.rs:503-566 | the built rows are the replayed states of the calls, zero padded; refused only for a shape mismatch |
| `Blake2bSchedulerTrace.PassesIffTrue` | src/blake2b_lookup_compression.rs:503-566 | with true calls, some trace of a given height passes exactly when the statement is true, and then the built one does, padding included |
| `Blake2bSchedulerTrace.PaddingIff` | src/blake2b_lookup_compression.rs:996-1172 | over a padding scope only the all-zero row passes, whatever row follows it |
| `Blake2bSchedulerTrace.WiredHolds` | src/blake2b_lookup_compression.rs:503-566 | the built trace of a statement whose calls, digests and links are right meets every polynomial constraint, padding included, whatever its hash words |
| `Blake2bSchedulerTrace.WiredClosesIff` | src/blake2b_lookup_compression.rs:607-731 | for such a statement the lookups of the built trace hit exactly when every block closes |
| `Blake2bHash.HashMessages` | src/blake2b_lookup_compression.rs:1362-1375 | byte by byte the blocks are the message and zeros after it, as many as section 3.3 asks for, one for the empty message |
| `Blake2bHash.IvIsRoots` | src/blake2b_smt_witness.rs:37-46 | the eight words are those of section 2.6: the fractional parts of the square roots of the first eight primes, to 64 bits |
| `Blake2bHash.BlockBytes` | src/blake2b_lookup_compression.rs:285-292 | the sixteen message words of a block are its bytes, little-endian, in order |
| `Blake2bHash.InitialIsLocal` | src/blake2b_lookup_compression.rs:224-233 | the program's local vector is that of section 3.2, for byte counts below 2^64 |
| `Blake2bHash.ValidateChainingLinks` | src/blake2b_lookup_compression.rs:346-371 | accepts exactly the shapes in which every chained block's eight hash words, word by word, open its successor |
| `Blake2bHash.ValidateHashChainAbi` | src/blake2b_lookup_compression.rs:1404-1436 | accepts exactly the archives whose blocks, counters, final flags, chain flags, start and digest fit the message |
| `Blake2bHash.ArchiveIsHash` | src/blake2b_lookup_compression.rs:1404-1436 | an archive that passes the checks, every block a true compression, carries BLAKE2b-256 of its message |
| `Blake2bHash.ConstraintsForceHash` | src/blake2b_lookup_compression.rs:1463-1466 | where the recomputed sums cancel: an archive whose shape, links, G component and scheduler component are verified carries the digest of section 3.3 |
| `Blake2bHash.VerifiedIffWired` | src/blake2b_lookup_compression.rs:1289-1360 | the verifier accepts a statement, with some rows and multiplicities of a given height, exactly when every call, digest and link is right; the hash words are free |
| `Blake2bHash.GuardedIffTrue` | src/blake2b_lookup_compression.rs:875-982 | with the missing guard, that the recomputed scheduler and table sums cancel, acceptance is exactly that every block is a compression and every call one of its rows |
| `Blake2bHash.VerifiedIff` | src/blake2b_lookup_compression.rs:1289-1360 | for given blocks, digests and initial vectors some statement is verified with sums that cancel exactly when every digest is that of its block from its own vector |
| `Blake2bHash.HashChainPlan` | src/blake2b_lookup_compression.rs:1377-1402 | plans for every length the vector, digest and chain flag of each block from the chaining values of section 3.3 |
| `Blake2bHash.PlannerPasses` | src/blake2b_lookup_compression.rs:1444-1458 | the planner's archive passes every check, links, G component and scheduler component included, its sums cancel, and it carries the right digest, for the empty message and exact multiples too |
| `Blake2bAccepted.VerifiedIffLengths` | src/blake2b_lookup_compression.rs:1289-1360 | as it stands the verifier accepts blocks and vectors with any digests whatever, so long as the lengths agree |
| `Blake2bAccepted.AnyDigestAccepted` | src/blake2b_lookup_compression.rs:1463-1466 | as it stands an archive of any message is accepted with any digest |
| `Blake2bAccepted.GuardedIffHash` | src/blake2b_lookup_compression.rs:1463-1466 | where the sums cancel too, an archive of a message is accepted with exactly one digest, BLAKE2b-256 of the message |
| `Blake2bAccepted.WrongDigestVerified` | src/blake2b_lookup_compression.rs:948-979 | a concrete statement of one zero block is verified with its built rows, carries a digest that is not the block's, and fails the guard |
| `SparseMerkle.NodeIsBlake2b` | src/blake2b_smt_witness.rs:174-196 | a node is BLAKE2b-256 of its domain byte and two 32-byte values |
| `SparseMerkle.DomainsSeparate` | src/blake2b_smt_witness.rs:174-196 | a leaf block starts with a zero, an internal block with a one, so none is both |
| `SparseMerkle.PositionBinding` | src/blake2b_smt_witness.rs:127-168 | two authentic paths with one key and one root are the same path, or exhibit two blocks with one hash |
| `SparseMerkleTree.PlaceIsKey` | src/blake2b_smt_witness.rs:127-133 | the direction bits, summed with weight 2^(h - 1) over the heights, are the big-endian value of the key |
| `SparseMerkleTree.PlacesDiffer` | src/blake2b_smt_witness.rs:127-133 | distinct keys stand at distinct leaves |
| `SparseMerkleTree.OpeningIsAuthentic` | src/blake2b_smt_witness.rs:142-159 | in any tree of height 256, the branch of the leaf a key names, with the subtrees beside it as siblings, is an authentic path |
| `SparseMerkle.PathsMessagesAndDigests` | src/blake2b_lookup_compression.rs:1507-1531 | concatenates all paths in order; refuses exactly the empty batch and a detached root |
| `SparseMerkle.BatchSplits` | src/blake2b_lookup_compression.rs:1547-1557 | a batch whose blocks hash to their digests splits back into individually authentic paths |
| `SparseMerkle.ConstraintsForcePaths` | src/blake2b_lookup_compression.rs:1488-1505 | where the recomputed sums cancel: verified over one vector, every path of a batch is authentic for the hash from that vector |
| `SparseMerkle.FixedVectorPaths` | src/blake2b_lookup_compression.rs:1547-1557 | where the recomputed sums cancel: verified over the fixed vector, every path of a batch is authentic for BLAKE2b-256 |
| `SparseMerkle.PathsAcceptedIff` | src/blake2b_lookup_compression.rs:1547-1557 | where the recomputed sums cancel, a batch over one vector is accepted exactly when all its paths are authentic for the hash from that vector |
| `SparseMerkle.AnyPathsAccepted` | src/blake2b_lookup_compression.rs:1547-1557 | as it stands the verifier accepts a batch of any paths over any vectors, whatever their nodes |
| `SparseMerkle.EveryVectorAccepted` | src/blake2b_lookup_compression.rs:1488-1505 | for every vector, key, value and siblings there is a path accepted over that vector, with sums that cancel |
| `LogUp.Multiplicities` | src/blake2b_lookup_compression.rs:697-707 | the multiplicity column counts the lookups of every table row, in the field |
| `LogUp.Balance` | src/blake2b_lookup_g.rs:614-651 | for any table and any weights, the lookups weigh what the table weighs with its multiplicities |
| `LogUp.XorBalance` | src/blake2b_lookup_g.rs:222-240 | the 2^16-row exclusive-or table balances any lookups that hit it |
| `LogUp.RotateBalance` | src/blake2b_lookup_g.rs:653-690 | the 2^10-row rotate table balances any lookups that hit it |
| `LogUp.BalanceReduced` | src/blake2b_lookup_g.rs:622-632 | the same in the field, with multiplicities reduced modulo 2^31 - 1 |
| `LogUp.SameLookups` | src/blake2b_lookup_g.rs:584-612 | books shorter than the field that agree for every weight hold the same lookups, equally often |
| `LogUp.BalancedIffHit` | src/blake2b_lookup_g.rs:614-651 | with counted multiplicities, books balance for every weight exactly when every lookup is in the table |
| `LogUp.XorBalancedIff` | src/blake2b_lookup_g.rs:222-240 | the exclusive-or table: balance is membership |
| `LogUp.RotateBalancedIff` | src/blake2b_lookup_g.rs:242-259 | the rotate table: balance is membership |
| `SchedulerLookups.ScalarTuples` | src/blake2b_lookup_compression.rs:669-695 | the list of 128 pushed word by word and byte by byte is the interaction pairs one after another |
| `SchedulerLookups.TuplesAreLookups` | src/blake2b_lookup_compression.rs:636-667 | the 128 tuples of a final row are in the table exactly when its lookups hold |
| `SchedulerLookups.PassesIffBalanced` | src/blake2b_lookup_compression.rs:607-731 | a trace that meets the polynomial constraints passes exactly when the lookups of its final rows, with counted multiplicities, balance against the table |
| `SchedulerLookups.BalanceForcesCompression` | src/blake2b_lookup_compression.rs:996-1172 | whatever multiplicities are committed, polynomial constraints, true calls and balanced books, which the verifier does not establish, make every block a compression |
| `SchedulerLookups.TupleCount` | src/blake2b_lookup_compression.rs:607-634 | over the verifier-built scope a trace makes 128 lookups per block |
| `SchedulerLookups.BalancedIffCancel` | src/blake2b_lookup_compression.rs:948-979 | what the verifier accepts is balanced exactly when the two sums it recomputes from the statement cancel |
| `SchedulerLookups.AcceptedIffWired` | src/blake2b_lookup_compression.rs:875-982 | with true calls, some trace and multiplicities are accepted exactly when calls, digests and links are right |
| `SchedulerLookups.CancelIffCloses` | src/blake2b_lookup_compression.rs:697-731 | for a statement whose calls, digests and links are right the recomputed sums cancel exactly when every block closes |
| `SchedulerLookups.GuardedIffTrue` | src/blake2b_lookup_compression.rs:875-982 | with true calls, acceptance and the guard together are exactly the truth of the statement |
| `Limbs.Cmp` | src/poseidon252_air.rs:245-256 | limb comparison is comparison of values, whatever the lengths |
| `Limbs.SubWitness` | src/poseidon252_air.rs:321-338 | exact subtraction with exact borrows; the last borrow tells whether the value would be negative |
| `Limbs.AddWitness` | src/poseidon252_air.rs:303-318 | exact linear combination when it fits, every recorded carry balancing; the carry it overwrites was zero |
| `Limbs.MulWitness` | src/poseidon252_air.rs:343-363 | for any output length every carry balances its product column and is bounded, the top limb is the last carry reduced; with room for both factors the value is exactly the product |
| `LimbDivision.DivRem` | src/poseidon252_air.rs:277-298 | y = q p + r with 0 <= r < p, for every y and every nonzero p |
| `LimbReduction.PMultiple` | src/poseidon252_air.rs:230-240 | m P exactly, for every m up to 31 |
| `LimbReduction.Reduce48` | src/poseidon252_air.rs:367-397 | y = z + q P with a 32-limb quotient; every carry balances its column and is bounded, the last one is the top limb |
| `LimbReduction.Reduce16` | src/poseidon252_air.rs:401-419 | v = z + q P with a one-limb quotient for every sixteen-limb value; every carry balances its column and the pinned one was zero |
| `Hades.MixLinear` | src/poseidon252_air.rs:104-109 | the optimised mix is linear over the Stark field |
| `Hades.RoundKeysAgree` | src/poseidon252_air.rs:871-893 | the two ways of indexing round keys give the same round at every position |
| `Hades.CompressedRoundKeys` | src/poseidon252_air.rs:60-101 | the schedule built from any raw table permutes every state as the raw table does |
| `Hades.CompressedIsRaw` | src/poseidon252_air.rs:20-36 | the permutation with compressed keys is the one that adds the whole raw key row in every round |
| `Hades.ApplyRound` | src/poseidon252_air.rs:135-150 | updates the three lanes in place by one compressed round |
| `Hades.PermuteComp` | src/poseidon252_air.rs:154-158 | updates the three lanes in place by all 91 rounds |
| `PoseidonRows.LimbsUnique` | src/poseidon252_air.rs:197-218 | limb sequences of one length are determined by their value |
| `PoseidonRows.TopLimbBound` | src/poseidon252_air.rs:728-736 | the top limb of a canonical element passes the twelve-bit check |
| `PoseidonRows.BalancedProduct` | src/poseidon252_air.rs:966-981 | whatever carries a multiplication row records, balanced columns make it an exact product |
| `PoseidonRows.BalancedReduction` | src/poseidon252_air.rs:982-987 | whatever carries a reduction row records, balanced columns make it an exact reduction by P |
| `PoseidonRound.SboxLane` | src/poseidon252_air.rs:941-1001 | every column of a lane meets its equation, an open gate hands on the reduced cube and its coprocessor rows, a closed one the lane's own sum and none; the quotient always fits |
| `PoseidonRound.MixSums` | src/poseidon252_air.rs:1003-1050 | every column of the mix meets its equation; the offsets 4 P and 6 P keep both subtractions from going below zero and every sum fits sixteen limbs |
| `PoseidonRound.OneRoundWitness` | src/poseidon252_air.rs:899-1060 | on canonical limbs, every witness column of the round with its carries and borrows exact, the coprocessor rows read off them, and the canonical limbs of the native round as output |
| `PoseidonForced.RoundForced` | src/poseidon252_air.rs:899-1060 | conversely, whatever columns meet the equations of a round over the integers, their output is the native round modulo the prime; inputs and remainders may be any sixteen limbs, of which the constraints bound the top one by twelve bits |
| `PoseidonForced.CanonicalRoundForced` | src/poseidon252_air.rs:899-1060 | with inputs and remainders below the prime, as the builder records them, the output is the native round itself |
| `StarkField.StarkPrime` | src/poseidon252_air.rs:220-227 | the modulus of the Stark field is prime and leaves 2 modulo 3 |
| `PoseidonChain.SboxInjective` | src/poseidon252_air.rs:135-150 | the nonlinear layer loses nothing: cubing is injective over the Stark field |
| `PoseidonChain.AbsorbSchedule` | src/poseidon252_air.rs:163-176 | half by half the pairs are the message, then a one, then a zero where one half is left |
| `PoseidonChain.AbsorbInjective` | src/poseidon252_air.rs:160-162 | different messages have different absorb schedules |
| `PoseidonChain.Sponge` | src/poseidon252_air.rs:180-188 | the sponge from the zero state over any schedule |
| `PoseidonChain.LayoutExact` | src/poseidon252_air.rs:506-525 | rows are the least power of two, from 256 on, above the real rows, and between 1 and 90 rows are left over |
| `PoseidonChain.CoprocessorRowCounts` | src/poseidon252_air.rs:1128-1143 | the counts derived from the layout, which are those the trace builder emits |
| `PoseidonChain.BuildChainTrace` | src/poseidon252_air.rs:1145-1281 | every row takes the limbs of the native walk one round on, every witness column meets its equation, and the coprocessor rows are those of the rounds in order, for every message and initial state; only an overlong message is refused |
| `PoseidonChain.TraceCloses` | src/poseidon252_air.rs:1145-1281 | from zero, consecutive rows link in state and position, the anchor row ends in the native sponge state, the last row in the void state, and the in, out, initial and void tuples cancel as multisets |
| `PoseidonChain.AnchorMetIffZero` | src/poseidon252_air.rs:494-496 | the anchor row meets the native anchor exactly when the initial state is zero |
| `PoseidonChain.NonzeroStartMissesAnchor` | src/poseidon252_air.rs:494-496 | from the state (1, 0, 0) it misses the anchor, whatever the message and keys |
| `RevealEntry.EntrySound` | src/canonical_reveal_opening.rs:443-505 | satisfied slot constraints force the assignment validator's checks: domains, typed padding, disjoint masks, canonical zero |
| `RevealEntry.EntryComplete` | src/canonical_reveal_opening.rs:721-757 | every assignment the validator accepts satisfies the slot constraints |
| `RevealLedger.RunningSound` | src/canonical_reveal_opening.rs:415-428 | the running columns are the or of the pending bits so far |
| `RevealLedger.ContiguousSound` | src/canonical_reveal_opening.rs:343-351 | present slots are exactly the first `count` ones |
| `RevealLedger.SatisfiedIsConstrained` | src/canonical_reveal_opening.rs:296-562 | a satisfying trace forces contiguity, every slot, distinct cards, the union, increasing targets from slot 1 on and the kick schedule |
| `RevealTrace.SatisfiableIffConstrained` | src/canonical_reveal_opening.rs:296-562 | some trace satisfies the constraints exactly when the ledger is constrained and the schedule is the forced one |
| `RevealTrace.ValidIsSatisfied` | src/canonical_reveal_opening.rs:145-282 | the builder's own row satisfies every constraint of every valid ledger |
| `RevealTrace.ValidIff` | src/canonical_reveal_opening.rs:772-820 | the validator accepts exactly the satisfiable ledgers with a header and an ordered first pair of targets |
| `RevealTrace.FirstPairNotForced` | src/canonical_reveal_opening.rs:514-549 | a concrete ledger with its first two targets swapped satisfies the constraints and is not valid |
| `RevealTrace.Validate` | src/canonical_reveal_opening.rs:772-820 | the loop with running union, prior typed target and seen cards accepts exactly the valid ledgers |
| `RevealTrace.RunningColumns` | src/canonical_reveal_opening.rs:205-211 | the accumulator loop writes the or of the pending masks, seat by seat |
| `RevealLedger.ScheduleNames` | src/canonical_reveal_opening.rs:78-90 | slot s of the kick schedule is s exactly when seat s is pending, and 255 otherwise |
| `ShuffleChain.Sidecar.TakeShuffle` | src/canonical_shuffle_chain.rs:271-288 | takes the first shuffle material exactly when it is the row's seat's |
| `ShuffleChain.Sidecar.TakeReveal` | src/canonical_shuffle_chain.rs:290-307 | takes the first reveal material exactly when it is the row's seat's |
| `ShuffleChain.Sidecar.TakeReconstruct` | src/canonical_shuffle_chain.rs:309-327 | takes the first reconstruct material exactly when it is the row's seat's |
| `ShuffleChain.VerifyRows` | src/canonical_shuffle_chain.rs:970-1121 | accepts exactly the batches whose material answers the protocol rows one to one, in order and seat by seat, has then consumed all of it, and collects the rows' rotations by kind and their claims (kind, seat, commitment before and after) in order |
| `ShuffleChain.ClaimsAreChain` | src/canonical_shuffle_chain.rs:1009-1108 | the claims of each kind end in exactly the rotations that are folded for that kind |
| `ShuffleChain.ClaimsHandOver` | src/canonical_shuffle_chain.rs:1009-1108 | over the rows of a run the claims of disclosures hand the ledger over link by link, from the first image's ledger to the last's, and those of reconstructions their commitment |
| `ShuffleChain.DecksLink` | src/canonical_shuffle_chain.rs:982-1014 | in an accepted batch that hands the deck on, every output deck is committed as the next input deck |
| `ShuffleChain.LedgersLink` | src/canonical_shuffle_chain.rs:1017-1059 | in an accepted batch that hands the ledger on, its last commitment folds all disclosed cards, seat by seat, and every token verifies |
| `ShuffleChain.ReconstructsVerify` | src/canonical_shuffle_chain.rs:1061-1108 | in an accepted batch every reconstruct statement verifies, commits to its rotation, and a completing one moves it |
| `ShuffleChain.RebuiltLinks` | src/canonical_shuffle_chain.rs:1085-1100 | in an accepted batch a rebuilt deck is committed as the input of the shuffle it is handed to |
| `ShuffleChain.Builder.ProduceShuffleRow` | src/canonical_shuffle_chain.rs:508-616 | the whole new lineage of a shuffle row: the lowest pending seat takes its turn, one call on, and the new deck re-encrypts card by card what the indices name; nothing changed when it is refused |
| `ShuffleChain.Builder.ProduceRevealRow` | src/canonical_shuffle_chain.rs:624-792 | the whole new lineage of a reveal row: one call on, the seat no longer pending, every card at its index disclosed under the first secret of the seat; nothing changed when it is refused |
| `ShuffleChain.Builder.ProduceReconstructRow` | src/canonical_shuffle_chain.rs:801-910 | the whole new lineage of a reconstruct row: one call on, the seat no longer pending; nothing changed when it is refused |
| `ShuffleChain.Builder.Serve` | src/canonical_shuffle_chain.rs:478-910 | any request, blinds set first where a reveal has them, takes the producer's lineage where the run below says |
| `ShuffleChain.ReconstructKept` | src/canonical_shuffle_chain.rs:1075-1084 | after a reconstruct row the verifier goes on accepting exactly when a completion rotates the commitment |
| `ShuffleChain.RunAccepted` | src/canonical_shuffle_chain.rs:975-1121 | the rows and material of every run of requests over linked images, completions rotating, are accepted |
| `ShuffleChain.RunContributes` | src/canonical_shuffle_chain.rs:478-910 | in every run the rows follow one another, each one call on; while others are pending a row takes its own seat off and keeps the phase, and it rotates the commitment of its kind only |
| `ShuffleChain.PhaseCompletes` | src/canonical_shuffle_chain.rs:508-616 | from an image with n pending seats, n shuffle rows name each of those seats once, in increasing order, and the n-th, and no other, closes the phase |
| `ShuffleChain.RunCompletesPhase` | src/canonical_shuffle_chain.rs:508-616 | so does any stretch of a run with as many shuffle rows as seats were pending |
| `BlindRotation.NextRank` | src/canonical_shuffle_chain.rs:1175-1190 | the scan goes to the next participant in cyclic order |
| `BlindRotation.BlindsDiffer` | src/canonical_shuffle_chain.rs:1232-1255 | small and big blind differ whenever two seats participate |
| `BlindRotation.ButtonIsFirstBase` | src/canonical_shuffle_chain.rs:1233-1237 | without a last big blind both derivations name what they would name had it been at the button |
| `BlindRotation.BigBlindIsFirst` | src/canonical_shuffle_chain.rs:1233-1239 | the big blind is the first participating seat strictly after the last big blind, or after the button in the first hand |
| `BlindRotation.DeadSmallBlind` | src/canonical_shuffle_chain.rs:1243-1254 | unless heads-up, the last big blind posts the small one where that seat still takes part, and nobody does otherwise |
| `BlindRotation.HeadsUpSmallBlind` | src/canonical_shuffle_chain.rs:1240-1242 | heads-up, the small blind is the first participating seat after the big blind |
| `BlindRotation.RotationIsFair` | src/canonical_shuffle_chain.rs:697-712 | in any k consecutive hands of k participants each has the big blind exactly once, from any starting base |
| `BlindRotation.DerivationsAgree` | src/canonical_dispatch_trace.rs:360-406 | for every table, the two derivations name the same blinds exactly when the first occupied seat after the base is in the hand and: where the first sees heads-up so does the second, and the next occupied seat is in the hand too; where only the second does, the base seat is in the hand; where neither does, the base seat is in the hand or unoccupied |
| `BlindRotation.AgreeWithoutWaiting` | src/canonical_dispatch_trace.rs:374-406 | with nobody waiting they agree exactly when both notions of heads-up do, or two participate and the base seat is one of them |
| `DualCodec.Encode` | src/method_precompile_dual.rs:136-170 | succeeds exactly for proofs of up to 64 MiB, requests of up to 4 MiB, neither empty, and bindings below 2^32 bytes, with the canonical bytes |
| `DualCodec.EncodedLen` | src/method_precompile_dual.rs:233-249 | succeeds exactly when encoding does, with its length |
| `DualCodec.Buffer.EncodeInto` | src/method_precompile_dual.rs:194-222 | appends the bytes that encoding gives, or leaves the buffer alone |
| `DualCodec.Buffer.UpdateHasher` | src/method_precompile_dual.rs:175-191 | feeds the bytes that encoding gives; the length truncation never bites |
| `DualCodec.RoundTrip` | src/method_precompile_dual.rs:258-313 | an encoded bundle decodes to itself exactly when its version is 2, its route is one of the four and its binding is within 4 MiB, and is refused otherwise |
| `DualCodec.RoutesAre` | src/method_precompile_dual.rs:1253-1277 | call by call, which precompile answers it under which ABI version; no other call has one |
| `DualCodec.SelectorsAre` | src/method_kind.rs:32-80 | the nineteen method numbers and the four precompiles |
| `DualCodec.Canonical` | src/method_precompile_dual.rs:258-313 | whatever decodes re-encodes to the same bytes |
| `OuterCodec.EncodeOuter` | src/outer_aggregate.rs:127-169 | succeeds exactly within the child, count and total limits, with the canonical bytes |
| `OuterCodec.OuterLimits` | src/outer_aggregate.rs:29-40 | the limits in figures: 2 to 64 children of up to 71303188 bytes, 256 MiB in all |
| `OuterCodec.DecodeChildren` | src/outer_aggregate.rs:212-243 | the cursor loop reads exactly the length-prefixed children to the end of the bytes |
| `OuterCodec.OuterRoundTripIff` | src/outer_aggregate.rs:127-258 | exactly the well-formed aggregates can be encoded and decode to themselves |
| `OuterCodec.OuterCanonical` | src/outer_aggregate.rs:179-258 | whatever decodes is well formed and re-encodes to the same bytes |
| `FlockSegments.RecognizePathRun` | src/blake3_flock.rs:256-283 | a maximal run of at least two statements, found exactly when one starts there |
| `FlockSegments.SidesAre` | src/blake3_flock.rs:256-283 | each recorded side says which half of the next message the digest is, the left one first |
| `FlockSegments.SegmentStatements` | src/blake3_flock.rs:529-541 | ordered segments that tile the statements, each a maximal run or a lone statement |
| `FlockSegments.CoveredOnce` | src/blake3_flock.rs:529-541 | every statement lies in exactly one segment |
| `FlockSegments.PartitionUnique` | src/blake3_flock.rs:526-528 | the statements determine the segmentation, so the two sides cannot drift apart |
| `FlockSegments.Pair` | src/blake3_flock.rs:363-426 | accepts exactly the archives laid out segment by segment, with nothing over |
| `FlockSegments.FitsOneRun` | src/blake3_flock.rs:363-426 | an archived proof fits one run only |
| `FlockSegments.ProveThenPair` | src/blake3_flock.rs:544-579 | what the prover emits passes the verifier's pairing, for every statement list |
| `FlockSegments.ChainBlocks` | src/blake3_flock.rs:98-128 | the materialised blocks, each compressed under its chaining value into that of the next, padded to the step count, and the last chaining value |
| `FlockSegments.ChainDigest` | src/blake3_flock.rs:133-156 | the streaming digest is that last chaining value |
| `FlockSegments.StepsExact` | src/blake3_flock.rs:91-94 | the step count is the least power of two, from 256 on, with room for the chunks and the length |
| `FlockSegments.StepBytes` | src/blake3_flock.rs:98-128 | the bytes and byte count of every step: chunks of the message padded with zeros, then its length, then empty blocks |
| `FlockSegments.StepsInjective` | src/blake3_flock.rs:98-128 | distinct messages have distinct block and length sequences |
| `Caches.OneSetup` | src/blake3_flock.rs:452-477 | in every interleaving of any number of threads all calls for one block count return one setup |
| `Caches.RaceRuns` | src/blake3_flock.rs:452-477 | the race happens: two threads both build, and both return the setup published first |
| `Twiddles.TwiddleCache.Publish` | src/prover_context.rs:101-118 | the write section keeps every entry correct and evicts smallest domains only, until the rest is within budget or one entry is left, and not one more than that asks for |
| `Twiddles.CallsReturnComputed` | src/prover_context.rs:87-118 | in every interleaving of any number of threads each call returns the value computed for its key, over a cache that is correct and bounded |
| `Twiddles.ColdCallRuns` | src/prover_context.rs:87-118 | every thread can make every call: a cold one misses, computes, publishes and returns |
| `Twiddles.EstimateIs` | src/prover_context.rs:26-29 | four bytes for each value of a domain up to the word size, a quarter of the budget for 2^25 |
| `Twiddles.LargestStays` | src/prover_context.rs:110-117 | in every interleaving a domain at least as large as any once cached is still cached |
| `Twiddles.TwiddleCache.Twiddles` | src/prover_context.rs:87-118 | an undisturbed call returns the value computed for its key and leaves what one write section may leave |

## Left out

- Stwo and flock provers and verifiers, channels, commitments and low-degree tests: a proof is taken as a satisfying trace, which is what an accepted proof stands for.
- Bayer-Groth, discrete-log, reconstruction and curve arithmetic: the crate that defines them is not part of this model; `ShuffleChain.Crypto` holds them as deterministic functions, and the prover's output is an argument of the producer's methods.
- Bit-reversed storage order and packed lanes of columns, and the order in which flat columns of one row are numbered: rows are in logical order and columns are grouped.
- Range-check multiplicities of the Poseidon trace: that every recorded limb is in range is part of the builders' contracts.
- Overflow of 64-bit accumulators and of table sizes far beyond the supported lengths; recorded carries are proved small instead, and message lengths are below 2^64 bytes.
- PoseidonChain.BuildChainTrace: messages are field elements; the byte decoding that refuses non-canonical elements is not modelled.
- RevealTrace.ValidIsSatisfied: field inverses are taken from their existence, not from the library's inversion.
- ShuffleChain.Builder: key registration, the initial deck's derivation, deadline and blind arithmetic are arguments or the function values of `ShuffleChain.Rules`; equality of the producer's and the verifier's deck chains is not claimed, since the verifier folds shuffle outputs only.
- ShuffleChain.VerifyRows: the archive checks before the row loop, and the hashing of claims and rotations into the digests of the receipt.
- FlockSegments.Pair: that an accepted chain proof's last value is the statement digest is not claimed, since the verifier does not compare them.
- Twiddles.TwiddleCache: the sum of estimates is taken as an integer; a poisoned lock, whose state the code takes over as it is, does not occur.
- Blake2bGProof.AcceptedIff, and the theorems about verified statements: fewer lookups than the field has elements, which holds for traces of up to 2^25 rows.
- DualCodec.IsRoute: the shuffle and reconstruction ABI versions are defined in a crate that is not part of this model and are parameters.
- Verification of dual proofs and aggregates against replayed tasks, the orchestrator, state-image builders, rake, state-hash, authorization, archive and error modules: mostly field copying and flat encodings.
