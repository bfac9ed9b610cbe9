# Aura node, deterministic core

This project models the deterministic core of the Aura node, a proof-of-stake BFT blockchain
written in Rust, and proves what it guarantees. Run `dafny verify dfyconfig.toml` to check it.

It covers five parts and how they meet:

- **Voting engine**: `EngineSpec` is the engine as a state machine, `Engine` the object with its
  handlers proved to do exactly that, `EngineRuns` what one engine keeps over any run, `Quorums`
  and `Votes` the stake arithmetic and evidence, `Proposer` the weighted choice, `EngineLaws` what is
  counted, committed and proposed, `Agreement` whole networks of engines among validators that vote
  at will, `Redelivery` the same when blocks come again, `Replicas` the stores of its engines,
  `TwoEngines` two runs of such a network, and `Forgery` what verifying signatures keeps out.
- **Mempool**: `Validation`, the pool as a value (`Pool`), the object with three indexes
  (`Mempool`), evictions and replacements (`PoolTheorems`), the greedy harvest (`Harvest`).
- **Authenticated trees**: the level-by-level Merkle tree (`Merkle`, `MerkleBinding`,
  `MerkleProof`, `LightClient`) and the sparse Merkle tree against a dense one (`Smt`).
- **Storage, execution and sync**: `Kv`, `ChainStore`, `State`, `StateTheorems`, `Execution`,
  `Ledger`, `Blocks`, `Bodies` (two bodies under one hash), `Transactions`, `Sync`.
- **Write-ahead log**: `Wal`.

`Bytes`, `Crypto`, `Orders` and `Sums` are the shared vocabulary.

## Conventions

- Hash, signature scheme, checksum and codec are values every theorem quantifies over. A theorem
  that needs collision resistance takes a finite set of the inputs really hashed and asks that no
  two of them share a digest, so the hypothesis can hold of a 32-byte hash. Tree keys are asked to
  be distinct for distinct 20-byte addresses. Of the codec only the round trip is asked.
- Unforgeability is asked of a finite set of signatures, those really seen: none accepted in an
  owner's name is on a message the owner did not sign. Asked of all signatures it could not hold of
  a scheme with 64-byte signatures.
- u64 and u32 arithmetic is explicit: plain `+`, `-` and `*` wrap as in a release build, the
  saturating operations saturate. `usize` counters are natural numbers.
- Each public method is one atomic step. A panic (`expect` on a missing block) is an error value.
- An object whose methods update its fields is a class; each method is proved against a function of
  the old state, and the theorems are about those functions. `hide` statements only keep proofs
  cheap.

## Where the code and its documentation differ

The model follows the code.

- The Merkle tree is described as that of RFC 6962; it is, exactly for a power-of-two number of
  leaves (`MerkleBinding.RootIsRfc6962`). It duplicates the last item of an odd level, so a list
  and the list with its tail repeated can share a root (`MerkleBinding.RepeatedTailSameTree`).
- So a block hash does not fix the block's body: a block of three transactions that passes
  `validate_basic` has a second body that passes under its hash, with the third transaction twice
  (`Blocks.PaddedBodyPasses`), and no other check reads the body (`Bodies.TwinTaken`). The two leave
  different accounts (`Bodies.OneHashSameEffectIff`), so one certified hash can leave two ledgers
  (`Bodies.OneHashTwoLedgers`). A hash fixes the body exactly under the condition of
  `Blocks.OnlyBodyIff`.
- `MerkleProof::verify` never reads `leaf_index` (`MerkleProof.ClaimedIndexUnchecked`).
- `verify_light_client_proof` can never accept (`LightClient.LightClientRejects`).
- A genesis validator does not keep its genesis balance, since the store is read before the batch
  is written (`StateTheorems.GenesisBalanceKept`).
- Unstake, and a transfer to oneself, destroy the amount besides the fee (`Ledger.LedgerEquation`).
- Execution checks no balance: the debit saturates while the credit is paid in full, so a transaction
  its sender cannot cover mints (`Ledger.TransferFromNothingMints`). Neither `validate_basic` nor the
  pool rules that out, since the pool checks each transaction alone against the stored account
  (`Validation.AdmittedPairMints`). The books balance exactly while every transaction is covered
  (`Ledger.SupplyBalancesIff`).
- Execution never compares a transaction's nonce with the account's, so one that skipped ahead can be
  admitted and executed again (`Validation.AdmittedAgainIff`), up to as often as it skipped ahead
  (`Validation.RepeatsAdmitted`).
- `handle_proposal` does not look at the parent hash, so unlike the syncer an engine keeps its chain
  linked only when the blocks it commits happen to link (`EngineRuns.CommitKeepsChainIff`,
  `EngineRuns.UnlinkedBlockCommitted`).
- A failed insertion into a full pool may already have evicted (`PoolTheorems.PoolFullEmptiesPool`),
  and the 10% replacement rule fails above 2^64 / 10 (`PoolTheorems.ReplacementRaises`).
- A write-ahead record of 2^32 bytes or more is never read back (`Wal.AppendThenRecover`), and neither
  is one appended after a crash before recovering (`Wal.UnrecoveredAppendIsLost`); `open` does not recover.
- The proposal error is named for a bad header or signature, but no handler checks a header's
  signature or a vote's; authenticity of delivered precommits is a hypothesis of `Agreement`. The header
  signature of a created block does verify (`EngineRuns.CreatedIsAcceptable`).
- Nothing stops an engine from handling two proposals at one height, which makes it sign conflicting
  votes (`Agreement.SecondProposalConvicts`) and can break agreement with nobody faulty
  (`TwoEngines.TwoProposalsDiverge`); one per height is a hypothesis of `Agreement`.
- Header and payload length prefixes are cut to 32 bits; the encodings stay uniquely decodable
  because every other field has a fixed width (`Blocks.HeaderFromBytes`,
  `Transactions.TransactionFromBytes`).

## Model

| member | source | states |
|---|---|---|
| Agreement.CertificatesAgree | crates/aura-consensus/src/engine.rs:167-298 | Agreement: in every run of any number of honest engines among arbitrary voters, with prevotes forged at will, two certificates of one height under one validator set are for the same block, if validators without an honest engine hold at most a third of the power |
| Agreement.QuorumsAgree | crates/aura-primitives/src/qc.rs:100-106 | The quorum argument for votes of either type: two quorums of authentic votes of one height are for one hash, when honest validators sign one vote of the type per height and the others hold at most a third |
| Agreement.GoodCertsAgree | crates/aura-primitives/src/qc.rs:100-106 | The same for certificates: two of one height and validator set agree when honest validators sign one precommit per height and the others hold at most a third |
| Agreement.DisagreementConvicts | crates/aura-consensus/src/slashing.rs:27-48 | Accountability, with no bound on misbehaviour: if two certificates of one height disagree, validators holding over a third of the power signed both, none of them has an honest engine, and each pair of their votes is evidence that `verify` accepts |
| Agreement.GoodCertsConvict | crates/aura-consensus/src/slashing.rs:20-48 | The same for any two certificates of authentic votes |
| Agreement.HonestNotConvicted | crates/aura-consensus/src/slashing.rs:27-48 | No two votes an honest engine signs in any run are accepted as evidence against it; votes made by others in its name are `Forgery.ForgeryRejected`'s matter |
| Forgery.ForgeryRejected | crates/aura-consensus/src/slashing.rs:27-48 | In any allowed run, evidence put together by anyone out of signatures that are not forged is accepted only against a validator without an honest engine |
| Forgery.VerifiedIsSigned | crates/aura-primitives/src/qc.rs:69-78 | A vote that verifies in the name of an honest engine is, but for key and signature, one that engine signed |
| Votes.VoteFromBytes | crates/aura-primitives/src/qc.rs:27-45 | What is signed for a vote determines every field of it but key and signature |
| Votes.EvidenceIff | crates/aura-consensus/src/slashing.rs:27-48 | Evidence is accepted if and only if its votes verify and are for different blocks by one validator at one height and round and of one type; their order does not matter |
| Agreement.SecondProposalConvicts | crates/aura-consensus/src/engine.rs:167-193 | Handling two proposals at one height and round signs two prevotes, which are accepted evidence if and only if the blocks differ |
| TwoEngines.TwoProposalsDiverge | crates/aura-consensus/src/engine.rs:167-298 | The hypothesis of one proposal per height is needed: in the run named, two engines that are the only validators and hold one unit each, none faulty, are each handed two proposals at height 1 and end with certificates for different blocks |
| TwoEngines.CertificatesForm | crates/aura-consensus/src/engine.rs:167-298 | The hypotheses of agreement can be met: in the run named, allowed and within both bounds, two engines of one unit each, neither above two thirds, both certify one block |
| TwoEngines.Round | crates/aura-consensus/src/engine.rs:167-234 | After the four events named, two engines of equal stake each handed a block and told the other's prevote, both have precommitted to it, whatever they have counted for other blocks |
| Redelivery.RedeliveredAgree | crates/aura-consensus/src/engine.rs:167-298 | Agreement when blocks are delivered again: engines may handle blocks of one hash per height as often as they come and precommit each time, and with authentic votes two certificates of one height and validator set are for one block |
| Redelivery.RedeliveredNotConvicted | crates/aura-consensus/src/slashing.rs:27-48 | In such a run too, no two votes of honest engines are accepted as evidence |
| Forgery.RedeliveredForgeryRejected | crates/aura-consensus/src/slashing.rs:27-48 | Nor is evidence made by anyone out of unforged signatures, when blocks are delivered again |
| Redelivery.RepeatKeeps | crates/aura-consensus/src/engine.rs:167-298 | One delivery keeps the invariant behind it: every precommit an engine signed at its height has a quorum of the prevotes it holds |
| Redelivery.PreVotesAgree | crates/aura-consensus/src/engine.rs:196-215 | Two hashes with quorums among the authentic prevotes an engine holds are one hash |
| Redelivery.StillPasses | crates/aura-consensus/src/engine.rs:196-215 | A further prevote never undoes a quorum |
| Replicas.ReplicasAgree | crates/aura-consensus/src/engine.rs:237-298 | Replica agreement: engines started on one store, each certificate for a proposal held, commit the same blocks height by height, so index one hash at every height both reached and hold the same accounts and validators at equal heights, if at each height faulty power is within a third of the validators then stored and bodies committed under one hash are equally long |
| Replicas.RunFollows | crates/aura-consensus/src/engine.rs:237-298 | Over such a run an engine's height and store are those of the blocks it committed, executed one after the other, and each was certified under the validators stored before it |
| Replicas.SameCommits | crates/aura-consensus/src/engine.rs:269-332 | Committing blocks of one body to stores with the same accounts leaves stores with the same accounts |
| Replicas.ChainIndexed | crates/aura-storage/src/state.rs:167-199 | Each committed block's hash stays indexed under its height whatever is committed after it |
| Agreement.RunKeeps | crates/aura-consensus/src/engine.rs:167-298 | Every allowed delivery, over whole runs, keeps the network invariant: lists of authentic precommits of the current height, at most one vote per engine, height and type, sound certificates |
| Agreement.DeliverKeeps | crates/aura-consensus/src/engine.rs:167-298 | One delivery keeps that invariant for the engine that handles it and for every other engine |
| Agreement.PreVoteStep | crates/aura-consensus/src/engine.rs:196-234 | Leaving the prevote step signs the engine's only precommit at its height, and self-delivery of it keeps the invariant, also when it completes a certificate at once |
| Agreement.ProposalStep | crates/aura-consensus/src/engine.rs:167-193 | Handling the first proposal of a height keeps the invariant through the nested prevote and precommit |
| Agreement.PreCommitStep | crates/aura-consensus/src/engine.rs:237-298 | Counting an authentic precommit keeps the invariant, and a certificate it forms holds only authentic precommits of that height |
| Quorums.QuorumsIntersect | crates/aura-primitives/src/qc.rs:100-106 | Any two sets of votes above two thirds of the power share voters with more than a third |
| Quorums.QuorumMeansTwoThirds | crates/aura-consensus/src/engine.rs:244-257 | While the stakes sum below 2^64 the wrapped u64 sums are exact and the handlers' test is the threshold meant |
| Quorums.ValidQuorumIff | crates/aura-primitives/src/qc.rs:100-106 | A certificate recording the total and the tally of its distinct voters is valid if and only if those voters hold more than two thirds of the power |
| Quorums.CountedBounded | crates/aura-consensus/src/engine.rs:244-250 | The power counted behind a list of distinct voters never exceeds the total power |
| Quorums.CountedIsSum | crates/aura-consensus/src/engine.rs:246-250 | Counted power is the sum, over who voted, of the power the validator set gives them |
| EngineRuns.RunInvariant | crates/aura-consensus/src/engine.rs:55-71 | Run invariant over any inputs: ballots orderly, round 0, held proposal at the current height; height is the start plus the certificates formed, always above the stored height, and one above it if and only if the last certificate formed, if any, was for the held proposal |
| EngineRuns.HandleSound | crates/aura-consensus/src/engine.rs:99-298 | Whatever comes in, a handler keeps the engine sound; the height moves by one exactly with a certificate of the old height, which is a valid quorum, and only a certified held proposal is committed |
| EngineRuns.CertificateIff | crates/aura-consensus/src/engine.rs:237-257 | A certificate forms if and only if the validators that precommitted to the hash, this vote included, hold more than two thirds of the power |
| EngineLaws.RunCertifiesIff | crates/aura-consensus/src/engine.rs:237-257 | Over any run, a delivered precommit forms a certificate if and only if those whose precommits for its hash came in since the last certificate, itself and the engine included, hold more than two thirds of the stored power |
| EngineLaws.CountedAreHeard | crates/aura-consensus/src/engine.rs:237-257 | Over any run the voters counted for a hash are exactly those heard from since the last certificate |
| EngineLaws.VotersAfter | crates/aura-consensus/src/engine.rs:196-298 | How one input of any kind changes who is counted, in both ballots, certificates emptying them |
| EngineLaws.CommitsHeld | crates/aura-consensus/src/engine.rs:269-298 | What is committed is the held proposal, if and only if the certificate formed is for its hash; short of a certificate it stays held |
| EngineLaws.AcceptedIff | crates/aura-consensus/src/engine.rs:167-179 | A proposal is accepted if and only if height and round are the engine's, the Merkle root is that of the transactions, and each is signed by the key of its sender's address; the prevote cast is for its hash at that height and round |
| EngineRuns.PreCommitIff | crates/aura-consensus/src/engine.rs:196-230 | A precommit is cast if and only if the engine waits for prevotes and those for the hash hold more than two thirds; it is for that hash, height and round, and verifies as the engine's |
| EngineRuns.LoneMajorityCommits | crates/aura-consensus/src/engine.rs:167-193 | An engine with more than two thirds of the power certifies and commits an acceptable proposal in the call that handles it |
| EngineRuns.AddVoteCounts | crates/aura-consensus/src/engine.rs:237-242 | A vote adds its validator to those counted for its hash and touches no other list |
| EngineRuns.CreatedIsAcceptable | crates/aura-consensus/src/engine.rs:99-164 | A created proposal is accepted by every engine at its height and round: Merkle root right, every transaction verifying, header signature verifying, size within the limit; its place in the chain is `EngineLaws.CreatedExtendsChain`'s matter |
| EngineLaws.CreatedExtendsChain | crates/aura-consensus/src/engine.rs:99-164 | At an engine one above its stored chain a proposal succeeds if and only if the choice by stake is the engine; the block then names the hash of the latest stored block, passes the syncer's checks on that chain, and committing it keeps the chain linked |
| EngineLaws.CreatedCarries | crates/aura-consensus/src/engine.rs:119-156 | A created block carries the engine's height, round and last certificate, the given chain id, state root and time, its proposer's address, the digest of the stored validator set and the harvest of at most a mebibyte |
| EngineLaws.ValidatorSetBound | crates/aura-consensus/src/engine.rs:127-133 | The validator digest in a header names the set: addresses, keys, stakes and order |
| EngineRuns.SettledHeight | crates/aura-consensus/src/engine.rs:269-282 | A commit sets the stored height to the block's; anything else leaves it |
| EngineRuns.CommitKeepsChainIff | crates/aura-consensus/src/engine.rs:269-282 | An engine one above a linked chain keeps it linked with its commit if and only if the committed block's parent hash is that of the latest block |
| EngineRuns.UnlinkedBlockCommitted | crates/aura-consensus/src/engine.rs:167-282 | At an engine with more than two thirds of the power, an acceptable block made to name any parent is committed, and breaks the stored chain if that is not the latest block's hash |
| EngineRuns.AcceptableIgnoresParent | crates/aura-consensus/src/engine.rs:167-179 | Whether a proposal is accepted does not depend on its parent hash |
| Engine.ConsensusEngine.constructor | crates/aura-consensus/src/engine.rs:48-71 | A new engine starts one above the stored height, with empty ballots |
| Engine.ConsensusEngine.HandlePreCommit | crates/aura-consensus/src/engine.rs:237-298 | The method does exactly the state machine's step, to its fields, the store and the pool, and keeps the tree mirroring the store |
| Engine.ConsensusEngine.HandlePreVote | crates/aura-consensus/src/engine.rs:196-234 | The same for prevotes, with the nested precommit |
| Engine.ConsensusEngine.HandleProposal | crates/aura-consensus/src/engine.rs:167-193 | The same for proposals; accepted exactly when height, round and `validate_basic` pass, and otherwise nothing changes |
| Engine.ConsensusEngine.CreateProposal | crates/aura-consensus/src/engine.rs:99-164 | The method yields exactly the block or error of `Proposed`, of which `EngineLaws.CreatedExtendsChain` and `EngineLaws.CreatedCarries` say what it must be, and holds it; the speculative execution leaves no trace |
| Engine.ConsensusEngine.GetActiveValidators | crates/aura-consensus/src/engine.rs:74-86 | The validator set is read off the stored accounts |
| Engine.ConsensusEngine.IsProposer | crates/aura-consensus/src/engine.rs:89-96 | True exactly when the stake-weighted choice is this engine |
| Engine.RecordVote | crates/aura-consensus/src/engine.rs:197-201 | The list kept for a hash after a vote, and its ballots |
| Engine.Tally | crates/aura-consensus/src/engine.rs:205-209 | The u64 power counted behind a list, each voter at the power of the first validator with its address |
| EngineSpec.ActiveDistinct | crates/aura-consensus/src/engine.rs:74-86 | The active validators have distinct addresses |
| EngineSpec.ActiveValidatorsIff | crates/aura-consensus/src/engine.rs:74-86 | A validator info is in the set if and only if its address has a stored validator account with that key and that positive stake |
| EngineSpec.InfosIff | crates/aura-consensus/src/engine.rs:74-86 | The infos of a list of stored validators are exactly those of its entries that have a key, with that key and the stake as power |
| EngineSpec.GenesisValidatorsExactly | crates/aura-storage/src/state.rs:116-146 | After a genesis on an empty store the active validators are exactly the genesis validators with positive stake, the last entry of each address, with its key and stake |
| Proposer.SelectProposer | crates/aura-consensus/src/proposer.rs:7-42 | The loop on u64 computes the choice, None for no validators or no power; which validator that is, from the digest of height and round, is stated by `Proposer.SelectedOwnsSeed` |
| Proposer.ChoiceIsProportional | crates/aura-consensus/src/proposer.rs:32-42 | Over all targets below the total, the loop stops at index i for exactly as many as that validator's power; never at one without power, and never at the fallback |
| Proposer.PickIsOwner | crates/aura-consensus/src/proposer.rs:34-42 | The validator picked is the one whose stretch of [0, total) holds the target, so the fallback is unreachable |
| Proposer.SelectedOwnsSeed | crates/aura-consensus/src/proposer.rs:16-42 | The validator chosen is the one whose stretch of [0, total) holds the first eight bytes of the digest of height and round, as a number modulo the total; the stretches are disjoint |
| Proposer.NobodySelectedIff | crates/aura-consensus/src/proposer.rs:12-19 | Nobody is chosen if and only if there is no power |
| Proposer.SeedsAreProportional | crates/aura-consensus/src/proposer.rs:22-42 | Of the 2^64 values of the seed bytes, between power * (2^64 / total) and power * (2^64 / total + 1) choose a validator |
| Proposer.PowerSumIsModular | crates/aura-consensus/src/proposer.rs:16-16 | The u64 sum of powers is the true sum modulo 2^64 |
| Votes.NewSigned | crates/aura-primitives/src/qc.rs:47-67 | A vote signed with a key verifies and carries that key's address and the fields asked for |
| Mempool.Mempool.AddTransaction | crates/aura-mempool/src/pool.rs:69-157 | Every return, error or not, leaves the three indexes in agreement, the byte counter exact and both limits kept; pool and result are those of `Pool.Add`, whose answers `PoolTheorems.AddCases` and `PoolTheorems.ReplacementIff` give in full |
| Mempool.Mempool.EvictTransaction | crates/aura-mempool/src/pool.rs:190-207 | Takes exactly one transaction out of all three indexes and its exact size off the counter |
| Mempool.Mempool.FreeSlot | crates/aura-mempool/src/pool.rs:90-118 | Refuses an underpaid replacement, in numbers by `PoolTheorems.ReplacementIff`, else empties the slot in all indexes |
| Mempool.Mempool.MakeRoomFor | crates/aura-mempool/src/pool.rs:121-138 | The capacity loop computes the eviction specified, terminates, and reports whether there is room |
| Mempool.Mempool.Insert | crates/aura-mempool/src/pool.rs:140-153 | Inserting into the three indexes and the counter keeps them in agreement |
| Mempool.Mempool.Harvest | crates/aura-mempool/src/pool.rs:160-179 | The backwards walk of the index computes the greedy choice specified |
| Mempool.Mempool.RemoveCommitted | crates/aura-mempool/src/pool.rs:182-187 | Removes exactly the transactions with the hashes given, keeping agreement and limits |
| Mempool.RemainingIff | crates/aura-mempool/src/pool.rs:182-187 | A transaction stays in the pool if and only if none was committed under its hash, and it stays as it was |
| Mempool.AgreeWithout | crates/aura-mempool/src/pool.rs:190-207 | Taking a transaction out keeps the indexes in agreement, and the saturating subtraction does not saturate |
| Mempool.AgreeWith | crates/aura-mempool/src/pool.rs:140-153 | Putting one in keeps the indexes in agreement |
| Mempool.IndexedOnePerSlot | crates/aura-mempool/src/pool.rs:49-55 | An index by sender and nonce that agrees with the pool allows one transaction per slot |
| Pool.KeysCount | crates/aura-mempool/src/pool.rs:41-46 | There is one priority key per transaction |
| PoolTheorems.ReachablePools | crates/aura-mempool/src/pool.rs:69-207 | Every pool reachable from the empty one holds admitted transactions under their own hashes, one per sender and nonce, within both limits |
| PoolTheorems.EvictionIsMinimal | crates/aura-mempool/src/pool.rs:120-138 | What an insertion evicts is the shortest lowest-priority prefix that makes room, all of it strictly cheaper than the newcomer; it succeeds if and only if giving up all cheaper ones would make room; on PoolFull all that is left pays at least as much per byte |
| PoolTheorems.RoomIffCheaperSuffice | crates/aura-mempool/src/pool.rs:120-138 | The loop finds room if and only if dropping every strictly cheaper transaction would |
| PoolTheorems.DroppedAreLowest | crates/aura-mempool/src/pool.rs:124-127 | The k lowest keys are k transactions, each below every one kept |
| PoolTheorems.PoolFullKeepsPool | crates/aura-mempool/src/pool.rs:93-138 | A PoolFull is a no-op if and only if the slot was free and the lowest key already pays as much as the newcomer |
| PoolTheorems.PoolFullLeaves | crates/aura-mempool/src/pool.rs:93-138 | A PoolFull leaves exactly the pool without the slot's holder and without every strictly cheaper transaction |
| PoolTheorems.PoolFullEmptiesPool | crates/aura-mempool/src/pool.rs:69-138 | A pool and a newcomer for which PoolFull changes the pool: one admitted transaction is given up, the better one refused, and the pool is empty |
| PoolTheorems.ReplacementRaises | crates/aura-mempool/src/pool.rs:99-104 | At 10% every accepted replacement pays at least 12/11 of the old fee if and only if ten times the old fee fits in 64 bits |
| PoolTheorems.AddCases | crates/aura-mempool/src/pool.rs:69-157 | Each answer of `add_transaction`, if and only if: invalid, already pooled, not beating the slot's holder, no room even with every strictly cheaper transaction dropped; any other transaction is taken |
| PoolTheorems.ReplacementIff | crates/aura-mempool/src/pool.rs:94-117 | Against the holder g of its slot, a valid newcomer is refused for its fee if and only if it pays less than g.fee + g.fee * percent / 100, and otherwise g is gone, while neither number passes 64 bits |
| PoolTheorems.ReplacementsGrow | crates/aura-mempool/src/pool.rs:94-117 | Whatever else happens in the pool, after k changes of hands of a slot that is never empty, 11^k times the last fee is at least 12^k times the first |
| Harvest.HarvestIsNearOptimal | crates/aura-mempool/src/pool.rs:160-179 | Knapsack bound: no choice that fits is worth more than the harvest and the first skipped transaction together, by density, and by fees up to the byte limit |
| Harvest.Exchange | crates/aura-mempool/src/pool.rs:167-176 | The exchange argument behind it, against any set, fitting or not |
| Harvest.HarvestIsFull | crates/aura-mempool/src/pool.rs:160-179 | A harvest fits, and nothing left out fits beside it |
| Harvest.RankedInOrder | crates/aura-mempool/src/pool.rs:160-166 | The walk goes by density, at one density the higher nonce first, at one nonce the greater hash first |
| Harvest.HarvestOfAll | crates/aura-mempool/src/pool.rs:160-179 | With nothing skipped the harvest is the whole pool |
| Validation.AdmittedIsCovered | crates/aura-mempool/src/validation.rs:83-90 | An admitted transaction is one its sender can pay if and only if amount plus fee fits in 64 bits: the check saturates |
| Validation.AdmittedNonce | crates/aura-mempool/src/validation.rs:68-81 | An admitted nonce lies in (nonce, nonce + 64], and the window is empty where it would wrap |
| Validation.StatelessCases | crates/aura-mempool/src/validation.rs:37-61 | Each answer of the stateless stage, if and only if, in numbers: 128 KiB, a fee of 100, no empty transfer, a verifying signature, in that order |
| Validation.StatefulCases | crates/aura-mempool/src/validation.rs:64-112 | Each answer of the stateful stage, if and only if, in numbers: nonce window of 64, balance against the saturated sum, a stake of a million for a registration, an unstake out of a validator's stake |
| Validation.AdmittedAgainIff | crates/aura-mempool/src/validation.rs:64-112 | An executed transaction passes the stateful checks again if and only if its nonce had skipped ahead, it does not register a validator, and the account it was admitted against could pay it twice |
| Validation.SkippedNonceReplays | crates/aura-mempool/src/validation.rs:64-112 | Such a transaction: a transfer numbered two from an account that sent nothing and holds its cost twice is admitted, executed, and admitted again |
| Validation.RepeatsAdmitted | crates/aura-mempool/src/validation.rs:64-112 | A transaction is admitted and executed k times in a row if and only if its nonce is at least k ahead and in the window, and the account can pay k times |
| Validation.ExecutedByGap | crates/aura-mempool/src/validation.rs:64-81 | A transaction numbered g ahead, from a sender that can pay each time, is executed g times and no more |
| Validation.AdmittedPairMints | crates/aura-mempool/src/validation.rs:64-112 | Two transfers admitted against one stored balance that covers only one: executing both pays the second out of nothing |
| Transactions.TransactionFromBytes | crates/aura-primitives/src/transaction.rs:75-111 | The hashed encoding determines the whole transaction, for every payload length |
| Transactions.TransactionFromSigning | crates/aura-primitives/src/transaction.rs:75-94 | What is signed for a transaction determines every field but the signature |
| Transactions.SizeIsEncodedLength | crates/aura-primitives/src/transaction.rs:125-128 | `size_bytes` is the length of the hashed encoding |
| Harvest.ValueNearFee | crates/aura-primitives/src/transaction.rs:131-138 | Fee density times size is the fee, rounded down by less than the size |
| Blocks.HeaderFromBytes | crates/aura-primitives/src/header.rs:54-85 | The hashed header encoding is uniquely decodable, even where the chain id's length prefix is cut to 32 bits |
| Blocks.HeaderFromSigning | crates/aura-primitives/src/header.rs:54-69 | What is signed for a header determines every field but the signature |
| Forgery.VerifiedIsProposers | crates/aura-primitives/src/header.rs:88-97 | A header whose signature verifies is, but for the signature, one its proposer signed |
| Blocks.VerifyAll | crates/aura-primitives/src/block.rs:52-54 | Passes if and only if every transaction verifies |
| Blocks.RootBindsTransactions | crates/aura-primitives/src/block.rs:31-35 | Two blocks have one Merkle root if and only if their lists are the same once the builder's repeats are spelled out |
| Blocks.BlockHashBindsBody | crates/aura-primitives/src/block.rs:38-57 | The blocks that pass `validate_basic` under the hash of one that does are exactly those of its header whose bodies are the same once repeats are spelled out; such a body is the same one if and only if it is equally long, and always if neither repeats a transaction |
| Blocks.PaddedBodyPasses | crates/aura-primitives/src/block.rs:38-57 | A block that passes also passes, under the same hash, with its repeats spelled out; that is another body if and only if the number of transactions is no power of two |
| Blocks.OnlyBodyIff | crates/aura-primitives/src/block.rs:38-57 | A block hash lets exactly one body pass if and only if the body is empty, or its length is a power of two and it is not what a shorter beginning of it pads to |
| Bodies.OneHashSameEffectIff | crates/aura-consensus/src/engine.rs:300-332 | Two blocks that pass under one hash leave the same accounts, over any ledger, if and only if they have equally many transactions |
| Bodies.TwinTaken | crates/aura-consensus/src/engine.rs:167-179 | Where an engine or the syncer takes a block, it also takes the block with its repeats spelled out |
| Bodies.OneHashTwoLedgers | crates/aura-consensus/src/engine.rs:167-298 | Two engines in one state, each able to decide, handed a block whose length is no power of two and the block with its repeats spelled out, certify one hash, commit what they were handed, and hold different accounts |
| LightClient.LightClientRejects | crates/aura-network/src/sync.rs:97-107 | The light-client check rejects every proof for every transaction of every block: it hashes the transaction hash again, which the block's tree does not |
| Merkle.LevelItemIsTree | crates/aura-primitives/src/merkle.rs:62-97 | Level k item j is the height-k tree over leaves [j*2^k, min((j+1)*2^k, n)), a missing right half duplicated |
| Merkle.LevelSize | crates/aura-primitives/src/merkle.rs:70-86 | Level k has exactly ceil(n / 2^k) items |
| Merkle.TopIsRoot | crates/aura-primitives/src/merkle.rs:92-97 | The last level is the root of the recursive tree |
| MerkleProof.FromLeafHashes | crates/aura-primitives/src/merkle.rs:62-89 | The building loop computes those levels |
| MerkleProof.BuildLevel | crates/aura-primitives/src/merkle.rs:75-83 | One pass pairs a level, the odd item with itself |
| MerkleProof.GetRoot | crates/aura-primitives/src/merkle.rs:92-97 | The reported root is that of the recursive tree, ZERO for no leaves |
| MerkleProof.GenerateProof | crates/aura-primitives/src/merkle.rs:100-130 | A proof exists exactly for an index in range; it climbs to the root and its directions spell the index |
| MerkleProof.Verify | crates/aura-primitives/src/merkle.rs:15-27 | The checking loop accepts exactly the paths that climb from the hashed leaf to the root |
| MerkleProof.ProveAndVerify | crates/aura-primitives/src/merkle.rs:15-130 | Completeness: for every payload list and index, the proof generated claims the index, spells it in its directions, has the tree's height, and is accepted against the root of that list |
| MerkleProof.ProofSelectsLeaf | crates/aura-primitives/src/merkle.rs:15-27 | Soundness: any proof that verifies has the tree's height and carries the leaf its directions select |
| LightClient.AcceptedShowsPayload | crates/aura-primitives/src/merkle.rs:15-27 | Soundness from payloads to payloads: a proof accepted against the root of a list has the tree's height and its data is the payload its directions select |
| MerkleProof.ClaimedIndexUnchecked | crates/aura-primitives/src/merkle.rs:15-27 | `verify` ignores the claimed index: a proof claiming another payload's index is accepted |
| MerkleProof.ClaimedIndexHolds | crates/aura-primitives/src/merkle.rs:15-27 | Over distinct leaves the claimed index is the payload's if and only if the directions select it |
| MerkleBinding.RootBindsTree | crates/aura-primitives/src/merkle.rs:39-46 | Under separated node hashes two trees have one root if and only if they are one tree |
| MerkleBinding.RootBindsPadded | crates/aura-primitives/src/merkle.rs:62-97 | Two non-empty lists have one root if and only if they pad to the same list |
| MerkleBinding.PaddedInjective | crates/aura-primitives/src/merkle.rs:62-97 | Padding is injective on lists of one length, and on duplicate-free lists of any lengths |
| MerkleBinding.SamePaddedIsPrefix | crates/aura-primitives/src/merkle.rs:62-97 | Of two lists with one padded list, one begins with the other; they are one list if they are equally long, or neither repeats an item |
| MerkleBinding.UnsharedIff | crates/aura-primitives/src/merkle.rs:62-97 | A list shares its tree with no other if and only if it is empty, or full and not the padding of its own beginning |
| MerkleBinding.RepeatedTailSameTree | crates/aura-primitives/src/merkle.rs:62-97 | The duplicate-free hypothesis is needed: [a, b, c] and [a, b, c, c] have one tree |
| MerkleBinding.RootIsRfc6962 | crates/aura-primitives/src/merkle.rs:62-97 | The root is that of section 2.1 of RFC 6962 if and only if the number of leaves is a power of two |
| MerkleBinding.FullRootIsMth | crates/aura-primitives/src/merkle.rs:31-97 | For a power-of-two number of payloads the root is the Merkle Tree Hash of section 2.1 of RFC 6962 as written there, on the node's tagged hashes |
| Smt.SparseMerkleTree.Root | crates/aura-storage/src/smt.rs:92-98 | The sparse root is the root of the full 256-level tree with ZERO at absent leaves, for every set of leaves |
| Smt.SparseMerkleTree.ComputeSubtreeRoot | crates/aura-storage/src/smt.rs:101-139 | Each recursion computes the dense subtree under its common prefix, shortcuts included |
| Smt.SplitByBit | crates/aura-storage/src/smt.rs:114-127 | The grouping loop splits the leaves by their bit |
| Smt.SmtEmptyRoots.constructor | crates/aura-storage/src/smt.rs:12-22 | The table holds the empty subtree root of every level |
| Smt.SparseMerkleTree.Update | crates/aura-storage/src/smt.rs:77-85 | Inserts the leaf, or removes it for an empty value |
| Smt.SparseMerkleTree.Delete | crates/aura-storage/src/smt.rs:87-89 | Removes the leaf |
| Smt.KeyFromBits | crates/aura-storage/src/smt.rs:101-124 | 256 equal bits are equal keys, so a full path has at most one leaf |
| Smt.RootIsNumbered | crates/aura-storage/src/smt.rs:49-139 | The root over a key-value map is that of the perfect tree of depth 256 in which the leaf of key k is item FromBigEndian(k) of the bottom row, lower half on the left |
| Smt.DenseIsNumbered | crates/aura-storage/src/smt.rs:101-139 | The same for the subtree under every prefix |
| Smt.DenseOfEmpty | crates/aura-storage/src/smt.rs:12-22 | The dense tree over no leaves has the table's root, at every depth |
| Smt.RootForgetsHistory | crates/aura-storage/src/smt.rs:77-98 | Update and delete sequences that end in one map have one root, whatever the hash function |
| Smt.RootNamesMap | crates/aura-storage/src/smt.rs:49-98 | Under collision-free hashes two histories have one root if and only if they end in one map |
| Smt.DenseBinds | crates/aura-storage/src/smt.rs:49-61 | Equal dense subtrees hold the same leaves under their prefix |
| Kv.KeyValueStore.ApplyBatch | crates/aura-storage/src/kv.rs:90-106 | Applies the operations in order |
| Kv.KeyValueStore.ScanPrefix | crates/aura-storage/src/kv.rs:109-116 | The range walk returns the scan specified |
| Kv.RangeIsFilter | crates/aura-storage/src/kv.rs:109-116 | Over keys in lexicographic order, a range from the prefix cut at the first key without it is filtering by prefix |
| Kv.ScanIsExact | crates/aura-storage/src/kv.rs:109-116 | A scan returns every key with the prefix, once, in order, and no other |
| Orders.SortedUnique | crates/aura-storage/src/kv.rs:33-37 | There is one sorted list of a key set, so tree-map iteration is determined |
| State.StateDB.constructor | crates/aura-storage/src/state.rs:44-60 | Opening a store rebuilds a tree that mirrors its accounts |
| State.StateDB.CommitBlock | crates/aura-storage/src/state.rs:167-199 | The whole new store, whatever order the overlay is taken in; the tree goes on mirroring it, and its root is returned |
| State.StateDB.ApplyGenesis | crates/aura-storage/src/state.rs:116-164 | The whole new store after a genesis; the tree mirrors it |
| State.StateDB.GetValidators | crates/aura-storage/src/state.rs:202-216 | The loop collects the active validators of the scan |
| State.MirrorUnique | crates/aura-storage/src/state.rs:44-60 | A store has one mirror |
| State.MirrorAfterAccount | crates/aura-storage/src/state.rs:172-181 | Writing an account and updating its leaf keeps the mirror |
| StateTheorems.RunThenReopen | crates/aura-storage/src/state.rs:44-199 | Along any sequence of genesis and commits the tree kept up to date mirrors the store; a database reopened on it has a tree of its own that mirrors the same store; each root returned is that of its tree, and the two are equal |
| StateTheorems.StateRootNamesAccounts | crates/aura-storage/src/state.rs:79-81 | Two mirrored stores have one state root if and only if they hold the same accounts |
| StateTheorems.StateRootIsNumbered | crates/aura-storage/src/state.rs:44-60 | The state root is that of the perfect tree of depth 256 in which each address's account bytes lie at the digest of the address |
| StateTheorems.ValidatorsExactly | crates/aura-storage/src/state.rs:202-216 | The validators reported are exactly the addresses with an active validator account, each once |
| StateTheorems.GenesisAccountAfter | crates/aura-storage/src/state.rs:116-146 | What a genesis leaves at every address, repeated entries included |
| StateTheorems.GenesisBalanceKept | crates/aura-storage/src/state.rs:132-136 | On a fresh store a funded genesis account keeps its balance if and only if it is not also a genesis validator |
| ChainStore.CommittedAccounts | crates/aura-storage/src/state.rs:167-199 | A commit shows in the accounts as the overlay on top of them |
| ChainStore.PutBlockReads | crates/aura-storage/src/state.rs:183-197 | A committed block is read back at its height, which becomes the latest |
| ChainStore.OtherHeightKept | crates/aura-storage/src/state.rs:97-105 | Every other height whose block hashes elsewhere reads back unchanged |
| Execution.ExecuteTransactions | crates/aura-consensus/src/engine.rs:300-332 | The execution loop over the overlay computes the buffered fold |
| Execution.ExecuteOne | crates/aura-network/src/sync.rs:52-85 | One transaction writes recipient, then sender, as specified; the same body serves engine and syncer |
| Execution.ExecuteThenCommit | crates/aura-network/src/sync.rs:50-88 | Executing through a fresh overlay and committing is the direct fold over the accounts |
| Ledger.OverlayIsFold | crates/aura-storage/src/state.rs:24-34 | Buffering in an overlay changes nothing |
| Ledger.LedgerEquation | crates/aura-consensus/src/engine.rs:300-332 | Over any accounts and any transactions, payable or not, total balance and stake fall by the fees and the amounts of Unstake and self-Transfer transactions, rise by what senders were not charged for, and fall by what saturating credits cut off |
| Ledger.SupplyBalancesIff | crates/aura-consensus/src/engine.rs:300-332 | While the amounts fit beside the supply in 64 bits, no list destroys more than its fees and losses, and it destroys exactly them if and only if every transaction is covered by its sender when it executes |
| Ledger.CoveredSupply | crates/aura-consensus/src/engine.rs:300-332 | Over covered transactions, however large, the supply falls by exactly fees and losses, so it never grows |
| Ledger.ShortIffUncovered | crates/aura-consensus/src/engine.rs:303-304 | A transaction mints if and only if its sender does not cover amount, fee and, for an Unstake, stake |
| Ledger.TransferFromNothingMints | crates/aura-consensus/src/engine.rs:300-332 | A transfer from an account that does not exist mints its whole amount |
| Ledger.AccountEquation | crates/aura-consensus/src/engine.rs:300-332 | Over any accounts and any transactions, every balance and every stake moves by what its owner should pay, stake, take back and receive, plus the part not charged, less the part cut off |
| Ledger.AccountsBookedIff | crates/aura-consensus/src/engine.rs:300-332 | While the amounts fit beside the supply in 64 bits, every account matches its owner's books if and only if every transaction is covered when it executes |
| Ledger.CoveredBooked | crates/aura-consensus/src/engine.rs:300-332 | Over covered transactions, however large, every account matches its owner's books |
| Ledger.NonceCountsTransactions | crates/aura-consensus/src/engine.rs:305-305 | Every nonce rises by the number of transactions its owner sent, modulo 2^64 |
| Forgery.NonceNeedsSignature | crates/aura-network/src/sync.rs:34-90 | Across a batch, on every exit, a nonce rises by the number of applied transactions in its owner's name, each of which the owner signed; without a signature of the owner it stays |
| Forgery.VerifiedIsOwners | crates/aura-primitives/src/transaction.rs:114-122 | A transaction that verifies in an owner's name is, but for the signature, one the owner signed |
| Ledger.RegistryFollows | crates/aura-consensus/src/engine.rs:313-318 | An address is a validator afterwards if and only if it was one or registered, under the key of its last registration |
| Sync.ChainSyncer.ApplyBlockBatch | crates/aura-network/src/sync.rs:30-94 | The loop does the run specified, to store and result, and keeps the tree mirroring the store; which blocks it applies and when it fails are stated by `Sync.GoodBatchApplied` and `Sync.FailsIff` |
| Sync.RunExtendsChain | crates/aura-network/src/sync.rs:30-94 | On every exit the store is the old chain with the applied blocks on top, linked, nothing below changed, accounts the direct fold; the parent lookup never fails; an Ok is the old height plus the blocks applied |
| Sync.GoodBatchApplied | crates/aura-network/src/sync.rs:34-92 | On a chain, a batch in which each block has the next height, passes `validate_basic` and names the hash of the one before it, the first that of the latest stored block, is applied whole, whatever certificates the blocks carry, and the result is the old height plus their number |
| Sync.FailsIff | crates/aura-network/src/sync.rs:34-50 | A batch fails if and only if some block at the then-next height does not pass `validate_basic` or does not name the tip's hash; the error is that block's and the store and the applied blocks are those of the batch before it |
| Sync.AppliedPass | crates/aura-network/src/sync.rs:40-42 | Every applied block is one of the batch and passed `validate_basic` |
| Sync.GenesisIsChain | crates/aura-storage/src/state.rs:148-162 | A genesis leaves a chain of height 0 |
| Sync.GenesisBlockStored | crates/aura-primitives/src/genesis.rs:42-58 | The block a genesis stores at height 0 carries the configured chain id, time, state root and validator digest, names no parent, holds no transactions, and passes `validate_basic` |
| Sync.CommitExtends | crates/aura-network/src/sync.rs:34-90 | One checked commit extends the chain by one, every lower height unchanged |
| Sync.CommitChainsIff | crates/aura-storage/src/state.rs:167-199 | A commit at the next height leaves a linked chain if and only if the block's parent hash is that of the latest block |
| Sync.ParentExists | crates/aura-network/src/sync.rs:44-47 | On a chain the `expect` on the parent block cannot fail |
| Sync.RunSupply | crates/aura-network/src/sync.rs:50-88 | Across a batch, on every exit, the stored supply and every nonce obey the ledger and nonce equations over the applied transactions, and the supply falls by just fees and losses if and only if each was covered when it executed |
| Wal.WriteAheadLog.constructor | crates/aura-storage/src/wal.rs:27-46 | A new or empty file gets the magic, any other is left |
| Wal.WriteAheadLog.Append | crates/aura-storage/src/wal.rs:49-63 | Appends exactly the record's encoding |
| Wal.WriteAheadLog.RecoverAndTruncate | crates/aura-storage/src/wal.rs:66-111 | Returns the longest valid run of records and leaves exactly their encoding, a prefix of the old file; fails exactly without the magic |
| Wal.DecodesPrefix | crates/aura-storage/src/wal.rs:66-111 | Whatever bytes follow, the records written come first |
| Wal.RecordLayout | crates/aura-storage/src/wal.rs:49-63 | A record lies in the file as its length, its checksum, both big-endian, and its bytes |
| Wal.DamageNoticedIff | crates/aura-storage/src/wal.rs:88-103 | A damaged payload ends the log before it if and only if its checksum differs; otherwise it is read as the record |
| Wal.TornAppendIsDropped | crates/aura-storage/src/wal.rs:66-111 | A final append cut anywhere yields exactly the earlier records |
| Wal.HistoryIsKept | crates/aura-storage/src/wal.rs:49-111 | Over any history of appends, crashes at any byte and recoveries, with a recovery after each crash, what is recovered is every record whose append returned, in order, and of the interrupted ones just those written in full; the file is cut to their encoding |
| Wal.UnrecoveredAppendIsLost | crates/aura-storage/src/wal.rs:27-63 | The recovery after a crash is needed: a record appended behind the length bytes of a longer one is never read back, although its append returned |
| Wal.RecoveryIsIdempotent | crates/aura-storage/src/wal.rs:66-111 | Recovering again finds the same records |
| Wal.AppendThenRecover | crates/aura-storage/src/wal.rs:49-111 | Append then recover adds just the new record if and only if its length fits the 32-bit field |
| Bytes.BigEndianRoundTrip | crates/aura-primitives/src/header.rs:54-69 | Fixed-width big-endian fields decode to what was encoded |
| Bytes.MostSignificantFirst | crates/aura-primitives/src/header.rs:54-69 | The first byte of an encoding counts most |

## Left out

- Engine.ConsensusEngine.CreateProposal: the wall clock is a parameter, and the proposal's `state_root` is the root before the block, as in the code; nothing is claimed about it as a post-state root.
- Agreement.CertificatesAgree: assumes delivered precommits are authentic, an engine is not restarted, handles at most one proposal per height, stays below height 2^64 - 1, and that stakes sum below 2^64; the code enforces none of these. `Redelivery.RedeliveredAgree` trades the one proposal for one block hash per height and authentic prevotes. A precommit cast inside `handle_proposal` is signed but dropped by the caller; it is counted among the votes signed.
- Replicas.ReplicasAgree: assumes bodies committed under one hash are equally long, without which `Bodies.OneHashTwoLedgers` shows it false, and collision freedom for what the two engines' blocks hashed.
- Bodies.OneHashSameEffectIff: assumes fewer than 2^64 transactions in a block, since nonces wrap.
- Wal.HistoryIsKept: assumes records below 2^32 bytes, beyond which `Wal.AppendThenRecover` shows it false.
- Ledger.SupplyBalancesIff: assumes the amounts fit beside the supply in 64 bits; beyond that `Ledger.LedgerEquation` still gives the exact supply, with what saturation cuts off.
- Sync.RunExtendsChain: assumes the latest height plus the batch stays below 2^64, where `latest_height + 1` would wrap.
- EngineRuns.RunInvariant: assumes the same of the engine's height, and that the engine is the only writer of its store.
- PoolTheorems.ReplacementsGrow: assumes ten times each fee fits in 64 bits, which `PoolTheorems.ReplacementRaises` shows is needed.
- Forgery.ForgeryRejected: assumes that no signature among those the evidence is made of is forged in an honest engine's name.
- Locks, threads and the re-acquired `RwLock`s: each handler is one step.
- File-system errors, `fsync`, the JSON snapshot of the key-value store and its path: the store is a map and the log a byte sequence.
- Overflow checks of debug builds, which panic where a release build wraps.
- BLAKE3, Ed25519, CRC32, bincode, Bech32 and key derivation: abstract functions.
- `apply_slashing`, `vote_hash`, `get_block_by_hash`, `get_transaction`, the block body's `last_commit_qc` beyond being carried: would only add easy members.
- Liveness, round changes, timeouts, ready and future queues, rollback and unbonding: not in the code modelled.
- RPC, CLI, gossip, tunnel, wallet, explorer and Android code.
