# Verification of the ONVM node

A Dafny model of the node's replicated state-transition protocol and of the components around it,
with proofs of what they promise. Nothing here is executed; every statement is about the model.

| files | what they model |
|---|---|
| `Crypto`, `ByteOrder`, `Wrappers` | byte strings, idealised hashing, byte-wise order |
| `SparseMerkle` | the sparse Merkle tree: roots, proofs, verification |
| `StateStorage`, `StateOverlay` | the scoped state store, and the overlay of pending writes a program sees while it runs |
| `Committee` | receipts, bitmap certificates, votes, weights and quorums |
| `LeaderRotation`, `Agreement`, `Decision` | who leads, the voting protocol of all nodes as a state machine over its steps, and that it decides |
| `HeightKeys`, `Replication`, `ReplicaEngine` | commitments by height, and how one node caches and applies finalised transitions |
| `ReplicatedState` | voting and applying together: one log, and one state at one height |
| `TransferFlow`, `TransferLoop` | flow control of outgoing transfers in the network event loop |
| `JobScheduler` | concurrent job execution, retries and cancellation |
| `Chunking`, `ChunkStore` | chunks and the content-addressed store |
| `ChunkFetch`, `ParallelFetch` | fetching one chunk from peers, and an object's missing chunks eight at a time |
| `ReplayWindow` | the nonce cache of signed requests |
| `LeaderForwarding`, `Inventory` | the search for the leader, and merging of announced inventories |

Verify everything with `dafny verify dfyconfig.toml`.

## How the model is built

Code that updates state in place is modelled by methods and classes, proved against functions that
say what they compute; the theorems are about those functions. A class usually keeps a ghost copy
of its meaning beside its fields. Concurrent code (voting, job execution, chunk fetching) is a state machine whose
steps are the code's atomic reads and writes, so a run is any interleaving.

Hashes are ideal. A content hash remembers its preimage. The hash of a state key is a parameter,
because the tree looks at its single bits; results that need it to be free of collisions say so, for
the finitely many keys they mention. A signature is a pair of key and receipt, and an aggregate is
the multiset of what it aggregates. Requests to other nodes, clocks, the order in which a hash table
is traversed and the result of running a program are free choices.

## What the proofs show that the code's own documentation does not say

- Agreement needs more than heavy quorums. A submission fixes its height, runs the program, and
  only then records its vote, without looking at the vote already recorded. If its node voted at a
  greater height meanwhile, that vote is forgotten and the node may vote twice.
  `Agreement.SubmissionKeepsVote` says exactly when, `Agreement.OvertakenSubmissionBreaksAgreement`
  gives a run, and `Agreement.Agreement` holds for all runs without such a submission.
- The manifest index is right exactly as long as no object gets a second, different manifest; puts
  alone never give it one.
- An object does not always take its computed number of requests. A fetch looks for its chunk long
  before it stores it, so equal chunks under way together are all fetched, and equal chunks that take
  turns only once. `ParallelFetch.ComputedWhenNew`: the number is as computed in every interleaving
  exactly when no chunk is present or repeated. `ParallelFetch.RepeatedChunk` reaches both extremes for
  a chunk missing any number of times, `ParallelFetch.MostRequests` says when every descriptor can be
  fetched, and `ParallelFetch.ServedFetchCount` bounds the number for all fetches.
- A nonce cache of capacity zero behaves as one of capacity one, and replays are kept out for
  `capacity` requests exactly when the time to live covers twice the skew and the drift between the
  wall clock, which the skew is read from, and the monotonic clock of the cache.
- The first inventory is kept unmerged, and the first merge keeps the last entry for each of its
  blobs: `Inventory.DoubledEntryIsLost` shows what is lost, `Inventory.MergeIsJoinIff` exactly when.
- Closing a connection frees capacity without draining the queues, so a job may wait although it
  could be sent: `TransferFlow.ClosingLeavesRoom` gives a run, `TransferFlow.ClosedIsDrained` says
  exactly when this does not happen.

## Model

| member | source | states |
|---|---|---|
| `Crypto.PathDeterminesHash` | src/merkle/mod.rs:174-178 | Reading a digest bit by bit loses nothing: equal paths mean equal digests. |
| `Crypto.PathsMeetAsDigests` | src/merkle/mod.rs:174-178 | Keys have different paths in the tree exactly when their byte digests differ. |
| `Crypto.PathsOrderAsDigests` | src/merkle/mod.rs:174-178 | Paths lie in the tree, from left to right, exactly in the order of the digests read byte by byte, so bits are read from the most significant one on. |
| `SparseMerkle.Partition` | src/merkle/mod.rs:106-113 | One level of the recursion splits the leaves, in order, by the bit at that level. |
| `SparseMerkle.ComputeSmtRoot` | src/merkle/mod.rs:96-116 | The recursive root equals the specification root of the leaf list, for every level up to 256. |
| `SparseMerkle.RootIsOrderIndependent` | src/merkle/mod.rs:96-116 | Any listing of a set of leaves, at any level, has the root of that set: leaf order does not matter. |
| `SparseMerkle.TreeRootInjective` | src/merkle/mod.rs:96-116 | At every level, two leaf sets with one root are one leaf set. |
| `SparseMerkle.TreeRootEmpty` | src/merkle/mod.rs:96-99 | Only the empty set has the empty root. |
| `SparseMerkle.ZeroGoesLeft` | src/merkle/mod.rs:106-116 | Leaves that all have a zero at a level make a node with an empty right half, leaves with a one a node with an empty left half. |
| `SparseMerkle.DedupLeaves` | src/merkle/mod.rs:86-94 | Pairs become leaves; a later pair for a key replaces an earlier one. |
| `SparseMerkle.DedupFollowsLastWrites` | src/merkle/mod.rs:86-94 | The leaf of a key is exactly the last value written for it, and there is none for a key never written. |
| `SparseMerkle.SparseMerkleRoot` | src/merkle/mod.rs:45-53 | The root function computes the root of the deduplicated pairs. |
| `SparseMerkle.PairsRootIsStateRoot` | src/merkle/mod.rs:45-53 | The root of a pair list is a function of its last-write-wins map. |
| `SparseMerkle.StateRootBinding` | src/merkle/mod.rs:45-53 | Two maps have equal roots exactly when they are equal. |
| `SparseMerkle.PairsRootBinding` | src/merkle/mod.rs:45-53 | Two pair lists have equal roots exactly when their last-write-wins maps are equal. |
| `SparseMerkle.ByteDigestsBind` | src/merkle/mod.rs:45-53 | With any byte digest that keeps the keys of two pair lists apart, their roots are equal exactly when their last-write-wins maps are. |
| `SparseMerkle.OneKeyState` | src/merkle/mod.rs:45-53 | In a state of one key, the first bit of its digest says on which side of the root it is. |
| `SparseMerkle.ComputeSmtWithProof` | src/merkle/mod.rs:118-156 | The proof builder returns the plain root and appends the siblings of the path, deepest first. |
| `SparseMerkle.PathClimbsToRoot` | src/merkle/mod.rs:118-156 | Climbing from a leaf with the siblings the builder collected gives the root, from every level. |
| `SparseMerkle.SparseMerkleProof` | src/merkle/mod.rs:55-63 | For every pair list and key the proof has 256 hashes, its root is the plain root, and a present key climbs to it. |
| `SparseMerkle.VerifySparseMerkleProof` | src/merkle/mod.rs:65-84 | The iterative verifier, which runs leaf to root, accepts exactly the proofs that climb to the expected root. |
| `SparseMerkle.ClimbReachesLeaf` | src/merkle/mod.rs:65-84 | Whatever climbs to the root of a tree, by a proof of any length, is a leaf of that tree and the proof has the full length. |
| `SparseMerkle.ProofSoundness` | src/merkle/mod.rs:65-84 | Soundness: a proof of any length that verifies against the root of a pair list shows a pair of its last-write-wins map. |
| `SparseMerkle.ServedProofIsExact` | src/merkle/mod.rs:55-84 | A served proof verifies with exactly the value the map holds for the key, and with none if it holds none. |
| `StateStorage.PrefixedInjective` | src/storage/state_store.rs:73-78 | No database key belongs to two programs or to two keys. |
| `StateStorage.StateStore.GetScoped` | src/storage/state_store.rs:17-20 | A read sees the entry of its own namespace. |
| `StateStorage.StateStore.SetScoped` | src/storage/state_store.rs:22-27 | A write changes one key of one namespace and no other namespace. |
| `StateStorage.StateStore.DeleteScoped` | src/storage/state_store.rs:65-70 | A delete removes one key of one namespace and changes no other namespace. |
| `StateStorage.StateStore.GetAllScoped` | src/storage/state_store.rs:52-63 | A scan over the sorted database keys lists exactly the entries of the namespace, each key once, in key order. |
| `StateStorage.StateStore.SparseRootScoped` | src/storage/state_store.rs:42-45 | The scoped root is the root of the namespace as a map. |
| `StateStorage.StateStore.ProveScoped` | src/storage/state_store.rs:47-50 | A proof taken from the store has 256 hashes and verifies with exactly the value the store holds. |
| `StateStorage.ApplyStateWrites` | src/consensus/core/execution.rs:454-468 | Writes applied one by one leave the state the writes describe, and no other program changes. |
| `StateStorage.SetEntries` | src/consensus/core/network_handlers.rs:1181-1185 | The entries of an accepted state response are laid over the state. |
| `StateStorage.ComputeRootAfterWrites` | src/consensus/core/network_handlers.rs:1490-1511 | The predicted root is the root of the state the writes would leave, without touching the store. |
| `StateOverlay.ViewAfterPut` | src/wasm_runtime/host_apis.rs:330-364 | A pending put is seen as the put done directly. |
| `StateOverlay.ViewAfterDel` | src/wasm_runtime/host_apis.rs:235-253 | A pending delete is seen as the delete done directly. |
| `StateOverlay.AsI32` | src/wasm_runtime/host_apis.rs:390-408 | The conversion to 32 bits is congruent, lies in the signed range, and changes nothing that fits. |
| `StateOverlay.PutIsRead` | src/wasm_runtime/host_apis.rs:330-418 | What is put exists, has its length, is listed, and is got back whole by whoever offers enough room. |
| `StateOverlay.DelIsRead` | src/wasm_runtime/host_apis.rs:178-253 | What is deleted does not exist, has no length, is not got and not listed. |
| `StateOverlay.OtherKeysStay` | src/wasm_runtime/host_apis.rs:178-418 | A call about one key leaves the answers about every other key as they are, and reading changes nothing. |
| `StateOverlay.ListIsExact` | src/wasm_runtime/host_apis.rs:255-328 | A listing holds exactly the existing keys under the prefix, in key order. |
| `StateOverlay.ListNeedsRoom` | src/wasm_runtime/host_apis.rs:302-325 | A listing is handed over exactly if there is room for it; otherwise the caller learns how much it takes. |
| `StateOverlay.ExecutionContext.StateExists` | src/wasm_runtime/host_apis.rs:178-203 | Answers as a direct map would. |
| `StateOverlay.ExecutionContext.StateLen` | src/wasm_runtime/host_apis.rs:205-233 | Answers as a direct map would, also for a missing key. |
| `StateOverlay.ExecutionContext.StateDel` | src/wasm_runtime/host_apis.rs:235-253 | The visible map loses the key. |
| `StateOverlay.ExecutionContext.StatePut` | src/wasm_runtime/host_apis.rs:330-364 | The visible map gains the value. |
| `StateOverlay.ExecutionContext.StateGet` | src/wasm_runtime/host_apis.rs:366-418 | Answers as a direct map would, with the same codes for a missing key and for a buffer that is too small. |
| `StateOverlay.ExecutionContext.StateList` | src/wasm_runtime/host_apis.rs:255-328 | Lists the visible keys under a prefix, sorted and encoded, or says the buffer is too small. |
| `StateOverlay.ExecutionContext.CurrentRoot` | src/wasm_runtime/host_apis.rs:420-451 | The root seen by the program is the root of the visible map. |
| `StateOverlay.ExecutionContext.Perform` | src/wasm_runtime/host_apis.rs:177-451 | Every host call acts on and answers from the visible map as direct mutation would. |
| `StateOverlay.ExecutionContext.SortedWrites` | src/wasm_runtime/runtime.rs:171-187 | The collected writes are in strictly ascending key order and are exactly the pending ones. |
| `StateOverlay.WriteKeyList` | src/wasm_runtime/host_apis.rs:302-325 | The list buffer is the length-prefixed encoding of the keys. |
| `StateOverlay.SmallNumbersFirst` | src/wasm_runtime/host_apis.rs:302-325 | Lengths are written with the least significant byte first. |
| `StateOverlay.ListRoundTrip` | src/wasm_runtime/host_apis.rs:302-325 | Decoding an encoded key list gives the keys back. |
| `StateOverlay.WritesRealiseView` | src/wasm_runtime/runtime.rs:171-203 | Applying the writes in order gives what the overlay showed. |
| `StateOverlay.Execute` | src/wasm_runtime/runtime.rs:171-210 | For every sequence of host calls the answers are those of one directly mutated map, the sorted writes lead to its final value, and the outcome root is its root. |
| `StateOverlay.ExecuteThenCommit` | src/consensus/core/network_handlers.rs:1490-1511 | Outcome root, predicted root and root after applying the writes one by one are all equal, and no other program changes. |
| `Committee.InclusionExclusion` | src/consensus/core/receipt_verifier.rs:31-53 | Two sets of members weigh no more than the total and their overlap. |
| `Committee.QuorumsIntersect` | src/consensus/core/receipt_verifier.rs:31-53 | Two quorums that are heavy enough share a member outside any light set. |
| `Committee.SelectSigners` | src/consensus/core/receipt_verifier.rs:66-94 | The bitmap decodes to the keys of the flagged members in order, with their saturated weight. |
| `Committee.VerifyAggregatedReceipt` | src/consensus/core/receipt_verifier.rs:13-63 | A receipt is accepted exactly when program, epoch, bitmap size, quorum weight and the aggregate over exactly the flagged keys are right; otherwise the first check that fails is reported. |
| `Committee.CertifiesOneEpoch` | src/consensus/core/receipt_verifier.rs:13-53 | A certificate verifies for one program and one epoch only, and for no more members than its bitmap has room for. |
| `Committee.BitOfMember` | src/consensus/core/receipt_verifier.rs:78-92 | A member has the bit of its position, counted from the least significant bit of the first byte. |
| `Committee.SignerWeight` | src/consensus/core/network_handlers.rs:1524-1535 | The weight of a set of voters does not depend on the order in which they are counted. |
| `Committee.FirstVotesWeighLess` | src/consensus/core/network_handlers.rs:1524-1535 | Counting each voter once never gives more than counting members, and the same when members are distinct. |
| `Committee.HandleVote` | src/consensus/core/network_handlers.rs:846-915 | A vote is ignored exactly when it is foreign, repeated or not signed with its member's key; otherwise it is stored, and the transition is finalised exactly when the voters, each counted once, reach the threshold. A finalised entry has a quorum by member weight; a pending one has none if the committee names no node twice. |
| `Committee.VoteIsForOne` | src/consensus/core/network_handlers.rs:846-915 | A vote counts for one program and epoch, with one signature, and once. |
| `Committee.TallySigners` | src/consensus/core/network_handlers.rs:1050-1061 | One pass over the members gives a bitmap that decodes to exactly the voters, their signatures and their weight. |
| `Committee.MarkSigner` | src/consensus/core/network_handlers.rs:1057 | Setting a bit of the bitmap sets that bit and no other. |
| `Committee.FormCertificate` | src/consensus/core/network_handlers.rs:1046-1077 | A bundle is formed exactly when the votes reach the threshold, and carries exactly the votes cast. |
| `Committee.VotesAreKeySignatures` | src/consensus/core/network_handlers.rs:1046-1077 | The votes cast are the signatures of the flagged keys, in member order. |
| `Committee.CertificateRoundTrip` | src/consensus/core/network_handlers.rs:1046-1077 | For every committee of at most 1000 distinct members and threshold at least 1, accepted votes at the threshold yield a bundle that the verifier accepts. |
| `LeaderRotation.LeadersInTurn` | src/consensus/core/network_handlers.rs:1513-1522 | In every round of as many heights as there are members, the members lead in their order. |
| `LeaderRotation.LeaderRepeats` | src/consensus/core/network_handlers.rs:1513-1522 | The leader repeats after as many heights as there are members. |
| `LeaderRotation.LeadsWithin` | src/consensus/core/network_handlers.rs:1513-1522 | From any height on, every member leads within as many heights as there are members. |
| `LeaderRotation.LeadsOnce` | src/consensus/core/network_handlers.rs:1513-1522 | No member that is named once leads twice in that many heights. |
| `LeaderRotation.NobodyLeads` | src/consensus/core/network_handlers.rs:1517-1519 | Nobody leads exactly without members or at height zero. |
| `Agreement.StepKeepsInv` | src/consensus/core/network_handlers.rs:676-844 | Proposing, voting, crashing, committing and foreign signing keep every honest node from signing two receipts of others at one height. |
| `Agreement.RunKeepsInv` | src/consensus/core/network_handlers.rs:676-844 | The same in every state of every run in which no submission signs below its node's last vote. |
| `Agreement.CertifiedIsBacked` | src/consensus/core/receipt_verifier.rs:13-63 | A certificate the verifier accepts is backed by members of threshold weight who did sign. |
| `Agreement.BackedReceiptsAgree` | src/consensus/core/network_handlers.rs:676-844 | Two backed receipts of one height are equal when quorums outweigh faulty members and the two executors. |
| `Agreement.Agreement` | src/consensus/core/network_handlers.rs:676-844 | Agreement: certificates from any two moments of such a run, for one program and height, carry one receipt. |
| `Agreement.LogsAgree` | src/consensus/core/network_handlers.rs:948-1022 | Any two honest nodes, at any two moments of such a run, agree on every height both have committed. |
| `Agreement.SequentialRunIsFresh` | src/consensus/core/execution.rs:266-330 | Runs in which each submission is one atomic step are such runs. |
| `Agreement.AgreementOfSequentialRuns` | src/consensus/core/execution.rs:266-330 | Agreement for runs with atomic submissions, without further conditions on them. |
| `Agreement.SubmissionKeepsVote` | src/consensus/core/execution.rs:266-330 | A submission that signs after a vote lets its node vote for a second receipt exactly when it signs below the height of that vote. |
| `Agreement.OvertakenSubmissionBreaksAgreement` | src/consensus/core/execution.rs:266-330 | A run of three nodes in which a submission was overtaken ends with two different certified receipts of one height. |
| `Decision.HonestNodesSignProperly` | src/consensus/core/network_handlers.rs:676-844 | In every run, fresh or not, an honest node with a seat signs only its own receipts and those of the leader of their height, never beyond the height after its log. |
| `Decision.CertifiedIsLed` | src/consensus/core/network_handlers.rs:699-711 | What is certified was proposed by the leader of its height, unless faulty members and the executor weigh the threshold alone. |
| `Decision.OthersSignFreely` | src/consensus/core/receipt_verifier.rs:13-63 | Nodes that are not honest may sign anything at any time. |
| `Decision.VoteSurvivesCrash` | src/consensus/core/engine.rs:301-342 | After a crash a node may repeat its vote, and refuses every other receipt of that height. |
| `Decision.NextCanBeDecided` | src/consensus/core/network_handlers.rs:676-1022 | From any state in which a committee of honest nodes is at rest, whatever its leader proposes next can be voted for and committed by all. |
| `Decision.EveryHeightCanBeDecided` | src/consensus/core/network_handlers.rs:676-1022 | Any receipts proposed by the leaders of their heights can be decided one after the other, in a run without an overtaken submission. |
| `HeightKeys.BigEndianOrder` | src/storage/program_catalog.rs:52-61 | Big-endian heights compare as byte strings the way the numbers do. |
| `HeightKeys.HeightKeyInjective` | src/storage/program_catalog.rs:52-61 | A key made of program and height determines both. |
| `HeightKeys.HeightKeyOrder` | src/storage/program_catalog.rs:63-81 | Keys of one program are ordered by height. |
| `HeightKeys.LastIsTop` | src/storage/program_catalog.rs:63-81 | The last key of a program's prefix is that of its greatest height. |
| `HeightKeys.HeightTree.Insert` | src/storage/program_catalog.rs:52-61 | An entry is filed under its program and height, and nothing else changes. |
| `HeightKeys.HeightTree.Get` | src/consensus/core/engine.rs:360-374 | A lookup finds the entry of its program and height. |
| `HeightKeys.HeightTree.Last` | src/storage/program_catalog.rs:63-81 | The scan returns the entry of greatest height, or nothing if there is none. |
| `Replication.AdvanceRaises` | src/consensus/core/network_handlers.rs:948-1022 | Each pass of the apply loop raises the expected height by one and leaves fewer bundles ahead: the loop ends. |
| `Replication.AdvanceIsSafe` | src/consensus/core/network_handlers.rs:948-1022 | A pass extends a safe log by one backed, linked commitment and moves the state root with it. |
| `Replication.StateResponseChangesNothing` | src/consensus/core/network_handlers.rs:1101-1200 | Once there is a commitment, a state response changes nothing, whatever it holds. |
| `Replication.HandleIsSafe` | src/consensus/core/network_handlers.rs:917-1022 | Every message handler keeps the log safe and only extends it. |
| `Replication.LogSafety` | src/consensus/core/network_handlers.rs:948-1022 | After any messages in any order, commitments are exactly 1..n, each backed by a bundle that arrived and is certified by the stored committee, each parent is the previous root, and the state has the last root. |
| `Replication.LogIsChained` | src/consensus/core/network_handlers.rs:1002-1018 | Every commitment carries its height, its root, the digest of its writes and, as parent, the root of the one before; the last root is that of the state. |
| `Replication.ProgramIsFixed` | src/consensus/core/network_handlers.rs:610-624 | Whatever arrives, the initial root of a program never changes once known, nor does its committee. |
| `Replication.RefusedChangesNothing` | src/consensus/core/network_handlers.rs:1202-1251 | With a known committee, a bundle it does not certify changes nothing. |
| `Replication.OnlyCertifiedIsFiled` | src/consensus/core/network_handlers.rs:1202-1251 | From the moment a node knows the committee, it files only what that committee certifies. |
| `Replication.HeadCatchesUp` | src/consensus/core/network_handlers.rs:917-946 | A head at or above the next height leaves nothing that could be applied; a lower one changes nothing. |
| `Replication.FirstStateIsProven` | src/consensus/core/network_handlers.rs:1101-1200 | Before the first commitment a state response counts only if its entries, within the limits, hash to the initial root of the program, and then they are laid over the state. |
| `Replication.FirstState` | src/consensus/core/network_handlers.rs:1101-1200 | Until its first commitment, whatever arrives, a node holds the state it began with or the program's initial state over it. |
| `Replication.ReachedAdvance` | src/consensus/core/network_handlers.rs:948-1022 | On a valid chain the next transition applies exactly when its bundle is there and the manifest is known. |
| `Replication.RunCatchesUp` | src/consensus/core/network_handlers.rs:948-1022 | In every state of a run over a chain, a node has applied all that reaches up from height 1. |
| `Replication.Confluence` | src/consensus/core/network_handlers.rs:948-1022 | However the bundles of a chain are ordered and repeated, and whenever the manifest arrives, the node ends with commitments 1..n and the state of the writes in height order. |
| `Replication.OnlyArrivedIsFiled` | src/consensus/core/network_handlers.rs:1202-1251 | A node files no bundle that did not arrive. |
| `ReplicatedState.HistoriesAgree` | src/consensus/core/network_handlers.rs:948-1022 | Histories of certificates that were really signed carry the same receipt at every height both reach. |
| `ReplicatedState.NodesAgree` | src/consensus/core/network_handlers.rs:948-1022 | Two nodes with one committee, whatever each received and in whatever order, have the same commitment at every common height and the same state at the same height. |
| `ReplicaEngine.NodeRulesBind` | src/consensus/core/network_handlers.rs:948-1022 | The roots and certificates the node uses meet what log safety asks of them. |
| `ReplicaEngine.CheckRoots` | src/consensus/core/network_handlers.rs:979-1000 | A bundle passes exactly when it starts from the current root, its writes have its digest and lead to the root it claims. |
| `ReplicaEngine.DagEngine.ApplyNext` | src/consensus/core/network_handlers.rs:948-1022 | One pass of the apply loop does what `Advance` says to this program's record, and nothing to any other program. |
| `ReplicaEngine.DagEngine.ApplyAvailableTransitions` | src/consensus/core/network_handlers.rs:948-1022 | The loop terminates with `ApplyAvailable` of the old record and nothing left to apply. |
| `ReplicaEngine.DagEngine.HandleFinalizedReceipt` | src/consensus/core/network_handlers.rs:1202-1251 | Without a known committee the bundle is cached unverified, otherwise verified, stored and applied; other programs are untouched. |
| `ReplicaEngine.DagEngine.HandleProgramManifest` | src/consensus/core/network_handlers.rs:610-624 | A manifest that contradicts the stored root or committee changes nothing; another is stored and what waited for it applied. |
| `ReplicaEngine.DagEngine.HandleProgramHead` | src/consensus/core/network_handlers.rs:917-946 | A head above the own height triggers the apply loop, any other nothing. |
| `ReplicaEngine.DagEngine.CheckLimits` | src/consensus/core/network_handlers.rs:1101-1138 | A state response passes exactly when its entry count, key, value and total sizes are within the limits. |
| `ReplicaEngine.DagEngine.HandleStateResponse` | src/consensus/core/network_handlers.rs:1101-1200 | Entries are stored exactly when they are within the limits and their root is the one this node trusts. |
| `ReplicaEngine.DagEngine.Deliver` | src/consensus/core/network_handlers.rs:451-675 | Each message has the effect `Handle` gives it on its own program. |
| `ReplicaEngine.DagEngine.DeliverAll` | src/consensus/core/network_handlers.rs:451-675 | Whatever arrives for a program, its record follows `Run` and stays safe, and other programs are untouched. |
| `TransferFlow.LimitsFor` | src/network/service.rs:461-477 | The per-peer limit lies between 2 and 32 and never exceeds the total, which is at most 256. |
| `TransferFlow.SendKeeps` | src/network/service.rs:545-570 | Handing the head of a queue to the swarm keeps the invariant, within both limits. |
| `TransferFlow.CompleteKeeps` | src/network/service.rs:1758-1785 | A response or failure, also a late one, keeps the invariant. |
| `TransferFlow.BlockKeeps` | src/network/service.rs:1732-1739 | Blocking a peer keeps the invariant and, if nothing could be sent, leaves it so. |
| `TransferFlow.ClosedKeeps` | src/network/service.rs:1235-1312 | Closing a connection, the last or not, keeps the invariant. |
| `TransferFlow.ClosedIsDrained` | src/network/service.rs:1235-1312 | If nothing could be sent before a connection closes, nothing can be sent afterwards exactly when no pending request is dropped or every other peer with a queue is at its own limit. |
| `TransferFlow.ClosingLeavesRoom` | src/network/service.rs:1235-1312 | A run that ends by closing a connection, with a job waiting for a limit that is no longer reached. |
| `TransferFlow.BecomeReadyKeeps` | src/network/service.rs:1563-1601 | A successful handshake keeps the invariant, and the buffer always fits the queue. |
| `TransferFlow.SubmitKeeps` | src/network/service.rs:1946-1989 | A submitted job is refused, buffered or queued so that the invariant holds. |
| `TransferFlow.EveryRunKeepsInv` | src/network/service.rs:514-572 | In every state of every run, by induction over its steps: counters equal what is pending and are within limits, ready and blocked are disjoint, queues only for ready peers, buffers only for peers neither ready nor blocked, the announced peers are the ready ones. |
| `TransferFlow.AlwaysInBounds` | src/network/service.rs:514-572 | In a state that keeps the invariant no step refers to a job that does not exist. |
| `TransferFlow.ExactlyOnePlace` | src/network/service.rs:1946-1989 | Every submitted job is in exactly one place, at most once. |
| `TransferFlow.AnsweredAtMostOnce` | src/network/service.rs:1235-1312 | What became of a job never changes later in a run. |
| `TransferFlow.AnswerIsTold` | src/network/service.rs:1758-1828 | A response tells the job of its request that it succeeded, a failure that it failed, if it wants to know; a late one changes nothing. |
| `TransferFlow.LastCloseIsTold` | src/network/service.rs:1235-1312 | The end of the last connection ends all jobs of the peer: those in flight learn that they failed, those waiting are abandoned. |
| `TransferFlow.CloseIsTold` | src/network/service.rs:1235-1312 | The end of another connection fails the pending requests of a peer neither ready nor blocked, and nothing else. |
| `TransferFlow.CloseLeavesNothing` | src/network/service.rs:1235-1312 | After the last connection closed the peer is not ready and nothing is queued, buffered or pending for it. |
| `TransferFlow.BlockIsTold` | src/network/service.rs:1732-1739 | Blocking abandons exactly the waiting jobs of the peer and touches no pending request. |
| `TransferFlow.HandshakeOpens` | src/network/service.rs:1563-1601 | A handshake makes the peer ready and moves exactly its buffered jobs behind its queued ones. |
| `TransferFlow.BlockedIsAbandoned` | src/network/service.rs:1946-1950 | A job for a blocked peer is abandoned at once. |
| `TransferFlow.SubmittedIsPlaced` | src/network/service.rs:1946-1989 | A job for a ready peer is queued last, or refused by a full queue and told so; nothing else changes. |
| `TransferFlow.OldestGivesWay` | src/network/service.rs:1951-1963 | A job for any other peer is buffered last; only a full buffer gives way, by its oldest job alone, which learns that it failed. |
| `TransferFlow.OutcomeHasCause` | src/network/service.rs:1186-1989 | In every run a job is answered with success only if its response came while it was in flight, with a failure only if its request failed or was dropped or it was refused or pushed out, and abandoned only while it waited. |
| `TransferFlow.SentIsSubsequence` | src/network/service.rs:514-572 | What was sent to a peer is a subsequence of what was submitted for it. |
| `TransferLoop.RetainOthers` | src/network/service.rs:1245-1264 | Exactly the requests pending at the peer are removed, counted and answered with an error. |
| `TransferLoop.MoveBuffer` | src/network/service.rs:1587-1600 | The buffer is appended to the queue as far as it has room, and entirely if both fit. |
| `TransferLoop.EventLoop.DrainPeer` | src/network/service.rs:545-570 | Takes only sending steps for one peer, until a limit or the end of its queue: what leaves the queue has been sent, in order, and is in flight. |
| `TransferLoop.EventLoop.Drain` | src/network/service.rs:514-572 | Takes only sending steps, and ends only when nothing more could be sent, whatever order the peers come in: for every peer what was sent and what is queued make up what they did before. |
| `TransferLoop.EventLoop.ReceiveJob` | src/network/service.rs:1946-1989 | The step of a submitted job (abandoned, refused, buffered or queued), then only sending steps; a queued one leaves the queues drained. |
| `TransferLoop.EventLoop.ReceiveResponse` | src/network/service.rs:1758-1797 | The step that answers and uncounts the pending job, which learns that it succeeded, or nothing for a late response; then only sending steps until the queues are drained. |
| `TransferLoop.EventLoop.ReceiveFailure` | src/network/service.rs:1799-1889 | The step that ends the pending job, which learns that it failed, after an undecodable answer the step that blocks the peer, then only sending steps until the queues are drained. |
| `TransferLoop.EventLoop.BlockPeer` | src/network/service.rs:1732-1739 | Exactly the blocking step: the peer is withdrawn and blocked, its queue and buffer are dropped with their jobs abandoned, and its pending requests stay. |
| `TransferLoop.EventLoop.PeerReady` | src/network/service.rs:1624-1712 | The step that makes the peer ready, announces it if new and queues its buffered jobs in order, then only sending steps until the queues are drained. |
| `TransferLoop.EventLoop.CloseConnection` | src/network/service.rs:1186-1313 | Exactly the closing step, without sending: the last connection withdraws the peer and ends all its jobs, pending ones with an error; another one only ends pending jobs of a peer neither ready nor blocked. |
| `JobScheduler.Concluded` | src/wasm_runtime/job_executor.rs:113-193 | An executor writes back a completed job exactly after success; a failure or timeout makes it pending again exactly if its copy has retries left, counting one, and otherwise leaves it failed or timed out. |
| `JobScheduler.Rewritten` | src/wasm_runtime/job_scheduler.rs:207-254 | Each check and a cancellation write their own status and change nothing else. |
| `JobScheduler.WhoQualifies` | src/wasm_runtime/job.rs:149-163 | Running jobs can be timed out, pending ones expire, and a job can be cancelled while it waits, runs or has a retry left. |
| `JobScheduler.StepKeepsInv` | src/wasm_runtime/job_scheduler.rs:86-170 | Every read and every write of executors, scheduler checks, cancellations and error handling keeps the invariant. |
| `JobScheduler.StartKeeps` | src/wasm_runtime/job_executor.rs:64-83 | Starting a job from a held copy keeps starts and retries in step. |
| `JobScheduler.FinishKeeps` | src/wasm_runtime/job_executor.rs:113-195 | Writing a stale copy back keeps starts and retries in step. |
| `JobScheduler.StoreKeeps` | src/wasm_runtime/job_scheduler.rs:207-254 | Any stale write of a record that is not pending is harmless. |
| `JobScheduler.SchedulingIsBounded` | src/wasm_runtime/job_scheduler.rs:86-170 | In every interleaving a job starts at most max_retries + 1 times, its retry count is within max_retries and counts its starts while it is pending, no two tasks execute it at once, and live tasks are within max_concurrent. |
| `JobScheduler.StatusIsGiven` | src/wasm_runtime/job_executor.rs:113-195 | In every interleaving a job is completed only if a task of it succeeded, failed or timed out only if one did so or that was forced, cancelled or expired only if that was asked for while it was open, unless it was inserted so. |
| `JobScheduler.CycleFillsUp` | src/wasm_runtime/job_scheduler.rs:86-120 | A scheduling cycle offers exactly the places that are free. |
| `JobScheduler.QueueIsInOrder` | src/wasm_runtime/job_scheduler.rs:86-120 | Queued jobs are spawned in the order in which they were queued, and one taken out of the queue is not. |
| `JobScheduler.FailingTaskBlames` | src/wasm_runtime/job_scheduler.rs:124-136 | A failing task reads its job's record and marks it failed, changing nothing else. |
| `JobScheduler.AbortedTaskFails` | src/wasm_runtime/job_executor.rs:42-111 | An execution that breaks off writes nothing itself, releases its job and fails. |
| `JobScheduler.LateTaskFails` | src/wasm_runtime/job_executor.rs:42-83 | A task whose job is taken, no longer pending, or cannot be stored as running fails too. |
| `JobScheduler.FinishedTaskEnds` | src/wasm_runtime/job_executor.rs:113-203 | A task that wrote its result back ends without touching the record again. |
| `JobScheduler.BoundIsReached` | src/wasm_runtime/job_executor.rs:113-195 | For every max_retries there is a run that starts a job max_retries + 1 times. |
| `JobScheduler.LetGoForever` | src/wasm_runtime/job_executor.rs:42-83 | A job that is no longer pending, and of which no executor holds a copy, is never started again. |
| `Chunking.DivCeil` | src/storage/unified_store.rs:55-60 | The smallest multiple of the divisor that reaches the number; zero for a zero divisor. |
| `Chunking.ChunkData` | src/storage/unified_store.rs:316-330 | The loop cuts the data into pieces of the size its length calls for. |
| `Chunking.PiecesConcat` | src/storage/unified_store.rs:316-330 | The pieces put together are the data. |
| `Chunking.PiecesCount` | src/storage/unified_store.rs:19-29 | There are as many pieces as the length divided by the size, rounded up. |
| `Chunking.PiecesSizes` | src/storage/unified_store.rs:316-330 | No piece is empty or too long, and all but the last are full. |
| `Chunking.TwoLevelChunking` | src/storage/unified_store.rs:19-60 | For data of every size, chunks concatenate to it, number as computed, and take as many parts as computed. |
| `ChunkStore.Validate` | src/types.rs:495-509 | A manifest validates exactly when its offsets are contiguous from zero. |
| `ChunkStore.DescriptorsAreContiguous` | src/storage/unified_store.rs:98-119 | The manifest of any data validates and adds up to its size. |
| `ChunkStore.ManifestReadsBack` | src/storage/unified_store.rs:144-181 | Data whose chunks are in the store reads back from its manifest byte for byte. |
| `ChunkStore.UnifiedStore.StoreChunk` | src/storage/unified_store.rs:253-259 | A chunk is stored exactly when it hashes to its id. |
| `ChunkStore.UnifiedStore.PutObject` | src/storage/unified_store.rs:75-142 | Empty data is refused; other data is stored readable and indexed, everything stored earlier stays readable, and a store made by puts remains one. |
| `ChunkStore.UnifiedStore.GetObject` | src/storage/unified_store.rs:144-181 | Returns what the manifest and chunks make, only if it hashes as the manifest says; every stored object comes back. |
| `ChunkStore.UnifiedStore.PutAll` | src/storage/unified_store.rs:75-181 | After any sequence of puts every object put so far is readable and, from an empty store, every indexed lookup equals the full scan. |
| `ChunkStore.UnifiedStore.StoreManifest` | src/storage/unified_store.rs:201-212 | The index stays sound exactly when no other manifest is indexed under the object. |
| `ChunkStore.UnifiedStore.GetManifest` | src/storage/unified_store.rs:214-241 | The lookup agrees with a full scan exactly when the index is right for that id, and repairs the index; in a store made by puts it always agrees and leaves the index alone. |
| `ChunkStore.LookupIsScan` | src/storage/unified_store.rs:214-241 | Indexed lookup and scan agree exactly where the index is right. |
| `ChunkStore.LookupAfterPuts` | src/storage/unified_store.rs:214-241 | In a store made by puts, for every id: indexed lookup and full scan agree, and find something exactly for indexed ids. |
| `ChunkStore.StoringKeepsIndex` | src/storage/unified_store.rs:201-212 | Storing a manifest keeps the index sound exactly when it does not replace an indexed one. |
| `ChunkStore.ReplacedManifestMisleads` | src/storage/unified_store.rs:201-241 | A second, different manifest for an object makes the lookup answer where the scan finds nothing. |
| `ChunkFetch.ServePart` | src/consensus/core/network_handlers.rs:1343-1370 | A part request is answered exactly when its length is between 1 and the part size and it starts inside the chunk, with those bytes. |
| `ChunkFetch.FetchPart` | src/network/chunk_distributor.rs:206-240 | A part of the right length from one of at most three providers; the right bytes if one holds the chunk and none sends wrong ones. |
| `ChunkFetch.FetchChunkData` | src/network/chunk_distributor.rs:185-255 | A chunk takes exactly its number of parts successful requests, an abandoned attempt fewer; it comes out as its holder has it. |
| `ChunkFetch.FetchSingleChunk` | src/network/chunk_distributor.rs:127-183 | Only a chunk that hashes to its id is ever stored, and one served at any of four attempts is, if nobody sends wrong bytes before; one served at once takes one request for each part, and over all attempts at most four times as many succeed. |
| `ParallelFetch.EveryRunKeepsInv` | src/network/chunk_distributor.rs:60-183 | In every state of every interleaving, others storing chunks meanwhile: at most eight tasks are live, every chunk hashes to its id, and was there before, stored by others or brought by a task that paid for all its parts; the successful requests add up over all tasks, at most four attempts each. |
| `ParallelFetch.AtMostEightAsk` | src/network/chunk_distributor.rs:106-115 | However often a content is missing, at most eight tasks ever ask for it. |
| `ParallelFetch.NeededWhenDistinct` | src/network/chunk_distributor.rs:87-92 | Fetching every descriptor takes at least what bringing every content once takes, and the same exactly when no content is repeated. |
| `ParallelFetch.FetchCount` | src/network/chunk_distributor.rs:106-183 | Whatever the network answers and others store: a fetch that completes has all missing contents, with at least the requests needed by those nobody else stored, and at most four attempts for each descriptor and four for each of eight tasks for each content. |
| `ParallelFetch.ServedFetchCount` | src/network/chunk_distributor.rs:106-183 | On served chunks, for every interleaving: at least what the missing contents that nobody else stored need, at most the parts of the missing descriptors, at most eight times what the contents need; all equal when no content is repeated or stored by others. |
| `ParallelFetch.EveryRunEnds` | src/network/chunk_distributor.rs:127-183 | No fetch, with any failures, takes more steps of its own than the attempts of all tasks allow. |
| `ParallelFetch.ThreeAttemptsMayFail` | src/network/chunk_distributor.rs:146-182 | A task survives three failed attempts, each of which starts over, and no fourth. |
| `ParallelFetch.ServedRunCompletes` | src/network/chunk_distributor.rs:106-183 | A fetch whose requests are answered is never stuck: every such run extends by steps of its own to one in which all tasks are done. |
| `ParallelFetch.FindMissing` | src/network/chunk_distributor.rs:87-92 | The loop finds the descriptors whose chunk is absent, repeated ones included. |
| `ParallelFetch.FetchedReadsBack` | src/network/chunk_distributor.rs:106-124 | Once every task is done, whatever the network did, the object reads back byte for byte from its manifest. |
| `ParallelFetch.ObjectFetchCount` | src/network/chunk_distributor.rs:60-125 | A served object takes at most its computed number of parts: exactly that many if no chunk is present, repeated or stored by others, fewer if one is present; at least what the contents nobody has need and at most eight times what its absent contents need. |
| `ParallelFetch.ComputedWhenNew` | src/network/chunk_distributor.rs:60-125 | As long as others do not store its chunks, a served object takes its computed number of parts in every interleaving exactly when no chunk is present and none is repeated. |
| `ParallelFetch.FewestRequests` | src/network/chunk_distributor.rs:106-115 | For any missing chunks some interleaving brings every content once. |
| `ParallelFetch.MostRequests` | src/network/chunk_distributor.rs:106-115 | Some interleaving fetches every missing descriptor, repeated ones again, exactly when no task is preceded by eight for contents missing again from there on. |
| `ParallelFetch.FirstTogether` | src/network/chunk_distributor.rs:106-115 | For any missing chunks some interleaving fetches all of the first ones, up to eight, and every other content once. |
| `ParallelFetch.RepeatedChunk` | src/network/chunk_distributor.rs:106-183 | A chunk missing any number of times is fetched once in one run, and in another as often as it is missing but at most eight times. |
| `ParallelFetch.RepeatedChunkCount` | src/network/chunk_distributor.rs:106-183 | In every run these are the bounds: once at least unless others store it, and as often as it is missing but at most eight times. |
| `ReplayWindow.NonceCache.Evict` | src/rpc/auth.rs:465-481 | Exactly the stale entries leave. |
| `ReplayWindow.NonceCache.CheckAndInsert` | src/rpc/auth.rs:450-463 | A nonce is accepted exactly when it is not among the last `capacity` accepted ones no older than the time to live. |
| `ReplayWindow.SeenIffHeld` | src/rpc/auth.rs:433-481 | Map and queue hold a nonce exactly when the window over the log does. |
| `ReplayWindow.SkewIsDistance` | src/rpc/auth.rs:192-197 | A timestamp passes exactly when it is no further from the clock than the skew, before or after. |
| `ReplayWindow.ReplayGuard.Admit` | src/rpc/auth.rs:192-204 | A request passes exactly when its timestamp is within the skew of the wall clock and its nonce is not in the window by the clock of the cache. |
| `ReplayWindow.ReplayIsLate` | src/rpc/auth.rs:192-204 | Whatever the clocks do, a nonce passes twice only after `capacity` others or once the first pass is older than the time to live. |
| `ReplayWindow.ReplayNeedsFullWindow` | src/rpc/auth.rs:192-204 | With a time to live of at least twice the skew and the drift between the two clocks, a request passes twice only after `capacity` others. |
| `ReplayWindow.ReplayCondition` | src/rpc/auth.rs:192-204 | That no request passes twice earlier holds exactly when the time to live is at least twice the skew and the drift between the two clocks. |
| `LeaderForwarding.Forward` | src/consensus/core/execution.rs:347-406 | Ends for every sequence of replies; goes where a reply points unless that node was asked, otherwise on through the candidates in order; asks no node twice and never itself, sends at most members + 8 requests, and runs locally exactly when led to itself. |
| `LeaderForwarding.OthersInOrder` | src/consensus/core/execution.rs:356-362 | After the hinted leader, the members are tried in the order in which the committee names them. |
| `LeaderForwarding.OnlyTarget` | src/consensus/core/execution.rs:368-396 | After any requests there is at most one node to ask next. |
| `Inventory.SyncState.MergeInventory` | src/consensus/core/network_handlers.rs:374-417 | The first inventory is kept as it is; a later merge lists each blob once, and says what the two said together exactly when the last entry for each blob, with the newcomer, covers the earlier ones. |
| `Inventory.MergeIsJoinIff` | src/consensus/core/network_handlers.rs:374-417 | Keeping the last entry of each blob and joining the newcomer is the join exactly when nothing an earlier entry said is lost. |
| `Inventory.DoubledEntryIsLost` | src/consensus/core/network_handlers.rs:374-417 | Two entries for one blob, of which the second says less, and a newcomer silent about it: the merge is not the join. |
| `Inventory.SyncState.MergeAll` | src/consensus/core/network_handlers.rs:374-417 | After any sequence of inventories the known one is their join exactly when nothing the first says is hidden behind a later entry of its own and not said by the others either; always if it lists no blob twice. |
| `Inventory.JoinIsSemilattice` | src/consensus/core/network_handlers.rs:374-417 | Joining is idempotent, commutative and associative. |
| `Inventory.JoinAllSays` | src/consensus/core/network_handlers.rs:374-417 | A join says of programs, executions, blobs, data and locations exactly what one of its parts says. |
| `Inventory.JoinOfInventoriesSays` | src/consensus/core/network_handlers.rs:374-417 | The join of announced inventories says exactly what an entry of one of them says. |
| `Inventory.OrderDoesNotMatter` | src/consensus/core/network_handlers.rs:374-417 | The join depends only on which inventories occur, not on order or repetition. |

## Left out

- Signature and hash internals: BLS, Ed25519, BLAKE3, threshold ECDSA, HKDF, AEAD and Argon2 are foreign or do not follow the textbook; ideal versions are used.
- The swarm, gossip, Kademlia, mDNS and peer exchange are an environment that may deliver, drop or fail.
- Wasmtime and WASI: a program is an arbitrary sequence of host state calls; bad guest pointers, which end a call with an error code, are not modelled.
- Encodings other than key lists and height keys: trees are maps, and records are their own encoding.
- Height overflow: a commitment at the greatest 64-bit height ends the apply loop in the model, where the code's addition would overflow.
- Writing a manifest while deploying a program locally, which does not check it against the stored one.
- Job writes to program state, which bypass the log; log safety is about consensus messages only.
- Committee changes: one committee certificate per program, as the manifest check enforces.
- Agreement.StepKeepsInv: reads and writes of the last vote are single steps; in the code a lock is awaited between the database and the cache, so a submission may leave the two different until the next vote.
- Replication.LogSafety: handlers are atomic; in the code a submission's own task can reach the apply loop beside the event loop, with no lock shared between them, and what two apply loops do to each other is not modelled.
- ReplicaEngine.DagEngine.ApplyAvailableTransitions: is one apply loop on its own, for the same reason.
- Agreement.Agreement: is stated for one program and committee, and for runs without an overtaken submission, because it is false otherwise.
- Restarts of the job scheduler, which lose the set of active jobs, and a second insertion of a job that already exists.
- JobScheduler.SchedulingIsBounded: does not model clocks; a forced timeout or an expiry may hit any running or pending job. It is about executor tasks: a blocking execution that timed out keeps running on its thread after its task has ended, so program code of one job may overlap with its retry.
- JobScheduler.StepKeepsInv: models executor and scheduler on values, as interleaved steps instead of methods, since what matters is what happens between a read and the write that follows it.
- The order in which the scan for pending jobs queues them, and retry backoff.
- ParallelFetch.ObjectFetchCount: starts from a known manifest; requesting object metadata and manifests from peers, and finding providers, is not modelled.
- ParallelFetch.EveryRunKeepsInv: models concurrent fetches on values, as interleaved steps instead of methods, since what matters is what happens between the look and the store; what one of them does alone is `ChunkFetch.FetchSingleChunk`.
- Chunk and object sizes beyond the 32-bit and 64-bit fields that hold them.
- TransferLoop.EventLoop.CloseConnection: does not promise drained queues, because the code does not drain there; `TransferFlow.ClosedIsDrained` says when they are.
- Redialling, connection limits and memory pressure in the event loop.
- The rate limiter, request signatures and body checks of the RPC layer; the RPC handlers, command line, gateway, configuration and TypeScript client.
- The unsorted Merkle root of `merkle_root`, content type detection, health metrics, fuel estimates and node scoring.
- The stored copies of aggregated receipts and all timestamps.
