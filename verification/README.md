# A model of libhotstuff with erasure-coded proposals

The repository runs HotStuff among n replicas. A proposer does not send a block's commands to
everybody: it cuts them into n erasure-coded slices under a Merkle root, sends one slice to each
replica, replicas forward theirs, and any n - (n-1)/3 slices give the commands back. This project
models both layers and proves what each is for.

**Consensus.** `ReplicaModel` is one replica as a value, with the branches of `src/consensus.cpp` in
both builds (three-step, and `HOTSTUFF_TWO_STEP`), before pruning is taken into account. `Protocol` puts
any number of such correct replicas beside one growing set of votes; its steps deliver, receive, vote and
propose in any order, lose and repeat messages, and let faulty replicas vote for anything. `Agreement`,
`Safety` and `Theorems` prove the results over all runs: correct replicas execute one chain, the "safety
breached" throw is dead, the commit log has no gaps, certified blocks are unique per height.

`StoreModel` is the replica as the program keeps it: a store of entries with decision flags, votes and
certificates, which `prune` strips and releases and from which a released block may be fetched and delivered
afresh. `StoreProtocol` runs such replicas. `Mirror`, `MirrorSteps` and `Refinement` show that every run of
theirs is a run of `Protocol` in which the proposals that throw were lost, so agreement holds for them too;
`StoreTheorems` says exactly when they throw or read out of bounds where the others do not.
`CertificateFlow` and `CertificateTheorems` follow the certificates they build and pass on.
`Progress` is about what moves forward: `hqc_tail` while `hqc` stays, and `hqc` when the correct replicas' votes come.
`WitnessRun`, `PruneWitness` and `CertificateWitness` are concrete runs, for the findings below; so is `LockWitness`,
where a locked replica changes branches.
`CoreObject.HotStuffCore` is the class; each handler is proved to do what `StoreModel`'s function does, and
those are the functions the steps of `StoreProtocol` use.

**Dissemination.** `ErasureCode`, `Merkle`, `ShardTable`, `Wire` and `Certificates` are the stages as
functions, with their round trips and binding; `RSE`, `MerkleTree`, `ShardsContainer`, `Streams`,
`Pipeline` and `Certificates.QuorumCert` are the loops and classes, proved equal to those functions.
`Dissemination.EndToEnd` joins the stages.

## Assumptions

The code leaves the first three to its callers (`include/hotstuff/consensus.h:90-104`) or to cryptography.

- A block that is delivered has parents, all delivered, and extends the block its certificate names.
  `on_deliver_blk` does not test the latter. `Theorems.ProposalsExtendJustify` proves that
  every block of a correct proposer satisfies it.
- Blocks are compared by what they contain; a store holds one block per hash. A signature in a certificate
  that verifies under a replica's key stands for a vote in the set of votes. No hash is assumed to be
  injective: what a certificate with genesis' hash proves is stated up to a collision with genesis.
- At most (n-1)/3 replicas are faulty. Faulty replicas vote without limit and may propose any block that
  can be delivered.
- leopard: any k of its k + m buffers recover the missing originals (`ErasureCode.Lawful`).
  `ParityCodec.ParityIsLawful` shows that this can be met, for m = 1.
- The leaf and node hash is any function with 64-byte results. It is never assumed to be free of
  collisions: `Merkle.ProofBinds` hands a collision out instead.
- The host is little-endian, sizes on the wire are below 2^32, and there are at least four and fewer
  than 2^16 replicas.

## Findings

Four promises do not hold of the code on all inputs. Each has an input and its exact condition. The inputs of
the first three are runs of four replicas, one of them faulty, in which every delivered block's certificate
verifies; they are given event by event.

- `prune` releases blocks that may come back. A released block that is fetched and delivered again has lost
  its decision flag; a proposal on top of three such blocks, two in the two-step build, makes `update` commit
  below the executed block and throw "safety breached", at a replica that did nothing wrong
  (`PruneWitness.ReleaseThenBreach`, in both builds and from any executed height that leaves enough blocks to
  release). `StoreTheorems.ReceiveExactly`: this happens if and only if the block `update` comes to commit is
  no higher than the executed one, and never when the proposal's certificate names a block above it
  (`StoreTheorems.HighCertificateIsSafe`).
- `prune` follows all parents, uncles too, although only the `parents[0]` chain is executed. A proposal on a
  branch whose block was stripped as an uncle makes a walk read the first parent of an emptied list
  (`PruneWitness.StrippedUncle`, exactly when the uncle is higher than `hqc`). Once that proposal is among
  `tails`, so does the callback of a new `hqc`, although the certificate that brings it is high
  (`PruneWitness.StrippedTail`). `StoreTheorems.ReceiveExactly` gives the condition for all blocks. A high
  certificate is safe if all tails above the block it certifies extend the executed one
  (`StoreTheorems.HighTailsAreSafe`); in a run without uncles the case never arises
  (`SingleParents.SingleParentsAreSafe`).
- `on_propose` starts the certificate of a block anew but keeps the votes counted for it. When two replicas
  propose the same commands on the same parent, one that counted the other's vote before proposing completes a
  certificate that lacks it: the block becomes `hqc` with a majority of votes, its certificate is rejected, and
  nothing proposed with it can be delivered (`CertificateWitness.ProposedTwice`). Signers and voters agree after
  proposing if and only if there were no votes (`CertificateFlow.ProposingResets`), a voter once missing stays
  missing (`CertificateFlow.LackingStays`), and the certificate completed verifies if and only if none is
  (`CertificateFlow.CompletedVerifies`).
- The header of `RSE` does not fit buffer 0 when slices have fewer than nine bytes, and `decode` then erases
  more than it has: a proposal without commands among four replicas (`Dissemination.EmptyOfFour`), or with
  one command among eight (`Dissemination.OneCommandOfEight`). `ErasureCode.RoundTrip` gives the exact
  condition, data + 16 > 8k, for every pattern of survivors.

## Model

| member | source | states |
|---|---|---|
| Theorems.AgreementOverRuns | src/consensus.cpp:145-232 | In every run of either build, at any two moments, the executed blocks of any two correct replicas lie on one `parents[0]` chain and one's commit log is a prefix of the other's |
| Theorems.BreachUnreachable | src/consensus.cpp:197-206 | No correct replica that does not prune throws "safety breached" in a reachable state, for any delivered block or own proposal |
| Theorems.LogIsGapless | src/consensus.cpp:207-231 | `do_consensus` is called at heights 1, 2, 3, ... once each; the decided blocks are exactly genesis and the logged ones |
| Theorems.OneCertificatePerHeight | src/consensus.cpp:313-331 | Two blocks of one height are never both certified, at any moments of a run |
| Theorems.OneAcceptedPerHeight | src/crypto.cpp:31-44 | The same for the blocks named by certificates that `Block::verify` accepts, unless one of them has genesis' hash |
| Theorems.ProposalsExtendJustify | src/consensus.cpp:234-250 | In a reachable state `hqc_tail` extends `hqc` and the block proposed on it satisfies everything delivery relies on |
| Theorems.EarlyReturnsOverRuns | src/consensus.cpp:149-180 | In a reachable state `update` does what the rule without the early returns on `decision` does |
| Theorems.ReceiveOverRuns | src/consensus.cpp:296-341 | In every reachable state, for every delivered block, receiving throws nothing, moves `hqc`, the lock and the executed block exactly as the chain of certificates says, and votes exactly as enabled when the block is above `vheight` and certifies a block above the lock or extends it; only then `vheight` becomes its height |
| Theorems.StepKeeps | src/consensus.cpp:296-368 | Every step of the system, faulty votes included, keeps the system invariant and forgets no vote |
| Theorems.RunKeeps | src/consensus.cpp:145-232 | Every state of every run satisfies the system invariant |
| Theorems.ReceiveIsSafe | src/consensus.cpp:304-310 | Receiving a proposal never breaches safety where the votes and the replica satisfy their invariants |
| Agreement.OneCertifiedPerHeight | src/consensus.cpp:313-331 | One vote per height and intersecting quorums leave one certified block per height |
| Agreement.CertifiedExtendsCommitted | src/consensus.cpp:313-331 | Once a certified direct chain commits b, every certified block at least as high as the chain's end extends b |
| Agreement.CertifiedAboveCommitted | src/consensus.cpp:145-232 | Every certified block at or above the height of a committed block extends it |
| Agreement.CommittedOnOneChain | src/consensus.cpp:196-206 | Any two committed blocks lie on one chain |
| Quorums.QuorumsShareCorrect | src/hotstuff.cpp:480-484 | Two sets of n - (n-1)/3 replicas have a correct one in common, and it is handed out |
| Quorums.CorrectAreQuorum | src/consensus.cpp:389 | The correct replicas alone are a majority as configured; when as many have failed as may, exactly one |
| Quorums.MostFaulty | src/hotstuff.cpp:480-484 | Any number of replicas below a third may fail, and no more |
| Quorums.CorrectCertify | src/consensus.cpp:355-366 | A block every correct replica voted for is certified |
| Progress.QuorumsRaiseOverRuns | src/consensus.cpp:355-366 | In every reachable state no more than a majority of votes is counted for a block, and a block with as many is no higher than `hqc` |
| Progress.CorrectVotesRaise | src/consensus.cpp:343-368 | When the votes of all correct replicas for a delivered block have come, in any order, repeated or among others, `hqc` is at least as high as the block |
| Progress.ProposalTail | include/hotstuff/liveness.h:91-99 | After a received proposal `hqc_tail` is that block if it extends `hqc` and is higher, and else unchanged |
| Progress.StepTail | include/hotstuff/liveness.h:74-99 | In every step `hqc_tail` does not get lower while `hqc` stays; when `hqc` moves, it moves up and no tail above it is higher than the new `hqc_tail` |
| Progress.TailNeverLower | include/hotstuff/liveness.h:91-99 | Over runs, at two moments with the same `hqc`, `hqc_tail` is at least as high at the later one |
| Safety.UpdateIsSafe | src/consensus.cpp:145-206 | `update` on a delivered block with certified history commits without a breach and executes only committed blocks |
| Safety.OpinionRespectsLock | src/consensus.cpp:313-331 | A block that passes the liveness or the safety condition has a certified ancestor at least as high as the lock |
| Safety.VoteStep | src/consensus.cpp:312-340 | Forming an opinion and voting keeps one vote per height, respect of locks, and the memory of the own votes |
| Safety.ReceiveProposalStepKeeps | src/consensus.cpp:296-341 | Receiving a proposal keeps the replica's invariant with respect to all votes |
| Safety.ReceiveVoteStepKeeps | src/consensus.cpp:343-368 | Receiving a cast vote keeps it, including that a new `hqc` is certified |
| Safety.CollectedCertify | src/consensus.cpp:348-366 | The vote that completes a quorum leaves the block certified |
| Safety.ProposeStepKeeps | src/consensus.cpp:234-294 | Proposing, delivering and voting for one's own block keeps it |
| Safety.ProposeIsReceive | src/consensus.cpp:254-288 | An own proposal runs the same update and vote as the block would if received after delivery |
| ReplicaProofs.EarlyReturnsLoseNothing | src/consensus.cpp:149-180 | On any state whose decided set is the executed chain, `update` equals the rule that never returns early |
| ReplicaProofs.CommitKeeps | src/consensus.cpp:196-231 | Committing an undecided block not above the lock keeps the decided set equal to the executed chain and the log equal to its path |
| ReplicaProofs.UpdateKeeps | src/consensus.cpp:145-232 | `update` keeps the replica invariants; it moves `hqc`, the lock and the executed block only to the blocks its own certificate chain names, the first two only up; it throws only when the block to commit does not extend the executed one |
| ReplicaProofs.UpdateMoves | src/consensus.cpp:145-232 | Where `update` does not throw: `hqc` and the lock become the first and second block of the certificate chain exactly if those are higher, and the last one is executed exactly if it is above the executed block and the links to it are direct parents |
| ReplicaProofs.VotesExactly | src/consensus.cpp:312-331 | The vote and `vheight` follow the liveness or the safety condition exactly; in the two-step build the lock is never below the certified block |
| ReplicaProofs.DeliverKeeps | src/consensus.cpp:84-109 | Delivery keeps the delivered set closed under parents and `tails` exact |
| ReplicaProofs.ReceiveVoteKeeps | src/consensus.cpp:343-368 | Receiving a vote keeps the replica invariants and never lowers `hqc` |
| ReplicaProofs.LockBelowBlock | src/consensus.cpp:312-331 | After `update` on a block above `vheight` the lock is still below that block |
| ReplicaProofs.CastVoteKeeps | src/consensus.cpp:304-331 | After update and opinion the lock is at or below `vheight` again, voted or not, and a vote is for a block above all earlier ones |
| ReplicaProofs.JustifyBelow | src/consensus.cpp:93-101 | A delivered block is higher than the delivered block its certificate names |
| ReplicaProofs.AncestorsDelivered | src/consensus.cpp:90-93 | Every `parents[0]` ancestor of a delivered block is delivered |
| PaceMakerModel.HqcCallbackKeeps | include/hotstuff/liveness.h:74-82 | After the callback on a new `hqc`, `hqc_tail` is delivered and extends it, whichever of the highest tails was picked |
| PaceMakerModel.ProposalCallbackKeeps | include/hotstuff/liveness.h:91-99 | The callback on a received proposal keeps that |
| PaceMakerModel.NewBlockExtendsJustify | include/hotstuff/liveness.h:110-128 | The block built on `hqc_tail` extends `hqc`, its certificate's block, is higher, and delivering it keeps all invariants |
| Blocks.WalkFindsAncestor | include/hotstuff/liveness.h:66-72 | The walk down `parents[0]` ends on a block exactly when that block is an ancestor |
| Blocks.PathMembers | src/consensus.cpp:199-202 | The blocks the commit walk collects are exactly those between the executed block and the new one |
| Blocks.PathSplits | src/consensus.cpp:199-202 | The log of a block is the log of an ancestor followed by the path between |
| StoreTheorems.AgreementWithPruning | src/consensus.cpp:397-418 | Agreement and the prefix order of logs, in every run of replicas that prune, release and redeliver at any points |
| Refinement.RunRefines | src/consensus.cpp:397-418 | Beside every such run stands one of replicas that never prune, same locks, votes, commits and tails at every moment; a proposal that throws counts as lost there |
| Refinement.EventRefines | src/consensus.cpp:84-418 | One event of a replica with a pruned store is the same step, or none, of the unpruned one |
| StoreTheorems.ReceiveExactly | src/consensus.cpp:145-206 | In every reachable state, for every delivered block: "safety breached" is thrown exactly when `update` comes to commit at or below the executed block, a read goes out of bounds exactly when a walk meets an emptied list, and otherwise outcome and new state are those of the unpruned replica |
| StoreTheorems.HighCertificateIsSafe | src/consensus.cpp:145-206 | A certificate for a block above the executed one rules out the throw and cut walks from the block |
| StoreTheorems.HighTailsAreSafe | include/hotstuff/liveness.h:74-82 | If moreover every tail above the certified block extends the executed one, receiving is what it is without pruning |
| StoreTheorems.VotesExactlyWithPruning | src/consensus.cpp:312-331 | In every reachable state of a replica that prunes: no vote where receiving fails, and else the vote and `vheight` by the same rule |
| StoreTheorems.TailNeverLowerWithPruning | include/hotstuff/liveness.h:91-99 | Pruning or not, `hqc` never gets lower, nor `hqc_tail` while `hqc` is the same |
| StoreProofs.LivenessSkipsLock | src/consensus.cpp:315-319 | Under the liveness condition no walk to the lock is made, so none can be cut |
| StoreTheorems.OwnProposalsActAlike | src/consensus.cpp:234-294 | Pruning never changes what a replica's own proposal does |
| StoreTheorems.Unpruned | src/consensus.cpp:397-418 | Every correct replica of a reachable state mirrors an unpruned one with all invariants |
| SingleParents.SingleParentsAreSafe | src/consensus.cpp:397-418 | In a run without uncles nothing is read out of bounds, and receiving acts as if nothing had been pruned exactly when `update` does not come to commit below |
| WitnessBlocks.MainVerified | src/entity.cpp:59-63 | Every block of the runs' chain passes verification once replicas 0, 1 and 3 have voted for the one it certifies, by the certificate their parts make |
| WitnessRun.RoundsReach | src/consensus.cpp:296-341 | A run of any length m from the initial state, in either build: at replicas 0 and 1 `hqc` is block m - 1, the lock is one (two-step) or two below the newest and execution two or three below |
| LockWitness.LeavesLockedBranch | src/consensus.cpp:315-319 | A run in which a replica locked on one branch, with votes there up to height 3, votes at height 4 on another branch that does not extend its lock, because the certificate is higher; the lock stays |
| PruneWitness.ReleaseThenBreach | src/consensus.cpp:408-412 | In both builds and for every executed height from 5 (two-step: 4) on, that run goes on: prune(0) releases the chain below, its first 4 (3) blocks are fetched and delivered again, and receiving the last of them throws "safety breached"; before pruning it did nothing |
| PruneWitness.StrippedUncle | src/consensus.cpp:414-416 | In both builds, for every executed height and every uncle height u: the run goes on with prune(0) and the delivery of a proposal on the uncle's branch, and receiving it reads out of bounds exactly when u exceeds the height of `hqc`; without prune(0) it is received |
| PruneWitness.StrippedTail | include/hotstuff/liveness.h:74-82 | With that proposal delivered but not received, receiving the chain's next block, whose certificate is above the executed block, reads out of bounds exactly when u exceeds the height of the new `hqc` |
| CertificateWitness.ProposedTwice | src/consensus.cpp:244-252 | A run after which the block with votes of 0, 1 and 3, all counted, is `hqc`, its certificate has the signatures of 0 and 3 only and is rejected, and no block proposed with it verifies under any votes |
| Mirror.UpdateExactly | src/consensus.cpp:145-232 | `update` on a pruned store throws when it comes to commit below, where the unpruned one does nothing; else both do the same, up to the callback on `hqc` |
| Mirror.LowCertificate | src/consensus.cpp:149-180 | `update` does nothing when the certificate names nothing above the executed block |
| Mirror.CastVoteExactly | src/consensus.cpp:312-331 | Opinion, callback and vote are alike unless a walk meets an emptied list |
| MirrorSteps.DeliverMirrors | src/consensus.cpp:84-109 | Delivery is alike, for a first time and for a released block's second |
| MirrorSteps.ReceiveVoteExactly | src/consensus.cpp:343-368 | Counting a vote is alike; votes lost with a released block cannot move `hqc` |
| MirrorSteps.ProposeExactly | src/consensus.cpp:234-294 | Proposing has the same error, vote and new state |
| MirrorSteps.PruneMirrors | src/consensus.cpp:397-418 | Stripping and releasing keep all that the replica shares with the unpruned one |
| Pruning.ReachesNothingAbove | src/consensus.cpp:397-418 | From an ancestor of the executed block, uncles included, prune reaches nothing that extends the executed block |
| Pruning.PruneKeeps | src/consensus.cpp:397-418 | After pruning and releasing every entry refers only to blocks in the store, and what the core holds is there |
| PruneLoop.FinishedIsStripped | src/consensus.cpp:402-417 | When the stack is empty exactly the reachable blocks are stripped |
| PruneLoop.ReachableHaveNoParents | src/consensus.cpp:405-417 | Then every block on a path of parents from the start has no parents |
| PruneLoop.PushStep | src/consensus.cpp:414-416 | A turn that pushes keeps the loop's invariant and removes one parent edge |
| PruneLoop.ThoroughPop | src/consensus.cpp:407-412 | Without uncles, a turn that pops leaves every reachable block on the stack, released, held, or referred to |
| BlockStore.CutByEmptied | src/consensus.cpp:323-326 | A walk is cut short exactly by a delivered ancestor above its end that has lost its parents |
| CertificateTheorems.CertificatesOverRuns | src/consensus.cpp:355-366 | In every reachable state the signers of a certificate under construction are counted voters, with verifying signatures of cast votes; without proposals of blocks that have votes they are exactly those, and the certificate of `hqc` names it and verifies |
| CertificateTheorems.ProposalsVerify | src/consensus.cpp:244-249 | Then every block a correct replica proposes verifies at all replicas and extends the block its certificate names |
| CertificateFlow.CompletedVerifies | src/consensus.cpp:355-366 | The certificate a vote completes verifies if and only if its signers were all the counted voters |
| CertificateFlow.ProposingResets | src/consensus.cpp:244-252 | After `on_propose` signers and voters of the block agree if and only if it had no votes |
| CertificateFlow.VoteThenPropose | src/consensus.cpp:244-252 | At any replica, counting a vote for the block that is then proposed leaves a counted voter missing among the signers |
| CertificateFlow.LackingStays | src/consensus.cpp:355-366 | It stays missing while votes are counted, and the certificate that a quorum then completes does not verify |
| CertificateFlow.CountCerts | src/consensus.cpp:355-366 | Counting a verified vote keeps the certificates right, the one of a new `hqc` included |
| CoreObject.HotStuffCore.constructor | src/consensus.cpp:53-70 | After construction and `on_init` the object has the initial state and is valid |
| CoreObject.HotStuffCore.OnDeliverBlk | src/consensus.cpp:84-109 | New state, result and both errors, parent not delivered and certificate block not fetched, are the function's; the object stays valid |
| CoreObject.HotStuffCore.LookUpParents | src/consensus.cpp:90-92 | Refills the parents up to the first that is not delivered |
| CoreObject.HotStuffCore.EraseTails | src/consensus.cpp:103-104 | The loop takes the parents out of `tails` and puts the block in |
| CoreObject.HotStuffCore.WalkDown | include/hotstuff/liveness.h:66-72 | The walk ends where the function does, or reports the emptied list it met |
| CoreObject.HotStuffCore.OnHqcUpdate | include/hotstuff/liveness.h:74-82 | The loop over tails picks a highest tail whose walk ends on `hqc`, or `hqc`; it fails exactly when a tail's walk is cut |
| CoreObject.HotStuffCore.OnProposalSeen | include/hotstuff/liveness.h:91-99 | The callback leaves the function's choice of `hqc_tail` and touches nothing else |
| CoreObject.HotStuffCore.UpdateHqc | src/consensus.cpp:111-117 | `hqc` and its certificate move together, and the tail as its callback allows |
| CoreObject.HotStuffCore.Collect | src/consensus.cpp:197-202 | The first commit loop collects the path in reverse and stops where the walk does |
| CoreObject.HotStuffCore.DecideAll | src/consensus.cpp:207-212 | The second commit loop decides exactly the queue and logs it from the back |
| CoreObject.HotStuffCore.CommitTo | src/consensus.cpp:196-231 | The commit part leaves the function's state, the throw included |
| CoreObject.HotStuffCore.UpdateFrom | src/consensus.cpp:156-195 | Both builds behind `update_hqc` leave the function's state |
| CoreObject.HotStuffCore.Update | src/consensus.cpp:145-195 | `update` leaves the function's state and error, on any store |
| CoreObject.HotStuffCore.FormOpinion | src/consensus.cpp:312-331 | Opinion and `vheight` are the function's, by the liveness or the safety condition |
| CoreObject.HotStuffCore.OnReceiveProposal | src/consensus.cpp:296-341 | New state, vote, error and `hqc_tail` are those of the step; the object stays valid |
| CoreObject.HotStuffCore.OnReceiveVote | src/consensus.cpp:343-368 | New state, certificates included, error and `hqc_tail` are those of the step, for full quorums and repeated votes too |
| CoreObject.HotStuffCore.OnPropose | src/consensus.cpp:234-294 | The new block with `hqc`'s certificate, state, vote, error and `hqc_tail` are those of the step |
| CoreObject.HotStuffCore.SkipBlocks | src/consensus.cpp:399-401 | The start is the ancestor `staleness` steps below, none exactly when a block on the way has no parents |
| CoreObject.HotStuffCore.Prune | src/consensus.cpp:397-418 | Exactly the reachable blocks are stripped, and only some that nothing refers to or holds are released; without uncles, all of those |
| CoreObject.HotStuffCore.DrainStack | src/consensus.cpp:402-417 | The stack loop ends on any graph of parents, by the parent edges left and then the stack size |
| CoreObject.HotStuffCore.TryRelease | include/hotstuff/entity.h:295-310 | A block taken off the stack leaves the store exactly when nothing else holds it |
| ErasureCode.RoundTrip | rse-merkle/RSE.cpp:137-259 | From any k of the n buffers `decode` returns the encoded data exactly if data + 16 > 8k, along all three paths; otherwise it leaves its buffers |
| ErasureCode.HeaderInFirstBuffer | rse-merkle/RSE.cpp:154-157 | From nine bytes a slice on, buffer 0 shows the whole header, across the zero padding where needed |
| ErasureCode.NoHeaderInFirstBuffer | rse-merkle/RSE.cpp:154-157 | Below nine bytes the slice size reads as zero |
| ErasureCode.UnframeOriginals | rse-merkle/RSE.cpp:160-169 | Joining the originals' slices and dropping header and padding gives the data exactly under that condition |
| ErasureCode.NoPrefixOverrun | rse-merkle/RSE.cpp:160-164 | On surviving buffers the loop over the present prefix reads inside them |
| ErasureCode.LastPresent | rse-merkle/RSE.cpp:138-143 | Of buffers of different sizes the last one present gives the size |
| RSE.Frame | rse-merkle/RSE.cpp:71-76 | The filled array is the framed input |
| RSE.Encode | rse-merkle/RSE.cpp:59-135 | The loops produce the padded originals and the codec's recovery buffers |
| RSE.DecodeBuffers | rse-merkle/RSE.cpp:137-259 | The loops and exits compute the decoding `RoundTrip` is about, for any input; a vector that is too short is read past its end |
| RSE.BufferSize | rse-merkle/RSE.cpp:138-143 | The scan yields the size of the last buffer present |
| RSE.AppendSlices | rse-merkle/RSE.cpp:160-164 | Appends the slices of a range, failing exactly when one buffer of it is too short |
| ParityCodec.ParityIsLawful | rse-merkle/RSE.cpp:26-29 | A parity code keeps leopard's promise for one recovery buffer |
| Merkle.ProofsValidate | rse-merkle/MerkleTree.cpp:94-107 | Every proof of a tree over a non-empty list validates |
| Merkle.AllInBounds | rse-merkle/MerkleTree.cpp:51-66 | Every sibling lookup stays inside its level, thanks to the stored padding |
| Merkle.Depth | rse-merkle/MerkleTree.cpp:12-35 | The branch length L of a tree over n shards satisfies n <= 2^L < 2n |
| Merkle.ProofBinds | rse-merkle/MerkleTree.cpp:94-107 | For every index: a proof of the tree's depth that validates against its root carries the shard at the place the index's low bits name, or two inputs with one hash are handed out, or, for a place behind the last shard, an input that hashes to the padding |
| Merkle.ClimbReachesRoot | rse-merkle/MerkleTree.cpp:94-107 | Climbing a tree's own branch from any node of any level ends at the root |
| Merkle.RootIsNode | rse-merkle/MerkleTree.cpp:12-35 | The root is the hash tree defined by place and depth: the leaf, the hash of left and right below, and 64 characters '0' wherever a subtree begins behind the last leaf |
| MerkleTree.MerkleTree.constructor | rse-merkle/MerkleTree.cpp:12-35 | For a non-empty list the loops end, with the padded levels and the root |
| MerkleTree.MerkleTree.BuildUp | rse-merkle/MerkleTree.cpp:20-33 | The nested loops end, each level being half of the padded one below, with one hash on top |
| MerkleTree.MerkleTree.ProofAt | rse-merkle/MerkleTree.cpp:51-66 | The loop returns the proof that `ProofsValidate` is about, every index in bounds |
| MerkleTree.MerkleTree.Proofs | rse-merkle/MerkleTree.cpp:68-74 | One proof per shard, in order |
| MerkleTree.Validate | rse-merkle/MerkleTree.cpp:94-107 | The loop decides validity for any index, negative ones rounded toward zero as in C++ |
| ShardTable.RunRefines | rse-merkle/ShardsContainer.cpp:12-48 | Over any inserts of non-empty shards and removals the container stands for the map of first-written shards, counters exact |
| ShardTable.GetBlockCounts | rse-merkle/ShardsContainer.cpp:32-41 | `get_block` succeeds exactly when enough different indices are held, and returns them in their places |
| ShardTable.ApplyRefines | rse-merkle/ShardsContainer.cpp:20-48 | One operation keeps the counters exact if and only if the shard is not empty or its slot is taken, and acts on the map as insert-if-absent or removal |
| ShardsContainer.ShardsContainer.InsertShard | rse-merkle/ShardsContainer.cpp:20-30 | New table and return code, -1 for a taken slot; None exactly for an index outside the slots |
| ShardsContainer.ShardsContainer.GetBlock | rse-merkle/ShardsContainer.cpp:32-41 | -1 without an entry, -2 below the threshold, else the slots |
| ShardsContainer.ShardsContainer.Remove | rse-merkle/ShardsContainer.cpp:43-48 | The entry is gone, -1 if there was none |
| ShardsContainer.ShardsContainer.Enough | rse-merkle/ShardsContainer.cpp:50-58 | True exactly when `get_block` would succeed |
| Wire.SliceBack | include/hotstuff/consensus.h:199-262 | A slice parses back field for field and leaves whatever follows it |
| Wire.BlockBack | src/entity.cpp:22-57 | So does a block, for any certificate format that does |
| Wire.ProposalBack | include/hotstuff/consensus.h:296-309 | So does a proposal |
| Wire.ProposalBytesInjective | include/hotstuff/consensus.h:296-301 | Different proposals print differently |
| Wire.SliceExactly | include/hotstuff/consensus.h:223-262 | Bytes parse to a slice if and only if they are what it prints within the format's limits, followed by the rest |
| Wire.BlockExactly | src/entity.cpp:32-57 | The same for a block, for any certificate format that accepts only what it prints |
| Wire.ProposalExactly | include/hotstuff/consensus.h:303-309 | The same for a proposal |
| Wire.SliceLayout | include/hotstuff/consensus.h:199-221 | At which offsets a slice's fields and length fields lie |
| Wire.BlockLayout | src/entity.cpp:22-30 | The same for a block |
| Wire.ProposalLayout | include/hotstuff/consensus.h:296-301 | The same for a proposal |
| Streams.SliceObject.Serialize | include/hotstuff/consensus.h:199-221 | Appends the slice's bytes, or stops exactly when a branch entry is not 64 characters |
| Streams.SliceObject.Unserialize | include/hotstuff/consensus.h:223-262 | Succeeds exactly when the stream parses, with the parsed fields and the rest left in the stream |
| Streams.BlockObject.Serialize | src/entity.cpp:22-30 | Appends the block's bytes |
| Streams.BlockObject.Unserialize | src/entity.cpp:32-57 | Succeeds exactly when the stream parses, with the parsed fields and the rest left in the stream |
| Signatures.AcceptedMeansMajority | src/crypto.cpp:31-44 | A certificate is accepted if and only if its set bits are at least a majority of known replicas, each with a signature that verifies |
| Certificates.VerifiedIsCertified | src/entity.cpp:59-63 | Verification on delivery establishes that the named block is genesis or has a majority of votes, or it is a collision with genesis |
| Certificates.BlockVerifies | src/entity.cpp:59-63 | A block passes if and only if its certificate has genesis' hash or verifying signatures of a majority of known replicas |
| Certificates.CertBack | include/hotstuff/crypto.h:415-425 | A certificate parses back with every signature, so it is a format `BlockBack` accepts |
| Certificates.ParsedInStep | include/hotstuff/crypto.h:421-425 | Whatever the bytes, what parses has exactly one signature per set bit |
| Certificates.CertExact | include/hotstuff/crypto.h:415-425 | Only what a certificate prints parses to it, if that holds of the bit vector, so it is a format `BlockExactly` accepts |
| Certificates.CertLayout | include/hotstuff/crypto.h:415-419 | The hash, the bit vector, then the signatures of the signers in ascending order, 64 bytes each |
| Signatures.AddPartSigners | include/hotstuff/crypto.h:396-402 | Adding a part adds its replica to the signers and keeps bits and signatures in step |
| Signatures.AddPartOnce | include/hotstuff/crypto.h:396-402 | A replica's first signature stays, no other is touched, and adding again changes nothing |
| Certificates.QuorumCert.AddPart | include/hotstuff/crypto.h:396-402 | Throws exactly for another hash; else adds the part as the handlers do |
| Certificates.QuorumCert.Serialize | include/hotstuff/crypto.h:415-419 | Appends hash, bits and the set bits' signatures in order |
| Certificates.QuorumCert.Unserialize | include/hotstuff/crypto.h:421-425 | Succeeds exactly when the stream parses; signatures read replace or join those there |
| Certificates.QuorumCert.VerifySigs | src/crypto.cpp:31-44 | The early-exit loop gives the verdict `AcceptedMeansMajority` is about |
| Dissemination.EndToEnd | src/consensus.cpp:119-142 | Of a proposal's slices in any order, repeated, missing, among messages that do not parse, slices of other blocks and slices that fail: `get_block` succeeds exactly from n - (n-1)/3 different ones on, and `async_decode` then returns the proposed commands in order, if 32 times their number + 16 > 8k, and breaks otherwise |
| Dissemination.CorrectReachThreshold | rse-merkle/RSE.cpp:26-29 | The number of slices needed is the configured majority, no more than there are correct replicas |
| Dissemination.CorrectSlicesDecode | src/consensus.cpp:119-142 | If every correct replica's slice arrives in such traffic, `get_block` succeeds and the proposed commands come out, under the size condition |
| Dissemination.CommandsExactly | src/consensus.cpp:119-142 | Decoding yields commands exactly when the decoded bytes are a whole number of 32-byte ones, these in order |
| Dissemination.CollectHolds | src/consensus.cpp:370-385 | After any such traffic the container holds exactly the block's slices that arrived, each in its slot, and counts them |
| Dissemination.FirstTakesSlot | src/consensus.cpp:370-385 | Over any traffic inside the slots, slices under foreign roots included, each slot holds the first non-empty shard offered for it by a slice that validates |
| Dissemination.FirstSlicesDecide | src/consensus.cpp:119-142 | Over the same traffic what `get_block` returns are those first shards; decoding them gives the proposed commands under the size condition and breaks otherwise, unless a foreign shard came first or, through empty shards, fewer slots are filled than were counted |
| Dissemination.OutsideExactly | src/consensus.cpp:378 | The slots are left exactly by a slice that validates and has an index outside them |
| Dissemination.EmptyOfFour | src/consensus.cpp:119-142 | A proposal without commands among four replicas meets all conditions, and decoding its four shards breaks |
| Dissemination.OneCommandOfEight | src/consensus.cpp:119-142 | With one command among eight replicas decoding breaks whatever slices were collected |
| Dissemination.HonestProposalPasses | src/consensus.cpp:299-300 | Both assertions on a proposal hold for one an honest proposer sent |
| Dissemination.ProposedSlicesOk | src/consensus.cpp:256-280 | Every slice of a proposal meets the wire format's limits, 64-character branch entries included |
| Pipeline.MakeSlices | src/consensus.cpp:256-280 | The loops produce slice i from shard i, its proof and the block hash |
| Pipeline.OnReceiveSlice | src/consensus.cpp:370-385 | The container changes as `CollectHolds` says of one slice: only if it validates and its slot is free; not inside exactly for an index outside the slots |
| Pipeline.DecodeCommands | src/consensus.cpp:119-142 | Decodes and cuts into 32-byte commands as `EndToEnd` says |

## Left out

- Networking, TLS, peers, timers, threads, the verification pool, fetching and the promise library: a handler body is one atomic step and callbacks are direct calls in the order the code triggers them.
- Liveness over time: `PMRoundRobinProposer` and `PMWaitQC` depend on clocks and re-entrant promises.
- Which of several equally high tails becomes `hqc_tail`: the source follows pointer order, the model allows any.
- Heights are unbounded; the wrap-around of 32-bit heights is not modelled.
- CoreObject.HotStuffCore.OnPropose: covers delivery, update, the height check and the self-received proposal on PMHighTail's single parent, because encoding between them does not touch that state; a throw on an encoder failure after `update` is left out, and so are other parent lists.
- CoreObject.HotStuffCore.OnReceiveProposal: does not model the two assertions on the slice and its forwarding, because they do not touch the replica's state; `Dissemination.HonestProposalPasses` is about them.
- CoreObject.HotStuffCore.OnReceiveVote: requires the voter's bit to exist in the certificate, as set by the number of configured replicas.
- CoreObject.HotStuffCore.Update: does not start the decoding of slices, and CoreObject.HotStuffCore.CommitTo does not collect its results, because neither touches the replica's state; see the line on per-command finality.
- CoreObject.HotStuffCore.Prune: whether promises or pending messages hold a block is a parameter, because they are not modelled. That all is released that could be is proved for blocks without uncles.
- Refinement.RunRefines: a run ends where a handler reads out of bounds, because the source's behaviour is undefined from there on.
- Per-command finality: `update` only warns when slices are too few or no future exists, so no claim is made that commands of a committed block are decided. The futures are left out.
- Slices under a root of an attacker's own making: `validate` checks a slice against the root in the same slice, so `EndToEnd` speaks of slices from the block's proposer; `Dissemination.FirstSlicesDecide` says what holds beside such slices.
- RSE.Encode: requires the slice size to fit 32 bits, because the source casts it and would overrun its buffer.
- RSE.DecodeBuffers: reads, copies and erasures that leave a buffer, undefined in C++, end in one outcome `OutOfBounds`.
- ParityCodec.ParityIsLawful: covers one recovery buffer; leopard's own codes are not part of this model, and with fewer than four replicas there is no recovery buffer and the source's encoder fails.
- MerkleTree.MerkleTree.constructor: requires a shard, because on an empty list the source's loop reads beyond its levels.
- Certificates.QuorumCert.AddPart: requires the replica's bit to exist, as set by the number of configured replicas.
- secp256k1, SHA-256, the bit-vector format and the hash over the command list are parameters.
- Commands, votes as messages, configuration, statistics, the example application and the scripts.
