# Verified model of the consensus engine, the state machine and the gossip caches

This project models, in Dafny, the four parts of the repository in which a mistake would be silent:

* the **consensus engine**: blocks arrive in any order, votes add stake along the paths of a forest of
  unfinalized blocks, GHOST picks a head, and roots are finalized once two consecutive epoch checkpoints
  are confirmed (`src/consensus/chain.rs`, `forktree.rs`, `orphans.rs`);
* **state layering and execution**: diffs that are merged, read through overlays and persisted, and the
  execution of transactions with nested contract calls (`src/vm/state.rs`, `unit.rs`, `machine.rs`);
* the **Currency contract** (`src/vm/builtin/currency.rs`);
* the **message caches and delivery** of the gossip layer (`src/network/episub/cache.rs`, `tree.rs`).

## How the model is built

* A block's hash is the symbolic image of the block, so hashes are collision free by construction.
  Signature checks, the virtual machine as the chain sees it, deployed contracts and serialised sizes are
  arbitrary functions held by `Consensus.Config` and `Unit.Machine`. Clocks are parameters. The order in
  which a hash map is walked is left open: the code takes any element of a set.
* Code that changes state in place is imperative here: `Engine.ChainEngine`, `Forests.Forest`,
  `Orphans.Pool`, `MessageCache.ExpiringCache` and `Gossip.PlumTree` are classes, and the loops of
  `StateDiff::merge`, of the block execution and of a unit's outputs are methods with invariants. Each
  method is proved against a function or a relation on values, and the promises are proved about those.
* The consensus specification is a state machine, `Consensus.Run`, over two actions: offer a block and
  poll an event. `Engine.ChainEngine` carries the trace of its actions, and its validity says that its
  fields are exactly the state `Consensus.Run` reaches on that trace, so every theorem about runs holds of
  the class. The recursive adoption of orphans is `Adoption.Drains`, which `Engine.ChainEngine.Include`
  refines and which is itself a run of offers (`Adoption.DrainIsOffers`).
* `popped` and `counted` in `Consensus.Chain`, `writes` in `Unit.TransactionOutput`, `trace`, `log` and
  `acts` are history variables: no transition reads them. Pending events are kept in delivery order, so
  `BlockConfirmed`, which the code pushes to the back of its deque, goes to the front of the sequence.
* The forest is an arena, a map from hashes to nodes with ordered children; a parent is the logical one.

| file | module | what it holds |
|---|---|---|
| Primitives.dfy | Primitives | keys, options, results |
| State.dfy | State | accounts, diffs, overlays, the store |
| Blocks.dfy, Stakes.dfy | Blocks, Stakes | ancestry, stake of validator sets, quorum overlap |
| ForkTree.dfy | ForkTree | the forest as a value: paths, head, epoch start, votes, views |
| Consensus.dfy | Consensus | the state machine of the chain |
| Invariants.dfy | Invariants | the invariant of every run |
| Polling.dfy | Polling | the delivery of one event, step by step |
| Finality.dfy, ForkChoice.dfy, Validity.dfy, Voting.dfy, Ordering.dfy | Finality, ForkChoice, Validity, Voting, Ordering | the promises of the engine: finality, head and finalization rule, accepted blocks, counted and cast votes, orders |
| Orphans.dfy, Adoption.dfy, Delivery.dfy | Orphans, Adoption, Delivery | orphan trees, their adoption, delivery in any order |
| Forests.dfy, Engine.dfy | Forests, Engine | the forest and the chain as objects |
| Unit.dfy, Outputs.dfy, BlockMachine.dfy, Nonces.dfy | Unit, Outputs, BlockMachine, Nonces | transactions, their outputs at any depth, blocks, fork paths; nonces over runs of the engine |
| Currency.dfy | Currency | the contract |
| Conservation.dfy, Instructions.dfy, Ledger.dfy | Conservation, Instructions, Ledger | what an instruction leaves in the accounts, and what it and a call do to coins and supplies |
| CallTree.dfy, Balance.dfy, Circulation.dfy, Settlement.dfy | CallTree, Balance, Circulation, Settlement | nested calls; coins over the calls of a transaction, over blocks, and over runs of the engine |
| Authority.dfy, NestedCalls.dfy | Authority, NestedCalls | whose signature a transaction takes; what goes wrong in nested calls |
| MessageCache.dfy, Gossip.dfy | MessageCache, Gossip | caches and at-most-once delivery |

## What the proofs found

* **Coins.** A transfer from a wallet to itself adds the amount to its balance
  (`Ledger.SelfTransferMakesCoins`), and a mint at the maximal supply makes coins that the supply does not
  count (`Ledger.FullSupplyMakesCoins`). Where the Currency calls of a transaction, at any nesting depth,
  put different accounts and no other contract puts any of these, coins are conserved if and only if no
  call does either (`Balance.SeparateCallsConserve`). All calls of a transaction read the state before it,
  so where they overlap two can spend the same coins (`NestedCalls.TwoCallsMakeCoins`), and the calling
  contract can put an empty account over a credit (`NestedCalls.OverruledCreditLosesCoins`); then coins are
  conserved if and only if the changes of the calls with the last word balance
  (`Balance.ConservesIfBalanced`).
* **Signatures.** A nested call's signer flags are set by the calling contract and compared with nothing,
  so a deployed contract can spend the coins of a wallet that signed nothing
  (`NestedCalls.FlagIsNoSignature`). Coins and supplies follow the signatures of a transaction exactly when
  each Currency call that has the last word on an account was given the flag of one of its signers or of
  its payer (`Authority.TransactionSignedFor`).
* **Nonces.** A contract may delete a wallet's account that it owns. Readers keep the nonce, the store drops
  it, and the wallet's transactions succeed once more (`Nonces.ForgottenNonceReplays`). In every run nonces
  count the transactions of the chain, and never fall, if and only if nothing is finalized that deletes an
  address with a nonce (`Nonces.RunNonces`); then nothing is replayed (`Nonces.NoReplayInRuns`).
* **Deletes.** Readers ignore deletes and the store does not. The two disagree exactly at the addresses
  whose last change is a delete of something a reader still sees (`State.ViewVersusApplied`,
  `Finality.SurvivingView`), but in no run of the engine on a coin balance or a supply
  (`Settlement.RunReadersAgree`).
* **Finalization rule.** The quorum tests of the second checkpoint and of the root follow from the test of
  the first checkpoint (`ForkChoice.FinalizationRule`). The comments at `src/consensus/chain.rs:699-711`
  speak of a root and a descendant one epoch later; the code asks for two checkpoints in the two epochs
  before the head's.
* **Head.** Siblings are always equally deep, so the longest-chain tie-break at
  `src/consensus/forktree.rs:131-136` never fires (`ForkTree.SiblingsEquallyDeep`): the first child with
  the most votes wins.
* **Orphans.** An orphan whose missing parent another tree already waits for is dropped, and it is lost even
  if the parent comes later (`Delivery.LosingDelivery`). A line of valid blocks arrives in every order of
  delivery if and only if none of its blocks can lose its place to such a competitor: a block cannot that
  is in the chain or the pool already or whose parent is (`Delivery.DeliveryOrderIndependent`).
* **Caches.** A record with fewer hops replaces the one in the map but not the one in the queue, so a range
  query returns first records while a lookup returns best ones (`MessageCache.CacheIsFaithful`).

## Model

| member | source | states |
|---|---|---|
| State.MergeDiffs | src/vm/state.rs:167-184 | the two loops compute the merge in which newer puts win and revoke older deletes, and newer deletes are added |
| State.MergeAssociative | src/vm/state.rs:167-184 | grouping of merges does not matter, puts and deletes overlapping as they like |
| State.MergeComposes | src/storage/state.rs:56-67 | persisting a merged diff leaves the same store as persisting its parts in order |
| State.ApplyAllIsOneMerge | src/storage/state.rs:56-67 | persisting any run of diffs is persisting their one merge |
| State.ViewVersusApplied | src/vm/state.rs:84-92 | a read through a path of diffs and the store after applying it agree outside the merged deletes; at a merged delete the store has nothing and the reader still sees base or data |
| State.FinalizingUnderView | src/vm/state.rs:123-130 | moving the lowest diff of an overlay into the store changes a read if and only if that diff deletes a visible address that no younger diff covers |
| Stakes.QuorumsOverlap | src/consensus/chain.rs:270-272 | two validator sets that both reach the quorum share more than a third of the total stake |
| ForkTree.PathIsAncestry | src/consensus/forktree.rs:195-197 | the upward walk from a node meets exactly the node and its ancestors in the forest |
| ForkTree.DescendantMeansDescends | src/consensus/forktree.rs:199-206 | the descendant test answers true exactly for strict ancestors that are in the forest |
| ForkTree.Heaviest | src/consensus/forktree.rs:123-143 | the chosen child is the first of those with the most votes |
| ForkTree.SiblingsEquallyDeep | src/consensus/forktree.rs:131-136 | siblings have equally long paths, so the depth comparison never prefers one |
| ForkTree.LinkedAddVotes | src/consensus/forktree.rs:168-185 | votes keep the forest well linked |
| ForkTree.LinkedAddLeaf | src/consensus/forktree.rs:151-163 | a block that fits keeps the forest well linked: every node grows out of the finalized block at consecutive heights, children and roots are exactly the blocks with that parent |
| ForkTree.LinkedPromote | src/consensus/chain.rs:653-697 | after promotion, the children of the finalized root are the roots of a well linked forest above it |
| ForkTree.PreorderCounts | src/consensus/chain.rs:668-680 | the discarding walk lists every node of a tree exactly once and nothing else |
| ForkTree.DiscardsCount | src/consensus/chain.rs:660-690 | finalizing root i reports, once each, exactly the nodes outside its tree |
| ForkTree.ViewIsOverAll | src/consensus/forktree.rs:291-299 | the cascading read is the read through the diffs of the path, oldest first |
| Consensus.FindFinalizable | src/consensus/chain.rs:604-645 | the first root that satisfies the rule, none before it does |
| Consensus.PromoteShrinks | src/consensus/chain.rs:755-755 | every finalized root strictly shrinks the forest, so the loop that finalizes roots ends |
| Invariants.InsertInv | src/consensus/chain.rs:405-464 | including a block keeps the invariant of runs: links, tallies, places of blocks, finality and ballots |
| Invariants.VoteBallots | src/consensus/chain.rs:558-600 | casting a vote keeps every ballot consistent with the one that binds its epoch |
| Invariants.BatchCounts | src/consensus/chain.rs:349-371 | a counted vote confirms, once each, exactly the blocks on the target's path that it lifts over the quorum |
| Invariants.CountInv | src/consensus/chain.rs:317-387 | counting a vote keeps the invariant |
| Invariants.IngestInv | src/consensus/chain.rs:317-387 | a vote that is ignored, parked or counted keeps the invariant |
| Invariants.FinalizeInv | src/consensus/chain.rs:653-742 | finalizing a root that reached the quorum keeps the invariant |
| Invariants.PollInv | src/consensus/chain.rs:804-821 | delivering an event, with everything it triggers, keeps the invariant |
| Invariants.RunInv | src/consensus/chain.rs:178-821 | the invariant holds in every reachable state |
| Finality.LinearFinality | src/consensus/chain.rs:653-742 | in every run the finalized events spell the lineage of the finalized block, heights one apart from genesis; every root sits one above the finalized block on it; each finalized block was confirmed exactly once, and before |
| Finality.FinalityAdvances | src/consensus/chain.rs:653-658 | whatever happens next, the finalized block extends the earlier one |
| Finality.BlockConservation | src/consensus/chain.rs:405-464 | a block is included at most once, and then it is in exactly one of forest, finalized chain and discarded set |
| Finality.NeverReturns | src/consensus/chain.rs:494-503 | a finalized or discarded block is in no later forest |
| Finality.ExactTally | src/consensus/forktree.rs:168-185 | a node's voters are exactly the validators with a counted vote on it or above it, its votes their stake, at most the total; counted votes are signed by staking validators |
| Finality.TallyOrderIndependent | src/consensus/forktree.rs:168-185 | two runs that counted the same set of votes agree on every tally |
| Finality.TallyFalls | src/consensus/forktree.rs:168-185 | voters and votes only shrink going down a path |
| Finality.AccountableSafety | src/consensus/chain.rs:604-742 | if two nodes with one genesis finalize different blocks at one height, then validators with more than a third of the stake each signed two counted votes on branches that exclude each other |
| Finality.PersistedState | src/vm/state.rs:123-130 | the store of every run is genesis under the one merge of the finalized blocks' diffs |
| Finality.SurvivingView | src/consensus/chain.rs:653-697 | finalizing a root changes a surviving block's view exactly at visible addresses the root deleted and no younger block wrote |
| Finality.ReadsMatchFinality | src/consensus/forktree.rs:291-299 | a read at a block is what finalizing its path would persist, outside the merged deletes |
| Validity.OnlyValidBlocks | src/consensus/chain.rs:470-507 | in every run every block in the forest and every finalized block was signed by a validator with enough stake |
| Validity.OfferOutcome | src/consensus/chain.rs:405-507 | an offer is consumed exactly if a staking validator signed the block, it is above the finalized height, and it is in the forest already or the virtual machine accepts it one above its parent there; orphaned exactly if otherwise entitled but without parent; a new block enters with its diff, no votes and no children |
| Voting.VoteIngested | src/consensus/chain.rs:317-387 | a vote is counted exactly if a staking validator signed it, its target is in the forest, and its justification is finalized within the window or a strict ancestor there; parked exactly if genuine with its target absent; otherwise nothing changes; confirmations go before all pending events |
| Voting.PollVotes | src/consensus/chain.rs:747-753 | delivering an event counts exactly the acceptable votes among those of an included block and those parked for it; afterwards parked are exactly the unreleased ones and those brought in without target |
| Voting.RunCounts | src/consensus/chain.rs:317-394 | in every run the counted votes are exactly those that some poll brought in while they were acceptable |
| Voting.VoteCast | src/consensus/chain.rs:558-600 | the node votes for a block of the forest exactly if no earlier vote binds its epoch, or the binding one has a justification still known and a target below the block; the vote refers to the finalized block and binds from then on |
| Voting.RunCasts | src/consensus/chain.rs:500-520 | in every run an offer reports the inclusion of a new block and then the own vote for it exactly if the block is the head afterwards and may be voted for, and nothing else |
| Voting.RunWindow | src/consensus/chain.rs:765-784 | in every run a hash is a known justification under an epoch exactly if its finalization was delivered while the finalized block was in that epoch, and no later delivery found the epoch older than the window |
| Voting.RunWindowFilled | src/consensus/chain.rs:765-784 | no epoch of the window is without a block, so the epochs counted against its size are those of deliveries |
| Ordering.SiblingsInOrder | src/consensus/forktree.rs:151-163 | in every run the roots and the children of every block are all the blocks ever included on that parent, first included first, which is what decides a tie of votes |
| Ordering.ConfirmedInOrder | src/consensus/chain.rs:347-371 | the confirmations of one vote report the new tallies, every block after its ancestors |
| Ordering.DiscardsInOrder | src/consensus/chain.rs:660-690 | the discarded blocks are reported with no block before one of its ancestors |
| ForkChoice.HeadIsLeaf | src/consensus/forktree.rs:118-148 | the head is a leaf of the tree it is asked of |
| ForkChoice.HeadIsGreedy | src/consensus/forktree.rs:118-148 | at every block above the head, the path to the head goes through the first most voted child |
| ForkChoice.HeadOverTrees | src/consensus/chain.rs:217-243 | the head of the chain is the head of a tree that no other head exceeds in votes or, at equal votes, in height, and that strictly exceeds those of all later trees; without trees it is the finalized block |
| ForkChoice.GhostFollowsConfirmation | src/consensus/forktree.rs:118-148 | the head extends every confirmed block of its tree, unless validators with more than a third of the stake voted in two sibling subtrees |
| ForkChoice.EpochStartFacts | src/consensus/forktree.rs:217-232 | the epoch start is an ancestor in the same epoch; if it has a parent node it sits on the epoch boundary and the parent in the epoch before |
| ForkChoice.CheckpointFacts | src/consensus/chain.rs:612-640 | a checkpoint is a strict ancestor in exactly the epoch before |
| ForkChoice.CheckpointExact | src/consensus/chain.rs:612-640 | the checkpoint of a block is the oldest of its ancestors in the forest that lie in the epoch before its own; there is none exactly if all its ancestors in the forest lie in its epoch |
| ForkChoice.FinalizationRule | src/consensus/chain.rs:604-645 | a root is finalizable exactly if the head of its tree has a confirmed oldest ancestor of the epoch before, which has an oldest ancestor of the epoch before that; then the first lies on an epoch boundary, root and second are confirmed too, and the head is at least an epoch and one block above the root |
| ForkChoice.FinalizesRipe | src/consensus/chain.rs:653-755 | finalization changes nothing if no root satisfies the rule, and otherwise takes the first that does and goes on |
| ForkChoice.NothingRipeAfterInclusion | src/consensus/chain.rs:747-755 | in every run no root satisfies the rule once an inclusion has been delivered |
| Polling.PollFinalizes | src/consensus/chain.rs:747-821 | a poll touches at most tallies, parked votes and pending events before it finalizes, and it finalizes only when it delivers an inclusion |
| ForkChoice.LaterVoteDescends | src/consensus/chain.rs:558-600 | of two votes in one epoch with no block of that epoch finalized in between, the later target strictly descends from the earlier |
| ForkChoice.OwnVotesConsistent | src/consensus/chain.rs:558-600 | in every run targets strictly descend from justifications, justifications only advance along the finalized chain, and votes of one epoch line up |
| Orphans.InsertInto | src/consensus/orphans.rs:51-81 | an orphan tree takes a block if and only if some member is its parent and lower; then exactly that block is added, else the tree is untouched |
| Orphans.Traverse | src/consensus/orphans.rs:36-41 | the running maximum over a subtree |
| Orphans.MaxHeight | src/consensus/orphans.rs:33-47 | an upper bound of all heights that some member attains |
| Orphans.Flatten | src/consensus/orphans.rs:101-114 | a permutation of the members without repetition, the root first, every other block after its parent |
| Orphans.Pool.AddVote | src/consensus/orphans.rs:152-161 | the vote joins the end of its target's list, all else unchanged |
| Orphans.Pool.AddBlock | src/consensus/orphans.rs:163-189 | some tree that can takes the block; failing that it starts a tree, and is dropped if its parent is already waited for |
| Orphans.Pool.ConsumeVotes | src/consensus/orphans.rs:191-193 | hands out and removes exactly the votes of one target |
| Orphans.Pool.ConsumeBlocks | src/consensus/orphans.rs:195-200 | removes exactly one tree and hands out its members, parents first |
| Orphans.Pool.MissingBlocks | src/consensus/orphans.rs:217-243 | drops exactly the trees without a block above the given height, leaves the others alone, and names each parent that an expired one waits for once |
| Adoption.AdoptionTerminates | src/consensus/chain.rs:521-546 | each call of include decreases (pooled plus pending blocks, pending blocks) lexicographically |
| Adoption.DrainIsOffers | src/consensus/chain.rs:521-546 | the recursive adoption is a run of offers, one per call |
| Adoption.ParentMissing | src/consensus/orphans.rs:163-200 | the parent of a waiting block is neither in the forest nor finalized |
| Adoption.DrainsPool | src/consensus/chain.rs:521-546 | adoption keeps pool and chain apart: no tree waits on a block of the chain, no waiting block is in it |
| Adoption.DrainExists | src/consensus/chain.rs:521-546 | whatever is delivered to a pool that is kept apart from its chain, adoption comes to an end |
| Adoption.PollPool | src/consensus/chain.rs:747-762 | polling keeps pool and chain apart |
| Delivery.DeliveryOrderIndependent | src/consensus/chain.rs:470-548 | a line of valid blocks ends up in the forest under every order and repetition of a set of deliveries if and only if each of its blocks is in the forest or the pool already, or is delivered and either its parent is in one of them already or no waiting tree and no admitted delivered block competes for its missing parent |
| Delivery.LosingOrder | src/consensus/orphans.rs:175-188 | for a block that is not assured there is an order of the deliveries after which it is not in the forest, however adoption goes |
| Delivery.CompetitorWins | src/consensus/orphans.rs:175-188 | after an admitted competitor for the same missing parent, the whole delivery ends without the block, whatever else follows |
| Delivery.LosingDelivery | src/consensus/orphans.rs:175-188 | on a new chain two valid children before their parent: the second one is lost |
| Delivery.CompetitorIsDropped | src/consensus/orphans.rs:175-188 | while a tree waits for its missing parent, a block that no tree takes is dropped, and the whole delivery ends without it |
| Delivery.GoneForGood | src/consensus/chain.rs:521-546 | a block that is nowhere in chain, pool and work list is not in the chain when adoption ends |
| Delivery.PrunedIsRejected | src/consensus/chain.rs:494-503 | every block dropped with a pruned tree would be rejected by include at any later time |
| Forests.Forest.AddBlock | src/consensus/forktree.rs:151-163 | the new leaf is the last child of its parent, or the last root |
| Forests.Forest.AddVotes | src/consensus/forktree.rs:168-185 | the walk upwards adds the voter, and its stake once, to exactly the target and its ancestors |
| Forests.Forest.DescendsFrom | src/consensus/forktree.rs:199-206 | the walk upwards decides ancestry |
| Forests.Forest.EpochStartOf | src/consensus/forktree.rs:217-232 | the walk upwards finds the oldest ancestor of the same epoch |
| Forests.Forest.DepthOf | src/consensus/forktree.rs:189-191 | counts the steps to the root |
| Forests.Forest.TopSubtree | src/consensus/forktree.rs:123-143 | the loop with its vote and depth comparisons finds the first most voted child |
| Forests.Forest.HeadOf | src/consensus/forktree.rs:118-148 | the recursive descent ends at the head |
| Forests.Forest.Read | src/consensus/forktree.rs:291-299 | the walk upwards finds the youngest diff with the address, else the store |
| Forests.Forest.Visit | src/consensus/chain.rs:668-680 | visits parents before children, child by child |
| Forests.Forest.PromoteRoot | src/consensus/chain.rs:686-696 | walking the children of the root and what hangs on them keeps exactly its strict descendants; the children become the roots |
| Engine.ChainEngine.constructor | src/consensus/chain.rs:178-203 | a new chain is at genesis with an empty forest |
| Engine.ChainEngine.TotalStake | src/consensus/chain.rs:261-267 | the fold over the stake table sums the validators at or above the minimum stake |
| Engine.ChainEngine.InFinalizedHistory | src/consensus/chain.rs:305-311 | the last finalized block, one in the window, or genesis while the window is not full |
| Engine.ChainEngine.HeadBlock | src/consensus/chain.rs:217-243 | the last of the best heads over all trees, by votes, then depth; the finalized block if there is no tree |
| Engine.ChainEngine.TryInclude | src/consensus/chain.rs:405-464 | consumed, orphaned or rejected, with the new state in each case |
| Engine.ChainEngine.CommitAndVote | src/consensus/chain.rs:558-600 | votes exactly when the epoch's earlier vote has an acceptable justification and an ancestor target |
| Engine.ChainEngine.OfferBlock | src/consensus/chain.rs:470-520 | the checks of include, then insertion, then a vote if the block is the new head |
| Engine.ChainEngine.Sort | src/consensus/chain.rs:525-546 | an orphan joins the pool; a consumed block hands out exactly the tree that waited for it; the number of pooled and handed out blocks grows by one at most |
| Engine.ChainEngine.Settle | src/consensus/chain.rs:515-547 | one call of include up to its loop: the next state of the specification, the pool sorted accordingly |
| Engine.ChainEngine.Include | src/consensus/chain.rs:470-548 | recursive adoption terminates, performs exactly a drain of the one block, and reaches a state of the specification |
| Engine.ChainEngine.CollectUnconfirmed | src/consensus/chain.rs:347-356 | the blocks on the target's path below the quorum before the vote |
| Engine.ChainEngine.ConfirmationBatch | src/consensus/chain.rs:358-371 | one confirmation for each of them that is above the quorum after it, oldest first in delivery order |
| Engine.ChainEngine.IngestVote | src/consensus/chain.rs:317-387 | ignores, parks or counts the vote as specified, confirmations first in the queue |
| Engine.ChainEngine.IngestVotes | src/consensus/chain.rs:390-394 | the votes in order, keeping the invariant |
| Engine.ChainEngine.IsFinalizable | src/consensus/chain.rs:606-640 | decides the rule for one root |
| Engine.ChainEngine.FindFinalizableRoot | src/consensus/chain.rs:604-645 | the index of the first finalizable root |
| Engine.ChainEngine.FinalizeRoot | src/consensus/chain.rs:653-742 | store, finalized block, roots, own votes and events as specified |
| Engine.ChainEngine.FinalizeRoots | src/consensus/chain.rs:755-755 | the loop runs until no root is finalizable |
| Engine.ChainEngine.PostBlockIncluded | src/consensus/chain.rs:747-762 | the block's votes, then the parked ones, then finalization, then the requests for missing parents |
| Engine.ChainEngine.PostBlockFinalized | src/consensus/chain.rs:765-784 | the window of justifications gains the block and loses the old epochs |
| Engine.ChainEngine.PollNext | src/consensus/chain.rs:804-821 | delivers the oldest event and reaches the specified state; orphans change only after an inclusion, by pruning against the new finalized height |
| Unit.WritableIsOwn | src/vm/unit.rs:158-223 | a writable account off the curve that exists is not executable and belongs to the called contract |
| Unit.ExecuteLoop | src/vm/unit.rs:129-154 | the loop over outputs merges them in order and stops at the first failure, log overflow included |
| Unit.Isolation | src/vm/unit.rs:129-154 | at any nesting depth a unit's diff is the merge of changes each of which one contract of the call tree was entitled to make |
| Unit.TransactionAccounted | src/vm/unit.rs:44-88 | the same for a whole transaction |
| Unit.ProgramAccountIsolation | src/vm/unit.rs:283-384 | an off-curve account that existed is touched only by writes of the contract that owns it, and only if it is not executable; what is in the diff was written by such a write and differs in its data only, so no create replaces an account |
| Unit.NoncesKept | src/vm/unit.rs:327-337 | contracts never change a nonce |
| Unit.WritableNeedsSigner | src/vm/unit.rs:158-223 | only an account passed as writable can be put or deleted, and one with a private key only if it signs |
| Unit.LimitsKept | src/vm/unit.rs:225-280 | at any nesting depth, success means every log entry, their number and all account data stay within the limits of genesis |
| Unit.SuccessNeeds | src/vm/unit.rs:44-88 | a transaction succeeds only with valid signatures, its payer's nonce, a loadable contract and within the limits |
| Outputs.UnitStarts | src/vm/unit.rs:44-88 | a transaction starts exactly with few enough accounts, valid signatures, its payer's nonce and a contract that is built in or deployed and loadable; what the contract is shown of each account, and which it may write |
| Outputs.NestedStarts | src/vm/unit.rs:90-125 | the same for a nested call, with the caller named and without signatures and nonce |
| Outputs.ExecuteExact | src/vm/unit.rs:129-154 | at any nesting depth an execution succeeds exactly if every output of the call tree is allowed and the log entries stay within the limit; its diff is the merge of what the outputs change and its logs are their entries, in order |
| Outputs.NoInvokeExact | src/vm/unit.rs:225-384 | a single output succeeds exactly if it is within its size limit and the address it writes is listed, first listing first, as writable and exists or not as needed; it changes that account alone |
| Outputs.TransactionExact | src/vm/unit.rs:44-154 | the same for a whole transaction |
| BlockMachine.ExecuteNext | src/vm/machine.rs:143-192 | bump, execute, merge on success |
| BlockMachine.ExecuteBlock | src/vm/machine.rs:138-198 | the loop yields the block's diff and one outcome per transaction |
| BlockMachine.BlockView | src/vm/machine.rs:143-193 | the block's diff over its base is what results when each transaction reads what the previous ones left |
| BlockMachine.BlockDiffIsMerge | src/vm/machine.rs:143-193 | the block's diff is the merge, transaction by transaction, of the payer's bump and then the transaction's own diff if it succeeds on what the earlier ones left |
| BlockMachine.BlockDeletes | src/vm/machine.rs:175-175 | an address is deleted by the block if and only if some successful transaction deletes it and no later one pays from it or puts it |
| BlockMachine.PathView | src/vm/machine.rs:143-193 | on a fork path block boundaries do not matter to readers |
| BlockMachine.PathOutcome | src/vm/machine.rs:171-192 | a transaction's outcome in its block is its outcome in the sequence of the whole path |
| BlockMachine.ExactNonces | src/vm/machine.rs:143-162 | an account's nonce grows by exactly the transactions it paid for, failed ones included |
| BlockMachine.PathNonces | src/vm/machine.rs:143-162 | the same for what readers see at the end of a fork path |
| BlockMachine.SuccessNonce | src/vm/unit.rs:62-66 | success needs the nonce that counts the payer's transactions so far |
| BlockMachine.NoReplay | src/vm/unit.rs:57-66 | on a fork path no payer succeeds twice with one nonce |
| BlockMachine.FailureChangesOnlyTheNonce | src/vm/machine.rs:182-192 | a failed transaction changes nothing but its payer's nonce |
| Nonces.PromotedNonce | src/consensus/chain.rs:653-697 | whatever is finalized, a nonce that no finalized delete takes away is read as before above every surviving block, and one that is taken away is gone from the store |
| Nonces.RunNonces | src/vm/machine.rs:143-162 | in every run nonces never fall, if and only if no step finalizes blocks that together delete an address that carries a nonce; and if and only if that holds, every reader sees an account's nonce grow from genesis by exactly the transactions it paid for on the chain |
| Nonces.NoReplayInRuns | src/vm/unit.rs:57-66 | in a run that forgets no nonce, of two transactions of one payer that succeed on one chain the later one has the larger nonce, whenever their blocks were included and whatever was finalized in between |
| Nonces.ForgottenNonceReplays | src/vm/unit.rs:339-366 | a wallet pays for two blocks, the second of which deletes its account: readers see nonce 2, the store has none, and the first transaction succeeds again |
| Conservation.MintEffect | src/vm/builtin/currency.rs:262-344 | a performed mint adds the amount, saturating, to one balance and to one supply, and nothing else changes |
| Conservation.TransferEffect | src/vm/builtin/currency.rs:346-455 | a performed transfer moves the amount between two balances of one mint, except that a transfer to oneself only adds; what it deletes it emptied |
| Conservation.BurnEffect | src/vm/builtin/currency.rs:457-517 | a performed burn takes the amount from one balance and one supply; what it deletes it emptied |
| Conservation.CreateEffect | src/vm/builtin/currency.rs:185-258 | creating a mint changes no balance and no supply |
| Instructions.CreateLeaves | src/vm/builtin/currency.rs:185-258 | exactly one account is put: the mint with the given authority, decimals, name and symbol and no supply |
| Instructions.MintLeaves | src/vm/builtin/currency.rs:262-344 | exactly two accounts are put: the mint with only its supply raised, and the recipient's with its balance raised or opened |
| Instructions.TransferLeaves | src/vm/builtin/currency.rs:346-455 | exactly the sender's and the recipient's accounts are put; the sender's is deleted if and only if it is emptied and not the recipient's |
| Instructions.BurnLeaves | src/vm/builtin/currency.rs:457-517 | exactly the mint with only its supply lowered and the wallet's account are put; the latter is deleted if and only if it is emptied |
| Instructions.AuthorityLeaves | src/vm/builtin/currency.rs:519-573 | exactly the mint is put, with only its authority changed, to the given one or none |
| Conservation.AuthorityEffect | src/vm/builtin/currency.rs:519-573 | changing the authority changes no balance and no supply |
| Conservation.SimpleOutputs | src/vm/unit.rs:225-280 | the diff of a list of outputs, as the accounts they put and delete |
| Authority.AcceptsCreate | src/vm/builtin/currency.rs:193-228 | exactly when a mint can be created: derived fresh address, lengths and decimals within bounds |
| Authority.AcceptsMint | src/vm/builtin/currency.rs:262-334 | accepted if and only if the authority recorded in the mint signs and the recipient's account can take the coins |
| Authority.AcceptsTransfer | src/vm/builtin/currency.rs:346-455 | accepted if and only if the sender signs and holds the amount and the recipient's account can take it |
| Authority.AcceptsBurn | src/vm/builtin/currency.rs:457-517 | accepted if and only if the wallet signs and holds the amount |
| Authority.AcceptsSetAuthority | src/vm/builtin/currency.rs:519-573 | accepted if and only if the present authority signs |
| Authority.CoinsFall | src/vm/unit.rs:129-154 | coins at an account fall if and only if the last Currency call of the tree that puts the account burns them or transfers them to another wallet |
| Authority.SupplyGrows | src/vm/unit.rs:129-154 | a supply grows if and only if it is not full and the last Currency call that puts the mint issues coins |
| Authority.SpentByFlag | src/vm/unit.rs:90-125 | at any nesting depth coins fall only through a Currency call that was given the flag of the wallet, and a supply grows only through one that was given the flag of the authority |
| Authority.TransactionSignedFor | src/vm/unit.rs:90-125 | coins fall and supplies grow only with the signatures of those concerned on the transaction, its payer's included, if and only if every call with the last word was given the flag of somebody who signs it |
| Authority.BackedFlagsAreHonoured | src/vm/unit.rs:90-125 | enough for that: every signer flag that a Currency call was given belongs to the payer or a signer of the transaction |
| Authority.TopCallIsHonoured | src/vm/unit.rs:44-88 | a transaction that calls Currency itself needs no such condition |
| Authority.SpentOnlyBySigning | src/vm/builtin/currency.rs:378-384 | over any run of transactions that fail or honour their signatures a wallet loses coins only if it signed one of them, as payer or as listed signer |
| Ledger.MintConserves | src/vm/builtin/currency.rs:314-341 | a mint conserves if and only if the supply does not overflow or the recipient holds all of it |
| Ledger.TransferConserves | src/vm/builtin/currency.rs:393-448 | a transfer conserves if and only if the accounts differ or the balance is at its maximum |
| Ledger.BurnConserves | src/vm/builtin/currency.rs:492-511 | a burn conserves: neither subtraction saturates |
| Ledger.ContractEffect | src/vm/builtin/currency.rs:159-181 | one call conserves the coins of all mints if and only if the instruction is safe, and deletes only what it has just emptied |
| Ledger.SelfTransferMakesCoins | src/vm/builtin/currency.rs:393-448 | five coins, two of them sent to oneself, become seven |
| Ledger.FullSupplyMakesCoins | src/vm/builtin/currency.rs:314-341 | one coin minted at the maximal supply is not counted |
| Ledger.CallConserves | src/vm/unit.rs:129-154 | a transaction with one top-level Currency call conserves if and only if it is safe |
| Ledger.ForeignIsNeutral | src/vm/unit.rs:158-223 | a transaction without writes by Currency changes no balance and no supply |
| CallTree.UnitsOfRan | src/vm/unit.rs:129-154 | every unit of the call tree of a successful transaction was made for its references and ran to completion |
| CallTree.ExecuteHolds | src/vm/unit.rs:129-154 | at any nesting depth the diff holds at an account what the last Currency call put there, unless another contract put something later |
| Balance.SeparateCallsConserve | src/vm/unit.rs:129-154 | a transaction whose Currency calls, however many and however deep, put different accounts that no other contract puts conserves if and only if every call is safe: surpluses cannot cancel, because no call loses coins |
| Balance.ConservesIfBalanced | src/vm/unit.rs:129-154 | any successful transaction conserves if and only if, per mint, the changes of balances add up to the change of the supply, each account counted with the change by the call that has the last word on it, and not at all if another contract has |
| Balance.TopCallIsOnly | src/vm/unit.rs:44-88 | a transaction that calls Currency itself makes exactly that one call, undisturbed |
| Circulation.TransactionConserves | src/vm/machine.rs:143-193 | with its payer's nonce counted, a transaction conserves if and only if it fails, its separate calls are safe, or its overlapping ones balance |
| Circulation.CoinsConserved | src/vm/machine.rs:143-193 | over any sequence of transactions the balances of every mint add up to its supply all along if and only if each transaction is safe where it runs |
| Circulation.ExecuteDusting | src/vm/builtin/currency.rs:406-416 | at any nesting depth a deleted account was emptied by the same diff or is not Currency's |
| Circulation.BlockVacant | src/vm/builtin/currency.rs:502-511 | at every address a block deletes, its readers see no coins and no supply |
| Circulation.DustIsNeutral | src/vm/state.rs:166-219 | where a block, a reader and the store agree on all coins, they still agree after the block's diff |
| Circulation.ReadersAgree | src/consensus/chain.rs:653-697 | however many blocks of a chain are finalized, when each block is executed and when it is read, all readers and the store agree on every balance and supply |
| Circulation.RunConserves | src/vm/builtin/currency.rs:262-517 | when every transaction is safe where it is executed, all readers and the store have conserved coins after every block |
| Settlement.RunReadersAgree | src/consensus/chain.rs:653-697 | in every run of the engine that executes transactions, what is read above any block has the balances and supplies that the store would have if the block's path were finalized |
| Settlement.RunCoinsConserved | src/vm/builtin/currency.rs:262-517 | in every run the store and every reader have conserved coins when the blocks that are included carry transactions that are safe there; offers that are rejected or orphaned may carry anything |
| NestedCalls.FlagIsNoSignature | src/vm/unit.rs:90-125 | a transaction without accounts, signed by none but its payer, takes all coins of another wallet through a deployed contract |
| NestedCalls.TwoCallsMakeCoins | src/vm/unit.rs:129-154 | a contract sends 3 of 5 coins to each of two wallets, and afterwards each has 3 |
| NestedCalls.OverruledCreditLosesCoins | src/vm/unit.rs:129-154 | a contract sends 3 of 5 coins and then creates the recipient's account itself: they are gone |
| MessageCache.CacheIsFaithful | src/network/episub/cache.rs:76-121 | under a clock that never runs backwards, map and queue hold the same distinct messages, the queue lists the living arrivals in order of time, and the map holds a best record for each |
| MessageCache.FoundIffLiving | src/network/episub/cache.rs:97-99 | a message is found if and only if one of its arrivals has not been expired |
| MessageCache.OneLife | src/network/episub/cache.rs:79-93 | of one message at most one arrival is alive |
| MessageCache.FoundIsBest | src/network/episub/cache.rs:79-93 | the record found arrived since the living arrival and has the fewest hops of all that did |
| MessageCache.ExpiringCache.Insert | src/network/episub/cache.rs:76-95 | answers whether the arrival is of a message not held, and joins the history |
| MessageCache.ExpiringCache.Get | src/network/episub/cache.rs:97-99 | finds a best record since the living arrival, or nothing if there is none |
| MessageCache.ExpiringCache.IterRange | src/network/episub/cache.rs:101-111 | where the two searches end in order, a stretch of the queue with all entries strictly inside the span and none outside it |
| MessageCache.SpansInOrder | src/network/episub/cache.rs:101-111 | the searches end in order for every span that does not end before it starts, and for every other one without an entry between its ends, which returns nothing |
| MessageCache.ExpiringCache.RemoveOlderThan | src/network/episub/cache.rs:113-121 | popping stale entries from the front removes every entry at or before the cutoff |
| Gossip.DeliveredExactly | src/network/episub/tree.rs:110-147 | a received message is delivered if and only if every earlier delivery or publication of its id was forgotten by a pruning at least a history window after it |
| Gossip.AtMostOnce | src/network/episub/tree.rs:259-265 | two deliveries of one id, or a delivery after a publication, are at least a history window apart |
| Gossip.PlumTree.PushTo | src/network/episub/tree.rs:155-167 | one copy to each of the given peers, no other event |
| Gossip.PlumTree.Publish | src/network/episub/tree.rs:64-108 | an unknown message goes once to every eager peer, a known one nowhere |
| Gossip.PlumTree.InjectMessage | src/network/episub/tree.rs:110-188 | a delivered message goes up once and on, one hop further, to every other eager peer; otherwise an eager sender may be demoted and told so |
| Gossip.PlumTree.InjectIhave | src/network/episub/tree.rs:190-196 | an announcement is only observed |
| Gossip.GraftAnswers | src/network/episub/tree.rs:203-224 | of the requested messages exactly those with a living arrival are answered, in the order of the requests, each with a record of the fewest hops |
| Gossip.PlumTree.InjectGraft | src/network/episub/tree.rs:203-224 | the peer becomes eager and gets the best record of each requested message that is still held, in order |
| Gossip.PlumTree.PruneHistory | src/network/episub/tree.rs:259-265 | both caches forget what is at least a history window old |

## Left out

- Networking, codecs, RPC, the database, the command line and the client: input and output.
- Cryptography and serialisation: abstract injective functions, arbitrary predicates and tagged data.
- The floating-point quorum at `src/consensus/chain.rs:271`: only `100 * quorum >= 67 * total` and `quorum <= total` are used of it.
- Overflow of stakes, heights, nonces and hop counters, which are unbounded here; balances and supplies are 64-bit and saturate as in the code.
- Raw parent pointers after nodes are moved (`src/consensus/chain.rs:686-696`): parents are logical and nothing is claimed about memory; the search for a node by hash is a map lookup.
- Orphan trees are values: `Orphans.InsertInto` returns the new tree instead of changing the children in place, so aliasing between nodes is not modelled.
- Engine.ChainEngine.constructor: starts at genesis only; restarting from a stored finalized block is not modelled.
- Orphans.Pool.MissingBlocks: takes the set of expired trees as a parameter and does not reset their timers, because clocks are not part of the model.
- BlockMachine.ExecuteBlock: starts after the check of the transaction order (`src/vm/machine.rs:228-257`).
- The maps of logs and errors of a block: the outcomes are a sequence, one per transaction.
- The texts of the log entries and the error values of the Currency contract: they are as in the code, and nothing is claimed of them beyond which calls fail.
- Nested calls are bounded by a fuel parameter, deeper ones fail with an error of the model; the theorems hold for every bound.
- Authority.AcceptsCreate: counts the characters of names and symbols, where the code counts bytes.
- Circulation.ReadersAgree: speaks of one chain of blocks and any number of finalized ones; `Settlement.RunReadersAgree` draws chain and finalization from a run.
- ForkChoice.GhostFollowsConfirmation: speaks of the head of one tree, because the choice between trees compares the votes of the head leaves and not of the trees.
- ForkChoice.OwnVotesConsistent: claims no protection against surround votes across epochs, because the code does not check for them.
- Gossip.PlumTree.InjectMessage: takes decompression as a total function, where the code stops on a payload it cannot decode.
- MessageCache.ExpiringCache.IterRange: asks for searches that end in order, because the code stops when they do not.
- Announcements to lazy peers and repair of the tree (`src/network/episub/tree.rs:229-251` and `271-351`), `HyParView`, the WASM deployment contract, block production and the validator schedule: they would add only easy members.
