# Verification of the trust-net consensus engine

This project models the block-chain consensus engine of go-trust-net in Dafny and proves
properties of the model. Check it with `dafny verify dfyconfig.toml`.

## What is modelled

- **The fork-choice block DAG** (`Ancestry`, `ForkChoice`, `Reorganise`, `Consensus`, `Runs`, `Orders`).
  `ForkChoice.Insert` says declaratively what adding a block does; the class
  `Consensus.BlockChainConsensus` keeps the engine's tables and its world state, runs the two
  reorganisation walks and is proved to do exactly that. `Runs` follows the invariant, convergence,
  the transaction index and reopening the database over whole runs; `Orders` compares runs of the
  same blocks in different orders.
- **State roots under the engine** (`Commitments`, `Consensus`, `Platform`). Blocks are decoded, hashed,
  accepted and mined on world states that share the engine's database, and the roots they need are
  followed: over every interleaving of such steps in `Commitments`, and through the platform's own
  flows, run without interruption, in `Platform`.
- **Uncles** (`Uncles`). The validator's three loops and the producer's recursive search are both
  proved against one notion of uncle.
- **Sync** (`Sync`). Ancestors, batches of descendants, rewinding, and the predicate that says who
  syncs from whom.
- **The hash-addressed radix-16 trie** (`Trie`, `NodeStore`, `Persistence`, `WorldState`). Trees as
  values, their storage under node hashes in a shared database, and any number of world states
  updating, rebasing and cleaning up on it.
- **The block overlay and mining** (`Flush`, `Overlay`, `Mining`). Pending writes, their flush in any
  order with its cleanups, the header, and the nonce search.
- **The reward ledger** (`Ledger`, `FixedBytes`). Reward operations, their processing, credits and
  debits on 8-byte balances.
- **Concrete failing runs** (`Counterexamples`).

## Assumptions

- SHA-512 is an arbitrary function that is collision free and never yields the null hash
  (`Hashing.Sha`); nothing else about it is used. A digest written into a hashed buffer counts as one
  unit. That the layout of a trie node is unambiguous is proved. The 64 bytes of a digest, from which
  the tie-breaking number is summed, are an arbitrary function of it.
- The database is a set of maps without I/O failures, and serialisation loses nothing.
- An operation under the engine's lock is one step.
- A submitted block is not changed by its caller afterwards, and its hash is not null.
- Weights and depths do not reach 2^64.
- In the declarative insertion the state roots that can be rebased to are a parameter (`rebasable`).
  The engine's operations take none: they flush the block, move the engine's own world state, and
  their contracts say from the state before the call whether that succeeds.
- The time and the tip's timestamp are parameters when a candidate is set up.
- The proof-of-work time limit is a number of nonces that may be tried, and the approver is a
  function of hash, timestamp and time since the parent.

## Where the code falls short of what one would expect

- A winning block whose state root cannot be rebased to leaves the engine with a tip that has no chain
  node (`ForkChoice.InsertConsistent`). The root cannot be rebased to exactly if the root the block
  started from could not be and no write of the block touches, that is, none is an update or a delete
  whose path can be followed (`Overlay.BlockState.PersistState`,
  `Consensus.BlockChainConsensus.AcceptNetworkBlock`). It does happen: another block's flush can pass,
  and clean up, a stored block's state (`Counterexamples.StateGoesMissing`). While no flush passes a
  stored state, and every submitted block that is not ready stands at its parent's state, no state goes
  missing, however decoding, checking, submitting and mining are interleaved (`Commitments.RunCommits`).
  A block taken in or mined without interruption is always ready (`Platform.ReceiveBlock`,
  `Platform.ProduceBlock`).
- A block may list one uncle many times, and its weight counts every mention. The weight counts the
  different uncles exactly when none is repeated (`Runs.WeightCountsUncles`); with repetitions one valid
  uncle suffices to outweigh any tip (`Runs.RepeatedUncleWins`).
- Only the current main list is searched for duplicate transactions, so a branch can repeat one and
  the transaction index then misses an occurrence (`Runs.PromotedIndexedIff`,
  `Runs.SideBranchMayRepeat`, on a run from the genesis `Counterexamples.RepeatIsReachable`).
- For the same reason two siblings that share a transaction exclude each other, and which one is kept
  depends on the order (`Counterexamples.SiblingsRace`); without shared transactions the order does not
  matter (`Orders.SameSubmissionsConverge`).
- Every validation appends the uncles' miners to the block's list again, so the list has each miner twice
  after the second validation (`Uncles.ValidateBlock`). A candidate's rewards are built before its
  first validation, and a received block's are checked after its first.
- A pending empty value reads as present in the block and as absent in the trie
  (`Flush.FlushReadsSame`).
- A failing reward transaction has credited the rewards before the wrong one, and an operation's code
  is not looked at (`Ledger.RewardBlock.Process`, `Ledger.RewardBlock.VerifyMiningRewardTx`).
- A credit can wrap around (`Ledger.CreditTotal`).
- What a candidate carries as the time since its parent is its parent's timestamp, because the
  difference is taken twice; the proof-of-work rule sees that number (`Consensus.DeltaIsTipTime`).
- A block's hash binds its transactions only as their bytes one after the other, so the same bytes cut
  into other transactions give the same hash (`Mining.HashBindsBlock`, `Mining.JoinedAppends`).
- A root that was cleaned up can be rebased to again once a world state standing at it moves on
  (`Persistence.LeavingRegisters`).
- The comment on the block hash lists the depth among the hashed fields; the code does not hash it
  (`Mining.DepthIsNotHashed`).

## Model

| member | source | states |
|---|---|---|
| ForkChoice.InitialConsistent | consensus/blockChainConsensus.go:56-81 | an engine created on an empty database satisfies the whole-engine invariant: flags on the path to the tip, tip best, saved tip and state root following it |
| ForkChoice.UncleOkExtends | consensus/blockChainConsensus.go:339-388 | an uncle that is valid stays valid after any later blocks |
| ForkChoice.UncleGenerations | consensus/blockChainConsensus.go:339-388 | an uncle is valid exactly if neither it nor the parent is an ancestor of the other and going up at most five generations from each leads to the same block |
| ForkChoice.SoundExtends | consensus/blockChainConsensus.go:390-425 | a block that validates keeps validating after any later blocks |
| ForkChoice.NodesMatchInsert | consensus/blockChainConsensus.go:545-556 | once a new block hangs in its parent's child list, every chain node still mirrors its block and lists exactly its children, each once |
| ForkChoice.BestAfter | consensus/blockChainConsensus.go:558-564 | after an insertion no stored block beats the tip by weight and then lower number |
| ForkChoice.TipIsBest | consensus/blockChainConsensus.go:558-564 | no stored block is heavier than the tip, and none as heavy has a lower number |
| ForkChoice.InsertMovesTip | consensus/blockChainConsensus.go:558-566 | a new block becomes the tip, saved and weighed, exactly if it is heavier or as heavy with a lower number; otherwise the tip stays |
| ForkChoice.NumericCountsBytes | consensus/block.go:343-353 | the tie-breaking number is 0 for 64 zero bytes, and changing any one byte changes it by the difference |
| ForkChoice.SidelinedConsistent | consensus/blockChainConsensus.go:604-607 | storing a block that does not beat the tip keeps the invariant |
| ForkChoice.PromotedConsistent | consensus/blockChainConsensus.go:560-603 | moving the tip to a winning block keeps the invariant: the flags are exactly the path from genesis to it |
| ForkChoice.InsertConsistent | consensus/blockChainConsensus.go:527-609 | the invariant survives adding a block if and only if the block is known, carries a finalised transaction, does not beat the tip, or has a state root that can be rebased to; otherwise the tip has moved but its chain node is not stored |
| ForkChoice.FindMainListChild | consensus/blockChainConsensus.go:612-620 | finds a stored, flagged child other than the skipped one, and nothing only when there is none |
| Reorganise.UpStep | consensus/blockChainConsensus.go:583-593 | one step of the upward walk adds exactly the block it stands on to the flags |
| Reorganise.UpDone | consensus/blockChainConsensus.go:579-593 | when the upward walk stops, the flags are the old path and the new path together |
| Reorganise.DownStart | consensus/blockChainConsensus.go:594-598 | the flagged child of the fork other than the new branch starts the rest of the old path, or there is no rest |
| Reorganise.DownNext | consensus/blockChainConsensus.go:598-603 | one step of the downward walk takes exactly the block it stands on out of the flags and moves to the next old block |
| Consensus.WalkUpStep | consensus/blockChainConsensus.go:583-593 | setting a flag, registering the block and moving to the parent keeps the upward walk's invariant |
| Consensus.WalkDownStep | consensus/blockChainConsensus.go:598-603 | clearing a flag and moving to the flagged child keeps the downward walk's invariant |
| Consensus.BlockChainConsensus.RegisterTransactions | consensus/block.go:280-289 | every transaction of the block is indexed under it and no other entry changes |
| Consensus.BlockChainConsensus.WalkUp | consensus/blockChainConsensus.go:579-593 | the upward walk ends at a block that was on the main list, having flagged the new branch and registered its transactions |
| Consensus.BlockChainConsensus.WalkDown | consensus/blockChainConsensus.go:594-603 | the downward walk ends with the flags exactly on the path to the new tip |
| Consensus.BlockChainConsensus.Reorganise | consensus/blockChainConsensus.go:574-603 | both walks together lay the flags along the path to the new tip and register its branch |
| Consensus.BlockChainConsensus.CarriesDuplicate | consensus/blockChainConsensus.go:534-544 | reports exactly whether the block carries a transaction a main-list block has finalised |
| Consensus.BlockChainConsensus.AddValidatedBlock | consensus/blockChainConsensus.go:527-609 | the engine's whole new state and result are those of the declarative insertion over the roots in its database, error paths included, and no root is lost |
| Consensus.BlockChainConsensus.MoveState | consensus/blockChainConsensus.go:569-573 | moves the engine's world state exactly if the root can be rebased to, and loses no root |
| Consensus.BlockChainConsensus.HashBlock | consensus/block.go:202-278 | hashing a block on the engine's database leaves the engine and its world state intact; the flush is an event whose cleaned roots and readiness are stated; a network block passes exactly if the rule accepts its hash, a local one if some nonce is accepted |
| Consensus.BlockChainConsensus.AddHashedBlock | consensus/blockChainConsensus.go:516-524 | a flush followed by the insertion is one event: the submission of the block with the root it reached |
| Consensus.BlockChainConsensus.AddReplayedBlock | consensus/blockChainConsensus.go:518-523 | a flushed block is inserted if its replay reached its state and rejected otherwise; either way the invariant holds exactly if that was safe |
| Consensus.BlockChainConsensus.CheckNetworkBlockPoW | consensus/blockChainConsensus.go:257-270 | a network block passes exactly if the approver accepts the hash of its fields at the root its writes lead to, and then has that hash; its writes are flushed, as an event whose start, end, cleaned roots and readiness are stated, and the engine is left alone; another block is refused unchanged |
| Consensus.BlockChainConsensus.ValidateAndHash | consensus/blockChainConsensus.go:285-294 | the verdict of validation does not depend on what hashing changes; a failed validation changes no state |
| Consensus.BlockChainConsensus.DecodeNetworkBlockSpec | consensus/blockChainConsensus.go:454-501 | a received block gets a world state of its own at its parent's state, exactly if it validates and that state can be rebased to; the engine is unchanged and no root is lost, so this is an event of a run |
| Consensus.BlockChainConsensus.NewCandidateBlock | consensus/blockChainConsensus.go:167-194 | a local block on the tip with every uncle nearby gets a world state of its own at the engine's state, exactly if that can be rebased to; the engine is unchanged and no root is lost |
| Consensus.DeltaIsTipTime | consensus/blockChainConsensus.go:179-180 | a candidate's delta is the tip's timestamp |
| Consensus.NewStateAt | consensus/blockChainConsensus.go:494-498 | a new world state on the database reaches a root exactly if that can be rebased to or is the empty one, and no root is lost |
| Consensus.BlockChainConsensus.AcceptNetworkBlock | consensus/blockChainConsensus.go:506-524 | a network block is validated, hashed, compared with its replayed state, and inserted; it keeps its fields, and its hash or its own; whether its state can be moved to is decided by the state before the call: the start root can be rebased to, or a write touches; if so, the invariant holds afterwards; a failed validation changes nothing |
| Consensus.BlockChainConsensus.MineCandidateBlock | consensus/blockChainConsensus.go:281-304 | a local block goes the same way under its own flushed root with a hash the given rule accepts; it is not submitted exactly if it does not validate or the rule rejects every nonce it may try, and then the engine is unchanged |
| Consensus.BlockChainConsensus.Open | consensus/blockChainConsensus.go:47-100 | creates the engine and its world state on the genesis or on the saved tip, and fails exactly when the saved tip is missing or its state cannot be rebased to; the root it stands at can be rebased to, and no root is lost |
| Runs.ValidateSound | consensus/blockChainConsensus.go:390-425 | no check fails exactly when the block hangs one level below a stored parent, all its uncles are valid, and its weight is the parent's plus one plus one per uncle |
| Runs.WeightCountsUncles | consensus/blockChainConsensus.go:408-423 | a block that validates weighs its parent's weight, one, and the number of different uncles if and only if it lists no uncle twice |
| Runs.RepeatedUncleWins | consensus/blockChainConsensus.go:408-423 | a block listing one valid uncle more than once and at least as often as the tip is heavy validates and becomes the tip |
| Runs.SubmitConsistent | consensus/blockChainConsensus.go:506-524 | a submission keeps the invariant if and only if it is rejected by validation or by its replayed state, or its insertion does not need its state root, or that can be rebased to |
| Runs.RebasableUndisturbed | consensus/blockChainConsensus.go:569-573 | a run all of whose blocks have rebasable state roots never ends in the missing-state error |
| Runs.SubmitGrows | consensus/blockChainConsensus.go:527-609 | a submission only adds a block, and the tip never gets worse |
| Runs.RunConsistent | consensus/blockChainConsensus.go:527-609 | the invariant holds after every run of accepted and rejected submissions, blocks are never lost and the tip never gets worse |
| Runs.TipAfterRun | consensus/blockChainConsensus.go:558-564 | after every run no stored block is heavier than the tip, and none as heavy has a lower number |
| Runs.OneMainChild | consensus/blockChainConsensus.go:612-620 | a main-list block has a main-list child exactly when it is not the tip, and then only one |
| Runs.SameBlocksAgree | consensus/blockChainConsensus.go:558-609 | two engines holding the same blocks agree on the best rank, and on tip, state and every flag when only one block has it |
| Runs.RunsConverge | consensus/blockChainConsensus.go:558-609 | two runs from one genesis that end with the same blocks, in whatever orders, converge |
| Orders.SubmitStores | consensus/blockChainConsensus.go:527-609 | a block that comes in order and shares no transaction with a stored block is stored |
| Orders.RunStores | consensus/blockChainConsensus.go:527-609 | a run in order of blocks that share no transaction ends with exactly those blocks |
| Orders.SameSubmissionsConverge | consensus/blockChainConsensus.go:527-609 | two runs in order of the same blocks, none sharing a transaction, end with the same blocks and the same best rank, and agree on tip, state and every flag when only one block is best |
| Counterexamples.SiblingsRace | consensus/blockChainConsensus.go:534-544 | of two siblings sharing a transaction the second is rejected, whichever that is |
| Runs.StatusExact | consensus/blockChainConsensus.go:315-336 | a status query returns a block exactly when that block is on the main list and carries the transaction |
| Runs.StatusAnswers | consensus/blockChainConsensus.go:315-336 | with an exact index a query never finds damaged tables, finds exactly what the main list carries, and calls not applied only what some stored block carries |
| Runs.RefusedForTransactions | consensus/blockChainConsensus.go:534-544 | a new block is refused for its transactions exactly when a main-list block carries one of them |
| Runs.RegisterUpNone | consensus/blockChainConsensus.go:583-593 | registering a branch leaves the entry of a transaction it does not carry alone |
| Runs.RegisterUpOnly | consensus/blockChainConsensus.go:574-593 | a transaction that one newly registered block carries ends up indexed under that block |
| Runs.RegisterUpSound | consensus/blockChainConsensus.go:574-593 | registration only points a transaction at a newly registered block carrying it |
| Runs.PromotedIndexedIff | consensus/blockChainConsensus.go:574-603 | moving the tip keeps the transaction index complete if and only if the new main list carries no transaction twice |
| Runs.SideBranchMayRepeat | consensus/blockChainConsensus.go:534-544 | a winning block that repeats a transaction of its side-branch parent is accepted and leaves the index incomplete |
| Counterexamples.RepeatIsReachable | consensus/blockChainConsensus.go:534-544 | a run from the genesis, whatever the hashes, reaches such a state, and the next block leaves the index incomplete |
| Runs.RunIndexExact | consensus/blockChainConsensus.go:315-336 | over every run that never lets a branch repeat a transaction, across any number of reorganisations, the index stays exact |
| Runs.StatusAfterRun | consensus/blockChainConsensus.go:315-336 | from an empty database, after every such run, a status query returns a block exactly when it is on the main list and carries the transaction |
| Runs.OpenedEmpty | consensus/blockChainConsensus.go:62-81 | opening an empty database gives the engine that every run starts from |
| Runs.ReopenAfterRun | consensus/blockChainConsensus.go:62-99 | after any run, reopening the saved tables recovers tip, weight, state root, flags and index, or fails if the tip's state cannot be rebased to |
| Runs.ReopenAfterMissing | consensus/blockChainConsensus.go:560-573 | after the missing-state error reopening fails until the state is back and then stands at the winning block, which has no chain node |
| Uncles.IsUncleValid | consensus/blockChainConsensus.go:339-388 | true exactly when the uncle is stored, neither it nor the block's parent is an ancestor of the other, and both are within 5 generations of a common ancestor; returns the uncle's miner |
| Uncles.MeetingDecides | consensus/blockChainConsensus.go:369-377 | the distance to the deepest common ancestor decides whether any common ancestor is close enough |
| Uncles.ValidateBlock | consensus/blockChainConsensus.go:390-425 | returns the first failing check, in order, or none; on success the uncles' miners, in order, follow those the block already listed |
| Uncles.FindNonDirectAncestors | consensus/blockChainConsensus.go:224-249 | finds exactly the blocks up to the given number of generations below a block and no deeper than the limit, each once |
| Uncles.FindUncles | consensus/blockChainConsensus.go:197-222 | finds exactly the blocks that branch off the line within the given generations, each once |
| Uncles.NearbyIsUncle | consensus/blockChainConsensus.go:197-249 | every uncle the producer finds is one the validator accepts |
| Uncles.NearbyExact | consensus/blockChainConsensus.go:197-249 | the producer finds exactly the valid uncles no deeper than its tip whose two distances to a common ancestor add up to at most six |
| Uncles.NewCandidateBlock | consensus/blockChainConsensus.go:167-194 | a candidate sits on the tip with every uncle nearby, none twice, the miners in the same order and the weight counting each |
| Uncles.CandidateAccepted | consensus/blockChainConsensus.go:167-194 | what the producer builds validates at once and after any later run |
| Uncles.CandidateWins | consensus/blockChainConsensus.go:167-194 | a candidate submitted at once with a new hash, no finalised transaction and its state at hand becomes the tip, with the fields it was given |
| Sync.FindAncestor | consensus/blockChainConsensus.go:653-669 | the ancestor the given number of generations up, or the genesis if that is closer; errors for the genesis and for unknown blocks |
| Sync.NextMain | consensus/blockChainConsensus.go:729-731 | the main-list child of a main-list block is the one a level down, if the block is not the tip |
| Sync.FetchAll | consensus/blockChainConsensus.go:710-720 | fetches the listed uncles in order |
| Sync.StopsAtLongest | consensus/blockChainConsensus.go:697-731 | where the walk stops, no longer run of successors would fit |
| Sync.BatchLayout | consensus/blockChainConsensus.go:697-731 | in a batch each level's uncles stand in their order and are followed by the block of that level, the first level's block left out, and the next level comes right after |
| Sync.Descendents | consensus/blockChainConsensus.go:673-765 | the parent's uncles, then for the longest run of main-list successors that fits each block's uncles and the block, never more than the limit; errors for unknown and side-branch parents |
| Sync.NoUncleOfGenesis | consensus/blockChainConsensus.go:359-368 | a child of the genesis can have no valid uncle |
| Sync.AnswersFromGenesis | network/platform.go:619-655 | a node past genesis never answers a request from genesis with nothing |
| Sync.RewindStep | network/platform.go:452-467 | a rewind lowers the depth by ten, or to genesis |
| Sync.RewindUntilAnswered | network/platform.go:343-374 | rewinding reaches a block the responder answers for, within a tenth of the starting depth rounded up, without hitting the error at genesis |
| Sync.SyncIsForkChoice | network/platform.go:322-326 | a node needs to sync exactly when the announced tip is heavier, or as heavy with a lower number, and that is when it would win |
| Sync.NeverBothSync | network/platform.go:322-326 | two nodes never both need to sync from each other |
| Sync.SyncedStaysSynced | network/platform.go:322-326 | once an announced tip has been stored, no later run makes syncing to it necessary |
| Sync.ExchangedTipsAreLevel | network/platform.go:322-326 | two nodes holding each other's tips have the same rank |
| Trie.RawPut | core/trie/trieImpl.go:261-309 | an update sets its path, creates the missing prefixes empty, and changes no other path |
| Trie.RawDel | core/trie/trieImpl.go:332-376 | a delete empties its path if that is in the tree and changes nothing else |
| Trie.Extensional | core/trie/trieImpl.go:391-406 | a tree is determined by what its paths lead to |
| Trie.PutSame | consensus/block.go:184-187 | an update leaves the tree as it is exactly when the path already has the value |
| Trie.DelSame | core/trie/trieImpl.go:348-376 | a delete leaves the tree as it is exactly when the path reads as no value |
| Trie.NodeHashInjective | core/trie/trieImpl.go:38-46 | the hashed layout of a node is unambiguous |
| Trie.NodeImageLayout | core/trie/trieImpl.go:38-46 | 1024 zero bytes and one per byte of the value, the sixteen child hashes in order, then the value |
| Trie.HashBinds | core/trie/trieImpl.go:38-46 | equal root hashes mean equal trees |
| NodeStore.StoreNode | core/trie/trieImpl.go:86-99 | storing a node under its hash loses no tree and keeps every stored node readable |
| NodeStore.LookupReads | core/trie/trieImpl.go:391-406 | following a path through the database gives the tree's value |
| NodeStore.KidsHeldLoses | core/trie/trieImpl.go:470-493 | losing the empty node makes no tree unreadable |
| NodeStore.MakeHex | core/trie/trieImpl.go:229-237 | the nibbles of a key, high half first |
| NodeStore.HexHalves | core/trie/trieImpl.go:229-237 | each byte of a key gives its high half and then its low half |
| NodeStore.HexInjective | core/trie/trieImpl.go:229-237 | different keys have different nibbles |
| WorldState.Database.HashNode | core/trie/trieImpl.go:38-46 | hashes the zero padding, the sixteen child hashes and the value |
| WorldState.Database.PutState | core/trie/trieImpl.go:97-99 | stores a node under its hash and nothing else |
| WorldState.Database.UpdateDepthFirst | core/trie/trieImpl.go:261-309 | stores the updated tree, returns its hash, and loses no tree |
| WorldState.Database.DeleteDepthFirst | core/trie/trieImpl.go:332-376 | stores the tree with the path emptied, or does nothing where that is the same tree |
| WorldState.Database.CleanupDepthFirst | core/trie/trieImpl.go:470-493 | removes the node unless it is held by the unmarked tombstone, only nodes not so held, and nothing below a node that is |
| WorldState.Database.Cleanup | core/trie/trieImpl.go:450-468 | exactly the cleaned root stops being rebasable, and its node is removed exactly if it is not held by the unmarked tombstone |
| WorldState.MptWorldState.constructor | core/trie/trieImpl.go:63-84 | a new world state is empty and its root rebasable |
| WorldState.MptWorldState.MoveTxRoot | core/trie/trieImpl.go:247-257 | old and new root both have a transaction root |
| WorldState.MptWorldState.Update | core/trie/trieImpl.go:239-259 | the tree becomes the updated one, under the returned root, in a step of the shared database |
| WorldState.MptWorldState.Delete | core/trie/trieImpl.go:311-330 | the tree becomes the one with the key deleted, under the returned root, which can be rebased to if the key's path could be followed; if not, nothing changes |
| WorldState.MptWorldState.Lookup | core/trie/trieImpl.go:378-389 | the value of the key, or none if it is absent or empty |
| WorldState.MptWorldState.Rebase | core/trie/trieImpl.go:412-448 | succeeds exactly for stored roots with a transaction root, and moves to the tree of that root |
| Persistence.StepKeepsRoot | core/trie/trieImpl.go:239-493 | any step of any world state keeps every root rebasable except the one being cleaned up |
| Persistence.RunKeepsRoot | core/trie/trieImpl.go:239-493 | a rebasable root stays rebasable through every interleaving that does not clean it up |
| Persistence.ProducedIsRebasable | core/trie/trieImpl.go:239-448 | the root a world state is created at, updated to, moved to by a delete, or rebased to can be rebased to |
| Persistence.LeavingRegisters | core/trie/trieImpl.go:239-259 | a world state that moves on registers the root it leaves, even one that was cleaned up |
| Persistence.HeldIsRebasable | core/trie/trieImpl.go:239-493 | over every run from an empty database the root any world state is at can be rebased to, unless it has been cleaned up |
| Persistence.ProducedRestores | core/trie/trieImpl.go:412-448 | a root produced by any operation and not cleaned up since is what a later rebase of any world state restores |
| Persistence.RebaseRestores | core/trie/trieImpl.go:412-448 | rebasing to a root that was rebasable earlier and has not been cleaned up restores every value it held then |
| Persistence.StepKeepsReadable | core/trie/trieImpl.go:470-493 | no step of another world state, cleanups included, makes a value unreadable |
| Persistence.RootBindsLookups | core/trie/trieImpl.go:391-406 | two databases that store the same root hash read the same value at every path from it |
| Persistence.CleanupKeepsLookups | core/trie/trieImpl.go:208-227 | a cleanup changes no lookup from any node still stored, although nodes are shared |
| Persistence.DeleteKeepsRoot | core/trie/trie.go:16-18 | a delete leaves the root hash unchanged exactly when the key has no value |
| Persistence.ActsAsMap | core/trie/trieImpl.go:239-406 | updates and deletes act on the keys' values as on a map |
| Flush.FlushNext | consensus/block.go:176-187 | each further write extends the flush, in whatever order the writes come |
| Flush.FlushUnique | consensus/block.go:172-199 | a flush has one resulting tree and root hash for every order of the writes |
| Flush.FlushTwice | consensus/block.go:184-187 | after a flush every write is already in the tree, so repeating any of them changes nothing |
| Flush.FlushAgain | consensus/block.go:172-199 | a second flush ends at the same root |
| Flush.PassesAgain | consensus/block.go:184-195 | a second flush of the same writes passes no root but the one it stands at |
| Flush.PeersFlushAlike | consensus/block.go:172-199 | peers that start at one root and flush the same writes in different orders reach one root |
| Flush.FlushReadsSame | consensus/block.go:112-128 | after the flush the trie answers a key as the block did before, if and only if the block did not hold an empty value for it |
| Flush.CachingIsInvisible | consensus/block.go:121-127 | remembering a value that was read does not change what the flush produces |
| Flush.OutdatedNow | consensus/block.go:184-195 | a write that changes the root is told apart from the old root by its own key |
| Flush.OutdatedNext | consensus/block.go:188-195 | a root once left behind never comes back, because later writes go to other keys |
| Overlay.FlushingMoves | consensus/block.go:184-195 | a root change cleans up the root it leaves, which is neither the parent's nor the new one, or leaves the parent's root alone |
| Overlay.GoneNext | consensus/block.go:188-195 | a root once cleaned up is never registered again by the same flush |
| Overlay.ReadyNext | consensus/block.go:177-183 | the root reached can be rebased to as soon as one write touches; until then nothing has changed |
| Overlay.FlushEnds | consensus/block.go:188-199 | the root the flush ends at was never cleaned up, and can be rebased to if it is new or the first root could be |
| Overlay.CleansNext | consensus/block.go:184-195 | each further write cleans up exactly the root that comes to lie between the first and the last |
| Overlay.BlockState.Update | consensus/block.go:98-103 | the key reads as the value, every other key as before |
| Overlay.BlockState.Delete | consensus/block.go:105-110 | the key reads as absent, every other key as before |
| Overlay.BlockState.Lookup | consensus/block.go:112-128 | the pending value or the world state's; reading changes neither any answer nor the result of the flush |
| Overlay.BlockState.ApplyWrite | consensus/block.go:177-183 | one write goes into the trie and every rebasable root stays so |
| Overlay.BlockState.Forget | consensus/block.go:188-192 | only the given root stops being rebasable, and the block's own state stays readable |
| Overlay.BlockState.FlushOne | consensus/block.go:176-196 | one iteration of the flush keeps its invariant: the root it leaves is cleaned up exactly if the root changes and it is not the first; a write that touches makes the root rebasable, any other changes nothing |
| Overlay.BlockState.WriteAndLeave | consensus/block.go:177-195 | one write, and the cleanup of the root it leaves once the root has changed before: only that root is lost, and only the two are registered |
| Overlay.BlockState.PersistState | consensus/block.go:172-199 | for every order of the writes: the tree is the flush of the parent's; exactly the roots on the way between the first and the last are cleaned up and gone; no other root is lost or added but the first and the last; every readable tree stays so; the final root can be rebased to if and only if the first could be or a write touches |
| Mining.SearchFindsFirst | consensus/block.go:246-271 | the search returns the first approved nonce, counting up with wrap-around |
| Mining.SearchFails | consensus/block.go:250-275 | the search of a local block fails exactly when none of the nonces it may try is approved |
| Mining.AfterWraps | consensus/block.go:245-254 | the k-th nonce tried after the first is k further on, modulo 2^64 |
| Mining.HashedIsApproved | consensus/block.go:250-277 | a block that got a hash has the hash of its own fields, and the rule accepts it |
| Mining.NetworkHashed | consensus/block.go:264-269 | a network block keeps its fields, and its only try succeeds exactly if the rule accepts its hash |
| Mining.LocalHashed | consensus/block.go:250-275 | a local block stays without hash exactly if the rule rejects every nonce it may try |
| Mining.PeerAgrees | consensus/blockChainConsensus.go:454-501 | a mined block rebuilt by a peer that replays the same writes from an equal root passes on its first nonce with the same hash |
| Mining.MineSendCheck | consensus/blockChainConsensus.go:257-304 | over the block objects: a block is mined and sent, a peer with its own database and an equal root rebuilds it and replays the writes; its check and every later recomputation give the same hash |
| Mining.ReplayBinds | consensus/block.go:221-236 | the block's hash is the same under two state roots only if the roots are the same |
| Mining.HashBindsBlock | consensus/block.go:215-256 | two blocks have the same hash exactly if they agree on parent, miner, both times, state root, the transactions' bytes, weight, uncles and nonce |
| Mining.FrontLayout | consensus/block.go:216-219 | parent, miner, timestamp and delta come first, in this order |
| Mining.BackLayout | consensus/block.go:237-255 | transactions, weight, uncles and nonce come after the state root, in this order |
| Mining.JoinedAppends | consensus/block.go:237-239 | appending a transaction appends its bytes, so the cut between transactions is not hashed |
| Mining.TxIdBinds | consensus/transaction.go:16-19 | different transactions have different ids |
| Mining.SealedRecords | consensus/block.go:58-68 | the block the chain stores has the fields that were sent and the ids of its transactions in order |
| Mining.DepthIsNotHashed | consensus/block.go:201-243 | blocks that differ only in depth have the same hash |
| Mining.AppendTransactions | consensus/block.go:237-239 | appends the transactions' bytes in order |
| Mining.AppendUncles | consensus/block.go:241-243 | appends the uncles' hashes in order |
| Mining.BuildHeader | consensus/block.go:215-243 | writes out everything that is hashed but the nonce |
| Mining.MinableBlock.RunSearch | consensus/block.go:244-272 | the nonce loop finds what the search specifies, or leaves the last nonce tried; a network block gets one try |
| Mining.MinableBlock.ComputeHash | consensus/block.go:202-278 | flushes the writes with all that is known of the flush, takes the root as the state of a local block only, and sets nonce and hash of the first approved try, or leaves the hash alone |
| Mining.MinableBlock.ComputeAgain | consensus/block.go:202-278 | hashing a network block that has its hash again, any number of times, changes nothing in it and cleans up no root |
| Mining.ComputeNumeric | consensus/block.go:343-353 | the sum of the hash's 64 bytes, at most 16320; the largest 64-bit number for a block without hash |
| Commitments.EventSubmits | consensus/blockChainConsensus.go:506-524 | a submitted block whose root is ready keeps the invariant and never finds its state missing |
| Commitments.SubmitAdds | consensus/blockChainConsensus.go:506-524 | a submission stores nothing but its own block, and that only after validation and with the state its replay reached |
| Commitments.EventCommits | consensus/blockChainConsensus.go:506-524 | if all stored states can be rebased to, a flush that passes no stored state, of a block that is ready or stands at its parent's state, keeps them all and the invariant, and its submission never finds a state missing |
| Commitments.RunCommits | consensus/blockChainConsensus.go:506-524 | over every run of such events, in which blocks are set up, checked any number of times and submitted in any interleaving, all stored states stay rebasable and the invariant holds |
| Commitments.QuietHappens | consensus/blockChainConsensus.go:494-499 | any step that loses no root, such as setting up a world state, is an event of such a run |
| Commitments.InitialIntact | consensus/blockChainConsensus.go:56-81 | a new engine meets the premises of every such run |
| Platform.Start | consensus/blockChainConsensus.go:47-100 | a new engine on a new database is the one runs start from, and its state can be rebased to |
| Platform.Reopen | consensus/blockChainConsensus.go:82-99 | opening what an intact engine saved gives the same engine, intact |
| Platform.Check | network/platform.go:494-498 | a block passes exactly if the approver accepts its hash; after the check of a block standing at a rebasable root its flushed root can be rebased to |
| Platform.Accept | network/platform.go:500-503 | a hashed block standing at a rebasable root is submitted with its replayed root, and its state is there |
| Platform.ReceiveBlock | network/platform.go:469-503 | decode, replay, check and submit: only a block whose hash the approver accepts is submitted, with the root its writes lead to from its parent's state; an accepted one is stored as it was sent; whatever the writes, the invariant holds and no state is missing |
| Platform.Mine | network/platform.go:777-796 | a local block standing at a rebasable root is submitted with its flushed root and a hash the rule accepts, or not at all, and its state is there |
| Platform.ProduceBlock | network/platform.go:777-822 | candidate, writes and mining: the block sits on the tip with every uncle nearby and the given transactions, is submitted only with a hash the rule accepts, and is stored as built; whatever the writes, the invariant holds and no state is missing |
| Counterexamples.StateGoesMissing | consensus/block.go:184-195 | a flush of k := v and k2 := v2 that cleans up exactly the root of k := v is such an event but passes a stored state; then a block without writes on top of the block with that state wins, finds its state missing and breaks the invariant |
| Ledger.HexStringInjective | network/trustee.go:38-40 | different addresses are different accounts |
| Ledger.HexStringReads | network/trustee.go:38-40 | an account's name reads back as the address: two lower-case digits per byte, the high half first |
| Ledger.AwardsParse | network/trusteeTransactions.go:13-22 | the award texts read as 1000000 and 200000 |
| Ledger.CreditTotal | network/trustee.go:171-195 | a credit adds its amount to the sum of balances exactly when the account does not wrap around, and never touches another account |
| Ledger.DebitTakes | network/trustee.go:198-206 | a debit goes through exactly if the balance covers it, and takes its amount from that account alone |
| Ledger.DebitTotal | network/trustee.go:198-206 | a successful debit takes its amount from the sum of balances |
| Ledger.ReadReward | network/trustee.go:222-257 | whatever the order of the parameters, accepts exactly the operation with the right account and award and nothing else |
| Ledger.PaidTotal | network/trustee.go:208-295 | the first n rewards raise the sum of balances by 1000000 plus 200000 per uncle |
| Ledger.PaidBalances | network/trustee.go:251-293 | after the miner's reward and those of the first n uncles every account holds what it held, plus 1000000 if it is the miner's, plus 200000 for each of these uncles it belongs to, modulo 2^64 |
| Ledger.PaidExactly | network/trustee.go:251-293 | and without wrap-around while the sum of balances stays below 2^64 |
| Ledger.BuildRewardOps | network/trustee.go:101-119 | the miner's award first, then one award per uncle in order |
| Ledger.BuiltIsAccepted | network/trustee.go:101-134 | what a miner builds is accepted by every peer with the same uncle miners, if and only if no address is empty |
| Ledger.OnlyBuiltIsAccepted | network/trustee.go:208-295 | operations are accepted if and only if no address is empty and they carry exactly the parameters a miner would give them |
| Ledger.CandidateRewards | network/trustee.go:101-155 | the rewards built for a candidate are the rewards due by the uncle miners another engine's validator lists for it, if and only if no address is empty |
| Ledger.RewardBlock.MiningRewardBalance | network/trustee.go:157-168 | the balance of an account, nothing for an unknown one |
| Ledger.RewardBlock.Credit | network/trustee.go:171-195 | adds to the balance with 64-bit wrap-around |
| Ledger.RewardBlock.Debit | network/trustee.go:198-206 | takes from the balance, or refuses and changes nothing if it is too low |
| Ledger.RewardBlock.PayUncle | network/trustee.go:260-292 | credits the uncle's reward exactly when the operation is the reward due, and otherwise changes no balance |
| Ledger.RewardBlock.PayUncles | network/trustee.go:258-294 | credits the uncles' rewards in order up to the first wrong one |
| Ledger.RewardBlock.Process | network/trustee.go:208-295 | succeeds exactly on one miner award and one award per uncle in order; on a wrong operation exactly the rewards before it have been credited |
| Ledger.RewardBlock.VerifyMiningRewardTx | network/trustee.go:138-155 | accepts exactly signed transactions of the block's own miner with the rewards due; a rejected one has credited exactly the rewards before the wrong operation, if it got that far |
| Ledger.MoveTotal | network/trustee.go:171-206 | rewards raise the sum of balances by what they mint, transfers leave it as it is |
| Ledger.TransferMoves | network/trustee.go:171-206 | a transfer the source can pay moves the amount to the target, modulo 2^64, and any other changes nothing |
| Ledger.RunConserves | network/trustee.go:171-295 | over any run of rewards and transfers the balances add up to what was there and what was minted, while that is below 2^64 |
| FixedBytes.DecodeEncode | core/types.go:58-62 | a number below 256^k written as k bytes reads back as itself |
| FixedBytes.EncodeDecode | core/types.go:26-28 | bytes read as a number write back as themselves |
| FixedBytes.DecodeLeads | core/types.go:26-28 | the first byte is the most significant one |
| FixedBytes.MostSignificantFirst | core/types.go:58-62 | a number's eight bytes come most significant first |
| FixedBytes.CopyBytes | core/types.go:42-50 | copies what fits and leaves the rest of the buffer alone |
| FixedBytes.BytesToByte8 | core/types.go:52-56 | the first eight bytes, zero-filled on the right |
| FixedBytes.FitsFront | core/types.go:42-56 | longer strings lose what is behind the eighth byte, shorter ones gain zeros behind their end |
| FixedBytes.Uint64RoundTrip | network/trusteeTransactions.go:36-64 | a balance written to bytes and read back is the same balance |
| FixedBytes.Byte8RoundTrip | core/types.go:22-28 | eight bytes read as a number and written out are the same bytes |

## Left out

- The p2p server, handshake, message encoding, peer registration and broadcast: plumbing around libraries.
- The block producer's timers and channels, and starting, suspending and stopping it.
- Progress of block sync after the rewind: a batch can be taken up by uncles alone, so the code has no simple argument for it.
- The transaction trie and the nodes under transaction roots: the live path is the flat transaction table, so a transaction root is only its tombstone.
- The checks of the platform around a received block that do not reach the engine: the least number of transactions, and running the application's callback, whose result is the block's pending writes.
- `AddTransaction`, `clone` and the getters: a block's transactions are given with it, and copies are values.
- The search distance recorded with an uncle: nothing reads it.
- The older copy of the DAG under core/chain, the demo protocols, configuration, logging and the command line.
- ECDSA signatures: a parameter says whether a reward transaction is signed.
- Chain nodes and trie nodes are values, not objects: every read decodes a fresh copy and every write stores one, so copies are never shared. The in-memory root node of a world state is a field that is reassigned.
- The order of a node's children and of the uncles found is left open by the contracts; only their contents, without repetition, are stated.
- Consensus.BlockChainConsensus.AcceptNetworkBlock: does not cover a block without hash whose proof of work fails again, because the code then follows a nil pointer.
- Consensus.BlockChainConsensus.MineCandidateBlock: covers local blocks, which is what the interface hands out for mining.
- Runs.Undisturbed: runs are followed up to a missing-state error, not past it.
