# A verified model of an SPV Bitcoin Cash wallet

The wallet keeps block headers instead of blocks, asks peers for merkleblocks, and records only
the transactions that concern its own keys. This project models the parts of it that have to be
right for that to be safe, and proves what they promise:

| files | models |
|---|---|
| `MerkleTree.dfy`, `MerkleBlock.dfy` | the partial Merkle tree checker: an explicit stack over positions in a uint32, proved equal to a recursive parser, which is proved sound and complete |
| `Ledger.dfy`, `Cascade.dfy`, `Ingestion.dfy`, `LedgerTheorems.dfy`, `IngestMeaning.dfy`, `TxStore.dfy` | the transaction store: coins, spends and records, double-spend eviction, the dead-transaction cascade and reorg undo |
| `Headers.dfy`, `ChainRules.dfy`, `Difficulty.dfy`, `WindowWork.dfy`, `Acceptance.dfy`, `Locator.dfy`, `Blockchain.dfy` | the header chain: commits, best tip, common ancestor, block locator, and the difficulty rule of the 13 November 2017 hard fork |
| `HeaderDB.dfy`, `CachedChain.dfy` | the bounded header cache in front of background writes, and the chain over it |
| `WireService.dfy` | the message handlers that join the three engines |
| `TxAuthor.dfy`, `KeyManager.dfy` | the fee loop and the key look-ahead window |
| `Types.dfy`, `Bits.dfy` | shared types; uint32 and bitwise arithmetic |

`dafny verify dfyconfig.toml` checks all of it. The stateful parts are classes or loops as in the
source; each method is proved against a function of the old state, and the theorems are about
those functions. Where such a function decides something by cases, a lemma states its result row by
row or as an if and only if, in terms of the inputs alone (`IngestMeaning.dfy`, `Acceptance.dfy`).

Functions outside the repository are parameters: the node hash and the block hash, the compact-bits
codec, child key derivation, coin selection, fee and dust formulas, script ownership. What is assumed
of them is stated where it is used: the node hash is collision free (soundness of the Merkle checker
only); the block hash is collision free and has no cycles; a txid names one transaction, and the
spend graph has no cycles; valid external and internal child keys never run out. Clocks and the currency test of the wire
service are nondeterministic, and so is the order in which SQL returns rows and maps are iterated.

## What the model shows about the code

- `GetBlockLocator` does not always end at the checkpoint: the last step is dropped when it would
  overshoot (blockchain.go:315-318). It ends there exactly when the chain's length is one of the
  locator depths; `LocatorMissesCheckpoint` commits ten headers and gets a locator that does not.
- `Ingest` can lower a positive recorded height: a confirmed rival evicts a confirmed record although
  the comment speaks of unconfirmed ones (txstore.go:234-237). `PositiveHeightChangesIff` gives the
  exact condition, `ConfirmedRecordCanBeEvicted` a run from a fresh store.
- A record undone by `markAsDead` or `processReorg`, descendants included, keeps its old height in
  memory. If that is positive, as it is for every record that was confirmed, confirming it again is
  ignored until the heights are reloaded; if it is not, confirming is not ignored (txstore.go:217-222
  and 485): `UndoneIsIgnoredIff`.
- `Ingest` puts outputs as coins without looking at the recorded spends (txstore.go:259-283). Coins and
  spends stay disjoint exactly when no such output is recorded as spent (`IngestedIsDisjointIff`);
  `ConfirmingRevivesSpentCoin` is a run of three ingestions that leaves one outpoint in both tables.
- `treeDepth` does not halt for more than 2^31 transactions (mblock.go:43): `TreeDepthDiverges`.
- `calcDiffAdjust` divides by zero exactly when the work of the window, times 600, is less than its
  clamped duration (`PanicIff`). Headers up to Check2 are not checked, so 147 of them without work, the
  last of them Check2 if there is one, lead to it (`WorklessRunPanics`); for a parent 150 or more above
  the checkpoint it cannot happen (`NoDivisionByZero`). With a Check2 all headers below it are the same
  in every run, and enough work among them in one run rules it out in all (`Check2RulesOutPanic`).
- The testnet exception was meant for blocks 20 minutes late, but adds 1200 nanoseconds to the parent's
  time (blockchain.go:186), so it applies to every header later than its parent by a second
  (`TestnetAcceptedIff`).
- A genuine merkleblock whose header is refused as invalid, or is the tip already, still has its
  transactions asked for, as unconfirmed (eight333.go:479-491): stated by `ProcessBlock`.
- Background writes may finish in any order, and an older best header written after a newer one stays
  as the tip on disk, where a restart finds it (headers.go:117-122 and 154-160): `TipLostIff`,
  `OvertakenWriteLosesTip`. In the order of their Puts they cannot (`InOrderTipSurvives`).
- The rollback in `handleHeadersMsg` never does anything: a failed commit reports height 0, and
  0 - 1 as a uint32 is above every tip but the last (eight333.go:372, blockchain.go:423-425):
  `FailedCommitRollsNothingBack`.
- `limitMap` ignores the type of `requestedTxns` (eight333.go:783-809), so no entry is ever evicted and
  the map outgrows every limit: `LimitMap`, `RequestTxids`, `RequestsOutgrowLimit`.
- Nothing ever enters the service's own `requestedBlocks` (only a peer's set, eight333.go:558 and 670),
  so the look-up at eight333.go:641 never finds anything: part of `Valid`, and stated by `Start`.

## Model

| member | source | states |
|---|---|---|
| MerkleBlocks.TreeDepth | mblock.go:42-46 | for up to 2^31 leaves the loop halts at the least depth whose complete tree holds them |
| MerkleBlocks.TreeDepthDiverges | mblock.go:42-46 | above 2^31 leaves no value of the uint8 counter ends that loop |
| MerkleBlocks.NextPowerOfTwo | mblock.go:49-51 | the result is the least power of two that is not below n, without overflow |
| MerkleBlocks.InDeadZone | mblock.go:54-67 | a tree position is dead exactly when its node covers none of the leaves; positions above the root are dead |
| MerkleBlocks.ParentPosition | mblock.go:144-145 | `pos>>1 \| msb` is the position of the parent node |
| MerkleBlocks.ChildPosition | mblock.go:149-151 | `(pos^msb)<<1` is the position of the left child, in 32 bits |
| MerkleBlocks.SiblingPosition | mblock.go:146-148 | `pos \| 1` is the right sibling of a left node and leaves a right node alone |
| MerkleBlocks.Scan | mblock.go:90-175 | the stack loop halts, stays inside the stack and gives the verdict, ids and error of the recursive parser |
| MerkleBlocks.CheckMBlock | mblock.go:73-177 | for every message the result or error is that of the recursive parser; the nil-child and invalid-txid errors never occur |
| MerkleTree.TraverseGrows | mblock.go:153-166 | matched leaves are appended in increasing order and lie under the visited node |
| MerkleTree.AcceptedIdsAreLinked | mblock.go:73-177 | every accepted id has a Merkle branch of the tree's depth, at its leaf, to the header root |
| MerkleTree.AcceptedIdsAreTrue | mblock.go:73-177 | against the root of a block with that many ids, accepted ids are the true ids at increasing leaves, a subsequence of the block |
| MerkleTree.BranchEndsAtNode | mblock.go:12-33 | below a node of a block's tree every branch leads to a node of that tree, the one at its index if the level is that wide |
| MerkleTree.AcceptedIgnoresRest | mblock.go:90-175 | an accepted message stays accepted, with the same ids, whatever hashes and flags follow |
| MerkleTree.EmptyIsRefused | mblock.go:74-79 | a message without transactions, flags or hashes is refused for the first of them that is missing |
| MerkleTree.BuiltBlockReadsBack | mblock.go:73-177 | the message BIP 37 builds for any choice of leaves is accepted with exactly those ids in order if and only if no descended node has equal children, and fails as a duplicate otherwise |
| MerkleTree.DistinctSiblingsHaveNoTwins | mblock.go:13-16 | a block without equal sibling nodes meets that condition for every choice |
| Ledger.KillMeans | txstore.go:436-487 | killing a set closed under spends: nothing created or consumed in it is left, its records have height -1, coins taken from survivors are back unchanged, all other rows are untouched, and no row is invented |
| Ledger.WithoutIsUnique | txstore.go:436-487 | only one set of tables meets that description |
| Ledger.FinalMeans | txstore.go:436-487 | marking a transaction dead does this to it and its descendants |
| Ledger.DoomedIsLeast | txstore.go:462-470 | the dead set is the least one closed under recorded spends |
| Ledger.KillOneMore | txstore.go:489-509 | killing one more transaction after others equals killing them all at once |
| Cascade.Return | txstore.go:453-461 | giving a coin back leaves what remains to be done unchanged, although the snapshot may be stale |
| Cascade.Cut | txstore.go:462-470 | cutting a spend and killing its spender leaves what remains to be done unchanged, for fresh and stale rows |
| Cascade.CutStale | txstore.go:462-470 | where the snapshot is stale the spender is gone already and the step changes nothing |
| TxStores.TxStore.SweepCoins | txstore.go:472-484 | deletes exactly the coins the transaction created |
| TxStores.TxStore.MarkAsDead | txstore.go:436-487 | halts on every acyclic spend graph with the tables of `Final`: the transaction and all its descendants killed |
| TxStores.TxStore.ProcessReorg | txstore.go:489-509 | for every visiting order the tables end as if all records above the height were killed at once |
| TxStores.TxStore.CheckDoubleSpends | txstore.go:108-135 | lists exactly the other live records that spend an input of the transaction |
| TxStores.TxStore.EvictAll | txstore.go:229-238 | kills all double spends and their descendants, in whatever order they are listed |
| TxStores.TxStore.PutOutputs | txstore.go:254-310 | puts exactly the coins paying owned or watched scripts, and sums the owned ones |
| TxStores.TxStore.SpendInputs | txstore.go:311-358 | moves exactly the coins the inputs take from coins to spends, and sums the ones not watch-only |
| TxStores.TxStore.TouchSpend | txstore.go:360-378 | gives one spend of the transaction the new height, none at height 0 |
| TxStores.TxStore.PutRecord | txstore.go:380-403 | records a new transaction, raises a height that is not positive, keeps a positive one |
| TxStores.TxStore.PopulateAdrs | txstore.go:193-198 | the heights in memory become those of the records |
| TxStores.TxStore.Ingest | txstore.go:204-434 | the new tables and memory are those of `Ingested`, whose meaning the next rows give; the invariant is kept; a transaction without inputs, outputs or distinct inputs changes nothing; hits are reported exactly for a sane, not ignored, relevant transaction |
| IngestMeaning.KnownChangesNothing | txstore.go:215-222 | a transaction that memory knows as confirmed, or as unconfirmed when it comes unconfirmed, changes nothing |
| IngestMeaning.FirstSeenWins | txstore.go:224-233 | an unconfirmed transaction that shares an input with a live record changes nothing |
| IngestMeaning.SomethingIsTakenIn | txstore.go:224-238 | every other transaction is taken in, on the tables without its live rivals and their descendants |
| IngestMeaning.IngestedCoins | txstore.go:254-330 | the coins after: those before and the outputs to owned or watched scripts, without what the inputs take, each with its height, value, script and mark |
| IngestMeaning.IngestedSpends | txstore.go:311-378 | the spends after: coins taken get this height and spender; of those before only the picked spend changes, in its height; one is picked exactly when the transaction is confirmed and has a spend |
| IngestMeaning.IngestedRecord | txstore.go:380-403 | the records and memory after: only the record of a transaction that matters changes; an existing one keeps value, mark and a positive height; memory holds the heights of the records |
| IngestMeaning.IngestedIsWatchOnlyIff | txstore.go:380-390 | a new record is watch-only exactly when no owned script is paid, no owned coin taken, and no owned spend found |
| IngestMeaning.PaymentIsRecorded | txstore.go:380-403 | a confirmed payment to an owned script that memory does not know as confirmed is recorded at its height |
| IngestMeaning.IngestionConserves | txstore.go:229-393 | also with rivals evicted, a new transaction moves the balance of the evicted tables by exactly the value it records |
| Ingestion.IngestedKeepsInv | txstore.go:204-434 | ingestion keeps: no double spend among live records, acyclic spends, positive heights known in memory, rows owned by recorded transactions |
| Ingestion.EvictedHasNoDoubles | txstore.go:224-238 | after eviction no live record conflicts with the transaction |
| LedgerTheorems.StepKeepsInv | txstore.go:204-509 | ingesting, marking dead, undoing a reorg and reloading heights each keep the invariant |
| LedgerTheorems.ReachableHasNoDoubleSpend | txstore.go:108-135 | in every reachable state no two distinct records of height 0 or more spend the same outpoint |
| LedgerTheorems.PositiveHeightChangesIff | txstore.go:224-238 | a positive recorded height changes, to -1, exactly when the ingestion is not ignored and the record is or descends from a double spend |
| LedgerTheorems.ConfirmedRecordCanBeEvicted | txstore.go:229-238 | from a fresh store, a record ingested at height 100 is lowered to -1 by ingesting its rival at height 101 |
| LedgerTheorems.IngestedIsRecorded | txstore.go:380-403 | a transaction neither ignored nor irrelevant is recorded at exactly the height given, also in memory |
| LedgerTheorems.UndoneIsIgnoredIff | txstore.go:215-222 | a record undone by marking dead or a reorg, descendants included, has height -1; confirming it again is ignored, and changes nothing, exactly when its height in memory is positive, which it is if the record was confirmed; otherwise it is recorded at the new height if relevant; after reloading it is never ignored |
| LedgerTheorems.KillKeepsDisjoint | txstore.go:453-484 | marking dead, eviction and reorgs keep coins and spends disjoint |
| LedgerTheorems.IngestedIsDisjointIff | txstore.go:254-283 | ingesting keeps coins and spends disjoint exactly when it is ignored or no output it puts is recorded as spent |
| LedgerTheorems.ConfirmingRevivesSpentCoin | txstore.go:254-283 | a run from a fresh store after which a spent output is a coin again |
| LedgerTheorems.KillInOrderIsKill | txstore.go:494-507 | killing a list one by one is killing its set at once |
| LedgerTheorems.OrderDoesNotMatter | txstore.go:494-507 | two lists with the same members, in any order and with repetition, give the same tables |
| LedgerTheorems.ReorgMeans | txstore.go:489-509 | a reorg kills exactly the records above the last good height, read as an int32, and their descendants; every other record, coin and spend stays as it is |
| LedgerTheorems.ReorgLeavesNothingAbove | txstore.go:489-509 | no record stays above the last good height, and a second undo changes nothing |
| LedgerTheorems.FreshStoreIsFirstTime | txstore.go:42-59 | to a fresh store every transaction with distinct inputs comes for the first time |
| LedgerTheorems.FirstIngestionConserves | txstore.go:254-393 | a first, conflict-free ingestion moves the total of coins that are not watch-only by exactly the value it records |
| LedgerTheorems.FirstIngestionUndone | txstore.go:436-487 | marking it dead at once restores coins and spends entry for entry |
| Headers.BackInTree | headers.go:238-266 | lookups of previous headers succeed exactly down to the checkpoint, lose one height each and never gain work |
| Headers.TotalWorkIsPathWork | blockchain.go:101-102 | total work is the sum of the work of the headers on the path from the checkpoint |
| Headers.ChildKeepsTree | blockchain.go:119-125 | storing a header under its parent keeps the tree and changes no stored record |
| ChainRules.MidOfThree | timesorter.go:47-52 | the block chosen of three has the median timestamp |
| ChainRules.VerdictIsStable | blockchain.go:132-180 | rechecking a header on any later store gives the same verdict, and the 146-deep lookups never fail |
| ChainRules.CommitKeepsInv | blockchain.go:69-130 | a commit keeps the tree, a stored tip and the validity of every stored header, and only adds records |
| ChainRules.CommitKeepsBest | blockchain.go:104-107 | the tip stays the first-seen header of maximal work |
| ChainRules.CommitsKeepInv | blockchain.go:69-130 | from any sound chain, committing a list of headers keeps the invariant and the best tip and only adds records |
| ChainRules.EveryRunIsSound | blockchain.go:69-130 | both hold after every sequence of commits from a fresh checkpoint |
| ChainRules.RunMeans | blockchain.go:52-130 | in every run a stored header is its height above the checkpoint, carries the work of its path, and has no more work than the tip |
| ChainRules.MainnetHeadersFollowTheRule | blockchain.go:132-201 | in every mainnet run a header more than 147 above the checkpoint descends from Check2, meets its target and has the bits the rule gives over its own ancestors |
| ChainRules.TestnetHeadersFollowTheRule | blockchain.go:132-180 | in every testnet run such a header descends from Check2 and meets its target; its bits are bounded only where the rule or the exception gives the easiest target |
| WindowWork.PanicIff | blockchain.go:487-516 | checking a header divides by zero exactly when the rule applies to it and the window's work times 600 is below its clamped duration |
| WindowWork.NoDivisionByZero | blockchain.go:501-509 | never for a parent 150 or more above the checkpoint, because the window then ends in checked headers |
| WindowWork.SameHeaderSamePath | blockchain.go:101-125 | a header has the same record and the same ancestors in every store that holds it |
| WindowWork.Check2PinsPath | blockchain.go:135-145 | with a Check2, all headers above it, in any two runs, share their ancestors from there down |
| WindowWork.Check2RulesOutPanic | blockchain.go:132-145 | if that one path carries work of 288 between blocks 5 and 145, no header in any run divides by zero, at any height |
| WindowWork.StackIsCommitted | blockchain.go:132-145 | up to 147 headers of any one difficulty are all committed, with their heights and work, and become the best chain if they carry work |
| WindowWork.WorklessRunPanics | blockchain.go:487-516 | after 147 headers without work a header held to the rule divides by zero, unless the testnet exception lets it pass |
| ChainRules.FirstMeetIsHighest | blockchain.go:351-366 | the first equal pair met stepping both branches down is the highest common ancestor |
| ChainRules.StepDown | blockchain.go:357-364 | while the branches differ both lookups succeed |
| Blockchains.Blockchain.constructor | blockchain.go:52-65 | a fresh chain holds the checkpoint with no work as its tip |
| Headers.ParentOf | headers.go:238-241 | in every tree the lookup of a previous header fails for the checkpoint alone, and otherwise finds the record one lower and with the header's work less |
| Blockchains.Blockchain.Rollback | blockchain.go:327-335 | the record exactly n lookups back, or none if one of them fails |
| Blockchains.Blockchain.GetEpoch | blockchain.go:224-247 | the median of the records 144, 145 and 146 back |
| Blockchains.Blockchain.GetSuitableBlock | blockchain.go:250-265 | the median of the record and the two behind it |
| Blockchains.Blockchain.CalcRequiredWork | blockchain.go:184-201 | the bits of the difficulty rule, the testnet exception, or the failure, as the next rows spell out |
| Acceptance.MidOfThreeIsSorted | timesorter.go:47-52 | the block chosen is the middle one after an insertion sort with the source's comparison, ties included |
| Acceptance.WindowBitsMean | blockchain.go:487-516 | the bits are the compact form of (2^256 - w) / w, at most the limit, for the projected work w of the window |
| Acceptance.UniformWork | blockchain.go:101-102 | n headers of one target carry n times its work |
| Acceptance.SteadyChain | blockchain.go:487-516 | on a chain with 144 blocks of target T in a day the bits asked for stand for T up to T + T(T+1)/(2^256-T) |
| Blockchains.Blockchain.CheckHeader | blockchain.go:132-180 | the verdict of the validity rule on this store, as the next rows spell out |
| Acceptance.UncheckedAcceptedIff | blockchain.go:132-145 | up to 147 above the checkpoint a header is accepted unless it stands where Check2 should |
| Acceptance.MainnetAcceptedIff | blockchain.go:147-180 | above, a mainnet header is accepted if and only if it links to its parent, has the bits of the rule, and its hash is at most its target, which is positive and at most the limit |
| Acceptance.TestnetAcceptedIff | blockchain.go:147-201 | the same for testnet, where bits are only bounded, and only where the easiest ones are asked for |
| Acceptance.RegtestAcceptedIff | blockchain.go:147-180 | the same for regtest, without the bits |
| Acceptance.RuleAbidingIsCommitted | blockchain.go:69-180 | in every mainnet run a header that follows the rule over its ancestors is stored, one above its parent |
| ChainRules.OnBranchAtOwnHeight | blockchain.go:337-356 | a header already on the other branch is met at its own height, before any step down |
| Blockchains.Blockchain.GetCommonAncestor | blockchain.go:325-366 | halts without a lookup error at the stored record of the highest common ancestor; a header already on the other branch is handed back as it came |
| Blockchains.Blockchain.CommitHeader | blockchain.go:69-130 | the new chain is that of `Commit`; exactly when the header is an orphan, refused, already the tip, panics or is stored; the height reported, 0 unless stored; new tip and common ancestor |
| Blockchains.Blockchain.ResetTip | eight333.go:532-537 | the tip becomes the stored header given and the store does not change |
| Blockchains.Blockchain.GetBlockLocator | blockchain.go:286-322 | entry k is the hash `Depth(k)` below the tip, for every depth on the chain; the cap is out of reach; the list ends at the checkpoint exactly when the chain's length is some `Depth(k)`, and so not on ten blocks |
| Blockchains.LocatorMissesCheckpoint | blockchain.go:315-318 | ten committed headers of any difficulty that carries work give a locator that does not end at the checkpoint |
| Blockchains.LastDepth | blockchain.go:303-320 | a length between two successive depths is a depth only if it is the first of them |
| Locators.DepthStep | blockchain.go:303-320 | depths 9(2^(k/9)-1) + (k mod 9)2^(k/9) grow by 2^(k/9) |
| Locators.CapIsOutOfReach | blockchain.go:312-314 | entry 499 is deeper than any 32-bit height |
| Locators.NextEntryIsNear | blockchain.go:303-320 | the first entry at or past a depth overshoots it by at most a ninth |
| Locators.NextEntry | blockchain.go:303-320 | every depth has such an entry |
| Difficulty.CalcWork | blockchain.go:102-102 | the quotient of 2^256 and the target plus one, bounded on both sides; positive exactly for targets from 1 to 2^256 - 1 |
| Difficulty.Clamp | blockchain.go:492-499 | of all durations between 72 and 288 spacings, the one nearest to the time elapsed |
| Difficulty.ProjectedWorkBounds | blockchain.go:494-503 | any timestamps project between a 288th and a 72nd of the work |
| Difficulty.TargetFallsWithWork | blockchain.go:489-516 | more work never raises the target, which is at most the limit |
| Difficulty.TargetRisesWithTime | blockchain.go:489-516 | more elapsed time never lowers the target |
| Difficulty.SteadyStateHoldsTarget | blockchain.go:489-516 | 144 blocks of target T in a day give a target from T to T + T(T+1)/(2^256-T) |
| HeaderDBs.PoppedIsOnDisk | headers.go:431-447 | what a timely Put pushes out of the cache has been written |
| HeaderDBs.LateWriteLosesOldest | headers.go:439-447 | a Put that overflows the cache loses the oldest key exactly when it is not written yet |
| HeaderDBs.LookupsAgreeWithPlainMap | headers.go:110-163 | in every interleaving of timely Puts and writes a lookup agrees with an unbounded map, and the cache holds at most CACHE_SIZE+1 entries |
| HeaderDBs.HeaderDB.SetCache | headers.go:431-447 | pops the oldest entry of a full cache, then sets; a key already there keeps its place |
| HeaderDBs.PutKeepsPlaces | headers.go:431-447 | the oldest key leaves exactly when more than CACHE_SIZE are there; the others keep order and values, and the key put comes last unless it is one of them |
| HeaderDBs.TipLostIff | headers.go:140-163 | a finished write leaves an outdated tip on disk exactly when it carries a best header other than the newest and the newest is written already |
| HeaderDBs.InOrderTipSurvives | headers.go:268-291 | if writes finish in the order of their Puts, a restart with no best header pending finds the best header it had |
| HeaderDBs.OvertakenWriteLosesTip | headers.go:110-163 | a run with every write finished in which a restart finds the older of two best headers |
| HeaderDBs.HeaderDB.Put | headers.go:110-124 | whatever is pending: caches the header, starts its write, and makes it the cached best if asked; nothing is lost if the Put is timely and gives its hash one value |
| HeaderDBs.HeaderDB.PutToDB | headers.go:140-163 | a finished write is in the header bucket, and in the tip bucket if it was of a best header; nothing is lost |
| HeaderDBs.HeaderDB.GetHeader | headers.go:243-266 | the value in the cache or on disk: that last put for the hash, or none, while nothing is lost |
| HeaderDBs.HeaderDB.GetBestHeader | headers.go:268-291 | the cached best header, or the tip on disk; while writes finish in order and none of a best header is pending, that is the tip on disk |
| CachedChain.StepKeepsJoined | blockchain.go:119-125 | commits and tip resets put one value per hash: each keeps the database's contents equal to the chain's store, and its best header equal to the tip |
| CachedChain.DatabaseIsChainStore | blockchain.go:69-130 | in every run of commits, resets and background writes, lookups through cache and disk find exactly what the chain's plain map holds |
| WireServices.VerdictMeans | eight333.go:443-448 | the checker accepts exactly the genuine messages, and hands back their ids |
| WireServices.AcceptedIsProven | eight333.go:443-491 | ids of an accepted merkleblock are linked to the root of its header once that is stored, by a branch of at most 31 levels from one of its leaves |
| WireServices.ProvenIsInBlock | eight333.go:443-491 | a proven id is a node of a block at that height if the branch is no longer than the block's tree is deep, and one of its transactions, at its leaf, if it is as long |
| WireServices.IngestedHeights | txstore.go:394-403 | a positive recorded height is the one just ingested or the one it had |
| WireServices.WireService.UpdateFilter | eight333.go:733-742 | heights in memory are those of the records again, so a record is ignored only if confirmed, or unconfirmed and seen as such; the tables stay |
| WireServices.WireService.BestCandidate | eight333.go:232-255 | the candidate found reports a positive height, at least the chain's and as much as any candidate; if none is found no candidate reports a positive height; exactly those behind are candidates no more |
| WireServices.WireService.StartSync | eight333.go:219-286 | with enough peers the one given, or the best candidate, becomes the sync peer, and without one the sync peer stays; candidates behind the chain lose their mark; with too few nothing changes |
| WireServices.WireService.HandleNewPeer | eight333.go:174-188 | the peer starts with nothing asked of it, heights are reloaded, and a missing sync peer is replaced by the best candidate exactly if the chain is not current and there are enough peers |
| WireServices.WireService.HandleDonePeer | eight333.go:308-338 | exactly that peer is forgotten, what was asked of it may be asked again, and if it was the sync peer and the chain is not current the best candidate replaces it |
| WireServices.WireService.HandleHeaders | eight333.go:342-400 | the chain is that of committing, in order, the headers before the first one the wallet may care about or that panics, and only from the sync peer; after an error the rollback deletes nothing |
| WireServices.FailedCommitRollsNothingBack | eight333.go:371-374 | an outcome that stored nothing reports 0, and a rollback to 0 - 1 in 32 bits deletes nothing, exactly for a tip below 2^32 - 1 or at the checkpoint |
| WireServices.WireService.CommitHeader | eight333.go:450-479 | a commit keeps everything proven so far, and reports the height at which the header is stored |
| WireServices.WireService.RequestTxids | eight333.go:486-491 | each id is asked for at the height of its block, and every other request, of this peer and in all, stays |
| WireServices.LimitMap | eight333.go:783-809 | a full map of one of two types loses one entry; a map of requests is never changed |
| WireServices.RequestsOutgrowLimit | eight333.go:486-491 | asking for more different ids than any limit leaves more requests than the limit |
| WireServices.WireService.Reorganize | eight333.go:525-543 | the records are those of the reorg, none above the common ancestor, which becomes the tip; only this peer's queue and blocks are cleared |
| WireServices.WireService.AcceptBlock | eight333.go:480-563 | the block's ids are asked for at the height reported, the peer's score, queue and height follow, the mempool is cleared by a new tip, and a reorg is carried out exactly if there is one and the chain looks current |
| WireServices.WireService.FinishBlock | eight333.go:525-563 | the reorg, and the next block of the queue if the chain is not current |
| WireServices.WireService.ProcessBlock | eight333.go:443-491 | a genuine block is committed, a reorg carried out if current, and its ids asked for at its height, or as unconfirmed if its header is refused or the tip; one that is not genuine changes nothing |
| WireServices.WireService.HandleMerkleBlock | eight333.go:404-564 | a block that was not asked for, or comes while not current and not from the sync peer, changes nothing; one that is not genuine is only asked for no longer; a genuine one is processed as above; other peers stay |
| WireServices.WireService.Announce | eight333.go:618-657 | a transaction is asked for exactly when it is announced, neither asked for nor seen before, and the batch has room; a block is queued exactly when the chain looks current, or it is unknown and the queue was empty; nothing else changes |
| WireServices.WireService.HandleInv | eight333.go:568-675 | a peer that is not heard changes nothing; otherwise exactly new announced transactions are asked for, as unconfirmed, only announced blocks queued, of which the first may be asked for, with an empty queue every unknown one and the first of them asked for, and its height is that of the last announced block if known and current |
| WireServices.WireService.NoteHeight | eight333.go:580-610 | the last announced block, if known, gives the peer's height |
| WireServices.WireService.HandleTx | eight333.go:677-716 | a transaction asked of that peer is ingested, once, at exactly the height that came with the request; a positive height comes with a header stored at it and a Merkle branch from the txid to its root; any other changes nothing |
| WireServices.WireService.ConfirmOne | eight333.go:404-716 | an id of a committed block, sent after it, is ingested at that block's height, and recorded at it if it pays the wallet and is not known as confirmed |
| WireServices.WireService.HandleUpdateFilters | eight333.go:744-749 | heights are reloaded if there is a peer |
| WireServices.WireService.Start | eight333.go:130-163 | every message is handled, in order; afterwards every record with a positive height has such a proof, no header was lost, and the service's own set of requested blocks is empty |
| TxAuthors.PartIsAtMostWhole | sortsignsend.go:632-634 | selected coins are worth no more than the wallet |
| TxAuthors.InputSource | sortsignsend.go:622-654 | the total and inputs are those of the selected coins; a script is kept for each, a value and a key exactly where the key can be derived, and nothing from elsewhere |
| TxAuthors.TargetAmount | sortsignsend.go:709-712 | the sum of the outputs |
| TxAuthors.AddChange | sortsignsend.go:734-763 | inputs = outputs + change + fee; change is added exactly when more than dust is left over, to the change script, and then the fee is exactly the needed one; a missing or too big script is an error only then |
| TxAuthors.Payment | sortsignsend.go:659-676 | the outputs are the amount to its script and, after it, the optional output |
| TxAuthors.NewUnsignedTransaction | sortsignsend.go:707-765 | each retry follows a selection that covers the fee tried but not the one it needs itself; with bounded funds the loop halts within that bound; every result balances and every error has its cause |
| TxAuthors.BuildTx | sortsignsend.go:604-672 | a dust amount is refused, and nothing else for that reason; otherwise, with the wallet's own coins as source, the loop halts, the result pays the amount and balances, and every error has its cause at the last fee tried |
| KeyManagers.WindowMeans | db/keys.go:223-241 | the window is the stretch of unused keys after the last used one |
| KeyManagers.RowAdded | keys.go:137-138 | a fresh row widens its purpose's window by one and keeps indexes rising with gaps only where derivation fails |
| KeyManagers.Marked | db/keys.go:61-83 | exactly the rows of the script become used, and nothing else changes |
| KeyManagers.MarkedGapless | db/keys.go:61-83 | marking a key used changes neither indexes nor order |
| KeyManagers.NoKeyIsSkipped | keys.go:115-143 | indexes rise, each row's key can be derived, and every derivable index up to the newest has its row |
| KeyManagers.KeyManager.Put | db/keys.go:22-40 | appends an unused row unless the script is already there |
| KeyManagers.KeyManager.NextIndex | db/keys.go:85-105 | one past the newest index of the purpose, or 0 |
| KeyManagers.KeyManager.GetFreshKey | keys.go:115-143 | adds the row of the first derivable index after the newest, with that key's address, exactly if it has one that is not in the table |
| KeyManagers.KeyManager.GetLookaheadWindow | db/keys.go:218-245 | the number of unused keys at the end of a purpose |
| KeyManagers.KeyManager.Fill | keys.go:247-255 | the window reaches LOOKAHEADWINDOW with exactly the missing keys, and the other purpose is untouched; it fails only at a key that cannot be added |
| KeyManagers.KeyManager.Lookahead | keys.go:245-258 | both windows are full, in either order of filling, or the next key of one purpose cannot be added |
| KeyManagers.KeyManager.MarkKeyAsUsed | keys.go:229-234 | only the key's mark changes in existing rows; both windows are full again or the next key of one cannot be added |
| KeyManagers.KeyManager.NewKeyManager | keys.go:20-35 | both windows are full or the next key of one cannot be added, and existing rows are kept |

## Left out

- The gRPC API, CLI, GUI, exchange rates, Tor, peer management, SQL and bolt plumbing, listeners, logging and mutexes: wrappers and I/O.
- Signatures, scripts, key derivation, bloom filters, compact bits, coin selection, dust and fee formulas: functions passed in, not modelled.
- Database and SQL errors: every table operation succeeds, apart from the primary key of the key table.
- Timestamps of records, `time.Now` and the block time passed on to callbacks: they decide nothing in the tables.
- New keys found while ingesting: the scripts the wallet owns are fixed, so the key marking at txstore.go:266-267 has no effect on them.
- The balance after a confirming re-ingestion: the theorems on it speak of new transactions, since coins and spends may then overlap.
- Heights above 2^32 and int64 overflow of values: numbers are unbounded except where uint32 positions, int32 heights and flag bytes matter.
- Filling the cache from an existing database, `Rollback`, `DeleteAfter`, `Prune`, and what `RollbackToHeight` deletes past its guards: headers are only added.
- Sorting and signing the authored transaction: signatures are outside the model, and sorting only permutes inputs and outputs.
- Size estimates: the fee is a function of the number of inputs.
- Merkleblocks with flags that claim more than 2^31 transactions: the source does not halt on them, so `CheckMBlock` and `HandleMerkleBlock` ask for no more.
- Replies to peers, getdata batches and disconnects: outgoing messages decide nothing in the model's state.
- Orphan handling in the wire service: the source compares with an error value that is never returned (eight333.go:455), so only the plain error branch is reachable.
- `CalcMedianTimePast`, `GetNPrevBlockHashes`, `GetPendingInv` and the other read-only queries: they would only add easy members.
