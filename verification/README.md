# A verified model of the Cryptonite node's stateful cores

Cryptonite is a mini-blockchain node: balances live in an account trie, old blocks can be dropped, and the
rest is a Bitcoin-style peer. This project models the parts of the node whose correctness spans several
operations and proves what they promise, in Dafny 4.11. `dafny verify dfyconfig.toml` checks everything.

What is modelled, module by module:

- **AddrMan\*** — the address manager. `AddrManState` is its tables and the consistency conditions,
  `AddrManSteps` the effect of each elementary change on them, `AddrMan` the class with its operations,
  `AddrManCheck` the manager's own consistency check, `AddrManRuns` whole runs, `AddrManLaws` what an address heard
  of and a success change, `AddrManBuckets` the sizes of the new buckets, `AddrManGroups` the share of a group in the
  tried table, `AddrManDisk`, `AddrManStorage`, `AddrManRoundTrip` and `AddrManRebucket` saving and loading. What a
  caller can see of the manager is its *view*: for each address its fields, whether it is tried, and the set of new
  buckets that list it.
- **Merkle, PartialMerkle, PartialMerkleTree** — the flat Merkle tree of a block, branches, and partial trees
  with their bits packed to bytes. The hash is an arbitrary function of two hashes; soundness theorems assume
  only that the pairs actually hashed do not collide.
- **CheckQueue, CheckQueueObject** — the script verification queue: first as a state machine whose steps are
  the critical sections of the master and any number of workers, then as the object whose critical sections
  are those steps.
- **TxIndex, TxIndexSteps, TxIndexNode, TxIndexRuns** — the transaction index beside the active chain, under
  accepting, connecting, disconnecting and purging blocks: as a state machine with its runs, and as the object
  whose methods are its steps.
- **Chain, Locator** — the active chain as an indexed vector, forks, and block locators.
- **BlockLinks** — linking a loaded block index to its parents.
- **MedianTime** — the median time past and the timestamp rule.
- **Radix, Base58Coder, Base58** — digit buffers, the coder over any alphabet, and the Base58 alphabet.
- **NetMessage** — reassembling protocol messages from a byte stream, and sending them.
- **BlockTemplate** — choosing the transactions of a new block.
- **BlockCache** — the cache before the block and undo files.
- **PageLocks** — stacking memory locks.

Results worth knowing before reading the code:

- The address manager's own check fails after a success at time zero of a known service, and after an attempt at a
  negative time; `GoodPasses` and `AttemptPasses` say that it passes exactly otherwise. Nothing else can break it.
- For every hash, key and grouping of addresses, a group reaches at most four tried buckets, so in every state of every
  run at most 4 * 64 addresses of a group are tried (`GroupReach`, `RunGroups`).
- The manager's check passes exactly if the conditions listed in `CheckMeans` hold; it does not look at the sizes of
  buckets, at which bucket an entry is in, or for addresses without an entry.
- Making room for a success is meant to evict the stalest of four sampled entries, but the place returned is the one
  that entry was drawn from, which by then may hold another. `SelectsStalest` says that no draws can choose an entry
  with a later success exactly if all entries of the bucket have the same last success; `SelectMisses` chooses one in
  a full bucket. `Evict` and `MakeTried` state that the entry at the place so chosen is the one that is evicted.
- A file written with another number of new buckets is read without any bound on the buckets. `Rebucketed` says, for
  every such file, exactly when the tables are then consistent and exactly when no bucket is overfull. Whatever the
  hash, the key and the grouping of addresses, a source group reaches few buckets, so enough of its addresses overfill
  one (`OverfullGroup`, `OverfullSource`), and there is such a file (`Overfull`). Adding shrinks a bucket only when it
  is exactly full, so an overfull one is never shrunk by adding (`OverfullStays`), while no run that starts without
  one gets one (`RunSized`).
- The comment that a partial Merkle tree has at most 2N - 1 flag bits for N hashes is wrong at odd row ends.
  `BitsBeyondBound` is the counterexample and `BitsWithinBound` says exactly when the comment is right.
- The transaction index prevents a second inclusion in every state of every run from a fresh node in which no
  block is connected below the height of an earlier purge (`NeverTwice`). `Replay` exhibits, for every lower
  connect height from two on, a run from a fresh node that keeps to this until its last step and then includes a
  payment twice, so the condition cannot be weakened. The run takes off only blocks whose file the purge has kept,
  and its rival block was accepted before the sync point passed it.
- Waiting for the verification queue ends, with the right verdict, in every run in which each thread inside acts
  again and again (`WaitEnds`); the timed wait of the threads is what makes the runs of the code such runs.
- `IsFinalTx` adds the history length to an unsigned lock height; `FinalWindow` shows that the possible
  wrap-around never changes the answer.
- The genesis block is never connected: it is made the tip directly, and connecting it would be refused because
  its parent hash is not in the index. The model starts from it for that reason.
- Linking never gives a loaded block a transaction count, because the genesis block has none (`ChainTxStays`).
- The two counts that a partial Merkle tree is refused for before it is read refuse nothing that would be accepted
  without them (`AcceptsExactly`), and nothing can be appended to one that is accepted (`NothingSpare`).
- A transaction of the pool that passes every check is left out of a template only if the eligible ones before it may
  have used up an account or the block has no room left (`CreateNewBlock`).
- Filling a block template keeps a limit transaction from following a spend of its account, but not a spend from
  following a limit. `FillRule` says exactly when the filling breaks the rule for blocks: when two candidates, a
  limit and a spend of one account, both pass and fit. Such a template never leaves `CreateNewBlock`, because the
  trial connect applies the rule.

Times, randomness, clocks, the network, the disk and the answers of other parts of the node are parameters or
arbitrary choices. Hashes name what they hash. Integers are unbounded unless a width is written out.

## Model

| member | source | states |
|---|---|---|
| AddrMan.AddrMan.constructor | src/addrman.h:383-391 | an empty manager is consistent |
| AddrMan.AddrMan.Find | src/addrman.cpp:83-94 | an address is found exactly if it is known, with the id it is stored under |
| AddrMan.AddrMan.Create | src/addrman.cpp:96-106 | the whole new state: a fresh id, the entry, its address and its place at the end of the random order |
| AddrMan.AddrMan.SwapRandom | src/addrman.cpp:108-126 | two places of the random order are exchanged together with the positions their entries record |
| AddrManSteps.SwappedOk | src/addrman.cpp:108-126 | such a swap keeps every consistency condition and changes nothing a caller can see |
| AddrMan.AddrMan.SelectTried | src/addrman.cpp:128-150 | up to four places drawn are swapped to the front of the bucket, and the place is returned from which the stalest of them was drawn |
| AddrManSteps.SelectsStalest | src/addrman.cpp:132-149 | for every bucket of at least four entries: whatever is drawn, the place returned holds an entry as stale as the stalest sampled exactly if all last successes in the bucket are the same, and otherwise some draws return one with a later success |
| AddrManSteps.SelectMisses | src/addrman.cpp:128-150 | a full bucket and draws for which an entry with a later success than the stalest sampled is returned |
| AddrMan.AddrMan.ShrinkNew | src/addrman.cpp:152-204 | removes one entry of the bucket: the first in order of id not worth keeping if there is any, otherwise the oldest of four sampled places; the result code says which |
| AddrMan.AddrMan.FindTerrible | src/addrman.cpp:157-175 | finds an entry of the bucket not worth keeping exactly if one exists, the first in order of id |
| AddrMan.AddrMan.Delete | src/addrman.cpp:164-171 | the entry disappears from every table, its place in the random order taken by the last one |
| AddrMan.AddrMan.Unlist | src/addrman.cpp:164-172 | the entry leaves one bucket and is deleted exactly if that was its last |
| AddrManSteps.UnlistedOk | src/addrman.cpp:164-201 | removing an entry from a bucket keeps every consistency condition |
| AddrMan.AddrMan.Withdraw | src/addrman.cpp:210-218 | the entry leaves every new bucket and its reference count ends at zero |
| AddrMan.AddrMan.MakeTried | src/addrman.cpp:206-262 | the entry becomes tried, in free room of its bucket or in the place that sampling the full bucket has chosen, whose entry goes back to a new bucket |
| AddrMan.AddrMan.Evict | src/addrman.cpp:233-261 | the evicted entry is the one at the place chosen by the draws from the bucket as it was; it goes to its own new bucket if that has room and otherwise to the bucket the promoted entry came from |
| AddrManSteps.MadeTriedOk | src/addrman.cpp:206-262 | promoting an entry, with or without an eviction, keeps every consistency condition |
| AddrMan.AddrMan.Good | src/addrman.cpp:264-311 | keeps every consistency condition and has exactly the described effect on what is known: times and attempts of the address, and its promotion with at most one eviction |
| AddrManLaws.GoodLaw | src/addrman.cpp:264-311 | after a success of a known service its times are those of the success, it has no failures, is tried and in no new bucket; nothing else changes except that one other address may lose its tried place for one new bucket |
| AddrManGroups.TriedBucketIs | src/addrman.cpp:12-24 | the tried bucket is the hash of the key, the group and one of four numbers, which the hash of the key and the service picks |
| AddrManGroups.GroupReach | src/addrman.cpp:12-24 | for every hash, key and grouping: services of one group reach at most four tried buckets |
| AddrManGroups.KeyApart | src/addrman.cpp:14-17 | what is hashed of a service tells it from every other one |
| AddrManGroups.PrefixedApart | src/addrman.cpp:15-21 | vectors hashed one after the other, each with its length in front, are told apart |
| AddrManGroups.ConsistentGroups | src/addrman.cpp:12-24 | whenever the tables are consistent, at most 4 * 64 addresses of a group are tried |
| AddrManGroups.RunGroups | src/addrman.cpp:12-24 | the same in every state of every run from an empty manager |
| AddrManGroups.RunCapacity | src/addrman.h:123-142 | after every run at most 64 * 64 addresses are tried and at most 256 * 64 new, each of these in one to four buckets |
| AddrMan.AddrMan.Add | src/addrman.cpp:313-368 | keeps every consistency condition for every random choice and has exactly the described effect on what is known |
| AddrMan.AddrMan.AddKnown | src/addrman.cpp:322-367 | a known address is listed in one more bucket exactly if it is newer, not tried, below its bucket limit and lucky |
| AddrManLaws.AddKnownLaw | src/addrman.cpp:322-367 | hearing of a known address: its services are the old and the heard ones, its time moves exactly if it is missing or an hour (a day if not seen today) and the penalty behind, it gets the bucket of the source exactly if there is news and one in two to the power of its buckets hits, and others lose at most their place there |
| AddrManLaws.RefreshedStays | src/addrman.cpp:325-335 | without a penalty an address whose time is refreshed keeps its buckets and nothing else changes |
| AddrManLaws.AddNewLaw | src/addrman.cpp:350-367 | a new address is known as heard, with the time less the penalty, untried, in exactly the bucket of the source |
| AddrManLaws.TerribleExactly | src/addrman.cpp:40-58 | in seconds and counts, which entries are not worth keeping |
| AddrManLaws.StaysTerrible | src/addrman.cpp:40-58 | an entry not worth keeping never gets better by waiting, unless its time was ahead |
| AddrMan.AddrMan.MakeRoom | src/addrman.cpp:363-364 | a bucket that is exactly full loses one entry, one not worth keeping if there is any; otherwise nothing changes |
| AddrMan.AddrMan.ListPending | src/addrman.cpp:360-366 | the announced reference is filled in and the state is consistent again |
| AddrMan.AddrMan.Attempt | src/addrman.cpp:370-387 | only the last attempt and the attempt count of the exact service change |
| AddrMan.AddrMan.Connected | src/addrman.cpp:509-527 | only the time of the exact service changes, and only if it is old |
| AddrMan.AddrMan.GetAddr | src/addrman.cpp:493-507 | the answer has the greatest number of addresses up to 2500 and 23 percent, each once and as known, and nothing known changes |
| AddrManCheck.Check | src/addrman.cpp:434-490 | returns zero exactly if the tables satisfy the conditions of the check |
| AddrManCheck.CheckInfos | src/addrman.cpp:441-460 | the pass over the entries fails exactly if one is inconsistent, and collects the tried ids and the reference counts |
| AddrManCheck.CheckTried | src/addrman.cpp:465-473 | crossing off succeeds only if the tried table lists tried entries, none twice |
| AddrManCheck.CheckNew | src/addrman.cpp:475-484 | crossing off succeeds only if no entry is in more buckets than its count says |
| AddrManCheck.ConsistentPasses | src/addrman.cpp:434-490 | the invariant of the operations implies that the check passes |
| AddrManCheck.PassesTimely | src/addrman.cpp:441-460 | a consistent state that passes has its recorded times in order |
| AddrManCheck.CheckMeans | src/addrman.cpp:434-490 | the check passes exactly if the random order is a permutation of the entries, the reference counts are the numbers of buckets and within bounds, the totals and the times are right, every entry is found under its address and the tried table lists each tried entry once |
| AddrManRuns.AttemptTimes | src/addrman.cpp:370-387 | an attempt keeps the recorded times in order exactly if its time is not negative or the service is unknown |
| AddrManRuns.AttemptPasses | src/addrman.cpp:370-490 | after an attempt the check passes exactly if the time was not negative or the service is unknown |
| AddrManRuns.ConnectedTimes | src/addrman.cpp:509-527 | a connection keeps the recorded times in order |
| AddrManRuns.GoodTimes | src/addrman.cpp:264-311 | a success keeps the recorded times in order exactly if its time is positive or the service is unknown |
| AddrManRuns.GoodPasses | src/addrman.cpp:264-490 | after a success the check passes exactly if the time was positive or the service is unknown |
| AddrManRuns.AddTimes | src/addrman.cpp:313-368 | adding keeps the recorded times in order |
| AddrManRuns.AddKeepsTried | src/addrman.cpp:313-368 | adding never forgets a tried address and forgets at most one address |
| AddrManRuns.RoomKeeps | src/addrman.cpp:152-204 | making room touches only entries of that bucket, and of them only the set of buckets |
| AddrManRuns.RunTimes | src/addrman.cpp:96-527 | in every run of timely operations from an empty manager the recorded times are in order throughout |
| AddrManRuns.RunKeepsTried | src/addrman.cpp:96-527 | in every run from an empty manager no step forgets a tried address, none forgets more than one address, and no tried address is in a new bucket |
| AddrManRuns.Perform | src/addrman.cpp:96-527 | every operation, with any random choices, keeps the tables consistent and has its effect on the view |
| AddrManRuns.Run | src/addrman.cpp:96-527 | whatever operations an empty manager performs are a run over its views that ends in its own view, with consistent tables; after timely ones it passes its check |
| AddrManBuckets.AddListed | src/addrman.cpp:359-366 | adding changes only the listing of the bucket of the source: exactly full, it loses one address for the new one, and otherwise it only gains |
| AddrManBuckets.MakeTriedSized | src/addrman.cpp:206-262 | a promotion leaves no bucket overfull: there is always room for the evicted entry |
| AddrManBuckets.RunSized | src/addrman.cpp:96-527 | in every run that starts empty or with no bucket overfull, no bucket ever is |
| AddrManBuckets.OverfullStays | src/addrman.cpp:363-366 | however many addresses are added, an overfull bucket lists all it did and stays overfull |
| AddrManDisk.SelectExact | src/addrman.h:286-307 | the entries written are exactly those of the kind, in order of id |
| AddrManDisk.RankPlace | src/addrman.h:284-296 | the number a new entry gets is its place among those written |
| AddrManStorage.Save | src/addrman.h:273-318 | the loops write exactly the described file of a consistent manager |
| AddrManStorage.Load | src/addrman.h:319-379 | the loops rebuild exactly the described state from a readable file |
| AddrManRoundTrip.ReadEntries | src/addrman.h:328-361 | reading the entries back loses none of them |
| AddrManRoundTrip.RoundTrip | src/addrman.h:249-381 | loading what a consistent manager saved is possible, gives a consistent manager, loses no entry, and keeps for every address its persisted fields, its status and its exact new buckets |
| AddrManStorage.Transfer | src/addrman.h:249-381 | the same of the save loops followed by the load loops on another manager |
| AddrManRebucket.Rebucketed | src/addrman.h:319-379 | from every file with another number of buckets each new entry is put into exactly the bucket of its source with count one; the tables are consistent exactly if no address comes twice and every listing names an entry, and then no bucket is overfull exactly if none is the home of too many |
| AddrManRebucket.OverfullGroup | src/addrman.h:335-339 | for every hash and key: more than 64 addresses of one group from one source group leave a bucket overfull |
| AddrManRebucket.OverfullSource | src/addrman.cpp:26-38 | for every hash, key and grouping: as one source group reaches only its number of buckets, more addresses from it than these take leave a bucket overfull |
| AddrManRebucket.Overfull | src/addrman.h:335-339 | for every hash, key and grouping there is a file that loads consistently and leaves a bucket overfull |
| AddrManRebucket.EntriesRead | src/addrman.h:328-361 | the entries read are exactly the new records and the first tried records of each bucket, and all tables agree but for an address that comes twice |
| AddrManRebucket.SkipBuckets | src/addrman.h:362-376 | the listings of such a file change nothing if they name entries, and otherwise leave an entry without a place in the random order |
| Merkle.CalcTreeWidthExact | src/main.h:442-445 | the width computed by division is the number of nodes obtained by halving row by row |
| Merkle.WidthCovers | src/main.h:442-445 | a node exists exactly if its first leaf does |
| Merkle.CalcHashIsRow | src/main.cpp:2502-2517 | hashing from the root down gives the rows obtained from the leaves up |
| Merkle.BuildMerkleTree | src/core.cpp:214-231 | the flat array holds every row, and its last entry is the recursive root for every number of leaves |
| Merkle.FlatRoot | src/core.cpp:214-231 | the flat tree ends in the recursively computed root |
| Merkle.GetMerkleBranch | src/core.cpp:233-247 | the loop over the flat array reads off the branch of the leaf |
| Merkle.CheckMerkleBranch | src/core.cpp:249-262 | the loop computes what the leaf hashes to along the branch, for every index; -1 gives zero |
| Merkle.BranchProvesLeaf | src/core.cpp:233-262 | for every leaf, checking its branch gives the root, also at odd row ends |
| Merkle.BranchSound | src/core.cpp:249-262 | branches of one position and length that reach one root prove one leaf, unless a pair collides |
| PartialMerkle.TreeRange | src/main.cpp:2519-2535 | the leaves below a node, also in the last node of a row |
| PartialMerkle.ParentalExact | src/main.cpp:2519-2535 | a node is a parent of a match exactly if a leaf in its range is matched |
| PartialMerkle.TreeHashIsCalcHash | src/main.cpp:2502-2517 | the hash of a node of the tree is the recursively computed one |
| PartialMerkle.ExtractBuilt | src/main.cpp:2519-2565 | reading a node back where it was written gives its hash, its matched leaves in order, and stops behind it |
| PartialMerkle.HashesBounded | src/main.h:413-417 | at most as many hashes as leaves, and at most one more than matches times height |
| PartialMerkle.BitsExact | src/main.h:411-425 | the exact number of flag bits for a number of hashes |
| PartialMerkle.BitsWithinBound | src/main.h:411-425 | the documented bound on flag bits holds exactly if no odd row end covers a match |
| PartialMerkle.BitsBeyondBound | src/main.h:411-425 | a tree of three leaves exceeds the documented bound |
| PartialMerkle.ExtractSound | src/main.cpp:2537-2565 | an extraction that reaches the true hash of a node found true leaves of it in order, unless a pair collides |
| PartialMerkleTree.Pack | src/main.h:471-476 | bit p of the vector is bit p mod 8 of byte p div 8, and the padding is clear |
| PartialMerkleTree.BitShifted | src/main.h:469-474 | bit k of a byte is the one that a shift by k brings to the right end |
| PartialMerkleTree.Unpack | src/main.h:464-470 | eight bits come out of every byte, in the same order |
| PartialMerkleTree.PartialMerkleTree.CalcHeight | src/main.cpp:2571-2574 | the first height at which one node is left |
| PartialMerkleTree.PartialMerkleTree.ParentOfMatch | src/main.cpp:2521-2523 | the loop over the leaves below a node finds a match exactly if there is one |
| PartialMerkleTree.PartialMerkleTree.TraverseAndBuild | src/main.cpp:2519-2535 | appends exactly the bits and hashes of the subtree |
| PartialMerkleTree.PartialMerkleTree.TraverseAndExtract | src/main.cpp:2537-2565 | follows the recursive reading, including both overflow failures |
| PartialMerkleTree.PartialMerkleTree.Build | src/main.cpp:2567-2579 | the tree object over a list of hashes and a selection |
| PartialMerkleTree.PartialMerkleTree.Read | src/main.h:460-477 | the tree object read from packed bytes |
| PartialMerkleTree.PartialMerkleTree.ExtractMatches | src/main.cpp:2583-2611 | gives root and matches exactly if all the checks on counts and leftovers pass, and zero otherwise |
| PartialMerkleTree.BuiltIsAccepted | src/main.cpp:2567-2611 | what is built, packed and unpacked is accepted with the true root and exactly the matched leaves |
| PartialMerkleTree.AcceptsExactly | src/main.cpp:2583-2611 | a tree is accepted exactly if reading it never runs out and uses every hash and every byte of bits: the comparisons of counts before the reading add nothing |
| PartialMerkleTree.NothingSpare | src/main.cpp:2602-2610 | of all extensions of an accepted tree only those by padding bits within the last byte are accepted |
| PartialMerkleTree.AcceptedIsSound | src/main.cpp:2583-2611 | whatever is accepted with the root of a block lists leaves of that block in order, unless a pair collides |
| PartialMerkleTree.Transmit | src/main.cpp:2567-2611 | building, packing, unpacking and extracting end to end, with both bounds on stored hashes |
| CheckQueue.InitialOk | src/checkqueue.h:149-150 | a new queue satisfies the invariant |
| CheckQueue.LockedOk | src/checkqueue.h:77-138 | every critical section of any thread keeps the invariant: counts, each check held once, verdicts |
| CheckQueue.ExecutesOk | src/checkqueue.h:139-142 | going through a check outside the mutex keeps the invariant |
| CheckQueue.AddsOk | src/checkqueue.h:169-180 | adding checks keeps the invariant |
| CheckQueue.RunOk | src/checkqueue.h:70-180 | the invariant holds in every state of every interleaving |
| CheckQueue.WaitVerdict | src/checkqueue.h:96-110 | in every run, waiting returns true exactly if every check of the round passes, each was taken once, and the queue is then unused |
| CheckQueue.UnusedBetween | src/checkqueue.h:195-203 | in every run, whenever nothing has been added since the last verdict, the queue meets the conditions the next controller asserts |
| CheckQueue.NeverStuck | src/checkqueue.h:91-122 | while the master has to wait, some thread has a step that shrinks the work left |
| CheckQueue.LockedKeeps | src/checkqueue.h:77-138 | no critical section of any thread makes the work left larger |
| CheckQueue.WorkEnds | src/checkqueue.h:77-142 | while nothing is added, at most as many steps get work done as there was work |
| CheckQueue.WaitEnds | src/checkqueue.h:70-180 | in every endless run of a new queue in which each thread inside acts again and again, waiting returns, with true exactly if every check of the round passes |
| CheckQueue.BatchFits | src/checkqueue.h:123-128 | a batch has at least one check, never more than are queued, and never more than the maximum |
| CheckQueue.BatchShare | src/checkqueue.h:123-128 | a batch of several is within the thread's share of the queue, and one below the maximum is the largest that is |
| CheckQueueObject.Queue.constructor | src/checkqueue.h:149-150 | the object starts in the initial state of the protocol |
| CheckQueueObject.Queue.Section | src/checkqueue.h:77-138 | what a thread does with the mutex held is exactly one locked step, and the outcome is what the thread then is |
| CheckQueueObject.Queue.Take | src/checkqueue.h:129-135 | the batch is the back of the queue, last first |
| CheckQueueObject.Queue.Add | src/checkqueue.h:169-180 | adding is exactly the adding step |
| CheckQueueObject.Execute | src/checkqueue.h:139-142 | the verdict of a batch is the conjunction of its checks, although it stops looking at the first failure |
| TxIndex.FinalWindow | src/main.cpp:401-416 | a transaction is final exactly at the heights from its signed lock height to that plus the history length |
| TxIndex.ConnectedOk | src/main.cpp:1394-1422 | connecting at or above every purge height keeps the index complete and repeats no transaction |
| TxIndex.ConnectedSound | src/main.cpp:1407-1422 | after connecting, every index entry gives the place of its transaction in an active block |
| TxIndex.DisconnectedOk | src/main.cpp:1269-1273 | disconnecting keeps the index complete for the blocks that stay |
| TxIndex.PurgedOk | src/purge.cpp:93-98 | erasing expired transactions keeps the index complete for everything that could be included again |
| TxIndex.NoTwice | src/main.cpp:2039-2056 | nothing but a coinbase outside the first place can stand at two places of the active chain |
| TxIndexNode.CheckBlock | src/main.cpp:2034-2098 | a block passes exactly if its other checks pass and it meets the conditions that bear on the index |
| TxIndexNode.CheckUnique | src/main.cpp:2090-2098 | comparing the set of txids with the list detects exactly the duplicates |
| TxIndexSteps.StepOk | src/main.cpp:1257-1622 | every step of accepting, applying, connecting, disconnecting, setting the sync point or purging keeps the tables in order, and keeps the replay invariant unless it connects below an earlier purge |
| TxIndexSteps.NeverTwice | src/main.cpp:1257-1436 | in every state of every run from a fresh node without such a connect, no transaction but a coinbase is in two places of the active chain |
| TxIndexSteps.TipHigh | src/purge.cpp:58-65 | a run in which the tip stays at most one below its greatest height at a purge is such a run |
| TxIndexSteps.FollowedLaw | src/main.cpp:1613-1619 | a sync point that is set is at least the tip less the history length, and moves only to there |
| TxIndexSteps.PurgeLaw | src/purge.cpp:58-124 | a purge erases exactly the files without a block from a history length below the tip on: their blocks lose their data, and the transactions of those that could be read leave the index |
| TxIndexNode.Node.constructor | src/main.cpp:3078-3086 | the node starts fresh: the genesis block is the active chain without an index entry |
| TxIndexNode.Node.AcceptBlock | src/main.cpp:2230-2261 | is the accepting step: a block is stored, again if it was known, exactly if it is not fully stored and passes all checks, lies above the sync point if it is new, and is final |
| TxIndexNode.Node.ApplyBlock | src/trieview.cpp:583-634 | is the applying step: it succeeds exactly if the block has data and the trie finds nothing wrong with it, and then the block gets undo data and is marked as checked |
| TxIndexNode.Node.ConnectTip | src/main.cpp:1557-1622 | is the connecting step: only a block with data is connected, and a sync point follows the tip at the history length |
| TxIndexNode.Node.ConnectBlock | src/main.cpp:1312-1436 | passes exactly if the other checks pass, the block extends the tip and none of its spends is indexed; the index then gains exactly its positions |
| TxIndexNode.Node.DisconnectTip | src/main.cpp:1503-1555 | is the disconnecting step: the tip leaves the chain and the index exactly if its data are there |
| TxIndexNode.Node.DisconnectBlock | src/main.cpp:1257-1278 | the txids of the block leave the index exactly if it is the tip |
| TxIndexNode.Node.SetSyncPoint | src/main.cpp:2451-2461 | is the step that sets the sync point, exactly if the chain is a history length above it |
| TxIndexNode.Node.PurgeDB | src/purge.cpp:58-124 | is the purging step: drops exactly the blocks out of view whose file nothing in view needs, erases their readable transactions and the unneeded files; no block claims data in a file that is gone |
| TxIndexNode.Node.FindNeeded | src/purge.cpp:67-77 | the files of all blocks in view, stale ones included |
| TxIndexNode.Node.FindDroppable | src/purge.cpp:80-89 | the blocks out of view whose file is not needed |
| TxIndexNode.Node.Drop | src/purge.cpp:92-100 | exactly those blocks lose their flags and their readable transactions leave the index |
| TxIndexNode.Run | src/main.cpp:1257-1436 | performing any operations on a fresh node is a run of the state machine that ends in the state of the node |
| TxIndexRuns.Replay | src/purge.cpp:58-100 | for every history length, purge height and lower connect height from two on there is a run from a fresh node, with data for every block it connects or takes off, a sync point that follows the tip and no low connect before its last step, that includes a payment twice |
| Chain.Chain.constructor | src/main.h:923-925 | a new chain is empty |
| Chain.Chain.ContainsExact | src/main.h:951-954 | comparing one entry decides membership in the whole chain |
| Chain.Chain.SetTip | src/main.cpp:338-349 | the vector becomes exactly the ancestor path of the new tip although the walk stops early, and the result is the last block shared with the old chain |
| Chain.Chain.FindFork | src/main.cpp:392-396 | the highest block of the chain among the ancestors of the argument, or none |
| Chain.Chain.GetLocator | src/main.cpp:351-376 | the blocks at the locator heights on the path of the argument, whether or not it is in the chain |
| Chain.Chain.FindForkLocator | src/main.cpp:378-390 | the first block of the locator in the chain, or else genesis |
| Chain.LocatorResolves | src/main.cpp:351-390 | another chain that shares a block resolves a locator to the fork or to a block nearer to the fork than the fork is to the tip, and exactly to the fork if that is at most eleven back |
| Locator.Heights | src/main.cpp:352-373 | the heights strictly descend and end at zero |
| Locator.LocatorShort | src/main.cpp:351-376 | a locator has at most twelve entries more than the binary logarithm of the height |
| BlockLinks.BlockTree.LinkOrphans | src/main.cpp:2669-2735 | at load and under a given parent: terminates and links exactly the blocks that hang on what it starts from, leaving everything else alone; the candidates gained are exactly the clean linked blocks, numbered on with parents before children, and the best invalid block has the most work of itself and those linked under failed parents; every linked block names its parent and carries on what that has |
| BlockLinks.BlockTree.FirstOrphans | src/main.cpp:2673-2695 | the list starts with the blocks under the given parent or, at load, with those without a parent hash and those under connected parents, connected blocks being forgotten |
| BlockLinks.BlockTree.LinkFront | src/main.cpp:2698-2733 | one turn of the loop links the front block and lists exactly its waiting children |
| BlockLinks.InputValid | src/main.cpp:2145-2153 | the parent that a call is given, even one that still waits, descends from none of the blocks under it, as long as there are no cycles |
| BlockLinks.RootedOnce | src/main.cpp:2669-2735 | a block hangs on its root in only one way |
| BlockLinks.ChainWorkIsSum | src/main.cpp:2709-2714 | the chain work of a linked block is the sum of the work along its path |
| BlockLinks.FailureInherited | src/main.cpp:2711-2721 | a linked block is marked failed exactly if it or a block it descends from has failed, genesis excepted |
| BlockLinks.CandidatesClean | src/main.cpp:2725-2728 | a linked block becomes a candidate exactly if nothing on its way has failed and its header was checked |
| BlockLinks.ChainTxStays | src/main.cpp:2715-2716 | if no block starts with a chain transaction count, linking gives none |
| BlockLinks.ChainTxIsSum | src/main.cpp:2715-2716 | under a counted parent, the chain transaction count is the sum along a path without an empty block |
| BlockLinks.LinkedChild | src/main.cpp:2709-2721 | in the resulting index a linked block names its parent, its chain work is its own and that of the parent there, only the flag for a failed ancestor can be added, and that exactly under a failed parent; genesis is connected and good |
| BlockLinks.WalkIsPath | src/main.cpp:2713 | following the parent links of a linked block leads down its path to its root |
| MedianTime.GetMedianTimePast | src/main.h:746-760 | the buffer filled from its end and sorted gives the median of the last eleven or fewer times: one of them, with at most half below and less than half above |
| MedianTime.SortOk | src/main.h:758 | sorting gives the same entries in order |
| MedianTime.MedianBelow | src/main.h:758-759 | the median is below a value exactly if more than half of the window is |
| MedianTime.MedianNeverDecreases | src/main.cpp:2174-2177 | along every accepted chain the median time past at a block is no smaller than at any earlier block, including the short windows near genesis |
| MedianTime.AcceptTime | src/main.cpp:2174-2177 | a time passes exactly if the longer chain is accepted, that is, if more than half of the last eleven or fewer times lie before it |
| Radix.MulAdd | src/base58.cpp:33-38 | the buffer and the carry hold the old value times the factor plus the digit |
| Radix.Append | src/base58.cpp:32-39 | with room for one digit more nothing is carried out |
| Radix.Outgrows | src/base58.cpp:24-25 | comparing two powers once compares all powers at that rate |
| Radix.DigitsOfValue | src/base58.cpp:47-55 | a number has one digit sequence without leading zeros |
| Base58.AlphabetOk | src/base58.cpp:11-12 | the alphabet has 58 different characters, none of them a space |
| Base58Coder.SpaceCodes | src/base58.cpp:16-43 | the characters that are skipped around the text are the six spaces of the C locale |
| Base58Coder.EncodeFits | src/base58.cpp:66-67 | the encode buffer is always large enough |
| Base58Coder.DecodeFits | src/base58.cpp:24-25 | the decode buffer is always large enough |
| Base58.EncodeBase58 | src/base58.cpp:59-91 | one 1 for each leading zero byte and then the number in base 58 |
| Base58.DecodeBase58 | src/base58.cpp:14-57 | fails exactly if the trimmed text holds a foreign character, and otherwise gives a zero byte for each leading 1 and the number in base 256 |
| Base58Coder.DecodeEncoded | src/base58.cpp:14-91 | decoding an encoding gives the bytes back |
| Base58Coder.EncodeDecoded | src/base58.cpp:14-91 | encoding a decoding gives the trimmed text back |
| Base58.RoundTrip | src/base58.cpp:14-91 | both round trips of the two loops, on every byte string and every text |
| NetMessage.ReadHeader | src/net.cpp:668-698 | at least one byte goes into the header, or the message is refused for its size, and stays refused |
| NetMessage.ReadData | src/net.cpp:700-709 | at least one byte goes into the data, never more than are missing |
| NetMessage.Node.Absorb | src/net.cpp:642-662 | every turn of the loop consumes a byte or refuses |
| NetMessage.Node.ReceiveMsgBytes | src/net.cpp:640-666 | the queue is the whole stream so far cut into messages, and the result says whether it was refused |
| NetMessage.CutOfMessages | src/net.h:147-180 | cutting the bytes of whole messages gives those messages back |
| NetMessage.ReceiveAll | src/net.cpp:640-666 | every way to cut a stream into pieces gives the same queue and the same outcome as the whole stream |
| NetMessage.PushMessage | src/net.h:458-509 | a message is sent as start, command, the length of the data in four bytes with the lowest first, checksum and data |
| NetMessage.PushAll | src/net.h:458-509 | messages sent one after the other are the stream that the receiver is given |
| NetMessage.SentComesBack | src/net.cpp:640-705 | cutting that stream gives every message back complete |
| NetMessage.Deliver | src/net.cpp:640-705 | messages of up to 0x02000000 bytes of data reach a fresh node complete and as they were sent, in whatever pieces their bytes arrive |
| NetMessage.TooLargeRefused | src/net.cpp:689-691 | a header that announces more is refused, whatever follows |
| NetMessage.DeliverTooLarge | src/net.cpp:640-698 | the same on a fresh node and in whatever pieces: the answer is no, and only the header is kept |
| BlockTemplate.Deduct | src/miner.cpp:153-182 | what is left of an account and what has been drawn stay within its balance and limit, also after a failed deduction, and one fails only if the transactions before may have left too little |
| BlockTemplate.CheckCreate | src/miner.cpp:185-193 | the loop over the outputs passes exactly if every new account gets at least the fee |
| BlockTemplate.ValuesAdd | src/miner.cpp:272-274 | the values of inputs and outputs are the sums of their parts |
| BlockTemplate.Candidates | src/miner.cpp:139-205 | the candidates are taken from the pool in its order, are eligible and together draw from no account more than its balance and limit; an eligible transaction that may create its accounts is left only if the eligible ones before it may have used up what it draws from |
| BlockTemplate.AllTaken | src/miner.cpp:139-205 | if the accounts can pay for everything eligible, the candidates are exactly the eligible transactions that may create their accounts, in pool order |
| BlockTemplate.Consider | src/miner.cpp:230-280 | exactly which transaction taken off the heap is added, and which limits are remembered |
| BlockTemplate.FillOk | src/miner.cpp:207-300 | in whatever order the transactions come, the sizes, fees and totals agree and no limit follows a spend of its account |
| BlockTemplate.Fill | src/miner.cpp:207-300 | the loop over the heap gives the block of some order of the candidates |
| BlockTemplate.LeftOut | src/miner.cpp:219-300 | a candidate that passes and sets no limit stays out only if it does not fit beside what is in the block |
| BlockTemplate.AllIn | src/miner.cpp:219-300 | if all pass, none sets a limit and all fit, all get in |
| BlockTemplate.CapExactly | src/miner.cpp:122-124 | the cap is the allowed size in 32 bits, kept between 1000 and 999000 |
| BlockTemplate.CheckLimits | src/main.cpp:2061-2082 | the loop with the sets of limits and withdrawals passes exactly if no two transactions of the block overlap |
| BlockTemplate.FillRule | src/miner.cpp:246-258 | every order of the candidates fills a block within that rule exactly if no two of them, a limit and a spend of one account, both pass and fit |
| BlockTemplate.ConflictOverlap | src/miner.cpp:246-258 | for any two such candidates, an order whose block has the spend after the limit |
| BlockTemplate.BlockValueBound | src/main.cpp:819-842 | a block pays its miner the fees and the coinbase account times 243.1 coins over all the money, rounded down, and never more than there is |
| BlockTemplate.CreateNewBlock | src/miner.cpp:95-332 | the coinbase draws from account zero and pays the miner the block value; the draws stay within every account, the size under the cap with the reserve, the fees are aligned with the transactions and sum to zero; a template is handed out exactly if the rest of the trial connect passes and no limit overlaps with a limit or a spend; a transaction of the pool that passes and sets no limit is in it unless an account may be used up or it does not fit, and if there is enough of both exactly the suitable ones are |
| BlockCache.RecordCache.constructor | src/blockcache.cpp:22-26 | a new cache is empty |
| BlockCache.RecordCache.Read | src/blockcache.cpp:171-219 | succeeds exactly if the hash is cached or its record is where the index says; the value is the one last written under the hash; the hash becomes the most recent |
| BlockCache.RecordCache.WriteToDisk | src/blockcache.cpp:221-251 | the record is on disk and the cached copy, if there is one, is up to date |
| BlockCache.RecordCache.Store | src/main.cpp:2256-2261 | a write followed by the position update keeps everything a read relies on |
| BlockCache.Run | src/blockcache.cpp:171-251 | in every run of reads, writes and vanishing files from an empty cache, a read returns what was last written under its hash, and finds it for certain if no file has vanished |
| BlockCache.HitOrder | src/blockcache.cpp:183-189 | moving to the front keeps the cache the most recent different hashes |
| BlockCache.MissOrder | src/blockcache.cpp:204-215 | inserting in front and dropping the last keeps the cache the most recent different hashes |
| BlockCache.ErasedLinked | src/blockcache.cpp:186-209 | erasing a list node and its map entry keeps list and map in bijection |
| PageLocks.TouchesExact | src/allocators.h:51-53 | the pages from that of the first byte to that of the last are those that hold a byte of the range |
| PageLocks.LockedPageManager.constructor | src/allocators.h:31-37 | a new manager has locked nothing |
| PageLocks.LockedPageManager.LockRange | src/allocators.h:45-66 | every page count is the number of live ranges touching the page, and a page is locked exactly while that is positive |
| PageLocks.LockedPageManager.UnlockRange | src/allocators.h:68-89 | the same after a live range is released, and the page is always found |
| PageLocks.LockedPageManager.GetLockedPageCount | src/allocators.h:91-96 | the number of locked pages, zero exactly if no live range touches a page |
| PageLocks.LockedPageManager.Released | src/allocators.h:39-42 | releasing every range empties the histogram |

## Left out

- The account trie and its synchronisation, scripts, signatures, the wallet, the mempool's own rules, RPC, the GUI and start-up: their answers are parameters.
- Floating point: difficulty, transaction priorities and fee rates; the order in which a template takes transactions is arbitrary.
- `Select_` of the address manager: its loop ends only with probability one.
- The address manager's id counter does not overflow, `Check_` is modelled without the empty entries its map lookups may insert, and the file is modelled as records and numbers rather than bytes.
- AddrManStorage.Load: files with negative counts or indices are outside the readable files it is stated for.
- PartialMerkle.HashesBounded: the 32-bit wrap-around of the width for absurd transaction counts is not modelled.
- Interrupted threads, condition variables and their timeouts in the verification queue; a waiting thread may wake at any time.
- TxIndexNode.Node.ConnectBlock: the checks of balances, signatures and block size are one arbitrary answer, and so are the header, work and checkpoint checks of TxIndexNode.Node.AcceptBlock; a block that claims data can be read.
- Loading, reindexing and external block import, which skip the duplicate check of the transaction index, and the synchronisation of the trie before it sets the sync point.
- A block whose parent is unknown is not accepted by the model of the transaction index; orphans are the subject of the linking model only.
- BlockLinks.BlockTree.LinkOrphans: each block waits once, no waiting blocks are each other's parents in a cycle (a hash covers the parent's hash), the best invalid block is not waiting, and the order among siblings and the width of the chain work are not modelled.
- Best-header selection and the re-organisation that drives connects and disconnects.
- Chain.Chain.GetLocator: the step does not overflow its 32 bits.
- Base58.DecodeBase58: the text is taken up to its terminating zero, and spaces are those of the C locale.
- BlockTemplate.CreateNewBlock: sums of values do not overflow, the header is not modelled, and the rest of the trial connect is one arbitrary answer.
- BlockCache.RecordCache.Read: one model serves blocks and undo data; a failed checksum and a wrong block hash are both a record under another hash, and a record that cannot be read is absent.
- PageLocks.LockedPageManager.LockRange: pages are found by remainder instead of by bit mask, which is the same for the powers of two the constructor demands, and ranges do not reach the last page of the address space.
- Send queues, amount compression, checkpoints and alerts are not modelled.
