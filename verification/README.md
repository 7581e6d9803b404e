# A verified model of VeriTxn's concurrency control, index, log and cache

VeriTxn runs transactions in an enclave with one of several concurrency control protocols, keeps
its B+ tree index and a circular log outside, and holds pages in a pinning cache. This project
models those parts in Dafny and proves what they are for. `dafny verify dfyconfig.toml` checks it.

The protocols (TicToc, Silo, per-row OCC, the log, the partition locks) are state machines whose
actions are the single accesses to shared memory: every interleaving of the code is a schedule of
actions, and the theorems speak of every schedule. What the code does in place or in a loop
(the packed TicToc word, the deadlock search, the lock queues, the multi-version row, the tree's
nodes, the ring copies, the cache, the chain, the codec) is imperative Dafny proved against a
specification.

How the files go together:

- `Serial.dfy`: committed transactions executed one after the other, shared by the three
  optimistic protocols.
- `TicToc.dfy`, `TicTocInvariant.dfy`, `TicTocSteps.dfy`, `TicTocTheorems.dfy`,
  `TicTocLostLease.dfy`, `RowTicToc.dfy`: TicToc and its 64-bit word.
- `Silo.dfy`, `SiloProof.dfy`, and `SiloLoop.dfy`, `SiloLoopProof.dfy` for its loops with
  `num_locks`; `Occ.dfy`, `OccLatches.dfy`, `OccProof.dfy`, `OccLostUpdate.dfy`;
  `Validation.dfy` for the loops that open validation.
- `TicTocClient.dfy`, `SiloClient.dfy`, `OccClient.dfy`: the same runs as their callers see them.
  What each transaction saw and wrote last is told from the schedule, and is what its commit
  records; and validation refuses exactly what was overtaken (`TicTocValid.dfy` for TicToc).
  `Programs.dfy`, `TicTocAlone.dfy`, `SiloAlone.dfy`, `OccAlone.dfy`: a program that meets nobody
  commits, with the effect of its operations.
- `MvccStore.dfy`, `MvccReserve.dfy`, `Mvcc.dfy`: the multi-version row; `MvccRun.dfy`: its runs
  against a specification without a version store.
- `WaitDie.dfy`, `WaitDieExact.dfy`, `DlDetect.dfy`, `PartLock.dfy`, `PartLockRuns.dfy`,
  `PartLockExact.dfy`: locking.
- `BTree.dfy`, `BTreeProof.dfy`, `BTreeContent.dfy`, `BTreeIndex.dfy`, `BTreeScan.dfy`,
  `BTreeStale.dfy`, `BTreeLatch.dfy`, `BTreeLatchRuns.dfy`: the index. A node's key range (its
  fences) and level are ghost.
- `Log.dfy`, `LogProof.dfy`, `LogLate.dfy`, `LogHarm.dfy`, `LogBound.dfy`, `LogGuard.dfy`,
  `LogFlush.dfy`, `LogRing.dfy`: the log.
- `PageCache.dfy`: the cache's operations. `PageCacheRuns.dfy`, `PageCacheProof.dfy`,
  `PageCacheTheorems.dfy`, `PageCacheRaces.dfy`: its runs, each load and each store of a count, a
  timestamp or the clock a step of its own. `VersionChain.dfy`, `Codec.dfy`: version chain, codec.

Where the code does not meet its purpose, the model keeps the code and says exactly when it does:

- `try_renew` compares an absolute timestamp with a lease length after a failed compare-and-swap
  (row_tictoc.cpp:153). `TicTocLostLease.LostLease` is a run of the code as written that no serial
  order explains. Runs without a shortened lease are serializable
  (`TicTocTheorems.AsWrittenSerializable`), the comparison of lengths (as at line 134) never
  shortens one, and leases grow along a run exactly when no compare-and-swap meets a longer lease
  than it stores (`TicTocTheorems.AllLeasesGrowIff`).
- OCC draws start and end timestamps from two counters (untrusted/system/thread.cpp:128 and
  occ.cpp:73). `OccLostUpdate.LostUpdate` loses an update that way. Runs whose end timestamps are
  taken in order, above the start of everybody still at work on the rows written, are
  serializable (`OccProof.InOrderSerializable`); that is exactly the condition under which
  validation keeps telling the truth (`OccProof.OrderExact`), and with one counter, as the comment
  at trusted/system/thread_enc.cpp:163-166 intends, it always holds.
- The log publishes `*_allocate_lsn = *_lsn` with a separate load and store, and not at all for
  entries that start with 0x7f. `LogLate` has a run that writes an unfilled byte and one that
  breaks `assert(ready_lsn >= *_persistent_lsn)`. A store keeps the invariant exactly when it is
  not late (`LogProof.StoreExact`), a late one can be followed by that failure
  (`LogHarm.LateStoreHarms`), and a run in which every publish is one step is correct
  whatever the flusher does (`LogProof.AtomicLog`). The bound on the ring needs none of this
  (`LogBound.RingNeverOverrun`), nor that the guard's two reads are one step
  (`LogGuard.SplitGuardHolds`).
- `try_load` works on the count, the clock and the timestamp of a page without the latch and
  without atomic increments. `PageCacheRaces` has four runs in which a pinned page is evicted: an
  eviction overlaps a load, two loads lose a count, a load puts the clock back, or a release
  queues a page that was loaded again since its count was found to be 0. A run that ends with
  nothing under way is in order all along if and only if it has none of these steps
  (`PageCacheTheorems.CareIsExact`), and among runs whose stores are not torn, no pinned page is
  lost and no evicted one touched if and only if no eviction overlaps a load of the same page
  (`PageCacheTheorems.OverlapIsExact`).
- A descent of the index reads the root's pointer before it latches the root. Started just before
  a root split, it finds exactly the keys below the separator, and there always is one it misses,
  so that the assertion of `index_read` fails (`BTreeStale.StaleRoot`, `StaleRootMisses`).
- `release` of the cache wraps its count below zero: exactly one release per pin keeps the cache
  in order (`PageCache.Cache.Release`).
- The codec returns a list exactly when all its strings are balanced (`Codec.RoundTripExact`).
- The multi-version read loop keeps the best timestamp in 32 bits. It is right for every history
  exactly when the reader's timestamp is at most 2^32 (`MvccStore.PickExact`); a history on which
  it is wrong is reached by three writes (`MvccReserve.TruncationReached`).
- The deadlock detector starts its minimum at 1000 locks: a cycle whose members all hold at least
  1000 has no victim among them, and only such a cycle.

## Model

| member | source | states |
|---|---|---|
| `TicTocTheorems.TicTocSerializable` | trusted/concurrency_control/tictoc.cpp:53-243 | With the length comparison, after every interleaving the committed transactions executed serially in commit-timestamp order read the values they read, and leave the table as it is once no lock is held |
| `TicTocTheorems.AsWrittenSerializable` | trusted/concurrency_control/row_tictoc.cpp:108-157 | The code as written is serializable in the same sense on every run in which no compare-and-swap shortens a lease |
| `TicTocTheorems.LeasesGrowIff` | trusted/concurrency_control/row_tictoc.cpp:146-155 | In every invariant state, an action leaves every lease at least as long exactly when it is not a compare-and-swap over a longer lease |
| `TicTocTheorems.AllLeasesGrowIff` | trusted/concurrency_control/row_tictoc.cpp:133-155 | Over whole runs, leases only grow exactly when no compare-and-swap of the run meets a longer lease |
| `TicTocTheorems.RunFits` | trusted/concurrency_control/row_tictoc.cpp:136-145 | Lease lengths stay below 2^15 in every run, through the rebase |
| `TicTocTheorems.RunLengths` | trusted/concurrency_control/row_tictoc.cpp:134-135 | With the length comparison no run shortens a lease |
| `TicTocTheorems.WtsIncreases` | trusted/concurrency_control/row_tictoc.cpp:64-78 | Along every such run a row's write timestamp never falls, and every installed version raises it |
| `TicTocSteps.KeepInv` | trusted/concurrency_control/tictoc.cpp:100-187 | Every action of every transaction keeps the invariant that ties row words, leases and pending accesses to the serial history |
| `TicTocClient.CommitsAsAsked` | trusted/concurrency_control/tictoc.cpp:220-243 | In every run, with either exit test, each committed record has as read set exactly the values its transaction copied and as write set, for each row, the value of its last accepted access or modification, as a fold over the schedule tells them |
| `TicTocValid.CheckExact` | trusted/concurrency_control/tictoc.cpp:101-114 | In every run without a shortened lease, a locked row is refused if and only if its version was replaced or rebased after the transaction accessed it |
| `TicTocValid.LookExact` | trusted/concurrency_control/row_tictoc.cpp:108-133 | In every such run a read row passes if its version stands and its lease reaches the commit timestamp, is refused if not and the version moved or the row is locked, and is renewed otherwise |
| `TicTocValid.SwapExact` | trusted/concurrency_control/row_tictoc.cpp:134-155 | In every such run the compare-and-swap brings the lease exactly to the commit timestamp if and only if nobody touched the word; a loser is refused if and only if the version moved, the row is locked or the lease needs a new base |
| `TicTocAlone.RunsAlone` | trusted/concurrency_control/tictoc.cpp:53-243 | From any state, a program on free rows that meets nobody commits at the least timestamp possible, with the rows' values as its reads, its last writes in the table, and leases up to the timestamp on the rows it read; nothing else changes |
| `TicTocLostLease.LostLease` | trusted/concurrency_control/row_tictoc.cpp:153-154 | A run of the code as written commits two transactions that each read the other's row as it was before; neither serial order reproduces their reads |
| `RowTicToc.PackView` | trusted/concurrency_control/row_tictoc.h:20-25 | Packing lock bit, lease and write timestamp into 64 bits round-trips in both directions |
| `RowTicToc.Row.TryLock` | trusted/concurrency_control/row_tictoc.cpp:236-248 | Succeeds exactly on a word that was read unlocked and is unchanged at the compare-and-swap, and changes the lock bit only |
| `RowTicToc.Row.Release` | trusted/concurrency_control/row_tictoc.cpp:250-259 | Clears the lock bit and leaves the lease |
| `RowTicToc.Row.WriteData` | trusted/concurrency_control/row_tictoc.cpp:64-90 | The word becomes the new version with an empty lease, still locked if it was, exactly when the timestamp fits 48 bits; what spills over otherwise is told too |
| `RowTicToc.Row.GetTsWord` | trusted/concurrency_control/row_tictoc.cpp:199-219 | Returns the lock, write timestamp and lease end of the abstract word |
| `RowTicToc.Row.TryRenew` | trusted/concurrency_control/row_tictoc.cpp:108-157 | Under any interference: success means the version read is valid up to the requested timestamp, a store only replaces an unlocked word of that version and ends exactly there, and it keeps the lease from shrinking exactly when the word met was short enough; failure means a locked word, another version, or a rebase that lost its race; without interference it succeeds exactly on the version read, unlocked or with a lease long enough |
| `Serial.InsertConsistent` | trusted/concurrency_control/tictoc.cpp:220-243 | A transaction inserted at its logical timestamp, behind or before others, keeps every read of the history right, given that it and the later ones read the right values |
| `Serial.ConsistentIffReplay` | trusted/concurrency_control/tictoc.cpp:53-67 | All reads match the history exactly when the serial execution reproduces them |
| `Validation.CommitTs` | trusted/concurrency_control/tictoc.cpp:53-67 | The loop yields one timestamp, the least that is no less than every read write-timestamp and above every written lease |
| `Validation.SortAccesses` | trusted/concurrency_control/occ.cpp:42-52 | The bubble sort leaves the accesses in key order, a rearrangement of what they were |
| `SiloProof.SiloSerializable` | trusted/concurrency_control/silo.cpp:56-151 | Every run equals serial execution in the order in which the write locks became complete, with the same reads and final table |
| `SiloProof.InstallAssertion` | trusted/concurrency_control/row_silo.cpp:70-81 | The assertion that the new TID is larger and the row locked holds whenever a row is written |
| `SiloProof.TidsIncrease` | trusted/concurrency_control/silo.cpp:132-135 | Along every run a row's TID never decreases, and a write strictly increases it |
| `SiloLoop.Refines` | trusted/concurrency_control/silo.cpp:56-149 | Every step of the loops, with num_locks, retry and early checks, is a step of the protocol or leaves it as it is |
| `SiloLoopProof.LocksAreCounted` | trusted/concurrency_control/silo.cpp:59-76 | At every moment of every run a transaction holds exactly the locks of the part of its sorted write set that num_locks and its place tell; none after either exit and none before a new attempt |
| `SiloLoopProof.ReleaseAssertion` | trusted/concurrency_control/row_silo.cpp:96-104 | The assertion in release() never fires, in the retry, on the abort path or after an install: what is released is locked by the one that releases it |
| `SiloLoopProof.ExitsMove` | trusted/concurrency_control/silo.cpp:136-149 | The retry and both exits always have a next step, so they end with no lock held |
| `SiloLoopProof.AttemptsMove` | trusted/concurrency_control/silo.cpp:56-100 | Before its decision a transaction can always go on: take a free lock, be refused and start over, compare an id, or go on to validation with all locks |
| `SiloLoopProof.WriteSetValidates` | trusted/concurrency_control/silo.cpp:121-131 | The validation of the write set never fails |
| `SiloLoopProof.LoopsSerializable` | trusted/concurrency_control/silo.cpp:8-151 | The loops as they run are serializable in the order of completed locks |
| `SiloProof.KeepInv` | trusted/concurrency_control/row_silo.cpp:21-117 | Every action keeps the invariant tying TID words, locks and accesses to the history |
| `SiloClient.CommitsAsAsked` | trusted/concurrency_control/silo.cpp:140-147 | In every run each committed record has exactly the values its transaction copied and, for each row, the value it wrote last, as a fold over the schedule tells them |
| `SiloClient.ValidationExact` | trusted/concurrency_control/row_silo.cpp:44-58 | In every run the check after a lock and the validation of a read refuse a row if and only if somebody wrote it after the transaction accessed it or, for a read, has it locked |
| `SiloClient.CommitIdIsLeast` | trusted/concurrency_control/silo.cpp:132-135 | A commit takes the least id above the thread's last one and every id it met |
| `SiloAlone.RunsAlone` | trusted/concurrency_control/silo.cpp:8-151 | From any state of the loops, a program on free rows that meets nobody runs them to the end and commits, with the rows' values as its reads and its last writes in the table under one new id; nothing else changes |
| `OccProof.OccSerializable` | trusted/concurrency_control/occ.cpp:36-86 | With one timestamp counter, every run equals serial execution in end-timestamp order, reads and final table |
| `OccProof.InOrderSerializable` | trusted/concurrency_control/occ.cpp:73-78 | So does every run, with one counter or two, in which each end timestamp lies above the start of every other transaction at work on the rows written |
| `OccProof.WriteExact` | trusted/concurrency_control/row_occ.cpp:39-52 | Once a transaction has written a row, validation tells another one at work on it the truth if and only if that one started below the end timestamp |
| `OccProof.OrderExact` | trusted/concurrency_control/occ.cpp:70-73 | An end timestamp is in order if and only if validation stays exact for everybody, and if and only if the invariant survives it |
| `OccLatches.WriteAssertion` | trusted/concurrency_control/row_occ.cpp:45-52 | The assertion that the end timestamp exceeds the row's holds at every write of every run, with one counter or two |
| `OccProof.ValidationExact` | trusted/concurrency_control/row_occ.cpp:39-43 | In every run whose end timestamps are in order, validation of a row passes exactly when the row was not updated since the transaction read it |
| `OccLatches.NoLatchDeadlock` | trusted/concurrency_control/occ.cpp:62-69 | Latching in sorted order, with one counter or two: no circle of transactions waits for each other's latches |
| `OccLostUpdate.LostUpdate` | trusted/concurrency_control/occ.cpp:73-75 | With start and end timestamps from two counters a run commits two updates of one row that both read its initial value; neither serial order reproduces that |
| `OccProof.KeepInv` | trusted/concurrency_control/row_occ.cpp:17-57 | Every action, an end timestamp taken in order among them, keeps the invariant tying wts, latches and accesses to the history |
| `OccClient.AccessExact` | trusted/concurrency_control/row_occ.cpp:17-37 | In every run, with one counter or two, an access is refused if and only if a transaction that committed after the reader's start has written the row back; otherwise it holds the value of the last one that has, and how many have |
| `OccClient.CommitsAsAsked` | trusted/concurrency_control/occ.cpp:73-80 | In every run each committed record has exactly the values its transaction saw and, for each row, the value it wrote last, as a fold over the schedule tells them |
| `OccAlone.RunsAlone` | trusted/concurrency_control/occ.cpp:36-86 | From any state, a program on free rows not written after its start that meets nobody commits at the next end timestamp, with the rows' values as its reads and its last writes in the table; nothing else changes |
| `OccAlone.CommitsAlone` | trusted/concurrency_control/occ.cpp:36-86 | With one counter, in every run, it is enough that the rows are free |
| `MvccStore.PickBest` | trusted/concurrency_control/row_mvcc.cpp:139-154 | Up to 2^32 the read loop finds the valid version with the largest timestamp below the reader's |
| `MvccStore.PickExact` | trusted/concurrency_control/row_mvcc.cpp:140-150 | It does so on every history if and only if the reader's timestamp is at most 2^32 |
| `MvccStore.FindVersion` | trusted/concurrency_control/row_mvcc.cpp:139-150 | The loop computes the specified choice, with the 32-bit truncation |
| `MvccStore.MaxBelow` | trusted/concurrency_control/row_mvcc.cpp:209-219 | The collection loop finds the youngest version below the bound, or none |
| `MvccStore.MinValid` | trusted/concurrency_control/row_mvcc.cpp:273-279 | The recycling loop finds the oldest valid version |
| `MvccStore.FreeSlot` | trusted/concurrency_control/row_mvcc.cpp:252-268 | Finds the first unused slot with a buffer, else the last unused one |
| `MvccReserve.Collect` | trusted/concurrency_control/row_mvcc.cpp:204-237 | Garbage collection keeps the store in step with the unbounded history, for any `min_ts`: the kept oldest version is the youngest below it |
| `MvccReserve.Invalidate` | trusted/concurrency_control/row_mvcc.cpp:226-235 | Drops exactly the versions up to the bound and keeps the count exact |
| `MvccReserve.Recycle` | trusted/concurrency_control/row_mvcc.cpp:271-286 | Forced recycling keeps the store in step and gives up exactly the oldest version |
| `MvccReserve.ReserveRow` | trusted/concurrency_control/row_mvcc.cpp:199-312 | The slot returned is reserved for the prewrite, all versions after the oldest are kept, and the oldest kept moves only with four versions above it: to the youngest below `min_ts`, or by one when at least as many as the threads are above it |
| `MvccReserve.InstalledCore` | trusted/concurrency_control/row_mvcc.cpp:170-179 | Installing a prewritten slot adds exactly the written version to the history |
| `MvccReserve.BufferCore` | trusted/concurrency_control/row_mvcc.cpp:165-168 | Writing the reserved buffer changes no committed version: no buffer is shared |
| `MvccReserve.TruncationReached` | trusted/concurrency_control/row_mvcc.cpp:140-150 | Three writes into the slots the search gives them lead to a history on which the 32-bit read loop picks the wrong version |
| `Mvcc.RowMvcc.Read` | trusted/concurrency_control/row_mvcc.cpp:119-155 | Aborts exactly below the oldest version, waits exactly behind an older prewrite, otherwise returns a version below the reader, which up to 2^32 or above the latest is the one with the largest timestamp |
| `Mvcc.RowMvcc.Prewrite` | trusted/concurrency_control/row_mvcc.cpp:156-169 | The exact conditions to abort, wait or reserve; the buffer given out holds the version just below the writer; the oldest version kept moves only as `ReserveRow` says |
| `Mvcc.RowMvcc.Write` | trusted/concurrency_control/row_mvcc.cpp:170-180 | Adds one version above all others, every value served before stays the right one, pending requests up to the next prewrite are answered with it, and the oldest version kept moves only if one of them is a prewrite, as `ReserveRow` says |
| `Mvcc.RowMvcc.AbortPrewrite` | trusted/concurrency_control/row_mvcc.cpp:181-187 | Adds no version and answers the pending requests up to the next prewrite with the latest one; the oldest version kept moves only if one of them is a prewrite, as `ReserveRow` says |
| `Mvcc.RowMvcc.UpdateBuffer` | trusted/concurrency_control/row_mvcc.cpp:314-348 | Exactly the pending reads below the next pending prewrite, and that prewrite, are answered; the rest keep waiting |
| `Mvcc.RowMvcc.BufferReq` | trusted/concurrency_control/row_mvcc.cpp:37-58 | Adds one pending request and loses none, in a list doubled when full |
| `Mvcc.RowMvcc.RequestsAboveHistory` | trusted/concurrency_control/row_mvcc.h:44 | Every pending request is younger than every entry of the history, the latest version and the outstanding prewrite |
| `Mvcc.WriteAbove` | trusted/concurrency_control/row_mvcc.cpp:157-158 | A version at or above every served reader leaves each served value the youngest version below its reader |
| `MvccRun.Serve` | trusted/concurrency_control/row_mvcc.cpp:98-197 | Each request, whatever it is, is answered and changes the row as a specification without a version store says: exact conditions to refuse, wait or serve, which waiting requests are answered with what, and when and how far the oldest version kept may move |
| `MvccRun.AnyRun` | trusted/concurrency_control/row_mvcc.cpp:98-348 | Any list of requests runs as that specification says, reply by reply; the versions at the end are exactly the accepted writes; every value handed out on the way, to a reader at once (up to 2^32 or above the latest version) or after waiting and to a writer that committed, is that of the version with the largest timestamp below it in the final history; and a read is refused only after four accepted writes, one younger than the reader that lay below an earlier `min_ts` or that is among at least as many versions as the threads (and four), from it on |
| `WaitDie.GetValid` | trusted/concurrency_control/row_lock.cpp:63-135 | A request keeps waiters strictly descending and older than all owners, an exclusive owner alone and the head blocked; a refused one changes nothing and meets an older owner |
| `WaitDie.ReleaseValid` | trusted/concurrency_control/row_lock.cpp:167-230 | A release keeps the same and leaves no entry of the transaction |
| `WaitDie.ReleaseKeepsOthers` | trusted/concurrency_control/row_lock.cpp:174-221 | The entries after a release, promotions included, are the old ones minus the one that left |
| `WaitDie.RowLock.LockGet` | trusted/concurrency_control/row_lock.cpp:31-135 | The list operations do what the specification of a request says |
| `WaitDie.RowLock.LockRelease` | trusted/concurrency_control/row_lock.cpp:167-230 | The list operations do what the specification of a release says |
| `WaitDie.RunValid` | trusted/concurrency_control/row_lock.cpp:206-209 | Every row keeps the queue invariant in every run of requests on all rows |
| `WaitDie.NoDeadlock` | trusted/concurrency_control/row_lock.cpp:85-124 | In every reachable state the union of the rows' waits-for graphs has no cycle |
| `WaitDie.HeadIsBlocked` | trusted/concurrency_control/row_lock.cpp:211-221 | Where there are waiters, all owners conflict with the first one |
| `WaitDieExact.GetExact` | trusted/concurrency_control/row_lock.cpp:63-133 | A request is granted if and only if it conflicts with no owner and no waiter is younger, refused if and only if it conflicts with an owner and some owner is older, and waits otherwise |
| `WaitDieExact.GetKeeps` | trusted/concurrency_control/row_lock.cpp:103-133 | A granted or waiting request is added and nobody else moves: without it both lists are what they were; a refused one changes nothing |
| `WaitDieExact.ReleaseExact` | trusted/concurrency_control/row_lock.cpp:167-221 | After a release the waiters from the head on join the owners one by one and the rest stay in place |
| `WaitDieExact.RunPresent` | trusted/concurrency_control/row_lock.cpp:63-230 | After any run exactly those are on a row who asked for it, were not refused and have not released it, each with what it asked for |
| `WaitDieExact.LeavesByRelease` | trusted/concurrency_control/row_lock.cpp:167-230 | Nobody leaves a row but by its own release |
| `DlDetect.FinishedIsSafe` | trusted/concurrency_control/dl_detect.cpp:66-85 | From a thread whose search ended without a loop no cycle of live edges is reachable |
| `DlDetect.NextNode` | trusted/concurrency_control/dl_detect.cpp:40-96 | The recursive search ends by the number of unvisited threads, finds a loop exactly through a back edge on its own stack, and otherwise settles the thread |
| `DlDetect.Search` | trusted/concurrency_control/dl_detect.cpp:104-131 | Reports a deadlock exactly when the transaction is registered and a cycle of live edges is reachable; the victim has the fewest locks of the cycle, and is missing exactly when all hold 1000 or more |
| `DlDetect.Detector.DetectCycle` | trusted/concurrency_control/dl_detect.cpp:104-148 | The same on the registered dependencies, and flags exactly the victim to abort |
| `DlDetect.Detector.AddDep` | trusted/concurrency_control/dl_detect.cpp:24-38 | Adds exactly the edges to the listed live transactions |
| `DlDetect.Detector.ClearDep` | trusted/concurrency_control/dl_detect.cpp:150-161 | Leaves the thread without edges in or out |
| `PartLock.PartMan.Lock` | trusted/concurrency_control/plock.cpp:21-47 | Grants a free partition, queues behind an older owner in timestamp order, refuses otherwise; the shifted array is the sorted queue |
| `PartLock.PartMan.Unlock` | trusted/concurrency_control/plock.cpp:49-76 | The owner hands over to the oldest waiter, a waiter just leaves; tells whose wait count drops |
| `PartLock.UnlockedOK` | trusted/concurrency_control/plock.cpp:51-74 | An unlock keeps the owner older than the ascending waiters and removes exactly the caller |
| `PartLockRuns.KeepInv` | trusted/concurrency_control/plock.cpp:88-138 | Every step keeps: each transaction stands exactly where its progress says, and its ready count is the number of partitions where it waits |
| `PartLockRuns.RunInv` | trusted/concurrency_control/plock.cpp:88-138 | That invariant holds in every run |
| `PartLockRuns.LockMeansOwned` | trusted/concurrency_control/plock.cpp:100-124 | In every run a granted lock call owns every partition asked for; an aborted one owns and waits on none, with ready count 0 |
| `PartLockRuns.Exclusive` | trusted/concurrency_control/plock.cpp:25-27 | Two granted transactions never share a partition |
| `PartLockRuns.WaitsForOlder` | trusted/concurrency_control/plock.cpp:28-43 | Waiting, for an owner or behind a waiter, is always for an older transaction |
| `PartLockRuns.NoWaitCycle` | trusted/concurrency_control/plock.cpp:21-76 | In every run the waits-for graph over all partitions has no cycle |
| `PartLockRuns.OldestMoves` | trusted/concurrency_control/plock.cpp:111-120 | In every run the oldest active transaction has a step to take |
| `PartLockExact.TryExact` | trusted/concurrency_control/plock.cpp:21-50 | A request is granted if and only if the partition is empty, queued if and only if somebody older is there, and refused otherwise |
| `PartLockExact.LockNextExact` | trusted/concurrency_control/plock.cpp:88-110 | In every run a request on an empty partition makes the owner, one behind somebody older a waiter, and only one that finds others, all younger, starts to undo |
| `PartLockExact.OwnsWhatItAsked` | trusted/concurrency_control/plock.cpp:88-120 | In every run a transaction that holds its locks owns every partition it asked for when it began |
| `BTree.LookupExact` | untrusted/cache/index_btree.cpp:170-193 | Lookup from the root agrees with the multimap held by the leaves, on present and missing keys |
| `BTree.CoverUnique` | untrusted/cache/index_btree.cpp:343-377 | On each level exactly one node is responsible for a key |
| `BTreeProof.CutLeafKeeps` | untrusted/cache/index_btree.cpp:455-490 | Cutting a leaf keeps order, fences, parents, depth and chain, up to the separator still to be recorded |
| `BTreeProof.AttachKeeps` | untrusted/cache/index_btree.cpp:512-525 | Recording the separator in the parent restores the whole invariant |
| `BTreeProof.CutInnerKeeps` | untrusted/cache/index_btree.cpp:606-643 | Cutting an inner node and moving its children's parent links keeps the invariant, up to the next separator |
| `BTreeProof.RaiseKeeps` | untrusted/cache/index_btree.cpp:535-557 | A new root over a cut root restores the whole invariant, one level higher |
| `BTreeContent.GainsHolds` | untrusted/cache/index_btree.cpp:394-420 | A key put into the leaf that covers it changes exactly that key of the multimap |
| `BTreeContent.CutLeafHolds` | untrusted/cache/index_btree.cpp:456-473 | A cut loses no entry and invents none |
| `BTreeContent.CutInnerFilled` | untrusted/cache/index_btree.cpp:606-635 | Both halves of a cut inner node keep at least 7 keys, so 8 children |
| `BTreeContent.CutLeafFilled` | untrusted/cache/index_btree.cpp:456-473 | Both halves of a cut leaf keep at least 8 keys |
| `BTreeIndex.Index.Read` | untrusted/cache/index_btree.cpp:170-193 | Finds exactly the chain of the key, or nothing |
| `BTreeIndex.Index.InsertIntoLeaf` | untrusted/cache/index_btree.cpp:406-415 | Adds the key with its item, keeps everything else |
| `BTreeIndex.Index.SplitLeaf` | untrusted/cache/index_btree.cpp:422-490 | Adds the key, leaves two half-full leaves and a separator to record |
| `BTreeIndex.Index.InsertIntoParent` | untrusted/cache/index_btree.cpp:500-533 | Restores the invariant through any number of splits upwards, changing no leaf and no node beyond the lowest ancestor with room |
| `BTreeIndex.Index.SplitInnerInsert` | untrusted/cache/index_btree.cpp:559-651 | The same from a full parent on |
| `BTreeIndex.Index.Insert` | untrusted/cache/index_btree.cpp:195-243 | The item becomes the head of its key's chain, all other keys keep theirs, the invariant and occupancy hold, and only the leaf and its ancestors up to the lowest that is not full change keys, chains or children |
| `BTreeIndex.InsertsThenRead` | untrusted/cache/index_btree.cpp:170-243 | After any sequence of insertions a read of any key finds exactly what was inserted under it, newest first |
| `BTreeScan.StepIsSuccessor` | untrusted/cache/index_btree.cpp:134-155 | The leaf chain leads from each key to the next larger key of the multimap, and ends at the greatest |
| `BTreeScan.Next` | untrusted/cache/index_btree.cpp:134-155 | Returns the successor's chain, or nothing exactly at the end; with `samekey`, always nothing |
| `BTreeScan.DepthBound` | untrusted/cache/index_btree.cpp:204-222 | With 64-bit keys no path has more than 22 nodes |
| `BTreeStale.DescendExact` | untrusted/cache/index_btree.cpp:326-363 | A descent from any node ends in the leaf responsible for the key if and only if the key lies between that node's fences |
| `BTreeStale.ReadFrom` | untrusted/cache/index_btree.cpp:170-193 | A read that descends from any node finds a key that is there if and only if the key lies between that node's fences |
| `BTreeStale.StaleRoot` | untrusted/cache/index_btree.cpp:326-342 | A read that took the root's pointer before the root was split finds a key that is there if and only if it is below the separator |
| `BTreeStale.StaleRootMisses` | untrusted/cache/index_btree.cpp:535-557 | After every split of the root there is such a key that this read misses |
| `BTreeLatch.NodeLatch.Latch` | common/index_btree.h:63-84 | Succeeds exactly when the holders allow it; the word always tells its holders |
| `BTreeLatch.NodeLatch.Release` | common/index_btree.h:85-107 | Removes exactly the caller |
| `BTreeLatch.NodeLatch.Upgrade` | common/index_btree.h:108-132 | Succeeds exactly for the only reader, who is then the only holder |
| `BTreeLatchRuns.ExclusiveAlone` | common/index_btree.h:63-132 | In every interleaving of many operations on the words of many nodes, a node held exclusively is held by nobody else |
| `BTreeLatchRuns.KeepInv` | common/index_btree.h:63-132 | Every latch, release and upgrade keeps each word telling its holders |
| `BTreeLatch.Operation.Cleanup` | untrusted/cache/index_btree.cpp:302-312 | Releases exactly the ancestors kept for splits |
| `BTreeLatch.Operation.FindLeaf` | untrusted/cache/index_btree.cpp:322-392 | A granted insertion holds exclusively the leaf and exactly its ancestors up to the lowest that is not full, a read shares the leaf alone, a refused descent holds nothing; it is refused if and only if one of its attempts at a latch is |
| `BTreeLatch.Collect` | untrusted/cache/index_btree.cpp:204-222 | The list of latched nodes is exactly that chain, each once, at most 22 of 100 places |
| `BTreeLatch.LatchedInsert` | untrusted/cache/index_btree.cpp:195-243 | Under latches, an insertion changes only nodes it holds exclusively, a refused one nothing, no latch is left, and it succeeds if and only if every attempt at a latch does |
| `LogProof.AtomicLog` | untrusted/system/logger.cpp:377-517 | In every interleaving in which each publish is one step, entries below the persistent position are in the file byte for byte, no byte is written before it was filled, and a finished scan is never below the persistent position |
| `LogProof.AtomicIsOnTime` | untrusted/system/logger.cpp:377-384 | Such a run publishes on time, whatever the flusher does |
| `LogProof.StoreExact` | untrusted/system/logger.cpp:377-378 | A store of the published position keeps the invariant if and only if it is not late |
| `LogProof.SkipStoreBreaks` | untrusted/system/logger.cpp:377-378 | Leaving an entry unpublished always breaks it |
| `LogHarm.LateStoreHarms` | untrusted/system/logger.cpp:377-509 | After a late store there is a way to go on in which a scan ends below the persistent position; while a scan that has passed the writer is still under way, this is shown for values below the persistent position |
| `LogProof.Durable` | untrusted/system/logger.cpp:449-529 | In every run whose publishes are on time, every entry below the persistent position is in the file at its position, byte for byte, across wrap-around |
| `LogProof.NothingUnfilled` | untrusted/system/logger.cpp:458-517 | In every such run no byte reaches the file before its writer put it into the ring |
| `LogProof.ReadyAssertion` | untrusted/system/logger.cpp:501-509 | In every such run a finished scan is never below the persistent position and the flush is shorter than the ring |
| `LogBound.RingNeverOverrun` | untrusted/system/logger.cpp:367-384 | In every run, on time or not, reserved and still outstanding bytes never pass one ring beyond the persistent position |
| `LogBound.LeastSlack` | untrusted/system/logger.cpp:367-374 | For any slack in the guard that bound holds in every run if and only if the slack is at least the largest entry times the other threads, less one byte |
| `LogGuard.SplitGuardHolds` | untrusted/system/logger.cpp:367-384 | With that slack the bound also holds when the guard reads the two positions one after the other and both move on before it decides |
| `LogFlush.FlushReaches` | untrusted/system/logger.cpp:501-529 | In every run a flush moves the persistent position to the largest multiple of 512 that is ready and at most one block away, and adds exactly as many bytes to the file |
| `LogFlush.RunCalled` | untrusted/system/logger.cpp:367-411 | In every run the log holds exactly the entries handed over, in the order of reservation, back to back at aligned positions |
| `LogFlush.LogsEntry` | untrusted/system/logger.cpp:367-411 | From any state in which the guard lets an entry pass, its writer can log it and is idle again |
| `LogFlush.Drains` | untrusted/system/logger.cpp:449-529 | After any on-time run, once the writers are idle, the flusher can bring every full block into the file, and with it every entry that ends there |
| `LogProof.KeepInv` | untrusted/system/logger.cpp:377-411 | Every action of writers and flusher that publishes on time keeps the invariant |
| `LogProof.AtomicStoreOnTime` | untrusted/system/logger.cpp:377-378 | A publish whose load and store are one step is on time |
| `LogLate.UnfilledByteFlushed` | untrusted/system/logger.cpp:377-378 | A run with an entry starting with 0x7f writes to the file a byte that its writer has not copied yet |
| `LogLate.ReadyBelowPersistent` | untrusted/system/logger.cpp:378-384 | A run with a stale publish ends a scan below the persistent position |
| `LogRing.CopyIn` | untrusted/system/logger.cpp:393-400 | The one- or two-step copy puts each byte at its position modulo the ring |
| `LogRing.WrittenAt` | untrusted/system/logger.cpp:393-400 | The ring then holds the entry at its places and nothing else changed |
| `LogRing.Flush` | untrusted/system/logger.cpp:531-558 | The bytes written are those at the positions from start to end, in order |
| `PageCache.Cache.TryLoad` | common/lru_cache.cpp:54-65 | Run without interruption: pins a resident page and outdates its queue entries; a missing page changes nothing |
| `PageCache.Cache.Release` | common/lru_cache.cpp:29-52 | Unpins; the last release queues the page as the most recently released; the cache stays in order if and only if the page, when resident, was pinned |
| `PageCache.Cache.CacheFree` | common/lru_cache.cpp:68-91 | Evicts the unpinned page released longest ago, and fails exactly when every resident page is pinned |
| `PageCache.Cache.LoadAndSwap` | common/lru_cache.cpp:113-151 | Pins a resident page or inserts the new one, evicting only an unpinned page; refused exactly when one must go and all are pinned |
| `PageCache.Queues` | common/lru_cache.cpp:36-41 | After the last release the page has its one entry that is not outdated, behind all others |
| `PageCache.Evicted` | common/lru_cache.cpp:72-88 | Eviction keeps exactly one such entry for every other unpinned page and none for pinned ones |
| `PageCacheProof.KeepInv` | common/lru_cache.cpp:29-151 | Every step that is not torn and makes no eviction and load overlap keeps: counts are the pins plus the half-done loads, an unpinned page has one up-to-date queue entry and a pinned one none, and a timestamp not yet stored is in no entry of its page |
| `PageCacheTheorems.CareIsExact` | common/lru_cache.cpp:29-91 | A run from the empty cache that ends with nothing under way has exact counts, no lost tick, no pinned page missing or up for eviction and no access to an evicted page at every moment if and only if none of its steps overwrites a count or the clock with an outdated value, queues a page pinned again, or makes an eviction and a load of one page overlap |
| `PageCacheTheorems.OverlapIsExact` | common/lru_cache.cpp:54-91 | Among such runs without torn steps, no pinned page is ever missing and no evicted page accessed if and only if no eviction overlaps a load of the same page |
| `PageCacheTheorems.StaysDoomed` | common/lru_cache.cpp:57-88 | Once a load holds a page that is evicted or about to be, every continuation keeps it so until a pinned page is missing or an evicted one accessed |
| `PageCacheTheorems.PinSafe` | common/lru_cache.cpp:54-91 | In every run with none of those steps, whether it has ended or not, all that holds, and a page about to be removed has count 0, no pin and no load in progress |
| `PageCacheTheorems.NothingToEvict` | common/lru_cache.cpp:72-90 | In every such run an empty queue means that every page is pinned or being loaded |
| `PageCacheRaces.EvictedWhileLoaded` | common/lru_cache.cpp:57-88 | A run without torn steps evicts a page between the count and the stamp of a load, which then stamps an evicted page and leaves a pin on it |
| `PageCacheRaces.LostCount` | common/lru_cache.cpp:61 | A run without overlap in which two loads read the same count and a pinned page is evicted after one release; the lost store is its first careless step |
| `PageCacheRaces.LostTick` | common/lru_cache.cpp:62 | A run without overlap in which a load puts the clock back, a later load leaves an old queue entry up to date, and the page is evicted with a pin on it |
| `PageCacheRaces.LatePush` | common/lru_cache.cpp:36-42 | A run without overlap in which the last release queues a page that was loaded again after its count was found to be 0, and the page is evicted with a pin on it |
| `PageCacheRaces.LoadAlone` | common/lru_cache.cpp:54-65 | Undisturbed, the steps of a load add one to the count, stamp the page with the next tick or keep a larger stamp, and pin it |
| `PageCacheRaces.HitCounts` | common/lru_cache.cpp:117-120 | Undisturbed, `load_and_swap` of a page that is there adds one to its count under the latch |
| `PageCacheRaces.HitStamps` | common/lru_cache.cpp:121 | And it then assigns the tick it drew, whatever the page's timestamp is, pins the page and frees the latch |
| `PageCacheRaces.ReleaseAlone` | common/lru_cache.cpp:29-52 | Undisturbed, the steps of a last release leave the page with count 0 at the end of the queue |
| `VersionChain.HashChain.Insert` | trusted/system/hash_chain.h:57-95 | Keeps the chain strictly sorted with its exact size and adds exactly the version; fails exactly when it contradicts a present one |
| `VersionChain.HashChain.Get` | trusted/system/hash_chain.h:108-144 | The greatest version at or below the timestamp, or none exactly when all are above |
| `VersionChain.HashChain.Vacuum` | trusted/system/hash_chain.h:46-55 | Drops a prefix and changes no lookup from the given timestamp on |
| `VersionChain.InsertAll` | trusted/system/hash_chain.h:57-95 | Agreeing versions in any order are accepted and give the sorted chain of their set |
| `VersionChain.OrderIndependent` | trusted/system/hash_chain.h:57-95 | Two arrival orders of the same versions give the same chain |
| `VersionChain.RunAll` | trusted/system/hash_chain.h:46-95 | Agreeing insertions and vacuumings with bounds up to `v`, in any order, are all accepted, and every lookup from `v` on is that in the set of all versions inserted |
| `Codec.EncodeVec` | common/coder.cpp:8-16 | The loop builds the specified encoding |
| `Codec.DecodeVec` | common/coder.cpp:18-56 | The loop is the specified scanner, failed assertions included |
| `Codec.RoundTripExact` | common/coder.cpp:8-56 | Decoding an encoding returns the list if and only if all its strings are balanced |
| `Codec.RoundTrip` | common/coder.cpp:8-56 | For every list of pairs of balanced strings decoding returns the list and no assertion fires |
| `Codec.DecodedBalanced` | common/coder.cpp:28-50 | Whatever is decoded, from any input, is balanced |
| `Codec.EncodingBalanced` | common/coder.cpp:8-16 | The encoding is balanced itself |
| `Codec.NestedRoundTrip` | common/coder.cpp:8-56 | A tree of encodings of any depth comes back whole when its texts are balanced |
| `Codec.UnbalancedIsLost` | common/coder.cpp:28-50 | An instance: the pair of a closing and an opening brace comes back as two empty strings |

## Left out

- Network, enclave calls, storage back ends, statistics, benchmarks and parser: input, output and plumbing.
- YCSB and TPC-C transaction bodies; transactions here read and write any rows with any values.
- Aborts of TicToc, Silo and OCC are allowed at more points than the code has, and their loops over read and write sets take rows in any order, so the machines have more runs than the code; progress of their retry loops is not claimed.
- Access sets hold each row once; a row both read and written is one write access, as the engine's access list has it, so the programs of `Programs.dfy` do not read a row first and write it later.
- RowTicToc.Row.TryRenew: timestamps below 2^48, the width of the field; the code does not check for overflow.
- TicTocTheorems.AsWrittenSerializable: one direction; a run with a shortened lease can still be serializable, when nobody writes the row in between.
- TicToc with several versions, with write-permission locks, or without the atomic word; Silo without the atomic word; central OCC validation; Row_ts and Hekaton.
- Hardware memory reordering: each shared access is one step in program order.
- Mvcc.RowMvcc.Read: beyond 2^32, between the oldest and the latest version, only that some version below the reader is returned (see `MvccStore.PickExact`); readers' pointers into buffers recycled later are not modelled, a reader gets the value at once.
- `get_min_ts` is an arbitrary argument.
- Mvcc.RowMvcc.Prewrite: timestamps of versions, pending requests and the outstanding prewrite are distinct.
- The deadlock detector works on a snapshot of the dependencies, with arrays as long as the number of threads (the code allocates one element) and transaction ids below 2^31.
- NO_WAIT and DL_DETECT variants of the row lock.
- PartLock.PartMan.Lock: room in the waiter array is required of a request that waits, as the code asserts; a transaction's partitions are distinct.
- BTreeLatch.Operation.FindLeaf: other threads appear through the latches they refuse; the tree does not change under the descent, except for the root before it is latched (`BTreeStale`).
- BTreeLatch.LatchedInsert: one operation at a time; on a refusal the code stops at an assertion, the model returns.
- BTreeIndex.Index.Insert: an inserted item brings no chain of its own.
- The partitions of the index (each is a tree of its own), Merkle hashes and page verification of nodes; insert_into_parent tests the bound before the key, where the code reads one key beyond.
- LogProof.Durable: the sync path only, with the fullness guard as one step (its two reads are apart in `LogGuard`, for positions only); several loggers, log replay and remote sending are not modelled; a late publish can go unnoticed, so the condition on runs is sufficient.
- LogProof.NothingUnfilled: the same condition.
- LogProof.ReadyAssertion: the same condition.
- OccProof.InOrderSerializable: the condition on a run is sufficient; the exact conditions are those of single steps in OccProof.OrderExact.
- PageCache.Cache.TryLoad: one uninterrupted step; `PageCacheRuns` has its parts as steps of their own.
- PageCache.Cache.CacheFree: no try_load is half done; `PageCacheRuns` has the interleavings.
- PageCache.Cache.LoadAndSwap: no try_load is half done; `PageCacheRuns` has the interleavings.
- PageCacheTheorems.PinSafe: releases are of pins; a page leaves the cache and is freed in one step; counts and the clock do not wrap.
- LogHarm.LateStoreHarms: whether a late store can do harm while a scan that has passed the writer is under way depends on the other writers still to be read.
- Cache leases and eager offloading; no claim is made about `_cached_bytes`, which the swap path does not update.
- Freeing of memory, latches of the chain and of the cache, and decoding of rows and bucket nodes.
