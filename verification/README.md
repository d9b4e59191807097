# LogMemcached in Dafny

LogMemcached replaces memcached's slab allocator with one circular in-memory log that a
slave copies by RDMA and replays. This project models the parts where a log, an index and a
replica, or several threads, have to agree, and proves what they keep in every run.

| file | models |
|---|---|
| `layout.dfy` | item headers, `ITEM_key`, `ITEM_suffix`, `ITEM_ntotal`, what `item_make_header` prints |
| `memlog.dfy`, `memlog_class.dfy` | `memlog.c` as functions on a value, and as an object with fields updated in place |
| `store.dfy`, `early_wrap.dfy` | writers, index and cleaner over the log, one transition per critical section; a run that loses the count |
| `replication.dfy`, `replica_class.dfy` | replay and the pull loop of the slave, as functions and in place |
| `replica_runs.dfy`, `replica_order.dfy`, `replica_diverges.dfy` | master and slave together; when their indexes are equal; three runs after which they are not |
| `assoc.dfy`, `assoc_runs.dfy` | the incrementally expanding hash table, alone and under its striped locks |
| `cells.dfy`, `cells_replay.dfy` | metadata cells: freelist and reference counts; what replay on the slave does with them |
| `whole.dfy` | log, hash table and cells in one system: keys on the chains are read through the log |
| `pause.dfy` | stopping the world for the swap of the hash table |
| `cas.dfy` | `do_store_item` and CAS ids |
| `response.dfy`, `response_burst.dfy` | scatter/gather responses and partial sends; a message with too many fragments |
| `bipbuffer.dfy`, `logger.dfy` | the bip-buffer and the logger protocol on it |
| `jenkins_mix.dfy`, `jenkins.dfy` | `mix`, `final`, and `jenkins_hash` with its three ways to read a key |
| `tokenizer.dfy`, `get_answers.dfy` | `tokenize_command` and the key loop of `get`; the bytes of its answers |
| `runs.dfy`, `common.dfy` | runs of a transition system and the induction over them; shared definitions |

`dafny verify dfyconfig.toml` checks everything.

## How the memory is modelled

The log is a sequence of `L` cells, one per byte. A cell is a byte, or the first byte of an
item header together with the header's fields, or the first byte of a CAS id together with
the id; the other bytes a header or an id occupies hold nothing. Sizes and offsets are those
of the C structures (16-byte header, 8-byte CAS id, 35 as the smallest record that
`memlog.c` reckons with). `2^10 <= L < 2^31`, `use_cas` is on, `lru_log_enabled` is off.

Threads are modelled by their critical sections: a step of a transition system is what one
thread does between two points at which another can come in. A run is any sequence of
enabled steps. Two hypotheses of the log are about pace, not about locks, and stand in
`Store.Enabled`: an allocation that wraps finds the cleaner on the writer's lap, and a record
that the cleaner frees is no longer being written. A record takes at most `L / 8`.

## What turned out not to hold as such

Each of these comes with a lemma that says exactly when the property does hold, and with a
concrete input or a run from a start state for which it does not.

- `memory_allocate` does not look where the cleaner is. Its two counters stay exact if and
  only if it does not wrap while the cleaner is a lap behind (`Store.AccountingSurvivesIff`);
  a run reaches such a state (`EarlyWrap.EarlyWrapLosesCount`).
- Records take their place in the log before their value arrives, so two stores of a key can
  be linked in the other order, and a delete can leave a tombstone for an item that was
  replaced meanwhile; a `set` that gets no memory unlinks its key without any record, and so
  do expiry and `flush_all`. Each event is classified before it happens, from the log and the
  index: it is neutral for a key, restores the agreement of index and log, or breaks it. A
  slave that has caught up has the master's index if and only if for no key the last event
  that was not neutral was a breaking one (`ReplicaOrder.EventOutcome`,
  `ReplicaOrder.ReplicaEqualsMasterIff`). With all links, deletes and unlinks in order it has
  it (`ReplicaOrder.InOrderReplicaEqualsMaster`); three runs end with different indexes
  (`ReplicaDiverges.SwappedCommitsDiverge`, `ReplicaDiverges.StaleDeleteDiverges`,
  `ReplicaDiverges.FailedSetDiverges`).
- `bipbuf_poll` accepts any size up to the end of the array. It leaves a well-formed buffer if
  and only if the size is within region A (`BipBuffer.DropKeepsIff`,
  `BipBuffer.PollBeyondRegionA`).
- A pause keeps every worker and the cleaner out always, but it can return if and only if no
  worker is still waiting for `worker_hang_lock` from the round before when the lock is taken
  again (`Pause.PauseReturnsIff`), and then it cannot get stuck (`Pause.PauseNeverStuck`). Two
  runs get stuck: after a full round of pause and resume (`Pause.SecondPauseStuck`), and in
  the first round (`Pause.FirstPauseStuck`).
- The hash table is swapped alone if and only if there is no replication thread
  (`Pause.SwapAloneIff`): the one of a slave is not paused and can be in the table
  (`Pause.ReplayDuringSwap`).
- Replay on the slave takes a cell per store; a tombstone that finds its key gives it back, a
  store that replaces another does not (`CellsReplay.ReplacedCellIsLost`,
  `CellsReplay.CellsLeft`). The assertion that there is a cell holds throughout if and only if
  stores less such tombstones stay below the size of the pool (`CellsReplay.ReplaysIff`); two
  stores of one key exhaust a pool of two (`CellsReplay.TwoStores`).
- `add_iov` does not look at the result of `add_msghdr`. After a call some message has more
  than `IOV_MAX` fragments if and only if one had before, or a message was full, the list of
  messages too, and memory for the list was refused more often in a row than the message had
  room for fragments (`Response.Conn.AddIov`, `Response.CallBursts`; over TCP from the second
  message on: at the first refusal, `Response.TcpBurstsIff`). A connection for which it
  happens is `ResponseBurst.BurstOnRefusal`.
- `get` does not visit all keys when memory is refused. The loop cuts the refused key again
  as if it were a line of its own, so every key behind it is dropped
  (`Tokenizer.GetKeys`); the comment at memcached.c:3368-3372 promises an error then, but the
  loop ends only where the check after it is false. All keys are visited if and only if no
  key but the last was refused (`Tokenizer.AllVisitedIff`, `Tokenizer.GetTwoKeys`).
- A refused answer of `get` leaves the fragments that it had queued in front of the answer
  that follows. The keys up to the refused one are answered properly if and only if no refused
  attempt had queued anything (`GetAnswers.WholeAnswersIff`); over TCP an attempt leaves
  nothing if and only if no fragment was to spare when it began (`GetAnswers.AddAnswer`). A
  response with a torn answer is `GetAnswers.TornGet`.

## Model

| member | source | states |
|---|---|---|
| `Layout.SuffixLength` | items.c:229-234 | the suffix that `item_make_header` prints for a 31-bit length has at most 24 bytes, whatever the flags |
| `MemLog.CycleBytes` | memlog.c:82-87 | the chain of "/" in the length of the cycle record divides by huge unsigned numbers, so the length is exactly `mem_avail` |
| `Store.PrintedNumberFits` | memlog.c:81-82 | at every allocation that wraps at most 9 characters are printed into the buffer of 10 |
| `Store.WantedIsWellSized` | items.c:229-243 | whatever key, flags and length a client sends, what `do_item_alloc` asks for is a well-sized record: its size is that of header, key, CAS id, printed suffix and value, and the suffix length fits its byte |
| `MemLog.SelfDescribing` | memcached.h:105-120 | in a record that was filled, `ITEM_ntotal` is the allocated size, `ITEM_key` finds its key and `ITEM_suffix` its suffix |
| `MemLog.FillItemKeeps` | items.c:303-311 | filling a zeroed record as `do_item_alloc` does makes a record that describes itself, and touches nothing outside it |
| `MemLog.FillTombstoneKeeps` | items.c:256-269 | the same for the tombstone that a delete writes |
| `MemLog.OpKeepsRecord` | items.c:236-317 | every write of a writer to its record keeps it well formed for its new state and changes no byte outside it |
| `MemLogClass.LogMemory.constructor` | memlog.c:39-56 | the log starts zeroed, with all of it available |
| `MemLogClass.LogMemory.MemoryAllocate` | memlog.c:68-127 | the in-place code is the function `Allocate`, which `Store` reasons about |
| `MemLogClass.LogMemory.MemlogFreeItem` | memlog.c:215-265 | frees by re-reading the header, unlinks only a key whose entry is this record, and zeroes the record |
| `MemLogClass.LogMemory.MemlogFreeChunk` | memlog.c:267-278 | the loop over records is `FreeChunk` |
| `MemLogClass.LogMemory.DoMemlogClean` | memlog.c:155-181 | the counters after a chunk are those of `FinishClean` |
| `Store.WrapKeeps` | memlog.c:73-103 | closing a lap with the cycle record keeps the whole invariant: tiling, counters, records, zeroed space, index |
| `Store.AllocKeeps` | memlog.c:68-127 | so does every allocation: with room, without, wrapping, or wrapping and then failing |
| `Store.UpdateKeeps` | items.c:236-317 | so does every step of a writer on its record, linking and committing included |
| `Store.OldestIsFreeable` | memlog.c:215-245 | the record the cleaner reads next starts where it stands, and the length it reads from the header is the length that was allocated |
| `Store.FreeKeeps` | memlog.c:215-265 | freeing one record keeps the invariant; no index entry is left behind |
| `Store.FinishKeeps` | memlog.c:159-169 | the comparison of the two positions picks the right counter |
| `Store.StepKeeps` | memlog.c:68-278 | every enabled step meets the record it expects, stays inside the log and keeps the invariant |
| `Store.RunKeeps` | memlog.c:68-278 | the invariant holds in every state of every run |
| `Store.IndexAgreesWithLog` | memlog.c:215-265 | in every state of every run an index entry points at the start of a live, un-zeroed, ordinary record that carries its key |
| `Store.LookupFindsLiveRecord` | items.c:377-396 | the same for one key of a state that satisfies the invariant |
| `Store.AllocationIsFresh` | memlog.c:111-119 | what is handed out is zero and overlaps no live record |
| `Store.CleanerStaysBehind` | items.c:877-891 | with any allocations between the unlocked reads and the lock, each record freed ends strictly behind the writer, or at most at the physical end when the writer has wrapped |
| `Store.MarkerClosesTheLap` | memlog.c:73-91 | the cycle record ends exactly at `L`, starts at or before `L - 35`, and says so in its header |
| `Store.RingAccounting` | memlog.c:68-181 | in every run, with no clean in progress: same lap (freeing <= current, avail = L - current, free_from_beginning = freeing) or wrapped (current + avail = freeing, free_from_beginning = 0) |
| `Store.AccountingSurvivesIff` | memlog.c:68-127 | both counters stay exact if and only if the allocation does not wrap while the cleaner is a lap behind |
| `EarlyWrap.EarlyWrapLosesCount` | memlog.c:73-91 | a run on a log of 1024 bytes reaches a state with the writer a lap ahead and right behind the cleaner; its next allocation wraps and leaves the counters in neither shape |
| `Store.ChunkKeeps` | memlog.c:267-278 | a chunk clean is a sequence of single frees, each from a state of the invariant |
| `Store.CleanKeeps` | memlog.c:155-181 | a whole clean leaves the counters in the same-lap or in the wrapped shape |
| `Replication.ReplayInStep` | memcached.c:2455-2577 | the remaining size and the slave's available space never underflow, and its write position is always the replication offset |
| `Replication.ReplayResumes` | memcached.c:2455-2577 | a pass can be cut anywhere and resumed at the returned offset |
| `Replication.ReplayLocal` | memcached.c:2462-2486 | a chunk is replayed from its own bytes alone: what lies behind it has no influence |
| `Replication.PullResumes` | backup_rdma.c:841-845 | a pull of any size followed by a pull of the rest is one pull of everything |
| `Replication.ChunkingIsIrrelevant` | backup_rdma.c:831-919 | for every log and every sequence of chunk sizes: what is not yet applied is what one pass would still apply, and at the marker the result is that of one pass |
| `Replication.StuckMeansDone` | memcached.c:2474-2486 | when a round with a wide enough chunk makes no progress, index and position are those of one pass |
| `Replication.RoundsArePulls` | backup_rdma.c:831-919 | against a log that does not change, any number of rounds of the handler are pulls of its own chunk sizes up to the marker |
| `Replication.HandlerFinishes` | backup_rdma.c:831-919 | with records no longer than a chunk, more rounds than bytes are left reach index and position of one pass over the whole log; rounds that find nothing change neither |
| `Replication.RoundsDoOnePass` | backup_rdma.c:831-919 | so does the handler's loop, `Rounds`, on such a log |
| `ReplicaClass.Replica.ApplyItem` | memcached.c:2491-2545 | one turn of the replay loop in place |
| `ReplicaClass.Replica.DoStoreReplication` | memcached.c:2455-2577 | the loop with its offset and remaining size is `Replay` |
| `ReplicaClass.Replica.Round` | backup_rdma.c:838-916 | sizing, reading and replaying one chunk is `Pull`, and the offset stays inside the log |
| `ReplicaClass.Replica.ReplicationHandler` | backup_rdma.c:831-919 | the handler's loop is `Rounds` over the logs that its reads see |
| `ReplicaRuns.EventKeeps` | memcached.c:2669-2690 | every step of the master and every pull keeps master and slave related |
| `ReplicaRuns.ReplicaIsPrefix` | memcached.c:2455-2577 | in every run within one lap the slave's index is the fold of the records before the first it could not apply, and each entry's key and payload are the master's |
| `ReplicaRuns.PullIsMaximal` | memcached.c:2462-2486 | and a pull stops only at the marker, at an unfinished record, at one that reaches beyond the chunk, or within 35 bytes of its end |
| `ReplicaRuns.PullCatchesUp` | backup_rdma.c:831-919 | with nothing dirty on the master, one pull of the rest applies everything |
| `ReplicaOrder.EventOutcome` | memcached.c:2654-2690 | for every state, event and key, the unlink after a set without memory included: a neutral event leaves the agreement of the master's index with the log on the key as it is, a restoring one makes it hold, a breaking one makes it fail |
| `ReplicaOrder.AgreesIff` | memcached.c:2654-2690 | in every run index and log agree on a key if and only if no event broke that without a later one that restored it |
| `ReplicaOrder.ReplicaEqualsMasterIff` | memcached.c:3709-3724 | in every run: a slave that has caught up, with no delete halfway, has the master's index if and only if for no key the agreement was broken for good |
| `ReplicaOrder.LogOrderIsInOrder` | memcached.c:2654-2690 | a link is in order when no later record of its key has acted, a delete when besides it hits its victim, an unlink without a record when the key is not linked or the log says it is not there |
| `ReplicaOrder.InOrderReplicaEqualsMaster` | memcached.c:2669-2690 | in every run with all events in order, nothing dirty and no delete halfway, one pull of the rest gives the slave the master's index |
| `ReplicaDiverges.SwappedCommitsDiverge` | memcached.c:2654-2690 | a run with two stores of a key, linked in the other order, after which the slave has caught up and has another index than the master |
| `ReplicaDiverges.StaleDeleteDiverges` | memcached.c:3709-3724 | a run in which a delete writes its tombstone behind the place of a newer store that is linked before the delete goes on; the unlink misses, the master keeps the value, and the slave that has caught up has nothing |
| `ReplicaDiverges.FailedSetDiverges` | memcached.c:3459-3468 | a run in which stores fill the lap, a further set finds no memory, and the key is unlinked without a record: the slave that has caught up still has it |
| `Assoc.HomeIsEnough` | assoc.c:78-103 | at any stage of an expansion, searching the one home bucket finds a key if and only if it is mapped, and then its cell |
| `Assoc.NoCellTwice` | assoc.c:156-202 | no cell is on two chains or twice on one |
| `Assoc.InsertKeeps` | assoc.c:156-180 | inserting a new key adds it to the map and keeps the representation |
| `Assoc.DeleteKeeps` | assoc.c:182-202 | bypassing a cell removes its key and nothing else |
| `Assoc.ExpandKeeps` | assoc.c:126-146 | starting an expansion leaves the map as it is |
| `Assoc.ExpandFailureKeeps` | assoc.c:142-146 | so does a failed allocation |
| `Assoc.LowDoubles` | assoc.c:222-232 | a bucket splits into the bucket of the same number and that number plus the old size |
| `Assoc.HomeMoves` | assoc.c:78-88 | when `expand_bucket` moves on, exactly the hash values of that bucket change home |
| `Assoc.MigrationStarts` | assoc.c:227-228 | taking an old chain in hand leaves every other cell where lookups look |
| `Assoc.MigrationMoves` | assoc.c:227-232 | moving one cell keeps that |
| `Assoc.MigrationEnds` | assoc.c:234-240 | when the chain is empty the table stands for the same map as before |
| `Assoc.HashTable.constructor` | assoc.c:63-76 | an empty map |
| `Assoc.HashTable.Find` | assoc.c:78-103 | returns the mapped cell, or null |
| `Assoc.HashTable.HashItemBefore` | assoc.c:107-123 | finds the link that leads to the key's cell |
| `Assoc.HashTable.Insert` | assoc.c:156-180 | the map with the key added; asks for an expansion exactly when more than 1.5 items per bucket are stored |
| `Assoc.HashTable.Delete` | assoc.c:182-202 | the map without the key |
| `Assoc.HashTable.GrowTable` | assoc.c:126-146 | the same map, with or without the larger table |
| `Assoc.HashTable.MigrateBucket` | assoc.c:226-246 | the same map, one bucket further; past the last one the expansion is over |
| `AssocRuns.OneStripe` | thread.c:120-138 | a hash value at home in one of the three buckets of a migration, before or after, has the lock the migration holds; under any other lock its home stays |
| `AssocRuns.DestinationInMigration` | assoc.c:229-232 | every cell moved goes to one of the two new buckets |
| `AssocRuns.OneLockCoversMigration` | assoc.c:222-246 | every cell in the mover's hand or on a chain it touches is guarded by that one lock |
| `AssocRuns.InsertMeanwhile` | assoc.c:156-180 | an insertion under another lock, between any two moves, keeps the migration's invariant |
| `AssocRuns.DeleteMeanwhile` | assoc.c:182-202 | so does a deletion |
| `AssocRuns.EnabledFits` | assoc.c:156-246 | every step that the locks allow finds the buckets and cells it reads and writes |
| `AssocRuns.RunKeeps` | assoc.c:210-256 | in every run of insertions, deletions, expansions and single cell moves, interleaved as the locks allow, the table represents its map |
| `AssocRuns.FindAlways` | assoc.c:78-103 | in every state of every run a lookup under the key's lock is exact, and `hash_items` is the size of the map |
| `AssocRuns.NoCellLost` | assoc.c:226-246 | every mapped cell is on a chain or in the mover's hand |
| `AssocRuns.NoCellDuplicated` | assoc.c:226-246 | and only in one place |
| `AssocRuns.InUseIsMapped` | assoc.c:78-103 | a cell on a chain or in the mover's hand carries a key that maps to it |
| `Cells.TakeFreeList` | items.c:109-131 | taking the first cell leaves a well-formed doubly linked list of the others |
| `Cells.PutFreeList` | items.c:148-162 | putting a cell back puts it first |
| `Cells.StepKeeps` | items.c:377-485 | every operation keeps list, flags and counts exact |
| `Cells.CountsAreExact` | items.c:377-485 | in every run: count = holders + 1 if linked; on the freelist, once, exactly when unlinked and unreferenced |
| `Cells.ReferencesConserved` | items.c:724-728 | references held are references handed out less references released, over every run |
| `Cells.FreeIffReleased` | items.c:430-438 | in every state of every run a cell is on the freelist if and only if it is not linked and every reference handed out was taken back |
| `Cells.CellPool.constructor` | items.c:74-106 | the loop links all cells, the last one first |
| `Cells.CellPool.FreelistAlloc` | items.c:109-131 | the first free cell with one reference, or null exactly when there is none |
| `Cells.CellPool.FreelistFree` | items.c:148-162 | the in-place code is `PutFree` |
| `Cells.CellPool.ReleaseItem` | items.c:430-438 | one reference less; the assertions on flags and count hold, and the cell goes back at zero |
| `Cells.CellPool.GetItem` | items.c:724-728 | one reference more |
| `Cells.CellPool.LinkItem` | items.c:377-396 | its assertion on the flags holds |
| `Cells.CellPool.UnlinkItem` | items.c:399-413 | the link's reference goes, and the cell with it if it was the last |
| `Cells.CellPool.ReplaceItem` | items.c:478-485 | its assertion holds, and it is unlink followed by link |
| `CellsReplay.PutKeeps` | memcached.c:2519-2534 | replay of a store uses up one cell and keeps list, flags and counts exact |
| `CellsReplay.TombKeeps` | memcached.c:2502-2508 | replay of a tombstone that finds its key gives one cell back |
| `CellsReplay.CellsLeft` | memcached.c:2491-2545 | for every list of records: free cells = all cells - stores + tombstones that hit; free, linked and replaced cells together are all of them |
| `CellsReplay.ReplaysIff` | memcached.c:2520-2521 | the assertion that there is a cell holds throughout if and only if before every store, stores less hits are fewer than the cells |
| `CellsReplay.ReplacedCellIsLost` | memcached.c:2529-2531 | a store that finds its key leaves the earlier cell neither linked nor free, with one reference |
| `CellsReplay.TwoStores` | memcached.c:2519-2534 | two stores of one key leave a pool of two cells without a cell for a third |
| `CellsReplay.SlaveItems.StoreRecord` | memcached.c:2519-2534 | the in-place code is the model's `Put`, and it fails exactly when the freelist is empty |
| `CellsReplay.SlaveItems.DeleteRecord` | memcached.c:2502-2508 | the in-place code is the model's `Tomb` |
| `Whole.StepKeeps` | items.c:377-485 | every step of the log, the table and the cells, taken together as the item locks make them, keeps all three invariants and: the index maps a key to the record its cell's item pointer leads to |
| `Whole.EveryWriteHappens` | items.c:377-485 | whatever the log can do in a state of the invariant, the whole can do, with the lock of the key that changes and a cell to link |
| `Whole.RunKeeps` | items.c:377-485 | both in every state of every run |
| `Whole.ItemsAreLive` | assoc.c:90-99 | in every run, also while the cleaner frees and a bucket moves: a cell on a chain points at a live record whose key in the log is the cell's key, is not on the freelist and has a reference |
| `Whole.LookupThroughLog` | assoc.c:78-103 | a lookup under the key's lock that compares keys in the log finds the key if and only if the index has it, and then its record |
| `Pause.StepKeeps` | thread.c:140-199 | every step keeps: bytes sent, bytes read and registrations of a round match for each worker, `init_count` is their sum, the locks are where they should be |
| `Pause.TableSwapIsAlone` | assoc.c:258-272 | when a pause has returned, in any round of any run: each worker registered once in this round and waits at the lock, the cleaner is locked out, and nobody but the maintenance thread and the replication thread of a slave can take a step |
| `Pause.SwapAloneIff` | assoc.c:258-272 | in a returned pause of any run nobody but the maintenance thread can take a step if and only if the process has no replication thread |
| `Pause.ReplayDuringSwap` | backup_rdma.c:831-919 | a run of a slave in which that thread is in the table while it is swapped |
| `Pause.NeverReturns` | thread.c:146-155 | a worker left waiting at the lock when it is taken again stays there, in every continuation |
| `Pause.PauseReturnsIff` | thread.c:157-199 | a pause that has taken the lock can return if and only if there is no such worker |
| `Pause.PauseNeverStuck` | thread.c:157-199 | and then, whatever has happened since, it can still return |
| `Pause.SecondPauseStuck` | thread.c:146-199 | a run of one full round and the start of another that cannot return |
| `Pause.FirstPauseStuck` | thread.c:146-199 | a first round that cannot return |
| `Response.RegrowKeeps` | memcached.c:818-842 | repointing after regrowth leaves every message its fragments |
| `Response.AddedKeeps` | memcached.c:876-893 | the fragment lands right behind the last message's, and all messages stay contiguous and within bounds |
| `Response.Conn.EnsureIovSpace` | memcached.c:818-842 | the loop over the messages repoints each to where the one before ends |
| `Response.Conn.AddMsghdr` | memcached.c:262-302 | opens an empty message, with room for the header over UDP, and leaves the stream as it was; refused exactly when the list is full and cannot grow, and then nothing changes |
| `Response.Conn.AddIov` | memcached.c:852-899 | the stream grows by exactly the buffer, or by a prefix when memory for fragments is refused; messages stay contiguous, UDP messages and the first TCP message within 1400 bytes; all counts after the call are those of `Turns`; some message exceeds `IOV_MAX` fragments if and only if one did or `Bursts` holds of the counts before, the length and the refusals |
| `Response.CallBursts` | memcached.c:870-898 | the condition message by message: a full message in a full list bursts if and only if the refusals in a row outnumber the fragments it has room for |
| `Response.TcpBurstsIff` | memcached.c:872-876 | over TCP, from the second message on: if and only if the last message has `IOV_MAX` fragments, the list is full and the first request is refused |
| `ResponseBurst.BurstOnRefusal` | memcached.c:872-876 | ten messages of 1024 fragments in a list of ten, and one refusal: the last message has 1025 |
| `ResponseBurst.NoBurstOnGrant` | memcached.c:872-876 | the same call without the refusal keeps the bound |
| `Response.AssembledIsPending` | memcached.c:4360-4370 | what is ready to be sent over TCP is exactly what was added |
| `Response.CutHead` | memcached.c:4376-4389 | dropping sent fragments and cutting the next one leaves exactly the unsent rest |
| `Response.Conn.Transmit` | memcached.c:4360-4416 | for any partial send, sent plus pending is unchanged; complete is reported only when nothing is pending |
| `Response.Conn.DriveWrites` | memcached.c:4694-4732 | repeated calls: on completion exactly the pending bytes were sent |
| `Response.Respond` | memcached.c:3255-3305 | from buffers to the wire: what the client has is a prefix of the buffers' bytes, and all of them on completion |
| `Cas.StoreMeans` | memcached.c:2586-2701 | for each command: when it stores, what the value is, what is answered otherwise, and that nothing else changes |
| `Cas.GoneForGood` | items.c:389-391 | once an item is replaced or unlinked, whatever its key links to later has a larger id |
| `Cas.NoLostUpdate` | memcached.c:2601-2631 | in every run a cas with the id read at an earlier state succeeds if and only if that very item was linked all the while |
| `Cas.AtMostOneWins` | memcached.c:2601-2631 | of two clients with the same id at most one stores |
| `Cas.ItemStore.GetCasId` | items.c:184-190 | each id is one more than the last |
| `Cas.ItemStore.DoItemUnlink` | items.c:399-413 | the key is gone, as the model's unlink has it |
| `Cas.ItemStore.Gets` | memcached.c:3273-3275 | the id of the linked item, or none |
| `Cas.ItemStore.DoStoreItem` | memcached.c:2586-2701 | the branches in place are `Store` |
| `BipBuffer.GrowKeeps` | bipbuffer.c:91-130 | a push queues the bytes at the write position and costs no more free space than it takes, a switch to B included; B is off only while the room behind A is no less than the room in front of it |
| `BipBuffer.FreeSpaceIsFree` | bipbuffer.c:77-89 | writing where a request says does not touch what is queued |
| `BipBuffer.DropKeeps` | bipbuffer.c:151-180 | a poll takes bytes from the front and never lowers the free space |
| `BipBuffer.DropKeepsIff` | bipbuffer.c:151-180 | a poll keeps the buffer well formed if and only if it stays within region A |
| `BipBuffer.PollBeyondRegionA` | bipbuffer.c:156-161 | a buffer and a size for which it does not |
| `BipBuffer.RequestIsAPromise` | logger.c:239-267 | after a request for n bytes, puts of at most n bytes together all succeed, with any polls in between |
| `BipBuffer.Buffer.constructor` | bipbuffer.c:42-57 | an empty queue |
| `BipBuffer.Buffer.Request` | bipbuffer.c:77-89 | null exactly when there is no room, else the write position |
| `BipBuffer.Buffer.Push` | bipbuffer.c:91-107 | the queue grows by the bytes at the write position, or nothing changes |
| `BipBuffer.Buffer.Offer` | bipbuffer.c:109-128 | the queue grows by the data, or nothing changes |
| `BipBuffer.Buffer.PeekAll` | bipbuffer.c:142-149 | the front of the queue, null exactly when it is empty |
| `BipBuffer.Buffer.Poll` | bipbuffer.c:151-180 | null exactly when empty or beyond the array; within region A the queue loses that many bytes |
| `Logger.LogKeeps` | logger.c:604-682 | logging an entry keeps both regions made of whole entries and what was peeked as it was |
| `Logger.PollGood` | logger.c:317-323 | polling what was peeked leaves whole entries |
| `Logger.RunKeeps` | logger.c:289-332 | both in every run of workers and logger thread |
| `Logger.PeekIsStable` | logger.c:289-332 | while the logger thread parses, what it peeked is unchanged, is whole entries, is the oldest of what was logged, and its poll cannot return null |
| `Logger.ParseEntries` | logger.c:303-315 | the walk over the entries never runs past the peeked size |
| `Logger.WorkerLog.LoggerLog` | logger.c:604-682 | an entry is queued whole or dropped and counted; an entry within its bound never fails after the request |
| `Logger.WorkerLog.LoggerThreadRead` | logger.c:289-332 | both assertions hold, and region A is consumed |
| `Logger.Watcher.Flush` | logger.c:345-438 | for every result of poll and write: bytes move from the queue to the client, none lost; the watcher is closed exactly on a hang-up, a write of nothing or a hard error |
| `Logger.Watcher.WriteEntry` | logger.c:226-269 | a line is queued whole, after the note of skipped lines, or skipped whole and counted, always so when a flush closed the watcher; the offer after the request cannot fail |
| `JenkinsMix.XorTwice` | jenkins_hash.c:79-87 | exclusive or on 32-bit words undoes itself |
| `JenkinsMix.MixIsBijective` | jenkins_hash.c:37-87 | `mix` has a two-sided inverse on triples of words |
| `Jenkins.AddWord32` | jenkins_hash.c:138-180 | a masked aligned load adds exactly the key's bytes, though it may read past them |
| `Jenkins.AddWord16` | jenkins_hash.c:206-249 | so do the 16-bit loads |
| `Jenkins.AddWord8` | jenkins_hash.c:253-291 | so do the byte loads that fall through |
| `Jenkins.HashBy` | jenkins_hash.c:138-296 | loop and last block of each path compute the byte-wise definition |
| `Jenkins.JenkinsHash` | jenkins_hash.c:126-297 | for every address, length and surrounding memory the value is that of the byte-wise definition on the key |
| `Tokenizer.FieldsCut` | memcached.c:2741-2758 | a run of non-spaces before a space or the end is the first field |
| `Tokenizer.CutField` | memcached.c:2741-2766 | turning it into a token keeps: tokens so far plus fields still to come are the line |
| `Tokenizer.TokenizeCommand` | memcached.c:2731-2773 | at most `max_tokens` entries are written; the tokens are the fields up to where the terminal token points, or all; only spaces are overwritten, and nothing from there on |
| `Tokenizer.VisitBatch` | memcached.c:3200-3345 | the inner loop visits the batch's keys up to the first that is too long or is refused memory |
| `Tokenizer.KeyAgain` | memcached.c:3351-3354 | cutting the line again at a refused key gives that key alone |
| `Tokenizer.GetKeys` | memcached.c:3199-3356 | all batches together visit exactly the keys of the line, in order, or those before one longer than 250; with any number of refusals of one key, exactly the keys up to it |
| `Tokenizer.AllVisitedIff` | memcached.c:3217-3229 | so all keys are visited if and only if no key but the last was refused |
| `Tokenizer.ProcessGet` | memcached.c:3190-3380 | a line of at least two fields visits all its fields but the first, with the same two exceptions |
| `Tokenizer.GetTwoKeys` | memcached.c:3351-3356 | on the line "get a b", with the first key refused once, only "a" is visited |
| `GetAnswers.AddAnswer` | memcached.c:3286-3302 | one attempt at a hit queues the whole answer or a prefix of it; with memory refused throughout and TCP it leaves nothing if and only if no fragment was to spare |
| `GetAnswers.AnswerKeys` | memcached.c:3199-3356 | the response is the answers of the keys in order, up to a refused one, whose earlier attempts stand torn in front of its answer; over TCP only the first refused attempt can leave anything |
| `GetAnswers.WholeAnswersIff` | memcached.c:3286-3302 | these are the proper answers if and only if no refused attempt had queued anything |
| `GetAnswers.TornGet` | memcached.c:3290-3301 | a response of one key, refused once with one fragment to spare, is longer than its answer |

## Left out

- RDMA verbs, queue pairs, the handshake and GID encoding: a chunk read is an atomic snapshot of the master's log.
- Several laps of replication and reclamation on the slave: the program itself relies on relative speed there.
- Compiler barriers, torn reads of the hardware, `usleep`: not modelled.
- The `lru_log_enabled` path, `do_item_touch`, and `incr`/`decr`, which rewrite an item or its CAS id in place.
- Expiry, `flush_all` and wall-clock time: in the log and replica models an unlink without a record may happen at any time.
- Clients of a slave: its index changes by replay only.
- The binary protocol, SASL, libevent, socket handling, `build_udp_headers`.
- `crawler.c`, statistics, `cache.c`, `util.c`, `murmur3_hash.c`, option parsing and start-up: they would only add easy members.
- The big-endian version of `jenkins_hash`.
- Store.StepKeeps: takes the two pace hypotheses of `Store.Enabled` and records of at most `L / 8`, which the program does not check; `Store.AccountingSurvivesIff` says what the first one is worth.
- Store.AllocKeeps: takes the first pace hypothesis, that a wrapping allocation finds the cleaner on the writer's lap; without it the counters fail, as `EarlyWrap.EarlyWrapLosesCount` shows.
- Store.FreeKeeps: takes the second, that the record being freed is no longer being written; the program relies on the distance of the cleaner for that.
- MemLog.OpKeepsRecord: takes the tombstone bit as the field `deleted`; `Store.Wanted` sets it from bit 7 of the flags, a client's number included.
- Replication.ChunkingIsIrrelevant: for a master that does not change during the rounds; for one that does, `ReplicaRuns.ReplicaIsPrefix` holds.
- Replication.HandlerFinishes: for a log that does not change and records no longer than one chunk, since a longer record is never taken.
- ReplicaRuns.ReplicaIsPrefix: one lap, up to and including the cycle marker, with the master's cleaner asleep, although it wakes in the last quarter of a lap; CAS ids differ, since the slave draws its own.
- ReplicaOrder.ReplicaEqualsMasterIff: for such runs, and for a slave that has applied the whole lap while no delete is between its tombstone and its unlink.
- AssocRuns.RunKeeps: the threads of a master; the replication thread of a slave takes no item lock. An insertion, a deletion and the move of a cell are one step each, as the lock of the stripe makes them for everybody who looks at the same chains; keys come with an arbitrary hash function.
- Cells.StepKeeps: at most 65534 holders of a cell at once, so that the 16-bit count does not wrap; operations on one cell are serialised by its item lock.
- Cas.NoLostUpdate: ids are unbounded; the 64-bit counter is taken not to wrap.
- Response.Conn.AddIov: the condition on `IOV_MAX` is exact for TCP calls that succeed and for UDP calls with memory for fragments; for a TCP call that fails it is necessary, for a UDP call short of memory only a list that is refused can make the bound fail. Finitely many refusals, since with a full 1400-byte message that is refused for ever the loop of the program does not end.
- Response.Conn.Transmit: partial sends are those of TCP; a UDP datagram goes out whole or not at all.
- Logger.WorkerLog.LoggerLog: an entry whose formatting failed keeps whatever size the buffer held, taken as any natural number; a negative one is not modelled.
- Logger.Watcher.Flush: one watcher, so not the array of poll results that all watchers share; a disconnect is noticed by poll or write, not by a read.
- Logger.Watcher.WriteEntry: when a flush has closed the watcher, the program goes on with the object it has freed; the model keeps its fields.
- Tokenizer.GetKeys: the lookup itself and the return of `gets` when memory for a CAS suffix is refused are not modelled; a key that is refused for ever makes the loop of the program endless.
- GetAnswers.AnswerKeys: `get`, not `gets`; the list of messages can grow; a refusal to grow the list of items, which comes before anything is queued, is not modelled.
- Whole.RunKeeps: the item pointer is set when the cell is linked, not when it is allocated.
- Pause.TableSwapIsAlone: the crawler's pause is not modelled; writes to the pipes succeed; what the replication thread of a slave finds in a table that is being swapped is not modelled.
