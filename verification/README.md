# csl: containers, queues, synchronisation and the TCP hand-off, in Dafny

This project models the hard core of the csl C++ library and proves what it is for. The
modules build on each other, lowest first.

- **BitWord, ByteTables, WordSearch, Chunks, InpVec** model `inpvec`, the sparse vector
  that keeps its objects in place in a list of chunks. Each chunk has 64-bit occupancy
  words that are searched byte by byte through 256-entry tables. The vector is proved to
  be a finite map from index to object, under growth, freeing, both free-slot searches
  and iteration.
- **Queue** models the FIFO that is threaded through `inpvec` slots by position, with
  handlers that keep a popped item's slot until they are reset.
- **Event, Mutex** model the token event and the recursive mutex over a condition variable,
  one step per critical section, with threads that sleep, are woken, or have timed out.
- **Listener** models the hand-off of connections between the event loop, the new-data queue,
  the pool workers and the idle queue, as a state machine over every interleaving.
- **Pbuf, XdrCursor, Xdr, XdrBuf** model the paged byte buffer and XDR coding on it (RFC 4506,
  sections 3, 4.1, 4.5 and 4.10; the program's length word has 64 bits).
- **Trie** models the index of the hash, a byte trie stored in one `inpvec`. **Division** holds
  the arithmetic of quotients that it shares with Xdr.
- **CircBuf** models the circular buffer of linked cells with its two-phase push.
- **Crc** models the table-driven CRC-64.

State that the program updates in place is a class: `InpVec.Vec`, `Queue.Queue`,
`Queue.Handler`, `Event.EventImpl`, `Mutex.MutexImpl`, `Pbuf.Buffer`, `XdrBuf.Reader`,
`Trie.Index`, `CircBuf.Cell`, `CircBuf.CircBuf`. Each method's postcondition ties the new
state to a function of the old one, and the lemmas are about those functions.

## Findings

What the program's comments or names promise and the code does not do; each has a lemma or
method with a concrete case, and the exact condition where one exists.

- `wakeup_cb` says that a missing token "should not happen". It can: a worker appends to the
  idle queue before it notifies, and the loop may pop in between (`Listener.TokenCanBeMissing`;
  exactly when: `Listener.TokenMissing`).
- `iterator::next_used` does not search a following chunk from its start, so `index::split`
  can lose pages (`Trie.LostPage`; exactly when: `Trie.AllRegisteredIff`).
- A split that registers no page lets the next split link the same block, so that a key can resolve
  to a page that was never stored for it (`Trie.BlockShared`; the next split links the same block
  exactly if this one registered nothing: `Trie.NextBlock`).
- `recursive_unlock` can leave a sleeper on a free mutex with no one woken
  (`Mutex.RecursiveUnlockStrands`; exactly when: `Mutex.StepNotStranded`).
- The 2^32th nested lock wraps `locked_` to 0, and then a second thread takes the mutex while the
  first one holds it (`Mutex.TwoHolders`; exactly when: `Mutex.StepExclusive`).
- `notify_all` is documented to leave one token per waiter, none if no one waits. A token notified before
  stays (`Event.TokenOutlivesNotifyAll`; as documented exactly when there were not more tokens than
  waiters before: `Event.NotifyAllAsDocumented`).
- `waiting_` still counts a waiter that has timed out and not run again, so "woken threads are at
  least the smaller of `available_` and `waiting_`" can fail (`Event.ExpiredWaitersCount`;
  exactly when: `Event.NoWakeUpLost`).
- `circbuf::n_items()` is documented to be the number of active items. An item that `prepare` evicts goes
  on counting until a commit finds the count at `max_`; rollback and pop keep the difference
  (exactly when: `CircBuf.ExactLaw` per operation, `CircBuf.RunCounts` in every run). So the test
  `n_items() > 0` in front of `pop()` can hold with no active item, in a buffer of any size
  (`CircBuf.GuardCanFail`, `CircBuf.CountOverstates`; exactly when: `CircBuf.GuardFindsItem`).
- `iterator::get_pos()` falls behind when `operator++` leaves a chunk before its last slot; it is the
  iterator's index exactly if the last slot of every chunk left is used (`InpVec.Vec.WalkTo`).
- Reading a `pbuf` from a stream that is at its end gives an empty buffer and no error
  (`XdrBuf.EmptyBufFromNothing`; exactly at the end: `XdrBuf.Reader.Get`).

## Model

| member | source | states |
|---|---|---|
| BitWord.SetBitOnly | common/inpvec_impl.hh:235 | or-ing in `1 << pos` changes bit `pos` and no other |
| BitWord.ClearBitOnly | common/inpvec_impl.hh:166 | and-ing with `~(1 << pos)` changes bit `pos` and no other |
| BitWord.ByteBit | common/inpvec_impl.hh:108-126 | bit `8k + j` of a word is bit `j` of `(w >> 8k) & 0xff` |
| BitWord.NoBitsFrom | common/inpvec_impl.hh:384-396 | once `w >> j` is zero, no bit from `j` upwards is set, so the scan may stop |
| BitWord.BitsOfByteCount | common/inpvec_impl.hh:40-58 | adding the bit count of each byte counts the bits of the word |
| BitWord.LastFreeOfByteBits | common/hlprs.cc:52-65 | the byte question is "one past the highest set bit" |
| BitWord.FirstFreeOfByteBits | common/hlprs.cc:82-95 | the byte question is "the lowest clear bit", 255 for the full byte |
| ByteTables.ByteBits | common/hlprs.cc:37-50 | every entry of the table is the number of set bits of its index |
| ByteTables.ByteLastFree | common/hlprs.cc:52-65 | every entry is one past the highest set bit of its index |
| ByteTables.ByteFirstFree | common/hlprs.cc:82-95 | every entry is the lowest clear bit of its index, 255 for 255 |
| WordSearch.LastFreeInWord | common/inpvec_impl.hh:66-90 | the byte-table search equals a bit-by-bit scan for one past the highest set bit |
| WordSearch.FirstFreeInWord | common/inpvec_impl.hh:102-126 | the byte-table search equals a bit-by-bit scan for the lowest clear bit |
| WordSearch.CountInWord | common/inpvec_impl.hh:40-58 | the sum over the bytes is the word's number of set bits |
| Chunks.Chunk.Alloc | common/inpvec_impl.hh:172-198 | a new chunk has `m` words, every slot free |
| Chunks.Chunk.NItems | common/inpvec_impl.hh:40-58 | the table-computed count is the number of occupied slots |
| Chunks.Chunk.LastFree | common/inpvec_impl.hh:60-93 | every slot from the result on is free, and the one before it is used |
| Chunks.Chunk.FirstFree | common/inpvec_impl.hh:95-128 | every slot before the result is used, and the result is free unless it is the size |
| Chunks.Chunk.Set | common/inpvec_impl.hh:220-239 | exactly one slot changes, bitmap and storage stay in step, and the count grows exactly if the slot was free |
| Chunks.Chunk.Destroy | common/inpvec_impl.hh:156-170 | exactly one slot is emptied; the count falls exactly if it was used |
| Chunks.Chunk.IsLast | common/inpvec_impl.hh:296-336 | true exactly when no later slot is used |
| Chunks.Chunk.NextUsed | common/inpvec_impl.hh:363-406 | the first used slot behind `at`, or none if there is none |
| Chunks.Chunk.GetPtr | common/inpvec_impl.hh:346-361 | what the slot holds, null exactly for a free slot |
| InpVec.SlotUpdate | common/inpvec_impl.hh:156-239 | changing one slot of one chunk is an update of one key of the map the chunk list stands for |
| InpVec.Growth | common/inpvec_impl.hh:408-426 | a chunk put behind the last one moves no entry |
| InpVec.ChunkKeys | common/inpvec_impl.hh:40-58 | a chunk's occupied slots are as many as the map's keys in its index range |
| InpVec.Vec.Size | common/inpvec_impl.hh:625-637 | the total number of slots |
| InpVec.Vec.Allocate | common/inpvec_impl.hh:408-426 | one more chunk of free slots; the map is unchanged |
| InpVec.Vec.Population | common/inpvec_impl.hh:40-58 | cached `n_items_` = size of the map = table-computed population of all chunks |
| InpVec.Vec.Begin | common/inpvec_impl.hh:607-616 | `end()` for the empty vector, else slot 0 of the first chunk |
| InpVec.Vec.Deref | common/inpvec_impl.hh:541-551 | the map's value at chunk base plus offset, null for a free slot and for `end()` |
| InpVec.Vec.Advance | common/inpvec_impl.hh:462-484 | the slot or `end()` it goes to and the position it then reports; strictly forward, and it skips no used index |
| InpVec.Vec.Walk | common/inpvec_impl.hh:448-616 | the walk from `begin()` ends at `end()`; its non-null dereferences are the map's values listed in increasing index order, as many as the map has keys |
| InpVec.EachOnce | common/inpvec_impl.hh:448-484 | the listing has one place per key, and the place of a key is the number of smaller keys |
| InpVec.Vec.WalkTo | common/inpvec_impl.hh:462-484 | after any number of `operator++` from `begin()`, `get_pos()` is the index of the slot exactly if the last slot of every chunk left is used, and never above it |
| InpVec.Vec.NextUsed | common/inpvec_impl.hh:486-525 | exactly which slot is found from any iterator: the first used one behind the start offset of each chunk, which is the old offset in the own and the next chunk and 0 in later ones; the reported position moves by as much as the index |
| InpVec.Vec.IteratorAt | common/inpvec_impl.hh:654-691 | stands on the index exactly if the vector is not empty and the index is below the size |
| InpVec.Vec.ForceIteratorAt | common/inpvec_impl.hh:693-758 | ends for every index, with chunk base + offset = index, after one allocation if the index was beyond the size and none otherwise; the new chunk has two words more than the last one, or one more than the index needs if that is more |
| InpVec.Vec.SetAt | common/inpvec_impl.hh:592-599 | map update of the key under the iterator, whatever position it reports; `end()` stores nothing |
| InpVec.Vec.FreeIter | common/inpvec_impl.hh:562-567 | removes the key under the iterator, whatever position it reports; `end()` removes nothing |
| InpVec.Vec.Set | common/inpvec_impl.hh:1061-1067 | map update of that key, every other entry unchanged, for any index; all chunk sizes afterwards, with the one new chunk if the index was beyond the size |
| InpVec.Vec.Construct | common/inpvec_impl.hh:1077-1083 | adds a default object unless the key is there; all chunk sizes afterwards |
| InpVec.Vec.FreeAt | common/inpvec_impl.hh:760-772 | removes exactly that key; true exactly if it was there; all chunk sizes stay |
| InpVec.Vec.IsFreeAt | common/inpvec_impl.hh:774-797 | true exactly if the key is absent |
| InpVec.Vec.GetPtr | common/inpvec_impl.hh:992-1021 | map lookup |
| InpVec.Vec.Reset | common/inpvec_impl.hh:1023-1051 | the empty map, in one chunk of 64 slots |
| InpVec.Vec.LastFreePos | common/inpvec_impl.hh:881-896 | above every used index, whatever has been freed, and in the last chunk: behind its last used slot, or its start if it has none |
| InpVec.LastFreeUnique | common/inpvec_impl.hh:881-896 | that fixes the position: it depends on the sizes of the chunks and the used indices only |
| InpVec.Vec.LastFree | common/inpvec_impl.hh:822-879 | an iterator on that position; one chunk is added exactly if the position is the size of the vector, and of which size |
| InpVec.Vec.PushBack | common/inpvec_impl.hh:1069-1075 | stores at that position, above every used index, so it overwrites nothing and indices increase while nothing is freed |
| InpVec.Vec.FirstFreePos | common/inpvec_impl.hh:973-990 | the least unused index over all chunks |
| InpVec.Vec.FirstFree | common/inpvec_impl.hh:898-971 | an iterator on the least unused index; it allocates exactly when every slot is used, and a chunk of which size |
| Queue.PushInv | common/queue_impl.hh:55-85 | appending keeps the invariant: used slots are the disjoint union of the linked chain and the held slots, the chain carries the FIFO, items know their slots; held items are untouched |
| Queue.PopInv | common/queue_impl.hh:137-171 | `head_ == tail_` exactly for the last item; otherwise the successor slot is in use, so the invalid-state branch cannot be taken; the first slot becomes a held one with its value |
| Queue.FreeInv | common/queue_impl.hh:42-53 | giving a slot back keeps the invariant and every other held item |
| Queue.AppendStands | common/queue_impl.hh:55-85 | append as the program writes it, through `tail_`, keeps the invariant and the held items |
| Queue.UnlinkStands | common/queue_impl.hh:143-160 | taking the first item as the program does keeps the invariant; the invalid state is not met |
| Queue.SlotCount | common/queue_impl.hh:173-187 | slots in use = queued items + held items |
| Queue.StepSound | common/queue_impl.hh:42-171 | each critical section, written on slots, `head_`, `tail_`, `n_items_` and handlers, keeps the invariant: chain and held slots disjoint and all the used ones, one handler per held slot, each with the value it popped |
| Queue.RunSound | common/queue_impl.hh:42-171 | the same in every run, with the log of popped values |
| Queue.RunIsFifo | common/queue_impl.hh:107-171 | in every run of push, pop and reset with any number of handlers: the values popped, followed by the values met from `head_` on along `next_`, are the values pushed, in push order |
| Queue.RunSlots | common/queue_impl.hh:42-187 | in every run: used slots = slots along `next_` from `head_` + slots of the handlers, no slot twice, `n_items_` of the former, the last of them `tail_`; distinct handlers have distinct slots; every item knows its slot |
| Queue.RunKeepsValues | common/queue_impl.hh:107-171 | in every run a handler's slot holds the value it popped until it is reset, and the successor lookup of pop is never null |
| Queue.Queue.Push | common/queue_impl.hh:124-135 | one push of the run machine into the least free slot; held items unchanged |
| Queue.Queue.AppendItem | common/queue_impl.hh:55-85 | the item and its predecessor's link are written as the run machine does; `n_items_` grows by one |
| Queue.Queue.TakeHead | common/queue_impl.hh:143-163 | unlinks the first item; the queue's invariant holds again |
| Queue.Queue.HandOver | common/queue_impl.hh:107-112 | `handler::set`: what the handler held is given back to whichever queue it is of, and the handler gets the slot |
| Queue.Queue.Pop | common/queue_impl.hh:137-171 | true exactly if the FIFO is not empty; the handler gets the oldest value's slot, which no one held, and what it held before is given back, to this queue or to another; the step of the run machine |
| Queue.Queue.FreeItem | common/queue_impl.hh:42-53 | empties exactly the handler's slot |
| Queue.Queue.Counts | common/queue_impl.hh:173-187 | `n_items()` is the FIFO's length; `size()` adds the held items |
| Queue.Handler.Reset | common/queue_impl.hh:107-122 | the handler holds nothing and its slot is free; the FIFO is unchanged |
| Event.StepKeeps | nthread/event_impl_pthread.cc:105-258 | every critical section keeps: `waiting_` counts the threads inside `wait`, tokens balance, and no wake-up is lost |
| Event.RunKeeps | nthread/event_impl_pthread.cc:105-258 | the same in every run |
| Event.LedgerIsRun | nthread/event_impl_pthread.cc:105-258 | the five token counts of the model are what the run did: the `notify` arguments, what each `notify_all` found missing, what was available at each `clear_available`, the true returns of `wait` and `wait_nb`, and the wrap-arounds |
| Event.TokensConserved | nthread/event_impl_pthread.cc:105-258 | in every run, counted over its calls: notified + topped up = true returns + cleared + `available_`, up to whole wrap-arounds of the 32-bit counter |
| Event.TrueIfTokenLeft | nthread/event_impl_pthread.cc:166-258 | in every run a `wait` or `wait_nb` returns true exactly if more tokens came in than were taken, cleared or lost to wrap-arounds |
| Event.ClearTakesAll | nthread/event_impl_pthread.cc:160-164 | after `clear_available` there is no token, and no wait returns true before the next `notify` of a positive number or `notify_all` with a waiter |
| Event.SupplyOnly | nthread/event_impl_pthread.cc:105-258 | without a token, the next critical section makes one available exactly if it is one of those two |
| Event.InsideUntilLeft | nthread/event_impl_pthread.cc:166-237 | in every run a thread is inside `wait` from when it enters until it takes a token or its timeout ends |
| Event.NoWakeUpLost | nthread/event_impl_pthread.cc:105-258 | in every run: woken threads are at least the smaller of `available_` and the threads asleep or woken; woken and timed-out threads together are at least the smaller of `available_` and `waiting_`; woken ones alone exactly if no timed-out waiter is still to run or the tokens do not exceed them |
| Event.ExpiredWaitersCount | nthread/event_impl_pthread.cc:166-237 | a run in which the bound with `waiting_` fails |
| Event.NotifyAllAsDocumented | nthread/event.hh:100-110 | one token per waiter after `notify_all`, exactly if there were not more before |
| Event.TokenOutlivesNotifyAll | nthread/event_impl_pthread.cc:138-158 | notify, then `notify_all`, with no one waiting: the token is still there |
| Event.EventImpl.SignalAvailable | nthread/event_impl_pthread.cc:127-133 | the signal loop wakes at least `available_` sleepers, or all |
| Event.EventImpl.Notify | nthread/event_impl_pthread.cc:105-136 | the step of the state machine; false exactly for 0 |
| Event.EventImpl.NotifyAll | nthread/event_impl_pthread.cc:138-158 | the step of the state machine |
| Event.EventImpl.ClearAvailable | nthread/event_impl_pthread.cc:160-164 | no token is left, the waiters stay; the step of the state machine |
| Event.EventImpl.WaitNb | nthread/event_impl_pthread.cc:239-258 | the step; true exactly if it took a token |
| Event.EventImpl.WaitEnter | nthread/event_impl_pthread.cc:166-237 | `wait` up to its first sleep or return; true exactly if it took a token |
| Event.EventImpl.WaitResume | nthread/event_impl_pthread.cc:191-231 | a woken waiter tests again, and takes one token or sleeps |
| Event.EventImpl.WaitTimedOut | nthread/event_impl_pthread.cc:193-198 | a timed-out waiter leaves with false and takes no token |
| Mutex.StepExclusive | nthread/mutex_impl_pthread.cc:126-288 | mutual exclusion survives a critical section exactly if it is not the 2^32th nested lock |
| Mutex.StepQueued | nthread/mutex_impl_pthread.cc:126-288 | `waiting_` counts the threads inside `lock`, and the owner is not one of them |
| Mutex.StepNotStranded | nthread/mutex_impl_pthread.cc:227-288 | every step but `recursive_unlock` keeps "free and someone asleep implies someone woken"; for that one the exact condition |
| Mutex.RunSafe | nthread/mutex_impl_pthread.cc:126-288 | both invariants in every run |
| Mutex.MutualExclusion | nthread/mutex_impl_pthread.cc:126-288 | in every run at most one thread has positive depth, it is `locked_by_`, and its depth is `locked_` |
| Mutex.DepthIsCount | nthread/mutex_impl_pthread.cc:126-288 | in every run a thread's depth is the true returns of its `lock` and `try_lock` less those of its `unlock`, since its last true `recursive_unlock`: one unlock gives back one level |
| Mutex.HeldByCounts | nthread/mutex_impl_pthread.cc:126-288 | in every run, by these counts alone: a thread may take the mutex exactly if every other one has given back all it got; its unlock is refused exactly if it has; `locked_` is what the holder still has to give back |
| Mutex.FreedAtOnce | nthread/mutex_impl_pthread.cc:260-288 | one `recursive_unlock` of the owner frees the mutex for every thread, at any depth |
| Mutex.NestedUnlocks | nthread/mutex_impl_pthread.cc:203-258 | after n nested locks and k unlocks of one thread `locked_` is n - k, and no other thread may take the mutex until k is n |
| Mutex.InsideUntilLeft | nthread/mutex_impl_pthread.cc:126-201 | in every run a thread is inside `lock` from when it enters until it is granted the mutex or its timeout ends |
| Mutex.NoSleeperStranded | nthread/mutex_impl_pthread.cc:126-258 | in every run without `recursive_unlock`, a free mutex with a sleeper has a woken thread |
| Mutex.RecursiveUnlockStrands | nthread/mutex_impl_pthread.cc:260-288 | a three-step run with `recursive_unlock` that leaves a sleeper stranded |
| Mutex.NestedRun | nthread/mutex_impl_pthread.cc:203-225 | the state after n nested locks of one thread, for every n: `locked_` is n modulo 2^32 |
| Mutex.TwoHolders | nthread/mutex_impl_pthread.cc:203-225 | the run of 2^32 nested locks by one thread and one `try_lock` by another: both hold the mutex |
| Mutex.MutexImpl.LockBegin | nthread/mutex_impl_pthread.cc:126-201 | `lock` up to its first sleep or return; true exactly if free or mine |
| Mutex.MutexImpl.LockResume | nthread/mutex_impl_pthread.cc:154-199 | a woken locker tests again |
| Mutex.MutexImpl.LockTimedOut | nthread/mutex_impl_pthread.cc:156-161 | a timed-out locker leaves with false |
| Mutex.MutexImpl.TryLockNow | nthread/mutex_impl_pthread.cc:203-225 | true exactly if free or mine, and then one level deeper |
| Mutex.MutexImpl.UnlockOnce | nthread/mutex_impl_pthread.cc:227-258 | refused exactly if not locked by the caller; else one level up, whatever the depth, and a sleeper is woken if there is one |
| Mutex.MutexImpl.UnlockAll | nthread/mutex_impl_pthread.cc:260-288 | refused exactly if not locked by the caller; else free, and no one is woken |
| Listener.StepStaged | comm/tcp_lstnr.cc:266-497 | no action of any thread gives a connection two stages, or a stage to something outside the pool |
| Listener.StepGood | comm/tcp_lstnr.cc:266-497 | every action keeps the stages, both token balances, and the promise that queued and idle connections are not forgotten |
| Listener.RunGood | comm/tcp_lstnr.cc:266-497 | the same in every run |
| Listener.OneStageEach | comm/tcp_lstnr.cc:313-497 | in every run each pooled connection is watched, on the loop, queued, with one worker or idle: exactly one of these; its `id_` is its slot |
| Listener.OneWorkerEach | comm/tcp_lstnr.cc:395-442 | in every run no connection is processed by two workers, or queued or watched while a worker has it |
| Listener.FreedByHolder | comm/tcp_lstnr.cc:485-497 | in every run a connection is freed only by the thread that holds it, and is nowhere afterwards |
| Listener.FreedExactly | comm/tcp_lstnr.cc:313-497 | in every run a step frees a connection exactly if it is the one that `on_connected` refuses, whose reception fails, or that a worker drops; then it is on no stage and the thread is back in `ev_loop` or outside `wait`; a step opens one exactly by `accept` |
| Listener.PoolIsRun | comm/tcp_lstnr.cc:313-497 | in every run, slot by slot: accepted = refused, failed or dropped, and one more if the slot is in use |
| Listener.PoolSize | comm/tcp_lstnr.cc:313-497 | in every run, counted over the actions: open connections = accepted - refused - failed - dropped |
| Listener.MovesExactly | comm/tcp_lstnr.cc:266-497 | in every run a connection changes its stage exactly by one of the seven hand-offs, each with the thread, the answer and the queue position it needs, and every hand-off takes place |
| Listener.QueuesAreFifo | comm/tcp_lstnr.cc:266-497 | in every run the connections received are those workers began to process, in that order, and then the new-data queue; those kept are those the loop took back, and then the idle queue |
| Listener.FullRound | comm/tcp_lstnr.cc:266-497 | one round from the watchers over the worker back to the watchers leaves every part of the listener as it was, but for the token each event has counted in and out |
| Listener.PopNeverFails | comm/tcp_lstnr.cc:665-674 | in every run a worker whose `wait` returned true finds a connection to pop |
| Listener.NoConnectionForgotten | comm/tcp_lstnr.cc:106-117 | in every run: queue length = `available_` + pushes not yet notified + workers about to pop; an idle connection has a wake-up pending, under way or about to be sent |
| Listener.TokenMissing | comm/tcp_lstnr.cc:283-305 | in every run the internal error occurs exactly if the pushes still to be notified, and the tokens lost when `available_` wrapped around, are as many as the idle queue's connections, the one just popped and the earlier failures |
| Listener.TokenCanBeMissing | comm/tcp_lstnr.cc:296-301 | a run in which the internal error occurs |
| Pbuf.FillLast | common/pbuf.cc:38-59 | bytes that fit on the last page only extend that page |
| Pbuf.NewPage | common/pbuf.cc:91-121 | behind full pages, bytes make a page of their own |
| Pbuf.PagedInjective | common/pbuf.cc:143-164 | equal pages mean equal bytes |
| Pbuf.Buffer.Append | common/pbuf.cc:38-59 | the bytes are appended and the pages are the canonical ones |
| Pbuf.Buffer.Allocate | common/pbuf.cc:91-121 | a page with room: the last one, or a new one exactly if that is full or missing |
| Pbuf.Buffer.CopyTo | common/pbuf.cc:61-89 | the prefix of the requested length, everything for 0 |
| Pbuf.Buffer.Equals | common/pbuf.cc:143-164 | page-wise equality holds exactly for equal byte sequences |
| Pbuf.Buffer.Assign | common/pbuf.cc:130-141 | same bytes and same pages as the other buffer |
| Pbuf.AppendAll | common/pbuf.cc:38-59 | however the bytes are split over appends, the page list is that of the whole |
| XdrCursor.Round4IsMask | common/xdrbuf.cc:48-52 | rounding up to a multiple of four, with the 64-bit wrap-around of the last three values |
| XdrCursor.TakeAligned | common/xdrbuf.cc:551-595 | on 4-aligned pages a read returns exactly the next n bytes of the flat stream and passes their padding, or returns what there is and ends, wherever page boundaries fall |
| XdrCursor.ReadAligned | common/xdrbuf.cc:551-595 | the same from any position, including the end of a page |
| XdrCursor.ReadTooMany | common/xdrbuf.cc:551-595 | on any pages, asking for more than there is returns all of it and ends |
| XdrCursor.ReadPrefix | common/xdrbuf.cc:551-595 | on any pages, a read of bytes that are there returns exactly the next n |
| XdrCursor.ReadMovesPosition | common/xdrbuf.cc:644-661 | on 4-aligned pages a successful read of n moves `position()` by n rounded up to 4 |
| XdrCursor.FlatOfPaged | common/pbuf.cc:38-121 | the pages of a buffer, joined, are its bytes |
| XdrCursor.FreshReader | common/xdrbuf.cc:551-560 | a fresh reader has the whole stream ahead |
| Xdr.NumberOfBigEndian | common/xdrbuf.cc:93-139 | reading a big-endian word gives back the number written |
| Xdr.BigEndianOfNumber | common/xdrbuf.cc:278-376 | any n bytes are the word of the number read from them |
| Xdr.BigEndianIsWord | common/xdrbuf.cc:93-139 | byte k of an n-byte word v is v / 256^(n-1-k) mod 256: most significant byte first |
| Xdr.WireFormat | common/xdrbuf.cc:54-139 | the bytes of every encoded value: integers as such words, negative ones in two's complement; byte strings and nested buffers as the word of their length, their bytes, and less than four zero bytes up to a multiple of four |
| Xdr.OneFormat | common/xdrbuf.cc:54-139 | that fixes every byte |
| Xdr.EncodedSize | common/xdrbuf.cc:54-88 | every encoding is a multiple of four bytes long |
| Xdr.DecodeEncode | common/xdrbuf.cc:212-376 | decoding an encoded value in front of any bytes gives it back and leaves exactly those bytes |
| Xdr.DecodeTooLong | common/xdrbuf.cc:525-549 | a byte string too long for the reader's buffer is refused with its size, and nothing is consumed |
| Xdr.DecodeCut | common/xdrbuf.cc:278-549 | an encoding that is cut off is invalid, or the end of data exactly if nothing of it is there |
| XdrBuf.PutBytes | common/xdrbuf.cc:54-88 | 8-byte length, bytes, zero padding, byte for byte; an empty string is its length only |
| XdrBuf.PutBuf | common/xdrbuf.cc:254-276 | the same bytes for a nested buffer, appended page by page |
| XdrBuf.Reader.GetData | common/xdrbuf.cc:551-595 | the loop computes the cursor function |
| XdrBuf.Reader.Forward | common/xdrbuf.cc:597-636 | on any pages, for n > 0, true exactly if `get_data` would read n bytes, and the same position afterwards |
| XdrBuf.Reader.CurrentPosition | common/xdrbuf.cc:644-661 | bytes of the pages before plus the offset |
| XdrBuf.Reader.GetWord | common/xdrbuf.cc:278-376 | the integer, or end of data exactly if nothing was left, or invalid |
| XdrBuf.Reader.GetBufBody | common/xdrbuf.cc:462-523 | a nested buffer's bytes, or invalid exactly if too few are left |
| XdrBuf.Reader.GetBytesBody | common/xdrbuf.cc:525-549 | a byte string's bytes, or invalid exactly if too few are left |
| XdrBuf.Reader.Get | common/xdrbuf.cc:278-549 | every read of a stream is the decoding function; a nested buffer read at the end gives an empty one |
| XdrBuf.WriteAll | common/xdrbuf.cc:93-276 | a list of values written to an empty buffer is the concatenation of their encodings: from each value's offset on, exactly its bytes in the wire format |
| XdrBuf.ReadAll | common/xdrbuf.cc:278-549 | reading them back gives the list, in order, and nothing is left |
| XdrBuf.RoundTrip | common/xdrbuf.cc:93-595 | write any list of integers, byte strings and nested buffers, read it with a fresh reader: the same list, then end of data |
| XdrBuf.EmptyBufFromNothing | common/xdrbuf.cc:462-523 | a `pbuf` read by a fresh reader of an empty buffer: an empty one, no error |
| Trie.PackIsShift | common/hash_helpers.hh:381-389 | an entry is `(pos << 1) \| is_page` in 64 bits; reading it gives the flag and `pos` without its top bit |
| Trie.KeyIsItsBytes | common/hash_helpers.hh:404-408 | a 64-bit key is the sum over k < 8 of the byte at shift 8k times 2^8k |
| Trie.RootPage | common/hash_helpers.hh:393-442 | a page in slot s of the first block is resolved to, at shift 0, by exactly the keys with lowest byte s |
| Trie.SameLowResolvesAlike | common/hash_helpers.hh:393-442 | in any index, two keys equal modulo 2^(i+8) resolve alike up to shift i |
| Trie.KeysOfPage | common/hash_helpers.hh:393-442 | if no block is linked twice, the page found at shift i is the page of exactly the keys equal modulo 2^(i+8) |
| Trie.ResolveSplit | common/hash_helpers.hh:393-442 | a key at the split slot goes on to its next byte's page in the new block, or to nothing |
| Trie.SplitResolves | common/hash_helpers.hh:444-483 | every other key resolves as before, to a page or to nothing |
| Trie.AnchoredIff | common/hash_helpers.hh:444-483 | every link still leads to a block with an entry in or behind it exactly if the split registered a page |
| Trie.NextBlock | common/hash_helpers.hh:449-463 | the next split links the same block exactly if this one registered nothing, and a later block otherwise |
| Trie.SplitTheorem | common/hash_helpers.hh:444-483 | the new block had no entry and no link to it; all keys' resolution after a split from that before; when the next split is as safe |
| Trie.PageKeepsAnchored | common/hash_helpers.hh:381-389 | storing a page keeps every link's block anchored |
| Trie.RunAnchored | common/hash_helpers.hh:381-483 | in every run of page stores and splits that register a page, every split is safe |
| Trie.RunTree | common/hash_helpers.hh:381-483 | in every such run no block is linked twice |
| Trie.RunKeysOfPage | common/hash_helpers.hh:381-507 | so in every such run a page belongs to exactly the keys that agree on the bytes that lead to it |
| Trie.BlockShared | common/hash_helpers.hh:444-507 | an index with two pages, a split of one without pages, a split of the other with a page: a key that resolved to nothing in between is found |
| Trie.StartReached | common/inpvec_impl.hh:486-525 | behind which offset the walk with `next_used` looks at each later chunk |
| Trie.AllRegisteredIff | common/hash_helpers.hh:465-482 | every position is registered exactly if no chunk after the first has one at or before the walk's start there |
| Trie.LostPage | common/hash_helpers.hh:465-482 | positions 5 and 67 in two chunks: 67 is not registered |
| Trie.Index.InternalGet | common/hash_helpers.hh:360-379 | found exactly if there is an entry, with its position and flag |
| Trie.Index.InternalSet | common/hash_helpers.hh:381-389 | exactly that entry changes |
| Trie.Index.LookupPagePos | common/hash_helpers.hh:393-442 | the loop over the eight key bytes is the recursive resolution; `shift` is kept when nothing is found |
| Trie.Index.RegisterAll | common/hash_helpers.hh:465-482 | exactly the positions the walk stops at are registered in the block, nothing else changes |
| Trie.Index.Split | common/hash_helpers.hh:444-483 | the slot links to the first block at or above `last_free_pos`, where nothing is stored yet, with the registered pages in it; nothing changes if the key is not found; no chunk is added if nothing is registered; false in every case |
| Trie.Index.Get | common/hash_helpers.hh:485-507 | the page the key resolves to, false exactly if there is none |
| CircBuf.Cell.LinkAfter | common/circbuf.hh:83-89 | the cell is first on the ring, both directions |
| CircBuf.Cell.UnlinkBefore | common/circbuf.hh:94-103 | the last cell is off the ring, both directions; null exactly for the empty ring |
| CircBuf.Move | common/circbuf.hh:83-103 | a cell moves between two of three disjoint rings; the third is untouched and all stay disjoint |
| CircBuf.OldestFirstCons | common/circbuf.hh:83-89 | a cell linked behind the sentinel is the last in commit order |
| CircBuf.UseKeepsCounts | common/circbuf.hh:148-303 | every operation keeps: cells on the lists = `size_` <= `max_`, active <= `n_items_` <= active + 1; an eviction finds an active item |
| CircBuf.ExactLaw | common/circbuf.hh:148-303 | `n_items()` is exact after an operation exactly if it was before and nothing was evicted, or the operation is a commit that finds it at `max_`; rollback and pop keep the difference |
| CircBuf.RunCounts | common/circbuf.hh:148-303 | in every run `n_items()` is exact unless an item was evicted since the last commit that found it at `max_` |
| CircBuf.GuardFindsItem | comm/udp_auth.cc:262-274 | in every run `n_items() > 0` implies an active item, unless such an evicted item is the only one counted |
| CircBuf.GuardCanFail | comm/udp_recvr.cc:132-169 | a run to that state for every `max_` |
| CircBuf.CircBuf.Prepare | common/circbuf.hh:148-168 | the oldest free cell, else a new one below `max_`, else the oldest active one, which then exists; the counters move as in the runs; the invariant: every cell on one list, committed = gone + active in order |
| CircBuf.CircBuf.Commit | common/circbuf.hh:176-196 | the prepared cell is the newest active one, `n_items_` at most `max_`; the invariant |
| CircBuf.CircBuf.Rollback | common/circbuf.hh:206-218 | the prepared cell is free again, nothing was committed; the invariant |
| CircBuf.CircBuf.Pop | common/circbuf.hh:272-303 | the oldest active value leaves, its cell is free; without an active item it fails, `n_items_` is 0 and one more cell is free, which breaks `size_` <= `max_` exactly if all cells were there |
| CircBuf.CircBuf.Fill | comm/udp_recvr.cc:142-147 | writing the prepared cell touches no committed value |
| CircBuf.CircBuf.Receive | comm/udp_recvr.cc:132-169 | one reception: the value is committed last exactly if it arrived, and the oldest active value leaves exactly if no cell is free and `n_items_` is `max_`; the counters move as in the runs |
| CircBuf.CircBuf.ReceiveAll | comm/udp_recvr.cc:132-169 | any number of receptions: the values that arrived are committed in order |
| CircBuf.Full | comm/udp_recvr.cc:132-169 | a buffer filled by receptions has `max_` active items and counts them |
| CircBuf.CountOverstates | comm/udp_recvr.cc:132-169 | for every `max_`: fill the buffer, roll one reception back, pop the rest: `n_items()` is 1 with no active item, and the next pop fails |
| Crc.FeedIsSteps | common/ustr.cc:355-362 | shifting with the byte xored in first is feeding its bits one at a time |
| Crc.EightSteps | common/ustr.cc:355-362 | eight shifts of the register are those of its low byte, xored with the rest shifted by eight |
| Crc.TableStep | common/ustr.cc:367-368 | one table look-up is eight bits of the bit-serial register |
| Crc.FillTable | common/ustr.cc:350-366 | entry i is eight shifts of i |
| Crc.Crc64 | common/ustr.cc:341-371 | the table-driven loop is the bit-serial CRC with polynomial 0xd800000000000000 of the bytes before the first zero byte |

## Left out

- Chunk lists: `next_` and `parent_` links and the raw buffer are a sequence of chunk values in a field of the vector, so only updates through the vector are captured.
- Index width: chunk sizes and indices are unbounded naturals; the 32-bit chunk-size product and 64-bit index wrap-around are not modelled.
- InpVec.Vec.Write: stands for assignments through a slot address that `set` or `get_ptr` gave out; addresses that outlive `free_at` are not modelled.
- `inpvec::get`, `n_free`, copying and debug output of `inpvec`: thin wrappers.
- Queue.Queue.Pop: `handler::operator=`, which does not release what its target held, is not modelled; a handler's other queue does not share this queue's slots.
- Queue locking: each operation is one critical section; `lock_helper` itself is the mutex of module Mutex.
- Event and Mutex: destructors, `invalid_`, the thread-exit unlock hook and error returns of the condition variable other than a timeout. Fewer than 2^32 - 1 threads, so `waiting_` does not wrap.
- `pevent`, and the minimum and maximum size of `thrpool`: only the worker's "wait, then one handler call" is used.
- Listener: stop requests and teardown, sockets and the event library's internals, the per-connection mutex, failures of `accept` and of the setup calls. Queues are sequences, as module Queue proves they are. At most 2^31 - 1 connections are open at once, because file descriptors are ints.
- XdrBuf.RoundTrip: streams shorter than 2^64 - 3 bytes, the range in which `round_to_4` does not wrap; `str`, `const char *`, `serializable` and `var` coding, and the template form of `get_data`, are not modelled. A `ustr` is its bytes, without the terminating zero it stores.
- Pbuf.Buffer.Append: pages are byte sequences; the preallocated first page, the memory pool, allocation failure, self-assignment and self-append are not modelled.
- Trie.Index.Split: the vector has at most 2^63 slots, as the address space bounds it; the positions are another vector than the index.
- `hash` and `hash_helpers::page`: unfinished in the program.
- CircBuf.CircBuf.Commit: at most one cell is prepared at a time, because the search loops of `commit` and `rollback` do not advance; the argument is the outstanding cell.
- CircBuf.CircBuf.Pop: the cell that a failed pop puts on the free list has no object in the program; in the model it has a default value, and runs end there. `push`, `newest`, `oldest` and the destructor are not modelled, and the four signals are result flags or left out.
- Crc.Crc64: the table is filled on every call instead of on the first one only.
- `rdbuf`, `limited_work_buffer`, `bfd`, `zfile`, UDP hello and authentication, database, rpc, logger, exceptions, Windows back ends and string conversions: input and output, foreign libraries or thin wrappers.
