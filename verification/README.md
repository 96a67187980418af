# Verified models of go_tools

This project models the parts of `go_tools` that keep state over time and proves what they keep.
`dafny verify dfyconfig.toml` checks all of it.

- **Timers** (`TimerHeap`, `TimerManager`, `TimerRemoval`, `Queue`): the array heap whose elements
  store their own slot, the rounds of `Run` that reschedule timers into the heap they drain, no
  firing lost over any sequence of calls, and the resizable queue between the two loops, with its
  amortised cost.
- **Caches** (`LinkedList`, `LruCache`, `ShardLruCache`, `LruCache2Q`): index and doubly linked list
  as objects, refining the sequences of `LruSpec` and `TwoQueueSpec`, about which the theorems over
  whole runs are proved: last write wins, survival, inclusion of the smaller cache in the larger,
  and exactly when a value put into the 2Q cache is found for as long as it should be.
- **Sorted map** (`SortedMap`): the linked key list whose loops are bounded by the size of a map
  that has already been changed.
- **Connections** (`ConnLifecycle`, `ConnStream`, `ConnLoops`, `WsTransport`, `WsLink`): the
  interleavings of a connection's loops, callbacks and closers; packets from one end to the other
  through any chopping of the bytes, and through any chopping into WebSocket messages, by
  refinement; the loop bodies and the WebSocket byte stream as imperative code.
- **Sessions and listeners** (`SessionManager`, `SessionServer`, `SessionServerProgress`,
  `SessionClient`, `WsListener`, `WsListenerProgress`): registration against shutdown, one dial
  against Close, and the hand-off from upgrade to Accept. Lock sections, compare-and-swap, channel
  operations, `Once` and `WaitGroup` are atomic steps of transition systems with any number of
  connections, handlers and callers; the theorems are about every moment of every run. Besides
  safety: nobody is turned away without a reason, and from every moment the run can go on to the
  return of a call that waits.
- **Worker pool** (`GPool`): routing, per-key order of handler calls, and draining on Close, which
  ends, whether handlers are nil, return, fail or panic.
- **Rotating log** (`LogNames`, `LogRollover`, `LogRetention`): size-based rotation over a map from
  names to contents, and the retention rounds with their file-name parsing.

Where code and documentation differ, the code is followed.

- `common/timer/README.md:58` says that `RemoveTimer` deletes a task that has not been executed yet.
  One that was taken out of the heap and is left over by a panic is executed all the same
  (`TimerRemoval.RemovedTimerIsStillPending`). A removed timer is attempted or pending later if and
  only if it was pending at its removal (`TimerRemoval.RemoveThenCalls`).
- A 2Q put on a live key stores `now + expiration` even when `expiration` is not positive, which
  stands for "never" everywhere else, and a put on a key in the FIFO list adds to the old deadline
  and not to the time of the put. Both lose values (`PutLostWithoutExpiration`,
  `PutLostWithExpiration`), exactly when `PutLastsWithoutExpiration` and `PutLastsWithExpiration`
  say so.
- A file beside a log can make the retention goroutine panic, if and only if an end of the log's
  prefix is a beginning of its extension (`LogNames.FatalNameIffOverlap`); a round panics if and only
  if such a file is there and the round lists files at all (`LogRetention.Retirer.RolloverExec`).

A clock's layout is taken to end in a digit, and nothing else: it need not read back what it prints,
and does not for a year with five digits or a repeated local hour. The documented contract of a
lawful codec is given in `ConnStream.Lawful`: what was encoded is decoded and the rest is left, a
decision depends on the bytes read only, and takes at least one byte.

The model of `container/heap` and `container/list` is the code of those libraries, written out over
the operations of this repository.

## Model

| member | source | states |
|---|---|---|
| Queues.Step | common/container/queue.go:39-122 | every operation keeps 8 <= capacity, the window inside the buffer and, when the first half is vacated and the buffer is not minimal, more than a quarter of it filled |
| Queues.CopiesAreAmortized | common/container/queue.go:57-122 | over any run, the elements copied by growth and shrinking, plus what is still owed, are at most six per push and one per pop |
| Queues.PushPaysForCopies | common/container/queue.go:57-64 | a push, with the growth it may cause, pays for its copies by six units of debt |
| Queues.PopPaysForCopies | common/container/queue.go:67-81 | a pop, with the shrinking it may cause, pays for its copies by one unit of debt |
| Queues.StepPaysForCopies | common/container/queue.go:57-122 | the bound for any operation on any queue |
| Queues.CapacityFollowsPeak | common/container/queue.go:83-122 | the capacity never exceeds twice the largest size since the last Clear, or 8 |
| Queues.BufferIsReplacedOnlyThen | common/container/queue.go:57-122 | a push onto a full buffer doubles it, or adds a quarter from 1024 slots on; a pop that leaves at most a quarter in use behind the first half halves it, to no less than 8; nothing else changes the capacity |
| Queues.Queue.constructor | common/container/queue.go:20-27 | a new queue is empty with capacity 8 |
| Queues.Queue.Empty | common/container/queue.go:30-32 | true exactly when the queue holds nothing |
| Queues.Queue.Size | common/container/queue.go:35-37 | the number of elements held |
| Queues.Queue.Clear | common/container/queue.go:40-45 | forgets all elements and returns to the minimal buffer |
| Queues.Queue.Value | common/container/queue.go:48-54 | the elements in order of arrival |
| Queues.Queue.Push | common/container/queue.go:57-64 | appends at the back, through slide and growth alike |
| Queues.Queue.Pop | common/container/queue.go:67-81 | takes the front element, or the zero value of an empty queue, through shrinking too |
| Queues.Queue.Expend | common/container/queue.go:84-105 | makes room without changing the contents: slides if there is a gap, else doubles, or grows by a quarter from 1024 on |
| Queues.Queue.Shrink | common/container/queue.go:108-122 | halves a buffer of which at most a quarter is filled, keeping the contents |
| TimerHeap.RootIsLeast | common/timer/timer_manager.go:82-83 | in a heap the root is due no later than any element |
| TimerHeap.SiftUpStep | common/timer/timer.go:38-42 | one exchange on the way up moves the single violation to the parent |
| TimerHeap.SiftDownStep | common/timer/timer.go:38-42 | one exchange with the lesser child moves the single violation down |
| TimerHeap.LastTakesPlaceOf | common/timer/timer_manager.go:60-60 | removal from the middle leaves one violation, at the slot the last element was moved to |
| TimerHeap.TimerQueue.Less | common/timer/timer.go:33-35 | compares the times of two slots |
| TimerHeap.TimerQueue.Swap | common/timer/timer.go:38-42 | exchanges two timers and keeps each one's record of its slot right |
| TimerHeap.TimerQueue.Push | common/timer/timer.go:45-60 | puts a timer into the next preallocated slot and records it |
| TimerHeap.TimerQueue.Pop | common/timer/timer.go:63-76 | takes the last timer and marks it as outside the heap |
| TimerHeap.FirstIsDueFirst | common/timer/timer_manager.go:82-83 | slot 0 of a valid queue is due no later than any member |
| TimerHeap.HeapPush | common/timer/timer_manager.go:52-52 | adds exactly the timer and restores heap order and slot records |
| TimerHeap.HeapPop | common/timer/timer_manager.go:88-88 | removes exactly a timer that is due first |
| TimerHeap.HeapRemove | common/timer/timer_manager.go:60-60 | removes exactly the timer in the given slot, from any position |
| TimerManagers.RoundGoesOn | common/timer/timer_manager.go:80-102 | firing one more due-first timer and rescheduling it keeps the round in order, each timer once |
| TimerManagers.RoundMeetsQuota | common/timer/timer_manager.go:80-102 | when the first loop stops, it has taken as many timers as are due, or as the limit leaves room for and at least one |
| TimerManagers.Quota | common/timer/timer_manager.go:80-102 | without a limit all due timers are taken; with one as many as it leaves room for behind waiting firings, and at least one |
| TimerManagers.RoundMeans | common/timer/timer_manager.go:80-102 | whoever fires was due, once, soonest first, and nobody due earlier is left behind; a repeating timer is due again at now + interval, a one-shot one is gone, the others keep their times |
| TimerManagers.AttemptsStopAt | common/timer/timer_manager.go:71-75 | the second loop attempts every callback up to and including the first that panics |
| TimerManagers.TimerManager.constructor | common/timer/timer_manager.go:23-32 | an empty manager; a non-positive size means 1024 slots |
| TimerManagers.TimerManager.AddTimer | common/timer/timer_manager.go:39-54 | answers a fresh id and schedules the timer, or 0 and changes nothing when the heap is full; no firing is touched |
| TimerManagers.TimerManager.RemoveTimer | common/timer/timer_manager.go:57-64 | the schedule loses exactly the timer with the id; firings already taken out of the heap stay pending |
| TimerManagers.TimerManager.Run | common/timer/timer_manager.go:70-112 | which timers are taken, in what order, what remains scheduled, and the counts returned; in every reachable state the firings attempted and then those pending are all firings so far, in order, whatever panicked |
| TimerManagers.TimerManager.Extract | common/timer/timer_manager.go:80-102 | the first loop ends, fires in order, each due timer once, up to the limit, and counts one check more only when it met a timer not yet due |
| TimerManagers.TimerManager.ExtractFirst | common/timer/timer_manager.go:88-97 | the first timer moves to the queue; one that repeats returns to the heap, where there is room, at now + interval |
| TimerManagers.TimerManager.Fire | common/timer/timer_manager.go:104-109 | attempted callbacks and queue together stay what they were; a panic loses only its own firing |
| TimerRemoval.RemoveThenCalls | common/timer/timer_manager.go:57-112 | whatever is called after the removal, the timer is attempted or pending again if and only if its firing was pending at the removal |
| TimerRemoval.RemovedTimerIsStillPending | common/timer/timer_manager.go:57-112 | a history after which a removed, repeating timer is out of the heap and its callback is still to be attempted |
| TimerRemoval.Answer | common/timer/timer_manager.go:39-112 | no later call adds a firing of a removed timer |
| LruSpec.StepInserts | common/container/lru_cache.go:52-118 | every operation leaves one entry in front of the others, in their order and without the last one when full |
| LruSpec.StepOnOthers | common/container/lru_cache.go:52-118 | an operation on one key changes no other entry, except that it may evict |
| LruSpec.StepKeepsValid | common/container/lru_cache.go:52-118 | keys stay distinct and at most capacity many |
| LruSpec.RunKeepsValid | common/container/lru_cache.go:52-118 | the same over any run |
| LruSpec.HoldsLastWrite | common/container/lru_cache.go:52-118 | over any run, an entry that is held is the one last put under its key |
| LruSpec.HitAnswersLastWrite | common/container/lru_cache.go:88-102 | a hit answers the last value put, whose deadline has not passed |
| LruSpec.GetKeepsDeadline | common/container/lru_cache.go:88-102 | a lookup answers what is held strictly before its deadline, always if it is not positive, and brings it to the front; from the deadline on it answers nothing and the entry is gone |
| LruSpec.PutThenGet | common/container/lru_cache.go:52-102 | a put is in front and found until its deadline |
| LruSpec.StaysCached | common/container/lru_cache.go:52-118 | an entry in front stays while fewer than capacity other keys are touched |
| LruSpec.RecentlyUsedSurvives | common/container/lru_cache.go:52-118 | after a put or hit of a key, any run that touches fewer than capacity other keys, does not remove it and ends before its deadline still finds it |
| LruSpec.ServeKeepsLead | common/container/lru_cache.go:52-118 | one request keeps the keys of the smaller cache a prefix of the larger one's |
| LruSpec.LargerCacheIncludesSmaller | common/container/lru_cache.go:52-118 | over every run of puts, removals and get-or-puts of entries that never expire, what the smaller cache holds the larger one holds, in the same recency order |
| LinkedLists.List.PushFront | common/container/lru_cache.go:76-76 | a new node in front of the list's nodes |
| LinkedLists.List.Remove | common/container/lru_cache.go:98-98 | the node is cut out of the ring, the others keep their order |
| LinkedLists.List.MoveToFront | common/container/lru_cache.go:93-93 | the node comes first, the others keep their order |
| LinkedLists.List.Back | common/container/lru_cache.go:64-64 | the last node, or nil of an empty list |
| LruCaches.IndexedHas | common/container/lru_cache.go:54-54 | the index has a key exactly when the list has an entry with it |
| LruCaches.LruCache.constructor | common/container/lru_cache.go:31-41 | an empty cache; a non-positive capacity means 1000 |
| LruCaches.LruCache.EntriesAreValid | common/container/lru_cache.go:23-28 | index and linked list hold distinct keys, at most capacity many |
| LruCaches.LruCache.Put | common/container/lru_cache.go:52-77 | refines the put of the recency sequence: update and move to front, or evict last and insert first |
| LruCaches.LruCache.Get | common/container/lru_cache.go:88-102 | refines the get: a live entry moves to the front, an expired one is dropped |
| LruCaches.LruCache.Remove | common/container/lru_cache.go:113-118 | takes out the key's entry and nothing else |
| LruCaches.LruCache.MakeRoom | common/container/lru_cache.go:63-69 | evicts the last entry, and its index, exactly when the cache is full |
| ShardLruCaches.ShardIndex | common/container/lru_cache.go:162-169 | the remainder of the absolute hash value, for negative hashes too, and always the index of a shard |
| ShardLruCaches.ShardsRunApart | common/container/lru_cache.go:162-191 | each shard goes through exactly the operations on the keys routed to it |
| ShardLruCaches.PutThenGetInShard | common/container/lru_cache.go:172-185 | a value is found in its shard until the expiration of the cache has passed since the put, for ever without one; no other shard is touched |
| ShardLruCaches.GetAndRemoveInShard | common/container/lru_cache.go:182-191 | lookups and removals reach the key, and nothing else, in its shard alone |
| ShardLruCaches.RecentlyUsedSurvivesInShard | common/container/lru_cache.go:162-191 | the survival theorem per shard, counting only keys routed to the same shard |
| ShardLruCaches.ShardLruCache.constructor | common/container/lru_cache.go:129-151 | empty shards with nothing in common, defaults for non-positive sizes |
| ShardLruCaches.ShardLruCache.SetHashFunc | common/container/lru_cache.go:154-159 | a nil function is ignored |
| ShardLruCaches.ShardLruCache.Put | common/container/lru_cache.go:172-179 | puts into the routed shard, every other shard unchanged |
| ShardLruCaches.ShardLruCache.Get | common/container/lru_cache.go:182-185 | answers from the routed shard |
| ShardLruCaches.ShardLruCache.Remove | common/container/lru_cache.go:188-191 | removes from the routed shard |
| ShardLruCaches.ShardLruCache.OthersUntouched | common/container/lru_cache.go:162-191 | an operation on one shard leaves the whole cache valid and the shards apart |
| TwoQueueSpec.StepKeepsInv | common/container/lru_cache.go:210-301 | FIFO and LRU keys stay disjoint and distinct, each list at most capacity long |
| TwoQueueSpec.RunKeepsInv | common/container/lru_cache.go:210-301 | the same over any run |
| TwoQueueSpec.StepOnLists | common/container/lru_cache.go:210-301 | exactly what each operation leaves for any key: its own comes first in the list it belongs to, with the deadline of its branch; another one is lost if and only if it is the last of a full list that gets a new entry |
| TwoQueueSpec.StepKeepsOrder | common/container/lru_cache.go:210-301 | two other keys that stay in a list stay in order |
| TwoQueueSpec.HoldsLastPut | common/container/lru_cache.go:210-301 | over any run, what is held under a key is the value last put and not removed since |
| TwoQueueSpec.HitAnswersLastPut | common/container/lru_cache.go:251-281 | a hit answers the last value put, and the deadline actually stored has not passed |
| TwoQueueSpec.PutThenGet | common/container/lru_cache.go:210-281 | the next lookup finds a value exactly while the deadline of the branch taken lasts, given in full |
| TwoQueueSpec.PutLastsWithoutExpiration | common/container/lru_cache.go:210-248 | over every run and for every expiration that is not positive, a put is lost to the next lookup if and only if the key was live in the LRU list and now + expiration is positive |
| TwoQueueSpec.PutLostWithoutExpiration | common/container/lru_cache.go:217-217 | three operations that lose a value meant never to expire |
| TwoQueueSpec.PutLastsWithExpiration | common/container/lru_cache.go:210-248 | with a positive expiration, a put is found at every moment of the time it was given if and only if it does not promote a FIFO entry whose own deadline has passed; what counts is known before the put |
| TwoQueueSpec.PutLostWithExpiration | common/container/lru_cache.go:225-225 | two puts after which a value given 10 units is gone at once |
| TwoQueueSpec.FifoNeverExpires | common/container/lru_cache.go:237-247 | without a positive expiration nothing in the FIFO list ever carries a deadline |
| TwoQueueSpec.ScanSparesLru | common/container/lru_cache.go:220-247 | a run of puts of distinct keys absent from both lists leaves the LRU list untouched |
| TwoQueueSpec.ScanFillsFifo | common/container/lru_cache.go:232-247 | after a scan the FIFO list holds its newest puts, with their deadlines, and then what was there, up to the capacity |
| TwoQueueSpec.FifoKeepsTheNewest | common/container/lru_cache.go:232-236 | an entry of the FIFO list is held through a scan if and only if it is then among the newest capacity many |
| TwoQueueSpec.SeenAgainSurvivesScan | common/container/lru_cache.go:251-281 | a key that was looked up once more is found after every scan, as long as its deadline lasts |
| LruCaches2Q.LruCache2Q.constructor | common/container/lru_cache.go:201-207 | both lists empty and apart |
| LruCaches2Q.LruCache2Q.Seek | common/container/lru_cache.go:221-231 | the cursor loop stops at the first FIFO node with the key, or at the end |
| LruCaches2Q.LruCache2Q.Put | common/container/lru_cache.go:210-248 | refines the put of the two sequences, deadlines as written in each branch |
| LruCaches2Q.LruCache2Q.Get | common/container/lru_cache.go:251-281 | refines the get: LRU first, then promotion from the FIFO list or removal of an expired entry |
| LruCaches2Q.LruCache2Q.Remove | common/container/lru_cache.go:284-301 | removes the key from both lists |
| SortedMaps.AscendingListIsUnique | common/container/sorted_map.go:12-15 | a strictly ascending key list is determined by the key set |
| SortedMaps.InsertedAscends | common/container/sorted_map.go:110-127 | inserting before the first key not below keeps the list strictly ascending |
| SortedMaps.SortedMap.Find | common/container/sorted_map.go:53-65 | finds the node exactly when the key is in the map; the bounded loop neither stops early nor meets nil |
| SortedMaps.SortedMap.Insert | common/container/sorted_map.go:98-129 | the map gains or updates the key; the list is again strictly ascending with the map's keys |
| SortedMaps.SortedMap.InsertKey | common/container/sorted_map.go:101-127 | the loop, bounded by the size after the map was changed, reaches the right place |
| SortedMaps.SortedMap.Delete | common/container/sorted_map.go:73-95 | the map loses exactly the key; the list again lists the map's keys |
| SortedMaps.SortedMap.DeleteKey | common/container/sorted_map.go:76-93 | the loop, bounded by the size after the deletion, still reaches the key's node |
| SortedMaps.SortedMap.Clear | common/container/sorted_map.go:36-39 | empties map and list |
| ConnLifecycle.StepInv | common/network/conn_impl.go:150-379 | the inductive invariant: context cancelled by the one winner of closeOnce and before the transport closes, wait group equal to the live loops, Run's stages |
| ConnLifecycle.SafeAtEveryMoment | common/network/conn_impl.go:150-230 | no loop leaves before a cause is recorded; one transport close at most; OnClose at most once, with that cause, after all loops have exited and the close has completed |
| ConnLifecycle.FirstCauseStays | common/network/conn_impl.go:219-230 | the first recorded cause never changes |
| ConnLifecycle.NothingRunsAfterOnClose | common/network/conn_impl.go:208-216 | from OnClose on no loop ever runs again, and OnClose is not called again |
| ConnLifecycle.CauseIsTheWinners | common/network/conn_impl.go:219-230 | the recorded cause is the one its winner came with, never that of Run's own final call |
| ConnLifecycle.OpenConnHasItsLoops | common/network/conn_impl.go:155-203 | while Run waits and no cause is recorded, the write and the read loop are at work, and the heartbeat loop if and only if there is a heartbeat |
| ConnLifecycle.NotOpenedGetsNoReader | common/network/conn_impl.go:165-203 | a connection closed in OnOpen, or whose OnOpen fails, never gets a read or heartbeat loop |
| ConnLifecycle.FailuresClose | common/network/conn_impl.go:155-280 | every failure takes its own cause into closeWithCause, every call of Close takes ErrClosed |
| ConnLifecycle.ClosingReturnsClosed | common/network/conn_impl.go:219-230 | closeWithCause returns to nobody before the cause is recorded and the transport closed |
| ConnLifecycle.EveryStepWindsDown | common/network/conn_impl.go:232-379 | once a cause is recorded every step, failures included, brings the end nearer, except a new call of Close |
| ConnLifecycle.NeverStuck | common/network/conn_impl.go:150-216 | until Run has returned some such step is possible |
| ConnLifecycle.RunCanReturn | common/network/conn_impl.go:150-216 | any run with a recorded cause continues, within a bound, to one in which Run has returned |
| ConnStream.DecodesTheNext | common/network/conn_impl.go:257-280 | from what has arrived, Decode gets the next accepted packet as soon as its frame is complete and never anything else |
| ConnStream.StepInv | common/network/conn_impl.go:103-146 | queue, wire, decoded and delivered packets stay in the accepted order, through every send, partial write, failure and arrival |
| ConnStream.PeerGetsPrefix | common/network/conn_impl.go:233-309 | the decoded packets are a prefix of the accepted ones, and the receiver has exactly the non-heartbeat ones delivered |
| ConnStream.StatisticsCountWholeFrames | common/network/conn_impl.go:233-254 | write statistics are the number and byte sum of the frames written in full; the wire carries those and a part of the next |
| ConnStream.NothingIsHeldBack | common/network/conn_impl.go:257-280 | a peer that has got all bytes and waits has delivered every frame written in full |
| ConnStream.WriterEndsOnlyCancelled | common/network/conn_impl.go:233-254 | as long as the sender is not cancelled the write loop is up, and every accepted packet is written, in hand, or queued |
| ConnStream.ReaderEndsOnlyThen | common/network/conn_impl.go:257-309 | the read loop ends only because the transport does, the peer has cancelled, or a delivery fails |
| ConnStream.DeliveryDecides | common/network/conn_impl.go:283-309 | a delivery ends it if and only if the heartbeat is of no known kind, its Pong is not sent, or the receiver panics |
| ConnStream.CancelStopsWriting | common/network/conn_impl.go:233-254 | behind a cancellation no further frame is begun |
| ConnStream.PeerCancelIsFinal | common/network/conn_impl.go:257-280 | behind the peer's cancellation a packet in hand can be dropped, which ends the loop |
| ConnStream.QueueIsBounded | common/network/conn_impl.go:103-146 | no more frames wait than the queue has room for |
| ConnStream.EverythingCanArrive | common/network/conn_impl.go:233-309 | from every undisturbed moment the run can go on, within a bound, until every accepted packet is delivered |
| ConnStream.SentCanBeReceived | common/network/conn_impl.go:103-146 | a packet sent at such a moment can be delivered behind all others, and reaches the receiver unless it is a heartbeat |
| ConnLoops.Conn.CloseWithCause | common/network/conn_impl.go:219-230 | the first call records its cause, `net.ErrClosed` for none, and closes the transport; every other call changes nothing |
| ConnLoops.Conn.WriteLoop | common/network/conn_impl.go:233-254 | frames queued before and during the loop go out whole, in order, and are counted, up to the first that the transport does not take or before which somebody closes; that one decides what part of it went out and which cause is recorded; if all go, the loop waits for a close |
| ConnLoops.Conn.WriteOne | common/network/conn_impl.go:235-251 | one turn writes the next frame as a whole and goes on, or gives the reason why not |
| ConnLoops.Conn.Select | common/network/conn_impl.go:235-238 | waits for a cancellation or the next frame of the queue, and takes that one; it is cancelled only by others |
| ConnLoops.Conn.DeliverPacket | common/network/conn_impl.go:283-309 | a heartbeat never reaches the receiver; each of the three errors occurs exactly in its case, and a Pong is none |
| ConnLoops.Conn.ReadLoop | common/network/conn_impl.go:257-280 | from a prefix of the peer's stream the loop decodes, counts and delivers its packets in order, up to the first that is not complete, fails in delivery or meets a closed connection, which decides the recorded cause |
| ConnLoops.Conn.ReadOne | common/network/conn_impl.go:259-279 | one turn decodes the next packet if it is complete and delivers it unless closed in between; when it goes on, and with which cause it does not |
| ConnLoops.Conn.DecodeOne | common/network/conn_impl.go:264-269 | one Decode takes exactly the next frame, or nothing of an incomplete one |
| WsTransports.PayloadAppend | common/network/ws_impl.go:91-110 | what is written as one message appears at the end of the other side's stream |
| WsTransports.WsTransport.Read | common/network/ws_impl.go:53-88 | every read takes its bytes off the front of the stream and loses none, empty messages and message ends included; it fails only with the connection, at its end, or at a message that is not binary |
| WsTransports.WsTransport.Write | common/network/ws_impl.go:91-110 | one binary message for all of the data, or none, which happens only when the connection fails; no message for no data |
| WsLinks.StepCarries | common/network/ws_impl.go:53-110 | what the peer has read, what is left of its message and the messages behind it are always what the sender has put into messages |
| WsLinks.PeerStepRefines | common/network/conn_impl.go:257-280 | what the peer does with the bytes it has read from messages, it does over a byte transport with the same effect |
| WsLinks.StepRefines | common/network/ws_impl.go:53-110 | every step over messages is a step over a byte transport or is invisible there |
| WsLinks.PacketsCrossMessages | common/network/ws_impl.go:53-110 | however frames are cut into messages and messages into reads, the peer decodes a prefix of the accepted packets without an error and its receiver gets the messages among those delivered |
| WsLinks.MessagesCarryFrames | common/network/ws_impl.go:91-110 | bytes read and messages on the way are the frames written in full, which the statistics count, and a part of the next one |
| WsLinks.NothingIsLeftInMessages | common/network/ws_impl.go:53-88 | a peer that waits when the messages hold no more bytes has delivered every frame written in full |
| SessionManagers.AddKeepsRegistrations | common/network/session_manager.go:32-51 | which outcome an Add has; it adds its entry and nothing else, keeps the limit, never replaces a connection, and is refused by a closed registry |
| SessionManagers.RemoveKeepsOthers | common/network/session_manager.go:54-59 | deregistration takes out one id and no other |
| SessionManagers.SessionManager.Add | common/network/session_manager.go:32-51 | refusals in the source's order: nil, closed, id taken, limit reached |
| SessionManagers.SessionManager.Remove | common/network/session_manager.go:54-59 | deletes the id |
| SessionManagers.SessionManager.Get | common/network/session_manager.go:62-68 | finds exactly the registered connections |
| SessionManagers.SessionManager.Len | common/network/session_manager.go:91-95 | the number registered, never above a positive limit |
| SessionManagers.SessionManager.Close | common/network/session_manager.go:98-118 | the first call closes every registered connection, once each, joins their errors and stops registration; later calls change nothing |
| SessionServer.StepInv | common/network/session_server.go:65-190 | the inductive invariant: each transport with the accept loop, with one connection, or closed once; the registry between Add and Remove; no open connection outside the snapshot |
| SessionServer.AddFailsInv | common/network/session_server.go:123-132 | a refused connection stays the loop's to close |
| SessionServer.AddKeepsShutdown | common/network/session_manager.go:43-45 | an id is never refused as taken |
| SessionServer.ServeReturnsClean | common/network/session_server.go:65-80 | when Serve returns, every accepted transport is closed once, every started connection has run to its end and is deregistered, and the server is closed |
| SessionServer.LoopEndsOnlyThen | common/network/session_server.go:88-138 | the accept loop ends on a closed server with nil, on an open one only by a failed Accept or a missing transport and with an error; a refused connection does not end it while the registry is open, however full |
| SessionServer.ServeSaysWhy | common/network/session_server.go:65-138 | the result of Serve is nil if and only if the loop ended on a closed server, and not for want of a transport |
| SessionServer.RefusedOnlyThen | common/network/session_server.go:88-138 | an accepted transport is turned away only on a closed server, without dependencies, or by a closed or full registry, and otherwise goes on to be registered |
| SessionServer.RegisteredIsStarted | common/network/session_server.go:133-136 | what is registered is counted and started |
| SessionServer.ServeNeverClosesTwice | common/network/session_server.go:88-138 | no transport is closed twice, and the registry never exceeds a positive limit |
| SessionServer.CloseMissesNoConnection | common/network/session_server.go:183-190 | behind the manager's Close every connection ever registered is closed and none can be registered |
| SessionServer.WaitIsNeverStuck | common/network/session_server.go:74-77 | Serve waits only for connections that can go on to their end |
| SessionServerProgress.CloseCanReturn | common/network/session_server.go:183-190 | at every moment Close can be called and the run go on to its return, waiting neither for a connection nor for the accept loop |
| SessionServerProgress.ServeCanReturn | common/network/session_server.go:65-80 | from every moment the run can go on to the return of Serve |
| SessionServerProgress.AcceptedCanBeServed | common/network/session_server.go:88-138 | on an open server with room a transport handed over can become a registered, running connection |
| SessionServerProgress.ConnCanEnd | common/network/session_server.go:155-160 | a running connection can end, closed, deregistered and no longer counted |
| SessionClient.StepInv | common/network/session_client.go:48-163 | the inductive invariant: one party at most owes the result, the transport is with the dial, the published connection, or closed |
| SessionClient.DoneIsClosedOnce | common/network/session_client.go:160-163 | done is closed at most once, and exactly once when a dial or a close and all they set going are over |
| SessionClient.NoTransportLeaks | common/network/session_client.go:71-146 | when Close and the dial are over, a produced transport has been closed, once |
| SessionClient.NothingIsTakenBack | common/network/session_client.go:48-163 | the state moves forward only, and a published result is final |
| SessionClient.WaitersAgree | common/network/session_client.go:117-123 | all waiters get the same result, whenever they come back |
| SessionClient.WaitersAreNotForgotten | common/network/session_client.go:117-163 | while a waiter waits, the one who owes the result can go on |
| SessionClient.ResultSaysWhy | common/network/session_client.go:48-163 | what Wait returns is the dialer's error, the failure to make a connection, ErrClosed of a close before dial or publication, the context's error of a cancelled dial, or the error of the connection that ended; and that has happened |
| SessionClient.DialStepsOn | common/network/session_client.go:71-123 | a dial publishes its connection if and only if at that moment the client is not closed and the dial not cancelled; Wait blocks unless nothing was dialed or closed |
| SessionClient.NeverPublishedThen | common/network/session_client.go:93-115 | behind a cancellation or a close an unpublished connection stays unpublished |
| SessionClient.CloseCancelsDial | common/network/session_client.go:126-146 | Close has cancelled a dial that is still going on |
| SessionClient.DialCanSucceed | common/network/session_client.go:48-115 | a new client can dial and its connection be published and run |
| SessionClient.RunCanEnd | common/network/session_client.go:117-163 | a connection that runs can end, with its error as the result of Wait |
| WsListener.StepInv | common/network/ws_impl.go:240-333 | the inductive invariant over handlers, acceptors, slots, wait group and shutdown |
| WsListener.HandOffIsLinear | common/network/ws_impl.go:270-327 | an upgraded transport is held by its handler, or by one Accept, or delivered by one Accept, or closed once, and only one of these |
| WsListener.PendingIsBounded | common/network/ws_impl.go:253-262 | connections being upgraded or waiting for Accept never exceed MaxPendingConnections |
| WsListener.LateAcceptDeliversNothing | common/network/ws_impl.go:312-327 | an Accept begun after done was closed delivers nothing; every failing Accept reports the one reason |
| WsListener.AcceptAfterDone | common/network/ws_impl.go:312-327 | over a run: a call of Accept made behind done never delivers anything |
| WsListener.RefusedOnlyThen | common/network/ws_impl.go:240-278 | a request is refused only by a closed listener or when all slots are taken; an upgraded connection is offered, and dropped only behind done |
| WsListener.AcceptFailsOnlyThen | common/network/ws_impl.go:312-327 | Accept fails only on a closed listener, and delivers what it receives on an open one |
| WsListener.ReasonIsTheFirst | common/network/ws_impl.go:281-309 | the reason of the close that won stays the listener's reason |
| WsListener.CloseLeavesNoHandler | common/network/ws_impl.go:281-309 | when Close has waited, all slots are free, no handler holds a transport and none ever will |
| WsListener.CloseIsNeverStuck | common/network/ws_impl.go:305-307 | Close waits only for handlers that can go on without any Accept |
| WsListenerProgress.OfferedCanBeDelivered | common/network/ws_impl.go:268-327 | on an open listener a call of Accept can take an offered connection and deliver it, open |
| WsListenerProgress.RequestCanBeOffered | common/network/ws_impl.go:240-270 | with a free slot a request can become an offered connection |
| WsListenerProgress.CloseCanReturn | common/network/ws_impl.go:281-309 | at every moment Close can be called and the run go on to its return without any Accept; the first one's reason is the listener's |
| GPool.NewPool | common/pool/gpool/pool.go:44-73 | at least one worker, no negative queue size |
| GPool.CloseDrains | common/pool/gpool/pool.go:76-88 | when the Close that shuts down returns, the finished jobs are the submitted ones, each exactly once and each worker's in order; every handler there is has been called once, and every panic recovered |
| GPool.KeysRunInOrder | common/pool/gpool/pool.go:91-105 | jobs with one non-negative WorkerID finish, run and wait in order of submission on one worker |
| GPool.HandlersOfKeyAreCalledInOrder | common/pool/gpool/worker.go:51-64 | at every moment the handlers called for one key are the first ones submitted with it, in order, each once; nil handlers are passed over |
| GPool.HandlersOfKeyNeverOverlap | common/pool/gpool/pool.go:101-104 | two handlers running at once do not have one non-negative WorkerID |
| GPool.DoneKeepsWorker | common/pool/gpool/worker.go:51-64 | when a job is over, with a nil handler, by return, or by a panic that is recovered, the worker's lot, calls and recoveries stay in step |
| GPool.WorkerStepInv | common/pool/gpool/worker.go:28-64 | every move of a worker, a nil handler, an error and the unwinding of a panic included, keeps the pool's invariant |
| GPool.KeyHasOneWorker | common/pool/gpool/pool.go:101-104 | a key's jobs are all on the worker it selects |
| GPool.EachJobHasOneWorker | common/pool/gpool/pool.go:91-105 | the workers' lots together are the submitted jobs |
| GPool.ShutdownAdvances | common/pool/gpool/pool.go:83-86 | during the shutdown every step brings its end nearer |
| GPool.ShutdownIsNeverStuck | common/pool/gpool/pool.go:83-86 | until Close returns such a step is possible |
| GPool.CallsTakeEffect | common/pool/gpool/pool.go:76-105 | Submit is refused by a closed pool only; the job goes to the worker of its key, to its queue or to its hands; Close shuts an open pool down, once |
| GPool.EveryJobCanFinish | common/pool/gpool/worker.go:28-64 | from every moment before Close the run can go on until every call of Submit has returned and every job is finished |
| GPool.WorkerLoop.Process | common/pool/gpool/worker.go:28-48 | every job that arrives before the stop is executed, in order, and both channels are closed, whatever handlers do |
| GPool.WorkerLoop.Execute | common/pool/gpool/worker.go:51-64 | a nil handler is logged and not called; any other is called once, its error logged, its panic recovered and logged; the job is over in every case |
| LogNames.Ext | common/logger/log_rollover.go:449-450 | the extension begins at the last dot |
| LogNames.NamesLookLike | common/logger/log_rollover.go:446-454 | backups of x.log are x_stamp.log, and x_stamp.log.gz when compressed |
| LogNames.OnlyBackupsAreRead | common/logger/log_rollover.go:404-470 | nothing else is taken for a backup |
| LogNames.PanicsIffOverlap | common/logger/log_rollover.go:457-470 | some file name makes one reading panic if and only if an end of the prefix is a beginning of the extension |
| LogNames.FatalNameIffOverlap | common/logger/log_rollover.go:404-435 | some directory entry makes the listing of a log, which reads each name twice, panic if and only if its prefix and extension overlap |
| LogNames.NoUnderscoreNoPanic | common/logger/log_rollover.go:404-435 | with an extension without underscore no directory entry is fatal |
| LogNames.OneDotNoPanic | common/logger/log_rollover.go:404-435 | nor with any extension, when it begins at the only dot of the name |
| LogNames.OverlapExists | common/logger/log_rollover.go:467-467 | a log name and a file name that do panic |
| LogNames.BackupRoundTrip | common/logger/log_rollover.go:446-470 | a backup's name is read as whatever the clock reads its stamp as, so as its time exactly when the clock reads that time back, which it does for one at most of two times printed alike |
| LogNames.CompressedKeepsTime | common/logger/log_rollover.go:420-435 | the compressed form of a backup has the backup's time and base name |
| LogNames.ActiveIsNotABackup | common/logger/log_rollover.go:404-437 | the log that is written to is never taken for a backup |
| LogRollover.WriteAppends | common/logger/log_rollover.go:112-141 | a write lands whole at the end of the text and of one file, or is refused, exactly when it exceeds the limit or the log was closed, and changes nothing |
| LogRollover.WriteLands | common/logger/log_rollover.go:112-215 | an open file takes a write unless it would exceed the limit, a file found at the first write unless it would reach it, the limit being MaxSize times 1048576 bytes or 104857600; otherwise that file becomes the next backup and the write alone is the active file |
| LogRollover.ClosedForGood | common/logger/log_rollover.go:104-149 | behind Close of an opened log every operation fails and changes nothing; Close of a log that never opened a file changes nothing |
| LogRollover.RotatedKeepsText | common/logger/log_rollover.go:218-261 | rotation succeeds unless the log is closed, moves the active file into the next backup, begins an empty one and loses nothing |
| LogRollover.RunKeepsText | common/logger/log_rollover.go:104-261 | over any run, backups in order of rotation and then the active file are the text there was and the accepted writes |
| LogRollover.RunKeepsLimit | common/logger/log_rollover.go:112-261 | a file above the limit has been there before the run |
| LogRollover.LogFileRollover.Write | common/logger/log_rollover.go:112-141 | the writing object refines the write: first opening, rotation, append |
| LogRollover.LogFileRollover.TryOpenOrCreateFile | common/logger/log_rollover.go:188-215 | a missing file is created, one that would reach the limit is rotated, another one is appended to |
| LogRollover.LogFileRollover.OpenNew | common/logger/log_rollover.go:218-246 | an existing file is renamed to the backup, and an empty one is begun |
| LogRollover.LogFileRollover.Rotate | common/logger/log_rollover.go:104-109 | rotates, or fails on a closed log; success signals the retention goroutine |
| LogRollover.LogFileRollover.Close | common/logger/log_rollover.go:384-395 | closes an open file once, stops the retention goroutine and closes its channel; a log that never opened a file stays usable |
| LogRetention.LogNamesAreConsistent | common/logger/log_rollover.go:324-325 | the real names satisfy what the retention theorems assume of names |
| LogRetention.RetainedIn | common/logger/log_rollover.go:306-381 | which names a round leaves, and with what contents |
| LogRetention.RoundLeaves | common/logger/log_rollover.go:306-381 | a backup is left, compressed if asked, if and only if it is at most MaxAge days of 86400000 milliseconds old and fewer than MaxBackups others are newer; zero or less means no such bound |
| LogRetention.NewerIsLeft | common/logger/log_rollover.go:320-353 | what is newer than a backup that is left is left |
| LogRetention.RetainedIsStable | common/logger/log_rollover.go:306-381 | at a fixed clock a second round changes nothing |
| LogRetention.RoundKeepsDistinctTimes | common/logger/log_rollover.go:306-381 | a round leaves times distinct, so the next one is covered too |
| LogRetention.OthersAreUntouched | common/logger/log_rollover.go:397-437 | files that are not backups stay as they are |
| LogRetention.NoMoreThanAllowed | common/logger/log_rollover.go:320-336 | at most MaxBackups backups are left, plain and compressed form counted once |
| LogRetention.CountDecides | common/logger/log_rollover.go:323-334 | the counting loop refuses a backup exactly when MaxBackups newer ones exist |
| LogRetention.LoadFileList | common/logger/log_rollover.go:398-443 | lists every backup once, newest first; panics exactly on a fatal name |
| LogRetention.SplitByCount | common/logger/log_rollover.go:320-336 | keeps exactly the backups among the newest MaxBackups |
| LogRetention.SplitByAge | common/logger/log_rollover.go:339-353 | keeps exactly the backups not before the cut-off |
| LogRetention.Retirer.Compress | common/logger/log_rollover.go:365-378 | replaces each plain file by its compressed form |
| LogRetention.Retirer.RolloverExec | common/logger/log_rollover.go:306-381 | one round leaves exactly what is to be kept, compressed if it is to be; it panics, and changes nothing, if and only if it lists files and one of them is fatal |
| LogRetention.Retirer.RolloverTwice | common/logger/log_rollover.go:306-381 | a second round at the same time neither panics nor changes anything |
| LogRetention.Retirer.NoNewFatalName | common/logger/log_rollover.go:306-381 | a round leaves no fatal name that was not there |

## Left out

- TimerManagers.TimerManager.Run: callbacks do not call back into the manager, ids and times do not overflow int64, counts do not overflow uint32, and the callback itself is only whether it panics.
- Queues.CopiesAreAmortized: does not count the moves of the slide branch (common/container/queue.go:86-91), for which the bound does not hold.
- LruCaches.LruCache.Get: the clock is an argument, read once per operation, where the 2Q cache reads it several times; the mutex is the atomicity of a method.
- ShardLruCaches.RecentlyUsedSurvivesInShard: assumes the hash function is not replaced during the run; the default FNV hash is a parameter.
- SortedMaps.SortedMap.Insert: callers do not write through `MapElements` or the nodes, and keys are totally ordered, so no NaN.
- LinkedLists.List.Remove: takes the node's position as a ghost argument; removing a node of another list is not modelled.
- ConnStream.PeerGetsPrefix: encoded frames are not empty and the codec is lawful; the transport keeps order and neither loses bytes in the middle nor invents any.
- ConnLifecycle.SafeAtEveryMoment: `closeOnce` is taken not to be left by a panic of the transport's Close; heartbeat timing is left open, a timeout may come at any moment.
- SessionServer.ServeReturnsClean: a connection's Close is one step, its Run returns only after its transport is closed (ConnLifecycle shows both), connection ids do not wrap around, and a panicking listener or a custom manager is not modelled.
- SessionServerProgress.ServeCanReturn: says that the run can go on to the return; that goroutines which can go on do so is the scheduler's part.
- SessionClient.NoTransportLeaks: the result of `Close` itself and panics in the dialer are not modelled.
- WsListener.HandOffIsLinear: the HTTP server and the handshake are a step that succeeds or fails; what becomes of a delivered transport is its receiver's affair.
- WsTransports.WsTransport.Read: deadlines are only that setting one may fail.
- WsLinks.PacketsCrossMessages: the sender's messages are all binary, and a message is on its way whole or not at all.
- GPool.CloseDrains: Submit does not run concurrently with the Close that shuts down, as its comment demands; a handler returns, fails or panics, and one that never returns or ends its goroutine is not modelled.
- LogRollover.RunKeepsText: I/O errors, modes and directories are left out, and two rotations do not fall into one millisecond.
- LogRetention.Retirer.RolloverExec: two backups with one time are forms of one; sorting is insertion into place while listing; the round does not run concurrently with a rotation; gzip is a function of the content.
- Sockets, TLS, KCP and TCP options, HTTP upgrade and address parsing: transports are byte streams with a close.
- `http_utils`, `mongo_driver`, `encode_utils`, `profile`, `options`, `file_utils`, `container.Set`, `pool.Pool`, `TaskRunner`, `TrafficStatistics` alone: wrappers, builders and counters that would add only easy facts.
- Concrete codecs: any lawful codec.
- Log output to stderr and slog.
