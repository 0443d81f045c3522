# rednet: verified models of the actor framework and of what it links

rednet is an actor framework in C++: contexts with event queues that worker threads take
turns on, TCP sockets served by one thread, an area-of-interest engine, and a serializer
for Lua values. It links jemalloc. This project models the parts whose correctness rests on
invariants that no single function shows, in Dafny, and proves what they promise.

Each part has the form of its source. Code that works in place is a class whose methods have
loops and change its fields; what a method computes is stated by functions and relations
on values, and lemmas prove properties of these. Concurrent code is cut at its lock regions.

- `EventQueue.dfy`, `Scheduler.dfy`, `SchedulerProgress.dfy`, `SchedulerIds.dfy`,
  `SchedulerSerial.dfy`: the ring buffer of a context, the scheduler as a system of atomic
  steps over any number of contexts, senders and workers, and the ids of contexts.
- `Socket.dfy`: the send path of one TCP slot, and its interleavings with senders, the
  control pipe and the socket thread.
- `ScatterMap.dfy`, `AoiModel.dfy`, `AoiMessage.dfy`, `AoiUpdate.dfy`, `AoiSpace.dfy`: the
  chained scatter table, and the engine on top of it. Distances are exact reals.
- `LuaValue.dfy`, `LuaFormat.dfy`, `LuaStream.dfy`: values, the byte format both ways, and
  the writer and reader that work on blocks and a cursor.
- `Cuckoo.dfy`: jemalloc's cuckoo hash table, for any hash and any random choices.
- `ExtentSizes.dfy`, `ExtentModel.dfy`, `ExtentCache.dfy`, `ExtentMoves.dfy`,
  `ExtentSpace.dfy`: jemalloc's extents as a tiling of the address space, in pages, and what
  each operation does when no other thread is at work.
- `ExtentThreads.dfy`, `ExtentRaces.dfy`: the same operations cut where the code drops the
  mutex, for any number of threads.
- `Bin.dfy`, `Division.dfy`: small regions in slabs, and the division that finds them.
- `Tcache.dfy`, `Decay.dfy`, `MallocIo.dfy`, `MallocIoRoundTrip.dfy`: flushing a thread cache,
  decay of unused pages, and number printing and parsing.
- `Common.dfy`: lists and options that several parts share.

## Where the code does less than it seems to promise

In each case the model follows the code, and the exact condition is proved.

- A context id may be handed out while a queue that had it before is still alive. Then one
  worker can run the events of the old queue in the new context while another worker is in
  it. The registry does so once its 24-bit serial has gone round, and not before
  (`SchedulerIds.SafeIffNothingBreaks`, `SchedulerSerial.ReusedIdMixesContexts`,
  `SchedulerSerial.OneWorkerUntilRound`).
- What a recycler cuts off an extent it caches without looking for neighbours. Another
  thread may have cached one in the meantime, and the two stay unmerged
  (`ExtentRaces.StepCoalescedIff`, `ExtentRaces.RecyclersRace`).
- The id 0xFFFFFFFF marks free slots of the scatter table, which nothing keeps a caller from
  using (`ScatterMaps.StoreIsSoundIff`, `ScatterMaps.ReservedIdIsOverwritten`).
- `isForward` tests `forwardIn__ && 0xffff`. Direct writes are therefore made only under a
  zero tag, and a close of a drained slot leaves it half closed under any other tag
  (`SocketRuns.DirectNeedsZeroTag`, `SocketRuns.CloseOfDrainedSlot`). Stream order holds.
- Tables with 31 array items or more are written with a number's tag and rejected by the
  reader, and strings of 2^31 bytes or more lose their bytes (`LuaFormat.RoundTrip`,
  `LuaFormat.LongStringLost`).
- A request for extents is only guarded against a wrap-around. With its room for the
  alignment it may be beyond the largest class, where an assertion stops the program
  (`ExtentSpaces.Extents.FitLocked`).
- `malloc_strtoumax` notices an overflow only if the accumulator gets smaller, and stops
  at a leading zero in front of a digit above 7 (`MallocIoRoundTrip.CorrectIff`).

## Model

| member | source | states |
|---|---|---|
| EventQueues.GlobalQueue.Push | rednet-src/uevent_queue.h:29-33 | the queue goes to the end of the run queue |
| EventQueues.GlobalQueue.Pop | rednet-src/uevent_queue.h:35-43 | the first queue leaves the run queue, or none if it is empty |
| EventQueues.EventQueue.constructor | rednet-src/uevent_queue.h:56-66 | a new queue is empty and has its token already |
| EventQueues.EventQueue.Length | rednet-src/uevent_queue.h:80-92 | the number of events in the ring, wrapped around or not |
| EventQueues.EventQueue.Pop | rednet-src/uevent_queue.h:96-125 | the ring stands for a sequence: the first event leaves it, an empty queue gives its token up, and the overload threshold follows its specification |
| EventQueues.EventQueue.LocalExpand | rednet-src/uevent_queue.h:142-156 | doubling a full ring keeps all its events in order and starts them at 0 |
| EventQueues.EventQueue.Push | rednet-src/uevent_queue.cc:5-22 | the event is appended, whatever the position in the ring; the queue enters the run queue exactly if it had no token |
| EventQueues.RaiseIsLeastDoubling | rednet-src/uevent_queue.h:112-116 | the raised threshold is the least doubling of the old one that the length does not exceed |
| EventQueues.RingPush | rednet-src/uevent_queue.cc:10-15 | a write at the tail appends to what the ring stands for, unless head meets tail |
| EventQueues.RingPop | rednet-src/uevent_queue.h:104-106 | a read at the head takes the first element off what the ring stands for |
| Scheduler.TokenIsOnePlace | rednet-src/uframework.cc:86-160 | for any number of workers and every schedule: run queue entries, workers in hand, starting contexts and discarded places of a queue add up to its token, so no two workers have a queue at once |
| Scheduler.NoLostWakeUp | rednet-src/uframework.cc:96-160 | the queue of a registered context that has started, if it has events, is on the run queue, in one worker's hands, or was in the hands of a worker that was shut down; exactly one of these |
| Scheduler.NothingLeftBehind | rednet-src/uframework.cc:86-160 | a run in which no worker is shut down leaves no queue behind in a worker's hands |
| Scheduler.ExecutedInPushOrder | rednet-src/uframework.cc:125-148 | in every run the executed events, at most one event in a worker's hands and the ring make up the pushed events in order |
| Scheduler.HoldersAreUnique | rednet-src/uframework.cc:96-160 | from token conservation: two workers that have the same queue are the same worker |
| Scheduler.StepKeepsPlaces | rednet-src/uframework.cc:96-160 | every lock region keeps the places of every queue equal to its token |
| Scheduler.StepKeepsOrder | rednet-src/uframework.cc:96-160 | every lock region keeps executed, carried and waiting events equal to what was pushed |
| Scheduler.RunKeepsInv | rednet-src/uframework.cc:86-160 | token conservation, no lost wake-up and order hold after every schedule from a state where they hold |
| Scheduler.StepKeepsRegistry | rednet-src/ucontext.cc:241-266 | safe registrations keep the registry single valued on the queues that are not discarded |
| Scheduler.StepKeepsOwnContexts | rednet-src/uframework.cc:104-151 | a worker that asks the registry for the owner of the queue in its hands gets that owner or none |
| Scheduler.OneWorkerPerContext | rednet-src/uframework.cc:104-151 | while ids are handed out safely, the assertion of line 151 holds for all workers, and no two workers run the same context |
| Scheduler.FreshIdsAreSafe | rednet-src/ucontext.cc:187-204 | registrations that never repeat an id are safe |
| SchedulerSerial.FreshUntilRound | rednet-src/ucontext.cc:187-204 | ids do not repeat until the 24-bit serial has gone round |
| SchedulerSerial.OneWorkerUntilRound | rednet-src/uframework.cc:104-151 | in every run with the registry's own ids, until the serial has gone round, queue and context agree in every worker and no two workers share a context |
| SchedulerSerial.FewDoNotGoRound | rednet-src/ucontext.cc:187-204 | so many registrations, each passing over fewer numbers than the table has slots, do not take the serial round |
| SchedulerSerial.ReusedIdMixesContexts | rednet-src/ucontext.cc:187-204 | a run with the registry's own ids in which the serial goes round: two workers execute events in one context, one of them an event of the queue that had the id before, and the assertion of uframework.cc:151 then fails |
| SchedulerIds.SafeIffNothingBreaks | rednet-src/uframework.cc:104-151 | registering under an id is safe if and only if no later schedule makes the assertion of line 151 fail where it stands, after the events of a dispatch; safe means that all queues that had the id were discarded |
| SchedulerProgress.FetchIt | rednet-src/uframework.cc:86-160 | from every sound state, steps of one worker alone put any given queue of the run queue into its hands, unchanged |
| SchedulerProgress.LetGo | rednet-src/uframework.cc:125-160 | from every sound state, steps of the worker that has a queue make it let go of it: the queue is listed again, discarded, or empty without a token |
| SchedulerProgress.RunsNextEvent | rednet-src/uframework.cc:96-151 | the next event of a registered context on the run queue is executed by steps of any one worker alone |
| SocketSlot.Usocket.constructor | rednet-src/network/usocket.cc:154-169 | a new slot has nothing to send and no send in flight |
| SocketSlot.Usocket.IsForwardNow | rednet-src/network/usocket.cc:31-34 | nothing to send, and the whole counter word, tag included, is zero |
| SocketSlot.Usocket.IncForwardRef | rednet-src/network/usocket.cc:46-70 | a send is counted exactly if the tag matches and the low 16 bits have room; the tag is never touched |
| SocketSlot.Usocket.DecForwardRef | rednet-src/network/usocket.cc:72-78 | a send in flight is returned under a matching tag |
| SocketSlot.Usocket.BeginForwardTCP | rednet-src/network/usocket.cc:92-128 | writes the deque until it is empty or a write takes less than asked; the pending size follows |
| SocketSlot.Usocket.PushForwardList | rednet-src/network/usocket.cc:130-141 | the bytes join the deque and the pending size |
| SocketSlot.Usocket.OnForward | rednet-src/network/usocket.cc:171-231 | a saved remainder goes in front, the deque is written, a half-closed slot closes when all is written; the assertion of line 181 holds |
| SocketSlot.Usocket.OnForwardData | rednet-src/network/usocket.cc:233-264 | what a direct write does not take is saved |
| SocketSlot.Usocket.OnClose | rednet-src/network/usocket.cc:316-350 | a closed slot has nothing to send |
| SocketSlot.Usocket.OperForwardSocket | rednet-src/network/usocket_server.cc:436-491 | a request joins the deque of a slot that accepts and is dropped otherwise |
| SocketSlot.Usocket.OperCloseSocket | rednet-src/network/usocket_server.cc:350-387 | the close command writes, unless a sender has the lock, and then closes the slot or leaves it half closed |
| SocketSlot.FlushKeepsStream | rednet-src/network/usocket.cc:92-128 | whatever the writes take, wire and pending bytes together stay the same, and a short write keeps the rest in front |
| SocketSlot.ForwardKeepsStream | rednet-src/network/usocket.cc:171-231 | one writability event keeps the stream, or closes the slot with a prefix of it written |
| SocketRuns.StreamInOrder | rednet-src/network/usocket.cc:31-141 | in every interleaving: wire, remainder and deque are the kept sends in the order they took effect, and the requests in the pipe come after them; a closed slot has written a prefix |
| SocketRuns.InFlightCounted | rednet-src/network/usocket_server.cc:493-499 | in every interleaving the low 16 bits are exactly the sends counted and not returned, so the assertion at usocket.cc:76 holds |
| SocketRuns.ConnectedLosesNothing | rednet-src/network/usocket_server.cc:880-912 | while the slot has been connecting or connected, every accepted byte is on the wire or pending, in the order of the sends |
| SocketRuns.DirectNeedsZeroTag | rednet-src/network/usocket.cc:31-34 | a direct write happens only under a zero tag, because the test on line 33 uses && for & |
| SocketRuns.CloseOfDrainedSlot | rednet-src/network/usocket_server.cc:350-387 | a close command on a connected slot with nothing left to send closes it if and only if it is a shutdown or the tag is zero |
| SocketRuns.RunKeepsInv | rednet-src/network/usocket_server.cc:520-547 | stream order, pending size and in-flight count hold after every run |
| ScatterMaps.ScatterMap.constructor | 3rd/aoi/map.h:30-35 | a new table stands for the empty map |
| ScatterMaps.ScatterMap.Find | 3rd/aoi/map.h:94-111 | the walk along the links finds the slot of a key exactly if there is one |
| ScatterMaps.ScatterMap.Insert | 3rd/aoi/map.h:44-92 | adds one binding and changes no other, whether the main slot is free, squatted or taken, and resizes at most once |
| ScatterMaps.ScatterMap.LinkFree | 3rd/aoi/map.h:77-88 | takes the highest free slot below the mark; there is none exactly if the table is full |
| ScatterMaps.ScatterMap.Predecessor | 3rd/aoi/map.h:56-61 | the walk from the main slot of a squatting key reaches the slot that links to it; the assertion of line 59 holds |
| ScatterMaps.ScatterMap.Displace | 3rd/aoi/map.h:54-75 | a squatter is unlinked and inserted again; only the new binding is added |
| ScatterMaps.ScatterMap.Resize | 3rd/aoi/map.h:157-181 | doubling keeps the map, leaves tombstones behind and never runs out of slots |
| ScatterMaps.ScatterMap.Query | 3rd/aoi/map.h:94-116 | for every key but 0xFFFFFFFF: returns the value of a known key, otherwise stores and returns the new value |
| ScatterMaps.ScatterMap.Drop | 3rd/aoi/map.h:118-136 | removes one binding and leaves a tombstone |
| ScatterMaps.ScatterMap.ForEach | 3rd/aoi/map.h:138-148 | visits every binding exactly once |
| ScatterMaps.LinkAfterHeadKeepsChains | 3rd/aoi/map.h:79-86 | linking a slot behind the head keeps all chains acyclic, complete and headed at their main slots |
| ScatterMaps.UnlinkKeepsChains | 3rd/aoi/map.h:63-68 | unlinking a squatter keeps all chains |
| ScatterMaps.StoreIsSoundIff | 3rd/aoi/map.h:44-87 | in each of the three ways in which a key is stored, the table stays sound if and only if the key is not 0xFFFFFFFF; under that key the value is in a slot that still counts as free |
| ScatterMaps.ReservedIdIsOverwritten | 3rd/aoi/map.h:44-87 | then the next key with that main slot takes the slot: the value is in no slot any more, and the table is sound again if and only if the slot had not been linked behind a head, which would have mixed two chains |
| ScatterMaps.ChainPosition | 3rd/aoi/map.h:54-61 | every used slot lies on the chain of its own key, at position 0 exactly if it is the main slot |
| AoiSpaces.AoiSpace.ReleaseObject | 3rd/aoi/aoi.cpp:282-290 | the last reference frees the object and drops its id from the table |
| AoiSpaces.AoiSpace.DropHotPair | 3rd/aoi/aoi.cpp:178-183 | a pair gives both its references back |
| AoiSpaces.AoiSpace.FlushPair | 3rd/aoi/aoi.cpp:98-134 | heap, hot list and reports after the in-place walk are those of the specification |
| AoiSpaces.AoiSpace.SetPush | 3rd/aoi/aoi.cpp:247-275 | an object joins the lists of its modes, and its move flag is cleared |
| AoiSpaces.AoiSpace.GenOnePair | 3rd/aoi/aoi.cpp:148-176 | reports a pair in the radius, keeps one between one and two radii, ignores the rest |
| AoiSpaces.AoiSpace.GenPairList | 3rd/aoi/aoi.cpp:136-146 | every pair of the two lists once, row by row |
| AoiSpaces.AoiSpace.Message | 3rd/aoi/aoi.cpp:85-96 | the whole message on the table, the heap and the lists is the specified one, for the order of the table's own visit |
| AoiSpaces.AoiSpace.Update | 3rd/aoi/aoi.cpp:41-83 | the command on the table and the heap is the specified one |
| AoiSpaces.AoiSpace.ReadModes | 3rd/aoi/aoi.cpp:48-67 | the letters up to the first d |
| AoiModel.DropPairKeeps | 3rd/aoi/aoi.cpp:178-183 | dropping one of the pairs gives back exactly its two references, frees only what had been dropped, and leaves the other pairs sound |
| AoiModel.FlushIs | 3rd/aoi/aoi.cpp:98-134 | one pass over the hot list reports the current pairs in the radius, keeps the current ones between one and two radii, and keeps counts and table |
| AoiModel.FlushFreesDropped | 3rd/aoi/aoi.cpp:98-134 | after the flush exactly the undropped objects are left |
| AoiMessage.PushAllIs | 3rd/aoi/aoi.cpp:247-275 | the four lists after a visit are the selections by mode and movement |
| AoiMessage.GenAllOk | 3rd/aoi/aoi.cpp:136-176 | a grid of pairs that were not looked at before adds each report and each hot pair once |
| AoiMessage.MessageReports | 3rd/aoi/aoi.cpp:85-176 | one message reports each ordered pair at most once, and exactly the pairs in the radius that are current in the hot list or of which one side had moved |
| AoiMessage.MessageHotList | 3rd/aoi/aoi.cpp:85-176 | afterwards the hot list has no duplicates and is exactly the due pairs between one and two radii, all current |
| AoiMessage.MessageKeepsInv | 3rd/aoi/aoi.cpp:85-96 | a message keeps the invariant, frees exactly the dropped objects and changes the others in move flag and count only |
| AoiUpdate.UpdateKeepsInv | 3rd/aoi/aoi.cpp:41-83 | an update keeps counts, table, modes and pairs sound |
| AoiUpdate.UpdatePlaces | 3rd/aoi/aoi.cpp:69-82 | who counts as moved: new or revived objects, changed bits, or half a radius and more from the last such place |
| AoiUpdate.UpdateDrops | 3rd/aoi/aoi.cpp:59-66 | a dropped object stays exactly as long as the hot list refers to it |
| AoiUpdate.ReachableCounts | 3rd/aoi/aoi.cpp:41-290 | in every reachable state a count is one, if not dropped, plus the occurrences in the hot list, and pairs refer to known objects only |
| AoiSpaces.VisitIsEnumeration | 3rd/aoi/map.h:138-148 | the table's visit goes over every object of the space once |
| LuaFormat.IntegerRoundTrip | rednet-src/lua/uluaseri.cc:140-183 | every 64-bit integer reads back from its shortest form |
| LuaFormat.StringRoundTrip | rednet-src/lua/uluaseri.cc:205-235 | every string below 2^31 bytes reads back from its short or long form |
| LuaFormat.ScalarRoundTrip | rednet-src/lua/uluaseri.cc:35-89 | every value but a table reads back |
| LuaFormat.ValueRoundTrip | rednet-src/lua/uluaseri.cc:376-443 | a packed value whose strings fit reads back and leaves the bytes behind it, exactly if no table in it has 31 array items; otherwise it is rejected |
| LuaFormat.LongTableRejected | rednet-src/lua/uluaseri.cc:255-262 | the count of a table with 31 array items or more carries a tag that the reader refuses |
| LuaFormat.PairsRoundTrip | rednet-src/lua/uluaseri.cc:281-303 | the hash part reads back pair by pair up to the nil key, into a table that has the array part already |
| LuaFormat.RoundTrip | rednet-src/lua/uluaseri.cc:576-614 | for every list of values: unpacking what was packed returns the values and consumes every byte if and only if no table has 31 array items and no string 2^31 bytes; with such a table and no such string it fails |
| LuaFormat.LongStringLost | rednet-src/lua/uluaseri.cc:66-72 | of a string whose length is negative as an int only a tag is written |
| LuaFormat.OneFits | rednet-src/lua/uluaseri.cc:399-431 | every string that is read is shorter than 2^31 bytes |
| LuaFormat.PackSucceeds | rednet-src/lua/uluaseri.cc:35-41 | packing succeeds exactly on supported values nested within the depth limit |
| LuaValues.RawSetIsUpdate | rednet-src/lua/uluaseri.cc:515-552 | a raw store changes exactly one key |
| LuaValues.SetKeepsDistinct | rednet-src/lua/uluaseri.cc:515-552 | stores keep the keys of a table distinct |
| LuaStream.TraversalOutside | rednet-src/lua/uluaseri.cc:281-303 | a traversal shows exactly the pairs outside the array part once the array part is skipped |
| LuaStream.WriteBlock.Push | rednet-src/lua/uluaseri.h:77-107 | the bytes are appended across block boundaries |
| LuaStream.WriteBlock.Serialize | rednet-src/lua/uluaseri.cc:91-116 | the flattened chain is what was written |
| LuaStream.WriteBlock.PushInteger | rednet-src/lua/uluaseri.cc:140-183 | writes the tag and payload of the format |
| LuaStream.WriteBlock.PushString | rednet-src/lua/uluaseri.cc:205-235 | writes the short or long form of a string of any length, with the length cut to an int |
| LuaStream.WriteBlock.PackOne | rednet-src/lua/uluaseri.cc:35-89 | writes one value, or fails, as the format says |
| LuaStream.WriteBlock.PushTableArray | rednet-src/lua/uluaseri.cc:255-279 | writes the array items in order |
| LuaStream.WriteBlock.PushTableHash | rednet-src/lua/uluaseri.cc:281-303 | writes the pairs outside the array part and a nil |
| LuaStream.WriteBlock.PushTable | rednet-src/lua/uluaseri.cc:237-253 | writes a table at one more level of depth |
| LuaStream.ReadBlock.Read | rednet-src/lua/uluaseri.cc:363-374 | takes bytes off the front, or fails and takes none; a negative size moves the cursor back |
| LuaStream.ReadBlock.ReadBuffer | rednet-src/lua/uluaseri.cc:566-574 | reads a string, or fails; a string of a negative length is refused (3rd/lua/src/lstring.c, lines 199-205) |
| LuaStream.ReadBlock.ReadInteger | rednet-src/lua/uluaseri.cc:445-491 | reads an integer of the width that the cookie names |
| LuaStream.ReadBlock.PushValue | rednet-src/lua/uluaseri.cc:376-443 | reads the value behind a tag |
| LuaStream.ReadBlock.ReadTable | rednet-src/lua/uluaseri.cc:515-552 | reads the size, the array items and the pairs of a table |
| LuaStream.ReadBlock.UnpackOne | rednet-src/lua/uluaseri.cc:554-564 | reads one value |
| LuaStream.LuaSeriPack | rednet-src/lua/uluaseri.cc:576-580 | packing is the format's function of the values |
| LuaStream.LuaSeriUnpack | rednet-src/lua/uluaseri.cc:582-614 | unpacking is the format's function of the bytes |
| Cuckoo.Ckh.constructor | 3rd/jemalloc/src/ckh.c:358-413 | an empty table, at most three quarters full with the given number of bindings |
| Cuckoo.Ckh.ISearch | 3rd/jemalloc/src/ckh.c:80-99 | finds the cell of a key exactly if it is bound |
| Cuckoo.Ckh.TryBucketInsert | 3rd/jemalloc/src/ckh.c:101-125 | fills a cell of the bucket, or the bucket is full and nothing changes |
| Cuckoo.Ckh.EvictRelocInsert | 3rd/jemalloc/src/ckh.c:133-202 | for any choices and any hash: either the new binding is added, or table and carried pair together are the old table with the new pair; the evicted bucket is always full |
| Cuckoo.Ckh.TryInsert | 3rd/jemalloc/src/ckh.c:204-228 | as above, after both buckets were tried |
| Cuckoo.Ckh.Rebuild | 3rd/jemalloc/src/ckh.c:234-254 | the new table has the same bindings, or the count is put back |
| Cuckoo.Ckh.Grow | 3rd/jemalloc/src/ckh.c:256-308 | the bindings stay; on failure the old table is in place again |
| Cuckoo.Ckh.Shrink | 3rd/jemalloc/src/ckh.c:310-356 | the bindings stay, in half the buckets or in the old table |
| Cuckoo.Ckh.Insert | 3rd/jemalloc/src/ckh.c:465-486 | on success exactly one binding is added |
| Cuckoo.Ckh.Remove | 3rd/jemalloc/src/ckh.c:488-519 | returns and removes one binding |
| Cuckoo.Ckh.Search | 3rd/jemalloc/src/ckh.c:521-539 | returns the binding of a key, if any |
| CuckooCells.SwapKeeps | 3rd/jemalloc/src/ckh.c:158-174 | a cell that changes places with the carried pair changes the map by one key out and one in |
| CuckooCells.FillKeeps | 3rd/jemalloc/src/ckh.c:112-118 | filling an empty cell adds one binding |
| CuckooCells.ClearKeeps | 3rd/jemalloc/src/ckh.c:494-505 | emptying a cell removes one binding |
| ExtentSizes.FloorIsGreatest | 3rd/jemalloc/src/extent.c:228-248 | the quantized size is the greatest padded class up to the size |
| ExtentSizes.CeilIsLeast | 3rd/jemalloc/src/extent.c:254-275 | the rounded size is the least padded class from the size on |
| ExtentSizes.SearchIsExact | 3rd/jemalloc/src/extent.c:365-448 | a search from the start heap meets exactly the extents of the rounded size or more, so all are large enough |
| ExtentSizes.PaddedFits | 3rd/jemalloc/src/extent.c:457-466 | an extent of the padded size has room behind the next aligned page, wrap-around included |
| ExtentModel.SplitKeepsPages | 3rd/jemalloc/src/extent.c:1974-2053 | splitting keeps the tiling and changes no page |
| ExtentModel.SplitKeepsIndex | 3rd/jemalloc/src/extent.c:1974-2053 | the four tree writes index both halves by their end pages, one-page halves included |
| ExtentModel.MergeKeepsPages | 3rd/jemalloc/src/extent.c:2084-2153 | merging like neighbours keeps the tiling and changes no page |
| ExtentModel.MergeKeepsIndex | 3rd/jemalloc/src/extent.c:2084-2153 | clearing the inner ends and writing the outer ones indexes the result, for one-page extents too |
| ExtentModel.UnregisterPages | 3rd/jemalloc/src/extent.c:811-831 | deregistering gives up the pages of the extent and no others |
| ExtentModel.NextIs | 3rd/jemalloc/src/extent.c:1539-1548 | the tree finds the extent behind exactly if there is one |
| ExtentModel.PreviousIs | 3rd/jemalloc/src/extent.c:1562-1571 | the tree finds the extent in front exactly if there is one |
| ExtentCache.InsertKeeps | 3rd/jemalloc/src/extent.c:309-332 | list, heaps and page count hold the inserted extent once |
| ExtentCache.RemoveKeeps | 3rd/jemalloc/src/extent.c:335-358 | list, heaps and page count lose exactly the removed extent, from the heap its size names |
| ExtentMoves.GrowStep | 3rd/jemalloc/src/extent.c:1507-1524 | absorbing a cached neighbour adds its pages to the extent in hand and changes no other |
| ExtentMoves.GrownThenCached | 3rd/jemalloc/src/extent.c:1597-1637 | once the coalesced extent is cached, only the pages of the extent it came from have changed |
| ExtentMoves.GrownThenCoalesced | 3rd/jemalloc/src/extent.c:1597-1637 | if the extent has no cached neighbour left, no two cached extents can be merged |
| ExtentMoves.SplitAlone | 3rd/jemalloc/src/extent.c:935-1003 | the parts of an extent without mergeable neighbours have none |
| ExtentSpaces.Extents.constructor | 3rd/jemalloc/src/extent.c:281-296 | an empty cache |
| ExtentSpaces.Extents.InsertLocked | 3rd/jemalloc/src/extent.c:309-332 | the extent joins the end of the list and its pages the count |
| ExtentSpaces.Extents.RemoveLocked | 3rd/jemalloc/src/extent.c:335-358 | the extent leaves the list and its pages the count |
| ExtentSpaces.Extents.FitAlignment | 3rd/jemalloc/src/extent.c:365-395 | the extent chosen has room behind the next aligned page, none only if the first extent of no heap in the range has; the assertion of line 379 holds |
| ExtentSpaces.Extents.BestFit | 3rd/jemalloc/src/extent.c:399-419 | an extent of the lowest heap that is large enough, or none because all such heaps are out of proportion |
| ExtentSpaces.Extents.FirstFit | 3rd/jemalloc/src/extent.c:426-448 | the oldest and lowest of all extents of the rounded size or more; none only if there is none |
| ExtentSpaces.Extents.FitLocked | 3rd/jemalloc/src/extent.c:457-482 | the extent chosen has room for the aligned request; none only if every policy tried finds none; the assertion of line 258 fails if and only if the padded request does not wrap around and is beyond the largest class |
| ExtentSpaces.Extents.ActivateLocked | 3rd/jemalloc/src/extent.c:647-654 | the extent leaves the cache and is in use |
| ExtentSpaces.Extents.DeactivateLocked | 3rd/jemalloc/src/extent.c:629-636 | the extent joins the cache |
| ExtentSpaces.Extents.SplitImpl | 3rd/jemalloc/src/extent.c:1974-2053 | two extents for one, or no change if the hook refuses |
| ExtentSpaces.Extents.MergeImpl | 3rd/jemalloc/src/extent.c:2084-2153 | one extent for two, or no change if the hook refuses |
| ExtentSpaces.Extents.SplitInterior | 3rd/jemalloc/src/extent.c:935-1003 | the parts in front, inside and behind the request; the request always fits |
| ExtentSpaces.Extents.RecycleExtract | 3rd/jemalloc/src/extent.c:848-906 | a cached extent with room for the request is taken out, or nothing changes; which requests stop at an assertion |
| ExtentSpaces.Extents.RecycleSplit | 3rd/jemalloc/src/extent.c:1012-1054 | the rest is cached; if a split fails, exactly the pages of the extent are lost; the assertion of line 1039 holds |
| ExtentSpaces.Extents.TakeOut | 3rd/jemalloc/src/extent.c:1061-1086 | the pages of the result were cached and are in use, aligned and of the requested number; no other page changes and the count loses just these; a request that is too large stops before anything changes |
| ExtentSpaces.Extents.CommitImpl | 3rd/jemalloc/src/extent.c:1088-1096 | the extent is committed and counts as zeroed, or nothing changes if the hook refuses |
| ExtentSpaces.Extents.Recycle | 3rd/jemalloc/src/extent.c:1061-1103 | as before, and committed if they were or the caller asks for it; if the commit is refused, the pages are cached again and none has changed |
| ExtentSpaces.Extents.Coalesce | 3rd/jemalloc/src/extent.c:1507-1524 | with no other thread at work: merges a cached neighbour, or puts it back |
| ExtentSpaces.Extents.TryCoalesce | 3rd/jemalloc/src/extent.c:1527-1590 | with no other thread at work: ends, absorbs cached neighbours only, and unless a hook refused leaves none to absorb (or does one merge when delayed) |
| ExtentSpaces.Extents.Record | 3rd/jemalloc/src/extent.c:1597-1637 | exactly the pages of the extent go from in use to cached, and afterwards no two cached extents can be merged if that held before; with delayed coalescing only large extents are merged, and those at least once if possible |
| ExtentSpaces.Extents.TryDelayedCoalesce | 3rd/jemalloc/src/extent.c:485-499 | either nothing was left to merge, or the merged extent is cached and no page has changed |
| ExtentSpaces.Extents.Evict | 3rd/jemalloc/src/extent.c:532-593 | ends, and takes exactly the pages of one cached extent out, the oldest, or when coalescing is delayed one with no mergeable neighbour left; none only below the limit |
| ExtentModel.CommitPages | 3rd/jemalloc/src/extent.c:1807-1826 | committing or decommitting an extent changes its own pages and no others |
| ExtentThreads.LookIs | 3rd/jemalloc/src/extent.c:1539-1570 | under the mutex, the tree finds the neighbour to merge on one side exactly if there is one |
| ExtentThreads.ResumeIsSound | 3rd/jemalloc/src/extent.c:1507-1590 | for every thread, policy, side and answer of the hook: what a thread does when it has the mutex again keeps the invariant, touches nothing but cached extents and those in its hand, and goes on with its record or ends it |
| ExtentThreads.OwnStepWorks | 3rd/jemalloc/src/extent.c:485-1637 | every step of recording, evicting, taking out, cutting and caching keeps the invariant and leaves the other threads' extents alone |
| ExtentThreads.RunKeepsInv | 3rd/jemalloc/src/extent.c:485-1637 | in every interleaving with each other and with the other caches: tiling, tree, list and page count stay sound and the threads' hands disjoint |
| ExtentThreads.EveryRunKeepsInv | 3rd/jemalloc/src/extent.c:281-295 | so they are in every state that is reached from an empty cache |
| ExtentThreads.MergesAreSafe | 3rd/jemalloc/src/extent.c:1507-1524 | when a merge is made without the mutex, in every interleaving, both extents are still in use, neighbours of one kind, and in no other hand |
| ExtentThreads.StepIsIsolated | 3rd/jemalloc/src/extent.c:1507-1637 | a step changes no extent in another thread's hand and no extent in use but the one to be recorded |
| ExtentThreads.StepIsForeign | 3rd/jemalloc/src/extent.c:1541-1548 | the caches of one address space do not disturb each other: each step at one is a step that the others allow for |
| ExtentThreads.RecordEndsInCache | 3rd/jemalloc/src/extent.c:1597-1637 | whatever happens in between, a record keeps all its pages in its thread's hand until the step that caches every one of them |
| ExtentThreads.RunMovesPages | 3rd/jemalloc/src/extent.c:485-1637 | no interleaving gives a page to another arena or changes whether it is committed; pages are forgotten only when an extent is given up or evicted from the retained ones |
| ExtentRaces.DeactivateCoalesced | 3rd/jemalloc/src/extent.c:629-644 | caching an extent unseen keeps the cache coalesced if and only if it has no cached neighbour to be merged with |
| ExtentRaces.StepCoalescedIff | 3rd/jemalloc/src/extent.c:1012-1637 | without delay and refusals, a step keeps the cache coalesced if and only if the part of an extent that it caches unseen, if any, has no cached neighbour to be merged with |
| ExtentRaces.RunKeepsCoalesced | 3rd/jemalloc/src/extent.c:1527-1637 | so the loop of attempts leaves no two cached extents that could be merged, however records and evictions interleave around the merges |
| ExtentRaces.EveryRunCoalesced | 3rd/jemalloc/src/extent.c:1527-1637 | the same in every state that is reached from an empty cache |
| ExtentRaces.LoopIsNeeded | 3rd/jemalloc/src/extent.c:1530-1584 | an interleaving of two records at the retained pages, from an empty cache on, in which the side just merged has a mergeable neighbour again that a single round would leave beside the result |
| ExtentRaces.RecyclersRace | 3rd/jemalloc/src/extent.c:1012-1033 | an interleaving of one recycler, with an alignment of two pages, and one record at the retained pages, from an empty cache on, that leaves two mergeable extents cached |
| ArenaBin.Bin.RegAlloc | 3rd/jemalloc/src/arena.c:224-237 | the lowest region that is not in use |
| ArenaBin.Bin.Regind | 3rd/jemalloc/src/arena.c:243-261 | the region of an address, by multiplication |
| ArenaBin.Bin.Malloc | 3rd/jemalloc/src/arena.c:1195-1203 | at the end of the first lock region every slab is in its place; the current slab serves while it can; either a region that was not in use is handed out, or no slab has one free |
| ArenaBin.Bin.SlabReady | 3rd/jemalloc/src/arena.c:1152-1247 | whatever happened while the lock was dropped: a region that was not in use is handed out, always if a slab was allocated, and every slab is in its place |
| ArenaBin.Bin.UseSlab | 3rd/jemalloc/src/arena.c:1206-1247 | the region comes from the current slab while it has one, else from the slab in hand; every slab ends up in its place and none is empty |
| ArenaBin.Bin.LowerSlab | 3rd/jemalloc/src/arena.c:1502-1526 | the slab in hand replaces a later current one, which goes where it belongs |
| ArenaBin.Bin.TryGet | 3rd/jemalloc/src/arena.c:924-933 | takes the oldest slab out of the heap |
| ArenaBin.Bin.Dissociate | 3rd/jemalloc/src/arena.c:1465-1484 | an empty slab leaves its place, the list of full ones if it has one region |
| ArenaBin.Bin.Dalloc | 3rd/jemalloc/src/arena.c:1529-1554 | exactly the given region is no longer in use; a slab without regions in use is given back |
| ArenaBin.TakeIs | 3rd/jemalloc/src/arena.c:224-237 | a region taken is one region more in use, and the free count agrees with the bitmap |
| ArenaBin.GiveIs | 3rd/jemalloc/src/arena.c:264-275 | a region given back is one less in use, and the free count agrees |
| ArenaBin.StaysPut | 3rd/jemalloc/src/arena.c:1541-1547 | a slab that stays partly free need not move |
| DecayBacklog.PurgedIsDrop | 3rd/jemalloc/src/background_thread.c:104-115 | what is purged after k epochs is the weighted backlog less the weighted backlog k epochs later |
| DecayBacklog.PurgedMonotone | 3rd/jemalloc/src/background_thread.c:104-115 | a longer wait never purges less |
| DecayBacklog.AdvancedLimit | 3rd/jemalloc/src/arena.c:451-508 | an advance lets the limit grow by no more than the new pages |
| DecayBacklog.Decay.NpagesLimit | 3rd/jemalloc/src/arena.c:451-468 | the loop computes the weighted sum in pages |
| DecayBacklog.Decay.BacklogUpdate | 3rd/jemalloc/src/arena.c:471-508 | the backlog is shifted, cleared behind and gets the new pages, for any number of epochs; the assertion of line 481 holds |
| DecayBacklog.Decay.EpochAdvance | 3rd/jemalloc/src/arena.c:522-560 | new limit, new count of unpurged pages, and the pages over the limit; the assertion's invariant is kept |
| DecayBacklog.Decay.Reinit | 3rd/jemalloc/src/arena.c:563-577 | from scratch, invariant included |
| DecayBacklog.Decay.NpurgeAfterInterval | 3rd/jemalloc/src/background_thread.c:104-115 | the two loops compute what is purged after the interval |
| DecayBacklog.Decay.Search | 3rd/jemalloc/src/background_thread.c:178-192 | the threshold stays between the two ends, which come close in at most eight steps (line 191) |
| DecayBacklog.Decay.ComputePurgeInterval | 3rd/jemalloc/src/background_thread.c:118-200 | the interval in every case, the middle of a bracket of the threshold when it is searched for |
| TcacheFlush.CacheBin.FlushSmall | 3rd/jemalloc/src/tcache.c:104-186 | ends; the calls free the items in the order of the passes, each in its own arena; the kept items stay in order; the statistics are merged exactly once, in the thread's own arena |
| TcacheFlush.CacheBin.FreeSmall | 3rd/jemalloc/src/tcache.c:142-165 | one pass frees the items of one arena and compacts the others and their extents in place |
| TcacheFlush.CacheBin.FlushLarge | 3rd/jemalloc/src/tcache.c:189-284 | ends; each pass prepares its items under the lock and finishes them after; the kept items stay in order |
| TcacheFlush.CacheBin.Keep | 3rd/jemalloc/src/tcache.c:180-185 | the kept items move to the end of the stack in order, overlapping or not |
| TcacheFlush.FlushedOnce | 3rd/jemalloc/src/tcache.c:104-186 | every item is given back exactly as often as it was cached |
| TcacheFlush.SmallOnce | 3rd/jemalloc/src/tcache.c:142-165 | the calls give every item to its own arena exactly as often as it was cached, and to no other |
| TcacheFlush.LocksAreDistinct | 3rd/jemalloc/src/tcache.c:120-166 | an arena is locked by one pass at most, and only if it owns an item |
| TcacheFlush.LargeOnce | 3rd/jemalloc/src/tcache.c:189-284 | every large extent is prepared under its own arena and finished, as often as it was cached |
| TcacheFlush.PreparedBeforeFinished | 3rd/jemalloc/src/tcache.c:189-284 | at no point has an extent been finished more often than prepared |
| MallocIo.U2s | 3rd/jemalloc/src/malloc_io.c:235-274 | the digits end at the terminator and the write index stays in the buffer |
| MallocIo.D2s | 3rd/jemalloc/src/malloc_io.c:277-302 | sign and digits of every 64-bit number, the least one included, whose negation wraps around |
| MallocIo.O2s | 3rd/jemalloc/src/malloc_io.c:305-313 | octal digits, with a zero in front in the alternate form |
| MallocIo.X2s | 3rd/jemalloc/src/malloc_io.c:316-324 | hexadecimal digits, with a prefix in the alternate form |
| MallocIo.MallocStrtoumax | 3rd/jemalloc/src/malloc_io.c:114-232 | the loops of the parser compute its specification and stay in the string |
| MallocIo.DigitsStandFor | 3rd/jemalloc/src/malloc_io.c:235-274 | the digits of a number are digits of the base, stand for it, and do not start with zero |
| MallocIoRoundTrip.PrintedParses | 3rd/jemalloc/src/malloc_io.c:114-274 | every 64-bit number parses back in every base and case, to the terminator and without an error |
| MallocIoRoundTrip.OctalParses | 3rd/jemalloc/src/malloc_io.c:305-313 | the alternate octal form parses back without a base |
| MallocIoRoundTrip.HexParses | 3rd/jemalloc/src/malloc_io.c:316-324 | the alternate hexadecimal form parses back without a base and in base 16 |
| MallocIoRoundTrip.SignedParses | 3rd/jemalloc/src/malloc_io.c:277-302 | every signed 64-bit number parses back as its two's complement |
| MallocIoRoundTrip.ParseDigits | 3rd/jemalloc/src/malloc_io.c:114-232 | what the parser returns for any digit string of any base |
| MallocIoRoundTrip.CorrectIff | 3rd/jemalloc/src/malloc_io.c:195-209 | a digit string is parsed exactly, or reported out of range, if and only if no zero hides a non-octal digit behind it and an overflow makes the accumulator smaller at some digit |
| MallocIoRoundTrip.FitsIsNotCaught | 3rd/jemalloc/src/malloc_io.c:195-209 | numbers that fit never raise the range error |
| MallocIoRoundTrip.OverflowMissed | 3rd/jemalloc/src/malloc_io.c:203-208 | thirty quintillion is returned modulo 2^64 without an error |
| MallocIoRoundTrip.HiddenNine | 3rd/jemalloc/src/malloc_io.c:159-188 | "09" in base 10 is read as 0 |
| Division.DivInfo.constructor | 3rd/jemalloc/src/div.c:30-55 | the magic number is 2^32 / d rounded up and fits 32 bits |
| Division.DivInfo.Compute | 3rd/jemalloc/include/jemalloc/internal/div.h:25-39 | exact for multiples of d, off by at most one otherwise, and the assertion on the product tells the two apart |
| Division.MultipleIsExact | 3rd/jemalloc/src/div.c:7-28 | for every multiple of d below 2^32 the high half of the product is the quotient |
| Division.NearlyExact | 3rd/jemalloc/src/div.c:7-28 | for every number below 2^32 it is the quotient or one more |

## Left out

- Cuckoo.Ckh.EvictRelocInsert: cuts an eviction chain after `fuel` evictions and treats that like a cycle, because the code's own cycle test need not end a chain for every random choice; every outcome of the code is among those covered.
- Cuckoo.Ckh.Insert: when growth runs out of memory the table may have lost another binding than the new one, as in the code; the contract says that exactly one is missing.
- LuaFormat.RoundTrip: metapairs, identity of shared tables, streams of 2^31 bytes and more, and the meaning of floats and pointers are not modelled; the latter are opaque 8-byte images.
- EventQueues.EventQueue.Pop: the destructor's dropping of events, the byte contents of an event and the overload message are not modelled; capacities are unbounded.
- Scheduler.TokenIsOnePlace: the steps are whole lock regions, so spin locks, memory order, sleeping of workers and the registry's hash table, but for which of its slots are taken when an id is chosen, are not modelled; registration is one step.
- ScatterMaps.ScatterMap.Insert: requires a key that has no slot yet, as its only caller sees to; `& (size - 1)` is a remainder by the size.
- ScatterMaps.ScatterMap.Query: requires a key other than 0xFFFFFFFF, which free slots carry; `ScatterMaps.StoreIsSoundIff` and `ScatterMaps.ReservedIdIsOverwritten` state what happens to a value stored under it.
- AoiSpaces.AoiSpace.Update: requires an id other than 0xFFFFFFFF, for the same reason.
- AoiSpaces.AoiSpace.Message: callbacks do not call back into the space; versions are unbounded and positions are exact reals instead of floats.
- SocketSlot.Usocket.OperForwardSocket: warnings about large queues, UDP and the poll registration are not modelled; a write takes any prefix or fails.
- SocketRuns.StreamInOrder: one incarnation of a slot, without stale poll events, sends before the slot is set up or reuse of the slot; the locked part of a send and each pipe command are one step.
- ExtentSpaces.Extents.FitLocked: what a build without assertions does with a request that is too large is not modelled.
- ExtentSpaces.Extents.Recycle: slabs and their interior registrations, the clearing of pages, address randomization and failures of the radix tree itself are not modelled; the page size classes are any increasing table, and the pairing heap picks its minimum.
- ExtentSpaces.Extents.Coalesce: runs without other threads, which the code lets in while a merge hook runs; `ExtentThreads.dfy` has them.
- ExtentSpaces.Extents.TryCoalesce: the same.
- ExtentThreads.RunKeepsInv: the choice of the extent to take out is free, so the heaps by size are not repeated there; the tree writes of one merge or split are one step, as the locks of the extents make them.
- ExtentRaces.StepCoalescedIff: requires that no merge was refused; after a refusal the two neighbours stay unmerged by design.
- ArenaBin.Bin.SlabReady: the bitmap's word layout, profiling and junk filling are not modelled; a freed slab is taken over by the arena at once.
- DecayBacklog.Decay.Search: sums are unbounded and the smoothstep table is any table of 200 values that grows to 2^24.
- TcacheFlush.CacheBin.FlushSmall: profiling and decay ticks are not modelled; which extent and arena an item belongs to does not change during a flush.
- The timing wheel (`utimer`): its slot index and current-round test use the wrong masks, so no punctual-expiry property holds as written.
- Resizing and retiring of the context registry (`uctxMgr`), where a resize leaves old slots filled and retireAll has no exit.
- Stream buffering of `unetdrive` and packet framing of `netgames`, whose unsigned arithmetic breaks the stream property.
- The bootstrap failure path, where the process exits.
- heap_max.h, heap_min.h, service_depotgames.cc and ucoroutine, which are incomplete.
- Polling, pipes, threads, configuration, logging, Lua bindings, and jemalloc's control, statistics, profiling, page and fork code.
