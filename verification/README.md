# Verified models of the tuner HAL's utilities and data paths

This project models the parts of the tuner HAL whose correctness is hard to see from the code: vectors that share
storage, the looper and its reply protocol, the playback path from a byte queue to reassembled PES packets, the message
dictionary, text conversion and in-place editing, checked arithmetic, packed flags, ownership of a hardware tuner, and
the record path. Every contract is proved by Dafny 4.11; `dafny verify dfyconfig.toml` checks the whole project.

Code that updates objects is modelled by classes with the same fields, and its loops by loops. Where a promise spans
many calls, each method is proved equal to a function on values, and the promise is a lemma about that function: an
invariant of every run, a round trip, or a second definition. Concurrent code is a state machine whose steps are the
atomic actions of the source, and the lemmas hold in every interleaving.

| file | what it models |
|---|---|
| `TypeHelpers.dfy`, `VectorImpl.dfy` | object lifetimes in raw memory, counted buffers, copy-on-write vectors |
| `StableSort.dfy` | what `sort` computes, and why it is a stable sort |
| `SortedSeq.dfy`, `SortedVector.dfy`, `KeyedVector.dfy` | sorted vectors as sets, keyed vectors as finite maps |
| `ConcurrentRelease.dfy` | the reference count under concurrent holders |
| `LinkedList.dfy`, `EventList.dfy` | the circular list with its sentinel, and the event queue stored in it |
| `TimedQueue.dfy`, `LooperProtocol.dfy`, `LooperSafety.dfy`, `LooperTheorems.dfy` | the looper, its locks, conditions and replies |
| `LooperResults.dfy` | when messages are due, and what the results of calls say |
| `LooperOverlap.dfy`, `LooperRestart.dfy`, `LooperCallers.dfy` | when a start may come between a stop and the exit of the old looper, what happens otherwise, and a rule for callers |
| `PesStream.dfy`, `DemuxSpec.dfy`, `DemuxRuns.dfy`, `TsDemux.dfy` | transport packets, PES reassembly, routing, whole runs, and the objects |
| `Messages.dfy`, `TSPMessage.dfy` | messages as values with the patch law, and the message object |
| `Unicode.dfy` | UTF-8 to UTF-16 |
| `String8.dfy` | removal inside the buffer that is searched |
| `SafeIop.dfy` | checked arithmetic at any width |
| `Flagged.dfy` | flags packed into the free bits of nested wrappers |
| `TunerSpec.dfy`, `TunerOwnership.dfy` | who holds the hardware tuner |
| `RecordSpec.dfy`, `RecordPath.dfy` | the record path and its latched overflow |

How to read the heap contracts of the vectors. `World(W)` says that `W` is a set of vectors closed under sharing, that
all of them are valid, and that each buffer is owned by exactly the vectors of `W` that point at it. Every operation
takes such a `W`, keeps it, and says that no other vector of `W` changed its contents. Constructing an object needs a
proof that its slot is free, and destroying one that the slot holds an object, so that each object is constructed and
destroyed once. The exceptions are bitwise: memmove, and `EditResize`, which copies and drops slots whatever they hold;
its callers may only use it for element types whose objects may be copied and dropped like that. `NothingLost` says
that a buffer the vector left was freed exactly when nobody else owned it, and that one it kept has the owners it had.

Results that differ from what one might expect of the code:

- Two looper threads can exist when `start` comes between a `stop` and the exit of the old thread. If the old one may
  still wait at that moment, some continuation loses something, and otherwise none does (`StartIsSafeIff`): a looper
  is asleep without a deadline and no signal is on its way, although nobody wants it any more, or although an event
  waits that no other looper is going to take. In one run everything comes to rest with `stop` waiting for the sleeping
  thread (`RestartCanStrandStop`). It cannot happen to callers that run no loop on the calling thread, do not stop from
  the looper's own thread, and let no start happen between the moment a stop has taken effect and its return
  (`CarefulNoLostWakeup`, `CarefulIsIdle`). The results about replies, lock order and the queue hold in all runs.
- The fast paths of `merge` between sorted vectors agree with adding the elements one by one exactly when the boundary
  elements they compare are not equivalent (`FastMergeIsExact`).
- A difference omits a nested message without entries that the other side lacks; this is exactly when extending the
  other side by the difference does not make it cover the message (`PatchLaw`). A deep difference replaces a nested
  message by its changes alone, so that it is a patch exactly when every nested message differs in all its entries from
  its counterpart or in none of them (`DeepPatchLaw`). `what` and `handler` cannot be patched to 0, as 0 in a difference
  also stands for no change (`HeadPatchLaw`).
- A PES filter that was given everything has put out its stream if and only if none of its writes failed
  (`DemuxRoundTrip`): after a failed write the bytes stay in the filter, and the next PES packet comes out behind them
  (`StaleAfterFailure`). Of two filters with the same PID only the first gets anything (`SecondFilterStarves`).
- `removeAll` goes on from round to round exactly when the pattern is not empty (`RoundAdvances`): with an empty one it
  does not terminate on any text but the empty one.
- A move by zero positions would construct objects from themselves, which counts as a lifetime error here; this is why
  insert and remove counts must be at least one when elements are not relocated with memmove.
- For a chain of checked signed additions, or of unsigned multiplications, it is not the total that decides but every
  partial result (`TotalDoesNotDecide`).

## Model

| member | source | states |
|---|---|---|
| `TypeHelpers.ForwardLoopRelocates` | utils/TypeHelpers.h:194-213 | moving a range up, overlapping or not, never constructs over a live object nor reads a dead one, and relocates exactly that range |
| `TypeHelpers.BackwardLoopRelocates` | utils/TypeHelpers.h:221-237 | the same for moving down, lowest element first |
| `CopyOnWrite.SharedBuffer.Alloc` | utils/SharedBuffer.cpp:26-43 | a new buffer has one owner, a count of one and no objects |
| `CopyOnWrite.SharedBuffer.Acquire` | utils/SharedBuffer.cpp:106-108 | the count stays the number of owners |
| `CopyOnWrite.SharedBuffer.Dealloc` | utils/SharedBuffer.cpp:45-48 | a block is freed only once, with a count of zero and no object left in it |
| `CopyOnWrite.SharedBuffer.Release` | utils/SharedBuffer.cpp:110-132 | the owner is gone, the previous count is returned, and the block is freed if and only if nobody is left and its storage is not kept |
| `CopyOnWrite.SharedBuffer.AttemptEdit` | utils/SharedBuffer.cpp:88-94 | the buffer itself if and only if exactly one vector owns it, nothing otherwise |
| `CopyOnWrite.SharedBuffer.EditResize` | utils/SharedBuffer.cpp:63-86 | the same buffer for a sole owner and a private one otherwise, with the old slots up to the new size; a shared original is unchanged |
| `CopyOnWrite.SharedBuffer.ConstructType` | utils/TypeHelpers.h:125-134 | the range holds objects, default ones unless the constructor is trivial; the rest is unchanged |
| `CopyOnWrite.SharedBuffer.DestroyType` | utils/TypeHelpers.h:136-145 | every object of the range is destroyed, nothing else changes |
| `CopyOnWrite.SharedBuffer.CopyType` | utils/TypeHelpers.h:147-164 | copies arrive in free storage, nothing else changes |
| `CopyOnWrite.SharedBuffer.SplatType` | utils/TypeHelpers.h:166-181 | copies of one object fill free storage, nothing else changes |
| `CopyOnWrite.SharedBuffer.MoveForwardType` | utils/TypeHelpers.h:186-213 | both implementations, memmove and loop, relocate the range |
| `CopyOnWrite.SharedBuffer.MoveBackwardType` | utils/TypeHelpers.h:214-237 | both implementations relocate the range |
| `CopyOnWrite.SharedBuffer.SiftDown` | utils/VectorImpl.cpp:194-210 | one round of the insertion in `sort` puts the item where insertion puts it, with every slot live afterwards |
| `CopyOnWrite.VectorImpl.constructor` | utils/VectorImpl.cpp:41-44 | an empty vector without a buffer |
| `CopyOnWrite.VectorImpl.CountIsExact` | utils/VectorImpl.cpp:46-80 | a buffer's count is the number of vectors pointing at it, and they agree on the number of items and on the contents |
| `CopyOnWrite.VectorImpl.ReleaseStorage` | utils/VectorImpl.cpp:363-372 | a last owner destroys all objects and frees the buffer; otherwise the slots are untouched; no other vector changes |
| `CopyOnWrite.VectorImpl.EditArray` | utils/VectorImpl.cpp:82-101 | afterwards nobody shares the buffer; the contents of this and all other vectors are the same, and a sole owner keeps its buffer |
| `CopyOnWrite.VectorImpl.Grow` | utils/VectorImpl.cpp:374-447 | all branches leave the items split by free room, with the new capacity given exactly; no other vector changes |
| `CopyOnWrite.VectorImpl.GrowByResize` | utils/VectorImpl.cpp:406-417 | growing at the end by a bitwise resize |
| `CopyOnWrite.VectorImpl.GrowByCopy` | utils/VectorImpl.cpp:418-435 | growing by copying the two parts into a new buffer and releasing the old one |
| `CopyOnWrite.VectorImpl.GrowInPlace` | utils/VectorImpl.cpp:436-446 | growing within the capacity, after detaching from sharers |
| `CopyOnWrite.VectorImpl.Shrink` | utils/VectorImpl.cpp:449-513 | all branches remove exactly the given items, with the new capacity given exactly; no other vector changes |
| `CopyOnWrite.VectorImpl.ShrinkByResize` | utils/VectorImpl.cpp:474-484 | removing the last items by a bitwise resize |
| `CopyOnWrite.VectorImpl.ShrinkByCopy` | utils/VectorImpl.cpp:485-502 | removing items by copying the two parts into a smaller buffer |
| `CopyOnWrite.VectorImpl.CloseGap` | utils/VectorImpl.cpp:503-512 | removing items in the vector's own buffer by an overlapping move |
| `CopyOnWrite.VectorImpl.InsertAt` | utils/VectorImpl.cpp:142-155 | the items are put in at the index and nowhere else, or BAD_INDEX changes nothing; the error result for no location is exact |
| `CopyOnWrite.VectorImpl.InsertVectorAt` | utils/VectorImpl.cpp:111-130 | the contents of another vector are put in at the index, also when it shares this vector's buffer |
| `CopyOnWrite.VectorImpl.ReplaceAt` | utils/VectorImpl.cpp:254-275 | exactly one item is replaced, in this vector alone, or BAD_INDEX changes nothing |
| `CopyOnWrite.VectorImpl.RemoveItemsAt` | utils/VectorImpl.cpp:277-287 | exactly the given items are removed, in this vector alone, or BAD_VALUE changes nothing |
| `CopyOnWrite.VectorImpl.Clear` | utils/VectorImpl.cpp:296-299 | this vector is empty, all others are unchanged |
| `CopyOnWrite.VectorImpl.Resize` | utils/VectorImpl.cpp:353-361 | a prefix of the old contents, or the old contents and default items |
| `CopyOnWrite.VectorImpl.SetCapacity` | utils/VectorImpl.cpp:331-351 | the capacity changes only when it is larger than the size, the contents never |
| `CopyOnWrite.VectorImpl.Assign` | utils/VectorImpl.cpp:64-80 | this vector shares the buffer of the other, its old buffer is freed if it was the last owner, self-assignment changes nothing |
| `CopyOnWrite.VectorImpl.Copy` | utils/VectorImpl.cpp:46-53 | a new vector of the closed world with the same contents and the same buffer |
| `CopyOnWrite.VectorImpl.FinishVector` | utils/VectorImpl.cpp:289-294 | empty and without a buffer, all other vectors unchanged |
| `CopyOnWrite.VectorImpl.Sort` | utils/VectorImpl.cpp:167-221 | the contents become those of the insertion sort; the vector detaches from sharers if and only if there is an inversion; no other vector changes |
| `CopyOnWrite.VectorImpl.ScanSorted` | utils/VectorImpl.cpp:172-184 | the rounds before the first inversion change nothing, and finish exactly when there is none |
| `CopyOnWrite.VectorImpl.SortRounds` | utils/VectorImpl.cpp:177-213 | the remaining rounds complete the insertion sort in the vector's own buffer |
| `StableSort.InsertionSortIsStableSort` | utils/VectorImpl.cpp:167-221 | for any total preorder the result is sorted, a permutation, and keeps the order of equivalent items |
| `StableSort.NoInversionIsSorted` | utils/VectorImpl.cpp:177-184 | comparing neighbours finds an inversion if and only if the contents are not sorted |
| `StableSort.NoInversionIsFixed` | utils/VectorImpl.cpp:177-184 | without an inversion sorting changes nothing |
| `StableSort.SortRoundStep` | utils/VectorImpl.cpp:177-213 | each round extends the sorted part by one, and finds something to move exactly at the first inversion or after it |
| `SortedSeq.SplitIsUnique` | utils/VectorImpl.cpp:587-615 | the insertion point of an absent item is unique |
| `SortedSeq.PutInserts` | utils/VectorImpl.cpp:617-627 | adding an absent item is inserting it at its insertion point |
| `SortedSeq.PutReplaces` | utils/VectorImpl.cpp:617-627 | adding an item with an equivalent one is replacing that one |
| `SortedSeq.PutKeepsStrict` | utils/VectorImpl.cpp:617-627 | adding keeps the strict order |
| `SortedSeq.PutAllKeepsStrict` | utils/VectorImpl.cpp:629-644 | adding all items of any vector keeps the strict order |
| `SortedSeq.FastMergeIsExact` | utils/VectorImpl.cpp:646-662 | the fast paths of merge equal adding one by one, and keep the strict order, if and only if no compared boundary items are equivalent; the order stays non-strict in any case |
| `SortedVectors.SortedVectorImpl.IndexOrderOf` | utils/VectorImpl.cpp:587-615 | binary search finds an equivalent item, or that there is none and where it belongs |
| `SortedVectors.SortedVectorImpl.Add` | utils/VectorImpl.cpp:617-627 | the item is added in order or replaces its equivalent, and stands at the returned index; sharers are unchanged |
| `SortedVectors.SortedVectorImpl.Remove` | utils/VectorImpl.cpp:664-671 | the equivalent item is removed, or nothing when there is none; sharers are unchanged |
| `SortedVectors.SortedVectorImpl.MergeAll` | utils/VectorImpl.cpp:629-644 | the contents become the old ones with each item of the other vector added; no other vector changes, and the vector's first buffer is not lost |
| `SortedVectors.SortedVectorImpl.Merge` | utils/VectorImpl.cpp:646-662 | which of the three paths is taken, and its contents; no other vector changes, and the vector's first buffer is not lost |
| `KeyedVectors.PairOrderIsTotal` | utils/TypeHelpers.h:112-120 | comparing keys by a strict total order in both directions gives a total preorder of pairs that equates exactly the equal keys |
| `KeyedVectors.PutInMap` | utils/KeyedVector.h:166-168 | adding a pair is updating the map |
| `KeyedVectors.RemovedFromMap` | utils/KeyedVector.h:187-189 | removing a key is removing it from the map |
| `KeyedVectors.LookupInMap` | utils/KeyedVector.h:127-129 | a search succeeds if and only if the key is in the map, and ends at its pair |
| `KeyedVectors.KeyedVector.IndexOfKey` | utils/KeyedVector.h:127-129 | non-negative if and only if the map has the key, and then the index of its pair |
| `KeyedVectors.KeyedVector.ValueFor` | utils/KeyedVector.h:132-136 | the map's value; None where the source aborts |
| `KeyedVectors.KeyedVector.Add` | utils/KeyedVector.h:166-168 | the map is updated at the key, and the pair stands at the returned index; vectors sharing storage are unchanged |
| `KeyedVectors.KeyedVector.ReplaceValueFor` | utils/KeyedVector.h:171-175 | removing and adding again is an update of the map at the key, with the pair at the returned index; the first buffer is not lost |
| `KeyedVectors.KeyedVector.RemoveItem` | utils/KeyedVector.h:187-189 | the key is removed from the map, and the result tells whether it was there |
| `ConcurrentRelease.FreedOnceByTheLast` | utils/SharedBuffer.cpp:50-132 | in every interleaving the count is the number of holders, the block is freed at most once, never while someone holds it, exactly once when all are done, and whoever writes in place is the only holder |
| `ConcurrentRelease.InvGiveUp` | utils/SharedBuffer.cpp:110-132 | the store of zero, the decrement and the free keep the invariant of the count, and it is the last holder, and nobody else, that has the block to free |
| `ConcurrentRelease.InvLook` | utils/SharedBuffer.cpp:50-94 | reading the count for edit or release keeps it: edit is in place, and release without a decrement, if and only if this is the only holder |
| `ConcurrentRelease.InvAcquire` | utils/SharedBuffer.cpp:106-108 | an acquire by an idle holder keeps the invariant of the count |
| `Lists.InsertLinks` | utils/List.h:213-217 | the four pointer writes of insert make a ring again |
| `Lists.EraseLinks` | utils/List.h:229-232 | the two pointer writes of erase make a ring again |
| `Lists.SplicedIs` | utils/List.h:222-226 | inserting a range one by one inserts that slice |
| `Lists.CutIs` | utils/List.h:238-242 | erasing a range one by one removes that slice |
| `Lists.CopiedCut` | utils/List.h:312-328 | overwriting and then erasing the surplus leaves the other list's elements |
| `Lists.CopiedSpliced` | utils/List.h:312-328 | overwriting and then inserting the rest leaves the other list's elements |
| `Lists.List.constructor` | utils/List.h:163-165 | an empty list: a sentinel linked to itself |
| `Lists.List.Copy` | utils/List.h:166-169 | a new list with the same elements in fresh nodes |
| `Lists.List.Insert` | utils/List.h:211-219 | the element is put before the position; next and prev stay inverse on one cycle, and all other iterators stay where they were |
| `Lists.List.InsertRange` | utils/List.h:222-226 | the range of another list is put before the position, the other list is unchanged |
| `Lists.List.Erase` | utils/List.h:228-235 | exactly that element is removed, its node is deleted, the result points behind it |
| `Lists.List.EraseRange` | utils/List.h:238-242 | exactly the range is removed, the iterator being advanced before its node is deleted |
| `Lists.List.Clear` | utils/List.h:245-256 | every node but the sentinel is deleted, the list is empty |
| `Lists.List.Distance` | utils/List.h:268-282 | terminates, with the number of steps around the ring |
| `Lists.List.Size` | utils/List.h:184-186 | terminates, with the number of elements |
| `Lists.List.Empty` | utils/List.h:181-181 | true if and only if there are no elements |
| `Lists.List.Assign` | utils/List.h:312-328 | the list has the other's elements, in the nodes it had as far as they go |
| `EventList.FirstLater` | utils/TSPLooper.cpp:170-173 | the walk ends behind all events due no later |
| `EventList.Post` | utils/TSPLooper.cpp:170-183 | the event is inserted by due time behind equal ones, and whether it goes first is told |
| `EventList.Take` | utils/TSPLooper.cpp:194-210 | the head is taken if and only if it is due, and nothing else changes |
| `TimedQueue.InsertOrdered` | utils/TSPLooper.cpp:170-183 | posting keeps the queue sorted by due time with ties in posting order |
| `TimedQueue.PostKeeps` | utils/TSPLooper.cpp:160-184 | posting keeps the account of posted, queued and taken events, at any clock reading |
| `TimedQueue.TakeKeeps` | utils/TSPLooper.cpp:194-210 | so does taking the head once it is due |
| `TimedQueue.TakenInOrder` | utils/TSPLooper.cpp:160-215 | nothing is lost or taken twice, nothing before its time, and an earlier post due no later is taken first |
| `LooperSafety.BaseStep` | utils/TSPLooper.cpp:89-255 | every step keeps who holds the locks, the pending wake-ups and the tokens right, however loopers are started |
| `LooperSafety.InvStep` | utils/TSPLooper.cpp:89-255 | every step, except a start while an old looper may still wait, also keeps what holds of loopers and of those being stopped |
| `LooperSafety.BaseRun` | utils/TSPLooper.cpp:89-255 | the first of these invariants holds in every run |
| `LooperSafety.InvRun` | utils/TSPLooper.cpp:89-255 | both hold in every run without such a start |
| `LooperSafety.TimedRun` | utils/TSPLooper.cpp:160-215 | the account of posted, queued and taken events holds in every run |
| `LooperSafety.StopSpares` | utils/TSPLooper.cpp:124-158 | a step of stop leaves every waiter with a running looper or a pending broadcast |
| `LooperSafety.ReplySpares` | utils/TSPMessage.cpp:35-48 | a step of postReply leaves every blocked waiter with an unanswered token or a pending broadcast |
| `LooperSafety.SignalWakes` | utils/TSPLooper.cpp:147-147 | after a signal no looper is blocked, as there is only one |
| `LooperTheorems.NoLostWakeup` | utils/TSPLooper.cpp:160-215 | without such a start, a blocked looper has an empty queue or a deadline equal to the head's due time, and is the current one or about to be signalled by a stop |
| `LooperTheorems.NoLostReply` | utils/TSPLooper.cpp:223-255 | a blocked waiter has an unanswered token or a broadcast coming from postReply, and a looper or a stop that has not yet broadcast |
| `LooperTheorems.CallAccepts` | utils/TSPMessage.cpp:35-48 | only a postReply that finds the token unanswered accepts a reply, and then exactly its own |
| `LooperTheorems.AcceptedOnce` | utils/TSPMessage.cpp:35-48 | a token's reply never changes once accepted, in any continuation of any run |
| `LooperTheorems.ReceivedIsAccepted` | utils/TSPMessage.h:46-52 | a waiter that returns OK has the very reply its token accepted |
| `LooperTheorems.LockOrder` | utils/TSPLooper.cpp:223-243 | who holds mLock waits for nothing, and who holds mRepliesLock at most for mLock |
| `LooperTheorems.QuiescentIsIdle` | utils/TSPLooper.cpp:89-255 | without such a start there is no deadlock: when nothing can happen, locks are free, every call is back except waiters with unanswered tokens and a running looper, and every looper is gone or is the current one, asleep |
| `LooperOverlap.StartIsSafeIff` | utils/TSPLooper.cpp:89-158 | a start loses nothing, in any continuation without a further overlap, if and only if every old looper has exited or was told to exit and cannot wait any more |
| `LooperOverlap.OverlapLoses` | utils/TSPLooper.cpp:124-183 | from any other start some continuation leaves a looper in an untimed wait with no signal to come, unwanted, or with an event waiting while every other looper has exited or is about to |
| `LooperOverlap.NeverLost` | utils/TSPLooper.cpp:89-255 | without such a start no looper ever is in that place |
| `LooperRestart.RestartCanStrandStop` | utils/TSPLooper.cpp:124-158 | a concrete run in which start overlaps with stop and everything comes to rest with stop waiting for a sleeping looper that no pending signal will wake |
| `LooperCallers.CarefulRun` | utils/TSPLooper.cpp:89-158 | callers that keep starts apart from stops in progress, and run and stop loops from other threads only, never start a looper while an old one has not exited |
| `LooperCallers.CarefulNoLostWakeup` | utils/TSPLooper.cpp:160-215 | for such callers no wake-up of the looper is lost |
| `LooperCallers.CarefulIsIdle` | utils/TSPLooper.cpp:89-255 | for such callers there is no deadlock, and every stop returns |
| `LooperTheorems.DeliveredInOrder` | utils/TSPLooper.cpp:160-215 | over any run and any clock: every message is due the delay asked for after its post read the clock, or at once for a delay that is not positive; posted is queued plus delivered, each at most once, and none before its delay has passed; an earlier post due no later goes first |
| `LooperResults.PostedAsAsked` | utils/TSPLooper.cpp:160-184 | over any run, the due time of every message is the clock reading of its post, plus the delay if that is positive; each post inserts one message |
| `LooperResults.CallRun` | utils/TSPLooper.cpp:89-255 | where each call is agrees with how it was made and what it has done so far, in every run |
| `LooperResults.ReturnsMean` | utils/TSPLooper.cpp:124-255 | when post has returned, its message was inserted; postReply returns OK if and only if its reply is the accepted one; a waiter has taken the reply out of the token or found no looper; stop returns once the looper it cleared has exited, and on that looper itself without waiting |
| `LooperResults.OneReplier` | utils/TSPMessage.cpp:35-48 | of the postReply calls on one token at most one returns OK |
| `LooperResults.RefusedIff` | utils/TSPLooper.cpp:89-255 | exactly when a step returns -ENOENT, -EBUSY or INVALID_OPERATION, that a refused call changes nothing, and what looper a start creates |
| `LooperResults.WaiterSleepsIff` | utils/TSPLooper.cpp:223-243 | a waiter takes the reply if there is one, gives up if there is no looper thread, and else sleeps with all locks released and nothing changed |
| `LooperResults.TakesIffDue` | utils/TSPLooper.cpp:187-215 | the current looper takes the head if and only if it is due, and else waits exactly until it is, or for a change of the queue |
| `PesStream.AssembleBoth` | Filter.cpp:618-684 | reassembly does not depend on how the packets are split over calls |
| `PesStream.RestIsTaken` | Filter.cpp:645-657 | inside a PES packet exactly the missing bytes are taken, and stuffing is not |
| `PesStream.PesIsTaken` | Filter.cpp:618-684 | the packets of one PES packet yield it whole, behind whatever a failed write left over |
| `PesStream.StreamRoundTrip` | Filter.cpp:618-684 | the PES packets of a stream, split into 188-byte packets and mixed with packets that start none, come out whole and in order, and nothing else does |
| `PesStream.OnlyPesComesOut` | Filter.cpp:626-662 | whatever comes in, everything put out starts with the prefix and has the length it announces |
| `PesStream.PidIs` | Demux.cpp:494-494 | the PID is the low 13 bits of the second and third byte |
| `DemuxSpec.HandleAssembles` | Filter.cpp:618-684 | without a failed write the handler writes what reassembly yields |
| `DemuxSpec.FirstFailure` | Filter.cpp:659-663 | at a first failed write a completed PES packet is missing from the output, its bytes stay, and the queue had no room for all completed ones |
| `DemuxSpec.FailedForGood` | Filter.cpp:618-684 | from then on something that is no PES packet was written, or a PES packet is missing and its bytes are still there |
| `DemuxSpec.DeliverAll` | Filter.cpp:659-678 | everything written is in the filter queue or was read from it, and each PES packet has an event with its stream id and its length modulo 65536 |
| `DemuxRuns.RoutedShare` | Demux.cpp:491-508 | routing appends to a filter's input exactly the packets with its PID, if it is the first playback filter with that PID, and nothing otherwise |
| `DemuxRuns.StepKeeps` | Dvr.cpp:248-282 | supplying bytes, reading packets, dispatching and draining keep the account of bytes, and do to each filter what the filter's own step does |
| `DemuxRuns.Run` | Demux.cpp:594-623 | the account of bytes holds after every run of client and threads |
| `DemuxRuns.RunAccounts` | Dvr.cpp:248-282 | over any run every filter was given or still has exactly its share of the packets, has written what reassembly yields as long as no write failed, and else has lost something for good |
| `DemuxRuns.DemuxRoundTrip` | Filter.cpp:618-684 | round trip, for the first playback filter with its PID: however streams are interleaved, cut into chunks and read, once a PES filter was given everything it has put out exactly its own PES packets, in order, if and only if none of its writes failed; before that a prefix; each with its event |
| `DemuxRuns.RoomSuffices` | Filter.cpp:659-663 | no write fails in a queue with room for the PES packets of the whole stream |
| `DemuxRuns.DispatchFinishes` | Demux.cpp:594-623 | after a round of the demultiplexer's thread nothing waits to be handled |
| `DemuxRuns.DeliversAll` | Demux.cpp:594-623 | after any run, once the rest of a stream was supplied and dispatched, the client can read exactly the rest of its PES packets, given room |
| `DemuxRuns.PlainFilterWaits` | Filter.cpp:686-692 | a filter for plain TS is given its share and never puts out anything |
| `DemuxRuns.LostFromStream` | Filter.cpp:659-663 | after a failure the output is not that of the stream, which is more than the queue can hold |
| `DemuxRuns.SecondFilterStarves` | Demux.cpp:491-508 | a filter with an earlier playback filter of the same PID, or that is no playback filter, is given nothing and never puts out anything |
| `DemuxRuns.StaleAfterFailure` | Filter.cpp:659-663 | after a failed write the next PES packet comes out behind the bytes of the lost one |
| `TsDemux.Filter.UpdateFilterOutput` | Filter.cpp:531-538 | the packet is appended to the input, nothing else changes |
| `TsDemux.Filter.HandlePesPacket` | Filter.cpp:626-680 | one round of the loop does to the fields what the specification does, and fails exactly when the write fails |
| `TsDemux.Filter.StartPesFilterHandler` | Filter.cpp:618-684 | the whole loop does what the specification does, ending at the first failed write |
| `TsDemux.Filter.StartFilterHandler` | Filter.cpp:548-597 | the handler runs by filter type and its result is dropped |
| `TsDemux.Demux.FindFilter` | Demux.cpp:495-507 | the first playback filter with the PID: no earlier one has it; none if and only if no playback filter has it |
| `TsDemux.Demux.StartBroadcastTsFilter` | Demux.cpp:491-508 | exactly that filter gets the packet, all others are unchanged |
| `TsDemux.Demux.StartBroadcastFilterDispatcher` | Demux.cpp:527-539 | every playback filter has handled its input once, all others are unchanged |
| `TsDemux.PlaybackDvr.ReadPlaybackFMQ` | Dvr.cpp:248-282 | all whole packets are routed in order, the rest of the bytes stays in the queue |
| `Messages.PutFinds` | utils/TSPMessage.cpp:185-201 | setting an entry changes what is found under its name alone, in its place or at the end, and keeps names unique |
| `Messages.RemoveFinds` | utils/TSPMessage.cpp:713-730 | removing by swapping with the last entry removes that name alone, and all other entries keep their places |
| `Messages.ExtendFinds` | utils/TSPMessage.cpp:745-758 | after extend, the other message's entries win, and the rest is as before |
| `Messages.DifferencesFind` | utils/TSPMessage.cpp:498-596 | what the difference holds under each name |
| `Messages.NoDifferences` | utils/TSPMessage.cpp:498-596 | the difference is empty if and only if no entry has a change |
| `Messages.PatchLaw` | utils/TSPMessage.cpp:498-596 | extending the other message by the difference makes it cover this one, nested messages included, if and only if no entry is omitted |
| `Messages.EmptyDifference` | utils/TSPMessage.cpp:498-596 | with an empty difference the other message covers this one under the same condition |
| `Messages.NoneEmptyIsMatched` | utils/TSPMessage.cpp:576-580 | the condition holds for every message without empty nested messages |
| `Messages.NoSelfDifference` | utils/TSPMessage.cpp:498-596 | the difference of a message from itself is empty, deep or not |
| `Messages.DeepPatchLaw` | utils/TSPMessage.cpp:498-596 | extending the other message by the deep difference makes it cover this one if and only if every nested message differs in all its entries or in none, and none is omitted |
| `Messages.HeadPatchLaw` | utils/TSPMessage.cpp:503-509 | a patch brings what and handler to those of the message if and only if they are equal or not to become 0; the difference has none if and only if they are equal or 0; extending leaves them alone |
| `Messages.DeepCovers` | utils/TSPMessage.cpp:576-580 | a deep difference has all entries of the message if and only if all of them differ, nested ones all the way down |
| `Messages.EmptyEitherWay` | utils/TSPMessage.cpp:576-580 | whether the difference is empty does not depend on deep |
| `Messages.DeepDifferenceLoses` | utils/TSPMessage.cpp:576-580 | a nested message with one entry that differs and one that does not makes the deep difference fail as a patch |
| `TSPMessages.TSPMessage.constructor` | utils/TSPMessage.cpp:49-53 | an empty message |
| `TSPMessages.TSPMessage.FindItemIndex` | utils/TSPMessage.cpp:149-176 | the first index with the name, or the number of items |
| `TSPMessages.TSPMessage.AllocateItem` | utils/TSPMessage.cpp:185-201 | the item of that name, existing or new at the end, and no other one changed |
| `TSPMessages.TSPMessage.SetItem` | utils/TSPMessage.cpp:264-330 | the array becomes the dictionary with that entry set |
| `TSPMessages.TSPMessage.FindItem` | utils/TSPMessage.cpp:741-743 | the value under the name, if any |
| `TSPMessages.TSPMessage.SetEntryAt` | utils/TSPMessage.cpp:663-711 | the value at the index is replaced, or the error and no change |
| `TSPMessages.TSPMessage.GetEntryAt` | utils/TSPMessage.cpp:614-641 | the value at the index, if any |
| `TSPMessages.TSPMessage.SetEntryNameAt` | utils/TSPMessage.cpp:643-661 | the entry is renamed, or the error that applies and no change; names stay unique |
| `TSPMessages.TSPMessage.RemoveEntryAt` | utils/TSPMessage.cpp:713-730 | the entry is removed with the last one in its place, or BAD_INDEX and no change |
| `TSPMessages.TSPMessage.Extend` | utils/TSPMessage.cpp:745-758 | the array becomes the dictionary extension; the other message is unchanged |
| `TSPMessages.TSPMessage.ChangesFrom` | utils/TSPMessage.cpp:498-596 | the loop builds exactly the difference in a new message, or returns this message when there is no other |
| `TSPMessages.TSPMessage.SenderAwaitsResponse` | utils/TSPMessage.cpp:426-439 | true with the token exactly once; the token is gone afterwards and all other entries are as before |
| `Unicode.CodepointLenIs` | utils/Unicode.cpp:497-500 | the shifted constant gives the length that the leading bits mean |
| `Unicode.CodepointOfUtf8` | utils/Unicode.cpp:550-577 | decoding the encoding of any scalar value (section 3 of RFC 3629) gives it back |
| `Unicode.UnitsOfScalar` | utils/Unicode.cpp:651-666 | the units written for a scalar value are those of section 2.1 of RFC 2781 |
| `Unicode.EncodingsAgree` | utils/Unicode.cpp:550-670 | the UTF-8 form of any sequence of scalar values becomes its UTF-16 form |
| `Unicode.FitFits` | utils/Unicode.cpp:644-669 | the code points that fit are the longest prefix that does |
| `Unicode.Utf8ToUtf16Length` | utils/Unicode.cpp:580-622 | -1 if and only if the last code point is cut off, else the exact number of units |
| `Unicode.WriteUnits` | utils/Unicode.cpp:651-666 | one or two units are written, or half a pair that the caller does not count |
| `Unicode.Utf8ToUtf16NoNull` | utils/Unicode.cpp:634-670 | the longest prefix of whole code points that fits is written, and nothing behind the room given |
| `Unicode.Utf8ToUtf16` | utils/Unicode.cpp:624-632 | the same in one unit less, and a terminator behind it |
| `Unicode.MeasureAndConvert` | utils/Unicode.cpp:580-670 | measuring and converting into that many units and one more consumes all input and writes all units and the terminator |
| `Strings.OccursIs` | utils/String8.cpp:413-413 | an occurrence is an equal slice |
| `Strings.FindFrom` | utils/String8.cpp:406-415 | the first occurrence at or after start, or -1 when there is none or start is at the end |
| `Strings.FoundIff` | utils/String8.cpp:418-419 | the search from the start succeeds if and only if the text contains the pattern |
| `Strings.RemovedIff` | utils/String8.cpp:417-439 | the result of removal is exactly what is between the occurrences found from left to right, each search behind the one before |
| `Strings.RemovingStep` | utils/String8.cpp:428-436 | one round over the buffer being rewritten keeps: done part and untouched rest make up the result |
| `Strings.SearchedPart` | utils/String8.cpp:429-429 | the search in the half-rewritten buffer only sees text that is still in place |
| `Strings.RoundAdvances` | utils/String8.cpp:428-436 | a round goes on behind the occurrence it removes if and only if the pattern is not empty, and with an empty pattern there is a first round if and only if the text is not empty |
| `Strings.String8.EditResize` | utils/String8.cpp:372-382 | the buffer has room for the size, keeps its characters, and is a copy if it was shared |
| `Strings.String8.RemoveNext` | utils/String8.cpp:428-436 | one round: the next occurrence is found and what lies between is moved down |
| `Strings.String8.RemoveLoop` | utils/String8.cpp:428-436 | the loop terminates with the whole text processed |
| `Strings.String8.UnlockBuffer` | utils/String8.cpp:389-404 | the text ends at the given size |
| `Strings.String8.RemoveAll` | utils/String8.cpp:417-439 | the text becomes the one with occurrences removed greedily from the left; true if and only if there was one; an empty text stays; a shared buffer is unchanged |
| `SafeIop.Uadd` | utils/safe_iop.h:356-361 | stores the exact sum if and only if it fits, at any width |
| `SafeIop.Sadd` | utils/safe_iop.h:363-371 | the same for signed sums; no part of the check overflows |
| `SafeIop.Usub` | utils/safe_iop.h:373-379 | the same for unsigned differences |
| `SafeIop.Ssub` | utils/safe_iop.h:381-388 | the same for signed differences |
| `SafeIop.Umul` | utils/safe_iop.h:390-396 | the same for unsigned products |
| `SafeIop.SmulExact` | utils/safe_iop.h:398-425 | the comparisons with truncated quotients fail if and only if the product does not fit, in all four sign cases |
| `SafeIop.Smul` | utils/safe_iop.h:398-425 | stores the exact product if and only if it fits |
| `SafeIop.ChainIsExact` | utils/safe_iop.h:125-254 | a chain of any length succeeds if and only if every partial result fits, with the exact result |
| `SafeIop.AllFitIs` | utils/safe_iop.h:125-254 | every partial result fits if and only if every prefix of the operands has a total that does |
| `SafeIop.UnsignedChainIff` | utils/safe_iop.h:125-193 | unsigned sums and differences succeed if and only if the total fits |
| `SafeIop.TotalDoesNotDecide` | utils/safe_iop.h:125-254 | signed sums and unsigned products whose total fits although the chain fails |
| `FlaggedLayers.ShiftIsLeast` | utils/Flagged.h:203-223 | the search finds the least shift that loses no bit of the mask and misses the bits in use, or -1 if and only if there is none |
| `FlaggedLayers.CombinesWhereFree` | utils/Flagged.h:166-185 | canCombine holds if and only if the place is free and the base mask is part of the bits in use |
| `FlaggedLayers.SetThenGet` | utils/Flagged.h:378-393 | flags read back masked |
| `FlaggedLayers.SetSpares` | utils/Flagged.h:378-393 | setting flags changes none whose place is disjoint |
| `FlaggedLayers.WrapKeeps` | utils/Flagged.h:446-476 | one more wrapper keeps all places in a word disjoint, and the bits in use exactly those of the layers in the last word |
| `FlaggedLayers.WrapCombinesIff` | utils/Flagged.h:286-311 | a wrapper shares the word of the ones inside it if and only if at some shift its mask loses no bit and misses the places of all layers in that word, and then takes the least such shift; else it begins the next word at shift 0 |
| `FlaggedLayers.NestIsOk` | utils/Flagged.h:446-476 | at any depth of nesting the places are disjoint and have the masks asked for, the innermost at shift 0 |
| `FlaggedLayers.FlaggedValue.constructor` | utils/Flagged.h:489-495 | every wrapper reads back the flags it was constructed with, masked |
| `FlaggedLayers.FlaggedValue.SetFlagsAt` | utils/Flagged.h:503-505 | a layer reads back what was set, masked, and no other layer changes |
| `TunerSpec.StepKeeps` | frontenddevices/HwFeState.cpp:46-79 | every call keeps: open exactly with an owner, the owner alone holds the descriptor, opens minus closes is the open state |
| `TunerSpec.ExclusiveOwnership` | frontenddevices/HwFeState.cpp:46-79 | these hold after any sequence of opens, steals, stops and failed opens |
| `TunerSpec.OpenMakesOwner` | frontenddevices/FrontendDevice.cpp:136-154 | checkOpen succeeds if and only if the device is then the owner, and with autoOpen fails only when open fails; a closed tuner is opened once, one that is open is not opened again |
| `TunerSpec.StopReturns` | frontenddevices/FrontendDevice.cpp:82-108 | the tuner is closed, once, if and only if the stopped device holds it; the device is in STOP with no frequency, or in FINISH; no other device is affected |
| `TunerSpec.NoticeIffStolen` | frontenddevices/FrontendDevice.cpp:110-134 | a device is notified, once, exactly when it loses the tuner to another one while active, and is then stopped: NO_SIGNAL from TUNE_START, the end of the scan at its frequency from SCAN_START, LOST_LOCK from TUNE_IDLE |
| `TunerOwnership.FrontendDevice.StopByHw` | frontenddevices/FrontendDevice.cpp:110-134 | the right callback by state, STOP, and no descriptor |
| `TunerOwnership.FrontendDevice.CheckOpen` | frontenddevices/FrontendDevice.cpp:136-154 | does to the tuner and all its devices what the specification does; an unsupported device changes nothing, and one without hardware succeeds and changes nothing |
| `TunerOwnership.FrontendDevice.Stop` | frontenddevices/FrontendDevice.cpp:82-108 | stop and release give back the tuner only if this device holds it, and without hardware only change the thread state |
| `TunerOwnership.HwFeState.Acquire` | frontenddevices/HwFeState.cpp:46-67 | returns the descriptor; the previous owner is stopped, a closed tuner is opened once |
| `TunerOwnership.HwFeState.Release` | frontenddevices/HwFeState.cpp:69-79 | closes only for the owner with the current descriptor |
| `RecordSpec.StepKeeps` | Filter.cpp:840-871 | input, handling, flush, attaching and reading keep the account of bytes |
| `RecordSpec.RecordingConserves` | Dvr.cpp:324-342 | over any run the input is, in order, the blocks written or dropped and what is pending; the written ones are what was read and what is queued; each has an event with its size |
| `RecordSpec.OverflowStays` | Dvr.cpp:324-331 | nothing but flush and start ends the overflow state; during it nothing is written and no callback sent |
| `RecordSpec.FlushResumes` | Dvr.cpp:144-150 | after flush or start the status is DATA_READY and all else as before; whatever the status was, a block that fits is then written and nothing is left pending |
| `RecordSpec.NothingWithoutDvr` | Filter.cpp:840-853 | with nothing pending, or without a DVR, the handler changes nothing, and the latter is an error |
| `RecordSpec.InputReachesClient` | Filter.cpp:840-871 | unless in overflow, input that fits reaches the client, behind everything before it |
| `RecordSpec.DroppedIffOverflow` | Filter.cpp:840-871 | a block is dropped if and only if the state is overflow, and a failed write loses nothing |
| `RecordSpec.CallbackIffChange` | Dvr.cpp:344-368 | in the write path a callback is sent exactly when the status changes, with the new status; overflow if and only if the queue is full, high or low water beyond the thresholds, no change between them |
| `RecordPath.RecordDvr.MaySendRecordStatusCallback` | Dvr.cpp:344-356 | the fields follow the specification, the queue is untouched |
| `RecordPath.RecordDvr.WriteRecordFMQ` | Dvr.cpp:324-342 | does to queue, status and callbacks what the specification does, with its result |
| `RecordPath.RecordDvr.Flush` | Dvr.cpp:144-150 | the status is DATA_READY again, nothing else changes |
| `RecordPath.RecordDvr.Start` | Dvr.cpp:107-129 | the same for starting to record, with the error when there is no callback or configuration and no change then |
| `RecordPath.RecordFilter.UpdateRecordOutput` | Filter.cpp:540-546 | the bytes are appended to what is pending |
| `RecordPath.RecordFilter.StartRecordFilterHandler` | Filter.cpp:840-871 | a step of the specification, for any history, with its result |
| `RecordPath.RecordFilter.AttachFilterToRecord` | Filter.cpp:919-922 | the filter writes to the DVR from now on |
| `RecordPath.RecordFilter.DetachFilterFromRecord` | Filter.cpp:924-927 | the filter has no DVR to write to |
| `RecordPath.RecordDemux.SendFrontendInputToRecord` | Demux.cpp:510-525 | only the first record filter gets the input, all others are unchanged |
| `RecordPath.RecordDemux.StartRecordFilterDispatcher` | Demux.cpp:541-560 | only the first record filter is handled; true if and only if there is one and its handler succeeded |

## Left out

- Allocation failure: every allocation succeeds, so the NO_MEMORY results of the vectors, messages and strings that come from it do not occur.
- Overflow of `size_t` in the vectors, as in `index + count`: sizes and capacities are unbounded.
- Memory ordering: each atomic access is one step seen by all threads.
- `SharedBuffer::edit` and `reset` as methods: `edit` is a step of the concurrent model only.
- `VectorImpl` item pointers into the vector's own storage as arguments: the source array must not lie in it. Buffers hold their slots as a sequence, so no pointer into a buffer can outlive a resize.
- CopyOnWrite.VectorImpl.InsertAt: does not allow inserting zero items in the middle when elements are moved one by one, because the source then constructs objects from themselves.
- CopyOnWrite.VectorImpl.InsertVectorAt: does not allow it either, nor inserting a vector into itself, whose items lie in the storage that is being changed.
- CopyOnWrite.VectorImpl.RemoveItemsAt: does not allow removing zero items in the middle in the same case.
- CopyOnWrite.VectorImpl.Grow: does not allow an amount of zero there either.
- CopyOnWrite.VectorImpl.GrowInPlace: does not allow an amount of zero there either.
- CopyOnWrite.VectorImpl.Shrink: does not allow an amount of zero there either.
- CopyOnWrite.VectorImpl.CloseGap: does not allow an amount of zero there either.
- CopyOnWrite.SharedBuffer.MoveForwardType: does not allow a move by zero positions of elements that are moved one by one, unless there are none.
- CopyOnWrite.SharedBuffer.MoveBackwardType: does not allow it either.
- CopyOnWrite.SharedBuffer.SiftDown: holds the temporary item of `sort` as a value.
- SortedVectors.SortedVectorImpl.Merge: does not model an empty receiver with something to merge, where the source reads an item that is not there, nor merging a vector into itself.
- SortedVectors.SortedVectorImpl.MergeAll: does not model merging a vector into itself.
- KeyedVectors.KeyedVector.ValueFor: gives None where the source aborts on a missing key.
- CopyOnWrite.VectorImpl.Sort: holds the temporary item of the source as a value, so that its construction and destruction are not tracked.
- Lists.List.InsertRange: does not allow a range of the same list.
- LooperTheorems.NoLostWakeup: is proved for runs without a start while an old looper may still wait; `StartIsSafeIff` shows that every other start can lose a looper or an event.
- LooperTheorems.QuiescentIsIdle: is proved for the same runs.
- LooperSafety.InvStep: excludes the same starts.
- LooperSafety.InvRun: excludes the same starts.
- LooperTheorems.DeliveredInOrder: orders the taking out of events; what the handlers do, and that two overlapping loopers may run handlers at the same time, is not modelled.
- The failure of `Thread::run` in `start`, tokens without a looper, and handlers that are gone.
- Filters of other types: sections, audio and video, PCR and TEMI, and the playback branch with local filters (`startTpidFilter`); the status callbacks of filters and playback.
- Two threads that read the playback queue at the same time, packet sizes other than 188, and the debug accounting of bytes.
- PES packets of unspecified length: a length of zero is taken as six bytes, as the source does, so such packets are outside the round trip.
- TsDemux.Filter.StartFilterHandler: has the PES and TS filters only.
- TsDemux.Demux.StartBroadcastTsFilter: leaves out the branch for a local player.
- TsDemux.PlaybackDvr.ReadPlaybackFMQ: has the virtual-frontend playback branch with packets of 188 bytes only.
- Messages.PatchLaw: covers entries of the types Int32, Int64, Size, Pointer, Rect, Object and Message; what the difference stores for a Float or Double entry (lines 535 and 541, another member of the union) and for a String entry (line 547, without a length) is not modelled.
- Messages.DifferencesFind: leaves out the same types.
- TSPMessages.TSPMessage.SetItem: leaves out the same types.
- TSPMessages.TSPMessage.SetEntryAt: leaves out the same types, and the error for unsupported ones.
- TSPMessages.TSPMessage.GetEntryAt: leaves out the same types.
- TSPMessages.TSPMessage.ChangesFrom: holds nested messages as values, so that sharing between messages and cycles are not modelled.
- TSPMessages.TSPMessage.AllocateItem: requires that the 64 items suffice; the source does not check.
- TSPMessages.TSPMessage.Extend: does not allow extending a message by itself, where each entry is freed before it is read.
- `TSPMessage::dup`, reference counting of held objects, and lookups by type other than through the value found.
- Unicode.Utf8ToUtf16: requires the same as the next one.
- Unicode.Utf8ToUtf16NoNull: requires a string whose length could be measured; otherwise the source reads past its end.
- Unicode.Utf8ToUtf16Length: does not model the abort that `overreadIsFatal` asks for.
- The UTF-8 encoder `utf32_codepoint_to_utf8`, whose missing fall-through contradicts its comment, and the other conversions and comparisons of utils/Unicode.cpp.
- Strings.String8.EditResize: takes as a parameter whether the buffer is shared.
- Strings.String8.RemoveAll: does not allow an empty pattern on a non-empty text, where the source does not terminate; text has no NUL; `strstr` and `memmove` are taken to do what the C standard says.
- SafeIop.ChainIsExact: takes the signedness as a parameter, and does not model operands of different types, division, remainder, shifts, or the format-driven interface of safe_iop.
- FlaggedLayers.CombinesWhereFree: does not model shared masks.
- FlaggedLayers.ShiftIsLeast: does not model shared masks, signed flags or `minMask`; a mask is the set of its bits.
- RecordPath.RecordDvr.Start: is about record DVRs, and leaves out the recording flag it sets on the demux.
- Messages.DeepPatchLaw: leaves out the same types as the patch law.
- TunerSpec.OpenMakesOwner: is about devices with hardware; `TunerOwnership.FrontendDevice.CheckOpen` says what others do.
- TunerSpec.ExclusiveOwnership: takes each call as atomic; the device threads change the thread state in any way in between, and the semaphores, the busy wait for the thread and the ioctls are not modelled.
- RecordSpec.RecordingConserves: models one record filter, the first, as the source writes only for that one; the HIDL callbacks and event flags are histories here.
- `AM_DMX_Device`, the tuner maps, `Demux::postData`, setting-translation tables, secure buffers, media sync, utils/Looper.cpp and configuration: their invariants are short or depend on the kernel.
