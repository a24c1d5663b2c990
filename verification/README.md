# io-uring: rings, submit decision and echo server

This project models the parts of the io-uring crate that are hard to get right and proves
what they promise, over every run of the program and of the kernel beside it.

**The rings.** A submission queue and a completion queue are shared with the kernel: two
32-bit counters that wrap, a power-of-two number of slots selected with a mask, and a handle
in the program that keeps private copies of both counters. `SubmissionRing` and
`CompletionRing` are state machines whose steps are the single actions of either side: opening
a handle, pushing or taking, storing the own counter, loading the other one, dropping the
handle, a kernel read, a completion, a flush of the overflow list. Any ring size the kernel
hands out is covered, and counters may pass 2^32 any number of times. A state also records
what was accepted, read, completed and taken so far; nothing is decided from these records.
`SubmissionSafety` and `CompletionSafety` hold the results. `SubmissionStores` is the submission
ring again with stores that wait in buffers, flushed at any moment, and refines the first; it
also shows that the order of the program's stores is needed. `Squeue` and `Cqueue` are the
objects with their fields and arrays, each method proved against the machine's transitions;
kernel activity between two shared accesses of one method is an argument of the method.

**Submitting.** `Submit` is the submitter object: length, flags, the decision to enter the
kernel or not, and the descriptor a call goes through. The queue objects also record in which
order shared words are accessed and fences executed. `Sqpoll` is the handshake between a
submit, deciding as the submitter does, and the kernel's poller about to sleep, with
first-in-first-out store buffers on both sides and each fence removable. `OverflowDelivery`
joins the completion ring with the decision: buffered completions reach the program.
`RingDescriptors` follows registered ring descriptors of many submitters that share one table.

**The echo server.** `EchoServer` is the event loop of `examples/tcp_echo.rs` with the kernel
it talks to; `TcpEcho` is the program itself, as an object updated in place, every method
proved to be a step or a run of that machine, whatever finishes between any two of its steps.
`EchoOwnership`, `EchoOutstanding`, `EchoStreams` and `EchoSafety` prove its invariants;
`EchoConservation` balances the operations on their way, step by step, `EchoDescriptors` says
which follows which and on which descriptor, `EchoBuffers` how many buffers there are;
`EchoTurns` says what the program owes next and what one turn of its loop achieves;
`EchoLosses` builds runs in which the server falls short. `QueueRefinement` shows that the queue the loop is
modelled with is what the submission ring protocol shows to a program.

**Around them.** `RecvMsg` is the parser of a multishot receive with an encoder for the round
trip; `Mapping` the mapped lengths.

Two things one would expect of the echo server do not hold, and the code was kept as it is:

- *No operation is ever lost.* The result of the push in the backlog loop is discarded
  (`examples/tcp_echo.rs:92-97`), and a full queue whose entries have not been published stays
  full over the `submit` before it. Of all operations in the queues, the kernel and the
  backlog, a step makes one vanish that it has not just handled if and only if the loop takes
  it from the backlog while the queue is full and the kernel has taken nothing from it since
  the last `sync` (`OperationLostIffQueueStaysFull`). That never happens while connections and
  accepts together are at most as many as the queue has entries (`FewConnectionsLoseNothing`).
  A connection has exactly one operation on
  its way unless its last one was lost like this or failed (`ExactlyOneOperation`). For every
  ring size above three there is a run that loses one (`OperationCanBeLost`).
- *Every received byte is echoed.* After a short send the offset is absolute while the length
  is what remains (`examples/tcp_echo.rs:207-208`), and the next comparison adds one to the
  other. A connection sends back what it received if and only if every send that starts behind
  the first byte of its message takes all that was asked (`EchoIsFaithfulIffSendsComplete`).
  A message with at most one short send is sent back whole; when every send takes at least a
  byte, only such a message is (`BytesLostMeansTwoShortSends`). Of ten bytes, sends of six and
  then three lose the last (`BytesCanBeLost`).

Where comments and code differ, the code is modelled: `src/squeue.rs:246-260` speaks of the
head the user writes, the word published is the submission tail (`src/squeue.rs:233`).
`want` is cut to 32 bits on its way to the system call, so a `want` of 2^32 waits for nothing
(`src/submit.rs:216`, `WaitIsCutTo32Bits`).

What the kernel does is assumed as follows: ring sizes are powers of two of at most 2^31 and
masks one less; an entry is read once, in ring order; each operation completes once, with a
result of at most the length asked for; overflowing completions stay in order and, on entering
with GETEVENTS, move to the ring while it has room; a failed registration call changes nothing
and a successful one uses a free slot, and a kernel without REG_REG_RING refuses a table index
in any other call than enter; entering with SQ_WAKEUP wakes the poller, and a wake-up
that comes while the poller is on its way to sleep is not lost.

## Model

| member | source | states |
|---|---|---|
| `SubmissionSafety.KernelReadsPushedEntries` | src/squeue.rs:231-236 | in every run of opens, pushes, batches, syncs, drops and kernel reads, the kernel has read a prefix of the accepted entries, each once and unaltered, and the ring holds all the others in their slots |
| `SubmissionSafety.PublishedEntriesAreDelivered` | src/squeue.rs:374-379 | from any reachable state, publishing and enough kernel reads deliver every accepted entry |
| `SubmissionSafety.ReadsDeliver` | src/squeue.rs:231-236 | enough kernel reads deliver exactly what was published |
| `SubmissionSafety.ReadsTakeEntries` | src/squeue.rs:231-236 | what the kernel does to the queue object between two accesses is the protocol's kernel reads |
| `SubmissionSafety.PushTakenIffRoom` | src/squeue.rs:322-341 | the equality test for a full queue is exact in reachable states; a refused push changes nothing |
| `SubmissionSafety.SyncedPushTakenIffSpace` | src/squeue.rs:231-236 | after `sync` a push is refused exactly when a full ring is unread |
| `SubmissionSafety.BatchIsAllOrNothing` | src/squeue.rs:352-362 | `push_multiple` changes nothing or equals that many pushes; `capacity() - len()` never underflows |
| `SubmissionRing.BatchIsPushes` | src/squeue.rs:352-362 | a fitting batch is a run of single pushes and keeps the invariant |
| `SubmissionSafety.ReadCommutesWithPush` | src/squeue.rs:365-371 | a kernel read and a push can be exchanged |
| `SubmissionSafety.ReadInsideBatch` | src/squeue.rs:352-371 | a kernel read between two writes of a batch has the effect of one after the whole batch |
| `SubmissionSafety.PublishedIsAnEarlierTail` | src/squeue.rs:231-236 | the published tail always ends where the accepted entries ended at some earlier moment, so never inside a batch |
| `SubmissionSafety.HandleLifetimesDoNotMatter` | src/lib.rs:262-301 | short-lived handles, and one lasting handle that calls `sync` wherever they are dropped or reopened, have the same effect on words, slots, accepted and read entries |
| `SubmissionSafety.ShortHandlesActLikeOne` | src/squeue.rs:210-216 | the same from any two states that agree, step lists of any length |
| `SubmissionSafety.ArrayIsTransparent` | src/squeue.rs:189-196 | reading through the filled SQ array and reading by ring index give the kernel the same entries in every run |
| `SubmissionSafety.WalkShowsPending` | src/squeue.rs:559-569 | the walk from cached head to tail lists the handle's pending entries, in push order |
| `SubmissionSafety.SqLenNeverUnderflows` | src/submit.rs:82-89 | loading head before tail the difference is never negative; with no publish in between it is the number of published unread entries at the first load, at most the capacity |
| `SubmissionSafety.ReversedLoadsUnderflow` | src/submit.rs:82-89 | in the opposite order of loads the difference can be 2^32 - 1 |
| `SubmissionRing.HandleMeaning` | src/squeue.rs:303-324 | in every state the invariant allows, the wrapped length is the true one and at most the capacity |
| `SubmissionRing.ConsumeKeepsInv` | src/squeue.rs:189-196 | a kernel read yields the oldest unread accepted entry and keeps the invariant |
| `SubmissionRing.RunKeepsInv` | src/squeue.rs:210-379 | the ring invariant holds after every run |
| `SubmissionStores.KernelReadsPushedEntries` | src/squeue.rs:231-236 | with slot writes and tail stores in one first-in-first-out buffer, heads in another, and flushes at any moment, the kernel still reads accepted entries only, in order, each once and unaltered, and none before its tail was published |
| `SubmissionStores.DelayedStoresRefineRing` | src/squeue.rs:210-379 | every such run is, as the program sees it, a run of the ring protocol whose stores take effect at once |
| `SubmissionStores.StepRefines` | src/squeue.rs:210-379 | each step, flushes included, keeps the invariant and amounts to no or one step of the ring protocol |
| `SubmissionStores.DelayedEntriesArrive` | src/squeue.rs:374-379 | from any reachable state, flushing the buffer and enough kernel reads deliver everything published |
| `SubmissionStores.MisreadIffUnordered` | src/squeue.rs:231-236 | the kernel can read what was not pushed if and only if the program's stores may reach memory out of order |
| `SubmissionStores.OvertakingTailMisreads` | src/squeue.rs:365-371 | a run in which the tail overtakes a slot and the kernel reads the slot's old entry |
| `Squeue.Inner.constructor` | src/squeue.rs:176-207 | after the loop the SQ array is the identity; without an array nothing is written |
| `Squeue.SubmissionQueue.BorrowShared` | src/squeue.rs:210-216 | the handle starts with both shared words |
| `Squeue.SubmissionQueue.LenIsUnread` | src/squeue.rs:303-324 | in every state of the protocol, length, empty and full mean the accepted entries the handle does not know to be read |
| `Squeue.SubmissionQueue.Sync` | src/squeue.rs:231-236 | stores the tail, then loads the head the kernel has left by then, in this order |
| `Squeue.SubmissionQueue.Drop` | src/squeue.rs:374-379 | stores the tail |
| `Squeue.SubmissionQueue.NeedWakeup` | src/squeue.rs:245-265 | fence first, then the load; true exactly when NEED_WAKEUP is set |
| `Squeue.SubmissionQueue.NeedWakeupAfterIntermittentSeqcst` | src/squeue.rs:276-281 | the load without the fence |
| `Squeue.SubmissionQueue.PushUnchecked` | src/squeue.rs:365-371 | writes the slot of the tail, no other, and advances the tail with wrap-around |
| `Squeue.SubmissionQueue.Push` | src/squeue.rs:334-341 | refused exactly when full and then without effect, else the unchecked push |
| `Squeue.SubmissionQueue.PushMultiple` | src/squeue.rs:352-362 | refused exactly when the slice does not fit and then without effect, else all of it is written in order |
| `Squeue.SubmissionQueue.DebugList` | src/squeue.rs:559-569 | the loop ends, after as many entries as the length says, with those between head and tail |
| `CompletionSafety.ProgramTakesCompletionsInOrder` | src/cqueue.rs:190-272 | in every run the entries handed out are a prefix of the completions in order; the ring holds the next, the overflow list the rest; with NODROP none is dropped |
| `CompletionSafety.KernelSparesUnpublishedSlots` | src/cqueue.rs:190-195 | the kernel writes no slot whose consumption is not published |
| `CompletionSafety.FillIsNexts` | src/cqueue.rs:234-272 | filling n slots is n calls of `next`, in output and state; the entries are the next completions |
| `CompletionSafety.PoppedAreNext` | src/cqueue.rs:234-252 | unchecked pops, as many as the length allows, yield the next completions and the state of `fill` |
| `CompletionSafety.CompletionsArePosts` | src/cqueue.rs:190-195 | what the kernel does to the queue object when operations complete is what the protocol's completions do, list or no list |
| `CompletionSafety.FlushesArePosts` | src/cqueue.rs:190-195 | and likewise when the overflow list is flushed |
| `CompletionRing.PopsAreNexts` | src/cqueue.rs:234-252 | unchecked pops within the known length are calls of `next` and yield the next completions |
| `CompletionRing.PopYieldsNext` | src/cqueue.rs:245-252 | a pop yields the oldest completion not handed out |
| `CompletionRing.WordMeaning` | src/cqueue.rs:215-231 | in every state the invariant allows, wrapped lengths and the status test mean the true distances |
| `CompletionRing.RunKeepsInv` | src/cqueue.rs:155-284 | the ring invariant holds after every run |
| `CompletionSafety.StatusAgreesWithQueue` | src/cqueue.rs:60-67 | status empty implies that a live handle is empty; right after `sync` the two agree |
| `CompletionSafety.StatusMeansAllConsumed` | src/cqueue.rs:60-67 | status is empty exactly when all posted completions are consumed and published so |
| `CompletionSafety.HandleLifetimesDoNotMatter` | src/cqueue.rs:155-161 | short-lived completion handles act like one lasting handle that calls `sync` wherever they are dropped or reopened |
| `CompletionSafety.ShortHandlesActLikeOne` | src/cqueue.rs:255-260 | the same from any two states that agree |
| `Cqueue.Inner.constructor` | src/cqueue.rs:134-152 | the queue starts with the words and slots that were mapped |
| `Cqueue.CompletionQueue.BorrowShared` | src/cqueue.rs:155-161 | the handle starts with both shared words |
| `Cqueue.CompletionQueue.LenIsUntaken` | src/cqueue.rs:215-231 | in every state of the protocol, length, empty and full mean the posted completions the handle knows of and has not taken |
| `Cqueue.CompletionQueue.Sync` | src/cqueue.rs:190-195 | stores the head, then loads the tail the kernel has left by then |
| `Cqueue.CompletionQueue.Drop` | src/cqueue.rs:255-260 | stores the head |
| `Cqueue.CompletionQueue.Pop` | src/cqueue.rs:245-252 | returns the slot of the head and advances it with wrap-around |
| `Cqueue.CompletionQueue.Next` | src/cqueue.rs:266-272 | a pop if head and tail differ, else nothing and no change; in every state of the protocol, the next completion if the handle knows of one |
| `Cqueue.CompletionQueue.Fill` | src/cqueue.rs:234-242 | pops as many as both sides allow into the front of the slice, the rest untouched; in every state of the protocol these are the next completions, as many as known and slots, and the handle ends behind them |
| `Cqueue.CompletionQueue.StatusIsEmpty` | src/cqueue.rs:60-67 | compares the two shared words |
| `Sqpoll.NoLostWakeup` | src/submit.rs:199-212 | with both fences no interleaving of publish, submit, poller and store buffers leaves entries published before a finished submit unread by a poller that sleeps and will not be woken |
| `Sqpoll.WakeupLostIffFenceMissing` | src/squeue.rs:246-260 | for every ring size, some interleaving loses a wake-up if and only if a fence is missing |
| `Sqpoll.MissingUserFenceLosesWakeup` | src/squeue.rs:245-265 | without the SeqCst fence a wake-up can be lost |
| `Sqpoll.MissingPollerFenceLosesWakeup` | src/squeue.rs:251-259 | without the poller's barrier a wake-up can be lost |
| `Sqpoll.PromisedEntriesGetRead` | src/squeue.rs:246-260 | on every run of both sides, whatever its order: once the poller has acted more often than its distance allows, six actions more for each announcement of sleep, everything published before the last submit is read |
| `Sqpoll.PollerCanAct` | src/squeue.rs:246-260 | while something published before the last submit is unread the poller can act, other than by announcing its sleep |
| `Sqpoll.PollerAloneReads` | src/squeue.rs:246-260 | so some sequence of the poller's actions alone reads all of it |
| `Sqpoll.ApplyKeepsInv` | src/squeue.rs:246-260 | every step of either side, the submitter's decision included, and every buffer flush keeps the handshake's invariant |
| `Submit.Submitter.SqLen` | src/submit.rs:82-89 | the tail as it is after the kernel's reads less the head as it was before, wrapped |
| `Submit.Submitter.SqNeedWakeup` | src/submit.rs:94-98 | true exactly when NEED_WAKEUP is set |
| `Submit.Submitter.SqCqOverflow` | src/submit.rs:101-105 | true exactly when CQ_OVERFLOW is set |
| `Submit.Submitter.Enter` | src/submit.rs:138-162 | goes through the table index, with the REGISTERED_RING bit set among any flags given, exactly when one is registered; else through the raw descriptor with the flags as given; the argument is passed on as it is |
| `Submit.Submitter.RegisterRing` | src/submit.rs:118-125 | registration calls use the index only if the kernel supports it |
| `Submit.Submitter.RegisterRingFd` | src/submit.rs:653-670 | success if and only if none was remembered and the kernel agreed, and only then the slot is remembered; a failure carries the kernel's error, or EEXIST, without a call, when one was remembered |
| `Submit.Submitter.UnregisterRingFd` | src/submit.rs:678-695 | success if and only if one was remembered and the kernel agreed, and only then it is forgotten; a failure carries the kernel's error, or EINVAL, without a call, when none was |
| `Submit.Submitter.SubmitAndWait` | src/submit.rs:172-216 | for all words and interference: no call exactly on the fast path, with the length as result; else one call with length, cut wait count and the decided flags; loads head, tail and overflow, then under SQPOLL fence and wake-up flag, in this order |
| `Submit.Submitter.SubmitWithArgs` | src/submit.rs:222-250 | the same decision and order of accesses, with EXT_ARG and the caller's argument |
| `Submit.Submitter.SameDecision` | src/submit.rs:172-250 | both forms enter or skip alike and differ only in EXT_ARG and its argument |
| `Submit.Submitter.WaitIsCutTo32Bits` | src/submit.rs:216 | the kernel is asked to wait for `want` completions exactly when `want` fits 32 bits, and for none exactly when it is a multiple of 2^32 |
| `Submit.Submitter.CallUnlessPolled` | src/submit.rs:198-216 | a submit makes no call if and only if SQPOLL is on, the poller awake, nothing waited for and no overflow to flush; so without SQPOLL, or waiting, it always does |
| `Submit.Submitter.FlagsAreAskedFor` | src/submit.rs:172-216 | which bit of the flags word of a call is set when, and that no other is |
| `Submit.Submitter.SubmitHandsOverAll` | src/submit.rs:172-216 | without SQPOLL, from every reachable state of the ring: the kernel taking as many entries as the call says reads everything published |
| `Submit.Submitter.SleeperIsCalled` | src/submit.rs:199-212 | a sleeping poller is called with SQ_WAKEUP and the number of published entries |
| `OverflowDelivery.NoStrandedCompletions` | src/submit.rs:186-192 | from every reachable state under NODROP, two rounds of drain, sync, submit, sync more than the list has ringfuls hand over every completion, with or without SQPOLL, poller awake or asleep, `want` 0 |
| `OverflowDelivery.RoundMakesProgress` | src/cqueue.rs:190-195 | a round takes all known completions, never lengthens the list, and after the first `sync` shortens it by a ringful or to nothing |
| `OverflowDelivery.SubmitFlushes` | src/submit.rs:172-216 | a submit moves as many buffered completions as the ring has room for |
| `OverflowDelivery.FlushesFillRoom` | src/submit.rs:186-192 | flushing moves the oldest buffered completions into the ring, as many as there are or as fit, and keeps the rest in order |
| `RingDescriptors.EveryCallReachesItsRing` | src/submit.rs:118-162 | from a task without submitters, with or without the kernel's feature, over any calls of any number of submitters, succeeding or failing: no call is refused for its target, every call resolves to its own ring, remembered indices name live slots and no two submitters share one |
| `RingDescriptors.RegistrationLasts` | src/submit.rs:653-695 | whatever other submitters do, and however often the own one tries again, a registered index leads to the own ring and all calls that may use it do, until it is unregistered, which frees this slot only and restores the submitter |
| `RingDescriptors.ReportsAreHonest` | src/submit.rs:653-695 | in any such run a caller is told of success exactly when the kernel's table changed |
| `RingDescriptors.ApplyKeepsInv` | src/register.rs:13-27 | each call of either kind keeps indices and table in agreement |
| `Mapping.EntriesLieInsideTheMaps` | src/lib.rs:178-209 | for any 32-bit word, entry sizes and either mapping, the selected entry and every array element lie inside the mapped length; the lengths fit `usize` for the entry sizes there are |
| `Mapping.LastElementsEndTheMaps` | src/lib.rs:178-209 | the last element of each table ends exactly where its mapping does, or, when the rings share one, where the longer of the two does |
| `Mapping.WordSelectsElement` | src/squeue.rs:365-371 | the word of a counter selects the element of that number modulo the ring size, counted from the start of its table |
| `Mapping.EntriesDoNotOverlap` | src/squeue.rs:365-371 | counters less than a ring apart select disjoint byte ranges |
| `RecvMsg.ParseFailsIffTooShort` | src/types.rs:451-465 | refused exactly when the summed length overflows or exceeds the buffer |
| `RecvMsg.ParsedSlicesPartitionBuffer` | src/types.rs:466-504 | the slices are consecutive, disjoint parts of the buffer, each cut only by its reserved or available size |
| `RecvMsg.NameTruncationIsExact` | src/types.rs:521-523 | the name counts as truncated exactly when fewer bytes are shown than arrived |
| `RecvMsg.HeaderRoundTrip` | src/types.rs:466-472 | reading an encoded header gives it back, in either byte order of the host |
| `RecvMsg.HeaderFieldsInOrder` | src/types.rs:466-472 | the order of the four header fields and of their bytes, on given bytes, in both byte orders |
| `RecvMsg.LayoutRoundTrip` | src/types.rs:451-504 | parsing what was laid out gives back lengths, flags and each part cut to its size |
| `RecvMsg.TruncationIsReported` | src/types.rs:521-560 | if the kernel sets its flags when it cuts, the three truncation accessors tell exactly which parts are not shown in full |
| `QueueRefinement.PushRefines` | src/squeue.rs:334-341 | a push on the ring is a push on the queue of the event loop |
| `QueueRefinement.SyncRefines` | src/squeue.rs:231-236 | likewise `sync` |
| `QueueRefinement.SubmitRefines` | src/submit.rs:172-216 | likewise the kernel taking entries during a submit, and which they are |
| `EchoSafety.NeverCrashes` | examples/tcp_echo.rs:102-231 | no index into token slab or buffers, those of pooled buffers included, is ever out of range, in any run |
| `EchoSafety.BuffersHaveOneOwner` | examples/tcp_echo.rs:106-229 | each allocated buffer is in the pool once or held by one reading or writing token; no two operations under way share one |
| `EchoBuffers.BuffersAreReused` | examples/tcp_echo.rs:135-145 | in any run there are never more buffers than there were connections at a time |
| `EchoSafety.OneOperationPerConnection` | examples/tcp_echo.rs:42-231 | every operation under way names a live token and is the one it calls for; a connection has at most one; accepts to issue, under way and failed are three |
| `EchoSafety.EchoIsFaithfulIffSendsComplete` | examples/tcp_echo.rs:158-229 | for every connection, open or closed: each finished message was sent back as a prefix of itself, and all bytes were sent back if and only if every send behind the first byte of its message was full |
| `EchoSafety.BytesLostMeansTwoShortSends` | examples/tcp_echo.rs:190-229 | a finished message with at most one short send was sent back whole; if every send took at least a byte, only such a message was |
| `EchoSafety.WriteCursorStaysInside` | examples/tcp_echo.rs:190-229 | at every moment while writing, offset plus length stays within what was received; the bytes sent are exactly those before the offset and those of a send not yet handled |
| `EchoSafety.StreamsEqualIffClean` | examples/tcp_echo.rs:190-229 | concatenated over messages, sent and received bytes agree exactly when every message does |
| `EchoSafety.CompleteKeepsInv` | examples/tcp_echo.rs:102-105 | a finishing operation keeps the invariant |
| `EchoSafety.HandleKeepsInv` | examples/tcp_echo.rs:102-231 | handling any completion, errors included, keeps the invariant |
| `EchoSafety.HandlingStaysInBounds` | examples/tcp_echo.rs:115-203 | what the next completion's branch indexes exists and is long enough |
| `EchoSafety.RunKeepsInv` | examples/tcp_echo.rs:73-232 | so does every run |
| `EchoStreams.SendAdvances` | examples/tcp_echo.rs:190-229 | a finished send, short or not, sends the next bytes of the message, in place and order |
| `EchoOwnership.TakeFromPool` | examples/tcp_echo.rs:136-138 | popping a pooled buffer keeps every buffer with one owner |
| `EchoOwnership.TakeNew` | examples/tcp_echo.rs:139-145 | so does allocating one |
| `EchoOwnership.GiveBackOnRemoval` | examples/tcp_echo.rs:159-161 | so does returning it with the end of a connection |
| `EchoOwnership.GiveBackOnChange` | examples/tcp_echo.rs:198-201 | so does returning it after the last send |
| `EchoOutstanding.ApplyKeepsLinked` | examples/tcp_echo.rs:73-231 | every step keeps operations and tokens in agreement |
| `EchoOutstanding.PopBacklogOps` | examples/tcp_echo.rs:90-97 | a backlog pop moves the entry into the queue, or drops it exactly when the queue is full after `sync` |
| `EchoOutstanding.OpNamesLiveToken` | examples/tcp_echo.rs:104-116 | an operation anywhere names a live token |
| `EchoOutstanding.AcceptTaken` | examples/tcp_echo.rs:106-120 | a finished accept returns to the budget or is counted as failed |
| `EchoConservation.OperationsAreConserved` | examples/tcp_echo.rs:73-231 | in any run, every step changes the operations on their way by exactly this: a handled one leaves and its successor comes, accepts come as budget and room allow, a drop takes one |
| `EchoConservation.OperationLostIffQueueStaysFull` | examples/tcp_echo.rs:82-97 | in any run, some operation other than the one handled is gone after a step if and only if it was taken from the backlog with the queue full and nothing of it taken |
| `EchoConservation.ExactlyOneOperation` | examples/tcp_echo.rs:82-229 | in every reachable state each connection has exactly one operation on its way, or none if the backlog loop dropped it or it failed |
| `EchoDescriptors.EachCompletionIsAnswered` | examples/tcp_echo.rs:106-229 | in every run a completion without error is followed by exactly the operation that its own operation and result call for, or by none when the peer has closed |
| `EchoDescriptors.OperationsUseOwnDescriptor` | examples/tcp_echo.rs:117-229 | in every run there are just the connections accepted and not yet closed, and all their operations are on the descriptor their accept returned |
| `EchoTurns.CompletionsAreHandledInOrder` | examples/tcp_echo.rs:102 | over any run the completions handled and those left are those there and those that came, in order |
| `EchoTurns.StopsExactlyOnError` | examples/tcp_echo.rs:74-88 | the program stops exactly when a reply to a submit is an error other than EBUSY |
| `EchoTurns.TurnAchieves` | examples/tcp_echo.rs:73-231 | a turn that does not stop has handled exactly the completions its sync showed, in order, has emptied the backlog into the queue unless a submit there met EBUSY, and has issued accepts |
| `EchoConservation.RoomMeansNoLoss` | examples/tcp_echo.rs:82-231 | in any run that handles no completion with the queue full, the backlog stays empty and nothing is lost |
| `EchoConservation.FewConnectionsLoseNothing` | examples/tcp_echo.rs:56-231 | the same for any run in which connections and the three accepts never outnumber the queue's entries: 253 connections for 256 |
| `EchoConservation.HandleBalance` | examples/tcp_echo.rs:102-229 | handling a completion replaces its operation by the one its token now calls for, or by none after an error or the end of the connection |
| `EchoConservation.PushToOps` | examples/tcp_echo.rs:42-53 | as many accepts are issued as budget and room allow |
| `EchoLosses.OperationCanBeLost` | examples/tcp_echo.rs:92-97 | for every ring size above three there is a run that loses an operation, each connection with a descriptor of its own |
| `EchoLosses.UnpublishedFullQueueAlwaysDrops` | examples/tcp_echo.rs:84-95 | if none of a full queue is published, the pop drops whatever the kernel replies |
| `EchoLosses.BytesCanBeLost` | examples/tcp_echo.rs:207-208 | there is a run that receives ten bytes, sends six and three of them and takes the message for sent |
| `EchoLosses.CompletionServed` | examples/tcp_echo.rs:74-231 | where this run of two turns leads: the kernel finishes one operation, the program handles it and publishes what that pushed |
| `TcpEcho.Server.constructor` | examples/tcp_echo.rs:56-69 | empty slabs but for the listener's token, three accepts to issue |
| `TcpEcho.Server.PushAccepts` | examples/tcp_echo.rs:42-53 | issues accepts while there is budget and room, then syncs |
| `TcpEcho.Server.DrainBacklog` | examples/tcp_echo.rs:82-98 | the loop ends, after the steps owed for the replies it meets |
| `TcpEcho.Server.DrainPass` | examples/tcp_echo.rs:83-97 | one pass of it is the step owed: an error ends the program, EBUSY or an empty backlog the loop, else an entry is taken |
| `TcpEcho.Server.PopFront` | examples/tcp_echo.rs:90-97 | syncs, pops and pushes; the popped entry is gone if the queue is full |
| `TcpEcho.Server.Accepted` | examples/tcp_echo.rs:117-134 | the accept branch |
| `TcpEcho.Server.Ready` | examples/tcp_echo.rs:135-157 | the poll branch |
| `TcpEcho.Server.Received` | examples/tcp_echo.rs:158-189 | the read branch |
| `TcpEcho.Server.Sent` | examples/tcp_echo.rs:190-229 | the write branch |
| `TcpEcho.Server.HandleCompletion` | examples/tcp_echo.rs:102-116 | one completion, errors included, is one step of the machine and keeps its invariant |
| `TcpEcho.Server.HandleCompletions` | examples/tcp_echo.rs:102-231 | all completions seen are handled, by the steps owed |
| `TcpEcho.Server.Wait` | examples/tcp_echo.rs:74-78 | the three outcomes of waiting; only an error ends the program |
| `TcpEcho.Server.RunTurn` | examples/tcp_echo.rs:73-231 | one turn does everything owed for it and nothing else, achieves what a turn should, and stops the program exactly on an error |
| `TcpEcho.Server.Begin` | examples/tcp_echo.rs:71 | the first accepts, before the loop |
| `TcpEcho.Server.Serve` | examples/tcp_echo.rs:71-232 | the whole program, for any behaviour of the kernel, operations finishing between any two steps included: every turn is served, one after the other, up to the first error |
| `Words.MaskIsRemainder` | src/squeue.rs:366-368 | masking with a power of two less one is the remainder |
| `Words.SlotOfCounter` | src/squeue.rs:366-368 | a 32-bit word selects the slot of the unbounded counter it stands for |
| `Words.DistanceOfCounters` | src/squeue.rs:309-311 | the wrapped difference of two words is the true distance of their counters |
| `Words.SlotsDiffer` | src/cqueue.rs:245-252 | counters less than a ring apart never share a slot |

## Left out

- System calls, `mmap`, `munmap`, `close`, errno and descriptor ownership: their outcomes are arguments or kernel steps.
- Memory ordering beyond first-in-first-out store buffers; for the completion ring, shared accesses are single atomic steps in program order.
- `mem::forget` of handles and two simultaneous handles on one ring, which the unsafe contracts forbid.
- Rings whose counters do not start at zero: runs start with empty rings at zero, and reach every counter value from there.
- The wake-up machine keeps heads and tails as counters and compares their 32-bit residues; slots are the matter of the ring machines.
- `Submit.Submitter.SubmitAndWait`: does not model what the kernel does inside the call; the fence is an entry in the order of accesses, what it achieves is the wake-up machine's matter.
- `Submit.Submitter.SubmitWithArgs`: likewise.
- `Submit.Submitter.Enter`: does not model the size passed along with the argument.
- `EchoSafety.EchoIsFaithfulIffSendsComplete`: does not model the two opcodes for sending apart; `Send` and `Write` are one operation on a range of a buffer.
- The completion queue of the echo server is an unbounded list; overflow is the matter of the completion ring machine.
- Slab internals: a token key is any vacant one, buffers are numbered in order of allocation.
- Sockets, `close` of a connection's descriptor and printing in the echo server.
- Opcode builders, `Builder` setters, `Parameters` getters, `Probe`, CQE flag helpers and the other `register_*` wrappers: each is settled by reading one line.
- The accessors `dropped`, `taskrun`, `overflow`, `eventfd_disabled` and `squeue_wait`.
