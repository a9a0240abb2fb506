# ActiveBSP, modelled and proved in Dafny

ActiveBSP is an actor runtime over MPI. An actor is a group of processes; each process has a *management thread*
that handles messages one at a time and a *worker thread* that runs the actor's code. Calls return futures, results
may be vectors distributed over the processes, and clients fetch slices of them or have them redistributed to another
actor. This project models the protocols behind that and proves what they keep over every run.

`dafny verify dfyconfig.toml` checks everything.

| file | models |
|---|---|
| `Bytes.dfy` | buffers, `memcpy`, little-endian integers |
| `BlockDistribution.dfy` | `div_range` at its C++ integer widths |
| `VectorDistribution.dfy` | parts of a distributed vector, tiling, request clipping |
| `DataStore.dfy` | the part store: value machine (`PartStore`) and the class with three maps (`DataStore`) |
| `PartServer.dfy` | serving part requests: value machine over runs of messages (`PartRequests`) and the class (`PartServer`) |
| `PartLife.dfy` | the messages that name one part, and how often each request for it is answered |
| `RequestOrder.dfy` | the order in which the parts of one request come back |
| `VectorTransfer.dfy` | FIFO channels, servers and foreign clients interleaving (section 3.5 of MPI-3.1, non-overtaking) |
| `GetPart.dfy` | `dv_get_part`, and `block_distribute` followed by it |
| `Redistribution.dfy` | `prefetch` and `fetchDv` |
| `FutureServer.dfy` | the future half of the management server: value machine (`Futures`) and the class (`FutureServer`) |
| `ResultMonitor.dfy` | workers and manager around the result store's lock and condition variable, byte by byte |
| `Dispatch.dfy` | what a received message is, from its first field |
| `ReceiveBuffer.dfy` | the reused receive buffer and the messages that outlive their handler, on real arrays |
| `Collectives.dfy` | `gather_distr_parts` on raw bytes, `broadcast_dv` and its barriers |
| `Serialization.dfy` | contiguous serialization of argument packs |
| `CallPath.dfy` | call message, request queue, worker loop, future registration |
| `Compressor.dfy` | the in-place image down-sampler on `p` processes |
| `ImageIndex.dfy` | the distributed hash index of images |

Protocols are state machines over their steps; the handlers that the C++ writes as methods on maps and buffers are
classes whose methods are proved to take exactly those steps. A client's network, the order in which messages or
one-sided puts arrive, and the interleaving of threads are universally quantified.

Some promises hold only under a condition. The model keeps the code as it is and proves the exact condition:

- `div_range` narrows a 64-bit length to `int`: it partitions correctly if and only if no intermediate overflows
  (`DivRangeExact`), which every length up to 2^31 - 1 meets.
- `fetchDv` computes an offset into the source part and does not use it, and writes every piece at offset 0: byte
  counts are always right, contents if and only if every destination block starts where a source part starts and lies
  in it (`PrefetchExact`; `TwoPartsOntoOneProcess` is a failing input).
- A fetch queued for a future that is released before its data arrives is lost if and only if no reader ever asked
  (`QueuedFetchRunsExactlyWhen`; `LostFetch` is a failing run). A second fetch of a future while the first is queued
  fails an assertion: the server stays alive if and only if there is none (`AliveExactly`, and in closed form for a
  future registered once `OneRegistrationExactly`; `SecondFetchAborts` is a failing run).
- A request out of bounds of a part that is there makes the handler return with the lock held, and one that waits for
  its part is read past its end. The server keeps running if and only if every message meets its guard
  (`RunsExactly`; `RequestPastTheEnd` and `WaitingPastTheEnd` are failing runs), and a worker waiting for the lock is
  blocked for good if and only if the manager left that way or is about to (`BlockedExactly`).
- Answered part requests stay in the waiting list, so a piece that follows the completing message, empty as it must be,
  answers them again: a request is answered exactly once if and only if no such piece comes before the release or no
  request came before completion (`EveryRequestAnswered`). An empty source part inside a block sends such a piece
  (`EmptyPartRepeatsReplies`).
- The k-th receive of a request takes the reply to its k-th part, for all k, if and only if no part that is ready comes
  after one that is not and the missing parts complete in request order (`RequestOrder.RepliesInRequestOrder`;
  `CompletedOutOfOrder` is a failing run).
- `gather_distr_parts` copies from byte 4 although parts start at byte 8: the result is right if and only if every
  process's last part has an offset below 2^32 (`GatherExact`).
- `broadcast_dv` works if and only if the broadcast buffer's length fits its count (`BroadcastExact`).
- The down-sampler may overwrite its input if and only if a row of output fits in the rows it is averaged from
  (`InPlaceExactly`), and for the shapes of the program it is enough that the output is no longer than the buffer
  (`FittingOutputHasRoom`).
- The hash tables have their sizes if and only if no process starts behind the last bucket (`TablesSizedRight`; 200
  processes fail, up to 111 never do).
- A function is found by name if and only if the name has no NUL byte (`MessageRoundTrip`).

## Model

| member | source | states |
|---|---|---|
| `BlockDistribution.DivRangeExact` | src/ActiveBSP/src/distributions/block_distribution.cpp:6-20 | for every 64-bit length and process count, all processes get their exact block if and only if no `int` intermediate overflows (or two wrap-arounds cancel) |
| `BlockDistribution.IntLengthsAreExact` | src/ActiveBSP/src/distributions/block_distribution.cpp:6-20 | every length up to 2^31 - 1 is partitioned exactly, without overflow, for every process count |
| `BlockDistribution.TruncatedBlockIsWrong` | src/ActiveBSP/src/distributions/block_distribution.cpp:8-19 | a block length that does not fit an `int` gives the last process a wrong range |
| `BlockDistribution.BlocksTile` | src/ActiveBSP/src/distributions/block_distribution.cpp:6-20 | the blocks start at 0, end at n, and any two lengths differ by at most one |
| `BlockDistribution.BlockOf` | src/ActiveBSP/src/distributions/block_distribution.cpp:6-20 | every position below n lies in exactly one block |
| `BlockDistribution.DivideRange` | src/ActiveBSP/src/distributions/block_distribution.cpp:6-20 | for every length that can be partitioned, the call through out-parameters returns the block's begin and end, in order |
| `VectorDistribution.ClipIsIntersection` | src/ActiveBSP/src/mpi/MPIActorCommunicator.cpp:241-254 | the request clipped from a part is exactly the part's intersection with the slice, with no unsigned underflow, and its place in the output is the matching one |
| `VectorDistribution.GetVecSize` | src/ActiveBSP/src/vector_distribution.cpp:99-110 | the running maximum is the length of any vector that the parts tile |
| `VectorDistribution.DistributeVector` | src/ActiveBSP/src/management/ActorServer.cpp:416-440 | the loop builds exactly the block parts, at machine widths |
| `VectorDistribution.BlockPartsTile` | src/ActiveBSP/src/management/ActorServer.cpp:416-440 | the registered parts hold every byte of the vector exactly once and none outside |
| `PartStore.ExposedBytesAreStable` | src/ActiveBSP/src/future/DataStore.cpp:122-218 | over every legal run, a part that can be read keeps all its bytes until it is removed |
| `PartStore.FeedsAssemble` | src/ActiveBSP/src/future/DataStore.cpp:57-150 | disjoint ranges fed in any order, mixed with other operations: remaining counts the unwritten bytes and the written ones are right |
| `PartStore.PreparedPartIsReadableWhenComplete` | src/ActiveBSP/src/future/DataStore.cpp:57-218 | a prepared part becomes readable at exactly its last missing byte, with the bytes of its messages |
| `PartStore.GetPartData` | src/ActiveBSP/src/future/DataStore.cpp:186-218 | bytes are exposed if and only if the part is complete and has a buffer |
| `PartStore.StoredIsRead` | src/ActiveBSP/src/future/DataStore.cpp:16-88 | a part stored whole shows its own bytes at once, a prepared or removed one nothing, and no other part changes |
| `DataStore.DataStore.StorePartMessage` | src/ActiveBSP/src/future/DataStore.cpp:16-33 | takes the store step; the part table stays the disjoint union of the two stores |
| `DataStore.DataStore.StorePartVector` | src/ActiveBSP/src/future/DataStore.cpp:35-55 | takes the store step, same invariant |
| `DataStore.DataStore.PreparePartVector` | src/ActiveBSP/src/future/DataStore.cpp:57-88 | takes the prepare step: zeroed buffer, every byte missing |
| `DataStore.DataStore.AddBytes` | src/ActiveBSP/src/future/DataStore.cpp:90-150 | takes the feed step in the store that holds the buffer and returns the missing bytes |
| `DataStore.DataStore.RemovePart` | src/ActiveBSP/src/future/DataStore.cpp:152-184 | takes the remove step, same invariant |
| `DataStore.DataStore.PartData` | src/ActiveBSP/src/future/DataStore.cpp:186-218 | returns the bytes of a complete part, nothing otherwise |
| `PartRequests.RequestRunsExactly` | src/ActiveBSP/src/management/ActorServer.cpp:264-295 | a request leaves the server running if and only if every part of it that is ready is asked within its length; otherwise the lock stays held |
| `PartRequests.AnnouncementRunsExactly` | src/ActiveBSP/src/management/ActorServer.cpp:359-395 | announcing a part answers every waiting request once if they are all within it, and otherwise reads past it |
| `PartRequests.HandleRunsExactly` | src/ActiveBSP/src/management/ActorServer.cpp:252-414 | a message leaves the server running if and only if it meets its handler's guards |
| `PartRequests.RunsExactly` | src/ActiveBSP/src/management/ActorServer.cpp:252-414 | a run does if and only if every message meets its guards when it comes |
| `PartRequests.StoreFollowsMessages` | src/ActiveBSP/src/management/ActorServer.cpp:322-414 | over every run that the server survives, its store is what the messages' operations leave, one after the other |
| `PartRequests.RequestPastTheEnd` | src/ActiveBSP/src/management/ActorServer.cpp:288-295 | a run that leaves the lock held |
| `PartRequests.WaitingPastTheEnd` | src/ActiveBSP/src/management/ActorServer.cpp:379-388 | a run that reads past a part for a waiting request |
| `PartLife.PartsAreIndependent` | src/ActiveBSP/src/management/ActorServer.cpp:252-414 | over every run that the server survives, each part ends as if only what names it had been handled |
| `PartLife.ServerRunsExactly` | src/ActiveBSP/src/management/ActorServer.cpp:252-414 | the server keeps running if and only if every part's own messages would keep it running |
| `PartLife.RepliesCounted` | src/ActiveBSP/src/management/ActorServer.cpp:252-414 | over every run with a part stored at most once: replies and waiting requests counted from the messages before completion, until the release and after it |
| `PartLife.EveryRequestAnswered` | src/ActiveBSP/src/management/ActorServer.cpp:252-414 | every request before the release is answered exactly once if and only if no piece follows the completing message or no request preceded it |
| `PartLife.UnfinishedPartAnswersNothing` | src/ActiveBSP/src/management/ActorServer.cpp:277-283 | a part that is never completed: nothing is sent and every request waits |
| `Redistribution.EmptyPartRepeatsReplies` | src/ActiveBSP/src/management/ActorServer.cpp:365-391 | an empty source part inside a block, whose piece makes a waiting request be answered twice |
| `PartRequests.ReadyRequestAnsweredInOrder` | src/ActiveBSP/src/management/ActorServer.cpp:264-312 | when all parts are ready the replies are the requested slices, in request order |
| `PartRequests.ImmediateReplies` | src/ActiveBSP/src/management/ActorServer.cpp:264-312 | the replies that leave at once are those of the ready parts, in order, skipping the others |
| `RequestOrder.ClientReceives` | src/ActiveBSP/src/management/ActorServer.cpp:264-312 | over every run after a request, the client receives first the ready parts in request order and then the others as they complete |
| `RequestOrder.RepliesInRequestOrder` | src/ActiveBSP/src/mpi/MPIActorCommunicator.cpp:311-327 | each receive takes the reply meant for it if and only if the ready parts come first and the missing ones complete in request order |
| `RequestOrder.CompletedOutOfOrder` | src/ActiveBSP/src/management/ActorServer.cpp:277-283 | a run in which the receive for the first part gets the second |
| `PartServer.ActorServer.HandleGetResultParts` | src/ActiveBSP/src/management/ActorServer.cpp:252-320 | the handler takes the request step: answer, queue, or stop with the lock held |
| `PartServer.ActorServer.CheckDvPartRequired` | src/ActiveBSP/src/management/ActorServer.cpp:359-395 | the waiting requests of a completed part are answered in order and stay in the list |
| `PartServer.ActorServer.HandleStoreResult` | src/ActiveBSP/src/management/ActorServer.cpp:322-357 | the handler takes the store step, failed assertion included |
| `PartServer.ActorServer.HandleStoreResultPart` | src/ActiveBSP/src/management/ActorServer.cpp:623-642 | the handler takes the feed step, failed assertions included, and announces the part with its last byte |
| `PartServer.ActorServer.HandleReleaseResult` | src/ActiveBSP/src/management/ActorServer.cpp:397-414 | the handler takes the remove step, failed assertion included |
| `VectorTransfer.AnswersArriveInOrder` | src/ActiveBSP/src/mpi/MPIActorCommunicator.cpp:274-321 | over every interleaving with other clients, what an owner has sent the client is a prefix of the answers to the client's own messages in its program order |
| `VectorTransfer.AllAnswersArrive` | src/ActiveBSP/src/mpi/MPIActorCommunicator.cpp:222-338 | once nothing is under way, every answer has been sent |
| `VectorTransfer.InvariantHolds` | src/ActiveBSP/src/management/ActorServer.cpp:252-357 | every reachable state: handled, travelling and unsent messages are the client's program, and the owner holds what the handled ones stored |
| `VectorTransfer.CanFinish` | src/ActiveBSP/src/mpi/MPIActorCommunicator.cpp:290-327 | the protocol cannot get stuck: from any state some execution leaves nothing under way |
| `GetPart.ReadStoredResult` | src/ActiveBSP/src/shmem/SharedMemoryMasterProxy.cpp:85-102 | once the part is there, copies the slice, or copies nothing and returns -1 when the part is too short |
| `GetPart.ReceiveFrom` | src/ActiveBSP/src/mpi/MPIActorCommunicator.cpp:311-327 | the k-th receive posted for an owner takes the reply to the k-th part asked from it, into its own range |
| `GetPart.GroupRequests` | src/ActiveBSP/src/mpi/MPIActorCommunicator.cpp:227-278 | every wanted remote part is asked from its owner once, in distribution order, and local parts are copied |
| `GetPart.DvGetPart` | src/ActiveBSP/src/mpi/MPIActorCommunicator.cpp:222-338 | for any distribution, the output holds the vector's byte at every place some part covers, and is untouched elsewhere |
| `DistributeRoundTrip.SliceComesBack` | src/ActiveBSP/src/mpi/MPIActorCommunicator.cpp:222-363 | in every execution the replies are the slice's bytes, k-th reply for k-th request, because each store is handled before the request |
| `DistributeRoundTrip.ProgramCanFinish` | src/ActiveBSP/src/mpi/MPIActorCommunicator.cpp:222-363 | for every distribution and slice, an execution that handles the client's whole program exists |
| `DistributeRoundTrip.BlockDistributeThenGetPart` | src/ActiveBSP/src/mpi/MPIActorCommunicator.cpp:222-363 | for every vector, element size, process list and slice, and every execution of the network, the output is exactly that slice |
| `Redistribution.PiecesFillTheBlock` | src/ActiveBSP/src/management/ActorServer.cpp:574-611 | for any tiling source, the pieces sent for a destination block add up to its length |
| `Redistribution.FedAccounting` | src/ActiveBSP/src/future/DataStore.cpp:122-150 | over every legal history, missing bytes are those not fed and the buffer holds the pieces written in order |
| `Redistribution.PieceAccepted` | src/ActiveBSP/src/management/ActorServer.cpp:551-642 | in any arrival order each piece passes `addData`'s bounds, and the part is complete exactly when nothing non-empty is still to come |
| `Redistribution.SendPieces` | src/ActiveBSP/src/management/ActorServer.cpp:582-619 | the inner loop sends one message per local part that meets the block, always the part's first bytes |
| `Redistribution.FetchDv` | src/ActiveBSP/src/management/ActorServer.cpp:551-621 | one process sends to the destinations only, and to each exactly the pieces it holds of that destination's block |
| `Redistribution.WhatArrives` | src/ActiveBSP/src/management/ActorServer.cpp:551-621 | what all source processes send to a destination, in any interleaving, is an arrival of its block's pieces |
| `Redistribution.PrefetchDelivers` | src/ActiveBSP/src/management/ActorServer.cpp:442-642 | from `fetchDv` to the destination's store: every message is accepted, the block completes with the last, and holds its share if aligned with a source part and, for some vector, not otherwise |
| `Redistribution.SendersCoverTheBlock` | src/ActiveBSP/src/management/ActorServer.cpp:551-621 | what the source processes send together for a block is exactly its pieces |
| `Redistribution.BlockRightExactlyWhenAligned` | src/ActiveBSP/src/management/ActorServer.cpp:551-642 | a block gets its share of every vector in every arrival order if and only if it is empty or one part starts where it starts and covers it |
| `Redistribution.PrefetchExact` | src/ActiveBSP/src/management/ActorServer.cpp:442-642 | a completed prefetch keeps every vector if and only if all blocks are so aligned |
| `Redistribution.PrefetchKeepsVector` | src/ActiveBSP/src/management/ActorServer.cpp:442-642 | a source in the same blocks is handed on unchanged, and the published distribution describes the buffers |
| `Redistribution.TwoPartsOntoOneProcess` | src/ActiveBSP/src/management/ActorServer.cpp:610-615 | an input on which the second piece overwrites the first |
| `Redistribution.PreparePrefetch` | src/ActiveBSP/src/management/ActorServer.cpp:468-491 | each rank prepares the key and size that the head publishes for it |
| `Redistribution.PublishPrefetch` | src/ActiveBSP/src/management/ActorServer.cpp:507-520 | the published parts tile the vector |
| `Futures.EveryReachableStateIsConsistent` | src/ActiveBSP/src/management/ActorServer.cpp:145-250 | in every reachable state no stored future has a waiting reader, a standing delete request or a queued fetch |
| `Futures.FuturesAreIndependent` | src/ActiveBSP/src/management/ActorServer.cpp:145-250 | over every run each future ends as if only its own messages had been handled |
| `Futures.ReadsAreConserved` | src/ActiveBSP/src/management/ActorServer.cpp:145-235 | for every future and process: reads = replies + waiting, and every reply carries registered bytes |
| `Futures.FetchesAreConserved` | src/ActiveBSP/src/management/ActorServer.cpp:529-549 | for every future: the fetches run, and then the one queued, are the fetches received, once each and in order, and each ran with registered bytes |
| `Futures.RegisterAndReleaseCommute` | src/ActiveBSP/src/management/ActorServer.cpp:145-250 | whichever of register and release comes first, earlier readers are answered in order with the registered bytes and the future ends out of the store |
| `Futures.QueuedFetchRunsExactlyWhen` | src/ActiveBSP/src/management/ActorServer.cpp:145-202 | over every run, a queued fetch runs with the data if and only if there was no release or some reader waited; otherwise it stays queued |
| `Futures.AliveExactly` | src/ActiveBSP/src/management/ActorServer.cpp:529-549 | the server stays alive if and only if no future gets a second fetch while one is queued |
| `Futures.OneRegistrationExactly` | src/ActiveBSP/src/management/ActorServer.cpp:145-202 | the same in closed form for a future registered once, in terms of its fetches, releases and reads |
| `Futures.SecondFetchAborts` | src/ActiveBSP/src/management/ActorServer.cpp:537-545 | two fetches of an unregistered future |
| `Futures.LostFetch` | src/ActiveBSP/src/management/ActorServer.cpp:153-158 | a run in which the fetch is lost |
| `FutureServer.ActorServer.RegisterFuture` | src/ActiveBSP/src/management/ActorServer.cpp:145-202 | the handler takes the register step on the real maps |
| `FutureServer.ActorServer.SendToPending` | src/ActiveBSP/src/management/ActorServer.cpp:174-189 | the waiting readers are answered in order and the entry erased |
| `FutureServer.ActorServer.HandleGetFutureData` | src/ActiveBSP/src/management/ActorServer.cpp:211-235 | the handler takes the read step |
| `FutureServer.ActorServer.HandleReleaseFuture` | src/ActiveBSP/src/management/ActorServer.cpp:237-250 | the handler takes the release step |
| `FutureServer.ActorServer.HandleFetch` | src/ActiveBSP/src/management/ActorServer.cpp:529-549 | the handler takes the fetch step, failed assertion included |
| `ResultMonitor.NoTornReads` | src/ActiveBSP/src/shmem/SharedMemoryMasterProxy.cpp:53-109 | over every interleaving of byte-wise steps, a finished read copied, at the offset and size that were called for, a slice of one complete version of the part as the manager's operations leave it, or was refused for reaching past one |
| `ResultMonitor.NoLostWakeup` | src/ActiveBSP/src/management/ActorServer.cpp:628-634 | a worker asleep while the part it called for is ready is about to be woken by the manager that holds the lock |
| `ResultMonitor.MemoryRefinesAtomicStore` | src/ActiveBSP/src/management/ActorServer.cpp:339-347 | outside the manager's critical sections, memory is what the operations that the manager performed give, one after the other |
| `ResultMonitor.VersionsHold` | src/ActiveBSP/src/management/ActorServer.cpp:339-347 | the versions that count as published are exactly the complete contents of parts after some of the operations performed |
| `ResultMonitor.LeakExactly` | src/ActiveBSP/src/management/ActorServer.cpp:252-295 | however the workers interleave, a section that serves requests ends without unlocking if and only if one of them reaches past a part that is there |
| `ResultMonitor.BlockedExactly` | src/ActiveBSP/src/shmem/SharedMemoryMasterProxy.cpp:53-76 | a worker waiting for the lock is blocked for good if and only if the manager has left without unlocking or is serving a request that will make it |
| `ReceiveBuffer.Process.ReceiveActorMessage` | src/ActiveBSP/src/mpi/MPIActorCommunicator.cpp:47-94 | the message shows the received bytes; no kept message changes; only a call gets a buffer of its own |
| `ReceiveBuffer.Process.HandleStoreResult` | src/ActiveBSP/src/mpi/MPIActorCommunicator.cpp:421-426 | the message takes the receive buffer over and a fresh one replaces it |
| `ReceiveBuffer.Process.HandleDeferredFetch` | src/ActiveBSP/src/actormsg/ActorMessage.cpp:17-22 | the saved fetch is a copy with its own buffer |
| `ReceiveBuffer.Process.DestroyMessage` | src/ActiveBSP/src/actormsg/ActorMessage.cpp:98-104 | the buffer becomes free if and only if the message owned it, and no other kept message uses it |
| `ReceiveBuffer.Process.Serve` | src/ActiveBSP/src/mpi/MPIActorCommunicator.cpp:47-94 | over every run, kept messages show the bytes they arrived with and own what the source lets them own, share no buffer, and nothing is freed twice or used after it was freed |
| `ReceiveBuffer.FateExactly` | src/ActiveBSP/src/actormsg/ActorMessageFactory.cpp:28-72 | which messages are copied, take the buffer over or are saved, by their first four bytes |
| `Dispatch.DispatchExactly` | src/ActiveBSP/src/actormsg/ActorMessageFactory.cpp:24-79 | a message is of a kind if and only if it starts with that kind's instruction, and of none if it starts with none |
| `PartLayout.PartRoundTrip` | src/ActiveBSP/include/vector_distribution.h:17-33 | the 24-byte layout of a part decodes to the part |
| `PartLayout.ClippedPart` | src/ActiveBSP/include/vector_distribution.h:17-33 | a part whose last four bytes are zeroed decodes to itself with the offset cut to 32 bits |
| `GatherParts.GatherDistrParts` | src/ActiveBSP/include/Actor.hpp:58-76 | the loop of gets copies every process's stretch and leaves zeros behind the last |
| `GatherParts.GatheredParts` | src/ActiveBSP/include/Actor.hpp:58-76 | the result holds all parts in rank order, each process's last one cut to a 32-bit offset |
| `GatherParts.GatherExact` | src/ActiveBSP/include/Actor.hpp:58-76 | it is the concatenation if and only if every last offset is below 2^32 |
| `BroadcastDv.BroadcastExact` | src/ActiveBSP/src/Actor.cpp:139-203 | a call ends with everyone holding process 0's distribution, over the same barriers, if and only if that distribution is well formed |
| `BroadcastDv.EveryCallBroadcasts` | src/ActiveBSP/src/Actor.cpp:139-203 | over any sequence of calls, buffer sizes stay equal, all pass the same barriers and each call broadcasts |
| `Serialization.PackSize` | src/ActiveBSP/include/serialization/contiguous_serialization.hpp:13-73 | a pack takes exactly the predicted number of bytes |
| `Serialization.SerializeUnit` | src/ActiveBSP/include/serialization/contiguous_serialization.hpp:39-59 | writes the value's bytes in place and nothing else |
| `Serialization.SerializeAll` | src/ActiveBSP/include/serialization/contiguous_serialization.hpp:61-73 | fills exactly the predicted stretch of the buffer |
| `Serialization.DeserializeExact` | src/ActiveBSP/include/serialization/contiguous_serialization.hpp:75-115 | reading gives a pack if and only if the bytes start with that pack serialized |
| `Serialization.RoundTrip` | src/ActiveBSP/include/serialization/serialization.hpp:53-72 | a serialized pack is read back, whatever follows it |
| `CallMessage.BuildMessage` | src/ActiveBSP/include/actormsg/CallActorMessage.hpp:11-45 | the message is written over the caller's buffer if it fits, into a new one of the right size if not |
| `CallMessage.MessageRoundTrip` | src/ActiveBSP/src/actormsg/CallActorMessage.cpp:38-79 | a built message is received as a call; the accessors return the arguments and the key, and the name if and only if it has no NUL |
| `CallPath.ExecuteIsLocalCall` | src/ActiveBSP/src/worker/ActorWorker.cpp:100-126 | running the message of a typed call is the local call, serialized |
| `CallPath.InvariantHolds` | src/ActiveBSP/src/worker/ActorWorker.cpp:79-138 | in every reachable state, prefetches that register futures of their own included, the worker's object and the calls' results registered or on their way are those of the calls taken so far, made one after the other |
| `CallPath.LineIsPosted` | src/ActiveBSP/src/management/ActorServer.cpp:94-124 | over every run the queue's log, the key counter and the keys handed out are those of the calls and stops handled |
| `CallPath.OthersHandled` | src/ActiveBSP/src/management/ActorServer.cpp:204-250 | the management thread handles the calls' registrations and the other future messages, once each and in order, and nothing else |
| `CallPath.FutureOfCall` | src/ActiveBSP/src/management/ActorServer.cpp:94-124 | for every call handled: its caller is handed its key, and under that key at most one registration is made, of that same call's local result on the object that the calls before it leave; at the end it is made if and only if no stop came before the call |
| `CallPath.CallsRunOnceInOrder` | src/ActiveBSP/src/worker/ActorWorker.cpp:79-138 | at the end the results registered are those of exactly the calls handled before the first stop, once each, in order |
| `CallPath.RemoteCallIsLocalCall` | src/ActiveBSP/include/Proxy.hpp:20-34 | whatever is registered under the key that the caller of a handled call was handed decodes to f(args) of that call for a registered name without NUL, and is "error" for an unknown one |
| `CallPath.RepliesAreLocalResults` | src/ActiveBSP/include/Proxy.hpp:20-34 | every reply sent to a reader of that future decodes to f(args) |
| `ActorProcess.Process.TakeKey` | src/ActiveBSP/src/future/FutureKeyManager.cpp:19-26 | keys are drawn in increasing order |
| `ActorProcess.Process.DrawKey` | src/ActiveBSP/src/management/ActorServer.cpp:452-453 | a key for a future that the management thread registers itself takes the key step |
| `ActorProcess.Process.PostMessage` | src/ActiveBSP/src/shmem/SharedMemoryRequestQueue.cpp:35-43 | appends at the back |
| `ActorProcess.Process.GetNextMessage` | src/ActiveBSP/src/shmem/SharedMemoryRequestQueue.cpp:18-33 | takes from the front |
| `ActorProcess.Process.HandleCallActorMessage` | src/ActiveBSP/src/management/ActorServer.cpp:94-124 | takes the call step and hands the caller the request's key |
| `ActorProcess.Process.StopActor` | src/ActiveBSP/src/management/ThreadedActorWorkerProxy.cpp:56-61 | takes the stop step |
| `ActorProcess.Process.MasterLoop` | src/ActiveBSP/src/worker/ActorWorker.cpp:79-138 | everything before the sentinel is run in order and reported, nothing behind it; without a sentinel it runs all there is and waits |
| `ActorProcess.DrainIsSequential` | src/ActiveBSP/src/worker/ActorWorker.cpp:79-138 | running queued calls is calling them locally one after the other |
| `Compressor.InPlaceExactly` | src/examples/imgproc/src/MonochromeCompressor.cpp:178-214 | no write lands on a pixel still to be read if and only if there is room for a row of output per row of blocks |
| `Compressor.FittingOutputHasRoom` | src/examples/imgproc/src/MonochromeCompressor.cpp:178-214 | with blocks for all rows, an output no longer than the input is enough |
| `Compressor.CollectBlock` | src/examples/imgproc/src/MonochromeCompressor.cpp:195-207 | the inner loops visit the block's pixels row by row |
| `Compressor.DownsampleInPlace` | src/examples/imgproc/src/MonochromeCompressor.cpp:178-214 | every byte written is the average over the original image, and nothing behind the output changes |
| `Compressor.HeightsOkExactly` | src/examples/imgproc/src/MonochromeCompressor.cpp:105-112 | no process has a negative part height if and only if the last one starts inside the image |
| `Compressor.HeightsOkForFewProcesses` | src/examples/imgproc/src/MonochromeCompressor.cpp:105-112 | no more processes than output rows, with the last output row inside the image, is enough |
| `Compressor.NarrowerOutputFits` | src/examples/imgproc/src/MonochromeCompressor.cpp:102-117 | compressed width at most the width, with the last output row inside the image, makes the output fit on every process |
| `Compressor.PartAverage` | src/examples/imgproc/src/MonochromeCompressor.cpp:102-117 | a process's averages over its rows are the whole image's in the right places |
| `Compressor.BspCompress` | src/examples/imgproc/src/MonochromeCompressor.cpp:102-222 | one process's data and offset, in raw mode |
| `Compressor.SameResultForEveryP` | src/examples/imgproc/src/MonochromeCompressor.cpp:184-222 | the gathered result is the same compressed image for every number of processes, and equals the one-process result |
| `Compressor.ByteAverages` | src/examples/imgproc/src/MonochromeCompressor.cpp:184-214 | each byte of that image is the average of exactly the pixels of its block, row by row |
| `Compressor.EveryPixelOnce` | src/examples/imgproc/src/MonochromeCompressor.cpp:102-117 | every pixel of the image is averaged into exactly one byte |
| `Compressor.LeastBlocks` | src/examples/imgproc/src/MonochromeCompressor.cpp:102-103 | the blocks are the least that reach the whole image |
| `Compressor.RegisteredPartsTile` | src/examples/imgproc/src/MonochromeCompressor.cpp:210-222 | the registered parts tile the compressed image |
| `ImageHash.TablesSizedRight` | src/examples/imgproc/src/ImageDatabase.cpp:26-35 | every process's table has its share of the buckets if and only if no process starts behind the last one |
| `ImageHash.LeastHashBlock` | src/examples/imgproc/src/ImageDatabase.cpp:26-30 | a block is the least with which the processes reach all buckets |
| `ImageHash.FewProcessesConstruct` | src/examples/imgproc/src/ImageDatabase.cpp:26-35 | that holds up to 111 processes and fails for 200 |
| `ImageHash.OwnerHasBucket` | src/examples/imgproc/src/ImageDatabase.cpp:208-222 | every hash value has exactly one owner, and its index is inside the owner's table |
| `ImageHash.BucketIsSet` | src/examples/imgproc/src/ImageDatabase.cpp:219-260 | after any inserts a bucket lists each inserted image with its hash once, and nothing else |
| `ImageHash.IndexIsASet` | src/examples/imgproc/src/ImageDatabase.cpp:169-262 | over all buckets, an image stands exactly once if it was inserted and not at all if not |
| `ImageHash.EveryInsertKept` | src/examples/imgproc/src/ImageDatabase.cpp:228-228 | thumbnails over all processes number the inserts, repeats included |
| `ImageIndex.ImageDatabase.constructor` | src/examples/imgproc/src/ImageDatabase.cpp:18-108 | starts empty, with every table sized |
| `ImageIndex.ImageDatabase.ExchangeHashes` | src/examples/imgproc/src/ImageDatabase.cpp:181-195 | every process ends with all parts' hashes |
| `ImageIndex.ImageDatabase.GatherAtOwner` | src/examples/imgproc/src/ImageDatabase.cpp:201-213 | all processes pick the same owner, and in any order of arrival its buffer becomes the image |
| `ImageIndex.ImageDatabase.InsertImage` | src/examples/imgproc/src/ImageDatabase.cpp:140-262 | the tables are those that the inserts so far, and this one, should leave |
| `ImageIndex.ImageDatabase.ImageExists` | src/examples/imgproc/src/ImageDatabase.cpp:469-541 | 1 if and only if the image was inserted; the tables are unchanged |
| `ImageIndex.ImageDatabase.Serve` | src/examples/imgproc/src/ImageDatabase.cpp:121-262 | over any list of inserts and queries the answers are those of a plain set |

## Left out

- MPI, pthread and BSP calls: modelled as FIFO channels, an atomic lock, wait and broadcast, and puts and gets in effect at the next sync. Blocking sends, fairness and liveness are not modelled, apart from lost wakeups.
- 64-bit wrap-around of `offset + size`, and the conversion of message sizes and vector offsets to `int` outside `div_range` and the call message, are not modelled.
- DistributeRoundTrip.BlockDistributeThenGetPart: the client is a process that owns no part, as rank 0 is; `sendDistrVector` shares the management tag, so a client that runs a server is outside the promise. Lengths are those that `div_range` can partition.
- GetPart.ReadStoredResult: the copy only; the wait before it is modelled, step by step, in ResultMonitor.
- GetPart.DvGetPart: requests are sent owner by owner in the order in which owners first appear, where the source walks a sorted map; the result is proved for replies as they arrive per owner.
- PartLife.EveryRequestAnswered: a part is stored or prepared at most once, as keys are drawn from a counter; requests for it are answered to their sender.
- RequestOrder.RepliesInRequestOrder: one request at a time, from a client with nothing queued at the server, and none of its parts released before the replies.
- FutureServer.ActorServer.HandleFetch: models the head process; the other processes go straight to `fetchDv`.
- Redistribution.FetchDv: the forwarding of the message and of the distribution inside the actor is taken as done, and a part that is not there is the source's assertion. Lengths are those that `div_range` can partition.
- The part half and the future half of `ActorServer` are two classes, since no handler of one touches the maps of the other except through the messages modelled.
- ReceiveBuffer.Process.ReceiveActorMessage: messages are not empty, since every message has an instruction. A queued call's copy is never freed by the source either.
- GatherParts.GatherExact: all processes register the same number of parts, as the function assumes. BSP gets are modelled on values.
- BroadcastDv.BroadcastExact: two or more processes, with a buffer long enough to hold its own count.
- Serialization.DeserializeExact: None stands for reading behind the buffer, which the source does not check.
- CallPath.RemoteCallIsLocalCall: fewer than 2^31 keys are drawn and the client's proxy passes arguments of the function's types; functions are deterministic in the actor object and their arguments.
- Boost archives: non-contiguous arguments, distributions and futures are taken to survive serialization.
- Compressor.BspCompress: raw mode only; the block average is any function of the block's rows of pixels, so floating-point rounding is not modelled; headers are not modelled; requires the buffer to hold the output, which the stated sizes give.
- ImageIndex.ImageDatabase.constructor: the image size is set once; after a change of size the source compares images of different lengths. Images have the configured size, and hashing is any pair of functions.
- Saving and loading the database, `insertSeq` and `bsp_insert_seq`, JPEG and file code, logging and timing.
- Process allocation, SPMD function numbering, creating and stopping actors, singletons, macros and template plumbing: no property beyond their definitions.
- The direct-future path and `writeStoredResult`, which nothing uses.
