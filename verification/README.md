# servd: a verified model of its protocols

servd is a coroutine server over io_uring. This project models, in Dafny 4.11, the parts of it whose
correctness depends on order and interleaving, and proves properties of them that hold for every input,
every schedule and every reachable state:

- **Joining coroutines** (`WhenAll.dfy`): `when_all` resumes its caller exactly once.
- **Offloading work** (`WorkerPool.dfy`, `PostQueue.dfy`, `Offload.dfy`, `OffloadProgress.dfy`,
  `OffloadLimits.dfy`): the worker pool, the event loop's post queue, their composition through the rendezvous
  of `enqueue`, and exactly when every call is answered.
- **Connections** (`Connections.dfy`): session registry, admission control, discovery pausing.
- **Framing** (`Bytes.dfy`, `BinaryFraming.dfy`, `TextFraming.dfy`): the two wire formats over a stream that
  arrives in arbitrary pieces.
- **Commands** (`Commands.dfy`, `Routing.dfy`): routing, key exchange and the encrypted tunnel, and exactly what
  one request does, told from the bytes that arrive.
- **Requests** (`Requests.dfy`, `StaleCommits.dfy`, `Authentication.dfy`, `KeyHistory.dfy`): requests as
  interleaved transactions on the session store, exactly when they serialise, and what that means for
  authentication and for session keys.
- **Messages to sessions** (`Broadcast.dfy`): broadcasts over a snapshot of the registry.

`dafny verify dfyconfig.toml` checks everything. `Options.dfy` holds what all modules share.

## How to read the models

Concurrent and suspended code is a state machine: a `State` datatype, a `Step` datatype, `Enabled` and
`Apply`. A step is one critical section, one notification, or the code between two suspension points. A
*schedule* is a sequence of steps; `Legal` says each is enabled when taken and `After` is the state it leads
to. Lemmas about all schedules are lemmas about all interleavings. Beside each machine stands a class with the
source's fields, whose methods are the source's functions (cut at their suspension points) and whose contracts
say that they perform exactly the steps of the machine. Fields such as `pushed`, `delivered`, `continued` or
`log` record history, so that "exactly once" and "earlier" can be said.

Facts about the code that the theorems respect:

- Session id 2^64-1 is the "no session yet" sentinel, and id 0 is not unregistered when a connection switches
  away from it. Registry soundness is proved for all other ids, and proved to fail for these two.
- `remaining` in `when_all` is an `int`. The join is proved correct exactly for the sizes an `int` can hold.
- A throwing disconnect hook ends the detached coroutine before `close`: the descriptor stays open and counted.
  So does a handler that throws anything but a `std::exception`, which the client loops do not catch; then the
  registry entry stays too. Registry soundness is proved exactly for runs where this does not happen to the
  registered connection.
- `drain_pending_posts` runs once per loop turn, before the loop blocks. A post that overflowed afterwards waits
  for the next completion, which exists because the ring was full, but may be I/O that takes its time.
- Messages to sessions are binary frames even on text connections, and go to the descriptors of a snapshot.
- A server that starts with discovery off has it on after its first reopening: a close after a refusal re-enables it.
- The client key exchange follows the code and `examples/test_encryption.py`: the raw shared secret is the AES
  key (`docs/guide/encryption.md` speaks of SHA-256), and an envelope is nonce, tag, ciphertext. Text requests
  have two words in their first line, as in the main README (`docs/protocol.md` shows three).

Assumptions, each a parameter or a stated condition of the lemmas:

- Access to the ring is atomic (the loop's own submissions do not take the mutex that posts take), and
  submissions by coroutines for their own I/O find a free submission entry. A submitted no-op completes, whether
  or not the kernel has taken over other entries.
- A coroutine suspended on an operation is not destroyed before the operation completes.
- A write delivers its whole buffer or raises; a receive never reports a timer expiry.
- AES-GCM and X25519 satisfy the contracts of section 5.2 of RFC 5116 and section 6.1 of RFC 7748; both
  contracts are shown satisfiable. Random numbers are parameters.
- Handlers and authenticators change sessions through the session's setters, none of which changes the id.
- The kernel returns a descriptor from `accept` only while it is not open. The host is little-endian.

## Model

| member | source | states |
|---|---|---|
| WhenAll.CallerResumedAtMostOnce | include/servd/Task.hpp:64-76 | on every schedule the caller is resumed at most once, only with every wrapper at its final suspend point, and never waits with launch over and nothing remaining |
| WhenAll.EveryStepMakesProgress | include/servd/Task.hpp:340-346 | every step uses up one of finitely many, so every schedule ends |
| WhenAll.CompleteScheduleResumesOnce | include/servd/Task.hpp:340-346 | a schedule that cannot go on has resumed the caller exactly once, for any number of tasks including zero and any mix of early and late completions |
| WhenAll.EveryTaskFinishedOnce | include/servd/Task.hpp:326-332 | when the caller continues, every task has finished exactly once |
| WhenAll.ValuesInTaskOrder | include/servd/Task.hpp:348-359 | without failures the results follow task order whatever the completion order; no empty slot is read and no unfinished wrapper destroyed |
| WhenAll.LastFailureRethrown | include/servd/Task.hpp:82-99 | with failures the caller rethrows the one that completed last |
| WhenAll.OversizedJoinFails | include/servd/Task.hpp:317-321 | with more tasks than an `int` counts, the caller is never resumed or reads slots nobody filled |
| WhenAll.JoinsExactlyUpToIntMax | include/servd/Task.hpp:311-332 | joining works on every schedule and for all outcomes if and only if the number of tasks fits an `int` |
| WhenAll.Join.constructor | include/servd/Task.hpp:317-332 | the setup loop builds one slot per task and one wrapper per `int` turn |
| WhenAll.Join.FinishOne | include/servd/Task.hpp:69-99 | the wrapper epilogue performs the finish step and transfers exactly when it resumes the caller |
| WhenAll.Join.AwaitSuspend | include/servd/Task.hpp:340-346 | the launch loop, with any completions during it, ends in the state of the corresponding schedule and reports suspension correctly |
| WhenAll.Join.Collect | include/servd/Task.hpp:348-359 | the collecting loops compute what the lemmas about results speak of |
| WorkerPool.NeverSleepsOnWork | include/servd/ThreadPool.hpp:133-148 | with at least one worker, queued work without a notification to come means some worker is awake; after the destructor's broadcast nobody is left asleep |
| WorkerPool.JobsConservedInOrder | include/servd/ThreadPool.hpp:72-103 | jobs are dequeued first in, first out, and each pushed job is queued, run by one worker or finished once, exclusively |
| WorkerPool.JoinedPoolRanEveryJobOnce | include/servd/ThreadPool.hpp:43-53 | when the destructor's joins return every pushed job has run exactly once, even one pushed by a running job after other workers left |
| WorkerPool.EmptyPoolRunsNothing | include/servd/ThreadPool.hpp:32-41 | a pool without threads never runs a job |
| WorkerPool.ThreadPool.constructor | include/servd/ThreadPool.hpp:32-41 | the thread-starting loop gives the initial pool |
| WorkerPool.ThreadPool.Notify | include/servd/ThreadPool.hpp:103 | waking one sleeper, if any, is the notify step |
| WorkerPool.ThreadPool.WaitAndTake | include/servd/ThreadPool.hpp:137-145 | the locked part of the worker loop sleeps, exits or takes the front job |
| WorkerPool.ThreadPool.Broadcast | include/servd/ThreadPool.hpp:48 | `notify_all` wakes exactly the sleepers |
| PostQueue.OperationsConserved | src/UringEngine/EngineCore.cpp:46-73 | every operation is in exactly one of pending queue, ring and delivered, and delivered exactly once when both are empty |
| PostQueue.RunTouchesOnlyLiveOperations | src/UringEngine/EngineCore.cpp:93-109 | `run` never touches or deletes a dead operation, deletes each delivered owned one exactly once and never one living in a coroutine frame |
| PostQueue.PostsNeverLostExactlyWithEntries | src/UringEngine/EngineCore.cpp:46-96 | a post that overflows after the drain is never left waiting for a blocked loop that no completion will wake, in all runs, if and only if the ring has an entry |
| PostQueue.NextTurnDrains | src/UringEngine/EngineCore.cpp:93-97 | an interrupted wait or a returned coroutine leads to the next drain, which gets overflowed posts out before the loop can block if an entry is free |
| PostQueue.OverflowKeepsOrder | src/UringEngine/EngineCore.cpp:52-73 | in every run the operations drained so far followed by those queued are exactly the overflowed posts in the order they were made |
| PostQueue.DrainIsPrefix | src/UringEngine/EngineCore.cpp:62-73 | draining submits exactly a prefix of the pending queue, in order, however the kernel takes entries meanwhile |
| PostQueue.Engine.PostCoroutine | src/UringEngine/EngineCore.cpp:46-60 | posting submits to the ring, or appends to the overflow queue exactly when no entry is free |
| PostQueue.Engine.DrainPendingPosts | src/UringEngine/EngineCore.cpp:62-73 | the drain loop terminates having moved a prefix, with the queue empty or the ring full, which is when the loop may block |
| PostQueue.Engine.Dispatch | src/UringEngine/EngineCore.cpp:96-104 | the first half of a loop turn is the deliver step and yields the operation's own coroutine |
| PostQueue.Engine.Complete | src/UringEngine/EngineCore.cpp:105-108 | the second half deletes the operation only if the saved flag says it is owned |
| Offload.ContinuesAtMostOnceOnLoopThread | include/servd/ThreadPool.hpp:74-126 | over every interleaving a coroutine awaiting `enqueue(f)` continues at most once, on the loop thread, with the outcome of its own `f` |
| Offload.DoneMeansNoSuspension | include/servd/ThreadPool.hpp:108-117 | whenever the awaiter finds the job done the coroutine goes on at once with its outcome, and only then |
| Offload.DrainedMeansAllContinued | src/UringEngine/EngineCore.cpp:46-109 | once queue and ring are drained every awaiting coroutine has continued exactly once with its own outcome |
| Offload.WithoutCallbackAWorkerResumes | include/servd/ThreadPool.hpp:95-100 | without the post callback a worker thread does resume the coroutine itself |
| Offload.Rendezvous.CompleteCall | include/servd/ThreadPool.hpp:78-100 | the worker's critical section records the outcome and posts exactly if a waiter was there |
| Offload.Rendezvous.Resume | include/servd/ThreadPool.hpp:119-123 | the awaiter gets the exception if there is one, else the value |
| OffloadProgress.SystemRunsAreBounded | src/UringEngine/EngineCore.cpp:93-109 | without new calls the system takes at most a computed number of steps, in any order |
| OffloadProgress.QuietMeansDrained | include/servd/ThreadPool.hpp:103-148 | with a worker and a ring entry, a reachable state in which the system cannot move is drained: no deadlock, no lost wake-up, no post lost behind a blocked loop |
| OffloadProgress.RestMeansEveryCallAnswered | include/servd/ThreadPool.hpp:74-126 | when the system comes to rest each coroutine has continued exactly once with its own outcome |
| OffloadProgress.NoWorkersNoAnswers | src/serveur/ServerLifecycle.cpp:210-216 | with no worker threads no call is ever answered |
| OffloadLimits.AnsweredExactlyWithWorkersAndEntries | src/UringEngine/EngineCore.cpp:30-31 | if all I/O completes, every call is answered at rest on every schedule if and only if there is a worker and a ring entry |
| OffloadLimits.IdleAnsweredExactlyIfNonePending | src/UringEngine/EngineCore.cpp:93-96 | with I/O possibly outstanding for ever, every call is answered at rest if and only if the overflow queue is empty |
| OffloadLimits.PostCanWaitForIo | src/UringEngine/EngineCore.cpp:52-54 | for every number of workers and entries some run leaves a call unanswered until outstanding I/O completes |
| Connections.SoundExactlyIfNeverOrphaned | src/UringEngine/ClientHandlers.cpp:29-58 | in every run the entry of an id other than 0 and 2^64-1 always points to an open, serving connection on that id, if and only if no exception outside `std::exception` ends the connection registered for it |
| Connections.RegistrySound | src/UringEngine/ClientHandlers.cpp:29-58 | two such entries never share a descriptor |
| Connections.EscapeLeavesEntry | include/servd/Task.hpp:279 | a handler that throws something else leaves the entry of a regular id pointing to a descriptor nobody serves |
| Connections.SoundExactlyForRegularIds | src/UringEngine/ClientHandlers.cpp:40-58 | the entry of an id is sound in all runs that do not orphan it if and only if the id is neither 0 nor 2^64-1 |
| Connections.CompleteExactlyIfNeverShared | src/UringEngine/ClientHandlers.cpp:38-58 | every serving connection on a regular id is always the one its entry names, if and only if the id is never shared |
| Connections.RegistryCompleteAt | src/UringEngine/ClientHandlers.cpp:38-58 | as long as an id is neither shared nor orphaned its entry exists exactly while a serving connection is on it, and names that connection |
| Connections.RegistryExact | src/UringEngine/ClientHandlers.cpp:90-109 | if no frame uses the two special ids and no id is shared or orphaned, the registry is exactly the map of serving connections' ids to descriptors |
| Connections.SharingLosesTheEntry | src/UringEngine/ClientHandlers.cpp:57-58 | two connections on one id: when one leaves the other is no longer registered |
| Connections.RegistryIsLastSwitch | src/UringEngine/ClientHandlers.cpp:40-58 | for every id and every run the registry names the connection that last switched to the id and has not been unregistered since |
| Connections.RepeatedSessionChangesNothing | src/UringEngine/ClientHandlers.cpp:40 | a frame on the session its connection named last changes nothing, so it cannot take an entry back |
| Connections.AcceptExactly | src/UringEngine/ClientHandlers.cpp:125-139 | in every run an accept on a full server pauses discovery and changes nothing else, any other adds exactly one serving connection without a session |
| Connections.AdmissionControlled | src/UringEngine/ClientHandlers.cpp:125-139 | the counter equals the number of admitted descriptors not yet closed and never exceeds the limit, even with throwing handlers and disconnect hooks |
| Connections.PausedOnlyWhileFull | src/UringEngine/ClientHandlers.cpp:67-74 | discovery is paused only while the server is exactly full, and any close restores it |
| Connections.PausedExactlySinceRefusal | src/UringEngine/ClientHandlers.cpp:67-74 | responses are paused exactly if an accept was refused since the last close; discovery follows them, except that one that was off at the start comes on at the first reopening |
| Connections.CloseExactly | src/UringEngine/ClientHandlers.cpp:67-74 | in every run a close frees the descriptor, counts down and makes discovery answer again if a refusal had paused it |
| Connections.ConnectionsAreIsolated | src/UringEngine/ClientHandlers.cpp:25-75 | a step touches no connection but its own, whose descriptor and protocol never change and which only a close removes |
| Connections.HookRunsExactly | src/UringEngine/ClientHandlers.cpp:60-65 | the disconnect hook runs exactly for binary connections whose last named session is not 2^64-1 |
| Connections.UncaughtExactly | include/servd/Task.hpp:279 | an uncaught exception abandons its connection and changes nothing else |
| Connections.AbandonedForever | src/UringEngine/ClientHandlers.cpp:60-68 | after it the descriptor stays open and counted in every continuation |
| Connections.Engine.OnAccept | src/UringEngine/ClientHandlers.cpp:125-139 | an accept refuses and pauses discovery, or admits and counts |
| Connections.Engine.OnFrame | src/UringEngine/ClientHandlers.cpp:40-44 | a frame switches the session and updates the registry |
| Connections.Engine.OnLeave | src/UringEngine/ClientHandlers.cpp:57-58 | leaving the loop unregisters before any hook runs |
| Connections.Engine.OnClose | src/UringEngine/ClientHandlers.cpp:67-74 | closing counts down and re-enables discovery when there is room |
| Bytes.CopyInto | src/UringEngine/ConnectionImpl.cpp:25-29 | a copy changes exactly the bytes it covers |
| Bytes.LittleEndianDecodes | include/servd/Protocol.hpp:32-39 | fixed-width integers survive their byte representation |
| BinaryFraming.HeaderRoundTrip | include/servd/Protocol.hpp:32-39 | headers and 16-byte strings correspond one to one |
| BinaryFraming.HeaderLayout | include/servd/Protocol.hpp:32-39 | the place and byte order of every header field on the wire |
| BinaryFraming.ReadIsFaithful | src/UringEngine/FrameIO.cpp:41-54 | a frame read is the frame on the wire, and a read raises exactly when the bytes start with no whole frame |
| BinaryFraming.FramesRoundTrip | src/UringEngine/ConnectionImpl.cpp:22-31 | any list of frames is read back exactly, and reading goes on with what follows |
| BinaryFraming.TruncatedStream | src/UringEngine/IoUring.cpp:68-79 | a stream cut anywhere yields exactly the frames wholly before the cut, never a partial one |
| BinaryFraming.PayloadSurvivesExactlyBelow4GiB | src/UringEngine/CommandRoute.cpp:70-71 | a payload survives the 32-bit length field if and only if its size does |
| BinaryFraming.Socket.Recv | src/UringEngine/IoUring.cpp:44-54 | a receive takes a non-empty piece of what will arrive, nothing only at the end |
| BinaryFraming.ReadExact | src/UringEngine/IoUring.cpp:68-79 | for every way the bytes arrive the buffer gets exactly the next bytes, or the read raises when they do not exist |
| BinaryFraming.ReadFrame | src/UringEngine/FrameIO.cpp:41-54 | one frame is read, and exactly its bytes are consumed |
| BinaryFraming.ReadFrames | src/UringEngine/ClientHandlers.cpp:31-53 | the reading loop returns the frames of the stream, for every split into pieces |
| BinaryFraming.BuildFrame | src/UringEngine/ConnectionImpl.cpp:22-31 | the send buffer is header then payload |
| BinaryFraming.DatagramParsed | src/UringEngine/ClientHandlers.cpp:154-167 | a datagram with a whole frame gives that frame, trailing bytes ignored; a cut one gives the part that arrived with a corrected length |
| BinaryFraming.DatagramIsFaithful | src/UringEngine/ClientHandlers.cpp:154-167 | exactly the datagrams shorter than a header are dropped; the payload is as much as was both promised and sent |
| TextFraming.NumberedRequestRoundTrip | src/UringEngine/FrameIO.cpp:56-90 | every command, session and newline-free payload printed as a two-line request is read back, for any registered names |
| TextFraming.PayloadSurvivesExactlyWithoutNewline | src/UringEngine/FrameIO.cpp:82-89 | a text payload survives if and only if it has no newline and fewer than 2^32 bytes |
| TextFraming.PlainNamesAreUsable | src/UringEngine/FrameIO.cpp:28-34 | a non-empty name without white space that does not start with a digit can be used |
| TextFraming.NameResolvesExactlyWhenUsable | src/UringEngine/FrameIO.cpp:22-38 | a name resolves to its id in every table if and only if it is non-empty, free of white space and not read as a 16-bit number |
| TextFraming.RequestsRoundTrip | src/UringEngine/FrameIO.cpp:70-90 | any list of text requests, by number or name, decodes to exactly its frames |
| TextFraming.CommandWordExactly | src/UringEngine/FrameIO.cpp:26-34 | leading digits that fit 16 bits are the command, whatever follows and whatever names exist; any other word is looked up |
| TextFraming.SessionFieldExactly | src/UringEngine/FrameIO.cpp:36 | how the rest of the line is read: white space, sign, digits, overflow, nothing |
| TextFraming.AnyWhiteSpaceSeparates | src/UringEngine/FrameIO.cpp:25-36 | any white-space character separates command and session |
| TextFraming.InvalidHeaderGivesZeroFrame | src/UringEngine/FrameIO.cpp:73-79 | an unknown first word gives the all-zero frame, with exactly that line consumed |
| TextFraming.DecimalPositional | src/UringEngine/ConnectionImpl.cpp:40-42 | numbers are printed in base ten without leading zeros |
| TextFraming.ResponsesUnambiguous | src/UringEngine/ConnectionImpl.cpp:36-51 | printed responses determine command, flags, session and newline-free payload uniquely |
| TextFraming.LineExactly | src/UringEngine/FrameIO.cpp:56-68 | a line ends at the first newline, which is consumed; a stream without one has no line |
| TextFraming.ReadLine | src/UringEngine/FrameIO.cpp:56-68 | the byte loop returns the text up to the next newline and consumes exactly that |
| TextFraming.ReceiveTextFrame | src/UringEngine/FrameIO.cpp:70-90 | one text frame is read; an invalid header yields the zero frame after one line |
| TextFraming.BuildResponse | src/UringEngine/ConnectionImpl.cpp:36-51 | the stream operations print the response format |
| Commands.EnvelopeReorders | src/UringEngine/EncryptedHandler.cpp:39-45 | moving the tag on the wire and back loses nothing, in both directions |
| Commands.EnvelopeRoundTrip | src/UringEngine/EncryptedHandler.cpp:37-57 | what is sealed under a key opens under it to the same command and payload |
| Commands.TunnelSimulatesPlain | src/UringEngine/EncryptedHandler.cpp:34-109 | for every command outside the reserved ids the encrypted path has the verdict, handler context, session, events and completion of the plain path, and replies exactly when it does, opening to the plain reply |
| Commands.SimulationExactlyOutsideReservedIds | src/UringEngine/CommandRoute.cpp:74-84 | the simulation holds for all environments if and only if the command is not one of the two reserved ids |
| Routing.PlainExactly | src/UringEngine/CommandRoute.cpp:48-72 | on the plain path the handler is called exactly if the command is routed and the gate admits the request, with the frame and the loaded session; the reply carries its answer and is read back whole |
| Routing.TunnelExactly | src/UringEngine/EncryptedHandler.cpp:34-109 | an envelope without a key, too short, refused by the cipher or without a command has no effect; any other routes exactly the command and payload the cipher gave, and the answer is sealed under the same key and a nonce of its own |
| Routing.KeyExchangeExactly | src/UringEngine/CommandRoute.cpp:23-46 | a payload that is not 32 bytes has no effect, a refused public key ends the request, any other sets the secret and replies in a frame of length 32 that is read back whole |
| Routing.KeyExchangeAgrees | src/UringEngine/CommandRoute.cpp:28-45 | the key the client derives from the frame it reads off the wire is the one the server stored, and what follows is read from its first byte |
| Commands.Decrypt | src/UringEngine/EncryptedHandler.cpp:34-58 | the buffer copies feed the cipher ciphertext then tag; the result is the first two bytes and the rest of what it gave back, and nothing in every other case |
| Commands.SealResponse | src/UringEngine/EncryptedHandler.cpp:80-94 | the buffer copies lay out nonce, tag, ciphertext of command and response sealed under that nonce |
| Requests.RequestsAreIsolated | include/servd/store/InMemorySessionStore.hpp:23-36 | a request changes no other session's entry, only a commit changes an existing one, an abort changes nothing |
| Requests.FreshCommitsSerialise | src/UringEngine/ClientHandlers.cpp:38-49 | if no request is saved after another commit on its session since its load, the store equals executing the committed requests one by one, for every interleaving |
| Requests.NonOverlappingRequestsSerialise | src/UringEngine/ClientHandlers.cpp:38-49 | requests on one session that never overlap meet that condition, so they serialise |
| StaleCommits.SerialExactlyIfNoStaleCommit | include/servd/store/InMemorySessionStore.hpp:23-36 | for requests that each lengthen the user name by a byte the store is serial if and only if no stale copy was saved |
| Requests.OverlapLosesAnUpdate | src/UringEngine/ClientHandlers.cpp:171-173 | overlapping requests on one session can lose a committed key exchange |
| Requests.InMemorySessionStore.Load | include/servd/store/InMemorySessionStore.hpp:23-31 | loading copies the entry, creating it if absent |
| Authentication.HandlerRunsExactlyWhenEntitled | src/UringEngine/CommandRoute.cpp:53-68 | with the default authenticator, on both paths: the handler is called if and only if what the frame asks for is routed, the loaded session is authenticated where required and the transport is allowed; otherwise the request has no effect |
| Authentication.StartsExactlyWhenEntitled | include/servd/auth/DefaultAuthenticator.hpp:20-22 | in any run a request that goes ahead starts its handler if and only if the copy it loaded entitles it to |
| Authentication.HandlersRunOnlyWhenEntitled | include/servd/auth/DefaultAuthenticator.hpp:20-22 | in any interleaved run a handler requiring authentication starts only after an earlier call on that session turned it on, and every handler only on an allowed transport |
| KeyHistory.OnlyKeyExchangeSetsKeys | src/UringEngine/CommandRoute.cpp:74-84 | if handlers leave the key alone only a plain key exchange changes it |
| KeyHistory.KeyPersists | src/UringEngine/ClientHandlers.cpp:38-49 | a key in the store and in all copies in flight stays there until the next exchange, whatever is interleaved |
| KeyHistory.ClientMessagesOpen | src/UringEngine/CommandRoute.cpp:28-45 | after a saved, non-overlapped key exchange and until the next one the stored key is the one the client derived from the bytes it received, and every envelope it seals opens to the exact command and payload |
| Broadcast.EachTargetServedOnce | src/UringEngine/SessionBroadcast.cpp:39-55 | each session registered at the start gets exactly one frame, which decodes to the command, payload and its own id; there are no others |
| Broadcast.ChosenExactly | src/UringEngine/SessionBroadcast.cpp:57-77 | the conditional form targets exactly the sessions satisfying the predicate when visited, each once |
| Broadcast.UnchosenVisitCreatesEntry | src/UringEngine/SessionBroadcast.cpp:64-66 | visiting a target that is not chosen changes the store only by creating a fresh entry for an unknown session |
| Broadcast.DeliveryReachesExactly | src/UringEngine/SessionBroadcast.cpp:40-53 | whatever happens between copy and write, a broadcast frame reaches a client on a regular, unshared, unorphaned session if and only if the registry then maps that session to the copied descriptor |
| Broadcast.SnapshotCanReachAStranger | src/UringEngine/SessionBroadcast.cpp:40-53 | a descriptor reused during the broadcast carries the old session's frame to a client on another session and to none on its own |
| Broadcast.ReadableExactlyOnBinaryConnections | src/UringEngine/SessionBroadcast.cpp:42-53 | a message to a session is readable exactly on connections that do not speak the text protocol |
| Broadcast.Messenger.SendTo | src/UringEngine/SessionBroadcast.cpp:20-37 | a registered session gets one frame, an unknown one nothing |
| Broadcast.Messenger.DoBroadcast | src/UringEngine/SessionBroadcast.cpp:39-55 | whatever happens to the registry meanwhile the targets are the snapshot's, and a failed write leaves exactly the earlier ones served |
| Broadcast.Messenger.DoBroadcastIf | src/UringEngine/SessionBroadcast.cpp:57-77 | the same for the targets chosen at their visits |

## Left out

- The variadic `when_all`, which differs from the vector form only in how slots are typed, and plain `Task` continuation transfer.
- A null submission entry for a coroutine's own I/O: the source dereferences it, the model assumes there is room.
- The end of the event loop on a signal or `stop`, after which nothing is resumed.
- The end of an accept or datagram loop by an exception other than `std::exception`.
- Completion results of I/O operations other than receives, and timers, polls and D-Bus monitoring.
- Rendezvous locks are not separate steps: each critical section is one step, and the worker that holds one while posting is overlapped with everything, which allows more interleavings than the source.
- Use of the thread pool by outside threads while its destructor runs: after the stop flag is set only running jobs push.
- BinaryFraming.Socket.Recv: a receive that fails is not distinguished from the end of the stream, because both raise to the caller.
- TextFraming.NumberedRequestRoundTrip: number extraction follows the C++ library's classic locale; other locales are not modelled.
- Connections: a missing session store, which ends the connection before the registry is touched, is the leave step.
- Commands: the context's property bag, remote addresses and log messages; frames a handler pushes are recorded but not interleaved with its other effects.
- Requests: session stores other than the in-memory one.
- Broadcast.Messenger.DoBroadcastIf: a missing session store, which skips every target, is not modelled; initialisation always installs one.
- Socket setup, signals, configuration files, logging, discovery packet contents.
