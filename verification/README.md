# Low-latency building blocks: a Dafny model

This project models the stateful components of a C++20 library for latency-sensitive systems and proves what they
keep over whole runs: a single-producer single-consumer ring queue, an asynchronous logger built on it, a
fixed-size memory pool, a TCP socket with fixed send and receive buffers, and an epoll server that owns many such
sockets.

Two kinds of model are used.

* **Two threads.** The queue and the logger are transition systems in which one step is one atomic access, or one
  half of a plain access to a slot. All atomics in the source have the default sequentially consistent order, so
  a run is an arbitrary interleaving. Theorems quantify over every schedule.
* **One thread.** The pool, the socket, the server and the queue as one thread sees it are classes whose methods
  update fields, arrays and lists in place. Each method is proved equal to a function on values, and the
  properties are proved of those functions for all inputs and all sequences of calls.

The kernel, the allocator and the callbacks are inputs: lists of answers, cut down to what their contract
allows (never more bytes than were asked for, never a descriptor that is already open or an address that is
already live, events for registered pointers only). A statement for all inputs therefore covers every behaviour of
the environment, and no function needs a precondition about it. Number formatting by the file stream is a function
parameter.

| file | content |
|---|---|
| `Prelude.dfy` | optional values, sequences of sequences |
| `SpscQueue.dfy` | ring arithmetic; the queue one access at a time and its invariant |
| `SpscRuns.dfy` | every interleaving: slot safety, conservation, linearizability |
| `LFQueue.dfy` | the queue class; one-thread push and flush loops of the logger |
| `LogElements.dfy` | tagged elements, the push overloads, rendering |
| `LogFormat.dfy` | the percent-format expander: round trip, arity, text |
| `LoggerProtocol.dfy` | application thread, background thread and shutdown as a transition system |
| `LoggerLiveness.dfy` | termination under every fair schedule |
| `LoggerEndToEnd.dfy` | from log calls to file contents |
| `PoolSpec.dfy`, `MemPool.dfy` | the memory pool on values, and the class |
| `TcpSocketSpec.dfy`, `TcpSocket.dfy` | the socket on values, and the class |
| `TcpLink.dfy` | two sockets joined by two byte streams |
| `TcpServerSpec.dfy`, `TcpServerRuns.dfy`, `TcpServer.dfy` | the server on values, its runs, and the class |
| `TcpServerExact.dfy` | exactly what accept, poll and listen do with what they are handed |
| `TcpServerClients.dfy` | each client of a run as one connection with its own history |

## Main results

* **Queue.** For every interleaving the observable results form a legal history of a bounded FIFO queue, taking
  effect at the count updates, including the windows in which an index has moved and the count has not
  (`Linearizable`); a slot handed to a thread is its alone, unchanged, until that thread publishes or releases it
  (`SlotSafety`, `GrantIsStable`, `HoldEndsAtUpdate`); what was released followed by the ring contents is exactly what was published (`Conservation`).
* **Logger.** For every list of calls, every capacity and every interleaving, the file is always a beginning of the
  calls' texts, and all of it once the destructor returns (`EndToEnd`). Under every fair schedule the destructor
  does return and the background thread exits, even when one message is longer than the queue
  (`FairTermination`, `EndToEndTotal`).
* **Format strings.** Reading is a bijection between NUL-free strings and canonical segment lists
  (`ReadingIsBijective`); the two assertions are passed exactly when holes and arguments are equally many
  (`Arity`).
* **Pool.** The pool refines a plain map of live objects, its search never fails, `k` allocations with `k` free
  slots return exactly those slots in cyclic order and the next one fails (`AllocationOrder`), and objects destroyed
  are exactly the objects constructed (`ConstructedOnceDestroyedOnce`).
* **Sockets.** Bytes accepted by the kernel followed by the send buffer are always the successful sends in order
  (`SendConservation`); every effect of one call, and every disconnect flag, is told exactly from the inputs
  (`TurnExact`, `FlagsSinceOpening`); across a connection, what one callback saw, what is in flight and what is
  buffered always concatenate to what the other side sent, both ways at once (`ConnectionIsFaithful`); and whatever else happens,
  a bounded number of rounds in which the sender gets room once and the receiver gets data once delivers everything
  sent so far (`FairDelivery`).
* **Server.** At the end of every call of every run the receive list equals the owning list, which holds the clients
  in the order in which they were accepted; every listed or registered pointer is a live owned client; flagged
  clients are scheduled for removal (`EveryRunIsSafe`). Each round services each client exactly once, in that order
  (`RoundServicesEach`). Each poll admits exactly the connections handed over after an announcement (`PollAdmits`).
  Over every run that ends in destroy, what was closed and freed is exactly what the kernel and the allocator handed
  over (`EveryRunBalances`).
* **Server and sockets together.** After every run each client's socket is the result of exactly the calls made on it
  since it was accepted, although callbacks of other clients may send to it in the middle of a round
  (`ClientIsItsHistory`, `RoundEffect`); so the bytes sent to each client are conserved through the server
  (`EveryClientConserves`), and each client's callback is shown its own stream (`EveryClientIsShownItsStream`).

## Where the code and its text differ

* `src/tcp_server.cpp:436-442` adds any socket reported as writable to the send list, the listener included. The
  listener stays out of every list only because epoll is not asked to report it as writable.
  `ListenerEntersListIff` states the exact event that would put it in a list: writable, not readable, not failed. The
  runs of the server assume that epoll does not produce that event, and assume nothing about other listener events.
* `include/logger.hpp:134-135` says a single `%` takes the next value. Two holes cannot stand next to each other,
  and a hole cannot be followed by a literal percent sign, because `%%` is read as one literal percent sign.
  `ReadingIsBijective` gives the exact class of layouts that can be written.
* A `std::string` argument is written only up to its first NUL character (`src/logger.cpp:301-306` goes through
  `c_str()`). `StringIsWholeIff` gives the exact condition, and `StringIsCut` a string that loses its end.

## Model

| member | source | states |
|---|---|---|
| SpscQueue.ProducerStepInv | include/lf_queue.hpp:49-67 | every access of the producer, at any point of the consumer's progress, keeps the invariant: indices are the history counters round the ring, the count lags by the two pending updates and stays in range, every unreleased cell holds its value whole |
| SpscQueue.ConsumerStepInv | include/lf_queue.hpp:72-92 | every access of the consumer keeps the same invariant, at any point of the producer's progress |
| SpscQueue.WriteKeepsCells | include/lf_queue.hpp:49-56 | while the ring is not full, writing the slot at the write index touches no unreleased cell and is never the slot at the read index |
| RingArithmetic.IndexIsMod | include/lf_queue.hpp:63-64 | stepping round the ring k times from slot 0 reaches slot k modulo the capacity, without bound on k |
| SpscRuns.Run | include/lf_queue.hpp:49-92 | every interleaving of any length stays within the invariant |
| SpscRuns.SlotSafety | include/lf_queue.hpp:49-92 | in every reachable state both indices equal their counter modulo the capacity, the count is in 0..capacity, the assertion of updateReadIndex holds, the pointers in use name the slots held, and no slot is held by both threads at any point between being granted and being published or released |
| SpscRuns.GrantIsStable | include/lf_queue.hpp:49-92 | while a thread holds a slot, which lasts until it publishes or releases it, a step of the other thread neither takes it away nor changes its contents |
| SpscRuns.HoldEndsAtUpdate | include/lf_queue.hpp:61-92 | a thread's own step ends its hold only by publishing the value written or releasing the value read |
| SpscRuns.Conservation | include/lf_queue.hpp:49-92 | in every reachable state, values released followed by the ring contents read from memory are exactly the values published, each seen whole |
| SpscRuns.PushRefines | include/lf_queue.hpp:61-67 | the increment of the count performs one legal enqueue of the value written on the abstract queue |
| SpscRuns.PopRefines | include/lf_queue.hpp:84-92 | the decrement of the count performs one legal dequeue, and the value read was the head of the abstract queue |
| SpscRuns.StepRefines | include/lf_queue.hpp:49-92 | each access is either invisible or one legal operation of a bounded FIFO queue |
| SpscRuns.Linearizable | include/lf_queue.hpp:49-99 | for every interleaving, pushes, pops and null results replay as a legal history of a bounded FIFO queue whose length is the count |
| LFQueue.Queue.constructor | include/lf_queue.hpp:34-38 | a new queue is empty and has the requested capacity |
| LFQueue.Queue.GetNextToWriteTo | include/lf_queue.hpp:49-56 | null exactly when the queue is full, otherwise the slot at the write index |
| LFQueue.Queue.UpdateWriteIndex | include/lf_queue.hpp:61-67 | the element in that slot becomes the newest; memory changes as by an index store followed by an increment |
| LFQueue.Queue.GetNextToRead | include/lf_queue.hpp:72-79 | null exactly when the queue is empty, otherwise the slot of the oldest element |
| LFQueue.Queue.UpdateReadIndex | include/lf_queue.hpp:84-92 | the oldest element is removed; memory changes as by an index store followed by a decrement |
| LFQueue.Queue.Size | include/lf_queue.hpp:96-99 | the number of published elements |
| LFQueue.WindowUntouched | include/lf_queue.hpp:49-56 | filling the slot handed to the producer changes no published element |
| LoggerQueueing.TryPush | src/logger.cpp:141-158 | one pass of pushValue: refused exactly when full, otherwise appended as the newest element |
| LoggerQueueing.WriteElement | src/logger.cpp:77-122 | the member chosen by the tag is the member that was written, and its text is the element's text |
| LoggerQueueing.FlushAvailable | src/logger.cpp:69-130 | the inner loop writes the rendered queue contents in order and leaves the queue empty |
| LogElements.CString | src/logger.cpp:287-306 | a C string is the longest NUL-free prefix up to the first NUL |
| LogElements.Elements | src/logger.cpp:162-306 | every push overload produces elements whose tag selects the union member it wrote |
| LogElements.PushText | src/logger.cpp:287-298 | the string loop pushes one character element per character before the first NUL |
| LogElements.PushValue | src/logger.cpp:162-306 | each overload pushes elements that are well tagged and, whatever the number format, render to the argument's own text (a string's up to its first NUL) |
| LogElements.ElementsText | src/logger.cpp:77-122 | the elements pushed for an argument render to the argument's own text |
| LogElements.StringIsWholeIff | src/logger.cpp:301-306 | a std::string argument renders to itself if and only if it contains no NUL |
| LogElements.StringIsCut | src/logger.cpp:301-306 | a string with a NUL in the middle loses everything from it on |
| LogFormat.ParseIsCanonical | include/logger.hpp:143-169 | a format string never reads as a hole directly followed by a hole or a literal percent sign |
| LogFormat.PrintParse | include/logger.hpp:143-169 | printing the reading of a NUL-free string gives the string back |
| LogFormat.ParsePrint | include/logger.hpp:143-169 | reading a printed canonical list gives the list back |
| LogFormat.ReadingIsBijective | include/logger.hpp:134-203 | both round trips together; a list survives printing and reading if and only if it is canonical |
| LogFormat.ParseStopsAtNul | include/logger.hpp:143-169 | a format string is read up to its first NUL and no further |
| LogFormat.LogRest | include/logger.hpp:180-203 | the loop without arguments pushes the expansion of the reading, in both builds |
| LogFormat.Log | include/logger.hpp:136-176 | the recursive loop pushes the expansion of the reading with its arguments, in both builds |
| LogFormat.Arity | include/logger.hpp:171-197 | with assertions on, a call finishes if and only if it has as many holes as arguments; more holes stop it at the missing-argument assertion, fewer at the extra-argument one |
| LogFormat.BuildsAgree | include/logger.hpp:136-203 | with assertions off no call stops; a debug call pushes a beginning of what the release call pushes, and the same when it does not stop |
| LogFormat.DebugPushes | include/logger.hpp:136-203 | a debug call that stops has pushed exactly what stands before the hole without argument, or the whole message when an argument is left over |
| LogFormat.ExpandIsWellTagged | src/logger.cpp:162-284 | everything a call pushes carries the tag of the member written |
| LogFormat.LogRendersCall | include/logger.hpp:136-203 | the elements pushed render to the call's text defined by position: hole number h shows argument h, a hole without argument shows a percent sign, surplus arguments vanish, argument text is not read again |
| LoggerProtocol.AppStepInv | src/logger.cpp:38-62 | every step of the application thread, pushing or in the destructor, keeps the protocol invariant |
| LoggerProtocol.WorkerStepInv | src/logger.cpp:65-138 | every step of flushQueue keeps the protocol invariant; a finished read writes exactly the next element |
| LoggerProtocol.EmitWritesNext | src/logger.cpp:77-126 | reading an undisturbed, well-tagged element appends its text to the file without fault |
| LoggerProtocol.NothingLost | src/logger.cpp:38-158 | for every schedule the file is a beginning of the program's text, no read was torn or mis-tagged, and after the join it is the whole text with the background thread gone |
| LoggerLiveness.AppTurn | src/logger.cpp:141-158 | an application turn either does one of its remaining steps or waits without changing anything |
| LoggerLiveness.WorkerTurn | src/logger.cpp:65-138 | a background turn adds no work, and while the application waits it comes closer to releasing a slot or exiting |
| LoggerLiveness.RoundProgress | src/logger.cpp:38-158 | in every stretch with enough background turns followed by an application turn, the work left shrinks |
| LoggerLiveness.FairTermination | src/logger.cpp:38-158 | from every reachable state, every schedule with as many fair rounds as work left ends with the destructor returned, the background thread exited and the complete file |
| LoggerLiveness.NeverStuck | src/logger.cpp:38-158 | from every reachable state some finite schedule completes the shutdown |
| LoggerEndToEnd.ProgramText | include/logger.hpp:136-203 | the elements pushed for a list of admissible calls are well tagged and render to the calls' texts in order |
| LoggerEndToEnd.EndToEnd | src/logger.cpp:38-158 | for every list of calls, capacity, number format and interleaving: the file is a beginning of the calls' texts, and all of it after destruction |
| LoggerEndToEnd.EndToEndTotal | src/logger.cpp:38-158 | under a fair schedule of bounded length the destructor returns with all texts in the file |
| PoolSpec.AllocateCounted | include/mem_pool.hpp:102-127 | after allocate the counter is still exact and, when positive, the hint names a free slot |
| PoolSpec.AllocateKeepsInv | include/mem_pool.hpp:102-127 | allocate keeps the counter, the hint and the construction balance |
| PoolSpec.DeallocateKeepsInv | include/mem_pool.hpp:130-166 | deallocate keeps the counter, the hint and the construction balance |
| PoolSpec.AllocateRefines | include/mem_pool.hpp:102-127 | on the map of live objects: fails exactly when every address is live, otherwise adds one object at an address that was not live, constructs exactly it and destroys nothing |
| PoolSpec.DeallocateRefines | include/mem_pool.hpp:130-166 | on the map of live objects: succeeds exactly on the address of a live object, removes and destroys that object and constructs nothing, and otherwise changes nothing |
| PoolSpec.ReleasedSlotIsReused | include/mem_pool.hpp:158-163 | the slot just released is the next one allocate hands out |
| PoolSpec.ScanDistance | include/mem_pool.hpp:43-64 | when some other slot is free, the circular search reaches the first free one in fewer steps than there are slots |
| PoolSpec.ConstructedOnceDestroyedOnce | include/mem_pool.hpp:77-166 | over every run ending in destruction the multiset of destroyed objects equals the multiset of constructed ones |
| PoolSpec.AllocationOrder | include/mem_pool.hpp:43-127 | from every reachable state with k free slots, k allocations return the free slots in cyclic order from the hint, and the next returns null |
| PoolSpec.NewPoolIsEmpty | include/mem_pool.hpp:69-74 | a new pool holds no object and has constructed and destroyed none |
| PoolSpec.NewPoolOrder | include/mem_pool.hpp:36-127 | the first allocations of a new pool of n slots return slots 0 to n-1 in order, and the next returns null |
| PoolSpec.FreeFromIsExact | include/mem_pool.hpp:43-64 | the cyclic order lists every free slot, only free slots, and none twice |
| MemPool.MemPool.constructor | include/mem_pool.hpp:69-74 | a new pool has every slot free |
| MemPool.MemPool.UpdateNextFreeIndex | include/mem_pool.hpp:43-64 | the loop ends at the first free slot after the current one, looks at fewer slots than the pool has, and its closing assertion is unreachable |
| MemPool.MemPool.Allocate | include/mem_pool.hpp:102-127 | the in-place update is the allocation of the specification, and the address returned is that of the slot used |
| MemPool.MemPool.Find | include/mem_pool.hpp:136-147 | the linear search finds the first slot with the address, or reports none |
| MemPool.MemPool.Deallocate | include/mem_pool.hpp:130-166 | the in-place update and the result are those of the specification |
| MemPool.MemPool.Destroy | include/mem_pool.hpp:77-92 | the destructor destroys what is alive in slot order, after which destroyed and constructed objects agree |
| TcpSocketSpec.SendAndRecvConserves | src/tcp_socket.cpp:143-352 | in one call: transmitted bytes then the send buffer equal the old send buffer then the messages of the callback that fit; both buffers stay within 65536 bytes; recvmsg is never asked for zero bytes; the callback runs exactly when bytes arrived, sees the old buffer followed by them, and what it keeps is what stays |
| TcpSocketSpec.TurnExact | src/tcp_socket.cpp:143-352 | everything one call does, told from socket, answers and callback: it takes as many offered bytes as there is room for, shows the whole buffer, queues the callback's messages that fit, transmits as much as the kernel offers, keeps the rest; a closed socket is left alone |
| TcpSocketSpec.RepliesFit | src/tcp_socket.cpp:109-270 | replies that fit together with what already waits are all queued, in order |
| TcpSocketSpec.FlushSplits | src/tcp_socket.cpp:286-349 | whatever the kernel answers, bytes sent followed by bytes left are the bytes that were waiting |
| TcpSocketSpec.FlushExact | src/tcp_socket.cpp:286-326 | the number of bytes sent is the smaller of what waits and what the kernel offers before its first empty answer; the send side breaks exactly when that answer is an error and bytes still wait |
| TcpSocketSpec.FlagsExact | src/tcp_socket.cpp:152-161 | each disconnect flag is sticky and raised by exactly the stated outcomes: full buffer, orderly close or error when receiving, error with bytes waiting when sending |
| TcpSocketSpec.FlagsSinceOpening | src/tcp_socket.cpp:54-352 | after any run each disconnect flag is set exactly when some I/O turn since the last destroy or connect broke that side |
| TcpSocketSpec.DestroyExact | src/tcp_socket.cpp:54-71 | a destroyed socket is closed, empty and unflagged whatever it was before, and the descriptor closed is the one that was open |
| TcpSocketSpec.SendEachFits | src/tcp_socket.cpp:109-140 | messages that fit together are all queued, whole and in order |
| TcpSocketSpec.SendExact | src/tcp_socket.cpp:109-140 | send succeeds exactly on an empty message and on a real one that fits, appends exactly its first len bytes, and otherwise changes nothing |
| TcpSocketSpec.SendEachExact | src/tcp_socket.cpp:109-140 | of several messages exactly those are queued that still fit when their turn comes, whole and in order |
| TcpSocketSpec.SendEachIsRun | src/tcp_socket.cpp:109-140 | the messages of a callback leave the socket as separate send calls would |
| TcpSocketSpec.SendConservation | src/tcp_socket.cpp:54-352 | after any run since the last destroy, bytes transmitted followed by the send buffer are the payloads of the successful sends in order |
| TcpSocketSpec.DrainingShowsStream | src/tcp_socket.cpp:203-271 | with callbacks that consume everything, the ranges shown concatenate to the bytes taken from the kernel and the buffer is empty between calls |
| TcpSocketSpec.HoardingKeepsStream | src/tcp_socket.cpp:203-271 | with callbacks that consume nothing, the buffer and the last range shown are the whole stream |
| TcpSocketSpec.FullBuffer | src/tcp_socket.cpp:149-161 | a full buffer marks the receive side broken and does nothing else; never with draining callbacks, and with hoarding ones exactly once 65536 bytes have arrived |
| TcpSocket.TCPSocket.constructor | src/tcp_socket.cpp:10-39 | a new socket is closed with empty buffers |
| TcpSocket.TCPSocket.Destroy | src/tcp_socket.cpp:54-71 | closes the descriptor if one is open, empties both buffers and clears both disconnect flags |
| TcpSocket.TCPSocket.Send | src/tcp_socket.cpp:109-140 | appends the whole message in place or refuses it and changes nothing |
| TcpSocket.SendLoop | src/tcp_socket.cpp:286-326 | the loop ends and splits the waiting bytes where the kernel stopped |
| TcpSocket.TCPSocket.Compact | src/tcp_socket.cpp:329-349 | the unsent bytes move to the front unchanged although source and destination overlap |
| TcpSocket.TCPSocket.FlushOutgoing | src/tcp_socket.cpp:286-349 | loop and compaction together transmit and keep exactly what the specification says |
| TcpSocket.TCPSocket.RunCallback | src/tcp_socket.cpp:266-270 | the callback's sends are queued in order and the receive index only shrinks |
| TcpSocket.TCPSocket.SendAndRecv | src/tcp_socket.cpp:143-352 | state, return value, transmitted bytes and the range shown are those of the specification |
| TcpLink.EndTurnStreams | src/tcp_socket.cpp:143-352 | one end's turn takes a beginning of its incoming stream and appends what it transmits to the outgoing one |
| TcpLink.ConnectionIsFaithful | src/tcp_socket.cpp:109-352 | for any interleaving of two ends, any chunking and any errors: bytes taken, then in flight, then buffered equal the successful sends, in both directions; with draining callbacks the bytes taken are the bytes shown |
| TcpLink.RoundProgress | src/tcp_socket.cpp:143-352 | in every stretch of calls in which the sender gets room once and the receiver gets data once, in either order, the bytes still to be moved become fewer |
| TcpLink.FairDelivery | src/tcp_socket.cpp:143-352 | from every state reached with draining callbacks, every schedule with as many such stretches as bytes to be moved has shown the receiver everything sent before it, in order, in either direction |
| TcpLink.CanDeliver | src/tcp_socket.cpp:143-352 | from every state reached with draining callbacks, and in either direction, some continuation shows the receiver exactly what was sent |
| TcpServerRuns.DelCore | src/tcp_server.cpp:182-219 | removing a client takes it out of memory, epoll and all four lists, keeps the others in order, gives back exactly its descriptor and its memory, and keeps lists, descriptors, registrations, acceptance order and trace in agreement |
| TcpServerRuns.DestroyCleans | src/tcp_server.cpp:82-106 | destroy leaves nothing owned and a trace that gave back exactly what it took |
| TcpServerRuns.OwnedIsHeld | src/tcp_server.cpp:182-539 | in a legal resource trace the sockets allocated and not freed, listed by acceptance, are exactly the allocations held, each once |
| TcpServerSpec.QueueEachIs | src/tcp_socket.cpp:109-140 | a list of sends to various clients appends to each client exactly its own messages in order and changes nothing else |
| TcpServerSpec.ServiceIs | src/tcp_server.cpp:565-591 | servicing one client gives it its own sendAndRecv, gives every other client the messages its callback sent there, and schedules it for removal exactly when flagged |
| TcpServerRuns.ListenInv | src/tcp_server.cpp:226-287 | listen succeeds exactly when all three setup calls do, and opens the server with no clients; on any failure it cleans up completely |
| TcpServerRuns.ListenExact | src/tcp_server.cpp:226-287 | an opened server has the epoll descriptor and the listening descriptor it was given, each in its place, with only the listener registered |
| TcpServerExact.ListenAcquires | src/tcp_server.cpp:226-287 | listen records every descriptor handed to it, on its failing paths too |
| TcpServerRuns.HandleEventsInv | src/tcp_server.cpp:355-443 | interpreting any batch of events changes only the send and disconnected lists and keeps the invariant |
| TcpServerRuns.EventsRecorded | src/tcp_server.cpp:380-442 | a batch schedules for removal exactly the clients it reports failed, and lists as writable exactly those it reports so |
| TcpServerRuns.ConnectionAnnounced | src/tcp_server.cpp:404-418 | the batch is said to announce a connection exactly when some event of it is a readable, not failed listener |
| TcpServerRuns.ListenerEntersListIff | src/tcp_server.cpp:380-442 | the listener enters a list if and only if it is reported writable and neither failed nor readable |
| TcpServerRuns.AcceptAdmitted | src/tcp_server.cpp:493-536 | a connection whose setup succeeds becomes one new client at the end of the owning list, registered under its own descriptor, with exactly its descriptor and its memory recorded |
| TcpServerRuns.AcceptRefused | src/tcp_server.cpp:493-522 | a connection whose setup fails leaves the server as it was; its descriptor, and its memory if it got that far, are recorded as taken and given back |
| TcpServerRuns.AcceptTrace | src/tcp_server.cpp:493-536 | the exact acquisitions and releases of each of the three outcomes of one connection |
| TcpServerRuns.AcceptsInv | src/tcp_server.cpp:454-538 | accepting any number of connections, with any setup failing, keeps the invariant and only appends new unflagged clients |
| TcpServerExact.AcceptsExact | src/tcp_server.cpp:454-538 | the loop goes on to the first answer that is no connection; of those before it exactly the ones that can be set up become clients, in order, each a new socket on its own descriptor, and everything handed over is recorded |
| TcpServerRuns.ReapScheduled | src/tcp_server.cpp:306-315 | exactly the scheduled clients are removed, the others stay in order, and none left has a disconnect flag |
| TcpServerRuns.PollInv | src/tcp_server.cpp:294-539 | poll keeps the invariant, keeps the survivors unchanged and in acceptance order before any new clients, which are new sockets, and leaves no client flagged |
| TcpServerExact.PollAdmits | src/tcp_server.cpp:294-539 | after poll the owning list is the clients not scheduled for removal followed by the admitted connections: those the kernel hands over if one of the first 1024 events announces one, none otherwise; each is a new socket on its own descriptor |
| TcpServerExact.PollMarks | src/tcp_server.cpp:306-442 | after poll a client is scheduled for removal exactly when it stayed and an event reports it failed, and listed as writable exactly when it stayed and was listed or is reported writable |
| TcpServerRuns.SendRoundIsIdle | src/tcp_server.cpp:605-642 | the loop over the send list performs no I/O |
| TcpServerRuns.SendRoundIs | src/tcp_server.cpp:605-642 | in any state the second loop services, as the first one would, exactly the listed sockets that are not in the receive list |
| TcpServerRuns.RoundTurns | src/tcp_server.cpp:565-591 | with callbacks that may send to any client, each client ends the loop in the state that its own sendAndRecv, the earlier callbacks' messages before it and the later ones' after it lead to, all told from the state before the loop; data is reported exactly when some client found data |
| TcpServerRuns.OneTurnEach | src/tcp_server.cpp:565-591 | among the calls made on a listed client in the loop exactly one is an I/O turn, and it is the client's own |
| TcpServerRuns.RoundEffect | src/tcp_server.cpp:546-643 | after a round, receive-finished callback included, each client is in the state that the calls made on it lead to, and that callback runs exactly when some client found data |
| TcpServerRuns.RoundServicesEach | src/tcp_server.cpp:546-643 | a round services every owned client exactly once, in the order in which the clients were accepted according to the resource trace, and changes no list it iterates over; on a closed server it does nothing |
| TcpServerRuns.RoundSchedules | src/tcp_server.cpp:565-642 | a round adds to the removal list exactly the clients that are flagged after it |
| TcpServerRuns.EveryRunIsSafe | src/tcp_server.cpp:17-643 | after every sequence of calls: receive list equals owning list equals the clients in acceptance order, without duplicates, every listed or registered pointer is live and owned or the registered listener, the listener is in no list, flagged clients are scheduled |
| TcpServerExact.EveryGrantIsRecorded | src/tcp_server.cpp:82-539 | over every run the trace acquires exactly what the kernel and the allocator handed over, in that order |
| TcpServerExact.LegalTraceBalances | src/tcp_server.cpp:82-539 | in a legal trace everything acquired was given back as often as it was acquired, or is still held |
| TcpServerExact.EveryRunBalances | src/tcp_server.cpp:82-539 | after every sequence of calls followed by destroy, the descriptors closed and sockets freed are exactly those the kernel and the allocator handed over, each as often, and nothing is owned |
| TcpServerClients.ClientIsItsHistory | src/tcp_server.cpp:294-643 | after every run each client's socket is the result of exactly the socket calls made on it since it was accepted: one connection on its descriptor, then sends and I/O turns |
| TcpServerClients.EveryClientConserves | src/tcp_server.cpp:546-643 | after every run, for each client, bytes transmitted followed by the send buffer are the payloads of the successful sends to it in order, by whichever callback or call they were made |
| TcpServerClients.EveryFlagHasACause | src/tcp_server.cpp:582-641 | after every run a client is flagged exactly when one of its own turns since it was accepted broke one of its sides |
| TcpServerClients.EveryClientIsShownItsStream | src/tcp_server.cpp:546-643 | with draining callbacks, after every run each client's callback has been shown exactly the bytes its own connection delivered, in order |
| TcpServer.TCPServer.constructor | src/tcp_server.cpp:40-65 | a new server owns nothing |
| TcpServer.TCPServer.Del | src/tcp_server.cpp:182-219 | null and listener are ignored; otherwise the client is in no list, not in memory and not in epoll, the other entries keep their order, exactly its descriptor and its memory are given back, and the server stays consistent |
| TcpServer.PushUnique | src/tcp_server.cpp:17-31 | the search loop appends the pointer exactly when it is missing; afterwards it is listed, the rest is as before, and a duplicate-free list stays so |
| TcpServer.EraseRemove | src/tcp_server.cpp:197-208 | the erase-remove loop keeps exactly the other pointers, in order |
| TcpServer.TCPServer.Destroy | src/tcp_server.cpp:82-106 | the in-place update is that of the specification and gives everything back |
| TcpServer.TCPServer.Listen | src/tcp_server.cpp:226-287 | state and result are those of the specification; success means open on the descriptors given, failure means clean |
| TcpServer.TCPServer.Poll | src/tcp_server.cpp:294-539 | state is that of the specification; on an open server the clients that stay are followed by the connections admitted, exactly the clients reported failed are scheduled, and no client is left flagged |
| TcpServer.TCPServer.SendAndRecv | src/tcp_server.cpp:546-643 | state and serviced clients are those of the specification: every owned client once in acceptance order; owning, receive and send list unchanged, the disconnected list holds every flagged client |

## Left out

- Thread creation and pinning, clocks and time strings, kernel timestamps, interface lookup and socket options: foreign calls, present only as success or failure of the environment, or absent.
- Number-to-text conversion and stream or file errors: formatting is a parameter, and the file accepts every write.
- Integer widths of the logged numbers and of the counters: values are unbounded; the queue and pool counters are proved to stay within the capacity, so they cannot wrap.
- Opening the log file and starting the background thread: the model begins with both done.
- Weaker memory orders, several producers or consumers, a client that updates an index without having been given a slot: outside the queue's stated constraints.
- Raw storage of the pool (alignment, placement new, a throwing constructor): a slot holds an optional object and has an abstract address.
- Callbacks that re-enter the server, destroy a socket or rewrite the receive buffer: a callback sends on any clients, its own included, and keeps a prefix of its buffer.
- Client sockets as separate objects of the server class: there they are values in a map from addresses, so writing through a pointer is an update of that map; the buffers' own in-place updates are in `TcpSocket.dfy`.
- Draining the whole accept backlog: the accept loop also stops on errors, so nothing is claimed beyond the connections the kernel handed over.
- Log messages written by the sockets and the server about themselves.
- LoggerQueueing.TryPush: models one pass of the waiting loop of pushValue; the waiting itself is in the two-thread model.
