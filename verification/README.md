# Zero-copy camera pipeline: a verified model

A publisher takes frames from a V4L2 capture device and a subscriber shows them with EGL. The pixels never move:
at connection time the publisher sends one DMA-BUF descriptor per capture buffer, and from then on only a 4-byte
buffer index goes one way and a 1-byte ack the other. Nothing but the order of statements in two processes keeps
the capture hardware from overwriting a buffer that the GPU is reading.

The model has four layers.

1. **Devices and programs.** `Kernel.dfy` is the operating system as the programs see it: a descriptor table, the
   memory behind descriptors, and a V4L2 driver with its two FIFOs (`Driver.dfy`); any call may fail at any time and
   is then counted. `CaptureMmap.dfy`, `CaptureDma.dfy` and `CaptureCpp.dfy` are the three capture classes with their
   fields and loops, all proved against one abstract buffer pool (`Pool.dfy`). `Publisher.dfy` and `Subscriber.dfy`
   are the main programs, from opening the device or socket to the last destructor.
2. **Wire formats.** `Wire.dfy` (words, header, index stream), `Framing.dfy` (reading messages off a stream that
   arrives in arbitrary fragments), `Cmsg.dfy` (descriptors as ancillary data, filled and walked in place; the layout
   macros of section 20.3 of RFC 3542).
3. **The concurrent system.** `Protocol.dfy` gives the control flow of both programs as automata, with every break
   branch and the destructor order; `System.dfy` interleaves them with the hardware, single-byte delivery, partial
   sends and signals. `Invariant.dfy` holds the inductive invariant and `Safety.dfy`, `Refinement.dfy` and
   `Liveness.dfy` the theorems. `Session.dfy` closes the gap between layers 1 and 3: a pool just started is the
   system's initial device, and every call in a program's log, from the handshake to the last destructor, is a step of
   the system and the other way round.
4. **Import and ownership.** `Import.dfy` (the attribute list of EGL_EXT_image_dma_buf_import), `Layout.dfy` (where
   the bytes of an NV12 frame lie), `Ownership.dfy` (`ScopedFd`).

`dafny verify dfyconfig.toml` checks everything.

## Main results

- `Refinement.ZeroCopyRefinesCopy`: in every run the system acts as a pipeline that copies each frame into a one-slot
  queue and draws the copy; what is shown is a prefix of what was captured, behind by at most one frame.
- `Safety.RaceExactlyWhen`: the hardware can write under a live image **if and only if** an ack read can fail while the
  subscriber is still connected (and the pool fits the handshake at all). The publisher requeues on that branch
  without an ack. `Safety.RaceFreedom` says what holds otherwise, on every branch and through teardown, and
  `Safety.RaceNeedsSpuriousError` that each racing run contains such a failure.
- `Safety.StarvationExactlyWhen`: the driver can run out of buffers inside the loop if and only if the pool has one
  buffer. The exported pool has at least two; the DMABUF capture checks the number *granted* but sizes its pool by the
  number *supplied*, so one buffer is possible there.
- `Liveness.NoDeadlock`, `Liveness.RoundsEnd`, `Liveness.ShutdownPropagates`: the programs never wait for each other,
  every round ends, and once one side leaves its loop both exit with the device idle and nothing held.
- `Publisher.RunMmap`, `Publisher.RunDma`, `Publisher.RunCpp`: on every path the whole program leaves the descriptor
  table as it was, and what it did to its resources is one exact sequence (`Pool.Exit`): the format and the buffers it
  asked for, the sockets, the stream, the buffers, the device. The header announces what the device made of the format.
  When no call fails, a client is served exactly if enough buffers were granted, gets the memory behind each index, the
  header and then `turns` indices 0, 1, ..., N-1, 0, ..., and each is acked.
- `Subscriber.Run`: on every path images, descriptors and socket go in destructor order, and the j-th draw reads the
  memory sent for the j-th index, with the geometry of the header. When no call fails, everything behind a header that
  arrives in one piece is shown and acked, up to a stop. The table is then as it was if and only if no descriptors came
  with a header read short, nor more of them than the ancillary buffer holds; otherwise the contract names those lost.
- `Session.EndToEnd`: the subscriber on what such a client was sent, in any fragments: the k-th draw reads the memory of
  buffer k modulo N with the publisher's geometry, and when no call fails there are as many as the publisher took turns,
  up to the subscriber's own stop.
- `Protocol.PublisherLogExactlyWhen`, `Protocol.SubscriberLogExactlyWhen`: what whole logs of the programs look like, as
  grammars that do not mention control points. `Safety.GivenBackUnlessRefused`: on every way out of the loop the
  publisher is left with a buffer if and only if the device refused to take one.
- `Cmsg.HandshakeWithRights`: up to 32 descriptors arrive in order; a longer list is never taken for a shorter one,
  except for an empty one by the Rust receiver when the header counts none.
- `Layout.SoundExactlyWhenFits`: the exact condition on width, height, stride and size under which the NV12 planes lie
  in the buffer, do not mix, and start where the 32-bit offset says.
- `Ownership.SingleOwnership`: over every sequence of `ScopedFd` operations, one owner per descriptor and one close,
  except, exactly, for a descriptor made or released and not handed over since;
  `Ownership.HandOverExactlyWhen` gives the exact condition for handing a descriptor to one.

## Assumptions

- GPU access to a buffer ends when `destroy_image` returns (README.md:45-47 of the program).
- Except where a theorem says otherwise, a failed ack read means that the peer's end is closed
  (`spuriousAckErrors == false`). A failed *send* needs no assumption: at most 3 bytes got out and the frame before
  was acked.
- The driver hands buffers out in the order in which they were queued, and QBUF refuses an index that it holds or
  never allocated ("Streaming I/O" of the V4L2 API).
- Words are little-endian and `size_t` has 64 bits; both programs run on one host.

## Model

| member | source | states |
|---|---|---|
| Refinement.ZeroCopyRefinesCopy | README.md:30-47 | every run of the system is a run of a copying pipeline, and the frames shown are a prefix of the frames captured, at most one behind |
| Refinement.StepRefines | rust/subscriber/src/main.rs:78-88 | each step of the system is the matching step of the copying pipeline or none: a draw finds in shared memory what was there at the dequeue |
| Refinement.RunRefines | rust/publisher/src/main.rs:84-114 | the refinement over whole runs from any state that satisfies the invariant |
| Refinement.CopyingDelivers | rust/publisher/src/main.rs:84-103 | the reference pipeline itself delivers every frame in order, up to the one in its slot |
| Safety.RaceFreedom | rust/publisher/src/main.rs:90-103 | no reachable state has a live image on a buffer in the driver's hands, and the memory under an image is unchanged since the dequeue |
| Safety.RaceExactlyWhen | rust/publisher/src/main.rs:95-99 | a race is reachable if and only if an ack read can fail with the peer connected and the pool fits the handshake |
| Safety.RaceNeedsSpuriousError | rust/publisher/src/main.rs:95-99 | whatever the configuration allows, a run that ends in a race contains an ack read that failed with the peer connected |
| Safety.UnackedRequeueRaces | rust/publisher/src/main.rs:95-99 | the run that races: requeue after a failed wait while the image is live |
| Safety.IndexAgreement | rust/subscriber/src/main.rs:78-80 | every index the subscriber works on is inside its list and names the memory the driver filled; the unchecked indexing never fails |
| Safety.Framing | rust/common/src/socket.rs:95-119 | received indices are a prefix of sent, sent of dequeued, the k-th being k modulo the pool size; an index sent short is never received |
| Safety.AckAccounting | rust/common/src/socket.rs:122-140 | acks sent <= indices sent <= acks received + 1; an ack in the socket is for the buffer about to be requeued; between rounds every captured frame has been shown |
| Safety.BufferConservation | rust/publisher/src/main.rs:84-103 | queued, done and held buffers partition 0..N-1 without repetition, and the publisher holds at most one |
| Safety.CallDiscipline | rust/publisher/src/main.rs:84-103 | every QBUF on every branch names the held buffer and is acceptable, no DQBUF happens with one held, the device streams until teardown and is idle at exit |
| Safety.StarvationExactlyWhen | rust/common/src/v4l2.rs:449-486 | the driver can be left with no buffer in the loop if and only if the pool has one buffer |
| Safety.RefusedRun | src/socket_utils.cpp:107-126 | a pool of more than 32 buffers never gets past the handshake in any run |
| Safety.GivenBackUnlessRefused | rust/publisher/src/main.rs:90-103 | in every run of every configuration the publisher leaves its loop with a buffer out if and only if a requeue was refused; otherwise the driver has all of them until STREAMOFF |
| Invariant.InitInv | rust/publisher/src/main.rs:64-67 | the state after accept satisfies the invariant |
| Invariant.PubStepKeepsInv | rust/publisher/src/main.rs:84-119 | every statement of the publisher, on every outcome, keeps the invariant |
| Invariant.SubStepKeepsInv | rust/subscriber/src/main.rs:78-119 | so does every statement of the subscriber |
| Invariant.StepKeepsInv | src/subscriber.cpp:121-128 | every step of programs, hardware and signals keeps the invariant |
| Invariant.RunKeepsInv | src/publisher.cpp:109-132 | every run keeps the invariant |
| Invariant.ReachableInv | src/publisher.cpp:109-136 | every reachable state satisfies it |
| Invariant.BusyMeansWaiting | rust/subscriber/src/main.rs:78-88 | while the subscriber works on an index the publisher is in its wait with that very buffer held |
| Invariant.LastByteCompletesTheIndex | rust/common/src/socket.rs:112-119 | the fourth byte collected completes the one index in flight and leaves the stream empty |
| Invariant.WriteKeepsInv | rust/publisher/src/main.rs:85-103 | the hardware storing into any queued buffer never touches the held one |
| Protocol.PublisherLogExactlyWhen | rust/publisher/src/main.rs:78-119 | the automaton allows exactly the logs of a grammar: handshake, complete turns, one of six ways out that give the buffer in hand back, teardown in order |
| Protocol.SubscriberLogExactlyWhen | rust/subscriber/src/main.rs:54-120 | likewise: handshake, set-up, turns of four bytes, import, draw, destroy, ack and dispatch, one of the ways out, teardown in order |
| Protocol.PubGivesBackExactlyWhen | rust/publisher/src/main.rs:90-99 | after a failed send or wait the next call is the requeue, whatever it returns, and then the teardown |
| Liveness.NoDeadlock | rust/publisher/src/main.rs:95-99 | the two programs are never both blocked in a read, and neither is blocked on a peer that has exited |
| Liveness.PubCanMove | rust/publisher/src/main.rs:84-118 | an unblocked publisher always has a step that no injected failure is needed for |
| Liveness.SubCanMove | rust/subscriber/src/main.rs:93-119 | so has an unblocked subscriber |
| Liveness.NeverStuck | rust/subscriber/src/main.rs:93-106 | unless both have exited, one of them can go on |
| Liveness.StepLowersRank | rust/publisher/src/main.rs:84-103 | every program step but a successful dequeue lowers a rank over control points and bytes in flight |
| Liveness.RoundsEnd | rust/publisher/src/main.rs:84-103 | between two dequeues both programs together take a bounded number of steps |
| Liveness.ExitStep | rust/publisher/src/main.rs:116-118 | once one side has left its loop every program step lowers the exit rank, even with acks still in the socket |
| Liveness.ShutdownPropagates | rust/subscriber/src/main.rs:116-119 | from then on both take a bounded number of steps, and where no healthy step is left both have exited, the device is idle and no descriptor, image or buffer is held |
| Session.StartedIsInitial | rust/publisher/src/main.rs:55-78 | what a successful start leaves behind is the system's initial device, for the memory the capture's descriptors name |
| Session.CallIsStep | rust/publisher/src/main.rs:78-119 | every call the publisher may make, from the handshake to the last destructor, with an outcome the peer allows, is a step of the system once the hardware has filled a buffer |
| Session.StepIsCall | rust/publisher/src/main.rs:78-119 | every step of the system's publisher is a call its program may make, with the same bytes, acks, pool and driver order |
| Session.RunIsLogged | src/publisher.cpp:102-137 | in every run of the system the publisher's calls are a log that its program can produce, teardown included |
| Session.EventIsStep | rust/subscriber/src/main.rs:54-120 | an event of the subscriber, from the handshake to the closing of the socket, is a step of the system exactly if stream and peer allow it, and a draw shows what lies in the memory behind the descriptor drawn from |
| Session.RunIsFollowed | src/subscriber.cpp:69-144 | in every run of the system the subscriber's events are a log that its program can produce, with the same indices and acks, for any table in which its descriptors name the session's buffers |
| Session.FramesGoRound | README.md:30-47 | what is shown of what was delivered: the k-th index received and the k-th draw belong to buffer k modulo the pool size |
| Session.EndToEnd | rust/subscriber/src/main.rs:54-116 | the subscriber program on what a publisher program's client was sent: its draws read the pool's memory round and round with the geometry announced, for every fragmentation; without failures as many as whole indices were sent, which is the publisher's turns if it had none either, up to the subscriber's stop |
| Publisher.Loop | rust/publisher/src/main.rs:84-114 | whatever each call returns, the log is one that control flow, pool and socket allow; the loop ends after `turns` complete turns or because a call failed, and unless the device's calls fail every buffer is back in its queue |
| Publisher.Turn | rust/publisher/src/main.rs:85-103 | one turn: dequeue, then hand over, or break; going on means that the first buffer is now the last and the log has its five calls |
| Publisher.HandOver | rust/publisher/src/main.rs:90-103 | send, wait and requeue with their three break branches: on each the buffer is at the end of the queue again or the device failed; going on means that it was sent, acked and requeued |
| Publisher.GiveBack | rust/publisher/src/main.rs:92-102 | requeue, whose failure ends the loop in one place and is ignored in the others; unless the device fails the buffer is queued again |
| Publisher.Client.SendIdx | rust/common/src/socket.rs:95-103 | all four bytes of the index, or an error after fewer |
| Publisher.Client.WaitForAck | rust/common/src/socket.rs:130-140 | one byte consumed, or an error and none |
| Publisher.Client.SendHandshake | rust/common/src/socket.rs:41-52 | the encoded header with the memory behind the descriptors in order, or an error after fewer bytes |
| Publisher.BuildHandshake | rust/publisher/src/main.rs:69-77 | one descriptor per buffer, for the memory behind its index, and each of the six fields of the header: width, height, stride and size as negotiated, the format code, and how many descriptors come |
| Publisher.Greet | rust/publisher/src/main.rs:68-78 | the handshake as the first call of the log: on success the client holds the memory behind each index |
| Publisher.Converse | rust/publisher/src/main.rs:68-114 | handshake and loop on one connection, as one log from the handshake to the way out |
| Publisher.Connect | rust/publisher/src/main.rs:61-66 | two sockets that were not there before, or the table as it was with at most the listening socket closed again |
| Publisher.TearDown | src/publisher.cpp:79-85 | in this order: the connection is closed, the listening socket, the stream stopped, each buffer's descriptor closed in index order, the device closed |
| Publisher.Attend | src/publisher.cpp:83-137 | a session on one connection, with the whole log from handshake to last destructor and the order in which things were given up |
| Publisher.Serve | src/publisher.cpp:79-137 | from listening to exit, on every path, the table loses exactly what the capture owned and the history gains exactly the sockets closed, STREAMOFF, the buffers, the pool and the device, in that order; nobody is served only if a call failed; a served client implies both sockets and a whole log, complete turns if no call failed |
| Publisher.GiveUp | rust/publisher/src/main.rs:55-66 | with nobody served, the capture is torn down after at most the listening socket, and whether its stream was on shows in the sequence |
| Publisher.LoopKeepsBooks | rust/publisher/src/main.rs:84-103 | every log keeps the pool a ring with at most one buffer out, and the bytes written are the indices taken |
| Publisher.LoopGoesRound | rust/publisher/src/main.rs:84-103 | the k-th index taken is k modulo the pool size, and exactly those are sent but perhaps the last |
| Publisher.BuffersConserved | rust/publisher/src/main.rs:84-103 | in every log each buffer is in the queue, in hand, or was refused |
| Publisher.WentRoundDelivers | rust/publisher/src/main.rs:84-103 | after complete turns the bytes sent are the header and exactly the indices 0, 1, ..., N-1, 0, ..., and each was acked |
| Publisher.ServedIsDelivered | rust/publisher/src/main.rs:68-103 | the client of a started pool gets a part of the header and nothing else, or the header and then the indices round and round |
| Publisher.RunMmap | rust/publisher/src/main.rs:55-119 | on every path the table is restored and the history is one exact sequence, beginning with the format asked for and four buffers; without failures a client is served exactly if two were granted, and gets header, memory and `turns` indices; with them, a prefix of that |
| Publisher.RunDma | rust/publisher/src/publisher_dma.rs:64-136 | the same with the pool exactly as large as the user asked: that many allocations of the negotiated size, the heap closed, that many buffers asked for |
| Publisher.StartAndServe | rust/publisher/src/publisher_dma.rs:75-136 | with the memory at hand: start, serve and tear down restore the table from before the device was opened, in one exact order, after asking for one buffer per descriptor |
| Publisher.RunCpp | src/publisher.cpp:69-137 | the same as `RunMmap` for the C++ program, whose failed open leaves its descriptor to the destructor |
| Subscriber.DrawOne | rust/subscriber/src/main.rs:78-88 | no image outlives the call, and an ack follows only a frame that was drawn and destroyed; it fails only if a call failed or the index is outside the list, which unwinds |
| Subscriber.Show | src/subscriber.cpp:108-119 | draw, destroy, ack, in that order |
| Subscriber.Turn | rust/subscriber/src/main.rs:93-106 | one turn takes exactly one index off the stream, shows and acks it, or ends the loop: at the end of the stream, on an index outside the list, or because a call failed |
| Subscriber.Loop | rust/subscriber/src/main.rs:93-116 | the indices worked on are a prefix of the stream, for every fragmentation, and no image is left; after a stop there are `turns` of them, at the end of the stream all; without failures exactly the first `turns` were received, drawn and acked |
| Subscriber.LoopShowsWhatItIsTold | src/subscriber.cpp:121-140 | the frames drawn are those of the indices received, in order, each before its ack, but perhaps the last |
| Subscriber.RecvHandshake | rust/common/src/socket.rs:55-92 | accepted exactly if the header is whole and counts the descriptors seen, which are then for the memory sent, in order, with the header as decoded; the table is kept exactly if every descriptor installed is seen with a whole header, and otherwise keeps one more for each installed, which the contract names |
| Subscriber.TakeRights | rust/common/src/socket.rs:70-91 | the kernel installs what fits, the receiver decodes it from the control buffer, a wrong count closes it again, and those neither returned nor closed are named |
| Subscriber.AccountedExactlyWhen | rust/common/src/socket.rs:67-91 | without failing calls, descriptors stay accounted for if and only if nothing had arrived, none were attached, or the header arrived whole with at most 32 |
| Subscriber.Run | rust/subscriber/src/main.rs:50-120 | the whole program: the table is restored under exactly that condition and otherwise keeps the descriptors named; the j-th draw reads the memory sent for the j-th index received, with the header's geometry; without failures all that comes behind an acceptable header is shown, up to the stop; each image is destroyed before the next is made, then the descriptors are closed in order, and the socket last |
| Subscriber.DrawnIsSent | rust/subscriber/src/main.rs:78-88 | with descriptors as the handshake left them, every log draws, for each index received but perhaps the last, the memory the sender put at that index |
| Subscriber.Session | rust/subscriber/src/main.rs:69-119 | window, graphics and loop, then images gone, then descriptors closed in order |
| Subscriber.Accept | rust/subscriber/src/main.rs:54-120 | behind an accepted header: its geometry is the session's, and without failures the whole stream is shown up to the stop |
| Subscriber.ShortHeaderLosesDescriptor | rust/common/src/socket.rs:70-72 | one input that leaves the table with one descriptor more, for the memory that came along: a header whose first ten bytes arrive alone with one descriptor attached |
| CaptureMmap.V4l2Capture.Open | rust/common/src/v4l2.rs:140-196 | a capable device, configured with what was asked and holding what the device made of it, or the table as it was, on each of four failures |
| CaptureMmap.V4l2Capture.Start | rust/common/src/v4l2.rs:198-256 | asks for `count` buffers; whatever is granted, success leaves indices 0..granted-1 queued in order, each bound to its own DMA-BUF, streaming; without faults it succeeds if and only if two were granted; on failure all new descriptors are held |
| CaptureMmap.V4l2Capture.AddBuffer | rust/common/src/v4l2.rs:215-248 | query, export, record, queue: a failure before or after recording loses no descriptor |
| CaptureMmap.V4l2Capture.Dequeue | rust/common/src/v4l2.rs:258-285 | takes the oldest filled buffer and notes its size; on a stream with buffers queued it fails only if a call does, a device that fills none in time included |
| CaptureMmap.V4l2Capture.Requeue | rust/common/src/v4l2.rs:287-296 | appends an index that was out; refuses one already queued or never allocated |
| CaptureMmap.V4l2Capture.Stop | rust/common/src/v4l2.rs:298-313 | ends the stream, then closes each buffer's descriptor once in index order, frees the driver's pool and idles the device; a second call closes nothing |
| CaptureMmap.V4l2Capture.Drop | rust/common/src/v4l2.rs:316-324 | the table loses exactly what the capture owned, the device last |
| CaptureDma.AllocDmaHeap | rust/common/src/v4l2.rs:344-368 | the asked number of distinct new buffers of the asked size with the heap closed, or the table as it was |
| CaptureDma.V4l2CaptureDma.Open | rust/common/src/v4l2.rs:388-444 | as for the exported pool |
| CaptureDma.V4l2CaptureDma.Start | rust/common/src/v4l2.rs:448-494 | asks for one buffer per supplied descriptor; success leaves one queued for each, bound to its memory; without faults it succeeds if and only if at least two and at least that many were granted; on failure every supplied descriptor is either recorded or closed |
| CaptureDma.V4l2CaptureDma.Fill | rust/common/src/v4l2.rs:465-486 | the loop stops at the first refusal and closes the rest of the list |
| CaptureDma.V4l2CaptureDma.Dequeue | rust/common/src/v4l2.rs:496-523 | the same abstract step as the exported pool, with the same failures |
| CaptureDma.V4l2CaptureDma.Requeue | rust/common/src/v4l2.rs:525-537 | the same abstract step, naming the same memory again |
| CaptureDma.V4l2CaptureDma.Stop | rust/common/src/v4l2.rs:539-554 | ends the stream, then closes each buffer's descriptor once in index order, frees the driver's pool and idles the device; a second call closes nothing |
| CaptureDma.V4l2CaptureDma.Drop | rust/common/src/v4l2.rs:557-565 | as for the exported pool |
| CaptureCpp.V4l2Capture.Open | src/v4l2_utils.cpp:33-78 | what the device made of the format asked for, or on failure the object keeps what it opened |
| CaptureCpp.V4l2Capture.Start | src/v4l2_utils.cpp:80-136 | as the Rust start, with the vector sized first and filled in place over -1 sentinels |
| CaptureCpp.V4l2Capture.FillBuffer | src/v4l2_utils.cpp:97-127 | one turn of the loop: an entry owns a descriptor exactly once it is filled in |
| CaptureCpp.V4l2Capture.Dequeue | src/v4l2_utils.cpp:159-188 | the same abstract step, with the same failures |
| CaptureCpp.V4l2Capture.Requeue | src/v4l2_utils.cpp:190-200 | the same abstract step |
| CaptureCpp.V4l2Capture.Stop | src/v4l2_utils.cpp:138-157 | ends the stream, then closes the descriptors present in index order, skips the sentinels and frees the driver's pool; a second call closes nothing |
| CaptureCpp.V4l2Capture.Destroy | src/v4l2_utils.cpp:28-31 | the table loses exactly what the object owned, the device last, after any failed open or start |
| Pool.Await | rust/common/src/v4l2.rs:259-273 | waiting for the device, or timing out, changes nothing in the abstract pool; without failures a stocked stream has a buffer ready |
| Pool.TakeNext | rust/common/src/v4l2.rs:275-284 | DQBUF hands out the head of the abstract pool or changes nothing |
| Pool.DequeueTakes | src/v4l2_utils.cpp:181-187 | DQBUF on a valid pool yields an index inside it and keeps every binding |
| Pool.QueueReturns | rust/common/src/v4l2.rs:287-296 | QBUF of an index that is out keeps every binding and appends it |
| Pool.CloseBuffers | src/v4l2_utils.cpp:144-147 | closes every buffer's descriptor once, in index order, and nothing else |
| Pool.OrderOfExit | src/publisher.cpp:79-85 | the sequence read off slice by slice: sockets, stream, buffers in index order, pool freed, device last |
| Driver.HeadIsModulo | src/publisher.cpp:109-119 | the k-th dequeue of a pool of n returns k modulo n |
| Driver.RingPartition | src/publisher.cpp:109-119 | the driver's buffers and the one that is out are 0..n-1 without repetition |
| Wire.U32RoundTrip | rust/common/src/socket.rs:95-119 | words and 4-byte strings are in bijection |
| Wire.LittleEndian | rust/common/src/socket.rs:95-119 | four bytes, the least significant first, in both directions |
| Wire.HandshakeRoundTrip | include/socket_utils.hpp:13-20 | all six header fields survive, and no two headers share an encoding |
| Wire.HeaderLayout | include/socket_utils.hpp:13-20 | 24 bytes: each field is the word at its offset in the struct |
| Wire.DecodeAllRoundTrip | rust/common/src/socket.rs:95-119 | the k-th index read is the k-th sent, and one cut short is not read |
| Wire.PrefixDecodes | rust/common/src/socket.rs:112-119 | whole indices at the start of a stream are the first that any reader finds in it |
| Framing.Inbox.RecvWaitAll | rust/common/src/socket.rs:114 | collects across fragments until full, end of stream or interruption |
| Framing.Inbox.RecvIdx | src/socket_utils.cpp:150-156 | without faults an index exactly if four bytes are left and end of stream exactly if none, for every fragmentation |
| Framing.Inbox.RecvHandshake | rust/common/src/socket.rs:67-72 | takes at most 24 bytes, never index bytes, and succeeds exactly if all have arrived together |
| Framing.ReadIndices | src/subscriber.cpp:121-125 | reading to the end gives exactly the indices sent whole |
| Framing.ReadSession | src/subscriber.cpp:69-125 | a reader of a whole session gets the header and the indices as they were sent, without one cut short, for every fragmentation; only whether the header arrives in one piece depends on the fragments |
| Cmsg.BuildControl | src/socket_utils.cpp:79-92 | the control buffer filled in place is the encoding of one SCM_RIGHTS record |
| Cmsg.ControlLayout | src/socket_utils.cpp:79-92 | the buffer byte by byte: length 16 + 4n in eight bytes, level 1, type 1, the descriptors from byte 16, padded to a multiple of eight |
| Cmsg.ParseControl | src/socket_utils.cpp:127-133 | walking the buffer yields the descriptors of the last SCM_RIGHTS record, with the count taken from the length field |
| Cmsg.DecodeInts | src/socket_utils.cpp:129-131 | resize and copy give the first count words |
| Cmsg.SentAsEncoded | src/socket_utils.cpp:88-92 | the count recovered from the length field is the number put in |
| Cmsg.RecvHandshake | src/socket_utils.cpp:117-141 | end of stream, short header, truncation and wrong count told apart as the code does |
| Cmsg.RecvHandshakeRust | rust/common/src/socket.rs:70-91 | the nested loops collect the descriptors of all records |
| Cmsg.PassRights | src/socket_utils.cpp:79-94 | what the kernel reads from the filled control buffer are the descriptors put in |
| Cmsg.InstalledIsRead | rust/common/src/socket.rs:74-83 | what the kernel installed is what either receiver reads back |
| Cmsg.HandshakeWithRights | src/socket_utils.cpp:102-142 | up to 32 descriptors arrive in order with the header if and only if it counts them; a longer list is refused, by the Rust code unless the header counts none |
| Cmsg.ReceiversAgree | rust/common/src/socket.rs:70-91 | with at most one rights record the two receivers differ exactly at end of stream and on a truncated delivery whose header counts nothing |
| Cmsg.ReceiversDiffer | rust/common/src/socket.rs:76-82 | on two rights records one receiver keeps the last and the other both |
| Import.BuildAttributes | rust/subscriber/src/egl.rs:315-347 | whatever lies behind the list in memory, a reader of it finds the image that is meant, with two planes for the codes of NV12 and NV21 and one for all others; the keys are the registered ones |
| Import.ReadFlattened | src/egl_utils.cpp:165-171 | a pairwise reader stops at the terminator and nowhere else, even if values equal EGL_NONE |
| Import.FlattenRead | src/egl_utils.cpp:165-171 | everything such a reader accepts is a flattened list of pairs: builder and reader are inverse |
| Import.ScanningStopsEarly | src/egl_utils.cpp:133-165 | a reader that ignored the pairing would stop early exactly if some value equals EGL_NONE |
| Import.KeysAreDistinct | src/egl_utils.cpp:133-163 | no key appears twice and none is EGL_NONE |
| Import.MeantIsFaithful | rust/subscriber/src/egl.rs:316-346 | the geometry survives the casts to signed attributes, and the second plane starts behind stride times height bytes |
| Layout.OffsetIsExact | rust/subscriber/src/egl.rs:334 | the offset computed in 32 bits is stride times height if and only if that is below 2^31 |
| Layout.SampleExactlyWhen | src/egl_utils.cpp:148-156 | there is a chroma sample for each two by two pixels and for what an odd width or height leaves of them |
| Layout.SoundExactlyWhenFits | src/egl_utils.cpp:148-156 | all samples lie in the buffer, luma and chroma do not mix, no two chroma samples share a byte and the offset is exact, if and only if four conditions on the handshake's fields hold |
| Layout.WholeRowsFit | src/egl_utils.cpp:148-156 | buffers sized for whole rows of both planes, with a stride covering the width rounded up to even, meet them |
| Layout.NarrowStrideMixes | src/egl_utils.cpp:148-156 | a stride below the width makes a luma byte a chroma byte |
| Layout.OddStrideOverlaps | src/egl_utils.cpp:148-156 | a stride below the rounded width makes two chroma rows share a byte |
| Ownership.ScopedFd.MoveAssign | src/socket_utils.cpp:16-23 | closes the own descriptor and takes the other's; assigning to itself does nothing |
| Ownership.ScopedFd.Move | include/socket_utils.hpp:43 | takes the descriptor and leaves none behind |
| Ownership.ScopedFd.Release | src/socket_utils.cpp:25-29 | gives the descriptor away unclosed |
| Ownership.ScopedFd.Reset | src/socket_utils.cpp:31-34 | closes the own descriptor, then holds the new one |
| Ownership.ScopedFd.Destroy | src/socket_utils.cpp:12-14 | closes what is held |
| Ownership.Do | src/socket_utils.cpp:12-34 | an operation on real objects is a step of the ownership model |
| Ownership.Execute | src/subscriber.cpp:77-80 | any program of operations on real objects ends in the state that the ownership model gives |
| Ownership.OpKeepsInv | src/socket_utils.cpp:12-34 | every operation keeps one owner per descriptor, owned descriptors open, and openings balanced |
| Ownership.HandOverExactlyWhen | src/socket_utils.cpp:31-34 | handing a descriptor to reset or a constructor is safe if and only if nobody owns it, which excludes the object's own |
| Ownership.ResetToOwnClosesTwice | src/socket_utils.cpp:31-34 | reset to the own descriptor leads to a second close |
| Ownership.LooseAfter | src/socket_utils.cpp:25-34 | after any operation a descriptor is without owner if and only if the operation made or released it, or it was before and was not handed over |
| Ownership.LooseExactlyWhen | src/socket_utils.cpp:12-34 | the same over every sequence of operations: some operation made or released it and none has handed it over since |
| Ownership.SingleOwnership | src/subscriber.cpp:77-80 | over every sequence of operations no two owners and no second close; when all objects are gone each descriptor was closed as often as opened, except for one still open, which is so if and only if it was made or released without being handed over since |
| Ownership.ClosedOnceUnlessReleased | src/subscriber.cpp:77-80 | a descriptor handed over each time it is made and never released is closed exactly as often as it was opened |

## Left out

- Window, Wayland registry, EGL and GL initialisation, shaders: foreign calls. `should_close` and failed setup are outcomes that can happen at any time; drawing is "read what the memory holds now".
- Argument parsing, logging and frame rates: nothing depends on them.
- `v4l2_to_drm_fourcc` is an argument of the publisher programs: some code or none.
- Signals appear as the RUNNING flag being cleared: at any moment in the system, before a given turn number in the imperative loops.
- `xioctl`'s retry on EINTR is one call; the two-second limit of `select` is an outcome of waiting: a stream with buffers to fill that has none ready by then counts as a failed call.
- Creating the listening socket is one call that gives a descriptor or fails; path checks, `unlink`, `bind` and `listen` are not modelled, nor the C++ `ScopedFd` around a failed connect.
- Killed processes, misbehaving peers and kernels that break their interface.
- A peer whose ack read fails while it is connected: only `Safety.RaceExactlyWhen` covers it; the invariant assumes it away.
- Refinement.ZeroCopyRefinesCopy: assumes `spuriousAckErrors == false`, as do the safety and liveness theorems; `Safety.RaceExactlyWhen` shows that the assumption is needed.
- Liveness.ShutdownPropagates: bounds steps, not time; that a blocked dequeue ends is the time limit of `select`.
- Subscriber.RecvHandshake: follows one SCM_RIGHTS record into the descriptor table; several records are covered as values only, by `Cmsg.ReceiversDiffer`.
- Cmsg.HandshakeWithRights: what the kernel refuses to send (more than 253 descriptors in one message) is not modelled, and the padding of the receive buffer is as CMSG_SPACE has it on 64-bit hosts. That the Rust receiver sees no descriptors in a truncated message comes from the nix crate, which is not part of this model.
- Subscriber.DrawOne: an index outside the list unwinds as in Rust; the C++ program indexes without a check there, which `Safety.IndexAgreement` shows cannot happen with a publisher of this repository.
- Import.BuildAttributes: the product of stride and height wraps as in C++ and in optimised Rust builds; a Rust build with overflow checks panics instead.
- Layout.SoundExactlyWhenFits: is about frames with at least one pixel; the YUYV layout has one plane and nothing to prove.
- Publisher.Loop: one loop stands for the three publishers, which differ in the capture they call. The device's own progress shows only while a program waits for it.
- Repeated `open` or `start` on one capture object: the programs never do it, so a fresh object is required.
- Each `start` is divided: its loop, one turn of the loop and its two ends are methods of their own, called in order.
