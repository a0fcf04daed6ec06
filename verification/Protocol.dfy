/**
 The control flow of the two programs: which statement follows which outcome of a blocking call.
 The imperative loops (Publisher.dfy, Subscriber.dfy) are proved to follow these automata and the
 concurrent system (System.dfy) interleaves them.
 */
module Protocol {
  import opened Wire

  datatype PubPc =
    | PHandshake               // about to send the handshake
    | PLoop                    // about to read RUNNING
    | PDequeue                 // about to dequeue
    | PSend(idx: u32)          // about to send the index
    | PWait(idx: u32)          // waiting for the ack
    | PRequeue(idx: u32)       // acked: about to requeue
    | PGiveBackUnsent(idx: u32)   // the send failed: about to requeue, then leave
    | PGiveBackUnacked(idx: u32)  // the wait failed: about to requeue, then leave
    | PCloseClient             // out of the loop; destructors run in this order
    | PStreamOff
    | PClearBuffers
    | PCloseDevice
    | PDone

  datatype PubEvent =
    | HandshakeSent
    | HandshakeFailed(sent: nat, withFds: bool)
    | SawRunning
    | SawStopped
    | Dequeued(idx: u32)
    | DequeueFailed
    | IdxSent
    | IdxFailed(sent: nat)     // bytes of the index that got out nevertheless
    | AckReceived
    | AckFailed
    | Requeued
    | RequeueFailed
    | ClientClosed
    | StreamingOff(ok: bool)
    | BuffersCleared
    | DeviceClosed

  function PubNext(pc: PubPc, e: PubEvent): Option<PubPc> {
    match e
    case HandshakeSent => if pc.PHandshake? then Some(PLoop) else None
    case HandshakeFailed(_, _) => if pc.PHandshake? then Some(PCloseClient) else None
    case SawRunning => if pc.PLoop? then Some(PDequeue) else None
    case SawStopped => if pc.PLoop? then Some(PCloseClient) else None
    case Dequeued(i) => if pc.PDequeue? then Some(PSend(i)) else None
    case DequeueFailed => if pc.PDequeue? then Some(PCloseClient) else None
    case IdxSent => if pc.PSend? then Some(PWait(pc.idx)) else None
    case IdxFailed(_) => if pc.PSend? then Some(PGiveBackUnsent(pc.idx)) else None
    case AckReceived => if pc.PWait? then Some(PRequeue(pc.idx)) else None
    case AckFailed => if pc.PWait? then Some(PGiveBackUnacked(pc.idx)) else None
    case Requeued => if pc.PRequeue? then Some(PLoop) else if GivesBack(pc) then Some(PCloseClient) else None
    case RequeueFailed => if pc.PRequeue? || GivesBack(pc) then Some(PCloseClient) else None
    case ClientClosed => if pc.PCloseClient? then Some(PStreamOff) else None
    case StreamingOff(_) => if pc.PStreamOff? then Some(PClearBuffers) else None
    case BuffersCleared => if pc.PClearBuffers? then Some(PCloseDevice) else None
    case DeviceClosed => if pc.PCloseDevice? then Some(PDone) else None
  }

  /** On the way out of the loop with a buffer in hand. */
  predicate GivesBack(pc: PubPc) {
    pc.PGiveBackUnsent? || pc.PGiveBackUnacked?
  }

  /** STREAMOFF has not been attempted. */
  predicate PubStreaming(pc: PubPc) {
    !pc.PClearBuffers? && !pc.PCloseDevice? && !pc.PDone?
  }

  datatype SubPc =
    | SHandshake               // about to receive the handshake
    | SSetup                   // creating the window, the EGL context and the renderer
    | SLoop                    // about to read RUNNING and should_close
    | SRecv(got: seq<byte>)    // inside recv, with these bytes of the index collected
    | SImport(idx: u32)        // about to import the buffer
    | SDraw(idx: u32)          // image live, about to draw and swap
    | SDestroy(idx: u32)       // image live, about to destroy it
    | SAck(idx: u32)           // about to send the ack
    | SDispatch                // about to dispatch window events
    | SDropGraphics            // out of the loop; destructors run in this order
    | SDropFds
    | SDropSocket
    | SDone

  datatype SubEvent =
    | HandshakeReceived
    | HandshakeRefused(read: nat)
    | SetUp
    | SetUpFailed
    | KeepGoing
    | StopSeen
    | ByteReceived(b: byte)
    | EofSeen
    | RecvFailed
    | Imported
    | ImportFailed
    | IndexOutOfBounds         // the Rust slice index panics and unwinds
    | Drawn
    | Destroyed
    | AckSent
    | AckNotSent
    | Dispatched
    | DispatchFailed
    | GraphicsDropped
    | FdsDropped
    | SocketDropped

  function SubNext(pc: SubPc, e: SubEvent): Option<SubPc> {
    match e
    case HandshakeReceived => if pc.SHandshake? then Some(SSetup) else None
    case HandshakeRefused(_) => if pc.SHandshake? then Some(SDropSocket) else None
    case SetUp => if pc.SSetup? then Some(SLoop) else None
    case SetUpFailed => if pc.SSetup? then Some(SDropGraphics) else None
    case KeepGoing => if pc.SLoop? then Some(SRecv([])) else None
    case StopSeen => if pc.SLoop? then Some(SDropGraphics) else None
    case ByteReceived(b) =>
      if !pc.SRecv? then None
      else if |pc.got| == INDEX_SIZE - 1 then Some(SImport(DecodeU32(pc.got + [b])))
      else Some(SRecv(pc.got + [b]))
    case EofSeen => if pc.SRecv? then Some(SDropGraphics) else None
    case RecvFailed => if pc.SRecv? then Some(SDropGraphics) else None
    case Imported => if pc.SImport? then Some(SDraw(pc.idx)) else None
    case ImportFailed => if pc.SImport? then Some(SDropGraphics) else None
    case IndexOutOfBounds => if pc.SImport? then Some(SDropGraphics) else None
    case Drawn => if pc.SDraw? then Some(SDestroy(pc.idx)) else None
    case Destroyed => if pc.SDestroy? then Some(SAck(pc.idx)) else None
    case AckSent => if pc.SAck? then Some(SDispatch) else None
    case AckNotSent => if pc.SAck? then Some(SDropGraphics) else None
    case Dispatched => if pc.SDispatch? then Some(SLoop) else None
    case DispatchFailed => if pc.SDispatch? then Some(SDropGraphics) else None
    case GraphicsDropped => if pc.SDropGraphics? then Some(SDropFds) else None
    case FdsDropped => if pc.SDropFds? then Some(SDropSocket) else None
    case SocketDropped => if pc.SDropSocket? then Some(SDone) else None
  }

  // ---- the same without control points: what a whole log of either program looks like ----

  function PubPath(pc: PubPc, calls: seq<PubEvent>): Option<PubPc>
    decreases |calls|
  {
    if calls == [] then Some(pc)
    else match PubNext(pc, calls[0]) case None => None case Some(next) => PubPath(next, calls[1..])
  }

  /** The connection, the stream, the buffers and the device go, in that order. */
  predicate PubLeaves(calls: seq<PubEvent>) {
    |calls| == 4 && calls[0] == ClientClosed && calls[1].StreamingOff? && calls[2..] == [BuffersCleared, DeviceClosed]
  }

  predicate TriedToGiveBack(e: PubEvent) {
    e == Requeued || e == RequeueFailed
  }

  /** From the top of the loop: a stop; or a turn that fails to dequeue, or to send or to hear back, which gives the
      buffer back, or to requeue; or a complete turn and then the same again. */
  predicate PubLoops(calls: seq<PubEvent>) {
    calls != [] &&
    if calls[0] == SawStopped then PubLeaves(calls[1..])
    else
      && |calls| >= 2 && calls[0] == SawRunning
      && if calls[1] == DequeueFailed then PubLeaves(calls[2..])
         else
           && |calls| >= 4 && calls[1].Dequeued?
           && if calls[2].IdxFailed? then TriedToGiveBack(calls[3]) && PubLeaves(calls[4..])
              else
                && |calls| >= 5 && calls[2] == IdxSent
                && if calls[3] == AckFailed then TriedToGiveBack(calls[4]) && PubLeaves(calls[5..])
                   else
                     && calls[3] == AckReceived
                     && if calls[4] == RequeueFailed then PubLeaves(calls[5..])
                        else calls[4] == Requeued && PubLoops(calls[5..])
  }

  predicate PublisherLog(calls: seq<PubEvent>) {
    calls != [] &&
    if calls[0].HandshakeFailed? then PubLeaves(calls[1..]) else calls[0].HandshakeSent? && PubLoops(calls[1..])
  }

  lemma PubLeavesExactlyWhen(calls: seq<PubEvent>)
    ensures PubPath(PCloseClient, calls) == Some(PDone) <==> PubLeaves(calls)
  {
    if calls != [] && calls[0] == ClientClosed {
      assert PubPath(PCloseClient, calls) == PubPath(PStreamOff, calls[1..]);
      if |calls| > 1 && calls[1].StreamingOff? {
        assert calls[1..][1..] == calls[2..] && PubPath(PStreamOff, calls[1..]) == PubPath(PClearBuffers, calls[2..]);
        PubReleasesExactlyWhen(calls[2..]);
      }
    }
  }

  lemma PubReleasesExactlyWhen(calls: seq<PubEvent>)
    ensures PubPath(PClearBuffers, calls) == Some(PDone) <==> calls == [BuffersCleared, DeviceClosed]
  {
    if calls != [] && calls[0] == BuffersCleared {
      var last := calls[1..];
      assert PubPath(PClearBuffers, calls) == PubPath(PCloseDevice, last) && calls == [BuffersCleared] + last;
      if last != [] && last[0] == DeviceClosed {
        assert PubPath(PCloseDevice, last) == PubPath(PDone, last[1..]) && last == [DeviceClosed] + last[1..];
      }
    }
  }

  /** A buffer that was taken and not handed over is given back before the program leaves. */
  lemma PubGivesBackExactlyWhen(pc: PubPc, calls: seq<PubEvent>)
    requires GivesBack(pc)
    ensures PubPath(pc, calls) == Some(PDone) <==>
            calls != [] && TriedToGiveBack(calls[0]) && PubLeaves(calls[1..])
  {
    if calls != [] {
      PubLeavesExactlyWhen(calls[1..]);
    }
  }

  lemma {:induction false} PubLoopsExactlyWhen(calls: seq<PubEvent>)
    ensures PubPath(PLoop, calls) == Some(PDone) <==> PubLoops(calls)
    decreases |calls|, 2
  {
    if calls == [] {
    } else if calls[0] == SawStopped {
      PubLeavesExactlyWhen(calls[1..]);
    } else if |calls| >= 2 && calls[0] == SawRunning {
      var rest := calls[1..];
      assert rest[1..] == calls[2..];
      if rest[0] == DequeueFailed {
        PubLeavesExactlyWhen(calls[2..]);
      } else if rest[0].Dequeued? {
        PubSendsExactlyWhen(rest[0].idx, calls);
      }
    }
  }

  /** With buffer i in hand, from the send on. */
  lemma {:induction false} PubSendsExactlyWhen(i: u32, calls: seq<PubEvent>)
    requires |calls| >= 2 && calls[0] == SawRunning && calls[1].Dequeued?
    ensures PubPath(PSend(i), calls[2..]) == Some(PDone) <==> PubLoops(calls)
    decreases |calls|, 1
  {
    var rest := calls[2..];
    if rest != [] && rest[0].IdxFailed? {
      assert rest[1..] == calls[3..] && (|calls| >= 4 ==> calls[3..][1..] == calls[4..]);
      PubGivesBackExactlyWhen(PGiveBackUnsent(i), calls[3..]);
    } else if rest != [] && rest[0] == IdxSent {
      assert rest[1..] == calls[3..] && PubPath(PSend(i), rest) == PubPath(PWait(i), calls[3..]);
      PubWaitsExactlyWhen(i, calls);
    }
  }

  /** With the index sent. */
  lemma {:induction false} PubWaitsExactlyWhen(i: u32, calls: seq<PubEvent>)
    requires |calls| >= 3 && calls[0] == SawRunning && calls[1].Dequeued? && calls[2] == IdxSent
    ensures PubPath(PWait(i), calls[3..]) == Some(PDone) <==> PubLoops(calls)
    decreases |calls|, 0
  {
    var rest := calls[3..];
    if rest != [] && rest[0] == AckFailed {
      assert rest[1..] == calls[4..] && (|calls| >= 5 ==> calls[4..][1..] == calls[5..]);
      PubGivesBackExactlyWhen(PGiveBackUnacked(i), calls[4..]);
    } else if rest != [] && rest[0] == AckReceived {
      assert rest[1..] == calls[4..] && PubPath(PWait(i), rest) == PubPath(PRequeue(i), calls[4..]);
      if |calls| >= 5 {
        assert calls[4..][1..] == calls[5..];
        PubLeavesExactlyWhen(calls[5..]);
        PubLoopsExactlyWhen(calls[5..]);
      }
    }
  }

  /** The automaton allows exactly these logs from the handshake to the last destructor. */
  lemma PublisherLogExactlyWhen(calls: seq<PubEvent>)
    ensures PubPath(PHandshake, calls) == Some(PDone) <==> PublisherLog(calls)
  {
    if calls != [] {
      PubLeavesExactlyWhen(calls[1..]);
      PubLoopsExactlyWhen(calls[1..]);
    }
  }

  function SubPath(pc: SubPc, events: seq<SubEvent>): Option<SubPc>
    decreases |events|
  {
    if events == [] then Some(pc)
    else match SubNext(pc, events[0]) case None => None case Some(next) => SubPath(next, events[1..])
  }

  /** The graphics, the descriptors and the socket go, in that order. */
  predicate SubLeaves(events: seq<SubEvent>) {
    events == [GraphicsDropped, FdsDropped, SocketDropped]
  }

  /** From the top of the loop: a stop; or a turn that reads part of an index and then the end of the stream or a
      failure; or one that reads all of it and fails to import, to ack or to dispatch; or a complete turn, which
      imports, draws, destroys, acks and dispatches, and then the same again. */
  predicate SubLoops(events: seq<SubEvent>)
    decreases |events|, 2
  {
    events != [] &&
    if events[0] == StopSeen then SubLeaves(events[1..]) else events[0] == KeepGoing && SubReads(events[1..], 4)
  }

  /** Inside the receiving call, with `left` bytes of the index to come. */
  predicate SubReads(events: seq<SubEvent>, left: nat)
    decreases |events|, 1
  {
    if left == 0 then SubShows(events)
    else
      && events != []
      && if events[0] == EofSeen || events[0] == RecvFailed then SubLeaves(events[1..])
         else events[0].ByteReceived? && SubReads(events[1..], left - 1)
  }

  predicate SubShows(events: seq<SubEvent>)
    decreases |events|, 0
  {
    events != [] &&
    if events[0] == ImportFailed || events[0] == IndexOutOfBounds then SubLeaves(events[1..])
    else
      && |events| >= 4 && events[0] == Imported && events[1] == Drawn && events[2] == Destroyed
      && SubAcks(events[3..])
  }

  predicate SubAcks(events: seq<SubEvent>)
    decreases |events|, 0
  {
    events != [] &&
    if events[0] == AckNotSent then SubLeaves(events[1..])
    else
      && |events| >= 2 && events[0] == AckSent
      && if events[1] == DispatchFailed then SubLeaves(events[2..])
         else events[1] == Dispatched && SubLoops(events[2..])
  }

  predicate SubscriberLog(events: seq<SubEvent>) {
    events != [] &&
    if events[0].HandshakeRefused? then events[1..] == [SocketDropped]
    else
      && |events| >= 2 && events[0] == HandshakeReceived
      && if events[1] == SetUpFailed then SubLeaves(events[2..]) else events[1] == SetUp && SubLoops(events[2..])
  }

  lemma SubLeavesExactlyWhen(events: seq<SubEvent>)
    ensures SubPath(SDropGraphics, events) == Some(SDone) <==> SubLeaves(events)
    ensures SubPath(SDropSocket, events) == Some(SDone) <==> events == [SocketDropped]
  {
    if |events| >= 2 && events[0] == GraphicsDropped && events[1] == FdsDropped {
      var rest := events[1..][1..];
      assert SubPath(SDropGraphics, events) == SubPath(SDropSocket, rest) && rest == events[2..];
      if |rest| >= 1 && rest[0] == SocketDropped {
        assert SubPath(SDropSocket, rest) == SubPath(SDone, rest[1..]);
      }
    }
  }

  lemma {:induction false} SubLoopsExactlyWhen(events: seq<SubEvent>)
    ensures SubPath(SLoop, events) == Some(SDone) <==> SubLoops(events)
    decreases |events|, 2
  {
    if events != [] {
      SubLeavesExactlyWhen(events[1..]);
      SubReadsExactlyWhen(events[1..], []);
    }
  }

  lemma {:induction false} SubReadsExactlyWhen(events: seq<SubEvent>, got: seq<byte>)
    requires |got| < INDEX_SIZE
    ensures SubPath(SRecv(got), events) == Some(SDone) <==> SubReads(events, 4 - |got|)
    decreases |events|, 2
  {
    if events != [] {
      SubLeavesExactlyWhen(events[1..]);
      if events[0].ByteReceived? {
        if |got| == 3 {
          SubShowsExactlyWhen(events[1..], DecodeU32(got + [events[0].b]));
        } else {
          SubReadsExactlyWhen(events[1..], got + [events[0].b]);
        }
      }
    }
  }

  lemma {:induction false} SubShowsExactlyWhen(events: seq<SubEvent>, i: u32)
    ensures SubPath(SImport(i), events) == Some(SDone) <==> SubShows(events)
    decreases |events|, 1
  {
    if events != [] && (events[0] == ImportFailed || events[0] == IndexOutOfBounds) {
      SubLeavesExactlyWhen(events[1..]);
    } else if events != [] && events[0] == Imported {
      var drawing := events[1..];
      assert SubPath(SImport(i), events) == SubPath(SDraw(i), drawing);
      if drawing != [] && drawing[0] == Drawn {
        assert drawing[1..] == events[2..] && SubPath(SDraw(i), drawing) == SubPath(SDestroy(i), events[2..]);
        if |events| > 2 && events[2] == Destroyed {
          assert events[2..][1..] == events[3..];
          SubAcksExactlyWhen(events[3..], i);
        }
      }
    }
  }

  lemma {:induction false} SubAcksExactlyWhen(events: seq<SubEvent>, i: u32)
    ensures SubPath(SAck(i), events) == Some(SDone) <==> SubAcks(events)
    decreases |events|, 0
  {
    if |events| >= 2 {
      assert events[1..][1..] == events[2..];
      SubLeavesExactlyWhen(events[2..]);
      SubLoopsExactlyWhen(events[2..]);
    }
    if events != [] {
      SubLeavesExactlyWhen(events[1..]);
    }
  }

  /** The automaton allows exactly these logs from the handshake to the closing of the socket. */
  lemma SubscriberLogExactlyWhen(events: seq<SubEvent>)
    ensures SubPath(SHandshake, events) == Some(SDone) <==> SubscriberLog(events)
  {
    if events != [] {
      SubLeavesExactlyWhen(events[1..]);
      if |events| >= 2 {
        assert events[1..][1..] == events[2..];
        SubLeavesExactlyWhen(events[2..]);
        SubLoopsExactlyWhen(events[2..]);
      }
    }
  }
}
