/** What holds in every reachable state, and exactly when. */
module Safety {
  import opened Wire
  import opened Driver
  import opened Protocol
  import opened System
  import opened Invariant

  /** No buffer is in the driver's hands while the GPU has an image of it, and until the image is
      destroyed its memory is what was in it at the dequeue. */
  lemma RaceFreedom(c: Config, s: State)
    requires Reachable(c, s) && !c.spuriousAckErrors
    ensures !Racing(s)
    ensures s.sub.image.Some? ==>
              && s.pub.held.Some? && s.pub.held.value < |c.bufs| && !IsQueued(s.dev, s.pub.held.value)
              && s.sub.image.value == c.bufs[s.pub.held.value]
              && s.sub.image.value in s.mem && s.log.captured != []
              && s.mem[s.sub.image.value] == s.log.captured[|s.log.captured| - 1]
  {
    ReachableInv(c, s);
    if s.sub.image.Some? {
      BusyMeansWaiting(c, s);
      if IsQueued(s.dev, s.sub.pc.idx) {
        QueuedIsInPool(c, s, s.sub.pc.idx);
      }
      forall i | i in s.dev.incoming
        ensures i < c.N() && s.dev.bound[i] == c.bufs[i] && i != s.sub.pc.idx
      {
        QueuedIsInPool(c, s, i);
      }
    }
  }

  /** Every index the subscriber works on is in its list, names the memory the driver filled for that
      index, and is the one the publisher has out: the unchecked indexing cannot fail. */
  lemma IndexAgreement(c: Config, s: State)
    requires Reachable(c, s) && !c.spuriousAckErrors
    ensures SubBusy(s.sub.pc) ==>
              && s.sub.pc.idx < |s.sub.bufs| == |s.pub.bufs| && s.sub.pc.idx in s.dev.bound
              && s.sub.bufs[s.sub.pc.idx] == s.dev.bound[s.sub.pc.idx] == s.pub.bufs[s.sub.pc.idx]
              && s.pub.pc == PWait(s.sub.pc.idx)
    ensures !SubEnabled(s, IndexOutOfBounds)
  {
    ReachableInv(c, s);
    if SubBusy(s.sub.pc) {
      BusyMeansWaiting(c, s);
    }
  }

  /** The k-th index received is the k-th sent is the k-th dequeued is k modulo the pool size; a frame
      sent short is never received, and at most one index and one ack are in the socket. */
  lemma Framing(c: Config, s: State)
    requires Reachable(c, s) && !c.spuriousAckErrors
    ensures s.log.received <= s.log.sent <= s.log.taken
    ensures forall k :: 0 <= k < |s.log.taken| ==> s.log.taken[k] == k % |c.bufs|
    ensures s.log.cut != [] ==> |s.log.shown| <= |s.log.received| <= |s.log.sent| < |s.log.taken| && !SubBusy(s.sub.pc)
    ensures |s.log.sent| <= |s.log.received| + 1 && |s.net.back| <= 1
  {
    ReachableInv(c, s);
    forall k | 0 <= k < |s.log.taken|
      ensures s.log.taken[k] == k % |c.bufs|
    {
      HeadIsModulo(k, |c.bufs|);
    }
    if SubBusy(s.sub.pc) {
      BusyMeansWaiting(c, s);
    }
  }

  /** Acks never run ahead of indices nor indices of acks, so an ack in the socket is for the buffer
      the publisher is about to requeue, and a completed round has shown its frame. */
  lemma AckAccounting(c: Config, s: State)
    requires Reachable(c, s) && !c.spuriousAckErrors
    ensures s.log.acksSent <= |s.log.sent| <= s.log.acksReceived + 1
    ensures s.log.acksReceived + |s.net.back| == s.log.acksSent
    ensures s.net.back != [] ==>
              && |s.net.back| == 1 && s.log.acksSent == |s.log.sent| == |s.log.taken|
              && s.sub.image.None? && |s.log.shown| == |s.log.captured|
              && (s.sub.open ==> s.pub.pc == PWait(s.log.taken[|s.log.taken| - 1]))
    ensures s.pub.pc.PLoop? || s.pub.pc.PDequeue? ==> s.log.shown == s.log.captured
  {
    ReachableInv(c, s);
    if s.net.back != [] && SubBusy(s.sub.pc) {
      BusyMeansWaiting(c, s);
    }
  }

  /** While the loop runs, the driver's buffers and the one the publisher has out are 0..N-1 without
      repetition; the driver keeps at least N-1. */
  lemma BufferConservation(c: Config, s: State)
    requires Reachable(c, s) && !c.spuriousAckErrors && PubStreaming(s.pub.pc)
    ensures Distinct(Order(s.dev))
    ensures forall i: u32 :: i < |c.bufs| <==> (IsQueued(s.dev, i) || s.pub.held == Some(i))
    ensures s.pub.held.Some? ==> !IsQueued(s.dev, s.pub.held.value)
    ensures |s.dev.incoming| + |s.dev.done| == |c.bufs| - (if s.pub.held.Some? then 1 else 0)
  {
    ReachableInv(c, s);
    RingPartition(Order(s.dev), c.N(), |s.log.taken|, s.pub.held);
    forall i: u32
      ensures i in Order(s.dev) <==> IsQueued(s.dev, i)
    {
      OrderIsQueued(s.dev, i);
    }
  }

  /** Every QBUF on every branch names the one buffer that is out, which the driver accepts, the driver
      streams until the teardown, and a DQBUF is only made with none out. */
  lemma CallDiscipline(c: Config, s: State)
    requires Reachable(c, s) && !c.spuriousAckErrors
    ensures s.pub.pc.PRequeue? || GivesBack(s.pub.pc) ==>
              s.pub.held == Some(s.pub.pc.idx) && CanQueue(s.dev, s.pub.pc.idx) && PubEnabled(c, s, Requeued)
    ensures s.pub.pc.PDequeue? ==> s.pub.held.None?
    ensures PubStreaming(s.pub.pc) ==> s.dev.streaming
    ensures s.pub.pc.PDone? ==> s.dev == IDLE
  {
    ReachableInv(c, s);
    if s.pub.pc.PRequeue? || GivesBack(s.pub.pc) {
      BufferConservation(c, s);
    }
  }

  // ---- reaching states ----

  lemma {:induction false} RunThenStep(c: Config, s: State, run: seq<Label>, l: Label)
    requires CanRun(c, s, run) && Enabled(c, Run(c, s, run), l)
    ensures CanRun(c, s, run + [l]) && Run(c, s, run + [l]) == Step(c, Run(c, s, run), l)
    decreases |run|
  {
    if run == [] {
      assert run + [l] == [l] && [l][1..] == [];
    } else {
      assert (run + [l])[0] == run[0] && (run + [l])[1..] == run[1..] + [l];
      RunThenStep(c, Step(c, s, run[0]), run[1..], l);
    }
  }

  lemma ReachNext(c: Config, s: State, l: Label)
    requires Reachable(c, s) && Enabled(c, s, l)
    ensures Reachable(c, Step(c, s, l))
  {
    var s0, run :| IsInit(c, s0) && CanRun(c, s0, run) && Run(c, s0, run) == s;
    RunThenStep(c, s0, run, l);
  }

  lemma ReachInit(c: Config) returns (s: State)
    requires c.Valid()
    ensures IsInit(c, s) && Reachable(c, s)
  {
    var mem := map o | o in c.bufs :: 0;
    s := Init(c, mem);
    assert CanRun(c, s, []) && Run(c, s, []) == s;
  }

  // ---- starvation ----

  lemma FirstFrameOut(c: Config, s: State) returns (t: State)
    requires c.Valid() && Reachable(c, s)
    requires s.pub == Publisher(PLoop, true, true, c.bufs, None)
    requires s.dev == Driver(c.alloc, map i: u32 | i < c.N() :: c.bufs[i], Range(c.N()), [], true)
    requires c.bufs[0] in s.mem
    ensures Reachable(c, t)
    ensures t.pub == Publisher(PSend(0), true, true, c.bufs, Some(0))
    ensures t.dev == Driver(c.alloc, map i: u32 | i < c.N() :: c.bufs[i], Range(c.N())[1..], [], true)
    ensures t.sub == s.sub && t.net == s.net && t.mem == s.mem
  {
    hide EncodeU32, DecodeU32, EncodeHandshake, DecodeHandshake, Reachable;
    ReachNext(c, s, Pub(SawRunning));
    t := Step(c, s, Pub(SawRunning));
    ReachNext(c, t, Fill);
    t := Step(c, t, Fill);
    assert t.dev.done == [0];
    ReachNext(c, t, Pub(Dequeued(0)));
    t := Step(c, t, Pub(Dequeued(0)));
    assert t.dev.done == [];
  }

  lemma HandshakeOut(c: Config) returns (t: State)
    requires c.Valid()
    ensures Reachable(c, t)
    ensures t.pub == Publisher(PLoop, true, true, c.bufs, None)
    ensures t.dev == Driver(c.alloc, map i: u32 | i < c.N() :: c.bufs[i], Range(c.N()), [], true)
    ensures t.sub == Subscriber(SHandshake, true, true, [], None)
    ensures t.net == Socket(EncodeHandshake(c.header), Some(c.bufs), [])
    ensures c.bufs[0] in t.mem
  {
    var s := ReachInit(c);
    ReachNext(c, s, Pub(HandshakeSent));
    t := Step(c, s, Pub(HandshakeSent));
    assert t.net.fwd == [] + EncodeHandshake(c.header) == EncodeHandshake(c.header);
  }

  /** The driver can be left without any buffer while the publisher is in its loop exactly if the pool
      has one buffer, which the DMABUF capture does not rule out. */
  lemma StarvationExactlyWhen(c: Config)
    requires c.Valid() && !c.spuriousAckErrors
    ensures (exists s :: Reachable(c, s) && PubInLoop(s.pub.pc) && Order(s.dev) == []) <==> |c.bufs| == 1
  {
    forall s | Reachable(c, s) && PubInLoop(s.pub.pc) && Order(s.dev) == []
      ensures |c.bufs| == 1
    {
      BufferConservation(c, s);
    }
    if |c.bufs| == 1 {
      var s := HandshakeOut(c);
      var t := FirstFrameOut(c, s);
      assert Order(t.dev) == [];
    }
  }

  // ---- the assumption about ack errors is needed ----

  lemma Go(c: Config, s: State, l: Label) returns (t: State)
    requires Reachable(c, s) && Enabled(c, s, l)
    ensures Reachable(c, t) && t == Step(c, s, l)
  {
    ReachNext(c, s, l);
    t := Step(c, s, l);
  }

  lemma SubscriberReady(c: Config) returns (t: State)
    requires c.Valid() && |c.bufs| <= MAX_FDS
    ensures Reachable(c, t)
    ensures t.pub == Publisher(PLoop, true, true, c.bufs, None)
    ensures t.dev == Driver(c.alloc, map i: u32 | i < c.N() :: c.bufs[i], Range(c.N()), [], true)
    ensures t.sub == Subscriber(SRecv([]), true, true, c.bufs, None)
    ensures t.net.fwd == [] && c.bufs[0] in t.mem
  {
    t := HandshakeOut(c);
    HandshakeRoundTrip(c.header, EncodeHandshake(c.header));
    assert t.net.fwd[..HANDSHAKE_SIZE] == EncodeHandshake(c.header);
    hide EncodeHandshake, DecodeHandshake;
    t := Go(c, t, Sub(HandshakeReceived));
    t := Go(c, t, Sub(SetUp));
    t := Go(c, t, Sub(KeepGoing));
  }

  lemma ReadZero(c: Config, s: State, left: nat) returns (t: State)
    requires Reachable(c, s) && s.sub.pc.SRecv? && 0 < left && |s.sub.pc.got| + left == INDEX_SIZE
    requires s.net.fwd == seq(left, i => 0) && s.sub.pc.got == seq(INDEX_SIZE - left, i => 0)
    ensures Reachable(c, t) && t.pub == s.pub && t.dev == s.dev && t.sub == s.sub.(pc := SImport(0))
    decreases left
  {
    t := Go(c, s, Sub(ByteReceived(0)));
    if left > 1 {
      assert t.sub.pc.got == seq(INDEX_SIZE - (left - 1), i => 0);
      assert t.net.fwd == seq(left - 1, i => 0);
      t := ReadZero(c, t, left - 1);
    }
  }

  lemma FrameImported(c: Config) returns (t: State)
    requires c.Valid() && |c.bufs| <= MAX_FDS
    ensures Reachable(c, t)
    ensures t.pub == Publisher(PWait(0), true, true, c.bufs, Some(0))
    ensures t.dev == Driver(c.alloc, map i: u32 | i < c.N() :: c.bufs[i], Range(c.N())[1..], [], true)
    ensures t.sub.image == Some(c.bufs[0])
  {
    hide Reachable, DecodeU32, EncodeHandshake, DecodeHandshake;
    t := SubscriberReady(c);
    t := FirstFrameOut(c, t);
    t := Go(c, t, Pub(IdxSent));
    assert t.net.fwd == seq(INDEX_SIZE, i => 0);
    t := ReadZero(c, t, INDEX_SIZE);
    t := Go(c, t, Sub(Imported));
  }

  /** A pool too large for the ancillary buffer never gets past the handshake. */
  predicate Refused(c: Config, s: State) {
    && (s.sub.pc.SHandshake? || s.sub.pc.SDropSocket? || s.sub.pc.SDone?)
    && s.sub.image.None?
    && (s.pub.pc.PHandshake? ==> s.pub.bufs == c.bufs)
    && (s.net.rights.Some? ==> s.net.rights.value == c.bufs)
  }

  lemma RefusedStep(c: Config, s: State, l: Label)
    requires Refused(c, s) && |c.bufs| > MAX_FDS && Enabled(c, s, l)
    ensures Refused(c, Step(c, s, l))
  {
    hide EncodeHandshake, DecodeHandshake, EncodeU32, DecodeU32;
  }

  lemma {:induction false} RefusedRun(c: Config, s: State, run: seq<Label>)
    requires Refused(c, s) && |c.bufs| > MAX_FDS && CanRun(c, s, run)
    ensures Refused(c, Run(c, s, run))
    decreases |run|
  {
    if run != [] {
      RefusedStep(c, s, run[0]);
      RefusedRun(c, Step(c, s, run[0]), run[1..]);
    }
  }

  /** The hardware can store into memory under a live image exactly if an ack read can fail with the
      subscriber still connected, the branch on which the publisher requeues without an ack. */
  lemma RaceExactlyWhen(c: Config)
    requires c.Valid()
    ensures (exists s :: Reachable(c, s) && Racing(s)) <==> c.spuriousAckErrors && |c.bufs| <= MAX_FDS
  {
    forall s | Reachable(c, s) && Racing(s)
      ensures c.spuriousAckErrors && |c.bufs| <= MAX_FDS
    {
      if !c.spuriousAckErrors {
        RaceFreedom(c, s);
      } else if |c.bufs| > MAX_FDS {
        var s0, run :| IsInit(c, s0) && CanRun(c, s0, run) && Run(c, s0, run) == s;
        RefusedRun(c, s0, run);
      }
    }
    if c.spuriousAckErrors && |c.bufs| <= MAX_FDS {
      var s := FrameImported(c);
      UnackedRequeueRaces(c, s);
    }
  }

  lemma UnackedRequeueRaces(c: Config, s: State)
    requires c.Valid() && c.spuriousAckErrors && Reachable(c, s)
    requires s.pub == Publisher(PWait(0), true, true, c.bufs, Some(0))
    requires s.dev == Driver(c.alloc, map i: u32 | i < c.N() :: c.bufs[i], Range(c.N())[1..], [], true)
    requires s.sub.image == Some(c.bufs[0])
    ensures exists t :: Reachable(c, t) && Racing(t)
  {
    hide Reachable, EncodeU32, DecodeU32, EncodeHandshake, DecodeHandshake;
    var t := Go(c, s, Pub(AckFailed));
    assert CanQueue(t.dev, 0);
    t := Go(c, t, Pub(Requeued));
    assert t.dev.incoming == Range(c.N())[1..] + [0];
    assert t.dev.incoming[|t.dev.incoming| - 1] == 0;
    assert 0 in t.dev.incoming && t.dev.bound[0] == c.bufs[0];
    assert Racing(t);
  }

  /** In this run no ack read fails while the subscriber's end is open. */
  predicate NoSpuriousError(c: Config, s: State, run: seq<Label>)
    requires CanRun(c, s, run)
    decreases |run|
  {
    run == [] ||
    (!(run[0] == Pub(AckFailed) && s.sub.open) && NoSpuriousError(c, Step(c, s, run[0]), run[1..]))
  }

  lemma StepWithoutErrors(c: Config, s: State, l: Label)
    requires Enabled(c, s, l) && !(l == Pub(AckFailed) && s.sub.open)
    ensures var d := c.(spuriousAckErrors := false);
            Enabled(d, s, l) && Step(d, s, l) == Step(c, s, l)
  {
    hide EncodeU32, DecodeU32, EncodeHandshake, DecodeHandshake, SubStep, SubEnabled, CanQueue;
  }

  lemma {:induction false} RunWithoutErrors(c: Config, s: State, run: seq<Label>)
    requires CanRun(c, s, run) && NoSpuriousError(c, s, run)
    ensures var d := c.(spuriousAckErrors := false);
            CanRun(d, s, run) && Run(d, s, run) == Run(c, s, run)
    decreases |run|
  {
    hide Step, Enabled;
    if run != [] {
      StepWithoutErrors(c, s, run[0]);
      RunWithoutErrors(c, Step(c, s, run[0]), run[1..]);
    }
  }

  /** The same run by run, whatever the configuration allows: a run that ends in a race contains an ack read that
      failed with the subscriber's end open. */
  lemma RaceNeedsSpuriousError(c: Config, s: State, run: seq<Label>)
    requires IsInit(c, s) && CanRun(c, s, run) && Racing(Run(c, s, run))
    ensures !NoSpuriousError(c, s, run)
  {
    if NoSpuriousError(c, s, run) {
      var d := c.(spuriousAckErrors := false);
      RunWithoutErrors(c, s, run);
      assert IsInit(d, s) && Reachable(d, Run(c, s, run));
      RaceFreedom(d, Run(c, s, run));
    }
  }

  /** The publisher has left its loop. */
  predicate OutOfLoop(pc: PubPc) {
    pc.PCloseClient? || pc.PStreamOff? || !PubStreaming(pc)
  }

  lemma StepKeepsHeld(c: Config, s: State, l: Label)
    requires Enabled(c, s, l) && HeldInv(s.pub.pc, s.pub.held)
    ensures var t := Step(c, s, l);
            && HeldInv(t.pub.pc, t.pub.held)
            && (OutOfLoop(t.pub.pc) && t.pub.held.Some? <==>
                  (OutOfLoop(s.pub.pc) && s.pub.held.Some?) || l == Pub(RequeueFailed))
  {
    hide SubStep, SubEnabled, PubStep, PubEnabled;
    if l.Pub? {
      PubKeepsHeld(c, s, l.pe);
    } else if l.Sub? {
      SubLeavesPublisher(s, l.se);
    }
  }

  lemma SubLeavesPublisher(s: State, e: SubEvent)
    requires SubEnabled(s, e)
    ensures SubStep(s, e).pub == s.pub
  {
  }

  lemma PubKeepsHeld(c: Config, s: State, e: PubEvent)
    requires PubEnabled(c, s, e) && HeldInv(s.pub.pc, s.pub.held)
    ensures var t := PubStep(c, s, e);
            && HeldInv(t.pub.pc, t.pub.held)
            && (OutOfLoop(t.pub.pc) && t.pub.held.Some? <==>
                  (OutOfLoop(s.pub.pc) && s.pub.held.Some?) || e == RequeueFailed)
  {
    hide EncodeU32, EncodeHandshake, Dequeue, Queue, SwitchOff;
  }

  lemma {:induction false} RunKeepsHeld(c: Config, s: State, run: seq<Label>)
    requires CanRun(c, s, run) && HeldInv(s.pub.pc, s.pub.held)
    ensures var t := Run(c, s, run);
            OutOfLoop(t.pub.pc) && t.pub.held.Some? <==>
              (OutOfLoop(s.pub.pc) && s.pub.held.Some?) || Pub(RequeueFailed) in run
    decreases |run|
  {
    if run != [] {
      StepKeepsHeld(c, s, run[0]);
      hide Step, Enabled;
      RunKeepsHeld(c, Step(c, s, run[0]), run[1..]);
      assert run == [run[0]] + run[1..];
    }
  }

  /** On every way out of the loop, whatever failed and in whatever configuration, the publisher has a buffer that it
      did not give back if and only if the device refused to take one.  So otherwise, until the stream is stopped,
      the driver has all of them. */
  lemma GivenBackUnlessRefused(c: Config, s: State, run: seq<Label>)
    requires IsInit(c, s) && CanRun(c, s, run) && OutOfLoop(Run(c, s, run).pub.pc)
    ensures var t := Run(c, s, run);
            && (t.pub.held.Some? <==> Pub(RequeueFailed) in run)
            && (!c.spuriousAckErrors && PubStreaming(t.pub.pc) && Pub(RequeueFailed) !in run ==>
                  forall i: u32 :: i < |c.bufs| <==> IsQueued(t.dev, i))
  {
    RunKeepsHeld(c, s, run);
    if !c.spuriousAckErrors && PubStreaming(Run(c, s, run).pub.pc) {
      assert Reachable(c, Run(c, s, run));
      BufferConservation(c, Run(c, s, run));
    }
  }
}
