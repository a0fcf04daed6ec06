/** The inductive invariant of the system, for sessions in which a failed ack read means a closed peer. */
module Invariant {
  import opened Wire
  import opened Driver
  import opened Protocol
  import opened System

  predicate PubInLoop(pc: PubPc) {
    pc.PLoop? || pc.PDequeue? || pc.PSend? || pc.PWait? || pc.PRequeue?
  }

  predicate PubConnected(pc: PubPc) {
    PubStreaming(pc) && !pc.PStreamOff?
  }

  /** Between having received an index and having sent its ack. */
  predicate SubBusy(pc: SubPc) {
    pc.SImport? || pc.SDraw? || pc.SDestroy? || pc.SAck?
  }

  predicate SubLeaving(pc: SubPc) {
    pc.SDropGraphics? || pc.SDropFds? || pc.SDropSocket? || pc.SDone?
  }

  predicate SubHoldsFds(pc: SubPc) {
    !pc.SHandshake? && !pc.SDropSocket? && !pc.SDone?
  }

  /** The driver cycles through the pool and at most one buffer is out. */
  predicate RingInv(c: Config, dev: Driver, held: Option<u32>, taken: nat)
    requires c.Valid()
  {
    if dev.streaming then Ring(Order(dev), c.N(), taken, held) else dev.incoming == dev.done == []
  }

  /** The device is torn down in order: stop, release the descriptors, close. */
  predicate DeviceInv(c: Config, pub: PubPc, pubBufs: seq<Obj>, dev: Driver)
    requires c.Valid()
  {
    && (if pub.PDone? then dev == IDLE else Bound(c, dev))
    && (if pub.PCloseDevice? || pub.PDone? then pubBufs == [] else pubBufs == c.bufs)
    && (PubStreaming(pub) ==> dev.streaming)
  }

  predicate Bound(c: Config, dev: Driver)
    requires c.Valid()
  {
    dev.alloc == c.alloc && forall i: u32 :: i < c.N() ==> i in dev.bound && dev.bound[i] == c.bufs[i]
  }

  predicate TakenInv(n: nat, taken: seq<u32>, held: Option<u32>)
    requires n > 0
  {
    && (forall k :: 0 <= k < |taken| ==> taken[k] == Head(k, n))
    && (held.Some? ==> taken != [] && held.value == taken[|taken| - 1])
  }

  /** Memory is mapped for the session, and a buffer that is out keeps the contents it was dequeued with. */
  predicate MemoryInv(c: Config, held: Option<u32>, mem: map<Obj, Frame>, captured: seq<Frame>)
    requires c.Valid()
  {
    && (forall i :: 0 <= i < |c.bufs| ==> c.bufs[i] in mem)
    && (held.Some? ==> held.value < c.N() && captured != []
                       && mem[c.bufs[held.value]] == captured[|captured| - 1])
  }

  /** The publisher knows which buffer is out. */
  predicate HeldInv(pub: PubPc, held: Option<u32>) {
    && (pub.PHandshake? || pub.PLoop? || pub.PDequeue? ==> held.None?)
    && (PubIdx(pub).Some? ==> held == PubIdx(pub))
  }

  /** Dequeues, sends, receives, draws and acks alternate strictly. */
  predicate CountInv(pub: PubPc, sub: SubPc, taken: nat, sent: nat, received: nat, shown: nat,
                     acksSent: nat, acksReceived: nat, acksInFlight: nat) {
    && acksReceived <= acksSent <= shown <= received <= sent <= taken <= sent + 1
    && received <= acksSent + 1
    && sent <= acksReceived + 1
    && acksInFlight == acksSent - acksReceived
    && (sent == acksReceived + 1 ==> taken == sent && (pub.PWait? || sub.SDone?))
    && PubCount(pub, sub, taken, sent, acksReceived)
    && SubCount(sub, received, shown, acksSent)
  }

  predicate PubCount(pub: PubPc, sub: SubPc, taken: nat, sent: nat, acksReceived: nat) {
    match pub
    case PHandshake => taken == 0
    case PLoop => taken == acksReceived
    case PDequeue => taken == acksReceived
    case PSend(_) => taken == sent + 1
    case PWait(_) => sent == acksReceived + 1
    case PRequeue(_) => taken == acksReceived
    case PGiveBackUnsent(_) => taken == sent + 1
    case PGiveBackUnacked(_) => sent == acksReceived + 1
    case _ => true
  }

  predicate SubCount(sub: SubPc, received: nat, shown: nat, acksSent: nat) {
    match sub
    case SHandshake => received == 0
    case SSetup => received == 0
    case SLoop => received == acksSent
    case SRecv(_) => received == acksSent
    case SImport(_) => received == acksSent + 1 && shown == acksSent
    case SDraw(_) => received == acksSent + 1 && shown == acksSent
    case SDestroy(_) => shown == acksSent + 1
    case SAck(_) => shown == acksSent + 1
    case SDispatch => received == acksSent
    case _ => true
  }

  /** Received is a prefix of sent, sent a prefix of dequeued, shown a prefix of captured. */
  predicate HistoryInv(taken: seq<u32>, sent: seq<u32>, received: seq<u32>, captured: seq<Frame>, shown: seq<Frame>) {
    && |captured| == |taken|
    && sent <= taken
    && received <= sent
    && shown <= captured
  }

  /** The subscriber works on the index it received last. */
  predicate BusyInv(sub: SubPc, received: seq<u32>) {
    SubBusy(sub) ==> received != [] && received[|received| - 1] == sub.idx
  }

  /** What the subscriber has yet to read of the indices. */
  function InFlight(sent: seq<u32>, received: seq<u32>, cut: seq<byte>): seq<byte> {
    (if |sent| > |received| then EncodeU32(sent[|received|]) else []) + cut
  }

  /** A short send happens only on the way out. */
  predicate CutInv(pub: PubPc, cut: seq<byte>, taken: nat, sent: nat, acksReceived: nat) {
    && |cut| < INDEX_SIZE
    && (cut != [] ==> sent == acksReceived && taken == sent + 1 && !pub.PHandshake? && !PubInLoop(pub))
  }

  /** Until the handshake is out, nothing else is. */
  predicate HandshakeInv(pub: PubPc, handshakeSent: bool, fwd: seq<byte>, rights: Option<seq<Obj>>) {
    && (pub.PHandshake? ==> !handshakeSent && fwd == [] && rights == None)
    && (PubInLoop(pub) ==> handshakeSent)
  }

  predicate NoHandshakeInv(sub: SubPc, handshakeSent: bool, fwd: nat, taken: nat, cut: nat) {
    !handshakeSent ==>
      && (sub.SHandshake? || sub.SDropSocket? || sub.SDone?)
      && fwd < HANDSHAKE_SIZE && taken == 0 && cut == 0
  }

  /** The bytes in the socket are exactly those of the messages not yet read. */
  predicate StreamInv(c: Config, sub: SubPc, handshakeSent: bool, fwd: seq<byte>, rights: Option<seq<Obj>>,
                      pending: seq<byte>)
  {
    match sub
    case SHandshake => handshakeSent ==> fwd == EncodeHandshake(c.header) + pending && rights == Some(c.bufs)
    case SRecv(got) => |got| < INDEX_SIZE && got + fwd == pending
    case _ => SubLeaving(sub) || fwd == pending
  }

  /** What the subscriber holds, and that its socket is the last thing it closes. */
  predicate SubscriberInv(c: Config, sub: SubPc, subOpen: bool, subBufs: seq<Obj>, image: Option<Obj>) {
    && (subOpen <==> !sub.SDone?)
    && subBufs == (if SubHoldsFds(sub) then c.bufs else [])
    && (image.Some? <==> sub.SDraw? || sub.SDestroy?)
    && (image.Some? ==> sub.idx < |c.bufs| && image.value == c.bufs[sub.idx])
  }

  predicate PublisherInv(pub: PubPc, sub: SubPc, pubOpen: bool) {
    && (pubOpen <==> PubConnected(pub))
    && (pub.PGiveBackUnacked? ==> sub.SDone?)
  }

  ghost predicate Inv(c: Config, s: State) {
    && c.Valid()
    && !c.spuriousAckErrors
    && RingInv(c, s.dev, s.pub.held, |s.log.taken|)
    && DeviceInv(c, s.pub.pc, s.pub.bufs, s.dev)
    && TakenInv(|c.bufs|, s.log.taken, s.pub.held)
    && MemoryInv(c, s.pub.held, s.mem, s.log.captured)
    && HeldInv(s.pub.pc, s.pub.held)
    && Counted(s)
    && HistoryInv(s.log.taken, s.log.sent, s.log.received, s.log.captured, s.log.shown)
    && BusyInv(s.sub.pc, s.log.received)
    && CutInv(s.pub.pc, s.log.cut, |s.log.taken|, |s.log.sent|, s.log.acksReceived)
    && HandshakeInv(s.pub.pc, s.log.handshakeSent, s.net.fwd, s.net.rights)
    && NoHandshakeInv(s.sub.pc, s.log.handshakeSent, |s.net.fwd|, |s.log.taken|, |s.log.cut|)
    && Streamed(c, s)
    && SubscriberInv(c, s.sub.pc, s.sub.open, s.sub.bufs, s.sub.image)
    && PublisherInv(s.pub.pc, s.sub.pc, s.pub.open)
  }

  predicate Counted(s: State) {
    CountInv(s.pub.pc, s.sub.pc, |s.log.taken|, |s.log.sent|, |s.log.received|, |s.log.shown|,
             s.log.acksSent, s.log.acksReceived, |s.net.back|)
  }

  predicate Streamed(c: Config, s: State) {
    StreamInv(c, s.sub.pc, s.log.handshakeSent, s.net.fwd, s.net.rights,
              InFlight(s.log.sent, s.log.received, s.log.cut))
  }

  lemma InitInv(c: Config, s: State)
    requires IsInit(c, s) && !c.spuriousAckErrors
    ensures Inv(c, s)
  {
    RingInitially(c.N());
    assert Order(s.dev) == Range(c.N());
  }

  lemma SignalKeepsInv(c: Config, s: State, l: Label)
    requires Inv(c, s) && Enabled(c, s, l) && (l.PubSignal? || l.SubSignal?)
    ensures Inv(c, Step(c, s, l))
  {
  }

  lemma FillKeepsInv(c: Config, s: State)
    requires Inv(c, s) && Enabled(c, s, Fill)
    ensures Inv(c, Step(c, s, Fill))
  {
    CompleteKeepsOrder(s.dev);
  }

  lemma QueuedIsInPool(c: Config, s: State, i: u32)
    requires c.Valid() && RingInv(c, s.dev, s.pub.held, |s.log.taken|) && IsQueued(s.dev, i)
    ensures i < c.N() && s.pub.held != Some(i)
  {
    RingPartition(Order(s.dev), c.N(), |s.log.taken|, s.pub.held);
    OrderIsQueued(s.dev, i);
  }

  lemma WriteKeepsInv(c: Config, s: State, l: Label)
    requires Inv(c, s) && Enabled(c, s, l) && l.Write?
    ensures Inv(c, Step(c, s, l))
  {
    QueuedIsInPool(c, s, l.idx);
    assert MemoryInv(c, s.pub.held, Step(c, s, l).mem, s.log.captured);
  }

  // ---- publisher ----

  lemma PubStepCounts(c: Config, s: State, e: PubEvent)
    requires !c.spuriousAckErrors && Counted(s) && PubEnabled(c, s, e)
    requires s.sub.open <==> !s.sub.pc.SDone?
    requires s.pub.pc.PGiveBackUnacked? ==> s.sub.pc.SDone?
    ensures Counted(PubStep(c, s, e))
  {
  }

  lemma PubStepRing(c: Config, s: State, e: PubEvent)
    requires c.Valid() && PubEnabled(c, s, e)
    requires RingInv(c, s.dev, s.pub.held, |s.log.taken|) && HeldInv(s.pub.pc, s.pub.held)
    requires DeviceInv(c, s.pub.pc, s.pub.bufs, s.dev)
    ensures var t := PubStep(c, s, e); RingInv(c, t.dev, t.pub.held, |t.log.taken|)
  {
    var t := PubStep(c, s, e);
    match e {
      case Dequeued(i) =>
        RingDequeue(Order(s.dev), c.N(), |s.log.taken|);
        assert Order(t.dev) == Order(s.dev)[1..];
      case Requeued =>
        RingRequeue(Order(s.dev), c.N(), |s.log.taken|, s.pub.pc.idx);
        assert Order(t.dev) == Order(s.dev) + [s.pub.pc.idx];
      case _ =>
    }
  }

  lemma PubStepDevice(c: Config, s: State, e: PubEvent)
    requires c.Valid() && PubEnabled(c, s, e) && DeviceInv(c, s.pub.pc, s.pub.bufs, s.dev)
    ensures var t := PubStep(c, s, e); DeviceInv(c, t.pub.pc, t.pub.bufs, t.dev)
  {
  }

  lemma PubStepTaken(c: Config, s: State, e: PubEvent)
    requires c.Valid() && PubEnabled(c, s, e)
    requires RingInv(c, s.dev, s.pub.held, |s.log.taken|) && HeldInv(s.pub.pc, s.pub.held)
    requires TakenInv(|c.bufs|, s.log.taken, s.pub.held)
    ensures var t := PubStep(c, s, e); TakenInv(|c.bufs|, t.log.taken, t.pub.held)
  {
    if e.Dequeued? {
      RingDequeue(Order(s.dev), c.N(), |s.log.taken|);
    }
  }

  lemma PubStepHistory(c: Config, s: State, e: PubEvent)
    requires PubEnabled(c, s, e) && HeldInv(s.pub.pc, s.pub.held)
    requires s.pub.held.Some? ==> s.log.taken != [] && s.pub.held.value == s.log.taken[|s.log.taken| - 1]
    requires Counted(s) && HistoryInv(s.log.taken, s.log.sent, s.log.received, s.log.captured, s.log.shown)
    ensures var t := PubStep(c, s, e);
            HistoryInv(t.log.taken, t.log.sent, t.log.received, t.log.captured, t.log.shown)
  {
    var t := PubStep(c, s, e);
    if e.Dequeued? {
      assert t.log.taken[..|s.log.taken|] == s.log.taken && t.log.captured[..|s.log.captured|] == s.log.captured;
    } else if e.IdxSent? {
      assert s.pub.pc.idx == s.log.taken[|s.log.sent|];
      assert t.log.sent == t.log.taken[..|t.log.sent|];
      assert t.log.received == t.log.sent[..|t.log.received|];
    }
  }

  lemma PubStepMemory(c: Config, s: State, e: PubEvent)
    requires c.Valid() && PubEnabled(c, s, e)
    requires RingInv(c, s.dev, s.pub.held, |s.log.taken|) && DeviceInv(c, s.pub.pc, s.pub.bufs, s.dev)
    requires MemoryInv(c, s.pub.held, s.mem, s.log.captured) && HeldInv(s.pub.pc, s.pub.held)
    ensures var t := PubStep(c, s, e); MemoryInv(c, t.pub.held, t.mem, t.log.captured) && HeldInv(t.pub.pc, t.pub.held)
  {
    if e.Dequeued? {
      QueuedIsInPool(c, s, e.idx);
      DequeueKeepsMemory(c, s, e.idx);
    } else {
      OthersKeepMemory(c, s, e);
    }
  }

  lemma DequeueKeepsMemory(c: Config, s: State, i: u32)
    requires c.Valid() && PubEnabled(c, s, Dequeued(i)) && i < c.N() && s.dev.bound[i] == c.bufs[i]
    requires MemoryInv(c, s.pub.held, s.mem, s.log.captured)
    ensures var t := PubStep(c, s, Dequeued(i));
            MemoryInv(c, t.pub.held, t.mem, t.log.captured) && HeldInv(t.pub.pc, t.pub.held)
  {
  }

  lemma OthersKeepMemory(c: Config, s: State, e: PubEvent)
    requires c.Valid() && PubEnabled(c, s, e) && !e.Dequeued?
    requires MemoryInv(c, s.pub.held, s.mem, s.log.captured) && HeldInv(s.pub.pc, s.pub.held)
    ensures var t := PubStep(c, s, e); MemoryInv(c, t.pub.held, t.mem, t.log.captured) && HeldInv(t.pub.pc, t.pub.held)
  {
    hide EncodeU32, EncodeHandshake;
    var t := PubStep(c, s, e);
    assert t.mem == s.mem && t.log.captured == s.log.captured && (t.pub.held == s.pub.held || t.pub.held.None?);
    assert HeldInv(t.pub.pc, t.pub.held);
  }

  lemma PubStepHandshake(c: Config, s: State, e: PubEvent)
    requires PubEnabled(c, s, e)
    requires HandshakeInv(s.pub.pc, s.log.handshakeSent, s.net.fwd, s.net.rights) && Counted(s)
    requires NoHandshakeInv(s.sub.pc, s.log.handshakeSent, |s.net.fwd|, |s.log.taken|, |s.log.cut|)
    ensures var t := PubStep(c, s, e);
            && HandshakeInv(t.pub.pc, t.log.handshakeSent, t.net.fwd, t.net.rights)
            && NoHandshakeInv(t.sub.pc, t.log.handshakeSent, |t.net.fwd|, |t.log.taken|, |t.log.cut|)
  {
  }

  lemma PubStepCut(c: Config, s: State, e: PubEvent)
    requires PubEnabled(c, s, e)
    requires CutInv(s.pub.pc, s.log.cut, |s.log.taken|, |s.log.sent|, s.log.acksReceived) && Counted(s)
    ensures var t := PubStep(c, s, e); CutInv(t.pub.pc, t.log.cut, |t.log.taken|, |t.log.sent|, t.log.acksReceived)
  {
  }

  lemma PubStepStream(c: Config, s: State, e: PubEvent)
    requires c.Valid() && PubEnabled(c, s, e) && DeviceInv(c, s.pub.pc, s.pub.bufs, s.dev)
    requires CutInv(s.pub.pc, s.log.cut, |s.log.taken|, |s.log.sent|, s.log.acksReceived) && Counted(s)
    requires HandshakeInv(s.pub.pc, s.log.handshakeSent, s.net.fwd, s.net.rights)
    requires NoHandshakeInv(s.sub.pc, s.log.handshakeSent, |s.net.fwd|, |s.log.taken|, |s.log.cut|)
    requires Streamed(c, s)
    ensures Streamed(c, PubStep(c, s, e))
  {
    hide EncodeU32, EncodeHandshake, DecodeU32;
    var t := PubStep(c, s, e);
    if e.IdxSent? || e.IdxFailed? {
      var extra := if e.IdxSent? then EncodeU32(s.pub.pc.idx) else EncodeU32(s.pub.pc.idx)[..e.sent];
      assert t.net.fwd == s.net.fwd + extra;
      assert |s.log.sent| == |s.log.received| && InFlight(s.log.sent, s.log.received, s.log.cut) == [];
      assert InFlight(t.log.sent, t.log.received, t.log.cut) == extra;
      AppendToStream(c, s.sub.pc, s.net.fwd, s.net.rights, extra);
    } else if e.HandshakeSent? {
      assert t.net.fwd == EncodeHandshake(c.header) + [];
    }
  }

  /** Bytes appended when nothing is in flight are what is in flight. */
  lemma AppendToStream(c: Config, sub: SubPc, fwd: seq<byte>, rights: Option<seq<Obj>>, extra: seq<byte>)
    requires StreamInv(c, sub, true, fwd, rights, [])
    ensures StreamInv(c, sub, true, fwd + extra, rights, extra)
  {
  }

  lemma PubStepOther(c: Config, s: State, e: PubEvent)
    requires !c.spuriousAckErrors && PubEnabled(c, s, e)
    requires BusyInv(s.sub.pc, s.log.received) && SubscriberInv(c, s.sub.pc, s.sub.open, s.sub.bufs, s.sub.image)
    requires PublisherInv(s.pub.pc, s.sub.pc, s.pub.open)
    ensures var t := PubStep(c, s, e);
            && BusyInv(t.sub.pc, t.log.received) && SubscriberInv(c, t.sub.pc, t.sub.open, t.sub.bufs, t.sub.image)
            && PublisherInv(t.pub.pc, t.sub.pc, t.pub.open)
  {
  }

  /** Every step of the publisher keeps the invariant. */
  lemma PubStepKeepsInv(c: Config, s: State, e: PubEvent)
    requires Inv(c, s) && PubEnabled(c, s, e)
    ensures Inv(c, PubStep(c, s, e))
  {
    assert s.sub.open <==> !s.sub.pc.SDone?;
    assert s.pub.held.Some? ==> s.log.taken != [] && s.pub.held.value == s.log.taken[|s.log.taken| - 1];
    assert s.pub.pc.PGiveBackUnacked? ==> s.sub.pc.SDone?;
    hide PubStep, PubEnabled, RingInv, DeviceInv, TakenInv, MemoryInv, HeldInv, Counted, HistoryInv, BusyInv;
    hide CutInv, HandshakeInv, NoHandshakeInv, StreamInv, Streamed, InFlight, SubscriberInv, PublisherInv;
    PubStepRing(c, s, e);
    PubStepDevice(c, s, e);
    PubStepTaken(c, s, e);
    PubStepHistory(c, s, e);
    PubStepMemory(c, s, e);
    PubStepHandshake(c, s, e);
    PubStepCut(c, s, e);
    PubStepStream(c, s, e);
    PubStepCounts(c, s, e);
    PubStepOther(c, s, e);
  }

  // ---- subscriber ----

  /** The fourth byte collected completes the one index in flight, and nothing lies behind it. */
  lemma LastByteCompletesTheIndex(s: State, e: SubEvent)
    requires SubEnabled(s, e) && e.ByteReceived? && s.sub.pc.SRecv? && |s.sub.pc.got| == INDEX_SIZE - 1
    requires Counted(s) && CutInv(s.pub.pc, s.log.cut, |s.log.taken|, |s.log.sent|, s.log.acksReceived)
    requires s.sub.pc.got + s.net.fwd == InFlight(s.log.sent, s.log.received, s.log.cut)
    ensures |s.log.received| < |s.log.sent| && s.log.cut == []
    ensures SubStep(s, e).sub.pc == SImport(s.log.sent[|s.log.received|])
    ensures SubStep(s, e).log.received == s.log.received + [s.log.sent[|s.log.received|]]
    ensures SubStep(s, e).net.fwd == []
  {
    var k, all := |s.log.received|, s.sub.pc.got + s.net.fwd;
    assert |all| >= INDEX_SIZE;
    assert s.log.cut == [];
    assert all == EncodeU32(s.log.sent[k]);
    assert s.sub.pc.got + [e.b] == all;
    U32RoundTrip(s.log.sent[k], all);
  }

  /** While the subscriber works on an index, the publisher is waiting with that very buffer out. */
  lemma BusyMeansWaiting(c: Config, s: State)
    requires Counted(s) && SubBusy(s.sub.pc)
    requires HistoryInv(s.log.taken, s.log.sent, s.log.received, s.log.captured, s.log.shown)
    requires BusyInv(s.sub.pc, s.log.received)
    requires c.Valid() && TakenInv(|c.bufs|, s.log.taken, s.pub.held) && HeldInv(s.pub.pc, s.pub.held)
    ensures s.pub.pc == PWait(s.sub.pc.idx) && s.pub.held == Some(s.sub.pc.idx)
    ensures |s.log.received| == |s.log.sent| == |s.log.taken| && s.sub.pc.idx < c.N()
  {
  }

  lemma SubStepCounts(s: State, e: SubEvent)
    requires Counted(s) && SubEnabled(s, e)
    requires s.sub.pc.SRecv? && e.ByteReceived? && |s.sub.pc.got| == INDEX_SIZE - 1 ==> |s.log.received| < |s.log.sent|
    ensures Counted(SubStep(s, e))
  {
    hide EncodeU32, DecodeU32, EncodeHandshake, DecodeHandshake;
    var t := SubStep(s, e);
    assert t.pub == s.pub && t.log.taken == s.log.taken && t.log.sent == s.log.sent;
    assert t.log.acksReceived == s.log.acksReceived;
  }

  lemma SubStepBusy(s: State, e: SubEvent)
    requires Counted(s) && SubEnabled(s, e)
    requires CutInv(s.pub.pc, s.log.cut, |s.log.taken|, |s.log.sent|, s.log.acksReceived)
    requires BusyInv(s.sub.pc, s.log.received)
    requires s.sub.pc.SRecv? ==> s.sub.pc.got + s.net.fwd == InFlight(s.log.sent, s.log.received, s.log.cut)
    ensures var t := SubStep(s, e); BusyInv(t.sub.pc, t.log.received)
  {
    hide InFlight, DecodeU32, EncodeU32, EncodeHandshake;
    if e.ByteReceived? && |s.sub.pc.got| == INDEX_SIZE - 1 {
      LastByteCompletesTheIndex(s, e);
    }
  }

  /** A received index is the next one sent, and a drawn frame the next one captured. */
  lemma SubStepHistory(c: Config, s: State, e: SubEvent)
    requires Counted(s) && SubEnabled(s, e)
    requires CutInv(s.pub.pc, s.log.cut, |s.log.taken|, |s.log.sent|, s.log.acksReceived)
    requires c.Valid() && TakenInv(|c.bufs|, s.log.taken, s.pub.held) && HeldInv(s.pub.pc, s.pub.held)
    requires MemoryInv(c, s.pub.held, s.mem, s.log.captured)
    requires SubscriberInv(c, s.sub.pc, s.sub.open, s.sub.bufs, s.sub.image)
    requires HistoryInv(s.log.taken, s.log.sent, s.log.received, s.log.captured, s.log.shown)
    requires BusyInv(s.sub.pc, s.log.received)
    requires s.sub.pc.SRecv? ==> s.sub.pc.got + s.net.fwd == InFlight(s.log.sent, s.log.received, s.log.cut)
    ensures var t := SubStep(s, e);
            HistoryInv(t.log.taken, t.log.sent, t.log.received, t.log.captured, t.log.shown)
  {
    hide InFlight, DecodeU32, EncodeU32, EncodeHandshake;
    var t := SubStep(s, e);
    if e.ByteReceived? && |s.sub.pc.got| == INDEX_SIZE - 1 {
      LastByteCompletesTheIndex(s, e);
      assert t.log.received == t.log.sent[..|t.log.received|];
    } else if e.Drawn? {
      BusyMeansWaiting(c, s);
      assert t.log.shown == t.log.captured[..|t.log.shown|];
    }
  }

  lemma RecvKeepsStream(c: Config, s: State, e: SubEvent)
    requires SubEnabled(s, e) && Counted(s)
    requires CutInv(s.pub.pc, s.log.cut, |s.log.taken|, |s.log.sent|, s.log.acksReceived)
    requires e.ByteReceived? && s.sub.pc.SRecv? && |s.sub.pc.got| < INDEX_SIZE
    requires s.sub.pc.got + s.net.fwd == InFlight(s.log.sent, s.log.received, s.log.cut)
    ensures Streamed(c, SubStep(s, e))
  {
  }

  lemma SubStepStream(c: Config, s: State, e: SubEvent)
    requires SubEnabled(s, e) && Counted(s)
    requires CutInv(s.pub.pc, s.log.cut, |s.log.taken|, |s.log.sent|, s.log.acksReceived)
    requires s.sub.pc.SHandshake? && |s.net.fwd| >= HANDSHAKE_SIZE ==> s.log.handshakeSent
    requires Streamed(c, s)
    ensures Streamed(c, SubStep(s, e))
  {
    hide DecodeU32, EncodeU32, EncodeHandshake, DecodeHandshake, SubStep;
    if e.ByteReceived? {
      RecvKeepsStream(c, s, e);
    } else {
      OthersKeepStream(c, s, e);
    }
  }

  lemma OthersKeepStream(c: Config, s: State, e: SubEvent)
    requires SubEnabled(s, e) && !e.ByteReceived?
    requires s.sub.pc.SHandshake? && |s.net.fwd| >= HANDSHAKE_SIZE ==> s.log.handshakeSent
    requires Streamed(c, s)
    ensures Streamed(c, SubStep(s, e))
  {
    hide DecodeU32, EncodeU32, EncodeHandshake, DecodeHandshake, InFlight;
    var t := SubStep(s, e);
    assert t.log.handshakeSent == s.log.handshakeSent;
    assert t.log.sent == s.log.sent && t.log.received == s.log.received && t.log.cut == s.log.cut;
    if e.HandshakeReceived? {
      assert s.net.fwd[HANDSHAKE_SIZE..] == InFlight(s.log.sent, s.log.received, s.log.cut);
    } else {
      assert t.net.fwd == s.net.fwd || t.sub.pc.SDropSocket?;
    }
  }

  lemma SubStepSubscriber(c: Config, s: State, e: SubEvent)
    requires SubEnabled(s, e) && SubscriberInv(c, s.sub.pc, s.sub.open, s.sub.bufs, s.sub.image)
    requires PublisherInv(s.pub.pc, s.sub.pc, s.pub.open)
    requires Streamed(c, s)
    requires NoHandshakeInv(s.sub.pc, s.log.handshakeSent, |s.net.fwd|, |s.log.taken|, |s.log.cut|)
    ensures var t := SubStep(s, e);
            && SubscriberInv(c, t.sub.pc, t.sub.open, t.sub.bufs, t.sub.image)
            && PublisherInv(t.pub.pc, t.sub.pc, t.pub.open)
  {
    hide DecodeU32, EncodeU32, EncodeHandshake, DecodeHandshake, InFlight;
    var t := SubStep(s, e);
    assert t.pub == s.pub;
  }

  lemma SubStepHandshake(s: State, e: SubEvent)
    requires SubEnabled(s, e)
    requires HandshakeInv(s.pub.pc, s.log.handshakeSent, s.net.fwd, s.net.rights)
    requires NoHandshakeInv(s.sub.pc, s.log.handshakeSent, |s.net.fwd|, |s.log.taken|, |s.log.cut|)
    ensures var t := SubStep(s, e);
            && HandshakeInv(t.pub.pc, t.log.handshakeSent, t.net.fwd, t.net.rights)
            && NoHandshakeInv(t.sub.pc, t.log.handshakeSent, |t.net.fwd|, |t.log.taken|, |t.log.cut|)
  {
  }

  /** The subscriber touches neither the device nor the publisher's books. */
  lemma SubStepFrame(s: State, e: SubEvent)
    requires SubEnabled(s, e)
    ensures var t := SubStep(s, e);
            && t.pub == s.pub && t.dev == s.dev && t.mem == s.mem
            && t.log.taken == s.log.taken && t.log.captured == s.log.captured && t.log.sent == s.log.sent
            && t.log.cut == s.log.cut && t.log.acksReceived == s.log.acksReceived
  {
  }

  /** Every step of the subscriber keeps the invariant. */
  lemma SubStepKeepsInv(c: Config, s: State, e: SubEvent)
    requires Inv(c, s) && SubEnabled(s, e)
    ensures Inv(c, SubStep(s, e))
  {
    assert s.sub.pc.SRecv? ==> s.sub.pc.got + s.net.fwd == InFlight(s.log.sent, s.log.received, s.log.cut);
    assert s.sub.pc.SHandshake? && |s.net.fwd| >= HANDSHAKE_SIZE ==> s.log.handshakeSent;
    if s.sub.pc.SRecv? && e.ByteReceived? && |s.sub.pc.got| == INDEX_SIZE - 1 {
      LastByteCompletesTheIndex(s, e);
    }
    hide SubStep, SubEnabled, RingInv, DeviceInv, TakenInv, MemoryInv, HeldInv, Counted, HistoryInv, BusyInv;
    hide CutInv, HandshakeInv, NoHandshakeInv, StreamInv, Streamed, InFlight, SubscriberInv, PublisherInv;
    SubStepFrame(s, e);
    SubStepHistory(c, s, e);
    SubStepBusy(s, e);
    SubStepStream(c, s, e);
    SubStepSubscriber(c, s, e);
    SubStepHandshake(s, e);
    SubStepCounts(s, e);
  }

  // ---- all of them ----

  /** Every step of either program, of the hardware and of a signal keeps the invariant. */
  lemma StepKeepsInv(c: Config, s: State, l: Label)
    requires Inv(c, s) && Enabled(c, s, l)
    ensures Inv(c, Step(c, s, l))
  {
    match l {
      case PubSignal => SignalKeepsInv(c, s, l);
      case SubSignal => SignalKeepsInv(c, s, l);
      case Write(_, _) => WriteKeepsInv(c, s, l);
      case Fill => FillKeepsInv(c, s);
      case Pub(e) => PubStepKeepsInv(c, s, e);
      case Sub(e) => SubStepKeepsInv(c, s, e);
    }
  }

  lemma {:induction false} RunKeepsInv(c: Config, s: State, run: seq<Label>)
    requires Inv(c, s) && CanRun(c, s, run)
    ensures Inv(c, Run(c, s, run))
    decreases |run|
  {
    if run != [] {
      StepKeepsInv(c, s, run[0]);
      RunKeepsInv(c, Step(c, s, run[0]), run[1..]);
    }
  }

  lemma ReachableInv(c: Config, s: State)
    requires Reachable(c, s) && !c.spuriousAckErrors
    ensures Inv(c, s)
  {
    var s0, run :| IsInit(c, s0) && CanRun(c, s0, run) && Run(c, s0, run) == s;
    InitInv(c, s0);
    RunKeepsInv(c, s0, run);
  }
}
