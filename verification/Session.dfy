/**
 The imperative programs and the concurrent system agree: a pool just started is the system's initial device,
 and each call that a program's loop makes is a step of the system, and the other way round.
 */
module Session {
  import opened Wire
  import opened Driver
  import opened Framing
  import opened Kernel
  import opened Pool
  import opened Protocol
  import opened System
  import opened Invariant
  import Egl = Import
  import Publisher
  import Subscriber

  /** What a successful Start of any capture leaves is where the system starts, for the memory that the
      capture's descriptors name. */
  lemma StartedIsInitial(fds: map<int, File>, fd: int, buffers: seq<BufInfo>, header: Handshake, mem: map<Obj, Frame>)
    requires Ready(fds, fd, buffers) && Started(View(fds, fd, buffers)) && Distinct(View(fds, fd, buffers).objs)
    requires buffers != [] && header.bufCount == |buffers|
    ensures var c := Config(View(fds, fd, buffers).objs, fds[fd].q.alloc, header, false);
            && c.Valid() && c.N() == |buffers|
            && Bound(c, fds[fd].q) && fds[fd].q.streaming
            && Order(fds[fd].q) == Order(Init(c, mem).dev)
            && forall i :: 0 <= i < |buffers| ==> fds[buffers[i].dmabufFd] == DmaBuf(Init(c, mem).pub.bufs[i])
  {
    var c := Config(View(fds, fd, buffers).objs, fds[fd].q.alloc, header, false);
    assert Order(Init(c, mem).dev) == Range(c.N());
    forall i | 0 <= i < |buffers|
      ensures fds[buffers[i].dmabufFd] == DmaBuf(c.bufs[i])
    {
      var j: u32 := i;
      assert fds[buffers[j].dmabufFd] == DmaBuf(fds[fd].q.bound[j]);
    }
  }

  // ---- publisher ----

  /** The program's view of a state: control point, pool, and its side of the socket once the handshake is out. */
  predicate PubMatches(c: Config, p: Publisher.Progress, s: State) {
    && p.header == c.header && p.pc == s.pub.pc
    && PoolMatches(p.pool, s.pub.bufs, s.dev)
    && SocketMatches(c.header, p.out, s.pub.pc, s.log)
    && p.acks == s.log.acksReceived
  }

  predicate PoolMatches(pool: Pool, bufs: seq<Obj>, dev: Driver) {
    pool.objs == bufs && pool.queue == Order(dev) && pool.streaming == dev.streaming
  }

  predicate SocketMatches(header: Handshake, out: seq<byte>, pc: PubPc, log: Log) {
    if log.handshakeSent then out == EncodeHandshake(header) + EncodeAll(log.sent) + log.cut
    else (pc.PHandshake? ==> out == [] && log.sent == [] && log.cut == [])
  }

  /** The outcomes that depend on the peer and on the signal. */
  predicate OthersAllow(c: Config, s: State, e: PubEvent) {
    match e
    case HandshakeSent => s.sub.open
    case SawRunning => s.pub.running
    case SawStopped => !s.pub.running
    case IdxSent => s.sub.open
    case AckReceived => s.net.back != []
    case AckFailed => !s.sub.open || c.spuriousAckErrors
    case _ => true
  }

  /** A dequeue may have to wait for the hardware. */
  function Hardware(s: State, e: PubEvent): State {
    if e.Dequeued? && s.dev.done == [] && s.dev.streaming && s.dev.incoming != [] then s.(dev := Complete(s.dev)) else s
  }

  /** Whatever call the program may make next, from the handshake to the last destructor, with an outcome that the
      peer allows, is a step of the system, once the hardware has filled a buffer for a dequeue to return. */
  lemma CallIsStep(c: Config, s: State, p: Publisher.Progress, e: PubEvent)
    requires Inv(c, s) && PubMatches(c, p, s)
    requires Publisher.CanFollow(p, e) && OthersAllow(c, s, e)
    ensures var t := Hardware(s, e);
            && (t == s || (Enabled(c, s, Fill) && t == Step(c, s, Fill)))
            && PubEnabled(c, t, e) && PubMatches(c, Publisher.Follow(p, e), PubStep(c, t, e))
  {
    var t := Hardware(s, e);
    if t != s {
      CompleteKeepsOrder(s.dev);
      FillKeepsInv(c, s);
    }
    CallIsEnabled(c, t, p, e);
    StepIsCall(c, t, p, e);
  }

  lemma CallIsEnabled(c: Config, t: State, p: Publisher.Progress, e: PubEvent)
    requires Inv(c, t) && PubMatches(c, p, t)
    requires Publisher.CanFollow(p, e) && OthersAllow(c, t, e) && (e.Dequeued? ==> t.dev.done != [])
    ensures PubEnabled(c, t, e)
  {
    hide EncodeAll, EncodeU32, EncodeHandshake, SocketMatches;
    hide StreamInv, Streamed, HistoryInv, Counted, CutInv, HandshakeInv, NoHandshakeInv, BusyInv, SubscriberInv;
    if e.Dequeued? {
      assert IsQueued(t.dev, e.idx);
      QueuedIsInPool(c, t, e.idx);
    } else if e.Requeued? {
      OrderIsQueued(t.dev, p.pc.idx);
    }
  }

  /** And every step that the system's publisher takes is a call that the program may make. */
  lemma StepIsCall(c: Config, s: State, p: Publisher.Progress, e: PubEvent)
    requires Inv(c, s) && PubMatches(c, p, s) && PubEnabled(c, s, e)
    ensures Publisher.CanFollow(p, e) && PubMatches(c, Publisher.Follow(p, e), PubStep(c, s, e))
  {
    assert s.pub.pc.PCloseDevice? ==> s.pub.bufs == [];
    assert s.pub.pc.PHandshake? ==> !s.log.handshakeSent;
    assert s.pub.pc.PSend? ==> s.log.handshakeSent && s.log.cut == [];
    StepOfPool(c, s, p, e);
    StepOfSocket(c, s, p, e);
    hide Inv, PubStep, PubEnabled, PoolMatches, SocketMatches, Publisher.Follow, Publisher.CanFollow;
  }

  lemma StepOfPool(c: Config, s: State, p: Publisher.Progress, e: PubEvent)
    requires p.pc == s.pub.pc && PoolMatches(p.pool, s.pub.bufs, s.dev) && PubEnabled(c, s, e)
    requires s.pub.pc.PCloseDevice? ==> s.pub.bufs == []
    ensures Publisher.CanFollow(p, e)
    ensures var p', t := Publisher.Follow(p, e), PubStep(c, s, e);
            p'.header == p.header && p'.pc == t.pub.pc && PoolMatches(p'.pool, t.pub.bufs, t.dev)
  {
    hide EncodeU32, EncodeHandshake;
    var t := PubStep(c, s, e);
    if e.Dequeued? {
      assert Order(t.dev) == Order(s.dev)[1..];
    } else if e.Requeued? {
      OrderIsQueued(s.dev, s.pub.pc.idx);
      assert Order(t.dev) == Order(s.dev) + [s.pub.pc.idx];
    }
  }

  predicate Writes(e: PubEvent) {
    e.HandshakeSent? || e.HandshakeFailed? || e.IdxSent? || e.IdxFailed?
  }

  lemma StepOfSocket(c: Config, s: State, p: Publisher.Progress, e: PubEvent)
    requires PubMatches(c, p, s) && PubEnabled(c, s, e) && Publisher.CanFollow(p, e)
    requires s.pub.pc.PHandshake? ==> !s.log.handshakeSent
    requires s.pub.pc.PSend? ==> s.log.handshakeSent && s.log.cut == []
    ensures var p', t := Publisher.Follow(p, e), PubStep(c, s, e);
            SocketMatches(c.header, p'.out, t.pub.pc, t.log) && p'.acks == t.log.acksReceived
  {
    hide PoolMatches, EncodeU32, EncodeHandshake, EncodeAll, Order, CanQueue;
    if Writes(e) {
      WritesMatch(c, s, p, e);
    } else {
      var p', t := Publisher.Follow(p, e), PubStep(c, s, e);
      assert p'.out == p.out && t.log.handshakeSent == s.log.handshakeSent;
      assert t.log.sent == s.log.sent && t.log.cut == s.log.cut && !t.pub.pc.PHandshake?;
    }
  }

  lemma WritesMatch(c: Config, s: State, p: Publisher.Progress, e: PubEvent)
    requires SocketMatches(c.header, p.out, s.pub.pc, s.log) && p.header == c.header && p.pc == s.pub.pc
    requires Writes(e) && PubEnabled(c, s, e) && Publisher.CanFollow(p, e)
    requires s.pub.pc.PHandshake? ==> !s.log.handshakeSent
    requires s.pub.pc.PSend? ==> s.log.handshakeSent && s.log.cut == []
    ensures var p', t := Publisher.Follow(p, e), PubStep(c, s, e);
            SocketMatches(c.header, p'.out, t.pub.pc, t.log)
  {
    hide EncodeU32, EncodeHandshake, EncodeAll;
    var before := EncodeHandshake(c.header);
    if e.IdxSent? {
      EncodeAllAppend(s.log.sent, s.pub.pc.idx);
      assert before + EncodeAll(s.log.sent) + [] + EncodeU32(s.pub.pc.idx)
          == before + (EncodeAll(s.log.sent) + EncodeU32(s.pub.pc.idx)) + [];
    } else if e.IdxFailed? {
      assert before + EncodeAll(s.log.sent) + [] == before + EncodeAll(s.log.sent);
    } else if e.HandshakeSent? {
      NothingSentYet(c.header);
    }
  }

  lemma NothingSentYet(header: Handshake)
    ensures [] + EncodeHandshake(header) == EncodeHandshake(header) + EncodeAll([]) + []
  {
  }

  /** The others' steps do not show. */
  lemma OthersAreSilent(c: Config, s: State, p: Publisher.Progress, l: Label)
    requires PubMatches(c, p, s) && Enabled(c, s, l) && !l.Pub?
    ensures PubMatches(c, p, Step(c, s, l))
  {
    hide EncodeAll, EncodeHandshake, EncodeU32, DecodeU32, DecodeHandshake;
    if l.Fill? {
      CompleteKeepsOrder(s.dev);
    }
  }

  /** The publisher's calls of a run, in order. */
  function PubCalls(run: seq<Label>): seq<PubEvent> {
    if run == [] then [] else (if run[0].Pub? then [run[0].pe] else []) + PubCalls(run[1..])
  }

  lemma LabelIsLogged(c: Config, s: State, p: Publisher.Progress, l: Label)
    requires Inv(c, s) && PubMatches(c, p, s) && Enabled(c, s, l)
    ensures if l.Pub? then Publisher.CanFollow(p, l.pe) && PubMatches(c, Publisher.Follow(p, l.pe), Step(c, s, l))
            else PubMatches(c, p, Step(c, s, l))
  {
    hide Inv, PubMatches, Publisher.Follow, Publisher.CanFollow, PubStep, SubStep;
    if l.Pub? {
      StepIsCall(c, s, p, l.pe);
    } else {
      OthersAreSilent(c, s, p, l);
    }
  }

  lemma {:induction false} RunIsLoggedFrom(c: Config, s: State, p: Publisher.Progress, run: seq<Label>)
    requires Inv(c, s) && PubMatches(c, p, s) && CanRun(c, s, run)
    ensures Publisher.CanFollowAll(p, PubCalls(run))
    ensures PubMatches(c, Publisher.FollowAll(p, PubCalls(run)), Run(c, s, run))
    decreases |run|
  {
    hide Inv, PubMatches, Step, Enabled, Publisher.Follow, Publisher.CanFollow;
    if run != [] {
      var l, rest := run[0], run[1..];
      LabelIsLogged(c, s, p, l);
      StepKeepsInv(c, s, l);
      if l.Pub? {
        RunIsLoggedFrom(c, Step(c, s, l), Publisher.Follow(p, l.pe), rest);
        assert PubCalls(run)[0] == l.pe && PubCalls(run)[1..] == PubCalls(rest);
      } else {
        RunIsLoggedFrom(c, Step(c, s, l), p, rest);
        assert PubCalls(run) == PubCalls(rest);
      }
    }
  }

  /** In every run of the system, from the handshake to the last destructor, the publisher's calls are a log that
      its program can produce, with the same indices, bytes, acks and pool. */
  lemma RunIsLogged(c: Config, s: State, run: seq<Label>)
    requires IsInit(c, s) && !c.spuriousAckErrors && CanRun(c, s, run)
    ensures var p := Publisher.Progress(c.header, PHandshake, Pool(c.bufs, Range(c.N()), true), [], 0);
            && Publisher.CanFollowAll(p, PubCalls(run))
            && PubMatches(c, Publisher.FollowAll(p, PubCalls(run)), Run(c, s, run))
  {
    InitInv(c, s);
    assert Order(s.dev) == Range(c.N());
    RunIsLoggedFrom(c, s, Publisher.Progress(c.header, PHandshake, Pool(c.bufs, Range(c.N()), true), [], 0), run);
  }

  // ---- subscriber ----

  /** The same for the subscriber. */
  predicate SubMatches(p: Subscriber.Progress, s: State) {
    && p.pc == s.sub.pc
    && p.received == s.log.received
    && |p.drawn| == |s.log.shown|
    && p.acks == s.log.acksSent
  }

  /** The outcomes that depend on the peer, the stream and the signal. */
  predicate StreamAllows(s: State, e: SubEvent) {
    match e
    case HandshakeReceived => SubGuard(s, e)
    case HandshakeRefused(_) => SubGuard(s, e)
    case KeepGoing => s.sub.running
    case StopSeen => !s.sub.running
    case ByteReceived(b) => s.net.fwd != [] && s.net.fwd[0] == b
    case EofSeen => s.net.fwd == [] && !s.pub.open
    case AckSent => s.pub.open
    case _ => true
  }

  /** Every event of a program that holds descriptors of the session's buffers is a step of the system exactly if
      the stream and the peer allow it, and the frame that a draw shows is what lies in the memory behind the
      descriptor drawn from. */
  lemma EventIsStep(c: Config, s: State, table: map<int, File>, fds: seq<int>, p: Subscriber.Progress, e: SubEvent)
    requires Inv(c, s) && SubMatches(p, s) && OwnsAll(table, fds) && ObjsOf(table, fds) == c.bufs
    ensures SubEnabled(s, e) <==> Subscriber.CanFollow(fds, p, e) && StreamAllows(s, e)
    ensures SubEnabled(s, e) ==> SubMatches(Subscriber.Follow(fds, p, e), SubStep(s, e))
    ensures SubEnabled(s, e) && e.Drawn? ==>
              var d := Subscriber.Follow(fds, p, e).drawn;
              && d == p.drawn + [fds[s.sub.pc.idx]] && d[|d| - 1] in table && table[d[|d| - 1]].DmaBuf?
              && table[d[|d| - 1]].obj in s.mem
              && SubStep(s, e).log.shown == s.log.shown + [s.mem[table[d[|d| - 1]].obj]]
  {
    assert |fds| == |c.bufs| && forall j :: 0 <= j < |fds| ==> fds[j] in table && table[fds[j]] == DmaBuf(c.bufs[j]);
    hide OwnsAll, ObjsOf;
    if SubBusy(s.sub.pc) {
      BusyMeansWaiting(c, s);
    }
    hide RingInv, DeviceInv, TakenInv, HistoryInv, Streamed, CutInv, HandshakeInv, NoHandshakeInv, Counted, BusyInv;
    assert s.sub.pc.SImport? ==> s.sub.bufs == c.bufs;
    assert s.sub.pc.SDraw? ==> s.sub.bufs == c.bufs && DrawsFrom(s.sub, s.mem);
    hide Inv;
    EventHasEffect(s, fds, p, e);
  }

  /** The live image is of the memory that the subscriber was given for the index. */
  predicate DrawsFrom(sub: System.Subscriber, mem: map<Obj, Frame>) {
    sub.pc.SDraw? && sub.pc.idx < |sub.bufs| && sub.image == Some(sub.bufs[sub.pc.idx]) && sub.image.value in mem
  }

  lemma EventHasEffect(s: State, fds: seq<int>, p: Subscriber.Progress, e: SubEvent)
    requires SubMatches(p, s) && (s.sub.pc.SImport? || s.sub.pc.SDraw? ==> |fds| == |s.sub.bufs|)
    requires s.sub.pc.SDraw? ==> DrawsFrom(s.sub, s.mem)
    ensures SubEnabled(s, e) <==> Subscriber.CanFollow(fds, p, e) && StreamAllows(s, e)
    ensures SubEnabled(s, e) ==> SubMatches(Subscriber.Follow(fds, p, e), SubStep(s, e))
    ensures SubEnabled(s, e) && e.Drawn? ==>
              && Subscriber.Follow(fds, p, e).drawn == p.drawn + [fds[s.sub.pc.idx]]
              && SubStep(s, e).log.shown == s.log.shown + [s.mem[s.sub.bufs[s.sub.pc.idx]]]
  {
    hide DecodeU32, DecodeHandshake;
  }

  /** The subscriber's events of a run, in order. */
  function SubEvents(run: seq<Label>): seq<SubEvent> {
    if run == [] then [] else (if run[0].Sub? then [run[0].se] else []) + SubEvents(run[1..])
  }

  lemma OthersAreUnseen(c: Config, s: State, p: Subscriber.Progress, l: Label)
    requires SubMatches(p, s) && Enabled(c, s, l) && !l.Sub?
    ensures SubMatches(p, Step(c, s, l))
  {
    hide EncodeAll, EncodeHandshake, EncodeU32, DecodeU32, DecodeHandshake, CanQueue;
  }

  lemma {:induction false} RunIsFollowedFrom(c: Config, s: State, table: map<int, File>, fds: seq<int>,
                                             p: Subscriber.Progress, run: seq<Label>)
    requires Inv(c, s) && SubMatches(p, s) && OwnsAll(table, fds) && ObjsOf(table, fds) == c.bufs && CanRun(c, s, run)
    ensures Subscriber.CanFollowAll(fds, p, SubEvents(run))
    ensures SubMatches(Subscriber.FollowAll(fds, p, SubEvents(run)), Run(c, s, run))
    decreases |run|
  {
    hide Inv, SubMatches, SubStep, PubStep, SubEnabled, PubEnabled, StreamAllows;
    hide Subscriber.Follow, Subscriber.CanFollow, OwnsAll, ObjsOf;
    if run != [] {
      var l, rest := run[0], run[1..];
      StepKeepsInv(c, s, l);
      if l.Sub? {
        EventIsStep(c, s, table, fds, p, l.se);
        RunIsFollowedFrom(c, Step(c, s, l), table, fds, Subscriber.Follow(fds, p, l.se), rest);
        assert SubEvents(run)[0] == l.se && SubEvents(run)[1..] == SubEvents(rest);
      } else {
        OthersAreUnseen(c, s, p, l);
        RunIsFollowedFrom(c, Step(c, s, l), table, fds, p, rest);
        assert SubEvents(run) == SubEvents(rest);
      }
    }
  }

  /** In every run of the system, from the handshake to the closing of the socket, the subscriber's events are a log
      that its program can produce, with the same indices received and acks sent, and as many draws. */
  lemma RunIsFollowed(c: Config, s: State, table: map<int, File>, fds: seq<int>, run: seq<Label>)
    requires IsInit(c, s) && !c.spuriousAckErrors && CanRun(c, s, run)
    requires OwnsAll(table, fds) && ObjsOf(table, fds) == c.bufs
    ensures var p := Subscriber.Progress(SHandshake, [], [], 0);
            && Subscriber.CanFollowAll(fds, p, SubEvents(run))
            && SubMatches(Subscriber.FollowAll(fds, p, SubEvents(run)), Run(c, s, run))
  {
    InitInv(c, s);
    RunIsFollowedFrom(c, s, table, fds, Subscriber.Progress(SHandshake, [], [], 0), run);
  }

  // ---- both programs, end to end ----

  /** What a subscriber shows of what a publisher delivered: the memory of the pool, round and round. */
  lemma FramesGoRound(header: Handshake, objs: seq<Obj>, calls: seq<PubEvent>, out: seq<byte>, acks: nat,
                      taken: seq<byte>, received: seq<u32>, rights: seq<Obj>, shown: seq<Obj>)
    requires |objs| == header.bufCount > 0 && calls != [] && Publisher.Delivered(header, calls, out, acks)
    requires calls[0].HandshakeSent? ==> rights == objs
    requires taken + EncodeAll(received) <= out && (received != [] ==> |taken| == HANDSHAKE_SIZE)
    requires Subscriber.Shown(rights, received, shown)
    ensures received <= Publisher.TakenBy(calls)
    ensures forall k :: 0 <= k < |shown| ==> received[k] == k % |objs| && shown[k] == objs[k % |objs|]
  {
    if received != [] {
      assert |taken| + |EncodeAll(received)| <= |out| && |EncodeAll(received)| > 0;
      hide EncodeHandshake, EncodeAll;
      var t := Publisher.TakenBy(calls);
      var sent: nat, cut: seq<byte> :| sent <= |t| && |cut| < INDEX_SIZE
                                       && out == EncodeHandshake(header) + EncodeAll(t[..sent]) + cut;
      ReceivedIsSent(EncodeHandshake(header), t[..sent], cut, taken, received);
      assert t[..sent] <= t;
    }
  }

  /** Behind a message as long as what was taken, whole indices read are the first of those sent. */
  lemma ReceivedIsSent(message: seq<byte>, sent: seq<u32>, cut: seq<byte>, taken: seq<byte>, received: seq<u32>)
    requires |cut| < INDEX_SIZE && |taken| == |message|
    requires taken + EncodeAll(received) <= message + EncodeAll(sent) + cut
    ensures received <= sent
  {
    hide EncodeAll, DecodeAll;
    var out, got := message + EncodeAll(sent) + cut, taken + EncodeAll(received);
    var b := EncodeAll(sent) + cut;
    assert out[|message|..] == b && got[|message|..] == EncodeAll(received);
    assert EncodeAll(received) == b[..|EncodeAll(received)|];
    PrefixDecodes(received, b);
    DecodeAllRoundTrip(sent, cut);
  }

  /** What the publisher sent behind its header, read as indices. */
  lemma SentAreTaken(header: Handshake, calls: seq<PubEvent>, out: seq<byte>, acks: nat)
    requires header.bufCount > 0 && calls != [] && calls[0].HandshakeSent?
    requires Publisher.Delivered(header, calls, out, acks)
    ensures |out| >= HANDSHAKE_SIZE && out[..HANDSHAKE_SIZE] == EncodeHandshake(header)
    ensures DecodeAll(out[HANDSHAKE_SIZE..]) <= Publisher.TakenBy(calls)
    ensures |Publisher.TakenBy(calls)| <= |DecodeAll(out[HANDSHAKE_SIZE..])| + 1
    ensures Subscriber.InRange(DecodeAll(out[HANDSHAKE_SIZE..]), header.bufCount)
  {
    hide EncodeHandshake, EncodeAll, DecodeAll, Publisher.TakenBy, Subscriber.InRange;
    var t := Publisher.TakenBy(calls);
    assert forall k :: 0 <= k < |t| ==> t[k] == k % header.bufCount < header.bufCount;
    var sent: nat, cut: seq<byte> :| sent <= |t| <= sent + 1 && |cut| < INDEX_SIZE
                                     && out == EncodeHandshake(header) + EncodeAll(t[..sent]) + cut;
    HeadAndTail(out, EncodeHandshake(header), EncodeAll(t[..sent]), cut);
    DecodeAllRoundTrip(t[..sent], cut);
    PrefixInRange(t, sent, header.bufCount);
  }

  lemma HeadAndTail(out: seq<byte>, a: seq<byte>, b: seq<byte>, c: seq<byte>)
    requires out == a + b + c
    ensures |out| >= |a| && out[..|a|] == a && out[|a|..] == b + c
  {
  }

  lemma PrefixInRange(t: seq<u32>, sent: nat, n: nat)
    requires sent <= |t| && forall k :: 0 <= k < |t| ==> t[k] < n
    ensures t[..sent] <= t && Subscriber.InRange(t[..sent], n)
  {
  }

  /** After `turns` complete turns those are the indices of all of them. */
  lemma AllAreSent(header: Handshake, turns: nat, out: seq<byte>, acks: nat)
    requires header.bufCount > 0 && Publisher.AllDelivered(header, turns, out, acks)
    ensures |out| >= HANDSHAKE_SIZE && |DecodeAll(out[HANDSHAKE_SIZE..])| == turns
  {
    hide EncodeHandshake, EncodeAll, DecodeAll;
    var idxs := Publisher.RoundRobin(turns, header.bufCount);
    assert out[HANDSHAKE_SIZE..] == EncodeAll(idxs) + [];
    DecodeAllRoundTrip(idxs, []);
  }

  /** The first fragment holds the header, and the receiver sees as many descriptors as it counts. */
  lemma HeaderIsAcceptable(header: Handshake, out: seq<byte>, first: seq<byte>, rights: seq<Obj>)
    requires |out| >= HANDSHAKE_SIZE && out[..HANDSHAKE_SIZE] == EncodeHandshake(header) && first <= out
    requires |rights| == header.bufCount <= MAX_FDS && |first| >= HANDSHAKE_SIZE
    ensures Subscriber.Acceptable(first, rights)
  {
    hide EncodeHandshake, DecodeHandshake;
    assert first[..HANDSHAKE_SIZE] == out[..HANDSHAKE_SIZE];
    HandshakeRoundTrip(header, first[..HANDSHAKE_SIZE]);
  }

  /** A subscriber on what a publisher's client was sent, however the bytes arrive: its k-th draw reads the memory
      behind index k modulo the size of the pool, with the geometry that the publisher announced.  If the handshake
      was sent, its header arrives in one piece, the pool fits and no call fails, it draws as often as whole indices
      were sent, up to its own stop; which is as often as the publisher took turns, if no call of the publisher failed
      either. */
  method EndToEnd(k: Kernel, client: Publisher.Client, chunks: seq<seq<byte>>, turns: nat,
                  ghost header: Handshake, ghost pool: Pool, calls: seq<PubEvent>)
    returns (shown: seq<Obj>, pictures: seq<Egl.Image>, ghost received: seq<u32>, ghost faults: nat)
    requires k.Valid() && header.bufCount > 0 && Flatten(chunks) == client.out
    requires Publisher.Shared(pool, header, calls, client.rights)
    requires Publisher.Delivered(header, calls, client.out, client.acks)
    requires forall o :: o in client.rights ==> o < k.nextObj
    modifies k
    ensures received <= Publisher.TakenBy(calls) && |shown| <= |received| <= |shown| + 1
    ensures forall j :: 0 <= j < |shown| ==> shown[j] == pool.objs[j % |pool.objs|]
    ensures |pictures| == |shown| && forall j :: 0 <= j < |pictures| ==> Depicts(pictures[j], header)
    ensures Welcome(calls, chunks, |pool.objs|) && faults == 0 && k.faults == old(k.faults) ==>
              && |client.out| >= HANDSHAKE_SIZE
              && |shown| == Least(turns, |DecodeAll(client.out[HANDSHAKE_SIZE..])|)
    ensures Welcome(calls, chunks, |pool.objs|) && faults == 0 && k.faults == old(k.faults) ==>
              forall done: nat :: Publisher.AllDelivered(header, done, client.out, client.acks) ==>
                |shown| == Least(turns, done)
  {
    hide DecodeAll, EncodeAll, EncodeHandshake, DecodeHandshake, Flatten, FirstChunk;
    hide Publisher.AllDelivered, Publisher.Delivered, Subscriber.ShowsWhatCame, Subscriber.Pictured, Depicts;
    hide Publisher.TakenBy;
    var inbox := new Inbox(chunks);
    ghost var first := FirstChunk(chunks);
    var display, out, sock, events, taken;
    ghost var installed, lost, fds, closed;
    display, out, sock, events, taken, installed, lost, fds, closed, received :=
      Subscriber.Run(k, inbox, client.rights, turns);
    shown, pictures, faults := display.shown, display.pictures, inbox.faults + display.faults + out.faults;
    FramesGoRound(header, pool.objs, calls, client.out, client.acks, taken, received, client.rights, shown);
    if received != [] {
      HeaderTaken(header, calls, client.out, client.acks, taken, received);
    }
    PicturesDepict(header, display.drawn, pictures, display.meta, display.hasModifiers);
    if Welcome(calls, chunks, |pool.objs|) && faults == 0 && k.faults == old(k.faults) {
      WelcomeIsShown(header, pool, calls, client.out, client.acks, chunks, client.rights, turns, received, |shown|,
                     out.acks);
    }
  }

  lemma PicturesDepict(header: Handshake, drawn: seq<int>, pictures: seq<Egl.Image>, meta: Egl.Meta, hasModifiers: bool)
    requires Subscriber.Pictured(drawn, pictures, meta, hasModifiers)
    requires drawn != [] ==> meta == Egl.Meta(header.width, header.height, header.format, header.stride, header.size)
    ensures |pictures| == |drawn| && forall j :: 0 <= j < |pictures| ==> Depicts(pictures[j], header)
  {
    forall j | 0 <= j < |pictures|
      ensures Depicts(pictures[j], header)
    {
      Egl.MeantIsFaithful(drawn[j], meta, hasModifiers);
    }
  }

  lemma WelcomeIsShown(header: Handshake, pool: Pool, calls: seq<PubEvent>, out: seq<byte>, acks: nat,
                       chunks: seq<seq<byte>>, rights: seq<Obj>, turns: nat, received: seq<u32>, shown: nat, acked: nat)
    requires header.bufCount > 0 && Flatten(chunks) == out && Welcome(calls, chunks, |pool.objs|)
    requires Publisher.Shared(pool, header, calls, rights) && Publisher.Delivered(header, calls, out, acks)
    requires Subscriber.ShowsWhatCame(FirstChunk(chunks), out, rights, turns, received, shown, acked)
    ensures |out| >= HANDSHAKE_SIZE && shown == acked == Least(turns, |DecodeAll(out[HANDSHAKE_SIZE..])|)
    ensures forall done: nat :: Publisher.AllDelivered(header, done, out, acks) ==> shown == Least(turns, done)
  {
    hide DecodeAll, EncodeAll, EncodeHandshake, DecodeHandshake, Flatten, FirstChunk;
    hide Publisher.AllDelivered, Publisher.Delivered, Subscriber.Acceptable, Publisher.TakenBy;
    SentAreTaken(header, calls, out, acks);
    HeaderIsAcceptable(header, out, FirstChunk(chunks), rights);
    forall done: nat | Publisher.AllDelivered(header, done, out, acks)
      ensures |DecodeAll(out[HANDSHAKE_SIZE..])| == done
    {
      AllAreSent(header, done, out, acks);
    }
  }

  /** An image of the geometry that a header announces. */
  predicate Depicts(image: Egl.Image, header: Handshake) {
    && Egl.AsU32(image.width) == header.width && Egl.AsU32(image.height) == header.height
    && Egl.AsU32(image.fourcc) == header.format
    && image.planes != [] && image.planes[0].offset == 0
    && (forall i :: 0 <= i < |image.planes| ==> Egl.AsU32(image.planes[i].pitch) == header.stride)
    && (|image.planes| == 2 <==> header.format == 0x3231_564E || header.format == 0x3132_564E)
  }

  /** Indices come only behind the header that was sent. */
  lemma HeaderTaken(header: Handshake, calls: seq<PubEvent>, out: seq<byte>, acks: nat, taken: seq<byte>,
                    received: seq<u32>)
    requires header.bufCount > 0 && calls != [] && Publisher.Delivered(header, calls, out, acks)
    requires taken + EncodeAll(received) <= out && received != [] && |taken| == HANDSHAKE_SIZE
    ensures DecodeHandshake(taken) == header
  {
    assert |EncodeAll(received)| > 0 && |taken + EncodeAll(received)| <= |out|;
    hide EncodeHandshake, EncodeAll, DecodeHandshake;
    HandshakeRoundTrip(header, taken);
    assert taken == out[..HANDSHAKE_SIZE] == EncodeHandshake(header);
  }

  /** The handshake was sent, its header arrives in one piece, and the ancillary buffer holds its descriptors. */
  predicate Welcome(calls: seq<PubEvent>, chunks: seq<seq<byte>>, n: nat) {
    calls != [] && calls[0].HandshakeSent? && |FirstChunk(chunks)| >= HANDSHAKE_SIZE && n <= MAX_FDS
  }

  function Least(a: nat, b: nat): nat {
    if a <= b then a else b
  }
}
