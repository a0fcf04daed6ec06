/**
 Driver, publisher and subscriber running concurrently over one stream socket, as a labelled
 transition system.  A step is one blocking call of one program, one byte delivered, one change made
 by the capture hardware, or a signal.
 */
module System {
  import opened Wire
  import opened Driver
  import opened Protocol

  /** What is fixed for a session.
      `spuriousAckErrors` drops the assumption that a failed ack read means a closed peer. */
  datatype Config = Config(bufs: seq<Obj>, alloc: u32, header: Handshake, spuriousAckErrors: bool) {
    ghost predicate Valid() {
      && 0 < |bufs| <= alloc
      && Distinct(bufs)
      && header.bufCount == |bufs|
    }

    function N(): u32
      requires Valid()
    {
      |bufs|
    }
  }

  datatype Publisher = Publisher(
    pc: PubPc,
    running: bool,
    open: bool,              // its end of the socket
    bufs: seq<Obj>,          // the objects behind the descriptors it holds
    held: Option<u32>)       // dequeued and not queued again

  datatype Subscriber = Subscriber(
    pc: SubPc,
    running: bool,           // RUNNING and not should_close
    open: bool,
    bufs: seq<Obj>,
    image: Option<Obj>)      // the live EGL image

  datatype Socket = Socket(
    fwd: seq<byte>,          // publisher to subscriber
    rights: Option<seq<Obj>>,  // descriptors in flight
    back: seq<byte>)         // subscriber to publisher

  /** History, never read by a step. */
  datatype Log = Log(
    handshakeSent: bool,
    taken: seq<u32>,         // indices dequeued
    captured: seq<Frame>,    // contents at each dequeue
    sent: seq<u32>,          // indices sent completely
    cut: seq<byte>,          // the bytes of an index whose send failed
    received: seq<u32>,      // indices received completely
    shown: seq<Frame>,       // contents read by each draw
    acksSent: nat,
    acksReceived: nat)

  datatype State = State(
    pub: Publisher,
    sub: Subscriber,
    dev: Driver,
    mem: map<Obj, Frame>,
    net: Socket,
    log: Log)

  datatype Label =
    | PubSignal
    | SubSignal
    | Write(idx: u32, frame: Frame)   // the hardware stores into a queued buffer
    | Fill                            // the oldest queued buffer becomes ready
    | Pub(pe: PubEvent)
    | Sub(se: SubEvent)

  /** The state in which the publisher has accepted the connection. */
  function Init(c: Config, mem: map<Obj, Frame>): State
    requires c.Valid()
  {
    State(
      Publisher(PHandshake, true, true, c.bufs, None),
      Subscriber(SHandshake, true, true, [], None),
      Driver(c.alloc, map i: u32 | i < c.N() :: c.bufs[i], Range(c.N()), [], true),
      mem,
      Socket([], None, []),
      Log(false, [], [], [], [], [], [], 0, 0))
  }

  ghost predicate IsInit(c: Config, s: State) {
    && c.Valid()
    && (forall i :: 0 <= i < |c.bufs| ==> c.bufs[i] in s.mem)
    && s == Init(c, s.mem)
  }

  // ---- publisher steps ----

  predicate PubGuard(c: Config, s: State, e: PubEvent) {
    match e
    case HandshakeSent => s.sub.open
    case HandshakeFailed(k, _) => k < HANDSHAKE_SIZE
    case SawRunning => s.pub.running
    case SawStopped => !s.pub.running
    case Dequeued(i) => CanDequeue(s.dev) && s.dev.done[0] == i && i in s.dev.bound && s.dev.bound[i] in s.mem
    case IdxSent => s.sub.open
    case IdxFailed(k) => k < INDEX_SIZE
    case AckReceived => s.net.back != []
    case AckFailed => !s.sub.open || c.spuriousAckErrors
    case Requeued =>
      && PubIdx(s.pub.pc).Some?
      && CanQueue(s.dev, PubIdx(s.pub.pc).value) && PubIdx(s.pub.pc).value < |s.pub.bufs|
    case _ => true
  }

  function PubIdx(pc: PubPc): Option<u32> {
    match pc
    case PSend(i) => Some(i)
    case PWait(i) => Some(i)
    case PRequeue(i) => Some(i)
    case PGiveBackUnsent(i) => Some(i)
    case PGiveBackUnacked(i) => Some(i)
    case _ => None
  }

  predicate PubEnabled(c: Config, s: State, e: PubEvent) {
    PubNext(s.pub.pc, e).Some? && PubGuard(c, s, e)
  }

  function PubStep(c: Config, s: State, e: PubEvent): State
    requires PubEnabled(c, s, e)
  {
    var p := s.pub.(pc := PubNext(s.pub.pc, e).value);
    match e
    case HandshakeSent =>
      s.(pub := p, log := s.log.(handshakeSent := true),
         net := s.net.(fwd := s.net.fwd + EncodeHandshake(c.header), rights := Some(s.pub.bufs)))
    case HandshakeFailed(k, withFds) =>
      s.(pub := p,
         net := s.net.(fwd := s.net.fwd + EncodeHandshake(c.header)[..k],
                       rights := if withFds then Some(s.pub.bufs) else None))
    case Dequeued(i) =>
      s.(pub := p.(held := Some(i)), dev := Dequeue(s.dev),
         log := s.log.(taken := s.log.taken + [i], captured := s.log.captured + [s.mem[s.dev.bound[i]]]))
    case IdxSent =>
      s.(pub := p, net := s.net.(fwd := s.net.fwd + EncodeU32(s.pub.pc.idx)),
         log := s.log.(sent := s.log.sent + [s.pub.pc.idx]))
    case IdxFailed(k) =>
      s.(pub := p, net := s.net.(fwd := s.net.fwd + EncodeU32(s.pub.pc.idx)[..k]),
         log := s.log.(cut := EncodeU32(s.pub.pc.idx)[..k]))
    case AckReceived =>
      s.(pub := p, net := s.net.(back := s.net.back[1..]), log := s.log.(acksReceived := s.log.acksReceived + 1))
    case Requeued =>
      s.(pub := p.(held := None), dev := Queue(s.dev, s.pub.pc.idx, s.pub.bufs[s.pub.pc.idx]))
    case ClientClosed => s.(pub := p.(open := false))
    case StreamingOff(ok) => s.(pub := p, dev := if ok then SwitchOff(s.dev) else s.dev)
    case BuffersCleared => s.(pub := p.(bufs := []))
    case DeviceClosed => s.(pub := p, dev := IDLE)
    case _ => s.(pub := p)
  }

  // ---- subscriber steps ----

  predicate SubGuard(s: State, e: SubEvent) {
    match e
    case HandshakeReceived =>
      && |s.net.fwd| >= HANDSHAKE_SIZE && s.net.rights.Some? && |s.net.rights.value| <= MAX_FDS
      && DecodeHandshake(s.net.fwd[..HANDSHAKE_SIZE]).bufCount == |s.net.rights.value|
    case HandshakeRefused(k) => k <= HANDSHAKE_SIZE && k <= |s.net.fwd|
    case KeepGoing => s.sub.running
    case StopSeen => !s.sub.running
    case ByteReceived(b) => s.net.fwd != [] && s.net.fwd[0] == b
    case EofSeen => s.net.fwd == [] && !s.pub.open
    case Imported => s.sub.pc.SImport? && s.sub.pc.idx < |s.sub.bufs|
    case ImportFailed => s.sub.pc.SImport? && s.sub.pc.idx < |s.sub.bufs|
    case IndexOutOfBounds => s.sub.pc.SImport? && s.sub.pc.idx >= |s.sub.bufs|
    case Drawn => s.sub.image.Some? && s.sub.image.value in s.mem
    case AckSent => s.pub.open
    case _ => true
  }

  predicate SubEnabled(s: State, e: SubEvent) {
    SubNext(s.sub.pc, e).Some? && SubGuard(s, e)
  }

  function SubStep(s: State, e: SubEvent): State
    requires SubEnabled(s, e)
  {
    var q := s.sub.(pc := SubNext(s.sub.pc, e).value);
    match e
    case HandshakeReceived =>
      s.(sub := q.(bufs := s.net.rights.value),
         net := s.net.(fwd := s.net.fwd[HANDSHAKE_SIZE..], rights := None))
    case HandshakeRefused(k) =>
      s.(sub := q, net := s.net.(fwd := s.net.fwd[k..], rights := None))
    case ByteReceived(b) =>
      s.(sub := q, net := s.net.(fwd := s.net.fwd[1..]),
         log := if q.pc.SImport? then s.log.(received := s.log.received + [q.pc.idx]) else s.log)
    case Imported => s.(sub := q.(image := Some(s.sub.bufs[s.sub.pc.idx])))
    case Drawn => s.(sub := q, log := s.log.(shown := s.log.shown + [s.mem[s.sub.image.value]]))
    case Destroyed => s.(sub := q.(image := None))
    case AckSent =>
      s.(sub := q, net := s.net.(back := s.net.back + [1]), log := s.log.(acksSent := s.log.acksSent + 1))
    case FdsDropped => s.(sub := q.(bufs := []))
    case SocketDropped => s.(sub := q.(open := false))
    case _ => s.(sub := q)
  }

  // ---- the whole ----

  predicate Enabled(c: Config, s: State, l: Label) {
    match l
    case PubSignal => true
    case SubSignal => true
    case Write(i, f) => s.dev.streaming && i in s.dev.incoming && i in s.dev.bound
    case Fill => s.dev.streaming && s.dev.incoming != []
    case Pub(e) => PubEnabled(c, s, e)
    case Sub(e) => SubEnabled(s, e)
  }

  function Step(c: Config, s: State, l: Label): State
    requires Enabled(c, s, l)
  {
    match l
    case PubSignal => s.(pub := s.pub.(running := false))
    case SubSignal => s.(sub := s.sub.(running := false))
    case Write(i, f) => s.(mem := s.mem[s.dev.bound[i] := f])
    case Fill => s.(dev := Complete(s.dev))
    case Pub(e) => PubStep(c, s, e)
    case Sub(e) => SubStep(s, e)
  }

  /** `run` can be taken from s, one label after the other. */
  predicate CanRun(c: Config, s: State, run: seq<Label>)
    decreases |run|
  {
    run == [] || (Enabled(c, s, run[0]) && CanRun(c, Step(c, s, run[0]), run[1..]))
  }

  function Run(c: Config, s: State, run: seq<Label>): State
    requires CanRun(c, s, run)
    decreases |run|
  {
    if run == [] then s else Run(c, Step(c, s, run[0]), run[1..])
  }

  ghost predicate Reachable(c: Config, s: State) {
    exists s0, run :: IsInit(c, s0) && CanRun(c, s0, run) && Run(c, s0, run) == s
  }

  /** A GPU image is live on memory that the capture hardware may store into. */
  predicate Racing(s: State) {
    s.sub.image.Some? && exists i :: i in s.dev.incoming && i in s.dev.bound && s.dev.bound[i] == s.sub.image.value
  }
}
