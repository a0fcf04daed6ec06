/** Progress: no deadlock, rounds that end, and a shutdown that reaches both programs. */
module Liveness {
  import opened Wire
  import opened Driver
  import opened Protocol
  import opened System
  import opened Invariant
  import opened Safety

  /** Waiting in recv with nothing to read from a connected peer. */
  predicate PubBlocked(s: State) {
    s.pub.pc.PWait? && s.net.back == [] && s.sub.open
  }

  predicate SubBlocked(s: State) {
    (s.sub.pc.SHandshake? || s.sub.pc.SRecv?) && s.net.fwd == [] && s.pub.open
  }

  predicate IsProgram(l: Label) {
    l.Pub? || l.Sub?
  }

  /** A step that no injected failure is needed for.  A dequeue that times out counts as healthy, and so
      does every error that the peer's closing forces. */
  predicate Healthy(s: State, l: Label) {
    match l
    case Pub(e) =>
      && !e.RequeueFailed? && e != StreamingOff(false)
      && (e.HandshakeFailed? || e.IdxFailed? || e.AckFailed? ==> !s.sub.open)
    case Sub(e) =>
      && !e.SetUpFailed? && !e.RecvFailed? && !e.ImportFailed? && !e.DispatchFailed?
      && (e.AckNotSent? ==> !s.pub.open)
      && (e.HandshakeRefused? ==> !SubGuard(s, HandshakeReceived) && !SubBlocked(s))
    case _ => true
  }

  /** The two programs never wait for each other. */
  lemma NoDeadlock(c: Config, s: State)
    requires Reachable(c, s) && !c.spuriousAckErrors
    ensures !(PubBlocked(s) && SubBlocked(s))
    ensures PubBlocked(s) ==> !s.sub.pc.SDone?
    ensures SubBlocked(s) ==> !s.pub.pc.PDone?
  {
    ReachableInv(c, s);
  }

  /** The next healthy step of the publisher, unless it is blocked. */
  function PubMove(s: State): PubEvent
    requires !PubBlocked(s) && !s.pub.pc.PDone?
  {
    match s.pub.pc
    case PHandshake => if s.sub.open then HandshakeSent else HandshakeFailed(0, false)
    case PLoop => if s.pub.running then SawRunning else SawStopped
    case PDequeue => DequeueFailed
    case PSend(_) => if s.sub.open then IdxSent else IdxFailed(0)
    case PWait(_) => if s.net.back != [] then AckReceived else AckFailed
    case PRequeue(_) => Requeued
    case PGiveBackUnsent(_) => Requeued
    case PGiveBackUnacked(_) => Requeued
    case PCloseClient => ClientClosed
    case PStreamOff => StreamingOff(true)
    case PClearBuffers => BuffersCleared
    case PCloseDevice => DeviceClosed
    case PDone => DeviceClosed
  }

  function SubMove(s: State): SubEvent
    requires !SubBlocked(s) && !s.sub.pc.SDone?
  {
    match s.sub.pc
    case SHandshake => if SubGuard(s, HandshakeReceived) then HandshakeReceived else HandshakeRefused(0)
    case SSetup => SetUp
    case SLoop => if s.sub.running then KeepGoing else StopSeen
    case SRecv(_) => if s.net.fwd != [] then ByteReceived(s.net.fwd[0]) else EofSeen
    case SImport(_) => Imported
    case SDraw(_) => Drawn
    case SDestroy(_) => Destroyed
    case SAck(_) => if s.pub.open then AckSent else AckNotSent
    case SDispatch => Dispatched
    case SDropGraphics => GraphicsDropped
    case SDropFds => FdsDropped
    case _ => SocketDropped
  }

  lemma PubCanMove(c: Config, s: State)
    requires Reachable(c, s) && !c.spuriousAckErrors && !PubBlocked(s) && !s.pub.pc.PDone?
    ensures Enabled(c, s, Pub(PubMove(s))) && Healthy(s, Pub(PubMove(s)))
  {
    CallDiscipline(c, s);
  }

  lemma SubCanMove(c: Config, s: State)
    requires Reachable(c, s) && !c.spuriousAckErrors && !SubBlocked(s) && !s.sub.pc.SDone?
    ensures Enabled(c, s, Sub(SubMove(s))) && Healthy(s, Sub(SubMove(s)))
  {
    ReachableInv(c, s);
    if SubBusy(s.sub.pc) {
      BusyMeansWaiting(c, s);
    }
    hide Inv;
    SubMoveIsEnabled(s);
  }

  lemma SubMoveIsEnabled(s: State)
    requires !SubBlocked(s) && !s.sub.pc.SDone?
    requires s.sub.pc.SImport? ==> s.sub.pc.idx < |s.sub.bufs|
    requires s.sub.pc.SDraw? ==> s.sub.image.Some? && s.sub.image.value in s.mem
    ensures SubEnabled(s, SubMove(s)) && Healthy(s, Sub(SubMove(s)))
  {
    hide DecodeU32, DecodeHandshake;
  }

  /** Unless both have exited, one of the two programs can go on. */
  lemma NeverStuck(c: Config, s: State)
    requires Reachable(c, s) && !c.spuriousAckErrors && !(s.pub.pc.PDone? && s.sub.pc.SDone?)
    ensures exists l :: IsProgram(l) && Enabled(c, s, l) && Healthy(s, l)
  {
    NoDeadlock(c, s);
    if !PubBlocked(s) && !s.pub.pc.PDone? {
      PubCanMove(c, s);
    } else {
      SubCanMove(c, s);
    }
  }

  // ---- rounds end ----

  function PubRank(pc: PubPc): nat {
    match pc
    case PHandshake => 400
    case PSend(_) => 100
    case PWait(_) => 20
    case PRequeue(_) => 18
    case PLoop => 16
    case PDequeue => 14
    case PGiveBackUnsent(_) => 12
    case PGiveBackUnacked(_) => 12
    case PCloseClient => 8
    case PStreamOff => 6
    case PClearBuffers => 4
    case PCloseDevice => 2
    case PDone => 0
  }

  function SubRank(pc: SubPc): nat {
    match pc
    case SImport(_) => 50
    case SDraw(_) => 48
    case SDestroy(_) => 46
    case SAck(_) => 44
    case SDispatch => 40
    case SHandshake => 19
    case SSetup => 17
    case SLoop => 15
    case SRecv(got) => 10 + 10 * |got|
    case SDropGraphics => 6
    case SDropFds => 4
    case SDropSocket => 2
    case SDone => 0
  }

  /** Bytes count while somebody may still read them. */
  function Rank(s: State): nat {
    PubRank(s.pub.pc) + SubRank(s.sub.pc) + |s.net.back|
    + (if SubLeaving(s.sub.pc) then 0 else 11 * |s.net.fwd|)
  }

  const ROUND_LIMIT: nat := 800

  /** All steps of the programs but a successful DQBUF lower the rank; nobody else changes it. */
  lemma StepLowersRank(c: Config, s: State, l: Label)
    requires Inv(c, s) && Enabled(c, s, l) && !(l.Pub? && l.pe.Dequeued?)
    ensures if IsProgram(l) then Rank(Step(c, s, l)) < Rank(s) else Rank(Step(c, s, l)) == Rank(s)
  {
    hide RingInv, DeviceInv, TakenInv, MemoryInv, HistoryInv, Counted;
    hide EncodeU32, DecodeU32, EncodeHandshake, DecodeHandshake;
    match l {
      case Pub(e) => PubStepLowersRank(c, s, e);
      case Sub(e) => SubStepLowersRank(c, s, e);
      case _ =>
    }
  }

  lemma PubStepLowersRank(c: Config, s: State, e: PubEvent)
    requires PubEnabled(c, s, e) && !e.Dequeued?
    ensures Rank(PubStep(c, s, e)) < Rank(s)
  {
    hide EncodeU32, EncodeHandshake;
  }

  lemma SubStepLowersRank(c: Config, s: State, e: SubEvent)
    requires SubEnabled(s, e)
    requires s.sub.pc.SRecv? ==> |s.sub.pc.got| < INDEX_SIZE
    ensures Rank(SubStep(s, e)) < Rank(s)
  {
    hide DecodeU32, DecodeHandshake;
  }

  lemma RankBound(c: Config, s: State)
    requires Inv(c, s)
    ensures Rank(s) <= ROUND_LIMIT
  {
    hide RingInv, DeviceInv, TakenInv, MemoryInv, HistoryInv, EncodeU32, EncodeHandshake;
  }

  function ProgramSteps(run: seq<Label>): nat {
    if run == [] then 0 else (if IsProgram(run[0]) then 1 else 0) + ProgramSteps(run[1..])
  }

  predicate Dequeues(run: seq<Label>) {
    exists k :: 0 <= k < |run| && run[k].Pub? && run[k].pe.Dequeued?
  }

  lemma {:induction false} RunLowersRank(c: Config, s: State, run: seq<Label>)
    requires Inv(c, s) && CanRun(c, s, run) && !Dequeues(run)
    ensures ProgramSteps(run) + Rank(Run(c, s, run)) <= Rank(s)
    decreases |run|
  {
    hide Inv, Step, Enabled, Rank;
    if run != [] {
      assert forall k :: 0 <= k < |run[1..]| ==> run[1..][k] == run[k + 1];
      assert !(run[0].Pub? && run[0].pe.Dequeued?);
      StepKeepsInv(c, s, run[0]);
      StepLowersRank(c, s, run[0]);
      RunLowersRank(c, Step(c, s, run[0]), run[1..]);
    }
  }

  /** From a DQBUF to the next, both programs together take a bounded number of steps: every round ends. */
  lemma RoundsEnd(c: Config, s: State, run: seq<Label>)
    requires Reachable(c, s) && !c.spuriousAckErrors && CanRun(c, s, run) && !Dequeues(run)
    ensures ProgramSteps(run) <= ROUND_LIMIT
  {
    ReachableInv(c, s);
    RankBound(c, s);
    RunLowersRank(c, s, run);
  }

  // ---- shutdown ----

  predicate PubLeft(pc: PubPc) {
    !pc.PHandshake? && !PubInLoop(pc)
  }

  predicate OneLeft(s: State) {
    PubLeft(s.pub.pc) || SubLeaving(s.sub.pc)
  }

  /** How far the publisher still gets with a subscriber that sends no more acks. */
  function LastRounds(pc: PubPc): nat {
    match pc
    case PHandshake => 11
    case PRequeue(_) => 10
    case PLoop => 9
    case PDequeue => 8
    case PSend(_) => 7
    case PWait(_) => 6
    case _ => 0
  }

  function ExitRank(s: State): nat {
    if PubLeft(s.pub.pc) then Rank(s)
    else 1000 + LastRounds(s.pub.pc) + SubRank(s.sub.pc) + 100 * |s.net.back|
  }

  const EXIT_LIMIT: nat := 1200

  lemma ExitStep(c: Config, s: State, l: Label)
    requires Inv(c, s) && Enabled(c, s, l) && OneLeft(s)
    ensures OneLeft(Step(c, s, l))
    ensures if IsProgram(l) then ExitRank(Step(c, s, l)) < ExitRank(s) else ExitRank(Step(c, s, l)) == ExitRank(s)
  {
    if PubLeft(s.pub.pc) {
      assert !(l.Pub? && l.pe.Dequeued?);
      StepLowersRank(c, s, l);
      PubStaysLeft(c, s, l);
    } else {
      StepKeepsInv(c, s, l);
      RankBound(c, Step(c, s, l));
      LastRoundsStep(c, s, l);
    }
  }

  lemma PubStaysLeft(c: Config, s: State, l: Label)
    requires Enabled(c, s, l) && PubLeft(s.pub.pc)
    ensures PubLeft(Step(c, s, l).pub.pc)
  {
    hide EncodeU32, EncodeHandshake, DecodeHandshake, DecodeU32;
  }

  lemma LastRoundsStep(c: Config, s: State, l: Label)
    requires Enabled(c, s, l) && !PubLeft(s.pub.pc) && SubLeaving(s.sub.pc)
    ensures SubLeaving(Step(c, s, l).sub.pc)
    ensures !PubLeft(Step(c, s, l).pub.pc) ==>
              if IsProgram(l) then ExitRank(Step(c, s, l)) < ExitRank(s) else ExitRank(Step(c, s, l)) == ExitRank(s)
    ensures !IsProgram(l) ==> !PubLeft(Step(c, s, l).pub.pc)
  {
    hide Rank;
    match l {
      case Pub(e) => LastPubStep(c, s, e);
      case Sub(e) => LastSubStep(s, e);
      case _ =>
    }
  }

  lemma LastPubStep(c: Config, s: State, e: PubEvent)
    requires PubEnabled(c, s, e) && !PubLeft(s.pub.pc)
    ensures var t := PubStep(c, s, e);
            t.sub == s.sub && (PubLeft(t.pub.pc) || ExitRank(t) < ExitRank(s))
  {
    hide EncodeU32, EncodeHandshake, Rank;
  }

  lemma LastSubStep(s: State, e: SubEvent)
    requires SubEnabled(s, e) && !PubLeft(s.pub.pc) && SubLeaving(s.sub.pc)
    ensures var t := SubStep(s, e);
            t.pub == s.pub && SubLeaving(t.sub.pc) && ExitRank(t) < ExitRank(s)
  {
    hide DecodeU32, DecodeHandshake, Rank;
  }

  lemma {:induction false} ExitRun(c: Config, s: State, run: seq<Label>)
    requires Inv(c, s) && CanRun(c, s, run) && OneLeft(s)
    ensures ProgramSteps(run) + ExitRank(Run(c, s, run)) <= ExitRank(s)
    decreases |run|
  {
    hide Inv, Step, Enabled, ExitRank, OneLeft;
    if run != [] {
      StepKeepsInv(c, s, run[0]);
      ExitStep(c, s, run[0]);
      ExitRun(c, Step(c, s, run[0]), run[1..]);
    }
  }

  lemma ExitBound(c: Config, s: State)
    requires Inv(c, s) && OneLeft(s)
    ensures ExitRank(s) <= EXIT_LIMIT
  {
    RankBound(c, s);
  }

  /** Both have exited and nothing is left behind. */
  predicate Clean(s: State) {
    && s.pub.pc.PDone? && s.sub.pc.SDone?
    && s.dev == IDLE && s.pub.bufs == [] && s.sub.bufs == [] && s.sub.image.None?
    && !s.pub.open && !s.sub.open
  }

  /** Once either side has left its loop, for whatever reason, both together take a bounded number of
      steps, and where no healthy step is left both have exited with the device idle and nothing held. */
  lemma ShutdownPropagates(c: Config, s: State, run: seq<Label>)
    requires Reachable(c, s) && !c.spuriousAckErrors && OneLeft(s) && CanRun(c, s, run)
    ensures ProgramSteps(run) <= EXIT_LIMIT
    ensures (forall l :: IsProgram(l) && Enabled(c, Run(c, s, run), l) ==> !Healthy(Run(c, s, run), l))
              ==> Clean(Run(c, s, run))
  {
    ReachableInv(c, s);
    ExitBound(c, s);
    ExitRun(c, s, run);
    ReachRun(c, s, run);
    var t := Run(c, s, run);
    ReachableInv(c, t);
    if !(t.pub.pc.PDone? && t.sub.pc.SDone?) {
      NeverStuck(c, t);
    }
  }

  lemma {:induction false} ReachRun(c: Config, s: State, run: seq<Label>)
    requires Reachable(c, s) && CanRun(c, s, run)
    ensures Reachable(c, Run(c, s, run))
    decreases |run|
  {
    hide Step, Enabled, Reachable;
    if run != [] {
      ReachNext(c, s, run[0]);
      ReachRun(c, Step(c, s, run[0]), run[1..]);
    }
  }
}
