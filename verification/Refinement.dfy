/**
 The zero-copy pipeline behaves as one that copies each frame into a one-slot queue when it is dequeued
 and draws the copy.
 */
module Refinement {
  import opened Wire
  import opened Driver
  import opened Protocol
  import opened System
  import opened Invariant

  /** The copying pipeline: no shared memory, no driver, no acks. */
  datatype Copying = Copying(captured: seq<Frame>, slot: Option<Frame>, shown: seq<Frame>)

  datatype Action =
    | Put(frame: Frame)  // a captured frame is copied into the free slot
    | Take               // the copy is drawn and the slot freed

  const EMPTY := Copying([], None, [])

  predicate CanAct(p: Copying, a: Action) {
    match a
    case Put(_) => p.slot.None?
    case Take => p.slot.Some?
  }

  function Act(p: Copying, a: Action): Copying
    requires CanAct(p, a)
  {
    match a
    case Put(f) => Copying(p.captured + [f], Some(f), p.shown)
    case Take => Copying(p.captured, None, p.shown + [p.slot.value])
  }

  predicate CanActAll(p: Copying, actions: seq<Action>)
    decreases |actions|
  {
    actions == [] || (CanAct(p, actions[0]) && CanActAll(Act(p, actions[0]), actions[1..]))
  }

  function ActAll(p: Copying, actions: seq<Action>): Copying
    requires CanActAll(p, actions)
    decreases |actions|
  {
    if actions == [] then p else ActAll(Act(p, actions[0]), actions[1..])
  }

  /** What the copying pipeline has drawn is what it has captured, up to the frame in the slot. */
  lemma {:induction false} CopyingDelivers(p: Copying, actions: seq<Action>)
    requires CanActAll(p, actions)
    requires p.captured == p.shown + (if p.slot.Some? then [p.slot.value] else [])
    ensures var q := ActAll(p, actions);
            q.captured == q.shown + (if q.slot.Some? then [q.slot.value] else [])
    decreases |actions|
  {
    if actions != [] {
      CopyingDelivers(Act(p, actions[0]), actions[1..]);
    }
  }

  /** The copying pipeline that a state of the system stands for. */
  function Abs(s: State): Copying {
    Copying(
      s.log.captured,
      if |s.log.captured| > |s.log.shown| then Some(s.log.captured[|s.log.captured| - 1]) else None,
      s.log.shown)
  }

  /** DQBUF copies what is in memory then; drawing takes; nothing else is visible. */
  function ActionsOf(s: State, l: Label): seq<Action> {
    match l
    case Pub(e) =>
      if e.Dequeued? && e.idx in s.dev.bound && s.dev.bound[e.idx] in s.mem
      then [Put(s.mem[s.dev.bound[e.idx]])] else []
    case Sub(e) => if e.Drawn? then [Take] else []
    case _ => []
  }

  /** Every step of the system is the corresponding step, or none, of the copying pipeline.  A draw reads
      shared memory, and what it finds there is the copy. */
  lemma StepRefines(c: Config, s: State, l: Label)
    requires Inv(c, s) && Enabled(c, s, l)
    ensures CanActAll(Abs(s), ActionsOf(s, l))
    ensures ActAll(Abs(s), ActionsOf(s, l)) == Abs(Step(c, s, l))
  {
    hide EncodeU32, DecodeU32, EncodeHandshake, DecodeHandshake, InFlight, StreamInv, RingInv, TakenInv;
    match l {
      case Pub(e) =>
        if e.Dequeued? {
          DequeueFindsTheSlotFree(s, e);
        } else {
          PubStepsAreSilent(c, s, e);
        }
      case Sub(e) =>
        if e.Drawn? {
          DrawTakesTheSlot(c, s, e);
        } else {
          SubStepsAreSilent(s, e);
        }
      case _ =>
    }
  }

  lemma DequeueFindsTheSlotFree(s: State, e: PubEvent)
    requires Counted(s) && e.Dequeued? && s.pub.pc.PDequeue?
    requires |s.log.captured| == |s.log.taken|
    ensures Abs(s).slot.None?
  {
  }

  lemma DrawTakesTheSlot(c: Config, s: State, e: SubEvent)
    requires Inv(c, s) && SubEnabled(s, e) && e.Drawn?
    ensures |s.log.captured| == |s.log.shown| + 1
    ensures s.mem[s.sub.image.value] == s.log.captured[|s.log.captured| - 1]
  {
    BusyMeansWaiting(c, s);
  }

  lemma PubStepsAreSilent(c: Config, s: State, e: PubEvent)
    requires PubEnabled(c, s, e) && !e.Dequeued?
    ensures Abs(PubStep(c, s, e)) == Abs(s)
  {
  }

  lemma SubStepsAreSilent(s: State, e: SubEvent)
    requires SubEnabled(s, e) && !e.Drawn?
    ensures Abs(SubStep(s, e)) == Abs(s)
  {
  }

  function Actions(c: Config, s: State, run: seq<Label>): seq<Action>
    requires CanRun(c, s, run)
    decreases |run|
  {
    if run == [] then [] else ActionsOf(s, run[0]) + Actions(c, Step(c, s, run[0]), run[1..])
  }

  lemma {:induction false} RunRefines(c: Config, s: State, run: seq<Label>)
    requires Inv(c, s) && CanRun(c, s, run)
    ensures CanActAll(Abs(s), Actions(c, s, run))
    ensures ActAll(Abs(s), Actions(c, s, run)) == Abs(Run(c, s, run))
    decreases |run|
  {
    hide Inv, Step, Abs, ActionsOf;
    if run != [] {
      var t, rest := Step(c, s, run[0]), Actions(c, Step(c, s, run[0]), run[1..]);
      StepKeepsInv(c, s, run[0]);
      StepRefines(c, s, run[0]);
      RunRefines(c, t, run[1..]);
      ActThenAct(Abs(s), ActionsOf(s, run[0]), rest);
    }
  }

  lemma {:induction false} ActThenAct(p: Copying, first: seq<Action>, rest: seq<Action>)
    requires CanActAll(p, first) && CanActAll(ActAll(p, first), rest)
    ensures CanActAll(p, first + rest) && ActAll(p, first + rest) == ActAll(ActAll(p, first), rest)
    decreases |first|
  {
    if first == [] {
      assert first + rest == rest;
    } else {
      assert (first + rest)[1..] == first[1..] + rest;
      ActThenAct(Act(p, first[0]), first[1..], rest);
    }
  }

  /** In every run, however driver, programs, bytes, failures and signals interleave, the system acts as the
      copying pipeline does, and the frames shown are the frames captured, in order, but for at most one. */
  lemma ZeroCopyRefinesCopy(c: Config, s0: State, run: seq<Label>)
    requires IsInit(c, s0) && !c.spuriousAckErrors && CanRun(c, s0, run)
    ensures CanActAll(EMPTY, Actions(c, s0, run))
    ensures ActAll(EMPTY, Actions(c, s0, run)) == Abs(Run(c, s0, run))
    ensures var log := Run(c, s0, run).log;
            log.shown <= log.captured && |log.captured| <= |log.shown| + 1
  {
    InitInv(c, s0);
    RunRefines(c, s0, run);
    CopyingDelivers(EMPTY, Actions(c, s0, run));
  }
}
