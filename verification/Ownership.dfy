/**
 ScopedFd, the C++ owner of one descriptor: the operations that change it in place, and who owns what over
 every sequence of them.
 */
module Ownership {

  const NONE := -1

  /** The process's side of descriptors: which are open, and how often each number was opened and closed. */
  class Process {
    var live: set<int>
    var made: multiset<int>
    var closed: multiset<int>
    var closedTwice: bool

    /** close: a number that is not open is an error, or the descriptor of somebody else. */
    method Close(fd: int)
      requires fd >= 0
      modifies this
      ensures TableOf(this) == old(TableOf(this)).Close(fd)
    {
      if fd in live {
        live := live - {fd};
        closed := closed + multiset{fd};
      } else {
        closedTwice := true;
      }
    }
  }

  // ---- ownership, as values ----

  datatype Table = Table(live: set<int>, made: multiset<int>, closed: multiset<int>, closedTwice: bool) {
    /** close if the number is a descriptor at all. */
    function Close(fd: int): Table {
      if fd < 0 then this
      else if fd in live then this.(live := live - {fd}, closed := closed + multiset{fd})
      else this.(closedTwice := true)
    }
  }

  /** Every ScopedFd by name with the number it holds, and the process's descriptors. */
  datatype State = State(held: map<nat, int>, table: Table)

  datatype Op =
    | Open(fd: int)                  // a call that makes a descriptor
    | Construct(name: nat, fd: int)
    | MoveConstruct(name: nat, from: nat)
    | MoveAssign(name: nat, from: nat)
    | Reset(name: nat, fd: int)
    | Release(name: nat)
    | Destroy(name: nat)

  function Apply(s: State, op: Op): State
    requires Named(s, op)
  {
    match op
    case Open(fd) => s.(table := s.table.(live := s.table.live + {fd}, made := s.table.made + multiset{fd}))
    case Construct(n, fd) => s.(held := s.held[n := fd])
    case MoveConstruct(n, f) => s.(held := s.held[n := s.held[f]][f := NONE])
    case MoveAssign(n, f) =>
      if n == f then s else State(s.held[n := s.held[f]][f := NONE], s.table.Close(s.held[n]))
    case Reset(n, fd) => State(s.held[n := fd], s.table.Close(s.held[n]))
    case Release(n) => s.(held := s.held[n := NONE])
    case Destroy(n) => State(s.held - {n}, s.table.Close(s.held[n]))
  }

  /** The objects an operation names exist, and a new one does not; a new descriptor has a free number. */
  predicate Named(s: State, op: Op) {
    match op
    case Open(fd) => fd >= 0 && fd !in s.table.live
    case Construct(n, _) => n !in s.held
    case MoveConstruct(n, f) => n !in s.held && f in s.held
    case MoveAssign(n, f) => n in s.held && f in s.held
    case Reset(n, _) => n in s.held
    case Release(n) => n in s.held
    case Destroy(n) => n in s.held
  }

  /** An open descriptor that no ScopedFd owns. */
  ghost predicate Loose(s: State, fd: int) {
    fd in s.table.live && forall n <- s.held :: s.held[n] != fd
  }

  /** Callers hand over only numbers that are no descriptor, or descriptors nobody owns. */
  ghost predicate Allowed(s: State, op: Op) {
    match op
    case Construct(_, fd) => fd < 0 || Loose(s, fd)
    case Reset(_, fd) => fd < 0 || Loose(s, fd)
    case _ => true
  }

  ghost predicate OneOwner(held: map<nat, int>) {
    forall m <- held, n <- held :: m != n && held[m] >= 0 ==> held[m] != held[n]
  }

  ghost predicate OwnedIsLive(s: State) {
    forall n <- s.held :: s.held[n] >= 0 ==> s.held[n] in s.table.live
  }

  /** Every opening is matched by one closing, or the descriptor is open still. */
  predicate Balanced(t: Table) {
    t.made == t.closed + multiset(t.live)
  }

  ghost predicate Inv(s: State) {
    && OneOwner(s.held)
    && OwnedIsLive(s)
    && Sane(s.table)
  }

  ghost predicate Sane(t: Table) {
    Balanced(t) && !t.closedTwice && forall fd <- t.live :: fd >= 0
  }

  lemma OpKeepsTable(s: State, op: Op)
    requires Inv(s) && Named(s, op)
    ensures Sane(Apply(s, op).table)
  {
  }

  lemma OpKeepsOneOwner(s: State, op: Op)
    requires Inv(s) && Named(s, op) && Allowed(s, op)
    ensures OneOwner(Apply(s, op).held)
  {
    hide Sane;
  }

  lemma OpKeepsInv(s: State, op: Op)
    requires Inv(s) && Named(s, op) && Allowed(s, op)
    ensures Inv(Apply(s, op))
  {
    OpKeepsTable(s, op);
    OpKeepsOneOwner(s, op);
    hide Sane;
  }

  /** Handing over is safe exactly for descriptors nobody owns.  For reset this excludes the object's own
      descriptor, which it closes and then keeps. */
  lemma HandOverExactlyWhen(s: State, name: nat, fd: int)
    requires Inv(s) && fd in s.table.live
    ensures name in s.held ==> (Inv(Apply(s, Reset(name, fd))) <==> Loose(s, fd))
    ensures name !in s.held ==> (Inv(Apply(s, Construct(name, fd))) <==> Loose(s, fd))
  {
    var op := if name in s.held then Reset(name, fd) else Construct(name, fd);
    if Loose(s, fd) {
      OpKeepsInv(s, op);
    } else {
      var owner :| owner in s.held && s.held[owner] == fd;
      var held := Apply(s, op).held;
      assert owner in held && name in held && held[owner] == held[name] == fd;
    }
  }

  lemma ResetToOwnClosesTwice(s: State, name: nat)
    requires Inv(s) && name in s.held && s.held[name] >= 0
    ensures Apply(Apply(s, Reset(name, s.held[name])), Destroy(name)).table.closedTwice
  {
  }

  /** What an object owns stays owned, by it or by another, or is closed, unless the object releases it. */
  lemma OwnedUntilReleased(s: State, op: Op, owner: nat)
    requires Inv(s) && Named(s, op) && Allowed(s, op)
    requires owner in s.held && s.held[owner] >= 0 && op != Release(owner)
    ensures !Loose(Apply(s, op), s.held[owner])
  {
    var held := Apply(s, op).held;
    if (op.MoveConstruct? || op.MoveAssign?) && op.from == owner {
      assert op.name in held && held[op.name] == s.held[owner];
    } else if owner in held {
      assert held[owner] == s.held[owner] || op.MoveAssign? || op.Reset?;
    }
  }

  predicate HandsOver(op: Op, fd: int) {
    (op.Construct? || op.Reset?) && op.fd == fd
  }

  /** The operation makes the descriptor, or its owner releases it. */
  predicate LetsGo(s: State, op: Op, fd: int)
    requires Named(s, op)
  {
    op == Open(fd) || (op.Release? && s.held[op.name] == fd)
  }

  /** After a step a descriptor is loose exactly if the step let go of it, or it was and was not handed over. */
  lemma LooseAfter(s: State, op: Op, fd: int)
    requires Inv(s) && Named(s, op) && Allowed(s, op) && fd >= 0
    ensures Loose(Apply(s, op), fd) <==> LetsGo(s, op, fd) || (Loose(s, fd) && !HandsOver(op, fd))
  {
    var after := Apply(s, op);
    if HandsOver(op, fd) {
      assert op.name in after.held && after.held[op.name] == fd;
    } else if !Loose(s, fd) && fd in s.table.live {
      var owner :| owner in s.held && s.held[owner] == fd;
      if op != Release(owner) {
        OwnedUntilReleased(s, op, owner);
      }
    }
  }

  predicate CanRun(s: State, ops: seq<Op>)
    decreases |ops|
  {
    ops == [] || (Named(s, ops[0]) && CanRun(Apply(s, ops[0]), ops[1..]))
  }

  function Run(s: State, ops: seq<Op>): State
    requires CanRun(s, ops)
    decreases |ops|
  {
    if ops == [] then s else Run(Apply(s, ops[0]), ops[1..])
  }

  ghost predicate AllAllowed(s: State, ops: seq<Op>)
    requires CanRun(s, ops)
    decreases |ops|
  {
    ops == [] || (Allowed(s, ops[0]) && AllAllowed(Apply(s, ops[0]), ops[1..]))
  }

  lemma {:induction false} RunKeepsInv(s: State, ops: seq<Op>)
    requires Inv(s) && CanRun(s, ops) && AllAllowed(s, ops)
    ensures Inv(Run(s, ops))
    decreases |ops|
  {
    if ops != [] {
      OpKeepsInv(s, ops[0]);
      RunKeepsInv(Apply(s, ops[0]), ops[1..]);
    }
  }

  const START := State(map[], Table({}, multiset{}, multiset{}, false))

  /** The state in which operation k is applied. */
  function Before(s: State, ops: seq<Op>, k: nat): (t: State)
    requires CanRun(s, ops) && k <= |ops|
    ensures if k < |ops| then Named(t, ops[k]) else t == Run(s, ops)
    decreases k
  {
    if k == 0 then s else Before(Apply(s, ops[0]), ops[1..], k - 1)
  }

  /** Operation k lets go of the descriptor and none after it hands it over. */
  ghost predicate LetGoAt(s: State, ops: seq<Op>, fd: int, k: nat)
    requires CanRun(s, ops)
  {
    && k < |ops| && LetsGo(Before(s, ops, k), ops[k], fd)
    && forall j :: k < j < |ops| ==> !HandsOver(ops[j], fd)
  }

  ghost predicate NeverHandedOver(ops: seq<Op>, fd: int) {
    forall j :: 0 <= j < |ops| ==> !HandsOver(ops[j], fd)
  }

  /** Over every sequence of operations: a descriptor ends up loose if and only if some operation let go of it,
      or it was loose from the start, and nobody was handed it since. */
  lemma {:induction false} LooseExactlyWhen(s: State, ops: seq<Op>, fd: int)
    requires Inv(s) && CanRun(s, ops) && AllAllowed(s, ops) && fd >= 0
    ensures Loose(Run(s, ops), fd) <==>
            (Loose(s, fd) && NeverHandedOver(ops, fd)) || exists k: nat :: LetGoAt(s, ops, fd, k)
    decreases |ops|
  {
    if ops != [] {
      var t, rest := Apply(s, ops[0]), ops[1..];
      hide Apply, Loose, Allowed, Inv, Named, HandsOver, LetsGo;
      OpKeepsInv(s, ops[0]);
      LooseAfter(s, ops[0], fd);
      LooseExactlyWhen(t, rest, fd);
      Shift(s, ops, fd);
    }
  }

  /** Where the first operation stands to the others. */
  lemma Shift(s: State, ops: seq<Op>, fd: int)
    requires CanRun(s, ops) && ops != []
    ensures var t, rest := Apply(s, ops[0]), ops[1..];
            && (NeverHandedOver(ops, fd) <==> !HandsOver(ops[0], fd) && NeverHandedOver(rest, fd))
            && (LetGoAt(s, ops, fd, 0) <==> LetsGo(s, ops[0], fd) && NeverHandedOver(rest, fd))
            && ((exists k: nat :: LetGoAt(s, ops, fd, k)) <==>
                LetGoAt(s, ops, fd, 0) || exists k: nat :: LetGoAt(t, rest, fd, k))
  {
    hide Apply, HandsOver, LetsGo;
    var t, rest := Apply(s, ops[0]), ops[1..];
    assert forall j :: 0 <= j < |rest| ==> rest[j] == ops[j + 1];
    assert forall j :: 0 < j < |ops| ==> ops[j] == rest[j - 1];
    forall k: nat
      ensures LetGoAt(s, ops, fd, k + 1) <==> LetGoAt(t, rest, fd, k)
    {
      if k < |rest| {
        assert Before(s, ops, k + 1) == Before(t, rest, k);
      }
    }
    if k: nat :| LetGoAt(s, ops, fd, k) && k > 0 {
      assert LetGoAt(t, rest, fd, k - 1);
    }
  }

  /** Over every sequence of operations: no descriptor has two owners and none is closed twice.  Once all objects
      are gone, each was closed as often as it was opened, except for one that is open still, and that is so if and
      only if it was made or released without being handed over since. */
  lemma SingleOwnership(ops: seq<Op>, fd: int)
    requires CanRun(START, ops) && AllAllowed(START, ops)
    ensures var s := Run(START, ops);
            && OneOwner(s.held) && !s.table.closedTwice
            && s.table.made[fd] == s.table.closed[fd] + (if fd in s.table.live then 1 else 0)
            && (s.held == map[] ==> (fd in s.table.live <==> fd >= 0 && exists k: nat :: LetGoAt(START, ops, fd, k)))
  {
    RunKeepsInv(START, ops);
    var s := Run(START, ops);
    assert s.table.made[fd] == (s.table.closed + multiset(s.table.live))[fd];
    if fd >= 0 {
      LooseExactlyWhen(START, ops, fd);
    }
  }

  /** A descriptor that is handed over each time it was made, and never released, is closed as often as opened. */
  lemma ClosedOnceUnlessReleased(ops: seq<Op>, fd: int)
    requires CanRun(START, ops) && AllAllowed(START, ops) && Run(START, ops).held == map[]
    requires forall k: nat :: k < |ops| && ops[k].Release? ==> Before(START, ops, k).held[ops[k].name] != fd
    requires forall k: nat :: k < |ops| && ops[k] == Open(fd) ==> exists j :: k < j < |ops| && HandsOver(ops[j], fd)
    ensures var t := Run(START, ops).table;
            fd !in t.live && t.made[fd] == t.closed[fd]
  {
    SingleOwnership(ops, fd);
    if k: nat :| LetGoAt(START, ops, fd, k) {
      assert k < |ops| && LetsGo(Before(START, ops, k), ops[k], fd);
    }
  }

  // ---- the class ----

  class ScopedFd {
    var fd: int

    constructor (fd: int)
      ensures this.fd == fd
    {
      this.fd := fd;
    }

    constructor Move(other: ScopedFd)
      modifies other
      ensures fd == old(other.fd) && other.fd == NONE
    {
      fd := other.fd;
      new;
      other.fd := NONE;
    }

    /** The move assignment; to itself it does nothing. */
    method MoveAssign(other: ScopedFd, p: Process)
      modifies this, other, p
      ensures this == other ==> fd == old(fd) && TableOf(p) == old(TableOf(p))
      ensures this != other ==> fd == old(other.fd) && other.fd == NONE && TableOf(p) == old(TableOf(p)).Close(old(fd))
    {
      if this != other {
        if fd >= 0 { p.Close(fd); }
        fd := other.fd;
        other.fd := NONE;
      }
    }

    method Release() returns (r: int)
      modifies this
      ensures r == old(fd) && fd == NONE
    {
      r := fd;
      fd := NONE;
    }

    method Reset(fd: int, p: Process)
      modifies this, p
      ensures this.fd == fd && TableOf(p) == old(TableOf(p)).Close(old(this.fd))
    {
      if this.fd >= 0 { p.Close(this.fd); }
      this.fd := fd;
    }

    method Destroy(p: Process)
      modifies p
      ensures TableOf(p) == old(TableOf(p)).Close(fd)
    {
      if fd >= 0 { p.Close(fd); }
    }
  }

  ghost function TableOf(p: Process): Table
    reads p
  {
    Table(p.live, p.made, p.closed, p.closedTwice)
  }

  ghost function StateOf(objs: map<nat, ScopedFd>, p: Process): State
    reads p, objs.Values
  {
    State(map n | n in objs :: objs[n].fd, TableOf(p))
  }

  /** Different names, different objects. */
  ghost predicate Separate(objs: map<nat, ScopedFd>) {
    forall m <- objs, n <- objs :: m != n ==> objs[m] != objs[n]
  }

  /** Construction on real objects is a step of the ownership model. */
  method Make(op: Op, objs: map<nat, ScopedFd>, p: Process) returns (after: map<nat, ScopedFd>)
    requires op.Construct? || op.MoveConstruct?
    requires Separate(objs) && Named(StateOf(objs, p), op)
    modifies objs.Values
    ensures Separate(after) && forall n <- after :: fresh(after[n]) || after[n] in objs.Values
    ensures StateOf(after, p) == Apply(old(StateOf(objs, p)), op)
  {
    var o: ScopedFd;
    if op.Construct? {
      o := new ScopedFd(op.fd);
    } else {
      o := new ScopedFd.Move(objs[op.from]);
    }
    after := objs[op.name := o];
  }

  /** So is every change in place. */
  method Change(op: Op, objs: map<nat, ScopedFd>, p: Process)
    requires op.MoveAssign? || op.Reset? || op.Release?
    requires Separate(objs) && Named(StateOf(objs, p), op)
    modifies p, objs.Values
    ensures StateOf(objs, p) == Apply(old(StateOf(objs, p)), op)
  {
    if op.MoveAssign? {
      objs[op.name].MoveAssign(objs[op.from], p);
    } else if op.Reset? {
      objs[op.name].Reset(op.fd, p);
    } else {
      var _ := objs[op.name].Release();
    }
  }

  /** One operation on real objects is one step of the ownership model. */
  method Do(op: Op, objs: map<nat, ScopedFd>, p: Process) returns (after: map<nat, ScopedFd>)
    requires Separate(objs) && Named(StateOf(objs, p), op)
    modifies p, objs.Values
    ensures Separate(after) && forall n <- after :: fresh(after[n]) || after[n] in objs.Values
    ensures StateOf(after, p) == Apply(old(StateOf(objs, p)), op)
  {
    after := objs;
    if op.Open? {
      p.live := p.live + {op.fd};
      p.made := p.made + multiset{op.fd};
    } else if op.Destroy? {
      objs[op.name].Destroy(p);
      after := objs - {op.name};
    } else if op.Construct? || op.MoveConstruct? {
      after := Make(op, objs, p);
    } else {
      Change(op, objs, p);
    }
  }

  /** A whole program of operations, from no objects on. */
  method Execute(ops: seq<Op>, p: Process) returns (objs: map<nat, ScopedFd>)
    requires TableOf(p) == START.table && CanRun(START, ops)
    modifies p
    ensures StateOf(objs, p) == Run(START, ops)
  {
    objs := map[];
    var i := 0;
    assert StateOf(objs, p) == START && ops[0..] == ops;
    hide Apply, Named;
    while i < |ops|
      invariant i <= |ops| && Separate(objs) && forall n <- objs :: fresh(objs[n])
      invariant CanRun(StateOf(objs, p), ops[i..]) && Run(StateOf(objs, p), ops[i..]) == Run(START, ops)
    {
      assert ops[i..][1..] == ops[i + 1..];
      objs := Do(ops[i], objs, p);
      i := i + 1;
    }
  }
}
