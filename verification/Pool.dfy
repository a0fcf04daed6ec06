/** What the three capture classes have in common: who owns which descriptor, and the abstract buffer pool. */
module Pool {
  import opened Wire
  import opened Driver
  import opened Kernel

  /** V4l2BufInfo: one buffer of the pool.  The C++ class marks one without a descriptor by -1. */
  datatype BufInfo = BufInfo(dmabufFd: int, index: u32, length: u32, bytesused: u32)

  function BufFds(buffers: seq<BufInfo>): set<int> {
    set b | b in buffers && b.dmabufFd >= 0 :: b.dmabufFd
  }

  /** The descriptors of the buffers that have one, in index order. */
  function Present(buffers: seq<BufInfo>): seq<int> {
    if buffers == [] then []
    else
      var last := buffers[|buffers| - 1];
      Present(buffers[..|buffers| - 1]) + if last.dmabufFd >= 0 then [last.dmabufFd] else []
  }

  /** What stopping a capture does, in order: end the stream, close the buffers' descriptors, free the pool. */
  function Stopping(fd: int, mmap: bool, streaming: bool, off: bool, buffers: seq<BufInfo>): seq<Act> {
    (if streaming then [StreamedOff(fd, off)] else []) + Closings(Present(buffers))
    + (if fd >= 0 then [BuffersAsked(fd, mmap, 0, 0)] else [])
  }

  /** What taking it down does: stop, then close the device. */
  function Leaving(fd: int, mmap: bool, streaming: bool, off: bool, buffers: seq<BufInfo>): seq<Act> {
    Stopping(fd, mmap, streaming, off, buffers) + (if fd >= 0 then [Closed(fd)] else [])
  }

  /** What a program does to its resources: `early` acts on the way in; then it gives up sockets and then a device,
      if one is left, with its stream, the descriptors of its buffers and the driver's pool before it. */
  datatype Exit = Exit(early: seq<Act>, sockets: seq<int>, device: int, mmap: bool, streaming: bool, off: bool,
                       present: seq<int>)
  {
    function Acts(): seq<Act> {
      early + Closings(sockets) + (if device >= 0 then Ending(device, mmap, streaming, off, present) else [])
    }
  }

  const NOTHING := Exit([], [], -1, false, false, true, [])

  function Ending(device: int, mmap: bool, streaming: bool, off: bool, present: seq<int>): seq<Act> {
    (if streaming then [StreamedOff(device, off)] else []) + Closings(present) + [BuffersAsked(device, mmap, 0, 0)]
    + [Closed(device)]
  }

  /** The order read off slice by slice: the sockets, the stream, the buffers in index order, the driver's pool and
      the device last. */
  lemma OrderOfExit(exit: Exit)
    requires exit.device >= 0
    ensures var acts, s := exit.Acts(), |exit.early|;
            var m := s + |exit.sockets|;
            var b := m + if exit.streaming then 1 else 0;
            var e := b + |exit.present|;
            && |acts| == e + 2 && acts[..s] == exit.early
            && (forall i :: 0 <= i < |exit.sockets| ==> acts[s..m][i] == Closed(exit.sockets[i]))
            && acts[m..b] == (if exit.streaming then [StreamedOff(exit.device, exit.off)] else [])
            && (forall i :: 0 <= i < |exit.present| ==> acts[b..e][i] == Closed(exit.present[i]))
            && acts[e..] == [BuffersAsked(exit.device, exit.mmap, 0, 0), Closed(exit.device)]
  {
    hide Closings;
    var stream := if exit.streaming then [StreamedOff(exit.device, exit.off)] else [];
    var asked, closed := [BuffersAsked(exit.device, exit.mmap, 0, 0)], [Closed(exit.device)];
    var s, p := Closings(exit.sockets), Closings(exit.present);
    assert stream + p + asked + closed == stream + p + (asked + closed);
    FivePieces(exit.early, s, stream, p, asked + closed);
    ClosingsAt(exit.sockets);
    ClosingsAt(exit.present);
  }

  lemma ClosingsAt(fds: seq<int>)
    ensures forall i :: 0 <= i < |fds| ==> Closings(fds)[i] == Closed(fds[i])
  {
  }

  lemma FivePieces(a: seq<Act>, b: seq<Act>, c: seq<Act>, d: seq<Act>, e: seq<Act>)
    ensures var x, n := a + b + (c + d + e), |a| + |b|;
            && |x| == n + |c| + |d| + |e|
            && x[..|a|] == a && x[|a|..n] == b && x[n..n + |c|] == c
            && x[n + |c|..n + |c| + |d|] == d && x[n + |c| + |d|..] == e
  {
    var x, y, n := a + b + (c + d + e), c + d + e, |a| + |b|;
    assert y[..|c|] == c && y[|c|..|c| + |d|] == d && y[|c| + |d|..] == e;
    assert x[n..] == y;
  }

  /** Closing sockets and then leaving, after whatever happened before. */
  lemma SocketsThenLeave(before: seq<Act>, sockets: seq<int>, fd: int, mmap: bool, streaming: bool, off: bool,
                         buffers: seq<BufInfo>)
    requires fd < 0 ==> !streaming && buffers == []
    ensures before + Closings(sockets) + Leaving(fd, mmap, streaming, off, buffers)
            == before + Exit([], sockets, fd, mmap, streaming, off, Present(buffers)).Acts()
  {
    hide Closings, Leaving, Ending, Present;
    var s, l := Closings(sockets), Leaving(fd, mmap, streaming, off, buffers);
    LeavingIsEnding(fd, mmap, streaming, off, buffers);
    Associate(before, s, l);
  }

  lemma LeavingIsEnding(fd: int, mmap: bool, streaming: bool, off: bool, buffers: seq<BufInfo>)
    requires fd < 0 ==> !streaming && buffers == []
    ensures Leaving(fd, mmap, streaming, off, buffers)
            == if fd >= 0 then Ending(fd, mmap, streaming, off, Present(buffers)) else []
  {
    if fd < 0 {
      assert Present(buffers) == [] && Closings([]) == [];
    }
  }

  lemma Associate(a: seq<Act>, b: seq<Act>, c: seq<Act>)
    ensures a + b + c == a + ([] + b + c)
  {
    assert [] + b == b;
  }

  /** What was done even earlier. */
  lemma EarlierToo(before: seq<Act>, early: seq<Act>, exit: Exit)
    ensures before + early + exit.Acts() == before + exit.(early := early + exit.early).Acts()
  {
    hide Ending, Closings;
  }

  function Owned(fd: int, buffers: seq<BufInfo>): set<int> {
    (if fd >= 0 then {fd} else {}) + BufFds(buffers)
  }

  /** The capture owns its device and one DMA-BUF per buffer, no two the same descriptor. */
  predicate Owns(fds: map<int, File>, fd: int, buffers: seq<BufInfo>) {
    && (fd >= 0 ==> fd in fds && fds[fd].Device?)
    && (forall i :: 0 <= i < |buffers| && buffers[i].dmabufFd >= 0 ==>
          buffers[i].dmabufFd in fds && fds[buffers[i].dmabufFd].DmaBuf?)
    && (forall i, j :: 0 <= i < j < |buffers| && buffers[i].dmabufFd >= 0 ==>
          buffers[i].dmabufFd != buffers[j].dmabufFd)
  }

  lemma NothingOwned(fds: map<int, File>, fd: int)
    requires fd >= 0 ==> fd in fds && fds[fd].Device?
    ensures Owns(fds, fd, [])
  {
  }

  /** Every buffer has its descriptor, and the driver fills for index i the memory that it names. */
  predicate Ready(fds: map<int, File>, fd: int, buffers: seq<BufInfo>) {
    && Owns(fds, fd, buffers) && fd >= 0
    && |buffers| <= fds[fd].q.alloc
    && (forall i: u32 :: i < |buffers| ==>
          && buffers[i].index == i && buffers[i].dmabufFd >= 0
          && i in fds[fd].q.bound && fds[buffers[i].dmabufFd] == DmaBuf(fds[fd].q.bound[i]))
    && Distinct(Order(fds[fd].q))
    && (forall i :: i in Order(fds[fd].q) ==> i < |buffers|)
  }

  /** The abstract pool: the memory behind each index, the order in which the driver will hand the
      buffers out, and whether it streams. */
  datatype Pool = Pool(objs: seq<Obj>, queue: seq<u32>, streaming: bool)

  function View(fds: map<int, File>, fd: int, buffers: seq<BufInfo>): Pool
    requires Ready(fds, fd, buffers)
  {
    Pool(seq(|buffers|, i requires 0 <= i < |buffers| => fds[fd].q.bound[i]), Order(fds[fd].q), fds[fd].q.streaming)
  }

  /** A pool just started: all buffers queued in index order. */
  predicate Started(p: Pool) {
    p.streaming && |p.objs| < 0x1_0000_0000 && p.queue == Range(|p.objs|)
  }

  /** There is something for the device to fill. */
  predicate Stocked(p: Pool) {
    p.streaming && p.queue != []
  }

  predicate Takes(p: Pool, i: u32, p': Pool) {
    p.queue != [] && i == p.queue[0] && p' == p.(queue := p.queue[1..])
  }

  predicate Returns(p: Pool, i: u32, p': Pool) {
    i !in p.queue && p' == p.(queue := p.queue + [i])
  }

  /** `after` is `before` with new descriptors and, maybe, a changed device. */
  predicate Extends(before: map<int, File>, after: map<int, File>, device: int, added: set<int>) {
    && after.Keys == before.Keys + added
    && added !! before.Keys
    && (forall fd :: fd in before && fd != device ==> after[fd] == before[fd])
  }

  lemma BufFdsAppend(buffers: seq<BufInfo>, b: BufInfo)
    requires b.dmabufFd >= 0
    ensures BufFds(buffers + [b]) == BufFds(buffers) + {b.dmabufFd}
  {
  }

  lemma BufFdsUpdate(buffers: seq<BufInfo>, i: nat, b: BufInfo)
    requires i < |buffers| && buffers[i].dmabufFd == b.dmabufFd
    ensures BufFds(buffers[i := b]) == BufFds(buffers)
  {
    var after := buffers[i := b];
    forall x | x in buffers
      ensures exists y :: y in after && y.dmabufFd == x.dmabufFd
    {
      var j :| 0 <= j < |buffers| && buffers[j] == x;
      assert after[j] in after;
    }
  }

  lemma {:induction false} PresentUpdate(buffers: seq<BufInfo>, i: nat, b: BufInfo)
    requires i < |buffers| && buffers[i].dmabufFd == b.dmabufFd
    ensures Present(buffers[i := b]) == Present(buffers)
  {
    var n := |buffers| - 1;
    if i < n {
      assert buffers[i := b][..n] == buffers[..n][i := b];
      PresentUpdate(buffers[..n], i, b);
    } else {
      assert buffers[i := b][..n] == buffers[..n];
    }
  }

  /** Closing what was opened restores the table. */
  lemma CloseRestores(before: map<int, File>, after: map<int, File>, device: int, added: set<int>)
    requires Extends(before, after, device, added) && device in before
    ensures after - ({device} + added) == before - {device}
  {
    var l, r := after - ({device} + added), before - {device};
    assert forall fd :: fd in l <==> fd in r;
    assert forall fd :: fd in r ==> l[fd] == r[fd];
  }

  lemma SameTable(a: map<int, File>, b: map<int, File>)
    requires a.Keys == b.Keys && forall x :: x in b ==> a[x] == b[x]
    ensures a == b
  {
    assert forall x :: x in a <==> x in b;
    assert forall x :: x in b ==> a[x] == b[x];
  }

  lemma ExtendsTwice(a: map<int, File>, b: map<int, File>, c: map<int, File>, device: int,
                     first: set<int>, second: set<int>)
    requires Extends(a, b, device, first) && Extends(b, c, device, second)
    ensures Extends(a, c, device, first + second)
  {
  }

  /** Start half way: the first |buffers| of `alloc` buffers have a descriptor and are queued. */
  predicate Filling(fds: map<int, File>, fd: int, buffers: seq<BufInfo>, alloc: u32, bound: map<u32, Obj>) {
    && Owns(fds, fd, buffers) && fd >= 0
    && |buffers| <= alloc
    && fds[fd].q == Driver(alloc, bound, Range(|buffers|), [], false)
    && (forall i: u32 :: i < |buffers| ==>
          && buffers[i].index == i && buffers[i].dmabufFd >= 0
          && i in bound && fds[buffers[i].dmabufFd] == DmaBuf(bound[i]))
  }

  /** Recording a new descriptor for buffer |buffers|. */
  lemma RecordBuffer(fds: map<int, File>, fd: int, buffers: seq<BufInfo>, alloc: u32, bound: map<u32, Obj>, b: BufInfo)
    requires Filling(fds, fd, buffers, alloc, bound) && |buffers| < alloc && |buffers| in bound
    requires b.dmabufFd >= 0 && b.dmabufFd !in fds && b.index == |buffers|
    ensures var fds' := fds[b.dmabufFd := DmaBuf(bound[b.index])];
            && Owns(fds', fd, buffers + [b])
            && Extends(fds, fds', fd, {b.dmabufFd})
            && fds'[fd] == fds[fd] && CanQueue(fds[fd].q, b.index)
  {
  }

  /** ... and queueing it. */
  lemma QueueRecorded(fds: map<int, File>, fd: int, buffers: seq<BufInfo>, alloc: u32, bound: map<u32, Obj>, b: BufInfo)
    requires Filling(fds, fd, buffers, alloc, bound) && |buffers| < alloc && |buffers| in bound
    requires b.dmabufFd >= 0 && b.dmabufFd !in fds && b.index == |buffers|
    ensures CanQueue(fds[fd].q, b.index)
    ensures var q' := Queue(fds[fd].q, b.index, bound[b.index]);
            var fds' := fds[b.dmabufFd := DmaBuf(bound[b.index])][fd := Device(q')];
            Filling(fds', fd, buffers + [b], alloc, bound) && Extends(fds, fds', fd, {b.dmabufFd})
  {
    assert bound[b.index := bound[b.index]] == bound;
    assert Range(b.index) + [b.index] == Range(b.index + 1);
  }

  lemma FillingOwns(fds: map<int, File>, fd: int, buffers: seq<BufInfo>, alloc: u32, bound: map<u32, Obj>)
    requires Filling(fds, fd, buffers, alloc, bound)
    ensures Owns(fds, fd, buffers) && fd >= 0
    ensures fd in fds && fds[fd].Device? && fds[fd].q == Driver(alloc, bound, Range(|buffers|), [], false)
  {
  }

  lemma NothingAdded(fds: map<int, File>, fd: int)
    ensures Extends(fds, fds, fd, {})
  {
  }

  lemma NothingRecorded(fds: map<int, File>, fd: int, alloc: u32, bound: map<u32, Obj>, before: map<int, File>)
    requires fd >= 0 && fd in before && fds == before[fd := Device(Driver(alloc, bound, [], [], false))]
    ensures Filling(fds, fd, [], alloc, bound) && Extends(before, fds, fd, BufFds([]))
  {
  }

  /** Queueing a buffer with memory that the caller brought. */
  lemma QueueSupplied(fds: map<int, File>, fd: int, buffers: seq<BufInfo>, alloc: u32, b: BufInfo)
    requires Owns(fds, fd, buffers) && fd >= 0 && Filling(fds, fd, buffers, alloc, fds[fd].q.bound)
    requires |buffers| < alloc && b.index == |buffers|
    requires b.dmabufFd >= 0 && b.dmabufFd in fds && fds[b.dmabufFd].DmaBuf? && b.dmabufFd !in BufFds(buffers)
    ensures CanQueue(fds[fd].q, b.index)
    ensures var q' := Queue(fds[fd].q, b.index, fds[b.dmabufFd].obj);
            var fds' := fds[fd := Device(q')];
            Owns(fds', fd, buffers + [b]) && Filling(fds', fd, buffers + [b], alloc, q'.bound)
  {
  }

  /** STREAMON makes a filled pool a started one. */
  lemma SwitchOn(fds: map<int, File>, fd: int, buffers: seq<BufInfo>, alloc: u32, bound: map<u32, Obj>)
    requires Filling(fds, fd, buffers, alloc, bound)
    ensures Owns(fds, fd, buffers) && fd in fds && fds[fd].Device? && fds[fd].q.alloc == alloc && !fds[fd].q.streaming
    ensures var on := fds[fd := Device(fds[fd].q.(streaming := true))];
            && Ready(on, fd, buffers) && Owns(on, fd, buffers) && Extends(fds, on, fd, {})
            && Started(View(on, fd, buffers)) && |View(on, fd, buffers).objs| == |buffers|
            && (forall i: u32 :: i < |buffers| ==> i in bound && View(on, fd, buffers).objs[i] == bound[i])
  {
  }

  /** The device filling buffers meanwhile does not show in the pool. */
  lemma FillingIsSilent(fds: map<int, File>, fd: int, buffers: seq<BufInfo>, q: Driver)
    requires Ready(fds, fd, buffers) && Order(q) == Order(fds[fd].q)
    requires q == fds[fd].q.(done := q.done, incoming := q.incoming)
    ensures Ready(fds[fd := Device(q)], fd, buffers)
    ensures View(fds[fd := Device(q)], fd, buffers) == View(fds, fd, buffers)
  {
  }

  /** Waits for the device, or until a time limit; only the device's own progress can happen meanwhile. */
  method Await(k: Kernel, fd: int, buffers: seq<BufInfo>) returns (r: int)
    requires k.Valid() && Ready(k.fds, fd, buffers)
    modifies k
    ensures k.Valid() && k.nextObj == old(k.nextObj) && k.history == old(k.history) && Ready(k.fds, fd, buffers)
    ensures k.IsDevice(fd) && k.fds == old(k.fds)[fd := k.fds[fd]] && k.faults >= old(k.faults)
    ensures View(k.fds, fd, buffers) == old(View(k.fds, fd, buffers))
    ensures k.faults == old(k.faults) && Stocked(View(k.fds, fd, buffers)) ==> r > 0 && CanDequeue(k.fds[fd].q)
    ensures k.fds[fd].q.streaming == old(k.fds[fd].q.streaming) && k.fds[fd].q.alloc == old(k.fds[fd].q.alloc)
  {
    assert fd >= 0 && k.IsDevice(fd);
    assert Stocked(View(k.fds, fd, buffers)) ==> k.fds[fd].q.streaming && Order(k.fds[fd].q) != [];
    hide Ready, View, Order, Stocked;
    r := k.Select(fd);
    FillingIsSilent(old(k.fds), fd, buffers, k.fds[fd].q);
  }

  /** DQBUF on a pool: the buffer that is next in order, or an error. */
  method TakeNext(k: Kernel, fd: int, buffers: seq<BufInfo>) returns (ok: bool, index: u32, bytesused: u32)
    requires k.Valid() && Ready(k.fds, fd, buffers)
    modifies k
    ensures k.Valid() && k.nextObj == old(k.nextObj) && k.history == old(k.history) && Ready(k.fds, fd, buffers)
    ensures k.IsDevice(fd) && k.fds == old(k.fds)[fd := k.fds[fd]]
    ensures ok ==> index < |buffers| && Takes(old(View(k.fds, fd, buffers)), index, View(k.fds, fd, buffers))
    ensures ok ==> bytesused == k.used
    ensures !ok ==> View(k.fds, fd, buffers) == old(View(k.fds, fd, buffers))
    ensures k.faults >= old(k.faults) && (!ok && old(CanDequeue(k.fds[fd].q)) ==> k.faults > old(k.faults))
    ensures k.fds[fd].q.streaming == old(k.fds[fd].q.streaming) && k.fds[fd].q.alloc == old(k.fds[fd].q.alloc)
  {
    assert fd >= 0 && k.IsDevice(fd);
    hide Ready, View, Takes, Order;
    if CanDequeue(k.fds[fd].q) {
      DequeueTakes(k.fds, fd, buffers);
    }
    ok, index, bytesused := k.DequeueBuffer(fd);
  }

  lemma DequeueTakes(fds: map<int, File>, fd: int, buffers: seq<BufInfo>)
    requires Ready(fds, fd, buffers) && CanDequeue(fds[fd].q)
    ensures var q := fds[fd].q;
            var fds' := fds[fd := Device(Dequeue(q))];
            && Ready(fds', fd, buffers) && q.done[0] < |buffers|
            && Takes(View(fds, fd, buffers), q.done[0], View(fds', fd, buffers))
  {
    var q := fds[fd].q;
    assert Order(Dequeue(q)) == Order(q)[1..];
    assert forall i :: i in Order(Dequeue(q)) ==> i in Order(q);
    assert Order(q)[0] in Order(q);
  }

  lemma QueueReturns(fds: map<int, File>, fd: int, buffers: seq<BufInfo>, i: u32)
    requires Ready(fds, fd, buffers) && CanQueue(fds[fd].q, i) && i < |buffers|
    ensures i in fds[fd].q.bound && fds[buffers[i].dmabufFd] == DmaBuf(fds[fd].q.bound[i])
    ensures var fds' := fds[fd := Device(Queue(fds[fd].q, i, fds[fd].q.bound[i]))];
            && Ready(fds', fd, buffers)
            && Returns(View(fds, fd, buffers), i, View(fds', fd, buffers))
  {
    var q := fds[fd].q;
    OrderIsQueued(q, i);
    assert Order(Queue(q, i, q.bound[i])) == Order(q) + [i];
    assert q.bound[i := q.bound[i]] == q.bound;
  }

  /** Every buffer of a valid pool is among those closed. */
  lemma {:induction false} PresentAll(buffers: seq<BufInfo>)
    requires forall i :: 0 <= i < |buffers| ==> buffers[i].dmabufFd >= 0
    ensures |Present(buffers)| == |buffers|
  {
    if buffers != [] {
      PresentAll(buffers[..|buffers| - 1]);
    }
  }

  lemma ReadyIsPresent(fds: map<int, File>, fd: int, buffers: seq<BufInfo>)
    requires Ready(fds, fd, buffers)
    ensures |Present(buffers)| == |View(fds, fd, buffers).objs|
  {
    forall i | 0 <= i < |buffers|
      ensures buffers[i].dmabufFd >= 0
    {
      var j: u32 := i;
      assert buffers[j].dmabufFd >= 0;
    }
    PresentAll(buffers);
  }

  /** Noting the bytes used touches neither descriptors nor memory. */
  lemma NoteBytesUsed(fds: map<int, File>, fd: int, buffers: seq<BufInfo>, i: u32, n: u32)
    requires Ready(fds, fd, buffers) && i < |buffers|
    ensures var noted := buffers[i := buffers[i].(bytesused := n)];
            && Ready(fds, fd, noted) && View(fds, fd, noted) == View(fds, fd, buffers)
            && BufFds(noted) == BufFds(buffers) && Present(noted) == Present(buffers)
  {
    BufFdsUpdate(buffers, i, buffers[i].(bytesused := n));
    PresentUpdate(buffers, i, buffers[i].(bytesused := n));
  }

  lemma OwnedInTable(fds: map<int, File>, fd: int, buffers: seq<BufInfo>)
    requires Owns(fds, fd, buffers)
    ensures Owned(fd, buffers) <= fds.Keys && fd !in BufFds(buffers)
  {
  }

  /** Closes the descriptors of all buffers, each once, in index order. */
  method CloseBuffers(k: Kernel, fd: int, buffers: seq<BufInfo>)
    requires k.Valid() && Owns(k.fds, fd, buffers)
    modifies k`fds, k`history
    ensures k.Valid() && k.fds == old(k.fds) - BufFds(buffers)
    ensures k.history == old(k.history) + Closings(Present(buffers))
  {
    hide BufFds;
    assert BufFds(buffers[..0]) == {} by { NoFds(); }
    var i := 0;
    while i < |buffers|
      invariant i <= |buffers| && k.Valid() && k.fds == old(k.fds) - BufFds(buffers[..i])
      invariant k.history == old(k.history) + Closings(Present(buffers[..i]))
    {
      PrefixFds(buffers, i);
      if buffers[i].dmabufFd >= 0 {
        NotClosedYet(old(k.fds), fd, buffers, i);
        ClosingsAppend(Present(buffers[..i]), buffers[i].dmabufFd);
        k.Close(buffers[i].dmabufFd);
      }
      i := i + 1;
    }
    assert buffers[..i] == buffers;
  }

  /** STREAMOFF if the capture streams; what it returns is ignored. */
  method EndStream(k: Kernel, fd: int, buffers: seq<BufInfo>, streaming: bool) returns (off: bool)
    requires k.Valid() && Owns(k.fds, fd, buffers) && (streaming ==> fd >= 0)
    modifies k`fds, k`faults, k`history
    ensures k.Valid() && Owns(k.fds, fd, buffers) && k.fds.Keys == old(k.fds.Keys) && k.faults >= old(k.faults)
    ensures forall x :: x in k.fds && x != fd ==> k.fds[x] == old(k.fds)[x]
    ensures k.history == old(k.history) + if streaming then [StreamedOff(fd, off)] else []
    ensures fd >= 0 && k.faults == old(k.faults) && streaming == old(k.fds[fd].q.streaming) ==> !k.fds[fd].q.streaming
  {
    off := true;
    if streaming {
      off := k.StreamOff(fd);
    }
  }

  lemma NoFds()
    ensures BufFds([]) == {}
  {
  }

  lemma PrefixFds(buffers: seq<BufInfo>, i: nat)
    requires i < |buffers|
    ensures BufFds(buffers[..i + 1])
            == BufFds(buffers[..i]) + (if buffers[i].dmabufFd >= 0 then {buffers[i].dmabufFd} else {})
    ensures Present(buffers[..i + 1])
            == Present(buffers[..i]) + (if buffers[i].dmabufFd >= 0 then [buffers[i].dmabufFd] else [])
  {
    var prefix := buffers[..i + 1];
    assert prefix[..i] == buffers[..i] && prefix == buffers[..i] + [buffers[i]];
    assert forall b :: b in prefix <==> b in buffers[..i] || b == buffers[i];
  }

  lemma NotClosedYet(fds: map<int, File>, fd: int, buffers: seq<BufInfo>, i: nat)
    requires i < |buffers| && Owns(fds, fd, buffers) && buffers[i].dmabufFd >= 0
    ensures buffers[i].dmabufFd in fds - BufFds(buffers[..i])
  {
  }

  /** A descriptor for something else does not matter to a pool. */
  lemma OtherOpened(fds: map<int, File>, fd: int, buffers: seq<BufInfo>, x: int, f: File)
    requires x !in fds
    ensures Owns(fds, fd, buffers) ==> Owns(fds[x := f], fd, buffers)
    ensures Ready(fds, fd, buffers) ==>
              Ready(fds[x := f], fd, buffers) && View(fds[x := f], fd, buffers) == View(fds, fd, buffers)
  {
  }

  lemma OtherClosed(fds: map<int, File>, fd: int, buffers: seq<BufInfo>, x: int)
    requires Owns(fds, fd, buffers) && x !in Owned(fd, buffers)
    ensures Owns(fds - {x}, fd, buffers)
  {
  }
}
