/** V4l2CaptureDma of the Rust library: the caller brings the memory, allocated from a DMA heap. */
module CaptureDma {
  import opened Wire
  import opened Driver
  import opened Kernel
  import opened Pool

  /** `after` is `before` without some descriptors and, maybe, with a changed device. */
  predicate Shrinks(before: map<int, File>, after: map<int, File>, device: int, gone: set<int>) {
    && after.Keys == before.Keys - gone
    && (forall fd :: fd in after && fd != device ==> after[fd] == before[fd])
  }

  lemma ShrinksTwice(a: map<int, File>, b: map<int, File>, c: map<int, File>, device: int,
                     first: set<int>, second: set<int>)
    requires Shrinks(a, b, device, first) && Shrinks(b, c, device, second)
    ensures Shrinks(a, c, device, first + second)
  {
  }

  lemma HeapClosed(before: map<int, File>, now: map<int, File>, heap: int, mine: set<int>)
    requires heap !in before && heap !in mine && before[heap := Heap] == now - mine
    ensures (now - {heap}) - mine == before
  {
    var m, l := now - mine, (now - {heap}) - mine;
    assert forall x :: x in m <==> x in before || x == heap;
    assert forall x :: x in l <==> x in m && x != heap;
    assert forall x :: x in before ==> l[x] == m[x] == before[x];
  }

  /** `now` is `start` with the new descriptors, for the memory objects from `base` on. */
  predicate New(start: map<int, File>, now: map<int, File>, dmas: seq<int>, base: Obj) {
    && OwnsAll(now, dmas) && SetOf(dmas) !! start.Keys && start == now - SetOf(dmas)
    && (forall j :: 0 <= j < |dmas| ==> now[dmas[j]].obj == base + j)
  }

  lemma NothingNew(start: map<int, File>, base: Obj)
    ensures New(start, start, [], base)
  {
  }

  lemma OneMore(start: map<int, File>, had: map<int, File>, dmas: seq<int>, base: Obj, dmabuf: int)
    requires New(start, had, dmas, base) && dmabuf >= 0 && dmabuf !in had
    ensures New(start, had[dmabuf := DmaBuf(base + |dmas|)], dmas + [dmabuf], base)
  {
    assert SetOf(dmas + [dmabuf]) == SetOf(dmas) + {dmabuf};
    SameTable(had[dmabuf := DmaBuf(base + |dmas|)] - SetOf(dmas + [dmabuf]), start);
  }

  lemma NewIsOwned(before: map<int, File>, start: map<int, File>, now: map<int, File>, heap: int, dmas: seq<int>,
                   base: Obj)
    requires heap !in before && start == before[heap := Heap] && New(start, now, dmas, base)
    ensures heap in now && OwnsAll(now - {heap}, dmas) && Distinct(ObjsOf(now - {heap}, dmas))
    ensures SetOf(dmas) !! before.Keys && before == (now - {heap}) - SetOf(dmas)
  {
    assert heap in now - SetOf(dmas) && heap !in SetOf(dmas);
    HeapClosed(before, now, heap, SetOf(dmas));
  }

  lemma NothingAllocated(history: seq<Act>, size: u32)
    ensures history + Allocations([], size) == history
    ensures history + Allocations([], size) + Closings([]) == history
  {
  }

  lemma AllocationsAppend(dmas: seq<int>, dmabuf: int, size: u32)
    ensures Allocations(dmas + [dmabuf], size) == Allocations(dmas, size) + [Allocated(dmabuf, size)]
  {
  }

  /** alloc_dma_heap: `count` new buffers of `size` bytes, or an error and the table as it was. */
  method AllocDmaHeap(k: Kernel, size: u32, count: u32)
    returns (ok: bool, dmas: seq<int>, ghost made: seq<int>, ghost closed: seq<int>)
    requires k.Valid()
    modifies k
    ensures k.Valid()
    ensures !ok ==> k.fds == old(k.fds) && dmas == [] && k.faults > old(k.faults)
    ensures k.faults >= old(k.faults)
    ensures k.history == old(k.history) + Allocations(made, size) + Closings(closed)
    ensures ok ==> |closed| == 1 && made == dmas
    ensures ok ==>
              && |dmas| == count && OwnsAll(k.fds, dmas) && Distinct(ObjsOf(k.fds, dmas))
              && SetOf(dmas) !! old(k.fds).Keys && old(k.fds) == k.fds - SetOf(dmas)
  {
    hide New, OwnsAll, ObjsOf, SetOf, Allocations, Closings;
    dmas, made, closed := [], [], [];
    NothingAllocated(k.history, size);
    var heap := k.Open(Heap);
    if heap < 0 {
      ok := false;
      return;
    }
    ghost var start, base := k.fds, k.nextObj;
    NothingNew(start, base);
    var i := 0;
    while i < count
      invariant i <= count && |dmas| == i && k.Valid() && k.nextObj == base + i && k.faults == old(k.faults)
      invariant heap in k.fds && k.fds[heap] == Heap && heap !in old(k.fds)
      invariant New(start, k.fds, dmas, base) && k.history == old(k.history) + Allocations(dmas, size)
    {
      ghost var had := k.fds;
      var dmabuf := k.AllocateDmaBuf(heap, size);
      if dmabuf < 0 {
        closed := GiveUp(k, heap, dmas, old(k.fds), start, base);
        ok, made, dmas := false, dmas, [];
        return;
      }
      OneMore(start, had, dmas, base, dmabuf);
      AllocationsAppend(dmas, dmabuf, size);
      dmas := dmas + [dmabuf];
      i := i + 1;
    }
    NewIsOwned(old(k.fds), start, k.fds, heap, dmas, base);
    k.Close(heap);
    made, closed := dmas, [heap];
    JustOneClosing(heap);
    ok := true;
  }

  /** The heap and what came from it are closed. */
  method GiveUp(k: Kernel, heap: int, dmas: seq<int>, ghost before: map<int, File>, ghost start: map<int, File>,
                ghost base: Obj)
    returns (ghost closed: seq<int>)
    requires k.Valid() && heap !in before && start == before[heap := Heap] && New(start, k.fds, dmas, base)
    modifies k`fds, k`history
    ensures k.Valid() && k.fds == before && k.history == old(k.history) + Closings(closed)
  {
    hide New, OwnsAll, SetOf, Closings;
    NewIsOwned(before, start, k.fds, heap, dmas, base);
    k.Close(heap);
    CloseAll(k, dmas);
    closed := [heap] + dmas;
    JustOneClosing(heap);
    ClosingsThen([heap], dmas);
  }

  class V4l2CaptureDma {
    const k: Kernel
    const format: Format
    var fd: int
    var streaming: bool
    var buffers: seq<BufInfo>

    predicate Holds()
      reads this, k
    {
      k.Valid() && Owns(k.fds, fd, buffers) && (fd < 0 ==> !streaming)
    }

    predicate Valid()
      reads this, k
    {
      k.Valid() && Ready(k.fds, fd, buffers) && streaming == k.fds[fd].q.streaming
    }

    function Contents(): Pool
      requires Valid()
      reads this, k
    {
      View(k.fds, fd, buffers)
    }

    constructor (k: Kernel, fd: int, format: Format)
      ensures this.k == k && this.fd == fd && this.format == format && !streaming && buffers == []
    {
      this.k, this.fd, this.format := k, fd, format;
      streaming, buffers := false, [];
    }

    /** Opens and configures the device; on every failure path the descriptor is closed again. */
    static method Open(k: Kernel, width: u32, height: u32, pixelFormat: u32)
      returns (cap: V4l2CaptureDma?, ghost closed: seq<int>)
      requires k.Valid()
      modifies k
      ensures k.Valid()
      ensures cap == null ==> k.fds == old(k.fds) && k.faults > old(k.faults)
      ensures k.history == old(k.history) + if cap == null then Closings(closed)
                                            else [FormatSet(cap.fd, width, height, pixelFormat, cap.format)]
      ensures cap != null ==> k.capable
      ensures cap != null ==>
                && fresh(cap) && cap.k == k && cap.fd >= 0 && cap.fd !in old(k.fds)
                && k.fds == old(k.fds)[cap.fd := Device(IDLE)]
                && cap.buffers == [] && !cap.streaming && k.faults == old(k.faults)
    {
      cap, closed := null, [];
      var fd := k.Open(Device(IDLE));
      if fd < 0 {
        return;
      }
      var ok, capable := k.QueryCap(fd);
      if !ok || !capable {
        k.Close(fd);
        closed := [fd];
        return;
      }
      var accepted, actual := k.SetFormat(fd, width, height, pixelFormat);
      if !accepted {
        k.Close(fd);
        closed := [fd];
        return;
      }
      cap := new V4l2CaptureDma(k, fd, actual);
    }

    /** Takes over the descriptors, queues one buffer for each and starts, whatever number above 1 the driver
        granted: the pool is as large as the list, not as large as the grant.  On failure the descriptors
        not yet recorded are closed and the others held, for drop to close. */
    method Start(dmas: seq<int>) returns (ok: bool, ghost granted: u32, ghost dropped: seq<int>)
      requires Holds() && fd >= 0 && k.fds[fd] == Device(IDLE) && buffers == [] && !streaming
      requires OwnsAll(k.fds, dmas) && |dmas| < 0x1_0000_0000
      modifies this`streaming, this`buffers, k
      ensures Holds() && k.IsDevice(fd) && BufFds(buffers) <= SetOf(dmas)
      ensures Shrinks(old(k.fds), k.fds, fd, SetOf(dmas) - BufFds(buffers))
      ensures ok ==>
                && Valid() && Started(Contents()) && |buffers| == |dmas| > 0 && BufFds(buffers) == SetOf(dmas)
                && Contents().objs == old(ObjsOf(k.fds, dmas))
      ensures k.faults >= old(k.faults) && (ok ==> granted >= 2 && granted >= |dmas|)
      ensures k.faults == old(k.faults) ==> (ok <==> granted >= 2 && granted >= |dmas|)
      ensures k.history == old(k.history) + [BuffersAsked(fd, false, |dmas|, granted)] + Closings(dropped)
      ensures streaming == ok && (ok ==> dropped == [])
    {
      var available;
      ok, available := Request(|dmas|, dmas);
      granted := available;
      if !ok || available < 2 {
        ok, dropped := false, dmas;
        CloseAll(k, dmas);
        return;
      }
      hide Filling, Owns, Ready, Started, View, OwnsAll, ObjsOf, BufFds, SetOf, Shrinks;
      ghost var requested := k.fds;
      ok, dropped := Fill(dmas, available);
      ShrinksTwice(old(k.fds), requested, k.fds, fd, {}, SetOf(dmas) - BufFds(buffers));
      assert {} + (SetOf(dmas) - BufFds(buffers)) == SetOf(dmas) - BufFds(buffers);
      if !ok {
        return;
      }
      ghost var filled := k.fds;
      ok := Launch(dmas, available);
      ShrinksTwice(old(k.fds), filled, k.fds, fd, SetOf(dmas) - BufFds(buffers), {});
      assert (SetOf(dmas) - BufFds(buffers)) + {} == SetOf(dmas) - BufFds(buffers);
    }

    /** The beginning of Start. */
    method Request(count: u32, ghost dmas: seq<int>) returns (ok: bool, granted: u32)
      requires Holds() && fd >= 0 && k.fds[fd] == Device(IDLE) && buffers == [] && !streaming
      requires OwnsAll(k.fds, dmas)
      modifies k
      ensures Holds() && k.IsDevice(fd) && k.faults >= old(k.faults) && BufFds(buffers) == {}
      ensures k.history == old(k.history) + [BuffersAsked(fd, false, count, granted)]
      ensures OwnsAll(k.fds, dmas) && ObjsOf(k.fds, dmas) == old(ObjsOf(k.fds, dmas))
      ensures Shrinks(old(k.fds), k.fds, fd, {})
      ensures ok ==> Filling(k.fds, fd, buffers, granted, k.fds[fd].q.bound) && k.fds[fd].q.alloc == granted
      ensures ok && count == 0 ==> granted == 0
      ensures !ok ==> k.faults > old(k.faults) && granted == 0
    {
      ok, granted := k.RequestBuffers(fd, count, false);
      if ok {
        NothingRecorded(k.fds, fd, granted, k.fds[fd].q.bound, old(k.fds));
      }
    }

    /** The loop of Start: queue a buffer, then record it; the first refusal drops the rest of the list. */
    method Fill(dmas: seq<int>, granted: u32) returns (ok: bool, ghost dropped: seq<int>)
      requires k.Valid() && OwnsAll(k.fds, dmas) && |dmas| < 0x1_0000_0000
      requires buffers == [] && k.IsDevice(fd) && Filling(k.fds, fd, buffers, granted, k.fds[fd].q.bound)
      modifies this`buffers, k
      ensures k.Valid() && Owns(k.fds, fd, buffers) && k.faults >= old(k.faults)
      ensures k.IsDevice(fd) && k.fds[fd].q.alloc == granted
      ensures k.history == old(k.history) + Closings(dropped) && (ok ==> dropped == [])
      ensures BufFds(buffers) <= SetOf(dmas) && Shrinks(old(k.fds), k.fds, fd, SetOf(dmas) - BufFds(buffers))
      ensures ok ==> granted >= |dmas| == |buffers| && BufFds(buffers) == SetOf(dmas)
      ensures ok ==> Filling(k.fds, fd, buffers, granted, k.fds[fd].q.bound)
      ensures ok ==> OwnsAll(k.fds, dmas) && ObjsOf(k.fds, dmas) == old(ObjsOf(k.fds, dmas))
      ensures ok ==> forall i: u32 :: i < |dmas| ==> buffers[i].dmabufFd == dmas[i]
      ensures !ok ==> k.faults > old(k.faults) || granted < |dmas|
    {
      assert BufFds([]) == SetOf(dmas[..0]) && Owns(k.fds, fd, buffers);
      assert forall j :: 0 <= j < |dmas| ==> k.IsDmaBuf(dmas[j]);
      hide Filling, Owns, BufFds, SetOf, ObjsOf, Shrinks;
      var i: u32 := 0;
      while i < |dmas|
        invariant i <= |dmas| && |buffers| == i && i <= granted
        invariant k.Valid() && k.IsDevice(fd) && Owns(k.fds, fd, buffers)
        invariant Filling(k.fds, fd, buffers, granted, k.fds[fd].q.bound)
        invariant k.fds == old(k.fds)[fd := k.fds[fd]]
        invariant BufFds(buffers) == SetOf(dmas[..i])
        invariant forall j: u32 :: j < i ==> buffers[j].dmabufFd == dmas[j]
        invariant k.faults >= old(k.faults) && k.history == old(k.history)
      {
        RestAndDone(dmas, i);
        ok := Supply(dmas[i], granted);
        if !ok {
          dropped := dmas[i..];
          Abandon(old(k.fds), dmas, i);
          return;
        }
        i := i + 1;
      }
      dropped := [];
      assert dmas[..i] == dmas;
      OnlyTheDeviceChanged(old(k.fds), k.fds, fd, dmas);
      ok := true;
    }

    /** Drops what is left of the list. */
    method Abandon(ghost start: map<int, File>, dmas: seq<int>, i: u32)
      requires i < |dmas| && OwnsAll(start, dmas) && fd in start && start[fd].Device?
      requires k.Valid() && k.IsDevice(fd) && k.fds == start[fd := k.fds[fd]]
      requires Owns(k.fds, fd, buffers) && BufFds(buffers) == SetOf(dmas[..i])
      modifies k`fds, k`history
      ensures k.Valid() && k.IsDevice(fd) && k.fds[fd] == old(k.fds[fd]) && Owns(k.fds, fd, buffers)
      ensures k.history == old(k.history) + Closings(dmas[i..])
      ensures BufFds(buffers) <= SetOf(dmas) && Shrinks(start, k.fds, fd, SetOf(dmas) - BufFds(buffers))
    {
      DropRest(start, k.fds, fd, dmas, i);
      RestAndDone(dmas, i);
      StillOwns(k.fds, fd, buffers, SetOf(dmas[i..]));
      assert fd !in SetOf(dmas[i..]);
      hide Owns, BufFds, Shrinks;
      CloseAll(k, dmas[i..]);
    }

    /** One turn of the loop of Start. */
    method Supply(dma: int, granted: u32) returns (ok: bool)
      requires k.Valid() && k.IsDevice(fd) && k.IsDmaBuf(dma) && dma !in BufFds(buffers) && |buffers| <= granted
      requires Filling(k.fds, fd, buffers, granted, k.fds[fd].q.bound) && |buffers| < 0x1_0000_0000
      modifies this`buffers, k
      ensures k.Valid() && k.IsDevice(fd) && k.fds == old(k.fds)[fd := k.fds[fd]] && k.faults >= old(k.faults)
      ensures Owns(k.fds, fd, buffers) && k.fds[fd].q.alloc == granted && k.history == old(k.history)
      ensures ok ==>
                && old(|buffers|) < granted
                && buffers == old(buffers) + [BufInfo(dma, old(|buffers|), format.sizeImage, 0)]
                && BufFds(buffers) == old(BufFds(buffers)) + {dma}
                && Filling(k.fds, fd, buffers, granted, k.fds[fd].q.bound)
      ensures !ok ==> buffers == old(buffers) && (k.faults > old(k.faults) || granted == |buffers|)
    {
      var b := BufInfo(dma, |buffers|, format.sizeImage, 0);
      if |buffers| < granted {
        QueueSupplied(k.fds, fd, buffers, granted, b);
      }
      ok := k.QueueDmaBuf(fd, |buffers|, dma);
      if ok {
        BufFdsAppend(buffers, b);
        buffers := buffers + [b];
      }
    }

    /** The end of Start. */
    method Launch(ghost dmas: seq<int>, granted: u32) returns (ok: bool)
      requires k.Valid() && OwnsAll(k.fds, dmas) && k.IsDevice(fd) && |buffers| == |dmas| && !streaming
      requires Filling(k.fds, fd, buffers, granted, k.fds[fd].q.bound)
      requires forall i: u32 :: i < |dmas| ==> buffers[i].dmabufFd == dmas[i]
      modifies this`streaming, k
      ensures Holds() && Shrinks(old(k.fds), k.fds, fd, {}) && k.IsDevice(fd) && k.fds[fd].q.alloc == granted
      ensures k.history == old(k.history) && streaming == ok
      ensures ok ==> Valid() && Started(Contents()) && k.faults == old(k.faults)
      ensures ok ==> Contents().objs == old(ObjsOf(k.fds, dmas))
      ensures !ok ==> k.faults > old(k.faults)
    {
      SwitchOn(k.fds, fd, buffers, granted, k.fds[fd].q.bound);
      ok := k.StreamOn(fd);
      if ok {
        streaming := true;
        assert Contents().objs == old(ObjsOf(k.fds, dmas));
      }
    }

    /** Waits for a filled buffer and takes the oldest. */
    method Dequeue() returns (ok: bool, index: u32)
      requires Valid()
      modifies this`buffers, k
      ensures Valid() && k.nextObj == old(k.nextObj) && k.history == old(k.history) && k.faults >= old(k.faults)
      ensures BufFds(buffers) == old(BufFds(buffers)) && Present(buffers) == old(Present(buffers))
      ensures k.fds == old(k.fds)[fd := k.fds[fd]]
      ensures ok ==> index < |buffers| && Takes(old(Contents()), index, Contents())
      ensures ok ==>
                && index < old(|buffers|)
                && buffers == old(buffers)[index := old(buffers)[index].(bytesused := k.used)]
      ensures !ok ==> Contents() == old(Contents()) && buffers == old(buffers)
      ensures !ok && old(Stocked(Contents())) ==> k.faults > old(k.faults)
    {
      hide Ready, View, Takes, Order, BufFds, Present, Owns, Stocked;
      ok, index := false, 0;
      var r := Await(k, fd, buffers);
      if r <= 0 {
        return;
      }
      var bytesused;
      ok, index, bytesused := TakeNext(k, fd, buffers);
      if !ok {
        return;
      }
      NoteBytesUsed(k.fds, fd, buffers, index, bytesused);
      buffers := buffers[index := buffers[index].(bytesused := bytesused)];
    }

    /** Gives a buffer back to the driver, naming its memory again; an index outside the pool panics. */
    method Requeue(index: u32) returns (ok: bool)
      requires Valid() && index < |buffers|
      modifies k
      ensures Valid() && k.nextObj == old(k.nextObj) && k.history == old(k.history) && k.faults >= old(k.faults)
      ensures k.fds == old(k.fds)[fd := k.fds[fd]]
      ensures ok ==> Returns(old(Contents()), index, Contents())
      ensures !ok ==> Contents() == old(Contents())
      ensures index !in old(Contents()).queue && !ok ==> k.faults > old(k.faults)
    {
      assert fd >= 0 && k.IsDevice(fd) && k.IsDmaBuf(buffers[index].dmabufFd);
      OrderIsQueued(k.fds[fd].q, index);
      if index !in Contents().queue {
        assert CanQueue(k.fds[fd].q, index);
        QueueReturns(k.fds, fd, buffers, index);
      }
      hide Ready, View, Returns;
      ok := k.QueueDmaBuf(fd, index, buffers[index].dmabufFd);
    }

    /** Stops streaming, closes every buffer's descriptor and frees the driver's pool, ignoring errors. */
    method Stop() returns (off: bool)
      requires Holds()
      modifies this`streaming, this`buffers, k`fds, k`nextObj, k`faults, k`history
      ensures Holds() && !streaming && buffers == []
      ensures k.faults >= old(k.faults)
      ensures k.history == old(k.history) + Stopping(old(fd), false, old(streaming), off, old(buffers))
      ensures k.fds.Keys == old(k.fds.Keys) - old(BufFds(buffers))
      ensures forall x :: x in k.fds && x != fd ==> k.fds[x] == old(k.fds)[x]
      ensures fd >= 0 && k.faults == old(k.faults) && old(streaming == k.fds[fd].q.streaming) ==>
                k.fds[fd].q == IDLE.(bound := k.fds[fd].q.bound)
    {
      hide BufFds, Closings, Present;
      OwnedInTable(k.fds, fd, buffers);
      off := EndStream(k, fd, buffers, streaming);
      streaming := false;
      CloseBuffers(k, fd, buffers);
      buffers := [];
      if fd >= 0 {
        var _, _ := k.RequestBuffers(fd, 0, false);
      }
    }

    /** Drop: everything the capture owns is closed, and nothing else. */
    method Drop() returns (off: bool)
      requires Holds()
      modifies this`fd, this`streaming, this`buffers, k
      ensures fd < 0 && !streaming && buffers == []
      ensures k.Valid() && k.fds == old(k.fds) - old(Owned(fd, buffers))
      ensures k.faults >= old(k.faults)
      ensures k.history == old(k.history) + Leaving(old(fd), false, old(streaming), off, old(buffers))
    {
      OwnedInTable(k.fds, fd, buffers);
      ghost var before, mine := k.fds, Owned(fd, buffers);
      off := Stop();
      if fd >= 0 {
        k.Close(fd);
        fd := -1;
      }
      SameTable(k.fds, before - mine);
    }
  }

  lemma StillOwns(fds: map<int, File>, fd: int, buffers: seq<BufInfo>, gone: set<int>)
    requires Owns(fds, fd, buffers) && gone !! Owned(fd, buffers)
    ensures Owns(fds - gone, fd, buffers)
  {
  }

  lemma OnlyTheDeviceChanged(before: map<int, File>, now: map<int, File>, device: int, dmas: seq<int>)
    requires OwnsAll(before, dmas) && device in before && before[device].Device?
    requires device in now && now == before[device := now[device]]
    ensures OwnsAll(now, dmas) && ObjsOf(now, dmas) == ObjsOf(before, dmas)
    ensures Shrinks(before, now, device, {})
  {
  }

  lemma DropRest(before: map<int, File>, now: map<int, File>, device: int, dmas: seq<int>, i: nat)
    requires i < |dmas| && OwnsAll(before, dmas) && device in before && before[device].Device?
    requires device in now && now == before[device := now[device]] && now[device].Device?
    ensures OwnsAll(now, dmas[i..])
    ensures SetOf(dmas[..i]) <= SetOf(dmas)
    ensures Shrinks(before, now - SetOf(dmas[i..]), device, SetOf(dmas) - SetOf(dmas[..i]))
  {
  }

  /** Splitting the list at i: what is recorded, and what dropping the rest would close. */
  lemma RestAndDone(dmas: seq<int>, i: nat)
    requires i < |dmas| && Distinct(dmas)
    ensures SetOf(dmas[..i + 1]) == SetOf(dmas[..i]) + {dmas[i]} && dmas[i] !in SetOf(dmas[..i])
    ensures SetOf(dmas[i..]) == SetOf(dmas) - SetOf(dmas[..i])
  {
  }
}
