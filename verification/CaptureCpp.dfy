/** V4l2Capture of the C++ library: the buffer vector is sized first, with -1 for the descriptors still
    missing, and filled in place; a failed open keeps its descriptor for the destructor. */
module CaptureCpp {
  import opened Wire
  import opened Driver
  import opened Kernel
  import opened Pool

  const MISSING := BufInfo(-1, 0, 0, 0)

  /** The first i entries are filled in and the others still as resized. */
  predicate FilledTo(buffers: seq<BufInfo>, i: nat) {
    i <= |buffers| && forall j :: i <= j < |buffers| ==> buffers[j] == MISSING
  }

  /** Entries without a descriptor own nothing: filling in place is appending. */
  lemma MissingOwnNothing(fds: map<int, File>, fd: int, buffers: seq<BufInfo>, i: nat)
    requires FilledTo(buffers, i)
    ensures BufFds(buffers) == BufFds(buffers[..i])
    ensures Owns(fds, fd, buffers[..i]) ==> Owns(fds, fd, buffers)
  {
  }

  /** After the resize nothing is owned. */
  lemma Resized(fds: map<int, File>, fd: int, granted: u32, bound: map<u32, Obj>)
    requires Filling(fds, fd, [], granted, bound)
    ensures var buffers := seq(granted, _ => MISSING);
            && FilledTo(buffers, 0) && buffers[..0] == [] && BufFds(buffers) == {}
            && Owns(fds, fd, buffers) && Extends(fds, fds, fd, {})
  {
  }

  lemma FillNext(buffers: seq<BufInfo>, i: nat, b: BufInfo)
    requires FilledTo(buffers, i) && i < |buffers|
    ensures FilledTo(buffers[i := b], i + 1)
    ensures buffers[i := b][..i + 1] == buffers[..i] + [b]
  {
  }

  class V4l2Capture {
    const k: Kernel
    var format: Format
    var fd: int
    var streaming: bool
    var buffers: seq<BufInfo>

    predicate Holds()
      reads this, k
    {
      k.Valid() && Owns(k.fds, fd, buffers) && (fd < 0 ==> !streaming)
    }

    predicate Valid()
      reads this, k
    {
      k.Valid() && Ready(k.fds, fd, buffers) && streaming == k.fds[fd].q.streaming && |buffers| == k.fds[fd].q.alloc
    }

    function Contents(): Pool
      requires Valid()
      reads this, k
    {
      View(k.fds, fd, buffers)
    }

    constructor (k: Kernel)
      ensures this.k == k && fd == -1 && !streaming && buffers == []
    {
      this.k := k;
      format := Format(0, 0, 0, 0, 0);
      fd, streaming, buffers := -1, false, [];
    }

    /** Opens and configures the device; what was opened stays in the object either way. */
    method Open(width: u32, height: u32, pixelFormat: u32) returns (ok: bool)
      requires Holds() && fd < 0 && buffers == [] && !streaming
      modifies this`fd, this`format, k
      ensures Holds()
      ensures if fd < 0 then k.fds == old(k.fds) else fd !in old(k.fds) && k.fds == old(k.fds)[fd := Device(IDLE)]
      ensures ok ==> fd >= 0 && k.capable
      ensures ok <==> k.faults == old(k.faults)
      ensures k.faults >= old(k.faults)
      ensures k.history == old(k.history) + if ok then [FormatSet(fd, width, height, pixelFormat, format)] else []
    {
      ok := false;
      fd := k.Open(Device(IDLE));
      if fd < 0 {
        return;
      }
      var capable;
      ok, capable := k.QueryCap(fd);
      if !ok || !capable {
        ok := false;
        return;
      }
      var actual;
      ok, actual := k.SetFormat(fd, width, height, pixelFormat);
      if ok {
        format := actual;
      }
    }

    /** As the Rust Start of exported buffers. */
    method Start(count: u32) returns (ok: bool, ghost granted: u32)
      requires Holds() && fd >= 0 && k.fds[fd] == Device(IDLE) && buffers == [] && !streaming
      modifies this`streaming, this`buffers, k
      ensures Holds() && Extends(old(k.fds), k.fds, fd, BufFds(buffers))
      ensures ok ==>
                && Valid() && Started(Contents()) && Distinct(Contents().objs)
                && |Contents().objs| == |buffers| == granted
      ensures ok ==> forall j: u32 :: j < granted ==> buffers[j].length == k.Length(j)
      ensures k.faults >= old(k.faults) && (ok ==> granted >= 2)
      ensures k.faults == old(k.faults) ==> (ok <==> granted >= 2)
      ensures k.history == old(k.history) + [BuffersAsked(fd, true, count, granted)] && streaming == ok
    {
      var available;
      ghost var bound;
      ok, available, bound := Request(count);
      granted := available;
      if !ok {
        return;
      }
      if available < 2 {
        ok := false;
        return;
      }
      hide Filling, Extends, Owns, Ready, BufFds, Started, View, Distinct;
      ghost var requested := k.fds;
      ok := Fill(available, bound);
      ExtendsTwice(old(k.fds), requested, k.fds, fd, {}, BufFds(buffers));
      assert {} + BufFds(buffers) == BufFds(buffers);
      if !ok {
        return;
      }
      ghost var filled := k.fds;
      ok := Launch(available, bound);
      ExtendsTwice(old(k.fds), filled, k.fds, fd, BufFds(buffers), {});
      assert BufFds(buffers) + {} == BufFds(buffers);
    }

    /** The beginning of Start. */
    method Request(count: u32) returns (ok: bool, granted: u32, ghost bound: map<u32, Obj>)
      requires Holds() && fd >= 0 && k.fds[fd] == Device(IDLE) && buffers == [] && !streaming
      modifies k
      ensures Holds() && k.IsDevice(fd) && k.faults >= old(k.faults)
      ensures k.history == old(k.history) + [BuffersAsked(fd, true, count, granted)]
      ensures Extends(old(k.fds), k.fds, fd, {}) && BufFds(buffers) == {}
      ensures ok ==> Filling(k.fds, fd, [], granted, bound) && k.fds[fd].q.alloc == granted
      ensures ok ==> forall i: u32 :: i < granted ==> i in bound
      ensures forall i, j: u32 :: i < j < granted && i in bound && j in bound ==> bound[i] != bound[j]
      ensures !ok ==> k.faults > old(k.faults) && granted == 0
    {
      ok, granted := k.RequestBuffers(fd, count, true);
      if !ok {
        bound := map[];
        return;
      }
      bound := k.fds[fd].q.bound;
      assert forall j: u32 :: j < granted ==> j in bound && bound[j] == NewObj(old(k.nextObj), j);
      NothingRecorded(k.fds, fd, granted, bound, old(k.fds));
    }

    /** The loop of Start. */
    method Fill(granted: u32, ghost bound: map<u32, Obj>) returns (ok: bool)
      requires k.Valid() && Filling(k.fds, fd, [], granted, bound)
      requires forall j: u32 :: j < granted ==> j in bound
      modifies this`buffers, k
      ensures k.Valid() && Owns(k.fds, fd, buffers) && k.faults >= old(k.faults) && k.history == old(k.history)
      ensures Extends(old(k.fds), k.fds, fd, BufFds(buffers))
      ensures ok ==> |buffers| == granted && Filling(k.fds, fd, buffers, granted, bound)
      ensures ok ==> forall j: u32 :: j < granted ==> buffers[j].length == k.Length(j)
      ensures !ok ==> k.faults > old(k.faults)
    {
      Resized(k.fds, fd, granted, bound);
      hide Filling, Extends, Owns, BufFds, FilledTo;
      buffers := seq(granted, _ => MISSING);
      var i: u32 := 0;
      while i < granted
        invariant i <= granted && |buffers| == granted && FilledTo(buffers, i)
        invariant forall j: u32 :: j < i ==> buffers[j].length == k.Length(j)
        invariant k.Valid() && Filling(k.fds, fd, buffers[..i], granted, bound) && Owns(k.fds, fd, buffers)
        invariant Extends(old(k.fds), k.fds, fd, BufFds(buffers))
        invariant k.faults >= old(k.faults) && k.history == old(k.history)
      {
        ghost var before, had := k.fds, BufFds(buffers);
        ok := FillBuffer(i, granted, bound);
        ExtendsTwice(old(k.fds), before, k.fds, fd, had, BufFds(buffers) - had);
        assert had + (BufFds(buffers) - had) == BufFds(buffers);
        if !ok {
          return;
        }
        i := i + 1;
      }
      assert buffers[..i] == buffers;
      ok := true;
    }

    /** One turn of the loop of Start: query, export, fill in and queue buffer i. */
    method FillBuffer(i: u32, granted: u32, ghost bound: map<u32, Obj>) returns (ok: bool)
      requires i < granted == |buffers| && FilledTo(buffers, i) && i in bound
      requires k.Valid() && Filling(k.fds, fd, buffers[..i], granted, bound)
      modifies this`buffers, k
      ensures k.Valid() && Owns(k.fds, fd, buffers) && k.faults >= old(k.faults) && k.history == old(k.history)
      ensures |buffers| == granted && BufFds(buffers) >= old(BufFds(buffers))
      ensures Extends(old(k.fds), k.fds, fd, BufFds(buffers) - old(BufFds(buffers)))
      ensures ok ==> buffers == old(buffers)[i := buffers[i]] && buffers[i].length == k.Length(i)
      ensures ok ==> FilledTo(buffers, i + 1) && Filling(k.fds, fd, buffers[..i + 1], granted, bound)
      ensures !ok ==> k.faults > old(k.faults)
    {
      hide Filling, Owns, Extends, CanQueue, Queue, FilledTo, BufFds;
      ghost var had, filled := BufFds(buffers), buffers[..i];
      FillingOwns(k.fds, fd, filled, granted, bound);
      MissingOwnNothing(k.fds, fd, buffers, i);
      NothingAdded(k.fds, fd);
      OwnedInTable(k.fds, fd, buffers);
      assert had - had == {};
      var length;
      ok, length := k.QueryBuffer(fd, i);
      if !ok {
        return;
      }
      var dmabuf := k.ExportBuffer(fd, i);
      if dmabuf < 0 {
        ok := false;
        return;
      }
      var b := BufInfo(dmabuf, i, length, 0);
      RecordBuffer(old(k.fds), fd, filled, granted, bound, b);
      QueueRecorded(old(k.fds), fd, filled, granted, bound, b);
      BufFdsAppend(filled, b);
      FillNext(buffers, i, b);
      buffers := buffers[i := b];
      MissingOwnNothing(k.fds, fd, buffers, i + 1);
      assert BufFds(buffers) - had == {dmabuf};
      ok := k.QueueMmap(fd, i);
      MissingOwnNothing(k.fds, fd, buffers, i + 1);
      if ok {
        assert Owns(k.fds, fd, buffers[..i + 1]) by { FillingOwns(k.fds, fd, buffers[..i + 1], granted, bound); }
      }
    }

    /** The end of Start. */
    method Launch(granted: u32, ghost bound: map<u32, Obj>) returns (ok: bool)
      requires k.Valid() && Filling(k.fds, fd, buffers, granted, bound) && |buffers| == granted && !streaming
      requires forall i, j: u32 :: i < j < granted && i in bound && j in bound ==> bound[i] != bound[j]
      modifies this`streaming, k
      ensures Holds() && Extends(old(k.fds), k.fds, fd, {}) && k.IsDevice(fd) && k.fds[fd].q.alloc == granted
      ensures k.history == old(k.history) && streaming == ok
      ensures ok ==> Valid() && Started(Contents()) && Distinct(Contents().objs) && k.faults == old(k.faults)
      ensures ok ==> |Contents().objs| == |buffers|
      ensures !ok ==> k.faults > old(k.faults)
    {
      SwitchOn(k.fds, fd, buffers, granted, bound);
      assert fd >= 0 && Extends(k.fds, k.fds, fd, {});
      hide Filling, Owns, Ready, Extends, Started, View;
      ok := k.StreamOn(fd);
      if ok {
        streaming := true;
      }
    }

    /** Waits for a filled buffer and takes the oldest. */
    method Dequeue() returns (ok: bool, index: u32)
      requires Valid()
      modifies this`buffers, k
      ensures Valid() && k.nextObj == old(k.nextObj) && k.history == old(k.history) && k.faults >= old(k.faults)
      ensures BufFds(buffers) == old(BufFds(buffers)) && Present(buffers) == old(Present(buffers))
      ensures k.fds == old(k.fds)[fd := k.fds[fd]]
      ensures ok ==> index < |buffers| && Takes(old(Contents()), index, Contents())
      ensures ok ==>
                && index < old(|buffers|)
                && buffers == old(buffers)[index := old(buffers)[index].(bytesused := k.used)]
      ensures !ok ==> Contents() == old(Contents()) && buffers == old(buffers)
      ensures !ok && old(Stocked(Contents())) ==> k.faults > old(k.faults)
    {
      hide Ready, View, Takes, Order, BufFds, Present, Owns, Stocked;
      ok, index := false, 0;
      var r := Await(k, fd, buffers);
      if r <= 0 {
        return;
      }
      var bytesused;
      ok, index, bytesused := TakeNext(k, fd, buffers);
      if !ok {
        return;
      }
      NoteBytesUsed(k.fds, fd, buffers, index, bytesused);
      buffers := buffers[index := buffers[index].(bytesused := bytesused)];
    }

    /** Gives a buffer back to the driver, which refuses one that it has or never had. */
    method Requeue(index: u32) returns (ok: bool)
      requires Valid()
      modifies k
      ensures Valid() && k.nextObj == old(k.nextObj) && k.history == old(k.history) && k.faults >= old(k.faults)
      ensures k.fds == old(k.fds)[fd := k.fds[fd]]
      ensures ok ==> index < |buffers| && Returns(old(Contents()), index, Contents())
      ensures !ok ==> Contents() == old(Contents())
      ensures index < |buffers| && index !in old(Contents()).queue && !ok ==> k.faults > old(k.faults)
    {
      assert fd >= 0 && k.IsDevice(fd);
      OrderIsQueued(k.fds[fd].q, index);
      if index < |buffers| && index !in Contents().queue {
        assert CanQueue(k.fds[fd].q, index);
        QueueReturns(k.fds, fd, buffers, index);
      }
      hide Ready, View, Returns;
      ok := k.QueueMmap(fd, index);
    }

    /** Stops streaming, closes the descriptors present and frees the driver's pool, ignoring errors.
        A second call finds nothing to close. */
    method Stop() returns (off: bool)
      requires Holds()
      modifies this`streaming, this`buffers, k`fds, k`nextObj, k`faults, k`history
      ensures Holds() && !streaming && buffers == []
      ensures k.faults >= old(k.faults)
      ensures k.history == old(k.history) + Stopping(old(fd), true, old(streaming), off, old(buffers))
      ensures k.fds.Keys == old(k.fds.Keys) - old(BufFds(buffers))
      ensures forall x :: x in k.fds && x != fd ==> k.fds[x] == old(k.fds)[x]
      ensures fd >= 0 && k.faults == old(k.faults) && old(streaming == k.fds[fd].q.streaming) ==>
                k.fds[fd].q == IDLE.(bound := k.fds[fd].q.bound)
    {
      hide BufFds, Closings, Present;
      OwnedInTable(k.fds, fd, buffers);
      off := EndStream(k, fd, buffers, streaming);
      streaming := false;
      CloseBuffers(k, fd, buffers);
      buffers := [];
      if fd >= 0 {
        var _, _ := k.RequestBuffers(fd, 0, true);
      }
    }

    /** The destructor: everything the object opened is closed, and nothing else. */
    method Destroy() returns (off: bool)
      requires Holds()
      modifies this`fd, this`streaming, this`buffers, k
      ensures !streaming && buffers == []
      ensures k.Valid() && k.fds == old(k.fds) - old(Owned(fd, buffers))
      ensures k.faults >= old(k.faults)
      ensures k.history == old(k.history) + Leaving(old(fd), true, old(streaming), off, old(buffers))
    {
      OwnedInTable(k.fds, fd, buffers);
      ghost var before, mine := k.fds, Owned(fd, buffers);
      off := Stop();
      if fd >= 0 {
        k.Close(fd);
      }
      SameTable(k.fds, before - mine);
    }
  }
}
