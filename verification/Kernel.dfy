/**
 The operating system as the programs see it: a table of open descriptors, one capture device behind each
 device descriptor, and calls that may fail at any time.  `faults` counts the failures that the caller did
 nothing to cause.
 */
module Kernel {
  import opened Wire
  import opened Driver

  datatype File =
    | Device(q: Driver)
    | Heap
    | Stream
    | DmaBuf(obj: Obj)

  /** A format as negotiated by S_FMT. */
  datatype Format = Format(width: u32, height: u32, stride: u32, sizeImage: u32, pixelFormat: u32)

  /** Descriptor numbers are C ints. */
  const FD_LIMIT: int := 0x8000_0000

  /** What a process did to its resources, for the order in which it did it and with which arguments. */
  datatype Act =
    | FormatSet(fd: int, width: u32, height: u32, pixelFormat: u32, actual: Format)
    | BuffersAsked(fd: int, mmap: bool, count: u32, granted: u32)   // none granted by a call that fails
    | Allocated(dmabuf: int, size: u32)
    | StreamedOff(fd: int, ok: bool)
    | Closed(fd: int)
    | ImageMade(fd: int)
    | ImageGone(fd: int)

  function Closings(fds: seq<int>): (acts: seq<Act>)
    ensures |acts| == |fds|
  {
    seq(|fds|, i requires 0 <= i < |fds| => Closed(fds[i]))
  }

  /** The descriptors allocated from a heap, each for `size` bytes. */
  function Allocations(dmas: seq<int>, size: u32): (acts: seq<Act>)
    ensures |acts| == |dmas|
  {
    seq(|dmas|, i requires 0 <= i < |dmas| => Allocated(dmas[i], size))
  }

  lemma ClosingsThen(first: seq<int>, second: seq<int>)
    ensures Closings(first + second) == Closings(first) + Closings(second)
  {
  }

  lemma JustOneClosing(fd: int)
    ensures Closings([fd]) == [Closed(fd)]
  {
  }

  lemma ClosingsAppend(fds: seq<int>, fd: int)
    ensures Closings(fds + [fd]) == Closings(fds) + [Closed(fd)]
  {
  }

  /** The i-th of the memory objects made from `base` on. */
  function NewObj(base: Obj, i: u32): Obj {
    base + i
  }

  class Kernel {
    const capable: bool              // whether the device can capture and stream
    const lengths: map<u32, u32>     // the sizes of its buffers
    var used: u32                    // how much of the buffer last dequeued is filled
    var fds: map<int, File>
    var nextObj: Obj
    var faults: nat
    var history: seq<Act>

    /** Descriptors are small non-negative numbers and memory objects older than the next one to be made. */
    predicate Valid()
      reads this
    {
      && (forall fd :: fd in fds ==> 0 <= fd < FD_LIMIT)
      && (forall fd :: fd in fds && fds[fd].DmaBuf? ==> fds[fd].obj < nextObj)
      && (forall fd, i :: fd in fds && fds[fd].Device? && i in fds[fd].q.bound ==> fds[fd].q.bound[i] < nextObj)
    }

    predicate IsDevice(fd: int)
      reads this
    {
      fd in fds && fds[fd].Device?
    }

    predicate IsDmaBuf(fd: int)
      reads this
    {
      fd in fds && fds[fd].DmaBuf?
    }

    method Fault()
      modifies this`faults
      ensures faults == old(faults) + 1
    {
      faults := faults + 1;
    }

    /** open, socket, accept: a new descriptor for a new file. */
    method Open(file: File) returns (fd: int)
      requires Valid() && (file == Heap || file == Stream || file == Device(IDLE))
      modifies this`fds, this`nextObj, this`faults
      ensures Valid() && nextObj == old(nextObj)
      ensures fd < 0 ==> fds == old(fds) && faults > old(faults)
      ensures fd >= 0 ==> fd !in old(fds) && fds == old(fds)[fd := file] && faults == old(faults)
    {
      fd := *;
      if fd < 0 || fd >= FD_LIMIT || fd in fds {
        fd := -1;
        Fault();
      } else {
        fds := fds[fd := file];
      }
    }

    /** close releases the descriptor, whatever it returns. */
    method Close(fd: int)
      requires Valid() && fd in fds
      modifies this`fds, this`history
      ensures Valid() && fds == old(fds) - {fd} && history == old(history) + [Closed(fd)]
    {
      history := history + [Closed(fd)];
      fds := fds - {fd};
    }

    /** QUERYCAP: whether the call succeeds and whether the device can capture and stream. */
    method QueryCap(fd: int) returns (ok: bool, capable: bool)
      requires IsDevice(fd)
      modifies this`faults
      ensures if ok && capable then faults == old(faults) else faults > old(faults)
      ensures ok ==> capable == this.capable
    {
      ok, capable := *, this.capable;
      if !ok || !capable {
        Fault();
      }
    }

    /** S_FMT: what was asked for and what the device made of it. */
    method SetFormat(fd: int, width: u32, height: u32, pixelFormat: u32) returns (ok: bool, actual: Format)
      requires IsDevice(fd)
      modifies this`faults, this`history
      ensures if ok then faults == old(faults) else faults > old(faults)
      ensures history == old(history) + if ok then [FormatSet(fd, width, height, pixelFormat, actual)] else []
    {
      ok, actual := *, *;
      if !ok {
        Fault();
      } else {
        history := history + [FormatSet(fd, width, height, pixelFormat, actual)];
      }
    }

    /** REQBUFS: frees the pool and makes a new one of a size the driver chooses; none if none is asked for. */
    method RequestBuffers(fd: int, count: u32, mmap: bool) returns (ok: bool, granted: u32)
      requires Valid() && IsDevice(fd)
      modifies this`fds, this`nextObj, this`faults, this`history
      ensures Valid() && faults >= old(faults) && nextObj >= old(nextObj)
      ensures history == old(history) + [BuffersAsked(fd, mmap, count, granted)]
      ensures ok ==> IsDevice(fd) && fds == old(fds)[fd := fds[fd]]
      ensures ok ==> var q := fds[fd].q;
                     && q == Driver(granted, q.bound, [], [], false)
                     && (count == 0 ==> granted == 0)
                     && (if mmap
                         then forall i: u32 :: i < granted ==> i in q.bound && q.bound[i] == NewObj(old(nextObj), i)
                         else q.bound == map[])
      ensures !ok ==> fds == old(fds) && nextObj == old(nextObj) && granted == 0
      ensures !ok ==> old(fds[fd].q.streaming) || faults > old(faults)
    {
      ok, granted := *, *;
      if fds[fd].q.streaming {
        ok, granted := false, 0;
      } else if !ok {
        granted := 0;
        Fault();
      } else {
        if count == 0 {
          granted := 0;
        }
        var bound: map<u32, Obj> := map[];
        if mmap {
          bound := map i: u32 | i < granted :: NewObj(nextObj, i);
          nextObj := nextObj + granted;
        }
        fds := fds[fd := Device(Driver(granted, bound, [], [], false))];
      }
      history := history + [BuffersAsked(fd, mmap, count, granted)];
    }

    function Length(i: u32): u32 {
      if i in lengths then lengths[i] else 0
    }

    method QueryBuffer(fd: int, i: u32) returns (ok: bool, length: u32)
      requires IsDevice(fd)
      modifies this`faults
      ensures faults >= old(faults) && length == Length(i)
      ensures !ok && i < fds[fd].q.alloc ==> faults > old(faults)
    {
      ok, length := *, Length(i);
      if i >= fds[fd].q.alloc {
        ok := false;
      } else if !ok {
        Fault();
      }
    }

    /** EXPBUF: a new descriptor for the memory behind a buffer of the driver's own. */
    method ExportBuffer(fd: int, i: u32) returns (dmabuf: int)
      requires Valid() && IsDevice(fd)
      modifies this`fds, this`nextObj, this`faults
      ensures Valid() && nextObj == old(nextObj) && faults >= old(faults)
      ensures dmabuf < 0 ==> fds == old(fds)
      ensures dmabuf < 0 ==> i !in old(fds[fd].q.bound) || faults > old(faults)
      ensures dmabuf >= 0 ==>
                && i in old(fds[fd].q.bound) && dmabuf !in old(fds)
                && fds == old(fds)[dmabuf := DmaBuf(old(fds[fd].q.bound)[i])]
    {
      dmabuf := *;
      if i !in fds[fd].q.bound {
        dmabuf := -1;
      } else if dmabuf < 0 || dmabuf >= FD_LIMIT || dmabuf in fds {
        dmabuf := -1;
        Fault();
      } else {
        fds := fds[dmabuf := DmaBuf(fds[fd].q.bound[i])];
      }
    }

    /** QBUF with the driver's own memory. */
    method QueueMmap(fd: int, i: u32) returns (ok: bool)
      requires Valid() && IsDevice(fd)
      modifies this`fds, this`nextObj, this`faults
      ensures Valid() && nextObj == old(nextObj) && faults >= old(faults)
      ensures ok ==> CanQueue(old(fds[fd].q), i) && i in old(fds[fd].q.bound)
      ensures ok ==> fds == old(fds)[fd := Device(Queue(old(fds[fd].q), i, old(fds[fd].q.bound)[i]))]
      ensures !ok ==> fds == old(fds)
      ensures !ok && CanQueue(old(fds[fd].q), i) && i in old(fds[fd].q.bound) ==> faults > old(faults)
    {
      ok := *;
      var q := fds[fd].q;
      if !CanQueue(q, i) || i !in q.bound {
        ok := false;
      } else if !ok {
        Fault();
      } else {
        fds := fds[fd := Device(Queue(q, i, q.bound[i]))];
      }
    }

    /** QBUF with memory that the caller names by descriptor. */
    method QueueDmaBuf(fd: int, i: u32, dmabuf: int) returns (ok: bool)
      requires Valid() && IsDevice(fd) && IsDmaBuf(dmabuf)
      modifies this`fds, this`nextObj, this`faults
      ensures Valid() && nextObj == old(nextObj) && faults >= old(faults)
      ensures ok ==> CanQueue(old(fds[fd].q), i)
      ensures ok ==> fds == old(fds)[fd := Device(Queue(old(fds[fd].q), i, old(fds[dmabuf].obj)))]
      ensures !ok ==> fds == old(fds)
      ensures !ok && CanQueue(old(fds[fd].q), i) ==> faults > old(faults)
    {
      ok := *;
      var q := fds[fd].q;
      if !CanQueue(q, i) {
        ok := false;
      } else if !ok {
        Fault();
      } else {
        fds := fds[fd := Device(Queue(q, i, fds[dmabuf].obj))];
      }
    }

    method StreamOn(fd: int) returns (ok: bool)
      requires Valid() && IsDevice(fd)
      modifies this`fds, this`nextObj, this`faults
      ensures Valid() && nextObj == old(nextObj)
      ensures ok ==> fds == old(fds)[fd := Device(old(fds[fd].q).(streaming := true))] && faults == old(faults)
      ensures !ok ==> fds == old(fds) && faults > old(faults)
    {
      ok := *;
      if !ok {
        Fault();
      } else {
        fds := fds[fd := Device(fds[fd].q.(streaming := true))];
      }
    }

    method StreamOff(fd: int) returns (ok: bool)
      requires Valid() && IsDevice(fd)
      modifies this`fds, this`faults, this`history
      ensures Valid() && history == old(history) + [StreamedOff(fd, ok)]
      ensures ok ==> fds == old(fds)[fd := Device(SwitchOff(old(fds[fd].q)))] && faults == old(faults)
      ensures !ok ==> fds == old(fds) && faults > old(faults)
    {
      ok := *;
      history := history + [StreamedOff(fd, ok)];
      if !ok {
        Fault();
      } else {
        fds := fds[fd := Device(SwitchOff(fds[fd].q))];
      }
    }

    /** select with a time limit: meanwhile the device fills any number of buffers.  A stream with buffers to fill
        that has none ready in time counts as a failure. */
    method Select(fd: int) returns (r: int)
      requires Valid() && IsDevice(fd)
      modifies this`fds, this`faults
      ensures Valid() && IsDevice(fd) && faults >= old(faults)
      ensures faults == old(faults) && fds[fd].q.streaming && Order(fds[fd].q) != [] ==> r > 0 && fds[fd].q.done != []
      ensures var q := old(fds[fd].q);
              var q' := fds[fd].q;
              fds == old(fds)[fd := Device(q.(done := q'.done, incoming := q'.incoming))] && Order(q') == Order(q)
    {
      var n: nat := *;
      while n > 0
        invariant Valid() && IsDevice(fd) && faults == old(faults)
        invariant var q := old(fds[fd].q);
                  var q' := fds[fd].q;
                  fds == old(fds)[fd := Device(q.(done := q'.done, incoming := q'.incoming))] && Order(q') == Order(q)
      {
        var q := fds[fd].q;
        if q.streaming && q.incoming != [] {
          CompleteKeepsOrder(q);
          fds := fds[fd := Device(Complete(q))];
        }
        n := n - 1;
      }
      r := *;
      var q := fds[fd].q;
      if q.streaming && Order(q) != [] && (r <= 0 || q.done == []) {
        Fault();
      }
    }

    method DequeueBuffer(fd: int) returns (ok: bool, i: u32, bytesused: u32)
      requires Valid() && IsDevice(fd)
      modifies this`fds, this`nextObj, this`faults, this`used
      ensures Valid() && nextObj == old(nextObj) && faults >= old(faults) && (ok ==> bytesused == used)
      ensures ok ==> CanDequeue(old(fds[fd].q)) && i == old(fds[fd].q).done[0]
      ensures ok ==> fds == old(fds)[fd := Device(Dequeue(old(fds[fd].q)))]
      ensures !ok ==> fds == old(fds)
      ensures !ok && CanDequeue(old(fds[fd].q)) ==> faults > old(faults)
    {
      ok, i, bytesused := *, *, *;
      used := bytesused;
      var q := fds[fd].q;
      if !CanDequeue(q) {
        ok := false;
      } else if !ok {
        Fault();
      } else {
        i := q.done[0];
        fds := fds[fd := Device(Dequeue(q))];
      }
    }

    /** DMA_HEAP_IOCTL_ALLOC: a new descriptor for new memory. */
    method AllocateDmaBuf(heap: int, size: u32) returns (dmabuf: int)
      requires Valid() && heap in fds && fds[heap] == Heap
      modifies this`fds, this`nextObj, this`faults, this`history
      ensures Valid() && history == old(history) + if dmabuf < 0 then [] else [Allocated(dmabuf, size)]
      ensures dmabuf < 0 ==> fds == old(fds) && nextObj == old(nextObj) && faults > old(faults)
      ensures dmabuf >= 0 ==>
                && dmabuf !in old(fds) && fds == old(fds)[dmabuf := DmaBuf(old(nextObj))]
                && nextObj == old(nextObj) + 1 && faults == old(faults)
    {
      dmabuf := *;
      if dmabuf < 0 || dmabuf >= FD_LIMIT || dmabuf in fds {
        dmabuf := -1;
        Fault();
      } else {
        fds := fds[dmabuf := DmaBuf(nextObj)];
        nextObj := nextObj + 1;
        history := history + [Allocated(dmabuf, size)];
      }
    }

    /** SCM_RIGHTS on the receiving side: a new descriptor for each object, in order, until there are no more. */
    method Install(rights: seq<Obj>) returns (news: seq<u32>)
      requires Valid() && forall o :: o in rights ==> o < nextObj
      modifies this`fds, this`faults
      ensures Valid() && Installed(old(fds), fds, news, rights)
      ensures if |news| < |rights| then faults > old(faults) else faults == old(faults)
    {
      news := [];
      while |news| < |rights|
        invariant Valid() && Installed(old(fds), fds, news, rights) && faults == old(faults)
      {
        var fd: int := *;
        if fd < 0 || fd >= FD_LIMIT || fd in fds {
          Fault();
          return;
        }
        assert rights[|news|] in rights;
        InstallOne(old(fds), fds, news, rights, fd);
        fds := fds[fd := DmaBuf(rights[|news|])];
        news := news + [fd];
      }
    }
  }

  // ---- lists of owned descriptors ----

  function SetOf(dmas: seq<int>): set<int> {
    set x | x in dmas
  }

  /** A vector of owned DMA-BUF descriptors. */
  predicate OwnsAll(fds: map<int, File>, dmas: seq<int>) {
    && Distinct(dmas)
    && (forall i :: 0 <= i < |dmas| ==> dmas[i] >= 0 && dmas[i] in fds && fds[dmas[i]].DmaBuf?)
  }

  function ObjsOf(fds: map<int, File>, dmas: seq<int>): seq<Obj>
    requires OwnsAll(fds, dmas)
  {
    seq(|dmas|, i requires 0 <= i < |dmas| => fds[dmas[i]].obj)
  }

  /** Dropping a vector of owned descriptors closes each of them, in order. */
  method CloseAll(k: Kernel, dmas: seq<int>)
    requires k.Valid() && OwnsAll(k.fds, dmas)
    modifies k`fds, k`history
    ensures k.Valid() && k.fds == old(k.fds) - SetOf(dmas)
    ensures k.history == old(k.history) + Closings(dmas)
  {
    var i := 0;
    while i < |dmas|
      invariant i <= |dmas| && k.Valid() && k.fds == old(k.fds) - SetOf(dmas[..i])
      invariant k.history == old(k.history) + Closings(dmas[..i])
    {
      assert dmas[..i + 1] == dmas[..i] + [dmas[i]];
      assert SetOf(dmas[..i + 1]) == SetOf(dmas[..i]) + {dmas[i]};
      assert dmas[i] !in SetOf(dmas[..i]);
      ClosingsAppend(dmas[..i], dmas[i]);
      k.Close(dmas[i]);
      i := i + 1;
    }
    assert dmas[..i] == dmas;
  }

  /** `news` are new descriptors for the first of the objects; the others of the table are as they were. */
  predicate Installed(before: map<int, File>, after: map<int, File>, news: seq<u32>, rights: seq<Obj>) {
    && |news| <= |rights| && Distinct(news)
    && after.Keys == before.Keys + SetOf(news) && SetOf(news) !! before.Keys
    && (forall i :: 0 <= i < |news| ==> news[i] in after && after[news[i]] == DmaBuf(rights[i]))
    && (forall x :: x in before ==> after[x] == before[x])
  }

  lemma InstallOne(before: map<int, File>, now: map<int, File>, news: seq<u32>, rights: seq<Obj>, fd: u32)
    requires Installed(before, now, news, rights) && |news| < |rights| && fd !in now
    ensures Installed(before, now[fd := DmaBuf(rights[|news|])], news + [fd], rights)
  {
  }
}
