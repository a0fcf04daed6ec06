/** The publisher programs: open and start a capture, serve one subscriber, take everything down. */
module Publisher {
  import opened Wire
  import opened Driver
  import opened Kernel
  import opened Pool
  import opened Protocol
  import CaptureMmap
  import CaptureDma
  import CaptureCpp
  import Cmsg

  datatype Footing =
    Footing(fd: int, owned: set<int>, present: seq<int>, others: map<int, File>, history: seq<Act>)

  lemma WithoutDevice(before: map<int, File>, now: map<int, File>, fd: int)
    requires fd in now && now == before[fd := now[fd]]
    ensures now - {fd} == before - {fd}
  {
  }

  /** The capture of rust/publisher main.rs, of publisher_dma.rs, and of publisher.cpp. */
  datatype Capture =
    | Mmap(m: CaptureMmap.V4l2Capture)
    | Dma(d: CaptureDma.V4l2CaptureDma)
    | Cpp(c: CaptureCpp.V4l2Capture)
  {
    function Object(): object {
      match this
      case Mmap(m) => m
      case Dma(d) => d
      case Cpp(c) => c
    }

    function K(): Kernel {
      match this
      case Mmap(m) => m.k
      case Dma(d) => d.k
      case Cpp(c) => c.k
    }

    function Fd(): int
      reads Object()
    {
      match this
      case Mmap(m) => m.fd
      case Dma(d) => d.fd
      case Cpp(c) => c.fd
    }

    function Buffers(): seq<BufInfo>
      reads Object()
    {
      match this
      case Mmap(m) => m.buffers
      case Dma(d) => d.buffers
      case Cpp(c) => c.buffers
    }

    function Streaming(): bool
      reads Object()
    {
      match this
      case Mmap(m) => m.streaming
      case Dma(d) => d.streaming
      case Cpp(c) => c.streaming
    }

    /** Whether the driver allocates the buffers. */
    predicate IsMmap() {
      !Dma?
    }

    function Negotiated(): Format
      reads Object()
    {
      match this
      case Mmap(m) => m.format
      case Dma(d) => d.format
      case Cpp(c) => c.format
    }

    predicate Valid()
      reads Object(), K()
    {
      match this
      case Mmap(m) => m.Valid()
      case Dma(d) => d.Valid()
      case Cpp(c) => c.Valid()
    }

    predicate Holds()
      reads Object(), K()
    {
      match this
      case Mmap(m) => m.Holds()
      case Dma(d) => d.Holds()
      case Cpp(c) => c.Holds()
    }

    function Contents(): (p: Pool)
      requires Valid()
      reads Object(), K()
    {
      match this
      case Mmap(m) => m.Contents()
      case Dma(d) => d.Contents()
      case Cpp(c) => c.Contents()
    }

    lemma ValidIsReady()
      requires Valid()
      ensures K().Valid() && Ready(K().fds, Fd(), Buffers()) && Owns(K().fds, Fd(), Buffers())
      ensures Contents() == View(K().fds, Fd(), Buffers()) && Holds()
      ensures Streaming() == Contents().streaming && Distinct(Contents().queue)
    {
    }

    /** What serving frames leaves as it is: the device, the buffers' descriptors, and all but the device's file. */
    ghost function Base(): Footing
      reads Object(), K()
    {
      Footing(Fd(), BufFds(Buffers()), Present(Buffers()), K().fds - {Fd()}, K().history)
    }

    /** A socket beside the capture. */
    method OpenSocket() returns (fd: int)
      requires Valid()
      modifies K()
      ensures Valid() && Contents() == old(Contents()) && K().history == old(K().history)
      ensures fd < 0 ==> K().fds == old(K().fds) && K().faults > old(K().faults)
      ensures fd >= 0 ==>
                fd !in old(K().fds) && K().fds == old(K().fds)[fd := Stream] && K().faults == old(K().faults)
    {
      hide Owns, Ready, View;
      ValidIsReady();
      fd := K().Open(Stream);
      if fd >= 0 {
        OtherOpened(old(K().fds), Fd(), Buffers(), fd, Stream);
      }
    }

    method CloseSocket(fd: int)
      requires Holds() && fd in K().fds && fd !in Owned(Fd(), Buffers())
      modifies K()
      ensures Holds() && K().fds == old(K().fds) - {fd} && K().history == old(K().history) + [Closed(fd)]
      ensures Fd() == old(Fd()) && Buffers() == old(Buffers()) && Streaming() == old(Streaming())
      ensures K().faults == old(K().faults)
    {
      OtherClosed(K().fds, Fd(), Buffers(), fd);
      K().Close(fd);
    }

    method Dequeue() returns (ok: bool, index: u32)
      requires Valid()
      modifies Object(), K()
      ensures Valid() && Base() == old(Base()) && K().faults >= old(K().faults)
      ensures ok ==> index < |Buffers()| && Takes(old(Contents()), index, Contents())
      ensures !ok ==> Contents() == old(Contents()) && (old(Stocked(Contents())) ==> K().faults > old(K().faults))
    {
      hide Ready, View, Owns, Takes, BufFds, Present, Stocked;
      match this {
        case Mmap(m) => ok, index := m.Dequeue();
        case Dma(d) => ok, index := d.Dequeue();
        case Cpp(c) => ok, index := c.Dequeue();
      }
      WithoutDevice(old(K().fds), K().fds, Fd());
    }

    method Requeue(index: u32) returns (ok: bool)
      requires Valid() && index < |Buffers()|
      modifies K()
      ensures Valid() && Base() == old(Base()) && Buffers() == old(Buffers()) && K().faults >= old(K().faults)
      ensures ok ==> Returns(old(Contents()), index, Contents())
      ensures !ok ==> Contents() == old(Contents())
      ensures !ok && index !in old(Contents()).queue ==> K().faults > old(K().faults)
    {
      hide Ready, View, Owns, Returns, BufFds, Present;
      match this {
        case Mmap(m) => ok := m.Requeue(index);
        case Dma(d) => ok := d.Requeue(index);
        case Cpp(c) => ok := c.Requeue(index);
      }
      WithoutDevice(old(K().fds), K().fds, Fd());
    }

    method Drop() returns (off: bool)
      requires Holds()
      modifies Object(), K()
      ensures K().Valid() && K().fds == old(K().fds) - old(Owned(Fd(), Buffers())) && K().faults >= old(K().faults)
      ensures K().history == old(K().history) + Leaving(old(Fd()), IsMmap(), old(Streaming()), off, old(Buffers()))
    {
      match this {
        case Mmap(m) => off := m.Drop();
        case Dma(d) => off := d.Drop();
        case Cpp(c) => off := c.Destroy();
      }
    }
  }

  // ---- what a sequence of calls does to the control state, the pool and the socket ----

  /** `header` is what the handshake says. */
  datatype Progress = Progress(header: Handshake, pc: PubPc, pool: Pool, out: seq<byte>, acks: nat)

  /** The pool of a capture that is gone. */
  const GONE := Pool([], [], false)

  predicate CanFollow(p: Progress, e: PubEvent) {
    && PubNext(p.pc, e).Some?
    && (e.HandshakeFailed? ==> e.sent < HANDSHAKE_SIZE)
    && (e.Dequeued? ==> p.pool.queue != [] && p.pool.queue[0] == e.idx)
    && (e.Requeued? ==> p.pc.idx !in p.pool.queue)
    && (e.IdxFailed? ==> e.sent < INDEX_SIZE)
  }

  function Follow(p: Progress, e: PubEvent): Progress
    requires CanFollow(p, e)
  {
    var q := p.(pc := PubNext(p.pc, e).value);
    match e
    case HandshakeSent => q.(out := p.out + EncodeHandshake(p.header))
    case HandshakeFailed(k, _) => q.(out := p.out + EncodeHandshake(p.header)[..k])
    case Dequeued(_) => q.(pool := p.pool.(queue := p.pool.queue[1..]))
    case Requeued => q.(pool := p.pool.(queue := p.pool.queue + [p.pc.idx]))
    case IdxSent => q.(out := p.out + EncodeU32(p.pc.idx))
    case IdxFailed(k) => q.(out := p.out + EncodeU32(p.pc.idx)[..k])
    case AckReceived => q.(acks := p.acks + 1)
    case StreamingOff(ok) => if ok then q.(pool := p.pool.(queue := [], streaming := false)) else q
    case BuffersCleared => q.(pool := p.pool.(objs := []))
    case DeviceClosed => q.(pool := GONE)
    case _ => q
  }

  predicate CanFollowAll(p: Progress, calls: seq<PubEvent>)
    decreases |calls|
  {
    calls == [] || (CanFollow(p, calls[0]) && CanFollowAll(Follow(p, calls[0]), calls[1..]))
  }

  function FollowAll(p: Progress, calls: seq<PubEvent>): Progress
    requires CanFollowAll(p, calls)
    decreases |calls|
  {
    if calls == [] then p else FollowAll(Follow(p, calls[0]), calls[1..])
  }

  lemma {:induction false} FollowMore(p: Progress, calls: seq<PubEvent>, e: PubEvent)
    requires CanFollowAll(p, calls) && CanFollow(FollowAll(p, calls), e)
    ensures CanFollowAll(p, calls + [e]) && FollowAll(p, calls + [e]) == Follow(FollowAll(p, calls), e)
    decreases |calls|
  {
    if calls == [] {
      assert calls + [e] == [e] && [e][1..] == [];
    } else {
      assert (calls + [e])[1..] == calls[1..] + [e];
      FollowMore(Follow(p, calls[0]), calls[1..], e);
    }
  }

  /** A call log that leads from `before` to `now`. */
  predicate Led(before: Progress, calls: seq<PubEvent>, now: Progress) {
    CanFollowAll(before, calls) && FollowAll(before, calls) == now
  }

  lemma LedOn(before: Progress, calls: seq<PubEvent>, now: Progress, e: PubEvent, next: Progress)
    requires Led(before, calls, now) && CanFollow(now, e) && Follow(now, e) == next
    ensures Led(before, calls + [e], next)
  {
    FollowMore(before, calls, e);
  }

  lemma {:induction false} LedThen(a: Progress, first: seq<PubEvent>, b: Progress, second: seq<PubEvent>, c: Progress)
    requires Led(a, first, b) && Led(b, second, c)
    ensures Led(a, first + second, c)
    decreases |first|
  {
    if first == [] {
      assert first + second == second;
    } else {
      assert (first + second)[1..] == first[1..] + second;
      LedThen(Follow(a, first[0]), first[1..], b, second, c);
    }
  }

  /** The publisher's end of the connection: what it has written, how many acks it has read, and how many of its
      calls did not do all they were asked to. */
  class Client {
    const fd: int
    var rights: seq<Obj>   // the memory behind the descriptors sent along
    var out: seq<byte>
    var acks: nat
    var faults: nat

    constructor (fd: int)
      ensures this.fd == fd && rights == [] && out == [] && acks == 0 && faults == 0
    {
      this.fd := fd;
      rights, out, acks, faults := [], [], 0, 0;
    }

    /** sendmsg: puts a prefix of the message into the stream and says how long it is, or -1. */
    method Send(message: seq<byte>) returns (n: int)
      modifies this`out, this`faults
      ensures -1 <= n <= |message| && out == old(out) + message[..if n < 0 then 0 else n]
      ensures faults == old(faults) + if n == |message| then 0 else 1
    {
      n := *;
      if !(0 <= n <= |message|) {
        n := -1;
      }
      if n != |message| {
        faults := faults + 1;
      }
      out := out + message[..if n < 0 then 0 else n];
    }

    /** recv of one byte: it comes, or the peer has gone, or the call fails. */
    method ReadAck() returns (n: int)
      modifies this`acks, this`faults
      ensures if n > 0 then acks == old(acks) + 1 && faults == old(faults)
              else acks == old(acks) && faults == old(faults) + 1
    {
      n := *;
      if n > 0 {
        acks := acks + 1;
      } else {
        faults := faults + 1;
      }
    }

    /** send_idx: all four bytes, or an error after some of them. */
    method SendIdx(idx: u32) returns (e: PubEvent)
      modifies this`out, this`faults
      ensures (e == IdxSent && out == old(out) + EncodeU32(idx) && faults == old(faults))
           || (e.IdxFailed? && e.sent < INDEX_SIZE && out == old(out) + EncodeU32(idx)[..e.sent]
               && faults > old(faults))
    {
      var n := Send(EncodeU32(idx));
      if n == INDEX_SIZE {
        e := IdxSent;
      } else {
        e := IdxFailed(if n < 0 then 0 else n);
      }
    }

    /** wait_for_ack: one byte read, end of file, or an error. */
    method WaitForAck() returns (e: PubEvent)
      modifies this`acks, this`faults
      ensures if e == AckReceived then acks == old(acks) + 1 && faults == old(faults)
              else e == AckFailed && acks == old(acks) && faults > old(faults)
    {
      var n := ReadAck();
      e := if n <= 0 then AckFailed else AckReceived;
    }

    /** send_handshake: the header, with the descriptors as ancillary data, in whose place the kernel takes
        what they stand for. */
    method SendHandshake(k: Kernel, header: Handshake, fds: seq<u32>) returns (e: PubEvent)
      requires out == [] && rights == [] && OwnsAll(k.fds, fds) && |fds| < 0x1_0000_0000
      modifies this`out, this`rights, this`faults
      ensures var objs := ObjsOf(k.fds, fds);
              || (e == HandshakeSent && out == EncodeHandshake(header) && rights == objs && faults == old(faults))
              || (e.HandshakeFailed? && e.sent < HANDSHAKE_SIZE && out == EncodeHandshake(header)[..e.sent]
                  && e.withFds == (rights == objs) && faults > old(faults))
    {
      var read := Cmsg.PassRights(fds);
      var objs := ObjsOf(k.fds, read);
      var attached: bool := *;
      if attached {
        rights := objs;
      }
      var n := Send(EncodeHandshake(header));
      if n == HANDSHAKE_SIZE {
        rights := objs;
        e := HandshakeSent;
      } else {
        e := HandshakeFailed(if n < 0 then 0 else n, rights == objs);
      }
    }
  }

  function At(header: Handshake, pc: PubPc, cap: Capture, client: Client): Progress
    requires cap.Valid()
    reads cap.Object(), cap.K(), client
  {
    Progress(header, pc, cap.Contents(), client.out, client.acks)
  }

  /** The same buffers, in whatever order. */
  predicate SameBuffers(q: seq<u32>, r: seq<u32>) {
    multiset(q) == multiset(r)
  }

  lemma SameAsBefore(q: seq<u32>)
    ensures SameBuffers(q, q)
  {
  }

  lemma SameThroughout(q: seq<u32>, r: seq<u32>, s: seq<u32>)
    ensures SameBuffers(q, r) && SameBuffers(r, s) ==> SameBuffers(q, s)
  {
  }

  /** Taking the first buffer and giving it back. */
  lemma RotationKeepsBuffers(q: seq<u32>)
    requires q != []
    ensures SameBuffers(q[1..] + [q[0]], q)
  {
    assert q == [q[0]] + q[1..];
  }

  /** What a complete turn with index i calls. */
  function FullTurn(i: u32): seq<PubEvent> {
    [SawRunning, Dequeued(i), IdxSent, AckReceived, Requeued]
  }

  /** The frame loop, for a signal that arrives before turn number `turns`.  The log of its calls is one
      that the control automaton and the pool allow, and it ends outside the loop: after that many complete turns,
      or because some call failed.  As long as the device's calls do not fail every buffer is back in its queue. */
  method Loop(cap: Capture, client: Client, ghost header: Handshake, turns: nat) returns (calls: seq<PubEvent>)
    requires cap.Valid()
    modifies cap.Object(), cap.K(), client`out, client`acks, client`faults
    ensures cap.Valid() && cap.Base() == old(cap.Base())
    ensures cap.K().faults >= old(cap.K().faults) && client.faults >= old(client.faults)
    ensures Led(old(At(header, PLoop, cap, client)), calls, At(header, PCloseClient, cap, client))
    ensures cap.K().faults > old(cap.K().faults) || SameBuffers(cap.Contents().queue, old(cap.Contents()).queue)
    ensures calls != [] && var n := |calls| - 1;
            && (calls[n] == SawStopped ==>
                  && |TakenBy(calls[..n])| == turns
                  && Led(old(At(header, PLoop, cap, client)), calls[..n], At(header, PLoop, cap, client)))
            && (Stocked(old(cap.Contents())) ==>
                  || cap.K().faults > old(cap.K().faults) || client.faults > old(client.faults)
                  || calls[n] == SawStopped)
  {
    hide Led, Takes, Returns, BufFds, Present, Owns, Ready, View, EncodeU32, SameBuffers, FullTurn, TakenBy;
    hide Capture.Valid, Capture.Contents, Capture.Base, Capture.Buffers, Capture.Fd;
    assert client != cap.Object();
    calls := [];
    var turn := 0;
    var running := true;
    ghost var start, pool := At(header, PLoop, cap, client), cap.Contents();
    ghost var device, connection := cap.K().faults, client.faults;
    assert TakenBy([]) == [] by { TakenByNothing(); }
    SameAsBefore(pool.queue);
    assert Led(start, calls, At(header, PLoop, cap, client)) by { LedNowhere(start); }
    while running && turn < turns
      invariant cap.Valid() && cap.Base() == old(cap.Base())
      invariant cap.K().faults >= device && client.faults >= connection
      invariant Led(start, calls, At(header, if running then PLoop else PCloseClient, cap, client))
      invariant cap.K().faults > device || SameBuffers(cap.Contents().queue, pool.queue)
      invariant running ==> turn <= turns && |TakenBy(calls)| == turn
      invariant running ==> cap.Contents().streaming == pool.streaming && |cap.Contents().queue| == |pool.queue|
      invariant !running ==> calls != [] && calls[|calls| - 1] != SawStopped
      invariant !running && Stocked(pool) ==> cap.K().faults + client.faults > device + connection
      decreases turns - turn
    {
      ghost var before, queue := calls, cap.Contents().queue;
      calls, running := Turn(cap, client, start, calls);
      SameThroughout(cap.Contents().queue, queue, pool.queue);
      if running {
        TakenByTurn(before, queue[0]);
      }
      turn := turn + 1;
    }
    if running {
      LedOn(start, calls, At(header, PLoop, cap, client), SawStopped, At(header, PCloseClient, cap, client));
      ghost var before := calls;
      calls := calls + [SawStopped];
      assert calls[..|calls| - 1] == before;
    }
  }

  lemma TakenByNothing()
    ensures TakenBy([]) == []
  {
  }

  lemma TakenByFirst(calls: seq<PubEvent>)
    requires calls != []
    ensures TakenBy(calls) == (if calls[0].Dequeued? then [calls[0].idx] else []) + TakenBy(calls[1..])
  {
  }

  lemma {:induction false} TakenByMore(calls: seq<PubEvent>, e: PubEvent)
    ensures TakenBy(calls + [e]) == TakenBy(calls) + if e.Dequeued? then [e.idx] else []
  {
    hide TakenBy;
    var all := calls + [e];
    TakenByFirst(all);
    if calls == [] {
      TakenByNothing();
      assert all[1..] == [];
    } else {
      TakenByFirst(calls);
      assert all[1..] == calls[1..] + [e];
      TakenByMore(calls[1..], e);
    }
  }

  /** A complete turn takes one index. */
  lemma TakenByTurn(calls: seq<PubEvent>, i: u32)
    ensures TakenBy(calls + FullTurn(i)) == TakenBy(calls) + [i]
  {
    hide TakenBy;
    var two := calls + [SawRunning] + [Dequeued(i)];
    TakenByMore(calls, SawRunning);
    TakenByMore(calls + [SawRunning], Dequeued(i));
    TakenByMore(two, IdxSent);
    TakenByMore(two + [IdxSent], AckReceived);
    TakenByMore(two + [IdxSent] + [AckReceived], Requeued);
    assert calls + FullTurn(i) == two + [IdxSent] + [AckReceived] + [Requeued];
  }

  lemma LedNowhere(p: Progress)
    ensures Led(p, [], p)
  {
  }

  lemma TakesFollows(now: Progress, i: u32, after: Pool)
    requires now.pc.PDequeue? && Takes(now.pool, i, after)
    ensures now.pool.queue != [] && now.pool.queue[0] == i && after == now.pool.(queue := now.pool.queue[1..])
    ensures CanFollow(now, Dequeued(i)) && Follow(now, Dequeued(i)) == now.(pc := PSend(i), pool := after)
  {
  }

  lemma ReturnsFollows(now: Progress, i: u32, after: Pool)
    requires Returns(now.pool, i, after) && (now.pc == PRequeue(i) || (GivesBack(now.pc) && now.pc.idx == i))
    ensures CanFollow(now, Requeued)
    ensures Follow(now, Requeued) == now.(pc := if now.pc.PRequeue? then PLoop else PCloseClient, pool := after)
  {
  }

  /** One turn of the loop: its end is the next turn, with the buffer at the end of the queue, or, on any failure, a
      break. */
  method Turn(cap: Capture, client: Client, ghost start: Progress, calls: seq<PubEvent>)
    returns (calls': seq<PubEvent>, goOn: bool)
    requires cap.Valid() && Led(start, calls, At(start.header, PLoop, cap, client))
    modifies cap.Object(), cap.K(), client`out, client`acks, client`faults
    ensures cap.Valid() && cap.Base() == old(cap.Base())
    ensures cap.K().faults >= old(cap.K().faults) && client.faults >= old(client.faults)
    ensures Led(start, calls', At(start.header, if goOn then PLoop else PCloseClient, cap, client))
    ensures cap.K().faults > old(cap.K().faults) || SameBuffers(cap.Contents().queue, old(cap.Contents()).queue)
    ensures goOn ==>
              var q := old(cap.Contents()).queue;
              && q != [] && calls' == calls + FullTurn(q[0])
              && cap.Contents() == old(cap.Contents()).(queue := q[1..] + [q[0]])
    ensures !goOn ==>
              && calls' != [] && calls'[|calls'| - 1] != SawStopped
              && (Stocked(old(cap.Contents())) ==>
                    cap.K().faults > old(cap.K().faults) || client.faults > old(client.faults))
  {
    hide Led, Takes, EncodeU32, SameBuffers, Stocked, FullTurn, Owns, Ready, View, BufFds, Present;
    hide Capture.Valid, Capture.Contents, Capture.Base, Capture.Buffers, Capture.Fd;
    assert client != cap.Object();
    ghost var pool := cap.Contents();
    SameAsBefore(pool.queue);
    var ok, idx;
    ghost var now;
    calls', ok, idx, now := TakeBuffer(cap, client, start, calls);
    goOn := false;
    if ok {
      TakenThenBack(pool, idx, now.pool);
      calls', goOn := HandOver(cap, client, idx, start, calls');
      FullTurnIs(calls, idx);
    }
  }

  /** A buffer taken from the front and given back at the end. */
  lemma TakenThenBack(p: Pool, i: u32, p': Pool)
    requires Takes(p, i, p')
    ensures p.queue != [] && p.queue[0] == i && p'.queue == p.queue[1..] && p' == p.(queue := p'.queue)
    ensures SameBuffers(p'.queue + [i], p.queue)
  {
    RotationKeepsBuffers(p.queue);
  }

  lemma FullTurnIs(calls: seq<PubEvent>, i: u32)
    ensures calls + [SawRunning, Dequeued(i)] + [IdxSent, AckReceived, Requeued] == calls + FullTurn(i)
  {
  }

  lemma FirstIsAlone(q: seq<u32>)
    requires Distinct(q)
    ensures q != [] ==> q[0] !in q[1..]
  {
  }

  /** The beginning of a turn. */
  method TakeBuffer(cap: Capture, ghost client: Client, ghost start: Progress, calls: seq<PubEvent>)
    returns (calls': seq<PubEvent>, ok: bool, idx: u32, ghost now: Progress)
    requires cap.Valid() && Led(start, calls, At(start.header, PLoop, cap, client))
    modifies cap.Object(), cap.K()
    ensures cap.Valid() && cap.Base() == old(cap.Base()) && cap.K().faults >= old(cap.K().faults)
    ensures now == At(start.header, if ok then PSend(idx) else PCloseClient, cap, client) && Led(start, calls', now)
    ensures calls' == calls + [SawRunning, if ok then Dequeued(idx) else DequeueFailed]
    ensures ok ==>
              && idx < |cap.Buffers()| && Takes(old(cap.Contents()), idx, cap.Contents())
              && idx !in cap.Contents().queue
    ensures !ok ==>
              && cap.Contents() == old(cap.Contents())
              && (Stocked(old(cap.Contents())) ==> cap.K().faults > old(cap.K().faults))
  {
    hide Led, Takes, BufFds, Present, EncodeU32, Owns, Ready, View, Stocked, Distinct;
    cap.ValidIsReady();
    now := At(start.header, PLoop, cap, client);
    FirstIsAlone(now.pool.queue);
    calls', now := Note(start, calls, now, SawRunning);
    ok, idx := cap.Dequeue();
    if ok {
      TakesFollows(now, idx, cap.Contents());
    }
    calls', now := Note(start, calls', now, if ok then Dequeued(idx) else DequeueFailed);
  }

  /** The rest of a turn, with a buffer in hand: whatever happens it is given back, unless the device refuses it. */
  method HandOver(cap: Capture, client: Client, idx: u32, ghost start: Progress, calls: seq<PubEvent>)
    returns (calls': seq<PubEvent>, goOn: bool)
    requires cap.Valid() && idx < |cap.Buffers()|
    requires Led(start, calls, At(start.header, PSend(idx), cap, client))
    modifies cap.K(), client`out, client`acks, client`faults
    ensures cap.Valid() && cap.Base() == old(cap.Base())
    ensures cap.K().faults >= old(cap.K().faults) && client.faults >= old(client.faults)
    ensures Led(start, calls', At(start.header, if goOn then PLoop else PCloseClient, cap, client))
    ensures idx !in old(cap.Contents()).queue ==>
              || cap.K().faults > old(cap.K().faults)
              || cap.Contents().queue == old(cap.Contents()).queue + [idx]
    ensures calls' != [] && TriedToGiveBack(calls'[|calls'| - 1])
    ensures goOn ==>
              && calls' == calls + [IdxSent, AckReceived, Requeued]
              && cap.Contents() == old(cap.Contents()).(queue := old(cap.Contents()).queue + [idx])
    ensures !goOn && idx !in old(cap.Contents()).queue ==>
              cap.K().faults > old(cap.K().faults) || client.faults > old(client.faults)
  {
    hide Led, EncodeU32, TriedToGiveBack, Owns, Ready, View, BufFds, Present;
    hide Capture.Valid, Capture.Contents, Capture.Base, Capture.Buffers, Capture.Fd;
    assert client != cap.Object();
    var sent;
    ghost var now;
    calls', sent, now := Offer(cap, client, idx, start, calls);
    if !sent {
      goOn := false;
      var ignored;
      calls', ignored := GiveBack(cap, client, idx, start, calls', now);
      return;
    }
    calls', goOn := HearBack(cap, client, idx, start, calls');
    assert goOn ==> calls' == calls + [IdxSent, AckReceived, Requeued];
  }

  /** ... and with its index sent. */
  method HearBack(cap: Capture, client: Client, idx: u32, ghost start: Progress, calls: seq<PubEvent>)
    returns (calls': seq<PubEvent>, goOn: bool)
    requires cap.Valid() && idx < |cap.Buffers()|
    requires Led(start, calls, At(start.header, PWait(idx), cap, client))
    modifies cap.K(), client`acks, client`faults
    ensures cap.Valid() && cap.Base() == old(cap.Base())
    ensures cap.K().faults >= old(cap.K().faults) && client.faults >= old(client.faults)
    ensures Led(start, calls', At(start.header, if goOn then PLoop else PCloseClient, cap, client))
    ensures idx !in old(cap.Contents()).queue ==>
              || cap.K().faults > old(cap.K().faults)
              || cap.Contents().queue == old(cap.Contents()).queue + [idx]
    ensures calls' != [] && TriedToGiveBack(calls'[|calls'| - 1])
    ensures goOn ==>
              && calls' == calls + [AckReceived, Requeued]
              && cap.Contents() == old(cap.Contents()).(queue := old(cap.Contents()).queue + [idx])
    ensures !goOn && idx !in old(cap.Contents()).queue ==>
              cap.K().faults > old(cap.K().faults) || client.faults > old(client.faults)
  {
    hide Led, EncodeU32, TriedToGiveBack, Owns, Ready, View, BufFds, Present;
    hide Capture.Valid, Capture.Contents, Capture.Base, Capture.Buffers, Capture.Fd;
    assert client != cap.Object();
    var acked;
    ghost var now;
    calls', acked, now := AwaitAck(cap, client, idx, start, calls);
    if !acked {
      goOn := false;
      var ignored;
      calls', ignored := GiveBack(cap, client, idx, start, calls', now);
      return;
    }
    calls', goOn := GiveBack(cap, client, idx, start, calls', now);
    assert goOn ==> calls' == calls + [AckReceived, Requeued];
  }

  method Offer(ghost cap: Capture, client: Client, idx: u32, ghost start: Progress, calls: seq<PubEvent>)
    returns (calls': seq<PubEvent>, sent: bool, ghost now: Progress)
    requires cap.Valid() && Led(start, calls, At(start.header, PSend(idx), cap, client))
    modifies client`out, client`faults
    ensures now == At(start.header, if sent then PWait(idx) else PGiveBackUnsent(idx), cap, client)
    ensures Led(start, calls', now) && (sent ==> calls' == calls + [IdxSent])
    ensures client.faults >= old(client.faults) && (!sent ==> client.faults > old(client.faults))
  {
    hide Led, EncodeU32, Owns, Ready, View, BufFds, Present;
    now := At(start.header, PSend(idx), cap, client);
    var e := client.SendIdx(idx);
    calls', now := Note(start, calls, now, e);
    sent := e.IdxSent?;
  }

  method AwaitAck(ghost cap: Capture, client: Client, ghost idx: u32, ghost start: Progress, calls: seq<PubEvent>)
    returns (calls': seq<PubEvent>, acked: bool, ghost now: Progress)
    requires cap.Valid() && Led(start, calls, At(start.header, PWait(idx), cap, client))
    modifies client`acks, client`faults
    ensures now == At(start.header, if acked then PRequeue(idx) else PGiveBackUnacked(idx), cap, client)
    ensures Led(start, calls', now) && (acked ==> calls' == calls + [AckReceived])
    ensures client.faults >= old(client.faults) && (!acked ==> client.faults > old(client.faults))
  {
    hide Led, EncodeU32, Owns, Ready, View, BufFds, Present;
    now := At(start.header, PWait(idx), cap, client);
    var e := client.WaitForAck();
    calls', now := Note(start, calls, now, e);
    acked := e.AckReceived?;
  }

  /** Requeues the buffer in hand; out of the loop a failure is ignored. */
  method GiveBack(cap: Capture, ghost client: Client, idx: u32, ghost start: Progress, calls: seq<PubEvent>,
                  ghost now: Progress)
    returns (calls': seq<PubEvent>, ok: bool)
    requires cap.Valid() && idx < |cap.Buffers()| && Led(start, calls, now)
    requires now == At(start.header, now.pc, cap, client)
    requires now.pc == PRequeue(idx) || (GivesBack(now.pc) && now.pc.idx == idx)
    modifies cap.K()
    ensures cap.Valid() && cap.Base() == old(cap.Base()) && cap.K().faults >= old(cap.K().faults)
    ensures Led(start, calls', At(start.header, if ok && now.pc.PRequeue? then PLoop else PCloseClient, cap, client))
    ensures calls' == calls + [if ok then Requeued else RequeueFailed] && TriedToGiveBack(calls'[|calls'| - 1])
    ensures if ok then cap.Contents() == old(cap.Contents()).(queue := old(cap.Contents()).queue + [idx])
            else cap.Contents() == old(cap.Contents())
                 && (idx !in old(cap.Contents()).queue ==> cap.K().faults > old(cap.K().faults))
  {
    hide Led, Owns, Ready, View, BufFds, Present;
    ok := cap.Requeue(idx);
    if ok {
      ReturnsFollows(now, idx, cap.Contents());
    }
    ghost var next;
    calls', next := Note(start, calls, now, if ok then Requeued else RequeueFailed);
  }

  /** Adds a call to the log. */
  method Note(ghost start: Progress, calls: seq<PubEvent>, ghost now: Progress, e: PubEvent)
    returns (calls': seq<PubEvent>, ghost next: Progress)
    requires Led(start, calls, now) && CanFollow(now, e)
    ensures next == Follow(now, e) && Led(start, calls', next) && calls' == calls + [e]
  {
    LedOn(start, calls, now, e, Follow(now, e));
    calls', next := calls + [e], Follow(now, e);
  }

  // ---- whole programs ----

  const NO_HEADER := Handshake(0, 0, 0, 0, 0, 0)
  const NO_FORMAT := Format(0, 0, 0, 0, 0)

  /** The header announces the geometry the device chose, the code for its format, and how many descriptors come. */
  predicate Announces(header: Handshake, f: Format, fourcc: u32, bufCount: nat) {
    && header.bufCount == bufCount && header.format == fourcc
    && header.width == f.width && header.height == f.height && header.stride == f.stride && header.size == f.sizeImage
  }

  /** The header, and the descriptors of all buffers in index order: descriptor i is for the memory behind index i. */
  method BuildHandshake(cap: Capture, fourcc: u32) returns (header: Handshake, fds: seq<u32>)
    requires cap.Valid()
    ensures |fds| == |cap.Contents().objs| < 0x1_0000_0000
    ensures var f := cap.Negotiated();
            && header.width == f.width && header.height == f.height && header.stride == f.stride
            && header.size == f.sizeImage && header.format == fourcc && header.bufCount == |fds|
    ensures OwnsAll(cap.K().fds, fds) && ObjsOf(cap.K().fds, fds) == cap.Contents().objs
  {
    cap.ValidIsReady();
    var buffers := cap.Buffers();
    fds := [];
    var i: u32 := 0;
    while i < |buffers|
      invariant i <= |buffers| && |fds| == i
      invariant forall j :: 0 <= j < i ==> fds[j] == buffers[j].dmabufFd
    {
      assert cap.K().IsDmaBuf(buffers[i].dmabufFd);
      fds := fds + [buffers[i].dmabufFd];
      i := i + 1;
    }
    DescriptorsOf(cap.K().fds, cap.Fd(), buffers, fds);
    var f := cap.Negotiated();
    header := Handshake(|fds|, f.width, f.height, fourcc, f.stride, f.sizeImage);
  }

  lemma DescriptorsOf(fds: map<int, File>, fd: int, buffers: seq<BufInfo>, list: seq<u32>)
    requires Ready(fds, fd, buffers) && |list| == |buffers|
    requires forall j :: 0 <= j < |list| ==> list[j] == buffers[j].dmabufFd
    ensures OwnsAll(fds, list) && ObjsOf(fds, list) == View(fds, fd, buffers).objs
  {
    forall j | 0 <= j < |list|
      ensures list[j] in fds && fds[list[j]] == DmaBuf(View(fds, fd, buffers).objs[j])
    {
      var l: u32 := j;
      assert buffers[l].dmabufFd == list[j];
    }
  }

  /** Sends the handshake of a capture. */
  method Greet(cap: Capture, client: Client, fourcc: u32)
    returns (calls: seq<PubEvent>, ghost now: Progress, ghost header: Handshake)
    requires cap.Valid() && client.out == [] && client.rights == [] && client.acks == 0
    modifies client`out, client`rights, client`faults
    ensures Announces(header, cap.Negotiated(), fourcc, |cap.Contents().objs|)
    ensures Led(Progress(header, PHandshake, cap.Contents(), [], 0), calls, now)
    ensures now == At(header, now.pc, cap, client)
    ensures |calls| == 1
    ensures if calls[0].HandshakeSent?
            then now.pc == PLoop && client.rights == cap.Contents().objs && client.faults == old(client.faults)
                 && client.out == EncodeHandshake(header)
            else now.pc == PCloseClient && client.faults > old(client.faults)
  {
    hide Led, Owns, Ready, View, BufFds, Present, EncodeHandshake;
    var message, fds := BuildHandshake(cap, fourcc);
    header := message;
    ghost var start := Progress(header, PHandshake, cap.Contents(), [], 0);
    LedNowhere(start);
    var e := client.SendHandshake(cap.K(), message, fds);
    calls, now := Note(start, [], start, e);
  }

  /** The program went from the handshake through `turns` complete turns, and then the client had got `out` and sent
      `acks`. */
  ghost predicate WentRound(header: Handshake, pool: Pool, turns: nat, out: seq<byte>, acks: nat) {
    exists body, after ::
      && |TakenBy(body)| == turns
      && Led(Progress(header, PLoop, pool, EncodeHandshake(header), 0), body, Progress(header, PLoop, after, out, acks))
  }

  lemma RoundLog(header: Handshake, pool: Pool, turns: nat, body: seq<PubEvent>, now: Progress)
    requires |TakenBy(body)| == turns && now.header == header && now.pc == PLoop
    requires Led(Progress(header, PLoop, pool, EncodeHandshake(header), 0), body, now)
    ensures WentRound(header, pool, turns, now.out, now.acks)
  {
  }

  /** Handshake and loop on one connection. */
  method Converse(cap: Capture, connection: int, fourcc: u32, turns: nat)
    returns (client: Client, calls: seq<PubEvent>, ghost header: Handshake)
    requires cap.Valid()
    modifies cap.Object(), cap.K()
    ensures cap.Valid() && cap.Base() == old(cap.Base()) && cap.K().faults >= old(cap.K().faults)
    ensures fresh(client) && client.fd == connection
    ensures Announces(header, old(cap.Negotiated()), fourcc, |old(cap.Contents().objs)|)
    ensures Led(Progress(header, PHandshake, old(cap.Contents()), [], 0), calls, At(header, PCloseClient, cap, client))
    ensures calls != [] && (calls[0].HandshakeSent? ==> client.rights == old(cap.Contents().objs))
    ensures Stocked(old(cap.Contents())) && client.faults == 0 && cap.K().faults == old(cap.K().faults) ==>
              WentRound(header, old(cap.Contents()), turns, client.out, client.acks)
  {
    hide Led, Owns, Ready, View, BufFds, Present, EncodeHandshake, WentRound, TakenBy, Stocked;
    client := new Client(connection);
    ghost var pool := cap.Contents();
    ghost var now;
    calls, now, header := Greet(cap, client, fourcc);
    ghost var start := Progress(header, PHandshake, pool, [], 0);
    if calls[0].HandshakeSent? {
      var more := Loop(cap, client, header, turns);
      LedThen(start, calls, now, more, At(header, PCloseClient, cap, client));
      ghost var n := |more| - 1;
      if more[n] == SawStopped {
        RoundLog(header, pool, turns, more[..n], At(header, PLoop, cap, client));
      }
      calls := calls + more;
    }
  }

  lemma SocketsGone(before: map<int, File>, now: map<int, File>, fd: int, mine: set<int>,
                    listening: int, connection: int)
    requires listening !in before && connection !in before && fd in mine && fd in before && fd in now
    requires now - {fd} == before[listening := Stream][connection := Stream] - {fd}
    ensures connection in now && listening in now
    ensures ((now - {connection}) - {listening}) - mine == before - mine
  {
    var sockets := before[listening := Stream][connection := Stream];
    assert forall x :: x in now <==> x in now - {fd} || x == fd;
    assert forall x :: x in sockets <==> x in sockets - {fd} || x == fd;
    assert forall x :: x in now && x != fd ==> now[x] == (now - {fd})[x] == sockets[x];
    SameTable(((now - {connection}) - {listening}) - mine, before - mine);
  }

  function ExitCalls(off: bool): seq<PubEvent> {
    [ClientClosed, StreamingOff(off), BuffersCleared, DeviceClosed]
  }

  lemma ExitCallsLead(start: Progress, calls: seq<PubEvent>, now: Progress, off: bool)
    requires Led(start, calls, now) && now.pc == PCloseClient
    ensures Led(start, calls + ExitCalls(off), now.(pc := PDone, pool := GONE))
  {
    hide Led;
    var p1 := Follow(now, ClientClosed);
    var p2 := Follow(p1, StreamingOff(off));
    var p3 := Follow(p2, BuffersCleared);
    LedOn(start, calls, now, ClientClosed, p1);
    LedOn(start, calls + [ClientClosed], p1, StreamingOff(off), p2);
    LedOn(start, calls + [ClientClosed] + [StreamingOff(off)], p2, BuffersCleared, p3);
    var most := calls + [ClientClosed] + [StreamingOff(off)] + [BuffersCleared];
    LedOn(start, most, p3, DeviceClosed, Follow(p3, DeviceClosed));
    assert most + [DeviceClosed] == calls + ExitCalls(off);
  }

  lemma TwoClosings(history: seq<Act>, x: int, y: int)
    ensures history + [Closed(x)] + [Closed(y)] == history + Closings([x, y])
  {
  }

  /** Destructors: the connection, the listening socket, the capture, in that order. */
  method TearDown(cap: Capture, connection: int, listening: int) returns (off: bool)
    requires cap.Holds() && connection in cap.K().fds && listening in cap.K().fds && connection != listening
    requires connection !in Owned(cap.Fd(), cap.Buffers()) && listening !in Owned(cap.Fd(), cap.Buffers())
    requires cap.Streaming() && cap.Fd() >= 0
    modifies cap.Object(), cap.K()
    ensures cap.K().Valid() && cap.K().faults >= old(cap.K().faults)
    ensures cap.K().fds == ((old(cap.K().fds) - {connection}) - {listening}) - old(Owned(cap.Fd(), cap.Buffers()))
    ensures cap.K().history == old(cap.K().history)
              + Exit([], [connection, listening], old(cap.Fd()), cap.IsMmap(), true, off,
                     old(Present(cap.Buffers()))).Acts()
  {
    hide Present, Leaving, Exit.Acts;
    ghost var history, device, buffers := cap.K().history, cap.Fd(), cap.Buffers();
    cap.CloseSocket(connection);
    cap.CloseSocket(listening);
    TwoClosings(history, connection, listening);
    off := cap.Drop();
    SocketsThenLeave(history, [connection, listening], device, cap.IsMmap(), true, off, buffers);
  }

  lemma NoClosings(history: seq<Act>)
    ensures history + Closings([]) == history
  {
  }

  lemma OnlyEarly(early: seq<Act>)
    ensures NOTHING.(early := early).Acts() == early
  {
  }

  lemma OneClosing(history: seq<Act>, x: int)
    ensures history + Closings([x]) == history + [Closed(x)]
  {
  }

  /** Listen and accept, or leave no socket behind. */
  method Connect(cap: Capture) returns (ok: bool, listening: int, connection: int, ghost closed: seq<int>)
    requires cap.Valid()
    modifies cap.K()
    ensures cap.Holds() && cap.K().history == old(cap.K().history) + Closings(closed)
    ensures cap.K().faults >= old(cap.K().faults)
    ensures !ok ==> cap.K().fds == old(cap.K().fds) && |closed| <= 1 && cap.K().faults > old(cap.K().faults)
    ensures ok ==>
              && cap.Valid() && cap.Contents() == old(cap.Contents()) && cap.K().history == old(cap.K().history)
              && listening !in old(cap.K().fds) && connection !in old(cap.K().fds) && connection != listening
              && cap.K().fds == old(cap.K().fds)[listening := Stream][connection := Stream]
  {
    cap.ValidIsReady();
    OwnedInTable(cap.K().fds, cap.Fd(), cap.Buffers());
    hide Owns, Ready, View, BufFds, Closings;
    NoClosings(cap.K().history);
    ok, connection, closed := false, -1, [];
    listening := cap.OpenSocket();
    cap.ValidIsReady();
    if listening < 0 {
      return;
    }
    connection := cap.OpenSocket();
    cap.ValidIsReady();
    if connection < 0 {
      OneClosing(cap.K().history, listening);
      cap.CloseSocket(listening);
      closed := [listening];
      SameTable(cap.K().fds, old(cap.K().fds));
      return;
    }
    ok := true;
  }

  /** The log of a whole session that ended with everything taken down. */
  ghost predicate Served(header: Handshake, pool: Pool, calls: seq<PubEvent>, client: Client)
    reads client
  {
    && Led(Progress(header, PHandshake, pool, [], 0), calls, Progress(header, PDone, GONE, client.out, client.acks))
    && calls != [] && (calls[0].HandshakeSent? ==> client.rights == pool.objs)
  }

  /** Every log that can be followed is a path of the control automaton. */
  lemma {:induction false} LedIsPath(p: Progress, calls: seq<PubEvent>, end: Progress)
    requires Led(p, calls, end)
    ensures PubPath(p.pc, calls) == Some(end.pc)
    decreases |calls|
  {
    if calls != [] {
      LedIsPath(Follow(p, calls[0]), calls[1..], end);
    }
  }

  /** Between listening and exit, and what is left of the table when both sockets and the capture are gone. */
  method Attend(cap: Capture, listening: int, connection: int, fourcc: u32, turns: nat, ghost before: map<int, File>)
    returns (client: Client, calls: seq<PubEvent>, off: bool, ghost header: Handshake)
    requires cap.Valid() && cap.Contents().streaming
    requires cap.Fd() in before && Owned(cap.Fd(), cap.Buffers()) <= before.Keys
    requires listening !in before && connection !in before && connection != listening
    requires cap.K().fds == before[listening := Stream][connection := Stream]
    modifies cap.Object(), cap.K()
    ensures cap.K().Valid() && cap.K().fds == before - old(Owned(cap.Fd(), cap.Buffers()))
    ensures Announces(header, old(cap.Negotiated()), fourcc, |old(cap.Contents().objs)|)
    ensures fresh(client) && client.fd == connection && Served(header, old(cap.Contents()), calls, client)
    ensures cap.K().faults >= old(cap.K().faults)
    ensures Stocked(old(cap.Contents())) && client.faults == 0 && cap.K().faults == old(cap.K().faults) ==>
              WentRound(header, old(cap.Contents()), turns, client.out, client.acks)
    ensures cap.K().history == old(cap.K().history)
              + Exit([], [connection, listening], old(cap.Fd()), cap.IsMmap(), true, off,
                     old(Present(cap.Buffers()))).Acts()
    ensures |calls| >= 4 && calls[|calls| - 4..] == ExitCalls(off)
  {
    cap.ValidIsReady();
    hide Led, Owns, Ready, View, BufFds, Present, Exit.Acts, WentRound, EncodeHandshake;
    ghost var mine, pool := Owned(cap.Fd(), cap.Buffers()), cap.Contents();
    client, calls, header := Converse(cap, connection, fourcc, turns);
    cap.ValidIsReady();
    SocketsGone(before, cap.K().fds, cap.Fd(), mine, listening, connection);
    ghost var start := Progress(header, PHandshake, pool, [], 0);
    ghost var now := At(header, PCloseClient, cap, client);
    LedKeepsStreaming(start, calls, now);
    off := TearDown(cap, connection, listening);
    ExitCallsLead(start, calls, now, off);
    calls := calls + ExitCalls(off);
  }

  /** A served client's connection is the first of two sockets closed, and what is logged at the end is what
      happened; without one at most the listening socket is closed.  Sockets exist only beside a stream, and
      streams only on a device. */
  predicate InOrder(exit: Exit, client: Client?, calls: seq<PubEvent>) {
    && (exit.sockets != [] ==> exit.streaming)
    && (exit.streaming ==> exit.device >= 0)
    && if client == null then |exit.sockets| <= 1
       else
         && |exit.sockets| == 2 && exit.sockets[0] == client.fd
         && |calls| >= 4 && calls[|calls| - 4..] == ExitCalls(exit.off)
  }

  /** A capture dropped without anybody served, after at most the listening socket was closed. */
  method GiveUp(cap: Capture, ghost before: seq<Act>, ghost sockets: seq<int>) returns (ghost exit: Exit)
    requires cap.Holds() && (cap.Fd() < 0 ==> cap.Buffers() == [])
    requires cap.K().history == before + Closings(sockets) && |sockets| <= 1 && (sockets != [] ==> cap.Streaming())
    modifies cap.Object(), cap.K()
    ensures cap.K().Valid() && cap.K().fds == old(cap.K().fds) - old(Owned(cap.Fd(), cap.Buffers()))
    ensures cap.K().history == before + exit.Acts() && InOrder(exit, null, []) && cap.K().faults >= old(cap.K().faults)
    ensures exit == Exit([], sockets, old(cap.Fd()), cap.IsMmap(), old(cap.Streaming()), exit.off,
                         old(Present(cap.Buffers())))
  {
    hide Leaving, Exit.Acts, Closings, Owns;
    ghost var device, streaming, buffers := cap.Fd(), cap.Streaming(), cap.Buffers();
    var off := cap.Drop();
    SocketsThenLeave(before, sockets, device, cap.IsMmap(), streaming, off, buffers);
    exit := Exit([], sockets, device, cap.IsMmap(), streaming, off, Present(buffers));
  }

  /** From listening to exit: one client is served, if there is one, then its connection, the listening socket and
      the capture are closed, in that order, whatever went wrong when. */
  method Serve(cap: Capture, fourcc: u32, turns: nat)
    returns (client: Client?, calls: seq<PubEvent>, ghost exit: Exit, ghost header: Handshake)
    requires cap.Valid() && cap.Contents().streaming
    modifies cap.Object(), cap.K()
    ensures cap.K().Valid() && cap.K().fds == old(cap.K().fds) - old(Owned(cap.Fd(), cap.Buffers()))
    ensures client != null ==>
              && Announces(header, old(cap.Negotiated()), fourcc, |old(cap.Contents().objs)|)
              && Served(header, old(cap.Contents()), calls, client) && PublisherLog(calls)
    ensures cap.K().history == old(cap.K().history) + exit.Acts() && cap.K().faults >= old(cap.K().faults)
    ensures exit == Exit([], exit.sockets, old(cap.Fd()), cap.IsMmap(), true, exit.off, old(Present(cap.Buffers())))
    ensures InOrder(exit, client, calls) && |exit.present| == |old(cap.Contents().objs)|
    ensures client == null ==> cap.K().faults > old(cap.K().faults)
    ensures client != null && Stocked(old(cap.Contents())) && client.faults == 0
            && cap.K().faults == old(cap.K().faults) ==>
              WentRound(header, old(cap.Contents()), turns, client.out, client.acks)
  {
    client, calls := null, [];
    cap.ValidIsReady();
    OwnedInTable(cap.K().fds, cap.Fd(), cap.Buffers());
    ReadyIsPresent(cap.K().fds, cap.Fd(), cap.Buffers());
    header := NO_HEADER;
    hide Led, Owns, Ready, View, BufFds, Present, ExitCalls, Leaving, Exit.Acts, Closings, WentRound;
    hide EncodeHandshake, PubPath, PublisherLog;
    ghost var before, history, fd, buffers := cap.K().fds, cap.K().history, cap.Fd(), cap.Buffers();
    ghost var pool := cap.Contents();
    var off;
    var ok, listening, connection, closed := Connect(cap);
    if !ok {
      exit := GiveUp(cap, history, closed);
      return;
    }
    client, calls, off, header := Attend(cap, listening, connection, fourcc, turns, before);
    exit := Exit([], [connection, listening], fd, cap.IsMmap(), true, off, Present(buffers));
    LedIsPath(Progress(header, PHandshake, pool, [], 0), calls, Progress(header, PDone, GONE, client.out, client.acks));
    PublisherLogExactlyWhen(calls);
  }

  /** Until STREAMOFF the pool streams. */
  lemma {:induction false} LedKeepsStreaming(p: Progress, calls: seq<PubEvent>, end: Progress)
    requires Led(p, calls, end) && PubStreaming(end.pc)
    ensures PubStreaming(p.pc) && (p.pool.streaming ==> end.pool.streaming)
    decreases |calls|
  {
    if calls != [] {
      LedKeepsStreaming(Follow(p, calls[0]), calls[1..], end);
    }
  }

  // ---- what every log of the loop says ----

  /** The indices dequeued, in order. */
  function TakenBy(calls: seq<PubEvent>): seq<u32> {
    if calls == [] then []
    else (if calls[0].Dequeued? then [calls[0].idx] else []) + TakenBy(calls[1..])
  }

  /** The books: until it is stopped the pool is a ring with the taken indices gone round, one buffer at most is
      out, and the bytes written are the indices taken, the last perhaps missing or cut short, acked but for one. */
  predicate Books(n: u32, p: Progress, out0: seq<byte>, acks0: nat, taken: seq<u32>, sent: nat, cut: seq<byte>,
                  held: Option<u32>)
    requires n > 0
  {
    && (PubStreaming(p.pc) ==> Ring(p.pool.queue, n, |taken|, held))
    && (forall k :: 0 <= k < |taken| ==> taken[k] == Head(k, n))
    && sent <= |taken| <= sent + 1
    && p.out == out0 + EncodeAll(taken[..sent]) + cut
    && |cut| < INDEX_SIZE
    && acks0 <= p.acks <= acks0 + sent <= p.acks + 1
    && match p.pc
       case PLoop => held.None? && cut == [] && sent == |taken| && p.acks == acks0 + sent
       case PDequeue => held.None? && cut == [] && sent == |taken| && p.acks == acks0 + sent
       case PSend(i) => held == Some(i) && cut == [] && sent + 1 == |taken| && p.acks == acks0 + sent
       case PWait(i) => held == Some(i) && cut == [] && sent == |taken| && p.acks + 1 == acks0 + sent
       case PRequeue(i) => held == Some(i) && cut == [] && sent == |taken| && p.acks == acks0 + sent
       case PGiveBackUnsent(i) => held == Some(i) && sent + 1 == |taken| && p.acks == acks0 + sent
       case PGiveBackUnacked(i) => held == Some(i) && cut == [] && sent == |taken|
       case _ => true
  }

  lemma DequeueKeepsBooks(n: u32, p: Progress, out0: seq<byte>, acks0: nat, taken: seq<u32>, sent: nat, cut: seq<byte>,
                          i: u32)
    requires n > 0 && Books(n, p, out0, acks0, taken, sent, cut, None) && CanFollow(p, Dequeued(i))
    ensures Books(n, Follow(p, Dequeued(i)), out0, acks0, taken + [i], sent, cut, Some(i))
  {
    RingDequeue(p.pool.queue, n, |taken|);
    hide Ring, EncodeAll;
    assert (taken + [i])[..sent] == taken[..sent];
  }

  lemma RequeueKeepsBooks(n: u32, p: Progress, out0: seq<byte>, acks0: nat, taken: seq<u32>, sent: nat, cut: seq<byte>,
                          held: Option<u32>)
    requires n > 0 && Books(n, p, out0, acks0, taken, sent, cut, held) && CanFollow(p, Requeued)
    ensures Books(n, Follow(p, Requeued), out0, acks0, taken, sent, cut, None)
  {
  }

  lemma SendKeepsBooks(n: u32, p: Progress, out0: seq<byte>, acks0: nat, taken: seq<u32>, sent: nat, cut: seq<byte>,
                       held: Option<u32>, e: PubEvent)
    requires n > 0 && Books(n, p, out0, acks0, taken, sent, cut, held)
    requires CanFollow(p, e) && (e.IdxSent? || e.IdxFailed?)
    ensures if e.IdxSent? then Books(n, Follow(p, e), out0, acks0, taken, sent + 1, cut, held)
            else Books(n, Follow(p, e), out0, acks0, taken, sent, EncodeU32(p.pc.idx)[..e.sent], held)
  {
    assert held == Some(p.pc.idx) && p.pc.idx == taken[sent];
    hide Ring, EncodeAll, EncodeU32;
    if e.IdxSent? {
      assert taken[..sent + 1] == taken[..sent] + [p.pc.idx];
      EncodeAllAppend(taken[..sent], p.pc.idx);
      assert Follow(p, e).out == out0 + EncodeAll(taken[..sent + 1]) + [];
    } else {
      assert Follow(p, e).out == out0 + EncodeAll(taken[..sent]) + EncodeU32(p.pc.idx)[..e.sent];
    }
  }

  lemma OthersKeepBooks(n: u32, p: Progress, out0: seq<byte>, acks0: nat, taken: seq<u32>, sent: nat, cut: seq<byte>,
                        held: Option<u32>, e: PubEvent)
    requires n > 0 && Books(n, p, out0, acks0, taken, sent, cut, held) && CanFollow(p, e) && PastHandshake(p.pc)
    requires !e.Dequeued? && !e.Requeued? && !e.IdxSent? && !e.IdxFailed?
    ensures Books(n, Follow(p, e), out0, acks0, taken, sent, cut, held)
  {
    hide Ring, EncodeAll, EncodeU32;
  }

  lemma StepKeepsBooks(n: u32, p: Progress, out0: seq<byte>, acks0: nat, taken: seq<u32>, sent: nat, cut: seq<byte>,
                       held: Option<u32>, e: PubEvent)
    returns (taken': seq<u32>, sent': nat, cut': seq<byte>, held': Option<u32>)
    requires n > 0 && Books(n, p, out0, acks0, taken, sent, cut, held) && CanFollow(p, e) && PastHandshake(p.pc)
    ensures taken' == taken + (if e.Dequeued? then [e.idx] else [])
    ensures Books(n, Follow(p, e), out0, acks0, taken', sent', cut', held') && PastHandshake(Follow(p, e).pc)
  {
    taken', sent', cut', held' := taken, sent, cut, held;
    assert taken + [] == taken && (p.pc.PDequeue? ==> held.None?) && PastHandshake(Follow(p, e).pc);
    hide Books, Follow, EncodeU32;
    match e {
      case Dequeued(i) =>
        DequeueKeepsBooks(n, p, out0, acks0, taken, sent, cut, i);
        taken', held' := taken + [i], Some(i);
      case Requeued =>
        RequeueKeepsBooks(n, p, out0, acks0, taken, sent, cut, held);
        held' := None;
      case IdxSent =>
        SendKeepsBooks(n, p, out0, acks0, taken, sent, cut, held, e);
        sent' := sent + 1;
      case IdxFailed(k) =>
        SendKeepsBooks(n, p, out0, acks0, taken, sent, cut, held, e);
        cut' := EncodeU32(p.pc.idx)[..k];
      case _ =>
        OthersKeepBooks(n, p, out0, acks0, taken, sent, cut, held, e);
    }
  }

  predicate PastHandshake(pc: PubPc) {
    !pc.PHandshake?
  }

  lemma NothingFollowed(p: Progress)
    ensures FollowAll(p, []) == p
  {
  }

  lemma FirstThenRest(p: Progress, calls: seq<PubEvent>)
    requires calls != [] && CanFollowAll(p, calls)
    ensures CanFollow(p, calls[0]) && CanFollowAll(Follow(p, calls[0]), calls[1..])
    ensures FollowAll(p, calls) == FollowAll(Follow(p, calls[0]), calls[1..])
  {
  }

  /** Whatever the calls' outcomes, a loop over a pool just started goes round the pool: the k-th index taken
      is k modulo its size, and the client gets exactly those indices, but for the last if its send fails. */
  lemma {:induction false} LoopKeepsBooks(n: u32, p: Progress, out0: seq<byte>, acks0: nat, taken: seq<u32>, sent: nat,
                                          cut: seq<byte>, held: Option<u32>, calls: seq<PubEvent>)
    returns (taken': seq<u32>, sent': nat, cut': seq<byte>, held': Option<u32>)
    requires n > 0 && Books(n, p, out0, acks0, taken, sent, cut, held) && PastHandshake(p.pc) && CanFollowAll(p, calls)
    ensures taken' == taken + TakenBy(calls)
    ensures Books(n, FollowAll(p, calls), out0, acks0, taken', sent', cut', held')
    decreases |calls|
  {
    hide Books, Follow, CanFollow, PastHandshake, Ring, EncodeAll, FollowAll, CanFollowAll, TakenBy;
    if calls == [] {
      taken', sent', cut', held' := taken, sent, cut, held;
      NothingFollowed(p);
      TakenByNothing();
    } else {
      FirstThenRest(p, calls);
      TakenByFirst(calls);
      var t, s, u, h := StepKeepsBooks(n, p, out0, acks0, taken, sent, cut, held, calls[0]);
      taken', sent', cut', held' := LoopKeepsBooks(n, Follow(p, calls[0]), out0, acks0, t, s, u, h, calls[1..]);
    }
  }

  lemma LoopGoesRound(header: Handshake, pool: Pool, out: seq<byte>, acks: nat, calls: seq<PubEvent>, end: Progress)
    requires Started(pool) && |pool.objs| > 0 && Led(Progress(header, PLoop, pool, out, acks), calls, end)
    ensures forall k :: 0 <= k < |TakenBy(calls)| ==> TakenBy(calls)[k] == k % |pool.objs|
    ensures exists sent: nat, cut: seq<byte> ::
              && sent <= |TakenBy(calls)| <= sent + 1 && |cut| < INDEX_SIZE
              && end.out == out + EncodeAll(TakenBy(calls)[..sent]) + cut
              && end.acks <= acks + sent <= end.acks + 1
  {
    var n: u32, start := |pool.objs|, Progress(header, PLoop, pool, out, acks);
    RingInitially(n);
    var none: seq<u32> := [];
    assert out + EncodeAll(none[..0]) + [] == out;
    var taken, sent, cut, held := LoopKeepsBooks(n, start, out, acks, [], 0, [], None, calls);
    assert taken == TakenBy(calls);
    forall k | 0 <= k < |taken|
      ensures taken[k] == k % n
    {
      HeadIsModulo(k, n);
    }
  }

  /** 0, 1, ..., n - 1, 0, ...: the first `turns` of them. */
  function RoundRobin(turns: nat, n: u32): (s: seq<u32>)
    requires n > 0
    ensures |s| == turns
  {
    seq(turns, k requires 0 <= k < turns => k % n)
  }

  /** After complete turns every index taken has been sent whole, and acked. */
  lemma WentRoundDelivers(header: Handshake, pool: Pool, turns: nat, out: seq<byte>, acks: nat)
    requires Started(pool) && |pool.objs| == header.bufCount > 0
    ensures WentRound(header, pool, turns, out, acks) ==>
              out == EncodeHandshake(header) + EncodeAll(RoundRobin(turns, header.bufCount)) && acks == turns
  {
    if WentRound(header, pool, turns, out, acks) {
      var n: u32, message := header.bufCount, EncodeHandshake(header);
      var start := Progress(header, PLoop, pool, message, 0);
      var body, after :| |TakenBy(body)| == turns && Led(start, body, Progress(header, PLoop, after, out, acks));
      RingInitially(n);
      var none: seq<u32> := [];
      assert message + EncodeAll(none[..0]) + [] == message;
      var taken, sent, cut, held := LoopKeepsBooks(n, start, message, 0, [], 0, [], None, body);
      assert taken == TakenBy(body) && taken[..sent] == taken && cut == [];
      forall k | 0 <= k < |taken|
        ensures taken[k] == k % n
      {
        HeadIsModulo(k, n);
      }
      assert taken == RoundRobin(turns, n);
    }
  }

  /** Whether a buffer is out of the queue. */
  function InHand(pc: PubPc): nat {
    if pc.PSend? || pc.PWait? || pc.PRequeue? || GivesBack(pc) then 1 else 0
  }

  /** How often the device refused to take a buffer back. */
  function Refused(calls: seq<PubEvent>): nat {
    if calls == [] then 0 else (if calls[0] == RequeueFailed then 1 else 0) + Refused(calls[1..])
  }

  /** Until the stream is stopped each buffer is in the queue, in hand, or refused: on every way out of the loop
      the one in hand was given back. */
  lemma {:induction false} BuffersConserved(p: Progress, calls: seq<PubEvent>, end: Progress)
    requires Led(p, calls, end) && PubStreaming(end.pc)
    ensures |end.pool.queue| + InHand(end.pc) + Refused(calls) == |p.pool.queue| + InHand(p.pc)
    decreases |calls|
  {
    if calls != [] {
      BuffersConserved(Follow(p, calls[0]), calls[1..], end);
      LedKeepsStreaming(Follow(p, calls[0]), calls[1..], end);
    }
  }

  /** What a client has got when the program is done: a part of the header and nothing else, or the header and the
      indices dequeued, round and round the pool, but for the last if its send failed, with at most one ack
      outstanding. */
  ghost predicate Delivered(header: Handshake, calls: seq<PubEvent>, out: seq<byte>, acks: nat)
    requires header.bufCount > 0 && calls != []
  {
    if calls[0].HandshakeFailed? then
      && calls[0].sent < HANDSHAKE_SIZE && out == EncodeHandshake(header)[..calls[0].sent]
      && TakenBy(calls) == [] && acks == 0
    else
      && calls[0].HandshakeSent?
      && (forall k :: 0 <= k < |TakenBy(calls)| ==> TakenBy(calls)[k] == k % header.bufCount)
      && exists sent: nat, cut: seq<byte> ::
           && sent <= |TakenBy(calls)| <= sent + 1 && |cut| < INDEX_SIZE
           && out == EncodeHandshake(header) + EncodeAll(TakenBy(calls)[..sent]) + cut
           && acks <= sent <= acks + 1
  }

  predicate OnTheWayOut(pc: PubPc) {
    pc.PCloseClient? || pc.PStreamOff? || !PubStreaming(pc)
  }

  /** On the way out nothing is dequeued or sent. */
  lemma {:induction false} NothingOnTheWayOut(p: Progress, calls: seq<PubEvent>, end: Progress)
    requires Led(p, calls, end) && OnTheWayOut(p.pc)
    ensures TakenBy(calls) == [] && end.out == p.out && end.acks == p.acks
    decreases |calls|
  {
    if calls != [] {
      NothingOnTheWayOut(Follow(p, calls[0]), calls[1..], end);
    }
  }

  lemma ServedIsDelivered(header: Handshake, pool: Pool, calls: seq<PubEvent>, client: Client)
    requires Served(header, pool, calls, client) && Started(pool) && |pool.objs| == header.bufCount > 0
    ensures Delivered(header, calls, client.out, client.acks)
  {
    var start := Progress(header, PHandshake, pool, [], 0);
    var end := Progress(header, PDone, GONE, client.out, client.acks);
    FirstThenRest(start, calls);
    var p := Follow(start, calls[0]);
    assert CanFollow(start, calls[0]) && Led(p, calls[1..], end);
    hide Led, EncodeAll, EncodeHandshake;
    assert TakenBy(calls) == [] + TakenBy(calls[1..]) == TakenBy(calls[1..]);
    var message := EncodeHandshake(header);
    assert p.out == if calls[0].HandshakeSent? then message else message[..calls[0].sent];
    if calls[0].HandshakeSent? {
      LoopGoesRound(header, pool, EncodeHandshake(header), 0, calls[1..], end);
    } else {
      NothingOnTheWayOut(p, calls[1..], end);
    }
  }

  // ---- the three programs, each leaving the descriptor table as it was ----

  /** The pool served was one just started, of distinct buffers, and the client was given the memory behind each
      index if it was given anything. */
  ghost predicate Shared(pool: Pool, header: Handshake, calls: seq<PubEvent>, rights: seq<Obj>) {
    && Started(pool) && Distinct(pool.objs) && |pool.objs| == header.bufCount
    && calls != [] && (calls[0].HandshakeSent? ==> rights == pool.objs)
  }

  /** With no call failing the client gets the header and `turns` indices round and round, and acks each. */
  ghost predicate AllDelivered(header: Handshake, turns: nat, out: seq<byte>, acks: nat)
    requires header.bufCount > 0
  {
    out == EncodeHandshake(header) + EncodeAll(RoundRobin(turns, header.bufCount)) && acks == turns
  }

  /** rust/publisher: `fourcc` is what v4l2_to_drm_fourcc makes of the negotiated format. */
  method RunMmap(k: Kernel, width: u32, height: u32, pixelFormat: u32, fourcc: Option<u32>, turns: nat)
    returns (client: Client?, calls: seq<PubEvent>, ghost exit: Exit, ghost header: Handshake, ghost pool: Pool,
             ghost format: Format, ghost granted: u32)
    requires k.Valid()
    modifies k
    ensures k.Valid() && k.fds == old(k.fds) && k.faults >= old(k.faults)
    ensures k.history == old(k.history) + exit.Acts() && InOrder(exit, client, calls)
    ensures k.faults == old(k.faults) ==> exit.device >= 0
    ensures exit.device >= 0 ==>
              exit.early == [FormatSet(exit.device, width, height, pixelFormat, format),
                             BuffersAsked(exit.device, true, 4, granted)]
    ensures client != null ==>
              && k.capable && fourcc.Some? && Announces(header, format, fourcc.value, granted)
              && |exit.present| == granted >= 2 && Shared(pool, header, calls, client.rights)
              && PublisherLog(calls) && Delivered(header, calls, client.out, client.acks)
    ensures k.faults == old(k.faults) ==> (client != null <==> fourcc.Some? && granted >= 2)
    ensures client != null && client.faults == 0 && k.faults == old(k.faults) ==>
              AllDelivered(header, turns, client.out, client.acks)
  {
    hide Exit.Acts, Closings, Ending, EncodeAll, EncodeHandshake, PublisherLog, Present, Ready, View, Leaving, Owns;
    hide WentRound;
    client, calls, exit, header, pool, format, granted := null, [], NOTHING, NO_HEADER, GONE, NO_FORMAT, 0;
    ghost var history := k.history;
    var cap, closed := CaptureMmap.V4l2Capture.Open(k, width, height, pixelFormat);
    if cap == null {
      exit := NOTHING.(early := Closings(closed));
      OnlyEarly(Closings(closed));
      return;
    }
    format := cap.format;
    ghost var atOpen := k.fds;
    NothingOwned(k.fds, cap.fd);
    var ok;
    ok, granted := cap.Start(4);
    ghost var early := [FormatSet(cap.fd, width, height, pixelFormat, format), BuffersAsked(cap.fd, true, 4, granted)];
    assert k.history == history + early;
    CloseRestores(atOpen, k.fds, cap.fd, BufFds(cap.buffers));
    SameTable(atOpen - {cap.fd}, old(k.fds));
    if !ok || fourcc.None? {
      NoClosings(k.history);
      exit := GiveUp(Mmap(cap), k.history, []);
      EarlierToo(history, early, exit);
      exit := exit.(early := early + exit.early);
      return;
    }
    pool := cap.Contents();
    client, calls, exit, header := Serve(Mmap(cap), fourcc.value, turns);
    EarlierToo(history, early, exit);
    exit := exit.(early := early + exit.early);
    if client != null {
      ServedIsDelivered(header, pool, calls, client);
      WentRoundDelivers(header, pool, turns, client.out, client.acks);
    }
  }

  /** publisher.cpp. */
  method RunCpp(k: Kernel, width: u32, height: u32, pixelFormat: u32, fourcc: Option<u32>, turns: nat)
    returns (client: Client?, calls: seq<PubEvent>, ghost exit: Exit, ghost header: Handshake, ghost pool: Pool,
             ghost format: Format, ghost granted: u32)
    requires k.Valid()
    modifies k
    ensures k.Valid() && k.fds == old(k.fds) && k.faults >= old(k.faults)
    ensures k.history == old(k.history) + exit.Acts() && InOrder(exit, client, calls)
    ensures client != null || k.faults == old(k.faults) ==> exit.device >= 0 && exit.early != []
    ensures exit.early != [] ==>
              exit.early == [FormatSet(exit.device, width, height, pixelFormat, format),
                             BuffersAsked(exit.device, true, 4, granted)]
    ensures client != null ==>
              && k.capable && fourcc.Some? && Announces(header, format, fourcc.value, granted)
              && |exit.present| == granted >= 2 && Shared(pool, header, calls, client.rights)
              && PublisherLog(calls) && Delivered(header, calls, client.out, client.acks)
    ensures k.faults == old(k.faults) ==> (client != null <==> fourcc.Some? && granted >= 2)
    ensures client != null && client.faults == 0 && k.faults == old(k.faults) ==>
              AllDelivered(header, turns, client.out, client.acks)
  {
    hide Exit.Acts, Closings, Ending, EncodeAll, EncodeHandshake, PublisherLog, Present, Ready, View, Leaving, Owns;
    hide WentRound;
    client, calls, exit, header, pool, format, granted := null, [], NOTHING, NO_HEADER, GONE, NO_FORMAT, 0;
    ghost var history := k.history;
    var cap := new CaptureCpp.V4l2Capture(k);
    NothingOwned(k.fds, cap.fd);
    var ok := cap.Open(width, height, pixelFormat);
    format := cap.format;
    ghost var atOpen := k.fds;
    if !ok {
      SameTable(atOpen - Owned(cap.fd, []), old(k.fds));
      NoClosings(k.history);
      exit := GiveUp(Cpp(cap), k.history, []);
      return;
    }
    ok, granted := cap.Start(4);
    ghost var early := [FormatSet(cap.fd, width, height, pixelFormat, format), BuffersAsked(cap.fd, true, 4, granted)];
    assert k.history == history + early;
    CloseRestores(atOpen, k.fds, cap.fd, BufFds(cap.buffers));
    SameTable(atOpen - {cap.fd}, old(k.fds));
    if !ok || fourcc.None? {
      NoClosings(k.history);
      exit := GiveUp(Cpp(cap), k.history, []);
      EarlierToo(history, early, exit);
      exit := exit.(early := early + exit.early);
      return;
    }
    pool := cap.Contents();
    client, calls, exit, header := Serve(Cpp(cap), fourcc.value, turns);
    EarlierToo(history, early, exit);
    exit := exit.(early := early + exit.early);
    if client != null {
      ServedIsDelivered(header, pool, calls, client);
      WentRoundDelivers(header, pool, turns, client.out, client.acks);
    }
  }

  lemma SuppliedRestores(start: map<int, File>, atOpen: map<int, File>, supplied: map<int, File>, now: map<int, File>,
                         fd: int, dmas: set<int>, kept: set<int>)
    requires fd !in start && atOpen == start[fd := Device(IDLE)]
    requires dmas !! atOpen.Keys && atOpen == supplied - dmas && kept <= dmas && dmas <= supplied.Keys
    requires CaptureDma.Shrinks(supplied, now, fd, dmas - kept)
    ensures now - ({fd} + kept) == start
  {
    var l := now - ({fd} + kept);
    assert forall x :: x in supplied - dmas <==> x in supplied && x !in dmas;
    assert forall x :: x in l <==> x in start;
    assert forall x :: x in start ==> l[x] == supplied[x] == atOpen[x] == start[x];
  }

  /** The end of publisher_dma, with the memory at hand. */
  method StartAndServe(cap: CaptureDma.V4l2CaptureDma, dmas: seq<int>, fourcc: u32, turns: nat,
                       ghost start: map<int, File>, ghost atOpen: map<int, File>)
    returns (client: Client?, calls: seq<PubEvent>, ghost exit: Exit, ghost header: Handshake, ghost pool: Pool,
             ghost granted: u32)
    requires cap.Holds() && cap.fd >= 0 && cap.k.fds[cap.fd] == Device(IDLE) && cap.buffers == [] && !cap.streaming
    requires OwnsAll(cap.k.fds, dmas) && Distinct(ObjsOf(cap.k.fds, dmas)) && |dmas| < 0x1_0000_0000
    requires cap.fd !in start && atOpen == start[cap.fd := Device(IDLE)]
    requires SetOf(dmas) !! atOpen.Keys && atOpen == cap.k.fds - SetOf(dmas) && SetOf(dmas) <= cap.k.fds.Keys
    modifies cap, cap.k
    ensures cap.k.Valid() && cap.k.fds == start && cap.k.faults >= old(cap.k.faults)
    ensures cap.k.history == old(cap.k.history) + exit.Acts() && InOrder(exit, client, calls)
    ensures client != null ==>
              exit.early == [BuffersAsked(exit.device, false, |dmas|, granted)]
    ensures client != null ==>
              && exit.device == old(cap.fd) && Announces(header, cap.format, fourcc, |dmas|)
              && 0 < |exit.present| == |dmas| && granted >= 2 && granted >= |dmas|
              && Shared(pool, header, calls, client.rights)
              && PublisherLog(calls) && Delivered(header, calls, client.out, client.acks)
    ensures cap.k.faults == old(cap.k.faults) ==> (client != null <==> granted >= 2 && granted >= |dmas|)
    ensures client != null && client.faults == 0 && cap.k.faults == old(cap.k.faults) ==>
              AllDelivered(header, turns, client.out, client.acks)
  {
    hide Exit.Acts, Closings, Ending, EncodeAll, EncodeHandshake, PublisherLog, Present, Ready, View, Leaving, Owns;
    hide WentRound;
    client, calls, exit, header, pool := null, [], NOTHING, NO_HEADER, GONE;
    ghost var supplied, history := cap.k.fds, cap.k.history;
    var ok;
    ghost var dropped;
    ok, granted, dropped := cap.Start(dmas);
    ghost var early := [BuffersAsked(cap.fd, false, |dmas|, granted)] + Closings(dropped);
    assert cap.k.history == history + early;
    SuppliedRestores(start, atOpen, supplied, cap.k.fds, cap.fd, SetOf(dmas), BufFds(cap.buffers));
    if !ok {
      NoClosings(cap.k.history);
      exit := GiveUp(Dma(cap), cap.k.history, []);
      EarlierToo(history, early, exit);
      exit := exit.(early := early + exit.early);
      return;
    }
    pool := cap.Contents();
    client, calls, exit, header := Serve(Dma(cap), fourcc, turns);
    EarlierToo(history, early, exit);
    exit := exit.(early := early + exit.early);
    if client != null {
      ServedIsDelivered(header, pool, calls, client);
      WentRoundDelivers(header, pool, turns, client.out, client.acks);
    }
  }

  /** What publisher_dma did before its teardown: the format, one allocation of the format's size for each buffer,
      the heap closed, and as many buffers asked for. */
  ghost predicate Supplied(early: seq<Act>, fd: int, width: u32, height: u32, pixelFormat: u32, format: Format,
                           count: u32, granted: u32)
  {
    exists dmas: seq<int>, heap: int ::
      && |dmas| == count
      && early == [FormatSet(fd, width, height, pixelFormat, format)] + Allocations(dmas, format.sizeImage)
                  + [Closed(heap), BuffersAsked(fd, false, count, granted)]
  }

  /** publisher_dma: the pool is as large as the user asked for. */
  method RunDma(k: Kernel, width: u32, height: u32, pixelFormat: u32, fourcc: Option<u32>, count: u32, turns: nat)
    returns (client: Client?, calls: seq<PubEvent>, ghost exit: Exit, ghost header: Handshake, ghost pool: Pool,
             ghost format: Format, ghost granted: u32)
    requires k.Valid()
    modifies k
    ensures k.Valid() && k.fds == old(k.fds) && k.faults >= old(k.faults)
    ensures k.history == old(k.history) + exit.Acts() && InOrder(exit, client, calls)
    ensures client != null ==>
              && k.capable && fourcc.Some? && Announces(header, format, fourcc.value, count)
              && Supplied(exit.early, exit.device, width, height, pixelFormat, format, count, granted)
              && 0 < |exit.present| == count && Shared(pool, header, calls, client.rights)
              && PublisherLog(calls) && Delivered(header, calls, client.out, client.acks)
    ensures k.faults == old(k.faults) ==> (client != null <==> fourcc.Some? && granted >= 2 && granted >= count)
    ensures client != null && client.faults == 0 && k.faults == old(k.faults) ==>
              AllDelivered(header, turns, client.out, client.acks)
  {
    hide Exit.Acts, Closings, Ending, EncodeAll, EncodeHandshake, PublisherLog, Allocations, AllDelivered, Delivered;
    hide Shared;
    client, calls, exit, header, pool, format, granted := null, [], NOTHING, NO_HEADER, GONE, NO_FORMAT, 0;
    ghost var history := k.history;
    var cap, closed := CaptureDma.V4l2CaptureDma.Open(k, width, height, pixelFormat);
    if cap == null {
      exit := NOTHING.(early := Closings(closed));
      OnlyEarly(Closings(closed));
      return;
    }
    format := cap.format;
    ghost var first := [FormatSet(cap.fd, width, height, pixelFormat, format)];
    ghost var atOpen := k.fds;
    SameTable(atOpen - Owned(cap.fd, []), old(k.fds));
    if fourcc.None? {
      NoClosings(k.history);
      exit := GiveUp(Dma(cap), k.history, []);
      EarlierToo(history, first, exit);
      exit := exit.(early := first + exit.early);
      return;
    }
    var ok, dmas, made, heaped := CaptureDma.AllocDmaHeap(k, cap.format.sizeImage, count);
    ghost var early := first + (Allocations(made, format.sizeImage) + Closings(heaped));
    assert k.history == history + early;
    if !ok {
      NoClosings(k.history);
      exit := GiveUp(Dma(cap), k.history, []);
      EarlierToo(history, early, exit);
      exit := exit.(early := early + exit.early);
      return;
    }
    assert cap.fd in k.fds && k.fds[cap.fd] == (k.fds - SetOf(dmas))[cap.fd] == Device(IDLE);
    assert cap.Holds();
    client, calls, exit, header, pool, granted := StartAndServe(cap, dmas, fourcc.value, turns, old(k.fds), atOpen);
    EarlierToo(history, early, exit);
    ghost var late := exit.early;
    exit := exit.(early := early + exit.early);
    if client != null {
      assert heaped == [heaped[0]];
      JustOneClosing(heaped[0]);
      assert exit.early == first + Allocations(dmas, format.sizeImage)
                           + [Closed(heaped[0]), BuffersAsked(exit.device, false, count, granted)];
    }
  }
}
