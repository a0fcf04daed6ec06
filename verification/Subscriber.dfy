/** The subscriber program: receive the handshake, show the frames it is told of, take everything down. */
module Subscriber {
  import opened Wire
  import opened Driver
  import opened Kernel
  import opened Protocol
  import opened Framing
  import Cmsg
  import Egl = Import
  import Pool

  /** Importing, drawing from and destroying one image per descriptor. */
  function Imaged(fds: seq<int>): seq<Act> {
    if fds == [] then []
    else
      var n := |fds| - 1;
      Imaged(fds[..n]) + [ImageMade(fds[n]), ImageGone(fds[n])]
  }

  lemma ImagedAppend(fds: seq<int>, fd: int)
    ensures Imaged(fds + [fd]) == Imaged(fds) + [ImageMade(fd), ImageGone(fd)]
  {
    assert (fds + [fd])[..|fds|] == fds;
  }

  /** An EGL image is of the memory behind the descriptor that it was made from, read as `picture` says. */
  datatype Image = Image(fd: int, obj: Obj, picture: Egl.Image)

  /** Each frame was read with the session's geometry. */
  predicate Pictured(drawn: seq<int>, pictures: seq<Egl.Image>, meta: Egl.Meta, hasModifiers: bool) {
    && |pictures| == |drawn|
    && forall j :: 0 <= j < |drawn| ==>
         0 <= drawn[j] < FD_LIMIT && pictures[j] == Egl.Meant(drawn[j], meta, hasModifiers)
  }

  lemma PicturedAppend(drawn: seq<int>, pictures: seq<Egl.Image>, meta: Egl.Meta, hasModifiers: bool, fd: int)
    requires Pictured(drawn, pictures, meta, hasModifiers) && 0 <= fd < FD_LIMIT
    ensures Pictured(drawn + [fd], pictures + [Egl.Meant(fd, meta, hasModifiers)], meta, hasModifiers)
  {
  }

  lemma NothingPictured(display: Display)
    ensures Pictured([], [], display.meta, display.hasModifiers)
  {
  }

  predicate Numbers(fds: seq<int>) {
    forall i :: 0 <= i < |fds| ==> 0 <= fds[i] < FD_LIMIT
  }

  lemma OwnedAreNumbers(k: Kernel, fds: seq<int>)
    requires k.Valid() && OwnsAll(k.fds, fds)
    ensures Numbers(fds)
  {
  }

  /** The memory behind each of the descriptors. */
  predicate Behind(fds: map<int, File>, list: seq<int>, objs: seq<Obj>) {
    && |objs| == |list|
    && forall j :: 0 <= j < |list| ==> list[j] in fds && fds[list[j]] == DmaBuf(objs[j])
  }

  lemma BehindAppend(fds: map<int, File>, list: seq<int>, objs: seq<Obj>, fd: int, obj: Obj)
    requires Behind(fds, list, objs) && Behind(fds, [fd], [obj])
    ensures Behind(fds, list + [fd], objs + [obj])
  {
    assert [fd][0] == fd;
  }

  /** The graphics side: live EGL images, and for each draw the descriptor and the memory it read from.  `faults`
      counts calls that failed. */
  class Display {
    const k: Kernel
    const hasModifiers: bool
    var meta: Egl.Meta   // the geometry of the session
    var faults: nat
    var live: map<int, Image>
    var drawn: seq<int>
    var shown: seq<Obj>
    var pictures: seq<Egl.Image>

    constructor (k: Kernel)
      ensures this.k == k && live == map[] && drawn == [] && shown == [] && pictures == [] && faults == 0
    {
      this.k, hasModifiers := k, *;
      meta := Egl.Meta(0, 0, 0, 0, 0);
      live, drawn, shown, pictures, faults := map[], [], [], [], 0;
    }

    /** Window, EGL and renderer come up, or something fails. */
    method SetUp() returns (ok: bool)
      modifies this`faults
      ensures faults == old(faults) + if ok then 0 else 1
    {
      ok := *;
      if !ok {
        faults := faults + 1;
      }
    }

    /** dispatch_pending. */
    method Dispatch() returns (ok: bool)
      modifies this`faults
      ensures faults == old(faults) + if ok then 0 else 1
    {
      ok := *;
      if !ok {
        faults := faults + 1;
      }
    }

    /** Since `base` every image made was drawn from and destroyed. */
    ghost predicate Idle(base: seq<Act>)
      reads this, k
    {
      && k.history == base + Imaged(drawn) && Behind(k.fds, drawn, shown)
      && Pictured(drawn, pictures, meta, hasModifiers)
    }

    /** import_dmabuf: a new image of an open buffer, of the geometry that a reader of the attributes finds, or none. */
    method Import(fd: int) returns (ok: bool, image: int)
      requires k.IsDmaBuf(fd) && 0 <= fd < FD_LIMIT
      modifies this`live, this`faults, k`history
      ensures faults == old(faults) + if ok then 0 else 1
      ensures ok ==>
                && image !in old(live)
                && live == old(live)[image := Image(fd, k.fds[fd].obj, Egl.Meant(fd, meta, hasModifiers))]
      ensures !ok ==> live == old(live)
      ensures k.history == old(k.history) + if ok then [ImageMade(fd)] else []
    {
      var attrs := Egl.BuildAttributes(fd, meta, hasModifiers);
      assert attrs == attrs + [];
      ok, image := *, *;
      if !ok || image in live {
        ok, faults := false, faults + 1;
      } else {
        live := live[image := Image(fd, k.fds[fd].obj, Egl.ReadImage(attrs).value)];
        k.history := k.history + [ImageMade(fd)];
      }
    }

    /** draw and swap_buffers: the GPU reads the image. */
    method DrawAndSwap(image: int)
      requires image in live
      modifies this`drawn, this`shown, this`pictures
      ensures drawn == old(drawn) + [live[image].fd] && shown == old(shown) + [live[image].obj]
      ensures pictures == old(pictures) + [live[image].picture]
    {
      drawn, shown, pictures := drawn + [live[image].fd], shown + [live[image].obj], pictures + [live[image].picture];
    }

    method DestroyImage(image: int)
      requires image in live
      modifies this`live, k`history
      ensures live == old(live) - {image} && k.history == old(k.history) + [ImageGone(old(live)[image].fd)]
    {
      k.history := k.history + [ImageGone(live[image].fd)];
      live := live - {image};
    }
  }

  /** The writing end for acks. */
  class Outbox {
    var acks: nat
    var faults: nat

    constructor ()
      ensures acks == 0 && faults == 0
    {
      acks, faults := 0, 0;
    }

    method SendAck() returns (ok: bool)
      modifies this
      ensures acks == old(acks) + (if ok then 1 else 0) && faults == old(faults) + (if ok then 0 else 1)
    {
      ok := *;
      if ok {
        acks := acks + 1;
      } else {
        faults := faults + 1;
      }
    }
  }

  // ---- what a sequence of events does ----

  datatype Progress = Progress(pc: SubPc, received: seq<u32>, drawn: seq<int>, acks: nat)

  /** `fds` are the session's descriptors. */
  predicate CanFollow(fds: seq<int>, p: Progress, e: SubEvent) {
    && SubNext(p.pc, e).Some?
    && (e.Imported? || e.ImportFailed? ==> p.pc.idx < |fds|)
    && (e.IndexOutOfBounds? ==> p.pc.idx >= |fds|)
    && (e.Drawn? ==> p.pc.idx < |fds|)
  }

  function Follow(fds: seq<int>, p: Progress, e: SubEvent): Progress
    requires CanFollow(fds, p, e)
  {
    var q := p.(pc := SubNext(p.pc, e).value);
    match e
    case ByteReceived(_) => if q.pc.SImport? then q.(received := p.received + [q.pc.idx]) else q
    case Drawn => q.(drawn := p.drawn + [fds[p.pc.idx]])
    case AckSent => q.(acks := p.acks + 1)
    case _ => q
  }

  predicate CanFollowAll(fds: seq<int>, p: Progress, events: seq<SubEvent>)
    decreases |events|
  {
    events == [] || (CanFollow(fds, p, events[0]) && CanFollowAll(fds, Follow(fds, p, events[0]), events[1..]))
  }

  function FollowAll(fds: seq<int>, p: Progress, events: seq<SubEvent>): Progress
    requires CanFollowAll(fds, p, events)
    decreases |events|
  {
    if events == [] then p else FollowAll(fds, Follow(fds, p, events[0]), events[1..])
  }

  lemma {:induction false} FollowMore(fds: seq<int>, p: Progress, events: seq<SubEvent>, e: SubEvent)
    requires CanFollowAll(fds, p, events) && CanFollow(fds, FollowAll(fds, p, events), e)
    ensures CanFollowAll(fds, p, events + [e])
    ensures FollowAll(fds, p, events + [e]) == Follow(fds, FollowAll(fds, p, events), e)
    decreases |events|
  {
    if events == [] {
      assert events + [e] == [e] && [e][1..] == [];
    } else {
      assert (events + [e])[1..] == events[1..] + [e];
      FollowMore(fds, Follow(fds, p, events[0]), events[1..], e);
    }
  }

  /** An event log that leads from `before` to `now`. */
  predicate Led(fds: seq<int>, before: Progress, events: seq<SubEvent>, now: Progress) {
    CanFollowAll(fds, before, events) && FollowAll(fds, before, events) == now
  }

  lemma {:induction false} LedThen(fds: seq<int>, a: Progress, first: seq<SubEvent>, b: Progress,
                                   second: seq<SubEvent>, c: Progress)
    requires Led(fds, a, first, b) && Led(fds, b, second, c)
    ensures Led(fds, a, first + second, c)
    decreases |first|
  {
    if first == [] {
      assert first + second == second;
    } else {
      assert (first + second)[1..] == first[1..] + second;
      LedThen(fds, Follow(fds, a, first[0]), first[1..], b, second, c);
    }
  }

  lemma LedNowhere(fds: seq<int>, p: Progress)
    ensures Led(fds, p, [], p)
  {
  }

  method Note(ghost fds: seq<int>, ghost start: Progress, events: seq<SubEvent>, ghost now: Progress, e: SubEvent)
    returns (events': seq<SubEvent>, ghost next: Progress)
    requires Led(fds, start, events, now) && CanFollow(fds, now, e)
    ensures next == Follow(fds, now, e) && Led(fds, start, events', next) && events' == events + [e]
  {
    FollowMore(fds, start, events, e);
    events', next := events + [e], Follow(fds, now, e);
  }

  /** The four bytes of a received index. */
  method NoteIndex(ghost fds: seq<int>, ghost start: Progress, events: seq<SubEvent>, ghost now: Progress, idx: u32)
    returns (events': seq<SubEvent>, ghost next: Progress)
    requires Led(fds, start, events, now) && now.pc == SRecv([])
    ensures next == now.(pc := SImport(idx), received := now.received + [idx]) && Led(fds, start, events', next)
    ensures var b := EncodeU32(idx);
            events' == events + [ByteReceived(b[0]), ByteReceived(b[1]), ByteReceived(b[2]), ByteReceived(b[3])]
  {
    hide Led, CanFollowAll, FollowAll;
    var b := EncodeU32(idx);
    U32RoundTrip(idx, b);
    hide EncodeU32, DecodeU32;
    events', next := Note(fds, start, events, now, ByteReceived(b[0]));
    assert next.pc.got == b[..1];
    events', next := Note(fds, start, events', next, ByteReceived(b[1]));
    assert next.pc.got == b[..2];
    events', next := Note(fds, start, events', next, ByteReceived(b[2]));
    assert next.pc.got == b[..3];
    assert next.pc.got + [b[3]] == b;
    events', next := Note(fds, start, events', next, ByteReceived(b[3]));
  }

  function At(pc: SubPc, received: seq<u32>, display: Display, out: Outbox): Progress
    reads display, out
  {
    Progress(pc, received, display.drawn, out.acks)
  }

  /** Failures of the calls that a turn makes. */
  function Ails(inbox: Inbox, display: Display, out: Outbox): nat
    reads inbox, display, out
  {
    inbox.faults + display.faults + out.faults
  }

  /** Neither a stop nor the end of the stream. */
  predicate Amid(e: SubEvent) {
    e != StopSeen && e != EofSeen
  }

  /** draw_one: whatever happens, no image outlives it, and only a frame that was drawn and whose image is
      gone is acked.  An index outside the list unwinds the program. */
  method DrawOne(fds: seq<int>, idx: u32, display: Display, out: Outbox, ghost start: Progress,
                 events: seq<SubEvent>, ghost received: seq<u32>, ghost base: seq<Act>)
    returns (events': seq<SubEvent>, ok: bool)
    requires Led(fds, start, events, At(SImport(idx), received, display, out))
    requires display.Idle(base) && OwnsAll(display.k.fds, fds) && Numbers(fds)
    modifies display, display.k`history, out
    ensures display.live == old(display.live) && display.meta == old(display.meta) && display.Idle(base)
    ensures Led(fds, start, events', At(if ok then SDispatch else SDropGraphics, received, display, out))
    ensures display.faults >= old(display.faults) && out.faults >= old(out.faults)
    ensures events' != [] && Amid(events'[|events'| - 1])
    ensures ok ==> idx < |fds| && display.drawn == old(display.drawn) + [fds[idx]] && out.acks == old(out.acks) + 1
    ensures !ok ==> idx >= |fds| || display.faults > old(display.faults) || out.faults > old(out.faults)
  {
    hide Led, DecodeU32, Imaged, Egl.Meant, Pictured;
    ghost var now := At(SImport(idx), received, display, out);
    ok := false;
    if idx >= |fds| {
      events', now := Note(fds, start, events, now, IndexOutOfBounds);
      return;
    }
    var image;
    ok, image := display.Import(fds[idx]);
    if !ok {
      events', now := Note(fds, start, events, now, ImportFailed);
      return;
    }
    events', now := Note(fds, start, events, now, Imported);
    events', ok := Show(fds, idx, image, display, out, start, events', received, base);
  }

  /** The rest of draw_one, with a live image. */
  method Show(fds: seq<int>, idx: u32, image: int, display: Display, out: Outbox, ghost start: Progress,
              events: seq<SubEvent>, ghost received: seq<u32>, ghost base: seq<Act>)
    returns (events': seq<SubEvent>, ok: bool)
    requires idx < |fds| && image in display.live && display.live[image].fd == fds[idx] && 0 <= fds[idx] < FD_LIMIT
    requires display.live[image].picture == Egl.Meant(fds[idx], display.meta, display.hasModifiers)
    requires Pictured(display.drawn, display.pictures, display.meta, display.hasModifiers)
    requires Behind(display.k.fds, [fds[idx]], [display.live[image].obj])
    requires Behind(display.k.fds, display.drawn, display.shown)
    requires Led(fds, start, events, At(SDraw(idx), received, display, out))
    requires display.k.history == base + Imaged(display.drawn) + [ImageMade(fds[idx])]
    modifies display, display.k`history, out
    ensures display.live == old(display.live) - {image} && display.meta == old(display.meta) && display.Idle(base)
    ensures Led(fds, start, events', At(if ok then SDispatch else SDropGraphics, received, display, out))
    ensures display.faults == old(display.faults) && out.faults == old(out.faults) + if ok then 0 else 1
    ensures events' != [] && Amid(events'[|events'| - 1])
    ensures display.drawn == old(display.drawn) + [fds[idx]] && (ok ==> out.acks == old(out.acks) + 1)
  {
    hide Led, DecodeU32, Imaged, Behind, Pictured, Egl.Meant, Kernel.Valid;
    events' := DrawAndDestroy(fds, idx, image, display, out, start, events, received, base);
    ghost var now := At(SAck(idx), received, display, out);
    ok := out.SendAck();
    events', now := Note(fds, start, events', now, if ok then AckSent else AckNotSent);
  }

  method DrawAndDestroy(fds: seq<int>, idx: u32, image: int, display: Display, ghost out: Outbox, ghost start: Progress,
                        events: seq<SubEvent>, ghost received: seq<u32>, ghost base: seq<Act>)
    returns (events': seq<SubEvent>)
    requires idx < |fds| && image in display.live && display.live[image].fd == fds[idx] && 0 <= fds[idx] < FD_LIMIT
    requires display.live[image].picture == Egl.Meant(fds[idx], display.meta, display.hasModifiers)
    requires Pictured(display.drawn, display.pictures, display.meta, display.hasModifiers)
    requires Behind(display.k.fds, [fds[idx]], [display.live[image].obj])
    requires Behind(display.k.fds, display.drawn, display.shown)
    requires Led(fds, start, events, At(SDraw(idx), received, display, out))
    requires display.k.history == base + Imaged(display.drawn) + [ImageMade(fds[idx])]
    modifies display`live, display`drawn, display`shown, display`pictures, display.k`history
    ensures display.live == old(display.live) - {image} && display.Idle(base)
    ensures Led(fds, start, events', At(SAck(idx), received, display, out))
    ensures display.drawn == old(display.drawn) + [fds[idx]]
  {
    hide Led, DecodeU32, Imaged, Behind, Pictured, Egl.Meant, Kernel.Valid;
    ImagedAppend(display.drawn, fds[idx]);
    PicturedAppend(display.drawn, display.pictures, display.meta, display.hasModifiers, fds[idx]);
    BehindAppend(display.k.fds, display.drawn, display.shown, fds[idx], display.live[image].obj);
    ghost var now := At(SDraw(idx), received, display, out);
    display.DrawAndSwap(image);
    events', now := Note(fds, start, events, now, Drawn);
    display.DestroyImage(image);
    assert display.Idle(base) by {
      assert base + Imaged(old(display.drawn)) + [ImageMade(fds[idx])] + [ImageGone(fds[idx])]
          == base + (Imaged(old(display.drawn)) + [ImageMade(fds[idx]), ImageGone(fds[idx])]);
    }
    events', now := Note(fds, start, events', now, Destroyed);
  }

  /** One turn of the loop. */
  method Turn(fds: seq<int>, inbox: Inbox, display: Display, out: Outbox, ghost start: Progress,
              events: seq<SubEvent>, ghost received: seq<u32>, ghost base: seq<Act>)
    returns (events': seq<SubEvent>, goOn: bool, ghost received': seq<u32>)
    requires Led(fds, start, events, At(SLoop, received, display, out))
    requires display.Idle(base) && OwnsAll(display.k.fds, fds) && Numbers(fds)
    modifies inbox, display, display.k`history, out
    ensures display.live == old(display.live) && display.meta == old(display.meta) && display.Idle(base)
    ensures Led(fds, start, events', At(if goOn then SLoop else SDropGraphics, received', display, out))
    ensures received' == received || (|received'| == |received| + 1 && received <= received')
    ensures inbox.faults >= old(inbox.faults)
    ensures received' != received ==>
              old(inbox.Pending()) == EncodeU32(received'[|received|]) + inbox.Pending()
    ensures received' == received ==> !goOn && display.drawn == old(display.drawn) && out.acks == old(out.acks)
    ensures goOn ==> |display.drawn| == |old(display.drawn)| + 1 && out.acks == old(out.acks) + 1
    ensures Ails(inbox, display, out) >= old(Ails(inbox, display, out))
    ensures !goOn ==>
              || Ails(inbox, display, out) > old(Ails(inbox, display, out)) || |old(inbox.Pending())| < INDEX_SIZE
              || (received' != received && received'[|received|] >= |fds|)
    ensures events' != [] && events'[|events'| - 1] != StopSeen
    ensures events'[|events'| - 1] == EofSeen ==> !goOn && received' == received && old(inbox.Pending()) == []
  {
    hide Led, EncodeU32, DecodeU32, OwnsAll, Behind, Imaged, Flatten, Pictured, Numbers, Egl.Meant;
    received' := received;
    goOn := false;
    ghost var now := At(SLoop, received, display, out);
    events', now := Note(fds, start, events, now, KeepGoing);
    var r := inbox.RecvIdx();
    if r.PeerClosed? {
      events', now := Note(fds, start, events', now, EofSeen);
    } else if r.Failed? {
      events', now := Note(fds, start, events', now, RecvFailed);
    } else {
      events', now := NoteIndex(fds, start, events', now, r.idx);
      received' := received + [r.idx];
      events', goOn := Work(fds, r.idx, display, out, start, events', received', base);
    }
  }

  /** The rest of a turn, with an index received. */
  method Work(fds: seq<int>, idx: u32, display: Display, out: Outbox, ghost start: Progress,
              events: seq<SubEvent>, ghost received: seq<u32>, ghost base: seq<Act>)
    returns (events': seq<SubEvent>, goOn: bool)
    requires Led(fds, start, events, At(SImport(idx), received, display, out))
    requires display.Idle(base) && OwnsAll(display.k.fds, fds) && Numbers(fds)
    modifies display, display.k`history, out
    ensures display.live == old(display.live) && display.meta == old(display.meta) && display.Idle(base)
    ensures Led(fds, start, events', At(if goOn then SLoop else SDropGraphics, received, display, out))
    ensures display.faults >= old(display.faults) && out.faults >= old(out.faults)
    ensures events' != [] && Amid(events'[|events'| - 1])
    ensures goOn ==> idx < |fds| && display.drawn == old(display.drawn) + [fds[idx]] && out.acks == old(out.acks) + 1
    ensures !goOn ==> idx >= |fds| || display.faults > old(display.faults) || out.faults > old(out.faults)
  {
    hide Led, DecodeU32, OwnsAll, Behind, Imaged, Pictured, Numbers, Egl.Meant;
    events', goOn := DrawOne(fds, idx, display, out, start, events, received, base);
    if goOn {
      goOn := display.Dispatch();
      ghost var now := At(SDispatch, received, display, out);
      events', now := Note(fds, start, events', now, if goOn then Dispatched else DispatchFailed);
    }
  }

  function Prefix<T>(s: seq<T>, n: nat): seq<T> {
    if |s| <= n then s else s[..n]
  }

  ghost predicate InRange(idxs: seq<u32>, n: nat) {
    forall k :: 0 <= k < |idxs| ==> idxs[k] < n
  }

  /** If every index in the stream is one of the session's, then the first `turns` of them, or all, were received, and
      each was shown and acked. */
  ghost predicate ShowsAll(stream: seq<byte>, n: nat, turns: nat, received: seq<u32>, shown: nat, acks: nat) {
    InRange(DecodeAll(stream), n) ==>
      received == Prefix(DecodeAll(stream), turns) && shown == |received| && acks == |received|
  }

  /** What a turn reads off the stream. */
  lemma OneMoreRead(all: seq<byte>, had: seq<u32>, before: seq<byte>, next: u32, rest: seq<byte>)
    requires all == EncodeAll(had) + before && before == EncodeU32(next) + rest
    ensures all == EncodeAll(had + [next]) + rest
  {
    hide EncodeAll, EncodeU32;
    EncodeAllAppend(had, next);
  }

  /** Having read `received` with `rest` to come, a reader is through with the whole indices if no more than three
      bytes are left, and has read the first of them in any case. */
  lemma ReadSoFar(all: seq<byte>, received: seq<u32>, rest: seq<byte>)
    requires all == EncodeAll(received) + rest
    ensures received <= DecodeAll(all)
    ensures |rest| < INDEX_SIZE ==> received == DecodeAll(all)
    ensures rest == [] ==> EncodeAll(received) == all
  {
    PrefixDecodes(received, all);
    if |rest| < INDEX_SIZE {
      DecodeAllRoundTrip(received, rest);
    }
  }

  /** The loop, for a stop that is seen before turn number `turns`: it ends with no image live, having worked
      on indices exactly as they stand in the stream: that many of them, or all, or some call failed. */
  method Loop(fds: seq<int>, inbox: Inbox, display: Display, out: Outbox, turns: nat, ghost base: seq<Act>)
    returns (events: seq<SubEvent>, ghost received: seq<u32>)
    requires display.Idle(base) && OwnsAll(display.k.fds, fds) && Numbers(fds)
    modifies inbox, display, display.k`history, out
    ensures display.live == old(display.live) && display.meta == old(display.meta) && display.Idle(base)
    ensures Led(fds, old(At(SLoop, [], display, out)), events, At(SDropGraphics, received, display, out))
    ensures EncodeAll(received) <= old(inbox.Pending()) && inbox.faults >= old(inbox.faults)
    ensures events != []
    ensures events[|events| - 1] == StopSeen ==> |received| == turns
    ensures events[|events| - 1] == EofSeen ==> EncodeAll(received) == old(inbox.Pending())
    ensures Ails(inbox, display, out) >= old(Ails(inbox, display, out))
    ensures Ails(inbox, display, out) == old(Ails(inbox, display, out))
            && InRange(DecodeAll(old(inbox.Pending())), |fds|) ==>
              && received == Prefix(DecodeAll(old(inbox.Pending())), turns)
              && |display.drawn| == |old(display.drawn)| + |received| && out.acks == old(out.acks) + |received|
  {
    hide Led, EncodeU32, EncodeAll, DecodeAll, OwnsAll, Imaged, Behind, Flatten;
    ghost var start, ails := At(SLoop, [], display, out), Ails(inbox, display, out);
    LedNowhere(fds, start);
    events, received := [], [];
    var turn, goOn := 0, true;
    ghost var all := inbox.Pending();
    assert all == EncodeAll([]) + all by { NothingEncoded(); }
    while goOn && turn < turns
      invariant display.live == old(display.live) && display.meta == old(display.meta) && display.Idle(base)
      invariant inbox.faults >= old(inbox.faults)
      invariant Led(fds, start, events, At(if goOn then SLoop else SDropGraphics, received, display, out))
      invariant EncodeAll(received) <= all && Ails(inbox, display, out) >= ails && turn <= turns
      invariant goOn ==> all == EncodeAll(received) + inbox.Pending() && |received| == turn
      invariant goOn ==> |display.drawn| == |start.drawn| + turn && out.acks == start.acks + turn
      invariant !goOn ==> events != [] && events[|events| - 1] != StopSeen && |received| <= turns
      invariant !goOn && events[|events| - 1] == EofSeen ==> EncodeAll(received) == all
      invariant !goOn && Ails(inbox, display, out) == ails && InRange(DecodeAll(all), |fds|) ==>
                  && received == DecodeAll(all)
                  && |display.drawn| == |start.drawn| + |received| && out.acks == start.acks + |received|
      decreases turns - turn
    {
      ghost var had, before := received, inbox.Pending();
      ReadSoFar(all, had, before);
      events, goOn, received := Turn(fds, inbox, display, out, start, events, received, base);
      if received != had {
        OneMoreRead(all, had, before, received[|had|], inbox.Pending());
        assert received == had + [received[|had|]];
        ReadSoFar(all, received, inbox.Pending());
        assert |before| >= INDEX_SIZE;
      }
      turn := turn + 1;
    }
    if goOn {
      ReadSoFar(all, received, inbox.Pending());
      ghost var now := At(SLoop, received, display, out);
      events, now := Note(fds, start, events, now, StopSeen);
    }
  }

  lemma NothingEncoded()
    ensures EncodeAll([]) == []
  {
  }

  // ---- what every log of the loop says ----

  /** The frames drawn are those of the indices received, in order, but perhaps for the last, and every ack
      is for a frame drawn. */
  predicate Books(fds: seq<int>, p: Progress, drawn0: seq<int>, acks0: nat, drawn: nat) {
    && drawn <= |p.received| <= drawn + 1
    && (forall k :: 0 <= k < drawn ==> p.received[k] < |fds|)
    && p.drawn == drawn0 + seq(drawn, k requires 0 <= k < drawn && k < |p.received| =>
                                 if p.received[k] < |fds| then fds[p.received[k]] else -1)
    && acks0 <= p.acks <= acks0 + drawn <= p.acks + 1
    && (p.pc.SHandshake? || p.pc.SSetup? || p.pc.SLoop? || p.pc.SRecv? || p.pc.SDispatch? ==>
          |p.received| == drawn && p.acks == acks0 + drawn)
    && (p.pc.SImport? || p.pc.SDraw? ==>
          |p.received| == drawn + 1 && p.acks == acks0 + drawn && p.received[drawn] == p.pc.idx)
    && (p.pc.SDestroy? || p.pc.SAck? ==> |p.received| == drawn && p.acks + 1 == acks0 + drawn)
  }

  lemma StepKeepsBooks(fds: seq<int>, p: Progress, drawn0: seq<int>, acks0: nat, drawn: nat, e: SubEvent)
    returns (drawn': nat)
    requires Books(fds, p, drawn0, acks0, drawn) && CanFollow(fds, p, e)
    ensures Books(fds, Follow(fds, p, e), drawn0, acks0, drawn')
  {
    hide DecodeU32;
    drawn' := if e.Drawn? then drawn + 1 else drawn;
  }

  lemma {:induction false} LoopKeepsBooks(fds: seq<int>, p: Progress, drawn0: seq<int>, acks0: nat, drawn: nat,
                                          events: seq<SubEvent>)
    returns (drawn': nat)
    requires Books(fds, p, drawn0, acks0, drawn) && CanFollowAll(fds, p, events)
    ensures Books(fds, FollowAll(fds, p, events), drawn0, acks0, drawn')
    decreases |events|
  {
    hide Books, Follow, CanFollow;
    drawn' := drawn;
    if events != [] {
      drawn' := StepKeepsBooks(fds, p, drawn0, acks0, drawn, events[0]);
      drawn' := LoopKeepsBooks(fds, Follow(fds, p, events[0]), drawn0, acks0, drawn', events[1..]);
    }
  }

  /** Whatever the calls' outcomes, a program draws from the descriptors named by the indices it received, in
      that order, each before its ack. */
  lemma LoopShowsWhatItIsTold(fds: seq<int>, start: Progress, events: seq<SubEvent>, end: Progress)
    requires (start.pc == SHandshake || start.pc == SLoop) && start.received == [] && Led(fds, start, events, end)
    ensures exists drawn: nat :: Books(fds, end, start.drawn, start.acks, drawn)
  {
    assert start.drawn == start.drawn + [];
    var drawn := LoopKeepsBooks(fds, start, start.drawn, start.acks, 0, events);
  }

  // ---- the whole program ----

  /** The table survives the handshake exactly if every descriptor that the kernel installed gets into the list. */
  predicate Accounted(taken: seq<byte>, installed: nat, rights: seq<Obj>) {
    taken == [] || installed == 0 || (|taken| == HANDSHAKE_SIZE && installed == |rights|)
  }

  /** The same without a look at the results: nothing had arrived, nothing was attached, or the header arrived whole
      with no more descriptors than the ancillary buffer holds. */
  predicate Kept(first: seq<byte>, rights: seq<Obj>) {
    first == [] || rights == [] || (|first| >= HANDSHAKE_SIZE && |rights| <= MAX_FDS)
  }

  const NO_HEADER := Handshake(0, 0, 0, 0, 0, 0)

  /** recv_handshake: header and descriptors.  The kernel installs as many as fit; when that is not all, none is
      seen.  The descriptors of a message with the wrong count are closed again. */
  method RecvHandshake(k: Kernel, inbox: Inbox, rights: seq<Obj>)
    returns (ok: bool, header: Handshake, fds: seq<u32>, taken: seq<byte>, ghost installed: nat, ghost lost: seq<u32>,
             ghost dropped: seq<u32>)
    requires k.Valid() && forall o :: o in rights ==> o < k.nextObj
    modifies k`fds, k`faults, k`history, inbox
    ensures k.Valid() && k.faults >= old(k.faults) && inbox.faults >= old(inbox.faults)
    ensures taken + inbox.Pending() == old(inbox.Pending()) && |taken| <= HANDSHAKE_SIZE
    ensures taken == if inbox.faults != old(inbox.faults) then []
                     else Prefix(FirstChunk(old(inbox.chunks)), HANDSHAKE_SIZE)
    ensures installed <= |rights|
    ensures taken != [] && k.faults == old(k.faults) ==> installed == |Prefix(rights, MAX_FDS)|
    ensures ok <==> |taken| == HANDSHAKE_SIZE && DecodeHandshake(taken).bufCount == |Seen(installed, rights)|
    ensures ok ==> header == DecodeHandshake(taken)
    ensures OwnsAll(k.fds, fds) && SetOf(fds) !! old(k.fds).Keys
    ensures ObjsOf(k.fds, fds) == if ok then Seen(installed, rights) else []
    ensures k.fds - SetOf(fds) == old(k.fds) <==> Accounted(taken, installed, rights)
    ensures Installed(old(k.fds), k.fds - SetOf(fds), lost, rights)
    ensures |lost| == if Accounted(taken, installed, rights) then 0 else installed
    ensures if ok then |fds| == |Seen(installed, rights)|
            else fds == [] && (k.fds == old(k.fds) <==> Accounted(taken, installed, rights))
    ensures forall x :: x in old(k.fds) ==> x in k.fds && k.fds[x] == old(k.fds)[x]
    ensures k.history == old(k.history) + Closings(dropped) && (ok ==> dropped == [])
  {
    var n;
    n, taken := inbox.Recv(HANDSHAKE_SIZE);
    ok, header, fds, installed, lost, dropped := false, NO_HEADER, [], 0, [], [];
    NothingHeld(k.fds);
    if n <= 0 {
      return;
    }
    ok, header, fds, installed, lost, dropped := TakeRights(k, taken, rights);
  }

  /** What a receiver is shown: everything, or nothing of what is not everything. */
  function Seen(installed: nat, rights: seq<Obj>): seq<Obj> {
    if installed == |rights| then rights else []
  }

  /** The rest of recv_handshake, with bytes read. */
  method TakeRights(k: Kernel, taken: seq<byte>, rights: seq<Obj>)
    returns (ok: bool, header: Handshake, fds: seq<u32>, ghost installed: nat, ghost lost: seq<u32>,
             ghost dropped: seq<u32>)
    requires k.Valid() && taken != [] && forall o :: o in rights ==> o < k.nextObj
    modifies k`fds, k`faults, k`history
    ensures k.Valid() && k.faults >= old(k.faults)
    ensures installed <= |rights| && (k.faults == old(k.faults) ==> installed == |Prefix(rights, MAX_FDS)|)
    ensures ok <==> |taken| == HANDSHAKE_SIZE && DecodeHandshake(taken).bufCount == |Seen(installed, rights)|
    ensures ok ==> header == DecodeHandshake(taken)
    ensures OwnsAll(k.fds, fds) && SetOf(fds) !! old(k.fds).Keys
    ensures ObjsOf(k.fds, fds) == if ok then Seen(installed, rights) else []
    ensures k.fds - SetOf(fds) == old(k.fds) <==> Accounted(taken, installed, rights)
    ensures Installed(old(k.fds), k.fds - SetOf(fds), lost, rights)
    ensures |lost| == if Accounted(taken, installed, rights) then 0 else installed
    ensures if ok then |fds| == |Seen(installed, rights)|
            else fds == [] && (k.fds == old(k.fds) <==> Accounted(taken, installed, rights))
    ensures forall x :: x in old(k.fds) ==> x in k.fds && k.fds[x] == old(k.fds)[x]
    ensures k.history == old(k.history) + Closings(dropped) && (ok ==> dropped == [])
  {
    hide DecodeHandshake, Cmsg.AllRights, OwnsAll, ObjsOf, SetOf, Installed;
    ghost var before := k.fds;
    assert forall o :: o in Prefix(rights, MAX_FDS) ==> o in rights;
    var news := k.Install(Prefix(rights, MAX_FDS));
    installed := |news|;
    InstalledTable(before, k.fds, news, Prefix(rights, MAX_FDS));
    assert Installed(before, k.fds, news, rights) by { InstalledPrefix(before, k.fds, news, rights, MAX_FDS); }
    NothingHeld(k.fds);
    Cmsg.InstalledIsRead(news, |news| < |rights|);
    var outcome, owned := Cmsg.RecvHandshakeRust(taken, Cmsg.Delivered(news, |news| < |rights|));
    dropped := owned;
    CloseAll(k, owned);
    NothingHeld(k.fds);
    ok, header, fds := false, NO_HEADER, [];
    if outcome.Accepted? {
      ok, header, fds := true, outcome.header, outcome.fds;
    }
    lost := if k.fds - SetOf(fds) == before then [] else news;
    NothingInstalled(before, rights);
  }

  lemma NothingInstalled(fds: map<int, File>, rights: seq<Obj>)
    ensures Installed(fds, fds, [], rights)
  {
  }

  lemma NothingHeld(fds: map<int, File>)
    ensures OwnsAll(fds, []) && ObjsOf(fds, []) == []
    ensures SetOf([]) == {} && fds - SetOf([]) == fds
  {
  }

  lemma InstalledPrefix(before: map<int, File>, after: map<int, File>, news: seq<u32>, rights: seq<Obj>, n: nat)
    requires Installed(before, after, news, Prefix(rights, n))
    ensures Installed(before, after, news, rights)
  {
  }

  lemma InstalledTable(before: map<int, File>, after: map<int, File>, news: seq<u32>, rights: seq<Obj>)
    requires Installed(before, after, news, rights)
    ensures OwnsAll(after, news) && ObjsOf(after, news) == rights[..|news|]
    ensures |news| <= |rights|
    ensures after - SetOf(news) == before && SetOf(news) !! before.Keys
    ensures news != [] <==> after != before
    ensures forall x :: x in before ==> x in after && x !in SetOf(news) && after[x] == before[x]
  {
    Pool.SameTable(after - SetOf(news), before);
    if news != [] {
      assert news[0] in SetOf(news);
    } else {
      Pool.SameTable(after, before);
    }
  }

  /** Without failing calls the condition on the results is the one on the inputs. */
  lemma AccountedExactlyWhen(taken: seq<byte>, installed: nat, first: seq<byte>, rights: seq<Obj>)
    requires taken == [] || (taken == Prefix(first, HANDSHAKE_SIZE) && installed == |Prefix(rights, MAX_FDS)|)
    ensures Accounted(taken, installed, rights) <==> taken == [] || Kept(first, rights)
    ensures taken == Prefix(first, HANDSHAKE_SIZE) ==> (Accounted(taken, installed, rights) <==> Kept(first, rights))
  {
  }

  /** At the end of the program: what was drawn is what was told, but for at most the last. */
  ghost predicate Told(fds: seq<int>, received: seq<u32>, drawn: seq<int>, acks: nat) {
    exists n: nat :: Books(fds, Progress(SDone, received, drawn, acks), [], 0, n)
  }

  /** What a receiver sees of the descriptors when no call fails. */
  function Visible(rights: seq<Obj>): seq<Obj> {
    if |rights| <= MAX_FDS then rights else []
  }

  /** The header arrives whole in the first fragment and counts the descriptors seen. */
  predicate Acceptable(first: seq<byte>, rights: seq<Obj>) {
    |first| >= HANDSHAKE_SIZE && DecodeHandshake(first[..HANDSHAKE_SIZE]).bufCount == |Visible(rights)|
  }

  /** When no call fails: everything that comes after an acceptable header is shown, and nothing otherwise. */
  ghost predicate ShowsWhatCame(first: seq<byte>, stream: seq<byte>, rights: seq<Obj>, turns: nat, received: seq<u32>,
                                shown: nat, acks: nat)
  {
    if Acceptable(first, rights) && |stream| >= HANDSHAKE_SIZE
    then ShowsAll(stream[HANDSHAKE_SIZE..], |Visible(rights)|, turns, received, shown, acks)
    else received == [] && shown == 0 && acks == 0
  }

  lemma AcceptedIsShown(first: seq<byte>, all: seq<byte>, taken: seq<byte>, rest: seq<byte>, installed: nat,
                        rights: seq<Obj>, turns: nat, received: seq<u32>, shown: nat, acks: nat)
    requires all == taken + rest && first <= all && taken == Prefix(first, HANDSHAKE_SIZE)
    requires taken != [] ==> installed == |Prefix(rights, MAX_FDS)|
    requires var ok := |taken| == HANDSHAKE_SIZE && DecodeHandshake(taken).bufCount == |Seen(installed, rights)|;
             if ok then ShowsAll(rest, |Seen(installed, rights)|, turns, received, shown, acks)
             else received == [] && shown == 0 && acks == 0
    ensures ShowsWhatCame(first, all, rights, turns, received, shown, acks)
  {
    hide ShowsAll, DecodeHandshake;
    if |taken| == HANDSHAKE_SIZE {
      assert taken == first[..HANDSHAKE_SIZE] && rest == all[HANDSHAKE_SIZE..];
      assert Seen(installed, rights) == Visible(rights);
    }
  }

  /** Draw j read the memory sent for the j-th index received. */
  predicate Shown(rights: seq<Obj>, received: seq<u32>, shown: seq<Obj>) {
    && |shown| <= |received| <= |shown| + 1
    && forall j :: 0 <= j < |shown| ==> received[j] < |rights| && shown[j] == rights[received[j]]
  }

  lemma DrawnIsSent(table: map<int, File>, fds: seq<u32>, installed: nat, rights: seq<Obj>, events: seq<SubEvent>,
                    end: Progress, shown: seq<Obj>)
    requires OwnsAll(table, fds) && ObjsOf(table, fds) == Seen(installed, rights)
    requires Led(fds, Progress(SHandshake, [], [], 0), events, end) && Behind(table, end.drawn, shown)
    ensures Shown(rights, end.received, shown) && |shown| == |end.drawn|
  {
    LoopShowsWhatItIsTold(fds, Progress(SHandshake, [], [], 0), events, end);
    var n: nat :| Books(fds, end, [], 0, n);
    forall j | 0 <= j < |shown|
      ensures end.received[j] < |rights| && shown[j] == rights[end.received[j]]
    {
      assert end.drawn[j] == fds[end.received[j]];
      assert ObjsOf(table, fds)[end.received[j]] == shown[j];
    }
  }

  /** Dropping the socket ends the program, and what its log says then. */
  lemma SocketLast(fds: seq<int>, events: seq<SubEvent>, received: seq<u32>, drawn: seq<int>, acks: nat)
    requires Led(fds, Progress(SHandshake, [], [], 0), events, Progress(SDropSocket, received, drawn, acks))
    ensures Led(fds, Progress(SHandshake, [], [], 0), events + [SocketDropped], Progress(SDone, received, drawn, acks))
    ensures Told(fds, received, drawn, acks) && SubscriberLog(events + [SocketDropped])
  {
    var start, end := Progress(SHandshake, [], [], 0), Progress(SDone, received, drawn, acks);
    FollowMore(fds, start, events, SocketDropped);
    LoopShowsWhatItIsTold(fds, start, events + [SocketDropped], end);
    LedIsPath(fds, start, events + [SocketDropped], end);
    SubscriberLogExactlyWhen(events + [SocketDropped]);
  }

  /** Every log that can be followed is a path of the control automaton. */
  lemma {:induction false} LedIsPath(fds: seq<int>, p: Progress, events: seq<SubEvent>, end: Progress)
    requires Led(fds, p, events, end)
    ensures SubPath(p.pc, events) == Some(end.pc)
    decreases |events|
  {
    if events != [] {
      LedIsPath(fds, Follow(fds, p, events[0]), events[1..], end);
    }
  }

  /** Window and graphics, and the loop if they come up, until the graphics are dropped. */
  method Watch(fds: seq<u32>, inbox: Inbox, display: Display, out: Outbox, turns: nat,
               ghost start: Progress, events: seq<SubEvent>)
    returns (events': seq<SubEvent>, ghost received: seq<u32>)
    requires OwnsAll(display.k.fds, fds) && Numbers(fds)
    requires display.drawn == [] && display.shown == [] && display.pictures == [] && out.acks == 0
    requires Led(fds, start, events, At(SSetup, [], display, out))
    modifies inbox, display, display.k`history, out
    ensures display.k.history == old(display.k.history) + Imaged(display.drawn)
    ensures Behind(display.k.fds, display.drawn, display.shown)
    ensures Pictured(display.drawn, display.pictures, display.meta, display.hasModifiers)
    ensures display.live == old(display.live) && display.meta == old(display.meta) && inbox.faults >= old(inbox.faults)
    ensures EncodeAll(received) <= old(inbox.Pending())
    ensures Led(fds, start, events', At(SDropFds, received, display, out))
    ensures Ails(inbox, display, out) >= old(Ails(inbox, display, out))
    ensures Ails(inbox, display, out) == old(Ails(inbox, display, out)) ==>
              ShowsAll(old(inbox.Pending()), |fds|, turns, received, |display.drawn|, out.acks)
  {
    hide Led, OwnsAll, EncodeU32, Flatten, Prefix, DecodeAll, InRange;
    received := [];
    ghost var base := display.k.history;
    assert display.Idle(base) by { assert base + [] == base; }
    hide Imaged;
    ghost var now := At(SSetup, [], display, out);
    var ready := display.SetUp();
    if ready {
      events', now := Note(fds, start, events, now, SetUp);
      var more;
      more, received := Loop(fds, inbox, display, out, turns, base);
      LedThen(fds, start, events', now, more, At(SDropGraphics, received, display, out));
      events' := events' + more;
    } else {
      events', now := Note(fds, start, events, now, SetUpFailed);
    }
    now := At(SDropGraphics, received, display, out);
    events', now := Note(fds, start, events', now, GraphicsDropped);
  }

  /** The session: the graphics, then the session's descriptors dropped. */
  method Session(k: Kernel, fds: seq<u32>, inbox: Inbox, display: Display, out: Outbox, turns: nat,
                 ghost start: Progress, events: seq<SubEvent>)
    returns (events': seq<SubEvent>, ghost received: seq<u32>)
    requires k.Valid() && OwnsAll(k.fds, fds) && display.k == k && display.drawn == [] && display.shown == []
    requires out.acks == 0 && display.pictures == []
    requires Led(fds, start, events, At(SSetup, [], display, out))
    modifies k`fds, k`history, inbox, display, out
    ensures k.Valid() && k.fds == old(k.fds) - SetOf(fds)
    ensures k.history == old(k.history) + Imaged(display.drawn) + Closings(fds)
    ensures Behind(old(k.fds), display.drawn, display.shown)
    ensures Pictured(display.drawn, display.pictures, display.meta, display.hasModifiers)
    ensures display.live == old(display.live) && display.meta == old(display.meta) && inbox.faults >= old(inbox.faults)
    ensures EncodeAll(received) <= old(inbox.Pending())
    ensures Led(fds, start, events', At(SDropSocket, received, display, out))
    ensures Ails(inbox, display, out) >= old(Ails(inbox, display, out))
    ensures Ails(inbox, display, out) == old(Ails(inbox, display, out)) ==>
              ShowsAll(old(inbox.Pending()), |fds|, turns, received, |display.drawn|, out.acks)
  {
    hide Led, OwnsAll, SetOf, Closings, EncodeU32, Imaged, ShowsAll, Flatten, Numbers, Pictured, Egl.Meant;
    OwnedAreNumbers(k, fds);
    events', received := Watch(fds, inbox, display, out, turns, start, events);
    ghost var now := At(SDropFds, received, display, out);
    CloseAll(k, fds);
    events', now := Note(fds, start, events', now, FdsDropped);
  }

  /** main: connect, handshake, window and graphics, loop; then everything is dropped in reverse order: images,
      descriptors, and the socket last. */
  method Run(k: Kernel, inbox: Inbox, rights: seq<Obj>, turns: nat)
    returns (display: Display, out: Outbox, sock: int, events: seq<SubEvent>, taken: seq<byte>,
             ghost installed: nat, ghost lost: seq<u32>, ghost fds: seq<int>, ghost closed: seq<int>,
             ghost received: seq<u32>)
    requires k.Valid() && forall o :: o in rights ==> o < k.nextObj
    modifies k, inbox
    ensures k.Valid() && display.live == map[] && |taken| <= HANDSHAKE_SIZE
    ensures k.fds == old(k.fds) <==> Accounted(taken, installed, rights)
    ensures Installed(old(k.fds), k.fds, lost, rights)
    ensures |lost| == if Accounted(taken, installed, rights) then 0 else installed
    ensures Shown(rights, received, display.shown) && |display.drawn| == |display.shown|
    ensures k.faults >= old(k.faults)
    ensures k.faults == old(k.faults) && inbox.faults == old(inbox.faults) && display.faults == out.faults == 0 ==>
              ShowsWhatCame(FirstChunk(old(inbox.chunks)), old(inbox.Pending()), rights, turns, received,
                            |display.shown|, out.acks)
    ensures k.faults == old(k.faults) ==>
              (k.fds == old(k.fds) <==> taken == [] || Kept(FirstChunk(old(inbox.chunks)), rights))
    ensures k.faults == old(k.faults) && inbox.faults == old(inbox.faults) ==>
              (k.fds == old(k.fds) <==> Kept(FirstChunk(old(inbox.chunks)), rights))
    ensures taken + EncodeAll(received) <= old(inbox.Pending())
    ensures sock < 0 ==> events == [] && k.history == old(k.history)
    ensures sock >= 0 ==> SubscriberLog(events)
    ensures sock >= 0 ==>
              && Led(fds, Progress(SHandshake, [], [], 0), events, Progress(SDone, received, display.drawn, out.acks))
              && k.history == old(k.history) + Imaged(display.drawn) + Closings(closed) + [Closed(sock)]
    ensures Told(fds, received, display.drawn, out.acks)
    ensures received != [] ==>
              && |taken| == HANDSHAKE_SIZE && DecodeHandshake(taken).bufCount == |fds| == |Seen(installed, rights)|
              && closed == fds
    ensures Pictured(display.drawn, display.pictures, display.meta, display.hasModifiers)
    ensures received != [] ==>
              var h := DecodeHandshake(taken);
              && display.meta.width == h.width && display.meta.height == h.height && display.meta.format == h.format
              && display.meta.stride == h.stride && display.meta.size == h.size
  {
    display := new Display(k);
    out := new Outbox();
    hide Led, Told, Accounted, Kept, EncodeAll, DecodeHandshake, Imaged, Prefix, Seen, Closings, FirstChunk, Flatten;
    hide Follow, CanFollow, Books, ShowsWhatCame, Installed, Shown, SubscriberLog, Pictured, Egl.Meant;
    NothingPictured(display);
    events, taken, installed, lost, fds, closed, received := [], [], 0, [], [], [], [];
    ghost var start := Progress(SHandshake, [], [], 0);
    NothingDone(rights);
    NothingInstalled(k.fds, rights);
    sock := k.Open(Stream);
    if sock < 0 {
      return;
    }
    ghost var connected := k.fds;
    var raw;
    events, raw, taken, installed, lost, closed, received := Converse(k, inbox, rights, turns, display, out, start);
    fds := raw;
    SockClosed(old(k.fds), k.fds, sock, lost, rights);
    k.Close(sock);
    SocketLast(fds, events, received, display.drawn, out.acks);
    events := events + [SocketDropped];
  }

  lemma NothingDone(rights: seq<Obj>)
    ensures Accounted([], 0, rights) && Told([], [], [], 0) && Imaged([]) == [] && Shown(rights, [], [])
  {
    var none: seq<int> := [];
    assert none == none + [];
    assert Books(none, Progress(SDone, [], [], 0), [], 0, 0);
  }

  /** With an accepted handshake: the geometry noted, and the session. */
  method Accept(k: Kernel, header: Handshake, fds: seq<u32>, inbox: Inbox, ghost rights: seq<Obj>, ghost installed: nat,
                turns: nat, display: Display, out: Outbox, ghost start: Progress)
    returns (events: seq<SubEvent>, ghost received: seq<u32>)
    requires k.Valid() && OwnsAll(k.fds, fds) && ObjsOf(k.fds, fds) == Seen(installed, rights)
    requires display.k == k && display.drawn == [] && display.shown == [] && display.pictures == [] && out.acks == 0
    requires start == Progress(SHandshake, [], [], 0)
    modifies k`fds, k`history, inbox, display, out
    ensures k.Valid() && k.fds == old(k.fds) - SetOf(fds)
    ensures k.history == old(k.history) + Imaged(display.drawn) + Closings(fds)
    ensures display.live == old(display.live) && inbox.faults >= old(inbox.faults)
    ensures display.meta == Egl.Meta(header.width, header.height, header.format, header.stride, header.size)
    ensures Pictured(display.drawn, display.pictures, display.meta, display.hasModifiers)
    ensures Shown(rights, received, display.shown) && |display.drawn| == |display.shown|
    ensures EncodeAll(received) <= old(inbox.Pending())
    ensures Led(fds, start, events, At(SDropSocket, received, display, out))
    ensures Ails(inbox, display, out) >= old(Ails(inbox, display, out))
    ensures Ails(inbox, display, out) == old(Ails(inbox, display, out)) ==>
              ShowsAll(old(inbox.Pending()), |fds|, turns, received, |display.drawn|, out.acks)
  {
    hide Led, EncodeAll, Flatten, OwnsAll, ObjsOf, SetOf, Closings, ShowsAll, Behind, Imaged, Shown, Pictured;
    hide Egl.Meant, Kernel.Valid, Seen;
    ghost var table := k.fds;
    LedNowhere(fds, start);
    ghost var now;
    events, now := Note(fds, start, [], start, HandshakeReceived);
    display.meta := Egl.Meta(header.width, header.height, header.format, header.stride, header.size);
    events, received := Session(k, fds, inbox, display, out, turns, start, events);
    DrawnIsSent(table, fds, installed, rights, events, At(SDropSocket, received, display, out), display.shown);
  }

  /** What main does between connecting and dropping the socket. */
  method Converse(k: Kernel, inbox: Inbox, rights: seq<Obj>, turns: nat, display: Display, out: Outbox,
                  ghost start: Progress)
    returns (events: seq<SubEvent>, fds: seq<u32>, taken: seq<byte>,
             ghost installed: nat, ghost lost: seq<u32>, ghost closed: seq<int>, ghost received: seq<u32>)
    requires k.Valid() && forall o :: o in rights ==> o < k.nextObj
    requires display.k == k && display.live == map[] && display.drawn == [] && display.shown == [] && out.acks == 0
    requires display.pictures == []
    requires start == Progress(SHandshake, [], [], 0) && display.faults == out.faults == 0
    modifies k`fds, k`faults, k`history, inbox, display, out
    ensures k.Valid() && display.live == map[] && |taken| <= HANDSHAKE_SIZE && k.faults >= old(k.faults)
    ensures k.fds == old(k.fds) <==> Accounted(taken, installed, rights)
    ensures Installed(old(k.fds), k.fds, lost, rights)
    ensures |lost| == if Accounted(taken, installed, rights) then 0 else installed
    ensures Shown(rights, received, display.shown) && |display.drawn| == |display.shown|
    ensures k.faults == old(k.faults) ==>
              && (Accounted(taken, installed, rights) <==> taken == [] || Kept(FirstChunk(old(inbox.chunks)), rights))
              && (inbox.faults == old(inbox.faults) ==>
                    (Accounted(taken, installed, rights) <==> Kept(FirstChunk(old(inbox.chunks)), rights)))
    ensures k.faults == old(k.faults) && inbox.faults == old(inbox.faults) && display.faults == out.faults == 0 ==>
              ShowsWhatCame(FirstChunk(old(inbox.chunks)), old(inbox.Pending()), rights, turns, received,
                            |display.shown|, out.acks)
    ensures inbox.faults >= old(inbox.faults)
    ensures forall x :: x in old(k.fds) ==> x in k.fds && k.fds[x] == old(k.fds)[x]
    ensures taken + EncodeAll(received) <= old(inbox.Pending())
    ensures Led(fds, start, events, At(SDropSocket, received, display, out))
    ensures k.history == old(k.history) + Imaged(display.drawn) + Closings(closed)
    ensures received != [] ==>
              && |taken| == HANDSHAKE_SIZE && DecodeHandshake(taken).bufCount == |fds| == |Seen(installed, rights)|
              && closed == fds
    ensures Pictured(display.drawn, display.pictures, display.meta, display.hasModifiers)
    ensures received != [] ==>
              var h := DecodeHandshake(taken);
              && display.meta.width == h.width && display.meta.height == h.height && display.meta.format == h.format
              && display.meta.stride == h.stride && display.meta.size == h.size
  {
    hide Led, Accounted, Kept, EncodeAll, DecodeHandshake, Prefix, Seen, FirstChunk, Flatten;
    hide OwnsAll, ObjsOf, SetOf, Installed, Closings, ShowsAll, ShowsWhatCame;
    hide Behind, Imaged, Shown, Told, Books, Acceptable, Visible, Pictured, Egl.Meant, Kernel.Valid;
    assert Pictured([], [], display.meta, display.hasModifiers) by { NothingPictured(display); }
    received := [];
    NothingDone(rights);
    ghost var all, first := inbox.Pending(), FirstChunk(inbox.chunks);
    var ok, header;
    ok, header, fds, taken, installed, lost, closed := RecvHandshake(k, inbox, rights);
    NothingHeld(k.fds);
    LedNowhere(fds, start);
    if k.faults == old(k.faults) {
      AccountedExactlyWhen(taken, installed, first, rights);
    }
    ghost var now, rest := start, inbox.Pending();
    if ok {
      events, received := Accept(k, header, fds, inbox, rights, installed, turns, display, out, start);
      closed := fds;
    } else {
      events, now := Note(fds, start, [], start, HandshakeRefused(|taken|));
    }
    assert all == taken + rest;
    if k.faults == old(k.faults) && inbox.faults == old(inbox.faults) && display.faults == out.faults == 0 {
      AcceptedIsShown(first, all, taken, rest, installed, rights, turns, received, |display.shown|, out.acks);
    }
  }

  lemma SockClosed(before: map<int, File>, now: map<int, File>, sock: int, lost: seq<u32>, rights: seq<Obj>)
    requires sock !in before && sock in now && now[sock] == Stream
    requires Installed(before[sock := Stream], now, lost, rights)
    ensures now - {sock} == before <==> now == before[sock := Stream]
    ensures Installed(before, now - {sock}, lost, rights)
  {
  }

  /** A descriptor is lost, for one, when the first ten bytes of the header arrive alone and bring it along: unless
      some call fails, the program ends with one descriptor more than it began with, for that memory. */
  method ShortHeaderLosesDescriptor(k: Kernel, o: Obj) returns (sock: int, interrupted: bool)
    requires k.Valid() && o < k.nextObj
    modifies k
    ensures k.Valid()
    ensures k.faults == old(k.faults) && !interrupted ==>
              exists x :: x !in old(k.fds) && k.fds == old(k.fds)[x := DmaBuf(o)]
  {
    var inbox := new Inbox([[1, 0, 0, 0, 128, 2, 0, 0, 224, 1], [0, 0]]);
    var display, out, events, taken;
    ghost var installed, lost, fds, closed, received;
    display, out, sock, events, taken, installed, lost, fds, closed, received := Run(k, inbox, [o], 1);
    interrupted := inbox.faults != 0;
    if k.faults == old(k.faults) && !interrupted {
      OneInstalled(old(k.fds), k.fds, lost, o);
    }
  }

  lemma OneInstalled(before: map<int, File>, after: map<int, File>, lost: seq<u32>, o: Obj)
    requires Installed(before, after, lost, [o]) && after != before
    ensures exists x :: x !in before && after == before[x := DmaBuf(o)]
  {
    if lost == [] {
      Pool.SameTable(after, before);
      assert false;
    }
    assert lost[0] in SetOf(lost);
    assert forall x :: x in SetOf(lost) <==> x == lost[0];
    Pool.SameTable(after, before[lost[0] := DmaBuf(o)]);
  }
}
