/** Reading messages off a byte stream that arrives in arbitrary fragments. */
module Framing {
  import opened Wire

  function Flatten(chunks: seq<seq<byte>>): seq<byte> {
    if chunks == [] then [] else chunks[0] + Flatten(chunks[1..])
  }

  /** The first fragment with anything in it. */
  function FirstChunk(chunks: seq<seq<byte>>): (c: seq<byte>)
    ensures c == [] <==> Flatten(chunks) == []
    ensures c <= Flatten(chunks)
  {
    if chunks == [] then [] else if chunks[0] != [] then chunks[0] else FirstChunk(chunks[1..])
  }

  datatype Received =
    | Idx(idx: u32)
    | PeerClosed
    | Failed

  /** The reading end: the fragments to come and then end of file.  `faults` counts failed or interrupted calls. */
  class Inbox {
    var chunks: seq<seq<byte>>
    var faults: nat

    constructor (chunks: seq<seq<byte>>)
      ensures this.chunks == chunks && faults == 0
    {
      this.chunks, faults := chunks, 0;
    }

    function Pending(): seq<byte>
      reads this
    {
      Flatten(chunks)
    }

    /** One recv: at most `max` bytes of what has arrived, nothing only at end of file, or an error. */
    method Recv(max: nat) returns (n: int, got: seq<byte>)
      requires max > 0
      modifies this
      ensures got + Pending() == old(Pending()) && |got| <= max
      ensures if n < 0 then got == [] && faults == old(faults) + 1 else n == |got| && faults == old(faults)
      ensures n >= 0 ==> got == (var c := FirstChunk(old(chunks)); if |c| <= max then c else c[..max])
    {
      var failed: bool := *;
      got := [];
      if failed {
        n, faults := -1, faults + 1;
        return;
      }
      while chunks != [] && chunks[0] == []
        invariant Pending() == old(Pending()) && FirstChunk(chunks) == FirstChunk(old(chunks)) && faults == old(faults)
        decreases |chunks|
      {
        chunks := chunks[1..];
      }
      n := 0;
      if chunks == [] {
        return;
      }
      ghost var before := Pending();
      if |chunks[0]| <= max {
        got, chunks := chunks[0], chunks[1..];
      } else {
        var first, rest := chunks[0], chunks[1..];
        got, chunks := first[..max], [first[max..]] + rest;
        assert chunks[1..] == rest && first == first[..max] + first[max..];
        assert got + Pending() == before;
      }
      n := |got|;
    }

    /** recv with MSG_WAITALL: keeps on until it has `max` bytes, end of file, or is interrupted. */
    method RecvWaitAll(max: nat) returns (n: int, got: seq<byte>)
      requires max > 0
      modifies this
      ensures got + Pending() == old(Pending()) && |got| <= max && faults >= old(faults)
      ensures if n < 0 then got == [] && faults > old(faults) else n == |got|
      ensures |got| < max ==> Pending() == [] || faults > old(faults)
      ensures n == 0 ==> old(Pending()) == []
    {
      n, got := 0, [];
      while |got| < max
        invariant got + Pending() == old(Pending()) && n == |got| <= max && faults == old(faults)
        decreases max - |got|
      {
        var m, more := Recv(max - |got|);
        ghost var had := got;
        got := got + more;
        assert had + (more + Pending()) == got + Pending();
        if m < 0 {
          n := if got == [] then -1 else |got|;
          return;
        }
        if m == 0 {
          return;
        }
        n := |got|;
      }
    }

    /** recv_idx: a whole index, the end of the stream, or neither; for every fragmentation the same. */
    method RecvIdx() returns (r: Received)
      modifies this
      ensures r.Idx? ==> old(Pending()) == EncodeU32(r.idx) + Pending()
      ensures r.PeerClosed? ==> old(Pending()) == []
      ensures faults == old(faults) ==>
                && (r.Idx? <==> |old(Pending())| >= INDEX_SIZE)
                && (r.PeerClosed? <==> old(Pending()) == [])
      ensures faults >= old(faults)
    {
      var n, buf := RecvWaitAll(INDEX_SIZE);
      if n == 0 {
        r := PeerClosed;
      } else if n != INDEX_SIZE {
        r := Failed;
      } else {
        U32RoundTrip(DecodeU32(buf), buf);
        r := Idx(DecodeU32(buf));
      }
    }

    /** recv_handshake, the header: one recvmsg that takes at most the header's bytes, and succeeds exactly
        if all of them have arrived together. */
    method RecvHandshake() returns (ok: bool, header: Handshake, taken: seq<byte>)
      modifies this
      ensures taken + Pending() == old(Pending()) && |taken| <= HANDSHAKE_SIZE
      ensures ok ==> taken == EncodeHandshake(header)
      ensures faults == old(faults) ==> (ok <==> |FirstChunk(old(chunks))| >= HANDSHAKE_SIZE)
      ensures faults >= old(faults)
    {
      var n, bytes := Recv(HANDSHAKE_SIZE);
      taken := bytes;
      header := Handshake(0, 0, 0, 0, 0, 0);
      ok := n == HANDSHAKE_SIZE;
      if ok {
        header := DecodeHandshake(bytes);
        HandshakeRoundTrip(header, bytes);
      }
    }
  }

  /** Reads indices until the stream ends: exactly those sent, without the one cut short. */
  method ReadIndices(inbox: Inbox) returns (idxs: seq<u32>, end: Received)
    modifies inbox
    ensures !end.Idx? && idxs <= DecodeAll(old(inbox.Pending())) && inbox.faults >= old(inbox.faults)
    ensures inbox.faults == old(inbox.faults) ==>
              && idxs == DecodeAll(old(inbox.Pending()))
              && (end.PeerClosed? <==> |old(inbox.Pending())| % INDEX_SIZE == 0)
  {
    idxs, end := [], Idx(0);
    ghost var all := inbox.Pending();
    while end.Idx?
      invariant inbox.faults >= old(inbox.faults)
      invariant end.Idx? ==> DecodeAll(all) == idxs + DecodeAll(inbox.Pending())
      invariant end.Idx? ==> |all| == INDEX_SIZE * |idxs| + |inbox.Pending()|
      invariant !end.Idx? ==> idxs <= DecodeAll(all)
      invariant !end.Idx? && inbox.faults == old(inbox.faults) ==>
                  idxs == DecodeAll(all) && (end.PeerClosed? <==> |all| % INDEX_SIZE == 0)
      decreases end.Idx?, |inbox.Pending()|
    {
      ghost var before := inbox.Pending();
      end := inbox.RecvIdx();
      if end.Idx? {
        U32RoundTrip(end.idx, EncodeU32(end.idx));
        assert before[..INDEX_SIZE] == EncodeU32(end.idx) && before[INDEX_SIZE..] == inbox.Pending();
        assert idxs + DecodeAll(before) == (idxs + [end.idx]) + DecodeAll(inbox.Pending());
        idxs := idxs + [end.idx];
      }
    }
  }

  /** Reads a session to its end, however its bytes are cut into fragments: the header and the indices come out as
      they were sent, and without an index that was cut short.  All that depends on the fragments is whether the
      header arrives in one. */
  method ReadSession(inbox: Inbox, ghost sent: Handshake, ghost all: seq<u32>, ghost cut: seq<byte>)
    returns (ok: bool, header: Handshake, idxs: seq<u32>, end: Received)
    requires |cut| < INDEX_SIZE && inbox.Pending() == EncodeHandshake(sent) + EncodeAll(all) + cut
    modifies inbox
    ensures ok ==> header == sent && idxs <= all && !end.Idx?
    ensures inbox.faults == old(inbox.faults) ==>
              && (ok <==> |FirstChunk(old(inbox.chunks))| >= HANDSHAKE_SIZE)
              && (ok ==> idxs == all && (end.PeerClosed? <==> cut == []))
  {
    hide EncodeU32, EncodeHandshake, DecodeHandshake, EncodeAll, DecodeAll;
    idxs, end := [], Failed;
    var taken;
    ghost var rest := EncodeAll(all) + cut;
    assert inbox.Pending() == EncodeHandshake(sent) + rest;
    ok, header, taken := inbox.RecvHandshake();
    if ok {
      HandshakeRoundTrip(sent, taken);
      HandshakeRoundTrip(header, taken);
      assert taken == (taken + inbox.Pending())[..HANDSHAKE_SIZE] == EncodeHandshake(sent);
      assert inbox.Pending() == (taken + inbox.Pending())[HANDSHAKE_SIZE..] == rest;
      DecodeAllRoundTrip(all, cut);
      idxs, end := ReadIndices(inbox);
    }
  }
}
