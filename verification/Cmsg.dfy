/**
 Descriptors as ancillary data: the control buffer that the C++ code fills and parses with the CMSG macros
 (section 20.3 of RFC 3542), on a 64-bit host, and what the kernel does to it on the way.
 */
module Cmsg {
  import opened Wire

  const SOL_SOCKET: u32 := 1
  const SCM_RIGHTS: u32 := 1
  const HEADER: nat := 16      // size_t cmsg_len, int cmsg_level, int cmsg_type

  function Align(n: nat): (r: nat)
    ensures n <= r < n + 8 && r % 8 == 0
  {
    (n + 7) / 8 * 8
  }

  function CmsgLen(n: nat): nat {
    Align(HEADER) + n
  }

  function CmsgSpace(n: nat): nat {
    Align(HEADER) + Align(n)
  }

  /** One ancillary object. */
  datatype Record = Record(level: u32, kind: u32, data: seq<byte>) {
    predicate Valid() {
      |data| < 0x1000_0000_0000_0000
    }

    predicate IsRights() {
      level == SOL_SOCKET && kind == SCM_RIGHTS
    }
  }

  function Zeros(n: nat): (z: seq<byte>)
    ensures |z| == n
  {
    seq(n, _ => 0)
  }

  /** A size_t in the host's order. */
  function EncodeSize(n: nat): (b: seq<byte>)
    requires n < 0x1_0000_0000_0000_0000
    ensures |b| == 8
  {
    EncodeU32(n % 0x1_0000_0000) + EncodeU32(n / 0x1_0000_0000)
  }

  function DecodeSize(b: seq<byte>): nat
    requires |b| == 8
  {
    DecodeU32(b[..4]) + 0x1_0000_0000 * DecodeU32(b[4..])
  }

  lemma SizeRoundTrip(n: nat)
    requires n < 0x1_0000_0000_0000_0000
    ensures DecodeSize(EncodeSize(n)) == n
  {
    var low, high := n % 0x1_0000_0000, n / 0x1_0000_0000;
    U32RoundTrip(low, EncodeU32(low));
    U32RoundTrip(high, EncodeU32(high));
    hide EncodeU32, DecodeU32;
    var b := EncodeSize(n);
    assert b[..4] == EncodeU32(low) && b[4..] == EncodeU32(high);
  }

  /** Header, data and the padding that CMSG_SPACE counts and CMSG_LEN does not. */
  function EncodeRecord(r: Record): (b: seq<byte>)
    requires r.Valid()
    ensures |b| == CmsgSpace(|r.data|)
  {
    EncodeSize(CmsgLen(|r.data|)) + EncodeU32(r.level) + EncodeU32(r.kind)
    + r.data + Zeros(Align(|r.data|) - |r.data|)
  }

  predicate AllValid(records: seq<Record>) {
    forall i :: 0 <= i < |records| ==> records[i].Valid()
  }

  function EncodeRecords(records: seq<Record>): seq<byte>
    requires AllValid(records)
  {
    if records == [] then [] else EncodeRecord(records[0]) + EncodeRecords(records[1..])
  }

  lemma RecordFields(r: Record, rest: seq<byte>)
    requires r.Valid()
    ensures var b := EncodeRecord(r) + rest;
            && |b| >= HEADER + |r.data|
            && DecodeSize(b[0..8]) == CmsgLen(|r.data|)
            && DecodeU32(b[8..12]) == r.level && DecodeU32(b[12..16]) == r.kind
            && b[HEADER..HEADER + |r.data|] == r.data
            && b[CmsgSpace(|r.data|)..] == rest
  {
    var b := EncodeRecord(r) + rest;
    SizeRoundTrip(CmsgLen(|r.data|));
    U32RoundTrip(r.level, b[8..12]);
    U32RoundTrip(r.kind, b[12..16]);
    hide EncodeU32, DecodeU32, EncodeSize, DecodeSize;
    assert b[0..8] == EncodeSize(CmsgLen(|r.data|));
    assert b[8..12] == EncodeU32(r.level);
    assert b[12..16] == EncodeU32(r.kind);
    assert b[16..16 + |r.data|] == r.data;
  }

  /** The descriptors of the last SCM_RIGHTS object: a later one replaces an earlier one. */
  function LastRights(records: seq<Record>, before: seq<u32>): seq<u32> {
    if records == [] then before
    else LastRights(records[1..], if records[0].IsRights() then DecodeAll(records[0].data) else before)
  }

  function Splice(b: seq<byte>, at: nat, bytes: seq<byte>): (r: seq<byte>)
    requires at + |bytes| <= |b|
    ensures |r| == |b|
  {
    b[..at] + bytes + b[at + |bytes|..]
  }

  /** Copies bytes into a buffer, as memcpy. */
  method CopyInto(a: array<byte>, at: nat, bytes: seq<byte>)
    requires at + |bytes| <= a.Length
    modifies a
    ensures a[..] == Splice(old(a[..]), at, bytes)
  {
    forall i | 0 <= i < |bytes| {
      a[at + i] := bytes[i];
    }
  }

  /** send_handshake: the control buffer, filled in place, level and type before length and descriptors. */
  method BuildControl(fds: seq<u32>) returns (cbuf: array<byte>)
    requires |fds| < 0x1_0000_0000
    ensures cbuf[..] == EncodeRecord(Record(SOL_SOCKET, SCM_RIGHTS, EncodeAll(fds)))
  {
    hide EncodeRecord, EncodeU32, EncodeSize, EncodeAll, Splice;
    var n := 4 * |fds|;
    cbuf := new byte[CmsgSpace(n)](_ => 0);
    assert cbuf[..] == Zeros(CmsgSpace(n));
    CopyInto(cbuf, 8, EncodeU32(SOL_SOCKET));
    CopyInto(cbuf, 12, EncodeU32(SCM_RIGHTS));
    CopyInto(cbuf, 0, EncodeSize(CmsgLen(n)));
    CopyInto(cbuf, HEADER, EncodeAll(fds));
    FilledIsEncoded(Record(SOL_SOCKET, SCM_RIGHTS, EncodeAll(fds)));
  }

  /** The filled buffer byte by byte, on a 64-bit little-endian host: the length of header and descriptors in eight
      bytes, SOL_SOCKET, SCM_RIGHTS, one word for each descriptor, and padding to a multiple of eight. */
  lemma ControlLayout(fds: seq<u32>)
    requires |fds| < 0x1000_0000
    ensures var b := EncodeRecord(Record(SOL_SOCKET, SCM_RIGHTS, EncodeAll(fds)));
            && |b| == 16 + 4 * |fds| + (if |fds| % 2 == 1 then 4 else 0)
            && WordAt(b, 0) == 16 + 4 * |fds| && WordAt(b, 4) == 0 && WordAt(b, 8) == 1 && WordAt(b, 12) == 1
            && forall i :: 0 <= i < |fds| ==> WordAt(b, 16 + 4 * i) == fds[i]
  {
    hide EncodeU32, WordAt, EncodeAll;
    var b := EncodeRecord(Record(SOL_SOCKET, SCM_RIGHTS, EncodeAll(fds)));
    var n := 4 * |fds|;
    var size, pad := 16 + n, Zeros(Align(n) - n);
    assert EncodeSize(size) == EncodeU32(size) + EncodeU32(0);
    var rest := EncodeAll(fds) + pad;
    assert b == EncodeU32(size) + EncodeU32(0) + EncodeU32(1) + EncodeU32(1) + rest;
    WordInside([], size, EncodeU32(0) + EncodeU32(1) + EncodeU32(1) + rest, b);
    WordInside(EncodeU32(size), 0, EncodeU32(1) + EncodeU32(1) + rest, b);
    WordInside(EncodeU32(size) + EncodeU32(0), 1, EncodeU32(1) + rest, b);
    WordInside(EncodeU32(size) + EncodeU32(0) + EncodeU32(1), 1, rest, b);
    WordsInside(b[..16], fds, pad, b);
  }

  lemma {:induction false} WordsInside(before: seq<byte>, words: seq<u32>, after: seq<byte>, b: seq<byte>)
    requires b == before + EncodeAll(words) + after
    ensures |b| >= |before| + 4 * |words|
    ensures forall i :: 0 <= i < |words| ==> WordAt(b, |before| + 4 * i) == words[i]
    decreases |words|
  {
    if words != [] {
      hide EncodeU32, WordAt;
      var first, rest := EncodeU32(words[0]), EncodeAll(words[1..]);
      assert b == before + first + (rest + after) == (before + first) + rest + after;
      WordInside(before, words[0], rest + after, b);
      WordsInside(before + first, words[1..], after, b);
      forall i | 0 <= i < |words|
        ensures WordAt(b, |before| + 4 * i) == words[i]
      {
        if i > 0 {
          assert words[1..][i - 1] == words[i];
        }
      }
    }
  }

  lemma SpliceAt(before: seq<byte>, hole: seq<byte>, after: seq<byte>, bytes: seq<byte>)
    requires |hole| == |bytes|
    ensures Splice(before + hole + after, |before|, bytes) == before + bytes + after
  {
  }

  /** Writing the four parts into zeros, in the order of the code, gives the encoding. */
  lemma FilledIsEncoded(r: Record)
    requires r.Valid()
    ensures var b0 := Splice(Zeros(CmsgSpace(|r.data|)), 8, EncodeU32(r.level));
            var b1 := Splice(b0, 12, EncodeU32(r.kind));
            var b2 := Splice(b1, 0, EncodeSize(CmsgLen(|r.data|)));
            Splice(b2, HEADER, r.data) == EncodeRecord(r)
  {
    hide Splice, EncodeU32, EncodeSize;
    var n := |r.data|;
    var pad := Zeros(Align(n) - n);
    var length := EncodeSize(CmsgLen(n));
    var level := EncodeU32(r.level);
    var kind := EncodeU32(r.kind);
    var z := Zeros(n) + pad;
    assert Zeros(CmsgSpace(n)) == Zeros(8) + Zeros(4) + (Zeros(4) + z);
    SpliceAt(Zeros(8), Zeros(4), Zeros(4) + z, level);
    assert Zeros(8) + level + (Zeros(4) + z) == (Zeros(8) + level) + Zeros(4) + z;
    SpliceAt(Zeros(8) + level, Zeros(4), z, kind);
    assert (Zeros(8) + level) + kind + z == [] + Zeros(8) + (level + kind + z);
    SpliceAt([], Zeros(8), level + kind + z, length);
    assert [] + length + (level + kind + z) == (length + level + kind) + Zeros(n) + pad;
    SpliceAt(length + level + kind, Zeros(n), pad, r.data);
  }

  /** recv_handshake: walks the control buffer with CMSG_FIRSTHDR and CMSG_NXTHDR and takes the count from
      the length field.  `records` is what the kernel put there. */
  method ParseControl(control: seq<byte>, ghost records: seq<Record>) returns (fds: seq<u32>)
    requires AllValid(records) && control == EncodeRecords(records)
    ensures fds == LastRights(records, [])
  {
    hide EncodeRecord, EncodeU32, DecodeU32, EncodeSize, DecodeSize, EncodeAll, DecodeAll;
    fds := [];
    var off := 0;
    ghost var left := records;
    while off + HEADER <= |control|
      invariant off <= |control| && AllValid(left) && control[off..] == EncodeRecords(left)
      invariant LastRights(left, fds) == LastRights(records, [])
      decreases |control| - off
    {
      var len: nat;
      fds, len := ParseRecord(control[off..], fds, left);
      off := off + Align(len);
      left := left[1..];
    }
  }

  /** A record's length field aligned is its space, and without the header and in ints it is the count. */
  lemma LengthField(n: nat)
    ensures Align(CmsgLen(n)) == CmsgSpace(n) >= HEADER + n && CmsgLen(n) >= CmsgLen(0)
    ensures (CmsgLen(n) - CmsgLen(0)) / 4 == n / 4
  {
  }

  /** The body of the walk: the header at the start of `rest`, and its descriptors if it is SCM_RIGHTS. */
  method ParseRecord(rest: seq<byte>, before: seq<u32>, ghost left: seq<Record>) returns (fds: seq<u32>, len: nat)
    requires AllValid(left) && rest == EncodeRecords(left) && |rest| >= HEADER
    ensures left != [] && HEADER <= Align(len) <= |rest| && rest[Align(len)..] == EncodeRecords(left[1..])
    ensures LastRights(left[1..], fds) == LastRights(left, before)
  {
    hide EncodeRecord, EncodeU32, DecodeU32, EncodeSize, DecodeSize, EncodeAll, DecodeAll;
    hide Align, CmsgLen, CmsgSpace;
    RecordFields(left[0], EncodeRecords(left[1..]));
    LengthField(|left[0].data|);
    len := DecodeSize(rest[0..8]);
    fds := before;
    if DecodeU32(rest[8..12]) == SOL_SOCKET && DecodeU32(rest[12..16]) == SCM_RIGHTS {
      var count := (len - CmsgLen(0)) / 4;
      fds := DecodeInts(rest[HEADER..], count);
      DecodePrefix(rest[HEADER..], left[0].data, count);
    }
  }

  /** `count` ints from the start of a buffer, as memcpy into a vector. */
  method DecodeInts(b: seq<byte>, count: nat) returns (ints: seq<u32>)
    requires 4 * count <= |b|
    ensures ints == DecodeAll(b[..4 * count])
  {
    ints := [];
    var i := 0;
    while i < count
      invariant i <= count && DecodeAll(b[..4 * count]) == ints + DecodeAll(b[4 * i..4 * count])
    {
      var rest := b[4 * i..4 * count];
      assert rest[..INDEX_SIZE] == b[4 * i..4 * i + 4] && rest[INDEX_SIZE..] == b[4 * (i + 1)..4 * count];
      assert ints + DecodeAll(rest) == (ints + [DecodeU32(b[4 * i..4 * i + 4])]) + DecodeAll(rest[INDEX_SIZE..]);
      ints := ints + [DecodeU32(b[4 * i..4 * i + 4])];
      i := i + 1;
    }
    assert b[4 * i..4 * count] == [];
  }

  lemma DecodePrefix(b: seq<byte>, data: seq<byte>, count: nat)
    requires |data| <= |b| && b[..|data|] == data && count == |data| / 4
    ensures 4 * count <= |b| && DecodeAll(b[..4 * count]) == DecodeAll(data)
  {
    assert b[..4 * count] == data[..4 * count];
    DecodeWhole(data, count);
  }

  lemma {:induction false} DecodeWhole(data: seq<byte>, count: nat)
    requires count == |data| / 4
    ensures DecodeAll(data[..4 * count]) == DecodeAll(data)
    decreases count
  {
    if count > 0 {
      assert data[..4 * count][..INDEX_SIZE] == data[..INDEX_SIZE];
      assert data[..4 * count][INDEX_SIZE..] == data[INDEX_SIZE..][..4 * (count - 1)];
      DecodeWhole(data[INDEX_SIZE..], count - 1);
    }
  }

  // ---- across the kernel ----

  /** What the receiver finds: the control bytes and whether MSG_CTRUNC is set. */
  datatype Delivery = Delivery(records: seq<Record>, truncated: bool)

  /** One record for the descriptors installed, if any, and the flag if there were more. */
  function Delivered(installed: seq<u32>, truncated: bool): (d: Delivery)
    requires |installed| <= MAX_FDS
    ensures AllValid(d.records)
    ensures |EncodeRecords(d.records)| <= CmsgSpace(4 * MAX_FDS)
  {
    var records := if installed == [] then [] else [Record(SOL_SOCKET, SCM_RIGHTS, EncodeAll(installed))];
    assert records != [] ==> records[1..] == [];
    Delivery(records, truncated)
  }

  /** The kernel gives the receiver as many new descriptors as fit its buffer and says if that was not all. */
  function Deliver(news: seq<u32>): Delivery {
    Delivered(if |news| <= MAX_FDS then news else news[..MAX_FDS], |news| > MAX_FDS)
  }

  datatype Outcome =
    | Accepted(header: Handshake, fds: seq<u32>)
    | PeerGone
    | Refused

  /** recv_handshake of the C++ code on `bytes` read and what came with them; of a message that counts wrong it
      closes the descriptors it saw. */
  method RecvHandshake(bytes: seq<byte>, d: Delivery) returns (r: Outcome, closed: seq<u32>)
    requires AllValid(d.records) && |bytes| <= HANDSHAKE_SIZE
    ensures r == ReceiveCpp(bytes, d)
    ensures closed == if r.Refused? && |bytes| == HANDSHAKE_SIZE && !d.truncated then LastRights(d.records, []) else []
  {
    closed := [];
    if |bytes| == 0 {
      r := PeerGone;
      return;
    }
    if |bytes| != HANDSHAKE_SIZE {
      r := Refused;
      return;
    }
    if d.truncated {
      r := Refused;
      return;
    }
    var fds := ParseControl(EncodeRecords(d.records), d.records);
    var header := DecodeHandshake(bytes);
    if |fds| != header.bufCount {
      r, closed := Refused, fds;
      return;
    }
    r := Accepted(header, fds);
  }

  function ReceiveCpp(bytes: seq<byte>, d: Delivery): Outcome
    requires AllValid(d.records)
  {
    if bytes == [] then PeerGone
    else if |bytes| != HANDSHAKE_SIZE || d.truncated then Refused
    else if |LastRights(d.records, [])| != DecodeHandshake(bytes).bufCount then Refused
    else Accepted(DecodeHandshake(bytes), LastRights(d.records, []))
  }

  /** All descriptors of all SCM_RIGHTS objects, one after the other. */
  function AllRights(records: seq<Record>): seq<u32> {
    if records == [] then []
    else (if records[0].IsRights() then DecodeAll(records[0].data) else []) + AllRights(records[1..])
  }

  /** recv_handshake of the Rust code: a truncated control message yields no descriptors. */
  function ReceiveRust(bytes: seq<byte>, d: Delivery): Outcome {
    if |bytes| != HANDSHAKE_SIZE then Refused
    else
      var fds := if d.truncated then [] else AllRights(d.records);
      if |fds| != DecodeHandshake(bytes).bufCount then Refused else Accepted(DecodeHandshake(bytes), fds)
  }

  lemma RightsFrom(records: seq<Record>, i: nat)
    requires i < |records|
    ensures AllRights(records[i..])
            == (if records[i].IsRights() then DecodeAll(records[i].data) else []) + AllRights(records[i + 1..])
  {
    assert records[i..][1..] == records[i + 1..];
  }

  /** The nested loops over records and their descriptors. */
  method Gather(records: seq<Record>) returns (owned: seq<u32>)
    ensures owned == AllRights(records)
  {
    hide DecodeAll, AllRights;
    owned := [];
    var i := 0;
    assert records[0..] == records;
    while i < |records|
      invariant i <= |records| && owned + AllRights(records[i..]) == AllRights(records)
    {
      RightsFrom(records, i);
      if records[i].IsRights() {
        var fds := DecodeAll(records[i].data);
        ghost var before := owned;
        for j := 0 to |fds|
          invariant owned == before + fds[..j]
        {
          assert fds[..j + 1] == fds[..j] + [fds[j]];
          owned := owned + [fds[j]];
        }
        assert fds[..|fds|] == fds;
        assert before + (fds + AllRights(records[i + 1..])) == owned + AllRights(records[i + 1..]);
      } else {
        assert [] + AllRights(records[i + 1..]) == AllRights(records[i + 1..]);
      }
      i := i + 1;
    }
    NoRights(records[i..]);
    assert owned + [] == owned;
  }

  lemma NoRights(records: seq<Record>)
    requires records == []
    ensures AllRights(records) == []
  {
  }

  /** recv_handshake of the Rust code: every descriptor of every record is pushed, and `dropped` are those that
      the vector closes when the message counts wrong. */
  method RecvHandshakeRust(bytes: seq<byte>, d: Delivery) returns (r: Outcome, dropped: seq<u32>)
    ensures r == ReceiveRust(bytes, d)
    ensures dropped == if r.Refused? && |bytes| == HANDSHAKE_SIZE && !d.truncated then AllRights(d.records) else []
  {
    hide DecodeHandshake, DecodeU32, DecodeAll;
    dropped := [];
    if |bytes| != HANDSHAKE_SIZE {
      r := Refused;
      return;
    }
    var owned: seq<u32> := [];
    if !d.truncated {
      owned := Gather(d.records);
    }
    var header := DecodeHandshake(bytes);
    if |owned| != header.bufCount {
      r, dropped := Refused, owned;
      return;
    }
    r := Accepted(header, owned);
  }

  /** The kernel reads from the sender's buffer exactly the descriptors put in, counting them by the length field. */
  lemma SentAsEncoded(fds: seq<u32>)
    requires |fds| < 0x1_0000_0000
    ensures LastRights([Record(SOL_SOCKET, SCM_RIGHTS, EncodeAll(fds))], []) == fds
    ensures (CmsgLen(4 * |fds|) - CmsgLen(0)) / 4 == |fds|
  {
    DecodeAllRoundTrip(fds, []);
    assert EncodeAll(fds) + [] == EncodeAll(fds);
    var r := Record(SOL_SOCKET, SCM_RIGHTS, EncodeAll(fds));
    assert [r][1..] == [];
  }

  /** sendmsg with descriptors: the program fills the control buffer and the kernel walks it. */
  method PassRights(fds: seq<u32>) returns (read: seq<u32>)
    requires |fds| < 0x1_0000_0000
    ensures read == fds
  {
    var cbuf := BuildControl(fds);
    ghost var r := Record(SOL_SOCKET, SCM_RIGHTS, EncodeAll(fds));
    SentAsEncoded(fds);
    hide EncodeAll, DecodeAll, EncodeRecord;
    assert [r][1..] == [] && EncodeRecords([r]) == EncodeRecord(r) + [] == cbuf[..];
    read := ParseControl(cbuf[..], [r]);
  }

  /** What the kernel installed is what either receiver reads back. */
  lemma InstalledIsRead(installed: seq<u32>, truncated: bool)
    requires |installed| <= MAX_FDS
    ensures var records := Delivered(installed, truncated).records;
            AllRights(records) == LastRights(records, []) == installed
  {
    if installed != [] {
      var r := Record(SOL_SOCKET, SCM_RIGHTS, EncodeAll(installed));
      SentAsEncoded(installed);
      hide EncodeAll, DecodeAll;
      assert Delivered(installed, truncated).records == [r] && [r][1..] == [];
      assert AllRights([r]) == DecodeAll(r.data) + AllRights([]);
    }
  }

  /** For every list of at most 32 descriptors and every header, both receivers get the header and the
      descriptors in order exactly when the header counts them; no header makes them take part of a longer list. */
  lemma HandshakeWithRights(header: Handshake, news: seq<u32>)
    ensures |news| <= 32 ==>
              && ReceiveCpp(EncodeHandshake(header), Deliver(news))
                 == ReceiveRust(EncodeHandshake(header), Deliver(news))
                 == if header.bufCount == |news| then Accepted(header, news) else Refused
    ensures |news| > 32 ==>
              && ReceiveCpp(EncodeHandshake(header), Deliver(news)) == Refused
              && ReceiveRust(EncodeHandshake(header), Deliver(news)) ==
                   if header.bufCount == 0 then Accepted(header, []) else Refused
  {
    HandshakeRoundTrip(header, EncodeHandshake(header));
    hide EncodeHandshake, DecodeHandshake, EncodeAll;
    if |news| <= MAX_FDS {
      InstalledIsRead(news, false);
    }
  }

  /** Number of SCM_RIGHTS objects. */
  function Count(records: seq<Record>): nat {
    if records == [] then 0 else (if records[0].IsRights() then 1 else 0) + Count(records[1..])
  }

  lemma {:induction false} OneRightsObject(records: seq<Record>, before: seq<u32>)
    requires Count(records) <= 1
    ensures LastRights(records, before) == if Count(records) == 0 then before else AllRights(records)
    ensures Count(records) == 0 ==> AllRights(records) == []
  {
    if records != [] {
      OneRightsObject(records[1..], if records[0].IsRights() then DecodeAll(records[0].data) else before);
    }
  }

  /** With at most one SCM_RIGHTS object the two receivers differ in two cases only: the C++ code tells end of
      stream from a short message, and the Rust code accepts a truncated delivery whose header counts nothing. */
  lemma ReceiversAgree(bytes: seq<byte>, d: Delivery)
    requires AllValid(d.records) && Count(d.records) <= 1
    ensures ReceiveCpp(bytes, d) != ReceiveRust(bytes, d) <==>
            bytes == [] || (d.truncated && |bytes| == HANDSHAKE_SIZE && DecodeHandshake(bytes).bufCount == 0)
  {
    OneRightsObject(d.records, []);
  }

  /** Of two objects one receiver keeps the last and the other both. */
  lemma ReceiversDiffer(header: Handshake, fd: u32)
    requires header.bufCount == 1
    ensures var rights := Record(SOL_SOCKET, SCM_RIGHTS, EncodeAll([fd]));
            var d := Delivery([rights, rights], false);
            && ReceiveCpp(EncodeHandshake(header), d) == Accepted(header, [fd])
            && ReceiveRust(EncodeHandshake(header), d) == Refused
  {
    HandshakeRoundTrip(header, EncodeHandshake(header));
    SentAsEncoded([fd]);
    hide EncodeHandshake, DecodeHandshake, DecodeAll, EncodeAll;
    var r := Record(SOL_SOCKET, SCM_RIGHTS, EncodeAll([fd]));
    assert [r, r][1..] == [r] && [r][1..] == [];
    assert LastRights([r], []) == LastRights([r][1..], DecodeAll(r.data)) == DecodeAll(r.data);
    assert LastRights([r, r], []) == LastRights([r], DecodeAll(r.data)) == [fd];
    assert AllRights([r]) == DecodeAll(r.data) + AllRights([]) == [fd];
    assert AllRights([r, r]) == [fd] + AllRights([r]);
  }
}
