/**
 The byte formats of the socket: 32-bit words in the host's (little-endian) order and the
 24-byte handshake header of six such words.
 */
module Wire {

  datatype Option<+T> = None | Some(value: T)

  type byte = x: int | 0 <= x < 256

  type u32 = x: int | 0 <= x < 0x1_0000_0000

  const INDEX_SIZE: nat := 4
  const HANDSHAKE_SIZE: nat := 24

  /** The ancillary buffers of both receivers hold this many descriptors. */
  const MAX_FDS: nat := 32

  datatype Handshake = Handshake(bufCount: u32, width: u32, height: u32, format: u32, stride: u32, size: u32)

  function EncodeU32(v: u32): (b: seq<byte>)
    ensures |b| == INDEX_SIZE
  {
    [v % 256, v / 256 % 256, v / 65536 % 256, v / 16777216]
  }

  function DecodeU32(b: seq<byte>): u32
    requires |b| == INDEX_SIZE
  {
    b[0] as int + 256 * b[1] as int + 65536 * b[2] as int + 16777216 * b[3] as int
  }

  /** Words and 4-byte strings are in bijection. */
  lemma U32RoundTrip(v: u32, b: seq<byte>)
    requires |b| == INDEX_SIZE
    ensures DecodeU32(EncodeU32(v)) == v
    ensures EncodeU32(DecodeU32(b)) == b
  {
    DigitsRecombine(v);
    DigitsSplit(b[0], b[1], b[2], b[3]);
    var e := EncodeU32(DecodeU32(b));
    assert e[0] == b[0] && e[1] == b[1] && e[2] == b[2] && e[3] == b[3];
  }

  lemma DigitsRecombine(v: u32)
    ensures v % 256 + 256 * (v / 256 % 256) + 65536 * (v / 65536 % 256) + 16777216 * (v / 16777216) == v
  {
    assert v / 65536 == v / 256 / 256;
    assert v / 16777216 == v / 256 / 256 / 256;
  }

  lemma DigitsSplit(b0: byte, b1: byte, b2: byte, b3: byte)
    ensures var v := b0 + 256 * b1 + 65536 * b2 + 16777216 * b3;
            v % 256 == b0 && v / 256 % 256 == b1 && v / 65536 % 256 == b2 && v / 16777216 == b3
  {
    var v := b0 + 256 * b1 + 65536 * b2 + 16777216 * b3;
    assert v / 256 == b1 + 256 * b2 + 65536 * b3;
    assert v / 65536 == b2 + 256 * b3;
  }

  function EncodeHandshake(h: Handshake): (b: seq<byte>)
    ensures |b| == HANDSHAKE_SIZE
  {
    EncodeU32(h.bufCount) + EncodeU32(h.width) + EncodeU32(h.height)
    + EncodeU32(h.format) + EncodeU32(h.stride) + EncodeU32(h.size)
  }

  function DecodeHandshake(b: seq<byte>): Handshake
    requires |b| == HANDSHAKE_SIZE
  {
    Handshake(DecodeU32(b[0..4]), DecodeU32(b[4..8]), DecodeU32(b[8..12]),
              DecodeU32(b[12..16]), DecodeU32(b[16..20]), DecodeU32(b[20..24]))
  }

  /** All six fields survive the copy out of and back into the struct, and no two headers share an encoding. */
  lemma HandshakeRoundTrip(h: Handshake, b: seq<byte>)
    requires |b| == HANDSHAKE_SIZE
    ensures DecodeHandshake(EncodeHandshake(h)) == h
    ensures EncodeHandshake(DecodeHandshake(b)) == b
  {
    var e := EncodeHandshake(h);
    assert e[0..4] == EncodeU32(h.bufCount) && e[4..8] == EncodeU32(h.width) && e[8..12] == EncodeU32(h.height);
    assert e[12..16] == EncodeU32(h.format) && e[16..20] == EncodeU32(h.stride) && e[20..24] == EncodeU32(h.size);
    U32RoundTrip(h.bufCount, b[0..4]);
    U32RoundTrip(h.width, b[4..8]);
    U32RoundTrip(h.height, b[8..12]);
    U32RoundTrip(h.format, b[12..16]);
    U32RoundTrip(h.stride, b[16..20]);
    U32RoundTrip(h.size, b[20..24]);
    assert b == b[0..4] + b[4..8] + b[8..12] + b[12..16] + b[16..20] + b[20..24];
  }

  /** The word at a byte of a message. */
  function WordAt(b: seq<byte>, at: nat): int
    requires at + 4 <= |b|
  {
    b[at] as int + 0x100 * b[at + 1] as int + 0x1_0000 * b[at + 2] as int + 0x100_0000 * b[at + 3] as int
  }

  /** A word on the wire: four bytes, the least significant first. */
  lemma LittleEndian(v: u32, b: seq<byte>)
    ensures |EncodeU32(v)| == 4 && WordAt(EncodeU32(v), 0) == v
    ensures |b| == 4 ==> DecodeU32(b) == WordAt(b, 0)
  {
    DigitsRecombine(v);
  }

  /** The header on the wire: 24 bytes, the six words in the order of the struct. */
  lemma HeaderLayout(h: Handshake)
    ensures var b := EncodeHandshake(h);
            && |b| == 24
            && WordAt(b, 0) == h.bufCount && WordAt(b, 4) == h.width && WordAt(b, 8) == h.height
            && WordAt(b, 12) == h.format && WordAt(b, 16) == h.stride && WordAt(b, 20) == h.size
  {
    hide EncodeU32, WordAt;
    var b := EncodeHandshake(h);
    WordInside([], h.bufCount, b[4..], b);
    WordInside(b[..4], h.width, b[8..], b);
    WordInside(b[..8], h.height, b[12..], b);
    WordInside(b[..12], h.format, b[16..], b);
    WordInside(b[..16], h.stride, b[20..], b);
    WordInside(b[..20], h.size, [], b);
  }

  lemma WordInside(before: seq<byte>, v: u32, after: seq<byte>, b: seq<byte>)
    requires b == before + EncodeU32(v) + after
    ensures WordAt(b, |before|) == v
  {
    DigitsRecombine(v);
    var e := EncodeU32(v);
    assert forall i :: 0 <= i < 4 ==> b[|before| + i] == e[i];
  }

  /** Indices sent one after the other. */
  function EncodeAll(idxs: seq<u32>): (b: seq<byte>)
    ensures |b| == INDEX_SIZE * |idxs|
  {
    if idxs == [] then [] else EncodeU32(idxs[0]) + EncodeAll(idxs[1..])
  }

  lemma {:induction false} EncodeAllAppend(idxs: seq<u32>, i: u32)
    ensures EncodeAll(idxs + [i]) == EncodeAll(idxs) + EncodeU32(i)
  {
    if idxs == [] {
      assert idxs + [i] == [i] && [i][1..] == [];
    } else {
      assert (idxs + [i])[1..] == idxs[1..] + [i];
      EncodeAllAppend(idxs[1..], i);
    }
  }

  /** The indices a reader of whole indices finds in a byte string. */
  function DecodeAll(b: seq<byte>): seq<u32> {
    if |b| < INDEX_SIZE then [] else [DecodeU32(b[..INDEX_SIZE])] + DecodeAll(b[INDEX_SIZE..])
  }

  /** The k-th index read is the k-th sent, and an index cut short is not read. */
  lemma {:induction false} DecodeAllRoundTrip(idxs: seq<u32>, cut: seq<byte>)
    requires |cut| < INDEX_SIZE
    ensures DecodeAll(EncodeAll(idxs) + cut) == idxs
  {
    var b := EncodeAll(idxs) + cut;
    if idxs != [] {
      assert b[..INDEX_SIZE] == EncodeU32(idxs[0]);
      assert b[INDEX_SIZE..] == EncodeAll(idxs[1..]) + cut;
      U32RoundTrip(idxs[0], EncodeU32(idxs[0]));
      DecodeAllRoundTrip(idxs[1..], cut);
    }
  }

  /** Whole indices at the start of a byte string are the first that a reader finds in it. */
  lemma {:induction false} PrefixDecodes(idxs: seq<u32>, b: seq<byte>)
    requires EncodeAll(idxs) <= b
    ensures idxs <= DecodeAll(b)
  {
    if idxs != [] {
      var rest := EncodeAll(idxs[1..]);
      assert b[..INDEX_SIZE] == EncodeAll(idxs)[..INDEX_SIZE] == EncodeU32(idxs[0]);
      assert rest == EncodeAll(idxs)[INDEX_SIZE..] == b[INDEX_SIZE..][..|rest|];
      U32RoundTrip(idxs[0], EncodeU32(idxs[0]));
      PrefixDecodes(idxs[1..], b[INDEX_SIZE..]);
    }
  }
}
