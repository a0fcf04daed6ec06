/**
 The attribute list handed to eglCreateImageKHR (extension EGL_EXT_image_dma_buf_import): the code that grows it
 step by step, and a reader that recovers the image description from it the way an EGL implementation does.
 */
module Import {
  import opened Wire

  type i32 = x: int | -0x8000_0000 <= x < 0x8000_0000

  const EGL_NONE: i32 := 0x3038
  const EGL_HEIGHT: i32 := 0x3056
  const EGL_WIDTH: i32 := 0x3057
  const EGL_LINUX_DRM_FOURCC: i32 := 0x3271
  const EGL_PLANE0_FD: i32 := 0x3272
  const EGL_PLANE0_OFFSET: i32 := 0x3273
  const EGL_PLANE0_PITCH: i32 := 0x3274
  const EGL_PLANE1_FD: i32 := 0x3275
  const EGL_PLANE1_OFFSET: i32 := 0x3276
  const EGL_PLANE1_PITCH: i32 := 0x3277
  const EGL_PLANE0_MODIFIER_LO: i32 := 0x3443
  const EGL_PLANE0_MODIFIER_HI: i32 := 0x3444
  const EGL_PLANE1_MODIFIER_LO: i32 := 0x3445
  const EGL_PLANE1_MODIFIER_HI: i32 := 0x3446

  const DRM_FORMAT_NV12: u32 := 0x3231_564E
  const DRM_FORMAT_NV21: u32 := 0x3132_564E

  /** FrameMeta: the geometry of every frame of the session. */
  datatype Meta = Meta(width: u32, height: u32, format: u32, stride: u32, size: u32) {
    predicate SemiPlanar() {
      format == DRM_FORMAT_NV12 || format == DRM_FORMAT_NV21
    }
  }

  /** The cast from u32 to EGLint: the same 32 bits. */
  function AsI32(v: u32): i32 {
    if v < 0x8000_0000 then v else v - 0x1_0000_0000
  }

  function AsU32(v: i32): u32 {
    if v >= 0 then v else v + 0x1_0000_0000
  }

  /** Product of two u32 in 32 bits. */
  function MulU32(a: u32, b: u32): u32 {
    a * b % 0x1_0000_0000
  }

  function UvOffset(meta: Meta): i32 {
    AsI32(MulU32(meta.stride, meta.height))
  }

  // ---- key/value pairs ----

  datatype Pair = Pair(key: i32, value: i32)

  function Flatten(pairs: seq<Pair>): seq<i32> {
    if pairs == [] then [] else [pairs[0].key, pairs[0].value] + Flatten(pairs[1..])
  }

  /** Reads pairs up to the first key EGL_NONE; None if the list ends before one. */
  function ReadPairs(list: seq<i32>): Option<seq<Pair>> {
    if list == [] then None
    else if list[0] == EGL_NONE then Some([])
    else if |list| == 1 then None
    else
      match ReadPairs(list[2..])
      case None => None
      case Some(rest) => Some([Pair(list[0], list[1])] + rest)
  }

  ghost predicate NoneIsNoKey(pairs: seq<Pair>) {
    forall i :: 0 <= i < |pairs| ==> pairs[i].key != EGL_NONE
  }

  ghost predicate DistinctKeys(pairs: seq<Pair>) {
    forall i, j :: 0 <= i < j < |pairs| ==> pairs[i].key != pairs[j].key
  }

  /** A reader stops exactly at the terminator, whatever the values are and whatever follows in memory. */
  lemma {:induction false} ReadFlattened(pairs: seq<Pair>, after: seq<i32>)
    requires NoneIsNoKey(pairs)
    ensures ReadPairs(Flatten(pairs) + [EGL_NONE] + after) == Some(pairs)
  {
    var list := Flatten(pairs) + [EGL_NONE] + after;
    if pairs != [] {
      assert list[2..] == Flatten(pairs[1..]) + [EGL_NONE] + after;
      ReadFlattened(pairs[1..], after);
      assert pairs == [pairs[0]] + pairs[1..];
    }
  }

  /** What a reader accepts is a flattened list of pairs and a terminator: the two are inverse. */
  lemma {:induction false} FlattenRead(list: seq<i32>)
    requires ReadPairs(list).Some?
    ensures var pairs := ReadPairs(list).value;
            && NoneIsNoKey(pairs) && 2 * |pairs| < |list|
            && list[..2 * |pairs| + 1] == Flatten(pairs) + [EGL_NONE]
  {
    if list[0] != EGL_NONE {
      FlattenRead(list[2..]);
      var rest := ReadPairs(list[2..]).value;
      var pairs := ReadPairs(list).value;
      assert pairs[1..] == rest;
      assert list[..2 * |pairs| + 1] == list[..2] + list[2..][..2 * |rest| + 1];
    }
  }

  /** A reader that looked for EGL_NONE anywhere would stop early exactly when some value equals it. */
  lemma {:induction false} ScanningStopsEarly(pairs: seq<Pair>)
    requires NoneIsNoKey(pairs)
    ensures EGL_NONE in Flatten(pairs) <==> exists i :: 0 <= i < |pairs| && pairs[i].value == EGL_NONE
  {
    if pairs != [] {
      ScanningStopsEarly(pairs[1..]);
      if EGL_NONE in Flatten(pairs[1..]) {
        var i :| 0 <= i < |pairs[1..]| && pairs[1..][i].value == EGL_NONE;
        assert pairs[i + 1].value == EGL_NONE;
      }
      if i :| 0 <= i < |pairs| && pairs[i].value == EGL_NONE {
        if i > 0 {
          assert pairs[1..][i - 1].value == EGL_NONE;
        }
      }
    }
  }

  lemma {:induction false} FlattenAppend(a: seq<Pair>, b: seq<Pair>)
    ensures Flatten(a + b) == Flatten(a) + Flatten(b)
  {
    if a == [] {
      assert a + b == b;
    } else {
      assert (a + b)[1..] == a[1..] + b;
      FlattenAppend(a[1..], b);
    }
  }

  // ---- what an EGL implementation makes of the list ----

  datatype Plane = Plane(fd: i32, offset: i32, pitch: i32, modifier: Option<(i32, i32)>)

  datatype Image = Image(width: i32, height: i32, fourcc: i32, planes: seq<Plane>)

  function Find(pairs: seq<Pair>, key: i32): Option<i32> {
    if pairs == [] then None
    else if pairs[0].key == key then Some(pairs[0].value)
    else Find(pairs[1..], key)
  }

  /** A plane needs descriptor, offset and pitch; its modifier needs both halves. */
  function ReadPlane(pairs: seq<Pair>, fd: i32, offset: i32, pitch: i32, lo: i32, hi: i32): Option<Plane> {
    match (Find(pairs, fd), Find(pairs, offset), Find(pairs, pitch))
    case (Some(f), Some(o), Some(p)) =>
      var modifier := match (Find(pairs, lo), Find(pairs, hi)) case (Some(l), Some(h)) => Some((l, h)) case _ => None;
      Some(Plane(f, o, p, modifier))
    case _ => None
  }

  function ReadPlane0(pairs: seq<Pair>): Option<Plane> {
    ReadPlane(pairs, EGL_PLANE0_FD, EGL_PLANE0_OFFSET, EGL_PLANE0_PITCH, EGL_PLANE0_MODIFIER_LO, EGL_PLANE0_MODIFIER_HI)
  }

  function ReadPlane1(pairs: seq<Pair>): Option<Plane> {
    ReadPlane(pairs, EGL_PLANE1_FD, EGL_PLANE1_OFFSET, EGL_PLANE1_PITCH, EGL_PLANE1_MODIFIER_LO, EGL_PLANE1_MODIFIER_HI)
  }

  function ImageOf(pairs: seq<Pair>): Option<Image> {
    match (Find(pairs, EGL_WIDTH), Find(pairs, EGL_HEIGHT), Find(pairs, EGL_LINUX_DRM_FOURCC), ReadPlane0(pairs))
    case (Some(w), Some(h), Some(f), Some(p)) =>
      Some(Image(w, h, f, match ReadPlane1(pairs) case None => [p] case Some(q) => [p, q]))
    case _ => None
  }

  function ReadImage(list: seq<i32>): Option<Image> {
    match ReadPairs(list)
    case None => None
    case Some(pairs) => ImageOf(pairs)
  }

  /** The image that is meant: one linear plane, or for NV12 and NV21 a second one behind it in the same DMA-BUF. */
  function Meant(fd: i32, meta: Meta, hasModifiers: bool): Image {
    var linear := if hasModifiers then Some((0, 0)) else None;
    var luma := Plane(fd, 0, AsI32(meta.stride), linear);
    var chroma := Plane(fd, UvOffset(meta), AsI32(meta.stride), linear);
    Image(AsI32(meta.width), AsI32(meta.height), AsI32(meta.format),
          if meta.SemiPlanar() then [luma, chroma] else [luma])
  }

  // ---- the builder ----

  function Base(fd: i32, meta: Meta): seq<Pair> {
    [Pair(EGL_WIDTH, AsI32(meta.width)), Pair(EGL_HEIGHT, AsI32(meta.height)),
     Pair(EGL_LINUX_DRM_FOURCC, AsI32(meta.format)), Pair(EGL_PLANE0_FD, fd),
     Pair(EGL_PLANE0_OFFSET, 0), Pair(EGL_PLANE0_PITCH, AsI32(meta.stride))]
  }

  function Second(fd: i32, meta: Meta): seq<Pair> {
    [Pair(EGL_PLANE1_FD, fd), Pair(EGL_PLANE1_OFFSET, UvOffset(meta)), Pair(EGL_PLANE1_PITCH, AsI32(meta.stride))]
  }

  function Linear(lo: i32, hi: i32): seq<Pair> {
    [Pair(lo, 0), Pair(hi, 0)]
  }

  function Linear0(hasModifiers: bool): seq<Pair> {
    if hasModifiers then Linear(EGL_PLANE0_MODIFIER_LO, EGL_PLANE0_MODIFIER_HI) else []
  }

  function Linear1(hasModifiers: bool): seq<Pair> {
    if hasModifiers then Linear(EGL_PLANE1_MODIFIER_LO, EGL_PLANE1_MODIFIER_HI) else []
  }

  function Pairs(fd: i32, meta: Meta, hasModifiers: bool): seq<Pair> {
    Base(fd, meta) + Linear0(hasModifiers)
    + (if meta.SemiPlanar() then Second(fd, meta) + Linear1(hasModifiers) else [])
  }

  /** The keys are those that EGL 1.4 and its extensions for dma-buf import and format modifiers assign: width, height,
      format, then descriptor, offset and pitch of a plane and the halves of its modifier. */
  predicate KeysAreRegistered(attrs: seq<i32>, twoPlanes: bool, hasModifiers: bool) {
    var p := if hasModifiers then 16 else 12;
    && |attrs| == (if hasModifiers then 17 else 13) + (if twoPlanes then p - 6 else 0)
    && attrs[0] == 0x3057 && attrs[2] == 0x3056 && attrs[4] == 0x3271
    && attrs[6] == 0x3272 && attrs[8] == 0x3273 && attrs[10] == 0x3274
    && (hasModifiers ==> attrs[12] == 0x3443 && attrs[14] == 0x3444)
    && (twoPlanes ==> attrs[p] == 0x3275 && attrs[p + 2] == 0x3276 && attrs[p + 4] == 0x3277)
    && (twoPlanes && hasModifiers ==> attrs[p + 6] == 0x3445 && attrs[p + 8] == 0x3446)
    && attrs[|attrs| - 1] == 0x3038
  }

  /** import_dmabuf up to the foreign call.  Whatever lies behind the list in memory, a reader finds the image
      that is meant, with a second plane for exactly two formats. */
  method BuildAttributes(fd: i32, meta: Meta, hasModifiers: bool) returns (attrs: seq<i32>)
    ensures forall after :: ReadImage(attrs + after) == Some(Meant(fd, meta, hasModifiers))
    ensures forall after ::
              var i := ReadImage(attrs + after);
              i.Some? && |i.value.planes| == if meta.format == 0x3231_564E || meta.format == 0x3132_564E then 2 else 1
    ensures attrs == Flatten(Pairs(fd, meta, hasModifiers)) + [EGL_NONE]
    ensures KeysAreRegistered(attrs, meta.SemiPlanar(), hasModifiers)
  {
    hide Find, ReadImage, AsI32, MulU32, Pairs;
    attrs := [EGL_WIDTH, AsI32(meta.width), EGL_HEIGHT, AsI32(meta.height), EGL_LINUX_DRM_FOURCC, AsI32(meta.format),
              EGL_PLANE0_FD, fd, EGL_PLANE0_OFFSET, 0, EGL_PLANE0_PITCH, AsI32(meta.stride)];
    if hasModifiers {
      attrs := attrs + [EGL_PLANE0_MODIFIER_LO, 0, EGL_PLANE0_MODIFIER_HI, 0];
    }
    if meta.format == DRM_FORMAT_NV12 || meta.format == DRM_FORMAT_NV21 {
      var uvOff := AsI32(MulU32(meta.stride, meta.height));
      attrs := attrs + [EGL_PLANE1_FD, fd, EGL_PLANE1_OFFSET, uvOff, EGL_PLANE1_PITCH, AsI32(meta.stride)];
      if hasModifiers {
        attrs := attrs + [EGL_PLANE1_MODIFIER_LO, 0, EGL_PLANE1_MODIFIER_HI, 0];
      }
    }
    FlatPairs(fd, meta, hasModifiers);
    assert attrs == Flatten(Pairs(fd, meta, hasModifiers));
    attrs := attrs + [EGL_NONE];
    forall after ensures ReadImage(attrs + after) == Some(Meant(fd, meta, hasModifiers)) {
      PairsMeanImage(fd, meta, hasModifiers, after);
    }
  }

  lemma FlatTwo(p: Pair, q: Pair)
    ensures Flatten([p, q]) == [p.key, p.value, q.key, q.value]
  {
    assert [p, q][1..] == [q] && [q][1..] == [];
    assert Flatten([q]) == [q.key, q.value] + Flatten([]);
  }

  lemma FlatThree(p: Pair, q: Pair, r: Pair)
    ensures Flatten([p, q, r]) == [p.key, p.value, q.key, q.value, r.key, r.value]
  {
    assert [p, q, r][1..] == [q, r];
    FlatTwo(q, r);
  }

  lemma FlatPairs(fd: i32, meta: Meta, hasModifiers: bool)
    ensures Flatten(Pairs(fd, meta, hasModifiers)) ==
            [EGL_WIDTH, AsI32(meta.width), EGL_HEIGHT, AsI32(meta.height), EGL_LINUX_DRM_FOURCC, AsI32(meta.format),
             EGL_PLANE0_FD, fd, EGL_PLANE0_OFFSET, 0, EGL_PLANE0_PITCH, AsI32(meta.stride)]
            + (if hasModifiers then [EGL_PLANE0_MODIFIER_LO, 0, EGL_PLANE0_MODIFIER_HI, 0] else [])
            + (if meta.SemiPlanar()
               then [EGL_PLANE1_FD, fd, EGL_PLANE1_OFFSET, UvOffset(meta), EGL_PLANE1_PITCH, AsI32(meta.stride)]
                    + if hasModifiers then [EGL_PLANE1_MODIFIER_LO, 0, EGL_PLANE1_MODIFIER_HI, 0] else []
               else [])
  {
    hide Flatten, AsI32, UvOffset;
    var base := Base(fd, meta);
    var second := Second(fd, meta);
    var rest := if meta.SemiPlanar() then second + Linear1(hasModifiers) else [];
    assert base == base[..3] + base[3..];
    assert base[..3] == [base[0], base[1], base[2]] && base[3..] == [base[3], base[4], base[5]];
    FlattenAppend(base[..3], base[3..]);
    FlatThree(base[0], base[1], base[2]);
    FlatThree(base[3], base[4], base[5]);
    FlatThree(second[0], second[1], second[2]);
    FlatLinear(EGL_PLANE0_MODIFIER_LO, EGL_PLANE0_MODIFIER_HI);
    FlatLinear(EGL_PLANE1_MODIFIER_LO, EGL_PLANE1_MODIFIER_HI);
    FlatEmpty();
    FlattenAppend(base, Linear0(hasModifiers));
    FlattenAppend(second, Linear1(hasModifiers));
    FlattenAppend(base + Linear0(hasModifiers), rest);
    assert Pairs(fd, meta, hasModifiers) == base + Linear0(hasModifiers) + rest;
  }

  lemma FlatEmpty()
    ensures Flatten([]) == []
  {
  }

  lemma FlatLinear(lo: i32, hi: i32)
    ensures Flatten(Linear(lo, hi)) == [lo, 0, hi, 0]
  {
    FlatTwo(Pair(lo, 0), Pair(hi, 0));
  }

  lemma {:induction false} FindAt(pairs: seq<Pair>, i: nat)
    requires i < |pairs| && DistinctKeys(pairs)
    ensures Find(pairs, pairs[i].key) == Some(pairs[i].value)
  {
    if i > 0 {
      FindAt(pairs[1..], i - 1);
    }
  }

  lemma {:induction false} FindNowhere(pairs: seq<Pair>, key: i32)
    requires forall i :: 0 <= i < |pairs| ==> pairs[i].key != key
    ensures Find(pairs, key) == None
  {
    if pairs != [] {
      FindNowhere(pairs[1..], key);
    }
  }

  /** No key twice, none of them EGL_NONE. */
  lemma KeysAreDistinct(fd: i32, meta: Meta, hasModifiers: bool)
    ensures NoneIsNoKey(Pairs(fd, meta, hasModifiers)) && DistinctKeys(Pairs(fd, meta, hasModifiers))
  {
    hide AsI32, UvOffset;
  }

  lemma FindPlane0(fd: i32, meta: Meta, hasModifiers: bool)
    ensures ReadPlane0(Pairs(fd, meta, hasModifiers)) ==
            Some(Plane(fd, 0, AsI32(meta.stride), if hasModifiers then Some((0, 0)) else None))
  {
    hide AsI32, UvOffset, Find, DistinctKeys;
    var pairs := Pairs(fd, meta, hasModifiers);
    KeysAreDistinct(fd, meta, hasModifiers);
    FindAt(pairs, 3);
    FindAt(pairs, 4);
    FindAt(pairs, 5);
    if hasModifiers {
      FindAt(pairs, 6);
      FindAt(pairs, 7);
    } else {
      FindNowhere(pairs, EGL_PLANE0_MODIFIER_LO);
    }
  }

  lemma FindPlane1(fd: i32, meta: Meta, hasModifiers: bool)
    ensures ReadPlane1(Pairs(fd, meta, hasModifiers)) ==
            if meta.SemiPlanar()
            then Some(Plane(fd, UvOffset(meta), AsI32(meta.stride), if hasModifiers then Some((0, 0)) else None))
            else None
  {
    hide AsI32, UvOffset, Find, DistinctKeys;
    var pairs := Pairs(fd, meta, hasModifiers);
    KeysAreDistinct(fd, meta, hasModifiers);
    if meta.SemiPlanar() {
      var at := if hasModifiers then 8 else 6;
      FindAt(pairs, at);
      FindAt(pairs, at + 1);
      FindAt(pairs, at + 2);
      if hasModifiers {
        FindAt(pairs, at + 3);
        FindAt(pairs, at + 4);
      } else {
        FindNowhere(pairs, EGL_PLANE1_MODIFIER_LO);
      }
    } else {
      FindNowhere(pairs, EGL_PLANE1_FD);
    }
  }

  lemma PairsMeanImage(fd: i32, meta: Meta, hasModifiers: bool, after: seq<i32>)
    ensures ReadImage(Flatten(Pairs(fd, meta, hasModifiers)) + [EGL_NONE] + after)
            == Some(Meant(fd, meta, hasModifiers))
  {
    hide AsI32, UvOffset, Find, DistinctKeys, Flatten, ReadPairs, ReadPlane0, ReadPlane1;
    var pairs := Pairs(fd, meta, hasModifiers);
    KeysAreDistinct(fd, meta, hasModifiers);
    ReadFlattened(pairs, after);
    FindAt(pairs, 0);
    FindAt(pairs, 1);
    FindAt(pairs, 2);
    FindPlane0(fd, meta, hasModifiers);
    FindPlane1(fd, meta, hasModifiers);
  }

  lemma SmallOffset(meta: Meta)
    ensures meta.stride * meta.height < 0x8000_0000 ==> UvOffset(meta) == meta.stride * meta.height
  {
    var p := meta.stride * meta.height;
    assert p >= 0;
    if p < 0x8000_0000 {
      assert p % 0x1_0000_0000 == p;
    }
  }

  /** Every field of the geometry but the size survives the casts to signed attributes. */
  lemma MeantIsFaithful(fd: i32, meta: Meta, hasModifiers: bool)
    ensures var image := Meant(fd, meta, hasModifiers);
            && AsU32(image.width) == meta.width && AsU32(image.height) == meta.height
            && AsU32(image.fourcc) == meta.format
            && |image.planes| == (if meta.format == 0x3231_564E || meta.format == 0x3132_564E then 2 else 1)
            && image.planes[0].offset == 0
            && (|image.planes| == 2 && meta.stride * meta.height < 0x8000_0000 ==>
                  image.planes[1].offset == meta.stride * meta.height)
            && forall i :: 0 <= i < |image.planes| ==>
                 image.planes[i].fd == fd && AsU32(image.planes[i].pitch) == meta.stride
                 && image.planes[i].modifier.Some? == hasModifiers
  {
    SmallOffset(meta);
    hide UvOffset;
  }
}
