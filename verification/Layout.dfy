/**
 Where the bytes of an NV12 or NV21 frame lie, as described by the two planes that import_dmabuf hands to EGL:
 full-resolution luma, then one interleaved chroma pair for every two by two pixels.
 */
module Layout {
  import opened Wire
  import opened Import

  function Half(n: nat): nat {
    (n + 1) / 2
  }

  /** Byte of the luma sample of pixel (x, y). */
  function Luma(image: Image, x: nat, y: nat): int
    requires |image.planes| == 2
  {
    image.planes[0].offset + y * image.planes[0].pitch + x
  }

  /** Byte c of the chroma pair shared by the pixels (2cx, 2cy) to (2cx + 1, 2cy + 1). */
  function Chroma(image: Image, cx: nat, cy: nat, c: nat): int
    requires |image.planes| == 2
  {
    image.planes[1].offset + cy * image.planes[1].pitch + 2 * cx + c
  }

  predicate Pixel(meta: Meta, x: nat, y: nat) {
    x < meta.width && y < meta.height
  }

  predicate Sample(meta: Meta, cx: nat, cy: nat, c: nat) {
    cx < Half(meta.width) && cy < Half(meta.height) && c < 2
  }

  /** A chroma sample for each two by two pixels, and for what an odd width or height leaves of them. */
  lemma SampleExactlyWhen(meta: Meta, cx: nat, cy: nat, c: nat)
    ensures Sample(meta, cx, cy, c) <==> Pixel(meta, 2 * cx, 2 * cy) && c < 2
  {
  }

  ghost predicate InBuffer(meta: Meta, image: Image)
    requires |image.planes| == 2
  {
    && (forall x: nat, y: nat :: Pixel(meta, x, y) ==> 0 <= Luma(image, x, y) < meta.size)
    && (forall cx: nat, cy: nat, c: nat :: Sample(meta, cx, cy, c) ==> 0 <= Chroma(image, cx, cy, c) < meta.size)
  }

  ghost predicate Disjoint(meta: Meta, image: Image)
    requires |image.planes| == 2
  {
    forall x: nat, y: nat, cx: nat, cy: nat, c: nat ::
      Pixel(meta, x, y) && Sample(meta, cx, cy, c) ==> Luma(image, x, y) != Chroma(image, cx, cy, c)
  }

  /** Different chroma samples are different bytes. */
  ghost predicate ChromaSeparate(meta: Meta, image: Image)
    requires |image.planes| == 2
  {
    forall cx: nat, cy: nat, c: nat, dx: nat, dy: nat, d: nat ::
      Sample(meta, cx, cy, c) && Sample(meta, dx, dy, d) && Chroma(image, cx, cy, c) == Chroma(image, dx, dy, d)
      ==> cx == dx && cy == dy && c == d
  }

  function LumaSize(meta: Meta): nat {
    meta.stride * meta.height
  }

  /** The chroma plane starts where the luma plane ends, every sample lies in the buffer and no two kinds mix. */
  ghost predicate Sound(meta: Meta, image: Image)
    requires |image.planes| == 2
  {
    && image.planes[1].offset == LumaSize(meta)
    && InBuffer(meta, image) && Disjoint(meta, image) && ChromaSeparate(meta, image)
  }

  /** One past the last chroma byte. */
  function End(meta: Meta): int {
    LumaSize(meta) + (Half(meta.height) - 1) * meta.stride + 2 * Half(meta.width)
  }

  /** The offset computed in 32 bits and cast to signed is the mathematical one iff it fits. */
  lemma OffsetIsExact(meta: Meta)
    ensures UvOffset(meta) == LumaSize(meta) <==> LumaSize(meta) < 0x8000_0000
  {
    var p := LumaSize(meta);
    assert p >= 0;
    if p < 0x8000_0000 {
      assert p % 0x1_0000_0000 == p;
    }
  }

  /** The exact condition for a sound layout: a caller of import_dmabuf can check it on the handshake. */
  predicate Fits(meta: Meta) {
    && LumaSize(meta) < 0x8000_0000
    && End(meta) <= meta.size
    && meta.width <= meta.stride
    && (meta.height <= 2 || 2 * Half(meta.width) <= meta.stride)
  }

  ghost predicate Exact(meta: Meta, image: Image) {
    && meta.width > 0 && meta.height > 0
    && |image.planes| == 2
    && image.planes[0].offset == 0
    && image.planes[0].pitch == image.planes[1].pitch == meta.stride
    && image.planes[1].offset == LumaSize(meta)
  }

  lemma ExactIfFits(fd: i32, meta: Meta, hasModifiers: bool)
    requires meta.SemiPlanar() && meta.width > 0 && meta.height > 0
    requires LumaSize(meta) < 0x8000_0000
    ensures Exact(meta, Meant(fd, meta, hasModifiers))
  {
    OffsetIsExact(meta);
    RowsGrow(1, meta.height, meta.stride);
  }

  lemma RowsGrow(a: nat, b: nat, stride: nat)
    requires a <= b
    ensures a * stride <= b * stride
  {
  }

  lemma NextRow(a: nat, b: nat, stride: nat)
    requires a < b
    ensures a * stride + stride <= b * stride
  {
    RowsGrow(a + 1, b, stride);
  }

  lemma LumaBeforeEnd(meta: Meta)
    requires meta.width > 0 && meta.height > 0
    ensures LumaSize(meta) < End(meta)
  {
    RowsGrow(0, Half(meta.height) - 1, meta.stride);
  }

  lemma LumaInside(meta: Meta, image: Image, x: nat, y: nat)
    requires Exact(meta, image) && Fits(meta) && Pixel(meta, x, y)
    ensures 0 <= Luma(image, x, y) < LumaSize(meta) < meta.size
  {
    hide End;
    NextRow(y, meta.height, meta.stride);
    LumaBeforeEnd(meta);
  }

  lemma ChromaInside(meta: Meta, image: Image, cx: nat, cy: nat, c: nat)
    requires Exact(meta, image) && Fits(meta) && Sample(meta, cx, cy, c)
    ensures LumaSize(meta) <= Chroma(image, cx, cy, c) < meta.size
  {
    hide LumaSize;
    RowsGrow(cy, Half(meta.height) - 1, meta.stride);
  }

  lemma RowsApart(meta: Meta, image: Image, cx: nat, cy: nat, c: nat, dx: nat, dy: nat, d: nat)
    requires Exact(meta, image) && Fits(meta)
    requires Sample(meta, cx, cy, c) && Sample(meta, dx, dy, d) && cy < dy
    ensures Chroma(image, cx, cy, c) < Chroma(image, dx, dy, d)
  {
    NextRow(cy, dy, meta.stride);
  }

  lemma SameRow(image: Image, cx: nat, c: nat, dx: nat, d: nat, cy: nat)
    requires |image.planes| == 2 && c < 2 && d < 2 && Chroma(image, cx, cy, c) == Chroma(image, dx, cy, d)
    ensures cx == dx && c == d
  {
    assert 2 * cx + c == 2 * dx + d;
  }

  lemma FitsIsSound(meta: Meta, image: Image)
    requires Exact(meta, image) && Fits(meta)
    ensures Sound(meta, image)
  {
    hide Half, Luma, Fits, LumaSize, Chroma;
    forall x: nat, y: nat | Pixel(meta, x, y)
      ensures 0 <= Luma(image, x, y) < LumaSize(meta) < meta.size
    {
      LumaInside(meta, image, x, y);
    }
    forall cx: nat, cy: nat, c: nat | Sample(meta, cx, cy, c)
      ensures LumaSize(meta) <= Chroma(image, cx, cy, c) < meta.size
    {
      ChromaInside(meta, image, cx, cy, c);
    }
    forall cx: nat, cy: nat, c: nat, dx: nat, dy: nat, d: nat
      | Sample(meta, cx, cy, c) && Sample(meta, dx, dy, d) && Chroma(image, cx, cy, c) == Chroma(image, dx, dy, d)
      ensures cx == dx && cy == dy && c == d
    {
      if cy < dy {
        RowsApart(meta, image, cx, cy, c, dx, dy, d);
      } else if dy < cy {
        RowsApart(meta, image, dx, dy, d, cx, cy, c);
      } else {
        SameRow(image, cx, c, dx, d, cy);
      }
    }
  }

  /** A stride below the width: the end of the last luma row is the first chroma byte. */
  lemma NarrowStrideMixes(meta: Meta, image: Image)
    requires Exact(meta, image) && meta.stride < meta.width
    ensures !Disjoint(meta, image)
  {
    assert Pixel(meta, meta.stride, meta.height - 1) && Sample(meta, 0, 0, 0);
    assert (meta.height - 1) * meta.stride + meta.stride == LumaSize(meta);
    assert Luma(image, meta.stride, meta.height - 1) == Chroma(image, 0, 0, 0);
  }

  /** An odd width with a stride no wider: the last chroma byte of a row is the first of the next. */
  lemma OddStrideOverlaps(meta: Meta, image: Image)
    requires Exact(meta, image) && meta.height > 2 && meta.stride < 2 * Half(meta.width)
    ensures !ChromaSeparate(meta, image)
  {
    var s := meta.stride;
    assert Sample(meta, s / 2, 0, s % 2) && Sample(meta, 0, 1, 0);
    assert Chroma(image, s / 2, 0, s % 2) == Chroma(image, 0, 1, 0);
  }

  lemma SoundFits(meta: Meta, image: Image)
    requires Exact(meta, image) && LumaSize(meta) < 0x8000_0000 && Sound(meta, image)
    ensures Fits(meta)
  {
    var last := Chroma(image, Half(meta.width) - 1, Half(meta.height) - 1, 1);
    assert Sample(meta, Half(meta.width) - 1, Half(meta.height) - 1, 1);
    assert last == End(meta) - 1;
    hide Disjoint, ChromaSeparate;
    if meta.stride < meta.width {
      NarrowStrideMixes(meta, image);
    } else if meta.height > 2 && meta.stride < 2 * Half(meta.width) {
      OddStrideOverlaps(meta, image);
    }
  }

  /** For every geometry: the layout is sound if and only if it fits. */
  lemma SoundExactlyWhenFits(fd: i32, meta: Meta, hasModifiers: bool)
    requires meta.SemiPlanar() && meta.width > 0 && meta.height > 0
    ensures Sound(meta, Meant(fd, meta, hasModifiers)) <==> Fits(meta)
  {
    var image := Meant(fd, meta, hasModifiers);
    OffsetIsExact(meta);
    if LumaSize(meta) < 0x8000_0000 {
      ExactIfFits(fd, meta, hasModifiers);
      hide Sound, Fits;
      if Fits(meta) {
        FitsIsSound(meta, image);
      }
      if Sound(meta, image) {
        SoundFits(meta, image);
      }
    }
  }

  /** A driver that sizes its buffers for whole rows of both planes, with a stride that covers the width
      rounded up to even, always passes. */
  lemma WholeRowsFit(fd: i32, meta: Meta, hasModifiers: bool)
    requires meta.SemiPlanar() && meta.width > 0 && meta.height > 0
    requires LumaSize(meta) < 0x8000_0000 && 2 * Half(meta.width) <= meta.stride
    requires meta.size >= LumaSize(meta) + meta.stride * Half(meta.height)
    ensures Sound(meta, Meant(fd, meta, hasModifiers))
  {
    assert (Half(meta.height) - 1) * meta.stride == Half(meta.height) * meta.stride - meta.stride;
    hide Sound;
    SoundExactlyWhenFits(fd, meta, hasModifiers);
  }
}
