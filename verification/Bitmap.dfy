/** Pixels of an image buffer with rows of `stride` bytes (src/External/nanosvg/nanosvgrast.h, bitmap and stride). */
module Bitmap {
  import opened Coverage
  import opened Blend

  /** An image buffer of w x h pixels with `stride` bytes per row. */
  datatype Layout = Layout(w: nat, h: nat, stride: nat)

  ghost predicate Holds(l: Layout, length: int) {
    4 * l.w <= l.stride && l.h * l.stride <= length
  }

  function RowAt(l: Layout, y: nat): nat {
    y * l.stride
  }

  lemma RowFits(l: Layout, y: nat, length: int)
    requires Holds(l, length) && y < l.h
    ensures RowAt(l, y) + 4 * l.w <= length
    ensures RowAt(l, y) + l.stride == RowAt(l, y + 1)
  {
    Distribute(y, l.h - y - 1, l.stride);
  }

  lemma Distribute(y: nat, d: nat, stride: nat)
    ensures (y + 1 + d) * stride == y * stride + stride + d * stride
    ensures (y + 1) * stride == y * stride + stride
    ensures d * stride >= 0
  {
  }

  lemma RowsApart(l: Layout, y: nat, y': nat)
    requires y < y'
    ensures RowAt(l, y) + l.stride <= RowAt(l, y')
  {
    Distribute(y, y' - y - 1, l.stride);
  }

  lemma PixelFits(l: Layout, x: nat, y: nat, length: int)
    requires Holds(l, length) && x < l.w && y < l.h
    ensures RowAt(l, y) + 4 * x + 4 <= length
  {
    RowFits(l, y, length);
  }

  /** Pixel (x, y). */
  function Pixel(l: Layout, b: seq<byte>, x: nat, y: nat): Rgba
    requires Holds(l, |b|) && x < l.w && y < l.h
  {
    PixelFits(l, x, y, |b|);
    Px(b, RowAt(l, y), x)
  }

  /** A pixel is four bytes of its row: red, green, blue and alpha. */
  lemma PixelBytes(l: Layout, b: seq<byte>, x: nat, y: nat)
    requires Holds(l, |b|) && x < l.w && y < l.h
    ensures y * l.stride + 4 * x + 4 <= |b|
    ensures var k := y * l.stride + 4 * x; Pixel(l, b, x, y) == Rgba(b[k], b[k + 1], b[k + 2], b[k + 3])
  {
    PixelFits(l, x, y, |b|);
  }

  /** Different pixels occupy different bytes. */
  lemma PixelsApart(l: Layout, x: nat, y: nat, x': nat, y': nat)
    requires 4 * l.w <= l.stride && x < l.w && x' < l.w && (x != x' || y != y')
    ensures var k, k' := RowAt(l, y) + 4 * x, RowAt(l, y') + 4 * x';
            k + 4 <= k' || k' + 4 <= k
  {
    if y < y' {
      RowsApart(l, y, y');
    } else if y' < y {
      RowsApart(l, y', y);
    }
  }

  ghost predicate AllPremultiplied(l: Layout, b: seq<byte>)
    requires Holds(l, |b|)
  {
    forall x: nat, y: nat :: x < l.w && y < l.h ==> Premultiplied(Pixel(l, b, x, y))
  }

  // The byte belongs to some pixel of the image.
  ghost predicate InImage(l: Layout, k: int) {
    exists y: nat :: y < l.h && RowAt(l, y) <= k < RowAt(l, y) + 4 * l.w
  }

  /** Nothing but pixels of the image differs. */
  ghost predicate SameOutside(l: Layout, before: seq<byte>, after: seq<byte>) {
    |before| == |after| && forall k :: 0 <= k < |before| && !InImage(l, k) ==> after[k] == before[k]
  }

  lemma SameOutsideNext(l: Layout, a: seq<byte>, b: seq<byte>, c: seq<byte>)
    requires SameOutside(l, a, b) && SameOutside(l, b, c)
    ensures SameOutside(l, a, c)
  {
    hide InImage;
  }

  lemma PixelChanged(l: Layout, x: nat, y: nat, before: seq<byte>, after: seq<byte>)
    requires Holds(l, |before|) && |before| == |after| && x < l.w && y < l.h
    requires forall k :: 0 <= k < |before| && !(RowAt(l, y) + 4 * x <= k < RowAt(l, y) + 4 * x + 4) ==>
               after[k] == before[k]
    ensures SameOutside(l, before, after)
  {
    forall k | 0 <= k < |before| && !InImage(l, k) ensures after[k] == before[k] {
      assert !(RowAt(l, y) <= k < RowAt(l, y) + 4 * l.w);
    }
  }
}
