/** Fill and stroke passes over a bitmap, and what each of them paints (src/External/nanosvg/nanosvgrast.h). */
module Render {
  import opened Edges
  import opened Sweep
  import opened Coverage
  import opened Blend
  import opened Bitmap
  import opened Rasterize
  import opened Interior

  /** One fill or stroke: the outline as flattenShape or expandStroke left it, the same edges placed on the bitmap in
      the order qsort gave them, and how they are painted. */
  datatype Pass = Pass(outline: seq<Edge>, edges: seq<Edge>, rule: FillRule, paint: Paint)

  ghost predicate ValidPass(p: Pass, at: Placement) {
    ValidEdges(p.outline) && ValidPaint(p.paint) &&
    multiset(p.edges) == multiset(PlaceAll(p.outline, at.tx, at.ty)) && SortedByTop(p.edges)
  }

  lemma PassEdgesValid(p: Pass, at: Placement)
    requires ValidPass(p, at)
    ensures ValidEdges(p.edges)
  {
    hide Place;
    var placed := PlaceAll(p.outline, at.tx, at.ty);
    forall i | 0 <= i < |p.edges| ensures ValidEdge(p.edges[i]) {
      assert p.edges[i] in multiset(p.edges);
      assert p.edges[i] in placed;
      var j :| 0 <= j < |placed| && placed[j] == p.edges[i];
      assert ValidEdge(p.outline[j]);
      PlaceValid(p.outline[j], at);
    }
  }

  lemma ValidPassOutline(p: Pass, at: Placement)
    requires ValidPass(p, at)
    ensures ValidEdges(p.outline)
  {
  }

  lemma PlaceValid(e: Edge, at: Placement)
    requires ValidEdge(e)
    ensures ValidEdge(Place(e, at.tx, at.ty))
  {
  }

  /** For a closed outline, a sample of a sub-scanline that keeps clear of the edges is inside a span exactly when its
      point of the image is inside the outline, whatever order qsort chose and whatever the placement. */
  lemma ClosedPassFollowsFillRule(p: Pass, at: Placement, k: nat, x: int)
    requires ValidPass(p, at) && Balanced(p.outline)
    ensures ValidEdges(p.edges)
    ensures SampleAway(p.edges, k, x) ==>
              (InSpans(SpansOf(p.rule, ActiveOn(p.edges, k)), x)
               <==> Inside(p.rule, p.outline, SamplePoint(at.tx, at.ty, k, x)))
  {
    hide Balanced, ActiveOn, SpansOf, InSpans, Inside, SampleAway, SamplePoint;
    PassEdgesValid(p, at);
    if SampleAway(p.edges, k, x) {
      SweepFollowsOutline(p.rule, p.outline, p.edges, at.tx, at.ty, k, x);
    }
  }

  /** How many of the first n sub-scanlines of pixel (x, y) have the pixel's first sample inside the outline. */
  function InsideRows(p: Pass, at: Placement, x: nat, y: nat, n: nat): (r: nat)
    requires ValidEdges(p.outline)
    ensures r <= n
  {
    if n == 0 then 0
    else
      InsideRows(p, at, x, y, n - 1) +
      (if Inside(p.rule, p.outline, SamplePoint(at.tx, at.ty, y * SUBSAMPLES + n - 1, FIX * x)) then 1 else 0)
  }

  /** On its first n sub-scanlines every sample of pixel (x, y) keeps clear of the edges. */
  ghost predicate NotCut(es: seq<Edge>, x: nat, y: nat, n: nat)
    requires ValidEdges(es)
  {
    forall k: nat :: y * SUBSAMPLES <= k < y * SUBSAMPLES + n ==> PixelAway(es, k, x)
  }

  /** A pixel that no edge of a closed outline passes through is covered by 51 for each sub-scanline inside: wholly
      where all are inside, not at all where none is. */
  lemma UncutPixel(p: Pass, at: Placement, x: nat, y: nat)
    requires ValidPass(p, at) && Balanced(p.outline)
    ensures ValidEdges(p.edges)
    ensures NotCut(p.edges, x, y, SUBSAMPLES) ==>
              PixelCoverage(p.edges, p.rule, y, x) == MAX_WEIGHT * InsideRows(p, at, x, y, SUBSAMPLES)
  {
    hide Balanced, NotCut, CoverageUpTo, InsideRows, ValidEdges, SortedByTop;
    PassEdgesValid(p, at);
    if NotCut(p.edges, x, y, SUBSAMPLES) {
      UncutUpTo(p, at, x, y, SUBSAMPLES);
    }
  }

  /** So such a pixel is covered fully if its five sub-scanlines are inside, and not at all if none is. */
  lemma InsideIsFull(p: Pass, at: Placement, x: nat, y: nat)
    requires ValidPass(p, at) && Balanced(p.outline)
    ensures ValidEdges(p.edges)
    ensures NotCut(p.edges, x, y, 5) && InsideRows(p, at, x, y, 5) == 5 ==> PixelCoverage(p.edges, p.rule, y, x) == 255
    ensures NotCut(p.edges, x, y, 5) && InsideRows(p, at, x, y, 5) == 0 ==> PixelCoverage(p.edges, p.rule, y, x) == 0
  {
    UncutPixel(p, at, x, y);
    hide Balanced, NotCut, CoverageUpTo, InsideRows, ValidEdges, SortedByTop, PixelCoverage;
  }

  lemma {:induction false} UncutUpTo(p: Pass, at: Placement, x: nat, y: nat, n: nat)
    requires ValidPass(p, at) && Balanced(p.outline) && ValidEdges(p.edges)
    requires NotCut(p.edges, x, y, n)
    ensures CoverageUpTo(p.edges, p.rule, y, n, x) == MAX_WEIGHT * InsideRows(p, at, x, y, n)
  {
    hide Balanced, PixelAway, SpansOf, ActiveOn, InSpans, Inside, SampleAway, SamplePoint, SumCover, SortedByTop,
         ValidEdges;
    if n > 0 {
      var k := y * SUBSAMPLES + (n - 1);
      UncutUpTo(p, at, x, y, n - 1);
      UncutRow(p.rule, p.edges, k, x, MAX_WEIGHT);
      FirstSampleAway(p.edges, k, x);
      ClosedPassFollowsFillRule(p, at, k, FIX * x);
    }
  }

  lemma FirstSampleAway(es: seq<Edge>, k: nat, p: int)
    requires ValidEdges(es) && PixelAway(es, k, p)
    ensures SampleAway(es, k, FIX * p)
  {
    hide SampleAway;
  }

  const TRANSPARENT := Rgba(0, 0, 0, 0)

  ghost predicate ValidPasses(passes: seq<Pass>, at: Placement) {
    at.scale > 0.0 && forall i :: 0 <= i < |passes| ==> ValidPass(passes[i], at)
  }

  /** Pixel (x, y) after the passes over a cleared bitmap. */
  ghost function PaintedBy(passes: seq<Pass>, sqrt: real -> real, at: Placement, x: nat, y: nat): (r: Rgba)
    requires ValidPasses(passes, at)
    ensures Premultiplied(r)
  {
    if passes == [] then TRANSPARENT
    else
      var p, before := passes[|passes| - 1], PaintedBy(passes[..|passes| - 1], sqrt, at, x, y);
      PassEdgesValid(p, at);
      BlendKeepsPremultiplied(before, PixelCoverage(p.edges, p.rule, y, x), PixelColor(p.paint, sqrt, at, x, y));
      PaintedPixel(p.edges, p.rule, p.paint, sqrt, at, x, y, before)
  }

  lemma PaintedByOneMore(passes: seq<Pass>, p: Pass, sqrt: real -> real, at: Placement, x: nat, y: nat)
    requires ValidPasses(passes, at) && ValidPass(p, at)
    ensures ValidPasses(passes + [p], at) && ValidEdges(p.edges)
    ensures PaintedBy(passes + [p], sqrt, at, x, y)
         == PaintedPixel(p.edges, p.rule, p.paint, sqrt, at, x, y, PaintedBy(passes, sqrt, at, x, y))
  {
    PassEdgesValid(p, at);
    hide ValidPass, PaintedPixel, Premultiplied;
    assert (passes + [p])[..|passes|] == passes;
  }

  // The memset loop over the rows.
  method ClearImage(l: Layout, dst: array<byte>)
    requires Holds(l, dst.Length)
    modifies dst
    ensures forall x: nat, y: nat :: x < l.w && y < l.h ==> Pixel(l, dst[..], x, y) == TRANSPARENT
    ensures forall k :: 0 <= k < dst.Length && !InImage(l, k) ==> dst[k] == old(dst[k])
  {
    hide Pixel, Holds;
    for y := 0 to l.h
      invariant forall x': nat, y': nat :: x' < l.w && y' < y ==> Pixel(l, dst[..], x', y') == TRANSPARENT
      invariant forall k :: 0 <= k < dst.Length && !InImage(l, k) ==> dst[k] == old(dst[k])
    {
      ghost var was := dst[..];
      RowFits(l, y, dst.Length);
      ClearRow(dst, RowAt(l, y), 4 * l.w);
      RowCleared(l, was, dst[..], y);
    }
  }

  method ClearRow(dst: array<byte>, start: nat, count: nat)
    requires start + count <= dst.Length
    modifies dst
    ensures forall k :: start <= k < start + count ==> dst[k] == 0
    ensures forall k :: 0 <= k < dst.Length && !(start <= k < start + count) ==> dst[k] == old(dst[k])
  {
    for i := 0 to count
      invariant forall k :: start <= k < start + i ==> dst[k] == 0
      invariant forall k :: 0 <= k < dst.Length && !(start <= k < start + i) ==> dst[k] == old(dst[k])
    {
      dst[start + i] := 0;
    }
  }

  lemma RowCleared(l: Layout, before: seq<byte>, after: seq<byte>, y: nat)
    requires |before| == |after| && Holds(l, |before|) && y < l.h && RowAt(l, y) + 4 * l.w <= |before|
    requires forall k :: RowAt(l, y) <= k < RowAt(l, y) + 4 * l.w ==> after[k] == 0
    requires forall k :: 0 <= k < |before| && !(RowAt(l, y) <= k < RowAt(l, y) + 4 * l.w) ==> after[k] == before[k]
    ensures forall x': nat, y': nat :: x' < l.w && y' < y ==> Pixel(l, after, x', y') == Pixel(l, before, x', y')
    ensures forall x': nat :: x' < l.w ==> Pixel(l, after, x', y) == TRANSPARENT
    ensures forall k :: 0 <= k < |before| && !InImage(l, k) ==> after[k] == before[k]
  {
    forall x': nat, y': nat | x' < l.w && y' < y ensures Pixel(l, after, x', y') == Pixel(l, before, x', y') {
      PixelFits(l, x', y', |before|);
      RowsApart(l, y', y);
    }
    forall x': nat | x' < l.w ensures Pixel(l, after, x', y) == TRANSPARENT {
      PixelFits(l, x', y, |before|);
    }
    forall k | 0 <= k < |before| && !InImage(l, k) ensures after[k] == before[k] {
      assert !(RowAt(l, y) <= k < RowAt(l, y) + 4 * l.w);
    }
  }
}
