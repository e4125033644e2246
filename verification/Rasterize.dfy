/** nsvg__rasterizeSortedEdges as a whole (src/External/nanosvg/nanosvgrast.h).

    Every pixel ends up blended once with the paint's colour at the coverage its five sub-scanlines add up to; the
    linked list, the freelist, the byte scanline and the blitted range leave no other trace. */
module Rasterize {
  import opened Edges
  import opened Sweep
  import opened ActiveList
  import opened Coverage
  import opened Blend
  import opened Bitmap
  import Pool

  const MAX_WEIGHT := 51 // 255 / SUBSAMPLES

  /** What sub-scanline k adds to pixel column p. */
  function SubCover(edges: seq<Edge>, rule: FillRule, k: nat, p: int): nat
    requires ValidEdges(edges)
  {
    SumCover(SpansOf(rule, ActiveOn(edges, k)), p, MAX_WEIGHT)
  }

  lemma SubCoverFits(edges: seq<Edge>, rule: FillRule, k: nat, p: int)
    requires ValidEdges(edges) && SortedByTop(edges)
    ensures SubCover(edges, rule, k, p) <= MAX_WEIGHT
  {
    hide SumCover, ActiveOn, SpansOf, Sorted;
    ActiveListIsCrossingEdges(edges, k);
    ActiveSpansFit(rule, ActiveOn(edges, k), p, MAX_WEIGHT);
  }

  /** Coverage of pixel (p, y) after its first n sub-scanlines. */
  function CoverageUpTo(edges: seq<Edge>, rule: FillRule, y: nat, n: nat, p: int): (c: nat)
    requires ValidEdges(edges) && SortedByTop(edges)
    ensures c <= n * MAX_WEIGHT
  {
    if n == 0 then 0
    else
      SubCoverFits(edges, rule, y * SUBSAMPLES + n - 1, p);
      CoverageUpTo(edges, rule, y, n - 1, p) + SubCover(edges, rule, y * SUBSAMPLES + n - 1, p)
  }

  /** Coverage of pixel (p, y): never more than a byte holds. */
  function PixelCoverage(edges: seq<Edge>, rule: FillRule, y: nat, p: int): byte
    requires ValidEdges(edges) && SortedByTop(edges)
  {
    CoverageUpTo(edges, rule, y, SUBSAMPLES, p)
  }

  /** What the whole pass makes of pixel (x, y). */
  function PaintedPixel(edges: seq<Edge>, rule: FillRule, paint: Paint, sqrt: real -> real, at: Placement, x: nat,
                        y: nat, before: Rgba): Rgba
    requires ValidEdges(edges) && SortedByTop(edges) && ValidPaint(paint) && at.scale > 0.0
  {
    BlendOver(before, PixelCoverage(edges, rule, y, x), PixelColor(paint, sqrt, at, x, y))
  }

  // The insertion loop of one sub-scanline.
  method AdmitEdges(list: EdgeList, edges: seq<Edge>, next: nat, k: nat, ghost st: State) returns (e: nat)
    requires list.Valid() && list.InPool() && ValidEdges(edges) && next <= |edges|
    requires st == State(list.Contents(), next)
    modifies list, list.Repr, list.pool
    ensures list.Valid() && list.InPool() && fresh(list.Repr - old(list.Repr))
    ensures State(list.Contents(), e) == Admitted(edges, st, k)
  {
    hide list.Valid, list.Contents, list.InPool, Inserted, Started, Scan;
    e := next;
    while e < |edges| && edges[e].y0 <= Scan(k)
      invariant list.Valid() && list.InPool() && fresh(list.Repr - old(list.Repr))
      invariant next <= e <= |edges|
      invariant Admitted(edges, State(list.Contents(), e), k) == Admitted(edges, st, k)
      decreases |edges| - e
    {
      if edges[e].y1 > Scan(k) {
        list.Insert(edges[e], k);
      }
      e := e + 1;
    }
  }

  /** The list work of one sub-scanline: remove and step, re-sort, insert. */
  method SubScanline(list: EdgeList, edges: seq<Edge>, next: nat, k: nat) returns (e: nat)
    requires list.Valid() && list.InPool() && ValidEdges(edges)
    requires State(list.Contents(), next) == SweptTo(edges, k)
    modifies list, list.Repr, list.pool
    ensures list.Valid() && list.InPool() && fresh(list.Repr - old(list.Repr))
    ensures State(list.Contents(), e) == SweptTo(edges, k + 1)
  {
    hide list.Valid, list.Contents, Stepped, Resorted, Admitted;
    list.StepAndRemove(k);
    list.Resort();
    e := AdmitEdges(list, edges, next, k, State(list.Contents(), next));
  }

  // memset of the scanline.
  method Clear(scanline: array<byte>, len: nat)
    requires len <= scanline.Length
    modifies scanline
    ensures forall p :: 0 <= p < len ==> scanline[p] == 0
  {
    for i := 0 to len
      invariant forall p :: 0 <= p < i ==> scanline[p] == 0
    {
      scanline[i] := 0;
    }
  }

  lemma CoverageStep(edges: seq<Edge>, rule: FillRule, y: nat, n: nat, p: int)
    requires ValidEdges(edges) && SortedByTop(edges)
    ensures CoverageUpTo(edges, rule, y, 0, p) == 0
    ensures var k := y * SUBSAMPLES + n;
            CoverageUpTo(edges, rule, y, n + 1, p)
            == CoverageUpTo(edges, rule, y, n, p) + SumCover(SpansOf(rule, ActiveOn(edges, k)), p, MAX_WEIGHT)
    ensures CoverageUpTo(edges, rule, y, n + 1, p) <= (n + 1) * MAX_WEIGHT
  {
    hide SumCover, ActiveOn, SpansOf;
  }

  /** The five sub-scanlines of row y: afterwards the scanline holds the row's coverage, and [xmin, xmax] contains every
      covered pixel. */
  method CoverRow(list: EdgeList, edges: seq<Edge>, next: nat, y: nat, scanline: array<byte>, width: nat,
                  rule: FillRule)
    returns (e: nat, xmin: int, xmax: int)
    requires list.Valid() && list.InPool() && ValidEdges(edges) && SortedByTop(edges) && width <= scanline.Length
    requires State(list.Contents(), next) == SweptTo(edges, y * SUBSAMPLES)
    modifies list, list.Repr, list.pool, scanline
    ensures list.Valid() && list.InPool() && fresh(list.Repr - old(list.Repr))
    ensures State(list.Contents(), e) == SweptTo(edges, (y + 1) * SUBSAMPLES)
    ensures forall p :: 0 <= p < width ==> scanline[p] == PixelCoverage(edges, rule, y, p)
    ensures forall p :: 0 <= p < width && scanline[p] > 0 ==> xmin <= p <= xmax
  {
    hide list.Valid, list.Contents, list.InPool, SweptTo, SumCover, SpansOf, ActiveOn, Sorted, UnitDirs, CoverageUpTo;
    Clear(scanline, width);
    e, xmin, xmax := next, width, 0;
    forall p ensures CoverageUpTo(edges, rule, y, 0, p) == 0 { CoverageStep(edges, rule, y, 0, p); }
    for s := 0 to SUBSAMPLES
      invariant list.Valid() && list.InPool() && fresh(list.Repr - old(list.Repr))
      invariant State(list.Contents(), e) == SweptTo(edges, y * SUBSAMPLES + s)
      invariant forall p :: 0 <= p < width ==> scanline[p] == CoverageUpTo(edges, rule, y, s, p)
      invariant forall p :: 0 <= p < width && scanline[p] > 0 ==> xmin <= p <= xmax
    {
      var k := y * SUBSAMPLES + s;
      e := SubScanline(list, edges, e, k);
      ActiveIs(edges, k);
      ActiveListIsCrossingEdges(edges, k);
      ActiveUnitDirs(edges, k);
      forall p ensures CoverageUpTo(edges, rule, y, s + 1, p)
                    == CoverageUpTo(edges, rule, y, s, p) + SumCover(SpansOf(rule, ActiveOn(edges, k)), p, MAX_WEIGHT)
               ensures CoverageUpTo(edges, rule, y, s + 1, p) <= (s + 1) * MAX_WEIGHT
      {
        CoverageStep(edges, rule, y, s, p);
      }
      if list.head != null {
        xmin, xmax := FillActiveEdges(list, scanline, width, MAX_WEIGHT, xmin, xmax, rule);
      } else {
        EmptyList(list, rule);
      }
    }
  }

  lemma ActiveIs(edges: seq<Edge>, k: nat)
    requires ValidEdges(edges)
    ensures SweptTo(edges, k + 1).active == ActiveOn(edges, k)
  {
    hide SweptTo;
  }

  lemma EmptyList(list: EdgeList, rule: FillRule)
    requires list.Valid() && list.head == null
    ensures forall p :: SumCover(SpansOf(rule, list.Contents()), p, MAX_WEIGHT) == 0
  {
    assert list.Contents() == [];
    assert SpansOf(rule, []) == [];
  }

  lemma SamePixel(b: seq<byte>, row: nat, x0: nat, i: nat)
    requires row + 4 * (x0 + i) + 4 <= |b|
    ensures Px(b, row + 4 * x0, i) == Px(b, row, x0 + i)
  {
  }

  ghost predicate RowPainted(before: seq<byte>, after: seq<byte>, row: nat, width: nat, cover: seq<byte>,
                             paint: Paint, sqrt: real -> real, at: Placement, y: int)
    requires |before| == |after| && row + 4 * width <= |before| && width <= |cover|
    requires ValidPaint(paint) && at.scale > 0.0
  {
    (forall x: nat :: x < width ==>
       Px(after, row, x) == BlendOver(Px(before, row, x), cover[x], PixelColor(paint, sqrt, at, x, y))) &&
    (forall k :: 0 <= k < |before| && !(row <= k < row + 4 * width) ==> after[k] == before[k])
  }

  /** The blit of one row, restricted to [xmin, xmax]: the pixels it leaves out have no coverage and would not change.
      */
  method BlitRow(bitmap: array<byte>, row: nat, width: nat, scanline: array<byte>, xmin: int, xmax: int, y: int,
                 at: Placement, paint: Paint, sqrt: real -> real)
    requires row + 4 * width <= bitmap.Length && width <= scanline.Length && bitmap != scanline
    requires ValidPaint(paint) && at.scale > 0.0
    requires forall p :: 0 <= p < width && scanline[p] > 0 ==> xmin <= p <= xmax
    modifies bitmap
    ensures RowPainted(old(bitmap[..]), bitmap[..], row, width, scanline[..], paint, sqrt, at, y)
  {
    hide BlendOver, PixelColor;
    ghost var before, cover := bitmap[..], scanline[..];
    var lo, hi := if xmin < 0 then 0 else xmin, if xmax > width - 1 then width - 1 else xmax;
    if lo <= hi {
      ScanlineSolid(bitmap, row + 4 * lo, hi - lo + 1, scanline, lo, lo, y, at, paint, sqrt);
    }
    forall x: nat | x < width
      ensures Px(bitmap[..], row, x) == BlendOver(Px(before, row, x), cover[x], PixelColor(paint, sqrt, at, x, y))
    {
      if lo <= x <= hi {
        SamePixel(bitmap[..], row, lo, x - lo);
        SamePixel(before, row, lo, x - lo);
      } else {
        assert cover[x] == 0 && Px(bitmap[..], row, x) == Px(before, row, x);
        NoCoverageNoChange(Px(before, row, x), PixelColor(paint, sqrt, at, x, y));
      }
    }
  }

  /** nsvg__rasterizeSortedEdges; the nodes of the active list lie in `pool`, none on top of another. */
  method RasterizeSortedEdges(edges: seq<Edge>, l: Layout, bitmap: array<byte>, scanline: array<byte>, rule: FillRule,
                              at: Placement, paint: Paint, sqrt: real -> real, pool: Pool.MemPool)
    requires ValidEdges(edges) && SortedByTop(edges)
    requires Holds(l, bitmap.Length) && l.w <= scanline.Length && bitmap != scanline
    requires ValidPaint(paint) && at.scale > 0.0 && pool.Valid()
    modifies bitmap, scanline, pool
    ensures pool.Valid()
    ensures forall x: nat, y: nat :: x < l.w && y < l.h ==>
              Pixel(l, bitmap[..], x, y)
              == PaintedPixel(edges, rule, paint, sqrt, at, x, y, Pixel(l, old(bitmap[..]), x, y))
    ensures forall k :: 0 <= k < bitmap.Length && !InImage(l, k) ==> bitmap[k] == old(bitmap[k])
  {
    hide Pixel, PaintedPixel, InImage, Holds, SweptTo, SortedByTop, ValidEdges, RowsPainted;
    ghost var before := bitmap[..];
    var list := new EdgeList(pool);
    var e := 0;
    SweepStart(edges);
    NoRowsPainted(l, before, edges, rule, paint, sqrt, at);
    hide list.Valid, list.Contents, list.InPool;
    for y := 0 to l.h
      invariant list.Valid() && list.InPool() && fresh(list) && fresh(list.Repr) && list.pool == pool
      invariant State(list.Contents(), e) == SweptTo(edges, y * SUBSAMPLES)
      invariant RowsPainted(l, before, bitmap[..], 0, y, edges, rule, paint, sqrt, at)
    {
      ghost var was := bitmap[..];
      e := RasterizeRow(list, edges, e, y, l, bitmap, scanline, rule, at, paint, sqrt);
      RowsPaintedNext(l, before, was, bitmap[..], y, edges, rule, paint, sqrt, at);
    }
    PoolIsValid(list);
    AllRowsPainted(l, before, bitmap[..], edges, rule, paint, sqrt, at);
    assert forall k :: 0 <= k < bitmap.Length ==> bitmap[..][k] == bitmap[k];
  }

  // One turn of the outer loop.
  method RasterizeRow(list: EdgeList, edges: seq<Edge>, next: nat, y: nat, l: Layout, bitmap: array<byte>,
                      scanline: array<byte>, rule: FillRule, at: Placement, paint: Paint, sqrt: real -> real)
    returns (e: nat)
    requires list.Valid() && list.InPool() && ValidEdges(edges) && SortedByTop(edges) && y < l.h
    requires State(list.Contents(), next) == SweptTo(edges, y * SUBSAMPLES)
    requires Holds(l, bitmap.Length) && l.w <= scanline.Length && bitmap != scanline
    requires ValidPaint(paint) && at.scale > 0.0
    modifies bitmap, scanline, list, list.Repr, list.pool
    ensures list.Valid() && list.InPool() && fresh(list.Repr - old(list.Repr))
    ensures State(list.Contents(), e) == SweptTo(edges, (y + 1) * SUBSAMPLES)
    ensures RowsPainted(l, old(bitmap[..]), bitmap[..], y, y + 1, edges, rule, paint, sqrt, at)
  {
    hide Pixel, PaintedPixel, InImage, Holds, SweptTo, SortedByTop, ValidEdges, RowPainted, list.Valid, list.Contents,
         list.InPool;
    var xmin, xmax;
    e, xmin, xmax := CoverRow(list, edges, next, y, scanline, l.w, rule);
    RowFits(l, y, bitmap.Length);
    ghost var was := bitmap[..];
    BlitRow(bitmap, RowAt(l, y), l.w, scanline, xmin, xmax, y, at, paint, sqrt);
    RowToImage(l, was, bitmap[..], y, scanline[..], edges, rule, paint, sqrt, at);
  }

  /** Rows from <= y < to of the image are painted, and nothing else is touched. */
  ghost predicate RowsPainted(l: Layout, before: seq<byte>, after: seq<byte>, from: nat, to: nat, edges: seq<Edge>,
                              rule: FillRule, paint: Paint, sqrt: real -> real, at: Placement)
    requires ValidEdges(edges) && SortedByTop(edges) && ValidPaint(paint) && at.scale > 0.0 && Holds(l, |before|)
  {
    |before| == |after| &&
    (forall x: nat, y: nat :: x < l.w && y < l.h ==>
       Pixel(l, after, x, y)
       == if from <= y < to then PaintedPixel(edges, rule, paint, sqrt, at, x, y, Pixel(l, before, x, y))
          else Pixel(l, before, x, y)) &&
    forall k :: 0 <= k < |before| && !InImage(l, k) ==> after[k] == before[k]
  }

  lemma NoRowsPainted(l: Layout, before: seq<byte>, edges: seq<Edge>, rule: FillRule, paint: Paint,
                      sqrt: real -> real, at: Placement)
    requires ValidEdges(edges) && SortedByTop(edges) && ValidPaint(paint) && at.scale > 0.0 && Holds(l, |before|)
    ensures RowsPainted(l, before, before, 0, 0, edges, rule, paint, sqrt, at)
  {
  }

  lemma RowsPaintedNext(l: Layout, before: seq<byte>, was: seq<byte>, after: seq<byte>, y: nat, edges: seq<Edge>,
                        rule: FillRule, paint: Paint, sqrt: real -> real, at: Placement)
    requires ValidEdges(edges) && SortedByTop(edges) && ValidPaint(paint) && at.scale > 0.0
    requires Holds(l, |before|) && Holds(l, |was|)
    requires RowsPainted(l, before, was, 0, y, edges, rule, paint, sqrt, at)
    requires RowsPainted(l, was, after, y, y + 1, edges, rule, paint, sqrt, at)
    ensures RowsPainted(l, before, after, 0, y + 1, edges, rule, paint, sqrt, at)
  {
    hide Pixel, PaintedPixel, InImage, Holds, SortedByTop, ValidEdges;
  }

  lemma AllRowsPainted(l: Layout, before: seq<byte>, after: seq<byte>, edges: seq<Edge>, rule: FillRule, paint: Paint,
                       sqrt: real -> real, at: Placement)
    requires ValidEdges(edges) && SortedByTop(edges) && ValidPaint(paint) && at.scale > 0.0 && Holds(l, |before|)
    requires RowsPainted(l, before, after, 0, l.h, edges, rule, paint, sqrt, at)
    ensures |before| == |after|
    ensures forall x: nat, y: nat :: x < l.w && y < l.h ==>
              Pixel(l, after, x, y) == PaintedPixel(edges, rule, paint, sqrt, at, x, y, Pixel(l, before, x, y))
    ensures forall k :: 0 <= k < |before| && !InImage(l, k) ==> after[k] == before[k]
  {
    hide Pixel, PaintedPixel, InImage, Holds, SortedByTop, ValidEdges;
  }

  lemma PoolIsValid(list: EdgeList)
    requires list.InPool()
    ensures list.pool.Valid()
  {
  }

  lemma SweepStart(edges: seq<Edge>)
    requires ValidEdges(edges)
    ensures SweptTo(edges, 0) == State([], 0)
  {
  }

  /** A painted row changes the pixels of that row and nothing else of the image. */
  lemma RowToImage(l: Layout, before: seq<byte>, after: seq<byte>, y: nat, cover: seq<byte>, edges: seq<Edge>,
                   rule: FillRule, paint: Paint, sqrt: real -> real, at: Placement)
    requires ValidEdges(edges) && SortedByTop(edges) && ValidPaint(paint) && at.scale > 0.0
    requires |before| == |after| && Holds(l, |before|) && y < l.h && l.w <= |cover|
    requires RowAt(l, y) + 4 * l.w <= |before|
    requires RowPainted(before, after, RowAt(l, y), l.w, cover, paint, sqrt, at, y)
    requires forall p :: 0 <= p < l.w ==> cover[p] == PixelCoverage(edges, rule, y, p)
    ensures RowsPainted(l, before, after, y, y + 1, edges, rule, paint, sqrt, at)
  {
    hide BlendOver, PixelColor, PixelCoverage;
    forall x': nat, y': nat | x' < l.w && y' < l.h
      ensures Pixel(l, after, x', y')
           == if y' == y then PaintedPixel(edges, rule, paint, sqrt, at, x', y', Pixel(l, before, x', y'))
              else Pixel(l, before, x', y')
    {
      PixelFits(l, x', y', |before|);
      if y' < y {
        RowsApart(l, y', y);
      } else if y < y' {
        RowsApart(l, y, y');
      }
    }
    forall k | 0 <= k < |before| && !InImage(l, k) ensures after[k] == before[k] {
      assert !(RowAt(l, y) <= k < RowAt(l, y) + 4 * l.w);
    }
  }
}
