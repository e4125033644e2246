/** How far the coverage of a pixel may be from the area inside the outline (src/External/nanosvg/nanosvgrast.h).

    On one sub-scanline the true share of a pixel is the number of its 1024 samples inside the outline. The sweep may
    misjudge the samples nearer to an edge than it drifts, and rounds down the share of each span. */
module Precision {
  import opened Edges
  import opened Sweep
  import opened Coverage
  import opened Interior
  import opened Blend
  import opened Rasterize
  import opened Render

  // ----- counting samples -----

  function CountTrue(s: seq<bool>): (n: nat)
    ensures n <= |s|
  {
    if s == [] then 0 else CountTrue(s[..|s| - 1]) + (if s[|s| - 1] then 1 else 0)
  }

  lemma {:induction false} CountConcat(a: seq<bool>, b: seq<bool>)
    ensures CountTrue(a + b) == CountTrue(a) + CountTrue(b)
  {
    if b == [] {
      assert a + b == a;
    } else {
      CountConcat(a, b[..|b| - 1]);
      assert (a + b)[..|a + b| - 1] == a + b[..|b| - 1];
    }
  }

  lemma {:induction false} CountNone(s: seq<bool>)
    requires forall i :: 0 <= i < |s| ==> !s[i]
    ensures CountTrue(s) == 0
  {
    if s != [] { CountNone(s[..|s| - 1]); }
  }

  /** Where a is true, b or d is. */
  lemma {:induction false} CountWithin(a: seq<bool>, b: seq<bool>, d: seq<bool>)
    requires |a| == |b| == |d| && forall i :: 0 <= i < |a| && a[i] ==> b[i] || d[i]
    ensures CountTrue(a) <= CountTrue(b) + CountTrue(d)
  {
    if a != [] {
      var n := |a| - 1;
      CountWithin(a[..n], b[..n], d[..n]);
    }
  }

  /** a is true where exactly one of b and d is, and they never both are. */
  lemma {:induction false} CountSplit(a: seq<bool>, b: seq<bool>, d: seq<bool>)
    requires |a| == |b| == |d| && forall i :: 0 <= i < |a| ==> (a[i] <==> b[i] || d[i]) && !(b[i] && d[i])
    ensures CountTrue(a) == CountTrue(b) + CountTrue(d)
  {
    if a != [] {
      var n := |a| - 1;
      CountSplit(a[..n], b[..n], d[..n]);
    }
  }

  /** Places less than m apart are at most m. */
  lemma {:induction false} CountClose(s: seq<bool>, m: nat)
    requires forall i, j :: 0 <= i < j < |s| && s[i] && s[j] ==> j - i < m
    requires m > 0
    ensures CountTrue(s) <= m
  {
    if s != [] {
      var n := |s| - 1;
      if s[n] {
        var lo := if n + 1 < m then 0 else n + 1 - m;
        assert s == s[..lo] + s[lo..];
        CountConcat(s[..lo], s[lo..]);
        CountNone(s[..lo]);
      } else {
        CountClose(s[..n], m);
      }
    }
  }

  // The samples of pixel p, told apart by whether they lie in [x0, x1).
  function InInterval(x0: int, x1: int, p: int, n: nat): (r: seq<bool>)
    ensures |r| == n
  {
    seq(n, i requires 0 <= i < n => x0 <= FIX * p + i < x1)
  }

  lemma {:induction false} CountInterval(x0: int, x1: int, p: int, n: nat)
    ensures CountTrue(InInterval(x0, x1, p, n)) == Max(0, Min(x1, FIX * p + n) - Max(x0, FIX * p))
  {
    if n > 0 {
      CountInterval(x0, x1, p, n - 1);
      assert InInterval(x0, x1, p, n)[..n - 1] == InInterval(x0, x1, p, n - 1);
    }
  }

  ghost function InSpansOf(spans: seq<(int, int)>, p: int): (r: seq<bool>)
    ensures |r| == FIX
  {
    seq(FIX, i requires 0 <= i < FIX => InSpans(spans, FIX * p + i))
  }

  /** The overlap of ordered spans with a pixel is the number of its samples in them. */
  lemma {:induction false} OverlapCounts(spans: seq<(int, int)>, lo: int, p: int)
    requires Ordered(spans, lo)
    ensures SumOverlap(spans, p) == CountTrue(InSpansOf(spans, p))
  {
    hide InSpans, Overlap;
    if spans == [] {
      forall i | 0 <= i < FIX ensures !InSpansOf(spans, p)[i] { NoSpans(FIX * p + i); }
      CountNone(InSpansOf(spans, p));
    } else {
      var a, rest := spans[0], spans[1..];
      OverlapCounts(rest, a.1, p);
      CountInterval(a.0, a.1, p, FIX);
      var all, one, more := InSpansOf(spans, p), InInterval(a.0, a.1, p, FIX), InSpansOf(rest, p);
      forall i | 0 <= i < FIX ensures (all[i] <==> one[i] || more[i]) && !(one[i] && more[i]) {
        assert spans == [a] + rest;
        InSpansCons(a, rest, FIX * p + i);
        NotBefore(rest, a.1, FIX * p + i);
      }
      CountSplit(all, one, more);
      OverlapIs(a.0, a.1, p);
    }
  }

  lemma OverlapIs(x0: int, x1: int, p: int)
    ensures Overlap(x0, x1, p) == Max(0, Min(x1, FIX * p + FIX) - Max(x0, FIX * p))
  {
  }

  lemma {:induction false} NotBefore(spans: seq<(int, int)>, lo: int, x: int)
    requires Ordered(spans, lo)
    ensures InSpans(spans, x) ==> lo <= x
  {
    if spans != [] {
      NotBefore(spans[1..], spans[0].1, x);
      assert spans == [spans[0]] + spans[1..];
      InSpansCons(spans[0], spans[1..], x);
    } else {
      NoSpans(x);
    }
  }

  // ----- rounding down -----

  /** Number of spans that touch the pixel. */
  function Touching(spans: seq<(int, int)>, p: int): nat {
    if spans == [] then 0 else (if Overlap(spans[0].0, spans[0].1, p) > 0 then 1 else 0) + Touching(spans[1..], p)
  }

  lemma CoverLoss(overlap: nat, weight: nat)
    ensures FIX * (overlap * weight / FIX) >= overlap * weight - (if overlap > 0 then FIX - 1 else 0)
  {
  }

  lemma {:induction false} CoverAboveOverlap(spans: seq<(int, int)>, p: int, weight: nat)
    ensures FIX * SumCover(spans, p, weight) >= SumOverlap(spans, p) * weight - (FIX - 1) * Touching(spans, p)
  {
    hide Overlap;
    if spans != [] {
      CoverAboveOverlap(spans[1..], p, weight);
      var a, b := Overlap(spans[0].0, spans[0].1, p), SumOverlap(spans[1..], p);
      CoverLoss(a, weight);
      assert (a + b) * weight == a * weight + b * weight;
    }
  }

  // ----- samples the sweep may misjudge -----

  /** Sub-scanlines since e started, this one included. */
  function Age(e: Edge, k: nat): nat
    requires e.y0 <= Scan(k)
  {
    StartsBy(e, k);
    k - FirstScan(e) + 1
  }

  function NearEdge(e: Edge, k: nat, p: int): (r: seq<bool>)
    requires ValidEdge(e)
    ensures |r| == FIX
  {
    seq(FIX, i requires 0 <= i < FIX => !AwayFrom(e, k, FIX * p + i))
  }

  /** How many samples of one row may be misjudged because of e. */
  function Doubt(e: Edge, k: nat): nat
    requires ValidEdge(e)
  {
    if Crosses(e, Scan(k)) then Age(e, k) else 0
  }

  lemma NearPair(e: Edge, k: nat, x: int, x': int)
    requires ValidEdge(e) && !AwayFrom(e, k, x) && !AwayFrom(e, k, x')
    ensures Crosses(e, Scan(k)) && x' - x < Age(e, k)
  {
    hide TrueX, FirstScan, Scan;
    StartsBy(e, k);
    assert 2.0 * Drift(e, k) == Age(e, k) as real;
    assert (x' - x) as real < 2.0 * Drift(e, k);
  }

  lemma NearEdgeCount(e: Edge, k: nat, p: int)
    requires ValidEdge(e)
    ensures CountTrue(NearEdge(e, k, p)) <= Doubt(e, k)
  {
    hide TrueX, FirstScan, Scan, Drift;
    var near := NearEdge(e, k, p);
    if Crosses(e, Scan(k)) {
      hide AwayFrom, Crosses;
      AgeIsPositive(e, k);
      forall i, j | 0 <= i < j < FIX && near[i] && near[j] ensures j - i < Age(e, k) {
        NearPair(e, k, FIX * p + i, FIX * p + j);
      }
      CountClose(near, Age(e, k));
    } else {
      forall i | 0 <= i < FIX ensures !near[i] {
        assert AwayFrom(e, k, FIX * p + i);
      }
      CountNone(near);
    }
  }

  lemma AgeIsPositive(e: Edge, k: nat)
    requires Crosses(e, Scan(k))
    ensures Age(e, k) > 0
  {
    StartsBy(e, k);
  }

  function DoubtOf(es: seq<Edge>, k: nat): nat
    requires ValidEdges(es)
  {
    if es == [] then 0 else DoubtOf(es[..|es| - 1], k) + Doubt(es[|es| - 1], k)
  }

  ghost function NotAway(es: seq<Edge>, k: nat, p: int): (r: seq<bool>)
    requires ValidEdges(es)
    ensures |r| == FIX
  {
    seq(FIX, i requires 0 <= i < FIX => !SampleAway(es, k, FIX * p + i))
  }

  lemma AwayFromAll(es: seq<Edge>, k: nat, x: int)
    requires ValidEdges(es) && es != []
    ensures SampleAway(es, k, x) <==> SampleAway(es[..|es| - 1], k, x) && AwayFrom(es[|es| - 1], k, x)
  {
    hide AwayFrom, ValidEdge;
    var init := es[..|es| - 1];
    assert SampleAway(es, k, x) ==> forall i :: 0 <= i < |init| ==> AwayFrom(init[i], k, x);
  }

  lemma {:induction false} NotAwayCount(es: seq<Edge>, k: nat, p: int)
    requires ValidEdges(es)
    ensures CountTrue(NotAway(es, k, p)) <= DoubtOf(es, k)
  {
    hide AwayFrom, Doubt, ValidEdge;
    if es == [] {
      forall i | 0 <= i < FIX ensures !NotAway(es, k, p)[i] {
        assert SampleAway(es, k, FIX * p + i);
      }
      CountNone(NotAway(es, k, p));
    } else {
      var init, last := es[..|es| - 1], es[|es| - 1];
      NotAwayCount(init, k, p);
      NearEdgeCount(last, k, p);
      forall i | 0 <= i < FIX && NotAway(es, k, p)[i] ensures NotAway(init, k, p)[i] || NearEdge(last, k, p)[i] {
        AwayFromAll(es, k, FIX * p + i);
      }
      CountWithin(NotAway(es, k, p), NotAway(init, k, p), NearEdge(last, k, p));
    }
  }

  // ----- coverage and area -----

  /** The samples of pixel p on sub-scanline k, told apart by whether they lie inside the outline. */
  function InsideSamples(rule: FillRule, outline: seq<Edge>, tx: real, ty: real, k: nat, p: int): (r: seq<bool>)
    requires ValidEdges(outline)
    ensures |r| == FIX
  {
    seq(FIX, i requires 0 <= i < FIX => Inside(rule, outline, SamplePoint(tx, ty, k, FIX * p + i)))
  }

  /** What the sweep counts for a pixel differs from the samples inside the outline by no more than the edges crossing
      the sub-scanline are old, taken together. */
  lemma OverlapNearArea(rule: FillRule, outline: seq<Edge>, edges: seq<Edge>, tx: real, ty: real, k: nat, p: int)
    requires ValidEdges(outline) && Balanced(outline) && ValidEdges(edges) && SortedByTop(edges)
    requires multiset(edges) == multiset(PlaceAll(outline, tx, ty))
    ensures var counted := SumOverlap(SpansOf(rule, ActiveOn(edges, k)), p);
            var inside := CountTrue(InsideSamples(rule, outline, tx, ty, k, p));
            inside - DoubtOf(edges, k) <= counted <= inside + DoubtOf(edges, k)
  {
    hide ValidEdges, Balanced, SortedByTop, ActiveOn, InSpans, Inside, SampleAway, SamplePoint, Spans, Sorted, Ordered;
    var active := ActiveOn(edges, k);
    var spans := SpansOf(rule, active);
    ActiveListIsCrossingEdges(edges, k);
    SpansOrdered(rule, active, 0, 0, if active == [] then 0 else active[0].x);
    OverlapCounts(spans, if active == [] then 0 else active[0].x, p);
    var got, inside, doubt := InSpansOf(spans, p), InsideSamples(rule, outline, tx, ty, k, p), NotAway(edges, k, p);
    forall i | 0 <= i < FIX && !doubt[i] ensures got[i] == inside[i] {
      SweepFollowsOutline(rule, outline, edges, tx, ty, k, FIX * p + i);
    }
    CountWithin(got, inside, doubt);
    CountWithin(inside, got, doubt);
    NotAwayCount(edges, k, p);
  }

  /** The coverage a sub-scanline adds to a pixel, in 1024ths, is the weight times the samples inside the outline, up to
      the doubt of the crossing edges and, downwards, one unit for each span that touches the pixel. */
  lemma CoverNearArea(rule: FillRule, outline: seq<Edge>, edges: seq<Edge>, tx: real, ty: real, k: nat, p: int,
                      weight: nat)
    requires ValidEdges(outline) && Balanced(outline) && ValidEdges(edges) && SortedByTop(edges)
    requires multiset(edges) == multiset(PlaceAll(outline, tx, ty))
    ensures var spans := SpansOf(rule, ActiveOn(edges, k));
            var inside, doubt := CountTrue(InsideSamples(rule, outline, tx, ty, k, p)), DoubtOf(edges, k);
            weight * (inside - doubt) - (FIX - 1) * Touching(spans, p) <= FIX * SumCover(spans, p, weight)
              <= weight * (inside + doubt)
  {
    hide ValidEdges, Balanced, SortedByTop, ActiveOn, Spans, SumCover, SumOverlap, Touching, InsideSamples, DoubtOf;
    OverlapNearArea(rule, outline, edges, tx, ty, k, p);
    var spans := SpansOf(rule, ActiveOn(edges, k));
    CoverBelowOverlap(spans, p, weight);
    CoverAboveOverlap(spans, p, weight);
    var inside: int, doubt: int := CountTrue(InsideSamples(rule, outline, tx, ty, k, p)), DoubtOf(edges, k);
    WeightKeepsOrder(inside - doubt, SumOverlap(spans, p), weight);
    WeightKeepsOrder(SumOverlap(spans, p), inside + doubt, weight);
  }

  lemma WeightKeepsOrder(a: int, b: int, weight: nat)
    requires a <= b
    ensures weight * a <= b * weight && a * weight <= weight * b
  {
    assert weight * (b - a) >= 0;
  }

  // ----- whole pixels -----

  /** Samples of pixel (x, y) inside the outline, on its first n sub-scanlines. */
  function Area(p: Pass, at: Placement, x: nat, y: nat, n: nat): nat
    requires ValidEdges(p.outline)
  {
    if n == 0 then 0
    else
      Area(p, at, x, y, n - 1) +
      CountTrue(InsideSamples(p.rule, p.outline, at.tx, at.ty, y * SUBSAMPLES + (n - 1), x))
  }

  /** Their doubt. */
  function AreaDoubt(p: Pass, y: nat, n: nat): nat
    requires ValidEdges(p.edges)
  {
    if n == 0 then 0 else AreaDoubt(p, y, n - 1) + DoubtOf(p.edges, y * SUBSAMPLES + (n - 1))
  }

  /** The spans that touch the pixel there. */
  function TouchingSpans(p: Pass, x: nat, y: nat, n: nat): nat
    requires ValidEdges(p.edges)
  {
    if n == 0 then 0
    else
      TouchingSpans(p, x, y, n - 1) +
      Touching(SpansOf(p.rule, ActiveOn(p.edges, y * SUBSAMPLES + (n - 1))), x)
  }

  /** The coverage of any pixel, cut by edges or not, is 51 for each 1024 of its 5120 samples inside the outline, up to
      the doubt of its five sub-scanlines and, downwards, one for each span that touches it. */
  lemma PixelNearArea(p: Pass, at: Placement, x: nat, y: nat)
    requires ValidPass(p, at) && Balanced(p.outline)
    ensures ValidEdges(p.edges)
    ensures var n := SUBSAMPLES;
            MAX_WEIGHT * (Area(p, at, x, y, n) - AreaDoubt(p, y, n)) - (FIX - 1) * TouchingSpans(p, x, y, n)
              <= FIX * PixelCoverage(p.edges, p.rule, y, x) <= MAX_WEIGHT * (Area(p, at, x, y, n) + AreaDoubt(p, y, n))
  {
    hide Area, AreaDoubt, TouchingSpans, CoverageUpTo, Balanced, ValidEdges, SortedByTop;
    PassEdgesValid(p, at);
    CoverageNearArea(p, at, x, y, SUBSAMPLES);
  }

  lemma {:induction false} CoverageNearArea(p: Pass, at: Placement, x: nat, y: nat, n: nat)
    requires ValidPass(p, at) && Balanced(p.outline) && ValidEdges(p.edges)
    ensures MAX_WEIGHT * (Area(p, at, x, y, n) - AreaDoubt(p, y, n)) - (FIX - 1) * TouchingSpans(p, x, y, n)
              <= FIX * CoverageUpTo(p.edges, p.rule, y, n, x)
              <= MAX_WEIGHT * (Area(p, at, x, y, n) + AreaDoubt(p, y, n))
  {
    hide Balanced, ActiveOn, SpansOf, SumCover, SortedByTop, ValidEdges, Touching, InsideSamples, DoubtOf;
    if n > 0 {
      CoverageNearArea(p, at, x, y, n - 1);
      CoverNearArea(p.rule, p.outline, p.edges, at.tx, at.ty, y * SUBSAMPLES + (n - 1), x, MAX_WEIGHT);
    }
  }

  // ----- what a pass paints -----

  /** r is a mixture of c and d with share/whole of c, up to slack/whole. */
  ghost predicate Mixture(r: int, share: int, whole: int, c: int, d: int, slack: int) {
    -slack <= whole * r - (share * c + (whole - share) * d) <= slack
  }

  // 1024 * 65025: the parts of a pixel's area times the parts of an alpha.
  const WHOLE := FIX * 65025

  /** How far the coverage of a pixel may be from its area, in parts of 1024 * 255. */
  function PixelDoubt(p: Pass, x: nat, y: nat): nat
    requires ValidEdges(p.edges)
  {
    hide AreaDoubt, TouchingSpans, ValidEdges;
    MAX_WEIGHT * AreaDoubt(p, y, SUBSAMPLES) + (FIX - 1) * TouchingSpans(p, x, y, SUBSAMPLES)
  }

  /** One pass mixes its paint into a pixel by the area of the pixel inside the outline: 51 parts of 1024 * 255 for each
      of its 5120 samples inside, scaled by the paint's alpha, up to the doubt about the samples near the edges, the
      rounding of each span and the rounding of the blend. */
  lemma PassMixesByArea(p: Pass, sqrt: real -> real, at: Placement, x: nat, y: nat, before: Rgba)
    requires ValidPass(p, at) && Balanced(p.outline) && at.scale > 0.0
    ensures ValidEdges(p.edges)
    ensures var r, c := PaintedPixel(p.edges, p.rule, p.paint, sqrt, at, x, y, before),
                        PixelColor(p.paint, sqrt, at, x, y);
            var share := MAX_WEIGHT * Area(p, at, x, y, SUBSAMPLES) * c.a;
            var slack := 255 * (c.a * PixelDoubt(p, x, y)) + 3 * WHOLE;
            Mixture(r.r, share, WHOLE, c.r, before.r, slack) && Mixture(r.g, share, WHOLE, c.g, before.g, slack) &&
            Mixture(r.b, share, WHOLE, c.b, before.b, slack) && Mixture(r.a, share, WHOLE, 255, before.a, slack)
  {
    hide Area, AreaDoubt, TouchingSpans, Balanced, ValidEdges, SortedByTop, PixelColor, BlendOver, ValidPass,
         PixelCoverage, Mixture, PixelDoubt;
    PassEdgesValid(p, at);
    PassIsReady(p, at);
    PixelNearArea(p, at, x, y);
    DoubtIs(p, x, y);
    var c, cover := PixelColor(p.paint, sqrt, at, x, y), PixelCoverage(p.edges, p.rule, y, x);
    var r := PaintedPixel(p.edges, p.rule, p.paint, sqrt, at, x, y, before);
    var area, doubt := MAX_WEIGHT * Area(p, at, x, y, SUBSAMPLES), PixelDoubt(p, x, y);
    assert -doubt <= FIX * cover - area <= doubt;
    BlendIsMix(before, cover, c);
    MixtureOf(r.r, cover, c.a, c.r, before.r, area, doubt);
    MixtureOf(r.g, cover, c.a, c.g, before.g, area, doubt);
    MixtureOf(r.b, cover, c.a, c.b, before.b, area, doubt);
    MixtureOf(r.a, cover, c.a, 255, before.a, area, doubt);
  }

  lemma PassIsReady(p: Pass, at: Placement)
    requires ValidPass(p, at)
    ensures ValidEdges(p.outline) && ValidPaint(p.paint) && SortedByTop(p.edges)
  {
  }

  lemma DoubtIs(p: Pass, x: nat, y: nat)
    requires ValidEdges(p.edges)
    ensures MAX_WEIGHT * AreaDoubt(p, y, SUBSAMPLES) + (FIX - 1) * TouchingSpans(p, x, y, SUBSAMPLES)
         == PixelDoubt(p, x, y)
    ensures TouchingSpans(p, x, y, SUBSAMPLES) >= 0
  {
    hide AreaDoubt, TouchingSpans, ValidEdges;
  }

  lemma MixtureOf(r: int, cover: byte, alpha: byte, c: byte, d: byte, area: int, doubt: int)
    requires -doubt <= FIX * cover - area <= doubt
    requires var u := cover * alpha; -3 * 65025 < 65025 * r - (u * c + (65025 - u) * d) < 65025
    ensures Mixture(r, area * alpha, WHOLE, c, d, 255 * (alpha * doubt) + 3 * WHOLE)
  {
    var u, w, e, share := cover * alpha, c - d, FIX * cover - area, area * alpha;
    var rest, bound := e * alpha, alpha * doubt;
    MixedBy(u, 65025, c, d, w);
    MixedBy(share, WHOLE, c, d, w);
    assert FIX * u == share + rest;
    ScaledBy(FIX, u, w, share, rest);
    TwoBounds(e, doubt, alpha);
    Within255(rest, bound, w);
    MixtureBounds(r, u * w, share * w, rest * w, d, bound);
  }

  lemma MixedBy(k: int, total: int, c: int, d: int, w: int)
    requires w == c - d
    ensures k * c + (total - k) * d == k * w + total * d
  {
  }

  lemma MixtureBounds(r: int, mixed: int, exact: int, rest: int, d: int, bound: int)
    requires -3 * 65025 < 65025 * r - (mixed + 65025 * d) < 65025
    requires FIX * mixed == exact + rest && -(255 * bound) <= rest <= 255 * bound
    ensures var slack := 255 * bound + 3 * WHOLE; -slack < WHOLE * r - (exact + WHOLE * d) < slack
  {
  }

  lemma ScaledBy(f: int, u: int, w: int, share: int, rest: int)
    requires f * u == share + rest
    ensures f * (u * w) == share * w + rest * w
  {
    assert f * (u * w) == (f * u) * w;
  }

  lemma TwoBounds(e: int, doubt: int, alpha: nat)
    requires -doubt <= e <= doubt
    ensures -(alpha * doubt) <= e * alpha <= alpha * doubt
  {
    assert (doubt - e) * alpha >= 0 && (doubt + e) * alpha >= 0;
  }

  lemma Within255(v: int, bound: int, w: int)
    requires -bound <= v <= bound && -255 <= w <= 255
    ensures -(255 * bound) <= v * w <= 255 * bound
  {
    NotNegative(bound - v, 255 + w);
    NotNegative(bound + v, 255 - w);
    NotNegative(bound - v, 255 - w);
    NotNegative(bound + v, 255 + w);
    assert (bound - v) * (255 + w) + (bound + v) * (255 - w) == 510 * bound - 2 * (v * w);
    assert (bound - v) * (255 - w) + (bound + v) * (255 + w) == 510 * bound + 2 * (v * w);
  }

  lemma NotNegative(a: int, b: int)
    requires a >= 0 && b >= 0
    ensures a * b >= 0
  {
  }
}
