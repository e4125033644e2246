/** Inside and outside of an outline, and how far the sweep may be from it (src/External/nanosvg/nanosvgrast.h).

    A point is inside by section 11.3 of SVG 1.1 when the edges met by a ray from it do not cancel, or are odd in
    number. The sweep decides with rounded starts and steps instead; it decides the same for every point that keeps,
    from each edge crossing its height, half a fixed-point unit per sub-scanline since the edge started. */
module Interior {
  import opened Edges
  import opened Sweep
  import opened Coverage
  import Permutations

  /** Where e crosses height y. */
  function XAt(e: Edge, y: real): real
    requires ValidEdge(e)
  {
    e.x0 + Slope(e) * (y - e.y0)
  }

  /** Does the ray from p to the left meet e? */
  predicate MetLeft(e: Edge, p: Pt)
    requires ValidEdge(e)
  {
    Crosses(e, p.y) && XAt(e, p.y) <= p.x
  }

  /** Sum of the directions of the edges the ray meets. */
  function WindingLeft(es: seq<Edge>, p: Pt): int
    requires ValidEdges(es)
  {
    if es == [] then 0
    else WindingLeft(es[..|es| - 1], p) + (if MetLeft(es[|es| - 1], p) then es[|es| - 1].dir else 0)
  }

  /** Number of the edges the ray meets. */
  function CountLeft(es: seq<Edge>, p: Pt): nat
    requires ValidEdges(es)
  {
    if es == [] then 0 else CountLeft(es[..|es| - 1], p) + (if MetLeft(es[|es| - 1], p) then 1 else 0)
  }

  predicate Inside(rule: FillRule, es: seq<Edge>, p: Pt)
    requires ValidEdges(es)
  {
    if rule == NonZero then WindingLeft(es, p) != 0 else CountLeft(es, p) % 2 == 1
  }

  // ----- the order of the edges does not matter -----

  lemma {:induction false} LeftConcat(a: seq<Edge>, b: seq<Edge>, p: Pt)
    requires ValidEdges(a) && ValidEdges(b)
    ensures WindingLeft(a + b, p) == WindingLeft(a, p) + WindingLeft(b, p)
    ensures CountLeft(a + b, p) == CountLeft(a, p) + CountLeft(b, p)
  {
    hide MetLeft, ValidEdge;
    if b == [] {
      assert a + b == a;
    } else {
      LeftConcat(a, b[..|b| - 1], p);
      assert (a + b)[..|a + b| - 1] == a + b[..|b| - 1];
    }
  }

  lemma LeftInsert(l: seq<Edge>, e: Edge, r: seq<Edge>, p: Pt)
    requires ValidEdges(l) && ValidEdge(e) && ValidEdges(r)
    ensures WindingLeft(l + [e] + r, p) == WindingLeft(l + r, p) + (if MetLeft(e, p) then e.dir else 0)
    ensures CountLeft(l + [e] + r, p) == CountLeft(l + r, p) + (if MetLeft(e, p) then 1 else 0)
  {
    hide MetLeft, ValidEdge;
    LeftConcat(l + [e], r, p);
    LeftConcat(l, r, p);
    assert (l + [e])[..|l|] == l;
  }

  lemma {:induction false} LeftPermutation(a: seq<Edge>, b: seq<Edge>, p: Pt)
    requires ValidEdges(a) && ValidEdges(b) && multiset(a) == multiset(b)
    ensures WindingLeft(a, p) == WindingLeft(b, p) && CountLeft(a, p) == CountLeft(b, p)
    decreases |a|
  {
    hide MetLeft, ValidEdge;
    Permutations.SameLength(a, b);
    if a != [] {
      var l, r := Permutations.TakeLast(a, b);
      assert forall i :: 0 <= i < |l| ==> l[i] == b[i];
      assert forall i :: 0 <= i < |r| ==> r[i] == b[|l| + 1 + i];
      LeftPermutation(a[..|a| - 1], l + r, p);
      LeftInsert(l, a[|a| - 1], r, p);
    }
  }

  // ----- placing moves point and outline alike -----

  /** The point of the image at fixed-point position x of sub-scanline k. */
  function SamplePoint(tx: real, ty: real, k: nat, x: int): Pt {
    Pt(x as real / 1024.0 - tx, Scan(k) / 5.0 - ty)
  }

  lemma SlopeScaled(dx: real, dy: real, m: real)
    requires dy > 0.0 && m == dx / dy
    ensures dx / (5.0 * dy) == m / 5.0
  {
    assert dx == m * dy;
    var q := dx / (5.0 * dy);
    assert q * (5.0 * dy) == dx;
    assert (q * 5.0 - m) * dy == 0.0;
  }

  lemma PlacedX(e: Edge, tx: real, ty: real, y: real)
    requires ValidEdge(e)
    ensures XAt(Place(e, tx, ty), y) == tx + XAt(e, y / 5.0 - ty)
    ensures Crosses(Place(e, tx, ty), y) <==> Crosses(e, y / 5.0 - ty)
  {
    var r := Place(e, tx, ty);
    var m, d := Slope(e), y / 5.0 - ty - e.y0;
    assert r.y1 - r.y0 == 5.0 * (e.y1 - e.y0);
    SlopeScaled(e.x1 - e.x0, e.y1 - e.y0, m);
    assert y - r.y0 == 5.0 * d;
    assert m / 5.0 * (5.0 * d) == m * d;
  }

  lemma {:induction false} PlacedLeft(es: seq<Edge>, tx: real, ty: real, k: nat, x: int)
    requires ValidEdges(es)
    ensures ValidEdges(PlaceAll(es, tx, ty))
    ensures var placed, p, q := PlaceAll(es, tx, ty), Pt(x as real / 1024.0, Scan(k)), SamplePoint(tx, ty, k, x);
            WindingLeft(placed, p) == WindingLeft(es, q) && CountLeft(placed, p) == CountLeft(es, q)
  {
    hide Place, MetLeft;
    PlaceAllValid(es, tx, ty);
    if es != [] {
      var init, last := es[..|es| - 1], es[|es| - 1];
      PlacedLeft(init, tx, ty, k, x);
      assert PlaceAll(es, tx, ty)[..|es| - 1] == PlaceAll(init, tx, ty);
      assert ValidEdge(last);
      PlacedMet(last, tx, ty, k, x);
    }
  }

  lemma PlacedMet(e: Edge, tx: real, ty: real, k: nat, x: int)
    requires ValidEdge(e)
    ensures var r, p := Place(e, tx, ty), Pt(x as real / 1024.0, Scan(k));
            r.dir == e.dir && (MetLeft(r, p) <==> MetLeft(e, SamplePoint(tx, ty, k, x)))
  {
    PlacedX(e, tx, ty, Scan(k));
    hide XAt;
  }

  lemma PlaceAllValid(es: seq<Edge>, tx: real, ty: real)
    requires ValidEdges(es)
    ensures ValidEdges(PlaceAll(es, tx, ty))
  {
    hide Place;
    forall i | 0 <= i < |es| ensures ValidEdge(PlaceAll(es, tx, ty)[i]) {
      assert ValidEdge(es[i]);
    }
  }

  // ----- the rounded list and the edges themselves -----

  /** How far, in fixed-point units, the sweep's position of e may be from e on sub-scanline k. */
  function Drift(e: Edge, k: nat): real {
    (k as real - FirstScan(e) as real + 1.0) / 2.0
  }

  /** Sample x of sub-scanline k keeps from e by as much as the sweep may be off. */
  predicate AwayFrom(e: Edge, k: nat, x: int)
    requires ValidEdge(e)
  {
    Crosses(e, Scan(k)) ==>
      x as real >= TrueX(e, k) + Drift(e, k) || (x as real) < TrueX(e, k) - Drift(e, k)
  }

  ghost predicate SampleAway(es: seq<Edge>, k: nat, x: int)
    requires ValidEdges(es)
  {
    forall i :: 0 <= i < |es| ==> AwayFrom(es[i], k, x)
  }

  lemma EntrySide(e: Edge, k: nat, x: int)
    requires ValidEdge(e) && AwayFrom(e, k, x) && Crosses(e, Scan(k))
    ensures PositionAt(e, k) <= x <==> MetLeft(e, Pt(x as real / 1024.0, Scan(k)))
  {
    hide PositionAt, XAt, FirstScan, TrueX, Scan;
    StartsBy(e, k);
    SteppingDrift(e, k - FirstScan(e));
    TrueIsXAt(e, k);
  }

  lemma TrueIsXAt(e: Edge, k: nat)
    requires ValidEdge(e)
    ensures TrueX(e, k) == 1024.0 * XAt(e, Scan(k))
  {
  }

  // ----- the list and the outline -----

  lemma {:induction false} AtConcat(a: seq<Active>, b: seq<Active>, x: int)
    ensures WindingAt(a + b, x) == WindingAt(a, x) + WindingAt(b, x)
    ensures CountAt(a + b, x) == CountAt(a, x) + CountAt(b, x)
    decreases |a|
  {
    if a == [] {
      assert a + b == b;
    } else {
      AtConcat(a[1..], b, x);
      assert (a + b)[1..] == a[1..] + b;
    }
  }

  lemma AtOne(a: Active, x: int)
    ensures WindingAt([a], x) == if a.x <= x then a.dir else 0
    ensures CountAt([a], x) == if a.x <= x then 1 else 0
  {
    assert [a][1..] == [];
  }

  lemma {:induction false} AtPermutation(a: seq<Active>, b: seq<Active>, x: int)
    requires multiset(a) == multiset(b)
    ensures WindingAt(a, x) == WindingAt(b, x) && CountAt(a, x) == CountAt(b, x)
    decreases |a|
  {
    hide WindingAt, CountAt;
    Permutations.SameLength(a, b);
    if a == [] {
      assert b == [];
    } else {
      var l, r := Permutations.TakeLast(a, b);
      var init, last := a[..|a| - 1], a[|a| - 1];
      assert a == init + [last];
      AtPermutation(init, l + r, x);
      AtConcat(init, [last], x);
      AtConcat(l + [last], r, x);
      AtConcat(l, [last], x);
      AtConcat(l, r, x);
    }
  }

  lemma {:induction false} CrossingLeft(es: seq<Edge>, n: nat, k: nat, x: int)
    requires n <= |es| && ValidEdges(es) && SampleAway(es, k, x)
    ensures var p := Pt(x as real / 1024.0, Scan(k));
            WindingAt(Crossing(es, n, k), x) == WindingLeft(es[..n], p) &&
            CountAt(Crossing(es, n, k), x) == CountLeft(es[..n], p)
  {
    hide Scan, PositionAt, StepOf, AwayFrom, XAt, WindingAt, CountAt;
    if n == 0 {
      AtNone(x);
    } else {
      CrossingLeft(es, n - 1, k, x);
      var e := es[n - 1];
      assert es[..n][..n - 1] == es[..n - 1] && es[..n][n - 1] == e;
      assert ValidEdge(e) && AwayFrom(e, k, x);
      if Crosses(e, Scan(k)) {
        EntrySide(e, k, x);
        AtConcat(Crossing(es, n - 1, k), [EntryAt(e, k)], x);
        AtOne(EntryAt(e, k), x);
      } else {
        assert Crossing(es, n, k) == Crossing(es, n - 1, k);
      }
    }
  }

  lemma AtNone(x: int)
    ensures WindingAt([], x) == 0 && CountAt([], x) == 0
  {
  }

  /** The geometric meaning of the sweep: over a closed outline, placed and sorted, a clear sample is painted exactly
      when its point of the image lies inside the outline by the fill rule. */
  lemma SweepFollowsOutline(rule: FillRule, outline: seq<Edge>, edges: seq<Edge>, tx: real, ty: real, k: nat, x: int)
    requires ValidEdges(outline) && Balanced(outline) && ValidEdges(edges) && SortedByTop(edges)
    requires multiset(edges) == multiset(PlaceAll(outline, tx, ty)) && SampleAway(edges, k, x)
    ensures InSpans(SpansOf(rule, ActiveOn(edges, k)), x) <==> Inside(rule, outline, SamplePoint(tx, ty, k, x))
  {
    hide InSpans, SpansOf, ActiveOn, Crossing, Balanced, ValidEdges, SampleAway, Sorted, SortedByTop, UnitDirs,
         SamplePoint, WindingAt, CountAt, WindingLeft, CountLeft, Scan;
    var placed, p := PlaceAll(outline, tx, ty), Pt(x as real / 1024.0, Scan(k));
    PlaceBalanced(outline, tx, ty);
    BalancedPermutation(placed, edges);
    ActiveListIsCrossingEdges(edges, k);
    ActiveUnitDirs(edges, k);
    ClosedOutlineCancels(edges, k);
    SpansAreFillRule(rule, ActiveOn(edges, k), x);
    AtPermutation(ActiveOn(edges, k), Crossing(edges, |edges|, k), x);
    CrossingLeft(edges, |edges|, k, x);
    assert edges[..|edges|] == edges;
    PlacedLeft(outline, tx, ty, k, x);
    LeftPermutation(edges, placed, p);
  }

  // ----- pixels no edge passes through -----

  /** All 1024 samples of pixel p on sub-scanline k are clear. */
  ghost predicate PixelAway(es: seq<Edge>, k: nat, p: int)
    requires ValidEdges(es)
  {
    forall x :: FIX * p <= x < FIX * (p + 1) ==> SampleAway(es, k, x)
  }

  // No entry of the list lies within the pixel.
  ghost predicate Uncut(s: seq<Active>, p: int) {
    forall a :: a in s ==> a.x <= FIX * p || a.x >= FIX * (p + 1)
  }

  lemma EntryNotBothAway(e: Edge, k: nat)
    requires ValidEdge(e) && Crosses(e, Scan(k))
    ensures AwayFrom(e, k, PositionAt(e, k)) ==> !AwayFrom(e, k, PositionAt(e, k) - 1)
  {
    hide PositionAt, FirstScan, TrueX, Scan;
    StartsBy(e, k);
    SteppingDrift(e, k - FirstScan(e));
  }

  lemma EntryNotWithin(e: Edge, k: nat, p: int)
    requires ValidEdge(e) && Crosses(e, Scan(k))
    requires forall x :: FIX * p <= x < FIX * (p + 1) ==> AwayFrom(e, k, x)
    ensures PositionAt(e, k) <= FIX * p || PositionAt(e, k) >= FIX * (p + 1)
  {
    hide PositionAt, AwayFrom, Scan;
    EntryNotBothAway(e, k);
  }

  lemma {:induction false} CrossingUncut(es: seq<Edge>, n: nat, k: nat, p: int, a: Active)
    requires ValidEdges(es) && n <= |es| && PixelAway(es, k, p) && a in Crossing(es, n, k)
    ensures a.x <= FIX * p || a.x >= FIX * (p + 1)
  {
    hide PositionAt, StepOf, AwayFrom, Scan;
    if a in Crossing(es, n - 1, k) {
      CrossingUncut(es, n - 1, k, p, a);
    } else {
      var e := es[n - 1];
      assert ValidEdge(e) && Crosses(e, Scan(k)) && a == EntryAt(e, k);
      forall x | FIX * p <= x < FIX * (p + 1) ensures AwayFrom(e, k, x) {
        assert SampleAway(es, k, x);
      }
      EntryNotWithin(e, k, p);
    }
  }

  lemma ActiveUncut(es: seq<Edge>, k: nat, p: int)
    requires ValidEdges(es) && SortedByTop(es) && PixelAway(es, k, p)
    ensures Uncut(ActiveOn(es, k), p)
  {
    hide ActiveOn, Crossing, PixelAway, ValidEdges, SortedByTop, Sorted;
    ActiveListIsCrossingEdges(es, k);
    var active, crossing := ActiveOn(es, k), Crossing(es, |es|, k);
    forall a | a in active ensures a.x <= FIX * p || a.x >= FIX * (p + 1) {
      assert a in multiset(active);
      assert a in multiset(crossing);
      CrossingUncut(es, |es|, k, p, a);
    }
  }

  ghost predicate EndsOutside(spans: seq<(int, int)>, p: int) {
    forall i :: 0 <= i < |spans| ==>
      (spans[i].0 <= FIX * p || spans[i].0 >= FIX * (p + 1)) && (spans[i].1 <= FIX * p || spans[i].1 >= FIX * (p + 1))
  }

  lemma {:induction false} UncutSpans(rule: FillRule, s: seq<Active>, w: int, x0: int, p: int)
    requires Uncut(s, p) && (w != 0 ==> x0 <= FIX * p || x0 >= FIX * (p + 1))
    ensures EndsOutside(Spans(rule, s, w, x0), p)
  {
    hide Turn;
    if s != [] {
      var w' := Turn(rule, w, s[0].dir);
      assert s[0] in s;
      if w == 0 {
        UncutSpans(rule, s[1..], w', s[0].x, p);
      } else if w' == 0 {
        UncutSpans(rule, s[1..], 0, x0, p);
      } else {
        UncutSpans(rule, s[1..], w', x0, p);
      }
    }
  }

  lemma {:induction false} UncutCover(spans: seq<(int, int)>, p: int, weight: nat)
    requires EndsOutside(spans, p)
    ensures InSpans(spans, FIX * p) ==> SumCover(spans, p, weight) >= weight
    ensures !InSpans(spans, FIX * p) ==> SumCover(spans, p, weight) == 0
  {
    hide Cover, InSpans;
    if spans == [] {
      NoSpans(FIX * p);
    } else {
      var a, rest := spans[0], spans[1..];
      assert spans == [a] + rest;
      UncutCover(rest, p, weight);
      InSpansCons(a, rest, FIX * p);
      OneCover(a.0, a.1, p, weight);
    }
  }

  lemma OneCover(x0: int, x1: int, p: int, weight: nat)
    requires (x0 <= FIX * p || x0 >= FIX * (p + 1)) && (x1 <= FIX * p || x1 >= FIX * (p + 1))
    ensures Cover(x0, x1, p, weight) == if x0 <= FIX * p < x1 then weight else 0
  {
    FullPixel(weight);
    assert Overlap(x0, x1, p) == if x0 <= FIX * p < x1 then FIX else 0;
  }

  /** On a sub-scanline where no edge passes through pixel p, it is covered wholly or not at all. */
  lemma UncutRow(rule: FillRule, es: seq<Edge>, k: nat, p: int, weight: nat)
    requires ValidEdges(es) && SortedByTop(es) && PixelAway(es, k, p)
    ensures SumCover(SpansOf(rule, ActiveOn(es, k)), p, weight)
         == if InSpans(SpansOf(rule, ActiveOn(es, k)), FIX * p) then weight else 0
  {
    hide ActiveOn, SumCover, InSpans, PixelAway, Sorted, Uncut, EndsOutside, Spans, SortedByTop, ValidEdges;
    ActiveUncut(es, k, p);
    ActiveListIsCrossingEdges(es, k);
    ActiveSpansFit(rule, ActiveOn(es, k), p, weight);
    UncutSpans(rule, ActiveOn(es, k), 0, 0, p);
    UncutCover(SpansOf(rule, ActiveOn(es, k)), p, weight);
  }
}
