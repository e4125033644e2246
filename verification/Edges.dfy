/** Directed edges of an outline and their winding numbers (src/External/nanosvg/nanosvgrast.h).

    addEdge turns the directed segment a -> b into an edge that always runs downwards and remembers the original
    sense in `dir`. Everything the scan converter paints is decided by the sum of `dir` over the edges that cross a
    height, so the central fact of this module is that a closed polyline contributes nothing at any height. */
module Edges {
  import Permutations

  datatype Pt = Pt(x: real, y: real)

  datatype Edge = Edge(x0: real, y0: real, x1: real, y1: real, dir: int)

  /** What addEdge appends for the segment a -> b. */
  function Segment(a: Pt, b: Pt): seq<Edge> {
    if a.y == b.y then []
    else if a.y < b.y then [Edge(a.x, a.y, b.x, b.y, 1)]
    else [Edge(b.x, b.y, a.x, a.y, -1)]
  }

  /** The edges of the open polyline ps[0] -> ps[1] -> ... */
  function Polyline(ps: seq<Pt>): seq<Edge> {
    if |ps| < 2 then [] else Polyline(ps[..|ps| - 1]) + Segment(ps[|ps| - 2], ps[|ps| - 1])
  }

  predicate ValidEdge(e: Edge) {
    e.y0 < e.y1 && (e.dir == 1 || e.dir == -1)
  }

  predicate ValidEdges(es: seq<Edge>) {
    forall i :: 0 <= i < |es| ==> ValidEdge(es[i])
  }

  predicate Crosses(e: Edge, c: real) {
    e.y0 <= c < e.y1
  }

  /** Sum of the directions of the edges that cross height c. */
  function Winding(es: seq<Edge>, c: real): int {
    if es == [] then 0
    else Winding(es[..|es| - 1], c) + (if Crosses(es[|es| - 1], c) then es[|es| - 1].dir else 0)
  }

  predicate Closed(ps: seq<Pt>) {
    ps != [] && ps[0] == ps[|ps| - 1]
  }

  /** No height sees a net direction: the condition under which span filling ends where it started. */
  ghost predicate Balanced(es: seq<Edge>) {
    forall c: real :: Winding(es, c) == 0
  }

  // 1 when p is at or above height c; a segment's winding is the difference of its ends.
  function Above(p: Pt, c: real): int {
    if p.y <= c then 1 else 0
  }

  lemma {:induction false} WindingConcat(a: seq<Edge>, b: seq<Edge>, c: real)
    ensures Winding(a + b, c) == Winding(a, c) + Winding(b, c)
  {
    if b == [] {
      assert a + b == a;
    } else {
      var b' := b[..|b| - 1];
      WindingConcat(a, b', c);
      assert (a + b)[..|a + b| - 1] == a + b';
    }
  }

  lemma SegmentWinding(a: Pt, b: Pt, c: real)
    ensures Winding(Segment(a, b), c) == Above(a, c) - Above(b, c)
  {
    var s := Segment(a, b);
    if s != [] {
      assert s[..0] == [];
      assert Winding(s[..0], c) == 0;
    }
  }

  /** The point a fraction t of the way from a to b. */
  ghost predicate PartWay(p: Pt, a: Pt, b: Pt, t: real) {
    p.x == a.x + t * (b.x - a.x) && p.y == a.y + t * (b.y - a.y)
  }

  /** p lies on the line through the ends of e, at a height between theirs. */
  ghost predicate OnEdge(p: Pt, e: Edge) {
    e.y0 <= p.y <= e.y1 && Parallel(p.x - e.x0, p.y - e.y0, e.x1 - e.x0, e.y1 - e.y0)
  }

  predicate Parallel(ux: real, uy: real, vx: real, vy: real) {
    ux * vy == uy * vx
  }

  /** An edge is its segment: it is as tall, and every point of the segment lies on it. A horizontal one has none. */
  lemma SegmentOnEdge(a: Pt, b: Pt, p: Pt, t: real)
    requires 0.0 <= t <= 1.0 && PartWay(p, a, b, t)
    ensures a.y == b.y <==> Segment(a, b) == []
    ensures a.y != b.y ==>
              |Segment(a, b)| == 1 && var e := Segment(a, b)[0];
              OnEdge(p, e) && (e.dir == 1 <==> a.y < b.y) &&
              e.y1 - e.y0 == if a.y < b.y then b.y - a.y else a.y - b.y
  {
    hide PartWay, OnEdge;
    if a.y < b.y {
      OnLine(a, b, p, t, 1);
    } else if b.y < a.y {
      FromTheEnd(a, b, p, t);
      OnLine(b, a, p, 1.0 - t, -1);
    }
  }

  lemma FromTheEnd(a: Pt, b: Pt, p: Pt, t: real)
    requires PartWay(p, a, b, t)
    ensures PartWay(p, b, a, 1.0 - t)
  {
  }

  lemma OnLine(a: Pt, b: Pt, p: Pt, t: real, dir: int)
    requires 0.0 <= t <= 1.0 && a.y < b.y && PartWay(p, a, b, t)
    ensures OnEdge(p, Edge(a.x, a.y, b.x, b.y, dir))
  {
    Steps(p.x - a.x, p.y - a.y, b.x - a.x, b.y - a.y, t);
    hide Parallel;
  }

  lemma Steps(px: real, py: real, dx: real, dy: real, t: real)
    requires 0.0 <= t <= 1.0 && dy > 0.0 && px == t * dx && py == t * dy
    ensures 0.0 <= py <= dy && Parallel(px, py, dx, dy)
  {
    PartOf(t, dy);
    assert (t * dx) * dy == (t * dy) * dx;
  }

  lemma PartOf(t: real, d: real)
    requires 0.0 <= t <= 1.0 && d > 0.0
    ensures 0.0 <= t * d <= d
  {
    var rest := 1.0 - t;
    assert rest * d >= 0.0;
    assert t * d + rest * d == d;
  }

  lemma {:induction false} PolylineValid(ps: seq<Pt>)
    ensures ValidEdges(Polyline(ps))
  {
    if |ps| >= 2 { PolylineValid(ps[..|ps| - 1]); }
  }

  /** The winding of a polyline telescopes to its two ends. */
  lemma {:induction false} PolylineWinding(ps: seq<Pt>, c: real)
    requires ps != []
    ensures Winding(Polyline(ps), c) == Above(ps[0], c) - Above(ps[|ps| - 1], c)
  {
    if |ps| >= 2 {
      var init := ps[..|ps| - 1];
      PolylineWinding(init, c);
      SegmentWinding(ps[|ps| - 2], ps[|ps| - 1], c);
      WindingConcat(Polyline(init), Segment(ps[|ps| - 2], ps[|ps| - 1]), c);
    }
  }

  lemma ClosedIsBalanced(ps: seq<Pt>)
    requires Closed(ps)
    ensures Balanced(Polyline(ps))
  {
    forall c: real ensures Winding(Polyline(ps), c) == 0 {
      PolylineWinding(ps, c);
    }
  }

  lemma WindingInsert(l: seq<Edge>, e: Edge, r: seq<Edge>, c: real)
    ensures Winding(l + [e] + r, c) == Winding(l + r, c) + (if Crosses(e, c) then e.dir else 0)
  {
    WindingConcat(l + [e], r, c);
    WindingConcat(l, r, c);
    assert (l + [e])[..|l|] == l;
  }

  /** Winding depends on which edges there are, not on their order: sorting keeps an outline closed. */
  lemma {:induction false} WindingPermutation(a: seq<Edge>, b: seq<Edge>, c: real)
    requires multiset(a) == multiset(b)
    ensures Winding(a, c) == Winding(b, c)
    decreases |a|
  {
    Permutations.SameLength(a, b);
    if a != [] {
      var l, r := Permutations.TakeLast(a, b);
      WindingPermutation(a[..|a| - 1], l + r, c);
      WindingInsert(l, a[|a| - 1], r, c);
    }
  }

  lemma BalancedPermutation(a: seq<Edge>, b: seq<Edge>)
    requires multiset(a) == multiset(b) && Balanced(a)
    ensures Balanced(b)
  {
    forall c: real ensures Winding(b, c) == 0 { WindingPermutation(a, b, c); }
  }

  lemma BalancedConcat(a: seq<Edge>, b: seq<Edge>)
    requires Balanced(a) && Balanced(b)
    ensures Balanced(a + b)
  {
    forall c: real ensures Winding(a + b, c) == 0 { WindingConcat(a, b, c); }
  }

  // ----- splitting polylines -----

  lemma PolylineSnoc(ps: seq<Pt>, q: Pt)
    requires ps != []
    ensures Polyline(ps + [q]) == Polyline(ps) + Segment(ps[|ps| - 1], q)
  {
    assert (ps + [q])[..|ps|] == ps;
  }

  /** Cutting a polyline at a point it passes through. */
  lemma {:induction false} PolylineSplit(a: seq<Pt>, p: Pt, b: seq<Pt>)
    ensures Polyline(a + [p] + b) == Polyline(a + [p]) + Polyline([p] + b)
  {
    if b == [] {
      assert a + [p] + b == a + [p];
      assert Polyline([p] + b) == [];
    } else {
      var b' := b[..|b| - 1];
      PolylineSplit(a, p, b');
      PolylineSplitStep(a, p, b', b[|b| - 1]);
      assert b == b' + [b[|b| - 1]];
    }
  }

  lemma PolylineSplitStep(a: seq<Pt>, p: Pt, b: seq<Pt>, q: Pt)
    requires Polyline(a + [p] + b) == Polyline(a + [p]) + Polyline([p] + b)
    ensures Polyline(a + [p] + (b + [q])) == Polyline(a + [p]) + Polyline([p] + (b + [q]))
  {
    hide *;
    var tail, whole := [p] + b, a + [p] + b;
    assert whole == a + tail;
    assert whole[|whole| - 1] == tail[|tail| - 1];
    PolylineSnoc(whole, q);
    PolylineSnoc(tail, q);
    assert whole + [q] == a + [p] + (b + [q]);
    assert tail + [q] == [p] + (b + [q]);
  }

  lemma PolylinePair(a: Pt, b: Pt)
    ensures Polyline([a, b]) == Segment(a, b)
  {
    assert [a, b][..1] == [a];
  }

  // ----- translating and scaling the outline (nsvgRasterize) -----

  const SUBSAMPLES := 5

  /** The step of nsvgRasterize that moves an outline edge into sub-scanline units. */
  function Place(e: Edge, tx: real, ty: real): (r: Edge)
    ensures ValidEdge(e) ==> ValidEdge(r)
  {
    Edge(tx + e.x0, (ty + e.y0) * (SUBSAMPLES as real), tx + e.x1, (ty + e.y1) * (SUBSAMPLES as real), e.dir)
  }

  function PlaceAll(es: seq<Edge>, tx: real, ty: real): (r: seq<Edge>)
    ensures |r| == |es|
    ensures forall i :: 0 <= i < |es| ==> r[i] == Place(es[i], tx, ty)
  {
    seq(|es|, i requires 0 <= i < |es| => Place(es[i], tx, ty))
  }

  lemma {:induction false} PlaceWinding(es: seq<Edge>, tx: real, ty: real, c: real)
    ensures Winding(PlaceAll(es, tx, ty), c) == Winding(es, c / 5.0 - ty)
  {
    if es != [] {
      var init := es[..|es| - 1];
      PlaceWinding(init, tx, ty, c);
      assert PlaceAll(es, tx, ty)[..|es| - 1] == PlaceAll(init, tx, ty);
    }
  }

  lemma PlaceBalanced(es: seq<Edge>, tx: real, ty: real)
    requires Balanced(es)
    ensures Balanced(PlaceAll(es, tx, ty))
  {
    forall c: real ensures Winding(PlaceAll(es, tx, ty), c) == 0 {
      PlaceWinding(es, tx, ty, c);
    }
  }
}
