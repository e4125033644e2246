/** expandStroke: from a prepared centre line to the edges of the stroke's outline
    (src/External/nanosvg/nanosvgrast.h, caps, joins and expandStroke).

    Square roots and trigonometry stay uninterpreted: everything below holds for whatever functions `Trig` carries, so
    for any cap and join points they may produce. */
module Stroke {
  import opened Edges

  datatype Trig = Trig(sqrt: real -> real, sin: real -> real, cos: real -> real, atan2: (real, real) -> real)

  datatype LineCap = Butt | RoundCap | Square

  datatype LineJoin = Miter | RoundJoin | Bevel

  /** A centre-line point as prepareStroke leaves it: position, direction to the next point, extrusion and flags. */
  datatype StrokePoint = StrokePoint(
    x: real, y: real, dx: real, dy: real, dmx: real, dmy: real, corner: bool, bevel: bool, left: bool)

  const PI := 3.14159265358979323846264338327

  function SquaredNorm(x: real, y: real): real {
    x * x + y * y
  }

  // (dx, dy) divided by its length d, and d, unless that is next to nothing.
  function DividedBy(dx: real, dy: real, d: real): (real, real, real) {
    if d > 0.000001 then (dx * (1.0 / d), dy * (1.0 / d), d) else (dx, dy, d)
  }

  /** nsvg__normalize. */
  function Normalize(trig: Trig, dx: real, dy: real): (r: (real, real, real)) {
    DividedBy(dx, dy, trig.sqrt(SquaredNorm(dx, dy)))
  }

  ghost function Poly(ps: seq<Pt>): multiset<Edge> {
    multiset(Polyline(ps))
  }

  /** The edge multiset grew by exactly the edges of the polyline `path`. */
  ghost predicate Traced(before: seq<Edge>, after: seq<Edge>, path: seq<Pt>) {
    multiset(after) == multiset(before) + Poly(path)
  }

  // ----- caps -----

  // The i-th of the ncap points of a round cap.
  function RoundCapPoint(trig: Trig, p: StrokePoint, dx: real, dy: real, width: real, ncap: int, i: int): Pt
    requires ncap >= 2
  {
    TurnedBy(trig, p, dx, dy, width * 0.5, (i as real) / ((ncap - 1) as real) * PI)
  }

  function TurnedBy(trig: Trig, p: StrokePoint, dx: real, dy: real, w: real, a: real): Pt {
    Turned(p, dx, dy, Share(trig.cos(a), w), Share(trig.sin(a), w))
  }

  // A fraction c of w.
  function Share(c: real, w: real): real {
    c * w
  }

  // ax to the left of p and ay behind it.
  function Turned(p: StrokePoint, dx: real, dy: real, ax: real, ay: real): Pt {
    Pt(p.x - dy * ax - dx * ay, p.y + dx * ax - dy * ay)
  }

  function RoundCapPoints(trig: Trig, p: StrokePoint, dx: real, dy: real, width: real, ncap: int, n: nat): (r: seq<Pt>)
    requires ncap >= 2
    ensures |r| == n
    ensures forall i :: 0 <= i < n ==> r[i] == RoundCapPoint(trig, p, dx, dy, width, ncap, i)
  {
    seq(n, i requires 0 <= i < n => RoundCapPoint(trig, p, dx, dy, width, ncap, i))
  }

  // (px, py) moved by w along the normal of (dx, dy).
  function Normal(px: real, py: real, dx: real, dy: real, w: real): Pt {
    Pt(px + dy * w, py - dx * w)
  }

  function FlatCapPoints(px: real, py: real, dx: real, dy: real, width: real): (r: seq<Pt>)
    ensures |r| == 2
  {
    [Normal(px, py, dx, dy, -(width * 0.5)), Normal(px, py, dx, dy, width * 0.5)]
  }

  /** The points a cap runs through, from its left to its right end. */
  function CapPoints(trig: Trig, cap: LineCap, p: StrokePoint, dx: real, dy: real, width: real, ncap: int): (r: seq<Pt>)
    requires ncap >= 2
    ensures |r| >= 2
  {
    match cap
    case Butt => FlatCapPoints(p.x, p.y, dx, dy, width)
    case Square => FlatCapPoints(p.x - dx * (width * 0.5), p.y - dy * (width * 0.5), dx, dy, width)
    case RoundCap => RoundCapPoints(trig, p, dx, dy, width, ncap, ncap)
  }

  // ----- joins -----

  /** What a join appends to the two sides: `back` goes in front of the left side (which is walked backwards), `fwd`
      behind the right side. */
  datatype Sides = Sides(back: seq<Pt>, fwd: seq<Pt>)

  // Angles of a round join: start, sweep and number of points.
  function RoundJoinSweep(trig: Trig, p0: StrokePoint, p1: StrokePoint, ncap: int): (r: (real, real, int))
    requires ncap >= 2
    ensures 2 <= r.2 <= ncap
  {
    var a0, a1 := trig.atan2(-p0.dx, p0.dy), trig.atan2(-p1.dx, p1.dy);
    var da := a1 - a0;
    var da := if da < PI then da + PI * 2.0 else da;
    var da := if da > PI then da - PI * 2.0 else da;
    var share := (if da < 0.0 then -da else da) / PI * (ncap as real);
    var n := -((-share).Floor);
    var n := if n < 2 then 2 else n;
    (a0, da, if n > ncap then ncap else n)
  }

  function RoundJoinPoint(trig: Trig, p1: StrokePoint, width: real, sweep: (real, real, int), i: int, side: real): Pt
    requires sweep.2 >= 2
  {
    OnCircle(trig, p1, width * 0.5, side, SweepAngle(sweep, i))
  }

  // The angle of the i-th point of a round join.
  function SweepAngle(sweep: (real, real, int), i: int): real
    requires sweep.2 >= 2
  {
    var u := (i as real) / ((sweep.2 - 1) as real);
    sweep.0 + u * sweep.1
  }

  function OnCircle(trig: Trig, p1: StrokePoint, w: real, side: real, a: real): Pt {
    Pt(p1.x + Share(side, Share(trig.cos(a), w)), p1.y + Share(side, Share(trig.sin(a), w)))
  }

  function RoundJoinSides(trig: Trig, p1: StrokePoint, width: real, sweep: (real, real, int), n: nat): (r: Sides)
    requires sweep.2 >= 2
    ensures |r.back| == |r.fwd| == n
  {
    if n == 0 then Sides([], [])
    else
      var s := RoundJoinSides(trig, p1, width, sweep, n - 1);
      Sides([RoundJoinPoint(trig, p1, width, sweep, n - 1, -1.0)] + s.back,
            s.fwd + [RoundJoinPoint(trig, p1, width, sweep, n - 1, 1.0)])
  }

  // p1 moved along its extrusion.
  function Extrusion(p1: StrokePoint, w: real): Pt {
    Pt(p1.x + p1.dmx * w, p1.y + p1.dmy * w)
  }

  // Offset of p1 by the normal of the segment that leaves p.
  function Offset(p1: StrokePoint, p: StrokePoint, w: real): Pt {
    Normal(p1.x, p1.y, p.dx, p.dy, w)
  }

  function JoinSides(trig: Trig, join: LineJoin, p0: StrokePoint, p1: StrokePoint, width: real, ncap: int): (r: Sides)
    requires ncap >= 2
    ensures r.back != [] && r.fwd != []
  {
    var w := width * 0.5;
    if !p1.corner then
      Sides([Extrusion(p1, -w)], [Extrusion(p1, w)])
    else if join == RoundJoin then
      var sweep := RoundJoinSweep(trig, p0, p1, ncap);
      RoundJoinSides(trig, p1, width, sweep, sweep.2)
    else if join == Bevel || p1.bevel then
      Sides([Offset(p1, p1, -w), Offset(p1, p0, -w)], [Offset(p1, p0, w), Offset(p1, p1, w)])
    else if p1.left then
      Sides([Extrusion(p1, -w)], [Offset(p1, p0, w), Offset(p1, p1, w)])
    else
      Sides([Offset(p1, p1, -w), Offset(p1, p0, -w)], [Extrusion(p1, w)])
  }

  // ----- the whole outline -----

  function Prev(points: seq<StrokePoint>, j: nat): StrokePoint
    requires j < |points|
  {
    if j == 0 then points[|points| - 1] else points[j - 1]
  }

  /** The two sides after the joins at points[s..j]. */
  function SidesUpTo(trig: Trig, join: LineJoin, points: seq<StrokePoint>, width: real, ncap: int,
                     start: Sides, s: nat, j: nat): (r: Sides)
    requires ncap >= 2 && s <= j <= |points| && start.back != [] && start.fwd != []
    ensures r.back != [] && r.fwd != []
    ensures r.back[|r.back| - 1] == start.back[|start.back| - 1] && r.fwd[0] == start.fwd[0]
    decreases j
  {
    if j == s then start
    else
      var before := SidesUpTo(trig, join, points, width, ncap, start, s, j - 1);
      var js := JoinSides(trig, join, Prev(points, j - 1), points[j - 1], width, ncap);
      Sides(js.back + before.back, before.fwd + js.fwd)
  }

  lemma SidesStart(trig: Trig, join: LineJoin, points: seq<StrokePoint>, width: real, ncap: int, start: Sides, s: nat)
    requires ncap >= 2 && s <= |points| && start.back != [] && start.fwd != []
    ensures SidesUpTo(trig, join, points, width, ncap, start, s, s) == start
  {
  }

  lemma SidesNext(trig: Trig, join: LineJoin, points: seq<StrokePoint>, width: real, ncap: int, start: Sides, s: nat,
                  j: nat)
    requires ncap >= 2 && s <= j < |points| && start.back != [] && start.fwd != []
    ensures var before := SidesUpTo(trig, join, points, width, ncap, start, s, j);
            var js := JoinSides(trig, join, Prev(points, j), points[j], width, ncap);
            SidesUpTo(trig, join, points, width, ncap, start, s, j + 1)
            == Sides(js.back + before.back, before.fwd + js.fwd)
  {
    hide JoinSides;
  }

  function Direction(trig: Trig, p0: StrokePoint, p1: StrokePoint): (real, real) {
    var n := Normalize(trig, p1.x - p0.x, p1.y - p0.y);
    (n.0, n.1)
  }

  function StartCap(trig: Trig, cap: LineCap, points: seq<StrokePoint>, width: real, ncap: int): (r: seq<Pt>)
    requires ncap >= 2 && |points| >= 2
    ensures |r| >= 2
  {
    var d := Direction(trig, points[0], points[1]);
    CapPoints(trig, cap, points[0], d.0, d.1, width, ncap)
  }

  function EndCap(trig: Trig, cap: LineCap, points: seq<StrokePoint>, width: real, ncap: int): (r: seq<Pt>)
    requires ncap >= 2 && |points| >= 2
    ensures |r| >= 2
  {
    var n := |points|;
    var d := Direction(trig, points[n - 2], points[n - 1]);
    CapPoints(trig, cap, points[n - 1], -d.0, -d.1, width, ncap)
  }

  function OpenSides(trig: Trig, join: LineJoin, cap: LineCap, points: seq<StrokePoint>, width: real, ncap: int)
    : (r: Sides)
    requires ncap >= 2 && |points| >= 2
    ensures r.back != [] && r.fwd != []
    ensures var c := StartCap(trig, cap, points, width, ncap);
            r.back[|r.back| - 1] == c[0] && r.fwd[0] == c[|c| - 1]
  {
    var c := StartCap(trig, cap, points, width, ncap);
    SidesUpTo(trig, join, points, width, ncap, Sides([c[0]], [c[|c| - 1]]), 1, |points| - 1)
  }

  /** The outline of an open stroke: start cap, right side, end cap, and the left side back to the start. */
  function OpenOutline(trig: Trig, join: LineJoin, cap: LineCap, points: seq<StrokePoint>, width: real, ncap: int)
    : (r: seq<Pt>)
    requires ncap >= 2 && |points| >= 2
    ensures Closed(r)
  {
    var s := OpenSides(trig, join, cap, points, width, ncap);
    StartCap(trig, cap, points, width, ncap) + s.fwd[1..] + EndCap(trig, cap, points, width, ncap) + s.back
  }

  function InitClosed(trig: Trig, p0: StrokePoint, p1: StrokePoint, width: real): (r: Sides)
    ensures |r.back| == |r.fwd| == 1
  {
    var w := width * 0.5;
    var n := Normalize(trig, p1.x - p0.x, p1.y - p0.y);
    var px, py := p0.x + n.0 * n.2 * 0.5, p0.y + n.1 * n.2 * 0.5;
    Sides([Pt(px - n.1 * w, py + n.0 * w)], [Pt(px + n.1 * w, py - n.0 * w)])
  }

  function ClosedSides(trig: Trig, join: LineJoin, points: seq<StrokePoint>, width: real, ncap: int): (r: Sides)
    requires ncap >= 2 && points != []
    ensures r.back != [] && r.fwd != []
  {
    SidesUpTo(trig, join, points, width, ncap, InitClosed(trig, Prev(points, 0), points[0], width), 0, |points|)
  }

  /** A closed stroke has two outlines: the left side walked backwards and the right side walked forwards. */
  function LeftRing(s: Sides): (r: seq<Pt>)
    requires s.back != []
    ensures Closed(r)
  {
    [s.back[|s.back| - 1]] + s.back
  }

  function RightRing(s: Sides): (r: seq<Pt>)
    requires s.fwd != []
    ensures Closed(r)
  {
    s.fwd + [s.fwd[0]]
  }

  // ----- lemmas about pieces of polylines -----

  lemma PolyPoint(p: Pt)
    ensures Poly([p]) == multiset{}
  {
    assert Polyline([p]) == [];
  }

  lemma Glue(a: seq<Pt>, p: Pt, b: seq<Pt>)
    ensures Poly(a + [p] + b) == Poly(a + [p]) + Poly([p] + b)
  {
    PolylineSplit(a, p, b);
  }

  lemma GluePair(a: Pt, b: Pt)
    ensures Poly([a, b]) == multiset(Segment(a, b))
  {
    PolylinePair(a, b);
  }

  lemma Triple(a: Pt, b: Pt, c: Pt)
    ensures Poly([a, b, c]) == multiset(Segment(a, b)) + multiset(Segment(b, c))
  {
    Glue([a], b, [c]);
    assert [a] + [b] + [c] == [a, b, c] && [a] + [b] == [a, b] && [b] + [c] == [b, c];
    GluePair(a, b);
    GluePair(b, c);
  }

  /** One more point in front of, or behind, a polyline. */
  lemma GlueFront(p: Pt, ps: seq<Pt>)
    requires ps != []
    ensures Poly([p] + ps) == multiset(Segment(p, ps[0])) + Poly(ps)
  {
    hide *;
    var q, tail := ps[0], ps[1..];
    assert ps == [q] + tail;
    assert [p] + ps == [p] + [q] + tail;
    assert [p] + [q] == [p, q];
    Glue([p], q, tail);
    GluePair(p, q);
  }

  lemma GlueBack(ps: seq<Pt>, p: Pt)
    requires ps != []
    ensures Poly(ps + [p]) == Poly(ps) + multiset(Segment(ps[|ps| - 1], p))
  {
    PolylineSnoc(ps, p);
  }

  lemma GlueFirst(p: Pt, ps: seq<Pt>, q: Pt)
    ensures Poly(([p] + ps) + [q]) == multiset(Segment(p, (ps + [q])[0])) + Poly(ps + [q])
  {
    hide *;
    assert ([p] + ps) + [q] == [p] + (ps + [q]);
    GlueFront(p, ps + [q]);
  }

  lemma GlueLast(p: Pt, ps: seq<Pt>, q: Pt)
    ensures Poly([p] + (ps + [q])) == Poly([p] + ps) + multiset(Segment(([p] + ps)[|ps|], q))
  {
    hide *;
    assert [p] + (ps + [q]) == ([p] + ps) + [q];
    GlueBack([p] + ps, q);
  }

  /** Two polylines joined at a shared point: the end of `a` is the start of `b`. */
  lemma GlueShared(a: seq<Pt>, b: seq<Pt>)
    requires a != [] && b != [] && a[|a| - 1] == b[0]
    ensures Poly(a + b[1..]) == Poly(a) + Poly(b)
  {
    hide *;
    var p, init, tail := b[0], a[..|a| - 1], b[1..];
    assert a == init + [p];
    assert b == [p] + tail;
    Glue(init, p, tail);
  }

  /** A cap with both of its connecting segments. */
  lemma CapConnected(left: Pt, cap: seq<Pt>, right: Pt)
    requires cap != []
    ensures Poly([left] + cap + [right])
         == Poly(cap) + multiset(Segment(left, cap[0])) + multiset(Segment(cap[|cap| - 1], right))
  {
    GlueFront(left, cap);
    GlueBack([left] + cap, right);
  }

  lemma OpenOutlineEdges(cap0: seq<Pt>, s: Sides, cap1: seq<Pt>)
    requires cap0 != [] && cap1 != [] && s.back != [] && s.fwd != []
    requires s.fwd[0] == cap0[|cap0| - 1]
    ensures Poly(cap0 + s.fwd[1..] + cap1 + s.back)
         == Poly(cap0) + Poly(s.fwd) + Poly([s.fwd[|s.fwd| - 1]] + cap1 + [s.back[0]]) + Poly(s.back)
  {
    hide *;
    var a := cap0 + s.fwd[1..];
    var mid := [s.fwd[|s.fwd| - 1]] + cap1 + [s.back[0]];
    assert a[|a| - 1] == mid[0];
    GlueShared(cap0, s.fwd);
    GlueShared(a, mid);
    GlueShared(a + mid[1..], s.back);
    Regroup(a, cap1, s.back);
    assert mid[1..] == cap1 + [s.back[0]];
  }

  lemma Regroup(a: seq<Pt>, cap: seq<Pt>, back: seq<Pt>)
    requires back != []
    ensures a + (cap + [back[0]]) + back[1..] == a + cap + back
  {
    assert back == [back[0]] + back[1..];
  }

  // ----- the rasterizer's edge buffer -----

  class EdgeBuffer {
    var edges: seq<Edge>

    constructor ()
      ensures edges == []
    {
      edges := [];
    }

    method AddEdge(a: Pt, b: Pt)
      modifies this
      ensures edges == old(edges) + Segment(a, b)
    {
      if a.y == b.y {
        return;
      }
      if a.y < b.y {
        edges := edges + [Edge(a.x, a.y, b.x, b.y, 1)];
      } else {
        edges := edges + [Edge(b.x, b.y, a.x, a.y, -1)];
      }
    }

    /** The three cap functions; `connect` ties the cap to the sides that reach it. */
    method AddCap(trig: Trig, cap: LineCap, left: Pt, right: Pt, p: StrokePoint, dx: real, dy: real, width: real,
                  ncap: int, connect: bool)
      returns (newLeft: Pt, newRight: Pt)
      requires ncap >= 2
      modifies this
      ensures var c := CapPoints(trig, cap, p, dx, dy, width, ncap);
              newLeft == c[0] && newRight == c[|c| - 1] &&
              (connect ==> Traced(old(edges), edges, [left] + c + [right])) &&
              (!connect ==> Traced(old(edges), edges, c))
    {
      hide Poly, Polyline, Segment;
      ghost var c := CapPoints(trig, cap, p, dx, dy, width, ncap);
      match cap {
      case Butt => newLeft, newRight := AddFlatCap(p.x, p.y, dx, dy, width);
      case Square => newLeft, newRight := AddFlatCap(p.x - dx * (width * 0.5), p.y - dy * (width * 0.5), dx, dy, width);
      case RoundCap => newLeft, newRight := AddRoundCap(trig, p, dx, dy, width, ncap);
      }
      if connect {
        AddEdge(left, newLeft);
        AddEdge(newRight, right);
        CapConnected(left, c, right);
      }
    }

    method AddFlatCap(px: real, py: real, dx: real, dy: real, width: real) returns (newLeft: Pt, newRight: Pt)
      modifies this
      ensures var c := FlatCapPoints(px, py, dx, dy, width);
              newLeft == c[0] && newRight == c[1] && Traced(old(edges), edges, c)
    {
      hide Poly, Polyline, Segment, Normal;
      var w := width * 0.5;
      newLeft, newRight := Normal(px, py, dx, dy, -w), Normal(px, py, dx, dy, w);
      AddEdge(newLeft, newRight);
      GluePair(newLeft, newRight);
    }

    method AddRoundCap(trig: Trig, p: StrokePoint, dx: real, dy: real, width: real, ncap: int)
      returns (newLeft: Pt, newRight: Pt)
      requires ncap >= 2
      modifies this
      ensures var c := RoundCapPoints(trig, p, dx, dy, width, ncap, ncap);
              newLeft == c[0] && newRight == c[ncap - 1] && Traced(old(edges), edges, c)
    {
      newLeft, newRight := Pt(0.0, 0.0), Pt(0.0, 0.0);
      var prev := Pt(0.0, 0.0);
      for i := 0 to ncap
        invariant Traced(old(edges), edges, RoundCapPoints(trig, p, dx, dy, width, ncap, i))
        invariant i > 0 ==> prev == RoundCapPoint(trig, p, dx, dy, width, ncap, i - 1)
        invariant i > 0 ==> newLeft == RoundCapPoint(trig, p, dx, dy, width, ncap, 0)
        invariant i == ncap ==> newRight == RoundCapPoint(trig, p, dx, dy, width, ncap, ncap - 1)
      {
        var q := RoundCapPoint(trig, p, dx, dy, width, ncap, i);
        ghost var done := RoundCapPoints(trig, p, dx, dy, width, ncap, i);
        assert RoundCapPoints(trig, p, dx, dy, width, ncap, i + 1) == done + [q];
        if i > 0 {
          AddEdge(prev, q);
          GlueBack(done, q);
        }
        prev := q;
        if i == 0 {
          newLeft := q;
        } else if i == ncap - 1 {
          newRight := q;
        }
      }
    }

    /** The four join functions, chosen as expandStroke chooses them. */
    method AddJoin(trig: Trig, join: LineJoin, left: Pt, right: Pt, p0: StrokePoint, p1: StrokePoint, width: real,
                   ncap: int)
      returns (newLeft: Pt, newRight: Pt)
      requires ncap >= 2
      modifies this
      ensures var s := JoinSides(trig, join, p0, p1, width, ncap);
              newLeft == s.back[0] && newRight == s.fwd[|s.fwd| - 1] &&
              multiset(edges) == multiset(old(edges)) + Poly(s.back + [left]) + Poly([right] + s.fwd)
    {
      if p1.corner && join == RoundJoin {
        newLeft, newRight := AddRoundJoin(trig, left, right, p0, p1, width, ncap);
      } else {
        newLeft, newRight := AddPlainJoin(trig, join, left, right, p0, p1, width, ncap);
      }
    }

    method AddPlainJoin(trig: Trig, join: LineJoin, left: Pt, right: Pt, p0: StrokePoint, p1: StrokePoint,
                        width: real, ncap: int)
      returns (newLeft: Pt, newRight: Pt)
      requires ncap >= 2 && !(p1.corner && join == RoundJoin)
      modifies this
      ensures var s := JoinSides(trig, join, p0, p1, width, ncap);
              newLeft == s.back[0] && newRight == s.fwd[|s.fwd| - 1] &&
              multiset(edges) == multiset(old(edges)) + Poly(s.back + [left]) + Poly([right] + s.fwd)
    {
      hide Poly, Offset, Polyline;
      var w := width * 0.5;
      var l0, l1 := Offset(p1, p0, -w), Offset(p1, p1, -w);
      var r0, r1 := Offset(p1, p0, w), Offset(p1, p1, w);
      var ml, mr := Extrusion(p1, -w), Extrusion(p1, w);
      if !p1.corner {
        newLeft := AddLeftSingle(left, ml);
        newRight := AddRightSingle(right, mr);
      } else if join == Bevel || p1.bevel {
        newLeft := AddLeftPair(left, l0, l1);
        newRight := AddRightPair(right, r0, r1);
      } else if p1.left {
        newLeft := AddLeftSingle(left, ml);
        newRight := AddRightPair(right, r0, r1);
      } else {
        newLeft := AddLeftPair(left, l0, l1);
        newRight := AddRightSingle(right, mr);
      }
    }

    method AddLeftSingle(left: Pt, l: Pt) returns (newLeft: Pt)
      modifies this
      ensures newLeft == l && multiset(edges) == multiset(old(edges)) + Poly([l] + [left])
    {
      AddEdge(l, left);
      assert [l] + [left] == [l, left];
      GluePair(l, left);
      newLeft := l;
    }

    method AddRightSingle(right: Pt, r: Pt) returns (newRight: Pt)
      modifies this
      ensures newRight == r && multiset(edges) == multiset(old(edges)) + Poly([right] + [r])
    {
      AddEdge(right, r);
      assert [right] + [r] == [right, r];
      GluePair(right, r);
      newRight := r;
    }

    method AddLeftPair(left: Pt, l0: Pt, l1: Pt) returns (newLeft: Pt)
      modifies this
      ensures newLeft == l1 && multiset(edges) == multiset(old(edges)) + Poly([l1, l0] + [left])
    {
      AddEdge(l0, left);
      AddEdge(l1, l0);
      assert [l1, l0] + [left] == [l1, l0, left];
      Triple(l1, l0, left);
      newLeft := l1;
    }

    method AddRightPair(right: Pt, r0: Pt, r1: Pt) returns (newRight: Pt)
      modifies this
      ensures newRight == r1 && multiset(edges) == multiset(old(edges)) + Poly([right] + [r0, r1])
    {
      AddEdge(right, r0);
      AddEdge(r0, r1);
      assert [right] + [r0, r1] == [right, r0, r1];
      Triple(right, r0, r1);
      newRight := r1;
    }

    method AddRoundJoin(trig: Trig, left: Pt, right: Pt, p0: StrokePoint, p1: StrokePoint, width: real, ncap: int)
      returns (newLeft: Pt, newRight: Pt)
      requires ncap >= 2
      modifies this
      ensures var sweep := RoundJoinSweep(trig, p0, p1, ncap);
              var s := RoundJoinSides(trig, p1, width, sweep, sweep.2);
              newLeft == s.back[0] && newRight == s.fwd[|s.fwd| - 1] &&
              multiset(edges) == multiset(old(edges)) + Poly(s.back + [left]) + Poly([right] + s.fwd)
    {
      hide Poly, Polyline, RoundJoinPoint, RoundJoinSweep, Segment;
      var sweep := RoundJoinSweep(trig, p0, p1, ncap);
      newLeft, newRight := left, right;
      PolyPoint(left);
      PolyPoint(right);
      assert [] + [left] == [left] && [right] + [] == [right];
      for i := 0 to sweep.2
        invariant var s := RoundJoinSides(trig, p1, width, sweep, i);
                  newLeft == (s.back + [left])[0] && newRight == ([right] + s.fwd)[i] &&
                  multiset(edges) == multiset(old(edges)) + Poly(s.back + [left]) + Poly([right] + s.fwd)
      {
        ghost var s := RoundJoinSides(trig, p1, width, sweep, i);
        var l := RoundJoinPoint(trig, p1, width, sweep, i, -1.0);
        var r := RoundJoinPoint(trig, p1, width, sweep, i, 1.0);
        AddEdge(l, newLeft);
        AddEdge(newRight, r);
        GlueFirst(l, s.back, left);
        GlueLast(right, s.fwd, r);
        newLeft, newRight := l, r;
      }
    }

    /** The join loop: both sides grow by their joins' points and nothing else is emitted. */
    method AddJoins(trig: Trig, join: LineJoin, points: seq<StrokePoint>, width: real, ncap: int, left: Pt, right: Pt,
                    s: nat, e: nat)
      returns (newLeft: Pt, newRight: Pt)
      requires ncap >= 2 && s <= e <= |points|
      modifies this
      ensures var sides := SidesUpTo(trig, join, points, width, ncap, Sides([left], [right]), s, e);
              newLeft == sides.back[0] && newRight == sides.fwd[|sides.fwd| - 1] &&
              multiset(edges) == multiset(old(edges)) + Poly(sides.back) + Poly(sides.fwd)
    {
      hide Poly, SidesUpTo, JoinSides;
      newLeft, newRight := left, right;
      PolyPoint(left);
      PolyPoint(right);
      SidesStart(trig, join, points, width, ncap, Sides([left], [right]), s);
      for j := s to e
        invariant var sides := SidesUpTo(trig, join, points, width, ncap, Sides([left], [right]), s, j);
                  newLeft == sides.back[0] && newRight == sides.fwd[|sides.fwd| - 1] &&
                  multiset(edges) == multiset(old(edges)) + Poly(sides.back) + Poly(sides.fwd)
      {
        ghost var before := SidesUpTo(trig, join, points, width, ncap, Sides([left], [right]), s, j);
        ghost var js := JoinSides(trig, join, Prev(points, j), points[j], width, ncap);
        newLeft, newRight := AddJoin(trig, join, newLeft, newRight, Prev(points, j), points[j], width, ncap);
        SidesNext(trig, join, points, width, ncap, Sides([left], [right]), s, j);
        GlueSides(js, before);
      }
    }

    /** expandStroke: the edges added are exactly those of the stroke's closed outlines, so a balanced buffer stays
        balanced. */
    method ExpandStroke(trig: Trig, join: LineJoin, cap: LineCap, points: seq<StrokePoint>, closed: bool, width: real,
                        ncap: int)
      requires ncap >= 2 && |points| >= (if closed then 1 else 2)
      modifies this
      ensures !closed ==> Traced(old(edges), edges, OpenOutline(trig, join, cap, points, width, ncap))
      ensures closed ==>
                var s := ClosedSides(trig, join, points, width, ncap);
                multiset(edges) == multiset(old(edges)) + Poly(LeftRing(s)) + Poly(RightRing(s))
      ensures Balanced(old(edges)) ==> Balanced(edges)
      ensures ValidEdges(old(edges)) ==> ValidEdges(edges)
    {
      if closed {
        StrokeClosed(trig, join, points, width, ncap);
      } else {
        StrokeOpen(trig, join, cap, points, width, ncap);
      }
      if Balanced(old(edges)) {
        StrokeIsBalanced(trig, join, cap, points, closed, width, ncap, old(edges), edges);
      }
      if ValidEdges(old(edges)) {
        StrokeIsValid(trig, join, cap, points, closed, width, ncap, old(edges), edges);
      }
    }

    method StrokeClosed(trig: Trig, join: LineJoin, points: seq<StrokePoint>, width: real, ncap: int)
      requires ncap >= 2 && points != []
      modifies this
      ensures var s := ClosedSides(trig, join, points, width, ncap);
              multiset(edges) == multiset(old(edges)) + Poly(LeftRing(s)) + Poly(RightRing(s))
    {
      hide Poly, Segment, SidesUpTo, InitClosed;
      var first := InitClosed(trig, Prev(points, 0), points[0], width);
      var firstLeft, firstRight := first.back[0], first.fwd[0];
      var left, right := AddJoins(trig, join, points, width, ncap, firstLeft, firstRight, 0, |points|);
      AddEdge(firstLeft, left);
      AddEdge(right, firstRight);
      ghost var s := ClosedSides(trig, join, points, width, ncap);
      assert first == Sides([firstLeft], [firstRight]);
      GlueFront(firstLeft, s.back);
      GlueBack(s.fwd, firstRight);
    }

    method StrokeOpen(trig: Trig, join: LineJoin, cap: LineCap, points: seq<StrokePoint>, width: real, ncap: int)
      requires ncap >= 2 && |points| >= 2
      modifies this
      ensures Traced(old(edges), edges, OpenOutline(trig, join, cap, points, width, ncap))
    {
      hide Poly, Segment, SidesUpTo, CapPoints, Direction;
      var n := |points|;
      var d := Direction(trig, points[0], points[1]);
      var origin := Pt(0.0, 0.0);
      var left, right := AddCap(trig, cap, origin, origin, points[0], d.0, d.1, width, ncap, false);
      left, right := AddJoins(trig, join, points, width, ncap, left, right, 1, n - 1);
      d := Direction(trig, points[n - 2], points[n - 1]);
      right, left := AddCap(trig, cap, right, left, points[n - 1], -d.0, -d.1, width, ncap, true);
      OpenOutlineEdges(StartCap(trig, cap, points, width, ncap), OpenSides(trig, join, cap, points, width, ncap),
                       EndCap(trig, cap, points, width, ncap));
    }
  }

  lemma GlueSides(js: Sides, before: Sides)
    requires js.back != [] && js.fwd != [] && before.back != [] && before.fwd != []
    ensures Poly(js.back + before.back) == Poly(js.back + [before.back[0]]) + Poly(before.back)
    ensures Poly(before.fwd + js.fwd) == Poly(before.fwd) + Poly([before.fwd[|before.fwd| - 1]] + js.fwd)
  {
    hide *;
    GlueShared(js.back + [before.back[0]], before.back);
    assert js.back + [before.back[0]] + before.back[1..] == js.back + before.back;
    var last := before.fwd[|before.fwd| - 1];
    GlueShared(before.fwd, [last] + js.fwd);
    assert ([last] + js.fwd)[1..] == js.fwd;
  }

  // ----- closedness of whatever expandStroke emits -----

  /** Any edges added along a closed path keep every height balanced. */
  lemma TracedKeepsBalance(before: seq<Edge>, after: seq<Edge>, path: seq<Pt>)
    requires Balanced(before) && Closed(path) && Traced(before, after, path)
    ensures Balanced(after)
  {
    ClosedIsBalanced(path);
    BalancedConcat(before, Polyline(path));
    assert multiset(before + Polyline(path)) == multiset(after);
    BalancedPermutation(before + Polyline(path), after);
  }

  /** expandStroke never leaves a net direction at any height, whatever the points, joins and caps. */
  lemma StrokeIsBalanced(trig: Trig, join: LineJoin, cap: LineCap, points: seq<StrokePoint>, closed: bool, width: real,
                         ncap: int, before: seq<Edge>, after: seq<Edge>)
    requires ncap >= 2 && |points| >= (if closed then 1 else 2)
    requires Balanced(before)
    requires !closed ==> Traced(before, after, OpenOutline(trig, join, cap, points, width, ncap))
    requires closed ==>
               var s := ClosedSides(trig, join, points, width, ncap);
               multiset(after) == multiset(before) + Poly(LeftRing(s)) + Poly(RightRing(s))
    ensures Balanced(after)
  {
    if closed {
      var s := ClosedSides(trig, join, points, width, ncap);
      var mid := before + Polyline(LeftRing(s));
      TracedKeepsBalance(before, mid, LeftRing(s));
      TracedKeepsBalance(mid, after, RightRing(s));
    } else {
      TracedKeepsBalance(before, after, OpenOutline(trig, join, cap, points, width, ncap));
    }
  }

  lemma TracedKeepsValid(before: seq<Edge>, after: seq<Edge>, path: seq<Pt>)
    requires ValidEdges(before) && Traced(before, after, path)
    ensures ValidEdges(after)
  {
    PolylineValid(path);
    var all := before + Polyline(path);
    assert multiset(all) == multiset(after);
    SameEdgesValid(all, after);
  }

  lemma SameEdgesValid(a: seq<Edge>, b: seq<Edge>)
    requires ValidEdges(a) && multiset(a) == multiset(b)
    ensures ValidEdges(b)
  {
    hide ValidEdge;
    forall i | 0 <= i < |b| ensures ValidEdge(b[i]) {
      assert b[i] in multiset(a);
      assert b[i] in a;
    }
  }

  lemma StrokeIsValid(trig: Trig, join: LineJoin, cap: LineCap, points: seq<StrokePoint>, closed: bool, width: real,
                      ncap: int, before: seq<Edge>, after: seq<Edge>)
    requires ncap >= 2 && |points| >= (if closed then 1 else 2) && ValidEdges(before)
    requires !closed ==> Traced(before, after, OpenOutline(trig, join, cap, points, width, ncap))
    requires closed ==>
               var s := ClosedSides(trig, join, points, width, ncap);
               multiset(after) == multiset(before) + Poly(LeftRing(s)) + Poly(RightRing(s))
    ensures ValidEdges(after)
  {
    hide ValidEdges;
    if closed {
      var s := ClosedSides(trig, join, points, width, ncap);
      var mid := before + Polyline(LeftRing(s));
      TracedKeepsValid(before, mid, LeftRing(s));
      TracedKeepsValid(mid, after, RightRing(s));
    } else {
      TracedKeepsValid(before, after, OpenOutline(trig, join, cap, points, width, ncap));
    }
  }
}
