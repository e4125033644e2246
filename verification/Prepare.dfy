/** prepareStroke: the directions, extrusions and flags of a centre line (src/External/nanosvg/nanosvgrast.h). */
module Prepare {
  import opened Flatten
  import opened Stroke

  // ----- what a point is given -----

  /** A point as flattening leaves it; all the rest is still to be set. */
  function Raw(q: PathPoint): StrokePoint {
    StrokePoint(q.p.x, q.p.y, 0.0, 0.0, 0.0, 0.0, q.corner, false, false)
  }

  function Following(points: seq<StrokePoint>, i: nat): StrokePoint
    requires i < |points|
  {
    if i + 1 < |points| then points[i + 1] else points[0]
  }

  /** The direction of the segment that leaves a point. */
  function Directed(trig: Trig, p: StrokePoint, next: StrokePoint): StrokePoint {
    var d := Direction(trig, p, next);
    p.(dx := d.0, dy := d.1)
  }

  /** How far the extrusion is stretched: to the meeting point of the offset lines, but not beyond 600 times. */
  function Stretch(r2: real): (s: real) {
    if r2 <= 0.000001 then 1.0 else if 1.0 / r2 > 600.0 then 600.0 else 1.0 / r2
  }

  /** The extrusion, half the sum of the normals stretched, and the flags of p1, with p0 before it. */
  function Extruded(join: LineJoin, miterLimit: real, p0: StrokePoint, p1: StrokePoint): StrokePoint {
    Stretched(join, miterLimit, p0, p1, (p0.dy + p1.dy) * 0.5, (-p0.dx - p1.dx) * 0.5)
  }

  function Stretched(join: LineJoin, miterLimit: real, p0: StrokePoint, p1: StrokePoint, mx: real, my: real)
    : StrokePoint
  {
    var r2 := SquaredNorm(mx, my);
    p1.(dmx := mx * Stretch(r2), dmy := my * Stretch(r2),
        left := TurnsLeft(p0, p1), bevel := p1.corner && CutsCorner(join, miterLimit, r2))
  }

  predicate TurnsLeft(p0: StrokePoint, p1: StrokePoint) {
    p1.dx * p0.dy - p0.dx * p1.dy > 0.0
  }

  predicate CutsCorner(join: LineJoin, miterLimit: real, r2: real) {
    r2 * miterLimit * miterLimit < 1.0 || join == Bevel || join == RoundJoin
  }

  function AllDirected(trig: Trig, points: seq<StrokePoint>): (r: seq<StrokePoint>)
    ensures |r| == |points|
    ensures forall i :: 0 <= i < |points| ==> r[i] == Directed(trig, points[i], Following(points, i))
  {
    seq(|points|, i requires 0 <= i < |points| => Directed(trig, points[i], Following(points, i)))
  }

  function AllExtruded(join: LineJoin, miterLimit: real, points: seq<StrokePoint>): (r: seq<StrokePoint>)
    ensures |r| == |points|
    ensures forall i :: 0 <= i < |points| ==> r[i] == Extruded(join, miterLimit, Prev(points, i), points[i])
  {
    seq(|points|, i requires 0 <= i < |points| => Extruded(join, miterLimit, Prev(points, i), points[i]))
  }

  function PreparedLine(trig: Trig, join: LineJoin, miterLimit: real, points: seq<StrokePoint>): (r: seq<StrokePoint>)
    ensures |r| == |points|
  {
    AllExtruded(join, miterLimit, AllDirected(trig, points))
  }

  // ----- in place -----

  method SetDirections(trig: Trig, points: array<StrokePoint>)
    requires points.Length > 0
    modifies points
    ensures points[..] == AllDirected(trig, old(points[..]))
  {
    hide Direction;
    ghost var was := points[..];
    var n := points.Length;
    var i, j := 0, n - 1;
    while i < n
      invariant 0 <= i <= n && j == (if i == 0 then n - 1 else i - 1)
      invariant forall k :: 0 <= k < n ==> points[k].x == was[k].x && points[k].y == was[k].y
      invariant forall k :: 0 <= k < n ==>
                  points[k] == if k < i - 1 || (k == n - 1 && i > 0) then Directed(trig, was[k], Following(was, k))
                               else was[k]
    {
      var d := Direction(trig, points[j], points[i]);
      SamePlaces(trig, points[j], points[i], was[j], was[i]);
      points[j] := points[j].(dx := d.0, dy := d.1);
      j, i := i, i + 1;
    }
  }

  lemma SamePlaces(trig: Trig, p: StrokePoint, q: StrokePoint, p': StrokePoint, q': StrokePoint)
    requires p.x == p'.x && p.y == p'.y && q.x == q'.x && q.y == q'.y
    ensures Direction(trig, p, q) == Direction(trig, p', q')
  {
  }

  method SetExtrusions(join: LineJoin, miterLimit: real, points: array<StrokePoint>)
    requires points.Length > 0
    modifies points
    ensures points[..] == AllExtruded(join, miterLimit, old(points[..]))
  {
    ghost var was := points[..];
    var n := points.Length;
    var i, j := 0, n - 1;
    while i < n
      invariant 0 <= i <= n && j == (if i == 0 then n - 1 else i - 1)
      invariant forall k :: 0 <= k < n ==> points[k].dx == was[k].dx && points[k].dy == was[k].dy
      invariant forall k :: 0 <= k < n ==>
                  points[k] == if k < i then Extruded(join, miterLimit, Prev(was, k), was[k]) else was[k]
    {
      points[i] := ExtrudedPoint(join, miterLimit, points[j], points[i]);
      SameDirection(join, miterLimit, points[j], was[j], was[i]);
      j, i := i, i + 1;
    }
  }

  lemma SameDirection(join: LineJoin, miterLimit: real, p: StrokePoint, p': StrokePoint, q: StrokePoint)
    requires p.dx == p'.dx && p.dy == p'.dy
    ensures Extruded(join, miterLimit, p, q) == Extruded(join, miterLimit, p', q)
  {
  }

  // The body of the join loop.
  method ExtrudedPoint(join: LineJoin, miterLimit: real, p0: StrokePoint, p1: StrokePoint) returns (q: StrokePoint)
    ensures q == Extruded(join, miterLimit, p0, p1)
  {
    var mx, my := (p0.dy + p1.dy) * 0.5, (-p0.dx - p1.dx) * 0.5;
    q := p1.(dmx := mx, dmy := my);
    var dmr2 := SquaredNorm(mx, my);
    hide TurnsLeft, CutsCorner, SquaredNorm;
    if dmr2 > 0.000001 {
      var s2 := 1.0 / dmr2;
      if s2 > 600.0 {
        s2 := 600.0;
      }
      q := q.(dmx := mx * s2, dmy := my * s2);
      assert s2 == Stretch(dmr2);
    } else {
      Unstretched(mx, my, dmr2);
    }
    hide Stretch;
    q := q.(bevel := false, left := false);
    if TurnsLeft(p0, p1) {
      q := q.(left := true);
    }
    if q.corner {
      if CutsCorner(join, miterLimit, dmr2) {
        q := q.(bevel := true);
      }
    }
  }

  lemma Unstretched(mx: real, my: real, r2: real)
    requires r2 <= 0.000001
    ensures mx * Stretch(r2) == mx && my * Stretch(r2) == my
  {
  }

  /** nsvg__prepareStroke. */
  method PrepareStroke(trig: Trig, join: LineJoin, miterLimit: real, points: array<StrokePoint>)
    requires points.Length > 0
    modifies points
    ensures points[..] == PreparedLine(trig, join, miterLimit, old(points[..]))
  {
    hide AllDirected, AllExtruded;
    SetDirections(trig, points);
    SetExtrusions(join, miterLimit, points);
  }
}
