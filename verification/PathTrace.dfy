/** What flattening makes of a whole path, told by the path's own points (src/External/nanosvg/nanosvgrast.h).

    Every point of the flattened path is the path's curve at a known parameter, in order; and of all the points handed
    to addPathPoint each one is kept or lies near the one that was kept for it, flags and all. */
module PathTrace {
  import opened Edges
  import opened Flatten

  /** The parameter n/1024 of one cubic of a path. */
  datatype Mark = Mark(cubic: nat, n: nat)

  predicate Before(a: Mark, b: Mark) {
    a.cubic < b.cubic || (a.cubic == b.cubic && a.n < b.n)
  }

  /** The i-th cubic of a path, scaled: its points are four consecutive ones of the path. */
  function ScaledCubic(pts: seq<Pt>, i: nat, scale: real): Cubic
    requires 3 * i + 3 < |pts|
  {
    var j := 3 * i;
    Cubic(Pt(scale * pts[j].x, scale * pts[j].y), Pt(scale * pts[j + 1].x, scale * pts[j + 1].y),
          Pt(scale * pts[j + 2].x, scale * pts[j + 2].y), Pt(scale * pts[j + 3].x, scale * pts[j + 3].y))
  }

  /** p is the path's curve at a mark, in Bernstein form. */
  ghost predicate OnCubic(pts: seq<Pt>, scale: real, m: Mark, p: Pt) {
    3 * m.cubic + 3 < |pts| && p == CurveAt(ScaledCubic(pts, m.cubic, scale), m.n as real / 1024.0)
  }

  /** Points that run along the first k cubics of a path: its start, then points further and further along. */
  ghost predicate Traces(points: seq<PathPoint>, marks: seq<Mark>, pts: seq<Pt>, k: nat, scale: real) {
    pts != [] && |points| == |marks| > 0 &&
    marks[0] == Mark(0, 0) && points[0].p == Pt(scale * pts[0].x, scale * pts[0].y) &&
    (forall i :: 0 < i < |marks| ==>
       marks[i].cubic < k && 0 < marks[i].n <= GRID && OnCubic(pts, scale, marks[i], points[i].p)) &&
    forall i :: 0 < i < |marks| ==> Before(marks[i - 1], marks[i])
  }

  // The last mark is not past m.
  predicate UpTo(marks: seq<Mark>, m: Mark) {
    marks != [] && !Before(m, marks[|marks| - 1])
  }

  lemma AppendedTraces(points: seq<PathPoint>, marks: seq<Mark>, q: PathPoint, m: Mark, pts: seq<Pt>, k: nat,
                       scale: real, distTol: real) returns (after: seq<Mark>)
    requires Traces(points, marks, pts, k, scale) && Before(marks[|marks| - 1], m)
    requires m.cubic < k && 0 < m.n <= GRID && OnCubic(pts, scale, m, q.p)
    ensures Traces(Appended(points, q, distTol), after, pts, k, scale) && UpTo(after, m)
  {
    hide OnCubic, Near;
    after := if Near(points[|points| - 1].p, q.p, distTol) then marks else marks + [m];
  }

  lemma UpToBefore(marks: seq<Mark>, a: Mark, b: Mark)
    requires UpTo(marks, a) && Before(a, b)
    ensures Before(marks[|marks| - 1], b)
  {
  }

  lemma {:induction false} HandedTraces(points: seq<PathPoint>, marks: seq<Mark>, c: Cubic, handed: seq<PathPoint>,
                                        params: seq<nat>, start: nat, pts: seq<Pt>, i: nat, scale: real, distTol: real)
    returns (after: seq<Mark>)
    requires 3 * i + 3 < |pts| && c == ScaledCubic(pts, i, scale)
    requires Traces(points, marks, pts, i + 1, scale) && UpTo(marks, Mark(i, start))
    requires start <= GRID && OnCurve(c, handed, params, start, GRID)
    ensures Traces(AppendedAll(points, handed, distTol), after, pts, i + 1, scale) && UpTo(after, Mark(i, GRID))
    decreases |handed|
  {
    hide Appended, Traces, OnCubic, CurveAt, ScaledCubic, UpTo;
    if handed == [] {
      after := marks;
      UpToLater(marks, i, start);
    } else {
      var m := Mark(i, params[0]);
      assert OnCubic(pts, scale, m, handed[0].p) by { CurveIsOnCubic(pts, scale, m, c); }
      UpToBefore(marks, Mark(i, start), m);
      var next := AppendedTraces(points, marks, handed[0], m, pts, i + 1, scale, distTol);
      assert OnCurve(c, handed[1..], params[1..], params[0], GRID) by { OnCurveTail(c, handed, params, start); }
      after := HandedTraces(Appended(points, handed[0], distTol), next, c, handed[1..], params[1..], params[0], pts, i,
                            scale, distTol);
    }
  }

  lemma UpToLater(marks: seq<Mark>, i: nat, start: nat)
    requires UpTo(marks, Mark(i, start)) && start <= GRID
    ensures UpTo(marks, Mark(i, GRID))
  {
  }

  lemma OnCurveTail(c: Cubic, handed: seq<PathPoint>, params: seq<nat>, start: nat)
    requires handed != [] && OnCurve(c, handed, params, start, GRID)
    ensures OnCurve(c, handed[1..], params[1..], params[0], GRID)
  {
    hide CurveAt;
  }

  lemma CurveIsOnCubic(pts: seq<Pt>, scale: real, m: Mark, c: Cubic)
    requires 3 * m.cubic + 3 < |pts| && c == ScaledCubic(pts, m.cubic, scale)
    ensures OnCubic(pts, scale, m, CurveAt(c, GridTime(m.n)))
  {
    hide CurveAt, ScaledCubic;
  }

  lemma CubicIsScaled(pts: seq<Pt>, i: nat, scale: real)
    requires 3 * i + 3 < |pts|
    ensures CubicAt(pts, 3 * i, scale) == ScaledCubic(pts, i, scale)
  {
  }

  /** Flattening follows the path: its start, and then points of its cubics at increasing parameters, whatever the
      tolerances drop. */
  lemma {:induction false} FlatteningTracesPath(pts: seq<Pt>, k: nat, scale: real, tessTol: real, distTol: real,
                                                corner: bool) returns (marks: seq<Mark>)
    requires 3 * k < |pts|
    ensures Traces(FlattenedTo(pts, k, scale, tessTol, distTol, corner), marks, pts, k, scale)
    ensures UpTo(marks, Mark(k, 0))
  {
    hide OnCubic, Handed, Params, AppendedAll, CubicAt, ScaledCubic, CurveAt, OnCurve;
    if k == 0 {
      marks := [Mark(0, 0)];
    } else {
      var before := FlatteningTracesPath(pts, k - 1, scale, tessTol, distTol, corner);
      var c := CubicAt(pts, 3 * (k - 1), scale);
      CubicIsScaled(pts, k - 1, scale);
      FlatteningFollowsCurve(c, tessTol, corner);
      marks := HandedTraces(FlattenedTo(pts, k - 1, scale, tessTol, distTol, corner), before, c,
                            Handed(c, 0, tessTol, corner), Params(c, 0, tessTol, 0), 0, pts, k - 1, scale, distTol);
    }
  }

  lemma TraceStarts(points: seq<PathPoint>, marks: seq<Mark>, pts: seq<Pt>, k: nat, scale: real)
    requires Traces(points, marks, pts, k, scale)
    ensures points != [] && points[0].p == Pt(scale * pts[0].x, scale * pts[0].y)
  {
  }

  // ----- what merging keeps -----

  /** Everything handed to addPathPoint for the first k cubics of a path. */
  ghost function AllHanded(pts: seq<Pt>, k: nat, scale: real, tessTol: real, corner: bool): (r: seq<PathPoint>)
    requires 3 * k < |pts|
  {
    if k == 0 then [PathPoint(Pt(scale * pts[0].x, scale * pts[0].y), corner)]
    else AllHanded(pts, k - 1, scale, tessTol, corner) + Handed(ScaledCubic(pts, k - 1, scale), 0, tessTol, corner)
  }

  ghost function Joined(runs: seq<seq<PathPoint>>): seq<PathPoint> {
    if runs == [] then [] else Joined(runs[..|runs| - 1]) + runs[|runs| - 1]
  }

  predicate AnyCorner(run: seq<PathPoint>) {
    exists i :: 0 <= i < |run| && run[i].corner
  }

  /** q is kept for a run: it is the run's first point, the others lie near it, and it has the corner of any of them. */
  ghost predicate KeptFor(q: PathPoint, run: seq<PathPoint>, distTol: real) {
    run != [] && q.p == run[0].p && (q.corner <==> AnyCorner(run)) &&
    forall i :: 0 < i < |run| ==> Near(q.p, run[i].p, distTol)
  }

  ghost predicate KeptForAll(points: seq<PathPoint>, runs: seq<seq<PathPoint>>, distTol: real) {
    |points| == |runs| && Spread(points, distTol) &&
    forall j :: 0 <= j < |points| ==> KeptFor(points[j], runs[j], distTol)
  }

  lemma KeptIsSpread(points: seq<PathPoint>, runs: seq<seq<PathPoint>>, distTol: real)
    requires KeptForAll(points, runs, distTol)
    ensures Spread(points, distTol)
  {
  }

  lemma KeptLonger(p: Pt, corner: bool, run: seq<PathPoint>, q: PathPoint, distTol: real)
    requires KeptFor(PathPoint(p, corner), run, distTol) && Near(p, q.p, distTol)
    ensures KeptFor(PathPoint(p, corner || q.corner), run + [q], distTol)
  {
    hide Near;
    var longer := run + [q];
    assert longer[|run|] == q;
    if AnyCorner(run) {
      var i :| 0 <= i < |run| && run[i].corner;
      assert longer[i].corner;
    }
  }

  lemma KeptAlone(q: PathPoint, distTol: real)
    ensures KeptFor(q, [q], distTol)
  {
    assert [q][0] == q;
  }

  lemma AppendedKeeps(points: seq<PathPoint>, runs: seq<seq<PathPoint>>, q: PathPoint, distTol: real)
    returns (after: seq<seq<PathPoint>>)
    requires KeptForAll(points, runs, distTol)
    ensures KeptForAll(Appended(points, q, distTol), after, distTol) && Joined(after) == Joined(runs) + [q]
  {
    hide Near, KeptFor;
    var n := |points|;
    if n > 0 && Near(points[n - 1].p, q.p, distTol) {
      var longer := runs[n - 1] + [q];
      KeptLonger(points[n - 1].p, points[n - 1].corner, runs[n - 1], q, distTol);
      after := runs[..n - 1] + [longer];
      assert after[..n - 1] == runs[..n - 1];
    } else {
      KeptAlone(q, distTol);
      after := runs + [[q]];
      assert after[..n] == runs;
    }
  }

  lemma {:induction false} AppendedAllKeeps(points: seq<PathPoint>, runs: seq<seq<PathPoint>>, qs: seq<PathPoint>,
                                            distTol: real) returns (after: seq<seq<PathPoint>>)
    requires KeptForAll(points, runs, distTol)
    ensures KeptForAll(AppendedAll(points, qs, distTol), after, distTol) && Joined(after) == Joined(runs) + qs
    decreases |qs|
  {
    hide KeptForAll, Appended, Joined;
    if qs == [] {
      after := runs;
    } else {
      var next := AppendedKeeps(points, runs, qs[0], distTol);
      after := AppendedAllKeeps(Appended(points, qs[0], distTol), next, qs[1..], distTol);
      assert qs == [qs[0]] + qs[1..];
    }
  }

  /** Nothing handed on is lost: cut into runs, all the points of the path's cubics are there, in order, and each run is
      kept as its first point. */
  lemma {:induction false} FlatteningKeepsAll(pts: seq<Pt>, k: nat, scale: real, tessTol: real, distTol: real,
                                              corner: bool) returns (runs: seq<seq<PathPoint>>)
    requires 3 * k < |pts|
    ensures KeptForAll(FlattenedTo(pts, k, scale, tessTol, distTol, corner), runs, distTol)
    ensures Joined(runs) == AllHanded(pts, k, scale, tessTol, corner)
  {
    hide KeptForAll, Appended, AppendedAll, Joined, Handed, CubicAt, ScaledCubic;
    if k == 0 {
      NothingKept(distTol);
      runs := AppendedKeeps([], [], PathPoint(Scaled(pts[0], scale), corner), distTol);
    } else {
      var before := FlatteningKeepsAll(pts, k - 1, scale, tessTol, distTol, corner);
      CubicIsScaled(pts, k - 1, scale);
      runs := AppendedAllKeeps(FlattenedTo(pts, k - 1, scale, tessTol, distTol, corner), before,
                               Handed(ScaledCubic(pts, k - 1, scale), 0, tessTol, corner), distTol);
    }
  }

  lemma NothingKept(distTol: real)
    ensures KeptForAll([], [], distTol) && Joined([]) == []
  {
  }

  ghost predicate CornerAtEnd(h: seq<PathPoint>, corner: bool) {
    forall i :: 0 <= i < |h| && h[i].corner ==> corner && i == |h| - 1
  }

  lemma CornerAtEndConcat(h0: seq<PathPoint>, h1: seq<PathPoint>, corner: bool)
    requires CornerAtEnd(h0, false) && CornerAtEnd(h1, corner)
    ensures CornerAtEnd(h0 + h1, corner)
  {
  }

  /** Only the last point handed on for a cubic carries its corner flag. */
  lemma {:induction false} CornersAtEnds(c: Cubic, level: nat, tessTol: real, corner: bool)
    ensures CornerAtEnd(Handed(c, level, tessTol, corner), corner)
    decreases 11 - level
  {
    hide Flat, LeftHalf, RightHalf;
    if level <= 10 && !Flat(c, tessTol) {
      CornersAtEnds(LeftHalf(c), level + 1, tessTol, false);
      CornersAtEnds(RightHalf(c), level + 1, tessTol, corner);
      CornerAtEndConcat(Handed(LeftHalf(c), level + 1, tessTol, false),
                        Handed(RightHalf(c), level + 1, tessTol, corner), corner);
    }
  }
}
