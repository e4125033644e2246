/** From the paths of a shape to the edges the rasterizer sweeps: flattenShape and flattenShapeStroke
    (src/External/nanosvg/nanosvgrast.h). */
module Shape {
  import opened Edges
  import opened Sweep
  import opened Coverage
  import opened Flatten
  import opened Interior
  import opened PathBuilder
  import Blend
  import Dash
  import PathTrace
  import Prepare
  import Render
  import Stroke
  import StrokeWidth
  import Transform

  datatype Tolerances = Tolerances(tess: real, dist: real)

  // ----- fill -----

  function FilledPath(path: SvgPath, scale: real, tol: Tolerances): seq<Edge>
    requires |path.pts| % 3 == 1
  {
    Polyline(ClosedPolygon(FlattenedPath(path.pts, scale, tol.tess, tol.dist)))
  }

  /** The edges of a fill: the closed polygons of its flattened paths. */
  function FilledEdges(paths: seq<SvgPath>, scale: real, tol: Tolerances): seq<Edge>
    requires GoodPaths(paths)
  {
    if paths == [] then []
    else FilledEdges(paths[..|paths| - 1], scale, tol) + FilledPath(paths[|paths| - 1], scale, tol)
  }

  ghost predicate ClosedOutline(edges: seq<Edge>) {
    ValidEdges(edges) && Balanced(edges)
  }

  lemma NothingIsClosed()
    ensures ClosedOutline([])
  {
  }

  lemma ClosedJoins(a: seq<Edge>, b: seq<Edge>)
    requires ClosedOutline(a) && ClosedOutline(b)
    ensures ClosedOutline(a + b)
  {
    hide Balanced, ValidEdge;
    BalancedConcat(a, b);
  }

  lemma PathIsClosed(path: SvgPath, scale: real, tol: Tolerances)
    requires |path.pts| % 3 == 1
    ensures ClosedOutline(FilledPath(path, scale, tol))
  {
    hide FlattenedPath, Balanced, ValidEdges, Polyline;
    var ring := ClosedPolygon(FlattenedPath(path.pts, scale, tol.tess, tol.dist));
    hide ClosedPolygon;
    PolylineValid(ring);
    ClosedIsBalanced(ring);
  }

  lemma {:induction false} FillIsClosed(paths: seq<SvgPath>, scale: real, tol: Tolerances)
    requires GoodPaths(paths)
    ensures ClosedOutline(FilledEdges(paths, scale, tol))
  {
    hide ClosedOutline, FilledPath;
    if paths == [] {
      NothingIsClosed();
    } else {
      FillIsClosed(paths[..|paths| - 1], scale, tol);
      PathIsClosed(paths[|paths| - 1], scale, tol);
      ClosedJoins(FilledEdges(paths[..|paths| - 1], scale, tol), FilledPath(paths[|paths| - 1], scale, tol));
    }
  }

  /** The outline a path is filled by: the polygon through points that run along its cubics, back to its start, and
      closed. The start is dropped where the last point lies near it. */
  lemma FillTracesPath(path: SvgPath, scale: real, tol: Tolerances)
    returns (points: seq<PathPoint>, marks: seq<PathTrace.Mark>, ring: seq<Pt>)
    requires |path.pts| % 3 == 1
    ensures PathTrace.Traces(points, marks, path.pts, |path.pts| / 3, scale)
    ensures var start := Pt(scale * path.pts[0].x, scale * path.pts[0].y);
            ring == Positions(points) + (if Near(points[|points| - 1].p, start, tol.dist) then [] else [start])
    ensures FilledPath(path, scale, tol) == Polyline([ring[|ring| - 1]] + ring)
  {
    hide PathTrace.Traces, FlattenedTo, Near, Polyline;
    var k := |path.pts| / 3;
    points := FlattenedTo(path.pts, k, scale, tol.tess, tol.dist, false);
    marks := PathTrace.FlatteningTracesPath(path.pts, k, scale, tol.tess, tol.dist, false);
    PathTrace.TraceStarts(points, marks, path.pts, k, scale);
    var start := Pt(scale * path.pts[0].x, scale * path.pts[0].y);
    var all := FlattenedPath(path.pts, scale, tol.tess, tol.dist);
    ring := Positions(points) + (if Near(points[|points| - 1].p, start, tol.dist) then [] else [start]);
    assert Scaled(path.pts[0], scale) == start;
    assert Positions(all) == ring;
  }

  /** The fill of several shapes' paths is the fill of each. */
  lemma {:induction false} FillsJoin(a: seq<SvgPath>, b: seq<SvgPath>, scale: real, tol: Tolerances)
    requires GoodPaths(a) && GoodPaths(b)
    ensures GoodPaths(a + b)
    ensures FilledEdges(a + b, scale, tol) == FilledEdges(a, scale, tol) + FilledEdges(b, scale, tol)
    ensures |a| == 1 ==> FilledEdges(a, scale, tol) == FilledPath(a[0], scale, tol)
    decreases |b|
  {
    hide FilledPath;
    if b == [] {
      assert a + b == a;
    } else {
      var n := |b| - 1;
      assert (a + b)[..|a| + n] == a + b[..n];
      FillsJoin(a, b[..n], scale, tol);
    }
  }

  /** nsvg__flattenShape. */
  method FlattenShape(paths: seq<SvgPath>, scale: real, tol: Tolerances) returns (edges: seq<Edge>)
    requires GoodPaths(paths)
    ensures edges == FilledEdges(paths, scale, tol) && ClosedOutline(edges)
  {
    hide FlattenedPath, Polyline, Balanced, ValidEdges, ClosedOutline;
    var buffer := new Stroke.EdgeBuffer();
    var flattener := new PathFlattener(tol.tess, tol.dist);
    var n := 0;
    while n < |paths|
      invariant 0 <= n <= |paths| && buffer.edges == FilledEdges(paths[..n], scale, tol)
      invariant fresh(buffer) && fresh(flattener)
    {
      assert GoodPath(paths[n]) && paths[..n + 1][..n] == paths[..n];
      flattener.FlattenPath(paths[n].pts, scale, buffer);
      n := n + 1;
    }
    assert paths[..|paths|] == paths;
    FillIsClosed(paths, scale, tol);
    return buffer.edges;
  }

  /** What a pass paints, by geometry: with closed edges, in whatever order, a sample that keeps clear of them is inside
      a span exactly when its point is inside by the fill rule. */
  lemma PassFollows(edges: seq<Edge>, pass: Render.Pass, at: Blend.Placement, k: nat, x: int)
    requires ClosedOutline(edges) && multiset(pass.outline) == multiset(edges) && Render.ValidPass(pass, at)
    ensures ValidEdges(pass.edges)
    ensures SampleAway(pass.edges, k, x) ==>
              (InSpans(SpansOf(pass.rule, ActiveOn(pass.edges, k)), x)
               <==> Inside(pass.rule, edges, SamplePoint(at.tx, at.ty, k, x)))
  {
    hide ValidEdges, Balanced, ActiveOn, SpansOf, InSpans, WindingLeft, CountLeft, SampleAway, SamplePoint, SortedByTop;
    Render.ValidPassOutline(pass, at);
    BalancedPermutation(edges, pass.outline);
    Render.ClosedPassFollowsFillRule(pass, at, k, x);
    LeftPermutation(pass.outline, edges, SamplePoint(at.tx, at.ty, k, x));
  }

  /** A fill of the paths of any path data paints what the fill rule says about its flattened outline, at any scale and
      tolerance. */
  lemma PathDataFollowsFillRule(w: World, m: Transform.Affine, d: string, scale: real, tol: Tolerances,
                                pass: Render.Pass, at: Blend.Placement, k: nat, x: int)
    requires Render.ValidPass(pass, at)
    ensures GoodPaths(PathsOf(w, m, [], d))
    ensures ValidEdges(pass.edges) && ValidEdges(FilledEdges(PathsOf(w, m, [], d), scale, tol))
    ensures multiset(pass.outline) == multiset(FilledEdges(PathsOf(w, m, [], d), scale, tol)) &&
            SampleAway(pass.edges, k, x) ==>
              (InSpans(SpansOf(pass.rule, ActiveOn(pass.edges, k)), x)
               <==> Inside(pass.rule, FilledEdges(PathsOf(w, m, [], d), scale, tol), SamplePoint(at.tx, at.ty, k, x)))
  {
    hide GoodPaths, PathsOf, FilledEdges, Render.ValidPass, ValidEdges, Balanced, ActiveOn, SpansOf, InSpans, Inside,
         SampleAway, SamplePoint;
    NoPathsAreGood();
    PathsAreGood(w, m, [], d);
    FillIsClosed(PathsOf(w, m, [], d), scale, tol);
    Render.PassEdgesValid(pass, at);
    if multiset(pass.outline) == multiset(FilledEdges(PathsOf(w, m, [], d), scale, tol)) {
      PassFollows(FilledEdges(PathsOf(w, m, [], d), scale, tol), pass, at, k, x);
    }
  }

  lemma NoPathsAreGood()
    ensures GoodPaths([])
  {
  }

  // ----- stroke -----

  /** How a shape is stroked. */
  datatype Style = Style(trig: Stroke.Trig, join: Stroke.LineJoin, cap: Stroke.LineCap, miterLimit: real, ncap: int,
                         width: real, dashes: seq<real>, dashOffset: real, dist: Dash.Metric)

  ghost predicate ValidStyle(s: Style) {
    s.ncap >= 2 && Dash.LinearMetric(s.dist) && (s.dashes != [] ==> Dash.ValidDashes(s.dashes))
  }

  function RawLine(points: seq<PathPoint>): (r: seq<Stroke.StrokePoint>)
    ensures |r| == |points| && forall i :: 0 <= i < |points| ==> r[i] == Prepare.Raw(points[i])
  {
    seq(|points|, i requires 0 <= i < |points| => Prepare.Raw(points[i]))
  }

  /** The points of a line with their directions, extrusions and flags. */
  function Prepared(s: Style, points: seq<PathPoint>): (r: seq<Stroke.StrokePoint>)
    ensures |r| == |points|
  {
    Prepare.PreparedLine(s.trig, s.join, s.miterLimit, RawLine(points))
  }

  lemma NearSymmetric(a: Pt, b: Pt, tol: real)
    ensures Near(a, b, tol) <==> Near(b, a, tol)
  {
    Squared(a.x, b.x);
    Squared(a.y, b.y);
  }

  lemma Squared(u: real, v: real)
    ensures (v - u) * (v - u) == (u - v) * (u - v)
  {
  }

  lemma TwoAreApart(points: seq<PathPoint>, tol: real)
    requires Spread(points, tol) && |points| == 2
    ensures !Near(points[1].p, points[0].p, tol)
  {
    NearSymmetric(points[0].p, points[1].p, tol);
    hide Near;
    assert !Near(points[1 - 1].p, points[1].p, tol);
  }

  /** The points of a path as they are stroked: without the last one if that is back at the start. */
  function CentreLine(points: seq<PathPoint>, closed: bool, distTol: real): (r: (seq<PathPoint>, bool))
    requires |points| >= 2
  {
    if Near(points[|points| - 1].p, points[0].p, distTol) then (points[..|points| - 1], true) else (points, closed)
  }

  /** Taking the last point off never leaves too few to stroke. */
  lemma CentreLineHasPoints(points: seq<PathPoint>, closed: bool, distTol: real)
    requires |points| >= 2 && Spread(points, distTol)
    ensures |CentreLine(points, closed, distTol).0| >= 2
  {
    hide Near;
    if |points| == 2 {
      TwoAreApart(points, distTol);
    }
  }

  /** The outline of one line: a closed polyline round an open line, one on either side of a closed one. */
  function LineOutline(s: Style, points: seq<PathPoint>, closed: bool): seq<Edge>
    requires s.ncap >= 2 && |points| >= (if closed then 1 else 2)
  {
    if closed then
      var sides := Stroke.ClosedSides(s.trig, s.join, Prepared(s, points), s.width, s.ncap);
      Polyline(Stroke.LeftRing(sides)) + Polyline(Stroke.RightRing(sides))
    else
      Polyline(Stroke.OpenOutline(s.trig, s.join, s.cap, Prepared(s, points), s.width, s.ncap))
  }

  lemma FarIsApart(a: PathPoint, b: PathPoint, tol: real)
    requires !Near(a.p, b.p, tol) && tol * tol > 0.000000000001
    ensures StrokeWidth.Apart(Prepare.Raw(a), Prepare.Raw(b))
  {
    NearIsNorm(a.p, b.p, tol);
    hide Near, Stroke.SquaredNorm;
  }

  lemma NearIsNorm(a: Pt, b: Pt, tol: real)
    ensures Near(a, b, tol) <==> Stroke.SquaredNorm(b.x - a.x, b.y - a.y) < tol * tol
  {
  }

  lemma RingIsApart(points: seq<PathPoint>, tol: real, j: nat)
    requires Spread(points, tol) && tol * tol > 0.000000000001 && j < |points|
    requires !Near(points[|points| - 1].p, points[0].p, tol)
    ensures var raw := RawLine(points); StrokeWidth.Apart(raw[j], Prepare.Following(raw, j))
  {
    hide Near, StrokeWidth.Apart, Prepare.Raw;
    var next := if j + 1 < |points| then j + 1 else 0;
    if next > 0 {
      assert !Near(points[next - 1].p, points[next].p, tol);
    }
    FarIsApart(points[j], points[next], tol);
  }

  /** No turn of a line is as sharp as a hairpin: half of one and the cosine of the turn is at least a six-hundredth. */
  ghost predicate NoHairpins(s: Style, points: seq<PathPoint>, closed: bool)
    requires points != []
  {
    var line := Prepared(s, points);
    forall i :: (if closed then 0 else 1) <= i < |line| - (if closed then 0 else 1) ==>
      StrokeWidth.Openness(Stroke.Prev(line, i), line[i]) >= 1.0 / 600.0
  }

  /** The points of a line as they are stroked, and what they keep: place i is where the line has it, and its direction
      leads to the next place. */
  ghost predicate OnLine(s: Style, points: seq<PathPoint>, i: nat)
    requires i < |points|
  {
    var p, q := Prepared(s, points)[i], points[if i + 1 < |points| then i + 1 else 0].p;
    p.x == points[i].p.x && p.y == points[i].p.y &&
    exists next: Stroke.StrokePoint :: next.x == q.x && next.y == q.y && StrokeWidth.Leads(p, next)
  }

  lemma PlaceOnLine(s: Style, points: seq<PathPoint>, i: nat)
    requires i < |points| && StrokeWidth.Leads(Prepared(s, points)[i], Prepare.Following(Prepared(s, points), i))
    ensures OnLine(s, points, i)
  {
    hide StrokeWidth.Leads, Stroke.Direction, Prepare.PreparedLine;
    var raw, j := RawLine(points), if i + 1 < |points| then i + 1 else 0;
    StrokeWidth.PreparedKeeps(s.trig, s.join, s.miterLimit, raw, i);
    StrokeWidth.PreparedKeeps(s.trig, s.join, s.miterLimit, raw, j);
    assert Prepare.Following(Prepared(s, points), i) == Prepared(s, points)[j];
  }

  /** An open line is stroked as wide as the style says: its outline runs half the width beside every segment, once on
      either side. The points of flattening keep far enough apart for that. */
  lemma OpenLineWidth(s: Style, points: seq<PathPoint>, tol: real, i: nat) returns (outline: seq<Pt>, k: nat, l: nat)
    requires StrokeWidth.GoodTrig(s.trig) && s.ncap >= 2 && i + 1 < |points|
    requires Spread(points, tol) && tol * tol > 0.000000000001 && NoHairpins(s, points, false)
    ensures LineOutline(s, points, false) == Polyline(outline) && OnLine(s, points, i)
    ensures var p, w := Prepared(s, points)[i], s.width * 0.5;
            StrokeWidth.RunsBeside(outline, k, p, w) && StrokeWidth.RunsBeside(outline, l, p, -w)
  {
    hide StrokeWidth.GoodTrig, StrokeWidth.GoodLine, StrokeWidth.RunsBeside, Stroke.OpenOutline, Near, Polyline, OnLine,
         NoHairpins, Spread, Prepared;
    OpenLineIsGood(s, points, tol);
    LineLeads(s, points, i);
    var line := Prepared(s, points);
    outline := Stroke.OpenOutline(s.trig, s.join, s.cap, line, s.width, s.ncap);
    k, l := StrokeWidth.OpenStrokeWidth(s.trig, s.join, s.cap, line, s.width, s.ncap, i);
  }

  lemma OpenLineIsGood(s: Style, points: seq<PathPoint>, tol: real)
    requires StrokeWidth.GoodTrig(s.trig) && |points| >= 2
    requires Spread(points, tol) && tol * tol > 0.000000000001 && NoHairpins(s, points, false)
    ensures StrokeWidth.GoodLine(s.trig, Prepared(s, points))
  {
    hide StrokeWidth.GoodTrig, StrokeWidth.GoodLine, StrokeWidth.Apart, StrokeWidth.Openness, Prepare.PreparedLine,
         Near, Prepare.Raw;
    var raw := RawLine(points);
    forall j | 0 <= j < |raw| - 1 ensures StrokeWidth.Apart(raw[j], raw[j + 1]) {
      assert !Near(points[j + 1 - 1].p, points[j + 1].p, tol);
      FarIsApart(points[j], points[j + 1], tol);
    }
    var line := Prepared(s, points);
    assert forall j :: 0 < j < |line| - 1 ==> Stroke.Prev(line, j) == line[j - 1];
    StrokeWidth.PreparedIsGoodLine(s.trig, s.join, s.miterLimit, raw);
  }

  lemma ClosedLineIsGood(s: Style, points: seq<PathPoint>, tol: real)
    requires StrokeWidth.GoodTrig(s.trig) && points != []
    requires Spread(points, tol) && tol * tol > 0.000000000001 && NoHairpins(s, points, true)
    requires !Near(points[|points| - 1].p, points[0].p, tol)
    ensures StrokeWidth.GoodRing(s.trig, Prepared(s, points))
  {
    hide StrokeWidth.GoodTrig, StrokeWidth.GoodRing, StrokeWidth.Apart, StrokeWidth.Openness, Prepare.PreparedLine,
         Prepare.Following, Spread, Near, Prepare.Raw;
    var raw := RawLine(points);
    forall j | 0 <= j < |raw| ensures StrokeWidth.Apart(raw[j], Prepare.Following(raw, j)) {
      RingIsApart(points, tol, j);
    }
    var line := Prepared(s, points);
    forall j | 0 <= j < |line| ensures StrokeWidth.Openness(Stroke.Prev(line, j), line[j]) >= 1.0 / 600.0 {
    }
    StrokeWidth.PreparedIsGoodRing(s.trig, s.join, s.miterLimit, raw);
  }

  lemma LineLeads(s: Style, points: seq<PathPoint>, i: nat)
    requires i + 1 < |points| && StrokeWidth.GoodLine(s.trig, Prepared(s, points))
    ensures OnLine(s, points, i)
  {
    hide Prepare.PreparedLine, StrokeWidth.Leads, StrokeWidth.Meets, Stroke.Direction, OnLine;
    var line := Prepared(s, points);
    assert StrokeWidth.Leads(line[i], line[i + 1]);
    PlaceOnLine(s, points, i);
  }

  lemma RingLeads(s: Style, points: seq<PathPoint>, i: nat)
    requires StrokeWidth.GoodRing(s.trig, Prepared(s, points)) && i < |points|
    ensures OnLine(s, points, i)
  {
    hide Prepare.PreparedLine, StrokeWidth.Leads, StrokeWidth.Meets, Stroke.Direction, OnLine;
    var line := Prepared(s, points);
    assert StrokeWidth.Leads(line[i], Prepare.Following(line, i));
    PlaceOnLine(s, points, i);
  }

  /** A closed line too: one outline runs half the width beside every segment, the other as far on the other side. */
  lemma ClosedLineWidth(s: Style, points: seq<PathPoint>, tol: real, i: nat)
    returns (left: seq<Pt>, right: seq<Pt>, k: nat, l: nat)
    requires StrokeWidth.GoodTrig(s.trig) && s.ncap >= 2 && i < |points|
    requires Spread(points, tol) && tol * tol > 0.000000000001 && NoHairpins(s, points, true)
    requires !Near(points[|points| - 1].p, points[0].p, tol)
    ensures LineOutline(s, points, true) == Polyline(left) + Polyline(right) && OnLine(s, points, i)
    ensures var p, w := Prepared(s, points)[i], s.width * 0.5;
            StrokeWidth.RunsBeside(right, k, p, w) && StrokeWidth.RunsBeside(left, l, p, -w)
  {
    hide StrokeWidth.GoodTrig, StrokeWidth.GoodRing, StrokeWidth.RunsBeside, Stroke.ClosedSides, Stroke.LeftRing,
         Stroke.RightRing, Near, Polyline, OnLine, NoHairpins, Spread, Prepared;
    ClosedLineIsGood(s, points, tol);
    RingLeads(s, points, i);
    var line := Prepared(s, points);
    var sides := Stroke.ClosedSides(s.trig, s.join, line, s.width, s.ncap);
    left, right := Stroke.LeftRing(sides), Stroke.RightRing(sides);
    k, l := StrokeWidth.ClosedStrokeWidth(s.trig, s.join, line, s.width, s.ncap, i);
  }

  predicate AllLines(strokes: seq<seq<PathPoint>>) {
    forall i :: 0 <= i < |strokes| ==> |strokes[i]| >= 2
  }

  function DashOutlines(s: Style, strokes: seq<seq<PathPoint>>): seq<Edge>
    requires s.ncap >= 2 && AllLines(strokes)
  {
    if strokes == [] then []
    else DashOutlines(s, strokes[..|strokes| - 1]) + LineOutline(s, strokes[|strokes| - 1], false)
  }

  /** The dashes of a line. */
  ghost function DashLines(s: Style, pts: seq<PathPoint>, scale: real, tol: Tolerances): (r: seq<seq<PathPoint>>)
    requires ValidStyle(s) && s.dashes != [] && scale > 0.0 && pts != []
    ensures AllLines(r)
  {
    hide Dash.LinearMetric, Dash.ValidDashes, Dash.Partition;
    var pieces := Dash.DashPieces(Dash.DashSetting(s.dist, s.dashes, s.dashOffset, scale, pts));
    Dash.StrokesHavePoints(pieces, tol.dist);
    Dash.Strokes(pieces, tol.dist)
  }

  /** One flattened path: solid, or dash by dash, a closed one being dashed back to its start. */
  ghost function StrokedPoints(s: Style, points: seq<PathPoint>, pathClosed: bool, scale: real, tol: Tolerances)
    : seq<Edge>
    requires ValidStyle(s) && scale > 0.0
  {
    if |points| < 2 then []
    else
      var (line, closed) := CentreLine(points, pathClosed, tol.dist);
      if s.dashes == [] then LineOutline(s, line, closed)
      else DashOutlines(s, DashLines(s, if closed then line + [line[0]] else line, scale, tol))
  }

  ghost function StrokedPath(s: Style, path: SvgPath, scale: real, tol: Tolerances): seq<Edge>
    requires ValidStyle(s) && scale > 0.0 && |path.pts| % 3 == 1
  {
    StrokedPoints(s, FlattenedTo(path.pts, |path.pts| / 3, scale, tol.tess, tol.dist, true), path.closed, scale, tol)
  }

  /** The edges of a stroke: the outlines of all lines and dashes of its flattened paths. */
  ghost function StrokedEdges(s: Style, paths: seq<SvgPath>, scale: real, tol: Tolerances): seq<Edge>
    requires ValidStyle(s) && GoodPaths(paths) && scale > 0.0
  {
    if paths == [] then []
    else StrokedEdges(s, paths[..|paths| - 1], scale, tol) + StrokedPath(s, paths[|paths| - 1], scale, tol)
  }

  /** The line a path is stroked along: points that run along its cubics, without the last one if that is back near the
      start. It is closed if the path is or the last point was dropped, and dashed back to its start then. */
  lemma StrokeTracesPath(s: Style, path: SvgPath, scale: real, tol: Tolerances)
    returns (points: seq<PathPoint>, marks: seq<PathTrace.Mark>, line: seq<PathPoint>)
    requires ValidStyle(s) && scale > 0.0 && |path.pts| % 3 == 1
    ensures PathTrace.Traces(points, marks, path.pts, |path.pts| / 3, scale)
    ensures |points| < 2 ==> StrokedPath(s, path, scale, tol) == []
    ensures |points| >= 2 ==>
              var back := Near(points[|points| - 1].p, points[0].p, tol.dist);
              var closed := path.closed || back;
              |line| >= 2 && line == (if back then points[..|points| - 1] else points) &&
              StrokedPath(s, path, scale, tol) ==
              if s.dashes == [] then LineOutline(s, line, closed)
              else DashOutlines(s, DashLines(s, line + (if closed then [line[0]] else []), scale, tol))
  {
    hide PathTrace.Traces, FlattenedTo, Near, Polyline, DashLines, LineOutline, DashOutlines, ValidStyle, AllLines;
    var k := |path.pts| / 3;
    points := FlattenedTo(path.pts, k, scale, tol.tess, tol.dist, true);
    marks := PathTrace.FlatteningTracesPath(path.pts, k, scale, tol.tess, tol.dist, true);
    var runs := PathTrace.FlatteningKeepsAll(path.pts, k, scale, tol.tess, tol.dist, true);
    line := points;
    if |points| >= 2 {
      PathTrace.KeptIsSpread(points, runs, tol.dist);
      CentreLineHasPoints(points, path.closed, tol.dist);
      line := CentreLine(points, path.closed, tol.dist).0;
      StyleHasCap(s);
      assert line + [] == line;
    }
  }

  /** A closed line is dashed all the way round: the pieces are as long as the line and the side that closes it. */
  lemma DashesCoverLine(s: Style, line: seq<PathPoint>, closed: bool, scale: real, tol: Tolerances)
    returns (pieces: seq<Dash.DashPiece>)
    requires ValidStyle(s) && s.dashes != [] && scale > 0.0 && line != []
    ensures DashLines(s, line + (if closed then [line[0]] else []), scale, tol) == Dash.Strokes(pieces, tol.dist)
    ensures Dash.TotalLength(s.dist, pieces) ==
            Dash.PathLength(s.dist, Positions(line))
            + (if closed then s.dist(line[|line| - 1].p, line[0].p) else 0.0)
  {
    hide Dash.LinearMetric, Dash.ValidDashes, Dash.Strokes, Dash.TotalLength, Dash.PathLength, Dash.AllComplete,
         Dash.InPattern;
    var pts := line + (if closed then [line[0]] else []);
    pieces := Dash.DashPieces(Dash.DashSetting(s.dist, s.dashes, s.dashOffset, scale, pts));
    if closed {
      Dash.PathLengthSnoc(s.dist, Positions(line), line[0].p);
      assert Positions(pts) == Positions(line) + [line[0].p];
    } else {
      assert pts == line;
    }
  }

  /** The stroke of several shapes' paths is the stroke of each. */
  lemma {:induction false} StrokesJoin(s: Style, a: seq<SvgPath>, b: seq<SvgPath>, scale: real, tol: Tolerances)
    requires ValidStyle(s) && GoodPaths(a) && GoodPaths(b) && scale > 0.0
    ensures GoodPaths(a + b)
    ensures StrokedEdges(s, a + b, scale, tol) == StrokedEdges(s, a, scale, tol) + StrokedEdges(s, b, scale, tol)
    ensures |a| == 1 ==> StrokedEdges(s, a, scale, tol) == StrokedPath(s, a[0], scale, tol)
    decreases |b|
  {
    hide StrokedPath, ValidStyle;
    if b == [] {
      assert a + b == a;
    } else {
      var n := |b| - 1;
      assert (a + b)[..|a| + n] == a + b[..n];
      StrokesJoin(s, a, b[..n], scale, tol);
    }
  }

  lemma RingIsClosed(ps: seq<Pt>)
    requires Closed(ps)
    ensures ClosedOutline(Polyline(ps))
  {
    hide Balanced, ValidEdges;
    PolylineValid(ps);
    ClosedIsBalanced(ps);
  }

  lemma LineIsClosed(s: Style, points: seq<PathPoint>, closed: bool)
    requires s.ncap >= 2 && |points| >= (if closed then 1 else 2)
    ensures ClosedOutline(LineOutline(s, points, closed))
  {
    hide ClosedOutline, Polyline, Closed, Stroke.ClosedSides, Stroke.OpenOutline;
    if closed {
      var sides := Stroke.ClosedSides(s.trig, s.join, Prepared(s, points), s.width, s.ncap);
      RingIsClosed(Stroke.LeftRing(sides));
      RingIsClosed(Stroke.RightRing(sides));
      ClosedJoins(Polyline(Stroke.LeftRing(sides)), Polyline(Stroke.RightRing(sides)));
    } else {
      RingIsClosed(Stroke.OpenOutline(s.trig, s.join, s.cap, Prepared(s, points), s.width, s.ncap));
    }
  }

  lemma {:induction false} DashesAreClosed(s: Style, strokes: seq<seq<PathPoint>>)
    requires s.ncap >= 2 && AllLines(strokes)
    ensures ClosedOutline(DashOutlines(s, strokes))
  {
    hide ClosedOutline, LineOutline;
    if strokes == [] {
      NothingIsClosed();
    } else {
      var init, last := strokes[..|strokes| - 1], strokes[|strokes| - 1];
      DashesAreClosed(s, init);
      LineIsClosed(s, last, false);
      ClosedJoins(DashOutlines(s, init), LineOutline(s, last, false));
    }
  }

  lemma PointsAreClosed(s: Style, points: seq<PathPoint>, pathClosed: bool, scale: real, tol: Tolerances)
    requires ValidStyle(s) && scale > 0.0
    ensures ClosedOutline(StrokedPoints(s, points, pathClosed, scale, tol))
  {
    hide ClosedOutline, LineOutline, DashOutlines, DashLines, ValidStyle, Near, AllLines;
    if |points| < 2 {
      NothingIsClosed();
    } else {
      StyleHasCap(s);
      var (line, closed) := CentreLine(points, pathClosed, tol.dist);
      if s.dashes == [] {
        LineIsClosed(s, line, closed);
      } else {
        DashesAreClosed(s, DashLines(s, if closed then line + [line[0]] else line, scale, tol));
      }
    }
  }

  lemma StyleHasCap(s: Style)
    requires ValidStyle(s)
    ensures s.ncap >= 2
  {
  }

  lemma {:induction false} StrokeIsClosed(s: Style, paths: seq<SvgPath>, scale: real, tol: Tolerances)
    requires ValidStyle(s) && GoodPaths(paths) && scale > 0.0
    ensures ClosedOutline(StrokedEdges(s, paths, scale, tol))
  {
    hide ClosedOutline, StrokedPoints, ValidStyle, FlattenedTo;
    if paths == [] {
      NothingIsClosed();
    } else {
      var init, last := paths[..|paths| - 1], paths[|paths| - 1];
      StrokeIsClosed(s, init, scale, tol);
      assert GoodPath(last);
      var points := FlattenedTo(last.pts, |last.pts| / 3, scale, tol.tess, tol.dist, true);
      PointsAreClosed(s, points, last.closed, scale, tol);
      ClosedJoins(StrokedEdges(s, init, scale, tol), StrokedPath(s, last, scale, tol));
    }
  }

  /** nsvg__flattenShapeStroke: the outlines of all lines and dashes of all paths, and nothing else. */
  method FlattenShapeStroke(s: Style, paths: seq<SvgPath>, scale: real, tol: Tolerances) returns (edges: seq<Edge>)
    requires ValidStyle(s) && GoodPaths(paths) && scale > 0.0
    ensures multiset(edges) == multiset(StrokedEdges(s, paths, scale, tol)) && ClosedOutline(edges)
  {
    hide Balanced, ValidEdges, ValidStyle, Spread, Near, StrokedPoints, FlattenedTo, ClosedOutline;
    var buffer := new Stroke.EdgeBuffer();
    var flattener := new PathFlattener(tol.tess, tol.dist);
    var n := 0;
    while n < |paths|
      invariant 0 <= n <= |paths| && multiset(buffer.edges) == multiset(StrokedEdges(s, paths[..n], scale, tol))
      invariant fresh(buffer) && fresh(flattener) && flattener.distTol == tol.dist && flattener.tessTol == tol.tess
    {
      assert GoodPath(paths[n]) && paths[..n + 1][..n] == paths[..n];
      flattener.FlattenPoints(paths[n].pts, scale, true);
      StrokePoints(s, flattener.points, paths[n].closed, scale, tol, buffer);
      n := n + 1;
    }
    assert paths[..|paths|] == paths;
    StrokeIsClosed(s, paths, scale, tol);
    ClosedPermutation(StrokedEdges(s, paths, scale, tol), buffer.edges);
    return buffer.edges;
  }

  lemma ClosedPermutation(a: seq<Edge>, b: seq<Edge>)
    requires ClosedOutline(a) && multiset(a) == multiset(b)
    ensures ClosedOutline(b)
  {
    hide Balanced, ValidEdge;
    BalancedPermutation(a, b);
    forall i | 0 <= i < |b| ensures ValidEdge(b[i]) {
      assert b[i] in multiset(b);
      assert b[i] in a;
    }
  }

  /** One flattened path: solid, or dash by dash. */
  method StrokePoints(s: Style, points: seq<PathPoint>, pathClosed: bool, scale: real, tol: Tolerances,
                      buffer: Stroke.EdgeBuffer)
    requires ValidStyle(s) && scale > 0.0
    modifies buffer
    ensures multiset(buffer.edges)
         == multiset(old(buffer.edges)) + multiset(StrokedPoints(s, points, pathClosed, scale, tol))
  {
    hide Balanced, ValidEdges, Near, Dash.LinearMetric, Dash.ValidDashes, DashLines, LineOutline, DashOutlines;
    if |points| < 2 {
      return;
    }
    var (line, closed) := CentreLine(points, pathClosed, tol.dist);
    hide CentreLine;
    if |s.dashes| > 0 {
      var pts := if closed then line + [line[0]] else line;
      StrokeDashes(s, pts, scale, tol, buffer);
    } else {
      StrokeLine(s, line, closed, buffer);
    }
  }

  method StrokeLine(s: Style, points: seq<PathPoint>, closed: bool, buffer: Stroke.EdgeBuffer)
    requires s.ncap >= 2 && |points| >= (if closed then 1 else 2)
    modifies buffer
    ensures multiset(buffer.edges) == multiset(old(buffer.edges)) + multiset(LineOutline(s, points, closed))
  {
    hide Balanced, ValidEdges, Stroke.ClosedSides, Stroke.OpenOutline, Polyline;
    var line := new Stroke.StrokePoint[|points|](i requires 0 <= i < |points| => Prepare.Raw(points[i]));
    assert line[..] == RawLine(points);
    Prepare.PrepareStroke(s.trig, s.join, s.miterLimit, line);
    buffer.ExpandStroke(s.trig, s.join, s.cap, line[..], closed, s.width, s.ncap);
  }

  method StrokeDashes(s: Style, pts: seq<PathPoint>, scale: real, tol: Tolerances, buffer: Stroke.EdgeBuffer)
    requires ValidStyle(s) && s.dashes != [] && scale > 0.0 && pts != []
    modifies buffer
    ensures multiset(buffer.edges)
         == multiset(old(buffer.edges)) + multiset(DashOutlines(s, DashLines(s, pts, scale, tol)))
  {
    hide Dash.LinearMetric, Dash.ValidDashes, Dash.Strokes, Dash.DashPieces, LineOutline, Dash.DashSetting;
    var strokes := Dash.DashPolyline(s.dist, tol.dist, s.dashes, s.dashOffset, scale, pts);
    StrokeLines(s, strokes, buffer);
  }

  method StrokeLines(s: Style, strokes: seq<seq<PathPoint>>, buffer: Stroke.EdgeBuffer)
    requires s.ncap >= 2 && AllLines(strokes)
    modifies buffer
    ensures multiset(buffer.edges) == multiset(old(buffer.edges)) + multiset(DashOutlines(s, strokes))
  {
    hide LineOutline;
    var i := 0;
    while i < |strokes|
      invariant 0 <= i <= |strokes|
      invariant multiset(buffer.edges) == multiset(old(buffer.edges)) + multiset(DashOutlines(s, strokes[..i]))
    {
      assert strokes[..i + 1][..i] == strokes[..i];
      StrokeLine(s, strokes[i], false, buffer);
      i := i + 1;
    }
    assert strokes[..|strokes|] == strokes;
  }

  /** A stroke, dashed or not, paints what the fill rule says about the outlines of its lines and dashes. */
  lemma StrokeFollowsOutlines(s: Style, paths: seq<SvgPath>, scale: real, tol: Tolerances, pass: Render.Pass,
                              at: Blend.Placement, k: nat, x: int)
    requires ValidStyle(s) && GoodPaths(paths) && scale > 0.0 && Render.ValidPass(pass, at)
    ensures ValidEdges(pass.edges) && ValidEdges(StrokedEdges(s, paths, scale, tol))
    ensures multiset(pass.outline) == multiset(StrokedEdges(s, paths, scale, tol)) && SampleAway(pass.edges, k, x) ==>
              (InSpans(SpansOf(pass.rule, ActiveOn(pass.edges, k)), x)
               <==> Inside(pass.rule, StrokedEdges(s, paths, scale, tol), SamplePoint(at.tx, at.ty, k, x)))
  {
    hide GoodPaths, StrokedEdges, Render.ValidPass, ValidEdges, Balanced, ActiveOn, SpansOf, InSpans, Inside,
         SampleAway, SamplePoint, ValidStyle;
    StrokeIsClosed(s, paths, scale, tol);
    Render.PassEdgesValid(pass, at);
    if multiset(pass.outline) == multiset(StrokedEdges(s, paths, scale, tol)) {
      PassFollows(StrokedEdges(s, paths, scale, tol), pass, at, k, x);
    }
  }
}
