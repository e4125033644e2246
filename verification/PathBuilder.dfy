/** The path builder of the parser: the point buffer, path data and the basic shapes (src/External/nanosvg/nanosvg.h).

    Number conversion, the square root and the curves that approximate an arc are arbitrary functions. */
module PathBuilder {
  import opened Edges
  import opened Flatten
  import opened PathItems
  import Transform

  datatype SvgPath = SvgPath(pts: seq<Pt>, closed: bool)

  /** atof, sqrt, and the Bezier segments, as control points and end point, that approximate an arc. */
  datatype World = World(atof: string -> real, sqrt: real -> real, arc: (Pt, Pt, seq<real>) -> seq<(Pt, Pt, Pt)>)

  // ----- the point buffer -----

  function Third(a: Pt, b: Pt): Pt {
    Pt(a.x + (b.x - a.x) / 3.0, a.y + (b.y - a.y) / 3.0)
  }

  function MovedTo(ps: seq<Pt>, q: Pt): seq<Pt> {
    if ps == [] then [q] else ps[..|ps| - 1] + [q]
  }

  function CurvedTo(ps: seq<Pt>, c1: Pt, c2: Pt, q: Pt): seq<Pt> {
    if ps == [] then [] else ps + [c1, c2, q]
  }

  function LinedTo(ps: seq<Pt>, q: Pt): seq<Pt> {
    if ps == [] then []
    else
      var p := ps[|ps| - 1];
      CurvedTo(ps, Third(p, q), Third(q, p), q)
  }

  function Transformed(ps: seq<Pt>, m: Transform.Affine): (r: seq<Pt>)
    ensures |r| == |ps| && forall i :: 0 <= i < |r| ==> r[i] == Transform.Apply(m, ps[i])
  {
    seq(|ps|, i requires 0 <= i < |ps| => Transform.Apply(m, ps[i]))
  }

  function Outline(ps: seq<Pt>, closed: bool): seq<Pt> {
    if closed && ps != [] then LinedTo(ps, ps[0]) else ps
  }

  /** Adding a path: fewer than four points make none. */
  function Committed(paths: seq<SvgPath>, ps: seq<Pt>, closed: bool, m: Transform.Affine): seq<SvgPath> {
    if |ps| < 4 then paths else [SvgPath(Transformed(Outline(ps, closed), m), closed)] + paths
  }

  /** Empty, or a starting point and three points a segment. */
  predicate Shaped(n: nat) {
    n == 0 || n % 3 == 1
  }

  /** At least one whole segment, and back at the start if closed. */
  predicate GoodPath(path: SvgPath) {
    |path.pts| >= 4 && |path.pts| % 3 == 1 && (path.closed ==> path.pts[|path.pts| - 1] == path.pts[0])
  }

  predicate GoodPaths(paths: seq<SvgPath>) {
    forall i :: 0 <= i < |paths| ==> GoodPath(paths[i])
  }

  lemma CommittedIsGood(paths: seq<SvgPath>, ps: seq<Pt>, closed: bool, m: Transform.Affine)
    requires Shaped(|ps|) && GoodPaths(paths)
    ensures GoodPaths(Committed(paths, ps, closed, m))
  {
    hide Transform.Apply;
    if |ps| >= 4 {
      var outline := Outline(ps, closed);
      assert GoodPath(SvgPath(Transformed(outline, m), closed));
    }
  }

  /** A straight line is drawn straight: at every t the curve of its control points is the point that far along. */
  lemma LineIsStraight(p: Pt, q: Pt, t: real)
    ensures CurveAt(Cubic(p, Third(p, q), Third(q, p), q), t) == Pt(Lerp(t, p.x, q.x), Lerp(t, p.y, q.y))
  {
    StraightCoordinate(t, p.x, q.x);
    StraightCoordinate(t, p.y, q.y);
  }

  lemma StraightCoordinate(t: real, a: real, b: real)
    ensures Bernstein(t, a, a + (b - a) / 3.0, b + (a - b) / 3.0, b) == Lerp(t, a, b)
  {
    var s := 1.0 - t;
    var d := (b - a) / 3.0;
    assert b == a + 3.0 * d;
    Cubed(t, a, d);
    hide Bernstein;
  }

  lemma Cubed(t: real, a: real, d: real)
    ensures Bernstein(t, a, a + d, a + 2.0 * d, a + 3.0 * d) == a + 3.0 * (t * d)
  {
  }

  function Quadratic(t: real, a: real, c: real, b: real): real {
    var it := 1.0 - t;
    it * it * a + 2.0 * (it * t) * c + t * t * b
  }

  function Elevated(a: real, c: real): real {
    a + 2.0 / 3.0 * (c - a)
  }

  function TowardsControl(p: Pt, c: Pt): Pt {
    Pt(Elevated(p.x, c.x), Elevated(p.y, c.y))
  }

  /** A quadratic curve turned into a cubic one is the same curve. */
  lemma QuadraticIsSame(p: Pt, c: Pt, q: Pt, t: real)
    ensures CurveAt(Cubic(p, TowardsControl(p, c), TowardsControl(q, c), q), t) ==
            Pt(Quadratic(t, p.x, c.x, q.x), Quadratic(t, p.y, c.y, q.y))
  {
    hide Bernstein, Quadratic, Elevated;
    SameCoordinate(t, p.x, c.x, q.x);
    SameCoordinate(t, p.y, c.y, q.y);
  }

  lemma SameCoordinate(t: real, a: real, c: real, b: real)
    ensures Bernstein(t, a, Elevated(a, c), Elevated(b, c), b) == Quadratic(t, a, c, b)
  {
    var it := 1.0 - t;
    var u, v, w := it * it, it * t, t * t;
    assert u * it == u - u * t && u * t == v - v * t;
    assert it * it * it * a == u * a - u * t * a;
    assert 3.0 * it * it * t * Elevated(a, c) == u * t * a + 2.0 * (u * t) * c;
    assert 3.0 * it * t * t * Elevated(b, c) == v * t * b + 2.0 * (v * t) * c;
    assert t * t * t * b == w * b - v * t * b;
    assert u * t + v * t == v;
    assert (u * t + v * t) * c == v * c;
  }

  // ----- one drawing command -----

  datatype Pen = Pen(cp: Pt, cp2: Pt, ps: seq<Pt>)

  /** nsvg__getArgsPerElement. */
  function ArgsPer(cmd: char): int {
    if cmd in "vVhH" then 1
    else if cmd in "mMlLtT" then 2
    else if cmd in "qQsS" then 4
    else if cmd in "cC" then 6
    else if cmd in "aA" then 7
    else if cmd in "zZ" then 0
    else -1
  }

  predicate Relative(cmd: char) {
    'a' <= cmd <= 'z'
  }

  function Target(rel: bool, cp: Pt, x: real, y: real): Pt {
    if rel then Pt(cp.x + x, cp.y + y) else Pt(x, y)
  }

  function Reflected(p: Pt, c: Pt): Pt {
    Pt(2.0 * p.x - c.x, 2.0 * p.y - c.y)
  }

  function SquaredDistance(a: Pt, b: Pt): real {
    (a.x - b.x) * (a.x - b.x) + (a.y - b.y) * (a.y - b.y)
  }

  predicate Degenerate(w: World, a: Pt, b: Pt, rx: real, ry: real) {
    w.sqrt(SquaredDistance(a, b)) < 0.000001 || Abs(rx) < 0.000001 || Abs(ry) < 0.000001
  }

  function AllCurvedTo(ps: seq<Pt>, cubics: seq<(Pt, Pt, Pt)>): seq<Pt> {
    if cubics == [] then ps
    else
      var c := cubics[|cubics| - 1];
      CurvedTo(AllCurvedTo(ps, cubics[..|cubics| - 1]), c.0, c.1, c.2)
  }

  /** What a command with its numbers draws, and where it leaves the current point and the last control point. */
  function Drawn(w: World, cmd: char, v: seq<real>, pen: Pen): Pen
    requires |v| >= ArgsPer(cmd)
  {
    var rel, cp := Relative(cmd), pen.cp;
    if cmd in "mM" then
      var q := Target(rel, cp, v[0], v[1]);
      Pen(q, q, MovedTo(pen.ps, q))
    else if cmd in "lL" then
      var q := Target(rel, cp, v[0], v[1]);
      Pen(q, q, LinedTo(pen.ps, q))
    else if cmd in "hH" then
      var q := Pt(if rel then cp.x + v[0] else v[0], cp.y);
      Pen(q, q, LinedTo(pen.ps, q))
    else if cmd in "vV" then
      var q := Pt(cp.x, if rel then cp.y + v[0] else v[0]);
      Pen(q, q, LinedTo(pen.ps, q))
    else if cmd in "cC" then
      var c1, c2 := Target(rel, cp, v[0], v[1]), Target(rel, cp, v[2], v[3]);
      var q := Target(rel, cp, v[4], v[5]);
      Pen(q, c2, CurvedTo(pen.ps, c1, c2, q))
    else if cmd in "sS" then
      var c2, q := Target(rel, cp, v[0], v[1]), Target(rel, cp, v[2], v[3]);
      Pen(q, c2, CurvedTo(pen.ps, Reflected(cp, pen.cp2), c2, q))
    else if cmd in "qQ" then
      var c, q := Target(rel, cp, v[0], v[1]), Target(rel, cp, v[2], v[3]);
      Pen(q, c, CurvedTo(pen.ps, TowardsControl(cp, c), TowardsControl(q, c), q))
    else if cmd in "tT" then
      var c, q := Reflected(cp, pen.cp2), Target(rel, cp, v[0], v[1]);
      Pen(q, c, CurvedTo(pen.ps, TowardsControl(cp, c), TowardsControl(q, c), q))
    else if cmd in "aA" then
      var q := Target(rel, cp, v[5], v[6]);
      Pen(q, q, if Degenerate(w, cp, q, v[0], v[1]) then LinedTo(pen.ps, q)
                else AllCurvedTo(pen.ps, w.arc(cp, q, v[..5])))
    else if |v| >= 2 then
      var q := Pt(v[|v| - 2], v[|v| - 1]);
      Pen(q, q, pen.ps)
    else pen
  }

  function UpperCase(cmd: char): char {
    if cmd == 'm' then 'M' else if cmd == 'l' then 'L' else if cmd == 'h' then 'H' else if cmd == 'v' then 'V'
    else if cmd == 'c' then 'C' else if cmd == 's' then 'S' else if cmd == 'q' then 'Q' else if cmd == 't' then 'T'
    else if cmd == 'a' then 'A' else if cmd == 'z' then 'Z' else cmd
  }

  /** The numbers of a relative command as the absolute command has to give them. */
  function MadeAbsolute(cmd: char, v: seq<real>, cp: Pt): seq<real>
    requires |v| >= ArgsPer(cmd)
  {
    if cmd == 'h' then [cp.x + v[0]] + v[1..]
    else if cmd == 'v' then [cp.y + v[0]] + v[1..]
    else if cmd == 'a' then v[..5] + [cp.x + v[5], cp.y + v[6]] + v[7..]
    else if cmd == 'c' then
      [cp.x + v[0], cp.y + v[1], cp.x + v[2], cp.y + v[3], cp.x + v[4], cp.y + v[5]] + v[6..]
    else if cmd in "sq" then [cp.x + v[0], cp.y + v[1], cp.x + v[2], cp.y + v[3]] + v[4..]
    else if cmd in "mlt" then [cp.x + v[0], cp.y + v[1]] + v[2..]
    else v
  }

  /** A relative command draws what the absolute one draws with the current point added to its coordinates. */
  lemma RelativeIsAbsolute(w: World, cmd: char, v: seq<real>, pen: Pen)
    requires ArgsPer(cmd) >= 0 && |v| >= ArgsPer(cmd)
    ensures |MadeAbsolute(cmd, v, pen.cp)| >= ArgsPer(UpperCase(cmd))
    ensures Drawn(w, cmd, v, pen) == Drawn(w, UpperCase(cmd), MadeAbsolute(cmd, v, pen.cp), pen)
  {
    if cmd in "mlhvt" {
      RelativePoint(w, cmd, v, pen);
    } else if cmd in "csq" {
      RelativeCurve(w, cmd, v, pen);
    } else if cmd == 'a' {
      RelativeArc(w, v, pen);
    }
  }

  lemma RelativePoint(w: World, cmd: char, v: seq<real>, pen: Pen)
    requires cmd in "mlhvt" && |v| >= ArgsPer(cmd)
    ensures |MadeAbsolute(cmd, v, pen.cp)| >= ArgsPer(UpperCase(cmd))
    ensures Drawn(w, cmd, v, pen) == Drawn(w, UpperCase(cmd), MadeAbsolute(cmd, v, pen.cp), pen)
  {
    hide CurvedTo, LinedTo, MovedTo, AllCurvedTo, TowardsControl, Reflected, Degenerate;
  }

  lemma RelativeCurve(w: World, cmd: char, v: seq<real>, pen: Pen)
    requires cmd in "csq" && |v| >= ArgsPer(cmd)
    ensures |MadeAbsolute(cmd, v, pen.cp)| >= ArgsPer(UpperCase(cmd))
    ensures Drawn(w, cmd, v, pen) == Drawn(w, UpperCase(cmd), MadeAbsolute(cmd, v, pen.cp), pen)
  {
    hide CurvedTo, LinedTo, MovedTo, AllCurvedTo, TowardsControl, Reflected, Degenerate;
  }

  lemma RelativeArc(w: World, v: seq<real>, pen: Pen)
    requires |v| >= 7
    ensures |MadeAbsolute('a', v, pen.cp)| >= 7
    ensures Drawn(w, 'a', v, pen) == Drawn(w, 'A', MadeAbsolute('a', v, pen.cp), pen)
  {
    hide CurvedTo, LinedTo, MovedTo, AllCurvedTo, TowardsControl, Reflected, Degenerate;
    var u := MadeAbsolute('a', v, pen.cp);
    assert u[..5] == v[..5] && u[5] == pen.cp.x + v[5] && u[6] == pen.cp.y + v[6];
  }

  // ----- path data -----

  /** Between two items: the command, its numbers so far and how many it takes, the pen, whether a subpath has been
      started, and the paths added. */
  datatype Reader = Reader(cmd: char, args: seq<real>, rargs: int, pen: Pen, init: bool, paths: seq<SvgPath>)

  const NO_COMMAND := '\0'

  function Start(paths: seq<SvgPath>): Reader {
    Reader(NO_COMMAND, [], 0, Pen(Pt(0.0, 0.0), Pt(0.0, 0.0), []), false, paths)
  }

  predicate ReaderOk(r: Reader) {
    (if r.cmd == NO_COMMAND then r.rargs == 0 else r.rargs == ArgsPer(r.cmd) && 0 <= r.rargs) && |r.args| < 7
  }

  predicate FlagDue(r: Reader) {
    r.cmd in "aA" && (|r.args| == 3 || |r.args| == 4)
  }

  /** A number. */
  function NumberRead(w: World, r: Reader, x: real): (next: Reader)
    requires ReaderOk(r) && r.cmd != NO_COMMAND
    ensures ReaderOk(next)
  {
    var args := r.args + [x];
    if |args| < r.rargs then r.(args := args)
    else
      var cmd := if r.cmd == 'm' then 'l' else if r.cmd == 'M' then 'L' else r.cmd;
      Reader(cmd, [], ArgsPer(cmd), Drawn(w, r.cmd, args, r.pen), r.init || r.cmd in "mM", r.paths)
  }

  /** A command letter, or anything else that is no number. */
  function CommandRead(m: Transform.Affine, r: Reader, c: char): (next: Reader)
    requires ReaderOk(r)
    ensures ReaderOk(next)
  {
    if c in "mM" then
      Reader(c, [], 2, r.pen.(ps := []), r.init, Committed(r.paths, r.pen.ps, false, m))
    else if r.init && c in "zZ" then
      var cp := if r.pen.ps == [] then r.pen.cp else r.pen.ps[0];
      var cp2 := if r.pen.ps == [] then r.pen.cp2 else cp;
      Reader(c, [], 0, Pen(cp, cp2, [cp]), r.init, Committed(r.paths, r.pen.ps, true, m))
    else if r.init && ArgsPer(c) >= 0 then r.(cmd := c, rargs := ArgsPer(c))
    else r.(cmd := NO_COMMAND, rargs := 0)
  }

  function ItemRead(w: World, m: Transform.Affine, r: Reader, item: string): (next: Reader)
    requires ReaderOk(r) && item != ""
    ensures ReaderOk(next)
  {
    if r.cmd != NO_COMMAND && IsCoordinate(item) then NumberRead(w, r, w.atof(item)) else CommandRead(m, r, item[0])
  }

  function AllRead(w: World, m: Transform.Affine, r: Reader, s: string): (end: Reader)
    requires ReaderOk(r)
    ensures ReaderOk(end)
    decreases |s|
  {
    if s == "" then r
    else
      var (item, rest) := if FlagDue(r) then NextFlagOrItem(s) else NextItem(s);
      if item == "" then r else AllRead(w, m, ItemRead(w, m, r, item), rest)
  }

  /** The paths that path data adds. */
  function PathsOf(w: World, m: Transform.Affine, paths: seq<SvgPath>, d: string): seq<SvgPath> {
    var end := AllRead(w, m, Start(paths), d);
    Committed(end.paths, end.pen.ps, false, m)
  }

  // ----- the shape of the buffer and of the paths -----

  lemma {:induction false} AllCurvedShape(ps: seq<Pt>, cubics: seq<(Pt, Pt, Pt)>)
    requires Shaped(|ps|)
    ensures Shaped(|AllCurvedTo(ps, cubics)|)
  {
    if cubics != [] {
      AllCurvedShape(ps, cubics[..|cubics| - 1]);
    }
  }

  lemma DrawnShape(w: World, cmd: char, v: seq<real>, pen: Pen)
    requires |v| >= ArgsPer(cmd) && Shaped(|pen.ps|)
    ensures Shaped(|Drawn(w, cmd, v, pen).ps|)
  {
    hide Third, TowardsControl, Reflected, Target, Degenerate;
    if cmd in "aA" {
      AllCurvedShape(pen.ps, w.arc(pen.cp, Target(Relative(cmd), pen.cp, v[5], v[6]), v[..5]));
    }
    hide AllCurvedTo;
  }

  ghost predicate Sound(r: Reader) {
    ReaderOk(r) && Shaped(|r.pen.ps|) && GoodPaths(r.paths)
  }

  lemma ItemKeepsSound(w: World, m: Transform.Affine, r: Reader, item: string)
    requires Sound(r) && item != ""
    ensures Sound(ItemRead(w, m, r, item))
  {
    hide Drawn, Committed, GoodPaths, ArgsPer;
    if r.cmd != NO_COMMAND && IsCoordinate(item) {
      var args := r.args + [w.atof(item)];
      if |args| >= r.rargs {
        DrawnShape(w, r.cmd, args, r.pen);
      }
    } else {
      CommittedIsGood(r.paths, r.pen.ps, false, m);
      CommittedIsGood(r.paths, r.pen.ps, true, m);
    }
  }

  lemma {:induction false} AllReadSound(w: World, m: Transform.Affine, r: Reader, s: string)
    requires Sound(r)
    ensures Sound(AllRead(w, m, r, s))
    decreases |s|
  {
    hide ItemRead;
    if s != "" {
      var (item, rest) := if FlagDue(r) then NextFlagOrItem(s) else NextItem(s);
      if item != "" {
        ItemKeepsSound(w, m, r, item);
        AllReadSound(w, m, ItemRead(w, m, r, item), rest);
      }
    }
  }

  /** Whatever the path data, every path it adds has whole segments only, at least one, and ends where it began if it
      is closed. */
  lemma PathsAreGood(w: World, m: Transform.Affine, paths: seq<SvgPath>, d: string)
    requires GoodPaths(paths)
    ensures GoodPaths(PathsOf(w, m, paths, d))
  {
    AllReadSound(w, m, Start(paths), d);
    hide AllRead, Committed, GoodPaths, ReaderOk;
    var end := AllRead(w, m, Start(paths), d);
    CommittedIsGood(end.paths, end.pen.ps, false, m);
  }
}
