/** The parser's point buffer, path data and basic shapes, updated in place (src/External/nanosvg/nanosvg.h). */
module PathParser {
  import opened Edges
  import opened PathItems
  import opened PathBuilder
  import Transform

  const KAPPA90 := 0.5522847493

  function PointsIn(s: seq<real>, n: nat): (r: seq<Pt>)
    requires 2 * n <= |s|
    ensures |r| == n && forall i :: 0 <= i < n ==> r[i] == Pt(s[2 * i], s[2 * i + 1])
  {
    seq(n, i requires 0 <= i < n => Pt(s[2 * i], s[2 * i + 1]))
  }

  class Parser {
    var pts: array<real>
    var npts: nat
    var cpts: nat
    var plist: seq<SvgPath>
    const xform: Transform.Affine
    const w: World

    /** The buffer has room for its points, and holds none or a start and whole segments. */
    ghost predicate Valid()
      reads this
    {
      pts.Length == 2 * cpts && npts <= cpts && Shaped(npts)
    }

    ghost predicate HasRoom()
      reads this
    {
      pts.Length == 2 * cpts && npts <= cpts
    }

    ghost function Points(): (r: seq<Pt>)
      requires HasRoom()
      reads this, pts
      ensures |r| == npts
    {
      PointsIn(pts[..], npts)
    }

    constructor (xform: Transform.Affine, w: World)
      ensures Valid() && Points() == [] && plist == [] && fresh(pts)
      ensures this.xform == xform && this.w == w
    {
      this.xform, this.w := xform, w;
      pts, npts, cpts, plist := new real[0], 0, 0, [];
    }

    method ResetPath()
      requires Valid()
      modifies `npts
      ensures Valid() && Points() == []
    {
      npts := 0;
    }

    /** Doubles the room, from 8 on. */
    method Grow()
      requires HasRoom()
      modifies `pts, `cpts
      ensures HasRoom() && Points() == old(Points()) && npts < cpts && fresh(pts)
    {
      var more := if cpts > 0 then cpts * 2 else 8;
      var grown := new real[2 * more];
      for i := 0 to 2 * npts
        invariant forall k :: 0 <= k < i ==> grown[k] == pts[k]
        modifies grown
      {
        grown[i] := pts[i];
      }
      assert PointsIn(grown[..], npts) == Points();
      pts, cpts := grown, more;
    }

    method AddPoint(q: Pt)
      requires HasRoom()
      modifies this, pts
      ensures HasRoom() && Points() == old(Points()) + [q] && plist == old(plist)
      ensures pts == old(pts) || fresh(pts)
    {
      if npts + 1 > cpts {
        Grow();
      }
      ghost var was := Points();
      pts[npts * 2 + 0] := q.x;
      pts[npts * 2 + 1] := q.y;
      npts := npts + 1;
      assert forall i :: 0 <= i < npts - 1 ==> Points()[i] == was[i];
    }

    /** The i-th point of the buffer. */
    function At(i: nat): (q: Pt)
      requires HasRoom() && i < npts
      reads this, pts
      ensures q == Points()[i]
    {
      Pt(pts[i * 2 + 0], pts[i * 2 + 1])
    }

    method MoveTo(q: Pt)
      requires Valid()
      modifies this, pts
      ensures Valid() && Points() == MovedTo(old(Points()), q) && plist == old(plist)
      ensures pts == old(pts) || fresh(pts)
    {
      if npts > 0 {
        ghost var was := Points();
        pts[(npts - 1) * 2 + 0] := q.x;
        pts[(npts - 1) * 2 + 1] := q.y;
        assert forall i :: 0 <= i < npts - 1 ==> Points()[i] == was[i];
      } else {
        AddPoint(q);
      }
    }

    method CubicBezTo(c1: Pt, c2: Pt, q: Pt)
      requires Valid()
      modifies this, pts
      ensures Valid() && Points() == CurvedTo(old(Points()), c1, c2, q) && plist == old(plist)
      ensures pts == old(pts) || fresh(pts)
    {
      if npts > 0 {
        ghost var was := Points();
        AddPoint(c1);
        AddPoint(c2);
        AddPoint(q);
        assert was + [c1] + [c2] + [q] == was + [c1, c2, q];
        assert npts == |was| + 3;
      }
    }

    method LineTo(q: Pt)
      requires Valid()
      modifies this, pts
      ensures Valid() && Points() == LinedTo(old(Points()), q) && plist == old(plist)
      ensures pts == old(pts) || fresh(pts)
    {
      if npts > 0 {
        var p := At(npts - 1);
        var dx, dy := q.x - p.x, q.y - p.y;
        ThirdsOf(p, q);
        hide Third;
        CubicBezTo(Pt(p.x + dx / 3.0, p.y + dy / 3.0), Pt(q.x - dx / 3.0, q.y - dy / 3.0), q);
      }
    }

    /** Adds the buffer as a path; with whole segments only in the buffer, the count it is turned down for never
        arises. */
    method AddPath(closed: bool)
      requires Valid()
      modifies this, pts
      ensures Valid() && plist == Committed(old(plist), old(Points()), closed, xform)
      ensures pts == old(pts) || fresh(pts)
    {
      if npts < 4 {
        return;
      }
      ghost var was := Points();
      if closed {
        LineTo(At(0));
      }
      assert npts % 3 == 1 && Points() == Outline(was, closed);
      if npts % 3 != 1 {
        return;
      }
      var path := TransformedPoints();
      plist := [SvgPath(path, closed)] + plist;
    }

    method TransformedPoints() returns (path: seq<Pt>)
      requires Valid()
      ensures path == Transformed(Points(), xform)
    {
      hide Transform.Apply;
      path := [];
      for i := 0 to npts
        invariant |path| == i && forall k :: 0 <= k < i ==> path[k] == Transform.Apply(xform, Points()[k])
      {
        path := path + [Transform.Apply(xform, At(i))];
      }
    }

    // ----- drawing commands -----

    /** nsvg__pathLineTo, with the horizontal and vertical forms beside it. */
    method PathLineTo(cmd: char, v: seq<real>, cp: Pt) returns (q: Pt)
      requires Valid() && cmd in "lLhHvV" && |v| >= ArgsPer(cmd)
      modifies this, pts
      ensures Valid() && plist == old(plist) && (pts == old(pts) || fresh(pts))
      ensures forall cp2 :: Pen(q, q, Points()) == Drawn(w, cmd, v, Pen(cp, cp2, old(Points())))
    {
      hide LinedTo;
      var rel := Relative(cmd);
      if cmd in "hH" {
        q := Pt(if rel then cp.x + v[0] else v[0], cp.y);
      } else if cmd in "vV" {
        q := Pt(cp.x, if rel then cp.y + v[0] else v[0]);
      } else {
        q := if rel then Pt(cp.x + v[0], cp.y + v[1]) else Pt(v[0], v[1]);
      }
      LineTo(q);
    }

    method PathCubicBezTo(cmd: char, v: seq<real>, cp: Pt, cp2: Pt) returns (q: Pt, c2: Pt)
      requires Valid() && cmd in "cCsS" && |v| >= ArgsPer(cmd)
      modifies this, pts
      ensures Valid() && plist == old(plist) && (pts == old(pts) || fresh(pts))
      ensures Pen(q, c2, Points()) == Drawn(w, cmd, v, Pen(cp, cp2, old(Points())))
    {
      hide CurvedTo;
      var rel := Relative(cmd);
      var c1: Pt;
      if cmd in "cC" {
        c1, c2, q := Target(rel, cp, v[0], v[1]), Target(rel, cp, v[2], v[3]), Target(rel, cp, v[4], v[5]);
      } else {
        c1 := Pt(2.0 * cp.x - cp2.x, 2.0 * cp.y - cp2.y);
        c2, q := Target(rel, cp, v[0], v[1]), Target(rel, cp, v[2], v[3]);
      }
      CubicBezTo(c1, c2, q);
    }

    method PathQuadBezTo(cmd: char, v: seq<real>, cp: Pt, cp2: Pt) returns (q: Pt, c: Pt)
      requires Valid() && cmd in "qQtT" && |v| >= ArgsPer(cmd)
      modifies this, pts
      ensures Valid() && plist == old(plist) && (pts == old(pts) || fresh(pts))
      ensures Pen(q, c, Points()) == Drawn(w, cmd, v, Pen(cp, cp2, old(Points())))
    {
      hide CurvedTo, TowardsControl;
      var rel := Relative(cmd);
      if cmd in "qQ" {
        c, q := Target(rel, cp, v[0], v[1]), Target(rel, cp, v[2], v[3]);
      } else {
        c, q := Pt(2.0 * cp.x - cp2.x, 2.0 * cp.y - cp2.y), Target(rel, cp, v[0], v[1]);
      }
      CubicBezTo(TowardsControl(cp, c), TowardsControl(q, c), q);
    }

    method PathArcTo(cmd: char, v: seq<real>, cp: Pt) returns (q: Pt)
      requires Valid() && cmd in "aA" && |v| >= 7
      modifies this, pts
      ensures Valid() && plist == old(plist) && (pts == old(pts) || fresh(pts))
      ensures forall cp2 :: Pen(q, q, Points()) == Drawn(w, cmd, v, Pen(cp, cp2, old(Points())))
    {
      hide CurvedTo, LinedTo, Degenerate;
      q := Target(Relative(cmd), cp, v[5], v[6]);
      if Degenerate(w, cp, q, v[0], v[1]) {
        LineTo(q);
        return;
      }
      var cubics := w.arc(cp, q, v[..5]);
      ghost var was := Points();
      var i := 0;
      while i < |cubics|
        invariant 0 <= i <= |cubics| && Valid() && plist == old(plist) && (pts == old(pts) || fresh(pts))
        invariant Points() == AllCurvedTo(was, cubics[..i])
      {
        CubicBezTo(cubics[i].0, cubics[i].1, cubics[i].2);
        assert cubics[..i + 1][..i] == cubics[..i];
        i := i + 1;
      }
      assert cubics[..|cubics|] == cubics;
    }

    /** The switch over the drawing commands. */
    method Draw(cmd: char, v: seq<real>, cp: Pt, cp2: Pt) returns (q: Pt, c: Pt)
      requires Valid() && |v| >= ArgsPer(cmd)
      modifies this, pts
      ensures Valid() && plist == old(plist) && (pts == old(pts) || fresh(pts))
      ensures Pen(q, c, Points()) == Drawn(w, cmd, v, Pen(cp, cp2, old(Points())))
    {
      if cmd in "mM" {
        q := Target(Relative(cmd), cp, v[0], v[1]);
        MoveTo(q);
        c := q;
        return;
      }
      if cmd in "lLhHvV" {
        hide Drawn;
        q := PathLineTo(cmd, v, cp);
        c := q;
      } else if cmd in "cCsS" {
        hide Drawn;
        q, c := PathCubicBezTo(cmd, v, cp, cp2);
      } else if cmd in "qQtT" {
        hide Drawn;
        q, c := PathQuadBezTo(cmd, v, cp, cp2);
      } else if cmd in "aA" {
        hide Drawn;
        q := PathArcTo(cmd, v, cp);
        c := q;
      } else {
        q, c := cp, cp2;
        if |v| >= 2 {
          q := Pt(v[|v| - 2], v[|v| - 1]);
          c := q;
        }
      }
    }

    // ----- path data -----

    /** What a number does to the reader: either it is kept for the command, or the command is carried out. */
    method ReadNumber(x: real, cmd: char, args: seq<real>, rargs: int, cp: Pt, cp2: Pt, init: bool)
      returns (cmd': char, args': seq<real>, rargs': int, q: Pt, c: Pt, init': bool)
      requires Valid() && cmd != NO_COMMAND && ReaderOk(Reader(cmd, args, rargs, Pen(cp, cp2, Points()), init, plist))
      modifies this, pts
      ensures Valid() && (pts == old(pts) || fresh(pts))
      ensures Reader(cmd', args', rargs', Pen(q, c, Points()), init', plist) ==
              NumberRead(w, old(Reader(cmd, args, rargs, Pen(cp, cp2, Points()), init, plist)), x)
    {
      hide Drawn;
      cmd', args', rargs', q, c, init' := cmd, args, rargs, cp, cp2, init;
      if |args| < 10 {
        args' := args + [x];
      }
      if |args'| >= rargs {
        q, c := Draw(cmd, args', cp, cp2);
        if cmd in "mM" {
          cmd' := if cmd == 'm' then 'l' else 'L';
          rargs' := ArgsPer(cmd');
          init' := true;
        }
        args' := [];
      }
    }

    /** What a command letter does to the reader. */
    method ReadCommand(letter: char, args: seq<real>, cp: Pt, cp2: Pt, init: bool, ghost cmd: char, ghost rargs: int)
      returns (cmd': char, args': seq<real>, rargs': int, q: Pt, c: Pt)
      requires Valid() && ReaderOk(Reader(cmd, args, rargs, Pen(cp, cp2, Points()), init, plist))
      modifies this, pts
      ensures Valid() && (pts == old(pts) || fresh(pts))
      ensures Reader(cmd', args', rargs', Pen(q, c, Points()), init, plist) ==
              CommandRead(xform, old(Reader(cmd, args, rargs, Pen(cp, cp2, Points()), init, plist)), letter)
    {
      hide Committed;
      cmd', args', q, c := letter, args, cp, cp2;
      ghost var was := Points();
      if cmd' in "mM" {
        Commit(false);
        ResetPath();
        args' := [];
      } else if !init {
        cmd' := NO_COMMAND;
      }
      if cmd' in "zZ" {
        if npts > 0 {
          q := At(0);
          c := q;
        }
        Commit(true);
        ResetPath();
        MoveTo(q);
        args' := [];
      }
      rargs' := ArgsPer(cmd');
      if rargs' == -1 {
        cmd', rargs' := NO_COMMAND, 0;
      }
    }

    /** Adds the buffer as a path, if there is anything in it. */
    method Commit(closed: bool)
      requires Valid()
      modifies this, pts
      ensures Valid() && plist == Committed(old(plist), old(Points()), closed, xform)
      ensures pts == old(pts) || fresh(pts)
    {
      if npts > 0 {
        AddPath(closed);
      }
    }

    /** nsvg__parsePath, for the path data d. */
    method ParsePath(d: string)
      requires Valid()
      modifies this, pts
      ensures Valid() && plist == PathsOf(w, xform, old(plist), d)
      ensures GoodPaths(old(plist)) ==> GoodPaths(plist)
    {
      hide NumberRead, CommandRead, Committed, GoodPaths, NextItem, NextFlagOrItem, IsCoordinate;
      ResetPath();
      var s, cmd: char, rargs, args: seq<real> := d, NO_COMMAND, 0, [];
      var cp, cp2, init := Pt(0.0, 0.0), Pt(0.0, 0.0), false;
      ghost var start := Start(plist);
      while s != ""
        invariant Valid() && (pts == old(pts) || fresh(pts))
        invariant ReaderOk(Reader(cmd, args, rargs, Pen(cp, cp2, Points()), init, plist))
        invariant AllRead(w, xform, Reader(cmd, args, rargs, Pen(cp, cp2, Points()), init, plist), s) ==
                  AllRead(w, xform, start, d)
        decreases |s|
      {
        ghost var r := Reader(cmd, args, rargs, Pen(cp, cp2, Points()), init, plist);
        ghost var was := s;
        var item: string;
        item, s := GetItem(s, cmd in "aA" && (|args| == 3 || |args| == 4));
        if item == "" {
          NothingLeft(w, xform, r, was, s);
          break;
        }
        ReadOn(w, xform, r, was, item, s);
        if cmd != NO_COMMAND && IsCoordinate(item) {
          cmd, args, rargs, cp, cp2, init := ReadNumber(w.atof(item), cmd, args, rargs, cp, cp2, init);
        } else {
          cmd, args, rargs, cp, cp2 := ReadCommand(item[0], args, cp, cp2, init, cmd, rargs);
        }
        assert Reader(cmd, args, rargs, Pen(cp, cp2, Points()), init, plist) == ItemRead(w, xform, r, item);
      }
      PathsAreGoodIf(w, xform, old(plist), d);
      Commit(false);
    }

    // ----- basic shapes -----

    /** nsvg__parseRect, once the attributes have been read; negative radii mark those that were not given. */
    method ParseRect(x: real, y: real, width: real, height: real, rx0: real, ry0: real)
      requires Valid()
      modifies this, pts
      ensures Valid()
      ensures plist == if width != 0.0 && height != 0.0
                       then Committed(old(plist), RectPoints(x, y, width, height, Radii(width, height, rx0, ry0)), true,
                                      xform)
                       else old(plist)
      ensures GoodPaths(old(plist)) ==> GoodPaths(plist)
    {
      hide LinedTo, CurvedTo, Committed, GoodPaths;
      var rx, ry := rx0, ry0;
      if rx < 0.0 && ry > 0.0 { rx := ry; }
      if ry < 0.0 && rx > 0.0 { ry := rx; }
      if rx < 0.0 { rx := 0.0; }
      if ry < 0.0 { ry := 0.0; }
      if rx > width / 2.0 { rx := width / 2.0; }
      if ry > height / 2.0 { ry := height / 2.0; }
      assert (rx, ry) == Radii(width, height, rx0, ry0);
      hide Radii;
      if width != 0.0 && height != 0.0 {
        ResetPath();
        if rx < 0.00001 || ry < 0.0001 {
          MoveTo(Pt(x, y));
          LineTo(Pt(x + width, y));
          LineTo(Pt(x + width, y + height));
          LineTo(Pt(x, y + height));
        } else {
          RoundedRect(x, y, width, height, rx, ry);
        }
        GoodIfCommitted(plist, Points(), true, xform);
        AddPath(true);
      }
    }

    method RoundedRect(x: real, y: real, width: real, height: real, rx: real, ry: real)
      requires Valid() && npts == 0
      modifies this, pts
      ensures Valid() && Points() == RoundedPoints(x, y, width, height, rx, ry) && plist == old(plist)
      ensures pts == old(pts) || fresh(pts)
    {
      hide LinedTo, CurvedTo;
      var kx, ky := rx * (1.0 - KAPPA90), ry * (1.0 - KAPPA90);
      MoveTo(Pt(x + rx, y));
      LineTo(Pt(x + width - rx, y));
      CubicBezTo(Pt(x + width - kx, y), Pt(x + width, y + ky), Pt(x + width, y + ry));
      LineTo(Pt(x + width, y + height - ry));
      CubicBezTo(Pt(x + width, y + height - ky), Pt(x + width - kx, y + height), Pt(x + width - rx, y + height));
      LineTo(Pt(x + rx, y + height));
      CubicBezTo(Pt(x + kx, y + height), Pt(x, y + height - ky), Pt(x, y + height - ry));
      LineTo(Pt(x, y + ry));
      CubicBezTo(Pt(x, y + ky), Pt(x + kx, y), Pt(x + rx, y));
    }

    /** nsvg__parseEllipse, and nsvg__parseCircle with equal radii. */
    method ParseEllipse(cx: real, cy: real, rx: real, ry: real)
      requires Valid()
      modifies this, pts
      ensures Valid()
      ensures plist == if rx > 0.0 && ry > 0.0 then Committed(old(plist), EllipsePoints(cx, cy, rx, ry), true, xform)
                       else old(plist)
      ensures GoodPaths(old(plist)) ==> GoodPaths(plist)
    {
      hide CurvedTo, Committed, GoodPaths;
      if rx > 0.0 && ry > 0.0 {
        ResetPath();
        var kx, ky := rx * KAPPA90, ry * KAPPA90;
        MoveTo(Pt(cx + rx, cy));
        CubicBezTo(Pt(cx + rx, cy + ky), Pt(cx + kx, cy + ry), Pt(cx, cy + ry));
        CubicBezTo(Pt(cx - kx, cy + ry), Pt(cx - rx, cy + ky), Pt(cx - rx, cy));
        CubicBezTo(Pt(cx - rx, cy - ky), Pt(cx - kx, cy - ry), Pt(cx, cy - ry));
        CubicBezTo(Pt(cx + kx, cy - ry), Pt(cx + rx, cy - ky), Pt(cx + rx, cy));
        GoodIfCommitted(plist, Points(), true, xform);
        AddPath(true);
      }
    }

    method ParseLine(p: Pt, q: Pt)
      requires Valid()
      modifies this, pts
      ensures Valid()
      ensures plist == [SvgPath(Transformed([p, Third(p, q), Third(q, p), q], xform), false)] + old(plist)
      ensures GoodPaths(old(plist)) ==> GoodPaths(plist)
    {
      hide Third, Transformed, GoodPaths;
      ResetPath();
      MoveTo(p);
      LineTo(q);
      assert [p] + [Third(p, q), Third(q, p), q] == [p, Third(p, q), Third(q, p), q];
      GoodIfCommitted(plist, Points(), false, xform);
      AddPath(false);
    }

    /** nsvg__parsePoly, for the point list s. */
    method ParsePoly(s: string, close: bool)
      requires Valid()
      modifies this, pts
      ensures Valid() && plist == Committed(old(plist), PolyPoints(w, [], [], s), close, xform)
      ensures GoodPaths(old(plist)) ==> GoodPaths(plist)
    {
      hide LinedTo, MovedTo, Committed, GoodPaths, NextItem;
      ResetPath();
      var rest, args: seq<real> := s, [];
      while rest != ""
        invariant Valid() && plist == old(plist) && (pts == old(pts) || fresh(pts)) && |args| < 2
        invariant PolyPoints(w, args, Points(), rest) == PolyPoints(w, [], [], s)
        decreases |rest|
      {
        var item: string;
        item, rest := GetNextPathItem(rest);
        args := args + [w.atof(item)];
        if |args| >= 2 {
          if npts == 0 {
            MoveTo(Pt(args[0], args[1]));
          } else {
            LineTo(Pt(args[0], args[1]));
          }
          args := [];
        }
      }
      GoodIfCommitted(plist, Points(), close, xform);
      AddPath(close);
    }
  }

  lemma GoodIfCommitted(paths: seq<SvgPath>, ps: seq<Pt>, closed: bool, m: Transform.Affine)
    requires Shaped(|ps|)
    ensures GoodPaths(paths) ==> GoodPaths(Committed(paths, ps, closed, m))
  {
    hide GoodPaths, Committed;
    if GoodPaths(paths) {
      CommittedIsGood(paths, ps, closed, m);
    }
  }

  lemma PathsAreGoodIf(w: World, m: Transform.Affine, paths: seq<SvgPath>, d: string)
    ensures GoodPaths(paths) ==> GoodPaths(PathsOf(w, m, paths, d))
  {
    hide GoodPaths, PathsOf;
    if GoodPaths(paths) {
      PathsAreGood(w, m, paths, d);
    }
  }

  lemma NothingLeft(w: World, m: Transform.Affine, r: Reader, s: string, rest: string)
    requires ReaderOk(r) && s != "" && ("", rest) == if FlagDue(r) then NextFlagOrItem(s) else NextItem(s)
    ensures AllRead(w, m, r, s) == r
  {
    hide NextItem, NextFlagOrItem;
  }

  lemma ReadOn(w: World, m: Transform.Affine, r: Reader, s: string, item: string, rest: string)
    requires ReaderOk(r) && s != "" && item != ""
    requires (item, rest) == if FlagDue(r) then NextFlagOrItem(s) else NextItem(s)
    ensures AllRead(w, m, r, s) == AllRead(w, m, ItemRead(w, m, r, item), rest)
  {
    hide NextItem, NextFlagOrItem, ItemRead;
  }

  // ----- the points of the basic shapes -----

  function Least(a: real, b: real): real {
    if a < b then a else b
  }

  /** A missing radius is the other one; neither goes past the middle of the rectangle. */
  function Radii(width: real, height: real, rx: real, ry: real): (r: (real, real))
    ensures width > 0.0 && height > 0.0 ==> 0.0 <= r.0 <= width / 2.0 && 0.0 <= r.1 <= height / 2.0
  {
    var rx' := if rx < 0.0 && ry > 0.0 then ry else if rx < 0.0 then 0.0 else rx;
    var ry' := if ry < 0.0 && rx > 0.0 then rx else if ry < 0.0 then 0.0 else ry;
    (Least(rx', width / 2.0), Least(ry', height / 2.0))
  }

  // A rounded rectangle by its coordinates: the sides, where the corners begin (xa, xb, ya, yb), and their controls.
  function Rounded(x0: real, y0: real, x1: real, y1: real, xa: real, xb: real, ya: real, yb: real,
                   xk: real, xl: real, yk: real, yl: real): seq<Pt>
  {
    var a := LinedTo([Pt(xa, y0)], Pt(xb, y0));
    var b := CurvedTo(a, Pt(xl, y0), Pt(x1, yk), Pt(x1, ya));
    var c := LinedTo(b, Pt(x1, yb));
    var d := CurvedTo(c, Pt(x1, yl), Pt(xl, y1), Pt(xb, y1));
    var e := LinedTo(d, Pt(xa, y1));
    var f := CurvedTo(e, Pt(xk, y1), Pt(x0, yl), Pt(x0, yb));
    CurvedTo(LinedTo(f, Pt(x0, ya)), Pt(x0, yk), Pt(xk, y0), Pt(xa, y0))
  }

  function RoundedPoints(x: real, y: real, width: real, height: real, rx: real, ry: real): seq<Pt> {
    var kx, ky := rx * (1.0 - KAPPA90), ry * (1.0 - KAPPA90);
    Rounded(x, y, x + width, y + height, x + rx, x + width - rx, y + ry, y + height - ry,
            x + kx, x + width - kx, y + ky, y + height - ky)
  }

  function RectPoints(x: real, y: real, width: real, height: real, r: (real, real)): seq<Pt> {
    if r.0 < 0.00001 || r.1 < 0.0001 then
      LinedTo(LinedTo(LinedTo([Pt(x, y)], Pt(x + width, y)), Pt(x + width, y + height)), Pt(x, y + height))
    else RoundedPoints(x, y, width, height, r.0, r.1)
  }

  function EllipsePoints(cx: real, cy: real, rx: real, ry: real): seq<Pt> {
    var kx, ky := rx * KAPPA90, ry * KAPPA90;
    var a := CurvedTo([Pt(cx + rx, cy)], Pt(cx + rx, cy + ky), Pt(cx + kx, cy + ry), Pt(cx, cy + ry));
    var b := CurvedTo(a, Pt(cx - kx, cy + ry), Pt(cx - rx, cy + ky), Pt(cx - rx, cy));
    var c := CurvedTo(b, Pt(cx - rx, cy - ky), Pt(cx - kx, cy - ry), Pt(cx, cy - ry));
    CurvedTo(c, Pt(cx + kx, cy - ry), Pt(cx + rx, cy - ky), Pt(cx + rx, cy))
  }

  /** The points of a point list, read two numbers at a time; an item that is no number counts as one all the same. */
  function PolyPoints(w: World, args: seq<real>, ps: seq<Pt>, s: string): seq<Pt>
    requires |args| < 2
    decreases |s|
  {
    if s == "" then ps
    else
      var (item, rest) := NextItem(s);
      var args' := args + [w.atof(item)];
      if |args'| < 2 then PolyPoints(w, args', ps, rest)
      else
        var q := Pt(args'[0], args'[1]);
        PolyPoints(w, [], if ps == [] then MovedTo(ps, q) else LinedTo(ps, q), rest)
  }

  /** A box, and points within it. */
  datatype Box = Box(x0: real, y0: real, x1: real, y1: real)

  predicate Inside(b: Box, q: Pt) {
    b.x0 <= q.x <= b.x1 && b.y0 <= q.y <= b.y1
  }

  predicate AllInside(b: Box, ps: seq<Pt>) {
    ps != [] && forall i :: 0 <= i < |ps| ==> Inside(b, ps[i])
  }

  lemma CurvedInside(b: Box, ps: seq<Pt>, c1: Pt, c2: Pt, q: Pt)
    requires AllInside(b, ps) && Inside(b, c1) && Inside(b, c2) && Inside(b, q)
    ensures AllInside(b, CurvedTo(ps, c1, c2, q))
  {
    hide Inside;
  }

  lemma ThirdInside(b: Box, p: Pt, q: Pt)
    requires Inside(b, p) && Inside(b, q)
    ensures Inside(b, Third(p, q))
  {
  }

  lemma LinedInside(b: Box, ps: seq<Pt>, q: Pt)
    requires AllInside(b, ps) && Inside(b, q)
    ensures AllInside(b, LinedTo(ps, q))
  {
    hide Inside, Third;
    var p := ps[|ps| - 1];
    ThirdInside(b, p, q);
    ThirdInside(b, q, p);
    CurvedInside(b, ps, Third(p, q), Third(q, p), q);
  }

  /** The box between two opposite corners. */
  function BoxOf(x0: real, y0: real, x1: real, y1: real): Box {
    Box(if x0 < x1 then x0 else x1, if y0 < y1 then y0 else y1, if x0 < x1 then x1 else x0, if y0 < y1 then y1 else y0)
  }

  lemma NegativeIsPlain(width: real, height: real, rx: real, ry: real)
    requires width <= 0.0 || height <= 0.0
    ensures var r := Radii(width, height, rx, ry); r.0 < 0.00001 || r.1 < 0.0001
  {
  }

  /** A rectangle's path, rounded corners, control points and closing line included, stays between the rectangle's
      corners, also for a negative width or height, which the code draws the other way. */
  lemma RectInside(x: real, y: real, width: real, height: real, rx: real, ry: real)
    ensures AllInside(BoxOf(x, y, x + width, y + height),
                      Outline(RectPoints(x, y, width, height, Radii(width, height, rx, ry)), true))
  {
    var b := BoxOf(x, y, x + width, y + height);
    var r := Radii(width, height, rx, ry);
    if width <= 0.0 || height <= 0.0 {
      NegativeIsPlain(width, height, rx, ry);
    }
    hide Radii, RoundedPoints;
    assert Inside(b, Pt(x + width, y)) && Inside(b, Pt(x + width, y + height)) && Inside(b, Pt(x, y + height));
    assert AllInside(b, [Pt(x, y)]);
    hide Inside, AllInside, LinedTo;
    if r.0 < 0.00001 || r.1 < 0.0001 {
      var p1 := LinedTo([Pt(x, y)], Pt(x + width, y));
      LinedInside(b, [Pt(x, y)], Pt(x + width, y));
      var p2 := LinedTo(p1, Pt(x + width, y + height));
      LinedInside(b, p1, Pt(x + width, y + height));
      LinedInside(b, p2, Pt(x, y + height));
    } else {
      RoundedRectInside(x, y, width, height, r.0, r.1);
    }
    var ps := RectPoints(x, y, width, height, r);
    hide RectPoints;
    FirstInside(b, ps);
    LinedInside(b, ps, ps[0]);
  }

  lemma RoundedRectInside(x: real, y: real, width: real, height: real, rx: real, ry: real)
    requires 0.0 <= rx <= width / 2.0 && 0.0 <= ry <= height / 2.0
    ensures AllInside(Box(x, y, x + width, y + height), RoundedPoints(x, y, width, height, rx, ry))
  {
    hide Rounded, AllInside;
    var kx, ky := rx * (1.0 - KAPPA90), ry * (1.0 - KAPPA90);
    assert 0.0 <= kx <= rx && 0.0 <= ky <= ry;
    RoundedInside(Box(x, y, x + width, y + height), x + rx, x + width - rx, y + ry, y + height - ry, x + kx,
                  x + width - kx, y + ky, y + height - ky);
  }

  lemma FirstInside(b: Box, ps: seq<Pt>)
    requires AllInside(b, ps)
    ensures ps != [] && Inside(b, ps[0])
  {
  }

  lemma RoundedInside(b: Box, xa: real, xb: real, ya: real, yb: real, xk: real, xl: real, yk: real, yl: real)
    requires b.x0 <= xa <= b.x1 && b.x0 <= xb <= b.x1 && b.x0 <= xk <= b.x1 && b.x0 <= xl <= b.x1
    requires b.y0 <= ya <= b.y1 && b.y0 <= yb <= b.y1 && b.y0 <= yk <= b.y1 && b.y0 <= yl <= b.y1
    ensures AllInside(b, Rounded(b.x0, b.y0, b.x1, b.y1, xa, xb, ya, yb, xk, xl, yk, yl))
  {
    assert AllInside(b, [Pt(xa, b.y0)]);
    hide AllInside, LinedTo, CurvedTo;
    LinedInside(b, [Pt(xa, b.y0)], Pt(xb, b.y0));
    var p1 := LinedTo([Pt(xa, b.y0)], Pt(xb, b.y0));
    CurvedInside(b, p1, Pt(xl, b.y0), Pt(b.x1, yk), Pt(b.x1, ya));
    var p2 := CurvedTo(p1, Pt(xl, b.y0), Pt(b.x1, yk), Pt(b.x1, ya));
    LinedInside(b, p2, Pt(b.x1, yb));
    var p3 := LinedTo(p2, Pt(b.x1, yb));
    CurvedInside(b, p3, Pt(b.x1, yl), Pt(xl, b.y1), Pt(xb, b.y1));
    var p4 := CurvedTo(p3, Pt(b.x1, yl), Pt(xl, b.y1), Pt(xb, b.y1));
    LinedInside(b, p4, Pt(xa, b.y1));
    var p5 := LinedTo(p4, Pt(xa, b.y1));
    CurvedInside(b, p5, Pt(xk, b.y1), Pt(b.x0, yl), Pt(b.x0, yb));
    var p6 := CurvedTo(p5, Pt(xk, b.y1), Pt(b.x0, yl), Pt(b.x0, yb));
    LinedInside(b, p6, Pt(b.x0, ya));
    CurvedInside(b, LinedTo(p6, Pt(b.x0, ya)), Pt(b.x0, yk), Pt(xk, b.y0), Pt(xa, b.y0));
  }

  /** An ellipse's path stays within its bounding box. */
  lemma EllipseInside(cx: real, cy: real, rx: real, ry: real)
    requires rx > 0.0 && ry > 0.0
    ensures AllInside(Box(cx - rx, cy - ry, cx + rx, cy + ry), EllipsePoints(cx, cy, rx, ry))
  {
    var b := Box(cx - rx, cy - ry, cx + rx, cy + ry);
    var kx, ky := rx * KAPPA90, ry * KAPPA90;
    assert 0.0 <= kx <= rx && 0.0 <= ky <= ry;
    assert AllInside(b, [Pt(cx + rx, cy)]);
    hide AllInside, CurvedTo;
    var p0 := [Pt(cx + rx, cy)];
    CurvedInside(b, p0, Pt(cx + rx, cy + ky), Pt(cx + kx, cy + ry), Pt(cx, cy + ry));
    var p1 := CurvedTo(p0, Pt(cx + rx, cy + ky), Pt(cx + kx, cy + ry), Pt(cx, cy + ry));
    CurvedInside(b, p1, Pt(cx - kx, cy + ry), Pt(cx - rx, cy + ky), Pt(cx - rx, cy));
    var p2 := CurvedTo(p1, Pt(cx - kx, cy + ry), Pt(cx - rx, cy + ky), Pt(cx - rx, cy));
    CurvedInside(b, p2, Pt(cx - rx, cy - ky), Pt(cx - kx, cy - ry), Pt(cx, cy - ry));
    var p3 := CurvedTo(p2, Pt(cx - rx, cy - ky), Pt(cx - kx, cy - ry), Pt(cx, cy - ry));
    CurvedInside(b, p3, Pt(cx + kx, cy - ry), Pt(cx + rx, cy - ky), Pt(cx + rx, cy));
  }

  lemma ThirdsOf(p: Pt, q: Pt)
    ensures Third(p, q) == Pt(p.x + (q.x - p.x) / 3.0, p.y + (q.y - p.y) / 3.0)
    ensures Third(q, p) == Pt(q.x - (q.x - p.x) / 3.0, q.y - (q.y - p.y) / 3.0)
  {
  }
}
