/** flattenCubicBez, addPathPoint and flattenShape (src/External/nanosvg/nanosvgrast.h).

    A cubic is halved until it is flat or the recursion passes level 10. The claim behind the algorithm is that every
    point it hands on is a point of the original curve, further along than the one before. Parameters are counted on the
    grid of 1024ths, the finest one eleven levels can reach. */
module Flatten {
  import opened Edges
  import Stroke

  datatype Cubic = Cubic(p1: Pt, p2: Pt, p3: Pt, p4: Pt)

  datatype PathPoint = PathPoint(p: Pt, corner: bool)

  const GRID := 1024

  function Mid(a: Pt, b: Pt): Pt {
    Pt((a.x + b.x) * 0.5, (a.y + b.y) * 0.5)
  }

  function LeftHalf(c: Cubic): Cubic {
    var p12, p23, p34 := Mid(c.p1, c.p2), Mid(c.p2, c.p3), Mid(c.p3, c.p4);
    var p123, p234 := Mid(p12, p23), Mid(p23, p34);
    Cubic(c.p1, p12, p123, Mid(p123, p234))
  }

  function RightHalf(c: Cubic): Cubic {
    var p12, p23, p34 := Mid(c.p1, c.p2), Mid(c.p2, c.p3), Mid(c.p3, c.p4);
    var p123, p234 := Mid(p12, p23), Mid(p23, p34);
    Cubic(Mid(p123, p234), p234, p34, c.p4)
  }

  function Abs(x: real): real {
    if x < 0.0 then -x else x
  }

  /** Squared length of the chord. */
  function Span(c: Cubic): real {
    var dx, dy := c.p4.x - c.p1.x, c.p4.y - c.p1.y;
    dx * dx + dy * dy
  }

  /** Cross product with the chord: q's distance from its line, times its length. */
  function Across(c: Cubic, q: Pt): real {
    (q.x - c.p4.x) * (c.p4.y - c.p1.y) - (q.y - c.p4.y) * (c.p4.x - c.p1.x)
  }

  predicate Flat(c: Cubic, tessTol: real) {
    var d2, d3 := Abs(Across(c, c.p2)), Abs(Across(c, c.p3));
    (d2 + d3) * (d2 + d3) < tessTol * Span(c)
  }

  /** The points handed to addPathPoint, in order. */
  function Handed(c: Cubic, level: nat, tessTol: real, corner: bool): (r: seq<PathPoint>)
    decreases 11 - level
  {
    if level > 10 then []
    else if Flat(c, tessTol) then [PathPoint(c.p4, corner)]
    else Handed(LeftHalf(c), level + 1, tessTol, false) + Handed(RightHalf(c), level + 1, tessTol, corner)
  }

  // Width of a level's parameter interval in 1024ths.
  function Width(level: nat): (w: nat)
    requires level <= 10
    ensures w > 0
    decreases 10 - level
  {
    if level == 10 then 1 else 2 * Width(level + 1)
  }

  /** The parameters, in 1024ths of the whole curve, that belong to the points of `Handed`. */
  ghost function Params(c: Cubic, level: nat, tessTol: real, start: nat): (r: seq<nat>)
    decreases 11 - level
  {
    if level > 10 then []
    else if Flat(c, tessTol) then [start + Width(level)]
    else if level == 10 then []
    else
      Params(LeftHalf(c), level + 1, tessTol, start)
      + Params(RightHalf(c), level + 1, tessTol, start + Width(level + 1))
  }

  // ----- the curve itself -----

  /** One coordinate of the cubic at parameter t, in Bernstein form (evalBezier in nanosvg.h). */
  function Bernstein(t: real, x1: real, x2: real, x3: real, x4: real): real {
    var it := 1.0 - t;
    it * it * it * x1 + 3.0 * it * it * t * x2 + 3.0 * it * t * t * x3 + t * t * t * x4
  }

  function CurveAt(c: Cubic, t: real): Pt {
    Pt(Bernstein(t, c.p1.x, c.p2.x, c.p3.x, c.p4.x), Bernstein(t, c.p1.y, c.p2.y, c.p3.y, c.p4.y))
  }

  function Lerp(t: real, a: real, b: real): real {
    a + t * (b - a)
  }

  /** The blossom of one coordinate: the symmetric three-parameter form whose diagonal is the curve. */
  function Blossom(u: real, v: real, w: real, x1: real, x2: real, x3: real, x4: real): real {
    var x12, x23, x34 := Lerp(u, x1, x2), Lerp(u, x2, x3), Lerp(u, x3, x4);
    Lerp(w, Lerp(v, x12, x23), Lerp(v, x23, x34))
  }

  function BlossomAt(c: Cubic, u: real, v: real, w: real): Pt {
    Pt(Blossom(u, v, w, c.p1.x, c.p2.x, c.p3.x, c.p4.x), Blossom(u, v, w, c.p1.y, c.p2.y, c.p3.y, c.p4.y))
  }

  /** The piece of c between parameters u and v, as a cubic of its own. */
  function Piece(c: Cubic, u: real, v: real): Cubic {
    Cubic(BlossomAt(c, u, u, u), BlossomAt(c, u, u, v), BlossomAt(c, u, v, v), BlossomAt(c, v, v, v))
  }

  lemma LerpSwap(s: real, t: real, a: real, b: real, c: real)
    ensures Lerp(s, Lerp(t, a, b), Lerp(t, b, c)) == Lerp(t, Lerp(s, a, b), Lerp(s, b, c))
  {
    var p, q := b - a, c - b;
    calc {
      Lerp(s, Lerp(t, a, b), Lerp(t, b, c));
      a + t * p + s * ((b + t * q) - (a + t * p));
      a + t * p + s * (p + t * (q - p));
      a + t * p + s * p + s * (t * (q - p));
      a + s * p + t * p + t * (s * (q - p));
      a + s * p + t * (p + s * (q - p));
      a + s * p + t * ((b + s * q) - (a + s * p));
      Lerp(t, Lerp(s, a, b), Lerp(s, b, c));
    }
  }

  /** The blossom does not care about the order of its arguments. */
  lemma BlossomSymmetric(u: real, v: real, w: real, x1: real, x2: real, x3: real, x4: real)
    ensures Blossom(u, v, w, x1, x2, x3, x4) == Blossom(v, u, w, x1, x2, x3, x4)
    ensures Blossom(u, v, w, x1, x2, x3, x4) == Blossom(u, w, v, x1, x2, x3, x4)
  {
    LerpSwap(v, u, x1, x2, x3);
    LerpSwap(v, u, x2, x3, x4);
    LerpSwap(w, v, Lerp(u, x1, x2), Lerp(u, x2, x3), Lerp(u, x3, x4));
    hide Lerp;
  }

  lemma LerpMid(u: real, v: real, a: real, b: real)
    ensures Lerp((u + v) * 0.5, a, b) == (Lerp(u, a, b) + Lerp(v, a, b)) * 0.5
  {
  }

  /** In its last argument the blossom is affine, so halving the parameter averages the values. */
  lemma BlossomMid(c: Cubic, s: real, t: real, u: real, v: real)
    ensures BlossomAt(c, s, t, (u + v) * 0.5) == Mid(BlossomAt(c, s, t, u), BlossomAt(c, s, t, v))
  {
    hide Lerp;
    LerpMid(u, v, Lerp(t, Lerp(s, c.p1.x, c.p2.x), Lerp(s, c.p2.x, c.p3.x)),
            Lerp(t, Lerp(s, c.p2.x, c.p3.x), Lerp(s, c.p3.x, c.p4.x)));
    LerpMid(u, v, Lerp(t, Lerp(s, c.p1.y, c.p2.y), Lerp(s, c.p2.y, c.p3.y)),
            Lerp(t, Lerp(s, c.p2.y, c.p3.y), Lerp(s, c.p3.y, c.p4.y)));
  }

  lemma BlossomAtSymmetric(c: Cubic, u: real, v: real, w: real)
    ensures BlossomAt(c, u, v, w) == BlossomAt(c, v, u, w)
    ensures BlossomAt(c, u, v, w) == BlossomAt(c, u, w, v)
  {
    hide Blossom;
    BlossomSymmetric(u, v, w, c.p1.x, c.p2.x, c.p3.x, c.p4.x);
    BlossomSymmetric(u, v, w, c.p1.y, c.p2.y, c.p3.y, c.p4.y);
  }

  /** Moving one parameter of three to the middle of u and v, wherever it stands. */
  lemma MidAnywhere(c: Cubic, s: real, t: real, u: real, v: real)
    ensures var m := (u + v) * 0.5;
            BlossomAt(c, s, m, t) == BlossomAt(c, s, t, m) == BlossomAt(c, m, s, t)
              == Mid(BlossomAt(c, s, t, u), BlossomAt(c, s, t, v))
  {
    hide BlossomAt, Mid;
    var m := (u + v) * 0.5;
    BlossomMid(c, s, t, u, v);
    BlossomAtSymmetric(c, s, t, m);
    BlossomAtSymmetric(c, s, m, t);
  }

  /** De Casteljau: the two halves of a piece are the pieces of the two half intervals. */
  lemma HalvesAreHalfIntervals(c: Cubic, u: real, v: real)
    ensures var m := (u + v) * 0.5;
            LeftHalf(Piece(c, u, v)) == Piece(c, u, m) && RightHalf(Piece(c, u, v)) == Piece(c, m, v)
  {
    hide BlossomAt, Mid;
    var m := (u + v) * 0.5;
    BlossomAtSymmetric(c, u, u, v);
    BlossomAtSymmetric(c, u, v, u);
    BlossomAtSymmetric(c, u, v, v);
    BlossomAtSymmetric(c, v, v, u);
    MidAnywhere(c, u, u, u, v);   // p12
    MidAnywhere(c, u, v, u, v);   // p23
    MidAnywhere(c, v, v, u, v);   // p34
    MidAnywhere(c, u, m, u, v);   // p123
    MidAnywhere(c, m, v, u, v);   // p234
    MidAnywhere(c, m, m, u, v);   // p1234
    BlossomAtSymmetric(c, u, m, u);
    BlossomAtSymmetric(c, u, u, m);
    BlossomAtSymmetric(c, m, v, u);
    BlossomAtSymmetric(c, u, m, v);
    BlossomAtSymmetric(c, u, v, m);
    BlossomAtSymmetric(c, m, v, v);
    BlossomAtSymmetric(c, v, v, m);
    BlossomAtSymmetric(c, m, m, u);
    BlossomAtSymmetric(c, m, m, v);
    BlossomAtSymmetric(c, u, m, m);
    BlossomAtSymmetric(c, v, m, m);
  }

  lemma DiagonalIsCurve(t: real, x1: real, x2: real, x3: real, x4: real)
    ensures Blossom(t, t, t, x1, x2, x3, x4) == Bernstein(t, x1, x2, x3, x4)
  {
  }

  lemma WholePiece(c: Cubic)
    ensures Piece(c, 0.0, 1.0) == c
  {
  }

  ghost predicate Increasing(s: seq<nat>) {
    forall i, j :: 0 <= i < j < |s| ==> s[i] < s[j]
  }

  function GridTime(n: int): real {
    n as real / 1024.0
  }

  // What the recursion on one piece, covering [start, start + Width(level)], has to deliver.
  ghost predicate OnCurve(whole: Cubic, handed: seq<PathPoint>, params: seq<nat>, start: nat, end: nat) {
    |handed| == |params| && Increasing(params) &&
    forall i :: 0 <= i < |params| ==>
      start < params[i] <= end && handed[i].p == CurveAt(whole, GridTime(params[i]))
  }

  lemma OnCurveConcat(whole: Cubic, h0: seq<PathPoint>, q0: seq<nat>, h1: seq<PathPoint>, q1: seq<nat>, start: nat,
                      mid: nat, end: nat)
    requires start <= mid <= end
    requires OnCurve(whole, h0, q0, start, mid) && OnCurve(whole, h1, q1, mid, end)
    ensures OnCurve(whole, h0 + h1, q0 + q1, start, end)
  {
    hide CurveAt;
  }

  lemma PieceEnd(whole: Cubic, u: real, v: real)
    ensures Piece(whole, u, v).p4 == CurveAt(whole, v)
  {
    hide Blossom, Bernstein;
    DiagonalIsCurve(v, whole.p1.x, whole.p2.x, whole.p3.x, whole.p4.x);
    DiagonalIsCurve(v, whole.p1.y, whole.p2.y, whole.p3.y, whole.p4.y);
  }

  /** One step of the recursion, for the points and for their parameters. */
  lemma UnfoldFlat(c: Cubic, level: nat, tessTol: real, corner: bool, start: nat)
    requires level <= 10 && Flat(c, tessTol)
    ensures Handed(c, level, tessTol, corner) == [PathPoint(c.p4, corner)]
    ensures Params(c, level, tessTol, start) == [start + Width(level)]
  {
    hide Width, LeftHalf, RightHalf;
  }

  lemma UnfoldDeepest(c: Cubic, tessTol: real, corner: bool, start: nat)
    requires !Flat(c, tessTol)
    ensures Handed(c, 10, tessTol, corner) == [] && Params(c, 10, tessTol, start) == []
  {
    hide Width, Flat, LeftHalf, RightHalf;
    assert Handed(LeftHalf(c), 11, tessTol, false) == [];
    assert Handed(RightHalf(c), 11, tessTol, corner) == [];
  }

  lemma UnfoldCurved(c: Cubic, level: nat, tessTol: real, corner: bool, start: nat)
    requires level < 10 && !Flat(c, tessTol)
    ensures Width(level) == 2 * Width(level + 1)
    ensures Handed(c, level, tessTol, corner)
         == Handed(LeftHalf(c), level + 1, tessTol, false) + Handed(RightHalf(c), level + 1, tessTol, corner)
    ensures Params(c, level, tessTol, start)
         == Params(LeftHalf(c), level + 1, tessTol, start)
            + Params(RightHalf(c), level + 1, tessTol, start + Width(level + 1))
  {
    hide Flat, LeftHalf, RightHalf;
  }

  lemma GridMiddle(start: nat, mid: nat, end: nat)
    requires 2 * mid == start + end
    ensures GridTime(mid) == (GridTime(start) + GridTime(end)) * 0.5
  {
  }

  lemma LeafOnCurve(whole: Cubic, c: Cubic, corner: bool, start: nat, end: nat)
    requires start < end && c.p4 == CurveAt(whole, GridTime(end))
    ensures OnCurve(whole, [PathPoint(c.p4, corner)], [end], start, end)
    ensures OnCurve(whole, [], [], start, end)
  {
    hide CurveAt;
  }

  lemma {:induction false} PieceOnCurve(whole: Cubic, level: nat, tessTol: real, corner: bool, start: nat)
    requires level <= 10
    ensures var c := Piece(whole, GridTime(start), GridTime(start + Width(level)));
            OnCurve(whole, Handed(c, level, tessTol, corner), Params(c, level, tessTol, start), start,
                    start + Width(level))
    decreases 10 - level
  {
    hide Piece, LeftHalf, RightHalf, CurveAt, Flat, Handed, Params, OnCurve, GridTime;
    var end := start + Width(level);
    var c := Piece(whole, GridTime(start), GridTime(end));
    hide Width;
    if Flat(c, tessTol) {
      UnfoldFlat(c, level, tessTol, corner, start);
      PieceEnd(whole, GridTime(start), GridTime(end));
      LeafOnCurve(whole, c, corner, start, end);
    } else if level == 10 {
      UnfoldDeepest(c, tessTol, corner, start);
      PieceEnd(whole, GridTime(start), GridTime(end));
      LeafOnCurve(whole, c, corner, start, end);
    } else {
      UnfoldCurved(c, level, tessTol, corner, start);
      var mid := start + Width(level + 1);
      GridMiddle(start, mid, end);
      HalvesAreHalfIntervals(whole, GridTime(start), GridTime(end));
      PieceOnCurve(whole, level + 1, tessTol, false, start);
      PieceOnCurve(whole, level + 1, tessTol, corner, mid);
      OnCurveConcat(whole, Handed(LeftHalf(c), level + 1, tessTol, false),
                    Params(LeftHalf(c), level + 1, tessTol, start),
                    Handed(RightHalf(c), level + 1, tessTol, corner),
                    Params(RightHalf(c), level + 1, tessTol, mid), start, mid, end);
    }
  }

  lemma {:induction false} HandedCount(c: Cubic, level: nat, tessTol: real, corner: bool)
    requires level <= 10
    ensures |Handed(c, level, tessTol, corner)| <= Width(level)
    decreases 10 - level
  {
    hide LeftHalf, RightHalf, Flat;
    if level < 10 && !Flat(c, tessTol) {
      HandedCount(LeftHalf(c), level + 1, tessTol, false);
      HandedCount(RightHalf(c), level + 1, tessTol, corner);
    }
  }

  lemma WidthAtTop()
    ensures Width(0) == GRID
  {
    assert Width(8) == 4;
    assert Width(6) == 16;
    assert Width(4) == 64;
    assert Width(2) == 256;
  }

  /** Every point handed on is the curve at a multiple of 1/1024, the parameters strictly increase from just after the
      start to at most the end, and there are at most 1024 of them. */
  lemma FlatteningFollowsCurve(c: Cubic, tessTol: real, corner: bool)
    ensures OnCurve(c, Handed(c, 0, tessTol, corner), Params(c, 0, tessTol, 0), 0, GRID)
    ensures |Handed(c, 0, tessTol, corner)| <= GRID
  {
    hide Piece, Handed, Params, CurveAt, Width;
    WidthAtTop();
    WholePiece(c);
    assert GridTime(0) == 0.0 && GridTime(GRID) == 1.0;
    PieceOnCurve(c, 0, tessTol, corner, 0);
    HandedCount(c, 0, tessTol, corner);
  }

  // The recursion's own right-most branch.
  predicate EndIsReached(c: Cubic, level: nat, tessTol: real)
    decreases 11 - level
  {
    level <= 10 && (Flat(c, tessTol) || EndIsReached(RightHalf(c), level + 1, tessTol))
  }

  ghost predicate EndsAt(params: seq<nat>, end: nat) {
    params != [] && params[|params| - 1] == end
  }

  ghost predicate Within(params: seq<nat>, end: nat) {
    forall i :: 0 <= i < |params| ==> params[i] <= end
  }

  lemma EndsAtConcat(q0: seq<nat>, q1: seq<nat>, mid: nat, end: nat)
    requires Within(q0, mid) && Within(q1, end) && mid < end
    ensures Within(q0 + q1, end)
    ensures EndsAt(q0 + q1, end) <==> EndsAt(q1, end)
  {
  }

  predicate LastIs(h: seq<PathPoint>, q: PathPoint) {
    h != [] && h[|h| - 1] == q
  }

  lemma EndIsReachedStep(c: Cubic, level: nat, tessTol: real)
    requires level <= 10
    ensures EndIsReached(c, level, tessTol) <==>
            Flat(c, tessTol) || (level < 10 && EndIsReached(RightHalf(c), level + 1, tessTol))
    ensures RightHalf(c).p4 == c.p4
  {
    hide Flat;
  }

  lemma {:induction false} EndIff(c: Cubic, level: nat, tessTol: real, corner: bool, start: nat)
    requires level <= 10
    ensures Within(Params(c, level, tessTol, start), start + Width(level))
    ensures EndsAt(Params(c, level, tessTol, start), start + Width(level)) <==> EndIsReached(c, level, tessTol)
    ensures EndIsReached(c, level, tessTol) ==> LastIs(Handed(c, level, tessTol, corner), PathPoint(c.p4, corner))
    decreases 10 - level
  {
    hide *;
    EndIsReachedStep(c, level, tessTol);
    if Flat(c, tessTol) {
      UnfoldFlat(c, level, tessTol, corner, start);
      LeafEnds(c, corner, start + Width(level));
    } else if level == 10 {
      UnfoldDeepest(c, tessTol, corner, start);
      NothingEnds(start + Width(level));
    } else {
      UnfoldCurved(c, level, tessTol, corner, start);
      var mid := start + Width(level + 1);
      EndIff(LeftHalf(c), level + 1, tessTol, false, start);
      EndIff(RightHalf(c), level + 1, tessTol, corner, mid);
      EndsAtConcat(Params(LeftHalf(c), level + 1, tessTol, start), Params(RightHalf(c), level + 1, tessTol, mid),
                   mid, mid + Width(level + 1));
      LastConcat(Handed(LeftHalf(c), level + 1, tessTol, false), Handed(RightHalf(c), level + 1, tessTol, corner),
                 PathPoint(c.p4, corner));
    }
  }

  lemma LeafEnds(c: Cubic, corner: bool, end: nat)
    ensures Within([end], end) && EndsAt([end], end) && LastIs([PathPoint(c.p4, corner)], PathPoint(c.p4, corner))
  {
  }

  lemma NothingEnds(end: nat)
    ensures Within([], end) && !EndsAt([], end)
  {
  }

  lemma LastConcat(h0: seq<PathPoint>, h1: seq<PathPoint>, q: PathPoint)
    ensures LastIs(h1, q) ==> LastIs(h0 + h1, q)
  {
  }

  function Half(j: nat): real {
    if j == 0 then 1.0 else Half(j - 1) * 0.5
  }

  /** One of the last pieces of the curve, of half, a quarter, ... of its parameter interval, is flat. */
  ghost predicate FlatNearEnd(c: Cubic, tessTol: real) {
    exists j: nat :: j <= 10 && Flat(Piece(c, 1.0 - Half(j), 1.0), tessTol)
  }

  ghost predicate FlatFrom(c: Cubic, level: nat, tessTol: real) {
    exists j: nat :: level <= j <= 10 && Flat(Piece(c, 1.0 - Half(j), 1.0), tessTol)
  }

  lemma {:induction false} ReachedIsFlatFrom(c: Cubic, level: nat, tessTol: real)
    requires level <= 10
    ensures EndIsReached(Piece(c, 1.0 - Half(level), 1.0), level, tessTol) <==> FlatFrom(c, level, tessTol)
    decreases 10 - level
  {
    hide Flat, Piece, EndIsReached, LeftHalf, RightHalf;
    var last := Piece(c, 1.0 - Half(level), 1.0);
    EndIsReachedStep(last, level, tessTol);
    if level < 10 {
      HalvesAreHalfIntervals(c, 1.0 - Half(level), 1.0);
      assert (1.0 - Half(level) + 1.0) * 0.5 == 1.0 - Half(level + 1);
      ReachedIsFlatFrom(c, level + 1, tessTol);
    }
  }

  ghost predicate BeforeEnd(c: Cubic, q: PathPoint) {
    exists n: nat :: n < GRID && q.p == CurveAt(c, GridTime(n))
  }

  /** The end point of a cubic is handed on, as the last point, exactly when one of its last pieces is flat; otherwise
      every point handed on is the curve strictly before its end. */
  lemma EndPointHandedOnIff(c: Cubic, tessTol: real, corner: bool)
    ensures EndsAt(Params(c, 0, tessTol, 0), GRID) <==> FlatNearEnd(c, tessTol)
    ensures FlatNearEnd(c, tessTol) ==> LastIs(Handed(c, 0, tessTol, corner), PathPoint(c.p4, corner))
    ensures !FlatNearEnd(c, tessTol) ==> forall q :: q in Handed(c, 0, tessTol, corner) ==> BeforeEnd(c, q)
  {
    hide Handed, Params, EndIsReached, Width, Piece, Flat, CurveAt, GridTime, Half;
    WidthAtTop();
    EndIff(c, 0, tessTol, corner, 0);
    WholePiece(c);
    assert Half(0) == 1.0 by { HalfOfNone(); }
    ReachedIsFlatFrom(c, 0, tessTol);
    assert FlatFrom(c, 0, tessTol) <==> FlatNearEnd(c, tessTol);
    FlatteningFollowsCurve(c, tessTol, corner);
    if !FlatNearEnd(c, tessTol) {
      NotAtEnd(c, Handed(c, 0, tessTol, corner), Params(c, 0, tessTol, 0));
    }
  }

  lemma HalfOfNone()
    ensures Half(0) == 1.0
  {
  }

  lemma NotAtEnd(c: Cubic, handed: seq<PathPoint>, params: seq<nat>)
    requires OnCurve(c, handed, params, 0, GRID) && !EndsAt(params, GRID)
    ensures forall q :: q in handed ==> BeforeEnd(c, q)
  {
    hide CurveAt, GridTime;
    forall q | q in handed ensures BeforeEnd(c, q) {
      var i :| 0 <= i < |handed| && handed[i] == q;
      var last := |params| - 1;
      assert i < last ==> params[i] < params[last];
      assert params[i] < GRID;
    }
  }

  // ----- an end point that is lost -----

  /** A symmetric arch, three million units wide. */
  const ARCH := Cubic(Pt(0.0, 0.0), Pt(1000000.0, 1000000.0), Pt(2000000.0, 1000000.0), Pt(3000000.0, 0.0))

  /** The last piece of the arch, of parameter length h. */
  lemma ArchPiece(h: real)
    ensures var k := 1000000.0;
            Piece(ARCH, 1.0 - h, 1.0) ==
            Cubic(Pt(3.0 * k * (1.0 - h), 3.0 * k * ((1.0 - h) * h)), Pt(3.0 * k - 2.0 * k * h, k * (h * (2.0 - h))),
                  Pt(3.0 * k - k * h, k * h), Pt(3.0 * k, 0.0))
  {
  }

  lemma ArchIsCurved(h: real)
    requires 1.0 / 1024.0 <= h <= 1.0
    ensures !Flat(Piece(ARCH, 1.0 - h, 1.0), 0.25)
  {
    ArchPiece(h);
    var k, u := 1000000.0, h * h * h;
    var c := Piece(ARCH, 1.0 - h, 1.0);
    var d, dx, dy := 3.0 * k * k * u, 3.0 * k * h, -(3.0 * k * ((1.0 - h) * h));
    hide Piece;
    ArchOffsets(h, c, d, dx, dy);
    Steep(h, d, dx, dy);
    NotFlat(c, d, dx, dy);
  }

  lemma ArchOffsets(h: real, c: Cubic, d: real, dx: real, dy: real)
    requires 0.0 <= h <= 1.0
    requires var k := 1000000.0;
             c == Cubic(Pt(3.0 * k * (1.0 - h), 3.0 * k * ((1.0 - h) * h)),
                        Pt(3.0 * k - 2.0 * k * h, k * (h * (2.0 - h))),
                        Pt(3.0 * k - k * h, k * h), Pt(3.0 * k, 0.0)) &&
             d == 3.0 * k * k * (h * h * h) && dx == 3.0 * k * h && dy == -(3.0 * k * ((1.0 - h) * h))
    ensures dx == c.p4.x - c.p1.x && dy == c.p4.y - c.p1.y && d >= 0.0
    ensures (c.p2.x - c.p4.x) * dy - (c.p2.y - c.p4.y) * dx == -d
    ensures (c.p3.x - c.p4.x) * dy - (c.p3.y - c.p4.y) * dx == -d
  {
    var k, q, r := 1000000.0, h * h, h * h * h;
    assert (1.0 - h) * h == h - q && h * (2.0 - h) == 2.0 * h - q;
    assert (h - q) * h == q - r && (2.0 * h - q) * h == 2.0 * q - r;
    assert h * (h - q) == q - r;
    Squares(0.0, h);
    assert 0.0 <= q * h;
    Crossed(-2.0 * k, h, -3.0 * k, h - q, k, 2.0 * h - q, 3.0 * k, q - r, 2.0 * q - r);
    Crossed(-k, h, -3.0 * k, h - q, k, h, 3.0 * k, q - r, q);
  }

  // (a h)(b y) - (c z)(e h), with the products of h taken out.
  lemma Crossed(a: real, h: real, b: real, y: real, c: real, z: real, e: real, hy: real, zh: real)
    requires h * y == hy && z * h == zh
    ensures (a * h) * (b * y) - (c * z) * (e * h) == (a * b) * hy - (c * e) * zh
  {
    assert (a * h) * (b * y) == (a * b) * (h * y);
    assert (c * z) * (e * h) == (c * e) * (z * h);
  }

  lemma NotFlat(c: Cubic, d: real, dx: real, dy: real)
    requires dx == c.p4.x - c.p1.x && dy == c.p4.y - c.p1.y && d >= 0.0
    requires (c.p2.x - c.p4.x) * dy - (c.p2.y - c.p4.y) * dx == -d
    requires (c.p3.x - c.p4.x) * dy - (c.p3.y - c.p4.y) * dx == -d
    requires (2.0 * d) * (2.0 * d) >= 0.25 * (dx * dx + dy * dy)
    ensures !Flat(c, 0.25)
  {
    assert d + d == 2.0 * d;
  }

  lemma Squares(a: real, b: real)
    requires 0.0 <= a <= b
    ensures 0.0 <= a * a <= b * b
  {
    assert b * b - a * a == (b - a) * (b + a);
  }

  lemma Steep(h: real, d: real, dx: real, dy: real)
    requires 1.0 / 1024.0 <= h <= 1.0
    requires var k := 1000000.0;
             d == 3.0 * k * k * (h * h * h) && dx == 3.0 * k * h && dy == -(3.0 * k * ((1.0 - h) * h))
    ensures (2.0 * d) * (2.0 * d) >= 0.25 * (dx * dx + dy * dy)
  {
    var k, q := 1000000.0, h * h;
    var rest := 1.0 - h;
    Squares(1.0 / 1024.0, h);
    Squares(rest, 1.0);
    Squares(1.0 / 1048576.0, q);
    assert q * q >= 1.0 / 1048576.0 * (1.0 / 1048576.0);
    assert (2.0 * d) * (2.0 * d) == 36.0 * k * k * k * k * (q * (q * q));
    assert dx * dx == 9.0 * k * k * q && dy * dy == 9.0 * k * k * (q * (rest * rest));
    assert q * (rest * rest) <= q;
    assert q * (q * q) >= q * (1.0 / 1048576.0 * (1.0 / 1048576.0));
  }

  lemma HalfAtLeast(j: nat)
    requires j <= 10
    ensures 1.0 / 1024.0 <= Half(j) <= 1.0
  {
    assert Half(2) == 0.25 && Half(4) == 0.0625 && Half(6) == 0.015625 && Half(8) == 0.00390625;
    assert Half(1) == 0.5 && Half(3) == 0.125 && Half(5) == 0.03125 && Half(7) == 0.0078125;
    assert Half(9) == 0.001953125 && Half(10) == 0.0009765625;
    assert 0 <= j <= 10;
    assert j in {0, 1, 2, 3, 4, 5, 6, 7, 8, 9, 10};
  }

  /** At the tolerance the rasterizer uses, the arch loses its end: no point handed on is the point it ends at. */
  lemma ArchLosesItsEnd(corner: bool)
    ensures forall q :: q in Handed(ARCH, 0, 0.25, corner) ==> q.p != ARCH.p4
  {
    hide Handed, Params, Flat, Piece, Half, EndsAt, LastIs;
    forall j: nat | j <= 10 ensures !Flat(Piece(ARCH, 1.0 - Half(j), 1.0), 0.25) {
      HalfAtLeast(j);
      ArchIsCurved(Half(j));
    }
    EndPointHandedOnIff(ARCH, 0.25, corner);
    forall q | q in Handed(ARCH, 0, 0.25, corner) ensures q.p != ARCH.p4 {
      assert BeforeEnd(ARCH, q);
      var n: nat :| n < GRID && q.p == CurveAt(ARCH, GridTime(n));
      ArchAdvances(GridTime(n));
    }
  }

  lemma ArchAdvances(t: real)
    ensures CurveAt(ARCH, t).x == 3000000.0 * t
  {
  }

  // ----- the point buffer -----

  predicate Near(a: Pt, b: Pt, tol: real) {
    (b.x - a.x) * (b.x - a.x) + (b.y - a.y) * (b.y - a.y) < tol * tol
  }

  /** addPathPoint: a point near the last one only merges its flag into it. */
  function Appended(points: seq<PathPoint>, q: PathPoint, distTol: real): (r: seq<PathPoint>)
    ensures r != []
  {
    var n := |points|;
    if n > 0 && Near(points[n - 1].p, q.p, distTol) then
      points[..n - 1] + [PathPoint(points[n - 1].p, points[n - 1].corner || q.corner)]
    else
      points + [q]
  }

  function AppendedAll(points: seq<PathPoint>, qs: seq<PathPoint>, distTol: real): seq<PathPoint>
    decreases |qs|
  {
    if qs == [] then points else AppendedAll(Appended(points, qs[0], distTol), qs[1..], distTol)
  }

  lemma {:induction false} AppendedAllConcat(points: seq<PathPoint>, a: seq<PathPoint>, b: seq<PathPoint>,
                                             distTol: real)
    ensures AppendedAll(points, a + b, distTol) == AppendedAll(AppendedAll(points, a, distTol), b, distTol)
    decreases |a|
  {
    hide Appended;
    if a == [] {
      assert a + b == b;
    } else {
      assert (a + b)[1..] == a[1..] + b;
      AppendedAllConcat(Appended(points, a[0], distTol), a[1..], b, distTol);
    }
  }

  /** The merged buffer never holds two neighbours nearer than the tolerance. */
  ghost predicate Spread(points: seq<PathPoint>, distTol: real) {
    forall i :: 0 < i < |points| ==> !Near(points[i - 1].p, points[i].p, distTol)
  }

  function Scaled(p: Pt, scale: real): Pt {
    Pt(p.x * scale, p.y * scale)
  }

  function CubicAt(pts: seq<Pt>, i: nat, scale: real): Cubic
    requires i + 3 < |pts|
  {
    Cubic(Scaled(pts[i], scale), Scaled(pts[i + 1], scale), Scaled(pts[i + 2], scale), Scaled(pts[i + 3], scale))
  }

  /** The flattened path: its start, then each cubic's points, k cubics deep. */
  function FlattenedTo(pts: seq<Pt>, k: nat, scale: real, tessTol: real, distTol: real, corner: bool)
    : (r: seq<PathPoint>)
    requires 3 * k < |pts|
  {
    if k == 0 then Appended([], PathPoint(Scaled(pts[0], scale), corner), distTol)
    else
      AppendedAll(FlattenedTo(pts, k - 1, scale, tessTol, distTol, corner),
                  Handed(CubicAt(pts, 3 * (k - 1), scale), 0, tessTol, corner), distTol)
  }

  function FlattenedPath(pts: seq<Pt>, scale: real, tessTol: real, distTol: real): (r: seq<PathPoint>)
    requires |pts| % 3 == 1
    ensures r != []
  {
    Appended(FlattenedTo(pts, |pts| / 3, scale, tessTol, distTol, false), PathPoint(Scaled(pts[0], scale), false),
             distTol)
  }

  function Positions(points: seq<PathPoint>): (r: seq<Pt>)
    ensures |r| == |points|
    ensures forall i :: 0 <= i < |points| ==> r[i] == points[i].p
  {
    seq(|points|, i requires 0 <= i < |points| => points[i].p)
  }

  /** The closed polygon flattenShape draws: from the last point to the first, and on through all of them. */
  function ClosedPolygon(points: seq<PathPoint>): (r: seq<Pt>)
    requires points != []
    ensures Closed(r)
  {
    [points[|points| - 1].p] + Positions(points)
  }

  class PathFlattener {
    var points: seq<PathPoint>
    const tessTol: real
    const distTol: real

    constructor (tessTol: real, distTol: real)
      ensures points == [] && this.tessTol == tessTol && this.distTol == distTol
    {
      points := [];
      this.tessTol, this.distTol := tessTol, distTol;
    }

    method AddPathPoint(p: Pt, corner: bool)
      modifies this
      ensures points == Appended(old(points), PathPoint(p, corner), distTol)
      ensures Spread(old(points), distTol) ==> Spread(points, distTol)
    {
      hide Near;
      var n := |points|;
      if n > 0 && Near(points[n - 1].p, p, distTol) {
        points := points[n - 1 := PathPoint(points[n - 1].p, points[n - 1].corner || corner)];
        return;
      }
      points := points + [PathPoint(p, corner)];
    }

    method FlattenCubicBez(c: Cubic, level: nat, corner: bool)
      modifies this
      ensures points == AppendedAll(old(points), Handed(c, level, tessTol, corner), distTol)
      ensures Spread(old(points), distTol) ==> Spread(points, distTol)
      decreases 11 - level
    {
      hide Flat, LeftHalf, RightHalf, Appended, Near;
      if level > 10 {
        return;
      }
      if Flat(c, tessTol) {
        AddPathPoint(c.p4, corner);
        return;
      }
      FlattenCubicBez(LeftHalf(c), level + 1, false);
      FlattenCubicBez(RightHalf(c), level + 1, corner);
      AppendedAllConcat(old(points), Handed(LeftHalf(c), level + 1, tessTol, false),
                        Handed(RightHalf(c), level + 1, tessTol, corner), distTol);
    }

    /** The points of one path; for a stroke they are corners. */
    method FlattenPoints(pts: seq<Pt>, scale: real, corner: bool)
      requires |pts| % 3 == 1
      modifies this
      ensures points == FlattenedTo(pts, |pts| / 3, scale, tessTol, distTol, corner) && Spread(points, distTol)
    {
      hide Handed, Appended, AppendedAll, Near, Scaled;
      points := [];
      AddPathPoint(Scaled(pts[0], scale), corner);
      var i := 0;
      while i < |pts| - 1
        invariant 0 <= i <= |pts| - 1 && i % 3 == 0
        invariant points == FlattenedTo(pts, i / 3, scale, tessTol, distTol, corner) && Spread(points, distTol)
      {
        FlattenCubicBez(CubicAt(pts, i, scale), 0, corner);
        i := i + 3;
      }
    }

    /** One path of flattenShape: the edges added are those of the closed polygon through the flattened points. */
    method FlattenPath(pts: seq<Pt>, scale: real, buffer: Stroke.EdgeBuffer)
      requires |pts| % 3 == 1
      modifies this, buffer
      ensures points == FlattenedPath(pts, scale, tessTol, distTol) && Spread(points, distTol)
      ensures buffer.edges == old(buffer.edges) + Polyline(ClosedPolygon(points))
      ensures Balanced(old(buffer.edges)) ==> Balanced(buffer.edges)
    {
      hide Handed, Appended, AppendedAll, Near, Segment, FlattenedTo;
      FlattenPoints(pts, scale, false);
      AddPathPoint(Scaled(pts[0], scale), false);
      BuildEdges(buffer);
    }

    // The edge loop at the end of flattenShape.
    method BuildEdges(buffer: Stroke.EdgeBuffer)
      requires points != []
      modifies buffer
      ensures buffer.edges == old(buffer.edges) + Polyline(ClosedPolygon(points))
      ensures Balanced(old(buffer.edges)) ==> Balanced(buffer.edges)
    {
      hide *;
      ghost var ring := ClosedPolygon(points);
      RingAt(points, 0);
      EmptyPolyline(ring);
      var i, j := 0, |points| - 1;
      while i < |points|
        invariant 0 <= i <= |points| && j == (if i == 0 then |points| - 1 else i - 1)
        invariant buffer.edges == old(buffer.edges) + Polyline(ring[..i + 1])
      {
        buffer.AddEdge(points[j].p, points[i].p);
        RingAt(points, i);
        PrefixSnoc(ring, i + 1);
        j, i := i, i + 1;
      }
      assert ring[..|ring|] == ring;
      BalanceKept(old(buffer.edges), points);
    }
  }

  lemma RingAt(points: seq<PathPoint>, i: nat)
    requires i < |points|
    ensures var ring := ClosedPolygon(points);
            |ring| == |points| + 1 && ring[i + 1] == points[i].p &&
            ring[i] == points[if i == 0 then |points| - 1 else i - 1].p
  {
  }

  lemma EmptyPolyline(ps: seq<Pt>)
    requires ps != []
    ensures Polyline(ps[..1]) == []
  {
  }

  lemma PrefixSnoc(ps: seq<Pt>, k: nat)
    requires 0 < k < |ps|
    ensures Polyline(ps[..k + 1]) == Polyline(ps[..k]) + Segment(ps[k - 1], ps[k])
  {
    hide *;
    assert ps[..k + 1] == ps[..k] + [ps[k]];
    PolylineSnoc(ps[..k], ps[k]);
  }

  lemma BalanceKept(before: seq<Edge>, points: seq<PathPoint>)
    requires points != []
    ensures Balanced(before) ==> Balanced(before + Polyline(ClosedPolygon(points)))
  {
    if Balanced(before) {
      ClosedIsBalanced(ClosedPolygon(points));
      BalancedConcat(before, Polyline(ClosedPolygon(points)));
    }
  }
}
