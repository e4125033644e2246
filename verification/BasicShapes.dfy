/** What the paths of the basic shapes are, as curves (src/External/nanosvg/nanosvg.h; chapter 9 of SVG 1.1). */
module BasicShapes {
  import opened Edges
  import opened Flatten
  import opened PathItems
  import opened PathBuilder
  import opened PathParser

  // ----- a quarter of a circle -----

  /** The two coordinates of the cubic that stands for a quarter of the unit circle, from (1, 0) to (0, 1). */
  function QuarterX(t: real): real {
    Bernstein(t, 1.0, 1.0, KAPPA90, 0.0)
  }

  function QuarterY(t: real): real {
    Bernstein(t, 0.0, KAPPA90, 1.0, 1.0)
  }

  /** Within three ten-thousandths of the unit circle: the squared distance from its centre is 1, up to 0.0006. */
  ghost predicate OnUnitCircle(x: real, y: real) {
    0.9999 <= x * x + y * y <= 1.0006
  }

  // The sum and the product of the coordinates, in s = t (1 - t).
  lemma QuarterSum(t: real, s: real)
    requires s == t * (1.0 - t)
    ensures QuarterX(t) + QuarterY(t) == 1.0 + 3.0 * KAPPA90 * s
  {
  }

  lemma QuarterParts(t: real, s: real)
    requires s == t * (1.0 - t)
    ensures QuarterX(t) == (1.0 - t) * (1.0 - t) * (1.0 + 2.0 * t) + 3.0 * KAPPA90 * (s * t)
    ensures QuarterY(t) == t * t * (3.0 - 2.0 * t) + 3.0 * KAPPA90 * (s * (1.0 - t))
  {
  }

  lemma QuarterProduct(t: real, s: real)
    requires s == t * (1.0 - t)
    ensures QuarterX(t) * QuarterY(t)
         == s * s * (3.0 + 4.0 * s) + 3.0 * KAPPA90 * s * (1.0 - s - 4.0 * (s * s))
             + 9.0 * KAPPA90 * KAPPA90 * (s * s * s)
  {
  }

  lemma Quartered(t: real, s: real)
    requires 0.0 <= t <= 1.0 && s == t * (1.0 - t)
    ensures 0.0 <= s <= 0.25
  {
    var u, h := 1.0 - t, t - 0.5;
    SquareNotNegative(h);
    ProductNotNegative(t, u);
    assert s == 0.25 - h * h;
  }

  lemma SquareNotNegative(x: real)
    ensures x * x >= 0.0
  {
  }

  lemma ProductNotNegative(x: real, y: real)
    requires x >= 0.0 && y >= 0.0
    ensures x * y >= 0.0
  {
  }

  /** How far a quarter bulges, in s: q and c are its square and its cube. */
  lemma Bulge(s: real, q: real, c: real)
    requires 0.0 <= s <= 0.25 && q == s * s && c == q * s
    ensures 0.0 <= c <= 0.25 * q && 0.25 * q - c <= 1.0 / 432.0
  {
    var d, e := s - 1.0 / 6.0, s + 1.0 / 12.0;
    SquareNotNegative(s);
    SquareNotNegative(d);
    ProductNotNegative(q, s);
    ProductNotNegative(q, 0.25 - s);
    var dd := d * d;
    ProductNotNegative(dd, e);
    assert dd == q - s / 3.0 + 1.0 / 36.0;
    assert dd * e == c - 0.25 * q + 1.0 / 432.0;
  }

  /** The cubic stands for the quarter circle rightly, at every parameter. */
  lemma QuarterIsRound(t: real)
    requires 0.0 <= t <= 1.0
    ensures OnUnitCircle(QuarterX(t), QuarterY(t))
  {
    var s := t * (1.0 - t);
    QuarterSum(t, s);
    QuarterProduct(t, s);
    Quartered(t, s);
    var x, y := QuarterX(t), QuarterY(t);
    hide QuarterX, QuarterY;
    var q := s * s;
    var c := q * s;
    Bulge(s, q, c);
    RadiusOf(x, y, s, q, c);
  }

  lemma RadiusOf(x: real, y: real, s: real, q: real, c: real)
    requires x + y == 1.0 + 3.0 * KAPPA90 * s && q == s * s && c == q * s
    requires x * y
          == s * s * (3.0 + 4.0 * s) + 3.0 * KAPPA90 * s * (1.0 - s - 4.0 * (s * s))
             + 9.0 * KAPPA90 * KAPPA90 * (s * s * s)
    requires 0.0 <= c <= 0.25 * q && 0.25 * q - c <= 1.0 / 432.0 && q <= 0.0625
    ensures OnUnitCircle(x, y)
  {
    var k := KAPPA90;
    var kk := k * k;
    assert x * x + y * y == (x + y) * (x + y) - 2.0 * (x * y);
    assert (x + y) * (x + y) == 1.0 + 6.0 * k * s + 9.0 * kk * q;
    assert x * y == 3.0 * q + 4.0 * c + 3.0 * k * (s - q - 4.0 * c) + 9.0 * kk * c;
  }

  // ----- quarters of an ellipse -----

  lemma QuarterMoved(c: real, u: real, v: real, t: real, x1: real, x2: real, x3: real, x4: real)
    requires x1 == c + u && x2 == c + u + v * KAPPA90 && x3 == c + u * KAPPA90 + v && x4 == c + v
    ensures Bernstein(t, x1, x2, x3, x4) == c + u * QuarterX(t) + v * QuarterY(t)
  {
  }

  /** The four points draw a quarter of the ellipse round (cx, cy), from (u.x, u.y) off its centre to (v.x, v.y). */
  ghost predicate IsQuarter(p: Pt, c1: Pt, c2: Pt, q: Pt, c: Pt, u: Pt, v: Pt) {
    p == Pt(c.x + u.x, c.y + u.y) && q == Pt(c.x + v.x, c.y + v.y) &&
    c1 == Pt(c.x + u.x + v.x * KAPPA90, c.y + u.y + v.y * KAPPA90) &&
    c2 == Pt(c.x + u.x * KAPPA90 + v.x, c.y + u.y * KAPPA90 + v.y)
  }

  /** So every point of the curve is the image of one next to the unit circle. */
  lemma QuarterCurve(p: Pt, c1: Pt, c2: Pt, q: Pt, c: Pt, u: Pt, v: Pt, t: real) returns (a: real, b: real)
    requires IsQuarter(p, c1, c2, q, c, u, v) && 0.0 <= t <= 1.0
    ensures OnUnitCircle(a, b)
    ensures CurveAt(Cubic(p, c1, c2, q), t) == Pt(c.x + u.x * a + v.x * b, c.y + u.y * a + v.y * b)
  {
    hide QuarterX, QuarterY, Bernstein, OnUnitCircle;
    a, b := QuarterX(t), QuarterY(t);
    QuarterIsRound(t);
    QuarterMoved(c.x, u.x, v.x, t, p.x, c1.x, c2.x, q.x);
    QuarterMoved(c.y, u.y, v.y, t, p.y, c1.y, c2.y, q.y);
  }

  /** One of the four directions of the axes, in the order in which y grows first. */
  function Axis(i: nat, rx: real, ry: real): Pt
    requires i <= 4
  {
    if i == 0 || i == 4 then Pt(rx, 0.0)
    else if i == 1 then Pt(0.0, ry)
    else if i == 2 then Pt(-rx, 0.0)
    else Pt(0.0, -ry)
  }

  /** The path of an ellipse is its four quarters, one behind the other, back to where it starts. */
  lemma EllipseIsQuarters(cx: real, cy: real, rx: real, ry: real, i: nat)
    requires i < 4
    ensures var ps := EllipsePoints(cx, cy, rx, ry);
            |ps| == 13 && ps[12] == ps[0] &&
            IsQuarter(ps[3 * i], ps[3 * i + 1], ps[3 * i + 2], ps[3 * i + 3], Pt(cx, cy), Axis(i, rx, ry),
                      Axis(i + 1, rx, ry))
  {
  }

  /** A quarter of a rounded corner: its centre lies the radii inside the corner. */
  function CornerCentre(x: real, y: real, width: real, height: real, rx: real, ry: real, i: nat): Pt
    requires i < 4
  {
    Pt(if i == 0 || i == 1 then x + width - rx else x + rx, if i == 0 || i == 3 then y + ry else y + height - ry)
  }

  /** The i-th corner's axes, clockwise from the top right one. */
  function CornerAxis(i: nat, rx: real, ry: real): Pt
    requires i <= 4
  {
    Axis(if i == 0 then 3 else i - 1, rx, ry)
  }

  lemma RoundedList(x0: real, y0: real, x1: real, y1: real, xa: real, xb: real, ya: real, yb: real,
                    xk: real, xl: real, yk: real, yl: real)
    ensures var p, q := Pt(xa, y0), Pt(xb, y0);
            var r, s := Pt(x1, ya), Pt(x1, yb);
            var t, u := Pt(xb, y1), Pt(xa, y1);
            var v, w := Pt(x0, yb), Pt(x0, ya);
            Rounded(x0, y0, x1, y1, xa, xb, ya, yb, xk, xl, yk, yl)
            == [p, Third(p, q), Third(q, p), q, Pt(xl, y0), Pt(x1, yk), r, Third(r, s), Third(s, r), s, Pt(x1, yl),
                Pt(xl, y1), t, Third(t, u), Third(u, t), u, Pt(xk, y1), Pt(x0, yl), v, Third(v, w), Third(w, v), w,
                Pt(x0, yk), Pt(xk, y0), p]
  {
    hide Third;
  }

  /** The path of a rounded rectangle has a quarter of an ellipse at each corner, and a straight line to the next one:
      first along the top, then clockwise. */
  lemma RoundedRectIs(x: real, y: real, width: real, height: real, rx: real, ry: real, i: nat)
    requires i < 4
    ensures var ps, j := RoundedPoints(x, y, width, height, rx, ry), 6 * i;
            |ps| == 25 && ps[24] == ps[0] &&
            ps[j + 1] == Third(ps[j], ps[j + 3]) && ps[j + 2] == Third(ps[j + 3], ps[j]) &&
            IsQuarter(ps[j + 3], ps[j + 4], ps[j + 5], ps[j + 6], CornerCentre(x, y, width, height, rx, ry, i),
                      CornerAxis(i, rx, ry), CornerAxis(i + 1, rx, ry))
  {
    var kx, ky := rx * (1.0 - KAPPA90), ry * (1.0 - KAPPA90);
    RoundedList(x, y, x + width, y + height, x + rx, x + width - rx, y + ry, y + height - ry, x + kx, x + width - kx,
                y + ky, y + height - ky);
    hide Third, Rounded;
  }

  /** The path of a plain rectangle runs straight from corner to corner. */
  lemma PlainRectIs(x: real, y: real, width: real, height: real, r: (real, real))
    requires r.0 < 0.00001 || r.1 < 0.0001
    ensures var ps := RectPoints(x, y, width, height, r);
            |ps| == 10 && ps[0] == Pt(x, y) && ps[3] == Pt(x + width, y) && ps[6] == Pt(x + width, y + height) &&
            ps[9] == Pt(x, y + height) &&
            forall i :: 0 <= i < 3 ==>
              ps[3 * i + 1] == Third(ps[3 * i], ps[3 * i + 3]) && ps[3 * i + 2] == Third(ps[3 * i + 3], ps[3 * i])
  {
    hide Third, RoundedPoints;
  }

  /** A radius that is not given is the other one; radii that are given are kept up to half the side. */
  lemma RadiiAre(width: real, height: real, rx: real, ry: real)
    ensures rx >= 0.0 && ry >= 0.0 ==>
              var r := Radii(width, height, rx, ry);
              r.0 <= rx && r.0 <= width / 2.0 && (r.0 == rx || r.0 == width / 2.0) &&
              r.1 <= ry && r.1 <= height / 2.0 && (r.1 == ry || r.1 == height / 2.0)
    ensures rx < 0.0 < ry ==> Radii(width, height, rx, ry) == Radii(width, height, ry, ry)
    ensures ry < 0.0 < rx ==> Radii(width, height, rx, ry) == Radii(width, height, rx, rx)
    ensures rx <= 0.0 && ry <= 0.0 ==> Radii(width, height, rx, ry) == Radii(width, height, 0.0, 0.0)
  {
  }

  // ----- polylines -----

  /** The points of a polyline, drawn on from ps. */
  ghost function Through(ps: seq<Pt>, qs: seq<Pt>): seq<Pt>
    decreases |qs|
  {
    if qs == [] then ps
    else Through(if ps == [] then [qs[0]] else LinedTo(ps, qs[0]), qs[1..])
  }

  /** A polyline runs straight from each of its points to the next. */
  lemma {:induction false} ThroughIs(ps: seq<Pt>, qs: seq<Pt>)
    requires |ps| % 3 == 1
    ensures var r := Through(ps, qs);
            |r| == |ps| + 3 * |qs| && ps <= r &&
            forall k :: 0 <= k < |qs| ==>
              var n := |ps| + 3 * k;
              r[n + 2] == qs[k] && r[n] == Third(r[n - 1], qs[k]) && r[n + 1] == Third(qs[k], r[n - 1])
    decreases |qs|
  {
    hide Third;
    if qs != [] {
      var next := LinedTo(ps, qs[0]);
      ThroughIs(next, qs[1..]);
      var r := Through(ps, qs);
      forall k | 0 <= k < |qs|
        ensures var n := |ps| + 3 * k;
                r[n + 2] == qs[k] && r[n] == Third(r[n - 1], qs[k]) && r[n + 1] == Third(qs[k], r[n - 1])
      {
        if k > 0 {
          assert qs[k] == qs[1..][k - 1];
        }
      }
    }
  }

  /** The text texts[0] begins with the items, each followed by the next text. */
  ghost predicate Lists(items: seq<string>, texts: seq<string>) {
    |texts| == |items| + 1 &&
    forall i :: 0 <= i < |items| ==> texts[i] != "" && NextItem(texts[i]) == (items[i], texts[i + 1])
  }

  /** Numbers taken in pairs. */
  ghost function Paired(w: World, items: seq<string>): (qs: seq<Pt>)
    requires |items| % 2 == 0
    ensures |qs| == |items| / 2
    ensures forall k :: 0 <= k < |qs| ==> qs[k] == Pt(w.atof(items[2 * k]), w.atof(items[2 * k + 1]))
  {
    seq(|items| / 2, k requires 0 <= k < |items| / 2 => Pt(w.atof(items[2 * k]), w.atof(items[2 * k + 1])))
  }

  /** A point list draws the polyline through its points; a number without a partner at its end is dropped. */
  lemma {:induction false} PolyIsThrough(w: World, ps: seq<Pt>, items: seq<string>, texts: seq<string>)
    requires |items| % 2 == 0 && Lists(items, texts)
    ensures PolyPoints(w, [], ps, texts[0]) == PolyPoints(w, [], Through(ps, Paired(w, items)), texts[|items|])
    ensures texts[|items|] == "" ==> PolyPoints(w, [], ps, texts[0]) == Through(ps, Paired(w, items))
    decreases |items|
  {
    hide LinedTo, NextItem, PolyPoints, Lists, Through, Paired;
    if items == [] {
      NothingPaired(w, ps, items, texts);
    } else {
      var q := Pt(w.atof(items[0]), w.atof(items[1]));
      var next := if ps == [] then [q] else LinedTo(ps, q);
      TwoListed(items, texts);
      TwoNumbers(w, ps, texts[0], items[0], texts[1], items[1], texts[2]);
      PolyIsThrough(w, next, items[2..], texts[2..]);
      ThroughNext(w, ps, items);
      if texts[|items|] == "" {
        PolyEnds(w, Through(ps, Paired(w, items)));
      }
    }
  }

  lemma NothingPaired(w: World, ps: seq<Pt>, items: seq<string>, texts: seq<string>)
    requires items == [] && Lists(items, texts)
    ensures Through(ps, Paired(w, items)) == ps && texts[0] == texts[|items|]
    ensures texts[0] == "" ==> PolyPoints(w, [], ps, texts[0]) == ps
  {
    assert Paired(w, items) == [];
  }

  lemma PolyEnds(w: World, ps: seq<Pt>)
    ensures PolyPoints(w, [], ps, "") == ps
  {
  }

  lemma TwoListed(items: seq<string>, texts: seq<string>)
    requires |items| >= 2 && Lists(items, texts)
    ensures |texts| == |items| + 1 && texts[0] != "" && NextItem(texts[0]) == (items[0], texts[1])
    ensures texts[1] != "" && NextItem(texts[1]) == (items[1], texts[2]) && Lists(items[2..], texts[2..])
  {
    hide NextItem;
    forall i | 0 <= i < |items[2..]|
      ensures texts[2..][i] != "" && NextItem(texts[2..][i]) == (items[2..][i], texts[2..][i + 1])
    {
      assert texts[i + 2] != "" && NextItem(texts[i + 2]) == (items[i + 2], texts[i + 2 + 1]);
    }
  }

  lemma ThroughNext(w: World, ps: seq<Pt>, items: seq<string>)
    requires |items| % 2 == 0 && items != []
    ensures var q := Pt(w.atof(items[0]), w.atof(items[1]));
            Through(ps, Paired(w, items))
            == Through(if ps == [] then [q] else LinedTo(ps, q), Paired(w, items[2..]))
  {
    hide LinedTo;
    assert Paired(w, items)[1..] == Paired(w, items[2..]);
  }

  lemma TwoNumbers(w: World, ps: seq<Pt>, s: string, x: string, two: string, y: string, rest: string)
    requires s != "" && NextItem(s) == (x, two) && two != "" && NextItem(two) == (y, rest)
    ensures var q := Pt(w.atof(x), w.atof(y));
            PolyPoints(w, [], ps, s) == PolyPoints(w, [], if ps == [] then [q] else LinedTo(ps, q), rest)
  {
    hide LinedTo, NextItem;
    assert [] + [w.atof(x)] == [w.atof(x)];
    assert [w.atof(x)] + [w.atof(y)] == [w.atof(x), w.atof(y)];
  }
}
