/** How wide a stroke is: its sides run beside the centre line at half the width, and caps and joins keep to what their
    names say (src/External/nanosvg/nanosvgrast.h; section 11.4 of SVG 1.1). */
module StrokeWidth {
  import opened Edges
  import opened Stroke
  import opened Prepare

  /** Square roots and trigonometry as they should be; PI is the constant the code uses for half a turn. */
  ghost predicate GoodTrig(t: Trig) {
    t.cos(0.0) == 1.0 && t.sin(0.0) == 0.0 && t.cos(PI) == -1.0 && t.sin(PI) == 0.0 &&
    (forall v :: v >= 0.0 ==> GoodRoot(t, v)) && (forall a :: GoodTurn(t, a)) &&
    forall x, y :: Unit(x, y) ==> GoodAngle(t, x, y)
  }

  predicate GoodRoot(t: Trig, v: real) {
    t.sqrt(v) >= 0.0 && t.sqrt(v) * t.sqrt(v) == v
  }

  predicate GoodTurn(t: Trig, a: real) {
    t.cos(a) * t.cos(a) + t.sin(a) * t.sin(a) == 1.0 &&
    t.cos(a + 2.0 * PI) == t.cos(a) && t.sin(a + 2.0 * PI) == t.sin(a)
  }

  predicate GoodAngle(t: Trig, x: real, y: real) {
    t.cos(t.atan2(y, x)) == x && t.sin(t.atan2(y, x)) == y
  }

  predicate Unit(dx: real, dy: real) {
    dx * dx + dy * dy == 1.0
  }

  function Cross(ux: real, uy: real, dx: real, dy: real): real {
    ux * dy - uy * dx
  }

  function Dot(ux: real, uy: real, dx: real, dy: real): real {
    ux * dx + uy * dy
  }

  /** How far q lies beside the line through (x, y) with direction (dx, dy): positive on the side of the forward
      outline, negative on the other. */
  function Beside(q: Pt, x: real, y: real, dx: real, dy: real): real {
    Cross(q.x - x, q.y - y, dx, dy)
  }

  /** How far q lies in front of (x, y). */
  function Ahead(q: Pt, x: real, y: real, dx: real, dy: real): real {
    Dot(q.x - x, q.y - y, dx, dy)
  }

  function SquaredDistance(q: Pt, x: real, y: real): real {
    SquaredNorm(q.x - x, q.y - y)
  }

  // ----- offsets -----

  lemma NormalOffset(dx: real, dy: real, w: real, ux: real, uy: real)
    requires Unit(dx, dy) && ux == dy * w && uy == -(dx * w)
    ensures Cross(ux, uy, dx, dy) == w && Dot(ux, uy, dx, dy) == 0.0 && SquaredNorm(ux, uy) == w * w
  {
    var n := dx * dx + dy * dy;
    assert ux * dy - uy * dx == w * n;
    assert ux * dx + uy * dy == 0.0;
    assert ux * ux + uy * uy == w * w * n;
  }

  /** The point moved along the normal lies beside the line by just that much, and neither in front nor behind. */
  lemma NormalBeside(px: real, py: real, dx: real, dy: real, w: real)
    requires Unit(dx, dy)
    ensures var q := Normal(px, py, dx, dy, w);
            Beside(q, px, py, dx, dy) == w && Ahead(q, px, py, dx, dy) == 0.0 && SquaredDistance(q, px, py) == w * w
  {
    var q := Normal(px, py, dx, dy, w);
    NormalOffset(dx, dy, w, q.x - px, q.y - py);
    hide Cross, Dot, SquaredNorm, Unit;
  }

  // ----- caps -----

  lemma ShiftedBack(ux: real, uy: real, dx: real, dy: real, w: real, vx: real, vy: real)
    requires Unit(dx, dy) && vx == ux - dx * w && vy == uy - dy * w
    ensures Cross(vx, vy, dx, dy) == Cross(ux, uy, dx, dy) && Dot(vx, vy, dx, dy) == Dot(ux, uy, dx, dy) - w
  {
    var n := dx * dx + dy * dy;
    assert vx * dx + vy * dy == ux * dx + uy * dy - w * n;
  }

  lemma RoundOffset(dx: real, dy: real, ax: real, ay: real, ux: real, uy: real)
    requires Unit(dx, dy) && ux == -dy * ax - dx * ay && uy == dx * ax - dy * ay
    ensures Cross(ux, uy, dx, dy) == -ax && Dot(ux, uy, dx, dy) == -ay && SquaredNorm(ux, uy) == ax * ax + ay * ay
  {
    var n := dx * dx + dy * dy;
    assert ux * dy - uy * dx == -ax * n;
    assert ux * dx + uy * dy == -ay * n;
    assert ux * ux + uy * uy == (ax * ax + ay * ay) * n;
  }

  lemma TurnIsRound(t: Trig, a: real)
    requires GoodTrig(t)
    ensures t.cos(a) * t.cos(a) + t.sin(a) * t.sin(a) == 1.0
  {
    assert GoodTurn(t, a);
  }

  lemma SquaresScale(c: real, s: real, w: real)
    requires c * c + s * s == 1.0
    ensures Share(c, w) * Share(c, w) + Share(s, w) * Share(s, w) == w * w
  {
    var n := c * c + s * s;
    assert Share(c, w) * Share(c, w) + Share(s, w) * Share(s, w) == w * w * n;
  }

  lemma TurnedIs(p: StrokePoint, dx: real, dy: real, ax: real, ay: real)
    requires Unit(dx, dy)
    ensures var q := Turned(p, dx, dy, ax, ay);
            SquaredDistance(q, p.x, p.y) == ax * ax + ay * ay &&
            Beside(q, p.x, p.y, dx, dy) == -ax && Ahead(q, p.x, p.y, dx, dy) == -ay
  {
    var q := Turned(p, dx, dy, ax, ay);
    RoundOffset(dx, dy, ax, ay, q.x - p.x, q.y - p.y);
    hide Cross, Dot, SquaredNorm, Unit;
  }

  /** A point of a round cap lies on the circle round the end of the line, at the angle of its turn. */
  lemma TurnedByIs(t: Trig, p: StrokePoint, dx: real, dy: real, w: real, a: real)
    requires GoodTrig(t) && Unit(dx, dy)
    ensures var q := TurnedBy(t, p, dx, dy, w, a);
            SquaredDistance(q, p.x, p.y) == w * w &&
            Beside(q, p.x, p.y, dx, dy) == -Share(t.cos(a), w) && Ahead(q, p.x, p.y, dx, dy) == -Share(t.sin(a), w)
  {
    hide *;
    TurnIsRound(t, a);
    SquaresScale(t.cos(a), t.sin(a), w);
    TurnedIs(p, dx, dy, Share(t.cos(a), w), Share(t.sin(a), w));
    TurnedByAngle(t, p, dx, dy, w, a);
  }

  lemma TurnedByAngle(t: Trig, p: StrokePoint, dx: real, dy: real, w: real, a: real)
    ensures TurnedBy(t, p, dx, dy, w, a) == Turned(p, dx, dy, Share(t.cos(a), w), Share(t.sin(a), w))
  {
  }

  lemma EndsOfTurn(ncap: int)
    requires ncap >= 2
    ensures 0 as real / (ncap - 1) as real * PI == 0.0 && (ncap - 1) as real / (ncap - 1) as real * PI == PI
  {
  }

  /** A cap starts half the width beside the end of the line on the one side and ends as far beside it on the other. A
      butt cap does so at the end of the line and a square one half the width behind it; a round cap keeps half the
      width away from the end. */
  lemma CapIs(t: Trig, cap: LineCap, p: StrokePoint, dx: real, dy: real, width: real, ncap: int)
    requires GoodTrig(t) && Unit(dx, dy) && ncap >= 2
    ensures var c, w := CapPoints(t, cap, p, dx, dy, width, ncap), width * 0.5;
            var n := |c| - 1;
            Beside(c[0], p.x, p.y, dx, dy) == -w && Beside(c[n], p.x, p.y, dx, dy) == w &&
            Ahead(c[0], p.x, p.y, dx, dy) == Ahead(c[n], p.x, p.y, dx, dy) == (if cap == Square then -w else 0.0) &&
            (cap != RoundCap ==> n == 1) &&
            (cap == RoundCap ==> n == ncap - 1 && forall i :: 0 <= i <= n ==> SquaredDistance(c[i], p.x, p.y) == w * w)
  {
    hide Beside, Ahead, SquaredDistance, Unit, Normal, RoundCapPoint, GoodTrig;
    var w := width * 0.5;
    match cap {
      case Butt =>
        NormalBeside(p.x, p.y, dx, dy, -w);
        NormalBeside(p.x, p.y, dx, dy, w);
      case Square =>
        SquareCapPoint(p, dx, dy, width, -w);
        SquareCapPoint(p, dx, dy, width, w);
      case RoundCap =>
        RoundCapEnds(t, p, dx, dy, width, ncap);
        forall i | 0 <= i < ncap
          ensures SquaredDistance(RoundCapPoint(t, p, dx, dy, width, ncap, i), p.x, p.y) == w * w
        {
          RoundCapOnCircle(t, p, dx, dy, width, ncap, i);
        }
    }
  }

  lemma RoundCapEnds(t: Trig, p: StrokePoint, dx: real, dy: real, width: real, ncap: int)
    requires GoodTrig(t) && Unit(dx, dy) && ncap >= 2
    ensures var q, w := RoundCapPoint(t, p, dx, dy, width, ncap, 0), width * 0.5;
            Beside(q, p.x, p.y, dx, dy) == -w && Ahead(q, p.x, p.y, dx, dy) == 0.0
    ensures var q, w := RoundCapPoint(t, p, dx, dy, width, ncap, ncap - 1), width * 0.5;
            Beside(q, p.x, p.y, dx, dy) == w && Ahead(q, p.x, p.y, dx, dy) == 0.0
  {
    hide Beside, Ahead, SquaredDistance, Unit, RoundCapPoint, TurnedBy, GoodTrig, Share;
    EndsOfTurn(ncap);
    RoundCapPointAt(t, p, dx, dy, width, ncap, 0, 0.0);
    RoundCapPointAt(t, p, dx, dy, width, ncap, ncap - 1, PI);
    HalfTurned(t, p, dx, dy, width * 0.5);
  }

  lemma HalfTurned(t: Trig, p: StrokePoint, dx: real, dy: real, w: real)
    requires GoodTrig(t) && Unit(dx, dy)
    ensures var q := TurnedBy(t, p, dx, dy, w, 0.0);
            Beside(q, p.x, p.y, dx, dy) == -w && Ahead(q, p.x, p.y, dx, dy) == 0.0
    ensures var q := TurnedBy(t, p, dx, dy, w, PI);
            Beside(q, p.x, p.y, dx, dy) == w && Ahead(q, p.x, p.y, dx, dy) == 0.0
  {
    hide Beside, Ahead, SquaredDistance, Unit, TurnedBy, GoodTrig, Share;
    HalfTurn(t);
    Shares(w);
    TurnedByIs(t, p, dx, dy, w, 0.0);
    TurnedByIs(t, p, dx, dy, w, PI);
  }

  lemma Shares(w: real)
    ensures Share(1.0, w) == w && Share(-1.0, w) == -w && Share(0.0, w) == 0.0
  {
  }

  lemma RoundCapOnCircle(t: Trig, p: StrokePoint, dx: real, dy: real, width: real, ncap: int, i: int)
    requires GoodTrig(t) && Unit(dx, dy) && ncap >= 2
    ensures var w := width * 0.5;
            SquaredDistance(RoundCapPoint(t, p, dx, dy, width, ncap, i), p.x, p.y) == w * w
  {
    hide Beside, Ahead, SquaredDistance, Unit, RoundCapPoint, TurnedBy, GoodTrig, Share;
    var a := i as real / (ncap - 1) as real * PI;
    RoundCapPointAt(t, p, dx, dy, width, ncap, i, a);
    TurnedByIs(t, p, dx, dy, width * 0.5, a);
  }

  lemma RoundCapPointAt(t: Trig, p: StrokePoint, dx: real, dy: real, width: real, ncap: int, i: int, a: real)
    requires ncap >= 2 && a == i as real / (ncap - 1) as real * PI
    ensures RoundCapPoint(t, p, dx, dy, width, ncap, i) == TurnedBy(t, p, dx, dy, width * 0.5, a)
  {
    hide TurnedBy;
  }

  lemma HalfTurn(t: Trig)
    requires GoodTrig(t)
    ensures t.cos(0.0) == 1.0 && t.sin(0.0) == 0.0 && t.cos(PI) == -1.0 && t.sin(PI) == 0.0
  {
  }

  lemma SquareCapPoint(p: StrokePoint, dx: real, dy: real, width: real, side: real)
    requires Unit(dx, dy)
    ensures var q := Normal(p.x - dx * (width * 0.5), p.y - dy * (width * 0.5), dx, dy, side);
            Beside(q, p.x, p.y, dx, dy) == side && Ahead(q, p.x, p.y, dx, dy) == -(width * 0.5)
  {
    var x, y := p.x - dx * (width * 0.5), p.y - dy * (width * 0.5);
    var q := Normal(x, y, dx, dy, side);
    NormalOffset(dx, dy, side, q.x - x, q.y - y);
    ShiftedBack(q.x - x, q.y - y, dx, dy, width * 0.5, q.x - p.x, q.y - p.y);
    hide Cross, Dot, SquaredNorm, Unit;
  }

  // ----- extrusions -----

  /** Half of one and the cosine of the turn from p0's direction to p1's: 1 straight on, 0 straight back. */
  function Openness(p0: StrokePoint, p1: StrokePoint): real {
    (1.0 + Dot(p0.dx, p0.dy, p1.dx, p1.dy)) * 0.5
  }

  lemma HalfSum(ax: real, ay: real, ex: real, ey: real, mx: real, my: real)
    requires Unit(ax, ay) && Unit(ex, ey) && mx == (ay + ey) * 0.5 && my == (-ax - ex) * 0.5
    ensures var r2 := (1.0 + Dot(ax, ay, ex, ey)) * 0.5;
            SquaredNorm(mx, my) == r2 && Cross(mx, my, ax, ay) == r2 && Cross(mx, my, ex, ey) == r2
  {
  }

  lemma NormNotNegative(x: real, y: real)
    ensures SquaredNorm(x, y) >= 0.0
  {
    SquareNotNegative(x);
    SquareNotNegative(y);
  }

  lemma SquareNotNegative(x: real)
    ensures x * x >= 0.0
  {
  }

  lemma CrossScales(ux: real, uy: real, s: real, dx: real, dy: real, vx: real, vy: real)
    requires vx == ux * s && vy == uy * s
    ensures Cross(vx, vy, dx, dy) == Cross(ux, uy, dx, dy) * s
    ensures SquaredNorm(vx, vy) == SquaredNorm(ux, uy) * s * s
  {
  }

  lemma StretchReaches(r2: real)
    requires r2 >= 0.0
    ensures 0.0 <= r2 * Stretch(r2) <= 1.0
    ensures r2 * Stretch(r2) == 1.0 <==> r2 >= 1.0 / 600.0
    ensures 0.000001 < r2 < 1.0 / 600.0 ==> r2 * Stretch(r2) == 600.0 * r2
    ensures r2 <= 0.000001 ==> r2 * Stretch(r2) == r2
    ensures r2 >= 1.0 / 600.0 ==> r2 * Stretch(r2) * Stretch(r2) * r2 == 1.0
  {
    if r2 > 0.000001 {
      var q := 1.0 / r2;
      assert q * r2 == 1.0;
      if q > 600.0 {
        assert r2 < 1.0 / 600.0 by {
          if r2 >= 1.0 / 600.0 { QuotientBelow(r2, q); }
        }
      } else {
        assert r2 >= 1.0 / 600.0 by {
          if r2 < 1.0 / 600.0 { QuotientAbove(r2, q); }
        }
        assert Stretch(r2) == q;
      }
    }
  }

  lemma QuotientBelow(r: real, q: real)
    requires q * r == 1.0 && r >= 1.0 / 600.0
    ensures q <= 600.0
  {
    assert q > 600.0 ==> (q - 600.0) * r > 0.0;
  }

  lemma QuotientAbove(r: real, q: real)
    requires q * r == 1.0 && 0.0 < r < 1.0 / 600.0
    ensures q > 600.0
  {
    assert q <= 600.0 ==> (600.0 - q) * r >= 0.0;
  }

  /** The extrusion reaches the point where the two offset lines meet, exactly if the turn is not too sharp; then its
      squared length is one over the openness. Otherwise it stays below both lines, equally far. */
  lemma ExtrusionMeetsIff(join: LineJoin, miterLimit: real, p0: StrokePoint, p1: StrokePoint)
    requires Unit(p0.dx, p0.dy) && Unit(p1.dx, p1.dy)
    ensures var q, r2 := Extruded(join, miterLimit, p0, p1), Openness(p0, p1);
            var reach := Cross(q.dmx, q.dmy, p0.dx, p0.dy);
            reach == Cross(q.dmx, q.dmy, p1.dx, p1.dy) && 0.0 <= reach <= 1.0 &&
            (reach == 1.0 <==> r2 >= 1.0 / 600.0) &&
            (0.000001 < r2 < 1.0 / 600.0 ==> reach == 600.0 * r2) && (r2 <= 0.000001 ==> reach == r2) &&
            (r2 >= 1.0 / 600.0 ==> SquaredNorm(q.dmx, q.dmy) * r2 == 1.0)
  {
    hide Cross, SquaredNorm, Unit, Stretch, Dot;
    var mx, my := (p0.dy + p1.dy) * 0.5, (-p0.dx - p1.dx) * 0.5;
    var r2 := Openness(p0, p1);
    HalfSum(p0.dx, p0.dy, p1.dx, p1.dy, mx, my);
    NormNotNegative(mx, my);
    var q := Extruded(join, miterLimit, p0, p1);
    assert q.dmx == mx * Stretch(r2) && q.dmy == my * Stretch(r2);
    CrossScales(mx, my, Stretch(r2), p0.dx, p0.dy, q.dmx, q.dmy);
    CrossScales(mx, my, Stretch(r2), p1.dx, p1.dy, q.dmx, q.dmy);
    StretchReaches(r2);
  }

  // ----- joins -----

  /** The extrusion of p1 reaches both offset lines. */
  ghost predicate Meets(p0: StrokePoint, p1: StrokePoint) {
    Cross(p1.dmx, p1.dmy, p0.dx, p0.dy) == 1.0 && Cross(p1.dmx, p1.dmy, p1.dx, p1.dy) == 1.0
  }

  lemma ExtrudedBeside(p1: StrokePoint, dx: real, dy: real, w: real)
    requires Cross(p1.dmx, p1.dmy, dx, dy) == 1.0
    ensures Beside(Extrusion(p1, w), p1.x, p1.y, dx, dy) == w
  {
    var q := Extrusion(p1, w);
    CrossScales(p1.dmx, p1.dmy, w, dx, dy, q.x - p1.x, q.y - p1.y);
    hide Cross, SquaredNorm;
  }

  /** The extrusion point on either side. */
  lemma ExtrudedPoints(p0: StrokePoint, p1: StrokePoint, w: real)
    requires Meets(p0, p1)
    ensures Beside(Extrusion(p1, w), p1.x, p1.y, p0.dx, p0.dy) == w
    ensures Beside(Extrusion(p1, w), p1.x, p1.y, p1.dx, p1.dy) == w
  {
    hide Cross, Beside;
    ExtrudedBeside(p1, p0.dx, p0.dy, w);
    ExtrudedBeside(p1, p1.dx, p1.dy, w);
  }

  /** The ends of what a join adds to the two sides: they lie half the width beside the segment before the join and the
      segment after it. */
  ghost predicate Flanks(r: Sides, p0: StrokePoint, p1: StrokePoint, w: real) {
    r.back != [] && r.fwd != [] &&
    Beside(r.fwd[0], p1.x, p1.y, p0.dx, p0.dy) == w && Beside(r.fwd[|r.fwd| - 1], p1.x, p1.y, p1.dx, p1.dy) == w &&
    Beside(r.back[|r.back| - 1], p1.x, p1.y, p0.dx, p0.dy) == -w && Beside(r.back[0], p1.x, p1.y, p1.dx, p1.dy) == -w
  }

  lemma OffsetBeside(p1: StrokePoint, p: StrokePoint, w: real)
    requires Unit(p.dx, p.dy)
    ensures Beside(Offset(p1, p, w), p1.x, p1.y, p.dx, p.dy) == w
  {
    NormalBeside(p1.x, p1.y, p.dx, p.dy, w);
  }

  lemma JoinFlanks(t: Trig, join: LineJoin, p0: StrokePoint, p1: StrokePoint, width: real, ncap: int)
    requires GoodTrig(t) && ncap >= 2 && Unit(p0.dx, p0.dy) && Unit(p1.dx, p1.dy) && Meets(p0, p1)
    ensures Flanks(JoinSides(t, join, p0, p1, width, ncap), p0, p1, width * 0.5)
  {
    hide GoodTrig, Unit, Beside, Offset, Extrusion, RoundJoinSweep, Meets;
    var w := width * 0.5;
    ExtrudedPoints(p0, p1, w);
    ExtrudedPoints(p0, p1, -w);
    OffsetBeside(p1, p0, w);
    OffsetBeside(p1, p0, -w);
    OffsetBeside(p1, p1, w);
    OffsetBeside(p1, p1, -w);
    if p1.corner && join == RoundJoin {
      RoundJoinFlanks(t, p0, p1, width, ncap);
    }
  }

  // ----- round joins -----

  lemma {:induction false} RoundSidesAre(t: Trig, p1: StrokePoint, width: real, sweep: (real, real, int), n: nat)
    requires sweep.2 >= 2
    ensures var r := RoundJoinSides(t, p1, width, sweep, n);
            forall i :: 0 <= i < n ==>
              r.fwd[i] == RoundJoinPoint(t, p1, width, sweep, i, 1.0) &&
              r.back[n - 1 - i] == RoundJoinPoint(t, p1, width, sweep, i, -1.0)
  {
    hide RoundJoinPoint;
    if n > 0 { RoundSidesAre(t, p1, width, sweep, n - 1); }
  }

  lemma SweepEnds(sweep: (real, real, int))
    requires sweep.2 >= 2
    ensures SweepAngle(sweep, 0) == sweep.0 && SweepAngle(sweep, sweep.2 - 1) == sweep.0 + sweep.1
  {
    assert (sweep.2 - 1) as real / (sweep.2 - 1) as real == 1.0;
  }

  /** Up to whole turns the sweep of a round join goes from the one normal to the other. */
  lemma SweepIs(t: Trig, p0: StrokePoint, p1: StrokePoint, ncap: int)
    requires ncap >= 2
    ensures var (a, da, n), a1 := RoundJoinSweep(t, p0, p1, ncap), t.atan2(-p1.dx, p1.dy);
            a == t.atan2(-p0.dx, p0.dy) &&
            (a + da == a1 || a + da == a1 + 2.0 * PI || a + da + 2.0 * PI == a1)
  {
  }

  lemma WholeTurns(t: Trig, a: real, b: real)
    requires GoodTrig(t) && (b == a || b == a + 2.0 * PI || b + 2.0 * PI == a)
    ensures t.cos(b) == t.cos(a) && t.sin(b) == t.sin(a)
  {
    assert GoodTurn(t, a) && GoodTurn(t, b);
    hide GoodTrig;
  }

  lemma AngleOf(t: Trig, x: real, y: real)
    requires GoodTrig(t) && Unit(x, y)
    ensures t.cos(t.atan2(y, x)) == x && t.sin(t.atan2(y, x)) == y
  {
    hide Unit;
    assert GoodAngle(t, x, y);
  }

  lemma AngleOfNormal(t: Trig, dx: real, dy: real)
    requires GoodTrig(t) && Unit(dx, dy)
    ensures t.cos(t.atan2(-dx, dy)) == dy && t.sin(t.atan2(-dx, dy)) == -dx
  {
    hide GoodTrig;
    assert Unit(dy, -dx);
    hide Unit;
    AngleOf(t, dy, -dx);
  }

  lemma OnCircleIs(t: Trig, p1: StrokePoint, w: real, side: real, a: real, dx: real, dy: real)
    requires Unit(dx, dy) && t.cos(a) == dy && t.sin(a) == -dx
    ensures Beside(OnCircle(t, p1, w, side, a), p1.x, p1.y, dx, dy) == Share(side, w)
  {
    var q := OnCircle(t, p1, w, side, a);
    CircleOffset(dx, dy, w, side);
    hide Cross, Share;
  }

  lemma CircleOffset(dx: real, dy: real, w: real, side: real)
    requires Unit(dx, dy)
    ensures Cross(Share(side, Share(dy, w)), Share(side, Share(-dx, w)), dx, dy) == Share(side, w)
  {
    var n := dx * dx + dy * dy;
    assert Cross(Share(side, Share(dy, w)), Share(side, Share(-dx, w)), dx, dy) == side * w * n;
  }

  lemma OnCircleDistance(t: Trig, p1: StrokePoint, w: real, side: real, a: real)
    requires GoodTrig(t) && (side == 1.0 || side == -1.0)
    ensures SquaredDistance(OnCircle(t, p1, w, side, a), p1.x, p1.y) == w * w
  {
    hide *;
    TurnIsRound(t, a);
    SquaresScale(t.cos(a), t.sin(a), w);
    SameNorm(Share(t.cos(a), w), Share(t.sin(a), w), side);
    OnCircleNorm(t, p1, w, side, a);
  }

  lemma OnCircleNorm(t: Trig, p1: StrokePoint, w: real, side: real, a: real)
    ensures SquaredDistance(OnCircle(t, p1, w, side, a), p1.x, p1.y)
         == SquaredNorm(Share(side, Share(t.cos(a), w)), Share(side, Share(t.sin(a), w)))
  {
    hide Share, SquaredNorm;
  }

  lemma SameNorm(ax: real, ay: real, side: real)
    requires side == 1.0 || side == -1.0
    ensures SquaredNorm(Share(side, ax), Share(side, ay)) == ax * ax + ay * ay
  {
  }

  /** Every point of a round join lies on the circle round its corner. */
  lemma RoundJoinOnCircle(t: Trig, p1: StrokePoint, width: real, sweep: (real, real, int), i: int, side: real)
    requires GoodTrig(t) && sweep.2 >= 2 && (side == 1.0 || side == -1.0)
    ensures var w := width * 0.5;
            SquaredDistance(RoundJoinPoint(t, p1, width, sweep, i, side), p1.x, p1.y) == w * w
  {
    hide GoodTrig, OnCircle, SquaredDistance, SweepAngle;
    OnCircleDistance(t, p1, width * 0.5, side, SweepAngle(sweep, i));
  }

  lemma RoundJoinFlanks(t: Trig, p0: StrokePoint, p1: StrokePoint, width: real, ncap: int)
    requires GoodTrig(t) && ncap >= 2 && Unit(p0.dx, p0.dy) && Unit(p1.dx, p1.dy)
    ensures var sweep := RoundJoinSweep(t, p0, p1, ncap);
            Flanks(RoundJoinSides(t, p1, width, sweep, sweep.2), p0, p1, width * 0.5)
  {
    hide GoodTrig, RoundJoinSweep, SweepAngle, OnCircle, Unit, Beside, RoundJoinSides;
    var sweep, w := RoundJoinSweep(t, p0, p1, ncap), width * 0.5;
    var n := sweep.2;
    SweepIs(t, p0, p1, ncap);
    RoundJoinEnds(t, p0, p1, w, sweep.0, sweep.0 + sweep.1);
    SweepEnds(sweep);
    RoundSidesAre(t, p1, width, sweep, n);
    var r := RoundJoinSides(t, p1, width, sweep, n);
    assert r.fwd[0] == RoundJoinPoint(t, p1, width, sweep, 0, 1.0);
    assert r.back[n - 1 - 0] == RoundJoinPoint(t, p1, width, sweep, 0, -1.0);
    assert r.fwd[n - 1] == RoundJoinPoint(t, p1, width, sweep, n - 1, 1.0);
    assert r.back[n - 1 - (n - 1)] == RoundJoinPoint(t, p1, width, sweep, n - 1, -1.0);
  }

  lemma RoundJoinEnds(t: Trig, p0: StrokePoint, p1: StrokePoint, w: real, first: real, last: real)
    requires GoodTrig(t) && Unit(p0.dx, p0.dy) && Unit(p1.dx, p1.dy) && first == t.atan2(-p0.dx, p0.dy)
    requires var a1 := t.atan2(-p1.dx, p1.dy); last == a1 || last == a1 + 2.0 * PI || last + 2.0 * PI == a1
    ensures Beside(OnCircle(t, p1, w, 1.0, first), p1.x, p1.y, p0.dx, p0.dy) == w
    ensures Beside(OnCircle(t, p1, w, -1.0, first), p1.x, p1.y, p0.dx, p0.dy) == -w
    ensures Beside(OnCircle(t, p1, w, 1.0, last), p1.x, p1.y, p1.dx, p1.dy) == w
    ensures Beside(OnCircle(t, p1, w, -1.0, last), p1.x, p1.y, p1.dx, p1.dy) == -w
  {
    hide GoodTrig, Unit, Share, Beside, OnCircle;
    AngleOfNormal(t, p0.dx, p0.dy);
    AngleOfNormal(t, p1.dx, p1.dy);
    WholeTurns(t, t.atan2(-p1.dx, p1.dy), last);
    Shares(w);
    OnCircleIs(t, p1, w, 1.0, first, p0.dx, p0.dy);
    OnCircleIs(t, p1, w, -1.0, first, p0.dx, p0.dy);
    OnCircleIs(t, p1, w, 1.0, last, p1.dx, p1.dy);
    OnCircleIs(t, p1, w, -1.0, last, p1.dx, p1.dy);
  }

  // ----- corners -----

  lemma BeyondIff(join: LineJoin, miterLimit: real, r2: real, length: real)
    requires length * r2 == 1.0 && r2 > 0.0
    ensures CutsCorner(join, miterLimit, r2) <==> join != Miter || length > miterLimit * miterLimit
  {
    var limit := miterLimit * miterLimit;
    var e, cut := length - limit, r2 * miterLimit * miterLimit;
    assert cut == r2 * limit;
    assert e * r2 == 1.0 - cut;
    assert e > 0.0 ==> e * r2 > 0.0;
    assert e <= 0.0 ==> -e * r2 >= 0.0;
  }

  /** A mitered corner is cut off exactly when its point would lie further out than the miter limit allows, in units of
      half the width; the turn is to the forward side exactly when the next segment heads there. */
  lemma CornerFlags(join: LineJoin, miterLimit: real, p0: StrokePoint, p1: StrokePoint)
    requires Unit(p0.dx, p0.dy) && Unit(p1.dx, p1.dy) && Openness(p0, p1) >= 1.0 / 600.0
    ensures var q := Extruded(join, miterLimit, p0, p1);
            q.corner == p1.corner && (q.left <==> Cross(p1.dx, p1.dy, p0.dx, p0.dy) > 0.0) &&
            (q.bevel <==>
             p1.corner && (join != Miter || SquaredNorm(q.dmx, q.dmy) > miterLimit * miterLimit))
  {
    hide SquaredNorm, Unit, Stretch, Dot, CutsCorner;
    ExtrusionMeetsIff(join, miterLimit, p0, p1);
    var q, r2 := Extruded(join, miterLimit, p0, p1), Openness(p0, p1);
    var mx, my := (p0.dy + p1.dy) * 0.5, (-p0.dx - p1.dx) * 0.5;
    HalfSum(p0.dx, p0.dy, p1.dx, p1.dy, mx, my);
    assert q.bevel <==> p1.corner && CutsCorner(join, miterLimit, r2);
    assert q.corner == p1.corner && (q.left <==> TurnsLeft(p0, p1));
    hide Extruded, Openness;
    TurnIsCross(p0, p1);
    BeyondIff(join, miterLimit, r2, SquaredNorm(q.dmx, q.dmy));
  }

  lemma TurnIsCross(p0: StrokePoint, p1: StrokePoint)
    ensures TurnsLeft(p0, p1) <==> Cross(p1.dx, p1.dy, p0.dx, p0.dy) > 0.0
  {
  }

  /** A corner that is mitered has its point on the side the line turns away from, and two points on the other. */
  lemma MiterPointOutside(t: Trig, p0: StrokePoint, p1: StrokePoint, width: real, ncap: int)
    requires ncap >= 2 && p1.corner && !p1.bevel
    ensures var r := JoinSides(t, Miter, p0, p1, width, ncap);
            if p1.left then |r.fwd| == 2 && r.back == [Extrusion(p1, -(width * 0.5))]
            else |r.back| == 2 && r.fwd == [Extrusion(p1, width * 0.5)]
  {
  }

  // ----- whole outlines -----

  /** q is the next point of the line: so far on in p's direction. */
  ghost predicate Leads(p: StrokePoint, q: StrokePoint) {
    Unit(p.dx, p.dy) && exists len: real :: Onward(p, q, len)
  }

  ghost predicate Onward(p: StrokePoint, q: StrokePoint, len: real) {
    q.x == p.x + len * p.dx && q.y == p.y + len * p.dy
  }

  lemma SameLine(p: StrokePoint, q: StrokePoint, z: Pt)
    requires Leads(p, q)
    ensures Beside(z, q.x, q.y, p.dx, p.dy) == Beside(z, p.x, p.y, p.dx, p.dy)
  {
    var len: real :| Onward(p, q, len);
    AlongKeeps(z.x - p.x, z.y - p.y, p.dx, p.dy, len, z.x - q.x, z.y - q.y);
    hide Cross;
  }

  lemma AlongKeeps(ux: real, uy: real, dx: real, dy: real, len: real, vx: real, vy: real)
    requires vx == ux - len * dx && vy == uy - len * dy
    ensures Cross(vx, vy, dx, dy) == Cross(ux, uy, dx, dy)
  {
  }

  lemma OtherWay(z: Pt, x: real, y: real, dx: real, dy: real)
    ensures Beside(z, x, y, -dx, -dy) == -Beside(z, x, y, dx, dy)
  {
    var ux, uy := z.x - x, z.y - y;
    assert Cross(ux, uy, -dx, -dy) == -Cross(ux, uy, dx, dy);
    hide Cross;
  }

  /** Both ends of side k of an outline lie w beside the segment that leaves p. */
  ghost predicate RunsBeside(outline: seq<Pt>, k: nat, p: StrokePoint, w: real) {
    k + 1 < |outline| && Beside(outline[k], p.x, p.y, p.dx, p.dy) == w &&
    Beside(outline[k + 1], p.x, p.y, p.dx, p.dy) == w
  }

  // The sides as far as they go at some point.
  ghost predicate Begins(now: Sides, all: Sides) {
    now.fwd <= all.fwd && |now.back| <= |all.back| && all.back[|all.back| - |now.back|..] == now.back
  }

  lemma {:induction false} SidesGrow(t: Trig, join: LineJoin, points: seq<StrokePoint>, width: real, ncap: int,
                                     start: Sides, s: nat, j: nat, n: nat)
    requires ncap >= 2 && s <= j <= n <= |points| && start.back != [] && start.fwd != []
    ensures var a := SidesUpTo(t, join, points, width, ncap, start, s, j);
            var b := SidesUpTo(t, join, points, width, ncap, start, s, n);
            Begins(a, b)
    decreases n
  {
    hide JoinSides, SidesUpTo, Begins;
    var a := SidesUpTo(t, join, points, width, ncap, start, s, j);
    if n == j {
      BeginsItself(a);
    } else {
      SidesGrow(t, join, points, width, ncap, start, s, j, n - 1);
      SidesNext(t, join, points, width, ncap, start, s, n - 1);
      var b := SidesUpTo(t, join, points, width, ncap, start, s, n - 1);
      BeginsMore(a, b, JoinSides(t, join, Prev(points, n - 1), points[n - 1], width, ncap));
    }
  }

  lemma BeginsItself(a: Sides)
    ensures Begins(a, a)
  {
  }

  lemma BeginsMore(a: Sides, b: Sides, js: Sides)
    requires Begins(a, b)
    ensures Begins(a, Sides(js.back + b.back, b.fwd + js.fwd))
  {
    assert (js.back + b.back)[|js.back + b.back| - |a.back|..] == b.back[|b.back| - |a.back|..];
  }

  /** A line as its caps and joins expect it: each point leads to the next in its own direction, and its extrusions
      reach. */
  ghost predicate GoodLine(t: Trig, points: seq<StrokePoint>) {
    |points| >= 2 &&
    (forall i :: 0 <= i < |points| - 1 ==>
       Leads(points[i], points[i + 1]) && Direction(t, points[i], points[i + 1]) == (points[i].dx, points[i].dy)) &&
    forall i :: 0 < i < |points| - 1 ==> Meets(points[i - 1], points[i])
  }

  lemma GoodJoin(t: Trig, points: seq<StrokePoint>, i: nat)
    requires GoodLine(t, points) && 0 < i < |points| - 1
    ensures Leads(points[i - 1], points[i]) && Meets(points[i - 1], points[i]) && Prev(points, i) == points[i - 1]
    ensures Unit(points[i - 1].dx, points[i - 1].dy) && Unit(points[i].dx, points[i].dy)
  {
    assert Leads(points[i - 1], points[i - 1 + 1]);
    assert Leads(points[i], points[i + 1]);
    hide Meets;
  }

  // ----- open lines -----

  /** The sides of a line up to and including the join at point i, or its start cap. */
  function OpenUpTo(t: Trig, join: LineJoin, cap: LineCap, points: seq<StrokePoint>, width: real, ncap: int, i: nat)
    : (r: Sides)
    requires ncap >= 2 && i + 1 < |points|
    ensures r.back != [] && r.fwd != []
  {
    var c := StartCap(t, cap, points, width, ncap);
    SidesUpTo(t, join, points, width, ncap, Sides([c[0]], [c[|c| - 1]]), 1, i + 1)
  }

  /** Where the sides leave point i they are half the width beside the segment that leaves it. */
  lemma LeavesBeside(t: Trig, join: LineJoin, cap: LineCap, points: seq<StrokePoint>, width: real, ncap: int, i: nat)
    requires GoodTrig(t) && ncap >= 2 && i + 1 < |points| && GoodLine(t, points)
    ensures var r, p, w := OpenUpTo(t, join, cap, points, width, ncap, i), points[i], width * 0.5;
            Beside(r.fwd[|r.fwd| - 1], p.x, p.y, p.dx, p.dy) == w && Beside(r.back[0], p.x, p.y, p.dx, p.dy) == -w
  {
    hide GoodTrig, Beside, Unit, JoinSides, CapPoints, Meets;
    var c := StartCap(t, cap, points, width, ncap);
    var start := Sides([c[0]], [c[|c| - 1]]);
    if i == 0 {
      assert Leads(points[0], points[0 + 1]);
      CapIs(t, cap, points[0], points[0].dx, points[0].dy, width, ncap);
    } else {
      GoodJoin(t, points, i);
      JoinFlanks(t, join, points[i - 1], points[i], width, ncap);
      SidesNext(t, join, points, width, ncap, start, 1, i);
    }
  }

  /** Where the sides reach point i + 1, at its join or at the end cap, they are half the width beside the segment that
      leads there. */
  lemma ReachesBeside(t: Trig, join: LineJoin, points: seq<StrokePoint>, width: real, ncap: int, i: nat)
    requires GoodTrig(t) && ncap >= 2 && i + 2 < |points| && GoodLine(t, points)
    ensures var r, p, w := JoinSides(t, join, points[i], points[i + 1], width, ncap), points[i], width * 0.5;
            Beside(r.fwd[0], p.x, p.y, p.dx, p.dy) == w && Beside(r.back[|r.back| - 1], p.x, p.y, p.dx, p.dy) == -w
  {
    hide GoodTrig, Beside, Unit, JoinSides, Meets;
    GoodJoin(t, points, i + 1);
    JoinFlanks(t, join, points[i], points[i + 1], width, ncap);
    var r := JoinSides(t, join, points[i], points[i + 1], width, ncap);
    SameLine(points[i], points[i + 1], r.fwd[0]);
    SameLine(points[i], points[i + 1], r.back[|r.back| - 1]);
  }

  lemma EndsBeside(t: Trig, cap: LineCap, points: seq<StrokePoint>, width: real, ncap: int)
    requires GoodTrig(t) && ncap >= 2 && GoodLine(t, points)
    ensures var c, p, w := EndCap(t, cap, points, width, ncap), points[|points| - 2], width * 0.5;
            Beside(c[0], p.x, p.y, p.dx, p.dy) == w && Beside(c[|c| - 1], p.x, p.y, p.dx, p.dy) == -w
  {
    hide GoodTrig, Beside, CapPoints, Meets;
    var n := |points|;
    var p, q := points[n - 2], points[n - 1];
    assert Leads(p, points[n - 2 + 1]);
    assert Unit(-p.dx, -p.dy);
    hide Unit;
    CapIs(t, cap, q, -p.dx, -p.dy, width, ncap);
    var c := EndCap(t, cap, points, width, ncap);
    OtherWay(c[0], q.x, q.y, p.dx, p.dy);
    OtherWay(c[|c| - 1], q.x, q.y, p.dx, p.dy);
    SameLine(p, q, c[0]);
    SameLine(p, q, c[|c| - 1]);
  }

  // Where the sides of one segment lie in a closed sequence of points.
  lemma Neighbours(head: seq<Pt>, fwd: seq<Pt>, tail: seq<Pt>, back: seq<Pt>, f: seq<Pt>, b: seq<Pt>)
    returns (k: nat, l: nat)
    requires head != [] && fwd != [] && tail != [] && back != [] && head[|head| - 1] == fwd[0]
    requires f != [] && b != [] && f <= fwd && |b| <= |back| && back[|back| - |b|..] == b
    requires |f| < |fwd| <==> |b| < |back|
    ensures var o := head + fwd[1..] + tail + back;
            k + 1 < |o| && l + 1 < |o| && o[k] == f[|f| - 1] && o[l + 1] == b[0] &&
            o[k + 1] == (if |f| < |fwd| then fwd[|f|] else tail[0]) &&
            o[l] == (if |b| < |back| then back[|back| - |b| - 1] else tail[|tail| - 1])
  {
    k := |head| - 1 + |f| - 1;
    l := |head| + |fwd| - 1 + |tail| + |back| - |b| - 1;
  }

  /** Behind `now` the sides `all` go on with what a join adds. */
  ghost predicate Continues(now: Sides, all: Sides, js: Sides) {
    js.fwd != [] && js.back != [] && |now.fwd| < |all.fwd| && |now.back| < |all.back| &&
    all.fwd[|now.fwd|] == js.fwd[0] && all.back[|all.back| - |now.back| - 1] == js.back[|js.back| - 1]
  }

  lemma NextJoin(t: Trig, join: LineJoin, points: seq<StrokePoint>, width: real, ncap: int, start: Sides, s: nat,
                 j: nat, n: nat)
    requires ncap >= 2 && s <= j <= n <= |points| && start.back != [] && start.fwd != []
    ensures var now, all := SidesUpTo(t, join, points, width, ncap, start, s, j),
                            SidesUpTo(t, join, points, width, ncap, start, s, n);
            Begins(now, all) &&
            (j < n ==> Continues(now, all, JoinSides(t, join, Prev(points, j), points[j], width, ncap)))
  {
    hide JoinSides, SidesUpTo, Begins, Continues;
    SidesGrow(t, join, points, width, ncap, start, s, j, n);
    if j < n {
      SidesNext(t, join, points, width, ncap, start, s, j);
      SidesGrow(t, join, points, width, ncap, start, s, j + 1, n);
      var now, next := SidesUpTo(t, join, points, width, ncap, start, s, j),
                       SidesUpTo(t, join, points, width, ncap, start, s, j + 1);
      NextOnSides(now, next, SidesUpTo(t, join, points, width, ncap, start, s, n),
                  JoinSides(t, join, Prev(points, j), points[j], width, ncap));
    }
  }

  // Behind point i of an open line: the next join, or the end cap.
  lemma OpenNext(t: Trig, join: LineJoin, cap: LineCap, points: seq<StrokePoint>, width: real, ncap: int, i: nat)
    requires ncap >= 2 && i + 1 < |points|
    ensures var now := OpenUpTo(t, join, cap, points, width, ncap, i);
            var all := OpenSides(t, join, cap, points, width, ncap);
            Begins(now, all) &&
            if i + 2 == |points| then all == now
            else Continues(now, all, JoinSides(t, join, points[i], points[i + 1], width, ncap))
  {
    hide StartCap, SidesUpTo, JoinSides, Begins, Continues;
    var c := StartCap(t, cap, points, width, ncap);
    NextJoin(t, join, points, width, ncap, Sides([c[0]], [c[|c| - 1]]), 1, i + 1, |points| - 1);
  }

  lemma NextOnSides(now: Sides, next: Sides, all: Sides, js: Sides)
    requires js.back != [] && js.fwd != [] && next == Sides(js.back + now.back, now.fwd + js.fwd) && Begins(next, all)
    ensures Continues(now, all, js)
  {
    assert next.fwd[|now.fwd|] == js.fwd[0] && next.back[|js.back| - 1] == js.back[|js.back| - 1];
    BackIndex(all.back, next.back, |js.back| - 1);
  }

  // q lies w beside the segment that leaves p.
  ghost predicate LiesBeside(q: Pt, p: StrokePoint, w: real) {
    Beside(q, p.x, p.y, p.dx, p.dy) == w
  }

  // The sides as they are behind the join at some point, with what follows them.
  ghost predicate Going(all: Sides, now: Sides, p: StrokePoint, w: real) {
    now.fwd != [] && now.back != [] && now.fwd <= all.fwd && |now.back| <= |all.back| &&
    all.back[|all.back| - |now.back|..] == now.back &&
    LiesBeside(now.fwd[|now.fwd| - 1], p, w) && LiesBeside(now.back[0], p, -w)
  }

  ghost predicate GoesOn(all: Sides, now: Sides, p: StrokePoint, w: real) {
    Going(all, now, p, w) && |now.fwd| < |all.fwd| && |now.back| < |all.back| &&
    LiesBeside(all.fwd[|now.fwd|], p, w) && LiesBeside(all.back[|all.back| - |now.back| - 1], p, -w)
  }

  // The sides of a segment in the outline of an open line, between two joins or at the end cap.
  lemma OpenSideMiddle(head: seq<Pt>, all: Sides, tail: seq<Pt>, now: Sides, p: StrokePoint, w: real)
    returns (k: nat, l: nat)
    requires head != [] && tail != [] && all.fwd != [] && head[|head| - 1] == all.fwd[0]
    requires GoesOn(all, now, p, w) ||
             (Going(all, now, p, w) && all == now && LiesBeside(tail[0], p, w) && LiesBeside(tail[|tail| - 1], p, -w))
    ensures var o := head + all.fwd[1..] + tail + all.back; RunsBeside(o, k, p, w) && RunsBeside(o, l, p, -w)
  {
    hide Beside;
    k, l := Neighbours(head, all.fwd, tail, all.back, now.fwd, now.back);
  }

  lemma OpenGoesOn(t: Trig, join: LineJoin, cap: LineCap, points: seq<StrokePoint>, width: real, ncap: int, i: nat)
    requires GoodTrig(t) && ncap >= 2 && i + 1 < |points| && GoodLine(t, points)
    ensures var now := OpenUpTo(t, join, cap, points, width, ncap, i);
            var all := OpenSides(t, join, cap, points, width, ncap);
            var tail, p, w := EndCap(t, cap, points, width, ncap), points[i], width * 0.5;
            if i + 2 < |points| then GoesOn(all, now, p, w)
            else Going(all, now, p, w) && all == now && LiesBeside(tail[0], p, w) && LiesBeside(tail[|tail| - 1], p, -w)
  {
    hide GoodTrig, GoodLine, Beside, JoinSides, EndCap, OpenUpTo, OpenSides;
    LeavesBeside(t, join, cap, points, width, ncap, i);
    OpenNext(t, join, cap, points, width, ncap, i);
    if i + 2 < |points| {
      ReachesBeside(t, join, points, width, ncap, i);
    } else {
      EndsBeside(t, cap, points, width, ncap);
    }
  }

  lemma OpenOutlineIs(t: Trig, join: LineJoin, cap: LineCap, points: seq<StrokePoint>, width: real, ncap: int)
    requires ncap >= 2 && |points| >= 2
    ensures var all, head := OpenSides(t, join, cap, points, width, ncap), StartCap(t, cap, points, width, ncap);
            all.fwd != [] && head[|head| - 1] == all.fwd[0] &&
            OpenOutline(t, join, cap, points, width, ncap)
            == head + all.fwd[1..] + EndCap(t, cap, points, width, ncap) + all.back
  {
    hide OpenSides, StartCap, EndCap;
  }

  /** An open stroke is as wide as it should be: on either side of every segment of the line its outline runs half the
      width beside the segment. */
  lemma OpenStrokeWidth(t: Trig, join: LineJoin, cap: LineCap, points: seq<StrokePoint>, width: real, ncap: int, i: nat)
    returns (k: nat, l: nat)
    requires GoodTrig(t) && ncap >= 2 && i + 1 < |points| && GoodLine(t, points)
    ensures var o := OpenOutline(t, join, cap, points, width, ncap);
            RunsBeside(o, k, points[i], width * 0.5) && RunsBeside(o, l, points[i], -(width * 0.5))
  {
    hide *;
    OpenOutlineIs(t, join, cap, points, width, ncap);
    OpenGoesOn(t, join, cap, points, width, ncap, i);
    k, l := OpenSideMiddle(StartCap(t, cap, points, width, ncap), OpenSides(t, join, cap, points, width, ncap),
                           EndCap(t, cap, points, width, ncap), OpenUpTo(t, join, cap, points, width, ncap, i),
                           points[i], width * 0.5);
  }

  lemma BackIndex<T>(b: seq<T>, a: seq<T>, k: nat)
    requires |a| <= |b| && b[|b| - |a|..] == a && k < |a|
    ensures b[|b| - |a| + k] == a[k]
  {
  }

  // ----- closed lines -----

  /** A closed line: the last point leads back to the first, and there is a join at every point. */
  ghost predicate GoodRing(t: Trig, points: seq<StrokePoint>) {
    points != [] &&
    forall i :: 0 <= i < |points| ==>
      Leads(points[i], Following(points, i)) && Meets(Prev(points, i), points[i]) &&
      Direction(t, points[i], Following(points, i)) == (points[i].dx, points[i].dy)
  }

  lemma RingJoin(t: Trig, points: seq<StrokePoint>, i: nat)
    requires GoodRing(t, points) && i < |points|
    ensures var p := Prev(points, i);
            Leads(p, points[i]) && Meets(p, points[i]) && Unit(p.dx, p.dy) && Unit(points[i].dx, points[i].dy)
    ensures i == 0 ==> Direction(t, Prev(points, 0), points[0]) == (Prev(points, 0).dx, Prev(points, 0).dy)
  {
    hide Meets, Direction;
    var j := if i == 0 then |points| - 1 else i - 1;
    assert points[j] == Prev(points, i) && Following(points, j) == points[i];
    assert Leads(points[j], Following(points, j)) && Leads(points[i], Following(points, i));
  }

  lemma MidwayOffset(dx: real, dy: real, h: real, w: real, ux: real, uy: real)
    requires Unit(dx, dy) && ux == dx * h + dy * w && uy == dy * h - dx * w
    ensures Cross(ux, uy, dx, dy) == w
  {
    var n := dx * dx + dy * dy;
    assert ux * dy - uy * dx == w * n;
  }

  // A point h in front of p and w beside it.
  lemma MidwayBeside(p: StrokePoint, h: real, w: real, q: Pt)
    requires Unit(p.dx, p.dy) && q.x == p.x + p.dx * h + p.dy * w && q.y == p.y + p.dy * h - p.dx * w
    ensures Beside(q, p.x, p.y, p.dx, p.dy) == w
  {
    MidwayOffset(p.dx, p.dy, h, w, q.x - p.x, q.y - p.y);
    hide Cross, Unit;
  }

  lemma HalfLength(a: real, len: real)
    ensures a * len * 0.5 == a * (len * 0.5)
  {
  }

  lemma InitBeside(t: Trig, p0: StrokePoint, p1: StrokePoint, width: real)
    requires Unit(p0.dx, p0.dy) && Direction(t, p0, p1) == (p0.dx, p0.dy)
    ensures var r, w := InitClosed(t, p0, p1, width), width * 0.5;
            Beside(r.fwd[0], p0.x, p0.y, p0.dx, p0.dy) == w && Beside(r.back[0], p0.x, p0.y, p0.dx, p0.dy) == -w
  {
    hide Normalize, Unit, Beside;
    var r, w := InitClosed(t, p0, p1, width), width * 0.5;
    var len := Normalize(t, p1.x - p0.x, p1.y - p0.y).2;
    HalfLength(p0.dx, len);
    HalfLength(p0.dy, len);
    MidwayBeside(p0, len * 0.5, w, r.fwd[0]);
    MidwayBeside(p0, len * 0.5, -w, r.back[0]);
  }

  function ClosedUpTo(t: Trig, join: LineJoin, points: seq<StrokePoint>, width: real, ncap: int, j: nat): (r: Sides)
    requires ncap >= 2 && points != [] && j <= |points|
    ensures r.back != [] && r.fwd != []
  {
    SidesUpTo(t, join, points, width, ncap, InitClosed(t, Prev(points, 0), points[0], width), 0, j)
  }

  lemma ClosedNext(t: Trig, join: LineJoin, points: seq<StrokePoint>, width: real, ncap: int, j: nat)
    requires ncap >= 2 && points != [] && j <= |points|
    ensures var now, all := ClosedUpTo(t, join, points, width, ncap, j), ClosedSides(t, join, points, width, ncap);
            Begins(now, all) &&
            if j == |points| then all == now
            else Continues(now, all, JoinSides(t, join, Prev(points, j), points[j], width, ncap))
  {
    hide *;
    ClosedIs(t, join, points, width, ncap, j);
    NextJoin(t, join, points, width, ncap, InitClosed(t, Prev(points, 0), points[0], width), 0, j, |points|);
  }

  lemma ClosedIs(t: Trig, join: LineJoin, points: seq<StrokePoint>, width: real, ncap: int, j: nat)
    requires ncap >= 2 && points != [] && j <= |points|
    ensures var start := InitClosed(t, Prev(points, 0), points[0], width);
            ClosedUpTo(t, join, points, width, ncap, j) == SidesUpTo(t, join, points, width, ncap, start, 0, j) &&
            ClosedSides(t, join, points, width, ncap) == SidesUpTo(t, join, points, width, ncap, start, 0, |points|)
  {
    hide SidesUpTo, InitClosed;
  }

  /** What the join at point j adds: it lies half the width beside the segment before the point and the one behind it.
      */
  lemma RingFlanks(t: Trig, join: LineJoin, points: seq<StrokePoint>, width: real, ncap: int, j: nat)
    requires GoodTrig(t) && ncap >= 2 && GoodRing(t, points) && j < |points|
    ensures var r, p, q, w := JoinSides(t, join, Prev(points, j), points[j], width, ncap), Prev(points, j), points[j],
                              width * 0.5;
            Beside(r.fwd[0], p.x, p.y, p.dx, p.dy) == w && Beside(r.back[|r.back| - 1], p.x, p.y, p.dx, p.dy) == -w &&
            Beside(r.fwd[|r.fwd| - 1], q.x, q.y, q.dx, q.dy) == w && Beside(r.back[0], q.x, q.y, q.dx, q.dy) == -w
  {
    hide GoodTrig, GoodRing, Beside, Unit, JoinSides, Meets, Direction, Leads;
    RingJoin(t, points, j);
    var p, q := Prev(points, j), points[j];
    JoinFlanks(t, join, p, q, width, ncap);
    var r := JoinSides(t, join, p, q, width, ncap);
    SameLine(p, q, r.fwd[0]);
    SameLine(p, q, r.back[|r.back| - 1]);
  }

  lemma RingHasPoints(t: Trig, points: seq<StrokePoint>)
    requires GoodRing(t, points)
    ensures points != []
  {
  }

  lemma RingEnds(t: Trig, join: LineJoin, points: seq<StrokePoint>, width: real, ncap: int)
    requires GoodTrig(t) && ncap >= 2 && GoodRing(t, points)
    ensures var all, p, w := ClosedSides(t, join, points, width, ncap), Prev(points, 0), width * 0.5;
            Beside(all.fwd[0], p.x, p.y, p.dx, p.dy) == w &&
            Beside(all.back[|all.back| - 1], p.x, p.y, p.dx, p.dy) == -w
  {
    hide GoodTrig, GoodRing, Beside, Unit, JoinSides, Meets, Direction, InitClosed, SidesUpTo;
    RingHasPoints(t, points);
    RingJoin(t, points, 0);
    InitBeside(t, Prev(points, 0), points[0], width);
  }

  lemma LeavesRing(t: Trig, join: LineJoin, points: seq<StrokePoint>, width: real, ncap: int, i: nat)
    requires GoodTrig(t) && ncap >= 2 && GoodRing(t, points) && i < |points|
    ensures var r, p, w := ClosedUpTo(t, join, points, width, ncap, i + 1), points[i], width * 0.5;
            Beside(r.fwd[|r.fwd| - 1], p.x, p.y, p.dx, p.dy) == w && Beside(r.back[0], p.x, p.y, p.dx, p.dy) == -w
  {
    hide GoodTrig, GoodRing, Beside, JoinSides, InitClosed;
    RingFlanks(t, join, points, width, ncap, i);
    SidesNext(t, join, points, width, ncap, InitClosed(t, Prev(points, 0), points[0], width), 0, i);
    hide SidesUpTo;
  }

  lemma RingSideMiddle(all: Sides, now: Sides, p: StrokePoint, w: real) returns (k: nat, l: nat)
    requires GoesOn(all, now, p, w)
    ensures RunsBeside(RightRing(all), k, p, w) && RunsBeside(LeftRing(all), l, p, -w)
    ensures k == |now.fwd| - 1 && l == |all.back| - |now.back|
  {
    hide Beside;
    k, l := |now.fwd| - 1, |all.back| - |now.back|;
    assert LeftRing(all)[l + 1] == now.back[0];
  }

  lemma RingSideLast(all: Sides, p: StrokePoint, w: real) returns (k: nat, l: nat)
    requires Going(all, all, p, w)
    requires LiesBeside(all.fwd[0], p, w) && LiesBeside(all.back[|all.back| - 1], p, -w)
    ensures RunsBeside(RightRing(all), k, p, w) && RunsBeside(LeftRing(all), l, p, -w)
  {
    hide Beside;
    k, l := |all.fwd| - 1, 0;
  }

  lemma RingGoesOn(t: Trig, join: LineJoin, points: seq<StrokePoint>, width: real, ncap: int, i: nat)
    requires GoodTrig(t) && ncap >= 2 && GoodRing(t, points) && i < |points|
    ensures var all, now := ClosedSides(t, join, points, width, ncap), ClosedUpTo(t, join, points, width, ncap, i + 1);
            if i + 1 < |points| then GoesOn(all, now, points[i], width * 0.5)
            else all == now && Going(all, all, points[i], width * 0.5)
  {
    hide GoodTrig, GoodRing, Beside, JoinSides, ClosedUpTo, ClosedSides;
    LeavesRing(t, join, points, width, ncap, i);
    ClosedNext(t, join, points, width, ncap, i + 1);
    if i + 1 < |points| {
      RingFlanks(t, join, points, width, ncap, i + 1);
    }
  }

  lemma RingStarts(t: Trig, join: LineJoin, points: seq<StrokePoint>, width: real, ncap: int)
    requires GoodTrig(t) && ncap >= 2 && GoodRing(t, points)
    ensures var all, now := ClosedSides(t, join, points, width, ncap), ClosedUpTo(t, join, points, width, ncap, 0);
            |now.fwd| == |now.back| == 1 && GoesOn(all, now, points[|points| - 1], width * 0.5)
  {
    hide GoodTrig, GoodRing, Beside, JoinSides, InitClosed, ClosedSides, ClosedUpTo;
    RingHasPoints(t, points);
    RingEnds(t, join, points, width, ncap);
    ClosedNext(t, join, points, width, ncap, 0);
    RingFlanks(t, join, points, width, ncap, 0);
    NothingJoined(t, join, points, width, ncap);
    var all, now := ClosedSides(t, join, points, width, ncap), ClosedUpTo(t, join, points, width, ncap, 0);
    assert all.back[|all.back| - 1..] == now.back;
  }

  lemma NothingJoined(t: Trig, join: LineJoin, points: seq<StrokePoint>, width: real, ncap: int)
    requires ncap >= 2 && points != []
    ensures var now := ClosedUpTo(t, join, points, width, ncap, 0); |now.fwd| == |now.back| == 1
  {
    hide InitClosed;
  }

  /** So is a closed stroke: its right ring runs half the width beside every segment, and its left ring half the width
      beside it on the other side. The segment back to the first point has two such sides in each ring, before and
      behind its middle. */
  lemma ClosedStrokeWidth(t: Trig, join: LineJoin, points: seq<StrokePoint>, width: real, ncap: int, i: nat)
    returns (k: nat, l: nat)
    requires GoodTrig(t) && ncap >= 2 && GoodRing(t, points) && i < |points|
    ensures var s := ClosedSides(t, join, points, width, ncap);
            var right, left, last := RightRing(s), LeftRing(s), points[|points| - 1];
            RunsBeside(right, k, points[i], width * 0.5) && RunsBeside(left, l, points[i], -(width * 0.5)) &&
            RunsBeside(right, 0, last, width * 0.5) && RunsBeside(left, |left| - 2, last, -(width * 0.5))
  {
    hide GoodTrig, GoodRing, RunsBeside, RightRing, LeftRing, ClosedSides, ClosedUpTo, GoesOn, Beside;
    var all := ClosedSides(t, join, points, width, ncap);
    RingStarts(t, join, points, width, ncap);
    RingGoesOn(t, join, points, width, ncap, i);
    var k0, l0 := RingSideMiddle(all, ClosedUpTo(t, join, points, width, ncap, 0), points[|points| - 1], width * 0.5);
    LeftLength(all);
    if i + 1 < |points| {
      k, l := RingSideMiddle(all, ClosedUpTo(t, join, points, width, ncap, i + 1), points[i], width * 0.5);
    } else {
      RingEndsThere(t, join, points, width, ncap);
      k, l := RingSideLast(all, points[i], width * 0.5);
    }
  }

  lemma LeftLength(s: Sides)
    requires s.back != []
    ensures |LeftRing(s)| == |s.back| + 1
  {
  }

  lemma RingEndsThere(t: Trig, join: LineJoin, points: seq<StrokePoint>, width: real, ncap: int)
    requires GoodTrig(t) && ncap >= 2 && GoodRing(t, points)
    ensures var all, last := ClosedSides(t, join, points, width, ncap), points[|points| - 1];
            LiesBeside(all.fwd[0], last, width * 0.5) && LiesBeside(all.back[|all.back| - 1], last, -(width * 0.5))
  {
    RingEnds(t, join, points, width, ncap);
    hide GoodTrig, GoodRing, ClosedSides, Beside;
  }

  // ----- prepared lines -----

  /** More than a millionth apart. */
  predicate Apart(p: StrokePoint, q: StrokePoint) {
    SquaredNorm(q.x - p.x, q.y - p.y) > 0.000000000001
  }

  lemma RootIs(t: Trig, v: real)
    requires GoodTrig(t) && v >= 0.0
    ensures t.sqrt(v) >= 0.0 && t.sqrt(v) * t.sqrt(v) == v
  {
    assert GoodRoot(t, v);
    hide GoodTrig;
  }

  lemma LongEnough(d: real)
    requires d >= 0.0 && d * d > 0.000000000001
    ensures d > 0.000001
  {
    assert d <= 0.000001 ==> d * d <= 0.000001 * d;
  }

  lemma NormalizedParts(vx: real, vy: real, d: real, f: real, dx: real, dy: real)
    requires d * f == 1.0 && dx == vx * f && dy == vy * f && d * d == SquaredNorm(vx, vy)
    ensures Unit(dx, dy) && vx == d * dx && vy == d * dy
  {
    assert d * dx == vx * (d * f) && d * dy == vy * (d * f);
    assert dx * dx + dy * dy == (vx * vx + vy * vy) * (f * f);
    assert d * d * (f * f) == (d * f) * (d * f);
  }

  lemma DividedIsUnit(vx: real, vy: real, d: real)
    requires d >= 0.0 && d * d == SquaredNorm(vx, vy) > 0.000000000001
    ensures var n := DividedBy(vx, vy, d); Unit(n.0, n.1) && vx == n.2 * n.0 && vy == n.2 * n.1
  {
    LongEnough(d);
    NormalizedParts(vx, vy, d, 1.0 / d, vx * (1.0 / d), vy * (1.0 / d));
    hide Unit, SquaredNorm;
  }

  lemma NormalizeIsUnit(t: Trig, vx: real, vy: real)
    requires GoodTrig(t) && SquaredNorm(vx, vy) > 0.000000000001
    ensures var n := Normalize(t, vx, vy); Unit(n.0, n.1) && vx == n.2 * n.0 && vy == n.2 * n.1
  {
    hide GoodTrig, Unit, SquaredNorm, DividedBy;
    var v := SquaredNorm(vx, vy);
    RootIs(t, v);
    DividedIsUnit(vx, vy, t.sqrt(v));
  }

  /** Next to no length is left as it is. */
  lemma ShortIsKept(t: Trig, vx: real, vy: real)
    requires GoodTrig(t) && SquaredNorm(vx, vy) <= 0.000000000001
    ensures var n := Normalize(t, vx, vy); n.0 == vx && n.1 == vy
  {
    hide GoodTrig, SquaredNorm;
    var v := SquaredNorm(vx, vy);
    NormNotNegative(vx, vy);
    RootIs(t, v);
    ShortEnough(t.sqrt(v));
  }

  lemma ShortEnough(d: real)
    requires d >= 0.0 && d * d <= 0.000000000001
    ensures d <= 0.000001
  {
    assert d > 0.000001 ==> d * d > 0.000001 * d;
  }

  lemma DirectionLeads(t: Trig, p: StrokePoint, q: StrokePoint, d: StrokePoint)
    requires GoodTrig(t) && Apart(p, q) && d.x == p.x && d.y == p.y && (d.dx, d.dy) == Direction(t, p, q)
    ensures Leads(d, q)
  {
    hide GoodTrig, Unit, SquaredNorm, Normalize;
    NormalizeIsUnit(t, q.x - p.x, q.y - p.y);
    var len := Normalize(t, q.x - p.x, q.y - p.y).2;
    assert Onward(d, q, len);
  }

  /** A prepared point stays where it is and has the direction of the segment that leaves it. */
  lemma PreparedKeeps(t: Trig, join: LineJoin, miterLimit: real, raw: seq<StrokePoint>, i: nat)
    requires i < |raw|
    ensures var p := PreparedLine(t, join, miterLimit, raw)[i];
            p.x == raw[i].x && p.y == raw[i].y && p.corner == raw[i].corner &&
            (p.dx, p.dy) == Direction(t, raw[i], Following(raw, i))
  {
    hide Direction, Stretch;
  }

  lemma PreparedLeads(t: Trig, join: LineJoin, miterLimit: real, raw: seq<StrokePoint>, i: nat)
    requires GoodTrig(t) && i < |raw| && Apart(raw[i], Following(raw, i))
    ensures var points := PreparedLine(t, join, miterLimit, raw);
            var p, q := points[i], Following(points, i);
            Leads(p, q) && Direction(t, p, q) == (p.dx, p.dy)
  {
    hide GoodTrig, PreparedLine, Direction, Leads, Apart;
    var points := PreparedLine(t, join, miterLimit, raw);
    PreparedKeeps(t, join, miterLimit, raw, i);
    PreparedKeeps(t, join, miterLimit, raw, if i + 1 < |raw| then i + 1 else 0);
    DirectionLeads(t, raw[i], Following(raw, i), points[i]);
    SamePlaces(t, points[i], Following(points, i), raw[i], Following(raw, i));
    LeadsThere(points[i], Following(raw, i), Following(points, i));
  }

  lemma LeadsThere(p: StrokePoint, q: StrokePoint, q': StrokePoint)
    requires Leads(p, q) && q.x == q'.x && q.y == q'.y
    ensures Leads(p, q')
  {
    hide Unit;
    var len: real :| Onward(p, q, len);
    assert Onward(p, q', len);
  }

  lemma PreparedIsExtruded(t: Trig, join: LineJoin, miterLimit: real, raw: seq<StrokePoint>, i: nat)
    requires i < |raw|
    ensures var points := PreparedLine(t, join, miterLimit, raw);
            var e := Extruded(join, miterLimit, Prev(points, i), points[i]);
            points[i].dmx == e.dmx && points[i].dmy == e.dmy && points[i].bevel == e.bevel && points[i].left == e.left
  {
    var d, points := AllDirected(t, raw), PreparedLine(t, join, miterLimit, raw);
    hide Direction, AllDirected, AllExtruded, PreparedLine, Extruded, Prev;
    PreparedFrom(t, join, miterLimit, raw, i);
    PrevPrepared(t, join, miterLimit, raw, i);
    SameExtrusion(join, miterLimit, Prev(points, i), Prev(d, i), points[i], d[i]);
  }

  lemma PrevPrepared(t: Trig, join: LineJoin, miterLimit: real, raw: seq<StrokePoint>, i: nat)
    requires i < |raw|
    ensures var d, p := AllDirected(t, raw), PreparedLine(t, join, miterLimit, raw);
            Prev(p, i).dx == Prev(d, i).dx && Prev(p, i).dy == Prev(d, i).dy
  {
    hide AllDirected, AllExtruded, PreparedLine, Extruded;
    PreparedFrom(t, join, miterLimit, raw, if i == 0 then |raw| - 1 else i - 1);
  }

  lemma PreparedFrom(t: Trig, join: LineJoin, miterLimit: real, raw: seq<StrokePoint>, i: nat)
    requires i < |raw|
    ensures var d, p := AllDirected(t, raw), PreparedLine(t, join, miterLimit, raw)[i];
            p == Extruded(join, miterLimit, Prev(d, i), d[i]) &&
            p.dx == d[i].dx && p.dy == d[i].dy && p.corner == d[i].corner
  {
    hide Direction, AllDirected, Stretch, CutsCorner;
  }

  lemma SameExtrusion(join: LineJoin, miterLimit: real, p: StrokePoint, p': StrokePoint, q: StrokePoint,
                      q': StrokePoint)
    requires p.dx == p'.dx && p.dy == p'.dy && q.dx == q'.dx && q.dy == q'.dy && q.corner == q'.corner
    ensures var e, e' := Extruded(join, miterLimit, p, q), Extruded(join, miterLimit, p', q');
            e.dmx == e'.dmx && e.dmy == e'.dmy && e.bevel == e'.bevel && e.left == e'.left
  {
    hide Stretch, SquaredNorm, CutsCorner;
  }

  lemma PreparedMeets(t: Trig, join: LineJoin, miterLimit: real, raw: seq<StrokePoint>, i: nat)
    requires i < |raw|
    requires var points := PreparedLine(t, join, miterLimit, raw);
             var p, q := Prev(points, i), points[i];
             Unit(p.dx, p.dy) && Unit(q.dx, q.dy) && Openness(p, q) >= 1.0 / 600.0
    ensures var points := PreparedLine(t, join, miterLimit, raw); Meets(Prev(points, i), points[i])
  {
    hide PreparedLine, Unit, Openness, Extruded, Cross, SquaredNorm;
    var points := PreparedLine(t, join, miterLimit, raw);
    PreparedIsExtruded(t, join, miterLimit, raw, i);
    ExtrusionMeetsIff(join, miterLimit, Prev(points, i), points[i]);
  }

  /** prepareStroke makes a good line of any points that keep a millionth apart, as long as no turn is sharper than the
      bound on the extrusion allows: its openness is at least a six-hundredth. */
  lemma PreparedIsGoodLine(t: Trig, join: LineJoin, miterLimit: real, raw: seq<StrokePoint>)
    requires GoodTrig(t) && |raw| >= 2
    requires forall i :: 0 <= i < |raw| - 1 ==> Apart(raw[i], raw[i + 1])
    requires var points := PreparedLine(t, join, miterLimit, raw);
             forall i :: 0 < i < |points| - 1 ==> Openness(points[i - 1], points[i]) >= 1.0 / 600.0
    ensures GoodLine(t, PreparedLine(t, join, miterLimit, raw))
  {
    hide GoodTrig, PreparedLine, Direction, Apart, Meets, Openness, Unit;
    var points := PreparedLine(t, join, miterLimit, raw);
    forall i | 0 <= i < |points| - 1
      ensures Leads(points[i], points[i + 1]) && Direction(t, points[i], points[i + 1]) == (points[i].dx, points[i].dy)
    {
      assert Apart(raw[i], raw[i + 1]);
      PreparedLeads(t, join, miterLimit, raw, i);
    }
    forall i | 0 < i < |points| - 1 ensures Meets(points[i - 1], points[i]) {
      assert Leads(points[i - 1], points[i - 1 + 1]) && Leads(points[i], points[i + 1]);
      PreparedMeets(t, join, miterLimit, raw, i);
    }
  }

  /** The same for a closed line. */
  lemma PreparedIsGoodRing(t: Trig, join: LineJoin, miterLimit: real, raw: seq<StrokePoint>)
    requires GoodTrig(t) && raw != []
    requires forall i :: 0 <= i < |raw| ==> Apart(raw[i], Following(raw, i))
    requires var points := PreparedLine(t, join, miterLimit, raw);
             forall i :: 0 <= i < |points| ==> Openness(Prev(points, i), points[i]) >= 1.0 / 600.0
    ensures GoodRing(t, PreparedLine(t, join, miterLimit, raw))
  {
    hide GoodTrig, PreparedLine, Direction, Apart, Meets, Openness, Unit;
    var points := PreparedLine(t, join, miterLimit, raw);
    forall i | 0 <= i < |points|
      ensures Leads(points[i], Following(points, i)) && Meets(Prev(points, i), points[i]) &&
              Direction(t, points[i], Following(points, i)) == (points[i].dx, points[i].dy)
    {
      var j := if i == 0 then |raw| - 1 else i - 1;
      assert Apart(raw[i], Following(raw, i)) && Apart(raw[j], Following(raw, j));
      PreparedLeads(t, join, miterLimit, raw, i);
      PreparedLeads(t, join, miterLimit, raw, j);
      PreparedMeets(t, join, miterLimit, raw, i);
    }
  }
}
