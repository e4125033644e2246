/** How near a flattened cubic stays to its points (nsvg__flattenCubicBez, src/External/nanosvg/nanosvgrast.h).

    The test for flatness bounds the distance from the line of the chord, along the whole piece. It does not ask the
    piece to stay over the chord itself; where it does, the points handed on are a chain no part of the curve is far
    from. */
module Flatness {
  import opened Edges
  import opened Flatten

  // ----- along and across the chord -----

  /** How far along the chord q is, times the chord's length. */
  function AlongChord(c: Cubic, q: Pt): real {
    (q.x - c.p1.x) * (c.p4.x - c.p1.x) + (q.y - c.p1.y) * (c.p4.y - c.p1.y)
  }

  function Weight1(t: real): real {
    (1.0 - t) * (1.0 - t) * (1.0 - t)
  }

  function Weight2(t: real): real {
    3.0 * (1.0 - t) * (1.0 - t) * t
  }

  lemma WeightsAddUp(t: real)
    ensures Weight1(t) + Weight2(t) + Weight2(1.0 - t) + Weight1(1.0 - t) == 1.0
    ensures Weight2(1.0 - t) == 3.0 * (1.0 - t) * t * t && Weight1(1.0 - t) == t * t * t
  {
    var it := 1.0 - t;
    assert 1.0 - it == t;
    var a, b, c, d := it * it * it, it * it * t, it * t * t, t * t * t;
    assert (it + t) * (it + t) * (it + t) == a + 3.0 * b + 3.0 * c + d;
    assert 3.0 * it * it * t == 3.0 * b;
    assert 3.0 * t * t * it == 3.0 * c;
    assert 3.0 * it * t * t == 3.0 * c;
  }

  lemma BernsteinIs(t: real, x1: real, x2: real, x3: real, x4: real)
    ensures Bernstein(t, x1, x2, x3, x4)
         == Weight1(t) * x1 + Weight2(t) * x2 + Weight2(1.0 - t) * x3 + Weight1(1.0 - t) * x4
  {
    WeightsAddUp(t);
  }

  lemma Distribute4(a: real, x1: real, x2: real, x3: real, x4: real)
    ensures a * (x1 + x2 + x3 + x4) == a * x1 + a * x2 + a * x3 + a * x4
  {
  }

  lemma WeightedLinear(w: real, a: real, b: real, k: real, x: real, y: real, v: real)
    requires v == a * x + b * y + k
    ensures w * v == a * (w * x) + b * (w * y) + k * w
  {
  }

  lemma CurveBlend(c: Cubic, t: real)
    ensures CurveAt(c, t).x
         == Weight1(t) * c.p1.x + Weight2(t) * c.p2.x + Weight2(1.0 - t) * c.p3.x + Weight1(1.0 - t) * c.p4.x
    ensures CurveAt(c, t).y
         == Weight1(t) * c.p1.y + Weight2(t) * c.p2.y + Weight2(1.0 - t) * c.p3.y + Weight1(1.0 - t) * c.p4.y
  {
    hide Bernstein, Weight1, Weight2;
    BernsteinIs(t, c.p1.x, c.p2.x, c.p3.x, c.p4.x);
    BernsteinIs(t, c.p1.y, c.p2.y, c.p3.y, c.p4.y);
  }

  /** A linear function of the curve's point is the same function of its control points, blended. */
  lemma BernsteinLinear(t: real, a: real, b: real, k: real, c: Cubic, v1: real, v2: real, v3: real, v4: real, v: real)
    requires v1 == a * c.p1.x + b * c.p1.y + k && v2 == a * c.p2.x + b * c.p2.y + k
    requires v3 == a * c.p3.x + b * c.p3.y + k && v4 == a * c.p4.x + b * c.p4.y + k
    requires v == a * CurveAt(c, t).x + b * CurveAt(c, t).y + k
    ensures v == Bernstein(t, v1, v2, v3, v4)
  {
    hide Weight1, Weight2, Bernstein, CurveAt;
    WeightsAddUp(t);
    CurveBlend(c, t);
    BernsteinIs(t, v1, v2, v3, v4);
    BlendLinear(Weight1(t), Weight2(t), Weight2(1.0 - t), Weight1(1.0 - t), a, b, k, c, v1, v2, v3, v4,
                CurveAt(c, t).x, CurveAt(c, t).y);
  }

  lemma BlendLinear(w1: real, w2: real, w3: real, w4: real, a: real, b: real, k: real, c: Cubic, v1: real, v2: real,
                    v3: real, v4: real, x: real, y: real)
    requires w1 + w2 + w3 + w4 == 1.0
    requires v1 == a * c.p1.x + b * c.p1.y + k && v2 == a * c.p2.x + b * c.p2.y + k
    requires v3 == a * c.p3.x + b * c.p3.y + k && v4 == a * c.p4.x + b * c.p4.y + k
    requires x == w1 * c.p1.x + w2 * c.p2.x + w3 * c.p3.x + w4 * c.p4.x
    requires y == w1 * c.p1.y + w2 * c.p2.y + w3 * c.p3.y + w4 * c.p4.y
    ensures a * x + b * y + k == w1 * v1 + w2 * v2 + w3 * v3 + w4 * v4
  {
    WeightedLinear(w1, a, b, k, c.p1.x, c.p1.y, v1);
    WeightedLinear(w2, a, b, k, c.p2.x, c.p2.y, v2);
    WeightedLinear(w3, a, b, k, c.p3.x, c.p3.y, v3);
    WeightedLinear(w4, a, b, k, c.p4.x, c.p4.y, v4);
    var x1, x2, x3, x4, y1, y2, y3, y4 := w1 * c.p1.x, w2 * c.p2.x, w3 * c.p3.x, w4 * c.p4.x, w1 * c.p1.y,
      w2 * c.p2.y, w3 * c.p3.y, w4 * c.p4.y;
    Distribute4(a, x1, x2, x3, x4);
    Distribute4(b, y1, y2, y3, y4);
    Distribute4(k, w1, w2, w3, w4);
  }

  lemma AcrossCurve(c: Cubic, t: real)
    ensures Across(c, CurveAt(c, t)) == Bernstein(t, 0.0, Across(c, c.p2), Across(c, c.p3), 0.0)
  {
    var a, b := c.p4.y - c.p1.y, -(c.p4.x - c.p1.x);
    var k := -(a * c.p4.x) - b * c.p4.y;
    hide Bernstein, CurveAt;
    LinearAcross(c, a, b, k, c.p1);
    LinearAcross(c, a, b, k, c.p2);
    LinearAcross(c, a, b, k, c.p3);
    LinearAcross(c, a, b, k, c.p4);
    LinearAcross(c, a, b, k, CurveAt(c, t));
    AcrossEnds(c);
    hide Across;
    BernsteinLinear(t, a, b, k, c, 0.0, Across(c, c.p2), Across(c, c.p3), 0.0, Across(c, CurveAt(c, t)));
  }

  lemma AcrossEnds(c: Cubic)
    ensures Across(c, c.p1) == 0.0 && Across(c, c.p4) == 0.0
  {
    var dx, dy := c.p4.x - c.p1.x, c.p4.y - c.p1.y;
    assert (c.p1.x - c.p4.x) * dy == -(dx * dy) && (c.p1.y - c.p4.y) * dx == -(dx * dy);
  }

  lemma LinearAcross(c: Cubic, a: real, b: real, k: real, q: Pt)
    requires a == c.p4.y - c.p1.y && b == -(c.p4.x - c.p1.x) && k == -(a * c.p4.x) - b * c.p4.y
    ensures a * q.x + b * q.y + k == Across(c, q)
  {
    Difference(a, q.x, c.p4.x);
    Difference(b, q.y, c.p4.y);
    Opposite(q.y - c.p4.y, b, c.p4.x - c.p1.x);
  }

  lemma Difference(a: real, x: real, y: real)
    ensures (x - y) * a == a * x - a * y
  {
  }

  lemma Opposite(x: real, b: real, d: real)
    requires b == -d
    ensures x * d == -(x * b)
  {
  }

  lemma AlongCurve(c: Cubic, t: real)
    ensures AlongChord(c, CurveAt(c, t)) == Bernstein(t, 0.0, AlongChord(c, c.p2), AlongChord(c, c.p3), Span(c))
  {
    var a, b := c.p4.x - c.p1.x, c.p4.y - c.p1.y;
    var k := -(a * c.p1.x) - b * c.p1.y;
    hide Bernstein, CurveAt;
    LinearAlong(c, a, b, k, c.p1);
    LinearAlong(c, a, b, k, c.p2);
    LinearAlong(c, a, b, k, c.p3);
    LinearAlong(c, a, b, k, c.p4);
    LinearAlong(c, a, b, k, CurveAt(c, t));
    assert AlongChord(c, c.p1) == 0.0 && AlongChord(c, c.p4) == Span(c);
    hide AlongChord, Span;
    BernsteinLinear(t, a, b, k, c, 0.0, AlongChord(c, c.p2), AlongChord(c, c.p3), Span(c),
                    AlongChord(c, CurveAt(c, t)));
  }

  lemma LinearAlong(c: Cubic, a: real, b: real, k: real, q: Pt)
    requires a == c.p4.x - c.p1.x && b == c.p4.y - c.p1.y && k == -(a * c.p1.x) - b * c.p1.y
    ensures a * q.x + b * q.y + k == AlongChord(c, q)
  {
    Difference(a, q.x, c.p1.x);
    Difference(b, q.y, c.p1.y);
  }

  // ----- a flat piece stays near the line of its chord -----

  lemma Products(x: real, y: real)
    requires x >= 0.0 && y >= 0.0
    ensures x * y >= 0.0
  {
  }

  lemma SquareOrder(x: real, y: real)
    requires -y <= x <= y
    ensures x * x <= y * y
  {
    Products(y - x, y + x);
    assert (y - x) * (y + x) == y * y - x * x;
  }

  lemma MiddleIs(t: real, it: real, s2: real, s3: real)
    requires it == 1.0 - t
    ensures Bernstein(t, 0.0, s2, s3, 0.0) == 3.0 * (it * t * (it * s2 + t * s3))
  {
    var u := it * t;
    assert 3.0 * it * it * t * s2 == 3.0 * (u * (it * s2));
    assert 3.0 * it * t * t * s3 == 3.0 * (u * (t * s3));
    assert u * (it * s2 + t * s3) == u * (it * s2) + u * (t * s3);
  }

  lemma QuarterAtMost(t: real, it: real)
    requires 0.0 <= t <= 1.0 && it == 1.0 - t
    ensures 0.0 <= it * t <= 0.25
  {
    Products(it, t);
    var d := t - 0.5;
    assert d * d == t * t - t + 0.25 && it * t == t - t * t;
    assert d * d >= 0.0;
  }

  lemma MiddleBound(t: real, s2: real, s3: real)
    requires 0.0 <= t <= 1.0
    ensures -(0.75 * (Abs(s2) + Abs(s3))) <= Bernstein(t, 0.0, s2, s3, 0.0) <= 0.75 * (Abs(s2) + Abs(s3))
  {
    var it, d := 1.0 - t, Abs(s2) + Abs(s3);
    MiddleIs(t, it, s2, s3);
    hide Bernstein;
    QuarterAtMost(t, it);
    Within(it, s2);
    Within(t, s3);
    Shrunk(it * t, it * s2 + t * s3, d);
  }

  lemma Within(t: real, s: real)
    requires 0.0 <= t <= 1.0
    ensures -Abs(s) <= t * s <= Abs(s)
  {
    var a := Abs(s);
    Products(t, a);
    Products(1.0 - t, a);
    assert (1.0 - t) * a == a - t * a;
    assert s == a || s == -a;
    assert t * -a == -(t * a);
  }

  lemma Shrunk(u: real, v: real, d: real)
    requires 0.0 <= u <= 0.25 && -d <= v <= d
    ensures -(0.25 * d) <= u * v <= 0.25 * d
  {
    Products(u, d - v);
    Products(u, d + v);
    Products(0.25 - u, d);
    assert u * (d - v) == u * d - u * v && u * (d + v) == u * d + u * v && (0.25 - u) * d == 0.25 * d - u * d;
  }

  /** No point of a flat piece is further from the line of its chord than three quarters of the square root of the
      tolerance. */
  lemma FlatStaysNearLine(c: Cubic, tessTol: real, t: real)
    requires Flat(c, tessTol) && 0.0 <= t <= 1.0
    ensures var d := Across(c, CurveAt(c, t)); 16.0 * (d * d) < 9.0 * (tessTol * Span(c))
  {
    hide Bernstein, CurveAt, Across, Span;
    AcrossCurve(c, t);
    var s2, s3 := Across(c, c.p2), Across(c, c.p3);
    MiddleBound(t, s2, s3);
    hide Abs;
    var d, e := Across(c, CurveAt(c, t)), Abs(s2) + Abs(s3);
    SquareOrder(d, 0.75 * e);
    assert 0.75 * e * (0.75 * e) == 0.5625 * (e * e);
  }

  // ----- where it also stays over the chord -----

  predicate Rises(a: real, b: real, l: real) {
    a >= 0.0 && (b >= 0.0 || 3.0 * (b * b) <= 4.0 * (a * l))
  }

  /** 0 at the start, l at the end, a and b between: the blend never falls below 0 if and only if a does not and b does
      not by too much. */
  lemma RisesIff(a: real, b: real, l: real)
    requires l > 0.0
    ensures (forall t :: 0.0 <= t <= 1.0 ==> Bernstein(t, 0.0, a, b, l) >= 0.0) <==> Rises(a, b, l)
  {
    hide Bernstein;
    if Rises(a, b, l) {
      forall t | 0.0 <= t <= 1.0 ensures Bernstein(t, 0.0, a, b, l) >= 0.0 {
        RisingIsAbove(a, b, l, t);
      }
    } else {
      var t := Below(a, b, l);
      assert 0.0 <= t <= 1.0 && Bernstein(t, 0.0, a, b, l) < 0.0;
    }
  }

  // The blend is t times a quadratic.
  function Quadratic(t: real, a: real, b: real, l: real): real {
    3.0 * ((1.0 - t) * (1.0 - t)) * a + 3.0 * ((1.0 - t) * t) * b + t * t * l
  }

  lemma BernsteinQuadratic(t: real, a: real, b: real, l: real)
    ensures Bernstein(t, 0.0, a, b, l) == t * Quadratic(t, a, b, l)
  {
    var it := 1.0 - t;
    assert 3.0 * it * it * t * a == t * (3.0 * (it * it) * a);
    assert 3.0 * it * t * t * b == t * (3.0 * (it * t) * b);
    assert t * t * t * l == t * (t * t * l);
  }

  lemma RisingIsAbove(a: real, b: real, l: real, t: real)
    requires l > 0.0 && Rises(a, b, l) && 0.0 <= t <= 1.0
    ensures Bernstein(t, 0.0, a, b, l) >= 0.0
  {
    hide Quadratic, Bernstein;
    BernsteinQuadratic(t, a, b, l);
    if b >= 0.0 {
      AllPositive(t, a, b, l);
    } else {
      SquarePositive(t, a, b, l, 3.0 * (a * l) - 2.25 * (b * b));
    }
    Products(t, Quadratic(t, a, b, l));
  }

  lemma SquarePositive(t: real, a: real, b: real, l: real, z: real)
    requires 0.0 <= t <= 1.0 && l > 0.0 && z == 3.0 * (a * l) - 2.25 * (b * b) && z >= 0.0
    ensures Quadratic(t, a, b, l) >= 0.0
  {
    hide Quadratic;
    var it := 1.0 - t;
    var r := CompletedSquare(t, it, a, b, l, z);
    Products(it, it);
    Products(it * it, z);
    Sign(Quadratic(t, a, b, l), l);
  }

  lemma AllPositive(t: real, a: real, b: real, l: real)
    requires 0.0 <= t <= 1.0 && a >= 0.0 && b >= 0.0 && l > 0.0
    ensures Quadratic(t, a, b, l) >= 0.0
  {
    var it := 1.0 - t;
    Products(it, it);
    Products(it, t);
    Products(t, t);
    Products(3.0 * (it * it), a);
    Products(3.0 * (it * t), b);
    Products(t * t, l);
  }

  lemma Sign(q: real, l: real)
    requires l > 0.0 && q * l >= 0.0
    ensures q >= 0.0
  {
  }

  lemma CompletedSquare(t: real, it: real, a: real, b: real, l: real, z: real) returns (r: real)
    requires it == 1.0 - t && z == 3.0 * (a * l) - 2.25 * (b * b)
    ensures Quadratic(t, a, b, l) * l == r * r + it * it * z && r * r >= 0.0
  {
    var x, y, w := t * l, it * b, it * it;
    r := x + 1.5 * y;
    assert r * r == x * x + 3.0 * (x * y) + 2.25 * (y * y);
    assert x * x == t * t * l * l;
    assert x * y == it * t * b * l;
    assert y * y == w * (b * b);
    assert w * z == 3.0 * (w * (a * l)) - 2.25 * (w * (b * b)) by {
      var m, n := a * l, b * b;
      assert w * (3.0 * m - 2.25 * n) == 3.0 * (w * m) - 2.25 * (w * n);
    }
    assert 3.0 * w * a * l == 3.0 * (w * (a * l));
    var q1, q2, q3 := 3.0 * w * a, 3.0 * (it * t) * b, t * t * l;
    assert (q1 + q2 + q3) * l == q1 * l + q2 * l + q3 * l;
    assert q2 * l == 3.0 * (it * t * b * l);
  }

  /** A place where a blend that does not rise is below 0. */
  lemma Below(a: real, b: real, l: real) returns (t: real)
    requires l > 0.0 && !Rises(a, b, l)
    ensures 0.0 < t < 1.0 && Bernstein(t, 0.0, a, b, l) < 0.0
  {
    var u := BelowRatio(a, b, l);
    t := u / (1.0 + u);
    RatioPlace(u, t);
    ScaledQuadratic(t, u, a, b, l);
    BernsteinQuadratic(t, a, b, l);
    hide Quadratic, Bernstein, Rises;
    var w := (1.0 - t) * (1.0 - t);
    Positive(1.0 - t, 1.0 - t);
    Negative(w, 3.0 * a + 3.0 * b * u + l * (u * u));
    Negative(t, Quadratic(t, a, b, l));
  }

  lemma BelowRatio(a: real, b: real, l: real) returns (u: real)
    requires l > 0.0 && !Rises(a, b, l)
    ensures u > 0.0 && 3.0 * a + 3.0 * b * u + l * (u * u) < 0.0
  {
    if a < 0.0 {
      u := SmallRatio(a, b, l);
    } else {
      u := -(1.5 * b) / l;
      RatioOf(u, -(1.5 * b), l);
      VertexBelow(a, b, l, u);
    }
  }

  lemma Positive(x: real, y: real)
    requires x > 0.0 && y > 0.0
    ensures x * y > 0.0
  {
  }

  lemma Negative(x: real, y: real)
    requires x > 0.0 && y < 0.0
    ensures x * y < 0.0
  {
    Positive(x, -y);
    assert x * -y == -(x * y);
  }

  lemma RatioOf(u: real, n: real, l: real)
    requires l > 0.0 && u == n / l && n > 0.0
    ensures u * l == n && u > 0.0
  {
  }

  lemma RatioPlace(u: real, t: real)
    requires u > 0.0 && t == u / (1.0 + u)
    ensures 0.0 < t < 1.0 && t == u * (1.0 - t)
  {
    RatioOf(t, u, 1.0 + u);
    assert t * (1.0 + u) == t + t * u && u * (1.0 - t) == u - t * u;
    Below0(t - 1.0, 1.0 + u);
    assert (t - 1.0) * (1.0 + u) == t + t * u - 1.0 - u;
  }

  lemma ScaledQuadratic(t: real, u: real, a: real, b: real, l: real)
    requires t == u * (1.0 - t)
    ensures Quadratic(t, a, b, l) == (1.0 - t) * (1.0 - t) * (3.0 * a + 3.0 * b * u + l * (u * u))
  {
    var it := 1.0 - t;
    var w := it * it;
    assert it * t == w * u;
    assert t * t == w * (u * u);
    assert 3.0 * (w * u) * b == w * (3.0 * b * u);
    assert w * (u * u) * l == w * (l * (u * u));
    assert 3.0 * w * a == w * (3.0 * a);
    var x, y, z := 3.0 * a, 3.0 * b * u, l * (u * u);
    assert w * x + w * y + w * z == w * (x + y + z);
  }

  lemma VertexBelow(a: real, b: real, l: real, u: real)
    requires l > 0.0 && u * l == -(1.5 * b) && 3.0 * (b * b) > 4.0 * (a * l)
    ensures 3.0 * a + 3.0 * b * u + l * (u * u) < 0.0
  {
    var f, x := 3.0 * a + 3.0 * b * u + l * (u * u), u * l;
    assert l * (u * u) * l == x * x;
    assert x * x == 2.25 * (b * b);
    assert 3.0 * b * u * l == 3.0 * (b * x);
    assert b * x == -(1.5 * (b * b));
    assert f * l == 3.0 * (a * l) + 3.0 * b * u * l + l * (u * u) * l by {
      var p, q, r := 3.0 * a, 3.0 * b * u, l * (u * u);
      assert (p + q + r) * l == p * l + q * l + r * l;
      assert 3.0 * a * l == 3.0 * (a * l);
    }
    Below0(f, l);
  }

  lemma Below0(f: real, l: real)
    requires l > 0.0 && f * l < 0.0
    ensures f < 0.0
  {
  }

  lemma SmallRatio(a: real, b: real, l: real) returns (u: real)
    requires l > 0.0 && a < 0.0
    ensures u > 0.0 && 3.0 * a + 3.0 * b * u + l * (u * u) < 0.0
  {
    var m, d := -(3.0 * a), Abs(b);
    var n := 3.0 * d + l;
    u := m / (m + n);
    RatioOf(u, m, m + n);
    hide Abs;
    Positive(u, m);
    assert u * (m + n) == u * m + u * n;
    SmallTerms(u, b, d, l, m, n);
  }

  lemma SmallTerms(u: real, b: real, d: real, l: real, m: real, n: real)
    requires u > 0.0 && m > 0.0 && l > 0.0 && n == 3.0 * d + l && b <= d && d >= 0.0
    requires u * m + u * n == m && u * m > 0.0
    ensures 3.0 * b * u + l * (u * u) < m
  {
    Products(u, d - b);
    assert u * (d - b) == u * d - u * b;
    assert u * n == 3.0 * (u * d) + u * l;
    assert 3.0 * b * u == 3.0 * (u * b);
    AtMostOne(u, m, n);
    SmallSquare(l, u);
  }

  lemma AtMostOne(u: real, m: real, n: real)
    requires u > 0.0 && m > 0.0 && n >= 0.0 && u * m + u * n == m
    ensures u <= 1.0
  {
    Products(u, n);
    assert (1.0 - u) * m == m - u * m;
    Sign(1.0 - u, m);
  }

  lemma SmallSquare(l: real, u: real)
    requires l > 0.0 && 0.0 < u <= 1.0
    ensures l * (u * u) <= u * l
  {
    var v := u * u;
    Products(u, 1.0 - u);
    assert u * (1.0 - u) == u - v;
    Products(l, u - v);
    assert l * (u - v) == u * l - l * v;
  }

  /** The piece never leaves the part of the plane over its chord. */
  predicate OverChord(c: Cubic) {
    var r2, r3, l := AlongChord(c, c.p2), AlongChord(c, c.p3), Span(c);
    Rises(r2, r3, l) && Rises(l - r3, l - r2, l)
  }

  /** From its control points one can tell exactly whether a piece stays over its chord. */
  lemma OverChordIff(c: Cubic)
    requires Span(c) > 0.0
    ensures (forall t :: 0.0 <= t <= 1.0 ==> 0.0 <= AlongChord(c, CurveAt(c, t)) <= Span(c)) <==> OverChord(c)
  {
    var r2, r3, l := AlongChord(c, c.p2), AlongChord(c, c.p3), Span(c);
    var m2, m3 := l - r2, l - r3;
    hide Bernstein, CurveAt, AlongChord, Span, Rises;
    RisesIff(r2, r3, l);
    RisesIff(m3, m2, l);
    forall t ensures AlongChord(c, CurveAt(c, t)) == Bernstein(t, 0.0, r2, r3, l) {
      AlongCurve(c, t);
    }
    if forall t :: 0.0 <= t <= 1.0 ==> 0.0 <= AlongChord(c, CurveAt(c, t)) <= l {
      forall t | 0.0 <= t <= 1.0 ensures Bernstein(t, 0.0, r2, r3, l) >= 0.0 {
        assert AlongChord(c, CurveAt(c, t)) >= 0.0;
      }
      forall t | 0.0 <= t <= 1.0 ensures Bernstein(t, 0.0, m3, m2, l) >= 0.0 {
        assert AlongChord(c, CurveAt(c, 1.0 - t)) <= l;
        MirroredBack(t, r2, r3, l);
      }
    }
    if OverChord(c) {
      forall t | 0.0 <= t <= 1.0 ensures 0.0 <= AlongChord(c, CurveAt(c, t)) <= l {
        assert Bernstein(t, 0.0, r2, r3, l) >= 0.0;
        assert Bernstein(1.0 - t, 0.0, m3, m2, l) >= 0.0;
        Mirrored(t, r2, r3, l);
      }
    }
  }

  lemma Mirrored(t: real, r2: real, r3: real, l: real)
    ensures Bernstein(1.0 - t, 0.0, l - r3, l - r2, l) == l - Bernstein(t, 0.0, r2, r3, l)
  {
    BernsteinIs(t, 0.0, r2, r3, l);
    BernsteinIs(1.0 - t, 0.0, l - r3, l - r2, l);
    assert 1.0 - (1.0 - t) == t;
    WeightsAddUp(t);
    var w1, w2, w3, w4 := Weight1(t), Weight2(t), Weight2(1.0 - t), Weight1(1.0 - t);
    hide Weight1, Weight2, Bernstein;
    assert w1 * l + w2 * l + w3 * l + w4 * l == l by { Distribute4(l, w1, w2, w3, w4); }
  }

  lemma MirroredBack(t: real, r2: real, r3: real, l: real)
    ensures Bernstein(t, 0.0, l - r3, l - r2, l) == l - Bernstein(1.0 - t, 0.0, r2, r3, l)
  {
    hide Bernstein;
    Mirrored(1.0 - t, r2, r3, l);
    assert 1.0 - (1.0 - t) == t;
  }

  // ----- distance from the chord itself -----

  function Distance2(p: Pt, q: Pt): real {
    (p.x - q.x) * (p.x - q.x) + (p.y - q.y) * (p.y - q.y)
  }

  function More(v: real, s: real, d: real): real {
    v + s * d
  }

  /** The point of the chord a fraction s of the way. */
  function OnChord(c: Cubic, s: real): Pt {
    Pt(More(c.p1.x, s, c.p4.x - c.p1.x), More(c.p1.y, s, c.p4.y - c.p1.y))
  }

  /** A point of the chord lies within three quarters of the square root of the tolerance. */
  ghost predicate NearChord(c: Cubic, tessTol: real, q: Pt) {
    exists s :: 0.0 <= s <= 1.0 && 16.0 * Distance2(q, OnChord(c, s)) < 9.0 * tessTol
  }

  function Inner(x: real, y: real, u: real, v: real): real {
    x * u + y * v
  }

  function Outer(x: real, y: real, u: real, v: real): real {
    x * v - y * u
  }

  function Less(v: real, s: real, d: real): real {
    v - s * d
  }

  lemma FootDistance(vx: real, vy: real, dx: real, dy: real, s: real, ux: real, uy: real, l: real, d: real, f: real)
    requires l == Inner(dx, dy, dx, dy) && d == Outer(vx, vy, dx, dy) && s * l == Inner(vx, vy, dx, dy)
    requires ux == Less(vx, s, dx) && uy == Less(vy, s, dy) && f == Inner(ux, uy, ux, uy)
    ensures f * l == d * d
  {
    var n, r := vx * vx + vy * vy, Inner(vx, vy, dx, dy);
    Shortened(vx, s, dx);
    Shortened(vy, s, dy);
    SumTwice(s, vx * dx, vy * dy, dx * dx, dy * dy);
    assert f == n - s * r;
    FootTimes(n, s, r, l);
    Lagrange(vx, vy, dx, dy, l, r, d);
  }

  lemma Shortened(v: real, s: real, d: real)
    ensures (v - s * d) * (v - s * d) == v * v - 2.0 * (s * (v * d)) + s * (s * (d * d))
  {
  }

  lemma SumTwice(s: real, a: real, b: real, x: real, y: real)
    ensures s * a + s * b == s * (a + b) && s * (s * x) + s * (s * y) == s * (s * (x + y))
  {
  }

  lemma FootTimes(n: real, s: real, r: real, l: real)
    requires s * l == r
    ensures (n - s * r) * l == n * l - r * r
  {
    assert s * r * l == s * l * r;
  }

  lemma Lagrange(vx: real, vy: real, dx: real, dy: real, l: real, r: real, d: real)
    requires l == dx * dx + dy * dy && r == vx * dx + vy * dy && d == vx * dy - vy * dx
    ensures (vx * vx + vy * vy) * l == r * r + d * d
  {
    var a, b, e, f := vx * dx, vy * dy, vx * dy, vy * dx;
    assert (a + b) * (a + b) == a * a + 2.0 * (a * b) + b * b;
    assert (e - f) * (e - f) == e * e - 2.0 * (e * f) + f * f;
    assert a * b == e * f;
    assert vx * vx * (dx * dx) == a * a && vy * vy * (dy * dy) == b * b;
    assert vx * vx * (dy * dy) == e * e && vy * vy * (dx * dx) == f * f;
    SumsTimes(vx * vx, vy * vy, dx * dx, dy * dy);
  }

  lemma SumsTimes(a: real, b: real, c: real, d: real)
    ensures (a + b) * (c + d) == a * c + a * d + b * c + b * d
  {
  }

  lemma Cancelled(x: real, y: real, l: real)
    requires l > 0.0 && x * l < y * l
    ensures x < y
  {
    assert (y - x) * l > 0.0;
  }

  lemma FlatHasSpan(c: Cubic, tessTol: real)
    requires Flat(c, tessTol)
    ensures Span(c) > 0.0
  {
    SquareSum(c.p4.x - c.p1.x, c.p4.y - c.p1.y);
    hide Across, Abs;
    var e := Abs(Across(c, c.p2)) + Abs(Across(c, c.p3));
    SquareSum(e, 0.0);
    NotZero(tessTol, Span(c));
  }

  lemma SquareSum(x: real, y: real)
    ensures x * x + y * y >= 0.0 && y * y >= 0.0
  {
  }

  lemma NotZero(x: real, y: real)
    ensures y == 0.0 ==> x * y == 0.0
  {
  }

  /** d is how far q lies from the line of the chord, s where its foot is on it. */
  ghost predicate OffChord(c: Cubic, q: Pt, s: real, d: real) {
    d >= 0.0 && s * Span(c) == AlongChord(c, q) && d * d == Distance2(q, OnChord(c, s))
  }

  lemma AcrossIsOff(c: Cubic, q: Pt, s: real, d: real, e: real)
    requires OffChord(c, q, s, d) && e == Abs(Across(c, q))
    ensures e >= 0.0 && e * e == d * d * Span(c)
  {
    Foot(c, q, s);
    hide Span, Across, Distance2, OnChord, AlongChord;
  }

  lemma CrossTerm(e2: real, e3: real, d2: real, d3: real, l: real)
    requires e2 >= 0.0 && e3 >= 0.0 && d2 >= 0.0 && d3 >= 0.0 && l > 0.0
    requires e2 * e2 == d2 * d2 * l && e3 * e3 == d3 * d3 * l
    ensures e2 * e3 == d2 * d3 * l
  {
    var u, v := e2 * e3, d2 * d3 * l;
    ProductSquared(e2, e3, d2, d3, l, u, v);
    NotNegative(e2, e3);
    NotNegative(d2, d3);
    NotNegative(d2 * d3, l);
    EqualRoots(u, v);
  }

  lemma ProductSquared(e2: real, e3: real, d2: real, d3: real, l: real, u: real, v: real)
    requires e2 * e2 == d2 * d2 * l && e3 * e3 == d3 * d3 * l && u == e2 * e3 && v == d2 * d3 * l
    ensures u * u == v * v
  {
    assert u * u == (e2 * e2) * (e3 * e3);
    assert v * v == (d2 * d2 * l) * (d3 * d3 * l);
  }

  lemma NotNegative(x: real, y: real)
    requires x >= 0.0 && y >= 0.0
    ensures x * y >= 0.0
  {
  }

  lemma EqualRoots(u: real, v: real)
    requires u >= 0.0 && v >= 0.0 && u * u == v * v
    ensures u == v
  {
    var e, f := u - v, u + v;
    assert e * f == 0.0;
    assert e > 0.0 && f > 0.0 ==> e * f > 0.0;
    assert e < 0.0 && f > 0.0 ==> -e * f > 0.0;
  }

  /** What flat means: the two control points together lie less than the square root of the tolerance from the line of
      the chord. */
  lemma FlatIff(c: Cubic, tessTol: real, s2: real, d2: real, s3: real, d3: real)
    requires Span(c) > 0.0 && OffChord(c, c.p2, s2, d2) && OffChord(c, c.p3, s3, d3)
    ensures Flat(c, tessTol) <==> (d2 + d3) * (d2 + d3) < tessTol
  {
    var e2, e3, l := Abs(Across(c, c.p2)), Abs(Across(c, c.p3)), Span(c);
    AcrossIsOff(c, c.p2, s2, d2, e2);
    AcrossIsOff(c, c.p3, s3, d3, e3);
    FlatIs(c, tessTol, e2, e3);
    assert d2 >= 0.0 && d3 >= 0.0;
    hide Span, Across, OffChord, Abs, Flat, SumFits;
    SumFitsIff(e2, e3, d2, d3, l, tessTol);
  }

  predicate SumFits(x: real, y: real, tol: real, l: real) {
    (x + y) * (x + y) < tol * l
  }

  lemma FlatIs(c: Cubic, tessTol: real, e2: real, e3: real)
    requires e2 == Abs(Across(c, c.p2)) && e3 == Abs(Across(c, c.p3))
    ensures Flat(c, tessTol) <==> SumFits(e2, e3, tessTol, Span(c))
  {
    hide Across, Span, Abs;
  }

  lemma SumFitsIff(e2: real, e3: real, d2: real, d3: real, l: real, tol: real)
    requires e2 >= 0.0 && e3 >= 0.0 && d2 >= 0.0 && d3 >= 0.0 && l > 0.0
    requires e2 * e2 == d2 * d2 * l && e3 * e3 == d3 * d3 * l
    ensures SumFits(e2, e3, tol, l) <==> (d2 + d3) * (d2 + d3) < tol
  {
    var d := (d2 + d3) * (d2 + d3);
    SumTimes(d2 * d2, 2.0 * (d2 * d3), d3 * d3, l);
    assert d == d2 * d2 + 2.0 * (d2 * d3) + d3 * d3;
    CrossTerm(e2, e3, d2, d3, l);
    assert (e2 + e3) * (e2 + e3) == e2 * e2 + 2.0 * (e2 * e3) + e3 * e3;
    OrderTimes(d, tol, l);
  }

  lemma SumTimes(a: real, b: real, c: real, l: real)
    ensures (a + b + c) * l == a * l + b * l + c * l
  {
  }

  lemma OrderTimes(x: real, y: real, l: real)
    requires l > 0.0
    ensures x * l < y * l <==> x < y
  {
    var e := y - x;
    assert y * l == x * l + e * l;
    assert e > 0.0 ==> e * l > 0.0;
    assert e <= 0.0 ==> -e * l >= 0.0;
  }

  /** A flat piece that stays over its chord stays near it. */
  lemma FlatStaysNearChord(c: Cubic, tessTol: real, t: real)
    requires Flat(c, tessTol) && OverChord(c) && 0.0 <= t <= 1.0
    ensures NearChord(c, tessTol, CurveAt(c, t))
  {
    hide Bernstein, CurveAt, OverChord, Flat;
    FlatHasSpan(c, tessTol);
    FlatStaysNearLine(c, tessTol, t);
    OverChordIff(c);
    var q := CurveAt(c, t);
    var r := AlongChord(c, q);
    assert 0.0 <= r <= Span(c);
    var s := r / Span(c);
    assert s * Span(c) == r;
    Fraction01(s, Span(c), r);
    Foot(c, q, s);
    hide Span, Across, Distance2, OnChord, AlongChord;
    assert 16.0 * Distance2(q, OnChord(c, s)) * Span(c) < 9.0 * tessTol * Span(c) by {
      assert 16.0 * Distance2(q, OnChord(c, s)) * Span(c) == 16.0 * (Distance2(q, OnChord(c, s)) * Span(c));
      assert 9.0 * tessTol * Span(c) == 9.0 * (tessTol * Span(c));
    }
    Cancelled(16.0 * Distance2(q, OnChord(c, s)), 9.0 * tessTol, Span(c));
  }

  lemma Fraction01(s: real, l: real, r: real)
    requires l > 0.0 && s * l == r && 0.0 <= r <= l
    ensures 0.0 <= s <= 1.0
  {
    Sign(s, l);
    assert (1.0 - s) * l == l - r;
    Sign(1.0 - s, l);
  }

  lemma Foot(c: Cubic, q: Pt, s: real)
    requires s * Span(c) == AlongChord(c, q)
    ensures var d := Across(c, q); Distance2(q, OnChord(c, s)) * Span(c) == d * d
  {
    hide *;
    var dx, dy, vx, vy := c.p4.x - c.p1.x, c.p4.y - c.p1.y, q.x - c.p1.x, q.y - c.p1.y;
    ChordIs(c, q, dx, dy, vx, vy);
    AcrossIs(c, q, dx, dy, vx, vy);
    DistanceToFoot(c, q, s, dx, dy, vx, vy);
    FootDistance(vx, vy, dx, dy, s, Less(vx, s, dx), Less(vy, s, dy), Span(c), Across(c, q),
                 Distance2(q, OnChord(c, s)));
  }

  lemma ChordIs(c: Cubic, q: Pt, dx: real, dy: real, vx: real, vy: real)
    requires dx == c.p4.x - c.p1.x && dy == c.p4.y - c.p1.y && vx == q.x - c.p1.x && vy == q.y - c.p1.y
    ensures Span(c) == Inner(dx, dy, dx, dy) && AlongChord(c, q) == Inner(vx, vy, dx, dy)
  {
  }

  lemma AcrossIs(c: Cubic, q: Pt, dx: real, dy: real, vx: real, vy: real)
    requires dx == c.p4.x - c.p1.x && dy == c.p4.y - c.p1.y && vx == q.x - c.p1.x && vy == q.y - c.p1.y
    ensures Across(c, q) == Outer(vx, vy, dx, dy)
  {
    assert (vx - dx) * dy == vx * dy - dx * dy && (vy - dy) * dx == vy * dx - dy * dx;
  }

  lemma DistanceToFoot(c: Cubic, q: Pt, s: real, dx: real, dy: real, vx: real, vy: real)
    requires dx == c.p4.x - c.p1.x && dy == c.p4.y - c.p1.y && vx == q.x - c.p1.x && vy == q.y - c.p1.y
    ensures var ux, uy := Less(vx, s, dx), Less(vy, s, dy); Distance2(q, OnChord(c, s)) == Inner(ux, uy, ux, uy)
  {
    var p := OnChord(c, s);
    hide Distance2, More, Less, Inner;
    MoreLess(c.p1.x, s, dx, q.x);
    MoreLess(c.p1.y, s, dy, q.y);
    SquaresOf(q, p, Less(vx, s, dx), Less(vy, s, dy));
  }

  lemma MoreLess(p: real, s: real, d: real, q: real)
    ensures q - More(p, s, d) == Less(q - p, s, d)
  {
  }

  lemma SquaresOf(q: Pt, p: Pt, ux: real, uy: real)
    requires ux == q.x - p.x && uy == q.y - p.y
    ensures Distance2(q, p) == Inner(ux, uy, ux, uy)
  {
  }

  const SPIKE := Cubic(Pt(0.0, 0.0), Pt(10.0, 0.0), Pt(10.0, 0.0), Pt(1.0, 0.0))

  lemma SpikeIsFlat()
    ensures Flat(SPIKE, 0.25) && Span(SPIKE) == 1.0
    ensures !OverChord(SPIKE) && CurveAt(SPIKE, 0.5) == Pt(7.625, 0.0)
  {
    SpikeMiddle();
    SpikeChord();
    hide Bernstein, Across, Span, AlongChord, CurveAt;
  }

  lemma SpikeMiddle()
    ensures CurveAt(SPIKE, 0.5) == Pt(7.625, 0.0)
  {
  }

  lemma SpikeChord()
    ensures Across(SPIKE, SPIKE.p2) == Across(SPIKE, SPIKE.p3) == 0.0 && Span(SPIKE) == 1.0
    ensures AlongChord(SPIKE, SPIKE.p2) == AlongChord(SPIKE, SPIKE.p3) == 10.0
  {
  }

  /** A flat piece that does not: it is handed on as the point (1, 0) alone, and passes (7.625, 0). */
  lemma OvershootExample(corner: bool)
    ensures Flat(SPIKE, 0.25) && !OverChord(SPIKE)
    ensures Handed(SPIKE, 0, 0.25, corner) == [PathPoint(Pt(1.0, 0.0), corner)]
    ensures CurveAt(SPIKE, 0.5) == Pt(7.625, 0.0) && !NearChord(SPIKE, 0.25, CurveAt(SPIKE, 0.5))
  {
    SpikeIsFlat();
    UnfoldFlat(SPIKE, 0, 0.25, corner, 0);
    hide Flat, OverChord, Handed, CurveAt, Span, Across, AlongChord;
    forall s | 0.0 <= s <= 1.0 ensures 16.0 * Distance2(Pt(7.625, 0.0), OnChord(SPIKE, s)) >= 9.0 * 0.25 {
      assert OnChord(SPIKE, s) == Pt(s, 0.0);
      SquareOrder(1.0, 7.625 - s);
    }
  }

  // ----- the chain of points handed on -----

  lemma LerpLerp(s: real, u: real, v: real, a: real, b: real)
    ensures Lerp(Lerp(s, u, v), a, b) == Lerp(s, Lerp(u, a, b), Lerp(v, a, b))
  {
    var d := b - a;
    assert (u + s * (v - u)) * d == u * d + s * ((v - u) * d);
    assert (v - u) * d == v * d - u * d;
  }

  lemma BlossomLerp(p: real, q: real, s: real, u: real, v: real, x1: real, x2: real, x3: real, x4: real)
    ensures Lerp(s, Blossom(p, q, u, x1, x2, x3, x4), Blossom(p, q, v, x1, x2, x3, x4))
         == Blossom(p, q, Lerp(s, u, v), x1, x2, x3, x4)
  {
    LerpLerp(s, u, v, Lerp(q, Lerp(p, x1, x2), Lerp(p, x2, x3)), Lerp(q, Lerp(p, x2, x3), Lerp(p, x3, x4)));
    hide Lerp;
  }

  /** One coordinate of a piece, at a fraction of its own interval. */
  lemma PieceCoordinate(s: real, u: real, v: real, x1: real, x2: real, x3: real, x4: real)
    ensures Bernstein(s, Blossom(u, u, u, x1, x2, x3, x4), Blossom(u, u, v, x1, x2, x3, x4),
                      Blossom(u, v, v, x1, x2, x3, x4), Blossom(v, v, v, x1, x2, x3, x4))
         == Bernstein(Lerp(s, u, v), x1, x2, x3, x4)
  {
    var w := Lerp(s, u, v);
    var b := (i: real, j: real, k: real) => Blossom(i, j, k, x1, x2, x3, x4);
    DiagonalIsCurve(s, b(u, u, u), b(u, u, v), b(u, v, v), b(v, v, v));
    DiagonalIsCurve(w, x1, x2, x3, x4);
    UnfoldBlossom(s, b(u, u, u), b(u, u, v), b(u, v, v), b(v, v, v));
    hide Blossom, Bernstein, Lerp;
    BlossomLerp(u, u, s, u, v, x1, x2, x3, x4);
    BlossomLerp(u, v, s, u, v, x1, x2, x3, x4);
    BlossomLerp(v, v, s, u, v, x1, x2, x3, x4);
    BlossomLerp(u, w, s, u, v, x1, x2, x3, x4);
    BlossomLerp(v, w, s, u, v, x1, x2, x3, x4);
    BlossomLerp(w, w, s, u, v, x1, x2, x3, x4);
    BlossomSymmetric(u, u, v, x1, x2, x3, x4);
    BlossomSymmetric(u, v, v, x1, x2, x3, x4);
    BlossomSymmetric(v, u, v, x1, x2, x3, x4);
    BlossomSymmetric(u, u, w, x1, x2, x3, x4);
    BlossomSymmetric(u, v, w, x1, x2, x3, x4);
    BlossomSymmetric(v, u, w, x1, x2, x3, x4);
    BlossomSymmetric(v, v, w, x1, x2, x3, x4);
    BlossomSymmetric(u, w, w, x1, x2, x3, x4);
    BlossomSymmetric(w, u, w, x1, x2, x3, x4);
    BlossomSymmetric(v, w, w, x1, x2, x3, x4);
    BlossomSymmetric(w, v, w, x1, x2, x3, x4);
  }

  lemma UnfoldBlossom(s: real, x1: real, x2: real, x3: real, x4: real)
    ensures Blossom(s, s, s, x1, x2, x3, x4)
         == Lerp(s, Lerp(s, Lerp(s, x1, x2), Lerp(s, x2, x3)), Lerp(s, Lerp(s, x2, x3), Lerp(s, x3, x4)))
  {
  }

  /** A piece is the curve over its interval, at the same pace. */
  lemma PieceAt(c: Cubic, u: real, v: real, s: real)
    ensures CurveAt(Piece(c, u, v), s) == CurveAt(c, Lerp(s, u, v))
    ensures Piece(c, u, v).p1 == CurveAt(c, u) && Piece(c, u, v).p4 == CurveAt(c, v)
  {
    hide Blossom, Bernstein, Lerp;
    PieceCoordinate(s, u, v, c.p1.x, c.p2.x, c.p3.x, c.p4.x);
    PieceCoordinate(s, u, v, c.p1.y, c.p2.y, c.p3.y, c.p4.y);
    DiagonalIsCurve(u, c.p1.x, c.p2.x, c.p3.x, c.p4.x);
    DiagonalIsCurve(u, c.p1.y, c.p2.y, c.p3.y, c.p4.y);
    PieceEnd(c, u, v);
  }

  /** The recursion ends with flat pieces only. */
  predicate Unbroken(c: Cubic, level: nat, tessTol: real)
    decreases 11 - level
  {
    level <= 10 &&
    (Flat(c, tessTol) ||
     (Unbroken(LeftHalf(c), level + 1, tessTol) && Unbroken(RightHalf(c), level + 1, tessTol)))
  }

  ghost predicate FlatBetween(whole: Cubic, u: nat, v: nat, tessTol: real) {
    Flat(Piece(whole, GridTime(u), GridTime(v)), tessTol)
  }

  function Previous(params: seq<nat>, from: nat, i: nat): nat
    requires i < |params|
  {
    if i == 0 then from else params[i - 1]
  }

  /** Each parameter ends a flat piece that starts at the one before. */
  ghost predicate Chained(whole: Cubic, params: seq<nat>, from: nat, to: nat, tessTol: real) {
    params != [] && params[|params| - 1] == to &&
    forall i: nat :: i < |params| ==> FlatBetween(whole, Previous(params, from, i), params[i], tessTol)
  }

  lemma ChainedConcat(whole: Cubic, q0: seq<nat>, q1: seq<nat>, from: nat, mid: nat, to: nat, tessTol: real)
    requires Chained(whole, q0, from, mid, tessTol) && Chained(whole, q1, mid, to, tessTol)
    ensures Chained(whole, q0 + q1, from, to, tessTol)
  {
    hide FlatBetween;
    var q := q0 + q1;
    forall i: nat | i < |q| ensures FlatBetween(whole, Previous(q, from, i), q[i], tessTol) {
      if i < |q0| {
        assert Previous(q, from, i) == Previous(q0, from, i);
      } else {
        assert Previous(q, from, i) == Previous(q1, mid, i - |q0|);
      }
    }
  }

  lemma OneChained(whole: Cubic, from: nat, to: nat, tessTol: real)
    requires FlatBetween(whole, from, to, tessTol)
    ensures Chained(whole, [to], from, to, tessTol)
  {
    hide FlatBetween;
  }

  lemma TooDeep(c: Cubic, tessTol: real)
    ensures !Unbroken(c, 11, tessTol)
  {
  }

  lemma UnfoldUnbroken(c: Cubic, level: nat, tessTol: real)
    requires level <= 10 && Unbroken(c, level, tessTol) && !Flat(c, tessTol)
    ensures level < 10
    ensures Unbroken(LeftHalf(c), level + 1, tessTol) && Unbroken(RightHalf(c), level + 1, tessTol)
  {
    hide Flat, LeftHalf, RightHalf;
    TooDeep(LeftHalf(c), tessTol);
  }

  lemma {:induction false} UnbrokenIsChained(whole: Cubic, level: nat, tessTol: real, start: nat)
    requires level <= 10 && Unbroken(Piece(whole, GridTime(start), GridTime(start + Width(level))), level, tessTol)
    ensures var c := Piece(whole, GridTime(start), GridTime(start + Width(level)));
            Chained(whole, Params(c, level, tessTol, start), start, start + Width(level), tessTol)
    decreases 10 - level
  {
    hide Piece, LeftHalf, RightHalf, Flat, Params, GridTime, Unbroken, Chained, Handed, Width;
    var end := start + Width(level);
    var c := Piece(whole, GridTime(start), GridTime(end));
    if Flat(c, tessTol) {
      UnfoldFlat(c, level, tessTol, false, start);
      OneChained(whole, start, end, tessTol);
    } else {
      UnfoldUnbroken(c, level, tessTol);
      UnfoldCurved(c, level, tessTol, false, start);
      var mid := start + Width(level + 1);
      GridMiddle(start, mid, end);
      HalvesAreHalfIntervals(whole, GridTime(start), GridTime(end));
      UnbrokenIsChained(whole, level + 1, tessTol, start);
      UnbrokenIsChained(whole, level + 1, tessTol, mid);
      ChainedConcat(whole, Params(LeftHalf(c), level + 1, tessTol, start),
                    Params(RightHalf(c), level + 1, tessTol, mid), start, mid, end, tessTol);
    }
  }

  /** The piece of the curve that the i-th point handed on ends. */
  ghost function PieceOf(c: Cubic, tessTol: real, i: nat): Cubic
    requires i < |Params(c, 0, tessTol, 0)|
  {
    var params := Params(c, 0, tessTol, 0);
    Piece(c, GridTime(Previous(params, 0, i)), GridTime(params[i]))
  }

  /** The ends of that piece are handed on, or the start of the curve. */
  lemma PieceEnds(c: Cubic, tessTol: real, corner: bool, i: nat)
    requires Unbroken(c, 0, tessTol) && i < |Params(c, 0, tessTol, 0)|
    ensures var handed, params := Handed(c, 0, tessTol, corner), Params(c, 0, tessTol, 0);
            |handed| == |params| && handed[|handed| - 1].p == c.p4 && Flat(PieceOf(c, tessTol, i), tessTol) &&
            PieceOf(c, tessTol, i).p1 == (if i == 0 then c.p1 else handed[i - 1].p) &&
            PieceOf(c, tessTol, i).p4 == handed[i].p
  {
    hide Piece, LeftHalf, RightHalf, Flat, Params, Handed, Unbroken, CurveAt, Lerp, Width;
    WidthAtTop();
    WholePiece(c);
    assert GridTime(0) == 0.0 && GridTime(GRID) == 1.0;
    UnbrokenIsChained(c, 0, tessTol, 0);
    FlatteningFollowsCurve(c, tessTol, corner);
    var params := Params(c, 0, tessTol, 0);
    assert FlatBetween(c, Previous(params, 0, i), params[i], tessTol);
    hide GridTime;
    PieceAt(c, GridTime(Previous(params, 0, i)), GridTime(params[i]), 0.0);
    PieceAt(c, 0.0, 1.0, 0.0);
  }

  /** Where no piece is dropped the points handed on are a chain from the start of the curve to its end: between two of
      them the curve stays near the line through both, and near the segment itself where it stays over it. */
  lemma ChainStaysNearCurve(c: Cubic, tessTol: real, corner: bool, i: nat, s: real)
    requires Unbroken(c, 0, tessTol) && i < |Params(c, 0, tessTol, 0)| && 0.0 <= s <= 1.0
    ensures var handed, params := Handed(c, 0, tessTol, corner), Params(c, 0, tessTol, 0);
            |handed| == |params| && handed[|handed| - 1].p == c.p4 &&
            var piece := PieceOf(c, tessTol, i);
            var q := CurveAt(c, Lerp(s, GridTime(Previous(params, 0, i)), GridTime(params[i])));
            piece.p1 == (if i == 0 then c.p1 else handed[i - 1].p) && piece.p4 == handed[i].p &&
            16.0 * (Across(piece, q) * Across(piece, q)) < 9.0 * (tessTol * Span(piece)) &&
            (OverChord(piece) ==> NearChord(piece, tessTol, q))
  {
    hide Piece, Flat, Params, Handed, Unbroken, CurveAt, Across, Span, OverChord, NearChord, Lerp, GridTime;
    PieceEnds(c, tessTol, corner, i);
    var params := Params(c, 0, tessTol, 0);
    PieceAt(c, GridTime(Previous(params, 0, i)), GridTime(params[i]), s);
    var piece := PieceOf(c, tessTol, i);
    FlatStaysNearLine(piece, tessTol, s);
    if OverChord(piece) {
      FlatStaysNearChord(piece, tessTol, s);
    }
  }
}
