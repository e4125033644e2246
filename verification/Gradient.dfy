/** Gradients: the stops as they are parsed (src/External/nanosvg/nanosvg.h) and the colour ramp built from them
    (src/External/nanosvg/nanosvgrast.h). */
module Gradient {
  import opened Coverage
  import opened Blend
  import Edges
  import Transform

  datatype Stop = Stop(offset: real, color: Rgba)

  predicate Sorted(stops: seq<Stop>) {
    forall i, j :: 0 <= i < j < |stops| ==> stops[i].offset <= stops[j].offset
  }

  // ----- parsing -----

  /** The place of a new stop: before the first one with a greater offset. */
  function PlaceOf(stops: seq<Stop>, offset: real): (idx: nat)
    ensures idx <= |stops| && forall k :: 0 <= k < idx ==> stops[k].offset <= offset
    ensures idx < |stops| ==> offset < stops[idx].offset
  {
    if stops == [] || offset < stops[0].offset then 0 else 1 + PlaceOf(stops[1..], offset)
  }

  function Inserted(stops: seq<Stop>, stop: Stop): (r: seq<Stop>)
    ensures |r| == |stops| + 1
  {
    var idx := PlaceOf(stops, stop.offset);
    stops[..idx] + [stop] + stops[idx..]
  }

  function AllInserted(given: seq<Stop>): seq<Stop> {
    if given == [] then [] else Inserted(AllInserted(given[..|given| - 1]), given[|given| - 1])
  }

  /** The stops at one offset, in order. */
  function AtOffset(stops: seq<Stop>, offset: real): seq<Stop> {
    if stops == [] then []
    else (if stops[0].offset == offset then [stops[0]] else []) + AtOffset(stops[1..], offset)
  }

  lemma {:induction false} AtOffsetConcat(a: seq<Stop>, b: seq<Stop>, offset: real)
    ensures AtOffset(a + b, offset) == AtOffset(a, offset) + AtOffset(b, offset)
  {
    if a == [] {
      assert a + b == b;
    } else {
      AtOffsetConcat(a[1..], b, offset);
      assert (a + b)[1..] == a[1..] + b && (a + b)[0] == a[0];
    }
  }

  lemma {:induction false} NoneAt(stops: seq<Stop>, offset: real)
    requires forall k :: 0 <= k < |stops| ==> stops[k].offset != offset
    ensures AtOffset(stops, offset) == []
  {
    if stops != [] {
      NoneAt(stops[1..], offset);
    }
  }

  lemma InsertedIsSorted(stops: seq<Stop>, stop: Stop)
    requires Sorted(stops)
    ensures Sorted(Inserted(stops, stop))
  {
  }

  /** A new stop goes behind the stops that have its offset already. */
  lemma InsertedIsLast(stops: seq<Stop>, stop: Stop, offset: real)
    requires Sorted(stops)
    ensures AtOffset(Inserted(stops, stop), offset) ==
            AtOffset(stops, offset) + if stop.offset == offset then [stop] else []
  {
    hide AtOffset, PlaceOf;
    var idx := PlaceOf(stops, stop.offset);
    LaterStops(stops, stop.offset, idx);
    hide Sorted;
    var front, back := stops[..idx], stops[idx..];
    assert stops == front + back;
    AtOffsetConcat(front, back, offset);
    AtOffsetAround(front, stop, back, offset);
    NoneBetween(AtOffset(front, offset), AtOffset(back, offset), if stop.offset == offset then [stop] else []);
  }

  lemma LaterStops(stops: seq<Stop>, offset: real, idx: nat)
    requires Sorted(stops) && idx <= |stops| && (idx < |stops| ==> offset < stops[idx].offset)
    ensures AtOffset(stops[idx..], offset) == []
  {
    hide AtOffset;
    NoneAt(stops[idx..], offset);
  }

  lemma NoneBetween<T>(f: seq<T>, b: seq<T>, x: seq<T>)
    requires b == [] || x == []
    ensures f + x + b == f + b + x
  {
    assert f + [] == f;
  }

  lemma AtOffsetAround(front: seq<Stop>, stop: Stop, back: seq<Stop>, offset: real)
    ensures AtOffset(front + [stop] + back, offset) ==
            AtOffset(front, offset) + (if stop.offset == offset then [stop] else []) + AtOffset(back, offset)
  {
    assert AtOffset([stop], offset) == if stop.offset == offset then [stop] else [];
    hide AtOffset;
    AtOffsetConcat(front + [stop], back, offset);
    AtOffsetConcat(front, [stop], offset);
  }

  /** Inserting the stops one at a time sorts them by offset, and stably: equal offsets stay in the order given. */
  lemma {:induction false} StopsAreStablySorted(given: seq<Stop>, offset: real)
    ensures Sorted(AllInserted(given))
    ensures AtOffset(AllInserted(given), offset) == AtOffset(given, offset)
    ensures |AllInserted(given)| == |given|
  {
    if given != [] {
      var front, stop := given[..|given| - 1], given[|given| - 1];
      StopsAreStablySorted(front, offset);
      InsertedIsSorted(AllInserted(front), stop);
      InsertedIsLast(AllInserted(front), stop, offset);
      assert given == front + [stop];
      AtOffsetConcat(front, [stop], offset);
      assert AtOffset([stop], offset) == if stop.offset == offset then [stop] else [];
    }
  }

  class GradientData {
    var stops: array<Stop>

    constructor ()
      ensures stops[..] == [] && fresh(stops)
    {
      stops := new Stop[0](_ => Stop(0.0, Rgba(0, 0, 0, 0)));
    }

    /** Room for one more stop, behind the ones there are. */
    method Realloc(unused: Stop) returns (grown: array<Stop>)
      ensures fresh(grown) && grown.Length == stops.Length + 1
      ensures forall k :: 0 <= k < stops.Length ==> grown[k] == stops[k]
    {
      grown := new Stop[stops.Length + 1](_ => unused);
      for i := 0 to stops.Length
        invariant forall k :: 0 <= k < i ==> grown[k] == stops[k]
        modifies grown
      {
        grown[i] := stops[i];
      }
    }

    /** nsvg__parseGradientStop, once the attributes have been read. */
    method AddStop(stop: Stop)
      modifies this
      ensures stops[..] == Inserted(old(stops[..]), stop) && fresh(stops)
    {
      var n := stops.Length;
      ghost var was := stops[..];
      var grown := Realloc(stop);
      var idx := n;
      var i := 0;
      while i < n && grown[i].offset <= stop.offset
        invariant 0 <= i <= n
        invariant forall k :: 0 <= k < i ==> was[k].offset <= stop.offset
      {
        i := i + 1;
      }
      if i < n {
        idx := i;
      }
      PlaceIs(was, stop.offset, idx);
      hide PlaceOf;
      assert grown[..n] == was;
      PutAt(grown, idx, stop);
      stops := grown;
    }
  }

  /** Shifts the stops from `idx` on up by one, over the unused last place, and puts the new one there. */
  method PutAt(grown: array<Stop>, idx: nat, stop: Stop)
    requires idx < grown.Length
    modifies grown
    ensures var was := old(grown[..grown.Length - 1]);
            grown[..] == was[..idx] + [stop] + was[idx..]
  {
    var n := grown.Length - 1;
    ghost var was := grown[..n];
    var i := n;
    while i > idx
      invariant idx <= i <= n
      invariant forall k :: 0 <= k < i ==> grown[k] == was[k]
      invariant forall k :: i < k <= n ==> grown[k] == was[k - 1]
    {
      grown[i] := grown[i - 1];
      i := i - 1;
    }
    grown[idx] := stop;
  }

  lemma {:induction false} PlaceIs(stops: seq<Stop>, offset: real, idx: nat)
    requires idx <= |stops| && forall k :: 0 <= k < idx ==> stops[k].offset <= offset
    requires idx < |stops| ==> offset < stops[idx].offset
    ensures PlaceOf(stops, offset) == idx
  {
    if idx > 0 {
      PlaceIs(stops[1..], offset, idx - 1);
    }
  }

  // ----- the ramp -----

  /** The entry of the ramp at which a stop sits. */
  function Position(offset: real): (p: nat)
    ensures p <= 255
  {
    (Clamp(offset, 0.0, 1.0) * 255.0).Floor
  }

  lemma PositionMonotone(x: real, y: real)
    requires x <= y
    ensures Position(x) <= Position(y)
  {
  }

  /** 256ths of a fraction. */
  function Share(u: real): (iu: nat)
    ensures iu <= 256
  {
    (Clamp(u, 0.0, 1.0) * 256.0).Floor
  }

  function Mixed(c0: byte, c1: byte, iu: nat): (r: byte)
    requires iu <= 256
    ensures Min(c0, c1) <= r <= Max(c0, c1)
  {
    MixedBetween(c0, c1, iu);
    (c0 * (256 - iu) + c1 * iu) / 256
  }

  lemma MixedBetween(c0: byte, c1: byte, iu: nat)
    requires iu <= 256
    ensures 256 * Min(c0, c1) <= c0 * (256 - iu) + c1 * iu <= 256 * Max(c0, c1)
  {
    var lo, hi := Min(c0, c1), Max(c0, c1);
    assert lo * (256 - iu) + lo * iu == 256 * lo;
    assert hi * (256 - iu) + hi * iu == 256 * hi;
    MulMonotone(lo, c0, 256 - iu);
    MulMonotone(lo, c1, iu);
    MulMonotone(c0, hi, 256 - iu);
    MulMonotone(c1, hi, iu);
  }

  function LerpRgba(c0: Rgba, c1: Rgba, u: real): Rgba {
    var iu := Share(u);
    Rgba(Mixed(c0.r, c1.r, iu), Mixed(c0.g, c1.g, iu), Mixed(c0.b, c1.b, iu), Mixed(c0.a, c1.a, iu))
  }

  function ApplyOpacity(c: Rgba, u: real): Rgba {
    c.(a := Mixed(0, c.a, Share(u)))
  }

  /** Full opacity changes nothing, no opacity leaves nothing, and no opacity raises the alpha. */
  lemma OpacityBounds(c: Rgba, u: real)
    ensures ApplyOpacity(c, u).a <= c.a
    ensures u >= 1.0 ==> ApplyOpacity(c, u) == c
    ensures u <= 0.0 ==> ApplyOpacity(c, u).a == 0
  {
  }

  /** The last of the first n stops at or before entry k, or -1. */
  function LastBefore(stops: seq<Stop>, k: nat, n: nat): (i: int)
    requires n <= |stops|
    ensures -1 <= i < n && (i >= 0 ==> Position(stops[i].offset) <= k)
    ensures forall j :: i < j < n ==> Position(stops[j].offset) > k
  {
    if n == 0 then -1
    else if Position(stops[n - 1].offset) <= k then n - 1
    else LastBefore(stops, k, n - 1)
  }

  /** How far entry k is from position p to position q. */
  function Fraction(p: int, k: int, q: int): real
    requires p < q
  {
    (k - p) as real / (q - p) as real
  }

  /** What entry k of the ramp is: the colour of the stops around it, mixed by how far k is from one to the other. */
  function RampColor(stops: seq<Stop>, opacity: real, k: nat): Rgba {
    if stops == [] then Rgba(0, 0, 0, 0)
    else
      var i := LastBefore(stops, k, |stops|);
      if i < 0 then ApplyOpacity(stops[0].color, opacity)
      else if i == |stops| - 1 then ApplyOpacity(stops[i].color, opacity)
      else LerpRgba(ApplyOpacity(stops[i].color, opacity), ApplyOpacity(stops[i + 1].color, opacity),
                    Fraction(Position(stops[i].offset), k, Position(stops[i + 1].offset)))
  }

  /** Opacity scales alpha and nothing else, losing less than two. */
  lemma OpacityScales(c: Rgba, u: real)
    requires 0.0 <= u <= 1.0
    ensures var r := ApplyOpacity(c, u);
            r.r == c.r && r.g == c.g && r.b == c.b && u * c.a as real - 2.0 < r.a as real <= u * c.a as real
  {
    var iu := Share(u);
    assert iu as real <= u * 256.0 < iu as real + 1.0;
    var s := c.a * iu;
    assert s as real == c.a as real * iu as real;
    assert Mixed(0, c.a, iu) == s / 256;
    ScaledWithin(c.a as real, iu as real, u);
  }

  lemma ScaledWithin(a: real, iu: real, u: real)
    requires 0.0 <= a <= 255.0 && iu <= u * 256.0 < iu + 1.0
    ensures u * a - 1.0 < a * iu / 256.0 <= u * a
  {
    var rest := u * 256.0 - iu;
    assert a * rest == 256.0 * (u * a) - a * iu;
    Fractions(a, rest);
  }

  lemma Fractions(a: real, f: real)
    requires 0.0 <= a && 0.0 <= f < 1.0
    ensures 0.0 <= a * f <= a
  {
    assert a * (1.0 - f) >= 0.0;
  }

  /** r is the colour n of d steps of the way from c0 to c1, less than two below in any channel and less than one above.
      */
  predicate StepsBetween(r: int, c0: int, c1: int, n: int, d: int) {
    -2 * d < d * r - (c0 * (d - n) + c1 * n) < d
  }

  lemma ShareOfSteps(n: nat, d: nat)
    requires n <= d && d > 0
    ensures var iu := Share(n as real / d as real); 0 <= 256 * n - d * iu < d
  {
    var u := n as real / d as real;
    assert u * d as real == n as real;
    assert 0.0 <= u <= 1.0;
    var iu := Share(u);
    assert iu as real <= u * 256.0 < iu as real + 1.0;
    StepsScaled(u, iu, n, d);
  }

  lemma StepsScaled(u: real, iu: int, n: int, d: int)
    requires d > 0 && u * d as real == n as real && iu as real <= u * 256.0 < iu as real + 1.0
    ensures 0 <= 256 * n - d * iu < d
  {
    var q := iu * d;
    RealProduct(iu, d);
    StepsLeft(u, iu as real, d as real, n as real, q as real);
    AsIntegers(n, q, d);
  }

  lemma AsIntegers(n: int, q: int, d: int)
    requires 0.0 <= 256.0 * n as real - q as real < d as real
    ensures 0 <= 256 * n - q < d
  {
    assert 256.0 * n as real - q as real == (256 * n - q) as real;
  }

  lemma StepsLeft(u: real, v: real, w: real, uw: real, vw: real)
    requires w > 0.0 && v <= u * 256.0 < v + 1.0 && u * w == uw && v * w == vw
    ensures 0.0 <= 256.0 * uw - vw < w
  {
    var rest := u * 256.0 - v;
    var product := rest * w;
    assert product == 256.0 * uw - vw;
    PartOf(rest, w);
  }

  lemma PartOf(f: real, w: real)
    requires 0.0 <= f < 1.0 && w > 0.0
    ensures 0.0 <= f * w < w
  {
    assert (1.0 - f) * w > 0.0;
  }

  lemma RealProduct(a: int, b: int)
    ensures a as real * b as real == (a * b) as real
  {
  }

  lemma MixedSteps(c0: byte, c1: byte, iu: nat, n: int, d: int)
    requires iu <= 256 && d > 0 && 0 <= 256 * n - d * iu < d
    ensures StepsBetween(Mixed(c0, c1, iu), c0, c1, n, d)
  {
    var s, r := c0 * (256 - iu) + c1 * iu, Mixed(c0, c1, iu);
    assert s - 256 < 256 * r <= s;
    hide Mixed;
    StepsFromShare(c0, c1, iu, n, d, s, r);
  }

  lemma StepsFromShare(c0: byte, c1: byte, iu: nat, n: int, d: int, s: int, r: int)
    requires d > 0 && 0 <= 256 * n - d * iu < d
    requires s == c0 * (256 - iu) + c1 * iu && s - 256 < 256 * r <= s
    ensures StepsBetween(r, c0, c1, n, d)
  {
    var w, rho := c1 - c0, 256 * n - d * iu;
    SumsTo(c0, c1, iu);
    StepsError(c0, w, iu, n, d, rho);
    TimesOrder(256 * r - s, d);
    Together(d, r, s, c0 * (d - n) + c1 * n, rho * w);
  }

  lemma SumsTo(c0: int, c1: int, iu: int)
    ensures c0 * (256 - iu) + c1 * iu == 256 * c0 + iu * (c1 - c0)
  {
  }

  lemma Together(d: int, r: int, s: int, mix: int, error: int)
    requires -256 * d < d * (256 * r - s) <= 0 && d * s == 256 * mix - error && -255 * d <= error <= 255 * d && d > 0
    ensures -2 * d < d * r - mix < d
  {
    assert d * (256 * r - s) == 256 * (d * r) - d * s;
  }

  lemma StepsError(c0: int, w: int, iu: int, n: int, d: int, rho: int)
    requires rho == 256 * n - d * iu && 0 <= rho < d && -255 <= w <= 255
    ensures d * (256 * c0 + iu * w) == 256 * (c0 * (d - n) + (c0 + w) * n) - rho * w
    ensures -255 * d <= rho * w <= 255 * d
  {
    assert d * (iu * w) == (d * iu) * w;
    assert (256 * n - rho) * w == 256 * (n * w) - rho * w;
    assert c0 * (d - n) + (c0 + w) * n == c0 * d + n * w;
    RemainderError(rho, w, d);
  }

  lemma RemainderError(rho: int, w: int, d: int)
    requires 0 <= rho < d && -255 <= w <= 255
    ensures -255 * d <= rho * w <= 255 * d
  {
    assert rho * (255 - w) >= 0 && rho * (255 + w) >= 0;
  }

  lemma TimesOrder(v: int, d: int)
    requires -256 < v <= 0 && d > 0
    ensures -256 * d < d * v <= 0
  {
  }

  /** An entry between two neighbouring stops is the colour so many steps of the way from one to the other, in every
      channel, alpha included. */
  lemma RampIsMixture(stops: seq<Stop>, opacity: real, i: nat, k: nat)
    requires Sorted(stops) && i + 1 < |stops|
    requires Position(stops[i].offset) <= k < Position(stops[i + 1].offset)
    ensures var c, c0, c1 := RampColor(stops, opacity, k), ApplyOpacity(stops[i].color, opacity),
                             ApplyOpacity(stops[i + 1].color, opacity);
            var n, d := k - Position(stops[i].offset), Position(stops[i + 1].offset) - Position(stops[i].offset);
            StepsBetween(c.r, c0.r, c1.r, n, d) && StepsBetween(c.g, c0.g, c1.g, n, d) &&
            StepsBetween(c.b, c0.b, c1.b, n, d) && StepsBetween(c.a, c0.a, c1.a, n, d)
  {
    hide Position, ApplyOpacity, StepsBetween, Mixed, Share;
    LastIs(stops, k, i);
    var c0, c1 := ApplyOpacity(stops[i].color, opacity), ApplyOpacity(stops[i + 1].color, opacity);
    var n, d := k - Position(stops[i].offset), Position(stops[i + 1].offset) - Position(stops[i].offset);
    ShareOfSteps(n, d);
    var iu := Share(Fraction(Position(stops[i].offset), k, Position(stops[i + 1].offset)));
    MixedSteps(c0.r, c1.r, iu, n, d);
    MixedSteps(c0.g, c1.g, iu, n, d);
    MixedSteps(c0.b, c1.b, iu, n, d);
    MixedSteps(c0.a, c1.a, iu, n, d);
  }

  predicate ChannelsBetween(c: Rgba, c0: Rgba, c1: Rgba) {
    Min(c0.r, c1.r) <= c.r <= Max(c0.r, c1.r) && Min(c0.g, c1.g) <= c.g <= Max(c0.g, c1.g) &&
    Min(c0.b, c1.b) <= c.b <= Max(c0.b, c1.b) && Min(c0.a, c1.a) <= c.a <= Max(c0.a, c1.a)
  }

  /** Between two neighbouring stops every channel of an entry lies between theirs. */
  lemma RampBetweenNeighbours(stops: seq<Stop>, opacity: real, i: nat, k: nat)
    requires Sorted(stops) && i + 1 < |stops|
    requires Position(stops[i].offset) <= k < Position(stops[i + 1].offset)
    ensures ChannelsBetween(RampColor(stops, opacity, k), ApplyOpacity(stops[i].color, opacity),
                            ApplyOpacity(stops[i + 1].color, opacity))
  {
    hide Position, ApplyOpacity;
    LastIs(stops, k, i);
  }

  lemma LastIs(stops: seq<Stop>, k: nat, i: nat)
    requires Sorted(stops) && i < |stops| && Position(stops[i].offset) <= k
    requires i + 1 < |stops| ==> k < Position(stops[i + 1].offset)
    ensures LastBefore(stops, k, |stops|) == i
  {
    var last := LastBefore(stops, k, |stops|);
    hide LastBefore;
    if last > i {
      PositionMonotone(stops[i + 1].offset, stops[last].offset);
    }
  }

  lemma MixedStart(c0: byte, c1: byte)
    ensures Mixed(c0, c1, 0) == c0
  {
  }

  /** A coordinate equal to a stop's offset takes exactly that stop's colour, unless a later stop shares the entry. */
  lemma StopHasItsColor(stops: seq<Stop>, opacity: real, i: nat)
    requires Sorted(stops) && i < |stops|
    requires i + 1 < |stops| ==> Position(stops[i].offset) < Position(stops[i + 1].offset)
    ensures RampColor(stops, opacity, RampIndex(stops[i].offset)) == ApplyOpacity(stops[i].color, opacity)
  {
    var k := Position(stops[i].offset);
    assert RampIndex(stops[i].offset) == k;
    LastIs(stops, k, i);
    if i + 1 < |stops| {
      ZeroFraction(k, Position(stops[i + 1].offset));
      assert Share(0.0) == 0;
      var c0, c1 := ApplyOpacity(stops[i].color, opacity), ApplyOpacity(stops[i + 1].color, opacity);
      hide Position, ApplyOpacity, LastBefore, RampIndex, Mixed, Share;
      MixedStart(c0.r, c1.r);
      MixedStart(c0.g, c1.g);
      MixedStart(c0.b, c1.b);
      MixedStart(c0.a, c1.a);
    }
  }

  lemma ZeroFraction(p: int, q: int)
    requires p < q
    ensures Fraction(p, p, q) == 0.0
  {
  }

  lemma NextFraction(p: int, k: int, q: int)
    requires p < q
    ensures Fraction(p, k, q) + 1.0 / (q - p) as real == Fraction(p, k + 1, q)
  {
  }

  datatype Spread = Pad | Reflect | Repeat

  datatype SourcePaint =
    | Color(color: Rgba)
    | LinearGradient(spread: Spread, xform: seq<real>, stops: seq<Stop>)
    | RadialGradient(spread: Spread, xform: seq<real>, stops: seq<Stop>)

  predicate GoodPaint(p: SourcePaint) {
    !p.Color? ==> Sorted(p.stops) && |p.xform| == 6
  }

  function Ramp(stops: seq<Stop>, opacity: real): (r: seq<Rgba>)
    ensures |r| == 256 && forall k :: 0 <= k < 256 ==> r[k] == RampColor(stops, opacity, k)
  {
    seq(256, k requires 0 <= k => RampColor(stops, opacity, k))
  }

  /** What a paint at some opacity comes to when pixels are coloured. */
  function PaintOf(p: SourcePaint, opacity: real): (r: Paint)
    requires GoodPaint(p)
    ensures ValidPaint(r)
  {
    match p
    case Color(c) => Solid(ApplyOpacity(c, opacity))
    case LinearGradient(_, t, stops) => Linear(Ramp(stops, opacity), t)
    case RadialGradient(_, t, stops) => Radial(Ramp(stops, opacity), t)
  }

  /** The gradient's coordinate at (fx, fy): along its line, or from its centre. */
  function Coordinate(p: SourcePaint, sqrt: real -> real, fx: real, fy: real): real
    requires GoodPaint(p) && !p.Color?
  {
    if p.LinearGradient? then Along(p.xform, fx, fy) else Distance(p.xform, sqrt, fx, fy)
  }

  /** A pixel's colour is that of the ramp at the gradient's coordinate of the pixel; beyond the ends of the ramp its
      first and last colours go on. */
  lemma GradientPixel(p: SourcePaint, opacity: real, sqrt: real -> real, at: Placement, x: int, y: int)
    requires GoodPaint(p) && at.scale > 0.0
    ensures p.Color? ==> PixelColor(PaintOf(p, opacity), sqrt, at, x, y) == ApplyOpacity(p.color, opacity)
    ensures !p.Color? ==>
              var v := Coordinate(p, sqrt, (x as real - at.tx) / at.scale, (y as real - at.ty) / at.scale);
              PixelColor(PaintOf(p, opacity), sqrt, at, x, y) == RampColor(p.stops, opacity, RampIndex(v)) &&
              (v <= 0.0 ==> RampIndex(v) == 0) && (v >= 1.0 ==> RampIndex(v) == 255)
  {
    hide RampColor, ApplyOpacity, Sorted, Along, Distance;
  }

  /** The coordinate of a gradient at a point g of its own space: a linear one runs along the second axis, a radial one
      away from the origin. */
  function InGradientSpace(p: SourcePaint, sqrt: real -> real, g: Edges.Pt): real {
    if p.RadialGradient? then sqrt(Squares(g.x, g.y)) else g.y
  }

  /** A pixel is coloured at the point q of the image that is placed on it, which the gradient's transform takes to the
      gradient's own space. */
  lemma PixelInGradientSpace(p: SourcePaint, opacity: real, sqrt: real -> real, at: Placement, x: int, y: int)
    returns (q: Edges.Pt)
    requires GoodPaint(p) && !p.Color? && at.scale > 0.0
    ensures at.scale * q.x + at.tx == x as real && at.scale * q.y + at.ty == y as real
    ensures var v := InGradientSpace(p, sqrt, Transform.Apply(Transform.Mat(p.xform), q));
            PixelColor(PaintOf(p, opacity), sqrt, at, x, y) == RampColor(p.stops, opacity, RampIndex(v))
  {
    hide RampColor, Sorted, RampIndex, PixelColor, PaintOf;
    hide Transform.Apply, Along, Distance, InGradientSpace, Coordinate;
    q := Edges.Pt((x as real - at.tx) / at.scale, (y as real - at.ty) / at.scale);
    Divides(x as real - at.tx, at.scale);
    Divides(y as real - at.ty, at.scale);
    GradientPixel(p, opacity, sqrt, at, x, y);
    CoordinateIs(p, sqrt, q);
  }

  lemma Divides(a: real, b: real)
    requires b > 0.0
    ensures b * (a / b) == a
  {
  }

  lemma CoordinateIs(p: SourcePaint, sqrt: real -> real, q: Edges.Pt)
    requires GoodPaint(p) && !p.Color?
    ensures Coordinate(p, sqrt, q.x, q.y) == InGradientSpace(p, sqrt, Transform.Apply(Transform.Mat(p.xform), q))
  {
    var g := Transform.Apply(Transform.Mat(p.xform), q);
    AlongIs(p.xform, q);
    DistanceIs(p.xform, sqrt, q);
    hide Sorted, Along, Distance, Transform.Apply;
  }

  lemma AlongIs(t: seq<real>, q: Edges.Pt)
    requires |t| == 6
    ensures Sideways(t, q.x, q.y) == Transform.Apply(Transform.Mat(t), q).x
    ensures Along(t, q.x, q.y) == Transform.Apply(Transform.Mat(t), q).y
  {
    LineIs(q.x, q.y, t[0], t[2], t[4]);
    LineIs(q.x, q.y, t[1], t[3], t[5]);
    hide Line, Transform.Mix;
  }

  lemma LineIs(x: real, y: real, u: real, v: real, g: real)
    ensures Line(x, y, u, v, g) == Transform.Mix(x, y, u, v, g)
  {
  }

  lemma DistanceIs(t: seq<real>, sqrt: real -> real, q: Edges.Pt)
    requires |t| == 6
    ensures var g := Transform.Apply(Transform.Mat(t), q); Distance(t, sqrt, q.x, q.y) == sqrt(Squares(g.x, g.y))
  {
    AlongIs(t, q);
    hide Squares, Along, Sideways, Transform.Apply;
  }

  // ----- what the spread method asks for -----

  function Frac(v: real): (f: real)
    ensures 0.0 <= f < 1.0
  {
    v - v.Floor as real
  }

  /** Section 13.2 of SVG 1.1 (spreadMethod): the place of the ramp that coordinate v looks up. */
  function Folded(s: Spread, v: real): (f: real)
    ensures 0.0 <= f <= 1.0
  {
    match s
    case Pad => Clamp(v, 0.0, 1.0)
    case Repeat => Frac(v)
    case Reflect => if v.Floor % 2 == 0 then Frac(v) else 1.0 - Frac(v)
  }

  /** What the methods mean: between the ends all of them leave a coordinate alone; padding keeps the ends beyond them,
      repeating starts over with every whole step, and reflecting turns back at every whole number. */
  lemma SpreadMeans(v: real)
    ensures 0.0 <= v < 1.0 ==> Folded(Pad, v) == v && Folded(Repeat, v) == v && Folded(Reflect, v) == v
    ensures v <= 0.0 ==> Folded(Pad, v) == 0.0
    ensures v >= 1.0 ==> Folded(Pad, v) == 1.0
    ensures Folded(Repeat, v + 1.0) == Folded(Repeat, v)
    ensures Folded(Reflect, -v) == Folded(Reflect, v) && Folded(Reflect, v + 2.0) == Folded(Reflect, v)
  {
    FloorMoves(v, 1);
    FloorMoves(v, 2);
    FloorNegated(v);
  }

  lemma FloorMoves(v: real, n: int)
    ensures (v + n as real).Floor == v.Floor + n
  {
  }

  lemma FloorNegated(v: real)
    ensures (-v).Floor == -v.Floor - if v == v.Floor as real then 0 else 1
  {
    var k := -v.Floor - if v == v.Floor as real then 0 else 1;
    assert k as real <= -v < k as real + 1.0;
  }

  /** Padding does: between the ends, near the first entry of a repetition before the start, and on the crests of a
      reflection behind the end. */
  predicate PaddingDoes(s: Spread, v: real) {
    s == Pad || 0.0 <= v < 1.0 || (v < 0.0 && Folded(s, v) * 255.0 < 1.0) ||
    (s == Reflect && v >= 1.0 && Folded(s, v) == 1.0)
  }

  /** The code looks up the entry that the spread method asks for exactly where padding does. */
  lemma RampIndexFollowsSpreadIff(s: Spread, v: real)
    ensures RampIndex(v) == RampIndex(Folded(s, v)) <==> PaddingDoes(s, v)
  {
    assert 0.0 <= Frac(v) < 1.0;
  }

  /** The colour a gradient has at coordinate v. */
  function SpreadColor(p: SourcePaint, opacity: real, v: real): Rgba
    requires !p.Color?
  {
    RampColor(p.stops, opacity, RampIndex(Folded(p.spread, v)))
  }

  function CoordinateOf(p: SourcePaint, sqrt: real -> real, at: Placement, x: int, y: int): real
    requires GoodPaint(p) && !p.Color? && at.scale > 0.0
  {
    Coordinate(p, sqrt, (x as real - at.tx) / at.scale, (y as real - at.ty) / at.scale)
  }

  /** The pixel has the colour that the spread method asks for. */
  predicate FollowsSpread(p: SourcePaint, opacity: real, sqrt: real -> real, at: Placement, x: int, y: int)
    requires GoodPaint(p) && !p.Color? && at.scale > 0.0
  {
    PixelColor(PaintOf(p, opacity), sqrt, at, x, y) == SpreadColor(p, opacity, CoordinateOf(p, sqrt, at, x, y))
  }

  // The same, with other stops in the gradient.
  predicate FollowsWith(p: SourcePaint, stops: seq<Stop>, opacity: real, sqrt: real -> real, at: Placement, x: int,
                        y: int)
    requires GoodPaint(p) && !p.Color? && at.scale > 0.0
  {
    Sorted(stops) ==> FollowsSpread(p.(stops := stops), opacity, sqrt, at, x, y)
  }

  lemma FollowsSpreadIs(p: SourcePaint, opacity: real, sqrt: real -> real, at: Placement, x: int, y: int)
    requires GoodPaint(p) && !p.Color? && at.scale > 0.0
    ensures var v := CoordinateOf(p, sqrt, at, x, y);
            FollowsSpread(p, opacity, sqrt, at, x, y) <==>
            RampColor(p.stops, opacity, RampIndex(v)) == RampColor(p.stops, opacity, RampIndex(Folded(p.spread, v)))
  {
    GradientPixel(p, opacity, sqrt, at, x, y);
    hide Sorted, RampColor, PaintOf, RampIndex, Folded, PixelColor, Coordinate;
  }

  /** Whatever its stops and opacity, a gradient's pixel has the colour its spread method asks for exactly where padding
      does. */
  lemma PixelFollowsSpreadIff(p: SourcePaint, sqrt: real -> real, at: Placement, x: int, y: int)
    requires GoodPaint(p) && !p.Color? && at.scale > 0.0
    ensures (forall stops, opacity :: FollowsWith(p, stops, opacity, sqrt, at, x, y)) <==>
            PaddingDoes(p.spread, CoordinateOf(p, sqrt, at, x, y))
  {
    hide Sorted, RampColor, PaintOf, RampIndex, Folded, PixelColor, Coordinate, PaddingDoes, FollowsSpread,
         CoordinateOf;
    var v := CoordinateOf(p, sqrt, at, x, y);
    RampIndexFollowsSpreadIff(p.spread, v);
    forall stops, opacity | Sorted(stops)
      ensures FollowsWith(p, stops, opacity, sqrt, at, x, y) <==>
              RampColor(stops, opacity, RampIndex(v)) == RampColor(stops, opacity, RampIndex(Folded(p.spread, v)))
    {
      SameCoordinate(p, stops, sqrt, at, x, y);
      FollowsSpreadIs(p.(stops := stops), opacity, sqrt, at, x, y);
    }
    if PaddingDoes(p.spread, v) {
      assert forall stops, opacity :: FollowsWith(p, stops, opacity, sqrt, at, x, y);
    } else {
      var stops := Telling(RampIndex(v), RampIndex(Folded(p.spread, v)));
      assert !FollowsWith(p, stops, 1.0, sqrt, at, x, y);
    }
  }

  lemma SameCoordinate(p: SourcePaint, stops: seq<Stop>, sqrt: real -> real, at: Placement, x: int, y: int)
    requires GoodPaint(p) && !p.Color? && at.scale > 0.0 && Sorted(stops)
    ensures var q := p.(stops := stops);
            !q.Color? && GoodPaint(q) && CoordinateOf(q, sqrt, at, x, y) == CoordinateOf(p, sqrt, at, x, y)
  {
    hide Sorted, Along, Distance;
  }

  const BLACK := Rgba(0, 0, 0, 255)
  const WHITE := Rgba(255, 255, 255, 255)

  /** Stops between which the colour jumps just before entry n. */
  function JumpAt(n: nat): (stops: seq<Stop>)
    ensures Sorted(stops) && |stops| == 3
  {
    var offset := if 1 <= n <= 255 then n as real / 255.0 else 1.0;
    [Stop(0.0, BLACK), Stop(offset, BLACK), Stop(offset, WHITE)]
  }

  lemma JumpColor(n: nat, k: nat)
    requires 1 <= n <= 255 && k <= 255
    ensures RampColor(JumpAt(n), 1.0, k) == if k < n then BLACK else WHITE
  {
    var stops := JumpAt(n);
    assert Position(0.0) == 0;
    PositionOfEntry(n);
    hide Position;
    assert ApplyOpacity(BLACK, 1.0) == BLACK && ApplyOpacity(WHITE, 1.0) == WHITE;
    if k < n {
      Segment(stops, 1.0, 0, k);
      LerpSame(BLACK, Fraction(0, k, n));
    } else {
      AfterLast(stops, 1.0, k);
    }
  }

  lemma PositionOfEntry(n: nat)
    requires 1 <= n <= 255
    ensures Position(n as real / 255.0) == n
  {
    assert n as real / 255.0 * 255.0 == n as real;
  }

  lemma LerpSame(c: Rgba, u: real)
    ensures LerpRgba(c, c, u) == c
  {
  }

  /** Different entries of the ramp have different colours for some stops. */
  lemma Telling(j: nat, k: nat) returns (stops: seq<Stop>)
    requires j != k && j <= 255 && k <= 255
    ensures Sorted(stops) && RampColor(stops, 1.0, j) != RampColor(stops, 1.0, k)
  {
    stops := JumpAt(if j < k then k else j);
    JumpColor(if j < k then k else j, j);
    JumpColor(if j < k then k else j, k);
  }

  const FADE := [Stop(0.0, BLACK), Stop(1.0, WHITE)]

  lemma FadeColors()
    ensures Sorted(FADE)
    ensures RampColor(FADE, 1.0, 255) == WHITE && RampColor(FADE, 1.0, 127) == Rgba(126, 126, 126, 255)
  {
    assert Position(0.0) == 0 && Position(1.0) == 255;
    assert ApplyOpacity(BLACK, 1.0) == BLACK && ApplyOpacity(WHITE, 1.0) == WHITE;
    hide Position, ApplyOpacity, RampColor;
    AfterLast(FADE, 1.0, 255);
    Segment(FADE, 1.0, 0, 127);
    assert Share(Fraction(0, 127, 255)) == 127;
  }

  lemma ReflectedPlace()
    ensures RampIndex(1.5) == 255 && RampIndex(Folded(Reflect, 1.5)) == 127
  {
    assert (1.5).Floor == 1;
  }

  /** A reflected ramp from black to white: behind its end it should fall again, and stays white. */
  lemma ReflectExample(sqrt: real -> real)
    ensures var p, at := LinearGradient(Reflect, [1.0, 0.5, 0.0, 0.0, 0.0, 0.0], FADE), Placement(0.0, 0.0, 1.0);
            GoodPaint(p) && CoordinateOf(p, sqrt, at, 3, 0) == 1.5 &&
            PixelColor(PaintOf(p, 1.0), sqrt, at, 3, 0) == WHITE && SpreadColor(p, 1.0, 1.5) == Rgba(126, 126, 126, 255)
  {
    FadeColors();
    ReflectedPlace();
    hide Sorted, RampColor, PixelColor, RampIndex, PaintOf, Folded;
    GradientPixel(LinearGradient(Reflect, [1.0, 0.5, 0.0, 0.0, 0.0, 0.0], FADE), 1.0, sqrt, Placement(0.0, 0.0, 1.0),
                  3, 0);
  }

  datatype Kind = ColorKind | LinearKind | RadialKind

  class CachedPaint {
    var kind: Kind
    var spread: Spread
    var xform: seq<real>
    const colors: array<Rgba>

    constructor ()
      ensures fresh(colors) && colors.Length == 256
    {
      kind, spread, xform := ColorKind, Pad, [];
      colors := new Rgba[256](_ => Rgba(0, 0, 0, 0));
    }

    /** What the rasterizer paints with. */
    function Value(): Paint
      reads this, colors
      requires colors.Length == 256
    {
      match kind
      case ColorKind => Solid(colors[0])
      case LinearKind => Linear(colors[..], xform)
      case RadialKind => Radial(colors[..], xform)
    }

    /** nsvg__initPaint: for a gradient with sorted stops every one of the 256 entries is written, whatever was there
        before. */
    method InitPaint(paint: SourcePaint, opacity: real)
      requires colors.Length == 256 && GoodPaint(paint)
      modifies this, colors
      ensures Value() == PaintOf(paint, opacity)
      ensures !paint.Color? ==> spread == paint.spread
      ensures !paint.Color? ==> forall k :: 0 <= k < 256 ==> colors[k] == RampColor(paint.stops, opacity, k)
    {
      hide RampColor, ApplyOpacity, Sorted;
      if paint.Color? {
        kind := ColorKind;
        colors[0] := ApplyOpacity(paint.color, opacity);
        return;
      }
      kind := if paint.LinearGradient? then LinearKind else RadialKind;
      spread, xform := paint.spread, paint.xform;
      FillAll(paint.stops, opacity);
      assert colors[..] == Ramp(paint.stops, opacity);
    }

    // The colours of a gradient.
    method FillAll(stops: seq<Stop>, opacity: real)
      requires colors.Length == 256 && Sorted(stops)
      modifies colors
      ensures forall k :: 0 <= k < 256 ==> colors[k] == RampColor(stops, opacity, k)
    {
      if |stops| == 0 {
        FillColors(0, Rgba(0, 0, 0, 0));
      } else if |stops| == 1 {
        FillColors(0, ApplyOpacity(stops[0].color, opacity));
      } else {
        FillRamp(stops, opacity);
      }
    }

    /** Every entry from `from` on. */
    method FillColors(from: nat, c: Rgba)
      requires colors.Length == 256
      modifies colors
      ensures forall k :: from <= k < 256 ==> colors[k] == c
      ensures forall k :: 0 <= k < 256 && k < from ==> colors[k] == old(colors[k])
    {
      var i := from;
      while i < 256
        invariant from <= i
        invariant forall k :: from <= k < i && k < 256 ==> colors[k] == c
        invariant forall k :: 0 <= k < 256 && k < from ==> colors[k] == old(colors[k])
      {
        colors[i] := c;
        i := i + 1;
      }
    }

    method FillRamp(stops: seq<Stop>, opacity: real)
      requires colors.Length == 256 && Sorted(stops) && |stops| >= 2
      modifies colors
      ensures forall k :: 0 <= k < 256 ==> colors[k] == RampColor(stops, opacity, k)
    {
      hide ApplyOpacity, RampColor, Position;
      var n := |stops|;
      var first := ApplyOpacity(stops[0].color, opacity);
      var ia := Position(stops[0].offset);
      for i := 0 to ia
        invariant forall k :: 0 <= k < i ==> colors[k] == RampColor(stops, opacity, k)
      {
        BeforeFirst(stops, opacity, i);
        colors[i] := first;
      }
      for i := 0 to n - 1
        invariant forall k :: 0 <= k < Position(stops[i].offset) ==> colors[k] == RampColor(stops, opacity, k)
      {
        FillSegment(stops, opacity, i);
      }
      var last := ApplyOpacity(stops[n - 1].color, opacity);
      forall k | Position(stops[n - 1].offset) <= k ensures RampColor(stops, opacity, k) == last {
        AfterLast(stops, opacity, k);
      }
      FillColors(Position(stops[n - 1].offset), last);
    }

    /** The entries from one stop up to the next. */
    method FillSegment(stops: seq<Stop>, opacity: real, i: nat)
      requires colors.Length == 256 && Sorted(stops) && i + 1 < |stops|
      requires forall k :: 0 <= k < Position(stops[i].offset) ==> colors[k] == RampColor(stops, opacity, k)
      modifies colors
      ensures forall k :: 0 <= k < Position(stops[i + 1].offset) ==> colors[k] == RampColor(stops, opacity, k)
    {
      hide ApplyOpacity, RampColor, LerpRgba, Fraction, Position;
      var ca, cb := ApplyOpacity(stops[i].color, opacity), ApplyOpacity(stops[i + 1].color, opacity);
      var ia: int, ib: int := Position(stops[i].offset), Position(stops[i + 1].offset);
      var count := ib - ia;
      if count <= 0 {
        return;
      }
      var u, du := 0.0, 1.0 / count as real;
      ZeroFraction(ia, ib);
      for j := 0 to count
        invariant u == Fraction(ia, ia + j, ib)
        invariant forall k :: 0 <= k < ia + j ==> colors[k] == RampColor(stops, opacity, k)
      {
        Segment(stops, opacity, i, ia + j);
        colors[ia + j] := LerpRgba(ca, cb, u);
        NextFraction(ia, ia + j, ib);
        u := u + du;
      }
    }
  }

  lemma BeforeFirst(stops: seq<Stop>, opacity: real, k: nat)
    requires Sorted(stops) && stops != [] && k < Position(stops[0].offset)
    ensures RampColor(stops, opacity, k) == ApplyOpacity(stops[0].color, opacity)
  {
    var i := LastBefore(stops, k, |stops|);
    hide LastBefore, ApplyOpacity, LerpRgba;
    if i >= 0 {
      PositionMonotone(stops[0].offset, stops[i].offset);
    }
  }

  lemma AfterLast(stops: seq<Stop>, opacity: real, k: nat)
    requires Sorted(stops) && stops != [] && Position(stops[|stops| - 1].offset) <= k
    ensures RampColor(stops, opacity, k) == ApplyOpacity(stops[|stops| - 1].color, opacity)
  {
    hide Position, ApplyOpacity, LerpRgba;
    LastIs(stops, k, |stops| - 1);
  }

  /** Before its first stop and behind its last one the ramp has their colours; without stops it is transparent. */
  lemma RampEnds(stops: seq<Stop>, opacity: real, k: nat)
    requires Sorted(stops)
    ensures stops == [] ==> RampColor(stops, opacity, k) == Rgba(0, 0, 0, 0)
    ensures stops != [] && k < Position(stops[0].offset) ==>
              RampColor(stops, opacity, k) == ApplyOpacity(stops[0].color, opacity)
    ensures stops != [] && k >= Position(stops[|stops| - 1].offset) ==>
              RampColor(stops, opacity, k) == ApplyOpacity(stops[|stops| - 1].color, opacity)
  {
    if stops != [] && k < Position(stops[0].offset) { BeforeFirst(stops, opacity, k); }
    if stops != [] && k >= Position(stops[|stops| - 1].offset) { AfterLast(stops, opacity, k); }
    hide Position, ApplyOpacity, LerpRgba, LastBefore, Sorted;
  }

  lemma Segment(stops: seq<Stop>, opacity: real, i: nat, k: nat)
    requires Sorted(stops) && i + 1 < |stops|
    requires Position(stops[i].offset) <= k < Position(stops[i + 1].offset)
    ensures RampColor(stops, opacity, k) ==
            LerpRgba(ApplyOpacity(stops[i].color, opacity), ApplyOpacity(stops[i + 1].color, opacity),
                     Fraction(Position(stops[i].offset), k, Position(stops[i + 1].offset)))
  {
    hide Position, ApplyOpacity, LerpRgba, Fraction;
    LastIs(stops, k, i);
  }
}
