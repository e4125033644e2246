/** The dash loop of flattenShapeStroke (src/External/nanosvg/nanosvgrast.h).

    Distances are those of any metric that is linear along segments, as the Euclidean one is, so no square root is
    needed. The loop cuts a polyline into pieces that are drawn and skipped in turn. */
module Dash {
  import opened Cyclic
  import opened Edges
  import opened Flatten

  /** The point a fraction t of the way from a to b, as the loop computes it. */
  function Between(a: Pt, b: Pt, t: real): Pt {
    Pt(a.x + (b.x - a.x) * t, a.y + (b.y - a.y) * t)
  }

  type Metric = (Pt, Pt) -> real

  /** A point on a segment divides its length in proportion. */
  ghost predicate LinearMetric(dist: Metric) {
    (forall a, b :: dist(a, b) >= 0.0) &&
    (forall a, b, t {:trigger Between(a, b, t)} :: 0.0 <= t <= 1.0 ==>
       dist(a, Between(a, b, t)) == t * dist(a, b) && dist(Between(a, b, t), b) == (1.0 - t) * dist(a, b))
  }

  /** Cutting a segment puts the point where it belongs: on the segment, a fraction t of the way. */
  lemma BetweenIsPartWay(a: Pt, b: Pt, t: real)
    ensures PartWay(Between(a, b, t), a, b, t)
  {
  }

  // The square of the straight distance.
  function Squared(a: Pt, b: Pt): real {
    (b.x - a.x) * (b.x - a.x) + (b.y - a.y) * (b.y - a.y)
  }

  lemma SquaredPart(a: Pt, b: Pt, p: Pt, t: real)
    requires PartWay(p, a, b, t)
    ensures Squared(a, p) == t * t * Squared(a, b)
  {
    var dx, dy := b.x - a.x, b.y - a.y;
    assert p.x - a.x == t * dx && p.y - a.y == t * dy;
    SquareOfPart(t, dx, p.x - a.x);
    SquareOfPart(t, dy, p.y - a.y);
    SumOfParts(t, dx * dx, dy * dy);
  }

  lemma SumOfParts(t: real, u: real, v: real)
    ensures t * t * u + t * t * v == t * t * (u + v)
  {
  }

  lemma SquareOfPart(t: real, d: real, td: real)
    requires td == t * d
    ensures td * td == t * t * (d * d)
  {
  }

  lemma SameRoot(u: real, v: real)
    requires u >= 0.0 && v >= 0.0 && u * u == v * v
    ensures u == v
  {
    if u > v {
      SquareLess(v, u, v * v, v * u, u * u);
    } else if v > u {
      SquareLess(u, v, u * u, u * v, v * v);
    }
  }

  lemma SquareLess(u: real, v: real, uu: real, uv: real, vv: real)
    requires 0.0 <= u < v && uu == u * u && uv == u * v && vv == v * v
    ensures uu < vv
  {
    OneLarger(u, v, u, uu, uv);
    OneLarger(u, v, v, uv, vv);
  }

  lemma OneLarger(u: real, v: real, w: real, uw: real, vw: real)
    requires u < v && w >= 0.0 && uw == u * w && vw == v * w
    ensures uw <= vw && (w > 0.0 ==> uw < vw)
  {
    var e := v - u;
    assert w > 0.0 ==> e * w > 0.0;
    assert vw == uw + e * w;
  }

  /** The Euclidean distance is such a metric: whatever measures the length of every segment rightly, cuts it in
      proportion. */
  lemma EuclideanIsLinear(dist: Metric)
    requires forall a, b :: dist(a, b) >= 0.0 && dist(a, b) * dist(a, b) == Squared(a, b)
    ensures LinearMetric(dist)
  {
    hide Squared;
    forall a, b, t {:trigger Between(a, b, t)} | 0.0 <= t <= 1.0
      ensures dist(a, Between(a, b, t)) == t * dist(a, b) && dist(Between(a, b, t), b) == (1.0 - t) * dist(a, b)
    {
      EuclideanPart(dist, a, b, t);
    }
  }

  lemma EuclideanPart(dist: Metric, a: Pt, b: Pt, t: real)
    requires forall p, q :: dist(p, q) >= 0.0 && dist(p, q) * dist(p, q) == Squared(p, q)
    requires 0.0 <= t <= 1.0
    ensures dist(a, Between(a, b, t)) == t * dist(a, b) && dist(Between(a, b, t), b) == (1.0 - t) * dist(a, b)
  {
    var p := Between(a, b, t);
    BetweenIsPartWay(a, b, t);
    SquaredPart(a, b, p, t);
    FromTheEnd(a, b, p, t);
    SquaredPart(b, a, p, 1.0 - t);
    assert Squared(b, a) == Squared(a, b) && Squared(b, p) == Squared(p, b) by {
      SquaredSymmetric(a, b);
      SquaredSymmetric(p, b);
    }
    hide Squared, PartWay, Between;
    RootOfPart(dist(a, p), t, dist(a, b));
    RootOfPart(dist(p, b), 1.0 - t, dist(a, b));
  }

  lemma SquaredSymmetric(a: Pt, b: Pt)
    ensures Squared(a, b) == Squared(b, a)
  {
  }

  lemma RootOfPart(u: real, t: real, d: real)
    requires u >= 0.0 && t >= 0.0 && d >= 0.0 && u * u == t * t * (d * d)
    ensures u == t * d
  {
    var v := t * d;
    assert v * v == t * t * (d * d) && v >= 0.0;
    SameRoot(u, v);
  }

  function PathLength(dist: Metric, ps: seq<Pt>): real {
    if |ps| < 2 then 0.0 else dist(ps[0], ps[1]) + PathLength(dist, ps[1..])
  }

  lemma {:induction false} PathLengthSnoc(dist: Metric, ps: seq<Pt>, q: Pt)
    requires ps != []
    ensures PathLength(dist, ps + [q]) == PathLength(dist, ps) + dist(ps[|ps| - 1], q)
  {
    if |ps| == 1 {
      assert (ps + [q])[1..] == [q];
    } else {
      assert (ps + [q])[1..] == ps[1..] + [q];
      PathLengthSnoc(dist, ps[1..], q);
    }
  }

  // ----- the pattern -----

  /** What parseStrokeDashArray guarantees: no negative entry, and not all zero. */
  ghost predicate ValidDashes(dashes: seq<real>) {
    (forall i :: 0 <= i < |dashes| ==> dashes[i] >= 0.0) && exists i :: 0 <= i < |dashes| && dashes[i] > 0.0
  }

  /** Index of the k-th entry, counted round and round: k modulo the number of entries. */
  function Wrap(k: nat, n: nat): (i: nat)
    requires n > 0
    ensures i < n
  {
    if k == 0 then 0 else Succ(Wrap(k - 1, n), n)
  }

  /** Length of the first k entries, the array being repeated for ever. */
  function Prefix(dashes: seq<real>, k: nat): real
    requires dashes != []
  {
    if k == 0 then 0.0 else Prefix(dashes, k - 1) + dashes[Wrap(k - 1, |dashes|)]
  }

  /** An odd number of entries is repeated once to make the pattern alternate. */
  function PatternCount(dashes: seq<real>): nat {
    if |dashes| % 2 == 1 then 2 * |dashes| else |dashes|
  }

  lemma {:induction false} WrapSmall(k: nat, n: nat)
    requires k < n
    ensures Wrap(k, n) == k
  {
    if k > 0 { WrapSmall(k - 1, n); }
  }

  lemma {:induction false} WrapAgain(k: nat, n: nat)
    requires n > 0
    ensures Wrap(n + k, n) == Wrap(k, n)
    decreases k
  {
    if k == 0 {
      WrapSmall(n - 1, n);
    } else {
      WrapAgain(k - 1, n);
      assert Wrap(n + k, n) == Succ(Wrap(n + k - 1, n), n);
    }
  }

  lemma {:induction false} PrefixMonotone(dashes: seq<real>, j: nat, k: nat)
    requires dashes != [] && (forall i :: 0 <= i < |dashes| ==> dashes[i] >= 0.0) && j <= k
    ensures Prefix(dashes, j) <= Prefix(dashes, k)
    decreases k
  {
    hide Wrap;
    if j < k { PrefixMonotone(dashes, j, k - 1); }
  }

  lemma {:induction false} PrefixTwice(dashes: seq<real>, k: nat)
    requires dashes != []
    ensures Prefix(dashes, |dashes| + k) == Prefix(dashes, |dashes|) + Prefix(dashes, k)
    decreases k
  {
    hide Wrap;
    if k > 0 {
      PrefixTwice(dashes, k - 1);
      WrapAgain(k - 1, |dashes|);
    }
  }

  lemma PatternLength(dashes: seq<real>)
    requires ValidDashes(dashes)
    ensures Prefix(dashes, PatternCount(dashes))
         == (if |dashes| % 2 == 1 then Prefix(dashes, |dashes|) * 2.0 else Prefix(dashes, |dashes|))
    ensures Prefix(dashes, |dashes|) > 0.0
  {
    hide Wrap;
    PrefixTwice(dashes, |dashes|);
    var p :| 0 <= p < |dashes| && dashes[p] > 0.0;
    PrefixMonotone(dashes, 0, p);
    WrapSmall(p, |dashes|);
    assert Prefix(dashes, p + 1) == Prefix(dashes, p) + dashes[p];
    PrefixMonotone(dashes, p + 1, |dashes|);
  }

  function Truncate(v: real): int {
    if v >= 0.0 then v.Floor else -((-v).Floor)
  }

  /** fmodf. */
  function Fmod(x: real, y: real): real
    requires y > 0.0
  {
    x - y * (Truncate(x / y) as real)
  }

  lemma FmodRange(x: real, y: real)
    requires y > 0.0
    ensures -y < Fmod(x, y) < y
  {
    TruncateError(x / y);
    QuotientTimes(x, y);
    RemainderRange(x, y, x / y, Truncate(x / y) as real);
  }

  lemma TruncateError(q: real)
    ensures -1.0 < q - Truncate(q) as real < 1.0
  {
  }

  lemma QuotientTimes(x: real, y: real)
    requires y > 0.0
    ensures x == (x / y) * y
  {
  }

  lemma RemainderRange(x: real, y: real, q: real, t: real)
    requires y > 0.0 && x == q * y && -1.0 < q - t < 1.0
    ensures -y < x - y * t < y
  {
    var f := q - t;
    assert -y < f * y < y by { TimesWithin(f, y); }
    assert f * y == x - y * t by { Distributed(q, t, y); }
  }

  lemma Distributed(q: real, t: real, y: real)
    ensures (q - t) * y == q * y - y * t
  {
  }

  lemma TimesWithin(f: real, y: real)
    requires -1.0 < f < 1.0 && y > 0.0
    ensures -y < f * y < y
  {
    assert (1.0 - f) * y > 0.0;
    assert (1.0 + f) * y > 0.0;
  }

  /** Position of the stroke's start inside the pattern. */
  function PatternPosition(dashes: seq<real>, offset: real): real
    requires dashes != [] && Prefix(dashes, PatternCount(dashes)) > 0.0
  {
    var f := Fmod(offset, Prefix(dashes, PatternCount(dashes)));
    if f < 0.0 then f + Prefix(dashes, PatternCount(dashes)) else f
  }

  // Sum of the entries, doubled for an odd number of them.
  method PatternSum(dashes: seq<real>) returns (all: real)
    requires ValidDashes(dashes)
    ensures all == Prefix(dashes, PatternCount(dashes)) > 0.0
  {
    hide Wrap;
    all := 0.0;
    for j := 0 to |dashes|
      invariant all == Prefix(dashes, j)
    {
      WrapSmall(j, |dashes|);
      all := all + dashes[j];
    }
    PatternLength(dashes);
    if |dashes| % 2 == 1 {
      all := all * 2.0;
    }
  }

  /** The first entry from the k-th on that reaches up to x. */
  function FirstEntry(dashes: seq<real>, x: real, k: nat): (r: nat)
    requires dashes != [] && k < PatternCount(dashes) && x < Prefix(dashes, PatternCount(dashes))
    ensures k <= r < PatternCount(dashes) && x <= Prefix(dashes, r + 1)
    ensures forall i: nat :: k < i <= r ==> Prefix(dashes, i) < x
    decreases PatternCount(dashes) - k
  {
    if x <= Prefix(dashes, k + 1) || k + 1 == PatternCount(dashes) then k else FirstEntry(dashes, x, k + 1)
  }

  /** Where in the pattern the stroke starts: that many whole entries and that much of the next lie behind it. */
  datatype Start = Start(skipped: nat, into: real)

  function StartOf(dashes: seq<real>, offset: real): (r: Start)
    requires ValidDashes(dashes)
    ensures r.skipped < PatternCount(dashes) && 0.0 <= r.into <= dashes[Wrap(r.skipped, |dashes|)]
    ensures Prefix(dashes, PatternCount(dashes)) > 0.0
    ensures Prefix(dashes, r.skipped) + r.into == PatternPosition(dashes, offset)
    ensures r.skipped > 0 ==> r.into > 0.0
  {
    PatternLength(dashes);
    PositionRange(dashes, offset);
    var x := PatternPosition(dashes, offset);
    hide Wrap, PatternPosition, PatternCount, FirstEntry, ValidDashes;
    var k := FirstEntry(dashes, x, 0);
    Start(k, x - Prefix(dashes, k))
  }

  lemma PositionRange(dashes: seq<real>, offset: real)
    requires dashes != [] && Prefix(dashes, PatternCount(dashes)) > 0.0
    ensures 0.0 <= PatternPosition(dashes, offset) < Prefix(dashes, PatternCount(dashes))
  {
    hide PatternCount;
    FmodRange(offset, Prefix(dashes, PatternCount(dashes)));
    hide Prefix, Fmod;
  }

  /** The first loop: finds the entry the stroke starts in. It ends before the pattern is exhausted. */
  method FindStart(dashes: seq<real>, offset: real) returns (idash: nat, into: real)
    requires ValidDashes(dashes)
    ensures idash == Wrap(StartOf(dashes, offset).skipped, |dashes|) && into == StartOf(dashes, offset).into
  {
    var all := PatternSum(dashes);
    PositionRange(dashes, offset);
    into := Fmod(offset, all);
    if into < 0.0 {
      into := into + all;
    }
    ghost var position := PatternPosition(dashes, offset);
    assert into == position;
    hide Fmod, Wrap, PatternPosition, PatternCount;
    ghost var skipped := 0;
    idash := 0;
    WrapSmall(0, |dashes|);
    while into > dashes[idash]
      invariant idash == Wrap(skipped, |dashes|) && skipped < PatternCount(dashes)
      invariant Prefix(dashes, skipped) + into == position
      invariant FirstEntry(dashes, position, skipped) == FirstEntry(dashes, position, 0)
      decreases PatternCount(dashes) - skipped
    {
      into := into - dashes[idash];
      SuccIsMod(idash, |dashes|);
      WrapNext(skipped, |dashes|);
      idash, skipped := (idash + 1) % |dashes|, skipped + 1;
    }
  }

  lemma WrapNext(k: nat, n: nat)
    requires n > 0
    ensures Wrap(k + 1, n) == Succ(Wrap(k, n), n)
  {
  }

  // ----- pieces -----

  /** One dash or gap: where it starts, the polyline's own points it runs through, and the cut that ends it (none for
      what is left over at the end of the polyline). */
  datatype DashPiece = DashPiece(start: PathPoint, vertices: seq<PathPoint>, cut: seq<Pt>, entry: nat, drawn: bool)

  function Route(p: DashPiece): (r: seq<Pt>)
    ensures r != [] && r[0] == p.start.p
  {
    Positions([p.start] + p.vertices) + p.cut
  }

  /** The point buffer the piece leaves for the stroker: addPathPoint may merge the cut into the point before it. */
  function Buffered(p: DashPiece, distTol: real): seq<PathPoint> {
    if p.cut == [] then [p.start] + p.vertices
    else Appended([p.start] + p.vertices, PathPoint(p.cut[0], true), distTol)
  }

  /** The buffers handed on to prepareStroke and expandStroke. */
  function Strokes(pieces: seq<DashPiece>, distTol: real): seq<seq<PathPoint>> {
    if pieces == [] then []
    else
      var p := pieces[|pieces| - 1];
      Strokes(pieces[..|pieces| - 1], distTol)
      + (if |Buffered(p, distTol)| > 1 && p.drawn then [Buffered(p, distTol)] else [])
  }

  function AllVertices(pieces: seq<DashPiece>): seq<PathPoint> {
    if pieces == [] then [] else AllVertices(pieces[..|pieces| - 1]) + pieces[|pieces| - 1].vertices
  }

  function TotalLength(dist: Metric, pieces: seq<DashPiece>): real {
    if pieces == [] then 0.0
    else TotalLength(dist, pieces[..|pieces| - 1]) + PathLength(dist, Route(pieces[|pieces| - 1]))
  }

  /** Length the k-th piece has to have: its entry's, or what is left of the entry the stroke starts in. */
  function EntryLength(dashes: seq<real>, scale: real, start: Start, k: nat): real
    requires dashes != []
  {
    var d := dashes[Wrap(start.skipped + k, |dashes|)];
    if k == 0 then (d - start.into) * scale else d * scale
  }

  /** The k-th piece: drawn and skipped in turn, in pattern order, starting where the one before was cut. */
  ghost predicate InPattern(dashes: seq<real>, start: Start, pieces: seq<DashPiece>, k: nat)
    requires dashes != [] && k < |pieces|
  {
    pieces[k].entry == Wrap(start.skipped + k, |dashes|) && pieces[k].drawn == (k % 2 == 0) &&
    (k > 0 ==> pieces[k - 1].cut == [pieces[k].start.p])
  }

  /** The k-th piece is finished: it was cut and has exactly its entry's length. */
  ghost predicate Complete(dist: Metric, dashes: seq<real>, scale: real, start: Start, pieces: seq<DashPiece>, k: nat)
    requires dashes != [] && k < |pieces|
  {
    |pieces[k].cut| == 1 && PathLength(dist, Route(pieces[k])) == EntryLength(dashes, scale, start, k)
  }

  ghost predicate AllComplete(dist: Metric, dashes: seq<real>, scale: real, start: Start, pieces: seq<DashPiece>)
    requires dashes != []
  {
    forall k: nat :: k < |pieces| ==>
      InPattern(dashes, start, pieces, k) && Complete(dist, dashes, scale, start, pieces, k)
  }

  /** No buffer with fewer than two points is handed on. */
  lemma {:induction false} StrokesHavePoints(pieces: seq<DashPiece>, distTol: real)
    ensures forall b :: b in Strokes(pieces, distTol) ==> |b| > 1
  {
    if pieces != [] {
      StrokesHavePoints(pieces[..|pieces| - 1], distTol);
    }
  }

  lemma PiecesSnoc(dist: Metric, distTol: real, pieces: seq<DashPiece>, p: DashPiece)
    ensures Strokes(pieces + [p], distTol)
         == Strokes(pieces, distTol)
            + (if |Buffered(p, distTol)| > 1 && p.drawn then [Buffered(p, distTol)] else [])
    ensures AllVertices(pieces + [p]) == AllVertices(pieces) + p.vertices
    ensures TotalLength(dist, pieces + [p]) == TotalLength(dist, pieces) + PathLength(dist, Route(p))
  {
    hide Route, Buffered;
    assert (pieces + [p])[..|pieces|] == pieces;
  }

  lemma CompleteSnoc(dist: Metric, dashes: seq<real>, scale: real, start: Start, pieces: seq<DashPiece>, p: DashPiece)
    requires dashes != [] && AllComplete(dist, dashes, scale, start, pieces)
    requires InPattern(dashes, start, pieces + [p], |pieces|)
    requires Complete(dist, dashes, scale, start, pieces + [p], |pieces|)
    ensures AllComplete(dist, dashes, scale, start, pieces + [p])
  {
    hide Wrap, PathLength, EntryLength, Route;
    forall k: nat | k < |pieces + [p]|
      ensures InPattern(dashes, start, pieces + [p], k) && Complete(dist, dashes, scale, start, pieces + [p], k)
    {
      if k < |pieces| {
        assert InPattern(dashes, start, pieces, k) && Complete(dist, dashes, scale, start, pieces, k);
      }
    }
  }

  // ----- why the second loop ends -----

  // Steps from index i round to index p.
  function RoundTo(i: nat, p: nat, n: nat): nat
    requires i < n && p < n
  {
    if i <= p then p - i else p + n - i
  }

  lemma RoundToNext(i: nat, p: nat, n: nat)
    requires i < n && p < n && i != p
    ensures RoundTo(Succ(i, n), p, n) == RoundTo(i, p, n) - 1
  {
  }

  function Chunks(rest: real, m: real): int
    requires m > 0.0
  {
    (rest / m).Floor
  }

  lemma ChunksMonotone(rest: real, rest': real, m: real)
    requires m > 0.0 && 0.0 <= rest' <= rest
    ensures 0 <= Chunks(rest', m) <= Chunks(rest, m)
  {
    var q, q' := rest / m, rest' / m;
    assert q == rest / m && q' == rest' / m;
    QuotientOrder(rest', rest, m);
  }

  lemma QuotientOrder(a: real, b: real, m: real)
    requires m > 0.0 && 0.0 <= a <= b
    ensures 0.0 <= a / m <= b / m
  {
    QuotientTimes(a, m);
    QuotientTimes(b, m);
    var x, y := a / m, b / m;
    assert x * m == a && y * m == b;
    FactorOrder(x, y, m);
  }

  lemma FactorOrder(x: real, y: real, m: real)
    requires m > 0.0 && x * m <= y * m
    ensures x <= y
  {
    var d := x - y;
    assert d * m == x * m - y * m;
    if d > 0.0 { assert d * m > 0.0; }
  }

  lemma ChunksLess(rest: real, m: real)
    requires m > 0.0
    ensures Chunks(rest - m, m) == Chunks(rest, m) - 1
  {
    QuotientLess(rest, m);
  }

  lemma QuotientLess(rest: real, m: real)
    requires m > 0.0
    ensures (rest - m) / m == rest / m - 1.0
  {
    var x, y := (rest - m) / m, rest / m;
    assert x * m == rest - m && y * m == rest;
    var z := y - 1.0;
    assert z * m == y * m - m;
    FactorOrder(x, z, m);
    FactorOrder(z, x, m);
  }

  // ----- the second loop -----

  /** What stays the same while a polyline is dashed. */
  datatype Setting = Setting(dist: Metric, dashes: seq<real>, scale: real, start: Start, pts: seq<PathPoint>)

  ghost predicate ValidSetting(s: Setting) {
    LinearMetric(s.dist) && ValidDashes(s.dashes) && s.scale > 0.0 && s.pts != [] &&
    0.0 <= s.start.into <= s.dashes[Wrap(s.start.skipped, |s.dashes|)]
  }

  /** Length of the polyline still ahead of cur when the next vertex is the j-th. */
  function Ahead(s: Setting, cur: Pt, j: nat): real {
    if j < |s.pts| then s.dist(cur, s.pts[j].p) + PathLength(s.dist, Positions(s.pts[j..])) else 0.0
  }

  /** The finished pieces and the open one account for the polyline up to `cur`, just before its j-th vertex. */
  ghost predicate Running(s: Setting, pieces: seq<DashPiece>, open: DashPiece, cur: PathPoint, totalDist: real, j: nat)
    requires s.dashes != []
  {
    1 <= j <= |s.pts| && open.cut == [] &&
    AllComplete(s.dist, s.dashes, s.scale, s.start, pieces) &&
    InPattern(s.dashes, s.start, pieces + [open], |pieces|) &&
    cur == ([open.start] + open.vertices)[|open.vertices|] &&
    totalDist == PathLength(s.dist, Route(open)) &&
    0.0 <= totalDist <= EntryLength(s.dashes, s.scale, s.start, |pieces|) &&
    AllVertices(pieces) + open.vertices == s.pts[1..j] &&
    TotalLength(s.dist, pieces) + totalDist + Ahead(s, cur.p, j) == PathLength(s.dist, Positions(s.pts)) &&
    (pieces + [open])[0].start == s.pts[0]
  }

  // Scaled length of entry i.
  function Unit(dashes: seq<real>, scale: real, i: nat): real
    requires i < |dashes|
  {
    dashes[i] * scale
  }

  lemma RouteSnoc(p: DashPiece, q: PathPoint, c: Pt)
    requires p.cut == []
    ensures Route(p.(vertices := p.vertices + [q])) == Route(p) + [q.p]
    ensures Route(p.(cut := [c])) == Route(p) + [c]
    ensures Route(p)[|Route(p)| - 1] == ([p.start] + p.vertices)[|p.vertices|].p
  {
    assert [p.start] + (p.vertices + [q]) == ([p.start] + p.vertices) + [q];
  }

  lemma AheadNext(s: Setting, j: nat)
    requires j < |s.pts|
    ensures PathLength(s.dist, Positions(s.pts[j..])) == Ahead(s, s.pts[j].p, j + 1)
  {
    var ps := Positions(s.pts[j..]);
    if j + 1 < |s.pts| {
      assert ps[1..] == Positions(s.pts[j + 1..]);
      assert ps[0] == s.pts[j].p && ps[1] == s.pts[j + 1].p;
    }
  }

  lemma EntryLengthNonNegative(s: Setting, k: nat)
    requires ValidSetting(s)
    ensures EntryLength(s.dashes, s.scale, s.start, k) >= 0.0
    ensures k > 0 ==>
              EntryLength(s.dashes, s.scale, s.start, k) == s.dashes[Wrap(s.start.skipped + k, |s.dashes|)] * s.scale
  {
    hide Wrap, LinearMetric;
    var d := s.dashes[Wrap(s.start.skipped + k, |s.dashes|)];
    ProductNonNegative(d, s.scale);
    if k == 0 {
      ProductNonNegative(d - s.start.into, s.scale);
    }
  }

  lemma ProductNonNegative(x: real, y: real)
    requires x >= 0.0 && y >= 0.0
    ensures x * y >= 0.0
  {
  }

  function FirstPiece(s: Setting): DashPiece
    requires s.dashes != [] && s.pts != []
  {
    DashPiece(s.pts[0], [], [], Wrap(s.start.skipped, |s.dashes|), true)
  }

  /** Before the loop. */
  lemma StartRunning(s: Setting, open: DashPiece)
    requires ValidSetting(s)
    requires open == FirstPiece(s)
    ensures Running(s, [], open, s.pts[0], 0.0, 1)
    ensures Ahead(s, s.pts[0].p, 1) == PathLength(s.dist, Positions(s.pts))
  {
    hide Wrap, LinearMetric;
    EntryLengthNonNegative(s, 0);
    hide EntryLength;
    AheadNext(s, 0);
    assert s.pts[0..] == s.pts;
    assert [] + [open] == [open];
    assert Route(open) == [s.pts[0].p];
    assert AllVertices([]) + [] == s.pts[1..1];
  }

  /** Running on to the next vertex. */
  lemma AdvanceRunning(s: Setting, pieces: seq<DashPiece>, open: DashPiece, cur: PathPoint, totalDist: real, j: nat)
    requires ValidSetting(s) && Running(s, pieces, open, cur, totalDist, j) && j < |s.pts|
    requires totalDist + s.dist(cur.p, s.pts[j].p) <= EntryLength(s.dashes, s.scale, s.start, |pieces|)
    ensures Running(s, pieces, open.(vertices := open.vertices + [s.pts[j]]), s.pts[j],
                    totalDist + s.dist(cur.p, s.pts[j].p), j + 1)
    ensures Ahead(s, cur.p, j) == s.dist(cur.p, s.pts[j].p) + Ahead(s, s.pts[j].p, j + 1)
  {
    assert s.dist(cur.p, s.pts[j].p) >= 0.0;
    hide Wrap, LinearMetric, AllComplete, EntryLength;
    var open' := open.(vertices := open.vertices + [s.pts[j]]);
    AheadNext(s, j);
    RouteSnoc(open, s.pts[j], cur.p);
    PathLengthSnoc(s.dist, Route(open), s.pts[j].p);
    hide Route, PathLength, Positions;
    assert AllVertices(pieces) + open'.vertices == s.pts[1..j] + [s.pts[j]];
    assert InPattern(s.dashes, s.start, pieces + [open'], |pieces|) by {
      if pieces != [] {
        assert (pieces + [open])[|pieces| - 1] == (pieces + [open'])[|pieces| - 1];
      }
    }
  }

  // The fraction t of the segment ahead is where the open piece's entry ends.
  ghost predicate EndsEntry(s: Setting, k: nat, cur: Pt, totalDist: real, j: nat, t: real)
    requires s.dashes != [] && j < |s.pts|
  {
    0.0 <= t <= 1.0 && t * s.dist(cur, s.pts[j].p) == EntryLength(s.dashes, s.scale, s.start, k) - totalDist
  }

  /** Cutting the open piece at the point where its entry ends. */
  lemma CutRunning(s: Setting, pieces: seq<DashPiece>, open: DashPiece, cur: PathPoint, totalDist: real, j: nat,
                   t: real)
    requires ValidSetting(s) && Running(s, pieces, open, cur, totalDist, j) && j < |s.pts|
    requires EndsEntry(s, |pieces|, cur.p, totalDist, j, t)
    ensures var q := Between(cur.p, s.pts[j].p, t);
            var next := DashPiece(PathPoint(q, true), [], [], Succ(open.entry, |s.dashes|), !open.drawn);
            Running(s, pieces + [open.(cut := [q])], next, PathPoint(q, true), 0.0, j) &&
            Ahead(s, q, j)
            == Ahead(s, cur.p, j) - (EntryLength(s.dashes, s.scale, s.start, |pieces|) - totalDist)
  {
    var q := Between(cur.p, s.pts[j].p, t);
    var done := open.(cut := [q]);
    var next := DashPiece(PathPoint(q, true), [], [], Succ(open.entry, |s.dashes|), !open.drawn);
    EntryLengthNonNegative(s, |pieces| + 1);
    CutPlace(s, |pieces|, cur.p, totalDist, j, t);
    CutLengths(s, pieces, open, cur, totalDist, j, q);
    RunningPieces(s, pieces, open, cur, totalDist, j);
    NewPiece(s, next);
    hide Running, LinearMetric, EntryLength, Route, PathLength, Positions, Wrap, AllComplete, AllVertices, TotalLength,
         Between, ValidDashes, Ahead, InPattern, EndsEntry, CutAt, ValidSetting, Succ;
    CutComplete(s, pieces, open, done, next);
    AssembleRunning(s, pieces + [done], next, PathPoint(q, true), 0.0, j);
  }

  lemma NewPiece(s: Setting, next: DashPiece)
    requires next.vertices == [] && next.cut == []
    ensures PathLength(s.dist, Route(next)) == 0.0
  {
    assert Route(next) == [next.start.p];
  }

  /** The invariant, one conjunct at a time. */
  lemma AssembleRunning(s: Setting, pieces: seq<DashPiece>, open: DashPiece, cur: PathPoint, totalDist: real, j: nat)
    requires s.dashes != [] && 1 <= j <= |s.pts| && open.cut == [] && open.vertices == []
    requires AllComplete(s.dist, s.dashes, s.scale, s.start, pieces)
    requires InPattern(s.dashes, s.start, pieces + [open], |pieces|)
    requires cur == open.start && totalDist == PathLength(s.dist, Route(open))
    requires 0.0 <= totalDist <= EntryLength(s.dashes, s.scale, s.start, |pieces|)
    requires AllVertices(pieces) == s.pts[1..j]
    requires TotalLength(s.dist, pieces) + totalDist + Ahead(s, cur.p, j) == PathLength(s.dist, Positions(s.pts))
    requires pieces != [] && pieces[0].start == s.pts[0]
    ensures Running(s, pieces, open, cur, totalDist, j)
  {
    hide LinearMetric, EntryLength, Route, PathLength, Positions, Wrap, AllComplete, AllVertices, TotalLength, Ahead,
         InPattern;
    assert AllVertices(pieces) + open.vertices == AllVertices(pieces);
    assert (pieces + [open])[0] == pieces[0];
  }

  lemma RunningLengths(s: Setting, pieces: seq<DashPiece>, open: DashPiece, cur: PathPoint, totalDist: real, j: nat)
    requires s.dashes != [] && Running(s, pieces, open, cur, totalDist, j)
    ensures totalDist == PathLength(s.dist, Route(open)) && open.cut == []
    ensures cur == ([open.start] + open.vertices)[|open.vertices|]
    ensures TotalLength(s.dist, pieces) + totalDist + Ahead(s, cur.p, j) == PathLength(s.dist, Positions(s.pts))
    ensures 1 <= j <= |s.pts| && AllVertices(pieces) + open.vertices == s.pts[1..j]
  {
    hide LinearMetric, EntryLength, Route, PathLength, Positions, Wrap, AllComplete, AllVertices, TotalLength, Ahead,
         InPattern;
  }

  lemma RunningPieces(s: Setting, pieces: seq<DashPiece>, open: DashPiece, cur: PathPoint, totalDist: real, j: nat)
    requires s.dashes != [] && Running(s, pieces, open, cur, totalDist, j)
    ensures AllComplete(s.dist, s.dashes, s.scale, s.start, pieces)
    ensures InPattern(s.dashes, s.start, pieces + [open], |pieces|)
    ensures (pieces + [open])[0].start == s.pts[0]
  {
    hide LinearMetric, EntryLength, Route, PathLength, Positions, Wrap, AllComplete, AllVertices, TotalLength, Ahead,
         InPattern;
  }

  // q lies on the segment ahead, where the open piece's entry ends.
  ghost predicate CutAt(s: Setting, k: nat, cur: Pt, totalDist: real, j: nat, q: Pt)
    requires s.dashes != [] && j < |s.pts|
  {
    var lead := EntryLength(s.dashes, s.scale, s.start, k) - totalDist;
    s.dist(cur, q) == lead && s.dist(q, s.pts[j].p) == s.dist(cur, s.pts[j].p) - lead
  }

  lemma CutPlace(s: Setting, k: nat, cur: Pt, totalDist: real, j: nat, t: real)
    requires ValidSetting(s) && j < |s.pts| && EndsEntry(s, k, cur, totalDist, j, t)
    ensures CutAt(s, k, cur, totalDist, j, Between(cur, s.pts[j].p, t))
  {
    CutDistances(s.dist, cur, s.pts[j].p, t);
    hide LinearMetric, Between, ValidDashes, EntryLength, Wrap;
  }

  lemma CutLengths(s: Setting, pieces: seq<DashPiece>, open: DashPiece, cur: PathPoint, totalDist: real, j: nat, q: Pt)
    requires s.dashes != [] && Running(s, pieces, open, cur, totalDist, j) && j < |s.pts|
    requires CutAt(s, |pieces|, cur.p, totalDist, j, q)
    ensures var done := open.(cut := [q]);
            PathLength(s.dist, Route(done)) == EntryLength(s.dashes, s.scale, s.start, |pieces|) &&
            TotalLength(s.dist, pieces + [done]) + Ahead(s, q, j) == PathLength(s.dist, Positions(s.pts)) &&
            Ahead(s, q, j) == Ahead(s, cur.p, j) - (EntryLength(s.dashes, s.scale, s.start, |pieces|) - totalDist) &&
            AllVertices(pieces + [done]) == s.pts[1..j]
  {
    hide Running, EntryLength, Wrap, Route, PathLength, Positions, AllVertices, TotalLength, Strokes, Buffered;
    RunningLengths(s, pieces, open, cur, totalDist, j);
    RouteSnoc(open, cur, q);
    PathLengthSnoc(s.dist, Route(open), q);
    PiecesSnoc(s.dist, 0.0, pieces, open.(cut := [q]));
  }

  lemma CutDistances(dist: Metric, a: Pt, b: Pt, t: real)
    requires LinearMetric(dist) && 0.0 <= t <= 1.0
    ensures dist(a, Between(a, b, t)) == t * dist(a, b)
    ensures dist(Between(a, b, t), b) == dist(a, b) - t * dist(a, b)
  {
    var d := dist(a, b);
    assert (1.0 - t) * d == d - t * d;
  }

  lemma CutComplete(s: Setting, pieces: seq<DashPiece>, open: DashPiece, done: DashPiece, next: DashPiece)
    requires s.dashes != [] && AllComplete(s.dist, s.dashes, s.scale, s.start, pieces)
    requires InPattern(s.dashes, s.start, pieces + [open], |pieces|)
    requires |done.cut| == 1 && done == open.(cut := done.cut)
    requires PathLength(s.dist, Route(done)) == EntryLength(s.dashes, s.scale, s.start, |pieces|)
    requires next.start.p == done.cut[0] && next.entry == Succ(open.entry, |s.dashes|) && next.drawn == !open.drawn
    ensures AllComplete(s.dist, s.dashes, s.scale, s.start, pieces + [done])
    ensures InPattern(s.dashes, s.start, pieces + [done] + [next], |pieces| + 1)
  {
    WrapNext(s.start.skipped + |pieces|, |s.dashes|);
    hide Wrap, EntryLength, PathLength, Route, AllComplete;
    assert (pieces + [done])[|pieces|] == done && (pieces + [open])[|pieces|] == open;
    assert InPattern(s.dashes, s.start, pieces + [done], |pieces|) by {
      if pieces != [] {
        assert (pieces + [open])[|pieces| - 1] == (pieces + [done])[|pieces| - 1];
      }
    }
    CompleteSnoc(s.dist, s.dashes, s.scale, s.start, pieces, done);
    var all := pieces + [done] + [next];
    assert all[|pieces| + 1] == next && all[|pieces|] == done;
  }

  function Fraction(num: real, den: real): real
    requires den > 0.0
  {
    num / den
  }

  lemma FractionOf(num: real, den: real)
    requires 0.0 <= num < den
    ensures 0.0 <= Fraction(num, den) <= 1.0 && Fraction(num, den) * den == num
  {
    var x := num / den;
    assert x * den == num;
    FactorOrder(0.0, x, den);
    FactorOrder(x, 1.0, den);
  }

  lemma FractionEnds(s: Setting, k: nat, cur: Pt, totalDist: real, j: nat, t: real)
    requires s.dashes != [] && j < |s.pts|
    requires 0.0 <= EntryLength(s.dashes, s.scale, s.start, k) - totalDist < s.dist(cur, s.pts[j].p)
    requires t == Fraction(EntryLength(s.dashes, s.scale, s.start, k) - totalDist, s.dist(cur, s.pts[j].p))
    ensures EndsEntry(s, k, cur, totalDist, j, t)
  {
    hide EntryLength, Fraction;
    FractionOf(EntryLength(s.dashes, s.scale, s.start, k) - totalDist, s.dist(cur, s.pts[j].p));
  }

  /** A cut lowers the rank and leaves it non-negative, so only finitely many cuts fit into a polyline. */
  lemma CutProgress(s: Setting, pieces: seq<DashPiece>, entry: nat, rest: real, rest': real, p: nat, done: DashPiece)
    requires ValidSetting(s) && p < |s.dashes| && Unit(s.dashes, s.scale, p) > 0.0
    requires entry == Wrap(s.start.skipped + |pieces|, |s.dashes|)
    requires rest' == rest - EntryLength(s.dashes, s.scale, s.start, |pieces|) && rest' >= 0.0
    ensures 0 <= Rank(s, pieces + [done], Succ(entry, |s.dashes|), rest', p) < Rank(s, pieces, entry, rest, p)
  {
    var m, n := Unit(s.dashes, s.scale, p), |s.dashes|;
    EntryLengthNonNegative(s, |pieces|);
    if pieces != [] && entry == p {
      NextEntryLength(s, pieces, p);
    }
    hide Wrap, EntryLength, Chunks, ValidSetting, RoundTo, Succ, Unit;
    ChunksMonotone(rest, rest', m);
    RoundToBound(entry, p, n);
    RoundToBound(Succ(entry, n), p, n);
    if entry != p {
      RoundToNext(entry, p, n);
    } else if pieces != [] {
      ChunksLess(rest, m);
    }
    RankLower(Chunks(rest', m), Chunks(rest, m), n, RoundTo(Succ(entry, n), p, n), RoundTo(entry, p, n), pieces == []);
  }

  lemma RankLower(c': int, c: int, n: nat, r': nat, r: nat, first: bool)
    requires 0 <= c' <= c && r < n && r' < n
    requires if r == 0 then first || c' == c - 1 else r' == r - 1
    ensures 0 <= c' * n + r' < c * n + r + (if first then n else 0)
  {
    TimesMonotone(c', c, n);
    if r == 0 && !first {
      TimesLess(c, n);
    }
  }

  lemma RoundToBound(i: nat, p: nat, n: nat)
    requires i < n && p < n
    ensures RoundTo(i, p, n) < n
    ensures RoundTo(i, p, n) == 0 <==> i == p
  {
  }

  lemma TimesMonotone(a: int, b: int, n: nat)
    requires 0 <= a <= b
    ensures 0 <= a * n <= b * n
  {
  }

  lemma TimesLess(a: int, n: nat)
    ensures (a - 1) * n == a * n - n
  {
  }

  lemma {:induction false} PathLengthNonNegative(dist: Metric, ps: seq<Pt>)
    requires LinearMetric(dist)
    ensures PathLength(dist, ps) >= 0.0
  {
    if |ps| >= 2 {
      PathLengthNonNegative(dist, ps[1..]);
      assert dist(ps[0], ps[1]) >= 0.0;
    }
  }

  lemma AheadNonNegative(s: Setting, cur: Pt, j: nat)
    requires ValidSetting(s)
    ensures Ahead(s, cur, j) >= 0.0
  {
    if j < |s.pts| {
      PathLengthNonNegative(s.dist, Positions(s.pts[j..]));
      assert s.dist(cur, s.pts[j].p) >= 0.0;
    }
  }

  /** What the dashed polyline has to be: all pieces but the last complete, the last no longer than its entry, and
      together exactly the polyline, vertex by vertex and in length. */
  ghost predicate Partition(s: Setting, pieces: seq<DashPiece>)
    requires s.dashes != [] && s.pts != []
  {
    pieces != [] &&
    var n := |pieces| - 1;
    AllComplete(s.dist, s.dashes, s.scale, s.start, pieces[..n]) && InPattern(s.dashes, s.start, pieces, n) &&
    pieces[n].cut == [] && PathLength(s.dist, Route(pieces[n])) <= EntryLength(s.dashes, s.scale, s.start, n) &&
    AllVertices(pieces) == s.pts[1..] && pieces[0].start == s.pts[0] &&
    TotalLength(s.dist, pieces) == PathLength(s.dist, Positions(s.pts))
  }

  lemma RunningEnds(s: Setting, distTol: real, pieces: seq<DashPiece>, open: DashPiece, cur: PathPoint, totalDist: real)
    requires s.dashes != [] && s.pts != [] && Running(s, pieces, open, cur, totalDist, |s.pts|)
    ensures Partition(s, pieces + [open])
  {
    hide AllComplete, InPattern, EntryLength, Route, PathLength, Positions;
    PiecesSnoc(s.dist, distTol, pieces, open);
    assert (pieces + [open])[..|pieces|] == pieces;
    assert s.pts[1..|s.pts|] == s.pts[1..];
  }

  // What every cut lowers: how many times the reference entry p fits into the length from the piece's start on, and
  // how far round the pattern that entry is; one full round more while the first piece is open.
  ghost function Rank(s: Setting, pieces: seq<DashPiece>, idash: nat, rest: real, p: nat): int
    requires p < |s.dashes| && Unit(s.dashes, s.scale, p) > 0.0 && idash < |s.dashes|
  {
    var n := |s.dashes|;
    Chunks(rest, Unit(s.dashes, s.scale, p)) * n + RoundTo(idash, p, n) + (if pieces == [] then n else 0)
  }

  lemma RunningFacts(s: Setting, pieces: seq<DashPiece>, open: DashPiece, cur: PathPoint, totalDist: real, j: nat)
    requires s.dashes != [] && Running(s, pieces, open, cur, totalDist, j)
    ensures 1 <= j <= |s.pts| && open.cut == []
    ensures 0.0 <= totalDist <= EntryLength(s.dashes, s.scale, s.start, |pieces|)
    ensures open.entry == Wrap(s.start.skipped + |pieces|, |s.dashes|)
    ensures open.drawn == (|pieces| % 2 == 0)
  {
    hide LinearMetric, EntryLength, Route, PathLength, Positions, Wrap, AllComplete, AllVertices, TotalLength, Ahead;
    assert (pieces + [open])[|pieces|] == open;
  }

  lemma CutEmits(distTol: real, pieces: seq<DashPiece>, open: DashPiece, q: Pt)
    requires open.cut == []
    ensures var b := Appended([open.start] + open.vertices, PathPoint(q, true), distTol);
            Strokes(pieces + [open.(cut := [q])], distTol)
            == Strokes(pieces, distTol) + if |b| > 1 && open.drawn then [b] else []
  {
    hide Appended, Strokes, Buffered;
    var done := open.(cut := [q]);
    PiecesSnoc((a, b) => 0.0, distTol, pieces, done);
    BufferedIs(done, Appended([open.start] + open.vertices, PathPoint(q, true), distTol), distTol);
  }

  /** Everything one cut does: the invariant, the emitted buffer, the next entry's length, and progress. */
  lemma CutTurn(s: Setting, pieces: seq<DashPiece>, open: DashPiece, cur: PathPoint, totalDist: real, j: nat,
                t: real, p: nat)
    requires ValidSetting(s) && Running(s, pieces, open, cur, totalDist, j) && j < |s.pts|
    requires EntryLength(s.dashes, s.scale, s.start, |pieces|) < totalDist + s.dist(cur.p, s.pts[j].p)
    requires s.dist(cur.p, s.pts[j].p) > 0.0
    requires t == Fraction(EntryLength(s.dashes, s.scale, s.start, |pieces|) - totalDist, s.dist(cur.p, s.pts[j].p))
    requires p < |s.dashes| && Unit(s.dashes, s.scale, p) > 0.0
    ensures open.entry < |s.dashes|
    ensures var q := Between(cur.p, s.pts[j].p, t);
            var done, entry := open.(cut := [q]), Succ(open.entry, |s.dashes|);
            Running(s, pieces + [done], DashPiece(PathPoint(q, true), [], [], entry, !open.drawn), PathPoint(q, true),
                    0.0, j) &&
            Unit(s.dashes, s.scale, entry) == EntryLength(s.dashes, s.scale, s.start, |pieces| + 1) &&
            0 <= Rank(s, pieces + [done], entry, 0.0 + Ahead(s, q, j), p)
              < Rank(s, pieces, open.entry, totalDist + Ahead(s, cur.p, j), p)
  {
    var q := Between(cur.p, s.pts[j].p, t);
    var done := open.(cut := [q]);
    hide ValidSetting, Running, Wrap, Between, Ahead, EntryLength, Rank, Unit, EndsEntry, Succ;
    RunningFacts(s, pieces, open, cur, totalDist, j);
    FractionEnds(s, |pieces|, cur.p, totalDist, j, t);
    CutRunning(s, pieces, open, cur, totalDist, j, t);
    AheadNonNegative(s, q, j);
    CutProgress(s, pieces, open.entry, totalDist + Ahead(s, cur.p, j), Ahead(s, q, j), p, done);
    WrapNext(s.start.skipped + |pieces|, |s.dashes|);
    NextEntryLength(s, pieces + [done], Succ(open.entry, |s.dashes|));
  }

  lemma ProductPositive(x: real, y: real)
    requires x > 0.0 && y > 0.0
    ensures x * y > 0.0
  {
  }

  lemma BufferedIs(p: DashPiece, points: seq<PathPoint>, distTol: real)
    requires |p.cut| == 1 && points == Appended([p.start] + p.vertices, PathPoint(p.cut[0], true), distTol)
    ensures Buffered(p, distTol) == points
  {
  }

  lemma BufferedOpen(p: DashPiece, distTol: real)
    requires p.cut == []
    ensures Buffered(p, distTol) == [p.start] + p.vertices
  {
  }

  lemma NextEntryLength(s: Setting, pieces: seq<DashPiece>, idash: nat)
    requires ValidSetting(s) && pieces != [] && idash == Wrap(s.start.skipped + |pieces|, |s.dashes|)
    ensures EntryLength(s.dashes, s.scale, s.start, |pieces|) == Unit(s.dashes, s.scale, idash)
  {
    hide Wrap;
  }

  // An entry of positive length, to measure progress by.
  ghost function Reference(s: Setting): (p: nat)
    requires ValidSetting(s)
    ensures p < |s.dashes| && Unit(s.dashes, s.scale, p) > 0.0
  {
    var p :| 0 <= p < |s.dashes| && s.dashes[p] > 0.0;
    ProductPositive(s.dashes[p], s.scale);
    p
  }

  // ----- the pieces of a polyline -----

  // Rank of a state of the loop.
  ghost function RankOf(s: Setting, pieces: seq<DashPiece>, entry: nat, rest: real): int
    requires ValidSetting(s)
  {
    if entry < |s.dashes| then Rank(s, pieces, entry, rest, Reference(s)) else 0
  }

  // Where the open piece is cut when its entry ends within the segment ahead.
  ghost function CutPoint(s: Setting, k: nat, cur: Pt, totalDist: real, j: nat): Pt
    requires s.dashes != [] && j < |s.pts| && s.dist(cur, s.pts[j].p) > 0.0
  {
    Between(cur, s.pts[j].p,
            Fraction(EntryLength(s.dashes, s.scale, s.start, k) - totalDist, s.dist(cur, s.pts[j].p)))
  }

  function PieceAfter(s: Setting, open: DashPiece, q: Pt): DashPiece
    requires open.entry < |s.dashes|
  {
    DashPiece(PathPoint(q, true), [], [], Succ(open.entry, |s.dashes|), !open.drawn)
  }

  lemma CutStep(s: Setting, pieces: seq<DashPiece>, open: DashPiece, cur: PathPoint, totalDist: real, j: nat)
    requires ValidSetting(s) && Running(s, pieces, open, cur, totalDist, j) && j < |s.pts|
    requires totalDist + s.dist(cur.p, s.pts[j].p) > EntryLength(s.dashes, s.scale, s.start, |pieces|)
    ensures open.entry < |s.dashes| && s.dist(cur.p, s.pts[j].p) > 0.0
    ensures var q := CutPoint(s, |pieces|, cur.p, totalDist, j);
            var done, next := open.(cut := [q]), PieceAfter(s, open, q);
            Running(s, pieces + [done], next, PathPoint(q, true), 0.0, j) &&
            Unit(s.dashes, s.scale, next.entry) == EntryLength(s.dashes, s.scale, s.start, |pieces| + 1) &&
            0 <= RankOf(s, pieces + [done], next.entry, 0.0 + Ahead(s, q, j))
              < RankOf(s, pieces, open.entry, totalDist + Ahead(s, cur.p, j))
  {
    hide Running, Wrap, Between, Ahead, EntryLength, Rank, Unit, Fraction, LinearMetric, ValidDashes, PathLength, Succ;
    RunningFacts(s, pieces, open, cur, totalDist, j);
    assert s.dashes != [];
    hide ValidSetting;
    var t := Fraction(EntryLength(s.dashes, s.scale, s.start, |pieces|) - totalDist, s.dist(cur.p, s.pts[j].p));
    CutTurn(s, pieces, open, cur, totalDist, j, t, Reference(s));
  }

  lemma AdvanceStep(s: Setting, pieces: seq<DashPiece>, open: DashPiece, cur: PathPoint, totalDist: real, j: nat)
    requires ValidSetting(s) && Running(s, pieces, open, cur, totalDist, j) && j < |s.pts|
    requires totalDist + s.dist(cur.p, s.pts[j].p) <= EntryLength(s.dashes, s.scale, s.start, |pieces|)
    ensures var d := s.dist(cur.p, s.pts[j].p);
            Running(s, pieces, open.(vertices := open.vertices + [s.pts[j]]), s.pts[j], totalDist + d, j + 1) &&
            RankOf(s, pieces, open.entry, totalDist + d + Ahead(s, s.pts[j].p, j + 1))
            == RankOf(s, pieces, open.entry, totalDist + Ahead(s, cur.p, j))
  {
    hide ValidSetting, Running, Ahead, EntryLength, Rank;
    AdvanceRunning(s, pieces, open, cur, totalDist, j);
  }

  /** The pieces of the whole polyline, read off from where the loop stands. */
  ghost function PiecesFrom(s: Setting, pieces: seq<DashPiece>, open: DashPiece, cur: PathPoint, totalDist: real,
                            j: nat): (r: seq<DashPiece>)
    requires ValidSetting(s) && Running(s, pieces, open, cur, totalDist, j)
    ensures Partition(s, r)
    decreases RankOf(s, pieces, open.entry, totalDist + Ahead(s, cur.p, j)), |s.pts| - j
  {
    hide Running, Partition, EntryLength, RankOf, CutPoint, PieceAfter, Ahead, LinearMetric, ValidDashes, Wrap, Unit;
    RunningFacts(s, pieces, open, cur, totalDist, j);
    hide ValidSetting;
    if j == |s.pts| then
      RunningEnds(s, 0.0, pieces, open, cur, totalDist);
      pieces + [open]
    else if totalDist + s.dist(cur.p, s.pts[j].p) > EntryLength(s.dashes, s.scale, s.start, |pieces|) then
      CutStep(s, pieces, open, cur, totalDist, j);
      var q := CutPoint(s, |pieces|, cur.p, totalDist, j);
      PiecesFrom(s, pieces + [open.(cut := [q])], PieceAfter(s, open, q), PathPoint(q, true), 0.0, j)
    else
      AdvanceStep(s, pieces, open, cur, totalDist, j);
      PiecesFrom(s, pieces, open.(vertices := open.vertices + [s.pts[j]]), s.pts[j],
                 totalDist + s.dist(cur.p, s.pts[j].p), j + 1)
  }

  /** The pieces a polyline is cut into. */
  ghost function DashPieces(s: Setting): (r: seq<DashPiece>)
    requires ValidSetting(s)
    ensures Partition(s, r)
  {
    hide Running, Partition, PiecesFrom;
    StartRunning(s, FirstPiece(s));
    PiecesFrom(s, [], FirstPiece(s), s.pts[0], 0.0, 1)
  }

  /** The loop's variables: the current point, the buffer, the length run and the length allowed, and the pattern. */
  datatype Cursor = Cursor(cur: PathPoint, points: seq<PathPoint>, totalDist: real, dashLen: real, idash: nat,
                           dashState: bool, j: nat)

  ghost predicate LoopInv(s: Setting, distTol: real, pieces: seq<DashPiece>, open: DashPiece, c: Cursor,
                          strokes: seq<seq<PathPoint>>)
    requires ValidSetting(s)
  {
    Running(s, pieces, open, c.cur, c.totalDist, c.j) &&
    PiecesFrom(s, pieces, open, c.cur, c.totalDist, c.j) == DashPieces(s) &&
    open.entry == c.idash && open.drawn == c.dashState && c.points == [open.start] + open.vertices &&
    c.dashLen == EntryLength(s.dashes, s.scale, s.start, |pieces|) && strokes == Strokes(pieces, distTol)
  }

  ghost function LoopRank(s: Setting, pieces: seq<DashPiece>, c: Cursor): int
    requires ValidSetting(s)
  {
    RankOf(s, pieces, c.idash, c.totalDist + Ahead(s, c.cur.p, c.j))
  }

  lemma LoopFacts(s: Setting, distTol: real, pieces: seq<DashPiece>, open: DashPiece, c: Cursor,
                  strokes: seq<seq<PathPoint>>)
    requires ValidSetting(s) && LoopInv(s, distTol, pieces, open, c, strokes)
    ensures c.idash < |s.dashes| && 1 <= c.j <= |s.pts| && c.totalDist <= c.dashLen
  {
    hide Running, EntryLength, Strokes, PiecesFrom, DashPieces, LinearMetric, ValidDashes, Wrap;
    RunningFacts(s, pieces, open, c.cur, c.totalDist, c.j);
  }

  function CutCursor(s: Setting, c: Cursor, q: Pt): Cursor
    requires c.idash < |s.dashes|
  {
    var idash := Succ(c.idash, |s.dashes|);
    Cursor(PathPoint(q, true), [PathPoint(q, true)], 0.0, Unit(s.dashes, s.scale, idash), idash, !c.dashState, c.j)
  }

  lemma CutKeeps(s: Setting, distTol: real, pieces: seq<DashPiece>, open: DashPiece, c: Cursor,
                 strokes: seq<seq<PathPoint>>)
    requires ValidSetting(s) && LoopInv(s, distTol, pieces, open, c, strokes) && c.j < |s.pts|
    requires c.totalDist + s.dist(c.cur.p, s.pts[c.j].p) > c.dashLen && s.dist(c.cur.p, s.pts[c.j].p) > 0.0
    requires c.idash < |s.dashes|
    ensures var q := CutPoint(s, |pieces|, c.cur.p, c.totalDist, c.j);
            var c' := CutCursor(s, c, q);
            var points := Appended(c.points, PathPoint(q, true), distTol);
            var pieces' := pieces + [open.(cut := [q])];
            LoopInv(s, distTol, pieces', PieceAfter(s, open, q), c',
                    if |points| > 1 && c.dashState then strokes + [points] else strokes) &&
            0 <= LoopRank(s, pieces', c') < LoopRank(s, pieces, c)
  {
    hide ValidSetting, Running, EntryLength, Strokes, Ahead, CutPoint, RankOf, Unit, Succ, Appended, DashPieces,
         PiecesFrom;
    RunningFacts(s, pieces, open, c.cur, c.totalDist, c.j);
    CutStep(s, pieces, open, c.cur, c.totalDist, c.j);
    PiecesFromCut(s, pieces, open, c.cur, c.totalDist, c.j);
    CutEmits(distTol, pieces, open, CutPoint(s, |pieces|, c.cur.p, c.totalDist, c.j));
  }

  lemma PiecesFromCut(s: Setting, pieces: seq<DashPiece>, open: DashPiece, cur: PathPoint, totalDist: real, j: nat)
    requires ValidSetting(s) && Running(s, pieces, open, cur, totalDist, j) && j < |s.pts|
    requires totalDist + s.dist(cur.p, s.pts[j].p) > EntryLength(s.dashes, s.scale, s.start, |pieces|)
    ensures s.dist(cur.p, s.pts[j].p) > 0.0
    ensures var q := CutPoint(s, |pieces|, cur.p, totalDist, j);
            Running(s, pieces + [open.(cut := [q])], PieceAfter(s, open, q), PathPoint(q, true), 0.0, j) &&
            PiecesFrom(s, pieces, open, cur, totalDist, j)
            == PiecesFrom(s, pieces + [open.(cut := [q])], PieceAfter(s, open, q), PathPoint(q, true), 0.0, j)
  {
    hide ValidSetting, Running, EntryLength, Ahead, CutPoint, RankOf, Unit, Partition, PieceAfter;
    CutStep(s, pieces, open, cur, totalDist, j);
  }

  lemma PiecesFromAdvance(s: Setting, pieces: seq<DashPiece>, open: DashPiece, cur: PathPoint, totalDist: real, j: nat)
    requires ValidSetting(s) && Running(s, pieces, open, cur, totalDist, j) && j < |s.pts|
    requires totalDist + s.dist(cur.p, s.pts[j].p) <= EntryLength(s.dashes, s.scale, s.start, |pieces|)
    ensures var open', d := open.(vertices := open.vertices + [s.pts[j]]), s.dist(cur.p, s.pts[j].p);
            Running(s, pieces, open', s.pts[j], totalDist + d, j + 1) &&
            PiecesFrom(s, pieces, open, cur, totalDist, j)
            == PiecesFrom(s, pieces, open', s.pts[j], totalDist + d, j + 1)
  {
    hide ValidSetting, Running, EntryLength, Ahead, CutPoint, RankOf, Unit, Partition, PieceAfter;
    AdvanceStep(s, pieces, open, cur, totalDist, j);
  }

  lemma PiecesFromEnd(s: Setting, pieces: seq<DashPiece>, open: DashPiece, cur: PathPoint, totalDist: real)
    requires ValidSetting(s) && Running(s, pieces, open, cur, totalDist, |s.pts|)
    ensures PiecesFrom(s, pieces, open, cur, totalDist, |s.pts|) == pieces + [open]
  {
    hide ValidSetting, Running, EntryLength, Ahead, CutPoint, RankOf, Unit, Partition, PieceAfter;
  }

  function NextEntry(idash: nat, n: nat): (r: nat)
    requires idash < n
    ensures r == Succ(idash, n) && r < n
  {
    SuccIsMod(idash, n);
    (idash + 1) % n
  }

  /** The branch that ends a piece inside the segment of length d ahead. */
  method CutHere(distTol: real, dashes: seq<real>, scale: real, c: Cursor, target: Pt, d: real,
                 strokes: seq<seq<PathPoint>>, ghost s: Setting, ghost pieces: seq<DashPiece>, ghost open: DashPiece)
    returns (c': Cursor, strokes': seq<seq<PathPoint>>, ghost pieces': seq<DashPiece>, ghost open': DashPiece)
    requires ValidSetting(s) && s.dashes == dashes && s.scale == scale
    requires LoopInv(s, distTol, pieces, open, c, strokes) && c.j < |s.pts| && target == s.pts[c.j].p
    requires d == s.dist(c.cur.p, target) && c.totalDist + d > c.dashLen && c.idash < |dashes|
    ensures LoopInv(s, distTol, pieces', open', c', strokes') && c'.j == c.j && c'.idash < |dashes|
    ensures 0 <= LoopRank(s, pieces', c') < LoopRank(s, pieces, c)
  {
    LoopFacts(s, distTol, pieces, open, c, strokes);
    CutIsFraction(s, pieces, open, c, distTol, strokes);
    hide ValidSetting, LoopInv, LoopRank, Between, Fraction, Unit, Succ, Appended, NextEntry, CutPoint, PieceAfter;
    var t := Fraction(c.dashLen - c.totalDist, d);
    var q := Between(c.cur.p, target, t);
    CutKeeps(s, distTol, pieces, open, c, strokes);
    var points := Appended(c.points, PathPoint(q, true), distTol);
    strokes' := if |points| > 1 && c.dashState then strokes + [points] else strokes;
    var idash := NextEntry(c.idash, |dashes|);
    c' := Cursor(PathPoint(q, true), [PathPoint(q, true)], 0.0, Unit(dashes, scale, idash), idash, !c.dashState, c.j);
    pieces', open' := pieces + [open.(cut := [q])], PieceAfter(s, open, q);
  }

  lemma CutIsFraction(s: Setting, pieces: seq<DashPiece>, open: DashPiece, c: Cursor, distTol: real,
                      strokes: seq<seq<PathPoint>>)
    requires ValidSetting(s) && LoopInv(s, distTol, pieces, open, c, strokes) && c.j < |s.pts|
    requires s.dist(c.cur.p, s.pts[c.j].p) > 0.0
    ensures CutPoint(s, |pieces|, c.cur.p, c.totalDist, c.j)
         == Between(c.cur.p, s.pts[c.j].p, Fraction(c.dashLen - c.totalDist, s.dist(c.cur.p, s.pts[c.j].p)))
  {
    hide Running, PiecesFrom, DashPieces, EntryLength, Between, Fraction, Strokes, LinearMetric, ValidDashes;
  }

  /** The branch that runs on to the next vertex. */
  method RunOn(distTol: real, c: Cursor, next: PathPoint, d: real, ghost strokes: seq<seq<PathPoint>>,
               ghost s: Setting, ghost pieces: seq<DashPiece>, ghost open: DashPiece)
    returns (c': Cursor, ghost open': DashPiece)
    requires ValidSetting(s) && LoopInv(s, distTol, pieces, open, c, strokes) && c.j < |s.pts| && next == s.pts[c.j]
    requires d == s.dist(c.cur.p, next.p) && c.totalDist + d <= c.dashLen && c.idash < |s.dashes|
    ensures LoopInv(s, distTol, pieces, open', c', strokes) && c'.j == c.j + 1 && c'.idash == c.idash
    ensures LoopRank(s, pieces, c') == LoopRank(s, pieces, c)
  {
    hide ValidSetting, Running, EntryLength, Strokes, Ahead, RankOf, Unit, DashPieces, PiecesFrom;
    AdvanceStep(s, pieces, open, c.cur, c.totalDist, c.j);
    PiecesFromAdvance(s, pieces, open, c.cur, c.totalDist, c.j);
    c' := c.(cur := next, points := c.points + [next], totalDist := c.totalDist + d, j := c.j + 1);
    open' := open.(vertices := open.vertices + [next]);
    assert c'.points == [open'.start] + open'.vertices;
  }

  /** The second loop. */
  method CutUp(dist: Metric, distTol: real, dashes: seq<real>, scale: real, pts: seq<PathPoint>, first: nat,
               firstLen: real, ghost start: Start)
    returns (strokes: seq<seq<PathPoint>>)
    requires ValidSetting(Setting(dist, dashes, scale, start, pts))
    requires first == Wrap(start.skipped, |dashes|) && firstLen == EntryLength(dashes, scale, start, 0)
    ensures strokes == Strokes(DashPieces(Setting(dist, dashes, scale, start, pts)), distTol)
    ensures forall b :: b in strokes ==> |b| > 1
  {
    ghost var s := Setting(dist, dashes, scale, start, pts);
    ghost var open, pieces := FirstPiece(s), [];
    strokes := [];
    StrokesNone(distTol);
    StartRunning(s, open);
    var c := Cursor(pts[0], [pts[0]], 0.0, firstLen, first, true, 1);
    LoopStarts(s, distTol, c);
    hide ValidSetting, LoopInv, LoopRank, DashPieces, Strokes, Unit, Wrap, EntryLength;
    while c.j < |pts|
      invariant LoopInv(s, distTol, pieces, open, c, strokes) && c.idash < |dashes|
      decreases LoopRank(s, pieces, c), |pts| - c.j
    {
      LoopFacts(s, distTol, pieces, open, c, strokes);
      var d := dist(c.cur.p, pts[c.j].p);
      if c.totalDist + d > c.dashLen {
        c, strokes, pieces, open := CutHere(distTol, dashes, scale, c, pts[c.j].p, d, strokes, s, pieces, open);
      } else {
        c, open := RunOn(distTol, c, pts[c.j], d, strokes, s, pieces, open);
      }
    }
    LoopFacts(s, distTol, pieces, open, c, strokes);
    LoopEnds(s, distTol, pieces, open, c, strokes);
    if |c.points| > 1 && c.dashState {
      strokes := strokes + [c.points];
    }
    StrokesHavePoints(DashPieces(s), distTol);
  }

  lemma LoopStarts(s: Setting, distTol: real, c: Cursor)
    requires ValidSetting(s)
    requires c == Cursor(s.pts[0], [s.pts[0]], 0.0, EntryLength(s.dashes, s.scale, s.start, 0),
                         Wrap(s.start.skipped, |s.dashes|), true, 1)
    ensures LoopInv(s, distTol, [], FirstPiece(s), c, [])
  {
    hide Running, PiecesFrom, EntryLength, Wrap, Partition;
    StartRunning(s, FirstPiece(s));
    StrokesNone(distTol);
  }

  lemma LoopEnds(s: Setting, distTol: real, pieces: seq<DashPiece>, open: DashPiece, c: Cursor,
                 strokes: seq<seq<PathPoint>>)
    requires ValidSetting(s) && LoopInv(s, distTol, pieces, open, c, strokes) && c.j == |s.pts|
    ensures Strokes(DashPieces(s), distTol) == strokes + if |c.points| > 1 && c.dashState then [c.points] else []
  {
    hide Running, Strokes, EntryLength, Buffered, PiecesFrom, DashPieces, ValidSetting;
    RunningFacts(s, pieces, open, c.cur, c.totalDist, c.j);
    PiecesFromEnd(s, pieces, open, c.cur, c.totalDist);
    PiecesSnoc(s.dist, distTol, pieces, open);
    BufferedOpen(open, distTol);
  }

  lemma StartLength(s: Setting)
    requires ValidSetting(s)
    ensures (s.dashes[Wrap(s.start.skipped, |s.dashes|)] - s.start.into) * s.scale
         == EntryLength(s.dashes, s.scale, s.start, 0)
  {
    hide Wrap;
  }

  lemma StrokesNone(distTol: real)
    ensures Strokes([], distTol) == []
  {
  }

  /** How a polyline is dashed: the pattern starts where the dashes and the offset say. */
  function DashSetting(dist: Metric, dashes: seq<real>, offset: real, scale: real, pts: seq<PathPoint>): Setting
    requires ValidDashes(dashes)
  {
    Setting(dist, dashes, scale, StartOf(dashes, offset), pts)
  }

  /** Both loops of the dashing of one polyline. `strokes` are the point buffers handed to the stroker. */
  method DashPolyline(dist: Metric, distTol: real, dashes: seq<real>, offset: real, scale: real, pts: seq<PathPoint>)
    returns (strokes: seq<seq<PathPoint>>)
    requires LinearMetric(dist) && ValidDashes(dashes) && scale > 0.0 && pts != []
    ensures ValidSetting(DashSetting(dist, dashes, offset, scale, pts))
    ensures strokes == Strokes(DashPieces(DashSetting(dist, dashes, offset, scale, pts)), distTol)
    ensures forall b :: b in strokes ==> |b| > 1
  {
    var idash, into := FindStart(dashes, offset);
    ghost var s := DashSetting(dist, dashes, offset, scale, pts);
    assert ValidSetting(s);
    var dashLen := (dashes[idash] - into) * scale;
    StartLength(s);
    hide *;
    strokes := CutUp(dist, distTol, dashes, scale, pts, idash, dashLen, s.start);
  }

  // ----- the phase of the first dash -----

  function Period(dashes: seq<real>): real
    requires dashes != []
  {
    Prefix(dashes, PatternCount(dashes))
  }

  /** Where the m-th repetition of the pattern starts. */
  function Repetition(m: int, period: real): real {
    m as real * period
  }

  /** x lies in entry k of the m-th repetition of the pattern. */
  ghost predicate InEntry(dashes: seq<real>, x: real, m: int, k: nat)
    requires dashes != []
  {
    k < PatternCount(dashes) &&
    Repetition(m, Period(dashes)) + Prefix(dashes, k) <= x < Repetition(m, Period(dashes)) + Prefix(dashes, k + 1)
  }

  /** Section 11.4 of SVG 1.1: every other entry is a dash, from the pattern's own start on and for ever in both
      directions. */
  ghost predicate OnAt(dashes: seq<real>, x: real)
    requires dashes != []
  {
    exists m: int, k: nat :: InEntry(dashes, x, m, k) && k % 2 == 0
  }

  lemma EntryIsUnique(dashes: seq<real>, x: real, m: int, k: nat, m': int, k': nat)
    requires ValidDashes(dashes) && InEntry(dashes, x, m, k) && InEntry(dashes, x, m', k')
    ensures m == m' && k == k'
  {
    hide Prefix, PatternCount, Wrap, Repetition;
    PatternLength(dashes);
    EntryWithin(dashes, k);
    EntryWithin(dashes, k');
    RepetitionIsUnique(x, Period(dashes), m, m');
    if k < k' { PrefixMonotone(dashes, k + 1, k'); }
    if k' < k { PrefixMonotone(dashes, k' + 1, k); }
  }

  lemma EntryWithin(dashes: seq<real>, k: nat)
    requires ValidDashes(dashes) && k < PatternCount(dashes)
    ensures 0.0 <= Prefix(dashes, k) && Prefix(dashes, k + 1) <= Period(dashes)
  {
    hide Wrap, PatternCount;
    PrefixMonotone(dashes, 0, k);
    PrefixMonotone(dashes, k + 1, PatternCount(dashes));
  }

  lemma RepetitionIsUnique(x: real, period: real, m: int, m': int)
    requires period > 0.0
    requires Repetition(m, period) <= x < Repetition(m, period) + period
    requires Repetition(m', period) <= x < Repetition(m', period) + period
    ensures m == m'
  {
    hide Repetition;
    RepetitionOrder(m, m', period);
    RepetitionOrder(m', m, period);
  }

  lemma RepetitionOrder(m: int, m': int, period: real)
    requires period > 0.0
    ensures m > m' ==> Repetition(m, period) >= Repetition(m', period) + period
  {
    var d := m as real - m' as real - 1.0;
    assert Repetition(m, period) - Repetition(m', period) - period == d * period;
    assert d >= 0.0 ==> d * period >= 0.0;
  }

  lemma RepetitionAdd(m: int, r: int, period: real)
    ensures Repetition(m + r, period) == Repetition(m, period) + Repetition(r, period)
    ensures Repetition(1, period) == period && Repetition(0, period) == 0.0
  {
  }

  lemma OnAtIff(dashes: seq<real>, x: real, m: int, k: nat)
    requires ValidDashes(dashes) && InEntry(dashes, x, m, k)
    ensures OnAt(dashes, x) <==> k % 2 == 0
  {
    assert dashes != [];
    hide InEntry, ValidDashes;
    if OnAt(dashes, x) {
      var m': int, k': nat :| InEntry(dashes, x, m', k') && k' % 2 == 0;
      EntryIsUnique(dashes, x, m, k, m', k');
    }
  }

  /** The k-th entry from the start is an entry of some repetition of the pattern, with the same parity. */
  lemma {:induction false} EntryInPattern(dashes: seq<real>, k: nat) returns (m: nat, i: nat)
    requires ValidDashes(dashes)
    ensures i < PatternCount(dashes) && i % 2 == k % 2
    ensures Prefix(dashes, k) == Repetition(m, Period(dashes)) + Prefix(dashes, i)
    ensures Prefix(dashes, k + 1) == Repetition(m, Period(dashes)) + Prefix(dashes, i + 1)
  {
    hide Prefix, Repetition, Period;
    var n := PatternCount(dashes);
    assert n > 0 && n % 2 == 0;
    hide ValidDashes, PatternCount;
    if k < n {
      m, i := 0, k;
      RepetitionAdd(0, 0, Period(dashes));
    } else {
      m, i := EntryInPattern(dashes, k - n);
      PrefixRound(dashes, k - n);
      PrefixRound(dashes, k - n + 1);
      RepetitionAdd(m, 1, Period(dashes));
      m := m + 1;
    }
  }

  lemma PrefixRound(dashes: seq<real>, k: nat)
    requires dashes != []
    ensures Prefix(dashes, PatternCount(dashes) + k) == Period(dashes) + Prefix(dashes, k)
  {
    hide Prefix;
    PrefixTwice(dashes, k);
    PrefixTwice(dashes, |dashes| + k);
    PrefixTwice(dashes, |dashes|);
  }

  /** The start differs from the offset by whole repetitions of the pattern. */
  lemma PositionShift(dashes: seq<real>, offset: real) returns (m: int)
    requires dashes != [] && Period(dashes) > 0.0
    ensures offset == PatternPosition(dashes, offset) + Repetition(m, Period(dashes))
  {
    hide Prefix, Truncate;
    var p := Period(dashes);
    var t := Truncate(offset / p);
    m := if Fmod(offset, p) < 0.0 then t - 1 else t;
    FmodIsRepetition(offset, p);
    RepetitionAdd(t, -1, p);
    RepetitionAdd(-1, 1, p);
    hide Repetition, Fmod;
  }

  lemma FmodIsRepetition(x: real, y: real)
    requires y > 0.0
    ensures x == Fmod(x, y) + Repetition(Truncate(x / y), y)
  {
    hide Truncate;
  }

  /** Where in the pattern the k-th piece starts. */
  function PieceStart(s: Setting, k: nat): real
    requires s.dashes != []
  {
    if k == 0 then Prefix(s.dashes, s.start.skipped) + s.start.into else Prefix(s.dashes, s.start.skipped + k)
  }

  // From piece a to piece b along the pattern, scaled.
  function Apart(s: Setting, a: nat, b: nat): real
    requires s.dashes != []
  {
    (PieceStart(s, b) - PieceStart(s, a)) * s.scale
  }

  lemma ApartAdds(s: Setting, a: nat, b: nat, c: nat)
    requires s.dashes != []
    ensures Apart(s, a, b) + Apart(s, b, c) == Apart(s, a, c) && Apart(s, a, a) == 0.0
  {
    hide PieceStart;
  }

  lemma EntryLengthIsStep(s: Setting, k: nat)
    requires s.dashes != []
    ensures EntryLength(s.dashes, s.scale, s.start, k) == Apart(s, k, k + 1)
  {
    hide Wrap;
    assert Prefix(s.dashes, s.start.skipped + k + 1)
        == Prefix(s.dashes, s.start.skipped + k) + s.dashes[Wrap(s.start.skipped + k, |s.dashes|)];
  }

  lemma PieceFacts(s: Setting, pieces: seq<DashPiece>, k: nat)
    requires s.dashes != [] && s.pts != [] && Partition(s, pieces) && k < |pieces|
    ensures pieces[k].drawn == (k % 2 == 0)
    ensures PathLength(s.dist, Route(pieces[k])) <= EntryLength(s.dashes, s.scale, s.start, k)
    ensures k + 1 < |pieces| ==> PathLength(s.dist, Route(pieces[k])) == EntryLength(s.dashes, s.scale, s.start, k)
  {
    hide PathLength, Route, EntryLength, AllVertices, TotalLength, Wrap;
    var n := |pieces| - 1;
    if k < n {
      assert InPattern(s.dashes, s.start, pieces[..n], k);
      assert Complete(s.dist, s.dashes, s.scale, s.start, pieces[..n], k);
    }
  }

  lemma TotalNext(s: Setting, pieces: seq<DashPiece>, k: nat)
    requires k < |pieces|
    ensures TotalLength(s.dist, pieces[..k + 1])
         == TotalLength(s.dist, pieces[..k]) + PathLength(s.dist, Route(pieces[k]))
  {
    hide PathLength, Route;
    assert pieces[..k + 1][..k] == pieces[..k];
  }

  lemma {:induction false} LengthBefore(s: Setting, pieces: seq<DashPiece>, k: nat)
    requires s.dashes != [] && s.pts != [] && Partition(s, pieces) && k < |pieces|
    ensures TotalLength(s.dist, pieces[..k]) == Apart(s, 0, k)
    ensures TotalLength(s.dist, pieces[..k + 1]) <= Apart(s, 0, k + 1)
    ensures k + 1 < |pieces| ==> TotalLength(s.dist, pieces[..k + 1]) == Apart(s, 0, k + 1)
  {
    hide PathLength, Route, EntryLength, Partition, PieceStart, Apart, TotalLength;
    if k > 0 {
      LengthBefore(s, pieces, k - 1);
    } else {
      TotalNone(s.dist, pieces);
    }
    ApartAdds(s, 0, k, k + 1);
    PieceFacts(s, pieces, k);
    EntryLengthIsStep(s, k);
    TotalNext(s, pieces, k);
  }

  lemma TotalNone(dist: Metric, pieces: seq<DashPiece>)
    ensures TotalLength(dist, pieces[..0]) == 0.0
  {
  }

  // y, in the pattern's units, is run through while the k-th piece is.
  ghost predicate RunThrough(s: Setting, pieces: seq<DashPiece>, k: nat, y: real)
    requires k < |pieces|
  {
    TotalLength(s.dist, pieces[..k]) < y * s.scale < TotalLength(s.dist, pieces[..k + 1])
  }

  lemma PieceInEntry(s: Setting, pieces: seq<DashPiece>, offset: real, k: nat, y: real)
    requires ValidSetting(s) && s.start == StartOf(s.dashes, offset) && Partition(s, pieces) && k < |pieces|
    requires RunThrough(s, pieces, k, y)
    ensures var x := PatternPosition(s.dashes, offset) + y;
            Prefix(s.dashes, s.start.skipped + k) <= x < Prefix(s.dashes, s.start.skipped + k + 1)
  {
    hide StartOf, Partition, TotalLength, PatternPosition, Prefix, LinearMetric, ValidDashes, PatternCount, Wrap;
    LengthBefore(s, pieces, k);
    ScaledOrder(PieceStart(s, k) - PieceStart(s, 0), y, s.scale);
    ScaledOrder(y, PieceStart(s, k + 1) - PieceStart(s, 0), s.scale);
  }

  lemma ScaledOrder(a: real, b: real, scale: real)
    requires scale > 0.0 && a * scale < b * scale
    ensures a < b
  {
    assert (b - a) * scale > 0.0;
  }

  lemma OnInEntry(dashes: seq<real>, offset: real, y: real, n: nat)
    requires ValidDashes(dashes) && Period(dashes) > 0.0
    requires Prefix(dashes, n) <= PatternPosition(dashes, offset) + y < Prefix(dashes, n + 1)
    ensures OnAt(dashes, offset + y) <==> n % 2 == 0
  {
    assert dashes != [];
    hide ValidDashes, Prefix, PatternCount, PatternPosition, OnAt, Period;
    var r := PositionShift(dashes, offset);
    var m, i := EntryInPattern(dashes, n);
    RepetitionAdd(m, r, Period(dashes));
    hide Repetition;
    OnAtIff(dashes, offset + y, m + r, i);
  }

  /** The loop always begins by drawing, whatever entry it starts in. So a stretch of the polyline is drawn as the
      pattern says, at its distance from the offset, exactly when an even number of entries lies behind the start;
      otherwise every dash is a gap and every gap a dash. */
  lemma PhaseFollowsPatternIff(s: Setting, pieces: seq<DashPiece>, offset: real, k: nat, y: real)
    requires ValidSetting(s) && s.start == StartOf(s.dashes, offset) && Partition(s, pieces) && k < |pieces|
    requires RunThrough(s, pieces, k, y)
    ensures pieces[k].drawn == OnAt(s.dashes, offset + y) <==> StartOf(s.dashes, offset).skipped % 2 == 0
  {
    hide StartOf, Partition, PatternPosition, Prefix, LinearMetric, ValidDashes, PatternCount, RunThrough, OnAt, Wrap;
    PieceInEntry(s, pieces, offset, k, y);
    PieceFacts(s, pieces, k);
    OnInEntry(s.dashes, offset, y, s.start.skipped + k);
  }

  lemma ExampleStart()
    ensures ValidDashes([5.0, 5.0]) && StartOf([5.0, 5.0], 6.0) == Start(1, 1.0)
    ensures !OnAt([5.0, 5.0], 6.0)
  {
    var d := [5.0, 5.0];
    assert d[0] == 5.0 && d[1] == 5.0;
    assert Prefix(d, 1) == 5.0 && Prefix(d, 2) == 10.0;
    assert 6.0 / 10.0 == 0.6;
    assert Fmod(6.0, 10.0) == 6.0;
    assert FirstEntry(d, 6.0, 1) == 1;
    assert InEntry(d, 6.0, 0, 1);
    OnAtIff(d, 6.0, 0, 1);
  }

  /** With dashes of 5 and gaps of 5 an offset of 6 falls into a gap, and whatever the polyline, it starts with a dash.
      */
  lemma PhaseExample(dist: Metric, scale: real, pts: seq<PathPoint>)
    requires LinearMetric(dist) && scale > 0.0 && pts != []
    ensures ValidDashes([5.0, 5.0])
    ensures ValidSetting(DashSetting(dist, [5.0, 5.0], 6.0, scale, pts)) && !OnAt([5.0, 5.0], 6.0)
    ensures DashPieces(DashSetting(dist, [5.0, 5.0], 6.0, scale, pts))[0].drawn
  {
    ExampleStart();
    hide Wrap, OnAt, LinearMetric, Partition;
    var s := DashSetting(dist, [5.0, 5.0], 6.0, scale, pts);
    assert DashPieces(s) != [] by { PiecesExist(s, DashPieces(s)); }
    PieceFacts(s, DashPieces(s), 0);
  }

  lemma PiecesExist(s: Setting, pieces: seq<DashPiece>)
    requires s.dashes != [] && s.pts != [] && Partition(s, pieces)
    ensures pieces != []
  {
  }
}
