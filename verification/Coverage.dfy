/** Coverage of one sub-scanline: nsvg__fillScanline and nsvg__fillActiveEdges (src/External/nanosvg/nanosvgrast.h).

    A span [x0, x1) in fixed point adds to every pixel its share of the span, in units of `maxWeight` per full pixel.
    fillActiveEdges walks the sorted active list and emits the spans where the winding is non-zero, or odd. */
module Coverage {
  import opened Sweep
  import opened ActiveList

  type byte = x: int | 0 <= x < 256

  datatype FillRule = NonZero | EvenOdd

  function Min(a: int, b: int): int {
    if a < b then a else b
  }

  function Max(a: int, b: int): int {
    if a > b then a else b
  }

  /** Fixed-point length of the part of [x0, x1) that lies in pixel p. */
  function Overlap(x0: int, x1: int, p: int): (r: int)
    ensures 0 <= r <= FIX
  {
    Max(0, Min(x1, FIX * (p + 1)) - Max(x0, FIX * p))
  }

  /** What the span [x0, x1) adds to pixel p. */
  function Cover(x0: int, x1: int, p: int, weight: nat): (r: nat)
    ensures r <= weight
  {
    CoverBound(Overlap(x0, x1, p), weight);
    Overlap(x0, x1, p) * weight / FIX
  }

  lemma CoverBound(overlap: int, weight: nat)
    requires 0 <= overlap <= FIX
    ensures 0 <= overlap * weight / FIX <= weight
  {
    assert 0 <= overlap * weight <= FIX * weight;
  }

  lemma FullPixel(weight: nat)
    ensures FIX * weight / FIX == weight
  {
  }

  lemma CoverOutside(x0: int, x1: int, p: int, weight: nat)
    requires x0 <= x1 && (p < x0 / FIX || p > x1 / FIX)
    ensures Cover(x0, x1, p, weight) == 0
  {
    assert Overlap(x0, x1, p) == 0;
  }

  lemma CoverSame(x0: int, x1: int, weight: nat)
    requires x0 <= x1 && x0 / FIX == x1 / FIX
    ensures Cover(x0, x1, x0 / FIX, weight) == (x1 - x0) * weight / FIX
  {
    assert Overlap(x0, x1, x0 / FIX) == x1 - x0;
  }

  lemma CoverFirst(x0: int, x1: int, weight: nat)
    requires x0 / FIX < x1 / FIX
    ensures Cover(x0, x1, x0 / FIX, weight) == (FIX - x0 % FIX) * weight / FIX
  {
    assert Overlap(x0, x1, x0 / FIX) == FIX - x0 % FIX;
  }

  lemma CoverLast(x0: int, x1: int, weight: nat)
    requires x0 / FIX < x1 / FIX
    ensures Cover(x0, x1, x1 / FIX, weight) == x1 % FIX * weight / FIX
  {
    assert Overlap(x0, x1, x1 / FIX) == x1 % FIX;
  }

  lemma CoverMiddle(x0: int, x1: int, p: int, weight: nat)
    requires x0 / FIX < p < x1 / FIX
    ensures Cover(x0, x1, p, weight) == weight
  {
    assert Overlap(x0, x1, p) == FIX;
    FullPixel(weight);
  }

  /** Adds one span to the scanline, clipped to [0, len), and widens the pixel range that was touched. */
  method FillScanline(scanline: array<byte>, len: nat, x0: int, x1: int, maxWeight: nat, xmin: int, xmax: int)
    returns (newMin: int, newMax: int)
    requires len <= scanline.Length && x0 <= x1
    requires forall p :: 0 <= p < len ==> scanline[p] + Cover(x0, x1, p, maxWeight) <= 255
    modifies scanline
    ensures forall p :: 0 <= p < len ==> scanline[p] == old(scanline[p]) + Cover(x0, x1, p, maxWeight)
    ensures forall p :: len <= p < scanline.Length ==> scanline[p] == old(scanline[p])
    ensures newMin <= xmin && newMax >= xmax
    ensures forall p :: Cover(x0, x1, p, maxWeight) > 0 ==> newMin <= p <= newMax
  {
    hide Cover;
    var i, j := x0 / FIX, x1 / FIX;
    newMin, newMax := if i < xmin then i else xmin, if j > xmax then j else xmax;
    forall p | p < i || p > j ensures Cover(x0, x1, p, maxWeight) == 0 {
      CoverOutside(x0, x1, p, maxWeight);
    }
    if i < len && j >= 0 {
      if i == j {
        CoverSame(x0, x1, maxWeight);
        scanline[i] := scanline[i] + (x1 - x0) * maxWeight / FIX;
      } else {
        FillAcross(scanline, len, x0, x1, maxWeight);
      }
    }
  }

  // The branch of FillScanline for a span that reaches over a pixel border.
  method FillAcross(scanline: array<byte>, len: nat, x0: int, x1: int, maxWeight: nat)
    requires len <= scanline.Length && x0 / FIX < x1 / FIX && x0 / FIX < len && x1 / FIX >= 0
    requires forall p :: 0 <= p < len ==> scanline[p] + Cover(x0, x1, p, maxWeight) <= 255
    modifies scanline
    ensures forall p :: 0 <= p < len ==> scanline[p] == old(scanline[p]) + Cover(x0, x1, p, maxWeight)
    ensures forall p :: len <= p < scanline.Length ==> scanline[p] == old(scanline[p])
  {
    hide Cover;
    var first, last := x0 / FIX, x1 / FIX;
    var i, j := first, last;
    forall p | p < i || p > j ensures Cover(x0, x1, p, maxWeight) == 0 {
      CoverOutside(x0, x1, p, maxWeight);
    }
    CoverFirst(x0, x1, maxWeight);
    CoverLast(x0, x1, maxWeight);
    if i >= 0 {
      scanline[i] := scanline[i] + (FIX - x0 % FIX) * maxWeight / FIX;
    } else {
      i := -1;
    }
    if j < len {
      scanline[j] := scanline[j] + x1 % FIX * maxWeight / FIX;
    } else {
      j := len;
    }
    i := i + 1;
    ghost var from := i;
    while i < j
      invariant from <= i <= j
      invariant forall p :: 0 <= p < len && (p < i || p >= j) ==>
                  scanline[p] == old(scanline[p]) + Cover(x0, x1, p, maxWeight)
      invariant forall p :: i <= p < j ==> scanline[p] == old(scanline[p])
      invariant forall p :: len <= p < scanline.Length ==> scanline[p] == old(scanline[p])
    {
      CoverMiddle(x0, x1, i, maxWeight);
      scanline[i] := scanline[i] + maxWeight;
      i := i + 1;
    }
  }

  // ----- spans -----

  /** How the counter of fillActiveEdges changes at an edge. */
  function Turn(rule: FillRule, w: int, dir: int): int {
    if rule == NonZero then w + dir else if w == 0 then 1 else 0
  }

  /** The spans filled from counter w on, when the open span, if any, began at x0. */
  function Spans(rule: FillRule, s: seq<Active>, w: int, x0: int): seq<(int, int)> {
    if s == [] then []
    else
      var w' := Turn(rule, w, s[0].dir);
      if w == 0 then Spans(rule, s[1..], w', s[0].x)
      else if w' == 0 then [(x0, s[0].x)] + Spans(rule, s[1..], 0, x0)
      else Spans(rule, s[1..], w', x0)
  }

  function SpansOf(rule: FillRule, s: seq<Active>): seq<(int, int)> {
    Spans(rule, s, 0, 0)
  }

  function SumCover(spans: seq<(int, int)>, p: int, weight: nat): (r: nat) {
    if spans == [] then 0 else Cover(spans[0].0, spans[0].1, p, weight) + SumCover(spans[1..], p, weight)
  }

  function SumOverlap(spans: seq<(int, int)>, p: int): (r: nat) {
    if spans == [] then 0 else Overlap(spans[0].0, spans[0].1, p) + SumOverlap(spans[1..], p)
  }

  /** Spans from lo on, each starting where the one before ended or later. */
  predicate Ordered(spans: seq<(int, int)>, lo: int) {
    spans != [] ==> lo <= spans[0].0 <= spans[0].1 && Ordered(spans[1..], spans[0].1)
  }

  lemma {:induction false} SpansOrdered(rule: FillRule, s: seq<Active>, w: int, x0: int, lo: int)
    requires Sorted(s) && (s != [] ==> lo <= s[0].x) && (w != 0 ==> lo <= x0) && (w != 0 && s != [] ==> x0 <= s[0].x)
    ensures Ordered(Spans(rule, s, w, x0), lo)
  {
    hide Turn;
    if s != [] {
      var w' := Turn(rule, w, s[0].dir);
      SortedTail(s);
      if w == 0 {
        SpansOrdered(rule, s[1..], w', s[0].x, lo);
      } else if w' == 0 {
        SpansOrdered(rule, s[1..], 0, x0, s[0].x);
        assert ([(x0, s[0].x)] + Spans(rule, s[1..], 0, x0))[1..] == Spans(rule, s[1..], 0, x0);
      } else {
        SpansOrdered(rule, s[1..], w', x0, lo);
      }
    }
  }

  lemma SortedTail(s: seq<Active>)
    requires s != [] && Sorted(s)
    ensures Sorted(s[1..]) && (|s| > 1 ==> s[0].x <= s[1..][0].x)
    ensures forall a :: a in s[1..] ==> s[0].x <= a.x
  {
  }

  lemma {:induction false} OverlapFits(spans: seq<(int, int)>, lo: int, p: int)
    requires Ordered(spans, lo)
    ensures SumOverlap(spans, p) <= Max(0, FIX * (p + 1) - Max(lo, FIX * p))
  {
    if spans != [] {
      OverlapFits(spans[1..], spans[0].1, p);
    }
  }

  lemma {:induction false} CoverBelowOverlap(spans: seq<(int, int)>, p: int, weight: nat)
    ensures FIX * SumCover(spans, p, weight) <= SumOverlap(spans, p) * weight
  {
    hide Overlap;
    if spans != [] {
      CoverBelowOverlap(spans[1..], p, weight);
      var a, b := Overlap(spans[0].0, spans[0].1, p), SumOverlap(spans[1..], p);
      assert (a + b) * weight == a * weight + b * weight;
    }
  }

  lemma OverlapAtMostPixel(spans: seq<(int, int)>, lo: int, p: int)
    requires Ordered(spans, lo)
    ensures SumOverlap(spans, p) <= FIX
  {
    OverlapFits(spans, lo, p);
  }

  lemma MulMonotone(a: nat, b: nat, w: nat)
    requires a <= b
    ensures a * w <= b * w
  {
  }

  /** Ordered spans share a pixel: together they never add more than the weight of one full pixel. */
  lemma SpansFitOnePixel(spans: seq<(int, int)>, lo: int, p: int, weight: nat)
    requires Ordered(spans, lo)
    ensures SumCover(spans, p, weight) <= weight
  {
    hide SumCover, SumOverlap, Ordered, Cover, Overlap;
    OverlapAtMostPixel(spans, lo, p);
    CoverBelowOverlap(spans, p, weight);
    MulMonotone(SumOverlap(spans, p), FIX, weight);
  }

  lemma ActiveSpansFit(rule: FillRule, s: seq<Active>, p: int, weight: nat)
    requires Sorted(s)
    ensures SumCover(SpansOf(rule, s), p, weight) <= weight
  {
    hide Sorted, SumCover, Spans;
    var lo := if s == [] then 0 else s[0].x;
    SpansOrdered(rule, s, 0, 0, lo);
    SpansFitOnePixel(SpansOf(rule, s), lo, p, weight);
  }

  // ----- what the spans mean -----

  predicate InSpans(spans: seq<(int, int)>, x: int) {
    exists i :: 0 <= i < |spans| && spans[i].0 <= x < spans[i].1
  }

  /** Sum of the directions of the active edges at or left of x. */
  function WindingAt(s: seq<Active>, x: int): int {
    if s == [] then 0 else (if s[0].x <= x then s[0].dir else 0) + WindingAt(s[1..], x)
  }

  /** Number of active edges at or left of x. */
  function CountAt(s: seq<Active>, x: int): nat {
    if s == [] then 0 else (if s[0].x <= x then 1 else 0) + CountAt(s[1..], x)
  }

  /** The fill rule, read off the entries of the list. */
  predicate Painted(rule: FillRule, s: seq<Active>, x: int) {
    if rule == NonZero then WindingAt(s, x) != 0 else CountAt(s, x) % 2 == 1
  }

  // The counter after the edges at or left of x.
  function TurnedAt(rule: FillRule, s: seq<Active>, w: int, x: int): int {
    if s == [] then w else TurnedAt(rule, s[1..], if s[0].x <= x then Turn(rule, w, s[0].dir) else w, x)
  }

  lemma {:induction false} TurnedNone(rule: FillRule, s: seq<Active>, w: int, x: int)
    requires forall a :: a in s ==> a.x > x
    ensures TurnedAt(rule, s, w, x) == w
  {
    if s != [] {
      TurnedNone(rule, s[1..], w, x);
    }
  }

  // The counter after all edges.
  function TurnedAll(rule: FillRule, s: seq<Active>, w: int): int {
    if s == [] then w else TurnedAll(rule, s[1..], Turn(rule, w, s[0].dir))
  }

  lemma InSpansCons(a: (int, int), rest: seq<(int, int)>, x: int)
    ensures InSpans([a] + rest, x) <==> a.0 <= x < a.1 || InSpans(rest, x)
  {
    var s := [a] + rest;
    assert s[0] == a;
    if InSpans(rest, x) {
      var i :| 0 <= i < |rest| && rest[i].0 <= x < rest[i].1;
      assert s[i + 1] == rest[i];
    }
    if InSpans(s, x) && !(a.0 <= x < a.1) {
      var i :| 0 <= i < |s| && s[i].0 <= x < s[i].1;
      assert rest[i - 1] == s[i];
    }
  }

  lemma {:induction false} SpanPoints(rule: FillRule, s: seq<Active>, w: int, x0: int, x: int)
    requires Sorted(s) && UnitDirs(s) && (w != 0 && s != [] ==> x0 <= s[0].x) && TurnedAll(rule, s, w) == 0
    ensures InSpans(Spans(rule, s, w, x0), x) <==> (w == 0 || x0 <= x) && TurnedAt(rule, s, w, x) != 0
  {
    hide InSpans;
    if s == [] {
      NoSpans(x);
    } else {
      var a, t := s[0], s[1..];
      var w' := Turn(rule, w, a.dir);
      SortedTail(s);
      if x < a.x {
        TurnedNone(rule, s, w, x);
        TurnedNone(rule, t, w', x);
      }
      hide Sorted;
      if w == 0 {
        SpanPoints(rule, t, w', a.x, x);
      } else if w' == 0 {
        SpanPoints(rule, t, 0, x0, x);
        InSpansCons((x0, a.x), Spans(rule, t, 0, x0), x);
      } else {
        SpanPoints(rule, t, w', x0, x);
      }
    }
  }

  lemma NoSpans(x: int)
    ensures !InSpans([], x)
  {
  }

  lemma {:induction false} TurnedNonZero(s: seq<Active>, w: int, x: int)
    ensures TurnedAt(NonZero, s, w, x) == w + WindingAt(s, x)
  {
    if s != [] {
      TurnedNonZero(s[1..], if s[0].x <= x then w + s[0].dir else w, x);
    }
  }

  lemma {:induction false} TurnedEvenOdd(s: seq<Active>, w: int, x: int)
    requires w == 0 || w == 1
    ensures TurnedAt(EvenOdd, s, w, x) == (w + CountAt(s, x)) % 2
  {
    if s != [] {
      TurnedEvenOdd(s[1..], if s[0].x <= x then 1 - w else w, x);
    }
  }

  lemma {:induction false} TurnedAllNonZero(s: seq<Active>, w: int)
    ensures TurnedAll(NonZero, s, w) == w + DirSum(s)
  {
    if s == [] {
    } else {
      TurnedAllNonZero(s[1..], w + s[0].dir);
      DirSumConcat([s[0]], s[1..]);
      DirSumOne(s[0]);
      assert [s[0]] + s[1..] == s;
    }
  }

  lemma {:induction false} TurnedAllEvenOdd(s: seq<Active>, w: int)
    requires w == 0 || w == 1
    ensures TurnedAll(EvenOdd, s, w) == (w + |s|) % 2
  {
    if s != [] {
      TurnedAllEvenOdd(s[1..], 1 - w);
    }
  }

  lemma {:induction false} DirSumParity(s: seq<Active>)
    requires UnitDirs(s)
    ensures DirSum(s) % 2 == |s| % 2
  {
    if s != [] {
      DirSumParity(s[..|s| - 1]);
    }
  }

  /** Where the directions cancel, as for every closed outline, the painted points are exactly those with non-zero, or
      odd, winding. */
  lemma SpansAreFillRule(rule: FillRule, s: seq<Active>, x: int)
    requires Sorted(s) && UnitDirs(s) && DirSum(s) == 0
    ensures InSpans(SpansOf(rule, s), x) <==> Painted(rule, s, x)
  {
    hide InSpans, Spans, Sorted, UnitDirs, TurnedAt, TurnedAll, WindingAt, CountAt, DirSum;
    TurnedAllNonZero(s, 0);
    TurnedAllEvenOdd(s, 0);
    DirSumParity(s);
    TurnedNonZero(s, 0, x);
    TurnedEvenOdd(s, 0, x);
    match rule
    case NonZero => SpanPoints(rule, s, 0, 0, x);
    case EvenOdd => SpanPoints(rule, s, 0, 0, x);
  }

  // ----- walking the list -----

  /** Whatever the spans still to come add, the total is that of all spans. */
  ghost predicate Conserved(before: seq<byte>, now: seq<byte>, len: nat, rest: seq<(int, int)>, all: seq<(int, int)>,
                            weight: nat)
  {
    len <= |before| == |now| &&
    (forall p :: 0 <= p < len ==> now[p] + SumCover(rest, p, weight) == before[p] + SumCover(all, p, weight)) &&
    (forall p :: len <= p < |now| ==> now[p] == before[p])
  }

  ghost predicate InRange(rest: seq<(int, int)>, all: seq<(int, int)>, weight: nat, xmin: int, xmax: int) {
    forall p :: SumCover(all, p, weight) > 0 ==> xmin <= p <= xmax || SumCover(rest, p, weight) > 0
  }

  lemma SumCoverCons(a: (int, int), rest: seq<(int, int)>, p: int, weight: nat)
    ensures SumCover([a] + rest, p, weight) == Cover(a.0, a.1, p, weight) + SumCover(rest, p, weight)
  {
    hide Cover;
    assert ([a] + rest)[1..] == rest;
  }

  lemma NothingLeft(p: int, weight: nat)
    ensures SumCover([], p, weight) == 0
  {
  }

  lemma Remaining(s: seq<Active>, i: nat)
    requires i < |s| && Sorted(s)
    ensures s[i..] != [] && s[i..][0] == s[i] && s[i..][1..] == s[i + 1..]
    ensures forall j :: i <= j < |s| ==> s[i].x <= s[j].x
  {
  }

  // Fills the span [x0, x1), which is the first of those still to come.
  method FillNext(scanline: array<byte>, len: nat, x0: int, x1: int, maxWeight: nat, xmin: int, xmax: int,
                  ghost before: seq<byte>, ghost rest: seq<(int, int)>, ghost all: seq<(int, int)>)
    returns (newMin: int, newMax: int)
    requires x0 <= x1
    requires Conserved(before, scanline[..], len, [(x0, x1)] + rest, all, maxWeight)
    requires InRange([(x0, x1)] + rest, all, maxWeight, xmin, xmax)
    requires forall p :: 0 <= p < len ==> before[p] + SumCover(all, p, maxWeight) <= 255
    modifies scanline
    ensures Conserved(before, scanline[..], len, rest, all, maxWeight)
    ensures InRange(rest, all, maxWeight, newMin, newMax)
    ensures newMin <= xmin && newMax >= xmax
  {
    hide SumCover, Cover;
    forall p ensures SumCover([(x0, x1)] + rest, p, maxWeight)
                  == Cover(x0, x1, p, maxWeight) + SumCover(rest, p, maxWeight)
    {
      SumCoverCons((x0, x1), rest, p, maxWeight);
    }
    ghost var was := scanline[..];
    assert forall p :: 0 <= p < scanline.Length ==> scanline[p] == was[p];
    newMin, newMax := FillScanline(scanline, len, x0, x1, maxWeight, xmin, xmax);
    assert forall p :: 0 <= p < scanline.Length ==> scanline[..][p] == scanline[p];
  }

  /** nsvg__fillActiveEdges over the linked list. */
  method FillActiveEdges(list: EdgeList, scanline: array<byte>, len: nat, maxWeight: nat, xmin: int, xmax: int,
                         rule: FillRule)
    returns (newMin: int, newMax: int)
    requires list.Valid() && Sorted(list.Contents()) && UnitDirs(list.Contents()) && len <= scanline.Length
    requires forall p :: 0 <= p < len ==>
               scanline[p] + SumCover(SpansOf(rule, list.Contents()), p, maxWeight) <= 255
    modifies scanline
    ensures forall p :: 0 <= p < len ==>
              scanline[p] == old(scanline[p]) + SumCover(SpansOf(rule, list.Contents()), p, maxWeight)
    ensures forall p :: len <= p < scanline.Length ==> scanline[p] == old(scanline[p])
    ensures newMin <= xmin && newMax >= xmax
    ensures forall p :: SumCover(SpansOf(rule, list.Contents()), p, maxWeight) > 0 ==> newMin <= p <= newMax
  {
    ghost var all := SpansOf(rule, list.Contents());
    hide SumCover, Spans;
    forall p ensures SumCover([], p, maxWeight) == 0 { NothingLeft(p, maxWeight); }
    if rule == NonZero {
      newMin, newMax := FillNonZero(list, scanline, len, maxWeight, xmin, xmax, scanline[..]);
    } else {
      newMin, newMax := FillEvenOdd(list, scanline, len, maxWeight, xmin, xmax, scanline[..]);
    }
    assert forall p :: 0 <= p < scanline.Length ==> scanline[..][p] == scanline[p];
    assert forall p :: 0 <= p < scanline.Length ==> old(scanline[..])[p] == old(scanline[p]);
  }

  method FillNonZero(list: EdgeList, scanline: array<byte>, len: nat, maxWeight: nat, xmin: int, xmax: int,
                     ghost before: seq<byte>)
    returns (newMin: int, newMax: int)
    requires list.Valid() && Sorted(list.Contents()) && len <= scanline.Length && before == scanline[..]
    requires forall p :: 0 <= p < len ==> before[p] + SumCover(SpansOf(NonZero, list.Contents()), p, maxWeight) <= 255
    modifies scanline
    ensures var all := SpansOf(NonZero, list.Contents());
            Conserved(before, scanline[..], len, [], all, maxWeight) && InRange([], all, maxWeight, newMin, newMax)
    ensures newMin <= xmin && newMax >= xmax
  {
    hide list.Valid, list.Contents, SumCover, Spans, list.At, Sorted;
    newMin, newMax := xmin, xmax;
    var e, x0, w := list.head, 0, 0;
    ghost var s, i := list.Contents(), 0;
    ghost var all := SpansOf(NonZero, s);
    list.HeadIs();
    SpansEmpty(NonZero, w, x0);
    assert s[0..] == s;
    while e != null
      invariant i <= |s| && list.Valid() && s == list.Contents() && Sorted(s)
      invariant e == (if i < |s| then list.nodes[i] else null)
      invariant w != 0 ==> forall j :: i <= j < |s| ==> x0 <= s[j].x
      invariant Conserved(before, scanline[..], len, Spans(NonZero, s[i..], w, x0), all, maxWeight)
      invariant InRange(Spans(NonZero, s[i..], w, x0), all, maxWeight, newMin, newMax)
      invariant newMin <= xmin && newMax >= xmax
      decreases |s| - i
    {
      list.NodeIs(i);
      Remaining(s, i);
      SpansStep(NonZero, s[i..], w, x0);
      if w == 0 {
        x0, w := e.x, w + e.dir;
      } else {
        var x1 := e.x;
        w := w + e.dir;
        if w == 0 {
          newMin, newMax := FillNext(scanline, len, x0, x1, maxWeight, newMin, newMax, before,
                                     Spans(NonZero, s[i + 1..], 0, x0), all);
        }
      }
      e, i := e.next, i + 1;
    }
    assert s[i..] == [];
    SpansEmpty(NonZero, w, x0);
  }

  method FillEvenOdd(list: EdgeList, scanline: array<byte>, len: nat, maxWeight: nat, xmin: int, xmax: int,
                     ghost before: seq<byte>)
    returns (newMin: int, newMax: int)
    requires list.Valid() && Sorted(list.Contents()) && len <= scanline.Length && before == scanline[..]
    requires forall p :: 0 <= p < len ==> before[p] + SumCover(SpansOf(EvenOdd, list.Contents()), p, maxWeight) <= 255
    modifies scanline
    ensures var all := SpansOf(EvenOdd, list.Contents());
            Conserved(before, scanline[..], len, [], all, maxWeight) && InRange([], all, maxWeight, newMin, newMax)
    ensures newMin <= xmin && newMax >= xmax
  {
    hide list.Valid, list.Contents, SumCover, Spans, list.At, Sorted;
    newMin, newMax := xmin, xmax;
    var e, x0, w := list.head, 0, 0;
    ghost var s, i := list.Contents(), 0;
    ghost var all := SpansOf(EvenOdd, s);
    list.HeadIs();
    assert s[0..] == s;
    while e != null
      invariant i <= |s| && list.Valid() && s == list.Contents() && Sorted(s)
      invariant e == (if i < |s| then list.nodes[i] else null)
      invariant w != 0 ==> forall j :: i <= j < |s| ==> x0 <= s[j].x
      invariant Conserved(before, scanline[..], len, Spans(EvenOdd, s[i..], w, x0), all, maxWeight)
      invariant InRange(Spans(EvenOdd, s[i..], w, x0), all, maxWeight, newMin, newMax)
      invariant newMin <= xmin && newMax >= xmax
      decreases |s| - i
    {
      list.NodeIs(i);
      Remaining(s, i);
      SpansStep(EvenOdd, s[i..], w, x0);
      if w == 0 {
        x0, w := e.x, 1;
      } else {
        var x1 := e.x;
        w := 0;
        newMin, newMax := FillNext(scanline, len, x0, x1, maxWeight, newMin, newMax, before,
                                   Spans(EvenOdd, s[i + 1..], 0, x0), all);
      }
      e, i := e.next, i + 1;
    }
    assert s[i..] == [];
    SpansEmpty(EvenOdd, w, x0);
  }

  lemma SpansEmpty(rule: FillRule, w: int, x0: int)
    ensures Spans(rule, [], w, x0) == []
  {
  }

  lemma SpansStep(rule: FillRule, s: seq<Active>, w: int, x0: int)
    requires s != []
    ensures var w' := Turn(rule, w, s[0].dir);
            Spans(rule, s, w, x0)
            == if w == 0 then Spans(rule, s[1..], w', s[0].x)
               else if w' == 0 then [(x0, s[0].x)] + Spans(rule, s[1..], 0, x0)
               else Spans(rule, s[1..], w', x0)
  {
  }
}
