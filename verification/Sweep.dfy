/** The active-edge sweep of nsvg__rasterizeSortedEdges, on values (src/External/nanosvg/nanosvgrast.h).

    One sub-scanline drops the edges that end, steps the others by their fixed-point slope, sorts the list again and
    inserts the edges that start. `SweptTo` folds that over all sub-scanlines; its invariant is that the list is a
    permutation of exactly the edges crossing the current height, sorted by x, each at the position that stepping since
    its insertion gives. The linked list of ActiveList.dfy refines these functions. */
module Sweep {
  import opened Edges
  import Permutations

  const FIX := 1024

  datatype Active = Active(x: int, dx: int, ey: real, dir: int)

  /** Centre of sub-scanline k. */
  function Scan(k: int): real {
    k as real + 0.5
  }

  // nsvg__roundf: half away from zero.
  function Round(v: real): int {
    if v >= 0.0 then (v + 0.5).Floor else -((0.5 - v).Floor)
  }

  function Slope(e: Edge): real
    requires e.y0 < e.y1
  {
    (e.x1 - e.x0) / (e.y1 - e.y0)
  }

  function StepOf(e: Edge): int
    requires e.y0 < e.y1
  {
    var dxdy := Slope(e);
    if dxdy < 0.0 then -Round(1024.0 * -dxdy) else Round(1024.0 * dxdy)
  }

  // Crossing of a line of slope dxdy through the top of e with sub-scanline k, in fixed point.
  function FixedX(e: Edge, dxdy: real, k: int): real {
    1024.0 * (e.x0 + dxdy * (Scan(k) - e.y0))
  }

  /** nsvg__addActive: the list entry for an edge inserted on sub-scanline k. */
  function Started(e: Edge, k: int): Active
    requires e.y0 < e.y1
  {
    Active(Round(FixedX(e, Slope(e), k)), StepOf(e), e.y1, e.dir)
  }

  // ----- the three list operations -----

  /** Removal and stepping. */
  function Stepped(s: seq<Active>, k: int): seq<Active> {
    if s == [] then []
    else if s[0].ey <= Scan(k) then Stepped(s[1..], k)
    else [s[0].(x := s[0].x + s[0].dx)] + Stepped(s[1..], k)
  }

  predicate Sorted(s: seq<Active>) {
    forall i, j :: 0 <= i < j < |s| ==> s[i].x <= s[j].x
  }

  /** One pass of the re-sorting loop: neighbours out of order are exchanged from front to back. */
  function Bubbled(s: seq<Active>): (r: seq<Active>)
    ensures |r| == |s|
    decreases |s|
  {
    if |s| < 2 then s
    else if s[0].x > s[1].x then [s[1]] + Bubbled([s[0]] + s[2..])
    else [s[0]] + Bubbled(s[1..])
  }

  // How many entries of s lie left of x.
  function Before(s: seq<Active>, x: int): nat {
    if s == [] then 0 else (if s[0].x < x then 1 else 0) + Before(s[1..], x)
  }

  /** Pairs out of order: what each exchange lowers by one. */
  function Inversions(s: seq<Active>): nat {
    if s == [] then 0 else Before(s[1..], s[0].x) + Inversions(s[1..])
  }

  lemma {:induction false} BeforeBubbled(s: seq<Active>, x: int)
    ensures Before(Bubbled(s), x) == Before(s, x)
    decreases |s|
  {
    if |s| >= 2 {
      if s[0].x > s[1].x {
        BeforeBubbled([s[0]] + s[2..], x);
        assert ([s[0]] + s[2..])[1..] == s[2..];
        assert s[1..][1..] == s[2..];
      } else {
        BeforeBubbled(s[1..], x);
      }
    }
  }

  /** A pass that changes the list removes inversions, so the re-sorting loop ends. */
  lemma {:induction false} BubblingLowersInversions(s: seq<Active>)
    ensures Inversions(Bubbled(s)) <= Inversions(s)
    ensures Bubbled(s) != s ==> Inversions(Bubbled(s)) < Inversions(s)
    decreases |s|
  {
    if |s| >= 2 {
      if s[0].x > s[1].x {
        var rest := [s[0]] + s[2..];
        BubblingLowersInversions(rest);
        BeforeBubbled(rest, s[1].x);
        assert Bubbled(s)[1..] == Bubbled(rest);
        assert rest[1..] == s[2..] && s[1..][1..] == s[2..];
      } else {
        BubblingLowersInversions(s[1..]);
        BeforeBubbled(s[1..], s[0].x);
        assert Bubbled(s)[1..] == Bubbled(s[1..]);
        assert s == [s[0]] + s[1..];
      }
    }
  }

  lemma {:induction false} BubblingKeepsEdges(s: seq<Active>)
    ensures multiset(Bubbled(s)) == multiset(s)
    decreases |s|
  {
    if |s| >= 2 {
      if s[0].x > s[1].x {
        var rest := [s[0]] + s[2..];
        BubblingKeepsEdges(rest);
        ExchangedEdges(s, rest, Bubbled(rest));
      } else {
        BubblingKeepsEdges(s[1..]);
        PrependedEdges(s, Bubbled(s[1..]));
      }
    }
  }

  lemma ExchangedEdges(s: seq<Active>, rest: seq<Active>, bubbled: seq<Active>)
    requires |s| >= 2 && rest == [s[0]] + s[2..] && multiset(bubbled) == multiset(rest)
    ensures multiset([s[1]] + bubbled) == multiset(s)
  {
    assert s == [s[0]] + [s[1]] + s[2..];
  }

  lemma PrependedEdges(s: seq<Active>, bubbled: seq<Active>)
    requires s != [] && multiset(bubbled) == multiset(s[1..])
    ensures multiset([s[0]] + bubbled) == multiset(s)
  {
    assert s == [s[0]] + s[1..];
  }

  lemma ExchangeShows(s: seq<Active>)
    requires |s| >= 2
    ensures Bubbled(s) == s ==> s[0].x <= s[1].x
  {
    if s[0].x > s[1].x {
      assert Bubbled(s)[0] == s[1];
    }
  }

  lemma PrependedSorted(s: seq<Active>)
    requires |s| >= 2 && s[0].x <= s[1].x && Sorted(s[1..])
    ensures Sorted(s)
  {
    var rest := s[1..];
    assert forall j :: 0 < j < |s| ==> s[j] == rest[j - 1];
    assert forall j :: 0 < j < |rest| ==> rest[0].x <= rest[j].x;
  }

  /** A pass without exchanges means the list is in order. */
  lemma {:induction false} UnchangedMeansSorted(s: seq<Active>)
    requires Bubbled(s) == s
    ensures Sorted(s)
    decreases |s|
  {
    if |s| >= 2 {
      ExchangeShows(s);
      if s[0].x <= s[1].x {
        assert Bubbled(s)[1..] == Bubbled(s[1..]);
        UnchangedMeansSorted(s[1..]);
        PrependedSorted(s);
      }
    }
  }

  /** The whole re-sorting loop. */
  function Resorted(s: seq<Active>): (r: seq<Active>)
    ensures Sorted(r) && multiset(r) == multiset(s)
    decreases Inversions(s)
  {
    BubblingKeepsEdges(s);
    if Bubbled(s) == s then
      UnchangedMeansSorted(s);
      s
    else
      BubblingLowersInversions(s);
      Resorted(Bubbled(s))
  }

  // Insertion behind the first entry: in front of the first later one that is not left of a.
  function InsertedAfter(s: seq<Active>, a: Active): seq<Active> {
    if s != [] && s[0].x < a.x then [s[0]] + InsertedAfter(s[1..], a) else [a] + s
  }

  function Inserted(s: seq<Active>, a: Active): seq<Active> {
    if s == [] || a.x < s[0].x then [a] + s else [s[0]] + InsertedAfter(s[1..], a)
  }

  lemma PrependSorted(h: Active, t: seq<Active>)
    requires Sorted(t)
    requires forall b :: b in t ==> h.x <= b.x
    ensures Sorted([h] + t)
  {
    var s := [h] + t;
    forall i, j | 0 <= i < j < |s| ensures s[i].x <= s[j].x {
      assert s[j] == t[j - 1];
      assert i > 0 ==> s[i] == t[i - 1];
    }
  }

  lemma {:induction false} InsertedAfterSorted(s: seq<Active>, a: Active)
    requires Sorted(s)
    ensures Sorted(InsertedAfter(s, a)) && multiset(InsertedAfter(s, a)) == multiset(s) + multiset{a}
    ensures forall b :: b in InsertedAfter(s, a) ==> b == a || b in s
  {
    if s != [] && s[0].x < a.x {
      assert s == [s[0]] + s[1..];
      InsertedAfterSorted(s[1..], a);
      PrependSorted(s[0], InsertedAfter(s[1..], a));
    } else {
      PrependSorted(a, s);
    }
  }

  lemma InsertedSorted(s: seq<Active>, a: Active)
    requires Sorted(s)
    ensures Sorted(Inserted(s, a)) && multiset(Inserted(s, a)) == multiset(s) + multiset{a}
  {
    if s == [] || a.x < s[0].x {
      PrependSorted(a, s);
    } else {
      assert s == [s[0]] + s[1..];
      InsertedAfterSorted(s[1..], a);
      PrependSorted(s[0], InsertedAfter(s[1..], a));
    }
  }

  // ----- the sweep -----

  /** The list and the index of the first edge that has not started yet. */
  datatype State = State(active: seq<Active>, next: nat)

  // The list after the insertion loop has looked at edge st.next.
  function AdmittedOne(edges: seq<Edge>, st: State, k: int): (r: State)
    requires ValidEdges(edges) && st.next < |edges|
    ensures r.next == st.next + 1
  {
    var e := edges[st.next];
    State(if e.y1 > Scan(k) then Inserted(st.active, Started(e, k)) else st.active, st.next + 1)
  }

  function Admitted(edges: seq<Edge>, st: State, k: int): (r: State)
    requires ValidEdges(edges) && st.next <= |edges|
    ensures st.next <= r.next <= |edges|
    decreases |edges| - st.next
  {
    if st.next < |edges| && edges[st.next].y0 <= Scan(k) then Admitted(edges, AdmittedOne(edges, st, k), k) else st
  }

  function SubScan(edges: seq<Edge>, st: State, k: int): (r: State)
    requires ValidEdges(edges) && st.next <= |edges|
    ensures st.next <= r.next <= |edges|
  {
    Admitted(edges, State(Resorted(Stepped(st.active, k)), st.next), k)
  }

  /** State after sub-scanlines 0 .. k-1. */
  function SweptTo(edges: seq<Edge>, k: nat): (r: State)
    requires ValidEdges(edges)
    ensures r.next <= |edges|
  {
    if k == 0 then State([], 0) else SubScan(edges, SweptTo(edges, k - 1), k - 1)
  }

  // ----- what the list has to hold -----

  /** The sub-scanline an edge is inserted on. */
  function FirstScan(e: Edge): (k: nat)
    ensures e.y0 <= Scan(k)
    ensures k > 0 ==> e.y0 > Scan(k - 1)
  {
    if e.y0 <= 0.5 then 0 else -((0.5 - e.y0).Floor)
  }

  /** Position after stepping from the insertion up to sub-scanline k. */
  function PositionAt(e: Edge, k: nat): int
    requires e.y0 < e.y1
  {
    if k <= FirstScan(e) then Started(e, FirstScan(e)).x else PositionAt(e, k - 1) + StepOf(e)
  }

  function EntryAt(e: Edge, k: nat): Active
    requires e.y0 < e.y1
  {
    Active(PositionAt(e, k), StepOf(e), e.y1, e.dir)
  }

  /** The entries of the edges among the first n that cross sub-scanline k, in edge order. */
  function Crossing(edges: seq<Edge>, n: nat, k: nat): seq<Active>
    requires ValidEdges(edges) && n <= |edges|
  {
    if n == 0 then []
    else
      Crossing(edges, n - 1, k) + (if Crosses(edges[n - 1], Scan(k)) then [EntryAt(edges[n - 1], k)] else [])
  }

  predicate SortedByTop(edges: seq<Edge>) {
    forall i, j :: 0 <= i < j < |edges| ==> edges[i].y0 <= edges[j].y0
  }

  /** Edges can always be put in that order, as qsort does. */
  lemma {:induction false} SortedOrderExists(edges: seq<Edge>) returns (r: seq<Edge>)
    ensures multiset(r) == multiset(edges) && SortedByTop(r)
  {
    if edges == [] {
      r := [];
    } else {
      var n := |edges| - 1;
      var init := SortedOrderExists(edges[..n]);
      var k := PlaceByTop(init, edges[n].y0);
      r := PutInOrder(init, edges[n], k);
      assert edges == edges[..n] + [edges[n]];
    }
  }

  lemma PutInOrder(init: seq<Edge>, e: Edge, k: nat) returns (r: seq<Edge>)
    requires SortedByTop(init) && k <= |init| && (forall i :: 0 <= i < k ==> init[i].y0 <= e.y0)
    requires forall i :: k <= i < |init| ==> e.y0 <= init[i].y0
    ensures multiset(r) == multiset(init) + multiset{e} && SortedByTop(r)
  {
    var front, rest := init[..k], init[k..];
    assert init == front + rest;
    r := front + [e] + rest;
  }

  lemma {:induction false} PlaceByTop(edges: seq<Edge>, y: real) returns (k: nat)
    requires SortedByTop(edges)
    ensures k <= |edges| && (forall i :: 0 <= i < k ==> edges[i].y0 <= y)
    ensures forall i :: k <= i < |edges| ==> y <= edges[i].y0
  {
    if edges == [] || edges[|edges| - 1].y0 <= y {
      k := |edges|;
    } else {
      k := PlaceByTop(edges[..|edges| - 1], y);
    }
  }

  // The edges before `next` are exactly those that have started by sub-scanline k.
  ghost predicate StartedPrefix(edges: seq<Edge>, next: nat, k: int) {
    next <= |edges| &&
    (forall i :: 0 <= i < next ==> edges[i].y0 <= Scan(k)) &&
    (forall i :: next <= i < |edges| ==> edges[i].y0 > Scan(k))
  }

  lemma {:induction false} SteppedConcat(a: seq<Active>, b: seq<Active>, k: int)
    ensures Stepped(a + b, k) == Stepped(a, k) + Stepped(b, k)
    decreases |a|
  {
    hide Scan;
    if a == [] {
      assert a + b == b;
    } else {
      SteppedConcat(a[1..], b, k);
      assert (a + b)[1..] == a[1..] + b && (a + b)[0] == a[0];
    }
  }

  /** Stepping does not care about the order of the list. */
  lemma {:induction false} SteppedPermutation(a: seq<Active>, b: seq<Active>, k: int)
    requires multiset(a) == multiset(b)
    ensures multiset(Stepped(a, k)) == multiset(Stepped(b, k))
    decreases |a|
  {
    hide Stepped;
    Permutations.SameLength(a, b);
    if a == [] {
      assert b == [];
    } else {
      var l, r := Permutations.TakeLast(a, b);
      var init, last := a[..|a| - 1], a[|a| - 1];
      assert a == init + [last];
      SteppedPermutation(init, l + r, k);
      SteppedConcat(init, [last], k);
      SteppedConcat(l + [last], r, k);
      SteppedConcat(l, [last], k);
      SteppedConcat(l, r, k);
    }
  }

  lemma StartsBy(e: Edge, k: nat)
    requires e.y0 <= Scan(k)
    ensures FirstScan(e) <= k
  {
  }

  lemma SteppedEntry(e: Edge, k: nat)
    requires e.y0 < e.y1 && e.y0 <= Scan(k)
    ensures Stepped(if Crosses(e, Scan(k)) then [EntryAt(e, k)] else [], k + 1)
         == if Crosses(e, Scan(k + 1)) then [EntryAt(e, k + 1)] else []
  {
    if Crosses(e, Scan(k)) {
      StartsBy(e, k);
      var s := [EntryAt(e, k)];
      assert s[1..] == [];
      hide StepOf, Started, FirstScan;
    }
  }

  /** Stepping takes the crossing entries of one sub-scanline to those of the next. */
  lemma {:induction false} CrossingStepped(edges: seq<Edge>, n: nat, k: nat)
    requires ValidEdges(edges) && n <= |edges|
    requires forall i :: 0 <= i < n ==> edges[i].y0 <= Scan(k)
    ensures Stepped(Crossing(edges, n, k), k + 1) == Crossing(edges, n, k + 1)
  {
    hide Stepped, EntryAt, Crosses, Scan;
    if n > 0 {
      CrossingStepped(edges, n - 1, k);
      var e := edges[n - 1];
      SteppedEntry(e, k);
      SteppedConcat(Crossing(edges, n - 1, k), if Crosses(e, Scan(k)) then [EntryAt(e, k)] else [], k + 1);
    } else {
      assert Stepped([], k + 1) == [] by { SteppedNone(k + 1); }
    }
  }

  lemma SteppedNone(k: int)
    ensures Stepped([], k) == []
  {
  }

  /** What the list is after sub-scanline k. */
  ghost predicate ListIsRight(edges: seq<Edge>, st: State, k: nat)
    requires ValidEdges(edges)
  {
    StartedPrefix(edges, st.next, k) && Sorted(st.active) &&
    multiset(st.active) == multiset(Crossing(edges, st.next, k))
  }

  lemma EntryWhenStarted(e: Edge, k: nat)
    requires e.y0 < e.y1 && e.y0 <= Scan(k) && (k > 0 ==> e.y0 > Scan(k - 1))
    ensures EntryAt(e, k) == Started(e, k)
  {
    StartsBy(e, k);
    assert FirstScan(e) == k;
    hide Round, Slope;
  }

  lemma AdmittedOneIsRight(edges: seq<Edge>, st: State, k: nat)
    requires ValidEdges(edges) && st.next < |edges|
    requires Sorted(st.active) && multiset(st.active) == multiset(Crossing(edges, st.next, k))
    requires edges[st.next].y0 <= Scan(k) && (k > 0 ==> edges[st.next].y0 > Scan(k - 1))
    ensures var r := AdmittedOne(edges, st, k);
            Sorted(r.active) && multiset(r.active) == multiset(Crossing(edges, r.next, k))
  {
    hide Inserted, Started, EntryAt, Scan, Sorted, Crossing, FirstScan, Slope;
    var e, scan := edges[st.next], Scan(k);
    assert ValidEdge(e);
    assert Crosses(e, scan) <==> e.y1 > scan;
    hide Crosses, ValidEdges;
    EntryWhenStarted(e, k);
    CrossingNext(edges, st.next, k);
    AdmittedEntry(st.active, Crossing(edges, st.next, k), EntryAt(e, k));
  }

  lemma AdmittedEntry(active: seq<Active>, crossing: seq<Active>, a: Active)
    requires Sorted(active) && multiset(active) == multiset(crossing)
    ensures Sorted(Inserted(active, a)) && multiset(Inserted(active, a)) == multiset(crossing + [a])
  {
    InsertedSorted(active, a);
    hide Inserted, Sorted;
    assert multiset(crossing + [a]) == multiset(crossing) + multiset{a};
  }

  lemma CrossingNext(edges: seq<Edge>, n: nat, k: nat)
    requires ValidEdges(edges) && n < |edges|
    ensures Crossing(edges, n + 1, k) ==
            if Crosses(edges[n], Scan(k)) then Crossing(edges, n, k) + [EntryAt(edges[n], k)] else Crossing(edges, n, k)
  {
    hide Scan, EntryAt, Crosses;
    assert Crossing(edges, n, k) + [] == Crossing(edges, n, k);
  }

  lemma {:induction false} AdmittedIsRight(edges: seq<Edge>, st: State, k: nat)
    requires ValidEdges(edges) && SortedByTop(edges) && st.next <= |edges|
    requires Sorted(st.active) && multiset(st.active) == multiset(Crossing(edges, st.next, k))
    requires forall i :: 0 <= i < st.next ==> edges[i].y0 <= Scan(k)
    requires k > 0 ==> forall i :: st.next <= i < |edges| ==> edges[i].y0 > Scan(k - 1)
    ensures ListIsRight(edges, Admitted(edges, st, k), k)
    decreases |edges| - st.next
  {
    hide AdmittedOne, Crossing, Sorted, Scan;
    if st.next < |edges| && edges[st.next].y0 <= Scan(k) {
      AdmittedOneIsRight(edges, st, k);
      AdmittedIsRight(edges, AdmittedOne(edges, st, k), k);
    }
  }

  lemma SubScanIsRight(edges: seq<Edge>, st: State, k: nat)
    requires ValidEdges(edges) && SortedByTop(edges)
    requires ListIsRight(edges, st, k)
    ensures ListIsRight(edges, SubScan(edges, st, k + 1), k + 1)
  {
    hide Stepped, Crossing, Resorted, Admitted, Sorted;
    assert Scan(k) < Scan(k + 1);
    var stepped := Stepped(st.active, k + 1);
    SteppedPermutation(st.active, Crossing(edges, st.next, k), k + 1);
    CrossingStepped(edges, st.next, k);
    AdmittedIsRight(edges, State(Resorted(stepped), st.next), k + 1);
  }

  /** On every sub-scanline the list is a permutation of the edges that have started and not ended, sorted by x. */
  lemma {:induction false} SweepIsRight(edges: seq<Edge>, k: nat)
    requires ValidEdges(edges) && SortedByTop(edges)
    ensures ListIsRight(edges, SweptTo(edges, k + 1), k)
  {
    hide Admitted, Resorted, ListIsRight;
    if k == 0 {
      SteppedNone(0);
      assert SweptTo(edges, 0) == State([], 0);
      ResortedNone();
      AdmittedIsRight(edges, State([], 0), 0);
    } else {
      SweepIsRight(edges, k - 1);
      SubScanIsRight(edges, SweptTo(edges, k), k - 1);
    }
  }

  lemma ResortedNone()
    ensures Resorted([]) == []
  {
  }

  lemma {:induction false} CrossingPrefix(edges: seq<Edge>, m: nat, n: nat, k: nat)
    requires ValidEdges(edges) && m <= n <= |edges|
    requires forall i :: m <= i < n ==> edges[i].y0 > Scan(k)
    ensures Crossing(edges, n, k) == Crossing(edges, m, k)
    decreases n
  {
    hide EntryAt, Scan;
    if m < n {
      CrossingPrefix(edges, m, n - 1, k);
    }
  }

  /** The active list on sub-scanline k. */
  function ActiveOn(edges: seq<Edge>, k: nat): seq<Active>
    requires ValidEdges(edges)
  {
    SweptTo(edges, k + 1).active
  }

  /** The main statement about the list: exactly the edges with y0 <= Scan(k) < y1, at their stepped positions, in
      order of x. */
  lemma ActiveListIsCrossingEdges(edges: seq<Edge>, k: nat)
    requires ValidEdges(edges) && SortedByTop(edges)
    ensures Sorted(ActiveOn(edges, k))
    ensures multiset(ActiveOn(edges, k)) == multiset(Crossing(edges, |edges|, k))
  {
    hide SweptTo, Crossing, Sorted;
    SweepIsRight(edges, k);
    CrossingPrefix(edges, SweptTo(edges, k + 1).next, |edges|, k);
  }

  // ----- directions -----

  function DirSum(s: seq<Active>): int {
    if s == [] then 0 else DirSum(s[..|s| - 1]) + s[|s| - 1].dir
  }

  lemma {:induction false} DirSumConcat(a: seq<Active>, b: seq<Active>)
    ensures DirSum(a + b) == DirSum(a) + DirSum(b)
  {
    if b == [] {
      assert a + b == a;
    } else {
      DirSumConcat(a, b[..|b| - 1]);
      assert (a + b)[..|a + b| - 1] == a + b[..|b| - 1];
    }
  }

  lemma DirSumOne(a: Active)
    ensures DirSum([a]) == a.dir
  {
    assert [a][..0] == [];
    assert DirSum([a][..0]) == 0;
  }

  lemma {:induction false} DirSumPermutation(a: seq<Active>, b: seq<Active>)
    requires multiset(a) == multiset(b)
    ensures DirSum(a) == DirSum(b)
    decreases |a|
  {
    Permutations.SameLength(a, b);
    if a != [] {
      var l, r := Permutations.TakeLast(a, b);
      DirSumPermutation(a[..|a| - 1], l + r);
      DirSumConcat(l + [a[|a| - 1]], r);
      DirSumConcat(l, [a[|a| - 1]]);
      DirSumConcat(l, r);
      DirSumOne(a[|a| - 1]);
    }
  }

  lemma {:induction false} CrossingDirections(edges: seq<Edge>, n: nat, k: nat)
    requires ValidEdges(edges) && n <= |edges|
    ensures DirSum(Crossing(edges, n, k)) == Winding(edges[..n], Scan(k))
  {
    hide Scan, EntryAt;
    if n > 0 {
      CrossingDirections(edges, n - 1, k);
      assert edges[..n][..n - 1] == edges[..n - 1];
      var e := edges[n - 1];
      if Crosses(e, Scan(k)) {
        EntryDir(e, k);
        DirSumConcat(Crossing(edges, n - 1, k), [EntryAt(e, k)]);
        DirSumOne(EntryAt(e, k));
      } else {
        assert Crossing(edges, n, k) == Crossing(edges, n - 1, k);
      }
    }
  }

  lemma EntryDir(e: Edge, k: nat)
    requires e.y0 < e.y1
    ensures EntryAt(e, k).dir == e.dir
  {
  }

  /** For a closed outline the directions in the active list always cancel: every span that opens is closed. */
  lemma ClosedOutlineCancels(edges: seq<Edge>, k: nat)
    requires ValidEdges(edges) && SortedByTop(edges) && Balanced(edges)
    ensures DirSum(ActiveOn(edges, k)) == 0
  {
    hide Crossing, ActiveOn;
    ActiveListIsCrossingEdges(edges, k);
    DirSumPermutation(ActiveOn(edges, k), Crossing(edges, |edges|, k));
    CrossingDirections(edges, |edges|, k);
    assert edges[..|edges|] == edges;
  }

  predicate UnitDirs(s: seq<Active>) {
    forall i :: 0 <= i < |s| ==> s[i].dir == 1 || s[i].dir == -1
  }

  lemma ActiveUnitDirs(edges: seq<Edge>, k: nat)
    requires ValidEdges(edges) && SortedByTop(edges)
    ensures UnitDirs(ActiveOn(edges, k))
  {
    hide ActiveOn, Crossing;
    ActiveListIsCrossingEdges(edges, k);
    var s := ActiveOn(edges, k);
    forall i | 0 <= i < |s| ensures s[i].dir == 1 || s[i].dir == -1 {
      assert s[i] in multiset(s);
      assert s[i] in multiset(Crossing(edges, |edges|, k));
      CrossingUnit(edges, |edges|, k, s[i]);
    }
  }

  lemma {:induction false} CrossingUnit(edges: seq<Edge>, n: nat, k: nat, a: Active)
    requires ValidEdges(edges) && n <= |edges| && a in Crossing(edges, n, k)
    ensures a.dir == 1 || a.dir == -1
  {
    hide Scan, PositionAt, StepOf;
    if a in Crossing(edges, n - 1, k) {
      CrossingUnit(edges, n - 1, k, a);
    } else {
      assert a == EntryAt(edges[n - 1], k) && ValidEdge(edges[n - 1]);
    }
  }

  // ----- how far stepping drifts -----

  /** The true crossing of the edge with sub-scanline k, in fixed point. */
  function TrueX(e: Edge, k: int): real
    requires e.y0 < e.y1
  {
    FixedX(e, Slope(e), k)
  }

  /** Of two equally near integers rounding picks the one away from zero. */
  lemma RoundTies(v: real)
    ensures v - Round(v) as real == 0.5 ==> v < 0.0
    ensures Round(v) as real - v == 0.5 ==> v > 0.0
    ensures Round(-v) == -Round(v)
  {
  }

  lemma RoundError(v: real)
    ensures -0.5 <= Round(v) as real - v <= 0.5
  {
  }

  lemma StepError(e: Edge)
    requires e.y0 < e.y1
    ensures -0.5 <= StepOf(e) as real - 1024.0 * Slope(e) <= 0.5
  {
    hide Round, Slope;
    RoundError(1024.0 * -Slope(e));
    RoundError(1024.0 * Slope(e));
  }

  lemma TrueStep(e: Edge, k: int)
    requires e.y0 < e.y1
    ensures TrueX(e, k + 1) == TrueX(e, k) + 1024.0 * Slope(e)
  {
    hide Slope;
    var m, d := Slope(e), Scan(k) - e.y0;
    assert m * (d + 1.0) == m * d + m;
  }

  /** An edge stepped j times is within (j + 1) / 2 fixed-point units of its true crossing. */
  lemma {:induction false} SteppingDrift(e: Edge, j: nat)
    requires e.y0 < e.y1
    ensures var k := FirstScan(e) + j;
            -((j as real + 1.0) / 2.0) <= PositionAt(e, k) as real - TrueX(e, k) <= (j as real + 1.0) / 2.0
  {
    hide Round, Slope, StepOf, Scan, FirstScan, TrueX;
    var k := FirstScan(e) + j;
    if j == 0 {
      StartError(e, k);
    } else {
      SteppingDrift(e, j - 1);
      StepError(e);
      TrueStep(e, k - 1);
    }
  }

  lemma StartError(e: Edge, k: nat)
    requires e.y0 < e.y1
    ensures -0.5 <= Started(e, k).x as real - TrueX(e, k) <= 0.5
  {
    RoundError(TrueX(e, k));
  }
}
