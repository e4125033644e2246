/** The linked active-edge list and its freelist (src/External/nanosvg/nanosvgrast.h).

    Nodes are edited in place through the link that points at them. Each method is proved against the function of
    Sweep.dfy with the same job, and keeps every node in exactly one of the two lists. */
module ActiveList {
  import opened Edges
  import opened Sweep
  import Pool

  /** Bytes of a node: four 32-bit fields and a pointer. */
  const NODE_SIZE := 24

  /** A node, at its place in the page pool. */
  class ActiveEdge {
    const block: Pool.Block
    var x: int
    var dx: int
    var ey: real
    var dir: int
    var next: ActiveEdge?

    constructor (block: Pool.Block)
      ensures next == null && this.block == block
    {
      this.block := block;
      x, dx, ey, dir := 0, 0, 0.0, 0;
      next := null;
    }

    function Entry(): Active
      reads this
    {
      Active(x, dx, ey, dir)
    }
  }

  ghost predicate Linked(h: ActiveEdge?, s: seq<ActiveEdge>)
    reads s
  {
    h == (if s == [] then null else s[0]) &&
    forall i {:trigger s[i].next} :: 0 <= i < |s| ==> s[i].next == (if i + 1 < |s| then s[i + 1] else null)
  }

  ghost predicate Distinct(s: seq<ActiveEdge>) {
    forall i, j :: 0 <= i < j < |s| ==> s[i] != s[j]
  }

  ghost predicate Disjoint(s: seq<ActiveEdge>, t: seq<ActiveEdge>) {
    forall n :: n in s ==> n !in t
  }

  ghost function Entries(s: seq<ActiveEdge>): (r: seq<Active>)
    reads s
    ensures |r| == |s|
    ensures forall i :: 0 <= i < |s| ==> r[i] == s[i].Entry()
  {
    seq(|s|, i requires 0 <= i < |s| reads s => s[i].Entry())
  }

  class EdgeList {
    const pool: Pool.MemPool
    var head: ActiveEdge?
    var freelist: ActiveEdge?
    ghost var nodes: seq<ActiveEdge>
    ghost var free: seq<ActiveEdge>
    ghost var Repr: set<ActiveEdge>

    /** Both chains are well formed and no node is in both, or twice in one. */
    ghost predicate Valid()
      reads this, Repr
    {
      (forall n :: n in nodes ==> n in Repr) && (forall n :: n in free ==> n in Repr) &&
      Linked(head, nodes) && Linked(freelist, free) && Distinct(nodes) && Distinct(free) && Disjoint(nodes, free)
    }

    ghost function Contents(): (r: seq<Active>)
      reads this, nodes
      ensures |r| == |nodes|
    {
      Entries(nodes)
    }

    /** z lies in memory the pool has handed out, and apart from all other nodes. */
    ghost predicate OwnPlace(z: ActiveEdge)
      reads this, pool
    {
      z.block in pool.live && forall n :: n in Repr && n != z ==> !Pool.Overlap(n.block, z.block)
    }

    /** The nodes lie in the pool, and none on top of another. */
    ghost predicate InPool()
      reads this, pool
    {
      pool.Valid() && forall z :: z in Repr ==> OwnPlace(z)
    }

    constructor (pool: Pool.MemPool)
      requires pool.Valid()
      ensures Valid() && Contents() == [] && Repr == {} && this.pool == pool && InPool()
    {
      this.pool := pool;
      head, freelist := null, null;
      nodes, free, Repr := [], [], {};
    }

    /** `*step`: the link after prev, or the head when there is none. */
    function At(prev: ActiveEdge?): ActiveEdge?
      reads this, prev
    {
      if prev == null then head else prev.next
    }

    ghost predicate LinkBefore(prev: ActiveEdge?, i: nat)
      reads this
    {
      i <= |nodes| && prev == (if i == 0 then null else nodes[i - 1])
    }

    /** Where a link leads, and what its target holds. */
    lemma AtIs(prev: ActiveEdge?, i: nat)
      requires Valid() && LinkBefore(prev, i)
      ensures At(prev) == if i < |nodes| then nodes[i] else null
      ensures i < |nodes| ==>
                nodes[i] in Repr && Contents()[i] == nodes[i].Entry() && LinkBefore(nodes[i], i + 1) &&
                At(nodes[i]) == nodes[i].next
    {
    }

    lemma HeadIs()
      requires Valid()
      ensures head == (if nodes == [] then null else nodes[0])
    {
    }

    lemma NodeIs(i: nat)
      requires Valid() && i < |nodes|
      ensures nodes[i].next == (if i + 1 < |nodes| then nodes[i + 1] else null)
      ensures Contents()[i] == nodes[i].Entry()
    {
    }

    /** Deletes the i-th node from the list and puts it on the freelist. */
    method Unlink(prev: ActiveEdge?, ghost i: nat)
      requires Valid() && LinkBefore(prev, i) && i < |nodes|
      modifies this, Repr
      ensures Valid() && Repr == old(Repr) && LinkBefore(prev, i)
      ensures nodes == old(nodes[..i] + nodes[i + 1..]) && free == old([nodes[i]] + free)
      ensures Contents() == old(Contents()[..i] + Contents()[i + 1..])
    {
      ghost var was, entries := nodes, Contents();
      var z := CutOut(prev, i);
      FreeActive(z);
      hide Valid;
      EntriesCut(was, i);
      assert Entries(was) == entries;
    }

    // Takes the i-th node out of the list.
    method CutOut(prev: ActiveEdge?, ghost i: nat) returns (z: ActiveEdge)
      requires Valid() && LinkBefore(prev, i) && i < |nodes|
      modifies this, Repr
      ensures Valid() && Repr == old(Repr) && LinkBefore(prev, i) && free == old(free)
      ensures z == old(nodes[i]) && z in Repr && z !in nodes && z !in free
      ensures nodes == old(nodes[..i] + nodes[i + 1..])
      ensures forall n: ActiveEdge :: n in Repr ==> n.Entry() == old(n.Entry())
    {
      hide Distinct, Disjoint;
      SpliceOut(nodes, free, i);
      z := At(prev);
      if prev == null {
        head := z.next;
      } else {
        prev.next := z.next;
      }
      nodes := nodes[..i] + nodes[i + 1..];
    }

    /** nsvg__freeActive. */
    method FreeActive(z: ActiveEdge)
      requires Valid() && z in Repr && z !in nodes && z !in free
      modifies `freelist, `free, z
      ensures Valid() && nodes == old(nodes) && free == [z] + old(free)
      ensures z.Entry() == old(z.Entry())
    {
      assert forall j :: 0 <= j < |nodes| ==> nodes[j] != z;
      assert forall j :: 0 <= j < |free| ==> free[j] != z;
      z.next := freelist;
      freelist := z;
      free := [z] + free;
    }

    /** Steps the i-th node to the next sub-scanline. */
    method Step(z: ActiveEdge, ghost i: nat)
      requires Valid() && i < |nodes| && z == nodes[i]
      modifies z
      ensures Valid() && Repr == old(Repr) && nodes == old(nodes) && free == old(free)
      ensures Contents() == old(Contents()[i := Contents()[i].(x := Contents()[i].x + Contents()[i].dx)])
    {
      hide Disjoint;
      z.x := z.x + z.dx;
      assert forall j :: 0 <= j < |nodes| && j != i ==> nodes[j] != z;
    }

    /** First loop of a sub-scanline: drop the edges that end, step the rest. */
    method StepAndRemove(k: int)
      requires Valid()
      modifies this, Repr
      ensures Valid() && Repr == old(Repr)
      ensures Contents() == Stepped(old(Contents()), k)
    {
      hide Valid, Contents, Stepped, Scan, At;
      var prev: ActiveEdge? := null;
      ghost var i: nat := 0;
      StartOfList();
      SteppedEnds(Contents(), k);
      while At(prev) != null
        invariant Valid() && LinkBefore(prev, i) && Repr == old(Repr)
        invariant Stepped(old(Contents()), k) == Contents()[..i] + Stepped(Contents()[i..], k)
        decreases |nodes| - i
      {
        AtIs(prev, i);
        var z := At(prev);
        if z.ey <= Scan(k) {
          SteppedRemoved(Contents(), i, k);
          Unlink(prev, i);
        } else {
          SteppedKept(Contents(), i, k);
          Step(z, i);
          AtIs(prev, i);
          prev, i := z, i + 1;
        }
      }
      AtIs(prev, i);
      SteppedEnds(Contents(), k);
    }

    lemma StartOfList()
      ensures LinkBefore(null, 0)
    {
    }

    /** Exchanges the i-th node with its successor. */
    method SwapWithNext(prev: ActiveEdge?, ghost i: nat)
      requires Valid() && LinkBefore(prev, i) && i + 1 < |nodes|
      modifies this, Repr
      ensures Valid() && Repr == old(Repr) && LinkBefore(prev, i) && free == old(free)
      ensures nodes == old(nodes[..i] + [nodes[i + 1], nodes[i]] + nodes[i + 2..])
      ensures Contents() == old(Contents()[..i] + [Contents()[i + 1], Contents()[i]] + Contents()[i + 2..])
    {
      ghost var was, entries := nodes, Contents();
      SwapNodes(prev, i);
      hide Valid;
      EntriesExchanged(was, i);
      assert Entries(was) == entries;
    }

    method SwapNodes(prev: ActiveEdge?, ghost i: nat)
      requires Valid() && LinkBefore(prev, i) && i + 1 < |nodes|
      modifies this, Repr
      ensures Valid() && Repr == old(Repr) && LinkBefore(prev, i) && free == old(free)
      ensures nodes == old(nodes[..i] + [nodes[i + 1], nodes[i]] + nodes[i + 2..])
      ensures forall n: ActiveEdge :: n in Repr ==> n.Entry() == old(n.Entry())
    {
      hide Distinct, Disjoint;
      Exchange(nodes, free, i);
      var t := At(prev);
      var q := t.next;
      t.next := q.next;
      q.next := t;
      if prev == null {
        head := q;
      } else {
        prev.next := q;
      }
      nodes := nodes[..i] + [q, t] + nodes[i + 2..];
    }

    /** One pass of the re-sorting loop. */
    method BubblePass() returns (changed: bool)
      requires Valid()
      modifies this, Repr
      ensures Valid() && Repr == old(Repr)
      ensures Contents() == Bubbled(old(Contents()))
      ensures changed <==> Contents() != old(Contents())
    {
      hide Valid, Contents, Bubbled, Inversions, At;
      changed := false;
      var prev: ActiveEdge? := null;
      ghost var i: nat := 0;
      ghost var was := Contents();
      StartOfList();
      BubbledAt(was, 0);
      AtIs(prev, i);
      if i < |nodes| { AtIs(nodes[i], i + 1); }
      while At(prev) != null && At(prev).next != null
        invariant Valid() && LinkBefore(prev, i) && Repr == old(Repr)
        invariant At(prev) == (if i < |nodes| then nodes[i] else null)
        invariant i < |nodes| ==> nodes[i].next == (if i + 1 < |nodes| then nodes[i + 1] else null)
        invariant Bubbled(was) == Contents()[..i] + Bubbled(Contents()[i..])
        invariant if changed then Inversions(Contents()) < Inversions(was) else Contents() == was
        decreases |nodes| - i
      {
        var z := At(prev);
        ghost var now := Contents();
        AtIs(prev, i);
        AtIs(z, i + 1);
        if z.x > z.next.x {
          SwapWithNext(prev, i);
          SwapAt(now, i);
          changed := true;
        }
        BubbledNext(now, Contents(), i);
        AtIs(prev, i);
        prev, i := At(prev), i + 1;
        AtIs(prev, i);
        AtIs(nodes[i], i + 1);
      }
      BubbledAt(Contents(), i);
      AtIs(prev, i);
    }

    /** The re-sorting loop: ends because every pass with an exchange removes inversions. */
    method Resort()
      requires Valid()
      modifies this, Repr
      ensures Valid() && Repr == old(Repr)
      ensures Contents() == Resorted(old(Contents()))
    {
      hide Bubbled, Valid, Contents;
      var changed := true;
      while changed
        invariant Valid() && Repr == old(Repr)
        invariant Resorted(Contents()) == Resorted(old(Contents()))
        invariant !changed ==> Bubbled(Contents()) == Contents()
        decreases Inversions(Contents()), changed
      {
        BubblingLowersInversions(Contents());
        changed := BubblePass();
      }
    }

    /** nsvg__addActive: a node from the freelist if there is one, otherwise a block from the pool, filled in for edge
        e. */
    method AddActive(e: Edge, k: int) returns (z: ActiveEdge)
      requires Valid() && InPool() && ValidEdge(e)
      modifies this, Repr, pool
      ensures Valid() && Repr == old(Repr) && nodes == old(nodes) && Contents() == old(Contents())
      ensures InPool() && OwnPlace(z)
      ensures z !in nodes && z !in free && (z in Repr || fresh(z)) && z.Entry() == Started(e, k)
      ensures old(free) == [] ==> fresh(z) && free == [] && pool.live == old(pool.live) + [z.block]
      ensures old(free) != [] ==> z == old(free)[0] && free == old(free)[1..] && pool.live == old(pool.live)
    {
      z := TakeNode();
      hide Started, Distinct, Disjoint;
      assert forall j :: 0 <= j < |nodes| ==> nodes[j] != z;
      assert forall j :: 0 <= j < |free| ==> free[j] != z;
      Fill(z, e, k);
    }

    // Pops the freelist, or makes a new node.
    method TakeNode() returns (z: ActiveEdge)
      requires Valid() && InPool()
      modifies this, Repr, pool
      ensures Valid() && Repr == old(Repr) && nodes == old(nodes) && Contents() == old(Contents())
      ensures InPool() && OwnPlace(z)
      ensures z !in nodes && z !in free && (z in Repr || fresh(z))
      ensures old(free) == [] ==> fresh(z) && free == [] && pool.live == old(pool.live) + [z.block]
      ensures old(free) != [] ==> z == old(free)[0] && free == old(free)[1..] && pool.live == old(pool.live)
    {
      FreelistIs();
      hide Valid;
      if freelist != null {
        z := PopFree();
        hide Pool.Overlap;
      } else {
        z := NewNode();
      }
    }

    lemma FreelistIs()
      requires Valid()
      ensures freelist == null <==> free == []
      ensures forall n :: n in nodes || n in free ==> n in Repr
    {
    }

    // A node on a block of its own.
    method NewNode() returns (z: ActiveEdge)
      requires InPool()
      modifies pool
      ensures InPool() && OwnPlace(z) && fresh(z) && pool.live == old(pool.live) + [z.block]
    {
      hide pool.Valid;
      var block := pool.Alloc(NODE_SIZE);
      z := new ActiveEdge(block.value);
    }

    method PopFree() returns (z: ActiveEdge)
      requires Valid() && freelist != null
      modifies this, Repr
      ensures Valid() && Repr == old(Repr) && nodes == old(nodes) && Contents() == old(Contents())
      ensures z !in nodes && z !in free && z in Repr
      ensures old(free) != [] && z == old(free)[0] && free == old(free)[1..]
    {
      z := freelist;
      assert z == free[0] && z in free;
      freelist := z.next;
      free := free[1..];
    }

    method Fill(z: ActiveEdge, e: Edge, k: int)
      requires ValidEdge(e)
      modifies z
      ensures z.Entry() == Started(e, k)
    {
      hide Round, Slope, FixedX;
      var dxdy := Slope(e);
      if dxdy < 0.0 {
        z.dx := -Round(1024.0 * -dxdy);
      } else {
        z.dx := Round(1024.0 * dxdy);
      }
      z.x := Round(FixedX(e, dxdy, k));
      z.ey := e.y1;
      z.next := null;
      z.dir := e.dir;
    }

    /** Links z in as the i-th node. */
    method LinkAt(prev: ActiveEdge?, z: ActiveEdge, ghost i: nat)
      requires Valid() && LinkBefore(prev, i) && z !in nodes && z !in free
      requires InPool() && OwnPlace(z)
      modifies this, Repr, z
      ensures Valid() && InPool() && Repr == old(Repr) + {z} && free == old(free)
      ensures nodes == old(nodes[..i] + [z] + nodes[i..])
      ensures Contents() == old(Contents()[..i] + [z.Entry()] + Contents()[i..])
    {
      ghost var was, entries := nodes, Contents();
      LinkNode(prev, z, i);
      hide Valid;
      EntriesInserted(was, z, i);
      assert Entries(was) == entries;
    }

    method LinkNode(prev: ActiveEdge?, z: ActiveEdge, ghost i: nat)
      requires Valid() && LinkBefore(prev, i) && z !in nodes && z !in free
      modifies this, Repr, z
      ensures Valid() && Repr == old(Repr) + {z} && free == old(free)
      ensures nodes == old(nodes[..i] + [z] + nodes[i..])
      ensures forall n: ActiveEdge :: n in Repr ==> n.Entry() == old(n.Entry())
    {
      hide Distinct, Disjoint;
      SpliceIn(nodes, free, z, i);
      z.next := At(prev);
      if prev == null {
        head := z;
      } else {
        prev.next := z;
      }
      nodes, Repr := nodes[..i] + [z] + nodes[i..], Repr + {z};
    }

    /** Inserts the edge e, which starts on sub-scanline k. */
    method Insert(e: Edge, k: int)
      requires Valid() && InPool() && ValidEdge(e)
      modifies this, Repr, pool
      ensures Valid() && InPool() && fresh(Repr - old(Repr))
      ensures Contents() == Inserted(old(Contents()), Started(e, k))
    {
      hide Valid, Contents, Inserted, Started, At, InPool, OwnPlace;
      var z := AddActive(e, k);
      StartOfList();
      AtIs(null, 0);
      EntryFields(z);
      EntryX(null, 0);
      if At(null) == null || z.x < At(null).x {
        InsertedFront(Contents(), Started(e, k));
        LinkAt(null, z, 0);
      } else {
        InsertBehind(z);
      }
    }

    // The search for the place of a node that does not come first.
    method InsertBehind(z: ActiveEdge)
      requires Valid() && InPool() && OwnPlace(z) && z !in nodes && z !in free
      requires nodes != [] && nodes[0].x <= z.x
      modifies this, Repr, z
      ensures Valid() && InPool() && Repr == old(Repr) + {z}
      ensures Contents() == Inserted(old(Contents()), old(z.Entry()))
    {
      hide Valid, Contents, Inserted, InsertedAfter, At, InPool, OwnPlace;
      ghost var was, a := Contents(), z.Entry();
      EntryFields(z);
      StartOfList();
      AtIs(null, 0);
      EntryX(null, 0);
      var p := At(null);
      ghost var i: nat := 0;
      InsertedBehind(was, a);
      AtIs(p, 1);
      while p.next != null && p.next.x < z.x
        invariant Valid() && i < |nodes| && p == nodes[i] && LinkBefore(p, i + 1) && At(p) == p.next
        invariant Inserted(was, a) == was[..i + 1] + InsertedAfter(was[i + 1..], a)
        decreases |nodes| - i
        modifies {}
      {
        AtIs(p, i + 1);
        EntryX(p, i + 1);
        InsertedStep(was, a, i + 1);
        p := p.next;
        i := i + 1;
      }
      AtIs(p, i + 1);
      EntryX(p, i + 1);
      InsertedStop(was, a, i + 1);
      LinkAt(p, z, i + 1);
    }

    lemma EntryX(prev: ActiveEdge?, i: nat)
      requires Valid() && LinkBefore(prev, i)
      ensures |Contents()| == |nodes|
      ensures i < |nodes| ==> Contents()[i].x == nodes[i].x
    {
    }

    lemma EntryFields(z: ActiveEdge)
      ensures z.Entry().x == z.x
    {
    }
  }

  // ----- sequences of distinct nodes -----

  lemma EntriesCut(s: seq<ActiveEdge>, i: nat)
    requires i < |s|
    ensures Entries(s[..i] + s[i + 1..]) == Entries(s)[..i] + Entries(s)[i + 1..]
  {
  }

  lemma EntriesExchanged(s: seq<ActiveEdge>, i: nat)
    requires i + 1 < |s|
    ensures Entries(s[..i] + [s[i + 1], s[i]] + s[i + 2..])
         == Entries(s)[..i] + [Entries(s)[i + 1], Entries(s)[i]] + Entries(s)[i + 2..]
  {
  }

  lemma EntriesInserted(s: seq<ActiveEdge>, z: ActiveEdge, i: nat)
    requires i <= |s|
    ensures Entries(s[..i] + [z] + s[i..]) == Entries(s)[..i] + [z.Entry()] + Entries(s)[i..]
  {
  }

  lemma SpliceOut(s: seq<ActiveEdge>, t: seq<ActiveEdge>, i: nat)
    requires i < |s| && Distinct(s) && Distinct(t) && Disjoint(s, t)
    ensures var s' := s[..i] + s[i + 1..];
            Distinct(s') && Disjoint(s', t) && s[i] !in s' && s[i] !in t &&
            (forall j :: 0 <= j < |s'| ==> s'[j] == s[if j < i then j else j + 1])
    ensures forall j, k :: 0 <= j < |s| && 0 <= k < |t| ==> s[j] != t[k]
    ensures i > 0 ==> forall j :: 0 <= j < |s| && j != i - 1 ==> s[j] != s[i - 1]
  {
    var s' := s[..i] + s[i + 1..];
    forall j, k | 0 <= j < |s| && 0 <= k < |t| ensures s[j] != t[k] {
      assert s[j] in s && t[k] in t;
    }
    assert forall j :: 0 <= j < |s'| ==> s'[j] == s[if j < i then j else j + 1];
  }

  lemma Exchange(s: seq<ActiveEdge>, t: seq<ActiveEdge>, i: nat)
    requires i + 1 < |s| && Distinct(s) && Distinct(t) && Disjoint(s, t)
    ensures var s' := s[..i] + [s[i + 1], s[i]] + s[i + 2..];
            Distinct(s') && Disjoint(s', t) &&
            (forall j :: 0 <= j < |s'| ==> s'[j] == s[if j == i then i + 1 else if j == i + 1 then i else j])
    ensures forall j, k :: 0 <= j < |s| && 0 <= k < |t| ==> s[j] != t[k]
    ensures forall j :: 0 <= j < |s| && j != i ==> s[j] != s[i]
    ensures forall j :: 0 <= j < |s| && j != i + 1 ==> s[j] != s[i + 1]
  {
    var s' := s[..i] + [s[i + 1], s[i]] + s[i + 2..];
    forall j, k | 0 <= j < |s| && 0 <= k < |t| ensures s[j] != t[k] {
      assert s[j] in s && t[k] in t;
    }
    assert forall j :: 0 <= j < |s'| ==> s'[j] == s[if j == i then i + 1 else if j == i + 1 then i else j];
  }

  lemma SpliceIn(s: seq<ActiveEdge>, t: seq<ActiveEdge>, z: ActiveEdge, i: nat)
    requires i <= |s| && Distinct(s) && Distinct(t) && Disjoint(s, t) && z !in s && z !in t
    ensures var s' := s[..i] + [z] + s[i..];
            Distinct(s') && Disjoint(s', t) &&
            (forall j :: 0 <= j < |s'| && j != i ==> s'[j] == s[if j < i then j else j - 1])
    ensures forall j, k :: 0 <= j < |s| && 0 <= k < |t| ==> s[j] != t[k]
    ensures forall j :: 0 <= j < |s| ==> s[j] != z
    ensures i > 0 ==> forall j :: 0 <= j < |s| && j != i - 1 ==> s[j] != s[i - 1]
    ensures forall k :: 0 <= k < |t| ==> t[k] != z
  {
    var s' := s[..i] + [z] + s[i..];
    forall j, k | 0 <= j < |s| && 0 <= k < |t| ensures s[j] != t[k] {
      assert s[j] in s && t[k] in t;
    }
    assert forall j :: 0 <= j < |s'| && j != i ==> s'[j] == s[if j < i then j else j - 1];
  }

  // ----- the functions, unfolded from the middle of a list -----

  lemma SteppedEnds(s: seq<Active>, k: int)
    ensures s[..0] + Stepped(s[0..], k) == Stepped(s, k)
    ensures s[..|s|] + Stepped(s[|s|..], k) == s
  {
    hide *;
    assert s[0..] == s;
    SteppedNone(k);
    assert s[|s|..] == [] && s[..|s|] == s;
  }

  lemma SteppedRemoved(s: seq<Active>, i: nat, k: int)
    requires i < |s| && s[i].ey <= Scan(k)
    ensures var t := s[..i] + s[i + 1..]; s[..i] + Stepped(s[i..], k) == t[..i] + Stepped(t[i..], k)
  {
    hide *;
    assert s[i..][1..] == s[i + 1..];
    SteppedFront(s[i..], k);
    RemoveParts(s, i);
  }

  lemma SteppedKept(s: seq<Active>, i: nat, k: int)
    requires i < |s| && s[i].ey > Scan(k)
    ensures var t := s[i := s[i].(x := s[i].x + s[i].dx)];
            s[..i] + Stepped(s[i..], k) == t[..i + 1] + Stepped(t[i + 1..], k)
  {
    hide *;
    assert s[i..][1..] == s[i + 1..];
    SteppedFront(s[i..], k);
    UpdateParts(s, i, s[i].(x := s[i].x + s[i].dx));
  }

  lemma RemoveParts<T>(s: seq<T>, i: nat)
    requires i < |s|
    ensures var t := s[..i] + s[i + 1..]; t[..i] == s[..i] && t[i..] == s[i + 1..]
  {
  }

  lemma UpdateParts<T>(s: seq<T>, i: nat, v: T)
    requires i < |s|
    ensures var t := s[i := v]; t[i + 1..] == s[i + 1..] && t[..i + 1] == s[..i] + [v]
  {
  }

  lemma SteppedFront(s: seq<Active>, k: int)
    requires s != []
    ensures Stepped(s, k)
         == if s[0].ey <= Scan(k) then Stepped(s[1..], k) else [s[0].(x := s[0].x + s[0].dx)] + Stepped(s[1..], k)
  {
  }

  // One step of the pass at position i: what is in front of it is final.
  lemma BubbledFront(s: seq<Active>, i: nat)
    requires i + 1 < |s|
    ensures Bubbled(s[i..])
         == if s[i].x > s[i + 1].x then [s[i + 1]] + Bubbled([s[i]] + s[i + 2..]) else [s[i]] + Bubbled(s[i + 1..])
  {
    assert s[i..][2..] == s[i + 2..] && s[i..][1..] == s[i + 1..];
  }

  lemma BubbledNext(now: seq<Active>, after: seq<Active>, i: nat)
    requires i + 1 < |now|
    requires after == if now[i].x > now[i + 1].x then now[..i] + [now[i + 1], now[i]] + now[i + 2..] else now
    ensures now[..i] + Bubbled(now[i..]) == after[..i + 1] + Bubbled(after[i + 1..])
  {
    BubbledFront(now, i);
    if now[i].x > now[i + 1].x {
      assert after[i + 1..] == [now[i]] + now[i + 2..];
      assert after[..i + 1] == now[..i] + [now[i + 1]];
    } else {
      assert after[..i + 1] == now[..i] + [now[i]];
    }
    hide Bubbled;
  }

  lemma BubbledAt(s: seq<Active>, i: nat)
    requires i <= |s|
    ensures i == 0 ==> s[..0] + Bubbled(s[0..]) == Bubbled(s)
    ensures |s| <= i + 1 ==> s[..i] + Bubbled(s[i..]) == s
  {
    assert s[0..] == s;
    assert s[..i] + s[i..] == s;
  }

  lemma SwapAt(s: seq<Active>, i: nat)
    requires i + 1 < |s| && s[i].x > s[i + 1].x
    ensures Inversions(s[..i] + [s[i + 1], s[i]] + s[i + 2..]) < Inversions(s)
  {
    hide *;
    SwapLowersInversions(s[..i], s[i], s[i + 1], s[i + 2..]);
    assert s == s[..i] + [s[i], s[i + 1]] + s[i + 2..];
  }

  lemma InsertedFront(s: seq<Active>, a: Active)
    ensures s == [] || a.x < s[0].x ==> Inserted(s, a) == s[..0] + [a] + s[0..]
  {
  }

  lemma InsertedBehind(s: seq<Active>, a: Active)
    requires s != [] && a.x >= s[0].x
    ensures Inserted(s, a) == s[..1] + InsertedAfter(s[1..], a)
  {
    assert s[..1] == [s[0]];
  }

  lemma InsertedStep(s: seq<Active>, a: Active, i: nat)
    requires i < |s| && s[i].x < a.x
    ensures s[..i] + InsertedAfter(s[i..], a) == s[..i + 1] + InsertedAfter(s[i + 1..], a)
  {
    var rest := s[i + 1..];
    assert s[i..][1..] == rest;
    assert InsertedAfter(s[i..], a) == [s[i]] + InsertedAfter(rest, a);
    hide *;
    assert s[..i + 1] == s[..i] + [s[i]];
  }

  lemma InsertedStop(s: seq<Active>, a: Active, i: nat)
    requires i <= |s| && (i < |s| ==> s[i].x >= a.x)
    ensures s[..i] + InsertedAfter(s[i..], a) == s[..i] + [a] + s[i..]
  {
  }

  lemma {:induction false} BeforeSwap(l: seq<Active>, a: Active, b: Active, r: seq<Active>, x: int)
    ensures Before(l + [a, b] + r, x) == Before(l + [b, a] + r, x)
  {
    var s, t := l + [a, b] + r, l + [b, a] + r;
    if l == [] {
      assert s[1..] == [b] + r && t[1..] == [a] + r;
      assert s[1..][1..] == r && t[1..][1..] == r;
    } else {
      BeforeSwap(l[1..], a, b, r, x);
      assert s[1..] == l[1..] + [a, b] + r && t[1..] == l[1..] + [b, a] + r;
    }
  }

  /** Exchanging two neighbours out of order removes exactly one inversion. */
  lemma {:induction false} SwapLowersInversions(l: seq<Active>, a: Active, b: Active, r: seq<Active>)
    requires a.x > b.x
    ensures Inversions(l + [b, a] + r) == Inversions(l + [a, b] + r) - 1
  {
    var s, t := l + [a, b] + r, l + [b, a] + r;
    if l == [] {
      assert s[1..] == [b] + r && t[1..] == [a] + r;
      assert s[1..][1..] == r && t[1..][1..] == r;
    } else {
      SwapLowersInversions(l[1..], a, b, r);
      assert s[1..] == l[1..] + [a, b] + r && t[1..] == l[1..] + [b, a] + r;
      BeforeSwap(l[1..], a, b, r, l[0].x);
    }
  }
}
