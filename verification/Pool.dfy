/** The rasterizer's page pool (src/External/nanosvg/nanosvgrast.h): blocks of bytes handed out from a chain of pages
    that is kept for the next image. A page is its place in the chain. */
module Pool {
  import opened Options

  const PAGE_SIZE := 1024

  /** Bytes `from` to `to` of a page. */
  datatype Block = Block(page: nat, from: nat, to: nat)

  predicate Overlap(a: Block, b: Block) {
    a.page == b.page && a.from < b.to && b.from < a.to
  }

  class MemPool {
    /** How much of each page is used, in the order of the chain. */
    var sizes: seq<nat>
    /** The current page; the chain has none before the first block. */
    var curpage: nat
    /** The blocks handed out since the last reset. */
    ghost var live: seq<Block>

    /** The pages behind the current one are unused, and every live block lies in the used part of a page. */
    ghost predicate Filled()
      reads this
    {
      (sizes != [] ==> curpage < |sizes|) && (forall i :: 0 <= i < |sizes| ==> sizes[i] <= PAGE_SIZE) &&
      (forall i :: curpage < i < |sizes| ==> sizes[i] == 0) &&
      forall k :: 0 <= k < |live| ==> live[k].page < |sizes| && live[k].from <= live[k].to <= sizes[live[k].page]
    }

    ghost predicate Apart()
      reads this
    {
      forall j, k :: 0 <= j < k < |live| ==> !Overlap(live[j], live[k])
    }

    ghost predicate Valid()
      reads this
    {
      Filled() && Apart()
    }

    constructor ()
      ensures Valid() && live == [] && sizes == []
    {
      sizes, curpage, live := [], 0, [];
    }

    /** nsvg__nextPage: the page behind the current one, or a new one at the end of the chain. */
    method NextPage()
      requires Valid()
      modifies this
      ensures Valid() && live == old(live) && curpage < |sizes| && sizes[curpage] == 0 && old(sizes) <= sizes
    {
      if sizes != [] && curpage + 1 < |sizes| {
        curpage := curpage + 1;
        return;
      }
      curpage := |sizes|;
      sizes := sizes + [0];
    }

    /** nsvg__alloc: a block no part of which has been handed out since the last reset; None if it is larger than a
        page. */
    method Alloc(size: nat) returns (block: Option<Block>)
      requires Valid()
      modifies this
      ensures Valid() && (block.None? <==> size > PAGE_SIZE)
      ensures live == if block.Some? then old(live) + [block.value] else old(live)
      ensures block.Some? ==>
                block.value.to - block.value.from == size && block.value.to <= PAGE_SIZE &&
                forall k :: 0 <= k < |old(live)| ==> !Overlap(block.value, old(live)[k])
    {
      if size > PAGE_SIZE {
        return None;
      }
      if sizes == [] || sizes[curpage] + size > PAGE_SIZE {
        NextPage();
      }
      var taken := Block(curpage, sizes[curpage], sizes[curpage] + size);
      assert forall k :: 0 <= k < |live| ==> !Overlap(taken, live[k]) && !Overlap(live[k], taken);
      sizes := sizes[curpage := sizes[curpage] + size];
      live := live + [taken];
      return Some(taken);
    }

    /** nsvg__resetPool: every page is free again, and none is given back. */
    method ResetPool()
      requires Valid()
      modifies this
      ensures Valid() && live == [] && |sizes| == |old(sizes)| && curpage == 0
      ensures forall i :: 0 <= i < |sizes| ==> sizes[i] == 0
    {
      hide Filled, Apart;
      var i := 0;
      while i < |sizes|
        invariant 0 <= i <= |sizes| == |old(sizes)|
        invariant forall k :: 0 <= k < i ==> sizes[k] == 0
        modifies `sizes
      {
        sizes := sizes[i := 0];
        i := i + 1;
      }
      curpage, live := 0, [];
      AllFree();
    }

    lemma AllFree()
      requires live == [] && curpage == 0 && forall k :: 0 <= k < |sizes| ==> sizes[k] == 0
      ensures Valid()
    {
    }
  }
}
