/** The page map under the page heap: which leaves a growth of the heap finds, and where it leaves the map. */
module MapGrowth {
  import opened Arith
  import opened PageLayout
  import opened PageHeaps
  import opened PageMaps

  /** The pages the heap has entries for are those with a leaf. */
  ghost predicate SameLeaves(heap: PageHeap, pages: PageMap2)
    reads heap, pages, pages.root
  {
    forall k: nat :: k in heap.pagemap <==> pages.Ensured(k)
  }

  /** The keys that have a leaf. */
  method WithLeaf(pages: PageMap2) returns (ks: set<nat>)
    requires pages.Valid()
    ensures forall k: nat :: k in ks <==> pages.Ensured(k)
  {
    pages.Sizes();
    ProductNonneg(pages.root.Length, pages.length);
    ks := {};
    for k: nat := 0 to pages.root.Length * pages.length
      invariant forall j: nat :: j in ks <==> j < k && pages.Ensured(j)
    {
      LeafInRange(k, pages.length, pages.root.Length, |pages.flat|);
      if pages.root[High(k, pages.length)] != null { ks := ks + {k}; }
    }
  }

  /**
   GrowHeap with m pages from p in hand, on the two-level map. The answer of Ensure is what
   the page heap calls `leaves`; and it follows an index past the end of the root exactly if
   the block ends with the last page there is, unless memory runs out before.
   */
  method AddPages(heap: PageHeap, pages: PageMap2, p: nat, m: nat, memory: nat) returns (r: Outcome)
    requires heap.Valid() && p > 0 && m > 0 && forall q :: p <= q < p + m ==> !Covered(heap.books.h, q)
    requires Total(heap.books.h, Pages) + m <= INT_MAX
    requires pages.Valid() && SameLeaves(heap, pages) && p + m <= |pages.flat| < WIDTH
    modifies heap, heap.lists, heap.repr, pages, pages.root
    ensures pages.Valid() && pages.flat == old(pages.flat)
    ensures r.Fault? ==> p + m == |pages.flat| && heap.books == old(heap.books)
    ensures p + m == |pages.flat| ==> !r.Done?
    ensures !r.Fault? ==> heap.Valid() && SameLeaves(heap, pages)
    ensures r.Done? ==> heap.leaked == old(heap.leaked) && heap.books.h == Grown(old(heap.books).h, p, m)
    ensures (forall q :: p - 1 <= q <= p + m && q < |pages.flat| ==> old(pages.Ensured(q))) ==> !r.NoMemory?
    ensures r.NoMemory? ==> heap.leaked == old(heap.leaked) + m && heap.books.h == old(heap.books).h
  {
    hide PageHeap.Inv, Coalesced, Total, Covered, PageMap2.Valid, PageMap2.Ensured, PageLayout.Grown, Used;
    hide PagesKept, Within;
    label before:
    var left;
    r, left := pages.Ensure(p - 1, m + 2, memory);
    assert unchanged@before(heap, heap.lists, heap.repr, heap.lists.links.nodes);
    if r.Fault? {
      return;
    }
    var leaves := WithLeaf(pages);
    var ok := heap.AddPages(p, m, leaves);
  }
}
