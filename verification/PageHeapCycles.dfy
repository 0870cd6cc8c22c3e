/** What sequences of page-heap operations add up to. */
module PageHeapCycles {
  import opened Arith
  import opened SpanLists
  import opened PageLayout
  import opened HeapBooks
  import opened PageHeaps

  lemma LayoutOf(heap: PageHeap)
    requires heap.Valid()
    ensures Tiled(heap.books.h) && Coalesced(heap.books.h) && heap.freePages == Total(heap.books.h, FreePages)
    ensures Total(heap.books.h, Pages) <= INT_MAX
  {
    hide Total;
  }

  /** A block of MAX_PAGES pages, which is what GrowHeap asks for first, always lands on the large list. */
  lemma FullGrowthIsEnough(h: Layout, n: nat, p: nat)
    requires Tiled(h) && p > 0 && p !in h
    ensures MAX_PAGES <= GrownLen(h, p, PageHeap.Ask(n))
  {
    hide Tiled;
    if b: nat :| FreeBefore(h, b, p) && b < p { MergedBefore(h, p, b); }
  }

  lemma MergedBefore(h: Layout, p: nat, b: nat)
    requires Tiled(h) && FreeBefore(h, b, p) && b < p
    ensures MergedStart(h, p) <= p
  {
  }

  /**
   New has to succeed once the first request is granted and has its leaves; but after the
   second, smaller one it fails in an empty heap, with an adequate block left behind.
   */
  method FirstRequestSuffices(heap: PageHeap, n: nat, p: nat, second: nat, leaves: set<nat>) returns (span: Span?)
    requires heap.Valid() && n > 0 && p > 0 && PageHeap.MayGrant(heap.books.h, n, p, second)
    requires PageHeap.Grows(heap.pagemap, n, p, second, leaves)
    modifies heap, heap.lists, heap.repr
    ensures heap.Valid() && span != null && heap.HandedOut(span, n)
  {
    hide PageHeap.Inv, Coalesced, Total, Carved, PageLayout.Grown, PagesKept, Used, GrownLen;
    ghost var h := heap.books.h;
    LayoutOf(heap);
    NotRegistered(h, p);
    FullGrowthIsEnough(h, n, p);
    span := heap.New(n, p, second, leaves);
  }

  lemma NotRegistered(h: Layout, p: nat)
    requires Tiled(h) && !Covered(h, p)
    ensures p !in h
  {
    forall a | a in h ensures In(h, a, a) {}
  }

  /** So it is for every length less than a megabyte. */
  method SecondRequestFails(n: nat, p: nat, leaves: set<nat>) returns (heap: PageHeap, span: Span?)
    requires 0 < n < 256 && p > 0 && forall q :: p - 1 <= q <= p + n ==> q in leaves
    ensures fresh(heap) && heap.Valid()
    ensures span == null && Adequate(heap.books.h, p, n) && heap.systemBytes == n * PAGE_SIZE
  {
    hide PageHeap.Inv, Coalesced, Total, Carved, PagesKept, Used;
    heap := new PageHeap();
    ghost var h := heap.books.h;
    NothingTotal();
    span := heap.New(n, 0, p, leaves);
    EmptyGrows(p, n);
  }

  lemma NothingTotal()
    ensures Total(map[], Pages) == 0
  {
  }

  /**
   A free span of 2^32 + 1 pages, from which one page is carved: the number of pages left
   over reads as 0, and the caller gets them all.
   */
  method LongSpanIsHandedOutWhole(p: nat, leaves: set<nat>) returns (heap: PageHeap, span: Span)
    requires p > 0 && forall q :: p - 1 <= q <= p + WIDTH + 1 ==> q in leaves
    ensures heap.Inv(null) && span in heap.books.home && !span.free && span.start == p && span.length == WIDTH + 1
  {
    hide PageHeap.Inv, Coalesced, Total, Used;
    var n := WIDTH + 1;
    heap := new PageHeap();
    var ok := heap.Ensure(p - 1, n + 2, leaves);
    heap.Separate(null);
    span := heap.AddRun(p, n);
    heap.AboutSpan(span, null);
    heap.Separate(null);
    heap.Loosen(span);
    heap.SetFree(span, true);
    heap.Link(span);
    heap.AboutSpan(span, null);
    heap.Carve(span, 1);
  }

  /**
   In an empty heap every request succeeds that is granted and gets its leaves; its pages
   start where the grant does.
   */
  lemma EmptyGrowth(tags: map<nat, Span?>, n: nat, leaves: set<nat>)
    requires n > 0 && forall q :: 0 <= q <= PageHeap.Ask(n) + 1 ==> q in leaves
    ensures !PageHeap.Fails(map[], tags, n, 1, 0, leaves) && forall a :: !Adequate(map[], a, n)
    ensures forall a :: BestFit(PageLayout.Grown(map[], 1, PageHeap.Ask(n)), a, n, MAX_PAGES) ==> a == 1
  {
    var h := map[];
    assert MergedStart(h, 1) == 1;
  }

  lemma EmptyGrows(p: nat, n: nat)
    requires p > 0 && n > 0
    ensures GrownLen(map[], p, n) == n && Adequate(PageLayout.Grown(map[], p, n), p, n)
  {
  }

  /** A block that came from free pages and goes back leaves no trace in the layout. */
  method NewThenDelete(heap: PageHeap, n: nat)
    requires heap.Valid() && n > 0 && exists a :: Adequate(heap.books.h, a, n)
    modifies heap, heap.lists, heap.repr
    ensures heap.Valid() && heap.books.h == old(heap.books).h && heap.freePages == old(heap.freePages)
  {
    hide PageHeap.Inv, PageHeap.Valid, Tiled, Coalesced, Total, Carved, SamePages, Used, PagesKept;
    hide PageLayout.Grown, Deleted;
    ghost var h := heap.books.h;
    LayoutOf(heap);
    var span := heap.New(n, 0, 0, {});
    ghost var a, h1 := span.start, heap.books.h;
    CarvedKeeps(h, a, n);
    heap.Delete(span);
    LayoutOf(heap);
    Restored(h, h1, heap.books.h, a, n);
  }

  /** Taking a block and giving it back restores a layout. */
  lemma Restored(h: Layout, h1: Layout, h2: Layout, a: nat, n: nat)
    requires Tiled(h) && Coalesced(h) && Tiled(h2) && Coalesced(h2)
    requires SamePages(h, h1) && SamePages(h1, h2) && a !in Used(h)
    requires Used(h1) == Used(h)[a := Block(n, false, 0)] && Used(h2) == Used(h1) - {a}
    ensures h2 == h
  {
    hide Tiled, Coalesced, Used;
    assert Used(h2) == Used(h);
    LayoutIsCanonical(h, h2);
  }
}
