/** The page branch of do_memalign, on top of the page heap. */
module Memalign {
  import opened Arith
  import opened SpanLists
  import opened PageLayout
  import opened HeapBooks
  import opened PageHeaps
  import opened PageHeapCycles

  /** Pages needed for a number of bytes. */
  function PagesFor(bytes: nat): (n: nat)
    ensures bytes <= n * PAGE_SIZE < bytes + PAGE_SIZE
  {
    (bytes + PAGE_SIZE - 1) / PAGE_SIZE
  }

  /** The same in words of the machine: nothing when the rounding wraps around. */
  function Rounded(bytes: nat, words: nat): (n: nat)
    requires bytes < words && words >= PAGE_SIZE
    ensures n == if bytes + PAGE_SIZE - 1 < words then PagesFor(bytes) else 0
  {
    RoundedIs(bytes, words);
    ((bytes + PAGE_SIZE - 1) % words) / PAGE_SIZE
  }

  lemma RoundedIs(bytes: nat, words: nat)
    requires bytes < words && words >= PAGE_SIZE
    ensures ((bytes + PAGE_SIZE - 1) % words) / PAGE_SIZE ==
            if bytes + PAGE_SIZE - 1 < words then (bytes + PAGE_SIZE - 1) / PAGE_SIZE else 0
  {
    var x := bytes + PAGE_SIZE - 1;
    if x < words {
      Small(x, words);
    } else {
      Small(x - words, words);
      ModAdd(x - words, 1, words);
      Small(x - words, PAGE_SIZE);
    }
  }

  /** Page s starts at a multiple of k pages iff s is a multiple of k. */
  lemma PageAligned(s: nat, k: nat)
    requires k > 0
    ensures (s * PAGE_SIZE) % (k * PAGE_SIZE) == 0 <==> s % k == 0
  {
    if s % k == 0 {
      ModMultiple(s, k);
      assert s * PAGE_SIZE == (s / k) * (k * PAGE_SIZE);
      MultipleMod(s / k, k * PAGE_SIZE);
    }
    if (s * PAGE_SIZE) % (k * PAGE_SIZE) == 0 {
      var j := (s * PAGE_SIZE) / (k * PAGE_SIZE);
      ModMultiple(s * PAGE_SIZE, k * PAGE_SIZE);
      assert s * PAGE_SIZE == (j * k) * PAGE_SIZE;
      MultipleMod(j, k);
    }
  }

  /** How many pages there are from page s to the first that is a multiple of k. */
  function Skip(s: nat, k: nat): (g: nat)
    requires k > 0
    ensures g < k
  {
    if s % k == 0 then 0 else k - s % k
  }

  lemma NextMultiple(s: nat, k: nat)
    requires k > 0
    ensures (s + Skip(s, k)) % k == 0
  {
    Euclid(s, k);
    MultipleMod(s / k + 1, k);
    assert s % k != 0 ==> s + Skip(s, k) == (s / k + 1) * k;
  }

  lemma NoneBefore(s: nat, k: nat, j: nat)
    requires k > 0 && j < Skip(s, k)
    ensures (s + j) % k != 0
  {
    Euclid(s, k);
    Small(s % k + j, k);
    ModAdd(s % k + j, s / k, k);
  }

  predicate AlignedPage(page: nat, align: nat)
    requires align > 0
  {
    (page * PAGE_SIZE) % align == 0
  }

  lemma NextAligned(start: nat, align: nat)
    requires align > 0 && align % PAGE_SIZE == 0
    ensures align / PAGE_SIZE > 0 && AlignedPage(start + Skip(start, align / PAGE_SIZE), align)
  {
    var k := align / PAGE_SIZE;
    ModMultiple(align, PAGE_SIZE);
    NextMultiple(start, k);
    PageAligned(start + Skip(start, k), k);
  }

  lemma NotAligned(start: nat, align: nat, j: nat)
    requires align > 0 && align % PAGE_SIZE == 0 && align / PAGE_SIZE > 0 && j < Skip(start, align / PAGE_SIZE)
    ensures !AlignedPage(start + j, align)
  {
    var k := align / PAGE_SIZE;
    ModMultiple(align, PAGE_SIZE);
    NoneBefore(start, k, j);
    PageAligned(start + j, k);
  }

  /** The loop of do_memalign that finds the first aligned page of a span. */
  method SkipToAligned(start: nat, align: nat) returns (skip: nat)
    requires align > 0 && align % PAGE_SIZE == 0
    ensures align / PAGE_SIZE > 0 && skip == Skip(start, align / PAGE_SIZE) && AlignedPage(start + skip, align)
    ensures forall p :: start <= p < start + skip ==> !AlignedPage(p, align)
  {
    hide AlignedPage;
    NextAligned(start, align);
    skip := 0;
    while !AlignedPage(start + skip, align)
      invariant skip <= Skip(start, align / PAGE_SIZE)
      invariant forall p :: start <= p < start + skip ==> !AlignedPage(p, align)
      decreases Skip(start, align / PAGE_SIZE) - skip
    {
      skip := skip + 1;
    }
    if skip < Skip(start, align / PAGE_SIZE) { NotAligned(start, align, skip); }
  }

  /** Gives the first skip pages of a span back; the rest stays in use. */
  method TrimFront(heap: PageHeap, span: Span, skip: nat) returns (rest: Span)
    requires heap.Valid() && heap.HandedOut(span, span.length) && 0 < skip < span.length
    modifies heap, heap.lists, heap.repr
    ensures heap.Valid() && heap.HandedOut(rest, old(span.length) - skip) && rest.start == old(span.start) + skip
    ensures rest.start !in Used(old(heap.books).h) && rest in heap.repr && rest !in old(heap.books).home
    ensures Used(heap.books.h) ==
              (Used(old(heap.books).h) - {old(span.start)})[rest.start := Block(old(span.length) - skip, false, 0)]
    ensures SamePages(old(heap.books).h, heap.books.h) && heap.OthersUndisturbed(span)
    ensures fresh(heap.repr - old(heap.repr)) && heap.repr >= old(heap.repr)
  {
    hide PageHeap.Inv, Coalesced, SamePages, Total, Deleted, Used, Tiled;
    heap.AboutSpan(span, null);
    ghost var h0 := heap.books.h;
    rest := heap.Split(span, skip);
    NotUsed(h0, rest.start);
    heap.AboutSpan(rest, null);
    ghost var h1 := heap.books.h;
    heap.Delete(span);
    SamePagesTransitive(h0, h1, heap.books.h);
  }

  /** Gives the pages of a span behind the first n back. */
  method TrimBack(heap: PageHeap, span: Span, n: nat)
    requires heap.Valid() && heap.HandedOut(span, span.length) && 0 < n < span.length
    modifies heap, heap.lists, heap.repr
    ensures heap.Valid() && heap.HandedOut(span, n) && span.start == old(span.start)
    ensures Used(heap.books.h) == Used(old(heap.books).h)[span.start := Block(n, false, 0)]
    ensures SamePages(old(heap.books).h, heap.books.h) && heap.OthersUndisturbed(span)
    ensures fresh(heap.repr - old(heap.repr)) && heap.repr >= old(heap.repr)
  {
    hide PageHeap.Inv, Coalesced, SamePages, Total, Deleted, Used, Tiled;
    heap.AboutSpan(span, null);
    ghost var h0 := heap.books.h;
    var trailer := heap.Split(span, n);
    NotUsed(h0, trailer.start);
    ghost var h1 := heap.books.h;
    heap.AboutSpan(span, null);
    heap.Delete(trailer);
    SamePagesTransitive(h0, h1, heap.books.h);
  }

  /** The caller gained one block of n pages, at addr and described by span, and nobody lost any. */
  twostate predicate Gained(heap: PageHeap, addr: nat, new span: Span?, n: int)
    reads heap, span
  {
    && addr % PAGE_SIZE == 0 && addr / PAGE_SIZE !in Used(old(heap.books).h) && n >= 0
    && span != null && heap.HandedOut(span, n) && span.start == addr / PAGE_SIZE
    && Used(heap.books.h) == Used(old(heap.books).h)[addr / PAGE_SIZE := Block(n, false, 0)]
  }

  /** Of the pages of a span, as many as needed are left from the first aligned one on. */
  predicate Reaches(start: nat, length: nat, align: nat, needed: int)
    requires align / PAGE_SIZE > 0
  {
    var skip := Skip(start, align / PAGE_SIZE);
    skip < length && 0 < needed <= length - skip
  }

  /** The end of do_memalign: the span is trimmed on both sides; null where an assertion fails. */
  method AlignAndTrim(heap: PageHeap, words: nat, span0: Span, align: nat, needed: int) returns (span: Span?)
    requires heap.Valid() && heap.HandedOut(span0, span0.length) && align > 0 && align % PAGE_SIZE == 0
    requires IsWidth(words) && -0x8000_0000 <= needed <= INT_MAX
    modifies heap, heap.lists, heap.repr
    ensures heap.Valid() && SamePages(old(heap.books).h, heap.books.h) && heap.OthersUndisturbed(span0)
    ensures fresh(heap.repr - old(heap.repr))
    ensures align / PAGE_SIZE > 0 && (span != null <==> old(Reaches(span0.start, span0.length, align, needed)))
    ensures span != null ==> heap.HandedOut(span, needed) && AlignedPage(span.start, align)
    ensures span != null ==> span.start !in Used(old(heap.books).h) - {old(span0.start)}
    ensures span != null ==>
              Used(heap.books.h)
              == (Used(old(heap.books).h) - {old(span0.start)})[span.start := Block(needed, false, 0)]
  {
    hide PageHeap.Inv, Coalesced, SamePages, Total, AlignedPage, Used;
    span := span0;
    ghost var h0 := heap.books.h;
    SamePagesReflexive(h0);
    heap.AboutSpan(span, null);
    heap.BlockFits(span);
    heap.Separate(null);
    var skip := SkipToAligned(span.start, align);
    if skip >= span.length {
      return null;
    }
    if skip > 0 {
      span := TrimFront(heap, span, skip);
    }
    if span.length < ToWord(needed, words) || needed == 0 {
      return null;
    }
    if span.length > needed {
      ghost var h1 := heap.books.h;
      TrimBack(heap, span, needed);
      SamePagesTransitive(h0, h1, heap.books.h);
    } else {
      heap.InUse(span);
    }
  }

  /** Nothing; a block; or the program stops because an assertion fails. */
  datatype Reply = Null | Run(address: nat) | Fault

  /** How many pages do_memalign asks the page heap for: beyond a page the number passes through an int. */
  function MemalignAsk(words: nat, align: nat, size: nat): nat
    requires IsWidth(words) && size + align < words
  {
    if align <= PAGE_SIZE then Rounded(size, words) else ToWord(ToInt(Rounded(size + align, words)), words)
  }

  /** The number of pages survives that, or turns into one for which there is no block. */
  predicate Counts(words: nat, align: nat, size: nat)
    requires IsWidth(words) && size + align < words
  {
    align <= PAGE_SIZE || Rounded(size + align, words) <= INT_MAX || ToInt(Rounded(size + align, words)) <= 0
  }

  /** It always does where words have 32 bits. */
  lemma NarrowCounts(align: nat, size: nat)
    requires size + align < WIDTH
    ensures Counts(WIDTH, align, size)
  {
  }

  /** Then the block is long enough wherever it starts. */
  lemma CountedReaches(words: nat, align: nat, size: nat, start: nat)
    requires IsWidth(words) && size + align < words && 0 < size && align > PAGE_SIZE && align % PAGE_SIZE == 0
    requires Counts(words, align, size) && 0 < MemalignAsk(words, align, size) <= INT_MAX
    ensures align / PAGE_SIZE > 0 && Rounded(size, words) == PagesFor(size) <= INT_MAX
    ensures Reaches(start, MemalignAsk(words, align, size), align, ToInt(Rounded(size, words)))
  {
    var k := align / PAGE_SIZE;
    ModMultiple(align, PAGE_SIZE);
    assert PagesFor(size + align) == PagesFor(size) + k by { PagesAdd(size, k); }
  }

  lemma PagesAdd(size: nat, k: nat)
    ensures PagesFor(size + k * PAGE_SIZE) == PagesFor(size) + k
  {
  }

  /**
   New for n pages, which start at page `at`, and then the trimming; null where NULL
   comes back or an assertion fails.
   */
  method NewAligned(heap: PageHeap, words: nat, n: nat, align: nat, needed: int, first: nat, second: nat,
                    leaves: set<nat>)
    returns (span: Span?, failed: bool, ghost at: nat)
    requires heap.Valid() && align > 0 && align % PAGE_SIZE == 0
    requires IsWidth(words) && -0x8000_0000 <= needed <= INT_MAX && PageHeap.MayGrant(heap.books.h, n, first, second)
    modifies heap, heap.lists, heap.repr
    ensures heap.Valid() && PagesKept(old(heap.books).h, heap.books.h) && heap.UsersUndisturbed()
    ensures fresh(heap.repr - old(heap.repr))
    ensures var (p, m) := PageHeap.Granted(n, first, second); Within(old(heap.books).h, heap.books.h, p, m)
    ensures failed <==> PageHeap.Fails(old(heap.books).h, old(heap.pagemap), n, first, second, leaves)
    ensures failed ==> span == null && Used(heap.books.h) == Used(old(heap.books).h)
    ensures !failed ==>
              0 < n <= INT_MAX && align / PAGE_SIZE > 0 && (span != null <==> Reaches(at, n, align, needed))
    ensures !failed && (forall a :: !Adequate(old(heap.books).h, a, n)) ==>
              var (p, m) := PageHeap.Granted(n, first, second);
              BestFit(Grown(old(heap.books).h, p, m), at, n, MAX_PAGES)
    ensures span != null ==> heap.HandedOut(span, needed) && span.start > 0 && AlignedPage(span.start, align)
    ensures span != null ==> span.start !in Used(old(heap.books).h)
    ensures span != null ==> Used(heap.books.h) == Used(old(heap.books).h)[span.start := Block(needed, false, 0)]
  {
    hide PageHeap.Inv, Coalesced, SamePages, Total, Carved, PageLayout.Grown, PagesKept, Used, Within, AlignedPage;
    hide Reaches, BestFit, PageHeap.Fails, GrownLen;
    ghost var h0 := heap.books.h;
    ghost var (p, m) := PageHeap.Granted(n, first, second);
    span, at := null, 0;
    var got := heap.New(n, first, second, leaves);
    failed := got == null;
    if got != null {
      heap.AboutSpan(got, null);
      heap.BlockFits(got);
      at := got.start;
      ghost var h1 := heap.books.h;
      span := AlignAndTrim(heap, words, got, align, needed);
      KeptThenSame(h0, h1, heap.books.h);
      SameWithin(h0, h1, heap.books.h, p, m);
      if span != null { heap.AboutSpan(span, null); }
    }
  }

  /** do_memalign for alignments of more than a page; `span` describes the block, `at` is where New's pages start. */
  method MemalignLarge(heap: PageHeap, words: nat, align: nat, size: nat, first: nat, second: nat, leaves: set<nat>)
    returns (r: Reply, ghost span: Span?, ghost at: nat)
    requires heap.Valid() && IsWidth(words) && PowerOfTwo(align) && align > PAGE_SIZE && 0 < size
    requires size + align < words
    requires PageHeap.MayGrant(heap.books.h, MemalignAsk(words, align, size), first, second)
    modifies heap, heap.lists, heap.repr
    ensures heap.Valid() && PagesKept(old(heap.books).h, heap.books.h) && heap.UsersUndisturbed()
    ensures fresh(heap.repr - old(heap.repr))
    ensures var (p, m) := PageHeap.Granted(MemalignAsk(words, align, size), first, second);
            Within(old(heap.books).h, heap.books.h, p, m)
    ensures var n := MemalignAsk(words, align, size);
            && (r.Null? <==> PageHeap.Fails(old(heap.books).h, old(heap.pagemap), n, first, second, leaves))
            && (!r.Null? ==> align / PAGE_SIZE > 0 && (r.Run? <==> Reaches(at, n, align, ToInt(Rounded(size, words)))))
            && (!r.Null? && (forall a :: !Adequate(old(heap.books).h, a, n)) ==>
                  var (p, m) := PageHeap.Granted(n, first, second);
                  BestFit(Grown(old(heap.books).h, p, m), at, n, MAX_PAGES))
    ensures r.Null? ==> span == null && Used(heap.books.h) == Used(old(heap.books).h)
    ensures r.Run? ==>
              r.address > 0 && r.address % align == 0 && Gained(heap, r.address, span, ToInt(Rounded(size, words)))
    ensures Counts(words, align, size) ==> !r.Fault? && (r.Run? ==> ToInt(Rounded(size, words)) == PagesFor(size))
  {
    hide PageHeap.Inv, PageHeap.Valid, Total, PageLayout.Grown, PagesKept, Used, Within, AlignedPage, PowerOfTwo;
    hide Reaches, BestFit, PageHeap.Fails, Adequate;
    LargeAlign(align);
    var n := ToWord(ToInt(Rounded(size + align, words)), words);
    var block, failed;
    block, failed, at := NewAligned(heap, words, n, align, ToInt(Rounded(size, words)), first, second, leaves);
    span := block;
    if failed {
      return Null, null, at;
    }
    if Counts(words, align, size) { CountedReaches(words, align, size, at); }
    if block == null {
      return Fault, null, at;
    }
    AlignedIs(block.start, align);
    r := Run(block.start * PAGE_SIZE);
  }

  lemma AlignedIs(page: nat, align: nat)
    requires align > 0 && AlignedPage(page, align)
    ensures (page * PAGE_SIZE) % align == 0
  {
  }

  /**
   do_memalign beyond the small sizes. If the number of pages survives, NULL comes back
   exactly where the page heap has none to give, and else the caller gains exactly one
   block of PagesFor(size) pages; nobody else loses any.
   */
  method MemalignPages(heap: PageHeap, words: nat, align: nat, size: nat, first: nat, second: nat, leaves: set<nat>)
    returns (r: Reply, ghost span: Span?)
    requires heap.Valid() && IsWidth(words) && PowerOfTwo(align) && 0 < size && size + align < words
    requires PageHeap.MayGrant(heap.books.h, MemalignAsk(words, align, size), first, second)
    modifies heap, heap.lists, heap.repr
    ensures heap.Valid() && PagesKept(old(heap.books).h, heap.books.h) && heap.UsersUndisturbed()
    ensures fresh(heap.repr - old(heap.repr))
    ensures var (p, m) := PageHeap.Granted(MemalignAsk(words, align, size), first, second);
            Within(old(heap.books).h, heap.books.h, p, m)
    ensures var n := MemalignAsk(words, align, size);
            r.Null? <==> PageHeap.Fails(old(heap.books).h, old(heap.pagemap), n, first, second, leaves)
    ensures r.Null? ==> span == null && Used(heap.books.h) == Used(old(heap.books).h)
    ensures Counts(words, align, size) ==> !r.Fault?
    ensures Counts(words, align, size) && r.Run? ==>
              r.address > 0 && r.address % align == 0 && Gained(heap, r.address, span, PagesFor(size))
  {
    hide PageHeap.Inv, Coalesced, SamePages, Total, Carved, PageLayout.Grown, PagesKept, Used, PagesFor, Within;
    hide PowerOfTwo, Rounded, Reaches, PageHeap.Fails, BestFit;
    if align <= PAGE_SIZE {
      var got := heap.New(Rounded(size, words), first, second, leaves);
      if got == null {
        return Null, null;
      }
      heap.AboutSpan(got, null);
      SmallAlign(got.start, align);
      return Run(got.start * PAGE_SIZE), got;
    }
    ghost var at;
    r, span, at := MemalignLarge(heap, words, align, size, first, second, leaves);
  }

  lemma SmallAlign(page: nat, align: nat)
    requires PowerOfTwo(align) && align <= PAGE_SIZE
    ensures (page * PAGE_SIZE) % align == 0
  {
    PageIsPower();
    PowerDivides(align, PAGE_SIZE);
    MultipleOfMultiple(page, PAGE_SIZE, align);
  }

  lemma LargeAlign(align: nat)
    requires PowerOfTwo(align) && align > PAGE_SIZE
    ensures align % PAGE_SIZE == 0
  {
    PageIsPower();
    PowerDivides(PAGE_SIZE, align);
  }

  // ---------- where the page count does not survive ----------

  /** What is left of such a count is at least a whole round of an int, and the block is too short for it. */
  lemma Uncounted(words: nat, align: nat, size: nat)
    requires IsWidth(words) && size + align < words && 0 < size && align % PAGE_SIZE == 0
    requires !Counts(words, align, size)
    ensures 0 < MemalignAsk(words, align, size) <= INT_MAX && WIDTH <= PagesFor(size + align)
    ensures Rounded(size, words) == PagesFor(size)
    ensures align / PAGE_SIZE > 0 && Reaches(1, MemalignAsk(words, align, size), align, ToInt(Rounded(size, words))) ==>
              ToInt(Rounded(size, words)) * PAGE_SIZE < size
  {
    var k := align / PAGE_SIZE;
    ModMultiple(align, PAGE_SIZE);
    PagesAdd(size, k);
    if PagesFor(size) <= INT_MAX && k > 0 { FarFromOne(k); }
  }

  /** So it is with one byte at a multiple of 2^44 where words have 64 bits. */
  lemma WideRequestUncounted()
    ensures !Counts(WIDE, 0x1000_0000_0000, 1) && MemalignAsk(WIDE, 0x1000_0000_0000, 1) == 1
  {
  }

  /** Page 1 is as far from an aligned page as a page can be. */
  lemma FarFromOne(k: nat)
    requires k > 1
    ensures Skip(1, k) == k - 1
  {
    Small(1, k);
  }

  /**
   So for every such request there is a run that goes wrong: when the system grants pages
   from page 1 on to an empty heap, an assertion fails, or the block has too few bytes.
   */
  method UncountedRequestBreaks(words: nat, align: nat, size: nat, leaves: set<nat>)
    returns (heap: PageHeap, r: Reply, ghost span: Span?)
    requires IsWidth(words) && PowerOfTwo(align) && 0 < size && size + align < words && !Counts(words, align, size)
    requires forall q :: 0 <= q <= WIDTH ==> q in leaves
    ensures heap.Valid() && !r.Null?
    ensures r.Run? ==> span != null && heap.HandedOut(span, span.length) && r.address == span.start * PAGE_SIZE
    ensures r.Run? ==> span.length * PAGE_SIZE < size
  {
    hide PageHeap.Inv, Coalesced, Total, PowerOfTwo, PagesKept, Within, Used, Reaches, Rounded, PagesFor;
    hide PageHeap.Fails;
    LargeAlign(align);
    Uncounted(words, align, size);
    heap := new PageHeap();
    NothingTotal();
    ghost var at;
    EmptyGrowth(heap.pagemap, MemalignAsk(words, align, size), leaves);
    r, span, at := MemalignLarge(heap, words, align, size, 1, 0, leaves);
    if r.Run? { Multiple(r.address, span.start); }
  }

  lemma Multiple(address: nat, page: nat)
    requires address % PAGE_SIZE == 0 && page == address / PAGE_SIZE
    ensures address == page * PAGE_SIZE
  {
  }
}
