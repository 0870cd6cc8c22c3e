/** do_malloc and do_memalign, from the size asked for to the block handed out. */
module FrontEnd {
  import opened Arith
  import opened CentralState
  import opened CentralSteps
  import opened CentralSafety
  import opened CentralThreads
  import opened CentralRuns
  import opened CentralTheorems
  import opened Leases
  import opened Memalign
  import opened Allocators
  import SizeClasses
  import C = ClassTable
  import SpanLists
  import L = PageLayout
  import opened PageHeaps
  import PageHeapCycles

  /**
   NULL; a block at an address; the thread's list is empty, and it asks the central list of a
   class for objects; or the program stops because an assertion fails.
   */
  datatype Answer = Null | At(address: nat) | Fetch(c: nat) | Stops

  /** Of all blocks b alone becomes live; it starts at the address and has the bytes asked for. */
  ghost predicate Given(cfg: Config, s: State, s2: State, b: Block, address: nat, size: nat) {
    && !Live(s, b) && Live(s2, b) && First(cfg, s2, b) == address && size <= End(cfg, s2, b) - address
    && forall x :: x != b ==> (Live(s, x) <==> Live(s2, x))
  }

  /** The configuration has the sizes that InitSizeClasses has filled in. */
  ghost predicate HasTables(cfg: Config, tables: C.SizeTables)
    reads tables.base, tables.shift, tables.sizes, tables.pages, tables.moves
  {
    tables.Filled() && cfg.size == tables.sizes[..]
  }

  /** Any object of a class is as long as its class says, and aligned as the class is. */
  lemma ObjectServes(cfg: Config, s: State, o: Obj, c: nat, align: nat)
    requires Inv(cfg, s) && o in s.place && o.span in s.spans && s.spans[o.span].cl == c < |cfg.size|
    requires PowerOfTwo(align) && align < PAGE_SIZE && cfg.size[c] % align == 0
    ensures First(cfg, s, Small(o)) % align == 0 && First(cfg, s, Small(o)) >= 0
    ensures End(cfg, s, Small(o)) == First(cfg, s, Small(o)) + cfg.size[c]
  {
    hide Inv;
    SizeClasses.ObjectsAligned(o.span, cfg.size[c], o.idx, align);
    SizeOfClass(cfg, s, o, c);
  }

  /** The addresses of the first objects on the lists of thread t, 0 for an empty list. */
  ghost predicate Heads(cfg: Config, s: State, t: nat, heads: seq<nat>) {
    && t < |s.lists| && |heads| == |s.lists[t]|
    && forall c :: 0 <= c < |heads| ==>
         heads[c] == if s.lists[t][c] == [] then 0 else First(cfg, s, Small(s.lists[t][c][0]))
  }

  /** What a thread's list leads to is an object of its class, and not NULL. */
  lemma HeadIs(a: Allocator, t: nat, c: nat)
    requires a.Valid() && t < |a.s.lists| && c < |a.s.lists[t]| && a.s.lists[t][c] != []
    ensures var o := a.s.lists[t][c][0];
            o in a.s.place && o.span in a.s.spans && a.s.spans[o.span].cl == c && First(a.cfg, a.s, Small(o)) > 0
  {
    hide Allocator.Sound, Tied;
    var o := a.s.lists[t][c][0];
    CacheHere(a.cfg, a.s, t, c);
    assert o in a.s.lists[t][c];
    ClassOfLease(a.cfg, a.s, o.span);
    a.LeaseHas(o.span);
    ProductNonneg(o.idx, SizeOf(a.cfg, a.s, o));
  }

  lemma Ready(cfg: Config, s: State, t: nat, c: nat)
    requires Inv(cfg, s) && t < |s.pcs| && s.pcs[t].Idle? && t < |s.lists| && c < |s.lists[t]| && c < |cfg.move|
    ensures Shaped(cfg, s) && c < |cfg.size| && (s.lists[t][c] != [] ==> Enabled(cfg, s, t, Malloc(c)))
    ensures c > 0 && cfg.move[c] > 0 ==> Enabled(cfg, s, t, Remove(c, cfg.move[c]))
  {
    Parts(cfg, s);
    Lengths(cfg, s);
  }

  /** Popping the first object of a list makes that object live, and no other block. */
  lemma Popped(cfg: Config, s: State, t: nat, c: nat)
    requires Inv(cfg, s) && t < |s.pcs| && s.pcs[t].Idle? && t < |s.lists| && c < |s.lists[t]| && s.lists[t][c] != []
    requires Shaped(cfg, s) && Enabled(cfg, s, t, Malloc(c)) && c < |cfg.size|
    ensures var x, s2 := Small(s.lists[t][c][0]), MallocStep(s, t, c);
            && s2.taken == s.taken && s2.spans == s.spans && x.o in s2.place && x.o in s.place && x.o.span in s.spans
            && !Live(s, x) && Live(s2, x) && End(cfg, s2, x) == First(cfg, s2, x) + cfg.size[c]
            && First(cfg, s2, x) == First(cfg, s, x) && forall b :: b != x ==> (Live(s, b) <==> Live(s2, b))
  {
    hide Inv;
    MallocIsFresh(cfg, s, t, c, Large(0));
    var x, s2 := Small(s.lists[t][c][0]), MallocStep(s, t, c);
    forall b | b != x ensures Live(s, b) <==> Live(s2, b) { MallocIsFresh(cfg, s, t, c, b); }
    CacheHere(cfg, s, t, c);
    assert x.o in s.lists[t][c];
  }

  /** The step of a thread that pops the first object of its list. */
  ghost function Pop(cfg: Config, s: State, t: nat, c: nat): (s2: State)
    requires Inv(cfg, s) && t < |s.pcs| && s.pcs[t].Idle? && t < |s.lists| && c < |s.lists[t]| && s.lists[t][c] != []
    requires c < |cfg.move|
    ensures Inv(cfg, s2) && Step(cfg, s, s2, t, Malloc(c)) && s2.taken == s.taken && s2 == MallocStep(s, t, c)
  {
    Ready(cfg, s, t, c);
    StepKeeps(cfg, s, t, Malloc(c));
    MallocStep(s, t, c)
  }

  /** Objects of class c serve a request for `size` bytes at a multiple of align. */
  ghost predicate Suits(cfg: Config, c: nat, align: nat, size: nat) {
    && 0 < c < |cfg.size| == |cfg.move| && size <= cfg.size[c]
    && PowerOfTwo(align) && align < PAGE_SIZE && cfg.size[c] % align == 0
  }

  /** Class c is the first whose objects hold `size` bytes and are a multiple of align long. */
  ghost predicate FirstFor(cfg: Config, c: nat, size: nat, align: nat) {
    && align > 0 && 0 < c < |cfg.size| && size <= cfg.size[c] && cfg.size[c] % align == 0
    && forall d :: 0 < d < c ==> cfg.size[d] < size || cfg.size[d] % align != 0
  }

  /** The answer is the first object on the thread's list of class c; if there is none, objects of c are asked for. */
  ghost predicate FromList(cfg: Config, s: State, t: nat, c: nat, r: Answer, b: Block) {
    && t < |s.lists| && c < |s.lists[t]|
    && if s.lists[t][c] == [] then r == Answer.Fetch(c)
       else b == Small(s.lists[t][c][0]) && r == At(First(cfg, s, b))
  }

  /** Block b is a run of no more pages than it takes for so many bytes. */
  ghost predicate FewPages(s: State, b: Block, size: nat) {
    && b.Large? && b.sp in s.taken && s.taken[b.sp].ForPages?
    && (s.taken[b.sp].n - 1) * PAGE_SIZE < (if size == 0 then 1 else size) <= s.taken[b.sp].n * PAGE_SIZE
  }

  /** The end of Allocate, after a fetch if there was one: the first object of the list, NULL if there is none. */
  method PopHead(a: Allocator, t: nat, c: nat, heads: seq<nat>, ghost align: nat, ghost size: nat)
    returns (r: Answer, ghost b: Block)
    requires a.Valid() && t < |a.s.pcs| && a.s.pcs[t].Idle? && Heads(a.cfg, a.s, t, heads)
    requires c < |heads| && Suits(a.cfg, c, align, size)
    modifies a`s
    ensures a.Valid() && !r.Fetch? && !r.Stops?
    ensures r.Null? <==> old(a.s).lists[t][c] == []
    ensures r.Null? ==> a.s == old(a.s)
    ensures r.At? ==> Step(a.cfg, old(a.s), a.s, t, Malloc(c)) && b == Small(old(a.s).lists[t][c][0])
    ensures r.At? ==> r.address > 0 && r.address % align == 0 && Given(a.cfg, old(a.s), a.s, b, r.address, size)
    ensures r.At? ==> r.address == First(a.cfg, old(a.s), b)
  {
    hide Allocator.Sound, Inv, Tied, First, End, Live, Step;
    b := Large(0);
    if heads[c] == 0 {
      forall d | 0 <= d < |a.s.lists[t]| && a.s.lists[t][d] != [] ensures heads[d] != 0 { HeadIs(a, t, d); }
      return Answer.Null, b;
    }
    HeadIs(a, t, c);
    b := Small(a.s.lists[t][c][0]);
    ObjectServes(a.cfg, a.s, b.o, c, align);
    Ready(a.cfg, a.s, t, c);
    Popped(a.cfg, a.s, t, c);
    a.Go(Pop(a.cfg, a.s, t, c));
    r := At(heads[c]);
  }

  /** TCMalloc_ThreadCache::Allocate of class c: the first object of the list, or the start of FetchFromCentralCache. */
  method FromClass(a: Allocator, t: nat, c: nat, heads: seq<nat>, ghost align: nat, ghost size: nat)
    returns (r: Answer, ghost b: Block)
    requires a.Valid() && t < |a.s.pcs| && a.s.pcs[t].Idle? && Heads(a.cfg, a.s, t, heads)
    requires c < |heads| && Suits(a.cfg, c, align, size) && a.cfg.move[c] > 0
    modifies a`s
    ensures a.Valid() && !r.Null? && !r.Stops?
    ensures r.Fetch? <==> old(a.s).lists[t][c] == []
    ensures r.Fetch? ==> r.c == c && Step(a.cfg, old(a.s), a.s, t, Remove(c, a.cfg.move[c]))
    ensures r.At? ==> Step(a.cfg, old(a.s), a.s, t, Malloc(c)) && b == Small(old(a.s).lists[t][c][0])
    ensures r.At? ==> r.address > 0 && r.address % align == 0 && Given(a.cfg, old(a.s), a.s, b, r.address, size)
    ensures FromList(a.cfg, old(a.s), t, c, r, b)
  {
    hide Allocator.Sound, Inv, Tied, First, End, Live, Step, Given;
    r, b := PopHead(a, t, c, heads, align, size);
    if r.Null? {
      Ready(a.cfg, a.s, t, c);
      a.Move(t, Remove(c, a.cfg.move[c]));
      r := Answer.Fetch(c);
    }
  }

  /** A run of pages that a thread has just been given. */
  lemma RunGiven(cfg: Config, s: State, s2: State, t: nat, n: nat, sp: nat, size: nat)
    requires Step(cfg, s, s2, t, NewPages(n, sp)) && sp !in s.taken && size <= n * PAGE_SIZE
    ensures Given(cfg, s, s2, Large(sp), sp * PAGE_SIZE, size)
  {
  }

  lemma RunIsShort(cfg: Config, s: State, s2: State, t: nat, n: nat, sp: nat, size: nat)
    requires Step(cfg, s, s2, t, NewPages(n, sp)) && n == PagesFor(C.Wanted(size))
    ensures FewPages(s2, Large(sp), size)
  {
  }

  /** The page heap's part of the page branches of do_memalign. */
  method HeapMemalign(a: Allocator, words: nat, align: nat, size: nat, first: nat, second: nat, leaves: set<nat>)
    returns (r: Reply)
    requires a.Sound() && Below(a.heap.books.h, a.cfg.top) && PowerOfTwo(align) && 0 < size
    requires IsWidth(words) && size + align < words && a.Grantable(MemalignAsk(words, align, size), first, second)
    modifies a.heap, a.heap.lists, a.heap.repr
    ensures r.Null? <==> old(a.NoPages(MemalignAsk(words, align, size), first, second, leaves))
    ensures Counts(words, align, size) ==> !r.Fault?
    ensures Counts(words, align, size) || r.Null? ==>
              a.Sound() && L.Tiled(a.heap.books.h) && Below(a.heap.books.h, a.cfg.top)
    ensures r.Null? ==> L.Used(a.heap.books.h) == L.Used(old(a.heap.books).h)
    ensures Counts(words, align, size) && r.Run? ==>
              var sp := r.address / PAGE_SIZE;
              && r.address > 0 && r.address % align == 0 && r.address % PAGE_SIZE == 0
              && sp !in L.Used(old(a.heap.books).h)
              && L.Used(a.heap.books.h) == L.Used(old(a.heap.books).h)[sp := L.Block(PagesFor(size), false, 0)]
  {
    hide PageHeap.Valid, PageHeap.Fails, PageHeap.MayGrant, L.Within, L.Used, L.Tiled, L.Coalesced, L.PagesKept, Below;
    hide PagesFor, Rounded, Counts, MemalignAsk, SpanLists.FreeLists.Valid;
    ghost var was := a.heap.books;
    ghost var (p, m) := PageHeap.Granted(MemalignAsk(words, align, size), first, second);
    a.Before(was, {});
    ghost var span;
    label before:
    r, span := MemalignPages(a.heap, words, align, size, first, second, leaves);
    assert unchanged@before(a.sampled, a.sampled.links.nodes);
    assert forall c :: c in L.Used(was.h) ==> a.Still(was, c);
    assert a.ListStill(was);
    hide Allocator.Still, Allocator.ListStill;
    PageHeapCycles.LayoutOf(a.heap);
    BelowWithin(was.h, a.heap.books.h, p, m, a.cfg.top);
    if r.Null? {
      a.DetachedStill(was, 0, null);
      a.TracedStill(was);
    } else if Counts(words, align, size) {
      StartOf(a.heap, span);
      a.NotListed(was, span);
      a.DetachedStill(was, r.address / PAGE_SIZE, span);
      a.TracedStill(was);
    }
  }

  /**
   The page branches of do_memalign: an aligned run of pages becomes the thread's, if the
   number of pages survives.
   */
  method AlignedRun(a: Allocator, words: nat, t: nat, align: nat, size: nat, first: nat, second: nat, leaves: set<nat>)
    returns (r: Reply)
    requires a.Valid() && t < |a.s.pcs| && a.s.pcs[t].Idle? && PowerOfTwo(align) && 0 < size
    requires IsWidth(words) && size + align < words && a.Grantable(MemalignAsk(words, align, size), first, second)
    modifies a`s, a.heap, a.heap.lists, a.heap.repr
    ensures r.Null? <==> old(a.NoPages(MemalignAsk(words, align, size), first, second, leaves))
    ensures r.Null? ==> a.s == old(a.s)
    ensures Counts(words, align, size) || r.Null? ==> a.Valid() && !r.Fault?
    ensures Counts(words, align, size) && r.Run? ==>
              && r.address > 0 && r.address % align == 0 && r.address % PAGE_SIZE == 0
              && r.address / PAGE_SIZE !in old(a.s).taken
              && Step(a.cfg, old(a.s), a.s, t, NewPages(PagesFor(size), r.address / PAGE_SIZE))
  {
    hide Allocator.Sound, Allocator.NoPages, Allocator.Grantable, Inv, L.Used, L.Tiled, Vacant, Leased, Below, Step;
    hide PagesFor, Rounded, Counts, MemalignAsk;
    ghost var h := a.heap.books.h;
    r := HeapMemalign(a, words, align, size, first, second, leaves);
    if Counts(words, align, size) && r.Run? {
      ghost var sp := r.address / PAGE_SIZE;
      NotTaken(a.cfg, h, a.s.taken, sp);
      TiedMore(a.cfg, h, a.heap.books.h, a.s.taken, sp, ForPages(PagesFor(size)));
      a.Go(TakeRun(a.cfg, a.s, t, PagesFor(size), sp));
    }
  }

  lemma Moves(a: Allocator, t: nat, last: nat)
    requires a.Valid() && t < |a.s.lists| && SizeClasses.Table(a.cfg.size, last)
    ensures |a.cfg.size| == |a.cfg.move| == |a.s.lists[t]| && forall c :: 0 < c <= last ==> a.cfg.move[c] > 0
  {
    hide Allocator.Sound, Tied;
    Parts(a.cfg, a.s);
    Lengths(a.cfg, a.s);
  }

  /** SizeClass, for the size of an object that a thread asks for. */
  method ClassFor(a: Allocator, tables: C.SizeTables, t: nat, size: nat) returns (cl: nat)
    requires a.Valid() && t < |a.s.lists| && HasTables(a.cfg, tables) && size <= SizeClasses.MAX_SIZE
    ensures a.Valid() && SizeClasses.Table(a.cfg.size, C.LAST) && 0 < cl <= C.LAST < |a.cfg.size|
    ensures C.Wanted(size) <= a.cfg.size[cl]
    ensures forall d :: 0 < d < cl ==> a.cfg.size[d] < C.Wanted(size)
    ensures |a.cfg.size| == |a.cfg.move| == |a.s.lists[t]| && forall c :: 0 < c <= C.LAST ==> a.cfg.move[c] > 0
  {
    hide Allocator.Sound, Inv, Tied;
    tables.IsTable();
    Moves(a, t, C.LAST);
    label before:
    cl := tables.SizeClass(size);
    assert unchanged@before(a, a.heap, a.heap.lists, a.heap.repr, a.heap.lists.links.nodes);
    assert unchanged@before(a.sampled, a.sampled.links.nodes);
  }

  /** The class search of do_memalign and the SizeClass of Allocate that follows: they agree. */
  method AlignedClassFor(a: Allocator, tables: C.SizeTables, t: nat, size: nat, align: nat) returns (c: nat)
    requires a.Valid() && t < |a.s.lists| && HasTables(a.cfg, tables) && size <= SizeClasses.MAX_SIZE
    requires PowerOfTwo(align) && align < PAGE_SIZE
    ensures a.Valid() && |a.cfg.size| == |a.cfg.move| == |a.s.lists[t]|
    ensures c < |a.cfg.size| && Suits(a.cfg, c, align, C.Wanted(size)) && a.cfg.move[c] > 0
    ensures SizeClasses.Table(a.cfg.size, C.LAST) && c <= C.LAST && FirstFor(a.cfg, c, size, align)
  {
    hide Allocator.Sound, Inv, Tied, C.SizeTables.Filled, SizeClasses.Table;
    var cl := ClassFor(a, tables, t, size);
    label before:
    var aligned := SizeClasses.AlignedClass(a.cfg.size, C.LAST, cl, align);
    assert unchanged@before(a, a.heap, a.heap.lists, a.heap.repr, a.heap.lists.links.nodes);
    assert unchanged@before(a.sampled, a.sampled.links.nodes);
    Longest(a.cfg.size, aligned);
    c := ClassFor(a, tables, t, a.cfg.size[aligned]);
    SameClass(a.cfg.size, aligned, c);
    forall d | 0 < d < c && C.Wanted(size) <= a.cfg.size[d] ensures a.cfg.size[d] % align != 0 { assert cl <= d; }
    FirstIs(a.cfg, c, size, align);
  }

  lemma FirstIs(cfg: Config, c: nat, size: nat, align: nat)
    requires SizeClasses.Table(cfg.size, C.LAST) && c <= C.LAST && Suits(cfg, c, align, C.Wanted(size))
    requires forall d :: 0 < d < c && C.Wanted(size) <= cfg.size[d] ==> cfg.size[d] % align != 0
    ensures FirstFor(cfg, c, size, align)
  {
  }

  lemma Longest(sizes: seq<nat>, c: nat)
    requires SizeClasses.Table(sizes, C.LAST) && 0 < c <= C.LAST
    ensures 0 < sizes[c] <= SizeClasses.MAX_SIZE
  {
  }

  /** The first class that is long enough for the size of a class is that class. */
  lemma SameClass(sizes: seq<nat>, c: nat, d: nat)
    requires SizeClasses.Table(sizes, C.LAST) && 0 < c <= C.LAST && 0 < d <= C.LAST
    requires sizes[c] <= sizes[d] && forall e :: 0 < e < d ==> sizes[e] < sizes[c]
    ensures c == d
  {
  }

  /** Does do_memalign look for an aligned class? */
  predicate ByClass(align: nat, size: nat) { C.Wanted(size) <= SizeClasses.MAX_SIZE && align < PAGE_SIZE }

  /**
   do_memalign in words of 32 or 64 bits. NULL comes back, and nothing changes, exactly if
   size + align wraps around or the page heap has no pages to give. Else the block is
   aligned, has the bytes asked for and was nobody's, whenever the number of pages survives
   as an int. Where the list of the class is empty the call goes on in RemoveRange, and then
   in PopHead.
   */
  method DoMemalign(a: Allocator, words: nat, t: nat, align: nat, size: nat, tables: C.SizeTables, heads: seq<nat>,
                    first: nat, second: nat, leaves: set<nat>)
    returns (r: Answer, ghost b: Block, ghost c: nat)
    requires a.Valid() && t < |a.s.pcs| && a.s.pcs[t].Idle? && Heads(a.cfg, a.s, t, heads) && HasTables(a.cfg, tables)
    requires IsWidth(words) && PowerOfTwo(align) && align <= words / 2 && size < words
    requires size + align < words && !ByClass(align, size) ==>
               a.Grantable(MemalignAsk(words, align, C.Wanted(size)), first, second)
    modifies a`s, a.heap, a.heap.lists, a.heap.repr
    ensures r.Null? <==>
              || size + align >= words
              || (!ByClass(align, size)
                  && old(a.NoPages(MemalignAsk(words, align, C.Wanted(size)), first, second, leaves)))
    ensures r.Null? ==> a.Valid() && a.s == old(a.s)
    ensures r.Fetch? ==>
              && a.Valid() && ByClass(align, size) && Suits(a.cfg, r.c, align, C.Wanted(size))
              && Step(a.cfg, old(a.s), a.s, t, Remove(r.c, a.cfg.move[r.c]))
    ensures size + align < words && Counts(words, align, C.Wanted(size)) ==> a.Valid() && !r.Stops?
    ensures size + align < words && Counts(words, align, C.Wanted(size)) && r.At? ==>
              r.address > 0 && r.address % align == 0 && Given(a.cfg, old(a.s), a.s, b, r.address, C.Wanted(size))
    ensures size + align < words && size <= SizeClasses.MAX_SIZE && align < PAGE_SIZE ==>
              FirstFor(a.cfg, c, size, align) && FromList(a.cfg, old(a.s), t, c, r, b)
    ensures size + align < words && Counts(words, align, C.Wanted(size)) && r.At?
            && (size > SizeClasses.MAX_SIZE || align >= PAGE_SIZE) ==>
              FewPages(a.s, b, size)
  {
    hide Allocator.Sound, Allocator.NoPages, Allocator.Grantable, Inv, Tied, First, End, Live, Step, Given;
    hide PagesFor, L.Covered, PowerOfTwo, C.SizeTables.Filled, Counts, MemalignAsk, Rounded;
    b, c := Large(0), 0;
    if size + align >= words {
      return Answer.Null, b, c;
    }
    var bytes := C.Wanted(size);
    if bytes <= SizeClasses.MAX_SIZE && align < PAGE_SIZE {
      var cl := AlignedClassFor(a, tables, t, bytes, align);
      r, b := FromClass(a, t, cl, heads, align, bytes);
      c := cl;
      return;
    }
    ghost var s := a.s;
    var run := AlignedRun(a, words, t, align, bytes, first, second, leaves);
    match run
    case Null => r := Answer.Null;
    case Fault => r := Stops;
    case Run(address) =>
      r, b := At(address), Large(address / PAGE_SIZE);
      if Counts(words, align, bytes) {
        RunGiven(a.cfg, s, a.s, t, PagesFor(bytes), address / PAGE_SIZE, bytes);
        RunIsShort(a.cfg, s, a.s, t, PagesFor(bytes), address / PAGE_SIZE, size);
      }
  }

  lemma EightIsPower()
    ensures PowerOfTwo(8)
  {
  }

  lemma PageAddress(sp: nat)
    requires sp != 0
    ensures sp * PAGE_SIZE > 0 && (sp * PAGE_SIZE) % 8 == 0
  {
    MultipleOfMultiple(sp, PAGE_SIZE, 8);
  }

  /** The descriptor of the run is marked as sampled, or not. */
  ghost predicate MarkedAs(a: Allocator, b: Block, mark: bool)
    reads a.heap, a.heap.repr
  {
    && b.Large? && b.sp in a.heap.pagemap && a.heap.pagemap[b.sp] != null && a.heap.pagemap[b.sp] in a.heap.repr
    && a.heap.pagemap[b.sp].sample == mark
  }

  lemma NothingAsked(a: Allocator, first: nat, second: nat, leaves: set<nat>)
    ensures a.NoPages(0, first, second, leaves)
  {
  }

  lemma CoversAll(size: nat, words: nat)
    requires IsWidth(words) && size < words && Rounded(size, words) != 0
    ensures size <= Rounded(size, words) * PAGE_SIZE && Rounded(size, words) == PagesFor(size)
  {
  }

  /**
   do_malloc: the same promise, with the alignment all classes have. A sampled allocation
   gets pages of its own whatever its size is, and is put on the list of sampled ones if
   there is memory for its stack trace.
   */
  method DoMalloc(a: Allocator, words: nat, t: nat, size: nat, sampling: bool, traced: bool, tables: C.SizeTables,
                  heads: seq<nat>, first: nat, second: nat, leaves: set<nat>)
    returns (r: Answer, ghost b: Block, ghost c: nat)
    requires a.Valid() && t < |a.s.pcs| && a.s.pcs[t].Idle? && Heads(a.cfg, a.s, t, heads) && HasTables(a.cfg, tables)
    requires IsWidth(words) && size < words
    requires ByPages(sampling, size) ==> a.Grantable(Rounded(C.Wanted(size), words), first, second)
    modifies a`s, a.heap, a.heap.lists, a.heap.repr, a.sampled, a.sampled.links.nodes`next, a.sampled.links.nodes`prev
    ensures a.Valid() && !r.Stops?
    ensures r.Null? <==>
              ByPages(sampling, size) && old(a.NoPages(Rounded(C.Wanted(size), words), first, second, leaves))
    ensures r.Null? ==> a.s == old(a.s)
    ensures r.Fetch? ==>
              && !ByPages(sampling, size) && Suits(a.cfg, r.c, 8, C.Wanted(size))
              && Step(a.cfg, old(a.s), a.s, t, Remove(r.c, a.cfg.move[r.c]))
    ensures r.At? ==> r.address > 0 && r.address % 8 == 0 && Given(a.cfg, old(a.s), a.s, b, r.address, C.Wanted(size))
    ensures r.At? && ByPages(sampling, size) ==> MarkedAs(a, b, sampling && traced)
    ensures !sampling && size <= SizeClasses.MAX_SIZE ==>
              FirstFor(a.cfg, c, size, 1) && FromList(a.cfg, old(a.s), t, c, r, b)
    ensures (sampling || size > SizeClasses.MAX_SIZE) && r.At? ==> FewPages(a.s, b, size)
  {
    hide Allocator.Sound, Allocator.NoPages, Allocator.Grantable, Inv, Tied, First, End, Live, Step, Given;
    hide PagesFor, L.Covered, PowerOfTwo, C.SizeTables.Filled, Rounded;
    b, c := Large(0), 0;
    EightIsPower();
    if !sampling && size <= SizeClasses.MAX_SIZE {
      var cl := ClassFor(a, tables, t, size);
      r, b := FromClass(a, t, cl, heads, 8, C.Wanted(size));
      c := cl;
      return;
    }
    ghost var s := a.s;
    var n := Rounded(C.Wanted(size), words);
    if n == 0 { NothingAsked(a, first, second, leaves); } else { CoversAll(C.Wanted(size), words); }
    var sp := a.NewRun(t, n, first, second, leaves);
    if sp == 0 {
      return Answer.Null, b, c;
    }
    b := Large(sp);
    RunGiven(a.cfg, s, a.s, t, n, sp, C.Wanted(size));
    RunIsShort(a.cfg, s, a.s, t, n, sp, size);
    PageAddress(sp);
    a.FreeFindsRun(sp);
    if sampling && traced {
      a.MarkSampled(sp);
    }
    return At(sp * PAGE_SIZE), b, c;
  }

  /** Does do_malloc go to the page heap? */
  predicate ByPages(sampling: bool, size: nat) { sampling || size > SizeClasses.MAX_SIZE }
}
