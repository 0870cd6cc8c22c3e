/**
 The whole allocator: the page heap and, on top of it, the central free lists and the
 thread caches. Each method is a step in which they meet; `s` says where all threads stand.
 */
module Allocators {
  import opened Arith
  import opened Basics
  import opened CentralState
  import opened CentralSteps
  import opened CentralSafety
  import opened CentralSpans
  import opened CentralThreads
  import opened CentralRuns
  import opened CentralTheorems
  import opened CentralAccounts
  import opened Leases
  import SpanLists
  import L = PageLayout
  import B = HeapBooks
  import T = BoundaryTags
  import opened PageHeaps
  import PageHeapCycles

  /** Thread t takes the step that leads from s to s2. */
  ghost predicate Step(cfg: Config, s: State, s2: State, t: nat, a: Action) {
    Shaped(cfg, s) && Enabled(cfg, s, t, a) && s2 == After(cfg, s, t, a)
  }

  lemma RunTaken(cfg: Config, s: State, t: nat, n: nat, sp: nat)
    requires Inv(cfg, s) && t < |s.pcs| && s.pcs[t].Idle? && Vacant(cfg, s.taken, sp, n)
    ensures Inv(cfg, NewPagesStep(s, n, sp)) && Step(cfg, s, NewPagesStep(s, n, sp), t, NewPages(n, sp))
  {
    hide Inv, LocksKept, CapacityKept, SlotsKept, ClassKept, Owned, SpansKept, ListsKept, TakenKept, UnusedKept;
    hide PrivateKept, HandsKept, AllKept, CountsKept, CapOf, Vacant;
    Parts(cfg, s);
    Lengths(cfg, s);
    StepKeeps(cfg, s, t, NewPages(n, sp));
  }

  ghost function TakeRun(cfg: Config, s: State, t: nat, n: nat, sp: nat): (s2: State)
    requires Inv(cfg, s) && t < |s.pcs| && s.pcs[t].Idle? && Vacant(cfg, s.taken, sp, n)
    ensures Inv(cfg, s2) && Step(cfg, s, s2, t, NewPages(n, sp))
    ensures s2.taken == s.taken[sp := ForPages(n)]
  {
    RunTaken(cfg, s, t, n, sp);
    NewPagesStep(s, n, sp)
  }

  lemma RunDropped(cfg: Config, s: State, t: nat, sp: nat)
    requires Inv(cfg, s) && t < |s.pcs| && s.pcs[t].Idle? && sp in s.taken && s.taken[sp].ForPages?
    ensures Inv(cfg, DeletePagesStep(s, sp)) && Step(cfg, s, DeletePagesStep(s, sp), t, DeletePages(sp))
  {
    hide Inv, LocksKept, CapacityKept, SlotsKept, ClassKept, Owned, SpansKept, ListsKept, TakenKept, UnusedKept;
    hide PrivateKept, HandsKept, AllKept, CountsKept, CapOf, Vacant;
    Parts(cfg, s);
    Lengths(cfg, s);
    StepKeeps(cfg, s, t, DeletePages(sp));
  }

  ghost function DropRun(cfg: Config, s: State, t: nat, sp: nat): (s2: State)
    requires Inv(cfg, s) && t < |s.pcs| && s.pcs[t].Idle? && sp in s.taken && s.taken[sp].ForPages?
    ensures Inv(cfg, s2) && Step(cfg, s, s2, t, DeletePages(sp))
    ensures s2.taken == s.taken - {sp}
  {
    RunDropped(cfg, s, t, sp);
    DeletePagesStep(s, sp)
  }

  lemma SpanTaken(cfg: Config, s: State, t: nat, c: nat, page: Option<nat>)
    requires Inv(cfg, s) && t < |s.pcs| && s.pcs[t].PopNew? && s.pcs[t].c == c < |cfg.pages|
    requires page.Some? ==> Vacant(cfg, s.taken, page.value, cfg.pages[c])
    ensures Inv(cfg, PopNewStep(s, t, c, s.pcs[t].n, page))
    ensures Step(cfg, s, PopNewStep(s, t, c, s.pcs[t].n, page), t, Work(Choice(0, true, page)))
  {
    hide Inv, LocksKept, CapacityKept, SlotsKept, ClassKept, Owned, SpansKept, ListsKept, TakenKept, UnusedKept;
    hide PrivateKept, HandsKept, AllKept, CountsKept, CapOf, Vacant;
    Parts(cfg, s);
    Lengths(cfg, s);
    StepKeeps(cfg, s, t, Work(Choice(0, true, page)));
  }

  ghost function TakeSpan(cfg: Config, s: State, t: nat, c: nat, page: Option<nat>): (s2: State)
    requires Inv(cfg, s) && t < |s.pcs| && s.pcs[t].PopNew? && s.pcs[t].c == c < |cfg.pages|
    requires page.Some? ==> Vacant(cfg, s.taken, page.value, cfg.pages[c])
    ensures Inv(cfg, s2) && Step(cfg, s, s2, t, Work(Choice(0, true, page)))
    ensures s2.taken == if page.Some? then s.taken[page.value := ForClass(c)] else s.taken
  {
    SpanTaken(cfg, s, t, c, page);
    PopNewStep(s, t, c, s.pcs[t].n, page)
  }

  lemma SpanDropped(cfg: Config, s: State, t: nat)
    requires Inv(cfg, s) && t < |s.pcs| && s.pcs[t].Gone?
    ensures Inv(cfg, GoneStep(s, t, s.pcs[t].l, s.pcs[t].rest, s.pcs[t].k, s.pcs[t].sp))
    ensures Step(cfg, s, GoneStep(s, t, s.pcs[t].l, s.pcs[t].rest, s.pcs[t].k, s.pcs[t].sp), t,
                 Work(Choice(0, true, None)))
  {
    hide Inv, LocksKept, CapacityKept, SlotsKept, ClassKept, Owned, SpansKept, ListsKept, TakenKept, UnusedKept;
    hide PrivateKept, HandsKept, AllKept, CountsKept, CapOf, Vacant;
    Parts(cfg, s);
    Lengths(cfg, s);
    StepKeeps(cfg, s, t, Work(Choice(0, true, None)));
  }

  ghost function DropSpan(cfg: Config, s: State, t: nat): (s2: State)
    requires Inv(cfg, s) && t < |s.pcs| && s.pcs[t].Gone?
    ensures Inv(cfg, s2) && Step(cfg, s, s2, t, Work(Choice(0, true, None)))
    ensures s2.taken == s.taken - {s.pcs[t].sp}
  {
    SpanDropped(cfg, s, t);
    GoneStep(s, t, s.pcs[t].l, s.pcs[t].rest, s.pcs[t].k, s.pcs[t].sp)
  }

  lemma ObjectPutBack(cfg: Config, s: State, t: nat, o: Obj)
    requires Inv(cfg, s) && t < |s.pcs| && s.pcs[t].Idle? && t < |s.lists| && Live(s, Small(o))
    ensures o.span in s.spans && s.spans[o.span].cl < |s.lists[t]|
    ensures Inv(cfg, FreeStep(s, t, o)) && Step(cfg, s, FreeStep(s, t, o), t, Free(o))
  {
    hide Inv, LocksKept, CapacityKept, SlotsKept, ClassKept, Owned, SpansKept, ListsKept, TakenKept, UnusedKept;
    hide PrivateKept, HandsKept, AllKept, CountsKept, CapOf;
    Parts(cfg, s);
    Lengths(cfg, s);
    SpanOfLive(cfg, s, o);
    StepKeeps(cfg, s, t, Free(o));
  }

  ghost function PutBack(cfg: Config, s: State, t: nat, o: Obj): (s2: State)
    requires Inv(cfg, s) && t < |s.pcs| && s.pcs[t].Idle? && t < |s.lists| && Live(s, Small(o))
    ensures Inv(cfg, s2) && Step(cfg, s, s2, t, Free(o)) && s2.taken == s.taken
    ensures o.span in s.spans && s.spans[o.span].cl < |s.lists[t]|
    ensures var c := s.spans[o.span].cl; s2.lists == s.lists[t := s.lists[t][c := [o] + s.lists[t][c]]]
  {
    ObjectPutBack(cfg, s, t, o);
    FreeStep(s, t, o)
  }

  /** The steps in which pages come from the page heap or go to it. */
  ghost predicate TradesPages(s: State, t: nat, a: Action) {
    || a.NewPages? || a.DeletePages?
    || (a.Work? && t < |s.pcs| && (s.pcs[t].Gone? || (s.pcs[t].PopNew? && a.choice.page.Some?)))
  }

  lemma SameLeases(cfg: Config, s: State, t: nat, a: Action)
    requires Shaped(cfg, s) && Enabled(cfg, s, t, a) && !TradesPages(s, t, a)
    ensures After(cfg, s, t, a).taken == s.taken
  {
    hide CapOf, PcShaped, OthersWait;
    hide InsTestStep, EvictStep, ShrinkStep, BackStep, ReleasedStep, ReleaseStep, RemTestStep, FetchStep, PopLinkStep;
  }

  /** A span on its way back is still leased for its class. */
  lemma GoneHas(cfg: Config, s: State, t: nat)
    requires Inv(cfg, s) && t < |s.pcs| && s.pcs[t].Gone?
    ensures s.pcs[t].sp in s.taken && s.taken[s.pcs[t].sp] == ForClass(s.pcs[t].l) && 0 < s.pcs[t].l < cfg.classes
  {
    hide CapOf;
    assert PrivateOne(s.pcs[t], s.spans, s.taken);
    LeasedClass(cfg, s.taken, s.pcs[t].sp);
  }

  /** What the page heap knows of the block at page a. */
  lemma DescriptorOf(heap: PageHeap, a: nat)
    requires heap.Valid() && a in heap.books.h
    ensures a in heap.books.at && heap.books.at[a] != null && heap.books.at[a] in heap.books.home
    ensures var d: SpanLists.Span := heap.books.at[a];
            && heap.books.home[d] == a && d in heap.repr && d.start == a && a > 0
            && heap.books.h[a] == L.Block(d.length, d.free, d.sizeclass)
            && a in heap.pagemap && heap.pagemap[a] == d
            && (d.sizeclass != 0 ==> forall q :: a <= q < a + d.length ==> q in heap.pagemap && heap.pagemap[q] == d)
    ensures forall d :: d in heap.books.home && d != null && heap.books.home[d] == a ==> d == heap.books.at[a]
  {
    hide L.Tiled, L.Total, L.Coalesced, SpanLists.FreeLists.Valid;
    assert heap.books.BlockHomed(a) && T.BlockTags(heap.books.h, heap.books.at, heap.books.tags, a);
    var d: SpanLists.Span := heap.books.at[a];
    heap.books.OneHome(d, null);
    if d.sizeclass != 0 {
      forall q | a <= q < a + d.length
        ensures q in heap.pagemap && heap.pagemap[q] == d
      {
        assert T.TagIs(heap.books.tags, q, d);
      }
    }
  }

  lemma StartOf(heap: PageHeap, span: SpanLists.Span)
    requires heap.Valid() && span in heap.books.home
    ensures heap.books.home[span] == span.start > 0 && span.start in heap.books.h && span in heap.repr
  {
    heap.AboutSpan(span, null);
  }

  /** New and RegisterSizeClass under one lock: n pages for class c, or NULL. */
  method NewClassSpan(heap: PageHeap, n: nat, c: nat, first: nat, second: nat, leaves: set<nat>)
    returns (span: SpanLists.Span?)
    requires heap.Valid() && n > 0 && PageHeap.MayGrant(heap.books.h, n, first, second)
    modifies heap, heap.lists, heap.repr
    ensures heap.Valid() && fresh(heap.repr - old(heap.repr)) && heap.UsersUndisturbed()
    ensures var (p, m) := PageHeap.Granted(n, first, second); L.Within(old(heap.books).h, heap.books.h, p, m)
    ensures span == null <==> PageHeap.Fails(old(heap.books).h, old(heap.pagemap), n, first, second, leaves)
    ensures span == null ==> L.Used(heap.books.h) == L.Used(old(heap.books).h)
    ensures span != null ==>
              && span in heap.books.home && span.next == null && span.prev == null && !span.sample
              && span.start !in L.Used(old(heap.books).h)
              && (span !in old(heap.books).home || old(heap.books).Free(span))
              && L.Used(heap.books.h) == L.Used(old(heap.books).h)[span.start := L.Block(n, false, c)]
  {
    hide PageHeap.Valid, PageHeap.Fails, PageHeap.MayGrant, L.Within, L.Used, L.Tiled, L.Coalesced, L.SamePages;
    hide L.Carved, L.Grown;
    ghost var h := heap.books.h;
    ghost var (p, m) := PageHeap.Granted(n, first, second);
    span := heap.New(n, first, second, leaves);
    if span != null {
      StartOf(heap, span);
      ghost var h1 := heap.books.h;
      heap.RegisterSizeClass(span, c);
      L.SameWithin(h, h1, heap.books.h, p, m);
    }
  }

  class Allocator {
    const cfg: Config
    const heap: PageHeap
    /** sampled_objects; the other of the two lists is not used. */
    const sampled: SpanLists.FreeLists
    ghost var s: State

    /** A span in use is linked, on the list of sampled ones, exactly if it is marked as sampled. */
    ghost predicate Marked(d: SpanLists.Span)
      reads sampled, d
    {
      && d.sample == (d in sampled.links.bin)
      && (!d.sample ==> d.next == null && d.prev == null)
    }

    /** So are all spans in use, but for those at some pages. */
    ghost predicate Detached(but: set<nat>)
      reads heap, heap.repr, sampled
    {
      forall a {:trigger a in L.Used(heap.books.h)} :: a in L.Used(heap.books.h) && a !in but ==>
        && a in heap.books.at && heap.books.at[a] != null && heap.books.at[a] in heap.repr
        && Marked(heap.books.at[a])
    }

    /** x describes a block in use that is of no size class. */
    ghost predicate RunOf(books: B.Books, x: SpanLists.Span) {
      && x in books.home && books.home[x] in L.Used(books.h) && books.h[books.home[x]].cl == 0
      && books.home[x] in books.at && books.at[books.home[x]] == x
    }

    /** The list of sampled spans is in order, and made of spans in use. */
    ghost predicate Traced()
      reads heap, sampled, sampled.links.nodes
    {
      && sampled.Valid() && |sampled.heads| == 2 && sampled != heap.lists
      && forall x :: x in sampled.links.nodes ==>
           if x in sampled.links.bin then sampled.links.bin[x] == 0 && RunOf(heap.books, x) else x !in heap.repr
    }

    /** Both layers are in order, and agree on what is in use. */
    ghost predicate Valid()
      reads this, heap, heap.lists, heap.repr, heap.lists.links.nodes, sampled, sampled.links.nodes
    {
      Sound() && Inv(cfg, s) && Tied(cfg, heap.books.h, s.taken)
    }

    /** The page heap and the list of sampled spans are in order. */
    ghost predicate Sound()
      reads heap, heap.lists, heap.repr, heap.lists.links.nodes, sampled, sampled.links.nodes
    {
      heap.Valid() && Detached({}) && Traced()
    }

    constructor (cfg: Config, threads: nat)
      requires cfg.Valid()
      ensures Valid() && this.cfg == cfg && Initial(cfg, s) && |s.pcs| == threads
    {
      hide SpanLists.FreeLists.Valid, B.Books.Balanced, L.Coalesced, L.Total, Inv, Initial, Config.Valid;
      this.cfg := cfg;
      heap := new PageHeap();
      sampled := new SpanLists.FreeLists(2);
      ghost var t := FirstState(cfg, threads);
      s := t;
      new;
      StartsEmpty(cfg, s);
      NothingTaken(cfg);
    }

    /** A lease of the central lists is a block of the page heap, with its descriptor in the page map. */
    lemma LeaseHas(a: nat)
      requires Valid() && a in s.taken
      ensures a in heap.books.h && heap.books.h[a] == BlockOf(cfg, s.taken[a])
      ensures a > 0 && a in heap.pagemap && heap.pagemap[a] != null
      ensures var d := heap.pagemap[a];
              && d in heap.books.home && heap.books.home[d] == a && d in heap.repr
              && d.start == a && d.length == Pages(cfg, s.taken[a]) && !d.free
              && d.sizeclass == (if s.taken[a].ForClass? then s.taken[a].c else 0)
              && Marked(d) && (d.sizeclass != 0 ==> !d.sample)
              && (d.sizeclass != 0 ==> forall q :: a <= q < a + d.length ==> q in heap.pagemap && heap.pagemap[q] == d)
    {
      hide PageHeap.Valid, Inv;
      assert a in Leased(cfg, s.taken) && a in L.Used(heap.books.h);
      DescriptorOf(heap, a);
    }

    /**
     do_free finds the span of an object: the page map leads from the page of any byte of a
     live object to a descriptor in use that starts where the object's span does and has the
     class of its central list.
     */
    lemma FreeFindsDescriptor(o: Obj, address: nat)
      requires Valid() && Live(s, Small(o)) && First(cfg, s, Small(o)) <= address < End(cfg, s, Small(o))
      ensures address / PAGE_SIZE in heap.pagemap && heap.pagemap[address / PAGE_SIZE] != null
      ensures var d := heap.pagemap[address / PAGE_SIZE];
              && d.start == o.span && !d.free && o.span in s.spans
              && d.sizeclass == s.spans[o.span].cl && 0 < d.sizeclass < cfg.classes
    {
      hide PageHeap.Valid, Inv, First, End;
      LiveInside(cfg, s, Small(o));
      LeaseHas(o.span);
      ClassOfLease(cfg, s, o.span);
      assert o.span <= address / PAGE_SIZE < o.span + Pages(cfg, s.taken[o.span]);
    }

    /** The same for a block made of whole pages, whose address is that of its first page. */
    lemma FreeFindsRun(sp: nat)
      requires Valid() && Live(s, Large(sp))
      ensures sp in heap.pagemap && heap.pagemap[sp] != null
      ensures heap.pagemap[sp].start == sp && !heap.pagemap[sp].free && heap.pagemap[sp].sizeclass == 0
    {
      hide PageHeap.Valid, Inv;
      LeaseHas(sp);
    }

    /** Where the page heap gives NULL for n pages. */
    ghost predicate NoPages(n: nat, first: nat, second: nat, leaves: set<nat>)
      reads heap
    {
      PageHeap.Fails(heap.books.h, heap.pagemap, n, first, second, leaves)
    }

    /** What the system grants lies below the top, and no block has it. */
    ghost predicate Grantable(n: nat, first: nat, second: nat)
      reads this, heap
    {
      var (p, m) := PageHeap.Granted(n, first, second);
      p + m <= cfg.top && PageHeap.MayGrant(heap.books.h, n, first, second)
    }

    /** The descriptor of a block that was in use still is, for the same block, and linked as it was. */
    ghost predicate Still(was: B.Books, a: nat)
      reads heap, heap.repr, sampled
    {
      && a in was.at && was.at[a] != null && was.at[a] in heap.repr && was.at[a] in heap.books.home
      && heap.books.home[was.at[a]] == a && !heap.books.Free(was.at[a])
      && a in was.h && was.at[a].sizeclass == was.h[a].cl && Marked(was.at[a])
    }

    lemma Before(was: B.Books, but: set<nat>)
      requires heap.Valid() && Detached(but) && was == heap.books
      ensures L.Tiled(was.h)
      ensures forall a :: a in L.Used(was.h) && a !in but ==>
                Still(was, a) && was.at[a] in was.home && was.home[was.at[a]] == a && !was.Free(was.at[a])
    {
      PageHeapCycles.LayoutOf(heap);
      hide PageHeap.Valid;
      forall a | a in L.Used(was.h) && a !in but
        ensures Still(was, a) && was.at[a] in was.home && was.home[was.at[a]] == a && !was.Free(was.at[a])
      {
        DescriptorOf(heap, a);
      }
    }

    lemma DetachedStill(was: B.Books, a: nat, span: SpanLists.Span?)
      requires heap.Valid() && forall c :: c in L.Used(heap.books.h) ==> c in L.Used(was.h) || (span != null && c == a)
      requires forall c :: c in L.Used(was.h) && c in L.Used(heap.books.h) && (span == null || c != a) ==> Still(was, c)
      requires span != null ==> span in heap.books.home && heap.books.home[span] == a && Marked(span)
      ensures Detached({})
    {
      hide PageHeap.Valid, Marked;
      forall c | c in L.Used(heap.books.h)
        ensures c in heap.books.at && heap.books.at[c] != null && heap.books.at[c] in heap.repr
        ensures Marked(heap.books.at[c])
      {
        DescriptorOf(heap, c);
      }
    }

    /** Nothing on the list of sampled spans was touched. */
    ghost predicate ListStill(was: B.Books)
      reads heap, heap.repr, sampled, sampled.links.nodes
    {
      && sampled.Valid() && |sampled.heads| == 2 && sampled != heap.lists
      && forall x :: x in sampled.links.nodes ==>
           if x in sampled.links.bin then sampled.links.bin[x] == 0 && RunOf(was, x) && Still(was, was.home[x])
           else x !in heap.repr
    }

    /** A descriptor that described no block in use is not on that list. */
    lemma NotSampled(was: B.Books, x: SpanLists.Span)
      requires ListStill(was) && forall a :: a in L.Used(was.h) ==> a in was.at && !was.Free(was.at[a])
      requires x !in was.home || was.Free(x)
      ensures x !in sampled.links.bin
    {
      hide Still, L.Used;
      assert forall y :: y in sampled.links.bin ==> y in sampled.links.nodes && RunOf(was, y);
    }

    /** Neither is one whose block was not in use, whatever it described before. */
    lemma NotListed(was: B.Books, x: SpanLists.Span)
      requires heap.Valid() && ListStill(was) && x in heap.books.home && heap.books.home[x] !in L.Used(was.h)
      ensures x !in sampled.links.bin
    {
      hide PageHeap.Valid, L.Used;
      assert forall y :: y in sampled.links.bin ==>
          y in sampled.links.nodes && RunOf(was, y) && Still(was, was.home[y]);
    }

    lemma TracedStill(was: B.Books)
      requires heap.Valid() && ListStill(was)
      ensures Traced()
    {
      hide PageHeap.Valid, Marked, SpanLists.FreeLists.Valid;
      forall x | x in sampled.links.bin && x in sampled.links.nodes ensures RunOf(heap.books, x) {
        assert RunOf(was, x) && Still(was, was.home[x]);
        StartOf(heap, x);
        DescriptorOf(heap, was.home[x]);
      }
    }

    /** The threads go on; the page heap stays as it is. */
    ghost method Go(s2: State)
      requires Sound() && Inv(cfg, s2) && Tied(cfg, heap.books.h, s2.taken)
      modifies this`s
      ensures s == s2 && Valid()
    {
      hide Sound, Inv, Tied;
      label before:
      s := s2;
      assert unchanged@before(heap, heap.lists, heap.repr, heap.lists.links.nodes, sampled, sampled.links.nodes);
    }

    /** The page heap hands out n pages, or none. */
    method HeapNew(n: nat, first: nat, second: nat, leaves: set<nat>) returns (span: SpanLists.Span?)
      requires Sound() && Grantable(n, first, second) && Below(heap.books.h, cfg.top)
      modifies heap, heap.lists, heap.repr
      ensures Sound() && fresh(heap.repr - old(heap.repr)) && L.Tiled(heap.books.h) && Below(heap.books.h, cfg.top)
      ensures span == null <==> old(NoPages(n, first, second, leaves))
      ensures span == null ==> L.Used(heap.books.h) == L.Used(old(heap.books).h)
      ensures span != null ==>
                && span.start > 0 && span.start !in L.Used(old(heap.books).h)
                && L.Used(heap.books.h) == L.Used(old(heap.books).h)[span.start := L.Block(n, false, 0)]
                && Unsampled(span.start)
      ensures unchanged(sampled)
    {
      hide PageHeap.Valid, PageHeap.Fails, PageHeap.MayGrant, L.Within, L.Used, L.Tiled, L.Coalesced, Below;
      hide SpanLists.FreeLists.Valid;
      ghost var was := heap.books;
      ghost var (p, m) := PageHeap.Granted(n, first, second);
      Before(was, {});
      label before:
      span := heap.New(n, first, second, leaves);
      assert unchanged@before(sampled, sampled.links.nodes);
      assert forall c :: c in L.Used(was.h) ==> Still(was, c);
      assert ListStill(was);
      hide Still, ListStill;
      PageHeapCycles.LayoutOf(heap);
      BelowWithin(was.h, heap.books.h, p, m, cfg.top);
      if span != null {
        StartOf(heap, span);
        DescriptorOf(heap, span.start);
        NotSampled(was, span);
      }
      DetachedStill(was, if span == null then 0 else span.start, span);
      TracedStill(was);
    }

    /** The same for a span of class c. */
    method HeapNewClass(n: nat, c: nat, first: nat, second: nat, leaves: set<nat>) returns (span: SpanLists.Span?)
      requires Sound() && n > 0 && Grantable(n, first, second) && Below(heap.books.h, cfg.top)
      modifies heap, heap.lists, heap.repr
      ensures Sound() && fresh(heap.repr - old(heap.repr)) && L.Tiled(heap.books.h) && Below(heap.books.h, cfg.top)
      ensures span == null <==> old(NoPages(n, first, second, leaves))
      ensures span == null ==> L.Used(heap.books.h) == L.Used(old(heap.books).h)
      ensures span != null ==>
                && span.start > 0 && span.start !in L.Used(old(heap.books).h)
                && L.Used(heap.books.h) == L.Used(old(heap.books).h)[span.start := L.Block(n, false, c)]
    {
      hide PageHeap.Valid, PageHeap.Fails, PageHeap.MayGrant, L.Within, L.Used, L.Tiled, L.Coalesced, Below;
      hide SpanLists.FreeLists.Valid;
      ghost var was := heap.books;
      ghost var (p, m) := PageHeap.Granted(n, first, second);
      Before(was, {});
      label before:
      span := NewClassSpan(heap, n, c, first, second, leaves);
      assert unchanged@before(sampled, sampled.links.nodes);
      assert forall c :: c in L.Used(was.h) ==> Still(was, c);
      assert ListStill(was);
      hide Still, ListStill;
      PageHeapCycles.LayoutOf(heap);
      BelowWithin(was.h, heap.books.h, p, m, cfg.top);
      if span != null {
        StartOf(heap, span);
        NotSampled(was, span);
      }
      DetachedStill(was, if span == null then 0 else span.start, span);
      TracedStill(was);
    }

    /** The page heap takes back a block in use that is not sampled. */
    method HeapDelete(span: SpanLists.Span)
      requires heap.Valid() && Detached({span.start}) && Traced()
      requires span in heap.books.home && !span.free && span !in sampled.links.bin
      requires span.next == null && span.prev == null
      modifies heap, heap.lists, heap.repr
      ensures Sound() && heap.repr == old(heap.repr) && old(span.start) in old(heap.books).h && unchanged(sampled)
      ensures L.SamePages(old(heap.books).h, heap.books.h)
      ensures L.Used(heap.books.h) == L.Used(old(heap.books).h) - {old(span.start)}
    {
      hide PageHeap.Valid, L.Used, L.Tiled, L.Coalesced, L.SamePages, SpanLists.FreeLists.Valid;
      ghost var was, a := heap.books, span.start;
      StartOf(heap, span);
      Before(was, {a});
      NotOf(was, span, a);
      label before:
      heap.Delete(span);
      assert unchanged@before(sampled, sampled.links.nodes);
      assert forall c :: c in L.Used(was.h) && c != a ==> Still(was, c);
      assert ListStill(was);
      hide Still, ListStill;
      DetachedStill(was, a, null);
      TracedStill(was);
    }

    /** The spans on the list of sampled ones describe other blocks than one that is not. */
    lemma NotOf(was: B.Books, span: SpanLists.Span, a: nat)
      requires heap.Valid() && was == heap.books && Traced() && span !in sampled.links.bin
      requires span in was.home && was.home[span] == a
      ensures forall x :: x in sampled.links.bin ==> x in was.home && was.home[x] != a && x != span
      ensures forall c :: c in L.Used(was.h) && c != a && c in was.at ==> was.at[c] != span
    {
      hide PageHeap.Valid;
      assert forall x :: x in sampled.links.bin ==> x in sampled.links.nodes;
      StartOf(heap, span);
      DescriptorOf(heap, a);
      forall c | c in L.Used(was.h) && c != a && c in was.at ensures was.at[c] != span { DescriptorOf(heap, c); }
    }

    /** A step in which no pages change hands. */
    ghost method Move(t: nat, a: Action)
      requires Valid() && Shaped(cfg, s) && Enabled(cfg, s, t, a) && !TradesPages(s, t, a)
      modifies this`s
      ensures Valid() && Step(cfg, old(s), s, t, a)
    {
      hide PageHeap.Valid, Inv, Tied, Detached, After, Enabled;
      StepKeeps(cfg, s, t, a);
      SameLeases(cfg, s, t, a);
      Go(After(cfg, s, t, a));
    }

    /** The block at page sp has a descriptor, which is not marked as sampled. */
    ghost predicate Unsampled(sp: nat)
      reads heap, heap.repr
    {
      sp in heap.pagemap && heap.pagemap[sp] != null && heap.pagemap[sp] in heap.repr && !heap.pagemap[sp].sample
    }

    /** pageheap->New for a large or sampled allocation: the first page of the block, 0 for NULL. */
    method NewRun(t: nat, n: nat, first: nat, second: nat, leaves: set<nat>) returns (sp: nat)
      requires Valid() && t < |s.pcs| && s.pcs[t].Idle? && Grantable(n, first, second)
      modifies this`s, heap, heap.lists, heap.repr
      ensures Valid() && fresh(heap.repr - old(heap.repr))
      ensures sp == 0 <==> old(NoPages(n, first, second, leaves))
      ensures if sp == 0 then s == old(s) else sp !in old(s).taken && Step(cfg, old(s), s, t, NewPages(n, sp))
      ensures sp != 0 ==> Unsampled(sp) && unchanged(sampled)
    {
      hide Sound, NoPages, Grantable, Inv, L.Used, L.Tiled, Vacant, Leased, Below, Step;
      ghost var h := heap.books.h;
      var span := HeapNew(n, first, second, leaves);
      if span == null {
        return 0;
      }
      sp := span.start;
      NotTaken(cfg, h, s.taken, sp);
      TiedMore(cfg, h, heap.books.h, s.taken, sp, ForPages(n));
      Go(TakeRun(cfg, s, t, n, sp));
    }

    /** The list of sampled spans and the lists of the page heap have nothing in common. */
    lemma Aside()
      requires heap.Valid() && Traced()
      ensures forall x :: x in sampled.links.nodes ==> x !in heap.lists.links.nodes
    {
      hide B.Books.Balanced, SpanLists.FreeLists.Valid, L.Total, L.Coalesced;
      heap.Separate(null);
    }

    /** The rest of DoSampledAllocation: the block at page sp goes on the list of sampled ones. */
    method MarkSampled(sp: nat)
      requires Valid() && Live(s, Large(sp)) && sp in heap.pagemap && heap.pagemap[sp] != null
      requires !heap.pagemap[sp].sample
      modifies heap.repr`sample, heap.repr`next, heap.repr`prev
      modifies sampled, sampled.links.nodes`next, sampled.links.nodes`prev
      ensures Valid() && heap.pagemap[sp].sample && sampled.links.bin == old(sampled.links.bin)[heap.pagemap[sp] := 0]
    {
      hide Inv, Tied, PageHeap.Valid, SpanLists.FreeLists.Valid;
      LeaseHas(sp);
      DescriptorOf(heap, sp);
      Aside();
      var span := heap.pagemap[sp];
      InUseAside(span);
      label before:
      span.sample := true;
      sampled.Prepend(0, span);
      assert unchanged@before(heap, heap.lists, heap.lists.links.nodes);
    }

    lemma InUseAside(span: SpanLists.Span)
      requires heap.Valid() && span in heap.books.home && !span.free
      ensures span !in heap.lists.links.nodes
    {
      hide B.Books.Balanced, SpanLists.FreeLists.Valid, L.Total, L.Coalesced;
      heap.AboutSpan(span, null);
    }

    /** A sampled span leaves that list, which it only does on its way back to the page heap. */
    method Unmark(span: SpanLists.Span)
      requires Sound() && span in heap.books.home && !span.free && span.sample
      modifies sampled, sampled.links.nodes`next, sampled.links.nodes`prev
      ensures heap.Valid() && Detached({span.start}) && Traced() && span !in sampled.links.bin
      ensures span.next == null && span.prev == null && sampled.links.bin == old(sampled.links.bin) - {span}
    {
      hide PageHeap.Valid, SpanLists.FreeLists.Valid;
      StartOf(heap, span);
      DescriptorOf(heap, span.start);
      heap.InUse(span);
      Aside();
      forall c | c in L.Used(heap.books.h) && c != span.start ensures c in heap.books.at && heap.books.at[c] != span {
        DescriptorOf(heap, c);
      }
      label before:
      sampled.Remove(span);
      assert unchanged@before(heap, heap.lists, heap.lists.links.nodes);
    }

    lemma MarkIs(span: SpanLists.Span)
      requires Marked(span)
      ensures span.sample == (span in sampled.links.bin) && (!span.sample ==> span.next == null && span.prev == null)
    {
    }

    /** do_free of a block made of whole pages, found through the page map. */
    method DeleteRun(t: nat, sp: nat) returns (ghost d: SpanLists.Span)
      requires Valid() && t < |s.pcs| && s.pcs[t].Idle? && Live(s, Large(sp))
      modifies this`s, heap, heap.lists, heap.repr, sampled, sampled.links.nodes`next, sampled.links.nodes`prev
      ensures Valid() && Step(cfg, old(s), s, t, DeletePages(sp))
      ensures d in old(heap.books).home && old(heap.books).home[d] == sp
      ensures sampled.links.bin == old(sampled.links.bin) - {d}
    {
      hide PageHeap.Valid, Traced, Marked, Inv, L.Used, L.Tiled, L.Coalesced, L.SamePages, Leased, Below, Step;
      ghost var h := heap.books.h;
      LeaseHas(sp);
      var span := heap.pagemap[sp];
      d := span;
      MarkIs(span);
      if span.sample {
        Unmark(span);
      }
      HeapDelete(span);
      TiedLess(cfg, h, heap.books.h, s.taken, sp);
      Go(DropRun(cfg, s, t, sp));
    }

    /** The unlocked part of Populate for class c: New and RegisterSizeClass, or the failure of New. */
    method Populate(t: nat, c: nat, first: nat, second: nat, leaves: set<nat>) returns (sp: nat)
      requires Valid() && t < |s.pcs| && s.pcs[t].PopNew? && s.pcs[t].c == c < |cfg.pages| && cfg.pages[c] > 0
      requires Grantable(cfg.pages[c], first, second)
      modifies this`s, heap, heap.lists, heap.repr
      ensures Valid() && fresh(heap.repr - old(heap.repr))
      ensures sp == 0 <==> old(NoPages(cfg.pages[c], first, second, leaves))
      ensures Step(cfg, old(s), s, t, Work(Choice(0, true, if sp == 0 then None else Some(sp))))
    {
      hide Sound, NoPages, Grantable, Inv, L.Used, L.Tiled, Vacant, Leased, Below, Step;
      ghost var h := heap.books.h;
      var span := HeapNewClass(cfg.pages[c], c, first, second, leaves);
      if span == null {
        Go(TakeSpan(cfg, s, t, c, None));
        return 0;
      }
      sp := span.start;
      TiedMore(cfg, h, heap.books.h, s.taken, sp, ForClass(c));
      Go(TakeSpan(cfg, s, t, c, Some(sp)));
    }

    /** pageheap->Delete of a span all of whose objects have returned; `page` is that of one of them. */
    method ReturnSpan(t: nat, page: nat)
      requires Valid() && t < |s.pcs| && s.pcs[t].Gone?
      requires s.pcs[t].sp <= page < s.pcs[t].sp + Pages(cfg, ForClass(s.pcs[t].l))
      modifies this`s, heap, heap.lists, heap.repr
      ensures Valid() && Step(cfg, old(s), s, t, Work(Choice(0, true, None)))
    {
      hide PageHeap.Valid, Traced, Inv, L.Used, L.Tiled, L.Coalesced, L.SamePages, Leased, Below, Step;
      ghost var h, sp := heap.books.h, s.pcs[t].sp;
      GoneHas(cfg, s, t);
      LeaseHas(sp);
      var span := heap.pagemap[page];
      HeapDelete(span);
      TiedLess(cfg, h, heap.books.h, s.taken, sp);
      Go(DropSpan(cfg, s, t));
    }

    /**
     do_free of a small object in a thread with a cache, given only its address: the size
     class is read from the descriptor that the page map has, and the object goes on the
     thread's list of that class.
     */
    method FreeSmall(t: nat, address: nat, ghost o: Obj) returns (cl: nat)
      requires Valid() && t < |s.pcs| && s.pcs[t].Idle? && t < |s.lists|
      requires Live(s, Small(o)) && address == First(cfg, s, Small(o))
      modifies this`s
      ensures Valid() && Step(cfg, old(s), s, t, Free(o)) && cl != 0 && cl < |old(s).lists[t]|
      ensures s.lists == old(s).lists[t := old(s).lists[t][cl := [o] + old(s).lists[t][cl]]]
    {
      hide PageHeap.Valid, Inv, First, End, Detached, Step;
      LiveInside(cfg, s, Small(o));
      FreeFindsDescriptor(o, address);
      cl := heap.pagemap[address / PAGE_SIZE].sizeclass;
      Go(PutBack(cfg, s, t, o));
    }

    /** system_bytes_ is free pages, leaked pages and what is out, in bytes. */
    lemma SystemBytes()
      requires Valid()
      ensures heap.systemBytes == (heap.freePages + heap.leaked) * PAGE_SIZE + TakenBytes(cfg, s.taken, cfg.top)
    {
      hide PageHeap.Inv, Inv, Tied, L.Total, L.Coalesced, Detached;
      PageHeapCycles.LayoutOf(heap);
      HeapBytes(cfg, heap.books.h, s.taken);
    }

    /** The lengths of the tables agree. */
    ghost predicate Sized() reads this {
      && |cfg.size| == |cfg.pages| == |cfg.cap| == |cfg.move| == |s.central| == cfg.classes
      && forall t :: 0 <= t < |s.lists| ==> |s.lists[t]| == |cfg.size|
    }

    lemma IsSized()
      requires Valid()
      ensures Sized()
    {
      hide PageHeap.Valid, Tied, Detached;
      Parts(cfg, s);
      Lengths(cfg, s);
    }

    /** What DumpStats calls bytes in use by the application. */
    ghost function InUse(): int
      reads this, heap
      requires Sized()
    {
      heap.systemBytes - heap.freePages * PAGE_SIZE
      - CentralBytes(cfg, s, cfg.classes) - TransferBytes(cfg, s, cfg.classes) - ThreadBytes(cfg, s.lists, |s.lists|)
    }

    /**
     When no call is in progress: live objects, live runs of pages, tails of spans and
     leaked pages; never negative.
     */
    lemma BytesInUse()
      requires Valid() && Quiescent(s)
      ensures Sized()
      ensures InUse() == LiveBytes(cfg, s, cfg.classes) + PageBytes(s.taken, cfg.top) + Slack(cfg, s.spans, cfg.classes)
                         + heap.leaked * PAGE_SIZE
      ensures InUse() >= heap.leaked * PAGE_SIZE
    {
      hide PageHeap.Valid, Inv, Tied, Detached, Quiescent;
      hide CentralBytes, TransferBytes, LiveBytes, Slack, TakenBytes, PageBytes, ThreadBytes;
      IsSized();
      SystemBytes();
      BytesOut(cfg, s);
    }

    /** generic.current_allocated_bytes does not take transfer caches off: it is that much more than what is in use. */
    lemma CurrentAllocatedBytes()
      requires Valid() && Quiescent(s)
      ensures Sized()
      ensures heap.systemBytes - ThreadBytes(cfg, s.lists, |s.lists|) - CentralBytes(cfg, s, cfg.classes)
              - heap.freePages * PAGE_SIZE
           == LiveBytes(cfg, s, cfg.classes) + PageBytes(s.taken, cfg.top) + Slack(cfg, s.spans, cfg.classes)
              + heap.leaked * PAGE_SIZE + TransferBytes(cfg, s, cfg.classes)
    {
      hide PageHeap.Valid, Inv, Tied, Detached, Quiescent;
      hide CentralBytes, TransferBytes, LiveBytes, Slack, TakenBytes, PageBytes, ThreadBytes;
      BytesInUse();
    }
  }

  ghost function FirstState(cfg: Config, threads: nat): (s: State)
    requires cfg.Valid()
    ensures Initial(cfg, s) && |s.pcs| == threads
  {
    InitialExists(cfg, threads);
    var s :| Initial(cfg, s) && |s.pcs| == threads; s
  }

  lemma StartsEmpty(cfg: Config, s: State)
    requires cfg.Valid() && Initial(cfg, s)
    ensures Inv(cfg, s) && s.taken == map[]
  {
    hide Inv;
    InitialHolds(cfg, s);
  }

  lemma NothingTaken(cfg: Config)
    ensures Tied(cfg, map[], map[])
  {
    assert Leased(cfg, map[]) == map[];
  }

  lemma ClassOfLease(cfg: Config, s: State, sp: nat)
    requires Inv(cfg, s) && sp in s.spans
    ensures sp in s.taken && s.taken[sp] == ForClass(s.spans[sp].cl) && 0 < s.spans[sp].cl < cfg.classes
  {
    hide CapOf;
    assert SpanKept(cfg, s.spans, s.taken, sp);
  }
}
