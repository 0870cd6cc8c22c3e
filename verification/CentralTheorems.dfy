/**
 What the invariant means to callers of malloc and free, to the page heap, and to a
 thread that waits: for every state of every run.
 */
module CentralTheorems {
  import opened Arith
  import opened Basics
  import opened CentralState
  import opened CentralSteps
  import opened CentralSafety
  import opened CentralTransfer
  import opened CentralSpans
  import opened CentralThreads
  import opened CentralRuns

  // ---------- transfer caches ----------

  /**
   In every interleaving no assertion fails and no slot index is out of range, capacity is
   conserved, and no class can use more than there is.
   */
  lemma CapacityInRuns(cfg: Config, states: seq<State>, i: nat)
    requires Run(cfg, states) && i < |states|
    ensures !states[i].fault
    ensures Caches(states[i].central) + Tokens(states[i].pcs) == cfg.classes
    ensures |states[i].central| == cfg.classes
    ensures forall c :: 0 <= c < cfg.classes ==>
              0 <= states[i].central[c].used <= states[i].central[c].cache <= cfg.classes
              && cfg.classes == |states[i].central[c].slots|
  {
    RunsAreSafe(cfg, states, i);
    var s := states[i];
    forall c | 0 <= c < cfg.classes ensures 0 <= s.central[c].used <= s.central[c].cache <= cfg.classes {
      assert Sound(s.central[c]);
      CachesBound(s.central, c);
      TokensNonneg(s.pcs);
    }
  }

  // ---------- objects ----------

  /** An object is in exactly one place: with the application, or in one chain, once. */
  lemma OnePlace(cfg: Config, s: State, o: Obj)
    requires Inv(cfg, s) && o.span in s.spans && s.spans[o.span].cl < |cfg.cap| && o.idx < cfg.cap[s.spans[o.span].cl]
    ensures o in s.place
    ensures forall p :: o in s.Contents(p) <==> p == s.place[o] && !p.InApp?
    ensures forall p :: Once(s.Contents(p))
  {
    hide State.Contents;
    Nowhere(s);
    assert Found(s, o);
    forall p ensures (o in s.Contents(p) <==> p == s.place[o] && !p.InApp?) && Once(s.Contents(p)) {
      ListedAt(s, p);
    }
  }

  /** What malloc has returned and free has not got back yet. */
  datatype Block = Small(o: Obj) | Large(sp: nat)

  predicate Live(s: State, b: Block) {
    match b
    case Small(o) => o in s.place && s.place[o].InApp?
    case Large(sp) => sp in s.taken && s.taken[sp].ForPages?
  }

  /** The bytes of a block, from First up to but not including End. */
  ghost function First(cfg: Config, s: State, b: Block): int {
    match b
    case Small(o) => o.span * PAGE_SIZE + o.idx * SizeOf(cfg, s, o)
    case Large(sp) => sp * PAGE_SIZE
  }

  ghost function End(cfg: Config, s: State, b: Block): int {
    match b
    case Small(o) => o.span * PAGE_SIZE + (o.idx + 1) * SizeOf(cfg, s, o)
    case Large(sp) => (sp + if sp in s.taken then Pages(cfg, s.taken[sp]) else 0) * PAGE_SIZE
  }

  ghost function SizeOf(cfg: Config, s: State, o: Obj): int {
    if o.span in s.spans && s.spans[o.span].cl < |cfg.size| then cfg.size[s.spans[o.span].cl] else 0
  }

  ghost function Home(b: Block): nat {
    match b
    case Small(o) => o.span
    case Large(sp) => sp
  }

  lemma Fits(pages: nat, size: nat, cap: nat, i: nat)
    requires CapOf(pages, size, cap) && i < cap
    ensures 0 <= i * size < (i + 1) * size <= pages * PAGE_SIZE
  {
    assert cap * size <= pages * PAGE_SIZE;
    assert (i + 1) * size <= cap * size;
  }

  /** An object of a listed span, wherever it is, or a live run of pages. */
  predicate Known(s: State, b: Block) {
    match b
    case Small(o) => o in s.place
    case Large(sp) => sp in s.taken && s.taken[sp].ForPages?
  }

  /** Such a block lies inside the run of pages it was cut from. */
  lemma KnownInside(cfg: Config, s: State, b: Block)
    requires Inv(cfg, s) && Known(s, b)
    ensures Home(b) in s.taken
    ensures Home(b) * PAGE_SIZE <= First(cfg, s, b) < End(cfg, s, b)
    ensures End(cfg, s, b) <= (Home(b) + Pages(cfg, s.taken[Home(b)])) * PAGE_SIZE
    ensures b.Small? ==> b.o.span in s.spans && s.taken[Home(b)].ForClass?
  {
    hide LocksKept, CapacityKept, SlotsKept, ClassKept, Owned, ListsKept, UnusedKept, PrivateKept, HandsKept;
    hide CountsKept, FreeBelow, CapOf;
    if b.Small? {
      SpanOfLive(cfg, s, b.o);
      var c := s.spans[b.o.span].cl;
      assert SpanKept(cfg, s.spans, s.taken, b.o.span);
      Fits(cfg.pages[c], cfg.size[c], cfg.cap[c], b.o.idx);
    }
  }

  lemma Multiples(i: nat, j: nat, size: nat)
    requires i < j
    ensures (i + 1) * size <= j * size
  {
  }

  /** Such blocks never overlap. */
  lemma KnownDisjoint(cfg: Config, s: State, a: Block, b: Block)
    requires Inv(cfg, s) && Known(s, a) && Known(s, b) && a != b
    ensures End(cfg, s, a) <= First(cfg, s, b) || End(cfg, s, b) <= First(cfg, s, a)
  {
    hide LocksKept, CapacityKept, SlotsKept, ClassKept, Owned, ListsKept, UnusedKept, PrivateKept, HandsKept;
    hide CountsKept, FreeBelow, CapOf, SpansKept, AllKept, Shaped;
    KnownInside(cfg, s, a);
    KnownInside(cfg, s, b);
    if Home(a) == Home(b) {
      var i, j := a.o.idx, b.o.idx;
      if i < j { Multiples(i, j, SizeOf(cfg, s, a.o)); } else { Multiples(j, i, SizeOf(cfg, s, a.o)); }
    } else {
      assert TakenKept(cfg, s.taken);
    }
  }

  /** And so live blocks never do. */
  lemma LiveDisjoint(cfg: Config, s: State, a: Block, b: Block)
    requires Inv(cfg, s) && Live(s, a) && Live(s, b) && a != b
    ensures End(cfg, s, a) <= First(cfg, s, b) || End(cfg, s, b) <= First(cfg, s, a)
  {
    hide Inv, First, End;
    KnownDisjoint(cfg, s, a, b);
  }

  /** A live block lies inside the run of pages it was cut from. */
  lemma LiveInside(cfg: Config, s: State, b: Block)
    requires Inv(cfg, s) && Live(s, b)
    ensures Home(b) in s.taken
    ensures Home(b) * PAGE_SIZE <= First(cfg, s, b) < End(cfg, s, b)
    ensures End(cfg, s, b) <= (Home(b) + Pages(cfg, s.taken[Home(b)])) * PAGE_SIZE
    ensures b.Small? ==> b.o.span in s.spans && s.taken[Home(b)].ForClass?
  {
    hide Inv, First, End;
    KnownInside(cfg, s, b);
  }

  /**
   The page of any byte of a live object belongs to the object's own span and to no other
   run of pages: do_free finds the right span and the right size class.
   */
  lemma FreeFindsItsSpan(cfg: Config, s: State, o: Obj, address: nat, a: nat)
    requires Inv(cfg, s) && Live(s, Small(o)) && First(cfg, s, Small(o)) <= address < End(cfg, s, Small(o))
    requires a in s.taken && a <= address / PAGE_SIZE < a + Pages(cfg, s.taken[a])
    ensures a == o.span && a in s.spans && s.taken[a] == ForClass(s.spans[a].cl)
  {
    hide LocksKept, CapacityKept, SlotsKept, ClassKept, Owned, ListsKept, UnusedKept, PrivateKept, HandsKept;
    hide CountsKept, FreeBelow, CapOf, AllKept, Shaped, First, End;
    LiveInside(cfg, s, Small(o));
    assert |cfg.cap| == cfg.classes by { Parts(cfg, s); Lengths(cfg, s); }
    assert SpanKept(cfg, s.spans, s.taken, o.span);
    assert o.span <= address / PAGE_SIZE < o.span + Pages(cfg, s.taken[o.span]);
  }

  /** What Allocate takes from a list was not live, is now, and is large enough for its class. */
  lemma MallocIsFresh(cfg: Config, s: State, t: nat, c: nat, b: Block)
    requires Inv(cfg, s) && Enabled(cfg, s, t, Malloc(c))
    ensures var x, s' := Small(s.lists[t][c][0]), After(cfg, s, t, Malloc(c));
            && !Live(s, x) && Live(s', x)
            && (b != x ==> (Live(s', b) <==> Live(s, b)))
            && End(cfg, s', x) == First(cfg, s', x) + cfg.size[c]
  {
    hide Inv, MallocStep, First, End, Live;
    Parts(cfg, s);
    Lengths(cfg, s);
    MallocMoves(cfg, s, t, c);
    Handed(cfg, s, After(cfg, s, t, Malloc(c)), s.lists[t][c][0], c, b);
  }

  lemma Handed(cfg: Config, s: State, s': State, x: Obj, c: nat, b: Block)
    requires x in s.place && !s.place[x].InApp? && s'.place == s.place[x := InApp]
    requires s'.spans == s.spans && s'.taken == s.taken && x.span in s.spans && s.spans[x.span].cl == c
    requires c < |cfg.size|
    ensures !Live(s, Small(x)) && Live(s', Small(x))
    ensures b != Small(x) ==> (Live(s', b) <==> Live(s, b))
    ensures End(cfg, s', Small(x)) == First(cfg, s', Small(x)) + cfg.size[c]
  {
    SizeOfClass(cfg, s', x, c);
  }

  lemma SizeOfClass(cfg: Config, s: State, o: Obj, c: nat)
    requires o.span in s.spans && s.spans[o.span].cl == c && c < |cfg.size|
    ensures End(cfg, s, Small(o)) == First(cfg, s, Small(o)) + cfg.size[c]
  {
  }

  lemma MallocMoves(cfg: Config, s: State, t: nat, c: nat)
    requires Inv(cfg, s) && Enabled(cfg, s, t, Malloc(c)) && c < |s.lists[t]|
    ensures var x, s' := s.lists[t][c][0], MallocStep(s, t, c);
            && x in s.place && s.place[x] == InCache(t, c) && s'.place == s.place[x := InApp]
            && s'.spans == s.spans && s'.taken == s.taken && x.span in s.spans && s.spans[x.span].cl == c
  {
    hide LocksKept, CapacityKept, SlotsKept, ListsKept, UnusedKept, PrivateKept, HandsKept, CountsKept;
    hide FreeBelow, CapOf, Owned, SpansKept, AllKept, TakenKept;
    var x := s.lists[t][c][0];
    CacheHere(cfg, s, t, c);
    assert x in s.lists[t][c];
  }

  // ---------- spans ----------

  /** The objects of a span that are not on its chain. */
  ghost function Outstanding(s: State, sp: nat): set<Obj> {
    set o | o in s.place && o.span == sp && s.place[o] != InChain(sp)
  }

  /** refcount counts exactly the objects that are out. */
  lemma RefcountCounts(cfg: Config, s: State, sp: nat)
    requires Inv(cfg, s) && sp in s.spans
    ensures s.spans[sp].refcount == |Outstanding(s, sp)|
    ensures |cfg.cap| == cfg.classes && s.spans[sp].cl < cfg.classes
    ensures s.spans[sp].refcount + |s.spans[sp].chain| == cfg.cap[s.spans[sp].cl]
  {
    hide Inv, CapOf;
    Parts(cfg, s);
    Lengths(cfg, s);
    assert SpanKept(cfg, s.spans, s.taken, sp);
    var xs, cap := s.spans[sp].chain, cfg.cap[s.spans[sp].cl];
    ChainHere(s, sp);
    OnceCounts(xs);
    WholeCounts(sp, cap);
    SpanSplits(cfg, s, sp);
  }

  lemma SpanSplits(cfg: Config, s: State, sp: nat)
    requires Inv(cfg, s) && sp in s.spans && s.spans[sp].cl < |cfg.cap|
    ensures Whole(sp, cfg.cap[s.spans[sp].cl]) == Elements(s.spans[sp].chain) + Outstanding(s, sp)
  {
    hide Inv, CapOf, Owned;
    Parts(cfg, s);
    Lengths(cfg, s);
    hide SpansKept, ListsKept, Shaped, CapacityKept, LocksKept, TakenKept, SlotsKept, PrivateKept, UnusedKept;
    hide HandsKept, CountsKept;
    ChainHere(s, sp);
    var cap := cfg.cap[s.spans[sp].cl];
    forall o ensures o in Whole(sp, cap) <==> o in Elements(s.spans[sp].chain) + Outstanding(s, sp) {
      FoundAt(s, o);
      assert s.Contents(InChain(sp)) == s.spans[sp].chain;
    }
  }

  /** While the lock of its class is free a listed span has an object out. */
  lemma ListedSpansAreUsed(cfg: Config, s: State, sp: nat)
    requires Inv(cfg, s) && sp in s.spans && s.spans[sp].cl < |s.locks| && s.locks[s.spans[sp].cl].None?
    ensures Outstanding(s, sp) != {}
  {
    RefcountCounts(cfg, s, sp);
    assert s.spans[sp].refcount == 0 ==> AboutToUse(s.pcs, s.locks, s.central, s.spans[sp].cl, sp);
  }

  /** A span leaves for the page heap exactly in the step that returns its last object that is out. */
  lemma SpanLeavesWithLastObject(cfg: Config, s: State, t: nat, a: Action, sp: nat)
    requires Inv(cfg, s) && Enabled(cfg, s, t, a) && sp in s.spans
    ensures sp !in After(cfg, s, t, a).spans
            <==> a.Work? && s.pcs[t].Release? && s.pcs[t].rest != [] && Outstanding(s, sp) == {s.pcs[t].rest[0]}
  {
    hide Inv;
    if a.Work? && s.pcs[t].Release? && s.pcs[t].rest != [] {
      LeavingStep(cfg, s, t, a.choice, sp);
    } else {
      StayingStep(cfg, s, t, a, sp);
    }
  }

  lemma StayingStep(cfg: Config, s: State, t: nat, a: Action, sp: nat)
    requires Inv(cfg, s) && Enabled(cfg, s, t, a) && sp in s.spans
    requires !(a.Work? && s.pcs[t].Release? && s.pcs[t].rest != [])
    ensures sp in After(cfg, s, t, a).spans
  {
    hide Inv, CapOf, WorkStep;
    if a.Work? { StayingWork(cfg, s, t, a.choice, sp); }
  }

  lemma StayingWork(cfg: Config, s: State, t: nat, ch: Choice, sp: nat)
    requires Inv(cfg, s) && Enabled(cfg, s, t, Work(ch)) && sp in s.spans
    requires !(s.pcs[t].Release? && s.pcs[t].rest != [])
    ensures sp in WorkStep(cfg, s, t, ch).spans
  {
    hide Inv, CapOf, Enabled, PcShaped, OthersWait;
    hide InsTestStep, EvictStep, ShrinkStep, BackStep, ReleasedStep, ReleaseStep, GoneStep, RemTestStep;
    hide FetchStep, PopNewStep, PopLinkStep;
  }

  lemma LeavingStep(cfg: Config, s: State, t: nat, ch: Choice, sp: nat)
    requires Inv(cfg, s) && Enabled(cfg, s, t, Work(ch)) && sp in s.spans && s.pcs[t].Release? && s.pcs[t].rest != []
    ensures sp !in After(cfg, s, t, Work(ch)).spans <==> Outstanding(s, sp) == {s.pcs[t].rest[0]}
  {
    hide Inv, CapOf;
    var l, rest, k := s.pcs[t].l, s.pcs[t].rest, s.pcs[t].k;
    var x := rest[0];
    ReleaseHere(cfg, s, t, l, rest, k);
    OutOfSpan(cfg, s, x);
    RefcountCounts(cfg, s, sp);
    assert x.span == sp ==> x in Outstanding(s, sp);
    if x.span == sp && s.spans[sp].refcount == 1 { SubsetEqual({x}, Outstanding(s, sp)); }
    assert Outstanding(s, sp) == {x} ==> x.span == sp && s.spans[sp].refcount == 1 by { assert x in {x}; }
  }

  // ---------- progress ----------

  /** No thread holds a lock while it waits for one; so if any is inside a call, one of those can move. */
  lemma NoDeadlock(cfg: Config, s: State, t: nat)
    requires Inv(cfg, s) && t < |s.pcs| && !s.pcs[t].Idle?
    ensures exists u: nat, a :: Enabled(cfg, s, u, a) && !s.pcs[u].Idle? && (a.Acquire? || a.Work?)
  {
    hide CapacityKept, SlotsKept, ClassKept, Owned, SpansKept, ListsKept, TakenKept, UnusedKept, PrivateKept;
    hide HandsKept, AllKept, CountsKept, FreeBelow, CapOf;
    var ch := Work(Choice(0, true, None));
    if Wants(s.pcs[t]).None? {
      assert Enabled(cfg, s, t, ch);
    } else {
      var l := Wants(s.pcs[t]).value;
      assert PcShaped(cfg, s.pcs[t]);
      if s.locks[l].None? {
        assert Enabled(cfg, s, t, Acquire);
      } else {
        assert Enabled(cfg, s, s.locks[l].value, ch);
      }
    }
  }

  /** Most steps of its own a thread still takes before its call ends; a chain in a slot has at most m objects. */
  function Left(m: nat, pc: Pc): nat {
    match pc
    case Idle => 0
    case InsWait(_, ch) => 9 * (m + |ch|) + 32
    case InsTest(_, ch) => 9 * (m + |ch|) + 31
    case Evict(_, ch, force) => LeftEvict(m, ch, force)
    case ShrinkWait(_, ch, force, _) => LeftEvict(m, ch, force) - 1
    case Shrink(_, ch, force, _) => LeftEvict(m, ch, force) - 2
    case BackWait(_, ch, force, got) => LeftBack(m, ch, force, got) + 1
    case Back(_, ch, force, got) => LeftBack(m, ch, force, got)
    case Release(_, rest, k) => 3 * |rest| + LeftCont(k)
    case Gone(_, rest, k, _) => 3 * |rest| + 2 + LeftCont(k)
    case Relock(_, rest, k) => 3 * |rest| + 1 + LeftCont(k)
    case RemWait(_, n) => n + 7
    case RemTest(_, n) => n + 6
    case Fetch(_, n, out, dry) => (if |out| < n then n - |out| else 0) + 1 + if out == [] && !dry then 4 else 0
    case PopNew(_, n) => n + 4
    case PopWait(_, n, _) => n + 3
    case PopLink(_, n, _) => n + 2
    case PopFail(_, n) => n + 2
  }

  function LeftCont(k: Cont): nat { if k.Resume? then 4 else 1 }

  function LeftEvict(m: nat, ch: Chain, force: bool): nat {
    if force then 3 * (m + |ch|) + 12 else 6 * (m + |ch|) + 24
  }

  function LeftBack(m: nat, ch: Chain, force: bool, got: bool): nat {
    if got then 1 else if force then 3 * |ch| + 2 else 3 * (m + |ch|) + 13
  }

  /**
   Every call ends after finitely many steps of its own thread, and steps of others do not
   prolong it: the bound falls with each of its steps and stands still otherwise.
   */
  lemma CallsEnd(cfg: Config, s: State, t: nat, a: Action, m: nat, u: nat)
    requires Inv(cfg, s) && Enabled(cfg, s, t, a) && u < |s.pcs|
    requires forall c :: 0 <= c < cfg.classes ==> cfg.move[c] <= m
    ensures u < |After(cfg, s, t, a).pcs|
    ensures u != t ==> Left(m, After(cfg, s, t, a).pcs[u]) == Left(m, s.pcs[u])
    ensures u == t && (a.Acquire? || a.Work?) ==> Left(m, After(cfg, s, t, a).pcs[u]) < Left(m, s.pcs[u])
  {
    hide Inv, WorkStep, Left, CapOf;
    if a.Work? { WorkEnds(cfg, s, t, a.choice, m); }
    if a.Acquire? { EnteringEnds(m, s.pcs[t]); }
  }

  lemma EnteringEnds(m: nat, pc: Pc)
    requires Wants(pc).Some?
    ensures Left(m, Entered(pc)) < Left(m, pc)
  {
  }

  lemma WorkEnds(cfg: Config, s: State, t: nat, ch: Choice, m: nat)
    requires Inv(cfg, s) && Enabled(cfg, s, t, Work(ch))
    requires forall c :: 0 <= c < cfg.classes ==> cfg.move[c] <= m
    ensures OthersWait(s, WorkStep(cfg, s, t, ch), t)
    ensures Left(m, WorkStep(cfg, s, t, ch).pcs[t]) < Left(m, s.pcs[t])
  {
    hide Inv, CapOf, Left;
    hide InsTestStep, EvictStep, ShrinkStep, BackStep, ReleasedStep, ReleaseStep, GoneStep, RemTestStep;
    hide FetchStep, PopNewStep, PopLinkStep;
    assert Shaped(cfg, s) && PcShaped(cfg, s.pcs[t]) by { Parts(cfg, s); PositionHere(cfg, s, t); }
    assert !WorkStep(cfg, s, t, ch).fault by { WorkKeeps(cfg, s, t, ch); Parts(cfg, WorkStep(cfg, s, t, ch)); }
    match s.pcs[t]
    case InsTest(c, xs) => InsTestEnds(cfg, s, t, c, xs, m);
    case Evict(c, xs, force) => EvictEnds(s, t, c, xs, force, ch.victim, ch.skip, m);
    case Shrink(c, xs, force, v) => ShrinkEnds(cfg, s, t, c, xs, force, v, m);
    case Back(c, xs, force, got) => BackEnds(s, t, c, xs, force, got, m);
    case Release(l, rest, k) =>
      if rest == [] { ReleasedEnds(s, t, l, k, m); } else { ReleaseEnds(cfg, s, t, l, rest, k, m); }
    case Gone(l, rest, k, sp) => GoneEnds(s, t, l, rest, k, sp, m);
    case RemTest(c, n) => RemTestEnds(cfg, s, t, c, n, m);
    case Fetch(c, n, out, dry) => FetchEnds(s, t, c, n, out, dry, m);
    case PopNew(c, n) => PopNewEnds(s, t, c, n, ch.page, m);
    case PopLink(c, n, sp) => PopLinkEnds(cfg, s, t, c, n, sp, m);
  }

  lemma InsTestEnds(cfg: Config, s: State, t: nat, c: nat, ch: Chain, m: nat)
    requires t < |s.pcs| && s.pcs[t] == InsTest(c, ch) && c < |s.central| && c < |s.locks| && c < |cfg.move|
    requires !InsTestStep(cfg, s, t, c, ch).fault
    ensures Left(m, InsTestStep(cfg, s, t, c, ch).pcs[t]) < Left(m, s.pcs[t])
  {
  }

  lemma EvictEnds(s: State, t: nat, c: nat, ch: Chain, force: bool, v: nat, skip: bool, m: nat)
    requires t < |s.pcs| && s.pcs[t] == Evict(c, ch, force) && c < |s.locks|
    requires !EvictStep(s, t, c, ch, force, v, skip).fault
    ensures Left(m, EvictStep(s, t, c, ch, force, v, skip).pcs[t]) < Left(m, s.pcs[t])
  {
  }

  lemma ShrinkEnds(cfg: Config, s: State, t: nat, c: nat, ch: Chain, force: bool, v: nat, m: nat)
    requires Inv(cfg, s) && t < |s.pcs| && s.pcs[t] == Shrink(c, ch, force, v) && v < |s.central| && v < |s.locks|
    requires !ShrinkStep(s, t, c, ch, force, v).fault
    requires |cfg.move| == cfg.classes == |s.central| && forall d :: 0 <= d < cfg.classes ==> cfg.move[d] <= m
    ensures Left(m, ShrinkStep(s, t, c, ch, force, v).pcs[t]) < Left(m, s.pcs[t])
  {
    hide Inv;
    CapacityBounds(cfg, s, t, v);
    var f := s.central[v];
    if f.used == f.cache && f.used > 0 { SlotLength(cfg, s, v, f.used - 1); }
  }

  lemma BackEnds(s: State, t: nat, c: nat, ch: Chain, force: bool, got: bool, m: nat)
    requires t < |s.pcs| && s.pcs[t] == Back(c, ch, force, got) && c < |s.central| && c < |s.locks|
    requires !BackStep(s, t, c, ch, force, got).fault
    ensures Left(m, BackStep(s, t, c, ch, force, got).pcs[t]) < Left(m, s.pcs[t])
  {
  }

  lemma ReleasedEnds(s: State, t: nat, l: nat, k: Cont, m: nat)
    requires t < |s.pcs| && s.pcs[t] == Release(l, [], k) && l < |s.locks|
    requires !ReleasedStep(s, t, l, k).fault
    ensures Left(m, ReleasedStep(s, t, l, k).pcs[t]) < Left(m, s.pcs[t])
  {
  }

  lemma ReleaseEnds(cfg: Config, s: State, t: nat, l: nat, rest: Chain, k: Cont, m: nat)
    requires t < |s.pcs| && s.pcs[t] == Release(l, rest, k) && l < |s.central| && l < |s.locks| && rest != []
    requires !ReleaseStep(cfg, s, t, l, rest, k).fault
    ensures Left(m, ReleaseStep(cfg, s, t, l, rest, k).pcs[t]) < Left(m, s.pcs[t])
  {
  }

  lemma GoneEnds(s: State, t: nat, l: nat, rest: Chain, k: Cont, sp: nat, m: nat)
    requires t < |s.pcs| && s.pcs[t] == Gone(l, rest, k, sp)
    requires !GoneStep(s, t, l, rest, k, sp).fault
    ensures Left(m, GoneStep(s, t, l, rest, k, sp).pcs[t]) < Left(m, s.pcs[t])
  {
  }

  lemma RemTestEnds(cfg: Config, s: State, t: nat, c: nat, n: nat, m: nat)
    requires t < |s.pcs| && t < |s.lists| && s.pcs[t] == RemTest(c, n) && c < |s.lists[t]| && c < |s.locks|
    requires c < |s.central| && c < |cfg.move|
    requires !RemTestStep(cfg, s, t, c, n).fault
    ensures Left(m, RemTestStep(cfg, s, t, c, n).pcs[t]) < Left(m, s.pcs[t])
  {
  }

  lemma FetchEnds(s: State, t: nat, c: nat, n: nat, out: Chain, dry: bool, m: nat)
    requires t < |s.pcs| && t < |s.lists| && s.pcs[t] == Fetch(c, n, out, dry) && c < |s.lists[t]| && c < |s.locks|
    requires c < |s.central|
    requires !FetchStep(s, t, c, n, out, dry).fault
    ensures Left(m, FetchStep(s, t, c, n, out, dry).pcs[t]) < Left(m, s.pcs[t])
  {
  }

  lemma PopNewEnds(s: State, t: nat, c: nat, n: nat, page: Option<nat>, m: nat)
    requires t < |s.pcs| && s.pcs[t] == PopNew(c, n)
    requires !PopNewStep(s, t, c, n, page).fault
    ensures Left(m, PopNewStep(s, t, c, n, page).pcs[t]) < Left(m, s.pcs[t])
  {
  }

  lemma PopLinkEnds(cfg: Config, s: State, t: nat, c: nat, n: nat, sp: nat, m: nat)
    requires t < |s.pcs| && s.pcs[t] == PopLink(c, n, sp) && c < |s.central| && c < |cfg.cap|
    requires !PopLinkStep(cfg, s, t, c, n, sp).fault
    ensures Left(m, PopLinkStep(cfg, s, t, c, n, sp).pcs[t]) < Left(m, s.pcs[t])
  {
  }

  lemma CapacityBounds(cfg: Config, s: State, t: nat, c: nat)
    requires Inv(cfg, s) && t < |s.pcs| && c < |s.central|
    ensures 0 <= s.central[c].used <= s.central[c].cache <= |s.central[c].slots|
  {
    CapacityLimits(cfg, s.pcs, s.central, t, c);
  }

  lemma SlotLength(cfg: Config, s: State, c: nat, i: nat)
    requires Inv(cfg, s) && c < |s.central| && i < s.central[c].used && i < |s.central[c].slots|
    ensures c < |cfg.move| && |s.central[c].slots[i]| == cfg.move[c]
  {
    SlotHere(cfg, s, c, i);
  }
}
