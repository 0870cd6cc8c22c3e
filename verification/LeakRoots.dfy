/** What the leak checker takes as roots, and the order in which it marks from them. */
module LeakRoots {
  import opened Basics
  import opened LeakMark

  /** A disabled range of code, stored under its end address. */
  datatype Range = Range(start: nat, maxDepth: int)

  datatype Disabled = Disabled(addresses: set<nat>, ranges: map<nat, Range>)

  /** A tracked allocation, with the stack it was made from. */
  datatype Alloc = Alloc(ptr: nat, bytes: nat, stack: seq<nat>)

  /**
   What a leak check is given: the stacks of the other threads and where their registers
   are, the checker's own stack, the objects it was told to ignore, the code that is
   disabled, all tracked allocations, and the global data of each library.
   */
  datatype Given = Given(threads: seq<(nat, nat)>, registers: Option<(nat, nat)>, self: Option<(nat, nat)>,
                         objs: seq<(nat, nat)>, d: Disabled, allocs: seq<Alloc>, libraries: seq<seq<Item>>)

  ghost predicate IsLowerBound<T>(m: map<nat, T>, a: nat, k: Option<nat>) {
    match k
    case None => forall x :: x in m ==> x < a
    case Some(v) => v in m && a <= v && forall x :: x in m && a <= x ==> v <= x
  }

  /** The first key that is not below a. */
  method LowerBound<T>(m: map<nat, T>, a: nat) returns (k: Option<nat>)
    ensures IsLowerBound(m, a, k)
  {
    var rest := m.Keys;
    k := None;
    while rest != {}
      invariant rest <= m.Keys
      invariant k.Some? ==> k.value in m && a <= k.value
      invariant forall x :: x in m && x !in rest && a <= x ==> k.Some? && k.value <= x
      decreases rest
    {
      var x :| x in rest;
      if a <= x && (k.None? || x < k.value) { k := Some(x); }
      rest := rest - {x};
    }
  }

  /** The range that upper_bound finds for the address catches it at this depth of the stack. */
  ghost predicate Caught(d: Disabled, addr: nat, depth: nat) {
    exists e :: IsLowerBound(d.ranges, addr + 1, Some(e)) && d.ranges[e].start < addr && d.ranges[e].maxDepth > depth
  }

  ghost predicate DisabledAt(d: Disabled, stack: seq<nat>, depth: nat) {
    depth < |stack| && (stack[depth] in d.addresses || Caught(d, stack[depth], depth))
  }

  ghost predicate IsDisabled(d: Disabled, stack: seq<nat>) {
    exists depth :: DisabledAt(d, stack, depth)
  }

  /** Disabled ranges do not overlap. */
  ghost predicate Disjoint(ranges: map<nat, Range>) {
    forall e, f :: e in ranges && f in ranges && e < f ==> e <= ranges[f].start
  }

  /** Then looking at one range is enough: it is the only one the address can be in. */
  lemma CaughtIsInside(d: Disabled, addr: nat, depth: nat)
    requires Disjoint(d.ranges)
    ensures Caught(d, addr, depth) <==>
              exists e :: e in d.ranges && d.ranges[e].start < addr < e && d.ranges[e].maxDepth > depth
  {
    if e :| e in d.ranges && d.ranges[e].start < addr < e && d.ranges[e].maxDepth > depth {
      assert IsLowerBound(d.ranges, addr + 1, Some(e));
    }
  }

  /** The stack range that lower_bound finds lies inside [start, end]. */
  ghost predicate StackInside(ranges: map<nat, nat>, start: nat, end: nat) {
    exists k :: IsLowerBound(ranges, start, Some(k)) && ranges[k] <= end
  }

  /** Again one look is enough, when stacks that start later also end later. */
  lemma StackInsideIsAny(ranges: map<nat, nat>, start: nat, end: nat)
    requires forall k, l :: k in ranges && l in ranges && k < l ==> ranges[k] <= ranges[l]
    ensures StackInside(ranges, start, end) <==> exists k :: k in ranges && start <= k && ranges[k] <= end
  {
    if k :| k in ranges && start <= k && ranges[k] <= end {
      Least(ranges, start, k);
    }
  }

  lemma {:induction false} Least(ranges: map<nat, nat>, start: nat, k: nat)
    requires k in ranges && start <= k
    ensures exists l: nat :: IsLowerBound(ranges, start, Some(l)) && l <= k
    decreases k
  {
    if l :| l in ranges && start <= l < k {
      Least(ranges, start, l);
    } else {
      assert IsLowerBound(ranges, start, Some(k));
    }
  }

  /** The loop of MakeDisabledLiveCallback over the stack of an allocation. */
  method FindDisabled(d: Disabled, stack: seq<nat>) returns (r: bool)
    ensures r == IsDisabled(d, stack)
  {
    r := false;
    var depth := 0;
    while depth < |stack|
      invariant 0 <= depth <= |stack|
      invariant forall i: nat :: i < depth ==> !DisabledAt(d, stack, i)
    {
      var addr := stack[depth];
      if addr in d.addresses {
        assert DisabledAt(d, stack, depth);
        return true;
      }
      var e := LowerBound(d.ranges, addr + 1);
      if e.Some? && d.ranges[e.value].start < addr && d.ranges[e.value].maxDepth > depth {
        assert DisabledAt(d, stack, depth);
        return true;
      }
      depth := depth + 1;
    }
  }

  // ---------- roots ----------

  ghost function StackItems(stacks: seq<(nat, nat)>): seq<Item> {
    if stacks == [] then [] else StackItems(stacks[..|stacks| - 1]) + [StackItem(stacks[|stacks| - 1])]
  }

  function Min(a: nat, b: nat): nat { if a < b then a else b }

  function Max(a: nat, b: nat): nat { if a < b then b else a }

  ghost function StackItem(r: (nat, nat)): Item { Item(Min(r.0, r.1), Max(r.0, r.1) - Min(r.0, r.1), ThreadStack) }

  /** The ends of a range, under its start; the first range registered for a start stays. */
  ghost function WithRange(stacks: map<nat, nat>, r: (nat, nat)): map<nat, nat> {
    var it := StackItem(r);
    if it.ptr in stacks then stacks else stacks[it.ptr := it.ptr + it.size]
  }

  /** What the stack ranges are when those of `ranges` have been registered in order. */
  ghost function Registered(stacks: map<nat, nat>, ranges: seq<(nat, nat)>): map<nat, nat> {
    if ranges == [] then stacks else WithRange(Registered(stacks, ranges[..|ranges| - 1]), ranges[|ranges| - 1])
  }

  ghost predicate StartsAt(ranges: seq<(nat, nat)>, k: nat, i: nat) {
    i < |ranges| && k == if ranges[i].0 <= ranges[i].1 then ranges[i].0 else ranges[i].1
  }

  lemma RegisterLast(stacks: map<nat, nat>, ranges: seq<(nat, nat)>)
    requires ranges != []
    ensures var m, it := Registered(stacks, ranges[..|ranges| - 1]), StackItem(ranges[|ranges| - 1]);
            Registered(stacks, ranges) == if it.ptr in m then m else m[it.ptr := it.ptr + it.size]
  {
  }

  lemma StartsInFront(ranges: seq<(nat, nat)>, k: nat, i: nat)
    requires ranges != []
    ensures StartsAt(ranges, k, i) <==>
              StartsAt(ranges[..|ranges| - 1], k, i) || (i == |ranges| - 1 && k == Min(ranges[i].0, ranges[i].1))
  {
  }

  /** The starts are those that were there and those of the ranges; what was there stays. */
  lemma {:induction false} RegisteredKeys(stacks: map<nat, nat>, ranges: seq<(nat, nat)>, k: nat)
    ensures k in Registered(stacks, ranges) <==> k in stacks || exists i :: StartsAt(ranges, k, i)
    ensures k in stacks ==> Registered(stacks, ranges)[k] == stacks[k]
  {
    if ranges != [] {
      RegisterLast(stacks, ranges);
      RegisteredKeys(stacks, ranges[..|ranges| - 1], k);
      forall i: nat
        ensures StartsAt(ranges, k, i) <==>
                  StartsAt(ranges[..|ranges| - 1], k, i) || (i == |ranges| - 1 && k == Min(ranges[i].0, ranges[i].1))
      {
        StartsInFront(ranges, k, i);
      }
      if StackItem(ranges[|ranges| - 1]).ptr == k { assert StartsAt(ranges, k, |ranges| - 1); }
    }
  }

  /** For a new start, the first range that has it counts. */
  lemma {:induction false} FirstRegistered(stacks: map<nat, nat>, ranges: seq<(nat, nat)>, k: nat, i: nat)
    requires k !in stacks && StartsAt(ranges, k, i) && forall j: nat :: j < i ==> !StartsAt(ranges, k, j)
    ensures k in Registered(stacks, ranges)
    ensures Registered(stacks, ranges)[k] == if ranges[i].0 <= ranges[i].1 then ranges[i].1 else ranges[i].0
  {
    var front := ranges[..|ranges| - 1];
    RegisterLast(stacks, ranges);
    forall j: nat | j < i ensures !StartsAt(front, k, j) { StartsInFront(ranges, k, j); }
    if i < |ranges| - 1 {
      assert StartsAt(front, k, i);
      FirstRegistered(stacks, front, k, i);
    } else {
      RegisteredKeys(stacks, front, k);
    }
  }

  ghost function Optional<T>(o: Option<T>): seq<T> {
    if o.Some? then [o.value] else []
  }

  /** All the roots of a leak check, in the order in which it marks from them. */
  ghost function AllRoots(g: Given): seq<Item> {
    var stacks := Registered(Registered(map[], g.threads), Optional(g.self));
    StackItems(g.threads)
    + (if g.registers.Some? then [Item(g.registers.value.0, g.registers.value.1, ThreadRegisters)] else [])
    + (if g.self.Some? then [StackItem(g.self.value)] else []) + IgnoredItems(g.objs)
    + DisabledItems(g.d, stacks, g.allocs) + Flat(g.libraries)
  }

  lemma StackPlace(r: (nat, nat))
    ensures StackItem(r).place.ThreadStack?
  {
  }

  /** The roots for objects of disabled code: an allocation that holds a stack is left out. */
  ghost function DisabledItems(d: Disabled, stacks: map<nat, nat>, allocs: seq<Alloc>): seq<Item> {
    if allocs == [] then []
    else
      DisabledItems(d, stacks, allocs[..|allocs| - 1]) + DisabledItem(d, stacks, allocs[|allocs| - 1])
  }

  ghost function DisabledItem(d: Disabled, stacks: map<nat, nat>, a: Alloc): seq<Item> {
    if IsDisabled(d, a.stack) && !StackInside(stacks, a.ptr, a.ptr + a.bytes) then
      [Item(a.ptr, a.bytes, MustBeOnHeap)]
    else []
  }

  ghost function IgnoredItems(objs: seq<(nat, nat)>): seq<Item> {
    if objs == [] then []
    else IgnoredItems(objs[..|objs| - 1]) + [Item(objs[|objs| - 1].0, objs[|objs| - 1].1, MustBeOnHeap)]
  }

  ghost function Flat(libraries: seq<seq<Item>>): seq<Item> {
    if libraries == [] then [] else Flat(libraries[..|libraries| - 1]) + libraries[|libraries| - 1]
  }

  /** What IgnoreObject recorded is still allocated, with the same size. */
  ghost predicate StillThere(h: Heap, objs: seq<(nat, nat)>) {
    forall i :: 0 <= i < |objs| ==> h.Resolve(objs[i].0).Some? && objs[i].1 == h.tracked[h.Resolve(objs[i].0).value]
  }

  // ---------- what the roots are, in addresses ----------

  /** The aligned word at `a` lies between the two ends of r, whichever comes first, and stands for allocation k. */
  ghost predicate StackWord(h: Heap, r: (nat, nat), a: nat, k: nat) {
    && ((r.0 <= a && a + 4 <= r.1) || (r.1 <= a && a + 4 <= r.0))
    && a % 4 == 0 && h.load(a) != 0 && h.Resolve(h.load(a)) == Some(k)
  }

  lemma StackRoot(h: Heap, r: (nat, nat), k: nat)
    ensures h.Root(StackItem(r), k) <==> exists a :: StackWord(h, r, a, k)
  {
    var it := StackItem(r);
    if a: nat :| h.WordTo(it.ptr, it.size, a, k) { assert StackWord(h, r, a, k); }
    if a: nat :| StackWord(h, r, a, k) { assert h.WordTo(it.ptr, it.size, a, k); }
  }

  /** Some item stands for k, or points to it. */
  ghost predicate IsRoot(h: Heap, items: seq<Item>, k: nat) {
    exists it :: it in items && h.Root(it, k)
  }

  lemma RootOfBoth(h: Heap, xs: seq<Item>, ys: seq<Item>, k: nat)
    ensures IsRoot(h, xs + ys, k) <==> IsRoot(h, xs, k) || IsRoot(h, ys, k)
  {
    if it :| it in xs && h.Root(it, k) { assert it in xs + ys; }
    if it :| it in ys && h.Root(it, k) { assert it in xs + ys; }
  }

  lemma RootOfOne(h: Heap, it: Item, k: nat)
    ensures IsRoot(h, [it], k) <==> h.Root(it, k)
  {
    assert it in [it];
  }

  ghost predicate InStacks(h: Heap, stacks: seq<(nat, nat)>, k: nat) {
    exists i, a :: 0 <= i < |stacks| && StackWord(h, stacks[i], a, k)
  }

  lemma {:induction false} StackRoots(h: Heap, stacks: seq<(nat, nat)>, k: nat)
    ensures IsRoot(h, StackItems(stacks), k) <==> InStacks(h, stacks, k)
  {
    if stacks != [] {
      var front, last := stacks[..|stacks| - 1], stacks[|stacks| - 1];
      StackRoots(h, front, k);
      RootOfBoth(h, StackItems(front), [StackItem(last)], k);
      RootOfOne(h, StackItem(last), k);
      StackRoot(h, last, k);
      if i, a :| 0 <= i < |front| && StackWord(h, front[i], a, k) { assert StackWord(h, stacks[i], a, k); }
      if i, a :| 0 <= i < |stacks| && StackWord(h, stacks[i], a, k) {
        if i < |front| { assert StackWord(h, front[i], a, k); } else { assert StackWord(h, last, a, k); }
      }
      if a :| StackWord(h, last, a, k) { assert StackWord(h, stacks[|stacks| - 1], a, k); }
    }
  }

  ghost predicate AmongIgnored(h: Heap, objs: seq<(nat, nat)>, k: nat) {
    exists i :: 0 <= i < |objs| && h.Resolve(objs[i].0) == Some(k)
  }

  lemma {:induction false} IgnoredRoots(h: Heap, objs: seq<(nat, nat)>, k: nat)
    ensures IsRoot(h, IgnoredItems(objs), k) <==> AmongIgnored(h, objs, k)
  {
    if objs != [] {
      var front, last := objs[..|objs| - 1], objs[|objs| - 1];
      IgnoredRoots(h, front, k);
      RootOfBoth(h, IgnoredItems(front), [Item(last.0, last.1, MustBeOnHeap)], k);
      RootOfOne(h, Item(last.0, last.1, MustBeOnHeap), k);
      if i :| 0 <= i < |front| && h.Resolve(front[i].0) == Some(k) { assert objs[i] == front[i]; }
      if i :| 0 <= i < |objs| && h.Resolve(objs[i].0) == Some(k) { assert i < |front| ==> objs[i] == front[i]; }
    }
  }

  /** Allocation k was made by code that is disabled, and no stack lies inside it. */
  ghost predicate AmongDisabled(d: Disabled, stacks: map<nat, nat>, allocs: seq<Alloc>, k: nat) {
    exists i :: 0 <= i < |allocs| && OffAt(d, stacks, allocs[i], k)
  }

  ghost predicate OffAt(d: Disabled, stacks: map<nat, nat>, a: Alloc, k: nat) {
    a.ptr == k && IsDisabled(d, a.stack) && !StackInside(stacks, a.ptr, a.ptr + a.bytes)
  }

  lemma {:induction false} DisabledRoots(h: Heap, d: Disabled, stacks: map<nat, nat>, allocs: seq<Alloc>, k: nat)
    requires forall i :: 0 <= i < |allocs| ==> allocs[i].ptr in h.tracked
    ensures IsRoot(h, DisabledItems(d, stacks, allocs), k) <==> AmongDisabled(d, stacks, allocs, k)
  {
    hide IsDisabled, StackInside;
    if allocs != [] {
      var front, last := allocs[..|allocs| - 1], allocs[|allocs| - 1];
      DisabledRoots(h, d, stacks, front, k);
      RootOfBoth(h, DisabledItems(d, stacks, front), DisabledItem(d, stacks, last), k);
      RootOfOne(h, Item(last.ptr, last.bytes, MustBeOnHeap), k);
      if i :| 0 <= i < |front| && OffAt(d, stacks, front[i], k) { assert allocs[i] == front[i]; }
      if i :| 0 <= i < |allocs| && OffAt(d, stacks, allocs[i], k) { assert i < |front| ==> allocs[i] == front[i]; }
      if OffAt(d, stacks, last, k) { assert OffAt(d, stacks, allocs[|allocs| - 1], k); }
    }
  }

  ghost predicate InLibraries(h: Heap, libraries: seq<seq<Item>>, k: nat) {
    exists i :: 0 <= i < |libraries| && IsRoot(h, libraries[i], k)
  }

  lemma {:induction false} LibraryRoots(h: Heap, libraries: seq<seq<Item>>, k: nat)
    ensures IsRoot(h, Flat(libraries), k) <==> InLibraries(h, libraries, k)
  {
    hide IsRoot;
    if libraries != [] {
      var front, last := libraries[..|libraries| - 1], libraries[|libraries| - 1];
      LibraryRoots(h, front, k);
      RootOfBoth(h, Flat(front), last, k);
      if i :| 0 <= i < |front| && IsRoot(h, front[i], k) { assert libraries[i] == front[i]; }
      if i :| 0 <= i < |libraries| && IsRoot(h, libraries[i], k) { assert i < |front| ==> libraries[i] == front[i]; }
      if IsRoot(h, last, k) { assert IsRoot(h, libraries[|libraries| - 1], k); }
    } else {
      assert !IsRoot(h, [], k) by { NoRoot(h, k); }
    }
  }

  lemma NoRoot(h: Heap, k: nat)
    ensures !IsRoot(h, [], k)
  {
  }

  /**
   Where a leak check starts from: words between the ends of a thread's stack, or of its
   own; words of registers; objects it was told to ignore; allocations of disabled code;
   global data.
   */
  ghost predicate StartsFrom(h: Heap, g: Given, k: nat) {
    || InStacks(h, g.threads, k)
    || (g.registers.Some? && h.PointsTo(g.registers.value.0, g.registers.value.1, k))
    || (g.self.Some? && exists a :: StackWord(h, g.self.value, a, k))
    || AmongIgnored(h, g.objs, k)
    || AmongDisabled(g.d, Registered(Registered(map[], g.threads), Optional(g.self)), g.allocs, k)
    || InLibraries(h, g.libraries, k)
  }

  lemma RootsAre(h: Heap, g: Given, k: nat)
    requires forall i :: 0 <= i < |g.allocs| ==> g.allocs[i].ptr in h.tracked
    ensures IsRoot(h, AllRoots(g), k) <==> StartsFrom(h, g, k)
  {
    hide IsRoot, StackItems, StackItem, IgnoredItems, DisabledItems, Flat, Registered, InStacks, AmongIgnored;
    hide AmongDisabled, InLibraries;
    var stacks := Registered(Registered(map[], g.threads), Optional(g.self));
    var a := StackItems(g.threads);
    var b := if g.registers.Some? then [Item(g.registers.value.0, g.registers.value.1, ThreadRegisters)] else [];
    var c := if g.self.Some? then [StackItem(g.self.value)] else [];
    NoRoot(h, k);
    StackRoots(h, g.threads, k);
    if g.registers.Some? { RootOfOne(h, b[0], k); }
    if g.self.Some? {
      RootOfOne(h, c[0], k);
      StackRoot(h, g.self.value, k);
    }
    IgnoredRoots(h, g.objs, k);
    DisabledRoots(h, g.d, stacks, g.allocs, k);
    LibraryRoots(h, g.libraries, k);
    RootOfBoth(h, a, b, k);
    RootOfBoth(h, a + b, c, k);
    RootOfBoth(h, a + b + c, IgnoredItems(g.objs), k);
    RootOfBoth(h, a + b + c + IgnoredItems(g.objs), DisabledItems(g.d, stacks, g.allocs), k);
    RootOfBoth(h, a + b + c + IgnoredItems(g.objs) + DisabledItems(g.d, stacks, g.allocs), Flat(g.libraries), k);
  }

  /** From the first allocation of the path to the last, each holds a pointer to the next. */
  ghost predicate Leads(h: Heap, path: seq<nat>, k: nat) {
    && path != [] && path[|path| - 1] == k
    && forall i :: 0 <= i < |path| - 1 ==> h.Edge(path[i], path[i + 1])
  }

  /** A chain of pointers leads to allocation k from where the check starts. */
  ghost predicate LedTo(h: Heap, g: Given, k: nat) {
    exists path :: Leads(h, path, k) && StartsFrom(h, g, path[0])
  }

  /** These are the allocations reachable from all roots. */
  lemma ReachableIs(h: Heap, g: Given, k: nat)
    requires forall i :: 0 <= i < |g.allocs| ==> g.allocs[i].ptr in h.tracked
    ensures Reachable(h, AllRoots(g), k) <==> LedTo(h, g, k)
  {
    hide AllRoots, StartsFrom;
    var items := AllRoots(g);
    if path :| Path(h, items, path) && path[|path| - 1] == k {
      assert Leads(h, path, k) && IsRoot(h, items, path[0]);
      RootsAre(h, g, path[0]);
    }
    if path :| Leads(h, path, k) && StartsFrom(h, g, path[0]) {
      RootsAre(h, g, path[0]);
      var it :| it in items && h.Root(it, path[0]);
      assert Path(h, items, path);
    }
  }

  /** What a word of a stack stands for is where the check starts. */
  lemma StackLeads(h: Heap, g: Given, r: (nat, nat), a: nat, k: nat)
    requires (r in g.threads || g.self == Some(r)) && StackWord(h, r, a, k)
    ensures LedTo(h, g, k)
  {
    hide StackWord;
    if r in g.threads {
      var i :| 0 <= i < |g.threads| && g.threads[i] == r;
      assert StackWord(h, g.threads[i], a, k);
    }
    assert Leads(h, [k], k) && [k][0] == k;
  }

  class Leaks {
    const h: Heap
    const marker: Marker
    var stacks: map<nat, nat>
    /** All roots pushed so far. */
    ghost var roots: seq<Item>

    constructor (h: Heap)
      ensures fresh(marker) && this.h == h && Ready() && roots == [] && stacks == map[] && marker.ignored == {}
    {
      this.h := h;
      marker := new Marker(h);
      stacks, roots := map[], [];
    }

    /** Between marking calls: what is marked is what the roots so far reach. */
    ghost predicate Ready()
      reads this`roots, marker
    {
      && marker.h == h && marker.live == [] && marker.ignored <= h.tracked.Keys
      && h.Least({}, roots, marker.ignored)
    }

    lemma MarkedSoFar()
      requires Ready()
      ensures h.Least({}, roots, marker.ignored)
    {
    }

    /** Marks from the items on the stack. */
    method Go(ghost items: seq<Item>)
      requires marker.h == h && marker.live == items && marker.ignored <= h.tracked.Keys
      requires h.Least({}, roots, marker.ignored)
      requires forall it :: it in items ==> h.Sound(it) && !it.place.IgnoredOnHeap?
      modifies this`roots, marker
      ensures Ready() && roots == old(roots) + items
    {
      ghost var s := marker.ignored;
      marker.IgnoreLiveObjects();
      MarkingComposes(h, {}, roots, s, items, marker.ignored);
      roots := roots + items;
    }

    /** The ends may come in either order. */
    method RegisterStackRange(top: nat, bottom: nat)
      modifies this`stacks, marker`live
      ensures top <= bottom ==> marker.live == old(marker.live) + [Item(top, bottom - top, ThreadStack)]
      ensures bottom <= top ==> marker.live == old(marker.live) + [Item(bottom, top - bottom, ThreadStack)]
      ensures top <= bottom ==> stacks == if top in old(stacks) then old(stacks) else old(stacks)[top := bottom]
      ensures bottom <= top ==> stacks == if bottom in old(stacks) then old(stacks) else old(stacks)[bottom := top]
    {
      var p1, p2 := Min(top, bottom), Max(top, bottom);
      marker.live := marker.live + [Item(p1, p2 - p1, ThreadStack)];
      if p1 !in stacks { stacks := stacks[p1 := p2]; }
    }

    /** IgnoreLiveThreads: the stacks of the other threads, then their registers. */
    method IgnoreThreads(threads: seq<(nat, nat)>, registers: Option<(nat, nat)>)
      requires Ready()
      modifies this, marker
      ensures Ready()
      ensures roots == old(roots) + StackItems(threads)
                + if registers.Some? then [Item(registers.value.0, registers.value.1, ThreadRegisters)] else []
      ensures stacks == Registered(old(stacks), threads)
    {
      for i := 0 to |threads|
        invariant marker.h == h && marker.live == StackItems(threads[..i]) && marker.ignored <= h.tracked.Keys
        invariant roots == old(roots) && h.Least({}, roots, marker.ignored)
        invariant stacks == Registered(old(stacks), threads[..i])
        invariant forall it :: it in marker.live ==> it.place.ThreadStack?
      {
        RegisterStackRange(threads[i].0, threads[i].1);
        assert threads[..i + 1][..i] == threads[..i];
      }
      assert threads[..|threads|] == threads;
      Go(StackItems(threads));
      if registers.Some? {
        marker.live := [Item(registers.value.0, registers.value.1, ThreadRegisters)];
        Go(marker.live);
      }
    }
  
    /** The loop over what IgnoreObject recorded; false where the program aborts. */
    method PushIgnored(objs: seq<(nat, nat)>) returns (ok: bool)
      requires Ready()
      modifies marker`live
      ensures ok <==> StillThere(h, objs)
      ensures ok ==>
                && marker.live == IgnoredItems(objs)
                && forall it :: it in marker.live ==> h.Sound(it) && it.place.MustBeOnHeap?
    {
      for i := 0 to |objs|
        invariant StillThere(h, objs[..i]) && marker.live == IgnoredItems(objs[..i])
        invariant forall it :: it in marker.live ==> h.Sound(it) && it.place.MustBeOnHeap?
      {
        var found := h.Resolve(objs[i].0);
        if found.None? || objs[i].1 != h.tracked[found.value] {
          return false;
        }
        marker.live := marker.live + [Item(objs[i].0, objs[i].1, MustBeOnHeap)];
        assert objs[..i + 1][..i] == objs[..i];
      }
      assert objs[..|objs|] == objs;
      ok := true;
    }

    /** MakeDisabledLiveCallback */
    method PushIfDisabled(d: Disabled, a: Alloc)
      modifies marker`live
      ensures marker.live == old(marker.live) + DisabledItem(d, stacks, a)
    {
      hide IsDisabled;
      var off := FindDisabled(d, a.stack);
      if off {
        var k := LowerBound(stacks, a.ptr);
        assert k.None? ==> !StackInside(stacks, a.ptr, a.ptr + a.bytes);
        if !(k.Some? && stacks[k.value] <= a.ptr + a.bytes) {
          marker.live := marker.live + [Item(a.ptr, a.bytes, MustBeOnHeap)];
        }
      }
    }

    /** Iterate over all allocations with MakeDisabledLiveCallback. */
    method PushDisabled(d: Disabled, allocs: seq<Alloc>)
      requires Ready()
      requires forall i :: 0 <= i < |allocs| ==>
                allocs[i].ptr in h.tracked && h.tracked[allocs[i].ptr] == allocs[i].bytes
      modifies marker`live
      ensures marker.live == DisabledItems(d, stacks, allocs)
      ensures forall it :: it in marker.live ==> h.Sound(it) && it.place.MustBeOnHeap?
    {
      hide IsDisabled, StackInside, Heap.Least;
      for i := 0 to |allocs|
        invariant marker.live == DisabledItems(d, stacks, allocs[..i])
        invariant forall it :: it in marker.live ==> h.Sound(it) && it.place.MustBeOnHeap?
      {
        assert allocs[..i + 1][..i] == allocs[..i];
        PushIfDisabled(d, allocs[i]);
      }
      assert allocs[..|allocs|] == allocs;
    }

    /** IgnoreNonThreadLiveObjectsLocked; false where the program aborts. */
    method IgnoreNonThread(self: Option<(nat, nat)>, objs: seq<(nat, nat)>, d: Disabled, allocs: seq<Alloc>,
                           libraries: seq<seq<Item>>)
      returns (ok: bool)
      requires Ready()
      requires forall i :: 0 <= i < |allocs| ==>
                allocs[i].ptr in h.tracked && h.tracked[allocs[i].ptr] == allocs[i].bytes
      requires forall i, it :: 0 <= i < |libraries| && it in libraries[i] ==> it.place.InGlobalData?
      modifies this, marker
      ensures (ok <==> StillThere(h, objs)) && stacks == Registered(old(stacks), Optional(self))
      ensures ok ==>
                && Ready()
                && roots == old(roots) + (if self.Some? then [StackItem(self.value)] else []) + IgnoredItems(objs)
                                       + DisabledItems(d, stacks, allocs) + Flat(libraries)
    {
      hide Heap.Least, StackItems, IgnoredItems, DisabledItems;
      if self.Some? {
        RegisterStackRange(self.value.0, self.value.1);
        assert Optional(self)[..0] == [];
        assert marker.live == [StackItem(self.value)];
        assert StackItem(self.value).place.ThreadStack? by { StackPlace(self.value); }
        Go([StackItem(self.value)]);
      }
      assert roots == old(roots) + (if self.Some? then [StackItem(self.value)] else []);
      ok := PushIgnored(objs);
      if !ok {
        return;
      }
      Go(IgnoredItems(objs));
      PushDisabled(d, allocs);
      Go(DisabledItems(d, stacks, allocs));
      ghost var before, ranges := roots, stacks;
      for i := 0 to |libraries|
        invariant Ready() && stacks == ranges && roots == before + Flat(libraries[..i])
      {
        marker.live := libraries[i];
        assert libraries[..i + 1][..i] == libraries[..i];
        Go(libraries[i]);
        Associate(before, Flat(libraries[..i]), libraries[i]);
      }
      assert libraries[..|libraries|] == libraries;
    }

    /**
     IgnoreAllLiveObjectsLocked: no stack range is known at first, and afterwards the marked
     allocations are exactly those reachable from all the roots together.
     */
    method IgnoreAll(g: Given) returns (ok: bool)
      requires Ready() && roots == []
      requires forall i :: 0 <= i < |g.allocs| ==>
                g.allocs[i].ptr in h.tracked && h.tracked[g.allocs[i].ptr] == g.allocs[i].bytes
      requires forall i, it :: 0 <= i < |g.libraries| && it in g.libraries[i] ==> it.place.InGlobalData?
      modifies this, marker
      ensures ok <==> StillThere(h, g.objs)
      ensures stacks == Registered(Registered(map[], g.threads), Optional(g.self))
      ensures ok ==> Ready() && roots == AllRoots(g)
      ensures ok ==> forall k :: k in marker.ignored <==> Reachable(h, roots, k)
      ensures ok ==> forall k :: k in marker.ignored <==> LedTo(h, g, k)
      ensures ok ==> forall r, a, k ::
                (r in g.threads || g.self == Some(r)) && StackWord(h, r, a, k) ==> k in marker.ignored
    {
      hide Heap.Least, StackItem, StackItems, IgnoredItems, DisabledItems, Flat, Reachable, Ready, Registered;
      hide LedTo, StackWord;
      stacks := map[];
      IgnoreThreads(g.threads, g.registers);
      assert [] + StackItems(g.threads) == StackItems(g.threads);
      ok := IgnoreNonThread(g.self, g.objs, g.d, g.allocs, g.libraries);
      if ok {
        assert h.Least({}, roots, marker.ignored) by { MarkedSoFar(); }
        assert roots == AllRoots(g);
        forall k
          ensures k in marker.ignored <==> Reachable(h, roots, k)
          ensures k in marker.ignored <==> LedTo(h, g, k)
        {
          MarkedIsReachable(h, roots, marker.ignored, k);
          ReachableIs(h, g, k);
        }
        forall r, a, k | (r in g.threads || g.self == Some(r)) && StackWord(h, r, a, k) ensures k in marker.ignored {
          StackLeads(h, g, r, a, k);
        }
      }
    }
  }
}
