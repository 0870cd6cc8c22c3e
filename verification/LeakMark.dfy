/**
 The mark phase of the leak checker: from root ranges, through the words of tracked
 allocations, to every allocation still reachable. Words are four bytes long.
 */
module LeakMark {
  import opened Basics

  const WORD := 4
  const ARRAY_OFFSET := 4
  const STRING_OFFSET := 12

  datatype Placement = MustBeOnHeap | IgnoredOnHeap | InGlobalData | ThreadStack | ThreadRegisters

  /** A range of memory that is live. */
  datatype Item = Item(ptr: nat, size: nat, place: Placement)

  /** The tracked allocations with their sizes, and the word at each address. */
  datatype Heap = Heap(tracked: map<nat, nat>, load: nat -> nat) {

    /** HaveOnHeapLocked: the allocation a pointer stands for, which may point past a length word or a string header. */
    function Resolve(p: nat): (k: Option<nat>)
      ensures k.Some? ==> k.value in tracked
    {
      if p in tracked then Some(p)
      else if p >= ARRAY_OFFSET && p - ARRAY_OFFSET in tracked && tracked[p - ARRAY_OFFSET] > ARRAY_OFFSET then
        Some(p - ARRAY_OFFSET)
      else if p >= STRING_OFFSET && p - STRING_OFFSET in tracked && tracked[p - STRING_OFFSET] > STRING_OFFSET then
        Some(p - STRING_OFFSET)
      else None
    }

    /** p is a pointer to allocation k: to its start, or inside it behind a length word or a string header. */
    ghost predicate PointerTo(p: nat, k: nat) {
      k in tracked && (p == k || ((p == k + 4 || p == k + 12) && p < k + tracked[k]))
    }

    /**
     A pointer is resolved exactly if it points to some allocation; the start of one
     wins, then the shorter offset.
     */
    lemma ResolveFinds(p: nat)
      ensures Resolve(p).Some? <==> exists k: nat :: PointerTo(p, k)
      ensures Resolve(p).Some? ==>
                PointerTo(p, Resolve(p).value) && forall k: nat :: PointerTo(p, k) ==> k <= Resolve(p).value
    {
      if Resolve(p).Some? { assert PointerTo(p, Resolve(p).value); }
      forall k: nat | PointerTo(p, k) ensures Resolve(p).Some? && k <= Resolve(p).value {}
    }

    /** The aligned word at `a` lies in the range and stands for allocation k. */
    ghost predicate WordTo(ptr: nat, size: nat, a: nat, k: nat) {
      a % WORD == 0 && ptr <= a && a + WORD <= ptr + size && load(a) != 0 && Resolve(load(a)) == Some(k)
    }

    ghost predicate PointsTo(ptr: nat, size: nat, k: nat) {
      exists a :: WordTo(ptr, size, a, k)
    }

    /** Allocation j holds a pointer to allocation k. */
    ghost predicate Edge(j: nat, k: nat) {
      j in tracked && PointsTo(j, tracked[j], k)
    }

    ghost predicate Closed(s: set<nat>) {
      forall j, k :: j in s && Edge(j, k) ==> k in s
    }

    /** An item that must be on the heap is a tracked allocation, whole. */
    ghost predicate Sound(it: Item) {
      it.place.MustBeOnHeap? ==> Resolve(it.ptr).Some? && it.size == tracked[Resolve(it.ptr).value]
    }

    /** k is the allocation the item is, or one that it points to. */
    ghost predicate Root(it: Item, k: nat) {
      if it.place.MustBeOnHeap? then Resolve(it.ptr) == Some(k)
      else PointsTo(it.ptr, it.size, k)
    }

    ghost predicate Roots(items: seq<Item>, s: set<nat>) {
      forall i, k :: 0 <= i < |items| && Root(items[i], k) ==> k in s
    }

    /** s holds what was marked before and the roots, and is closed. */
    ghost predicate Covers(before: set<nat>, items: seq<Item>, s: set<nat>) {
      before <= s && Roots(items, s) && Closed(s)
    }

    /** The least such set. */
    ghost predicate Least(before: set<nat>, items: seq<Item>, s: set<nat>) {
      Covers(before, items, s) && forall t {:trigger Covers(before, items, t)} :: Covers(before, items, t) ==> s <= t
    }
  }

  /** Marking in two goes marks what marking at once would. */
  lemma MarkingComposes(h: Heap, s0: set<nat>, a: seq<Item>, s1: set<nat>, b: seq<Item>, s2: set<nat>)
    requires h.Least(s0, a, s1) && h.Least(s1, b, s2)
    ensures h.Least(s0, a + b, s2)
  {
    assert h.Roots(a, s2);
    assert h.Roots(a + b, s2) by {
      forall i, k | 0 <= i < |a + b| && h.Root((a + b)[i], k) ensures k in s2 {
        if i < |a| { assert h.Root(a[i], k); } else { assert h.Root(b[i - |a|], k); }
      }
    }
    forall t | h.Covers(s0, a + b, t) ensures s2 <= t {
      assert h.Roots(a, t) by {
        forall i, k | 0 <= i < |a| && h.Root(a[i], k) ensures k in t { assert (a + b)[i] == a[i]; }
      }
      assert h.Roots(b, t) by {
        forall i, k | 0 <= i < |b| && h.Root(b[i], k) ensures k in t { assert (a + b)[|a| + i] == b[i]; }
      }
      assert h.Covers(s0, a, t);
      assert h.Covers(s1, b, t);
    }
  }

  /** There is only one such set, so the order of roots does not matter. */
  lemma MarkingIsUnique(h: Heap, s0: set<nat>, a: seq<Item>, b: seq<Item>, s: set<nat>, t: set<nat>)
    requires h.Least(s0, a, s) && h.Least(s0, b, t) && forall it :: it in a <==> it in b
    ensures s == t
  {
    assert h.Roots(b, s) by {
      forall i, k | 0 <= i < |b| && h.Root(b[i], k) ensures k in s { assert b[i] in a; }
    }
    assert h.Roots(a, t) by {
      forall i, k | 0 <= i < |a| && h.Root(a[i], k) ensures k in t { assert a[i] in b; }
    }
    assert h.Covers(s0, b, s) && h.Covers(s0, a, t);
  }

  /** Each allocation on the path holds a pointer to the next, and a root stands for the first. */
  ghost predicate Path(h: Heap, items: seq<Item>, path: seq<nat>) {
    && path != []
    && (exists i :: 0 <= i < |items| && h.Root(items[i], path[0]))
    && (forall i :: 0 <= i < |path| - 1 ==> h.Edge(path[i], path[i + 1]))
  }

  ghost predicate Reachable(h: Heap, items: seq<Item>, k: nat) {
    exists path :: Path(h, items, path) && path[|path| - 1] == k
  }

  lemma {:induction false} PathStays(h: Heap, items: seq<Item>, path: seq<nat>, s: set<nat>, i: nat)
    requires Path(h, items, path) && h.Roots(items, s) && h.Closed(s) && i < |path|
    ensures path[i] in s
  {
    if i > 0 {
      PathStays(h, items, path, s, i - 1);
      assert h.Edge(path[i - 1], path[i - 1 + 1]);
    }
  }

  lemma ReachOne(h: Heap, items: seq<Item>, j: nat, k: nat)
    requires Reachable(h, items, j) && h.Edge(j, k)
    ensures Reachable(h, items, k)
  {
    var path :| Path(h, items, path) && path[|path| - 1] == j;
    var longer := path + [k];
    forall i | 0 <= i < |longer| - 1 ensures h.Edge(longer[i], longer[i + 1]) {
      if i < |path| - 1 { assert h.Edge(path[i], path[i + 1]); }
    }
    assert Path(h, items, longer) && longer[|longer| - 1] == k;
  }

  /** Marking from nothing finds exactly the allocations that a chain of pointers from a root leads to. */
  lemma MarkedIsReachable(h: Heap, items: seq<Item>, s: set<nat>, k: nat)
    requires h.Least({}, items, s)
    ensures k in s <==> Reachable(h, items, k)
  {
    var r := set j | j in h.tracked && Reachable(h, items, j);
    forall i, j | 0 <= i < |items| && h.Root(items[i], j) ensures j in r {
      assert Path(h, items, [j]);
      assert [j][|[j]| - 1] == j;
    }
    forall j, m | j in r && h.Edge(j, m) ensures m in r { ReachOne(h, items, j, m); }
    assert h.Covers({}, items, r);
    if Reachable(h, items, k) {
      var path :| Path(h, items, path) && path[|path| - 1] == k;
      PathStays(h, items, path, s, |path| - 1);
    }
  }

  /** The bytes of the allocations in s. */
  ghost function Bytes(h: Heap, s: set<nat>): nat
    requires s <= h.tracked.Keys
  {
    if s == {} then 0
    else var k :| k in s; h.tracked[k] + Bytes(h, s - {k})
  }

  lemma {:induction false} BytesAdd(h: Heap, s: set<nat>, k: nat)
    requires s <= h.tracked.Keys && k in h.tracked && k !in s
    ensures Bytes(h, s + {k}) == Bytes(h, s) + h.tracked[k]
  {
    var t := s + {k};
    var j :| j in t && Bytes(h, t) == h.tracked[j] + Bytes(h, t - {j});
    if j == k {
      assert t - {j} == s;
    } else {
      assert t - {j} == (s - {j}) + {k};
      BytesAdd(h, s - {j}, k);
      BytesAdd(h, s - {j}, j);
      assert (s - {j}) + {j} == s;
    }
  }

  class Marker {
    const h: Heap
    var live: seq<Item>
    var ignored: set<nat>
    var liveObjects: int
    var liveBytes: int

    constructor (h: Heap)
      ensures this.h == h && live == [] && ignored == {} && liveObjects == 0 && liveBytes == 0
    {
      this.h := h;
      live, ignored, liveObjects, liveBytes := [], {}, 0, 0;
    }

    /** What is pending is sound, and what is pending as already marked is so. */
    ghost predicate Pending()
      reads this
    {
      && ignored <= h.tracked.Keys
      && (forall it :: it in live ==> h.Sound(it))
      && (forall it :: it in live && it.place.IgnoredOnHeap? ==> it.ptr in ignored && it.size == h.tracked[it.ptr])
    }

    ghost predicate Waits(j: nat)
      reads this
    {
      exists it :: it in live && it.place.IgnoredOnHeap? && it.ptr == j
    }

    /**
     Every pointer out of a marked allocation is marked, unless the allocation is pending
     or the one being scanned.
     */
    ghost predicate Frontier(cur: Option<nat>)
      reads this
    {
      forall j, k :: j in ignored && h.Edge(j, k) ==> k in ignored || Waits(j) || cur == Some(j)
    }

    /** Nothing is marked or pending that does not have to be. */
    ghost predicate Needed(s0: set<nat>, items: seq<Item>)
      reads this
    {
      forall t {:trigger h.Covers(s0, items, t)} :: h.Covers(s0, items, t) ==> ignored <= t && h.Roots(live, t)
    }

    ghost predicate MustMark(s0: set<nat>, items: seq<Item>, k: nat)
    {
      forall t {:trigger h.Covers(s0, items, t)} :: h.Covers(s0, items, t) ==> k in t
    }

    /** How much is still unmarked. */
    ghost function Unmarked(): (n: nat)
      reads this
    {
      |h.tracked.Keys - ignored|
    }

    /** Marks allocation k and counts it as `size` bytes. */
    method Mark(k: nat, size: nat)
      requires k in h.tracked && k !in ignored && size == h.tracked[k] && ignored <= h.tracked.Keys
      modifies this`ignored, this`liveObjects, this`liveBytes
      ensures ignored == old(ignored) + {k} && Unmarked() < old(Unmarked())
      ensures liveObjects - |ignored| == old(liveObjects - |ignored|)
      ensures liveBytes - Bytes(h, ignored) == old(liveBytes - Bytes(h, ignored))
    {
      BytesAdd(h, ignored, k);
      assert h.tracked.Keys - ignored == (h.tracked.Keys - (ignored + {k})) + {k};
      ignored := ignored + {k};
      liveObjects := liveObjects + 1;
      liveBytes := liveBytes + size;
    }

    /** One word of the scan. */
    method Visit(w: nat, ghost cur: Option<nat>, ghost s0: set<nat>, ghost items: seq<Item>)
      requires Pending() && Frontier(cur) && Needed(s0, items)
      requires w != 0 && h.Resolve(w).Some? ==> MustMark(s0, items, h.Resolve(w).value)
      modifies this
      ensures Pending() && Frontier(cur) && Needed(s0, items)
      ensures w != 0 && h.Resolve(w).Some? ==> h.Resolve(w).value in ignored
      ensures old(ignored) <= ignored && old(live) <= live
      ensures (ignored == old(ignored) && live == old(live)) || Unmarked() < old(Unmarked())
      ensures liveObjects - |ignored| == old(liveObjects - |ignored|)
      ensures liveBytes - Bytes(h, ignored) == old(liveBytes - Bytes(h, ignored))
    {
      if w == 0 {
        return;
      }
      var found := h.Resolve(w);
      if found.Some? && found.value !in ignored {
        var k := found.value;
        ghost var before := live;
        Mark(k, h.tracked[k]);
        live := live + [Item(k, h.tracked[k], IgnoredOnHeap)];
        assert live[|before|] == Item(k, h.tracked[k], IgnoredOnHeap);
        assert forall it :: it in before ==> it in live;
        forall t | h.Covers(s0, items, t) ensures ignored <= t && h.Roots(live, t) {
          forall i, m | 0 <= i < |live| && h.Root(live[i], m) ensures m in t {
            if i == |before| { assert h.Edge(k, m); } else { assert h.Root(before[i], m); }
          }
        }
      }
    }
  
    ghost predicate Kept(s0: set<nat>, items: seq<Item>, cur: Option<nat>)
      reads this
    {
      Pending() && Frontier(cur) && Needed(s0, items)
    }

    ghost predicate Counted(objects: int, bytes: int)
      reads this
    {
      ignored <= h.tracked.Keys && liveObjects - |ignored| == objects && liveBytes - Bytes(h, ignored) == bytes
    }

    /** Marks what the words of a range stand for. */
    method Scan(ptr: nat, size: nat, ghost cur: Option<nat>, ghost s0: set<nat>, ghost items: seq<Item>,
                ghost objects: int, ghost bytes: int)
      requires Kept(s0, items, cur) && Counted(objects, bytes)
      requires forall k :: h.PointsTo(ptr, size, k) ==> MustMark(s0, items, k)
      modifies this
      ensures Kept(s0, items, cur) && Counted(objects, bytes)
      ensures forall k :: h.PointsTo(ptr, size, k) ==> k in ignored
      ensures old(ignored) <= ignored && old(live) <= live
      ensures (ignored == old(ignored) && live == old(live)) || Unmarked() < old(Unmarked())
    {
      hide Pending, Frontier, Needed, MustMark, Bytes;
      var obj, left := ptr, size;
      var remainder := obj % WORD;
      if remainder != 0 {
        obj := obj + (WORD - remainder);
        left := if left >= WORD - remainder then left - (WORD - remainder) else 0;
      }
      while left >= WORD
        invariant obj % WORD == 0 && ptr <= obj
        invariant obj + left == ptr + size || (left == 0 && obj > ptr + size)
        invariant Kept(s0, items, cur) && Counted(objects, bytes)
        invariant forall a: nat, k :: a < obj && h.WordTo(ptr, size, a, k) ==> k in ignored
        invariant old(ignored) <= ignored && old(live) <= live
        invariant (ignored == old(ignored) && live == old(live)) || Unmarked() < old(Unmarked())
        decreases left
      {
        var w := h.load(obj);
        if w != 0 && h.Resolve(w).Some? {
          assert h.WordTo(ptr, size, obj, h.Resolve(w).value);
          assert h.PointsTo(ptr, size, h.Resolve(w).value);
        }
        Visit(w, cur, s0, items);
        obj := obj + WORD;
        left := left - WORD;
      }
    }

    /** The item on top of the stack comes off; an allocation is marked before its words are scanned. */
    method TakeTop(ghost s0: set<nat>, ghost items: seq<Item>, ghost objects: int, ghost bytes: int)
      returns (obj: nat, size: nat, ghost cur: Option<nat>)
      requires live != [] && Kept(s0, items, None) && Counted(objects, bytes)
      modifies this
      ensures Kept(s0, items, cur) && Counted(objects, bytes) && old(ignored) <= ignored
      ensures live == old(live)[..|old(live)| - 1]
      ensures ignored == old(ignored) || Unmarked() < old(Unmarked())
      ensures cur.Some? ==> cur.value in h.tracked && obj == cur.value && size == h.tracked[obj]
      ensures forall k :: h.PointsTo(obj, size, k) ==> MustMark(s0, items, k)
      ensures var it := old(live)[|old(live)| - 1];
              forall k :: h.Root(it, k) ==> k in ignored || h.PointsTo(obj, size, k)
    {
      hide Bytes, Heap.PointsTo, Heap.Resolve;
      var it := live[|live| - 1];
      ghost var before := live;
      assert it in live;
      assert forall t {:trigger h.Covers(s0, items, t)} :: h.Covers(s0, items, t) ==>
          forall k :: h.Root(it, k) ==> k in t;
      live := live[..|live| - 1];
      assert forall x :: x in before ==> x in live || x == it;
      assert forall x :: x in live ==> x in before;
      assert Needed(s0, items);
      obj, size := it.ptr, it.size;
      cur := None;
      if it.place.MustBeOnHeap? {
        var found := h.Resolve(obj);
        assert h.Root(it, found.value);
        obj := found.value;
        cur := found;
        if obj !in ignored { Mark(obj, size); }
        forall k | h.PointsTo(obj, size, k) ensures MustMark(s0, items, k) { assert h.Edge(obj, k); }
      } else {
        if it.place.IgnoredOnHeap? { cur := Some(it.ptr); }
        forall k | h.PointsTo(obj, size, k) ensures MustMark(s0, items, k) { assert h.Root(it, k); }
      }
    }

    lemma ScannedAll(cur: Option<nat>)
      requires Frontier(cur)
      requires cur.Some? ==>
                cur.value in h.tracked && forall k :: h.PointsTo(cur.value, h.tracked[cur.value], k) ==> k in ignored
      ensures Frontier(None)
    {
    }

    /** One turn of the outer loop. */
    method ProcessTop(ghost s0: set<nat>, ghost items: seq<Item>, ghost objects: int, ghost bytes: int)
      requires live != [] && Kept(s0, items, None) && Counted(objects, bytes) && s0 <= ignored && Handled(items)
      modifies this
      ensures Kept(s0, items, None) && Counted(objects, bytes) && s0 <= ignored && Handled(items)
      ensures Unmarked() < old(Unmarked()) || (Unmarked() == old(Unmarked()) && |live| < |old(live)|)
    {
      hide Bytes, Pending, Frontier, Needed, MustMark, Heap.PointsTo, Heap.Root, Counted;
      ghost var it, before := live[|live| - 1], live;
      assert before == before[..|before| - 1] + [it];
      ghost var marked := ignored;
      var obj, size, cur := TakeTop(s0, items, objects, bytes);
      ghost var popped := live;
      Scan(obj, size, cur, s0, items, objects, bytes);
      ScannedAll(cur);
      forall i, k | 0 <= i < |items| && h.Root(items[i], k) ensures k in ignored || items[i] in live {
        assert k in marked || items[i] in before;
      }
    }

    lemma FrontierClosed()
      requires Frontier(None) && live == []
      ensures h.Closed(ignored)
    {
    }

    /** The roots that are not pending any more are marked. */
    ghost predicate Handled(items: seq<Item>)
      reads this
    {
      forall i, k :: 0 <= i < |items| && h.Root(items[i], k) ==> k in ignored || items[i] in live
    }

    /**
     IgnoreLiveObjectsLocked: whatever was marked and closed, afterwards exactly what the
     pending items reach is marked besides, each allocation counted once.
     */
    method IgnoreLiveObjects()
      requires ignored <= h.tracked.Keys && h.Closed(ignored)
      requires forall it :: it in live ==> h.Sound(it) && !it.place.IgnoredOnHeap?
      modifies this
      ensures live == [] && ignored <= h.tracked.Keys && h.Least(old(ignored), old(live), ignored)
      ensures liveObjects == old(liveObjects) + |ignored - old(ignored)|
      ensures liveBytes == old(liveBytes) + Bytes(h, ignored) - Bytes(h, old(ignored))
    {
      hide Bytes, Unmarked, Kept, Handled, Counted, Heap.Least, Heap.Closed, Heap.Sound;
      ghost var s0, items := ignored, live;
      ghost var objects, bytes := liveObjects - |ignored|, liveBytes - Bytes(h, ignored);
      Begin(s0, items, objects, bytes);
      while live != []
        invariant Kept(s0, items, None) && Counted(objects, bytes) && s0 <= ignored && Handled(items)
        decreases Unmarked(), |live|
      {
        ProcessTop(s0, items, objects, bytes);
      }
      End(s0, items, objects, bytes);
      assert ignored == s0 + (ignored - s0);
    }

    lemma Begin(s0: set<nat>, items: seq<Item>, objects: int, bytes: int)
      requires ignored <= h.tracked.Keys && h.Closed(ignored) && s0 == ignored && items == live
      requires forall it :: it in live ==> h.Sound(it) && !it.place.IgnoredOnHeap?
      requires objects == liveObjects - |ignored| && bytes == liveBytes - Bytes(h, ignored)
      ensures Kept(s0, items, None) && Counted(objects, bytes) && Handled(items)
    {
      hide Bytes, Heap.PointsTo, Heap.Root;
    }

    lemma End(s0: set<nat>, items: seq<Item>, objects: int, bytes: int)
      requires live == [] && Kept(s0, items, None) && Counted(objects, bytes) && s0 <= ignored && Handled(items)
      ensures ignored <= h.tracked.Keys && h.Least(s0, items, ignored)
      ensures objects == liveObjects - |ignored| && bytes == liveBytes - Bytes(h, ignored)
    {
      hide Bytes, Heap.PointsTo, Heap.Root;
      FrontierClosed();
    }
  }
}
