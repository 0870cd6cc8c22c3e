/** A leak check from end to end: mark what is reachable, then count what is not. */
module LeakReport {
  import opened HeapCounts
  import opened HeapProfile
  import opened Basics
  import opened LeakMark
  import opened LeakRoots

  /** The profiler's allocations as the marker sees them. */
  function Tracked(allocation: map<nat, AllocValue>): map<nat, nat> {
    map p | p in allocation :: allocation[p].bytes
  }

  /** The tracked allocations that no chain of pointers leads to from where the check starts. */
  ghost predicate Leaked(h: Heap, g: Given, allocation: map<nat, AllocValue>, p: nat) {
    p in allocation && !LedTo(h, g, p)
  }

  /** The tracked allocations split into ignored ones and the others. */
  lemma {:induction false} LiveSplits(m: map<nat, AllocValue>, s: set<nat>)
    requires s <= m.Keys
    ensures Live(m).Minus(Live(Only(m, s))) == Live(Only(m, m.Keys - s))
  {
    if s == {} {
      assert Only(m, m.Keys - s) == m;
      assert Only(m, s).Keys == {};
    } else {
      var p := Pick<nat>(s);
      LiveSplits(m, s - {p});
      OnlyAdd(m, s - {p}, p);
      LiveAdd(Only(m, s - {p}), p, m[p]);
      assert (s - {p}) + {p} == s;
      OnlyAdd(m, m.Keys - s, p);
      LiveAdd(Only(m, m.Keys - s), p, m[p]);
      assert (m.Keys - s) + {p} == m.Keys - (s - {p});
    }
  }

  ghost predicate Listed(allocation: map<nat, AllocValue>, a: Alloc) {
    a.ptr in allocation && a == Alloc(a.ptr, allocation[a.ptr].bytes, allocation[a.ptr].bucket.stack)
  }

  /** The allocations with their stacks, in the order in which the profiler's map iterates over them. */
  ghost predicate Lists(allocation: map<nat, AllocValue>, allocs: seq<Alloc>) {
    && (forall i :: 0 <= i < |allocs| ==> Listed(allocation, allocs[i]))
    && (forall p :: p in allocation ==> exists i :: 0 <= i < |allocs| && allocs[i].ptr == p)
  }

  /** leaks counts the leaked allocations, one by one, and the entries that were overwritten. */
  ghost predicate Reported(allocation: map<nat, AllocValue>, lost: seq<AllocValue>, load: nat -> nat, g: Given,
                           leaks: Load) {
    var h := Heap.Heap(Tracked(allocation), load);
    var left := set p | p in allocation && Leaked(h, g, allocation, p);
    leaks == Live(Only(allocation, left)).Plus(Lost(lost)) && leaks.count == |left| + |lost|
  }

  /**
   Mark from all roots in turn, then dump. Everything the marker ignores is tracked, so the
   dump never aborts; and the net count in the profile is that of exactly the allocations
   that are not reachable from the roots, if and only if no pointer was recorded twice
   without having been freed: each such entry is one more. False where the program aborts
   because an object it was told to ignore is gone.
   */
  method CheckForLeaks(profiler: HeapProfile, load: nat -> nat, g: Given) returns (ok: bool, leaks: Load)
    requires profiler.Valid()
    requires Lists(profiler.allocation, g.allocs)
    requires forall i, it :: 0 <= i < |g.libraries| && it in g.libraries[i] ==> it.place.InGlobalData?
    modifies profiler`counts, profiler`profile, profiler.buckets
    ensures profiler.Valid() && profiler.counts == old(profiler.counts)
    ensures ok <==> StillThere(Heap.Heap(Tracked(profiler.allocation), load), g.objs)
    ensures ok ==> Reported(profiler.allocation, profiler.lost, load, g, leaks)
  {
    hide Accounts, Live, Heap.Least, LedTo, Lost, StillThere, Reported, HeapProfile.Shape;
    leaks := Load(0, 0);
    var h := Heap.Heap(Tracked(profiler.allocation), load);
    var leaking := new Leaks(h);
    ok := leaking.IgnoreAll(g);
    if !ok {
      return;
    }
    var dumped := profiler.DumpForLeaks(leaking.marker.ignored);
    leaks := profiler.profile.Net();
    LeftOver(profiler.allocation, profiler.lost, load, g, leaking.marker.ignored);
  }

  lemma {:induction false} LostCounts(lost: seq<AllocValue>)
    ensures Lost(lost).count == |lost|
  {
    if lost != [] { LostCounts(lost[..|lost| - 1]); }
  }

  /** What is not ignored is leaked. */
  lemma LeftOver(allocation: map<nat, AllocValue>, lost: seq<AllocValue>, load: nat -> nat, g: Given,
                 ignored: set<nat>)
    requires ignored <= allocation.Keys
    requires forall k :: k in ignored <==> LedTo(Heap.Heap(Tracked(allocation), load), g, k)
    ensures Reported(allocation, lost, load, g,
                     Live(allocation).Plus(Lost(lost)).Minus(Live(Only(allocation, ignored))))
  {
    hide Live, Lost, Only, LedTo;
    LiveSplits(allocation, ignored);
    LostCounts(lost);
    var left := allocation.Keys - ignored;
    assert left == set p | p in allocation && Leaked(Heap.Heap(Tracked(allocation), load), g, allocation, p);
    LeftCounts(allocation, left);
  }

  lemma LeftCounts(allocation: map<nat, AllocValue>, left: set<nat>)
    requires left <= allocation.Keys
    ensures Live(Only(allocation, left)).count == |left|
  {
    LiveCounts(Only(allocation, left));
    assert Only(allocation, left).Keys == left;
  }
}
