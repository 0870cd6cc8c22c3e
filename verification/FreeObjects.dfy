/**
 Singly linked lists threaded through the first words of free objects (the SLL_ helpers),
 and one list of a thread cache.
 */
module FreeObjects {
  import opened Basics

  /** Memory: the word stored in each free object. Address 0 is NULL. */
  class Words {
    var at: map<nat, nat>

    constructor ()
      ensures at == map[]
    {
      at := map[];
    }
  }

  /** From p the words lead through exactly the objects xs and end with NULL. */
  ghost predicate Path(at: map<nat, nat>, p: nat, xs: seq<nat>)
    decreases |xs|
  {
    if xs == [] then p == 0
    else p == xs[0] && p != 0 && p in at && Path(at, at[p], xs[1..])
  }

  /** Writes to other objects do not disturb a list. */
  lemma {:induction false} PathFrame(at: map<nat, nat>, at': map<nat, nat>, p: nat, xs: seq<nat>)
    requires Path(at, p, xs)
    requires forall x :: x in xs && x in at ==> x in at' && at'[x] == at[x]
    ensures Path(at', p, xs)
    decreases |xs|
  {
    if xs != [] { PathFrame(at, at', at[p], xs[1..]); }
  }

  /** Following a list for i words arrives at its i-th object. */
  lemma {:induction false} PathAt(at: map<nat, nat>, p: nat, xs: seq<nat>, i: nat)
    requires Path(at, p, xs) && i < |xs|
    ensures xs[i] != 0 && xs[i] in at && Path(at, xs[i], xs[i..]) && Path(at, at[xs[i]], xs[i + 1..])
    decreases |xs|
  {
    if i > 0 {
      PathAt(at, at[p], xs[1..], i - 1);
      assert xs[1..][i - 1..] == xs[i..] && xs[1..][i..] == xs[i + 1..];
    }
  }

  /** Ending a list after its first n objects makes a list of those. */
  lemma {:induction false} PathCut(at: map<nat, nat>, p: nat, xs: seq<nat>, n: nat)
    requires Path(at, p, xs) && Once(xs) && 0 < n <= |xs|
    ensures Path(at[xs[n - 1] := 0], p, xs[..n])
    decreases |xs|
  {
    var at' := at[xs[n - 1] := 0];
    if n == 1 {
      assert xs[..1][1..] == [];
    } else {
      PathCut(at, at[p], xs[1..], n - 1);
      assert xs[1..][..n - 1] == xs[..n][1..];
      assert xs[1..][n - 2] == xs[n - 1];
      assert at'[p] == at[p];
    }
  }

  /** Linking the last object of one list to the head of another joins them. */
  lemma {:induction false} PathJoin(at: map<nat, nat>, p: nat, ys: seq<nat>, h: nat, xs: seq<nat>)
    requires Path(at, p, ys) && ys != [] && Once(ys) && Path(at, h, xs)
    requires forall y :: y in ys ==> y !in xs
    ensures Path(at[ys[|ys| - 1] := h], p, ys + xs)
    decreases |ys|
  {
    var at' := at[ys[|ys| - 1] := h];
    PathFrame(at, at', h, xs);
    if |ys| == 1 {
      assert (ys + xs)[1..] == xs;
    } else {
      PathJoin(at, at[p], ys[1..], h, xs);
      assert ys[1..][|ys| - 2] == ys[|ys| - 1];
      assert (ys + xs)[1..] == ys[1..] + xs;
      assert at'[p] == at[p];
    }
  }

  /** SLL_PopRange: list leads through xs; its first n objects become a list of their own. */
  method SllPopRange(m: Words, list: nat, n: nat, ghost xs: seq<nat>) returns (start: nat, end: nat, rest: nat)
    requires Path(m.at, list, xs) && Once(xs) && n <= |xs|
    modifies m
    ensures Path(m.at, start, xs[..n]) && Path(m.at, rest, xs[n..])
    ensures if n == 0 then start == 0 && end == 0 && m.at == old(m.at)
            else end == xs[n - 1] && m.at == old(m.at)[end := 0]
  {
    if n == 0 {
      return 0, 0, list;
    }
    var tmp := list;
    for i := 1 to n
      invariant Path(m.at, tmp, xs[i - 1..]) && m.at == old(m.at)
    {
      PathAt(m.at, list, xs, i - 1);
      tmp := m.at[tmp];
    }
    PathAt(m.at, list, xs, n - 1);
    PathCut(m.at, list, xs, n);
    OnceParts(xs, n);
    start, end, rest := list, tmp, m.at[tmp];
    assert tmp in xs[..n] by { assert xs[..n][n - 1] == tmp; }
    PathFrame(m.at, m.at[tmp := 0], rest, xs[n..]);
    m.at := m.at[tmp := 0];
  }

  /** A TCMalloc_ThreadCache_FreeList. */
  class FreeList {
    var list: nat
    var length: int
    var lowater: int
    /** The objects, from the head on. */
    ghost var objs: seq<nat>
    /** The lengths the list has had since the low-water mark was last cleared. */
    ghost var lengths: seq<int>

    ghost predicate Valid(at: map<nat, nat>)
      reads this
    {
      && Path(at, list, objs) && Once(objs) && length == |objs|
      && lengths != [] && lengths[|lengths| - 1] == length
      && lowater in lengths && forall i :: 0 <= i < |lengths| ==> lowater <= lengths[i]
    }

    constructor ()
      ensures Valid(map[]) && objs == [] && lowater == 0 && lengths == [0]
    {
      list, length, lowater := 0, 0, 0;
      objs, lengths := [], [0];
    }

    method ClearLowWater(ghost at: map<nat, nat>)
      requires Valid(at)
      modifies this
      ensures Valid(at) && objs == old(objs) && lowater == |objs| && lengths == [|objs|]
    {
      lowater := length;
      lengths := [length];
    }

    method Push(m: Words, p: nat)
      requires Valid(m.at) && p != 0 && p !in objs
      modifies this, m
      ensures Valid(m.at) && objs == [p] + old(objs)
      ensures lowater == old(lowater) && lengths == old(lengths) + [|objs|]
      ensures m.at == old(m.at)[p := old(list)]
    {
      ghost var before := m.at;
      m.at := m.at[p := list];
      PathFrame(before, m.at, list, objs);
      list := p;
      length := length + 1;
      objs := [p] + objs;
      lengths := lengths + [length];
    }

    method Pop(m: Words) returns (p: nat)
      requires Valid(m.at) && objs != []
      modifies this
      ensures Valid(m.at) && objs == old(objs)[1..] && p == old(objs)[0] && p != 0
      ensures lengths == old(lengths) + [|objs|]
      ensures lowater == if |objs| < old(lowater) then |objs| else old(lowater)
    {
      length := length - 1;
      if length < lowater { lowater := length; }
      p := list;
      list := m.at[list];
      objs := objs[1..];
      lengths := lengths + [length];
    }

    /** Puts the n objects ys, linked from start to end, in front. */
    method PushRange(m: Words, n: nat, start: nat, end: nat, ghost ys: seq<nat>)
      requires Valid(m.at) && Path(m.at, start, ys) && Once(ys) && n == |ys|
      requires ys != [] ==> end == ys[n - 1]
      requires forall y :: y in ys ==> y !in objs
      modifies this, m
      ensures Valid(m.at) && objs == ys + old(objs)
      ensures lowater == old(lowater) && lengths == old(lengths) + [|objs|]
      ensures if ys == [] then m.at == old(m.at) else m.at == old(m.at)[end := old(list)]
    {
      if start != 0 {
        PathJoin(m.at, start, ys, list, objs);
        m.at := m.at[end := list];
        list := start;
      }
      OnceJoin(ys, objs);
      assert ys == [] ==> ys + objs == objs;
      length := length + n;
      objs := ys + objs;
      lengths := lengths + [length];
    }

    /** Takes the first n objects off as a list of their own, from start to end. */
    method PopRange(m: Words, n: nat) returns (start: nat, end: nat)
      requires Valid(m.at) && n <= |objs|
      modifies this, m
      ensures Valid(m.at) && objs == old(objs)[n..]
      ensures Path(m.at, start, old(objs)[..n])
      ensures if n == 0 then start == 0 && end == 0 && m.at == old(m.at)
              else end == old(objs)[n - 1] && m.at == old(m.at)[end := 0]
      ensures lengths == old(lengths) + [|objs|]
      ensures lowater == if |objs| < old(lowater) then |objs| else old(lowater)
    {
      OnceParts(objs, n);
      start, end, list := SllPopRange(m, list, n, objs);
      length := length - n;
      if length < lowater { lowater := length; }
      objs := objs[n..];
      lengths := lengths + [length];
    }
  }
}
