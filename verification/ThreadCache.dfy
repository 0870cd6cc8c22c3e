/** A thread cache: one free list per size class, and the bytes they hold. */
module ThreadCache {
  import opened Basics
  import opened Arith
  import opened FreeObjects

  /** kMaxFreeListLength. */
  const MAX_LENGTH := 256

  /** One call of InsertRange: n objects of class c, linked from head to tail. */
  datatype Batch = Batch(c: nat, head: nat, tail: nat, n: nat, objs: seq<nat>)

  /** The chain handed over ends with NULL and is as long as stated. */
  ghost predicate Proper(at: map<nat, nat>, b: Batch) {
    b.n == |b.objs| && Path(at, b.head, b.objs) && (b.objs != [] ==> b.tail == b.objs[b.n - 1])
  }

  /** What the thread cache sees of the central free lists: they take any proper chain. */
  class Central {
    ghost var got: seq<Batch>

    constructor ()
      ensures got == []
    {
      got := [];
    }

    method InsertRange(words: Words, c: nat, head: nat, tail: nat, n: nat, ghost objs: seq<nat>)
      requires Proper(words.at, Batch(c, head, tail, n, objs))
      modifies this
      ensures got == old(got) + [Batch(c, head, tail, n, objs)]
    {
      got := got + [Batch(c, head, tail, n, objs)];
    }
  }

  function Handed(out: seq<Batch>): (xs: seq<nat>) {
    if out == [] then [] else Handed(out[..|out| - 1]) + out[|out| - 1].objs
  }

  /** Only words of the objects xs differ. */
  ghost predicate SameBut(at: map<nat, nat>, at': map<nat, nat>, xs: seq<nat>) {
    forall x :: x !in xs ==> (x in at <==> x in at') && (x in at ==> at'[x] == at[x])
  }

  /** The bytes of the objects on each list: size[c] for each object of class c. */
  function Weigh(size: seq<nat>, objs: seq<seq<nat>>): (w: int)
    requires |objs| <= |size|
  {
    if objs == [] then 0 else Weigh(size, objs[..|objs| - 1]) + size[|objs| - 1] * |objs[|objs| - 1]|
  }

  lemma {:induction false} WeighUpdate(size: seq<nat>, objs: seq<seq<nat>>, c: nat, xs: seq<nat>)
    requires |objs| <= |size| && c < |objs|
    ensures Weigh(size, objs[c := xs]) == Weigh(size, objs) + size[c] * |xs| - size[c] * |objs[c]|
  {
    var k := |objs| - 1;
    if c < k {
      WeighUpdate(size, objs[..k], c, xs);
      assert objs[c := xs][..k] == objs[..k][c := xs];
    } else {
      assert objs[c := xs][..k] == objs[..k];
    }
  }

  lemma Weightless(size: seq<nat>, objs: seq<seq<nat>>, c: nat, m: nat)
    requires |objs| <= |size| && c < |objs| && m <= |objs[c]|
    ensures Weigh(size, objs[c := objs[c][m..]]) == Weigh(size, objs) - m * size[c]
  {
    WeighUpdate(size, objs, c, objs[c][m..]);
    Distribute(size[c], |objs[c][m..]|, m);
  }

  /** No object is on two lists. */
  ghost predicate Apart(objs: seq<seq<nat>>) {
    forall c, d, x :: 0 <= c < |objs| && 0 <= d < |objs| && c != d && x in objs[c] ==> x !in objs[d]
  }

  lemma ApartUpdate(objs: seq<seq<nat>>, c: nat, xs: seq<nat>)
    requires Apart(objs) && c < |objs|
    requires forall d, x :: 0 <= d < |objs| && d != c && x in xs ==> x !in objs[d]
    ensures Apart(objs[c := xs])
  {
  }

  /** Objects that are on no list join list c. */
  lemma Fetched(size: seq<nat>, objs: seq<seq<nat>>, c: nat, ys: seq<nat>)
    requires |objs| <= |size| && c < |objs| && Apart(objs)
    requires forall d, y :: 0 <= d < |objs| && y in ys ==> y !in objs[d]
    ensures Apart(objs[c := ys + objs[c]]) && Weigh(size, objs[c := ys + objs[c]]) == Weigh(size, objs) + size[c] * |ys|
  {
    hide Weigh;
    ApartUpdate(objs, c, ys + objs[c]);
    WeighUpdate(size, objs, c, ys + objs[c]);
    Distribute(size[c], |ys|, |objs[c]|);
  }

  lemma OneWord(at: map<nat, nat>, p: nat, w: nat)
    ensures SameBut(at, at[p := w], [p])
  {
  }

  lemma ApartStill(objs: seq<seq<nat>>, c: nat, p: nat)
    requires Apart(objs) && c < |objs| && forall d :: 0 <= d < |objs| ==> p !in objs[d]
    ensures Apart(objs[c := [p] + objs[c]])
  {
    ApartUpdate(objs, c, [p] + objs[c]);
  }

  /** Half of a positive low-water mark, but at least one object. */
  ghost function Half(low: int): (d: nat)
    ensures low > 0 ==> 0 < d <= low
    ensures low <= 0 ==> d == 0
  {
    if low <= 0 then 0 else if low > 1 then low / 2 else 1
  }

  function Min(a: int, b: int): int { if a < b then a else b }

  class ThreadCache {
    const size: seq<nat>
    const move: seq<nat>
    const lists: seq<FreeList>
    const words: Words
    const central: Central
    /** size_ */
    var bytes: int

    ghost function Objs(): (objs: seq<seq<nat>>)
      reads lists
      ensures |objs| == |lists| && forall c :: 0 <= c < |lists| ==> objs[c] == lists[c].objs
    {
      seq(|lists|, c requires 0 <= c < |lists| reads lists => lists[c].objs)
    }

    /** Objects of every class that is used move in batches; class 0 and what follows the last class are not used. */
    ghost predicate Fixed() {
      && |lists| == |size| == |move|
      && (forall c, d :: 0 <= c < d < |lists| ==> lists[c] != lists[d])
      && (forall c :: 0 <= c < |move| && size[c] > 0 ==> move[c] > 0)
    }

    /** Every list is in order, no object is on two of them, and none is on that of a class that is not used. */
    ghost predicate InOrder()
      reads words, lists
    {
      && Fixed()
      && (forall c :: 0 <= c < |lists| ==> lists[c].Valid(words.at) && (size[c] == 0 ==> lists[c].objs == []))
      && Apart(Objs())
    }

    /** And bytes is what the objects on them weigh. */
    ghost predicate Valid()
      reads this, words, lists
    {
      InOrder() && bytes == Weigh(size, Objs())
    }

    /** Init */
    constructor (size: seq<nat>, move: seq<nat>, words: Words, central: Central, lists: seq<FreeList>)
      requires |size| == |move| == |lists| && forall c :: 0 <= c < |move| && size[c] > 0 ==> move[c] > 0
      requires forall c, d :: 0 <= c < d < |lists| ==> lists[c] != lists[d]
      requires forall c :: 0 <= c < |lists| ==> lists[c].Valid(words.at) && lists[c].objs == []
      ensures Valid() && this.lists == lists && this.words == words && this.central == central && this.size == size
      ensures this.move == move && bytes == 0
    {
      this.size, this.move, this.words, this.central, this.lists := size, move, words, central, lists;
      bytes := 0;
      new;
      NoWeight(size, Objs());
    }

    /** Writes to words of the objects `own` leave lists other than c alone. */
    lemma Framed(c: nat, at: map<nat, nat>, own: seq<nat>)
      requires c < |lists| && SameBut(at, words.at, own)
      requires forall d :: 0 <= d < |lists| && d != c ==> lists[d].Valid(at)
      requires forall d, x :: 0 <= d < |lists| && d != c && x in lists[d].objs ==> x !in own
      ensures forall d :: 0 <= d < |lists| && d != c ==> lists[d].Valid(words.at)
    {
      forall d | 0 <= d < |lists| && d != c ensures lists[d].Valid(words.at) {
        PathFrame(at, words.at, lists[d].list, lists[d].objs);
      }
    }

    /** The first n objects of list c leave it, and go to the central list in one call. */
    method ReleaseBatch(c: nat, n: nat) returns (ghost b: Batch)
      requires InOrder() && c < |lists| && n <= |lists[c].objs|
      modifies lists[c], words, central
      ensures InOrder()
      ensures lists[c].objs == old(lists[c].objs)[n..] && b.c == c && b.n == n && b.objs == old(lists[c].objs)[..n]
      ensures lists[c].lowater == Min(old(lists[c].lowater), |lists[c].objs|)
      ensures central.got == old(central.got) + [b]
    {
      hide Path, FreeList.Valid;
      ghost var xs := lists[c].objs;
      Listed(c);
      OnceParts(xs, n);
      var head, tail := lists[c].PopRange(words, n);
      b := Batch(c, head, tail, n, xs[..n]);
      central.InsertRange(words, c, head, tail, n, xs[..n]);
      assert n > 0 ==> xs[n - 1] == xs[..n][n - 1];
      Framed(c, old(words.at), xs[..n]);
      ApartUpdate(old(Objs()), c, lists[c].objs);
      assert Objs() == old(Objs())[c := lists[c].objs];
    }

    lemma Listed(c: nat)
      requires InOrder() && c < |lists|
      ensures Once(lists[c].objs) && lists[c].length == |lists[c].objs| && lists[c].lowater <= lists[c].length
      ensures Fixed() && (lists[c].objs != [] ==> size[c] > 0 && move[c] > 0)
    {
    }

    /** The batch after the first k objects of xs, all of which the batches in `out` have. */
    method NextBatch(c: nat, n: nat, ghost xs: seq<nat>, ghost k: nat, ghost out: seq<Batch>) returns (ghost b: Batch)
      requires InOrder() && c < |lists| && k + n <= |xs| && lists[c].objs == xs[k..] && Handed(out) == xs[..k]
      modifies lists[c], words, central
      ensures InOrder() && lists[c].objs == xs[k + n..] && Handed(out + [b]) == xs[..k + n]
      ensures b.c == c && b.n == n == |b.objs| && central.got == old(central.got) + [b]
      ensures lists[c].lowater == Min(old(lists[c].lowater), |lists[c].objs|)
    {
      hide Path, FreeList.Valid, Apart, Handed, InOrder, SameBut, Once, Objs, Weigh, Fixed;
      Next(xs, k, n);
      b := ReleaseBatch(c, n);
      Appended(out, b);
    }

    /** The loop of ReleaseToCentralCache. */
    method ReleaseBatches(c: nat, m: nat) returns (ghost out: seq<Batch>)
      requires InOrder() && c < |lists| && m <= |lists[c].objs|
      modifies lists[c], words, central
      ensures InOrder()
      ensures lists[c].objs == old(lists[c].objs)[m..] && Handed(out) == old(lists[c].objs)[..m]
      ensures lists[c].lowater == Min(old(lists[c].lowater), |lists[c].objs|)
      ensures central.got == old(central.got) + out && Batches(out, c, move[c]) && Exact(out, |lists|)
    {
      hide Path, FreeList.Valid, Apart, Handed, InOrder, SameBut, Full, Batches, Exact, Once, Objs, Weigh, Fixed;
      Listed(c);
      ghost var xs := lists[c].objs;
      out := [];
      NoneHanded();
      NoneFull(c, move[c]);
      var left := m;
      ghost var k := 0;
      while left > move[c]
        invariant 0 <= left && k + left == m && InOrder()
        invariant lists[c].objs == xs[k..] && Handed(out) == xs[..k]
        invariant lists[c].lowater == Min(old(lists[c].lowater), |lists[c].objs|)
        invariant Full(out, c, move[c]) && (out != [] ==> left > 0)
        invariant central.got == old(central.got) + out
      {
        ghost var b := NextBatch(c, move[c], xs, k, out);
        OneMoreFull(out, b, c, move[c]);
        Associate(old(central.got), out, [b]);
        out := out + [b];
        left, k := left - move[c], k + move[c];
      }
      ghost var b := NextBatch(c, left, xs, k, out);
      Associate(old(central.got), out, [b]);
      LastBatch(out, b, c, move[c], |lists|);
      out := out + [b];
    }

    /** Gives the first min(n, length) objects of list c to the central cache, in batches. */
    method ReleaseToCentralCache(c: nat, n: nat) returns (ghost out: seq<Batch>)
      requires Valid() && c < |lists| && n > 0
      modifies this`bytes, lists[c], words, central
      ensures Valid()
      ensures var m := Min(n, |old(lists[c].objs)|);
              && lists[c].objs == old(lists[c].objs)[m..] && Handed(out) == old(lists[c].objs)[..m]
              && lists[c].lowater == Min(old(lists[c].lowater), |lists[c].objs|)
      ensures central.got == old(central.got) + out && Batches(out, c, move[c]) && Exact(out, |lists|)
    {
      hide Path, Weigh, FreeList.Valid, Apart, Handed, InOrder, SameBut;
      Listed(c);
      var m := if n > lists[c].length then lists[c].length else n;
      Weightless(size, Objs(), c, m);
      bytes := bytes - m * size[c];
      out := ReleaseBatches(c, m);
      assert Objs() == old(Objs())[c := lists[c].objs];
    }

    /** FetchFromCentralCache: RemoveRange answered with the n objects ys, linked from start to end. */
    method FetchFromCentralCache(c: nat, start: nat, end: nat, n: nat, ghost ys: seq<nat>)
      requires Valid() && c < |lists| && size[c] > 0 && Path(words.at, start, ys) && Once(ys) && n == |ys|
      requires ys != [] ==> end == ys[n - 1]
      requires forall d, y :: 0 <= d < |lists| && y in ys ==> y !in lists[d].objs
      modifies this`bytes, lists[c], words
      ensures Valid() && lists[c].objs == ys + old(lists[c].objs) && lists[c].lowater == old(lists[c].lowater)
      ensures SameBut(old(words.at), words.at, ys)
    {
      hide Path, FreeList.Valid, Weigh, Apart, Once;
      Listed(c);
      assert lists[c].Valid(words.at);
      assert n > 0 ==> ys[n - 1] in ys;
      lists[c].PushRange(words, n, start, end, ys);
      bytes := bytes + size[c] * n;
      Framed(c, old(words.at), ys);
      Fetched(size, old(Objs()), c, ys);
      assert Objs() == old(Objs())[c := lists[c].objs];
    }

    /**
     Allocate from class c. Should the list be empty, RemoveRange answers with the n objects
     ys. NULL comes back exactly when there is no object.
     */
    method Allocate(c: nat, start: nat, end: nat, n: nat, ghost ys: seq<nat>) returns (p: nat)
      requires Valid() && c < |lists| && size[c] > 0 && Path(words.at, start, ys) && Once(ys) && n == |ys|
      requires ys != [] ==> end == ys[n - 1]
      requires forall d, y :: 0 <= d < |lists| && y in ys ==> y !in lists[d].objs
      modifies this`bytes, lists[c], words
      ensures Valid()
      ensures var xs := if old(lists[c].objs) == [] then ys else old(lists[c].objs);
              if xs == [] then p == 0 && lists[c].objs == [] else p != 0 && p == xs[0] && lists[c].objs == xs[1..]
    {
      hide Path, FreeList.Valid, Weigh, Apart, InOrder;
      Listed(c);
      if lists[c].length == 0 {
        FetchFromCentralCache(c, start, end, n, ys);
        assert ys + [] == ys;
        Listed(c);
        if lists[c].length == 0 {
          return 0;
        }
      }
      p := Take(c);
    }

    /** The end of Allocate. */
    method Take(c: nat) returns (p: nat)
      requires Valid() && c < |lists| && lists[c].objs != []
      modifies this`bytes, lists[c]
      ensures Valid() && p != 0 && p == old(lists[c].objs)[0] && lists[c].objs == old(lists[c].objs)[1..]
    {
      hide Path, FreeList.Valid, Weigh, Once;
      Listed(c);
      assert lists[c].Valid(words.at);
      Weightless(size, Objs(), c, 1);
      bytes := bytes - size[c];
      p := lists[c].Pop(words);
      Framed(c, words.at, []);
      ApartUpdate(old(Objs()), c, lists[c].objs);
      assert Objs() == old(Objs())[c := lists[c].objs];
    }

    /** The push at the head of Deallocate. */
    method Keep(p: nat, c: nat)
      requires Valid() && c < |lists| && size[c] > 0 && p != 0 && forall d :: 0 <= d < |lists| ==> p !in lists[d].objs
      modifies this`bytes, lists[c], words
      ensures Valid() && lists[c].objs == [p] + old(lists[c].objs) && lists[c].lowater == old(lists[c].lowater)
    {
      hide Path, FreeList.Valid, Weigh, Apart, SameBut;
      Listed(c);
      assert lists[c].Valid(words.at);
      OneWord(words.at, p, lists[c].list);
      bytes := bytes + size[c];
      lists[c].Push(words, p);
      Framed(c, old(words.at), [p]);
      ApartStill(old(Objs()), c, p);
      WeighUpdate(size, old(Objs()), c, lists[c].objs);
      Distribute(size[c], 1, |old(lists[c].objs)|);
      assert Objs() == old(Objs())[c := lists[c].objs];
    }

    lemma Weight()
      requires Valid()
      ensures bytes == Weigh(size, Objs()) && |size| == |lists|
    {
    }

    lemma Ready(c: nat)
      requires Valid() && c < |lists|
      ensures Fixed()
    {
    }

    /** One turn of Scavenge's loop. */
    method ScavengeList(c: nat) returns (ghost out: seq<Batch>)
      requires Valid() && c < |lists|
      modifies this`bytes, lists[c], words, central
      ensures Valid() && lists[c].lowater == |lists[c].objs|
      ensures Half(old(lists[c].lowater)) <= |old(lists[c].objs)|
      ensures lists[c].objs == old(lists[c].objs)[Half(old(lists[c].lowater))..]
      ensures central.got == old(central.got) + out && OfClass(out, c) && Exact(out, |lists|)
      ensures Handed(out) == old(lists[c].objs)[..Half(old(lists[c].lowater))]
    {
      hide Path, FreeList.Valid, Weigh, Apart, Handed, InOrder;
      Listed(c);
      var low := lists[c].lowater;
      out := [];
      NoneHanded();
      if low > 0 {
        var drop := if low > 1 then low / 2 else 1;
        out := ReleaseToCentralCache(c, drop);
      }
      Clear(c);
    }

    /** clear_lowwatermark on list c. */
    method Clear(c: nat)
      requires Valid() && c < |lists|
      modifies lists[c]
      ensures Valid() && lists[c].lowater == |lists[c].objs| && lists[c].objs == old(lists[c].objs)
    {
      hide Path, FreeList.Valid, Weigh, Apart;
      assert lists[c].Valid(words.at);
      lists[c].ClearLowWater(words.at);
      Framed(c, words.at, []);
      assert Objs() == old(Objs());
    }

    /** One turn of Scavenge's loop, after turns that handed over the batches of `before`. */
    method ScavengeNext(c: nat, ghost before: seq<Batch>) returns (ghost more: seq<Batch>)
      requires Valid() && c < |lists| && Exact(before, |lists|) && Of(before, c) == []
      modifies this`bytes, lists[c], words, central
      ensures Valid() && Scavenged(old(lists[c].objs), old(lists[c].lowater), lists[c].objs, lists[c].lowater)
      ensures central.got == old(central.got) + more && Exact(before + more, |lists|)
      ensures Of(before + more, c) + lists[c].objs == old(lists[c].objs)
      ensures forall d :: d != c ==> Of(before + more, d) == Of(before, d)
    {
      hide Path, FreeList.Valid, Weigh, Apart, Handed, InOrder, Objs, Of, Half, OfClass, SameBut, Valid, Exact;
      hide Scavenged;
      more := ScavengeList(c);
      ExactPlus(before, more, |lists|);
      OfNext(before, more, c);
      Split(old(lists[c].objs), Half(old(lists[c].lowater)));
      ScavengedHalves(old(lists[c].objs), old(lists[c].lowater), lists[c].objs, lists[c].lowater);
    }

    /**
     Scavenge: every list gives up half its low-water mark, at least one object if the mark
     is not zero, and the mark starts anew.
     */
    method Scavenge() returns (ghost out: seq<Batch>)
      requires Valid()
      modifies this`bytes, lists, words, central
      ensures Valid()
      ensures forall c :: 0 <= c < |lists| ==>
                Scavenged(old(lists[c].objs), old(lists[c].lowater), lists[c].objs, lists[c].lowater)
      ensures forall c :: 0 <= c < |lists| ==>
                Halved(|old(lists[c].objs)|, old(lists[c].lowater), |lists[c].objs|)
      ensures central.got == old(central.got) + out && Exact(out, |lists|)
      ensures forall c :: 0 <= c < |lists| ==> Of(out, c) + lists[c].objs == old(lists[c].objs)
    {
      hide Path, FreeList.Valid, Weigh, Apart, Handed, InOrder, Objs, Of, Half, OfClass, SameBut, Valid, Exact;
      hide Scavenged, Halved;
      assert Exact([], |lists|) by { NoneExact(|lists|); }
      out := [];
      NoneOf();
      for c := 0 to |lists|
        invariant Valid()
        invariant forall d :: c <= d < |lists| ==>
                  lists[d].objs == old(lists[d].objs) && lists[d].lowater == old(lists[d].lowater)
        invariant forall d :: 0 <= d < c ==>
                  Scavenged(old(lists[d].objs), old(lists[d].lowater), lists[d].objs, lists[d].lowater)
        invariant central.got == old(central.got) + out && Exact(out, |lists|)
        invariant forall d :: 0 <= d < c ==> Of(out, d) + lists[d].objs == old(lists[d].objs)
        invariant forall d :: c <= d < |lists| ==> Of(out, d) == []
      {
        Ready(c);
        ghost var more := ScavengeNext(c, out);
        Associate(old(central.got), out, more);
        out := out + more;
      }
      forall c | 0 <= c < |lists| ensures Halved(|old(lists[c].objs)|, old(lists[c].lowater), |lists[c].objs|) {
        ScavengedShort(old(lists[c].objs), old(lists[c].lowater), lists[c].objs, lists[c].lowater);
      }
    }

    /** All lists as they were when last scavenged, and k more scavenges would empty them. */
    ghost predicate Unused(k: nat)
      reads this, lists
    {
      forall c :: 0 <= c < |lists| ==> lists[c].lowater == |lists[c].objs| && Idle(|lists[c].objs|, k) == 0
    }

    /** What is not on the lists any more has been handed over. */
    ghost predicate Sent(all: seq<seq<nat>>, out: seq<Batch>)
      reads this, lists
    {
      |all| == |lists| && forall c :: 0 <= c < |lists| ==> Of(out, c) + lists[c].objs == all[c]
    }

    method IdleRound(k: nat, ghost all: seq<seq<nat>>, ghost out: seq<Batch>) returns (ghost more: seq<Batch>)
      requires Valid() && Unused(k + 1) && Sent(all, out)
      modifies this`bytes, lists, words, central
      ensures Valid() && Unused(k) && Sent(all, out + more) && central.got == old(central.got) + more
    {
      hide Valid, Of, Handed, Half, Idle;
      more := Scavenge();
      forall c | 0 <= c < |lists| ensures lists[c].lowater == |lists[c].objs| && Idle(|lists[c].objs|, k) == 0 {
        IdleNext(old(lists[c].objs), old(lists[c].lowater), lists[c].objs, lists[c].lowater, k + 1);
      }
      forall c | 0 <= c < |lists| ensures Of(out + more, c) + lists[c].objs == all[c] {
        OfPlus(out, more, c);
        Associate(Of(out, c), Of(more, c), lists[c].objs);
      }
    }

    method IdleStart(k: nat) returns (ghost out: seq<Batch>)
      requires Valid() && forall c :: 0 <= c < |lists| ==> |lists[c].objs| <= Power(k)
      modifies this`bytes, lists, words, central
      ensures Valid() && Unused(k + 1) && Sent(old(Objs()), out) && central.got == old(central.got) + out
    {
      hide Valid, Of, Handed, Half, Idle;
      out := Scavenge();
      forall c | 0 <= c < |lists| ensures lists[c].lowater == |lists[c].objs| && Idle(|lists[c].objs|, k + 1) == 0 {
        ScavengedShrinks(old(lists[c].objs), old(lists[c].lowater), lists[c].objs, lists[c].lowater);
        IdleListDrains(|lists[c].objs|, k);
      }
    }

    lemma AllSent(all: seq<seq<nat>>, out: seq<Batch>)
      requires Unused(0) && Sent(all, out)
      ensures forall c :: 0 <= c < |lists| ==> lists[c].objs == [] && Of(out, c) == all[c]
    {
      hide Of;
    }

    /**
     A cache that no one uses: when no list is longer than 2 to the k, k + 2 scavenges empty
     them all, and every object goes to the central lists in the order of its list.
     */
    method IdleListsDrain(k: nat) returns (ghost out: seq<Batch>)
      requires Valid() && forall c :: 0 <= c < |lists| ==> |lists[c].objs| <= Power(k)
      modifies this`bytes, lists, words, central
      ensures Valid() && forall c :: 0 <= c < |lists| ==> lists[c].objs == []
      ensures central.got == old(central.got) + out && forall c :: 0 <= c < |lists| ==> Of(out, c) == old(lists[c].objs)
    {
      hide Valid, Of, Unused, Sent;
      ghost var all := Objs();
      out := IdleStart(k);
      for i := 0 to k + 1
        invariant Valid() && Unused(k + 1 - i) && Sent(all, out) && central.got == old(central.got) + out
      {
        ghost var more := IdleRound(k - i, all, out);
        Associate(old(central.got), out, more);
        out := out + more;
      }
      AllSent(all, out);
    }

    /** Cleanup: the thread ends, and every list is emptied. */
    method Cleanup() returns (ghost out: seq<Batch>)
      requires Valid()
      modifies this`bytes, lists, words, central
      ensures Valid() && bytes == 0 && forall c :: 0 <= c < |lists| ==> lists[c].objs == []
      ensures central.got == old(central.got) + out && Exact(out, |lists|)
      ensures forall c :: 0 <= c < |lists| ==> Of(out, c) == old(lists[c].objs)
    {
      hide Path, FreeList.Valid, Weigh, Apart, Handed, InOrder, Objs, Of;
      out := [];
      NoneOf();
      for c := 0 to |lists|
        invariant Valid()
        invariant forall d :: c <= d < |lists| ==> lists[d].objs == old(lists[d].objs)
        invariant forall d :: 0 <= d < c ==> lists[d].objs == [] && Of(out, d) == old(lists[d].objs)
        invariant forall d :: c <= d < |lists| ==> Of(out, d) == []
        invariant central.got == old(central.got) + out && Exact(out, |lists|)
      {
        Listed(c);
        if lists[c].length > 0 {
          ghost var before := out;
          ghost var more := ReleaseToCentralCache(c, lists[c].length);
          out := before + more;
          Associate(old(central.got), before, more);
          OfNext(before, more, c);
        }
      }
      assert Fixed() by { Ordered(); }
      NoWeight(size, Objs());
    }

    lemma Ordered()
      requires InOrder()
      ensures Fixed()
    {
    }

    /** Deallocate up to the test of size_. */
    method DropExcess(p: nat, c: nat) returns (ghost out: seq<Batch>)
      requires Valid() && c < |lists| && size[c] > 0 && p != 0 && forall d :: 0 <= d < |lists| ==> p !in lists[d].objs
      modifies this`bytes, lists[c], words, central
      ensures Valid()
      ensures central.got == old(central.got) + out && Exact(out, |lists|)
      ensures Trimmed([p] + old(lists[c].objs), move[c], lists[c].objs)
      ensures lists[c].lowater == Min(old(lists[c].lowater), |lists[c].objs|)
      ensures Of(out, c) + lists[c].objs == [p] + old(lists[c].objs)
      ensures forall d :: 0 <= d < |lists| && d != c ==> Of(out, d) == []
    {
      hide Path, FreeList.Valid, Weigh, Apart, Handed, InOrder;
      Listed(c);
      Keep(p, c);
      Listed(c);
      out := [];
      if lists[c].length > MAX_LENGTH {
        out := ReleaseToCentralCache(c, move[c]);
        forall d | 0 <= d < |lists| ensures Of(out, d) == if d == c then Handed(out) else [] { OfOne(out, c, d); }
        assert Handed(out) + lists[c].objs == [p] + old(lists[c].objs);
      }
    }

    /** The end of Deallocate: all lists are scavenged if the cache is too heavy. */
    method Lighten(limit: nat) returns (ghost out: seq<Batch>)
      requires Valid()
      modifies this`bytes, lists, words, central
      ensures Valid() && central.got == old(central.got) + out && Exact(out, |lists|)
      ensures forall d :: 0 <= d < |lists| ==> Of(out, d) + lists[d].objs == old(lists[d].objs)
      ensures old(bytes) < limit ==> forall d :: 0 <= d < |lists| ==> unchanged(lists[d])
      ensures old(bytes) >= limit ==>
                forall d :: 0 <= d < |lists| ==>
                  Scavenged(old(lists[d].objs), old(lists[d].lowater), lists[d].objs, lists[d].lowater)
      ensures forall d :: 0 <= d < |lists| ==> |lists[d].objs| <= |old(lists[d].objs)|
    {
      hide Path, FreeList.Valid, Weigh, Apart, Handed, InOrder, Half, Of, Scavenged, Valid, Exact;
      out := [];
      NoneOf();
      if bytes >= limit {
        out := Scavenge();
        forall d | 0 <= d < |lists| ensures |lists[d].objs| <= |old(lists[d].objs)| {
          ScavengedShrinks(old(lists[d].objs), old(lists[d].lowater), lists[d].objs, lists[d].lowater);
        }
      } else {
        NoneExact(|lists|);
      }
    }

    /**
     Deallocate of an object that is on no list; limit is per_thread_cache_size. Its list
     gives a batch up if it is too long, which leaves `kept`, and all are scavenged if the
     cache is too heavy then.
     */
    method Deallocate(p: nat, c: nat, limit: nat) returns (ghost out: seq<Batch>, ghost kept: seq<nat>)
      requires Valid() && c < |lists| && size[c] > 0 && p != 0 && forall d :: 0 <= d < |lists| ==> p !in lists[d].objs
      modifies this`bytes, lists, words, central
      ensures Valid()
      ensures central.got == old(central.got) + out && Exact(out, |lists|)
      ensures forall d :: 0 <= d < |lists| ==>
                Of(out, d) + lists[d].objs == (if d == c then [p] else []) + old(lists[d].objs)
      ensures forall d :: 0 <= d < |lists| && |old(lists[d].objs)| <= MAX_LENGTH ==> |lists[d].objs| <= MAX_LENGTH
      ensures Trimmed([p] + old(lists[c].objs), move[c], kept)
      ensures Weigh(size, old(Objs())[c := kept]) < limit ==>
                && lists[c].objs == kept && lists[c].lowater == Min(old(lists[c].lowater), |kept|)
                && forall d :: 0 <= d < |lists| && d != c ==> unchanged(lists[d])
      ensures Weigh(size, old(Objs())[c := kept]) >= limit ==>
                && Scavenged(kept, Min(old(lists[c].lowater), |kept|), lists[c].objs, lists[c].lowater)
                && forall d :: 0 <= d < |lists| && d != c ==>
                     Scavenged(old(lists[d].objs), old(lists[d].lowater), lists[d].objs, lists[d].lowater)
    {
      hide Path, FreeList.Valid, Weigh, Apart, Handed, InOrder, Half, Of, Scavenged, Valid, Exact, Trimmed;
      Ready(c);
      ghost var first := DropExcess(p, c);
      kept := lists[c].objs;
      Weight();
      assert Objs() == old(Objs())[c := lists[c].objs];
      label mid:
      ghost var more := Lighten(limit);
      out := first + more;
      TrimmedShort([p] + old(lists[c].objs), move[c], kept);
      Associate(old(central.got), first, more);
      ExactPlus(first, more, |lists|);
      forall d | 0 <= d < |lists| ensures Of(out, d) + lists[d].objs == Of(first, d) + old@mid(lists[d].objs) {
        OfPlus(first, more, d);
        Associate(Of(first, d), Of(more, d), lists[d].objs);
      }
    }
  }

  /** A list of more than 256 objects gives a batch up from its front. */
  ghost predicate Trimmed(xs: seq<nat>, move: nat, ys: seq<nat>) {
    ys == if |xs| > 256 then xs[Min(move, |xs|)..] else xs
  }

  /** One object more does not make it longer than 256, if batches have objects. */
  lemma TrimmedShort(xs: seq<nat>, move: nat, ys: seq<nat>)
    requires Trimmed(xs, move, ys)
    ensures |xs| <= 257 && move > 0 ==> |ys| <= 256
  {
  }

  /** Of n objects as many are left when half the low-water mark is gone, one if the mark is one. */
  ghost predicate Halved(n: nat, low: int, left: nat) {
    && (low >= 2 ==> n - left == low / 2)
    && (low == 1 ==> n - left == 1)
    && (low <= 0 ==> n == left)
  }

  /** What Scavenge does to one list: so many objects leave from the front, and the mark starts anew. */
  ghost predicate Scavenged(xs: seq<nat>, low: int, ys: seq<nat>, low': int) {
    Halved(|xs|, low, |ys|) && |ys| <= |xs| && ys == xs[|xs| - |ys|..] && low' == |ys|
  }

  lemma ScavengedHalves(xs: seq<nat>, low: int, ys: seq<nat>, low': int)
    requires Half(low) <= |xs| && ys == xs[Half(low)..] && low' == |ys|
    ensures Scavenged(xs, low, ys, low')
  {
  }

  lemma ScavengedShort(xs: seq<nat>, low: int, ys: seq<nat>, low': int)
    requires Scavenged(xs, low, ys, low')
    ensures Halved(|xs|, low, |ys|)
  {
  }

  ghost predicate OfClass(out: seq<Batch>, c: nat) {
    forall b :: b in out ==> b.c == c
  }

  ghost predicate Full(out: seq<Batch>, c: nat, move: nat) {
    forall b :: b in out ==> b.c == c && b.n == move == |b.objs|
  }

  lemma NoneFull(c: nat, move: nat)
    ensures Full([], c, move)
  {
  }

  lemma OneMoreFull(out: seq<Batch>, b: Batch, c: nat, move: nat)
    requires Full(out, c, move) && b.c == c && b.n == move == |b.objs|
    ensures Full(out + [b], c, move)
  {
  }

  /** After full batches comes one that is no larger. */
  lemma LastBatch(out: seq<Batch>, b: Batch, c: nat, move: nat, n: nat)
    requires Full(out, c, move) && b.c == c < n && b.n == |b.objs| <= move && (out != [] ==> b.n > 0)
    ensures Batches(out + [b], c, move) && Exact(out + [b], n)
  {
    forall i | 0 <= i < |out| ensures out[i].c == c && out[i].n == move { assert out[i] in out; }
  }

  /** Every batch is of one of n classes, and as long as it says. */
  ghost predicate Exact(out: seq<Batch>, n: nat) {
    forall b :: b in out ==> b.n == |b.objs| && b.c < n
  }

  lemma NoneExact(n: nat)
    ensures Exact([], n)
  {
  }

  lemma ExactPlus(xs: seq<Batch>, ys: seq<Batch>, n: nat)
    requires Exact(xs, n) && Exact(ys, n)
    ensures Exact(xs + ys, n)
  {
  }

  /** The objects of class c handed over, in order. */
  ghost function Of(out: seq<Batch>, c: nat): seq<nat> {
    if out == [] then []
    else Of(out[..|out| - 1], c) + if out[|out| - 1].c == c then out[|out| - 1].objs else []
  }

  lemma NoneOf()
    ensures forall c :: Of([], c) == []
  {
  }

  /** What is left of a list of n objects that no one uses after k scavenges. */
  ghost function Idle(n: nat, k: nat): nat {
    if k == 0 then n else Idle(n - Half(n), k - 1)
  }

  /** Each scavenge halves it, so log2(n) + 1 scavenges empty it. */
  lemma {:induction false} IdleListDrains(n: nat, k: nat)
    requires n <= Power(k)
    ensures Idle(n, k + 1) == 0
  {
    if k > 0 { IdleListDrains(n - Half(n), k - 1); }
  }

  /** A scavenge of a list that was not used since the last one. */
  lemma IdleNext(objs: seq<nat>, low: int, objs': seq<nat>, low': int, k: nat)
    requires Scavenged(objs, low, objs', low') && low == |objs| && k > 0 && Idle(|objs|, k) == 0
    ensures low' == |objs'| && Idle(|objs'|, k - 1) == 0
  {
  }

  lemma ScavengedShrinks(objs: seq<nat>, low: int, objs': seq<nat>, low': int)
    requires Scavenged(objs, low, objs', low')
    ensures low' == |objs'| <= |objs|
  {
  }

  lemma {:induction false} OfPlus(xs: seq<Batch>, ys: seq<Batch>, c: nat)
    ensures Of(xs + ys, c) == Of(xs, c) + Of(ys, c)
    decreases |ys|
  {
    if ys == [] {
      assert xs + ys == xs;
    } else {
      var k := |ys| - 1;
      OfPlus(xs, ys[..k], c);
      assert (xs + ys)[..|xs + ys| - 1] == xs + ys[..k];
    }
  }

  lemma {:induction false} OfOne(ys: seq<Batch>, c: nat, d: nat)
    requires OfClass(ys, c)
    ensures Of(ys, d) == if d == c then Handed(ys) else []
    decreases |ys|
  {
    if ys != [] { OfOne(ys[..|ys| - 1], c, d); }
  }

  /** Batches of class c only add to that class. */
  lemma OfNext(xs: seq<Batch>, ys: seq<Batch>, c: nat)
    requires OfClass(ys, c)
    ensures Of(xs + ys, c) == Of(xs, c) + Handed(ys)
    ensures forall d :: d != c ==> Of(xs + ys, d) == Of(xs, d)
  {
    forall d ensures Of(xs + ys, d) == if d == c then Of(xs, d) + Handed(ys) else Of(xs, d) {
      OfPlus(xs, ys, d);
      OfOne(ys, c, d);
    }
  }

  lemma Split(xs: seq<nat>, n: nat)
    requires n <= |xs|
    ensures [] + xs[..n] + xs[n..] == xs
  {
  }

  /** Batches of class c: full ones, and a last one that is no larger, and empty only if it is the only one. */
  ghost predicate Batches(out: seq<Batch>, c: nat, move: nat) {
    && out != []
    && (forall i :: 0 <= i < |out| ==> out[i].c == c && (if i < |out| - 1 then out[i].n == move else out[i].n <= move))
    && (|out| > 1 ==> out[|out| - 1].n > 0)
  }

  lemma Next(xs: seq<nat>, k: nat, n: nat)
    requires k + n <= |xs|
    ensures xs[k..][..n] == xs[k..k + n] && xs[k..][n..] == xs[k + n..] && xs[..k] + xs[k..k + n] == xs[..k + n]
  {
  }

  lemma NoneHanded()
    ensures Handed([]) == []
  {
  }

  lemma Appended(out: seq<Batch>, b: Batch)
    ensures Handed(out + [b]) == Handed(out) + b.objs
  {
    assert (out + [b])[..|out|] == out;
  }

  lemma {:induction false} NoWeight(size: seq<nat>, objs: seq<seq<nat>>)
    requires |objs| <= |size| && forall c :: 0 <= c < |objs| ==> objs[c] == []
    ensures Weigh(size, objs) == 0
  {
    if objs != [] { NoWeight(size, objs[..|objs| - 1]); }
  }
}
