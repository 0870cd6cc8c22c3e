/** A thread cache on linked words, and the lists that the central model has of it. */
module CacheLink {
  import opened Arith
  import opened Basics
  import opened CentralState
  import opened CentralSteps
  import opened CentralSafety
  import opened CentralThreads
  import opened CentralRuns
  import opened CentralEffects
  import opened CentralTheorems
  import opened CentralAccounts
  import opened FreeObjects
  import T = ThreadCache
  import C = ClassTable

  /** The address of object o of class c. */
  function AddressIn(cfg: Config, c: nat, o: Obj): int
    requires c < |cfg.size|
  {
    o.span * PAGE_SIZE + o.idx * cfg.size[c]
  }

  /** The words on list c are the addresses of the objects on it, in order. */
  ghost predicate Mirror(cfg: Config, c: nat, xs: seq<nat>, os: Chain)
    requires c < |cfg.size|
  {
    |xs| == |os| && forall i :: 0 <= i < |os| ==> xs[i] == AddressIn(cfg, c, os[i])
  }

  ghost predicate Mirrors(cfg: Config, objs: seq<seq<nat>>, lists: seq<Chain>) {
    |objs| == |lists| == |cfg.size| && forall c :: 0 <= c < |lists| ==> Mirror(cfg, c, objs[c], lists[c])
  }

  lemma MirrorCut(cfg: Config, c: nat, xs: seq<nat>, os: Chain, n: nat)
    requires c < |cfg.size| && Mirror(cfg, c, xs, os) && n <= |xs|
    ensures n <= |os| && Mirror(cfg, c, xs[..n], os[..n]) && Mirror(cfg, c, xs[n..], os[n..])
  {
  }

  lemma MirrorJoin(cfg: Config, c: nat, xs: seq<nat>, os: Chain, ys: seq<nat>, ps: Chain)
    requires c < |cfg.size| && Mirror(cfg, c, xs, os) && Mirror(cfg, c, ys, ps)
    ensures Mirror(cfg, c, xs + ys, os + ps)
  {
  }

  lemma MirrorsUpdate(cfg: Config, objs: seq<seq<nat>>, lists: seq<Chain>, c: nat, xs: seq<nat>, os: Chain)
    requires Mirrors(cfg, objs, lists) && c < |lists| && Mirror(cfg, c, xs, os)
    ensures Mirrors(cfg, objs[c := xs], lists[c := os])
  {
  }

  /** size_ is what the statistics of the central model take it for. */
  lemma {:induction false} MirrorsWeigh(cfg: Config, objs: seq<seq<nat>>, lists: seq<Chain>, n: nat)
    requires |objs| <= |lists| && |objs| <= |cfg.size| && n <= |objs|
    requires forall c :: 0 <= c < |objs| ==> |objs[c]| == |lists[c]|
    ensures T.Weigh(cfg.size, objs[..n]) == ThreadSize(cfg, lists, n)
  {
    if n > 0 {
      assert objs[..n][..n - 1] == objs[..n - 1];
      MirrorsWeigh(cfg, objs, lists, n - 1);
    }
  }

  // ---------- batches ----------

  /** What is left of the lists when the batches in `out` have been cut from their fronts, one after the other. */
  ghost function CutAll(lists: seq<Chain>, out: seq<T.Batch>): (rest: seq<Chain>)
    ensures |rest| == |lists|
  {
    if out == [] then lists
    else
      var rest, b := CutAll(lists, out[..|out| - 1]), out[|out| - 1];
      if b.c < |rest| && b.n <= |rest[b.c]| then rest[b.c := rest[b.c][b.n..]] else rest
  }

  lemma CutNext(lists: seq<Chain>, out: seq<T.Batch>, k: nat)
    requires k < |out|
    ensures var rest, b := CutAll(lists, out[..k]), out[k];
            CutAll(lists, out[..k + 1]) ==
            if b.c < |rest| && b.n <= |rest[b.c]| then rest[b.c := rest[b.c][b.n..]] else rest
  {
    assert out[..k + 1][..k] == out[..k];
  }

  /** What a thread cache hands over and what it keeps make up what it had. */
  ghost predicate HandsOver(objs: seq<seq<nat>>, out: seq<T.Batch>, objs': seq<seq<nat>>) {
    && |objs'| == |objs| && T.Exact(out, |objs|)
    && forall d :: 0 <= d < |objs| ==> T.Of(out, d) + objs'[d] == objs[d]
  }

  /** What it still has after the first k batches. */
  ghost predicate Has(objs: seq<seq<nat>>, out: seq<T.Batch>, k: nat, left: seq<seq<nat>>)
    requires k <= |out|
  {
    |left| == |objs| && forall d :: 0 <= d < |objs| ==> T.Of(out[..k], d) + left[d] == objs[d]
  }

  lemma Prefix(xs: seq<nat>, ys: seq<nat>, zs: seq<nat>)
    requires xs + ys <= zs
    ensures xs <= zs
  {
    assert (xs + ys)[..|xs|] == xs;
  }

  lemma Cancel(xs: seq<nat>, ys: seq<nat>, zs: seq<nat>)
    requires xs + ys == xs + zs
    ensures ys == zs
  {
    assert ys == (xs + ys)[|xs|..] == (xs + zs)[|xs|..] == zs;
  }

  lemma {:induction false} OfFirst(out: seq<T.Batch>, k: nat, d: nat)
    requires k <= |out|
    ensures T.Of(out[..k], d) <= T.Of(out, d)
    ensures k < |out| ==> T.Of(out[..k + 1], d) == T.Of(out[..k], d) + if out[k].c == d then out[k].objs else []
    decreases |out| - k
  {
    if k < |out| {
      assert out[..k + 1][..k] == out[..k];
      OfFirst(out, k + 1, d);
      Prefix(T.Of(out[..k], d), if out[k].c == d then out[k].objs else [], T.Of(out, d));
    } else {
      assert out[..k] == out;
    }
  }

  /** The batch number k comes from the front of its list. */
  lemma NextBatch(objs: seq<seq<nat>>, out: seq<T.Batch>, objs': seq<seq<nat>>, k: nat, left: seq<seq<nat>>)
    requires HandsOver(objs, out, objs') && k < |out| && Has(objs, out, k, left)
    ensures var b := out[k];
            && b.c < |left| && b.n <= |left[b.c]| && b.objs == left[b.c][..b.n]
            && Has(objs, out, k + 1, left[b.c := left[b.c][b.n..]])
  {
    hide T.Of;
    var b := out[k];
    assert b in out;
    OfFirst(out, k, b.c);
    OfFirst(out, k + 1, b.c);
    Front(T.Of(out[..k], b.c), b.objs, objs[b.c], left[b.c]);
    forall d | 0 <= d < |objs| && d != b.c ensures T.Of(out[..k + 1], d) == T.Of(out[..k], d) { OfFirst(out, k, d); }
  }

  lemma Front(xs: seq<nat>, ys: seq<nat>, zs: seq<nat>, left: seq<nat>)
    requires xs + ys <= zs == xs + left
    ensures ys <= left && xs + ys + left[|ys|..] == zs
  {
    assert left == zs[|xs|..];
    assert ys == (xs + ys)[|xs|..];
  }

  /** The lists of the central model lose the same objects batch by batch. */
  lemma {:induction false} BatchesMirror(cfg: Config, objs: seq<seq<nat>>, out: seq<T.Batch>, objs': seq<seq<nat>>,
                                         lists: seq<Chain>, k: nat)
    returns (left: seq<seq<nat>>)
    requires Mirrors(cfg, objs, lists) && HandsOver(objs, out, objs') && k <= |out|
    ensures Has(objs, out, k, left) && Mirrors(cfg, left, CutAll(lists, out[..k]))
    ensures k < |out| ==>
              var b, rest := out[k], CutAll(lists, out[..k]);
              b.c < |rest| && b.n <= |rest[b.c]| && Mirror(cfg, b.c, b.objs, rest[b.c][..b.n])
  {
    hide Mirror;
    if k == 0 {
      left := objs;
    } else {
      left := BatchesMirror(cfg, objs, out, objs', lists, k - 1);
      var b, rest := out[k - 1], CutAll(lists, out[..k - 1]);
      NextBatch(objs, out, objs', k - 1, left);
      MirrorCut(cfg, b.c, left[b.c], rest[b.c], b.n);
      MirrorsUpdate(cfg, left, rest, b.c, left[b.c][b.n..], rest[b.c][b.n..]);
      CutNext(lists, out, k - 1);
      left := left[b.c := left[b.c][b.n..]];
    }
    if k < |out| {
      NextBatch(objs, out, objs', k, left);
      MirrorCut(cfg, out[k].c, left[out[k].c], CutAll(lists, out[..k])[out[k].c], out[k].n);
    }
  }

  /**
   The steps of thread t for these batches: Insert takes a batch from the front of a list,
   and by the time InsertRange has returned other steps may have been taken, but none that
   touches the thread's lists.
   */
  ghost predicate InsertsAlong(cfg: Config, t: nat, out: seq<T.Batch>, before: seq<State>, after: seq<State>) {
    && |before| == |after| == |out|
    && (forall i :: 0 <= i < |out| ==> Inserted(cfg, t, out[i], before[i], after[i]))
    && (forall i, j :: 0 <= i < |out| && j == i + 1 && j < |out| ==> SameLists(t, after[i], before[j]))
  }

  ghost predicate Inserted(cfg: Config, t: nat, b: T.Batch, s: State, s': State) {
    Shaped(cfg, s) && Enabled(cfg, s, t, Insert(b.c, b.n)) && s' == After(cfg, s, t, Insert(b.c, b.n))
  }

  lemma InsertCuts(cfg: Config, t: nat, b: T.Batch, s: State, s': State)
    requires Inserted(cfg, t, b, s, s')
    ensures t < |s.lists| && t < |s'.lists| && t < |s'.pcs| && b.c < |s.lists[t]| && b.n <= |s.lists[t][b.c]|
    ensures s'.lists[t] == s.lists[t][b.c := s.lists[t][b.c][b.n..]]
    ensures s'.pcs[t] == InsWait(b.c, s.lists[t][b.c][..b.n])
  {
    hide PcShaped, CapOf;
  }

  lemma {:induction false} InsertsFollow(cfg: Config, t: nat, out: seq<T.Batch>, before: seq<State>, after: seq<State>,
                                         k: nat)
    requires InsertsAlong(cfg, t, out, before, after) && k < |out|
    ensures t < |before[0].lists| && t < |before[k].lists| && before[k].lists[t] == CutAll(before[0].lists[t], out[..k])
    ensures t < |after[k].lists| && after[k].lists[t] == CutAll(before[0].lists[t], out[..k + 1])
  {
    hide Inserted;
    assert Inserted(cfg, t, out[k], before[k], after[k]);
    InsertCuts(cfg, t, out[k], before[k], after[k]);
    if k > 0 {
      InsertsFollow(cfg, t, out, before, after, k - 1);
      assert SameLists(t, after[k - 1], before[k]);
    }
    CutNext(before[0].lists[t], out, k);
  }

  /**
   So what ReleaseToCentralCache, Scavenge and Cleanup do on linked words is what these
   steps do: every batch is the chain that thread t then has in hand, address by address,
   and the lists still agree at the end.
   */
  lemma ReleaseRefines(cfg: Config, t: nat, objs: seq<seq<nat>>, out: seq<T.Batch>, objs': seq<seq<nat>>,
                       before: seq<State>, after: seq<State>)
    requires InsertsAlong(cfg, t, out, before, after) && out != [] && t < |before[0].lists|
    requires Mirrors(cfg, objs, before[0].lists[t]) && HandsOver(objs, out, objs')
    ensures t < |after[|out| - 1].lists| && Mirrors(cfg, objs', after[|out| - 1].lists[t])
    ensures forall k :: 0 <= k < |out| ==>
              && t < |after[k].pcs| && after[k].pcs[t].InsWait? && after[k].pcs[t].c == out[k].c < |cfg.size|
              && Mirror(cfg, out[k].c, out[k].objs, after[k].pcs[t].ch)
  {
    hide Inserted, Mirror, CutAll;
    var lists := before[0].lists[t];
    forall k | 0 <= k < |out|
      ensures t < |after[k].pcs| && after[k].pcs[t].InsWait? && after[k].pcs[t].c == out[k].c < |cfg.size|
      ensures Mirror(cfg, out[k].c, out[k].objs, after[k].pcs[t].ch)
    {
      InsertsFollow(cfg, t, out, before, after, k);
      assert Inserted(cfg, t, out[k], before[k], after[k]);
      InsertCuts(cfg, t, out[k], before[k], after[k]);
      var left := BatchesMirror(cfg, objs, out, objs', lists, k);
    }
    InsertsFollow(cfg, t, out, before, after, |out| - 1);
    var left := BatchesMirror(cfg, objs, out, objs', lists, |out|);
    assert out[..|out|] == out;
    forall d | 0 <= d < |objs| ensures left[d] == objs'[d] { Cancel(T.Of(out, d), left[d], objs'[d]); }
    assert left == objs';
  }

  // ---------- one thread's cache ----------

  /** The cache of a thread with the classes that start-up fills in, class 0 and the unused one included. */
  method NewCache(tables: C.SizeTables, words: Words, central: T.Central, lists: seq<FreeList>)
    returns (tc: T.ThreadCache)
    requires tables.Filled() && |lists| == C.CLASSES
    requires forall c, d :: 0 <= c < d < |lists| ==> lists[c] != lists[d]
    requires forall c :: 0 <= c < |lists| ==> lists[c].Valid(words.at) && lists[c].objs == []
    ensures tc.Valid() && tc.lists == lists && tc.size == tables.sizes[..] && tc.move == tables.moves[..]
    ensures tc.bytes == 0
  {
    tables.UsedClassesMove();
    hide C.SizeTables.Filled;
    tc := new T.ThreadCache(tables.sizes[..], tables.moves[..], words, central, lists);
  }

  /** Objects of a class are at their addresses, and different objects at different ones. */
  lemma AddressesDiffer(cfg: Config, s: State, o: Obj, q: Obj, c: nat, d: nat)
    requires Inv(cfg, s) && o in s.place && q in s.place && o != q && c < |cfg.size| && d < |cfg.size|
    requires o.span in s.spans && s.spans[o.span].cl == c && q.span in s.spans && s.spans[q.span].cl == d
    ensures AddressIn(cfg, c, o) != AddressIn(cfg, d, q)
  {
    hide Inv;
    KnownDisjoint(cfg, s, Small(o), Small(q));
    KnownInside(cfg, s, Small(o));
    KnownInside(cfg, s, Small(q));
  }

  /** The objects of a chain that is in no thread's cache have addresses that are on none of its lists. */
  lemma NotOnLists(cfg: Config, s: State, t: nat, objs: seq<seq<nat>>, c: nat, ys: seq<nat>, xs: Chain)
    requires Inv(cfg, s) && t < |s.lists| && Mirrors(cfg, objs, s.lists[t]) && c < |cfg.size| && Mirror(cfg, c, ys, xs)
    requires forall x :: x in xs ==>
              x in s.place && !s.place[x].InCache? && x.span in s.spans && s.spans[x.span].cl == c
    ensures forall d, y :: 0 <= d < |objs| && y in ys ==> y !in objs[d]
  {
    hide Inv, OfClass;
    forall d, y | 0 <= d < |objs| && y in ys ensures y !in objs[d] {
      CacheHere(cfg, s, t, d);
      OfClassIs(s.spans, s.lists[t][d], d);
      var i :| 0 <= i < |ys| && ys[i] == y;
      assert xs[i] in xs;
      forall j | 0 <= j < |objs[d]| ensures objs[d][j] != y {
        assert s.lists[t][d][j] in s.lists[t][d];
        AddressesDiffer(cfg, s, xs[i], s.lists[t][d][j], c, d);
      }
    }
  }

  lemma OfClassIs(spans: map<nat, SpanRec>, xs: Chain, c: nat)
    requires OfClass(spans, xs, c)
    ensures forall o :: o in xs ==> o.span in spans && spans[o.span].cl == c
  {
  }

  /** Different objects of one class have different addresses. */
  lemma OnceMirrored(cfg: Config, s: State, c: nat, ys: seq<nat>, xs: Chain)
    requires Inv(cfg, s) && c < |cfg.size| && Mirror(cfg, c, ys, xs) && Once(xs)
    requires forall x :: x in xs ==> x in s.place && x.span in s.spans && s.spans[x.span].cl == c
    ensures Once(ys)
  {
    hide Inv;
    forall i, j | 0 <= i < j < |ys| ensures ys[i] != ys[j] {
      assert xs[i] in xs && xs[j] in xs;
      AddressesDiffer(cfg, s, xs[i], xs[j], c, c);
    }
  }

  /** An object on a list of class c starts at its address. */
  lemma AddressOnList(cfg: Config, s: State, t: nat, c: nat)
    requires Inv(cfg, s) && t < |s.lists| && c < |s.lists[t]| && s.lists[t][c] != [] && c < |cfg.size|
    ensures AddressIn(cfg, c, s.lists[t][c][0]) == First(cfg, s, Small(s.lists[t][c][0]))
  {
    hide Inv;
    CacheHere(cfg, s, t, c);
    assert s.lists[t][c][0] in s.lists[t][c];
  }

  class Cache {
    const cfg: Config
    const t: nat
    const tc: T.ThreadCache
    ghost var s: State

    /** The words of the cache are what the central model says is on the lists of thread t. */
    ghost predicate Valid()
      reads this, tc, tc.words, tc.lists
    {
      tc.Valid() && Linked() && Inv(cfg, s)
    }

    ghost predicate Linked()
      reads this`s, tc.lists
    {
      && t < |s.lists| && t < |s.pcs| && tc.size == cfg.size && tc.move == cfg.move && |tc.lists| == |cfg.size|
      && Mirrors(cfg, tc.Objs(), s.lists[t])
    }

    /** A new thread's cache is empty, in memory and in the model. */
    constructor (cfg: Config, t: nat, tc: T.ThreadCache, ghost s: State)
      requires tc.Valid() && Inv(cfg, s) && t < |s.lists| && t < |s.pcs| && tc.size == cfg.size && tc.move == cfg.move
      requires |s.lists[t]| == |cfg.size|
      requires forall c :: 0 <= c < |cfg.size| ==> tc.lists[c].objs == [] && s.lists[t][c] == []
      ensures Valid() && this.cfg == cfg && this.t == t && this.tc == tc && this.s == s
    {
      hide Inv;
      this.cfg, this.t, this.tc, this.s := cfg, t, tc, s;
    }

    /** size_ is what the statistics take it for. */
    lemma SizeIsThreadSize()
      requires Valid()
      ensures tc.bytes == ThreadSize(cfg, s.lists[t], |cfg.size|)
    {
      hide Inv, T.Weigh, ThreadSize, T.ThreadCache.InOrder;
      tc.Weight();
      MirrorsWeigh(cfg, tc.Objs(), s.lists[t], |cfg.size|);
      assert tc.Objs()[..|cfg.size|] == tc.Objs();
    }

    /** The model follows a change of the lists in memory. */
    ghost method Follow(s2: State)
      requires tc.Valid() && Inv(cfg, s2) && t < |s2.lists| && t < |s2.pcs| && Mirrors(cfg, tc.Objs(), s2.lists[t])
      requires tc.size == cfg.size && tc.move == cfg.move && |tc.lists| == |cfg.size|
      modifies this`s
      ensures Valid() && s == s2
    {
      hide Inv, T.ThreadCache.Valid, Mirrors;
      s := s2;
    }

    /** What a step does to one list in memory and in the model. */
    lemma Followed(before: seq<seq<nat>>, c: nat, xs: seq<nat>, lists: seq<Chain>, os: Chain)
      requires c < |tc.lists| == |before| && tc.lists[c].objs == xs
      requires forall d :: 0 <= d < |before| && d != c ==> tc.lists[d].objs == before[d]
      requires Mirrors(cfg, before, lists) && Mirror(cfg, c, xs, os)
      ensures Mirrors(cfg, tc.Objs(), lists[c := os])
    {
      hide Mirror;
      assert tc.Objs() == before[c := xs];
      MirrorsUpdate(cfg, before, lists, c, xs, os);
    }

    /** Different lists are different objects. */
    lemma Different(c: nat)
      requires tc.Valid() && c < |tc.lists|
      ensures forall d :: 0 <= d < |tc.lists| && d != c ==> tc.lists[d] != tc.lists[c]
    {
    }

    /** The end of Allocate. */
    method Malloc(c: nat) returns (p: nat, ghost o: Obj)
      requires Valid() && s.pcs[t].Idle? && c < |tc.lists| && tc.lists[c].objs != []
      modifies this`s, tc`bytes, tc.lists[c]
      ensures Valid() && Shaped(cfg, old(s)) && Enabled(cfg, old(s), t, Action.Malloc(c))
      ensures s == After(cfg, old(s), t, Action.Malloc(c))
      ensures o == old(s).lists[t][c][0] && p == AddressIn(cfg, c, o) && p != 0
      ensures p == First(cfg, old(s), Small(o))
    {
      hide Inv, T.ThreadCache.Valid, PcShaped;
      ghost var was, before := s, tc.Objs();
      o := s.lists[t][c][0];
      Parts(cfg, s);
      Lengths(cfg, s);
      StepKeeps(cfg, s, t, Action.Malloc(c));
      AddressOnList(cfg, s, t, c);
      Different(c);
      MirrorCut(cfg, c, before[c], was.lists[t][c], 1);
      hide Shaped;
      p := tc.Take(c);
      Followed(before, c, before[c][1..], was.lists[t], was.lists[t][c][1..]);
      Follow(MallocStep(was, t, c));
    }

    /** The push of Deallocate. */
    method Free(p: nat, c: nat, ghost o: Obj)
      requires Valid() && s.pcs[t].Idle? && c < |tc.lists| && tc.size[c] > 0
      requires Live(s, Small(o)) && o.span in s.spans && s.spans[o.span].cl == c && p == AddressIn(cfg, c, o) && p != 0
      modifies this`s, tc`bytes, tc.lists[c], tc.words
      ensures Valid() && Shaped(cfg, old(s)) && Enabled(cfg, old(s), t, Action.Free(o))
      ensures s == After(cfg, old(s), t, Action.Free(o))
    {
      hide Inv, T.ThreadCache.Valid, PcShaped;
      ghost var was, before := s, tc.Objs();
      Parts(cfg, s);
      Lengths(cfg, s);
      StepKeeps(cfg, s, t, Action.Free(o));
      Different(c);
      NotOnLists(cfg, s, t, before, c, [p], [o]);
      assert p in [p];
      MirrorJoin(cfg, c, [p], [o], before[c], was.lists[t][c]);
      hide Shaped;
      tc.Keep(p, c);
      Followed(before, c, [p] + before[c], was.lists[t], [o] + was.lists[t][c]);
      Follow(FreeStep(was, t, o));
    }

    /** FetchFromCentralCache, when RemoveRange returns with the chain xs, which lies in memory as ys. */
    method Fetch(c: nat, start: nat, end: nat, n: nat, ghost ys: seq<nat>, ghost xs: Chain, ghost ch: Choice)
      requires Valid() && c < |tc.lists| && tc.size[c] > 0 && Path(tc.words.at, start, ys) && n == |ys|
      requires (ys != [] ==> end == ys[n - 1]) && Mirror(cfg, c, ys, xs) && Once(xs)
      requires forall x :: x in xs ==>
                x in s.place && !s.place[x].InCache? && x.span in s.spans && s.spans[x.span].cl == c
      requires Shaped(cfg, s) && Enabled(cfg, s, t, Work(ch))
      requires c < |s.lists[t]| && After(cfg, s, t, Work(ch)).lists == s.lists[t := s.lists[t][c := xs + s.lists[t][c]]]
      modifies this`s, tc`bytes, tc.lists[c], tc.words
      ensures Valid() && s == After(cfg, old(s), t, Work(ch))
    {
      hide Inv, T.ThreadCache.Valid, PcShaped, WorkStep, FreeObjects.Path, Once;
      ghost var was, before, next := s, tc.Objs(), After(cfg, s, t, Work(ch));
      StepKeeps(cfg, s, t, Work(ch));
      Different(c);
      NotOnLists(cfg, s, t, before, c, ys, xs);
      OnceMirrored(cfg, s, c, ys, xs);
      MirrorJoin(cfg, c, ys, xs, before[c], was.lists[t][c]);
      Parts(cfg, next);
      hide Shaped, After;
      tc.FetchFromCentralCache(c, start, end, n, ys);
      Followed(before, c, ys + before[c], was.lists[t], xs + was.lists[t][c]);
      Follow(next);
    }
  }
}
