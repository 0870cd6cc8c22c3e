/**
 The byte counts of DumpStats in a quiescent state: what is left of the heap after free
 pages, central lists, transfer caches and thread caches is what the application holds.
 */
module CentralAccounts {
  import opened Basics
  import opened Arith
  import opened CentralState
  import opened CentralSteps
  import opened CentralSafety
  import opened CentralTransfer
  import opened CentralSpans
  import opened CentralTheorems

  // ---------- gathering what is at several places ----------

  ghost function Gather(s: State, ps: seq<Place>): Chain {
    if ps == [] then [] else s.Contents(ps[0]) + Gather(s, ps[1..])
  }

  lemma {:induction false} GatherOnce(s: State, ps: seq<Place>)
    requires Owned(s) && Once(ps)
    ensures Once(Gather(s, ps))
    ensures forall o :: o in Gather(s, ps) <==> o in s.place && !s.place[o].InApp? && s.place[o] in ps
  {
    hide Owned, State.Contents;
    Nowhere(s);
    if ps != [] {
      GatherOnce(s, ps[1..]);
      assert ps[0] !in ps[1..];
      ListedAt(s, ps[0]);
      OnceJoin(s.Contents(ps[0]), Gather(s, ps[1..]));
      assert ps == [ps[0]] + ps[1..];
      forall o ensures o in Gather(s, ps) <==> o in s.place && !s.place[o].InApp? && s.place[o] in ps {
        FoundAt(s, o);
      }
    }
  }

  lemma {:induction false} GatherAppend(s: State, ps: seq<Place>, qs: seq<Place>)
    ensures |Gather(s, ps + qs)| == |Gather(s, ps)| + |Gather(s, qs)|
  {
    if ps != [] {
      GatherAppend(s, ps[1..], qs);
      assert (ps + qs)[1..] == ps[1..] + qs;
    } else {
      assert ps + qs == qs;
    }
  }

  // ---------- the places of one class ----------

  ghost function Slots(c: nat, used: nat): seq<Place> {
    if used == 0 then [] else Slots(c, used - 1) + [InSlot(c, used - 1)]
  }

  ghost function Caches(c: nat, threads: nat): seq<Place> {
    if threads == 0 then [] else Caches(c, threads - 1) + [InCache(threads - 1, c)]
  }

  ghost function Chains(spans: map<nat, SpanRec>, c: nat, n: nat): seq<Place> {
    if n == 0 then []
    else Chains(spans, c, n - 1) + if n - 1 in spans && spans[n - 1].cl == c then [InChain(n - 1)] else []
  }

  /** The objects of class c in the caches of the first n threads. */
  ghost function Cached(lists: seq<seq<Chain>>, c: nat, n: nat): nat {
    if n == 0 || n > |lists| then 0
    else Cached(lists, c, n - 1) + if c < |lists[n - 1]| then |lists[n - 1][c]| else 0
  }

  lemma {:induction false} SlotPlaces(c: nat, used: nat)
    ensures Once(Slots(c, used))
    ensures forall p :: p in Slots(c, used) <==> p.InSlot? && p.c == c && p.i < used
  {
    if used > 0 { SlotPlaces(c, used - 1); }
  }

  lemma Plus(a: int, b: int)
    ensures (a + 1) * b == a * b + b
  {
  }

  lemma {:induction false} SlotsHold(s: State, c: nat, used: nat, move: nat)
    requires c < |s.central| && used <= s.central[c].used && used <= |s.central[c].slots|
    requires forall i :: 0 <= i < used ==> |s.central[c].slots[i]| == move
    ensures |Gather(s, Slots(c, used))| == used * move
  {
    hide Gather;
    if used > 0 {
      SlotsHold(s, c, used - 1, move);
      GatherAppend(s, Slots(c, used - 1), [InSlot(c, used - 1)]);
      One(s, InSlot(c, used - 1));
      Plus(used - 1, move);
    } else {
      assert |Gather(s, [])| == 0 by { GatherNone(s); }
    }
  }

  lemma GatherNone(s: State)
    ensures Gather(s, []) == []
  {
  }

  lemma One(s: State, p: Place)
    ensures |Gather(s, [p])| == |s.Contents(p)|
  {
    assert Gather(s, [p]) == s.Contents(p) + Gather(s, [p][1..]);
  }

  lemma {:induction false} CachesAre(s: State, c: nat, n: nat)
    requires n <= |s.lists|
    ensures |Gather(s, Caches(c, n))| == Cached(s.lists, c, n)
    ensures Once(Caches(c, n))
    ensures forall p :: p in Caches(c, n) <==> p.InCache? && p.c == c && p.t < n
  {
    if n > 0 {
      CachesAre(s, c, n - 1);
      GatherAppend(s, Caches(c, n - 1), [InCache(n - 1, c)]);
      One(s, InCache(n - 1, c));
    }
  }

  lemma {:induction false} ChainPlaces(spans: map<nat, SpanRec>, c: nat, n: nat)
    ensures Once(Chains(spans, c, n))
    ensures forall p :: p in Chains(spans, c, n) <==> p.InChain? && p.sp < n && p.sp in spans && spans[p.sp].cl == c
  {
    if n > 0 { ChainPlaces(spans, c, n - 1); }
  }

  lemma {:induction false} ChainsHold(s: State, c: nat, n: nat)
    ensures |Gather(s, Chains(s.spans, c, n))| == FreeBelow(s.spans, c, n)
  {
    hide Gather;
    if n > 0 {
      ChainsHold(s, c, n - 1);
      if n - 1 in s.spans && s.spans[n - 1].cl == c {
        GatherAppend(s, Chains(s.spans, c, n - 1), [InChain(n - 1)]);
        One(s, InChain(n - 1));
      } else {
        assert Chains(s.spans, c, n) == Chains(s.spans, c, n - 1);
      }
    } else {
      GatherNone(s);
    }
  }

  /** Objects of class c that the application holds. */
  ghost function Held(s: State, c: nat): set<Obj> {
    set o | o in s.place && o.span in s.spans && s.spans[o.span].cl == c && s.place[o].InApp?
  }

  /** The spans of class c below page n. */
  ghost function SpanCount(spans: map<nat, SpanRec>, c: nat, n: nat): nat {
    if n == 0 then 0 else SpanCount(spans, c, n - 1) + if n - 1 in spans && spans[n - 1].cl == c then 1 else 0
  }

  ghost function AllBelow(s: State, c: nat, n: nat): set<Obj> {
    set o | o in s.place && o.span in s.spans && s.spans[o.span].cl == c && o.span < n
  }

  lemma AllBelowNext(cfg: Config, s: State, c: nat, n: nat)
    requires |cfg.cap| == cfg.classes && AllKept(cfg, s.spans, s.place) && c < cfg.classes
    requires n in s.spans && s.spans[n].cl == c
    ensures AllBelow(s, c, n + 1) == AllBelow(s, c, n) + Whole(n, cfg.cap[c])
  {
  }

  lemma AllBelowSame(s: State, c: nat, n: nat)
    requires !(n in s.spans && s.spans[n].cl == c)
    ensures AllBelow(s, c, n + 1) == AllBelow(s, c, n)
  {
  }

  lemma AllBelowNone(s: State, c: nat)
    ensures AllBelow(s, c, 0) == {}
  {
  }

  lemma {:induction false} AllBelowCounts(cfg: Config, s: State, c: nat, n: nat)
    requires |cfg.cap| == cfg.classes && AllKept(cfg, s.spans, s.place) && c < cfg.classes
    ensures |AllBelow(s, c, n)| == SpanCount(s.spans, c, n) * cfg.cap[c]
  {
    hide AllBelow, AllKept, Whole;
    if n == 0 {
      AllBelowNone(s, c);
    } else {
      AllBelowCounts(cfg, s, c, n - 1);
      Plus(SpanCount(s.spans, c, n - 1), cfg.cap[c]);
      if n - 1 in s.spans && s.spans[n - 1].cl == c {
        WholeCounts(n - 1, cfg.cap[c]);
        AllBelowNext(cfg, s, c, n - 1);
        Fresh(s, c, n - 1, cfg.cap[c]);
        SizeOfUnion(AllBelow(s, c, n - 1), Whole(n - 1, cfg.cap[c]));
      } else {
        AllBelowSame(s, c, n - 1);
      }
    }
  }

  lemma SizeOfUnion<T>(a: set<T>, b: set<T>)
    requires a !! b
    ensures |a + b| == |a| + |b|
  {
  }

  lemma Fresh(s: State, c: nat, n: nat, cap: nat)
    ensures AllBelow(s, c, n) !! Whole(n, cap)
  {
  }

  ghost predicate Quiescent(s: State) {
    forall t :: 0 <= t < |s.pcs| ==> s.pcs[t].Idle?
  }

  lemma NoneInHand(s: State, o: Obj)
    requires Owned(s) && Quiescent(s) && o in s.place
    ensures !s.place[o].InHand?
  {
    FoundAt(s, o);
  }

  ghost function Ps(s: State, c: nat, top: nat): seq<Place>
    requires c < |s.central| && s.central[c].used >= 0
  {
    Slots(c, s.central[c].used) + Caches(c, |s.lists|) + Chains(s.spans, c, top)
  }

  /**
   When no call is in progress, the objects of a class are: those in its transfer cache,
   in the thread caches, on its central list, and those the application holds.
   */
  lemma ClassAdds(cfg: Config, s: State, c: nat)
    requires Inv(cfg, s) && Quiescent(s) && c < cfg.classes && c < |s.central| && c < |cfg.cap| && c < |cfg.move|
    ensures SpanCount(s.spans, c, cfg.top) * cfg.cap[c]
         == s.central[c].used * cfg.move[c] + Cached(s.lists, c, |s.lists|) + s.central[c].counter + |Held(s, c)|
  {
    hide Inv, CapOf, State.Contents;
    Parts(cfg, s);
    Lengths(cfg, s);
    var f := s.central[c];
    hide Owned, ListsKept, Shaped, LocksKept, PrivateKept, UnusedKept, HandsKept, TakenKept, SpansKept, Gather;
    assert 0 <= f.used <= |f.slots| by { Bounded(cfg, s, c); }
    SlotsHold(s, c, f.used, cfg.move[c]);
    SlotPlaces(c, f.used);
    CachesAre(s, c, |s.lists|);
    ChainsHold(s, c, cfg.top);
    ChainPlaces(s.spans, c, cfg.top);
    var xs := Gather(s, Ps(s, c, cfg.top));
    GatherAppend(s, Slots(c, f.used) + Caches(c, |s.lists|), Chains(s.spans, c, cfg.top));
    GatherAppend(s, Slots(c, f.used), Caches(c, |s.lists|));
    DistinctAll(s, c, cfg.top);
    GatherOnce(s, Ps(s, c, cfg.top));
    OnceCounts(xs);
    AllBelowCounts(cfg, s, c, cfg.top);
    ClassSplits(cfg, s, c);
    assert Elements(xs) !! Held(s, c);
  }

  lemma Bounded(cfg: Config, s: State, c: nat)
    requires Inv(cfg, s) && c < |s.central|
    ensures 0 <= s.central[c].used <= |s.central[c].slots|
  {
    assert Sound(s.central[c]);
    CachesBound(s.central, c);
    TokensNonneg(s.pcs);
  }

  lemma DistinctAll(s: State, c: nat, top: nat)
    requires c < |s.central| && s.central[c].used >= 0
    requires Once(Slots(c, s.central[c].used)) && Once(Caches(c, |s.lists|)) && Once(Chains(s.spans, c, top))
    requires forall p :: p in Slots(c, s.central[c].used) ==> p.InSlot?
    requires forall p :: p in Caches(c, |s.lists|) ==> p.InCache?
    requires forall p :: p in Chains(s.spans, c, top) ==> p.InChain?
    ensures Once(Ps(s, c, top))
  {
    var a, b, d := Slots(c, s.central[c].used), Caches(c, |s.lists|), Chains(s.spans, c, top);
    OnceJoin(a, b);
    OnceJoin(a + b, d);
  }

  /** The objects of a class are those gathered and those held. */
  lemma ClassSplits(cfg: Config, s: State, c: nat)
    requires Inv(cfg, s) && Quiescent(s) && c < cfg.classes && c < |s.central| && s.central[c].used >= 0
    requires forall o :: o in Gather(s, Ps(s, c, cfg.top)) <==>
              o in s.place && !s.place[o].InApp? && s.place[o] in Ps(s, c, cfg.top)
    requires forall p :: p in Slots(c, s.central[c].used) <==> p.InSlot? && p.c == c && p.i < s.central[c].used
    requires forall p :: p in Caches(c, |s.lists|) <==> p.InCache? && p.c == c && p.t < |s.lists|
    requires forall p :: p in Chains(s.spans, c, cfg.top) <==>
              p.InChain? && p.sp < cfg.top && p.sp in s.spans && s.spans[p.sp].cl == c
    ensures AllBelow(s, c, cfg.top) == Elements(Gather(s, Ps(s, c, cfg.top))) + Held(s, c)
  {
    hide Inv, CapOf, Gather, Slots, Caches, Chains;
    Parts(cfg, s);
    Lengths(cfg, s);
    hide Owned, ListsKept, Shaped, LocksKept, PrivateKept, UnusedKept, HandsKept, CountsKept, SlotsKept;
    hide CapacityKept, State.Contents;
    forall o ensures o in AllBelow(s, c, cfg.top) <==> o in Elements(Gather(s, Ps(s, c, cfg.top))) + Held(s, c) {
      if o in s.place {
        NoneInHand(s, o);
        PlaceInRange(s, o);
        assert o.span in s.spans;
        assert SpanKept(cfg, s.spans, s.taken, o.span);
      }
    }
  }

  lemma PlaceInRange(s: State, o: Obj)
    requires Owned(s) && o in s.place
    ensures s.place[o].InCache? ==> s.place[o].t < |s.lists|
    ensures s.place[o].InSlot? ==> s.place[o].c < |s.central| && s.place[o].i < s.central[s.place[o].c].used
    ensures s.place[o].InChain? ==> s.place[o].sp in s.spans
  {
    FoundAt(s, o);
  }

  // ---------- bytes ----------

  /** The sums of ExtractStats over the first n classes. */
  ghost function CentralBytes(cfg: Config, s: State, n: nat): int
    requires n <= |s.central| && n <= |cfg.size|
  {
    if n == 0 then 0 else CentralBytes(cfg, s, n - 1) + cfg.size[n - 1] * s.central[n - 1].counter
  }

  ghost function TransferBytes(cfg: Config, s: State, n: nat): int
    requires n <= |s.central| && n <= |cfg.size| && n <= |cfg.move|
  {
    if n == 0 then 0 else TransferBytes(cfg, s, n - 1) + cfg.size[n - 1] * (s.central[n - 1].used * cfg.move[n - 1])
  }

  /** size_ of a thread cache. */
  ghost function ThreadSize(cfg: Config, lists: seq<Chain>, n: nat): int
    requires n <= |lists| && n <= |cfg.size|
  {
    if n == 0 then 0 else ThreadSize(cfg, lists, n - 1) + cfg.size[n - 1] * |lists[n - 1]|
  }

  ghost function ThreadBytes(cfg: Config, lists: seq<seq<Chain>>, threads: nat): int
    requires threads <= |lists| && forall t :: 0 <= t < |lists| ==> |lists[t]| == |cfg.size|
  {
    if threads == 0 then 0 else ThreadBytes(cfg, lists, threads - 1) + ThreadSize(cfg, lists[threads - 1], |cfg.size|)
  }

  /** The same bytes added up class by class. */
  ghost function CachedBytes(cfg: Config, lists: seq<seq<Chain>>, threads: nat, n: nat): int
    requires n <= |cfg.size|
  {
    if n == 0 then 0 else CachedBytes(cfg, lists, threads, n - 1) + cfg.size[n - 1] * Cached(lists, n - 1, threads)
  }

  lemma {:induction false} OneThread(cfg: Config, lists: seq<seq<Chain>>, t: nat, n: nat)
    requires n <= |cfg.size| && t < |lists| && forall u :: 0 <= u < |lists| ==> |lists[u]| == |cfg.size|
    ensures CachedBytes(cfg, lists, t + 1, n) == CachedBytes(cfg, lists, t, n) + ThreadSize(cfg, lists[t], n)
  {
    if n > 0 {
      OneThread(cfg, lists, t, n - 1);
      Distribute(cfg.size[n - 1], Cached(lists, n - 1, t), |lists[t][n - 1]|);
    }
  }

  lemma {:induction false} NoThread(cfg: Config, lists: seq<seq<Chain>>, n: nat)
    requires n <= |cfg.size|
    ensures CachedBytes(cfg, lists, 0, n) == 0
  {
    if n > 0 { NoThread(cfg, lists, n - 1); }
  }

  lemma {:induction false} ThreadBytesByClass(cfg: Config, lists: seq<seq<Chain>>, threads: nat)
    requires threads <= |lists| && forall t :: 0 <= t < |lists| ==> |lists[t]| == |cfg.size|
    ensures ThreadBytes(cfg, lists, threads) == CachedBytes(cfg, lists, threads, |cfg.size|)
  {
    if threads == 0 {
      NoThread(cfg, lists, |cfg.size|);
    } else {
      ThreadBytesByClass(cfg, lists, threads - 1);
      OneThread(cfg, lists, threads - 1, |cfg.size|);
    }
  }

  /** The bytes of live objects of size classes. */
  ghost function LiveBytes(cfg: Config, s: State, n: nat): int
    requires n <= |cfg.size|
  {
    if n == 0 then 0 else LiveBytes(cfg, s, n - 1) + cfg.size[n - 1] * |Held(s, n - 1)|
  }

  /** The bytes of a span behind its last object. */
  ghost function Tail(cfg: Config, c: nat): int
    requires c < |cfg.size| && c < |cfg.pages| && c < |cfg.cap|
  {
    cfg.pages[c] as int * PAGE_SIZE - cfg.cap[c] * cfg.size[c]
  }

  ghost function Slack(cfg: Config, spans: map<nat, SpanRec>, n: nat): int
    requires n <= |cfg.size| && n <= |cfg.pages| && n <= |cfg.cap|
  {
    if n == 0 then 0 else Slack(cfg, spans, n - 1) + SpanCount(spans, n - 1, cfg.top) * Tail(cfg, n - 1)
  }

  /** The bytes of runs of pages below page n that are out of the page heap. */
  ghost function TakenBytes(cfg: Config, taken: map<nat, Lease>, n: nat): int {
    if n == 0 then 0
    else TakenBytes(cfg, taken, n - 1) + if n - 1 in taken then Pages(cfg, taken[n - 1]) * PAGE_SIZE else 0
  }

  /** The bytes of live blocks made of whole pages. */
  ghost function PageBytes(taken: map<nat, Lease>, n: nat): int {
    if n == 0 then 0
    else PageBytes(taken, n - 1) + if n - 1 in taken && taken[n - 1].ForPages? then taken[n - 1].n * PAGE_SIZE else 0
  }

  ghost function SpanBytes(cfg: Config, spans: map<nat, SpanRec>, top: nat, n: nat): int
    requires n <= |cfg.pages|
  {
    if n == 0 then 0
    else SpanBytes(cfg, spans, top, n - 1) + SpanCount(spans, n - 1, top) * (cfg.pages[n - 1] * PAGE_SIZE)
  }

  lemma {:induction false} OneMoreSpan(cfg: Config, spans: map<nat, SpanRec>, a: nat, n: nat)
    requires n <= |cfg.pages|
    ensures SpanBytes(cfg, spans, a + 1, n)
         == SpanBytes(cfg, spans, a, n)
            + if a in spans && spans[a].cl < n then cfg.pages[spans[a].cl] * PAGE_SIZE else 0
  {
    if n > 0 {
      OneMoreSpan(cfg, spans, a, n - 1);
      Plus(SpanCount(spans, n - 1, a), cfg.pages[n - 1] * PAGE_SIZE);
    }
  }

  lemma {:induction false} NoSpan(cfg: Config, spans: map<nat, SpanRec>, n: nat)
    requires n <= |cfg.pages|
    ensures SpanBytes(cfg, spans, 0, n) == 0
  {
    if n > 0 { NoSpan(cfg, spans, n - 1); }
  }

  /** Every run of pages is a span of a class or a live block. */
  lemma {:induction false} TakenSplits(cfg: Config, spans: map<nat, SpanRec>, taken: map<nat, Lease>, n: nat)
    requires |cfg.pages| == cfg.classes
    requires forall a :: a in taken && taken[a].ForClass? ==> a in spans
    requires forall a :: a in spans ==> spans[a].cl < cfg.classes && a in taken && taken[a] == ForClass(spans[a].cl)
    ensures TakenBytes(cfg, taken, n) == PageBytes(taken, n) + SpanBytes(cfg, spans, n, cfg.classes)
  {
    if n == 0 {
      NoSpan(cfg, spans, cfg.classes);
    } else {
      TakenSplits(cfg, spans, taken, n - 1);
      OneMoreSpan(cfg, spans, n - 1, cfg.classes);
    }
  }

  lemma ClassBytes(spans: int, cap: int, size: int, used: int, cached: int, counter: int, held: int, bytes: int)
    requires spans * cap == used + cached + counter + held
    ensures spans * bytes == size * counter + size * used + size * cached + size * held + spans * (bytes - cap * size)
  {
    assert spans * (bytes - cap * size) == spans * bytes - (spans * cap) * size;
  }

  lemma {:induction false} ClassesAdd(cfg: Config, s: State, n: nat)
    requires Inv(cfg, s) && Quiescent(s)
    requires |cfg.size| == |cfg.pages| == |cfg.cap| == |cfg.move| == |s.central| == cfg.classes && n <= cfg.classes
    ensures SpanBytes(cfg, s.spans, cfg.top, n)
         == CentralBytes(cfg, s, n) + TransferBytes(cfg, s, n) + CachedBytes(cfg, s.lists, |s.lists|, n)
            + LiveBytes(cfg, s, n) + Slack(cfg, s.spans, n)
  {
    hide Inv;
    if n > 0 {
      ClassesAdd(cfg, s, n - 1);
      var c := n - 1;
      ClassAdds(cfg, s, c);
      ClassBytes(SpanCount(s.spans, c, cfg.top), cfg.cap[c], cfg.size[c], s.central[c].used * cfg.move[c],
                 Cached(s.lists, c, |s.lists|), s.central[c].counter, |Held(s, c)|, cfg.pages[c] * PAGE_SIZE);
    }
  }

  lemma {:induction false} NothingNegative(cfg: Config, s: State, n: nat)
    requires cfg.Valid() && n <= cfg.classes
    ensures LiveBytes(cfg, s, n) >= 0 && Slack(cfg, s.spans, n) >= 0
  {
    if n > 0 {
      NothingNegative(cfg, s, n - 1);
      var c := n - 1;
      if cfg.size[c] > 0 {
        assert CapOf(cfg.pages[c], cfg.size[c], cfg.cap[c]);
        Fits(cfg.pages[c], cfg.size[c], cfg.cap[c], cfg.cap[c] - 1);
      }
      assert Tail(cfg, c) >= 0;
    }
  }

  lemma {:induction false} PagesNotNegative(taken: map<nat, Lease>, n: nat)
    ensures PageBytes(taken, n) >= 0
  {
    if n > 0 { PagesNotNegative(taken, n - 1); }
  }

  /**
   In a quiescent state the pages that are out of the page heap are, byte for byte, in
   central lists, transfer caches and thread caches, or live objects, live runs of pages and
   the tails of spans.
   */
  lemma BytesOut(cfg: Config, s: State)
    requires Inv(cfg, s) && Quiescent(s)
    requires |cfg.size| == |cfg.pages| == |cfg.cap| == |cfg.move| == |s.central| == cfg.classes
    requires forall t :: 0 <= t < |s.lists| ==> |s.lists[t]| == |cfg.size|
    ensures TakenBytes(cfg, s.taken, cfg.top)
         == CentralBytes(cfg, s, cfg.classes) + TransferBytes(cfg, s, cfg.classes)
            + ThreadBytes(cfg, s.lists, |s.lists|)
            + LiveBytes(cfg, s, cfg.classes) + PageBytes(s.taken, cfg.top) + Slack(cfg, s.spans, cfg.classes)
    ensures LiveBytes(cfg, s, cfg.classes) >= 0 && PageBytes(s.taken, cfg.top) >= 0
    ensures Slack(cfg, s.spans, cfg.classes) >= 0
  {
    hide Inv, CentralBytes, TransferBytes, LiveBytes, Slack, TakenBytes, PageBytes, SpanBytes, CachedBytes, ThreadBytes;
    Parts(cfg, s);
    forall a | a in s.taken && s.taken[a].ForClass? ensures a in s.spans { NoBorrower(s, a); }
    forall a | a in s.spans
      ensures s.spans[a].cl < cfg.classes && a in s.taken && s.taken[a] == ForClass(s.spans[a].cl)
    {
      assert SpanKept(cfg, s.spans, s.taken, a);
    }
    TakenSplits(cfg, s.spans, s.taken, cfg.top);
    ClassesAdd(cfg, s, cfg.classes);
    ThreadBytesByClass(cfg, s.lists, |s.lists|);
    Lengths(cfg, s);
    NothingNegative(cfg, s, cfg.classes);
    PagesNotNegative(s.taken, cfg.top);
  }

  lemma NoBorrower(s: State, a: nat)
    requires PrivateKept(s.pcs, s.spans, s.taken) && Quiescent(s) && a in s.taken && s.taken[a].ForClass?
    ensures a in s.spans
  {
  }
}
