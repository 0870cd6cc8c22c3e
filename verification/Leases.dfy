/**
 What the central free lists have taken from the page heap, as the page heap sees it: the
 blocks in use of its layout.
 */
module Leases {
  import opened Arith
  import opened CentralState
  import opened CentralAccounts
  import L = PageLayout

  /** The block of a lease: a span of a size class, or a run of pages of no class. */
  function BlockOf(cfg: Config, lease: Lease): L.Block {
    L.Block(Pages(cfg, lease), false, if lease.ForClass? then lease.c else 0)
  }

  ghost function Leased(cfg: Config, taken: map<nat, Lease>): L.Layout {
    map a | a in taken :: BlockOf(cfg, taken[a])
  }

  ghost predicate Below(h: L.Layout, top: nat) {
    forall q: nat :: L.Covered(h, q) ==> q < top
  }

  /** The blocks in use are exactly the leases: same pages, same lengths, same classes. */
  ghost predicate Tied(cfg: Config, h: L.Layout, taken: map<nat, Lease>) {
    L.Used(h) == Leased(cfg, taken) && Below(h, cfg.top)
  }

  lemma BelowWithin(h: L.Layout, h2: L.Layout, p: nat, m: nat, top: nat)
    requires Below(h, top) && L.Within(h, h2, p, m) && p + m <= top
    ensures Below(h2, top)
  {
    hide L.Covered;
  }

  lemma BelowSame(h: L.Layout, h2: L.Layout, top: nat)
    requires Below(h, top) && L.SamePages(h, h2)
    ensures Below(h2, top)
  {
    hide L.Covered;
  }

  /** A run the page heap hands out is no one else's: the answer the central lists count on. */
  lemma VacantRun(cfg: Config, h: L.Layout, h2: L.Layout, taken: map<nat, Lease>, a: nat, b: L.Block)
    requires L.Used(h) == Leased(cfg, taken) && L.Tiled(h2) && Below(h2, cfg.top)
    requires L.Used(h2) == L.Used(h)[a := b] && a !in L.Used(h)
    ensures Vacant(cfg, taken, a, b.len)
  {
    assert a in L.Used(h2) && h2[a] == b;
    assert L.In(h2, a, a + b.len - 1) && L.Covered(h2, a + b.len - 1);
    forall c | c in taken ensures c + Pages(cfg, taken[c]) <= a || a + b.len <= c {
      assert c in Leased(cfg, taken) && c in L.Used(h2) && h2[c] == BlockOf(cfg, taken[c]);
    }
  }

  lemma LeasedMore(cfg: Config, taken: map<nat, Lease>, a: nat, lease: Lease)
    ensures Leased(cfg, taken[a := lease]) == Leased(cfg, taken)[a := BlockOf(cfg, lease)]
  {
  }

  lemma LeasedLess(cfg: Config, taken: map<nat, Lease>, a: nat)
    ensures Leased(cfg, taken - {a}) == Leased(cfg, taken) - {a}
  {
  }

  lemma NotTaken(cfg: Config, h: L.Layout, taken: map<nat, Lease>, sp: nat)
    requires Tied(cfg, h, taken) && sp !in L.Used(h)
    ensures sp !in taken
  {
  }

  /** A new block in use is a new lease, of pages that were vacant. */
  lemma TiedMore(cfg: Config, h: L.Layout, h2: L.Layout, taken: map<nat, Lease>, a: nat, lease: Lease)
    requires Tied(cfg, h, taken) && L.Tiled(h2) && Below(h2, cfg.top)
    requires L.Used(h2) == L.Used(h)[a := BlockOf(cfg, lease)] && a !in L.Used(h)
    ensures Vacant(cfg, taken, a, Pages(cfg, lease)) && Tied(cfg, h2, taken[a := lease])
  {
    hide L.Tiled, L.Used, Below;
    VacantRun(cfg, h, h2, taken, a, BlockOf(cfg, lease));
    LeasedMore(cfg, taken, a, lease);
  }

  /** A block that is given back ends its lease. */
  lemma TiedLess(cfg: Config, h: L.Layout, h2: L.Layout, taken: map<nat, Lease>, a: nat)
    requires Tied(cfg, h, taken) && L.SamePages(h, h2) && L.Used(h2) == L.Used(h) - {a}
    ensures Tied(cfg, h2, taken - {a})
  {
    hide L.Used, Below, L.SamePages;
    LeasedLess(cfg, taken, a);
    BelowSame(h, h2, cfg.top);
  }

  // ---------- pages and bytes ----------

  /** The pages of a layout are free or in use. */
  lemma {:induction false} PagesSplit(h: L.Layout)
    ensures L.Total(h, L.Pages) == L.Total(h, L.FreePages) + L.Total(L.Used(h), L.Pages)
    decreases |h|
  {
    if h.Keys == {} {
      assert h == map[] && L.Used(h) == map[];
    } else {
      var a :| a in h;
      var g := h - {a};
      assert |g| < |h| by { assert g.Keys == h.Keys - {a} && |g.Keys| == |h.Keys| - 1; }
      PagesSplit(g);
      L.TotalWithout(h, L.Pages, a);
      L.TotalWithout(h, L.FreePages, a);
      if h[a].free {
        assert L.Used(h) == L.Used(g);
      } else {
        L.TotalWithout(L.Used(h), L.Pages, a);
        assert L.Used(h) - {a} == L.Used(g);
      }
    }
  }

  ghost function UpTo(taken: map<nat, Lease>, n: nat): map<nat, Lease> {
    map a | a in taken && a < n :: taken[a]
  }

  /** The bytes of the leases below page n are those of their blocks. */
  lemma {:induction false} LeasedBytes(cfg: Config, taken: map<nat, Lease>, n: nat)
    ensures L.Total(Leased(cfg, UpTo(taken, n)), L.Pages) * PAGE_SIZE == TakenBytes(cfg, taken, n)
  {
    if n == 0 {
      assert Leased(cfg, UpTo(taken, 0)) == map[];
    } else {
      LeasedBytes(cfg, taken, n - 1);
      var before := Leased(cfg, UpTo(taken, n - 1));
      if n - 1 in taken {
        assert UpTo(taken, n) == UpTo(taken, n - 1)[n - 1 := taken[n - 1]];
        LeasedMore(cfg, UpTo(taken, n - 1), n - 1, taken[n - 1]);
        L.TotalUpdate(before, L.Pages, n - 1, BlockOf(cfg, taken[n - 1]));
      } else {
        assert UpTo(taken, n) == UpTo(taken, n - 1);
      }
    }
  }

  /** What the page heap has and has not handed out add up, in bytes. */
  lemma HeapBytes(cfg: Config, h: L.Layout, taken: map<nat, Lease>)
    requires L.Tiled(h) && Tied(cfg, h, taken)
    ensures L.Total(h, L.Pages) * PAGE_SIZE == L.Total(h, L.FreePages) * PAGE_SIZE + TakenBytes(cfg, taken, cfg.top)
  {
    PagesSplit(h);
    LeasedBytes(cfg, taken, cfg.top);
    forall a | a in taken ensures a < cfg.top {
      assert a in L.Used(h) && L.In(h, a, a) && L.Covered(h, a);
    }
    assert UpTo(taken, cfg.top) == taken;
  }
}
