/** Steps on thread caches, and on runs of pages that belong to no size class: what they keep. */
module CentralThreads {
  import opened Basics
  import opened CentralState
  import opened CentralSteps
  import opened CentralSafety
  import opened CentralTransfer
  import opened CentralSpans

  /** What a thread's list holds is recorded there, once, and is of its class. */
  lemma CacheHere(cfg: Config, s: State, t: nat, c: nat)
    requires Inv(cfg, s) && t < |s.lists| && c < |s.lists[t]|
    ensures Once(s.lists[t][c])
    ensures forall o :: o in s.lists[t][c] ==> o in s.place && s.place[o] == InCache(t, c)
    ensures OfClass(s.spans, s.lists[t][c], c)
  {
    ListedAt(s, InCache(t, c));
    assert s.Contents(InCache(t, c)) == s.lists[t][c];
  }

  lemma MallocOwned(s: State, t: nat, c: nat)
    requires Owned(s) && t < |s.lists| && c < |s.lists[t]| && s.lists[t][c] != []
    ensures Owned(MallocStep(s, t, c))
  {
    hide Owned;
    var s', xs := MallocStep(s, t, c), s.lists[t][c];
    ListedAt(s, InCache(t, c));
    assert xs[0] in xs;
    OnceParts(xs, 1);
    assert forall o :: o in [xs[0]] <==> o in xs[..1];
    Moved(s, s', [xs[0]], InCache(t, c), InApp);
  }

  lemma MallocKeeps(cfg: Config, s: State, t: nat, c: nat)
    requires Inv(cfg, s) && Enabled(cfg, s, t, Malloc(c))
    ensures Inv(cfg, MallocStep(s, t, c))
  {
    hide LocksKept, CapacityKept, SlotsKept, ClassKept, Owned, SpansKept, ListsKept, TakenKept, UnusedKept;
    hide PrivateKept, OfClass, HandsKept, PcShaped;
    var s', xs := MallocStep(s, t, c), s.lists[t][c];
    CacheHere(cfg, s, t, c);
    assert xs[0] in xs;
    ClassMoved(s, [xs[0]], InApp);
    MallocOwned(s, t, c);
    assert s'.pcs == s.pcs[t := s.pcs[t]];
    assert PrivateOne(Idle, s.spans, s.taken) && HandOne(s.spans, Idle);
    Quiet(cfg, s, s', t, s.pcs[t]);
  }

  /** The class that do_free reads is that of the object's span. */
  lemma SpanOfLive(cfg: Config, s: State, x: Obj)
    requires Inv(cfg, s) && x in s.place
    ensures x.span in s.spans && s.spans[x.span].cl < cfg.classes && x.idx < cfg.cap[s.spans[x.span].cl]
  {
  }

  lemma FreeKeeps(cfg: Config, s: State, t: nat, x: Obj)
    requires Inv(cfg, s) && Enabled(cfg, s, t, Free(x))
    ensures Inv(cfg, FreeStep(s, t, x))
  {
    hide LocksKept, CapacityKept, SlotsKept, ClassKept, Owned, SpansKept, ListsKept, TakenKept, UnusedKept;
    hide PrivateKept, HandsKept, PcShaped;
    SpanOfLive(cfg, s, x);
    var s', c := FreeStep(s, t, x), s.spans[x.span].cl;
    ClassMoved(s, [x], InCache(t, c));
    Moved(s, s', [x], InApp, InCache(t, c));
    assert s'.pcs == s.pcs[t := s.pcs[t]];
    assert PrivateOne(Idle, s.spans, s.taken) && HandOne(s.spans, Idle);
    Quiet(cfg, s, s', t, s.pcs[t]);
  }

  lemma FreeUncachedKeeps(cfg: Config, s: State, t: nat, x: Obj)
    requires Inv(cfg, s) && Enabled(cfg, s, t, FreeUncached(x))
    ensures Inv(cfg, FreeUncachedStep(s, t, x))
  {
    hide LocksKept, CapacityKept, SlotsKept, ClassKept, Owned, SpansKept, ListsKept, TakenKept, UnusedKept;
    hide PrivateKept, HandsKept;
    SpanOfLive(cfg, s, x);
    var s', c := FreeUncachedStep(s, t, x), s.spans[x.span].cl;
    var q := InsWait(c, [x]);
    LocksStay(s.pcs, s.locks, t, q);
    CapacityStays(cfg, s.pcs, s.central, t, q);
    ClassMoved(s, [x], InHand(t));
    Moved(s, s', [x], InApp, InHand(t));
    Quiet(cfg, s, s', t, q);
  }

  lemma InsertKeeps(cfg: Config, s: State, t: nat, c: nat, n: nat)
    requires Inv(cfg, s) && Enabled(cfg, s, t, Insert(c, n))
    ensures Inv(cfg, InsertStep(s, t, c, n))
  {
    hide LocksKept, CapacityKept, SlotsKept, ClassKept, Owned, SpansKept, ListsKept, TakenKept, UnusedKept;
    hide PrivateKept, HandsKept;
    var s', xs := InsertStep(s, t, c, n), s.lists[t][c];
    var q := InsWait(c, xs[..n]);
    CacheHere(cfg, s, t, c);
    OnceParts(xs, n);
    LocksStay(s.pcs, s.locks, t, q);
    CapacityStays(cfg, s.pcs, s.central, t, q);
    ClassMoved(s, xs[..n], InHand(t));
    Moved(s, s', xs[..n], InCache(t, c), InHand(t));
    Quiet(cfg, s, s', t, q);
  }

  /** RemoveRange ends with what a thread has in hand. */
  lemma HandDelivered(cfg: Config, s: State, t: nat, c: nat, n: nat, xs: Chain, dry: bool)
    requires Inv(cfg, s) && t < |s.pcs| && s.pcs[t] == Fetch(c, n, xs, dry) && c < cfg.classes
    requires xs == [] ==> s.central[c].nonempty == []
    ensures Inv(cfg, Deliver(s, t, c, xs))
  {
    hide LocksKept, CapacityKept, SlotsKept, ClassKept, Owned, SpansKept, ListsKept, TakenKept, UnusedKept;
    hide PrivateKept, OfClass;
    var s' := Deliver(s, t, c, xs);
    assert PcShaped(cfg, s.pcs[t]) && HandOne(s.spans, s.pcs[t]);
    InHandHere(s, t, xs);
    LockLeft(s.pcs, s.locks, t, Idle, c);
    CapacityStays(cfg, s.pcs, s.central, t, Idle);
    ClassMoved(s, xs, InCache(t, c));
    Moved(s, s', xs, InHand(t), InCache(t, c));
    Quiet(cfg, s, s', t, Idle);
  }

  lemma RemTestKeeps(cfg: Config, s: State, t: nat, c: nat, n: nat)
    requires Inv(cfg, s) && t < |s.pcs| && s.pcs[t] == RemTest(c, n) && c < cfg.classes
    ensures Inv(cfg, RemTestStep(cfg, s, t, c, n))
  {
    hide LocksKept, CapacityKept, SlotsKept, ClassKept, Owned, SpansKept, ListsKept, TakenKept, UnusedKept, PrivateKept;
    var s', f := RemTestStep(cfg, s, t, c, n), s.central[c];
    assert PcShaped(cfg, s.pcs[t]);
    CapacityLimits(cfg, s.pcs, s.central, t, c);
    if n == cfg.move[c] && f.used > 0 {
      SlotDelivered(cfg, s, t, c, n);
    } else {
      LocksStay(s.pcs, s.locks, t, Fetch(c, n, [], false));
      PcChange(cfg, s, s', t, Fetch(c, n, [], false));
    }
  }

  lemma SlotDelivered(cfg: Config, s: State, t: nat, c: nat, n: nat)
    requires Inv(cfg, s) && t < |s.pcs| && s.pcs[t] == RemTest(c, n) && c < cfg.classes
    requires 0 < s.central[c].used <= |s.central[c].slots|
    ensures Inv(cfg, Deliver(s.WithCentral(c, s.central[c].(used := s.central[c].used - 1)), t, c,
                             s.central[c].slots[s.central[c].used - 1]))
  {
    hide Inv, LocksKept, CapacityKept, SlotsKept, ClassKept, Owned, OfClass, CapOf, State.Contents, Shaped, PcShaped;
    Parts(cfg, s);
    Lengths(cfg, s);
    hide HandsKept, AllKept, CountsKept, ListsKept, SpansKept, TakenKept, UnusedKept, PrivateKept;
    var f := s.central[c];
    var f', xs := f.(used := f.used - 1), f.slots[f.used - 1];
    var s' := Deliver(s.WithCentral(c, f'), t, c, xs);
    CapacityLimits(cfg, s.pcs, s.central, t, c);
    SlotHere(cfg, s, c, f.used - 1);
    LockLeft(s.pcs, s.locks, t, Idle, c);
    CapacityMoved(cfg, s.pcs, s.central, t, Idle, c, f');
    SlotsChange(cfg, s.central, c, f');
    ClassMoved(s, xs, InCache(t, c));
    SlotToList(s, s', t, c, f');
    DeliveredShaped(cfg, s, t, c, xs, f');
    Quiet(cfg, s, s', t, Idle);
  }

  lemma DeliveredShaped(cfg: Config, s: State, t: nat, c: nat, xs: Chain, f: Central)
    requires Shaped(cfg, s) && t < |s.pcs| && c < cfg.classes && f.slots == s.central[c].slots
    ensures Shaped(cfg, Deliver(s.WithCentral(c, f), t, c, xs))
  {
    hide CapOf;
  }

  /** The last slot of a class goes to the front of a thread's list. */
  lemma SlotToList(s: State, s': State, t: nat, c: nat, f: Central)
    requires Owned(s) && t < |s.pcs| && t < |s.lists| && c < |s.lists[t]| && c < |s.central| && c < |s.locks|
    requires 0 < s.central[c].used <= |s.central[c].slots| && s.pcs[t].RemTest?
    requires f == s.central[c].(used := s.central[c].used - 1)
    requires s' == Deliver(s.WithCentral(c, f), t, c, s.central[c].slots[s.central[c].used - 1])
    ensures Owned(s')
  {
    hide Owned;
    var i := s.central[c].used - 1;
    ListedAt(s, InSlot(c, i));
    Moved(s, s', s.central[c].slots[i], InSlot(c, i), InCache(t, c));
  }

  // ---------- runs of pages outside size classes ----------

  /** Only leases that no list and no thread relies on change. */
  lemma LeasesKeep(cfg: Config, s: State, s': State)
    requires Inv(cfg, s) && s' == s.(taken := s'.taken) && TakenKept(cfg, s'.taken)
    requires forall sp :: sp in s.taken && s.taken[sp].ForClass? ==> sp in s'.taken && s'.taken[sp] == s.taken[sp]
    requires forall sp :: sp in s'.taken && s'.taken[sp].ForClass? ==> sp in s.taken && s'.taken[sp] == s.taken[sp]
    ensures Inv(cfg, s')
  {
    hide LocksKept, CapacityKept, SlotsKept, ClassKept, Owned, ListsKept, TakenKept, UnusedKept;
    Lengths(cfg, s);
    assert forall sp :: sp in s.spans ==> SpanKept(cfg, s.spans, s.taken, sp);
    SpansLease(cfg, s.spans, s.taken, s'.taken);
    forall t | 0 <= t < |s.pcs| ensures PrivateOne(s.pcs[t], s.spans, s'.taken) {
      assert PrivateOne(s.pcs[t], s.spans, s.taken);
    }
    assert Owned(s') by {
      forall p ensures s'.Contents(p) == s.Contents(p) {}
      Still(s, s');
    }
  }

  lemma NewPagesKeeps(cfg: Config, s: State, t: nat, n: nat, sp: nat)
    requires Inv(cfg, s) && Enabled(cfg, s, t, NewPages(n, sp))
    ensures Inv(cfg, NewPagesStep(s, n, sp))
  {
    TakenGrows(cfg, s.taken, sp, ForPages(n));
    LeasesKeep(cfg, s, NewPagesStep(s, n, sp));
  }

  lemma DeletePagesKeeps(cfg: Config, s: State, t: nat, sp: nat)
    requires Inv(cfg, s) && Enabled(cfg, s, t, DeletePages(sp))
    ensures Inv(cfg, DeletePagesStep(s, sp))
  {
    LeasesKeep(cfg, s, DeletePagesStep(s, sp));
  }
}
