/** Steps of threads and of transfer caches: what they keep. */
module CentralTransfer {
  import opened Basics
  import opened CentralState
  import opened CentralSteps
  import opened CentralSafety

  /** The state is shaped and its class and slot facts hold as before when only a position changes. */
  lemma PcChange(cfg: Config, s: State, s': State, t: nat, q: Pc)
    requires Inv(cfg, s) && t < |s.pcs| && s' == s.To(t, q).(locks := s'.locks) && |s'.locks| == |s.locks|
    requires PcShaped(cfg, q) && Hand(q) == Hand(s.pcs[t]) && Token(q) == Token(s.pcs[t])
    requires LocksKept(s'.pcs, s'.locks) && QuietMove(s, t, q)
    ensures Inv(cfg, s')
  {
    hide LocksKept, CapacityKept, SlotsKept, ClassKept, Owned, SpansKept, ListsKept, TakenKept, UnusedKept;
    hide PrivateKept, PrivateOne, HandOne, PcShaped, QuietMove, Hand;
    CapacityStays(cfg, s.pcs, s.central, t, q);
    assert Owned(s') by {
      forall p ensures s'.Contents(p) == s.Contents(p) {}
      Still(s, s');
    }
    assert Shaped(cfg, s');
    Quiet(cfg, s, s', t, q);
  }

  lemma PrivateHere(pcs: seq<Pc>, spans: map<nat, SpanRec>, taken: map<nat, Lease>, t: nat)
    requires PrivateKept(pcs, spans, taken) && t < |pcs|
    ensures PrivateOne(pcs[t], spans, taken)
  {
  }

  lemma AcquireKeeps(cfg: Config, s: State, t: nat)
    requires Inv(cfg, s) && Enabled(cfg, s, t, Acquire)
    ensures Inv(cfg, After(cfg, s, t, Acquire))
  {
    hide LocksKept, CapacityKept, SlotsKept, ClassKept, Owned, SpansKept, ListsKept, TakenKept, UnusedKept, PrivateKept;
    var q, l := Entered(s.pcs[t]), Wants(s.pcs[t]).value;
    assert PcShaped(cfg, s.pcs[t]) && HandOne(s.spans, s.pcs[t]);
    LockTaken(s.pcs, s.locks, t, q, l);
    PrivateHere(s.pcs, s.spans, s.taken, t);
    PcChange(cfg, s, After(cfg, s, t, Acquire), t, q);
  }

  lemma RemoveKeeps(cfg: Config, s: State, t: nat, c: nat, n: nat)
    requires Inv(cfg, s) && Enabled(cfg, s, t, Remove(c, n))
    ensures Inv(cfg, After(cfg, s, t, Remove(c, n)))
  {
    hide Inv, LocksKept, CapacityKept, SlotsKept, ClassKept, Owned, SpansKept, ListsKept, TakenKept, UnusedKept;
    hide PrivateKept, HandsKept, AllKept, CountsKept;
    Parts(cfg, s);
    LocksStay(s.pcs, s.locks, t, RemWait(c, n));
    PcChange(cfg, s, After(cfg, s, t, Remove(c, n)), t, RemWait(c, n));
  }

  lemma EvictKeeps(cfg: Config, s: State, t: nat, c: nat, ch: Chain, force: bool, v: nat, skip: bool)
    requires Inv(cfg, s) && t < |s.pcs| && s.pcs[t] == Evict(c, ch, force) && c < cfg.classes && v < cfg.classes
    ensures Inv(cfg, EvictStep(s, t, c, ch, force, v, skip))
  {
    hide LocksKept, CapacityKept, SlotsKept, ClassKept, Owned, SpansKept, ListsKept, TakenKept, UnusedKept;
    hide PrivateKept, OfClass;
    var s' := EvictStep(s, t, c, ch, force, v, skip);
    assert PcShaped(cfg, s.pcs[t]) && HandOne(s.spans, s.pcs[t]);
    if v == c || skip {
      FailedKeeps(cfg, s, t, c, ch, force);
    } else {
      LockLeft(s.pcs, s.locks, t, ShrinkWait(c, ch, force, v), c);
      PcChange(cfg, s, s', t, ShrinkWait(c, ch, force, v));
    }
  }

  lemma FailedKeeps(cfg: Config, s: State, t: nat, c: nat, ch: Chain, force: bool)
    requires Inv(cfg, s) && t < |s.pcs| && (s.pcs[t] == Evict(c, ch, force) || s.pcs[t] == Back(c, ch, force, false))
    ensures Inv(cfg, EvictFailed(s, t, c, ch, force))
  {
    hide LocksKept, CapacityKept, SlotsKept, ClassKept, Owned, SpansKept, ListsKept, TakenKept, UnusedKept;
    hide PrivateKept, OfClass;
    var q := if force then Release(c, ch, Leave) else Evict(c, ch, true);
    assert PcShaped(cfg, s.pcs[t]) && HandOne(s.spans, s.pcs[t]);
    assert ch + ContHand(Leave) == ch;
    LocksStay(s.pcs, s.locks, t, q);
    PcChange(cfg, s, EvictFailed(s, t, c, ch, force), t, q);
  }

  lemma ReleasedKeeps(cfg: Config, s: State, t: nat, l: nat, k: Cont)
    requires Inv(cfg, s) && t < |s.pcs| && s.pcs[t] == Release(l, [], k) && l < cfg.classes
    ensures Inv(cfg, ReleasedStep(s, t, l, k))
  {
    hide LocksKept, CapacityKept, SlotsKept, ClassKept, Owned, SpansKept, ListsKept, TakenKept, UnusedKept;
    hide PrivateKept, OfClass;
    var q := if k.Leave? then Idle else BackWait(k.c, k.ch, true, true);
    assert PcShaped(cfg, s.pcs[t]) && HandOne(s.spans, s.pcs[t]);
    assert [] + ContHand(k) == ContHand(k);
    LockLeft(s.pcs, s.locks, t, q, l);
    PcChange(cfg, s, ReleasedStep(s, t, l, k), t, q);
  }

  lemma SlotsChange(cfg: Config, central: seq<Central>, c: nat, f: Central)
    requires |cfg.move| == cfg.classes == |central| && c < |central| && SlotsKept(cfg, central)
    requires forall i :: 0 <= i < f.used && i < |f.slots| ==>
               || |f.slots[i]| == cfg.move[c]
               || (i < central[c].used && i < |central[c].slots| && f.slots[i] == central[c].slots[i])
    ensures SlotsKept(cfg, central[c := f])
  {
  }

  lemma ClassMoved(s: State, xs: Chain, p: Place)
    requires ClassKept(s.spans, s.place)
    requires forall o :: o in xs ==> o in s.place
    requires match p
      case InCache(_, c) => OfClass(s.spans, xs, c)
      case InSlot(c, _) => OfClass(s.spans, xs, c)
      case InChain(sp) => forall o :: o in xs ==> o.span == sp
      case _ => true
    ensures ClassKept(s.spans, s.Placed(xs, p).place)
  {
  }

  /** What is in a thread's hand is recorded there, once. */
  lemma InHandHere(s: State, t: nat, xs: Chain)
    requires Owned(s) && t < |s.pcs| && Hand(s.pcs[t]) == xs
    ensures Once(xs) && forall o :: o in xs ==> o in s.place && s.place[o] == InHand(t)
  {
    assert Listed(s, InHand(t));
  }

  lemma StoreOwned(s: State, s': State, t: nat, c: nat, ch: Chain)
    requires Owned(s) && t < |s.pcs| && c < |s.central| && Hand(s.pcs[t]) == ch
    requires 0 <= s.central[c].used < |s.central[c].slots|
    requires s' == s.(pcs := s'.pcs, central := s'.central, locks := s'.locks, place := s'.place)
    requires s'.pcs == s.pcs[t := Idle]
    requires exists f ::
              && s'.central == s.central[c := f] && f.used == s.central[c].used + 1
              && f.slots == s.central[c].slots[s.central[c].used := ch]
    requires s'.place == s.Placed(ch, InSlot(c, s.central[c].used)).place
    ensures Owned(s')
  {
    hide Owned, Hand;
    InHandHere(s, t, ch);
    assert Hand(Idle) == [] by { HandIdle(); }
    Moved(s, s', ch, InHand(t), InSlot(c, s.central[c].used));
  }

  lemma HandIdle()
    ensures Hand(Idle) == []
  {
  }

  /** Storing a chain, with the room the class has or has just been given. */
  lemma StoreKeeps(cfg: Config, s: State, t: nat, c: nat, ch: Chain, cache: int)
    requires Inv(cfg, s) && t < |s.pcs| && c < cfg.classes
    requires s.pcs[t] == InsTest(c, ch) || (s.pcs[t].Back? && s.pcs[t].c == c && s.pcs[t].ch == ch)
    requires |ch| == cfg.move[c]
    requires cache == s.central[c].cache + Token(s.pcs[t]) && s.central[c].used < cache
    ensures Inv(cfg, Store(s.WithCentral(c, s.central[c].(cache := cache)), t, c, ch))
  {
    hide LocksKept, CapacityKept, SlotsKept, ClassKept, Owned, SpansKept, ListsKept, TakenKept, UnusedKept;
    hide PrivateKept, OfClass;
    var s' := Store(s.WithCentral(c, s.central[c].(cache := cache)), t, c, ch);
    assert PcShaped(cfg, s.pcs[t]) && HandOne(s.spans, s.pcs[t]);
    CapacityLimits(cfg, s.pcs, s.central, t, c);
    var f0 := s.central[c];
    var f := f0.(cache := cache, used := f0.used + 1, slots := f0.slots[f0.used := ch]);
    assert s'.central == s.central[c := f];
    CapacityMoved(cfg, s.pcs, s.central, t, Idle, c, f);
    SlotsChange(cfg, s.central, c, f);
    LockLeft(s.pcs, s.locks, t, Idle, c);
    InHandHere(s, t, ch);
    ClassMoved(s, ch, InSlot(c, f0.used));
    StoreOwned(s, s', t, c, ch);
    Quiet(cfg, s, s', t, Idle);
  }

  lemma InsTestKeeps(cfg: Config, s: State, t: nat, c: nat, ch: Chain)
    requires Inv(cfg, s) && t < |s.pcs| && s.pcs[t] == InsTest(c, ch) && c < cfg.classes
    ensures Inv(cfg, InsTestStep(cfg, s, t, c, ch))
  {
    hide LocksKept, CapacityKept, SlotsKept, ClassKept, Owned, SpansKept, ListsKept, TakenKept, UnusedKept;
    hide PrivateKept, OfClass, Store;
    var s' := InsTestStep(cfg, s, t, c, ch);
    assert PcShaped(cfg, s.pcs[t]) && HandOne(s.spans, s.pcs[t]);
    if |ch| == cfg.move[c] && s.central[c].used < s.central[c].cache {
      assert s.WithCentral(c, s.central[c].(cache := s.central[c].cache)) == s;
      StoreKeeps(cfg, s, t, c, ch, s.central[c].cache);
    } else {
      assert ch + ContHand(Leave) == ch;
      LocksStay(s.pcs, s.locks, t, s'.pcs[t]);
      PcChange(cfg, s, s', t, s'.pcs[t]);
    }
  }

  lemma BackKeeps(cfg: Config, s: State, t: nat, c: nat, ch: Chain, force: bool, got: bool)
    requires Inv(cfg, s) && t < |s.pcs| && s.pcs[t] == Back(c, ch, force, got) && c < cfg.classes
    ensures Inv(cfg, BackStep(s, t, c, ch, force, got))
  {
    hide LocksKept, CapacityKept, SlotsKept, ClassKept, Owned, SpansKept, ListsKept, TakenKept, UnusedKept;
    hide PrivateKept, OfClass, Store, EvictFailed;
    assert PcShaped(cfg, s.pcs[t]);
    if got {
      CapacityLimits(cfg, s.pcs, s.central, t, c);
      StoreKeeps(cfg, s, t, c, ch, s.central[c].cache + 1);
    } else {
      FailedKeeps(cfg, s, t, c, ch, force);
    }
  }

  /** A slot leaves its transfer cache for the hand of a thread. */
  lemma SlotToHand(s: State, s': State, t: nat, v: nat, i: nat, q: Pc, f: Central)
    requires Owned(s) && t < |s.pcs| && v < |s.central| && i < |s.central[v].slots| && s.central[v].used == i + 1
    requires s'.pcs == s.pcs[t := q] && s'.lists == s.lists && s'.spans == s.spans
    requires s'.central == s.central[v := f] && f.used == i && f.slots == s.central[v].slots
    requires Hand(q) == s.central[v].slots[i] + Hand(s.pcs[t])
    requires s'.place == s.Placed(s.central[v].slots[i], InHand(t)).place
    ensures Owned(s')
  {
    hide Owned, Hand;
    assert Listed(s, InSlot(v, i)) by { ListedAt(s, InSlot(v, i)); }
    Moved(s, s', s.central[v].slots[i], InSlot(v, i), InHand(t));
  }

  lemma ListedAt(s: State, p: Place)
    requires Owned(s)
    ensures Listed(s, p)
  {
  }

  /** What a slot holds is of its class and of its length. */
  lemma SlotHere(cfg: Config, s: State, c: nat, i: nat)
    requires Inv(cfg, s) && c < |s.central| && i < s.central[c].used && i < |s.central[c].slots|
    ensures OfClass(s.spans, s.central[c].slots[i], c) && |s.central[c].slots[i]| == cfg.move[c]
    ensures Once(s.central[c].slots[i])
    ensures forall o :: o in s.central[c].slots[i] ==> o in s.place && s.place[o] == InSlot(c, i)
  {
    ListedAt(s, InSlot(c, i));
    assert s.Contents(InSlot(c, i)) == s.central[c].slots[i];
  }

  lemma ShrinkKeeps(cfg: Config, s: State, t: nat, c: nat, ch: Chain, force: bool, v: nat)
    requires Inv(cfg, s) && t < |s.pcs| && s.pcs[t] == Shrink(c, ch, force, v) && v < cfg.classes
    ensures Inv(cfg, ShrinkStep(s, t, c, ch, force, v))
  {
    hide Inv, LocksKept, CapacityKept, SlotsKept, ClassKept, Owned, OfClass, CapOf, State.Contents;
    Parts(cfg, s);
    PositionHere(cfg, s, t);
    hide HandsKept, AllKept, CountsKept, ListsKept, SpansKept, TakenKept, UnusedKept, PrivateKept;
    var f := s.central[v];
    CapacityLimits(cfg, s.pcs, s.central, t, v);
    if f.cache == 0 || (f.used == f.cache && !force) {
      LockLeft(s.pcs, s.locks, t, BackWait(c, ch, force, false), v);
      PcChange(cfg, s, ShrinkStep(s, t, c, ch, force, v), t, BackWait(c, ch, force, false));
    } else if f.used == f.cache {
      ForcedKeeps(cfg, s, t, c, ch, v);
    } else {
      RoomTaken(cfg, s, t, c, ch, force, v);
    }
  }

  /** A class with room gives up one slot of it. */
  lemma RoomTaken(cfg: Config, s: State, t: nat, c: nat, ch: Chain, force: bool, v: nat)
    requires Inv(cfg, s) && t < |s.pcs| && s.pcs[t] == Shrink(c, ch, force, v) && v < cfg.classes
    requires 0 <= s.central[v].used < s.central[v].cache
    ensures Inv(cfg, ShrinkStep(s, t, c, ch, force, v))
  {
    hide Inv, LocksKept, CapacityKept, SlotsKept, ClassKept, Owned, OfClass, CapOf;
    Parts(cfg, s);
    PositionHere(cfg, s, t);
    hide HandsKept, AllKept, CountsKept, ListsKept, SpansKept, TakenKept, UnusedKept, PrivateKept;
    var s', f := ShrinkStep(s, t, c, ch, force, v), s.central[v];
    var q, f' := BackWait(c, ch, force, true), f.(cache := f.cache - 1);
    LockLeft(s.pcs, s.locks, t, q, v);
    CapacityMoved(cfg, s.pcs, s.central, t, q, v, f');
    SlotsChange(cfg, s.central, v, f');
    RoomOwned(s, s', t, c, ch, force, v);
    Quiet(cfg, s, s', t, q);
  }

  lemma RoomOwned(s: State, s': State, t: nat, c: nat, ch: Chain, force: bool, v: nat)
    requires Owned(s) && t < |s.pcs| && s.pcs[t] == Shrink(c, ch, force, v) && v < |s.central| && v < |s.locks|
    requires 0 <= s.central[v].used < s.central[v].cache && s' == ShrinkStep(s, t, c, ch, force, v)
    ensures Owned(s')
  {
    hide Owned;
    forall p ensures s'.Contents(p) == s.Contents(p) {}
    Still(s, s');
  }

  /** The full slot of a class that is forced to shrink goes to the hand of the thread. */
  lemma ForcedOwned(cfg: Config, s: State, t: nat, c: nat, ch: Chain, v: nat)
    requires Inv(cfg, s) && t < |s.pcs| && s.pcs[t] == Shrink(c, ch, true, v) && v < |s.central| && v < |s.locks|
    requires 0 < s.central[v].used == s.central[v].cache <= |s.central[v].slots|
    ensures ClassKept(s.spans, ShrinkStep(s, t, c, ch, true, v).place) && Owned(ShrinkStep(s, t, c, ch, true, v))
    ensures ShrinkStep(s, t, c, ch, true, v).place.Keys == s.place.Keys
  {
    hide Inv, ClassKept, Owned, OfClass, Hand, State.Contents;
    Parts(cfg, s);
    hide HandsKept, AllKept, CountsKept, ListsKept, SpansKept, TakenKept, UnusedKept, PrivateKept, LocksKept;
    hide CapacityKept, SlotsKept, Shaped;
    var f := s.central[v];
    var xs := f.slots[f.used - 1];
    SlotHere(cfg, s, v, f.used - 1);
    ClassMoved(s, xs, InHand(t));
    HandForced(v, xs, c, ch);
    SlotToHand(s, ShrinkStep(s, t, c, ch, true, v), t, v, f.used - 1, Release(v, xs, Resume(c, ch)),
               f.(cache := f.cache - 1, used := f.used - 1));
  }

  lemma HandForced(v: nat, xs: Chain, c: nat, ch: Chain)
    ensures Hand(Release(v, xs, Resume(c, ch))) == xs + ch && Hand(Shrink(c, ch, true, v)) == ch
  {
  }

  lemma ForcedKeeps(cfg: Config, s: State, t: nat, c: nat, ch: Chain, v: nat)
    requires Inv(cfg, s) && t < |s.pcs| && s.pcs[t] == Shrink(c, ch, true, v) && v < cfg.classes
    requires 0 < s.central[v].used == s.central[v].cache <= |s.central[v].slots|
    ensures Inv(cfg, ShrinkStep(s, t, c, ch, true, v))
  {
    hide Inv, LocksKept, CapacityKept, SlotsKept, ClassKept, Owned, OfClass, CapOf, Hand, State.Contents;
    Parts(cfg, s);
    PositionHere(cfg, s, t);
    hide HandsKept, AllKept, CountsKept, ListsKept, SpansKept, TakenKept, UnusedKept, PrivateKept;
    ForcedOwned(cfg, s, t, c, ch, v);
    var f := s.central[v];
    var xs := f.slots[f.used - 1];
    var q, f' := Release(v, xs, Resume(c, ch)), f.(cache := f.cache - 1, used := f.used - 1);
    SlotHere(cfg, s, v, f.used - 1);
    LocksStay(s.pcs, s.locks, t, q);
    CapacityMoved(cfg, s.pcs, s.central, t, q, v, f');
    SlotsChange(cfg, s.central, v, f');
    Quiet(cfg, s, ShrinkStep(s, t, c, ch, true, v), t, q);
  }
}
