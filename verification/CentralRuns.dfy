/** Safety of every run of the central free lists, transfer caches and thread caches. */
module CentralRuns {
  import opened Basics
  import opened CentralState
  import opened CentralSteps
  import opened CentralSafety
  import opened CentralTransfer
  import opened CentralSpans
  import opened CentralThreads

  /** Every step a thread can take, whatever the others are doing, keeps the invariant. */
  lemma StepKeeps(cfg: Config, s: State, t: nat, a: Action)
    requires Inv(cfg, s) && Enabled(cfg, s, t, a)
    ensures Inv(cfg, After(cfg, s, t, a))
  {
    hide LocksKept, CapacityKept, SlotsKept, ClassKept, Owned, SpansKept, ListsKept, TakenKept, UnusedKept;
    hide PrivateKept, HandsKept, AllKept, CountsKept, FreeBelow, CapOf, HandOne;
    hide MallocStep, FreeStep, FreeUncachedStep, InsertStep, NewPagesStep, DeletePagesStep, WorkStep;
    match a
    case Malloc(c) => MallocKeeps(cfg, s, t, c);
    case Free(x) => FreeKeeps(cfg, s, t, x);
    case FreeUncached(x) => FreeUncachedKeeps(cfg, s, t, x);
    case Insert(c, n) => InsertKeeps(cfg, s, t, c, n);
    case Remove(c, n) => RemoveKeeps(cfg, s, t, c, n);
    case NewPages(n, sp) => NewPagesKeeps(cfg, s, t, n, sp);
    case DeletePages(sp) => DeletePagesKeeps(cfg, s, t, sp);
    case Acquire => AcquireKeeps(cfg, s, t);
    case Work(ch) => WorkKeeps(cfg, s, t, ch);
  }

  lemma WorkKeeps(cfg: Config, s: State, t: nat, ch: Choice)
    requires Inv(cfg, s) && Enabled(cfg, s, t, Work(ch))
    ensures Inv(cfg, WorkStep(cfg, s, t, ch))
  {
    hide Inv, InsTestStep, EvictStep, ShrinkStep, BackStep, ReleasedStep, ReleaseStep, GoneStep, RemTestStep;
    hide FetchStep, PopNewStep, PopLinkStep, CapOf;
    assert Shaped(cfg, s) && PcShaped(cfg, s.pcs[t]) by { Parts(cfg, s); PositionHere(cfg, s, t); }
    match s.pcs[t]
    case InsTest(c, xs) => InsTestKeeps(cfg, s, t, c, xs);
    case Evict(c, xs, force) => EvictKeeps(cfg, s, t, c, xs, force, ch.victim, ch.skip);
    case Shrink(c, xs, force, v) => ShrinkKeeps(cfg, s, t, c, xs, force, v);
    case Back(c, xs, force, got) => BackKeeps(cfg, s, t, c, xs, force, got);
    case Release(l, rest, k) =>
      if rest == [] { ReleasedKeeps(cfg, s, t, l, k); } else { ReleaseKeeps(cfg, s, t, l, rest, k); }
    case Gone(l, rest, k, sp) => GoneKeeps(cfg, s, t, l, rest, k, sp);
    case RemTest(c, n) => RemTestKeeps(cfg, s, t, c, n);
    case Fetch(c, n, out, dry) => FetchKeeps(cfg, s, t, c, n, out, dry);
    case PopNew(c, n) => PopNewKeeps(cfg, s, t, c, n, ch.page);
    case PopLink(c, n, sp) => PopLinkKeeps(cfg, s, t, c, n, sp);
  }

  lemma FetchKeeps(cfg: Config, s: State, t: nat, c: nat, n: nat, out: Chain, dry: bool)
    requires Inv(cfg, s) && t < |s.pcs| && s.pcs[t] == Fetch(c, n, out, dry) && c < cfg.classes && n > 0
    requires t < |s.lists| && c < |s.lists[t]| && c < |s.locks| && c < |s.central|
    ensures Inv(cfg, FetchStep(s, t, c, n, out, dry))
  {
    hide Inv, CapOf;
    if |out| < n && s.central[c].nonempty != [] {
      TakeKeeps(cfg, s, t, c, n, out, dry);
    } else if out == [] && !dry {
      assert Shaped(cfg, s) && PcShaped(cfg, s.pcs[t]) by { Parts(cfg, s); PositionHere(cfg, s, t); }
      LockLeft(s.pcs, s.locks, t, PopNew(c, n), c) by { Parts(cfg, s); }
      PcChange(cfg, s, FetchStep(s, t, c, n, out, dry), t, PopNew(c, n));
    } else {
      HandDelivered(cfg, s, t, c, n, out, dry);
    }
  }

  // ---------- runs ----------

  /** Before any thread has called: TCMalloc_Central_FreeList::Init gives every class one slot. */
  ghost predicate Initial(cfg: Config, s: State) {
    && cfg.Valid() && |s.locks| == |s.central| == cfg.classes && |s.lists| == |s.pcs|
    && (forall t :: 0 <= t < |s.pcs| ==> s.pcs[t] == Idle)
    && (forall t :: 0 <= t < |s.lists| ==> s.lists[t] == seq(cfg.classes, i => []))
    && (forall l :: 0 <= l < |s.locks| ==> s.locks[l] == None)
    && (forall c :: 0 <= c < |s.central| ==> s.central[c] == Central(0, 1, seq(cfg.classes, i => []), 0, []))
    && s.spans == map[] && s.taken == map[] && s.place == map[] && !s.fault
  }

  /** There is such a state for any size classes and any number of threads. */
  lemma InitialExists(cfg: Config, threads: nat)
    requires cfg.Valid()
    ensures exists s :: Initial(cfg, s) && |s.pcs| == threads
  {
    hide CapOf;
    var lists := seq(cfg.classes, i => []);
    var s := State(seq(threads, t => Idle), seq(threads, t => lists), seq(cfg.classes, l => None),
                   seq(cfg.classes, c => Central(0, 1, lists, 0, [])), map[], map[], map[], false);
    assert Initial(cfg, s) && |s.pcs| == threads;
  }

  ghost predicate Next(cfg: Config, s: State, s': State) {
    exists t, a :: Shaped(cfg, s) && Enabled(cfg, s, t, a) && s' == After(cfg, s, t, a)
  }

  /** The states of a run, in order. */
  ghost predicate Run(cfg: Config, states: seq<State>) {
    && states != [] && Initial(cfg, states[0])
    && forall i :: 0 <= i < |states| - 1 ==> Next(cfg, states[i], states[i + 1])
  }

  lemma {:induction false} FreshTokens(pcs: seq<Pc>)
    requires forall t :: 0 <= t < |pcs| ==> pcs[t] == Idle
    ensures Tokens(pcs) == 0
  {
    if pcs != [] { FreshTokens(pcs[1..]); }
  }

  lemma {:induction false} FreshCaches(central: seq<Central>)
    requires forall c :: 0 <= c < |central| ==> central[c].cache == 1
    ensures Caches(central) == |central|
  {
    if central != [] { FreshCaches(central[1..]); }
  }

  lemma {:induction false} FreshBelow(c: nat, n: nat)
    ensures FreeBelow(map[], c, n) == 0
  {
    if n > 0 { FreshBelow(c, n - 1); }
  }

  lemma InitialHolds(cfg: Config, s: State)
    requires Initial(cfg, s)
    ensures Inv(cfg, s)
  {
    hide CapOf;
    FreshTokens(s.pcs);
    FreshCaches(s.central);
    forall c | 0 <= c < |s.central| ensures FreeBelow(s.spans, c, cfg.top) == 0 { FreshBelow(c, cfg.top); }
    forall p ensures s.Contents(p) == [] && Listed(s, p) {}
    forall o ensures Found(s, o) {}
  }

  /** Every state of every run satisfies the invariant. */
  lemma {:induction false} RunsAreSafe(cfg: Config, states: seq<State>, i: nat)
    requires Run(cfg, states) && i < |states|
    ensures Inv(cfg, states[i])
  {
    if i == 0 {
      InitialHolds(cfg, states[0]);
    } else {
      RunsAreSafe(cfg, states, i - 1);
      hide Inv, After;
      var s := states[i - 1];
      assert Next(cfg, s, states[i - 1 + 1]);
      var t, a :| Shaped(cfg, s) && Enabled(cfg, s, t, a) && states[i] == After(cfg, s, t, a);
      StepKeeps(cfg, s, t, a);
    }
  }
}
