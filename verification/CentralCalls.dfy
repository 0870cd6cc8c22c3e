/** What one call of RemoveRange or InsertRange does, whatever other threads do in between. */
module CentralCalls {
  import opened Basics
  import opened CentralState
  import opened CentralSteps
  import opened CentralSafety
  import opened CentralRuns
  import opened CentralTheorems
  import opened CentralEffects

  // ---------- a batch on its way ----------

  /** The class and the objects of an InsertRange that has neither stored them nor begun to release them. */
  function Carried(pc: Pc): Option<(nat, Chain)> {
    match pc
    case InsTest(c, xs) => Some((c, xs))
    case Evict(c, xs, _) => Some((c, xs))
    case ShrinkWait(c, xs, _, _) => Some((c, xs))
    case Shrink(c, xs, _, _) => Some((c, xs))
    case BackWait(c, xs, _, _) => Some((c, xs))
    case Back(c, xs, _, _) => Some((c, xs))
    case Release(_, _, k) => if k.Resume? then Some((k.c, k.ch)) else None
    case Gone(_, _, k, _) => if k.Resume? then Some((k.c, k.ch)) else None
    case Relock(_, _, k) => if k.Resume? then Some((k.c, k.ch)) else None
    case _ => None
  }

  /** The objects are too few, the class has every slot there is, or a forced eviction has failed. */
  ghost predicate NoRoom(cfg: Config, s: State, pc: Pc) {
    match pc
    case InsTest(c, xs) =>
      && c < |cfg.move| && c < |s.central|
      && (|xs| != cfg.move[c] || s.central[c].used >= s.central[c].cache == cfg.classes)
    case Evict(_, _, force) => force
    case Back(_, _, force, got) => force && !got
    case _ => false
  }

  /** The batch is still whole, has gone into one slot of its class, or is all to go to the spans for want of room. */
  ghost predicate StaysWhole(cfg: Config, s: State, s': State, t: nat)
    requires t < |s.pcs| && Carried(s.pcs[t]).Some?
  {
    var (c, xs) := Carried(s.pcs[t]).value;
    && t < |s'.pcs|
    && (|| Carried(s'.pcs[t]) == Some((c, xs))
        || (exists room :: Stored(s, s', t, c, xs, room))
        || (s'.pcs[t] == Release(c, xs, Leave) && NoRoom(cfg, s, s.pcs[t])))
  }

  /**
   What InsertRange was given stays whole through all evictions, whatever other threads do:
   it goes into one slot of its class, or all of it to the spans, and that only if there is
   no room for it.
   */
  lemma BatchStaysWhole(cfg: Config, s: State, t: nat, u: nat, a: Action)
    requires Inv(cfg, s) && Enabled(cfg, s, u, a) && t < |s.pcs| && Carried(s.pcs[t]).Some?
    ensures var s' := After(cfg, s, u, a);
            StaysWhole(cfg, s, s', t) && (u != t ==> Carried(s'.pcs[t]) == Carried(s.pcs[t]))
  {
    hide Inv, After, CapOf, Stored;
    assert Shaped(cfg, s) by { Parts(cfg, s); }
    hide Shaped;
    if u != t {
      OthersWaitHere(cfg, s, t, u, a);
    } else if a.Acquire? {
      Acquired(cfg, s, t);
    } else {
      hide StaysWhole;
      OwnBatch(cfg, s, t, a.choice);
    }
  }

  lemma OwnBatch(cfg: Config, s: State, t: nat, ch: Choice)
    requires Inv(cfg, s) && Enabled(cfg, s, t, Work(ch)) && Carried(s.pcs[t]).Some?
    ensures StaysWhole(cfg, s, After(cfg, s, t, Work(ch)), t)
  {
    hide Inv, After, CapOf, Stored;
    assert Shaped(cfg, s) by { Parts(cfg, s); }
    hide Shaped;
    match s.pcs[t]
    case InsTest(_, _) => TestCarries(cfg, s, t, ch);
    case Evict(_, _, _) => Evicted(cfg, s, t, ch);
    case Shrink(_, _, _, _) => ShrinkCarries(cfg, s, t, ch);
    case Back(_, _, _, _) => BackCarries(cfg, s, t, ch);
    case Release(_, _, _) => ReleaseCarries(cfg, s, t, ch);
    case Gone(_, _, _, _) => Unlocked(cfg, s, t, ch);
  }

  lemma TestCarries(cfg: Config, s: State, t: nat, ch: Choice)
    requires Inv(cfg, s) && Enabled(cfg, s, t, Work(ch)) && s.pcs[t].InsTest?
    ensures StaysWhole(cfg, s, After(cfg, s, t, Work(ch)), t)
  {
    hide Inv, After, CapOf;
    assert Shaped(cfg, s) && PcShaped(cfg, s.pcs[t]) by { Parts(cfg, s); PositionHere(cfg, s, t); }
    Lengths(cfg, s);
    hide Shaped;
    var c := s.pcs[t].c;
    if |s.pcs[t].ch| == cfg.move[c] && s.central[c].used < s.central[c].cache { BatchStored(cfg, s, t, ch); }
    else { NotStored(cfg, s, t, ch); }
  }

  lemma BackCarries(cfg: Config, s: State, t: nat, ch: Choice)
    requires Inv(cfg, s) && Enabled(cfg, s, t, Work(ch)) && s.pcs[t].Back?
    ensures StaysWhole(cfg, s, After(cfg, s, t, Work(ch)), t)
  {
    hide Inv, After, CapOf;
    assert Shaped(cfg, s) && PcShaped(cfg, s.pcs[t]) by { Parts(cfg, s); PositionHere(cfg, s, t); }
    Lengths(cfg, s);
    hide Shaped;
    BackWithSlot(cfg, s, t, ch);
  }

  lemma ShrinkCarries(cfg: Config, s: State, t: nat, ch: Choice)
    requires Inv(cfg, s) && Enabled(cfg, s, t, Work(ch)) && s.pcs[t].Shrink?
    ensures t < |After(cfg, s, t, Work(ch)).pcs| && Carried(After(cfg, s, t, Work(ch)).pcs[t]) == Carried(s.pcs[t])
    ensures !After(cfg, s, t, Work(ch)).pcs[t].Fetch? && !After(cfg, s, t, Work(ch)).pcs[t].PopNew?
  {
    hide Inv, After, CapOf;
    assert Shaped(cfg, s) by { Parts(cfg, s); }
    hide Shaped;
    Shrunk(cfg, s, t, ch);
  }

  lemma ReleaseCarries(cfg: Config, s: State, t: nat, ch: Choice)
    requires Inv(cfg, s) && Enabled(cfg, s, t, Work(ch)) && s.pcs[t].Release?
    ensures t < |After(cfg, s, t, Work(ch)).pcs| && Carried(After(cfg, s, t, Work(ch)).pcs[t]) == Carried(s.pcs[t])
    ensures !After(cfg, s, t, Work(ch)).pcs[t].Fetch? && !After(cfg, s, t, Work(ch)).pcs[t].PopNew?
  {
    hide Inv, After, CapOf;
    assert Shaped(cfg, s) by { Parts(cfg, s); }
    hide Shaped;
    SameThreads(cfg, s, t, Work(ch));
    if s.pcs[t].rest == [] {
      AllReturned(cfg, s, t, ch);
    } else {
      ReleasedHere(cfg, s, t);
      if s.spans[s.pcs[t].rest[0].span].refcount == 1 { LastReturned(cfg, s, t, ch); }
      else { ObjectReturned(cfg, s, t, ch); }
    }
  }

  /** The batch stored last is the one that the next RemoveRange of as many objects comes back with. */
  lemma StoredIsNext(cfg: Config, s: State, t: nat, ch: Choice, u: nat)
    requires Inv(cfg, s) && Enabled(cfg, s, t, Work(ch)) && s.pcs[t].InsTest? && s.pcs[t].c < |cfg.move|
    requires |s.pcs[t].ch| == cfg.move[s.pcs[t].c] && s.pcs[t].c < |s.central|
    requires s.central[s.pcs[t].c].used < s.central[s.pcs[t].c].cache
    requires u < |s.pcs| && u != t && s.pcs[u] == RemWait(s.pcs[t].c, cfg.move[s.pcs[t].c])
    ensures var s1 := After(cfg, s, t, Work(ch));
            && Shaped(cfg, s1) && Enabled(cfg, s1, u, Acquire) && u < |After(cfg, s1, u, Acquire).pcs|
            && Coming(cfg, After(cfg, s1, u, Acquire), u) == Some(s.pcs[t].ch)
  {
    hide Inv, After, CapOf, Supply;
    assert Shaped(cfg, s) by { Parts(cfg, s); }
    Lengths(cfg, s);
    BatchStored(cfg, s, t, ch);
    StepKeeps(cfg, s, t, Work(ch));
    hide Enabled, Shaped;
    var s1 := After(cfg, s, t, Work(ch));
    MayAcquire(cfg, s1, u);
    Acquired(cfg, s1, u);
  }

  lemma MayAcquire(cfg: Config, s: State, u: nat)
    requires Inv(cfg, s) && u < |s.pcs| && s.pcs[u].RemWait? && s.pcs[u].c < |s.locks| && s.locks[s.pcs[u].c].None?
    ensures Shaped(cfg, s) && Enabled(cfg, s, u, Acquire)
  {
    hide Inv;
    Parts(cfg, s);
  }

  // ---------- what RemoveRange comes back with ----------

  ghost function Backwards(xs: Chain): Chain {
    if xs == [] then [] else Backwards(xs[1..]) + [xs[0]]
  }

  /** The first of the objects xs, as many as there are, on top of those in hand: n in all at most. */
  ghost function Filled(xs: Chain, n: nat, out: Chain): Chain {
    Backwards(xs[..if |out| >= n then 0 else if n - |out| < |xs| then n - |out| else |xs|]) + out
  }

  /**
   What RemoveRange, which thread t is in, will come back with, if that is settled: the last
   batch of the transfer cache if it serves the call, else free objects of spans. It is not
   settled where there are neither.
   */
  ghost function Coming(cfg: Config, s: State, t: nat): Option<Chain>
    requires t < |s.pcs|
  {
    match s.pcs[t]
    case RemTest(c, n) =>
      if HasBatch(cfg, s, c, n) then Some(s.central[c].slots[s.central[c].used - 1])
      else if FreeOf(s, c) == [] then None
      else Some(Filled(FreeOf(s, c), n, []))
    case Fetch(c, n, out, dry) =>
      if out == [] && !dry && FreeOf(s, c) == [] then None else Some(Filled(FreeOf(s, c), n, out))
    case PopLink(c, n, sp) =>
      if c < |cfg.cap| then Some(Filled(Objects(sp, cfg.cap[c]) + FreeOf(s, c), n, [])) else None
    case _ => None
  }


  lemma FilledNext(xs: Chain, n: nat, out: Chain)
    requires |out| < n && xs != []
    ensures Filled(xs[1..], n, [xs[0]] + out) == Filled(xs, n, out)
  {
    var k := if n - |out| < |xs| then n - |out| else |xs|;
    assert xs[..k][1..] == xs[1..][..k - 1];
    assert Backwards(xs[..k]) == Backwards(xs[1..][..k - 1]) + [xs[0]];
    Associate(Backwards(xs[1..][..k - 1]), [xs[0]], out);
  }

  lemma FilledAll(xs: Chain, n: nat, out: Chain)
    requires |out| >= n || xs == []
    ensures Filled(xs, n, out) == out
  {
    assert [] + out == out;
  }

  /** t ends its call with xs in front of its list. */
  ghost predicate ReturnsWith(s: State, s': State, t: nat, xs: Chain)
    requires t < |s.pcs|
  {
    && t < |s'.pcs| && s'.pcs[t].Idle? && !s.pcs[t].Idle? && t < |s.lists| && t < |s'.lists|
    && exists c: nat :: ClassIs(s.pcs[t], c) && c < |s.lists[t]|
                   && s'.lists[t] == s.lists[t][c := xs + s.lists[t][c]]
  }

  predicate ClassIs(pc: Pc, c: nat) {
    (pc.RemTest? || pc.Fetch? || pc.PopLink?) && pc.c == c
  }

  /** t goes on with the same call, and will come back with xs. */
  ghost predicate GoesOnTo(cfg: Config, s: State, s': State, t: nat, xs: Chain)
    requires t < |s.pcs|
  {
    && t < |s'.pcs| && Coming(cfg, s', t) == Some(xs) && SameLists(t, s, s')
    && (s.pcs[t].RemTest? || s.pcs[t].Fetch? || s.pcs[t].PopLink?)
    && ClassIs(s'.pcs[t], s.pcs[t].c) && s'.pcs[t].n == s.pcs[t].n
  }

  /**
   Once it is settled what a call of RemoveRange comes back with, no step of any thread
   changes it: the call goes on towards it, or ends with exactly that.
   */
  lemma SettledStays(cfg: Config, s: State, t: nat, u: nat, a: Action)
    requires Inv(cfg, s) && Enabled(cfg, s, u, a) && t < |s.pcs| && Coming(cfg, s, t).Some?
    ensures var xs, s' := Coming(cfg, s, t).value, After(cfg, s, u, a);
            GoesOnTo(cfg, s, s', t, xs) || (u == t && ReturnsWith(s, s', t, xs))
  {
    hide Inv, CapOf, FreeOf, Filled, After, HasBatch;
    assert Shaped(cfg, s) by { Parts(cfg, s); }
    hide Shaped;
    if u == t {
      assert a.Work?;
      OwnStep(cfg, s, t, a.choice);
    } else {
      OthersStep(cfg, s, t, u, a);
    }
  }

  lemma OthersStep(cfg: Config, s: State, t: nat, u: nat, a: Action)
    requires Inv(cfg, s) && Enabled(cfg, s, u, a) && t < |s.pcs| && u != t && Coming(cfg, s, t).Some?
    ensures GoesOnTo(cfg, s, After(cfg, s, u, a), t, Coming(cfg, s, t).value)
  {
    hide Inv, After, Filled, CapOf;
    assert Shaped(cfg, s) && PcShaped(cfg, s.pcs[t]) by { Parts(cfg, s); PositionHere(cfg, s, t); }
    Lengths(cfg, s);
    hide Shaped, PcShaped;
    var s' := After(cfg, s, u, a);
    OthersWaitHere(cfg, s, t, u, a);
    ListsStay(cfg, s, t, u, a);
    OthersLeaveClass(cfg, s, t, u, a, s.pcs[t].c);
    FreeStill(cfg, s, s', s.pcs[t].c);
  }

  lemma OthersWaitHere(cfg: Config, s: State, t: nat, u: nat, a: Action)
    requires Inv(cfg, s) && Enabled(cfg, s, u, a) && t < |s.pcs| && u != t
    ensures var s' := After(cfg, s, u, a); t < |s'.pcs| && s'.pcs[t] == s.pcs[t]
  {
    hide Inv, Shaped, WorkStep;
    Parts(cfg, s);
    Lengths(cfg, s);
    if a.Work? { WorkOthersWait(cfg, s, u, a.choice); }
  }

  lemma WorkOthersWait(cfg: Config, s: State, u: nat, ch: Choice)
    requires Shaped(cfg, s) && Enabled(cfg, s, u, Work(ch))
    ensures OthersWait(s, WorkStep(cfg, s, u, ch), u)
  {
    hide CapOf, InsTestStep, EvictStep, ShrinkStep, BackStep, ReleasedStep, ReleaseStep, GoneStep;
    hide RemTestStep, FetchStep, PopNewStep, PopLinkStep, OthersWait;
  }

  lemma OwnStep(cfg: Config, s: State, t: nat, ch: Choice)
    requires Inv(cfg, s) && Enabled(cfg, s, t, Work(ch)) && Coming(cfg, s, t).Some?
    ensures var xs, s' := Coming(cfg, s, t).value, After(cfg, s, t, Work(ch));
            GoesOnTo(cfg, s, s', t, xs) || ReturnsWith(s, s', t, xs)
  {
    hide Inv, After, Filled, Supply, CapOf;
    assert Shaped(cfg, s) by { Parts(cfg, s); }
    Lengths(cfg, s);
    hide Shaped;
    var pc := s.pcs[t];
    assert ClassIs(pc, pc.c);
    if pc.RemTest? && HasBatch(cfg, s, pc.c, pc.n) {
      BatchReturned(cfg, s, t, ch);
    } else if pc.RemTest? {
      NoBatch(cfg, s, t, ch);
    } else if pc.PopLink? {
      SpanJoins(cfg, s, t, ch);
    } else if |pc.out| < pc.n && FreeOf(s, pc.c) != [] {
      FirstFetched(cfg, s, t, ch);
      FilledNext(FreeOf(s, pc.c), pc.n, pc.out);
    } else {
      FetchOver(cfg, s, t, ch);
      FilledAll(FreeOf(s, pc.c), pc.n, pc.out);
    }
  }

  /** The states from i to j of a run: thread t is inside a call in all of them but the last. */
  ghost predicate Call(cfg: Config, states: seq<State>, t: nat, i: nat, j: nat) {
    && Run(cfg, states) && i < j < |states|
    && (forall k :: i <= k <= j ==> t < |states[k].pcs|)
    && (forall k :: i <= k < j ==> !states[k].pcs[t].Idle?)
    && states[j].pcs[t].Idle?
  }

  /**
   So in every run a call of RemoveRange that is settled in state i ends with that, whatever
   the other threads do until it ends.
   */
  lemma {:induction false} RemoveRangeReturns(cfg: Config, states: seq<State>, t: nat, i: nat, j: nat)
    requires Call(cfg, states, t, i, j) && Coming(cfg, states[i], t).Some?
    ensures ReturnsWith(states[i], states[j], t, Coming(cfg, states[i], t).value)
    decreases j - i
  {
    hide Coming, ReturnsWith, Run, Inv, After, Shaped;
    var u, a := StepOf(cfg, states, i);
    SettledStays(cfg, states[i], t, u, a);
    if i + 1 < j {
      StillInside(states[i], states[i + 1], t, Coming(cfg, states[i], t).value);
      RemoveRangeReturns(cfg, states, t, i + 1, j);
      ReturnsLater(cfg, states[i], states[i + 1], states[j], t, Coming(cfg, states[i], t).value);
    } else {
      EndedHere(cfg, states[i], states[j], t, Coming(cfg, states[i], t).value);
    }
  }

  lemma StepOf(cfg: Config, states: seq<State>, i: nat) returns (u: nat, a: Action)
    requires Run(cfg, states) && i + 1 < |states|
    ensures Inv(cfg, states[i]) && Shaped(cfg, states[i]) && Enabled(cfg, states[i], u, a)
    ensures states[i + 1] == After(cfg, states[i], u, a)
  {
    hide Inv, After, Enabled;
    RunsAreSafe(cfg, states, i);
    assert Next(cfg, states[i], states[i + 1]);
    u, a :| Shaped(cfg, states[i]) && Enabled(cfg, states[i], u, a) && states[i + 1] == After(cfg, states[i], u, a);
  }

  lemma StillInside(s: State, s': State, t: nat, xs: Chain)
    requires t < |s.pcs| && t < |s'.pcs| && !s'.pcs[t].Idle?
    ensures !ReturnsWith(s, s', t, xs)
  {
  }

  lemma EndedHere(cfg: Config, s: State, s': State, t: nat, xs: Chain)
    requires t < |s.pcs| && t < |s'.pcs| && s'.pcs[t].Idle?
    ensures !GoesOnTo(cfg, s, s', t, xs)
  {
  }

  lemma ReturnsLater(cfg: Config, s: State, s1: State, s2: State, t: nat, xs: Chain)
    requires t < |s.pcs| && GoesOnTo(cfg, s, s1, t, xs) && ReturnsWith(s1, s2, t, xs)
    ensures ReturnsWith(s, s2, t, xs)
  {
  }

  /** A call that ends with fewer than n objects leaves no free object in the spans of its class. */
  lemma ShortOnlyIfNone(cfg: Config, s: State, t: nat, ch: Choice)
    requires Inv(cfg, s) && Enabled(cfg, s, t, Work(ch)) && (s.pcs[t].RemTest? || s.pcs[t].Fetch?)
    requires After(cfg, s, t, Work(ch)).pcs[t].Idle?
    ensures var c, n, s' := s.pcs[t].c, s.pcs[t].n, After(cfg, s, t, Work(ch));
            && t < |s.lists| && t < |s'.lists| && c < |s.lists[t]| && c < |s'.lists[t]|
            && (|| |s'.lists[t][c]| == |s.lists[t][c]| + n
                || (|s'.lists[t][c]| < |s.lists[t][c]| + n && FreeOf(s', c) == []))
  {
    hide Inv, After, Supply, CapOf;
    assert Shaped(cfg, s) && PcShaped(cfg, s.pcs[t]) by { Parts(cfg, s); PositionHere(cfg, s, t); }
    Lengths(cfg, s);
    hide Shaped;
    var pc := s.pcs[t];
    if pc.RemTest? && HasBatch(cfg, s, pc.c, pc.n) {
      BatchReturned(cfg, s, t, ch);
      CapacityHere(cfg, s, t, pc.c);
      SlotLength(cfg, s, pc.c, s.central[pc.c].used - 1);
    } else if pc.RemTest? {
      NoBatch(cfg, s, t, ch);
    } else if |pc.out| < pc.n && FreeOf(s, pc.c) != [] {
      FirstFetched(cfg, s, t, ch);
    } else {
      FetchOver(cfg, s, t, ch);
    }
  }

  /** A call that has turned to the spans, and holds the lock since, had no batch to take. */
  ghost predicate CacheFirst(cfg: Config, s: State) {
    forall t :: 0 <= t < |s.pcs| ==> CacheFirstIn(cfg, s, s.pcs[t])
  }

  ghost predicate CacheFirstIn(cfg: Config, s: State, pc: Pc) {
    pc.Fetch? && !pc.dry ==> !HasBatch(cfg, s, pc.c, pc.n)
  }

  lemma CacheFirstKept(cfg: Config, s: State, u: nat, a: Action)
    requires Inv(cfg, s) && CacheFirst(cfg, s) && Enabled(cfg, s, u, a)
    ensures CacheFirst(cfg, After(cfg, s, u, a))
  {
    hide Inv, After, Enabled, CapOf, HasBatch;
    assert Shaped(cfg, s) by { Parts(cfg, s); }
    Lengths(cfg, s);
    hide Shaped;
    var s' := After(cfg, s, u, a);
    SameThreads(cfg, s, u, a);
    forall t | 0 <= t < |s'.pcs| ensures CacheFirstIn(cfg, s', s'.pcs[t]) {
      assert CacheFirstIn(cfg, s, s.pcs[t]);
      if t != u {
        OthersWaitHere(cfg, s, t, u, a);
        if s.pcs[t].Fetch? { OthersKeepBatch(cfg, s, t, u, a); }
      } else if a.Work? {
        OwnCacheFirst(cfg, s, t, a.choice);
      } else {
        NotFetching(cfg, s, t, a);
      }
    }
  }

  lemma SameThreads(cfg: Config, s: State, u: nat, a: Action)
    requires Inv(cfg, s) && Enabled(cfg, s, u, a)
    ensures |After(cfg, s, u, a).pcs| == |s.pcs|
  {
    hide Inv, Shaped, WorkStep;
    Parts(cfg, s);
    Lengths(cfg, s);
    if a.Work? { WorkOthersWait(cfg, s, u, a.choice); }
  }

  lemma OthersKeepBatch(cfg: Config, s: State, t: nat, u: nat, a: Action)
    requires Inv(cfg, s) && Enabled(cfg, s, u, a) && t < |s.pcs| && u != t && s.pcs[t].Fetch?
    ensures var c, n := s.pcs[t].c, s.pcs[t].n; HasBatch(cfg, After(cfg, s, u, a), c, n) <==> HasBatch(cfg, s, c, n)
  {
    hide Inv, After, CapOf;
    assert Shaped(cfg, s) && PcShaped(cfg, s.pcs[t]) by { Parts(cfg, s); PositionHere(cfg, s, t); }
    Lengths(cfg, s);
    hide Shaped;
    OthersLeaveClass(cfg, s, t, u, a, s.pcs[t].c);
  }

  /** Only work leads to a position that fetches, but for the lock that is taken again after a failure of New. */
  lemma NotFetching(cfg: Config, s: State, t: nat, a: Action)
    requires Inv(cfg, s) && Enabled(cfg, s, t, a) && !a.Work?
    ensures t < |After(cfg, s, t, a).pcs|
    ensures var pc := After(cfg, s, t, a).pcs[t]; !pc.PopNew? && (pc.Fetch? ==> pc.dry)
  {
    hide Inv, After;
    assert Shaped(cfg, s) by { Parts(cfg, s); }
    Lengths(cfg, s);
    hide Shaped;
    if a.Acquire? {
      Acquired(cfg, s, t);
    } else {
      IdleSteps(cfg, s, t, a);
      hide Enabled;
    }
  }

  lemma OwnCacheFirst(cfg: Config, s: State, t: nat, ch: Choice)
    requires Inv(cfg, s) && Enabled(cfg, s, t, Work(ch)) && CacheFirstIn(cfg, s, s.pcs[t])
    ensures t < |After(cfg, s, t, Work(ch)).pcs|
    ensures CacheFirstIn(cfg, After(cfg, s, t, Work(ch)), After(cfg, s, t, Work(ch)).pcs[t])
  {
    hide Inv, After, Supply, CapOf;
    assert Shaped(cfg, s) && PcShaped(cfg, s.pcs[t]) by { Parts(cfg, s); PositionHere(cfg, s, t); }
    Lengths(cfg, s);
    hide Shaped;
    var pc := s.pcs[t];
    SameThreads(cfg, s, t, Work(ch));
    if pc.RemTest? && HasBatch(cfg, s, pc.c, pc.n) {
      BatchReturned(cfg, s, t, ch);
    } else if pc.RemTest? {
      NoBatch(cfg, s, t, ch);
    } else if pc.PopLink? {
      SpanJoins(cfg, s, t, ch);
    } else if pc.Fetch? && |pc.out| < pc.n && FreeOf(s, pc.c) != [] {
      FirstFetched(cfg, s, t, ch);
    } else if pc.Fetch? {
      FetchOver(cfg, s, t, ch);
    } else {
      OtherWork(cfg, s, t, ch);
    }
  }

  lemma OtherWork(cfg: Config, s: State, t: nat, ch: Choice)
    requires Inv(cfg, s) && Enabled(cfg, s, t, Work(ch))
    requires !s.pcs[t].RemTest? && !s.pcs[t].Fetch? && !s.pcs[t].PopLink?
    ensures t < |After(cfg, s, t, Work(ch)).pcs|
    ensures !After(cfg, s, t, Work(ch)).pcs[t].Fetch? && !After(cfg, s, t, Work(ch)).pcs[t].PopNew?
  {
    hide Inv, After, CapOf;
    assert Shaped(cfg, s) && PcShaped(cfg, s.pcs[t]) by { Parts(cfg, s); PositionHere(cfg, s, t); }
    Lengths(cfg, s);
    hide Shaped;
    SameThreads(cfg, s, t, Work(ch));
    match s.pcs[t]
    case InsTest(c, xs) =>
      if |xs| == cfg.move[c] && s.central[c].used < s.central[c].cache { BatchStored(cfg, s, t, ch); }
      else { NotStored(cfg, s, t, ch); }
    case Evict(_, _, _) => Evicted(cfg, s, t, ch);
    case Shrink(_, _, _, _) => ShrinkCarries(cfg, s, t, ch);
    case Back(_, _, _, _) => BackWithSlot(cfg, s, t, ch);
    case Release(_, _, _) => ReleaseCarries(cfg, s, t, ch);
    case _ => Unlocked(cfg, s, t, ch);
  }

  lemma {:induction false} CacheFirstInRuns(cfg: Config, states: seq<State>, i: nat)
    requires Run(cfg, states) && i < |states|
    ensures CacheFirst(cfg, states[i])
  {
    hide Inv, After, Shaped, CacheFirst, Initial;
    if i == 0 {
      CacheFirstAtStart(cfg, states[0]);
    } else {
      CacheFirstInRuns(cfg, states, i - 1);
      hide Run;
      var u, a := StepOf(cfg, states, i - 1);
      CacheFirstKept(cfg, states[i - 1], u, a);
    }
  }

  lemma CacheFirstAtStart(cfg: Config, s: State)
    requires Initial(cfg, s)
    ensures CacheFirst(cfg, s)
  {
    hide Config.Valid, HasBatch;
  }

  /**
   In every run a span is asked for only if nothing else is left: when a call gives up the
   lock for that, the spans of its class have no free object, and the transfer cache has no
   batch of as many objects as the call wants.
   */
  lemma SpanOnlyIfNone(cfg: Config, states: seq<State>, i: nat, t: nat)
    requires Run(cfg, states) && i + 1 < |states| && t < |states[i].pcs| && t < |states[i + 1].pcs|
    requires !states[i].pcs[t].PopNew? && states[i + 1].pcs[t].PopNew?
    ensures var c, n := states[i + 1].pcs[t].c, states[i + 1].pcs[t].n;
            && FreeOf(states[i], c) == [] && FreeOf(states[i + 1], c) == []
            && !HasBatch(cfg, states[i], c, n) && !HasBatch(cfg, states[i + 1], c, n)
  {
    CacheFirstInRuns(cfg, states, i);
    hide Inv, After, Shaped, Run, CapOf, Supply, HasBatch;
    var u, a := StepOf(cfg, states, i);
    var s := states[i];
    assert CacheFirstIn(cfg, s, s.pcs[t]);
    if u != t { OthersWaitHere(cfg, s, t, u, a); }
    if !a.Work? { NotFetching(cfg, s, t, a); }
    PopNewFrom(cfg, s, t, a.choice);
  }

  lemma PopNewFrom(cfg: Config, s: State, t: nat, ch: Choice)
    requires Inv(cfg, s) && Enabled(cfg, s, t, Work(ch)) && CacheFirstIn(cfg, s, s.pcs[t]) && !s.pcs[t].PopNew?
    requires After(cfg, s, t, Work(ch)).pcs[t].PopNew?
    ensures var s' := After(cfg, s, t, Work(ch));
            var c, n := s'.pcs[t].c, s'.pcs[t].n;
            FreeOf(s, c) == FreeOf(s', c) == [] && !HasBatch(cfg, s, c, n) && !HasBatch(cfg, s', c, n)
  {
    hide Inv, After, Supply, CapOf;
    assert Shaped(cfg, s) && PcShaped(cfg, s.pcs[t]) by { Parts(cfg, s); PositionHere(cfg, s, t); }
    Lengths(cfg, s);
    hide Shaped;
    var pc := s.pcs[t];
    SameThreads(cfg, s, t, Work(ch));
    if pc.RemTest? && HasBatch(cfg, s, pc.c, pc.n) {
      BatchReturned(cfg, s, t, ch);
    } else if pc.RemTest? {
      NoBatch(cfg, s, t, ch);
    } else if pc.PopLink? {
      SpanJoins(cfg, s, t, ch);
    } else if pc.Fetch? && |pc.out| < pc.n && FreeOf(s, pc.c) != [] {
      FirstFetched(cfg, s, t, ch);
    } else if pc.Fetch? {
      FetchOver(cfg, s, t, ch);
    } else {
      OtherWork(cfg, s, t, ch);
    }
  }
}
