/** What each step of the central free lists does to the class it works for, and to no other. */
module CentralEffects {
  import opened Basics
  import opened CentralState
  import opened CentralSteps
  import opened CentralSafety
  import opened CentralTransfer
  import opened CentralSpans

  /** The free objects of the spans listed, in the order in which FetchFromSpans takes them. */
  ghost function Supply(spans: map<nat, SpanRec>, nonempty: seq<nat>): Chain {
    if nonempty == [] then []
    else (if nonempty[0] in spans then spans[nonempty[0]].chain else []) + Supply(spans, nonempty[1..])
  }

  /** Those of class c. */
  ghost function FreeOf(s: State, c: nat): Chain {
    if c < |s.central| then Supply(s.spans, s.central[c].nonempty) else []
  }

  /** The transfer cache of class c has a batch of n objects. */
  ghost predicate HasBatch(cfg: Config, s: State, c: nat, n: nat) {
    c < |s.central| && c < |cfg.move| && n == cfg.move[c] && 0 < s.central[c].used <= |s.central[c].slots|
  }

  // ---------- the lock of a class ----------

  /** What is known of class c stays: its central list, and its spans. */
  ghost predicate ClassStill(s: State, s': State, c: nat) {
    && c < |s.central| == |s'.central| && s'.central[c] == s.central[c]
    && forall sp :: sp in s.spans && s.spans[sp].cl == c ==> sp in s'.spans && s'.spans[sp] == s.spans[sp]
  }

  /** Two threads that hold locks hold different ones. */
  lemma LocksDiffer(pcs: seq<Pc>, locks: seq<Option<nat>>, t: nat, u: nat, c: nat)
    requires LocksKept(pcs, locks) && t < |pcs| && u < |pcs| && t != u && Holds(pcs[t]) == Some(c)
    ensures Holds(pcs[u]) != Some(c)
  {
  }

  /** What is released to class l is of spans of that class. */
  lemma ReleasedClass(cfg: Config, s: State, u: nat)
    requires Inv(cfg, s) && u < |s.pcs| && s.pcs[u].Release? && s.pcs[u].rest != []
    ensures var x := s.pcs[u].rest[0]; x.span in s.spans && s.spans[x.span].cl == s.pcs[u].l
  {
    PositionHere(cfg, s, u);
    assert s.pcs[u].rest[0] in s.pcs[u].rest;
  }

  lemma FetchedClass(cfg: Config, s: State, c: nat)
    requires Inv(cfg, s) && c < |s.central| && s.central[c].nonempty != []
    ensures var sp := s.central[c].nonempty[0]; sp in s.spans && s.spans[sp].cl == c && s.spans[sp].chain != []
  {
    assert ListKept(s.spans, s.central[c].nonempty, c);
    assert s.central[c].nonempty[0] in s.central[c].nonempty;
  }

  lemma LinkedSpan(cfg: Config, s: State, u: nat)
    requires Inv(cfg, s) && u < |s.pcs| && s.pcs[u].PopLink?
    ensures s.pcs[u].sp !in s.spans
  {
    hide Inv;
    Parts(cfg, s);
    assert PrivateOne(s.pcs[u], s.spans, s.taken);
  }

  /** While thread t holds the lock of class c, no other thread touches it. */
  lemma OthersLeaveClass(cfg: Config, s: State, t: nat, u: nat, a: Action, c: nat)
    requires Inv(cfg, s) && Enabled(cfg, s, u, a) && t < |s.pcs| && t != u
    requires Holds(s.pcs[t]) == Some(c) && c < |s.central|
    ensures ClassStill(s, After(cfg, s, u, a), c)
  {
    hide Inv, LocksKept, WorkStep, Shaped, ClassStill, MallocStep, FreeStep, FreeUncachedStep, InsertStep;
    hide NewPagesStep, DeletePagesStep;
    Parts(cfg, s);
    LocksDiffer(s.pcs, s.locks, t, u, c);
    hide Enabled;
    Lengths(cfg, s);
    if a.Work? { OthersWork(cfg, s, u, a.choice, c); } else { IdleLeaves(cfg, s, u, a, c); }
  }

  lemma IdleLeaves(cfg: Config, s: State, u: nat, a: Action, c: nat)
    requires Shaped(cfg, s) && Enabled(cfg, s, u, a) && !a.Work? && c < |s.central|
    ensures ClassStill(s, After(cfg, s, u, a), c)
  {
    hide PcShaped, CapOf;
  }

  lemma OthersWork(cfg: Config, s: State, u: nat, ch: Choice, c: nat)
    requires Inv(cfg, s) && Enabled(cfg, s, u, Work(ch)) && Holds(s.pcs[u]) != Some(c) && c < |s.central|
    ensures ClassStill(s, WorkStep(cfg, s, u, ch), c)
  {
    hide Inv, LocksKept, ClassStill, ReleaseStep, FetchStep, PopLinkStep, ShrinkStep, BackStep, RemTestStep;
    hide InsTestStep, EvictStep, ReleasedStep, GoneStep, PopNewStep;
    assert Shaped(cfg, s) && PcShaped(cfg, s.pcs[u]) by { Parts(cfg, s); PositionHere(cfg, s, u); }
    Lengths(cfg, s);
    hide Shaped, CapOf;
    match s.pcs[u]
    case InsTest(d, xs) => InsTestLeaves(cfg, s, u, d, xs, c);
    case Evict(d, xs, force) => EvictLeaves(s, u, d, xs, force, ch.victim, ch.skip, c);
    case Shrink(d, xs, force, v) => ShrinkLeaves(s, u, d, xs, force, v, c);
    case Back(d, xs, force, got) => BackLeaves(s, u, d, xs, force, got, c);
    case Release(l, rest, k) =>
      if rest != [] {
        ReleasedClass(cfg, s, u);
        ReleaseLeaves(cfg, s, u, l, rest, k, c);
      } else {
        ReleasedLeaves(s, u, l, k, c);
      }
    case Gone(l, rest, k, sp) => GoneLeaves(s, u, l, rest, k, sp, c);
    case RemTest(d, n) => RemTestLeaves(cfg, s, u, d, n, c);
    case Fetch(d, n, out, dry) =>
      if s.central[d].nonempty != [] { FetchedClass(cfg, s, d); }
      FetchLeaves(s, u, d, n, out, dry, c);
    case PopLink(d, n, sp) =>
      LinkedSpan(cfg, s, u);
      LinkLeaves(cfg, s, u, d, n, sp, c);
    case PopNew(d, n) => PopNewLeaves(s, u, d, n, ch.page, c);
  }

  lemma InsTestLeaves(cfg: Config, s: State, u: nat, d: nat, xs: Chain, c: nat)
    requires u < |s.pcs| && d < |s.central| && d < |s.locks| && d < |cfg.move| && c < |s.central| && c != d
    ensures ClassStill(s, InsTestStep(cfg, s, u, d, xs), c)
  {
  }

  lemma EvictLeaves(s: State, u: nat, d: nat, xs: Chain, force: bool, v: nat, skip: bool, c: nat)
    requires u < |s.pcs| && d < |s.locks| && c < |s.central|
    ensures ClassStill(s, EvictStep(s, u, d, xs, force, v, skip), c)
  {
  }

  lemma ReleasedLeaves(s: State, u: nat, l: nat, k: Cont, c: nat)
    requires u < |s.pcs| && l < |s.locks| && c < |s.central|
    ensures ClassStill(s, ReleasedStep(s, u, l, k), c)
  {
  }

  lemma GoneLeaves(s: State, u: nat, l: nat, rest: Chain, k: Cont, sp: nat, c: nat)
    requires u < |s.pcs| && c < |s.central|
    ensures ClassStill(s, GoneStep(s, u, l, rest, k, sp), c)
  {
  }

  lemma PopNewLeaves(s: State, u: nat, d: nat, n: nat, page: Option<nat>, c: nat)
    requires u < |s.pcs| && c < |s.central|
    ensures ClassStill(s, PopNewStep(s, u, d, n, page), c)
  {
  }

  lemma ShrinkLeaves(s: State, u: nat, d: nat, xs: Chain, force: bool, v: nat, c: nat)
    requires u < |s.pcs| && v < |s.central| && v < |s.locks| && c < |s.central| && c != v
    ensures ClassStill(s, ShrinkStep(s, u, d, xs, force, v), c)
  {
  }

  lemma BackLeaves(s: State, u: nat, d: nat, xs: Chain, force: bool, got: bool, c: nat)
    requires u < |s.pcs| && d < |s.central| && d < |s.locks| && c < |s.central| && c != d
    ensures ClassStill(s, BackStep(s, u, d, xs, force, got), c)
  {
  }

  lemma ReleaseLeaves(cfg: Config, s: State, u: nat, l: nat, rest: Chain, k: Cont, c: nat)
    requires u < |s.pcs| && l < |s.central| && l < |s.locks| && rest != [] && c < |s.central| && c != l
    requires rest[0].span in s.spans && s.spans[rest[0].span].cl == l
    ensures ClassStill(s, ReleaseStep(cfg, s, u, l, rest, k), c)
  {
  }

  lemma RemTestLeaves(cfg: Config, s: State, u: nat, d: nat, n: nat, c: nat)
    requires u < |s.pcs| && u < |s.lists| && d < |s.lists[u]| && d < |s.locks| && d < |s.central| && d < |cfg.move|
    requires c < |s.central| && c != d
    ensures ClassStill(s, RemTestStep(cfg, s, u, d, n), c)
  {
  }

  lemma FetchLeaves(s: State, u: nat, d: nat, n: nat, out: Chain, dry: bool, c: nat)
    requires u < |s.pcs| && u < |s.lists| && d < |s.lists[u]| && d < |s.locks| && d < |s.central|
    requires c < |s.central| && c != d
    requires s.central[d].nonempty != [] ==>
              s.central[d].nonempty[0] in s.spans && s.spans[s.central[d].nonempty[0]].cl == d
    ensures ClassStill(s, FetchStep(s, u, d, n, out, dry), c)
  {
  }

  lemma LinkLeaves(cfg: Config, s: State, u: nat, d: nat, n: nat, sp: nat, c: nat)
    requires u < |s.pcs| && d < |s.central| && d < |cfg.cap| && c < |s.central| && c != d && sp !in s.spans
    ensures ClassStill(s, PopLinkStep(cfg, s, u, d, n, sp), c)
  {
  }

  lemma {:induction false} SupplySame(spans: map<nat, SpanRec>, spans': map<nat, SpanRec>, nonempty: seq<nat>)
    requires forall sp :: sp in nonempty ==> sp in spans && sp in spans' && spans[sp].chain == spans'[sp].chain
    ensures Supply(spans', nonempty) == Supply(spans, nonempty)
  {
    if nonempty != [] {
      assert nonempty[0] in nonempty;
      SupplySame(spans, spans', nonempty[1..]);
    }
  }

  /** Then its free objects are as before, too. */
  lemma FreeStill(cfg: Config, s: State, s': State, c: nat)
    requires Inv(cfg, s) && ClassStill(s, s', c)
    ensures FreeOf(s', c) == FreeOf(s, c)
  {
    assert ListKept(s.spans, s.central[c].nonempty, c);
    SupplySame(s.spans, s'.spans, s.central[c].nonempty);
  }

  lemma SupplyNone(cfg: Config, s: State, c: nat)
    requires Inv(cfg, s) && c < |s.central|
    ensures FreeOf(s, c) == [] <==> s.central[c].nonempty == []
  {
    if s.central[c].nonempty != [] { FetchedClass(cfg, s, c); }
  }

  // ---------- the lists of a thread ----------

  ghost predicate SameLists(t: nat, s: State, s': State) {
    t < |s.lists| && t < |s'.lists| && s.lists[t] == s'.lists[t]
  }

  /** Only four kinds of step touch the lists of a thread, and only its own. */
  lemma ListsStay(cfg: Config, s: State, t: nat, u: nat, a: Action)
    requires Shaped(cfg, s) && Enabled(cfg, s, u, a) && t < |s.lists|
    requires u == t ==> !a.Malloc? && !a.Free? && !a.Insert? && (a.Work? ==> !s.pcs[u].RemTest? && !s.pcs[u].Fetch?)
    ensures SameLists(t, s, After(cfg, s, u, a))
  {
    hide CapOf, PcShaped, OthersWait, WorkStep;
    if a.Work? { WorkListsStay(cfg, s, t, u, a.choice); }
  }

  lemma WorkListsStay(cfg: Config, s: State, t: nat, u: nat, ch: Choice)
    requires Shaped(cfg, s) && Enabled(cfg, s, u, Work(ch)) && t < |s.lists|
    requires u == t ==> !s.pcs[u].RemTest? && !s.pcs[u].Fetch?
    ensures SameLists(t, s, WorkStep(cfg, s, u, ch))
  {
    hide CapOf, OthersWait, InsTestStep, EvictStep, ShrinkStep, BackStep, ReleasedStep, ReleaseStep, GoneStep;
    hide RemTestStep, FetchStep, PopNewStep, PopLinkStep;
  }

  // ---------- steps of an idle thread ----------

  /**
   What a thread does outside of calls, and how calls begin: a pop and a push on the front of
   a list of its own; objects from there, or one that is freed in a thread without a cache,
   on their way to InsertRange; and runs of pages that come and go.
   */
  lemma IdleSteps(cfg: Config, s: State, t: nat, a: Action)
    requires Inv(cfg, s) && Enabled(cfg, s, t, a) && !a.Work? && !a.Acquire?
    ensures var s' := After(cfg, s, t, a);
            && s'.central == s.central && s'.spans == s.spans && s'.locks == s.locks && t < |s.lists|
            && match a
               case Malloc(c) =>
                 && c < |s.lists[t]| && s'.pcs == s.pcs && s'.taken == s.taken
                 && s'.lists == s.lists[t := s.lists[t][c := s.lists[t][c][1..]]]
               case Free(x) =>
                 && x.span in s.spans && s.spans[x.span].cl < |s.lists[t]| && s'.pcs == s.pcs && s'.taken == s.taken
                 && s'.lists == s.lists[t := s.lists[t][s.spans[x.span].cl := [x] + s.lists[t][s.spans[x.span].cl]]]
               case FreeUncached(x) =>
                 && x.span in s.spans && s'.lists == s.lists && s'.taken == s.taken
                 && s'.pcs == s.pcs[t := InsWait(s.spans[x.span].cl, [x])]
               case Insert(c, n) =>
                 && c < |s.lists[t]| && n <= |s.lists[t][c]| && s'.taken == s.taken
                 && s'.lists == s.lists[t := s.lists[t][c := s.lists[t][c][n..]]]
                 && s'.pcs == s.pcs[t := InsWait(c, s.lists[t][c][..n])]
               case Remove(c, n) =>
                 s'.lists == s.lists && s'.taken == s.taken && s'.pcs == s.pcs[t := RemWait(c, n)]
               case NewPages(n, sp) =>
                 s'.lists == s.lists && s'.pcs == s.pcs && s'.taken == s.taken[sp := ForPages(n)]
               case DeletePages(sp) => s'.lists == s.lists && s'.pcs == s.pcs && s'.taken == s.taken - {sp}
  {
    hide Inv;
    Parts(cfg, s);
    Lengths(cfg, s);
    if a.Free? { Placed(cfg, s, a.x); }
    if a.FreeUncached? { Placed(cfg, s, a.x); }
    hide Shaped, CapOf;
  }

  lemma Placed(cfg: Config, s: State, x: Obj)
    requires Inv(cfg, s) && x in s.place
    ensures x.span in s.spans && s.spans[x.span].cl < cfg.classes
  {
    hide Inv;
    Parts(cfg, s);
  }

  // ---------- InsertRange ----------

  /** A full batch goes into the next slot if the class has room for it, and the call ends. */
  lemma BatchStored(cfg: Config, s: State, t: nat, ch: Choice)
    requires Inv(cfg, s) && Enabled(cfg, s, t, Work(ch)) && s.pcs[t].InsTest? && s.pcs[t].c < |cfg.move|
    requires |s.pcs[t].ch| == cfg.move[s.pcs[t].c] && s.pcs[t].c < |s.central|
    requires s.central[s.pcs[t].c].used < s.central[s.pcs[t].c].cache
    ensures var c, s' := s.pcs[t].c, After(cfg, s, t, Work(ch));
            Stored(s, s', t, c, s.pcs[t].ch, s.central[c].cache)
  {
    hide Inv;
    assert Shaped(cfg, s) && PcShaped(cfg, s.pcs[t]) by { Parts(cfg, s); PositionHere(cfg, s, t); }
    Lengths(cfg, s);
    CapacityHere(cfg, s, t, s.pcs[t].c);
    hide Shaped, PcShaped, CapOf;
  }

  /** Of all classes, c has one batch more, in the slot after those in use, and room for `cache`; t is done. */
  ghost predicate Stored(s: State, s': State, t: nat, c: nat, batch: Chain, cache: int) {
    && t < |s.pcs| && c < |s.locks| && c < |s.central| && 0 <= s.central[c].used < |s.central[c].slots|
    && s'.pcs == s.pcs[t := Idle] && s'.locks == s.locks[c := None] && s'.lists == s.lists
    && s'.spans == s.spans && s'.taken == s.taken
    && var f := s.central[c];
       s'.central == s.central[c := f.(used := f.used + 1, cache := cache, slots := f.slots[f.used := batch])]
  }

  /**
   Objects that are not a full batch go to the spans, as do all when the class has every
   slot there is; a full batch without room has another class evicted first.
   */
  lemma NotStored(cfg: Config, s: State, t: nat, ch: Choice)
    requires Inv(cfg, s) && Enabled(cfg, s, t, Work(ch)) && s.pcs[t].InsTest? && s.pcs[t].c < |cfg.move|
    requires s.pcs[t].c < |s.central|
    requires |s.pcs[t].ch| != cfg.move[s.pcs[t].c] || s.central[s.pcs[t].c].used >= s.central[s.pcs[t].c].cache
    ensures var c, xs := s.pcs[t].c, s.pcs[t].ch;
            After(cfg, s, t, Work(ch)) ==
            s.(pcs := s.pcs[t := if |xs| != cfg.move[c] || s.central[c].cache == cfg.classes then Release(c, xs, Leave)
                                 else Evict(c, xs, false)])
  {
    hide Inv;
    assert Shaped(cfg, s) && PcShaped(cfg, s.pcs[t]) by { Parts(cfg, s); PositionHere(cfg, s, t); }
    Lengths(cfg, s);
    hide Shaped, PcShaped, CapOf;
  }

  /** After a first failed eviction one is forced; after a failed forced one the batch goes to the spans. */
  function AfterFailure(c: nat, xs: Chain, force: bool): (pc: Pc)
    ensures !force ==> pc.Evict? && pc.force
    ensures force ==> pc.Release? && pc.l == c && pc.rest == xs && pc.k.Leave?
    ensures Hand(pc) == xs
  {
    assert xs + [] == xs;
    if force then Release(c, xs, Leave) else Evict(c, xs, true)
  }

  /** The lock is dropped for the victim's, unless that is the class itself, or seems to have nothing to give. */
  lemma Evicted(cfg: Config, s: State, t: nat, ch: Choice)
    requires Inv(cfg, s) && Enabled(cfg, s, t, Work(ch)) && s.pcs[t].Evict?
    ensures var c, xs, force := s.pcs[t].c, s.pcs[t].ch, s.pcs[t].force;
            && c < |s.locks|
            && After(cfg, s, t, Work(ch)) ==
               if ch.victim == c || ch.skip then s.(pcs := s.pcs[t := AfterFailure(c, xs, force)])
               else s.(pcs := s.pcs[t := ShrinkWait(c, xs, force, ch.victim)], locks := s.locks[c := None])
  {
    hide Inv;
    assert Shaped(cfg, s) && PcShaped(cfg, s.pcs[t]) by { Parts(cfg, s); PositionHere(cfg, s, t); }
    Lengths(cfg, s);
    hide Shaped, PcShaped, CapOf;
  }

  /**
   The victim gives a slot: one that is not in use, or, if it has none and the eviction is
   forced, its last one, whose batch then goes to the spans. Otherwise it gives none.
   */
  lemma Shrunk(cfg: Config, s: State, t: nat, ch: Choice)
    requires Inv(cfg, s) && Enabled(cfg, s, t, Work(ch)) && s.pcs[t].Shrink?
    ensures var c, xs, force, v := s.pcs[t].c, s.pcs[t].ch, s.pcs[t].force, s.pcs[t].victim;
            var s' := After(cfg, s, t, Work(ch));
            && v < |s.central| && v < |s.locks| && 0 <= s.central[v].used <= s.central[v].cache
            && s.central[v].used <= |s.central[v].slots|
            && s'.lists == s.lists && s'.spans == s.spans && s'.taken == s.taken
            && var f := s.central[v];
               if f.used < f.cache then
                 && s'.central == s.central[v := f.(cache := f.cache - 1)]
                 && s'.pcs == s.pcs[t := BackWait(c, xs, force, true)] && s'.locks == s.locks[v := None]
               else if f.cache > 0 && force then
                 && s'.central == s.central[v := f.(cache := f.cache - 1, used := f.used - 1)]
                 && s'.pcs == s.pcs[t := Release(v, f.slots[f.used - 1], Resume(c, xs))] && s'.locks == s.locks
               else
                 && s'.central == s.central
                 && s'.pcs == s.pcs[t := BackWait(c, xs, force, false)] && s'.locks == s.locks[v := None]
  {
    hide Inv;
    assert Shaped(cfg, s) && PcShaped(cfg, s.pcs[t]) by { Parts(cfg, s); PositionHere(cfg, s, t); }
    Lengths(cfg, s);
    CapacityHere(cfg, s, t, s.pcs[t].victim);
    hide Shaped, PcShaped, CapOf;
  }

  /** With the slot it was given the class stores the batch, whatever happened to it in between. */
  lemma BackWithSlot(cfg: Config, s: State, t: nat, ch: Choice)
    requires Inv(cfg, s) && Enabled(cfg, s, t, Work(ch)) && s.pcs[t].Back? && s.pcs[t].c < |s.central|
    ensures var c, xs, s' := s.pcs[t].c, s.pcs[t].ch, After(cfg, s, t, Work(ch));
            if s.pcs[t].got then Stored(s, s', t, c, xs, s.central[c].cache + 1)
            else s' == s.(pcs := s.pcs[t := AfterFailure(c, xs, s.pcs[t].force)])
  {
    hide Inv;
    assert Shaped(cfg, s) && PcShaped(cfg, s.pcs[t]) by { Parts(cfg, s); PositionHere(cfg, s, t); }
    Lengths(cfg, s);
    if s.pcs[t].got { RoomForSlot(cfg, s, t); }
    hide Shaped, PcShaped, CapOf;
  }

  lemma RoomForSlot(cfg: Config, s: State, t: nat)
    requires Inv(cfg, s) && t < |s.pcs| && s.pcs[t].Back? && s.pcs[t].got && s.pcs[t].c < |s.central|
    ensures 0 <= s.central[s.pcs[t].c].used < |s.central[s.pcs[t].c].slots|
  {
    hide Inv;
    Parts(cfg, s);
    Lengths(cfg, s);
    CapacityLimits(cfg, s.pcs, s.central, t, s.pcs[t].c);
  }

  // ---------- ReleaseListToSpans ----------

  /**
   An object that is not the last one of its span to return is the first on its span's
   chain, and a span that had no free object before is the first one to fetch from.
   */
  lemma ObjectReturned(cfg: Config, s: State, t: nat, ch: Choice)
    requires Inv(cfg, s) && Enabled(cfg, s, t, Work(ch)) && s.pcs[t].Release? && s.pcs[t].rest != []
    requires s.pcs[t].rest[0].span in s.spans && s.spans[s.pcs[t].rest[0].span].refcount != 1
    ensures var l, x, s' := s.pcs[t].l, s.pcs[t].rest[0], After(cfg, s, t, Work(ch));
            && l < |s.central| && s'.lists == s.lists && s'.taken == s.taken && s'.locks == s.locks
            && s'.pcs == s.pcs[t := Release(l, s.pcs[t].rest[1..], s.pcs[t].k)]
            && var r, f := s.spans[x.span], s.central[l];
               && s'.spans == s.spans[x.span := r.(chain := [x] + r.chain, refcount := r.refcount - 1)]
               && var listed := if r.chain == [] then [x.span] + f.nonempty else f.nonempty;
                  s'.central == s.central[l := f.(counter := f.counter + 1, nonempty := listed)]
  {
    hide Inv;
    assert Shaped(cfg, s) && PcShaped(cfg, s.pcs[t]) by { Parts(cfg, s); PositionHere(cfg, s, t); }
    Lengths(cfg, s);
    ReleasedHere(cfg, s, t);
    hide Shaped, PcShaped, CapOf;
  }

  lemma ReleasedHere(cfg: Config, s: State, t: nat)
    requires Inv(cfg, s) && t < |s.pcs| && s.pcs[t].Release? && s.pcs[t].rest != []
    ensures var x := s.pcs[t].rest[0];
            x.span in s.spans && s.spans[x.span].refcount > 0 && s.spans[x.span].cl == s.pcs[t].l < |cfg.cap|
  {
    hide Inv, State.Contents, CapOf;
    ReleasedClass(cfg, s, t);
    Parts(cfg, s);
    PositionHere(cfg, s, t);
    ListedAt(s, InHand(t));
    InRest(s, t);
    OutOfSpan(cfg, s, s.pcs[t].rest[0]);
  }

  lemma InRest(s: State, t: nat)
    requires t < |s.pcs| && s.pcs[t].Release? && s.pcs[t].rest != []
    ensures s.pcs[t].rest[0] in s.Contents(InHand(t))
  {
    assert s.Contents(InHand(t))[0] == s.pcs[t].rest[0];
  }

  /** ys is xs without x, which is in it at most once; all others stay in their order. */
  ghost predicate LeftOut(xs: seq<nat>, x: nat, ys: seq<nat>) {
    if x in xs then exists i :: 0 <= i < |xs| && xs[i] == x && ys == xs[..i] + xs[i + 1..] else ys == xs
  }

  lemma {:induction false} WithoutLeavesOut(xs: seq<nat>, x: nat)
    ensures LeftOut(xs, x, Without(xs, x))
  {
    if xs != [] && xs[0] == x {
      assert xs[1..] == xs[..0] + xs[0 + 1..];
    } else if xs != [] {
      WithoutLeavesOut(xs[1..], x);
      hide Without;
      LeftOutTail(xs, x, Without(xs[1..], x));
      WithoutTail(xs, x);
    }
  }

  lemma WithoutTail(xs: seq<nat>, x: nat)
    requires xs != [] && xs[0] != x
    ensures Without(xs, x) == [xs[0]] + Without(xs[1..], x)
  {
  }

  lemma LeftOutTail(xs: seq<nat>, x: nat, ys: seq<nat>)
    requires xs != [] && xs[0] != x && LeftOut(xs[1..], x, ys)
    ensures LeftOut(xs, x, [xs[0]] + ys)
  {
    var t := xs[1..];
    assert xs == [xs[0]] + t;
    if x in t {
      var i :| 0 <= i < |t| && t[i] == x && ys == t[..i] + t[i + 1..];
      assert [xs[0]] + t[..i] == xs[..i + 1] && t[i + 1..] == xs[i + 1 + 1..];
      Associate([xs[0]], t[..i], t[i + 1..]);
      assert xs[i + 1] == x;
    }
  }

  /** The last object of a span takes the span off the list; the lock is dropped to give it back. */
  lemma LastReturned(cfg: Config, s: State, t: nat, ch: Choice)
    requires Inv(cfg, s) && Enabled(cfg, s, t, Work(ch)) && s.pcs[t].Release? && s.pcs[t].rest != []
    requires s.pcs[t].rest[0].span in s.spans && s.spans[s.pcs[t].rest[0].span].refcount == 1
    ensures var l, sp, s' := s.pcs[t].l, s.pcs[t].rest[0].span, After(cfg, s, t, Work(ch));
            && l < |s.central| == |s'.central| && l < |s.locks| && s'.lists == s.lists && s'.taken == s.taken
            && s'.pcs == s.pcs[t := Gone(l, s.pcs[t].rest[1..], s.pcs[t].k, sp)] && s'.locks == s.locks[l := None]
            && s'.spans == s.spans - {sp} && LeftOut(s.central[l].nonempty, sp, s'.central[l].nonempty)
            && s'.central == s.central[l := s.central[l].(counter := s'.central[l].counter,
                                                          nonempty := s'.central[l].nonempty)]
  {
    hide Inv;
    assert Shaped(cfg, s) && PcShaped(cfg, s.pcs[t]) by { Parts(cfg, s); PositionHere(cfg, s, t); }
    Lengths(cfg, s);
    ReleasedHere(cfg, s, t);
    var l, sp := s.pcs[t].l, s.pcs[t].rest[0].span;
    WithoutLeavesOut(s.central[l].nonempty, sp);
    if s.spans[sp].chain == [] { NotListed(cfg, s, sp); }
    hide Shaped, PcShaped, CapOf;
  }

  /** A span without free objects is not on the list. */
  lemma NotListed(cfg: Config, s: State, sp: nat)
    requires Inv(cfg, s) && sp in s.spans && s.spans[sp].cl < |s.central| && s.spans[sp].chain == []
    ensures sp !in s.central[s.spans[sp].cl].nonempty
    ensures Without([sp] + s.central[s.spans[sp].cl].nonempty, sp) == s.central[s.spans[sp].cl].nonempty
  {
    assert ListKept(s.spans, s.central[s.spans[sp].cl].nonempty, s.spans[sp].cl);
  }

  /** When all have returned the call ends, or the slot of an evicted batch goes to the class that asked for it. */
  lemma AllReturned(cfg: Config, s: State, t: nat, ch: Choice)
    requires Inv(cfg, s) && Enabled(cfg, s, t, Work(ch)) && s.pcs[t].Release? && s.pcs[t].rest == []
    ensures var l, k := s.pcs[t].l, s.pcs[t].k;
            && l < |s.locks|
            && After(cfg, s, t, Work(ch)) ==
               s.(pcs := s.pcs[t := if k.Leave? then Idle else BackWait(k.c, k.ch, true, true)],
                  locks := s.locks[l := None])
  {
    hide Inv;
    assert Shaped(cfg, s) && PcShaped(cfg, s.pcs[t]) by { Parts(cfg, s); PositionHere(cfg, s, t); }
    Lengths(cfg, s);
    hide Shaped, PcShaped, CapOf;
  }

  /** Only leases change while no lock is held: a span goes back to the page heap, or comes from it. */
  lemma Unlocked(cfg: Config, s: State, t: nat, ch: Choice)
    requires Inv(cfg, s) && Enabled(cfg, s, t, Work(ch)) && (s.pcs[t].Gone? || s.pcs[t].PopNew?)
    ensures var pc := s.pcs[t];
            After(cfg, s, t, Work(ch)) ==
            if pc.Gone? then s.(pcs := s.pcs[t := Relock(pc.l, pc.rest, pc.k)], taken := s.taken - {pc.sp})
            else if ch.page.None? then s.(pcs := s.pcs[t := PopFail(pc.c, pc.n)])
            else s.(pcs := s.pcs[t := PopWait(pc.c, pc.n, ch.page.value)],
                    taken := s.taken[ch.page.value := ForClass(pc.c)])
  {
    hide Inv;
    assert Shaped(cfg, s) && PcShaped(cfg, s.pcs[t]) by { Parts(cfg, s); PositionHere(cfg, s, t); }
    hide Shaped, PcShaped, CapOf;
  }

  /** With the lock it waited for a thread goes on where it stopped; nothing else changes. */
  lemma Acquired(cfg: Config, s: State, t: nat)
    requires Inv(cfg, s) && Enabled(cfg, s, t, Acquire)
    ensures var l, s' := Wants(s.pcs[t]).value, After(cfg, s, t, Acquire);
            && l < |s.locks| && t < |s'.pcs| && s' == s.(pcs := s.pcs[t := s'.pcs[t]], locks := s.locks[l := Some(t)])
            && match s.pcs[t]
               case InsWait(c, xs) => l == c && s'.pcs[t] == InsTest(c, xs)
               case ShrinkWait(c, xs, force, v) => l == v && s'.pcs[t] == Shrink(c, xs, force, v)
               case BackWait(c, xs, force, got) => l == c && s'.pcs[t] == Back(c, xs, force, got)
               case Relock(m, rest, k) => l == m && s'.pcs[t] == Release(m, rest, k)
               case RemWait(c, n) => l == c && s'.pcs[t] == RemTest(c, n)
               case PopWait(c, n, sp) => l == c && s'.pcs[t] == PopLink(c, n, sp)
               case PopFail(c, n) => l == c && s'.pcs[t] == Fetch(c, n, [], true)
               case _ => false
  {
    hide Inv;
    assert Shaped(cfg, s) && PcShaped(cfg, s.pcs[t]) by { Parts(cfg, s); PositionHere(cfg, s, t); }
    Lengths(cfg, s);
    hide Shaped, CapOf;
  }

  // ---------- RemoveRange ----------

  /**
   A batch that serves the call leaves the transfer cache for the front of the thread's
   list, and the call ends; spans and leases stay as they are.
   */
  lemma BatchReturned(cfg: Config, s: State, t: nat, ch: Choice)
    requires Inv(cfg, s) && Enabled(cfg, s, t, Work(ch)) && s.pcs[t].RemTest?
    requires HasBatch(cfg, s, s.pcs[t].c, s.pcs[t].n)
    ensures var c, f, s' := s.pcs[t].c, s.central[s.pcs[t].c], After(cfg, s, t, Work(ch));
            && t < |s.lists| && c < |s.lists[t]| && c < |s.locks|
            && s'.pcs == s.pcs[t := Idle] && s'.locks == s.locks[c := None]
            && s'.lists == s.lists[t := s.lists[t][c := f.slots[f.used - 1] + s.lists[t][c]]]
            && s'.central == s.central[c := f.(used := f.used - 1)] && s'.spans == s.spans && s'.taken == s.taken
  {
    hide Inv, RemTestStep;
    assert Shaped(cfg, s) && PcShaped(cfg, s.pcs[t]) by { Parts(cfg, s); PositionHere(cfg, s, t); }
    Lengths(cfg, s);
    hide Shaped, Enabled, CapOf, PcShaped;
    BatchStep(cfg, s, t, s.pcs[t].c, s.pcs[t].n);
  }

  lemma BatchStep(cfg: Config, s: State, t: nat, c: nat, n: nat)
    requires t < |s.pcs| && t < |s.lists| && c < |s.lists[t]| && c < |s.locks| && c < |s.central| && c < |cfg.move|
    requires HasBatch(cfg, s, c, n) && n > 0
    ensures var f, s' := s.central[c], RemTestStep(cfg, s, t, c, n);
            && s'.pcs == s.pcs[t := Idle] && s'.locks == s.locks[c := None]
            && s'.lists == s.lists[t := s.lists[t][c := f.slots[f.used - 1] + s.lists[t][c]]]
            && s'.central == s.central[c := f.(used := f.used - 1)] && s'.spans == s.spans && s'.taken == s.taken
  {
  }

  /** Without one it turns to the spans, and nothing changes. */
  lemma NoBatch(cfg: Config, s: State, t: nat, ch: Choice)
    requires Inv(cfg, s) && Enabled(cfg, s, t, Work(ch)) && s.pcs[t].RemTest?
    requires !HasBatch(cfg, s, s.pcs[t].c, s.pcs[t].n)
    ensures After(cfg, s, t, Work(ch)) == s.(pcs := s.pcs[t := Fetch(s.pcs[t].c, s.pcs[t].n, [], false)])
  {
    hide Inv;
    assert Shaped(cfg, s) && PcShaped(cfg, s.pcs[t]) by { Parts(cfg, s); PositionHere(cfg, s, t); }
    Lengths(cfg, s);
    CapacityHere(cfg, s, t, s.pcs[t].c);
    hide Shaped, CapOf, PcShaped;
  }

  lemma CapacityHere(cfg: Config, s: State, t: nat, c: nat)
    requires Inv(cfg, s) && t < |s.pcs| && c < |s.central|
    ensures 0 <= s.central[c].used <= s.central[c].cache <= cfg.classes == |s.central[c].slots|
  {
    Parts(cfg, s);
    CapacityLimits(cfg, s.pcs, s.central, t, c);
  }

  /**
   A turn of FetchFromSpans takes the first free object of the class; all others stay in
   their order, and the transfer cache stays as it is.
   */
  lemma FirstFetched(cfg: Config, s: State, t: nat, ch: Choice)
    requires Inv(cfg, s) && Enabled(cfg, s, t, Work(ch)) && s.pcs[t].Fetch? && |s.pcs[t].out| < s.pcs[t].n
    requires FreeOf(s, s.pcs[t].c) != []
    ensures var c, s' := s.pcs[t].c, After(cfg, s, t, Work(ch));
            var free := FreeOf(s, c);
            && s'.pcs == s.pcs[t := Fetch(c, s.pcs[t].n, [free[0]] + s.pcs[t].out, s.pcs[t].dry)]
            && FreeOf(s', c) == free[1..] && s'.lists == s.lists && s'.locks == s.locks && s'.taken == s.taken
            && c < |s.central| == |s'.central|
            && s'.central[c] == s.central[c].(counter := s.central[c].counter - 1, nonempty := s'.central[c].nonempty)
            && forall d :: 0 <= d < |s.central| && d != c ==> s'.central[d] == s.central[d]
  {
    hide Inv, FetchStep, Supply;
    assert Shaped(cfg, s) && PcShaped(cfg, s.pcs[t]) by { Parts(cfg, s); PositionHere(cfg, s, t); }
    Lengths(cfg, s);
    hide Shaped, Enabled, CapOf, PcShaped;
    var c := s.pcs[t].c;
    SupplyNone(cfg, s, c);
    FetchedClass(cfg, s, c);
    NonemptyOnce(cfg, s, c);
    FetchOne(s, t, c, s.pcs[t].n, s.pcs[t].out, s.pcs[t].dry);
  }

  lemma NonemptyOnce(cfg: Config, s: State, c: nat)
    requires Inv(cfg, s) && c < |s.central|
    ensures Once(s.central[c].nonempty) && forall sp :: sp in s.central[c].nonempty ==> sp in s.spans
  {
    assert ListKept(s.spans, s.central[c].nonempty, c);
  }

  lemma FetchOne(s: State, t: nat, c: nat, n: nat, out: Chain, dry: bool)
    requires t < |s.pcs| && t < |s.lists| && c < |s.lists[t]| && c < |s.locks| && c < |s.central| && |out| < n
    requires s.central[c].nonempty != [] && Once(s.central[c].nonempty)
    requires forall sp :: sp in s.central[c].nonempty ==> sp in s.spans
    requires s.spans[s.central[c].nonempty[0]].chain != []
    ensures var s', free := FetchStep(s, t, c, n, out, dry), FreeOf(s, c);
            && free != [] && s'.pcs == s.pcs[t := Fetch(c, n, [free[0]] + out, dry)]
            && FreeOf(s', c) == free[1..] && s'.lists == s.lists && s'.locks == s.locks && s'.taken == s.taken
            && |s.central| == |s'.central|
            && s'.central[c] == s.central[c].(counter := s.central[c].counter - 1, nonempty := s'.central[c].nonempty)
            && forall d :: 0 <= d < |s.central| && d != c ==> s'.central[d] == s.central[d]
  {
    var s', xs := FetchStep(s, t, c, n, out, dry), s.central[c].nonempty;
    assert xs[0] in xs;
    var chain := s.spans[xs[0]].chain;
    assert xs == [xs[0]] + xs[1..];
    SupplySame(s.spans, s'.spans, xs[1..]);
    assert Supply(s.spans, xs) == chain + Supply(s.spans, xs[1..]);
    if |chain| > 1 {
      assert Supply(s'.spans, xs) == chain[1..] + Supply(s'.spans, xs[1..]);
    } else {
      assert chain[1..] == [];
    }
    assert (chain + Supply(s.spans, xs[1..]))[1..] == chain[1..] + Supply(s.spans, xs[1..]);
  }

  /**
   It goes on while fewer than n objects are in hand and the class has free ones. Then the
   call ends with what is in hand in front of the thread's list; but where nothing is, and
   no span was obtained yet, the lock is dropped to obtain one.
   */
  lemma FetchOver(cfg: Config, s: State, t: nat, ch: Choice)
    requires Inv(cfg, s) && Enabled(cfg, s, t, Work(ch)) && s.pcs[t].Fetch?
    requires |s.pcs[t].out| >= s.pcs[t].n || FreeOf(s, s.pcs[t].c) == []
    ensures var c, n, out, s' := s.pcs[t].c, s.pcs[t].n, s.pcs[t].out, After(cfg, s, t, Work(ch));
            && t < |s.lists| && c < |s.lists[t]| && c < |s.locks|
            && s'.locks == s.locks[c := None] && s'.central == s.central && s'.spans == s.spans && s'.taken == s.taken
            && if out == [] && !s.pcs[t].dry
               then s'.pcs == s.pcs[t := PopNew(c, n)] && s'.lists == s.lists
               else s'.pcs == s.pcs[t := Idle] && s'.lists == s.lists[t := s.lists[t][c := out + s.lists[t][c]]]
  {
    hide Inv, FetchStep, Supply;
    assert Shaped(cfg, s) && PcShaped(cfg, s.pcs[t]) by { Parts(cfg, s); PositionHere(cfg, s, t); }
    Lengths(cfg, s);
    SupplyNone(cfg, s, s.pcs[t].c);
    hide Shaped, Enabled, CapOf, PcShaped;
    FetchNone(s, t, s.pcs[t].c, s.pcs[t].n, s.pcs[t].out, s.pcs[t].dry);
  }

  lemma FetchNone(s: State, t: nat, c: nat, n: nat, out: Chain, dry: bool)
    requires t < |s.pcs| && t < |s.lists| && c < |s.lists[t]| && c < |s.locks| && c < |s.central|
    requires |out| >= n || s.central[c].nonempty == []
    ensures var s' := FetchStep(s, t, c, n, out, dry);
            && s'.locks == s.locks[c := None] && s'.central == s.central && s'.spans == s.spans && s'.taken == s.taken
            && if out == [] && !dry
               then s'.pcs == s.pcs[t := PopNew(c, n)] && s'.lists == s.lists
               else s'.pcs == s.pcs[t := Idle] && s'.lists == s.lists[t := s.lists[t][c := out + s.lists[t][c]]]
  {
  }

  /** All objects of a new span are free, in address order, in front of the others of the class. */
  lemma SpanJoins(cfg: Config, s: State, t: nat, ch: Choice)
    requires Inv(cfg, s) && Enabled(cfg, s, t, Work(ch)) && s.pcs[t].PopLink?
    ensures var c, s' := s.pcs[t].c, After(cfg, s, t, Work(ch));
            && c < |cfg.cap| && c < |s.central|
            && s'.pcs == s.pcs[t := Fetch(c, s.pcs[t].n, [], true)]
            && FreeOf(s', c) == Objects(s.pcs[t].sp, cfg.cap[c]) + FreeOf(s, c)
            && s'.lists == s.lists && s'.locks == s.locks && s'.taken == s.taken
            && s'.central[c].used == s.central[c].used && s'.central[c].slots == s.central[c].slots
            && s'.central[c].cache == s.central[c].cache
  {
    hide Inv, PopLinkStep, Supply;
    assert Shaped(cfg, s) && PcShaped(cfg, s.pcs[t]) by { Parts(cfg, s); PositionHere(cfg, s, t); }
    Lengths(cfg, s);
    LinkedSpan(cfg, s, t);
    NonemptyOnce(cfg, s, s.pcs[t].c);
    hide Shaped, Enabled, CapOf, PcShaped;
    LinkOne(cfg, s, t, s.pcs[t].c, s.pcs[t].n, s.pcs[t].sp);
  }

  lemma LinkOne(cfg: Config, s: State, t: nat, c: nat, n: nat, sp: nat)
    requires t < |s.pcs| && c < |s.central| && c < |cfg.cap| && sp !in s.spans
    requires forall x :: x in s.central[c].nonempty ==> x in s.spans
    ensures var s' := PopLinkStep(cfg, s, t, c, n, sp);
            && s'.pcs == s.pcs[t := Fetch(c, n, [], true)] && c < |s'.central|
            && FreeOf(s', c) == Objects(sp, cfg.cap[c]) + FreeOf(s, c)
            && s'.lists == s.lists && s'.locks == s.locks && s'.taken == s.taken
            && s'.central[c].used == s.central[c].used && s'.central[c].slots == s.central[c].slots
            && s'.central[c].cache == s.central[c].cache
  {
    var s', xs := PopLinkStep(cfg, s, t, c, n, sp), s.central[c].nonempty;
    SupplySame(s.spans, s'.spans, xs);
    assert ([sp] + xs)[1..] == xs;
  }
}
