/** The steps of the central free lists and thread caches. */
module CentralSteps {
  import opened Basics
  import opened CentralState

  /** The outcomes left open: the class to evict from, an unlocked racy test, the answer of the page heap. */
  datatype Choice = Choice(victim: nat, skip: bool, page: Option<nat>)

  datatype Action =
    | Malloc(c: nat)
    | Free(x: Obj)
    | FreeUncached(x: Obj)
    | Insert(c: nat, n: nat)
    | Remove(c: nat, n: nat)
    | NewPages(n: nat, sp: nat)
    | DeletePages(sp: nat)
    | Acquire
    | Work(choice: Choice)

  ghost predicate Shaped(cfg: Config, s: State) {
    && cfg.Valid()
    && |s.locks| == |s.central| == cfg.classes && |s.lists| == |s.pcs|
    && (forall t :: 0 <= t < |s.lists| ==> |s.lists[t]| == cfg.classes)
    && (forall c :: 0 <= c < |s.central| ==> |s.central[c].slots| == cfg.classes)
    && (forall t :: 0 <= t < |s.pcs| ==> PcShaped(cfg, s.pcs[t]))
  }

  /** The classes and counts in a position make sense. */
  ghost predicate PcShaped(cfg: Config, pc: Pc) {
    && |cfg.move| == cfg.classes
    && match pc
       case Idle => true
       case InsWait(c, _) => c < cfg.classes
       case InsTest(c, _) => c < cfg.classes
       case Evict(c, ch, _) => c < cfg.classes && |ch| == cfg.move[c]
       case ShrinkWait(c, ch, _, v) => c < cfg.classes && |ch| == cfg.move[c] && v < cfg.classes
       case Shrink(c, ch, _, v) => c < cfg.classes && |ch| == cfg.move[c] && v < cfg.classes
       case BackWait(c, ch, _, _) => c < cfg.classes && |ch| == cfg.move[c]
       case Back(c, ch, _, _) => c < cfg.classes && |ch| == cfg.move[c]
       case Release(l, _, k) => l < cfg.classes && ContShaped(cfg, k)
       case Gone(l, _, k, _) => l < cfg.classes && ContShaped(cfg, k)
       case Relock(l, _, k) => l < cfg.classes && ContShaped(cfg, k)
       case RemWait(c, n) => c < cfg.classes && n > 0
       case RemTest(c, n) => c < cfg.classes && n > 0
       case Fetch(c, n, out, dry) => c < cfg.classes && n > 0 && |out| <= n
       case PopNew(c, n) => c < cfg.classes && n > 0
       case PopWait(c, n, _) => c < cfg.classes && n > 0
       case PopLink(c, n, _) => c < cfg.classes && n > 0
       case PopFail(c, n) => c < cfg.classes && n > 0
  }

  ghost predicate ContShaped(cfg: Config, k: Cont)
    requires |cfg.move| == cfg.classes
  {
    k.Resume? ==> k.c < cfg.classes && |k.ch| == cfg.move[k.c]
  }

  /** Only thread t moves. */
  ghost predicate OthersWait(s: State, s': State, t: nat) {
    |s'.pcs| == |s.pcs| && forall u :: 0 <= u < |s.pcs| && u != t ==> s'.pcs[u] == s.pcs[u]
  }

  // ---------- steps of an idle thread ----------

  /** TCMalloc_ThreadCache::Allocate when the list has an object. */
  function MallocStep(s: State, t: nat, c: nat): State
    requires t < |s.lists| && c < |s.lists[t]| && s.lists[t][c] != []
  {
    s.WithList(t, c, s.lists[t][c][1..]).Placed([s.lists[t][c][0]], InApp)
  }

  /** do_free, and the push of TCMalloc_ThreadCache::Deallocate. */
  function FreeStep(s: State, t: nat, x: Obj): State
    requires t < |s.lists|
  {
    if x.span !in s.spans || s.spans[x.span].cl >= |s.lists[t]| then s.Faulty() else
    var c := s.spans[x.span].cl;
    s.WithList(t, c, [x] + s.lists[t][c]).Placed([x], InCache(t, c))
  }

  /** do_free in a thread that has no cache. */
  function FreeUncachedStep(s: State, t: nat, x: Obj): State
    requires t < |s.pcs|
  {
    if x.span !in s.spans then s.Faulty() else
    s.To(t, InsWait(s.spans[x.span].cl, [x])).Placed([x], InHand(t))
  }

  /** A batch of TCMalloc_ThreadCache::ReleaseToCentralCache: PopRange, then InsertRange. */
  function InsertStep(s: State, t: nat, c: nat, n: nat): State
    requires t < |s.pcs| && t < |s.lists| && c < |s.lists[t]| && n <= |s.lists[t][c]|
  {
    var xs := s.lists[t][c];
    s.WithList(t, c, xs[n..]).To(t, InsWait(c, xs[..n])).Placed(xs[..n], InHand(t))
  }

  /** pageheap->New for a large or sampled allocation. */
  function NewPagesStep(s: State, n: nat, sp: nat): State {
    s.(taken := s.taken[sp := ForPages(n)])
  }

  /** pageheap->Delete of a large or sampled allocation. */
  function DeletePagesStep(s: State, sp: nat): State {
    s.(taken := s.taken - {sp})
  }

  // ---------- InsertRange ----------

  /** The chain goes into the next slot, and the call ends. */
  function Store(s: State, t: nat, c: nat, ch: Chain): (s': State)
    requires t < |s.pcs| && c < |s.central| && c < |s.locks|
    ensures s'.lists == s.lists && s'.taken == s.taken && s'.spans == s.spans && OthersWait(s, s', t)
  {
    var f := s.central[c];
    if f.used < 0 || f.used >= |f.slots| then s.Faulty() else
    s.WithCentral(c, f.(used := f.used + 1, slots := f.slots[f.used := ch])).To(t, Idle).Unlocked(c)
      .Placed(ch, InSlot(c, f.used))
  }

  /** The tests of InsertRange and at the head of MakeCacheSpace. */
  function InsTestStep(cfg: Config, s: State, t: nat, c: nat, ch: Chain): (s': State)
    requires t < |s.pcs| && c < |s.central| && c < |s.locks| && c < |cfg.move|
    ensures s'.lists == s.lists && s'.taken == s.taken && s'.spans == s.spans && OthersWait(s, s', t)
  {
    if |ch| != cfg.move[c] then s.To(t, Release(c, ch, Leave))
    else if s.central[c].used < s.central[c].cache then Store(s, t, c, ch)
    else if s.central[c].cache == cfg.classes then s.To(t, Release(c, ch, Leave))
    else s.To(t, Evict(c, ch, false))
  }

  /** What MakeCacheSpace does when an eviction failed. */
  function EvictFailed(s: State, t: nat, c: nat, ch: Chain, force: bool): (s': State)
    requires t < |s.pcs|
    ensures s'.lists == s.lists && s'.taken == s.taken && s'.spans == s.spans && OthersWait(s, s', t)
  {
    s.To(t, if force then Release(c, ch, Leave) else Evict(c, ch, true))
  }

  /** EvictRandomSizeClass, and ShrinkCache up to the exchange of locks. */
  function EvictStep(s: State, t: nat, c: nat, ch: Chain, force: bool, victim: nat, skip: bool): (s': State)
    requires t < |s.pcs| && c < |s.locks|
    ensures s'.lists == s.lists && s'.taken == s.taken && s'.spans == s.spans && OthersWait(s, s', t)
  {
    if victim == c || skip then EvictFailed(s, t, c, ch, force)
    else s.To(t, ShrinkWait(c, ch, force, victim)).Unlocked(c)
  }

  /** ShrinkCache under the victim's lock. */
  function ShrinkStep(s: State, t: nat, c: nat, ch: Chain, force: bool, v: nat): (s': State)
    requires t < |s.pcs| && v < |s.central| && v < |s.locks|
    ensures s'.lists == s.lists && s'.taken == s.taken && s'.spans == s.spans && OthersWait(s, s', t)
  {
    var f := s.central[v];
    if f.used > f.cache || f.cache < 0 then s.Faulty()
    else if f.cache == 0 || (f.used == f.cache && !force) then s.To(t, BackWait(c, ch, force, false)).Unlocked(v)
    else if f.used == f.cache then
      if f.used > |f.slots| then s.Faulty() else
      s.WithCentral(v, f.(cache := f.cache - 1, used := f.used - 1))
        .To(t, Release(v, f.slots[f.used - 1], Resume(c, ch))).Placed(f.slots[f.used - 1], InHand(t))
    else s.WithCentral(v, f.(cache := f.cache - 1)).To(t, BackWait(c, ch, force, true)).Unlocked(v)
  }

  /** Back in MakeCacheSpace with the lock of c. */
  function BackStep(s: State, t: nat, c: nat, ch: Chain, force: bool, got: bool): (s': State)
    requires t < |s.pcs| && c < |s.central| && c < |s.locks|
    ensures s'.lists == s.lists && s'.taken == s.taken && s'.spans == s.spans && OthersWait(s, s', t)
  {
    if got then Store(s.WithCentral(c, s.central[c].(cache := s.central[c].cache + 1)), t, c, ch)
    else EvictFailed(s, t, c, ch, force)
  }

  // ---------- ReleaseListToSpans ----------

  /** The end of ReleaseListToSpans. */
  function ReleasedStep(s: State, t: nat, l: nat, k: Cont): (s': State)
    requires t < |s.pcs| && l < |s.locks|
    ensures s'.lists == s.lists && s'.taken == s.taken && s'.spans == s.spans && OthersWait(s, s', t)
  {
    if k.Leave? then s.To(t, Idle).Unlocked(l)
    else s.To(t, BackWait(k.c, k.ch, true, true)).Unlocked(l)
  }

  /** ReleaseToSpans of the first object. */
  function ReleaseStep(cfg: Config, s: State, t: nat, l: nat, rest: Chain, k: Cont): (s': State)
    requires t < |s.pcs| && l < |s.central| && l < |s.locks| && rest != []
    ensures s'.lists == s.lists && s'.taken == s.taken && OthersWait(s, s', t)
  {
    var x, sp, f := rest[0], rest[0].span, s.central[l];
    if sp !in s.spans || s.spans[sp].refcount <= 0 || s.spans[sp].cl >= |cfg.cap| then s.Faulty() else
    var r := s.spans[sp];
    var nonempty := if r.chain == [] then [sp] + f.nonempty else f.nonempty;
    if r.refcount == 1 then
      s.WithCentral(l, f.(counter := f.counter + 1 - cfg.cap[r.cl], nonempty := Without(nonempty, sp)))
        .To(t, Gone(l, rest[1..], k, sp)).Unlocked(l)
        .(spans := s.spans - {sp}, place := map o | o in s.place && o.span != sp :: s.place[o])
    else
      s.WithCentral(l, f.(counter := f.counter + 1, nonempty := nonempty))
        .To(t, Release(l, rest[1..], k)).Placed([x], InChain(sp))
        .(spans := s.spans[sp := r.(chain := [x] + r.chain, refcount := r.refcount - 1)])
  }

  /** pageheap->Delete of a span all of whose objects have returned. */
  function GoneStep(s: State, t: nat, l: nat, rest: Chain, k: Cont, sp: nat): (s': State)
    requires t < |s.pcs|
    ensures s'.lists == s.lists && s'.spans == s.spans && OthersWait(s, s', t)
  {
    s.To(t, Relock(l, rest, k)).(taken := s.taken - {sp})
  }

  // ---------- RemoveRange ----------

  /** RemoveRange ends; FetchFromCentralCache puts what it got in front of the thread's list. */
  function Deliver(s: State, t: nat, c: nat, xs: Chain): (s': State)
    requires t < |s.pcs| && t < |s.lists| && c < |s.lists[t]| && c < |s.locks|
    ensures s'.taken == s.taken && s'.spans == s.spans && OthersWait(s, s', t)
    ensures |s'.lists| == |s.lists| && forall u :: 0 <= u < |s.lists| && u != t ==> s'.lists[u] == s.lists[u]
  {
    s.WithList(t, c, xs + s.lists[t][c]).To(t, Idle).Unlocked(c).Placed(xs, InCache(t, c))
  }

  function RemTestStep(cfg: Config, s: State, t: nat, c: nat, n: nat): (s': State)
    requires t < |s.pcs| && t < |s.lists| && c < |s.lists[t]| && c < |s.locks| && c < |s.central| && c < |cfg.move|
    ensures s'.taken == s.taken && s'.spans == s.spans && OthersWait(s, s', t)
    ensures |s'.lists| == |s.lists| && forall u :: 0 <= u < |s.lists| && u != t ==> s'.lists[u] == s.lists[u]
  {
    var f := s.central[c];
    if n == 0 then s.Faulty()
    else if n == cfg.move[c] && f.used > 0 then
      if f.used > |f.slots| then s.Faulty() else
      Deliver(s.WithCentral(c, f.(used := f.used - 1)), t, c, f.slots[f.used - 1])
    else s.To(t, Fetch(c, n, [], false))
  }

  /** FetchFromSpans, and what FetchFromSpansSafe and RemoveRange do with its answer. */
  function FetchStep(s: State, t: nat, c: nat, n: nat, out: Chain, dry: bool): (s': State)
    requires t < |s.pcs| && t < |s.lists| && c < |s.lists[t]| && c < |s.locks| && c < |s.central|
    ensures s'.taken == s.taken && s'.spans.Keys == s.spans.Keys && OthersWait(s, s', t)
    ensures |s'.lists| == |s.lists| && forall u :: 0 <= u < |s.lists| && u != t ==> s'.lists[u] == s.lists[u]
  {
    var f := s.central[c];
    if |out| < n && f.nonempty != [] then
      var sp := f.nonempty[0];
      if sp !in s.spans || s.spans[sp].chain == [] then s.Faulty() else
      var r := s.spans[sp];
      s.WithCentral(c, f.(counter := f.counter - 1,
                          nonempty := if |r.chain| == 1 then f.nonempty[1..] else f.nonempty))
        .To(t, Fetch(c, n, [r.chain[0]] + out, dry)).Placed([r.chain[0]], InHand(t))
        .(spans := s.spans[sp := r.(chain := r.chain[1..], refcount := r.refcount + 1)])
    else if out == [] && !dry then s.To(t, PopNew(c, n)).Unlocked(c)
    else Deliver(s, t, c, out)
  }

  /** pageheap->New and RegisterSizeClass, or the failure of New. */
  function PopNewStep(s: State, t: nat, c: nat, n: nat, page: Option<nat>): (s': State)
    requires t < |s.pcs|
    ensures s'.lists == s.lists && s'.spans == s.spans && OthersWait(s, s', t)
  {
    match page
    case None => s.To(t, PopFail(c, n))
    case Some(sp) => s.To(t, PopWait(c, n, sp)).(taken := s.taken[sp := ForClass(c)])
  }

  /** The carved span joins the list. */
  function PopLinkStep(cfg: Config, s: State, t: nat, c: nat, n: nat, sp: nat): (s': State)
    requires t < |s.pcs| && c < |s.central| && c < |cfg.cap|
    ensures s'.lists == s.lists && s'.taken == s.taken && s'.spans.Keys == s.spans.Keys + {sp} && OthersWait(s, s', t)
  {
    var f, xs := s.central[c], Objects(sp, cfg.cap[c]);
    s.WithCentral(c, f.(counter := f.counter + cfg.cap[c], nonempty := [sp] + f.nonempty))
      .To(t, Fetch(c, n, [], true)).Placed(xs, InChain(sp))
      .(spans := s.spans[sp := SpanRec(c, xs, 0)])
  }

  // ---------- one step ----------

  ghost predicate Enabled(cfg: Config, s: State, t: nat, a: Action)
    requires Shaped(cfg, s)
  {
    && t < |s.pcs|
    && match a
       case Malloc(c) => s.pcs[t].Idle? && c < cfg.classes && s.lists[t][c] != []
       case Free(x) => s.pcs[t].Idle? && x in s.place && s.place[x].InApp?
       case FreeUncached(x) => s.pcs[t].Idle? && x in s.place && s.place[x].InApp?
       case Insert(c, n) => s.pcs[t].Idle? && c < cfg.classes && n <= |s.lists[t][c]|
       case Remove(c, n) => s.pcs[t].Idle? && c < cfg.classes && n > 0
       case NewPages(n, sp) => s.pcs[t].Idle? && Vacant(cfg, s.taken, sp, n)
       case DeletePages(sp) => s.pcs[t].Idle? && sp in s.taken && s.taken[sp].ForPages?
       case Acquire => Wants(s.pcs[t]).Some? && s.locks[Wants(s.pcs[t]).value].None?
       case Work(ch) =>
         && !s.pcs[t].Idle? && Wants(s.pcs[t]).None?
         && (s.pcs[t].Evict? ==> ch.victim < cfg.classes)
         && (s.pcs[t].PopNew? && ch.page.Some? ==> Vacant(cfg, s.taken, ch.page.value, cfg.pages[s.pcs[t].c]))
  }

  ghost function WorkStep(cfg: Config, s: State, t: nat, ch: Choice): State
    requires Shaped(cfg, s) && Enabled(cfg, s, t, Work(ch))
  {
    match s.pcs[t]
    case InsTest(c, xs) => InsTestStep(cfg, s, t, c, xs)
    case Evict(c, xs, force) => EvictStep(s, t, c, xs, force, ch.victim, ch.skip)
    case Shrink(c, xs, force, v) => ShrinkStep(s, t, c, xs, force, v)
    case Back(c, xs, force, got) => BackStep(s, t, c, xs, force, got)
    case Release(l, rest, k) => if rest == [] then ReleasedStep(s, t, l, k) else ReleaseStep(cfg, s, t, l, rest, k)
    case Gone(l, rest, k, sp) => GoneStep(s, t, l, rest, k, sp)
    case RemTest(c, n) => RemTestStep(cfg, s, t, c, n)
    case Fetch(c, n, out, dry) => FetchStep(s, t, c, n, out, dry)
    case PopNew(c, n) => PopNewStep(s, t, c, n, ch.page)
    case PopLink(c, n, sp) => PopLinkStep(cfg, s, t, c, n, sp)
  }

  ghost function After(cfg: Config, s: State, t: nat, a: Action): State
    requires Shaped(cfg, s) && Enabled(cfg, s, t, a)
  {
    match a
    case Malloc(c) => MallocStep(s, t, c)
    case Free(x) => FreeStep(s, t, x)
    case FreeUncached(x) => FreeUncachedStep(s, t, x)
    case Insert(c, n) => InsertStep(s, t, c, n)
    case Remove(c, n) => s.To(t, RemWait(c, n))
    case NewPages(n, sp) => NewPagesStep(s, n, sp)
    case DeletePages(sp) => DeletePagesStep(s, sp)
    case Acquire => s.To(t, Entered(s.pcs[t])).Locked(Wants(s.pcs[t]).value, t)
    case Work(ch) => WorkStep(cfg, s, t, ch)
  }
}
