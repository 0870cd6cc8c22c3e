/** What every step of the central free lists and thread caches keeps. */
module CentralSafety {
  import opened Basics
  import opened CentralState
  import opened CentralSteps

  // ---------- locks ----------

  /** A lock is held by exactly the thread whose position says so. */
  ghost predicate LocksKept(pcs: seq<Pc>, locks: seq<Option<nat>>) {
    && (forall t :: 0 <= t < |pcs| && Holds(pcs[t]).Some? ==>
          Holds(pcs[t]).value < |locks| && locks[Holds(pcs[t]).value] == Some(t))
    && (forall l :: 0 <= l < |locks| && locks[l].Some? ==>
          locks[l].value < |pcs| && Holds(pcs[locks[l].value]) == Some(l))
  }

  // ---------- tokens ----------

  ghost function Tokens(pcs: seq<Pc>): int {
    if pcs == [] then 0 else Token(pcs[0]) + Tokens(pcs[1..])
  }

  ghost function Caches(central: seq<Central>): int {
    if central == [] then 0 else central[0].cache + Caches(central[1..])
  }

  lemma {:induction false} TokensUpdate(pcs: seq<Pc>, t: nat, pc: Pc)
    requires t < |pcs|
    ensures Tokens(pcs[t := pc]) == Tokens(pcs) - Token(pcs[t]) + Token(pc)
  {
    if t > 0 {
      TokensUpdate(pcs[1..], t - 1, pc);
      assert pcs[t := pc][1..] == pcs[1..][t - 1 := pc];
    } else {
      assert pcs[t := pc][1..] == pcs[1..];
    }
  }

  lemma {:induction false} CachesUpdate(central: seq<Central>, c: nat, f: Central)
    requires c < |central|
    ensures Caches(central[c := f]) == Caches(central) - central[c].cache + f.cache
  {
    if c > 0 {
      CachesUpdate(central[1..], c - 1, f);
      assert central[c := f][1..] == central[1..][c - 1 := f];
    } else {
      assert central[c := f][1..] == central[1..];
    }
  }

  lemma {:induction false} TokensBound(pcs: seq<Pc>, t: nat)
    requires t < |pcs|
    ensures Tokens(pcs) >= Token(pcs[t])
  {
    if t > 0 { TokensBound(pcs[1..], t - 1); TokensNonneg(pcs); } else { TokensNonneg(pcs[1..]); }
  }

  lemma {:induction false} TokensNonneg(pcs: seq<Pc>)
    ensures Tokens(pcs) >= 0
  {
    if pcs != [] { TokensNonneg(pcs[1..]); }
  }

  ghost predicate Sound(f: Central) {
    0 <= f.used <= f.cache
  }

  lemma {:induction false} CachesBound(central: seq<Central>, c: nat)
    requires c < |central| && forall d :: 0 <= d < |central| ==> Sound(central[d])
    ensures 0 <= central[c].cache <= Caches(central)
  {
    if c > 0 { CachesBound(central[1..], c - 1); assert Sound(central[0]); }
    else { CachesNonneg(central[1..]); assert Sound(central[0]); }
  }

  lemma {:induction false} CachesNonneg(central: seq<Central>)
    requires forall d :: 0 <= d < |central| ==> Sound(central[d])
    ensures Caches(central) >= 0
  {
    if central != [] { CachesNonneg(central[1..]); assert Sound(central[0]); }
  }

  /** Capacity is conserved: every slot of the transfer caches is some class's or on its way. */
  ghost predicate CapacityKept(cfg: Config, pcs: seq<Pc>, central: seq<Central>) {
    && (forall c :: 0 <= c < |central| ==> Sound(central[c]))
    && Caches(central) + Tokens(pcs) == cfg.classes
  }

  // ---------- spans ----------

  ghost predicate SpanKept(cfg: Config, spans: map<nat, SpanRec>, taken: map<nat, Lease>, sp: nat)
    requires sp in spans && |cfg.cap| == cfg.classes
  {
    var r := spans[sp];
    && r.cl < cfg.classes && sp in taken && taken[sp] == ForClass(r.cl)
    && r.refcount >= 0 && r.refcount + |r.chain| == cfg.cap[r.cl]
  }

  ghost predicate SpansKept(cfg: Config, spans: map<nat, SpanRec>, taken: map<nat, Lease>)
    requires |cfg.cap| == cfg.classes
  {
    forall sp :: sp in spans ==> SpanKept(cfg, spans, taken, sp)
  }

  /** The nonempty list of class c holds, once each, the spans of that class with free objects. */
  ghost predicate ListKept(spans: map<nat, SpanRec>, nonempty: seq<nat>, c: nat) {
    && (forall sp :: sp in nonempty <==> sp in spans && spans[sp].cl == c && spans[sp].chain != [])
    && (forall i, j :: 0 <= i < j < |nonempty| ==> nonempty[i] != nonempty[j])
  }

  ghost predicate ListsKept(spans: map<nat, SpanRec>, central: seq<Central>) {
    forall c :: 0 <= c < |central| ==> ListKept(spans, central[c].nonempty, c)
  }

  /** The free objects of class c in spans below page n. */
  ghost function FreeBelow(spans: map<nat, SpanRec>, c: nat, n: nat): nat {
    if n == 0 then 0
    else FreeBelow(spans, c, n - 1) + if n - 1 in spans && spans[n - 1].cl == c then |spans[n - 1].chain| else 0
  }

  ghost predicate CountsKept(cfg: Config, spans: map<nat, SpanRec>, central: seq<Central>) {
    forall c :: 0 <= c < |central| ==> central[c].counter == FreeBelow(spans, c, cfg.top)
  }

  /** Runs taken from the page heap do not overlap. */
  ghost predicate TakenKept(cfg: Config, taken: map<nat, Lease>) {
    && (forall a :: a in taken ==> Pages(cfg, taken[a]) > 0 && a + Pages(cfg, taken[a]) <= cfg.top)
    && (forall a, b :: a in taken && b in taken && a < b ==> a + Pages(cfg, taken[a]) <= b)
  }

  ghost predicate Borrowed(pcs: seq<Pc>, sp: nat) {
    exists t :: 0 <= t < |pcs| && Private(pcs[t]) == Some(sp)
  }

  /** A span in transit is no other thread's and on no list; any other span of a class is listed. */
  ghost predicate PrivateKept(pcs: seq<Pc>, spans: map<nat, SpanRec>, taken: map<nat, Lease>) {
    && (forall sp :: sp in taken && taken[sp].ForClass? ==> sp in spans || Borrowed(pcs, sp))
    && (forall t :: 0 <= t < |pcs| ==> PrivateOne(pcs[t], spans, taken))
    && (forall t, u :: 0 <= t < |pcs| && 0 <= u < |pcs| && t != u && Private(pcs[t]).Some? ==>
          Private(pcs[t]) != Private(pcs[u]))
  }

  ghost predicate PrivateOne(pc: Pc, spans: map<nat, SpanRec>, taken: map<nat, Lease>) {
    match pc
    case Gone(l, _, _, sp) => sp !in spans && sp in taken && taken[sp] == ForClass(l)
    case PopWait(c, _, sp) => sp !in spans && sp in taken && taken[sp] == ForClass(c)
    case PopLink(c, _, sp) => sp !in spans && sp in taken && taken[sp] == ForClass(c)
    case _ => true
  }

  /** A span with no object out is at the head of a list whose holder is about to take one. */
  ghost predicate UnusedKept(pcs: seq<Pc>, locks: seq<Option<nat>>, central: seq<Central>, spans: map<nat, SpanRec>) {
    forall sp :: sp in spans && spans[sp].refcount == 0 ==> AboutToUse(pcs, locks, central, spans[sp].cl, sp)
  }

  ghost predicate AboutToUse(pcs: seq<Pc>, locks: seq<Option<nat>>, central: seq<Central>, c: nat, sp: nat) {
    && c < |locks| && c < |central| && locks[c].Some? && locks[c].value < |pcs|
    && pcs[locks[c].value].Fetch? && pcs[locks[c].value].out == []
    && central[c].nonempty != [] && central[c].nonempty[0] == sp
  }

  // ---------- objects ----------

  /** The objects of spans on lists are those that have a place. */
  ghost predicate AllKept(cfg: Config, spans: map<nat, SpanRec>, place: map<Obj, Place>)
    requires |cfg.cap| == cfg.classes
  {
    forall o {:trigger o in place} ::
      o in place <==> o.span in spans && spans[o.span].cl < cfg.classes && o.idx < cfg.cap[spans[o.span].cl]
  }

  /** An object is on lists of its own class, and on the chain of its own span. */
  ghost predicate ClassKept(spans: map<nat, SpanRec>, place: map<Obj, Place>) {
    forall o {:trigger place[o]} :: o in place ==> o.span in spans && match place[o]
      case InCache(_, c) => spans[o.span].cl == c
      case InSlot(c, _) => spans[o.span].cl == c
      case InChain(sp) => o.span == sp
      case _ => true
  }

  ghost predicate OfClass(spans: map<nat, SpanRec>, xs: Chain, c: nat) {
    forall o :: o in xs ==> o.span in spans && spans[o.span].cl == c
  }

  ghost predicate HandOne(spans: map<nat, SpanRec>, pc: Pc) {
    match pc
    case InsWait(c, ch) => OfClass(spans, ch, c)
    case InsTest(c, ch) => OfClass(spans, ch, c)
    case Evict(c, ch, _) => OfClass(spans, ch, c)
    case ShrinkWait(c, ch, _, _) => OfClass(spans, ch, c)
    case Shrink(c, ch, _, _) => OfClass(spans, ch, c)
    case BackWait(c, ch, _, _) => OfClass(spans, ch, c)
    case Back(c, ch, _, _) => OfClass(spans, ch, c)
    case Release(l, rest, k) => OfClass(spans, rest, l) && (k.Resume? ==> OfClass(spans, k.ch, k.c))
    case Gone(l, rest, k, _) => OfClass(spans, rest, l) && (k.Resume? ==> OfClass(spans, k.ch, k.c))
    case Relock(l, rest, k) => OfClass(spans, rest, l) && (k.Resume? ==> OfClass(spans, k.ch, k.c))
    case Fetch(c, _, out, _) => OfClass(spans, out, c)
    case _ => true
  }

  ghost predicate HandsKept(spans: map<nat, SpanRec>, pcs: seq<Pc>) {
    forall t :: 0 <= t < |pcs| ==> HandOne(spans, pcs[t])
  }

  ghost predicate SlotsKept(cfg: Config, central: seq<Central>)
    requires |cfg.move| == cfg.classes
  {
    forall c, i :: 0 <= c < |central| && c < cfg.classes && 0 <= i < central[c].used && i < |central[c].slots|
                   ==> |central[c].slots[i]| == cfg.move[c]
  }

  /** What a place holds is recorded as being there, and is there once. */
  ghost predicate Listed(s: State, p: Place) {
    && Once(s.Contents(p))
    && forall o :: o in s.Contents(p) ==> o in s.place && s.place[o] == p
  }

  /** What is recorded as being somewhere is there. */
  ghost predicate Found(s: State, o: Obj) {
    o in s.place && !s.place[o].InApp? ==> o in s.Contents(s.place[o])
  }

  /** Every object is in exactly one place. */
  ghost predicate Owned(s: State) {
    && (forall p {:trigger Listed(s, p)} :: Listed(s, p))
    && (forall o {:trigger Found(s, o)} :: Found(s, o))
  }

  ghost predicate Inv(cfg: Config, s: State) {
    && Shaped(cfg, s) && !s.fault
    && LocksKept(s.pcs, s.locks)
    && CapacityKept(cfg, s.pcs, s.central)
    && SlotsKept(cfg, s.central)
    && SpansKept(cfg, s.spans, s.taken)
    && ListsKept(s.spans, s.central)
    && CountsKept(cfg, s.spans, s.central)
    && TakenKept(cfg, s.taken)
    && PrivateKept(s.pcs, s.spans, s.taken)
    && UnusedKept(s.pcs, s.locks, s.central, s.spans)
    && AllKept(cfg, s.spans, s.place)
    && ClassKept(s.spans, s.place)
    && HandsKept(s.spans, s.pcs)
    && Owned(s)
  }

  // ---------- moving objects ----------

  lemma Nowhere(s: State)
    ensures s.Contents(InApp) == []
  {
  }

  /** Objects xs move from place a to place b and nothing else changes place. */
  lemma Moved(s: State, s': State, xs: Chain, a: Place, b: Place)
    requires Owned(s) && a != b
    requires Once(xs) && forall o :: o in xs ==> o in s.place && s.place[o] == a
    requires a.InApp? || (Once(s'.Contents(a)) && forall o :: o in s'.Contents(a) <==> o in s.Contents(a) && o !in xs)
    requires b.InApp? || s'.Contents(b) == xs + s.Contents(b)
    requires forall p :: p != a && p != b ==> s'.Contents(p) == s.Contents(p)
    requires s'.place == s.Placed(xs, b).place
    ensures Owned(s')
  {
    hide State.Contents;
    Nowhere(s');
    assert Listed(s, a) && Listed(s, b);
    forall p ensures Listed(s', p) {
      assert Listed(s, p);
      if p == b && !b.InApp? {
        OnceJoin(xs, s.Contents(b));
      }
    }
    forall o ensures Found(s', o) {
      assert Found(s, o);
    }
  }

  /** No object changes place. */
  lemma Still(s: State, s': State)
    requires Owned(s) && s'.place == s.place
    requires forall p :: s'.Contents(p) == s.Contents(p)
    ensures Owned(s')
  {
    hide State.Contents;
    forall p ensures Listed(s', p) { assert Listed(s, p); }
    forall o ensures Found(s', o) { assert Found(s, o); }
  }

  // ---------- one aspect of a step at a time ----------

  lemma LocksStay(pcs: seq<Pc>, locks: seq<Option<nat>>, t: nat, q: Pc)
    requires LocksKept(pcs, locks) && t < |pcs| && Holds(q) == Holds(pcs[t])
    ensures LocksKept(pcs[t := q], locks)
  {
  }

  lemma LockLeft(pcs: seq<Pc>, locks: seq<Option<nat>>, t: nat, q: Pc, l: nat)
    requires LocksKept(pcs, locks) && t < |pcs| && Holds(pcs[t]) == Some(l) && Holds(q) == None
    ensures l < |locks| && LocksKept(pcs[t := q], locks[l := None])
  {
  }

  lemma LockTaken(pcs: seq<Pc>, locks: seq<Option<nat>>, t: nat, q: Pc, l: nat)
    requires LocksKept(pcs, locks) && t < |pcs| && Holds(pcs[t]) == None && Holds(q) == Some(l)
    requires l < |locks| && locks[l] == None
    ensures LocksKept(pcs[t := q], locks[l := Some(t)])
  {
  }

  lemma CapacityMoved(cfg: Config, pcs: seq<Pc>, central: seq<Central>, t: nat, q: Pc, c: nat, f: Central)
    requires CapacityKept(cfg, pcs, central) && t < |pcs| && c < |central| && Sound(f)
    requires Token(q) + f.cache == Token(pcs[t]) + central[c].cache
    ensures CapacityKept(cfg, pcs[t := q], central[c := f])
  {
    TokensUpdate(pcs, t, q);
    CachesUpdate(central, c, f);
  }

  lemma CapacityStays(cfg: Config, pcs: seq<Pc>, central: seq<Central>, t: nat, q: Pc)
    requires CapacityKept(cfg, pcs, central) && t < |pcs| && Token(q) == Token(pcs[t])
    ensures CapacityKept(cfg, pcs[t := q], central)
  {
    TokensUpdate(pcs, t, q);
  }

  /** A transfer cache never has more room than there are slots. */
  lemma CapacityLimits(cfg: Config, pcs: seq<Pc>, central: seq<Central>, t: nat, c: nat)
    requires CapacityKept(cfg, pcs, central) && t < |pcs| && c < |central|
    ensures 0 <= central[c].used <= central[c].cache <= cfg.classes - Token(pcs[t])
  {
    CachesBound(central, c);
    TokensBound(pcs, t);
    assert Sound(central[c]);
  }

  /** Spans, leases and the lists of spans are as before. */
  ghost predicate SpansSame(s: State, s': State) {
    && s'.spans == s.spans && s'.taken == s.taken && s'.place.Keys == s.place.Keys && s'.fault == s.fault
    && |s'.central| == |s.central|
    && forall c :: 0 <= c < |s.central| ==>
         s'.central[c].nonempty == s.central[c].nonempty && s'.central[c].counter == s.central[c].counter
  }

  /** A thread that holds no span of its own after the step, or the same as before. */
  ghost predicate QuietMove(s: State, t: nat, q: Pc)
    requires t < |s.pcs|
  {
    && Private(q) == Private(s.pcs[t])
    && PrivateOne(q, s.spans, s.taken)
    && HandOne(s.spans, q)
    && (s.pcs[t].Fetch? && s.pcs[t].out == [] && s.pcs[t].c < |s.central| ==> s.central[s.pcs[t].c].nonempty == [])
  }

  lemma ListsSame(s: State, s': State)
    requires SpansSame(s, s') && ListsKept(s.spans, s.central)
    ensures ListsKept(s'.spans, s'.central)
  {
    hide ListKept;
    forall c | 0 <= c < |s'.central| ensures ListKept(s'.spans, s'.central[c].nonempty, c) {
      assert ListKept(s.spans, s.central[c].nonempty, c);
    }
  }

  lemma UnusedSame(s: State, s': State, t: nat, q: Pc)
    requires SpansSame(s, s') && t < |s.pcs| && s'.pcs == s.pcs[t := q]
    requires UnusedKept(s.pcs, s.locks, s.central, s.spans)
    requires LocksKept(s.pcs, s.locks) && LocksKept(s'.pcs, s'.locks)
    requires s.pcs[t].Fetch? && s.pcs[t].out == [] && s.pcs[t].c < |s.central| ==> s.central[s.pcs[t].c].nonempty == []
    ensures UnusedKept(s'.pcs, s'.locks, s'.central, s'.spans)
  {
    hide LocksKept, AboutToUse;
    forall sp | sp in s'.spans && s'.spans[sp].refcount == 0
      ensures AboutToUse(s'.pcs, s'.locks, s'.central, s'.spans[sp].cl, sp)
    {
      assert AboutToUse(s.pcs, s.locks, s.central, s.spans[sp].cl, sp);
      AboutStill(s, s', t, q, s.spans[sp].cl, sp);
    }
  }

  lemma HolderIs(pcs: seq<Pc>, locks: seq<Option<nat>>, c: nat)
    requires LocksKept(pcs, locks) && c < |locks| && locks[c].Some?
    ensures locks[c].value < |pcs| && Holds(pcs[locks[c].value]) == Some(c)
  {
  }

  lemma HeldBy(pcs: seq<Pc>, locks: seq<Option<nat>>, t: nat, c: nat)
    requires LocksKept(pcs, locks) && t < |pcs| && Holds(pcs[t]) == Some(c)
    ensures c < |locks| && locks[c] == Some(t)
  {
  }

  lemma AboutStill(s: State, s': State, t: nat, q: Pc, c: nat, sp: nat)
    requires SpansSame(s, s') && t < |s.pcs| && s'.pcs == s.pcs[t := q]
    requires LocksKept(s.pcs, s.locks) && LocksKept(s'.pcs, s'.locks)
    requires s.pcs[t].Fetch? && s.pcs[t].out == [] && s.pcs[t].c < |s.central| ==> s.central[s.pcs[t].c].nonempty == []
    requires AboutToUse(s.pcs, s.locks, s.central, c, sp)
    ensures AboutToUse(s'.pcs, s'.locks, s'.central, c, sp)
  {
    hide LocksKept;
    HolderIs(s.pcs, s.locks, c);
    HeldBy(s'.pcs, s'.locks, s.locks[c].value, c);
  }

  lemma PrivateSame(pcs: seq<Pc>, spans: map<nat, SpanRec>, taken: map<nat, Lease>, t: nat, q: Pc)
    requires PrivateKept(pcs, spans, taken) && t < |pcs| && PrivateOne(q, spans, taken)
    requires Private(q) == Private(pcs[t])
    ensures PrivateKept(pcs[t := q], spans, taken)
  {
    forall sp | Borrowed(pcs, sp) ensures Borrowed(pcs[t := q], sp) { BorrowedStill(pcs, t, q, sp); }
  }

  /** A span in transit stays so when another thread, or one that keeps it, moves. */
  lemma BorrowedStill(pcs: seq<Pc>, t: nat, q: Pc, sp: nat)
    requires Borrowed(pcs, sp) && t < |pcs| && (Private(pcs[t]) != Some(sp) || Private(q) == Some(sp))
    ensures Borrowed(pcs[t := q], sp)
  {
    var u :| 0 <= u < |pcs| && Private(pcs[u]) == Some(sp);
    assert Private(pcs[t := q][u]) == Some(sp);
  }

  /** A step that does not touch spans keeps everything, given what it keeps of the rest. */
  lemma Quiet(cfg: Config, s: State, s': State, t: nat, q: Pc)
    requires Inv(cfg, s) && t < |s.pcs| && s'.pcs == s.pcs[t := q]
    requires SpansSame(s, s') && QuietMove(s, t, q)
    requires Shaped(cfg, s') && LocksKept(s'.pcs, s'.locks) && CapacityKept(cfg, s'.pcs, s'.central)
    requires SlotsKept(cfg, s'.central) && ClassKept(s'.spans, s'.place) && Owned(s')
    ensures Inv(cfg, s')
  {
    hide Shaped, LocksKept, CapacityKept, SlotsKept, ClassKept, Owned, SpansKept, ListsKept, TakenKept;
    hide UnusedKept, PrivateKept, PrivateOne, HandOne, FreeBelow;
    assert Inv(cfg, s);
    ListsSame(s, s');
    PrivateSame(s.pcs, s.spans, s.taken, t, q);
    UnusedSame(s, s', t, q);
    assert |cfg.cap| == cfg.classes && |cfg.move| == cfg.classes by { Lengths(cfg, s); }
  }

  lemma Lengths(cfg: Config, s: State)
    requires Shaped(cfg, s)
    ensures cfg.Valid() && |s.central| == |s.locks| == cfg.classes && |s.lists| == |s.pcs|
    ensures forall t :: 0 <= t < |s.pcs| ==> PcShaped(cfg, s.pcs[t]) && |s.lists[t]| == cfg.classes
    ensures forall c :: 0 <= c < cfg.classes ==> |s.central[c].slots| == cfg.classes
  {
  }

  lemma Parts(cfg: Config, s: State)
    requires Inv(cfg, s)
    ensures Shaped(cfg, s) && CapacityKept(cfg, s.pcs, s.central) && SlotsKept(cfg, s.central)
    ensures TakenKept(cfg, s.taken)
    ensures SpansKept(cfg, s.spans, s.taken) && ListsKept(s.spans, s.central) && CountsKept(cfg, s.spans, s.central)
    ensures LocksKept(s.pcs, s.locks) && UnusedKept(s.pcs, s.locks, s.central, s.spans)
    ensures PrivateKept(s.pcs, s.spans, s.taken)
    ensures AllKept(cfg, s.spans, s.place) && ClassKept(s.spans, s.place) && HandsKept(s.spans, s.pcs) && Owned(s)
    ensures !s.fault
  {
  }

  lemma PositionHere(cfg: Config, s: State, t: nat)
    requires Inv(cfg, s) && t < |s.pcs|
    ensures PcShaped(cfg, s.pcs[t]) && HandOne(s.spans, s.pcs[t])
  {
  }
}
