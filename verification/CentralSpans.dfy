/** Steps that move objects between threads and spans, and spans in and out: what they keep. */
module CentralSpans {
  import opened Basics
  import opened CentralState
  import opened CentralSteps
  import opened CentralSafety
  import opened CentralTransfer

  // ---------- counting the objects of one span ----------

  ghost function Elements(xs: Chain): set<Obj> {
    set o | o in xs
  }

  lemma {:induction false} OnceCounts(xs: Chain)
    requires Once(xs)
    ensures |Elements(xs)| == |xs|
  {
    if xs != [] {
      var last := |xs| - 1;
      OnceCounts(xs[..last]);
      assert Elements(xs) == Elements(xs[..last]) + {xs[last]};
    }
  }

  ghost function Whole(sp: nat, cap: nat): set<Obj> {
    set i | 0 <= i < cap :: Obj(sp, i)
  }

  lemma {:induction false} WholeCounts(sp: nat, cap: nat)
    ensures |Whole(sp, cap)| == cap
  {
    if cap > 0 {
      WholeCounts(sp, cap - 1);
      assert Whole(sp, cap) == Whole(sp, cap - 1) + {Obj(sp, cap - 1)};
    }
  }

  lemma SubsetEqual(a: set<Obj>, b: set<Obj>)
    requires a <= b
    ensures |a| <= |b| && (|a| == |b| ==> a == b)
  {
    assert b == a + (b - a);
  }

  /** Different objects of one span are at most as many as it has, and if as many then all. */
  lemma Counted(xs: Chain, sp: nat, cap: nat)
    requires Once(xs) && forall o :: o in xs ==> o.span == sp && o.idx < cap
    ensures |xs| <= cap
    ensures |xs| == cap ==> forall o: Obj :: o.span == sp && o.idx < cap ==> o in xs
  {
    OnceCounts(xs);
    WholeCounts(sp, cap);
    SubsetEqual(Elements(xs), Whole(sp, cap));
    if |xs| == cap {
      forall o: Obj | o.span == sp && o.idx < cap ensures o in xs { assert o in Whole(sp, cap); }
    }
  }

  // ---------- one span changes ----------

  /** Only span sp differs, and it is of class c wherever it is present. */
  ghost predicate OneSpan(spans: map<nat, SpanRec>, spans': map<nat, SpanRec>, sp: nat, c: nat) {
    && (forall x :: x != sp ==> (x in spans <==> x in spans'))
    && (forall x :: x != sp && x in spans ==> spans'[x] == spans[x])
    && (sp in spans ==> spans[sp].cl == c)
    && (sp in spans' ==> spans'[sp].cl == c)
  }

  ghost function FreeAt(spans: map<nat, SpanRec>, c: nat, x: nat): nat {
    if x in spans && spans[x].cl == c then |spans[x].chain| else 0
  }

  lemma {:induction false} FreeBelowChange(spans: map<nat, SpanRec>, spans': map<nat, SpanRec>, d: nat, n: nat, sp: nat,
                                           c: nat)
    requires OneSpan(spans, spans', sp, c)
    ensures FreeBelow(spans', d, n)
         == FreeBelow(spans, d, n) + if sp < n then FreeAt(spans', d, sp) - FreeAt(spans, d, sp) else 0
  {
    if n > 0 { FreeBelowChange(spans, spans', d, n - 1, sp, c); }
  }

  lemma CountsChange(cfg: Config, spans: map<nat, SpanRec>, spans': map<nat, SpanRec>, central: seq<Central>, sp: nat,
                     c: nat, f: Central)
    requires CountsKept(cfg, spans, central) && OneSpan(spans, spans', sp, c) && c < |central| && sp < cfg.top
    requires f.counter == central[c].counter + FreeAt(spans', c, sp) - FreeAt(spans, c, sp)
    ensures CountsKept(cfg, spans', central[c := f])
  {
    forall d | 0 <= d < |central| ensures central[c := f][d].counter == FreeBelow(spans', d, cfg.top) {
      FreeBelowChange(spans, spans', d, cfg.top, sp, c);
    }
  }

  lemma ListsChange(spans: map<nat, SpanRec>, spans': map<nat, SpanRec>, central: seq<Central>, sp: nat, c: nat,
                    f: Central)
    requires ListsKept(spans, central) && OneSpan(spans, spans', sp, c) && c < |central|
    requires ListKept(spans', f.nonempty, c)
    ensures ListsKept(spans', central[c := f])
  {
    var central' := central[c := f];
    forall d | 0 <= d < |central'| ensures ListKept(spans', central'[d].nonempty, d) {
      assert ListKept(spans, central[d].nonempty, d);
    }
  }

  lemma SpansChange(cfg: Config, spans: map<nat, SpanRec>, spans': map<nat, SpanRec>, taken: map<nat, Lease>, sp: nat,
                    c: nat)
    requires |cfg.cap| == cfg.classes && SpansKept(cfg, spans, taken) && OneSpan(spans, spans', sp, c)
    requires sp in spans' ==> SpanKept(cfg, spans', taken, sp)
    ensures SpansKept(cfg, spans', taken)
  {
    forall x | x in spans' ensures SpanKept(cfg, spans', taken, x) {
      if x != sp { assert SpanKept(cfg, spans, taken, x); }
    }
  }

  lemma UnusedChange(s: State, s': State, t: nat, q: Pc, sp: nat, c: nat, f: Central)
    requires UnusedKept(s.pcs, s.locks, s.central, s.spans) && t < |s.pcs| && s'.pcs == s.pcs[t := q]
    requires LocksKept(s.pcs, s.locks) && LocksKept(s'.pcs, s'.locks) && Holds(s.pcs[t]) == Some(c)
    requires OneSpan(s.spans, s'.spans, sp, c) && c < |s.central|
    requires s'.central == s.central[c := f]
    requires s.pcs[t].Fetch? && s.pcs[t].out == [] ==> s.central[c].nonempty != [] && s.central[c].nonempty[0] == sp
    requires sp in s'.spans ==> s'.spans[sp].refcount != 0 || AboutToUse(s'.pcs, s'.locks, s'.central, c, sp)
    ensures UnusedKept(s'.pcs, s'.locks, s'.central, s'.spans)
  {
    forall x | x in s'.spans && s'.spans[x].refcount == 0
      ensures AboutToUse(s'.pcs, s'.locks, s'.central, s'.spans[x].cl, x)
    {
      if x != sp {
        var d := s.spans[x].cl;
        assert AboutToUse(s.pcs, s.locks, s.central, d, x);
        var h := s.locks[d].value;
        assert Holds(s.pcs[h]) == Some(d);
        assert h != t;
        assert Holds(s'.pcs[h]) == Some(d);
      }
    }
  }

  /** Objects in hand keep their class when their spans do. */
  lemma HandChange(spans: map<nat, SpanRec>, spans': map<nat, SpanRec>, pc: Pc)
    requires HandOne(spans, pc)
    requires forall o :: o in Hand(pc) && o.span in spans ==> o.span in spans' && spans'[o.span].cl == spans[o.span].cl
    ensures HandOne(spans', pc)
  {
  }

  lemma HandsChange(spans: map<nat, SpanRec>, spans': map<nat, SpanRec>, pcs: seq<Pc>, t: nat, q: Pc)
    requires HandsKept(spans, pcs) && t < |pcs| && HandOne(spans', q)
    requires forall u, o :: 0 <= u < |pcs| && u != t && o in Hand(pcs[u]) && o.span in spans
               ==> o.span in spans' && spans'[o.span].cl == spans[o.span].cl
    ensures HandsKept(spans', pcs[t := q])
  {
    hide HandOne, Hand;
    var pcs' := pcs[t := q];
    forall u | 0 <= u < |pcs'| ensures HandOne(spans', pcs'[u]) {
      if u != t { assert HandOne(spans, pcs[u]); HandChange(spans, spans', pcs[u]); }
    }
  }

  // ---------- lists of spans ----------

  lemma {:induction false} WithoutMeans(xs: seq<nat>, x: nat)
    requires forall i, j :: 0 <= i < j < |xs| ==> xs[i] != xs[j]
    ensures forall y :: y in Without(xs, x) <==> y in xs && y != x
    ensures forall i, j :: 0 <= i < j < |Without(xs, x)| ==> Without(xs, x)[i] != Without(xs, x)[j]
  {
    if xs != [] && xs[0] != x {
      WithoutMeans(xs[1..], x);
      assert xs == [xs[0]] + xs[1..];
      assert Without(xs, x) == [xs[0]] + Without(xs[1..], x);
      assert xs[0] !in xs[1..];
    } else if xs != [] {
      assert xs == [x] + xs[1..];
    }
  }

  /** A thread's object in hand belongs to a listed span that has it out. */
  lemma OutOfSpan(cfg: Config, s: State, x: Obj)
    requires Inv(cfg, s) && x in s.place && s.place[x] != InChain(x.span)
    ensures x.span in s.spans && SpanKept(cfg, s.spans, s.taken, x.span)
    ensures Once(s.spans[x.span].chain) && x !in s.spans[x.span].chain && s.spans[x.span].refcount > 0
    ensures s.spans[x.span].refcount == 1 ==>
              forall o :: o in s.place && o.span == x.span ==> o == x || s.place[o] == InChain(x.span)
  {
    hide LocksKept, CapacityKept, SlotsKept, ListsKept, CountsKept, TakenKept, UnusedKept, PrivateKept;
    hide HandsKept, FreeBelow;
    Lengths(cfg, s);
    var sp := x.span;
    assert SpanKept(cfg, s.spans, s.taken, sp);
    ListedAt(s, InChain(sp));
    var xs, cap := s.spans[sp].chain, cfg.cap[s.spans[sp].cl];
    assert s.Contents(InChain(sp)) == xs;
    assert forall o :: o in xs ==> o in s.place && s.place[o] == InChain(sp);
    assert x !in xs;
    OnceJoin([x], xs);
    assert forall o :: o in xs ==> o.span == sp && o.idx < cap;
    Counted([x] + xs, sp, cap);
    assert |[x] + xs| == 1 + |xs|;
  }

  /** What the steps that change one span have in common. */
  ghost predicate SpanStep(cfg: Config, s: State, s': State, t: nat, q: Pc, sp: nat, c: nat, f: Central)
  {
    && t < |s.pcs| && c < |s.central| && s'.pcs == s.pcs[t := q] && s'.central == s.central[c := f]
    && s'.lists == s.lists && s'.taken == s.taken && s'.fault == s.fault && |s'.locks| == |s.locks|
    && f.used == s.central[c].used && f.cache == s.central[c].cache && f.slots == s.central[c].slots
    && Holds(s.pcs[t]) == Some(c) && Token(q) == Token(s.pcs[t])
    && OneSpan(s.spans, s'.spans, sp, c) && (sp in s.taken)
    && f.counter == s.central[c].counter + FreeAt(s'.spans, c, sp) - FreeAt(s.spans, c, sp)
  }

  /** Such a step keeps capacity, counters, lists and the records of spans. */
  lemma SpanStepBooks(cfg: Config, s: State, s': State, t: nat, q: Pc, sp: nat, c: nat, f: Central)
    requires Inv(cfg, s) && SpanStep(cfg, s, s', t, q, sp, c, f) && PcShaped(cfg, q)
    requires ListKept(s'.spans, f.nonempty, c)
    requires sp in s'.spans ==> |cfg.cap| == cfg.classes && SpanKept(cfg, s'.spans, s.taken, sp)
    ensures Shaped(cfg, s') && CapacityKept(cfg, s'.pcs, s'.central) && SlotsKept(cfg, s'.central)
    ensures SpansKept(cfg, s'.spans, s'.taken) && ListsKept(s'.spans, s'.central)
    ensures CountsKept(cfg, s'.spans, s'.central)
  {
    hide LocksKept, ClassKept, Owned, UnusedKept, PrivateKept, HandsKept, AllKept, FreeBelow, SpanKept;
    hide ListKept, PcShaped, Caches, Tokens, Inv;
    assert Shaped(cfg, s) && CapacityKept(cfg, s.pcs, s.central) && SlotsKept(cfg, s.central) && TakenKept(cfg, s.taken)
           && SpansKept(cfg, s.spans, s.taken) && ListsKept(s.spans, s.central)
           && CountsKept(cfg, s.spans, s.central) by {
      Parts(cfg, s);
    }
    Lengths(cfg, s);
    assert Sound(s.central[c]);
    CapacityMoved(cfg, s.pcs, s.central, t, q, c, f);
    SlotsChange(cfg, s.central, c, f);
    SpansChange(cfg, s.spans, s'.spans, s.taken, sp, c);
    ListsChange(s.spans, s'.spans, s.central, sp, c, f);
    assert sp < cfg.top;
    CountsChange(cfg, s.spans, s'.spans, s.central, sp, c, f);
  }

  lemma Assemble(cfg: Config, s: State)
    requires Shaped(cfg, s) && !s.fault && LocksKept(s.pcs, s.locks)
    requires CapacityKept(cfg, s.pcs, s.central) && SlotsKept(cfg, s.central) && SpansKept(cfg, s.spans, s.taken)
    requires ListsKept(s.spans, s.central) && CountsKept(cfg, s.spans, s.central) && TakenKept(cfg, s.taken)
    requires PrivateKept(s.pcs, s.spans, s.taken) && UnusedKept(s.pcs, s.locks, s.central, s.spans)
    requires AllKept(cfg, s.spans, s.place) && ClassKept(s.spans, s.place) && HandsKept(s.spans, s.pcs) && Owned(s)
    ensures Inv(cfg, s)
  {
  }

  lemma PrivateChange(pcs: seq<Pc>, spans: map<nat, SpanRec>, spans': map<nat, SpanRec>, taken: map<nat, Lease>,
                      t: nat, q: Pc, sp: nat, c: nat)
    requires PrivateKept(pcs, spans, taken) && OneSpan(spans, spans', sp, c) && t < |pcs|
    requires sp in spans || Private(pcs[t]) == Some(sp)
    requires PrivateOne(q, spans', taken) && (Private(q) == None || Private(q) == Some(sp))
    requires Private(pcs[t]) == None || Private(pcs[t]) == Some(sp)
    requires sp in spans' || Private(q) == Some(sp)
    ensures PrivateKept(pcs[t := q], spans', taken)
  {
    assert Private(pcs[t := q][t]) == Private(q);
    forall x | x != sp && Borrowed(pcs, x) ensures Borrowed(pcs[t := q], x) { BorrowedStill(pcs, t, q, x); }
    forall u | 0 <= u < |pcs| && u != t ensures Private(pcs[u]) != Some(sp) && PrivateOne(pcs[u], spans', taken) {
      assert PrivateOne(pcs[u], spans, taken);
    }
  }

  lemma AllSame(cfg: Config, spans: map<nat, SpanRec>, spans': map<nat, SpanRec>, place: map<Obj, Place>,
                place': map<Obj, Place>, sp: nat, c: nat)
    requires |cfg.cap| == cfg.classes && AllKept(cfg, spans, place) && OneSpan(spans, spans', sp, c)
    requires sp in spans && sp in spans' && place.Keys == place'.Keys
    ensures AllKept(cfg, spans', place')
  {
    forall o
      ensures o in place' <==> o.span in spans' && spans'[o.span].cl < cfg.classes && o.idx < cfg.cap[spans'[o.span].cl]
    {
      assert o in place <==> o in place';
    }
  }

  lemma ClassSame(spans: map<nat, SpanRec>, spans': map<nat, SpanRec>, place: map<Obj, Place>, sp: nat, c: nat)
    requires ClassKept(spans, place) && OneSpan(spans, spans', sp, c)
    requires sp in spans' || forall o :: o in place ==> o.span != sp
    ensures ClassKept(spans', place)
  {
  }

  lemma ListPushed(spans: map<nat, SpanRec>, spans': map<nat, SpanRec>, nonempty: seq<nat>, l: nat, sp: nat)
    requires ListKept(spans, nonempty, l) && OneSpan(spans, spans', sp, l)
    requires sp in spans' && spans'[sp].chain != []
    ensures ListKept(spans', if sp !in spans || spans[sp].chain == [] then [sp] + nonempty else nonempty, l)
  {
  }

  // ---------- ReleaseToSpans, with more objects out ----------

  /** The object about to be released is out, and of the class of the lock. */
  lemma ReleaseHere(cfg: Config, s: State, t: nat, l: nat, rest: Chain, k: Cont)
    requires Inv(cfg, s) && t < |s.pcs| && s.pcs[t] == Release(l, rest, k) && rest != []
    ensures l < cfg.classes && PcShaped(cfg, s.pcs[t]) && HandOne(s.spans, s.pcs[t])
    ensures rest[0] in s.place && s.place[rest[0]] == InHand(t)
    ensures rest[0].span in s.spans && s.spans[rest[0].span].cl == l
    ensures HandOne(s.spans, Release(l, rest[1..], k)) && Once(rest + ContHand(k))
    ensures rest[1..] + ContHand(k) == (rest + ContHand(k))[1..]
  {
    hide Inv, PcShaped, HandOne, Owned, Hand;
    PositionHere(cfg, s, t);
    Parts(cfg, s);
    HandReleased(l, rest, k);
    InHandHere(s, t, rest + ContHand(k));
    ReleaseFirst(cfg, s.spans, l, rest, k);
    assert rest[0] in rest && rest[0] in rest + ContHand(k);
  }

  lemma ReleaseFirst(cfg: Config, spans: map<nat, SpanRec>, l: nat, rest: Chain, k: Cont)
    requires PcShaped(cfg, Release(l, rest, k)) && HandOne(spans, Release(l, rest, k)) && rest != []
    ensures l < cfg.classes && HandOne(spans, Release(l, rest[1..], k))
    ensures rest[0].span in spans && spans[rest[0].span].cl == l
    ensures rest[1..] + ContHand(k) == (rest + ContHand(k))[1..]
  {
    assert rest[0] in rest;
  }

  lemma HandReleased(l: nat, rest: Chain, k: Cont)
    requires rest != []
    ensures Hand(Release(l, rest, k)) == rest + ContHand(k)
    ensures Hand(Release(l, rest[1..], k)) == (rest + ContHand(k))[1..]
    ensures forall sp :: Hand(Gone(l, rest[1..], k, sp)) == (rest + ContHand(k))[1..]
  {
    assert rest[1..] + ContHand(k) == (rest + ContHand(k))[1..];
  }

  lemma ReturnOwned(s: State, s': State, t: nat, l: nat, rest: Chain, k: Cont, f: Central, r: SpanRec)
    requires Owned(s) && t < |s.pcs| && s.pcs[t] == Release(l, rest, k) && rest != []
    requires rest[0].span in s.spans && s'.pcs == s.pcs[t := Release(l, rest[1..], k)] && s'.lists == s.lists
    requires l < |s.central| && s'.central == s.central[l := f] && f.used == s.central[l].used
    requires f.slots == s.central[l].slots
    requires s'.spans == s.spans[rest[0].span := r] && r.chain == [rest[0]] + s.spans[rest[0].span].chain
    requires s'.place == s.Placed([rest[0]], InChain(rest[0].span)).place
    ensures Owned(s')
  {
    hide Owned, Hand, ContHand, Once;
    var xs := rest + ContHand(k);
    assert Hand(s.pcs[t]) == xs && Hand(Release(l, rest[1..], k)) == xs[1..] by { HandReleased(l, rest, k); }
    InHandHere(s, t, xs);
    OnceParts(xs, 1);
    assert rest[0] in xs && xs[..1] == [rest[0]];
    assert Once([rest[0]]);
    Moved(s, s', [rest[0]], InHand(t), InChain(rest[0].span));
  }

  /** The span gets its object back. */
  function Returned(s: State, t: nat, l: nat, rest: Chain, k: Cont, f: Central, r: SpanRec): State
    requires t < |s.pcs| && l < |s.central| && rest != []
  {
    s.WithCentral(l, f).To(t, Release(l, rest[1..], k)).Placed([rest[0]], InChain(rest[0].span))
      .(spans := s.spans[rest[0].span := r])
  }

  lemma ReturnHands(cfg: Config, s: State, t: nat, l: nat, rest: Chain, k: Cont, f: Central, r: SpanRec)
    requires Inv(cfg, s) && t < |s.pcs| && s.pcs[t] == Release(l, rest, k) && l < |s.central| && rest != []
    requires rest[0].span in s.spans && r.cl == l && r.chain == [rest[0]] + s.spans[rest[0].span].chain
    requires f.used == s.central[l].used && f.slots == s.central[l].slots
    ensures HandsKept(Returned(s, t, l, rest, k, f, r).spans, Returned(s, t, l, rest, k, f, r).pcs)
  {
    hide LocksKept, CapacityKept, SlotsKept, ClassKept, Owned, SpansKept, ListsKept, TakenKept, UnusedKept;
    hide PrivateKept, HandsKept, AllKept, CountsKept, Inv, FreeBelow, PcShaped, HandOne, ListKept, Once, CapOf;
    hide Hand;
    Parts(cfg, s);
    Lengths(cfg, s);
    ReleaseHere(cfg, s, t, l, rest, k);
    var s', q := Returned(s, t, l, rest, k, f, r), Release(l, rest[1..], k);
    HandChange(s.spans, s'.spans, q);
    HandsChange(s.spans, s'.spans, s.pcs, t, q);
  }

  lemma ReturnObjects(cfg: Config, s: State, t: nat, l: nat, rest: Chain, k: Cont, f: Central, r: SpanRec)
    requires Inv(cfg, s) && t < |s.pcs| && s.pcs[t] == Release(l, rest, k) && l < |s.central| && rest != []
    requires rest[0].span in s.spans && r.cl == l && r.chain == [rest[0]] + s.spans[rest[0].span].chain
    requires f.used == s.central[l].used && f.slots == s.central[l].slots
    ensures var s' := Returned(s, t, l, rest, k, f, r);
            |cfg.cap| == cfg.classes && AllKept(cfg, s'.spans, s'.place) && ClassKept(s'.spans, s'.place)
            && HandsKept(s'.spans, s'.pcs) && Owned(s')
  {
    hide LocksKept, CapacityKept, SlotsKept, ClassKept, Owned, SpansKept, ListsKept, TakenKept, UnusedKept;
    hide PrivateKept, HandsKept, AllKept, CountsKept, Inv, FreeBelow, PcShaped, HandOne, ListKept, Once, CapOf;
    hide Hand;
    Parts(cfg, s);
    Lengths(cfg, s);
    ReleaseHere(cfg, s, t, l, rest, k);
    var s', x, sp := Returned(s, t, l, rest, k, f, r), rest[0], rest[0].span;
    ReturnHands(cfg, s, t, l, rest, k, f, r);
    AllSame(cfg, s.spans, s'.spans, s.place, s'.place, sp, l);
    ClassMoved(s, [x], InChain(sp));
    ClassSame(s.spans, s'.spans, s'.place, sp, l);
    ReturnOwned(s, s', t, l, rest, k, f, r);
  }

  lemma ReturnBooks(cfg: Config, s: State, t: nat, l: nat, rest: Chain, k: Cont, f: Central, r: SpanRec)
    requires Inv(cfg, s) && t < |s.pcs| && s.pcs[t] == Release(l, rest, k) && l < |s.central| && rest != []
    requires rest[0].span in s.spans && s.spans[rest[0].span].refcount > 1 && s.spans[rest[0].span].cl == l
    requires r
         == s.spans[rest[0].span].(chain := [rest[0]] + s.spans[rest[0].span].chain,
                                   refcount := s.spans[rest[0].span].refcount - 1)
    requires f == s.central[l].(counter := s.central[l].counter + 1,
               nonempty := if s.spans[rest[0].span].chain == [] then [rest[0].span] + s.central[l].nonempty
                           else s.central[l].nonempty)
    ensures BooksKept(cfg, Returned(s, t, l, rest, k, f, r))
  {
    hide LocksKept, CapacityKept, SlotsKept, ClassKept, Owned, SpansKept, ListsKept, TakenKept, UnusedKept;
    hide PrivateKept, HandsKept, AllKept, CountsKept, Inv, FreeBelow, PcShaped, HandOne, ListKept, Once, CapOf;
    hide Hand;
    Parts(cfg, s);
    Lengths(cfg, s);
    ReleaseHere(cfg, s, t, l, rest, k);
    var s', x, sp, q := Returned(s, t, l, rest, k, f, r), rest[0], rest[0].span, Release(l, rest[1..], k);
    OutOfSpan(cfg, s, x);
    ListPushed(s.spans, s'.spans, s.central[l].nonempty, l, sp);
    ReleaseShaped(cfg, l, rest, rest[1..], k);
    SpanStepBooks(cfg, s, s', t, q, sp, l, f);
    LocksStay(s.pcs, s.locks, t, q);
    UnusedChange(s, s', t, q, sp, l, f);
    PrivateChange(s.pcs, s.spans, s'.spans, s.taken, t, q, sp, l);
  }

  /** The part of the invariant that is not about where objects are. */
  ghost predicate BooksKept(cfg: Config, s: State) {
    && Shaped(cfg, s) && CapacityKept(cfg, s.pcs, s.central) && SlotsKept(cfg, s.central) && TakenKept(cfg, s.taken)
    && SpansKept(cfg, s.spans, s.taken) && ListsKept(s.spans, s.central) && CountsKept(cfg, s.spans, s.central)
    && LocksKept(s.pcs, s.locks) && UnusedKept(s.pcs, s.locks, s.central, s.spans)
    && PrivateKept(s.pcs, s.spans, s.taken)
  }

  lemma ReturnKeeps(cfg: Config, s: State, t: nat, l: nat, rest: Chain, k: Cont)
    requires Inv(cfg, s) && t < |s.pcs| && s.pcs[t] == Release(l, rest, k) && l < cfg.classes && rest != []
    requires rest[0].span in s.spans && s.spans[rest[0].span].refcount > 1
    ensures Inv(cfg, ReleaseStep(cfg, s, t, l, rest, k))
  {
    hide LocksKept, CapacityKept, SlotsKept, ClassKept, Owned, SpansKept, ListsKept, TakenKept, UnusedKept;
    hide PrivateKept, HandsKept, AllKept, CountsKept, Inv, FreeBelow, PcShaped, HandOne, ListKept, Once, CapOf;
    hide Hand;
    Parts(cfg, s);
    Lengths(cfg, s);
    ReleaseHere(cfg, s, t, l, rest, k);
    var s', x, sp := ReleaseStep(cfg, s, t, l, rest, k), rest[0], rest[0].span;
    var r := s.spans[sp];
    var nonempty := if r.chain == [] then [sp] + s.central[l].nonempty else s.central[l].nonempty;
    var f := s.central[l].(counter := s.central[l].counter + 1, nonempty := nonempty);
    var r' := r.(chain := [x] + r.chain, refcount := r.refcount - 1);
    assert s' == Returned(s, t, l, rest, k, f, r');
    hide ReleaseStep, Returned;
    ReturnBooks(cfg, s, t, l, rest, k, f, r');
    ReturnObjects(cfg, s, t, l, rest, k, f, r');
    Assemble(cfg, s');
  }

  lemma ReleaseShaped(cfg: Config, l: nat, rest: Chain, rest': Chain, k: Cont)
    requires PcShaped(cfg, Release(l, rest, k))
    ensures PcShaped(cfg, Release(l, rest', k))
    ensures forall sp :: PcShaped(cfg, Gone(l, rest', k, sp))
  {
  }

  // ---------- ReleaseToSpans of the last object that is out ----------

  lemma ListCut(spans: map<nat, SpanRec>, spans': map<nat, SpanRec>, nonempty: seq<nat>, l: nat, sp: nat)
    requires ListKept(spans, nonempty, l) && OneSpan(spans, spans', sp, l)
    requires sp in spans && sp !in spans'
    ensures ListKept(spans', Without(if spans[sp].chain == [] then [sp] + nonempty else nonempty, sp), l)
  {
    WithoutMeans(if spans[sp].chain == [] then [sp] + nonempty else nonempty, sp);
  }

  /** The span leaves the lists. */
  function Departed(s: State, t: nat, l: nat, rest: Chain, k: Cont, sp: nat, f: Central): State
    requires t < |s.pcs| && l < |s.central| && l < |s.locks| && rest != []
  {
    s.WithCentral(l, f).To(t, Gone(l, rest[1..], k, sp)).Unlocked(l)
      .(spans := s.spans - {sp}, place := map o | o in s.place && o.span != sp :: s.place[o])
  }

  /** All objects of the span of x but x itself are on its chain. */
  ghost predicate OnlyOut(s: State, x: Obj) {
    forall o :: o in s.place && o.span == x.span ==> o == x || s.place[o] == InChain(x.span)
  }

  lemma DepartOwned(s: State, s': State, t: nat, l: nat, rest: Chain, k: Cont, f: Central)
    requires Owned(s) && t < |s.pcs| && s.pcs[t] == Release(l, rest, k) && rest != [] && OnlyOut(s, rest[0])
    requires l < |s.central| && f.used == s.central[l].used && f.slots == s.central[l].slots && l < |s.locks|
    requires s' == Departed(s, t, l, rest, k, rest[0].span, f)
    requires rest[0] in s.place && s.place[rest[0]] == InHand(t) && ClassKept(s.spans, s.place)
    ensures Owned(s')
  {
    hide Owned, Hand, ContHand, Once;
    var xs, x := rest + ContHand(k), rest[0];
    HandReleased(l, rest, k);
    InHandHere(s, t, xs);
    OnceParts(xs, 1);
    assert x in xs && xs[..1] == [x] && x in xs[..1];
    forall p ensures Listed(s', p) {
      ListedAt(s, p);
      assert Once<Obj>([]) by { OnceNone<Obj>(); }
      if p == InChain(x.span) {
        assert s'.Contents(p) == [];
      } else if p == InHand(t) {
        assert s'.Contents(p) == xs[1..];
      } else {
        assert s'.Contents(p) == s.Contents(p);
      }
      forall o | o in s'.Contents(p) ensures o in s'.place && s'.place[o] == p {
        assert o in s.Contents(p) && o != x;
      }
    }
    forall o ensures Found(s', o) {
      FoundAt(s, o);
      if o in s'.place && s.place[o] == InHand(t) {
        assert s'.Contents(InHand(t)) == xs[1..] && s.Contents(InHand(t)) == xs;
      }
      if o in s'.place && s.place[o] != InHand(t) && !s.place[o].InApp? {
        assert s.place[o] != InChain(x.span);
        assert s'.Contents(s.place[o]) == s.Contents(s.place[o]);
      }
    }
    OwnedSo(s');
  }

  lemma FoundAt(s: State, o: Obj)
    requires Owned(s)
    ensures Found(s, o)
  {
  }

  lemma OwnedSo(s: State)
    requires (forall p {:trigger Listed(s, p)} :: Listed(s, p)) && (forall o {:trigger Found(s, o)} :: Found(s, o))
    ensures Owned(s)
  {
  }

  lemma DepartObjects(cfg: Config, s: State, t: nat, l: nat, rest: Chain, k: Cont, f: Central)
    requires Inv(cfg, s) && t < |s.pcs| && s.pcs[t] == Release(l, rest, k) && l < |s.central| && l < |s.locks|
    requires rest != []
    requires OnlyOut(s, rest[0])
    requires f.used == s.central[l].used && f.slots == s.central[l].slots
    ensures var s' := Departed(s, t, l, rest, k, rest[0].span, f);
            |cfg.cap| == cfg.classes && AllKept(cfg, s'.spans, s'.place) && ClassKept(s'.spans, s'.place)
            && HandsKept(s'.spans, s'.pcs) && Owned(s')
  {
    hide AllKept, ClassKept, LocksKept, CapacityKept, SlotsKept, Owned, SpansKept, ListsKept, TakenKept;
    hide UnusedKept, PrivateKept, HandsKept, CountsKept, Inv, FreeBelow, PcShaped, HandOne, ListKept, Once;
    hide CapOf, Hand;
    Parts(cfg, s);
    Lengths(cfg, s);
    ReleaseHere(cfg, s, t, l, rest, k);
    var s', sp := Departed(s, t, l, rest, k, rest[0].span, f), rest[0].span;
    DepartOwned(s, s', t, l, rest, k, f);
    WithoutSpan(cfg, s.spans, s.place, sp);
    HandReleased(l, rest, k);
    DepartHands(s, s', t, l, rest, k, sp);
  }

  /** What is said of places stays true when a span and its objects go. */
  lemma WithoutSpan(cfg: Config, spans: map<nat, SpanRec>, place: map<Obj, Place>, sp: nat)
    requires |cfg.cap| == cfg.classes && AllKept(cfg, spans, place) && ClassKept(spans, place)
    ensures var place' := map o | o in place && o.span != sp :: place[o];
            AllKept(cfg, spans - {sp}, place') && ClassKept(spans - {sp}, place')
  {
    var place' := map o | o in place && o.span != sp :: place[o];
    assert AllKept(cfg, spans - {sp}, place');
  }

  /** Nobody has an object of the span that goes. */
  lemma DepartHands(s: State, s': State, t: nat, l: nat, rest: Chain, k: Cont, sp: nat)
    requires Owned(s') && HandsKept(s.spans, s.pcs) && t < |s.pcs| && rest != [] && s.pcs[t] == Release(l, rest, k)
    requires HandOne(s.spans, Release(l, rest[1..], k)) && s'.pcs == s.pcs[t := Gone(l, rest[1..], k, sp)]
    requires s'.spans == s.spans - {sp} && forall o :: o in s'.place ==> o.span != sp
    ensures HandsKept(s'.spans, s'.pcs)
  {
    hide Owned, HandsKept, HandOne, Hand;
    var q := Gone(l, rest[1..], k, sp);
    HandReleased(l, rest, k);
    forall u, o | 0 <= u < |s'.pcs| && o in Hand(s'.pcs[u]) ensures o.span != sp {
      assert s'.Contents(InHand(u)) == Hand(s'.pcs[u]);
      ListedAt(s', InHand(u));
    }
    assert s'.pcs[t] == q && Hand(q) == Hand(Release(l, rest[1..], k));
    HandGone(s.spans, l, rest[1..], k, sp);
    HandChange(s.spans, s'.spans, q);
    forall u, o | 0 <= u < |s.pcs| && u != t && o in Hand(s.pcs[u]) ensures o.span != sp {
      assert s'.pcs[u] == s.pcs[u];
    }
    HandsChange(s.spans, s'.spans, s.pcs, t, q);
  }

  lemma HandGone(spans: map<nat, SpanRec>, l: nat, rest: Chain, k: Cont, sp: nat)
    requires HandOne(spans, Release(l, rest, k))
    ensures HandOne(spans, Gone(l, rest, k, sp))
  {
  }

  lemma DepartStep(cfg: Config, s: State, t: nat, l: nat, rest: Chain, k: Cont, f: Central)
    requires Inv(cfg, s) && t < |s.pcs| && s.pcs[t] == Release(l, rest, k) && l < |s.central| && l < |s.locks|
    requires l < |cfg.cap| && rest != []
    requires rest[0].span in s.spans && s.spans[rest[0].span].refcount == 1 && s.spans[rest[0].span].cl == l
    requires f == s.central[l].(counter := s.central[l].counter + 1 - cfg.cap[l], nonempty := Without(
               if s.spans[rest[0].span].chain == [] then [rest[0].span] + s.central[l].nonempty
               else s.central[l].nonempty, rest[0].span))
    ensures var s' := Departed(s, t, l, rest, k, rest[0].span, f);
            && SpanStep(cfg, s, s', t, Gone(l, rest[1..], k, rest[0].span), rest[0].span, l, f)
            && ListKept(s'.spans, f.nonempty, l) && PrivateOne(Gone(l, rest[1..], k, rest[0].span), s'.spans, s.taken)
  {
    hide LocksKept, CapacityKept, SlotsKept, ClassKept, Owned, SpansKept, ListsKept, TakenKept, UnusedKept;
    hide PrivateKept, HandsKept, AllKept, CountsKept, Inv, FreeBelow, PcShaped, HandOne, ListKept, Once, CapOf;
    hide Hand;
    Parts(cfg, s);
    Lengths(cfg, s);
    ReleaseHere(cfg, s, t, l, rest, k);
    OutOfSpan(cfg, s, rest[0]);
    ListCut(s.spans, Departed(s, t, l, rest, k, rest[0].span, f).spans, s.central[l].nonempty, l, rest[0].span);
  }

  lemma DepartBooks(cfg: Config, s: State, t: nat, l: nat, rest: Chain, k: Cont, f: Central)
    requires Inv(cfg, s) && t < |s.pcs| && s.pcs[t] == Release(l, rest, k) && l < |s.central| && l < |s.locks|
    requires l < |cfg.cap| && rest != []
    requires rest[0].span in s.spans && s.spans[rest[0].span].refcount == 1 && s.spans[rest[0].span].cl == l
    requires f == s.central[l].(counter := s.central[l].counter + 1 - cfg.cap[l], nonempty := Without(
               if s.spans[rest[0].span].chain == [] then [rest[0].span] + s.central[l].nonempty
               else s.central[l].nonempty, rest[0].span))
    ensures BooksKept(cfg, Departed(s, t, l, rest, k, rest[0].span, f))
  {
    hide LocksKept, CapacityKept, SlotsKept, ClassKept, Owned, SpansKept, ListsKept, TakenKept, UnusedKept;
    hide PrivateKept, HandsKept, AllKept, CountsKept, Inv, FreeBelow, PcShaped, HandOne, ListKept, Once, CapOf;
    hide Hand, PrivateOne;
    Parts(cfg, s);
    Lengths(cfg, s);
    ReleaseHere(cfg, s, t, l, rest, k);
    var sp, q := rest[0].span, Gone(l, rest[1..], k, rest[0].span);
    var s' := Departed(s, t, l, rest, k, sp, f);
    DepartStep(cfg, s, t, l, rest, k, f);
    ReleaseShaped(cfg, l, rest, rest[1..], k);
    SpanStepBooks(cfg, s, s', t, q, sp, l, f);
    LockLeft(s.pcs, s.locks, t, q, l);
    UnusedChange(s, s', t, q, sp, l, f);
    PrivateChange(s.pcs, s.spans, s'.spans, s.taken, t, q, sp, l);
  }

  lemma DepartKeeps(cfg: Config, s: State, t: nat, l: nat, rest: Chain, k: Cont)
    requires Inv(cfg, s) && t < |s.pcs| && s.pcs[t] == Release(l, rest, k) && l < cfg.classes && rest != []
    requires rest[0].span in s.spans && s.spans[rest[0].span].refcount == 1
    ensures Inv(cfg, ReleaseStep(cfg, s, t, l, rest, k))
  {
    hide LocksKept, CapacityKept, SlotsKept, ClassKept, Owned, SpansKept, ListsKept, TakenKept, UnusedKept;
    hide PrivateKept, HandsKept, AllKept, CountsKept, Inv, FreeBelow, PcShaped, HandOne, ListKept, Once, CapOf;
    hide Hand;
    Parts(cfg, s);
    Lengths(cfg, s);
    ReleaseHere(cfg, s, t, l, rest, k);
    var s', x, sp := ReleaseStep(cfg, s, t, l, rest, k), rest[0], rest[0].span;
    OutOfSpan(cfg, s, x);
    var nonempty := if s.spans[sp].chain == [] then [sp] + s.central[l].nonempty else s.central[l].nonempty;
    var f := s.central[l].(counter := s.central[l].counter + 1 - cfg.cap[l], nonempty := Without(nonempty, sp));
    assert s' == Departed(s, t, l, rest, k, sp, f);
    hide ReleaseStep, Departed;
    DepartBooks(cfg, s, t, l, rest, k, f);
    DepartObjects(cfg, s, t, l, rest, k, f);
    Assemble(cfg, s');
  }

  lemma ReleaseKeeps(cfg: Config, s: State, t: nat, l: nat, rest: Chain, k: Cont)
    requires Inv(cfg, s) && t < |s.pcs| && s.pcs[t] == Release(l, rest, k) && l < cfg.classes && rest != []
    ensures Inv(cfg, ReleaseStep(cfg, s, t, l, rest, k))
  {
    hide Inv, ReleaseStep;
    assert l < |s.central| && l < |s.locks| by { Parts(cfg, s); Lengths(cfg, s); }
    ReleaseHere(cfg, s, t, l, rest, k);
    OutOfSpan(cfg, s, rest[0]);
    if s.spans[rest[0].span].refcount == 1 {
      DepartKeeps(cfg, s, t, l, rest, k);
    } else {
      ReturnKeeps(cfg, s, t, l, rest, k);
    }
  }

  // ---------- Populate and Delete: runs of pages change hands ----------

  /** A thread takes a run of pages, or gives it back. */
  lemma LeaseMoves(cfg: Config, s: State, s': State, t: nat, q: Pc)
    requires Inv(cfg, s) && t < |s.pcs| && s' == s.(pcs := s.pcs[t := q], taken := s'.taken)
    requires forall sp :: sp in s.spans ==> sp in s.taken && sp in s'.taken && s'.taken[sp] == s.taken[sp]
    requires TakenKept(cfg, s'.taken) && PrivateKept(s'.pcs, s'.spans, s'.taken)
    requires Holds(q) == Holds(s.pcs[t]) == None && Token(q) == Token(s.pcs[t]) && Hand(q) == Hand(s.pcs[t])
    requires HandOne(s.spans, q) && PcShaped(cfg, q)
    ensures Inv(cfg, s')
  {
    hide LocksKept, CapacityKept, SlotsKept, ClassKept, Owned, SpansKept, ListsKept, TakenKept, UnusedKept;
    hide PrivateKept, HandsKept, AllKept, CountsKept, Inv, FreeBelow, PcShaped, HandOne, ListKept, Once, CapOf;
    hide Hand;
    Parts(cfg, s);
    Lengths(cfg, s);
    SpansLease(cfg, s.spans, s.taken, s'.taken);
    LocksStay(s.pcs, s.locks, t, q);
    CapacityStays(cfg, s.pcs, s.central, t, q);
    UnusedSame(s, s.(pcs := s'.pcs), t, q);
    HandsChange(s.spans, s.spans, s.pcs, t, q);
    assert Owned(s') by {
      forall p ensures s'.Contents(p) == s.Contents(p) {}
      Still(s, s');
    }
    assert Shaped(cfg, s');
    Assemble(cfg, s');
  }

  lemma SpansLease(cfg: Config, spans: map<nat, SpanRec>, taken: map<nat, Lease>, taken': map<nat, Lease>)
    requires |cfg.cap| == cfg.classes && SpansKept(cfg, spans, taken)
    requires forall sp :: sp in spans ==> sp in taken && sp in taken' && taken'[sp] == taken[sp]
    ensures SpansKept(cfg, spans, taken')
  {
    forall sp | sp in spans ensures SpanKept(cfg, spans, taken', sp) { assert SpanKept(cfg, spans, taken, sp); }
  }

  lemma SpansTaken(cfg: Config, spans: map<nat, SpanRec>, taken: map<nat, Lease>)
    requires |cfg.cap| == cfg.classes && SpansKept(cfg, spans, taken)
    ensures forall sp :: sp in spans ==> sp in taken
  {
    forall sp | sp in spans ensures sp in taken { assert SpanKept(cfg, spans, taken, sp); }
  }

  lemma GoneKeeps(cfg: Config, s: State, t: nat, l: nat, rest: Chain, k: Cont, sp: nat)
    requires Inv(cfg, s) && t < |s.pcs| && s.pcs[t] == Gone(l, rest, k, sp)
    ensures Inv(cfg, GoneStep(s, t, l, rest, k, sp))
  {
    hide LocksKept, CapacityKept, SlotsKept, ClassKept, Owned, SpansKept, ListsKept, TakenKept, UnusedKept;
    hide PrivateKept, HandsKept, AllKept, CountsKept, Inv, FreeBelow, PcShaped, HandOne, ListKept, Once, CapOf;
    hide Hand;
    Parts(cfg, s);
    Lengths(cfg, s);
    var s', q := GoneStep(s, t, l, rest, k, sp), Relock(l, rest, k);
    SpansTaken(cfg, s.spans, s.taken);
    PrivateHere(s.pcs, s.spans, s.taken, t);
    assert TakenKept(cfg, s'.taken) by { TakenShrinks(cfg, s.taken, sp); }
    PrivateGone(s.pcs, s.spans, s.taken, t, q, sp);
    assert PcShaped(cfg, s.pcs[t]) && HandOne(s.spans, s.pcs[t]) by { PositionHere(cfg, s, t); }
    assert PcShaped(cfg, q) && HandOne(s.spans, q) by { RelockShaped(cfg, s.spans, l, rest, k, sp); }
    assert Hand(q) == Hand(s.pcs[t]) by { HandRelocked(l, rest, k, sp); }
    LeaseMoves(cfg, s, s', t, q);
  }

  lemma HandRelocked(l: nat, rest: Chain, k: Cont, sp: nat)
    ensures Hand(Gone(l, rest, k, sp)) == Hand(Relock(l, rest, k))
  {
  }

  lemma RelockShaped(cfg: Config, spans: map<nat, SpanRec>, l: nat, rest: Chain, k: Cont, sp: nat)
    requires PcShaped(cfg, Gone(l, rest, k, sp)) && HandOne(spans, Gone(l, rest, k, sp))
    ensures PcShaped(cfg, Relock(l, rest, k)) && HandOne(spans, Relock(l, rest, k))
  {
  }

  lemma TakenShrinks(cfg: Config, taken: map<nat, Lease>, sp: nat)
    requires TakenKept(cfg, taken)
    ensures TakenKept(cfg, taken - {sp})
  {
  }

  lemma PrivateGone(pcs: seq<Pc>, spans: map<nat, SpanRec>, taken: map<nat, Lease>, t: nat, q: Pc, sp: nat)
    requires PrivateKept(pcs, spans, taken) && t < |pcs| && Private(pcs[t]) == Some(sp) && Private(q) == None
    ensures PrivateKept(pcs[t := q], spans, taken - {sp})
  {
    forall x | x != sp && Borrowed(pcs, x) ensures Borrowed(pcs[t := q], x) { BorrowedStill(pcs, t, q, x); }
    forall u | 0 <= u < |pcs| && u != t ensures PrivateOne(pcs[u], spans, taken - {sp}) {
      assert PrivateOne(pcs[u], spans, taken);
    }
  }

  lemma PrivateNew(cfg: Config, pcs: seq<Pc>, spans: map<nat, SpanRec>, taken: map<nat, Lease>, t: nat, c: nat, n: nat,
                   sp: nat)
    requires |cfg.cap| == cfg.classes && PrivateKept(pcs, spans, taken) && SpansKept(cfg, spans, taken)
    requires t < |pcs| && sp !in taken && pcs[t] == PopNew(c, n)
    ensures PrivateKept(pcs[t := PopWait(c, n, sp)], spans, taken[sp := ForClass(c)])
  {
    hide SpansKept;
    SpansTaken(cfg, spans, taken);
    assert Private(pcs[t := PopWait(c, n, sp)][t]) == Some(sp);
    forall x | Borrowed(pcs, x)
      ensures Borrowed(pcs[t := PopWait(c, n, sp)], x)
    {
      BorrowedStill(pcs, t, PopWait(c, n, sp), x);
    }
    forall u | 0 <= u < |pcs| && u != t
      ensures PrivateOne(pcs[u], spans, taken[sp := ForClass(c)]) && Private(pcs[u]) != Some(sp)
    {
      assert PrivateOne(pcs[u], spans, taken);
    }
  }

  lemma PopNewKeeps(cfg: Config, s: State, t: nat, c: nat, n: nat, page: Option<nat>)
    requires Inv(cfg, s) && t < |s.pcs| && s.pcs[t] == PopNew(c, n)
    requires page.Some? ==> c < |cfg.pages| && Vacant(cfg, s.taken, page.value, cfg.pages[c])
    ensures Inv(cfg, PopNewStep(s, t, c, n, page))
  {
    hide LocksKept, CapacityKept, SlotsKept, ClassKept, Owned, SpansKept, ListsKept, TakenKept, UnusedKept;
    hide PrivateKept, HandsKept, AllKept, CountsKept, Inv, FreeBelow, ListKept, Once, CapOf;
    Parts(cfg, s);
    Lengths(cfg, s);
    var s' := PopNewStep(s, t, c, n, page);
    SpansTaken(cfg, s.spans, s.taken);
    assert PcShaped(cfg, s.pcs[t]);
    if page.Some? {
      TakenGrows(cfg, s.taken, page.value, ForClass(c));
      PrivateNew(cfg, s.pcs, s.spans, s.taken, t, c, n, page.value);
      LeaseMoves(cfg, s, s', t, PopWait(c, n, page.value));
    } else {
      PrivateSame(s.pcs, s.spans, s.taken, t, PopFail(c, n));
      LeaseMoves(cfg, s, s', t, PopFail(c, n));
    }
  }

  lemma TakenGrows(cfg: Config, taken: map<nat, Lease>, sp: nat, lease: Lease)
    requires TakenKept(cfg, taken) && Vacant(cfg, taken, sp, Pages(cfg, lease))
    ensures sp !in taken && TakenKept(cfg, taken[sp := lease])
  {
  }

  // ---------- FetchFromSpans ----------

  lemma ListPopped(spans: map<nat, SpanRec>, spans': map<nat, SpanRec>, nonempty: seq<nat>, c: nat, sp: nat)
    requires ListKept(spans, nonempty, c) && OneSpan(spans, spans', sp, c) && nonempty != [] && nonempty[0] == sp
    requires sp in spans && sp in spans' && spans'[sp].chain == spans[sp].chain[1..]
    ensures ListKept(spans', if |spans[sp].chain| == 1 then nonempty[1..] else nonempty, c)
  {
    assert nonempty == [sp] + nonempty[1..];
  }

  /** The head of a nonempty list has a free object. */
  lemma HeadHere(cfg: Config, s: State, c: nat)
    requires Inv(cfg, s) && c < |s.central| && s.central[c].nonempty != []
    ensures var sp := s.central[c].nonempty[0];
            sp in s.spans && s.spans[sp].cl == c && s.spans[sp].chain != [] && |cfg.cap| == cfg.classes
            && ListKept(s.spans, s.central[c].nonempty, c) && SpanKept(cfg, s.spans, s.taken, sp)
  {
    hide LocksKept, CapacityKept, SlotsKept, ClassKept, Owned, TakenKept, UnusedKept, PrivateKept, HandsKept;
    hide AllKept, CountsKept, FreeBelow, CapOf;
    Lengths(cfg, s);
    assert ListKept(s.spans, s.central[c].nonempty, c);
  }

  lemma ChainHere(s: State, sp: nat)
    requires Owned(s) && ClassKept(s.spans, s.place) && sp in s.spans
    ensures Once(s.spans[sp].chain)
    ensures forall o :: o in s.spans[sp].chain ==> o in s.place && s.place[o] == InChain(sp) && o.span == sp
  {
    ListedAt(s, InChain(sp));
    assert s.Contents(InChain(sp)) == s.spans[sp].chain;
  }

  function Fetched(s: State, t: nat, q: Pc, c: nat, sp: nat, f: Central, r: SpanRec): State
    requires t < |s.pcs| && c < |s.central| && sp in s.spans && s.spans[sp].chain != []
  {
    s.WithCentral(c, f).To(t, q).Placed([s.spans[sp].chain[0]], InHand(t)).(spans := s.spans[sp := r])
  }

  lemma FetchOwned(s: State, t: nat, c: nat, n: nat, out: Chain, dry: bool, sp: nat, f: Central, r: SpanRec)
    requires Owned(s) && ClassKept(s.spans, s.place) && t < |s.pcs| && s.pcs[t] == Fetch(c, n, out, dry)
    requires c < |s.central|
    requires sp in s.spans && s.spans[sp].chain != [] && r.chain == s.spans[sp].chain[1..]
    requires f.used == s.central[c].used && f.slots == s.central[c].slots
    ensures Owned(Fetched(s, t, Fetch(c, n, [s.spans[sp].chain[0]] + out, dry), c, sp, f, r))
  {
    hide Owned, ClassKept, Once;
    var xs := s.spans[sp].chain;
    ChainHere(s, sp);
    OnceParts(xs, 1);
    assert xs[0] in xs && xs[..1] == [xs[0]];
    Moved(s, Fetched(s, t, Fetch(c, n, [xs[0]] + out, dry), c, sp, f, r), [xs[0]], InChain(sp), InHand(t));
  }

  lemma FetchObjects(cfg: Config, s: State, t: nat, c: nat, n: nat, out: Chain, dry: bool, sp: nat, f: Central,
                     r: SpanRec)
    requires Inv(cfg, s) && t < |s.pcs| && s.pcs[t] == Fetch(c, n, out, dry) && c < |s.central|
    requires sp in s.spans && s.spans[sp].chain != [] && s.spans[sp].cl == c && r.cl == c
    requires r.chain == s.spans[sp].chain[1..]
    requires f.used == s.central[c].used && f.slots == s.central[c].slots
    ensures var s' := Fetched(s, t, Fetch(c, n, [s.spans[sp].chain[0]] + out, dry), c, sp, f, r);
            |cfg.cap| == cfg.classes && AllKept(cfg, s'.spans, s'.place) && ClassKept(s'.spans, s'.place)
            && HandsKept(s'.spans, s'.pcs) && Owned(s')
  {
    hide LocksKept, CapacityKept, SlotsKept, ClassKept, Owned, SpansKept, ListsKept, TakenKept, UnusedKept;
    hide PrivateKept, HandsKept, AllKept, CountsKept, Inv, FreeBelow, PcShaped, ListKept, Once, CapOf, Hand;
    Parts(cfg, s);
    Lengths(cfg, s);
    var x := s.spans[sp].chain[0];
    var q := Fetch(c, n, [x] + out, dry);
    var s' := Fetched(s, t, q, c, sp, f, r);
    ChainHere(s, sp);
    assert x in s.spans[sp].chain;
    PositionHere(cfg, s, t);
    HandChange(s.spans, s'.spans, s.pcs[t]);
    HandsChange(s.spans, s'.spans, s.pcs, t, q);
    AllSame(cfg, s.spans, s'.spans, s.place, s'.place, sp, c);
    ClassMoved(s, [x], InHand(t));
    ClassSame(s.spans, s'.spans, s'.place, sp, c);
    FetchOwned(s, t, c, n, out, dry, sp, f, r);
  }

  lemma FetchShaped(cfg: Config, c: nat, n: nat, out: Chain, dry: bool, x: Obj)
    requires PcShaped(cfg, Fetch(c, n, out, dry)) && |out| < n
    ensures PcShaped(cfg, Fetch(c, n, [x] + out, dry))
  {
  }

  lemma TakeKeeps(cfg: Config, s: State, t: nat, c: nat, n: nat, out: Chain, dry: bool)
    requires Inv(cfg, s) && t < |s.pcs| && t < |s.lists| && s.pcs[t] == Fetch(c, n, out, dry) && c < cfg.classes
    requires c < |s.lists[t]| && c < |s.locks| && c < |s.central|
    requires |out| < n && s.central[c].nonempty != []
    ensures Inv(cfg, FetchStep(s, t, c, n, out, dry))
  {
    hide LocksKept, CapacityKept, SlotsKept, ClassKept, Owned, SpansKept, ListsKept, TakenKept, UnusedKept;
    hide PrivateKept, HandsKept, AllKept, CountsKept, Inv, FreeBelow, PcShaped, HandOne, ListKept, Once, CapOf;
    hide Hand;
    Parts(cfg, s);
    Lengths(cfg, s);
    HeadHere(cfg, s, c);
    var s', sp := FetchStep(s, t, c, n, out, dry), s.central[c].nonempty[0];
    var r := s.spans[sp];
    var q := Fetch(c, n, [r.chain[0]] + out, dry);
    var f := s.central[c].(counter := s.central[c].counter - 1,
                           nonempty := if |r.chain| == 1 then s.central[c].nonempty[1..] else s.central[c].nonempty);
    assert s'.central == s.central[c := f];
    ListPopped(s.spans, s'.spans, s.central[c].nonempty, c, sp);
    PositionHere(cfg, s, t);
    FetchShaped(cfg, c, n, out, dry, r.chain[0]);
    SpanStepBooks(cfg, s, s', t, q, sp, c, f);
    LocksStay(s.pcs, s.locks, t, q);
    UnusedChange(s, s', t, q, sp, c, f);
    PrivateChange(s.pcs, s.spans, s'.spans, s.taken, t, q, sp, c);
    FetchObjects(cfg, s, t, c, n, out, dry, sp, f, s'.spans[sp]);
    assert s' == Fetched(s, t, q, c, sp, f, s'.spans[sp]);
    Assemble(cfg, s');
  }

  // ---------- Populate links the new span ----------

  lemma ObjectsOnce(sp: nat, cap: nat)
    ensures Once(Objects(sp, cap)) && |Objects(sp, cap)| == cap
    ensures forall o: Obj :: o in Objects(sp, cap) <==> o.span == sp && o.idx < cap
  {
    forall o: Obj | o.span == sp && o.idx < cap ensures o in Objects(sp, cap) { assert Objects(sp, cap)[o.idx] == o; }
  }

  function Linked(s: State, t: nat, c: nat, n: nat, sp: nat, cap: nat, f: Central): State
    requires t < |s.pcs| && c < |s.central|
  {
    s.WithCentral(c, f).To(t, Fetch(c, n, [], true)).Placed(Objects(sp, cap), InChain(sp))
      .(spans := s.spans[sp := SpanRec(c, Objects(sp, cap), 0)])
  }

  lemma LinkOwned(s: State, t: nat, c: nat, n: nat, sp: nat, cap: nat, f: Central)
    requires Owned(s) && t < |s.pcs| && s.pcs[t] == PopLink(c, n, sp) && c < |s.central|
    requires sp !in s.spans && forall o :: o in s.place ==> o.span != sp
    requires f.used == s.central[c].used && f.slots == s.central[c].slots
    ensures Owned(Linked(s, t, c, n, sp, cap, f))
  {
    hide Owned, Once;
    var s', xs := Linked(s, t, c, n, sp, cap, f), Objects(sp, cap);
    ObjectsOnce(sp, cap);
    forall p ensures Listed(s', p) {
      ListedAt(s, p);
      if p == InChain(sp) { assert s'.Contents(p) == xs; } else { assert s'.Contents(p) == s.Contents(p); }
    }
    forall o ensures Found(s', o) {
      FoundAt(s, o);
      if o in xs { assert s'.Contents(InChain(sp)) == xs; }
      else if o in s.place && !s.place[o].InApp? {
        assert s.place[o] != InChain(sp);
        assert s'.Contents(s.place[o]) == s.Contents(s.place[o]);
      }
    }
    OwnedSo(s');
  }

  lemma LinkObjects(cfg: Config, s: State, t: nat, c: nat, n: nat, sp: nat, f: Central)
    requires Inv(cfg, s) && t < |s.pcs| && s.pcs[t] == PopLink(c, n, sp) && c < |s.central| && c < |cfg.cap|
    requires c < cfg.classes
    requires sp !in s.spans && f.used == s.central[c].used && f.slots == s.central[c].slots
    ensures var s' := Linked(s, t, c, n, sp, cfg.cap[c], f);
            |cfg.cap| == cfg.classes && AllKept(cfg, s'.spans, s'.place) && ClassKept(s'.spans, s'.place)
            && HandsKept(s'.spans, s'.pcs) && Owned(s')
  {
    hide LocksKept, CapacityKept, SlotsKept, Owned, SpansKept, ListsKept, TakenKept, UnusedKept, PrivateKept;
    hide HandsKept, CountsKept, Inv, FreeBelow, PcShaped, ListKept, Once, CapOf, Hand;
    Parts(cfg, s);
    Lengths(cfg, s);
    var s', q := Linked(s, t, c, n, sp, cfg.cap[c], f), Fetch(c, n, [], true);
    ObjectsOnce(sp, cfg.cap[c]);
    assert HandOne(s'.spans, q);
    HandsChange(s.spans, s'.spans, s.pcs, t, q);
    LinkOwned(s, t, c, n, sp, cfg.cap[c], f);
  }

  lemma ListLinked(spans: map<nat, SpanRec>, spans': map<nat, SpanRec>, nonempty: seq<nat>, c: nat, sp: nat)
    requires ListKept(spans, nonempty, c) && OneSpan(spans, spans', sp, c) && sp !in spans && sp in spans'
    requires spans'[sp].chain != []
    ensures ListKept(spans', [sp] + nonempty, c)
  {
  }

  lemma LinkShaped(cfg: Config, c: nat, n: nat, sp: nat)
    requires PcShaped(cfg, PopLink(c, n, sp))
    ensures PcShaped(cfg, Fetch(c, n, [], true)) && c < cfg.classes
  {
  }

  /** A run of pages is only ever taken for a class that is used, so class 0 has no spans. */
  lemma LeasedClass(cfg: Config, taken: map<nat, Lease>, sp: nat)
    requires cfg.Valid() && TakenKept(cfg, taken) && sp in taken && taken[sp].ForClass?
    ensures 0 < taken[sp].c < cfg.classes && cfg.cap[taken[sp].c] > 0 && cfg.pages[taken[sp].c] > 0
  {
    hide CapOf;
  }

  lemma PopLinkKeeps(cfg: Config, s: State, t: nat, c: nat, n: nat, sp: nat)
    requires Inv(cfg, s) && t < |s.pcs| && s.pcs[t] == PopLink(c, n, sp) && c < cfg.classes
    ensures c < |s.central| && c < |cfg.cap| && Inv(cfg, PopLinkStep(cfg, s, t, c, n, sp))
  {
    hide LocksKept, CapacityKept, SlotsKept, ClassKept, Owned, SpansKept, ListsKept, TakenKept, UnusedKept;
    hide PrivateKept, HandsKept, AllKept, CountsKept, Inv, FreeBelow, PcShaped, HandOne, ListKept, Once, CapOf;
    hide Hand;
    Parts(cfg, s);
    Lengths(cfg, s);
    var s', q, cap := PopLinkStep(cfg, s, t, c, n, sp), Fetch(c, n, [], true), cfg.cap[c];
    PrivateHere(s.pcs, s.spans, s.taken, t);
    LeasedClass(cfg, s.taken, sp);
    ObjectsOnce(sp, cap);
    var f := s.central[c].(counter := s.central[c].counter + cap, nonempty := [sp] + s.central[c].nonempty);
    assert s'.central == s.central[c := f];
    ListLinked(s.spans, s'.spans, s.central[c].nonempty, c, sp);
    PositionHere(cfg, s, t);
    LinkShaped(cfg, c, n, sp);
    SpanStepBooks(cfg, s, s', t, q, sp, c, f);
    LocksStay(s.pcs, s.locks, t, q);
    assert AboutToUse(s'.pcs, s'.locks, s'.central, c, sp) by { LockHere(s.pcs, s.locks, t, c); }
    UnusedChange(s, s', t, q, sp, c, f);
    PrivateChange(s.pcs, s.spans, s'.spans, s.taken, t, q, sp, c);
    LinkObjects(cfg, s, t, c, n, sp, f);
    assert s' == Linked(s, t, c, n, sp, cap, f);
    Assemble(cfg, s');
  }

  lemma LockHere(pcs: seq<Pc>, locks: seq<Option<nat>>, t: nat, c: nat)
    requires LocksKept(pcs, locks) && t < |pcs| && Holds(pcs[t]) == Some(c)
    ensures c < |locks| && locks[c] == Some(t)
  {
  }
}
