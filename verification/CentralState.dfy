/**
 The central free lists, their transfer caches and the thread caches as a state machine:
 one step is what a thread does between two operations on locks, or a single pass of a
 loop under a lock.
 */
module CentralState {
  import opened Arith
  import opened Basics

  /** Object number idx of the span that starts at page `span`. */
  datatype Obj = Obj(span: nat, idx: nat)

  type Chain = seq<Obj>

  /** What a run of pages was taken from the page heap for. */
  datatype Lease = ForClass(c: nat) | ForPages(n: nat)

  ghost predicate CapOf(pages: nat, size: nat, cap: nat) {
    0 < size && 0 < cap && cap == pages * PAGE_SIZE / size
  }

  /**
   The size classes: for each the number of objects that move at a time, the pages of a
   span, the size of an object, and the number of objects in a span. Class 0 and the
   classes that are not used have objects of size 0, and never a span. No page lies at or
   above `top`.
   */
  datatype Config = Config(classes: nat, move: seq<nat>, pages: seq<nat>, size: seq<nat>, cap: seq<nat>, top: nat) {
    ghost predicate Valid() {
      && classes > 0 && |move| == |pages| == |size| == |cap| == classes
      && size[0] == 0
      && forall c :: 0 <= c < classes ==>
           if size[c] == 0 then pages[c] == 0 && cap[c] == 0
           else move[c] > 0 && pages[c] > 0 && cap[c] > 0 && CapOf(pages[c], size[c], cap[c])
    }
  }

  /** A span of a size class: its chain of free objects, and how many of its objects are out. */
  datatype SpanRec = SpanRec(cl: nat, chain: Chain, refcount: int)

  /** One TCMalloc_Central_FreeList without its lock; nonempty lists spans in order. */
  datatype Central = Central(used: int, cache: int, slots: seq<Chain>, counter: int, nonempty: seq<nat>)

  /** What follows when a list of objects has been released to the spans. */
  datatype Cont =
    | Leave
    | Resume(c: nat, ch: Chain)

  /** Where a thread stands. `c` is the class it works for; the comments say which lock it holds. */
  datatype Pc =
    | Idle
      // InsertRange
    | InsWait(c: nat, ch: Chain)                                // none
    | InsTest(c: nat, ch: Chain)                                // c
    | Evict(c: nat, ch: Chain, force: bool)                     // c
    | ShrinkWait(c: nat, ch: Chain, force: bool, victim: nat)   // none
    | Shrink(c: nat, ch: Chain, force: bool, victim: nat)       // victim
    | BackWait(c: nat, ch: Chain, force: bool, got: bool)       // none
    | Back(c: nat, ch: Chain, force: bool, got: bool)           // c
      // ReleaseListToSpans
    | Release(l: nat, rest: Chain, k: Cont)                     // l
    | Gone(l: nat, rest: Chain, k: Cont, sp: nat)               // none
    | Relock(l: nat, rest: Chain, k: Cont)                      // none
      // RemoveRange
    | RemWait(c: nat, n: nat)                                   // none
    | RemTest(c: nat, n: nat)                                   // c
    | Fetch(c: nat, n: nat, out: Chain, dry: bool)              // c
    | PopNew(c: nat, n: nat)                                    // none
    | PopWait(c: nat, n: nat, sp: nat)                          // none
    | PopLink(c: nat, n: nat, sp: nat)                          // c
    | PopFail(c: nat, n: nat)                                   // none

  /** The lock a thread holds. */
  function Holds(pc: Pc): Option<nat> {
    match pc
    case InsTest(c, _) => Some(c)
    case Evict(c, _, _) => Some(c)
    case Shrink(_, _, _, v) => Some(v)
    case Back(c, _, _, _) => Some(c)
    case Release(l, _, _) => Some(l)
    case RemTest(c, _) => Some(c)
    case Fetch(c, _, _, _) => Some(c)
    case PopLink(c, _, _) => Some(c)
    case _ => None
  }

  /** The lock a thread waits for. */
  function Wants(pc: Pc): Option<nat> {
    match pc
    case InsWait(c, _) => Some(c)
    case ShrinkWait(_, _, _, v) => Some(v)
    case BackWait(c, _, _, _) => Some(c)
    case Relock(l, _, _) => Some(l)
    case RemWait(c, _) => Some(c)
    case PopWait(c, _, _) => Some(c)
    case PopFail(c, _) => Some(c)
    case _ => None
  }

  /** Where a thread goes when it gets the lock it waits for. */
  function Entered(pc: Pc): Pc {
    match pc
    case InsWait(c, ch) => InsTest(c, ch)
    case ShrinkWait(c, ch, f, v) => Shrink(c, ch, f, v)
    case BackWait(c, ch, f, g) => Back(c, ch, f, g)
    case Relock(l, rest, k) => Release(l, rest, k)
    case RemWait(c, n) => RemTest(c, n)
    case PopWait(c, n, sp) => PopLink(c, n, sp)
    case PopFail(c, n) => Fetch(c, n, [], true)
    case _ => pc
  }

  function ContHand(k: Cont): Chain {
    if k.Resume? then k.ch else []
  }

  /** The objects a thread has in hand. */
  function Hand(pc: Pc): Chain {
    match pc
    case InsWait(_, ch) => ch
    case InsTest(_, ch) => ch
    case Evict(_, ch, _) => ch
    case ShrinkWait(_, ch, _, _) => ch
    case Shrink(_, ch, _, _) => ch
    case BackWait(_, ch, _, _) => ch
    case Back(_, ch, _, _) => ch
    case Release(_, rest, k) => rest + ContHand(k)
    case Gone(_, rest, k, _) => rest + ContHand(k)
    case Relock(_, rest, k) => rest + ContHand(k)
    case Fetch(_, _, out, _) => out
    case _ => []
  }

  /** A transfer-cache slot taken from one class and not yet given to another. */
  function Token(pc: Pc): nat {
    match pc
    case BackWait(_, _, _, got) => if got then 1 else 0
    case Back(_, _, _, got) => if got then 1 else 0
    case Release(_, _, k) => if k.Resume? then 1 else 0
    case Gone(_, _, k, _) => if k.Resume? then 1 else 0
    case Relock(_, _, k) => if k.Resume? then 1 else 0
    case _ => 0
  }

  /** The span a thread alone knows of: just obtained, or about to be returned. */
  function Private(pc: Pc): Option<nat> {
    match pc
    case Gone(_, _, _, sp) => Some(sp)
    case PopWait(_, _, sp) => Some(sp)
    case PopLink(_, _, sp) => Some(sp)
    case _ => None
  }

  /** The places an object of a size class can be. */
  datatype Place =
    | InApp
    | InCache(t: nat, c: nat)
    | InHand(t: nat)
    | InSlot(c: nat, i: nat)
    | InChain(sp: nat)

  /**
   pcs, lists: each thread's position and its cache, one list per class.
   locks: who holds the lock of each central list.
   spans: the spans on the lists of central free lists.
   taken: the runs of pages obtained from the page heap and not returned to it.
   place: a history variable, where each object is; it alone records InApp.
   fault: an assertion of the program failed, or an array index was out of range.
   */
  datatype State = State(pcs: seq<Pc>, lists: seq<seq<Chain>>, locks: seq<Option<nat>>, central: seq<Central>,
                         spans: map<nat, SpanRec>, taken: map<nat, Lease>, place: map<Obj, Place>, fault: bool)
  {
    function Contents(p: Place): Chain {
      match p
      case InApp => []
      case InCache(t, c) => if t < |lists| && c < |lists[t]| then lists[t][c] else []
      case InHand(t) => if t < |pcs| then Hand(pcs[t]) else []
      case InSlot(c, i) =>
        if c < |central| && i < central[c].used && i < |central[c].slots| then central[c].slots[i] else []
      case InChain(sp) => if sp in spans then spans[sp].chain else []
    }

    function To(t: nat, pc: Pc): State
      requires t < |pcs|
    {
      this.(pcs := pcs[t := pc])
    }

    function Locked(l: nat, t: nat): State
      requires l < |locks|
    {
      this.(locks := locks[l := Some(t)])
    }

    function Unlocked(l: nat): State
      requires l < |locks|
    {
      this.(locks := locks[l := None])
    }

    function WithList(t: nat, c: nat, xs: Chain): State
      requires t < |lists| && c < |lists[t]|
    {
      this.(lists := lists[t := lists[t][c := xs]])
    }

    function WithCentral(c: nat, f: Central): State
      requires c < |central|
    {
      this.(central := central[c := f])
    }

    /** The objects xs are now at p. */
    function Placed(xs: Chain, p: Place): State {
      this.(place := map o | o in place.Keys + (set x | x in xs) :: if o in xs then p else place[o])
    }

    function Faulty(): State { this.(fault := true) }
  }

  /** All objects of a span, in address order. */
  function Objects(sp: nat, cap: nat): (xs: Chain)
    ensures |xs| == cap && forall i :: 0 <= i < cap ==> xs[i].span == sp && xs[i].idx == i
  {
    seq(cap, i requires 0 <= i < cap => Obj(sp, i))
  }

  function Pages(cfg: Config, lease: Lease): nat {
    match lease
    case ForClass(c) => if c < |cfg.pages| then cfg.pages[c] else 0
    case ForPages(n) => n
  }

  /** The page heap may hand out n pages at sp: they are no one else's. */
  ghost predicate Vacant(cfg: Config, taken: map<nat, Lease>, sp: nat, n: nat) {
    && n > 0 && sp + n <= cfg.top
    && forall a :: a in taken ==> a + Pages(cfg, taken[a]) <= sp || sp + n <= a
  }

  function Without(xs: seq<nat>, x: nat): (r: seq<nat>) {
    if xs == [] then [] else if xs[0] == x then xs[1..] else [xs[0]] + Without(xs[1..], x)
  }
}
