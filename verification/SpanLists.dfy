/**
 Spans and the circular doubly linked lists of free spans.

 Each listed span has a ghost position on its list. The pointers are described through
 that order: `next` is the successor in it, `prev` the inverse of `next`, and a sentinel
 stands before the first span and after the last one.
 */
module SpanLists {
  import opened Basics

  /** A descriptor of a run of pages. */
  class Span {
    var start: nat
    var length: nat
    var next: Span?
    var prev: Span?
    var free: bool
    var sample: bool
    var sizeclass: nat

    constructor ()
      ensures start == 0 && length == 0 && next == null && prev == null
      ensures !free && !sample && sizeclass == 0
    {
      start, length, next, prev := 0, 0, null, null;
      free, sample, sizeclass := false, false, 0;
    }
  }

  /** Takes a span out of whatever list it is on; `nodes` is any set that holds its neighbours. */
  method DllRemove(span: Span, ghost nodes: set<Span>)
    requires span.prev != null && span.next != null && span.prev != span && span.next != span
    requires span in nodes && span.prev in nodes && span.next in nodes
    modifies nodes`next, nodes`prev
    ensures forall x :: x in nodes && x != span ==>
              && x.next == (if x == old(span.prev) then old(span.next) else old(x.next))
              && x.prev == (if x == old(span.next) then old(span.prev) else old(x.prev))
    ensures span.prev == null && span.next == null
  {
    span.prev.next := span.next;
    span.next.prev := span.prev;
    span.prev := null;
    span.next := null;
  }

  /** Puts span right after x: the pointer writes of DLL_Prepend and DLL_InsertOrdered. */
  method DllInsertAfter(x: Span, span: Span, ghost nodes: set<Span>)
    requires x.next != null && x in nodes && x.next in nodes && span !in nodes
    modifies nodes`next, nodes`prev, span`next, span`prev
    ensures forall y :: y in nodes ==>
              && y.next == (if y == x then span else old(y.next))
              && y.prev == (if y == old(x.next) then span else old(y.prev))
    ensures span.next == old(x.next) && span.prev == x
  {
    span.next := x.next;
    span.prev := x;
    x.next.prev := span;
    x.next := span;
  }

  /**
   The links of several lists as a value: list i starts at heads[i]; bin and pos say on
   which list, and where on it, each span is.
   */
  datatype Chains = Chains(heads: seq<Span>, nodes: set<Span>, bin: map<Span, nat>, pos: map<Span, int>,
                           nxt: map<Span, Span>, prv: map<Span, Span>)
  {
    ghost function Nxt(x: Span): Span { if x in nxt then nxt[x] else x }

    ghost function Prv(x: Span): Span { if x in prv then prv[x] else x }

    ghost function Pos(x: Span): int { if x in pos then pos[x] else 0 }

    ghost predicate Shape() {
      && |heads| > 0 && Once(heads)
      && (forall i :: 0 <= i < |heads| ==> heads[i] in nodes && heads[i] !in bin)
      && (forall s :: s in bin ==> s in nodes && bin[s] < |heads|)
      && (forall s {:trigger Nxt(s)} :: s in nodes ==> Nxt(s) in nodes)
      && (forall s {:trigger Prv(s)} :: s in nodes ==> Prv(s) in nodes)
    }

    /** x is on list i, or is its sentinel. */
    ghost predicate On(x: Span, i: nat) {
      i < |heads| && (x == heads[i] || (x in bin && bin[x] == i))
    }

    /** Links go both ways and do not leave a list. */
    ghost predicate Linked() {
      && (forall x {:trigger Nxt(x), x in nodes} :: x in nodes ==> Prv(Nxt(x)) == x)
      && (forall x {:trigger Prv(x), x in nodes} :: x in nodes ==> Nxt(Prv(x)) == x)
      && (forall x, i {:trigger On(x, i), Nxt(x)} :: x in nodes && On(x, i) ==> On(Nxt(x), i))
    }

    /** Positions on a list differ, and Nxt(s) is the next larger one. */
    ghost predicate InOrder(s: Span, t: Span) {
      s in bin && t in bin && bin[s] == bin[t] ==>
        && (Pos(s) == Pos(t) ==> s == t)
        && (Nxt(s) in bin ==> Pos(s) < Pos(Nxt(s)))
        && (Pos(s) < Pos(t) ==> Nxt(s) in bin && Pos(Nxt(s)) <= Pos(t))
    }

    /** The sentinel of t's list leads to the least position. */
    ghost predicate LeastFirst(i: nat, t: Span) {
      i < |heads| && t in bin && bin[t] == i ==> Nxt(heads[i]) in bin && Pos(Nxt(heads[i])) <= Pos(t)
    }

    ghost predicate Sorted() {
      && (forall s, t {:trigger InOrder(s, t)} :: s in bin && t in bin ==> InOrder(s, t))
      && (forall i: nat, t {:trigger LeastFirst(i, t)} :: i < |heads| && t in bin ==> LeastFirst(i, t))
    }

    ghost predicate Valid() {
      Shape() && Linked() && Sorted()
    }

    ghost function Removed(s: Span): Chains
    {
      Chains(heads, nodes - {s}, bin - {s}, pos - {s}, nxt[Prv(s) := Nxt(s)], prv[Nxt(s) := Prv(s)])
    }

    ghost function Inserted(x: Span, s: Span, i: nat, p: int): Chains
    {
      Chains(heads, nodes + {s}, bin[s := i], pos[s := p], nxt[x := s][s := Nxt(x)], prv[Nxt(x) := s][s := x])
    }

    lemma Neighbours(s: Span)
      requires Valid() && s in bin
      ensures s in nodes && Nxt(s) in nodes && Prv(s) in nodes && Nxt(s) != s && Prv(s) != s
    {
      assert InOrder(s, s);
    }

    lemma RemovedLinks(s: Span)
      ensures var c := Removed(s); c.heads == heads && c.nodes == nodes - {s} && c.bin == bin - {s}
      ensures forall x {:trigger Removed(s).Nxt(x)} :: Removed(s).Nxt(x) == if x == Prv(s) then Nxt(s) else Nxt(x)
      ensures forall x {:trigger Removed(s).Prv(x)} :: Removed(s).Prv(x) == if x == Nxt(s) then Prv(s) else Prv(x)
      ensures forall x {:trigger Removed(s).Pos(x)} :: x != s ==> Removed(s).Pos(x) == Pos(x)
      ensures forall x, i {:trigger Removed(s).On(x, i)} :: x != s ==> (Removed(s).On(x, i) <==> On(x, i))
    {
    }

    /** Taking a span off its list leaves proper lists. */
    lemma RemovedIsValid(s: Span)
      requires Valid() && s in bin
      ensures Removed(s).Valid()
    {
      RemovedLinks(s);
      assert On(s, bin[s]);
      hide Nxt, Prv, Pos, InOrder, LeastFirst;
      var c := Removed(s);
      assert c.Shape();
      assert c.Linked();
      forall u, t | u in c.bin && t in c.bin ensures c.InOrder(u, t) {
        RemovedInOrder(s, u, t);
      }
      forall i: nat, t | t in c.bin ensures c.LeastFirst(i, t) {
        RemovedFirst(s, i, t);
      }
    }

    lemma RemovedInOrder(s: Span, u: Span, t: Span)
      requires Valid() && s in bin
      ensures Removed(s).InOrder(u, t)
    {
      RemovedLinks(s);
      if u in bin && t in bin && bin[u] == bin[t] {
        assert On(u, bin[t]) && On(Nxt(u), bin[t]) && InOrder(u, t) && InOrder(s, t);
        assert On(s, bin[s]) && (Nxt(u) == s <==> u == Prv(s));
      }
    }

    lemma RemovedFirst(s: Span, i: nat, t: Span)
      requires Valid() && s in bin
      ensures Removed(s).LeastFirst(i, t)
    {
      RemovedLinks(s);
      if i < |heads| && t in bin && bin[t] == i {
        assert On(heads[i], i) && On(Nxt(heads[i]), i);
        assert Nxt(heads[i]) == s <==> heads[i] == Prv(s);
        assert LeastFirst(i, t) && InOrder(s, t);
      }
    }

    /** p lies strictly between the position of x and that of its successor. */
    ghost predicate Between(x: Span, p: int) {
      && (x in bin ==> Pos(x) < p)
      && (Nxt(x) in bin ==> p < Pos(Nxt(x)))
    }

    lemma InsertedLinks(x: Span, s: Span, i: nat, p: int)
      requires Valid() && x in nodes && s !in nodes
      ensures Nxt(x) in nodes
      ensures var c := Inserted(x, s, i, p); c.heads == heads && c.nodes == nodes + {s} && c.bin == bin[s := i]
      ensures var c := Inserted(x, s, i, p);
              && (forall y {:trigger c.Nxt(y)} :: c.Nxt(y) == if y == s then Nxt(x) else if y == x then s else Nxt(y))
              && (forall y {:trigger c.Prv(y)} :: c.Prv(y) == if y == s then x else if y == Nxt(x) then s else Prv(y))
              && (forall y {:trigger c.Pos(y)} :: c.Pos(y) == if y == s then p else Pos(y))
              && (forall y, j {:trigger c.On(y, j)} :: y != s ==> (c.On(y, j) <==> On(y, j)))
    {
    }

    /** Nothing of list i lies between x and its successor. */
    lemma Gap(x: Span, i: nat, p: int, t: Span)
      requires Valid() && On(x, i) && x in nodes && Between(x, p) && t in bin && bin[t] == i
      ensures Pos(t) != p
      ensures Pos(t) < p ==> x in bin && Pos(t) <= Pos(x)
      ensures p < Pos(t) ==> Nxt(x) in bin && Pos(Nxt(x)) <= Pos(t)
    {
      WalkStep(x, i);
      assert x !in bin || Pos(x) < Pos(t) ==> t in Ahead(x, i);
    }

    lemma InsertedIsShaped(x: Span, s: Span, i: nat, p: int)
      requires Valid() && On(x, i) && x in nodes && s !in nodes
      ensures Inserted(x, s, i, p).Shape()
    {
      InsertedLinks(x, s, i, p);
      hide Nxt, Prv, Pos, Sorted, Linked;
    }

    lemma InsertedIsLinked(x: Span, s: Span, i: nat, p: int)
      requires Valid() && On(x, i) && x in nodes && s !in nodes
      ensures Inserted(x, s, i, p).Linked()
    {
      hide Nxt, Prv, Pos, Sorted, Inserted;
      InsertedLinks(x, s, i, p);
      assert On(Nxt(x), i);
      assert Inserted(x, s, i, p).On(s, i);
    }

    /** The order of the new list, for one pair of its spans. */
    lemma InsertedInOrder(x: Span, s: Span, i: nat, p: int, u: Span, t: Span)
      requires Valid() && On(x, i) && x in nodes && s !in nodes && Between(x, p)
      ensures Inserted(x, s, i, p).InOrder(u, t)
    {
      InsertedLinks(x, s, i, p);
      if u in bin && bin[u] == i { Gap(x, i, p, u); }
      if t in bin && bin[t] == i { Gap(x, i, p, t); }
      assert InOrder(u, t) && InOrder(u, x) && InOrder(u, u) && InOrder(x, t);
    }

    lemma InsertedFirst(x: Span, s: Span, i: nat, p: int, j: nat, t: Span)
      requires Valid() && On(x, i) && x in nodes && s !in nodes && Between(x, p)
      ensures Inserted(x, s, i, p).LeastFirst(j, t)
    {
      InsertedLinks(x, s, i, p);
      if t != s {
        if t in bin && bin[t] == i { Gap(x, i, p, t); }
        assert j < |heads| ==> LeastFirst(j, t);
      } else if heads[i] != x {
        assert LeastFirst(i, x);
      }
    }

    /** What a walk along list i that stands at x has still to meet. */
    ghost function Ahead(x: Span, i: nat): set<Span> {
      set t | t in bin && bin[t] == i && (x in bin ==> Pos(x) < Pos(t))
    }

    lemma WalkStart(i: nat)
      requires Valid() && i < |heads|
      ensures heads[i] in nodes && heads[i] !in bin && On(heads[i], i)
    {
    }

    /** A step of a walk meets the nearest span ahead; at the last span nothing is ahead. */
    lemma WalkStep(x: Span, i: nat)
      requires Valid() && On(x, i) && x in nodes
      ensures On(Nxt(x), i) && Nxt(x) in nodes
      ensures Nxt(x) == heads[i] ==> Ahead(x, i) == {}
      ensures Nxt(x) != heads[i] ==> Nxt(x) in bin && Ahead(x, i) == Ahead(Nxt(x), i) + {Nxt(x)}
      ensures Nxt(x) != heads[i] ==> Nxt(x) !in Ahead(Nxt(x), i)
    {
      forall t | t in bin && bin[t] == i
        ensures x in bin && Pos(x) < Pos(t) ==> Nxt(x) in bin && Pos(Nxt(x)) <= Pos(t)
        ensures x !in bin ==> Nxt(x) in bin && Pos(Nxt(x)) <= Pos(t)
        ensures Nxt(x) in bin && Pos(Nxt(x)) == Pos(t) ==> Nxt(x) == t
      {
        assert if x in bin then InOrder(x, t) else LeastFirst(i, t);
        assert Nxt(x) in bin ==> InOrder(Nxt(x), t);
      }
      assert x in bin ==> InOrder(x, x);
    }

    /** Putting a new span between two neighbours of a list leaves proper lists. */
    lemma InsertedIsValid(x: Span, s: Span, i: nat, p: int)
      requires Valid() && On(x, i) && x in nodes && s !in nodes && Between(x, p)
      ensures Inserted(x, s, i, p).Valid()
    {
      var c := Inserted(x, s, i, p);
      InsertedIsShaped(x, s, i, p);
      InsertedIsLinked(x, s, i, p);
      forall u, t | u in c.bin && t in c.bin ensures c.InOrder(u, t) {
        InsertedInOrder(x, s, i, p, u, t);
      }
      forall j: nat, t | t in c.bin ensures c.LeastFirst(j, t) {
        InsertedFirst(x, s, i, p, j, t);
      }
      hide Inserted, Nxt, Prv, Pos, InOrder, LeastFirst;
    }
  }

  /** The lists in memory. The last one is kept in address order. */
  class FreeLists {
    const heads: seq<Span>
    ghost var links: Chains

    ghost predicate Valid()
      reads this, links.nodes`next, links.nodes`prev, links.nodes`start
    {
      && links.heads == heads && |heads| > 0
      && links.Valid() && Linked(links) && ByStart(links)
    }

    /** The pointers are those of the chains. */
    static ghost predicate Linked(c: Chains)
      reads c.nodes`next, c.nodes`prev
    {
      forall x :: x in c.nodes ==> x.next == c.Nxt(x) && x.prev == c.Prv(x)
    }

    /** The last list goes by address. */
    static ghost predicate ByStart(c: Chains)
      reads c.nodes`start
    {
      c.bin.Keys <= c.nodes && forall s :: s in c.bin && c.bin[s] == |c.heads| - 1 ==> c.Pos(s) == s.start
    }

    static lemma ByStartMore(was: Chains, x: Span, s: Span, i: nat, p: int)
      requires was.Valid() && ByStart(was) && x in was.nodes && s !in was.nodes
      requires (i == |was.heads| - 1 ==> p == s.start)
      ensures ByStart(was.Inserted(x, s, i, p))
    {
      hide Chains.Valid, Chains.Pos, Chains.Inserted, Chains.Nxt, Chains.Prv, Chains.On;
      was.InsertedLinks(x, s, i, p);
    }

    constructor (n: nat)
      requires n > 0
      ensures Valid() && |heads| == n && links.bin == map[]
      ensures fresh(links.nodes) && links.nodes == set x | x in heads
    {
      var hs: seq<Span> := [];
      while |hs| < n
        invariant |hs| <= n && Once(hs)
        invariant forall x :: x in hs ==> fresh(x) && x.next == x && x.prev == x
      {
        var x := new Span();
        x.next := x;
        x.prev := x;
        hs := hs + [x];
      }
      heads := hs;
      links := Chains(hs, set x | x in hs, map[], map[], map x | x in hs :: x, map x | x in hs :: x);
    }

    method Remove(s: Span)
      requires Valid() && s in links.bin
      modifies this, links.nodes`next, links.nodes`prev
      ensures Valid() && links.bin == old(links.bin) - {s} && links.nodes == old(links.nodes) - {s}
      ensures s.next == null && s.prev == null && links == old(links).Removed(s)
    {
      hide Chains.Valid, Chains.Nxt, Chains.Prv, Chains.Pos, Chains.Removed;
      ghost var c, was := links.Removed(s), links;
      was.RemovedIsValid(s);
      was.RemovedLinks(s);
      was.Neighbours(s);
      DllRemove(s, was.nodes);
      links := c;
    }

    /** Writes the pointers that put s between x and its successor. */
    static method LinkAfter(x: Span, s: Span, ghost was: Chains, ghost i: nat, ghost p: int)
      requires was.Valid() && Linked(was) && x in was.nodes && s !in was.nodes
      modifies was.nodes`next, was.nodes`prev, s`next, s`prev
      ensures Linked(was.Inserted(x, s, i, p))
    {
      hide Chains.Valid, Chains.Nxt, Chains.Prv, Chains.Pos, Chains.Inserted, Chains.On;
      was.InsertedLinks(x, s, i, p);
      DllInsertAfter(x, s, was.nodes);
    }

    /** On list i, s goes between x and its successor. */
    method InsertAfter(x: Span, s: Span, ghost i: nat, ghost p: int)
      requires Valid() && links.On(x, i) && x in links.nodes && s !in links.nodes && links.Between(x, p)
      requires i == |heads| - 1 ==> p == s.start
      modifies this, links.nodes`next, links.nodes`prev, s`next, s`prev
      ensures Valid() && links == old(links).Inserted(x, s, i, p)
    {
      hide Chains.Valid, Chains.Nxt, Chains.Prv, Chains.Pos, Chains.Inserted, Chains.On, Linked, ByStart;
      ghost var was := links;
      was.InsertedIsValid(x, s, i, p);
      was.InsertedLinks(x, s, i, p);
      LinkAfter(x, s, was, i, p);
      ByStartMore(was, x, s, i, p);
      links := was.Inserted(x, s, i, p);
    }

    method Prepend(i: nat, s: Span)
      requires Valid() && i < |heads| - 1 && s !in links.nodes
      modifies this, links.nodes`next, links.nodes`prev, s`next, s`prev
      ensures Valid() && links.bin == old(links.bin)[s := i] && links.nodes == old(links.nodes) + {s}
      ensures heads[i].next == s && s.next == old(heads[i].next)
    {
      ghost var p := links.Pos(links.Nxt(heads[i])) - 1;
      InsertAfter(heads[i], s, i, p);
      assert heads[i] in links.nodes && s in links.nodes;
    }

    /** Puts a span on list i: first, or by its start on the last list. */
    method Place(i: nat, s: Span)
      requires Valid() && i < |heads| && s !in links.nodes
      requires forall t :: t in links.bin && links.bin[t] == |heads| - 1 ==> t.start != s.start
      modifies this, links.nodes`next, links.nodes`prev, s`next, s`prev
      ensures Valid() && links.bin == old(links.bin)[s := i] && links.nodes == old(links.nodes) + {s}
      ensures i < |heads| - 1 ==> heads[i].next == s && s.next == old(heads[i].next)
    {
      hide Valid;
      if i < |heads| - 1 { Prepend(i, s); } else { InsertOrdered(s); }
    }

    method InsertOrdered(s: Span)
      requires Valid() && s !in links.nodes
      requires forall t :: t in links.bin && links.bin[t] == |heads| - 1 ==> t.start != s.start
      modifies this, links.nodes`next, links.nodes`prev, s`next, s`prev
      ensures Valid() && links.bin == old(links.bin)[s := |heads| - 1] && links.nodes == old(links.nodes) + {s}
    {
      hide Chains.Valid, Chains.Nxt, Chains.Prv, Chains.Pos, Chains.Ahead;
      var list := heads[|heads| - 1];
      var x: Span := list;
      ghost var i := |heads| - 1;
      links.WalkStart(i);
      links.WalkStep(x, i);
      while x.next != list && x.next.start < s.start
        invariant links.On(x, i) && x in links.nodes && x.next != null
        invariant links.Nxt(x) in links.nodes && links.On(links.Nxt(x), i)
        invariant links.Nxt(x) == list || links.Nxt(x) in links.bin
        invariant x in links.bin ==> x.start < s.start
        modifies {}
        decreases links.Ahead(x, i)
      {
        links.WalkStep(x, i);
        x := x.next;
        links.WalkStep(x, i);
      }
      InsertAfter(x, s, i, s.start);
    }
  
    /** The first span of list i, or NULL when the list is empty. */
    method First(i: nat) returns (s: Span?)
      requires Valid() && i < |heads|
      ensures s == null ==> forall t :: t in links.bin ==> links.bin[t] != i
      ensures s != null ==> s == heads[i].next && s in links.bin && links.bin[s] == i
    {
      links.WalkStart(i);
      links.WalkStep(heads[i], i);
      if heads[i].next == heads[i] {
        s := null;
        forall t | t in links.bin ensures links.bin[t] != i { assert t !in links.Ahead(heads[i], i); }
      } else {
        s := heads[i].next;
      }
    }

    /** The scan of the large list: the shortest span of at least n pages, the lowest one among equals. */
    method BestOfLast(n: nat) returns (best: Span?)
      requires Valid()
      ensures best == null ==>
                forall t :: t in links.bin && links.bin[t] == |heads| - 1 ==> t.length < n
      ensures best != null ==> best in links.bin && links.bin[best] == |heads| - 1 && n <= best.length
      ensures best != null ==>
                forall t :: t in links.bin && links.bin[t] == |heads| - 1 && n <= t.length ==> Better(best, t)
    {
      hide Chains.Valid, Chains.Nxt, Chains.Prv;
      ghost var i := |heads| - 1;
      var list := heads[|heads| - 1];
      links.WalkStart(i);
      links.WalkStep(list, i);
      best := null;
      ghost var x: Span := list;
      var span: Span := list.next;
      while span != list
        invariant links.On(x, i) && x in links.nodes && span == links.Nxt(x)
        invariant best != null ==>
                  best in links.bin && links.bin[best] == i && n <= best.length && best !in links.Ahead(x, i)
        invariant forall t :: t in links.bin && links.bin[t] == i && t !in links.Ahead(x, i) && n <= t.length ==>
                    best != null && Better(best, t)
        decreases links.Ahead(x, i)
      {
        links.WalkStep(x, i);
        links.WalkStep(span, i);
        if span.length >= n && (best == null || span.length < best.length) {
          best := span;
        }
        x := span;
        span := span.next;
      }
      links.WalkStep(x, i);
    }

    /** s is at least as good a fit as t. */
    static ghost predicate Better(s: Span, t: Span)
      reads s, t
    {
      s.length < t.length || (s.length == t.length && s.start <= t.start)
    }
  }
}
