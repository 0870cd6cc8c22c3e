/** The page heap: spans, boundary tags in a page map, and lists of free spans. */
module PageHeaps {
  import opened Arith
  import opened SpanLists
  import opened PageLayout
  import opened BoundaryTags
  import opened HeapBooks

  const MIN_SYSTEM_ALLOC: nat := 256

  class PageHeap {
    /** Its keys are the pages whose leaf exists. */
    var pagemap: map<nat, Span?>
    const lists: FreeLists
    var freePages: nat
    var systemBytes: nat
    /** Descriptors given back, to be reused in any order. */
    var pool: set<Span>

    ghost var books: Books
    /** Every span object in play: sentinels, live descriptors and pooled ones. */
    ghost var repr: set<Span>
    /** Pages obtained from the system that never got a descriptor. */
    ghost var leaked: nat

    // ---------- invariant ----------

    /** The fields of a live descriptor say what the books say. */
    ghost predicate Described()
      reads this`books, this`repr, repr`start, repr`length, repr`free, repr`sizeclass
    {
      forall s {:trigger s in books.home} :: s in books.home ==>
        && s in repr && s.start == books.home[s] && s.start in books.h
        && books.h[s.start] == Block(s.length, s.free, s.sizeclass)
    }

    /** The same for all but s, d and gone. */
    ghost predicate OthersDescribed(s: Span, d: Span, gone: Span?)
      reads this`books, this`repr, repr - {s, d}
    {
      forall t {:trigger t in books.home} :: t in books.home && t != s && t != d && t != gone ==>
        && t in repr && t.start == books.home[t] && t.start in books.h
        && books.h[t.start] == Block(t.length, t.free, t.sizeclass)
    }

    ghost predicate DescribedAs(c: Books, s: Span)
      reads this`repr, s
    {
      s in repr && c.Has(s, s.start, Block(s.length, s.free, s.sizeclass))
    }

    /** Sentinels, live descriptors and pooled ones are different objects. */
    ghost predicate Apart()
      reads this`books, this`repr, this`pool, lists
    {
      && lists.links.nodes <= repr
      && (forall x :: x in lists.links.nodes && x !in lists.links.bin ==> x !in books.home)
      && pool <= repr
      && (forall s :: s in pool ==> s !in lists.links.nodes && s !in books.home)
    }

    ghost predicate Inv(loose: Span?)
      reads this`books, this`pagemap, this`repr, this`pool, lists
      reads repr`start, repr`length, repr`free, repr`sizeclass
      reads lists.links.nodes`next, lists.links.nodes`prev, lists.links.nodes`start
    {
      && books.Balanced(loose) && books.tags == pagemap && books.bin == lists.links.bin
      && lists.Valid() && |lists.heads| == MAX_PAGES + 1
      && Described() && Apart()
    }

    ghost predicate Valid()
      reads this, lists, repr`start, repr`length, repr`free, repr`sizeclass
      reads lists.links.nodes`next, lists.links.nodes`prev, lists.links.nodes`start
    {
      && Inv(null)
      && Coalesced(books.h)
      && freePages == Total(books.h, FreePages)
      && systemBytes == (Total(books.h, Pages) + leaked) * PAGE_SIZE
      && Total(books.h, Pages) <= INT_MAX
    }

    constructor ()
      ensures Valid() && books.h == map[] && pagemap == map[] && systemBytes == 0 && fresh(repr) && fresh(lists)
    {
      hide Books.Balanced, FreeLists.Valid, Tiled;
      lists := new FreeLists(MAX_PAGES + 1);
      pagemap, freePages, systemBytes, pool := map[], 0, 0, {};
      books, repr, leaked := Books(map[], map[], map[], map[], map[]), {}, 0;
      new;
      repr := lists.links.nodes;
      books.EmptyBalanced();
    }

    /** What the invariant says about one live span. */
    lemma AboutSpan(s: Span, loose: Span?)
      requires Inv(loose) && s in books.home
      ensures s in repr && s.start == books.home[s] > 0 && s.start in books.h
      ensures books.h[s.start] == Block(s.length, s.free, s.sizeclass) && (books.Free(s) <==> s.free)
      ensures s in books.bin ==> s.free
      ensures s in lists.links.nodes ==> s in books.bin
      ensures Tiled(books.h) && forall t :: t in books.home && books.home[t] == books.home[s] ==> t == s
    {
      hide FreeLists.Valid;
      books.ListedAreFree(loose);
      books.OneHome(s, loose);
    }

    /** Spans in use are neither on a list nor in the pool. */
    lemma Separate(loose: Span?)
      requires Inv(loose)
      ensures lists.links.nodes <= repr && pool <= repr
      ensures forall t {:trigger t in books.home} :: t in books.home ==>
                t in repr && t !in pool && (t in lists.links.nodes ==> books.Free(t))
    {
      hide FreeLists.Valid;
      books.ListedAreFree(loose);
    }

    /** What the page map tells about the neighbours of a span. */
    lemma Around(s: Span)
      requires Inv(null) && s in books.home
      ensures s in repr && s.start in books.h && books.h[s.start].len == s.length > 0 && s.start > 0
      ensures s.start - 1 in pagemap && s.start + s.length in pagemap
      ensures var d := pagemap[s.start - 1];
              && (d != null ==> d in books.home && d.start + d.length == s.start)
              && (d != null ==> d.start < s.start && d != s && d.start in books.h)
              && (d != null ==> (books.Free(d) <==> d.free))
              && MergedStart(books.h, s.start) == if d != null && d.free then d.start else s.start
      ensures var d := pagemap[s.start + s.length];
              && (d != null ==> d in books.home && s.start + s.length == d.start && d != s && d.start in books.h)
              && (d != null ==> (books.Free(d) <==> d.free))
              && (FreeAt(books.h, s.start + s.length) <==> d != null && d.free)
    {
      hide Books.Balanced, FreeLists.Valid, MergedStart, Apart;
      books.TagTellsBefore(s);
      books.TagTellsAfter(s);
    }

    /** The first and the last page of a span have leaves. */
    lemma EndsInMap(s: Span, loose: Span?)
      requires Inv(loose) && s in books.home
      ensures s.start in pagemap && s.length > 0 && s.start + s.length - 1 in pagemap
    {
      hide FreeLists.Valid, Apart;
      books.BothHomed(s, s);
      assert BlockTags(books.h, books.at, books.tags, s.start);
    }

    lemma Loosen(s: Span)
      requires Inv(null)
      ensures Inv(s)
    {
      hide FreeLists.Valid;
      books.LooserBalanced(s);
    }

    /** The books follow a step that moved at most s and d. */
    ghost method Settle(c: Books, s: Span, d: Span, gone: Span?, loose: Span?)
      requires c.Balanced(loose) && c.tags == pagemap && c.bin == lists.links.bin && lists.Valid()
      requires |lists.heads| == MAX_PAGES + 1
      requires c.OnlyMoved(books, s, d, gone) && OthersDescribed(s, d, gone) && DescribedAs(c, s) && DescribedAs(c, d)
      requires Apart() && (s in books.home || (s !in pool && s !in lists.links.nodes))
      requires d in books.home || (d !in pool && d !in lists.links.nodes)
      modifies this`books
      ensures Inv(loose) && books == c && (gone == s || gone == d || gone !in books.home)
    {
      hide Books.Balanced, FreeLists.Valid;
      books := c;
    }

    // ---------- small steps; each keeps the invariant ----------

    /** A free span leaves its list. */
    method Unlink(s: Span)
      requires Inv(null) && s in books.home && s.free
      modifies this`books, lists, lists.links.nodes`next, lists.links.nodes`prev
      ensures Inv(s) && s !in books.bin && s !in lists.links.nodes && s.next == null && s.prev == null
      ensures books == old(books).Unlinked(s)
    {
      hide Books.Balanced, FreeLists.Valid;
      books.UnlinkedBalanced(s);
      lists.Remove(s);
      books := books.Unlinked(s);
    }

    /** The common tail of Carve and Delete: a free span goes on the list its length dictates. */
    method Link(s: Span)
      requires Inv(s) && s in books.home && s.free && s !in books.bin && s !in lists.links.nodes
      requires s.next == null && s.prev == null
      modifies this`books, lists, lists.links.nodes`next, lists.links.nodes`prev, s`next, s`prev
      ensures Inv(null) && books == old(books).Linked(s)
    {
      hide Books.Balanced, FreeLists.Valid;
      books.LinkedBalanced(s);
      books.OneHome(s, s);
      lists.Place(Bin(s.length), s);
      books := books.Linked(s);
    }

    method CountFree(n: int)
      requires Inv(null) && freePages + n >= 0
      modifies this`freePages
      ensures Inv(null) && freePages == old(freePages) + n
    {
      hide Books.Balanced, FreeLists.Valid;
      freePages := freePages + n;
    }

    method DeleteSpan(s: Span)
      requires Inv(null) && s in repr && s !in books.home && s !in lists.links.nodes
      modifies this`pool
      ensures Inv(null) && pool == old(pool) + {s}
    {
      hide Books.Balanced, FreeLists.Valid, Described;
      pool := pool + {s};
    }

    /** span takes over an unlisted free span that ends where it starts. */
    method AbsorbPrev(span: Span, prev: Span)
      requires Inv(prev) && span in books.home && !span.free && span.sizeclass == 0 && span != prev
      requires prev in books.home && prev !in books.bin && prev.start + prev.length == span.start
      modifies this`books, this`pagemap, span`start, span`length
      ensures Inv(null) && prev !in books.home
      ensures old(prev.start) in old(books).h && old(span.start) in old(books).h
      ensures books.h == Join(old(books).h, old(prev.start), old(span.start))
      ensures books.OnlyMoved(old(books), span, span, prev) && span.start == prev.start
      ensures pagemap.Keys == old(pagemap).Keys
    {
      hide Books.Balanced, FreeLists.Valid, Books.TookLeft, Join, Apart, Books.OnlyMoved;
      EndsInMap(prev, prev);
      ghost var was := books;
      was.TookLeftBalanced(prev, span);
      AboutSpan(span, prev);
      assert OthersDescribed(span, span, prev);
      hide Described, OthersDescribed;
      span.start := span.start - prev.length;
      span.length := span.length + prev.length;
      pagemap := pagemap[span.start := span];
      Settle(was.TookLeft(prev, span), span, span, prev, null);
    }

    /** span takes over an unlisted free span that starts where it ends. */
    method AbsorbNext(span: Span, next: Span)
      requires Inv(next) && span in books.home && !span.free && span.sizeclass == 0 && span != next
      requires next in books.home && next !in books.bin && span.start + span.length == next.start
      modifies this`books, this`pagemap, span`length
      ensures Inv(null) && next !in books.home
      ensures old(next.start) in old(books).h && old(span.start) in old(books).h
      ensures books.h == Join(old(books).h, old(span.start), old(next.start))
      ensures books.OnlyMoved(old(books), span, span, next)
      ensures pagemap.Keys == old(pagemap).Keys
    {
      hide Books.Balanced, FreeLists.Valid, Books.TookRight, Join, Apart, Books.OnlyMoved;
      EndsInMap(next, next);
      ghost var was := books;
      was.TookRightBalanced(span, next);
      AboutSpan(span, next);
      assert OthersDescribed(span, span, next);
      hide Described, OthersDescribed;
      span.length := span.length + next.length;
      pagemap := pagemap[span.start + span.length - 1 := span];
      Settle(was.TookRight(span, next), span, span, next, null);
    }

    /** A span that is on no list becomes free, or stops being free. */
    method SetFree(span: Span, free: bool)
      requires Inv(span) && span in books.home && span !in books.bin && (!free || span.sizeclass == 0)
      modifies this`books, span`free, span`sizeclass, span`sample
      ensures Inv(span) && (!free ==> Inv(null)) && span in old(books).home && old(books).home[span] in old(books).h
      ensures books == old(books).Retyped(span, free) && span.free == free && span.sizeclass == 0 && !span.sample
    {
      hide Books.Balanced, FreeLists.Valid, Apart, Books.OnlyMoved, Books.Retyped;
      AboutSpan(span, span);
      books.RetypedBalanced(span, free);
      assert OthersDescribed(span, span, null);
      hide Described, OthersDescribed;
      span.free := free;
      span.sizeclass := 0;
      span.sample := false;
      ghost var c := books.Retyped(span, free);
      books.RetypedSame(span, free);
      Settle(c, span, span, null, span);
    }

    /** NewSpan: a pooled descriptor, or a new one, with every other field cleared. */
    method NewSpan(p: nat, len: nat) returns (d: Span)
      requires Inv(null)
      modifies this`pool, this`repr, pool
      ensures Inv(null) && d in repr && d !in books.home && d !in pool && d !in lists.links.nodes
      ensures d.start == p && d.length == len && d.next == null && d.prev == null
      ensures !d.free && !d.sample && d.sizeclass == 0
      ensures repr <= old(repr) + {d} && old(repr) <= repr
      ensures if old(pool) == {} then fresh(d) && pool == {} else d in old(pool) && pool == old(pool) - {d}
    {
      hide Books.Balanced, FreeLists.Valid;
      if pool != {} {
        d := Recycle(p, len);
      } else {
        d := new Span();
        d.start, d.length := p, len;
        repr := repr + {d};
      }
    }

    /** A pooled descriptor, with every other field cleared. */
    method Recycle(p: nat, len: nat) returns (d: Span)
      requires Inv(null) && pool != {}
      modifies this`pool, pool
      ensures Inv(null) && d in repr && d !in books.home && d !in lists.links.nodes
      ensures d.start == p && d.length == len && d.next == null && d.prev == null
      ensures !d.free && !d.sample && d.sizeclass == 0 && d in old(pool) && pool == old(pool) - {d}
    {
      hide Books.Balanced, FreeLists.Valid, OthersDescribed;
      d :| d in pool;
      pool := pool - {d};
      NoneDescribed(d);
      hide Described;
      d.next, d.prev, d.free, d.sample, d.sizeclass := null, null, false, false, 0;
      d.start, d.length := p, len;
      AllDescribed(d);
    }

    lemma NoneDescribed(d: Span)
      requires Described() && d !in books.home
      ensures OthersDescribed(d, d, null)
    {
    }

    lemma AllDescribed(d: Span)
      requires OthersDescribed(d, d, null) && d !in books.home && null !in books.home
      ensures Described()
    {
    }

    // ---------- the operations ----------

    /** Spans in use stay as they are, except span. */
    twostate predicate OthersUndisturbed(new span: Span)
      reads this, repr
    {
      forall t {:trigger t in old(books).home} ::
        t in old(books).home && !old(books).Free(t) && t != span && t != null ==>
        t in repr && t in books.home && books.home[t] == old(books).home[t] && !books.Free(t) && unchanged(t)
    }

    /** Delete, towards lower pages. */
    method JoinPrev(span: Span)
      requires Inv(null) && span in books.home && !span.free && span.sizeclass == 0
      modifies this`books, this`pool, this`pagemap, lists, repr
      ensures Inv(null) && span in books.home && !span.free && span.sizeclass == 0
      ensures old(span.start) in old(books).h && books.h == JoinedLeft(old(books).h, old(span.start))
      ensures span.start == MergedStart(old(books).h, old(span.start))
      ensures unchanged(span`next, span`prev) && OthersUndisturbed(span)
      ensures old(span.start) > 0 && old(span.start) - 1 in old(pagemap)
      ensures var d := old(pagemap)[old(span.start) - 1];
              pool == if d != null && old(d.free) then old(pool) + {d} else old(pool)
      ensures pagemap.Keys == old(pagemap).Keys
    {
      hide PageHeap.Inv, Join, MergedStart;
      Around(span);
      AboutSpan(span, null);
      Separate(null);
      var prev := pagemap[span.start - 1];
      if prev != null && prev.free {
        ghost var b0 := books;
        Unlink(prev);
        AbsorbPrev(span, prev);
        DeleteSpan(prev);
        assert forall t {:trigger t in b0.home} :: t in b0.home && !b0.Free(t) && t != null ==> t in books.home;
      }
    }

    /** Delete, towards higher pages. */
    method JoinNext(span: Span)
      requires Inv(null) && span in books.home && !span.free && span.sizeclass == 0
      modifies this`books, this`pool, this`pagemap, lists, repr
      ensures Inv(null) && span in books.home && !span.free && span.sizeclass == 0
      ensures old(span.start) in old(books).h && books.h == JoinedRight(old(books).h, old(span.start))
      ensures unchanged(span`start, span`next, span`prev) && OthersUndisturbed(span)
      ensures old(span.start + span.length) in old(pagemap)
      ensures var d := old(pagemap)[old(span.start + span.length)];
              pool == if d != null && old(d.free) then old(pool) + {d} else old(pool)
      ensures pagemap.Keys == old(pagemap).Keys
    {
      hide PageHeap.Inv, Join;
      Around(span);
      AboutSpan(span, null);
      Separate(null);
      var next := pagemap[span.start + span.length];
      if next != null && next.free {
        ghost var b0 := books;
        Unlink(next);
        AbsorbNext(span, next);
        DeleteSpan(next);
        assert forall t {:trigger t in b0.home} :: t in b0.home && !b0.Free(t) && t != null ==> t in books.home;
      }
    }

    /** The end of Delete: span is marked free and listed. */
    method MarkFree(span: Span)
      requires Inv(null) && span in books.home && !span.free && span.sizeclass == 0
      requires span.next == null && span.prev == null
      modifies this`books, lists, lists.links.nodes`next, lists.links.nodes`prev
      modifies span`next, span`prev, span`free, span`sizeclass, span`sample
      ensures Inv(null) && span.start in old(books).h && books.h == Marked(old(books).h, span.start)
      ensures OthersUndisturbed(span)
    {
      hide PageHeap.Inv;
      AboutSpan(span, null);
      Separate(null);
      Loosen(span);
      SetFree(span, true);
      Separate(span);
      Link(span);
    }

    /** Delete, from the sizeclass reset on: joins span with its free neighbours and lists it. */
    method Release(span: Span)
      requires Inv(null) && span in books.home && !span.free && span.sizeclass == 0
      requires span.next == null && span.prev == null
      modifies this`books, this`pool, this`pagemap, lists, repr
      ensures Inv(null) && old(span.start) in old(books).h && books.h == Freed(old(books).h, old(span.start))
      ensures OthersUndisturbed(span) && pagemap.Keys == old(pagemap).Keys
    {
      hide PageHeap.Inv, JoinedLeft, JoinedRight, MergedStart, Marked;
      Separate(null);
      JoinPrev(span);
      JoinNext(span);
      Separate(null);
      MarkFree(span);
    }

    /** Gives a span in use back to the heap. */
    method Delete(span: Span)
      requires Valid() && span in books.home && !span.free && span.next == null && span.prev == null
      modifies this`books, this`pool, this`pagemap, this`freePages, lists, repr
      ensures Valid() && OthersUndisturbed(span)
      ensures old(span.start) in old(books).h && books.h == Deleted(old(books).h, old(span.start))
      ensures SamePages(old(books).h, books.h) && Used(books.h) == Used(old(books).h) - {old(span.start)}
      ensures pagemap.Keys == old(pagemap).Keys
    {
      hide PageHeap.Inv, Total, Freed, Used, Coalesced, SamePages, Tiled;
      var n := span.length;
      AboutSpan(span, null);
      Separate(null);
      DeletedKeeps(books.h, span.start);
      Loosen(span);
      SetFree(span, false);
      Release(span);
      CountFree(n);
    }
  
    /** What Carve and Split share: the pages of span behind the first n go to the new descriptor d. */
    method Divide(span: Span, n: nat, d: Span, rest: bool)
      requires Inv(null) && span in books.home && !span.free && span.sizeclass == 0 && 0 < n < span.length
      requires d in repr && d !in books.home && d !in pool && d !in lists.links.nodes
      requires d.start == span.start + n && d.length == span.length - n && !d.free && d.sizeclass == 0
      modifies this`books, this`pagemap, span`length, d`free
      ensures Inv(if rest then d else null) && span in books.home && d in books.home && d !in books.bin
      ensures d.free == rest && span.length == n
      ensures span.start in old(books).h && books.h == Cut(old(books).h, span.start, n, rest)
      ensures books.OnlyMoved(old(books), span, d, null)
    {
      hide Books.Balanced, FreeLists.Valid, Cut, Books.CutOff, Recorded, Apart, Books.OnlyMoved;
      ghost var was := books;
      was.CutOffBalanced(span, n, d, rest);
      was.ListedAreFree(null);
      assert OthersDescribed(span, d, null);
      hide Described, OthersDescribed;
      d.free := rest;
      span.length := n;
      pagemap := Recorded(pagemap, d.start, d.length, d)[span.start + n - 1 := span];
      Settle(was.CutOff(span, n, d, rest), span, d, null, if rest then d else null);
    }

    /** Carve, when `extra` pages are left over: they become a free span of their own. */
    method CarveRest(span: Span, n: nat, extra: nat)
      requires Inv(null) && span in books.home && !span.free && span.sizeclass == 0 && 0 < n < n + extra == span.length
      modifies this`books, this`pool, this`pagemap, this`repr, lists, repr
      ensures Inv(null) && span in books.home && !span.free && span.length == n && span.sizeclass == 0
      ensures unchanged(span`start, span`next, span`prev, span`sample)
      ensures span.start in old(books).h && books.h == Cut(old(books).h, span.start, n, true)
      ensures OthersUndisturbed(span) && fresh(repr - old(repr)) && repr >= old(repr)
    {
      hide PageHeap.Inv, Cut;
      AboutSpan(span, null);
      Separate(null);
      var leftover := NewSpan(span.start + n, extra);
      Divide(span, n, leftover, true);
      Separate(leftover);
      Link(leftover);
    }

    /**
     Hands out the first n pages of a free span; what is left becomes a free span of its own.
     The number of pages left is an int: when it does not fit in one, it can read as 0, and
     then the whole span is handed out.
     */
    method Carve(span: Span, n: nat)
      requires Inv(null) && span in books.home && span.free && 0 < n <= span.length
      requires span.length - n <= INT_MAX || ToInt(span.length - n) == 0
      modifies this`books, this`pool, this`pagemap, this`repr, lists, repr
      ensures Inv(null) && span in books.home && !span.free && span.sizeclass == 0
      ensures span.length == if old(span.length) - n <= INT_MAX then n else old(span.length)
      ensures span.start == old(span.start) && span.next == null && span.prev == null && !span.sample
      ensures span.start in old(books).h && books.h == Carved(old(books).h, span.start, span.length)
      ensures OthersUndisturbed(span) && fresh(repr - old(repr)) && repr >= old(repr)
    {
      hide PageHeap.Inv, Cut;
      AboutSpan(span, null);
      Separate(null);
      Unlink(span);
      SetFree(span, false);
      var extra := ToInt(span.length - n);
      if extra > 0 {
        CarveRest(span, n, extra);
      }
    }

    /** No span is longer than an int can say. */
    lemma BlockFits(s: Span)
      requires Valid() && s in books.home
      ensures s.length <= INT_MAX
    {
      hide Books.Balanced, FreeLists.Valid, Total, Coalesced;
      TotalWithout(books.h, Pages, s.start);
    }

    lemma InUse(s: Span)
      requires Valid() && s in books.home && !s.free
      ensures s.start in Used(books.h) && Used(books.h)[s.start] == Block(s.length, false, s.sizeclass)
    {
      hide Books.Balanced, FreeLists.Valid, Total, Coalesced;
    }

    /** Cuts a span in use in two spans in use. */
    method Split(span: Span, n: nat) returns (leftover: Span)
      requires Valid() && span in books.home && !span.free && span.sizeclass == 0 && 0 < n < span.length
      modifies this`books, this`pool, this`pagemap, this`repr, repr
      ensures Valid() && span in books.home && leftover in books.home && !leftover.free && !span.free
      ensures leftover.next == null && leftover.prev == null && !leftover.sample
      ensures unchanged(span`next, span`prev, span`start, span`sample)
      ensures leftover.sizeclass == 0 && span.sizeclass == 0 && leftover != span
      ensures leftover.start == span.start + n && leftover.length == old(span.length) - n && span.length == n
      ensures span.start + n !in old(books).h && leftover !in old(books).home
      ensures SamePages(old(books).h, books.h)
      ensures Used(books.h) ==
                Used(old(books).h)[span.start := Block(n, false, 0)]
                  [span.start + n := Block(old(span.length) - n, false, 0)]
      ensures OthersUndisturbed(span) && fresh(repr - old(repr)) && repr >= old(repr)
    {
      hide PageHeap.Inv, Cut, Total, Used, Coalesced, SamePages, Tiled;
      AboutSpan(span, null);
      Separate(null);
      SplitKeeps(books.h, span.start, n);
      BlockFits(span);
      var extra := ToInt(span.length - n);
      leftover := NewSpan(span.start + n, extra);
      Divide(span, n, leftover, false);
    }
  
    /** The loop of RegisterSizeClass: tags the pages between the ends of span. */
    method TagInterior(span: Span)
      requires forall q :: span.start < q < span.start + span.length - 1 ==> q in pagemap
      modifies this`pagemap
      ensures pagemap.Keys == old(pagemap).Keys
      ensures forall q :: q in pagemap ==>
                pagemap[q] == if span.start < q < span.start + span.length - 1 then span else old(pagemap)[q]
    {
      var i := 1;
      while i < span.length - 1
        invariant 1 <= i && (i <= span.length - 1 || i == 1)
        invariant pagemap.Keys == old(pagemap).Keys
        invariant forall q :: q in pagemap ==>
                    pagemap[q] == if span.start < q < span.start + i then span else old(pagemap)[q]
      {
        pagemap := pagemap[span.start + i := span];
        i := i + 1;
      }
    }

    /** Gives a span in use to a size class: from now on all its pages map to it. */
    method RegisterSizeClass(span: Span, sc: nat)
      requires Valid() && span in books.home && !span.free
      modifies this`books, this`pagemap, span`sizeclass
      ensures Valid() && span in books.home
      ensures SamePages(old(books).h, books.h)
      ensures Used(books.h) == Used(old(books).h)[span.start := Block(span.length, false, sc)]
      ensures forall q :: span.start <= q < span.start + span.length ==> q in pagemap && pagemap[q] == span
      ensures OthersUndisturbed(span) && pagemap.Keys == old(pagemap).Keys
    {
      hide Books.Balanced, FreeLists.Valid, Total, Used, Coalesced, SamePages, Tiled, Apart, Books.OnlyMoved;
      AboutSpan(span, null);
      Separate(null);
      books.PagesInTags(span);
      ghost var was := books;
      assert OthersDescribed(span, span, null);
      hide Described, OthersDescribed;
      span.sizeclass := sc;
      TagInterior(span);
      was.RegisteredBalanced(span, sc, pagemap);
      RegisteredKeeps(was.h, span.start, sc);
      Settle(was.Registered(span, sc, pagemap), span, span, null, null);
    }
  
    /** pagemap_.Ensure, when the metadata allocator provides exactly `leaves`. */
    method Ensure(start: nat, n: nat, leaves: set<nat>) returns (ok: bool)
      requires Inv(null)
      modifies this`pagemap, this`books
      ensures Inv(null) && books == old(books).(tags := pagemap)
      ensures pagemap.Keys == old(pagemap).Keys + leaves && Widened(old(pagemap), pagemap, null)
      ensures ok <==> forall q :: start <= q < start + n ==> q in pagemap
      ensures ok <==> forall q :: start <= q < start + n ==> q in old(pagemap) || q in leaves
    {
      hide Books.Balanced, FreeLists.Valid;
      pagemap := (map q | q in leaves :: null) + pagemap;
      assert pagemap.Keys == old(pagemap).Keys + leaves;
      books.WidenedBalanced(pagemap);
      books := books.(tags := pagemap);
      ok := forall q :: start <= q < start + n ==> q in pagemap;
      LeavesThere(old(pagemap), leaves, start, n);
    }

    lemma LeavesThere(was: map<nat, Span?>, leaves: set<nat>, start: nat, n: nat)
      requires pagemap.Keys == was.Keys + leaves
      ensures (forall q :: start <= q < start + n ==> q in pagemap) <==> forall q :: start <= q < start + n ==>
                q in was || q in leaves
    {
      if forall q :: start <= q < start + n ==> q in pagemap {
        forall q | start <= q < start + n ensures q in was || q in leaves { assert q in pagemap; }
      }
    }

    /** RecordSpan of GrowHeap: the fresh pages get the descriptor d. */
    method Adopt(d: Span)
      requires Inv(null) && d in repr && d !in books.home && d !in pool && d !in lists.links.nodes
      requires d.start > 0 && d.length > 0 && !d.free && d.sizeclass == 0
      requires forall q :: d.start - 1 <= q <= d.start + d.length ==> q in pagemap
      requires forall q :: d.start <= q < d.start + d.length ==> !Covered(books.h, q)
      modifies this`books, this`pagemap
      ensures Inv(null) && d in books.home && d.start !in old(books).h
      ensures books.h == old(books).h[d.start := Block(d.length, false, 0)]
      ensures books.OnlyMoved(old(books), d, d, null)
      ensures pagemap.Keys == old(pagemap).Keys
    {
      hide Books.Balanced, FreeLists.Valid, Covered, Apart, Books.OnlyMoved;
      ghost var was := books;
      assert OthersDescribed(d, d, null);
      hide Described, OthersDescribed;
      pagemap := Recorded(pagemap, d.start, d.length, d);
      was.GrownBalanced(d.start, d.length, d, pagemap);
      Settle(was.Grown(d.start, d.length, d, pagemap), d, d, null, null);
    }

    /** The run a successful growth adds: NewSpan and RecordSpan of GrowHeap. */
    method AddRun(p: nat, n: nat) returns (span: Span)
      requires Inv(null) && p > 0 && n > 0
      requires forall q :: p - 1 <= q <= p + n ==> q in pagemap
      requires forall q :: p <= q < p + n ==> !Covered(books.h, q)
      modifies this`books, this`pool, this`pagemap, this`repr, pool
      ensures Inv(null) && span in books.home && !span.free && span.next == null && span.prev == null
      ensures p !in old(books).h && span.start == p && books.h == old(books).h[p := Block(n, false, 0)]
      ensures old(repr) <= repr && fresh(repr - old(repr)) && OthersUndisturbed(span)
      ensures span !in old(books).home && (span in old(repr) || fresh(span))
      ensures pagemap.Keys == old(pagemap).Keys
    {
      hide PageHeap.Inv, Covered;
      Separate(null);
      span := NewSpan(p, n);
      Adopt(span);
    }

    /** The size of the first request GrowHeap makes. */
    static function Ask(n: nat): nat {
      if n > MIN_SYSTEM_ALLOC then n else MIN_SYSTEM_ALLOC
    }

    /**
     The block that the two requests of GrowHeap obtain: the system answers with the first
     page of a block, or 0. The second request is only made for less than the first.
     */
    static function Granted(n: nat, first: nat, second: nat): (nat, nat) {
      if first != 0 then (first, Ask(n))
      else if n < Ask(n) && second != 0 then (second, n)
      else (0, 0)
    }

    /** The system grants pages that nobody has, and never more than an int can count in all. */
    static ghost predicate MayGrant(h: Layout, n: nat, first: nat, second: nat) {
      var (p, m) := Granted(n, first, second);
      (forall q :: p <= q < p + m ==> !Covered(h, q)) && Total(h, Pages) + m <= INT_MAX
    }

    /** Spans in use stay as they are. */
    twostate predicate UsersUndisturbed()
      reads this, repr
    {
      forall t {:trigger t in old(books).home} :: t in old(books).home && !old(books).Free(t) && t != null ==>
        t in repr && t in books.home && books.home[t] == old(books).home[t] && !books.Free(t) && unchanged(t)
    }

    /** GrowHeap, once the leaves exist: m pages from p, already counted in systemBytes, join the heap. */
    method AddEnsured(p: nat, m: nat)
      requires Inv(null) && Coalesced(books.h) && freePages == Total(books.h, FreePages)
      requires systemBytes == (Total(books.h, Pages) + leaked + m) * PAGE_SIZE && Total(books.h, Pages) + m <= INT_MAX
      requires p > 0 && m > 0 && forall q :: p - 1 <= q <= p + m ==> q in pagemap
      requires forall q :: p <= q < p + m ==> !Covered(books.h, q)
      modifies this`books, this`pool, this`pagemap, this`repr, this`freePages, lists, repr
      ensures Valid() && repr >= old(repr) && fresh(repr - old(repr)) && UsersUndisturbed()
      ensures Used(books.h) == Used(old(books).h) && PagesKept(old(books).h, books.h)
      ensures p !in old(books).h && books.h == Grown(old(books).h, p, m) && Within(old(books).h, books.h, p, m)
      ensures pagemap.Keys == old(pagemap).Keys
    {
      hide Books.Balanced, FreeLists.Valid, Within, Total, Coalesced, Covered, Deleted, Used, SamePages;
      hide PagesKept, Tiled;
      ghost var h0 := books.h;
      books.ListedAreFree(null);
      var span := AddRun(p, m);
      RunAdded(h0, p, m);
      GrownUse(h0, p, m);
      GrownWithin(h0, p, m);
      Delete(span);
    }

    /** GrowHeap with m pages from p in hand. */
    method AddPages(p: nat, m: nat, leaves: set<nat>) returns (ok: bool)
      requires Valid() && p > 0 && m > 0 && forall q :: p <= q < p + m ==> !Covered(books.h, q)
      requires Total(books.h, Pages) + m <= INT_MAX
      modifies this, lists, repr
      ensures Valid() && repr >= old(repr) && fresh(repr - old(repr)) && UsersUndisturbed()
      ensures systemBytes == old(systemBytes) + m * PAGE_SIZE
      ensures ok <==> forall q :: p - 1 <= q <= p + m ==> q in old(pagemap) || q in leaves
      ensures leaked == old(leaked) + if ok then 0 else m
      ensures Used(books.h) == Used(old(books).h) && PagesKept(old(books).h, books.h)
      ensures !ok ==> books.h == old(books).h
      ensures Within(old(books).h, books.h, p, m)
      ensures ok ==> p !in old(books).h && books.h == Grown(old(books).h, p, m)
      ensures pagemap.Keys == old(pagemap).Keys + leaves
    {
      hide PageHeap.Inv, Within, Total, Coalesced, Covered, PageLayout.Grown, Used;
      Separate(null);
      SelfWithin(books.h, p, m);
      systemBytes := systemBytes + m * PAGE_SIZE;
      ok := Ensure(p - 1, m + 2, leaves);
      if ok {
        AddEnsured(p, m);
      } else {
        leaked := leaked + m;
      }
    }

    /** Asks the system for more pages; `leaves` is what the metadata allocator can provide. */
    method GrowHeap(n: nat, first: nat, second: nat, leaves: set<nat>) returns (ok: bool)
      requires Valid() && n > 0
      requires MayGrant(books.h, n, first, second)
      modifies this, lists, repr
      ensures Valid() && repr >= old(repr) && fresh(repr - old(repr)) && UsersUndisturbed()
      ensures ok <==> Grows(old(pagemap), n, first, second, leaves)
      ensures Used(books.h) == Used(old(books).h) && PagesKept(old(books).h, books.h)
      ensures var (p, m) := Granted(n, first, second);
              && Within(old(books).h, books.h, p, m)
              && systemBytes == old(systemBytes) + m * PAGE_SIZE
              && leaked == old(leaked) + (if ok then 0 else m)
              && books.h == if ok then Grown(old(books).h, p, m) else old(books).h
      ensures first == 0 && (n >= 256 || second == 0) ==>
                !ok && books.h == old(books).h && systemBytes == old(systemBytes) && leaked == old(leaked)
      ensures first != 0 ==> systemBytes == old(systemBytes) + (if n > 256 then n else 256) * PAGE_SIZE
      ensures first == 0 && second != 0 && n < 256 ==> systemBytes == old(systemBytes) + n * PAGE_SIZE
    {
      hide Books.Balanced, FreeLists.Valid, Within, Total, Coalesced, Covered, PageLayout.Grown;
      var ask := Ask(n);
      ghost var (g, k) := Granted(n, first, second);
      SelfWithin(books.h, g, k);
      var p := first;
      if p == 0 {
        if n < ask {
          ask := n;
          p := second;
        }
        if p == 0 {
          return false;
        }
      }
      ok := AddPages(p, ask, leaves);
    }

    /** The system grants a block, and there are leaves for its pages and for one page on either side. */
    static ghost predicate Grows(tags: map<nat, Span?>, n: nat, first: nat, second: nat, leaves: set<nat>) {
      var (p, m) := Granted(n, first, second);
      p != 0 && forall q :: p - 1 <= q <= p + m ==> q in tags || q in leaves
    }
  
    /**
     New gives NULL: nothing is asked for, or no free span is long enough and the heap does
     not grow, or not into a block of the length that the large list starts at.
     */
    static ghost predicate Fails(h: Layout, tags: map<nat, Span?>, n: nat, first: nat, second: nat, leaves: set<nat>) {
      var (p, m) := Granted(n, first, second);
      || n == 0
      || ((forall a :: !Adequate(h, a, n))
          && (!Grows(tags, n, first, second, leaves) || GrownLen(h, p, m) < MAX_PAGES))
    }

    /** The first loop of New: the lists from length n on. */
    method FindSmall(n: nat) returns (span: Span?)
      requires Inv(null) && n > 0
      ensures span == null ==> forall t :: t in books.bin && n <= books.Len(t) ==> books.bin[t] == MAX_PAGES
      ensures span != null ==> span in books.home && span.free && BestFit(books.h, span.start, n, MAX_PAGES)
    {
      hide Books.Balanced, FreeLists.Valid;
      books.ListedAreFree(null);
      var s := n;
      while s < MAX_PAGES
        invariant n <= s
        invariant forall t :: t in books.bin && n <= books.Len(t) < MAX_PAGES ==> s <= books.Len(t)
      {
        span := lists.First(s);
        if span != null {
          books.ShortestIsBest(span, n);
          return;
        }
        s := s + 1;
      }
      span := null;
    }

    /** The scan of large_ in New. */
    method FindLarge(n: nat) returns (span: Span?)
      requires Inv(null) && n > 0
      ensures span == null ==> forall a :: Adequate(books.h, a, n) ==> books.h[a].len < MAX_PAGES
      ensures span != null ==> span in books.home && span.free && BestLargeFit(books.h, span.start, n, MAX_PAGES)
    {
      hide Books.Balanced, FreeLists.Valid;
      books.ListedAreFree(null);
      span := lists.BestOfLast(n);
      if span == null {
        books.NoneOnLargeList(n);
      } else {
        books.BestOnLargeList(span, n);
      }
    }
  
    /** Carve as New uses it: the free page count follows. */
    method TakeFrom(span: Span, n: nat)
      requires Valid() && span in books.home && span.free && 0 < n <= span.length
      modifies this`books, this`pool, this`pagemap, this`repr, this`freePages, lists, repr
      ensures Valid() && HandedOut(span, n) && span.start == old(span.start)
      ensures span.start in old(books).h && books.h == Carved(old(books).h, span.start, n)
      ensures UsersUndisturbed() && fresh(repr - old(repr)) && repr >= old(repr)
      ensures span !in old(books).home || old(books).Free(span)
      ensures Used(books.h) == Used(old(books).h)[span.start := Block(n, false, 0)] && span.start !in Used(old(books).h)
      ensures PagesKept(old(books).h, books.h) && SamePages(old(books).h, books.h)
    {
      hide Books.Balanced, FreeLists.Valid, Total, Coalesced, Carved, Used, SamePages;
      books.ListedAreFree(null);
      CarvedKeeps(books.h, span.start, n);
      BlockFits(span);
      Carve(span, n);
      freePages := freePages - n;
    }

    /** span is a span of n pages in use that is on no list and not sampled. */
    ghost predicate HandedOut(span: Span, n: nat)
      reads this, span
    {
      && span in books.home && !span.free && span.length == n && span.sizeclass == 0
      && span.next == null && span.prev == null && !span.sample
    }

    /** New, when some free span is long enough. */
    method NewFromFree(n: nat) returns (span: Span?)
      requires Valid() && n > 0
      modifies this`books, this`pool, this`pagemap, this`repr, this`freePages, lists, repr
      ensures Valid() && UsersUndisturbed() && fresh(repr - old(repr)) && repr >= old(repr)
      ensures span == null ==> books == old(books) && pagemap == old(pagemap) && forall a :: !Adequate(books.h, a, n)
      ensures span != null ==> HandedOut(span, n) && BestFit(old(books).h, span.start, n, MAX_PAGES)
      ensures span != null ==> (span !in old(books).home || old(books).Free(span)) && span.start !in Used(old(books).h)
      ensures Used(books.h) ==
                if span == null then Used(old(books).h) else Used(old(books).h)[span.start := Block(n, false, 0)]
      ensures PagesKept(old(books).h, books.h) && SamePages(old(books).h, books.h)
      ensures span != null ==> books.h == Carved(old(books).h, span.start, n)
    {
      hide Books.Balanced, FreeLists.Valid, Total, Coalesced, Carved, SamePages;
      SamePagesReflexive(books.h);
      span := FindSmall(n);
      if span == null {
        span := FindLarge(n);
        if span == null {
          assert forall a :: Adequate(books.h, a, n) ==> books.h[a].len < MAX_PAGES;
          books.NothingAdequate(n);
          return;
        }
        books.LargeIsBest(span, n);
      }
      TakeFrom(span, n);
    }
  
    /** New, second time round: only the large list is searched. */
    method NewFromLarge(n: nat) returns (span: Span?)
      requires Valid() && n > 0
      modifies this`books, this`pool, this`pagemap, this`repr, this`freePages, lists, repr
      ensures Valid() && UsersUndisturbed() && fresh(repr - old(repr)) && repr >= old(repr)
      ensures span == null ==> books == old(books) && forall a :: Adequate(books.h, a, n) ==> books.h[a].len < MAX_PAGES
      ensures span != null ==> HandedOut(span, n) && BestLargeFit(old(books).h, span.start, n, MAX_PAGES)
      ensures span != null ==> (span !in old(books).home || old(books).Free(span)) && span.start !in Used(old(books).h)
      ensures Used(books.h) ==
                if span == null then Used(old(books).h) else Used(old(books).h)[span.start := Block(n, false, 0)]
      ensures PagesKept(old(books).h, books.h) && SamePages(old(books).h, books.h)
      ensures span != null ==> books.h == Carved(old(books).h, span.start, n)
    {
      hide Books.Balanced, FreeLists.Valid, Total, Coalesced, Carved, SamePages;
      SamePagesReflexive(books.h);
      span := FindLarge(n);
      if span != null {
        TakeFrom(span, n);
      }
    }

    /** New, when no free span is long enough: the heap grows, and only the large list is searched. */
    method NewFromGrowth(n: nat, first: nat, second: nat, leaves: set<nat>) returns (span: Span?)
      requires Valid() && n > 0 && forall a :: !Adequate(books.h, a, n)
      requires MayGrant(books.h, n, first, second)
      modifies this, lists, repr
      ensures Valid() && UsersUndisturbed() && fresh(repr - old(repr)) && repr >= old(repr)
      ensures span != null ==> HandedOut(span, n)
      ensures span != null ==> (span !in old(books).home || old(books).Free(span)) && span.start !in Used(old(books).h)
      ensures Used(books.h) ==
                if span == null then Used(old(books).h) else Used(old(books).h)[span.start := Block(n, false, 0)]
      ensures PagesKept(old(books).h, books.h)
      ensures var (p, m) := Granted(n, first, second); Within(old(books).h, books.h, p, m)
      ensures !Grows(old(pagemap), n, first, second, leaves) ==> span == null && books.h == old(books).h
      ensures Grows(old(pagemap), n, first, second, leaves) ==>
                var (p, m) := Granted(n, first, second);
                var g := Grown(old(books).h, p, m);
                && (span != null <==> MAX_PAGES <= GrownLen(old(books).h, p, m))
                && (span != null ==> BestFit(g, span.start, n, MAX_PAGES) && books.h == Carved(g, span.start, n))
                && (span == null ==> books.h == g)
      ensures first == 0 && (n >= 256 || second == 0) ==>
                span == null && books.h == old(books).h && systemBytes == old(systemBytes)
      ensures first != 0 ==> systemBytes == old(systemBytes) + (if n > 256 then n else 256) * PAGE_SIZE
      ensures first == 0 && second != 0 && n < 256 ==> systemBytes == old(systemBytes) + n * PAGE_SIZE
    {
      hide Books.Balanced, FreeLists.Valid, Total, Coalesced, Carved, Covered, Tiled, PageLayout.Grown, Within;
      hide SamePages;
      ghost var (p, m) := Granted(n, first, second);
      ghost var h := books.h;
      SelfWithin(h, p, m);
      books.ListedAreFree(null);
      span := null;
      var ok := GrowHeap(n, first, second, leaves);
      if ok {
        GrowthSuffices(h, p, m, n, MAX_PAGES);
        ghost var g := books.h;
        span := NewFromLarge(n);
        SameWithin(h, g, books.h, p, m);
      }
    }

    /**
     n pages for the caller, or NULL. When no free span is long enough the heap grows
     once, and then only the large list is searched.
     */
    method New(n: nat, first: nat, second: nat, leaves: set<nat>) returns (span: Span?)
      requires Valid()
      requires MayGrant(books.h, n, first, second)
      modifies this, lists, repr
      ensures Valid() && UsersUndisturbed() && fresh(repr - old(repr)) && repr >= old(repr)
      ensures span != null ==> HandedOut(span, n)
      ensures span != null ==> (span !in old(books).home || old(books).Free(span)) && span.start !in Used(old(books).h)
      ensures Used(books.h) ==
                if span == null then Used(old(books).h) else Used(old(books).h)[span.start := Block(n, false, 0)]
      ensures PagesKept(old(books).h, books.h)
      ensures var (p, m) := Granted(n, first, second); Within(old(books).h, books.h, p, m)
      ensures span == null <==> Fails(old(books).h, old(pagemap), n, first, second, leaves)
      ensures n == 0 ==> span == null && books == old(books)
      ensures n > 0 && (exists a :: Adequate(old(books).h, a, n)) ==>
                && span != null && BestFit(old(books).h, span.start, n, MAX_PAGES)
                && books.h == Carved(old(books).h, span.start, n)
      ensures n > 0 && (forall a :: !Adequate(old(books).h, a, n)) && !Grows(old(pagemap), n, first, second, leaves) ==>
                span == null && books.h == old(books).h
      ensures n > 0 && (forall a :: !Adequate(old(books).h, a, n)) && Grows(old(pagemap), n, first, second, leaves) ==>
                var (p, m) := Granted(n, first, second);
                var g := Grown(old(books).h, p, m);
                && (span != null <==> MAX_PAGES <= GrownLen(old(books).h, p, m))
                && (span != null ==> BestFit(g, span.start, n, MAX_PAGES) && books.h == Carved(g, span.start, n))
                && (span == null ==> books.h == g)
      ensures n == 0 || (exists a :: Adequate(old(books).h, a, n)) ==> systemBytes == old(systemBytes)
      ensures n > 0 && (forall a :: !Adequate(old(books).h, a, n)) && first == 0 && (n >= 256 || second == 0) ==>
                span == null && books.h == old(books).h && systemBytes == old(systemBytes)
      ensures n > 0 && (forall a :: !Adequate(old(books).h, a, n)) && first != 0 ==>
                systemBytes == old(systemBytes) + (if n > 256 then n else 256) * PAGE_SIZE
      ensures n > 0 && (forall a :: !Adequate(old(books).h, a, n)) && first == 0 && second != 0 && n < 256 ==>
                systemBytes == old(systemBytes) + n * PAGE_SIZE
    {
      hide PageHeap.Inv, Total, Coalesced, Carved, Covered, Tiled, PageLayout.Grown, Within, SamePages;
      hide PagesKept, GrownLen;
      ghost var (p, m) := Granted(n, first, second);
      ghost var h := books.h;
      SelfWithin(h, p, m);
      PagesKeptSelf(h);
      if n == 0 {
        Separate(null);
        return null;
      }
      span := NewFromFree(n);
      if span == null {
        span := NewFromGrowth(n, first, second, leaves);
      } else {
        SameWithin(h, h, books.h, p, m);
      }
    }

    lemma PagesKeptSelf(h: Layout)
      ensures PagesKept(h, h)
    {
    }
  }
}
