/**
 The books of the page heap as one value: the layout, who describes each block, the page
 map and the free lists. Every step of the page heap is a step on this value that keeps
 it balanced.
 */
module HeapBooks {
  import opened SpanLists
  import opened PageLayout
  import opened BoundaryTags

  const MAX_PAGES: nat := 256

  /** The list a free span of this length is kept on: one per length, then the large list. */
  function Bin(len: nat): nat {
    if len < MAX_PAGES then len else MAX_PAGES
  }

  /** RecordSpan: the page map with both ends of a run pointing to its descriptor. */
  function Recorded(tags: map<nat, Span?>, start: nat, len: nat, d: Span?): map<nat, Span?> {
    var first := tags[start := d];
    if len > 1 then first[start + len - 1 := d] else first
  }

  datatype Books = Books(h: Layout, at: map<nat, Span?>, home: map<Span?, nat>,
                         tags: map<nat, Span?>, bin: map<Span, nat>)
  {
    ghost predicate Free(s: Span?) {
      s in home && home[s] in h && h[home[s]].free
    }

    ghost function Len(s: Span?): nat {
      if s in home && home[s] in h then h[home[s]].len else 0
    }

    ghost predicate BlockHomed(a: nat) {
      && (a in h <==> a in at)
      && (a in at ==> at[a] != null && at[a] in home && home[at[a]] == a)
    }

    ghost predicate SpanHomed(s: Span?) {
      s in home ==> s != null && home[s] in at && at[home[s]] == s
    }

    /** A span is listed iff it is free, on the list its length dictates. */
    ghost predicate SpanListed(s: Span?, loose: Span?) {
      && (s in bin ==> Free(s) && bin[s] == Bin(Len(s)))
      && (Free(s) && s != loose ==> s in bin)
    }

    /** Blocks and descriptors correspond one to one. */
    ghost predicate Homed() {
      && (forall a: nat {:trigger BlockHomed(a)} :: BlockHomed(a))
      && (forall s {:trigger SpanHomed(s)} :: s in home ==> SpanHomed(s))
    }

    /** The lists hold exactly the free spans; `loose` may be left out. */
    ghost predicate Listed(loose: Span?) {
      && (forall s {:trigger SpanListed(s, loose)} :: s in bin ==> SpanListed(s, loose))
      && (forall s {:trigger SpanListed(s, loose)} :: s in home ==> SpanListed(s, loose))
    }

    ghost predicate Balanced(loose: Span?) {
      Tiled(h) && Tagged(h, at, tags, null) && Homed() && Listed(loose)
    }

    lemma ListedAreFree(loose: Span?)
      requires Balanced(loose)
      ensures Tiled(h) && forall s :: s in bin ==> s in home && Free(s) && bin[s] == Bin(Len(s))
    {
      forall s | s in bin ensures s in home && Free(s) && bin[s] == Bin(Len(s)) { assert SpanListed(s, loose); }
    }

    /** No two descriptors share a block. */
    lemma OneHome(s: Span?, loose: Span?)
      requires Balanced(loose) && s in home
      ensures home[s] > 0
      ensures forall t :: t in home && home[t] == home[s] ==> t == s
      ensures forall t :: t in bin ==> t in home
    {
      hide Tiled;
      assert SpanHomed(s) && BlockHomed(home[s]) && BlockTags(h, at, tags, home[s]);
      forall t | t in home && home[t] == home[s] ensures t == s { assert SpanHomed(s) && SpanHomed(t); }
      forall t | t in bin ensures t in home { assert SpanListed(t, loose); }
    }

    lemma LooserBalanced(loose: Span?)
      requires Balanced(null)
      ensures Balanced(loose)
    {
      hide Tiled, Tagged;
      forall s | s in bin || s in home ensures SpanListed(s, loose) {
        assert SpanListed(s, null) && (s in home ==> SpanHomed(s));
      }
    }

    lemma EmptyBalanced()
      requires this == Books(map[], map[], map[], map[], map[])
      ensures Balanced(null)
    {
    }

    /** The tag before a span tells whether a free block ends there, and which. */
    lemma TagTellsBefore(span: Span?)
      requires Balanced(null) && span in home
      ensures home[span] in h && home[span] > 0 && home[span] - 1 in tags
      ensures var d := tags[home[span] - 1];
              && (d != null ==> d in home && home[d] + Len(d) == home[span])
              && (d != null ==> home[d] < home[span] && d != span && home[d] in h)
              && MergedStart(h, home[span]) == if d != null && Free(d) then home[d] else home[span]
    {
      BothHomed(span, span);
      var a := home[span];
      TagBefore(h, at, tags, null, a);
      var d := tags[a - 1];
      if d != null {
        var b: nat :| b in h && b + h[b].len == a;
        assert BlockHomed(b);
      }
      forall b: nat | FreeBefore(h, b, a) ensures d != null && b == home[d] && Free(d) { assert BlockHomed(b); }
      assert d != null && Free(d) ==> FreeBefore(h, home[d], a);
    }

    /** The page after a span tells whether a free block starts there, and which. */
    lemma TagTellsAfter(span: Span?)
      requires Balanced(null) && span in home
      ensures home[span] in h && h[home[span]].len > 0 && home[span] + Len(span) in tags
      ensures var d := tags[home[span] + Len(span)];
              && (d != null ==> d in home && home[span] + Len(span) == home[d] && d != span && home[d] in h)
              && (FreeAt(h, home[span] + Len(span)) <==> d != null && Free(d))
    {
      BothHomed(span, span);
      var a := home[span];
      TagAfter(h, at, tags, null, a);
      if a + h[a].len in h { assert BlockHomed(a + h[a].len); }
    }

    /** A free span leaves its list. */
    ghost function Unlinked(s: Span): Books {
      this.(bin := bin - {s})
    }

    lemma UnlinkedBalanced(s: Span)
      requires Balanced(null) && Free(s)
      ensures s in bin && bin[s] == Bin(Len(s)) && Unlinked(s).Balanced(s)
    {
      hide Tiled, Tagged;
      assert SpanListed(s, null) && SpanHomed(s);
      var c := Unlinked(s);
      forall x: nat ensures c.BlockHomed(x) { assert BlockHomed(x); }
      forall t | t in c.home ensures c.SpanHomed(t) { assert SpanHomed(t); }
      forall t | t in c.bin || t in c.home ensures c.SpanListed(t, s) { assert SpanListed(t, null); }
    }

    /** s describes block b, which starts at `start`. */
    ghost predicate Has(s: Span?, start: nat, b: Block) {
      s in home && home[s] == start && start in h && h[start] == b
    }

    /** What a step did to the descriptors: `gone` left, and at most s and d differ from before. */
    ghost predicate OnlyMoved(was: Books, s: Span?, d: Span?, gone: Span?) {
      && s in home && d in home && (gone == s || gone == d || gone !in home)
      && (forall t {:trigger t in was.home} :: t in was.home && t != gone ==> t in home)
      && (forall t {:trigger t in home} :: t in home && t != s && t != d ==>
            t in was.home && home[t] == was.home[t] && home[t] in h && home[t] in was.h && h[home[t]] == was.h[home[t]])
    }

    lemma BothHomed(s: Span?, t: Span?)
      requires Homed() && s in home && t in home
      ensures home[s] in h && home[s] in at && at[home[s]] == s
      ensures home[t] in h && home[t] in at && at[home[t]] == t
    {
      assert SpanHomed(s) && SpanHomed(t) && BlockHomed(home[s]) && BlockHomed(home[t]);
    }
  
    ghost function TookLeft(prev: Span?, span: Span?): Books
      requires prev in home && span in home && home[prev] in h && home[span] in h
    {
      var b, a := home[prev], home[span];
      Books(Join(h, b, a), (at - {a})[b := span], (home - {prev})[span := b], tags[b := span], bin)
    }

    lemma TookLeftListed(prev: Span?, span: Span?)
      requires Homed() && Listed(prev) && prev in home && span in home && prev !in bin && !Free(span)
      requires home[prev] + Len(prev) == home[span] && home[span] in h && home[prev] in h && prev != span
      ensures TookLeft(prev, span).Homed() && TookLeft(prev, span).Listed(null)
    {
      var c := TookLeft(prev, span);
      assert SpanHomed(prev) && SpanHomed(span) && BlockHomed(home[prev]) && BlockHomed(home[span]);
      forall x: nat ensures c.BlockHomed(x) { assert BlockHomed(x); }
      forall s | s in c.home ensures c.SpanHomed(s) { assert SpanHomed(s); }
      forall s | s in c.bin || s in c.home ensures c.SpanListed(s, null) {
        assert SpanListed(s, prev) && SpanHomed(s) && SpanListed(span, prev);
      }
    }

    lemma TookLeftMoved(prev: Span?, span: Span?)
      requires Homed() && prev in home && span in home && prev != span && home[prev] in h && home[span] in h
      ensures var c := TookLeft(prev, span);
              c.OnlyMoved(this, span, span, prev) && c.Has(span, home[prev], Block(Len(prev) + Len(span), false, 0))
    {
      var c := TookLeft(prev, span);
      forall t | t in c.home && t != span
        ensures t in home && home[t] in c.h && home[t] in h && c.h[home[t]] == h[home[t]]
      {
        assert SpanHomed(t) && SpanHomed(prev) && SpanHomed(span) && BlockHomed(home[t]);
      }
    }

    /** The descriptor span takes over the block of prev, a free span off its list that ends where span starts. */
    lemma TookLeftBalanced(prev: Span?, span: Span?)
      requires Balanced(prev) && prev in home && span in home && prev !in bin && prev != span && !Free(span)
      requires home[prev] + Len(prev) == home[span]
      ensures home[prev] in h && home[span] in h && TookLeft(prev, span).Balanced(null)
      ensures var c := TookLeft(prev, span);
              c.tags == tags[home[prev] := span] && c.bin == bin && c.h == Join(h, home[prev], home[span])
      ensures var c := TookLeft(prev, span);
              c.OnlyMoved(this, span, span, prev) && c.Has(span, home[prev], Block(Len(prev) + Len(span), false, 0))
    {
      hide Tiled, Tagged, SamePages, Total, Homed, Listed, TookLeft, OnlyMoved, Has;
      BothHomed(prev, span);
      TookLeftListed(prev, span);
      TookLeftMoved(prev, span);
      JoinLeftTagged(h, at, tags, null, home[prev], home[span]);
      JoinKeeps(h, home[prev], home[span]);
      TookLeftParts(prev, span);
    }

    lemma TookLeftParts(prev: Span?, span: Span?)
      requires prev in home && span in home && home[prev] in h && home[span] in h
      ensures var c, b, a := TookLeft(prev, span), home[prev], home[span];
              c.h == Join(h, b, a) && c.at == (at - {a})[b := span] && c.tags == tags[b := span] && c.bin == bin
    {
    }

    ghost function TookRight(span: Span?, next: Span?): Books
      requires next in home && span in home && home[next] in h && home[span] in h
    {
      var a, e := home[span], home[next];
      var last := if h[e].len > 0 then e + h[e].len - 1 else e;
      Books(Join(h, a, e), at - {e}, home - {next}, tags[last := span], bin)
    }

    lemma TookRightListed(span: Span?, next: Span?)
      requires Homed() && Listed(next) && next in home && span in home && next !in bin && !Free(span)
      requires home[span] + Len(span) == home[next] && home[span] in h && home[next] in h && next != span
      ensures TookRight(span, next).Homed() && TookRight(span, next).Listed(null)
    {
      var c := TookRight(span, next);
      assert SpanHomed(next) && SpanHomed(span) && BlockHomed(home[next]) && BlockHomed(home[span]);
      forall x: nat ensures c.BlockHomed(x) { assert BlockHomed(x); }
      forall s | s in c.home ensures c.SpanHomed(s) { assert SpanHomed(s); }
      forall s | s in c.bin || s in c.home ensures c.SpanListed(s, null) {
        assert SpanListed(s, next) && SpanHomed(s) && SpanListed(span, next);
      }
    }

    lemma TookRightMoved(span: Span?, next: Span?)
      requires Homed() && next in home && span in home && next != span && home[next] in h && home[span] in h
      ensures var c := TookRight(span, next);
              c.OnlyMoved(this, span, span, next) && c.Has(span, home[span], Block(Len(span) + Len(next), false, 0))
    {
      var c := TookRight(span, next);
      forall t | t in c.home && t != span
        ensures t in home && home[t] in c.h && home[t] in h && c.h[home[t]] == h[home[t]]
      {
        assert SpanHomed(t) && SpanHomed(next) && SpanHomed(span) && BlockHomed(home[t]);
      }
      assert SpanHomed(next) && SpanHomed(span);
    }

    lemma TookRightBalanced(span: Span?, next: Span?)
      requires Balanced(next) && next in home && span in home && next !in bin && next != span && !Free(span)
      requires home[span] + Len(span) == home[next]
      ensures home[next] in h && home[span] in h && h[home[next]].len > 0 && TookRight(span, next).Balanced(null)
      ensures var c := TookRight(span, next);
              && c.tags == tags[home[next] + Len(next) - 1 := span] && c.bin == bin
              && c.h == Join(h, home[span], home[next])
      ensures var c := TookRight(span, next);
              c.OnlyMoved(this, span, span, next) && c.Has(span, home[span], Block(Len(span) + Len(next), false, 0))
    {
      hide Tagged, SamePages, Total, Homed, Listed, OnlyMoved, Has;
      BothHomed(span, next);
      TookRightListed(span, next);
      TookRightMoved(span, next);
      JoinRightTagged(h, at, tags, null, home[span], home[next]);
      JoinKeeps(h, home[span], home[next]);
    }

    /** An unlisted block becomes free, or stops being free; it then belongs to no size class. */
    ghost function Retyped(span: Span?, free: bool): Books
      requires span in home && home[span] in h
    {
      this.(h := h[home[span] := Block(h[home[span]].len, free, 0)])
    }

    lemma RetypedSame(span: Span?, free: bool)
      requires span in home && home[span] in h
      ensures Retyped(span, free).tags == tags && Retyped(span, free).bin == bin
    {
    }

    lemma RetypedBalanced(span: Span?, free: bool)
      requires Balanced(span) && span in home && span !in bin
      ensures home[span] in h && Retyped(span, free).Balanced(span)
      ensures !free ==> Retyped(span, free).Balanced(null)
      ensures Retyped(span, free).OnlyMoved(this, span, span, null)
      ensures Retyped(span, free).Has(span, home[span], Block(Len(span), free, 0))
    {
      BothHomed(span, span);
      RetypedTagged(h, at, tags, null, home[span], free);
      hide Tagged;
      var c := Retyped(span, free);
      forall x: nat ensures c.BlockHomed(x) { assert BlockHomed(x); }
      forall s | s in c.home ensures c.SpanHomed(s) { assert SpanHomed(s); }
      forall s | s in c.bin || s in c.home ensures c.SpanListed(s, span) && (!free ==> c.SpanListed(s, null)) {
        assert SpanListed(s, span) && SpanHomed(s) && SpanHomed(span);
      }
      forall t | t in home ensures SpanHomed(t) && BlockHomed(home[t]) { assert SpanHomed(t); }
    }

    ghost function Linked(span: Span): Books {
      this.(bin := bin[span := Bin(Len(span))])
    }

    lemma LinkedBalanced(span: Span)
      requires Balanced(span) && Free(span)
      ensures Linked(span).Balanced(null)
    {
      var c := Linked(span);
      forall x: nat ensures c.BlockHomed(x) { assert BlockHomed(x); }
      forall s | s in c.home ensures c.SpanHomed(s) { assert SpanHomed(s); }
      forall s | s in c.bin || s in c.home ensures c.SpanListed(s, null) { assert SpanListed(s, span); }
    }

    /** The rest of a block behind its first n pages goes to a new descriptor d. */
    ghost function CutOff(span: Span?, n: nat, d: Span, rest: bool): Books
      requires span in home && home[span] in h && 0 < n < h[home[span]].len
    {
      var a := home[span];
      Books(Cut(h, a, n, rest), at[a + n := d], home[d := a + n],
            Recorded(tags, a + n, h[a].len - n, d)[a + n - 1 := span], bin)
    }

    lemma CutOffListed(span: Span?, n: nat, d: Span, rest: bool)
      requires Homed() && Listed(null) && span in home && home[span] in h && !Free(span)
      requires d !in home && 0 < n < h[home[span]].len && home[span] + n !in h
      ensures CutOff(span, n, d, rest).Homed() && CutOff(span, n, d, rest).Listed(if rest then d else null)
    {
      var c := CutOff(span, n, d, rest);
      assert SpanHomed(span) && BlockHomed(home[span]) && BlockHomed(home[span] + n);
      forall x: nat ensures c.BlockHomed(x) { assert BlockHomed(x); }
      forall s | s in c.home ensures c.SpanHomed(s) { assert SpanHomed(s); }
      var loose := if rest then d else null;
      forall s | s in c.bin || s in c.home ensures c.SpanListed(s, loose) {
        assert s != d ==> SpanListed(s, null) && SpanHomed(s);
        assert SpanListed(span, null) && (d in bin ==> SpanListed(d, null));
      }
    }

    lemma CutOffMoved(span: Span?, n: nat, d: Span, rest: bool)
      requires Homed() && span in home && home[span] in h && h[home[span]].cl == 0
      requires d !in home && 0 < n < h[home[span]].len && home[span] + n !in h
      ensures var c := CutOff(span, n, d, rest);
              && c.OnlyMoved(this, span, d, null) && c.Has(span, home[span], Block(n, false, 0))
              && c.Has(d, home[span] + n, Block(Len(span) - n, rest, 0))
    {
      forall t | t in home ensures SpanHomed(t) && BlockHomed(home[t]) { assert SpanHomed(t); }
    }

    lemma CutOffBalanced(span: Span?, n: nat, d: Span, rest: bool)
      requires Balanced(null) && span in home && !Free(span) && home[span] in h && h[home[span]].cl == 0
      requires d !in home && 0 < n < h[home[span]].len
      ensures home[span] + n !in h && CutOff(span, n, d, rest).Balanced(if rest then d else null)
      ensures var c := CutOff(span, n, d, rest);
              && c.h == Cut(h, home[span], n, rest) && c.bin == bin
              && c.tags == Recorded(tags, home[span] + n, Len(span) - n, d)[home[span] + n - 1 := span]
      ensures var c := CutOff(span, n, d, rest);
              && c.OnlyMoved(this, span, d, null) && c.Has(span, home[span], Block(n, false, 0))
              && c.Has(d, home[span] + n, Block(Len(span) - n, rest, 0))
    {
      hide Tagged, SamePages, Total, Homed, Listed, OnlyMoved, Has;
      BothHomed(span, span);
      CutKeeps(h, home[span], n, rest);
      CutTagged(h, at, tags, null, home[span], n, rest, d);
      var a := home[span];
      assert Recorded(tags, a + n, h[a].len - n, d) == tags[a + n := d][a + h[a].len - 1 := d];
      CutOffListed(span, n, d, rest);
      CutOffMoved(span, n, d, rest);
    }

    /** Every page of a block has a leaf; its ends map to its descriptor. */
    lemma PagesInTags(span: Span?)
      requires Balanced(null) && span in home
      ensures home[span] in h
      ensures forall q :: home[span] - 1 <= q <= home[span] + Len(span) ==> q in tags
      ensures Len(span) > 0 && tags[home[span]] == span && tags[home[span] + Len(span) - 1] == span
    {
      BothHomed(span, span);
      assert BlockTags(h, at, tags, home[span]);
    }

    /** Any page of a block of a size class maps to its descriptor. */
    lemma ClassPageResolves(span: Span?, q: nat)
      requires Balanced(null) && span in home && home[span] <= q < home[span] + Len(span)
      requires home[span] in h && h[home[span]].cl != 0
      ensures q in tags && tags[q] == span
    {
      BothHomed(span, span);
      assert BlockTags(h, at, tags, home[span]) && TagIs(tags, q, span);
    }

    ghost function Registered(span: Span?, cl: nat, tags': map<nat, Span?>): Books
      requires span in home && home[span] in h
    {
      this.(h := h[home[span] := Block(h[home[span]].len, false, cl)], tags := tags')
    }

    lemma RegisteredBalanced(span: Span?, cl: nat, tags': map<nat, Span?>)
      requires Balanced(null) && span in home && !Free(span)
      requires home[span] in h && tags'.Keys == tags.Keys
      requires forall q :: q in tags ==>
                 tags'[q] == if home[span] < q < home[span] + Len(span) - 1 then span else tags[q]
      ensures Registered(span, cl, tags').Balanced(null)
      ensures Registered(span, cl, tags').OnlyMoved(this, span, span, null)
      ensures Registered(span, cl, tags').Has(span, home[span], Block(Len(span), false, cl))
    {
      BothHomed(span, span);
      RegisteredTagged(h, at, tags, null, home[span], cl, tags');
      hide Tagged, Tiled;
      var c := Registered(span, cl, tags');
      forall x: nat ensures c.BlockHomed(x) { assert BlockHomed(x); }
      forall s | s in c.home ensures c.SpanHomed(s) && (s in home ==> SpanHomed(s) && BlockHomed(home[s])) {
        assert s in home ==> SpanHomed(s) && BlockHomed(home[s]);
      }
      forall s | s in c.bin || s in c.home ensures c.SpanListed(s, null) {
        assert SpanListed(s, null) && SpanHomed(s);
      }
    }

    lemma WidenedBalanced(tags': map<nat, Span?>)
      requires Balanced(null) && Widened(tags, tags', null)
      ensures this.(tags := tags').Balanced(null)
    {
      WidenedTagged(h, at, tags, null, tags');
      hide Tagged, Tiled;
      var c := this.(tags := tags');
      forall x: nat ensures c.BlockHomed(x) { assert BlockHomed(x); }
      forall s | s in c.home ensures c.SpanHomed(s) { assert SpanHomed(s); }
      forall s | s in c.bin || s in c.home ensures c.SpanListed(s, null) { assert SpanListed(s, null); }
    }

    /** A listed span shorter than MAX_PAGES that no shorter adequate span beats is a best fit. */
    lemma ShortestIsBest(s: Span, n: nat)
      requires Balanced(null) && s in bin && n <= Len(s) < MAX_PAGES
      requires forall t :: t in bin && n <= Len(t) ==> Len(s) <= Len(t)
      ensures s in home && BestFit(h, home[s], n, MAX_PAGES)
    {
      assert SpanListed(s, null);
      forall b | Adequate(h, b, n) ensures Len(s) <= h[b].len {
        assert BlockHomed(b);
        assert SpanListed(at[b], null);
      }
    }

    /** The best of the large list is the best among the large blocks. */
    lemma BestOnLargeList(s: Span, n: nat)
      requires Balanced(null) && s in bin && bin[s] == MAX_PAGES && n <= Len(s) && s in home
      requires forall t :: t in bin && bin[t] == MAX_PAGES && n <= Len(t) && t in home ==>
                 Len(s) < Len(t) || (Len(s) == Len(t) && home[s] <= home[t])
      ensures BestLargeFit(h, home[s], n, MAX_PAGES)
    {
      assert SpanListed(s, null);
      forall b | Adequate(h, b, n) && MAX_PAGES <= h[b].len
        ensures Len(s) < h[b].len || (Len(s) == h[b].len && home[s] <= b)
      {
        assert BlockHomed(b);
        assert SpanListed(at[b], null);
      }
    }

    /** When the short lists and the large list offer nothing, nothing is adequate. */
    lemma NothingAdequate(n: nat)
      requires Balanced(null)
      requires forall t :: t in bin && n <= Len(t) ==> bin[t] == MAX_PAGES
      requires forall a :: Adequate(h, a, n) ==> h[a].len < MAX_PAGES
      ensures forall a :: !Adequate(h, a, n)
    {
      forall a ensures !Adequate(h, a, n) {
        if a in h && h[a].free {
          assert BlockHomed(a);
          assert SpanListed(at[a], null);
        }
      }
    }

    /** When the short lists offer nothing, the best large block is the best block. */
    lemma LargeIsBest(s: Span?, n: nat)
      requires Balanced(null) && s in home
      requires forall t :: t in bin && n <= Len(t) ==> bin[t] == MAX_PAGES
      requires BestLargeFit(h, home[s], n, MAX_PAGES)
      ensures BestFit(h, home[s], n, MAX_PAGES)
    {
      forall b | Adequate(h, b, n) ensures MAX_PAGES <= h[b].len {
        assert BlockHomed(b);
        assert SpanListed(at[b], null);
      }
    }

    /** Without a span of n pages on the large list every adequate block is small. */
    lemma NoneOnLargeList(n: nat)
      requires Balanced(null) && forall t :: t in bin && bin[t] == MAX_PAGES ==> Len(t) < n
      ensures forall a :: Adequate(h, a, n) ==> h[a].len < MAX_PAGES
    {
      forall a | Adequate(h, a, n) ensures h[a].len < MAX_PAGES {
        if a in h && h[a].free {
          assert BlockHomed(a);
          assert SpanListed(at[a], null);
        }
      }
    }

    ghost function Grown(p: nat, n: nat, d: Span, tags': map<nat, Span?>): Books {
      Books(h[p := Block(n, false, 0)], at[p := d], home[d := p], tags', bin)
    }

    lemma GrownHomed(p: nat, n: nat, d: Span, tags': map<nat, Span?>)
      requires Homed() && Listed(null) && d !in home && p !in h
      ensures Grown(p, n, d, tags').Homed() && Grown(p, n, d, tags').Listed(null)
    {
      var c := Grown(p, n, d, tags');
      assert BlockHomed(p);
      forall x: nat ensures c.BlockHomed(x) { assert BlockHomed(x); }
      forall s | s in c.home ensures c.SpanHomed(s) && (s in home ==> SpanHomed(s) && BlockHomed(home[s])) {
        assert s in home ==> SpanHomed(s) && BlockHomed(home[s]);
      }
      forall s | s in c.bin || s in c.home ensures c.SpanListed(s, null) {
        assert SpanListed(s, null) && SpanHomed(s);
      }
    }

    lemma GrownMoved(p: nat, n: nat, d: Span, tags': map<nat, Span?>)
      requires Homed() && d !in home && p !in h
      ensures Grown(p, n, d, tags').OnlyMoved(this, d, d, null) && Grown(p, n, d, tags').Has(d, p, Block(n, false, 0))
    {
      forall s | s in home ensures SpanHomed(s) && BlockHomed(home[s]) {}
    }

    lemma GrownBalanced(p: nat, n: nat, d: Span, tags': map<nat, Span?>)
      requires Balanced(null) && d !in home && GrownTags(tags, tags', null, p, n, d)
      requires forall q :: p <= q < p + n ==> !Covered(h, q)
      ensures p !in h && Grown(p, n, d, tags').Balanced(null)
      ensures Grown(p, n, d, tags').OnlyMoved(this, d, d, null) && Grown(p, n, d, tags').Has(d, p, Block(n, false, 0))
      ensures forall q: nat :: Covered(Grown(p, n, d, tags').h, q) <==> Covered(h, q) || p <= q < p + n
    {
      hide Tagged, Tiled, Covered, GrownTags, Homed, Listed, OnlyMoved, Has;
      GrownTagged(h, at, tags, null, p, n, tags', d);
      GrownHomed(p, n, d, tags');
      GrownMoved(p, n, d, tags');
      var h' := h[p := Block(n, false, 0)];
      assert Grown(p, n, d, tags').h == h';
      forall q: nat ensures Covered(h', q) <==> Covered(h, q) || p <= q < p + n { RunCovers(h, p, n, q); }
    }
  }
}
