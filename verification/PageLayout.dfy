/**
 The page heap as a value: which runs of pages exist, and which of them are free.
 The class in PageHeap.dfy is proved against the operations defined here.
 */
module PageLayout {

  /** A run of `len` pages; its first page is its key in the layout. */
  datatype Block = Block(len: nat, free: bool, cl: nat)

  type Layout = map<nat, Block>

  /** Blocks are nonempty, do not overlap, and free ones belong to no size class. */
  ghost predicate Tiled(h: Layout) {
    && (forall a :: a in h ==> h[a].len > 0 && (h[a].free ==> h[a].cl == 0))
    && (forall a, b :: a in h && b in h && a < b ==> a + h[a].len <= b)
  }

  /** No two neighbouring blocks are both free. */
  ghost predicate Coalesced(h: Layout) {
    forall a, b :: a in h && b in h && a + h[a].len == b ==> !(h[a].free && h[b].free)
  }

  ghost predicate In(h: Layout, a: nat, q: nat) {
    a in h && a <= q < a + h[a].len
  }

  /** Page q belongs to some block. */
  ghost predicate Covered(h: Layout, q: nat) {
    exists a :: In(h, a, q)
  }

  ghost predicate SamePages(h: Layout, h': Layout) {
    forall q: nat :: Covered(h, q) <==> Covered(h', q)
  }

  /** What the callers of the page heap hold: the blocks that are not free. */
  ghost function Used(h: Layout): Layout {
    map a | a in h && !h[a].free :: h[a]
  }

  // ---------- operations ----------

  /** Block a cut after its first n pages; the front is in use. */
  ghost function Cut(h: Layout, a: nat, n: nat, rest: bool): Layout
    requires a in h && 0 < n < h[a].len
  {
    h[a := Block(n, false, h[a].cl)][a + n := Block(h[a].len - n, rest, 0)]
  }

  /** The first n pages of the free block a handed out, the rest kept as a free block. */
  ghost function Carved(h: Layout, a: nat, n: nat): Layout
    requires a in h && 0 < n <= h[a].len
  {
    if n == h[a].len then Declassed(h, a) else Cut(Declassed(h, a), a, n, true)
  }

  ghost function Declassed(h: Layout, a: nat): Layout
    requires a in h
  {
    h[a := Block(h[a].len, false, 0)]
  }

  /** The free block that ends where block a starts, if there is one. */
  ghost predicate FreeBefore(h: Layout, b: nat, a: nat) {
    b in h && h[b].free && b + h[b].len == a
  }

  ghost predicate FreeAt(h: Layout, e: nat) {
    e in h && h[e].free
  }

  ghost function MergedStart(h: Layout, a: nat): (lo: nat)
    ensures lo == a || FreeBefore(h, lo, a)
    ensures lo == a ==> forall b: nat :: FreeBefore(h, b, a) ==> b == a
  {
    if exists b: nat :: FreeBefore(h, b, a) && b < a then (var b: nat :| FreeBefore(h, b, a) && b < a; b) else a
  }

  /** Neighbouring blocks b and a as one block in use. */
  ghost function Join(h: Layout, b: nat, a: nat): Layout
    requires a in h && b in h
  {
    (h - {a})[b := Block(h[b].len + h[a].len, false, 0)]
  }

  ghost function JoinedLeft(h: Layout, a: nat): (h': Layout)
    requires a in h
  {
    var lo := MergedStart(h, a);
    if lo == a then h else Join(h, lo, a)
  }

  ghost function JoinedRight(h: Layout, a: nat): Layout
    requires a in h
  {
    var e := a + h[a].len;
    if FreeAt(h, e) then Join(h, a, e) else h
  }

  ghost function Marked(h: Layout, a: nat): Layout
    requires a in h
  {
    h[a := Block(h[a].len, true, 0)]
  }

  /** Block a given back: joined with its free neighbours and marked free. */
  ghost function Freed(h: Layout, a: nat): Layout
    requires a in h
  {
    var lo := MergedStart(h, a);
    Marked(JoinedRight(JoinedLeft(h, a), lo), lo)
  }

  // ---------- searching ----------

  ghost predicate Adequate(h: Layout, a: nat, n: nat) {
    a in h && h[a].free && n <= h[a].len
  }

  /** Least adequate length; from `large` pages on, the lowest address among equals. */
  ghost predicate BestFit(h: Layout, a: nat, n: nat, large: nat) {
    && Adequate(h, a, n)
    && forall b :: Adequate(h, b, n) ==>
         h[a].len < h[b].len || (h[a].len == h[b].len && (h[a].len >= large ==> a <= b))
  }

  /** The best fit among blocks of at least `large` pages. */
  ghost predicate BestLargeFit(h: Layout, a: nat, n: nat, large: nat) {
    && Adequate(h, a, n) && large <= h[a].len
    && forall b :: Adequate(h, b, n) && large <= h[b].len ==>
         h[a].len < h[b].len || (h[a].len == h[b].len && a <= b)
  }

  /** Nothing that was registered gets lost. */
  ghost predicate PagesKept(h: Layout, h': Layout) {
    forall q: nat :: Covered(h, q) ==> Covered(h', q)
  }

  // ---------- totals ----------

  ghost function Total(h: Layout, w: Block -> nat): nat {
    if h == map[] then 0 else
      var a :| a in h;
      w(h[a]) + Total(h - {a}, w)
  }

  ghost function Pages(b: Block): nat { b.len }

  ghost function FreePages(b: Block): nat { if b.free then b.len else 0 }

  lemma {:induction false} TotalWithout(h: Layout, w: Block -> nat, a: nat)
    requires a in h
    ensures Total(h, w) == w(h[a]) + Total(h - {a}, w)
    decreases |h|
  {
    var b :| b in h && Total(h, w) == w(h[b]) + Total(h - {b}, w);
    if a != b {
      TotalWithout(h - {b}, w, a);
      TotalWithout(h - {a}, w, b);
      assert h - {b} - {a} == h - {a} - {b};
    }
  }

  lemma TotalUpdate(h: Layout, w: Block -> nat, a: nat, v: Block)
    ensures Total(h[a := v], w) + (if a in h then w(h[a]) else 0) == Total(h, w) + w(v)
  {
    TotalWithout(h[a := v], w, a);
    assert h[a := v] - {a} == h - {a};
    if a in h { TotalWithout(h, w, a); } else { assert h - {a} == h; }
  }

  // ---------- what the operations keep ----------

  lemma JoinIsTiled(h: Layout, b: nat, a: nat)
    requires Tiled(h) && b in h && a in h && b + h[b].len == a
    ensures Tiled(Join(h, b, a))
  {
  }

  lemma JoinSamePages(h: Layout, b: nat, a: nat)
    requires b in h && a in h && b + h[b].len == a && h[b].len > 0
    ensures SamePages(h, Join(h, b, a))
  {
    var h' := Join(h, b, a);
    forall q: nat ensures Covered(h, q) <==> Covered(h', q) {
      if c: nat :| In(h, c, q) { assert In(h', if c == a then b else c, q); }
      if c: nat :| In(h', c, q) { assert In(h, if c == b && q >= a then a else c, q); }
    }
  }

  lemma JoinTiles(h: Layout, b: nat, a: nat)
    requires Tiled(h) && b in h && a in h && b + h[b].len == a
    ensures Tiled(Join(h, b, a)) && SamePages(h, Join(h, b, a))
  {
    hide SamePages, Join;
    JoinIsTiled(h, b, a);
    JoinSamePages(h, b, a);
  }

  lemma JoinTotal(h: Layout, b: nat, a: nat, w: Block -> nat)
    requires b in h && a in h && a != b
    ensures Total(Join(h, b, a), w) + w(h[b]) + w(h[a]) == Total(h, w) + w(Join(h, b, a)[b])
  {
    TotalWithout(h, w, a);
    TotalUpdate(h - {a}, w, b, Join(h, b, a)[b]);
  }

  lemma JoinKeeps(h: Layout, b: nat, a: nat)
    requires Tiled(h) && b in h && a in h && b + h[b].len == a
    ensures Tiled(Join(h, b, a)) && SamePages(h, Join(h, b, a))
    ensures Total(Join(h, b, a), Pages) == Total(h, Pages)
    ensures Total(Join(h, b, a), FreePages) + FreePages(h[b]) + FreePages(h[a]) == Total(h, FreePages)
  {
    hide SamePages, Total;
    assert a != b;
    JoinTiles(h, b, a);
    JoinTotal(h, b, a, Pages);
    JoinTotal(h, b, a, FreePages);
  }

  lemma RetypedPages(h: Layout, a: nat, b: Block)
    requires a in h && h[a].len == b.len
    ensures SamePages(h, h[a := b])
  {
    var m := h[a := b];
    forall q: nat ensures Covered(h, q) <==> Covered(m, q) {
      if c: nat :| In(h, c, q) { assert In(m, c, q); }
      if c: nat :| In(m, c, q) { assert In(h, c, q); }
    }
  }

  lemma CutIsTiled(h: Layout, a: nat, n: nat, rest: bool)
    requires Tiled(h) && a in h && 0 < n < h[a].len
    ensures a + n !in h && Tiled(Cut(h, a, n, rest))
  {
  }

  lemma CutSamePages(h: Layout, a: nat, n: nat, rest: bool)
    requires a in h && 0 < n < h[a].len && a + n !in h
    ensures SamePages(h, Cut(h, a, n, rest))
  {
    var h' := Cut(h, a, n, rest);
    forall q: nat ensures Covered(h, q) <==> Covered(h', q) {
      if c: nat :| In(h, c, q) { assert In(h', if c == a && q >= a + n then a + n else c, q); }
      if c: nat :| In(h', c, q) { assert In(h, if c == a + n then a else c, q); }
    }
  }

  lemma CutTiles(h: Layout, a: nat, n: nat, rest: bool)
    requires Tiled(h) && a in h && 0 < n < h[a].len
    ensures a + n !in h
    ensures Tiled(Cut(h, a, n, rest)) && SamePages(h, Cut(h, a, n, rest))
  {
    hide SamePages, Cut;
    CutIsTiled(h, a, n, rest);
    CutSamePages(h, a, n, rest);
  }

  lemma CutTotal(h: Layout, a: nat, n: nat, rest: bool, w: Block -> nat)
    requires a in h && 0 < n < h[a].len && a + n !in h
    ensures Total(Cut(h, a, n, rest), w) + w(h[a]) ==
            Total(h, w) + w(Block(n, false, h[a].cl)) + w(Block(h[a].len - n, rest, 0))
  {
    var m := h[a := Block(n, false, h[a].cl)];
    TotalUpdate(h, w, a, m[a]);
    TotalUpdate(m, w, a + n, Block(h[a].len - n, rest, 0));
  }

  lemma CutKeeps(h: Layout, a: nat, n: nat, rest: bool)
    requires Tiled(h) && a in h && 0 < n < h[a].len
    ensures var h' := Cut(h, a, n, rest);
            && a + n !in h && Tiled(h') && SamePages(h, h')
            && Total(h', Pages) == Total(h, Pages)
            && Total(h', FreePages) + FreePages(h[a]) ==
               Total(h, FreePages) + (if rest then h[a].len - n else 0)
  {
    CutTiles(h, a, n, rest);
    CutTotal(h, a, n, rest, Pages);
    CutTotal(h, a, n, rest, FreePages);
  }

  lemma CutCoalesces(h: Layout, a: nat, n: nat, rest: bool)
    requires Tiled(h) && Coalesced(h) && a in h && 0 < n < h[a].len
    requires rest ==> a + h[a].len in h ==> !h[a + h[a].len].free
    ensures Coalesced(Cut(h, a, n, rest))
  {
    var h' := Cut(h, a, n, rest);
    forall c, d | c in h' && d in h' && c + h'[c].len == d ensures !(h'[c].free && h'[d].free) {
      if d != a && d != a + n && c != a && c != a + n {
        assert c in h && d in h;
      } else if d == a + n {
        assert c == a;
      }
    }
  }

  lemma CutUse(h: Layout, a: nat, n: nat, rest: bool)
    requires a in h && 0 < n < h[a].len && a + n !in h
    ensures Used(Cut(h, a, n, rest)) ==
            (if rest then Used(h)[a := Block(n, false, h[a].cl)]
             else Used(h)[a := Block(n, false, h[a].cl)][a + n := Block(h[a].len - n, false, 0)])
  {
  }

  lemma TakenKeeps(h: Layout, a: nat)
    requires Tiled(h) && a in h && h[a].free
    ensures var m := Declassed(h, a);
            && Tiled(m) && SamePages(h, m) && Used(m) == Used(h)[a := m[a]]
            && Total(m, Pages) == Total(h, Pages) && Total(m, FreePages) + h[a].len == Total(h, FreePages)
  {
    hide SamePages, Total;
    var m := Declassed(h, a);
    RetypedPages(h, a, m[a]);
    TotalUpdate(h, Pages, a, m[a]);
    TotalUpdate(h, FreePages, a, m[a]);
  }

  lemma TakenCoalesces(h: Layout, a: nat)
    requires Coalesced(h) && a in h && h[a].free
    ensures Coalesced(Declassed(h, a))
    ensures a + h[a].len in h && h[a].len > 0 ==> !Declassed(h, a)[a + h[a].len].free
  {
  }

  /** Handing out the front of a free block. */
  lemma CarvedKeeps(h: Layout, a: nat, n: nat)
    requires Tiled(h) && Coalesced(h) && a in h && h[a].free && 0 < n <= h[a].len
    ensures var c := Carved(h, a, n);
            && Tiled(c) && Coalesced(c) && SamePages(h, c) && Used(c) == Used(h)[a := Block(n, false, 0)]
            && Total(c, Pages) == Total(h, Pages) && Total(c, FreePages) + n == Total(h, FreePages)
    ensures a !in Used(h) && PagesKept(h, Carved(h, a, n))
  {
    hide Tiled, Coalesced, SamePages, Total, Used, Cut, PagesKept;
    NotUsed(h, a);
    var m := Declassed(h, a);
    TakenKeeps(h, a);
    TakenCoalesces(h, a);
    if n < h[a].len {
      CutKeeps(m, a, n, true);
      CutCoalesces(m, a, n, true);
      CutUse(m, a, n, true);
      SamePagesTransitive(h, m, Carved(h, a, n));
    }
    SamePagesKept(h, Carved(h, a, n));
  }

  lemma NotUsed(h: Layout, a: nat)
    requires a in h ==> h[a].free
    ensures a !in Used(h)
  {
  }

  lemma SamePagesKept(h: Layout, h': Layout)
    requires SamePages(h, h')
    ensures PagesKept(h, h')
  {
  }

  lemma SplitKeeps(h: Layout, a: nat, n: nat)
    requires Tiled(h) && Coalesced(h) && a in h && !h[a].free && 0 < n < h[a].len
    ensures var c := Cut(h, a, n, false);
            && a + n !in h && Tiled(c) && Coalesced(c) && SamePages(h, c)
            && Used(c) == Used(h)[a := Block(n, false, h[a].cl)][a + n := Block(h[a].len - n, false, 0)]
            && Total(c, Pages) == Total(h, Pages) && Total(c, FreePages) == Total(h, FreePages)
  {
    hide Tiled, Coalesced, SamePages, Total, Used, Cut;
    CutKeeps(h, a, n, false);
    CutCoalesces(h, a, n, false);
    CutUse(h, a, n, false);
  }

  lemma MarkKeeps(h: Layout, a: nat)
    requires Tiled(h) && a in h && !h[a].free
    ensures Tiled(Marked(h, a)) && SamePages(h, Marked(h, a))
    ensures Total(Marked(h, a), Pages) == Total(h, Pages)
    ensures Total(Marked(h, a), FreePages) == Total(h, FreePages) + h[a].len
  {
    hide SamePages, Total;
    var h' := Marked(h, a);
    RetypedPages(h, a, h'[a]);
    TotalUpdate(h, Pages, a, h'[a]);
    TotalUpdate(h, FreePages, a, h'[a]);
  }

  lemma SamePagesReflexive(h: Layout)
    ensures SamePages(h, h)
  {
  }

  lemma SamePagesTransitive(h: Layout, m: Layout, h': Layout)
    requires SamePages(h, m) && SamePages(m, h')
    ensures SamePages(h, h')
  {
  }

  lemma JoinedLeftKeeps(h: Layout, a: nat)
    requires Tiled(h) && a in h && !h[a].free
    ensures var lo, h1 := MergedStart(h, a), JoinedLeft(h, a);
            && lo in h1 && !h1[lo].free && lo + h1[lo].len == a + h[a].len
            && Tiled(h1) && SamePages(h, h1)
            && Total(h1, Pages) == Total(h, Pages)
            && Total(h1, FreePages) + a == Total(h, FreePages) + lo
  {
    hide Tiled, SamePages, Total;
    var lo := MergedStart(h, a);
    if lo != a { JoinKeeps(h, lo, a); } else { SamePagesReflexive(h); }
  }

  lemma JoinedRightKeeps(h: Layout, a: nat)
    requires Tiled(h) && a in h && !h[a].free
    ensures var h2 := JoinedRight(h, a);
            && a in h2 && !h2[a].free && h2[a].len >= h[a].len
            && Tiled(h2) && SamePages(h, h2)
            && Total(h2, Pages) == Total(h, Pages)
            && Total(h2, FreePages) + h2[a].len == Total(h, FreePages) + h[a].len
  {
    hide Tiled, SamePages, Total;
    var e := a + h[a].len;
    if FreeAt(h, e) { JoinKeeps(h, a, e); } else { SamePagesReflexive(h); }
  }

  /** Giving a block back keeps the pages, drops exactly that block from use, and coalesces. */
  lemma FreedKeeps(h: Layout, a: nat)
    requires Tiled(h) && Coalesced(h) && a in h && !h[a].free
    ensures Tiled(Freed(h, a)) && Coalesced(Freed(h, a))
    ensures SamePages(h, Freed(h, a)) && Used(Freed(h, a)) == Used(h) - {a}
    ensures Total(Freed(h, a), Pages) == Total(h, Pages)
    ensures Total(Freed(h, a), FreePages) == Total(h, FreePages) + h[a].len
  {
    hide Tiled, Coalesced, SamePages, Total, Used, Join, FreeBefore;
    var lo, h1 := MergedStart(h, a), JoinedLeft(h, a);
    JoinedLeftKeeps(h, a);
    JoinedRightKeeps(h1, lo);
    var h2 := JoinedRight(h1, lo);
    MarkKeeps(h2, lo);
    SamePagesTransitive(h, h1, h2);
    SamePagesTransitive(h, h2, Marked(h2, lo));
    FreedCoalesces(h, a);
    FreedUse(h, a);
  }

  lemma FreedUse(h: Layout, a: nat)
    requires Tiled(h) && a in h && !h[a].free
    ensures Used(Freed(h, a)) == Used(h) - {a}
  {
  }

  lemma DeclassedKeeps(h: Layout, a: nat)
    requires Tiled(h) && Coalesced(h) && a in h && !h[a].free
    ensures var m := Declassed(h, a);
            && Tiled(m) && Coalesced(m) && SamePages(h, m) && Used(m) - {a} == Used(h) - {a}
            && Total(m, Pages) == Total(h, Pages) && Total(m, FreePages) == Total(h, FreePages)
  {
    hide Tiled, Coalesced, SamePages, Total, Used;
    DeclassedCoalesces(h, a);
    DeclassedTiles(h, a);
    var m := Declassed(h, a);
    RetypedPages(h, a, m[a]);
    TotalUpdate(h, Pages, a, m[a]);
    TotalUpdate(h, FreePages, a, m[a]);
  }

  lemma DeclassedTiles(h: Layout, a: nat)
    requires Tiled(h) && a in h && !h[a].free
    ensures Tiled(Declassed(h, a)) && Used(Declassed(h, a)) - {a} == Used(h) - {a}
  {
  }

  lemma DeclassedCoalesces(h: Layout, a: nat)
    requires Coalesced(h) && a in h && !h[a].free
    ensures Coalesced(Declassed(h, a))
  {
  }

  lemma RegisteredKeeps(h: Layout, a: nat, cl: nat)
    requires Tiled(h) && Coalesced(h) && a in h && !h[a].free
    ensures var m := h[a := Block(h[a].len, false, cl)];
            && Coalesced(m) && SamePages(h, m) && Used(m) == Used(h)[a := m[a]]
            && Total(m, Pages) == Total(h, Pages) && Total(m, FreePages) == Total(h, FreePages)
  {
    hide SamePages, Total;
    var m := h[a := Block(h[a].len, false, cl)];
    RetypedPages(h, a, m[a]);
    TotalUpdate(h, Pages, a, m[a]);
    TotalUpdate(h, FreePages, a, m[a]);
  }

  /** What a call of the page heap's Delete does to the layout. */
  ghost function Deleted(h: Layout, a: nat): Layout
    requires a in h
  {
    Freed(Declassed(h, a), a)
  }

  /** The layout after fresh pages were given to the heap. */
  ghost function Grown(h: Layout, p: nat, m: nat): Layout {
    Deleted(h[p := Block(m, false, 0)], p)
  }

  /** A fresh run in use: only the pages counted change. */
  lemma RunAdded(h: Layout, p: nat, m: nat)
    requires Tiled(h) && Coalesced(h) && p !in h
    ensures var r := h[p := Block(m, false, 0)];
            && Coalesced(r) && Used(r) == Used(h)[p := Block(m, false, 0)]
            && Total(r, Pages) == Total(h, Pages) + m && Total(r, FreePages) == Total(h, FreePages)
  {
    hide Total;
    TotalUpdate(h, Pages, p, Block(m, false, 0));
    TotalUpdate(h, FreePages, p, Block(m, false, 0));
  }

  lemma DeletedKeeps(h: Layout, a: nat)
    requires Tiled(h) && Coalesced(h) && a in h && !h[a].free
    ensures var d := Deleted(h, a);
            && Tiled(d) && Coalesced(d) && SamePages(h, d) && Used(d) == Used(h) - {a}
            && Total(d, Pages) == Total(h, Pages) && Total(d, FreePages) == Total(h, FreePages) + h[a].len
  {
    hide Tiled, Coalesced, SamePages, Total, Used, Freed;
    DeclassedKeeps(h, a);
    FreedKeeps(Declassed(h, a), a);
    SamePagesTransitive(h, Declassed(h, a), Deleted(h, a));
  }

  lemma FreedCoalesces(h: Layout, a: nat)
    requires Tiled(h) && Coalesced(h) && a in h && !h[a].free
    ensures Coalesced(Freed(h, a))
  {
    var lo, e := MergedStart(h, a), a + h[a].len;
    var h' := Freed(h, a);
    forall c, d | c in h' && d in h' && c + h'[c].len == d
      ensures !(h'[c].free && h'[d].free)
    {
      if d == lo && h'[c].free {
        assert c in h && h[c].free;
        assert lo == a ==> FreeBefore(h, c, a);
      }
    }
  }

  // ---------- the layout is determined by what is registered and what is used ----------

  lemma SameUse(h: Layout, h': Layout, a: nat, b: nat, q: nat)
    requires Tiled(h) && Tiled(h') && Used(h) == Used(h')
    requires In(h, a, q) && In(h', b, q)
    ensures h[a].free == h'[b].free
    ensures !h[a].free ==> a == b
  {
    assert !h[a].free ==> a in Used(h');
    assert !h'[b].free ==> b in Used(h);
  }

  lemma FreeBlockIn(h: Layout, h': Layout, a: nat)
    requires Tiled(h) && Coalesced(h) && Tiled(h') && Coalesced(h')
    requires SamePages(h, h') && Used(h) == Used(h')
    requires a in h && h[a].free
    ensures a in h' && h'[a].free && h[a].len <= h'[a].len
  {
    assert In(h, a, a) && Covered(h, a);
    var b: nat :| In(h', b, a);
    SameUse(h, h', a, b, a);
    if b < a {
      assert In(h', b, a - 1) && Covered(h', a - 1);
      var c: nat :| In(h, c, a - 1);
      SameUse(h, h', c, b, a - 1);
    }
    if h'[a].len < h[a].len {
      var q := a + h'[a].len;
      assert In(h, a, q) && Covered(h, q);
      var d: nat :| In(h', d, q);
      SameUse(h, h', a, d, q);
    }
  }

  /**
   Two layouts over the same pages in which callers hold the same blocks are equal:
   what the heap looks like does not depend on the order of past operations.
   */
  lemma LayoutIsCanonical(h: Layout, h': Layout)
    requires Tiled(h) && Coalesced(h) && Tiled(h') && Coalesced(h')
    requires SamePages(h, h') && Used(h) == Used(h')
    ensures h == h'
  {
    forall a | a in h ensures a in h' && h'[a] == h[a] {
      if h[a].free {
        FreeBlockIn(h, h', a);
        FreeBlockIn(h', h, a);
      } else {
        assert a in Used(h');
      }
    }
    forall a | a in h' ensures a in h {
      if h'[a].free { FreeBlockIn(h', h, a); } else { assert a in Used(h); }
    }
  }

  // ---------- what a growth makes available ----------

  /** The size of the free block that m fresh pages from p end up in. */
  ghost function GrownLen(h: Layout, p: nat, m: nat): nat {
    var left := if exists b: nat :: FreeBefore(h, b, p) && b < p then p - MergedStart(h, p) else 0;
    var right := if FreeAt(h, p + m) then h[p + m].len else 0;
    left + m + right
  }

  /** Every page of h2 was registered in h, or is one of the m pages from p. */
  ghost predicate Within(h: Layout, h2: Layout, p: nat, m: nat) {
    forall q: nat :: Covered(h2, q) ==> Covered(h, q) || p <= q < p + m
  }

  lemma SameWithin(h: Layout, h1: Layout, h2: Layout, p: nat, m: nat)
    requires Within(h, h1, p, m) && SamePages(h1, h2)
    ensures Within(h, h2, p, m)
  {
    hide Covered;
  }

  lemma SelfWithin(h: Layout, p: nat, m: nat)
    ensures Within(h, h, p, m)
  {
  }

  /** Growth registers no other pages than those that were granted. */
  lemma GrownWithin(h: Layout, p: nat, m: nat)
    requires Tiled(h) && Coalesced(h) && p !in h && m > 0 && forall q :: p <= q < p + m ==> !Covered(h, q)
    ensures Within(h, Grown(h, p, m), p, m)
  {
    hide Coalesced, SamePages, Total, Used, PagesKept, Deleted, Tiled;
    var r := h[p := Block(m, false, 0)];
    RunAdded(h, p, m);
    RunTiles(h, p, m);
    DeletedKeeps(r, p);
    forall q: nat | Covered(r, q) ensures Covered(h, q) || p <= q < p + m {
      var c: nat :| In(r, c, q);
      if c != p { assert In(h, c, q); }
    }
    assert Within(h, r, p, m);
    SameWithin(h, r, Grown(h, p, m), p, m);
  }

  /** After a growth one free block holds the fresh pages; every other block was there before. */
  lemma GrownBlock(h: Layout, p: nat, m: nat)
    requires Tiled(h) && p !in h && m > 0 && forall q :: p <= q < p + m ==> !Covered(h, q)
    ensures var g, lo := Grown(h, p, m), MergedStart(h, p);
            && lo in g && g[lo] == Block(GrownLen(h, p, m), true, 0)
            && forall a :: a in g && a != lo ==> a in h && g[a] == h[a]
  {
    hide Tiled, Covered, MergedStart, FreeBefore, GrownLen;
    var r := h[p := Block(m, false, 0)];
    assert Declassed(r, p) == r;
    GrownStart(h, p, m);
    var lo := MergedStart(h, p);
    var j := JoinedLeft(r, p);
    assert lo in j && j[lo] == Block(p - lo + m, false, 0);
    assert FreeAt(j, p + m) <==> FreeAt(h, p + m);
  }

  /** Fresh pages change nothing for those who hold blocks. */
  lemma GrownUse(h: Layout, p: nat, m: nat)
    requires Tiled(h) && Coalesced(h) && p !in h && m > 0 && forall q :: p <= q < p + m ==> !Covered(h, q)
    ensures Used(Grown(h, p, m)) == Used(h) && PagesKept(h, Grown(h, p, m))
  {
    hide Tiled, Coalesced, SamePages, Total, Used, PagesKept, Deleted, Covered;
    var r := h[p := Block(m, false, 0)];
    RunAdded(h, p, m);
    RunTiles(h, p, m);
    DeletedKeeps(r, p);
    NotUsed(h, p);
    KeptThenSame(h, r, Grown(h, p, m));
  }

  lemma KeptThenSame(h: Layout, r: Layout, g: Layout)
    requires PagesKept(h, r) && SamePages(r, g)
    ensures PagesKept(h, g)
  {
  }

  lemma RunTiles(h: Layout, p: nat, m: nat)
    requires Tiled(h) && p !in h && m > 0 && forall q :: p <= q < p + m ==> !Covered(h, q)
    ensures Tiled(h[p := Block(m, false, 0)]) && PagesKept(h, h[p := Block(m, false, 0)])
  {
    var r := h[p := Block(m, false, 0)];
    forall b | b in h ensures b + h[b].len <= p || p + m <= b {
      if b < p + m && p < b + h[b].len {
        var q: nat := if b <= p then p else b;
        assert In(h, b, q) && Covered(h, q);
      }
    }
    forall q: nat | Covered(h, q) ensures Covered(r, q) {
      var c: nat :| In(h, c, q);
      assert In(r, c, q);
    }
  }

  lemma GrownStart(h: Layout, p: nat, m: nat)
    requires Tiled(h) && p !in h && m > 0 && forall q :: p <= q < p + m ==> !Covered(h, q)
    ensures var r, lo := h[p := Block(m, false, 0)], MergedStart(h, p);
            && MergedStart(r, p) == lo && lo <= p && p + m != p && p + m != lo
            && (lo != p ==> lo in h && lo in r && r[lo] == h[lo] && h[lo].free && h[lo].len == p - lo)
            && (p + m in r <==> p + m in h)
            && GrownLen(h, p, m) == p - lo + m + (if FreeAt(h, p + m) then h[p + m].len else 0)
  {
    var r := h[p := Block(m, false, 0)];
    assert forall b :: FreeBefore(r, b, p) <==> FreeBefore(h, b, p);
  }

  /**
   When no block was adequate before, a growth of m >= n pages leaves an adequate block
   on the large list exactly when the fresh pages end up in a block of `large` pages,
   and then that block is the best fit of the whole heap.
   */
  lemma GrowthSuffices(h: Layout, p: nat, m: nat, n: nat, large: nat)
    requires Tiled(h) && m > 0 && forall q :: p <= q < p + m ==> !Covered(h, q)
    requires n <= m && forall a :: !Adequate(h, a, n)
    ensures (exists a :: Adequate(Grown(h, p, m), a, n) && large <= Grown(h, p, m)[a].len) <==>
            large <= GrownLen(h, p, m)
    ensures forall a :: BestLargeFit(Grown(h, p, m), a, n, large) ==> BestFit(Grown(h, p, m), a, n, large)
  {
    if p in h {
      assert In(h, p, p) && Covered(h, p);
    }
    GrownBlock(h, p, m);
    var g, lo := Grown(h, p, m), MergedStart(h, p);
    assert Adequate(g, lo, n);
    forall a | Adequate(g, a, n) ensures a == lo { assert a != lo ==> !Adequate(h, a, n); }
  }
}
