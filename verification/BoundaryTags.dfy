/**
 The page map as boundary tags. Only the first and the last page of a run are sure to
 map to its descriptor; what the pages between map to is unknown, unless the run
 belongs to a size class.
 */
module BoundaryTags {
  import opened PageLayout

  ghost predicate TagIs<D>(tags: map<nat, D>, q: nat, d: D) {
    q in tags && tags[q] == d
  }

  /** The tags around the run of len pages from a whose descriptor is d. */
  ghost predicate RunTags<D>(tags: map<nat, D>, a: nat, len: nat, cl: nat, d: D) {
    && a > 0 && len > 0
    && (forall q :: a - 1 <= q <= a + len ==> q in tags)
    && TagIs(tags, a, d) && TagIs(tags, a + len - 1, d)
    && (cl != 0 ==> forall q :: a <= q < a + len ==> TagIs(tags, q, d))
  }

  ghost predicate BlockTags<D>(h: Layout, at: map<nat, D>, tags: map<nat, D>, a: nat) {
    a in h ==> a in at && RunTags(tags, a, h[a].len, h[a].cl, at[a])
  }

  /** A page that no block owns carries no descriptor. */
  ghost predicate VacantTag<D>(h: Layout, tags: map<nat, D>, none: D, q: nat) {
    q in tags && tags[q] != none ==> Covered(h, q)
  }

  ghost predicate Tagged<D>(h: Layout, at: map<nat, D>, tags: map<nat, D>, none: D) {
    && (forall a: nat {:trigger BlockTags(h, at, tags, a)} :: BlockTags(h, at, tags, a))
    && (forall q: nat {:trigger VacantTag(h, tags, none, q)} :: VacantTag(h, tags, none, q))
  }

  /** A run keeps its tags when others are written elsewhere, or anywhere inside a run of no size class. */
  lemma RunKeepsTags<D>(tags: map<nat, D>, tags': map<nat, D>, a: nat, len: nat, cl: nat, d: D)
    requires RunTags(tags, a, len, cl, d) && tags.Keys <= tags'.Keys
    requires forall q :: a <= q < a + len && q in tags && tags'[q] != tags[q] ==>
               cl == 0 && q != a && q != a + len - 1
    ensures RunTags(tags', a, len, cl, d)
  {
    forall q | cl != 0 && a <= q < a + len ensures TagIs(tags', q, d) { assert TagIs(tags, q, d); }
  }

  lemma TagBefore<D>(h: Layout, at: map<nat, D>, tags: map<nat, D>, none: D, a: nat)
    requires Tiled(h) && Tagged(h, at, tags, none) && a in h
    ensures a > 0 && a - 1 in tags
    ensures forall b :: b in h && b + h[b].len == a ==> b in at && tags[a - 1] == at[b]
    ensures tags[a - 1] != none ==> exists b: nat :: b in h && b + h[b].len == a
  {
    assert BlockTags(h, at, tags, a);
    forall b | b in h && b + h[b].len == a ensures b in at && tags[a - 1] == at[b] {
      assert BlockTags(h, at, tags, b);
    }
    if tags[a - 1] != none {
      assert VacantTag(h, tags, none, a - 1);
      var b: nat :| In(h, b, a - 1);
      assert b + h[b].len == a;
    }
  }

  lemma TagAfter<D>(h: Layout, at: map<nat, D>, tags: map<nat, D>, none: D, a: nat)
    requires Tiled(h) && Tagged(h, at, tags, none) && a in h
    ensures a + h[a].len in tags
    ensures a + h[a].len in h ==> a + h[a].len in at && tags[a + h[a].len] == at[a + h[a].len]
    ensures tags[a + h[a].len] != none ==> a + h[a].len in h
  {
    var q := a + h[a].len;
    assert BlockTags(h, at, tags, a) && BlockTags(h, at, tags, q);
    if tags[q] != none {
      assert VacantTag(h, tags, none, q);
      var e: nat :| In(h, e, q);
      assert e == q;
    }
  }

  /** Merging into the free block on the left: the descriptor of a takes over, one tag moves. */
  lemma JoinLeftTagged<D>(h: Layout, at: map<nat, D>, tags: map<nat, D>, none: D, b: nat, a: nat)
    requires Tiled(h) && Tagged(h, at, tags, none) && a in h && b in h && b + h[b].len == a && a in at
    ensures Tagged(Join(h, b, a), (at - {a})[b := at[a]], tags[b := at[a]], none)
  {
    var h', at', tags' := Join(h, b, a), (at - {a})[b := at[a]], tags[b := at[a]];
    JoinTiles(h, b, a);
    assert BlockTags(h, at, tags, a) && BlockTags(h, at, tags, b);
    forall c: nat ensures BlockTags(h', at', tags', c) {
      assert BlockTags(h, at, tags, c);
      if c in h' && c in h && h'[c] == h[c] { RunKeepsTags(tags, tags', c, h[c].len, h[c].cl, at[c]); }
    }
    forall q: nat ensures VacantTag(h', tags', none, q) {
      assert VacantTag(h, tags, none, q);
      assert In(h', b, b);
    }
  }

  /** Merging the free block on the right: its descriptor goes, the last tag moves. */
  lemma JoinRightTagged<D>(h: Layout, at: map<nat, D>, tags: map<nat, D>, none: D, a: nat, e: nat)
    requires Tiled(h) && Tagged(h, at, tags, none) && a in h && e in h && a + h[a].len == e && a in at
    ensures Tagged(Join(h, a, e), at - {e}, tags[e + h[e].len - 1 := at[a]], none)
  {
    var last := e + h[e].len - 1;
    var h', at', tags' := Join(h, a, e), at - {e}, tags[last := at[a]];
    JoinTiles(h, a, e);
    assert BlockTags(h, at, tags, a) && BlockTags(h, at, tags, e);
    hide Total, BlockTags, RunTags;
    forall c: nat ensures BlockTags(h', at', tags', c) {
      assert BlockTags(h, at, tags, c);
      JoinBlockTagged(h, at, tags, a, e, c);
    }
    forall q: nat ensures VacantTag(h', tags', none, q) {
      assert VacantTag(h, tags, none, q);
      assert In(h', a, last);
    }
  }

  lemma JoinBlockTagged<D>(h: Layout, at: map<nat, D>, tags: map<nat, D>, a: nat, e: nat, c: nat)
    requires Tiled(h) && a in h && e in h && a + h[a].len == e && a in at
    requires BlockTags(h, at, tags, a) && BlockTags(h, at, tags, e) && BlockTags(h, at, tags, c)
    ensures BlockTags(Join(h, a, e), at - {e}, tags[e + h[e].len - 1 := at[a]], c)
  {
    hide Total;
    var tags' := tags[e + h[e].len - 1 := at[a]];
    if c in h && c != a && c != e { RunKeepsTags(tags, tags', c, h[c].len, h[c].cl, at[c]); }
  }

  /** Changing the kind of a block that is in no size class needs no tag. */
  lemma RetypedTagged<D>(h: Layout, at: map<nat, D>, tags: map<nat, D>, none: D, a: nat, free: bool)
    requires Tagged(h, at, tags, none) && a in h
    ensures Tagged(h[a := Block(h[a].len, free, 0)], at, tags, none)
  {
    var h' := h[a := Block(h[a].len, free, 0)];
    forall c: nat ensures BlockTags(h', at, tags, c) {
      assert BlockTags(h, at, tags, c);
    }
    forall q: nat ensures VacantTag(h', tags, none, q) {
      assert VacantTag(h, tags, none, q);
      if c: nat :| In(h, c, q) { assert In(h', c, q); }
    }
  }

  /** Cutting a block in two: tags for the new descriptor d, and a new last tag for the old one. */
  lemma CutTagged<D>(h: Layout, at: map<nat, D>, tags: map<nat, D>, none: D, a: nat, n: nat, rest: bool, d: D)
    requires Tiled(h) && Tagged(h, at, tags, none) && a in h && a in at && 0 < n < h[a].len && h[a].cl == 0
    ensures Tagged(Cut(h, a, n, rest), at[a + n := d],
                   tags[a + n := d][a + h[a].len - 1 := d][a + n - 1 := at[a]], none)
  {
    var h', at' := Cut(h, a, n, rest), at[a + n := d];
    var tags' := tags[a + n := d][a + h[a].len - 1 := d][a + n - 1 := at[a]];
    CutTiles(h, a, n, rest);
    assert BlockTags(h, at, tags, a);
    hide Cut, BlockTags, RunTags;
    forall c: nat ensures BlockTags(h', at', tags', c) {
      assert BlockTags(h, at, tags, c);
      CutBlockTagged(h, at, tags, a, n, rest, d, c);
    }
    forall q: nat ensures VacantTag(h', tags', none, q) {
      assert VacantTag(h, tags, none, q);
      CutVacant(h, tags, none, a, n, rest, q);
    }
  }

  lemma CutBlockTagged<D>(h: Layout, at: map<nat, D>, tags: map<nat, D>, a: nat, n: nat, rest: bool, d: D, c: nat)
    requires Tiled(h) && a in h && a in at && 0 < n < h[a].len && h[a].cl == 0
    requires BlockTags(h, at, tags, a) && BlockTags(h, at, tags, c)
    ensures BlockTags(Cut(h, a, n, rest), at[a + n := d],
                      tags[a + n := d][a + h[a].len - 1 := d][a + n - 1 := at[a]], c)
  {
    var tags' := tags[a + n := d][a + h[a].len - 1 := d][a + n - 1 := at[a]];
    if c in h && c != a && c != a + n { RunKeepsTags(tags, tags', c, h[c].len, h[c].cl, at[c]); }
  }

  lemma CutVacant<D>(h: Layout, tags: map<nat, D>, none: D, a: nat, n: nat, rest: bool, q: nat)
    requires a in h && 0 < n < h[a].len && a + n !in h && SamePages(h, Cut(h, a, n, rest))
    requires (q in tags && tags[q] != none ==> Covered(h, q))
    ensures In(h, a, q) || (q != a && q != a + n && q != a + h[a].len - 1 && q != a + n - 1)
    ensures In(h, a, q) ==> Covered(Cut(h, a, n, rest), q)
    ensures q in tags && tags[q] != none ==> Covered(Cut(h, a, n, rest), q)
  {
    if In(h, a, q) { assert Covered(h, q); }
  }

  /** Giving a span a size class: every page between its ends is tagged too. */
  lemma RegisteredTagged<D>(h: Layout, at: map<nat, D>, tags: map<nat, D>, none: D, a: nat, cl: nat, tags': map<nat, D>)
    requires Tiled(h) && Tagged(h, at, tags, none) && a in h && a in at && !h[a].free
    requires tags'.Keys == tags.Keys
    requires forall q :: q in tags ==> tags'[q] == if a < q < a + h[a].len - 1 then at[a] else tags[q]
    ensures Tiled(h[a := Block(h[a].len, false, cl)])
    ensures Tagged(h[a := Block(h[a].len, false, cl)], at, tags', none)
  {
    var h' := h[a := Block(h[a].len, false, cl)];
    assert BlockTags(h, at, tags, a);
    forall c: nat ensures BlockTags(h', at, tags', c) {
      assert BlockTags(h, at, tags, c);
      if c in h && c != a { RunKeepsTags(tags, tags', c, h[c].len, h[c].cl, at[c]); }
    }
    forall q: nat ensures VacantTag(h', tags', none, q) {
      assert VacantTag(h, tags, none, q);
      if c: nat :| In(h, c, q) { assert In(h', c, q); }
      assert a <= q < a + h[a].len ==> In(h', a, q);
    }
  }

  /** Fresh pages: leaves for them and for the page on either side, and one new run. */
  ghost predicate GrownTags<D>(tags: map<nat, D>, tags': map<nat, D>, none: D, p: nat, n: nat, d: D) {
    && p > 0 && n > 0 && tags.Keys <= tags'.Keys
    && (forall q :: p - 1 <= q <= p + n ==> q in tags')
    && (forall q :: q in tags' ==>
          tags'[q] == if q == p || q == p + n - 1 then d else if q in tags then tags[q] else none)
  }

  /** A new run has its own pages and no others. */
  lemma RunCovers(h: Layout, p: nat, n: nat, q: nat)
    requires p !in h
    ensures Covered(h[p := Block(n, false, 0)], q) <==> Covered(h, q) || p <= q < p + n
  {
    var h' := h[p := Block(n, false, 0)];
    if c: nat :| In(h, c, q) { assert In(h', c, q); }
    if c: nat :| In(h', c, q) { assert c != p ==> In(h, c, q); }
    assert p <= q < p + n ==> In(h', p, q);
  }

  lemma GrownTagged<D>(h: Layout, at: map<nat, D>, tags: map<nat, D>, none: D, p: nat, n: nat, tags': map<nat, D>, d: D)
    requires Tiled(h) && Tagged(h, at, tags, none) && GrownTags(tags, tags', none, p, n, d)
    requires forall q :: p <= q < p + n ==> !Covered(h, q)
    ensures p !in h && Tiled(h[p := Block(n, false, 0)])
    ensures Tagged(h[p := Block(n, false, 0)], at[p := d], tags', none)
    ensures forall q: nat :: Covered(h[p := Block(n, false, 0)], q) <==> Covered(h, q) || p <= q < p + n
  {
    var h', at' := h[p := Block(n, false, 0)], at[p := d];
    if p in h {
      assert In(h, p, p) && Covered(h, p);
    }
    RunTiles(h, p, n);
    forall q: nat ensures Covered(h', q) <==> Covered(h, q) || p <= q < p + n { RunCovers(h, p, n, q); }
    forall c: nat ensures BlockTags(h', at', tags', c) {
      assert BlockTags(h, at, tags, c);
      if c in h {
        BlockApart(h, p, n, c);
        RunKeepsTags(tags, tags', c, h[c].len, h[c].cl, at[c]);
      }
    }
    forall q: nat ensures VacantTag(h', tags', none, q) {
      assert VacantTag(h, tags, none, q);
    }
  }

  /** A block lies apart from pages that belong to none. */
  lemma BlockApart(h: Layout, p: nat, n: nat, c: nat)
    requires c in h && forall q :: p <= q < p + n ==> !Covered(h, q)
    ensures c + h[c].len <= p || p + n <= c || h[c].len == 0 || n == 0
  {
    var q := if c < p then p else c;
    assert In(h, c, q) ==> Covered(h, q);
  }

  /** New leaves read NULL and change no existing entry. */
  ghost predicate Widened<D>(tags: map<nat, D>, tags': map<nat, D>, none: D) {
    && tags.Keys <= tags'.Keys
    && forall q :: q in tags' ==> tags'[q] == if q in tags then tags[q] else none
  }

  lemma WidenedTagged<D>(h: Layout, at: map<nat, D>, tags: map<nat, D>, none: D, tags': map<nat, D>)
    requires Tagged(h, at, tags, none) && Widened(tags, tags', none)
    ensures Tagged(h, at, tags', none)
  {
    forall c: nat ensures BlockTags(h, at, tags', c) {
      assert BlockTags(h, at, tags, c);
      if c in h { RunKeepsTags(tags, tags', c, h[c].len, h[c].cl, at[c]); }
    }
    forall q: nat ensures VacantTag(h, tags', none, q) {
      assert VacantTag(h, tags, none, q);
    }
  }
}
