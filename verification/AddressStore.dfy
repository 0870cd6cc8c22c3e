/**
 The entries of an address map as values: chains of used entries, one for each block of
 keys, and the list of recycled ones.
 */
module AddressStore {
  import opened Basics

  /** kBlockSize, kClusterBlocks */
  const BLOCK := 128
  const CLUSTER_BLOCKS := 8192

  class Entry<V(0)> {
    var next: Entry?<V>
    var key: nat
    var value: V

    constructor ()
      ensures next == null
    {
      next, key := null, 0;
    }
  }

  /** From p the links lead through exactly xs. */
  ghost predicate Path<V(0)>(nxt: map<Entry<V>, Entry?<V>>, p: Entry?<V>, xs: seq<Entry<V>>)
    decreases |xs|
  {
    if xs == [] then p == null
    else p == xs[0] && xs[0] in nxt && Path(nxt, nxt[xs[0]], xs[1..])
  }

  /**
   heads: the first entry of each block that has a cluster; chains: all of them, in order.
   at: the entry of each key. free: the recycled entries, from freeHead on.
   */
  datatype Store<!V(0)> = Store(nxt: map<Entry<V>, Entry?<V>>, key: map<Entry<V>, nat>, value: map<Entry<V>, V>,
                                heads: map<nat, Entry?<V>>, chains: map<nat, seq<Entry<V>>>,
                                at: map<nat, Entry<V>>, freeHead: Entry?<V>, free: seq<Entry<V>>)
  {
    /** The chain of block b holds entries of that block, each once. */
    ghost predicate BlockFits(b: nat)
      requires b in heads && b in chains
    {
      && Path(nxt, heads[b], chains[b]) && Once(chains[b])
      && forall e :: e in chains[b] ==> e in key && key[e] / BLOCK == b && key[e] in at && at[key[e]] == e
    }

    ghost predicate KeyFits(k: nat)
      requires k in at
    {
      at[k] in key && key[at[k]] == k && k / BLOCK in chains && at[k] in chains[k / BLOCK]
    }

    /** Recycled entries are in no chain. */
    ghost predicate FreeFits() {
      && Path(nxt, freeHead, free) && Once(free)
      && forall e :: e in free ==> e in key && forall k :: k in at ==> at[k] != e
    }

    /** Every key has one entry, in the chain of its block. */
    ghost predicate Valid() {
      && nxt.Keys == key.Keys == value.Keys && heads.Keys == chains.Keys
      && (forall b :: b in heads ==> BlockFits(b))
      && (forall k :: k in at ==> KeyFits(k))
      && (forall k :: k in at ==> at[k] in value)
      && FreeFits()
    }

    /** The map that the store stands for. */
    ghost function Contents(): map<nat, V>
      requires Valid()
    {
      map k | k in at :: value[at[k]]
    }
  }

  // ---------- links ----------

  /** A list is not disturbed by other entries' links. */
  lemma {:induction false} PathFrame<V(0)>(n: map<Entry<V>, Entry?<V>>, n': map<Entry<V>, Entry?<V>>, p: Entry?<V>,
                                       xs: seq<Entry<V>>)
    requires Path(n, p, xs) && forall e :: e in xs && e in n ==> e in n' && n'[e] == n[e]
    ensures Path(n', p, xs)
    decreases |xs|
  {
    if xs != [] { PathFrame(n, n', n[xs[0]], xs[1..]); }
  }

  lemma {:induction false} PathAt<V(0)>(n: map<Entry<V>, Entry?<V>>, p: Entry?<V>, xs: seq<Entry<V>>, i: nat)
    requires Path(n, p, xs) && i < |xs|
    ensures xs[i] in n && Path(n, xs[i], xs[i..]) && Path(n, n[xs[i]], xs[i + 1..])
    decreases |xs|
  {
    if i > 0 {
      PathAt(n, n[xs[0]], xs[1..], i - 1);
      assert xs[1..][i - 1..] == xs[i..] && xs[1..][i..] == xs[i + 1..];
    }
  }

  /** Linking its predecessor to its successor takes entry i out. */
  lemma {:induction false} PathWithout<V(0)>(n: map<Entry<V>, Entry?<V>>, p: Entry?<V>, xs: seq<Entry<V>>, i: nat)
    requires Path(n, p, xs) && Once(xs) && 0 < i < |xs|
    ensures xs[i] in n && Path(n[xs[i - 1] := n[xs[i]]], p, xs[..i] + xs[i + 1..])
    decreases |xs|
  {
    PathAt(n, p, xs, i);
    var n' := n[xs[i - 1] := n[xs[i]]];
    if i == 1 {
      PathFrame(n, n', n[xs[1]], xs[2..]);
      assert (xs[..1] + xs[2..])[1..] == xs[2..];
    } else {
      PathWithout(n, n[xs[0]], xs[1..], i - 1);
      assert xs[1..][..i - 1] + xs[1..][i..] == (xs[..i] + xs[i + 1..])[1..];
    }
  }

  lemma OnceWithout<T>(xs: seq<T>, i: nat)
    requires Once(xs) && i < |xs|
    ensures Once(xs[..i] + xs[i + 1..])
    ensures forall x :: x in xs[..i] + xs[i + 1..] <==> x in xs && x != xs[i]
  {
    var ys := xs[..i] + xs[i + 1..];
    forall x ensures x in ys <==> x in xs && x != xs[i] {
      if x in xs && x != xs[i] {
        var j :| 0 <= j < |xs| && xs[j] == x;
        assert ys[if j < i then j else j - 1] == x;
      }
    }
  }

  // ---------- steps ----------

  /** The value of a key that is present changes. */
  lemma Replaced<V(0)>(s: Store<V>, k: nat, v: V)
    requires s.Valid() && k in s.at
    ensures var t := s.(value := s.value[s.at[k] := v]);
            t.Valid() && t.Contents() == s.Contents()[k := v]
  {
    hide Path, Once;
    var t := s.(value := s.value[s.at[k] := v]);
    assert s.KeyFits(k);
    forall b | b in t.heads ensures t.BlockFits(b) { assert s.BlockFits(b); }
    forall m | m in t.at ensures t.KeyFits(m) && (m != k ==> t.at[m] != t.at[k]) { assert s.KeyFits(m); }
    assert t.FreeFits();
  }

  ghost function Put<V(0)>(s: Store<V>, k: nat, v: V): Store<V>
    requires s.free != [] && s.free[0] in s.nxt && k / BLOCK in s.heads && k / BLOCK in s.chains
  {
    var e, b := s.free[0], k / BLOCK;
    s.(nxt := s.nxt[e := s.heads[b]], key := s.key[e := k], value := s.value[e := v],
       heads := s.heads[b := e], chains := s.chains[b := [e] + s.chains[b]], at := s.at[k := e],
       freeHead := s.nxt[e], free := s.free[1..])
  }

  lemma PutFields<V(0)>(s: Store<V>, k: nat, v: V)
    requires s.free != [] && s.free[0] in s.nxt && k / BLOCK in s.heads && k / BLOCK in s.chains
    ensures var t, e := Put(s, k, v), s.free[0];
            && t.nxt == s.nxt[e := s.heads[k / BLOCK]] && t.key == s.key[e := k] && t.value == s.value[e := v]
            && t.heads == s.heads[k / BLOCK := e] && t.freeHead == s.nxt[e]
  {
  }

  /** A recycled entry takes a new key, at the head of its block's chain. */
  lemma Added<V(0)>(s: Store<V>, k: nat, v: V)
    requires s.Valid() && k !in s.at && s.free != [] && k / BLOCK in s.heads
    ensures s.free[0] in s.nxt && k / BLOCK in s.chains && Put(s, k, v).Valid()
    ensures Put(s, k, v).Contents() == s.Contents()[k := v]
  {
    hide Path, Once, Store.BlockFits, Store.KeyFits, Store.FreeFits, Store.Contents;
    AddedFree(s, k, v);
    var t := Put(s, k, v);
    forall m | m in t.at ensures t.KeyFits(m) && t.at[m] in t.value { AddedKey(s, k, v, m); }
    forall c | c in t.heads ensures t.BlockFits(c) { AddedBlock(s, k, v, c); }
    AddedContents(s, k, v);
  }

  lemma AddedContents<V(0)>(s: Store<V>, k: nat, v: V)
    requires s.Valid() && k !in s.at && s.free != [] && k / BLOCK in s.heads
    requires s.free[0] in s.nxt && k / BLOCK in s.chains && Put(s, k, v).Valid()
    ensures Put(s, k, v).Contents() == s.Contents()[k := v]
  {
    hide Path, Once, Store.BlockFits, Store.KeyFits, Store.FreeFits;
    forall m | m in s.at ensures s.at[m] != s.free[0] { AddedKey(s, k, v, m); }
  }

  lemma AddedKey<V(0)>(s: Store<V>, k: nat, v: V, m: nat)
    requires s.Valid() && k !in s.at && s.free != [] && k / BLOCK in s.heads && (m in s.at || m == k)
    ensures s.free[0] in s.nxt && k / BLOCK in s.chains && Put(s, k, v).KeyFits(m)
    ensures Put(s, k, v).at[m] in Put(s, k, v).value && (m != k ==> s.at[m] != s.free[0])
  {
    hide Path, Once, Store.BlockFits;
    assert s.free[0] in s.free;
    if m != k { assert s.KeyFits(m); }
  }

  lemma AddedBlock<V(0)>(s: Store<V>, k: nat, v: V, c: nat)
    requires s.Valid() && k !in s.at && s.free != [] && k / BLOCK in s.heads && c in s.heads
    ensures s.free[0] in s.nxt && Put(s, k, v).BlockFits(c)
  {
    var e := s.free[0];
    assert e in s.free && e in s.nxt && s.BlockFits(c);
    NotRecycled(s, c);
    PathFrame(s.nxt, s.nxt[e := s.heads[k / BLOCK]], s.heads[c], s.chains[c]);
    hide Path, Once, Store.KeyFits, Store.FreeFits;
    if c == k / BLOCK { AddedHere(s, k, v); }
  }

  /** Entries in chains are not recycled. */
  lemma NotRecycled<V(0)>(s: Store<V>, c: nat)
    requires s.Valid() && c in s.heads
    ensures c in s.chains && forall x :: x in s.chains[c] ==> x !in s.free
  {
    hide Path, Once;
    assert s.BlockFits(c);
  }

  lemma AddedHere<V(0)>(s: Store<V>, k: nat, v: V)
    requires k / BLOCK in s.heads && k / BLOCK in s.chains && s.free != [] && s.free[0] in s.nxt
    requires s.BlockFits(k / BLOCK)
    requires k !in s.at && s.free[0] !in s.chains[k / BLOCK]
    requires Path(s.nxt[s.free[0] := s.heads[k / BLOCK]], s.heads[k / BLOCK], s.chains[k / BLOCK])
    ensures Put(s, k, v).BlockFits(k / BLOCK)
  {
    var e, b := s.free[0], k / BLOCK;
    OnceMore(e, s.chains[b]);
    assert ([e] + s.chains[b])[1..] == s.chains[b];
  }

  lemma AddedFree<V(0)>(s: Store<V>, k: nat, v: V)
    requires s.Valid() && k !in s.at && s.free != [] && k / BLOCK in s.heads
    ensures s.free[0] in s.nxt && k / BLOCK in s.chains && Put(s, k, v).FreeFits()
  {
    var e := s.free[0];
    assert e in s.free && e in s.nxt;
    PathAt(s.nxt, s.freeHead, s.free, 0);
    assert e !in s.free[1..];
    PathFrame(s.nxt, Put(s, k, v).nxt, s.nxt[e], s.free[1..]);
  }

  ghost function Cut<V(0)>(s: Store<V>, k: nat, i: nat): Store<V>
    requires k / BLOCK in s.heads && k / BLOCK in s.chains && i < |s.chains[k / BLOCK]|
    requires s.chains[k / BLOCK][i] in s.nxt
  {
    var b := k / BLOCK;
    var xs := s.chains[b];
    var e := xs[i];
    s.(nxt := (if i == 0 then s.nxt else s.nxt[xs[i - 1] := s.nxt[e]])[e := s.freeHead],
       heads := if i == 0 then s.heads[b := s.nxt[e]] else s.heads, chains := s.chains[b := xs[..i] + xs[i + 1..]],
       at := s.at - {k}, freeHead := e, free := [e] + s.free)
  }

  /** The entry of a key leaves its chain and is recycled. */
  lemma Removed<V(0)>(s: Store<V>, k: nat, i: nat)
    requires s.Valid() && k in s.at && k / BLOCK in s.chains && i < |s.chains[k / BLOCK]|
    requires s.chains[k / BLOCK][i] == s.at[k]
    ensures s.at[k] in s.nxt && Cut(s, k, i).Valid() && Cut(s, k, i).Contents() == s.Contents() - {k}
  {
    hide Path, Once, Store.BlockFits, Store.KeyFits;
    assert s.at[k] in s.value;
    var t := Cut(s, k, i);
    forall m | m in s.at && m != k ensures t.KeyFits(m) && s.at[m] != s.at[k] { RemovedKey(s, k, i, m); }
    forall c | c in t.heads ensures t.BlockFits(c) { RemovedBlock(s, k, i, c); }
    RemovedFree(s, k, i);
    CutKeys(s, k, i);
  }

  lemma CutKeys<V(0)>(s: Store<V>, k: nat, i: nat)
    requires s.Valid() && k / BLOCK in s.chains && i < |s.chains[k / BLOCK]| && s.chains[k / BLOCK][i] in s.nxt
    ensures Cut(s, k, i).nxt.Keys == s.nxt.Keys
  {
    assert s.BlockFits(k / BLOCK);
    assert i > 0 ==> s.chains[k / BLOCK][i - 1] in s.chains[k / BLOCK];
  }

  lemma RemovedKey<V(0)>(s: Store<V>, k: nat, i: nat, m: nat)
    requires s.Valid() && k in s.at && k / BLOCK in s.chains && i < |s.chains[k / BLOCK]|
    requires s.chains[k / BLOCK][i] == s.at[k]
    requires m in s.at && m != k && s.at[k] in s.nxt
    ensures Cut(s, k, i).KeyFits(m) && s.at[m] != s.at[k]
  {
    hide Path, Store.FreeFits;
    assert s.KeyFits(k) && s.KeyFits(m) && s.BlockFits(k / BLOCK);
    OnceWithout(s.chains[k / BLOCK], i);
  }

  lemma RemovedBlock<V(0)>(s: Store<V>, k: nat, i: nat, c: nat)
    requires s.Valid() && k in s.at && k / BLOCK in s.chains && i < |s.chains[k / BLOCK]|
    requires s.chains[k / BLOCK][i] == s.at[k]
    requires c in s.heads && s.at[k] in s.nxt
    ensures Cut(s, k, i).BlockFits(c)
  {
    hide Store.KeyFits, Store.FreeFits, Path;
    assert s.BlockFits(k / BLOCK) && s.BlockFits(c);
    OnceWithout(s.chains[k / BLOCK], i);
    if c == k / BLOCK {
      CutPath(s, k, i);
    } else {
      assert forall x :: x in s.chains[c] ==> x !in s.chains[k / BLOCK];
      assert i > 0 ==> s.chains[k / BLOCK][i - 1] in s.chains[k / BLOCK];
      PathFrame(s.nxt, Cut(s, k, i).nxt, s.heads[c], s.chains[c]);
    }
  }

  lemma CutPath<V(0)>(s: Store<V>, k: nat, i: nat)
    requires k / BLOCK in s.heads && k / BLOCK in s.chains && i < |s.chains[k / BLOCK]|
    requires s.chains[k / BLOCK][i] in s.nxt
    requires Path(s.nxt, s.heads[k / BLOCK], s.chains[k / BLOCK]) && Once(s.chains[k / BLOCK])
    ensures var t := Cut(s, k, i); Path(t.nxt, t.heads[k / BLOCK], t.chains[k / BLOCK])
  {
    var b := k / BLOCK;
    var xs, t := s.chains[b], Cut(s, k, i);
    var e, ys := xs[i], xs[..i] + xs[i + 1..];
    OnceWithout(xs, i);
    PathAt(s.nxt, s.heads[b], xs, i);
    if i == 0 {
      assert ys == xs[1..];
      PathFrame(s.nxt, t.nxt, s.nxt[e], ys);
    } else {
      PathWithout(s.nxt, s.heads[b], xs, i);
      PathFrame(s.nxt[xs[i - 1] := s.nxt[e]], t.nxt, s.heads[b], ys);
    }
  }

  lemma RemovedFree<V(0)>(s: Store<V>, k: nat, i: nat)
    requires s.Valid() && k in s.at && k / BLOCK in s.chains && i < |s.chains[k / BLOCK]|
    requires s.chains[k / BLOCK][i] == s.at[k]
    requires s.at[k] in s.nxt && forall m :: m in s.at && m != k ==> s.at[m] != s.at[k]
    ensures Cut(s, k, i).FreeFits()
  {
    var b := k / BLOCK;
    var xs, e, t := s.chains[b], s.at[k], Cut(s, k, i);
    assert s.BlockFits(b);
    assert e !in s.free;
    assert i > 0 ==> xs[i - 1] in xs && xs[i - 1] !in s.free;
    PathFrame(s.nxt, t.nxt, s.freeHead, s.free);
    assert ([e] + s.free)[1..] == s.free;
  }

  /** The blocks of a cluster. */
  ghost function BlocksOf(id: nat): seq<nat> {
    seq(CLUSTER_BLOCKS, i requires 0 <= i < CLUSTER_BLOCKS => id * CLUSTER_BLOCKS + i)
  }

  lemma BlocksOfAre(id: nat, b: nat)
    ensures b in BlocksOf(id) <==> b / CLUSTER_BLOCKS == id
  {
    if b / CLUSTER_BLOCKS == id { assert BlocksOf(id)[b - id * CLUSTER_BLOCKS] == b; }
  }

  /** A new cluster brings blocks with empty chains. */
  ghost function WithBlocks<V(0)>(s: Store<V>, id: nat): Store<V> {
    var bs := BlocksOf(id);
    s.(heads := s.heads + map b | b in bs :: null, chains := s.chains + map b | b in bs :: [])
  }

  lemma BlocksMade<V(0)>(s: Store<V>, id: nat)
    requires s.Valid() && forall b :: b in s.heads ==> b !in BlocksOf(id)
    ensures WithBlocks(s, id).Valid() && WithBlocks(s, id).Contents() == s.Contents()
    ensures WithBlocks(s, id) == s.(heads := WithBlocks(s, id).heads, chains := WithBlocks(s, id).chains)
  {
    hide Path;
    var t := WithBlocks(s, id);
    forall b | b in t.heads ensures t.BlockFits(b) {
      if b in s.heads { assert s.BlockFits(b); } else { assert Path(t.nxt, null, []) by { NoPath(t.nxt); } }
    }
    forall k | k in t.at ensures t.KeyFits(k) { assert s.KeyFits(k); }
  }

  lemma NoPath<V(0)>(n: map<Entry<V>, Entry?<V>>)
    ensures Path(n, null, [])
  {
  }

  ghost predicate Extends<V(0)>(s: Store<V>, t: Store<V>) {
    && t.heads == s.heads && t.chains == s.chains && t.at == s.at && s.nxt.Keys == s.key.Keys == s.value.Keys
    && t.nxt.Keys == t.key.Keys == t.value.Keys
    && forall e :: e in s.nxt ==> e in t.nxt && t.nxt[e] == s.nxt[e] && t.key[e] == s.key[e] && t.value[e] == s.value[e]
  }

  lemma KeptBlock<V(0)>(s: Store<V>, t: Store<V>, b: nat)
    requires Extends(s, t) && b in s.heads && b in s.chains && s.BlockFits(b)
    ensures t.BlockFits(b)
  {
    PathFrame(s.nxt, t.nxt, s.heads[b], s.chains[b]);
  }

  lemma KeptKey<V(0)>(s: Store<V>, t: Store<V>, k: nat)
    requires Extends(s, t) && k in s.at && s.KeyFits(k)
    ensures t.KeyFits(k) && t.at[k] in s.nxt
  {
  }

  /** Entries that the store does not know become recycled ones, in the order of their links. */
  lemma Refilled<V(0)>(s: Store<V>, t: Store<V>, es: seq<Entry<V>>)
    requires s.Valid() && s.free == [] && Once(es) && (forall e :: e in es ==> e !in s.nxt)
    requires t == s.(nxt := t.nxt, key := t.key, value := t.value, freeHead := t.freeHead, free := es)
    requires Extends(s, t) && forall e :: e in es ==> e in t.nxt
    requires Path(t.nxt, t.freeHead, es)
    ensures t.Valid() && t.Contents() == s.Contents()
  {
    hide Path, Once, Store.BlockFits, Store.KeyFits;
    forall b | b in t.heads ensures t.BlockFits(b) { KeptBlock(s, t, b); }
    forall k | k in t.at ensures t.KeyFits(k) && t.at[k] !in es { KeptKey(s, t, k); }
  }
}
