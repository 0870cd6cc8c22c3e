/** The address map: clusters of blocks, found through a hash table, and chains of entries. */
module AddressMap {
  import opened Basics
  import opened AddressStore

  const HASH_SIZE := 4096
  const ALLOC_COUNT := 64

  /** HashInt: the top twelve bits of a 32-bit product. */
  function HashInt(x: nat): (h: nat)
    ensures h < HASH_SIZE
  {
    ((x % 0x1_0000_0000) * 2654435769) % 0x1_0000_0000 / 0x10_0000
  }

  /** id and next never change. */
  class Cluster<V(0)> {
    const id: nat
    const next: Cluster?<V>
    /** The rest of the chain. */
    ghost const below: seq<Cluster<V>>
    const blocks: array<Entry?<V>>

    constructor (id: nat, next: Cluster?<V>)
      ensures this.id == id && this.next == next && below == ChainOf(next)
      ensures fresh(blocks) && blocks.Length == CLUSTER_BLOCKS
      ensures forall i :: 0 <= i < CLUSTER_BLOCKS ==> blocks[i] == null
    {
      this.id, this.next := id, next;
      this.below := ChainOf(next);
      blocks := new Entry?<V>[CLUSTER_BLOCKS](_ => null);
    }
  }

  ghost function ChainOf<V(0)>(c: Cluster?<V>): seq<Cluster<V>> {
    if c == null then [] else [c] + c.below
  }

  /** Block i of cluster id. */
  function BlockNo(id: nat, i: nat): nat { id * CLUSTER_BLOCKS + i }

  /** The cluster of an id is in the chain of its hash, and linked to the rest of it. */
  ghost predicate InRow<V(0)>(rows: seq<seq<Cluster<V>>>, clusters: map<nat, Cluster<V>>, id: nat)
    requires |rows| == HASH_SIZE && id in clusters
  {
    var c := clusters[id];
    && c.id == id && c in rows[HashInt(id)] && c.below == ChainOf(c.next)
    && (c.next != null ==> c.next.id in clusters && clusters[c.next.id] == c.next)
  }

  ghost predicate RowFits<V(0)>(rows: seq<seq<Cluster<V>>>, clusters: map<nat, Cluster<V>>, h: nat)
    requires |rows| == HASH_SIZE && h < HASH_SIZE
  {
    Once(rows[h]) && forall c :: c in rows[h] ==> c.id in clusters && clusters[c.id] == c && HashInt(c.id) == h
  }

  /** The rows hold every cluster once. */
  ghost predicate Tabled<V(0)>(rows: seq<seq<Cluster<V>>>, clusters: map<nat, Cluster<V>>) {
    && |rows| == HASH_SIZE
    && (forall id :: id in clusters ==> InRow(rows, clusters, id))
    && (forall h :: 0 <= h < HASH_SIZE ==> RowFits(rows, clusters, h))
  }

  /** The row of a cluster, with the cluster at its head. */
  ghost function Headed<V(0)>(rows: seq<seq<Cluster<V>>>, c: Cluster<V>): seq<seq<Cluster<V>>>
    requires |rows| == HASH_SIZE
  {
    rows[HashInt(c.id) := [c] + rows[HashInt(c.id)]]
  }

  lemma StaysInRow<V(0)>(rows: seq<seq<Cluster<V>>>, clusters: map<nat, Cluster<V>>, c: Cluster<V>, id: nat)
    requires |rows| == HASH_SIZE && id in clusters && InRow(rows, clusters, id) && c.id !in clusters
    ensures InRow(Headed(rows, c), clusters[c.id := c], id)
  {
    hide HashInt;
  }

  lemma NewInRow<V(0)>(rows: seq<seq<Cluster<V>>>, clusters: map<nat, Cluster<V>>, c: Cluster<V>)
    requires |rows| == HASH_SIZE && c.id !in clusters && c.below == ChainOf(c.next) == rows[HashInt(c.id)]
    requires RowFits(rows, clusters, HashInt(c.id))
    ensures InRow(Headed(rows, c), clusters[c.id := c], c.id)
  {
    hide HashInt, Once;
    if c.next != null { assert c.next in rows[HashInt(c.id)]; }
  }

  lemma RowStays<V(0)>(rows: seq<seq<Cluster<V>>>, clusters: map<nat, Cluster<V>>, c: Cluster<V>, g: nat)
    requires |rows| == HASH_SIZE && g < HASH_SIZE && RowFits(rows, clusters, g) && c.id !in clusters
    ensures RowFits(Headed(rows, c), clusters[c.id := c], g)
  {
    hide HashInt, Once;
    if g == HashInt(c.id) { OnceMore(c, rows[g]); }
  }

  lemma TabledMore<V(0)>(rows: seq<seq<Cluster<V>>>, clusters: map<nat, Cluster<V>>, c: Cluster<V>)
    requires Tabled(rows, clusters) && c.id !in clusters && c.below == ChainOf(c.next) == rows[HashInt(c.id)]
    ensures Tabled(Headed(rows, c), clusters[c.id := c])
  {
    hide HashInt, InRow, RowFits;
    var rows', clusters' := Headed(rows, c), clusters[c.id := c];
    assert RowFits(rows, clusters, HashInt(c.id));
    NewInRow(rows, clusters, c);
    forall id | id in clusters ensures InRow(rows', clusters', id) {
      assert InRow(rows, clusters, id);
      StaysInRow(rows, clusters, c, id);
    }
    forall g | 0 <= g < HASH_SIZE ensures RowFits(rows', clusters', g) {
      assert RowFits(rows, clusters, g);
      RowStays(rows, clusters, c, g);
    }
  }

  class AddressMap<V(0)> {
    const hashtable: array<Cluster?<V>>
    var freeHead: Entry?<V>
    ghost var s: Store<V>
    ghost var rows: seq<seq<Cluster<V>>>
    /** The clusters by id, and their arrays of blocks. */
    ghost var clusters: map<nat, Cluster<V>>
    ghost var arrays: set<array<Entry?<V>>>
    ghost var entries: set<Entry<V>>

    ghost predicate ClusterFits(heads: map<nat, Entry?<V>>, id: nat)
      requires id in clusters
      reads this`clusters, this`arrays, arrays
    {
      var c := clusters[id];
      && c.blocks in arrays && c.blocks.Length == CLUSTER_BLOCKS
      && forall i :: 0 <= i < CLUSTER_BLOCKS ==> BlockNo(id, i) in heads && c.blocks[i] == heads[BlockNo(id, i)]
    }

    /** The heads of chains are in the blocks of clusters. */
    ghost predicate ClustersFit(heads: map<nat, Entry?<V>>)
      reads this`clusters, this`arrays, arrays
    {
      && (forall id :: id in clusters ==> ClusterFits(heads, id))
      && (forall id, jd :: id in clusters && jd in clusters && id != jd ==> clusters[id].blocks != clusters[jd].blocks)
      && (forall b :: b in heads ==> b / CLUSTER_BLOCKS in clusters)
    }

    ghost predicate EntriesFit(nxt: map<Entry<V>, Entry?<V>>, key: map<Entry<V>, nat>, value: map<Entry<V>, V>)
      reads this`entries, entries
    {
      && entries == nxt.Keys == key.Keys == value.Keys
      && forall e :: e in entries ==> e.next == nxt[e] && e.key == key[e] && e.value == value[e]
    }

    ghost predicate RowsFit()
      reads this`rows, hashtable
    {
      hashtable.Length == HASH_SIZE == |rows| && forall h :: 0 <= h < HASH_SIZE ==> ChainOf(hashtable[h]) == rows[h]
    }

    /** The objects are as the store says. */
    ghost predicate Coupled()
      reads this, hashtable, arrays, entries
    {
      && RowsFit() && Tabled(rows, clusters) && ClustersFit(s.heads)
      && freeHead == s.freeHead && EntriesFit(s.nxt, s.key, s.value)
    }

    ghost predicate Valid()
      reads this, hashtable, arrays, entries
    {
      Coupled() && s.Valid()
    }

    constructor ()
      ensures Valid() && fresh(hashtable) && entries == {} && arrays == {} && s.Contents() == map[]
    {
      hashtable := new Cluster?<V>[HASH_SIZE](_ => null);
      freeHead := null;
      s := Store(map[], map[], map[], map[], map[], map[], null, []);
      rows := seq(HASH_SIZE, _ => []);
      clusters, arrays, entries := map[], {}, {};
      new;
      hide HashInt;
      assert s.FreeFits();
      assert s.Contents().Keys == {};
      forall h | 0 <= h < HASH_SIZE ensures RowFits(rows, clusters, h) {}
    }

    /** FindCluster without `create`. */
    method FindCluster(id: nat) returns (c: Cluster?<V>)
      requires Coupled()
      ensures if id in clusters then c == clusters[id] else c == null
    {
      hide HashInt;
      var h := HashInt(id);
      assert RowFits(rows, clusters, h);
      c := hashtable[h];
      while c != null
        invariant c != null ==> c.id in clusters && clusters[c.id] == c
        invariant forall x :: x in rows[h] ==> x in ChainOf(c) || x.id != id
        decreases |ChainOf(c)|
      {
        assert InRow(rows, clusters, c.id);
        if c.id == id {
          return;
        }
        c := c.next;
      }
      forall x | x in clusters ensures InRow(rows, clusters, x) {}
    }
  
    /** A new cluster goes to the head of its row. */
    method Link(c: Cluster<V>)
      requires RowsFit() && c.below == rows[HashInt(c.id)]
      modifies this`rows, hashtable
      ensures RowsFit() && rows == Headed(old(rows), c)
    {
      hide HashInt;
      hashtable[HashInt(c.id)] := c;
      rows := Headed(rows, c);
    }

    /** Its blocks, all empty, join the others. */
    ghost method Join(id: nat, c: Cluster<V>)
      requires ClustersFit(s.heads) && id !in clusters && c.blocks !in arrays
      requires c.blocks.Length == CLUSTER_BLOCKS && forall i :: 0 <= i < CLUSTER_BLOCKS ==> c.blocks[i] == null
      modifies this`s, this`clusters, this`arrays
      ensures ClustersFit(s.heads) && clusters == old(clusters)[id := c] && arrays == old(arrays) + {c.blocks}
      ensures s == WithBlocks(old(s), id)
    {
      hide WithBlocks, BlocksOf;
      assert forall jd :: jd in clusters ==> ClusterFits(s.heads, jd) && clusters[jd].blocks in arrays;
      clusters := clusters[id := c];
      arrays := arrays + {c.blocks};
      s := WithBlocks(s, id);
      forall jd | jd in clusters ensures ClusterFits(s.heads, jd) {
        if jd == id {
          NewBlocks(old(s), id);
        } else {
          assert old(ClusterFits(s.heads, jd));
          OldBlocks(old(s), s, id, jd);
        }
      }
      forall b | b in s.heads ensures b / CLUSTER_BLOCKS in clusters { HeadsOf(old(s), id, b); }
    }

    /** FindCluster with `create`, when there is none. */
    method AddCluster(id: nat) returns (c: Cluster<V>)
      requires Valid() && id !in clusters
      modifies this`s, this`rows, this`clusters, this`arrays, hashtable
      ensures Valid() && clusters == old(clusters)[id := c] && s == WithBlocks(old(s), id)
      ensures s.Contents() == old(s.Contents())
      ensures arrays == old(arrays) + {c.blocks} && fresh(c.blocks)
    {
      hide HashInt, Tabled, Store.Valid, WithBlocks, BlocksOf, EntriesFit, RowsFit;
      RowIs(HashInt(id));
      c := new Cluster(id, hashtable[HashInt(id)]);
      TabledMore(rows, clusters, c);
      forall b | b in s.heads ensures b !in BlocksOf(id) { BlocksOfAre(id, b); }
      BlocksMade(s, id);
      Link(c);
      Join(id, c);
    }

    lemma RowIs(h: nat)
      requires RowsFit() && h < HASH_SIZE
      ensures hashtable.Length == HASH_SIZE == |rows| && ChainOf(hashtable[h]) == rows[h]
    {
    }

    /** The chain of a key's block. */
    lemma ChainHere(num: nat)
      requires Valid() && num / BLOCK / CLUSTER_BLOCKS in clusters
      ensures var c := clusters[num / BLOCK / CLUSTER_BLOCKS];
              c.blocks.Length == CLUSTER_BLOCKS && num / BLOCK in s.heads && num / BLOCK in s.chains
              && c.blocks[num / BLOCK % CLUSTER_BLOCKS] == s.heads[num / BLOCK] && s.BlockFits(num / BLOCK)
      ensures num in s.at ==> s.KeyFits(num)
    {
      var id, i := num / BLOCK / CLUSTER_BLOCKS, num / BLOCK % CLUSTER_BLOCKS;
      assert ClusterFits(s.heads, id);
      assert BlockNo(id, i) == num / BLOCK;
    }

    lemma NoChain(num: nat)
      requires Valid() && num / BLOCK / CLUSTER_BLOCKS !in clusters
      ensures num !in s.at
    {
      forall k | k in s.at ensures k / BLOCK / CLUSTER_BLOCKS in clusters { assert s.KeyFits(k); }
    }

    /** The loop over the chain of a block: the entry of a key and its position, or null. */
    method FindEntry(num: nat, head: Entry?<V>) returns (e: Entry?<V>, prev: Entry?<V>, ghost i: nat)
      requires Valid() && num / BLOCK in s.chains && num / BLOCK in s.heads && s.heads[num / BLOCK] == head
      ensures e == null <==> num !in s.at
      ensures e != null ==> e == s.at[num] && i < |s.chains[num / BLOCK]| && s.chains[num / BLOCK][i] == e
                            && (if i == 0 then prev == null else prev == s.chains[num / BLOCK][i - 1])
    {
      hide Tabled, Path, Once, RowsFit, ClustersFit;
      assert s.BlockFits(num / BLOCK);
      ghost var xs := s.chains[num / BLOCK];
      e, prev, i := head, null, 0;
      while e != null
        invariant i <= |xs| && Path(s.nxt, e, xs[i..])
        invariant forall j :: 0 <= j < i ==> s.key[xs[j]] != num
        invariant if i == 0 then prev == null else prev == xs[i - 1]
        decreases |xs| - i
      {
        PathFirst(s.nxt, e, xs[i..]);
        assert xs[i] == e && xs[i] in xs && e in entries;
        if e.key == num {
          return;
        }
        e, prev, i := e.next, e, i + 1;
      }
      PathEnds(s.nxt, xs[i..]);
      forall k | k in s.at ensures s.KeyFits(k) {}
    }

    /** Find */
    method Find(num: nat) returns (r: Option<V>)
      requires Valid()
      ensures r == if num in s.Contents() then Some(s.Contents()[num]) else None
    {
      hide Tabled, Path, Once, HashInt;
      var c := FindCluster(num / BLOCK / CLUSTER_BLOCKS);
      if c == null {
        NoChain(num);
        return None;
      }
      ChainHere(num);
      var e, prev, i := FindEntry(num, c.blocks[num / BLOCK % CLUSTER_BLOCKS]);
      if e == null {
        return None;
      }
      assert s.at[num] in s.value;
      r := Some(e.value);
    }

    /** Writes to an entry that is known are as the store says. */
    method Write(e: Entry<V>, next: Entry?<V>, key: nat, value: V)
      requires EntriesFit(s.nxt, s.key, s.value) && e in entries
      modifies e
      ensures EntriesFit(s.nxt[e := next], s.key[e := key], s.value[e := value])
    {
      e.next, e.key, e.value := next, key, value;
    }

    method WriteValue(e: Entry<V>, v: V)
      requires EntriesFit(s.nxt, s.key, s.value) && e in entries
      modifies e
      ensures EntriesFit(s.nxt, s.key, s.value[e := v])
    {
      e.value := v;
    }

    /** Insert of a key that is present. */
    method Replace(num: nat, e: Entry<V>, v: V)
      requires Valid() && num in s.at && e == s.at[num]
      modifies this`s, entries
      ensures Valid() && s.Contents() == old(s.Contents())[num := v]
    {
      hide Tabled, Path, Once, HashInt, Store.Valid, EntriesFit, ClustersFit;
      Known(num);
      Replaced(s, num, v);
      WriteValue(e, v);
      s := s.(value := s.value[e := v]);
    }

    lemma Known(num: nat)
      requires Valid() && num in s.at
      ensures s.at[num] in s.value && s.at[num] in entries
    {
    }

    /** The head of a chain changes. */
    method SetHead(b: nat, c: Cluster<V>, p: Entry?<V>, ghost heads: map<nat, Entry?<V>>)
      requires ClustersFit(heads) && b / CLUSTER_BLOCKS in clusters && c == clusters[b / CLUSTER_BLOCKS]
      modifies arrays
      ensures ClustersFit(heads[b := p])
    {
      var i := b % CLUSTER_BLOCKS;
      assert ClusterFits(heads, b / CLUSTER_BLOCKS);
      assert BlockNo(b / CLUSTER_BLOCKS, i) == b;
      c.blocks[i] := p;
      forall id | id in clusters ensures ClusterFits(heads[b := p], id) {
        assert old(ClusterFits(heads, id));
      }
    }

    lemma FreeHere()
      requires Valid() && freeHead != null
      ensures s.free != [] && s.free[0] == freeHead && freeHead in entries && freeHead in s.nxt
    {
    }

    /** Insert of a key that is not present: the first recycled entry goes to the head of its chain. */
    method AddEntry(num: nat, v: V, c: Cluster<V>)
      requires Valid() && num !in s.at && freeHead != null
      requires num / BLOCK / CLUSTER_BLOCKS in clusters && c == clusters[num / BLOCK / CLUSTER_BLOCKS]
      modifies this`s, this`freeHead, arrays, entries
      ensures Valid() && s.Contents() == old(s.Contents())[num := v]
    {
      hide Tabled, Path, Once, HashInt, Store.Valid, EntriesFit, ClustersFit, RowsFit, Put, Store.Contents;
      ChainHere(num);
      FreeHere();
      Added(s, num, v);
      PutFields(s, num, v);
      var e, i := freeHead, num / BLOCK % CLUSTER_BLOCKS;
      assert e.next == s.nxt[e] by { Linked(e); }
      freeHead := e.next;
      Write(e, c.blocks[i], num, v);
      SetHead(num / BLOCK, c, e, s.heads);
      s := Put(s, num, v);
    }

    lemma Linked(e: Entry<V>)
      requires EntriesFit(s.nxt, s.key, s.value) && e in entries
      ensures e in s.nxt && e.next == s.nxt[e]
    {
    }

    /** Insert makes ALLOC_COUNT entries at a time when there is none to reuse. */
    method Refill()
      requires Valid() && freeHead == null
      modifies this`s, this`freeHead, this`entries
      ensures Valid() && s.Contents() == old(s.Contents()) && freeHead != null
      ensures s.heads == old(s.heads) && s.at == old(s.at) && old(entries) <= entries && fresh(entries - old(entries))
    {
      hide Tabled, Path, Once, HashInt, Store.Valid, ClustersFit, Store.Contents, EntriesFit, RowsFit;
      NoneFree();
      EntriesAre();
      ghost var es, nxt, key, value := NewEntries();
      ghost var t := s.(nxt := nxt, key := key, value := value, freeHead := freeHead, free := es);
      Refilled(s, t, es);
      s := t;
      PathNotNull(nxt, freeHead, es);
    }

    /** The new entries es, linked from freeHead on. */
    method NewEntries()
      returns (ghost es: seq<Entry<V>>, ghost nxt: map<Entry<V>, Entry?<V>>, ghost key: map<Entry<V>, nat>,
               ghost value: map<Entry<V>, V>)
      requires EntriesFit(s.nxt, s.key, s.value) && freeHead == null
      modifies this`freeHead, this`entries
      ensures nxt.Keys == key.Keys == value.Keys == entries && EntriesFit(nxt, key, value)
      ensures Path(nxt, freeHead, es) && Once(es) && |es| == ALLOC_COUNT
      ensures old(entries) <= entries && fresh(entries - old(entries))
      ensures forall e :: e in es <==> e in entries && e !in old(entries)
      ensures s.nxt.Keys == s.key.Keys == s.value.Keys == old(entries)
      ensures forall e :: e in old(entries) ==> nxt[e] == s.nxt[e] && key[e] == s.key[e] && value[e] == s.value[e]
    {
      hide Path, Once, EntriesFit;
      EntriesAre();
      es, nxt, key, value := [], s.nxt, s.key, s.value;
      NoPath(nxt);
      OnceNone<Entry<V>>();
      for i := 0 to ALLOC_COUNT
        invariant nxt.Keys == key.Keys == value.Keys == entries
        invariant EntriesFit(nxt, key, value) && Path(nxt, freeHead, es) && Once(es) && |es| == i
        invariant old(entries) <= entries && fresh(entries - old(entries))
        invariant forall e :: e in es <==> e in entries && e !in old(entries)
        invariant forall e :: e in old(entries) ==> nxt[e] == s.nxt[e] && key[e] == s.key[e] && value[e] == s.value[e]
      {
        ghost var p := freeHead;
        var e := NewFree(nxt, key, value);
        PathMore(nxt, e, p, es);
        OnceMore(e, es);
        nxt, key, value := nxt[e := p], key[e := e.key], value[e := e.value];
        es := [e] + es;
      }
    }

    /** One more entry in front of the recycled ones. */
    method NewFree(ghost nxt: map<Entry<V>, Entry?<V>>, ghost key: map<Entry<V>, nat>, ghost value: map<Entry<V>, V>)
      returns (e: Entry<V>)
      requires EntriesFit(nxt, key, value)
      modifies this`freeHead, this`entries
      ensures fresh(e) && freeHead == e && entries == old(entries) + {e}
      ensures EntriesFit(nxt[e := old(freeHead)], key[e := e.key], value[e := e.value])
    {
      e := new Entry<V>();
      assert e !in entries;
      e.next := freeHead;
      freeHead := e;
      entries := entries + {e};
    }

    lemma EntriesAre()
      requires EntriesFit(s.nxt, s.key, s.value)
      ensures s.nxt.Keys == s.key.Keys == s.value.Keys == entries
    {
    }

    lemma NoneFree()
      requires Valid() && freeHead == null
      ensures s.free == []
    {
    }

    /** FindCluster with `create`. */
    method GetCluster(id: nat) returns (c: Cluster<V>)
      requires Valid()
      modifies this`s, this`rows, this`clusters, this`arrays, hashtable
      ensures Valid() && id in clusters && c == clusters[id] && s.Contents() == old(s.Contents()) && s.at == old(s.at)
      ensures fresh(arrays - old(arrays))
    {
      hide Tabled, HashInt, Store.Valid, EntriesFit, ClustersFit, WithBlocks, Store.Contents;
      var found := FindCluster(id);
      if found != null {
        return found;
      }
      c := AddCluster(id);
      KeepsEntries(old(s), id);
    }

    lemma KeepsEntries(t: Store<V>, id: nat)
      ensures WithBlocks(t, id).at == t.at
    {
    }

    /** Insert */
    method Insert(num: nat, v: V)
      requires Valid()
      modifies this, hashtable, arrays, entries
      ensures Valid() && s.Contents() == old(s.Contents())[num := v]
      ensures fresh(arrays - old(arrays)) && fresh(entries - old(entries))
    {
      hide Tabled, Path, Once, HashInt, Store.Valid, EntriesFit, ClustersFit, Store.Contents;
      var c := GetCluster(num / BLOCK / CLUSTER_BLOCKS);
      InsertInto(num, v, c);
    }

    /** Insert, once there is a cluster. */
    method InsertInto(num: nat, v: V, c: Cluster<V>)
      requires Valid() && num / BLOCK / CLUSTER_BLOCKS in clusters && c == clusters[num / BLOCK / CLUSTER_BLOCKS]
      modifies this`s, this`freeHead, this`entries, arrays, entries
      ensures Valid() && s.Contents() == old(s.Contents())[num := v] && fresh(entries - old(entries))
    {
      hide Tabled, Path, Once, HashInt, Store.Valid, EntriesFit, ClustersFit, Store.Contents;
      ChainHere(num);
      var e, prev, i := FindEntry(num, c.blocks[num / BLOCK % CLUSTER_BLOCKS]);
      if e != null {
        Known(num);
        Replace(num, e, v);
        return;
      }
      if freeHead == null { Refill(); }
      AddEntry(num, v, c);
    }

    method WriteNext(e: Entry<V>, next: Entry?<V>, ghost nxt: map<Entry<V>, Entry?<V>>)
      requires EntriesFit(nxt, s.key, s.value) && e in entries
      modifies e
      ensures EntriesFit(nxt[e := next], s.key, s.value)
    {
      e.next := next;
    }

    /** FindAndRemove: the entry is taken out of its chain and recycled. */
    method FindAndRemove(num: nat) returns (r: Option<V>)
      requires Valid()
      modifies this`s, this`freeHead, arrays, entries
      ensures r == if num in old(s.Contents()) then Some(old(s.Contents())[num]) else None
      ensures Valid() && s.Contents() == old(s.Contents()) - {num}
    {
      hide Tabled, Path, Once, HashInt, Store.Valid, EntriesFit, ClustersFit;
      var c := FindCluster(num / BLOCK / CLUSTER_BLOCKS);
      if c == null {
        NoChain(num);
        assert s.Contents() - {num} == s.Contents();
        return None;
      }
      ChainHere(num);
      var e, prev, i := FindEntry(num, c.blocks[num / BLOCK % CLUSTER_BLOCKS]);
      if e == null {
        assert s.Contents() - {num} == s.Contents();
        return None;
      }
      Known(num);
      ValueHere(e);
      r := Some(e.value);
      Unlink(num, c, e, prev, i);
    }

    lemma ValueHere(e: Entry<V>)
      requires EntriesFit(s.nxt, s.key, s.value) && e in entries
      ensures e in s.value && e.value == s.value[e]
    {
    }

    /** The entry leaves its chain, and is put before the recycled ones. */
    method Unlink(num: nat, c: Cluster<V>, e: Entry<V>, prev: Entry?<V>, ghost i: nat)
      requires Valid() && num in s.at && e == s.at[num] && num / BLOCK in s.chains && i < |s.chains[num / BLOCK]|
      requires s.chains[num / BLOCK][i] == e && (if i == 0 then prev == null else prev == s.chains[num / BLOCK][i - 1])
      requires num / BLOCK / CLUSTER_BLOCKS in clusters && c == clusters[num / BLOCK / CLUSTER_BLOCKS]
      modifies this`s, this`freeHead, arrays, entries
      ensures Valid() && s.Contents() == old(s.Contents()) - {num}
    {
      hide Tabled, Path, Once, HashInt, Store.Valid, EntriesFit, ClustersFit, Cut, Store.Contents;
      ChainHere(num);
      Removed(s, num, i);
      CutIs(s, num, i);
      Rewire(num, c, e, prev, i, Cut(s, num, i));
      freeHead := e;
      s := Cut(s, num, i);
    }

    method Rewire(num: nat, c: Cluster<V>, e: Entry<V>, prev: Entry?<V>, ghost i: nat, ghost t: Store<V>)
      requires Valid() && num in s.at && e == s.at[num] && num / BLOCK in s.heads && num / BLOCK in s.chains
      requires i < |s.chains[num / BLOCK]|
      requires s.chains[num / BLOCK][i] == e && (if i == 0 then prev == null else prev == s.chains[num / BLOCK][i - 1])
      requires num / BLOCK / CLUSTER_BLOCKS in clusters && c == clusters[num / BLOCK / CLUSTER_BLOCKS] && e in s.nxt
      requires t == Cut(s, num, i)
      modifies arrays, entries
      ensures EntriesFit(t.nxt, s.key, s.value) && ClustersFit(t.heads)
    {
      hide Tabled, Path, Once, HashInt, Store.Valid, EntriesFit, ClustersFit, Cut, Store.Contents;
      CutIs(s, num, i);
      Known(num);
      Linked(e);
      if prev == null {
        SetHead(num / BLOCK, c, e.next, s.heads);
        WriteNext(e, freeHead, s.nxt);
      } else {
        PrevKnown(num, i);
        WriteNext(prev, e.next, s.nxt);
        WriteNext(e, freeHead, s.nxt[prev := s.nxt[e]]);
      }
    }

    lemma CutIs(t: Store<V>, k: nat, i: nat)
      requires k / BLOCK in t.heads && k / BLOCK in t.chains && i < |t.chains[k / BLOCK]|
      requires t.chains[k / BLOCK][i] in t.nxt
      ensures var u, e := Cut(t, k, i), t.chains[k / BLOCK][i];
              && u.freeHead == e && u.key == t.key && u.value == t.value
              && (i == 0 ==> u.heads == t.heads[k / BLOCK := t.nxt[e]] && u.nxt == t.nxt[e := t.freeHead])
              && (i > 0 ==> u.heads == t.heads)
              && (i > 0 ==> u.nxt == t.nxt[t.chains[k / BLOCK][i - 1] := t.nxt[e]][e := t.freeHead])
    {
    }

    lemma PrevKnown(num: nat, i: nat)
      requires Valid() && num / BLOCK in s.chains && 0 < i < |s.chains[num / BLOCK]|
      ensures s.chains[num / BLOCK][i - 1] in entries && s.chains[num / BLOCK][i - 1] != s.chains[num / BLOCK][i]
    {
      assert s.BlockFits(num / BLOCK);
      assert s.chains[num / BLOCK][i - 1] in s.chains[num / BLOCK];
    }

    // ---------- Iterate ----------

    /** The entry belongs to a key. */
    ghost predicate Used(e: Entry<V>)
      reads this`s
    {
      e in s.key && s.key[e] in s.at && s.at[s.key[e]] == e
    }

    /** The number of its block. */
    ghost function BlockOf(e: Entry<V>): nat
      reads this`s
    {
      if e in s.key then s.key[e] / BLOCK else 0
    }

    /** The used entries of a block are its chain; its cluster is known. */
    lemma BlockHas(b: nat)
      requires Valid() && b in s.heads
      ensures b in s.chains && Path(s.nxt, s.heads[b], s.chains[b]) && Once(s.chains[b])
      ensures b / CLUSTER_BLOCKS in clusters
      ensures forall e :: e in s.chains[b] <==> Used(e) && BlockOf(e) == b
    {
      assert s.BlockFits(b);
      forall e | Used(e) && BlockOf(e) == b ensures e in s.chains[b] { assert s.KeyFits(s.key[e]); }
    }

    /** A used entry is in a block of a cluster. */
    lemma UsedHas(e: Entry<V>)
      requires Valid() && Used(e)
      ensures BlockOf(e) in s.heads && BlockOf(e) / CLUSTER_BLOCKS in clusters
    {
      assert s.KeyFits(s.key[e]);
    }

    /** The innermost loop: a chain. */
    method CollectBlock(head: Entry?<V>, ghost xs: seq<Entry<V>>) returns (list: seq<Entry<V>>)
      requires EntriesFit(s.nxt, s.key, s.value) && Path(s.nxt, head, xs)
      ensures list == xs
    {
      hide Path;
      var e := head;
      list := [];
      assert [] + xs == xs;
      ghost var rest := xs;
      while e != null
        invariant Path(s.nxt, e, rest) && xs == list + rest
        decreases |rest|
      {
        PathFirst(s.nxt, e, rest);
        assert list + rest == list + [e] + rest[1..];
        list := list + [e];
        e, rest := e.next, rest[1..];
      }
      PathEnds(s.nxt, rest);
    }

    /** The loop over the blocks of a cluster. */
    method CollectCluster(c: Cluster<V>) returns (list: seq<Entry<V>>)
      requires Valid() && c.id in clusters && clusters[c.id] == c
      ensures Once(list) && forall e :: e in list <==> Used(e) && BlockOf(e) / CLUSTER_BLOCKS == c.id
    {
      hide Tabled, Path, Once, HashInt, Store.Valid, EntriesFit;
      list := [];
      OnceNone<Entry<V>>();
      assert ClusterFits(s.heads, c.id);
      for b := 0 to CLUSTER_BLOCKS
        invariant Once(list) && forall e :: e in list <==> Used(e) && BlockNo(c.id, 0) <= BlockOf(e) < BlockNo(c.id, b)
      {
        var n := BlockNo(c.id, b);
        BlockHas(n);
        var more := CollectBlock(c.blocks[b], s.chains[n]);
        OnceJoin(list, more);
        list := list + more;
      }
    }

    /** The loop over the clusters of a row. */
    method CollectRow(h: nat) returns (list: seq<Entry<V>>)
      requires Valid() && h < HASH_SIZE
      ensures Once(list) && forall e :: e in list <==> Used(e) && HashInt(BlockOf(e) / CLUSTER_BLOCKS) == h
    {
      hide Path, Once, HashInt, Store.Valid, EntriesFit, ClustersFit, Tabled, In;
      list := [];
      OnceNone<Entry<V>>();
      NoneIn<V>();
      var c := hashtable[h];
      FirstInRow(rows, clusters, h);
      ghost var seen: seq<Cluster<V>> := [];
      assert rows[h] == seen + ChainOf(c);
      while c != null
        invariant c != null ==> c.id in clusters && clusters[c.id] == c
        invariant rows[h] == seen + ChainOf(c)
        invariant Once(list) && forall e :: e in list <==> Used(e) && In(seen, BlockOf(e) / CLUSTER_BLOCKS)
        decreases |ChainOf(c)|
      {
        LinkedRow(rows, clusters, c);
        var more := CollectCluster(c);
        NotSeen(rows, clusters, h, seen, c);
        OnceJoin(list, more);
        list := list + more;
        Associate(seen, [c], ChainOf(c.next));
        InMore(seen, c);
        seen := seen + [c];
        c := c.next;
      }
      assert seen + [] == seen;
      forall e | Used(e) ensures In(seen, BlockOf(e) / CLUSTER_BLOCKS) <==> HashInt(BlockOf(e) / CLUSTER_BLOCKS) == h {
        UsedHas(e);
        InAll(rows, clusters, h, BlockOf(e) / CLUSTER_BLOCKS);
      }
    }

    /** Iterate: the entries whose key and value are handed to the callback, in order. */
    method Iterate() returns (list: seq<Entry<V>>)
      requires Valid()
      ensures |list| == |s.Contents()|
      ensures forall i, j :: 0 <= i < j < |list| ==> list[i].key != list[j].key
      ensures forall e :: e in list ==> e.key in s.Contents() && s.Contents()[e.key] == e.value
      ensures forall k :: k in s.Contents() ==> exists e :: e in list && e.key == k
    {
      hide Tabled, Path, Once, HashInt, Store.Valid, EntriesFit, ClustersFit;
      list := [];
      OnceNone<Entry<V>>();
      for h := 0 to HASH_SIZE
        invariant Once(list) && forall e :: e in list <==> Used(e) && HashInt(BlockOf(e) / CLUSTER_BLOCKS) < h
      {
        var more := CollectRow(h);
        OnceJoin(list, more);
        list := list + more;
      }
      ListIsContents(list);
    }

    lemma ListIsContents(list: seq<Entry<V>>)
      requires Valid() && Once(list) && forall e :: e in list <==> Used(e)
      ensures |list| == |s.Contents()|
      ensures forall i, j :: 0 <= i < j < |list| ==> list[i].key != list[j].key
      ensures forall e :: e in list ==> e.key in s.Contents() && s.Contents()[e.key] == e.value
      ensures forall k :: k in s.Contents() ==> exists e :: e in list && e.key == k
    {
      hide Tabled, Path, ClustersFit;
      forall k | k in s.at ensures s.at[k] in list && s.at[k].key == k { assert s.KeyFits(k); }
      forall i, j | 0 <= i < j < |list|
        ensures list[i].key != list[j].key
      {
        assert list[i] in list && list[j] in list;
      }
      ghost var key := s.key;
      assert forall e :: e in list ==> e in key;
      ghost var keys := seq(|list|, i requires 0 <= i < |list| => key[list[i]]);
      CountKeys(list, keys);
    }

    /** A list of all keys, each once, is as long as there are keys. */
    lemma CountKeys(list: seq<Entry<V>>, keys: seq<nat>)
      requires Valid() && |keys| == |list| && forall i :: 0 <= i < |list| ==> Used(list[i]) && keys[i] == s.key[list[i]]
      requires forall i, j :: 0 <= i < j < |list| ==> list[i].key != list[j].key
      requires forall k :: k in s.at ==> s.at[k] in list
      ensures |keys| == |s.Contents()|
    {
      hide Tabled, Path, ClustersFit;
      assert Once(keys);
      forall k ensures k in keys <==> k in s.Contents() {
        if k in s.at {
          assert s.KeyFits(k);
          var i :| 0 <= i < |list| && list[i] == s.at[k];
          assert keys[i] == k;
        }
      }
      CountOnce(keys, s.Contents().Keys);
    }
  }

  ghost predicate In<V(0)>(seen: seq<Cluster<V>>, id: nat) {
    exists c :: c in seen && c.id == id
  }

  lemma NoneIn<V(0)>()
    ensures forall id :: !In<V>([], id)
  {
  }

  lemma FirstInRow<V(0)>(rows: seq<seq<Cluster<V>>>, clusters: map<nat, Cluster<V>>, h: nat)
    requires Tabled(rows, clusters) && h < HASH_SIZE
    ensures rows[h] != [] ==> rows[h][0].id in clusters && clusters[rows[h][0].id] == rows[h][0]
  {
    assert RowFits(rows, clusters, h);
  }

  lemma LinkedRow<V(0)>(rows: seq<seq<Cluster<V>>>, clusters: map<nat, Cluster<V>>, c: Cluster<V>)
    requires Tabled(rows, clusters) && c.id in clusters && clusters[c.id] == c
    ensures c.below == ChainOf(c.next) && (c.next != null ==> c.next.id in clusters && clusters[c.next.id] == c.next)
  {
    assert InRow(rows, clusters, c.id);
  }

  lemma InMore<V(0)>(seen: seq<Cluster<V>>, c: Cluster<V>)
    ensures forall id :: In(seen + [c], id) <==> In(seen, id) || id == c.id
  {
    forall id ensures In(seen + [c], id) <==> In(seen, id) || id == c.id {
      assert c in seen + [c];
      if In(seen, id) {
        var d :| d in seen && d.id == id;
        assert d in seen + [c];
      }
    }
  }

  lemma NotSeen<V(0)>(rows: seq<seq<Cluster<V>>>, clusters: map<nat, Cluster<V>>, h: nat, seen: seq<Cluster<V>>,
                  c: Cluster<V>)
    requires Tabled(rows, clusters) && h < HASH_SIZE && rows[h] == seen + ChainOf(c)
    ensures !In(seen, c.id)
  {
    assert RowFits(rows, clusters, h);
    assert rows[h][|seen|] == c && c in rows[h];
    forall i | 0 <= i < |seen| ensures seen[i].id != c.id {
      assert rows[h][i] == seen[i] && seen[i] in rows[h];
    }
  }

  lemma InAll<V(0)>(rows: seq<seq<Cluster<V>>>, clusters: map<nat, Cluster<V>>, h: nat, id: nat)
    requires Tabled(rows, clusters) && h < HASH_SIZE && id in clusters
    ensures In(rows[h], id) <==> HashInt(id) == h
  {
    hide HashInt;
    assert RowFits(rows, clusters, h) && InRow(rows, clusters, id);
    if HashInt(id) == h { assert clusters[id] in rows[h]; }
  }

  lemma PathMore<V(0)>(n: map<Entry<V>, Entry?<V>>, e: Entry<V>, p: Entry?<V>, xs: seq<Entry<V>>)
    requires Path(n, p, xs) && e !in xs
    ensures Path(n[e := p], e, [e] + xs)
  {
    PathFrame(n, n[e := p], p, xs);
    assert ([e] + xs)[1..] == xs;
  }

  lemma PathNotNull<V(0)>(n: map<Entry<V>, Entry?<V>>, p: Entry?<V>, xs: seq<Entry<V>>)
    requires Path(n, p, xs) && xs != []
    ensures p != null
  {
  }

  lemma PathFirst<V(0)>(n: map<Entry<V>, Entry?<V>>, p: Entry?<V>, xs: seq<Entry<V>>)
    requires Path(n, p, xs) && p != null
    ensures xs != [] && xs[0] == p && p in n && Path(n, n[p], xs[1..])
  {
  }

  lemma PathEnds<V(0)>(n: map<Entry<V>, Entry?<V>>, xs: seq<Entry<V>>)
    requires Path(n, null, xs)
    ensures xs == []
  {
  }

  lemma NewBlocks<V(0)>(s: Store<V>, id: nat)
    ensures forall i :: 0 <= i < CLUSTER_BLOCKS ==>
              BlockNo(id, i) in WithBlocks(s, id).heads && WithBlocks(s, id).heads[BlockNo(id, i)] == null
  {
    forall i | 0 <= i < CLUSTER_BLOCKS ensures BlockNo(id, i) in BlocksOf(id) { BlocksOfAre(id, BlockNo(id, i)); }
  }

  lemma OldBlocks<V(0)>(s: Store<V>, t: Store<V>, id: nat, jd: nat)
    requires jd != id && t == WithBlocks(s, id) && forall i :: 0 <= i < CLUSTER_BLOCKS ==> BlockNo(jd, i) in s.heads
    ensures forall i :: 0 <= i < CLUSTER_BLOCKS ==>
              BlockNo(jd, i) in t.heads && t.heads[BlockNo(jd, i)] == s.heads[BlockNo(jd, i)]
  {
    forall i | 0 <= i < CLUSTER_BLOCKS ensures BlockNo(jd, i) !in BlocksOf(id) { BlocksOfAre(id, BlockNo(jd, i)); }
  }

  lemma HeadsOf<V(0)>(s: Store<V>, id: nat, b: nat)
    requires b in WithBlocks(s, id).heads
    ensures b in s.heads || b / CLUSTER_BLOCKS == id
  {
    BlocksOfAre(id, b);
  }
}
