/**
 The page maps: an array, and radix trees of two and three levels. Each behaves as a flat
 sequence of values, where 0 is NULL; a tree only has to be ensured before it is used.
 */
module PageMaps {
  import opened Arith

  /** How Ensure ends; Fault when it follows a root that is NULL or an index past the end of one. */
  datatype Outcome = Done | NoMemory | Fault

  /** The last key of n keys from start, as the program computes it. */
  function Last(start: nat, n: nat, words: nat): (k: nat)
    requires words > 0
    ensures k < words
    ensures 0 < n && start + n <= words ==> k == start + n - 1
  {
    (start + n - 1) % words
  }

  /** The upper part of an index: k >> BITS for n == 1 << BITS. */
  function High(k: nat, n: nat): (h: nat)
    requires n > 0
  {
    k / n
  }

  /** The lower part: k & (n - 1). */
  function Low(k: nat, n: nat): (l: nat)
    requires n > 0
  {
    k % n
  }

  /** The first key of the next leaf. */
  function NextKey(k: nat, n: nat): (next: nat)
    requires n > 0
    ensures next > k
  {
    assert k == (k / n) * n + k % n;
    assert (k / n + 1) * n == (k / n) * n + n;
    (k / n + 1) * n
  }

  /** Upper and lower part tell keys apart. */
  lemma SplitUnique(j: nat, k: nat, n: nat)
    requires n > 0 && j != k
    ensures High(j, n) != High(k, n) || Low(j, n) != Low(k, n)
  {
    assert j == (j / n) * n + j % n;
    assert k == (k / n) * n + k % n;
  }

  /** All keys from `key` up to the next leaf's first are in the leaf of `key`. */
  lemma SameLeaf(key: nat, j: nat, n: nat)
    requires n > 0 && key <= j < NextKey(key, n)
    ensures High(j, n) == High(key, n)
  {
    assert key == (key / n) * n + key % n;
    var d := j - (key / n) * n;
    assert (key / n + 1) * n == (key / n) * n + n;
    assert 0 <= d < n;
    ModAdd(d, key / n, n);
  }

  ghost predicate IsProduct(size: nat, a: nat, b: nat) { size == a * b }

  lemma LeafInRange(k: nat, n: nat, leaves: nat, size: nat)
    requires n > 0 && k < size && IsProduct(size, leaves, n)
    ensures High(k, n) < leaves
  {
    assert k == (k / n) * n + k % n;
    if k / n >= leaves { Scale(leaves, k / n, n); }
  }

  lemma LeafBeyond(k: nat, n: nat, leaves: nat, size: nat)
    requires n > 0 && size <= k && IsProduct(size, leaves, n)
    ensures leaves <= High(k, n)
  {
    assert k == (k / n) * n + k % n;
    assert (k / n + 1) * n == (k / n) * n + n;
    if k / n + 1 <= leaves { Scale(k / n + 1, leaves, n); }
  }

  lemma NextLeafInRange(k: nat, n: nat, leaves: nat, size: nat)
    requires n > 0 && k < size && IsProduct(size, leaves, n)
    ensures NextKey(k, n) <= size
  {
    LeafInRange(k, n, leaves, size);
    Scale(k / n + 1, leaves, n);
  }

  /** TCMalloc_PageMap1. */
  class PageMap1 {
    const values: array<nat>

    constructor (size: nat)
      ensures fresh(values) && values[..] == seq(size, _ => 0)
    {
      values := new nat[size](_ => 0);
    }

    method Ensure(start: nat, n: nat) returns (ok: bool)
      ensures ok
    {
      ok := true;
    }

    method Get(k: nat) returns (v: nat)
      requires k < values.Length
      ensures v == values[..][k]
    {
      v := values[k];
    }

    method Set(k: nat, v: nat)
      requires k < values.Length
      modifies values
      ensures values[..] == old(values[..])[k := v]
    {
      values[k] := v;
    }
  }

  /** TCMalloc_PageMap2. */
  class PageMap2 {
    const length: nat
    const root: array<array?<nat>>
    ghost var leaves: set<array<nat>>
    /** The value of each key, 0 where there is no leaf. */
    ghost var flat: seq<nat>

    ghost predicate LeafFits(i: nat)
      requires i < root.Length
      reads this, root, leaves
    {
      root[i] != null ==>
        && root[i] in leaves && root[i].Length == length && IsProduct(|flat|, root.Length, length)
        && forall k :: 0 <= k < |flat| && High(k, length) == i ==>
             Low(k, length) < root[i].Length && flat[k] == root[i][Low(k, length)]
    }

    ghost predicate Valid()
      reads this, root, leaves
    {
      && length > 0 && IsProduct(|flat|, root.Length, length)
      && (forall i :: 0 <= i < root.Length ==> LeafFits(i))
      && (forall i, j :: 0 <= i < j < root.Length && root[i] != null ==> root[i] != root[j])
      && (forall k :: 0 <= k < |flat| && High(k, length) < root.Length && root[High(k, length)] == null ==>
            flat[k] == 0)
    }

    /** The key has a leaf. */
    ghost predicate Ensured(k: nat)
      reads this, root
    {
      length > 0 && k < |flat| && High(k, length) < root.Length && root[High(k, length)] != null
    }

    constructor (rootLength: nat, length: nat)
      requires length > 0
      ensures Valid() && fresh(root) && leaves == {} && flat == seq(rootLength * length, _ => 0)
      ensures forall k :: !Ensured(k)
    {
      this.length := length;
      root := new array?<nat>[rootLength](_ => null);
      leaves, flat := {}, seq(rootLength * length, _ => 0);
    }

    method Get(k: nat) returns (v: nat)
      requires Valid() && Ensured(k)
      ensures v == flat[k]
    {
      assert LeafFits(High(k, length));
      v := root[High(k, length)][Low(k, length)];
    }

    method Set(k: nat, v: nat)
      requires Valid() && Ensured(k)
      modifies this`flat, root[High(k, length)]
      ensures Valid() && flat == old(flat)[k := v] && leaves == old(leaves)
      ensures forall j :: Ensured(j) <==> old(Ensured(j))
    {
      var i := High(k, length);
      assert LeafFits(i);
      root[i][Low(k, length)] := v;
      flat := flat[k := v];
      forall j | 0 <= j < root.Length ensures LeafFits(j) {
        assert old(LeafFits(j));
        forall m | 0 <= m < |flat| && m != k
          ensures High(m, length) != i || Low(m, length) != Low(k, length)
        {
          SplitUnique(m, k, length);
        }
      }
    }

    /**
     Ensure, when there is memory for so many nodes, and what is left of it. Whatever
     happens, no value changes and no leaf is lost. When it is done every key of the range has
     a leaf. It leaves the root exactly if the range reaches past the last key, which it does
     for no keys from 0, unless all memory is used up before.
     */
    method Ensure(start: nat, n: nat, memory: nat) returns (r: Outcome, left: nat)
      requires Valid()
      modifies this`leaves, root
      ensures Valid() && flat == old(flat)
      ensures forall k :: old(Ensured(k)) ==> Ensured(k)
      ensures r.Done? ==> forall k :: start <= k <= Last(start, n, WIDTH) ==> Ensured(k)
      ensures r.NoMemory? ==> exists k :: start <= k <= Last(start, n, WIDTH) && !Ensured(k)
      ensures r.Fault? ==> |flat| <= Last(start, n, WIDTH) && start <= Last(start, n, WIDTH)
      ensures |flat| <= Last(start, n, WIDTH) && start <= Last(start, n, WIDTH) ==> !r.Done?
      ensures left <= memory && (r.NoMemory? ==> left == 0) && |leaves| == |old(leaves)| + (memory - left)
      ensures (forall k :: start <= k <= Last(start, n, WIDTH) && k < |flat| ==> old(Ensured(k))) ==>
                left == memory && !r.NoMemory?
    {
      hide Valid, Ensured;
      Sizes();
      left := memory;
      var key := start;
      while key <= Last(start, n, WIDTH)
        invariant Valid() && flat == old(flat) && start <= key
        invariant key == start || key <= |flat|
        invariant forall k :: old(Ensured(k)) ==> Ensured(k)
        invariant forall k :: start <= k < key ==> Ensured(k)
        invariant left <= memory && |leaves| == |old(leaves)| + (memory - left)
        invariant (forall k :: start <= k <= Last(start, n, WIDTH) && k < |flat| ==> old(Ensured(k))) ==> left == memory
        decreases Last(start, n, WIDTH) + 1 - key
      {
        if High(key, length) >= root.Length {
          Within(key);
          return Fault, left;
        }
        Within(key);
        NextLeafInRange(key, length, root.Length, |flat|);
        var ok;
        ok, left := EnsureLeaf(key, left);
        if !ok {
          return NoMemory, left;
        }
        key := NextKey(key, length);
      }
      r := Done;
      if start <= Last(start, n, WIDTH) { AllKeys(start, Last(start, n, WIDTH)); }
    }

    lemma Within(key: nat)
      requires Valid()
      ensures High(key, length) < root.Length <==> key < |flat|
    {
      if key < |flat| {
        LeafInRange(key, length, root.Length, |flat|);
      } else {
        LeafBeyond(key, length, root.Length, |flat|);
      }
    }

    lemma AllKeys(first: nat, last: nat)
      requires first <= last && forall k :: first <= k <= last ==> Ensured(k)
      ensures last < |flat|
    {
      assert Ensured(last);
    }

    lemma Sizes()
      requires Valid()
      ensures length > 0 && IsProduct(|flat|, root.Length, length)
    {
    }

    /** One turn of the loop. */
    method EnsureLeaf(key: nat, memory: nat) returns (ok: bool, left: nat)
      requires Valid() && key < |flat|
      modifies this`leaves, root
      ensures Valid() && flat == old(flat)
      ensures forall k :: old(Ensured(k)) ==> Ensured(k)
      ensures left == memory - (if old(Ensured(key)) || memory == 0 then 0 else 1)
      ensures |leaves| == |old(leaves)| + (memory - left) && (ok <==> old(Ensured(key)) || memory > 0)
      ensures if ok then forall k :: key <= k < NextKey(key, length) ==> Ensured(k) else !Ensured(key)
    {
      NextLeafInRange(key, length, root.Length, |flat|);
      LeafInRange(key, length, root.Length, |flat|);
      var i := High(key, length);
      left := memory;
      if root[i] == null {
        if left == 0 {
          return false, 0;
        }
        left := left - 1;
        AddLeaf(i);
      }
      forall k | key <= k < NextKey(key, length) ensures Ensured(k) { SameLeaf(key, k, length); }
      ok := true;
    }

    /** A new leaf, all zero. */
    method AddLeaf(i: nat)
      requires Valid() && i < root.Length && root[i] == null
      modifies this`leaves, root
      ensures Valid() && root[i] != null && forall j :: 0 <= j < root.Length && j != i ==> root[j] == old(root[j])
      ensures |leaves| == |old(leaves)| + 1
    {
      var leaf := new nat[length](_ => 0);
      root[i] := leaf;
      leaves := leaves + {leaf};
      forall j | 0 <= j < root.Length ensures LeafFits(j) { assert j != i ==> old(LeafFits(j)); }
    }
  }

  lemma DivideTwice(k: nat, a: nat, b: nat)
    requires a > 0 && b > 0
    ensures a * b > 0 && High(k, a * b) == High(High(k, a), b)
  {
    MulAtLeast(a, b);
    Digits(k, a, k / a, k % a);
    Digits(k / a, b, k / a / b, k / a % b);
    Nested(k, a, b, k / a / b, k / a % b, k % a);
  }

  lemma Digits(k: nat, a: nat, x: nat, y: nat)
    requires a > 0 && x == k / a && y == k % a
    ensures k == x * a + y && y < a
  {
  }

  lemma Nested(k: nat, a: nat, b: nat, q: nat, z: nat, y: nat)
    requires a > 0 && b > 0 && y < a && z < b && k == (q * b + z) * a + y && a * b > 0
    ensures k / (a * b) == q
  {
    LeafProduct(q, b, z, a);
    Scale(z + 1, b, a);
    QuotientIs(k, q, z * a + y, a * b);
  }

  lemma QuotientIs(k: nat, q: nat, r: nat, m: nat)
    requires r < m && k == q * m + r
    ensures k / m == q
  {
    ModAdd(r, q, m);
  }

  lemma LeafProduct(q: nat, b: nat, z: nat, a: nat)
    ensures (q * b + z) * a == q * (a * b) + z * a && (z + 1) * a == z * a + a && b * a == a * b
  {
  }

  /** An interior node of the three-level tree. */
  class Node {
    const ptrs: array<array?<nat>>

    constructor (width: nat)
      ensures fresh(ptrs) && ptrs.Length == width && forall i :: 0 <= i < width ==> ptrs[i] == null
    {
      ptrs := new array?<nat>[width](_ => null);
    }
  }

  /** TCMalloc_PageMap3. Leaf j hangs in node High(j, width), at place Low(j, width). */
  class PageMap3 {
    const length: nat
    const width: nat
    /** The root node, all NULL where there was no memory for it: then it is never followed. */
    const root: array<Node?>
    const rooted: bool
    ghost var tables: set<array<array?<nat>>>
    ghost var leaves: set<array<nat>>
    /** The leaves in order, null where there is none. */
    ghost var dir: seq<array?<nat>>
    ghost var flat: seq<nat>

    ghost predicate NodeFits(i: nat)
      requires i < root.Length
      reads this`dir, this`tables, root, tables
    {
      && IsProduct(|dir|, width, width) && width > 0
      && (root[i] != null ==> root[i].ptrs in tables && root[i].ptrs.Length == width)
      && forall j :: 0 <= j < |dir| && High(j, width) == i ==>
           dir[j] ==
           if root[i] != null && Low(j, width) < root[i].ptrs.Length then root[i].ptrs[Low(j, width)] else null
    }

    ghost predicate LeafFits(j: nat)
      requires j < |dir|
      reads this`dir, this`flat, this`leaves, leaves
    {
      && length > 0 && IsProduct(|flat|, |dir|, length)
      && (dir[j] != null ==>
            && dir[j] in leaves && dir[j].Length == length
            && forall k :: 0 <= k < |flat| && High(k, length) == j ==>
                 Low(k, length) < dir[j].Length && flat[k] == dir[j][Low(k, length)])
    }

    ghost predicate Valid()
      reads this, root, tables, leaves
    {
      && length > 0 && width > 0 && root.Length == width
      && IsProduct(|dir|, width, width) && IsProduct(|flat|, |dir|, length)
      && (forall i :: 0 <= i < width ==> NodeFits(i))
      && (!rooted ==> forall i :: 0 <= i < width ==> root[i] == null)
      && (forall i, j :: 0 <= i < j < width && root[i] != null && root[j] != null ==> root[i].ptrs != root[j].ptrs)
      && (forall j :: 0 <= j < |dir| ==> LeafFits(j))
      && (forall i, j :: 0 <= i < j < |dir| && dir[i] != null ==> dir[i] != dir[j])
      && (forall k :: 0 <= k < |flat| && High(k, length) < |dir| && dir[High(k, length)] == null ==> flat[k] == 0)
    }

    /** The key has a leaf. */
    ghost predicate Ensured(k: nat)
      reads this
    {
      length > 0 && k < |flat| && High(k, length) < |dir| && dir[High(k, length)] != null
    }

    ghost predicate HasNode(k: nat)
      reads this, root
    {
      && length > 0 && width > 0
      && High(High(k, length), width) < root.Length && root[High(High(k, length), width)] != null
    }

    constructor (width: nat, length: nat, rooted: bool)
      requires length > 0 && width > 0
      ensures Valid() && fresh(root) && leaves == {} && tables == {} && flat == seq(width * width * length, _ => 0)
      ensures this.rooted == rooted && forall k :: !Ensured(k)
    {
      this.length, this.width, this.rooted := length, width, rooted;
      root := new Node?[width](_ => null);
      tables, leaves := {}, {};
      dir, flat := seq(width * width, _ => null), seq(width * width * length, _ => 0);
    }

    lemma Sizes()
      requires Valid()
      ensures length > 0 && width > 0 && IsProduct(|dir|, width, width) && IsProduct(|flat|, |dir|, length)
    {
    }

    /** Where the leaf of key k hangs. */
    lemma Place(k: nat)
      requires Valid() && k < |flat|
      ensures length * width > 0 && High(k, length * width) == High(High(k, length), width) < root.Length
      ensures High(k, length) < |dir|
      ensures Low(High(k, length), width) < width && NodeFits(High(High(k, length), width)) && LeafFits(High(k, length))
      ensures var node := root[High(High(k, length), width)];
              if node == null then dir[High(k, length)] == null
              else
                && node.ptrs in tables && node.ptrs.Length == width
                && node.ptrs[Low(High(k, length), width)] == dir[High(k, length)]
    {
      LeafInRange(k, length, |dir|, |flat|);
      LeafInRange(High(k, length), width, width, |dir|);
      DivideTwice(k, length, width);
    }

    method Get(k: nat) returns (v: nat)
      requires Valid() && Ensured(k)
      ensures v == flat[k]
    {
      Place(k);
      var leaf := root[High(k, length * width)].ptrs[Low(High(k, length), width)];
      v := leaf[Low(k, length)];
    }

    method Set(k: nat, v: nat)
      requires Valid() && Ensured(k)
      modifies this`flat, dir[High(k, length)]
      ensures Valid() && flat == old(flat)[k := v] && leaves == old(leaves) && tables == old(tables)
      ensures forall j :: Ensured(j) <==> old(Ensured(j))
    {
      Place(k);
      var leaf := root[High(k, length * width)].ptrs[Low(High(k, length), width)];
      leaf[Low(k, length)] := v;
      flat := flat[k := v];
      forall j | 0 <= j < |dir| ensures LeafFits(j) {
        assert old(LeafFits(j));
        forall m | 0 <= m < |flat| && m != k
          ensures High(m, length) != High(k, length) || Low(m, length) != Low(k, length)
        {
          SplitUnique(m, k, length);
        }
      }
    }

    /** Ensure, as for the two-level tree; it also faults if there is no root node. */
    method Ensure(start: nat, n: nat, memory: nat) returns (r: Outcome, left: nat)
      requires Valid()
      modifies this`leaves, this`tables, this`dir, root, tables
      ensures Valid() && flat == old(flat)
      ensures forall k :: old(Ensured(k)) ==> Ensured(k)
      ensures r.Done? ==> forall k :: start <= k <= Last(start, n, WIDE) ==> Ensured(k)
      ensures r.NoMemory? ==> exists k :: start <= k <= Last(start, n, WIDE) && !Ensured(k)
      ensures r.Fault? ==> (!rooted || |flat| <= Last(start, n, WIDE)) && start <= Last(start, n, WIDE)
      ensures (!rooted || |flat| <= Last(start, n, WIDE)) && start <= Last(start, n, WIDE) ==> !r.Done?
      ensures old(tables) <= tables && fresh(tables - old(tables))
      ensures left <= memory && (r.NoMemory? ==> left == 0)
      ensures |leaves| + |tables| == |old(leaves)| + |old(tables)| + (memory - left)
      ensures (forall k :: start <= k <= Last(start, n, WIDE) && k < |flat| ==> old(Ensured(k))) ==>
                left == memory && !r.NoMemory?
    {
      hide Valid, Ensured;
      Sizes();
      left := memory;
      var key := start;
      while key <= Last(start, n, WIDE)
        invariant Valid() && flat == old(flat) && |dir| == old(|dir|) && start <= key
        invariant key == start || (rooted && key <= |flat|)
        invariant forall k :: old(Ensured(k)) ==> Ensured(k)
        invariant forall k :: start <= k < key ==> Ensured(k)
        invariant old(tables) <= tables && fresh(tables - old(tables))
        invariant left <= memory && |leaves| + |tables| == |old(leaves)| + |old(tables)| + (memory - left)
        invariant (forall k :: start <= k <= Last(start, n, WIDE) && k < |flat| ==> old(Ensured(k))) ==> left == memory
        decreases Last(start, n, WIDE) + 1 - key
      {
        Within(key);
        if !rooted || High(key, length * width) >= width {
          return Fault, left;
        }
        NextLeafInRange(key, length, |dir|, |flat|);
        var ok;
        ok, left := EnsureLeaf(key, left);
        if !ok {
          return NoMemory, left;
        }
        key := NextKey(key, length);
      }
      r := Done;
      if start <= Last(start, n, WIDE) { AllKeys(start, Last(start, n, WIDE)); }
    }

    lemma Within(key: nat)
      requires Valid()
      ensures length * width > 0 && (High(key, length * width) < width <==> key < |flat|)
    {
      DivideTwice(key, length, width);
      if key < |flat| {
        LeafInRange(key, length, |dir|, |flat|);
        LeafInRange(High(key, length), width, width, |dir|);
      } else {
        LeafBeyond(key, length, |dir|, |flat|);
        LeafBeyond(High(key, length), width, width, |dir|);
      }
    }

    lemma AllKeys(first: nat, last: nat)
      requires first <= last && forall k :: first <= k <= last ==> Ensured(k)
      ensures last < |flat|
    {
      assert Ensured(last);
    }

    /** One turn of the loop. */
    method EnsureLeaf(key: nat, memory: nat) returns (ok: bool, left: nat)
      requires Valid() && key < |flat| && rooted
      modifies this`leaves, this`tables, this`dir, root, tables
      ensures Valid() && flat == old(flat) && |dir| == old(|dir|)
      ensures forall k :: old(Ensured(k)) ==> Ensured(k)
      ensures if ok then forall k :: key <= k < NextKey(key, length) ==> Ensured(k) else !Ensured(key)
      ensures old(tables) <= tables && fresh(tables - old(tables))
      ensures left <= memory && (old(Ensured(key)) ==> ok && left == memory) && (!ok ==> left == 0)
      ensures |leaves| + |tables| == |old(leaves)| + |old(tables)| + (memory - left)
    {
      hide NodeFits, LeafFits;
      Place(key);
      ok, left := EnsureNode(key, memory);
      if !ok {
        return;
      }
      ok, left := HangLeaf(key, left);
    }

    /** The leaf for a key. */
    method HangLeaf(key: nat, memory: nat) returns (ok: bool, left: nat)
      requires Valid() && key < |flat| && HasNode(key)
      modifies this`leaves, this`dir, tables
      ensures Valid() && |dir| == old(|dir|)
      ensures forall k :: old(Ensured(k)) ==> Ensured(k)
      ensures if ok then forall k :: key <= k < NextKey(key, length) ==> Ensured(k) else !Ensured(key)
      ensures left <= memory && (old(Ensured(key)) ==> ok && left == memory) && (!ok ==> left == 0)
      ensures |leaves| == |old(leaves)| + (memory - left) && tables == old(tables)
    {
      hide NodeFits, LeafFits;
      Place(key);
      ok, left := true, memory;
      if root[High(key, length * width)].ptrs[Low(High(key, length), width)] == null {
        ok := left > 0;
        if ok {
          left := left - 1;
          AddLeaf(High(key, length));
        }
      }
      if ok { LeafEnsures(key); }
    }

    /** A leaf serves all its keys. */
    lemma LeafEnsures(key: nat)
      requires length > 0 && IsProduct(|flat|, |dir|, length) && key < |flat| && High(key, length) < |dir|
      requires dir[High(key, length)] != null
      ensures forall k :: key <= k < NextKey(key, length) ==> Ensured(k)
    {
      NextLeafInRange(key, length, |dir|, |flat|);
      forall k | key <= k < NextKey(key, length) ensures Ensured(k) { SameLeaf(key, k, length); }
    }

    /** The interior node for a key. */
    method EnsureNode(key: nat, memory: nat) returns (ok: bool, left: nat)
      requires Valid() && key < |flat| && rooted
      modifies this`tables, root
      ensures Valid() && (if ok then HasNode(key) else !Ensured(key))
      ensures old(tables) <= tables && fresh(tables - old(tables))
      ensures left <= memory && (Ensured(key) ==> ok && left == memory) && (!ok ==> left == 0)
      ensures |tables| == |old(tables)| + (memory - left)
    {
      hide NodeFits, LeafFits;
      Place(key);
      var i := High(key, length * width);
      ok, left := true, memory;
      if root[i] == null {
        ok := left > 0;
        if ok {
          left := left - 1;
          AddNode(i);
        }
      }
    }

    /** A new interior node, all NULL: nothing is ensured by it. */
    method AddNode(i: nat)
      requires Valid() && i < root.Length && root[i] == null && rooted
      modifies this`tables, root
      ensures Valid() && root[i] != null && fresh(tables - old(tables)) && old(tables) <= tables
      ensures |tables| == |old(tables)| + 1
      ensures forall j :: 0 <= j < root.Length && j != i ==> root[j] == old(root[j])
    {
      var node := new Node(width);
      root[i] := node;
      tables := tables + {node.ptrs};
      forall j | 0 <= j < root.Length ensures NodeFits(j) { assert old(NodeFits(j)); }
      forall j | 0 <= j < |dir| ensures LeafFits(j) { assert old(LeafFits(j)); }
    }

    /** A new leaf, all zero. */
    method AddLeaf(j: nat)
      requires Valid() && j < |dir| && High(j, width) < root.Length && root[High(j, width)] != null && dir[j] == null
      requires root[High(j, width)].ptrs in tables && Low(j, width) < root[High(j, width)].ptrs.Length
      modifies this`leaves, this`dir, root[High(j, width)].ptrs
      ensures Valid() && |dir| == old(|dir|) && dir[j] != null && |leaves| == |old(leaves)| + 1
      ensures forall m :: 0 <= m < |dir| && m != j ==> dir[m] == old(dir[m])
    {
      var leaf := new nat[length](_ => 0);
      var i := High(j, width);
      root[i].ptrs[Low(j, width)] := leaf;
      leaves := leaves + {leaf};
      dir := dir[j := leaf];
      forall m | 0 <= m < root.Length ensures NodeFits(m) {
        assert old(NodeFits(m));
        forall x | 0 <= x < |dir| && x != j
          ensures High(x, width) != i || Low(x, width) != Low(j, width)
        {
          SplitUnique(x, j, width);
        }
      }
      forall m | 0 <= m < |dir| ensures LeafFits(m) { assert old(LeafFits(m)); }
      hide NodeFits, LeafFits;
      assert forall m :: 0 <= m < |dir| && m != j && dir[m] != null ==> dir[m] != leaf;
      assert forall a, b :: 0 <= a < b < |dir| && dir[a] != null ==> dir[a] != dir[b];
    }
  }
}
