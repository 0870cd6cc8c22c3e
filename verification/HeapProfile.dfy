/** The heap profiler's table of buckets and its accounts. */
module HeapProfile {
  import opened Basics
  import opened HeapCounts
  import opened StackHash

  /** A bucket is in the chain of its hash, and linked to the rest of it. */
  ghost predicate InTable(rows: seq<seq<Bucket>>, buckets: set<Bucket>, b: Bucket)
    requires |rows| > 0
  {
    && b in rows[b.hash % |rows|] && b.hash == Hash(b.stack)
    && b.below == Chain(b.next) && (b.next != null ==> b.next in buckets)
  }

  ghost predicate RowFits(rows: seq<seq<Bucket>>, buckets: set<Bucket>, i: nat)
    requires i < |rows|
  {
    && Once(rows[i])
    && forall b :: b in rows[i] ==> b in buckets && b.hash % |rows| == i
  }

  /** Chains hold all buckets once each, and buckets have different stacks. */
  ghost predicate Tabled(rows: seq<seq<Bucket>>, buckets: set<Bucket>) {
    && |rows| > 0
    && (forall b :: b in buckets ==> InTable(rows, buckets, b))
    && (forall i :: 0 <= i < |rows| ==> RowFits(rows, buckets, i))
    && (forall b, c :: b in buckets && c in buckets && b.stack == c.stack ==> b == c)
  }

  /** The chain of bucket b, with b at its head. */
  ghost function Headed(rows: seq<seq<Bucket>>, b: Bucket): seq<seq<Bucket>>
    requires |rows| > 0
  {
    rows[b.hash % |rows| := [b] + rows[b.hash % |rows|]]
  }

  lemma StaysInTable(rows: seq<seq<Bucket>>, buckets: set<Bucket>, b: Bucket, c: Bucket)
    requires |rows| > 0 && InTable(rows, buckets, c)
    ensures InTable(Headed(rows, b), buckets + {b}, c)
  {
    hide Hash;
  }

  lemma NewInTable(rows: seq<seq<Bucket>>, buckets: set<Bucket>, b: Bucket)
    requires |rows| > 0 && b.hash == Hash(b.stack) && b.below == Chain(b.next) == rows[b.hash % |rows|]
    requires RowFits(rows, buckets, b.hash % |rows|)
    ensures InTable(Headed(rows, b), buckets + {b}, b)
  {
    hide Hash, Once;
  }

  lemma RowStays(rows: seq<seq<Bucket>>, buckets: set<Bucket>, b: Bucket, j: nat)
    requires j < |rows| && RowFits(rows, buckets, j) && b !in buckets
    ensures RowFits(Headed(rows, b), buckets + {b}, j)
  {
    hide Hash, Once;
    if j == b.hash % |rows| { OnceMore(b, rows[j]); }
  }

  lemma TabledMore(rows: seq<seq<Bucket>>, buckets: set<Bucket>, b: Bucket)
    requires Tabled(rows, buckets) && b !in buckets && b.hash == Hash(b.stack) && b.below == Chain(b.next)
    requires rows[b.hash % |rows|] == Chain(b.next) && forall c :: c in buckets ==> c.stack != b.stack
    ensures Tabled(Headed(rows, b), buckets + {b})
  {
    hide Hash, Once, InTable, RowFits, Chain;
    var i, rows' := b.hash % |rows|, Headed(rows, b);
    assert RowFits(rows, buckets, i);
    NewInTable(rows, buckets, b);
    forall c | c in buckets ensures InTable(rows', buckets + {b}, c) {
      assert InTable(rows, buckets, c);
      StaysInTable(rows, buckets, b, c);
    }
    forall j | 0 <= j < |rows'| ensures RowFits(rows', buckets + {b}, j) {
      assert RowFits(rows, buckets, j);
      RowStays(rows, buckets, b, j);
    }
  }

  class HeapProfile {
    const table: array<Bucket?>
    var numBuckets: int
    var total: Stats
    var profile: Stats
    var allocation: map<nat, AllocValue>
    ghost var buckets: set<Bucket>
    /** The chains, from the heads on. */
    ghost var rows: seq<seq<Bucket>>
    /** The counters of each bucket. */
    ghost var counts: map<Bucket, Stats>
    /** Entries that were overwritten: the pointer was recorded again without having been freed. */
    ghost var lost: seq<AllocValue>

    ghost predicate TableFits()
      reads this`rows, table
    {
      table.Length == |rows| && forall i :: 0 <= i < |rows| ==> Chain(table[i]) == rows[i]
    }

    ghost predicate CountsFit()
      reads this`numBuckets, this`buckets, this`counts, buckets
    {
      numBuckets == |buckets| && counts.Keys == buckets && forall b :: b in buckets ==> b.n == counts[b]
    }

    /** Chains hold all buckets once each, with different stacks, and the counters are as recorded. */
    ghost predicate Shape()
      reads this`rows, this`numBuckets, this`buckets, this`counts, table, buckets
    {
      TableFits() && Tabled(rows, buckets) && CountsFit()
    }

    ghost predicate Valid()
      reads this, table, buckets
    {
      Shape() && Accounts(total, counts, allocation, lost)
    }

    constructor (size: nat)
      requires size > 0
      ensures Valid() && fresh(table) && buckets == {} && allocation == map[] && lost == [] && numBuckets == 0
      ensures total == ZERO
    {
      hide Sum, Live, Lost, LiveIn, Hash, Tabled;
      table := new Bucket?[size](_ => null);
      numBuckets, total, profile, allocation := 0, ZERO, ZERO, map[];
      buckets, counts, lost := {}, map[], [];
      rows := seq(size, _ => []);
      new;
      NothingYet(counts, allocation, lost);
      NoRows(rows);
    }

    /** The chain of a stack is searched; null if no bucket has it. */
    method FindBucket(h: nat, stack: seq<nat>) returns (b: Bucket?)
      requires Shape() && h == Hash(stack)
      ensures b != null ==> b in buckets && b.stack == stack
      ensures b == null ==> forall c :: c in buckets ==> c.stack != stack
    {
      hide Hash;
      var i := h % table.Length;
      assert RowFits(rows, buckets, i);
      b := table[i];
      while b != null
        invariant b != null ==> b in buckets
        invariant forall x :: x in rows[i] ==> x in Chain(b) || x.stack != stack
        decreases |Chain(b)|
      {
        assert InTable(rows, buckets, b);
        if b.hash == h && b.stack == stack {
          return;
        }
        b := b.next;
      }
      forall c | c in buckets ensures c.stack != stack { assert InTable(rows, buckets, c); }
    }

    /** GetBucket: the one bucket for a stack, made if there is none. */
    method GetBucket(stack: seq<nat>) returns (b: Bucket)
      requires Shape()
      modifies this`numBuckets, this`buckets, this`rows, this`counts, table
      ensures Shape() && b in buckets && b.stack == stack
      ensures if exists c :: c in old(buckets) && c.stack == stack then buckets == old(buckets) && counts == old(counts)
              else fresh(b) && buckets == old(buckets) + {b} && counts == old(counts)[b := ZERO]
    {
      hide Hash, Shape;
      var h := Hash(stack);
      var found := FindBucket(h, stack);
      if found != null {
        return found;
      }
      b := AddBucket(h, stack);
    }

    lemma RowIs(i: nat)
      requires TableFits() && i < |rows|
      ensures table.Length == |rows| && Chain(table[i]) == rows[i]
    {
    }

    /** A new bucket goes to the head of its chain. */
    method Link(b: Bucket, i: nat)
      requires TableFits() && i < table.Length && b.below == rows[i]
      modifies this`rows, table
      ensures TableFits() && rows == old(rows)[i := [b] + old(rows)[i]]
    {
      table[i] := b;
      rows := rows[i := [b] + rows[i]];
    }

    method AddBucket(h: nat, stack: seq<nat>) returns (b: Bucket)
      requires Shape() && h == Hash(stack) && forall c :: c in buckets ==> c.stack != stack
      modifies this`numBuckets, this`buckets, this`rows, this`counts, table
      ensures Shape() && fresh(b) && b.stack == stack && buckets == old(buckets) + {b}
      ensures counts == old(counts)[b := ZERO]
    {
      hide Hash, Tabled, TableFits, CountsFit;
      HasRows(rows, buckets);
      RowIs(h % |rows|);
      var i := h % table.Length;
      b := new Bucket(h, stack, table[i]);
      TabledMore(rows, buckets, b);
      Link(b, i);
      Join(b);
    }

    method Join(b: Bucket)
      requires CountsFit() && b !in buckets && b.n == ZERO
      modifies this`numBuckets, this`buckets, this`counts
      ensures CountsFit() && buckets == old(buckets) + {b} && counts == old(counts)[b := ZERO]
    {
      numBuckets := numBuckets + 1;
      buckets := buckets + {b};
      counts := counts[b := ZERO];
      assert counts.Keys == old(counts).Keys + {b};
    }

    /** A bucket that no allocation belongs to yet keeps the accounts. */
    method UseBucket(stack: seq<nat>) returns (b: Bucket)
      requires Valid()
      modifies this`numBuckets, this`buckets, this`rows, this`counts, table
      ensures Valid() && b in buckets && b in counts && b.stack == stack && old(buckets) <= buckets
      ensures fresh(buckets - old(buckets)) && old(buckets) == old(counts).Keys
      ensures counts == if b in old(counts) then old(counts) else old(counts)[b := ZERO]
    {
      hide Accounts, Tabled;
      ghost var was := counts;
      b := GetBucket(stack);
      if b !in was { BucketMade(total, was, allocation, lost, b); }
    }

    /** The counters of one bucket change. */
    method Bump(b: Bucket, n: Stats)
      requires Shape() && b in buckets
      modifies this`counts, b
      ensures Shape() && counts == old(counts)[b := n]
    {
      hide Tabled;
      b.n := n;
      counts := counts[b := n];
    }

    lemma CountsOf()
      requires Shape()
      ensures counts.Keys == buckets
    {
    }

    /** The counters of one bucket go up. */
    method Count(b: Bucket, n: Stats)
      requires Shape() && b in counts
      modifies this`counts, b
      ensures Shape() && counts == old(counts)[b := old(counts)[b].Plus(n)]
    {
      hide Tabled, TableFits;
      Bump(b, b.n.Plus(n));
    }

    /** RecordAlloc while profiling is on and dumps are not due. */
    method RecordAlloc(p: nat, bytes: nat, stack: seq<nat>)
      requires Valid()
      modifies this, table, buckets
      ensures Valid() && fresh(buckets - old(buckets))
      ensures p in allocation && allocation[p].bucket.stack == stack
      ensures allocation == old(allocation)[p := AllocValue(allocation[p].bucket, bytes)]
      ensures lost == if p in old(allocation) then old(lost) + [old(allocation)[p]] else old(lost)
      ensures var b := allocation[p].bucket;
              var n := if b in old(counts) then old(counts)[b] else Stats(0, 0, 0, 0);
              counts == old(counts)[b := Stats(n.allocs + 1, n.frees, n.allocSize + bytes, n.freeSize)]
      ensures total == old(total).(allocs := old(total).allocs + 1, allocSize := old(total).allocSize + bytes)
    {
      hide Accounts, Shape;
      var b := UseBucket(stack);
      var s, v := Stats(1, 0, bytes, 0), AllocValue(b, bytes);
      Allocated(total, counts, allocation, lost, p, v);
      Count(b, s);
      total := total.Plus(s);
      lost := LostNow(allocation, lost, p);
      allocation := allocation[p := v];
    }

    /** RecordFree while profiling is on: a pointer that is not tracked is passed over. */
    method RecordFree(p: nat)
      requires Valid()
      modifies this`total, this`counts, this`allocation, buckets
      ensures Valid() && lost == old(lost) && buckets == old(buckets)
      ensures allocation == old(allocation) - {p}
      ensures p !in old(allocation) ==> counts == old(counts) && total == old(total)
      ensures p in old(allocation) ==>
                var b, bytes := old(allocation)[p].bucket, old(allocation)[p].bytes;
                && b in old(counts)
                && counts == old(counts)[b := old(counts)[b].(frees := old(counts)[b].frees + 1,
                                                               freeSize := old(counts)[b].freeSize + bytes)]
                && total == old(total).(frees := old(total).frees + 1, freeSize := old(total).freeSize + bytes)
    {
      hide Accounts, Shape;
      if p in allocation {
        var v := allocation[p];
        CountsOf();
        Freed(total, counts, allocation, lost, p);
        var s := Stats(0, 1, 0, v.bytes);
        Count(v.bucket, s);
        total := total.Plus(s);
        allocation := allocation - {p};
      } else {
        assert allocation - {p} == allocation;
      }
    }

    /**
     AdjustByIgnoredObjects: false where the program aborts because a pointer is not
     tracked. No counter that it lowers goes below zero.
     */
    method Adjust(ignored: set<nat>, adjust: int, ghost c0: map<Bucket, Stats>) returns (ok: bool)
      requires Shape() && c0 == counts && forall p :: p in allocation ==> allocation[p].bucket in buckets
      requires forall b :: b in counts ==>
                counts[b].allocs + (if adjust < 0 then adjust * LiveIn(allocation, b).count else 0) >= 0
      requires forall b :: b in counts ==>
                counts[b].allocSize + (if adjust < 0 then adjust * LiveIn(allocation, b).bytes else 0) >= 0
      modifies this`counts, buckets
      ensures Shape() && (ok <==> ignored <= allocation.Keys)
      ensures ok ==> AdjustedBy(c0, counts, allocation, ignored, adjust)
      ensures ok ==> AllocsMoved(c0, counts, allocation, ignored, adjust)
    {
      hide Tabled, AdjustedBy, AllocsMoved;
      var rest := ignored;
      AdjustedNone(counts, allocation, adjust);
      assert ignored - rest == {};
      while rest != {}
        invariant Shape() && rest <= ignored && ignored - rest <= allocation.Keys
        invariant AdjustedBy(c0, counts, allocation, ignored - rest, adjust)
        decreases rest
      {
        var p :| p in rest;
        if p !in allocation {
          return false;
        }
        var v := allocation[p];
        AdjustedOne(c0, counts, allocation, ignored - rest, adjust, p);
        assert (ignored - rest) + {p} == ignored - (rest - {p});
        ghost var was := v.bucket.n;
        Bump(v.bucket, v.bucket.n.(allocs := v.bucket.n.allocs + adjust,
                                   allocSize := v.bucket.n.allocSize + adjust * v.bytes));
        assert v.bucket.n == was.Adjusted(adjust, LoadOf(v));
        AdjustedStays(c0, counts, allocation, ignored - (rest - {p}), adjust, v.bucket);
        assert v.bucket.n.allocs >= 0 && v.bucket.n.allocSize >= 0;
        rest := rest - {p};
      }
      assert ignored - rest == ignored;
      AllocsMove(c0, counts, allocation, ignored, adjust);
      ok := true;
    }

    /** One chain, in order. */
    method CollectRow(i: nat) returns (list: seq<Bucket>)
      requires Shape() && i < table.Length
      ensures list == rows[i]
    {
      hide Tabled, Once, Hash;
      list := [];
      var x := table[i];
      HeadListed(rows, buckets, i);
      assert rows[i] == [] + Chain(x);
      while x != null
        invariant rows[i] == list + Chain(x)
        invariant x != null ==> x in buckets
        decreases |Chain(x)|
      {
        WellLinked(rows, buckets, x);
        Associate(list, [x], Chain(x.next));
        list := list + [x];
        x := x.next;
      }
    }

    /** The buckets of all chains, in one list: each once, and as many as num_buckets says. */
    method Collect() returns (list: seq<Bucket>)
      requires Shape()
      ensures Once(list) && |list| == numBuckets && forall b :: b in list <==> b in buckets
    {
      hide Tabled, Once, Flat;
      list := [];
      FlatNone(rows[..0]);
      for i := 0 to table.Length
        invariant list == Flat(rows[..i])
      {
        var row := CollectRow(i);
        list := list + row;
        FlatNext(rows, i);
      }
      assert rows[..table.Length] == rows;
      FlatAll(rows, buckets);
      CountOnce(list, buckets);
    }

    /** What UnparseBucket adds up over a list of buckets. */
    method AddUp(list: seq<Bucket>) returns (sum: Stats)
      requires CountsFit() && forall b :: b in list ==> b in counts
      ensures sum == SumList(counts, list)
    {
      sum := ZERO;
      for i := 0 to |list|
        invariant sum == SumList(counts, list[..i])
      {
        assert list[..i + 1][..i] == list[..i];
        sum := sum.Plus(list[i].n);
      }
      assert list[..|list|] == list;
    }

    /**
     The counting part of GetHeapProfile in a leak dump: profile gets the net count of the
     tracked allocations that are not ignored, and every bucket is as it was. False where
     the program aborts.
     */
    method DumpForLeaks(ignored: set<nat>) returns (ok: bool)
      requires Valid()
      modifies this`counts, this`profile, buckets
      ensures ok <==> ignored <= allocation.Keys
      ensures ok ==> Valid() && counts == old(counts)
      ensures ok ==> profile.Net() == Live(allocation).Plus(Lost(lost)).Minus(Live(Only(allocation, ignored)))
      ensures ok ==>
                && profile.frees == total.frees && profile.freeSize == total.freeSize
                && profile.allocs == total.allocs - |ignored|
                && profile.allocSize == total.allocSize - Live(Only(allocation, ignored)).bytes
    {
      hide Tabled, Accounts, AdjustedBy, AllocsMoved, Sum, Live, LiveIn, Lost, Once;
      var list := Collect();
      ghost var c0 := counts;
      AccountsNonneg(total, counts, allocation, lost);
      ok := Adjust(ignored, -1, c0);
      if !ok {
        return;
      }
      ghost var c1 := counts;
      profile := AddUp(list);
      ListSums(counts, list);
      AdjustedNonneg(total, c0, c1, allocation, lost, ignored);
      ok := Adjust(ignored, 1, c1);
      AdjustedBack(c0, c1, counts, allocation, ignored);
      AdjustedTotal(total, c0, c1, allocation, lost, ignored);
    }
  }

  /**
   The same pointer recorded twice, as when a free was not seen: its bucket counts two
   allocations where one is live.
   */
  method RecordedTwice(p: nat, bytes: nat, stack: seq<nat>) returns (profiler: HeapProfile, b: Bucket)
    ensures profiler.Valid() && b in profiler.counts
    ensures profiler.counts[b].Net().count != LiveIn(profiler.allocation, b).count
  {
    hide Accounts, Tabled, LiveIn;
    profiler := new HeapProfile(1);
    profiler.RecordAlloc(p, bytes, stack);
    b := profiler.allocation[p].bucket;
    profiler.RecordAlloc(p, bytes, stack);
    NotNet(profiler, b);
  }

  lemma NotNet(profiler: HeapProfile, b: Bucket)
    requires profiler.Valid() && |profiler.lost| == 1 && profiler.lost[0].bucket == b
    ensures b in profiler.counts && profiler.counts[b].Net().count != LiveIn(profiler.allocation, b).count
  {
    hide Tabled, Sum, Live, LiveIn, Lost, LostIn;
    assert profiler.lost[0] in profiler.lost;
    NetIsLive(profiler.total, profiler.counts, profiler.allocation, profiler.lost, b);
  }

  ghost function Flat(rows: seq<seq<Bucket>>): seq<Bucket> {
    if rows == [] then [] else Flat(rows[..|rows| - 1]) + rows[|rows| - 1]
  }

  lemma FlatNone(rows: seq<seq<Bucket>>)
    requires rows == []
    ensures Flat(rows) == []
  {
  }

  lemma FlatNext(rows: seq<seq<Bucket>>, i: nat)
    requires i < |rows|
    ensures Flat(rows[..i + 1]) == Flat(rows[..i]) + rows[i]
  {
    assert rows[..i + 1][..i] == rows[..i];
  }

  lemma HeadListed(rows: seq<seq<Bucket>>, buckets: set<Bucket>, i: nat)
    requires Tabled(rows, buckets) && i < |rows|
    ensures rows[i] != [] ==> rows[i][0] in buckets
  {
    assert RowFits(rows, buckets, i);
  }

  lemma WellLinked(rows: seq<seq<Bucket>>, buckets: set<Bucket>, b: Bucket)
    requires Tabled(rows, buckets) && b in buckets
    ensures b.below == Chain(b.next) && (b.next != null ==> b.next in buckets)
  {
    assert InTable(rows, buckets, b);
  }

  lemma {:induction false} FlatFirst(rows: seq<seq<Bucket>>, buckets: set<Bucket>, n: nat)
    requires Tabled(rows, buckets) && n <= |rows|
    ensures Once(Flat(rows[..n])) && forall b :: b in Flat(rows[..n]) <==> b in buckets && b.hash % |rows| < n
  {
    if n > 0 {
      var i := n - 1;
      FlatFirst(rows, buckets, i);
      FlatNext(rows, i);
      assert RowFits(rows, buckets, i);
      forall b | b in buckets ensures b in rows[b.hash % |rows|] { assert InTable(rows, buckets, b); }
      OnceJoin(Flat(rows[..i]), rows[i]);
    } else {
      FlatNone(rows[..0]);
    }
  }

  lemma FlatAll(rows: seq<seq<Bucket>>, buckets: set<Bucket>)
    requires Tabled(rows, buckets)
    ensures Once(Flat(rows)) && forall b :: b in Flat(rows) <==> b in buckets
  {
    FlatFirst(rows, buckets, |rows|);
    assert rows[..|rows|] == rows;
  }

  /** In balance, taking the live allocations off leaves no counter below zero. */
  lemma AccountsNonneg(total: Stats, counts: map<Bucket, Stats>, allocation: map<nat, AllocValue>,
                       lost: seq<AllocValue>)
    requires Accounts(total, counts, allocation, lost)
    ensures forall b :: b in counts ==> counts[b].allocs + -1 * LiveIn(allocation, b).count >= 0
    ensures forall b :: b in counts ==> counts[b].allocSize + -1 * LiveIn(allocation, b).bytes >= 0
    ensures forall p :: p in allocation ==> allocation[p].bucket in counts
  {
    forall b | b in counts
      ensures counts[b].allocs - LiveIn(allocation, b).count >= 0
      ensures counts[b].allocSize - LiveIn(allocation, b).bytes >= 0
    {
      assert BucketFits(counts, allocation, lost, b);
      LostNonneg(lost, b);
    }
  }

  lemma AdjustedNonneg(total: Stats, c0: map<Bucket, Stats>, c1: map<Bucket, Stats>, allocation: map<nat, AllocValue>,
                       lost: seq<AllocValue>, s: set<nat>)
    requires Accounts(total, c0, allocation, lost) && AdjustedBy(c0, c1, allocation, s, -1)
    ensures forall b :: b in c1 ==> c1[b].allocs >= 0 && c1[b].allocSize >= 0
  {
    hide Accounts;
    AccountsNonneg(total, c0, allocation, lost);
    forall b | b in c1
      ensures c1[b].allocs >= 0 && c1[b].allocSize >= 0
    {
      AdjustedStays(c0, c1, allocation, s, -1, b);
    }
  }

  /** The allocs_ and alloc_size_ of each bucket have moved by those of its entries among s; its other counters stay. */
  ghost predicate AllocsMoved(c0: map<Bucket, Stats>, c1: map<Bucket, Stats>, m: map<nat, AllocValue>, s: set<nat>,
                              adjust: int) {
    forall b :: b in c0 ==>
      var l := LiveIn(Only(m, s), b);
      && b in c1 && c1[b].frees == c0[b].frees && c1[b].freeSize == c0[b].freeSize
      && c1[b].allocs == c0[b].allocs + adjust * l.count && c1[b].allocSize == c0[b].allocSize + adjust * l.bytes
  }

  lemma AllocsMove(c0: map<Bucket, Stats>, c1: map<Bucket, Stats>, m: map<nat, AllocValue>, s: set<nat>, adjust: int)
    requires AdjustedBy(c0, c1, m, s, adjust)
    ensures AllocsMoved(c0, c1, m, s, adjust)
  {
    hide LiveIn, Sum, Live;
  }

  lemma AdjustedTotal(total: Stats, c0: map<Bucket, Stats>, c1: map<Bucket, Stats>, allocation: map<nat, AllocValue>,
                      lost: seq<AllocValue>, s: set<nat>)
    requires Accounts(total, c0, allocation, lost) && AdjustedBy(c0, c1, allocation, s, -1)
    requires s <= allocation.Keys
    ensures Sum(c1).Net() == Live(allocation).Plus(Lost(lost)).Minus(Live(Only(allocation, s)))
    ensures Sum(c1).frees == total.frees && Sum(c1).freeSize == total.freeSize
    ensures Sum(c1).allocs == total.allocs - |s|
    ensures Sum(c1).allocSize == total.allocSize - Live(Only(allocation, s)).bytes
  {
    hide Sum, Live, LiveIn, Lost;
    LiveCounts(Only(allocation, s));
    assert Only(allocation, s).Keys == s;
  }

  /** A counter that stays nonnegative when all live allocations are taken off stays so for some of them. */
  lemma AdjustedStays(c0: map<Bucket, Stats>, c1: map<Bucket, Stats>, m: map<nat, AllocValue>, s: set<nat>, adjust: int,
                      b: Bucket)
    requires AdjustedBy(c0, c1, m, s, adjust) && b in c0
    requires c0[b].allocs + (if adjust < 0 then adjust * LiveIn(m, b).count else 0) >= 0
    requires c0[b].allocSize + (if adjust < 0 then adjust * LiveIn(m, b).bytes else 0) >= 0
    ensures c1[b].allocs >= 0 && c1[b].allocSize >= 0
  {
    hide LiveIn, Live, Sum, Only;
    var part, all := LiveIn(Only(m, s), b), LiveIn(m, b);
    PartIsLess(m, s, b);
    LiveNonneg(Only(m, s), b);
    if adjust < 0 {
      Scaled(adjust, part.count, all.count);
      Scaled(adjust, part.bytes, all.bytes);
    } else {
      Nonneg(adjust, part.count);
      Nonneg(adjust, part.bytes);
      LiveNonneg(m, b);
    }
  }

  lemma Scaled(k: int, x: int, y: int)
    requires k < 0 && x <= y
    ensures k * x >= k * y
  {
  }

  lemma Nonneg(k: int, x: int)
    requires k >= 0 && x >= 0
    ensures k * x >= 0
  {
  }

  lemma HasRows(rows: seq<seq<Bucket>>, buckets: set<Bucket>)
    requires Tabled(rows, buckets)
    ensures |rows| > 0
  {
  }

  lemma NoRows(rows: seq<seq<Bucket>>)
    requires |rows| > 0 && forall i :: 0 <= i < |rows| ==> rows[i] == []
    ensures Tabled(rows, {})
  {
    forall i | 0 <= i < |rows| ensures RowFits(rows, {}, i) {}
  }

  lemma NothingYet(counts: map<Bucket, Stats>, allocation: map<nat, AllocValue>, lost: seq<AllocValue>)
    requires counts == map[] && allocation == map[] && lost == []
    ensures Sum(counts) == ZERO && ZERO.Net() == Live(allocation).Plus(Lost(lost))
  {
  }

}
