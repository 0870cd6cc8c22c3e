/** Buckets of the heap profiler, and sums over allocations and over buckets. */
module HeapCounts {
  import opened Basics

  datatype Stats = Stats(allocs: int, frees: int, allocSize: int, freeSize: int) {
    function Plus(o: Stats): Stats {
      Stats(allocs + o.allocs, frees + o.frees, allocSize + o.allocSize, freeSize + o.freeSize)
    }

    function Minus(o: Stats): Stats {
      Stats(allocs - o.allocs, frees - o.frees, allocSize - o.allocSize, freeSize - o.freeSize)
    }

    function Net(): Load { Load(allocs - frees, allocSize - freeSize) }

    /** As AdjustByIgnoredObjects changes a bucket. */
    function Adjusted(adjust: int, l: Load): Stats {
      this.(allocs := allocs + adjust * l.count, allocSize := allocSize + adjust * l.bytes)
    }
  }

  const ZERO := Stats(0, 0, 0, 0)

  /** A number of allocations and their bytes. */
  datatype Load = Load(count: int, bytes: int) {
    function Plus(o: Load): Load { Load(count + o.count, bytes + o.bytes) }

    function Minus(o: Load): Load { Load(count - o.count, bytes - o.bytes) }
  }

  /** The allocations made from one stack. hash, stack and next never change. */
  class Bucket {
    const hash: nat
    const stack: seq<nat>
    const next: Bucket?
    /** The rest of the chain. */
    ghost const below: seq<Bucket>
    var n: Stats

    constructor (hash: nat, stack: seq<nat>, next: Bucket?)
      ensures this.hash == hash && this.stack == stack && this.next == next && n == ZERO && below == Chain(next)
    {
      this.hash, this.stack, this.next, this.n := hash, stack, next, ZERO;
      this.below := Chain(next);
    }
  }

  ghost function Chain(b: Bucket?): seq<Bucket> {
    if b == null then [] else [b] + b.below
  }

  datatype AllocValue = AllocValue(bucket: Bucket, bytes: nat)

  ghost function Pick<T>(s: set<T>): (x: T)
    requires s != {}
    ensures x in s
  {
    var x :| x in s; x
  }

  // ---------- allocations ----------

  ghost function LoadOf(v: AllocValue): Load { Load(1, v.bytes) }

  ghost function LoadIn(v: AllocValue, b: Bucket): Load { if v.bucket == b then LoadOf(v) else Load(0, 0) }

  /** The allocations in m that belong to bucket b. */
  ghost function LiveIn(m: map<nat, AllocValue>, b: Bucket): Load {
    if m.Keys == {} then Load(0, 0)
    else var p := Pick<nat>(m.Keys); LoadIn(m[p], b).Plus(LiveIn(m - {p}, b))
  }

  /** All allocations in m. */
  ghost function Live(m: map<nat, AllocValue>): Load {
    if m.Keys == {} then Load(0, 0)
    else var p := Pick<nat>(m.Keys); LoadOf(m[p]).Plus(Live(m - {p}))
  }

  lemma {:induction false} LiveInAdd(m: map<nat, AllocValue>, b: Bucket, p: nat, v: AllocValue)
    requires p !in m
    ensures LiveIn(m[p := v], b) == LiveIn(m, b).Plus(LoadIn(v, b))
  {
    var m' := m[p := v];
    hide LoadIn;
    assert p in m'.Keys;
    var q := Pick<nat>(m'.Keys);
    assert LiveIn(m', b) == LoadIn(m'[q], b).Plus(LiveIn(m' - {q}, b));
    if q == p {
      assert m' - {q} == m - {p} == m;
    } else {
      assert m' - {q} == (m - {q})[p := v];
      LiveInAdd(m - {q}, b, p, v);
      LiveInAdd(m - {q}, b, q, m[q]);
      assert (m - {q})[q := m[q]] == m;
    }
  }

  lemma {:induction false} LiveAdd(m: map<nat, AllocValue>, p: nat, v: AllocValue)
    requires p !in m
    ensures Live(m[p := v]) == Live(m).Plus(LoadOf(v))
  {
    var m' := m[p := v];
    assert p in m'.Keys;
    var q := Pick<nat>(m'.Keys);
    assert Live(m') == LoadOf(m'[q]).Plus(Live(m' - {q}));
    if q == p {
      assert m' - {q} == m - {p} == m;
    } else {
      assert m' - {q} == (m - {q})[p := v];
      LiveAdd(m - {q}, p, v);
      LiveAdd(m - {q}, q, m[q]);
      assert (m - {q})[q := m[q]] == m;
    }
  }

  /** Taking p out takes its load out. */
  lemma LiveRemove(m: map<nat, AllocValue>, b: Bucket, p: nat)
    requires p in m
    ensures LiveIn(m - {p}, b) == LiveIn(m, b).Minus(LoadIn(m[p], b))
    ensures Live(m - {p}) == Live(m).Minus(LoadOf(m[p]))
  {
    hide LiveIn, Live;
    LiveInAdd(m - {p}, b, p, m[p]);
    LiveAdd(m - {p}, p, m[p]);
    assert (m - {p})[p := m[p]] == m;
  }

  lemma {:induction false} LiveCounts(m: map<nat, AllocValue>)
    ensures Live(m).count == |m|
    decreases |m|
  {
    if m.Keys != {} {
      var p := Pick<nat>(m.Keys);
      assert |m - {p}| == |m| - 1;
      LiveCounts(m - {p});
    }
  }

  /** The entries of m for the pointers s. */
  ghost function Only(m: map<nat, AllocValue>, s: set<nat>): map<nat, AllocValue> {
    map p | p in m && p in s :: m[p]
  }

  lemma OnlyAdd(m: map<nat, AllocValue>, s: set<nat>, p: nat)
    requires p in m && p !in s
    ensures Only(m, s + {p}) == Only(m, s)[p := m[p]] && p !in Only(m, s)
  {
  }

  lemma {:induction false} LiveNonneg(m: map<nat, AllocValue>, b: Bucket)
    ensures LiveIn(m, b).count >= 0 && LiveIn(m, b).bytes >= 0
  {
    if m.Keys != {} {
      var p := Pick<nat>(m.Keys);
      LiveNonneg(m - {p}, b);
    }
  }

  /** Part of the allocations weighs no more than all of them. */
  lemma {:induction false} PartIsLess(m: map<nat, AllocValue>, s: set<nat>, b: Bucket)
    ensures LiveIn(Only(m, s), b).count <= LiveIn(m, b).count && LiveIn(Only(m, s), b).bytes <= LiveIn(m, b).bytes
    decreases |m|
  {
    hide LiveIn, Live;
    if p :| p in m && p !in s {
      assert |m - {p}| == |m| - 1;
      PartIsLess(m - {p}, s, b);
      LiveRemove(m, b, p);
      assert Only(m - {p}, s) == Only(m, s);
    } else {
      assert Only(m, s) == m;
    }
  }

  // ---------- entries that were overwritten ----------

  ghost function LostIn(lost: seq<AllocValue>, b: Bucket): Load {
    if lost == [] then Load(0, 0) else LostIn(lost[..|lost| - 1], b).Plus(LoadIn(lost[|lost| - 1], b))
  }

  ghost function Lost(lost: seq<AllocValue>): Load {
    if lost == [] then Load(0, 0) else Lost(lost[..|lost| - 1]).Plus(LoadOf(lost[|lost| - 1]))
  }

  lemma LostAdd(lost: seq<AllocValue>, v: AllocValue, b: Bucket)
    ensures LostIn(lost + [v], b) == LostIn(lost, b).Plus(LoadIn(v, b))
    ensures Lost(lost + [v]) == Lost(lost).Plus(LoadOf(v))
  {
    assert (lost + [v])[..|lost|] == lost;
  }

  lemma {:induction false} LostNonneg(lost: seq<AllocValue>, b: Bucket)
    ensures LostIn(lost, b).count >= 0 && LostIn(lost, b).bytes >= 0
    ensures LostIn(lost, b).count == 0 <==> forall v :: v in lost ==> v.bucket != b
  {
    if lost != [] {
      var rest, v := lost[..|lost| - 1], lost[|lost| - 1];
      LostNonneg(rest, b);
      LastIn(lost);
    }
  }

  // ---------- buckets ----------

  ghost function Sum(counts: map<Bucket, Stats>): Stats {
    if counts.Keys == {} then ZERO
    else var b := Pick(counts.Keys); counts[b].Plus(Sum(counts - {b}))
  }

  lemma {:induction false} SumAdd(counts: map<Bucket, Stats>, b: Bucket, n: Stats)
    requires b !in counts
    ensures Sum(counts[b := n]) == Sum(counts).Plus(n)
  {
    var c' := counts[b := n];
    assert b in c'.Keys;
    var d := Pick(c'.Keys);
    if d == b {
      assert c' - {d} == counts;
    } else {
      assert c' - {d} == (counts - {d})[b := n];
      SumAdd(counts - {d}, b, n);
      SumAdd(counts - {d}, d, counts[d]);
      assert (counts - {d})[d := counts[d]] == counts;
    }
  }

  lemma SumUpdate(counts: map<Bucket, Stats>, b: Bucket, n: Stats)
    requires b in counts
    ensures Sum(counts[b := n]) == Sum(counts).Minus(counts[b]).Plus(n)
  {
    SumAdd(counts - {b}, b, n);
    SumAdd(counts - {b}, b, counts[b]);
    assert (counts - {b})[b := n] == counts[b := n];
    assert (counts - {b})[b := counts[b]] == counts;
  }

  /** The counters of the buckets in a list, added up. */
  ghost function SumList(counts: map<Bucket, Stats>, list: seq<Bucket>): Stats
    requires forall b :: b in list ==> b in counts
  {
    if list == [] then ZERO else SumList(counts, list[..|list| - 1]).Plus(counts[list[|list| - 1]])
  }

  /** A list with every bucket once adds up to the sum over the buckets. */
  lemma {:induction false} ListSums(counts: map<Bucket, Stats>, list: seq<Bucket>)
    requires Once(list) && forall b :: b in list <==> b in counts
    ensures SumList(counts, list) == Sum(counts)
    ensures |list| == |counts.Keys|
    decreases |list|
  {
    hide Sum, Once;
    if list == [] {
      assert counts.Keys == {};
      assert Sum(counts) == ZERO by { SumNone(counts); }
    } else {
      var rest, b := list[..|list| - 1], list[|list| - 1];
      LastOnce(list);
      ListSums(counts - {b}, rest);
      SumAdd(counts - {b}, b, counts[b]);
      assert (counts - {b})[b := counts[b]] == counts;
      assert counts.Keys == (counts - {b}).Keys + {b};
      SumListFrame(counts - {b}, counts, rest);
    }
  }

  lemma SumNone(counts: map<Bucket, Stats>)
    requires counts.Keys == {}
    ensures Sum(counts) == ZERO
  {
  }

  lemma {:induction false} SumListFrame(counts: map<Bucket, Stats>, counts': map<Bucket, Stats>, list: seq<Bucket>)
    requires forall b :: b in list ==> b in counts && b in counts' && counts[b] == counts'[b]
    ensures SumList(counts, list) == SumList(counts', list)
  {
    if list != [] { SumListFrame(counts, counts', list[..|list| - 1]); }
  }

  // ---------- the accounts ----------

  ghost predicate BucketFits(counts: map<Bucket, Stats>, allocation: map<nat, AllocValue>, lost: seq<AllocValue>,
                             b: Bucket)
    requires b in counts
  {
    && counts[b].allocs - counts[b].frees == LiveIn(allocation, b).count + LostIn(lost, b).count
    && counts[b].allocSize - counts[b].freeSize == LiveIn(allocation, b).bytes + LostIn(lost, b).bytes
    && counts[b].frees >= 0 && counts[b].freeSize >= 0
  }

  /**
   The net count of each bucket is that of its live allocations and of the entries that
   were overwritten; the total is the sum over the buckets.
   */
  ghost predicate Accounts(total: Stats, counts: map<Bucket, Stats>, allocation: map<nat, AllocValue>,
                           lost: seq<AllocValue>) {
    && total == Sum(counts) && total.Net() == Live(allocation).Plus(Lost(lost))
    && (forall p :: p in allocation ==> allocation[p].bucket in counts)
    && (forall v :: v in lost ==> v.bucket in counts)
    && (forall b :: b in counts ==> BucketFits(counts, allocation, lost, b))
  }

  lemma Nought(n: Stats)
    ensures n.Plus(ZERO) == n && ZERO.allocs == ZERO.allocSize == ZERO.frees == ZERO.freeSize == 0
  {
  }

  lemma LiveInUnfolds(m: map<nat, AllocValue>, b: Bucket)
    ensures m.Keys == {} ==> LiveIn(m, b) == Load(0, 0)
    ensures m.Keys != {} ==> var p := Pick<nat>(m.Keys); LiveIn(m, b) == LoadIn(m[p], b).Plus(LiveIn(m - {p}, b))
  {
  }

  lemma {:induction false} LiveInNone(m: map<nat, AllocValue>, b: Bucket)
    requires forall p :: p in m ==> m[p].bucket != b
    ensures LiveIn(m, b).count == 0 && LiveIn(m, b).bytes == 0
  {
    hide LiveIn;
    LiveInUnfolds(m, b);
    if m.Keys != {} {
      var p := Pick<nat>(m.Keys);
      LiveInNone(m - {p}, b);
    }
  }

  lemma {:induction false} LostInNone(lost: seq<AllocValue>, b: Bucket)
    requires forall v :: v in lost ==> v.bucket != b
    ensures LostIn(lost, b).count == 0 && LostIn(lost, b).bytes == 0
  {
    if lost != [] { LostInNone(lost[..|lost| - 1], b); }
  }

  lemma BucketMade(total: Stats, counts: map<Bucket, Stats>, allocation: map<nat, AllocValue>, lost: seq<AllocValue>,
                   b: Bucket)
    requires Accounts(total, counts, allocation, lost) && b !in counts
    ensures Accounts(total, counts[b := ZERO], allocation, lost)
  {
    hide Sum, Live, LiveIn, Lost, LostIn;
    SumAdd(counts, b, ZERO);
    LiveInNone(allocation, b);
    LostInNone(lost, b);
    Nought(Sum(counts));
    var counts' := counts[b := ZERO];
    assert BucketFits(counts', allocation, lost, b);
    forall c | c in counts ensures BucketFits(counts', allocation, lost, c) {
      assert BucketFits(counts, allocation, lost, c);
      assert counts'[c] == counts[c];
    }
  }

  ghost function LostNow(allocation: map<nat, AllocValue>, lost: seq<AllocValue>, p: nat): seq<AllocValue> {
    if p in allocation then lost + [allocation[p]] else lost
  }

  /** What p's old entry weighed is lost, and the new one is live. */
  lemma LiveAndLost(allocation: map<nat, AllocValue>, lost: seq<AllocValue>, p: nat, v: AllocValue, b: Bucket)
    ensures LiveIn(allocation[p := v], b).Plus(LostIn(LostNow(allocation, lost, p), b))
         == LiveIn(allocation, b).Plus(LostIn(lost, b)).Plus(LoadIn(v, b))
    ensures Live(allocation[p := v]).Plus(Lost(LostNow(allocation, lost, p)))
         == Live(allocation).Plus(Lost(lost)).Plus(LoadOf(v))
  {
    hide Live, LiveIn, Lost, LostIn;
    if p in allocation {
      LiveRemove(allocation, b, p);
      LiveInAdd(allocation - {p}, b, p, v);
      LiveAdd(allocation - {p}, p, v);
      assert (allocation - {p})[p := v] == allocation[p := v];
      LostAdd(lost, allocation[p], b);
    } else {
      LiveInAdd(allocation, b, p, v);
      LiveAdd(allocation, p, v);
    }
  }

  lemma Allocated(total: Stats, counts: map<Bucket, Stats>, allocation: map<nat, AllocValue>, lost: seq<AllocValue>,
                  p: nat, v: AllocValue)
    requires Accounts(total, counts, allocation, lost) && v.bucket in counts
    ensures var s := Stats(1, 0, v.bytes, 0);
            Accounts(total.Plus(s), counts[v.bucket := counts[v.bucket].Plus(s)], allocation[p := v],
                     LostNow(allocation, lost, p))
  {
    hide Sum, Live, LiveIn, Lost, LostIn;
    var s := Stats(1, 0, v.bytes, 0);
    var counts' := counts[v.bucket := counts[v.bucket].Plus(s)];
    SumUpdate(counts, v.bucket, counts[v.bucket].Plus(s));
    LiveAndLost(allocation, lost, p, v, v.bucket);
    forall b | b in counts' ensures BucketFits(counts', allocation[p := v], LostNow(allocation, lost, p), b) {
      assert BucketFits(counts, allocation, lost, b);
      LiveAndLost(allocation, lost, p, v, b);
    }
  }

  lemma Freed(total: Stats, counts: map<Bucket, Stats>, allocation: map<nat, AllocValue>, lost: seq<AllocValue>, p: nat)
    requires Accounts(total, counts, allocation, lost) && p in allocation
    ensures allocation[p].bucket in counts
    ensures var v := allocation[p];
            var s := Stats(0, 1, 0, v.bytes);
            Accounts(total.Plus(s), counts[v.bucket := counts[v.bucket].Plus(s)], allocation - {p}, lost)
  {
    hide Sum, Live, LiveIn, Lost, LostIn;
    var v := allocation[p];
    var s := Stats(0, 1, 0, v.bytes);
    var counts' := counts[v.bucket := counts[v.bucket].Plus(s)];
    SumUpdate(counts, v.bucket, counts[v.bucket].Plus(s));
    LiveRemove(allocation, v.bucket, p);
    forall b | b in counts' ensures BucketFits(counts', allocation - {p}, lost, b) {
      assert BucketFits(counts, allocation, lost, b);
      LiveRemove(allocation, b, p);
    }
  }

  /**
   The net count of a bucket is the number of its live allocations exactly if no pointer of
   it was ever recorded again before it was freed.
   */
  lemma NetIsLive(total: Stats, counts: map<Bucket, Stats>, allocation: map<nat, AllocValue>, lost: seq<AllocValue>,
                  b: Bucket)
    requires Accounts(total, counts, allocation, lost) && b in counts
    ensures counts[b].Net().count == LiveIn(allocation, b).count <==> forall v :: v in lost ==> v.bucket != b
    ensures (forall v :: v in lost ==> v.bucket != b) ==> counts[b].Net() == LiveIn(allocation, b)
  {
    hide Sum, Live, LiveIn, Lost, LostIn;
    assert BucketFits(counts, allocation, lost, b);
    LostNonneg(lost, b);
    if forall v :: v in lost ==> v.bucket != b { LostInNone(lost, b); }
  }

  // ---------- adjusting by ignored objects ----------

  /** Every bucket changed by `adjust` for each of its entries among the pointers s. */
  ghost predicate AdjustedBy(counts: map<Bucket, Stats>, counts': map<Bucket, Stats>, m: map<nat, AllocValue>,
                             s: set<nat>, adjust: int) {
    && counts'.Keys == counts.Keys
    && (forall b :: b in counts ==> counts'[b] == counts[b].Adjusted(adjust, LiveIn(Only(m, s), b)))
    && Sum(counts') == Sum(counts).Adjusted(adjust, Live(Only(m, s)))
  }

  lemma AdjustedNone(counts: map<Bucket, Stats>, m: map<nat, AllocValue>, adjust: int)
    ensures AdjustedBy(counts, counts, m, {}, adjust)
  {
    hide Sum;
    assert Only(m, {}).Keys == {};
  }

  lemma AdjustedOne(counts: map<Bucket, Stats>, counts': map<Bucket, Stats>, m: map<nat, AllocValue>, s: set<nat>,
                    adjust: int, p: nat)
    requires AdjustedBy(counts, counts', m, s, adjust) && p in m && p !in s && m[p].bucket in counts
    ensures var b := m[p].bucket;
            AdjustedBy(counts, counts'[b := counts'[b].Adjusted(adjust, LoadOf(m[p]))], m, s + {p}, adjust)
  {
    hide Sum, LiveIn, Live, Only;
    OnlyAdd(m, s, p);
    LiveAdd(Only(m, s), p, m[p]);
    var b := m[p].bucket;
    SumUpdate(counts', b, counts'[b].Adjusted(adjust, LoadOf(m[p])));
    forall c | c in counts { LiveInAdd(Only(m, s), c, p, m[p]); }
    Spread(adjust, Live(Only(m, s)), LoadOf(m[p]));
    forall c | c in counts { Spread(adjust, LiveIn(Only(m, s), c), LoadOf(m[p])); }
  }

  lemma Spread(k: int, a: Load, b: Load)
    ensures k * a.Plus(b).count == k * a.count + k * b.count && k * a.Plus(b).bytes == k * a.bytes + k * b.bytes
  {
  }

  /** Adjusting down and then up restores every bucket. */
  lemma AdjustedBack(c0: map<Bucket, Stats>, c1: map<Bucket, Stats>, c2: map<Bucket, Stats>, m: map<nat, AllocValue>,
                     s: set<nat>)
    requires AdjustedBy(c0, c1, m, s, -1) && AdjustedBy(c1, c2, m, s, 1)
    ensures c2 == c0
  {
    hide Sum, LiveIn, Live, Only;
  }
}
