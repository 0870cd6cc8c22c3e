/** The table of the CPU profiler: a small cache of counts in front of a buffered stream. */
module CpuProfile {
  import opened Basics
  import opened Arith
  import opened CpuStream
  import opened StackHash

  const MAX_DEPTH := 64
  const ASSOCIATIVITY := 4

  /** A file: every write takes at least one byte, or fails. */
  class File {
    var bytes: seq<Byte>
    /** A write has failed. */
    ghost var failed: bool

    constructor ()
      ensures bytes == [] && !failed
    {
      bytes, failed := [], false;
    }

    method Write(buf: seq<Byte>) returns (r: int)
      requires buf != []
      modifies this
      ensures r <= |buf| && r != 0
      ensures bytes == if r < 0 then old(bytes) else old(bytes) + buf[..r]
      ensures failed == (old(failed) || r < 0)
    {
      r :| r <= |buf| && r != 0 && -1 <= r;
      failed := failed || r < 0;
      if r > 0 { bytes := bytes + buf[..r]; }
    }
  }

  ghost predicate Fits(stack: seq<nat>) {
    0 < |stack| <= MAX_DEPTH && Fit(stack)
  }

  /** What has been counted: for each stack the samples so far. */
  type Histogram = map<seq<nat>, nat>

  function At(h: Histogram, s: seq<nat>): nat { if s in h then h[s] else 0 }

  /** Writes all of buf, in as many writes as it takes. */
  method WriteAll(out: File, buf: seq<Byte>) returns (ok: bool)
    modifies out
    ensures ok ==> out.bytes == old(out.bytes) + buf && out.failed == old(out.failed)
    ensures !ok ==> out.failed
  {
    var sent := 0;
    assert buf[..0] == [];
    while sent < |buf|
      invariant 0 <= sent <= |buf| && out.bytes == old(out.bytes) + buf[..sent] && out.failed == old(out.failed)
    {
      var r := out.Write(buf[sent..]);
      if r < 0 {
        return false;
      }
      assert buf[..sent] + buf[sent..][..r] == buf[..sent + r];
      sent := sent + r;
    }
    assert buf[..sent] == buf;
    ok := true;
  }

  /** Entry i is one of bucket b. */
  ghost predicate InBucketOf(i: int, b: nat) { b * 4 <= i < (b + 1) * 4 }

  /**
   Of the table only entry i of bucket b changed: it counts one sample more of the stack,
   or, when no entry of the bucket has the stack, it had the fewest samples, became a record
   if it had any, and starts anew.
   */
  ghost predicate Touched(tab: seq<Record>, tab': seq<Record>, rs: seq<Record>, rs': seq<Record>, b: nat,
                          stack: seq<nat>, i: int) {
    && 0 <= i < |tab| && InBucketOf(i, b)
    && if tab[i].stack == stack then tab' == tab[i := Record(tab[i].count + 1, stack)] && rs' == rs
       else && tab' == tab[i := Record(1, stack)] && rs' == (if tab[i].count > 0 then rs + [tab[i]] else rs)
            && forall j :: InBucketOf(j, b) && 0 <= j < |tab| ==> tab[j].stack != stack && tab[i].count <= tab[j].count
  }

  lemma TouchedHit(tab: seq<Record>, rs: seq<Record>, b: nat, stack: seq<nat>, i: nat)
    requires i < |tab| && InBucketOf(i, b) && tab[i].stack == stack
    ensures Touched(tab, tab[i := Record(tab[i].count + 1, stack)], rs, rs, b, stack, i)
  {
  }

  lemma TouchedNew(tab: seq<Record>, rs: seq<Record>, b: nat, stack: seq<nat>, i: nat)
    requires i < |tab| && InBucketOf(i, b)
    requires forall j :: InBucketOf(j, b) && 0 <= j < |tab| ==> tab[j].stack != stack && tab[i].count <= tab[j].count
    ensures Touched(tab, tab[i := Record(1, stack)], rs, if tab[i].count > 0 then rs + [tab[i]] else rs, b, stack, i)
  {
  }

  class ProfileData {
    /** An entry is a record; entry a of bucket b is number b * ASSOCIATIVITY + a. */
    const buckets: nat
    const length: nat
    var hash: array<Record>
    var evict: array<nat>
    var numEvicted: nat
    var out: File?
    var count: int
    var evictions: int
    var totalBytes: int
    /** The words that reached the file, and the records made of evicted entries. */
    ghost var written: seq<nat>
    ghost var records: seq<Record>
    ghost var period: nat
    /** The calls of Add since Start. */
    ghost var adds: Histogram

    /** The stream so far is the header and the records: part in the file, the rest in the buffer. */
    ghost predicate Buffered()
      reads this`evict, this`numEvicted, this`totalBytes, this`out, this`written, this`records, this`period, evict, out
    {
      && out != null && !out.failed && numEvicted <= evict.Length == length && MAX_DEPTH + 2 <= length
      && out.bytes == Bytes(written) && totalBytes == 4 * |written|
      && written + evict[..numEvicted] == Header(period) + EncodeAll(records)
      && (forall r :: r in records ==> r.count > 0 && Fits(r.stack))
    }

    ghost predicate Shape()
      reads this, hash, evict, out
    {
      && Buffered() && buckets > 0 && hash.Length == buckets * ASSOCIATIVITY
      && forall i :: 0 <= i < hash.Length ==> hash[i].count > 0 ==> Fits(hash[i].stack)
    }

    /** For every stack: the counts in the table and in the records are all its samples. */
    ghost predicate Counted()
      reads this, hash
    {
      forall s {:trigger At(adds, s)} :: Count(hash[..], s) + Count(records, s) == At(adds, s)
    }

    ghost predicate Valid()
      reads this, hash, evict, out
    {
      Shape() && Counted()
    }

    constructor (buckets: nat, length: nat)
      requires buckets > 0 && length >= MAX_DEPTH + 2
      ensures out == null && this.buckets == buckets && this.length == length
    {
      this.buckets, this.length := buckets, length;
      hash, evict := new Record[0], new nat[0];
      numEvicted, out, count, evictions, totalBytes := 0, null, 0, 0, 0;
      written, records, period, adds := [], [], 0, map[];
    }

    /** Start; `f` is the opened file, null if it cannot be opened. */
    method Start(f: File?, frequency: nat) returns (started: bool)
      requires frequency > 0 && buckets > 0 && length >= MAX_DEPTH + 2
      requires f != null ==> f.bytes == [] && !f.failed
      modifies this
      ensures started == (old(out) == null && f != null)
      ensures started ==> numEvicted <= evict.Length && evict[..numEvicted] == [0, 3, 0, 1000000 / frequency, 0]
      ensures started ==> count == 0 && evictions == 0
      ensures started ==>
                && Valid() && out == f && adds == map[] && records == [] && period == 1000000 / frequency
                && fresh(hash) && fresh(evict)
      ensures !started ==> unchanged(this)
    {
      if out != null || f == null {
        return false;
      }
      Open(f, 1000000 / frequency);
      started := true;
    }

    /** A new table, in which nothing is counted. */
    method NewTable()
      modifies this`hash
      ensures fresh(hash) && hash.Length == buckets * ASSOCIATIVITY
      ensures (forall i :: 0 <= i < hash.Length ==> hash[i].count == 0) && forall s :: Count(hash[..], s) == 0
    {
      hide Count;
      ProductNonneg(buckets, ASSOCIATIVITY);
      hash := new Record[buckets * ASSOCIATIVITY](_ => Record(0, []));
      forall s ensures Count(hash[..], s) == 0 { CountZero(hash[..], s); }
    }

    /** A new buffer that starts with the header; nothing has reached the file. */
    method NewBuffer(f: File, header: seq<nat>, period: nat)
      requires length >= MAX_DEPTH + 2 && |header| <= length && f.bytes == Bytes([]) && !f.failed
      requires [] + header == Header(period) + EncodeAll([])
      modifies this`evict, this`numEvicted, this`totalBytes, this`out, this`written, this`records, this`period
      ensures Buffered() && out == f && records == [] && this.period == period && fresh(evict)
      ensures numEvicted <= evict.Length && evict[..numEvicted] == header
    {
      hide EncodeAll, Header, Bytes, Fits;
      evict := new nat[length](i => if 0 <= i < |header| then header[i] else 0);
      numEvicted, totalBytes, out, written, records := |header|, 0, f, [], [];
      this.period := period;
      assert evict[..|header|] == header;
    }

    /** A new table, and a new buffer with the header in it. */
    method Open(f: File, period: nat)
      requires buckets > 0 && length >= MAX_DEPTH + 2 && f.bytes == [] && !f.failed
      modifies this
      ensures Valid() && out == f && adds == map[] && records == [] && this.period == period && fresh(hash)
      ensures fresh(evict) && numEvicted <= evict.Length && evict[..numEvicted] == [0, 3, 0, period, 0]
      ensures count == 0 && evictions == 0
    {
      hide Hash, EncodeAll, Header, Bytes, Count, Fits, Buffered;
      NewTable();
      var header := [0, 3, 0, period, 0];
      StreamStarts(header, period);
      NewBuffer(f, header, period);
      count, evictions, adds := 0, 0, map[];
    }

    /** FlushEvicted: the buffer goes to the file; false where the program exits. */
    method FlushEvicted() returns (ok: bool)
      requires Buffered()
      modifies this`numEvicted, this`totalBytes, this`written, out
      ensures ok ==> Buffered() && numEvicted == 0 && written == Header(period) + EncodeAll(records)
      ensures !ok ==> old(out) != null && old(out).failed
    {
      hide Bytes;
      ok := true;
      if numEvicted > 0 {
        var buf := Bytes(evict[..numEvicted]);
        totalBytes := totalBytes + |buf|;
        ok := WriteAll(out, buf);
        BytesJoin(written, evict[..numEvicted]);
        written := written + evict[..numEvicted];
      } else {
        assert evict[..numEvicted] == [];
        assert written + [] == written;
      }
      numEvicted := 0;
      assert evict[..0] == [];
      assert written + [] == written;
    }

    /** The three assignments that put a record into the buffer. */
    method Write(r: Record)
      requires numEvicted + |r.stack| + 2 <= evict.Length
      modifies this`numEvicted, evict
      ensures numEvicted == old(numEvicted) + |r.stack| + 2
      ensures evict[..numEvicted] == old(evict[..numEvicted]) + Encode(r)
    {
      evict[numEvicted] := r.count;
      evict[numEvicted + 1] := |r.stack|;
      numEvicted := numEvicted + 2;
      forall k | 0 <= k < |r.stack| { evict[numEvicted + k] := r.stack[k]; }
      numEvicted := numEvicted + |r.stack|;
    }

    /** One more record in the buffer. */
    method Append(r: Record)
      requires Buffered() && r.count > 0 && Fits(r.stack) && numEvicted + |r.stack| + 2 <= evict.Length
      modifies this`numEvicted, this`records, evict
      ensures Buffered() && records == old(records) + [r] && numEvicted == old(numEvicted) + |r.stack| + 2
    {
      hide Encode, EncodeAll, Header, Bytes, Fits;
      ghost var before := evict[..numEvicted];
      Write(r);
      Associate(written, before, Encode(r));
      Associate(Header(period), EncodeAll(records), Encode(r));
      EncodeLast(records + [r]);
      assert (records + [r])[..|records|] == records;
      records := records + [r];
    }

    /** Evict: the buffer is flushed first if the record does not fit. */
    method Evict(r: Record) returns (ok: bool)
      requires Buffered() && r.count > 0 && Fits(r.stack)
      modifies this`numEvicted, this`totalBytes, this`written, this`records, evict, out
      ensures ok ==> Buffered() && records == old(records) + [r]
      ensures ok ==> numEvicted == if old(numEvicted) + |r.stack| + 2 > length then |r.stack| + 2
                                   else old(numEvicted) + |r.stack| + 2
      ensures old(numEvicted) + |r.stack| + 2 <= length ==> ok && out.bytes == old(out.bytes)
      ensures !ok ==> out != null && out.failed
    {
      ok := true;
      if numEvicted + |r.stack| + 2 > evict.Length {
        ok := FlushEvicted();
      }
      if ok { Append(r); }
    }

    /** Entry i of the table changes; the records are now rs, and the samples h. */
    lemma CountsFollow(tab: seq<Record>, i: nat, r: Record, rs0: seq<Record>, rs: seq<Record>, h0: Histogram,
                       h: Histogram)
      requires i < |tab| && forall s {:trigger At(h0, s)} :: Count(tab, s) + Count(rs0, s) == At(h0, s)
      requires forall s {:trigger Count(rs, s)} ::
                Count(rs, s) - Count(rs0, s) == (if tab[i].stack == s then tab[i].count else 0)
                 - (if r.stack == s then r.count else 0) + At(h, s) - At(h0, s)
      ensures forall s {:trigger At(h, s)} :: Count(tab[i := r], s) + Count(rs, s) == At(h, s)
    {
      forall s ensures Count(tab[i := r], s) + Count(rs, s) == At(h, s) {
        CountUpdate(tab, i, r, s);
        assert At(h0, s) == Count(tab, s) + Count(rs0, s);
      }
    }

    /** The entry of the bucket that holds this stack, if there is one. */
    method Find(b: nat, stack: seq<nat>) returns (i: nat, found: bool)
      requires Shape() && b < buckets
      ensures found ==> InBucketOf(i, b) && i < hash.Length && hash[i].stack == stack
      ensures !found ==> forall j :: InBucketOf(j, b) && 0 <= j < hash.Length ==> hash[j].stack != stack
    {
      InBucket(b);
      i := 0;
      var a := 0;
      while a < ASSOCIATIVITY
        invariant 0 <= a <= ASSOCIATIVITY
        invariant forall j :: b * ASSOCIATIVITY <= j < b * ASSOCIATIVITY + a ==> hash[j].stack != stack
      {
        i := b * ASSOCIATIVITY + a;
        if hash[i].stack == stack {
          return i, true;
        }
        a := a + 1;
      }
      found := false;
    }

    lemma InBucket(b: nat)
      requires b < buckets && hash.Length == buckets * ASSOCIATIVITY
      ensures (b + 1) * ASSOCIATIVITY <= hash.Length
    {
    }

    /** The entry of the bucket with the fewest samples. */
    method Least(b: nat) returns (e: nat)
      requires Shape() && b < buckets
      ensures e < hash.Length && InBucketOf(e, b)
      ensures forall a :: InBucketOf(a, b) && 0 <= a < hash.Length ==> hash[e].count <= hash[a].count
    {
      InBucket(b);
      e := b * ASSOCIATIVITY;
      for a := 1 to ASSOCIATIVITY
        invariant b * ASSOCIATIVITY <= e < b * ASSOCIATIVITY + a
        invariant forall c :: b * ASSOCIATIVITY <= c < b * ASSOCIATIVITY + a ==> hash[e].count <= hash[c].count
      {
        if hash[b * ASSOCIATIVITY + a].count < hash[e].count {
          e := b * ASSOCIATIVITY + a;
        }
      }
    }

    /** Add of one sample; false where the program exits because a write fails. */
    method Add(pc: nat, callers: seq<nat>) returns (ok: bool, ghost entry: nat)
      requires Valid() && |callers| < MAX_DEPTH && Fit([pc] + callers)
      modifies this, hash, evict, out
      ensures hash == old(hash) && evict == old(evict) && out == old(out) && period == old(period)
      ensures ok ==> Valid() && adds == old(adds)[[pc] + callers := At(old(adds), [pc] + callers) + 1]
      ensures ok ==>
                Touched(old(hash[..]), hash[..], old(records), records, Hash([pc] + callers) % buckets, [pc] + callers,
                        entry)
      ensures ok ==> count == old(count) + 1 && evictions - old(evictions) == |records| - |old(records)|
      ensures !ok ==> out != null && out.failed
    {
      hide Hash, Count, Bytes, EncodeAll, Touched, Buffered;
      var stack := [pc] + callers;
      count := count + 1;
      var b := Hash(stack) % buckets;
      var i, found := Find(b, stack);
      if found {
        TouchedHit(hash[..], records, b, stack, i);
        Hit(i, stack);
        return true, i;
      }
      var e := Least(b);
      TouchedNew(hash[..], records, b, stack, e);
      ok := Replace(e, stack);
      entry := e;
    }

    /** The entry holds the stack already. */
    method Hit(i: nat, stack: seq<nat>)
      requires Valid() && i < hash.Length && hash[i].stack == stack && Fits(stack)
      modifies this`adds, hash
      ensures Valid() && adds == old(adds)[stack := At(old(adds), stack) + 1]
      ensures hash[..] == old(hash[..])[i := Record(old(hash[i].count) + 1, stack)]
    {
      hide Count, Hash;
      ghost var tab, h := hash[..], adds;
      var r := Record(hash[i].count + 1, stack);
      hash[i] := r;
      adds := adds[stack := At(adds, stack) + 1];
      CountsFollow(tab, i, r, records, records, h, adds);
      assert hash[..] == tab[i := r];
    }

    /** The entry goes to the buffer, if it counts anything, and the stack takes its place. */
    method Replace(e: nat, stack: seq<nat>) returns (ok: bool)
      requires Valid() && e < hash.Length && Fits(stack)
      modifies this`adds, this`evictions, this`numEvicted, this`totalBytes, this`written, this`records, hash, evict, out
      ensures ok ==> Valid() && adds == old(adds)[stack := At(old(adds), stack) + 1]
      ensures ok ==> hash[..] == old(hash[..])[e := Record(1, stack)]
      ensures ok ==> records == if old(hash[e].count) > 0 then old(records) + [old(hash[e])] else old(records)
      ensures ok ==> evictions - old(evictions) == |records| - |old(records)|
      ensures !ok ==> out != null && out.failed
    {
      hide Count, Hash, Bytes, EncodeAll;
      ghost var tab, h, rs := hash[..], adds, records;
      var was := hash[e];
      ok := true;
      if was.count > 0 {
        evictions := evictions + 1;
        ok := Evict(was);
        forall s
          ensures Count(rs + [was], s) == Count(rs, s) + if was.stack == s then was.count else 0
        {
          CountMore(rs, was, s);
        }
      }
      if ok {
        hash[e] := Record(1, stack);
        adds := adds[stack := At(adds, stack) + 1];
        CountsFollow(tab, e, Record(1, stack), rs, records, h, adds);
        assert hash[..] == tab[e := Record(1, stack)];
      }
    }

    /** The samples in the table from entry i on, and those in the records, are all samples. */
    ghost predicate Split(i: nat)
      reads this, hash
    {
      i <= hash.Length
      && forall s {:trigger At(adds, s)} :: Count(hash[..], s) - Count(hash[..i], s) + Count(records, s) == At(adds, s)
    }

    /** Entry i of the table goes to the buffer, if it counts anything. */
    method EvictEntry(i: nat) returns (ok: bool)
      requires Shape() && i < hash.Length && Split(i)
      modifies this`numEvicted, this`totalBytes, this`written, this`records, evict, out
      ensures ok ==> Shape() && Split(i + 1)
      ensures !ok ==> out != null && out.failed
    {
      hide Count, Hash, Bytes, EncodeAll;
      ghost var rs := records;
      var r := hash[i];
      assert hash[..i + 1] == hash[..i] + [r];
      forall s
        ensures Count(hash[..i + 1], s) == Count(hash[..i], s) + if r.stack == s then r.count else 0
      {
        CountMore(hash[..i], r, s);
      }
      ok := true;
      if r.count > 0 {
        ok := Evict(r);
        forall s
          ensures Count(rs + [r], s) == Count(rs, s) + if r.stack == s then r.count else 0
        {
          CountMore(rs, r, s);
        }
      }
    }

    /** Clears an entry that went to the buffer. */
    method Clear(i: nat)
      requires Shape() && i < hash.Length && Split(i + 1) && forall k :: 0 <= k < i ==> hash[k].count == 0
      modifies hash
      ensures Shape() && Split(i + 1) && forall k :: 0 <= k <= i ==> hash[k].count == 0
    {
      hide Count, Hash, Bytes, EncodeAll;
      ghost var tab := hash[..];
      hash[i] := Record(0, []);
      assert hash[..] == tab[i := Record(0, [])];
      assert hash[..i + 1] == tab[..i + 1][i := Record(0, [])];
      assert tab[..i + 1] == old(hash[..i + 1]);
      forall s ensures Count(hash[..], s) - Count(hash[..i + 1], s) == Count(tab, s) - Count(tab[..i + 1], s) {
        CountUpdate(tab, i, Record(0, []), s);
        CountUpdate(tab[..i + 1], i, Record(0, []), s);
      }
    }

    /** FlushTable: every sample so far reaches the file, as a record. */
    method FlushTable() returns (ok: bool)
      requires out != null ==> Valid()
      modifies this`numEvicted, this`totalBytes, this`written, this`records, hash, evict, out
      ensures old(out) == null ==> ok && unchanged(this)
      ensures ok && out != null ==> Valid() && forall s {:trigger At(adds, s)} :: Count(records, s) == At(adds, s)
      ensures ok && out != null ==> out.bytes == Bytes(Header(period) + EncodeAll(records)) && numEvicted == 0
      ensures ok && out != null ==> forall i :: 0 <= i < hash.Length ==> hash[i].count == 0
      ensures !ok ==> out != null && out.failed
    {
      if out == null {
        return true;
      }
      hide Count, Hash, Bytes, EncodeAll;
      NoneCounted(hash[..0]);
      for i := 0 to hash.Length
        invariant Shape() && Split(i) && forall k :: 0 <= k < i ==> hash[k].count == 0
      {
        ok := EvictEntry(i);
        if !ok {
          return;
        }
        Clear(i);
      }
      forall s ensures Count(hash[..], s) == 0 { CountZero(hash[..], s); }
      assert hash[..hash.Length] == hash[..];
      ok := FlushEvicted();
    }

    /**
     Stop; `maps` is the text of /proc/self/maps. What a reader of the stream in front of
     it gets is exactly what was added.
     */
    method Stop(maps: seq<Byte>) returns (ok: bool)
      requires out != null ==> Valid()
      modifies this, evict, out
      ensures old(out) == null ==> ok
      ensures ok ==> out == null
      ensures !ok ==> old(out) != null && old(out).failed
      ensures count == old(count) && evictions == old(evictions)
      ensures ok && old(out) != null ==>
                && old(out).bytes == Bytes(Stream(period, records)) + maps
                && totalBytes == |Bytes(Stream(period, records))|
                && adds == old(adds) && period == old(period)
                && (forall s {:trigger At(adds, s)} :: Count(records, s) == At(adds, s))
                && (forall r :: r in records ==> r.count > 0 && Fits(r.stack))
    {
      if out == null {
        return true;
      }
      ok := Finish();
      if ok {
        out.bytes := out.bytes + maps;
        out := null;
      }
    }

    /** Stop, up to the last flush. */
    method Finish() returns (ok: bool)
      requires Valid()
      modifies this`numEvicted, this`totalBytes, this`written, this`records, evict, out
      ensures ok ==> out.bytes == Bytes(Stream(period, records)) && totalBytes == |out.bytes|
      ensures ok ==> (forall s {:trigger At(adds, s)} :: Count(records, s) == At(adds, s))
      ensures ok ==> (forall r :: r in records ==> r.count > 0 && Fits(r.stack))
      ensures !ok ==> out != null && out.failed
    {
      hide Count, Hash, Bytes, EncodeAll;
      NoneCounted(hash[..0]);
      for i := 0 to hash.Length
        invariant Shape() && Split(i)
      {
        ok := EvictEntry(i);
        if !ok {
          return;
        }
      }
      assert hash[..hash.Length] == hash[..];
      ok := true;
      if numEvicted + 3 > length {
        ok := FlushEvicted();
      }
      if ok { ok := Trail(); }
    }

    /** The trailer and the last flush. */
    method Trail() returns (ok: bool)
      requires Buffered() && numEvicted + 3 <= length
      modifies this`numEvicted, this`totalBytes, this`written, evict, out
      ensures ok ==> out.bytes == Bytes(Stream(period, records)) && totalBytes == |out.bytes|
      ensures !ok ==> out != null && out.failed
    {
      hide EncodeAll, Bytes;
      ghost var before := evict[..numEvicted];
      evict[numEvicted], evict[numEvicted + 1], evict[numEvicted + 2] := 0, 1, 0;
      numEvicted := numEvicted + 3;
      var buf := Bytes(evict[..numEvicted]);
      totalBytes := totalBytes + |buf|;
      ok := WriteAll(out, buf);
      assert evict[..numEvicted] == before + TRAILER;
      assert written + (before + TRAILER) == written + before + TRAILER;
      BytesJoin(written, evict[..numEvicted]);
      numEvicted := 0;
    }
  }

  lemma NoneCounted(rs: seq<Record>)
    requires rs == []
    ensures forall s :: Count(rs, s) == 0
  {
  }

  /**
   Unless some stack was sampled 2^32 times, a reader of the file gets the sampling period
   back and, adding up records with the same stack, exactly the samples added; and it finds
   the text that follows the stream.
   */
  lemma ReaderSeesSamples(period: nat, rs: seq<Record>, adds: Histogram, text: seq<Byte>)
    requires period < WIDTH && forall r :: r in rs ==> r.count > 0 && Fits(r.stack)
    requires forall s {:trigger At(adds, s)} :: Count(rs, s) == At(adds, s)
    requires forall s :: s in adds ==> adds[s] < WIDTH
    ensures Decode(Bytes(Stream(period, rs)) + text) == Some((period, rs, text))
  {
    forall i | 0 <= i < |rs| ensures RecordFits(rs[i]) {
      assert rs[i] in rs;
      CountPart(rs, i, rs[i].stack);
      assert At(adds, rs[i].stack) == Count(rs, rs[i].stack);
    }
    StreamRoundTrip(period, rs, text);
  }

  lemma StreamStarts(ws: seq<nat>, period: nat)
    requires ws == [0, 3, 0, period, 0]
    ensures [] + ws == Header(period) + EncodeAll([]) && Bytes([]) == []
    ensures forall s :: Count([], s) == 0
  {
  }

  lemma {:induction false} CountZero(rs: seq<Record>, s: seq<nat>)
    requires forall i :: 0 <= i < |rs| ==> rs[i].count == 0
    ensures Count(rs, s) == 0
  {
    if rs != [] { CountZero(rs[..|rs| - 1], s); }
  }

}
