/** Memory from the operating system, aligned and trimmed. */
module SystemAlloc {
  import opened Basics
  import opened Arith

  /** The break cannot grow by this much at once. */
  const HALF := 0x8000_0000
  const ALIGNER := 8

  predicate Within(a: int, p: int, n: int) { p <= a < p + n }

  ghost function Range(p: int, n: int): iset<int> { iset a | Within(a, p, n) }

  /** ((size + a - 1) / a) * a in 32 bits. */
  function RoundUp(size: nat, a: nat): (r: nat)
    requires a > 0
  {
    var q := (size + a - 1) % WIDTH / a;
    ProductNonneg(q, a);
    q * a
  }

  ghost predicate AlignmentOk(a: nat) {
    PowerOfTwo(a) && 0 < a < WIDTH
  }

  lemma Doubled(x: nat)
    requires PowerOfTwo(x)
    ensures PowerOfTwo(2 * x)
  {
  }

  lemma {:induction false} PowerTimes(a: nat, b: nat)
    requires PowerOfTwo(a) && PowerOfTwo(b)
    ensures PowerOfTwo(a * b)
    decreases a
  {
    if a > 1 {
      var h := a / 2;
      PowerTimes(h, b);
      hide PowerOfTwo;
      Doubled(h * b);
      assert a == 2 * h;
      TwiceProduct(h, b);
    }
  }

  lemma TwiceProduct(h: nat, b: nat)
    ensures 2 * h * b == 2 * (h * b)
  {
  }


  lemma WidthIsPower()
    ensures PowerOfTwo(WIDTH)
  {
    PowerTimes(0x100, 0x100);
    PowerTimes(0x1_0000, 0x1_0000);
  }

  /**
   Unless the sum wraps around, the result is the least multiple that is not below, with
   room to align it; if it does, the result is 0.
   */
  lemma RoundedUp(size: nat, a: nat)
    requires AlignmentOk(a) && size < WIDTH
    ensures RoundUp(size, a) % a == 0
    ensures if size + a - 1 < WIDTH then size <= RoundUp(size, a) < size + a && RoundUp(size, a) <= WIDTH - a
            else RoundUp(size, a) == 0
  {
    hide PowerOfTwo;
    var x := (size + a - 1) % WIDTH;
    var q := x / a;
    MultipleMod(q, a);
    if size + a - 1 < WIDTH {
      WidthIsPower();
      PowerDivides(a, WIDTH);
      ModMultiple(WIDTH, a);
      Euclid(x, a);
      BelowMultiple(q, WIDTH / a, a);
    } else {
      Small(x, a);
    }
  }

  lemma BelowMultiple(q: nat, m: nat, a: nat)
    requires a > 0 && q * a < m * a
    ensures q * a <= m * a - a
  {
    assert q < m;
    assert (q + 1) * a == q * a + a;
    ProductNonneg(m - (q + 1), a);
    assert (m - (q + 1)) * a == m * a - (q + 1) * a;
  }

  ghost predicate Known(regions: seq<(nat, nat)>, a: int) {
    exists i :: 0 <= i < |regions| && Within(a, regions[i].0, regions[i].1)
  }

  /** None of the n bytes from p was ever handed out. */
  ghost predicate Untouched(regions: seq<(nat, nat)>, p: nat, n: nat) {
    forall i :: 0 <= i < |regions| ==> p + n <= regions[i].0 || regions[i].0 + regions[i].1 <= p
  }

  /** A call of mmap or sbrk for n bytes, and whether it was granted. */
  datatype Ask = Map(n: nat, granted: bool) | Break(n: nat, granted: bool)

  /**
   The operating system. Where it would put the memory of each call to come is in `offers`;
   a call fails when there is no offer, or one that no system makes. It never hands out a
   byte twice.
   */
  class Os {
    const pageSize: nat
    var offers: seq<nat>
    /** Everything ever handed out, and the break. */
    var regions: seq<(nat, nat)>
    var brk: nat
    /** What was obtained and not unmapped. */
    ghost var mapped: iset<int>
    /** The calls so far. */
    ghost var asked: seq<Ask>

    ghost predicate Valid()
      reads this
    {
      && pageSize > 0 && AlignmentOk(pageSize)
      && forall a :: a in mapped ==> Known(regions, a)
    }

    constructor (pageSize: nat, offers: seq<nat>)
      requires AlignmentOk(pageSize)
      ensures Valid() && this.pageSize == pageSize && this.offers == offers && regions == [] && brk == 0
      ensures mapped == iset{} && asked == []
    {
      this.pageSize, this.offers := pageSize, offers;
      regions, brk, mapped, asked := [], 0, iset{}, [];
    }

    /** Are the n bytes from p still to be had? */
    method Unused(p: nat, n: nat) returns (r: bool)
      requires Valid()
      ensures r == Untouched(regions, p, n)
      ensures r ==> Range(p, n) !! mapped
    {
      for i := 0 to |regions|
        invariant forall j :: 0 <= j < i ==> p + n <= regions[j].0 || regions[j].0 + regions[j].1 <= p
      {
        if !(p + n <= regions[i].0 || regions[i].0 + regions[i].1 <= p) {
          return false;
        }
      }
      r := true;
      UntouchedApart(p, n);
    }

    lemma UntouchedApart(p: nat, n: nat)
      requires Valid() && Untouched(regions, p, n)
      ensures Range(p, n) !! mapped
    {
    }

    /** The next offer is one that mmap can make for n bytes: whole pages that nobody had. */
    ghost predicate CanMap(n: nat)
      reads this
    {
      offers != [] && n > 0 && offers[0] > 0 && offers[0] % (if pageSize > 0 then pageSize else 1) == 0
      && offers[0] + n <= WIDTH && Untouched(regions, offers[0], n)
    }

    /** The next offer is one that sbrk can make: the break, which others may have moved up. */
    ghost predicate CanBreak(n: nat)
      reads this
    {
      offers != [] && offers[0] > 0 && offers[0] >= brk && offers[0] + n <= WIDTH && Untouched(regions, offers[0], n)
    }

    /** Hands out the n bytes from p. */
    method Take(p: nat, n: nat)
      requires Valid()
      modifies this`regions, this`mapped
      ensures Valid() && mapped == old(mapped) + Range(p, n) && regions == old(regions) + [(p, n)]
    {
      ghost var before := regions;
      regions := regions + [(p, n)];
      mapped := mapped + Range(p, n);
      forall a | a in mapped ensures Known(regions, a) {
        if Within(a, p, n) {
          assert regions[|before|] == (p, n);
        } else {
          assert Known(before, a);
          var i :| 0 <= i < |before| && Within(a, before[i].0, before[i].1);
          assert regions[i] == before[i];
        }
      }
    }

    method NextOffer() returns (p: nat)
      requires Valid()
      modifies this`offers
      ensures Valid()
      ensures if old(offers) == [] then p == 0 && offers == [] else p == old(offers)[0] && offers == old(offers)[1..]
    {
      p := 0;
      if |offers| > 0 {
        p, offers := offers[0], offers[1..];
      }
    }

    /** mmap of n bytes anywhere. */
    method Mmap(n: nat) returns (r: Option<nat>)
      requires Valid()
      modifies this`offers, this`regions, this`mapped, this`asked
      ensures Valid() && (r.Some? <==> old(CanMap(n))) && asked == old(asked) + [Ask.Map(n, r.Some?)]
      ensures match r
        case None => mapped == old(mapped)
        case Some(p) =>
          && n > 0 && p > 0 && p % pageSize == 0 && p + n <= WIDTH
          && Range(p, n) !! old(mapped) && mapped == old(mapped) + Range(p, n)
      ensures r.Some? ==> r.value == old(offers)[0]
    {
      hide Range, AlignmentOk, Known;
      var p := NextOffer();
      var ok := Unused(p, n);
      if !ok || p == 0 || n == 0 || p % pageSize != 0 || p + n > WIDTH {
        asked := asked + [Ask.Map(n, false)];
        return None;
      }
      asked := asked + [Ask.Map(n, true)];
      Take(p, n);
      r := Some(p);
    }

    method Munmap(p: nat, n: nat)
      requires Valid()
      modifies this`mapped
      ensures Valid() && mapped == old(mapped) - Range(p, n)
    {
      mapped := mapped - Range(p, n);
    }

    /** sbrk of n more bytes. */
    method Sbrk(n: nat) returns (r: Option<nat>)
      requires Valid()
      modifies this`offers, this`regions, this`brk, this`mapped, this`asked
      ensures Valid() && (r.Some? <==> old(CanBreak(n))) && asked == old(asked) + [Break(n, r.Some?)]
      ensures match r
        case None => mapped == old(mapped)
        case Some(p) => p > 0 && p + n <= WIDTH && Range(p, n) !! old(mapped) && mapped == old(mapped) + Range(p, n)
      ensures r.Some? ==> r.value == old(offers)[0]
      ensures offers == (if old(offers) == [] then [] else old(offers)[1..])
      ensures brk == if r.Some? then r.value + n else old(brk)
    {
      hide Range, AlignmentOk, Known;
      var p := NextOffer();
      var ok := Unused(p, n);
      if !ok || p == 0 || p < brk || p + n > WIDTH {
        asked := asked + [Break(n, false)];
        return None;
      }
      asked := asked + [Break(n, true)];
      Take(p, n);
      brk := p + n;
      r := Some(p);
    }
  }

  /** The next multiple of a after p. */
  lemma AlignedUp(p: nat, a: nat)
    requires a > 0
    ensures (p + a - p % a) % a == 0
  {
    assert p - p % a == (p / a) * a;
    assert p + a - p % a == (p / a + 1) * a;
    MultipleMod(p / a + 1, a);
  }

  /** A multiple of a page is off an alignment by at most that less a page. */
  lemma AdjustFits(p: nat, a: nat, page: nat)
    requires AlignmentOk(a) && AlignmentOk(page) && page <= a && p % page == 0 && p % a != 0
    ensures a - p % a <= a - page
  {
    PowerDivides(page, a);
    hide PowerOfTwo;
    Euclid(p, a);
    MultipleOfMultiple(p / a, a, page);
    Remainder(p, p % a, p / a * a, page);
  }

  lemma ProductSign(k: int, b: nat)
    ensures k <= 0 ==> k * b <= 0
  {
  }

  lemma Remainder(p: nat, x: nat, y: nat, page: nat)
    requires page > 0 && x > 0 && p == x + y && y % page == 0 && p % page == 0
    ensures x >= page
  {
    ModMultiple(y, page);
    ModMultiple(p, page);
    var k := p / page - y / page;
    assert x == k * page;
    ProductSign(k, page);
    MulAtLeast(k, page);
  }

  /** The sum of size and alignment is not negative as a signed word. */
  ghost predicate SumFits(size: nat, a: nat) { (size + a) % WIDTH < HALF }

  /** Call number i was this one. */
  ghost predicate Asked(asked: seq<Ask>, i: nat, ask: Ask) { i < |asked| && asked[i] == ask }

  /** The last call, number `first` or later, was this one. */
  ghost predicate EndsWith(asked: seq<Ask>, first: nat, ask: Ask) {
    first < |asked| && asked[|asked| - 1] == ask
  }

  /** Call number i asked for n more bytes of the break. */
  ghost predicate BreakAsked(asked: seq<Ask>, i: nat, n: nat) { i < |asked| && asked[i].Break? && asked[i].n == n }

  /**
   The break was extended by s bytes from offers[0], which is not aligned. Then it is by what
   is missing for alignment: if those bytes follow, the block starts there; if not, so much
   more is asked for that a block fits in any case.
   */
  ghost predicate Extended(offers: seq<nat>, asked: seq<Ask>, k: nat, s: nat, a: nat, r: Option<nat>) {
    && offers != [] && a > 0 && k + 1 < |asked|
    && var missing := a - offers[0] % a;
       && BreakAsked(asked, k + 1, missing)
       && if asked[k + 1].granted && |offers| > 1 && offers[1] == offers[0] + s
          then |asked| == k + 2 && r == Some(offers[0] + missing)
          else |asked| == k + 3 && asked[k + 2] == Break(s + a - 1, r.Some?)
  }

  /** n bytes from p, aligned, all obtained and none of them in use before. */
  ghost predicate Fresh(before: iset<int>, after: iset<int>, p: nat, n: nat, a: nat) {
    a > 0 && p > 0 && p % a == 0 && Range(p, n) !! before && Range(p, n) <= after
  }

  lemma FreshIs(before: iset<int>, after: iset<int>, p: nat, n: nat, a: nat)
    requires Fresh(before, after, p, n, a)
    ensures a > 0 && p % a == 0 && Range(p, n) !! before && Range(p, n) <= after
  {
  }

  class SystemAlloc {
    const os: Os
    const useDevmem: bool
    const useSbrk: bool
    const useMmap: bool
    /** Where physical memory for /dev/mem starts, 0 for none, and its limit, 0 for none, in bytes. */
    const devStart: nat
    const devLimit: nat
    var devmemFailure: bool
    var sbrkFailure: bool
    var mmapFailure: bool
    var initialized: bool
    var physBase: int
    /** The blocks handed out so far, and the physical memory of those from /dev/mem. */
    ghost var blocks: seq<(nat, nat)>
    ghost var physical: seq<(int, int)>

    /** Stretches of physical memory follow one another from the start on, below a limit that is not below the start. */
    ghost predicate PhysicalFits()
      reads this`initialized, this`physBase, this`physical
    {
      && devStart < HALF && devLimit < HALF
      && (initialized ==> devStart <= physBase) && (!initialized ==> physical == [])
      && (forall i :: 0 <= i < |physical| ==> devStart <= physical[i].0 <= physical[i].1 <= physBase)
      && (initialized && devLimit != 0 && devStart <= devLimit ==> physBase <= devLimit)
      && (forall i, j :: 0 <= i < j < |physical| ==> physical[i].1 <= physical[j].0)
    }

    /**
     The limit holds exactly if it is not below the start: the difference that the size is
     compared with is an unsigned number, and so a large one when the limit is below.
     */
    lemma BelowLimit(i: nat)
      requires Valid() && devLimit != 0 && i < |physical|
      ensures physical[i].1 <= devLimit <==> devStart <= devLimit
    {
    }

    /** What is left below the limit, as the program computes it; `base` is where the next stretch would start. */
    function Room(base: int): (r: nat) {
      (devLimit - base) % WIDTH
    }

    /** Mapped memory is aligned to pages at least. */
    function Widened(alignment: nat): (a: nat)
      ensures a >= alignment && a >= os.pageSize && (a == alignment || a == os.pageSize)
    {
      if alignment < os.pageSize then os.pageSize else alignment
    }

    /** What is mapped for a block: its rounded size and room to align it. */
    function Padded(size: nat, alignment: nat): (r: nat)
      requires os.pageSize > 0
    {
      RoundUp(size, Widened(alignment)) + (Widened(alignment) - os.pageSize)
    }

    /** Where the next stretch of physical memory starts. */
    function Base(): (r: int)
      reads this`initialized, this`physBase
    {
      if initialized then physBase else devStart
    }

    /** The next block of physical memory is to be had. */
    ghost predicate PhysicalThere(size: nat, alignment: nat, opens: bool)
      reads this`initialized, this`physBase, os
      requires os.pageSize > 0
    {
      && devStart != 0 && (initialized || opens)
      && (devLimit == 0 || Padded(size, alignment) <= Room(Base()))
      && os.CanMap(Padded(size, alignment))
    }

    ghost predicate Valid()
      reads this, os
    {
      && os.Valid() && os.pageSize >= ALIGNER && PhysicalFits()
      && (forall i :: 0 <= i < |blocks| ==> Range(blocks[i].0, blocks[i].1) <= os.mapped)
      && (forall i, j :: 0 <= i < j < |blocks| ==> Range(blocks[i].0, blocks[i].1) !! Range(blocks[j].0, blocks[j].1))
    }

    constructor (os: Os, useDevmem: bool, useSbrk: bool, useMmap: bool, devStart: nat, devLimit: nat)
      requires os.Valid() && os.pageSize >= ALIGNER && devStart < HALF && devLimit < HALF
      ensures Valid() && this.os == os && blocks == [] && physical == [] && !initialized
      ensures this.useDevmem == useDevmem && this.useSbrk == useSbrk && this.useMmap == useMmap
      ensures this.devStart == devStart && this.devLimit == devLimit && !devmemFailure && !sbrkFailure && !mmapFailure
    {
      this.os, this.useDevmem, this.useSbrk, this.useMmap := os, useDevmem, useSbrk, useMmap;
      this.devStart, this.devLimit := devStart, devLimit;
      devmemFailure, sbrkFailure, mmapFailure, initialized, physBase := false, false, false, false, 0;
      blocks, physical := [], [];
    }

    /** The break is aligned, and can grow by the rounded size. */
    ghost predicate AtBreak(size: nat, a: nat)
      reads os
    {
      a > 0 && (size + a) % WIDTH < HALF && os.CanBreak(RoundUp(size, a)) && os.offers[0] % a == 0
    }

    /** TrySbrk */
    method TrySbrk(size: nat, a: nat) returns (r: Option<nat>, ghost n: nat)
      requires os.Valid() && AlignmentOk(a) && size < WIDTH
      modifies this`sbrkFailure, os
      ensures os.Valid() && old(os.mapped) <= os.mapped
      ensures r.Some? ==> Fresh(old(os.mapped), os.mapped, r.value, n, a) && n == RoundUp(size, a)
      ensures old(AtBreak(size, a)) ==> r == Some(old(os.offers)[0])
      ensures old(os.asked) <= os.asked
      ensures (size + a) % WIDTH >= HALF ==> r.None? && os.asked == old(os.asked) && sbrkFailure == old(sbrkFailure)
      ensures (size + a) % WIDTH < HALF ==>
                && Asked(os.asked, |old(os.asked)|, Break(RoundUp(size, a), old(os.CanBreak(RoundUp(size, a)))))
                && (!old(os.CanBreak(RoundUp(size, a))) ==> r.None?)
                && (r.None? ==> os.asked[|os.asked| - 1].Break? && !os.asked[|os.asked| - 1].granted)
                && sbrkFailure == (old(sbrkFailure) || r.None?)
      ensures (size + a) % WIDTH < HALF ==>
                if !old(os.CanBreak(RoundUp(size, a))) || old(os.offers)[0] % a == 0
                then |os.asked| == |old(os.asked)| + 1
                else Extended(old(os.offers), os.asked, |old(os.asked)|, RoundUp(size, a), a, r)
    {
      n := 0;
      if (size + a) % WIDTH >= HALF {
        return None, 0;
      }
      RoundedUp(size, a);
      var s := RoundUp(size, a);
      n := s;
      var first := os.Sbrk(s);
      if first.None? {
        sbrkFailure := true;
        return None, 0;
      }
      var p := first.value;
      if p % a == 0 {
        return first, s;
      }
      AlignedUp(p, a);
      var extra := a - p % a;
      var second := os.Sbrk(extra);
      if second == Some(p + s) {
        return Some(p + extra), s;
      }
      var third := os.Sbrk(s + a - 1);
      if third.None? {
        sbrkFailure := true;
        return None, 0;
      }
      p := third.value;
      if p % a != 0 {
        AlignedUp(p, a);
        p := p + (a - p % a);
      }
      r := Some(p);
    }

    /** The end of TryMmap and TryDevMem: of s + extra bytes from p, those before and after the block go back. */
    method Trim(p: nat, s: nat, extra: nat, a: nat, ghost before: iset<int>) returns (adjust: nat)
      requires os.Valid() && AlignmentOk(a) && a >= os.pageSize && extra == a - os.pageSize && p % os.pageSize == 0
      requires Range(p, s + extra) !! before && os.mapped == before + Range(p, s + extra)
      modifies os`mapped
      ensures os.Valid() && adjust <= extra && (p + adjust) % a == 0
      ensures os.mapped == before + Range(p + adjust, s)
    {
      adjust := 0;
      if p % a != 0 {
        adjust := a - p % a;
        AlignedUp(p, a);
        AdjustFits(p, a, os.pageSize);
      }
      if adjust > 0 {
        os.Munmap(p, adjust);
      }
      if adjust < extra {
        os.Munmap(p + adjust + s, extra - adjust);
      }
      assert os.mapped == before + Range(p + adjust, s);
    }

    /** What TryMmap and TryDevMem share: s + extra bytes are mapped, and trimmed to s aligned ones. */
    method MapAligned(s: nat, extra: nat, a: nat, alignment: nat) returns (r: Option<nat>, adjust: nat)
      requires os.Valid() && AlignmentOk(a) && AlignmentOk(alignment) && alignment <= a && a >= os.pageSize
      requires extra == a - os.pageSize
      modifies os
      ensures os.Valid() && adjust <= extra
      ensures r.None? ==> os.mapped == old(os.mapped)
      ensures r.Some? ==> s + extra > 0 && Fresh(old(os.mapped), os.mapped, r.value, s, alignment)
      ensures r.Some? ==> os.mapped == old(os.mapped) + Range(r.value, s)
      ensures r.Some? <==> old(os.CanMap(s + extra))
      ensures r.Some? ==> r.value == old(os.offers)[0] + adjust && r.value % a == 0
      ensures os.asked == old(os.asked) + [Ask.Map(s + extra, r.Some?)]
    {
      adjust := 0;
      ghost var before := os.mapped;
      r := os.Mmap(s + extra);
      if r.Some? {
        adjust := Trim(r.value, s, extra, a, before);
        Divides(r.value + adjust, alignment, a);
        r := Some(r.value + adjust);
      }
    }

    /** TryMmap: exactly the rounded size stays mapped. */
    method TryMmap(size: nat, alignment: nat) returns (r: Option<nat>, ghost n: nat)
      requires os.Valid() && os.pageSize >= ALIGNER && AlignmentOk(alignment) && size < WIDTH
      requires (size + alignment < WIDTH || alignment <= os.pageSize)
      modifies this`mmapFailure, os
      ensures os.Valid() && mmapFailure == (old(mmapFailure) || r.None?)
      ensures r.None? ==> os.mapped == old(os.mapped)
      ensures r.Some? ==>
                Fresh(old(os.mapped), os.mapped, r.value, n, alignment) && size <= n && size + alignment - 1 < WIDTH
      ensures r.Some? ==> os.mapped == old(os.mapped) + Range(r.value, n)
      ensures r.Some? <==> old(os.CanMap(Padded(size, alignment)))
      ensures os.asked == old(os.asked) + [Ask.Map(Padded(size, alignment), r.Some?)]
      ensures r.Some? ==>
                && n == RoundUp(size, Widened(alignment)) && r.value % Widened(alignment) == 0
                && 0 <= r.value - old(os.offers)[0] <= Widened(alignment) - os.pageSize
    {
      hide PowerOfTwo, RoundUp;
      n := 0;
      var a := Widened(alignment);
      RoundedUp(size, a);
      var s := RoundUp(size, a);
      var extra := a - os.pageSize;
      var adjust;
      r, adjust := MapAligned(s, extra, a, alignment);
      n := s;
      if r.None? { mmapFailure := true; }
    }

    /**
     TryDevMem; `opens` says whether /dev/mem can be opened. Each block has its own stretch
     of physical memory, the next one.
     */
    method TryDevMem(size: nat, alignment: nat, opens: bool) returns (r: Option<nat>, ghost n: nat)
      requires Valid() && AlignmentOk(alignment) && size < WIDTH
      requires (size + alignment < WIDTH || alignment <= os.pageSize)
      modifies this`devmemFailure, this`initialized, this`physBase, this`physical, os
      ensures os.Valid() && (old(initialized) ==> initialized) && PhysicalFits()
      ensures r.None? ==> os.mapped == old(os.mapped) && physical == old(physical)
      ensures r.Some? ==>
                Fresh(old(os.mapped), os.mapped, r.value, n, alignment) && size <= n && size + alignment - 1 < WIDTH
      ensures r.Some? ==> os.mapped == old(os.mapped) + Range(r.value, n)
      ensures r.Some? ==> n == RoundUp(size, Widened(alignment)) && old(os.offers) != []
      ensures r.Some? ==> 0 <= r.value - old(os.offers)[0] <= Widened(alignment) - os.pageSize
      ensures r.Some? ==> physBase == old(Base()) + (r.value - old(os.offers)[0]) + n
      ensures r.Some? ==> physical == old(physical) + [(physBase - n, physBase)]
      ensures r.Some? <==> old(PhysicalThere(size, alignment, opens))
      ensures devmemFailure == (old(devmemFailure) || (r.None? && devStart != 0))
      ensures os.asked == old(os.asked)
              || os.asked == old(os.asked) + [Ask.Map(Padded(size, alignment), r.Some?)]
    {
      hide PowerOfTwo, RoundUp, Fresh, Range;
      hide Padded;
      n := 0;
      if devStart == 0 {
        return None, 0;
      }
      if !initialized {
        if !opens {
          devmemFailure := true;
          return None, 0;
        }
        physBase := devStart;
        initialized := true;
      }
      r, n := MapPhysical(size, alignment);
    }

    /** The next stretch of physical memory is mapped, unless the limit or the system forbids it. */
    method MapPhysical(size: nat, alignment: nat) returns (r: Option<nat>, ghost n: nat)
      requires os.Valid() && os.pageSize >= ALIGNER && PhysicalFits() && initialized && AlignmentOk(alignment)
      requires size < WIDTH
      requires size + alignment < WIDTH || alignment <= os.pageSize
      modifies this`devmemFailure, this`physBase, this`physical, os
      ensures os.Valid() && PhysicalFits()
      ensures r.None? ==> os.mapped == old(os.mapped) && physical == old(physical)
      ensures r.Some? ==>
                Fresh(old(os.mapped), os.mapped, r.value, n, alignment) && size <= n && size + alignment - 1 < WIDTH
      ensures r.Some? ==> os.mapped == old(os.mapped) + Range(r.value, n)
      ensures r.Some? ==> n == RoundUp(size, Widened(alignment)) && old(os.offers) != []
      ensures r.Some? ==> 0 <= r.value - old(os.offers)[0] <= Widened(alignment) - os.pageSize
      ensures r.Some? ==> physBase == old(physBase) + (r.value - old(os.offers)[0]) + n
      ensures r.Some? ==> physical == old(physical) + [(physBase - n, physBase)]
      ensures r.Some? <==>
                old((devLimit == 0 || Padded(size, alignment) <= Room(physBase)) && os.CanMap(Padded(size, alignment)))
      ensures devmemFailure == (old(devmemFailure) || r.None?)
      ensures os.asked == old(os.asked)
              || os.asked == old(os.asked) + [Ask.Map(Padded(size, alignment), r.Some?)]
    {
      hide PowerOfTwo, RoundUp, Fresh, Range, PhysicalFits, Room;
      var a := Widened(alignment);
      RoundedUp(size, a);
      var s := RoundUp(size, a);
      var extra := a - os.pageSize;
      n := s;
      if devLimit != 0 && s + extra > Room(physBase) {
        devmemFailure := true;
        return None, s;
      }
      var adjust;
      r, adjust := MapAligned(s, extra, a, alignment);
      if r.None? {
        devmemFailure := true;
        return;
      }
      RoomLeft(adjust, s, extra);
      UsePhysical(adjust, s);
    }

    /** A size that passes the test ends below the limit, if the start does. */
    lemma RoomLeft(adjust: nat, s: nat, extra: nat)
      requires PhysicalFits() && initialized && adjust <= extra && (devLimit != 0 ==> s + extra <= Room(physBase))
      ensures devLimit != 0 && devStart <= devLimit ==> physBase + adjust + s <= devLimit
    {
    }

    /** The next s bytes of physical memory, after a gap, are in use. */
    method UsePhysical(adjust: nat, s: nat)
      requires PhysicalFits() && initialized
      requires (devLimit != 0 && devStart <= devLimit ==> physBase + adjust + s <= devLimit)
      modifies this`physBase, this`physical
      ensures PhysicalFits() && physical == old(physical) + [(physBase - s, physBase)]
      ensures physBase == old(physBase) + adjust + s
    {
      physBase := physBase + adjust + s;
      physical := physical + [(physBase - s, physBase)];
    }

    /** A block joins those handed out. */
    ghost method Record(p: nat, n: nat, before: iset<int>)
      requires os.Valid() && os.pageSize >= ALIGNER && PhysicalFits()
      requires Range(p, n) !! before && before + Range(p, n) <= os.mapped
      requires forall i :: 0 <= i < |blocks| ==> Range(blocks[i].0, blocks[i].1) <= before
      requires forall i, j :: 0 <= i < j < |blocks| ==>
                Range(blocks[i].0, blocks[i].1) !! Range(blocks[j].0, blocks[j].1)
      modifies this`blocks
      ensures Valid() && blocks == old(blocks) + [(p, n)]
    {
      blocks := blocks + [(p, n)];
    }

    /** The attempts of one round that come before mmap. */
    method FirstAttempts(size: nat, a: nat, opens: bool) returns (r: Option<nat>, ghost n: nat, ghost before: iset<int>)
      requires Valid() && AlignmentOk(a) && size < WIDTH && (size + a < WIDTH || a <= os.pageSize)
      modifies this`devmemFailure, this`sbrkFailure, this`initialized, this`physBase, this`physical, os
      ensures os.Valid() && PhysicalFits() && old(os.mapped) <= before <= os.mapped
      ensures r.Some? ==> Fresh(before, os.mapped, r.value, n, a) && (size <= n <==> size + a - 1 < WIDTH)
      ensures !useDevmem && useSbrk && old(!sbrkFailure && AtBreak(size, a)) ==>
                r == Some(old(os.offers)[0]) && n == RoundUp(size, a)
      ensures old(os.asked) <= os.asked
      ensures r.None? && useSbrk && !old(sbrkFailure) && SumFits(size, a) ==>
                exists i :: |old(os.asked)| <= i && BreakAsked(os.asked, i, RoundUp(size, a))
      ensures !useDevmem && !useSbrk ==> r.None? && unchanged(os)
    {
      hide PowerOfTwo, RoundUp, Padded, Fresh, Range, PhysicalFits, Os.CanMap, Os.CanBreak, AtBreak, Untouched, Widened;
      hide Extended, PhysicalThere;
      before := os.mapped;
      r, n := None, 0;
      if useDevmem && !devmemFailure { r, n := TryDevMem(size, a, opens); }
      if r.None? && useSbrk && !sbrkFailure {
        ghost var i := |os.asked|;
        before := os.mapped;
        RoundedUp(size, a);
        r, n := TrySbrk(size, a);
        assert SumFits(size, a) ==> BreakAsked(os.asked, i, RoundUp(size, a));
      }
    }

    /** One round of attempts; `before` is what was mapped before the last of them. */
    method Attempts(size: nat, a: nat, opens: bool) returns (r: Option<nat>, ghost n: nat, ghost before: iset<int>)
      requires Valid() && AlignmentOk(a) && size < WIDTH && (size + a < WIDTH || a <= os.pageSize)
      modifies this`devmemFailure, this`sbrkFailure, this`mmapFailure
      modifies this`initialized, this`physBase, this`physical, os
      ensures os.Valid() && PhysicalFits() && old(os.mapped) <= before <= os.mapped
      ensures r.Some? ==> Fresh(before, os.mapped, r.value, n, a) && (size <= n <==> size + a - 1 < WIDTH)
      ensures !useDevmem && useSbrk && old(!sbrkFailure && AtBreak(size, a)) ==>
                r == Some(old(os.offers)[0]) && n == RoundUp(size, a)
      ensures old(os.asked) <= os.asked
      ensures r.None? && useMmap && !old(mmapFailure) ==>
                EndsWith(os.asked, |old(os.asked)|, Ask.Map(Padded(size, a), false))
      ensures r.None? && useSbrk && !old(sbrkFailure) && SumFits(size, a) ==>
                exists i :: |old(os.asked)| <= i && BreakAsked(os.asked, i, RoundUp(size, a))
      ensures !useDevmem && !useSbrk && useMmap && !old(mmapFailure) && old(os.CanMap(Padded(size, a))) ==> r.Some?
    {
      hide PowerOfTwo, RoundUp, Padded, Fresh, Range, PhysicalFits, Os.CanMap, Os.CanBreak, AtBreak, Untouched, Widened;
      r, n, before := FirstAttempts(size, a, opens);
      ghost var asked := os.asked;
      if r.None? && useMmap && !mmapFailure {
        before := os.mapped;
        r, n := TryMmap(size, a);
      }
      forall i | |old(os.asked)| <= i && BreakAsked(asked, i, RoundUp(size, a))
        ensures BreakAsked(os.asked, i, RoundUp(size, a))
      {
      }
    }

    /** And if one succeeds its block joins those handed out. */
    method TryAll(size: nat, a: nat, opens: bool) returns (r: Option<nat>, ghost n: nat)
      requires Valid() && AlignmentOk(a) && size < WIDTH && (size + a < WIDTH || a <= os.pageSize)
      modifies this, os
      ensures Valid()
      ensures r.None? ==> blocks == old(blocks)
      ensures r.Some? ==>
                blocks == old(blocks) + [(r.value, n)] && r.value % a == 0 && (size <= n <==> size + a - 1 < WIDTH)
      ensures !useDevmem && useSbrk && old(!sbrkFailure && AtBreak(size, a)) ==>
                r == Some(old(os.offers)[0]) && n == RoundUp(size, a)
      ensures old(os.asked) <= os.asked
      ensures r.None? && useMmap && !old(mmapFailure) ==>
                EndsWith(os.asked, |old(os.asked)|, Ask.Map(Padded(size, a), false))
      ensures r.None? && useSbrk && !old(sbrkFailure) && SumFits(size, a) ==>
                exists i :: |old(os.asked)| <= i && BreakAsked(os.asked, i, RoundUp(size, a))
      ensures !useDevmem && !useSbrk && useMmap && !old(mmapFailure) && old(os.CanMap(Padded(size, a))) ==> r.Some?
    {
      hide PowerOfTwo, RoundUp, Padded, Fresh, Range, PhysicalFits, EndsWith, BreakAsked;
      ghost var before;
      r, n, before := Attempts(size, a, opens);
      if r.Some? {
        FreshIs(before, os.mapped, r.value, n, a);
        Record(r.value, n, before);
      }
    }

    /** The alignment that Alloc goes by: at least ALIGNER. */
    static function Raised(alignment: nat): (a: nat)
      ensures a >= alignment && a >= 8 && (a == alignment || a == 8)
    {
      if alignment < ALIGNER then ALIGNER else alignment
    }

    /**
     TCMalloc_SystemAlloc: NULL, or an aligned block of bytes that were obtained from the
     system, are still mapped, and belong to no earlier block. The block holds `size` bytes
     exactly if the size does not wrap around when it is rounded up to the alignment, which
     has been raised to ALIGNER by then. Alignment 0 is what callers give that need none.
     */
    method Alloc(size: nat, alignment: nat, opens: bool) returns (r: Option<nat>, ghost n: nat)
      requires Valid() && (alignment == 0 || AlignmentOk(alignment)) && size < WIDTH
      modifies this, os
      ensures Valid()
      ensures r.None? ==> blocks == old(blocks)
      ensures r.Some? ==> blocks == old(blocks) + [(r.value, n)] && r.value % Raised(alignment) == 0
      ensures r.Some? ==> (size <= n <==> size + Raised(alignment) - 1 < WIDTH)
      ensures size + alignment >= WIDTH ==> r.None?
      ensures r.None? && size + alignment < WIDTH ==> !devmemFailure && !sbrkFailure && !mmapFailure
      ensures size + alignment < WIDTH && !useDevmem && useSbrk
              && old(!sbrkFailure && AtBreak(size, Raised(alignment))) ==>
                
                r == Some(old(os.offers)[0]) && n == RoundUp(size, Raised(alignment))
      ensures r.None? && size + alignment < WIDTH && useMmap ==>
                EndsWith(os.asked, |old(os.asked)|, Ask.Map(Padded(size, Raised(alignment)), false))
      ensures r.None? && size + alignment < WIDTH && useMmap && !old(mmapFailure) ==>
                exists i :: |old(os.asked)| <= i < |os.asked| - 1
                            && Asked(os.asked, i, Ask.Map(Padded(size, Raised(alignment)), false))
      ensures r.None? && size + alignment < WIDTH && useSbrk && SumFits(size, Raised(alignment)) ==>
                exists i :: |old(os.asked)| <= i && BreakAsked(os.asked, i, RoundUp(size, Raised(alignment)))
      ensures size + alignment < WIDTH && !useDevmem && !useSbrk && useMmap
              && old(!mmapFailure && os.CanMap(Padded(size, Raised(alignment)))) ==>
                r.Some?
    {
      n := 0;
      if size + alignment >= WIDTH {
        return None, 0;
      }
      hide PowerOfTwo, RoundUp, Padded, PhysicalFits, Range, BreakAsked, AtBreak, Os.CanMap, Untouched, SumFits;
      AlignerOk();
      var a := Raised(alignment);
      r := None;
      for i := 0 to 2
        invariant Valid() && blocks == old(blocks) && r.None?
        invariant i == 0 ==> unchanged(this) && unchanged(os)
        invariant i > 0 ==> !devmemFailure && !sbrkFailure && !mmapFailure
        invariant i > 0 ==> !(!useDevmem && useSbrk && old(!sbrkFailure && AtBreak(size, a)))
        invariant i > 0 ==>
                    !(!useDevmem && !useSbrk && useMmap && old(!mmapFailure && os.CanMap(Padded(size, a))))
        invariant old(os.asked) <= os.asked
        invariant i > 0 && useMmap && (i > 1 || !old(mmapFailure)) ==>
                    EndsWith(os.asked, |old(os.asked)|, Ask.Map(Padded(size, a), false))
        invariant i > 1 && useMmap && !old(mmapFailure) ==>
                    exists j :: |old(os.asked)| <= j < |os.asked| - 1
                                && Asked(os.asked, j, Ask.Map(Padded(size, a), false))
        invariant i > 1 && useSbrk && SumFits(size, a) ==>
                    exists j :: |old(os.asked)| <= j && BreakAsked(os.asked, j, RoundUp(size, a))
      {
        ghost var before := os.asked;
        r, n := TryAll(size, a, opens);
        if r.Some? {
          return;
        }
        if i == 1 && useMmap && !old(mmapFailure) {
          assert Asked(os.asked, |before| - 1, Ask.Map(Padded(size, a), false));
        }
        devmemFailure, sbrkFailure, mmapFailure := false, false, false;
      }
    }
  }

  /** A huge size for which no alignment is asked gets a block of no bytes: all tests let it pass. */
  method HugeSizeGetsNothing(p: nat) returns (heap: SystemAlloc, r: Option<nat>, ghost n: nat)
    requires 0 < p < WIDTH && p % ALIGNER == 0
    ensures heap.Valid() && r == Some(p) && heap.blocks == [(p, 0)] && n == 0
  {
    PageOk();
    var os := new Os(PAGE_SIZE, [p]);
    heap := new SystemAlloc(os, false, true, true, 0, 0);
    r, n := heap.Alloc(0xFFFF_FFFA, 0, false);
  }

  /** With /dev/mem from 100 MB on and up to 50 MB, the first page is mapped above the limit. */
  method LimitBelowStart(p: nat) returns (heap: SystemAlloc, r: Option<nat>, ghost n: nat)
    requires 0 < p && p + PAGE_SIZE <= WIDTH && p % PAGE_SIZE == 0
    ensures heap.devLimit == 0x320_0000 && r == Some(p) && heap.physical == [(0x640_0000, 0x640_1000)]
  {
    PageOk();
    var os := new Os(PAGE_SIZE, [p]);
    heap := new SystemAlloc(os, true, false, false, 0x640_0000, 0x320_0000);
    r, n := heap.TryDevMem(PAGE_SIZE, ALIGNER, true);
  }

  lemma PageOk()
    ensures AlignmentOk(PAGE_SIZE) && AlignmentOk(ALIGNER)
  {
    PageIsPower();
  }

  lemma AlignerOk()
    ensures AlignmentOk(ALIGNER)
  {
  }

  /** A multiple of the larger power of two is one of the smaller. */
  lemma Divides(p: nat, small: nat, large: nat)
    requires AlignmentOk(small) && AlignmentOk(large) && small <= large && p % large == 0
    ensures p % small == 0
  {
    PowerDivides(small, large);
    ModMultiple(p, large);
    MultipleOfMultiple(p / large, large, small);
  }
}
