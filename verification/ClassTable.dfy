/** The table of size classes that InitSizeClasses fills in, and the class of a size. */
module ClassTable {
  import opened Arith
  import opened CentralState
  import opened CentralSafety
  import opened CentralTheorems
  import SizeClasses

  /** kNumClasses, kSizeBits and kAlignShift */
  const CLASSES := 170
  const SIZE_BITS := 32
  const ALIGN_SHIFT := 3

  /** The last class that is used. */
  const LAST := 168

  lemma {:induction false} PowerAdd(j: nat, k: nat)
    ensures Power(j + k) == Power(j) * Power(k)
  {
    if j > 0 {
      PowerAdd(j - 1, k);
      assert Power(j) * Power(k) == 2 * (Power(j - 1) * Power(k));
    }
  }

  /** k is the position of the highest bit of n. */
  ghost predicate IsLg(n: nat, k: nat) { Power(k) <= n < Power(k + 1) }

  lemma {:induction false} PowerGrows(j: nat, k: nat)
    requires j <= k
    ensures Power(j) <= Power(k)
  {
    if j < k { PowerGrows(j, k - 1); }
  }

  lemma OneLg(n: nat, j: nat, k: nat)
    requires IsLg(n, j) && IsLg(n, k)
    ensures j == k
  {
    if j < k { PowerGrows(j + 1, k); }
    if k < j { PowerGrows(k + 1, j); }
  }

  /** What is left of n after a shift by log bits is m. */
  ghost predicate Shifted(n: nat, log: nat, m: nat) { m * Power(log) <= n < (m + 1) * Power(log) }

  lemma ShiftMore(n: nat, log: nat, m: nat, s: nat)
    requires Shifted(n, log, m)
    ensures Shifted(n, log + s, m / Power(s))
  {
    hide Power;
    PowerAdd(log, s);
    ShiftProduct(n, m, Power(s), Power(log));
  }

  lemma ShiftProduct(n: nat, m: nat, p: nat, q: nat)
    requires p > 0 && m * q <= n < (m + 1) * q
    ensures m / p * (q * p) <= n < (m / p + 1) * (q * p)
  {
    var x := m / p;
    Euclid(m, p);
    Scale(x * p, m, q);
    Scale(m + 1, (x + 1) * p, q);
    Regroup(x, p, q);
    Regroup(x + 1, p, q);
  }

  lemma Regroup(x: nat, p: nat, q: nat)
    ensures x * p * q == x * (q * p)
  {
  }

  /** LgFloor */
  method LgFloor(n: nat) returns (log: nat)
    requires 0 < n < WIDTH
    ensures IsLg(n, log)
  {
    hide Shifted, Power, IsLg;
    log := 0;
    var m: nat, i: int := n, 4;
    assert Shifted(n, 0, n) && n < Power(Power(5)) by { Start(n); }
    while i >= 0
      invariant -1 <= i <= 4 && Shifted(n, log, m) && 0 < m < Power(Power(i + 1))
    {
      var shift := Power(i);
      var x := m / Power(shift);
      HalfBits(m, i);
      if x != 0 {
        ShiftMore(n, log, m, shift);
        m := x;
        log := log + shift;
      }
      i := i - 1;
    }
    OneBit();
    LastBit(n, log);
  }

  lemma Start(n: nat)
    requires n < WIDTH
    ensures Shifted(n, 0, n) && n < Power(Power(5))
  {
    assert Power(5) == 32 && Power(16) == 65536;
    PowerAdd(16, 16);
  }

  lemma OneBit()
    ensures Power(Power(0)) == 2
  {
  }

  lemma LastBit(n: nat, log: nat)
    requires Shifted(n, log, 1)
    ensures IsLg(n, log)
  {
  }

  lemma HalfBits(m: nat, i: nat)
    requires 0 < m < Power(Power(i + 1))
    ensures m / Power(Power(i)) < Power(Power(i)) && (m / Power(Power(i)) == 0 ==> m < Power(Power(i)))
  {
    var p := Power(Power(i));
    PowerAdd(Power(i), Power(i));
    Euclid(m, p);
    if m / p >= p { Scale(p, m / p, p); }
  }

  // ---------- the table ----------

  /** The distance of classes for sizes with highest bit lg, as a power of two. */
  function ShiftOf(lg: nat): nat { if lg < 7 then 3 else if lg < 11 then lg - 3 else 8 }

  function BaseOf(lg: nat): nat { if lg < 7 then 1 else if lg < 11 then 8 * (lg - 6) + 1 else 41 }

  function ClassOf(size: nat, lg: nat): nat
    requires size > 0
  {
    QuotientNonneg(size - 1, Power(ShiftOf(lg)));
    BaseOf(lg) + (size - 1) / Power(ShiftOf(lg))
  }

  lemma QuotientNonneg(m: nat, p: nat)
    requires p > 0
    ensures m / p >= 0
  {
  }

  /** The size of class c. */
  function SizeAt(c: nat): nat {
    if c < 16 then 8 * c
    else if c < 24 then 16 * (c - 8)
    else if c < 32 then 32 * (c - 16)
    else if c < 40 then 64 * (c - 24)
    else if c < 48 then 128 * (c - 32)
    else 256 * (c - 40)
  }

  lemma Powers()
    ensures Power(0) == 1 && Power(1) == 2 && Power(2) == 4 && Power(3) == 8 && Power(4) == 16 && Power(5) == 32
    ensures Power(6) == 64
    ensures Power(7) == 128 && Power(8) == 256 && Power(9) == 512 && Power(10) == 1024 && Power(11) == 2048
    ensures Power(12) == 4096
    ensures Power(13) == 8192 && Power(14) == 16384 && Power(15) == 32768 && Power(16) == 65536
  {
  }

  lemma LgBelow(size: nat, lg: nat)
    requires IsLg(size, lg) && size < 65536
    ensures lg < 16
  {
    Powers();
    if lg >= 16 { PowerGrows(16, lg); }
  }

  /** Class c is the first whose size is long enough. */
  ghost predicate Least(c: nat, size: nat) { 0 < c <= LAST && SizeAt(c - 1) < size <= SizeAt(c) }

  lemma Below128(size: nat)
    requires 0 < size < 128
    ensures Least(1 + (size - 1) / 8, size)
  {
  }

  lemma Below256(size: nat)
    requires 128 <= size < 256
    ensures Least(9 + (size - 1) / 16, size)
  {
  }

  lemma Below512(size: nat)
    requires 256 <= size < 512
    ensures Least(17 + (size - 1) / 32, size)
  {
  }

  lemma Below1024(size: nat)
    requires 512 <= size < 1024
    ensures Least(25 + (size - 1) / 64, size)
  {
  }

  lemma Below2048(size: nat)
    requires 1024 <= size < 2048
    ensures Least(33 + (size - 1) / 128, size)
  {
  }

  lemma AtLeast2048(size: nat)
    requires 2048 <= size <= 32768
    ensures Least(41 + (size - 1) / 256, size)
  {
  }

  /** Objects are at most seven bytes longer than asked for, or by less than an eighth. */
  lemma LittleWaste(c: nat, size: nat)
    requires Least(c, size)
    ensures if size <= 128 then SizeAt(c) - size < 8 else 8 * (SizeAt(c) - size) < size
  {
  }

  /** The class of a size is the first that is long enough. */
  lemma ClassIsLeast(size: nat, lg: nat)
    requires 0 < size <= SizeClasses.MAX_SIZE && IsLg(size, lg)
    ensures Least(ClassOf(size, lg), size)
  {
    LgBelow(size, lg);
    Powers();
    hide Power, Least;
    if lg < 7 {
      assert size < 128 by { PowerGrows(lg + 1, 7); }
      Below128(size);
    } else if lg == 7 {
      Below256(size);
    } else if lg == 8 {
      Below512(size);
    } else if lg == 9 {
      Below1024(size);
    } else if lg == 10 {
      Below2048(size);
    } else {
      assert size >= 2048 by { PowerGrows(11, lg); }
      AtLeast2048(size);
    }
  }

  /** The size of a class is in that class. */
  lemma ClassOfSize(c: nat, lg: nat)
    requires 0 < c <= LAST && IsLg(SizeAt(c), lg)
    ensures ClassOf(SizeAt(c), lg) == c && SizeAt(c + 1) == SizeAt(c) + Power(ShiftOf(lg))
    ensures SizeAt(c) <= SizeClasses.MAX_SIZE
  {
    LgBelow(SizeAt(c), lg);
    ClassIsLeast(SizeAt(c), lg);
    Powers();
  }

  /** The size of the next class has the same highest bit, or the next one. */
  lemma LgStep(c: nat, lg: nat, lg': nat)
    requires 0 < c < LAST && IsLg(SizeAt(c), lg) && IsLg(SizeAt(c + 1), lg')
    ensures lg <= lg' <= lg + 1
  {
    assert SizeAt(c) < SizeAt(c + 1) <= 2 * SizeAt(c);
    Between(SizeAt(c), SizeAt(c + 1), lg, lg');
  }

  lemma Between(m: nat, n: nat, lg: nat, lg': nat)
    requires m < n <= 2 * m && IsLg(m, lg) && IsLg(n, lg')
    ensures lg <= lg' <= lg + 1
  {
    if lg' < lg { PowerGrows(lg' + 1, lg); }
    if lg' > lg + 1 { PowerGrows(lg + 2, lg'); }
  }

  lemma Grows(c: nat, d: nat)
    requires c < d
    ensures SizeAt(c) < SizeAt(d) && SizeAt(c) % SizeClasses.ALIGNMENT == 0
  {
  }

  /** NumMoveSize; the quotient of doubles is cut off to an integer, and 204 is 0.8 * kMaxFreeListLength. */
  function NumMoveSize(size: nat): (num: nat)
    ensures size == 0 ==> num == 0
    ensures size > 0 ==> 2 <= num <= 32
    ensures size > 0 && num > 2 ==> num * size <= 0x1_0000
    ensures size > 0 && num < 32 ==> (num + 1) * size > 0x1_0000
  {
    if size == 0 then 0
    else
      var num := 0x1_0000 / size;
      var most := 204;
      Euclid(0x1_0000, size);
      if num < 2 then
        Scale(num + 1, 3, size);
        2
      else if num > most then 32 else if num > 32 then 32 else num
  }

  class SizeTables {
    /** size_base, size_shift, class_to_size, class_to_pages and num_objects_to_move */
    const base: array<nat>
    const shift: array<nat>
    const sizes: array<nat>
    const pages: array<nat>
    const moves: array<nat>

    constructor ()
      ensures fresh(base) && fresh(shift) && fresh(sizes) && fresh(pages) && fresh(moves) && Blank()
    {
      base, shift := new nat[SIZE_BITS](_ => 0), new nat[SIZE_BITS](_ => 0);
      sizes, pages, moves := new nat[CLASSES](_ => 0), new nat[CLASSES](_ => 0), new nat[CLASSES](_ => 0);
    }

    ghost predicate Laid()
    {
      && base.Length == shift.Length == SIZE_BITS && sizes.Length == pages.Length == moves.Length == CLASSES
      && base != shift && base != sizes && base != pages && base != moves
      && shift != sizes && shift != pages && shift != moves
      && sizes != pages && sizes != moves && pages != moves
    }

    ghost predicate Blank()
      reads sizes, pages, moves
    {
      Laid() && forall c :: 0 <= c < CLASSES ==> sizes[c] == 0 && pages[c] == 0 && moves[c] == 0
    }

    /** The entries for highest bits below n. */
    ghost predicate Bits(n: nat)
      reads base, shift
      requires Laid()
    {
      forall k :: 0 <= k < n && k < SIZE_BITS ==> base[k] == BaseOf(k) && shift[k] == ShiftOf(k)
    }

    /** The sizes of the classes below n; no other class has one. */
    ghost predicate Sizes(n: nat)
      reads sizes
      requires Laid()
    {
      forall c :: 0 <= c < CLASSES ==> sizes[c] == if 0 < c < n then SizeAt(c) else 0
    }

    /**
     What the loop over sizes keeps: the next class and its size, and the highest bit and
     the shift of the last one.
     */
    ghost predicate Filling(next: nat, last: int, alignshift: nat, size: nat)
      reads base, shift, sizes
      requires Laid()
    {
      && 0 < next <= LAST + 1 && size == SizeAt(next) && Sizes(next)
      && (next == 1 ==> last == -1 && alignshift == ShiftOf(ALIGN_SHIFT) && Bits(ALIGN_SHIFT))
      && (next > 1 ==> ALIGN_SHIFT <= last < 16 && IsLg(SizeAt(next - 1), last))
      && (next > 1 ==> alignshift == ShiftOf(last) && Bits(last + 1))
    }

    /** One turn of it. */
    method FillNext(next: nat, last: int, alignshift: nat, size: nat) returns (lg: nat, a: nat)
      requires Laid() && Filling(next, last, alignshift, size) && size <= SizeClasses.MAX_SIZE
      modifies base, shift, sizes
      ensures Filling(next + 1, lg, a, size + Power(a))
    {
      hide SizeAt, ShiftOf, BaseOf, IsLg;
      Below(next);
      lg := LgFloor(size);
      LgBelow(size, lg);
      NextLg(next, last, lg);
      ClassOfSize(next, lg);
      a := alignshift;
      if lg > last {
        NextShift(last, lg);
        if lg >= 7 && a < 8 { a := a + 1; }
        base[lg] := next - (size - 1) / Power(a);
        shift[lg] := a;
      }
      sizes[next] := size;
    }

    /** The first loops of InitSizeClasses. */
    method FillSizes() returns (next: nat)
      requires Blank()
      modifies base, shift, sizes
      ensures next == LAST + 1 && Bits(16) && Sizes(LAST + 1)
    {
      hide SizeAt, ShiftOf, BaseOf, IsLg;
      Firsts();
      for k := 0 to ALIGN_SHIFT
        invariant Bits(k) && Blank()
      {
        base[k], shift[k] := 1, ALIGN_SHIFT;
      }
      next := 1;
      var alignshift: nat, last: int, size: nat := ALIGN_SHIFT, -1, SizeClasses.ALIGNMENT;
      while size <= SizeClasses.MAX_SIZE
        invariant Filling(next, last, alignshift, size)
        decreases LAST + 1 - next
      {
        Below(next);
        last, alignshift := FillNext(next, last, alignshift, size);
        next := next + 1;
        size := size + Power(alignshift);
      }
      Above(next);
      Ends(last);
    }

    /** What all loops leave behind. */
    ghost predicate Filled()
      reads base, shift, sizes, pages, moves
    {
      && Laid() && Bits(16) && Sizes(LAST + 1)
      && (forall c :: 0 <= c < CLASSES ==> if 0 < c <= LAST then Paged(pages[c], SizeAt(c)) else pages[c] == 0)
      && (forall c :: 0 <= c < CLASSES ==> moves[c] == NumMoveSize(sizes[c]))
    }

    /** SizeClass: the first class whose objects are long enough. */
    method SizeClass(size: nat) returns (cl: nat)
      requires Laid() && Bits(16) && Sizes(LAST + 1) && size <= SizeClasses.MAX_SIZE
      ensures 0 < cl <= LAST && Wanted(size) <= sizes[cl]
      ensures forall c :: 0 < c < cl ==> sizes[c] < Wanted(size)
      ensures if Wanted(size) <= 128 then sizes[cl] - Wanted(size) < 8
              else 8 * (sizes[cl] - Wanted(size)) < Wanted(size)
    {
      hide SizeAt, ShiftOf, BaseOf, IsLg;
      var n := Wanted(size);
      var lg := LgFloor(n);
      LgBelow(n, lg);
      ClassIsLeast(n, lg);
      cl := base[lg] + (n - 1) / Power(shift[lg]);
      LittleWaste(cl, n);
      forall c | 0 < c < cl ensures sizes[c] < n { if c < cl - 1 { Grows(c, cl - 1); } }
    }

    /** InitSizeClasses; false where the program aborts, which it never does. */
    method InitSizeClasses() returns (ok: bool)
      requires Blank()
      modifies base, shift, sizes, pages, moves
      ensures ok && Filled()
    {
      hide SizeAt, ShiftOf, BaseOf, IsLg, Paged, NumMoveSize;
      var next := FillSizes();
      if next >= CLASSES {
        return false;
      }
      FillPages(next);
      for size := 0 to SizeClasses.MAX_SIZE + 1
        invariant Laid() && Bits(16) && Sizes(LAST + 1) && moves[0] == 0
        invariant forall c :: 0 <= c < CLASSES ==> if 0 < c <= LAST then Paged(pages[c], SizeAt(c)) else pages[c] == 0
      {
        var sc := SizeClass(size);
        NoSize();
        Grows(0, sc);
        if sc > 1 { Grows(0, sc - 1); }
        if sc == 0 || (sc > 1 && size <= sizes[sc - 1]) || sc >= CLASSES || size > sizes[sc] || sizes[sc] == 0 {
          return false;
        }
      }
      FillMoves();
      ok := true;
    }

    method FillPages(next: nat)
      requires Laid() && Bits(16) && Sizes(LAST + 1) && next == LAST + 1
      requires forall c :: 0 <= c < CLASSES ==> pages[c] == 0
      modifies pages
      ensures forall c :: 0 <= c < CLASSES ==> if 0 < c <= LAST then Paged(pages[c], SizeAt(c)) else pages[c] == 0
    {
      hide SizeAt, ShiftOf, BaseOf;
      for cl := 1 to next
        invariant forall c :: 0 <= c < CLASSES ==> if 0 < c < cl then Paged(pages[c], SizeAt(c)) else pages[c] == 0
      {
        Grows(0, cl);
        NoSize();
        pages[cl] := SizeClasses.ClassPages(sizes[cl]);
      }
    }

    method FillMoves()
      requires Laid() && moves[0] == 0 && Sizes(LAST + 1)
      modifies moves
      ensures forall c :: 0 <= c < CLASSES ==> moves[c] == NumMoveSize(sizes[c])
    {
      hide SizeAt, NumMoveSize;
      assert NumMoveSize(0) == 0;
      for cl := 1 to CLASSES
        invariant forall c :: 0 <= c < cl ==> moves[c] == NumMoveSize(sizes[c])
      {
        moves[cl] := NumMoveSize(sizes[cl]);
      }
    }

    /** The sizes are a table as do_malloc and do_memalign need it. */
    lemma IsTable()
      requires Filled()
      ensures SizeClasses.Table(sizes[..], LAST)
    {
      forall c, d | 0 < c < d <= LAST ensures sizes[c] < sizes[d] { Grows(c, d); }
      forall c | 0 < c <= LAST
        ensures 0 < sizes[c] && sizes[c] % SizeClasses.ALIGNMENT == 0
      {
        Grows(0, c); Grows(c, LAST + 1);
      }
    }

    /** Objects of every class that is used move in batches. */
    lemma UsedClassesMove()
      requires Filled()
      ensures sizes.Length == moves.Length && forall c :: 0 <= c < sizes.Length && sizes[c] > 0 ==> moves[c] > 0
    {
      hide SizeAt, NumMoveSize;
    }

    /** The program's own configuration. */
    ghost predicate Configures(cfg: Config)
      reads base, shift, sizes, pages, moves
    {
      && Filled() && cfg.classes == CLASSES && cfg.move == moves[..] && cfg.size == sizes[..] && cfg.pages == pages[..]
      && |cfg.cap| == CLASSES
      && forall c :: 0 <= c < CLASSES ==> cfg.cap[c] == if sizes[c] == 0 then 0 else pages[c] * PAGE_SIZE / sizes[c]
    }

    /** It is one that everything about the central free lists applies to. */
    lemma IsConfig(cfg: Config)
      requires Configures(cfg)
      ensures cfg.Valid()
    {
      hide SizeAt, NumMoveSize;
      NoSize();
      forall c | 0 <= c < CLASSES
        ensures if sizes[c] == 0 then pages[c] == 0 && cfg.cap[c] == 0
                else moves[c] > 0 && pages[c] > 0 && cfg.cap[c] > 0 && CapOf(pages[c], sizes[c], cfg.cap[c])
      {
        if 0 < c <= LAST { Grows(0, c); }
      }
    }

    /** The bit fields of a span hold what is counted: eight bits for the class and eleven for refcount. */
    lemma FieldsHold(cfg: Config, s: State, sp: nat)
      requires Configures(cfg) && Inv(cfg, s) && sp in s.spans
      ensures 0 <= s.spans[sp].refcount < Power(11) && s.spans[sp].cl < Power(8)
    {
      hide SizeAt, Inv, Filled, Power;
      Powers();
      RefcountCounts(cfg, s, sp);
      var c := s.spans[sp].cl;
      CapIs(cfg, c);
    }

    lemma CapIs(cfg: Config, c: nat)
      requires Configures(cfg) && c < CLASSES
      ensures cfg.cap[c] <= 520
    {
      hide SizeAt;
      NoSize();
      if 0 < c <= LAST {
        Smallest(c);
        FewObjects(pages[c], sizes[c]);
      }
    }
  }

  lemma Smallest(c: nat)
    requires c > 0
    ensures SizeAt(c) >= 8
  {
  }

  /** As few pages are taken as waste little, a span has few objects. */
  lemma FewObjects(pages: nat, size: nat)
    requires Paged(pages, size) && size >= 8
    ensures pages * PAGE_SIZE / size <= 520
  {
    var bytes := pages * PAGE_SIZE;
    if pages > 1 { assert SizeClasses.Wasteful((pages - 1) * PAGE_SIZE, size); }
    assert bytes < 8 * size + PAGE_SIZE + 1;
    if bytes / size > 520 {
      Euclid(bytes, size);
      Scale(521, bytes / size, size);
    }
  }

  /** No pages for a size waste less, and these are enough. */
  ghost predicate Paged(pages: nat, size: nat) {
    && size > 0 && pages > 0 && !SizeClasses.Wasteful(pages * PAGE_SIZE, size) && pages * PAGE_SIZE / size >= 1
    && forall n :: 0 < n < pages ==> SizeClasses.Wasteful(n * PAGE_SIZE, size)
  }

  /** No size counts as one byte. */
  function Wanted(size: nat): (n: nat)
    ensures n > 0
  {
    if size == 0 then 1 else size
  }

  lemma NoSize()
    ensures SizeAt(0) == 0 && NumMoveSize(0) == 0
  {
  }

  lemma Firsts()
    ensures SizeAt(1) == SizeClasses.ALIGNMENT && ShiftOf(ALIGN_SHIFT) == ALIGN_SHIFT
    ensures forall k :: 0 <= k < ALIGN_SHIFT ==> BaseOf(k) == 1 && ShiftOf(k) == ALIGN_SHIFT
  {
  }

  lemma Below(c: nat)
    requires 0 < c <= LAST + 1 && SizeAt(c) <= SizeClasses.MAX_SIZE
    ensures c <= LAST && 0 < SizeAt(c) < WIDTH
  {
  }

  lemma NextLg(next: nat, last: int, lg: nat)
    requires 0 < next <= LAST && IsLg(SizeAt(next), lg)
    requires next > 1 ==> last >= ALIGN_SHIFT && IsLg(SizeAt(next - 1), last)
    ensures if next == 1 then lg == ALIGN_SHIFT else last <= lg <= last + 1
  {
    if next == 1 {
      Powers();
      OneLg(8, lg, 3);
    } else {
      LgStep(next - 1, last, lg);
    }
  }

  lemma NextShift(last: int, lg: nat)
    requires if last == -1 then lg == ALIGN_SHIFT else ALIGN_SHIFT <= last && lg == last + 1
    ensures var before := ShiftOf(if last == -1 then ALIGN_SHIFT else last);
            ShiftOf(lg) == if lg >= 7 && before < 8 then before + 1 else before
  {
  }

  lemma Above(c: nat)
    requires 0 < c <= LAST + 1 && SizeAt(c) > SizeClasses.MAX_SIZE
    ensures c == LAST + 1
  {
  }

  lemma Ends(last: nat)
    requires IsLg(SizeAt(LAST), last)
    ensures last == 15
  {
    Powers();
    OneLg(SizeAt(LAST), last, 15);
  }
}
