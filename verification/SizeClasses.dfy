/** How long the spans of a size class are, and how a new span is cut into objects. */
module SizeClasses {
  import opened Arith
  import opened FreeObjects

  ghost predicate Wasteful(bytes: nat, s: nat)
    requires s > 0
  {
    bytes % s > bytes / 8
  }

  /**
   The page-count loop of InitSizeClasses for objects of s bytes: the fewest pages whose
   tail, what is left behind the last whole object, is at most an eighth of them.
   */
  method ClassPages(s: nat) returns (pages: nat)
    requires s > 0
    ensures pages > 0 && !Wasteful(pages * PAGE_SIZE, s)
    ensures forall n :: 0 < n < pages ==> Wasteful(n * PAGE_SIZE, s)
    ensures pages * PAGE_SIZE / s >= 1
  {
    var psize := PAGE_SIZE;
    ghost var n := 1;
    while psize % s > psize / 8
      invariant n > 0 && psize == n * PAGE_SIZE
      invariant forall m :: 0 < m < n ==> Wasteful(m * PAGE_SIZE, s)
      decreases 8 * s + PAGE_SIZE - psize
    {
      assert Wasteful(n * PAGE_SIZE, s);
      psize := psize + PAGE_SIZE;
      n := n + 1;
    }
    pages := psize / PAGE_SIZE;
    HoldsOne(psize, s);
  }

  lemma HoldsOne(bytes: nat, s: nat)
    requires s > 0 && bytes > 0 && !Wasteful(bytes, s)
    ensures bytes / s >= 1
  {
    if bytes < s {
      Quotient(bytes, s, 0);
    }
  }

  /** q is the quotient when q multiples of s fit and one more does not. */
  lemma Quotient(bytes: nat, s: nat, q: nat)
    requires s > 0 && q * s <= bytes < (q + 1) * s
    ensures bytes / s == q && bytes % s == bytes - q * s
  {
    ModAdd(bytes - q * s, q, s);
    var r := bytes - q * s;
    assert 0 <= r < s;
  }

  /** The address of object i. */
  function Place(base: nat, s: nat, i: nat): nat { base + i * s }

  /** The addresses of objects i up to n. */
  ghost function Places(base: nat, s: nat, i: nat, n: nat): (xs: seq<nat>)
    requires i <= n
    ensures |xs| == n - i && forall j :: 0 <= j < n - i ==> xs[j] == Place(base, s, i + j)
    decreases n - i
  {
    if i == n then [] else [Place(base, s, i)] + Places(base, s, i + 1, n)
  }

  ghost predicate Step(at: map<nat, nat>, base: nat, s: nat, i: nat) {
    Place(base, s, i) in at && at[Place(base, s, i)] == Place(base, s, i + 1)
  }

  lemma {:induction false} StepsMakePath(at: map<nat, nat>, base: nat, s: nat, i: nat, n: nat)
    requires i < n && base > 0
    requires forall j :: i <= j < n - 1 ==> Step(at, base, s, j)
    requires Place(base, s, n - 1) in at && at[Place(base, s, n - 1)] == 0
    ensures Path(at, Place(base, s, i), Places(base, s, i, n))
    decreases n - i
  {
    if i < n - 1 {
      StepsMakePath(at, base, s, i + 1, n);
      assert Step(at, base, s, i);
    } else {
      assert Places(base, s, i, n)[1..] == [];
    }
  }

  lemma Apart(base: nat, s: nat, i: nat, j: nat)
    requires s > 0 && i < j
    ensures Place(base, s, i) + s <= Place(base, s, j)
  {
    MulAtLeast(j - i, s);
    assert (j - i) * s == j * s - i * s;
  }

  lemma AllFit(base: nat, s: nat, n: nat)
    requires s > 0
    ensures forall i, j :: 0 <= i < j < n ==> Place(base, s, i) + s <= Place(base, s, j)
    ensures forall i :: 0 <= i < n ==> base <= Place(base, s, i) && Place(base, s, i) + s <= Place(base, s, n)
  {
    forall i, j | 0 <= i < j <= n ensures Place(base, s, i) + s <= Place(base, s, j) { Apart(base, s, i, j); }
    forall i | 0 <= i < n ensures base <= Place(base, s, i) {}
  }

  /**
   The loop of Populate: `bytes` bytes from base become a list of objects of s bytes each,
   as many as fit, one behind the other, none reaching past the end.
   */
  method Carve(words: Words, base: nat, bytes: nat, s: nat) returns (head: nat, num: nat)
    requires s > 0 && base > 0 && bytes >= s
    modifies words
    ensures num == bytes / s && num > 0
    ensures Path(words.at, head, Places(base, s, 0, num))
    ensures forall i, j :: 0 <= i < j < num ==> Place(base, s, i) + s <= Place(base, s, j)
    ensures forall i :: 0 <= i < num ==> base <= Place(base, s, i) && Place(base, s, i) + s <= base + bytes
    ensures forall x :: x < base || x >= base + bytes ==>
              (x in words.at <==> x in old(words.at)) && (x in words.at ==> words.at[x] == old(words.at)[x])
  {
    hide Place, Path;
    var ptr, limit := base, base + bytes;
    var tail := 0;
    head, num := 0, 0;
    NextPlace(base, s, 0);
    while ptr + s <= limit
      invariant ptr == Place(base, s, num) && ptr <= limit
      invariant num == 0 ==> tail == 0 && ptr == base
      invariant num > 0 ==> head == base && tail == Place(base, s, num - 1) && tail + s == ptr && base <= tail
      invariant forall j :: 0 <= j < num - 1 ==> Step(words.at, base, s, j)
      invariant forall x :: x < base || x >= base + bytes ==>
                  (x in words.at <==> x in old(words.at)) && (x in words.at ==> words.at[x] == old(words.at)[x])
      decreases limit - ptr
    {
      if num == 0 {
        head := ptr;
      } else {
        StepsStay(words.at, words.at[tail := ptr], base, s, num - 1, ptr);
        words.at := words.at[tail := ptr];
      }
      tail := ptr;
      NextPlace(base, s, num);
      ptr := ptr + s;
      num := num + 1;
    }
    StepsStay(words.at, words.at[tail := 0], base, s, num - 1, 0);
    words.at := words.at[tail := 0];
    NextPlace(base, s, num);
    Quotient(bytes, s, num);
    NextPlace(base, s, 0);
    StepsMakePath(words.at, base, s, 0, num);
    AllFit(base, s, num);
  }

  lemma NextPlace(base: nat, s: nat, n: nat)
    ensures Place(base, s, 0) == base && Place(base, s, n + 1) == Place(base, s, n) + s
    ensures Place(base, s, n) == base + n * s
    ensures (n + 1) * s == n * s + s
  {
  }

  /** Writing the word of object n leaves the links before it alone. */
  lemma StepsStay(at: map<nat, nat>, at': map<nat, nat>, base: nat, s: nat, n: nat, w: nat)
    requires s > 0 && at' == at[Place(base, s, n) := w] && forall j :: 0 <= j < n ==> Step(at, base, s, j)
    ensures forall j :: 0 <= j < n ==> Step(at', base, s, j)
  {
    forall j | 0 <= j < n ensures Step(at', base, s, j) {
      Apart(base, s, j, n);
      assert Step(at, base, s, j);
    }
  }

  /** kMaxSize */
  const MAX_SIZE := 8 * PAGE_SIZE

  /** kAlignment */
  const ALIGNMENT := 8

  /**
   What InitSizeClasses leaves in class_to_size, having checked it: the sizes of classes 1
   to `last` are multiples of ALIGNMENT that grow up to MAX_SIZE, and no other class is used.
   */
  ghost predicate Table(sizes: seq<nat>, last: nat) {
    && 0 < last < |sizes| && sizes[last] == MAX_SIZE
    && (forall c, d :: 0 < c < d <= last ==> sizes[c] < sizes[d])
    && (forall c :: 0 < c <= last ==> 0 < sizes[c] && sizes[c] % ALIGNMENT == 0)
    && (forall c :: 0 <= c < |sizes| && (c == 0 || c > last) ==> sizes[c] == 0)
  }

  /**
   The class search of do_memalign, from the class of the size asked for: the first class
   whose objects are a multiple of the alignment long. It stops at a class that is used, so
   the objects are long enough.
   */
  method AlignedClass(sizes: seq<nat>, ghost last: nat, cl: nat, align: nat) returns (c: nat)
    requires Table(sizes, last) && 0 < cl <= last && PowerOfTwo(align) && align < PAGE_SIZE
    ensures cl <= c <= last && sizes[c] % align == 0 && sizes[c] >= sizes[cl]
    ensures forall d :: cl <= d < c ==> sizes[d] % align != 0
  {
    LargestIsAligned(align);
    c := cl;
    while c < |sizes| && sizes[c] % align != 0
      invariant cl <= c <= last
      invariant forall d :: cl <= d < c ==> sizes[d] % align != 0
    {
      c := c + 1;
    }
  }

  /** MAX_SIZE is a multiple of every alignment below a page. */
  lemma LargestIsAligned(align: nat)
    requires PowerOfTwo(align) && align < PAGE_SIZE
    ensures MAX_SIZE % align == 0
  {
    PageIsPower();
    PowerDivides(align, PAGE_SIZE);
    MultipleOfMultiple(8, PAGE_SIZE, align);
  }

  /** Every object of such a class is aligned, wherever its span is. */
  lemma ObjectsAligned(page: nat, s: nat, i: nat, align: nat)
    requires PowerOfTwo(align) && align < PAGE_SIZE && s % align == 0
    ensures Place(page * PAGE_SIZE, s, i) % align == 0
  {
    PageIsPower();
    PowerDivides(align, PAGE_SIZE);
    MultipleOfMultiple(page, PAGE_SIZE, align);
    MultipleOfMultiple(i, s, align);
    ModMultiple(i * s, align);
    ModAdd(page * PAGE_SIZE, (i * s) / align, align);
  }
}
