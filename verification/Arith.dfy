/** Word and page size, and division by a variable, for the alignment arithmetic of the allocator. */
module Arith {
  /** Words have 32 bits, or 64 on wider machines; an int always has 32. */
  const WIDTH := 0x1_0000_0000
  const WIDE := 0x1_0000_0000_0000_0000
  const INT_MAX := 0x7FFF_FFFF

  predicate IsWidth(words: nat) { words == WIDTH || words == WIDE }

  /** A word becomes an int: its low 32 bits, the highest of which is a sign. */
  function ToInt(x: int): (i: int)
    ensures -0x8000_0000 <= i <= INT_MAX && (i == x <==> -0x8000_0000 <= x <= INT_MAX)
    ensures (x - i) % WIDTH == 0
  {
    var low := x % WIDTH;
    if low <= INT_MAX then low else low - WIDTH
  }

  /** An int becomes a word again. */
  function ToWord(i: int, words: nat): (x: nat)
    requires IsWidth(words) && -0x8000_0000 <= i <= INT_MAX
    ensures i >= 0 ==> x == i
    ensures i < 0 ==> x > INT_MAX && x - i == words
  {
    if i < 0 then i + words else i
  }

  /** kPageSize */
  const PAGE_SIZE: nat := 4096

  lemma MulAtLeast(k: int, a: int)
    requires a > 0 && k >= 1
    ensures k * a >= a
  {
  }

  /** A multiple of a leaves no remainder, and nothing else does. */
  lemma MultipleMod(k: int, a: int)
    requires a > 0
    ensures (k * a) % a == 0 && (k * a) / a == k
  {
    var x := k * a;
    var q, r := x / a, x % a;
    assert x == q * a + r;
    assert (k - q) * a == r;
    if k - q >= 1 { MulAtLeast(k - q, a); }
    if q - k >= 1 { MulAtLeast(q - k, a); }
  }

  lemma MultipleOfMultiple(k: int, b: int, a: int)
    requires a > 0 && b % a == 0
    ensures (k * b) % a == 0
  {
    ModMultiple(b, a);
    assert k * b == k * ((b / a) * a) == (k * (b / a)) * a;
    MultipleMod(k * (b / a), a);
  }

  lemma ModMultiple(x: int, a: int)
    requires a > 0 && x % a == 0
    ensures x == (x / a) * a
  {
  }

  /** Adding a multiple of a keeps the remainder. */
  lemma ModAdd(x: int, k: int, a: int)
    requires a > 0
    ensures (x + k * a) % a == x % a && (x + k * a) / a == x / a + k
  {
    var y := x + k * a;
    var q, r := y / a, y % a;
    assert (x / a + k) * a == (x / a) * a + k * a;
    assert x == (x / a) * a + x % a && y == q * a + r;
    assert (x / a + k - q) * a == r - x % a;
    if x / a + k - q >= 1 { MulAtLeast(x / a + k - q, a); }
    if q - x / a - k >= 1 { MulAtLeast(q - x / a - k, a); }
  }

  lemma ProductNonneg(x: int, y: int)
    requires x >= 0 && y >= 0
    ensures x * y >= 0
  {
  }

  lemma Scale(a: nat, b: nat, c: nat)
    requires a <= b
    ensures a * c <= b * c
  {
  }

  lemma Small(x: nat, a: nat)
    requires x < a
    ensures x / a == 0 && x % a == x
  {
  }

  lemma Euclid(x: nat, a: nat)
    requires a > 0
    ensures x == x / a * a + x % a && 0 <= x % a < a && x / a >= 0 && 0 <= x / a * a <= x < (x / a + 1) * a
  {
    assert x == x / a * a + x % a;
    assert (x / a + 1) * a == x / a * a + a;
    assert x / a >= 0;
    ProductNonneg(x / a, a);
  }

  /** 2 to the k. */
  function Power(k: nat): (p: nat)
    ensures p > 0
  {
    if k == 0 then 1 else 2 * Power(k - 1)
  }

  predicate PowerOfTwo(n: nat) {
    n == 1 || (n > 1 && n % 2 == 0 && PowerOfTwo(n / 2))
  }

  /** A power of two divides every larger one. */
  lemma {:induction false} PowerDivides(a: nat, b: nat)
    requires PowerOfTwo(a) && PowerOfTwo(b) && a <= b
    ensures b % a == 0
    decreases b
  {
    if a == b {
      MultipleMod(1, a);
    } else if a == 1 {
    } else {
      PowerDivides(a / 2, b / 2);
      var k := (b / 2) / (a / 2);
      ModMultiple(b / 2, a / 2);
      assert b == 2 * (k * (a / 2)) == k * (2 * (a / 2)) == k * a;
      MultipleMod(k, a);
    }
  }

  /** A page is a power of two. */
  lemma PageIsPower()
    ensures PowerOfTwo(PAGE_SIZE)
  {
  }

  lemma Distribute(a: int, b: int, c: int)
    ensures a * (b + c) == a * b + a * c
  {
  }
}
