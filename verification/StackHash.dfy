/** The hash that both profilers compute of a stack. */
module StackHash {
  import opened Arith

  /** Rotate by a byte, then add, in 32 bits. */
  function Hash(stack: seq<nat>): (h: nat)
    ensures h < WIDTH
  {
    if stack == [] then 0
    else
      var h := Hash(stack[..|stack| - 1]);
      ((h * 256) % WIDTH + h / 0x100_0000 + stack[|stack| - 1] * 41) % WIDTH
  }

  /**
   One more frame: the bytes of the hash move up by one place, the highest one comes round
   to the lowest place, and the address is added 31, 7 and 3 times; the sum has 32 bits.
   */
  lemma HashNext(stack: seq<nat>, pc: nat, d0: nat, d1: nat, d2: nat, d3: nat)
    requires d0 < 0x100 && d1 < 0x100 && d2 < 0x100 && d3 < 0x100
    requires Hash(stack) == d0 + 0x100 * d1 + 0x1_0000 * d2 + 0x100_0000 * d3
    ensures Hash([]) == 0
    ensures Hash(stack + [pc])
         == (d3 + 0x100 * d0 + 0x1_0000 * d1 + 0x100_0000 * d2 + 31 * pc + 7 * pc + 3 * pc) % WIDTH
  {
    var h := Hash(stack);
    assert (stack + [pc])[..|stack|] == stack;
    var low := d0 + 0x100 * d1 + 0x1_0000 * d2;
    assert h / 0x100_0000 == d3;
    assert h * 0x100 == 0x100 * low + d3 * WIDTH;
    ModAdd(0x100 * low, d3, WIDTH);
    Small(0x100 * low, WIDTH);
  }
}
