/** The memory of the heap profiler: small pieces from large blocks. */
module Arena {
  import opened Basics
  import opened Arith
  import opened SystemAlloc

  const BLOCK_SIZE := 0x10_0000
  const MAX_BLOCKS := 1024
  const ALIGNMENT := 8

  class HeapProfilerMemory {
    const os: Os
    /** What is recorded of blocks, by number, and how many of them count. */
    var blocks: map<nat, (nat, nat)>
    var nblocks: nat
    var current: nat
    var pos: nat
    /** The pieces handed out. */
    ghost var pieces: seq<(nat, nat)>

    /** Pieces are mapped and disjoint, and none reaches into the unused part of the current block. */
    ghost predicate Valid()
      reads this, os
    {
      && os.Valid() && os.pageSize % ALIGNMENT == 0 && nblocks == 0
      && pos <= BLOCK_SIZE && pos % ALIGNMENT == 0 && current % ALIGNMENT == 0
      && Range(current + pos, BLOCK_SIZE - pos) <= os.mapped
      && (forall i :: 0 <= i < |pieces| ==> Range(pieces[i].0, pieces[i].1) <= os.mapped)
      && (forall i :: 0 <= i < |pieces| ==> Range(pieces[i].0, pieces[i].1) !! Range(current + pos, BLOCK_SIZE - pos))
      && (forall i, j :: 0 <= i < j < |pieces| ==> Range(pieces[i].0, pieces[i].1) !! Range(pieces[j].0, pieces[j].1))
    }

    /** Init */
    constructor (os: Os)
      requires os.Valid() && os.pageSize % ALIGNMENT == 0
      ensures Valid() && this.os == os && pieces == []
    {
      this.os, this.blocks, this.nblocks, this.current, this.pos := os, map[], 0, 0, BLOCK_SIZE;
      pieces := [];
    }

    /** AllocBlock: whole pages; None where the program aborts. The count of blocks stays as it is. */
    method AllocBlock(bytes: nat) returns (r: Option<nat>)
      requires os.Valid() && os.pageSize % ALIGNMENT == 0 && bytes < WIDTH
      modifies this`blocks, os
      ensures os.Valid() && old(os.mapped) <= os.mapped
      ensures r.Some? ==>
                && r.value % ALIGNMENT == 0
                && Range(r.value, bytes) !! old(os.mapped) && Range(r.value, bytes) <= os.mapped
      ensures r.Some? <==> nblocks != MAX_BLOCKS && old(os.CanMap(RoundUp(bytes, os.pageSize)))
      ensures r.Some? ==> blocks == old(blocks)[nblocks := (r.value, RoundUp(bytes, os.pageSize))]
    {
      hide PowerOfTwo;
      RoundedUp(bytes, os.pageSize);
      var size := RoundUp(bytes, os.pageSize);
      if nblocks == MAX_BLOCKS {
        return None;
      }
      r := os.Mmap(size);
      if r.Some? {
        Aligned(r.value, os.pageSize);
        blocks := blocks[nblocks := (r.value, size)];
      }
    }

    lemma Aligned(p: nat, page: nat)
      requires page > 0 && p % page == 0 && page % ALIGNMENT == 0
      ensures p % ALIGNMENT == 0
    {
      ModMultiple(p, page);
      MultipleOfMultiple(p / page, page, ALIGNMENT);
    }

    /** Where the next piece starts. */
    lemma Advance(bytes: nat)
      requires pos % ALIGNMENT == 0 && current % ALIGNMENT == 0 && pos + bytes <= BLOCK_SIZE
      ensures var next := (pos + bytes + ALIGNMENT - 1) / ALIGNMENT * ALIGNMENT;
              pos + bytes <= next <= BLOCK_SIZE && next % ALIGNMENT == 0 && (current + pos) % ALIGNMENT == 0
    {
      NextEighth(pos + bytes);
      ModMultiple(pos, ALIGNMENT);
      ModAdd(current, pos / ALIGNMENT, ALIGNMENT);
    }

    lemma NextEighth(x: nat)
      requires x <= BLOCK_SIZE
      ensures var next := (x + ALIGNMENT - 1) / ALIGNMENT * ALIGNMENT; x <= next <= BLOCK_SIZE && next % ALIGNMENT == 0
    {
      var q := (x + ALIGNMENT - 1) / ALIGNMENT;
      assert q <= BLOCK_SIZE / ALIGNMENT;
      MultipleMod(q, ALIGNMENT);
    }

    /** A piece of the current block, which has room for it. */
    method Cut(bytes: nat) returns (p: nat)
      requires Valid() && pos + bytes <= BLOCK_SIZE
      modifies this`pos, this`pieces
      ensures Valid() && pieces == old(pieces) + [(p, bytes)] && p % ALIGNMENT == 0 && p == current + old(pos)
    {
      hide PowerOfTwo, Known, Os.Valid;
      Advance(bytes);
      p := current + pos;
      pos := (pos + bytes + ALIGNMENT - 1) / ALIGNMENT * ALIGNMENT;
      pieces := pieces + [(p, bytes)];
    }

    /** Alloc: an aligned piece of mapped memory that no earlier piece has a byte of; None where the program aborts. */
    method Alloc(bytes: nat) returns (r: Option<nat>)
      requires Valid() && bytes < WIDTH
      modifies this, os
      ensures r.Some? ==> Valid() && pieces == old(pieces) + [(r.value, bytes)] && r.value % ALIGNMENT == 0
      ensures bytes >= 0x2_0000 ==> (r.Some? <==> old(os.CanMap(RoundUp(bytes, os.pageSize))))
      ensures bytes < 0x2_0000 && old(pos) + bytes <= 0x10_0000 ==>
                r == Some(old(current + pos)) && os.asked == old(os.asked) && current == old(current)
      ensures bytes < 0x2_0000 && old(pos) + bytes > 0x10_0000 ==>
                (r.Some? <==> old(os.CanMap(RoundUp(0x10_0000, os.pageSize))))
    {
      hide PowerOfTwo, Known, Os.Valid, Os.CanMap, RoundUp;
      if bytes >= BLOCK_SIZE / 8 {
        r := AllocBlock(bytes);
        if r.Some? { pieces := pieces + [(r.value, bytes)]; }
        return;
      }
      if pos + bytes > BLOCK_SIZE {
        var block := AllocBlock(BLOCK_SIZE);
        if block.None? {
          return None;
        }
        current, pos := block.value, 0;
      }
      var p := Cut(bytes);
      r := Some(p);
    }

    /** Clear unmaps the blocks that were counted. */
    method Clear()
      requires os.Valid() && forall i :: 0 <= i < nblocks ==> i in blocks
      modifies this`nblocks, this`current, this`pos, os
      ensures os.Valid() && nblocks == 0 && current == 0 && pos == BLOCK_SIZE
      ensures forall a :: a in os.mapped <==> a in old(os.mapped) && !Counted(blocks, old(nblocks), a)
    {
      for i := 0 to nblocks
        invariant os.Valid() && nblocks == old(nblocks)
        invariant forall a :: a in os.mapped <==> a in old(os.mapped) && !Counted(blocks, i, a)
      {
        os.Munmap(blocks[i].0, blocks[i].1);
        forall a ensures Counted(blocks, i + 1, a) <==> Counted(blocks, i, a) || a in Range(blocks[i].0, blocks[i].1) {
          CountedNext(blocks, i, a);
        }
      }
      nblocks, current, pos := 0, 0, BLOCK_SIZE;
    }

    /** As no block is ever counted, Clear gives nothing back: every piece stays mapped. */
    method ClearKeepsAll()
      requires Valid()
      modifies this`nblocks, this`current, this`pos, os
      ensures Valid() && os.mapped == old(os.mapped)
    {
      Clear();
    }
  }

  /** Byte a is in one of the first n blocks. */
  ghost predicate Counted(blocks: map<nat, (nat, nat)>, n: nat, a: int) {
    exists i :: 0 <= i < n && i in blocks && a in Range(blocks[i].0, blocks[i].1)
  }

  lemma CountedNext(blocks: map<nat, (nat, nat)>, i: nat, a: int)
    requires i in blocks
    ensures Counted(blocks, i + 1, a) <==> Counted(blocks, i, a) || a in Range(blocks[i].0, blocks[i].1)
  {
    if Counted(blocks, i, a) {
      var j :| 0 <= j < i && j in blocks && a in Range(blocks[j].0, blocks[j].1);
      assert 0 <= j < i + 1;
    }
  }
}
