/**
  The bitmap buddy allocator of src/bitmap_buddy_allocator.c.  The managed
  memory is split into a binary tree of blocks, `numLevels + 1` levels deep;
  the block of node i at level l is `startIdx(i)` blocks of
  `minBucketSize << (numLevels - l)` bytes into the memory.  The bitmap holds
  one bit per node.  A granted block is modelled as its tree node together
  with the offset of the pointer handed to the caller; the memory itself and
  the two metadata ints written in front of the block are not modelled.
*/
module BitmapBuddy {
  import opened Text
  import opened Bits
  import opened Bitmaps
  import opened BuddyTree

  /** `BITMAP_BUDDY_MAX_LEVELS`. */
  const MAX_LEVELS: nat := 20

  /** The metadata in front of every granted block: two ints, `2 * sizeof(int)` bytes. */
  const METADATA: nat := 8

  /**
    A granted block: its tree node (the first metadata int), the offset from
    the start of the managed memory of the pointer returned to the caller,
    and the size the caller asked for (the second metadata int).
  */
  datatype Grant = Grant(index: nat, offset: nat, size: nat)

  // ---------------------------------------------------------------------
  // Sizes

  /** `m >> k`: k halvings, each rounding down. */
  function Halved(m: nat, k: nat): nat {
    if k == 0 then m else Halved(m, k - 1) / 2
  }

  /** Shifting right and then back left never gives more than the start. */
  lemma {:induction false} HalvedScaledBack(m: nat, k: nat)
    ensures Halved(m, k) * Pow2(k) <= m
    decreases k
  {
    if k > 0 {
      HalvedScaledBack(m, k - 1);
      var h := Halved(m, k - 1);
      assert (h / 2) * 2 <= h;
      calc {
        Halved(m, k) * Pow2(k);
      ==
        (h / 2) * 2 * Pow2(k - 1);
      <= { MulMonotone((h / 2) * 2, h, Pow2(k - 1)); }
        h * Pow2(k - 1);
      }
    }
  }

  /** The size of a block at `level`: `min_bucket_size << (num_levels - level)`. */
  function BlockBytes(memorySize: nat, numLevels: nat, level: nat): nat
    requires level <= numLevels
  {
    Halved(memorySize, numLevels) * Pow2(numLevels - level)
  }

  /**
    Block `start` of a level (there are 2^level of them) ends within the
    managed memory.
  */
  lemma BlockInMemory(memorySize: nat, numLevels: nat, level: nat, start: nat)
    requires level <= numLevels && start < Pow2(level)
    ensures start * BlockBytes(memorySize, numLevels, level) + BlockBytes(memorySize, numLevels, level) <= memorySize
  {
    var mb := Halved(memorySize, numLevels);
    Pow2Add(level, numLevels - level);
    HalvedScaledBack(memorySize, numLevels);
    ScaledBlock(start, Pow2(level), Pow2(numLevels - level), mb, memorySize);
  }

  lemma ScaledBlock(s: nat, p: nat, q: nat, mb: nat, m: nat)
    requires s < p && mb * (p * q) <= m
    ensures s * (mb * q) + mb * q <= m
  {
    MulMonotone(s + 1, p, mb * q);
    assert (s + 1) * (mb * q) == s * (mb * q) + mb * q;
    assert p * (mb * q) == mb * (p * q);
  }

  /** Deeper levels have smaller blocks. */
  lemma BlockBytesMonotone(memorySize: nat, numLevels: nat, l1: nat, l2: nat)
    requires l1 <= l2 <= numLevels
    ensures BlockBytes(memorySize, numLevels, l2) <= BlockBytes(memorySize, numLevels, l1)
  {
    var p1, p2 := Pow2(numLevels - l1), Pow2(numLevels - l2);
    Pow2Monotone(numLevels - l2, numLevels - l1);
    MulMonotone(p2, p1, Halved(memorySize, numLevels));
  }

  // ---------------------------------------------------------------------
  // Choosing the level

  /**
    The level at which the halving loop of `malloc` stops: starting from the
    whole memory, every halving it made left at least `realSize` bytes, and
    it stopped at the last level or because one more halving would not.
  */
  predicate HalvingStops(memorySize: nat, numLevels: nat, realSize: nat, level: nat) {
    && level <= numLevels
    && (forall l :: 0 < l <= level ==> Halved(memorySize, l) >= realSize)
    && (level == numLevels || Halved(memorySize, level + 1) < realSize)
  }

  /** The halving loop stops at one level only. */
  lemma HalvingStopsUnique(memorySize: nat, numLevels: nat, realSize: nat, l1: nat, l2: nat)
    requires HalvingStops(memorySize, numLevels, realSize, l1)
    requires HalvingStops(memorySize, numLevels, realSize, l2)
    ensures l1 == l2
  {
  }

  /** The loop of `malloc`: halve the block size while half still holds `realSize` bytes and levels remain. */
  method ChooseLevel(memorySize: nat, numLevels: nat, realSize: nat) returns (level: nat)
    ensures HalvingStops(memorySize, numLevels, realSize, level)
  {
    level := 0;
    var blockSize := memorySize;
    while blockSize / 2 >= realSize && level < numLevels
      invariant level <= numLevels && blockSize == Halved(memorySize, level)
      invariant forall l :: 0 < l <= level ==> Halved(memorySize, l) >= realSize
      decreases numLevels - level
    {
      blockSize := blockSize / 2;
      level := level + 1;
    }
  }

  /**
    Without any check against the block actually granted, a request larger
    than the whole memory still stops the loop at level 0, whose block is
    the whole memory: 5000 bytes asked of a 2000-byte allocator with four
    levels get a 2000-byte block.
  */
  lemma OversizeGranted()
    ensures HalvingStops(2000, 4, 5000 + METADATA, 0)
    ensures BlockBytes(2000, 4, 0) == 2000 < 5000 + METADATA
  {
    assert Halved(2000, 4) == 125;
  }

  /**
    The loop halves the memory size, but the block granted at a level is
    `(memorySize >> numLevels) << (numLevels - level)`, which is smaller when
    the memory size is not a multiple of 2^numLevels: 117 bytes (125 with
    the metadata) asked of a 1000-byte allocator with four levels stop the
    loop at level 3, whose blocks have 124 bytes.
  */
  lemma RoundedBlockShort()
    ensures HalvingStops(1000, 4, 117 + METADATA, 3)
    ensures BlockBytes(1000, 4, 3) == 124 < 117 + METADATA
  {
    assert Halved(1000, 1) == 500 && Halved(1000, 2) == 250 && Halved(1000, 3) == 125;
    assert Halved(1000, 4) == 62;
  }

  /**
    The benchmark generator's own configuration, 16276 bytes on 10 levels,
    meets the short block: requests of 113 to 119 bytes (121 to 127 with the
    metadata) stop the loop at level 7, whose blocks have 120 bytes.  The
    generator draws such sizes around its base size 124.
  */
  lemma GeneratorConfigBlockShort(size: nat)
    requires 113 <= size <= 119
    ensures HalvingStops(16276, 10, size + METADATA, 7)
    ensures BlockBytes(16276, 10, 7) == 120 < size + METADATA
  {
    assert Halved(16276, 1) == 8138 && Halved(16276, 2) == 4069 && Halved(16276, 3) == 2034;
    assert Halved(16276, 4) == 1017 && Halved(16276, 5) == 508 && Halved(16276, 6) == 254;
    assert Halved(16276, 7) == 127 && Halved(16276, 8) == 63 && Halved(16276, 10) == 15;
  }

  /**
    The level choice the loop is meant to make: the deepest level whose
    blocks hold `realSize` bytes, or none when even the whole-memory block
    is too small.  The block granted then always holds the request, and it
    is the smallest block that does.
  */
  function FitLevel(memorySize: nat, numLevels: nat, realSize: nat): (r: Option<nat>)
    ensures r.None? <==> BlockBytes(memorySize, numLevels, 0) < realSize
    ensures r.Some? ==> && r.value <= numLevels
                        && BlockBytes(memorySize, numLevels, r.value) >= realSize
                        && forall l :: r.value < l <= numLevels ==> BlockBytes(memorySize, numLevels, l) < realSize
  {
    if BlockBytes(memorySize, numLevels, 0) < realSize then None
    else Some(DeepestFit(memorySize, numLevels, realSize, 0))
  }

  function DeepestFit(memorySize: nat, numLevels: nat, realSize: nat, level: nat): (r: nat)
    requires level <= numLevels && BlockBytes(memorySize, numLevels, level) >= realSize
    ensures level <= r <= numLevels && BlockBytes(memorySize, numLevels, r) >= realSize
    ensures forall l :: r < l <= numLevels ==> BlockBytes(memorySize, numLevels, l) < realSize
    decreases numLevels - level
  {
    if level < numLevels && BlockBytes(memorySize, numLevels, level + 1) >= realSize then
      DeepestFit(memorySize, numLevels, realSize, level + 1)
    else
      assert forall l :: level < l <= numLevels ==> BlockBytes(memorySize, numLevels, l) < realSize by {
        forall l | level < l <= numLevels ensures BlockBytes(memorySize, numLevels, l) < realSize {
          BlockBytesMonotone(memorySize, numLevels, level + 1, l);
        }
      }
      level
  }

  /** When the memory size is a multiple of 2^numLevels, every halving is exact. */
  lemma {:induction false} HalvedExact(q: nat, numLevels: nat, k: nat)
    requires k <= numLevels
    ensures Halved(q * Pow2(numLevels), k) == q * Pow2(numLevels - k)
    decreases k
  {
    if k > 0 {
      HalvedExact(q, numLevels, k - 1);
      assert Pow2(numLevels - (k - 1)) == 2 * Pow2(numLevels - k);
      assert q * (2 * Pow2(numLevels - k)) == 2 * (q * Pow2(numLevels - k));
    }
  }

  /** Then the block of a level is exactly what the halving loop reaches there. */
  lemma BlockBytesExact(q: nat, numLevels: nat, level: nat)
    requires level <= numLevels
    ensures BlockBytes(q * Pow2(numLevels), numLevels, level) == Halved(q * Pow2(numLevels), level)
  {
    HalvedExact(q, numLevels, numLevels);
    HalvedExact(q, numLevels, level);
  }

  /**
    Outside the two defects, the corrected choice is the loop's: when the
    memory size is a multiple of 2^numLevels and the whole memory holds the
    request, `FitLevel` finds a level, and it is the level where the halving
    loop of `malloc` stops.
  */
  lemma FitLevelAgrees(q: nat, numLevels: nat, realSize: nat)
    requires realSize <= q * Pow2(numLevels)
    ensures FitLevel(q * Pow2(numLevels), numLevels, realSize).Some?
    ensures HalvingStops(q * Pow2(numLevels), numLevels, realSize, FitLevel(q * Pow2(numLevels), numLevels, realSize).value)
  {
    var m := q * Pow2(numLevels);
    BlockBytesExact(q, numLevels, 0);
    var r := FitLevel(m, numLevels, realSize).value;
    forall l | 0 < l <= r
      ensures Halved(m, l) >= realSize
    {
      BlockBytesExact(q, numLevels, l);
      BlockBytesMonotone(m, numLevels, l, r);
    }
    if r < numLevels {
      BlockBytesExact(q, numLevels, r + 1);
    }
  }

  // ---------------------------------------------------------------------
  // The recursive walks over the bitmap

  /** Set or clear one in-range bit, as both walks do at each node they visit. */
  method PutBit(bitmap: Bitmap, bit: nat, value: bool)
    requires bitmap.Valid() && bit < bitmap.numBits
    modifies bitmap, bitmap.bits
    ensures bitmap.Valid() && bitmap.bits == old(bitmap.bits)
    ensures bitmap.numBits == old(bitmap.numBits) && bitmap.numWords == old(bitmap.numWords)
    ensures bitmap.contents == old(bitmap.contents)[bit := value]
  {
    if value {
      bitmap.Set(bit);
    } else {
      bitmap.Clear(bit);
    }
  }

  /** `update_child`: set bit `bit` and every bit below it in the tree to `value`; no other bit changes. */
  method UpdateChild(bitmap: Bitmap, bit: nat, value: bool)
    requires bitmap.Valid()
    modifies bitmap, bitmap.bits
    ensures bitmap.Valid() && bitmap.bits == old(bitmap.bits)
    ensures bitmap.numBits == old(bitmap.numBits) && bitmap.numWords == old(bitmap.numWords)
    ensures bitmap.contents == PaintSubtree(old(bitmap.contents), bit, value)
    decreases bitmap.numBits - bit
  {
    ghost var c0 := bitmap.contents;
    if bit >= bitmap.numBits {
      PaintSubtreeOutside(c0, bit, value);
      return;
    }
    PutBit(bitmap, bit, value);
    ghost var c1 := bitmap.contents;
    UpdateChild(bitmap, bit * 2 + 1, value);
    ghost var c2 := bitmap.contents;
    UpdateChild(bitmap, bit * 2 + 2, value);
    assert bitmap.contents == PaintSubtree(PaintSubtree(c1, bit * 2 + 1, value), bit * 2 + 2, value);
    PaintSubtreeSplit(c0, bit, value);
  }

  /** `update_parent`: set bit `bit` and the bits of all its ancestors to `value`; no other bit changes. */
  method UpdateParent(bitmap: Bitmap, bit: nat, value: bool)
    requires bitmap.Valid()
    modifies bitmap, bitmap.bits
    ensures bitmap.Valid() && bitmap.bits == old(bitmap.bits)
    ensures bitmap.numBits == old(bitmap.numBits) && bitmap.numWords == old(bitmap.numWords)
    ensures bitmap.contents == PaintPath(old(bitmap.contents), bit, value)
    decreases bit
  {
    ghost var c0 := bitmap.contents;
    if value {
      bitmap.Set(bit);
    } else {
      bitmap.Clear(bit);
    }
    if bit > 0 {
      UpdateParent(bitmap, ParentIdx(bit), value);
      PaintPathStep(c0, bit, value);
    }
  }

  /**
    `merge`: stop at the root, or when the bit is still set (the source
    reports a fatal error there), or when the sibling is in use; otherwise
    clear the parent and continue from it.
  */
  method Merge(bitmap: Bitmap, bit: nat)
    requires bitmap.Valid()
    modifies bitmap, bitmap.bits
    ensures bitmap.Valid() && bitmap.bits == old(bitmap.bits)
    ensures bitmap.numBits == old(bitmap.numBits) && bitmap.numWords == old(bitmap.numWords)
    ensures bitmap.contents == Merged(old(bitmap.contents), bit)
    ensures Get(old(bitmap.contents), bit) ==> bitmap.contents == old(bitmap.contents)
    decreases bit
  {
    if bit == 0 {
      return;
    }
    if bitmap.Test(bit) {
      return;
    }
    var buddy := SiblingIdx(bit);
    if bitmap.Test(buddy) {
      return;
    }
    var parent := ParentIdx(bit);
    bitmap.Clear(parent);
    Merge(bitmap, parent);
  }

  /**
    The two walks of `free` on the bitmap of the grants `alloc`: clear the
    subtree of the granted node `bit`, then merge upward.  The bitmap then
    marks exactly the other grants.
  */
  method ClearBlock(bitmap: Bitmap, ghost alloc: set<nat>, ghost k: nat, bit: nat)
    requires bitmap.Valid() && bitmap.numBits == Pow2(k) - 1
    requires Antichain(alloc) && bit in alloc && bit < bitmap.numBits
    requires bitmap.contents == Marking(alloc, bitmap.numBits)
    modifies bitmap, bitmap.bits
    ensures bitmap.Valid() && bitmap.bits == old(bitmap.bits)
    ensures bitmap.numBits == old(bitmap.numBits) && bitmap.numWords == old(bitmap.numWords)
    ensures Antichain(alloc - {bit})
    ensures bitmap.contents == Marking(alloc - {bit}, bitmap.numBits)
  {
    FreeMarks(alloc, k, bit);
    UpdateChild(bitmap, bit, false);
    Merge(bitmap, bit);
  }

  // ---------------------------------------------------------------------
  // The allocator

  /** Every node of `level` is in use. */
  ghost predicate LevelFull(granted: set<nat>, level: nat) {
    forall k :: FirstIdx(level) <= k < FirstIdx(level + 1) ==> Used(granted, k)
  }

  class BuddyAllocator {
    const memorySize: nat
    const numLevels: nat
    const minBucketSize: nat
    const bitmap: Bitmap
    /** The nodes of the blocks granted and not yet freed. */
    ghost var granted: set<nat>

    /**
      The bitmap covers the whole tree and sets exactly the nodes in use for
      the granted blocks, which never lie inside one another.
    */
    ghost predicate Valid()
      reads this, bitmap, bitmap.bits
    {
      && numLevels < MAX_LEVELS
      && minBucketSize == Halved(memorySize, numLevels)
      && bitmap.Valid()
      && bitmap.numBits == Pow2(numLevels + 1) - 1
      && (forall a :: a in granted ==> a < bitmap.numBits)
      && Antichain(granted)
      && bitmap.contents == Marking(granted, bitmap.numBits)
    }

    constructor Make(totalSize: nat, numLevels: nat)
      requires numLevels < MAX_LEVELS
      ensures Valid() && fresh(bitmap) && fresh(bitmap.bits) && granted == {}
      ensures memorySize == totalSize && this.numLevels == numLevels
    {
      memorySize := totalSize;
      this.numLevels := numLevels;
      minBucketSize := Halved(totalSize, numLevels);
      bitmap := new Bitmap.Zeroed(Pow2(numLevels + 1) - 1);
      granted := {};
      new;
      MarkingEmpty(bitmap.numBits);
    }

    /**
      `BitmapBuddyAllocator_init`: refuse `numLevels >= 20`, then refuse when
      the memory cannot be mapped (`mapped` stands for the outcome of
      `mmap`); otherwise `minBucketSize = totalSize >> numLevels` and a
      clear bitmap of 2^(numLevels+1) - 1 bits, one per node.
    */
    static method Init(totalSize: nat, numLevels: nat, mapped: bool) returns (r: Option<BuddyAllocator>)
      ensures r.None? <==> numLevels >= MAX_LEVELS || !mapped
      ensures r.Some? ==> && fresh(r.value) && fresh(r.value.bitmap) && fresh(r.value.bitmap.bits)
                          && r.value.Valid() && r.value.granted == {}
                          && r.value.memorySize == totalSize && r.value.numLevels == numLevels
                          && r.value.minBucketSize == Halved(totalSize, numLevels)
                          && r.value.bitmap.numBits == Pow2(numLevels + 1) - 1
    {
      if numLevels >= MAX_LEVELS {
        return None;
      }
      if !mapped {
        return None;
      }
      var a := new BuddyAllocator.Make(totalSize, numLevels);
      r := Some(a);
    }

    /** The size of the blocks at `level`. */
    function BlockSize(level: nat): nat
      reads this
      requires level <= numLevels
    {
      minBucketSize * Pow2(numLevels - level)
    }

    /** Every node of a level up to `numLevels` is a node of the bitmap. */
    lemma LevelInBitmap(level: nat)
      requires Valid() && level <= numLevels
      ensures FirstIdx(level + 1) <= bitmap.numBits
    {
      Pow2Monotone(level + 1, numLevels + 1);
    }

    /** The scan of `get_buddy`: the first node of `level` whose bit is clear, or -1. */
    method FindFree(level: nat) returns (idx: int)
      requires Valid() && level <= numLevels
      ensures idx == -1 ==> LevelFull(granted, level)
      ensures idx != -1 ==> && FirstIdx(level) <= idx < FirstIdx(level + 1) && !Used(granted, idx)
                            && forall k :: FirstIdx(level) <= k < idx ==> Used(granted, k)
    {
      LevelInBitmap(level);
      idx := -1;
      if level == 0 {
        if !bitmap.Test(FirstIdx(level)) {
          idx := 0;
        }
      } else {
        var i: nat := FirstIdx(level);
        while i < FirstIdx(level + 1)
          invariant FirstIdx(level) <= i <= FirstIdx(level + 1) && idx == -1
          invariant forall k :: FirstIdx(level) <= k < i ==> Used(granted, k)
        {
          if !bitmap.Test(i) {
            idx := i;
            break;
          }
          i := i + 1;
        }
      }
    }

    /**
      `get_buddy`: take the first free node of `level`, mark its subtree and
      its path to the root, and grant its block; none when the level is full.
    */
    method GetBuddy(level: nat, size: nat) returns (r: Option<Grant>)
      requires Valid() && level <= numLevels
      modifies this, bitmap, bitmap.bits
      ensures Valid()
      ensures r.None? ==> granted == old(granted) && bitmap.contents == old(bitmap.contents) && LevelFull(granted, level)
      ensures r.Some? ==> && LevelIdx(r.value.index) == level && !Used(old(granted), r.value.index)
                          && (forall k :: FirstIdx(level) <= k < r.value.index ==> Used(old(granted), k))
                          && granted == old(granted) + {r.value.index}
                          && r.value.offset == StartIdx(r.value.index) * BlockSize(level) + METADATA
                          && r.value.offset - METADATA + BlockSize(level) <= memorySize
                          && r.value.size == size
    {
      var idx := FindFree(level);
      if idx == -1 {
        return None;
      }
      LevelInBitmap(level);
      UpdateChild(bitmap, idx, true);
      UpdateParent(bitmap, idx, true);
      AllocMarks(granted, bitmap.numBits, idx);
      granted := granted + {idx};
      LevelIdxRange(idx, level);
      StartIdxRange(idx);
      var start, blockSize := StartIdx(idx), BlockSize(level);
      BlockInMemory(memorySize, numLevels, level, start);
      assert blockSize == BlockBytes(memorySize, numLevels, level);
      MulMonotone(0, start, blockSize);
      r := Some(Grant(idx, start * blockSize + METADATA, size));
    }

    /**
      `BitmapBuddyAllocator_malloc`: nothing for size 0; otherwise the size
      plus the metadata picks the level and the first free block there is
      taken.  The level is the deepest one whose blocks hold the request
      (`FitLevel`), not the level the halving loop of the source stops at
      (`ChooseLevel`), which can be too small; a request larger than the
      whole memory gets nothing.
    */
    method Malloc(size: nat) returns (r: Option<Grant>)
      requires Valid()
      modifies this, bitmap, bitmap.bits
      ensures Valid()
      ensures size == 0 ==> r == None
      ensures r.None? ==> granted == old(granted) && bitmap.contents == old(bitmap.contents)
      ensures r.None? && size > 0 ==> || BlockSize(0) < size + METADATA
                                      || LevelFull(granted, FitLevel(memorySize, numLevels, size + METADATA).value)
      ensures r.Some? ==> && FitLevel(memorySize, numLevels, size + METADATA) == Some(LevelIdx(r.value.index))
                          && BlockSize(LevelIdx(r.value.index)) >= size + METADATA
                          && !Used(old(granted), r.value.index)
                          && (forall k :: FirstIdx(LevelIdx(r.value.index)) <= k < r.value.index ==> Used(old(granted), k))
                          && granted == old(granted) + {r.value.index}
                          && r.value.offset - METADATA + BlockSize(LevelIdx(r.value.index)) <= memorySize
                          && r.value.size == size
    {
      if size == 0 {
        return None;
      }
      var level := FitLevel(memorySize, numLevels, size + METADATA);
      if level.None? {
        return None;
      }
      r := GetBuddy(level.value, size);
    }

    /**
      `BitmapBuddyAllocator_free`: nothing for a null pointer; otherwise
      clear the block's subtree and merge upward.  The bitmap then marks
      exactly the blocks still granted.
    */
    method Free(ptr: Option<Grant>)
      requires Valid() && (ptr.Some? ==> ptr.value.index in granted)
      modifies this, bitmap, bitmap.bits
      ensures Valid()
      ensures granted == if ptr.Some? then old(granted) - {ptr.value.index} else old(granted)
      ensures ptr.None? ==> bitmap.contents == old(bitmap.contents)
    {
      if ptr.None? {
        return;
      }
      var bit := ptr.value.index;
      ClearBlock(bitmap, granted, numLevels + 1, bit);
      granted := granted - {bit};
    }
  }
}
