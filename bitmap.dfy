/**
  The bit array of src/data_structures/bitmap.c: `numBits` bits packed into
  `numWords` 32-bit words, bit i being bit i % 32 of word i / 32.  The ghost
  field `contents` is the bitmap as a sequence of booleans, and `Valid()`
  ties it to the words.
*/
module Bitmaps {
  import opened Text
  import opened Words

  /** `contents` is what the words hold: bit i of the bitmap is bit i % 32 of word i / 32. */
  ghost predicate Mirrors(contents: seq<bool>, words: seq<bv32>) {
    && |contents| <= 32 * |words|
    && forall i :: 0 <= i < |contents| ==> contents[i] == WordBit(words[i / 32], ShiftAmount(i % 32))
  }

  /** Replacing the word of bit `index` by one that differs from it in that bit only changes that bit. */
  lemma MirrorsUpdate(contents: seq<bool>, words: seq<bv32>, index: nat, value: bool, w: bv32)
    requires Mirrors(contents, words) && index < |contents|
    requires forall j: bv8 :: j < 32 ==> WordBit(w, j) == if j == ShiftAmount(index % 32) then value else WordBit(words[index / 32], j)
    ensures Mirrors(contents[index := value], words[index / 32 := w])
  {
    var contents', words' := contents[index := value], words[index / 32 := w];
    forall i | 0 <= i < |contents'| ensures contents'[i] == WordBit(words'[i / 32], ShiftAmount(i % 32)) {
      if i / 32 == index / 32 && i != index {
        assert ShiftAmount(i % 32) != ShiftAmount(index % 32);
      }
    }
  }

  class Bitmap {
    var bits: array<bv32>
    var numBits: int
    var numWords: int
    ghost var contents: seq<bool>

    ghost predicate Valid()
      reads this, bits
    {
      && numBits > 0
      && numWords == (numBits + 31) / 32
      && bits.Length == numWords
      && |contents| == numBits
      && Mirrors(contents, bits[..])
    }

    constructor Zeroed(numBits: int)
      requires numBits > 0
      ensures Valid() && fresh(bits)
      ensures this.numBits == numBits && contents == seq(numBits, _ => false)
    {
      this.numBits := numBits;
      numWords := (numBits + 31) / 32;
      bits := new bv32[(numBits + 31) / 32](_ => 0);
      contents := seq(numBits, _ => false);
      new;
      forall i | 0 <= i < numBits ensures contents[i] == WordBit(bits[i / 32], ShiftAmount(i % 32)) {
        UniformWord(bits[i / 32], ShiftAmount(i % 32));
      }
      assert Mirrors(contents, bits[..]);
    }

    /**
      `bitmap_create`: no bitmap for a non-positive size; otherwise
      ceil(numBits / 32) words, all bits clear.
    */
    static method Create(numBits: int) returns (r: Option<Bitmap>)
      ensures numBits <= 0 ==> r == None
      ensures numBits > 0 ==> && r.Some? && fresh(r.value) && fresh(r.value.bits) && r.value.Valid()
                              && r.value.numBits == numBits
                              && (r.value.numWords - 1) * 32 < numBits <= r.value.numWords * 32
                              && forall i :: 0 <= i < numBits ==> !r.value.contents[i]
    {
      if numBits <= 0 {
        return None;
      }
      var b := new Bitmap.Zeroed(numBits);
      r := Some(b);
    }

    /** `bitmap_test`: bit index % 32 of word index / 32; false outside [0, numBits). */
    function Test(index: int): (b: bool)
      reads this, bits
      requires Valid()
      ensures b <==> 0 <= index < numBits && contents[index]
    {
      if index < 0 || index >= numBits then false
      else
        var b := ShiftAmount(index % 32);
        BitByShift(bits[index / 32], b);
        (bits[index / 32] >> b) & 1 == 1
    }

    /** `bitmap_set`: bit `index` becomes set, every other bit keeps its value; a no-op outside [0, numBits). */
    method Set(index: int)
      requires Valid()
      modifies this, bits
      ensures Valid() && bits == old(bits) && numBits == old(numBits) && numWords == old(numWords)
      ensures contents == if 0 <= index < numBits then old(contents)[index := true] else old(contents)
    {
      if index < 0 || index >= numBits {
        return;
      }
      var wordIdx, bitOffset := index / 32, index % 32;
      var w := SetBit(bits[wordIdx], ShiftAmount(bitOffset));
      MirrorsUpdate(contents, bits[..], index, true, w);
      bits[wordIdx] := w;
      contents := contents[index := true];
    }

    /** `bitmap_clear`: bit `index` becomes clear, every other bit keeps its value; a no-op outside [0, numBits). */
    method Clear(index: int)
      requires Valid()
      modifies this, bits
      ensures Valid() && bits == old(bits) && numBits == old(numBits) && numWords == old(numWords)
      ensures contents == if 0 <= index < numBits then old(contents)[index := false] else old(contents)
    {
      if index < 0 || index >= numBits {
        return;
      }
      var wordIdx, bitOffset := index / 32, index % 32;
      var w := ClearBit(bits[wordIdx], ShiftAmount(bitOffset));
      MirrorsUpdate(contents, bits[..], index, false, w);
      bits[wordIdx] := w;
      contents := contents[index := false];
    }

    /**
      The inner loop of the two searches: the first index of word `i`, below
      numBits, whose bit equals `target`, or -1 when there is none.
    */
    method FirstInWord(i: int, target: bool) returns (r: int)
      requires Valid() && 0 <= i < numWords
      ensures r == -1 || (i * 32 <= r < numBits && r < (i + 1) * 32 && contents[r] == target)
      ensures r == -1 ==> forall b :: i * 32 <= b < numBits && b < (i + 1) * 32 ==> contents[b] != target
      ensures r != -1 ==> forall b :: i * 32 <= b < r ==> contents[b] != target
    {
      var j := 0;
      while j < 32
        invariant 0 <= j <= 32
        invariant forall b :: i * 32 <= b < i * 32 + j && b < numBits ==> contents[b] != target
      {
        var bitIdx := i * 32 + j;
        if bitIdx >= numBits {
          break;
        }
        if Test(bitIdx) == target {
          return bitIdx;
        }
        j := j + 1;
      }
      return -1;
    }

    /** `bitmap_find_first_set`: the smallest set index below numBits, or -1 when no bit is set. */
    method FindFirstSet() returns (r: int)
      requires Valid()
      ensures -1 <= r < numBits
      ensures r == -1 <==> forall b :: 0 <= b < numBits ==> !contents[b]
      ensures r != -1 ==> contents[r] && forall b :: 0 <= b < r ==> !contents[b]
    {
      var i := 0;
      while i < numWords
        invariant 0 <= i <= numWords
        invariant forall b :: 0 <= b < i * 32 && b < numBits ==> !contents[b]
      {
        if bits[i] != 0 {
          r := FirstInWord(i, true);
          if r != -1 {
            return;
          }
        } else {
          forall b | i * 32 <= b < (i + 1) * 32 && b < numBits ensures !contents[b] {
            UniformWord(bits[i], ShiftAmount(b % 32));
          }
        }
        i := i + 1;
      }
      return -1;
    }

    /**
      `bitmap_find_first_zero`: the smallest clear index below numBits, or -1
      when every bit is set; the unused bits of the last word are never
      reported.
    */
    method FindFirstZero() returns (r: int)
      requires Valid()
      ensures -1 <= r < numBits
      ensures r == -1 <==> forall b :: 0 <= b < numBits ==> contents[b]
      ensures r != -1 ==> !contents[r] && forall b :: 0 <= b < r ==> contents[b]
    {
      var i := 0;
      while i < numWords
        invariant 0 <= i <= numWords
        invariant forall b :: 0 <= b < i * 32 && b < numBits ==> contents[b]
      {
        if bits[i] != 0xFFFF_FFFF {
          r := FirstInWord(i, false);
          if r != -1 {
            return;
          }
        } else {
          forall b | i * 32 <= b < (i + 1) * 32 && b < numBits ensures contents[b] {
            UniformWord(bits[i], ShiftAmount(b % 32));
          }
        }
        i := i + 1;
      }
      return -1;
    }
  }
}
