/**
  Single bits of a 32-bit `unsigned int` word, as the bitmap's shifts and
  masks read and write them.  A bit offset in [0, 32) is converted once to
  an 8-bit shift amount; every other fact here is about bit-vectors only.
*/
module Words {

  /** The shift amount for bit offset `k`. */
  function ShiftAmount(k: nat): (b: bv8)
    requires k < 32
    ensures b < 32 && b as int == k
  {
    k as bv8
  }

  /** Bit `b` of a word, tested against the mask `1u << b`. */
  predicate WordBit(w: bv32, b: bv8)
    requires b < 32
  {
    w & (1 << b) != 0
  }

  /** Reading a bit by shifting the word down, `(w >> b) & 1u`, is testing it against its mask. */
  lemma BitByShift(w: bv32, b: bv8)
    requires b < 32
    ensures (w >> b) & 1 == 1 <==> WordBit(w, b)
  {
  }

  lemma SetSame(w: bv32, k: bv8)
    requires k < 32
    ensures (w | (1 << k)) & (1 << k) != 0
  {
  }

  lemma SetOther(w: bv32, k: bv8, j: bv8)
    requires k < 32 && j < 32 && j != k
    ensures (w | (1 << k)) & (1 << j) == w & (1 << j)
  {
  }

  lemma ClearSame(w: bv32, k: bv8)
    requires k < 32
    ensures (w & !(1 << k)) & (1 << k) == 0
  {
  }

  lemma ClearOther(w: bv32, k: bv8, j: bv8)
    requires k < 32 && j < 32 && j != k
    ensures (w & !(1 << k)) & (1 << j) == w & (1 << j)
  {
  }

  /** Or-ing in `1u << k` sets bit k and leaves the other bits of the word alone. */
  lemma SetWordBit(w: bv32, k: bv8, j: bv8)
    requires k < 32 && j < 32
    ensures WordBit(w | (1 << k), j) <==> j == k || WordBit(w, j)
  {
    if j == k {
      SetSame(w, k);
    } else {
      SetOther(w, k, j);
    }
  }

  /** And-ing with `~(1u << k)` clears bit k and leaves the other bits of the word alone. */
  lemma ClearWordBit(w: bv32, k: bv8, j: bv8)
    requires k < 32 && j < 32
    ensures WordBit(w & !(1 << k), j) <==> j != k && WordBit(w, j)
  {
    if j == k {
      ClearSame(w, k);
    } else {
      ClearOther(w, k, j);
    }
  }

  /** `w | (1u << b)`: bit b set, every other bit as in w. */
  function SetBit(w: bv32, b: bv8): (r: bv32)
    requires b < 32
    ensures forall j: bv8 :: j < 32 ==> (WordBit(r, j) <==> j == b || WordBit(w, j))
  {
    forall j: bv8 | j < 32 ensures WordBit(w | (1 << b), j) <==> j == b || WordBit(w, j) {
      SetWordBit(w, b, j);
    }
    w | (1 << b)
  }

  /** `w & ~(1u << b)`: bit b clear, every other bit as in w. */
  function ClearBit(w: bv32, b: bv8): (r: bv32)
    requires b < 32
    ensures forall j: bv8 :: j < 32 ==> (WordBit(r, j) <==> j != b && WordBit(w, j))
  {
    forall j: bv8 | j < 32 ensures WordBit(w & !(1 << b), j) <==> j != b && WordBit(w, j) {
      ClearWordBit(w, b, j);
    }
    w & !(1 << b)
  }

  /** A zero word has no bit set, an all-ones word no bit clear. */
  lemma UniformWord(w: bv32, j: bv8)
    requires j < 32
    ensures w == 0 ==> !WordBit(w, j)
    ensures w == 0xFFFF_FFFF ==> WordBit(w, j)
  {
  }
}
