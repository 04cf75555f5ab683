/**
  The byte-pattern helpers of src/helpers/memory_manipulation.c, which the
  benchmarks use to write into granted blocks and check them later.  Memory
  is an array of bytes and a pointer an index into it.
*/
module MemoryPattern {
  import opened Text

  newtype byte = x: int | 0 <= x < 256

  /** Every byte of `s` is `pattern`. */
  predicate Uniform(s: seq<byte>, pattern: byte)
  {
    forall i :: 0 <= i < |s| ==> s[i] == pattern
  }

  /** The lowest offset whose byte is not `pattern`, if there is one. */
  function FirstMismatch(s: seq<byte>, pattern: byte): (r: Option<nat>)
    ensures r.None? <==> Uniform(s, pattern)
    ensures r.Some? ==> r.value < |s| && s[r.value] != pattern && Uniform(s[..r.value], pattern)
  {
    if s == [] then None
    else if s[0] != pattern then Some(0)
    else match FirstMismatch(s[1..], pattern)
      case None => None
      case Some(k) =>
        assert s[..k + 1] == [s[0]] + s[1..][..k];
        Some(k + 1)
  }

  /** `fill_memory_pattern`: `size` bytes from `ptr` become `pattern`, and no other byte changes. */
  method Fill(mem: array<byte>, ptr: nat, size: nat, pattern: byte)
    requires ptr + size <= mem.Length
    modifies mem
    ensures forall i :: 0 <= i < mem.Length ==> mem[i] == if ptr <= i < ptr + size then pattern else old(mem[i])
  {
    forall i | ptr <= i < ptr + size {
      mem[i] := pattern;
    }
  }

  /**
    `verify_memory_pattern`: 0 when the `size` bytes from `ptr` all hold
    `pattern`, -1 at the first one that does not; `reported` is the offset
    the error message names.  Memory is only read.
  */
  method Verify(mem: array<byte>, ptr: nat, size: nat, pattern: byte) returns (r: int, reported: Option<nat>)
    requires ptr + size <= mem.Length
    ensures reported == FirstMismatch(mem[ptr..ptr + size], pattern)
    ensures r == 0 <==> Uniform(mem[ptr..ptr + size], pattern)
    ensures r == (if reported.None? then 0 else -1)
  {
    var i := 0;
    while i < size
      invariant 0 <= i <= size
      invariant Uniform(mem[ptr..ptr + i], pattern)
    {
      if mem[ptr + i] != pattern {
        assert mem[ptr..ptr + size][..i] == mem[ptr..ptr + i];
        FirstMismatchAt(mem[ptr..ptr + size], pattern, i);
        return -1, Some(i);
      }
      assert mem[ptr..ptr + i + 1] == mem[ptr..ptr + i] + [mem[ptr + i]];
      i := i + 1;
    }
    assert mem[ptr..ptr + i] == mem[ptr..ptr + size];
    return 0, None;
  }

  /** An offset whose byte differs, after a uniform prefix, is the first mismatch. */
  lemma {:induction false} FirstMismatchAt(s: seq<byte>, pattern: byte, i: nat)
    requires i < |s| && s[i] != pattern && Uniform(s[..i], pattern)
    ensures FirstMismatch(s, pattern) == Some(i)
    decreases i
  {
    if i > 0 {
      assert s[0] == s[..i][0];
      assert s[1..][..i - 1] == s[..i][1..];
      FirstMismatchAt(s[1..], pattern, i - 1);
    }
  }

  /** Filling a range and then checking it with the same pattern succeeds. */
  method FillThenVerify(mem: array<byte>, ptr: nat, size: nat, pattern: byte) returns (r: int)
    requires ptr + size <= mem.Length
    modifies mem
    ensures r == 0
  {
    Fill(mem, ptr, size, pattern);
    var reported;
    r, reported := Verify(mem, ptr, size, pattern);
  }
}
