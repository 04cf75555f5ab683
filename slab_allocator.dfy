/**
  The slab allocator of src/slab_allocator.c.  One mapping holds the free
  list header followed by `n` slabs; each slab is a `SlabNode` header (the
  list links and the `data` pointer) followed by `userSize` bytes.  Free slabs
  sit on an intrusive doubly linked list used last in, first out.

  Addresses are numbers: `memory` is where the mapping starts and a slab's
  data pointer is `memory + LIST_SIZE + k * slabSize + NODE_SIZE`.  The
  caller sees only data pointers, 0 standing for NULL.
*/
module Slab {
  import opened Text
  import opened Bits
  import opened DoubleLinkedList

  /** `sizeof(SlabNode)` on LP64: two links, the data pointer and a flag, padded to 8. */
  const NODE_SIZE: nat := 32

  /** `sizeof(DoubleLinkedList)` on LP64: head, tail and an int size, padded to 8. */
  const LIST_SIZE: nat := 24

  // ---------------------------------------------------------------------
  // Size arithmetic

  /** `x & ~(2^k - 1)`, one low bit at a time: shift right, recurse, shift back. */
  function ClearLowBits(x: nat, k: nat): nat
  {
    if k == 0 then x else 2 * ClearLowBits(x / 2, k - 1)
  }

  lemma SmallMultiple(a: int, d: int)
    requires d > 0 && -d < a * d < d
    ensures a == 0
  {
  }

  /** Quotient and remainder are unique. */
  lemma ModUnique(x: nat, d: nat, q: nat, r: nat)
    requires 0 <= r < d && x == q * d + r
    ensures x % d == r && x / d == q
  {
    var q0 := x / d;
    assert (q0 - q) * d == q0 * d - q * d;
    SmallMultiple(q0 - q, d);
  }

  /** Clearing the low k bits takes x down to a multiple of 2^k. */
  lemma {:induction false} ClearLowBitsFloor(x: nat, k: nat)
    ensures ClearLowBits(x, k) == x - x % Pow2(k)
    decreases k
  {
    if k > 0 {
      var p, h := Pow2(k - 1), x / 2;
      ClearLowBitsFloor(h, k - 1);
      var q, r: nat := h / p, 2 * (h % p) + x % 2;
      assert h == q * p + h % p;
      assert q * (2 * p) == 2 * (q * p);
      assert x == 2 * h + x % 2;
      ModUnique(x, 2 * p, q, r);
    }
  }

  /**
    `(total + page - 1) & ~(page - 1)` for a page of 2^shift bytes: the
    smallest multiple of the page that holds `total` bytes.
  */
  function PageRoundUp(total: nat, shift: nat): (r: nat)
    ensures r % Pow2(shift) == 0 && total <= r < total + Pow2(shift)
  {
    var page := Pow2(shift);
    var y := total + page - 1;
    ClearLowBitsFloor(y, shift);
    ModUnique(y - y % page, page, y / page, 0);
    ClearLowBits(y, shift)
  }

  /** `get_slab_total_size`: the requested size plus the slab header. */
  function SlabTotalSize(requested: nat): nat
  {
    NODE_SIZE + requested
  }

  /** The bytes the mapping must hold: the list header and `n` slabs. */
  function BufferBytes(slabSize: nat, n: nat): nat
  {
    slabSize * n + LIST_SIZE
  }

  /** Where the data of slab k starts. */
  function DataAddr(memory: nat, slabSize: nat, k: nat): nat
  {
    memory + LIST_SIZE + k * slabSize + NODE_SIZE
  }

  /**
    The slab whose header sits at `ptr - NODE_SIZE`, if any: the offset past
    the list header must be a whole number of slabs, fewer than `n`.
  */
  function HeaderSlot(memory: nat, slabSize: nat, n: nat, ptr: nat): (r: Option<nat>)
    requires slabSize > 0
    ensures r.Some? ==> r.value < n && ptr == DataAddr(memory, slabSize, r.value)
  {
    if ptr < memory + LIST_SIZE + NODE_SIZE then None
    else
      var offset := ptr - (memory + LIST_SIZE + NODE_SIZE);
      if offset % slabSize == 0 && offset / slabSize < n then Some(offset / slabSize) else None
  }

  /** The data pointer of every slab leads back to that slab. */
  lemma HeaderSlotOfData(memory: nat, slabSize: nat, n: nat, k: nat)
    requires slabSize > 0 && k < n
    ensures HeaderSlot(memory, slabSize, n, DataAddr(memory, slabSize, k)) == Some(k)
  {
    ModUnique(k * slabSize, slabSize, k, 0);
  }

  lemma NextSlab(first: nat, i: nat, slabSize: nat)
    ensures first + (i + 1) * slabSize == first + i * slabSize + slabSize
  {
  }

  /**
    With room for at least one user byte, every slab's data pointer lies
    inside the mapping, so the range check of `SlabAllocator_release` never
    refuses one.
  */
  lemma DataInBuffer(memory: nat, slabSize: nat, n: nat, shift: nat, k: nat)
    requires k < n && slabSize > NODE_SIZE
    ensures memory < DataAddr(memory, slabSize, k) < memory + PageRoundUp(BufferBytes(slabSize, n), shift)
  {
    MulMonotone(k + 1, n, slabSize);
  }

  // ---------------------------------------------------------------------
  // Building the free list

  /**
    The loop of `SlabAllocator_init`: slab k gets its data pointer `first +
    k * slabSize + NODE_SIZE` and is pushed to the front, so the list ends up
    holding the slabs from the last to the first.
  */
  method ThreadSlabs(list: List, first: nat, slabSize: nat, n: nat) returns (slabs: seq<Node>, dataOf: map<Node, nat>)
    requires list.Valid() && list.nodes == []
    modifies list
    ensures list.Valid() && |slabs| == n && Distinct(slabs) && |list.nodes| == n
    ensures forall j :: 0 <= j < n ==> list.nodes[j] == slabs[n - 1 - j]
    ensures forall k :: 0 <= k < n ==> slabs[k] in dataOf && dataOf[slabs[k]] == first + k * slabSize + NODE_SIZE
    ensures forall k :: 0 <= k < n ==> fresh(slabs[k])
  {
    slabs, dataOf := [], map[];
    var current := first;
    var i := 0;
    while i < n
      invariant 0 <= i <= n && |slabs| == i && current == first + i * slabSize
      invariant list.Valid() && |list.nodes| == i && Distinct(slabs)
      invariant forall j :: 0 <= j < i ==> list.nodes[j] == slabs[i - 1 - j]
      invariant forall k :: 0 <= k < i ==> slabs[k] in dataOf && dataOf[slabs[k]] == first + k * slabSize + NODE_SIZE
      invariant forall k :: 0 <= k < i ==> fresh(slabs[k])
    {
      var node := new Node();
      dataOf := dataOf[node := current + NODE_SIZE];
      list.PushFront(node);
      slabs := slabs + [node];
      NextSlab(first, i, slabSize);
      current := current + slabSize;
      i := i + 1;
    }
  }

  /** The slab indices from `n - 1` down to 0: the free list right after init. */
  function Descending(n: nat): (r: seq<nat>)
    ensures |r| == n && forall j :: 0 <= j < n ==> r[j] == n - 1 - j
  {
    if n == 0 then [] else [n - 1] + Descending(n - 1)
  }

  // ---------------------------------------------------------------------
  // The allocator

  class SlabAllocator {
    /** `managed_memory`. */
    const memory: nat
    /** `slab_size`: header plus user bytes. */
    const slabSize: nat
    /** `user_size`. */
    const userSize: nat
    /** `buffer_size`: the page-rounded size of the mapping. */
    const bufferSize: nat
    /** `free_list_size_max`: the number of slabs. */
    const n: nat
    const freeList: List
    /** The header of slab k. */
    const slabs: seq<Node>
    /** The `data` field of every slab header. */
    const dataOf: map<Node, nat>
    /** `free_list_size`. */
    var freeListSize: int
    /** The indices of the free slabs, from the head of the free list. */
    ghost var free: seq<nat>

    /**
      The free list holds exactly the headers of the slabs in `free`, in
      order, `freeListSize` counts them, and every header's data pointer is
      the address right after it.
    */
    ghost predicate Valid()
      reads this, freeList, freeList.nodes
    {
      && slabSize == SlabTotalSize(userSize)
      && |slabs| == n && Distinct(slabs)
      && (forall k :: 0 <= k < n ==> slabs[k] in dataOf && dataOf[slabs[k]] == DataAddr(memory, slabSize, k))
      && freeList.Valid()
      && |free| == |freeList.nodes| == freeListSize
      && (forall j :: 0 <= j < |free| ==> free[j] < n && freeList.nodes[j] == slabs[free[j]])
    }

    /** The data pointer of slab k. */
    function Data(k: nat): nat
      reads this
    {
      DataAddr(memory, slabSize, k)
    }

    /** No slab is on the free list twice. */
    lemma FreeDistinct()
      requires Valid()
      ensures forall i, j :: 0 <= i < j < |free| ==> free[i] != free[j]
    {
      forall i, j | 0 <= i < j < |free|
        ensures free[i] != free[j]
      {
        assert freeList.nodes[i] != freeList.nodes[j];
      }
    }

    /** A slab's header is on the free list exactly when its index is in `free`. */
    lemma OnFreeList(k: nat)
      requires Valid() && k < n
      ensures slabs[k] in freeList.nodes <==> k in free
    {
      if slabs[k] in freeList.nodes {
        var j :| 0 <= j < |freeList.nodes| && freeList.nodes[j] == slabs[k];
        assert slabs[free[j]] == slabs[k];
      }
      if k in free {
        var j :| 0 <= j < |free| && free[j] == k;
        assert freeList.nodes[j] == slabs[k];
      }
    }

    constructor Make(memory: nat, requested: nat, n: nat, pageShift: nat)
      ensures Valid() && fresh(freeList)
      ensures this.memory == memory && userSize == requested && this.n == n
      ensures slabSize == NODE_SIZE + requested
      ensures bufferSize == PageRoundUp(BufferBytes(NODE_SIZE + requested, n), pageShift)
      ensures free == Descending(n) && freeListSize == n
    {
      this.memory := memory;
      slabSize := SlabTotalSize(requested);
      userSize := requested;
      bufferSize := PageRoundUp(BufferBytes(SlabTotalSize(requested), n), pageShift);
      this.n := n;
      var list := new List();
      var s, d := ThreadSlabs(list, memory + LIST_SIZE, SlabTotalSize(requested), n);
      freeList := list;
      slabs := s;
      dataOf := d;
      freeListSize := n;
      free := Descending(n);
    }

    /**
      `SlabAllocator_init`: map the memory (`mapped` is the address `mmap`
      returned, none when it failed), then thread all `n` slabs onto the
      free list.  The mapping holds the list header and every slab, rounded
      up to whole pages of 2^pageShift bytes.
    */
    static method Init(requested: nat, n: nat, pageShift: nat, mapped: Option<nat>) returns (r: Option<SlabAllocator>)
      ensures r.None? <==> mapped.None?
      ensures r.Some? ==> && fresh(r.value) && r.value.Valid()
                          && r.value.memory == mapped.value
                          && r.value.slabSize == NODE_SIZE + requested && r.value.userSize == requested
                          && r.value.n == n && r.value.freeListSize == n && r.value.free == Descending(n)
                          && r.value.bufferSize % Pow2(pageShift) == 0
                          && (NODE_SIZE + requested) * n + LIST_SIZE <= r.value.bufferSize
                          && r.value.bufferSize < (NODE_SIZE + requested) * n + LIST_SIZE + Pow2(pageShift)
    {
      if mapped.None? {
        return None;
      }
      var a := new SlabAllocator.Make(mapped.value, requested, n, pageShift);
      r := Some(a);
    }

    /**
      `SlabAllocator_reserve`: NULL when no slab is free; otherwise pop the
      head of the free list and hand out its data pointer.
    */
    method Reserve() returns (r: nat)
      requires Valid()
      modifies this, freeList, freeList.nodes
      ensures Valid()
      ensures old(free) == [] ==> r == 0 && free == [] && freeListSize == old(freeListSize)
      ensures old(free) != [] ==> && r == Data(old(free)[0]) && free == old(free)[1..]
                                  && freeListSize == old(freeListSize) - 1
    {
      if freeList.size == 0 {
        return 0;
      }
      ghost var k := free[0];
      var node := freeList.PopFront();
      freeListSize := freeListSize - 1;
      free := free[1..];
      r := dataOf[node];
    }

    /**
      `SlabAllocator_release`: refuse NULL, a pointer outside the mapping, a
      pointer whose header does not point back at it, and a slab already on
      the free list; otherwise push the slab to the front of the free list.
    */
    method Release(ptr: nat) returns (ok: bool)
      requires Valid()
      modifies this, freeList, slabs
      ensures Valid()
      ensures ok <==> ptr != 0 && ptr < memory + bufferSize && HeaderSlot(memory, slabSize, n, ptr).Some?
                      && HeaderSlot(memory, slabSize, n, ptr).value !in old(free)
      ensures !ok ==> free == old(free) && freeListSize == old(freeListSize)
      ensures ok ==> free == [HeaderSlot(memory, slabSize, n, ptr).value] + old(free)
                     && freeListSize == old(freeListSize) + 1
    {
      if ptr == 0 {
        return false;
      }
      if ptr < memory || ptr >= memory + bufferSize {
        return false;
      }
      var slot := HeaderSlot(memory, slabSize, n, ptr);
      if slot.None? || dataOf[slabs[slot.value]] != ptr {
        return false;
      }
      var node := slabs[slot.value];
      OnFreeList(slot.value);
      var found := freeList.Find(node);
      if found != null {
        return false;
      }
      PushFree(node, slot.value);
      ok := true;
    }

    /** The end of `SlabAllocator_release`: slab k goes back to the front of the free list. */
    method PushFree(node: Node, ghost k: nat)
      requires Valid() && k < n && node == slabs[k] && k !in free
      modifies this, freeList, slabs
      ensures Valid() && free == [k] + old(free) && freeListSize == old(freeListSize) + 1
    {
      OnFreeList(k);
      freeList.PushFront(node);
      freeListSize := freeListSize + 1;
      free := [k] + free;
    }
  }

  /**
    Last in, first out: a successful release followed by a reserve hands
    back the released pointer and leaves the free slabs as they were.
  */
  method ReleaseThenReserve(a: SlabAllocator, ptr: nat) returns (ok: bool, again: nat)
    requires a.Valid()
    modifies a, a.freeList, a.slabs
    ensures a.Valid()
    ensures ok ==> again == ptr && a.free == old(a.free) && a.freeListSize == old(a.freeListSize)
    ensures !ok ==> a.free == old(a.free)
  {
    ok := a.Release(ptr);
    if ok {
      again := a.Reserve();
    } else {
      again := 0;
    }
  }
}
