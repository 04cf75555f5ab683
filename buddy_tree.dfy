/**
  The implicit binary tree of src/bitmap_buddy_allocator.c.  Node 0 is the
  whole memory; the children of node i are 2i+1 and 2i+2; level l holds the
  nodes 2^l - 1 .. 2^(l+1) - 2.  The bitmap has one bit per node, and a bit
  is set exactly when its node is allocated, lies inside an allocated block,
  or has an allocated block below it.  This module holds the index helpers,
  the effect of the recursive bitmap walks as functions on `seq<bool>`, and
  the facts about them that the allocator needs.
*/
module BuddyTree {
  import opened Bits

  // ---------------------------------------------------------------------
  // Index helpers

  /** `firstIdx`: `(1 << level) - 1`, the first node of a level. */
  function FirstIdx(level: nat): nat {
    Pow2(level) - 1
  }

  /**
    `parentIdx`: `(idx - 1) / 2`.  C division truncates toward zero, so the
    root is its own parent.
  */
  function ParentIdx(idx: nat): (p: nat)
    ensures idx > 0 ==> p < idx && (idx == 2 * p + 1 || idx == 2 * p + 2)
    ensures idx == 0 ==> p == 0
  {
    if idx == 0 then 0 else (idx - 1) / 2
  }

  /**
    `buddyIdx` as written: `idx - 1` for an odd node, `idx + 1` for an even
    one.  Left children are the odd nodes, so this is never the sibling
    (see `BuddyIdxNotSibling`); the allocator model uses `SiblingIdx`.
  */
  function BuddyIdx(idx: nat): nat {
    if idx == 0 then 0 else if idx % 2 == 1 then idx - 1 else idx + 1
  }

  /** The sibling of a node, which `buddyIdx` is meant to compute: the root is its own. */
  function SiblingIdx(idx: nat): nat {
    if idx == 0 then 0 else if idx % 2 == 1 then idx + 1 else idx - 1
  }

  /** The integer base-2 logarithm, `floor(log2(m))`. */
  function Log2(m: nat): nat
    requires m >= 1
  {
    if m == 1 then 0 else 1 + Log2(m / 2)
  }

  /** `levelIdx`: `floor(log2(idx + 1))`, the level of a node. */
  function LevelIdx(idx: nat): nat {
    Log2(idx + 1)
  }

  /** `startIdx`: the position of a node within its level. */
  function StartIdx(idx: nat): nat {
    LevelIdxRange(idx, LevelIdx(idx));
    idx - FirstIdx(LevelIdx(idx))
  }

  lemma {:induction false} Log2Bounds(m: nat)
    requires m >= 1
    ensures Pow2(Log2(m)) <= m < Pow2(Log2(m) + 1)
    decreases m
  {
    if m > 1 {
      Log2Bounds(m / 2);
    }
  }

  /** The level of a node is `l` exactly when the node lies between `firstIdx(l)` and `firstIdx(l + 1)`. */
  lemma LevelIdxRange(idx: nat, l: nat)
    ensures LevelIdx(idx) == l <==> FirstIdx(l) <= idx < FirstIdx(l + 1)
  {
    var k := LevelIdx(idx);
    Log2Bounds(idx + 1);
    if k < l {
      Pow2Monotone(k + 1, l);
    } else if k > l {
      Pow2Monotone(l + 1, k);
    }
  }

  /** `startIdx` of a node on level l lies in [0, 2^l). */
  lemma StartIdxRange(idx: nat)
    ensures StartIdx(idx) < Pow2(LevelIdx(idx))
    ensures idx == FirstIdx(LevelIdx(idx)) + StartIdx(idx)
  {
    LevelIdxRange(idx, LevelIdx(idx));
  }

  /** The children of node i are 2i+1 and 2i+2, one level down, and both have i as parent. */
  lemma Children(i: nat)
    ensures ParentIdx(2 * i + 1) == i && ParentIdx(2 * i + 2) == i
    ensures LevelIdx(2 * i + 1) == LevelIdx(i) + 1 && LevelIdx(2 * i + 2) == LevelIdx(i) + 1
  {
    assert (2 * i + 2) / 2 == i + 1;
    assert (2 * i + 3) / 2 == i + 1;
  }

  /** Off the root, the sibling is an involution without fixed points that keeps the parent. */
  lemma SiblingInvolution(i: nat)
    requires i > 0
    ensures SiblingIdx(i) > 0 && SiblingIdx(i) != i && SiblingIdx(SiblingIdx(i)) == i
    ensures ParentIdx(SiblingIdx(i)) == ParentIdx(i)
    ensures var p := ParentIdx(i);
      (i == 2 * p + 1 && SiblingIdx(i) == 2 * p + 2) || (i == 2 * p + 2 && SiblingIdx(i) == 2 * p + 1)
  {
    if i % 2 == 1 {
      assert SiblingIdx(i + 1) == i;
    } else {
      assert (i - 1) % 2 == 1;
    }
  }

  /**
    `buddyIdx` as written never yields the sibling: for node 1 it yields the
    root, and below level 1 it yields a node with another parent.
  */
  lemma BuddyIdxNotSibling(i: nat)
    requires i > 0
    ensures BuddyIdx(i) != SiblingIdx(i)
    ensures i == 1 ==> BuddyIdx(i) == 0
    ensures i > 1 ==> ParentIdx(BuddyIdx(i)) != ParentIdx(i)
  {
  }

  /** In a tree of 2^k - 1 nodes, the sibling of a node is a node of the tree. */
  lemma SiblingInTree(i: nat, k: nat)
    requires 0 < i < Pow2(k) - 1
    ensures SiblingIdx(i) < Pow2(k) - 1
  {
    assert Pow2(k) == 2 * Pow2(k - 1);
  }

  // ---------------------------------------------------------------------
  // Subtrees

  /** Node `idx` lies in the subtree rooted at `root`: `root` is `idx` or one of its ancestors. */
  predicate InSubtree(idx: nat, root: nat)
    decreases idx
  {
    idx == root || (idx > root && InSubtree(ParentIdx(idx), root))
  }

  lemma {:induction false} SubtreeTrans(a: nat, b: nat, c: nat)
    requires InSubtree(a, b) && InSubtree(b, c)
    ensures InSubtree(a, c)
    decreases a
  {
    if a != b {
      SubtreeTrans(ParentIdx(a), b, c);
    }
  }

  /** The ancestors of a node form a chain: of two of them, the deeper lies in the subtree of the other. */
  lemma {:induction false} SubtreeChain(j: nat, x: nat, y: nat)
    requires InSubtree(j, x) && InSubtree(j, y) && x <= y
    ensures InSubtree(y, x)
    decreases j
  {
    if j != y {
      SubtreeChain(ParentIdx(j), x, y);
    }
  }

  /** Below a node, the subtree is the union of the subtrees of its two children. */
  lemma {:induction false} SubtreeSplit(j: nat, b: nat)
    requires j != b
    ensures InSubtree(j, b) <==> InSubtree(j, 2 * b + 1) || InSubtree(j, 2 * b + 2)
    decreases j
  {
    Children(b);
    if InSubtree(j, 2 * b + 1) {
      SubtreeTrans(j, 2 * b + 1, b);
    } else if InSubtree(j, 2 * b + 2) {
      SubtreeTrans(j, 2 * b + 2, b);
    } else if InSubtree(j, b) {
      var p := ParentIdx(j);
      if p != b {
        SubtreeSplit(p, b);
      }
    }
  }

  /** The strict ancestors of a node are its parent and the parent's ancestors. */
  lemma StrictAncestors(x: nat, j: nat)
    requires x > 0
    ensures InSubtree(x, j) && j != x <==> InSubtree(ParentIdx(x), j)
  {
  }

  // ---------------------------------------------------------------------
  // The recursive walks of the bitmap, as functions on its contents

  /** The bit of node `i`, false outside the bitmap (`bitmap_test`). */
  function Get(c: seq<bool>, i: nat): bool {
    i < |c| && c[i]
  }

  /** `bitmap_clear`: bit `i` becomes clear; nothing changes outside the bitmap. */
  function Cleared(c: seq<bool>, i: nat): seq<bool> {
    if i < |c| then c[i := false] else c
  }

  /** Every bit of the subtree of `root` set to `v`: what `update_child` does. */
  function PaintSubtree(c: seq<bool>, root: nat, v: bool): seq<bool> {
    seq(|c|, j requires 0 <= j < |c| => if InSubtree(j, root) then v else c[j])
  }

  /** The bit of `node` and of every ancestor set to `v`: what `update_parent` does. */
  function PaintPath(c: seq<bool>, node: nat, v: bool): seq<bool> {
    seq(|c|, j requires 0 <= j < |c| => if InSubtree(node, j) then v else c[j])
  }

  /** A node outside the bitmap has no node of the bitmap in its subtree. */
  lemma PaintSubtreeOutside(c: seq<bool>, root: nat, v: bool)
    requires root >= |c|
    ensures PaintSubtree(c, root, v) == c
  {
    forall j | 0 <= j < |c| ensures !InSubtree(j, root) {
    }
  }

  /** Painting a node and then the subtrees of its two children paints its whole subtree. */
  lemma PaintSubtreeSplit(c: seq<bool>, root: nat, v: bool)
    requires root < |c|
    ensures PaintSubtree(PaintSubtree(c[root := v], root * 2 + 1, v), root * 2 + 2, v) == PaintSubtree(c, root, v)
  {
    var r := PaintSubtree(PaintSubtree(c[root := v], root * 2 + 1, v), root * 2 + 2, v);
    forall j | 0 <= j < |c| ensures r[j] == PaintSubtree(c, root, v)[j] {
      if j != root {
        SubtreeSplit(j, root);
      }
    }
  }

  /** Painting a node and then the path above its parent paints the node's whole path. */
  lemma PaintPathStep(c: seq<bool>, node: nat, v: bool)
    requires node > 0
    ensures PaintPath(if node < |c| then c[node := v] else c, ParentIdx(node), v) == PaintPath(c, node, v)
  {
    var c1 := if node < |c| then c[node := v] else c;
    forall j | 0 <= j < |c| ensures PaintPath(c1, ParentIdx(node), v)[j] == PaintPath(c, node, v)[j] {
      StrictAncestors(node, j);
    }
  }

  /**
    What `merge` does: stop at the root, at a set bit or at a set buddy;
    otherwise clear the parent and go on from it.  This is `merge` with the
    sibling as the buddy.
  */
  function Merged(c: seq<bool>, x: nat): seq<bool>
    decreases x
  {
    if x == 0 || Get(c, x) || Get(c, SiblingIdx(x)) then c
    else Merged(Cleared(c, ParentIdx(x)), ParentIdx(x))
  }

  /** `merge` as written, testing `buddyIdx` instead of the sibling. */
  function MergedAsWritten(c: seq<bool>, x: nat): seq<bool>
    decreases x
  {
    if x == 0 || Get(c, x) || Get(c, BuddyIdx(x)) then c
    else MergedAsWritten(Cleared(c, ParentIdx(x)), ParentIdx(x))
  }

  /**
    `merge` only ever clears bits, only strict ancestors of its starting node,
    and only ancestors whose child on the path was clear.
  */
  lemma {:induction false} MergedClearsAncestors(c: seq<bool>, x: nat)
    ensures |Merged(c, x)| == |c|
    ensures forall j :: 0 <= j < |c| && Merged(c, x)[j] != c[j] ==>
      c[j] && !Merged(c, x)[j] && j != x && InSubtree(x, j)
    decreases x
  {
    if !(x == 0 || Get(c, x) || Get(c, SiblingIdx(x))) {
      var p := ParentIdx(x);
      var c' := Cleared(c, p);
      MergedClearsAncestors(c', p);
      forall j | 0 <= j < |c| && Merged(c, x)[j] != c[j]
        ensures c[j] && !Merged(c, x)[j] && j != x && InSubtree(x, j)
      {
        if j == p {
          assert InSubtree(x, p);
        } else {
          StrictAncestors(x, j);
        }
      }
    }
  }

  // ---------------------------------------------------------------------
  // The bitmap of a set of allocated blocks

  /** Node `j` is in use for block `a`: `j` lies inside `a` or above it. */
  predicate Related(a: nat, j: nat) {
    InSubtree(a, j) || InSubtree(j, a)
  }

  /** Node `j` is in use: some allocated block lies in its subtree or contains it. */
  ghost predicate Used(alloc: set<nat>, j: nat) {
    exists a :: a in alloc && Related(a, j)
  }

  /** The bitmap that marks exactly the nodes in use. */
  ghost function Marking(alloc: set<nat>, n: nat): seq<bool> {
    seq(n, j requires 0 <= j => Used(alloc, j))
  }

  /** No allocated block lies inside another. */
  ghost predicate Antichain(alloc: set<nat>) {
    forall a, b :: a in alloc && b in alloc && a != b ==> !InSubtree(a, b)
  }

  /** With nothing allocated, no bit is set: the bitmap that `bitmap_create` returns. */
  lemma MarkingEmpty(n: nat)
    ensures Marking({}, n) == seq(n, _ => false)
  {
  }

  /**
    Allocating a free node: marking its subtree and then its path to the root
    (`update_child` then `update_parent`, both with 1) gives the bitmap of the
    enlarged set, which stays an antichain.
  */
  lemma AllocMarks(alloc: set<nat>, n: nat, idx: nat)
    requires Antichain(alloc) && !Used(alloc, idx)
    ensures Antichain(alloc + {idx})
    ensures PaintPath(PaintSubtree(Marking(alloc, n), idx, true), idx, true) == Marking(alloc + {idx}, n)
  {
    var c := PaintPath(PaintSubtree(Marking(alloc, n), idx, true), idx, true);
    forall j | 0 <= j < n
      ensures c[j] == Used(alloc + {idx}, j)
    {
      if Related(idx, j) {
        assert idx in alloc + {idx};
      } else if Used(alloc, j) {
        var a :| a in alloc && Related(a, j);
        assert a in alloc + {idx};
      }
    }
    forall a, b | a in alloc + {idx} && b in alloc + {idx} && a != b
      ensures !InSubtree(a, b)
    {
      if a == idx || b == idx {
        var other := if a == idx then b else a;
        assert !Related(other, idx);
      }
    }
  }

  /** A node whose subtree holds no block other than `bit`, on the path above `bit`, is not in use once `bit` goes. */
  lemma FreeNodeUnused(alloc: set<nat>, bit: nat, x: nat)
    requires Antichain(alloc) && bit in alloc && InSubtree(bit, x)
    requires forall a :: a in alloc - {bit} ==> !InSubtree(a, x)
    ensures !Used(alloc - {bit}, x)
  {
    if Used(alloc - {bit}, x) {
      var a :| a in alloc - {bit} && Related(a, x);
      SubtreeTrans(bit, x, a);
      assert false;
    }
  }

  /**
    The state of `merge`'s walk after `bit` is freed: the walk is at node `x`
    on the path above `bit`, no other block lies under `x`, the bits strictly
    above `x` are still set, and every other bit already marks the remaining
    blocks.
  */
  ghost predicate MergeState(alloc: set<nat>, bit: nat, x: nat, c: seq<bool>) {
    && Antichain(alloc) && bit in alloc && InSubtree(bit, x) && x < |c|
    && (forall a :: a in alloc - {bit} ==> !InSubtree(a, x))
    && (forall j :: 0 <= j < |c| ==> c[j] == if InSubtree(x, j) && j != x then true else Used(alloc - {bit}, j))
  }

  /** Facts about `x`, its sibling `y` and their parent `p` that both steps of the walk use. */
  lemma SiblingFacts(x: nat)
    requires x > 0
    ensures var y, p := SiblingIdx(x), ParentIdx(x);
      InSubtree(x, p) && InSubtree(y, p) && !InSubtree(x, y) && y > 0 && ParentIdx(y) == p
  {
    var y, p := SiblingIdx(x), ParentIdx(x);
    SiblingInvolution(x);
    if InSubtree(x, y) {
      StrictAncestors(x, y);
    }
  }

  /** When the sibling is in use, the bits above `x` are exactly the ones the remaining blocks need: the walk stops here. */
  lemma SiblingInUse(alloc: set<nat>, bit: nat, x: nat, c: seq<bool>)
    requires MergeState(alloc, bit, x, c) && x > 0
    requires SiblingIdx(x) < |c| && c[SiblingIdx(x)]
    ensures c == Marking(alloc - {bit}, |c|)
  {
    var rest := alloc - {bit};
    var y, p := SiblingIdx(x), ParentIdx(x);
    SiblingFacts(x);
    var a :| a in rest && Related(a, y);
    if !InSubtree(a, y) {
      StrictAncestors(y, a);
      SubtreeTrans(x, p, a);
      SubtreeTrans(bit, x, a);
      assert false;
    }
    SubtreeTrans(a, y, p);
    forall j | 0 <= j < |c| ensures c[j] == Used(rest, j) {
      if j == x {
        FreeNodeUnused(alloc, bit, x);
      } else if InSubtree(x, j) {
        StrictAncestors(x, j);
        SubtreeTrans(a, p, j);
        assert Related(a, j);
      }
    }
  }

  /** When the sibling is free, so is the parent: clearing it moves the walk one level up. */
  lemma SiblingFree(alloc: set<nat>, bit: nat, x: nat, c: seq<bool>)
    requires MergeState(alloc, bit, x, c) && x > 0
    requires SiblingIdx(x) < |c| && !c[SiblingIdx(x)]
    ensures MergeState(alloc, bit, ParentIdx(x), Cleared(c, ParentIdx(x)))
  {
    var rest := alloc - {bit};
    var y, p := SiblingIdx(x), ParentIdx(x);
    SiblingFacts(x);
    SiblingInvolution(x);
    var c' := Cleared(c, p);
    SubtreeTrans(bit, x, p);
    forall a | a in rest ensures !InSubtree(a, p) {
      if a != p {
        SubtreeSplit(a, p);
      }
    }
    FreeNodeUnused(alloc, bit, p);
    forall j | 0 <= j < |c'|
      ensures c'[j] == if InSubtree(p, j) && j != p then true else Used(rest, j)
    {
      StrictAncestors(x, j);
    }
  }

  /** The walk of `merge` from a `MergeState` ends with the bitmap of the remaining blocks. */
  lemma {:induction false} MergeRestores(alloc: set<nat>, k: nat, bit: nat, x: nat, c: seq<bool>)
    requires MergeState(alloc, bit, x, c) && |c| == Pow2(k) - 1
    ensures Merged(c, x) == Marking(alloc - {bit}, |c|)
    decreases x
  {
    var rest := alloc - {bit};
    FreeNodeUnused(alloc, bit, x);
    if x == 0 {
      forall j | 0 <= j < |c| ensures c[j] == Used(rest, j) {
      }
    } else {
      SiblingInTree(x, k);
      if c[SiblingIdx(x)] {
        SiblingInUse(alloc, bit, x, c);
      } else {
        SiblingFree(alloc, bit, x, c);
        MergeRestores(alloc, k, bit, ParentIdx(x), Cleared(c, ParentIdx(x)));
      }
    }
  }

  /**
    Freeing an allocated block: clearing its subtree (`update_child` with 0)
    and then merging upward gives the bitmap of the remaining set.
  */
  lemma FreeMarks(alloc: set<nat>, k: nat, bit: nat)
    requires Antichain(alloc) && bit in alloc && bit < Pow2(k) - 1
    ensures Antichain(alloc - {bit})
    ensures Merged(PaintSubtree(Marking(alloc, Pow2(k) - 1), bit, false), bit) == Marking(alloc - {bit}, Pow2(k) - 1)
  {
    var n := Pow2(k) - 1;
    var rest := alloc - {bit};
    var c := PaintSubtree(Marking(alloc, n), bit, false);
    forall a | a in rest ensures !InSubtree(a, bit) {
    }
    forall j | 0 <= j < n
      ensures c[j] == if InSubtree(bit, j) && j != bit then true else Used(rest, j)
    {
      if InSubtree(j, bit) {
        if Used(rest, j) {
          var a :| a in rest && Related(a, j);
          if InSubtree(a, j) {
            SubtreeTrans(a, j, bit);
          } else if a <= bit {
            SubtreeChain(j, a, bit);
          } else {
            SubtreeChain(j, bit, a);
          }
          assert false;
        }
      } else if InSubtree(bit, j) {
        assert Related(bit, j);
      } else {
        if Used(alloc, j) {
          var a :| a in alloc && Related(a, j);
          assert a in rest;
        }
        if Used(rest, j) {
          var a :| a in rest && Related(a, j);
          assert a in alloc;
        }
      }
    }
    assert MergeState(alloc, bit, bit, c);
    MergeRestores(alloc, k, bit, bit, c);
  }

  /** Blocks 5 and 6 of a seven-node tree: nodes 0 and 2 above them are in use, the rest are free. */
  lemma MarkingFiveSix()
    ensures Marking({5, 6}, 7) == [true, false, true, false, false, true, true]
    ensures Marking({6}, 7) == [true, false, true, false, false, false, true]
  {
    assert Related(5, 0) && Related(5, 2) && Related(5, 5) && Related(6, 6);
    assert !Related(5, 1) && !Related(5, 3) && !Related(5, 4) && !Related(5, 6);
    assert !Related(6, 1) && !Related(6, 3) && !Related(6, 4) && !Related(6, 5);
  }

  /**
    Freeing block 5 while block 6 is allocated: `merge` as written tests
    node 4 instead of node 6, finds it clear, and clears nodes 2 and 0 above
    the live block 6, so a request for the whole memory would be granted.
    The sibling-based merge leaves the bitmap of the remaining block.
  */
  lemma MergeAsWrittenFreesLiveAncestors()
    ensures var cleared := PaintSubtree(Marking({5, 6}, 7), 5, false);
      && MergedAsWritten(cleared, 5) == [false, false, false, false, false, false, true]
      && Merged(cleared, 5) == Marking({6}, 7)
      && Used({6}, 0)
  {
    MarkingFiveSix();
    var cleared := PaintSubtree(Marking({5, 6}, 7), 5, false);
    assert cleared == [true, false, true, false, false, false, true] by {
      assert !InSubtree(0, 5) && !InSubtree(2, 5) && !InSubtree(6, 5);
    }
    assert Antichain({5, 6});
    FreeMarks({5, 6}, 3, 5);
    assert Related(6, 0);
  }
}
