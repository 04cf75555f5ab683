/**
  The intrusive doubly linked list of src/data_structures/double_linked_list.c.
  Nodes belong to the caller and carry only `prev` and `next`; the list keeps
  `head`, `tail` and `size`.  The ghost sequence `nodes` is the list read from
  head to tail, and `Valid()` ties every link to it.
*/
module DoubleLinkedList {

  class Node {
    var prev: Node?
    var next: Node?

    constructor ()
      ensures prev == null && next == null
    {
      prev := null;
      next := null;
    }
  }

  /** No node occurs twice. */
  predicate Distinct(s: seq<Node>)
  {
    forall i, j :: 0 <= i < j < |s| ==> s[i] != s[j]
  }

  /** Each node's `next` is the node after it and each node's `prev` the node before it. */
  ghost predicate Linked(s: seq<Node>)
    reads s
  {
    && (forall j {:trigger s[j].next} :: 0 <= j < |s| - 1 ==> s[j].next == s[j + 1])
    && (forall j {:trigger s[j].prev} :: 0 < j < |s| ==> s[j].prev == s[j - 1])
  }

  /** Putting a new node at position `p` keeps the nodes distinct. */
  lemma DistinctInsert(s: seq<Node>, p: nat, x: Node)
    requires Distinct(s) && p <= |s| && x !in s
    ensures Distinct(s[..p] + [x] + s[p..])
  {
    var t := s[..p] + [x] + s[p..];
    forall a, b | 0 <= a < b < |t|
      ensures t[a] != t[b]
    {
      assert t[a] == if a < p then s[a] else if a == p then x else s[a - 1];
      assert t[b] == if b < p then s[b] else if b == p then x else s[b - 1];
    }
  }

  /** Cutting out the node at position `i` keeps the rest distinct. */
  lemma DistinctRemove(s: seq<Node>, i: nat)
    requires Distinct(s) && i < |s|
    ensures Distinct(s[..i] + s[i + 1..])
  {
    var t := s[..i] + s[i + 1..];
    forall a, b | 0 <= a < b < |t|
      ensures t[a] != t[b]
    {
      assert t[a] == if a < i then s[a] else s[a + 1];
      assert t[b] == if b < i then s[b] else s[b + 1];
    }
  }

  class List {
    var head: Node?
    var tail: Node?
    var size: int
    /** The nodes from head to tail. */
    ghost var nodes: seq<Node>

    /**
      `size` counts the nodes, no node appears twice, head and tail are the
      ends, and the nodes' own links chain them in order.
    */
    ghost predicate Valid()
      reads this, nodes
    {
      && size == |nodes|
      && Distinct(nodes)
      && Linked(nodes)
      && (nodes == [] ==> head == null && tail == null)
      && (nodes != [] ==> head == nodes[0] && tail == nodes[|nodes| - 1] && head.prev == null && tail.next == null)
    }

    /** `list_create`: no head, no tail, size 0. */
    constructor ()
      ensures Valid() && nodes == [] && head == null && tail == null && size == 0
    {
      head := null;
      tail := null;
      size := 0;
      nodes := [];
    }

    /** `list_find`: walk from the head; the item itself when it is reachable, else null. */
    method Find(item: Node?) returns (r: Node?)
      requires Valid()
      ensures r == if item != null && item in nodes then item else null
    {
      if item == null {
        return null;
      }
      var current := head;
      ghost var k := 0;
      while current != null
        invariant 0 <= k <= |nodes| && current == (if k < |nodes| then nodes[k] else null)
        invariant item !in nodes[..k]
        decreases |nodes| - k
      {
        if current == item {
          return current;
        }
        assert nodes[..k + 1] == nodes[..k] + [current];
        current := current.next;
        k := k + 1;
      }
      assert nodes[..k] == nodes;
      return null;
    }

    /** `list_push_front`: a null item changes nothing; otherwise the item becomes the first node. */
    method PushFront(item: Node?)
      requires Valid() && (item != null ==> item !in nodes)
      modifies this, item, nodes
      ensures Valid()
      ensures item == null ==> nodes == old(nodes)
      ensures item != null ==> nodes == [item] + old(nodes)
    {
      if item == null {
        return;
      }
      ghost var s := nodes;
      item.prev := null;
      item.next := head;
      if head != null {
        head.prev := item;
      } else {
        tail := item;
      }
      head := item;
      size := size + 1;
      nodes := [item] + s;
    }

    /** `list_push_back`: a null item changes nothing; otherwise the item becomes the last node. */
    method PushBack(item: Node?)
      requires Valid() && (item != null ==> item !in nodes)
      modifies this, item, nodes
      ensures Valid()
      ensures item == null ==> nodes == old(nodes)
      ensures item != null ==> nodes == old(nodes) + [item]
    {
      if item == null {
        return;
      }
      ghost var s := nodes;
      item.next := null;
      item.prev := tail;
      if tail != null {
        tail.next := item;
      } else {
        head := item;
      }
      tail := item;
      size := size + 1;
      nodes := s + [item];
    }

    /**
      `list_insert`: a null item gives null; a null `previous` pushes the item
      to the front; a `previous` that is not in the list gives null and
      changes nothing; otherwise the item goes right after `previous`.
    */
    method Insert(previous: Node?, item: Node?) returns (r: Node?)
      requires Valid() && (item != null ==> item !in nodes)
      modifies this, item, nodes
      ensures Valid()
      ensures item == null ==> r == null && nodes == old(nodes)
      ensures item != null && previous == null ==> r == item && nodes == [item] + old(nodes)
      ensures item != null && previous != null && previous !in old(nodes) ==> r == null && nodes == old(nodes)
      ensures item != null && previous != null && previous in old(nodes) ==>
        && r == item
        && exists i :: 0 <= i < |old(nodes)| && old(nodes)[i] == previous &&
             nodes == old(nodes)[..i + 1] + [item] + old(nodes)[i + 1..]
    {
      if item == null {
        return null;
      }
      if previous == null {
        PushFront(item);
        return item;
      }
      var found := Find(previous);
      if found == null {
        return null;
      }
      ghost var i :| 0 <= i < |nodes| && nodes[i] == previous;
      InsertAt(previous, item, i);
      r := item;
    }

    /** The splice of `list_insert`, after the node at position `i`. */
    method InsertAt(previous: Node, item: Node, ghost i: nat)
      requires Valid() && i < |nodes| && nodes[i] == previous && item !in nodes
      modifies this, item, nodes
      ensures Valid() && nodes == old(nodes)[..i + 1] + [item] + old(nodes)[i + 1..]
    {
      if previous.next != null {
        InsertBetween(previous, item, i);
      } else {
        assert i == |nodes| - 1;
        ghost var s := nodes;
        item.prev := previous;
        item.next := null;
        tail := item;
        previous.next := item;
        size := size + 1;
        nodes := s + [item];
        assert s[..i + 1] == s && s[i + 1..] == [];
      }
    }

    /** The splice when `previous` has a successor: the item goes between the two. */
    method InsertBetween(previous: Node, item: Node, ghost i: nat)
      requires Valid() && i + 1 < |nodes| && nodes[i] == previous && item !in nodes
      modifies this, nodes, item
      ensures Valid() && nodes == old(nodes)[..i + 1] + [item] + old(nodes)[i + 1..]
      ensures head == old(head) && tail == old(tail)
    {
      ghost var s := nodes;
      var after := previous.next;
      assert after == s[i + 1];
      item.prev := previous;
      item.next := after;
      after.prev := item;
      previous.next := item;
      size := size + 1;
      nodes := s[..i + 1] + [item] + s[i + 1..];
      DistinctInsert(s, i + 1, item);
    }

    /**
      `list_detach`: null for a null item or an empty list; otherwise unlink
      the item, repair head and tail, and clear the item's links.
    */
    method Detach(item: Node?) returns (r: Node?)
      requires Valid() && (item != null && size != 0 ==> item in nodes)
      modifies this, nodes
      ensures Valid()
      ensures item == null || old(size) == 0 ==> r == null && nodes == old(nodes)
      ensures item != null && old(size) != 0 ==>
        && r == item && item.prev == null && item.next == null
        && exists i :: 0 <= i < |old(nodes)| && old(nodes)[i] == item && nodes == old(nodes)[..i] + old(nodes)[i + 1..]
    {
      if item == null || size == 0 {
        return null;
      }
      ghost var i :| 0 <= i < |nodes| && nodes[i] == item;
      DetachAt(item, i);
      r := item;
    }

    /** The unlinking of `list_detach`, for the node at position `i`. */
    method DetachAt(item: Node, ghost i: nat)
      requires Valid() && i < |nodes| && nodes[i] == item
      modifies this, nodes
      ensures Valid() && nodes == old(nodes)[..i] + old(nodes)[i + 1..]
      ensures item.prev == null && item.next == null
    {
      ghost var s := nodes;
      var before := item.prev;
      var after := item.next;
      assert before == if i > 0 then s[i - 1] else null;
      assert after == if i + 1 < |s| then s[i + 1] else null;
      if before != null {
        before.next := after;
      } else {
        head := after;
      }
      if after != null {
        after.prev := before;
      } else {
        tail := before;
      }
      size := size - 1;
      item.prev := null;
      item.next := null;
      nodes := s[..i] + s[i + 1..];
      DistinctRemove(s, i);
    }

    /** `list_pop_front`: null on an empty list; otherwise detach and return the first node. */
    method PopFront() returns (r: Node?)
      requires Valid()
      modifies this, nodes
      ensures Valid()
      ensures old(nodes) == [] ==> r == null && nodes == []
      ensures old(nodes) != [] ==> r == old(nodes)[0] && nodes == old(nodes)[1..]
    {
      if head == null {
        return null;
      }
      ghost var first := nodes[0];
      r := Detach(head);
      assert nodes == old(nodes)[1..] by {
        var i :| 0 <= i < |old(nodes)| && old(nodes)[i] == first && nodes == old(nodes)[..i] + old(nodes)[i + 1..];
        assert i == 0;
      }
    }

    /** `list_pop_back`: null on an empty list; otherwise detach and return the last node. */
    method PopBack() returns (r: Node?)
      requires Valid()
      modifies this, nodes
      ensures Valid()
      ensures old(nodes) == [] ==> r == null && nodes == []
      ensures old(nodes) != [] ==> r == old(nodes)[|old(nodes)| - 1] && nodes == old(nodes)[..|old(nodes)| - 1]
    {
      if tail == null {
        return null;
      }
      ghost var last := nodes[|nodes| - 1];
      r := Detach(tail);
      assert nodes == old(nodes)[..|old(nodes)| - 1] by {
        var i :| 0 <= i < |old(nodes)| && old(nodes)[i] == last && nodes == old(nodes)[..i] + old(nodes)[i + 1..];
        assert i == |old(nodes)| - 1;
      }
    }
  }
}
