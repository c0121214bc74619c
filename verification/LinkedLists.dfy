/** The singly linked list of src/app/utils/linked_list.c: nodes linked and
    unlinked in place, specified by the sequence of its nodes. */
module LinkedLists {
  import opened Domain
  import opened Pools
  import opened Sequences

  class Node<T> {
    const element: T
    var next: Node?<T>

    constructor (element: T)
      ensures this.element == element
    {
      this.element := element;
      next := null;
    }
  }

  function Elements<T>(nodes: seq<Node<T>>): (r: seq<T>)
    ensures |r| == |nodes|
    ensures forall i | 0 <= i < |r| :: r[i] == nodes[i].element
  {
    seq(|nodes|, i requires 0 <= i < |nodes| => nodes[i].element)
  }

  /** The node at position `i`, null outside the list. */
  ghost function At<T>(nodes: seq<Node<T>>, i: int): Node?<T> {
    if 0 <= i < |nodes| then nodes[i] else null
  }

  /** The elements of `s` that satisfy `cond`, in order. */
  function Filter<T>(s: seq<T>, cond: T -> bool): seq<T> {
    if s == [] then [] else (if cond(s[0]) then [s[0]] else []) + Filter(s[1..], cond)
  }

  /** `s` without the first `limit` elements that satisfy `cond`. */
  function RemoveMatches<T>(s: seq<T>, limit: nat, cond: T -> bool): seq<T> {
    if s == [] || limit == 0 then s
    else if cond(s[0]) then RemoveMatches(s[1..], limit - 1, cond)
    else [s[0]] + RemoveMatches(s[1..], limit, cond)
  }

  /** `RemoveMatches` on the nodes that hold the elements. */
  ghost function Survivors<T>(nodes: seq<Node<T>>, limit: nat, cond: T -> bool): seq<Node<T>> {
    if nodes == [] || limit == 0 then nodes
    else if cond(nodes[0].element) then Survivors(nodes[1..], limit - 1, cond)
    else [nodes[0]] + Survivors(nodes[1..], limit, cond)
  }

  function Min(a: nat, b: nat): nat { if a <= b then a else b }

  /** Part way through a removal: `kept` and `removed` account for the nodes
      of `was` seen so far, `rest` are the others. */
  ghost predicate Progress<T>(was: seq<Node<T>>, limit: nat, cond: T -> bool,
                              kept: seq<Node<T>>, rest: seq<Node<T>>, removed: nat)
  {
    && removed <= limit
    && Survivors(was, limit, cond) == kept + Survivors(rest, limit - removed, cond)
    && Min(limit, |Filter(Elements(was), cond)|) == removed + Min(limit - removed, |Filter(Elements(rest), cond)|)
  }

  lemma ProgressStart<T>(was: seq<Node<T>>, limit: nat, cond: T -> bool)
    ensures Progress(was, limit, cond, [], was, 0)
  {
  }

  lemma ProgressStep<T>(was: seq<Node<T>>, limit: nat, cond: T -> bool,
                        kept: seq<Node<T>>, rest: seq<Node<T>>, removed: nat)
    requires Progress(was, limit, cond, kept, rest, removed) && rest != [] && removed < limit
    ensures if cond(rest[0].element) then Progress(was, limit, cond, kept, rest[1..], removed + 1)
            else Progress(was, limit, cond, kept + [rest[0]], rest[1..], removed)
  {
    assert Elements(rest)[1..] == Elements(rest[1..]);
    if !cond(rest[0].element) {
      var tail := Survivors(rest[1..], limit - removed, cond);
      assert kept + ([rest[0]] + tail) == kept + [rest[0]] + tail;
    }
  }

  lemma ProgressDone<T>(was: seq<Node<T>>, limit: nat, cond: T -> bool,
                        kept: seq<Node<T>>, rest: seq<Node<T>>, removed: nat)
    requires Progress(was, limit, cond, kept, rest, removed)
    requires rest == [] || removed == limit
    ensures kept + rest == Survivors(was, limit, cond)
    ensures Elements(kept + rest) == RemoveMatches(Elements(was), limit, cond)
    ensures removed == Min(limit, |Filter(Elements(was), cond)|)
  {
    SurvivorsElements(was, limit, cond);
  }

  class LinkedList<T> {
    var head: Node?<T>
    const pool: Pool
    ghost var nodes: seq<Node<T>>

    ghost predicate Valid()
      reads this, nodes
      ensures Valid() ==> head == At(nodes, 0)
    {
      && head == At(nodes, 0)
      && (forall i {:trigger nodes[i].next} | 0 <= i < |nodes| :: nodes[i].next == At(nodes, i + 1))
      && Distinct(nodes)
    }

    ghost function NodeSet(): set<object>
      reads this
    {
      ToSet(nodes)
    }

    ghost function Contents(): (r: seq<T>)
      reads this
      ensures |r| == |nodes|
    {
      Elements(nodes)
    }

    twostate lemma Untouched()
      requires old(Valid()) && nodes == old(nodes) && head == old(head)
      requires forall i | 0 <= i < |nodes| :: nodes[i].next == old(nodes[i].next)
      ensures Valid()
    {
    }

    constructor (pool: Pool)
      ensures Valid() && nodes == [] && head == null && this.pool == pool
    {
      head := null;
      nodes := [];
      this.pool := pool;
    }

    method Prepend(element: T) returns (ghost node: Node<T>)
      requires Valid() && NodeSet() <= pool.live
      requires |pool.live| < pool.capacity
      modifies this, pool
      ensures Valid()
      ensures fresh(node) && node !in old(pool.live) && nodes == [node] + old(nodes) && node.element == element
      ensures NodeSet() == old(NodeSet()) + {node} && pool.live == old(pool.live) + {node}
    {
      var newNode := new Node(element);
      var ok := pool.Alloc(newNode);
      assert ok;
      var previousHead := head;
      head := newNode;
      newNode.next := previousHead;
      DistinctExtend(nodes, newNode);
      ToSetExtend(nodes, newNode);
      node := newNode;
      nodes := [newNode] + nodes;
    }

    method LastNode() returns (last: Node<T>)
      requires Valid() && nodes != []
      ensures last == nodes[|nodes| - 1]
    {
      last := head;
      ghost var k := 0;
      while last.next != null
        invariant 0 <= k < |nodes| && last == nodes[k]
        decreases |nodes| - k
      {
        last := last.next;
        k := k + 1;
      }
    }

    method LinkLast(newNode: Node<T>)
      requires Valid() && newNode !in nodes && newNode.next == null
      modifies this, nodes
      ensures Valid() && nodes == old(nodes) + [newNode]
      ensures NodeSet() == old(NodeSet()) + {newNode}
    {
      if head == null {
        head := newNode;
      } else {
        var last := LastNode();
        OnlyAt(nodes, |nodes| - 1);
        last.next := newNode;
      }
      DistinctExtend(nodes, newNode);
      ToSetExtend(nodes, newNode);
      nodes := nodes + [newNode];
    }

    method Append(element: T) returns (ghost node: Node<T>)
      requires Valid() && NodeSet() <= pool.live
      requires |pool.live| < pool.capacity
      modifies this, pool, nodes
      ensures Valid()
      ensures fresh(node) && node !in old(pool.live) && nodes == old(nodes) + [node] && node.element == element
      ensures NodeSet() == old(NodeSet()) + {node} && pool.live == old(pool.live) + {node}
    {
      hide LinkedList.Valid, LinkedList.NodeSet;
      var newNode := new Node(element);
      var ok := pool.Alloc(newNode);
      assert ok;
      newNode.next := null;
      LinkLast(newNode);
      node := newNode;
    }

    /** A walk is between `kept` and `rest`: `prev` is the last node kept (a
        null `prev` stands for a pointer to the head), `node` the next one. */
    ghost predicate Walking(prev: Node?<T>, node: Node?<T>, kept: seq<Node<T>>, rest: seq<Node<T>>)
      reads this, nodes
    {
      Valid() && nodes == kept + rest && node == At(rest, 0) && prev == At(kept, |kept| - 1)
    }

    lemma WalkOn(prev: Node?<T>, node: Node<T>, kept: seq<Node<T>>, rest: seq<Node<T>>)
      requires Walking(prev, node, kept, rest)
      ensures rest != [] && Walking(node, node.next, kept + [node], rest[1..])
    {
      assert nodes[|kept|] == node;
    }

    /** `*prev_node_next = node->next` followed by freeing the node. */
    method Unlink(prev: Node?<T>, node: Node<T>, ghost kept: seq<Node<T>>, ghost rest: seq<Node<T>>)
      requires Walking(prev, node, kept, rest) && NodeSet() <= pool.live
      modifies this, pool, prev
      ensures rest != [] && Walking(prev, node.next, kept, rest[1..])
      ensures node.next == old(node.next)
      ensures pool.live == old(pool.live) - {node}
      ensures NodeSet() == old(NodeSet()) - {node}
    {
      ghost var k := |kept|;
      assert nodes[k] == node;
      WithoutDistinct(nodes, k);
      if prev == null {
        head := node.next;
      } else {
        OnlyAt(nodes, k - 1);
        prev.next := node.next;
      }
      pool.Free(node);
      ToSetWithout(nodes, k);
      nodes := Without(nodes, k);
    }

    lemma InNodeSet(node: Node<T>)
      requires node in nodes
      ensures node in NodeSet()
    {
    }

    /** Removes the first `limit` elements that satisfy `cond`. Whenever the
        walk finds one, the whole list is still linked (`Valid()`), which is
        what a pre-remove callback relies on. */
    method RemoveOnConditionWithLimit(limit: nat, cond: T -> bool) returns (removed: nat)
      requires Valid() && NodeSet() <= pool.live
      modifies this, pool, nodes
      ensures Valid()
      ensures nodes == Survivors(old(nodes), limit, cond)
      ensures Contents() == RemoveMatches(old(Contents()), limit, cond)
      ensures removed == Min(limit, |Filter(old(Contents()), cond)|)
      ensures NodeSet() <= old(NodeSet())
      ensures pool.live == old(pool.live) - (old(NodeSet()) - NodeSet())
    {
      hide LinkedList.Valid, LinkedList.NodeSet, Progress, Survivors, RemoveMatches, Filter, Distinct;
      removed := 0;
      var prev: Node?<T> := null;
      var node := head;
      ghost var was, rest := nodes, nodes;
      ghost var kept: seq<Node<T>> := [];
      ghost var set0, live0 := NodeSet(), pool.live;
      ghost var freed: set<object> := {};
      ProgressStart(was, limit, cond);
      while node != null
        invariant Walking(prev, node, kept, rest)
        invariant NodeSet() <= pool.live
        invariant prev != null ==> prev in was
        invariant forall n | n in rest :: n in was
        invariant NodeSet() == set0 - freed && freed <= set0 && pool.live == live0 - freed
        invariant removed <= limit && Progress(was, limit, cond, kept, rest, removed)
        decreases |rest|
      {
        if removed >= limit { break; }
        ProgressStep(was, limit, cond, kept, rest, removed);
        if cond(node.element) {
          assert nodes[|kept|] == node;
          InNodeSet(node);
          Unlink(prev, node, kept, rest);
          freed := freed + {node};
          removed := removed + 1;
        } else {
          WalkOn(prev, node, kept, rest);
          prev := node;
          kept := kept + [node];
        }
        node := node.next;
        rest := rest[1..];
      }
      assert set0 - NodeSet() == freed;
      ProgressDone(was, limit, cond, kept, rest, removed);
    }

    /** The same walk stopped at its first match: the point where the
        pre-remove callback runs and `Unlink` follows. */
    method FirstMatch(cond: T -> bool)
      returns (prev: Node?<T>, node: Node?<T>, ghost kept: seq<Node<T>>, ghost rest: seq<Node<T>>)
      requires Valid()
      ensures Walking(prev, node, kept, rest)
      ensures prev != null ==> prev in nodes
      ensures node != null ==> cond(node.element)
      ensures forall n | n in kept :: !cond(n.element)
    {
      prev, node, kept, rest := null, head, [], nodes;
      while node != null
        invariant Walking(prev, node, kept, rest)
        invariant prev != null ==> prev in nodes
        invariant forall n | n in kept :: !cond(n.element)
        decreases |rest|
      {
        if cond(node.element) { return; }
        WalkOn(prev, node, kept, rest);
        kept, rest := kept + [node], rest[1..];
        prev, node := node, node.next;
      }
    }

    method IteratorInit() returns (iter: Node?<T>)
      ensures iter == head
    {
      iter := head;
    }

    /** Yields the element under the iterator and steps over it; at the end of
        the list there is none and the iterator stays. */
    static method IteratorNext(iter: Node?<T>) returns (element: Option<T>, next: Node?<T>)
      ensures iter == null ==> element == None && next == null
      ensures iter != null ==> element == Some(iter.element) && next == iter.next
    {
      if iter != null {
        return Some(iter.element), iter.next;
      } else {
        return None, null;
      }
    }
  }

  lemma {:induction false} SurvivorsElements<T>(nodes: seq<Node<T>>, limit: nat, cond: T -> bool)
    ensures Elements(Survivors(nodes, limit, cond)) == RemoveMatches(Elements(nodes), limit, cond)
    ensures forall n | n in Survivors(nodes, limit, cond) :: n in nodes
  {
    if nodes != [] && limit != 0 {
      assert Elements(nodes)[1..] == Elements(nodes[1..]);
      var rest := if cond(nodes[0].element) then limit - 1 else limit;
      SurvivorsElements(nodes[1..], rest, cond);
    }
  }

  /** Unlinking the first match is the removal with limit 1. */
  lemma {:induction false} FirstMatchGoes<T>(kept: seq<Node<T>>, rest: seq<Node<T>>, cond: T -> bool)
    requires forall n | n in kept :: !cond(n.element)
    requires rest != [] ==> cond(rest[0].element)
    ensures Survivors(kept + rest, 1, cond) == kept + if rest == [] then [] else rest[1..]
  {
    if kept == [] {
      assert kept + rest == rest;
    } else {
      assert (kept + rest)[1..] == kept[1..] + rest;
      FirstMatchGoes(kept[1..], rest, cond);
    }
  }

  lemma {:induction false} FilterWhere<T>(s: seq<T>, cond: T -> bool)
    ensures forall x | x in Filter(s, cond) :: x in s && cond(x)
    ensures forall x | x in s && cond(x) :: x in Filter(s, cond)
  {
    if s != [] {
      FilterWhere(s[1..], cond);
      assert s == [s[0]] + s[1..];
    }
  }

  /** What a limited removal does, told by two filters: of the elements that
      satisfy `cond` exactly the first `limit` go, the others all stay, and
      both keep their order. */
  lemma {:induction false} RemoveMatchesSplit<T>(s: seq<T>, limit: nat, cond: T -> bool)
    ensures Filter(RemoveMatches(s, limit, cond), x => !cond(x)) == Filter(s, x => !cond(x))
    ensures Filter(RemoveMatches(s, limit, cond), cond) == Filter(s, cond)[Min(limit, |Filter(s, cond)|)..]
  {
    if s != [] && limit != 0 {
      var rest := if cond(s[0]) then limit - 1 else limit;
      RemoveMatchesSplit(s[1..], rest, cond);
      var r := RemoveMatches(s[1..], rest, cond);
      if !cond(s[0]) {
        assert ([s[0]] + r)[1..] == r;
      }
    }
  }

  /** Without an effective limit, only the elements that do not satisfy `cond`
      are left. */
  lemma {:induction false} RemoveAllMatches<T>(s: seq<T>, limit: nat, cond: T -> bool)
    requires |s| <= limit
    ensures RemoveMatches(s, limit, cond) == Filter(s, x => !cond(x))
  {
    if s != [] {
      RemoveAllMatches(s[1..], if cond(s[0]) then limit - 1 else limit, cond);
    }
  }
}
