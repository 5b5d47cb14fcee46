/** The doubly linked recency list of internal/lru/lru.go. The ghost sequence holds the nodes from
    head to tail; Valid() says both pointer chains spell it, one forwards and one backwards. */
module LruList {
  import opened Sequences

  class Node {
    const key: string
    var prev: Node?
    var next: Node?

    constructor (key: string)
      ensures this.key == key && prev == null && next == null
    {
      this.key := key;
      prev, next := null, null;
    }
  }

  class LRU {
    var head: Node?
    var tail: Node?
    ghost var nodes: seq<Node>
    ghost var members: set<Node>

    /** Both pointer chains spell the ghost sequence: forwards through next, backwards through prev. */
    ghost predicate Valid()
      reads this, members
    {
      && Distinct(nodes)
      && head == (if nodes == [] then null else nodes[0])
      && tail == (if nodes == [] then null else nodes[|nodes| - 1])
      && (forall i :: 0 <= i < |nodes| ==> nodes[i] in members)
      && (forall i {:trigger nodes[i].prev} :: 0 <= i < |nodes| ==>
            nodes[i].prev == if i == 0 then null else nodes[i - 1])
      && (forall i {:trigger nodes[i].next} :: 0 <= i < |nodes| ==>
            nodes[i].next == if i == |nodes| - 1 then null else nodes[i + 1])
    }

    constructor ()
      ensures Valid() && nodes == [] && members == {}
    {
      head, tail := null, null;
      nodes, members := [], {};
    }

    /** Unlinks the node at position k; the removed node keeps its stale pointers. */
    method RemoveNode(node: Node, ghost k: nat)
      requires Valid() && k < |nodes| && nodes[k] == node
      modifies this, members
      ensures Valid() && members == old(members) && nodes == old(nodes[..k] + nodes[k + 1..])
    {
      hide Distinct;
      DistinctPairs(nodes);
      RemoveDistinct(nodes, k);
      if head == node && tail == node {
        assert |nodes| == 1 && nodes[..k] + nodes[k + 1..] == [];
        head, tail := null, null;
        nodes := [];
        return;
      }
      if head != node && tail != node {
        RemoveMiddle(node, k);
        return;
      }
      if head == node {
        assert k == 0 && nodes[..k] + nodes[k + 1..] == nodes[1..];
        RemoveHead(node);
        return;
      }
      assert k == |nodes| - 1 && nodes[..k] + nodes[k + 1..] == nodes[..k];
      tail := node.prev;
      node.prev.next := null;
      nodes := nodes[..k];
    }

    method RemoveHead(node: Node)
      requires Valid() && |nodes| > 1 && nodes[0] == node && Distinct(nodes[1..])
      modifies this, members
      ensures Valid() && members == old(members) && nodes == old(nodes[1..])
    {
      hide Distinct;
      DistinctPairs(nodes);
      head := node.next;
      node.next.prev := null;
      nodes := nodes[1..];
    }

    method RemoveMiddle(node: Node, ghost k: nat)
      requires Valid() && 0 < k < |nodes| - 1 && nodes[k] == node
      modifies this, members
      ensures Valid() && members == old(members) && nodes == old(nodes[..k] + nodes[k + 1..])
    {
      hide Distinct;
      DistinctPairs(nodes);
      RemoveDistinct(nodes, k);
      ghost var before := nodes;
      nodes := nodes[..k] + nodes[k + 1..];
      assert node.prev == before[k - 1] && node.next == before[k + 1];
      node.prev.next := node.next;
      node.next.prev := node.prev;
      forall i | 0 <= i < |nodes|
        ensures nodes[i] in members
        ensures nodes[i].prev == (if i == 0 then null else nodes[i - 1])
        ensures nodes[i].next == (if i == |nodes| - 1 then null else nodes[i + 1])
      {
        var j := if i < k then i else i + 1;
        assert nodes[i] == before[j];
      }
    }

    method AddToFront(node: Node)
      requires Valid() && forall i :: 0 <= i < |nodes| ==> nodes[i] != node
      modifies this, members, node
      ensures Valid() && members == old(members) + {node} && nodes == [node] + old(nodes)
    {
      nodes, members := [node] + nodes, members + {node};
      if head == null && tail == null {
        head, tail := node, node;
        node.next, node.prev := null, null;
        return;
      }
      node.prev := null;
      node.next := head;
      head.prev := node;
      head := node;
    }

    method MoveToFront(node: Node, ghost k: nat)
      requires Valid() && k < |nodes| && nodes[k] == node
      modifies this, members
      ensures Valid() && members == old(members) && nodes == [node] + old(nodes[..k] + nodes[k + 1..])
    {
      DistinctPairs(nodes);
      if head == node {
        assert k == 0;
        assert nodes == [node] + (nodes[..k] + nodes[k + 1..]);
        return;
      }
      RemoveNode(node, k);
      AddToFront(node);
    }

    method RemoveLRU() returns (key: string)
      requires Valid()
      modifies this, members
      ensures Valid() && members == old(members)
      ensures old(nodes) == [] ==> key == "" && nodes == []
      ensures old(nodes) != [] ==> key == old(nodes[|nodes| - 1].key) && nodes == old(nodes[..|nodes| - 1])
    {
      if tail == null {
        return "";
      }
      key := tail.key;
      RemoveNode(tail, |nodes| - 1);
    }

    method Add(key: string) returns (node: Node)
      requires Valid()
      modifies this, members
      ensures Valid() && fresh(node) && node.key == key
      ensures members == old(members) + {node} && nodes == [node] + old(nodes)
    {
      node := new Node(key);
      AddToFront(node);
    }
  }
}
