/** The request queue: a doubly linked list that is only appended to and popped from. */
module Queues {
  import opened Wrappers

  class LinkedNode<D> {
    const data: D
    var prev: LinkedNode?<D>
    var next: LinkedNode?<D>

    constructor (data: D)
      ensures this.data == data && prev == null && next == null
    {
      this.data, prev, next := data, null, null;
    }
  }

  function At<D>(s: seq<LinkedNode<D>>, j: nat): LinkedNode?<D> {
    if j < |s| then s[j] else null
  }

  function DataOf<D>(s: seq<LinkedNode<D>>): (r: seq<D>)
    ensures |r| == |s| && forall i :: 0 <= i < |r| ==> r[i] == s[i].data
  {
    seq(|s|, i requires 0 <= i < |s| => s[i].data)
  }

  class Queue<D> {
    var head: LinkedNode?<D>
    var tail: LinkedNode?<D>
    ghost var nodes: seq<LinkedNode<D>>

    /** The nodes are doubly linked, except that the `prev` of the first is not relied on; of an
        empty queue the `tail` is not relied on either. */
    ghost predicate Valid()
      reads this, nodes
    {
      && (forall i, j :: 0 <= i < j < |nodes| ==> nodes[i] != nodes[j])
      && head == At(nodes, 0) && (nodes != [] ==> tail == nodes[|nodes| - 1])
      && (forall j :: 0 <= j < |nodes| ==> nodes[j].next == At(nodes, j + 1))
      && (forall j :: 0 < j < |nodes| ==> nodes[j].prev == nodes[j - 1])
    }

    ghost function Contents(): seq<D>
      reads this
    {
      DataOf(nodes)
    }

    /** The tail is left as the allocator hands it out. */
    constructor ()
      ensures Valid() && Contents() == []
    {
      head, nodes := null, [];
      tail := *;
    }

    method Add(data: D)
      requires Valid()
      modifies this, nodes
      ensures Valid() && fresh((set x | x in nodes) - old(set x | x in nodes))
      ensures Contents() == old(Contents()) + [data]
    {
      var newNode := new LinkedNode(data);
      if head == null || tail == null {
        head, tail := newNode, newNode;
      } else {
        tail.next := newNode;
        newNode.prev := tail;
        tail := newNode;
      }
      nodes := nodes + [newNode];
    }

    /** Only `head` moves on: `tail` and the `prev` of the new first node keep naming the freed node. */
    method Pop() returns (r: Option<D>)
      requires Valid()
      modifies this
      ensures Valid() && (forall x <- nodes :: x in old(nodes))
      ensures old(Contents()) == [] ==> r == None && Contents() == []
      ensures old(Contents()) != [] ==> r == Some(old(Contents())[0]) && Contents() == old(Contents())[1..]
    {
      if head == null {
        return None;
      }
      var node := head;
      head := node.next;
      nodes := nodes[1..];
      return Some(node.data);
    }

    method Peek() returns (r: Option<D>)
      requires Valid()
      ensures r == if Contents() == [] then None else Some(Contents()[0])
    {
      return if head == null then None else Some(head.data);
    }
  }
}
