/**
 The singly linked list under the key stores, on the heap. A list is a head pointer; the
 sequence of its nodes is ghost and passed along. An element without data is the source's
 null data pointer.
 */
module LinkedList {
  import opened Prelude

  class Node<T> {
    var data: Option<T>
    var next: Node?<T>

    constructor (data: Option<T>)
      ensures this.data == data && next == null
    {
      this.data := data;
      next := null;
    }
  }

  /** The node after position i, or null at the end. */
  ghost function NextOf<T>(nodes: seq<Node<T>>, i: nat): Node?<T>
    requires i < |nodes|
  {
    if i + 1 < |nodes| then nodes[i + 1] else null
  }

  ghost predicate Distinct<T>(nodes: seq<Node<T>>) {
    forall i, j | 0 <= i < j < |nodes| :: nodes[i] != nodes[j]
  }

  /** head leads through exactly these nodes, in this order. */
  ghost predicate IsList<T>(head: Node?<T>, nodes: seq<Node<T>>)
    reads nodes
  {
    && head == (if nodes == [] then null else nodes[0])
    && Distinct(nodes)
    && forall i: nat | i < |nodes| :: nodes[i].next == NextOf(nodes, i)
  }

  ghost function Contents<T>(nodes: seq<Node<T>>): (c: seq<Option<T>>)
    reads nodes
    ensures |c| == |nodes|
  {
    seq(|nodes|, i requires 0 <= i < |nodes| reads nodes => nodes[i].data)
  }

  /** A head pointer determines its nodes: what two sequences of nodes both describe is one list. */
  lemma {:induction false} NodesUnique<T>(head: Node?<T>, xs: seq<Node<T>>, ys: seq<Node<T>>)
    requires IsList(head, xs) && IsList(head, ys)
    ensures xs == ys
  {
    if xs != [] && ys != [] {
      TailIsList(head, xs);
      TailIsList(head, ys);
      NodesUnique(xs[0].next, xs[1..], ys[1..]);
      assert xs == [xs[0]] + xs[1..] && ys == [ys[0]] + ys[1..];
    }
  }

  lemma TailIsList<T>(head: Node?<T>, nodes: seq<Node<T>>)
    requires nodes != [] && IsList(head, nodes)
    ensures IsList(nodes[0].next, nodes[1..])
  {
    assert nodes[0].next == NextOf(nodes, 0);
    forall i: nat | i < |nodes[1..]|
      ensures nodes[1..][i].next == NextOf(nodes[1..], i)
    {
      assert nodes[i + 1].next == NextOf(nodes, i + 1);
    }
  }

  method GetLast<T>(head: Node?<T>, ghost nodes: seq<Node<T>>) returns (last: Node?<T>)
    requires IsList(head, nodes)
    ensures last == if nodes == [] then null else nodes[|nodes| - 1]
  {
    if head == null {
      return null;
    }
    var cursor := head;
    ghost var at := 0;
    while cursor.next != null
      invariant at < |nodes| && cursor == nodes[at]
      decreases |nodes| - at
    {
      assert nodes[at].next == NextOf(nodes, at);
      cursor := cursor.next;
      at := at + 1;
    }
    assert nodes[at].next == NextOf(nodes, at);
    last := cursor;
  }

  method Add<T>(data: Option<T>, head: Node?<T>, ghost nodes: seq<Node<T>>)
    returns (head': Node<T>, ghost nodes': seq<Node<T>>)
    requires IsList(head, nodes)
    modifies nodes
    ensures IsList(head', nodes') && |nodes'| == |nodes| + 1 && nodes'[..|nodes|] == nodes && fresh(nodes'[|nodes|])
    ensures Contents(nodes') == old(Contents(nodes)) + [data]
  {
    var last := GetLast(head, nodes);
    var n := new Node(data);
    nodes' := nodes + [n];
    if last == null {
      head' := n;
    } else {
      last.next := n;
      head' := head;
    }
    forall i: nat | i < |nodes'|
      ensures nodes'[i].next == NextOf(nodes', i)
    {
      assert i < |nodes| ==> old(nodes[i].next) == NextOf(nodes, i);
    }
  }

  ghost function Without<T>(s: seq<T>, i: nat): seq<T>
    requires i < |s|
  {
    s[..i] + s[i + 1..]
  }

  /** Unlinks wanted when it is in the list, else changes nothing. */
  method RemoveElement<T>(wanted: Node<T>, head: Node<T>, ghost nodes: seq<Node<T>>)
    returns (head': Node?<T>, ghost nodes': seq<Node<T>>)
    requires IsList(head, nodes)
    modifies nodes
    ensures IsList(head', nodes')
    ensures wanted !in nodes ==> nodes' == nodes && forall n | n in nodes :: n.next == old(n.next)
    ensures wanted in nodes ==> wanted.next == null
    ensures forall i: nat | i < |nodes| && nodes[i] == wanted :: nodes' == Without(nodes, i)
    ensures forall n | n in nodes :: n.data == old(n.data)
  {
    var cursor := head;
    nodes' := nodes;
    if head == wanted {
      assert nodes[0].next == NextOf(nodes, 0);
      head' := head.next;
      nodes' := nodes[1..];
      head.next := null;
      return;
    }
    head' := head;
    ghost var at: nat := 0;
    while cursor.next != null
      invariant at < |nodes| && cursor == nodes[at] && IsList(head, nodes)
      invariant forall i | 0 <= i <= at :: nodes[i] != wanted
      invariant forall n | n in nodes :: n.next == old(n.next) && n.data == old(n.data)
      decreases |nodes| - at
    {
      assert nodes[at].next == NextOf(nodes, at);
      if cursor.next == wanted {
        assert nodes[at + 1].next == NextOf(nodes, at + 1);
        var found := cursor.next;
        nodes' := Without(nodes, at + 1);
        cursor.next := wanted.next;
        found.next := null;
        WithoutIsList(head, nodes, at + 1);
        return;
      }
      cursor := cursor.next;
      at := at + 1;
    }
    assert nodes[at].next == NextOf(nodes, at);
  }

  /** The links left after bypassing position k describe the list without it. */
  lemma WithoutIsList<T>(head: Node<T>, nodes: seq<Node<T>>, k: nat)
    requires 0 < k < |nodes| && head == nodes[0] && Distinct(nodes)
    requires nodes[k - 1].next == NextOf(nodes, k)
    requires forall i: nat | i < |nodes| && i != k && i != k - 1 :: nodes[i].next == NextOf(nodes, i)
    ensures IsList(head, Without(nodes, k))
  {
    var rest := Without(nodes, k);
    forall i: nat | i < |rest|
      ensures rest[i].next == NextOf(rest, i)
    {
      assert i < k ==> rest[i] == nodes[i];
      assert i >= k ==> rest[i] == nodes[i + 1];
    }
  }

  function CountData<T>(c: seq<Option<T>>): nat {
    if c == [] then 0 else CountData(c[..|c| - 1]) + if c[|c| - 1].Some? then 1 else 0
  }

  /** The number of elements that have data. */
  method Len<T>(head: Node?<T>, ghost nodes: seq<Node<T>>) returns (size: nat)
    requires IsList(head, nodes)
    ensures size == CountData(Contents(nodes))
  {
    var cursor := head;
    size := 0;
    ghost var at: nat := 0;
    while cursor != null
      invariant at <= |nodes| && cursor == (if at < |nodes| then nodes[at] else null)
      invariant size == CountData(Contents(nodes)[..at])
      decreases |nodes| - at
    {
      assert nodes[at].next == NextOf(nodes, at);
      assert Contents(nodes)[..at + 1][..at] == Contents(nodes)[..at];
      if cursor.data.Some? {
        size := size + 1;
      }
      cursor := cursor.next;
      at := at + 1;
    }
    assert Contents(nodes)[..|nodes|] == Contents(nodes);
  }

  lemma {:induction false} CountAll<T>(c: seq<Option<T>>)
    requires forall e | e in c :: e.Some?
    ensures CountData(c) == |c|
  {
    if c != [] {
      CountAll(c[..|c| - 1]);
    }
  }
}
