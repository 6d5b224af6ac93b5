/**
 The doubly linked list behind every table (or_utils.c). The other modules keep a list as
 the sequence of its data; this one shows that the pointer operations act on that sequence.
 */
module LinkedList {
  import Selection


  class Node<T> {
    var prev: Node?<T>
    var next: Node?<T>
    var data: T

    constructor (data: T)
      ensures prev == null && next == null && this.data == data
    {
      prev, next := null, null;
      this.data := data;
    }
  }

  ghost predicate Distinct<T>(nodes: seq<Node<T>>) {
    forall i, j :: 0 <= i < j < |nodes| ==> nodes[i] != nodes[j]
  }

  function At<T>(nodes: seq<Node<T>>, i: int): Node?<T> {
    if 0 <= i < |nodes| then nodes[i] else null
  }

  /** `nodes` are the nodes of the list at `head`, linked in both directions. */
  ghost predicate IsList<T>(head: Node?<T>, nodes: seq<Node<T>>)
    reads nodes
  {
    && head == At(nodes, 0)
    && Distinct(nodes)
    && (forall i {:trigger nodes[i].prev} :: 0 <= i < |nodes| ==> nodes[i].prev == At(nodes, i - 1))
    && (forall i {:trigger nodes[i].next} :: 0 <= i < |nodes| ==> nodes[i].next == At(nodes, i + 1))
  }

  /** The data of the list, in order. */
  ghost function Contents<T>(nodes: seq<Node<T>>): (s: seq<T>)
    reads nodes
    ensures |s| == |nodes| && forall i :: 0 <= i < |nodes| ==> s[i] == nodes[i].data
  {
    seq(|nodes|, i requires 0 <= i < |nodes| reads nodes => nodes[i].data)
  }

  function Without<T>(s: seq<T>, k: nat): (r: seq<T>)
    requires k < |s|
    ensures |r| == |s| - 1 && forall i :: 0 <= i < |r| ==> r[i] == if i < k then s[i] else s[i + 1]
  {
    s[..k] + s[k + 1..]
  }

  lemma WithoutIsDistinct<T>(nodes: seq<Node<T>>, k: nat)
    requires k < |nodes| && Distinct(nodes)
    ensures Distinct(Without(nodes, k)) && nodes[k] !in Without(nodes, k)
  {
    var r := Without(nodes, k);
    forall i, j | 0 <= i < j < |r| ensures r[i] != r[j] {
      assert r[i] == nodes[if i < k then i else i + 1] && r[j] == nodes[if j < k then j else j + 1];
    }
  }

  method NodePushBack<T>(head: Node<T>, n: Node<T>, ghost nodes: seq<Node<T>>)
    requires IsList(head, nodes) && n !in nodes && n.next == null
    modifies nodes, n
    ensures IsList(head, nodes + [n])
    ensures Contents(nodes + [n]) == old(Contents(nodes)) + [old(n.data)]
  {
    var cur, k := FindLast(head, nodes);
    cur.next := n;
    n.prev := cur;
  }

  /** Unlinks the `k`-th node; the result is the new head. */
  method NodeRemove<T>(head: Node<T>, n: Node<T>, ghost nodes: seq<Node<T>>, ghost k: nat) returns (head': Node?<T>)
    requires IsList(head, nodes) && k < |nodes| && nodes[k] == n
    modifies nodes
    ensures IsList(head', Without(nodes, k))
    ensures forall m :: m in nodes ==> m.data == old(m.data)
    ensures n.next == old(n.next)
    ensures Contents(Without(nodes, k)) == Without(old(Contents(nodes)), k)
  {
    head' := Splice(head, n, nodes, k);
  }

  /** The four positions of a node: alone, first, last, or between two others. */
  method Splice<T>(head: Node<T>, n: Node<T>, ghost nodes: seq<Node<T>>, ghost k: nat) returns (head': Node?<T>)
    requires IsList(head, nodes) && k < |nodes| && nodes[k] == n
    modifies nodes
    ensures IsList(head', Without(nodes, k))
    ensures forall m :: m in nodes ==> m.data == old(m.data)
    ensures n.next == old(n.next)
  {
    WithoutIsDistinct(nodes, k);
    head' := head;
    if n.next == null && n.prev == null {
      head' := null;
    } else if n.prev == null {
      head' := n.next;
      head'.prev := null;
    } else if n.next == null {
      n.prev.next := null;
    } else {
      n.prev.next := n.next;
      n.next.prev := n.prev;
    }
  }

  /** A node before the first. */
  method NodePushFront<T>(head: Node?<T>, n: Node<T>, ghost nodes: seq<Node<T>>) returns (head': Node<T>)
    requires IsList(head, nodes) && n !in nodes && n.prev == null && n.next == null
    modifies nodes`prev, nodes`next, n`prev, n`next
    ensures IsList(head', [n] + nodes)
  {
    if head != null {
      head.prev := n;
      n.next := head;
      n.prev := null;
    }
    head' := n;
  }

  /** A node before the first, while the last one leaves; a list of fewer than two is left alone. */
  method NodeInsertFront<T>(head: Node?<T>, n: Node<T>, ghost nodes: seq<Node<T>>)
    returns (head': Node?<T>, ghost nodes': seq<Node<T>>)
    requires IsList(head, nodes) && n !in nodes && n.prev == null && n.next == null
    modifies nodes`prev, nodes`next, n`prev, n`next
    ensures IsList(head', nodes') && nodes' == if |nodes| <= 1 then nodes else [n] + nodes[..|nodes| - 1]
  {
    head', nodes' := head, nodes;
    if head == null || head.next == null {
      return;
    }
    var last, k := FindLast(head, nodes);
    last.prev.next := null;
    WithoutIsDistinct(nodes, k);
    assert nodes[..k] == Without(nodes, k);
    head' := NodePushFront(head, n, nodes[..k]);
    nodes' := [n] + nodes[..k];
  }

  method FindLast<T>(head: Node<T>, ghost nodes: seq<Node<T>>) returns (cur: Node<T>, ghost k: nat)
    requires IsList(head, nodes)
    ensures k == |nodes| - 1 && cur == nodes[k]
  {
    cur, k := head, 0;
    while cur.next != null
      invariant 0 <= k < |nodes| && cur == nodes[k]
      decreases |nodes| - k
    {
      cur, k := cur.next, k + 1;
    }
  }

  /** A node moves to the front; the first one stays where it is. */
  method NodeUpdate<T>(head: Node<T>, n: Node<T>, ghost nodes: seq<Node<T>>, ghost k: nat) returns (head': Node<T>)
    requires IsList(head, nodes) && k < |nodes| && nodes[k] == n
    modifies nodes`prev, nodes`next
    ensures IsList(head', [n] + Without(nodes, k))
  {
    WithoutIsDistinct(nodes, k);
    if n.prev == null {
      assert k == 0 && nodes == [n] + Without(nodes, 0);
      return head;
    }
    Detach(head, n, nodes, k);
    head' := NodePushFront(head, n, Without(nodes, k));
  }

  /** Takes a node that is not the first out of the list. */
  method Detach<T>(head: Node<T>, n: Node<T>, ghost nodes: seq<Node<T>>, ghost k: nat)
    requires IsList(head, nodes) && 0 < k < |nodes| && nodes[k] == n
    modifies nodes`prev, nodes`next
    ensures IsList(head, Without(nodes, k)) && n.prev == null && n.next == null
  {
    WithoutIsDistinct(nodes, k);
    n.prev.next := n.next;
    if n.next != null {
      n.next.prev := n.prev;
    }
    n.prev, n.next := null, null;
  }

  method NodeLength<T>(head: Node?<T>, ghost nodes: seq<Node<T>>) returns (len: nat)
    requires IsList(head, nodes)
    ensures len == |nodes|
  {
    len := 0;
    var walker := head;
    while walker != null
      invariant len <= |nodes| && walker == At(nodes, len)
      decreases |nodes| - len
    {
      len := len + 1;
      walker := walker.next;
    }
  }

  /** The elements that do not satisfy `p`. */
  function Rejected<T>(p: T -> bool, s: seq<T>): seq<T> {
    if s == [] then [] else (if p(s[0]) then [] else [s[0]]) + Rejected(p, s[1..])
  }

  lemma {:induction false} RejectedIs<T>(p: T -> bool, s: seq<T>)
    ensures Rejected(p, s) == Selection.Filter((x: T) => !p(x), s)
  {
    if s != [] {
      RejectedIs(p, s[1..]);
      Selection.FilterFirst((x: T) => !p(x), s);
    }
  }

  /** The list once the elements from position `k` on have been swept too. */
  function Kept<T>(p: T -> bool, s: seq<T>, k: nat): seq<T>
    requires k <= |s|
  {
    s[..k] + Rejected(p, s[k..])
  }

  lemma SweepStep<T>(p: T -> bool, s: seq<T>, k: nat)
    requires k < |s|
    ensures Kept(p, s, k) == if p(s[k]) then Kept(p, Without(s, k), k) else Kept(p, s, k + 1)
  {
    assert s[k..][1..] == s[k + 1..] == Without(s, k)[k..];
    assert s[..k + 1] == s[..k] + [s[k]];
    assert Without(s, k)[..k] == s[..k];
  }

  lemma SweepEnds<T>(p: T -> bool, all: seq<T>, s: seq<T>)
    ensures Kept(p, all, 0) == Rejected(p, all) && Kept(p, s, |s|) == s
  {
    assert all[0..] == all && s[..|s|] == s;
  }

  /**
   The way every table is swept: the successor is read before the current node is unlinked.
   The sweep removes exactly the elements that satisfy `p` and keeps the others in order.
   */
  method RemoveWhere<T>(head: Node?<T>, p: T -> bool, ghost nodes: seq<Node<T>>)
    returns (head': Node?<T>, ghost nodes': seq<Node<T>>)
    requires IsList(head, nodes)
    modifies nodes
    ensures IsList(head', nodes')
    ensures Contents(nodes') == Rejected(p, old(Contents(nodes)))
  {
    head', nodes' := head, nodes;
    var cur := head;
    ghost var k, was := 0, Contents(nodes);
    while cur != null
      invariant 0 <= k <= |nodes'| && cur == At(nodes', k)
      invariant forall i :: 0 <= i < |nodes'| ==> nodes'[i] in nodes
      invariant IsList(head', nodes') && Kept(p, Contents(nodes'), k) == Kept(p, was, 0)
      decreases |nodes'| - k
    {
      head', cur, nodes', k := VisitNode(head', cur, p, nodes', k);
    }
    SweepEnds(p, was, Contents(nodes'));
  }

  /** One turn of the sweep. */
  method VisitNode<T>(head: Node?<T>, cur: Node<T>, p: T -> bool, ghost nodes: seq<Node<T>>, ghost k: nat)
    returns (head': Node?<T>, next: Node?<T>, ghost nodes': seq<Node<T>>, ghost k': nat)
    requires IsList(head, nodes) && k < |nodes| && cur == nodes[k]
    modifies nodes
    ensures IsList(head', nodes') && k' <= |nodes'| && next == At(nodes', k') && |nodes'| - k' < |nodes| - k
    ensures forall i :: 0 <= i < |nodes'| ==> nodes'[i] in nodes
    ensures Kept(p, Contents(nodes'), k') == Kept(p, old(Contents(nodes)), k)
  {
    next := cur.next;
    SweepStep(p, Contents(nodes), k);
    if p(cur.data) {
      head' := NodeRemove(head, cur, nodes, k);
      nodes', k' := Without(nodes, k), k;
    } else {
      head', nodes', k' := head, nodes, k + 1;
    }
  }
}
