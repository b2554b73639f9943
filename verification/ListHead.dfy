// The intrusive circular list: list_head operations on the nodes of a ring.
// The structure that embeds a list_head is identified with it, so a node also
// carries the data of its container and list_entry is the identity.
module ListHead {

  datatype NodeData = NodeData(status: bool, line: int, timeOut: int, payload: seq<bv8>)

  class Node {
    var next: Node?
    var prev: Node?
    var data: NodeData

    constructor (data: NodeData)
      ensures next == null && prev == null && this.data == data
    {
      next, prev := null, null;
      this.data := data;
    }
  }

  predicate Distinct(s: seq<Node>) {
    forall i, j :: 0 <= i < j < |s| ==> s[i] != s[j]
  }

  function First(head: Node, nodes: seq<Node>): Node {
    if nodes == [] then head else nodes[0]
  }

  function Last(head: Node, nodes: seq<Node>): Node {
    if nodes == [] then head else nodes[|nodes| - 1]
  }

  // head followed by nodes, in this order, and closed to a ring of distinct
  // nodes: next and prev are inverse to each other.
  ghost predicate Ring(head: Node, nodes: seq<Node>)
    reads head, nodes
  {
    && head !in nodes && Distinct(nodes)
    && head.next == First(head, nodes) && head.prev == Last(head, nodes)
    && (forall i {:trigger nodes[i].next} ::
          0 <= i < |nodes| ==> nodes[i].next == if i + 1 < |nodes| then nodes[i + 1] else head)
    && (forall i {:trigger nodes[i].prev} ::
          0 <= i < |nodes| ==> nodes[i].prev == if i > 0 then nodes[i - 1] else head)
  }

  lemma DistinctJoin(a: seq<Node>, b: seq<Node>)
    ensures Distinct(a + b) <==> Distinct(a) && Distinct(b) && forall x :: x in a ==> x !in b
  {
    var s := a + b;
    if Distinct(s) {
      forall i, j | 0 <= i < j < |a| ensures a[i] != a[j] { assert s[i] != s[j]; }
      forall i, j | 0 <= i < j < |b| ensures b[i] != b[j] { assert s[|a| + i] != s[|a| + j]; }
      forall i, j | 0 <= i < |a| && 0 <= j < |b| ensures a[i] != b[j] { assert s[i] != s[|a| + j]; }
    }
    if Distinct(a) && Distinct(b) && forall x :: x in a ==> x !in b {
      forall i, j | 0 <= i < j < |s| ensures s[i] != s[j] {
        if i < |a| <= j { assert s[i] in a && s[j] == b[j - |a|]; }
      }
    }
  }

  // A ring can be entered at any of its nodes.
  lemma EnterAt(head: Node, a: seq<Node>, x: Node, b: seq<Node>)
    requires Ring(head, a + [x] + b)
    ensures Ring(x, b + [head] + a)
  {
    var s, t := a + [x] + b, b + [head] + a;
    assert x.next == First(x, t) && x.prev == Last(x, t) by { assert s[|a|] == x; }
    DistinctJoin(a + [x], b);
    DistinctJoin(a, [x]);
    DistinctJoin(b + [head], a);
    DistinctJoin(b, [head]);
    assert forall i :: 0 <= i < |b| ==> s[|a| + 1 + i] == t[i];
    assert forall i :: |b| < i < |t| ==> s[i - |b| - 1] == t[i];
  }

  method InitListHead(list: Node)
    modifies list`next, list`prev
    ensures Ring(list, [])
  {
    list.next := list;
    list.prev := list;
  }

  // __list_add
  method Link(newNode: Node, prev: Node, next: Node)
    requires newNode != prev && newNode != next
    modifies newNode`next, newNode`prev, prev`next, next`prev
    ensures next.prev == newNode && newNode.next == next && newNode.prev == prev && prev.next == newNode
  {
    next.prev := newNode;
    newNode.next := next;
    newNode.prev := prev;
    prev.next := newNode;
  }

  // __list_del
  method Unlink(prev: Node, next: Node)
    modifies prev`next, next`prev
    ensures next.prev == prev && prev.next == next
  {
    next.prev := prev;
    prev.next := next;
  }

  method ListAdd(newNode: Node, head: Node, ghost nodes: seq<Node>)
    requires Ring(head, nodes) && newNode != head && newNode !in nodes
    modifies newNode`next, newNode`prev, head`next, First(head, nodes)`prev
    ensures Ring(head, [newNode] + nodes)
  {
    Link(newNode, head, head.next);
    assert forall i :: 0 < i <= |nodes| ==> ([newNode] + nodes)[i] == nodes[i - 1];
  }

  method ListAddTail(newNode: Node, head: Node, ghost nodes: seq<Node>)
    requires Ring(head, nodes) && newNode != head && newNode !in nodes
    modifies newNode`next, newNode`prev, head`prev, Last(head, nodes)`next
    ensures Ring(head, nodes + [newNode])
  {
    Link(newNode, head.prev, head);
  }

  // __list_del_entry: entry leaves the ring but keeps its own links.
  method Detach(entry: Node, ghost head: Node, ghost a: seq<Node>, ghost b: seq<Node>)
    requires Ring(head, a + [entry] + b)
    modifies Last(head, a)`next, First(head, b)`prev
    ensures Ring(head, a + b) && entry.next == First(head, b) && entry.prev == Last(head, a)
  {
    ghost var s, t := a + [entry] + b, a + b;
    assert s[|a|] == entry;
    DistinctJoin(a + [entry], b);
    DistinctJoin(a, [entry]);
    DistinctJoin(a, b);
    hide Distinct;
    Unlink(entry.prev, entry.next);
    assert forall i :: 0 <= i < |t| ==> t[i] == s[if i < |a| then i else i + 1];
  }

  method ListDel(entry: Node, ghost head: Node, ghost a: seq<Node>, ghost b: seq<Node>)
    requires Ring(head, a + [entry] + b)
    modifies Last(head, a)`next, First(head, b)`prev, entry`next, entry`prev
    ensures Ring(head, a + b) && entry.next == null && entry.prev == null
  {
    NotIn(head, a, entry, b);
    Detach(entry, head, a, b);
    entry.next := null;
    entry.prev := null;
  }

  lemma NotIn(head: Node, a: seq<Node>, x: Node, b: seq<Node>)
    requires Ring(head, a + [x] + b)
    ensures x != head && x !in a + b
  {
    DistinctJoin(a + [x], b);
    DistinctJoin(a, [x]);
    assert (a + [x] + b)[|a|] == x;
  }

  method ListDelInit(entry: Node, ghost head: Node, ghost a: seq<Node>, ghost b: seq<Node>)
    requires Ring(head, a + [entry] + b)
    modifies Last(head, a)`next, First(head, b)`prev, entry`next, entry`prev
    ensures Ring(head, a + b) && Ring(entry, [])
  {
    NotIn(head, a, entry, b);
    Detach(entry, head, a, b);
    InitListHead(entry);
  }

  // old_ may stand alone or head a list; the new node takes its place.
  method ListReplace(old_: Node, newNode: Node, ghost others: seq<Node>)
    requires Ring(old_, others) && newNode != old_ && newNode !in others
    modifies newNode`next, newNode`prev, old_`next, old_`prev, First(old_, others)`prev, Last(old_, others)`next
    ensures Ring(newNode, others)
  {
    newNode.next := old_.next;
    newNode.next.prev := newNode;
    newNode.prev := old_.prev;
    newNode.prev.next := newNode;
  }

  method ListReplaceInit(old_: Node, newNode: Node, ghost others: seq<Node>)
    requires Ring(old_, others) && newNode != old_ && newNode !in others
    modifies newNode`next, newNode`prev, old_`next, old_`prev, First(old_, others)`prev, Last(old_, others)`next
    ensures Ring(newNode, others) && Ring(old_, [])
  {
    ListReplace(old_, newNode, others);
    InitListHead(old_);
  }

  method ListEmpty(head: Node) returns (empty: bool)
    ensures empty <==> head.next == head
  {
    empty := head.next == head;
  }

  method ListIsSingular(head: Node) returns (singular: bool)
    ensures singular <==> head.next != head && head.next == head.prev
  {
    singular := head.next != head && head.next == head.prev;
  }

  // Within one ring.
  method ListMove(list: Node, head: Node, ghost a: seq<Node>, ghost b: seq<Node>)
    requires Ring(head, a + [list] + b)
    modifies head, a, b, list
    ensures Ring(head, [list] + (a + b))
    ensures forall x :: x in [head] + a + [list] + b ==> x.data == old(x.data)
  {
    NotIn(head, a, list, b);
    Detach(list, head, a, b);
    ListAdd(list, head, a + b);
  }

  method ListMoveTail(list: Node, head: Node, ghost a: seq<Node>, ghost b: seq<Node>)
    requires Ring(head, a + [list] + b)
    modifies head, a, b, list
    ensures Ring(head, a + b + [list])
    ensures forall x :: x in [head] + a + [list] + b ==> x.data == old(x.data)
  {
    NotIn(head, a, list, b);
    Detach(list, head, a, b);
    ListAddTail(list, head, a + b);
  }

  // The two rings share no node.
  predicate Apart(h: Node, s: seq<Node>, g: Node, t: seq<Node>) {
    h != g && h !in t && g !in s && forall x :: x in s ==> x !in t
  }

  lemma NoneOf(from: Node, a: seq<Node>, list: Node, b: seq<Node>, head: Node, c: seq<Node>)
    requires Apart(from, a + [list] + b, head, c)
    ensures head != Last(from, a) && head != First(from, b) && list != head && list !in c
    ensures forall i {:trigger c[i]} :: 0 <= i < |c| ==> c[i] != Last(from, a) && c[i] != First(from, b)
  {
    var s := a + [list] + b;
    assert s[|a|] == list;
    assert a != [] ==> s[|a| - 1] == Last(from, a);
    assert b != [] ==> s[|a| + 1] == First(from, b);
    assert Last(from, a) !in c && First(from, b) !in c;
  }

  // From one ring to another.
  method ListMoveAcross(
      list: Node, head: Node, ghost from: Node, ghost a: seq<Node>, ghost b: seq<Node>, ghost c: seq<Node>)
    requires Ring(from, a + [list] + b) && Ring(head, c) && Apart(from, a + [list] + b, head, c)
    modifies from, a, b, list, head, c
    ensures Ring(from, a + b) && Ring(head, [list] + c)
    ensures forall x :: x in [from] + a + [list] + b + [head] + c ==> x.data == old(x.data)
  {
    NotIn(from, a, list, b);
    assert (a + [list] + b)[|a|] == list;
    NoneOf(from, a, list, b, head, c);
    Detach(list, from, a, b);
    ListAdd(list, head, c);
  }

  method ListMoveTailAcross(
      list: Node, head: Node, ghost from: Node, ghost a: seq<Node>, ghost b: seq<Node>, ghost c: seq<Node>)
    requires Ring(from, a + [list] + b) && Ring(head, c) && Apart(from, a + [list] + b, head, c)
    modifies from, a, b, list, head, c
    ensures Ring(from, a + b) && Ring(head, c + [list])
    ensures forall x :: x in [from] + a + [list] + b + [head] + c ==> x.data == old(x.data)
  {
    NotIn(from, a, list, b);
    assert (a + [list] + b)[|a|] == list;
    NoneOf(from, a, list, b, head, c);
    Detach(list, from, a, b);
    ListAddTail(list, head, c);
  }

  method ListRotateLeft(head: Node, ghost nodes: seq<Node>)
    requires Ring(head, nodes)
    modifies head, nodes
    ensures Ring(head, if nodes == [] then [] else nodes[1..] + [nodes[0]])
    ensures forall x :: x in [head] + nodes ==> x.data == old(x.data)
  {
    var empty := ListEmpty(head);
    if !empty {
      var first := head.next;
      assert [] + [first] + nodes[1..] == nodes && [] + nodes[1..] == nodes[1..];
      ListMoveTail(first, head, [], nodes[1..]);
    }
  }

  // __list_cut_position
  method Cut(list: Node, head: Node, entry: Node, ghost a: seq<Node>, ghost b: seq<Node>)
    requires Ring(head, a + b) && list != head && list !in a + b
    requires a != [] && entry == a[|a| - 1]
    modifies list, head, entry`next, First(list, a)`prev, First(head, b)`prev
    ensures Ring(list, a) && Ring(head, b)
    ensures forall x :: x in [list, head] + a + b ==> x.data == old(x.data)
  {
    ghost var s := a + b;
    DistinctJoin(a, b);
    assert forall i :: 0 <= i < |a| ==> s[i] == a[i];
    assert forall i :: 0 <= i < |b| ==> s[|a| + i] == b[i];
    var newFirst := entry.next;
    list.next := head.next;
    list.next.prev := list;
    list.prev := entry;
    entry.next := list;
    head.next := newFirst;
    newFirst.prev := head;
  }

  // Moves the nodes up to and including entry to list. An empty ring is left
  // alone, list included, whatever entry is; so is a ring of one node when entry
  // is not on it.
  method ListCutPosition(list: Node, head: Node, entry: Node, ghost a: seq<Node>, ghost b: seq<Node>)
    requires Ring(head, a + b) && list != head && list !in a + b
    requires a + b == [] || if a == [] then entry == head || (|b| == 1 && entry != b[0]) else entry == a[|a| - 1]
    modifies list, head, a, b
    ensures if a + b == [] || (a == [] && entry != head)
            then Ring(head, a + b) && list.next == old(list.next) && list.prev == old(list.prev)
            else Ring(list, a) && Ring(head, b)
    ensures forall x :: x in [list, head] + a + b ==> x.data == old(x.data)
  {
    var empty := ListEmpty(head);
    if empty {
      return;
    }
    var singular := ListIsSingular(head);
    if singular && head.next != entry && head != entry {
      return;
    }
    if entry == head {
      assert a == [] && a + b == b;
      hide Distinct, Last;
      InitListHead(list);
    } else {
      hide Ring;
      Cut(list, head, entry, a, b);
    }
  }

  // __list_splice behind head, and before it
  method SpliceAfter(list: Node, head: Node, ghost a: seq<Node>, ghost b: seq<Node>)
    requires Ring(list, a) && Ring(head, b) && Apart(list, a, head, b) && a != []
    modifies First(list, a)`prev, head`next, Last(list, a)`next, First(head, b)`prev
    ensures Ring(head, a + b)
  {
    ghost var s := a + b;
    assert Distinct(s) by { DistinctJoin(a, b); }
    assert forall i :: 0 <= i < |a| ==> s[i] == a[i];
    assert forall i :: 0 <= i < |b| ==> s[|a| + i] == b[i];
    assert forall i {:trigger b[i]} :: 0 <= i < |b| ==> b[i] != a[0] && b[i] != a[|a| - 1];
    var first, last, next := list.next, list.prev, head.next;
    first.prev := head;
    head.next := first;
    last.next := next;
    next.prev := last;
  }

  method SpliceBefore(list: Node, head: Node, ghost a: seq<Node>, ghost b: seq<Node>)
    requires Ring(list, a) && Ring(head, b) && Apart(list, a, head, b) && a != []
    modifies First(list, a)`prev, head`prev, Last(list, a)`next, Last(head, b)`next
    ensures Ring(head, b + a)
  {
    ghost var s := b + a;
    assert Distinct(s) by { DistinctJoin(b, a); }
    hide Distinct;
    assert forall i :: 0 <= i < |b| ==> s[i] == b[i];
    assert forall i :: 0 <= i < |a| ==> s[|b| + i] == a[i];
    assert forall i {:trigger b[i]} :: 0 <= i < |b| ==> b[i] != a[0] && b[i] != a[|a| - 1];
    var first, last, prev := list.next, list.prev, head.prev;
    first.prev := prev;
    prev.next := first;
    last.next := head;
    head.prev := last;
  }

  method ListSplice(list: Node, head: Node, ghost a: seq<Node>, ghost b: seq<Node>)
    requires Ring(list, a) && Ring(head, b) && Apart(list, a, head, b)
    modifies a, head, b
    ensures Ring(head, a + b)
    ensures forall x :: x in [list, head] + a + b ==> x.data == old(x.data)
  {
    var empty := ListEmpty(list);
    if !empty {
      SpliceAfter(list, head, a, b);
    } else {
      assert a + b == b;
    }
  }

  method ListSpliceTail(list: Node, head: Node, ghost a: seq<Node>, ghost b: seq<Node>)
    requires Ring(list, a) && Ring(head, b) && Apart(list, a, head, b)
    modifies a, head, b
    ensures Ring(head, b + a)
    ensures forall x :: x in [list, head] + a + b ==> x.data == old(x.data)
  {
    var empty := ListEmpty(list);
    if !empty {
      SpliceBefore(list, head, a, b);
    } else {
      assert b + a == b;
    }
  }

  method ListSpliceInit(list: Node, head: Node, ghost a: seq<Node>, ghost b: seq<Node>)
    requires Ring(list, a) && Ring(head, b) && Apart(list, a, head, b)
    modifies a, head, b, list
    ensures Ring(head, a + b) && Ring(list, [])
    ensures forall x :: x in [list, head] + a + b ==> x.data == old(x.data)
  {
    var empty := ListEmpty(list);
    if !empty {
      SpliceAfter(list, head, a, b);
      InitListHead(list);
    } else {
      assert a + b == b;
    }
  }

  method ListSpliceTailInit(list: Node, head: Node, ghost a: seq<Node>, ghost b: seq<Node>)
    requires Ring(list, a) && Ring(head, b) && Apart(list, a, head, b)
    modifies a, head, b, list
    ensures Ring(head, b + a) && Ring(list, [])
    ensures forall x :: x in [list, head] + a + b ==> x.data == old(x.data)
  {
    var empty := ListEmpty(list);
    if !empty {
      SpliceBefore(list, head, a, b);
      InitListHead(list);
    } else {
      assert b + a == b;
    }
  }

  // Cutting a ring and splicing the part back restores every link.
  method CutAndSpliceBack(list: Node, head: Node, entry: Node, ghost a: seq<Node>, ghost b: seq<Node>)
    requires Ring(head, a + b) && list != head && list !in a + b && a + b != []
    requires if a == [] then entry == head else entry == a[|a| - 1]
    modifies list, head, a, b
    ensures Ring(head, a + b)
    ensures head.next == old(head.next) && head.prev == old(head.prev)
    ensures forall x :: x in a + b ==> x.next == old(x.next) && x.prev == old(x.prev)
    ensures forall x :: x in [list, head] + a + b ==> x.data == old(x.data)
  {
    DistinctJoin(a, b);
    ListCutPosition(list, head, entry, a, b);
    ListSplice(list, head, a, b);
    assert forall i {:trigger (a + b)[i]} :: 0 <= i < |a + b| ==>
        (a + b)[i].next == old((a + b)[i].next) && (a + b)[i].prev == old((a + b)[i].prev);
  }
}
