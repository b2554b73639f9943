// The display task list: a ring of nodes with one slot of data each. Every method
// is one section under the list's mutex, except where the text says otherwise.
module DisplayList {
  import opened Sequences
  import opened ListHead

  // ----- the list as a sequence of slots

  // The first slot of a line, or the number of slots.
  function LineIndex(slots: seq<NodeData>, line: int): (i: nat)
    ensures i <= |slots|
    ensures i < |slots| ==> slots[i].line == line
    ensures forall k :: 0 <= k < i ==> slots[k].line != line
  {
    FirstIndex(slots, (slot: NodeData) => slot.line == line)
  }

  // The first slot with this status, or the number of slots.
  function StatusIndex(slots: seq<NodeData>, status: bool): (i: nat)
    ensures i <= |slots|
    ensures i < |slots| ==> slots[i].status == status
    ensures forall k :: 0 <= k < i ==> slots[k].status != status
  {
    FirstIndex(slots, (slot: NodeData) => slot.status == status)
  }

  // Overwrite the first slot of the line, or append one; it is pending either way.
  function Posted(slots: seq<NodeData>, data: NodeData): seq<NodeData> {
    var i := LineIndex(slots, data.line);
    if i < |slots| then slots[i := data.(status := true)] else slots + [data.(status := true)]
  }

  predicate DistinctLines(slots: seq<NodeData>) {
    forall i, j :: 0 <= i < j < |slots| ==> slots[i].line != slots[j].line
  }

  // Posting keeps the lines distinct and in place.
  lemma PostKeepsLines(slots: seq<NodeData>, data: NodeData)
    ensures DistinctLines(slots) ==> DistinctLines(Posted(slots, data))
    ensures var t := Posted(slots, data);
            |slots| <= |t| && forall k :: 0 <= k < |slots| ==> t[k].line == slots[k].line
  {
  }

  // The line's first slot, or a new last one, is pending with what was posted; every
  // other slot is as it was.
  lemma PostedExactly(slots: seq<NodeData>, data: NodeData, k: nat)
    requires k < |slots|
    ensures var t := Posted(slots, data);
            && |t| == |slots| + (if exists i :: 0 <= i < |slots| && slots[i].line == data.line then 0 else 1)
            && t[k] == (if slots[k].line == data.line && forall i :: 0 <= i < k ==> slots[i].line != data.line
                        then NodeData(true, data.line, data.timeOut, data.payload) else slots[k])
            && (|t| > |slots| ==> t[|slots|] == NodeData(true, data.line, data.timeOut, data.payload))
  {
    var j := LineIndex(slots, data.line);
    if j < |slots| { assert slots[j].line == data.line; }
    hide FirstIndex;
  }

  // What is left when every slot of a status is removed, in order.
  function KeepSlots(slots: seq<NodeData>, status: bool): seq<NodeData> {
    if slots == [] then []
    else (if slots[0].status == status then [] else [slots[0]]) + KeepSlots(slots[1..], status)
  }

  // How many of the first k slots have another status.
  function KeptBefore(slots: seq<NodeData>, status: bool, k: nat): nat
    requires k <= |slots|
  {
    if k == 0 then 0
    else (if slots[0].status == status then 0 else 1) + KeptBefore(slots[1..], status, k - 1)
  }

  // What is left are exactly the slots of another status, in order and once each:
  // each stands behind the ones before it, and there is nothing else.
  lemma {:induction false} KeepSlotsExact(slots: seq<NodeData>, status: bool, k: nat)
    requires k <= |slots|
    ensures |KeepSlots(slots, status)| == KeptBefore(slots, status, |slots|)
    ensures KeptBefore(slots, status, k) <= |KeepSlots(slots, status)|
    ensures k < |slots| && slots[k].status != status ==>
              var n := KeptBefore(slots, status, k);
              n < |KeepSlots(slots, status)| && KeepSlots(slots, status)[n] == slots[k]
  {
    if slots != [] {
      var front := if slots[0].status == status then [] else [slots[0]];
      var kept := KeepSlots(slots[1..], status);
      KeepSlotsExact(slots[1..], status, if k > 0 then k - 1 else 0);
      assert KeepSlots(slots, status) == front + kept;
      hide KeepSlots;
      assert k > 0 ==> KeptBefore(slots, status, k) == |front| + KeptBefore(slots[1..], status, k - 1);
    }
  }

  // The nodes that hold those slots.
  function KeepNodes(nodes: seq<Node>, slots: seq<NodeData>, status: bool): seq<Node>
    requires |nodes| == |slots|
  {
    if nodes == [] then []
    else (if slots[0].status == status then [] else [nodes[0]]) + KeepNodes(nodes[1..], slots[1..], status)
  }

  lemma {:induction false} KeepNodesHold(nodes: seq<Node>, slots: seq<NodeData>, status: bool)
    requires |nodes| == |slots| && forall i :: 0 <= i < |nodes| ==> nodes[i].data == slots[i]
    ensures var kept, s := KeepNodes(nodes, slots, status), KeepSlots(slots, status);
            |kept| == |s| && forall i :: 0 <= i < |s| ==> kept[i].data == s[i]
  {
    if nodes != [] { KeepNodesHold(nodes[1..], slots[1..], status); }
  }

  // ----- the list as a ring

  class Klist {
    const head: Node
    ghost var nodes: seq<Node>

    ghost predicate Valid()
      reads this, head, nodes
    {
      Ring(head, nodes)
    }

    ghost function Slots(): (s: seq<NodeData>)
      reads this, nodes
      ensures |s| == |nodes|
    {
      seq(|nodes|, i requires 0 <= i < |nodes| reads this, nodes => nodes[i].data)
    }

    constructor ()
      ensures Valid() && nodes == [] && fresh(head)
    {
      head := new Node(NodeData(false, 0, 0, []));
      nodes := [];
      new;
      InitListHead(head);
    }

    method HeadTail(newNode: Node)
      requires Valid() && newNode != head && newNode !in nodes
      modifies this, head, nodes, newNode
      ensures Valid() && nodes == old(nodes) + [newNode]
      ensures Slots() == old(Slots()) + [old(newNode.data)]
    {
      assert Last(head, nodes) == head || Last(head, nodes) in nodes;
      ListAddTail(newNode, head, nodes);
      nodes := nodes + [newNode];
      assert forall i :: 0 <= i < |old(nodes)| ==> nodes[i].data == old(nodes[i].data);
    }

    method HeadAdd(newNode: Node)
      requires Valid() && newNode != head && newNode !in nodes
      modifies this, head, nodes, newNode
      ensures Valid() && nodes == [newNode] + old(nodes)
      ensures Slots() == [old(newNode.data)] + old(Slots())
    {
      assert First(head, nodes) == head || First(head, nodes) in nodes;
      ListAdd(newNode, head, nodes);
      nodes := [newNode] + nodes;
      assert Slots() == [old(newNode.data)] + old(Slots()) by {
        assert forall i :: 0 < i < |nodes| ==> nodes[i] == old(nodes)[i - 1];
      }
    }

    // Insertion at a node in the middle uses that the ring can be entered there.
    method NodeAdd(node: Node, newNode: Node, ghost a: seq<Node>, ghost b: seq<Node>)
      requires Valid() && nodes == a + [node] + b && newNode != head && newNode !in nodes
      modifies this, head, nodes, newNode
      ensures Valid() && nodes == a + [node] + ([newNode] + b)
      ensures Slots() == old(Slots())[..|a| + 1] + ([old(newNode.data)] + old(Slots())[|a| + 1..])
    {
      EnterAt(head, a, node, b);
      assert newNode != node && newNode !in b + [head] + a by { assert nodes[|a|] == node; }
      assert First(node, b + [head] + a) == head || First(node, b + [head] + a) in nodes;
      ListAdd(newNode, node, b + [head] + a);
      assert [newNode] + (b + [head] + a) == ([newNode] + b) + [head] + a;
      EnterAt(node, [newNode] + b, head, a);
      nodes := a + [node] + ([newNode] + b);
    }

    method NodeTail(node: Node, newNode: Node, ghost a: seq<Node>, ghost b: seq<Node>)
      requires Valid() && nodes == a + [node] + b && newNode != head && newNode !in nodes
      modifies this, head, nodes, newNode
      ensures Valid() && nodes == (a + [newNode]) + [node] + b
      ensures Slots() == (old(Slots())[..|a|] + [old(newNode.data)]) + old(Slots())[|a|..]
    {
      EnterAt(head, a, node, b);
      assert newNode != node && newNode !in b + [head] + a by { assert nodes[|a|] == node; }
      assert Last(node, b + [head] + a) == head || Last(node, b + [head] + a) in nodes;
      ListAddTail(newNode, node, b + [head] + a);
      assert (b + [head] + a) + [newNode] == b + [head] + (a + [newNode]);
      EnterAt(node, b, head, a + [newNode]);
      nodes := (a + [newNode]) + [node] + b;
    }

    method FindNode(status: bool) returns (p: Node?)
      requires Valid()
      ensures var i := StatusIndex(Slots(), status); if i < |nodes| then p == nodes[i] else p == null
    {
      p := head.next;
      ghost var k := 0;
      while p != head
        invariant k <= |nodes| && p == if k < |nodes| then nodes[k] else head
        invariant forall j :: 0 <= j < k ==> nodes[j].data.status != status
        decreases |nodes| - k
      {
        if p.data.status == status {
          StatusIs(Slots(), status, k);
          return;
        }
        p := p.next;
        k := k + 1;
      }
      StatusIs(Slots(), status, k);
      p := null;
    }

    // The search half of Node_Change and its overwrite, one locked section. An
    // unknown line is reported; the insertion is a second section.
    method Overwrite(data: NodeData) returns (found: bool)
      requires Valid()
      modifies nodes
      ensures Valid() && found == (LineIndex(old(Slots()), data.line) < |nodes|)
      ensures Slots() == if found then Posted(old(Slots()), data) else old(Slots())
    {
      var p := head.next;
      ghost var k := 0;
      while p != head
        invariant Valid() && Slots() == old(Slots())
        invariant k <= |nodes| && p == if k < |nodes| then nodes[k] else head
        invariant forall j :: 0 <= j < k ==> nodes[j].data.line != data.line
        decreases |nodes| - k
      {
        var n := p.next;
        if p.data.line == data.line {
          ghost var slots := Slots();
          LineIs(slots, data.line, k);
          p.data := data;
          p.data := p.data.(status := true);
          assert Slots() == slots[k := data.(status := true)];
          return true;
        }
        p := n;
        k := k + 1;
      }
      LineIs(Slots(), data.line, k);
      found := false;
    }

    method NodeChange(data: NodeData)
      requires Valid()
      modifies this, head, nodes
      ensures Valid() && Slots() == Posted(old(Slots()), data)
      ensures nodes[..|old(nodes)|] == old(nodes)
    {
      var found := Overwrite(data);
      if !found {
        var p := new Node(data.(status := true));
        HeadTail(p);
      }
    }

    method ShowAdd(line: int, payload: seq<bv8>, timeOut: int)
      requires Valid()
      modifies this, head, nodes
      ensures Valid() && Slots() == Posted(old(Slots()), NodeData(true, line, timeOut, payload))
      ensures nodes[..|old(nodes)|] == old(nodes)
    {
      NodeChange(NodeData(false, line, timeOut, payload));
    }

    // The consumer's second section on the node it found.
    method Take(node: Node, ghost k: nat) returns (payload: seq<bv8>)
      requires Valid() && k < |nodes| && nodes[k] == node
      modifies node`data
      ensures Valid() && payload == old(Slots())[k].payload
      ensures Slots() == old(Slots())[k := old(Slots())[k].(status := false)]
    {
      node.data := node.data.(status := false);
      payload := node.data.payload;
      assert forall i :: 0 <= i < |nodes| && i != k ==> nodes[i] != node;
    }

    // One slot for each of the lines 0 to 10, none pending.
    method ListTaskInit()
      requires Valid() && nodes == []
      modifies this, head
      ensures Valid() && |nodes| == 11
      ensures forall i :: 0 <= i < 11 ==> Slots()[i].line == i && !Slots()[i].status
      ensures DistinctLines(Slots())
    {
      var i := 0;
      while i < 11
        invariant 0 <= i <= 11 && Valid() && |nodes| == i
        invariant forall k :: 0 <= k < i ==> fresh(nodes[k])
        invariant forall k :: 0 <= k < i ==> Slots()[k].line == k && !Slots()[k].status
      {
        var node := new Node(NodeData(false, i, 0, []));
        HeadTail(node);
        i := i + 1;
      }
    }

    // Removes every node with this status.
    method DelNode(status: bool)
      requires Valid()
      modifies this, head, nodes
      ensures Valid() && nodes == KeepNodes(old(nodes), old(Slots()), status)
      ensures Slots() == KeepSlots(old(Slots()), status)
    {
      hide KeepNodes, KeepSlots, Ring;
      ghost var kept := RemoveAll(status);
      nodes := kept;
      assert Slots() == KeepSlots(old(Slots()), status);
    }

    // Walks the ring; the next node is remembered before the current one is
    // taken out.
    method RemoveAll(status: bool) returns (ghost kept: seq<Node>)
      requires Valid()
      modifies head, nodes
      ensures Ring(head, kept) && kept == KeepNodes(nodes, old(Slots()), status)
      ensures var s := KeepSlots(old(Slots()), status);
              |kept| == |s| && forall k :: 0 <= k < |s| ==> kept[k].data == s[k]
    {
      ghost var slots := Slots();
      kept := [];
      ghost var i := 0;
      var p := head.next;
      WalkStarts(p, slots, status);
      hide KeepNodes, KeepSlots, Ring, First;
      while p != head
        invariant Walking(kept, i, slots) && At(p, i)
        invariant KeptBy(kept, i, slots, status)
        decreases |nodes| - i
      {
        assert i < |nodes| && p == nodes[i] by { AtNode(p, i); }
        p, kept := Visit(p, status, kept, i, slots);
        i := i + 1;
      }
      WalkEnds(kept, i, slots, status);
    }

    // The walk has kept these nodes and has the ones from i on before it.
    ghost predicate Walking(kept: seq<Node>, i: nat, slots: seq<NodeData>)
      reads this, head, nodes, kept
    {
      && i <= |nodes| == |slots| && Ring(head, kept + nodes[i..])
      && (forall x :: x in kept ==> x in nodes)
      && (forall k :: 0 <= k < |nodes| ==> nodes[k].data == slots[k])
    }

    // This is the node the walk visits next.
    ghost predicate At(p: Node?, i: nat)
      reads this
    {
      i <= |nodes| && p == First(head, nodes[i..])
    }

    // What it has kept and will keep is what is to be kept.
    ghost predicate KeptBy(kept: seq<Node>, i: nat, slots: seq<NodeData>, status: bool)
      reads this
    {
      && i <= |nodes| == |slots|
      && kept + KeepNodes(nodes[i..], slots[i..], status) == KeepNodes(nodes, slots, status)
    }

    lemma AtNode(p: Node?, i: nat)
      requires At(p, i) && p != head
      ensures i < |nodes| && p == nodes[i]
    {
    }

    lemma WalkStarts(p: Node?, slots: seq<NodeData>, status: bool)
      requires Valid() && slots == Slots() && p == head.next
      ensures Walking([], 0, slots) && At(p, 0) && KeptBy([], 0, slots, status)
    {
      assert nodes[0..] == nodes && slots[0..] == slots;
      assert [] + nodes == nodes;
    }

    lemma WalkEnds(kept: seq<Node>, i: nat, slots: seq<NodeData>, status: bool)
      requires Walking(kept, i, slots) && At(head, i) && KeptBy(kept, i, slots, status)
      ensures Ring(head, kept) && kept == KeepNodes(nodes, slots, status)
      ensures var s := KeepSlots(slots, status); |kept| == |s| && forall k :: 0 <= k < |s| ==> kept[k].data == s[k]
    {
      OnlyHeadLeft(head, kept, nodes[i..]);
      assert kept + nodes[i..] == kept;
      assert kept + KeepNodes([], slots[i..], status) == kept;
      KeepNodesHold(nodes, slots, status);
    }

    // One round of the walk.
    method Visit(p: Node, status: bool, ghost kept: seq<Node>, ghost i: nat, ghost slots: seq<NodeData>)
      returns (n: Node, ghost kept': seq<Node>)
      requires Walking(kept, i, slots) && i < |nodes| && p == nodes[i] && KeptBy(kept, i, slots, status)
      modifies head, nodes
      ensures Walking(kept', i + 1, slots) && At(n, i + 1) && KeptBy(kept', i + 1, slots, status)
    {
      KeepNodesStep(kept, nodes, slots, i, status);
      hide KeepNodes;
      n, kept' := VisitNode(p, status, kept, i, slots);
    }

    method VisitNode(p: Node, status: bool, ghost kept: seq<Node>, ghost i: nat, ghost slots: seq<NodeData>)
      returns (n: Node, ghost kept': seq<Node>)
      requires Walking(kept, i, slots) && i < |nodes| && p == nodes[i]
      modifies head, nodes
      ensures Walking(kept', i + 1, slots) && n == First(head, nodes[i + 1..])
      ensures kept' == if slots[i].status == status then kept else kept + [nodes[i]]
    {
      ghost var more := nodes[i + 1..];
      assert kept + nodes[i..] == kept + [p] + more by { assert nodes[i..] == [p] + more; }
      assert (kept + [p] + more)[|kept|] == p;
      n := p.next;
      if p.data.status == status {
        assert Last(head, kept) == head || Last(head, kept) in nodes;
        assert First(head, more) == head || First(head, more) in nodes;
        ListDel(p, head, kept, more);
        kept' := kept;
      } else {
        kept' := kept + [p];
      }
    }
  }

  lemma KeepNodesStep(kept: seq<Node>, nodes: seq<Node>, slots: seq<NodeData>, i: nat, status: bool)
    requires i < |nodes| == |slots|
    ensures (if slots[i].status == status then kept else kept + [nodes[i]])
            + KeepNodes(nodes[i + 1..], slots[i + 1..], status)
            == kept + KeepNodes(nodes[i..], slots[i..], status)
  {
    assert nodes[i..][1..] == nodes[i + 1..] && slots[i..][1..] == slots[i + 1..];
  }

  lemma OnlyHeadLeft(head: Node, kept: seq<Node>, rest: seq<Node>)
    requires head !in kept + rest && First(head, rest) == head
    ensures rest == []
  {
    assert forall x :: x in rest ==> x in kept + rest;
  }

  lemma StatusIs(slots: seq<NodeData>, status: bool, i: nat)
    requires i <= |slots| && (i < |slots| ==> slots[i].status == status)
    requires forall k :: 0 <= k < i ==> slots[k].status != status
    ensures StatusIndex(slots, status) == i
  {
    assert !(StatusIndex(slots, status) < i) && !(i < StatusIndex(slots, status));
  }

  lemma LineIs(slots: seq<NodeData>, line: int, i: nat)
    requires i <= |slots| && (i < |slots| ==> slots[i].line == line)
    requires forall k :: 0 <= k < i ==> slots[k].line != line
    ensures LineIndex(slots, line) == i
  {
    assert !(LineIndex(slots, line) < i) && !(i < LineIndex(slots, line));
  }
}
