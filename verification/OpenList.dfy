/** The indexed binary heap behind the path search, on plain values: `nodes` are
    the grid nodes, `slots` is the storage of the open list and `size` how much of
    it is in use.  Slot 0 is a dummy, a node pointer is an index into `nodes`.
    Storage past `size` keeps what was last written there, as a vector does after
    its last element is popped. */
module OpenList {
  import opened Grid

  const NULL: int := -1

  datatype Node = Node(pos: Position, walkable: bool, f: int, g: int,
                       openListPos: nat, closeListPos: nat, parent: int)

  /** Every used slot holds a node, no node twice; positions are right from slot 2
      on, non-zero at the root and zero outside the list. */
  ghost predicate Linked(nodes: seq<Node>, slots: seq<int>, size: nat) {
    && 1 <= size <= |slots|
    && (forall i :: 1 <= i < size ==> 0 <= slots[i] < |nodes|)
    && (forall i :: 2 <= i < size ==> slots[i] != slots[1] && nodes[slots[i]].openListPos == i)
    && (2 <= size ==> nodes[slots[1]].openListPos != 0)
    && (forall v {:trigger Listed(nodes, slots, size, v)} ::
          0 <= v < |nodes| && nodes[v].openListPos != 0 ==> Listed(nodes, slots, size, v))
  }

  /** Node v is the root or sits in the slot it records. */
  ghost predicate Listed(nodes: seq<Node>, slots: seq<int>, size: nat, v: int)
    requires size <= |slots| && 0 <= v < |nodes|
  {
    2 <= size && (v == slots[1] || (2 <= nodes[v].openListPos < size && slots[nodes[v].openListPos] == v))
  }

  /** What the root may carry as its position: 1, or a stale 2 or 3 left by a
      delete that moved the last node to the root without a swap.  A stale position
      just past the end still finds the root there. */
  ghost predicate RootPosition(nodes: seq<Node>, slots: seq<int>, size: nat)
    requires Linked(nodes, slots, size)
  {
    2 <= size ==>
      var p := nodes[slots[1]].openListPos;
      p == 1 || (2 <= p <= 3 && p <= size && (p == size ==> size < |slots| && slots[size] == slots[1]))
  }

  ghost predicate Indexed(nodes: seq<Node>, slots: seq<int>, size: nat) {
    Linked(nodes, slots, size) && RootPosition(nodes, slots, size)
  }

  /** Node i of the list has an f value not below its heap parent's. */
  ghost predicate OrderedAt(nodes: seq<Node>, slots: seq<int>, size: nat, i: nat)
    requires Linked(nodes, slots, size) && 2 <= i < size
  {
    nodes[slots[i / 2]].f <= nodes[slots[i]].f
  }

  ghost predicate Ordered(nodes: seq<Node>, slots: seq<int>, size: nat)
    requires Linked(nodes, slots, size)
  {
    forall i :: 2 <= i < size ==> OrderedAt(nodes, slots, size, i)
  }

  /** Ordered but for the edge above slot `hole`, whose children already lie
      above its parent: the state of a sift-up. */
  ghost predicate OrderedButAbove(nodes: seq<Node>, slots: seq<int>, size: nat, hole: nat)
    requires Linked(nodes, slots, size)
  {
    && (forall i :: 2 <= i < size && i != hole ==> OrderedAt(nodes, slots, size, i))
    && (forall i :: 4 <= i < size && i / 2 == hole ==> nodes[slots[hole / 2]].f <= nodes[slots[i]].f)
  }

  /** Ordered but for the edges below slot `hole`: the state of a sift-down. */
  ghost predicate OrderedButBelow(nodes: seq<Node>, slots: seq<int>, size: nat, hole: nat)
    requires Linked(nodes, slots, size)
  {
    && (forall i :: 2 <= i < size && i / 2 != hole ==> OrderedAt(nodes, slots, size, i))
    && (forall i :: 4 <= i < size && i / 2 == hole ==> nodes[slots[hole / 2]].f <= nodes[slots[i]].f)
  }

  ghost predicate Heap(nodes: seq<Node>, slots: seq<int>, size: nat) {
    Indexed(nodes, slots, size) && Ordered(nodes, slots, size)
  }

  /** `nodes'` differs from `nodes` in list positions only. */
  ghost predicate SamePayload(nodes: seq<Node>, nodes': seq<Node>) {
    && |nodes'| == |nodes|
    && forall v :: 0 <= v < |nodes| ==> nodes'[v] == nodes[v].(openListPos := nodes'[v].openListPos)
  }

  ghost predicate SameMembers(nodes: seq<Node>, nodes': seq<Node>)
    requires |nodes| == |nodes'|
  {
    forall v :: 0 <= v < |nodes| ==> (nodes'[v].openListPos != 0 <==> nodes[v].openListPos != 0)
  }

  /** `nodes'` has the members of `nodes` and `added`. */
  ghost predicate MembersPlus(nodes: seq<Node>, nodes': seq<Node>, added: int)
    requires |nodes| == |nodes'|
  {
    forall v :: 0 <= v < |nodes| ==> (nodes'[v].openListPos != 0 <==> nodes[v].openListPos != 0 || v == added)
  }

  ghost predicate MembersMinus(nodes: seq<Node>, nodes': seq<Node>, removed: int)
    requires |nodes| == |nodes'|
  {
    forall v :: 0 <= v < |nodes| ==> (nodes'[v].openListPos != 0 <==> nodes[v].openListPos != 0 && v != removed)
  }

  /** The nodes after the two in slots i and j trade positions. */
  function SwapNodes(nodes: seq<Node>, slots: seq<int>, i: nat, j: nat): seq<Node>
    requires i < |slots| && j < |slots| && 0 <= slots[i] < |nodes| && 0 <= slots[j] < |nodes|
  {
    var n := nodes[slots[i] := nodes[slots[i]].(openListPos := j)];
    n[slots[j] := n[slots[j]].(openListPos := i)]
  }

  function SwapSlots(slots: seq<int>, i: nat, j: nat): seq<int>
    requires i < |slots| && j < |slots|
  {
    slots[i := slots[j]][j := slots[i]]
  }

  lemma SwapKeepsLinks(nodes: seq<Node>, slots: seq<int>, size: nat, i: nat, j: nat)
    requires Linked(nodes, slots, size) && 1 <= i < j < size
    requires i == 1 || RootPosition(nodes, slots, size)
    ensures var nodes', slots' := SwapNodes(nodes, slots, i, j), SwapSlots(slots, i, j);
            && Indexed(nodes', slots', size)
            && SamePayload(nodes, nodes') && SameMembers(nodes, nodes')
  {
    var nodes', slots' := SwapNodes(nodes, slots, i, j), SwapSlots(slots, i, j);
    forall v | 0 <= v < |nodes'| && nodes'[v].openListPos != 0 ensures Listed(nodes', slots', size, v) {
      assert Listed(nodes, slots, size, v);
    }
  }

  /** The root carries the least f of the list. */
  lemma {:induction false} RootIsLeast(nodes: seq<Node>, slots: seq<int>, size: nat, i: nat)
    requires Linked(nodes, slots, size) && Ordered(nodes, slots, size) && 1 <= i < size
    ensures nodes[slots[1]].f <= nodes[slots[i]].f
  {
    if i != 1 {
      assert OrderedAt(nodes, slots, size, i);
      RootIsLeast(nodes, slots, size, i / 2);
    }
  }

  /** Everything from slot 2 on lies under slot 2 or slot 3. */
  lemma {:induction false} LeastBelowRoot(nodes: seq<Node>, slots: seq<int>, size: nat, i: nat)
    requires Linked(nodes, slots, size) && Ordered(nodes, slots, size) && 2 <= i < size
    ensures nodes[slots[2]].f <= nodes[slots[i]].f || (3 < size && nodes[slots[3]].f <= nodes[slots[i]].f)
  {
    if 4 <= i {
      assert OrderedAt(nodes, slots, size, i);
      LeastBelowRoot(nodes, slots, size, i / 2);
    }
  }

  /** No swap would follow: with four or more slots the former last node is never
      strictly least, since it came from under slot 2 or 3. */
  ghost predicate RootAboveAll(nodes: seq<Node>, slots: seq<int>, size: nat)
    requires Linked(nodes, slots, size)
  {
    4 <= size && nodes[slots[1]].f < nodes[slots[2]].f && nodes[slots[1]].f < nodes[slots[3]].f
  }

  /** Taking the root out and moving the last node there. */
  lemma DetachRoot(nodes: seq<Node>, slots: seq<int>, size: nat)
    requires Heap(nodes, slots, size) && 3 <= size
    ensures var nodes', slots' := nodes[slots[1] := nodes[slots[1]].(openListPos := 0)], slots[1 := slots[size - 1]];
            && Linked(nodes', slots', size - 1)
            && SamePayload(nodes, nodes') && MembersMinus(nodes, nodes', slots[1])
            && OrderedButBelow(nodes', slots', size - 1, 1)
            && !RootAboveAll(nodes', slots', size - 1)
  {
    var nodes', slots' := nodes[slots[1] := nodes[slots[1]].(openListPos := 0)], slots[1 := slots[size - 1]];
    var n := size - 1;
    forall v | 0 <= v < |nodes'| && nodes'[v].openListPos != 0 ensures Listed(nodes', slots', n, v) {
      assert Listed(nodes, slots, size, v);
    }
    forall i | 4 <= i < n ensures OrderedAt(nodes', slots', n, i) {
      assert OrderedAt(nodes, slots, size, i);
    }
    if 4 <= n {
      LeastBelowRoot(nodes, slots, size, size - 1);
    }
  }

  /** The state of the sift-up loop at slot cur; past the end only the stale
      position of the root can bring it. */
  ghost predicate SiftingUp(nodes: seq<Node>, slots: seq<int>, size: nat, cur: nat) {
    && Indexed(nodes, slots, size)
    && 1 <= cur <= size
    && (cur < size ==> OrderedButAbove(nodes, slots, size, cur))
    && (cur == size ==> Ordered(nodes, slots, size) && 2 <= cur <= 3 && cur < |slots| && slots[cur] == slots[1])
  }

  /** One round of the sift-up loop. */
  lemma SwapUp(nodes: seq<Node>, slots: seq<int>, size: nat, cur: nat)
    requires SiftingUp(nodes, slots, size, cur) && 2 <= cur
    requires nodes[slots[cur]].f <= nodes[slots[cur / 2]].f
    ensures var nodes', slots' := SwapNodes(nodes, slots, cur / 2, cur), SwapSlots(slots, cur / 2, cur);
            && SiftingUp(nodes', slots', size, cur / 2)
            && SamePayload(nodes, nodes') && SameMembers(nodes, nodes')
  {
    if cur < size {
      SwapKeepsLinks(nodes, slots, size, cur / 2, cur);
      SiftUpStep(nodes, slots, size, cur / 2, cur);
    } else {
      RefreshRoot(nodes, slots, size, cur);
    }
  }

  /** The round that starts past the end swaps the root with itself and sets its
      position right. */
  lemma RefreshRoot(nodes: seq<Node>, slots: seq<int>, size: nat, cur: nat)
    requires SiftingUp(nodes, slots, size, cur) && cur == size
    ensures var nodes', slots' := SwapNodes(nodes, slots, 1, cur), SwapSlots(slots, 1, cur);
            && slots' == slots && nodes'[slots[1]].openListPos == 1
            && Heap(nodes', slots', size)
            && SamePayload(nodes, nodes') && SameMembers(nodes, nodes')
  {
    var nodes', slots' := SwapNodes(nodes, slots, 1, cur), SwapSlots(slots, 1, cur);
    assert slots' == slots;
    forall v | 0 <= v < |nodes'| && nodes'[v].openListPos != 0 ensures Listed(nodes', slots', size, v) {
      assert Listed(nodes, slots, size, v);
    }
    forall i | 2 <= i < size ensures OrderedAt(nodes', slots', size, i) {
      assert OrderedAt(nodes, slots, size, i);
    }
  }

  lemma SettledAbove(nodes: seq<Node>, slots: seq<int>, size: nat, cur: nat)
    requires SiftingUp(nodes, slots, size, cur)
    requires cur / 2 == 0 || nodes[slots[cur / 2]].f < nodes[slots[cur]].f
    ensures Heap(nodes, slots, size)
  {
    forall i | 2 <= i < size ensures OrderedAt(nodes, slots, size, i) {}
  }

  /** A sift-up of the root may start at its stale position. */
  lemma StaleStart(nodes: seq<Node>, slots: seq<int>, size: nat)
    requires Heap(nodes, slots, size) && 2 <= size
    ensures SiftingUp(nodes, slots, size, nodes[slots[1]].openListPos)
  {
    var start := nodes[slots[1]].openListPos;
    if start < size {
      forall i | 4 <= i < size && i / 2 == start ensures nodes[slots[start / 2]].f <= nodes[slots[i]].f {
        assert OrderedAt(nodes, slots, size, i);
        assert 2 <= start ==> OrderedAt(nodes, slots, size, start);
      }
    }
  }

  lemma SiftUpStep(nodes: seq<Node>, slots: seq<int>, size: nat, parent: nat, cur: nat)
    requires Indexed(nodes, slots, size) && 2 <= cur < size && parent == cur / 2
    requires OrderedButAbove(nodes, slots, size, cur)
    requires nodes[slots[cur]].f <= nodes[slots[parent]].f
    requires Indexed(SwapNodes(nodes, slots, parent, cur), SwapSlots(slots, parent, cur), size)
    ensures OrderedButAbove(SwapNodes(nodes, slots, parent, cur), SwapSlots(slots, parent, cur), size, parent)
  {
    var nodes', slots' := SwapNodes(nodes, slots, parent, cur), SwapSlots(slots, parent, cur);
    forall i | 2 <= i < size && i != parent
      ensures OrderedAt(nodes', slots', size, i)
    {
      if i != cur {
        assert OrderedAt(nodes, slots, size, i);
      }
    }
    forall i | 4 <= i < size && i / 2 == parent
      ensures nodes'[slots'[parent / 2]].f <= nodes'[slots'[i]].f
    {
      assert OrderedAt(nodes, slots, size, parent);
      if i != cur {
        assert OrderedAt(nodes, slots, size, i);
      }
    }
  }

  /** The state of the sift-down loop at slot cur: until the first swap the root
      keeps the position it had as the last node, just past the end. */
  ghost predicate SiftingDown(nodes: seq<Node>, slots: seq<int>, size: nat, cur: nat) {
    && Linked(nodes, slots, size) && 1 <= cur < size
    && OrderedButBelow(nodes, slots, size, cur)
    && (if cur == 1 then
          && size < |slots| && slots[size] == slots[1] && nodes[slots[1]].openListPos == size
          && !RootAboveAll(nodes, slots, size)
        else
          nodes[slots[1]].openListPos == 1)
  }

  /** No swap follows and the moved node stays at the root with its old position:
      alone, or strictly before the only other node. */
  ghost predicate StaleRoot(nodes: seq<Node>, slots: seq<int>, size: nat)
    requires Linked(nodes, slots, size) && 2 <= size
  {
    size == 2 || (size == 3 && nodes[slots[1]].f < nodes[slots[2]].f)
  }

  lemma SwapDown(nodes: seq<Node>, slots: seq<int>, size: nat, cur: nat, child: nat)
    requires SiftingDown(nodes, slots, size, cur)
    requires child == 2 * cur || child == 2 * cur + 1
    requires child < size && nodes[slots[child]].f <= nodes[slots[cur]].f
    requires nodes[slots[child]].f <= nodes[slots[2 * cur]].f
    requires 2 * cur + 1 < size ==> nodes[slots[child]].f <= nodes[slots[2 * cur + 1]].f
    ensures var nodes', slots' := SwapNodes(nodes, slots, cur, child), SwapSlots(slots, cur, child);
            && SiftingDown(nodes', slots', size, child)
            && SamePayload(nodes, nodes') && SameMembers(nodes, nodes')
  {
    SwapKeepsLinks(nodes, slots, size, cur, child);
    SiftDownStep(nodes, slots, size, cur, child);
  }

  lemma SettledBelow(nodes: seq<Node>, slots: seq<int>, size: nat, cur: nat)
    requires SiftingDown(nodes, slots, size, cur)
    requires 2 * cur < size ==> nodes[slots[cur]].f < nodes[slots[2 * cur]].f
    requires 2 * cur + 1 < size ==> nodes[slots[cur]].f < nodes[slots[2 * cur + 1]].f
    ensures Heap(nodes, slots, size)
    ensures cur == 1 ==> size <= 3
  {
    forall i | 2 <= i < size ensures OrderedAt(nodes, slots, size, i) {
      if i / 2 == cur {
        assert i == 2 * cur || i == 2 * cur + 1;
      }
    }
  }

  lemma SiftDownStep(nodes: seq<Node>, slots: seq<int>, size: nat, cur: nat, child: nat)
    requires Linked(nodes, slots, size) && 1 <= cur < child < size && child / 2 == cur
    requires OrderedButBelow(nodes, slots, size, cur)
    requires nodes[slots[child]].f <= nodes[slots[cur]].f
    requires nodes[slots[child]].f <= nodes[slots[2 * cur]].f
    requires 2 * cur + 1 < size ==> nodes[slots[child]].f <= nodes[slots[2 * cur + 1]].f
    requires Linked(SwapNodes(nodes, slots, cur, child), SwapSlots(slots, cur, child), size)
    ensures OrderedButBelow(SwapNodes(nodes, slots, cur, child), SwapSlots(slots, cur, child), size, child)
  {
    var nodes', slots' := SwapNodes(nodes, slots, cur, child), SwapSlots(slots, cur, child);
    forall i | 2 <= i < size && i / 2 != child
      ensures OrderedAt(nodes', slots', size, i)
    {
      if i / 2 != cur {
        assert OrderedAt(nodes, slots, size, i);
      } else {
        assert i == 2 * cur || i == 2 * cur + 1;
      }
    }
    forall i | 4 <= i < size && i / 2 == child
      ensures nodes'[slots'[child / 2]].f <= nodes'[slots'[i]].f
    {
      assert OrderedAt(nodes, slots, size, i);
    }
  }

  /** Lowering the f of one node leaves the list ready for a sift-up from it. */
  lemma CheaperKeepsOrder(nodes: seq<Node>, nodes': seq<Node>, slots: seq<int>, size: nat, v: int)
    requires Heap(nodes, slots, size) && 0 <= v < |nodes|
    requires |nodes'| == |nodes| && nodes'[v].openListPos == nodes[v].openListPos
    requires forall u :: 0 <= u < |nodes| && u != v ==> nodes'[u] == nodes[u]
    requires nodes[v].openListPos != 0 ==> nodes'[v].f <= nodes[v].f
    ensures Indexed(nodes', slots, size)
    ensures nodes[v].openListPos == 0 ==> Ordered(nodes', slots, size)
    ensures nodes[v].openListPos != 0 ==>
      OrderedButAbove(nodes', slots, size, if 2 <= size && v == slots[1] then 1 else nodes[v].openListPos)
  {
    forall u | 0 <= u < |nodes'| && nodes'[u].openListPos != 0 ensures Listed(nodes', slots, size, u) {
      assert Listed(nodes, slots, size, u);
    }
    forall i | 2 <= i < size && (nodes[v].openListPos == 0 || slots[i] != v)
      ensures OrderedAt(nodes', slots, size, i)
    {
      assert OrderedAt(nodes, slots, size, i);
    }
    if nodes[v].openListPos != 0 && v != slots[1] {
      assert Listed(nodes, slots, size, v);
      var p := nodes[v].openListPos;
      forall i | 4 <= i < size && i / 2 == p ensures nodes'[slots[p / 2]].f <= nodes'[slots[i]].f {
        assert OrderedAt(nodes, slots, size, i);
        assert OrderedAt(nodes, slots, size, p);
      }
    }
  }

  lemma SameHeap(nodes: seq<Node>, nodes': seq<Node>, slots: seq<int>, size: nat)
    requires Heap(nodes, slots, size) && |nodes'| == |nodes|
    requires forall v :: 0 <= v < |nodes| ==> nodes'[v].openListPos == nodes[v].openListPos && nodes'[v].f == nodes[v].f
    ensures Heap(nodes', slots, size)
  {
    forall u | 0 <= u < |nodes'| && nodes'[u].openListPos != 0 ensures Listed(nodes', slots, size, u) {
      assert Listed(nodes, slots, size, u);
    }
    forall i | 2 <= i < size ensures OrderedAt(nodes', slots, size, i) {
      assert OrderedAt(nodes, slots, size, i);
    }
  }
}
