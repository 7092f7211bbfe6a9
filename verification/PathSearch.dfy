/** The scene: a grid of nodes searched by A* with an indexed open list. */
module PathSearch {
  import opened Grid
  import opened OpenList
  import opened SearchInvariant

  class Scene {
    const conf: MapConf
    var nodes: seq<Node>
    var startNode: int
    var endNode: int
    var slots: seq<int>   // storage of open_list_
    var size: nat         // open_list_.size(), the dummy in slot 0 included

    ghost predicate HeapOk()
      reads this
    {
      Heap(nodes, slots, size)
    }

    // ----- the open list -----

    method PushBack(v: int)
      requires size <= |slots|
      modifies `slots, `size
      ensures size == old(size) + 1 <= |slots|
      ensures slots[old(size)] == v
      ensures forall i :: 0 <= i < old(size) ==> slots[i] == old(slots[i])
    {
      slots := if size < |slots| then slots[size := v] else slots + [v];
      size := size + 1;
    }

    /** The loop shared by InsertOpenList and ResortOpenList: carry the node in
        slot `start` up to its place.  A start just past the end is the stale
        position of the root. */
    method SiftUp(start: nat)
      requires SiftingUp(nodes, slots, size, start)
      modifies `nodes, `slots
      ensures HeapOk()
      ensures SamePayload(old(nodes), nodes) && SameMembers(old(nodes), nodes)
    {
      var cur: nat := start;
      while true
        invariant SiftingUp(nodes, slots, size, cur)
        invariant SamePayload(old(nodes), nodes) && SameMembers(old(nodes), nodes)
        decreases cur
      {
        var parent := cur / 2;
        if parent == 0 {
          break;
        }
        if nodes[slots[parent]].f < nodes[slots[cur]].f {
          break;
        }
        SwapUp(nodes, slots, size, cur);
        nodes, slots := SwapNodes(nodes, slots, parent, cur), SwapSlots(slots, parent, cur);
        cur := parent;
      }
      SettledAbove(nodes, slots, size, cur);
    }

    method InsertOpenList(node: int)
      requires HeapOk() && 0 <= node < |nodes| && nodes[node].openListPos == 0
      modifies `nodes, `slots, `size
      ensures HeapOk() && size == old(size) + 1
      ensures SamePayload(old(nodes), nodes) && MembersPlus(old(nodes), nodes, node)
    {
      var cur := size;
      PushBack(node);
      nodes := nodes[node := nodes[node].(openListPos := cur)];
      forall v | 0 <= v < |nodes| && nodes[v].openListPos != 0 ensures Listed(nodes, slots, size, v) {
        assert v != node ==> Listed(old(nodes), old(slots), old(size), v);
      }
      forall i | 2 <= i < size && i != cur ensures OrderedAt(nodes, slots, size, i) {
        assert OrderedAt(old(nodes), old(slots), old(size), i);
      }
      SiftUp(cur);
    }

    method DeleteMinFScoreNodeInOpenList()
      requires HeapOk()
      modifies `nodes, `slots, `size
      ensures HeapOk()
      ensures old(size) <= 1 ==> size == old(size) && nodes == old(nodes)
      ensures 1 < old(size) ==>
        && size == old(size) - 1
        && SamePayload(old(nodes), nodes) && MembersMinus(old(nodes), nodes, old(slots[1]))
      // The position of the new root goes stale exactly when no swap follows the move.
      ensures 2 <= size < old(size) ==>
        (nodes[slots[1]].openListPos != 1 <==> size == 2 || (size == 3 && old(nodes[slots[3]].f < nodes[slots[2]].f)))
    {
      if size <= 1 {
        return;
      }
      nodes := nodes[slots[1] := nodes[slots[1]].(openListPos := 0)];
      slots := slots[1 := slots[size - 1]];
      size := size - 1;
      if size == 1 {
        forall v | 0 <= v < |nodes| ensures nodes[v].openListPos == 0 {
          assert v != old(slots[1]) && nodes[v].openListPos != 0 ==> Listed(old(nodes), old(slots), old(size), v);
        }
        return;
      }
      DetachRoot(old(nodes), old(slots), old(size));
      SiftDown();
    }

    /** The loop of DeleteMinFScoreNodeInOpenList: the former last node, just moved
        to the root with its old position, sinks to its place. */
    method SiftDown()
      requires SiftingDown(nodes, slots, size, 1)
      modifies `nodes, `slots
      ensures HeapOk()
      ensures SamePayload(old(nodes), nodes) && SameMembers(old(nodes), nodes)
      ensures StaleRoot(old(nodes), old(slots), size) <==> nodes[slots[1]].openListPos != 1
    {
      var cur := 1;
      while true
        invariant SiftingDown(nodes, slots, size, cur)
        invariant if cur == 1 then nodes == old(nodes) && slots == old(slots)
                  else nodes[slots[1]].openListPos == 1 && !StaleRoot(old(nodes), old(slots), size)
        invariant SamePayload(old(nodes), nodes) && SameMembers(old(nodes), nodes)
        decreases size - cur
      {
        var child := cur * 2;
        if size <= child {
          break;
        }
        if child + 1 < size && nodes[slots[child + 1]].f < nodes[slots[child]].f {
          child := child + 1;
        }
        if nodes[slots[cur]].f < nodes[slots[child]].f {
          break;
        }
        SwapDown(nodes, slots, size, cur, child);
        nodes, slots := SwapNodes(nodes, slots, cur, child), SwapSlots(slots, cur, child);
        cur := child;
      }
      SettledBelow(nodes, slots, size, cur);
    }

    /** `node` is in the list and its f has gone down since the list was in order. */
    method ResortOpenList(node: int)
      requires Indexed(nodes, slots, size) && 0 <= node < |nodes| && nodes[node].openListPos != 0
      requires OrderedButAbove(nodes, slots, size, if 2 <= size && node == slots[1] then 1 else nodes[node].openListPos)
      modifies `nodes, `slots
      ensures HeapOk()
      ensures SamePayload(old(nodes), nodes) && SameMembers(old(nodes), nodes)
    {
      var start := nodes[node].openListPos;
      assert Listed(nodes, slots, size, node);
      if node == slots[1] {
        StaleStart(nodes, slots, size);
      }
      SiftUp(start);
    }

    // ----- the grid -----

    /** Between calls only the grid itself matters: SearchPath resets the rest. */
    ghost predicate Valid()
      reads this
    {
      conf.WellFormed() && OnGrid(conf, nodes)
    }

    constructor (map_conf: MapConf)
      requires map_conf.WellFormed()
      ensures Valid() && conf == map_conf
    {
      conf := map_conf;
      startNode, endNode, slots, size := NULL, NULL, [], 0;
      nodes := [];
      new;
      var y := 0;
      while y < conf.height
        invariant 0 <= y && (y <= conf.height || y == 0)
        invariant GridPrefix(conf, nodes, if 0 < conf.width then Index(conf, Position(0, y)) else 0)
      {
        var x := 0;
        while x < conf.width
          invariant 0 <= x && (x <= conf.width || x == 0)
          invariant GridPrefix(conf, nodes, if 0 < conf.width then Index(conf, Position(x, y)) else 0)
        {
          var pos := Position(x, y);
          RowMajor(conf, pos);
          NextCell(conf, pos);
          nodes := nodes + [Node(pos, conf.blocks[y * conf.width + x] == '0', 0, 0, 0, 0, NULL)];
          x := x + 1;
        }
        NextRow(conf, y);
        y := y + 1;
      }
    }

    method GetNode(x: int, y: int) returns (node: int)
      requires Valid() && conf.InRange(Position(x, y))
      ensures 0 <= node < |nodes| && nodes[node].pos == Position(x, y)
      ensures node == Index(conf, Position(x, y))
    {
      node := y * conf.width + x;
      RowMajor(conf, Position(x, y));
      IndexInBounds(conf, Position(x, y));
      SamePosition(conf, nodes[node].pos, Position(x, y));
    }

    /** The walkable cells one king move from `node`, in row order. */
    method GetNeighborNodes(node: int) returns (neighbors: seq<int>)
      requires Valid() && 0 <= node < |nodes|
      ensures forall k :: 0 <= k < |neighbors| ==> 0 <= neighbors[k] < |nodes| && Neighbors(nodes, node, neighbors[k])
      ensures forall u :: 0 <= u < |nodes| && Neighbors(nodes, node, u) ==> u in neighbors
      ensures forall j, k :: 0 <= j < k < |neighbors| ==> neighbors[j] < neighbors[k]
    {
      neighbors := [];
      var pos := nodes[node].pos;
      var startX, endX := if pos.x - 1 < 0 then 0 else pos.x - 1, if pos.x + 1 < conf.width then pos.x + 1 else conf.width - 1;
      var startY, endY := if pos.y - 1 < 0 then 0 else pos.y - 1, if pos.y + 1 < conf.height then pos.y + 1 else conf.height - 1;
      var y := startY;
      while y <= endY
        invariant startY <= y <= endY + 1
        invariant RowsListed(nodes, node, neighbors, Position(0, y)) && Increasing(neighbors)
      {
        neighbors := ScanNeighborRow(node, y, startX, endX, neighbors);
        y := y + 1;
      }
      MoveBound(conf, nodes, node, neighbors, Position(0, y), Position(0, conf.height));
    }

    /** The inner loop of GetNeighborNodes. */
    method ScanNeighborRow(node: int, y: int, startX: int, endX: int, listed: seq<int>) returns (neighbors: seq<int>)
      requires Valid() && 0 <= node < |nodes|
      requires 0 <= y < conf.height && -1 <= y - nodes[node].pos.y <= 1
      requires startX == if nodes[node].pos.x == 0 then 0 else nodes[node].pos.x - 1
      requires endX == if nodes[node].pos.x + 1 < conf.width then nodes[node].pos.x + 1 else conf.width - 1
      requires RowsListed(nodes, node, listed, Position(0, y)) && Increasing(listed)
      ensures RowsListed(nodes, node, neighbors, Position(0, y + 1)) && Increasing(neighbors)
    {
      neighbors := listed;
      var pos := nodes[node].pos;
      var x := startX;
      while x <= endX
        invariant startX <= x <= endX + 1
        invariant neighbors == ScanRow(conf, nodes, node, listed, y, startX, x)
      {
        if x != pos.x || y != pos.y {
          var neighbor := GetNode(x, y);
          if nodes[neighbor].walkable {
            neighbors := neighbors + [neighbor];
          }
        } else {
          IndexInBounds(conf, Position(x, y));
          SamePosition(conf, nodes[Index(conf, Position(x, y))].pos, Position(x, y));
        }
        x := x + 1;
      }
      WholeRowListed(conf, nodes, node, listed, y, startX, x);
    }

    // ----- the search -----

    /** The state of a search in progress; `except` is the node being expanded. */
    ghost predicate Searching(except: int)
      reads this
    {
      && Valid() && HeapOk()
      && Sound(nodes, startNode, endNode) && Expanded(nodes, except)
    }

    /** Give `neighbor` the parent `cur` and put it in its place in the open list. */
    method Reparent(cur: int, neighbor: int)
      requires HeapOk()
      requires 0 <= cur < |nodes| && 0 <= neighbor < |nodes| && 0 <= endNode < |nodes|
      requires InOpenList(nodes[neighbor]) ==>
        nodes[cur].g + 10 + Estimate(nodes[neighbor].pos, nodes[endNode].pos) <= nodes[neighbor].f
      modifies `nodes, `slots, `size
      ensures HeapOk()
      ensures Reparented(old(nodes), nodes, endNode, cur, neighbor)
      ensures size == old(size) + if InOpenList(old(nodes[neighbor])) then 0 else 1
    {
      var g := nodes[cur].g + 10;
      var f := g + Estimate(nodes[neighbor].pos, nodes[endNode].pos);
      var inOpenList := InOpenList(nodes[neighbor]);
      nodes := nodes[neighbor := nodes[neighbor].(parent := cur, g := g, f := f)];
      CheaperKeepsOrder(old(nodes), nodes, slots, size, neighbor);
      if !inOpenList {
        InsertOpenList(neighbor);
      } else {
        ResortOpenList(neighbor);
      }
    }

    /** The body of the neighbour loop of SearchPath. */
    method RelaxNeighbor(cur: int, neighbor: int)
      requires Searching(cur)
      requires 0 <= cur < |nodes| && InCloseList(nodes[cur]) && !InOpenList(nodes[cur])
      requires 0 <= neighbor < |nodes| && Neighbors(nodes, cur, neighbor)
      modifies `nodes, `slots, `size
      ensures Searching(cur)
      ensures Relaxing(old(nodes), nodes, cur) && Relaxed(nodes, cur, neighbor)
      ensures if Improves(old(nodes), cur, neighbor)
              then Reparented(old(nodes), nodes, endNode, cur, neighbor)
                   && size == old(size) + if InOpenList(old(nodes[neighbor])) then 0 else 1
              else nodes == old(nodes) && slots == old(slots) && size == old(size)
      ensures Potential(nodes) < old(Potential(nodes)) || (nodes == old(nodes) && size == old(size))
    {
      var inOpenList := InOpenList(nodes[neighbor]);
      var inCloseList := InCloseList(nodes[neighbor]);
      var gCal := nodes[cur].g + 10;
      if inCloseList && nodes[neighbor].g <= gCal {
        return;
      }
      if !inOpenList || gCal < nodes[neighbor].g {
        ghost var before := nodes;
        assert Discovered(nodes[neighbor]) ==> CostsOk(nodes, startNode, endNode, neighbor);
        Reparent(cur, neighbor);
        ReparentStep(before, nodes, startNode, endNode, cur, neighbor);
      }
    }

    /** Take the least node off the open list and close it. */
    method CloseLeast()
      requires Searching(NULL) && 1 < size && slots[1] != endNode
      modifies `nodes, `slots, `size
      ensures Searching(old(slots[1])) && size == old(size) - 1
      ensures var cur := old(slots[1]); 0 <= cur < |nodes| && InCloseList(nodes[cur]) && !InOpenList(nodes[cur])
      ensures Closed(old(nodes), nodes, old(slots[1]))
      ensures size == 2 ==> nodes[slots[1]].openListPos != 1
      ensures SameGrid(old(nodes), nodes) && Potential(nodes) == Potential(old(nodes))
    {
      var cur := slots[1];
      DeleteMinFScoreNodeInOpenList();
      ghost var deleted := nodes;
      nodes := nodes[cur := nodes[cur].(closeListPos := 1)];
      SameHeap(deleted, nodes, slots, size);
      CloseStep(old(nodes), nodes, startNode, endNode, cur);
    }

    /** The body of the main loop of SearchPath after the goal test: close the
        least open node and offer its cost to its neighbours. */
    method Expand(cur: int)
      requires Searching(NULL) && 1 < size && cur == slots[1] && cur != endNode
      modifies `nodes, `slots, `size
      ensures Searching(NULL) && SameGrid(old(nodes), nodes)
      ensures Potential(nodes) < old(Potential(nodes)) || (Potential(nodes) == old(Potential(nodes)) && size < old(size))
    {
      CloseLeast();
      ghost var closed, left := nodes, size;
      var neighbors := GetNeighborNodes(cur);
      var i := 0;
      while i < |neighbors|
        invariant 0 <= i <= |neighbors|
        invariant Searching(cur) && Relaxing(closed, nodes, cur) && RelaxedUpTo(nodes, cur, neighbors, i)
        invariant Potential(nodes) < Potential(closed) || (nodes == closed && size == left)
      {
        ghost var before := nodes;
        RelaxNeighbor(cur, neighbors[i]);
        RelaxedMore(closed, before, nodes, cur, neighbors, i);
        i := i + 1;
      }
      ExpandedFully(closed, nodes, cur, neighbors);
    }

    /** Walk the parent links back from the end, then reverse the whole of `paths`. */
    method ConstructResultPath(paths: seq<Position>) returns (result: seq<Position>)
      requires Searching(NULL) && Discovered(nodes[endNode])
      ensures |paths| <= |result|
      ensures var n := |result| - |paths|;
        && result[n..] == Reversed(paths)
        && IsWalk(conf, nodes[startNode].pos, result[..n], nodes[endNode].pos)
        && 10 * n <= nodes[endNode].g
    {
      ghost var back := [];
      result := paths;
      var node := endNode;
      while node != startNode && node != NULL
        invariant 0 <= node < |nodes| && Discovered(nodes[node])
        invariant result == paths + back
        invariant IsWalk(conf, nodes[node].pos, Reversed(back), nodes[endNode].pos)
        invariant nodes[node].g + 10 * |back| <= nodes[endNode].g
        decreases nodes[node].g
      {
        assert CostsOk(nodes, startNode, endNode, node);
        assert CostsOk(nodes, startNode, endNode, nodes[node].parent);
        ReversedConcat(back, [nodes[node].pos]);
        assert Reversed([nodes[node].pos]) == [nodes[node].pos];
        result := result + [nodes[node].pos];
        back := back + [nodes[node].pos];
        assert Reversed(back)[1..] == Reversed(back[..|back| - 1]) by { assert back[..|back| - 1] + [nodes[node].pos] == back; }
        node := nodes[node].parent;
      }
      ReversedConcat(paths, back);
      result := Reversed(result);
      assert result[..|back|] == Reversed(back);
    }

    /** The end is at the root: the path is close to the shortest. */
    method ReportPath(paths: seq<Position>) returns (result: seq<Position>)
      requires Searching(NULL) && 1 < size && slots[1] == endNode
      ensures |paths| <= |result| && result[|result| - |paths|..] == Reversed(paths)
      ensures IsWalk(conf, nodes[startNode].pos, result[..|result| - |paths|], nodes[endNode].pos)
      ensures NearlyShortest(conf, nodes[startNode].pos, |result| - |paths|, nodes[endNode].pos)
    {
      result := ConstructResultPath(paths);
      ghost var n := |result| - |paths|;
      forall v | 0 <= v < |nodes| && InOpenList(nodes[v]) ensures nodes[endNode].f <= nodes[v].f {
        assert Listed(nodes, slots, size, v);
        RootIsLeast(nodes, slots, size, if v == endNode then 1 else nodes[v].openListPos);
      }
      EndIsClose(conf, nodes, startNode, endNode, n);
    }

    /** A path is found exactly when the end can be reached, it is a walk from the
        start to the end, and it is at most the square root of two longer than any
        other.  On success the code reverses all of `paths`, so what was in there
        before ends up reversed behind the path. */
    method SearchPath(begin: Position, end: Position, paths: seq<Position>) returns (found: bool, result: seq<Position>)
      requires Valid()
      modifies this
      ensures Valid()
      ensures found <==> conf.InRange(begin) && conf.InRange(end) && Reachable(conf, begin, end)
      ensures !found ==> result == paths
      ensures found ==> |paths| <= |result| && result[|result| - |paths|..] == Reversed(paths)
      ensures found ==> IsWalk(conf, begin, result[..|result| - |paths|], end)
      ensures found ==> NearlyShortest(conf, begin, |result| - |paths|, end)
    {
      if !conf.InRange(begin) || !conf.InRange(end) {
        return false, paths;
      }
      StartSearch(begin, end);
      found := ReachEnd();
      result := paths;
      if found {
        result := ReportPath(paths);
      }
    }

    /** The main loop: it stops with the end at the root, or with an empty list. */
    method ReachEnd() returns (found: bool)
      requires Searching(NULL)
      modifies this
      ensures Searching(NULL)
      ensures nodes[startNode].pos == old(nodes[startNode].pos) && nodes[endNode].pos == old(nodes[endNode].pos)
      ensures found ==> 1 < size && slots[1] == endNode
      ensures !found ==> !Reachable(conf, nodes[startNode].pos, nodes[endNode].pos)
    {
      while 1 < size
        invariant Searching(NULL)
        invariant nodes[startNode].pos == old(nodes[startNode].pos) && nodes[endNode].pos == old(nodes[endNode].pos)
        decreases Potential(nodes), size
      {
        var cur := slots[1];
        if cur == endNode {
          return true;
        }
        PotentialNonNegative(nodes, startNode, endNode);
        Expand(cur);
        PotentialNonNegative(nodes, startNode, endNode);
      }
      forall v | 0 <= v < |nodes| ensures !InOpenList(nodes[v]) {
        assert InOpenList(nodes[v]) ==> Listed(nodes, slots, size, v);
      }
      ExhaustedMeansUnreachable(conf, nodes, startNode, endNode);
      return false;
    }

    /** The reset loop of SearchPath. */
    method ResetNodes()
      requires Valid()
      modifies `nodes
      ensures Valid() && SameGrid(old(nodes), nodes)
      ensures forall v :: 0 <= v < |nodes| ==>
        nodes[v] == Node(nodes[v].pos, nodes[v].walkable, 0, 0, 0, 0, NULL)
    {
      ghost var was := nodes;
      var i := 0;
      while i < |nodes|
        invariant 0 <= i <= |nodes| == |was|
        invariant forall v :: 0 <= v < |nodes| ==>
          nodes[v] == if v < i then Node(was[v].pos, was[v].walkable, 0, 0, 0, 0, NULL) else was[v]
      {
        nodes := nodes[i := nodes[i].(f := 0, g := 0, openListPos := 0, closeListPos := 0, parent := NULL)];
        i := i + 1;
      }
    }

    /** The part of SearchPath before its loop. */
    method StartSearch(begin: Position, end: Position)
      requires Valid() && conf.InRange(begin) && conf.InRange(end)
      modifies this
      ensures Searching(NULL) && SameGrid(old(nodes), nodes)
      ensures nodes[startNode].pos == begin && nodes[endNode].pos == end
      ensures startNode == Index(conf, begin) && endNode == Index(conf, end)
      ensures size == 2 && forall v :: 0 <= v < |nodes| ==> !InCloseList(nodes[v]) && (InOpenList(nodes[v]) <==> v == startNode)
    {
      ResetNodes();
      startNode := GetNode(begin.x, begin.y);
      endNode := GetNode(end.x, end.y);
      slots, size := [NULL], 1;
      nodes := nodes[startNode := nodes[startNode].(g := 0, f := Estimate(nodes[startNode].pos, nodes[endNode].pos))];
      InsertOpenList(startNode);
      CountUnknown(nodes, startNode);
    }
  }

  ghost function WithCell(nodes: seq<Node>, node: int, listed: seq<int>, v: int): seq<int>
    requires 0 <= node < |nodes| && 0 <= v < |nodes|
  {
    if Neighbors(nodes, node, v) then listed + [v] else listed
  }

  /** `listed` extended by the neighbours of `node` in row y, columns from..upto. */
  ghost function ScanRow(conf: MapConf, nodes: seq<Node>, node: int, listed: seq<int>, y: int, from: int, upto: int): seq<int>
    requires OnGrid(conf, nodes) && 0 <= node < |nodes| && 0 <= y < conf.height && 0 <= from && upto <= conf.width
    decreases upto - from
  {
    if upto <= from then listed
    else
      IndexInBounds(conf, Position(upto - 1, y));
      WithCell(nodes, node, ScanRow(conf, nodes, node, listed, y, from, upto - 1), Index(conf, Position(upto - 1, y)))
  }

  lemma {:induction false} ScanRowLists(conf: MapConf, nodes: seq<Node>, node: int, listed: seq<int>, y: int, from: int, upto: int)
    requires OnGrid(conf, nodes) && 0 <= node < |nodes| && 0 <= y < conf.height && 0 <= from <= upto <= conf.width
    requires RowsListed(nodes, node, listed, Position(from, y)) && Increasing(listed)
    ensures RowsListed(nodes, node, ScanRow(conf, nodes, node, listed, y, from, upto), Position(upto, y))
    ensures Increasing(ScanRow(conf, nodes, node, listed, y, from, upto))
    decreases upto
  {
    if from < upto {
      var here := Position(upto - 1, y);
      var before := ScanRow(conf, nodes, node, listed, y, from, upto - 1);
      ScanRowLists(conf, nodes, node, listed, y, from, upto - 1);
      IndexInBounds(conf, here);
      ListCell(conf, nodes, node, before, here);
      assert ScanRow(conf, nodes, node, listed, y, from, upto) == WithCell(nodes, node, before, Index(conf, here));
    }
  }

  lemma WholeRowListed(conf: MapConf, nodes: seq<Node>, node: int, listed: seq<int>, y: int, from: int, upto: int)
    requires OnGrid(conf, nodes) && 0 <= node < |nodes| && 0 <= y < conf.height
    requires from == if nodes[node].pos.x == 0 then 0 else nodes[node].pos.x - 1
    requires upto == if nodes[node].pos.x + 1 < conf.width then nodes[node].pos.x + 2 else conf.width
    requires RowsListed(nodes, node, listed, Position(0, y)) && Increasing(listed)
    ensures RowsListed(nodes, node, ScanRow(conf, nodes, node, listed, y, from, upto), Position(0, y + 1))
    ensures Increasing(ScanRow(conf, nodes, node, listed, y, from, upto))
  {
    MoveBound(conf, nodes, node, listed, Position(0, y), Position(from, y));
    ScanRowLists(conf, nodes, node, listed, y, from, upto);
    MoveBound(conf, nodes, node, ScanRow(conf, nodes, node, listed, y, from, upto), Position(upto, y), Position(0, y + 1));
  }

  ghost predicate Increasing(s: seq<int>) {
    forall j, k :: 0 <= j < k < |s| ==> s[j] < s[k]
  }

  /** `listed` holds the neighbours of `node` that come before `bound` in row order. */
  ghost predicate RowsListed(nodes: seq<Node>, node: int, listed: seq<int>, bound: Position)
    requires 0 <= node < |nodes|
  {
    && (forall k :: 0 <= k < |listed| ==>
          0 <= listed[k] < |nodes| && Neighbors(nodes, node, listed[k]) && Before(nodes[listed[k]].pos, bound))
    && (forall u :: 0 <= u < |nodes| && Neighbors(nodes, node, u) && Before(nodes[u].pos, bound) ==> u in listed)
  }

  lemma ListCell(conf: MapConf, nodes: seq<Node>, node: int, listed: seq<int>, here: Position)
    requires OnGrid(conf, nodes) && 0 <= node < |nodes| && conf.InRange(here) && 0 <= Index(conf, here) < |nodes|
    requires RowsListed(nodes, node, listed, here) && Increasing(listed)
    ensures nodes[Index(conf, here)].pos == here
    ensures RowsListed(nodes, node, WithCell(nodes, node, listed, Index(conf, here)), Position(here.x + 1, here.y))
    ensures Increasing(WithCell(nodes, node, listed, Index(conf, here)))
  {
    var v := Index(conf, here);
    SamePosition(conf, nodes[v].pos, here);
    forall k | 0 <= k < |listed| ensures listed[k] < v {
      RowOrder(conf, nodes[listed[k]].pos, here);
    }
    forall u | 0 <= u < |nodes| && Before(nodes[u].pos, Position(here.x + 1, here.y)) && !Before(nodes[u].pos, here)
      ensures u == v
    {
      assert nodes[u].pos == here;
    }
  }

  /** Between the two bounds, in row order, there is no neighbour of `node`. */
  lemma MoveBound(conf: MapConf, nodes: seq<Node>, node: int, listed: seq<int>, from: Position, bound: Position)
    requires OnGrid(conf, nodes) && 0 <= node < |nodes|
    requires RowsListed(nodes, node, listed, from)
    requires forall q :: Adjacent(nodes[node].pos, q) && conf.InRange(q) ==> (Before(q, from) <==> Before(q, bound))
    ensures RowsListed(nodes, node, listed, bound)
  {}
}
