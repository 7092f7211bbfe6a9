/** What holds of the nodes between any two steps of the path search, and why it
    makes the search complete and its paths short. */
module SearchInvariant {
  import opened Grid
  import opened OpenList

  /** The first `count` cells of the map, row by row. */
  ghost predicate GridPrefix(conf: MapConf, nodes: seq<Node>, count: int) {
    && |nodes| == count
    && forall v :: 0 <= v < |nodes| ==>
         && conf.InRange(nodes[v].pos) && Index(conf, nodes[v].pos) == v
         && (nodes[v].walkable <==> conf.Walkable(nodes[v].pos))
  }

  /** The nodes are the cells of the map, row by row. */
  ghost predicate OnGrid(conf: MapConf, nodes: seq<Node>) {
    GridPrefix(conf, nodes, conf.CellCount())
  }

  predicate InOpenList(n: Node) { n.openListPos != 0 }

  predicate InCloseList(n: Node) { n.closeListPos != 0 }

  predicate Discovered(n: Node) { InOpenList(n) || InCloseList(n) }

  /** Each discovered node but the start was reached over a walkable king move
      from a closed parent that is cheaper by at least one step. */
  ghost predicate ParentOk(nodes: seq<Node>, v: int)
    requires 0 <= v < |nodes|
  {
    var p := nodes[v].parent;
    && 0 <= p < |nodes| && InCloseList(nodes[p])
    && Adjacent(nodes[p].pos, nodes[v].pos) && nodes[v].walkable
    && nodes[p].g + 10 <= nodes[v].g
  }

  ghost predicate CostsOk(nodes: seq<Node>, start: int, end: int, v: int)
    requires 0 <= v < |nodes| && 0 <= end < |nodes|
  {
    && 0 <= nodes[v].g
    && nodes[v].f == nodes[v].g + Estimate(nodes[v].pos, nodes[end].pos)
    && nodes[v].g + 10 * Undiscovered(nodes) <= 10 * |nodes|
    && (v != start ==> ParentOk(nodes, v))
  }

  ghost predicate Sound(nodes: seq<Node>, start: int, end: int) {
    && 0 <= start < |nodes| && 0 <= end < |nodes|
    && Discovered(nodes[start]) && nodes[start].g == 0
    && !InCloseList(nodes[end])
    && forall v :: 0 <= v < |nodes| && Discovered(nodes[v]) ==> CostsOk(nodes, start, end, v)
  }

  ghost predicate Relaxed(nodes: seq<Node>, v: int, u: int)
    requires 0 <= v < |nodes| && 0 <= u < |nodes|
  {
    Discovered(nodes[u]) && nodes[u].g <= nodes[v].g + 10
  }

  predicate Neighbors(nodes: seq<Node>, v: int, u: int)
    requires 0 <= v < |nodes| && 0 <= u < |nodes|
  {
    Adjacent(nodes[v].pos, nodes[u].pos) && nodes[u].walkable
  }

  /** Every expanded node, `except` apart, has passed its cost on to all its
      walkable neighbours. */
  ghost predicate Expanded(nodes: seq<Node>, except: int) {
    forall v, u | 0 <= v < |nodes| && 0 <= u < |nodes| && v != except
      && InCloseList(nodes[v]) && !InOpenList(nodes[v]) && Neighbors(nodes, v, u) :: Relaxed(nodes, v, u)
  }

  ghost predicate SameGrid(nodes: seq<Node>, nodes': seq<Node>) {
    && |nodes'| == |nodes|
    && forall v :: 0 <= v < |nodes| ==> nodes'[v].pos == nodes[v].pos && nodes'[v].walkable == nodes[v].walkable
  }

  /** What relaxing neighbours of `cur` leaves alone. */
  ghost predicate Relaxing(nodes: seq<Node>, nodes': seq<Node>, cur: int) {
    && SameGrid(nodes, nodes')
    && 0 <= cur < |nodes| && nodes'[cur] == nodes[cur]
    && forall u :: 0 <= u < |nodes| && Relaxed(nodes, cur, u) ==> Relaxed(nodes', cur, u)
  }

  // ----- the termination measure -----

  function Sum(s: seq<int>): int {
    if s == [] then 0 else s[0] + Sum(s[1..])
  }

  lemma {:induction false} SumUpdate(s: seq<int>, i: nat, x: int)
    requires i < |s|
    ensures Sum(s[i := x]) == Sum(s) - s[i] + x
  {
    if i == 0 {
      assert s[i := x][1..] == s[1..];
    } else {
      SumUpdate(s[1..], i - 1, x);
      assert s[i := x][1..] == s[1..][i - 1 := x];
    }
  }

  lemma {:induction false} SumNonNegative(s: seq<int>)
    requires forall x :: x in s ==> 0 <= x
    ensures 0 <= Sum(s)
  {
    if s != [] {
      assert s[0] in s && forall x :: x in s[1..] ==> x in s;
      SumNonNegative(s[1..]);
    }
  }

  function Unknown(n: Node): int { if Discovered(n) then 0 else 1 }

  function UnknownFlags(nodes: seq<Node>): seq<int> {
    seq(|nodes|, i requires 0 <= i < |nodes| => Unknown(nodes[i]))
  }

  function Undiscovered(nodes: seq<Node>): int { Sum(UnknownFlags(nodes)) }

  /** An undiscovered node weighs more than any cost the search can assign. */
  function Weight(n: Node, count: nat): int {
    if Discovered(n) then n.g else 10 * count + 1
  }

  function Weights(nodes: seq<Node>): seq<int> {
    seq(|nodes|, i requires 0 <= i < |nodes| => Weight(nodes[i], |nodes|))
  }

  /** Strictly lowered by every insertion and every decrease-key. */
  function Potential(nodes: seq<Node>): int { Sum(Weights(nodes)) }

  lemma PotentialNonNegative(nodes: seq<Node>, start: int, end: int)
    requires Sound(nodes, start, end)
    ensures 0 <= Potential(nodes)
  {
    forall x | x in Weights(nodes) ensures 0 <= x {
      var i :| 0 <= i < |nodes| && Weights(nodes)[i] == x;
      assert Discovered(nodes[i]) ==> CostsOk(nodes, start, end, i);
    }
    SumNonNegative(Weights(nodes));
  }

  // ----- steps -----

  /** Taking `cur` off the open list and closing it. */
  lemma CloseStep(nodes: seq<Node>, nodes': seq<Node>, start: int, end: int, cur: int)
    requires Sound(nodes, start, end) && Expanded(nodes, NULL)
    requires 0 <= cur < |nodes| && cur != end && InOpenList(nodes[cur])
    requires |nodes'| == |nodes|
    requires nodes'[cur] == nodes[cur].(openListPos := 0, closeListPos := 1)
    requires forall v :: 0 <= v < |nodes| && v != cur ==>
      && nodes'[v] == nodes[v].(openListPos := nodes'[v].openListPos)
      && (InOpenList(nodes'[v]) <==> InOpenList(nodes[v]))
    ensures Sound(nodes', start, end) && Expanded(nodes', cur)
    ensures Potential(nodes') == Potential(nodes)
  {
    assert UnknownFlags(nodes') == UnknownFlags(nodes);
    assert Weights(nodes') == Weights(nodes);
    forall v | 0 <= v < |nodes| && Discovered(nodes'[v]) ensures CostsOk(nodes', start, end, v) {
      assert CostsOk(nodes, start, end, v);
    }
    forall v, u | 0 <= v < |nodes'| && 0 <= u < |nodes'| && v != cur
      && InCloseList(nodes'[v]) && !InOpenList(nodes'[v]) && Neighbors(nodes', v, u)
      ensures Relaxed(nodes', v, u)
    {
      assert Neighbors(nodes, v, u);
      assert Relaxed(nodes, v, u);
    }
  }

  /** `nodes'` is `nodes` with the neighbour u (re)parented to cur and put in,
      or kept in, the open list. */
  ghost predicate Reparented(nodes: seq<Node>, nodes': seq<Node>, end: int, cur: int, u: int)
    requires 0 <= cur < |nodes| && 0 <= u < |nodes| && 0 <= end < |nodes|
  {
    && |nodes'| == |nodes|
    && InOpenList(nodes'[u])
    && nodes'[u] == nodes[u].(parent := cur, g := nodes[cur].g + 10,
         f := nodes[cur].g + 10 + Estimate(nodes[u].pos, nodes[end].pos), openListPos := nodes'[u].openListPos)
    && forall v :: 0 <= v < |nodes| && v != u ==>
         && nodes'[v] == nodes[v].(openListPos := nodes'[v].openListPos)
         && (InOpenList(nodes'[v]) <==> InOpenList(nodes[v]))
  }

  /** Whether the cost over cur is news to u: unless u is closed at no more, or open at
      no more, than that. */
  predicate Improves(nodes: seq<Node>, cur: int, u: int)
    requires 0 <= cur < |nodes| && 0 <= u < |nodes|
  {
    !(InCloseList(nodes[u]) && nodes[u].g <= nodes[cur].g + 10) && (!InOpenList(nodes[u]) || nodes[cur].g + 10 < nodes[u].g)
  }

  /** `nodes'` is `nodes` with cur off the open list and closed. */
  ghost predicate Closed(nodes: seq<Node>, nodes': seq<Node>, cur: int) {
    && |nodes'| == |nodes|
    && forall v :: 0 <= v < |nodes| ==>
         && nodes'[v] == nodes[v].(openListPos := nodes'[v].openListPos, closeListPos := nodes'[v].closeListPos)
         && (InOpenList(nodes'[v]) <==> InOpenList(nodes[v]) && v != cur)
         && (InCloseList(nodes'[v]) <==> InCloseList(nodes[v]) || v == cur)
  }

  lemma MeasureStep(nodes: seq<Node>, nodes': seq<Node>, end: int, cur: int, u: int)
    requires 0 <= cur < |nodes| && 0 <= u < |nodes| && 0 <= end < |nodes|
    requires Reparented(nodes, nodes', end, cur, u)
    ensures Undiscovered(nodes') == Undiscovered(nodes) - Unknown(nodes[u])
    ensures Potential(nodes') == Potential(nodes) - Weight(nodes[u], |nodes|) + nodes[cur].g + 10
  {
    assert UnknownFlags(nodes') == UnknownFlags(nodes)[u := 0];
    SumUpdate(UnknownFlags(nodes), u, 0);
    assert Weights(nodes') == Weights(nodes)[u := nodes[cur].g + 10];
    SumUpdate(Weights(nodes), u, nodes[cur].g + 10);
  }

  lemma ReparentStep(nodes: seq<Node>, nodes': seq<Node>, start: int, end: int, cur: int, u: int)
    requires Sound(nodes, start, end) && Expanded(nodes, cur)
    requires 0 <= cur < |nodes| && InCloseList(nodes[cur]) && !InOpenList(nodes[cur])
    requires 0 <= u < |nodes| && u != cur && Neighbors(nodes, cur, u)
    requires Discovered(nodes[u]) ==> nodes[cur].g + 10 < nodes[u].g
    requires Reparented(nodes, nodes', end, cur, u)
    ensures Sound(nodes', start, end) && Expanded(nodes', cur)
    ensures Potential(nodes') < Potential(nodes)
  {
    MeasureStep(nodes, nodes', end, cur, u);
    assert CostsOk(nodes, start, end, cur);
    assert 0 <= Undiscovered(nodes) by { SumNonNegative(UnknownFlags(nodes)); }
    assert 0 <= Undiscovered(nodes') by { SumNonNegative(UnknownFlags(nodes')); }
    assert u != start;
    forall v | 0 <= v < |nodes'| && Discovered(nodes'[v]) ensures CostsOk(nodes', start, end, v) {
      if v != u {
        assert CostsOk(nodes, start, end, v);
        if v != start {
          assert ParentOk(nodes, v);
        }
      }
    }
    forall v, w | 0 <= v < |nodes'| && 0 <= w < |nodes'| && v != cur
      && InCloseList(nodes'[v]) && !InOpenList(nodes'[v]) && Neighbors(nodes', v, w)
      ensures Relaxed(nodes', v, w)
    {
      assert Neighbors(nodes, v, w);
      assert Relaxed(nodes, v, w);
    }
  }

  ghost predicate RelaxedUpTo(nodes: seq<Node>, cur: int, neighbors: seq<int>, i: int) {
    && 0 <= cur < |nodes| && i <= |neighbors|
    && forall k :: 0 <= k < i ==> 0 <= neighbors[k] < |nodes| && Relaxed(nodes, cur, neighbors[k])
  }

  lemma RelaxedMore(closed: seq<Node>, before: seq<Node>, after: seq<Node>, cur: int, neighbors: seq<int>, i: nat)
    requires Relaxing(closed, before, cur) && Relaxing(before, after, cur)
    requires RelaxedUpTo(before, cur, neighbors, i) && i < |neighbors|
    requires 0 <= neighbors[i] < |after| && Relaxed(after, cur, neighbors[i])
    ensures Relaxing(closed, after, cur) && RelaxedUpTo(after, cur, neighbors, i + 1)
  {}

  /** With all its neighbours relaxed, `cur` is expanded like any other. */
  lemma ExpandedFully(closed: seq<Node>, nodes: seq<Node>, cur: int, neighbors: seq<int>)
    requires Relaxing(closed, nodes, cur) && Expanded(nodes, cur)
    requires forall u :: 0 <= u < |closed| && Neighbors(closed, cur, u) ==> u in neighbors
    requires RelaxedUpTo(nodes, cur, neighbors, |neighbors|)
    ensures Expanded(nodes, NULL)
  {
    forall u | 0 <= u < |nodes| && Neighbors(nodes, cur, u) ensures Relaxed(nodes, cur, u) {
      assert Neighbors(closed, cur, u);
    }
  }

  // ----- the frontier -----

  /** Along any walk from a discovered node to the end there is an open node whose
      cost is no more than the walk's so far; `rest` is what remains of the walk. */
  lemma {:induction false} Frontier(conf: MapConf, nodes: seq<Node>, start: int, end: int, v: int, path: seq<Position>)
      returns (u: int, rest: seq<Position>)
    requires OnGrid(conf, nodes) && Sound(nodes, start, end) && Expanded(nodes, NULL)
    requires 0 <= v < |nodes| && Discovered(nodes[v])
    requires IsWalk(conf, nodes[v].pos, path, nodes[end].pos)
    ensures 0 <= u < |nodes| && InOpenList(nodes[u]) && |rest| <= |path|
    ensures nodes[u].g <= nodes[v].g + 10 * (|path| - |rest|)
    ensures IsWalk(conf, nodes[u].pos, rest, nodes[end].pos)
    decreases path
  {
    if InOpenList(nodes[v]) {
      return v, path;
    }
    assert nodes[v].pos != nodes[end].pos;
    var w := Index(conf, path[0]);
    IndexInBounds(conf, path[0]);
    SamePosition(conf, nodes[w].pos, path[0]);
    assert Neighbors(nodes, v, w);
    assert Relaxed(nodes, v, w);
    u, rest := Frontier(conf, nodes, start, end, w, path[1..]);
  }

  /** With an empty open list no walk leads from the start to the end. */
  lemma ExhaustedMeansUnreachable(conf: MapConf, nodes: seq<Node>, start: int, end: int)
    requires OnGrid(conf, nodes) && Sound(nodes, start, end) && Expanded(nodes, NULL)
    requires forall v :: 0 <= v < |nodes| ==> !InOpenList(nodes[v])
    ensures !Reachable(conf, nodes[start].pos, nodes[end].pos)
  {
    forall path | IsWalk(conf, nodes[start].pos, path, nodes[end].pos) ensures false {
      var u, rest := Frontier(conf, nodes, start, end, start, path);
    }
  }

  lemma EndIsClose(conf: MapConf, nodes: seq<Node>, start: int, end: int, n: nat)
    requires OnGrid(conf, nodes) && Sound(nodes, start, end) && Expanded(nodes, NULL)
    requires InOpenList(nodes[end]) && 10 * n <= nodes[end].g
    requires forall v :: 0 <= v < |nodes| && InOpenList(nodes[v]) ==> nodes[end].f <= nodes[v].f
    ensures NearlyShortest(conf, nodes[start].pos, n, nodes[end].pos)
  {
    forall walk | IsWalk(conf, nodes[start].pos, walk, nodes[end].pos) ensures n * n <= 2 * (|walk| * |walk|) {
      LeastEndIsClose(conf, nodes, start, end, n, walk);
    }
  }

  /** When the end is a least open node, a path of n steps with 10 n <= g(end)
      is at most the square root of two longer than any walk. */
  lemma LeastEndIsClose(conf: MapConf, nodes: seq<Node>, start: int, end: int, n: nat, path: seq<Position>)
    requires OnGrid(conf, nodes) && Sound(nodes, start, end) && Expanded(nodes, NULL)
    requires InOpenList(nodes[end])
    requires forall v :: 0 <= v < |nodes| && InOpenList(nodes[v]) ==> nodes[end].f <= nodes[v].f
    requires 10 * n <= nodes[end].g
    requires IsWalk(conf, nodes[start].pos, path, nodes[end].pos)
    ensures n * n <= 2 * (|path| * |path|)
  {
    var u, rest := Frontier(conf, nodes, start, end, start, path);
    assert CostsOk(nodes, start, end, u);
    assert CostsOk(nodes, start, end, end);
    EstimateAtGoal(nodes[end].pos);
    EstimateBound(conf, nodes[u].pos, rest, nodes[end].pos);
    var h := Estimate(nodes[u].pos, nodes[end].pos);
    CostBound(n, |path| - |rest|, |path|, h);
  }

  /** Just after the start: every node but one is still undiscovered. */
  lemma CountUnknown(nodes: seq<Node>, start: int)
    requires 0 <= start < |nodes|
    requires forall v :: 0 <= v < |nodes| ==> (Discovered(nodes[v]) <==> v == start)
    ensures Undiscovered(nodes) == |nodes| - 1
  {
    var ones := seq(|nodes|, _ => 1);
    SumOfOnes(|nodes|);
    SumUpdate(ones, start, 0);
    assert UnknownFlags(nodes) == ones[start := 0];
  }

  lemma {:induction false} SumOfOnes(n: nat)
    ensures Sum(seq(n, _ => 1)) == n
  {
    if 0 < n {
      SumOfOnes(n - 1);
      assert seq(n, _ => 1)[1..] == seq(n - 1, _ => 1);
    }
  }
}
