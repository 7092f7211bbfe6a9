/** A run of the path search, step by step, on a small map. */
module SearchRuns {
  import opened Grid
  import opened OpenList
  import opened SearchInvariant
  import opened PathSearch

  // ----- what a search has found out -----

  /** The costs of the open and of the closed nodes. */
  datatype Marks = Marks(open: map<int, int>, closed: map<int, int>)

  ghost predicate Marked(nodes: seq<Node>, m: Marks) {
    forall v :: 0 <= v < |nodes| ==>
      && (InOpenList(nodes[v]) <==> v in m.open) && (v in m.open ==> nodes[v].g == m.open[v])
      && (InCloseList(nodes[v]) <==> v in m.closed) && (v in m.closed ==> nodes[v].g == m.closed[v])
  }

  /** u is offered a cost: taken if it is new or less, also by a closed node, which is
      then open again. */
  function Offered(m: Marks, cost: int, u: int): Marks {
    if (u in m.closed && m.closed[u] <= cost) || (u in m.open && m.open[u] <= cost) then m
    else Marks(m.open[u := cost], if u in m.closed then m.closed[u := cost] else m.closed)
  }

  /** The first n of us are offered a cost, one by one. */
  function OfferedTo(m: Marks, cost: int, us: seq<int>, n: nat): Marks
    requires n <= |us|
  {
    if n == 0 then m else Offered(OfferedTo(m, cost, us, n - 1), cost, us[n - 1])
  }

  function Taken(m: Marks, cur: int): Marks
    requires cur in m.open
  {
    Marks(m.open - {cur}, m.closed[cur := m.open[cur]])
  }

  lemma OfferMarks(nodes: seq<Node>, nodes': seq<Node>, end: int, cur: int, u: int, m: Marks)
    requires 0 <= cur < |nodes| && 0 <= u < |nodes| && 0 <= end < |nodes| && Marked(nodes, m)
    requires if Improves(nodes, cur, u) then Reparented(nodes, nodes', end, cur, u) else nodes' == nodes
    ensures Marked(nodes', Offered(m, nodes[cur].g + 10, u))
  {}

  /** The only open node is the root, and alone in the list. */
  lemma OnlyOpen(nodes: seq<Node>, slots: seq<int>, size: nat, d: int)
    requires Linked(nodes, slots, size) && 0 <= d < |nodes|
    requires forall v :: 0 <= v < |nodes| ==> (InOpenList(nodes[v]) <==> v == d)
    ensures size == 2 && slots[1] == d
  {
    assert Listed(nodes, slots, size, d);
    forall i | 1 <= i < size ensures slots[i] == d && i < 2 {
      assert InOpenList(nodes[slots[i]]);
    }
    assert slots[size - 1] == d;
  }

  /** An open node with a lower f than every other is the root. */
  lemma LeastIsRoot(nodes: seq<Node>, slots: seq<int>, size: nat, cur: int)
    requires Heap(nodes, slots, size) && 0 <= cur < |nodes| && InOpenList(nodes[cur])
    requires forall v :: 0 <= v < |nodes| && v != cur && InOpenList(nodes[v]) ==> nodes[cur].f < nodes[v].f
    ensures 2 <= size && slots[1] == cur
  {
    assert Listed(nodes, slots, size, cur);
    if slots[1] != cur {
      RootIsLeast(nodes, slots, size, nodes[cur].openListPos);
    }
  }

  /** Scene.CloseLeast on a search with known marks. */
  method Take(scene: Scene, cur: int, ghost m: Marks)
    requires scene.Searching(NULL) && Marked(scene.nodes, m) && 1 < scene.size && cur == scene.slots[1] && cur != scene.endNode
    requires cur in m.open
    modifies scene`nodes, scene`slots, scene`size
    ensures scene.Searching(cur) && SameGrid(old(scene.nodes), scene.nodes) && Marked(scene.nodes, Taken(m, cur))
    ensures 0 <= cur < |scene.nodes| && InCloseList(scene.nodes[cur]) && !InOpenList(scene.nodes[cur])
    ensures scene.nodes[cur].g == m.open[cur]
    ensures scene.size == 2 ==> scene.nodes[scene.slots[1]].openListPos != 1
  {
    scene.CloseLeast();
  }

  // ----- Scene.Expand on a search with known marks -----

  /** The loop of Scene.Expand over us, behind its first i rounds. */
  ghost predicate Offering(scene: Scene, closed: seq<Node>, cur: int, us: seq<int>, i: nat, m: Marks)
    reads scene
  {
    && scene.Searching(cur) && i <= |us|
    && 0 <= cur < |closed| && InCloseList(closed[cur]) && !InOpenList(closed[cur])
    && (forall k :: 0 <= k < |us| ==> 0 <= us[k] < |closed| && Neighbors(closed, cur, us[k]))
    && Relaxing(closed, scene.nodes, cur) && RelaxedUpTo(scene.nodes, cur, us, i)
    && Marked(scene.nodes, OfferedTo(m, closed[cur].g + 10, us, i))
  }

  /** One round of that loop. */
  method Offer(scene: Scene, cur: int, us: seq<int>, i: nat, ghost closed: seq<Node>, ghost m: Marks)
    requires Offering(scene, closed, cur, us, i, m) && i < |us|
    modifies scene`nodes, scene`slots, scene`size
    ensures Offering(scene, closed, cur, us, i + 1, m)
  {
    ghost var before := scene.nodes;
    assert Neighbors(closed, cur, us[i]);
    scene.RelaxNeighbor(cur, us[i]);
    OfferDone(closed, before, scene.nodes, scene.endNode, cur, us, i, OfferedTo(m, closed[cur].g + 10, us, i));
  }

  lemma OfferDone(closed: seq<Node>, before: seq<Node>, nodes: seq<Node>, end: int, cur: int, us: seq<int>, i: nat, m: Marks)
    requires Relaxing(closed, before, cur) && Relaxing(before, nodes, cur) && RelaxedUpTo(before, cur, us, i) && i < |us|
    requires 0 <= us[i] < |nodes| && Relaxed(nodes, cur, us[i]) && 0 <= end < |nodes| && Marked(before, m)
    requires if Improves(before, cur, us[i]) then Reparented(before, nodes, end, cur, us[i]) else nodes == before
    ensures Relaxing(closed, nodes, cur) && RelaxedUpTo(nodes, cur, us, i + 1)
    ensures Marked(nodes, Offered(m, closed[cur].g + 10, us[i]))
  {
    RelaxedMore(closed, before, nodes, cur, us, i);
    OfferMarks(before, nodes, end, cur, us[i], m);
  }

  method OfferTo(scene: Scene, cur: int, us: seq<int>, ghost before: seq<Node>, ghost m: Marks)
    requires SameGrid(before, scene.nodes)
    requires scene.Searching(cur) && NeighborList(scene.nodes, cur, us) && Marked(scene.nodes, m)
    requires InCloseList(scene.nodes[cur]) && !InOpenList(scene.nodes[cur])
    modifies scene`nodes, scene`slots, scene`size
    ensures scene.Searching(NULL) && SameGrid(before, scene.nodes)
    ensures Marked(scene.nodes, OfferedTo(m, old(scene.nodes[cur]).g + 10, us, |us|))
  {
    ghost var closed := scene.nodes;
    NothingOffered(scene, cur, us, m);
    var i := 0;
    while i < |us|
      invariant 0 <= i <= |us| && Offering(scene, closed, cur, us, i, m)
    {
      Offer(scene, cur, us, i, closed, m);
      i := i + 1;
    }
    AllOffered(scene, before, closed, cur, us, m);
  }

  /** Scene.Expand on a search with known marks. */
  method Expand(scene: Scene, cur: int, ghost m: Marks) returns (us: seq<int>)
    requires scene.Searching(NULL) && Marked(scene.nodes, m) && 1 < scene.size && cur == scene.slots[1] && cur != scene.endNode
    requires cur in m.open
    modifies scene`nodes, scene`slots, scene`size
    ensures scene.Searching(NULL) && SameGrid(old(scene.nodes), scene.nodes)
    ensures NeighborList(old(scene.nodes), cur, us)
    ensures Marked(scene.nodes, OfferedTo(Taken(m, cur), m.open[cur] + 10, us, |us|))
  {
    us := TakeAndList(scene, cur, m);
    OfferTo(scene, cur, us, old(scene.nodes), Taken(m, cur));
  }

  method TakeAndList(scene: Scene, cur: int, ghost m: Marks) returns (us: seq<int>)
    requires scene.Searching(NULL) && Marked(scene.nodes, m) && 1 < scene.size && cur == scene.slots[1] && cur != scene.endNode
    requires cur in m.open
    modifies scene`nodes, scene`slots, scene`size
    ensures scene.Searching(cur) && SameGrid(old(scene.nodes), scene.nodes) && Marked(scene.nodes, Taken(m, cur))
    ensures NeighborList(old(scene.nodes), cur, us) && NeighborList(scene.nodes, cur, us)
    ensures InCloseList(scene.nodes[cur]) && !InOpenList(scene.nodes[cur]) && scene.nodes[cur].g == m.open[cur]
  {
    Take(scene, cur, m);
    us := ListNeighbors(scene, cur);
    SameNeighbors(old(scene.nodes), scene.nodes, cur, us);
  }

  method ListNeighbors(scene: Scene, cur: int) returns (us: seq<int>)
    requires scene.Valid() && 0 <= cur < |scene.nodes|
    ensures NeighborList(scene.nodes, cur, us)
  {
    us := scene.GetNeighborNodes(cur);
  }

  lemma SameNeighbors(nodes: seq<Node>, nodes': seq<Node>, cur: int, us: seq<int>)
    requires SameGrid(nodes, nodes') && NeighborList(nodes', cur, us)
    ensures NeighborList(nodes, cur, us)
  {
    forall u | 0 <= u < |nodes| && Neighbors(nodes, cur, u) ensures u in us {
      assert Neighbors(nodes', cur, u);
    }
  }

  lemma NothingOffered(scene: Scene, cur: int, us: seq<int>, m: Marks)
    requires scene.Searching(cur) && NeighborList(scene.nodes, cur, us) && Marked(scene.nodes, m)
    requires InCloseList(scene.nodes[cur]) && !InOpenList(scene.nodes[cur])
    ensures Offering(scene, scene.nodes, cur, us, 0, m)
  {
  }

  lemma AllOffered(scene: Scene, before: seq<Node>, closed: seq<Node>, cur: int, us: seq<int>, m: Marks)
    requires Offering(scene, closed, cur, us, |us|, m) && NeighborList(closed, cur, us)
    requires SameGrid(before, closed)
    ensures scene.Searching(NULL) && SameGrid(before, scene.nodes) && Marked(scene.nodes, OfferedTo(m, closed[cur].g + 10, us, |us|))
  {
    ExpandedFully(closed, scene.nodes, cur, us);
  }

  /** Exactly the walkable neighbours of cur, in the order of their cells. */
  ghost predicate NeighborList(nodes: seq<Node>, cur: int, us: seq<int>) {
    && 0 <= cur < |nodes|
    && (forall k :: 0 <= k < |us| ==> 0 <= us[k] < |nodes| && Neighbors(nodes, cur, us[k]))
    && (forall u :: 0 <= u < |nodes| && Neighbors(nodes, cur, u) ==> u in us)
    && (forall j, k :: 0 <= j < k < |us| ==> us[j] < us[k])
  }

  // ----- the map -----

  /** Six cells by three: (0,0), (1,0), (0,1), (2,1) and (1,2) hang together, and the end
      (5,0) stands alone. */
  const MAP := MapConf(0, 3, 6, "001110010111101111")

  lemma CellAt(nodes: seq<Node>, x: nat, y: nat)
    requires OnGrid(MAP, nodes) && MAP.InRange(Position(x, y))
    ensures 0 <= y * 6 + x < |nodes| == 18 && Index(MAP, Position(x, y)) == y * 6 + x
    ensures nodes[y * 6 + x].pos == Position(x, y)
  {
    RowMajor(MAP, Position(x, y));
    RowMajor(MAP, Position(0, 3));
    SamePosition(MAP, nodes[y * 6 + x].pos, Position(x, y));
  }

  /** The cells of the map that matter. */
  ghost predicate OnMap(nodes: seq<Node>) {
    && |nodes| == 18
    && nodes[0].pos == Position(0, 0) && nodes[1].pos == Position(1, 0) && nodes[5].pos == Position(5, 0)
    && nodes[6].pos == Position(0, 1) && nodes[8].pos == Position(2, 1) && nodes[13].pos == Position(1, 2)
    && forall v :: 0 <= v < 18 ==> (nodes[v].walkable <==> v in {0, 1, 5, 6, 8, 13})
  }

  lemma GridIsMap(nodes: seq<Node>)
    requires OnGrid(MAP, nodes)
    ensures OnMap(nodes)
  {
    CellAt(nodes, 0, 0);
    CellAt(nodes, 1, 0);
    CellAt(nodes, 5, 0);
    CellAt(nodes, 0, 1);
    CellAt(nodes, 2, 1);
    CellAt(nodes, 1, 2);
    WalkableCells(nodes);
  }

  lemma WalkableCells(nodes: seq<Node>)
    requires OnGrid(MAP, nodes) && |nodes| == 18
    ensures forall v :: 0 <= v < 18 ==> (nodes[v].walkable <==> v in {0, 1, 5, 6, 8, 13})
  {
    forall v | 0 <= v < 18 ensures nodes[v].walkable <==> v in {0, 1, 5, 6, 8, 13} {
      assert nodes[v].walkable <==> MAP.blocks[v] == '0';
      Blocks(v);
    }
  }

  lemma Blocks(v: nat)
    requires v < 18
    ensures MAP.blocks[v] == '0' <==> v in {0, 1, 5, 6, 8, 13}
  {}

  lemma TwoOf(us: seq<int>, a: int, b: int)
    requires a < b && a in us && b in us && (forall k :: 0 <= k < |us| ==> us[k] == a || us[k] == b)
    requires forall j, k :: 0 <= j < k < |us| ==> us[j] < us[k]
    ensures us == [a, b]
  {
    var i :| 0 <= i < |us| && us[i] == a;
    var j :| 0 <= j < |us| && us[j] == b;
    assert us[0] == a && us[1] == b;
    assert us[|us| - 1] == b;
  }

  lemma ThreeOf(us: seq<int>, a: int, b: int, c: int)
    requires a < b < c && a in us && b in us && c in us
    requires forall k :: 0 <= k < |us| ==> us[k] == a || us[k] == b || us[k] == c
    requires forall j, k :: 0 <= j < k < |us| ==> us[j] < us[k]
    ensures us == [a, b, c]
  {
    var i :| 0 <= i < |us| && us[i] == a;
    var j :| 0 <= j < |us| && us[j] == b;
    var k :| 0 <= k < |us| && us[k] == c;
    assert us[0] == a && us[1] == b && us[2] == c;
    assert us[|us| - 1] == c;
  }

  lemma NeighborsOf0(nodes: seq<Node>, us: seq<int>)
    requires OnMap(nodes) && NeighborList(nodes, 0, us)
    ensures us == [1, 6]
  {
    assert Neighbors(nodes, 0, 1) && Neighbors(nodes, 0, 6);
    TwoOf(us, 1, 6);
  }

  lemma NeighborsOf1(nodes: seq<Node>, us: seq<int>)
    requires OnMap(nodes) && NeighborList(nodes, 1, us)
    ensures us == [0, 6, 8]
  {
    assert Neighbors(nodes, 1, 0) && Neighbors(nodes, 1, 6) && Neighbors(nodes, 1, 8);
    ThreeOf(us, 0, 6, 8);
  }

  lemma NeighborsOf8(nodes: seq<Node>, us: seq<int>)
    requires OnMap(nodes) && NeighborList(nodes, 8, us)
    ensures us == [1, 13]
  {
    assert Neighbors(nodes, 8, 1) && Neighbors(nodes, 8, 13);
    TwoOf(us, 1, 13);
  }

  lemma NeighborsOf6(nodes: seq<Node>, us: seq<int>)
    requires OnMap(nodes) && NeighborList(nodes, 6, us)
    ensures us == [0, 1, 13]
  {
    assert Neighbors(nodes, 6, 0) && Neighbors(nodes, 6, 1) && Neighbors(nodes, 6, 13);
    ThreeOf(us, 0, 1, 13);
  }

  lemma RootOf(n: nat, r: nat)
    requires r * r <= n < (r + 1) * (r + 1)
    ensures ISqrt(n) == r
  {
    var s := ISqrt(n);
    if s < r {
      Squares(s + 1, r);
    } else if r < s {
      Squares(r + 1, s);
    }
  }

  lemma Squares(a: nat, b: nat)
    requires a <= b
    ensures a * a <= b * b
  {}

  lemma EstimateIs(p: Position, q: Position, dx: int, dy: int, n: nat, r: nat)
    requires p.x - q.x == dx && p.y - q.y == dy && n == 100 * (dx * dx + dy * dy) && r * r <= n < (r + 1) * (r + 1)
    ensures Estimate(p, q) == r
  {
    RootOf(n, r);
  }

  lemma FirstEstimates(nodes: seq<Node>)
    requires OnMap(nodes)
    ensures Estimate(nodes[1].pos, nodes[5].pos) == 40 && Estimate(nodes[6].pos, nodes[5].pos) == 50
  {
    EstimateIs(nodes[1].pos, nodes[5].pos, -4, 0, 1600, 40);
    EstimateIs(nodes[6].pos, nodes[5].pos, -5, 1, 2600, 50);
  }

  lemma LastEstimates(nodes: seq<Node>)
    requires OnMap(nodes)
    ensures Estimate(nodes[8].pos, nodes[5].pos) == 31 && Estimate(nodes[13].pos, nodes[5].pos) == 44
  {
    EstimateIs(nodes[8].pos, nodes[5].pos, -3, 1, 1000, 31);
    EstimateIs(nodes[13].pos, nodes[5].pos, -4, 2, 2000, 44);
  }

  // ----- the run -----

  lemma Two(m: Marks, cost: int, a: int, b: int)
    ensures OfferedTo(m, cost, [a, b], 2) == Offered(Offered(m, cost, a), cost, b)
  {
    assert OfferedTo(m, cost, [a, b], 1) == Offered(m, cost, a);
  }

  lemma Three(m: Marks, cost: int, a: int, b: int, c: int)
    ensures OfferedTo(m, cost, [a, b, c], 3) == Offered(Offered(Offered(m, cost, a), cost, b), cost, c)
  {
    assert OfferedTo(m, cost, [a, b, c], 1) == Offered(m, cost, a);
    assert OfferedTo(m, cost, [a, b, c], 2) == Offered(Offered(m, cost, a), cost, b);
  }

  const M0 := Marks(map[0 := 0], map[])
  const M1 := Marks(map[1 := 10, 6 := 10], map[0 := 0])
  const M2 := Marks(map[6 := 10, 8 := 20], map[0 := 0, 1 := 10])
  const M3 := Marks(map[6 := 10, 13 := 30], map[0 := 0, 1 := 10, 8 := 20])

  /** The marks when cur is the root, of the nodes expanded in this run. */
  function MarksAt(cur: int): (m: Marks)
    ensures cur in {0, 1, 8, 6} ==> cur in m.open
  {
    if cur == 0 then M0 else if cur == 1 then M1 else if cur == 8 then M2 else M3
  }

  /** The order of the expansions, with the other open node. */
  predicate InTurn(cur: int, next: int, other: int) {
    (cur == 0 && next == 1 && other == 6) || (cur == 1 && next == 8 && other == 6) || (cur == 8 && next == 6 && other == 13)
  }

  lemma FirstMarks()
    ensures OfferedTo(Taken(M0, 0), 10, [1, 6], 2) == M1
  {
    Two(Taken(M0, 0), 10, 1, 6);
  }

  lemma SecondMarks()
    ensures OfferedTo(Taken(M1, 1), 20, [0, 6, 8], 3) == M2
  {
    Three(Taken(M1, 1), 20, 0, 6, 8);
  }

  lemma ThirdMarks()
    ensures OfferedTo(Taken(M2, 8), 30, [1, 13], 2) == M3
  {
    Two(Taken(M2, 8), 30, 1, 13);
  }

  /** A search on the map, between two expansions, with the root of its open list. */
  ghost predicate At(scene: Scene, root: int)
    reads scene
  {
    && scene.Searching(NULL) && scene.endNode == 5 && OnMap(scene.nodes) && Marked(scene.nodes, MarksAt(root))
    && root in {0, 1, 8, 6} && 1 < scene.size && scene.slots[1] == root
  }

  lemma SameMap(nodes: seq<Node>, nodes': seq<Node>)
    requires OnMap(nodes) && SameGrid(nodes, nodes')
    ensures OnMap(nodes')
  {}

  /** Of two open nodes the one with the lower f is the root. */
  lemma RootIs(nodes: seq<Node>, slots: seq<int>, size: nat, u: int, v: int, m: Marks)
    requires Heap(nodes, slots, size) && Marked(nodes, m)
    requires 0 <= u < |nodes| && 0 <= v < |nodes| && m.open.Keys == {u, v} && nodes[u].f < nodes[v].f
    ensures 2 <= size && slots[1] == u
  {
    assert u in m.open.Keys;
    forall w | 0 <= w < |nodes| && w != u && InOpenList(nodes[w]) ensures nodes[u].f < nodes[w].f {
      assert w in m.open.Keys;
    }
    LeastIsRoot(nodes, slots, size, u);
  }

  lemma CostOf(nodes: seq<Node>, start: int, v: int, m: Marks)
    requires Sound(nodes, start, 5) && Marked(nodes, m) && 0 <= v < |nodes| && v in m.open
    ensures InOpenList(nodes[v]) && nodes[v].f == m.open[v] + Estimate(nodes[v].pos, nodes[5].pos)
  {
    assert CostsOk(nodes, start, 5, v);
  }

  lemma BeginMarks(nodes: seq<Node>)
    requires |nodes| == 18 && Sound(nodes, 0, 5)
    requires forall v :: 0 <= v < |nodes| ==> !InCloseList(nodes[v]) && (InOpenList(nodes[v]) <==> v == 0)
    ensures Marked(nodes, M0)
  {}

  method Load() returns (scene: Scene)
    ensures fresh(scene) && scene.Valid() && OnMap(scene.nodes)
    ensures scene.conf.InRange(Position(0, 0)) && Index(scene.conf, Position(0, 0)) == 0
    ensures scene.conf.InRange(Position(5, 0)) && Index(scene.conf, Position(5, 0)) == 5
  {
    RowMajor(MAP, Position(0, 3));
    scene := new Scene(MAP);
    GridIsMap(scene.nodes);
    CellAt(scene.nodes, 0, 0);
    CellAt(scene.nodes, 5, 0);
  }

  method Begin() returns (scene: Scene)
    ensures fresh(scene) && At(scene, 0)
  {
    scene := Load();
    ghost var before := scene.nodes;
    scene.StartSearch(Position(0, 0), Position(5, 0));
    SameMap(before, scene.nodes);
    BeginMarks(scene.nodes);
    OnlyOpen(scene.nodes, scene.slots, scene.size, 0);
  }

  /** One expansion of the run. */
  method Step(scene: Scene, cur: int, ghost next: int, ghost other: int)
    requires At(scene, cur) && InTurn(cur, next, other)
    modifies scene`nodes, scene`slots, scene`size
    ensures At(scene, next)
  {
    ghost var before := scene.nodes;
    var us := Expand(scene, cur, MarksAt(cur));
    Next(scene, before, us, cur, next, other);
  }

  lemma Next(scene: Scene, before: seq<Node>, us: seq<int>, cur: int, next: int, other: int)
    requires InTurn(cur, next, other) && OnMap(before) && NeighborList(before, cur, us)
    requires scene.Searching(NULL) && scene.endNode == 5 && SameGrid(before, scene.nodes)
    requires Marked(scene.nodes, OfferedTo(Taken(MarksAt(cur), cur), MarksAt(cur).open[cur] + 10, us, |us|))
    ensures At(scene, next)
  {
    NextMarks(before, us, cur, next, other);
    SameMap(before, scene.nodes);
    NextIsLess(scene.nodes, scene.startNode, next, other);
    RootIs(scene.nodes, scene.slots, scene.size, next, other, MarksAt(next));
  }

  lemma NextMarks(nodes: seq<Node>, us: seq<int>, cur: int, next: int, other: int)
    requires InTurn(cur, next, other) && OnMap(nodes) && NeighborList(nodes, cur, us)
    ensures OfferedTo(Taken(MarksAt(cur), cur), MarksAt(cur).open[cur] + 10, us, |us|) == MarksAt(next)
  {
    if cur == 0 {
      NeighborsOf0(nodes, us);
      FirstMarks();
    } else if cur == 1 {
      NeighborsOf1(nodes, us);
      SecondMarks();
    } else {
      NeighborsOf8(nodes, us);
      ThirdMarks();
    }
  }

  lemma NextIsLess(nodes: seq<Node>, start: int, next: int, other: int)
    requires OnMap(nodes) && Sound(nodes, start, 5) && Marked(nodes, MarksAt(next))
    requires (next == 1 && other == 6) || (next == 8 && other == 6) || (next == 6 && other == 13)
    ensures MarksAt(next).open.Keys == {next, other} && nodes[next].f < nodes[other].f
  {
    FirstEstimates(nodes);
    LastEstimates(nodes);
    CostOf(nodes, start, next, MarksAt(next));
    CostOf(nodes, start, other, MarksAt(next));
  }

  method LastTaken() returns (scene: Scene)
    ensures fresh(scene) && scene.Searching(6) && OnMap(scene.nodes) && Marked(scene.nodes, Taken(MarksAt(6), 6))
    ensures scene.size == 2 && scene.slots[1] == 13 && scene.nodes[13].openListPos == 2
  {
    scene := Begin();
    Step(scene, 0, 1, 6);
    Step(scene, 1, 8, 6);
    Step(scene, 8, 6, 13);
    TakeLast(scene, 6, 13);
  }

  method TakeLast(scene: Scene, cur: int, ghost other: int)
    requires At(scene, cur) && cur == 6 && other == 13
    modifies scene`nodes, scene`slots, scene`size
    ensures scene.Searching(cur) && OnMap(scene.nodes) && Marked(scene.nodes, Taken(MarksAt(cur), cur))
    ensures scene.size == 2 && scene.slots[1] == other && scene.nodes[other].openListPos == 2
  {
    ghost var before := scene.nodes;
    Take(scene, cur, MarksAt(cur));
    SameMap(before, scene.nodes);
    OtherAlone(scene.nodes, scene.slots, scene.size);
  }

  lemma OtherAlone(nodes: seq<Node>, slots: seq<int>, size: nat)
    requires Heap(nodes, slots, size) && |nodes| == 18 && Marked(nodes, Taken(MarksAt(6), 6))
    ensures size == 2 && slots[1] == 13 && (nodes[13].openListPos != 1 ==> nodes[13].openListPos == 2)
  {
    OnlyOpen(nodes, slots, size, 13);
  }

  lemma OffersOf6(nodes: seq<Node>)
    requires OnMap(nodes) && Marked(nodes, Taken(MarksAt(6), 6))
    ensures InCloseList(nodes[6]) && !InOpenList(nodes[6]) && InOpenList(nodes[13])
    ensures !Improves(nodes, 6, 0) && !Improves(nodes, 6, 1) && Improves(nodes, 6, 13)
  {}

  /** The fourth expansion, of (0,1), up to its last neighbour (1,2): that node is the
      root and alone in the open list, carries as its position 2, which is the length of
      the list and one past its end, and is about to be resorted from there, since its
      cost goes down to 20. */
  method StaleStartIsReached() returns (scene: Scene, us: seq<int>)
    ensures scene.Searching(6) && us == [0, 1, 13] && NeighborList(scene.nodes, 6, us)
    ensures scene.size == 2 && scene.slots[1] == 13 && scene.nodes[13].openListPos == 2
    ensures InOpenList(scene.nodes[13]) && Improves(scene.nodes, 6, 13)
  {
    scene := LastTaken();
    us := ListNeighbors(scene, 6);
    NeighborsOf6(scene.nodes, us);
    OffersOf6(scene.nodes);
    OfferInVain(scene, 6, us[0]);
    OfferInVain(scene, 6, us[1]);
  }

  /** A neighbour that costs no more already: nothing changes. */
  method OfferInVain(scene: Scene, cur: int, u: int)
    requires scene.Searching(cur) && 0 <= cur < |scene.nodes| && InCloseList(scene.nodes[cur]) && !InOpenList(scene.nodes[cur])
    requires 0 <= u < |scene.nodes| && Neighbors(scene.nodes, cur, u) && !Improves(scene.nodes, cur, u)
    modifies scene`nodes, scene`slots, scene`size
    ensures scene.Searching(cur)
    ensures scene.nodes == old(scene.nodes) && scene.slots == old(scene.slots) && scene.size == old(scene.size)
  {
    scene.RelaxNeighbor(cur, u);
  }
}
