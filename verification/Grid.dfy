/** The walkable grid of the path generator: cells, king moves, walks and the
    distance estimate used by the search. */
module Grid {
  import opened Arithmetic

  datatype Position = Position(x: int, y: int)

  /** One tile map: `blocks` holds '0' for a walkable cell, row by row. */
  datatype MapConf = MapConf(id: int, height: int, width: int, blocks: string) {
    predicate InRange(p: Position) {
      0 <= p.x < width && 0 <= p.y < height
    }

    function CellCount(): nat {
      if 0 < width && 0 < height then (RowMajor(this, Position(0, height)); Index(this, Position(0, height))) else 0
    }

    // The map loader fills `blocks` with one character per cell.
    predicate WellFormed() {
      CellCount() <= |blocks|
    }

    predicate Walkable(p: Position) {
      InRange(p) && 0 <= Index(this, p) < |blocks| && blocks[Index(this, p)] == '0'
    }
  }

  /** The number of a cell, counting row by row. */
  function Index(conf: MapConf, p: Position): int
    decreases p.y
  {
    if p.y <= 0 then p.x else Index(conf, Position(p.x, p.y - 1)) + conf.width
  }

  lemma {:induction false} RowMajor(conf: MapConf, p: Position)
    requires 0 <= p.y
    ensures Index(conf, p) == p.y * conf.width + p.x
    ensures 0 <= conf.width && 0 <= p.x ==> p.x <= Index(conf, p)
    decreases p.y
  {
    if 0 < p.y {
      RowMajor(conf, Position(p.x, p.y - 1));
      assert p.y * conf.width == (p.y - 1) * conf.width + conf.width;
    }
  }

  /** Row order. */
  ghost predicate Before(p: Position, q: Position) {
    p.y < q.y || (p.y == q.y && p.x < q.x)
  }

  lemma {:induction false} RowOrder(conf: MapConf, p: Position, q: Position)
    requires conf.InRange(p) && 0 <= q.x && 0 <= q.y && Before(p, q)
    ensures 0 <= Index(conf, p) < Index(conf, q)
    decreases p.y + q.y
  {
    if p.y == q.y {
      if 0 < p.y {
        RowOrder(conf, Position(p.x, p.y - 1), Position(q.x, q.y - 1));
      }
    } else if p.y + 1 == q.y {
      if 0 < p.y {
        RowOrder(conf, Position(p.x, p.y - 1), Position(q.x, q.y - 1));
      } else {
        assert Index(conf, q) == Index(conf, Position(q.x, 0)) + conf.width;
      }
    } else {
      RowOrder(conf, p, Position(q.x, q.y - 1));
    }
  }

  lemma IndexInBounds(conf: MapConf, p: Position)
    requires conf.InRange(p)
    ensures 0 <= Index(conf, p) < conf.CellCount()
  {
    RowOrder(conf, p, Position(0, conf.height));
  }

  lemma {:induction false} NextCell(conf: MapConf, p: Position)
    requires conf.InRange(p)
    ensures 0 <= Index(conf, p) < conf.CellCount()
    ensures Index(conf, Position(p.x + 1, p.y)) == Index(conf, p) + 1
    decreases p.y
  {
    IndexInBounds(conf, p);
    if 0 < p.y {
      NextCell(conf, Position(p.x, p.y - 1));
    }
  }

  lemma {:induction false} NextRow(conf: MapConf, y: int)
    requires 0 <= y
    ensures Index(conf, Position(conf.width, y)) == Index(conf, Position(0, y + 1))
    decreases y
  {
    if 0 < y {
      NextRow(conf, y - 1);
    } else {
      assert Index(conf, Position(0, 1)) == Index(conf, Position(0, 0)) + conf.width;
    }
  }

  lemma SamePosition(conf: MapConf, p: Position, q: Position)
    requires conf.InRange(p) && conf.InRange(q) && Index(conf, p) == Index(conf, q)
    ensures p == q
  {
    if Before(p, q) {
      RowOrder(conf, p, q);
    } else if Before(q, p) {
      RowOrder(conf, q, p);
    }
  }

  /** A king move: to one of the eight cells around. */
  predicate Adjacent(p: Position, q: Position) {
    p != q && -1 <= p.x - q.x <= 1 && -1 <= p.y - q.y <= 1
  }

  /** `path` leads from `begin` to `end` by king moves, each onto a walkable
      cell.  The begin cell itself is not part of the path and need not be
      walkable. */
  ghost predicate IsWalk(conf: MapConf, begin: Position, path: seq<Position>, end: Position)
    decreases path
  {
    if path == [] then begin == end
    else Adjacent(begin, path[0]) && conf.Walkable(path[0]) && IsWalk(conf, path[0], path[1..], end)
  }

  ghost predicate Reachable(conf: MapConf, begin: Position, end: Position)
  {
    exists path :: IsWalk(conf, begin, path, end)
  }

  /** A walk cannot close in on its end faster than one column and one row a step. */
  lemma {:induction false} WalkSpans(conf: MapConf, begin: Position, path: seq<Position>, end: Position)
    requires IsWalk(conf, begin, path, end)
    ensures -|path| <= begin.x - end.x <= |path| && -|path| <= begin.y - end.y <= |path|
    decreases path
  {
    if path != [] {
      WalkSpans(conf, path[0], path[1..], end);
    }
  }

  /** The largest integer whose square does not exceed `n`. */
  function ISqrt(n: nat): (r: nat)
    ensures r * r <= n < (r + 1) * (r + 1)
  {
    if n == 0 then 0
    else
      var r := ISqrt(n - 1);
      if (r + 1) * (r + 1) <= n then r + 1 else r
  }

  /** Ten times the straight-line distance, rounded down. */
  function Estimate(p: Position, q: Position): nat {
    var dx, dy := p.x - q.x, p.y - q.y;
    SquaresNonNegative(dx, dy);
    ISqrt(100 * (dx * dx + dy * dy))
  }

  lemma SquaresNonNegative(a: int, b: int)
    ensures 0 <= a * a && 0 <= b * b
  {}

  lemma SquareMonotone(a: int, b: int)
    requires -b <= a <= b
    ensures a * a <= b * b
  {
    assert (b - a) * (b + a) >= 0;
    assert (b - a) * (b + a) == b * b - a * a;
  }

  /** On a walk of m steps the estimate overshoots the true cost 10 m by at
      most a factor of the square root of two. */
  lemma EstimateBound(conf: MapConf, begin: Position, path: seq<Position>, end: Position)
    requires IsWalk(conf, begin, path, end)
    ensures Estimate(begin, end) * Estimate(begin, end) <= 200 * (|path| * |path|)
  {
    WalkSpans(conf, begin, path, end);
    SquareMonotone(begin.x - end.x, |path|);
    SquareMonotone(begin.y - end.y, |path|);
  }

  /** The estimate is the one number whose square comes closest to a hundred times the squared
      distance from below. */
  lemma EstimateIs(p: Position, q: Position, h: nat)
    ensures Estimate(p, q) == h
       <==> h * h <= 100 * ((p.x - q.x) * (p.x - q.x) + (p.y - q.y) * (p.y - q.y)) < (h + 1) * (h + 1)
  {
    var r := Estimate(p, q);
    if r < h {
      SquareMonotone(r + 1, h);
    } else if h < r {
      SquareMonotone(h + 1, r);
    }
  }

  lemma EstimateAtGoal(p: Position)
    ensures Estimate(p, p) == 0
  {
    var r := Estimate(p, p);
    assert r * r <= 0;
    if 1 <= r { SquareMonotone(1, r); }
  }

  /** A path of n steps is at most the square root of two longer than any walk. */
  ghost predicate NearlyShortest(conf: MapConf, begin: Position, n: nat, end: Position) {
    forall walk :: IsWalk(conf, begin, walk, end) ==> n * n <= 2 * (|walk| * |walk|)
  }

  /** Stepping k cells along a walk of m and then trusting the estimate cannot
      hide a path of n steps with n * n > 2 * m * m. */
  lemma CostBound(n: nat, k: nat, m: nat, h: nat)
    requires k <= m
    requires 10 * n <= 10 * k + h
    requires h * h <= 200 * ((m - k) * (m - k))
    ensures n * n <= 2 * (m * m)
  {
    if k <= n {
      var a, b := n - k, m - k;
      SquareMonotone(10 * a, h);
      assert (10 * a) * (10 * a) == 100 * (a * a);
      assert a * a <= 2 * (b * b);
      HalfwayBound(a, b);
      SquareOfSum(a, k);
      SquareOfSum(b, k);
      assert a * k <= 2 * (b * k) by { MulMonotone(a, 2 * b, k); }
      SquaresNonNegative(k, b);
    } else {
      SquareMonotone(n, m);
      SquaresNonNegative(n, m);
    }
  }

  lemma HalfwayBound(a: nat, b: nat)
    ensures 2 * b < a ==> 2 * (b * b) < a * a
  {
    if 2 * b < a {
      SquareMonotone(2 * b + 1, a);
      SquareOfSum(2 * b, 1);
      assert (2 * b) * (2 * b) == 4 * (b * b);
      SquaresNonNegative(b, b);
    }
  }

  lemma SquareOfSum(a: int, k: int)
    ensures (a + k) * (a + k) == a * a + 2 * (a * k) + k * k
  {}

  function Reversed<T>(s: seq<T>): (r: seq<T>)
    ensures |r| == |s|
  {
    if s == [] then [] else Reversed(s[1..]) + [s[0]]
  }

  lemma {:induction false} ReversedConcat<T>(s: seq<T>, t: seq<T>)
    ensures Reversed(s + t) == Reversed(t) + Reversed(s)
  {
    if s == [] {
      assert s + t == t;
      assert Reversed(t) + Reversed(s) == Reversed(t);
    } else {
      ReversedConcat(s[1..], t);
      assert (s + t)[1..] == s[1..] + t;
      assert Reversed(t) + (Reversed(s[1..]) + [s[0]]) == (Reversed(t) + Reversed(s[1..])) + [s[0]];
    }
  }
}
