/** The 16 x 32 grid of `maze.c`: cells, wall bits, and paths through missing walls. */
module MazeGrid {
  const ROWS := 16
  const COLS := 32
  const TOTAL := 512

  const VISITED: bv8 := 0x01
  const PATH_MARKER: bv8 := 0x20

  type Cell = i: int | 0 <= i < TOTAL

  /** Directions in the order of the source's tables: north, south, east, west. */
  type Dir = d: int | 0 <= d < 4

  const START: Cell := 0
  const GOAL: Cell := TOTAL - 1

  function Wall(d: Dir): (b: bv8) {
    if d == 0 then 0x02 else if d == 1 then 0x04 else if d == 2 then 0x08 else 0x10
  }

  function Idx(r: int, c: int): (i: int) { COLS * r + c }

  function Row(i: Cell): (r: int) { i / COLS }

  function Col(i: Cell): (c: int) { i % COLS }

  function RowStep(d: Dir): (n: int) { if d == 0 then -1 else if d == 1 then 1 else 0 }

  function ColStep(d: Dir): (n: int) { if d == 2 then 1 else if d == 3 then -1 else 0 }

  predicate Inside(i: Cell, d: Dir) {
    0 <= Row(i) + RowStep(d) < ROWS && 0 <= Col(i) + ColStep(d) < COLS
  }

  /** The neighbour of `i` in direction `d`. */
  function Step(i: Cell, d: Dir): (j: Cell)
    requires Inside(i, d)
    ensures Row(j) == Row(i) + RowStep(d) && Col(j) == Col(i) + ColStep(d)
    ensures j != i
  {
    Idx(Row(i) + RowStep(d), Col(i) + ColStep(d))
  }

  function Opposite(d: Dir): (e: Dir) {
    if d == 0 then 1 else if d == 1 then 0 else if d == 2 then 3 else 2
  }

  lemma {:induction false} StepBack(i: Cell, d: Dir)
    requires Inside(i, d)
    ensures Inside(Step(i, d), Opposite(d)) && Step(Step(i, d), Opposite(d)) == i
  {
  }

  lemma {:induction false} StepIsInjective(i: Cell, d: Dir, e: Dir)
    requires Inside(i, d) && Inside(i, e) && Step(i, d) == Step(i, e)
    ensures d == e
  {
  }

  predicate Clear(b: bv8, d: Dir) { b & Wall(d) == 0 }

  /** One may leave `i` in direction `d`: a neighbour is there and no wall is. */
  predicate Passable(grid: seq<bv8>, i: Cell, d: Dir)
    requires |grid| == TOTAL
  {
    Inside(i, d) && Clear(grid[i], d)
  }

  ghost predicate Open(grid: seq<bv8>, i: Cell, j: Cell)
    requires |grid| == TOTAL
  {
    exists d: Dir :: Passable(grid, i, d) && Step(i, d) == j
  }

  ghost predicate Linked(grid: seq<bv8>, p: seq<Cell>)
    requires |grid| == TOTAL
  {
    forall k :: 0 <= k < |p| - 1 ==> Open(grid, p[k], p[k + 1])
  }

  ghost predicate IsPath(grid: seq<bv8>, p: seq<Cell>, from: Cell, to: Cell)
    requires |grid| == TOTAL
  {
    |p| > 0 && p[0] == from && p[|p| - 1] == to && Linked(grid, p)
  }

  ghost predicate Simple(p: seq<Cell>) {
    forall i, j :: 0 <= i < j < |p| ==> p[i] != p[j]
  }

  ghost predicate Reachable(grid: seq<bv8>, from: Cell, to: Cell)
    requires |grid| == TOTAL
  {
    exists p: seq<Cell> :: IsPath(grid, p, from, to)
  }

  /** A set of cells has at most `TOTAL` of them, and that many only if it has them all. */
  lemma {:induction false} CellSetSize(s: set<int>)
    requires forall u :: u in s ==> 0 <= u < TOTAL
    ensures |s| <= TOTAL
    ensures |s| == TOTAL <==> forall c: Cell :: c in s
  {
    RangeSize(s, TOTAL);
  }

  lemma {:induction false} RangeSize(s: set<int>, n: nat)
    requires forall u :: u in s ==> 0 <= u < n
    ensures |s| <= n
    ensures |s| == n <==> forall c :: 0 <= c < n ==> c in s
  {
    if n == 0 {
      assert forall u :: u !in s;
    } else {
      RangeSize(s - {n - 1}, n - 1);
      assert n - 1 in s ==> |s| == |s - {n - 1}| + 1;
      assert n - 1 !in s ==> s == s - {n - 1};
    }
  }
}
