/** The A* solver of `maze.c`: optimality, termination and the traced path, on every wall grid. */
module MazeSolver {
  import opened MazeGrid

  const INFINITE := 999999

  function Abs(x: int): (r: int) { if x < 0 then -x else x }

  /** Manhattan distance to the goal. */
  function Heuristic(i: Cell): (h: int)
    ensures 0 <= h <= 46
    ensures h == 0 <==> i == GOAL
  {
    Abs(Row(i) - (ROWS - 1)) + Abs(Col(i) - (COLS - 1))
  }

  lemma {:induction false} HeuristicIsConsistent(i: Cell, d: Dir)
    requires Inside(i, d)
    ensures Heuristic(i) <= 1 + Heuristic(Step(i, d))
  {
  }

  ghost function Reached(g: seq<int>): (s: set<int>) {
    set u | 0 <= u < |g| && g[u] < INFINITE
  }

  /** The four arrays of the solver. */
  datatype Labels = Labels(g: seq<int>, f: seq<int>, parent: seq<int>, open: seq<bool>) {
    predicate Shaped() {
      |g| == |f| == |parent| == |open| == TOTAL
    }

    /** Every label is the length of a real walk, and parents lead back to the start. */
    ghost predicate Sound(grid: seq<bv8>)
      requires |grid| == TOTAL && Shaped()
    {
      && (forall u: Cell :: 0 <= g[u] <= INFINITE)
      && (forall u: Cell :: g[u] < INFINITE ==> g[u] < |Reached(g)| && f[u] == g[u] + Heuristic(u))
      && (forall u: Cell :: open[u] ==> g[u] < INFINITE)
      && g[START] == 0 && parent[START] == -1
      && (forall u: Cell {:trigger parent[u]} :: u != START && g[u] < INFINITE ==>
                              && 0 <= parent[u] < TOTAL
                              && g[parent[u]] + 1 <= g[u]
                              && Open(grid, parent[u], u))
    }

    /** Edges out of closed cells are relaxed; for `cur` only those in the first `done` directions. */
    ghost predicate Relaxed(grid: seq<bv8>, cur: int, done: int)
      requires |grid| == TOTAL && Shaped()
    {
      forall u: Cell, d: Dir {:trigger Passable(grid, u, d)} ::
        g[u] < INFINITE && !open[u] && (u == cur ==> d < done) && Passable(grid, u, d) ==>
          g[Step(u, d)] <= g[u] + 1
    }
  }

  lemma {:induction false} LabelBound(grid: seq<bv8>, l: Labels, u: Cell)
    requires |grid| == TOTAL && l.Shaped() && l.Sound(grid) && l.g[u] < INFINITE
    ensures l.g[u] < TOTAL
  {
    CellSetSize(Reached(l.g));
  }

  // ----- One relaxation -----

  ghost function Relax(l: Labels, u: Cell, v: Cell): (r: Labels)
    requires l.Shaped()
  {
    Labels(l.g[v := l.g[u] + 1], l.f[v := l.g[u] + 1 + Heuristic(v)], l.parent[v := u], l.open[v := true])
  }

  lemma {:induction false} RelaxReached(g: seq<int>, v: Cell, x: int)
    requires |g| == TOTAL && x < INFINITE
    ensures Reached(g[v := x]) == Reached(g) + {v}
    ensures |Reached(g[v := x])| == |Reached(g)| + if g[v] < INFINITE then 0 else 1
  {
    assert Reached(g[v := x]) == Reached(g) + {v};
    if g[v] < INFINITE {
      assert Reached(g) + {v} == Reached(g);
    }
  }

  lemma {:induction false} RelaxKeepsSound(grid: seq<bv8>, l: Labels, u: Cell, d: Dir)
    requires |grid| == TOTAL && l.Shaped() && l.Sound(grid) && l.g[u] < INFINITE
    requires Passable(grid, u, d) && l.g[u] + 1 < l.g[Step(u, d)]
    ensures Relax(l, u, Step(u, d)).Sound(grid)
  {
    var v := Step(u, d);
    var r := Relax(l, u, v);
    LabelBound(grid, l, u);
    RelaxReached(l.g, v, l.g[u] + 1);
    assert Open(grid, u, v);
    hide Open;
    hide Passable;
    hide Heuristic;
    hide Reached;
  }

  lemma {:induction false} RelaxAdvances(grid: seq<bv8>, l: Labels, u: Cell, d: Dir)
    requires |grid| == TOTAL && l.Shaped() && l.Sound(grid) && l.g[u] < INFINITE && !l.open[u]
    requires l.Relaxed(grid, u, d)
    requires Passable(grid, u, d) && l.g[u] + 1 < l.g[Step(u, d)]
    ensures Relax(l, u, Step(u, d)).Relaxed(grid, u, d + 1)
  {
  }

  /** Relaxing the edge out of `u` in direction `d`, if there is one and it helps. */
  ghost function RelaxStep(grid: seq<bv8>, l: Labels, u: Cell, d: Dir): (r: Labels)
    requires |grid| == TOTAL && l.Shaped()
  {
    if Passable(grid, u, d) && l.g[u] + 1 < l.g[Step(u, d)] then Relax(l, u, Step(u, d)) else l
  }

  /** The invariant of the outer loop; the goal is never closed. */
  ghost predicate Running(grid: seq<bv8>, l: Labels)
    requires |grid| == TOTAL
  {
    l.Shaped() && l.Sound(grid) && l.Relaxed(grid, -1, 0) && (l.g[GOAL] < INFINITE ==> l.open[GOAL])
  }

  /** The invariant of the neighbour loop. */
  ghost predicate Expanding(grid: seq<bv8>, l: Labels, cur: Cell, done: int)
    requires |grid| == TOTAL
  {
    && l.Shaped() && l.Sound(grid) && l.Relaxed(grid, cur, done)
    && l.g[cur] < INFINITE && !l.open[cur]
    && (l.g[GOAL] < INFINITE ==> l.open[GOAL])
  }

  lemma {:induction false} Closing(grid: seq<bv8>, l: Labels, cur: Cell)
    requires |grid| == TOTAL && Running(grid, l) && l.open[cur] && cur != GOAL
    ensures Expanding(grid, l.(open := l.open[cur := false]), cur, 0)
  {
  }

  lemma {:induction false} Closed(grid: seq<bv8>, l: Labels, cur: Cell)
    requires |grid| == TOTAL && Expanding(grid, l, cur, 4)
    ensures Running(grid, l)
  {
  }

  lemma {:induction false} RelaxStepKeeps(grid: seq<bv8>, l: Labels, cur: Cell, d: Dir)
    requires |grid| == TOTAL && Expanding(grid, l, cur, d)
    ensures Expanding(grid, RelaxStep(grid, l, cur, d), cur, d + 1)
    ensures RelaxStep(grid, l, cur, d) == l || Sum(RelaxStep(grid, l, cur, d).g) < Sum(l.g)
  {
    hide Labels.Sound;
    hide Step;
    if Passable(grid, cur, d) && l.g[cur] + 1 < l.g[Step(cur, d)] {
      RelaxKeepsSound(grid, l, cur, d);
      RelaxAdvances(grid, l, cur, d);
      SumUpdate(l.g, Step(cur, d), l.g[cur] + 1);
    }
  }

  // ----- Optimality -----

  /** On any walk from the start, the first open cell (or else the last cell) has a label no larger
      than its position on the walk. */
  lemma {:induction false} FrontierOnPath(grid: seq<bv8>, l: Labels, p: seq<Cell>) returns (k: nat)
    requires |grid| == TOTAL && l.Shaped() && l.Sound(grid) && l.Relaxed(grid, -1, 0)
    requires |p| > 0 && p[0] == START && Linked(grid, p)
    ensures k < |p| && l.g[p[k]] <= k && l.g[p[k]] < INFINITE
    ensures l.open[p[k]] || k == |p| - 1
  {
    k := 0;
    while k < |p| - 1 && !l.open[p[k]]
      invariant k < |p| && l.g[p[k]] <= k && l.g[p[k]] < INFINITE
    {
      assert Open(grid, p[k], p[k + 1]);
      LabelBound(grid, l, p[k]);
      k := k + 1;
    }
  }

  lemma {:induction false} HeuristicAlongPath(grid: seq<bv8>, p: seq<Cell>, k: nat)
    requires |grid| == TOTAL && k < |p| && Linked(grid, p) && p[|p| - 1] == GOAL
    ensures Heuristic(p[k]) <= |p| - 1 - k
    decreases |p| - k
  {
    if k < |p| - 1 {
      assert Open(grid, p[k], p[k + 1]);
      var d: Dir :| Passable(grid, p[k], d) && Step(p[k], d) == p[k + 1];
      HeuristicIsConsistent(p[k], d);
      HeuristicAlongPath(grid, p, k + 1);
    }
  }

  /** When the goal has the lowest f of the open cells, its label is a lower bound for every walk. */
  lemma {:induction false} GoalIsOptimal(grid: seq<bv8>, l: Labels, p: seq<Cell>)
    requires |grid| == TOTAL && l.Shaped() && l.Sound(grid) && l.Relaxed(grid, -1, 0)
    requires l.open[GOAL] && forall u: Cell :: l.open[u] ==> l.f[GOAL] <= l.f[u]
    requires IsPath(grid, p, START, GOAL)
    ensures l.g[GOAL] <= |p| - 1
  {
    var k := FrontierOnPath(grid, l, p);
    HeuristicAlongPath(grid, p, k);
  }

  lemma {:induction false} OpenIsFinite(grid: seq<bv8>, l: Labels, u: Cell)
    requires |grid| == TOTAL && Running(grid, l) && l.open[u]
    ensures l.f[u] < INFINITE
  {
    LabelBound(grid, l, u);
  }

  /** With nothing open, no walk from the start ends at the goal. */
  lemma {:induction false} ExhaustedIsUnreachable(grid: seq<bv8>, l: Labels)
    requires |grid| == TOTAL && Running(grid, l) && forall u: Cell :: !l.open[u]
    ensures !Reachable(grid, START, GOAL)
  {
    if p: seq<Cell> :| IsPath(grid, p, START, GOAL) {
      var k := FrontierOnPath(grid, l, p);
    }
  }

  lemma {:induction false} Initial(grid: seq<bv8>, l: Labels)
    requires |grid| == TOTAL && l.Shaped()
    requires l.g[START] == 0 && l.f[START] == Heuristic(START) && l.open[START]
    requires forall u: Cell :: l.parent[u] == -1
    requires forall u: Cell :: u != START ==> l.g[u] == INFINITE && !l.open[u]
    ensures Running(grid, l)
  {
    assert Reached(l.g) == {START};
  }

  // ----- Termination -----

  ghost function Sum(g: seq<int>): (n: int) {
    if g == [] then 0 else g[0] + Sum(g[1..])
  }

  lemma {:induction false} SumUpdate(g: seq<int>, v: nat, x: int)
    requires v < |g|
    ensures Sum(g[v := x]) == Sum(g) - g[v] + x
  {
    if v == 0 {
      assert g[0 := x][1..] == g[1..];
    } else {
      assert g[v := x][1..] == g[1..][v - 1 := x];
      SumUpdate(g[1..], v - 1, x);
    }
  }

  lemma {:induction false} SumNonNegative(g: seq<int>)
    requires forall k :: 0 <= k < |g| ==> g[k] >= 0
    ensures Sum(g) >= 0
  {
    if g != [] {
      SumNonNegative(g[1..]);
    }
  }

  lemma {:induction false} SumBounded(grid: seq<bv8>, l: Labels)
    requires |grid| == TOTAL && Running(grid, l)
    ensures Sum(l.g) >= 0
  {
    SumNonNegative(l.g);
  }

  ghost function OpenCells(open: seq<bool>): (s: set<int>) {
    set u | 0 <= u < |open| && open[u]
  }

  // ----- Parent chains -----

  /** `q` follows parent links down to the goal, with labels that grow along it. */
  ghost predicate Chain(grid: seq<bv8>, l: Labels, q: seq<Cell>)
    requires |grid| == TOTAL && l.Shaped()
  {
    && |q| > 0 && q[|q| - 1] == GOAL && Linked(grid, q)
    && l.g[q[0]] < INFINITE && |q| - 1 <= l.g[GOAL] - l.g[q[0]]
    && (forall i, j :: 0 <= i < j < |q| ==> l.g[q[i]] < l.g[q[j]])
  }

  lemma {:induction false} ChainExtends(grid: seq<bv8>, l: Labels, q: seq<Cell>)
    requires |grid| == TOTAL && l.Shaped() && l.Sound(grid) && Chain(grid, l, q) && q[0] != START
    ensures 0 <= l.parent[q[0]] < TOTAL && l.g[l.parent[q[0]]] < l.g[q[0]]
    ensures Chain(grid, l, [l.parent[q[0]]] + q)
  {
    var r: seq<Cell> := [l.parent[q[0]]] + q;
    forall k | 0 <= k < |r| - 1 ensures Open(grid, r[k], r[k + 1]) {
      if k > 0 {
        assert Open(grid, q[k - 1], q[k]);
      }
    }
    forall i, j | 0 <= i < j < |r| ensures l.g[r[i]] < l.g[r[j]] {
      if i > 0 {
        assert r[i] == q[i - 1];
      }
    }
  }

  /** The cells of `grid` with the marker added along `path`. */
  ghost function Marked(grid: seq<bv8>, path: seq<Cell>): (r: seq<bv8>)
    ensures |r| == |grid|
  {
    seq(|grid|, c requires 0 <= c < |grid| => if c in path then grid[c] | PATH_MARKER else grid[c])
  }

  lemma {:induction false} MarkOne(grid: seq<bv8>, c: Cell, path: seq<Cell>)
    requires |grid| == TOTAL
    ensures Marked(grid, [c] + path) == Marked(grid, path)[c := Marked(grid, path)[c] | PATH_MARKER]
  {
    assert grid[c] | PATH_MARKER | PATH_MARKER == grid[c] | PATH_MARKER;
  }

  // ----- The solver -----

  /** The open cell with the lowest f, or -1. */
  method SelectLowest(f: array<int>, open: array<bool>) returns (current: int)
    requires f.Length == open.Length == TOTAL
    ensures current == -1 ==> forall u: Cell :: open[u] ==> f[u] >= INFINITE
    ensures current != -1 ==> 0 <= current < TOTAL && open[current] && f[current] < INFINITE
    ensures current != -1 ==> forall u: Cell :: open[u] ==> f[current] <= f[u]
  {
    current := -1;
    var lowest := INFINITE;
    for i := 0 to TOTAL
      invariant current == -1 ==> lowest == INFINITE
      invariant current != -1 ==> 0 <= current < i && open[current] && f[current] == lowest < INFINITE
      invariant forall u :: 0 <= u < i && open[u] ==> lowest <= f[u]
    {
      if open[i] && f[i] < lowest {
        lowest, current := f[i], i;
      }
    }
  }

  ghost function View(g: array<int>, f: array<int>, parent: array<int>, open: array<bool>): (l: Labels)
    reads g, f, parent, open
  {
    Labels(g[..], f[..], parent[..], open[..])
  }

  ghost predicate Apart(grid: array<bv8>, g: array<int>, f: array<int>, parent: array<int>, open: array<bool>) {
    && g != f && g != parent && f != parent
    && grid as object != g && grid as object != f && grid as object != parent && grid as object != open
    && open as object != g && open as object != f && open as object != parent
  }

  /** One turn of the neighbour loop: `RelaxStep` on the four arrays. */
  method RelaxEdge(grid: array<bv8>, current: Cell, i: Dir,
                   g: array<int>, f: array<int>, parent: array<int>, open: array<bool>)
    requires grid.Length == TOTAL && View(g, f, parent, open).Shaped()
    requires Apart(grid, g, f, parent, open)
    modifies g, f, parent, open
    ensures View(g, f, parent, open) == RelaxStep(grid[..], old(View(g, f, parent, open)), current, i)
  {
    var nr, nc := current / COLS + RowStep(i), current % COLS + ColStep(i);
    if 0 <= nr < ROWS && 0 <= nc < COLS {
      if Clear(grid[current], i) {
        var n := Idx(nr, nc);
        var tentative := g[current] + 1;
        if tentative < g[n] {
          parent[n] := current;
          g[n] := tentative;
          f[n] := tentative + Heuristic(n);
          if !open[n] {
            open[n] := true;
          }
        }
      }
    }
  }

  /** Closes `current` and relaxes its four edges. */
  method Expand(grid: array<bv8>, current: Cell,
                g: array<int>, f: array<int>, parent: array<int>, open: array<bool>)
    requires grid.Length == TOTAL
    requires Apart(grid, g, f, parent, open)
    requires Running(grid[..], View(g, f, parent, open))
    requires open[current] && current != GOAL
    modifies g, f, parent, open
    ensures Running(grid[..], View(g, f, parent, open))
    ensures Sum(g[..]) < old(Sum(g[..])) || (g[..] == old(g[..]) && OpenCells(open[..]) < old(OpenCells(open[..])))
  {
    hide Labels.Sound;
    hide Labels.Relaxed;
    ghost var cells := grid[..];
    ghost var l0 := View(g, f, parent, open);
    open[current] := false;
    ghost var l1 := View(g, f, parent, open);
    assert l1 == l0.(open := l0.open[current := false]);
    Closing(cells, l0, current);
    for i := 0 to 4
      invariant grid[..] == cells && Expanding(cells, View(g, f, parent, open), current, i)
      invariant Sum(g[..]) < Sum(l1.g) || View(g, f, parent, open) == l1
    {
      RelaxStepKeeps(cells, View(g, f, parent, open), current, i);
      RelaxEdge(grid, current, i, g, f, parent, open);
    }
    Closed(cells, View(g, f, parent, open), current);
    assert OpenCells(l1.open) == OpenCells(l0.open) - {current};
    assert current in OpenCells(l0.open);
  }

  /** Follows the parent links from the goal, marking each cell. */
  method Trace(grid: array<bv8>, parent: array<int>, ghost l: Labels) returns (ghost path: seq<Cell>)
    requires grid.Length == TOTAL && l.Shaped() && l.Sound(grid[..]) && parent[..] == l.parent
    requires grid as object != parent
    requires l.g[GOAL] < INFINITE
    modifies grid
    ensures IsPath(old(grid[..]), path, START, GOAL) && Simple(path) && |path| - 1 <= l.g[GOAL]
    ensures grid[..] == Marked(old(grid[..]), path)
  {
    hide Open;
    ghost var cells := grid[..];
    var trace: int := GOAL;
    path := [];
    while trace != -1
      invariant -1 <= trace < TOTAL
      invariant trace != -1 ==> Chain(cells, l, [trace] + path)
      invariant trace == -1 ==> Chain(cells, l, path) && path[0] == START
      invariant grid[..] == Marked(cells, path) && parent[..] == l.parent
      decreases if trace == -1 then -1 else l.g[trace]
    {
      ghost var q: seq<Cell> := [trace] + path;
      assert q[0] == trace && parent[trace] == l.parent[trace];
      if trace != START {
        ChainExtends(cells, l, q);
      }
      MarkOne(cells, trace, path);
      grid[trace] := grid[trace] | PATH_MARKER;
      path := q;
      trace := parent[trace];
    }
  }

  /** The goal has been selected: the traced path is a shortest one, of the length of the label. */
  method FinishAtGoal(grid: array<bv8>, parent: array<int>, ghost l: Labels) returns (ghost path: seq<Cell>)
    requires grid.Length == TOTAL && Running(grid[..], l) && parent[..] == l.parent
    requires grid as object != parent
    requires l.open[GOAL] && forall u: Cell :: l.open[u] ==> l.f[GOAL] <= l.f[u]
    modifies grid
    ensures IsPath(old(grid[..]), path, START, GOAL) && Simple(path) && |path| - 1 == l.g[GOAL]
    ensures forall p: seq<Cell> :: IsPath(old(grid[..]), p, START, GOAL) ==> |path| <= |p|
    ensures grid[..] == Marked(old(grid[..]), path)
  {
    ghost var cells := grid[..];
    path := Trace(grid, parent, l);
    forall p: seq<Cell> | IsPath(cells, p, START, GOAL) ensures l.g[GOAL] <= |p| - 1 {
      GoalIsOptimal(cells, l, p);
    }
  }

  /** The solver. It ends on every wall grid, reports a path exactly when the goal can be reached,
      and then marks the cells of a shortest one; `cost` is the final `g_score` of the goal. */
  method SolveAstar(grid: array<bv8>) returns (found: bool, cost: int, ghost path: seq<Cell>)
    requires grid.Length == TOTAL
    modifies grid
    ensures found <==> Reachable(old(grid[..]), START, GOAL)
    ensures found ==> IsPath(old(grid[..]), path, START, GOAL) && Simple(path) && cost == |path| - 1
    ensures found ==> forall p: seq<Cell> :: IsPath(old(grid[..]), p, START, GOAL) ==> cost <= |p| - 1
    ensures grid[..] == if found then Marked(old(grid[..]), path) else old(grid[..])
  {
    hide Labels.Sound;
    hide IsPath;
    ghost var cells := grid[..];
    path := [];
    var g := new int[TOTAL](_ => INFINITE);
    var f := new int[TOTAL](_ => INFINITE);
    var parent := new int[TOTAL](_ => -1);
    var open := new bool[TOTAL](_ => false);
    g[START] := 0;
    f[START] := Heuristic(START);
    open[START] := true;
    Initial(cells, View(g, f, parent, open));
    while true
      invariant grid[..] == cells
      invariant Running(cells, View(g, f, parent, open))
      decreases Sum(g[..]), OpenCells(open[..])
    {
      ghost var l := View(g, f, parent, open);
      var current := SelectLowest(f, open);
      forall u: Cell | l.open[u] ensures f[u] < INFINITE {
        OpenIsFinite(cells, l, u);
      }
      if current == -1 {
        ExhaustedIsUnreachable(cells, l);
        return false, INFINITE, path;
      }
      if current == GOAL {
        cost := g[GOAL];
        path := FinishAtGoal(grid, parent, l);
        return true, cost, path;
      }
      Expand(grid, current, g, f, parent, open);
      SumBounded(cells, View(g, f, parent, open));
    }
  }
}
