/** The carving loop of `maze.c`: whatever the random choices, the walls it leaves form a spanning
    tree of the grid. */
module MazeGenerator {
  import opened MazeGrid
  import MazeSolver

  const ALL_WALLS: bv8 := 0x1E

  predicate Visited(b: bv8) { b & VISITED != 0 }

  lemma {:induction false} FreshCell(d: Dir)
    ensures !Clear(ALL_WALLS, d) && !Visited(ALL_WALLS)
  {
  }

  /** Remove a wall; mark as visited. */
  function Knock(b: bv8, d: Dir): (r: bv8) { b & !Wall(d) }

  function Visit(b: bv8): (r: bv8) { b | VISITED }

  lemma {:induction false} CarvedByte(b: bv8, d: Dir, e: Dir)
    ensures Clear(Knock(b, d), e) <==> e == d || Clear(b, e)
    ensures Visited(Knock(b, d)) == Visited(b)
  {
  }

  lemma {:induction false} VisitedByte(b: bv8, e: Dir)
    ensures Clear(Visit(b), e) == Clear(b, e) && Visited(Visit(b))
  {
  }

  // ----- Spanning trees -----

  ghost function Passages(grid: seq<bv8>): (s: set<(int, int)>)
    requires |grid| == TOTAL
  {
    set u, v | 0 <= u < TOTAL && 0 <= v < TOTAL && u < v && Open(grid, u, v) :: (u, v)
  }

  ghost predicate Symmetric(grid: seq<bv8>)
    requires |grid| == TOTAL
  {
    forall c: Cell, d: Dir :: Inside(c, d) ==> Clear(grid[c], d) == Clear(grid[Step(c, d)], Opposite(d))
  }

  ghost predicate Bordered(grid: seq<bv8>)
    requires |grid| == TOTAL
  {
    forall c: Cell, d: Dir :: !Inside(c, d) ==> !Clear(grid[c], d)
  }

  /** Exactly one way without repetition from the start to `c`. */
  ghost predicate UniquePath(grid: seq<bv8>, c: Cell)
    requires |grid| == TOTAL
  {
    exists p: seq<Cell> :: IsPath(grid, p, START, c) && Simple(p) &&
      forall q: seq<Cell> :: IsPath(grid, q, START, c) && Simple(q) ==> q == p
  }

  ghost predicate SpanningTree(grid: seq<bv8>)
    requires |grid| == TOTAL
  {
    Symmetric(grid) && Bordered(grid) && |Passages(grid)| == TOTAL - 1 && forall c: Cell :: UniquePath(grid, c)
  }

  // ----- The invariant of the carving loop -----

  /** How the visited cells were reached: `up[c]` is the cell from which `c` was carved, `rank[c]`
      the number of cells visited before it. */
  datatype Forest = Forest(up: seq<int>, rank: seq<int>) {
    predicate Shaped() { |up| == |rank| == TOTAL }
  }

  ghost predicate VisitedLinks(grid: seq<bv8>, t: Forest)
    requires |grid| == TOTAL && t.Shaped()
  {
    && Visited(grid[START]) && t.up[START] == -1
    && (forall c: Cell {:trigger t.up[c]} :: c != START && Visited(grid[c]) ==>
          0 <= t.up[c] < TOTAL && Visited(grid[t.up[c]]) && t.rank[t.up[c]] < t.rank[c]
          && exists d: Dir :: Inside(t.up[c], d) && Step(t.up[c], d) == c)
    && (forall c: Cell {:trigger t.up[c]} :: !Visited(grid[c]) ==> t.up[c] == -1)
  }

  /** Walls are missing exactly between a cell and the one it was carved from. */
  ghost predicate WallsMatch(grid: seq<bv8>, t: Forest)
    requires |grid| == TOTAL && t.Shaped()
  {
    && Bordered(grid)
    && (forall c: Cell, d: Dir {:trigger Inside(c, d)} :: Inside(c, d) ==>
          (Clear(grid[c], d) <==> t.up[c] == Step(c, d) || t.up[Step(c, d)] == c))
  }

  ghost predicate Carving(grid: seq<bv8>, t: Forest, n: nat)
    requires |grid| == TOTAL
  {
    && t.Shaped() && VisitedLinks(grid, t) && WallsMatch(grid, t)
    && (forall c: Cell :: Visited(grid[c]) ==> 0 <= t.rank[c] < n)
  }

  ghost function VisitedCells(grid: seq<bv8>): (s: set<int>) {
    set c | 0 <= c < |grid| && Visited(grid[c])
  }

  // ----- One carving step -----

  ghost function Carve(grid: seq<bv8>, u: Cell, d: Dir): (r: seq<bv8>)
    requires |grid| == TOTAL && Inside(u, d)
    ensures |r| == TOTAL
  {
    var v := Step(u, d);
    grid[u := Knock(grid[u], d)][v := Visit(Knock(grid[v], Opposite(d)))]
  }

  lemma {:induction false} CarveClears(grid: seq<bv8>, u: Cell, d: Dir, c: Cell, e: Dir)
    requires |grid| == TOTAL && Inside(u, d)
    ensures Clear(Carve(grid, u, d)[c], e) <==>
              Clear(grid[c], e) || (c == u && e == d) || (c == Step(u, d) && e == Opposite(d))
  {
    hide Knock;
    hide Visit;
    hide Opposite;
    var v := Step(u, d);
    if c == v {
      CarvedByte(grid[v], Opposite(d), e);
      VisitedByte(Knock(grid[v], Opposite(d)), e);
    } else if c == u {
      CarvedByte(grid[u], d, e);
    }
  }

  lemma {:induction false} CarveVisits(grid: seq<bv8>, u: Cell, d: Dir, c: Cell)
    requires |grid| == TOTAL && Inside(u, d)
    ensures Visited(Carve(grid, u, d)[c]) <==> Visited(grid[c]) || c == Step(u, d)
  {
    var v := Step(u, d);
    if c == v {
      VisitedByte(Knock(grid[v], Opposite(d)), d);
    } else if c == u {
      CarvedByte(grid[u], d, d);
    }
  }

  ghost function Extend(t: Forest, u: Cell, v: Cell, n: nat): (r: Forest)
    requires t.Shaped()
  {
    Forest(t.up[v := u], t.rank[v := n])
  }

  lemma {:induction false} CarveKeepsLinks(grid: seq<bv8>, t: Forest, n: nat, u: Cell, d: Dir)
    requires |grid| == TOTAL && Carving(grid, t, n) && Inside(u, d)
    requires Visited(grid[u]) && !Visited(grid[Step(u, d)])
    ensures VisitedLinks(Carve(grid, u, d), Extend(t, u, Step(u, d), n))
  {
    var v := Step(u, d);
    var r := Carve(grid, u, d);
    forall c: Cell ensures Visited(r[c]) <==> Visited(grid[c]) || c == v {
      CarveVisits(grid, u, d, c);
    }
  }

  lemma {:induction false} CarveKeepsWalls(grid: seq<bv8>, t: Forest, n: nat, u: Cell, d: Dir)
    requires |grid| == TOTAL && Carving(grid, t, n) && Inside(u, d)
    requires Visited(grid[u]) && !Visited(grid[Step(u, d)])
    ensures WallsMatch(Carve(grid, u, d), Extend(t, u, Step(u, d), n))
  {
    var v := Step(u, d);
    var r := Carve(grid, u, d);
    var s := Extend(t, u, v, n);
    StepBack(u, d);
    forall c: Cell, e: Dir | !Inside(c, e) ensures !Clear(r[c], e) {
      CarveClears(grid, u, d, c, e);
    }
    forall c: Cell, e: Dir | Inside(c, e)
      ensures Clear(r[c], e) <==> s.up[c] == Step(c, e) || s.up[Step(c, e)] == c
    {
      CarveClears(grid, u, d, c, e);
      CarveEdge(grid, t, n, u, d, c, e);
    }
  }

  /** The links after the step, edge by edge. */
  lemma {:induction false} CarveEdge(grid: seq<bv8>, t: Forest, n: nat, u: Cell, d: Dir, c: Cell, e: Dir)
    requires |grid| == TOTAL && Carving(grid, t, n) && Inside(u, d) && Inside(c, e)
    requires Visited(grid[u]) && !Visited(grid[Step(u, d)])
    ensures var s := Extend(t, u, Step(u, d), n);
            s.up[c] == Step(c, e) || s.up[Step(c, e)] == c <==>
            Clear(grid[c], e) || (c == u && e == d) || (c == Step(u, d) && e == Opposite(d))
  {
    var v := Step(u, d);
    var w := Step(c, e);
    StepBack(u, d);
    StepBack(c, e);
    if c == u && w == v {
      StepIsInjective(u, d, e);
    } else if c == v && w == u {
      StepIsInjective(v, Opposite(d), e);
    } else {
      assert t.up[v] == -1;
      assert t.up[c] != v && t.up[w] != v;
    }
  }

  lemma {:induction false} CarveKeeps(grid: seq<bv8>, t: Forest, n: nat, u: Cell, d: Dir)
    requires |grid| == TOTAL && Carving(grid, t, n) && Inside(u, d)
    requires Visited(grid[u]) && !Visited(grid[Step(u, d)])
    ensures Carving(Carve(grid, u, d), Extend(t, u, Step(u, d), n), n + 1)
    ensures VisitedCells(Carve(grid, u, d)) == VisitedCells(grid) + {Step(u, d)}
    ensures |VisitedCells(Carve(grid, u, d))| == |VisitedCells(grid)| + 1
  {
    hide WallsMatch;
    hide VisitedLinks;
    CarveKeepsLinks(grid, t, n, u, d);
    CarveKeepsWalls(grid, t, n, u, d);
    var r := Carve(grid, u, d);
    forall c: Cell ensures Visited(r[c]) <==> Visited(grid[c]) || c == Step(u, d) {
      CarveVisits(grid, u, d, c);
    }
  }

  /** The passage to a newly visited cell is a new one. */
  lemma {:induction false} CarveAddsPassage(grid: seq<bv8>, t: Forest, n: nat, u: Cell, d: Dir)
    requires |grid| == TOTAL && Carving(grid, t, n) && Inside(u, d)
    requires Visited(grid[u]) && !Visited(grid[Step(u, d)])
    ensures |Passages(Carve(grid, u, d))| == |Passages(grid)| + 1
  {
    hide Clear;
    hide Carve;
    hide Carving;
    hide Open;
    hide Passages;
    hide Visited;
    var v := Step(u, d);
    var r := Carve(grid, u, d);
    forall a: Cell, b: Cell ensures Open(r, a, b) <==> Open(grid, a, b) || (a, b) == (u, v) || (a, b) == (v, u) {
      CarveOpens(grid, u, d, a, b);
    }
    UnvisitedIsIsolated(grid, t, n, u, v);
    OneMorePassage(grid, r, u, v);
  }

  lemma {:induction false} OneMorePassage(grid: seq<bv8>, r: seq<bv8>, u: Cell, v: Cell)
    requires |grid| == TOTAL && |r| == TOTAL && u != v && !Open(grid, u, v) && !Open(grid, v, u)
    requires forall a: Cell, b: Cell :: Open(r, a, b) <==> Open(grid, a, b) || (a, b) == (u, v) || (a, b) == (v, u)
    ensures |Passages(r)| == |Passages(grid)| + 1
  {
    hide Open;
    var added := if u < v then (u, v) else (v, u);
    assert Passages(r) == Passages(grid) + {added};
    assert added !in Passages(grid);
  }

  lemma {:induction false} CarveOpens(grid: seq<bv8>, u: Cell, d: Dir, a: Cell, b: Cell)
    requires |grid| == TOTAL && Inside(u, d)
    ensures Open(Carve(grid, u, d), a, b) <==>
              Open(grid, a, b) || (a, b) == (u, Step(u, d)) || (a, b) == (Step(u, d), u)
  {
    StepBack(u, d);
    var r := Carve(grid, u, d);
    if Open(r, a, b) {
      var e: Dir :| Passable(r, a, e) && Step(a, e) == b;
      CarveClears(grid, u, d, a, e);
      assert Clear(grid[a], e) ==> Passable(grid, a, e);
    }
    if Open(grid, a, b) {
      var e: Dir :| Passable(grid, a, e) && Step(a, e) == b;
      CarveClears(grid, u, d, a, e);
      assert Passable(r, a, e);
    }
    CarveClears(grid, u, d, u, d);
    CarveClears(grid, u, d, Step(u, d), Opposite(d));
    assert Passable(r, u, d) && Passable(r, Step(u, d), Opposite(d));
  }

  lemma {:induction false} UnvisitedIsIsolated(grid: seq<bv8>, t: Forest, n: nat, u: Cell, v: Cell)
    requires |grid| == TOTAL && Carving(grid, t, n) && !Visited(grid[v])
    ensures !Open(grid, u, v) && !Open(grid, v, u)
  {
    assert t.up[v] == -1 && t.up[u] != v;
  }

  // ----- From the invariant to the spanning tree -----

  /** The cells from the start to `c` along the carving order. */
  ghost function Branch(grid: seq<bv8>, t: Forest, n: nat, c: Cell): (p: seq<Cell>)
    requires |grid| == TOTAL && Carving(grid, t, n) && Visited(grid[c])
    ensures |p| > 0 && p[|p| - 1] == c && p[0] == START
    ensures forall k :: 0 <= k < |p| ==> t.rank[p[k]] <= t.rank[c]
    decreases t.rank[c]
  {
    if c == START then [START] else Branch(grid, t, n, t.up[c]) + [c]
  }

  lemma {:induction false} BranchIsPath(grid: seq<bv8>, t: Forest, n: nat, c: Cell)
    requires |grid| == TOTAL && Carving(grid, t, n) && Visited(grid[c])
    ensures IsPath(grid, Branch(grid, t, n, c), START, c) && Simple(Branch(grid, t, n, c))
    decreases t.rank[c]
  {
    if c != START {
      var u: Cell := t.up[c];
      var p := Branch(grid, t, n, u);
      BranchIsPath(grid, t, n, u);
      UpIsOpen(grid, t, n, c);
      LinkedSnoc(grid, p, c);
    }
  }

  lemma {:induction false} UpIsOpen(grid: seq<bv8>, t: Forest, n: nat, c: Cell)
    requires |grid| == TOTAL && Carving(grid, t, n) && Visited(grid[c]) && c != START
    ensures Open(grid, t.up[c], c)
  {
    var d: Dir :| Inside(t.up[c], d) && Step(t.up[c], d) == c;
    assert Passable(grid, t.up[c], d);
  }

  lemma {:induction false} LinkedSnoc(grid: seq<bv8>, p: seq<Cell>, c: Cell)
    requires |grid| == TOTAL && |p| > 0 && Linked(grid, p) && Open(grid, p[|p| - 1], c)
    ensures Linked(grid, p + [c])
  {
    var r := p + [c];
    forall k | 0 <= k < |r| - 1 ensures Open(grid, r[k], r[k + 1]) {
      if k < |p| - 1 {
        assert Open(grid, p[k], p[k + 1]);
      }
    }
  }

  /** Every passage joins a cell to the one it was carved from. */
  lemma {:induction false} OpenIsUp(grid: seq<bv8>, t: Forest, n: nat, a: Cell, b: Cell)
    requires |grid| == TOTAL && Carving(grid, t, n) && Open(grid, a, b)
    ensures t.up[a] == b || t.up[b] == a
  {
    var d: Dir :| Passable(grid, a, d) && Step(a, d) == b;
  }

  /** A path without repetition from the start never climbs. */
  lemma {:induction false} SimplePathDescends(grid: seq<bv8>, t: Forest, n: nat, p: seq<Cell>, k: nat)
    requires |grid| == TOTAL && Carving(grid, t, n)
    requires |p| > 0 && p[0] == START && Linked(grid, p) && Simple(p) && k < |p| - 1
    ensures t.up[p[k + 1]] == p[k]
  {
    assert Open(grid, p[k], p[k + 1]);
    OpenIsUp(grid, t, n, p[k], p[k + 1]);
    if k > 0 {
      SimplePathDescends(grid, t, n, p, k - 1);
    }
  }

  lemma {:induction false} PathPrefix(grid: seq<bv8>, p: seq<Cell>)
    requires |grid| == TOTAL && |p| > 1 && Linked(grid, p) && Simple(p)
    ensures IsPath(grid, p[..|p| - 1], p[0], p[|p| - 2]) && Simple(p[..|p| - 1])
  {
    var q := p[..|p| - 1];
    forall k | 0 <= k < |q| - 1 ensures Open(grid, q[k], q[k + 1]) {
      assert Open(grid, p[k], p[k + 1]);
    }
  }

  lemma {:induction false} SimplePathIsBranch(grid: seq<bv8>, t: Forest, n: nat, p: seq<Cell>, c: Cell)
    requires |grid| == TOTAL && Carving(grid, t, n) && Visited(grid[c])
    requires IsPath(grid, p, START, c) && Simple(p)
    ensures p == Branch(grid, t, n, c)
    decreases |p|
  {
    hide WallsMatch;
    if |p| > 1 {
      SimplePathDescends(grid, t, n, p, |p| - 2);
      PathPrefix(grid, p);
      SimplePathIsBranch(grid, t, n, p[..|p| - 1], t.up[c]);
      assert p == p[..|p| - 1] + [c];
    }
  }

  lemma {:induction false} CarvedIsSpanning(grid: seq<bv8>, t: Forest, n: nat)
    requires |grid| == TOTAL && Carving(grid, t, n) && |Passages(grid)| == TOTAL - 1
    requires forall c: Cell :: Visited(grid[c])
    ensures SpanningTree(grid)
  {
    forall c: Cell, d: Dir | Inside(c, d)
      ensures Clear(grid[c], d) == Clear(grid[Step(c, d)], Opposite(d))
    {
      StepBack(c, d);
    }
    forall c: Cell ensures UniquePath(grid, c) {
      BranchIsPath(grid, t, n, c);
      forall q: seq<Cell> | IsPath(grid, q, START, c) && Simple(q) ensures q == Branch(grid, t, n, c) {
        SimplePathIsBranch(grid, t, n, q, c);
      }
    }
  }

  // ----- All cells are visited -----

  ghost predicate Saturated(grid: seq<bv8>, c: Cell)
    requires |grid| == TOTAL
  {
    forall d: Dir :: Inside(c, d) ==> Visited(grid[Step(c, d)])
  }

  lemma {:induction false} FloodReaches(grid: seq<bv8>, c: Cell)
    requires |grid| == TOTAL && Visited(grid[START])
    requires forall u: Cell :: Visited(grid[u]) ==> Saturated(grid, u)
    ensures Visited(grid[c])
    decreases c
  {
    if c != START {
      var d: Dir := if Col(c) > 0 then 2 else 1;
      var u: Cell := if Col(c) > 0 then c - 1 else c - COLS;
      FloodReaches(grid, u);
      assert Inside(u, d) && Step(u, d) == c;
    }
  }

  // ----- The carving loop -----

  datatype Point = Point(r: int, c: int)

  predicate OnGrid(p: Point) { 0 <= p.r < ROWS && 0 <= p.c < COLS }

  function At(p: Point): (i: Cell)
    requires OnGrid(p)
    ensures Row(i) == p.r && Col(i) == p.c
  {
    Idx(p.r, p.c)
  }

  /** The stack holds visited cells, and every visited cell outside it has only visited neighbours. */
  ghost predicate StackCovers(grid: seq<bv8>, stack: seq<Point>)
    requires |grid| == TOTAL
  {
    && (forall k :: 0 <= k < |stack| ==> OnGrid(stack[k]) && Visited(grid[At(stack[k])]))
    && (forall c: Cell :: Visited(grid[c]) && !Saturated(grid, c) ==> exists k :: 0 <= k < |stack| && At(stack[k]) == c)
  }

  /** The four bound tests and indices are those of the four directions. */
  lemma {:induction false} NeighbourIs(p: Point)
    requires OnGrid(p)
    ensures Inside(At(p), 0) <==> p.r > 0
    ensures Inside(At(p), 1) <==> p.r < ROWS - 1
    ensures Inside(At(p), 2) <==> p.c < COLS - 1
    ensures Inside(At(p), 3) <==> p.c > 0
    ensures forall d: Dir :: Inside(At(p), d) ==> 0 <= Idx(p.r + RowStep(d), p.c + ColStep(d)) < TOTAL
    ensures forall d: Dir :: Inside(At(p), d) ==> Step(At(p), d) == Idx(p.r + RowStep(d), p.c + ColStep(d))
  {
  }

  /** The directions of the unvisited neighbours of `p`, in the order of the source's four tests. */
  method UnvisitedNeighbours(grid: array<bv8>, p: Point) returns (dirs: seq<Dir>)
    requires grid.Length == TOTAL && OnGrid(p)
    ensures forall d: Dir :: d in dirs <==> Inside(At(p), d) && !Visited(grid[Step(At(p), d)])
    ensures |dirs| <= 4
  {
    hide Row;
    hide Col;
    hide Inside;
    hide Step;
    hide At;
    hide Idx;
    hide Visited;
    NeighbourIs(p);
    var north := p.r > 0 && !Visited(grid[Idx(p.r - 1, p.c)]);
    var south := p.r < ROWS - 1 && !Visited(grid[Idx(p.r + 1, p.c)]);
    var east := p.c < COLS - 1 && !Visited(grid[Idx(p.r, p.c + 1)]);
    var west := p.c > 0 && !Visited(grid[Idx(p.r, p.c - 1)]);
    PickHas(north, south, east, west);
    dirs := [];
    if north { dirs := dirs + [0]; }
    if south { dirs := dirs + [1]; }
    if east { dirs := dirs + [2]; }
    if west { dirs := dirs + [3]; }
    assert dirs == Pick(north, south, east, west);
    hide Pick;
  }

  ghost function Pick(north: bool, south: bool, east: bool, west: bool): (dirs: seq<Dir>) {
    (if north then [0] else []) + (if south then [1] else []) + (if east then [2] else []) + (if west then [3] else [])
  }

  lemma {:induction false} PickHas(north: bool, south: bool, east: bool, west: bool)
    ensures forall d: Dir :: d in Pick(north, south, east, west) <==>
      if d == 0 then north else if d == 1 then south else if d == 2 then east else west
    ensures |Pick(north, south, east, west)| <= 4
  {
  }

  /** Removes the wall on both sides and marks the neighbour visited. */
  method CarveTowards(grid: array<bv8>, p: Point, d: Dir) returns (next: Point)
    requires grid.Length == TOTAL && OnGrid(p) && Inside(At(p), d)
    modifies grid
    ensures OnGrid(next) && At(next) == Step(At(p), d)
    ensures grid[..] == Carve(old(grid[..]), At(p), d)
  {
    grid[Idx(p.r, p.c)] := grid[Idx(p.r, p.c)] & !Wall(d);
    next := Point(p.r + RowStep(d), p.c + ColStep(d));
    grid[Idx(next.r, next.c)] := grid[Idx(next.r, next.c)] & !Wall(Opposite(d));
    grid[Idx(next.r, next.c)] := grid[Idx(next.r, next.c)] | VISITED;
  }

  /** Everything the carving loop keeps: the tree so far, the stack, and the three counts. */
  ghost predicate LoopInvariant(grid: seq<bv8>, t: Forest, stack: seq<Point>, count: nat)
    requires |grid| == TOTAL
  {
    && Carving(grid, t, count) && StackCovers(grid, stack)
    && |stack| <= count == |VisitedCells(grid)|
    && |Passages(grid)| == count - 1
  }

  lemma {:induction false} InitialInvariant(grid: seq<bv8>)
    requires |grid| == TOTAL && grid == seq(TOTAL, _ => ALL_WALLS)[START := ALL_WALLS | VISITED]
    ensures LoopInvariant(grid, Forest(seq(TOTAL, _ => -1), seq(TOTAL, _ => 0)), [Point(0, 0)], 1)
  {
    forall c: Cell, d: Dir ensures !Clear(grid[c], d) && (Visited(grid[c]) <==> c == START) {
      FreshCell(d);
      VisitedByte(ALL_WALLS, d);
    }
    assert VisitedCells(grid) == {START};
    assert Passages(grid) == {};
    assert At([Point(0, 0)][0]) == START;
  }

  lemma {:induction false} PushKeeps(grid: seq<bv8>, t: Forest, stack: seq<Point>, count: nat, u: Cell, d: Dir, next: Point)
    requires |grid| == TOTAL && LoopInvariant(grid, t, stack, count) && Inside(u, d)
    requires Visited(grid[u]) && !Visited(grid[Step(u, d)])
    requires OnGrid(next) && At(next) == Step(u, d)
    ensures LoopInvariant(Carve(grid, u, d), Extend(t, u, Step(u, d), count), stack + [next], count + 1)
  {
    hide Carving;
    hide Carve;
    CarveKeeps(grid, t, count, u, d);
    CarveAddsPassage(grid, t, count, u, d);
    var r := Carve(grid, u, d);
    var longer := stack + [next];
    forall c: Cell ensures Visited(r[c]) <==> Visited(grid[c]) || c == Step(u, d) {
      CarveVisits(grid, u, d, c);
    }
    forall k | 0 <= k < |longer| ensures OnGrid(longer[k]) && Visited(r[At(longer[k])]) {
      if k < |stack| {
        assert Visited(grid[At(stack[k])]);
      }
    }
    forall c: Cell | Visited(r[c]) && !Saturated(r, c) ensures exists k :: 0 <= k < |longer| && At(longer[k]) == c {
      if c == Step(u, d) {
        assert At(longer[|stack|]) == c;
      } else {
        assert !Saturated(grid, c);
        var k :| 0 <= k < |stack| && At(stack[k]) == c;
        assert At(longer[k]) == c;
      }
    }
  }

  lemma {:induction false} PopKeeps(grid: seq<bv8>, t: Forest, stack: seq<Point>, count: nat)
    requires |grid| == TOTAL && LoopInvariant(grid, t, stack, count) && |stack| > 0
    requires Saturated(grid, At(stack[|stack| - 1]))
    ensures LoopInvariant(grid, t, stack[..|stack| - 1], count)
  {
    hide Carving;
    var shorter := stack[..|stack| - 1];
    forall c: Cell | Visited(grid[c]) && !Saturated(grid, c) ensures exists k :: 0 <= k < |shorter| && At(shorter[k]) == c {
      var k :| 0 <= k < |stack| && At(stack[k]) == c;
      assert At(shorter[k]) == c;
    }
  }

  /** When the loop stops, all cells are visited, so the passages form a spanning tree. */
  lemma {:induction false} DoneIsSpanning(grid: seq<bv8>, t: Forest, stack: seq<Point>, count: nat)
    requires |grid| == TOTAL && LoopInvariant(grid, t, stack, count)
    requires count >= TOTAL || |stack| == 0
    ensures SpanningTree(grid) && count == TOTAL && forall c: Cell :: Visited(grid[c])
  {
    var all := VisitedCells(grid);
    CellSetSize(all);
    forall c: Cell ensures Visited(grid[c]) && c in all {
      if |stack| == 0 {
        FloodReaches(grid, c);
      } else {
        assert c in all;
      }
    }
    CarvedIsSpanning(grid, t, count);
  }

  method RaiseWalls(grid: array<bv8>)
    requires grid.Length == TOTAL
    modifies grid
    ensures forall k :: 0 <= k < TOTAL ==> grid[k] == ALL_WALLS
  {
    for i := 0 to TOTAL
      invariant forall k :: 0 <= k < i ==> grid[k] == ALL_WALLS
    {
      grid[i] := ALL_WALLS;
    }
  }

  /** `i` is what remains of `x` after `k` subtractions of `n`. */
  predicate Remains(x: nat, n: nat, k: nat, i: nat) { i < n && x == k * n + i }

  /** The draw's low four bits, reduced by subtraction, choose a direction. */
  method Choose(dirs: seq<Dir>, draw: nat) returns (d: Dir)
    requires dirs != []
    ensures d in dirs && exists k: nat, i: nat :: Remains(draw % 16, |dirs|, k, i) && d == dirs[i]
  {
    var r := draw % 16;
    ghost var k := 0;
    while r >= |dirs|
      invariant r >= 0 && draw % 16 == k * |dirs| + r
    {
      r := r - |dirs|;
      k := k + 1;
    }
    assert Remains(draw % 16, |dirs|, k, r);
    d := dirs[r];
  }

  /** The generator, for every stream `rand` of random numbers. */
  method GenerateMaze(grid: array<bv8>, rand: nat -> nat)
    requires grid.Length == TOTAL
    modifies grid
    ensures SpanningTree(grid[..])
    ensures forall c: Cell :: Visited(grid[c])
  {
    hide Visited;
    hide Row;
    hide At;
    hide Bordered;
    hide LoopInvariant;
    hide SpanningTree;
    hide Carve;
    var stack := new Point[TOTAL](_ => Point(0, 0));
    var sp := 0;
    RaiseWalls(grid);
    grid[Idx(0, 0)] := grid[Idx(0, 0)] | VISITED;
    stack[sp] := Point(0, 0);
    sp := sp + 1;
    var visitedCount := 1;
    var draws := 0;
    ghost var t := Forest(seq(TOTAL, _ => -1), seq(TOTAL, _ => 0));
    InitialInvariant(grid[..]);
    assert stack[..sp] == [Point(0, 0)];
    while visitedCount < TOTAL && sp > 0
      invariant 0 <= sp <= TOTAL
      invariant LoopInvariant(grid[..], t, stack[..sp], visitedCount)
      decreases TOTAL - visitedCount, sp
    {
      var current := stack[sp - 1];
      ghost var cells := grid[..];
      ghost var points := stack[..sp];
      TopIsVisited(cells, t, points, visitedCount);
      var dirs := UnvisitedNeighbours(grid, current);
      if |dirs| > 0 {
        var d := Choose(dirs, rand(draws));
        draws := draws + 1;
        var next := CarveTowards(grid, current, d);
        PushKeeps(cells, t, points, visitedCount, At(current), d, next);
        t := Extend(t, At(current), Step(At(current), d), visitedCount);
        stack[sp] := next;
        sp := sp + 1;
        assert stack[..sp] == points + [next];
        visitedCount := visitedCount + 1;
      } else {
        PopKeeps(cells, t, points, visitedCount);
        sp := sp - 1;
        assert stack[..sp] == points[..|points| - 1];
      }
    }
    DoneIsSpanning(grid[..], t, stack[..sp], visitedCount);
  }

  lemma {:induction false} TopIsVisited(grid: seq<bv8>, t: Forest, stack: seq<Point>, count: nat)
    requires |grid| == TOTAL && LoopInvariant(grid, t, stack, count) && |stack| > 0
    ensures OnGrid(stack[|stack| - 1]) && Visited(grid[At(stack[|stack| - 1])])
    ensures t.Shaped() && |stack| <= count
  {
  }

  /** Generator and solver together: the solver always finds the goal, and the path it marks is the
      only path of the maze from start to goal that repeats no cell. */
  method GenerateAndSolve(grid: array<bv8>, rand: nat -> nat) returns (maze: seq<bv8>, found: bool, ghost path: seq<Cell>)
    requires grid.Length == TOTAL
    modifies grid
    ensures found && |maze| == TOTAL && SpanningTree(maze)
    ensures IsPath(maze, path, START, GOAL) && Simple(path)
    ensures forall q: seq<Cell> :: IsPath(maze, q, START, GOAL) && Simple(q) ==> q == path
    ensures grid[..] == MazeSolver.Marked(maze, path)
  {
    hide Simple;
    GenerateMaze(grid, rand);
    maze := grid[..];
    var cost;
    assert UniquePath(maze, GOAL);
    found, cost, path := MazeSolver.SolveAstar(grid);
  }
}
