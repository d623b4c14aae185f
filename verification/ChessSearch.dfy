/** Alpha-beta search of `chess.c` on one shared board, against plain minimax. */
module ChessSearch {
  import opened ChessRules

  const INF := 30000
  const MAX_MOVES := 128

  function Opponent(side: Side): (s: Side) { if side == WHITE then BLACK else WHITE }

  // ----- Plain minimax -----

  function Better(side: Side, x: int, y: int): (r: int) {
    if side == WHITE then (if x > y then x else y) else (if x < y then x else y)
  }

  /** The game value of a position, searched `depth` plies deep without pruning. */
  function Value(b: Board, side: Side, depth: nat): (v: int)
    decreases depth, 1, 0
  {
    if depth == 0 then Evaluate(b)
    else
      var ms := Moves(b, side);
      if ms == [] then (if side == WHITE then -10000 else 10000)
      else if KING !in b then -20000
      else if -KING !in b then 20000
      else BestValue(b, side, ms, depth - 1)
  }

  /** The value after `m`, with `depth` plies left. */
  function ChildValue(b: Board, side: Side, m: Move, depth: nat): (v: int)
    decreases depth, 2, 0
  {
    Value(Apply(b, m), Opponent(side), depth)
  }

  function BestValue(b: Board, side: Side, ms: seq<Move>, depth: nat): (v: int)
    requires ms != []
    decreases depth, 3, |ms|
  {
    var v := ChildValue(b, side, ms[0], depth);
    if |ms| == 1 then v else Better(side, v, BestValue(b, side, ms[1..], depth))
  }

  /** `x` is at least as good for `side` as `y`. */
  predicate AtLeast(side: Side, x: int, y: int) { if side == WHITE then x >= y else x <= y }

  lemma {:induction false} BestIsReached(b: Board, side: Side, ms: seq<Move>, depth: nat) returns (j: nat)
    requires ms != []
    ensures j < |ms| && ChildValue(b, side, ms[j], depth) == BestValue(b, side, ms, depth)
    decreases |ms|
  {
    hide ChildValue;
    j := 0;
    if |ms| > 1 {
      var k := BestIsReached(b, side, ms[1..], depth);
      if ChildValue(b, side, ms[0], depth) != BestValue(b, side, ms, depth) {
        j := k + 1;
      }
    }
  }

  lemma {:induction false} BestIsBound(b: Board, side: Side, ms: seq<Move>, depth: nat, j: nat)
    requires j < |ms|
    ensures AtLeast(side, BestValue(b, side, ms, depth), ChildValue(b, side, ms[j], depth))
    decreases |ms|
  {
    hide ChildValue;
    if j > 0 {
      BestIsBound(b, side, ms[1..], depth, j - 1);
    }
  }

  // ----- What a window search may answer -----

  /** Fail-soft contract: exact inside the window, an upper bound at or below it, a lower bound at or
      above it. */
  predicate Answers(r: int, v: int, alpha: int, beta: int) {
    && (r <= alpha ==> v <= r)
    && (alpha < r < beta ==> r == v)
    && (r >= beta ==> r <= v)
  }

  lemma {:induction false} AnswersItself(alpha: int, beta: int)
    requires alpha < beta
    ensures forall v :: Answers(v, v, alpha, beta)
  {
  }

  lemma {:induction false} FullWindowIsExact(r: int, v: int)
    requires Answers(r, v, -INF, INF) && -INF <= v <= INF
    ensures r == v
  {
  }

  function Clamp(v: int): (r: int) { if v < -INF then -INF else if v > INF then INF else v }

  /** A full-window answer is the value, clamped to the window. */
  lemma {:induction false} ClampedIsExact(r: int, v: int)
    requires Answers(r, v, -INF, INF)
    ensures Clamp(r) == Clamp(v)
  {
  }

  /** No move of `side` has a better value than `best`, both clamped. */
  ghost predicate IsBest(b: Board, side: Side, best: Move, depth: nat) {
    forall m :: m in Moves(b, side) ==>
      AtLeast(side, Clamp(ChildValue(b, side, best, depth)), Clamp(ChildValue(b, side, m, depth)))
  }

  /** Every position evaluated at the end of the search lies within the window. */
  ghost predicate LeavesWithin(b: Board, side: Side, depth: nat)
    decreases depth
  {
    if depth == 0 then -INF <= Evaluate(b) <= INF
    else KING in b && -KING in b ==> forall m :: m in Moves(b, side) ==> LeavesWithin(Apply(b, m), Opponent(side), depth - 1)
  }

  /** Then so does the value of the position. */
  lemma {:induction false} ValueWithin(b: Board, side: Side, depth: nat)
    requires LeavesWithin(b, side, depth)
    ensures -INF <= Value(b, side, depth) <= INF
    decreases depth
  {
    hide Evaluate;
    hide Moves;
    hide Apply;
    if depth > 0 {
      var ms := Moves(b, side);
      if ms != [] && KING in b && -KING in b {
        var j := BestIsReached(b, side, ms, depth - 1);
        assert ms[j] in ms;
        ValueWithin(Apply(b, ms[j]), Opponent(side), depth - 1);
      }
    }
  }

  /** When the leaves stay within the window, a best move reaches the minimax value of the position. */
  lemma {:induction false} BestMoveIsOptimal(b: Board, side: Side, best: Move, depth: nat)
    requires best in Moves(b, side) && IsBest(b, side, best, depth)
    requires KING in b && -KING in b
    requires LeavesWithin(b, side, depth + 1)
    ensures ChildValue(b, side, best, depth) == Value(b, side, depth + 1)
  {
    hide Moves;
    forall m | m in Moves(b, side)
      ensures -INF <= ChildValue(b, side, m, depth) <= INF
    {
      ValueWithin(Apply(b, m), Opponent(side), depth);
    }
    var ms := Moves(b, side);
    var j := BestIsReached(b, side, ms, depth);
    var i :| 0 <= i < |ms| && ms[i] == best;
    BestIsBound(b, side, ms, depth, i);
    assert ms[j] in ms;
  }

  lemma {:induction false} SwapKeepsMoves(s: seq<Move>, i: nat, j: nat)
    requires i < |s| && j < |s|
    ensures multiset(s[i := s[j]][j := s[i]]) == multiset(s)
  {
  }

  // ----- Size of the tree -----

  /** Positions visited by plain minimax. */
  function TreeSize(b: Board, side: Side, depth: nat): (n: nat)
    ensures n >= 1
    decreases depth, 1, 0
  {
    if depth == 0 || Moves(b, side) == [] || KING !in b || -KING !in b then 1
    else 1 + ForestSize(b, side, Moves(b, side), depth - 1)
  }

  function ForestSize(b: Board, side: Side, ms: seq<Move>, depth: nat): (n: nat)
    decreases depth, 2, |ms|
  {
    if ms == [] then 0
    else ForestSize(b, side, ms[..|ms| - 1], depth) + TreeSize(Apply(b, ms[|ms| - 1]), Opponent(side), depth)
  }

  lemma {:induction false} ForestGrows(b: Board, side: Side, ms: seq<Move>, i: nat, depth: nat)
    requires i <= |ms|
    ensures ForestSize(b, side, ms[..i], depth) <= ForestSize(b, side, ms, depth)
    decreases |ms|
  {
    if i == |ms| {
      assert ms[..i] == ms;
    } else {
      var shorter := ms[..|ms| - 1];
      assert shorter[..i] == ms[..i];
      ForestGrows(b, side, shorter, i, depth);
    }
  }

  /** Every position of the tree has a move list that fits the search's buffer. */
  ghost predicate Fits(b: Board, side: Side, depth: nat)
    decreases depth
  {
    depth > 0 ==>
      && |Moves(b, side)| <= MAX_MOVES
      && (forall m :: m in Moves(b, side) ==> Fits(Apply(b, m), Opponent(side), depth - 1))
  }

  // ----- The program -----

  class Game {
    const board: array<int>
    var side: int
    var nodes: int

    ghost predicate Valid()
      reads this, board
    {
      && board.Length == 64 && (side == WHITE || side == BLACK)
      && (forall i :: 0 <= i < 64 ==> -KING <= board[i] <= KING)
    }

    ghost function Position(): (b: Board)
      requires Valid()
      reads this, board
    {
      board[..]
    }

    constructor ()
      ensures Valid() && fresh(board) && side == WHITE
    {
      board := new int[64](_ => 0);
      side, nodes := WHITE, 0;
    }

    method EvaluateBoard() returns (score: int)
      requires Valid()
      ensures score == Evaluate(Position())
    {
      score := 0;
      for i := 0 to 64
        invariant score + MaterialFrom(Position(), i) == Evaluate(Position())
      {
        if board[i] != 0 {
          score := score + PieceValue(board[i]);
        }
      }
    }

    /** The king test of the search. */
    method FindKings() returns (white: bool, black: bool)
      requires Valid()
      ensures white <==> KING in Position()
      ensures black <==> -KING in Position()
    {
      white, black := false, false;
      for i := 0 to 64
        invariant white <==> KING in Position()[..i]
        invariant black <==> -KING in Position()[..i]
      {
        assert Position()[..i + 1] == Position()[..i] + [Position()[i]];
        if board[i] == KING {
          white := true;
        }
        if board[i] == -KING {
          black := true;
        }
      }
      assert Position()[..64] == Position();
    }

    method GenPawnPushes(i: Square) returns (list: seq<Move>)
      requires Valid()
      ensures list == PawnPushes(Position(), i)
    {
      list := [];
      var dir := if board[i] > 0 then 1 else -1;
      var fwd := i + dir * 8;
      if 0 <= fwd < 64 && board[fwd] == EMPTY {
        list := list + [Move(i, fwd)];
        var row := i / 8;
        if (dir == 1 && row == 1) || (dir == -1 && row == 6) {
          var fwd2 := i + dir * 16;
          if board[fwd2] == EMPTY {
            list := list + [Move(i, fwd2)];
          }
        }
      }
    }

    method GenPawn(i: Square) returns (list: seq<Move>)
      requires Valid()
      ensures list == PawnPushes(Position(), i) + PawnCapture(Position(), i, -1) + PawnCapture(Position(), i, 1)
    {
      hide PawnPushes;
      list := GenPawnPushes(i);
      var fwd := i + if board[i] > 0 then 8 else -8;
      var caps := [-1, 1];
      ghost var pushes := list;
      for k := 0 to 2
        invariant k == 0 ==> list == pushes
        invariant k == 1 ==> list == pushes + PawnCapture(Position(), i, -1)
        invariant k == 2 ==> list == pushes + PawnCapture(Position(), i, -1) + PawnCapture(Position(), i, 1)
      {
        var cap := fwd + caps[k];
        if 0 <= cap < 64 && Abs(cap % 8 - i % 8) == 1 {
          if board[cap] != EMPTY && Enemy(board[i], board[cap]) {
            list := list + [Move(i, cap)];
          }
        }
      }
    }

    method GenSteps(i: Square, offs: seq<int>) returns (list: seq<Move>)
      requires Valid()
      ensures list == Steps(Position(), i, offs, 0)
    {
      hide Steps;
      list := [];
      for k := 0 to |offs|
        invariant list + Steps(Position(), i, offs, k) == Steps(Position(), i, offs, 0)
      {
        StepsNext(Position(), i, offs, k);
        ghost var rest := Steps(Position(), i, offs, k + 1);
        var dest := i + offs[k];
        if 0 <= dest < 64 && Abs(dest % 8 - i % 8) <= 2 {
          if board[dest] == EMPTY || Enemy(board[i], board[dest]) {
            assert list + ([Move(i, dest)] + rest) == (list + [Move(i, dest)]) + rest;
            list := list + [Move(i, dest)];
          }
        }
      }
      StepsNext(Position(), i, offs, |offs|);
    }

    method GenRay(i: Square, d: int) returns (list: seq<Move>)
      requires Valid() && d != 0
      ensures list == Ray(Position(), i, i, d)
    {
      hide Enemy;
      list := [];
      var curr: Square := i;
      while true
        invariant list + Ray(Position(), i, curr, d) == Ray(Position(), i, i, d)
        decreases if d > 0 then 64 - curr else curr
      {
        RayNext(Position(), i, curr, d);
        var next := curr + d;
        if next < 0 || next >= 64 {
          break;
        }
        if Abs(next % 8 - curr % 8) > 1 {
          break;
        }
        if board[next] == EMPTY {
          list := list + [Move(i, next)];
        } else {
          if Enemy(board[i], board[next]) {
            list := list + [Move(i, next)];
          }
          return;
        }
        curr := next;
      }
    }

    method GenRays(i: Square, dirs: seq<int>) returns (list: seq<Move>)
      requires Valid() && forall j :: 0 <= j < |dirs| ==> dirs[j] != 0
      ensures list == Rays(Position(), i, dirs, 0)
    {
      hide Ray;
      list := [];
      for k := 0 to |dirs|
        invariant list + Rays(Position(), i, dirs, k) == Rays(Position(), i, dirs, 0)
      {
        var ray := GenRay(i, dirs[k]);
        list := list + ray;
      }
    }

    method GenPiece(i: Square) returns (list: seq<Move>)
      requires Valid()
      ensures list == PieceMoves(Position(), i)
    {
      var kind := Abs(board[i]);
      if kind == PAWN {
        list := GenPawn(i);
      } else if kind == KNIGHT {
        list := GenSteps(i, KNIGHT_STEPS);
      } else if kind == KING {
        list := GenSteps(i, KING_STEPS);
      } else {
        list := GenRays(i, SlideDirs(kind));
      }
    }

    /** `gen_moves`. */
    method GenMoves() returns (list: seq<Move>)
      requires Valid()
      ensures list == Moves(Position(), side)
      ensures forall m :: m in list <==> Owned(Position()[m.f], side) && MayGo(Position(), m.f, m.t)
    {
      hide PieceMoves;
      hide MovesFrom;
      hide MayGo;
      MovesAre(Position(), side);
      list := [];
      for i := 0 to 64
        invariant list + MovesFrom(Position(), side, i) == Moves(Position(), side)
      {
        MovesStep(Position(), side, i);
        ghost var rest := MovesFrom(Position(), side, i + 1);
        var p := board[i];
        if p != EMPTY && (p > 0) == (side == WHITE) {
          var more := GenPiece(i);
          assert list + (more + rest) == (list + more) + rest;
          list := list + more;
        } else {
          assert [] + rest == rest;
        }
      }
      MovesStep(Position(), side, 64);
    }

    /** `apply`, in place. */
    method ApplyMove(m: Move)
      requires Valid()
      modifies board
      ensures Valid() && Position() == Apply(old(Position()), m)
    {
      var p := board[m.f];
      board[m.t] := p;
      board[m.f] := EMPTY;
      if Abs(p) == PAWN {
        if m.t >= 56 || m.t <= 7 {
          board[m.t] := if p > 0 then QUEEN else -QUEEN;
        }
      }
      assert Position() == Apply(old(Position()), m);
    }

    /** Make, search with the window, unmake: the loop body shared by both sides. */
    method Try(m: Move, depth: nat, alpha: int, beta: int) returns (val: int)
      requires Valid() && -INF <= alpha < beta <= INF
      requires Fits(Apply(Position(), m), Opponent(side), depth)
      modifies this, board
      ensures Valid() && Position() == old(Position()) && side == old(side)
      ensures Answers(val, ChildValue(Position(), side, m, depth), alpha, beta)
      ensures old(nodes) < nodes <= old(nodes) + TreeSize(Apply(Position(), m), Opponent(side), depth)
      decreases depth, 2
    {
      hide Fits;
      hide Answers;
      hide Apply;
      ghost var b := Position();
      var svT := board[m.t];
      var svF := board[m.f];
      ApplyMove(m);
      side := if side == WHITE then BLACK else WHITE;
      val := Search(depth, alpha, beta);
      side := if side == WHITE then BLACK else WHITE;
      board[m.f] := svF;
      board[m.t] := svT;
      UnapplyRestores(b, m);
      assert Position() == b;
    }

    method Search(depth: nat, alpha0: int, beta0: int) returns (r: int)
      requires Valid() && -INF <= alpha0 < beta0 <= INF
      requires Fits(Position(), side, depth)
      modifies this, board
      ensures Valid() && Position() == old(Position()) && side == old(side)
      ensures Answers(r, Value(Position(), side, depth), alpha0, beta0)
      ensures old(nodes) < nodes <= old(nodes) + TreeSize(Position(), side, depth)
      decreases depth, 1
    {
      hide MovesFrom;
      hide MaterialFrom;
      hide BestValue;
      hide ForestSize;
      hide Answers;
      AnswersItself(alpha0, beta0);
      nodes := nodes + 1;
      if depth == 0 {
        r := EvaluateBoard();
        return;
      }
      var moves := GenMoves();
      assert |moves| <= MAX_MOVES;
      if |moves| == 0 {
        return if side == WHITE then -10000 else 10000;
      }
      var white, black := FindKings();
      if !white {
        return -20000;
      }
      if !black {
        return 20000;
      }
      r := SearchMoves(moves, depth - 1, alpha0, beta0);
    }

    method SearchMoves(moves: seq<Move>, depth: nat, alpha0: int, beta0: int) returns (r: int)
      requires Valid() && -INF <= alpha0 < beta0 <= INF && moves != []
      requires forall m :: m in moves ==> Fits(Apply(Position(), m), Opponent(side), depth)
      modifies this, board
      ensures Valid() && Position() == old(Position()) && side == old(side)
      ensures Answers(r, BestValue(Position(), side, moves, depth), alpha0, beta0)
      ensures old(nodes) <= nodes <= old(nodes) + ForestSize(Position(), side, moves, depth)
      decreases depth, 4
    {
      if side == WHITE {
        r := Maximize(moves, depth, alpha0, beta0);
      } else {
        r := Minimize(moves, depth, alpha0, beta0);
      }
    }

    method Maximize(moves: seq<Move>, depth: nat, alpha0: int, beta: int) returns (max: int)
      requires Valid() && -INF <= alpha0 < beta <= INF && moves != [] && side == WHITE
      requires forall m :: m in moves ==> Fits(Apply(Position(), m), Opponent(side), depth)
      modifies this, board
      ensures Valid() && Position() == old(Position()) && side == old(side)
      ensures Answers(max, BestValue(Position(), side, moves, depth), alpha0, beta)
      ensures old(nodes) <= nodes <= old(nodes) + ForestSize(Position(), side, moves, depth)
      decreases depth, 3
    {
      hide Fits;
      hide BestValue;
      hide Value;
      hide Opponent;
      hide TreeSize;
      hide ChildValue;
      hide Apply;
      ghost var b := Position();
      var alpha := alpha0;
      max := -INF;
      var i := 0;
      while i < |moves|
        invariant i <= |moves| && Valid() && Position() == b && side == WHITE
        invariant max < beta && alpha == (if max > alpha0 then max else alpha0)
        invariant forall j :: 0 <= j < i ==> ChildValue(b, WHITE, moves[j], depth) <= max
        invariant max > alpha0 ==> exists j :: 0 <= j < i && ChildValue(b, WHITE, moves[j], depth) == max
        invariant old(nodes) <= nodes <= old(nodes) + ForestSize(b, WHITE, moves[..i], depth)
      {
        var val := Try(moves[i], depth, alpha, beta);
        assert moves[..i + 1][..i] == moves[..i];
        if val > max {
          max := val;
        }
        if val > alpha {
          alpha := val;
        }
        if beta <= alpha {
          BestIsBound(b, WHITE, moves, depth, i);
          ForestGrows(b, WHITE, moves, i + 1, depth);
          return;
        }
        i := i + 1;
      }
      assert moves[..|moves|] == moves;
      var j := BestIsReached(b, WHITE, moves, depth);
      if max > alpha0 {
        ghost var k :| 0 <= k < |moves| && ChildValue(b, WHITE, moves[k], depth) == max;
        BestIsBound(b, WHITE, moves, depth, k);
      }
    }

    method Minimize(moves: seq<Move>, depth: nat, alpha: int, beta0: int) returns (min: int)
      requires Valid() && -INF <= alpha < beta0 <= INF && moves != [] && side == BLACK
      requires forall m :: m in moves ==> Fits(Apply(Position(), m), Opponent(side), depth)
      modifies this, board
      ensures Valid() && Position() == old(Position()) && side == old(side)
      ensures Answers(min, BestValue(Position(), side, moves, depth), alpha, beta0)
      ensures old(nodes) <= nodes <= old(nodes) + ForestSize(Position(), side, moves, depth)
      decreases depth, 3
    {
      hide Fits;
      hide TreeSize;
      hide ChildValue;
      hide Apply;
      ghost var b := Position();
      var beta := beta0;
      min := INF;
      var i := 0;
      while i < |moves|
        invariant i <= |moves| && Valid() && Position() == b && side == BLACK
        invariant min > alpha && beta == (if min < beta0 then min else beta0)
        invariant forall j :: 0 <= j < i ==> ChildValue(b, BLACK, moves[j], depth) >= min
        invariant min < beta0 ==> exists j :: 0 <= j < i && ChildValue(b, BLACK, moves[j], depth) == min
        invariant old(nodes) <= nodes <= old(nodes) + ForestSize(b, BLACK, moves[..i], depth)
      {
        var val := Try(moves[i], depth, alpha, beta);
        assert moves[..i + 1][..i] == moves[..i];
        if val < min {
          min := val;
        }
        if val < beta {
          beta := val;
        }
        if beta <= alpha {
          BestIsBound(b, BLACK, moves, depth, i);
          ForestGrows(b, BLACK, moves, i + 1, depth);
          return;
        }
        i := i + 1;
      }
      assert moves[..|moves|] == moves;
      var j := BestIsReached(b, BLACK, moves, depth);
      if min < beta0 {
        ghost var k :| 0 <= k < |moves| && ChildValue(b, BLACK, moves[k], depth) == min;
        BestIsBound(b, BLACK, moves, depth, k);
      }
    }

    /** `rand_fast() % num` swaps of the move list; `rand` stands for the generator. */
    method Shuffle(list: seq<Move>, rand: nat -> nat) returns (moves: seq<Move>)
      ensures multiset(moves) == multiset(list)
    {
      moves := list;
      for i := 0 to |list|
        invariant |moves| == |list| && multiset(moves) == multiset(list)
      {
        var r := rand(i) % |list|;
        SwapKeepsMoves(moves, i, r);
        moves := moves[i := moves[r]][r := moves[i]];
      }
    }

    /** `best_move`: whatever the shuffle, the answer is a legal move and none is better, as far as the
        window [-INF, INF] can tell. */
    method BestMove(depth: nat, rand: nat -> nat) returns (best: Move)
      requires Valid() && depth >= 1 && Moves(Position(), side) != []
      requires Fits(Position(), side, depth)
      modifies this, board
      ensures Valid() && Position() == old(Position()) && side == old(side)
      ensures best in Moves(Position(), side)
      ensures IsBest(Position(), side, best, depth - 1)
    {
      hide MayGo;
      hide Owned;
      hide Moves;
      hide Apply;
      hide ChildValue;
      ghost var b := Position();
      ghost var s := side;
      var list := GenMoves();
      assert |list| <= MAX_MOVES;
      best := list[0];
      var bestVal := if side == WHITE then -INF else INF;
      var moves := Shuffle(list, rand);
      assert forall m :: m in list ==> multiset(moves)[m] > 0;
      assert forall m :: m in moves ==> multiset(list)[m] > 0;
      var i := 0;
      while i < |moves|
        invariant i <= |moves| && Valid() && Position() == b && side == s && best in list
        invariant bestVal == (if side == WHITE then -INF else INF) || Clamp(bestVal) == Clamp(ChildValue(b, s, best, depth - 1))
        invariant AtLeast(s, bestVal, if side == WHITE then -INF else INF)
        invariant forall j :: 0 <= j < i ==> AtLeast(s, Clamp(bestVal), Clamp(ChildValue(b, s, moves[j], depth - 1)))
      {
        assert moves[i] in moves;
        var val := Try(moves[i], depth - 1, -INF, INF);
        ClampedIsExact(val, ChildValue(b, s, moves[i], depth - 1));
        if side == WHITE {
          if val > bestVal {
            bestVal := val;
            best := moves[i];
          }
        } else {
          if val < bestVal {
            bestVal := val;
            best := moves[i];
          }
        }
        i := i + 1;
      }
    }
  }
}
