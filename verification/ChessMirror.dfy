/** The game from the other side of the board: turning the board round and changing the colours turns every move and
    negates every value. */
module ChessMirror {
  import opened ChessRules
  import opened ChessSearch

  function Flip(i: Square): (r: Square)
    ensures Row(r) == 7 - Row(i) && Col(r) == Col(i)
  {
    8 * (7 - Row(i)) + Col(i)
  }

  function Mirror(b: Board): (r: Board) { seq(64, i requires 0 <= i < 64 => -b[Flip(i)]) }

  function FlipMove(m: Move): (r: Move) { Move(Flip(m.f), Flip(m.t)) }

  lemma {:induction false} FlipTwice(i: Square)
    ensures Flip(Flip(i)) == i
  {
  }

  lemma {:induction false} MirrorAt(b: Board, i: Square)
    ensures Mirror(b)[Flip(i)] == -b[i]
  {
    FlipTwice(i);
  }

  lemma {:induction false} MirrorTwice(b: Board)
    ensures Mirror(Mirror(b)) == b
  {
    forall i | 0 <= i < 64 ensures Mirror(Mirror(b))[i] == b[i] {
      MirrorAt(b, i);
    }
  }

  lemma {:induction false} MirrorHolds(b: Board, p: Piece)
    ensures p in b ==> -p in Mirror(b)
  {
    if p in b {
      var i :| 0 <= i < 64 && b[i] == p;
      MirrorAt(b, i);
    }
  }

  // ----- Moves -----

  lemma {:induction false} MirrorPawn(b: Board, i: Square, t: Square)
    requires Abs(b[i]) == PAWN
    ensures PawnPush(b, i, t) ==> PawnPush(Mirror(b), Flip(i), Flip(t))
    ensures PawnTake(b, i, t) ==> PawnTake(Mirror(b), Flip(i), Flip(t))
  {
    hide Mirror;
    hide Flip;
    MirrorAt(b, i);
    MirrorAt(b, t);
    if PawnPush(b, i, t) && Row(t) != Row(i) + Forward(b[i]) {
      MirrorAt(b, i + 8 * Forward(b[i]));
      assert Flip(i + 8 * Forward(b[i])) == Flip(i) - 8 * Forward(b[i]) by { FlipAhead(i, Forward(b[i])); }
    }
  }

  lemma {:induction false} FlipAhead(i: Square, dir: int)
    requires 0 <= i + 8 * dir < 64
    ensures Flip(i + 8 * dir) == Flip(i) - 8 * dir
  {
  }

  lemma {:induction false} MirrorLand(b: Board, i: Square, t: Square)
    requires b[i] != EMPTY && CanLand(b, i, t)
    ensures CanLand(Mirror(b), Flip(i), Flip(t))
  {
    MirrorAt(b, i);
    MirrorAt(b, t);
  }

  lemma {:induction false} MirrorLine(b: Board, i: Square, dr: int, dc: int, k: nat)
    requires b[i] != EMPTY && Sees(b, i, dr, dc, 0, k)
    ensures Sees(Mirror(b), Flip(i), -dr, dc, 0, k) && At(Flip(i), -dr, dc, k) == Flip(At(i, dr, dc, k))
  {
    hide Mirror;
    hide CanLand;
    hide Flip;
    hide At;
    hide OnBoard;
    var c, f, back := Mirror(b), Flip(i), -dr;
    forall j | 0 < j <= k
      ensures OnBoard(f, back, dc, j) && At(f, back, dc, j) == Flip(At(i, dr, dc, j)) && c[At(f, back, dc, j)] == -b[At(i, dr, dc, j)]
    {
      assert OnBoard(i, dr, dc, j);
      FlipOnLine(i, dr, dc, j);
      MirrorAt(b, At(i, dr, dc, j));
    }
    MirrorLand(b, i, At(i, dr, dc, k));
  }

  lemma {:induction false} FlipOnLine(i: Square, dr: int, dc: int, j: nat)
    requires OnBoard(i, dr, dc, j)
    ensures OnBoard(Flip(i), -dr, dc, j) && At(Flip(i), -dr, dc, j) == Flip(At(i, dr, dc, j))
  {
    assert j * -dr == -(j * dr);
    var r, c := Row(i) + j * dr, Col(i) + j * dc;
    assert Row(8 * r + c) == r && Col(8 * r + c) == c;
  }

  lemma {:induction false} MirrorMayGo(b: Board, i: Square, t: Square)
    requires b[i] != EMPTY && MayGo(b, i, t)
    ensures MayGo(Mirror(b), Flip(i), Flip(t))
  {
    hide Mirror;
    hide PawnPush;
    hide PawnTake;
    hide CanLand;
    hide Sees;
    hide At;
    hide Flip;
    MirrorAt(b, i);
    if Abs(b[i]) == PAWN {
      MirrorPawn(b, i, t);
    } else {
      if Slider(b[i]) {
        MirrorSees(b, i, t);
      } else {
        FlipTwice(i);
        FlipTwice(t);
        MirrorLand(b, i, t);
      }
    }
  }

  lemma {:induction false} MirrorSees(b: Board, i: Square, t: Square)
    requires Slider(b[i]) && SeesTo(b, i, t)
    ensures SeesTo(Mirror(b), Flip(i), Flip(t))
  {
    hide Mirror;
    hide Flip;
    MirrorAt(b, i);
    var dr, dc, k: nat :| MovesAlong(Abs(b[i]), dr, dc) && Sees(b, i, dr, dc, 0, k) && t == At(i, dr, dc, k);
    MirrorLine(b, i, dr, dc, k);
    assert MovesAlong(Abs(Mirror(b)[Flip(i)]), -dr, dc);
  }

  /** The other side has the same moves, turned round. */
  lemma {:induction false} MirrorMoves(b: Board, side: Side, m: Move)
    ensures m in Moves(b, side) ==> FlipMove(m) in Moves(Mirror(b), Opponent(side))
  {
    hide Moves;
    hide MayGo;
    hide Mirror;
    MovesAre(b, side);
    MovesAre(Mirror(b), Opponent(side));
    if m in Moves(b, side) {
      MirrorAt(b, m.f);
      MirrorMayGo(b, m.f, m.t);
    }
  }

  lemma {:induction false} MirrorApply(b: Board, m: Move)
    ensures Apply(Mirror(b), FlipMove(m)) == Mirror(Apply(b, m))
  {
    hide Mirror;
    hide Flip;
    MirrorAt(b, m.f);
    forall i | 0 <= i < 64
      ensures Apply(Mirror(b), FlipMove(m))[i] == Mirror(Apply(b, m))[i]
    {
      FlipTwice(i);
      FlipTwice(m.f);
      FlipTwice(m.t);
      MirrorAt(b, Flip(i));
      MirrorAt(Apply(b, m), Flip(i));
      LastRows(m.t);
    }
  }

  lemma {:induction false} LastRows(t: Square)
    ensures t >= 56 || t <= 7 <==> Flip(t) >= 56 || Flip(t) <= 7
  {
  }

  // ----- Values -----

  lemma {:induction false} MaterialChanges(b: Board, i: nat, at: Square, p: Piece)
    requires i <= 64
    ensures MaterialFrom(b[at := p], i) == MaterialFrom(b, i) + if i <= at then PieceValue(p) - PieceValue(b[at]) else 0
    decreases 64 - i
  {
    hide PieceValue;
    if i < 64 {
      MaterialChanges(b, i + 1, at, p);
    }
  }

  /** A move changes the material by what it captures, and by a queen for a pawn if it promotes. */
  lemma {:induction false} MoveChangesMaterial(b: Board, side: Side, m: Move)
    requires Sensible(b, side, m)
    ensures var promotes := Abs(b[m.f]) == PAWN && (Row(m.t) == 0 || Row(m.t) == 7);
            Evaluate(Apply(b, m)) == Evaluate(b) - PieceValue(b[m.t]) + if promotes then side * 800 else 0
  {
    hide MaterialFrom;
    hide PieceValue;
    var p := b[m.f];
    var b1 := b[m.t := p];
    var b2 := b1[m.f := EMPTY];
    MaterialChanges(b, 0, m.t, p);
    MaterialChanges(b1, 0, m.f, EMPTY);
    MaterialChanges(b2, 0, m.t, if p > 0 then QUEEN else -QUEEN);
    PieceValues();
  }

  lemma {:induction false} PieceValues()
    ensures PieceValue(EMPTY) == 0
    ensures PieceValue(QUEEN) - PieceValue(PAWN) == 800 && PieceValue(-QUEEN) - PieceValue(-PAWN) == -800
  {
  }

  /** What is captured is worth something to the side that captures. */
  lemma {:induction false} CaptureIsGain(b: Board, side: Side, m: Move)
    requires Sensible(b, side, m) && b[m.t] != EMPTY
    ensures if side == WHITE then PieceValue(b[m.t]) < 0 else PieceValue(b[m.t]) > 0
  {
  }

  lemma {:induction false} MirrorValueOfPiece(p: Piece)
    ensures PieceValue(-p) == -PieceValue(p)
  {
  }

  /** The other colour's material is the negated material; shown square by square for boards that are empty from `n` on. */
  lemma {:induction false} MirrorMaterial(b: Board, n: nat)
    requires n <= 64 && forall j :: n <= j < 64 ==> b[j] == EMPTY
    ensures Evaluate(Mirror(b)) == -Evaluate(b)
    decreases n
  {
    hide PieceValue;
    hide MaterialFrom;
    hide Flip;
    if n == 0 {
      NoMaterial(b, 0);
      NoMaterial(Mirror(b), 0);
    } else {
      var at: Square, p := n - 1, b[n - 1];
      var less: Board := b[at := EMPTY];
      MirrorMaterial(less, n - 1);
      MaterialChanges(less, 0, at, p);
      MaterialChanges(Mirror(less), 0, Flip(at), -p);
      MirrorAt(less, at);
      MirrorValueOfPiece(p);
      MirrorSet(less, at, p);
      assert less[at := p] == b;
      assert PieceValue(EMPTY) == 0 by { MirrorValueOfPiece(EMPTY); }
    }
  }

  lemma {:induction false} MirrorSet(b: Board, at: Square, p: Piece)
    ensures Mirror(b[at := p]) == Mirror(b)[Flip(at) := -p]
  {
    var x, y := Mirror(b[at := p]), Mirror(b)[Flip(at) := -p];
    forall i | 0 <= i < 64
      ensures x[i] == y[i]
    {
      FlipTwice(i);
      FlipTwice(at);
    }
  }

  /** A position without moves loses 10000 for the side to move, one without a king 20000 for its colour, white's first. */
  lemma {:induction false} ValueOfEnd(b: Board, side: Side, depth: nat)
    requires depth > 0
    ensures Moves(b, side) == [] ==> Value(b, side, depth) == if side == WHITE then -10000 else 10000
    ensures Moves(b, side) != [] && KING !in b ==> Value(b, side, depth) == -20000
    ensures Moves(b, side) != [] && KING in b && -KING !in b ==> Value(b, side, depth) == 20000
  {
    hide Moves;
  }

  /** One move takes one king at most. */
  lemma {:induction false} KingsLeft(b: Board, m: Move)
    requires KING in b && -KING in b && m.f != m.t
    ensures KING in Apply(b, m) || -KING in Apply(b, m)
  {
    var x :| 0 <= x < 64 && b[x] == KING;
    var y :| 0 <= y < 64 && b[y] == -KING;
    var r := Apply(b, m);
    if x != m.t {
      assert r[if x == m.f then m.t else x] == KING;
    } else {
      assert r[if y == m.f then m.t else y] == -KING;
    }
  }

  /** The value of the other side's position is the negated value, exactly unless the search goes on without a king. */
  lemma {:induction false} MirrorNegates(b: Board, side: Side, depth: nat)
    ensures Value(Mirror(b), Opponent(side), depth) == -Value(b, side, depth) <==>
              depth == 0 || Moves(b, side) == [] || KING in b || -KING in b
    decreases depth, 0
  {
    hide Moves;
    hide Mirror;
    hide Evaluate;
    hide Apply;
    if depth == 0 {
      MirrorMaterial(b, 64);
    } else {
      MirrorEmpty(b, side);
      MirrorKings(b);
      if Moves(b, side) != [] && KING in b && -KING in b {
        MirrorBest(b, side, depth - 1);
      }
    }
  }

  lemma {:induction false} MirrorKings(b: Board)
    ensures (KING in Mirror(b) <==> -KING in b) && (-KING in Mirror(b) <==> KING in b)
  {
    hide Mirror;
    MirrorTwice(b);
    MirrorHolds(b, KING);
    MirrorHolds(b, -KING);
    MirrorHolds(Mirror(b), KING);
    MirrorHolds(Mirror(b), -KING);
  }

  lemma {:induction false} MirrorEmpty(b: Board, side: Side)
    ensures Moves(Mirror(b), Opponent(side)) == [] <==> Moves(b, side) == []
  {
    hide Moves;
    hide Mirror;
    var ms, ns := Moves(b, side), Moves(Mirror(b), Opponent(side));
    MirrorTwice(b);
    if ms != [] {
      MirrorMoves(b, side, ms[0]);
    }
    if ns != [] {
      MirrorMoves(Mirror(b), Opponent(side), ns[0]);
    }
  }

  lemma {:induction false} MirrorChild(b: Board, side: Side, m: Move, depth: nat)
    requires m in Moves(b, side) && KING in b && -KING in b
    ensures FlipMove(m) in Moves(Mirror(b), Opponent(side))
    ensures ChildValue(Mirror(b), Opponent(side), FlipMove(m), depth) == -ChildValue(b, side, m, depth)
    decreases depth, 1
  {
    hide Moves;
    hide Mirror;
    hide Apply;
    hide Value;
    MirrorMoves(b, side, m);
    MirrorApply(b, m);
    MovesMove(b, side, m);
    KingsLeft(b, m);
    MirrorNegates(Apply(b, m), Opponent(side), depth);
  }

  lemma {:induction false} MovesMove(b: Board, side: Side, m: Move)
    requires m in Moves(b, side)
    ensures m.f != m.t
  {
    MovesAreSensible(b, side, 0);
  }

  lemma {:induction false} MirrorBest(b: Board, side: Side, depth: nat)
    requires Moves(b, side) != [] && Moves(Mirror(b), Opponent(side)) != [] && KING in b && -KING in b
    ensures BestValue(Mirror(b), Opponent(side), Moves(Mirror(b), Opponent(side)), depth) == -BestValue(b, side, Moves(b, side), depth)
    decreases depth, 2
  {
    hide Moves;
    hide Mirror;
    hide Apply;
    hide ChildValue;
    hide BestValue;
    var c, opp := Mirror(b), Opponent(side);
    var ms, ns := Moves(b, side), Moves(c, opp);
    var i := BestIsReached(b, side, ms, depth);
    MirrorChild(b, side, ms[i], depth);
    var i' :| 0 <= i' < |ns| && ns[i'] == FlipMove(ms[i]);
    BestIsBound(c, opp, ns, depth, i');
    var j := BestIsReached(c, opp, ns, depth);
    MirrorTwice(b);
    MirrorMoves(c, opp, ns[j]);
    var j' :| 0 <= j' < |ms| && ms[j'] == FlipMove(ns[j]);
    MirrorChild(b, side, ms[j'], depth);
    FlipTwice(ns[j].f);
    FlipTwice(ns[j].t);
    BestIsBound(b, side, ms, depth, j');
  }
}
