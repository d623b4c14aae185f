/** Board, move generation and evaluation of `chess.c`. */
module ChessRules {
  const EMPTY := 0
  const PAWN := 1
  const KNIGHT := 2
  const BISHOP := 3
  const ROOK := 4
  const QUEEN := 5
  const KING := 6

  const WHITE := 1
  const BLACK := -1

  type Piece = p: int | -KING <= p <= KING
  type Square = s: int | 0 <= s < 64
  type Board = b: seq<Piece> | |b| == 64 witness seq(64, _ => 0)
  type Side = s: int | s == WHITE || s == BLACK witness WHITE

  datatype Move = Move(f: Square, t: Square)

  function Abs(x: int): (r: int) { if x < 0 then -x else x }

  // ----- Evaluation -----

  function PieceValue(p: Piece): (v: int) {
    var vals := [0, 100, 300, 310, 500, 900, 20000];
    if p > 0 then vals[p] else if p < 0 then -vals[-p] else 0
  }

  /** Material from square `i` on. */
  function MaterialFrom(b: Board, i: nat): (v: int)
    requires i <= 64
    decreases 64 - i
  {
    if i == 64 then 0 else PieceValue(b[i]) + MaterialFrom(b, i + 1)
  }

  function Evaluate(b: Board): (v: int) { MaterialFrom(b, 0) }

  lemma {:induction false} NoMaterial(b: Board, i: nat)
    requires i <= 64 && forall j :: i <= j < 64 ==> b[j] == EMPTY
    ensures MaterialFrom(b, i) == 0
    decreases 64 - i
  {
    if i < 64 {
      NoMaterial(b, i + 1);
    }
  }

  /** One side's full set with all pawns promoted, against nothing, is worth more than 30000. */
  lemma {:induction false} MaterialCanBeHuge()
    ensures exists b: Board :: Evaluate(b) == 30320
  {
    var b: Board := [KING, QUEEN, QUEEN, QUEEN, QUEEN, QUEEN, QUEEN, QUEEN, QUEEN, QUEEN, ROOK, ROOK, BISHOP, BISHOP, KNIGHT, KNIGHT]
      + seq(48, _ => EMPTY);
    NoMaterial(b, 16);
    assert MaterialFrom(b, 13) == 910;
    assert MaterialFrom(b, 10) == 2220;
    assert MaterialFrom(b, 7) == 4920;
    assert MaterialFrom(b, 4) == 7620;
    assert MaterialFrom(b, 1) == 10320;
    assert Evaluate(b) == 30320;
  }

  // ----- Moves -----

  function Enemy(p: Piece, q: Piece): (r: bool) { (q > 0) != (p > 0) }

  function PawnPushes(b: Board, i: Square): (ms: seq<Move>) {
    var dir := if b[i] > 0 then 1 else -1;
    var fwd := i + dir * 8;
    if 0 <= fwd < 64 && b[fwd] == EMPTY then
      var fwd2 := i + dir * 16;
      if ((dir == 1 && i / 8 == 1) || (dir == -1 && i / 8 == 6)) && b[fwd2] == EMPTY
      then [Move(i, fwd), Move(i, fwd2)]
      else [Move(i, fwd)]
    else []
  }

  function PawnCapture(b: Board, i: Square, side: int): (ms: seq<Move>) {
    var cap := i + (if b[i] > 0 then 8 else -8) + side;
    if 0 <= cap < 64 && Abs(cap % 8 - i % 8) == 1 && b[cap] != EMPTY && Enemy(b[i], b[cap]) then [Move(i, cap)] else []
  }

  /** Single steps by the offsets from `k` on. */
  function Steps(b: Board, i: Square, offs: seq<int>, k: nat): (ms: seq<Move>)
    requires k <= |offs|
    decreases |offs| - k
  {
    if k == |offs| then []
    else
      var dest := i + offs[k];
      var here := if 0 <= dest < 64 && StepOk(b, i, dest) then [Move(i, dest)] else [];
      here + Steps(b, i, offs, k + 1)
  }

  lemma {:induction false} StepsNext(b: Board, i: Square, offs: seq<int>, k: nat)
    requires k <= |offs|
    ensures k == |offs| ==> Steps(b, i, offs, k) == []
    ensures k < |offs| ==>
      Steps(b, i, offs, k) == (if 0 <= i + offs[k] < 64 && StepOk(b, i, i + offs[k]) then [Move(i, i + offs[k])] else []) + Steps(b, i, offs, k + 1)
  {
  }

  /** The step does not wrap round the board and ends where the piece may land. */
  predicate StepOk(b: Board, i: Square, dest: Square) { Abs(dest % 8 - i % 8) <= 2 && CanLand(b, i, dest) }

  predicate CanLand(b: Board, i: Square, t: Square) { b[t] == EMPTY || Enemy(b[i], b[t]) }

  /** Squares reached from `curr` by repeating the offset `d`, for the piece on `i`. */
  function Ray(b: Board, i: Square, curr: Square, d: int): (ms: seq<Move>)
    requires d != 0
    decreases if d > 0 then 64 - curr else curr
  {
    var next := curr + d;
    if next < 0 || next >= 64 || Abs(next % 8 - curr % 8) > 1 then []
    else if b[next] == EMPTY then [Move(i, next)] + Ray(b, i, next, d)
    else if Enemy(b[i], b[next]) then [Move(i, next)]
    else []
  }

  lemma {:induction false} RayNext(b: Board, i: Square, curr: Square, d: int)
    requires d != 0
    ensures var next := curr + d;
            Ray(b, i, curr, d) ==
              if next < 0 || next >= 64 || Abs(next % 8 - curr % 8) > 1 then []
              else if b[next] == EMPTY then [Move(i, next)] + Ray(b, i, next, d)
              else if Enemy(b[i], b[next]) then [Move(i, next)]
              else []
  {
  }

  function Rays(b: Board, i: Square, dirs: seq<int>, k: nat): (ms: seq<Move>)
    requires k <= |dirs| && forall j :: 0 <= j < |dirs| ==> dirs[j] != 0
    decreases |dirs| - k
  {
    if k == |dirs| then [] else Ray(b, i, i, dirs[k]) + Rays(b, i, dirs, k + 1)
  }

  const KNIGHT_STEPS := [-17, -15, -10, -6, 6, 10, 15, 17]
  const KING_STEPS := [-9, -8, -7, -1, 1, 7, 8, 9]
  const BISHOP_DIRS := [-9, -7, 7, 9]
  const ROOK_DIRS := [-8, -1, 1, 8]
  const QUEEN_DIRS := [-9, -8, -7, -1, 1, 7, 8, 9]

  function SlideDirs(kind: int): (dirs: seq<int>)
    ensures forall j :: 0 <= j < |dirs| ==> dirs[j] != 0
  {
    if kind == BISHOP then BISHOP_DIRS else if kind == ROOK then ROOK_DIRS else QUEEN_DIRS
  }

  /** The moves of the piece on `i`. */
  function PieceMoves(b: Board, i: Square): (ms: seq<Move>) {
    var kind := Abs(b[i]);
    if kind == PAWN then PawnPushes(b, i) + PawnCapture(b, i, -1) + PawnCapture(b, i, 1)
    else if kind == KNIGHT then Steps(b, i, KNIGHT_STEPS, 0)
    else if kind == KING then Steps(b, i, KING_STEPS, 0)
    else Rays(b, i, SlideDirs(kind), 0)
  }

  predicate Owned(p: Piece, side: Side) { p != EMPTY && (p > 0) == (side == WHITE) }

  /** The moves of `side` from square `i` on. */
  function MovesFrom(b: Board, side: Side, i: nat): (ms: seq<Move>)
    requires i <= 64
    decreases 64 - i
  {
    if i == 64 then []
    else (if Owned(b[i], side) then PieceMoves(b, i) else []) + MovesFrom(b, side, i + 1)
  }

  lemma {:induction false} MovesStep(b: Board, side: Side, i: nat)
    requires i <= 64
    ensures i == 64 ==> MovesFrom(b, side, i) == []
    ensures i < 64 ==> MovesFrom(b, side, i) == (if Owned(b[i], side) then PieceMoves(b, i) else []) + MovesFrom(b, side, i + 1)
  {
  }

  function Moves(b: Board, side: Side): (ms: seq<Move>) { MovesFrom(b, side, 0) }

  /** What every generated move is: a move of an own piece to another square that is empty or
      held by the enemy. */
  predicate Sensible(b: Board, side: Side, m: Move) {
    m.f != m.t && Owned(b[m.f], side) && !Owned(b[m.t], side)
  }

  lemma {:induction false} StepsAreSensible(b: Board, side: Side, i: Square, offs: seq<int>, k: nat)
    requires k <= |offs| && Owned(b[i], side) && forall j :: 0 <= j < |offs| ==> offs[j] != 0
    ensures forall m :: m in Steps(b, i, offs, k) ==> m.f == i && Sensible(b, side, m)
    decreases |offs| - k
  {
    if k < |offs| {
      StepsAreSensible(b, side, i, offs, k + 1);
    }
  }

  lemma {:induction false} RayIsSensible(b: Board, side: Side, i: Square, curr: Square, d: int)
    requires d != 0 && Owned(b[i], side) && (d > 0 ==> curr >= i) && (d < 0 ==> curr <= i)
    ensures forall m :: m in Ray(b, i, curr, d) ==> m.f == i && Sensible(b, side, m)
    decreases if d > 0 then 64 - curr else curr
  {
    var next := curr + d;
    if 0 <= next < 64 && Abs(next % 8 - curr % 8) <= 1 && b[next] == EMPTY {
      RayIsSensible(b, side, i, next, d);
    }
  }

  lemma {:induction false} RaysAreSensible(b: Board, side: Side, i: Square, dirs: seq<int>, k: nat)
    requires k <= |dirs| && Owned(b[i], side) && forall j :: 0 <= j < |dirs| ==> dirs[j] != 0
    ensures forall m :: m in Rays(b, i, dirs, k) ==> m.f == i && Sensible(b, side, m)
    decreases |dirs| - k
  {
    if k < |dirs| {
      RayIsSensible(b, side, i, i, dirs[k]);
      RaysAreSensible(b, side, i, dirs, k + 1);
    }
  }

  lemma {:induction false} PawnMovesAreSensible(b: Board, side: Side, i: Square)
    requires Owned(b[i], side)
    ensures forall m :: m in PawnPushes(b, i) ==> m.f == i && Sensible(b, side, m)
    ensures forall m :: m in PawnCapture(b, i, -1) ==> m.f == i && Sensible(b, side, m)
    ensures forall m :: m in PawnCapture(b, i, 1) ==> m.f == i && Sensible(b, side, m)
  {
  }

  lemma {:induction false} PieceMovesAreSensible(b: Board, side: Side, i: Square)
    requires Owned(b[i], side)
    ensures forall m :: m in PieceMoves(b, i) ==> m.f == i && Sensible(b, side, m)
  {
    hide PawnCapture;
    hide Sensible;
    hide Owned;
    var kind := Abs(b[i]);
    if kind == PAWN {
      PawnMovesAreSensible(b, side, i);
    } else if kind == KNIGHT {
      StepsAreSensible(b, side, i, KNIGHT_STEPS, 0);
    } else if kind == KING {
      StepsAreSensible(b, side, i, KING_STEPS, 0);
    } else {
      RaysAreSensible(b, side, i, SlideDirs(kind), 0);
    }
  }

  lemma {:induction false} MovesAreSensible(b: Board, side: Side, i: nat)
    requires i <= 64
    ensures forall m :: m in MovesFrom(b, side, i) ==> Sensible(b, side, m)
    decreases 64 - i
  {
    if i < 64 {
      if Owned(b[i], side) {
        PieceMovesAreSensible(b, side, i);
      }
      MovesAreSensible(b, side, i + 1);
    }
  }

  // ----- The moves in terms of rows and columns -----

  function Row(s: Square): (r: int) { s / 8 }

  function Col(s: Square): (c: int) { s % 8 }

  predicate Offered(offs: seq<int>, k: nat, x: int) { exists j :: k <= j < |offs| && offs[j] == x }

  lemma {:induction false} OfferedNext(offs: seq<int>, k: nat, x: int)
    requires k < |offs|
    ensures Offered(offs, k, x) <==> offs[k] == x || Offered(offs, k + 1, x)
  {
  }

  lemma {:induction false} InEither(m: Move, x: seq<Move>, y: seq<Move>)
    ensures m in x + y <==> m in x || m in y
  {
  }

  lemma {:induction false} StepsHolds(b: Board, i: Square, offs: seq<int>, k: nat, m: Move)
    requires k < |offs|
    ensures m in Steps(b, i, offs, k) <==>
              m in Steps(b, i, offs, k + 1) || (0 <= i + offs[k] < 64 && StepOk(b, i, i + offs[k]) && m == Move(i, i + offs[k]))
  {
    hide StepOk;
  }

  lemma {:induction false} StepsAre(b: Board, i: Square, offs: seq<int>, k: nat, t: Square)
    requires k <= |offs|
    ensures Move(i, t) in Steps(b, i, offs, k) <==> Offered(offs, k, t - i) && StepOk(b, i, t)
    decreases |offs| - k
  {
    hide StepOk;
    if k < |offs| {
      hide Steps;
      hide Offered;
      StepsAre(b, i, offs, k + 1, t);
      StepsHolds(b, i, offs, k, Move(i, t));
      OfferedNext(offs, k, t - i);
    }
  }

  predicate KnightJump(i: Square, t: Square) {
    var dr, dc := Abs(Row(t) - Row(i)), Abs(Col(t) - Col(i));
    (dr == 1 && dc == 2) || (dr == 2 && dc == 1)
  }

  predicate KingStep(i: Square, t: Square) {
    i != t && Abs(Row(t) - Row(i)) <= 1 && Abs(Col(t) - Col(i)) <= 1
  }

  lemma {:induction false} JumpByOffset(i: Square, t: Square)
    ensures KnightJump(i, t) <==> (t - i) in KNIGHT_STEPS && Abs(t % 8 - i % 8) <= 2
    ensures KingStep(i, t) <==> (t - i) in KING_STEPS && Abs(t % 8 - i % 8) <= 2
  {
    var dr, dc := t / 8 - i / 8, t % 8 - i % 8;
    assert t - i == 8 * dr + dc;
  }

  /** Knights and kings move as in chess; the column test keeps them from wrapping round the board. */
  lemma {:induction false} KnightAndKing(b: Board, i: Square, t: Square)
    ensures Abs(b[i]) == KNIGHT ==> (Move(i, t) in PieceMoves(b, i) <==> KnightJump(i, t) && CanLand(b, i, t))
    ensures Abs(b[i]) == KING ==> (Move(i, t) in PieceMoves(b, i) <==> KingStep(i, t) && CanLand(b, i, t))
  {
    hide Steps;
    JumpByOffset(i, t);
    hide KnightJump;
    hide KingStep;
    StepsAre(b, i, KNIGHT_STEPS, 0, t);
    StepsAre(b, i, KING_STEPS, 0, t);
    assert Offered(KNIGHT_STEPS, 0, t - i) <==> (t - i) in KNIGHT_STEPS;
    assert Offered(KING_STEPS, 0, t - i) <==> (t - i) in KING_STEPS;
  }

  function Forward(p: Piece): (dir: int) { if p > 0 then 1 else -1 }

  /** Straight ahead to an empty square, by two from the home row when both are empty. */
  predicate PawnPush(b: Board, i: Square, t: Square) {
    var dir := Forward(b[i]);
    && Col(t) == Col(i) && b[t] == EMPTY
    && (|| Row(t) == Row(i) + dir
        || (Row(i) == (if dir == 1 then 1 else 6) && Row(t) == Row(i) + 2 * dir && b[i + 8 * dir] == EMPTY))
  }

  /** Diagonally ahead onto an enemy. */
  predicate PawnTake(b: Board, i: Square, t: Square) {
    Row(t) == Row(i) + Forward(b[i]) && Abs(Col(t) - Col(i)) == 1 && b[t] != EMPTY && Enemy(b[i], b[t])
  }

  lemma {:induction false} PushesAre(b: Board, i: Square, t: Square)
    ensures Move(i, t) in PawnPushes(b, i) <==> PawnPush(b, i, t)
  {
    var dir := Forward(b[i]);
    assert t - i == 8 * (Row(t) - Row(i)) + (Col(t) - Col(i));
  }

  lemma {:induction false} CapturesAre(b: Board, i: Square, t: Square)
    ensures Move(i, t) in PawnCapture(b, i, -1) || Move(i, t) in PawnCapture(b, i, 1) <==> PawnTake(b, i, t)
  {
    assert t - i == 8 * (Row(t) - Row(i)) + (Col(t) - Col(i));
  }

  lemma {:induction false} PawnIs(b: Board, i: Square, t: Square)
    requires Abs(b[i]) == PAWN
    ensures Move(i, t) in PieceMoves(b, i) <==> PawnPush(b, i, t) || PawnTake(b, i, t)
  {
    PushesAre(b, i, t);
    CapturesAre(b, i, t);
    hide PawnPush;
    hide PawnTake;
    InEither(Move(i, t), PawnPushes(b, i), PawnCapture(b, i, -1));
    InEither(Move(i, t), PawnPushes(b, i) + PawnCapture(b, i, -1), PawnCapture(b, i, 1));
  }

  /** `k` steps from `i` by `dr` rows and `dc` columns. */
  predicate OnBoard(i: Square, dr: int, dc: int, k: nat) {
    0 <= Row(i) + k * dr < 8 && 0 <= Col(i) + k * dc < 8
  }

  function At(i: Square, dr: int, dc: int, k: nat): (s: Square)
    requires OnBoard(i, dr, dc, k)
  {
    8 * (Row(i) + k * dr) + (Col(i) + k * dc)
  }

  predicate Direction(dr: int, dc: int) { -1 <= dr <= 1 && -1 <= dc <= 1 && (dr != 0 || dc != 0) }

  /** From `n` steps out, the next `k - n` squares are on the board, all but the last empty, and the piece can
      land on the last. */
  predicate Sees(b: Board, i: Square, dr: int, dc: int, n: nat, k: nat) {
    && n < k && (forall j :: n < j <= k ==> OnBoard(i, dr, dc, j))
    && (forall j :: n < j < k ==> b[At(i, dr, dc, j)] == EMPTY)
    && CanLand(b, i, At(i, dr, dc, k))
  }

  lemma {:induction false} NextSquare(r: int, c: int, dr: int, dc: int)
    requires 0 <= r < 8 && 0 <= c < 8 && Direction(dr, dc)
    ensures var curr := 8 * r + c; var next := curr + (8 * dr + dc);
            0 <= r + dr < 8 && 0 <= c + dc < 8 <==> 0 <= next < 64 && Abs(next % 8 - curr % 8) <= 1
  {
  }

  lemma {:induction false} NextOnBoard(i: Square, dr: int, dc: int, n: nat)
    requires Direction(dr, dc) && OnBoard(i, dr, dc, n)
    ensures var curr := At(i, dr, dc, n); var next := curr + (8 * dr + dc);
            && (OnBoard(i, dr, dc, n + 1) <==> 0 <= next < 64 && Abs(next % 8 - curr % 8) <= 1)
            && (OnBoard(i, dr, dc, n + 1) ==> next == At(i, dr, dc, n + 1))
  {
    var r, c := Row(i) + n * dr, Col(i) + n * dc;
    assert (n + 1) * dr == n * dr + dr && (n + 1) * dc == n * dc + dc;
    NextSquare(r, c, dr, dc);
  }

  /** Sliding pieces see along their lines up to the first piece. */
  lemma {:induction false} RayIs(b: Board, i: Square, dr: int, dc: int, n: nat, t: Square)
    requires Direction(dr, dc) && OnBoard(i, dr, dc, n)
    ensures Move(i, t) in Ray(b, i, At(i, dr, dc, n), 8 * dr + dc) <==>
      exists k: nat :: Sees(b, i, dr, dc, n, k) && t == At(i, dr, dc, k)
    decreases if 8 * dr + dc > 0 then 64 - At(i, dr, dc, n) else At(i, dr, dc, n)
  {
    hide At;
    hide Abs;
    NextOnBoard(i, dr, dc, n);
    SeesNext(b, i, dr, dc, n, t);
    var curr := At(i, dr, dc, n);
    if OnBoard(i, dr, dc, n + 1) {
      var next := At(i, dr, dc, n + 1);
      if b[next] == EMPTY {
        RayIs(b, i, dr, dc, n + 1, t);
        SeesFurther(b, i, dr, dc, n, t);
        assert Ray(b, i, curr, 8 * dr + dc) == [Move(i, next)] + Ray(b, i, next, 8 * dr + dc);
      } else {
        assert Ray(b, i, curr, 8 * dr + dc) == if Enemy(b[i], b[next]) then [Move(i, next)] else [];
      }
    } else {
      assert Ray(b, i, curr, 8 * dr + dc) == [];
    }
  }

  /** With the next square off the board or taken, there is at most that square to go to. */
  lemma {:induction false} SeesNext(b: Board, i: Square, dr: int, dc: int, n: nat, t: Square)
    ensures !OnBoard(i, dr, dc, n + 1) ==> !exists k: nat :: Sees(b, i, dr, dc, n, k) && t == At(i, dr, dc, k)
    ensures OnBoard(i, dr, dc, n + 1) && b[At(i, dr, dc, n + 1)] != EMPTY ==>
      ((exists k: nat :: Sees(b, i, dr, dc, n, k) && t == At(i, dr, dc, k)) <==>
         t == At(i, dr, dc, n + 1) && Enemy(b[i], b[t]))
  {
    hide OnBoard;
    if exists k: nat :: Sees(b, i, dr, dc, n, k) && t == At(i, dr, dc, k) {
      var k: nat :| Sees(b, i, dr, dc, n, k) && t == At(i, dr, dc, k);
      assert OnBoard(i, dr, dc, n + 1);
      assert b[At(i, dr, dc, n + 1)] != EMPTY ==> k == n + 1;
    }
    if OnBoard(i, dr, dc, n + 1) && t == At(i, dr, dc, n + 1) && Enemy(b[i], b[t]) {
      assert Sees(b, i, dr, dc, n, n + 1);
    }
  }

  lemma {:induction false} SeesFurther(b: Board, i: Square, dr: int, dc: int, n: nat, t: Square)
    requires OnBoard(i, dr, dc, n + 1) && b[At(i, dr, dc, n + 1)] == EMPTY
    ensures (exists k: nat :: Sees(b, i, dr, dc, n, k) && t == At(i, dr, dc, k)) <==>
      t == At(i, dr, dc, n + 1) || exists k: nat :: Sees(b, i, dr, dc, n + 1, k) && t == At(i, dr, dc, k)
  {
    if exists k: nat :: Sees(b, i, dr, dc, n, k) && t == At(i, dr, dc, k) {
      var k: nat :| Sees(b, i, dr, dc, n, k) && t == At(i, dr, dc, k);
      assert k > n + 1 ==> Sees(b, i, dr, dc, n + 1, k);
    }
    if exists k: nat :: Sees(b, i, dr, dc, n + 1, k) && t == At(i, dr, dc, k) {
      var k: nat :| Sees(b, i, dr, dc, n + 1, k) && t == At(i, dr, dc, k);
      assert Sees(b, i, dr, dc, n, k);
    }
    assert Sees(b, i, dr, dc, n, n + 1);
  }

  /** Bishops move on diagonals, rooks on rows and columns, queens on both. */
  predicate MovesAlong(kind: int, dr: int, dc: int) {
    Direction(dr, dc) && (kind == BISHOP ==> dr != 0 && dc != 0) && (kind == ROOK ==> dr == 0 || dc == 0)
  }

  lemma {:induction false} RaysAre(b: Board, i: Square, dirs: seq<int>, k: nat, t: Square)
    requires k <= |dirs| && forall j :: 0 <= j < |dirs| ==> dirs[j] != 0
    ensures Move(i, t) in Rays(b, i, dirs, k) <==> exists j :: k <= j < |dirs| && Move(i, t) in Ray(b, i, i, dirs[j])
    decreases |dirs| - k
  {
    hide Ray;
    if k < |dirs| {
      RaysAre(b, i, dirs, k + 1, t);
    }
  }

  lemma {:induction false} DirsAre(kind: int, dr: int, dc: int)
    requires kind == BISHOP || kind == ROOK || kind == QUEEN
    requires Direction(dr, dc)
    ensures 8 * dr + dc in SlideDirs(kind) <==> MovesAlong(kind, dr, dc)
  {
  }

  /** The rows and columns of an offset. */
  lemma {:induction false} OffsetIs(kind: int, j: nat) returns (dr: int, dc: int)
    requires (kind == BISHOP || kind == ROOK || kind == QUEEN) && j < |SlideDirs(kind)|
    ensures MovesAlong(kind, dr, dc) && SlideDirs(kind)[j] == 8 * dr + dc
  {
    var d := SlideDirs(kind)[j];
    dr := if d < -4 then -1 else if d > 4 then 1 else 0;
    dc := d - 8 * dr;
  }

  predicate Slider(p: Piece) { Abs(p) == BISHOP || Abs(p) == ROOK || Abs(p) == QUEEN }

  lemma {:induction false} SlidesAre(b: Board, i: Square, t: Square)
    requires Slider(b[i])
    ensures Move(i, t) in PieceMoves(b, i) <==>
      exists j :: 0 <= j < |SlideDirs(Abs(b[i]))| && Move(i, t) in Ray(b, i, i, SlideDirs(Abs(b[i]))[j])
  {
    hide Rays;
    RaysAre(b, i, SlideDirs(Abs(b[i])), 0, t);
  }

  lemma {:induction false} SlideDirection(b: Board, i: Square, t: Square) returns (dr: int, dc: int)
    requires Slider(b[i]) && Move(i, t) in PieceMoves(b, i)
    ensures MovesAlong(Abs(b[i]), dr, dc) && Move(i, t) in Ray(b, i, i, 8 * dr + dc)
  {
    hide PieceMoves;
    SlidesAre(b, i, t);
    var kind := Abs(b[i]);
    var j :| 0 <= j < |SlideDirs(kind)| && Move(i, t) in Ray(b, i, i, SlideDirs(kind)[j]);
    dr, dc := OffsetIs(kind, j);
  }

  /** A sliding piece goes only where it sees along one of its lines. */
  lemma {:induction false} SlidersOnly(b: Board, i: Square, t: Square) returns (dr: int, dc: int, k: nat)
    requires Slider(b[i]) && Move(i, t) in PieceMoves(b, i)
    ensures MovesAlong(Abs(b[i]), dr, dc) && Sees(b, i, dr, dc, 0, k) && t == At(i, dr, dc, k)
  {
    dr, dc := SlideDirection(b, i, t);
    LineIs(b, i, dr, dc, t);
    k :| Sees(b, i, dr, dc, 0, k) && t == At(i, dr, dc, k);
  }

  /** A sliding piece goes wherever it sees along one of its lines. */
  lemma {:induction false} SlidersAll(b: Board, i: Square, dr: int, dc: int, k: nat)
    requires Slider(b[i]) && MovesAlong(Abs(b[i]), dr, dc) && Sees(b, i, dr, dc, 0, k)
    ensures Move(i, At(i, dr, dc, k)) in PieceMoves(b, i)
  {
    var kind, t := Abs(b[i]), At(i, dr, dc, k);
    SlidesAre(b, i, t);
    DirsAre(kind, dr, dc);
    LineIs(b, i, dr, dc, t);
    hide PieceMoves;
    hide Sees;
    hide Ray;
    hide SlideDirs;
    hide At;
    hide OnBoard;
    var j :| 0 <= j < |SlideDirs(kind)| && SlideDirs(kind)[j] == 8 * dr + dc;
    assert Move(i, t) in Ray(b, i, i, SlideDirs(kind)[j]);
  }

  lemma {:induction false} LineIs(b: Board, i: Square, dr: int, dc: int, t: Square)
    requires Direction(dr, dc)
    ensures Move(i, t) in Ray(b, i, i, 8 * dr + dc) <==> exists k: nat :: Sees(b, i, dr, dc, 0, k) && t == At(i, dr, dc, k)
  {
    StandsStill(i, dr, dc);
    RayIs(b, i, dr, dc, 0, t);
  }

  lemma {:induction false} StandsStill(i: Square, dr: int, dc: int)
    ensures OnBoard(i, dr, dc, 0) && At(i, dr, dc, 0) == i
  {
  }

  // ----- The whole list -----

  /** The rules, whatever generates the moves: where the piece on `i` may go. */
  ghost predicate MayGo(b: Board, i: Square, t: Square) {
    var kind := Abs(b[i]);
    && (kind == PAWN ==> PawnPush(b, i, t) || PawnTake(b, i, t))
    && (kind == KNIGHT ==> KnightJump(i, t) && CanLand(b, i, t))
    && (kind == KING ==> KingStep(i, t) && CanLand(b, i, t))
    && (Slider(b[i]) ==> SeesTo(b, i, t))
  }

  ghost predicate SeesTo(b: Board, i: Square, t: Square) {
    exists dr, dc, k: nat :: MovesAlong(Abs(b[i]), dr, dc) && Sees(b, i, dr, dc, 0, k) && t == At(i, dr, dc, k)
  }

  lemma {:induction false} PieceMovesAre(b: Board, i: Square, t: Square)
    requires b[i] != EMPTY
    ensures Move(i, t) in PieceMoves(b, i) <==> MayGo(b, i, t)
  {
    hide PieceMoves;
    hide PawnPush;
    hide PawnTake;
    hide KnightJump;
    hide KingStep;
    hide CanLand;
    hide SeesTo;
    KnightAndKing(b, i, t);
    if Abs(b[i]) == PAWN {
      PawnIs(b, i, t);
    } else if Slider(b[i]) {
      SlidersSee(b, i, t);
    }
  }

  lemma {:induction false} SlidersSee(b: Board, i: Square, t: Square)
    requires Slider(b[i])
    ensures Move(i, t) in PieceMoves(b, i) <==> SeesTo(b, i, t)
  {
    hide PieceMoves;
    hide MovesAlong;
    hide CanLand;
    if Move(i, t) in PieceMoves(b, i) {
      var dr, dc, k := SlidersOnly(b, i, t);
    }
    forall dr, dc, k: nat | MovesAlong(Abs(b[i]), dr, dc) && Sees(b, i, dr, dc, 0, k) && t == At(i, dr, dc, k)
      ensures Move(i, t) in PieceMoves(b, i)
    {
      SlidersAll(b, i, dr, dc, k);
    }
  }

  lemma {:induction false} MovesFromAre(b: Board, side: Side, i: nat, m: Move)
    requires i <= 64
    ensures m in MovesFrom(b, side, i) <==> i <= m.f && Owned(b[m.f], side) && MayGo(b, m.f, m.t)
    decreases 64 - i
  {
    hide PieceMoves;
    hide MayGo;
    hide MovesFrom;
    hide Sensible;
    MovesStep(b, side, i);
    if i < 64 {
      MovesFromAre(b, side, i + 1, m);
      var here := if Owned(b[i], side) then PieceMoves(b, i) else [];
      InEither(m, here, MovesFrom(b, side, i + 1));
      if Owned(b[i], side) {
        PieceMovesAreSensible(b, side, i);
        PieceMovesAre(b, i, m.t);
      }
    }
  }

  /** The list holds every move that the rules allow a piece of the side, from any square, and no other. */
  lemma {:induction false} MovesAre(b: Board, side: Side)
    ensures forall m :: m in Moves(b, side) <==> Owned(b[m.f], side) && MayGo(b, m.f, m.t)
  {
    hide MayGo;
    hide MovesFrom;
    forall m
      ensures m in Moves(b, side) <==> Owned(b[m.f], side) && MayGo(b, m.f, m.t)
    {
      MovesFromAre(b, side, 0, m);
    }
  }

  // ----- Making and unmaking a move -----

  function Apply(b: Board, m: Move): (r: Board) {
    var p := b[m.f];
    var moved := b[m.t := p][m.f := EMPTY];
    if Abs(p) == PAWN && (m.t >= 56 || m.t <= 7) then moved[m.t := if p > 0 then QUEEN else -QUEEN] else moved
  }

  lemma {:induction false} UnapplyRestores(b: Board, m: Move)
    ensures Apply(b, m)[m.f := b[m.f]][m.t := b[m.t]] == b
  {
  }

  /** A move takes nothing away from the mover: its piece stands on the target, a pawn on either last row as a queen of its
      side, and no third square changes. */
  lemma {:induction false} MoverKeepsMaterial(b: Board, side: Side, m: Move, k: Square)
    requires Sensible(b, side, m) && k != m.t
    ensures Apply(b, m)[k] == if k == m.f then EMPTY else b[k]
    ensures Apply(b, m)[m.t] == if Abs(b[m.f]) == PAWN && (Row(m.t) == 0 || Row(m.t) == 7) then side * QUEEN else b[m.f]
    ensures Owned(Apply(b, m)[m.t], side)
  {
  }
}
