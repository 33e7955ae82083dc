/** Move application with capture resolution (Board.makeMove and its
    helpers throne, check, possible and capture).  Every helper is a pure
    function from board to board that performs the same reads and writes,
    in the same order, as the Java code. */
module Captures {
  import opened Wrappers
  import opened Primitives
  import opened Grids
  import opened Boards

  /** What every capture helper may do to a board: empty squares (recording
      them for undo and raising the capture flag), and declare BLACK the
      winner.  Nothing else changes, and a lone KING leaves the board only
      together with a BLACK win. */
  ghost predicate Resolves(b: Board, r: Board) {
    && ClearsOnly(b.grid, r.grid)
    && (r.winner == b.winner || r.winner == Some(Black))
    && r.turn == b.turn && r.moveCount == b.moveCount && r.repeated == b.repeated
    && r.seen == b.seen && r.moves == b.moves && r.moveLimit == b.moveLimit
    && (b.captured ==> r.captured)
    && (!r.captured ==> r.grid == b.grid && r.undoPieces == b.undoPieces && r.undoSquares == b.undoSquares)
    && (forall k: Square :: LoneKing(b.grid, k) ==> Get(r.grid, k) == King || r.winner == Some(Black))
  }

  lemma ResolvesTrans(a: Board, b: Board, c: Board)
    requires Resolves(a, b) && Resolves(b, c)
    ensures Resolves(a, c)
  {
    forall k: Square | LoneKing(a.grid, k)
      ensures Get(c.grid, k) == King || c.winner == Some(Black)
    {
      if b.winner != Some(Black) {
        assert Get(b.grid, k) == King;
        assert LoneKing(b.grid, k);
      }
    }
  }

  /** No KING on the throne or any of its four neighbours (Board.java:311-312). */
  predicate NoKingAtThrone(g: Grid) {
    Get(g, THRONE) != King && NoKingBesideThrone(g)
  }

  /** No KING on any of the four throne neighbours (Board.java:528). */
  predicate NoKingBesideThrone(g: Grid) {
    Get(g, NTHRONE) != King && Get(g, STHRONE) != King
    && Get(g, ETHRONE) != King && Get(g, WTHRONE) != King
  }

  /** All four throne neighbours hold BLACK. */
  predicate AllFourBlack(g: Grid) {
    Get(g, NTHRONE) == Black && Get(g, STHRONE) == Black
    && Get(g, ETHRONE) == Black && Get(g, WTHRONE) == Black
  }

  /** The throne neighbour `x` is WHITE and the other three are BLACK. */
  predicate LoneWhiteBeside(g: Grid, x: Square)
    requires IsThroneNeighbour(x)
  {
    && Get(g, x) == White
    && (x == NTHRONE || Get(g, NTHRONE) == Black)
    && (x == STHRONE || Get(g, STHRONE) == Black)
    && (x == ETHRONE || Get(g, ETHRONE) == Black)
    && (x == WTHRONE || Get(g, WTHRONE) == Black)
  }

  /** The on-board square `n` steps from `s` in direction `d`. */
  function Step(s: Square, d: Dir, n: int): Square
    requires RookMove(s, d, n).Some?
  {
    RookMove(s, d, n).value
  }

  /** `revPut(EMPTY, kingPosition()); captured = true; _winner = BLACK;`.
      Callers have just seen a KING, so kingPosition() is not null. */
  function KingCaptured(b: Board): (r: Board)
    requires KingPosition(b.grid).Some?
    ensures Resolves(b, r) && r.winner == Some(Black)
    ensures Get(r.grid, KingPosition(b.grid).value) == Empty
    ensures forall s: Square :: s != KingPosition(b.grid).value ==> Get(r.grid, s) == Get(b.grid, s)
  {
    Remove(b, KingPosition(b.grid).value).(winner := Some(Black))
  }

  // ----------------------------------------------------------------- throne

  /** One of the first four blocks of Board.throne: with the KING on the
      throne, `x` WHITE and the other neighbours BLACK, a BLACK piece on `to`
      captures the WHITE piece between `x` and `to`. */
  function ThroneFlank(b: Board, to: Square, x: Square): (r: Board)
    requires IsThroneNeighbour(x)
    ensures Resolves(b, r) && r.winner == b.winner
    ensures forall s: Square :: Get(b.grid, s) != White ==> Get(r.grid, s) == Get(b.grid, s)
  {
    if LoneWhiteBeside(b.grid, x) && Get(b.grid, Between(x, to)) == White && Get(b.grid, to) == Black
    then Remove(b, Between(x, to))
    else b
  }

  /** Board.throne (Board.java:347-384). */
  function Throne(b: Board, to: Square): (r: Board)
    ensures Resolves(b, r)
  {
    if Get(b.grid, THRONE) != King then b
    else
      var b1 := ThroneFlank(b, to, NTHRONE);
      var b2 := ThroneFlank(b1, to, STHRONE);
      var b3 := ThroneFlank(b2, to, ETHRONE);
      var b4 := ThroneFlank(b3, to, WTHRONE);
      ResolvesTrans(b, b1, b2);
      ResolvesTrans(b, b2, b3);
      ResolvesTrans(b, b3, b4);
      if AllFourBlack(b4.grid) then
        assert Get(b4.grid, THRONE) == King;
        var r := KingCaptured(b4);
        ResolvesTrans(b, b4, r);
        r
      else b4
  }

  /** With the KING alone on the throne and BLACK on all four neighbours,
      Board.throne empties the throne and declares BLACK the winner. */
  lemma ThroneCapturesSurroundedKing(b: Board, to: Square)
    requires Get(b.grid, THRONE) == King && AllFourBlack(b.grid)
    requires forall s: Square :: Get(b.grid, s) == King ==> s == THRONE
    ensures Get(Throne(b, to).grid, THRONE) == Empty
    ensures Throne(b, to).winner == Some(Black)
  {
    var b1 := ThroneFlank(b, to, NTHRONE);
    var b2 := ThroneFlank(b1, to, STHRONE);
    var b3 := ThroneFlank(b2, to, ETHRONE);
    var b4 := ThroneFlank(b3, to, WTHRONE);
    assert b4 == b;
    assert KingPosition(b.grid) == Some(THRONE);
  }

  // ------------------------------------------------------------------ check

  /** The KING on throne neighbour `x`, hemmed in by BLACK on the three
      squares `p`, `q`, `u` around it, is captured by BLACK. */
  function KingBesideThrone(b: Board, x: Square, p: Square, q: Square, u: Square): (r: Board)
    requires b.turn == Black
    ensures Resolves(b, r)
  {
    if Get(b.grid, p) == Black && Get(b.grid, q) == Black && Get(b.grid, u) == Black
    then Remove(b, x).(winner := Some(b.turn))
    else b
  }

  /** The KING tests of Board.check (Board.java:394-425): the first throne
      neighbour holding the KING, in the order N, S, E, W, is tested. */
  function CheckKing(b: Board): (r: Board)
    requires b.turn == Black
    ensures Resolves(b, r)
  {
    var g := b.grid;
    if Get(g, NTHRONE) == King then
      KingBesideThrone(b, NTHRONE, Step(THRONE, 0, 2), Step(NTHRONE, 1, 1), Step(NTHRONE, 3, 1))
    else if Get(g, STHRONE) == King then
      KingBesideThrone(b, STHRONE, Step(THRONE, 2, 2), Step(STHRONE, 3, 1), Step(STHRONE, 1, 1))
    else if Get(g, ETHRONE) == King then
      KingBesideThrone(b, ETHRONE, Step(THRONE, 1, 2), Step(ETHRONE, 0, 1), Step(ETHRONE, 2, 1))
    else if Get(g, WTHRONE) == King then
      KingBesideThrone(b, WTHRONE, Step(THRONE, 3, 2), Step(WTHRONE, 0, 1), Step(WTHRONE, 2, 1))
    else b
  }

  /** The `_turn == BLACK` part of Board.check (Board.java:393-431). */
  function CheckBlack(b: Board, to: Square): (r: Board)
    requires b.turn == Black
    ensures Resolves(b, r)
  {
    var b1 := CheckKing(b);
    if Get(b1.grid, Between(THRONE, to)) == White then
      var r := Remove(b1, Between(THRONE, to));
      ResolvesTrans(b, b1, r);
      r
    else b1
  }

  /** Board.check (Board.java:391-439): captures against the empty throne. */
  function Check(b: Board, to: Square): (r: Board)
    ensures Resolves(b, r)
  {
    if Get(b.grid, THRONE) != Empty then b
    else
      var b1 := if b.turn == Black then CheckBlack(b, to) else b;
      if b1.turn == White && Get(b1.grid, Between(THRONE, to)) == Black then
        var r := Remove(b1, Between(THRONE, to));
        ResolvesTrans(b, b1, r);
        r
      else b1
  }

  // --------------------------------------------------------------- possible

  /** A board after one of the three tests of Board.possible, and whether
      the test added its far square to the returned list. */
  datatype Outcome = Outcome(board: Board, added: bool)

  /** First test of Board.possible (Board.java:470-478): with no KING at the
      throne, a KING between two BLACK pieces is captured. */
  function KingFlank(b: Board, to: Square, far: Square): (r: Outcome)
    ensures Resolves(b, r.board)
  {
    var mid := Between(to, far);
    if NoKingAtThrone(b.grid) && Get(b.grid, mid) == King
       && Get(b.grid, to) == Black && Get(b.grid, far) == Black
    then Outcome(Remove(b, mid).(winner := Some(Black)), true)
    else Outcome(b, false)
  }

  /** The ordinary capture condition of Board.possible (Board.java:479-482):
      the mover on `to` and on `far`, the opponent between them, and the
      middle square not beside the throne. */
  predicate OrdinaryFlank(b: Board, to: Square, far: Square) {
    var mid := Between(to, far);
    && Get(b.grid, mid) == b.turn.Opponent()
    && Get(b.grid, to) == b.turn && Get(b.grid, far) == b.turn
    && !IsThroneNeighbour(mid)
  }

  /** Second test of Board.possible (Board.java:479-486). */
  function Flank(b: Board, to: Square, far: Square): (r: Outcome)
    ensures Resolves(b, r.board) && r.board.winner == b.winner
  {
    if OrdinaryFlank(b, to, far) then Outcome(Remove(b, Between(to, far)), true)
    else Outcome(b, false)
  }

  /** The condition of Board.java:487-489 as Java parses it:
      `(mid BLACK && to WHITE-or-KING && far WHITE) || (far KING && to WHITE)`.
      The second disjunct does not look at the middle square at all. */
  predicate DefenderFlankCondition(b: Board, to: Square, far: Square) {
    var mid := Between(to, far);
    (Get(b.grid, mid) == Black && (Get(b.grid, to) == White || Get(b.grid, to) == King)
      && Get(b.grid, far) == White)
    || (Get(b.grid, far) == King && Get(b.grid, to) == White)
  }

  /** Third test of Board.possible (Board.java:487-493). */
  function DefenderFlank(b: Board, to: Square, far: Square): (r: Outcome)
    requires exists d: Dir :: RookMove(to, d, 2) == Some(far)
    ensures Resolves(b, r.board) && r.board.winner == b.winner
  {
    BetweenIsStrict(to, far);
    if DefenderFlankCondition(b, to, far) then Outcome(Remove(b, Between(to, far)), true)
    else Outcome(b, false)
  }

  /** The result of Board.possible: the board after its side effects and
      the list of far squares it returns. */
  datatype Found = Found(board: Board, squares: seq<Square>)

  /** One iteration of the loop of Board.possible over far square `far`. */
  function PossibleAt(b: Board, to: Square, far: Square): (r: Found)
    requires exists d: Dir :: RookMove(to, d, 2) == Some(far)
    ensures Resolves(b, r.board)
    ensures forall s :: s in r.squares ==> s == far
  {
    var t1 := KingFlank(b, to, far);
    var t2 := Flank(t1.board, to, far);
    var t3 := DefenderFlank(t2.board, to, far);
    ResolvesTrans(b, t1.board, t2.board);
    ResolvesTrans(b, t2.board, t3.board);
    Found(t3.board,
      (if t1.added then [far] else []) + (if t2.added then [far] else []) + (if t3.added then [far] else []))
  }

  /** The squares two steps from `to` north, east, south and west, in that
      order, leaving out those off the board (Board.java:453-468). */
  function FlankTargets(to: Square): (r: seq<Square>)
    ensures |r| <= 4
    ensures forall d: Dir :: RookMove(to, d, 2).Some? ==> RookMove(to, d, 2).value in r
    ensures forall s :: s in r ==> exists d: Dir :: RookMove(to, d, 2) == Some(s)
  {
    var up := RookMove(to, 0, 2);
    var right := RookMove(to, 1, 2);
    var down := RookMove(to, 2, 2);
    var left := RookMove(to, 3, 2);
    (if up.Some? then [up.value] else []) + (if right.Some? then [right.value] else [])
    + (if down.Some? then [down.value] else []) + (if left.Some? then [left.value] else [])
  }

  function PossibleLoop(b: Board, to: Square, poss: seq<Square>, i: nat): (r: Found)
    requires i <= |poss|
    requires forall s :: s in poss ==> exists d: Dir :: RookMove(to, d, 2) == Some(s)
    ensures Resolves(b, r.board)
    ensures forall s :: s in r.squares ==> s in poss
    decreases |poss| - i
  {
    if i == |poss| then Found(b, [])
    else
      assert poss[i] in poss;
      var f := PossibleAt(b, to, poss[i]);
      var rest := PossibleLoop(f.board, to, poss, i + 1);
      ResolvesTrans(b, f.board, rest.board);
      Found(rest.board, f.squares + rest.squares)
  }

  /** Board.possible(to): throne, check, then the three tests against each
      far square; returns the far squares whose tests fired (with
      repetitions). */
  function Possible(b: Board, to: Square): (r: Found)
    ensures Resolves(b, r.board)
    ensures forall s :: s in r.squares ==> s in FlankTargets(to)
  {
    var b1 := Throne(b, to);
    var b2 := Check(b1, to);
    var f := PossibleLoop(b2, to, FlankTargets(to), 0);
    ResolvesTrans(b, b1, b2);
    ResolvesTrans(b, b2, f.board);
    f
  }

  // ---------------------------------------------------------------- capture

  /** `revPut(EMPTY, s); captured = true;` when `c` holds, on a square that
      does not hold the KING. */
  function RemoveWhen(b: Board, c: bool, s: Square): (r: Board)
    requires c ==> Get(b.grid, s) != King
    ensures Resolves(b, r)
    ensures c ==> Get(r.grid, s) == Empty
    ensures forall t: Square :: t != s ==> Get(r.grid, t) == Get(b.grid, t)
  {
    if c then Remove(b, s) else b
  }

  /** The KING is taken off the board and BLACK wins when `c` holds. */
  function CaptureKingWhen(b: Board, c: bool): (r: Board)
    requires c ==> KingPosition(b.grid).Some?
    ensures Resolves(b, r)
    ensures c ==> r.winner == Some(Black)
  {
    if c then KingCaptured(b) else b
  }

  /** Board.capture(sq0, sq2) (Board.java:503-538).  The pieces on `sq0`,
      `sq2`, between them and on the throne are read once on entry. */
  function Capture(b: Board, sq0: Square, sq2: Square): (r: Board)
    ensures Resolves(b, r)
    ensures (Get(b.grid, sq0) == b.turn && Get(b.grid, sq2) == b.turn
             && Get(b.grid, Between(sq0, sq2)) == b.turn.Opponent()) ==>
      Get(r.grid, Between(sq0, sq2)) == Empty
  {
    var p0 := Get(b.grid, sq0);
    var p2 := Get(b.grid, sq2);
    var next := Between(sq0, sq2);
    var bet := Get(b.grid, next);
    var pthrone := Get(b.grid, THRONE);
    var b1 := CaptureKingWhen(b, pthrone == King && AllFourBlack(b.grid));
    var b2 := RemoveWhen(b1, p0 == b.turn && p2 == b.turn && bet == b.turn.Opponent(), next);
    ResolvesTrans(b, b1, b2);
    if Get(b2.grid, THRONE) == Empty then
      var side := Between(THRONE, sq2);
      var b3 := RemoveWhen(b2, Get(b2.grid, side) == b.turn.Opponent(), side);
      ResolvesTrans(b, b2, b3);
      var r := CaptureKingWhen(b3, NoKingBesideThrone(b3.grid) && Get(b3.grid, next) == King && p0 == Black && p2 == Black);
      ResolvesTrans(b, b3, r);
      r
    else b2
  }

  /** `for (Square sq : list) capture(to, sq);` */
  function CaptureAll(b: Board, to: Square, list: seq<Square>, i: nat): (r: Board)
    requires i <= |list|
    ensures Resolves(b, r)
    decreases |list| - i
  {
    if i == |list| then b
    else
      var b1 := Capture(b, to, list[i]);
      var r := CaptureAll(b1, to, list, i + 1);
      ResolvesTrans(b, b1, r);
      r
  }

  // -------------------------------------------------------------- makeMove

  /** The grid right after the piece on `from` moved to `to`. */
  function Relocate(g: Grid, from: Square, to: Square): Grid {
    Put(Put(g, Get(g, from), to), Empty, from)
  }

  /** Board.java:307-310: move the piece (recording `to` for undo), push
      the move, clear the capture flag. */
  function Shift(b: Board, from: Square, to: Square): (r: Board)
    ensures r.grid == Relocate(b.grid, from, to) && !r.captured
    ensures r.moves == b.moves + [Move(from, to)]
    ensures r.turn == b.turn && r.winner == b.winner && r.moveCount == b.moveCount
    ensures r.seen == b.seen && r.repeated == b.repeated
  {
    var b1 := RevPut(b, Get(b.grid, from), to);
    b1.(grid := Put(b1.grid, Empty, from), moves := b1.moves + [Move(from, to)], captured := false)
  }

  /** Board.java:311-321: capture resolution, in which possible(to) runs
      three times when no KING is at the throne and twice otherwise, each
      run capturing by side effect. */
  function Resolve(b: Board, to: Square): (r: Board)
    ensures Resolves(b, r)
  {
    var b1 :=
      if NoKingAtThrone(b.grid) then
        var f := Possible(b, to);
        var c := CaptureAll(f.board, to, f.squares, 0);
        ResolvesTrans(b, f.board, c);
        c
      else b;
    var b2 := Possible(b1, to).board;
    var f3 := Possible(b2, to);
    var b3 := CaptureAll(f3.board, to, f3.squares, 0);
    ResolvesTrans(b, b1, b2);
    ResolvesTrans(b, b2, f3.board);
    ResolvesTrans(b, f3.board, b3);
    b3
  }

  /** Board.java:322-329: without a winner, a KING on a corner wins for
      WHITE.  kingPosition() is null once the KING is gone, and the Java
      code then throws. */
  function EscapeCheck(b: Board): (r: Result<Board, Fault>)
    ensures b.winner.Some? ==> r == Success(b)
    ensures b.winner.None? ==>
      (r.Failure? <==> forall s: Square :: Get(b.grid, s) != King)
    ensures b.winner.None? && r.Success? ==>
      && r.value == b.(winner := r.value.winner)
      && (r.value.winner == Some(White) <==> IsCorner(KingPosition(b.grid).value))
      && (r.value.winner == None <==> !IsCorner(KingPosition(b.grid).value))
    ensures r.Failure? ==> r.error == NullPointer
  {
    if b.winner.Some? then Success(b)
    else
      match KingPosition(b.grid)
      case None => Failure(NullPointer)
      case Some(k) => if IsCorner(k) then Success(b.(winner := Some(White))) else Success(b)
  }

  /** Board.java:330-332: count the move, record the position (the
      repetition key leaves out the side to move), pass the turn. */
  function Finish(b: Board): (r: Board)
    ensures r.moveCount == b.moveCount + 1 && r.turn == b.turn.Opponent()
    ensures r.grid == b.grid && r.moves == b.moves
    ensures b.winner.Some? ==> r.winner.Some?
  {
    CheckRepeated(b.(moveCount := b.moveCount + 1)).(turn := b.turn.Opponent())
  }

  /** The board MakeMove reaches before the corner check. */
  function Resolved(b: Board, from: Square, to: Square): (r: Board)
    ensures Resolves(Shift(b, from, to), r)
  {
    Resolve(Shift(b, from, to), to)
  }

  /** Board.makeMove(from, to) for a legal move. */
  function MakeMove(b: Board, from: Square, to: Square): (r: Result<Board, Fault>)
    requires IsSide(b.turn) && IsLegal(b, Move(from, to))
    ensures r.Failure? <==> EscapeCheck(Resolved(b, from, to)).Failure?
    ensures r.Failure? ==> r.error == NullPointer
    ensures r.Success? ==> r.value == Finish(EscapeCheck(Resolved(b, from, to)).value)
    ensures r.Success? ==>
      && r.value.moveCount == b.moveCount + 1
      && r.value.turn == b.turn.Opponent() && IsSide(r.value.turn)
      && r.value.moves == b.moves + [Move(from, to)]
      && (b.winner.Some? ==> r.value.winner.Some?)
  {
    var b2 := Resolved(b, from, to);
    var e := EscapeCheck(b2);
    if e.Failure? then Failure(e.error) else Success(Finish(e.value))
  }

  /** Capture code only ever writes EMPTY: after a legal move no square
      other than `to` has become occupied, and `from` is empty. */
  lemma MakeMoveOccupancy(b: Board, from: Square, to: Square)
    requires IsSide(b.turn) && IsLegal(b, Move(from, to))
    requires MakeMove(b, from, to).Success?
    ensures var g := MakeMove(b, from, to).value.grid;
      && Get(g, from) == Empty
      && (Get(g, to) == Get(b.grid, from) || Get(g, to) == Empty)
      && forall s: Square :: s != to ==> Get(g, s) == Get(b.grid, s) || Get(g, s) == Empty
  {
    IsLegalIff(b, Move(from, to));
    var g1 := Shift(b, from, to).grid;
    var g2 := Resolved(b, from, to).grid;
    assert ClearsOnly(g1, g2);
    assert MakeMove(b, from, to).value.grid == g2;
  }

  /** A board on which play can go on: a side is to move, and until the
      game is decided exactly one KING stands on the grid. */
  ghost predicate Playable(b: Board) {
    IsSide(b.turn) && (b.winner.None? ==> exists k: Square :: LoneKing(b.grid, k))
  }

  /** Relocating a piece onto an empty square keeps a lone KING alone:
      it either stays where it was or travels with the move. */
  lemma RelocateKeepsLoneKing(g: Grid, from: Square, to: Square, k: Square)
    requires LoneKing(g, k) && from != to && Get(g, to) == Empty
    ensures LoneKing(Relocate(g, from, to), if from == k then to else k)
  {
  }

  /** Board.java:322-329 never throws on a playable board: the corner check
      finds the KING whenever no winner has been declared, and the board
      after the move is again playable. */
  lemma MakeMoveNeverFaults(b: Board, from: Square, to: Square)
    requires Playable(b) && IsLegal(b, Move(from, to))
    ensures MakeMove(b, from, to).Success?
    ensures Playable(MakeMove(b, from, to).value)
  {
    IsLegalIff(b, Move(from, to));
    var sh := Shift(b, from, to);
    var rb := Resolved(b, from, to);
    if b.winner.None? {
      var k: Square :| LoneKing(b.grid, k);
      RelocateKeepsLoneKing(b.grid, from, to, k);
      var k' := if from == k then to else k;
      assert LoneKing(sh.grid, k');
      if rb.winner.None? {
        assert Get(rb.grid, k') == King;
        assert LoneKing(rb.grid, k');
      }
    }
  }

  /** Board.java:331 with 169-177: after a successful move, a grid whose
      key was already recorded makes the game a repetition won by the
      opponent of the mover; otherwise the key is recorded and the
      repetition flag keeps its value. */
  lemma MakeMoveRepetition(b: Board, from: Square, to: Square)
    requires IsSide(b.turn) && IsLegal(b, Move(from, to))
    requires MakeMove(b, from, to).Success?
    ensures var r := MakeMove(b, from, to).value;
      var key := GridSymbols(r.grid);
      && (key in b.seen ==> r.repeated && r.winner == Some(b.turn.Opponent()) && r.seen == b.seen)
      && (key !in b.seen ==> r.seen == b.seen + {key} && r.repeated == b.repeated)
  {
    var e := EscapeCheck(Resolved(b, from, to)).value;
    assert e.seen == b.seen && e.repeated == b.repeated && e.turn == b.turn;
    assert RepetitionKey(e.(moveCount := e.moveCount + 1)) == GridSymbols(e.grid);
  }

  /** Board.java:322-329: when capture resolution leaves no winner, the
      move wins for WHITE exactly when the KING stands on a corner (unless
      the position repeats, which hands the game to the mover's opponent). */
  lemma MakeMoveCornerEscape(b: Board, from: Square, to: Square)
    requires IsSide(b.turn) && IsLegal(b, Move(from, to))
    requires Resolved(b, from, to).winner == None
    requires KingPosition(Resolved(b, from, to).grid).Some?
    requires GridSymbols(Resolved(b, from, to).grid) !in b.seen
    ensures MakeMove(b, from, to).Success?
    ensures IsCorner(KingPosition(Resolved(b, from, to).grid).value) ==>
      MakeMove(b, from, to).value.winner == Some(White)
    ensures !IsCorner(KingPosition(Resolved(b, from, to).grid).value) ==>
      MakeMove(b, from, to).value.winner == None
  {
    var rb := Resolved(b, from, to);
    var e := EscapeCheck(rb).value;
    assert e.grid == rb.grid && e.seen == b.seen;
    assert RepetitionKey(e.(moveCount := e.moveCount + 1)) == GridSymbols(e.grid);
  }

  /** Board.java:377-382 via the possible(to) call of Board.java:317: a move
      after which the KING stands alone on the throne with BLACK on all four
      neighbours empties the throne; BLACK wins unless the position repeats. */
  lemma MakeMoveKingOnThroneCaptured(b: Board, from: Square, to: Square)
    requires IsSide(b.turn) && IsLegal(b, Move(from, to))
    requires Get(Relocate(b.grid, from, to), THRONE) == King
    requires forall s: Square :: Get(Relocate(b.grid, from, to), s) == King ==> s == THRONE
    requires AllFourBlack(Relocate(b.grid, from, to))
    ensures MakeMove(b, from, to).Success?
    ensures Get(MakeMove(b, from, to).value.grid, THRONE) == Empty
    ensures GridSymbols(MakeMove(b, from, to).value.grid) !in b.seen ==>
      MakeMove(b, from, to).value.winner == Some(Black)
  {
    var b1 := Shift(b, from, to);
    assert !NoKingAtThrone(b1.grid);
    var t := Throne(b1, to);
    ThroneCapturesSurroundedKing(b1, to);
    var b2 := Possible(b1, to).board;
    var f3 := Possible(b2, to);
    var b3 := CaptureAll(f3.board, to, f3.squares, 0);
    assert Resolve(b1, to) == b3;
    assert Resolves(t, b3) by {
      var c := Check(t, to);
      var l := PossibleLoop(c, to, FlankTargets(to), 0);
      assert b2 == l.board;
      ResolvesTrans(t, c, b2);
      ResolvesTrans(t, b2, f3.board);
      ResolvesTrans(t, f3.board, b3);
    }
    assert Get(b3.grid, THRONE) == Empty && b3.winner == Some(Black);
    MakeMoveRepetition(b, from, to);
  }

  /** The KING stands alone on the throne, some throne neighbour is not
      BLACK, and a side is to move: no capture rule can take the KING. */
  ghost predicate KingSafeOnThrone(b: Board) {
    && IsSide(b.turn) && LoneKing(b.grid, THRONE) && !AllFourBlack(b.grid)
  }

  /** Capture code that leaves the KING on the throne keeps it safe there:
      it only empties squares, so no KING appears and no throne neighbour
      turns BLACK. */
  lemma KingSafeKept(b: Board, r: Board)
    requires KingSafeOnThrone(b) && Resolves(b, r) && Get(r.grid, THRONE) == King
    ensures KingSafeOnThrone(r)
  {
    assert Get(r.grid, NTHRONE) == Get(b.grid, NTHRONE) || Get(r.grid, NTHRONE) == Empty;
    assert Get(r.grid, STHRONE) == Get(b.grid, STHRONE) || Get(r.grid, STHRONE) == Empty;
    assert Get(r.grid, ETHRONE) == Get(b.grid, ETHRONE) || Get(r.grid, ETHRONE) == Empty;
    assert Get(r.grid, WTHRONE) == Get(b.grid, WTHRONE) || Get(r.grid, WTHRONE) == Empty;
  }

  /** Board.throne leaves a safe KING on the throne: its flank captures take
      only WHITE pieces, and its own capture needs all four neighbours
      BLACK. */
  lemma ThroneKeepsSafeKing(b: Board, to: Square)
    requires KingSafeOnThrone(b)
    ensures KingSafeOnThrone(Throne(b, to))
  {
    var b1 := ThroneFlank(b, to, NTHRONE);
    var b2 := ThroneFlank(b1, to, STHRONE);
    var b3 := ThroneFlank(b2, to, ETHRONE);
    var b4 := ThroneFlank(b3, to, WTHRONE);
    ResolvesTrans(b, b1, b2);
    ResolvesTrans(b, b2, b3);
    ResolvesTrans(b, b3, b4);
    assert Get(b4.grid, THRONE) == King;
    KingSafeKept(b, b4);
    assert Throne(b, to) == b4;
  }

  /** One iteration of Board.possible leaves a safe KING on the throne: the
      KING test needs no KING at the throne, and the other two empty a
      square between `to` and `far` that holds a side's piece, or whose far
      end holds the KING and so is not the throne. */
  lemma PossibleAtKeepsSafeKing(b: Board, to: Square, far: Square)
    requires exists d: Dir :: RookMove(to, d, 2) == Some(far)
    requires KingSafeOnThrone(b)
    ensures KingSafeOnThrone(PossibleAt(b, to, far).board)
  {
    BetweenIsStrict(to, far);
    var t1 := KingFlank(b, to, far);
    assert t1.board == b;
    var t2 := Flank(t1.board, to, far);
    assert Get(t2.board.grid, THRONE) == King;
    KingSafeKept(b, t2.board);
    var t3 := DefenderFlank(t2.board, to, far);
    assert Get(t3.board.grid, THRONE) == King;
    KingSafeKept(t2.board, t3.board);
  }

  lemma {:induction false} PossibleLoopKeepsSafeKing(b: Board, to: Square, poss: seq<Square>, i: nat)
    requires i <= |poss|
    requires forall s :: s in poss ==> exists d: Dir :: RookMove(to, d, 2) == Some(s)
    requires KingSafeOnThrone(b)
    ensures KingSafeOnThrone(PossibleLoop(b, to, poss, i).board)
    decreases |poss| - i
  {
    if i < |poss| {
      PossibleLoopStep(b, to, poss, i);
      var f := PossibleAt(b, to, poss[i]).board;
      PossibleAtKeepsSafeKing(b, to, poss[i]);
      PossibleLoopKeepsSafeKing(f, to, poss, i + 1);
    } else {
      assert PossibleLoop(b, to, poss, i).board == b;
    }
  }

  /** One round of Board.possible's loop: the board after the far squares
      from `i` on is the board after those from `i + 1` on, started from
      the tests against `poss[i]`. */
  lemma PossibleLoopStep(b: Board, to: Square, poss: seq<Square>, i: nat)
    requires i < |poss|
    requires forall s :: s in poss ==> exists d: Dir :: RookMove(to, d, 2) == Some(s)
    ensures poss[i] in poss
    ensures PossibleLoop(b, to, poss, i).board
      == PossibleLoop(PossibleAt(b, to, poss[i]).board, to, poss, i + 1).board
  {
    assert poss[i] in poss;
  }

  /** Board.possible leaves a safe KING on the throne; Board.check does
      nothing while the throne is occupied. */
  lemma PossibleKeepsSafeKing(b: Board, to: Square)
    requires KingSafeOnThrone(b)
    ensures KingSafeOnThrone(Possible(b, to).board)
  {
    var b1 := Throne(b, to);
    ThroneKeepsSafeKing(b, to);
    assert Check(b1, to) == b1;
    PossibleLoopKeepsSafeKing(b1, to, FlankTargets(to), 0);
  }

  /** Board.capture leaves a safe KING on the throne: its KING captures need
      all four neighbours BLACK or an empty throne, and its ordinary capture
      takes a piece of a side. */
  lemma CaptureKeepsSafeKing(b: Board, sq0: Square, sq2: Square)
    requires KingSafeOnThrone(b)
    ensures KingSafeOnThrone(Capture(b, sq0, sq2))
  {
    var next := Between(sq0, sq2);
    var b1 := CaptureKingWhen(b, Get(b.grid, THRONE) == King && AllFourBlack(b.grid));
    assert b1 == b;
    var c := Get(b.grid, sq0) == b.turn && Get(b.grid, sq2) == b.turn && Get(b.grid, next) == b.turn.Opponent();
    var b2 := RemoveWhen(b1, c, next);
    assert Get(b2.grid, THRONE) == King;
    KingSafeKept(b, b2);
    assert Capture(b, sq0, sq2) == b2;
  }

  lemma {:induction false} CaptureAllKeepsSafeKing(b: Board, to: Square, list: seq<Square>, i: nat)
    requires i <= |list|
    requires KingSafeOnThrone(b)
    ensures KingSafeOnThrone(CaptureAll(b, to, list, i))
    decreases |list| - i
  {
    if i < |list| {
      CaptureKeepsSafeKing(b, to, list[i]);
      CaptureAllKeepsSafeKing(Capture(b, to, list[i]), to, list, i + 1);
    }
  }

  /** Converse of MakeMoveKingOnThroneCaptured (Board.java:311-332): a move
      after which the KING stands alone on the throne with some neighbour
      not BLACK succeeds and leaves the KING on the throne. */
  lemma MakeMoveKeepsKingOnThrone(b: Board, from: Square, to: Square)
    requires IsSide(b.turn) && IsLegal(b, Move(from, to))
    requires Get(Relocate(b.grid, from, to), THRONE) == King
    requires forall s: Square :: Get(Relocate(b.grid, from, to), s) == King ==> s == THRONE
    requires !AllFourBlack(Relocate(b.grid, from, to))
    ensures MakeMove(b, from, to).Success?
    ensures Get(MakeMove(b, from, to).value.grid, THRONE) == King
  {
    ResolveKeepsSafeKing(Shift(b, from, to), to);
    EscapeKeepsThroneKing(Resolved(b, from, to));
  }

  /** The corner check of Board.makeMove finds a KING alone on the throne,
      which is no corner, and changes no square. */
  lemma EscapeKeepsThroneKing(b: Board)
    requires LoneKing(b.grid, THRONE)
    ensures EscapeCheck(b).Success? && EscapeCheck(b).value.grid == b.grid
  {
    assert KingPosition(b.grid) == Some(THRONE);
  }

  /** The capture resolution of Board.makeMove leaves a safe KING on the
      throne: the first round is skipped, and the other two leave it. */
  lemma ResolveKeepsSafeKing(b: Board, to: Square)
    requires KingSafeOnThrone(b)
    ensures KingSafeOnThrone(Resolve(b, to))
  {
    assert !NoKingAtThrone(b.grid);
    PossibleKeepsSafeKing(b, to);
    var b2 := Possible(b, to).board;
    PossibleKeepsSafeKing(b2, to);
    var f3 := Possible(b2, to);
    CaptureAllKeepsSafeKing(f3.board, to, f3.squares, 0);
  }

  /** Board.java:479-486: when `to` and the far square two steps away both
      hold the mover and the square between holds the opponent and is not
      beside the throne, that square becomes EMPTY and nothing else on the
      board changes; otherwise the test changes nothing. */
  lemma FlankCapturesMiddle(b: Board, to: Square, d: Dir)
    requires RookMove(to, d, 2).Some?
    ensures RookMove(to, d, 1).Some?
    ensures var far := RookMove(to, d, 2).value;
      var mid := RookMove(to, d, 1).value;
      var r := Flank(b, to, far);
      && Between(to, far) == mid
      && (OrdinaryFlank(b, to, far) <==> r.added)
      && (OrdinaryFlank(b, to, far) ==>
            && Get(r.board.grid, mid) == Empty && Get(b.grid, mid) == b.turn.Opponent()
            && (forall s: Square :: s != mid ==> Get(r.board.grid, s) == Get(b.grid, s))
            && r.board.winner == b.winner && r.board.turn == b.turn && r.board.captured)
      && (!OrdinaryFlank(b, to, far) ==> r.board == b)
  {
    BetweenTwoApart(to, d);
  }

  // ------------------------------------------------- KING captured by BLACK

  /** BLACK is to move with no KING at or beside the throne, BLACK holds
      `to` and the square two steps away in direction `d`, and the square
      between them holds the KING, or is empty once BLACK has won. */
  ghost predicate KingFlanked(b: Board, to: Square, d: Dir)
    requires RookMove(to, d, 2).Some?
  {
    var far := RookMove(to, d, 2).value;
    var mid := Between(to, far);
    && b.turn == Black && NoKingAtThrone(b.grid)
    && Get(b.grid, to) == Black && Get(b.grid, far) == Black
    && (Get(b.grid, mid) == King || (Get(b.grid, mid) == Empty && b.winner == Some(Black)))
  }

  /** Capture code that leaves `to` and the far square BLACK, and takes the
      KING between them only with a BLACK win, keeps the flank. */
  lemma KingFlankedKept(b: Board, r: Board, to: Square, d: Dir)
    requires RookMove(to, d, 2).Some? && KingFlanked(b, to, d) && Resolves(b, r)
    requires Get(r.grid, to) == Black && Get(r.grid, RookMove(to, d, 2).value) == Black
    requires var mid := Between(to, RookMove(to, d, 2).value);
      Get(r.grid, mid) == King || r.winner == Some(Black)
    ensures KingFlanked(r, to, d)
  {
    assert Get(r.grid, THRONE) == Get(b.grid, THRONE) || Get(r.grid, THRONE) == Empty;
    assert Get(r.grid, NTHRONE) == Get(b.grid, NTHRONE) || Get(r.grid, NTHRONE) == Empty;
    assert Get(r.grid, STHRONE) == Get(b.grid, STHRONE) || Get(r.grid, STHRONE) == Empty;
    assert Get(r.grid, ETHRONE) == Get(b.grid, ETHRONE) || Get(r.grid, ETHRONE) == Empty;
    assert Get(r.grid, WTHRONE) == Get(b.grid, WTHRONE) || Get(r.grid, WTHRONE) == Empty;
  }

  /** Board.throne and Board.check keep the flank: the first does nothing
      without a KING on the throne, and the second takes only a WHITE piece
      while BLACK moves and no KING is beside the throne. */
  lemma ThroneCheckKeepFlank(b: Board, to: Square, d: Dir)
    requires RookMove(to, d, 2).Some? && KingFlanked(b, to, d)
    ensures KingFlanked(Check(Throne(b, to), to), to, d)
  {
    assert Throne(b, to) == b;
    var c := Check(b, to);
    if Get(b.grid, THRONE) == Empty {
      assert CheckBlack(b, to).grid == b.grid || CheckBlack(b, to) == Remove(b, Between(THRONE, to));
    }
    KingFlankedKept(b, c, to, d);
  }

  /** One iteration of Board.possible keeps the flank, and the iteration
      over its own far square takes the KING (Board.java:470-478): the
      ordinary test takes only WHITE, and the defenders' test needs `to`
      WHITE or KING. */
  lemma PossibleAtKeepsFlank(b: Board, to: Square, d: Dir, sq: Square)
    requires RookMove(to, d, 2).Some? && KingFlanked(b, to, d)
    requires exists e: Dir :: RookMove(to, e, 2) == Some(sq)
    ensures var r := PossibleAt(b, to, sq).board;
      var mid := Between(to, RookMove(to, d, 2).value);
      && KingFlanked(r, to, d)
      && (Get(b.grid, mid) == Empty || sq == RookMove(to, d, 2).value ==> Get(r.grid, mid) == Empty)
  {
    var t1 := KingFlank(b, to, sq);
    KingFlankedKept(b, t1.board, to, d);
    var t2 := Flank(t1.board, to, sq);
    KingFlankedKept(t1.board, t2.board, to, d);
    var t3 := DefenderFlank(t2.board, to, sq);
    assert t3.board == t2.board;
  }

  lemma {:induction false} PossibleLoopKeepsFlank(b: Board, to: Square, d: Dir, poss: seq<Square>, i: nat)
    requires RookMove(to, d, 2).Some? && KingFlanked(b, to, d)
    requires i <= |poss|
    requires forall s :: s in poss ==> exists e: Dir :: RookMove(to, e, 2) == Some(s)
    ensures var r := PossibleLoop(b, to, poss, i).board;
      var mid := Between(to, RookMove(to, d, 2).value);
      && KingFlanked(r, to, d)
      && (Get(b.grid, mid) == Empty || RookMove(to, d, 2).value in poss[i..] ==> Get(r.grid, mid) == Empty)
    decreases |poss| - i
  {
    if i < |poss| {
      assert poss[i] in poss;
      var f := PossibleAt(b, to, poss[i]).board;
      PossibleAtKeepsFlank(b, to, d, poss[i]);
      PossibleLoopKeepsFlank(f, to, d, poss, i + 1);
      assert PossibleLoop(b, to, poss, i).board == PossibleLoop(f, to, poss, i + 1).board;
      assert RookMove(to, d, 2).value in poss[i..] ==>
        RookMove(to, d, 2).value == poss[i] || RookMove(to, d, 2).value in poss[i + 1..];
    }
  }

  /** Board.java:470-478: with BLACK to move and no KING at or beside the
      throne, a KING between the BLACK piece on `to` and another BLACK piece
      two steps away is taken by Board.possible, and BLACK wins. */
  lemma PossibleCapturesFlankedKing(b: Board, to: Square, d: Dir)
    requires RookMove(to, d, 2).Some?
    requires b.turn == Black && NoKingAtThrone(b.grid)
    requires Get(b.grid, to) == Black && Get(b.grid, RookMove(to, d, 2).value) == Black
    requires RookMove(to, d, 1).Some? && Get(b.grid, RookMove(to, d, 1).value) == King
    ensures var r := Possible(b, to).board;
      Get(r.grid, RookMove(to, d, 1).value) == Empty && r.winner == Some(Black)
  {
    BetweenTwoApart(to, d);
    var c := Check(Throne(b, to), to);
    ThroneCheckKeepFlank(b, to, d);
    PossibleLoopKeepsFlank(c, to, d, FlankTargets(to), 0);
  }

  /** The capture resolution of Board.makeMove takes such a KING: the first
      round of possible(to) runs because no KING is at the throne, and the
      later rounds only empty squares. */
  lemma ResolveCapturesFlankedKing(b: Board, to: Square, d: Dir)
    requires RookMove(to, d, 2).Some?
    requires b.turn == Black && NoKingAtThrone(b.grid)
    requires Get(b.grid, to) == Black && Get(b.grid, RookMove(to, d, 2).value) == Black
    requires RookMove(to, d, 1).Some? && Get(b.grid, RookMove(to, d, 1).value) == King
    ensures var r := Resolve(b, to);
      Get(r.grid, RookMove(to, d, 1).value) == Empty && r.winner == Some(Black)
  {
    PossibleCapturesFlankedKing(b, to, d);
    var f := Possible(b, to);
    var c := CaptureAll(f.board, to, f.squares, 0);
    var b2 := Possible(c, to).board;
    var f3 := Possible(b2, to);
    var b3 := CaptureAll(f3.board, to, f3.squares, 0);
    assert Resolve(b, to) == b3;
    ResolvesTrans(f.board, c, b2);
    ResolvesTrans(f.board, b2, f3.board);
    ResolvesTrans(f.board, f3.board, b3);
  }

  /** BLACK's ordinary win (Board.java:311-315 with 470-478): a BLACK move
      to `to` after which, with no KING at or beside the throne, the KING
      stands between `to` and another BLACK piece takes the KING; BLACK
      wins unless the position repeats. */
  lemma MakeMoveCapturesFlankedKing(b: Board, from: Square, to: Square, d: Dir)
    requires b.turn == Black && IsLegal(b, Move(from, to))
    requires RookMove(to, d, 2).Some? && RookMove(to, d, 1).Some?
    requires var g := Relocate(b.grid, from, to);
      && NoKingAtThrone(g)
      && Get(g, RookMove(to, d, 2).value) == Black && Get(g, RookMove(to, d, 1).value) == King
    ensures MakeMove(b, from, to).Success?
    ensures Get(MakeMove(b, from, to).value.grid, RookMove(to, d, 1).value) == Empty
    ensures GridSymbols(MakeMove(b, from, to).value.grid) !in b.seen ==>
      MakeMove(b, from, to).value.winner == Some(Black)
  {
    ShiftFlanksKing(b, from, to);
    ResolveCapturesFlankedKing(Shift(b, from, to), to, d);
    MakeMoveRepetition(b, from, to);
  }

  /** After the piece moves, BLACK holds `to`: a legal BLACK move moves a
      BLACK piece to a different square. */
  lemma ShiftFlanksKing(b: Board, from: Square, to: Square)
    requires b.turn == Black && IsLegal(b, Move(from, to))
    ensures Shift(b, from, to).turn == Black && Get(Shift(b, from, to).grid, to) == Black
  {
    assert Get(b.grid, from) == Black && IsRookMove(from, to);
  }

  /** The squares next to throne neighbour `x` other than the throne. */
  predicate HemmedBesideThrone(g: Grid, x: Square) {
    forall d: Dir :: RookMove(x, d, 1).Some? && RookMove(x, d, 1).value != THRONE ==>
      Get(g, RookMove(x, d, 1).value) == Black
  }

  /** Board.java:393-425: beside the empty throne, BLACK to move takes the
      lone KING exactly when BLACK holds the three other squares next to it
      (not a two-sided flank), and then BLACK wins. */
  lemma CheckCapturesKingBesideThrone(b: Board, to: Square, x: Square)
    requires b.turn == Black && Get(b.grid, THRONE) == Empty
    requires IsThroneNeighbour(x) && LoneKing(b.grid, x)
    ensures Get(Check(b, to).grid, x) == Empty <==> HemmedBesideThrone(b.grid, x)
    ensures Check(b, to).winner == Some(Black) <==> HemmedBesideThrone(b.grid, x) || b.winner == Some(Black)
  {
    HemmedByNeighbours(b.grid, x);
    CodedSquaresAreNeighbours(x);
    CheckBlackBesideThrone(b, to, x);
    assert Check(b, to) == CheckBlack(b, to);
  }

  /** The three squares Board.java:394-425 tests around throne neighbour
      `x` all hold BLACK. */
  predicate CodedHemmed(g: Grid, x: Square)
    requires IsThroneNeighbour(x)
  {
    if x == NTHRONE then
      Get(g, Step(THRONE, 0, 2)) == Black && Get(g, Step(NTHRONE, 1, 1)) == Black && Get(g, Step(NTHRONE, 3, 1)) == Black
    else if x == STHRONE then
      Get(g, Step(THRONE, 2, 2)) == Black && Get(g, Step(STHRONE, 3, 1)) == Black && Get(g, Step(STHRONE, 1, 1)) == Black
    else if x == ETHRONE then
      Get(g, Step(THRONE, 1, 2)) == Black && Get(g, Step(ETHRONE, 0, 1)) == Black && Get(g, Step(ETHRONE, 2, 1)) == Black
    else
      Get(g, Step(THRONE, 3, 2)) == Black && Get(g, Step(WTHRONE, 0, 1)) == Black && Get(g, Step(WTHRONE, 2, 1)) == Black
  }

  /** The BLACK part of Board.check takes a lone KING beside the throne
      exactly when the three squares it tests hold BLACK. */
  lemma CheckBlackBesideThrone(b: Board, to: Square, x: Square)
    requires b.turn == Black && IsThroneNeighbour(x) && LoneKing(b.grid, x)
    ensures Get(CheckBlack(b, to).grid, x) == Empty <==> CodedHemmed(b.grid, x)
    ensures CheckBlack(b, to).winner == if CodedHemmed(b.grid, x) then Some(Black) else b.winner
  {
    CheckKingTakes(b, x);
    var k := CheckKing(b);
    var r := CheckBlack(b, to);
    assert Get(r.grid, x) == Get(k.grid, x) && r.winner == k.winner;
  }

  /** The KING tests of Board.check take a lone KING on throne neighbour
      `x` exactly when the three squares tested for it hold BLACK. */
  lemma CheckKingTakes(b: Board, x: Square)
    requires b.turn == Black && IsThroneNeighbour(x) && LoneKing(b.grid, x)
    ensures Get(CheckKing(b).grid, x) == if CodedHemmed(b.grid, x) then Empty else King
    ensures CheckKing(b).winner == if CodedHemmed(b.grid, x) then Some(Black) else b.winner
  {
    assert x != NTHRONE ==> Get(b.grid, NTHRONE) != King;
    assert x != STHRONE ==> Get(b.grid, STHRONE) != King;
    assert x != ETHRONE ==> Get(b.grid, ETHRONE) != King;
  }

  /** The three squares Board.java:394-425 reads around each throne
      neighbour are its neighbours other than the throne. */
  lemma CodedSquaresAreNeighbours(x: Square)
    requires IsThroneNeighbour(x)
    ensures x == NTHRONE ==>
      RookMove(x, 2, 1) == Some(THRONE) && RookMove(x, 0, 1) == Some(Step(THRONE, 0, 2))
    ensures x == STHRONE ==>
      RookMove(x, 0, 1) == Some(THRONE) && RookMove(x, 2, 1) == Some(Step(THRONE, 2, 2))
    ensures x == ETHRONE ==>
      RookMove(x, 3, 1) == Some(THRONE) && RookMove(x, 1, 1) == Some(Step(THRONE, 1, 2))
    ensures x == WTHRONE ==>
      RookMove(x, 1, 1) == Some(THRONE) && RookMove(x, 3, 1) == Some(Step(THRONE, 3, 2))
  {
  }

  /** The four neighbours of a throne neighbour are on the board, and it is
      hemmed in when each of them is the throne or BLACK. */
  lemma HemmedByNeighbours(g: Grid, x: Square)
    requires IsThroneNeighbour(x)
    ensures forall d: Dir :: RookMove(x, d, 1).Some?
    ensures HemmedBesideThrone(g, x) <==>
      && (RookMove(x, 0, 1).value == THRONE || Get(g, RookMove(x, 0, 1).value) == Black)
      && (RookMove(x, 1, 1).value == THRONE || Get(g, RookMove(x, 1, 1).value) == Black)
      && (RookMove(x, 2, 1).value == THRONE || Get(g, RookMove(x, 2, 1).value) == Black)
      && (RookMove(x, 3, 1).value == THRONE || Get(g, RookMove(x, 3, 1).value) == Black)
  {
  }

  /** Moving the piece on `to` back to `from` and emptying `to` undoes a
      relocation onto an empty square. */
  lemma RelocateUndone(g: Grid, from: Square, to: Square)
    requires from != to && Get(g, to) == Empty
    ensures var h := Relocate(g, from, to);
      Put(Put(h, Get(h, to), from), Empty, to) == g
  {
    var h := Relocate(g, from, to);
    var u := Put(Put(h, Get(h, to), from), Empty, to);
    forall s: Square
      ensures Get(u, s) == Get(g, s)
    {
    }
    GridExt(u, g);
  }

  /** Undo of a board whose last move relocated a piece and captured
      nothing, unless it is a repetition within the first two moves. */
  lemma UndoOfUncapturingMove(r: Board, g: Grid, from: Square, to: Square)
    requires from != to && Get(g, to) == Empty
    requires r.moveCount > 0 && !r.captured && (!r.repeated || r.moveCount > 2)
    requires r.moves != [] && r.moves[|r.moves| - 1] == Move(from, to)
    requires r.grid == Relocate(g, from, to)
    ensures Undo(r).Success?
    ensures Undo(r).value.grid == g && Undo(r).value.moves == r.moves[..|r.moves| - 1]
    ensures Undo(r).value.moveCount == r.moveCount - 1 && Undo(r).value.turn == r.turn
  {
    RelocateUndone(g, from, to);
  }

  /** A move whose capture flag stays down changed the grid by the
      relocation alone. */
  lemma MakeMoveWithoutCapture(b: Board, from: Square, to: Square)
    requires IsSide(b.turn) && IsLegal(b, Move(from, to))
    requires MakeMove(b, from, to).Success? && !MakeMove(b, from, to).value.captured
    ensures MakeMove(b, from, to).value.grid == Relocate(b.grid, from, to)
  {
    var rb := Resolved(b, from, to);
    var e := EscapeCheck(rb).value;
    assert e.captured == rb.captured && e.grid == rb.grid;
  }

  /** A legal move that captured nothing, and did not repeat a position
      within the first two moves, is undone on the grid: the piece goes
      back and the move count with it, but the turn stays with the
      opponent of the mover. */
  lemma MakeMoveThenUndo(b: Board, from: Square, to: Square)
    requires IsSide(b.turn) && IsLegal(b, Move(from, to))
    requires MakeMove(b, from, to).Success?
    requires !MakeMove(b, from, to).value.captured
    requires !MakeMove(b, from, to).value.repeated || MakeMove(b, from, to).value.moveCount > 2
    ensures Undo(MakeMove(b, from, to).value).Success?
    ensures var u := Undo(MakeMove(b, from, to).value).value;
      u.grid == b.grid && u.moveCount == b.moveCount && u.moves == b.moves
      && u.turn == b.turn.Opponent()
  {
    MakeMoveWithoutCapture(b, from, to);
    assert from != to && Get(b.grid, to) == Empty by {
      IsLegalIff(b, Move(from, to));
    }
    UndoRestoresMover(MakeMove(b, from, to).value, b, from, to);
  }

  /** The step of MakeMoveThenUndo once the move is known to have only
      relocated a piece and extended the move list of `b`. */
  lemma UndoRestoresMover(r: Board, b: Board, from: Square, to: Square)
    requires from != to && Get(b.grid, to) == Empty
    requires r.grid == Relocate(b.grid, from, to) && r.moves == b.moves + [Move(from, to)]
    requires r.moveCount == b.moveCount + 1 && r.turn == b.turn.Opponent()
    requires !r.captured && (!r.repeated || r.moveCount > 2)
    ensures Undo(r).Success?
    ensures var u := Undo(r).value;
      u.grid == b.grid && u.moveCount == b.moveCount && u.moves == b.moves
      && u.turn == b.turn.Opponent()
  {
    assert r.moves[..|r.moves| - 1] == b.moves;
    UndoOfUncapturingMove(r, b.grid, from, to);
  }

  /** Undo as written does not give the position back: the encoding after
      a move and its undo differs from the one before in its first
      character, the side to move. */
  lemma UndoLeavesTurnFlipped(b: Board, from: Square, to: Square)
    requires IsSide(b.turn) && IsLegal(b, Move(from, to))
    requires MakeMove(b, from, to).Success?
    requires Undo(MakeMove(b, from, to).value).Success?
    ensures var u := Undo(MakeMove(b, from, to).value).value;
      Encode(u.turn, u.grid) != Encode(b.turn, b.grid)
  {
    var u := Undo(MakeMove(b, from, to).value).value;
    EncodeInjective(u.turn, u.grid, b.turn, b.grid);
  }

  /** With the turn given back, a legal move that captured nothing, and did
      not repeat a position within the first two moves, is undone exactly:
      the encoding is the one before the move. */
  lemma UndoIntendedRoundTrip(b: Board, from: Square, to: Square)
    requires IsSide(b.turn) && IsLegal(b, Move(from, to))
    requires MakeMove(b, from, to).Success?
    requires !MakeMove(b, from, to).value.captured
    requires !MakeMove(b, from, to).value.repeated || MakeMove(b, from, to).value.moveCount > 2
    ensures UndoIntended(MakeMove(b, from, to).value).Success?
    ensures var u := UndoIntended(MakeMove(b, from, to).value).value;
      Encode(u.turn, u.grid) == Encode(b.turn, b.grid) && u.moveCount == b.moveCount
  {
    MakeMoveThenUndo(b, from, to);
    UndoIntendedGivesTurnBack(MakeMove(b, from, to).value, b);
  }

  /** The step of UndoIntendedRoundTrip after the grid is restored: giving
      the turn back makes the encoding the earlier one. */
  lemma UndoIntendedGivesTurnBack(r: Board, b: Board)
    requires IsSide(b.turn) && r.moveCount > 0
    requires Undo(r).Success? && Undo(r).value.grid == b.grid
    requires Undo(r).value.moveCount == b.moveCount && Undo(r).value.turn == b.turn.Opponent()
    ensures UndoIntended(r).Success?
    ensures var u := UndoIntended(r).value;
      Encode(u.turn, u.grid) == Encode(b.turn, b.grid) && u.moveCount == b.moveCount
  {
  }
}
