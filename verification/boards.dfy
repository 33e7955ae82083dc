/** The Tablut board state machine of Board.java, as an immutable record:
    set-up, the move-limit setter, move legality, legal-move enumeration,
    repetition bookkeeping, undo.  Move application with capture resolution
    is in module Captures. */
module Boards {
  import opened Wrappers
  import opened Primitives
  import opened Grids

  /** Exceptions the Java code can throw. */
  datatype Fault =
    | IllegalArgument   // setMoveLimit with 2*n <= moveCount
    | NullPointer       // kingPosition() returned null and was dereferenced
    | EmptyStack        // undo popped an empty undo stack

  /** The fields of a Java Board. */
  datatype Board = Board(
    grid: Grid,
    turn: Piece,               // side to move, BLACK or WHITE
    winner: Option<Piece>,     // None while the game goes on
    moveCount: nat,
    repeated: bool,
    moveLimit: int,            // stored, never read
    undoPieces: seq<Piece>,    // _allPiece: previous occupants, top at the end
    undoSquares: seq<Square>,  // _allSquare: squares written, parallel to undoPieces
    moves: seq<Move>,          // _allMoves
    seen: set<string>,         // encodings of positions already recorded
    captured: bool)            // set by every capture of the current move

  /** Initial attacker (BLACK) squares (Board.java:36-41). */
  const INITIAL_ATTACKERS: seq<Square> := [
    Loc(0, 3), Loc(0, 4), Loc(0, 5), Loc(1, 4),
    Loc(8, 3), Loc(8, 4), Loc(8, 5), Loc(7, 4),
    Loc(3, 0), Loc(4, 0), Loc(5, 0), Loc(4, 1),
    Loc(3, 8), Loc(4, 8), Loc(5, 8), Loc(4, 7)]

  /** Initial defender (WHITE) squares (Board.java:46-49). */
  const INITIAL_DEFENDERS: seq<Square> := [
    NTHRONE, ETHRONE, STHRONE, WTHRONE,
    Loc(4, 6), Loc(4, 2), Loc(2, 4), Loc(6, 4)]

  /** What Board.init puts on a square; later assignments in its loop win. */
  function InitialPiece(s: Square): Piece {
    if s == THRONE then King
    else if s in INITIAL_DEFENDERS then White
    else if s in INITIAL_ATTACKERS then Black
    else Empty
  }

  function InitialGrid(): (g: Grid)
    ensures forall s: Square :: Get(g, s) == InitialPiece(s)
  {
    seq(SIZE, c requires 0 <= c < SIZE => seq(SIZE, r requires 0 <= r < SIZE => InitialPiece(Loc(c, r))))
  }

  /** A freshly constructed board (`new Board()`): Java defaults for the
      fields init() does not set, then init(). */
  function NewBoard(): (b: Board)
    ensures forall s: Square :: Get(b.grid, s) == King <==> s == THRONE
    ensures forall s: Square :: Get(b.grid, s) == White <==> s in INITIAL_DEFENDERS
    ensures forall s: Square :: Get(b.grid, s) == Black <==> s in INITIAL_ATTACKERS
    ensures b.turn == Black && b.winner == None && b.moveCount == 0 && !b.repeated
    ensures b.seen == {} && b.moves == [] && b.undoPieces == [] && b.undoSquares == []
  {
    Board(InitialGrid(), Black, None, 0, false, 0, [], [], [], {}, false)
  }

  /** Board.init on an existing board: back to the initial position with an
      empty history; the move limit and the capture flag are not touched. */
  function Init(b: Board): (r: Board)
    ensures forall s: Square :: Get(r.grid, s) == InitialPiece(s)
    ensures r.turn == Black && r.winner == None && r.moveCount == 0 && !r.repeated
    ensures r.seen == {} && r.moves == [] && r.undoPieces == [] && r.undoSquares == []
    ensures r.moveLimit == b.moveLimit && r.captured == b.captured
  {
    NewBoard().(moveLimit := b.moveLimit, captured := b.captured)
  }

  /** `new Board(model)`: a fresh board that takes over the grid, turn,
      move count, repetition flag and winner of `model` but starts with an
      empty position set and empty undo stacks (Board.java:70-85). */
  function Copy(model: Board): (r: Board)
    ensures r.grid == model.grid && r.turn == model.turn && r.winner == model.winner
    ensures r.moveCount == model.moveCount && r.repeated == model.repeated
    ensures r.seen == {} && r.moves == [] && r.undoPieces == [] && r.undoSquares == []
    ensures !r.captured && r.moveLimit == 0
    ensures Encode(r.turn, r.grid) == Encode(model.turn, model.grid)
  {
    // init() on a fresh board followed by the copied fields; the move limit
    // and the capture flag keep the Java defaults.
    Board(model.grid, model.turn, model.winner, model.moveCount, model.repeated, 0, [], [], [], {}, false)
  }

  /** Board.setMoveLimit as written: `2 * n` is evaluated in 32-bit
      arithmetic, so a large `n` wraps to a negative product. */
  function SetMoveLimit(b: Board, n: int): (r: Result<Board, Fault>)
    requires IsInt32(n)
    ensures r.Failure? <==> Wrap32(2 * n) <= b.moveCount
    ensures r.Failure? ==> r.error == IllegalArgument
    ensures r.Success? ==> r.value == b.(moveLimit := n)
  {
    if Wrap32(2 * n) <= b.moveCount then Failure(IllegalArgument)
    else Success(b.(moveLimit := n))
  }

  /** The move-limit setter as documented: it refuses exactly the limits of
      which twice the value does not exceed the moves already made. */
  function SetMoveLimitIntended(b: Board, n: int): (r: Result<Board, Fault>)
    requires IsInt32(n)
    ensures r.Failure? <==> 2 * n <= b.moveCount
    ensures r.Success? ==> r.value.moveLimit == n && r.value.(moveLimit := b.moveLimit) == b
  {
    if 2 * n <= b.moveCount then Failure(IllegalArgument)
    else Success(b.(moveLimit := n))
  }

  /** The two setters differ: with n = 2^30 the product wraps to -2^31, so
      the source rejects a limit far beyond any move count. */
  lemma SetMoveLimitOverflows()
    ensures SetMoveLimit(NewBoard(), 0x4000_0000).Failure?
    ensures SetMoveLimitIntended(NewBoard(), 0x4000_0000).Success?
  {
    assert Wrap32(2 * 0x4000_0000) == INT_MIN;
  }

  /** Both setters agree whenever `2 * n` fits in a Java int. */
  lemma SetMoveLimitAgreesWithoutOverflow(b: Board, n: int)
    requires IsInt32(n) && IsInt32(2 * n)
    ensures SetMoveLimit(b, n) == SetMoveLimitIntended(b, n)
  {
  }

  // ---------------------------------------------------------------- legality

  predicate Within(x: int, a: int, b: int) {
    (a <= x <= b) || (b <= x <= a)
  }

  /** `s` is one of the squares a rook passes over or lands on when going
      from `from` to `to`: every square after `from`, up to and including `to`. */
  predicate OnPath(from: Square, to: Square, s: Square) {
    s != from &&
    ((from.col == to.col && s.col == from.col && Within(s.row, from.row, to.row)) ||
     (from.row == to.row && s.row == from.row && Within(s.col, from.col, to.col)))
  }

  /** `to` lies `Distance(cur, to)` steps from `cur` in direction `d`. */
  predicate Ahead(cur: Square, to: Square, d: Dir) {
    to.col - cur.col == DCol(d) * Distance(cur, to) &&
    to.row - cur.row == DRow(d) * Distance(cur, to)
  }

  /** The walk of Board.isUnblockedMove: step from `cur` towards `to` and
      fail on the first occupied square. */
  function PathClear(g: Grid, cur: Square, to: Square, d: Dir): (r: bool)
    requires Ahead(cur, to, d)
    ensures r <==> forall s: Square :: OnPath(cur, to, s) ==> Get(g, s) == Empty
    decreases Distance(cur, to)
  {
    if cur == to then
      assert forall s: Square :: !OnPath(cur, to, s);
      true
    else
      var next := RookMove(cur, d, 1);
      PathStep(cur, to, d);
      if Get(g, next.value) != Empty then false
      else PathClear(g, next.value, to, d)
  }

  /** One step of the walk: the next square is on the board, still behind
      `to`, and the path from `cur` is that square followed by the path
      from it. */
  lemma PathStep(cur: Square, to: Square, d: Dir)
    requires Ahead(cur, to, d) && cur != to
    ensures RookMove(cur, d, 1).Some?
    ensures var next := RookMove(cur, d, 1).value;
      && Ahead(next, to, d) && Distance(next, to) < Distance(cur, to)
      && forall s: Square :: OnPath(cur, to, s) <==> s == next || OnPath(next, to, s)
  {
    var n := Distance(cur, to);
    if d == 0 {
      assert to.col == cur.col && to.row == cur.row + n;
    } else if d == 1 {
      assert to.row == cur.row && to.col == cur.col + n;
    } else if d == 2 {
      assert to.col == cur.col && to.row == cur.row - n;
    } else {
      assert to.row == cur.row && to.col == cur.col - n;
    }
    var next := RookMove(cur, d, 1);
    assert next.Some?;
    forall s: Square
      ensures OnPath(cur, to, s) <==> s == next.value || OnPath(next.value, to, s)
    {
    }
  }

  /** Board.isUnblockedMove: a rook move whose squares after `from` are all
      empty. */
  function IsUnblockedMove(g: Grid, from: Square, to: Square): (r: bool)
    ensures r <==> IsRookMove(from, to) && forall s: Square :: OnPath(from, to, s) ==> Get(g, s) == Empty
  {
    if Get(g, to) != Empty then
      assert IsRookMove(from, to) ==> OnPath(from, to, to);
      false
    else if !IsRookMove(from, to) then false
    else PathClear(g, from, to, Direction(from, to))
  }

  /** Board.isLegal(from, to): the piece on `from` is the side to move, or is
      the KING while WHITE moves, and the rook move is unblocked. */
  function IsLegal(b: Board, m: Move): bool {
    var p := Get(b.grid, m.from);
    if p == b.turn || (p == King && b.turn == White) then IsUnblockedMove(b.grid, m.from, m.to)
    else false
  }

  /** A move is legal exactly when the mover may move the piece on `from`,
      `from`-`to` is a rook move, and every square after `from` up to and
      including `to` is empty. */
  lemma IsLegalIff(b: Board, m: Move)
    ensures IsLegal(b, m) <==>
      && (Get(b.grid, m.from) == b.turn || (Get(b.grid, m.from) == King && b.turn == White))
      && IsRookMove(m.from, m.to)
      && Get(b.grid, m.to) == Empty
      && forall s: Square :: OnPath(m.from, m.to, s) ==> Get(b.grid, s) == Empty
  {
    assert IsRookMove(m.from, m.to) ==> OnPath(m.from, m.to, m.to);
  }

  // ------------------------------------------------------------ enumeration

  /** The test legalMoves applies to each candidate: isLegal, which judges
      for the side to move. */
  function LegalTest(b: Board): Move -> bool {
    m => IsLegal(b, m)
  }

  /** `[m]` when `m` passes the test, else nothing: one `if (isLegal) lst.add`. */
  function Keep(keep: Move -> bool, m: Move): (r: seq<Move>)
    ensures forall x :: x in r <==> x == m && keep(m)
  {
    if keep(m) then [m] else []
  }

  /** The moves Board.legalMoves emits for the piece on `s` from iteration
      (y, x) of its nested loops on: at each iteration the row target
      (y, s.row) and then the column target (s.col, x), each kept when it
      passes the test. */
  function Candidates(keep: Move -> bool, s: Square, y: nat, x: nat): (r: seq<Move>)
    requires y <= SIZE && x <= SIZE
    decreases SIZE - y, SIZE - x
  {
    if y == SIZE then []
    else if x == SIZE then Candidates(keep, s, y + 1, 0)
    else Keep(keep, Move(s, Loc(y, s.row))) + Keep(keep, Move(s, Loc(s.col, x))) + Candidates(keep, s, y, x + 1)
  }

  /** Every candidate starts on `s` and passes the test. */
  lemma {:induction false} CandidatesSound(keep: Move -> bool, s: Square, y: nat, x: nat)
    requires y <= SIZE && x <= SIZE
    ensures forall m :: m in Candidates(keep, s, y, x) ==> m.from == s && keep(m)
    decreases SIZE - y, SIZE - x
  {
    if y == SIZE {
    } else if x == SIZE {
      CandidatesSound(keep, s, y + 1, 0);
    } else {
      CandidatesSound(keep, s, y, x + 1);
    }
  }

  /** Every move along the row or column of `s` that passes the test and
      whose target the loops have still to visit is emitted. */
  lemma {:induction false} CandidatesComplete(keep: Move -> bool, s: Square, y: nat, x: nat, t: Square)
    requires y <= SIZE && x <= SIZE
    requires keep(Move(s, t))
    requires (t.row == s.row && (y < t.col || (y == t.col && x < SIZE)))
          || (t.col == s.col && y < SIZE && (x <= t.row || y + 1 < SIZE))
    ensures Move(s, t) in Candidates(keep, s, y, x)
    decreases SIZE - y, SIZE - x
  {
    if x == SIZE {
      CandidatesComplete(keep, s, y + 1, 0, t);
    } else {
      var here := Keep(keep, Move(s, Loc(y, s.row))) + Keep(keep, Move(s, Loc(s.col, x)));
      var rest := Candidates(keep, s, y, x + 1);
      assert Candidates(keep, s, y, x) == here + rest;
      if y == t.col && t.row == s.row {
        assert Move(s, t) in here;
      } else if x == t.row && t.col == s.col {
        assert Move(s, t) in here;
      } else {
        CandidatesComplete(keep, s, y, x + 1, t);
        assert Move(s, t) in rest;
      }
    }
  }

  /** Every legal move from `s` is among the candidates tried for `s`. */
  lemma CandidatesContainLegal(b: Board, s: Square, t: Square)
    requires IsLegal(b, Move(s, t))
    ensures Move(s, t) in Candidates(LegalTest(b), s, 0, 0)
  {
    LegalIsRookMove(b, Move(s, t));
    CandidatesComplete(LegalTest(b), s, 0, 0, t);
  }

  /** A legal move is a rook move. */
  lemma LegalIsRookMove(b: Board, m: Move)
    requires IsLegal(b, m)
    ensures IsRookMove(m.from, m.to)
  {
  }

  /** How often the loops emit a move to `t` along the row of its piece
      from iteration (y, x) on: once per inner iteration of the outer
      iteration y == t.col. */
  function RowCount(t: Square, y: nat, x: nat): int {
    if y < t.col then SIZE else if y == t.col then SIZE - x else 0
  }

  /** How often the loops emit a move to `t` along the column of its piece
      from iteration (y, x) on: once per outer iteration, at x == t.row. */
  function ColumnCount(t: Square, y: nat, x: nat): int {
    if y >= SIZE then 0 else SIZE - y - 1 + (if x <= t.row then 1 else 0)
  }

  /** How many times `n` occurs in `ms`. */
  function Occurrences(ms: seq<Move>, n: Move): nat {
    if ms == [] then 0 else (if ms[0] == n then 1 else 0) + Occurrences(ms[1..], n)
  }

  lemma {:induction false} OccurrencesAppend(a: seq<Move>, c: seq<Move>, n: Move)
    ensures Occurrences(a + c, n) == Occurrences(a, n) + Occurrences(c, n)
  {
    if a == [] {
      assert a + c == c;
    } else {
      assert (a + c)[1..] == a[1..] + c;
      OccurrencesAppend(a[1..], c, n);
    }
  }

  /** Occurrences counts exactly the multiplicity in the multiset of `ms`. */
  lemma {:induction false} OccurrencesIsMultiplicity(ms: seq<Move>, n: Move)
    ensures Occurrences(ms, n) == multiset(ms)[n]
  {
    if ms != [] {
      assert ms == [ms[0]] + ms[1..];
      OccurrencesIsMultiplicity(ms[1..], n);
    }
  }

  /** One inner iteration adds one to the count of a move to `t` that
      passes the test for each of its two targets that is `t`. */
  lemma CandidatesStep(keep: Move -> bool, s: Square, y: nat, x: nat, t: Square)
    requires y < SIZE && x < SIZE && keep(Move(s, t))
    ensures Occurrences(Candidates(keep, s, y, x), Move(s, t))
         == (if Loc(y, s.row) == t then 1 else 0) + (if Loc(s.col, x) == t then 1 else 0)
          + Occurrences(Candidates(keep, s, y, x + 1), Move(s, t))
  {
    var n := Move(s, t);
    var r, c := Keep(keep, Move(s, Loc(y, s.row))), Keep(keep, Move(s, Loc(s.col, x)));
    var rest := Candidates(keep, s, y, x + 1);
    assert Candidates(keep, s, y, x) == r + (c + rest);
    OccurrencesAppend(r, c + rest, n);
    OccurrencesAppend(c, rest, n);
    assert Occurrences(r, n) == if Loc(y, s.row) == t then 1 else 0;
    assert Occurrences(c, n) == if Loc(s.col, x) == t then 1 else 0;
  }

  /** The outer loop moves on to the next row target. */
  lemma CandidatesWrap(keep: Move -> bool, s: Square, y: nat)
    requires y < SIZE
    ensures Candidates(keep, s, y, SIZE) == Candidates(keep, s, y + 1, 0)
  {
  }

  /** The row count drops by one at each inner iteration of the outer
      iteration y == t.col, and carries over between outer iterations. */
  lemma RowCountNext(t: Square, y: nat, x: nat)
    requires y < SIZE && x <= SIZE
    ensures x < SIZE ==> RowCount(t, y, x) == (if y == t.col then 1 else 0) + RowCount(t, y, x + 1)
    ensures x == SIZE ==> RowCount(t, y, x) == RowCount(t, y + 1, 0)
  {
  }

  /** The column count drops by one exactly at x == t.row, and carries
      over from the end of one outer iteration to the start of the next. */
  lemma ColumnCountNext(t: Square, y: nat, x: nat)
    requires y < SIZE && x <= SIZE
    ensures x < SIZE ==> ColumnCount(t, y, x) == (if x == t.row then 1 else 0) + ColumnCount(t, y, x + 1)
    ensures x == SIZE ==> ColumnCount(t, y, x) == ColumnCount(t, y + 1, 0)
  {
  }

  /** The count of a row move still to come. */
  lemma {:induction false} CandidatesCountRow(keep: Move -> bool, s: Square, y: nat, x: nat, t: Square)
    requires y <= SIZE && x <= SIZE
    requires keep(Move(s, t)) && t.row == s.row && t.col != s.col
    ensures Occurrences(Candidates(keep, s, y, x), Move(s, t)) == RowCount(t, y, x)
    decreases SIZE - y, SIZE - x
  {
    if y == SIZE {
      assert Candidates(keep, s, y, x) == [];
    } else if x == SIZE {
      CandidatesWrap(keep, s, y);
      CandidatesCountRow(keep, s, y + 1, 0, t);
      RowCountNext(t, y, x);
    } else {
      CandidatesStep(keep, s, y, x, t);
      CandidatesCountRow(keep, s, y, x + 1, t);
      assert (Loc(y, s.row) == t) == (y == t.col) && Loc(s.col, x) != t;
      RowCountNext(t, y, x);
    }
  }

  /** The count of a column move still to come. */
  lemma {:induction false} CandidatesCountColumn(keep: Move -> bool, s: Square, y: nat, x: nat, t: Square)
    requires y <= SIZE && x <= SIZE
    requires keep(Move(s, t)) && t.col == s.col && t.row != s.row
    ensures Occurrences(Candidates(keep, s, y, x), Move(s, t)) == ColumnCount(t, y, x)
    decreases SIZE - y, SIZE - x
  {
    if y == SIZE {
      assert Candidates(keep, s, y, x) == [];
    } else if x == SIZE {
      CandidatesWrap(keep, s, y);
      CandidatesCountColumn(keep, s, y + 1, 0, t);
      ColumnCountNext(t, y, x);
    } else {
      CandidatesStep(keep, s, y, x, t);
      CandidatesCountColumn(keep, s, y, x + 1, t);
      assert Loc(y, s.row) != t && (Loc(s.col, x) == t) == (x == t.row);
      ColumnCountNext(t, y, x);
    }
  }

  /** The nested loops of legalMoves emit each legal move of a piece
      exactly SIZE (nine) times. */
  lemma CandidatesNineTimes(b: Board, s: Square, t: Square)
    requires IsLegal(b, Move(s, t))
    ensures Occurrences(Candidates(LegalTest(b), s, 0, 0), Move(s, t)) == SIZE
  {
    LegalIsRookMove(b, Move(s, t));
    if t.row == s.row {
      CandidatesCountRow(LegalTest(b), s, 0, 0, t);
    } else {
      CandidatesCountColumn(LegalTest(b), s, 0, 0, t);
    }
  }

  /** The moves of the pieces listed in `locs[i..]`, in listing order,
      each kept when it passes the test. */
  function MovesFrom(keep: Move -> bool, locs: seq<Square>, i: nat): (r: seq<Move>)
    requires i <= |locs|
    decreases |locs| - i
  {
    if i == |locs| then []
    else Candidates(keep, locs[i], 0, 0) + MovesFrom(keep, locs, i + 1)
  }

  /** Every move listed starts on a piece in `locs[i..]` and passes the
      test. */
  lemma {:induction false} MovesFromSound(keep: Move -> bool, locs: seq<Square>, i: nat)
    requires i <= |locs|
    ensures forall m :: m in MovesFrom(keep, locs, i) ==> m.from in locs[i..] && keep(m)
    decreases |locs| - i
  {
    if i < |locs| {
      CandidatesSound(keep, locs[i], 0, 0);
      MovesFromSound(keep, locs, i + 1);
      assert forall m :: m in MovesFrom(keep, locs, i + 1) ==> m.from in locs[i..] by {
        assert locs[i + 1..] == locs[i..][1..];
      }
    }
  }

  /** Every move emitted for the piece `locs[j]` is listed. */
  lemma {:induction false} MovesFromComplete(keep: Move -> bool, locs: seq<Square>, i: nat, j: nat, t: Square)
    requires i <= j < |locs|
    requires Move(locs[j], t) in Candidates(keep, locs[j], 0, 0)
    ensures Move(locs[j], t) in MovesFrom(keep, locs, i)
    decreases j - i
  {
    var m := Move(locs[j], t);
    var here, rest := Candidates(keep, locs[i], 0, 0), MovesFrom(keep, locs, i + 1);
    if i < j {
      MovesFromComplete(keep, locs, i + 1, j, t);
      assert m in rest;
    } else {
      assert m in here;
    }
    assert m in here + rest;
  }

  /** The list Board.legalMoves returns, and the board after the call
      (it declares a winner when the list is empty). */
  datatype MoveList = MoveList(moves: seq<Move>, board: Board)

  /** Board.legalMoves(side).  `locs` is the iteration order of the hash set
      pieceLocations(side) returns, which Java leaves unspecified.  Legality is
      judged for the side to move, whatever `side` is. */
  function LegalMoves(b: Board, side: Piece, locs: seq<Square>): (r: MoveList)
    requires IsListing(locs, PieceLocations(b.grid, side))
    ensures forall m :: m in r.moves ==> IsLegal(b, m) && Get(b.grid, m.from) == side
    ensures forall from: Square, to: Square ::
      Get(b.grid, from) == side && IsLegal(b, Move(from, to)) ==> Move(from, to) in r.moves
    ensures r.moves == [] ==> r.board == b.(winner := Some(b.turn.Opponent()))
    ensures r.moves != [] ==> r.board == b
  {
    var lst := MovesFrom(LegalTest(b), locs, 0);
    MovesFromSound(LegalTest(b), locs, 0);
    assert forall m: Move :: m.from in locs ==> Get(b.grid, m.from) == side;
    assert forall from: Square, to: Square ::
      Get(b.grid, from) == side && IsLegal(b, Move(from, to)) ==> Move(from, to) in lst by {
      forall from: Square, to: Square | Get(b.grid, from) == side && IsLegal(b, Move(from, to))
        ensures Move(from, to) in lst
      {
        assert from in locs;
        var j :| 0 <= j < |locs| && locs[j] == from;
        CandidatesContainLegal(b, from, to);
        MovesFromComplete(LegalTest(b), locs, 0, j, to);
      }
    }
    if lst == [] then MoveList(lst, b.(winner := Some(b.turn.Opponent())))
    else MoveList(lst, b)
  }

  /** Board.hasMove(side): whether legalMoves(side) is non-empty, with the
      board that call leaves behind. */
  function HasMove(b: Board, side: Piece, locs: seq<Square>): (r: (bool, Board))
    requires IsListing(locs, PieceLocations(b.grid, side))
  {
    var l := LegalMoves(b, side, locs);
    (l.moves != [], l.board)
  }

  /** `side` has a move exactly when one of its pieces (the KING excluded when
      `side` is WHITE) can legally move for the side to move. */
  lemma HasMoveIff(b: Board, side: Piece, locs: seq<Square>)
    requires IsListing(locs, PieceLocations(b.grid, side))
    ensures HasMove(b, side, locs).0 <==>
      exists from: Square, to: Square :: Get(b.grid, from) == side && IsLegal(b, Move(from, to))
    ensures !HasMove(b, side, locs).0 ==> HasMove(b, side, locs).1.winner == Some(b.turn.Opponent())
  {
    var l := LegalMoves(b, side, locs);
    if l.moves != [] {
      var m := l.moves[0];
      assert Get(b.grid, m.from) == side && IsLegal(b, Move(m.from, m.to));
    }
  }

  /** Legality follows the side to move: asking for the other side's moves
      yields nothing and hands the game to the opponent of the side to move. */
  lemma LegalMovesOfIdleSide(b: Board, side: Piece, locs: seq<Square>)
    requires IsListing(locs, PieceLocations(b.grid, side))
    requires side != b.turn && !(side == King && b.turn == White)
    ensures LegalMoves(b, side, locs).moves == []
    ensures LegalMoves(b, side, locs).board.winner == Some(b.turn.Opponent())
  {
    var r := LegalMoves(b, side, locs);
    if r.moves != [] {
      IsLegalIff(b, r.moves[0]);
      assert false;
    }
  }

  /** The KING is never moved by legalMoves(WHITE): pieceLocations(WHITE)
      matches WHITE only. */
  lemma LegalMovesWhiteSkipsKing(b: Board, locs: seq<Square>)
    requires IsListing(locs, PieceLocations(b.grid, White))
    ensures forall m :: m in LegalMoves(b, White, locs).moves ==> Get(b.grid, m.from) != King
  {
  }

  // ------------------------------------------------------------- repetition

  /** The string Board.checkRepeated records: the encoding without its
      first character, so the side to move is not part of it. */
  function RepetitionKey(b: Board): string {
    Encode(b.turn, b.grid)[1..]
  }

  /** Two boards have the same key exactly when their grids are equal,
      whoever is to move. */
  lemma RepetitionKeyIsGrid(b1: Board, b2: Board)
    ensures RepetitionKey(b1) == RepetitionKey(b2) <==> b1.grid == b2.grid
  {
    GridSymbolsInjective(b1.grid, b2.grid);
  }

  /** Board.checkRepeated: a position already recorded makes the game a
      repetition won by the opponent of the side to move; a new one is
      recorded. */
  function CheckRepeated(b: Board): (r: Board)
    ensures RepetitionKey(b) in b.seen ==>
      r == b.(repeated := true, winner := Some(b.turn.Opponent()))
    ensures RepetitionKey(b) !in b.seen ==>
      r == b.(seen := b.seen + {RepetitionKey(b)})
    ensures RepetitionKey(r) in r.seen
  {
    var key := Encode(b.turn, b.grid)[1..];
    if key in b.seen then b.(repeated := true, winner := Some(b.turn.Opponent()))
    else b.(seen := b.seen + {key})
  }

  // ------------------------------------------------------------------- undo

  /** Board.revPut: record the current occupant of `s` and the square on the
      undo stacks, then set `s` to `p`. */
  function RevPut(b: Board, p: Piece, s: Square): (r: Board)
    ensures Get(r.grid, s) == p
    ensures forall t: Square :: t != s ==> Get(r.grid, t) == Get(b.grid, t)
    ensures r.undoPieces == b.undoPieces + [Get(b.grid, s)] && r.undoSquares == b.undoSquares + [s]
    ensures r.(grid := b.grid, undoPieces := b.undoPieces, undoSquares := b.undoSquares) == b
  {
    b.(undoPieces := b.undoPieces + [Get(b.grid, s)],
       undoSquares := b.undoSquares + [s],
       grid := Put(b.grid, p, s))
  }

  /** The capture idiom `revPut(EMPTY, s); captured = true;`. */
  function Remove(b: Board, s: Square): (r: Board)
    ensures Get(r.grid, s) == Empty && ClearsOnly(b.grid, r.grid) && r.captured
    ensures forall t: Square :: t != s ==> Get(r.grid, t) == Get(b.grid, t)
    ensures r.(grid := b.grid, undoPieces := b.undoPieces, undoSquares := b.undoSquares,
               captured := b.captured) == b
  {
    RevPut(b, Empty, s).(captured := true)
  }

  /** The first half of Board.undoPosition: if the last move captured,
      put back the top entry of the undo stacks. */
  function RestoreCapture(b: Board): Result<Board, Fault> {
    if !b.captured then Success(b)
    else if b.undoPieces == [] || b.undoSquares == [] then Failure(EmptyStack)
    else
      var p := b.undoPieces[|b.undoPieces| - 1];
      var s := b.undoSquares[|b.undoSquares| - 1];
      Success(b.(undoPieces := b.undoPieces[..|b.undoPieces| - 1],
                 undoSquares := b.undoSquares[..|b.undoSquares| - 1],
                 grid := Put(b.grid, p, s),
                 captured := false))
  }

  /** Board.undoPosition: unless the position is a repetition within the
      first two moves, restore one captured piece (if the flag says so) and
      move the piece on the last move's destination back to its origin; then
      clear the repetition flag. */
  function UndoPosition(b: Board): Result<Board, Fault> {
    if !b.repeated || b.moveCount > 2 then
      var b1 :- RestoreCapture(b);
      if b1.moves == [] then Failure(EmptyStack)
      else
        var undid := b1.moves[|b1.moves| - 1];
        var p := Get(b1.grid, undid.to);
        var g := Put(Put(b1.grid, p, undid.from), Empty, undid.to);
        Success(b1.(moves := b1.moves[..|b1.moves| - 1], grid := g, repeated := false))
    else Success(b.(repeated := false))
  }

  /** Board.undo: nothing on a board without moves; otherwise undoPosition
      and one move fewer.  The turn and the winner are left as they are. */
  function Undo(b: Board): (r: Result<Board, Fault>)
    ensures b.moveCount == 0 ==> r == Success(b)
    ensures b.moveCount > 0 && r.Success? ==>
      && r.value.moveCount == b.moveCount - 1 && !r.value.repeated
      && r.value.turn == b.turn && r.value.winner == b.winner && r.value.seen == b.seen
    ensures b.moveCount > 0 && b.repeated && b.moveCount <= 2 ==>
      r.Success? && r.value.grid == b.grid
    ensures r.Failure? <==>
      && b.moveCount > 0 && (!b.repeated || b.moveCount > 2)
      && (b.moves == [] || (b.captured && (b.undoPieces == [] || b.undoSquares == [])))
    ensures b.moveCount > 0 && !b.captured && (!b.repeated || b.moveCount > 2) && b.moves != [] ==>
      var m := b.moves[|b.moves| - 1];
      && r.Success?
      && Get(r.value.grid, m.to) == Empty
      && (m.from != m.to ==> Get(r.value.grid, m.from) == Get(b.grid, m.to))
      && forall s: Square :: s != m.from && s != m.to ==> Get(r.value.grid, s) == Get(b.grid, s)
    ensures (&& b.moveCount > 0 && b.captured && (!b.repeated || b.moveCount > 2)
             && b.moves != [] && b.undoPieces != [] && b.undoSquares != []) ==>
      var m := b.moves[|b.moves| - 1];
      var p, c := b.undoPieces[|b.undoPieces| - 1], b.undoSquares[|b.undoSquares| - 1];
      && r.Success? && !r.value.captured
      && r.value.undoPieces == b.undoPieces[..|b.undoPieces| - 1]
      && r.value.undoSquares == b.undoSquares[..|b.undoSquares| - 1]
      && r.value.moves == b.moves[..|b.moves| - 1]
      && Get(r.value.grid, m.to) == Empty
      && (m.from != m.to ==> Get(r.value.grid, m.from) == if m.to == c then p else Get(b.grid, m.to))
      && forall s: Square :: s != m.from && s != m.to ==>
           Get(r.value.grid, s) == if s == c then p else Get(b.grid, s)
  {
    if b.moveCount > 0 then
      var u :- UndoPosition(b);
      Success(u.(moveCount := b.moveCount - 1))
    else Success(b)
  }

  /** Undo puts back only the top entry of the undo stacks: when the last
      move captured two pieces, recorded as the two top entries, the piece
      captured first stays off the board. */
  lemma UndoRestoresOnlyLastCapture(b: Board)
    requires b.moveCount > 0 && b.captured && (!b.repeated || b.moveCount > 2) && b.moves != []
    requires |b.undoPieces| >= 2 && |b.undoSquares| >= 2
    requires var m := b.moves[|b.moves| - 1];
      var c1, c2 := b.undoSquares[|b.undoSquares| - 2], b.undoSquares[|b.undoSquares| - 1];
      && c1 != c2 && c1 !in {m.from, m.to} && c2 !in {m.from, m.to}
      && Get(b.grid, c1) == Empty
    ensures Undo(b).Success?
    ensures Get(Undo(b).value.grid, b.undoSquares[|b.undoSquares| - 2]) == Empty
    ensures Get(Undo(b).value.grid, b.undoSquares[|b.undoSquares| - 1]) == b.undoPieces[|b.undoPieces| - 1]
  {
  }

  /** Undo as its documentation intends it: Board.undo that also gives the
      turn back to the side that made the undone move. */
  function UndoIntended(b: Board): (r: Result<Board, Fault>)
    ensures r.Success? <==> Undo(b).Success?
    ensures r.Success? && b.moveCount > 0 ==>
      r.value.turn == b.turn.Opponent() && r.value.grid == Undo(b).value.grid
    ensures b.moveCount == 0 ==> r == Success(b)
  {
    if b.moveCount == 0 then Success(b)
    else
      var u :- Undo(b);
      Success(u.(turn := u.turn.Opponent()))
  }

  /** Board.clearUndo: empty the undo stacks; position, win status and the
      recorded positions stay. */
  function ClearUndo(b: Board): (r: Board)
    ensures r.moves == [] && r.undoPieces == [] && r.undoSquares == []
    ensures r.grid == b.grid && r.turn == b.turn && r.winner == b.winner && r.seen == b.seen
    ensures r.moveCount == b.moveCount && r.repeated == b.repeated && r.captured == b.captured
  {
    b.(moves := [], undoPieces := [], undoSquares := [])
  }
}
