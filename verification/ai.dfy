/** The automatic player (AI.java): the board game as an instance of the
    generic search, the depth heuristic, the win/loss part of the static
    score, and the top-level findMove(). */
module Ai {
  import opened Wrappers
  import opened Primitives
  import opened Grids
  import opened Boards
  import opened Captures
  import opened Search

  /** Piece-count thresholds of maxDepth (AI.java:212-215). */
  const HIGH: int := 40
  const MID: int := 30

  /** The side to move has some legal move with one of its own pieces. */
  ghost predicate HasLegalMove(b: Board) {
    exists from: Square, to: Square :: Get(b.grid, from) == b.turn && IsLegal(b, Move(from, to))
  }

  /** `board.legalMoves(board.turn())`, with the hash set of squares taken
      in index order. */
  function BoardMoves(b: Board): (r: seq<Move>)
    ensures forall m :: m in r ==> IsLegal(b, m) && Get(b.grid, m.from) == b.turn
    ensures forall from: Square, to: Square ::
      Get(b.grid, from) == b.turn && IsLegal(b, Move(from, to)) ==> Move(from, to) in r
  {
    PieceListIsListing(b.grid, b.turn);
    LegalMoves(b, b.turn, PieceList(b.grid, b.turn)).moves
  }

  lemma BoardMovesIff(b: Board)
    ensures BoardMoves(b) != [] <==> HasLegalMove(b)
  {
    if BoardMoves(b) != [] {
      var m := BoardMoves(b)[0];
      assert Get(b.grid, m.from) == b.turn && IsLegal(b, Move(m.from, m.to));
    }
  }

  /** A copy offers the same moves as the board it copies. */
  lemma CopyKeepsMoves(b: Board)
    ensures forall m :: m in BoardMoves(Copy(b)) <==> m in BoardMoves(b)
    ensures HasLegalMove(Copy(b)) <==> HasLegalMove(b)
    ensures Playable(b) ==> Playable(Copy(b))
  {
    var c := Copy(b);
    assert forall m :: IsLegal(c, m) == IsLegal(b, m);
  }

  /** `Board clone = new Board(board); clone.makeMove(move);`.  A move that
      is not legal, or a move that would throw, leaves the copy as it is;
      ChildOfListedMove shows neither happens for the moves the search
      tries. */
  function Child(b: Board, m: Move): Board {
    var c := Copy(b);
    if IsSide(c.turn) && IsLegal(c, m) then
      var e := MakeMove(c, m.from, m.to);
      if e.Success? then e.value else c
    else c
  }

  /** Every move the search tries from a playable board is carried out by
      makeMove on the copy, and the child is again playable, with the
      other side to move. */
  lemma ChildOfListedMove(b: Board, m: Move)
    requires Playable(b) && m in BoardMoves(b)
    ensures IsLegal(Copy(b), m) && MakeMove(Copy(b), m.from, m.to).Success?
    ensures Child(b, m) == MakeMove(Copy(b), m.from, m.to).value
    ensures Playable(Child(b, m)) && Child(b, m).turn == b.turn.Opponent()
  {
    MakeMoveNeverFaults(Copy(b), m.from, m.to);
  }

  /** The win/loss short-circuit of staticScore (AI.java:170-174): a game
      won by `me` scores INFTY, one won by the opponent -INFTY; any other
      board gets the heuristic estimate. */
  function StaticScore(me: Piece, heuristic: Board -> int, b: Board): (r: int)
    ensures b.winner.None? ==> r == heuristic(b)
  {
    if b.winner == Some(me) then INFTY
    else if b.winner == Some(me.Opponent()) then -INFTY
    else heuristic(b)
  }

  /** For a side `me`, a decided game scores INFTY exactly when `me` won
      and -INFTY exactly when the other side won. */
  lemma DecidedScore(me: Piece, heuristic: Board -> int, b: Board)
    requires IsSide(me) && b.winner.Some? && IsSide(b.winner.value)
    ensures StaticScore(me, heuristic, b) == INFTY <==> b.winner == Some(me)
    ensures StaticScore(me, heuristic, b) == -INFTY <==> b.winner == Some(me.Opponent())
  {
  }

  /** The game findMove searches for player `me`: the listed legal moves,
      the copy-and-move child, play over once a winner is declared, and
      staticScore at the leaves. */
  function SearchGame(me: Piece, heuristic: Board -> int): Game<Board, Move> {
    Game(BoardMoves, Child, (b: Board) => b.winner.Some?, (b: Board) => StaticScore(me, heuristic, b))
  }

  /** A decided position is never searched: its value is its static score,
      INFTY or -INFTY, and no move is recorded. */
  lemma DecidedPositionValue(me: Piece, heuristic: Board -> int, b: Board, depth: nat, save: bool,
                             sense: int, alpha: int, beta: int)
    requires IsSide(me) && b.winner.Some? && IsSide(b.winner.value)
    ensures var r := FindMove(SearchGame(me, heuristic), b, depth, save, sense, alpha, beta);
      && r.found == None
      && (r.value == INFTY <==> b.winner == Some(me))
      && (r.value == -INFTY <==> b.winner != Some(me))
  {
    DecidedScore(me, heuristic, b);
  }

  /** The number of BLACK and WHITE pieces; the KING is not counted. */
  function PieceCount(g: Grid): nat {
    |PieceLocations(g, Black)| + |PieceLocations(g, White)|
  }

  /** maxDepth (AI.java:143-155): one ply per ten pieces on the board.  The
      three branches on HIGH and MID return the same value. */
  function MaxDepth(b: Board): (r: nat)
    ensures 10 * r <= PieceCount(b.grid) < 10 * r + 10
    ensures r <= 8
  {
    PieceCountBound(b.grid);
    var left := PieceCount(b.grid);
    var result := left / 10;
    if left > HIGH then result
    else if left > MID then result
    else result
  }

  /** The opening position has 16 attackers and 8 defenders, so the AI
      searches two plies deep. */
  lemma NewBoardDepth()
    ensures PieceCount(NewBoard().grid) == 24
    ensures MaxDepth(NewBoard()) == 2
  {
    var g := NewBoard().grid;
    assert Distinct(INITIAL_ATTACKERS);
    assert Distinct(INITIAL_DEFENDERS);
    ListingSize(INITIAL_ATTACKERS, PieceLocations(g, Black));
    ListingSize(INITIAL_DEFENDERS, PieceLocations(g, White));
  }

  /** BLACK, who moves first, has a legal move in the opening position (the
      attacker on (0, 3) steps to the empty (1, 3)), so the AI's first
      search finds a move. */
  lemma NewBoardHasMove()
    ensures IsLegal(NewBoard(), Move(Loc(0, 3), Loc(1, 3)))
    ensures HasLegalMove(NewBoard())
    ensures BoardMoves(NewBoard()) != []
  {
    var b := NewBoard();
    var from, to := Loc(0, 3), Loc(1, 3);
    assert Get(b.grid, from) == Black && Get(b.grid, to) == Empty;
    assert forall s: Square :: OnPath(from, to, s) ==> s == to;
    IsLegalIff(b, Move(from, to));
    BoardMovesIff(b);
  }

  /** The sense findMove() passes for `me` (AI.java:59-63). */
  function RootSense(me: Piece): int {
    if me == White then 1 else -1
  }

  /** `findMove(new Board(board()), depth, true, sense, -INFTY, INFTY)`:
      search a copy of the board with the full window, saving the move. */
  function SearchCopy(b: Board, me: Piece, heuristic: Board -> int, depth: nat, sense: int): (r: Searched<Move>)
    ensures r.found.Some? <==> depth > 0 && b.winner.None? && HasLegalMove(b)
    ensures r.found.Some? ==> IsLegal(b, r.found.value) && Get(b.grid, r.found.value.from) == b.turn
  {
    var g := SearchGame(me, heuristic);
    var c := Copy(b);
    var r := FindMove(g, c, depth, true, sense, -INFTY, INFTY);
    assert g.moves(c) == BoardMoves(c) && (g.over(c) <==> b.winner.Some?);
    CopyKeepsMoves(b);
    BoardMovesIff(c);
    assert r.found.Some? ==> r.found.value in BoardMoves(c);
    r
  }

  /** The search findMove() starts, to maxDepth of the copy (which has the
      grid of the board). */
  function RootSearch(b: Board, me: Piece, heuristic: Board -> int): Searched<Move> {
    SearchCopy(b, me, heuristic, MaxDepth(b), RootSense(me))
  }

  /** findMove() (AI.java:56-65): the move recorded by the search for WHITE
      or BLACK, and no move for any other piece. */
  function FindMoveRoot(b: Board, me: Piece, heuristic: Board -> int): (r: Option<Move>)
    ensures r.Some? <==> IsSide(me) && b.winner.None? && MaxDepth(b) > 0 && HasLegalMove(b)
    ensures r.Some? ==> IsLegal(b, r.value) && Get(b.grid, r.value.from) == b.turn
  {
    if IsSide(me) then RootSearch(b, me, heuristic).found else None
  }

  /** When the search value is strictly between -INFTY and INFTY, the move
      findMove() returns is optimal for the search: the position it leads
      to has the same depth-limited minimax value as the current one. */
  lemma RootMoveIsOptimal(b: Board, me: Piece, heuristic: Board -> int)
    ensures var r := RootSearch(b, me, heuristic);
      r.found.Some? && -INFTY < r.value < INFTY ==>
        && MaxDepth(b) > 0
        && r.value == Minimax(SearchGame(me, heuristic), Copy(b), MaxDepth(b), RootSense(me))
        && Minimax(SearchGame(me, heuristic), Child(Copy(b), r.found.value), MaxDepth(b) - 1, RootSense(me) * -1)
           == r.value
  {
    RecordedMoveIsOptimal(SearchGame(me, heuristic), Copy(b), MaxDepth(b), RootSense(me));
  }

  /** With a heuristic that stays within [-INFTY, INFTY], as a Java `int`
      score above Integer.MIN_VALUE does, the root value is the minimax
      value of the copy, won and lost positions included, and the move
      findMove() returns is the first listed move whose child has that
      value. */
  lemma RootMoveIsFirstOptimal(b: Board, me: Piece, heuristic: Board -> int) returns (j: nat)
    requires forall x: Board :: -INFTY <= heuristic(x) <= INFTY
    ensures var r := RootSearch(b, me, heuristic);
      r.value == Minimax(SearchGame(me, heuristic), Copy(b), MaxDepth(b), RootSense(me))
    ensures var r := RootSearch(b, me, heuristic);
      var g, c := SearchGame(me, heuristic), Copy(b);
      r.found.Some? ==>
        && MaxDepth(b) > 0 && j < |BoardMoves(c)| && r.found.value == BoardMoves(c)[j]
        && ChildValue(g, c, BoardMoves(c), j, MaxDepth(b), RootSense(me)) == r.value
        && forall k :: 0 <= k < j ==> ChildValue(g, c, BoardMoves(c), k, MaxDepth(b), RootSense(me)) != r.value
  {
    var g := SearchGame(me, heuristic);
    assert forall x: Board :: g.score(x) == StaticScore(me, heuristic, x);
    assert ScoresBounded(g);
    j := RootSearchIsExact(g, Copy(b), MaxDepth(b), RootSense(me));
  }

  // ------------------------------------------------------------- findings

  /** As written, findMove() returns no move at all once fewer than ten
      BLACK and WHITE pieces remain, whatever moves the side to move has:
      maxDepth is then 0 and a search of depth 0 records nothing. */
  lemma FewPiecesGiveNoMove(b: Board, me: Piece, heuristic: Board -> int)
    requires PieceCount(b.grid) < 10
    ensures FindMoveRoot(b, me, heuristic) == None
  {
  }

  /** As written, the BLACK player searches with sense -1 on a score that
      is INFTY when BLACK has won, so one ply deep it picks a child of
      least score: as soon as one of its moves leaves a board scoring
      below INFTY, it never plays a move that wins the game outright. */
  lemma BlackShunsImmediateWin(b: Board, heuristic: Board -> int, m: Move)
    requires Playable(b) && b.turn == Black && b.winner.None? && MaxDepth(b) == 1
    requires m in BoardMoves(b) && StaticScore(Black, heuristic, Child(Copy(b), m)) < INFTY
    ensures FindMoveRoot(b, Black, heuristic).Some?
    ensures Child(Copy(b), FindMoveRoot(b, Black, heuristic).value).winner != Some(Black)
  {
    var g := SearchGame(Black, heuristic);
    var c := Copy(b);
    CopyKeepsMoves(b);
    assert MaxDepth(c) == 1 && RootSense(Black) == -1;
    assert g.score(g.play(c, m)) < INFTY;
    DepthOneMinAvoidsTop(g, c, -1, m);
    var r := FindMove(g, c, 1, true, -1, -INFTY, INFTY);
    assert FindMoveRoot(b, Black, heuristic) == r.found;
    assert StaticScore(Black, heuristic, Child(c, r.found.value)) < INFTY;
  }

  /** The depth findMove() evidently intends: maxDepth, but at least one
      ply. */
  function IntendedDepth(b: Board): (r: nat)
    ensures r >= 1 && r >= MaxDepth(b)
  {
    if MaxDepth(b) == 0 then 1 else MaxDepth(b)
  }

  /** findMove() as evidently intended: every side searches as the
      maximizing player on its own score, at least one ply deep. */
  function FindMoveRootIntended(b: Board, me: Piece, heuristic: Board -> int): (r: Option<Move>)
    ensures r.Some? <==> IsSide(me) && b.winner.None? && HasLegalMove(b)
    ensures r.Some? ==> IsLegal(b, r.value) && Get(b.grid, r.value.from) == b.turn
  {
    if IsSide(me) then SearchCopy(b, me, heuristic, IntendedDepth(b), 1).found else None
  }

  /** With at most ten pieces' worth of depth, the intended root searches
      exactly one ply. */
  lemma IntendedRootAtDepthOne(b: Board, me: Piece, heuristic: Board -> int)
    requires IsSide(me) && MaxDepth(b) <= 1
    ensures FindMoveRootIntended(b, me, heuristic)
         == FindMove(SearchGame(me, heuristic), Copy(b), 1, true, 1, -INFTY, INFTY).found
  {
    assert IntendedDepth(b) == 1;
  }

  /** With a heuristic that stays below INFTY, only a game won by `me`
      scores INFTY for `me`. */
  lemma TopScoreMeansWon(me: Piece, heuristic: Board -> int, x: Board)
    requires forall y: Board :: heuristic(y) < INFTY
    ensures StaticScore(me, heuristic, x) >= INFTY <==> x.winner == Some(me)
  {
    assert heuristic(x) < INFTY;
  }

  /** With the intended root, a player to move that can win outright at
      depth one does so, provided the heuristic never claims INFTY for an
      undecided board. */
  lemma IntendedTakesImmediateWin(b: Board, heuristic: Board -> int, m: Move)
    requires Playable(b) && b.winner.None? && MaxDepth(b) <= 1
    requires forall x: Board :: heuristic(x) < INFTY
    requires m in BoardMoves(b) && Child(Copy(b), m).winner == Some(b.turn)
    ensures FindMoveRootIntended(b, b.turn, heuristic).Some?
    ensures Child(Copy(b), FindMoveRootIntended(b, b.turn, heuristic).value).winner == Some(b.turn)
  {
    var me := b.turn;
    var g := SearchGame(me, heuristic);
    var c := Copy(b);
    CopyKeepsMoves(b);
    IntendedRootAtDepthOne(b, me, heuristic);
    TopScoreMeansWon(me, heuristic, Child(c, m));
    DepthOneMaxReachesTop(g, c, m);
    var f := FindMove(g, c, 1, true, 1, -INFTY, INFTY).found.value;
    TopScoreMeansWon(me, heuristic, Child(c, f));
  }
}
