# Tablut rules engine and alpha-beta player, in Dafny

This project models the core of a Java Tablut program: the rules engine
`tablut/Board.java` and the automatic player `tablut/AI.java`.

Tablut is played on a 9x9 board. BLACK attackers try to capture the KING.
WHITE defenders try to bring the KING to a corner. Pieces move like rooks,
and a piece is captured when it is flanked on a line.

The Java `Board` is a mutable object. Here it is an immutable record, and
every Java method is a pure function from one board to the next. The record
keeps every field of the Java class that the code reads:

- the grid, indexed `[col][row]` as the Java `_board` is;
- the side to move, the winner, the move count and the repetition flag;
- the move limit;
- the undo stacks `_allPiece`, `_allSquare` and `_allMoves`;
- the set of recorded position encodings;
- the `captured` flag.

A Java exception becomes the `Failure` case of a `Result`:

- `IllegalArgumentException` from `setMoveLimit`;
- `NullPointerException` when `kingPosition()` returns null and is dereferenced;
- `EmptyStackException` when `undo` pops an empty stack.

The files:

- `wrappers.dfy` holds `Option` and `Result`.
- `primitives.dfy` holds the piece, square and move value types and the rook
  geometry. `Piece`, `Square` and `Move` are Java classes that are not part
  of this model, so they get minimal stand-ins. The directions are 0 = north
  (row + 1), 1 = east, 2 = south, 3 = west, as the throne neighbours at
  `Board.java:27-31` and the checks at `Board.java:394-424` use them.
  `between` is the midpoint, rounded down. For two squares two apart on a
  line that is the square between them, which is how the flank tests use
  it; the throne tests also call it on squares that need not be two apart.
  The square index is row-major.
- `grids.dfy` holds the grid, `get`/`put`, `pieceLocations`, `kingPosition`
  and `encodedBoard`.
- `boards.dfy` holds set-up, `copy`, `setMoveLimit`, legality, `legalMoves`
  and `hasMove`, `checkRepeated`, `revPut`, `undo` and `clearUndo`.
- `captures.dfy` holds `makeMove` with `throne`, `check`, `possible` and
  `capture`. Every step of capture resolution keeps one invariant,
  `Resolves`:
  - captures only empty squares;
  - the winner stays or becomes BLACK;
  - the capture flag only rises;
  - a lone KING survives unless BLACK has won.

  From `Resolves`, `MakeMoveNeverFaults` proves that `makeMove` never reaches
  the null dereference on a board that has a lone KING.
- `search.dfy` holds the alpha-beta `findMove(board, depth, saveMove, sense,
  alpha, beta)`, written over any game. A game supplies a move list, a
  successor, a game-over test and a static score. `Minimax` is an unpruned
  reference. The search is proved fail-soft against it: a value inside the
  window is exact, and one outside it is a bound on the right side.
- `ai.dfy` instantiates the search with the board:
  - the moves are `legalMoves(turn())`;
  - a child is a fresh copy on which the move is made;
  - play is over once there is a winner;
  - the score is the win/loss part of `staticScore` around a heuristic
    parameter.

  It also models `maxDepth` and the root `findMove()`.

Behaviours of the code as written that the model keeps:

- `makeMove` runs `possible(to)` three times when no KING is on or beside
  the throne, and twice otherwise. Each run captures by side effect.
- The third test of `possible` (`Board.java:487-489`) parses as
  `(mid BLACK && to WHITE-or-KING && far WHITE) || (far KING && to WHITE)`.
  Its second half empties the middle square whatever stands on it.
- `legalMoves(side)` judges legality for the side to move, not for `side`.
  It lists the pieces of exactly `side`, so the KING is never among WHITE's
  movers (`LegalMovesWhiteSkipsKing`). Its nested loops test the row target
  of the outer index and the column target of the inner index at every
  inner iteration, so each legal move of a piece is added nine times
  (`CandidatesNineTimes`).
- `undo` writes back only the top entry of the undo stacks, so of the pieces
  one move captured it restores only the last
  (`UndoRestoresOnlyLastCapture`). It leaves the turn and the winner
  alone. It skips the grid when the position is a repetition within the
  first two moves.
- The repetition key is the encoding without its first character, the side
  to move. `copy` starts with an empty set of recorded positions and empty
  undo stacks, so a copy does not inherit the recorded positions.
- Away from the throne, a KING between two BLACK pieces in a line is taken
  by BLACK's move, and BLACK wins (`MakeMoveCapturesFlankedKing`). Beside the
  empty throne, BLACK takes the KING only by holding all three of its other
  neighbours (`CheckCapturesKingBesideThrone`); a two-sided flank there is
  not enough.
- After a move the code does not test whether the next side has a legal
  move. Only `legalMoves` itself declares a winner, when it finds none.

## Model

| member | source | states |
|---|---|---|
| Primitives.Wrap32 | tablut/Board.java:135 | the 32-bit value of a Java `int` expression: in range, congruent to the exact value modulo 2^32, and equal to it when it fits |
| Primitives.RookMove | tablut/Board.java:453-466 | the square n steps away in a direction exists exactly when it is on the board, and then has the shifted coordinates |
| Primitives.Direction | tablut/Board.java:263 | for a rook move, the returned direction times the distance is the displacement from `from` to `to` |
| Primitives.BetweenTwoApart | tablut/Board.java:472 | for two squares two apart on a line, `between` is the square one step along that line |
| Primitives.BetweenIsStrict | tablut/Board.java:472 | the square between two squares two apart is neither of them |
| Grids.Put | tablut/Board.java:230-232 | `put` sets exactly the one square and leaves every other square as it was |
| Grids.PieceListFrom | tablut/Board.java:657-668 | lists, in strictly increasing square order, exactly the squares from a position on that hold `side` |
| Grids.PieceLocations | tablut/Board.java:657-668 | a square is in `pieceLocations(side)` exactly when it holds `side` |
| Grids.PieceListIsListing | tablut/Board.java:657-668 | the ordered list enumerates the set `pieceLocations(side)` without repetition |
| Grids.ListingSize | tablut/AI.java:146 | a repetition-free enumeration of a set has as many entries as the set has elements, so `size()` counts the pieces |
| Grids.KingScan | tablut/Board.java:191-201 | the scan returns a square holding the KING with no KING later in square order, and returns none only when no square holds the KING |
| Grids.GridSymbols | tablut/Board.java:674-681 | one symbol per square, in square order, naming the piece on that square |
| Grids.Encode | tablut/Board.java:674-681 | the encoding is the symbol of the side to move followed by the grid's symbols |
| Grids.GridSymbolsInjective | tablut/Board.java:674-681 | two grids have the same symbols exactly when they are equal |
| Grids.EncodeInjective | tablut/Board.java:674-681 | two encodings are equal exactly when both the side to move and the grid are |
| Grids.SquaresBelow | tablut/AI.java:144-146 | a set of squares all below index k has at most k elements |
| Grids.PieceCountBound | tablut/AI.java:144-146 | BLACK and WHITE together never hold more pieces than the board has squares |
| Boards.InitialGrid | tablut/Board.java:100-124 | each square gets the piece `init` writes last: the KING on the throne, defenders, attackers, EMPTY elsewhere |
| Boards.NewBoard | tablut/Board.java:91-126 | the initial position has the KING exactly on the throne, WHITE exactly on the defender squares and BLACK exactly on the attacker squares; BLACK moves, no winner, no history |
| Boards.Init | tablut/Board.java:91-126 | `init` resets the grid, turn, winner, counters and history, and keeps the move limit and the capture flag |
| Boards.Copy | tablut/Board.java:70-85 | a copy has the model's grid, turn, winner, move count and repetition flag, and so its encoding; its recorded positions and undo stacks are empty |
| Boards.SetMoveLimit | tablut/Board.java:134-140 | throws exactly when the 32-bit `2 * n` is at most the move count; otherwise only the limit changes |
| Boards.SetMoveLimitIntended | tablut/Board.java:128-140 | refuses exactly the limits whose double, computed exactly, does not exceed the move count; otherwise only the limit changes |
| Boards.SetMoveLimitOverflows | tablut/Board.java:134-140 | on a fresh board the source rejects the limit 2^30, which the documented rule accepts |
| Boards.SetMoveLimitAgreesWithoutOverflow | tablut/Board.java:134-140 | whenever `2 * n` fits in an `int`, the source and the documented rule agree |
| Boards.PathClear | tablut/Board.java:263-271 | the step-by-step walk succeeds exactly when every square after the start, up to and including the target, is empty |
| Boards.PathStep | tablut/Board.java:264-268 | one step of the walk stays on the board and on the line, gets closer to the target, and splits the path into the next square and the rest |
| Boards.IsUnblockedMove | tablut/Board.java:257-272 | an unblocked move is a rook move whose squares after `from`, the target included, are all empty |
| Boards.IsLegalIff | tablut/Board.java:285-291 | a move is legal exactly when the piece on `from` is the side to move (or the KING while WHITE moves), it is a rook move, `to` is empty, and the path is clear |
| Boards.Keep | tablut/Board.java:595-600 | a candidate is kept exactly when it passes the test, which legalMoves makes `isLegal` |
| Boards.CandidatesSound | tablut/Board.java:593-602 | every move emitted for a piece starts on that piece and passes the test |
| Boards.CandidatesComplete | tablut/Board.java:593-602 | from any point of the nested loops on, every passing move whose target is still ahead in the iteration is emitted |
| Boards.OccurrencesIsMultiplicity | tablut/Board.java:590-602 | the occurrence count of a move in a list is its multiplicity in the list's multiset |
| Boards.CandidatesCountRow | tablut/Board.java:593-596 | a passing move along the piece's row is emitted once per inner iteration of the one outer iteration whose index is its target column, and never otherwise |
| Boards.CandidatesCountColumn | tablut/Board.java:593-602 | a passing move along the piece's column is emitted once per outer iteration, at the inner index of its target row |
| Boards.CandidatesNineTimes | tablut/Board.java:590-602 | every legal move of a piece occurs exactly nine times among the moves emitted for it |
| Boards.CandidatesContainLegal | tablut/Board.java:593-602 | every legal move of a piece is among the moves emitted for it |
| Boards.MovesFromSound | tablut/Board.java:592-603 | every move listed starts on one of the listed pieces and passes the legality test |
| Boards.MovesFromComplete | tablut/Board.java:592-603 | a move emitted for any listed piece appears in the full list |
| Boards.LegalMoves | tablut/Board.java:589-608 | the list holds exactly the legal moves that start on a piece of exactly `side`; when it is empty the opponent of the side to move becomes the winner, and otherwise the board is untouched |
| Boards.HasMoveIff | tablut/Board.java:614-619 | `hasMove(side)` holds exactly when some piece of `side` has a legal move, and a false answer leaves a winner behind |
| Boards.LegalMovesOfIdleSide | tablut/Board.java:589-608 | asking for the moves of a side that is not to move yields none and declares the opponent of the side to move the winner |
| Boards.LegalMovesWhiteSkipsKing | tablut/Board.java:657-668 | no move listed for WHITE starts on the KING |
| Boards.RepetitionKeyIsGrid | tablut/Board.java:169-177 | two boards share a repetition key exactly when their grids are equal, whoever is to move |
| Boards.CheckRepeated | tablut/Board.java:169-177 | a known key sets the repetition flag and makes the opponent of the side to move the winner; a new key is recorded and nothing else changes; either way the key is then known |
| Boards.RevPut | tablut/Board.java:238-242 | the square gets the piece, the old occupant and the square are pushed on the undo stacks, and nothing else changes |
| Boards.Remove | tablut/Board.java:352-353 | the capture idiom empties one square, raises the capture flag, and changes nothing else but the undo stacks |
| Boards.Undo | tablut/Board.java:544-571 | no effect without moves; otherwise one move fewer, the repetition flag cleared, and the turn and winner kept; a repetition within two moves keeps the grid; it fails exactly when a needed stack is empty; after a move that captured nothing, unless it repeated within the first two moves, the piece returns and `to` is emptied; after a capture the top undo entry is popped and its piece written back to its square, the capture flag is lowered, and then the piece on `to` returns to `from` and `to` is emptied, every other square unchanged |
| Boards.UndoRestoresOnlyLastCapture | tablut/Board.java:556-571 | when the two top undo entries name two captured squares off the move's line, undo writes back the top one and leaves the other empty |
| Boards.UndoIntended | tablut/Board.java:540-549 | the documented undo succeeds when the source's does, has the same grid, and gives the turn back |
| Boards.ClearUndo | tablut/Board.java:573-582 | the three history stacks are emptied and the position, win status and recorded positions are kept |
| Captures.KingCaptured | tablut/Board.java:379-381 | the KING's square is emptied, every other square kept, and BLACK wins |
| Captures.ThroneFlank | tablut/Board.java:349-376 | one throne block captures at most a WHITE piece and leaves the winner alone |
| Captures.Throne | tablut/Board.java:347-384 | `throne` only empties squares, keeps a lone KING unless BLACK wins, and keeps turn, counters and history |
| Captures.ThroneCapturesSurroundedKing | tablut/Board.java:377-382 | with the only KING on the throne and BLACK on all four neighbours, the throne is emptied and BLACK wins |
| Captures.KingBesideThrone | tablut/Board.java:394-401 | the KING beside the throne, hemmed in on three sides, is captured only together with a BLACK win |
| Captures.CheckKing | tablut/Board.java:394-425 | the KING tests of `check` only empty squares, and take a lone KING only with a BLACK win |
| Captures.CheckBlack | tablut/Board.java:393-431 | the BLACK part of `check` only empties squares and keeps a lone KING unless BLACK wins |
| Captures.Check | tablut/Board.java:391-439 | `check` only empties squares and keeps a lone KING unless BLACK wins |
| Captures.KingFlank | tablut/Board.java:470-478 | the first test of `possible` captures a KING only with a BLACK win; Captures.PossibleAtKeepsFlank states that it does capture a flanked KING |
| Captures.Flank | tablut/Board.java:479-486 | the ordinary capture only empties squares and never changes the winner |
| Captures.DefenderFlank | tablut/Board.java:487-493 | the defenders' capture only empties squares and never changes the winner |
| Captures.PossibleAt | tablut/Board.java:469-494 | one iteration keeps the capture invariant and returns only its far square |
| Captures.FlankTargets | tablut/Board.java:453-468 | at most four squares, holding exactly the on-board squares two steps away in each direction |
| Captures.PossibleLoop | tablut/Board.java:469-494 | the loop keeps the capture invariant and returns only squares it was given |
| Captures.Possible | tablut/Board.java:448-496 | `possible` keeps the capture invariant and returns only squares two steps from `to` |
| Captures.RemoveWhen | tablut/Board.java:518-521 | a conditional capture of a non-KING square keeps the invariant, empties that square when it fires, and changes no other square |
| Captures.CaptureKingWhen | tablut/Board.java:510-516 | a conditional KING capture keeps the invariant and makes BLACK the winner when it fires |
| Captures.Capture | tablut/Board.java:503-538 | `capture` only empties squares and keeps a lone KING unless BLACK wins; when the mover holds `sq0` and `sq2` and the opponent the square between them, that square ends empty |
| Captures.CaptureAll | tablut/Board.java:313-315 | capturing against every returned square keeps the invariant |
| Captures.Shift | tablut/Board.java:307-310 | the piece goes from `from` to `to`, the move is pushed, the capture flag is cleared, and turn, winner and counters are kept |
| Captures.Resolve | tablut/Board.java:311-321 | the two or three runs of `possible` and the captures that follow keep the capture invariant |
| Captures.EscapeCheck | tablut/Board.java:322-329 | without a winner, the check fails exactly when there is no KING; otherwise WHITE wins exactly when the KING is on a corner, and nothing else changes |
| Captures.Finish | tablut/Board.java:330-332 | the move count rises by one, the turn passes, the grid and moves are kept, and a winner is never withdrawn |
| Captures.Resolved | tablut/Board.java:305-321 | the board before the corner check is reached from the shifted board by captures alone |
| Captures.MakeMove | tablut/Board.java:305-333 | a legal move fails only through the missing KING; otherwise the move count rises by one, the turn passes to the other side, the move is appended, and a winner is never withdrawn |
| Captures.MakeMoveOccupancy | tablut/Board.java:305-333 | after a legal move `from` is empty, `to` holds the moved piece or is empty, and no other square gains a piece |
| Captures.RelocateKeepsLoneKing | tablut/Board.java:307-308 | relocating onto an empty square keeps exactly one KING, which moves along if it was the piece moved |
| Captures.MakeMoveNeverFaults | tablut/Board.java:322-329 | on a board with a side to move and, until decided, one KING, a legal move never dereferences a null KING, and the result has the same properties |
| Captures.MakeMoveRepetition | tablut/Board.java:330-332 | a grid already recorded sets the flag and makes the mover's opponent the winner; a new grid is recorded and the flag kept |
| Captures.MakeMoveCornerEscape | tablut/Board.java:322-329 | with no winner after the captures and a new position, WHITE wins exactly when the KING stands on a corner |
| Captures.MakeMoveKingOnThroneCaptured | tablut/Board.java:377-382 | a move leaving the only KING on the throne with BLACK on all four neighbours empties the throne, and BLACK wins unless the position repeats |
| Captures.KingSafeKept | tablut/Board.java:347-538 | capture code that leaves the KING on the throne keeps it the only KING and leaves some throne neighbour not BLACK |
| Captures.ThroneKeepsSafeKing | tablut/Board.java:347-384 | with the KING alone on the throne and a neighbour not BLACK, `throne` leaves it there |
| Captures.PossibleAtKeepsSafeKing | tablut/Board.java:468-492 | one pass of the three tests of `possible` never takes a KING that stands alone on the throne with a neighbour not BLACK |
| Captures.PossibleLoopKeepsSafeKing | tablut/Board.java:469-494 | the loop of `possible` over the far squares leaves such a KING on the throne |
| Captures.PossibleKeepsSafeKing | tablut/Board.java:448-494 | `possible` (with its `throne` and `check` calls) leaves such a KING on the throne |
| Captures.CaptureKeepsSafeKing | tablut/Board.java:503-538 | `capture` leaves such a KING on the throne |
| Captures.CaptureAllKeepsSafeKing | tablut/Board.java:313-320 | capturing against every returned square leaves such a KING on the throne |
| Captures.ResolveKeepsSafeKing | tablut/Board.java:311-321 | the capture resolution of `makeMove` skips its first round and leaves such a KING on the throne |
| Captures.EscapeKeepsThroneKing | tablut/Board.java:322-329 | the corner check finds a KING that stands alone on the throne, does not throw, and changes no square |
| Captures.MakeMoveKeepsKingOnThrone | tablut/Board.java:305-333 | a legal move after which the KING stands alone on the throne, with some neighbour not BLACK, succeeds and leaves the KING on the throne: the converse of Captures.MakeMoveKingOnThroneCaptured |
| Captures.FlankCapturesMiddle | tablut/Board.java:479-486 | when the mover holds `to` and the far square and the opponent holds the square between, which is not beside the throne, that square is emptied and nothing else changes; otherwise nothing changes |
| Captures.KingFlankedKept | tablut/Board.java:448-538 | capture code that keeps BLACK on `to` and on the far square, and takes the KING between them only with a BLACK win, keeps the flanked-KING situation |
| Captures.ThroneCheckKeepFlank | tablut/Board.java:347-439 | with BLACK to move and no KING at or beside the throne, `throne` and `check` keep a KING flanked by BLACK |
| Captures.PossibleAtKeepsFlank | tablut/Board.java:469-493 | one pass of the three tests keeps a flanked KING, and the pass over its own far square takes it: the middle square ends empty |
| Captures.PossibleLoopKeepsFlank | tablut/Board.java:469-494 | the loop keeps a flanked KING and takes it when its far square is among those still to test |
| Captures.PossibleCapturesFlankedKing | tablut/Board.java:470-478 | with BLACK to move and no KING at or beside the throne, a KING between the BLACK piece on `to` and a BLACK piece two steps away is taken by `possible`, and BLACK wins |
| Captures.ResolveCapturesFlankedKing | tablut/Board.java:311-321 | the capture resolution of `makeMove` takes such a KING and leaves BLACK the winner |
| Captures.ShiftFlanksKing | tablut/Board.java:307-308 | after a legal BLACK move, BLACK holds `to` |
| Captures.MakeMoveCapturesFlankedKing | tablut/Board.java:305-333 | a legal BLACK move that leaves the KING, away from the throne, between `to` and another BLACK piece succeeds and takes the KING; BLACK wins unless the position repeats |
| Captures.HemmedByNeighbours | tablut/Board.java:394-425 | every neighbour of a throne neighbour is on the board, and it is hemmed in exactly when each of its neighbours is the throne or BLACK |
| Captures.CodedSquaresAreNeighbours | tablut/Board.java:394-425 | the squares `check` reads two steps from the throne are the neighbours of each throne neighbour on the far side, and the throne is its neighbour on the near side |
| Captures.CheckKingTakes | tablut/Board.java:394-425 | the KING tests of `check` take a lone KING beside the throne exactly when the three squares tested for it hold BLACK, and then BLACK wins |
| Captures.CheckBlackBesideThrone | tablut/Board.java:393-431 | the BLACK part of `check` takes such a KING exactly when those three squares hold BLACK; its WHITE capture leaves that square alone |
| Captures.CheckCapturesKingBesideThrone | tablut/Board.java:391-425 | with BLACK to move and the throne empty, a lone KING beside it is taken exactly when BLACK holds its three other neighbours, and BLACK then wins |
| Captures.RelocateUndone | tablut/Board.java:564-568 | moving the piece back and emptying `to` restores the grid before a relocation onto an empty square |
| Captures.UndoOfUncapturingMove | tablut/Board.java:556-571 | undoing a relocation that captured nothing and was not a repetition within the first two moves restores the grid, pops the move and lowers the count |
| Captures.MakeMoveWithoutCapture | tablut/Board.java:307-321 | a move whose capture flag stays down changed the grid by the relocation alone |
| Captures.MakeMoveThenUndo | tablut/Board.java:544-571 | a legal move that captured nothing and was not a repetition within the first two moves, then `undo`, restores grid, count and move list, but leaves the turn with the opponent |
| Captures.UndoLeavesTurnFlipped | tablut/Board.java:544-549 | after a move and `undo`, the encoding differs from the one before the move |
| Captures.UndoIntendedRoundTrip | tablut/Board.java:540-549 | with the turn given back, a move that captured nothing and was not a repetition within the first two moves, then undo, restores the encoding and the move count |
| Search.FindMove | tablut/AI.java:78-138 | depth 0 or a decided game gives the static score and records nothing; no moves gives the worst bound for the searcher; a move is recorded exactly when saving at a live node with moves, and it is one of them |
| Search.MaxScan | tablut/AI.java:91-105 | the maximizing loop never returns below its best-so-far, keeps the move when the value did not improve, and records a scanned move otherwise |
| Search.MinScan | tablut/AI.java:118-132 | the minimizing loop never returns above its worst-so-far, keeps the move when the value did not improve, and records a scanned move otherwise |
| Search.MaxOfIsMaximum | tablut/AI.java:91-100 | the reference maximum bounds every child's minimax value and is attained by one of them, or is -INFTY |
| Search.MinOfIsMinimum | tablut/AI.java:118-127 | the reference minimum bounds every child's minimax value from below and is attained by one of them, or is INFTY |
| Search.FindMoveFailSoft | tablut/AI.java:71-77 | within any window inside [-INFTY, INFTY], a value at or below alpha bounds the minimax value from above, a value inside the window equals it, and one at or above beta bounds it from below |
| Search.MaxScanFailSoft | tablut/AI.java:91-105 | the maximizing loop's value is fail-soft against the true maximum of the children, and inside the window the recorded child attains it |
| Search.MinScanFailSoft | tablut/AI.java:118-132 | the minimizing loop's value is fail-soft against the true minimum of the children, and inside the window the recorded child attains it |
| Search.MinimaxBounded | tablut/AI.java:78-138 | with every static score in [-INFTY, INFTY], every minimax value lies in that range too |
| Search.MaxScanKeepsFirstBest | tablut/AI.java:91-105 | with bounded scores and the full window, the maximizing loop returns the largest child value and keeps the first move whose child reaches it, because it replaces the move only on a strict improvement |
| Search.MinScanKeepsFirstBest | tablut/AI.java:118-132 | with bounded scores and the full window, the minimizing loop returns the smallest child value and keeps the first move whose child reaches it |
| Search.RootSearchIsExact | tablut/AI.java:78-138 | with bounded scores the full-window root value is the minimax value, forced wins and losses included, and the recorded move is the first listed move whose child has that value |
| Search.RecordedMoveIsOptimal | tablut/AI.java:106-109 | with the full window, a value strictly inside (-INFTY, INFTY) is the minimax value, and the recorded move leads to a child of that same value |
| Search.MaxScanRecordsAtDepthOne | tablut/AI.java:94-100 | one ply deep, an improving maximizing loop records a move whose child scores the value, and without a cutoff no child scores more |
| Search.MinScanRecordsAtDepthOne | tablut/AI.java:121-127 | one ply deep, an improving minimizing loop records a move whose child scores the value, and without a cutoff no child scores less |
| Search.DepthOneRecordsScore | tablut/AI.java:83-137 | one ply deep, the recorded move's child scores the returned value, and that value is the best child score unless the window cut the loop short |
| Search.DepthOneMinAvoidsTop | tablut/AI.java:110-136 | one ply deep, a minimizing search with a move scoring below INFTY records a move scoring below INFTY |
| Search.DepthOneMaxReachesTop | tablut/AI.java:83-109 | one ply deep, a maximizing search with a move scoring INFTY records a move scoring INFTY |
| Ai.BoardMoves | tablut/AI.java:85-90 | the moves searched are exactly the legal moves of the side to move's own pieces |
| Ai.BoardMovesIff | tablut/AI.java:85-88 | the move list is empty exactly when the side to move has no legal move |
| Ai.CopyKeepsMoves | tablut/AI.java:57 | the copy offers the same moves as the board and keeps it playable |
| Ai.ChildOfListedMove | tablut/AI.java:92-93 | every listed move is carried out on the copy without failing, and the child is playable with the other side to move |
| Ai.StaticScore | tablut/AI.java:170-174 | an undecided board gets the heuristic estimate |
| Ai.DecidedScore | tablut/AI.java:170-174 | a decided game scores INFTY exactly when `me` won and -INFTY exactly when the other side won |
| Ai.DecidedPositionValue | tablut/AI.java:80-82 | a decided position is not searched: no move is recorded and its value is INFTY exactly when `me` won |
| Ai.MaxDepth | tablut/AI.java:143-155 | the depth is the number of BLACK and WHITE pieces divided by ten, the same in every band, and at most 8 |
| Ai.NewBoardDepth | tablut/AI.java:143-155 | the opening position counts 24 pieces and is searched two plies deep |
| Ai.NewBoardHasMove | tablut/Board.java:36-41 | BLACK, to move in the opening position, has a legal move (the attacker on (0, 3) to (1, 3)), so the move list of the first search is not empty |
| Ai.SearchCopy | tablut/AI.java:57-63 | the search of a copy records a move exactly when depth is positive, the game is undecided and the side to move has a legal move, and that move is legal for the board |
| Ai.FindMoveRoot | tablut/AI.java:56-65 | `findMove()` returns a move exactly for WHITE or BLACK on an undecided board with positive depth and a legal move, and it is legal |
| Ai.RootMoveIsFirstOptimal | tablut/AI.java:56-65 | with a heuristic within [-INFTY, INFTY], the root value is the minimax value of the copy, won and lost positions included, and `findMove()` returns the first listed move whose child has that value |
| Ai.RootMoveIsOptimal | tablut/AI.java:56-65 | when the root value is strictly inside (-INFTY, INFTY), it is the minimax value and the chosen move leads to a child of that value |
| Ai.FewPiecesGiveNoMove | tablut/AI.java:53-65 | with fewer than ten BLACK and WHITE pieces `findMove()` returns no move, contrary to its documentation |
| Ai.BlackShunsImmediateWin | tablut/AI.java:61-62 | one ply deep, once some BLACK move leaves a board scoring below INFTY, the BLACK player never picks a move that wins outright |
| Ai.IntendedDepth | tablut/AI.java:140-155 | the intended depth is at least one ply and never below `maxDepth` |
| Ai.FindMoveRootIntended | tablut/AI.java:53-65 | the intended root returns a move exactly for a side on an undecided board with a legal move, and it is legal |
| Ai.IntendedRootAtDepthOne | tablut/AI.java:56-65 | with `maxDepth` at most 1 the intended root is the one-ply maximizing search of the copy |
| Ai.TopScoreMeansWon | tablut/AI.java:170-174 | with a heuristic below INFTY, a score of INFTY means `me` has won |
| Ai.IntendedTakesImmediateWin | tablut/AI.java:53-65 | one ply deep, the intended root picks a move that wins outright whenever one exists |

## Left out

- `toString` rendering (`Board.java:621-651`) is text formatting only.
- Player and controller plumbing (`myMove`, `create`, `isManual`) is I/O over classes that are not part of this model.
- The heuristic arithmetic of `staticScore` (`AI.java:159-197`) is a parameter `heuristic: Board -> int`, so it is uninterpreted. In the source it:
  - overflows Java `int`;
  - reads scratch fields left over from earlier calls;
  - indexes `get(row + 1, col)` with swapped arguments.

  Only its win/loss short-circuit is modelled.
- The bodies of `Square.between`, `Square.rookMove`, `Piece.opponent` and `Square.index` are not part of this model, so minimal definitions stand in for them. `between` is the midpoint, rounded down.
- Captures.ThroneFlank, Captures.Check and Captures.Capture: the squares they test and empty at `Board.java:351-373`, `Board.java:427-434` and `Board.java:524-525` come from `between` called on a throne square and a destination that need not be two apart. These captures are only as faithful as the rounded-down midpoint that stands in for `Square.between`. The flank tests of `possible` and the capture of `capture(to, sq)` pass squares two apart, where the stand-in is the square between them (`Primitives.BetweenTwoApart`).
- The iteration order of the `HashSet` that `pieceLocations` returns is unspecified in Java. `LegalMoves` takes any enumeration of the set. The player uses square order.
- `Ai.Child` returns the copy unchanged for an illegal move or a failing `makeMove`. This keeps the function total. `Ai.ChildOfListedMove` shows the fallback is never taken for a listed move on a playable board.
- `clone.undo()` after each child search (`AI.java:96`, `AI.java:123`) acts on a copy that is then discarded, so it has no effect on the search.
- The move limit is stored but never read, so only `setMoveLimit` is modelled.
- Captures.MakeMove: requires a side to move. The Java turn is always BLACK or WHITE, because `init` sets BLACK and `makeMove` only flips it.
- Search.MaxScan: the cutoff facts (alpha never lowered, the scan stopping right after `beta <= alpha`) are not stated one by one. They are covered by the fail-soft lemmas. Which move is recorded is stated at the root with the full window (`Search.MaxScanKeepsFirstBest`), not for an inner window.
- Search.MinScan: the same as for `Search.MaxScan`, with beta never raised.
- Search.RootSearchIsExact and Ai.RootMoveIsFirstOptimal: both need every static score within [-INFTY, INFTY]. INFTY is `Integer.MAX_VALUE` and -INFTY is one above `Integer.MIN_VALUE`, so a heuristic returning `Integer.MIN_VALUE` falls outside. Without that bound, only the guarded `Search.RecordedMoveIsOptimal` and `Ai.RootMoveIsOptimal` hold.
- The field `repeat` (`Board.java:730`) is assigned by `init` (`Board.java:125`) and never read, so the record has no field for it.
- Ai.BlackShunsImmediateWin and Ai.IntendedTakesImmediateWin: both are stated one ply deep only. Deeper trees need the minimax value of the heuristic, which is a parameter.

## Findings

| source | as written | input that shows it | evidently intended | confidence | as-written member | corrected member |
|---|---|---|---|---|---|---|
| tablut/Board.java:135 | `2 * n` is a 32-bit product, so it wraps for large `n` | a fresh board and `n = 2^30`: the product wraps to `-2^31 <= 0`, so the call throws | reject only when twice the limit does not exceed the move count | high; not executed | Boards.SetMoveLimitOverflows | Boards.SetMoveLimitIntended |
| tablut/Board.java:544-549 | `undo` never gives the turn back | any legal move that captures nothing, followed by `undo`: the grid is restored but the other side is still to move, so the encoding differs | a move followed by its undo restores the encoding | high; not executed | Captures.UndoLeavesTurnFlipped | Captures.UndoIntendedRoundTrip |
| tablut/AI.java:143-155 | `maxDepth` is `pieces / 10`, which is 0 with fewer than ten BLACK and WHITE pieces, and a depth-0 search records no move | any undecided board with nine or fewer non-KING pieces and a legal move: `findMove()` returns null | search at least one ply, so a move is returned whenever one exists, as the doc comment at AI.java:53-54 promises | high; not executed | Ai.FewPiecesGiveNoMove | Ai.FindMoveRootIntended |
| tablut/AI.java:61-62 | BLACK searches with sense -1, but `staticScore` gives INFTY to a win for the AI's own side | BLACK to move at depth one, with one move that wins outright and one that does not: the minimizing search picks the non-winning move | each side maximizes its own score, so a winning move is taken | high; not executed | Ai.BlackShunsImmediateWin | Ai.IntendedTakesImmediateWin |
