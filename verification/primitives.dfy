/** The value types the rules engine consumes: pieces, squares, moves and the
    rook geometry of a 9x9 board.  `Piece`, `Square` and `Move` are Java classes
    that are not part of this model; these are minimal stand-ins whose
    conventions are recorded in the README. */
module Primitives {
  import opened Wrappers

  /** Squares on a side of the board (Board.SIZE). */
  const SIZE := 9

  /** Java `int` range, for the places where 32-bit arithmetic matters. */
  const INT_MIN := -0x8000_0000
  const INT_MAX := 0x7FFF_FFFF

  predicate IsInt32(x: int) {
    INT_MIN <= x <= INT_MAX
  }

  /** Two's-complement wrap-around of a Java `int` expression. */
  function Wrap32(x: int): (r: int)
    ensures IsInt32(r)
    ensures (r - x) % 0x1_0000_0000 == 0
    ensures IsInt32(x) ==> r == x
  {
    var m := x % 0x1_0000_0000;
    if m > INT_MAX then m - 0x1_0000_0000 else m
  }

  /** The occupant of a square. */
  datatype Piece = Empty | Black | White | King {
    /** The opposing side; EMPTY has none. */
    function Opponent(): (r: Piece)
      ensures this == Black <==> r == White
      ensures (this == White || this == King) <==> r == Black
    {
      match this
      case Black => White
      case White => Black
      case King => Black
      case Empty => Empty
    }

    /** First character of the piece's printed form, used by the encoding. */
    function Symbol(): char {
      match this
      case Empty => '-'
      case Black => 'B'
      case White => 'W'
      case King => 'K'
    }
  }

  lemma SymbolInjective(p: Piece, q: Piece)
    ensures p.Symbol() == q.Symbol() <==> p == q
  {
  }

  /** A side to move is BLACK or WHITE. */
  predicate IsSide(p: Piece) {
    p == Black || p == White
  }

  /** A (column, row) pair; `Square` restricts it to the board. */
  datatype Loc = Loc(col: int, row: int)

  predicate OnBoard(col: int, row: int) {
    0 <= col < SIZE && 0 <= row < SIZE
  }

  type Square = l: Loc | OnBoard(l.col, l.row) witness Loc(0, 0)

  /** Position of a square in the fixed square order (row-major). */
  function Index(s: Square): (k: nat)
    ensures k < SIZE * SIZE
  {
    s.row * SIZE + s.col
  }

  /** The square at position `k` of the fixed square order. */
  function SquareAt(k: nat): (s: Square)
    requires k < SIZE * SIZE
    ensures Index(s) == k
  {
    Loc(k % SIZE, k / SIZE)
  }

  lemma SquareAtIndex(s: Square)
    ensures SquareAt(Index(s)) == s
  {
  }

  /** The throne and its four neighbours (Board.java:27-31). */
  const THRONE: Square := Loc(4, 4)
  const NTHRONE: Square := Loc(4, 5)
  const STHRONE: Square := Loc(4, 3)
  const WTHRONE: Square := Loc(3, 4)
  const ETHRONE: Square := Loc(5, 4)

  predicate IsThroneNeighbour(s: Square) {
    s == NTHRONE || s == STHRONE || s == WTHRONE || s == ETHRONE
  }

  predicate IsCorner(s: Square) {
    (s.col == 0 || s.col == SIZE - 1) && (s.row == 0 || s.row == SIZE - 1)
  }

  /** A move from one square to another. */
  datatype Move = Move(from: Square, to: Square)

  /** Rook directions: 0 = north (row + 1), 1 = east (col + 1),
      2 = south (row - 1), 3 = west (col - 1). */
  type Dir = d: int | 0 <= d < 4

  function DCol(d: Dir): int {
    if d == 1 then 1 else if d == 3 then -1 else 0
  }

  function DRow(d: Dir): int {
    if d == 0 then 1 else if d == 2 then -1 else 0
  }

  /** The square `n` steps from `s` in direction `d`, or None off the board. */
  function RookMove(s: Square, d: Dir, n: int): (r: Option<Square>)
    ensures r.Some? <==> OnBoard(s.col + DCol(d) * n, s.row + DRow(d) * n)
    ensures r.Some? ==> r.value.col == s.col + DCol(d) * n && r.value.row == s.row + DRow(d) * n
  {
    var c := s.col + DCol(d) * n;
    var w := s.row + DRow(d) * n;
    if OnBoard(c, w) then Some(Loc(c, w)) else None
  }

  /** `to` is a different square on the same row or column as `from`. */
  predicate IsRookMove(from: Square, to: Square) {
    from != to && (from.col == to.col || from.row == to.row)
  }

  /** The direction in which `to` lies from `from`. */
  function Direction(from: Square, to: Square): (d: Dir)
    requires IsRookMove(from, to)
    ensures to.col - from.col == DCol(d) * Distance(from, to)
    ensures to.row - from.row == DRow(d) * Distance(from, to)
  {
    if to.row > from.row then 0
    else if to.col > from.col then 1
    else if to.row < from.row then 2
    else 3
  }

  /** Number of rook steps between two squares on a line. */
  function Distance(from: Square, to: Square): nat {
    Abs(to.col - from.col) + Abs(to.row - from.row)
  }

  function Abs(x: int): nat {
    if x < 0 then -x else x
  }

  /** The midpoint of two squares, rounded down (the source's definition
      of `between` is not part of this model).  For two squares two apart
      on a line it is the square between them, as the flank tests of
      Board.possible and Board.capture use it; Board.throne, Board.check
      and the throne test of Board.capture also call it on squares that
      need not be two apart. */
  function Between(a: Square, b: Square): Square {
    Loc((a.col + b.col) / 2, (a.row + b.row) / 2)
  }

  lemma BetweenTwoApart(a: Square, d: Dir)
    requires RookMove(a, d, 2).Some?
    ensures RookMove(a, d, 1).Some?
    ensures Between(a, RookMove(a, d, 2).value) == RookMove(a, d, 1).value
  {
  }

  /** The square between two squares two steps apart is neither of them. */
  lemma BetweenIsStrict(a: Square, b: Square)
    requires exists d: Dir :: RookMove(a, d, 2) == Some(b)
    ensures Between(a, b) != a && Between(a, b) != b
  {
    var d: Dir :| RookMove(a, d, 2) == Some(b);
    BetweenTwoApart(a, d);
  }
}
