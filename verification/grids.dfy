/** The 9x9 grid of a Tablut board, indexed `grid[col][row]` as the Java
    `_board` array is, with the queries Board.java runs over the whole grid. */
module Grids {
  import opened Wrappers
  import opened Primitives

  type Grid = g: seq<seq<Piece>> | |g| == SIZE && forall c :: 0 <= c < SIZE ==> |g[c]| == SIZE
    witness seq(SIZE, c => seq(SIZE, r => Empty))

  /** Contents of square `s` (Board.get). */
  function Get(g: Grid, s: Square): Piece {
    g[s.col][s.row]
  }

  /** Grid with square `s` set to `p` (Board.put). */
  function Put(g: Grid, p: Piece, s: Square): (r: Grid)
    ensures Get(r, s) == p
    ensures forall t: Square :: t != s ==> Get(r, t) == Get(g, t)
  {
    g[s.col := g[s.col][s.row := p]]
  }

  /** Two grids with the same contents on every square are equal. */
  lemma GridExt(g1: Grid, g2: Grid)
    requires forall s: Square :: Get(g1, s) == Get(g2, s)
    ensures g1 == g2
  {
    forall c | 0 <= c < SIZE
      ensures g1[c] == g2[c]
    {
      forall r | 0 <= r < SIZE
        ensures g1[c][r] == g2[c][r]
      {
        var s: Square := Loc(c, r);
        assert Get(g1, s) == Get(g2, s);
      }
    }
  }

  /** Every square of `g'` either keeps its piece from `g` or is EMPTY:
      the only writes capture code performs. */
  ghost predicate ClearsOnly(g: Grid, g': Grid) {
    forall s: Square :: Get(g', s) == Get(g, s) || Get(g', s) == Empty
  }

  /** `k` holds the only KING on the grid. */
  ghost predicate LoneKing(g: Grid, k: Square) {
    Get(g, k) == King && forall s: Square :: Get(g, s) == King ==> s == k
  }

  /** The squares holding exactly `side`, listed in square order from
      position `k` on: one listing of the set PieceLocations returns. */
  function PieceListFrom(g: Grid, side: Piece, k: nat): (r: seq<Square>)
    requires k <= SIZE * SIZE
    ensures forall i :: 0 <= i < |r| ==> k <= Index(r[i])
    ensures forall i, j :: 0 <= i < j < |r| ==> Index(r[i]) < Index(r[j])
    ensures forall s: Square :: s in r <==> k <= Index(s) && Get(g, s) == side
    decreases SIZE * SIZE - k
  {
    if k == SIZE * SIZE then []
    else
      var rest := PieceListFrom(g, side, k + 1);
      var s := SquareAt(k);
      assert forall t: Square :: k <= Index(t) ==> t == s || k + 1 <= Index(t);
      if Get(g, s) == side then [s] + rest else rest
  }

  function PieceList(g: Grid, side: Piece): seq<Square> {
    PieceListFrom(g, side, 0)
  }

  /** Squares holding exactly `side` (Board.pieceLocations). */
  function PieceLocations(g: Grid, side: Piece): (r: set<Square>)
    ensures forall s: Square :: s in r <==> Get(g, s) == side
  {
    set s | s in PieceList(g, side)
  }

  /** A sequence without repetitions. */
  ghost predicate Distinct<T>(xs: seq<T>) {
    forall i, j :: 0 <= i < j < |xs| ==> xs[i] != xs[j]
  }

  /** `xs` lists the set `s`, each element once, in some order. */
  ghost predicate IsListing<T(!new)>(xs: seq<T>, s: set<T>) {
    Distinct(xs) && (forall x :: x in xs <==> x in s)
  }

  lemma PieceListIsListing(g: Grid, side: Piece)
    ensures IsListing(PieceList(g, side), PieceLocations(g, side))
  {
    var xs := PieceList(g, side);
    forall i, j | 0 <= i < j < |xs|
      ensures xs[i] != xs[j]
    {
      assert Index(xs[i]) < Index(xs[j]);
    }
  }

  /** A listing has as many entries as the set has elements. */
  lemma {:induction false} ListingSize<T(!new)>(xs: seq<T>, s: set<T>)
    requires IsListing(xs, s)
    ensures |xs| == |s|
  {
    if xs == [] {
      assert forall x :: x in s ==> x in xs;
      assert s == {};
    } else {
      var x := xs[|xs| - 1];
      var front := xs[..|xs| - 1];
      assert xs == front + [x];
      assert x !in front by {
        forall i | 0 <= i < |front|
          ensures front[i] != x
        {
          assert xs[i] != xs[|xs| - 1];
        }
      }
      assert IsListing(front, s - {x}) by {
        forall y
          ensures y in front <==> y in s - {x}
        {
          assert y in xs <==> y in front || y == x;
        }
      }
      ListingSize(front, s - {x});
    }
  }

  /** The Java loop of Board.kingPosition from square position `k` on, where
      `found` is the last KING seen so far (a later KING overwrites it). */
  function KingScan(g: Grid, k: nat, found: Option<Square>): (r: Option<Square>)
    requires k <= SIZE * SIZE
    requires found.Some? ==> Get(g, found.value) == King && Index(found.value) < k
    requires found.Some? ==> forall t: Square :: Index(found.value) < Index(t) < k ==> Get(g, t) != King
    requires found.None? ==> forall t: Square :: Index(t) < k ==> Get(g, t) != King
    ensures r.Some? ==> Get(g, r.value) == King
    ensures r.Some? ==> forall t: Square :: Index(r.value) < Index(t) ==> Get(g, t) != King
    ensures r.None? ==> forall t: Square :: Get(g, t) != King
    decreases SIZE * SIZE - k
  {
    if k == SIZE * SIZE then
      assert forall t: Square :: Index(t) < k;
      found
    else
      var s := SquareAt(k);
      assert forall t: Square :: Index(t) < k + 1 ==> Index(t) < k || t == s;
      KingScan(g, k + 1, if Get(g, s) == King then Some(s) else found)
  }

  /** Location of the KING: the last one in square order, or None when
      there is none (Board.kingPosition). */
  function KingPosition(g: Grid): Option<Square> {
    KingScan(g, 0, None)
  }

  /** The grid as one symbol per square in square order. */
  function GridSymbols(g: Grid): (r: string)
    ensures |r| == SIZE * SIZE
    ensures forall s: Square :: r[Index(s)] == Get(g, s).Symbol()
  {
    seq(SIZE * SIZE, k requires 0 <= k < SIZE * SIZE => Get(g, SquareAt(k)).Symbol())
  }

  /** Board.encodedBoard: the symbol of the side to move followed by one
      symbol per square. */
  function Encode(turn: Piece, g: Grid): (r: string)
    ensures |r| == 1 + SIZE * SIZE
    ensures r[0] == turn.Symbol()
    ensures r[1..] == GridSymbols(g)
  {
    [turn.Symbol()] + GridSymbols(g)
  }

  /** Two grids have the same symbols exactly when they are equal. */
  lemma GridSymbolsInjective(g1: Grid, g2: Grid)
    ensures GridSymbols(g1) == GridSymbols(g2) <==> g1 == g2
  {
    if GridSymbols(g1) == GridSymbols(g2) {
      forall s: Square
        ensures Get(g1, s) == Get(g2, s)
      {
        assert GridSymbols(g1)[Index(s)] == GridSymbols(g2)[Index(s)];
        SymbolInjective(Get(g1, s), Get(g2, s));
      }
      GridExt(g1, g2);
    }
  }

  /** The encoding determines both the side to move and the grid. */
  lemma EncodeInjective(t1: Piece, g1: Grid, t2: Piece, g2: Grid)
    ensures Encode(t1, g1) == Encode(t2, g2) <==> t1 == t2 && g1 == g2
  {
    if Encode(t1, g1) == Encode(t2, g2) {
      SymbolInjective(t1, t2);
      GridSymbolsInjective(g1, g2);
    }
  }

  /** A set of squares whose indices all lie below `k` has at most `k`
      elements. */
  lemma {:induction false} SquaresBelow(u: set<Square>, k: nat)
    requires forall s :: s in u ==> Index(s) < k
    ensures |u| <= k
  {
    if k > SIZE * SIZE {
      SquaresBelow(u, SIZE * SIZE);
    } else if k == 0 {
      assert u == {};
    } else {
      var x := SquareAt(k - 1);
      var u' := u - {x};
      forall s | s in u'
        ensures Index(s) < k - 1
      {
        SquareAtIndex(s);
      }
      SquaresBelow(u', k - 1);
    }
  }

  /** Together, the two sides never hold more pieces than the board has
      squares. */
  lemma PieceCountBound(g: Grid)
    ensures |PieceLocations(g, Black)| + |PieceLocations(g, White)| <= SIZE * SIZE
  {
    var u := PieceLocations(g, Black) + PieceLocations(g, White);
    assert PieceLocations(g, Black) * PieceLocations(g, White) == {};
    SquaresBelow(u, SIZE * SIZE);
  }
}
