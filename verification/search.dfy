/** The alpha-beta search of AI.findMove (AI.java:78-138), stated over any
    game: a position type `S`, a move type `M`, the moves available in a
    position, the position a move leads to, whether the game is over, and
    the static score.  The board game instantiates it in module Ai. */
module Search {
  import opened Wrappers
  import opened Primitives

  /** A score magnitude above every ordinary value (AI.java:22). */
  const INFTY: int := INT_MAX

  datatype Game<!S, !M> = Game(
    moves: S -> seq<M>,
    play: (S, M) -> S,
    over: S -> bool,
    score: S -> int)

  /** What one call of findMove gives back: its value, and the move it
      stored in _lastFoundMove, if it stored one. */
  datatype Searched<M> = Searched(value: int, found: Option<M>)

  /** The state the move loop of findMove ends in: the best (or worst)
      value so far and the move that reached it. */
  datatype Scan<M> = Scan(value: int, best: M)

  function Max(a: int, b: int): int { if a < b then b else a }
  function Min(a: int, b: int): int { if a < b then a else b }

  /** findMove(board, depth, saveMove, sense, alpha, beta).  A depth of
      zero or a decided game gives the static score; a side without moves
      gets the worst value for the searcher; otherwise the moves are
      scanned by the maximizing (sense 1) or minimizing loop. */
  function FindMove<S, M>(g: Game<S, M>, s: S, depth: nat, save: bool, sense: int, alpha: int, beta: int)
    : (r: Searched<M>)
    ensures depth == 0 || g.over(s) ==> r == Searched(g.score(s), None)
    ensures depth > 0 && !g.over(s) && g.moves(s) == [] ==>
      r == Searched(if sense == 1 then -INFTY else INFTY, None)
    ensures r.found.Some? <==> save && depth > 0 && !g.over(s) && g.moves(s) != []
    ensures r.found.Some? ==> r.found.value in g.moves(s)
    decreases depth, 1
  {
    if depth == 0 || g.over(s) then Searched(g.score(s), None)
    else
      var ms := g.moves(s);
      if |ms| == 0 then Searched(if sense == 1 then -INFTY else INFTY, None)
      else if sense == 1 then
        var c := MaxScan(g, s, ms, 0, depth, sense, alpha, beta, -INFTY, ms[0]);
        Searched(c.value, if save then Some(c.best) else None)
      else
        var c := MinScan(g, s, ms, 0, depth, sense, alpha, beta, INFTY, ms[0]);
        Searched(c.value, if save then Some(c.best) else None)
  }

  /** The loop of AI.java:91-105 from move `i` on: search the child, take
      the move if it beats the best so far, raise alpha, and stop once
      alpha reaches beta. */
  function MaxScan<S, M>(g: Game<S, M>, s: S, ms: seq<M>, i: nat, depth: nat, sense: int,
                         alpha: int, beta: int, bsf: int, best: M): (r: Scan<M>)
    requires i <= |ms| && depth > 0
    ensures r.value >= bsf
    ensures r.value == bsf ==> r.best == best
    ensures r.best == best || r.best in ms[i..]
    decreases depth, 0, |ms| - i
  {
    if i == |ms| then Scan(bsf, best)
    else
      var ret := FindMove(g, g.play(s, ms[i]), depth - 1, false, sense * -1, alpha, beta).value;
      var best' := if ret > bsf then ms[i] else best;
      var bsf' := Max(bsf, ret);
      var alpha' := Max(alpha, bsf');
      if beta <= alpha' then Scan(bsf', best')
      else MaxScan(g, s, ms, i + 1, depth, sense, alpha', beta, bsf', best')
  }

  /** The loop of AI.java:118-132, the mirror image of MaxScan: take the
      move if it is below the worst so far, lower beta, stop once beta
      reaches alpha. */
  function MinScan<S, M>(g: Game<S, M>, s: S, ms: seq<M>, i: nat, depth: nat, sense: int,
                         alpha: int, beta: int, wsf: int, worst: M): (r: Scan<M>)
    requires i <= |ms| && depth > 0
    ensures r.value <= wsf
    ensures r.value == wsf ==> r.best == worst
    ensures r.best == worst || r.best in ms[i..]
    decreases depth, 0, |ms| - i
  {
    if i == |ms| then Scan(wsf, worst)
    else
      var val := FindMove(g, g.play(s, ms[i]), depth - 1, false, sense * -1, alpha, beta).value;
      var worst' := if val < wsf then ms[i] else worst;
      var wsf' := Min(wsf, val);
      var beta' := Min(wsf', beta);
      if beta' <= alpha then Scan(wsf', worst')
      else MinScan(g, s, ms, i + 1, depth, sense, alpha, beta', wsf', worst')
  }

  // ------------------------------------------------------------ reference

  /** Plain minimax to the same depth, without pruning, with the same
      conventions as findMove: static score at the horizon or when the game
      is over, and -INFTY / INFTY as the value of an empty maximum /
      minimum. */
  function Minimax<S, M>(g: Game<S, M>, s: S, depth: nat, sense: int): int
    decreases depth, 1
  {
    if depth == 0 || g.over(s) then g.score(s)
    else if sense == 1 then MaxOf(g, s, g.moves(s), 0, depth, sense)
    else MinOf(g, s, g.moves(s), 0, depth, sense)
  }

  /** The largest minimax value among the children for moves `i..`, and
      -INFTY when there are none. */
  function MaxOf<S, M>(g: Game<S, M>, s: S, ms: seq<M>, i: nat, depth: nat, sense: int): (r: int)
    requires i <= |ms| && depth > 0
    ensures r >= -INFTY
    decreases depth, 0, |ms| - i
  {
    if i == |ms| then -INFTY
    else Max(Minimax(g, g.play(s, ms[i]), depth - 1, sense * -1), MaxOf(g, s, ms, i + 1, depth, sense))
  }

  /** The smallest minimax value among the children for moves `i..`, and
      INFTY when there are none. */
  function MinOf<S, M>(g: Game<S, M>, s: S, ms: seq<M>, i: nat, depth: nat, sense: int): (r: int)
    requires i <= |ms| && depth > 0
    ensures r <= INFTY
    decreases depth, 0, |ms| - i
  {
    if i == |ms| then INFTY
    else Min(Minimax(g, g.play(s, ms[i]), depth - 1, sense * -1), MinOf(g, s, ms, i + 1, depth, sense))
  }

  /** MaxOf is the maximum of the children's values, or -INFTY. */
  lemma {:induction false} MaxOfIsMaximum<S, M>(g: Game<S, M>, s: S, ms: seq<M>, i: nat, depth: nat, sense: int)
    requires i <= |ms| && depth > 0
    ensures var r := MaxOf(g, s, ms, i, depth, sense);
      && (forall j :: i <= j < |ms| ==> Minimax(g, g.play(s, ms[j]), depth - 1, sense * -1) <= r)
      && (r == -INFTY || exists j :: i <= j < |ms| && Minimax(g, g.play(s, ms[j]), depth - 1, sense * -1) == r)
    decreases |ms| - i
  {
    if i < |ms| {
      MaxOfIsMaximum(g, s, ms, i + 1, depth, sense);
    }
  }

  /** MinOf is the minimum of the children's values, or INFTY. */
  lemma {:induction false} MinOfIsMinimum<S, M>(g: Game<S, M>, s: S, ms: seq<M>, i: nat, depth: nat, sense: int)
    requires i <= |ms| && depth > 0
    ensures var r := MinOf(g, s, ms, i, depth, sense);
      && (forall j :: i <= j < |ms| ==> r <= Minimax(g, g.play(s, ms[j]), depth - 1, sense * -1))
      && (r == INFTY || exists j :: i <= j < |ms| && Minimax(g, g.play(s, ms[j]), depth - 1, sense * -1) == r)
    decreases |ms| - i
  {
    if i < |ms| {
      MinOfIsMinimum(g, s, ms, i + 1, depth, sense);
    }
  }

  // ------------------------------------------------------------ soundness

  /** The fail-soft guarantee of alpha-beta: a value at or below alpha is
      an upper bound on the minimax value, a value at or above beta is a
      lower bound, and a value strictly inside the window is exact. */
  predicate FailSoft(v: int, m: int, alpha: int, beta: int) {
    && (v <= alpha ==> m <= v)
    && (alpha < v < beta ==> m == v)
    && (beta <= v ==> v <= m)
  }

  lemma {:induction false} FindMoveFailSoft<S, M>(g: Game<S, M>, s: S, depth: nat, save: bool, sense: int,
                                                   alpha: int, beta: int)
    requires -INFTY <= alpha < beta <= INFTY
    ensures FailSoft(FindMove(g, s, depth, save, sense, alpha, beta).value, Minimax(g, s, depth, sense), alpha, beta)
    decreases depth, 1
  {
    if depth == 0 || g.over(s) {
    } else {
      var ms := g.moves(s);
      if |ms| == 0 {
      } else if sense == 1 {
        MaxScanFailSoft(g, s, ms, 0, depth, sense, alpha, alpha, beta, -INFTY, ms[0], -INFTY);
      } else {
        MinScanFailSoft(g, s, ms, 0, depth, sense, alpha, beta, beta, INFTY, ms[0], INFTY);
      }
    }
  }

  /** The invariant of the maximizing loop.  `acc` is the true maximum of
      the children scanned so far: never above the best value so far, and
      equal to it once that value has passed the caller's alpha `a0`. */
  lemma {:induction false} MaxScanFailSoft<S, M>(g: Game<S, M>, s: S, ms: seq<M>, i: nat, depth: nat, sense: int,
                                                  a0: int, alpha: int, beta: int, bsf: int, best: M, acc: int)
    requires i <= |ms| && depth > 0
    requires -INFTY <= a0 && beta <= INFTY && -INFTY <= bsf
    requires alpha == Max(a0, bsf) && alpha < beta
    requires acc <= bsf && (bsf > a0 ==> acc == bsf)
    ensures var c := MaxScan(g, s, ms, i, depth, sense, alpha, beta, bsf, best);
      && FailSoft(c.value, Max(acc, MaxOf(g, s, ms, i, depth, sense)), a0, beta)
      && (a0 < c.value < beta && c.value > bsf ==>
            Minimax(g, g.play(s, c.best), depth - 1, sense * -1) == c.value)
    decreases depth, 0, |ms| - i
  {
    if i < |ms| {
      var ret := FindMove(g, g.play(s, ms[i]), depth - 1, false, sense * -1, alpha, beta).value;
      var mj := Minimax(g, g.play(s, ms[i]), depth - 1, sense * -1);
      FindMoveFailSoft(g, g.play(s, ms[i]), depth - 1, false, sense * -1, alpha, beta);
      assert FailSoft(ret, mj, alpha, beta);
      var best' := if ret > bsf then ms[i] else best;
      var bsf' := Max(bsf, ret);
      var alpha' := Max(alpha, bsf');
      var acc' := Max(acc, mj);
      assert MaxOf(g, s, ms, i, depth, sense) == Max(mj, MaxOf(g, s, ms, i + 1, depth, sense));
      var c := MaxScan(g, s, ms, i, depth, sense, alpha, beta, bsf, best);
      if alpha' < beta {
        assert c == MaxScan(g, s, ms, i + 1, depth, sense, alpha', beta, bsf', best');
        assert acc' <= bsf' && (bsf' > a0 ==> acc' == bsf');
        MaxScanFailSoft(g, s, ms, i + 1, depth, sense, a0, alpha', beta, bsf', best', acc');
      } else {
        assert c == Scan(bsf', best');
        assert ret > bsf && ret >= beta && mj >= ret;
      }
    }
  }

  /** The invariant of the minimizing loop, the mirror image of
      MaxScanFailSoft around the caller's beta `b0`. */
  lemma {:induction false} MinScanFailSoft<S, M>(g: Game<S, M>, s: S, ms: seq<M>, i: nat, depth: nat, sense: int,
                                                  alpha: int, b0: int, beta: int, wsf: int, worst: M, acc: int)
    requires i <= |ms| && depth > 0
    requires -INFTY <= alpha && b0 <= INFTY && wsf <= INFTY
    requires beta == Min(b0, wsf) && alpha < beta
    requires wsf <= acc && (wsf < b0 ==> acc == wsf)
    ensures var c := MinScan(g, s, ms, i, depth, sense, alpha, beta, wsf, worst);
      && FailSoft(c.value, Min(acc, MinOf(g, s, ms, i, depth, sense)), alpha, b0)
      && (alpha < c.value < b0 && c.value < wsf ==>
            Minimax(g, g.play(s, c.best), depth - 1, sense * -1) == c.value)
    decreases depth, 0, |ms| - i
  {
    if i < |ms| {
      var val := FindMove(g, g.play(s, ms[i]), depth - 1, false, sense * -1, alpha, beta).value;
      var mj := Minimax(g, g.play(s, ms[i]), depth - 1, sense * -1);
      FindMoveFailSoft(g, g.play(s, ms[i]), depth - 1, false, sense * -1, alpha, beta);
      assert FailSoft(val, mj, alpha, beta);
      var worst' := if val < wsf then ms[i] else worst;
      var wsf' := Min(wsf, val);
      var beta' := Min(wsf', beta);
      var acc' := Min(acc, mj);
      assert MinOf(g, s, ms, i, depth, sense) == Min(mj, MinOf(g, s, ms, i + 1, depth, sense));
      var c := MinScan(g, s, ms, i, depth, sense, alpha, beta, wsf, worst);
      if alpha < beta' {
        assert c == MinScan(g, s, ms, i + 1, depth, sense, alpha, beta', wsf', worst');
        assert wsf' <= acc' && (wsf' < b0 ==> acc' == wsf');
        MinScanFailSoft(g, s, ms, i + 1, depth, sense, alpha, b0, beta', wsf', worst', acc');
      } else {
        assert c == Scan(wsf', worst');
        assert val < wsf && val <= alpha && mj <= val;
      }
    }
  }

  /** At the top level (full window, move saved) the value is exact
      whenever it is strictly inside (-INFTY, INFTY), and the recorded move
      leads to a child whose minimax value is the position's own: it is an
      optimal move at this depth. */
  lemma RecordedMoveIsOptimal<S, M>(g: Game<S, M>, s: S, depth: nat, sense: int)
    ensures var r := FindMove(g, s, depth, true, sense, -INFTY, INFTY);
      -INFTY < r.value < INFTY ==> r.value == Minimax(g, s, depth, sense)
    ensures var r := FindMove(g, s, depth, true, sense, -INFTY, INFTY);
      r.found.Some? && -INFTY < r.value < INFTY ==>
        depth > 0 && Minimax(g, g.play(s, r.found.value), depth - 1, sense * -1) == Minimax(g, s, depth, sense)
  {
    FindMoveFailSoft(g, s, depth, true, sense, -INFTY, INFTY);
    if depth > 0 && !g.over(s) && g.moves(s) != [] {
      var ms := g.moves(s);
      if sense == 1 {
        MaxScanFailSoft(g, s, ms, 0, depth, sense, -INFTY, -INFTY, INFTY, -INFTY, ms[0], -INFTY);
      } else {
        MinScanFailSoft(g, s, ms, 0, depth, sense, -INFTY, INFTY, INFTY, INFTY, ms[0], INFTY);
      }
    }
  }

  // ------------------------------------------------- bounded static scores

  /** Every static score lies in [-INFTY, INFTY], as staticScore's do
      whenever its heuristic part stays in that range. */
  ghost predicate ScoresBounded<S(!new), M>(g: Game<S, M>) {
    forall x :: -INFTY <= g.score(x) <= INFTY
  }

  /** With bounded static scores every minimax value is bounded too. */
  lemma {:induction false} MinimaxBounded<S(!new), M>(g: Game<S, M>, s: S, depth: nat, sense: int)
    requires ScoresBounded(g)
    ensures -INFTY <= Minimax(g, s, depth, sense) <= INFTY
    decreases depth, 1
  {
    if depth > 0 && !g.over(s) {
      ChildrenBounded(g, s, g.moves(s), 0, depth, sense);
    }
  }

  lemma {:induction false} ChildrenBounded<S(!new), M>(g: Game<S, M>, s: S, ms: seq<M>, i: nat, depth: nat, sense: int)
    requires ScoresBounded(g) && i <= |ms| && depth > 0
    ensures -INFTY <= MaxOf(g, s, ms, i, depth, sense) <= INFTY
    ensures -INFTY <= MinOf(g, s, ms, i, depth, sense) <= INFTY
    decreases depth, 0, |ms| - i
  {
    if i < |ms| {
      MinimaxBounded(g, g.play(s, ms[i]), depth - 1, sense * -1);
      ChildrenBounded(g, s, ms, i + 1, depth, sense);
    }
  }

  /** The minimax value of the child reached by move `j`. */
  function ChildValue<S, M>(g: Game<S, M>, s: S, ms: seq<M>, j: nat, depth: nat, sense: int): int
    requires j < |ms| && depth > 0
  {
    Minimax(g, g.play(s, ms[j]), depth - 1, sense * -1)
  }

  /** The maximizing loop at the root (full window), with bounded scores.
      Its invariant: alpha is the best value so far, which is the largest
      child value scanned, and `jb`, the index of the move kept, is the
      first scanned move reaching it (index 0 before any move is scanned).
      It returns the largest child value and keeps the first move that
      reaches it. */
  lemma {:induction false} MaxScanKeepsFirstBest<S(!new), M>(g: Game<S, M>, s: S, ms: seq<M>, i: nat, depth: nat,
                                                        sense: int, bsf: int, jb: nat)
      returns (j: nat)
    requires ScoresBounded(g) && i <= |ms| && depth > 0
    requires -INFTY <= bsf < INFTY && jb < |ms|
    requires forall k :: 0 <= k < i ==> ChildValue(g, s, ms, k, depth, sense) <= bsf
    requires forall k :: 0 <= k < jb ==> ChildValue(g, s, ms, k, depth, sense) < bsf
    requires i > 0 ==> jb < i && ChildValue(g, s, ms, jb, depth, sense) == bsf
    requires i == 0 ==> jb == 0 && bsf == -INFTY
    ensures var c := MaxScan(g, s, ms, i, depth, sense, bsf, INFTY, bsf, ms[jb]);
      && c.value == Max(bsf, MaxOf(g, s, ms, i, depth, sense))
      && j < |ms| && c.best == ms[j]
      && ChildValue(g, s, ms, j, depth, sense) == c.value
      && forall k :: 0 <= k < j ==> ChildValue(g, s, ms, k, depth, sense) < c.value
    decreases |ms| - i
  {
    if i == |ms| {
      j := jb;
    } else {
      var child := g.play(s, ms[i]);
      var ret := FindMove(g, child, depth - 1, false, sense * -1, bsf, INFTY).value;
      var mj := ChildValue(g, s, ms, i, depth, sense);
      FindMoveFailSoft(g, child, depth - 1, false, sense * -1, bsf, INFTY);
      MinimaxBounded(g, child, depth - 1, sense * -1);
      ChildrenBounded(g, s, ms, i + 1, depth, sense);
      assert MaxOf(g, s, ms, i, depth, sense) == Max(mj, MaxOf(g, s, ms, i + 1, depth, sense));
      if ret > bsf {
        assert mj == ret;
        if ret >= INFTY {
          j := i;
        } else {
          j := MaxScanKeepsFirstBest(g, s, ms, i + 1, depth, sense, ret, i);
        }
      } else {
        assert mj <= bsf;
        j := MaxScanKeepsFirstBest(g, s, ms, i + 1, depth, sense, bsf, jb);
      }
    }
  }

  /** The minimizing counterpart of MaxScanKeepsFirstBest: it returns the
      smallest child value and keeps the first move that reaches it. */
  lemma {:induction false} MinScanKeepsFirstBest<S(!new), M>(g: Game<S, M>, s: S, ms: seq<M>, i: nat, depth: nat,
                                                        sense: int, wsf: int, jb: nat)
      returns (j: nat)
    requires ScoresBounded(g) && i <= |ms| && depth > 0
    requires -INFTY < wsf <= INFTY && jb < |ms|
    requires forall k :: 0 <= k < i ==> wsf <= ChildValue(g, s, ms, k, depth, sense)
    requires forall k :: 0 <= k < jb ==> wsf < ChildValue(g, s, ms, k, depth, sense)
    requires i > 0 ==> jb < i && ChildValue(g, s, ms, jb, depth, sense) == wsf
    requires i == 0 ==> jb == 0 && wsf == INFTY
    ensures var c := MinScan(g, s, ms, i, depth, sense, -INFTY, wsf, wsf, ms[jb]);
      && c.value == Min(wsf, MinOf(g, s, ms, i, depth, sense))
      && j < |ms| && c.best == ms[j]
      && ChildValue(g, s, ms, j, depth, sense) == c.value
      && forall k :: 0 <= k < j ==> c.value < ChildValue(g, s, ms, k, depth, sense)
    decreases |ms| - i
  {
    if i == |ms| {
      j := jb;
    } else {
      var child := g.play(s, ms[i]);
      var val := FindMove(g, child, depth - 1, false, sense * -1, -INFTY, wsf).value;
      var mj := ChildValue(g, s, ms, i, depth, sense);
      FindMoveFailSoft(g, child, depth - 1, false, sense * -1, -INFTY, wsf);
      MinimaxBounded(g, child, depth - 1, sense * -1);
      ChildrenBounded(g, s, ms, i + 1, depth, sense);
      assert MinOf(g, s, ms, i, depth, sense) == Min(mj, MinOf(g, s, ms, i + 1, depth, sense));
      if val < wsf {
        assert mj == val;
        if val <= -INFTY {
          j := i;
        } else {
          j := MinScanKeepsFirstBest(g, s, ms, i + 1, depth, sense, val, i);
        }
      } else {
        assert wsf <= mj;
        j := MinScanKeepsFirstBest(g, s, ms, i + 1, depth, sense, wsf, jb);
      }
    }
  }

  /** At the top level (full window, move saved) with bounded static
      scores, won and lost positions included: the value is the minimax
      value, and the recorded move is the first listed move whose child
      has that value, the move an unpruned scan keeps. */
  lemma RootSearchIsExact<S(!new), M>(g: Game<S, M>, s: S, depth: nat, sense: int) returns (j: nat)
    requires ScoresBounded(g)
    ensures var r := FindMove(g, s, depth, true, sense, -INFTY, INFTY);
      r.value == Minimax(g, s, depth, sense)
    ensures var r := FindMove(g, s, depth, true, sense, -INFTY, INFTY);
      r.found.Some? ==>
        && depth > 0 && j < |g.moves(s)| && r.found.value == g.moves(s)[j]
        && ChildValue(g, s, g.moves(s), j, depth, sense) == Minimax(g, s, depth, sense)
        && forall k :: 0 <= k < j ==> ChildValue(g, s, g.moves(s), k, depth, sense) != Minimax(g, s, depth, sense)
  {
    j := 0;
    if depth > 0 && !g.over(s) && g.moves(s) != [] {
      var ms := g.moves(s);
      if sense == 1 {
        j := MaxScanKeepsFirstBest(g, s, ms, 0, depth, sense, -INFTY, 0);
      } else {
        j := MinScanKeepsFirstBest(g, s, ms, 0, depth, sense, INFTY, 0);
      }
    }
  }

  /** One ply above the horizon the move a maximizing loop records is one
      whose child has the returned value as its static score, and unless
      the loop was cut off at beta no child scores more. */
  lemma {:induction false} MaxScanRecordsAtDepthOne<S, M>(g: Game<S, M>, s: S, ms: seq<M>, i: nat, sense: int,
                                                           alpha: int, beta: int, bsf: int, best: M)
    requires i <= |ms| && alpha < beta
    ensures var r := MaxScan(g, s, ms, i, 1, sense, alpha, beta, bsf, best);
      && (r.value > bsf ==> g.score(g.play(s, r.best)) == r.value)
      && (r.value >= beta || forall j :: i <= j < |ms| ==> g.score(g.play(s, ms[j])) <= r.value)
    decreases |ms| - i
  {
    if i < |ms| {
      var ret := g.score(g.play(s, ms[i]));
      var bsf' := Max(bsf, ret);
      var best' := if ret > bsf then ms[i] else best;
      assert FindMove(g, g.play(s, ms[i]), 0, false, sense * -1, alpha, beta).value == ret;
      if Max(alpha, bsf') < beta {
        MaxScanRecordsAtDepthOne(g, s, ms, i + 1, sense, Max(alpha, bsf'), beta, bsf', best');
        assert MaxScan(g, s, ms, i, 1, sense, alpha, beta, bsf, best)
            == MaxScan(g, s, ms, i + 1, 1, sense, Max(alpha, bsf'), beta, bsf', best');
      }
    }
  }

  /** The minimizing counterpart of MaxScanRecordsAtDepthOne: unless the
      loop was cut off at alpha no child scores less. */
  lemma {:induction false} MinScanRecordsAtDepthOne<S, M>(g: Game<S, M>, s: S, ms: seq<M>, i: nat, sense: int,
                                                           alpha: int, beta: int, wsf: int, worst: M)
    requires i <= |ms| && alpha < beta
    ensures var r := MinScan(g, s, ms, i, 1, sense, alpha, beta, wsf, worst);
      && (r.value < wsf ==> g.score(g.play(s, r.best)) == r.value)
      && (r.value <= alpha || forall j :: i <= j < |ms| ==> r.value <= g.score(g.play(s, ms[j])))
    decreases |ms| - i
  {
    if i < |ms| {
      var val := g.score(g.play(s, ms[i]));
      var wsf' := Min(wsf, val);
      var worst' := if val < wsf then ms[i] else worst;
      assert FindMove(g, g.play(s, ms[i]), 0, false, sense * -1, alpha, beta).value == val;
      if alpha < Min(wsf', beta) {
        MinScanRecordsAtDepthOne(g, s, ms, i + 1, sense, alpha, Min(wsf', beta), wsf', worst');
        assert MinScan(g, s, ms, i, 1, sense, alpha, beta, wsf, worst)
            == MinScan(g, s, ms, i + 1, 1, sense, alpha, Min(wsf', beta), wsf', worst');
      }
    }
  }

  /** A search one ply deep records a move whose child's static score is
      the value returned (unless that value is the empty-loop bound), and
      that value is the best child score unless the window cut the loop
      short. */
  lemma DepthOneRecordsScore<S, M>(g: Game<S, M>, s: S, sense: int, alpha: int, beta: int)
    requires alpha < beta
    ensures var r := FindMove(g, s, 1, true, sense, alpha, beta);
      r.found.Some? && (if sense == 1 then r.value > -INFTY else r.value < INFTY) ==>
        g.score(g.play(s, r.found.value)) == r.value
    ensures var r := FindMove(g, s, 1, true, sense, alpha, beta);
      r.found.Some? ==> forall m :: m in g.moves(s) ==>
        if sense == 1 then r.value >= beta || g.score(g.play(s, m)) <= r.value
        else r.value <= alpha || r.value <= g.score(g.play(s, m))
  {
    if !g.over(s) && g.moves(s) != [] {
      var ms := g.moves(s);
      if sense == 1 {
        MaxScanRecordsAtDepthOne(g, s, ms, 0, sense, alpha, beta, -INFTY, ms[0]);
      } else {
        MinScanRecordsAtDepthOne(g, s, ms, 0, sense, alpha, beta, INFTY, ms[0]);
      }
    }
  }

  /** One ply deep with the full window, a minimizing search that has a
      move whose child scores below INFTY records a move whose child also
      scores below INFTY. */
  lemma DepthOneMinAvoidsTop<S, M>(g: Game<S, M>, s: S, sense: int, m: M)
    requires sense != 1 && !g.over(s) && m in g.moves(s) && g.score(g.play(s, m)) < INFTY
    ensures FindMove(g, s, 1, true, sense, -INFTY, INFTY).found.Some?
    ensures g.score(g.play(s, FindMove(g, s, 1, true, sense, -INFTY, INFTY).found.value)) < INFTY
  {
    DepthOneRecordsScore(g, s, sense, -INFTY, INFTY);
  }

  /** One ply deep with the full window, a maximizing search that has a
      move whose child scores INFTY or more records such a move. */
  lemma DepthOneMaxReachesTop<S, M>(g: Game<S, M>, s: S, m: M)
    requires !g.over(s) && m in g.moves(s) && g.score(g.play(s, m)) >= INFTY
    ensures FindMove(g, s, 1, true, 1, -INFTY, INFTY).found.Some?
    ensures g.score(g.play(s, FindMove(g, s, 1, true, 1, -INFTY, INFTY).found.value)) >= INFTY
  {
    DepthOneRecordsScore(g, s, 1, -INFTY, INFTY);
  }
}
