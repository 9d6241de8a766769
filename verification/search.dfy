/**
 * SearchEngine: minimax with alpha-beta pruning over the game tree, and the
 * plain minimax it must agree with.
 */
module Search {
  import opened Extended
  import opened GameTree
  import Evaluation

  /** The static evaluation the search uses at a leaf: the board's score with the node's draw. */
  function LeafScore(t: Tree): real
  {
    Evaluation.Evaluate(t.board, t.draw)
  }

  /** Since every draw is in [0, 1), a leaf's score is within 0.05 of its noise-free material. */
  lemma LeafNearMaterial(t: Tree)
    ensures Evaluation.Material(t.board) - 0.05 <= LeafScore(t) < Evaluation.Material(t.board) + 0.05
  {
  }

  /** Unpruned minimax: the reference value of a position searched to a depth. */
  function Minimax(t: Tree, depth: nat, maximizing: bool): XReal
    decreases t, 1, 0
  {
    if depth == 0 || t.over then Fin(LeafScore(t))
    else if maximizing then MaxPrefix(t, |t.kids|, depth - 1)
    else MinPrefix(t, |t.kids|, depth - 1)
  }

  /** The best value for the maximiser among the first n children, -Infinity for none. */
  function MaxPrefix(t: Tree, n: nat, d: nat): XReal
    requires n <= |t.kids|
    decreases t, 0, n
  {
    if n == 0 then NegInf
    else Max(MaxPrefix(t, n - 1, d), Minimax(t.kids[n - 1].1, d, false))
  }

  /** The best value for the minimiser among the first n children, Infinity for none. */
  function MinPrefix(t: Tree, n: nat, d: nat): XReal
    requires n <= |t.kids|
    decreases t, 0, n
  {
    if n == 0 then PosInf
    else Min(MinPrefix(t, n - 1, d), Minimax(t.kids[n - 1].1, d, true))
  }

  /**
   * What a fail-soft search with window (alpha, beta) owes its caller, given
   * the true value m: exact inside the window, and on the correct side of the
   * window (and no further than m) outside it.
   */
  predicate FailSoft(m: XReal, v: XReal, alpha: XReal, beta: XReal)
  {
    (Le(m, alpha) ==> Le(m, v) && Le(v, alpha))
    && (Lt(alpha, m) && Lt(m, beta) ==> v == m)
    && (Le(beta, m) ==> Le(beta, v) && Le(v, m))
  }

  lemma {:induction false} MaxPrefixBelow(t: Tree, i: nat, n: nat, d: nat)
    requires i <= n <= |t.kids|
    ensures Le(MaxPrefix(t, i, d), MaxPrefix(t, n, d))
  {
    if i < n {
      MaxPrefixBelow(t, i, n - 1, d);
    }
  }

  lemma {:induction false} MinPrefixAbove(t: Tree, i: nat, n: nat, d: nat)
    requires i <= n <= |t.kids|
    ensures Le(MinPrefix(t, n, d), MinPrefix(t, i, d))
  {
    if i < n {
      MinPrefixAbove(t, i, n - 1, d);
    }
  }

  /**
   * One step of the maximiser's scan: given that the child's value vi is
   * fail-soft for the child's true value mi in the window (max(alpha, best), beta),
   * either the window closes with a score at least beta and at most mi, or the
   * running best keeps its relation to the running true maximum.
   */
  lemma MaxStep(alpha: XReal, beta: XReal, best: XReal, trueBest: XReal, mi: XReal, vi: XReal)
    requires Lt(Max(alpha, best), beta)
    requires Le(trueBest, best)
    requires Lt(alpha, best) ==> best == trueBest
    requires FailSoft(mi, vi, Max(alpha, best), beta)
    ensures Le(beta, Max(Max(alpha, best), vi)) ==> Le(beta, Max(best, vi)) && Le(Max(best, vi), mi)
    ensures !Le(beta, Max(Max(alpha, best), vi)) ==>
      Le(Max(trueBest, mi), Max(best, vi)) && (Lt(alpha, Max(best, vi)) ==> Max(best, vi) == Max(trueBest, mi))
  {
  }

  /** The minimiser's step, the mirror image of MaxStep. */
  lemma MinStep(alpha: XReal, beta: XReal, best: XReal, trueBest: XReal, mi: XReal, vi: XReal)
    requires Lt(alpha, Min(beta, best))
    requires Le(best, trueBest)
    requires Lt(best, beta) ==> best == trueBest
    requires FailSoft(mi, vi, alpha, Min(beta, best))
    ensures Le(Min(Min(beta, best), vi), alpha) ==> Le(Min(best, vi), alpha) && Le(mi, Min(best, vi))
    ensures !Le(Min(Min(beta, best), vi), alpha) ==>
      Le(Min(best, vi), Min(trueBest, mi)) && (Lt(Min(best, vi), beta) ==> Min(best, vi) == Min(trueBest, mi))
  {
  }

  /** The maximiser's scan ended without a cutoff. */
  lemma MaxFinish(alpha: XReal, beta: XReal, best: XReal, trueBest: XReal)
    requires Lt(Max(alpha, best), beta)
    requires Le(trueBest, best)
    requires Lt(alpha, best) ==> best == trueBest
    ensures FailSoft(trueBest, best, alpha, beta)
  {
  }

  /** The maximiser's scan stopped at a cutoff with a score between beta and the true value. */
  lemma MaxCutFinish(alpha: XReal, beta: XReal, best: XReal, trueBest: XReal)
    requires Lt(alpha, beta)
    requires Le(beta, best) && Le(best, trueBest)
    ensures FailSoft(trueBest, best, alpha, beta)
  {
  }

  /** The minimiser's scan stopped at a cutoff with a score between the true value and alpha. */
  lemma MinCutFinish(alpha: XReal, beta: XReal, best: XReal, trueBest: XReal)
    requires Lt(alpha, beta)
    requires Le(best, alpha) && Le(trueBest, best)
    ensures FailSoft(trueBest, best, alpha, beta)
  {
  }

  /** The minimiser's scan ended without a cutoff. */
  lemma MinFinish(alpha: XReal, beta: XReal, best: XReal, trueBest: XReal)
    requires Lt(alpha, Min(beta, best))
    requires Le(best, trueBest)
    requires Lt(best, beta) ==> best == trueBest
    ensures FailSoft(trueBest, best, alpha, beta)
  {
  }

  /** The maximiser's running best: Math.max folded over the scores seen, from -Infinity. */
  function MaxOf(scores: seq<XReal>): XReal
  {
    if |scores| == 0 then NegInf else Max(MaxOf(scores[..|scores| - 1]), scores[|scores| - 1])
  }

  /** The minimiser's running best: Math.min folded over the scores seen, from Infinity. */
  function MinOf(scores: seq<XReal>): XReal
  {
    if |scores| == 0 then PosInf else Min(MinOf(scores[..|scores| - 1]), scores[|scores| - 1])
  }

  /**
   * The scores returned by the first |scores| children of a maximising node:
   * each child k was searched while the window (max(alpha, best of the first
   * k scores), beta) was still open, and its score is fail-soft for its true
   * value in that window. Stated one child at a time, from the last back.
   */
  ghost predicate MaxSteps(t: Tree, d: nat, alpha: XReal, beta: XReal, scores: seq<XReal>)
    decreases |scores|
  {
    |scores| <= |t.kids|
    && (|scores| > 0 ==>
          var k := |scores| - 1;
          MaxSteps(t, d, alpha, beta, scores[..k])
          && Lt(Max(alpha, MaxOf(scores[..k])), beta)
          && FailSoft(Minimax(t.kids[k].1, d, false), scores[k], Max(alpha, MaxOf(scores[..k])), beta))
  }

  /** The minimiser's counterpart of MaxSteps, with the window (alpha, min(beta, best so far)). */
  ghost predicate MinSteps(t: Tree, d: nat, alpha: XReal, beta: XReal, scores: seq<XReal>)
    decreases |scores|
  {
    |scores| <= |t.kids|
    && (|scores| > 0 ==>
          var k := |scores| - 1;
          MinSteps(t, d, alpha, beta, scores[..k])
          && Lt(alpha, Min(beta, MinOf(scores[..k])))
          && FailSoft(Minimax(t.kids[k].1, d, true), scores[k], alpha, Min(beta, MinOf(scores[..k]))))
  }

  /**
   * A whole maximiser scan: the steps above, the result is the maximum of the
   * returned scores, and children are left unvisited only when the last score
   * closed the window.
   */
  ghost predicate MaxScan(t: Tree, d: nat, alpha: XReal, beta: XReal, scores: seq<XReal>, v: XReal)
  {
    MaxSteps(t, d, alpha, beta, scores)
    && v == MaxOf(scores)
    && (|scores| < |t.kids| ==> 0 < |scores| && Le(beta, Max(alpha, v)))
  }

  /** A whole minimiser scan, the mirror image of MaxScan. */
  ghost predicate MinScan(t: Tree, d: nat, alpha: XReal, beta: XReal, scores: seq<XReal>, v: XReal)
  {
    MinSteps(t, d, alpha, beta, scores)
    && v == MinOf(scores)
    && (|scores| < |t.kids| ==> 0 < |scores| && Le(Min(beta, v), alpha))
  }

  /** One more child searched in the open window keeps MaxSteps and extends the fold. */
  lemma MaxStepsExtend(t: Tree, d: nat, alpha: XReal, beta: XReal, scores: seq<XReal>, x: XReal)
    requires MaxSteps(t, d, alpha, beta, scores) && |scores| < |t.kids|
    requires Lt(Max(alpha, MaxOf(scores)), beta)
    requires FailSoft(Minimax(t.kids[|scores|].1, d, false), x, Max(alpha, MaxOf(scores)), beta)
    ensures MaxSteps(t, d, alpha, beta, scores + [x])
    ensures MaxOf(scores + [x]) == Max(MaxOf(scores), x)
    ensures Max(Max(alpha, MaxOf(scores)), x) == Max(alpha, MaxOf(scores + [x]))
  {
    assert (scores + [x])[..|scores|] == scores;
  }

  /** One more child searched in the open window keeps MinSteps and extends the fold. */
  lemma MinStepsExtend(t: Tree, d: nat, alpha: XReal, beta: XReal, scores: seq<XReal>, x: XReal)
    requires MinSteps(t, d, alpha, beta, scores) && |scores| < |t.kids|
    requires Lt(alpha, Min(beta, MinOf(scores)))
    requires FailSoft(Minimax(t.kids[|scores|].1, d, true), x, alpha, Min(beta, MinOf(scores)))
    ensures MinSteps(t, d, alpha, beta, scores + [x])
    ensures MinOf(scores + [x]) == Min(MinOf(scores), x)
    ensures Min(Min(beta, MinOf(scores)), x) == Min(beta, MinOf(scores + [x]))
  {
    assert (scores + [x])[..|scores|] == scores;
  }

  /**
   * Along a maximiser scan whose window is still open, the running best is an
   * upper bound of the true maximum over the children searched so far, and
   * equals it once it rises above alpha.
   */
  lemma {:induction false} MaxScanPrefix(t: Tree, d: nat, alpha: XReal, beta: XReal, scores: seq<XReal>)
    requires MaxSteps(t, d, alpha, beta, scores)
    requires Lt(Max(alpha, MaxOf(scores)), beta)
    ensures Le(MaxPrefix(t, |scores|, d), MaxOf(scores))
    ensures Lt(alpha, MaxOf(scores)) ==> MaxOf(scores) == MaxPrefix(t, |scores|, d)
    decreases |scores|
  {
    if |scores| > 0 {
      var k := |scores| - 1;
      MaxScanPrefix(t, d, alpha, beta, scores[..k]);
      MaxStep(alpha, beta, MaxOf(scores[..k]), MaxPrefix(t, k, d), Minimax(t.kids[k].1, d, false), scores[k]);
    }
  }

  /** The minimiser's counterpart of MaxScanPrefix. */
  lemma {:induction false} MinScanPrefix(t: Tree, d: nat, alpha: XReal, beta: XReal, scores: seq<XReal>)
    requires MinSteps(t, d, alpha, beta, scores)
    requires Lt(alpha, Min(beta, MinOf(scores)))
    ensures Le(MinOf(scores), MinPrefix(t, |scores|, d))
    ensures Lt(MinOf(scores), beta) ==> MinOf(scores) == MinPrefix(t, |scores|, d)
    decreases |scores|
  {
    if |scores| > 0 {
      var k := |scores| - 1;
      MinScanPrefix(t, d, alpha, beta, scores[..k]);
      MinStep(alpha, beta, MinOf(scores[..k]), MinPrefix(t, k, d), Minimax(t.kids[k].1, d, true), scores[k]);
    }
  }

  /**
   * Alpha-beta correctness for a maximising node: whatever scan the loop
   * performed, its result is fail-soft for the true maximum over all children.
   */
  lemma MaxScanFailSoft(t: Tree, d: nat, alpha: XReal, beta: XReal, scores: seq<XReal>, v: XReal)
    requires Lt(alpha, beta)
    requires MaxScan(t, d, alpha, beta, scores, v)
    ensures FailSoft(MaxPrefix(t, |t.kids|, d), v, alpha, beta)
  {
    if Lt(Max(alpha, v), beta) {
      MaxScanPrefix(t, d, alpha, beta, scores);
      MaxFinish(alpha, beta, v, MaxPrefix(t, |scores|, d));
    } else {
      var k := |scores| - 1;
      MaxScanPrefix(t, d, alpha, beta, scores[..k]);
      MaxStep(alpha, beta, MaxOf(scores[..k]), MaxPrefix(t, k, d), Minimax(t.kids[k].1, d, false), scores[k]);
      MaxPrefixBelow(t, k + 1, |t.kids|, d);
      MaxCutFinish(alpha, beta, v, MaxPrefix(t, |t.kids|, d));
    }
  }

  /** Alpha-beta correctness for a minimising node. */
  lemma MinScanFailSoft(t: Tree, d: nat, alpha: XReal, beta: XReal, scores: seq<XReal>, v: XReal)
    requires Lt(alpha, beta)
    requires MinScan(t, d, alpha, beta, scores, v)
    ensures FailSoft(MinPrefix(t, |t.kids|, d), v, alpha, beta)
  {
    if Lt(alpha, Min(beta, v)) {
      MinScanPrefix(t, d, alpha, beta, scores);
      MinFinish(alpha, beta, v, MinPrefix(t, |scores|, d));
    } else {
      var k := |scores| - 1;
      MinScanPrefix(t, d, alpha, beta, scores[..k]);
      MinStep(alpha, beta, MinOf(scores[..k]), MinPrefix(t, k, d), Minimax(t.kids[k].1, d, true), scores[k]);
      MinPrefixAbove(t, k + 1, |t.kids|, d);
      MinCutFinish(alpha, beta, v, MinPrefix(t, |t.kids|, d));
    }
  }

  /**
   * The pruned search. At depth 0 or at a finished game it returns the static
   * evaluation without looking at any move; otherwise it scans the children as
   * the side to move (MaxNode for the maximiser, MinNode for the minimiser).
   */
  method AlphaBeta(t: Tree, depth: nat, alpha: XReal, beta: XReal, maximizing: bool) returns (v: XReal)
    requires Lt(alpha, beta)
    ensures FailSoft(Minimax(t, depth, maximizing), v, alpha, beta)
    ensures alpha == NegInf && beta == PosInf ==> v == Minimax(t, depth, maximizing)
    ensures depth == 0 || t.over ==> v == Fin(LeafScore(t))
    decreases t, 1
  {
    if depth == 0 || t.over {
      var score := Evaluation.EvaluateBoard(t.board, t.draw);
      return Fin(score);
    }
    if maximizing {
      ghost var scores;
      v, scores := MaxNode(t, depth, alpha, beta);
    } else {
      ghost var scores;
      v, scores := MinNode(t, depth, alpha, beta);
    }
  }

  /**
   * The maximiser's scan: children in enumeration order, each searched one ply
   * shallower as the minimiser; the running maximum raises alpha, and the scan
   * stops right after the child that makes beta <= alpha.
   */
  method MaxNode(t: Tree, depth: nat, alpha: XReal, beta: XReal) returns (v: XReal, ghost scores: seq<XReal>)
    requires depth > 0 && !t.over
    requires Lt(alpha, beta)
    ensures MaxScan(t, depth - 1, alpha, beta, scores, v)
    ensures FailSoft(Minimax(t, depth, true), v, alpha, beta)
    decreases t, 0
  {
    var moves := t.kids;
    var maxEval := NegInf;
    var a := alpha;
    var i := 0;
    scores := [];
    while i < |moves|
      invariant 0 <= i <= |moves| && i == |scores|
      invariant maxEval == MaxOf(scores) && a == Max(alpha, maxEval)
      invariant Lt(a, beta)
      invariant MaxSteps(t, depth - 1, alpha, beta, scores)
    {
      var evalScore := AlphaBeta(moves[i].1, depth - 1, a, beta, false);
      MaxStepsExtend(t, depth - 1, alpha, beta, scores, evalScore);
      scores := scores + [evalScore];
      maxEval := Max(maxEval, evalScore);
      a := Max(a, evalScore);
      if Le(beta, a) {
        i := i + 1;
        break;
      }
      i := i + 1;
    }
    v := maxEval;
    MaxScanFailSoft(t, depth - 1, alpha, beta, scores, v);
  }

  /**
   * The minimiser's scan: the mirror image of MaxNode, with the running
   * minimum lowering beta.
   */
  method MinNode(t: Tree, depth: nat, alpha: XReal, beta: XReal) returns (v: XReal, ghost scores: seq<XReal>)
    requires depth > 0 && !t.over
    requires Lt(alpha, beta)
    ensures MinScan(t, depth - 1, alpha, beta, scores, v)
    ensures FailSoft(Minimax(t, depth, false), v, alpha, beta)
    decreases t, 0
  {
    var moves := t.kids;
    var minEval := PosInf;
    var b := beta;
    var i := 0;
    scores := [];
    while i < |moves|
      invariant 0 <= i <= |moves| && i == |scores|
      invariant minEval == MinOf(scores) && b == Min(beta, minEval)
      invariant Lt(alpha, b)
      invariant MinSteps(t, depth - 1, alpha, beta, scores)
    {
      var evalScore := AlphaBeta(moves[i].1, depth - 1, alpha, b, true);
      MinStepsExtend(t, depth - 1, alpha, beta, scores, evalScore);
      scores := scores + [evalScore];
      minEval := Min(minEval, evalScore);
      b := Min(b, evalScore);
      if Le(b, alpha) {
        i := i + 1;
        break;
      }
      i := i + 1;
    }
    v := minEval;
    MinScanFailSoft(t, depth - 1, alpha, beta, scores, v);
  }
}
