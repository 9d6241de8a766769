/**
 * MoveSelector: search every root move with a fresh full window and keep the
 * one whose score is strictly best for the side the computer plays, the
 * earliest on ties.
 */
module Selection {
  import opened Board
  import opened Extended
  import opened GameTree
  import opened Search

  /** The exact score of root move k: its position searched one ply shallower, opponent to move. */
  function RootScore(t: Tree, depth: nat, ai: Color, k: nat): XReal
    requires depth >= 1 && k < |t.kids|
  {
    Minimax(t.kids[k].1, depth - 1, ai == Black)
  }

  /** White wants higher scores, Black lower ones. */
  predicate Improves(ai: Color, score: XReal, best: XReal)
  {
    if ai == White then Lt(best, score) else Lt(score, best)
  }

  /** The starting best score: -Infinity for White, Infinity for Black. */
  function Sentinel(ai: Color): XReal
  {
    if ai == White then NegInf else PosInf
  }

  /**
   * The scan over the first n root moves: the best score so far and the
   * index of the move that holds it, replaced only by a strictly better score.
   */
  function BestPrefix(t: Tree, depth: nat, ai: Color, n: nat): (r: (XReal, Option<nat>))
    requires depth >= 1 && n <= |t.kids|
    ensures r.1.Some? ==> r.1.value < n
  {
    if n == 0 then (Sentinel(ai), None)
    else
      var prev := BestPrefix(t, depth, ai, n - 1);
      var score := RootScore(t, depth, ai, n - 1);
      if Improves(ai, score, prev.0) then (score, Some(n - 1)) else prev
  }

  /** The index of the chosen root move, if any. */
  function BestChoice(t: Tree, depth: nat, ai: Color): (k: Option<nat>)
    requires depth >= 1
    ensures k.Some? ==> k.value < |t.kids|
  {
    BestPrefix(t, depth, ai, |t.kids|).1
  }

  function MoveAt(t: Tree, k: Option<nat>): (m: Option<Move>)
    requires k.Some? ==> k.value < |t.kids|
    ensures m.Some? <==> k.Some?
  {
    if k.Some? then Some(t.kids[k.value].0) else None
  }

  /**
   * What the scan keeps, for every prefix: with no move kept, the best is the
   * sentinel and no score so far beat it; with move k kept, the best is k's
   * score, no score so far beats it, and every earlier score is strictly worse.
   */
  lemma {:induction false} BestPrefixMeaning(t: Tree, depth: nat, ai: Color, n: nat)
    requires depth >= 1 && n <= |t.kids|
    ensures var (best, k) := BestPrefix(t, depth, ai, n);
      && (k.None? ==> best == Sentinel(ai)
                      && forall j :: 0 <= j < n ==> !Improves(ai, RootScore(t, depth, ai, j), Sentinel(ai)))
      && (k.Some? ==> k.value < n && best == RootScore(t, depth, ai, k.value)
                      && Improves(ai, best, Sentinel(ai))
                      && (forall j :: 0 <= j < n ==> !Improves(ai, RootScore(t, depth, ai, j), best))
                      && (forall j :: 0 <= j < k.value ==> Improves(ai, best, RootScore(t, depth, ai, j))))
  {
    if n > 0 {
      BestPrefixMeaning(t, depth, ai, n - 1);
    }
  }

  /**
   * The chosen move is optimal for the computer's side, and it is the first
   * optimal one in enumeration order; nothing is chosen exactly when no
   * root score beats the starting sentinel (in particular when there are no moves).
   */
  lemma BestChoiceOptimal(t: Tree, depth: nat, ai: Color)
    requires depth >= 1
    ensures var k := BestChoice(t, depth, ai);
      && (k.None? <==> forall j :: 0 <= j < |t.kids| ==> !Improves(ai, RootScore(t, depth, ai, j), Sentinel(ai)))
      && (k.Some? ==>
            (forall j :: 0 <= j < |t.kids| ==> !Improves(ai, RootScore(t, depth, ai, j), RootScore(t, depth, ai, k.value)))
            && (forall j :: 0 <= j < k.value ==> Improves(ai, RootScore(t, depth, ai, k.value), RootScore(t, depth, ai, j))))
  {
    BestPrefixMeaning(t, depth, ai, |t.kids|);
    var k := BestChoice(t, depth, ai);
    if k.Some? {
      assert k.value < |t.kids|;
      assert Improves(ai, RootScore(t, depth, ai, k.value), Sentinel(ai));
    }
  }

  /** On a playable tree every searched value is a finite score. */
  lemma {:induction false} MinimaxFinite(t: Tree, depth: nat, maximizing: bool)
    requires Playable(t)
    ensures Minimax(t, depth, maximizing).Fin?
    decreases t, 1
  {
    if !(depth == 0 || t.over) {
      if maximizing {
        MaxPrefixFinite(t, |t.kids|, depth - 1);
      } else {
        MinPrefixFinite(t, |t.kids|, depth - 1);
      }
    }
  }

  lemma {:induction false} MaxPrefixFinite(t: Tree, n: nat, d: nat)
    requires Playable(t) && 0 < n <= |t.kids|
    ensures MaxPrefix(t, n, d).Fin?
    decreases t, 0, n
  {
    MinimaxFinite(t.kids[n - 1].1, d, false);
    if n > 1 {
      MaxPrefixFinite(t, n - 1, d);
    }
  }

  lemma {:induction false} MinPrefixFinite(t: Tree, n: nat, d: nat)
    requires Playable(t) && 0 < n <= |t.kids|
    ensures MinPrefix(t, n, d).Fin?
    decreases t, 0, n
  {
    MinimaxFinite(t.kids[n - 1].1, d, true);
    if n > 1 {
      MinPrefixFinite(t, n - 1, d);
    }
  }

  /** On a playable tree a move is chosen exactly when there is one to choose. */
  lemma PlayableChoice(t: Tree, depth: nat, ai: Color)
    requires depth >= 1 && Playable(t)
    ensures BestChoice(t, depth, ai).None? <==> |t.kids| == 0
  {
    BestChoiceOptimal(t, depth, ai);
    if |t.kids| > 0 {
      MinimaxFinite(t.kids[0].1, depth - 1, ai == Black);
      assert Improves(ai, RootScore(t, depth, ai, 0), Sentinel(ai));
    }
  }

  /** A minimiser over static leaves never reaches -Infinity. */
  lemma {:induction false} MinPrefixOverLeaves(t: Tree, n: nat)
    requires n <= |t.kids|
    ensures MinPrefix(t, n, 0) != NegInf
  {
    if n > 0 {
      MinPrefixOverLeaves(t, n - 1);
    }
  }

  /** A maximiser over static leaves never reaches Infinity. */
  lemma {:induction false} MaxPrefixOverLeaves(t: Tree, n: nat)
    requires n <= |t.kids|
    ensures MaxPrefix(t, n, 0) != PosInf
  {
    if n > 0 {
      MaxPrefixOverLeaves(t, n - 1);
    }
  }

  /**
   * At the depths the difficulty levels use (one and two plies), a move is
   * chosen exactly when there is one, even on trees that are not playable:
   * no root score can equal the starting infinity.
   */
  lemma ShallowChoice(t: Tree, depth: nat, ai: Color)
    requires depth == 1 || depth == 2
    ensures BestChoice(t, depth, ai).None? <==> |t.kids| == 0
  {
    BestChoiceOptimal(t, depth, ai);
    if |t.kids| > 0 {
      var c := t.kids[0].1;
      if ai == White {
        MinPrefixOverLeaves(c, |c.kids|);
      } else {
        MaxPrefixOverLeaves(c, |c.kids|);
      }
      assert Improves(ai, RootScore(t, depth, ai, 0), Sentinel(ai));
    }
  }

  /**
   * A three-ply tree with one root move whose reply leads to a position that
   * is not over yet has no moves (never a chess position).
   */
  function DeadEndTree(): (t: Tree)
    ensures |t.kids| == 1
  {
    var b: Grid := seq(8, _ => seq(8, _ => None));
    var deadEnd := Node(b, White, 0.0, false, []);
    var reply := Node(b, Black, 0.0, false, [(Move("a2", "a3", None), deadEnd)]);
    Node(b, White, 0.0, false, [(Move("a7", "a6", None), reply)])
  }

  /**
   * From three plies on, a search of a tree that is not playable can come
   * back empty although a move exists.
   */
  lemma DeepSearchCanChooseNothing()
    ensures !Playable(DeadEndTree())
    ensures |DeadEndTree().kids| > 0 && BestChoice(DeadEndTree(), 3, White).None?
  {
    var t := DeadEndTree();
    var reply := t.kids[0].1;
    var deadEnd := reply.kids[0].1;
    assert !Playable(deadEnd);
    assert !Playable(reply) by { assert reply.kids[0].1 == deadEnd; }
    assert Minimax(deadEnd, 1, true) == NegInf;
    assert MinPrefix(reply, 1, 1) == NegInf;
    assert RootScore(t, 3, White, 0) == NegInf;
  }

  /**
   * The root loop: each root move searched by a fresh full-window alpha-beta
   * search, the best kept under a strict comparison.
   */
  method FindBestMove(t: Tree, depth: nat, ai: Color) returns (best: Option<Move>)
    requires depth >= 1
    ensures best == MoveAt(t, BestChoice(t, depth, ai))
    ensures |t.kids| == 0 ==> best == None
    ensures best.Some? ==> exists k :: 0 <= k < |t.kids| && best.value == t.kids[k].0
  {
    var possibleMoves := t.kids;
    if |possibleMoves| == 0 {
      return None;
    }
    best := None;
    var bestScore := if ai == White then NegInf else PosInf;
    ghost var bestIndex: Option<nat> := None;
    for i := 0 to |possibleMoves|
      invariant (bestScore, bestIndex) == BestPrefix(t, depth, ai, i)
      invariant best == MoveAt(t, bestIndex)
    {
      var score := AlphaBeta(possibleMoves[i].1, depth - 1, NegInf, PosInf, ai == Black);
      if ai == White && Lt(bestScore, score) {
        bestScore, best := score, Some(possibleMoves[i].0);
        bestIndex := Some(i);
      } else if ai == Black && Lt(score, bestScore) {
        bestScore, best := score, Some(possibleMoves[i].0);
        bestIndex := Some(i);
      }
    }
    if best.Some? {
      assert t.kids[bestIndex.value].0 == best.value;
    }
  }
}
