/**
 * DifficultyPolicy: the computer's turn. Difficulty 0 plays a uniformly drawn
 * legal move; difficulty 1 searches one ply and anything else two plies. The
 * random draw is a parameter of type Draw, a real in [0, 1).
 */
module Difficulty {
  import opened Board
  import opened GameTree
  import opened Selection

  /** The search depth for a difficulty level. */
  function SearchDepth(difficulty: int): (depth: nat)
    ensures depth <= 2
    ensures depth == 0 <==> difficulty == 0
    ensures difficulty == 1 ==> depth == 1
    ensures difficulty != 0 && difficulty != 1 ==> depth == 2
  {
    if difficulty == 0 then 0 else if difficulty == 1 then 1 else 2
  }

  /**
   * The easy-mode pick: index floor(draw * n) into the n legal moves. With no
   * moves, index 0 of the empty list yields nothing.
   */
  function RandomIndex(n: nat, draw: Draw): (k: Option<nat>)
    ensures k.None? <==> n == 0
    ensures k.Some? ==> k.value < n
  {
    if n == 0 then None
    else
      var x := draw * n as real;
      assert x < n as real by {
        assert (1.0 - draw) * n as real > 0.0;
      }
      Some(x.Floor)
  }

  /**
   * Which move a draw picks: index k exactly when the draw falls in the k-th
   * of n equal slices of [0, 1), so every legal move is picked by a slice of
   * width 1/n.
   */
  lemma RandomIndexUniform(n: nat, draw: Draw, k: nat)
    requires k < n
    ensures RandomIndex(n, draw) == Some(k) <==> k as real / n as real <= draw < (k + 1) as real / n as real
  {
    var q := n as real;
    DivBelow(k as real, draw, q);
    DivAbove((k + 1) as real, draw, q);
  }

  /** a / q <= b exactly when a <= b * q, for positive q. */
  lemma DivBelow(a: real, b: real, q: real)
    requires q > 0.0
    ensures a / q <= b <==> a <= b * q
  {
    assert (a / q) * q == a;
    if a / q <= b {
      assert (a / q) * q <= b * q;
    }
    if a <= b * q {
      assert (b * q) / q == b;
      assert a / q <= (b * q) / q;
    }
  }

  /** b < a / q exactly when b * q < a, for positive q. */
  lemma DivAbove(a: real, b: real, q: real)
    requires q > 0.0
    ensures b < a / q <==> b * q < a
  {
    assert (a / q) * q == a;
    if b < a / q {
      assert b * q < (a / q) * q;
    }
    if b * q < a {
      assert (b * q) / q == b;
      assert (b * q) / q < a / q;
    }
  }

  /** The index of the move the computer plays, if any, once the guards have passed. */
  function AIChoice(t: Tree, ai: Color, difficulty: int, draw: Draw): (k: Option<nat>)
    ensures k.Some? ==> k.value < |t.kids|
  {
    if difficulty == 0 then RandomIndex(|t.kids|, draw)
    else BestChoice(t, SearchDepth(difficulty), ai)
  }

  /**
   * At every difficulty level no move comes back exactly when there are no
   * legal moves: the easy pick always indexes a non-empty list, and the
   * searches run at one or two plies.
   */
  lemma AIChoiceEmpty(t: Tree, ai: Color, difficulty: int, draw: Draw)
    ensures AIChoice(t, ai, difficulty, draw).None? <==> |t.kids| == 0
  {
    if difficulty != 0 {
      ShallowChoice(t, SearchDepth(difficulty), ai);
    }
  }

  /**
   * The computer's turn as a state update: the game is left as it is when it
   * is over, when it is not the computer's turn, or when no move comes back;
   * otherwise the chosen move is played and reported.
   */
  method MakeAIMove(game: Tree, ai: Color, difficulty: int, draw: Draw)
    returns (next: Tree, played: Option<Move>)
    ensures game.over || game.toMove != ai ==> next == game && played == None
    ensures !game.over && game.toMove == ai ==>
      var k := AIChoice(game, ai, difficulty, draw);
      && (k.None? ==> next == game && played == None)
      && (k.Some? ==> played == Some(game.kids[k.value].0) && Apply(game, played.value) == Some(next))
  {
    if game.over || game.toMove != ai {
      return game, None;
    }
    var depth := SearchDepth(difficulty);
    var move: Option<Move>;
    if difficulty == 0 {
      var k := RandomIndex(|game.kids|, draw);
      move := if k.Some? then Some(game.kids[k.value].0) else None;
    } else {
      move := FindBestMove(game, depth, ai);
    }
    if move.None? {
      return game, None;
    }
    var child := Apply(game, move.value);
    next, played := child.value, move;
  }

  /**
   * On a playable position where the computer is to move, a move is always
   * chosen; with distinct legal moves, playing it reaches that move's position.
   */
  lemma AIAlwaysMoves(game: Tree, ai: Color, difficulty: int, draw: Draw)
    requires Playable(game) && DistinctMoves(game) && !game.over
    ensures var k := AIChoice(game, ai, difficulty, draw);
      k.Some? && Apply(game, game.kids[k.value].0) == Some(game.kids[k.value].1)
  {
    if difficulty != 0 {
      PlayableChoice(game, SearchDepth(difficulty), ai);
    }
    var k := AIChoice(game, ai, difficulty, draw);
    ApplyListed(game, k.value);
  }
}
