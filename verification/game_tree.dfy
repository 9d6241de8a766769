/**
 * The positions the search walks, as the rules engine would unfold them: a
 * finite tree whose nodes carry the board, the side to move, whether the game
 * is over, and the legal moves in enumeration order, each with the position
 * it leads to. Each node also carries the random draw that its static
 * evaluation would consume.
 */
module GameTree {
  import opened Board

  /** A move as the rules engine reports it. */
  datatype Move = Move(from: string, to: string, promotion: Option<PieceType>)

  /** A value of Math.random(): a real in [0, 1). */
  type Draw = r: real | 0.0 <= r < 1.0

  datatype Tree = Node(board: Grid, toMove: Color, draw: Draw, over: bool, kids: seq<(Move, Tree)>)

  /**
   * The shape every chess position has: a position that is not over has at
   * least one legal move (no moves means checkmate or stalemate, both of which
   * end the game).
   */
  predicate Playable(t: Tree)
    decreases t
  {
    (!t.over ==> |t.kids| > 0)
    && forall k :: 0 <= k < |t.kids| ==> Playable(t.kids[k].1)
  }

  /** The position of the first listed move with a given index; None when the move is not listed. */
  function IndexOf(kids: seq<(Move, Tree)>, m: Move): (k: Option<nat>)
    ensures k.Some? ==> k.value < |kids| && kids[k.value].0 == m
                        && forall j :: 0 <= j < k.value ==> kids[j].0 != m
    ensures k.None? ==> forall j :: 0 <= j < |kids| ==> kids[j].0 != m
  {
    if |kids| == 0 then None
    else if kids[0].0 == m then Some(0)
    else
      match IndexOf(kids[1..], m)
      case None => None
      case Some(k) => Some(k + 1)
  }

  /** Playing a move: the position the (first) matching legal move leads to; None for a move not listed. */
  function Apply(t: Tree, m: Move): (r: Option<Tree>)
    ensures r.None? <==> forall j :: 0 <= j < |t.kids| ==> t.kids[j].0 != m
  {
    match IndexOf(t.kids, m)
    case None => None
    case Some(k) => Some(t.kids[k].1)
  }

  /** A legal-move list never lists the same move twice. */
  predicate DistinctMoves(t: Tree)
  {
    forall j, k :: 0 <= j < k < |t.kids| ==> t.kids[j].0 != t.kids[k].0
  }

  /** With distinct moves, playing the k-th listed move reaches the k-th child. */
  lemma ApplyListed(t: Tree, k: nat)
    requires DistinctMoves(t) && k < |t.kids|
    ensures Apply(t, t.kids[k].0) == Some(t.kids[k].1)
  {
  }
}
