/**
 * Evaluator: the static score of a board, positive when it favours White.
 * Material is signed by colour, a piece on d4, d5, e4 or e5 earns a quarter
 * pawn for its side, and a small noise term taken from a random draw in
 * [0, 1) is added last.
 */
module Evaluation {
  import opened Board

  /** The piece-value table; every piece kind has an entry. */
  function PieceValue(t: PieceType): (v: real)
    ensures v >= 0.0
    ensures v == 0.0 <==> t == King
  {
    match t
    case Pawn => 1.0
    case Knight => 3.0
    case Bishop => 3.2
    case Rook => 5.0
    case Queen => 9.0
    case King => 0.0
  }

  function ColorSign(c: Color): (s: real)
    ensures s == 1.0 || s == -1.0
    ensures s > 0.0 <==> c == White
  {
    if c == White then 1.0 else -1.0
  }

  const CentreBonus: real := 0.25

  /** What one square adds to the score. */
  function SquareScore(s: Square, i: nat, j: nat): real
    requires i < 8 && j < 8
  {
    match s
    case None => 0.0
    case Some(p) =>
      PieceValue(p.kind) * ColorSign(p.color)
      + (if IsCentre(i, j) then CentreBonus * ColorSign(p.color) else 0.0)
  }

  /** The sum of the first n squares of row i. */
  function RowPrefix(row: seq<Square>, i: nat, n: nat): real
    requires i < 8 && n <= |row| <= 8
  {
    if n == 0 then 0.0 else RowPrefix(row, i, n - 1) + SquareScore(row[n - 1], i, n - 1)
  }

  /** The sum over the first m rows. */
  function BoardPrefix(b: Grid, m: nat): real
    requires m <= 8
  {
    if m == 0 then 0.0 else BoardPrefix(b, m - 1) + RowPrefix(b[m - 1], m - 1, |b[m - 1]|)
  }

  /** The noise-free evaluation: the sum of every square's contribution. */
  function Material(b: Grid): real
  {
    BoardPrefix(b, |b|)
  }

  /** The variety term, (draw - 0.5) * 0.1. */
  function Noise(draw: real): (n: real)
    ensures 0.0 <= draw < 1.0 ==> -0.05 <= n < 0.05
  {
    (draw - 0.5) * 0.1
  }

  /** The full evaluation for a given random draw. */
  function Evaluate(b: Grid, draw: real): real
  {
    Material(b) + Noise(draw)
  }

  /** The nested scan over rows and columns that accumulates the score. */
  method EvaluateBoard(b: Grid, draw: real) returns (score: real)
    ensures score == Material(b) + Noise(draw)
  {
    score := 0.0;
    for i := 0 to 8
      invariant score == BoardPrefix(b, i)
    {
      for j := 0 to 8
        invariant score == BoardPrefix(b, i) + RowPrefix(b[i], i, j)
      {
        var piece := b[i][j];
        if piece.None? {
          continue;
        }
        var base := PieceValue(piece.value.kind);
        var colorSign := ColorSign(piece.value.color);
        score := score + base * colorSign;
        var square := SquareName(i, j);
        if square in CentreSquares {
          score := score + CentreBonus * colorSign;
        }
      }
    }
    score := score + (draw - 0.5) * 0.1;
  }

  /** An empty square adds nothing, and a king adds only its centre bonus. */
  lemma NoMaterialFromEmptyOrKing(s: Square, i: nat, j: nat)
    requires i < 8 && j < 8
    ensures s.None? ==> SquareScore(s, i, j) == 0.0
    ensures s.Some? && s.value.kind == King ==>
      SquareScore(s, i, j) == (if IsCentre(i, j) then CentreBonus * ColorSign(s.value.color) else 0.0)
  {
  }

  lemma SwapSquareNegates(s: Square, i: nat, j: nat)
    requires i < 8 && j < 8
    ensures SquareScore(SwapSquare(s), i, j) == -SquareScore(s, i, j)
  {
  }

  lemma {:induction false} SwapRowNegates(row: seq<Square>, i: nat, n: nat)
    requires i < 8 && n <= |row| <= 8
    ensures RowPrefix(SwapRow(row), i, n) == -RowPrefix(row, i, n)
  {
    if n > 0 {
      SwapRowNegates(row, i, n - 1);
      SwapSquareNegates(row[n - 1], i, n - 1);
    }
  }

  lemma {:induction false} SwapBoardPrefixNegates(b: Grid, m: nat)
    requires m <= 8
    ensures BoardPrefix(SwapColors(b), m) == -BoardPrefix(b, m)
  {
    if m > 0 {
      SwapBoardPrefixNegates(b, m - 1);
      SwapRowNegates(b[m - 1], m - 1, |b[m - 1]|);
    }
  }

  /** Handing every piece to the other side negates the noise-free score. */
  lemma SwapColorsNegates(b: Grid)
    ensures Material(SwapColors(b)) == -Material(b)
  {
    SwapBoardPrefixNegates(b, |b|);
  }

  /** The back-rank piece order from file a to file h. */
  const BackRankKinds: seq<PieceType> := [Rook, Knight, Bishop, Queen, King, Bishop, Knight, Rook]

  /** One side's back rank as it stands at the start. */
  function BackRank(c: Color): (row: seq<Square>)
    ensures |row| == 8
  {
    seq(8, j requires 0 <= j < 8 => Some(Piece(BackRankKinds[j], c)))
  }

  /** One side's eight pawns. */
  function PawnRank(c: Color): (row: seq<Square>)
    ensures |row| == 8
  {
    seq(8, _ => Some(Piece(Pawn, c)))
  }

  /** The standard starting position: Black on rows 0 and 1, White on rows 6 and 7. */
  function InitialBoard(): Grid
  {
    var empty := seq(8, _ => None);
    [BackRank(Black), PawnRank(Black), empty, empty, empty, empty, PawnRank(White), BackRank(White)]
  }

  lemma RowPrefixEight(row: seq<Square>, i: nat)
    requires i < 8 && |row| == 8
    ensures RowPrefix(row, i, |row|) ==
      SquareScore(row[0], i, 0) + SquareScore(row[1], i, 1) + SquareScore(row[2], i, 2)
      + SquareScore(row[3], i, 3) + SquareScore(row[4], i, 4) + SquareScore(row[5], i, 5)
      + SquareScore(row[6], i, 6) + SquareScore(row[7], i, 7)
  {
    assert RowPrefix(row, i, 1) == SquareScore(row[0], i, 0);
    assert RowPrefix(row, i, 2) == RowPrefix(row, i, 1) + SquareScore(row[1], i, 1);
    assert RowPrefix(row, i, 3) == RowPrefix(row, i, 2) + SquareScore(row[2], i, 2);
    assert RowPrefix(row, i, 4) == RowPrefix(row, i, 3) + SquareScore(row[3], i, 3);
    assert RowPrefix(row, i, 5) == RowPrefix(row, i, 4) + SquareScore(row[4], i, 4);
    assert RowPrefix(row, i, 6) == RowPrefix(row, i, 5) + SquareScore(row[5], i, 5);
    assert RowPrefix(row, i, 7) == RowPrefix(row, i, 6) + SquareScore(row[6], i, 6);
    assert RowPrefix(row, i, 8) == RowPrefix(row, i, 7) + SquareScore(row[7], i, 7);
  }

  lemma OffCentreRow(i: nat)
    requires i < 8 && i != 3 && i != 4
    ensures forall j :: 0 <= j < 8 ==> !IsCentre(i, j)
  {
    forall j | 0 <= j < 8
      ensures !IsCentre(i, j)
    {
      CentreByIndex(i, j);
    }
  }

  /** A back rank standing on an edge row (off the centre) is worth 31.4 for its side. */
  lemma BackRankScore(row: seq<Square>, i: nat, c: Color)
    requires (i == 0 || i == 7) && row == BackRank(c)
    ensures RowPrefix(row, i, |row|) == 31.4 * ColorSign(c)
  {
    OffCentreRow(i);
    RowPrefixEight(row, i);
  }

  /** A full pawn rank on a row off the centre (the second or seventh rank) is worth 8 for its side. */
  lemma PawnRankScore(row: seq<Square>, i: nat, c: Color)
    requires (i == 1 || i == 6) && row == PawnRank(c)
    ensures RowPrefix(row, i, |row|) == 8.0 * ColorSign(c)
  {
    OffCentreRow(i);
    RowPrefixEight(row, i);
  }

  /** A rank with no pieces is worth nothing, wherever it stands. */
  lemma EmptyRankScore(row: seq<Square>, i: nat)
    requires i < 8 && |row| == 8 && forall j :: 0 <= j < 8 ==> row[j].None?
    ensures RowPrefix(row, i, |row|) == 0.0
  {
    RowPrefixEight(row, i);
  }

  /** The starting position is balanced: its noise-free score is zero. */
  lemma InitialBalanced()
    ensures Material(InitialBoard()) == 0.0
  {
    var b := InitialBoard();
    BackRankScore(b[0], 0, Black);
    PawnRankScore(b[1], 1, Black);
    EmptyRankScore(b[2], 2);
    EmptyRankScore(b[3], 3);
    EmptyRankScore(b[4], 4);
    EmptyRankScore(b[5], 5);
    PawnRankScore(b[6], 6, White);
    BackRankScore(b[7], 7, White);
    assert Material(b) == BoardPrefix(b, 8);
  }
}
