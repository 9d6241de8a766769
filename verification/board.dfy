/**
 * The board as the evaluator sees it: an 8x8 grid of optional pieces, row 0
 * being rank 8 and column 0 being file a, and the algebraic name of a square.
 */
module Board {

  datatype Option<T> = None | Some(value: T)

  datatype Color = White | Black

  /** The six piece kinds; the table of values is closed over them. */
  datatype PieceType = Pawn | Knight | Bishop | Rook | Queen | King

  datatype Piece = Piece(kind: PieceType, color: Color)

  type Square = Option<Piece>

  /** A board snapshot: always eight rows of eight squares. */
  type Grid = b: seq<seq<Square>> | |b| == 8 && forall i :: 0 <= i < |b| ==> |b[i]| == 8
    witness seq(8, _ => seq(8, _ => None))

  function Opponent(c: Color): (r: Color)
    ensures r != c
  {
    if c == White then Black else White
  }

  /** The same square with the piece (if any) handed to the other side. */
  function SwapSquare(s: Square): (r: Square)
    ensures r.None? <==> s.None?
    ensures s.Some? ==> r.value.kind == s.value.kind && r.value.color != s.value.color
  {
    match s
    case None => None
    case Some(p) => Some(Piece(p.kind, Opponent(p.color)))
  }

  function SwapRow(row: seq<Square>): (r: seq<Square>)
    ensures |r| == |row|
    ensures forall j :: 0 <= j < |row| ==> r[j] == SwapSquare(row[j])
  {
    seq(|row|, j requires 0 <= j < |row| => SwapSquare(row[j]))
  }

  /** Every piece of the board changes colour in place. */
  function SwapColors(b: Grid): (r: Grid)
    ensures forall i :: 0 <= i < 8 ==> r[i] == SwapRow(b[i])
  {
    seq(8, i requires 0 <= i < 8 => SwapRow(b[i]))
  }

  /**
   * The algebraic name of the square at row i, column j: the file letter
   * 'a' + j followed by the rank digit for 8 - i.
   */
  function SquareName(i: nat, j: nat): (name: string)
    requires i < 8 && j < 8
    ensures |name| == 2
    ensures 'a' <= name[0] <= 'h' && '1' <= name[1] <= '8'
  {
    [(97 + j) as char, (48 + (8 - i)) as char]
  }

  /** Reads a square name back into its row and column; None for anything else. */
  function SquareIndex(name: string): (r: Option<(nat, nat)>)
    ensures r.Some? ==> r.value.0 < 8 && r.value.1 < 8 && SquareName(r.value.0, r.value.1) == name
  {
    if |name| == 2 && 'a' <= name[0] <= 'h' && '1' <= name[1] <= '8' then
      Some((8 - (name[1] as int - 48), name[0] as int - 97))
    else
      None
  }

  /** The four centre squares that earn the positional bonus. */
  const CentreSquares: seq<string> := ["d4", "d5", "e4", "e5"]

  predicate IsCentre(i: nat, j: nat)
    requires i < 8 && j < 8
  {
    SquareName(i, j) in CentreSquares
  }

  /** Naming loses nothing: SquareIndex undoes SquareName. */
  lemma NameRoundTrip(i: nat, j: nat)
    requires i < 8 && j < 8
    ensures SquareIndex(SquareName(i, j)) == Some((i, j))
  {
  }

  /** Two different squares never share a name. */
  lemma NameInjective(i: nat, j: nat, i': nat, j': nat)
    requires i < 8 && j < 8 && i' < 8 && j' < 8
    requires SquareName(i, j) == SquareName(i', j')
    ensures i == i' && j == j'
  {
    NameRoundTrip(i, j);
    NameRoundTrip(i', j');
  }

  /** The centre by name is the centre by index: rows 3-4 and columns 3-4. */
  lemma CentreByIndex(i: nat, j: nat)
    requires i < 8 && j < 8
    ensures IsCentre(i, j) <==> (i == 3 || i == 4) && (j == 3 || j == 4)
  {
  }
}
