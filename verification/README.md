# Computer opponent of a browser chess game, in Dafny

This project models the move search that plays the computer's side in a
React chess application (`src/App.js`). It has four parts:

- **Evaluator** (`evaluateBoard`). It gives a static score to a board, positive when the board favours White.
  - Material is summed with pawn 1, knight 3, bishop 3.2, rook 5, queen 9 and king 0. Each value is signed +1 for White and −1 for Black.
  - A piece on d4, d5, e4 or e5 adds 0.25 for its side.
  - A noise term `(draw − 0.5) · 0.1` is added, where `draw` is a random number in [0, 1).
- **SearchEngine** (`minimax`). This is fail-soft minimax with alpha-beta pruning.
- **MoveSelector** (`findBestMove`). It searches every root move with a fresh full window and keeps the strictly best score for the computer's colour.
- **DifficultyPolicy** (the body of `makeAIMove`):
  - difficulty 0 plays a random legal move;
  - difficulty 1 searches one ply;
  - any other difficulty searches two plies;
  - the game is left unchanged when it is over, when it is not the computer's turn, or when no move comes back.

Files:

- `board.dfy` (module `Board`) holds the pieces, the 8×8 grid, square names and the centre.
- `evaluation.dfy` (module `Evaluation`) holds the evaluator. `EvaluateBoard` is the nested loop. It is proved equal to `Material + Noise`, where `Material` is the sum over all squares.
- `extended.dfy` (module `Extended`) holds scores extended with −∞ and +∞.
- `game_tree.dfy` (module `GameTree`) holds the positions the search walks. They form a finite tree, and each node carries:
  - its board and side to move;
  - the game-over flag;
  - the legal moves in enumeration order, each paired with the position it leads to;
  - the random draw its evaluation would use.

  `Apply` plays a listed move.
- `search.dfy` (module `Search`) holds `Minimax`, the unpruned reference value, and the pruned search `AlphaBeta` with its two scans `MaxNode` and `MinNode`.
  - Each scan states what its loop did: the scores its children returned, the window each child was searched in, the fold of those scores, and where it stopped (`MaxScan`, `MinScan`).
  - The lemmas `MaxScanFailSoft` and `MinScanFailSoft` prove that any such scan is fail-soft against `Minimax`. So the pruned search is fail-soft, and with the window (−∞, +∞) it equals `Minimax`.
- `selection.dfy` (module `Selection`) holds `FindBestMove`. It is proved equal to the scan `BestChoice`, and lemmas state what that scan picks.
- `difficulty.dfy` (module `Difficulty`) holds the difficulty-to-depth map, the random pick and `MakeAIMove`.

Notes on the model:

- **Numbers.** All arithmetic is on Dafny's exact `real`. JavaScript's `-Infinity` and `Infinity` are the constructors `NegInf` and `PosInf`.
- **Game over.** A finished position is scored by material like any other position. The code gives checkmate no special score.
- **Empty nodes.** A node that is not over but has no moves gets the search's starting value: −∞ for the maximiser, +∞ for the minimiser. This is what the loops in `minimax` return when they run zero times.
- **Chess positions.** Chess never produces such a node, because a position with no legal move is checkmate or stalemate. The predicate `Playable` states this property of chess positions. On playable trees every searched value is finite (`MinimaxFinite`), and a move is chosen exactly when one exists (`PlayableChoice`).
- **Null from `findBestMove`.** In general, `findBestMove` returns null exactly when no root score beats the starting infinity (`BestChoiceOptimal`).
  - At the depths the difficulty levels use (one and two plies), that happens only when there are no legal moves, whatever the tree (`ShallowChoice`, `AIChoiceEmpty`).
  - From three plies on, a tree that is not playable can make it return null although a move exists (`DeepSearchCanChooseNothing`).
- **Unknown piece types.** The code has no rejection path for them. `PieceType` is a closed datatype, so an unknown piece cannot occur in the model.
- **Search split.** `minimax`'s two loops are modelled as the methods `MaxNode` and `MinNode`, which `AlphaBeta` dispatches to. This keeps each proof obligation small. The loops themselves are kept as written, including the `break` on `beta <= alpha`.

## Model

| member | source | states |
|---|---|---|
| `Board.SquareName` | src/App.js:38-40 | the name of square (i, j) is a file letter a–h followed by a rank digit 1–8 |
| `Board.NameRoundTrip` | src/App.js:38-40 | reading a square name back gives the row and column it was built from |
| `Board.NameInjective` | src/App.js:38-40 | two different squares never share a name |
| `Board.CentreByIndex` | src/App.js:38-42 | a square is one of d4, d5, e4, e5 exactly when its row is 3 or 4 and its column is 3 or 4 |
| `Evaluation.PieceValue` | src/App.js:24 | every piece kind has a non-negative value, and only the king's is zero |
| `Evaluation.ColorSign` | src/App.js:34 | the colour sign is +1 for White and −1 for Black |
| `Evaluation.Noise` | src/App.js:49 | for a draw in [0, 1) the noise lies in [−0.05, 0.05) |
| `Evaluation.EvaluateBoard` | src/App.js:23-51 | the row-by-row, column-by-column scan returns the sum of every square's signed value and centre bonus, plus the noise for the draw |
| `Evaluation.NoMaterialFromEmptyOrKing` | src/App.js:30-44 | an empty square adds nothing, and a king adds only the centre bonus |
| `Evaluation.SwapColorsNegates` | src/App.js:33-44 | giving every piece to the other side, in place, negates the noise-free score |
| `Evaluation.BackRankScore` | src/App.js:23-46 | any row holding one side's rook, knight, bishop, queen, king, bishop, knight, rook, standing on the first or eighth rank, is worth 31.4 for that side |
| `Evaluation.PawnRankScore` | src/App.js:23-46 | any row of eight pawns of one side, standing on the second or seventh rank, is worth 8 for that side |
| `Evaluation.EmptyRankScore` | src/App.js:23-46 | any row with no pieces is worth nothing, on every rank |
| `Evaluation.InitialBalanced` | src/App.js:23-46 | the standard starting position has noise-free score zero |
| `Extended.Max` | src/App.js:68-69 | `Math.max` over scores with infinities is an upper bound of both arguments and equals one of them |
| `Extended.Min` | src/App.js:79-80 | `Math.min` over scores with infinities is a lower bound of both arguments and equals one of them |
| `GameTree.IndexOf` | src/App.js:158-159 | finds the first listed move equal to the given move, or reports that none is listed |
| `GameTree.Apply` | src/App.js:158-159 | playing a move yields a position exactly when the move is in the legal-move list |
| `GameTree.ApplyListed` | src/App.js:158-159 | when the legal moves are distinct, playing the k-th listed move reaches the k-th child position |
| `Search.LeafNearMaterial` | src/App.js:48-49 | a static leaf score lies within 0.05 of the board's noise-free material, since every draw is in [0, 1) |
| `Search.AlphaBeta` | src/App.js:56-85 | with alpha < beta and true minimax value m: the result is m when alpha < m < beta, in [m, alpha] when m ≤ alpha, and in [beta, m] when m ≥ beta; with the window (−∞, +∞) the result equals minimax; at depth 0 or game over the result is the static evaluation |
| `Search.MaxNode` | src/App.js:62-72 | the returned scores are those of the first children in order, each searched one ply shallower as the minimiser in the window (max(alpha, maximum of the earlier scores), beta), which was still open, and each fail-soft for that child's true value; the result is Math.max folded over them from −∞; a child is left unsearched only when the last score closed the window; the result is fail-soft for the maximum over all children |
| `Search.MinNode` | src/App.js:73-84 | the mirror image for the minimiser: each child searched as the maximiser in the window (alpha, min(beta, minimum of the earlier scores)); the result is Math.min folded from +∞; children are skipped only after the window closed; the result is fail-soft for the minimum over all children |
| `Search.MaxStepsExtend` | src/App.js:64-69 | one more child searched in the open window, with a fail-soft score, extends the record of the maximiser's scan; the running maximum becomes Math.max of the old one and the new score, and the raised alpha is max(alpha, the new running maximum) |
| `Search.MinStepsExtend` | src/App.js:75-80 | the minimiser's counterpart: the record extends, the running minimum becomes Math.min of the old one and the new score, and the lowered beta is min(beta, the new running minimum) |
| `Search.MaxScanPrefix` | src/App.js:64-70 | while the maximiser's window stays open, the running maximum of the returned scores bounds the true maximum over the searched children from above, and equals it once it rises above alpha |
| `Search.MinScanPrefix` | src/App.js:75-81 | while the minimiser's window stays open, the running minimum bounds the true minimum from below, and equals it once it falls below beta |
| `Search.MaxScanFailSoft` | src/App.js:62-72 | any maximiser scan as recorded, whether it ran to the end or stopped at a cutoff, returns a value fail-soft for the maximum over all children |
| `Search.MinScanFailSoft` | src/App.js:73-84 | any minimiser scan as recorded returns a value fail-soft for the minimum over all children |
| `Search.MaxStep` | src/App.js:67-70 | one maximiser step either closes the window with a score in [beta, child's true value], or keeps the running maximum exact above alpha and an upper bound of the true running maximum |
| `Search.MinStep` | src/App.js:78-81 | one minimiser step either closes the window with a score in [child's true value, alpha], or keeps the running minimum exact below beta and a lower bound of the true running minimum |
| `Search.MaxFinish` | src/App.js:71 | a maximiser scan that ends with the window open returns a value fail-soft for the true maximum |
| `Search.MaxCutFinish` | src/App.js:70-71 | a maximiser scan cut off with a score between beta and the true maximum is fail-soft |
| `Search.MinFinish` | src/App.js:83 | a minimiser scan that ends with the window open returns a value fail-soft for the true minimum |
| `Search.MinCutFinish` | src/App.js:81-83 | a minimiser scan cut off with a score between the true minimum and alpha is fail-soft |
| `Search.MaxPrefixBelow` | src/App.js:62-72 | the maximum over a prefix of the children never exceeds the maximum over a longer prefix |
| `Search.MinPrefixAbove` | src/App.js:73-84 | the minimum over a prefix of the children is never below the minimum over a longer prefix |
| `Selection.BestPrefixMeaning` | src/App.js:94-109 | after every prefix of root moves: if none is kept, the best is the starting infinity and no score beat it; if move k is kept, its score is the best, beats the starting infinity, is not beaten by any scanned score, and strictly beats every earlier score |
| `Selection.BestChoiceOptimal` | src/App.js:90-112 | the chosen move has the best exact root score for the computer's colour and is the first such move in enumeration order; no move is chosen exactly when no root score beats the starting infinity |
| `Selection.MinimaxFinite` | src/App.js:56-85 | on a playable tree every minimax value is finite |
| `Selection.MaxPrefixFinite` | src/App.js:62-72 | on a playable tree the maximum over one or more children is finite |
| `Selection.MinPrefixFinite` | src/App.js:73-84 | on a playable tree the minimum over one or more children is finite |
| `Selection.PlayableChoice` | src/App.js:91-111 | on a playable tree a move is chosen exactly when the move list is not empty |
| `Selection.MinPrefixOverLeaves` | src/App.js:73-84 | a minimiser whose children are static leaves never returns −∞ |
| `Selection.MaxPrefixOverLeaves` | src/App.js:62-72 | a maximiser whose children are static leaves never returns +∞ |
| `Selection.ShallowChoice` | src/App.js:90-112 | at one or two plies, on any tree, a move is chosen exactly when the move list is not empty |
| `Selection.DeepSearchCanChooseNothing` | src/App.js:90-112 | at three plies there is a tree, not a chess position, with a legal move for which no move is chosen |
| `Selection.FindBestMove` | src/App.js:90-112 | the root loop, with each move searched by a full-window alpha-beta, returns the move chosen by `BestChoice`; it returns null when there are no moves, and otherwise any move it returns is one of the listed moves |
| `Difficulty.SearchDepth` | src/App.js:148 | difficulty 0 maps to depth 0, difficulty 1 to depth 1, and every other level to depth 2 |
| `Difficulty.RandomIndex` | src/App.js:150-153 | the random pick is an index into the n moves, and there is no pick when n is 0 |
| `Difficulty.RandomIndexUniform` | src/App.js:150-153 | the pick is index k exactly when the draw lies in [k/n, (k+1)/n), so each of the n moves is picked by a slice of [0, 1) of width 1/n |
| `Difficulty.AIChoiceEmpty` | src/App.js:148-158 | at every difficulty, no move comes back exactly when there are no legal moves |
| `Difficulty.MakeAIMove` | src/App.js:142-168 | the game is unchanged when it is over, when it is not the computer's turn, or when no move comes back; otherwise the chosen move is reported and the new position is the one that move leads to |
| `Difficulty.AIAlwaysMoves` | src/App.js:144-156 | on a playable position with distinct moves that is not over, the computer always has a move, and playing it reaches that move's position |

## Left out

- Move generation, legality, `game_over` and FEN cloning come from the external chess library (src/App.js:2, 61, 65-66, 98-99, 158). The game tree stands in for them: each node's move list, game-over flag and children are whatever the rules engine would produce.
- The random number generator (src/App.js:49, 151-152) is not modelled. Its outputs are values of the type `Draw`, the reals in [0, 1): each tree node carries the draw its evaluation uses, and `MakeAIMove` takes the draw for the easy-mode pick.
- Floating-point rounding of 3.2 and 0.25 is not modelled; the model uses exact reals. IEEE infinities are modelled as the constructors `NegInf` and `PosInf`.
- `findBestMove` with depth 0 is excluded by `requires depth >= 1`. That call would search at depth −1. The application never makes it, because difficulty 0 takes the random path.
- React state, hooks, the 600 ms timer, `updateGameStatus`, the move-history and highlight updates after a move (src/App.js:117-140, 161-165, 171-183) are left out. They are UI plumbing around the search.
- The click handlers `highlightMoves`, `makeMove`, `onSquareClick`, `resetGame`, `flipBoard` and `handleDifficultyChange` (src/App.js:188-257) are left out as UI state plumbing.
- The files under src/components/ are pure rendering and are left out.
- Search.AlphaBeta: at a node that is neither a leaf nor finished, its contract does not repeat the per-child scan. It returns the result of `MaxNode` or `MinNode` unchanged, and their contracts state the scan. Repeating it on `AlphaBeta` would bring every child's scan into each caller's proof and make those proofs unstable.
