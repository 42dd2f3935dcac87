# Chess AI search engines in Dafny

This project models the two move-search engines of a small chess program:

- the **alpha-beta engine** (`minimax.py`): a static evaluator over the board,
  a fail-soft alpha-beta search with a transposition table keyed by the
  position's FEN string, and an iterative-deepening root driver;
- the **Monte Carlo tree search** (`mcts.py`): a tree of nodes that hold visit
  counts and summed rollout results. Each iteration selects a node, expands
  it, runs a rollout from it and backpropagates the result.

The chess rules themselves come from a library. They are the fields of the
`Chess.Rules` value: legal moves, making a move, game over, checkmate, side to
move, number of moves played, position key (FEN) and the board.

Modules:

- `Chess` (chess.dfy): pieces, the 64-square board (square = 8·rank + file),
  colour mirroring and the rules interface.
- `Scores` (scores.dfy): scores with the two infinities, their order, max
  and min, and the starting best score of a search (`Start`).
- `SquareTests` (squaretests.dfy): the per-square tests behind the evaluator's
  counts (a piece of a kind, a pawn, a blocked pawn, an isolated pawn),
  counting over square ranges, and the mirror symmetry of those counts.
- `Evaluation` (evaluation.dfy): the evaluator as specification functions and
  as the source's counting loops, each loop proved against its function.
- `AlphaBeta` (alphabeta.dfy): plain minimax as a reference value. It also
  holds the cached alpha-beta search as a function of the table, with its table
  lemmas and its fail-soft relation to minimax.
- `Root` (root.dfy): the root pass and iterative deepening as functions, with
  lemmas about tie-breaking, the window and the cache.
- `Engine` (engine.dfy): the engine class, whose `table` field is updated in
  place; its methods are proved equal to the functions above.
- `Arena` (arena.dfy): the Monte Carlo tree as a sequence of node records
  addressed by index with parent indices. It holds the tree invariants (`Sound`,
  and `Legal` for the moves), and the effect of expansion and backpropagation.
- `MonteCarlo` (mcts.dfy): the search class over the arena and the
  first-max / first-min choice functions.

Observations about the alpha-beta model:

- The table is keyed by position only and ignores the depth.
- From the second deepening pass on, every root child is therefore already in
  the table. Each later pass re-reads the first pass's scores.
- `Root.DeepenIsFirstPass` proves that the chosen move and the table after any
  positive number of passes are those after one pass. With no pass at all the
  move is none (`Root.DeepenLegal`).
- `Root.DeepenOnePly` proves that, after any positive number of passes, the
  chosen move is the first best of the children's static evaluations, provided
  no child was cached beforehand and
  the children's position keys are pairwise distinct (`Root.FreshChildren`).
  Two moves that lead to the same FEN would share one table entry.
- The evaluator's colour symmetry is proved as `Evaluation.EvaluationMirror`:
  mirroring the board and switching the side to move negates the value.

## Model

| member | source | states |
|---|---|---|
| Evaluation.Evaluate | minimax.py:141-191 | Checkmate with White to move gives minus infinity and with Black to move plus infinity. Otherwise the score is finite and equals `PositionValue`: 900/500/330/320/100 times the White-minus-Black queen, rook, bishop, knight and pawn counts, minus 30 times the White-minus-Black sum of doubled, blocked and isolated pawns. Kings add nothing and the piece tables add 0. |
| Evaluation.CountMaterial | minimax.py:150-175 | Each of the ten counters is the number of pieces of its colour and kind on the board. |
| Evaluation.PawnsOnFileLoop | minimax.py:202-213 | Counts each colour's pawns on one file. |
| Evaluation.FindDoubledPawns | minimax.py:193-220 | Per colour, the sum over the eight files of the pawns on the file beyond the first. |
| Evaluation.FindBlockedPawns | minimax.py:222-243 | Per colour, the number of pawns whose square one rank ahead (+8 for White, −8 for Black) holds a piece of the other colour. A friendly piece or an empty square does not count. The board must have its pawns on ranks 2 to 7. |
| Evaluation.FindIsolatedPawns | minimax.py:245-281 | Per colour, the number of pawns with no friendly pawn on an adjacent file of the same rank. Files a and h consult only their one neighbour. |
| Evaluation.GetPieceEvals | minimax.py:283-328 | 0 for every board and phase, because each branch compares the piece object with a piece-type constant and none of those comparisons holds. |
| Evaluation.EvaluationMirror | minimax.py:141-191 | Mirroring the board (rank r to rank 7−r, colours swapped) and switching the side to move negates the evaluation. |
| Evaluation.DoubledPawns | minimax.py:200-218 | The doubled count is the pawn count minus the number of files holding a pawn, so it lies between 0 and the pawn count. |
| Evaluation.NoDoubled | minimax.py:215-218 | The doubled count of the first n files is 0 exactly when each of those files holds at most one pawn of the colour. |
| Evaluation.WeakPawnsBound | minimax.py:229-279 | Neither the blocked count nor the isolated count of a colour exceeds its pawn count. |
| SquareTests.CountAllMirror | minimax.py:229-279 | On the mirrored board, the number of squares passing the colour-flipped test equals the number on the original board passing the original test. |
| Engine.Minimax.constructor | minimax.py:98 | The engine starts with an empty transposition table. |
| Engine.Minimax.Search | minimax.py:101-139 | The score returned and the table left behind are those of `AlphaBeta.Search` from the table before the call. |
| Engine.Minimax.SearchMoves | minimax.py:115-139 | The move loop returns the score and leaves the table of `AlphaBeta.SearchLoop`. The loop stops after the first child at which beta ≤ alpha. |
| AlphaBeta.SearchHit | minimax.py:105-108 | If the position's key is in the table, the search returns the stored score, leaves the table unchanged and reports a cache hit. |
| AlphaBeta.SearchTable | minimax.py:105-139 | A search never removes or changes an existing entry. Afterwards the position's key holds the score returned. |
| AlphaBeta.LoopTable | minimax.py:115-139 | The move loop never removes or changes an existing table entry. |
| AlphaBeta.SearchFailSoft | minimax.py:115-139 | Take a search without cache hits in a window alpha < beta, with minimax value m at the same depth. If alpha < v < beta then v = m; if v ≤ alpha then m ≤ v; if v ≥ beta then m ≥ v. |
| AlphaBeta.LoopFailSoft | minimax.py:115-139 | The same fail-soft relation for the move loop from any child onwards. |
| AlphaBeta.MateScore | minimax.py:110-112 | If checkmate is one of the ways the game ends (`MateEndsGame`), a checkmated position is worth minus infinity with White to move and plus infinity with Black to move. This holds at every depth, for either player, in plain minimax. It also holds in the search whenever the position's key is not yet in the table. |
| AlphaBeta.FullWindow | minimax.py:101-139 | With the window (−∞, +∞) and no cache hits, the search returns exactly the minimax value. |
| Root.PickBest | minimax.py:346-361 | The strict `>` / `<` choice keeps the first best score. No score beats the choice, and the choice is never worse than the start. An unchanged start score keeps the old move; otherwise the move is that of the first index with the chosen score. |
| Root.PickAgain | minimax.py:346-361 | Re-running the choice with the start score, seeded with its own result, changes nothing. |
| Root.RootLoopChoice | minimax.py:346-361 | After the root loop the choice is the first best of the children's scores. For the maximiser, beta is unchanged and alpha becomes the max of the old alpha and the best score. For the minimiser it is the mirror image. |
| Root.RootLoopTable | minimax.py:346-361 | The root loop keeps every existing table entry, and each child's key holds that child's score. |
| Root.RootLoopScores | minimax.py:346-361 | The root loop records one score per legal move, keeping those already recorded. |
| Root.RootLoopCached | minimax.py:346-361 | When every child is already in the table, the root loop leaves the table unchanged. |
| Root.DeepenLegal | minimax.py:340-365 | The returned move is none or one of the root's legal moves. With no pass left the state is unchanged, so with no pass at all the result is none. |
| Root.DeepenWindow | minimax.py:342-363 | Across passes, alpha only rises and beta stays for the maximiser; beta only falls and alpha stays for the minimiser. Neither is reset between depths. |
| Root.DeepenIsFirstPass | minimax.py:340-365 | With at least one pass, the move chosen and the table left are those of the first pass, whatever the number of passes. |
| Root.DeepenOnePly | minimax.py:340-365 | Suppose no child of the root was cached beforehand and the children's keys are pairwise distinct (`FreshChildren`). Then the move chosen is the first best of the children's static evaluations. |
| Engine.Minimax.RootPass | minimax.py:346-361 | One root pass leaves alpha, beta, the best move and the table of `Root.Pass`. |
| Engine.Minimax.GetBestMove | minimax.py:330-365 | The move returned and the table left are those of `Root.Deepen` after the given number of passes, with depth starting at 1 and growing by 1. |
| MonteCarlo.Mcts.constructor | mcts.py:91-95 | The tree is a single root node without parent, move, visits, results or children. |
| MonteCarlo.Mcts.Select | mcts.py:36-49 | The node returned is the start node or a descendant of it. It has no children, or it is an unvisited child below the start. It is the node of the selection walk `Walk`. |
| MonteCarlo.WalkDescends | mcts.py:46-48 | Once every child has been visited, the walk moves on to the first child with the largest UCT score. |
| MonteCarlo.Unvisited | mcts.py:42-43 | Lists exactly the children with no visits, and is empty exactly when every child has been visited. |
| MonteCarlo.UnvisitedOrder | mcts.py:42-43 | The unvisited list keeps the children's order: its k-th entry is the child at the k-th of an increasing list of positions, and those positions are exactly the positions of the unvisited children. |
| MonteCarlo.FirstMax | mcts.py:47-48 | The index of the first largest element: no element is larger, and every earlier element is strictly smaller. |
| MonteCarlo.FirstMaxUnique | mcts.py:47-48 | Any index with the first-largest property is the one `FirstMax` returns. |
| MonteCarlo.FirstMin | mcts.py:114 | The index of the first smallest element: no element is smaller, and every earlier element is strictly larger. |
| MonteCarlo.Mcts.Expand | mcts.py:51-59 | The tree stays consistent and becomes `Expanded`. The node gets one new child per legal move, in move order, after its existing children. Each new child holds the position after its move, the node as parent, the move, zero visits and results, and no children. |
| Arena.ExpandedSound | mcts.py:25-34 | Expansion keeps the tree's invariants and the root's visit count. Every existing node keeps its position, parent and move, and its old children list stays a prefix of its new one. |
| Arena.ExpandedLegal | mcts.py:51-59 | In a tree whose every node's move is legal from its parent's position, and whose position is the parent's position after that move, expanding a node by its legal moves keeps that property. |
| MonteCarlo.ResultValue | mcts.py:69-74 | The value of an outcome is 1 exactly for "1-0" and −1 exactly for "0-1", and always lies in {−1, 0, 1}. |
| MonteCarlo.Mcts.Simulate | mcts.py:61-74 | The rollout value is `ResultValue` of the rollout's outcome: 1 exactly for "1-0" and −1 exactly for "0-1", and always in {−1, 0, 1}. |
| MonteCarlo.Mcts.Backpropagate | mcts.py:76-83 | The tree becomes `Bumped`: the node and every ancestor up to the root get one more visit and the result added to their results. Every other node is unchanged. |
| Arena.BumpedSound | mcts.py:76-83 | Backpropagating a result in {−1, 0, 1} keeps the invariants. A node's children's visits never sum beyond its own visits, and the absolute value of its results never exceeds its visits. The root gains one visit, and only visit counts and results change: every node keeps its position, parent, move and children. |
| Arena.RootAnc | mcts.py:82-83 | The root is an ancestor of every node, so every backpropagation reaches it. |
| MonteCarlo.Round | mcts.py:100-105 | One round is the walk from the root, expansion of the node reached by its legal moves, and backpropagation of `ResultValue` of the rollout from it. It keeps the tree consistent (the invariants, and every move legal with every position following from its parent's), only grows the tree and adds one root visit. |
| MonteCarlo.RoundStep | mcts.py:100-105 | Expanding any node by its legal moves and backpropagating a value in {−1, 0, 1} keeps the tree consistent, only grows it and adds one root visit. |
| MonteCarlo.Rounds | mcts.py:96-105 | n rounds in sequence keep the tree consistent, only grow it and add n to the root's visits. |
| MonteCarlo.Mcts.Iterate | mcts.py:100-105 | The select, expand, simulate and backpropagate calls of one iteration leave the tree `Round` of the tree before them. |
| MonteCarlo.Mcts.Run | mcts.py:96-105 | After the given number of iterations the tree is `Rounds` of the old tree. It is therefore consistent: every move legal from its parent's position, every position the parent's after the move. It only grows and gains that number of root visits. |
| MonteCarlo.Mcts.BestMove | mcts.py:108-114 | Requires a root child. For White, returns the move of the first child with the most visits; for Black, of the first child with the fewest. The move is a legal move from the root's position. |

## Left out

- Opening book: the book lookup is file I/O through a foreign library. Only the book miss is modelled, so `GetBestMove` always searches.
- Wall clock: the time-limited deepening loop becomes a given number of passes, with the clock checked only between depths as in the source.
- Depth argument: `get_best_move` overwrites its `depth` argument with 1, so `GetBestMove` has no depth parameter.
- Chess rules: legal moves, making a move, game over, checkmate, side to move, moves played and FEN are the uninterpreted fields of `Chess.Rules`. The one link between them that the model states is `Chess.MateEndsGame`: a checkmated position is game over, as in the chess library. `AlphaBeta.MateScore` assumes it.
- Board copies: the board copy before each move is implicit, because positions are values.
- FindBlockedPawns: requires every pawn to stand on ranks 2 to 7 (so does `Evaluate`), which every legal position satisfies. The source reads the square ahead without a bounds check (minimax.py:233-237). A White pawn on rank 8 reads a square of 64 or more, which raises IndexError. A Black pawn on rank 1 reads a negative square, which Python's list indexing wraps to rank 8 without an error. A White pawn on rank 1 or a Black pawn on rank 8 reads a real square. None of these three behaviours is modelled. The engine methods (`Engine.Minimax.Search`, `SearchMoves`, `RootPass`, `GetBestMove`) require `Chess.WellFormed(rules)`, which asks this of every position the rules can produce, not only of the positions a search reaches.
- Piece-square tables: their contents are never used, because `getPieceEvals` always adds 0, so they are not encoded.
- Shared cache: the transposition table is a class attribute, shared by every engine instance. Here it is the `table` field of one engine object.
- Unbounded integers: Python integers are unbounded, and so are Dafny's, so no width is modelled. The infinities are the `NegInf` and `PosInf` scores.
- Randomness: only the choice among unvisited children in `select` (mcts.py:45) becomes a parameter. It is `random(k) % n` for round k and n unvisited children. The random moves of the rollout (mcts.py:68) are hidden in the `rollout` parameter. The random book move (minimax.py:336) is left out with the opening book.
- Rollout: the rollout loop of `simulate` terminates only because of chess rules. Its outcome string for round k is the parameter `rollout(k, position)`.
- UCT floats: the UCT formula (`math.sqrt`, `math.log` on floats) is the parameter `uct(wins, visits, parentVisits)` into the reals; only the first-maximum choice over its values is modelled. Floating-point NaN and rounding are out of scope.
- Node objects: the `Node` objects and their parent pointers become records in one sequence, addressed by index. Aliasing between node objects is therefore not modelled.
- Colour argument: `best_move` takes `chess.Color`. Here it is a boolean, true for White.
- BestMove: requires a root child. With no children the source's `max`/`min` raise ValueError (mcts.py:113-114); that error path is not represented.
- The board GUI (board.py), the event loop (main.py) and the printing demo at the end of mcts.py are outside the search core.
