/** The alpha-beta engine as an object: its transposition table is a field
    that every search writes into and nothing ever clears. */
module Engine {
  import opened Chess
  import opened Scores
  import opened Evaluation
  import AlphaBeta
  import opened Root

  class Minimax<P(!new), M> {
    const rules: Rules<P, M>
    /** Scores of the positions searched so far, by position key. */
    var table: map<string, Score>

    constructor (rules: Rules<P, M>)
      ensures this.rules == rules && table == map[]
    {
      this.rules := rules;
      table := map[];
    }

    /** Alpha-beta search of p to the given depth in the window (alpha, beta),
        reading and writing the table. */
    method Search(p: P, depth: nat, alpha: Score, beta: Score, maxPlayer: bool) returns (score: Score)
      requires WellFormed(rules)
      modifies this
      ensures score == AlphaBeta.Search(rules, old(table), p, depth, alpha, beta, maxPlayer).score
      ensures table == AlphaBeta.Search(rules, old(table), p, depth, alpha, beta, maxPlayer).table
      decreases depth, 1
    {
      var fen := rules.key(p);
      if fen in table {
        return table[fen];
      }
      if depth == 0 || rules.gameOver(p) {
        score := Evaluate(rules.board(p), rules.checkmate(p), rules.whiteToMove(p), rules.plies(p));
        table := table[fen := score];
        return;
      }
      score := SearchMoves(p, rules.moves(p), depth, alpha, beta, maxPlayer);
      table := table[fen := score];
    }

    /** The move loop of Search: each move's position searched one level
        deeper in the current window, the best score kept, alpha (for the
        maximiser) or beta (for the minimiser) moved to it, and the loop left
        as soon as beta <= alpha. */
    method SearchMoves(p: P, moves: seq<M>, depth: nat, alpha: Score, beta: Score, maxPlayer: bool) returns (bestScore: Score)
      requires WellFormed(rules) && depth > 0
      modifies this
      ensures bestScore == AlphaBeta.SearchLoop(rules, old(table), p, moves, 0, depth, alpha, beta, maxPlayer, Start(maxPlayer)).score
      ensures table == AlphaBeta.SearchLoop(rules, old(table), p, moves, 0, depth, alpha, beta, maxPlayer, Start(maxPlayer)).table
      decreases depth, 0
    {
      var a, b := alpha, beta;
      bestScore := Start(maxPlayer);
      ghost var goal := AlphaBeta.SearchLoop(rules, table, p, moves, 0, depth, alpha, beta, maxPlayer, bestScore);
      var i := 0;
      while i < |moves|
        invariant 0 <= i <= |moves|
        invariant AlphaBeta.SearchLoop(rules, table, p, moves, i, depth, a, b, maxPlayer, bestScore).score == goal.score
        invariant AlphaBeta.SearchLoop(rules, table, p, moves, i, depth, a, b, maxPlayer, bestScore).table == goal.table
        decreases |moves| - i
      {
        ghost var here := AlphaBeta.SearchLoop(rules, table, p, moves, i, depth, a, b, maxPlayer, bestScore);
        var newBoard := rules.apply(p, moves[i]);
        var s := Search(newBoard, depth - 1, a, b, !maxPlayer);
        if maxPlayer {
          bestScore := Max(bestScore, s);
          a := Max(a, bestScore);
        } else {
          bestScore := Min(bestScore, s);
          b := Min(b, bestScore);
        }
        if Le(b, a) {
          assert here.score == bestScore && here.table == table;
          break;
        }
        i := i + 1;
      }
    }

    /** The root driver after a book miss: the given number of passes of
        iterative deepening, from depth 1, with alpha and beta set once before
        the first pass. */
    method GetBestMove(p: P, maxPlayer: bool, passes: nat) returns (bestMove: Option<M>)
      requires WellFormed(rules)
      modifies this
      ensures bestMove == Deepen(rules, p, maxPlayer, passes, old(table)).choice.move
      ensures table == Deepen(rules, p, maxPlayer, passes, old(table)).table
    {
      var depth := 1;
      bestMove := None;
      var alpha, beta := NegInf, PosInf;
      ghost var goal := Deepen(rules, p, maxPlayer, passes, table);
      ghost var last := Initial<M>(table, maxPlayer);
      var pass := 0;
      while pass < passes
        invariant depth == pass + 1
        invariant last.table == table && last.alpha == alpha && last.beta == beta && last.choice.move == bestMove
        invariant DeepenFrom(rules, p, maxPlayer, pass, passes, last) == goal
        decreases passes - pass
      {
        ghost var scores;
        ghost var bestScore;
        alpha, beta, bestMove, bestScore, scores := RootPass(p, depth, maxPlayer, alpha, beta, bestMove);
        last := RootState(table, alpha, beta, Choice(bestScore, bestMove), scores);
        depth := depth + 1;
        pass := pass + 1;
      }
    }

    /** One pass of the root at the given depth: every legal move's position
        searched to depth - 1; a move becomes the best only with a strictly
        better score; alpha or beta follows the best score. */
    method RootPass(p: P, depth: nat, maxPlayer: bool, alpha0: Score, beta0: Score, bestMove0: Option<M>)
      returns (alpha: Score, beta: Score, bestMove: Option<M>, ghost bestScore: Score, ghost scores: seq<Score>)
      requires WellFormed(rules) && depth >= 1
      modifies this
      ensures RootState(table, alpha, beta, Choice(bestScore, bestMove), scores) ==
              Pass(rules, p, depth - 1, maxPlayer, RootState(old(table), alpha0, beta0, Choice(Start(maxPlayer), bestMove0), []))
    {
      alpha, beta, bestMove := alpha0, beta0, bestMove0;
      var best := Start(maxPlayer);
      var moves := rules.moves(p);
      scores := [];
      ghost var passGoal := Pass(rules, p, depth - 1, maxPlayer, RootState(table, alpha0, beta0, Choice(Start(maxPlayer), bestMove0), []));
      for i := 0 to |moves|
        invariant RootLoop(rules, p, moves, i, depth - 1, maxPlayer,
                           RootState(table, alpha, beta, Choice(best, bestMove), scores)) == passGoal
      {
        var newBoard := rules.apply(p, moves[i]);
        var score := Search(newBoard, depth - 1, alpha, beta, !maxPlayer);
        if maxPlayer {
          if Lt(best, score) {
            best := score;
            bestMove := Some(moves[i]);
          }
          alpha := Max(alpha, best);
        } else {
          if Lt(score, best) {
            best := score;
            bestMove := Some(moves[i]);
          }
          beta := Min(beta, best);
        }
        scores := scores + [score];
      }
      bestScore := best;
    }
  }
}
