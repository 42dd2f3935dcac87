/** The depth-limited alpha-beta search with its transposition table, as a
    pure function of the table it starts from, and plain minimax as the
    reference it is proved against. */
module AlphaBeta {
  import opened Chess
  import opened Scores
  import opened Evaluation

  /** The static evaluation of a position. */
  function Eval<P, M>(r: Rules<P, M>, p: P): Score
  {
    PositionValue(r.board(p), r.checkmate(p), r.whiteToMove(p))
  }

  // ---------------------------------------------------------------------------
  // Reference: minimax without pruning and without a table

  /** The minimax value of p searched to depth d, the maximiser to move when
      maxP holds. A position at depth 0 or with the game over is evaluated. */
  function Value<P, M>(r: Rules<P, M>, p: P, d: nat, maxP: bool): Score
    decreases d, 1
  {
    if d == 0 || r.gameOver(p) then Eval(r, p)
    else ValueFrom(r, p, r.moves(p), 0, d, maxP)
  }

  /** The best of the values of the moves ms[i..]: the maximum for the
      maximiser, the minimum for the minimiser, an infinity when there are none. */
  function ValueFrom<P, M>(r: Rules<P, M>, p: P, ms: seq<M>, i: nat, d: nat, maxP: bool): Score
    requires i <= |ms| && d > 0
    decreases d, 0, |ms| - i
  {
    if i == |ms| then Start(maxP)
    else
      var v := Value(r, r.apply(p, ms[i]), d - 1, !maxP);
      var rest := ValueFrom(r, p, ms, i + 1, d, maxP);
      if maxP then Max(v, rest) else Min(v, rest)
  }

  // ---------------------------------------------------------------------------
  // Alpha-beta with the transposition table

  /** The score of a search, the table after it, and whether any position of
      the search was answered from the table. */
  datatype SearchResult = SearchResult(score: Score, table: map<string, Score>, hit: bool)

  /** Alpha-beta search of p to depth d in the window (alpha, beta), starting
      with table t. A position whose key is in the table is answered from it,
      whatever depth or window the entry was stored for; every other position
      searched stores its score under its key. */
  function Search<P, M>(r: Rules<P, M>, t: map<string, Score>, p: P, d: nat, alpha: Score, beta: Score, maxP: bool): SearchResult
    decreases d, 1
  {
    var k := r.key(p);
    if k in t then SearchResult(t[k], t, true)
    else if d == 0 || r.gameOver(p) then
      var s := Eval(r, p);
      SearchResult(s, t[k := s], false)
    else
      var res := SearchLoop(r, t, p, r.moves(p), 0, d, alpha, beta, maxP, Start(maxP));
      SearchResult(res.score, res.table[k := res.score], res.hit)
  }

  /** The move loop of Search from move i on, with the current window and the
      best score so far; it stops as soon as beta <= alpha. */
  function SearchLoop<P, M>(r: Rules<P, M>, t: map<string, Score>, p: P, ms: seq<M>, i: nat, d: nat,
                            alpha: Score, beta: Score, maxP: bool, best: Score): SearchResult
    requires i <= |ms| && d > 0
    decreases d, 0, |ms| - i
  {
    if i == |ms| then SearchResult(best, t, false)
    else
      var c := Search(r, t, r.apply(p, ms[i]), d - 1, alpha, beta, !maxP);
      var best' := if maxP then Max(best, c.score) else Min(best, c.score);
      var alpha' := if maxP then Max(alpha, best') else alpha;
      var beta' := if maxP then beta else Min(beta, best');
      if Le(beta', alpha') then SearchResult(best', c.table, c.hit)
      else
        var rest := SearchLoop(r, c.table, p, ms, i + 1, d, alpha', beta', maxP, best');
        SearchResult(rest.score, rest.table, c.hit || rest.hit)
  }

  /** A checkmated position scores the infinity against the side to move at
      every depth and for either player: in plain minimax, and in the search
      unless its key is already in the table. */
  lemma MateScore<P(!new), M>(r: Rules<P, M>, t: map<string, Score>, p: P, d: nat, alpha: Score, beta: Score, maxP: bool)
    requires MateEndsGame(r) && r.checkmate(p)
    ensures Value(r, p, d, maxP) == if r.whiteToMove(p) then NegInf else PosInf
    ensures r.key(p) !in t ==> Search(r, t, p, d, alpha, beta, maxP).score == if r.whiteToMove(p) then NegInf else PosInf
  {
    assert r.gameOver(p);
  }

  // ---------------------------------------------------------------------------
  // The table

  /** t2 keeps every entry of t1 unchanged. */
  predicate Extends(t1: map<string, Score>, t2: map<string, Score>)
  {
    forall k :: k in t1 ==> k in t2 && t2[k] == t1[k]
  }

  lemma ExtendsTrans(t1: map<string, Score>, t2: map<string, Score>, t3: map<string, Score>)
    requires Extends(t1, t2) && Extends(t2, t3)
    ensures Extends(t1, t3)
  {
  }

  /** A search never removes or overwrites an entry, and afterwards the
      searched position's key holds the score returned. */
  lemma {:induction false} SearchTable<P, M>(r: Rules<P, M>, t: map<string, Score>, p: P, d: nat, alpha: Score, beta: Score, maxP: bool)
    ensures Extends(t, Search(r, t, p, d, alpha, beta, maxP).table)
    ensures r.key(p) in Search(r, t, p, d, alpha, beta, maxP).table
    ensures Search(r, t, p, d, alpha, beta, maxP).table[r.key(p)] == Search(r, t, p, d, alpha, beta, maxP).score
    decreases d, 1
  {
    var k := r.key(p);
    if k !in t && !(d == 0 || r.gameOver(p)) {
      var res := SearchLoop(r, t, p, r.moves(p), 0, d, alpha, beta, maxP, Start(maxP));
      LoopTable(r, t, p, r.moves(p), 0, d, alpha, beta, maxP, Start(maxP));
      assert Extends(t, res.table[k := res.score]);
    }
  }

  lemma {:induction false} LoopTable<P, M>(r: Rules<P, M>, t: map<string, Score>, p: P, ms: seq<M>, i: nat, d: nat,
                                           alpha: Score, beta: Score, maxP: bool, best: Score)
    requires i <= |ms| && d > 0
    ensures Extends(t, SearchLoop(r, t, p, ms, i, d, alpha, beta, maxP, best).table)
    decreases d, 0, |ms| - i
  {
    if i < |ms| {
      var c := Search(r, t, r.apply(p, ms[i]), d - 1, alpha, beta, !maxP);
      SearchTable(r, t, r.apply(p, ms[i]), d - 1, alpha, beta, !maxP);
      var best' := if maxP then Max(best, c.score) else Min(best, c.score);
      var alpha' := if maxP then Max(alpha, best') else alpha;
      var beta' := if maxP then beta else Min(beta, best');
      if !Le(beta', alpha') {
        LoopTable(r, c.table, p, ms, i + 1, d, alpha', beta', maxP, best');
        ExtendsTrans(t, c.table, SearchLoop(r, c.table, p, ms, i + 1, d, alpha', beta', maxP, best').table);
      }
    }
  }

  /** A position already in the table is answered with the stored score, and
      nothing is stored. */
  lemma SearchHit<P, M>(r: Rules<P, M>, t: map<string, Score>, p: P, d: nat, alpha: Score, beta: Score, maxP: bool)
    requires r.key(p) in t
    ensures Search(r, t, p, d, alpha, beta, maxP) == SearchResult(t[r.key(p)], t, true)
  {
  }

  // ---------------------------------------------------------------------------
  // Correctness of the pruning

  /** The fail-soft guarantee of alpha-beta: a score at or below alpha bounds
      the value from above, a score at or above beta bounds it from below, and
      a score strictly inside the window is the value. */
  predicate FailSoft(v: Score, m: Score, alpha: Score, beta: Score)
  {
    (Le(v, alpha) ==> Le(m, v)) &&
    (Lt(alpha, v) && Lt(v, beta) ==> v == m) &&
    (Le(beta, v) ==> Le(v, m))
  }

  /** A search in which no position is answered from the table meets the
      fail-soft guarantee against minimax. */
  lemma {:induction false} SearchFailSoft<P, M>(r: Rules<P, M>, t: map<string, Score>, p: P, d: nat, alpha: Score, beta: Score, maxP: bool)
    requires Lt(alpha, beta)
    requires !Search(r, t, p, d, alpha, beta, maxP).hit
    ensures FailSoft(Search(r, t, p, d, alpha, beta, maxP).score, Value(r, p, d, maxP), alpha, beta)
    decreases d, 1
  {
    if !(d == 0 || r.gameOver(p)) {
      var start := Start(maxP);
      LoopFailSoft(r, t, p, r.moves(p), 0, d, alpha, beta, maxP, start);
    }
  }

  lemma {:induction false} LoopFailSoft<P, M>(r: Rules<P, M>, t: map<string, Score>, p: P, ms: seq<M>, i: nat, d: nat,
                                              alpha: Score, beta: Score, maxP: bool, best: Score)
    requires i <= |ms| && d > 0
    requires Lt(alpha, beta)
    requires if maxP then Le(best, alpha) else Le(beta, best)
    requires !SearchLoop(r, t, p, ms, i, d, alpha, beta, maxP, best).hit
    ensures FailSoft(SearchLoop(r, t, p, ms, i, d, alpha, beta, maxP, best).score,
                     if maxP then Max(best, ValueFrom(r, p, ms, i, d, maxP)) else Min(best, ValueFrom(r, p, ms, i, d, maxP)),
                     alpha, beta)
    decreases d, 0, |ms| - i
  {
    if i < |ms| {
      var c := Search(r, t, r.apply(p, ms[i]), d - 1, alpha, beta, !maxP);
      SearchFailSoft(r, t, r.apply(p, ms[i]), d - 1, alpha, beta, !maxP);
      var best' := if maxP then Max(best, c.score) else Min(best, c.score);
      var alpha' := if maxP then Max(alpha, best') else alpha;
      var beta' := if maxP then beta else Min(beta, best');
      var v := Value(r, r.apply(p, ms[i]), d - 1, !maxP);
      var rest := ValueFrom(r, p, ms, i + 1, d, maxP);
      if Le(beta', alpha') {
        if maxP {
          MaxCut(alpha, beta, best, c.score, v, rest);
        } else {
          MinCut(alpha, beta, best, c.score, v, rest);
        }
      } else {
        LoopFailSoft(r, c.table, p, ms, i + 1, d, alpha', beta', maxP, best');
        var w := SearchLoop(r, c.table, p, ms, i + 1, d, alpha', beta', maxP, best').score;
        if maxP {
          MaxContinue(alpha, beta, best, c.score, v, rest, w);
        } else {
          MinContinue(alpha, beta, best, c.score, v, rest, w);
        }
      }
    }
  }

  /** A maximiser's cut-off: the child's score reached beta. */
  lemma MaxCut(alpha: Score, beta: Score, best: Score, c: Score, v: Score, rest: Score)
    requires Lt(alpha, beta) && Le(best, alpha) && FailSoft(c, v, alpha, beta)
    requires Le(beta, Max(alpha, Max(best, c)))
    ensures FailSoft(Max(best, c), Max(best, Max(v, rest)), alpha, beta)
  {
  }

  /** A maximiser's step without cut-off: the guarantee for the rest of the
      moves in the raised window gives the guarantee for these moves. */
  lemma MaxContinue(alpha: Score, beta: Score, best: Score, c: Score, v: Score, rest: Score, w: Score)
    requires Lt(alpha, beta) && Le(best, alpha) && FailSoft(c, v, alpha, beta)
    requires FailSoft(w, Max(Max(best, c), rest), Max(alpha, Max(best, c)), beta)
    ensures FailSoft(w, Max(best, Max(v, rest)), alpha, beta)
  {
  }

  lemma MinCut(alpha: Score, beta: Score, best: Score, c: Score, v: Score, rest: Score)
    requires Lt(alpha, beta) && Le(beta, best) && FailSoft(c, v, alpha, beta)
    requires Le(Min(beta, Min(best, c)), alpha)
    ensures FailSoft(Min(best, c), Min(best, Min(v, rest)), alpha, beta)
  {
  }

  lemma MinContinue(alpha: Score, beta: Score, best: Score, c: Score, v: Score, rest: Score, w: Score)
    requires Lt(alpha, beta) && Le(beta, best) && FailSoft(c, v, alpha, beta)
    requires FailSoft(w, Min(Min(best, c), rest), alpha, Min(beta, Min(best, c)))
    ensures FailSoft(w, Min(best, Min(v, rest)), alpha, beta)
  {
  }

  /** With the full window and no answer from the table, alpha-beta returns
      exactly the minimax value. */
  lemma FullWindow<P, M>(r: Rules<P, M>, t: map<string, Score>, p: P, d: nat, maxP: bool)
    requires !Search(r, t, p, d, NegInf, PosInf, maxP).hit
    ensures Search(r, t, p, d, NegInf, PosInf, maxP).score == Value(r, p, d, maxP)
  {
    SearchFailSoft(r, t, p, d, NegInf, PosInf, maxP);
  }
}
