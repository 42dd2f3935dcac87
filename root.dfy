/** The root driver of the alpha-beta engine: one pass scores every legal move
    of the root with Search and keeps the best; iterative deepening repeats the
    pass at increasing depth, sharing the table and the window between passes. */
module Root {
  import opened Chess
  import opened Scores
  import opened AlphaBeta

  /** a is strictly better than b for the side choosing at the root. */
  predicate Better(maxP: bool, a: Score, b: Score)
  {
    if maxP then Lt(b, a) else Lt(a, b)
  }

  /** The best score so far and the move that reached it. */
  datatype Choice<M> = Choice(score: Score, move: Option<M>)

  /** The choice after scoring moves ms[i..] with scores sc[i..]: a move
      replaces the current choice only when its score is strictly better. */
  function Pick<M>(ms: seq<M>, sc: seq<Score>, i: nat, maxP: bool, ch: Choice<M>): Choice<M>
    requires |sc| == |ms| && i <= |ms|
    decreases |ms| - i
  {
    if i == |ms| then ch
    else Pick(ms, sc, i + 1, maxP, if Better(maxP, sc[i], ch.score) then Choice(sc[i], Some(ms[i])) else ch)
  }

  /** The pick is the first best move: no score beats it, it is no worse than
      where it started, and either nothing beat the starting choice or it is
      a move ms[j] whose score is strictly better than every earlier one. */
  lemma {:induction false} PickBest<M>(ms: seq<M>, sc: seq<Score>, i: nat, maxP: bool, ch: Choice<M>)
    requires |sc| == |ms| && i <= |ms|
    ensures forall j :: i <= j < |ms| ==> !Better(maxP, sc[j], Pick(ms, sc, i, maxP, ch).score)
    ensures !Better(maxP, ch.score, Pick(ms, sc, i, maxP, ch).score)
    ensures Pick(ms, sc, i, maxP, ch).score == ch.score ==> Pick(ms, sc, i, maxP, ch) == ch
    ensures Pick(ms, sc, i, maxP, ch) == ch ||
            exists j :: i <= j < |ms| && Pick(ms, sc, i, maxP, ch) == Choice(sc[j], Some(ms[j])) &&
                        Better(maxP, sc[j], ch.score) && forall l :: i <= l < j ==> Better(maxP, sc[j], sc[l])
    decreases |ms| - i
  {
    if i < |ms| {
      var ch' := if Better(maxP, sc[i], ch.score) then Choice(sc[i], Some(ms[i])) else ch;
      PickBest(ms, sc, i + 1, maxP, ch');
      var res := Pick(ms, sc, i + 1, maxP, ch');
      if res != ch && res != ch' {
        var j :| i + 1 <= j < |ms| && res == Choice(sc[j], Some(ms[j])) &&
                 Better(maxP, sc[j], ch'.score) && forall l :: i + 1 <= l < j ==> Better(maxP, sc[j], sc[l]);
        assert forall l :: i <= l < j ==> Better(maxP, sc[j], sc[l]);
      }
    }
  }

  /** The move a pick starts from matters only when nothing beats the starting score. */
  lemma {:induction false} PickIndependent<M>(ms: seq<M>, sc: seq<Score>, i: nat, maxP: bool, s: Score, b1: Option<M>, b2: Option<M>)
    requires |sc| == |ms| && i <= |ms|
    ensures Pick(ms, sc, i, maxP, Choice(s, b1)).score == Pick(ms, sc, i, maxP, Choice(s, b2)).score
    ensures Pick(ms, sc, i, maxP, Choice(s, b1)).score != s ==> Pick(ms, sc, i, maxP, Choice(s, b1)) == Pick(ms, sc, i, maxP, Choice(s, b2))
    decreases |ms| - i
  {
    if i < |ms| && !Better(maxP, sc[i], s) {
      PickIndependent(ms, sc, i + 1, maxP, s, b1, b2);
    }
  }

  /** Picking again over the same scores, from the move already picked, picks it again. */
  lemma PickAgain<M>(ms: seq<M>, sc: seq<Score>, maxP: bool, s: Score, b: Option<M>)
    requires |sc| == |ms|
    ensures Pick(ms, sc, 0, maxP, Choice(s, Pick(ms, sc, 0, maxP, Choice(s, b)).move)) == Pick(ms, sc, 0, maxP, Choice(s, b))
  {
    var res := Pick(ms, sc, 0, maxP, Choice(s, b));
    PickBest(ms, sc, 0, maxP, Choice(s, b));
    PickIndependent(ms, sc, 0, maxP, s, res.move, b);
  }

  // ---------------------------------------------------------------------------
  // One pass

  /** The state the root keeps: the table, the window, the choice, and (as a
      record of the pass) the scores of the moves searched so far. */
  datatype RootState<M> = RootState(table: map<string, Score>, alpha: Score, beta: Score, choice: Choice<M>, scores: seq<Score>)

  /** The root's move loop from move i on, each move searched to depth d in
      the current window; the maximiser raises alpha to the best score, the
      minimiser lowers beta to it. */
  function RootLoop<P, M>(r: Rules<P, M>, p: P, ms: seq<M>, i: nat, d: nat, maxP: bool, s: RootState<M>): RootState<M>
    requires i <= |ms|
    decreases |ms| - i
  {
    if i == |ms| then s
    else
      var c := Search(r, s.table, r.apply(p, ms[i]), d, s.alpha, s.beta, !maxP);
      var ch := if Better(maxP, c.score, s.choice.score) then Choice(c.score, Some(ms[i])) else s.choice;
      var alpha := if maxP then Max(s.alpha, ch.score) else s.alpha;
      var beta := if maxP then s.beta else Min(s.beta, ch.score);
      RootLoop(r, p, ms, i + 1, d, maxP, RootState(c.table, alpha, beta, ch, s.scores + [c.score]))
  }

  /** One pass with the children searched to depth d: the best score is reset,
      the best move, the window and the table carry over. */
  function Pass<P, M>(r: Rules<P, M>, p: P, d: nat, maxP: bool, s: RootState<M>): RootState<M>
  {
    RootLoop(r, p, r.moves(p), 0, d, maxP, RootState(s.table, s.alpha, s.beta, Choice(Start(maxP), s.choice.move), []))
  }

  /** The key of the position after ms[j]. */
  function ChildKey<P, M>(r: Rules<P, M>, p: P, ms: seq<M>, j: nat): string
    requires j < |ms|
  {
    r.key(r.apply(p, ms[j]))
  }

  /** The move loop appends one score per move. */
  lemma {:induction false} RootLoopScores<P, M>(r: Rules<P, M>, p: P, ms: seq<M>, i: nat, d: nat, maxP: bool, s: RootState<M>)
    requires i <= |ms| && |s.scores| == i
    ensures |RootLoop(r, p, ms, i, d, maxP, s).scores| == |ms|
    ensures RootLoop(r, p, ms, i, d, maxP, s).scores[..i] == s.scores
    decreases |ms| - i
  {
    if i < |ms| {
      var c := Search(r, s.table, r.apply(p, ms[i]), d, s.alpha, s.beta, !maxP);
      var ch := if Better(maxP, c.score, s.choice.score) then Choice(c.score, Some(ms[i])) else s.choice;
      var alpha := if maxP then Max(s.alpha, ch.score) else s.alpha;
      var beta := if maxP then s.beta else Min(s.beta, ch.score);
      var s' := RootState(c.table, alpha, beta, ch, s.scores + [c.score]);
      RootLoopScores(r, p, ms, i + 1, d, maxP, s');
      var res := RootLoop(r, p, ms, i + 1, d, maxP, s');
      assert res.scores[..i] == res.scores[..i + 1][..i];
    }
  }

  /** The choice of a pass is the pick over its scores, and the window it
      leaves is the starting window moved to the choice's score. */
  lemma {:induction false} RootLoopChoice<P, M>(r: Rules<P, M>, p: P, ms: seq<M>, i: nat, d: nat, maxP: bool, s: RootState<M>)
    requires i <= |ms| && |s.scores| == i
    requires if maxP then Le(s.choice.score, s.alpha) else Le(s.beta, s.choice.score)
    ensures var res := RootLoop(r, p, ms, i, d, maxP, s);
      |res.scores| == |ms| &&
      res.choice == Pick(ms, res.scores, i, maxP, s.choice) &&
      (maxP ==> res.beta == s.beta && res.alpha == Max(s.alpha, res.choice.score)) &&
      (!maxP ==> res.alpha == s.alpha && res.beta == Min(s.beta, res.choice.score))
    decreases |ms| - i
  {
    RootLoopScores(r, p, ms, i, d, maxP, s);
    if i < |ms| {
      var c := Search(r, s.table, r.apply(p, ms[i]), d, s.alpha, s.beta, !maxP);
      var ch := if Better(maxP, c.score, s.choice.score) then Choice(c.score, Some(ms[i])) else s.choice;
      var alpha := if maxP then Max(s.alpha, ch.score) else s.alpha;
      var beta := if maxP then s.beta else Min(s.beta, ch.score);
      var s' := RootState(c.table, alpha, beta, ch, s.scores + [c.score]);
      RootLoopChoice(r, p, ms, i + 1, d, maxP, s');
      RootLoopScores(r, p, ms, i + 1, d, maxP, s');
      var res := RootLoop(r, p, ms, i + 1, d, maxP, s');
      assert res.scores[i] == c.score by {
        assert res.scores[..i + 1][i] == c.score;
      }
      PickBest(ms, res.scores, i + 1, maxP, ch);
      if maxP {
        MaxAbsorb(s.alpha, ch.score, res.choice.score);
      } else {
        MinAbsorb(s.beta, ch.score, res.choice.score);
      }
    }
  }

  /** A pass keeps every entry of the table, and afterwards every child it
      searched is in the table with the score the pass recorded for it. */
  lemma {:induction false} RootLoopTable<P, M>(r: Rules<P, M>, p: P, ms: seq<M>, i: nat, d: nat, maxP: bool, s: RootState<M>)
    requires i <= |ms| && |s.scores| == i
    ensures var res := RootLoop(r, p, ms, i, d, maxP, s);
      |res.scores| == |ms| && Extends(s.table, res.table) &&
      forall j :: i <= j < |ms| ==> ChildKey(r, p, ms, j) in res.table && res.table[ChildKey(r, p, ms, j)] == res.scores[j]
    decreases |ms| - i
  {
    RootLoopScores(r, p, ms, i, d, maxP, s);
    if i < |ms| {
      var c := Search(r, s.table, r.apply(p, ms[i]), d, s.alpha, s.beta, !maxP);
      SearchTable(r, s.table, r.apply(p, ms[i]), d, s.alpha, s.beta, !maxP);
      var ch := if Better(maxP, c.score, s.choice.score) then Choice(c.score, Some(ms[i])) else s.choice;
      var alpha := if maxP then Max(s.alpha, ch.score) else s.alpha;
      var beta := if maxP then s.beta else Min(s.beta, ch.score);
      var s' := RootState(c.table, alpha, beta, ch, s.scores + [c.score]);
      RootLoopTable(r, p, ms, i + 1, d, maxP, s');
      RootLoopScores(r, p, ms, i + 1, d, maxP, s');
      var res := RootLoop(r, p, ms, i + 1, d, maxP, s');
      ExtendsTrans(s.table, c.table, res.table);
      assert res.scores[i] == c.score by {
        assert res.scores[..i + 1][i] == c.score;
      }
    }
  }

  /** The children of the root all have an entry in t. */
  predicate AllCached<P, M>(r: Rules<P, M>, p: P, ms: seq<M>, t: map<string, Score>)
  {
    forall j :: 0 <= j < |ms| ==> ChildKey(r, p, ms, j) in t
  }

  /** When every child is in the table, a pass reads its scores from the table
      and leaves the table as it is. */
  lemma {:induction false} RootLoopCached<P, M>(r: Rules<P, M>, p: P, ms: seq<M>, i: nat, d: nat, maxP: bool, s: RootState<M>)
    requires i <= |ms| && AllCached(r, p, ms, s.table)
    ensures RootLoop(r, p, ms, i, d, maxP, s).table == s.table
    decreases |ms| - i
  {
    if i < |ms| {
      assert ChildKey(r, p, ms, i) in s.table;
      SearchHit(r, s.table, r.apply(p, ms[i]), d, s.alpha, s.beta, !maxP);
      var c := Search(r, s.table, r.apply(p, ms[i]), d, s.alpha, s.beta, !maxP);
      var ch := if Better(maxP, c.score, s.choice.score) then Choice(c.score, Some(ms[i])) else s.choice;
      var alpha := if maxP then Max(s.alpha, ch.score) else s.alpha;
      var beta := if maxP then s.beta else Min(s.beta, ch.score);
      RootLoopCached(r, p, ms, i + 1, d, maxP, RootState(c.table, alpha, beta, ch, s.scores + [c.score]));
    }
  }

  // ---------------------------------------------------------------------------
  // Iterative deepening

  /** Before the first pass: no move, the full window. */
  function Initial<M>(t: map<string, Score>, maxP: bool): RootState<M>
  {
    RootState(t, NegInf, PosInf, Choice(Start(maxP), None), [])
  }

  /** Passes k, k+1, ... below the given count; pass k searches the children
      to depth k (the root to depth k + 1). */
  function DeepenFrom<P, M>(r: Rules<P, M>, p: P, maxP: bool, k: nat, passes: nat, s: RootState<M>): RootState<M>
    decreases passes - k
  {
    if k >= passes then s else DeepenFrom(r, p, maxP, k + 1, passes, Pass(r, p, k, maxP, s))
  }

  /** The state after the given number of passes from table t. */
  function Deepen<P, M>(r: Rules<P, M>, p: P, maxP: bool, passes: nat, t: map<string, Score>): RootState<M>
  {
    DeepenFrom(r, p, maxP, 0, passes, Initial(t, maxP))
  }

  /** Without a pass there is no move; after any number of passes the move is
      none or a legal move of the root. */
  lemma {:induction false} DeepenLegal<P, M>(r: Rules<P, M>, p: P, maxP: bool, k: nat, passes: nat, s: RootState<M>)
    requires s.choice.move.None? || s.choice.move.value in r.moves(p)
    ensures var m := DeepenFrom(r, p, maxP, k, passes, s).choice.move; m.None? || m.value in r.moves(p)
    ensures k >= passes ==> DeepenFrom(r, p, maxP, k, passes, s) == s
    decreases passes - k
  {
    if k < passes {
      var ms := r.moves(p);
      var s0 := RootState(s.table, s.alpha, s.beta, Choice(Start(maxP), s.choice.move), []);
      RootLoopChoice(r, p, ms, 0, k, maxP, s0);
      PickBest(ms, Pass(r, p, k, maxP, s).scores, 0, maxP, s0.choice);
      DeepenLegal(r, p, maxP, k + 1, passes, Pass(r, p, k, maxP, s));
    }
  }

  /** The maximiser's alpha only rises and its beta stays; the minimiser's beta
      only falls and its alpha stays. Neither is reset between passes. */
  lemma {:induction false} DeepenWindow<P, M>(r: Rules<P, M>, p: P, maxP: bool, k: nat, passes: nat, s: RootState<M>)
    ensures var res := DeepenFrom(r, p, maxP, k, passes, s);
      (maxP ==> Le(s.alpha, res.alpha) && res.beta == s.beta) &&
      (!maxP ==> Le(res.beta, s.beta) && res.alpha == s.alpha)
    decreases passes - k
  {
    if k < passes {
      var s0 := RootState(s.table, s.alpha, s.beta, Choice(Start(maxP), s.choice.move), []);
      RootLoopChoice(r, p, r.moves(p), 0, k, maxP, s0);
      DeepenWindow(r, p, maxP, k + 1, passes, Pass(r, p, k, maxP, s));
    }
  }

  /** Every pass after the first finds each child of the root in the table,
      where the first pass stored its score: the cache ignores depth. So the
      later passes repeat the first pass's scores, keep its move and leave
      the table as the first pass left it. */
  lemma {:induction false} LaterPasses<P, M>(r: Rules<P, M>, p: P, maxP: bool, k: nat, passes: nat, s: RootState<M>, first: RootState<M>)
    requires k >= 1
    requires |first.scores| == |r.moves(p)| && AllCached(r, p, r.moves(p), first.table)
    requires forall j :: 0 <= j < |r.moves(p)| ==> first.table[ChildKey(r, p, r.moves(p), j)] == first.scores[j]
    requires first.choice == Pick(r.moves(p), first.scores, 0, maxP, Choice(Start(maxP), None))
    requires s.table == first.table && s.choice.move == first.choice.move
    ensures DeepenFrom(r, p, maxP, k, passes, s).table == first.table
    ensures DeepenFrom(r, p, maxP, k, passes, s).choice.move == first.choice.move
    decreases passes - k
  {
    if k < passes {
      var ms := r.moves(p);
      var s0 := RootState(s.table, s.alpha, s.beta, Choice(Start(maxP), s.choice.move), []);
      var s1 := Pass(r, p, k, maxP, s);
      RootLoopChoice(r, p, ms, 0, k, maxP, s0);
      RootLoopTable(r, p, ms, 0, k, maxP, s0);
      RootLoopCached(r, p, ms, 0, k, maxP, s0);
      assert s1.scores == first.scores;
      PickAgain(ms, first.scores, maxP, Start(maxP), None);
      LaterPasses(r, p, maxP, k + 1, passes, s1, first);
    }
  }

  /** For any positive number of passes the engine ends with the first pass's move and table. */
  lemma DeepenIsFirstPass<P, M>(r: Rules<P, M>, p: P, maxP: bool, passes: nat, t: map<string, Score>)
    requires passes >= 1
    ensures Deepen(r, p, maxP, passes, t).choice.move == Deepen(r, p, maxP, 1, t).choice.move
    ensures Deepen(r, p, maxP, passes, t).table == Deepen(r, p, maxP, 1, t).table
  {
    var s := Initial<M>(t, maxP);
    var first := Pass(r, p, 0, maxP, s);
    var s0 := RootState(s.table, s.alpha, s.beta, Choice(Start(maxP), s.choice.move), []);
    RootLoopChoice(r, p, r.moves(p), 0, 0, maxP, s0);
    RootLoopTable(r, p, r.moves(p), 0, 0, maxP, s0);
    LaterPasses(r, p, maxP, 1, passes, first, first);
    assert Deepen(r, p, maxP, 1, t) == first;
  }

  /** The static evaluations of the positions after each move. */
  function ChildEvals<P, M>(r: Rules<P, M>, p: P, ms: seq<M>): (e: seq<Score>)
    ensures |e| == |ms| && forall j :: 0 <= j < |ms| ==> e[j] == Eval(r, r.apply(p, ms[j]))
  {
    seq(|ms|, j requires 0 <= j < |ms| => Eval(r, r.apply(p, ms[j])))
  }

  /** The children have pairwise different keys, none of them in t. */
  predicate FreshChildren<P, M>(r: Rules<P, M>, p: P, ms: seq<M>, i: nat, t: map<string, Score>)
    requires i <= |ms|
  {
    (forall j :: i <= j < |ms| ==> ChildKey(r, p, ms, j) !in t) &&
    (forall j, l :: i <= j < l < |ms| ==> ChildKey(r, p, ms, j) != ChildKey(r, p, ms, l))
  }

  /** A depth-0 pass over children not yet in the table scores each child by
      its static evaluation. */
  lemma {:induction false} FirstPassScores<P, M>(r: Rules<P, M>, p: P, ms: seq<M>, i: nat, maxP: bool, s: RootState<M>)
    requires i <= |ms| && |s.scores| == i
    requires FreshChildren(r, p, ms, i, s.table)
    ensures |RootLoop(r, p, ms, i, 0, maxP, s).scores| == |ms|
    ensures forall j :: i <= j < |ms| ==> RootLoop(r, p, ms, i, 0, maxP, s).scores[j] == Eval(r, r.apply(p, ms[j]))
    decreases |ms| - i
  {
    RootLoopScores(r, p, ms, i, 0, maxP, s);
    if i < |ms| {
      assert ChildKey(r, p, ms, i) !in s.table;
      var c := Search(r, s.table, r.apply(p, ms[i]), 0, s.alpha, s.beta, !maxP);
      var ch := if Better(maxP, c.score, s.choice.score) then Choice(c.score, Some(ms[i])) else s.choice;
      var alpha := if maxP then Max(s.alpha, ch.score) else s.alpha;
      var beta := if maxP then s.beta else Min(s.beta, ch.score);
      var s' := RootState(c.table, alpha, beta, ch, s.scores + [c.score]);
      assert FreshChildren(r, p, ms, i + 1, c.table) by {
        forall j | i + 1 <= j < |ms|
          ensures ChildKey(r, p, ms, j) !in c.table
        {
          assert ChildKey(r, p, ms, i) != ChildKey(r, p, ms, j);
        }
      }
      FirstPassScores(r, p, ms, i + 1, maxP, s');
      RootLoopScores(r, p, ms, i + 1, 0, maxP, s');
      var res := RootLoop(r, p, ms, i + 1, 0, maxP, s');
      assert res.scores[i] == c.score by {
        assert res.scores[..i + 1][i] == c.score;
      }
    }
  }

  /** When the children of the root have distinct keys not yet in the table,
      the engine ends, after any positive number of passes, with the first
      move whose resulting position has the best static evaluation. */
  lemma DeepenOnePly<P, M>(r: Rules<P, M>, p: P, maxP: bool, passes: nat, t: map<string, Score>)
    requires passes >= 1
    requires FreshChildren(r, p, r.moves(p), 0, t)
    ensures Deepen(r, p, maxP, passes, t).choice.move ==
            Pick(r.moves(p), ChildEvals(r, p, r.moves(p)), 0, maxP, Choice(Start(maxP), None)).move
  {
    var ms := r.moves(p);
    DeepenIsFirstPass(r, p, maxP, passes, t);
    var s := Initial<M>(t, maxP);
    var s0 := RootState(s.table, s.alpha, s.beta, Choice(Start(maxP), s.choice.move), []);
    RootLoopChoice(r, p, ms, 0, 0, maxP, s0);
    FirstPassScores(r, p, ms, 0, maxP, s0);
    assert Pass(r, p, 0, maxP, s).scores == ChildEvals(r, p, ms);
    assert Deepen(r, p, maxP, 1, t) == Pass(r, p, 0, maxP, s);
  }
}
