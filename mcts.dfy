/** Monte Carlo tree search over the node arena. The random choices, the
    rollout's outcome and the floating-point UCT formula are parameters. */
module MonteCarlo {
  import opened Chess
  import opened Arena

  /** Index of the first largest element. */
  function FirstMax(xs: seq<real>): (j: nat)
    requires |xs| > 0
    ensures j < |xs|
    ensures forall l :: 0 <= l < |xs| ==> xs[l] <= xs[j]
    ensures forall l :: 0 <= l < j ==> xs[l] < xs[j]
  {
    if |xs| == 1 then 0
    else
      var j := FirstMax(xs[..|xs| - 1]);
      if xs[|xs| - 1] > xs[j] then |xs| - 1 else j
  }

  /** Index of the first smallest element. */
  function FirstMin(xs: seq<real>): (j: nat)
    requires |xs| > 0
    ensures j < |xs|
    ensures forall l :: 0 <= l < |xs| ==> xs[j] <= xs[l]
    ensures forall l :: 0 <= l < j ==> xs[j] < xs[l]
  {
    if |xs| == 1 then 0
    else
      var j := FirstMin(xs[..|xs| - 1]);
      if xs[|xs| - 1] < xs[j] then |xs| - 1 else j
  }

  /** The first-largest index is the only index with the first-largest
      property, so the choice does not depend on how it is computed. */
  lemma FirstMaxUnique(xs: seq<real>, j: nat)
    requires j < |xs| && (forall l :: 0 <= l < |xs| ==> xs[l] <= xs[j]) && (forall l :: 0 <= l < j ==> xs[l] < xs[j])
    ensures FirstMax(xs) == j
  {
    var f := FirstMax(xs);
    assert xs[f] <= xs[j] && xs[j] <= xs[f];
  }

  /** The nodes among cs that have never been visited, in order. */
  function Unvisited<S, M>(ns: seq<NodeRec<S, M>>, cs: seq<nat>): (u: seq<nat>)
    requires forall k :: 0 <= k < |cs| ==> cs[k] < |ns|
    ensures |u| <= |cs|
    ensures forall k :: 0 <= k < |u| ==> u[k] in cs && ns[u[k]].visits == 0
    ensures forall k :: 0 <= k < |cs| && ns[cs[k]].visits == 0 ==> cs[k] in u
    ensures |u| == 0 <==> forall k :: 0 <= k < |cs| ==> ns[cs[k]].visits != 0
  {
    if |cs| == 0 then []
    else
      var u := Unvisited(ns, cs[..|cs| - 1]);
      assert forall k :: 0 <= k < |cs| - 1 ==> cs[..|cs| - 1][k] == cs[k];
      if ns[cs[|cs| - 1]].visits == 0 then u + [cs[|cs| - 1]] else u
  }

  /** The unvisited nodes are listed in the order of cs: u[k] is cs[idx[k]]
      for increasing positions idx, which are exactly the positions of the
      unvisited nodes. */
  lemma {:induction false} UnvisitedOrder<S, M>(ns: seq<NodeRec<S, M>>, cs: seq<nat>) returns (idx: seq<nat>)
    requires forall k :: 0 <= k < |cs| ==> cs[k] < |ns|
    ensures Picks(cs, Unvisited(ns, cs), idx)
    ensures forall j :: 0 <= j < |cs| ==> (j in idx <==> ns[cs[j]].visits == 0)
  {
    if |cs| == 0 {
      idx := [];
    } else {
      var idx' := UnvisitedOrder(ns, cs[..|cs| - 1]);
      idx := UnvisitedOrderStep(ns, cs, idx');
    }
  }

  /** The induction step of UnvisitedOrder: one more element of cs. */
  lemma UnvisitedOrderStep<S, M>(ns: seq<NodeRec<S, M>>, cs: seq<nat>, idx': seq<nat>) returns (idx: seq<nat>)
    requires |cs| > 0 && forall k :: 0 <= k < |cs| ==> cs[k] < |ns|
    requires Picks(cs[..|cs| - 1], Unvisited(ns, cs[..|cs| - 1]), idx')
    requires forall j :: 0 <= j < |cs| - 1 ==> (j in idx' <==> ns[cs[..|cs| - 1][j]].visits == 0)
    ensures Picks(cs, Unvisited(ns, cs), idx)
    ensures forall j :: 0 <= j < |cs| ==> (j in idx <==> ns[cs[j]].visits == 0)
  {
    var n := |cs| - 1;
    var u' := Unvisited(ns, cs[..n]);
    var keep := ns[cs[n]].visits == 0;
    assert Unvisited(ns, cs) == if keep then u' + [cs[n]] else u';
    idx := PicksStep(cs, u', idx', keep);
    MarksStep(ns, cs, idx', idx);
  }

  /** Extending cs by one element whose position is picked exactly when its
      node is unvisited keeps the picked positions those of unvisited nodes. */
  lemma MarksStep<S, M>(ns: seq<NodeRec<S, M>>, cs: seq<nat>, idx': seq<nat>, idx: seq<nat>)
    requires |cs| > 0 && forall k :: 0 <= k < |cs| ==> cs[k] < |ns|
    requires forall j :: 0 <= j < |cs| - 1 ==> (j in idx' <==> ns[cs[..|cs| - 1][j]].visits == 0)
    requires forall j :: 0 <= j < |cs| - 1 ==> (j in idx <==> j in idx')
    requires |cs| - 1 in idx <==> ns[cs[|cs| - 1]].visits == 0
    ensures forall j :: 0 <= j < |cs| ==> (j in idx <==> ns[cs[j]].visits == 0)
  {
    forall j | 0 <= j < |cs| - 1
      ensures j in idx <==> ns[cs[j]].visits == 0
    {
      assert cs[..|cs| - 1][j] == cs[j];
    }
  }

  /** u is the subsequence of cs at the increasing positions idx. */
  predicate Picks(cs: seq<nat>, u: seq<nat>, idx: seq<nat>)
  {
    |idx| == |u|
    && (forall k :: 0 <= k < |idx| ==> idx[k] < |cs| && cs[idx[k]] == u[k])
    && (forall k, l :: 0 <= k < l < |idx| ==> idx[k] < idx[l])
  }

  /** Extending cs by one element, kept or not, extends the picked positions
      accordingly. */
  lemma PicksStep(cs: seq<nat>, u': seq<nat>, idx': seq<nat>, keep: bool) returns (idx: seq<nat>)
    requires |cs| > 0 && Picks(cs[..|cs| - 1], u', idx')
    ensures Picks(cs, if keep then u' + [cs[|cs| - 1]] else u', idx)
    ensures forall j :: 0 <= j < |cs| - 1 ==> (j in idx <==> j in idx')
    ensures |cs| - 1 in idx <==> keep
  {
    var n := |cs| - 1;
    assert forall k :: 0 <= k < n ==> cs[..n][k] == cs[k];
    idx := if keep then idx' + [n] else idx';
    var u := if keep then u' + [cs[n]] else u';
    forall k | 0 <= k < |idx|
      ensures idx[k] < |cs| && cs[idx[k]] == u[k]
    {
      if k < |idx'| {
        assert idx[k] == idx'[k] && u[k] == u'[k];
      }
    }
    forall k, l | 0 <= k < l < |idx|
      ensures idx[k] < idx[l]
    {
      if l < |idx'| {
        assert idx[k] == idx'[k] && idx[l] == idx'[l];
      }
    }
    assert n !in idx';
  }

  /** The UCT score of each child cs[j] of node, as the given formula of the
      child's results, the child's visits and the node's visits. */
  function UctScores<S, M>(ns: seq<NodeRec<S, M>>, node: nat, cs: seq<nat>, uct: (int, int, int) -> real): (sc: seq<real>)
    requires node < |ns| && forall k :: 0 <= k < |cs| ==> cs[k] < |ns|
    ensures |sc| == |cs|
  {
    seq(|cs|, j requires 0 <= j < |cs| => uct(ns[cs[j]].wins, ns[cs[j]].visits, ns[node].visits))
  }

  /** The node the selection walk from node ends at, on iteration k. */
  ghost function Walk<S, M>(ns: seq<NodeRec<S, M>>, node: nat, k: nat, random: nat -> nat, uct: (int, int, int) -> real): (w: nat)
    requires Linked(ns) && node < |ns|
    ensures w < |ns|
    decreases |ns| - node
  {
    var cs := ns[node].children;
    if |cs| == 0 then node
    else
      var u := Unvisited(ns, cs);
      if |u| > 0 then
        var c := u[random(k) % |u|];
        assert c in cs;
        c
      else Walk(ns, cs[FirstMax(UctScores(ns, node, cs, uct))], k, random, uct)
  }

  /** Once every child of node has been visited, the walk continues from the
      first child with the largest UCT score. */
  lemma WalkDescends<S, M>(ns: seq<NodeRec<S, M>>, node: nat, k: nat, random: nat -> nat, uct: (int, int, int) -> real, j: nat)
    requires Linked(ns) && node < |ns|
    requires j < |ns[node].children| && forall l :: 0 <= l < |ns[node].children| ==> ns[ns[node].children[l]].visits > 0
    requires var sc := UctScores(ns, node, ns[node].children, uct);
      (forall l :: 0 <= l < |sc| ==> sc[l] <= sc[j]) && (forall l :: 0 <= l < j ==> sc[l] < sc[j])
    ensures Walk(ns, node, k, random, uct) == Walk(ns, ns[node].children[j], k, random, uct)
  {
    var cs := ns[node].children;
    FirstMaxUnique(UctScores(ns, node, cs, uct), j);
  }

  /** The visit count of each of the nodes cs. */
  function VisitCounts<S, M>(ns: seq<NodeRec<S, M>>, cs: seq<nat>): (v: seq<real>)
    requires forall k :: 0 <= k < |cs| ==> cs[k] < |ns|
    ensures |v| == |cs| && forall k :: 0 <= k < |cs| ==> v[k] == ns[cs[k]].visits as real
  {
    seq(|cs|, k requires 0 <= k < |cs| => ns[cs[k]].visits as real)
  }

  /** cs[j] has the most visits among cs, and every node before it fewer. */
  ghost predicate FirstMostVisited<S, M>(ns: seq<NodeRec<S, M>>, cs: seq<nat>, j: nat)
    requires j < |cs| && forall k :: 0 <= k < |cs| ==> cs[k] < |ns|
  {
    forall l :: 0 <= l < |cs| ==> ns[cs[l]].visits <= ns[cs[j]].visits && (l < j ==> ns[cs[l]].visits < ns[cs[j]].visits)
  }

  /** cs[j] has the fewest visits among cs, and every node before it more. */
  ghost predicate FirstLeastVisited<S, M>(ns: seq<NodeRec<S, M>>, cs: seq<nat>, j: nat)
    requires j < |cs| && forall k :: 0 <= k < |cs| ==> cs[k] < |ns|
  {
    forall l :: 0 <= l < |cs| ==> ns[cs[j]].visits <= ns[cs[l]].visits && (l < j ==> ns[cs[j]].visits < ns[cs[l]].visits)
  }

  /** The result value of a finished game: 1 if White won, -1 if Black won,
      0 otherwise. */
  function ResultValue(outcome: string): (v: int)
    ensures -1 <= v <= 1
    ensures v == 1 <==> outcome == "1-0"
    ensures v == -1 <==> outcome == "0-1"
  {
    if outcome == "1-0" then 1 else if outcome == "0-1" then -1 else 0
  }

  /** A sound tree whose nodes all follow the rules. */
  ghost predicate Consistent<S, M>(rules: Rules<S, M>, ns: seq<NodeRec<S, M>>)
  {
    Sound(ns) && Legal(ns, rules.moves, rules.apply)
  }

  /** The tree after round k of the search: select from the root, expand the
      selected node, evaluate the rollout from it and backpropagate. */
  ghost function Round<S, M>(rules: Rules<S, M>, ns: seq<NodeRec<S, M>>, k: nat, random: nat -> nat,
                             rollout: (nat, S) -> string, uct: (int, int, int) -> real): (ns': seq<NodeRec<S, M>>)
    requires Consistent(rules, ns)
    ensures Consistent(rules, ns') && Grows(ns, ns') && ns'[0].visits == ns[0].visits + 1
  {
    var node := Walk(ns, 0, k, random, uct);
    var v := ResultValue(rollout(k, ns[node].state));
    var e := Expanded(ns, node, rules.apply, rules.moves(ns[node].state));
    RoundStep(rules, ns, node, v);
    Bumped(e, node, v)
  }

  /** Expanding a node by its legal moves and then backpropagating a result
      in {-1, 0, 1} from it keeps the tree consistent, only grows it and adds
      one visit to the root. */
  lemma RoundStep<S, M>(rules: Rules<S, M>, ns: seq<NodeRec<S, M>>, node: nat, v: int)
    requires Consistent(rules, ns) && node < |ns| && -1 <= v <= 1
    ensures var ns' := Bumped(Expanded(ns, node, rules.apply, rules.moves(ns[node].state)), node, v);
      Consistent(rules, ns') && Grows(ns, ns') && ns'[0].visits == ns[0].visits + 1
  {
    var e := Expanded(ns, node, rules.apply, rules.moves(ns[node].state));
    ExpandedSound(ns, node, rules.apply, rules.moves(ns[node].state));
    ExpandedLegal(ns, node, rules.moves, rules.apply);
    BumpedSound(e, node, v);
    BumpedSameShape(e, node, v);
    LegalSameShape(e, Bumped(e, node, v), rules.moves, rules.apply);
    GrowsTrans(ns, e, Bumped(e, node, v));
  }

  /** Round k is the composition of its four phases. */
  lemma RoundIs<S, M>(rules: Rules<S, M>, ns: seq<NodeRec<S, M>>, k: nat, random: nat -> nat,
                      rollout: (nat, S) -> string, uct: (int, int, int) -> real, node: nat, v: int)
    requires Consistent(rules, ns) && node == Walk(ns, 0, k, random, uct)
    requires v == ResultValue(rollout(k, ns[node].state))
    ensures Round(rules, ns, k, random, rollout, uct)
      == Bumped(Expanded(ns, node, rules.apply, rules.moves(ns[node].state)), node, v)
  {
  }

  /** The tree after rounds 0, 1, ..., n - 1. */
  ghost function Rounds<S, M>(rules: Rules<S, M>, ns: seq<NodeRec<S, M>>, n: nat, random: nat -> nat,
                              rollout: (nat, S) -> string, uct: (int, int, int) -> real): (ns': seq<NodeRec<S, M>>)
    requires Consistent(rules, ns)
    ensures Consistent(rules, ns') && Grows(ns, ns') && ns'[0].visits == ns[0].visits + n
  {
    if n == 0 then
      assert Grows(ns, ns) by {
        forall j | 0 <= j < |ns|
          ensures ns[j].children[..|ns[j].children|] == ns[j].children
        {
        }
      }
      ns
    else
      var prev := Rounds(rules, ns, n - 1, random, rollout, uct);
      GrowsTrans(ns, prev, Round(rules, prev, n - 1, random, rollout, uct));
      Round(rules, prev, n - 1, random, rollout, uct)
  }

  class Mcts<S, M> {
    const rules: Rules<S, M>
    /** The tree; node 0 is the root. */
    var nodes: seq<NodeRec<S, M>>

    ghost predicate Valid()
      reads this
    {
      Consistent(rules, nodes)
    }

    constructor (rules: Rules<S, M>, state: S)
      ensures this.rules == rules && nodes == [NodeRec(state, None, None, 0, 0, [])]
      ensures Valid()
    {
      this.rules := rules;
      nodes := [NodeRec(state, None, None, 0, 0, [])];
    }

    /** Walks down from start: stops at a node without children, or returns
        one of the current node's unvisited children at random, or moves to
        the child with the best UCT score. */
    method Select(start: nat, k: nat, random: nat -> nat, uct: (int, int, int) -> real) returns (node: nat)
      requires Valid() && start < |nodes|
      ensures node == Walk(nodes, start, k, random, uct)
      ensures node < |nodes| && Anc(nodes, start, node)
      ensures |nodes[node].children| == 0 || (node != start && nodes[node].visits == 0)
    {
      node := start;
      while |nodes[node].children| > 0
        invariant node < |nodes| && Anc(nodes, start, node)
        invariant Walk(nodes, node, k, random, uct) == Walk(nodes, start, k, random, uct)
        decreases |nodes| - node
      {
        var children := nodes[node].children;
        var unexplored := Unvisited(nodes, children);
        if |unexplored| > 0 {
          var c := unexplored[random(k) % |unexplored|];
          ChildAnc(start, node, c);
          return c;
        }
        var next := children[FirstMax(UctScores(nodes, node, children, uct))];
        ChildAnc(start, node, next);
        node := next;
      }
    }

    lemma ChildAnc(start: nat, node: nat, c: nat)
      requires Linked(nodes) && node < |nodes| && Anc(nodes, start, node) && c in nodes[node].children
      ensures c < |nodes| && node < c && Anc(nodes, start, c)
    {
      var k :| 0 <= k < |nodes[node].children| && nodes[node].children[k] == c;
      assert Anc(nodes, node, c);
      AncTrans(nodes, start, node, c);
    }

    /** Gives node one child per legal move of its position, in order. */
    method Expand(node: nat)
      requires Valid() && node < |nodes|
      modifies this
      ensures Valid()
      ensures nodes == Expanded(old(nodes), node, rules.apply, rules.moves(old(nodes)[node].state))
    {
      var legalMoves := rules.moves(nodes[node].state);
      ghost var ns := nodes;
      ExpandedNothing(ns, node, rules.apply);
      for i := 0 to |legalMoves|
        invariant nodes == Expanded(ns, node, rules.apply, legalMoves[..i])
      {
        var state := rules.apply(nodes[node].state, legalMoves[i]);
        ExpandedStep(ns, node, rules.apply, legalMoves[..i], legalMoves[i]);
        assert legalMoves[..i + 1] == legalMoves[..i] + [legalMoves[i]];
        nodes := nodes[node := nodes[node].(children := nodes[node].children + [|nodes|])] + [NewNode(state, node, legalMoves[i])];
      }
      assert legalMoves[..|legalMoves|] == legalMoves;
      ExpandedSound(ns, node, rules.apply, legalMoves);
      ExpandedLegal(ns, node, rules.moves, rules.apply);
    }

    /** The value of a rollout from node's position, whose outcome is given. */
    method Simulate(node: nat, k: nat, rollout: (nat, S) -> string) returns (v: int)
      requires node < |nodes|
      ensures -1 <= v <= 1
      ensures v == 1 <==> rollout(k, nodes[node].state) == "1-0"
      ensures v == -1 <==> rollout(k, nodes[node].state) == "0-1"
      ensures v == ResultValue(rollout(k, nodes[node].state))
    {
      var outcome := rollout(k, nodes[node].state);
      if outcome == "1-0" {
        return 1;
      } else if outcome == "0-1" {
        return -1;
      }
      return 0;
    }

    /** Adds one visit and the result to node and to each of its ancestors. */
    method Backpropagate(node: nat, result: int)
      requires Linked(nodes) && node < |nodes|
      modifies this
      ensures nodes == Bumped(old(nodes), node, result)
      decreases node
    {
      ghost var ns := nodes;
      nodes := nodes[node := Bump(nodes[node], result)];
      LinkedSameShape(ns, nodes);
      BumpedStep(ns, node, result);
      if nodes[node].parent.Some? {
        Backpropagate(nodes[node].parent.value, result);
      }
    }

    /** Runs the given number of select, expand, simulate, backpropagate
        rounds, round k using random(k) and the rollout outcome for k. */
    method Run(iterations: nat, random: nat -> nat, rollout: (nat, S) -> string, uct: (int, int, int) -> real)
      requires Valid()
      modifies this
      ensures Valid()
      ensures nodes == Rounds(rules, old(nodes), iterations, random, rollout, uct)
      ensures Grows(old(nodes), nodes)
      ensures nodes[0].visits == old(nodes[0].visits) + iterations
    {
      ghost var start := nodes;
      for k := 0 to iterations
        invariant Valid()
        invariant nodes == Rounds(rules, start, k, random, rollout, uct)
      {
        Iterate(k, random, rollout, uct);
      }
    }

    /** One round of the search: select, expand, simulate, backpropagate. */
    method Iterate(k: nat, random: nat -> nat, rollout: (nat, S) -> string, uct: (int, int, int) -> real)
      requires Valid()
      modifies this
      ensures Valid()
      ensures nodes == Round(rules, old(nodes), k, random, rollout, uct)
    {
      ghost var ns0 := nodes;
      var node := Select(0, k, random, uct);
      Expand(node);
      ExpandedKeeps(ns0, node, rules.apply, rules.moves(ns0[node].state));
      var result := Simulate(node, k, rollout);
      Backpropagate(node, result);
      RoundIs(rules, ns0, k, random, rollout, uct, node, result);
    }

    /** The move of the root's first most visited child for White, of its
        first least visited child for Black. */
    method BestMove(white: bool) returns (m: M)
      requires Valid() && |nodes[0].children| > 0
      ensures m in rules.moves(nodes[0].state)
      ensures exists j :: (0 <= j < |nodes[0].children| && nodes[nodes[0].children[j]].move == Some(m) &&
                           if white then FirstMostVisited(nodes, nodes[0].children, j)
                           else FirstLeastVisited(nodes, nodes[0].children, j))
    {
      var children := nodes[0].children;
      var counts := VisitCounts(nodes, children);
      var best: nat;
      if white {
        best := FirstMax(counts);
      } else {
        best := FirstMin(counts);
      }
      RootChildLegal(nodes, rules.moves, rules.apply, best);
      m := nodes[children[best]].move.value;
      assert nodes[children[best]].move == Some(m);
    }
  }
}
