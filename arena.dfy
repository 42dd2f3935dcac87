/** The Monte Carlo search tree as an arena: a sequence of node records
    addressed by index, the root at index 0, each node storing the index of
    its parent and the indices of its children. */
module Arena {
  import opened Chess

  /** A tree node: the position, the parent's index and the move that led
      here (both absent at the root), the visit count, the sum of the rollout
      results (from White's point of view) and the children's indices. */
  datatype NodeRec<S, M> = NodeRec(state: S, parent: Option<nat>, move: Option<M>, visits: int, wins: int, children: seq<nat>)

  /** a is i or one of its ancestors. */
  predicate Anc<S, M>(ns: seq<NodeRec<S, M>>, a: nat, i: nat)
    decreases i
  {
    a == i || (i < |ns| && ns[i].parent.Some? && ns[i].parent.value < i && Anc(ns, a, ns[i].parent.value))
  }

  /** The parent links form a tree rooted at 0, in which a parent comes
      before its children, and the children lists agree with the links. */
  ghost predicate Linked<S, M>(ns: seq<NodeRec<S, M>>)
  {
    |ns| > 0 && ns[0].parent.None? &&
    (forall i :: 0 < i < |ns| ==> ns[i].parent.Some? && ns[i].parent.value < i && ns[i].move.Some?) &&
    (forall i, k :: 0 <= i < |ns| && 0 <= k < |ns[i].children| ==>
       i < ns[i].children[k] < |ns| && ns[ns[i].children[k]].parent == Some(i)) &&
    (forall i, k, l :: 0 <= i < |ns| && 0 <= k < l < |ns[i].children| ==> ns[i].children[k] != ns[i].children[l])
  }

  /** Sum of the visit counts of the nodes cs. */
  function ChildVisits<S, M>(ns: seq<NodeRec<S, M>>, cs: seq<nat>): int
    requires forall k :: 0 <= k < |cs| ==> cs[k] < |ns|
  {
    if |cs| == 0 then 0 else ChildVisits(ns, cs[..|cs| - 1]) + ns[cs[|cs| - 1]].visits
  }

  /** The bookkeeping invariants: a node's children were visited at most as
      often as the node, and its results sum to no more than its visits in
      absolute value. */
  ghost predicate Balanced<S, M>(ns: seq<NodeRec<S, M>>)
    requires Linked(ns)
  {
    forall i :: 0 <= i < |ns| ==>
      ChildVisits(ns, ns[i].children) <= ns[i].visits && -ns[i].visits <= ns[i].wins <= ns[i].visits
  }

  /** The arena's structural invariant: linked as a tree, with consistent
      visit and result counts. */
  ghost predicate Sound<S, M>(ns: seq<NodeRec<S, M>>)
  {
    Linked(ns) && Balanced(ns)
  }

  /** Every node but the root was reached from its parent's position by one
      of that position's legal moves, and holds the position after it. */
  ghost predicate Legal<S, M>(ns: seq<NodeRec<S, M>>, moves: S -> seq<M>, apply: (S, M) -> S)
    requires Linked(ns)
  {
    forall i :: 0 < i < |ns| ==>
      ns[i].move.value in moves(ns[ns[i].parent.value].state) &&
      ns[i].state == apply(ns[ns[i].parent.value].state, ns[i].move.value)
  }

  /** ns2 keeps every node of ns1 in place, with the same position, parent and
      move, and with the old children as a prefix of the new ones. */
  ghost predicate Grows<S, M>(ns1: seq<NodeRec<S, M>>, ns2: seq<NodeRec<S, M>>)
  {
    |ns1| <= |ns2| &&
    forall j :: 0 <= j < |ns1| ==>
      ns2[j].state == ns1[j].state && ns2[j].parent == ns1[j].parent && ns2[j].move == ns1[j].move &&
      |ns1[j].children| <= |ns2[j].children| && ns2[j].children[..|ns1[j].children|] == ns1[j].children
  }

  /** ns' differs from ns at most in visit counts and results. */
  ghost predicate SameShape<S, M>(ns: seq<NodeRec<S, M>>, ns': seq<NodeRec<S, M>>)
  {
    |ns'| == |ns| &&
    forall j :: 0 <= j < |ns| ==>
      ns'[j].state == ns[j].state && ns'[j].parent == ns[j].parent &&
      ns'[j].move == ns[j].move && ns'[j].children == ns[j].children
  }

  lemma LinkedSameShape<S, M>(ns: seq<NodeRec<S, M>>, ns': seq<NodeRec<S, M>>)
    requires Linked(ns) && SameShape(ns, ns')
    ensures Linked(ns') && Grows(ns, ns')
  {
    forall j | 0 <= j < |ns|
      ensures ns'[j].children[..|ns[j].children|] == ns[j].children
    {
      assert ns'[j].children == ns[j].children;
    }
  }

  lemma LegalSameShape<S, M>(ns: seq<NodeRec<S, M>>, ns': seq<NodeRec<S, M>>, moves: S -> seq<M>, apply: (S, M) -> S)
    requires Linked(ns) && Legal(ns, moves, apply) && SameShape(ns, ns')
    ensures Linked(ns') && Legal(ns', moves, apply)
  {
    LinkedSameShape(ns, ns');
  }

  // ---------------------------------------------------------------------------
  // Backpropagation

  function Bump<S, M>(n: NodeRec<S, M>, r: int): NodeRec<S, M>
  {
    n.(visits := n.visits + 1, wins := n.wins + r)
  }

  /** The arena after adding one visit and result r to node i and every
      ancestor of it, and changing nothing else. */
  ghost function Bumped<S, M>(ns: seq<NodeRec<S, M>>, i: nat, r: int): (ns': seq<NodeRec<S, M>>)
    ensures |ns'| == |ns|
  {
    seq(|ns|, j requires 0 <= j < |ns| => if Anc(ns, j, i) then Bump(ns[j], r) else ns[j])
  }

  /** Backpropagation changes only visit counts and results. */
  lemma BumpedSameShape<S, M>(ns: seq<NodeRec<S, M>>, i: nat, r: int)
    ensures SameShape(ns, Bumped(ns, i, r))
  {
    var ns' := Bumped(ns, i, r);
    forall j | 0 <= j < |ns|
      ensures ns'[j].state == ns[j].state && ns'[j].parent == ns[j].parent
      ensures ns'[j].move == ns[j].move && ns'[j].children == ns[j].children
    {
    }
  }

  lemma {:induction false} AncLe<S, M>(ns: seq<NodeRec<S, M>>, a: nat, i: nat)
    requires Anc(ns, a, i)
    ensures a <= i
    decreases i
  {
    if a != i {
      AncLe(ns, a, ns[i].parent.value);
    }
  }

  /** The root is an ancestor of every node. */
  lemma {:induction false} RootAnc<S, M>(ns: seq<NodeRec<S, M>>, i: nat)
    requires Linked(ns) && i < |ns|
    ensures Anc(ns, 0, i)
    decreases i
  {
    if i > 0 {
      RootAnc(ns, ns[i].parent.value);
    }
  }

  /** Two ancestors of the same node lie on one path. */
  lemma {:induction false} AncChain<S, M>(ns: seq<NodeRec<S, M>>, a: nat, b: nat, i: nat)
    requires Anc(ns, a, i) && Anc(ns, b, i) && a <= b
    ensures Anc(ns, a, b)
    decreases i
  {
    if b != i {
      if a == i {
        AncLe(ns, b, i);
      } else {
        AncChain(ns, a, b, ns[i].parent.value);
      }
    }
  }

  /** A child of the root is a node reached by a move. */
  lemma RootChild<S, M>(ns: seq<NodeRec<S, M>>, k: nat)
    requires Linked(ns) && k < |ns[0].children|
    ensures 0 < ns[0].children[k] < |ns| && ns[ns[0].children[k]].move.Some?
  {
  }

  /** In a tree that follows the rules, the move of each child of the root is
      a legal move from the root's position. */
  lemma RootChildLegal<S, M>(ns: seq<NodeRec<S, M>>, moves: S -> seq<M>, apply: (S, M) -> S, k: nat)
    requires Linked(ns) && Legal(ns, moves, apply) && k < |ns[0].children|
    ensures 0 < ns[0].children[k] < |ns| && ns[ns[0].children[k]].move.Some?
    ensures ns[ns[0].children[k]].move.value in moves(ns[0].state)
  {
    RootChild(ns, k);
  }

  /** a is an ancestor of c and c of i, so a is an ancestor of i. */
  lemma {:induction false} AncTrans<S, M>(ns: seq<NodeRec<S, M>>, a: nat, c: nat, i: nat)
    requires Anc(ns, a, c) && Anc(ns, c, i)
    ensures Anc(ns, a, i)
    decreases i
  {
    if c != i {
      AncTrans(ns, a, c, ns[i].parent.value);
    }
  }

  /** The parent of an ancestor of i is an ancestor of i as well. */
  lemma ParentAnc<S, M>(ns: seq<NodeRec<S, M>>, c: nat, a: nat, i: nat)
    requires c < |ns| && ns[c].parent == Some(a) && a < c && Anc(ns, c, i)
    ensures Anc(ns, a, i) && a != i
  {
    assert Anc(ns, a, c);
    AncTrans(ns, a, c, i);
    AncLe(ns, c, i);
  }

  /** Two different children of one node are never both ancestors of i. */
  lemma SiblingsOffPath<S, M>(ns: seq<NodeRec<S, M>>, c1: nat, c2: nat, a: nat, i: nat)
    requires c1 < c2 < |ns| && ns[c1].parent == Some(a) && ns[c2].parent == Some(a) && a < c1
    ensures !(Anc(ns, c1, i) && Anc(ns, c2, i))
  {
    AncChainIf(ns, c1, c2, i);
    AncLeIf(ns, c1, a);
  }

  lemma AncChainIf<S, M>(ns: seq<NodeRec<S, M>>, a: nat, b: nat, i: nat)
    ensures Anc(ns, a, i) && Anc(ns, b, i) && a <= b ==> Anc(ns, a, b)
  {
    if Anc(ns, a, i) && Anc(ns, b, i) && a <= b {
      AncChain(ns, a, b, i);
    }
  }

  lemma AncLeIf<S, M>(ns: seq<NodeRec<S, M>>, a: nat, i: nat)
    ensures Anc(ns, a, i) ==> a <= i
  {
    if Anc(ns, a, i) {
      AncLe(ns, a, i);
    }
  }

  /** Number of the nodes cs that are ancestors of i (or i itself). */
  function OnPath<S, M>(ns: seq<NodeRec<S, M>>, cs: seq<nat>, i: nat): nat
  {
    if |cs| == 0 then 0 else OnPath(ns, cs[..|cs| - 1], i) + (if Anc(ns, cs[|cs| - 1], i) then 1 else 0)
  }

  lemma {:induction false} BumpedChildVisits<S, M>(ns: seq<NodeRec<S, M>>, cs: seq<nat>, i: nat, r: int)
    requires forall k :: 0 <= k < |cs| ==> cs[k] < |ns|
    ensures ChildVisits(Bumped(ns, i, r), cs) == ChildVisits(ns, cs) + OnPath(ns, cs, i)
  {
    if |cs| > 0 {
      BumpedChildVisits(ns, cs[..|cs| - 1], i, r);
    }
  }

  lemma {:induction false} OffPath<S, M>(ns: seq<NodeRec<S, M>>, cs: seq<nat>, i: nat)
    requires forall k :: 0 <= k < |cs| ==> !Anc(ns, cs[k], i)
    ensures OnPath(ns, cs, i) == 0
  {
    if |cs| > 0 {
      OffPath(ns, cs[..|cs| - 1], i);
    }
  }

  /** Among the distinct children cs of node a, at most one is on the path
      from i to the root, and none is unless a is a proper ancestor of i. */
  lemma {:induction false} PathThroughChildren<S, M>(ns: seq<NodeRec<S, M>>, a: nat, cs: seq<nat>, i: nat)
    requires forall k :: 0 <= k < |cs| ==> a < cs[k] < |ns| && ns[cs[k]].parent == Some(a)
    requires forall k, l :: 0 <= k < l < |cs| ==> cs[k] != cs[l]
    ensures OnPath(ns, cs, i) <= (if a != i && Anc(ns, a, i) then 1 else 0)
  {
    if |cs| > 0 {
      var cs', c := cs[..|cs| - 1], cs[|cs| - 1];
      PathThroughChildren(ns, a, cs', i);
      if Anc(ns, c, i) {
        ParentAnc(ns, c, a, i);
        forall k | 0 <= k < |cs'|
          ensures !Anc(ns, cs'[k], i)
        {
          assert cs'[k] == cs[k];
          if cs'[k] < c {
            SiblingsOffPath(ns, cs'[k], c, a, i);
          } else {
            SiblingsOffPath(ns, c, cs'[k], a, i);
          }
        }
        OffPath(ns, cs', i);
      }
    }
  }

  lemma AncSameLinks<S, M>(ns: seq<NodeRec<S, M>>, ns': seq<NodeRec<S, M>>, a: nat, i: nat)
    requires |ns| == |ns'| && forall j :: 0 <= j < |ns| ==> ns'[j].parent == ns[j].parent
    ensures Anc(ns', a, i) == Anc(ns, a, i)
    decreases i
  {
    if a != i && i < |ns| && ns[i].parent.Some? && ns[i].parent.value < i {
      AncSameLinks(ns, ns', a, ns[i].parent.value);
    }
  }

  /** Backpropagating a result in {-1, 0, 1} keeps the arena sound, adds one
      visit to the root and leaves the tree's shape as it is. */
  lemma BumpedSound<S, M>(ns: seq<NodeRec<S, M>>, i: nat, r: int)
    requires Sound(ns) && i < |ns| && -1 <= r <= 1
    ensures Sound(Bumped(ns, i, r))
    ensures Bumped(ns, i, r)[0].visits == ns[0].visits + 1
    ensures Grows(ns, Bumped(ns, i, r))
    ensures SameShape(ns, Bumped(ns, i, r))
  {
    var ns' := Bumped(ns, i, r);
    BumpedSameShape(ns, i, r);
    LinkedSameShape(ns, ns');
    forall a | 0 <= a < |ns'|
      ensures ChildVisits(ns', ns'[a].children) <= ns'[a].visits
    {
      var cs := ns[a].children;
      BumpedChildVisits(ns, cs, i, r);
      PathThroughChildren(ns, a, cs, i);
    }
    RootAnc(ns, i);
  }

  // ---------------------------------------------------------------------------
  // Expansion

  /** The indices lo, lo + 1, ..., hi - 1. */
  function Range(lo: nat, hi: nat): (s: seq<nat>)
    requires lo <= hi
    ensures |s| == hi - lo && forall k :: 0 <= k < |s| ==> s[k] == lo + k
    decreases hi - lo
  {
    if lo == hi then [] else [lo] + Range(lo + 1, hi)
  }

  /** A fresh node: no visits, no results, no children. */
  function NewNode<S, M>(state: S, parent: nat, move: M): NodeRec<S, M>
  {
    NodeRec(state, Some(parent), Some(move), 0, 0, [])
  }

  /** The arena after giving node i one new child per move of ms, in order,
      each holding the position after that move; the new nodes are appended. */
  function Expanded<S, M>(ns: seq<NodeRec<S, M>>, i: nat, apply: (S, M) -> S, ms: seq<M>): (ns': seq<NodeRec<S, M>>)
    requires i < |ns|
    ensures |ns'| == |ns| + |ms|
  {
    ns[i := ns[i].(children := ns[i].children + Range(|ns|, |ns| + |ms|))] +
    seq(|ms|, k requires 0 <= k < |ms| => NewNode(apply(ns[i].state, ms[k]), i, ms[k]))
  }

  lemma {:induction false} ChildVisitsSame<S, M>(ns: seq<NodeRec<S, M>>, ns': seq<NodeRec<S, M>>, cs: seq<nat>)
    requires forall k :: 0 <= k < |cs| ==> cs[k] < |ns| && cs[k] < |ns'| && ns'[cs[k]].visits == ns[cs[k]].visits
    ensures ChildVisits(ns', cs) == ChildVisits(ns, cs)
  {
    if |cs| > 0 {
      ChildVisitsSame(ns, ns', cs[..|cs| - 1]);
    }
  }

  lemma {:induction false} ChildVisitsNew<S, M>(ns: seq<NodeRec<S, M>>, cs: seq<nat>, extra: seq<nat>)
    requires forall k :: 0 <= k < |cs| ==> cs[k] < |ns|
    requires forall k :: 0 <= k < |extra| ==> extra[k] < |ns| && ns[extra[k]].visits == 0
    ensures ChildVisits(ns, cs + extra) == ChildVisits(ns, cs)
    decreases |extra|
  {
    if |extra| > 0 {
      var e' := extra[..|extra| - 1];
      assert (cs + extra)[..|cs + extra| - 1] == cs + e';
      assert (cs + extra)[|cs + extra| - 1] == extra[|extra| - 1];
      ChildVisitsNew(ns, cs, e');
    } else {
      assert cs + extra == cs;
    }
  }

  /** The nodes of an expanded arena, one by one. */
  lemma ExpandedAt<S, M>(ns: seq<NodeRec<S, M>>, i: nat, apply: (S, M) -> S, ms: seq<M>, j: nat)
    requires i < |ns| && j < |ns| + |ms|
    ensures var ns' := Expanded(ns, i, apply, ms);
      if j >= |ns| then ns'[j] == NewNode(apply(ns[i].state, ms[j - |ns|]), i, ms[j - |ns|])
      else if j == i then ns'[j] == ns[i].(children := ns[i].children + Range(|ns|, |ns| + |ms|))
      else ns'[j] == ns[j]
  {
  }

  lemma ExpandedLinked<S, M>(ns: seq<NodeRec<S, M>>, i: nat, apply: (S, M) -> S, ms: seq<M>)
    requires Linked(ns) && i < |ns|
    ensures Linked(Expanded(ns, i, apply, ms))
  {
    var ns' := Expanded(ns, i, apply, ms);
    var extra := Range(|ns|, |ns| + |ms|);
    forall j | 0 < j < |ns'|
      ensures ns'[j].parent.Some? && ns'[j].parent.value < j && ns'[j].move.Some?
    {
      ExpandedAt(ns, i, apply, ms, j);
    }
    forall j, k | 0 <= j < |ns'| && 0 <= k < |ns'[j].children|
      ensures j < ns'[j].children[k] < |ns'| && ns'[ns'[j].children[k]].parent == Some(j)
    {
      ExpandedAt(ns, i, apply, ms, j);
      if j == i && k >= |ns[i].children| {
        assert ns'[j].children[k] == extra[k - |ns[i].children|];
        ExpandedAt(ns, i, apply, ms, extra[k - |ns[i].children|]);
      } else {
        assert ns'[j].children[k] == ns[j].children[k];
        ExpandedAt(ns, i, apply, ms, ns[j].children[k]);
      }
    }
    forall j, k, l | 0 <= j < |ns'| && 0 <= k < l < |ns'[j].children|
      ensures ns'[j].children[k] != ns'[j].children[l]
    {
      ExpandedAt(ns, i, apply, ms, j);
      if j == i && l >= |ns[i].children| {
        assert ns'[j].children[l] == extra[l - |ns[i].children|];
        if k >= |ns[i].children| {
          assert ns'[j].children[k] == extra[k - |ns[i].children|];
        } else {
          assert ns'[j].children[k] == ns[i].children[k];
        }
      }
    }
  }

  lemma ExpandedGrows<S, M>(ns: seq<NodeRec<S, M>>, i: nat, apply: (S, M) -> S, ms: seq<M>)
    requires i < |ns|
    ensures Grows(ns, Expanded(ns, i, apply, ms))
  {
    var ns' := Expanded(ns, i, apply, ms);
    forall j | 0 <= j < |ns|
      ensures ns'[j].state == ns[j].state && ns'[j].parent == ns[j].parent && ns'[j].move == ns[j].move
      ensures |ns[j].children| <= |ns'[j].children| && ns'[j].children[..|ns[j].children|] == ns[j].children
    {
      ExpandedAt(ns, i, apply, ms, j);
    }
  }

  lemma ExpandedBalancedAt<S, M>(ns: seq<NodeRec<S, M>>, i: nat, apply: (S, M) -> S, ms: seq<M>, j: nat)
    requires Sound(ns) && i < |ns| && j < |ns| + |ms|
    requires Linked(Expanded(ns, i, apply, ms))
    ensures var ns' := Expanded(ns, i, apply, ms);
      ChildVisits(ns', ns'[j].children) <= ns'[j].visits && -ns'[j].visits <= ns'[j].wins <= ns'[j].visits
  {
    var ns' := Expanded(ns, i, apply, ms);
    ExpandedAt(ns, i, apply, ms, j);
    if j < |ns| {
      forall k | 0 <= k < |ns|
        ensures ns'[k].visits == ns[k].visits
      {
        ExpandedAt(ns, i, apply, ms, k);
      }
      ChildVisitsSame(ns, ns', ns[j].children);
      if j == i {
        var extra := Range(|ns|, |ns| + |ms|);
        forall k | 0 <= k < |extra|
          ensures extra[k] < |ns'| && ns'[extra[k]].visits == 0
        {
          ExpandedAt(ns, i, apply, ms, extra[k]);
        }
        ChildVisitsNew(ns', ns[i].children, extra);
      }
    }
  }

  /** Expansion keeps the tree linked and the expanded node's position. */
  lemma ExpandedKeeps<S, M>(ns: seq<NodeRec<S, M>>, i: nat, apply: (S, M) -> S, ms: seq<M>)
    requires Linked(ns) && i < |ns|
    ensures Linked(Expanded(ns, i, apply, ms)) && Expanded(ns, i, apply, ms)[i].state == ns[i].state
  {
    ExpandedLinked(ns, i, apply, ms);
    ExpandedAt(ns, i, apply, ms, i);
  }

  /** Expanding a node by its own legal moves keeps every node legal. */
  lemma ExpandedLegal<S, M>(ns: seq<NodeRec<S, M>>, i: nat, moves: S -> seq<M>, apply: (S, M) -> S)
    requires Linked(ns) && Legal(ns, moves, apply) && i < |ns|
    ensures Linked(Expanded(ns, i, apply, moves(ns[i].state)))
    ensures Legal(Expanded(ns, i, apply, moves(ns[i].state)), moves, apply)
  {
    var ms := moves(ns[i].state);
    var ns' := Expanded(ns, i, apply, ms);
    ExpandedLinked(ns, i, apply, ms);
    forall j | 0 < j < |ns'|
      ensures ns'[j].move.value in moves(ns'[ns'[j].parent.value].state)
      ensures ns'[j].state == apply(ns'[ns'[j].parent.value].state, ns'[j].move.value)
    {
      ExpandedAt(ns, i, apply, ms, j);
      ExpandedAt(ns, i, apply, ms, ns'[j].parent.value);
      if j >= |ns| {
        assert ms[j - |ns|] in ms;
      }
    }
  }

  /** Expanding a node keeps the arena sound and its bookkeeping unchanged. */
  lemma ExpandedSound<S, M>(ns: seq<NodeRec<S, M>>, i: nat, apply: (S, M) -> S, ms: seq<M>)
    requires Sound(ns) && i < |ns|
    ensures Sound(Expanded(ns, i, apply, ms))
    ensures Expanded(ns, i, apply, ms)[0].visits == ns[0].visits
    ensures Grows(ns, Expanded(ns, i, apply, ms))
  {
    var ns' := Expanded(ns, i, apply, ms);
    ExpandedLinked(ns, i, apply, ms);
    ExpandedGrows(ns, i, apply, ms);
    ExpandedAt(ns, i, apply, ms, 0);
    forall j | 0 <= j < |ns'|
      ensures ChildVisits(ns', ns'[j].children) <= ns'[j].visits && -ns'[j].visits <= ns'[j].wins <= ns'[j].visits
    {
      ExpandedBalancedAt(ns, i, apply, ms, j);
    }
  }

  lemma GrowsTrans<S, M>(ns1: seq<NodeRec<S, M>>, ns2: seq<NodeRec<S, M>>, ns3: seq<NodeRec<S, M>>)
    requires Grows(ns1, ns2) && Grows(ns2, ns3)
    ensures Grows(ns1, ns3)
  {
    forall j | 0 <= j < |ns1|
      ensures ns3[j].children[..|ns1[j].children|] == ns1[j].children
    {
      assert ns3[j].children[..|ns1[j].children|] == ns3[j].children[..|ns2[j].children|][..|ns1[j].children|];
    }
  }

  /** One step of backpropagation: bumping node i and then the path from its
      parent is bumping the path from i. */
  lemma BumpedStep<S, M>(ns: seq<NodeRec<S, M>>, i: nat, r: int)
    requires Linked(ns) && i < |ns|
    ensures var ns1 := ns[i := Bump(ns[i], r)];
      if ns1[i].parent.Some? then ns1[i].parent.value < |ns1| && Bumped(ns1, ns1[i].parent.value, r) == Bumped(ns, i, r)
      else ns1 == Bumped(ns, i, r)
  {
    var ns1 := ns[i := Bump(ns[i], r)];
    if ns[i].parent.Some? {
      var p := ns[i].parent.value;
      forall j | 0 <= j < |ns|
        ensures Bumped(ns1, p, r)[j] == Bumped(ns, i, r)[j]
      {
        AncSameLinks(ns, ns1, j, p);
        AncLeIf(ns, i, p);
      }
    } else {
      forall j | 0 <= j < |ns|
        ensures ns1[j] == Bumped(ns, i, r)[j]
      {
      }
    }
  }

  lemma ExpandedNothing<S, M>(ns: seq<NodeRec<S, M>>, i: nat, apply: (S, M) -> S)
    requires i < |ns|
    ensures Expanded(ns, i, apply, []) == ns
  {
    assert ns[i].children + Range(|ns|, |ns|) == ns[i].children;
  }

  /** Expanding with one more move appends one more child. */
  lemma ExpandedStep<S, M>(ns: seq<NodeRec<S, M>>, i: nat, apply: (S, M) -> S, ms: seq<M>, m: M)
    requires i < |ns|
    ensures var e := Expanded(ns, i, apply, ms);
      Expanded(ns, i, apply, ms + [m]) ==
      e[i := e[i].(children := e[i].children + [|e|])] + [NewNode(apply(e[i].state, m), i, m)]
  {
    var e := Expanded(ns, i, apply, ms);
    var e2 := Expanded(ns, i, apply, ms + [m]);
    var rhs := e[i := e[i].(children := e[i].children + [|e|])] + [NewNode(apply(e[i].state, m), i, m)];
    assert Range(|ns|, |ns| + |ms| + 1) == Range(|ns|, |ns| + |ms|) + [|ns| + |ms|];
    forall j | 0 <= j < |e2|
      ensures e2[j] == rhs[j]
    {
      ExpandedAt(ns, i, apply, ms + [m], j);
      if j < |e| {
        ExpandedAt(ns, i, apply, ms, j);
      }
    }
  }
}
