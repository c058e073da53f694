/** The fully cooperative agent: both agents maximise the sum of the two
    scores, so the depth-bounded tree over `expand` takes the maximum at
    every inner node, whoever is to move. `CoopValue` is the reference the
    search loop is proved against. */
module Cooperative {
  import opened Common
  import opened GraphModel
  import opened GameStates
  import opened Actions

  /** `cooperative_heuristic`: the sum of the two scores. */
  function CooperativeHeuristic(s: GameState): int
    requires |s.scores| == 2
  {
    s.scores[0] + s.scores[1]
  }

  /** The value of the depth-bounded tree: the heuristic at a leaf, the
      maximum over the children at every inner node. */
  function CoopValue(adj: Adjacency, s: GameState, depth: nat): int
    requires StateOk(adj, s)
    decreases depth, 2
  {
    if IsLeaf(s, depth) then CooperativeHeuristic(s)
    else MaxOf(CoopChildren(adj, s, depth))
  }

  /** The values of the children of an inner node, in `expand` order. */
  function CoopChildren(adj: Adjacency, s: GameState, depth: nat): (vs: seq<int>)
    requires StateOk(adj, s) && !IsLeaf(s, depth)
    ensures |vs| == |Successors(adj, s)| > 0
    decreases depth, 1
  {
    CoopValuesOf(adj, Successors(adj, s), depth - 1)
  }

  /** The values of a sequence of well-formed states at `depth`. */
  function CoopValuesOf(adj: Adjacency, cs: seq<GameState>, depth: nat): (vs: seq<int>)
    requires forall i :: 0 <= i < |cs| ==> StateOk(adj, cs[i])
    ensures |vs| == |cs|
    decreases depth + 1, 0
  {
    seq(|cs|, i requires 0 <= i < |cs| => CoopValue(adj, cs[i], depth))
  }

  /** With no negative node value, a state's value is at least its own
      heuristic: expansion never lowers a score, so every child's value is
      at least the parent's heuristic, and the maximum of them too. */
  lemma {:induction false} CoopValueAtLeastHeuristic(adj: Adjacency, s: GameState, depth: nat)
    requires StateOk(adj, s) && NonNegative(s.nodeValues)
    ensures CoopValue(adj, s, depth) >= CooperativeHeuristic(s)
    decreases depth, 1
  {
    if !IsLeaf(s, depth) {
      var cs := Successors(adj, s);
      ChildrenNoWorse(adj, s);
      ValuesAtLeast(adj, cs, depth - 1, CooperativeHeuristic(s));
      InnerAtLeast(adj, s, depth, CooperativeHeuristic(s));
    }
  }

  /** An inner node whose children are all worth at least `lo` is worth at
      least `lo`. */
  lemma InnerAtLeast(adj: Adjacency, s: GameState, depth: nat, lo: int)
    requires StateOk(adj, s) && !IsLeaf(s, depth)
    requires forall i :: 0 <= i < |CoopChildren(adj, s, depth)| ==> CoopChildren(adj, s, depth)[i] >= lo
    ensures CoopValue(adj, s, depth) >= lo
  {
    var vs := CoopChildren(adj, s, depth);
    assert vs[0] <= MaxOf(vs);
  }

  /** If every state of `cs` has non-negative node values and a heuristic
      of at least `lo`, so has every value of `cs` at `depth`. */
  lemma {:induction false} ValuesAtLeast(adj: Adjacency, cs: seq<GameState>, depth: nat, lo: int)
    requires forall i :: 0 <= i < |cs| ==>
               StateOk(adj, cs[i]) && NonNegative(cs[i].nodeValues) && CooperativeHeuristic(cs[i]) >= lo
    ensures forall i :: 0 <= i < |cs| ==> CoopValuesOf(adj, cs, depth)[i] >= lo
    decreases depth + 1, 0
  {
    forall i | 0 <= i < |cs|
      ensures CoopValuesOf(adj, cs, depth)[i] >= lo
    {
      CoopValueAtLeastHeuristic(adj, cs[i], depth);
    }
  }

  /** No successor makes a node value negative or lowers the heuristic. */
  lemma ChildrenNoWorse(adj: Adjacency, s: GameState)
    requires StateOk(adj, s) && NonNegative(s.nodeValues)
    ensures forall i :: 0 <= i < |Successors(adj, s)| ==>
              && NonNegative(Successors(adj, s)[i].nodeValues)
              && CooperativeHeuristic(Successors(adj, s)[i]) >= CooperativeHeuristic(s)
  {
    forall i | 0 <= i < |Successors(adj, s)|
      ensures NonNegative(Successors(adj, s)[i].nodeValues)
      ensures CooperativeHeuristic(Successors(adj, s)[i]) >= CooperativeHeuristic(s)
    {
      SuccessorsScoresMonotone(adj, s, i);
    }
  }

  /** An inner node's value is that of its first best child, and no child
      is worth more. */
  lemma CoopValueIsBestChild(adj: Adjacency, s: GameState, depth: nat) returns (k: nat)
    requires StateOk(adj, s) && !IsLeaf(s, depth)
    ensures var vs, v := CoopChildren(adj, s, depth), CoopValue(adj, s, depth);
            && k < |vs| && vs[k] == v
            && (forall j :: 0 <= j < k ==> vs[j] < v)
            && (forall j :: 0 <= j < |vs| ==> vs[j] <= v)
  {
    var vs := CoopChildren(adj, s, depth);
    k := FirstMaxIndex(vs, |vs|);
    assert vs[k] == MaxOf(vs) by {
      var w :| 0 <= w < |vs| && vs[w] == MaxOf(vs);
    }
  }

  /** `expand_minimax_tree`: the value of the node, and the values the tree
      records for its children (none at a leaf). */
  method ExpandMinimaxTree(adj: Adjacency, s: GameState, depth: nat) returns (value: Ext, childValues: seq<int>)
    requires StateOk(adj, s)
    ensures value == Fin(CoopValue(adj, s, depth))
    ensures IsLeaf(s, depth) ==> childValues == []
    ensures !IsLeaf(s, depth) ==> childValues == CoopChildren(adj, s, depth)
    decreases depth, 1
  {
    if depth == 0 || IsStateTerminal(s) {
      return Fin(CooperativeHeuristic(s)), [];
    }
    var children := Successors(adj, s);
    value, childValues := CoopNode(adj, children, depth - 1, CoopChildren(adj, s, depth));
  }

  /** `c` is a well-formed state and `m` its value at `depth`. */
  ghost predicate CoopHasValue(adj: Adjacency, c: GameState, depth: nat, m: int)
  {
    StateOk(adj, c) && m == CoopValue(adj, c, depth)
  }

  /** `cs` are well-formed states and `ms` their values at `depth`. */
  ghost predicate CoopValued(adj: Adjacency, cs: seq<GameState>, depth: nat, ms: seq<int>)
  {
    (forall i :: 0 <= i < |cs| ==> StateOk(adj, cs[i])) && ms == CoopValuesOf(adj, cs, depth)
  }

  /** One recursive `expand_minimax_tree` call, seen through the value of
      the child alone. */
  method CoopSearch(adj: Adjacency, c: GameState, depth: nat, ghost m: int) returns (v: int)
    requires CoopHasValue(adj, c, depth, m)
    ensures v == m
    decreases depth, 2
  {
    var value, childValues := ExpandMinimaxTree(adj, c, depth);
    v := value.n;
  }

  /** The loop of `expand_minimax_tree` over the children (searched `depth`
      plies deep, with values `ms`): the running value starts at -inf and
      takes the maximum with each child's value. */
  method CoopNode(adj: Adjacency, children: seq<GameState>, depth: nat, ghost ms: seq<int>)
    returns (value: Ext, childValues: seq<int>)
    requires 0 < |children| && CoopValued(adj, children, depth, ms)
    ensures value == Fin(MaxOf(ms)) && childValues == ms
    decreases depth, 3
  {
    value := NegInf;
    childValues := [];
    var i := 0;
    while i < |children|
      invariant 0 <= i <= |children| && childValues == ms[..i]
      invariant i == 0 ==> value == NegInf
      invariant i > 0 ==> value == Fin(MaxOf(ms[..i]))
    {
      var v := CoopSearch(adj, children[i], depth, ms[i]);
      assert ms[..i + 1][..i] == ms[..i];
      value := MaxExt(value, Fin(v));
      childValues := childValues + [v];
      i := i + 1;
    }
    assert ms[..|children|] == ms;
  }

  /** `select_best_branch`: the first child of greatest recorded value
      (replaced only on a strict improvement over a running best that
      starts at -inf), whichever agent is choosing. */
  method SelectBestBranch(root: GameState, children: seq<GameState>, values: seq<int>, aid: int)
    returns (action: Action)
    requires 0 <= aid < |root.locations| && |values| == |children|
    requires forall i :: 0 <= i < |children| ==> aid < |children[i].locations|
    ensures action == ChosenAction(root, children, aid, FirstMaxIndex(values, |values|))
  {
    var currLoc := root.locations[aid].dest;
    var moveTo := -1;
    var best := NegInf;
    ghost var k := -1;
    var i := 0;
    while i < |children|
      invariant 0 <= i <= |children| && k == FirstMaxIndex(values, i)
      invariant best == (if k == -1 then NegInf else Fin(values[k]))
      invariant moveTo == (if k == -1 then -1 else children[k].locations[aid].dest)
    {
      if Lt(best, Fin(values[i])) {
        best := Fin(values[i]);
        moveTo := children[i].locations[aid].dest;
        k := i;
      }
      i := i + 1;
    }
    if moveTo != -1 {
      action := Move(currLoc, moveTo);
    } else {
      action := Terminate;
    }
  }

  /** The cooperative choice at an inner node: the action through the
      first child whose value is the state's value; on the agent's own
      turn, the label of the edge to that child. */
  ghost predicate CooperativeChoice(adj: Adjacency, s: GameState, aid: int, depth: nat, action: Action)
    requires StateOk(adj, s) && !IsLeaf(s, depth) && 0 <= aid < 2
  {
    var vs := CoopChildren(adj, s, depth);
    var k := FirstMaxIndex(vs, |vs|);
    && action == ChosenAction(s, Successors(adj, s), aid, k)
    && vs[k] == CoopValue(adj, s, depth)
    && (s.agentTurn == aid ==> action == ActionOf(s, Successors(adj, s)[k]))
  }

  /** On its own turn the cooperative agent only moves along an edge that
      leaves the node it rests on. */
  lemma CooperativeMoveFollowsEdge(adj: Adjacency, s: GameState, aid: int, depth: nat, action: Action)
    requires StateOk(adj, s) && !IsLeaf(s, depth) && 0 <= aid < 2 && s.agentTurn == aid
    requires CooperativeChoice(adj, s, aid, depth, action)
    ensures action.Move? ==> action.from == s.locations[aid].dest && IsNeighbour(adj, action.from, action.to)
  {
    var vs := CoopChildren(adj, s, depth);
    ActionOfSuccessor(adj, s, FirstMaxIndex(vs, |vs|));
  }

  /** What `CooperativeAgent.act` returns: "noop" while the agent is on an
      edge; otherwise the search from the state and the selection among the
      root's children: "terminate" with no children, and otherwise the
      action through the first child whose value is the state's value. On
      the agent's own turn that action is the label of the edge to that
      child. */
  method CooperativeDecide(adj: Adjacency, s: GameState, aid: int, depth: nat) returns (action: Action)
    requires StateOk(adj, s) && 0 <= aid < 2
    ensures IsAgentMoving(s, aid) ==> action == Noop
    ensures !IsAgentMoving(s, aid) && IsLeaf(s, depth) ==> action == Terminate
    ensures !IsAgentMoving(s, aid) && !IsLeaf(s, depth) ==> CooperativeChoice(adj, s, aid, depth, action)
  {
    if IsAgentMoving(s, aid) {
      return Noop;
    }
    var value, childValues := ExpandMinimaxTree(adj, s, depth);
    var children := if IsLeaf(s, depth) then [] else Successors(adj, s);
    action := SelectBestBranch(s, children, childValues, aid);
    if !IsLeaf(s, depth) {
      var k := CoopValueIsBestChild(adj, s, depth);
      if s.agentTurn == aid {
        ChosenActionIsEdgeAction(adj, s, FirstMaxIndex(childValues, |childValues|));
      }
    }
  }
}
