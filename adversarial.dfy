/** The zero-sum agent: depth-bounded alpha-beta search over `expand` on
    the score margin, and the root selection that turns the best child
    into an action. `Minimax` is the unpruned reference the search is
    proved against. */
module Adversarial {
  import opened Common
  import opened GraphModel
  import opened GameStates
  import opened Actions
  import opened AlphaBetaScan

  /** `adversarial_heuristic`: the margin of agent 0 over agent 1. */
  function AdversarialHeuristic(s: GameState): int
    requires |s.scores| == 2
  {
    s.scores[0] - s.scores[1]
  }

  /** Plain minimax over the depth-bounded `expand` tree: the heuristic at
      a leaf, the maximum over the children on agent 0's turn and the
      minimum on agent 1's. */
  function Minimax(adj: Adjacency, s: GameState, depth: nat): int
    requires StateOk(adj, s)
    decreases depth, 2
  {
    if IsLeaf(s, depth) then AdversarialHeuristic(s)
    else if s.agentTurn == 0 then MaxOf(MinimaxChildren(adj, s, depth))
    else MinOf(MinimaxChildren(adj, s, depth))
  }

  /** The minimax values of the children of an inner node, in `expand` order. */
  function MinimaxChildren(adj: Adjacency, s: GameState, depth: nat): (vs: seq<int>)
    requires StateOk(adj, s) && !IsLeaf(s, depth)
    ensures |vs| == |Successors(adj, s)| > 0
    decreases depth, 1
  {
    ValuesOf(adj, Successors(adj, s), depth - 1)
  }

  /** The minimax values of a sequence of well-formed states at `depth`. */
  function ValuesOf(adj: Adjacency, cs: seq<GameState>, depth: nat): (vs: seq<int>)
    requires forall i :: 0 <= i < |cs| ==> StateOk(adj, cs[i])
    ensures |vs| == |cs|
    decreases depth + 1, 0
  {
    seq(|cs|, i requires 0 <= i < |cs| => Minimax(adj, cs[i], depth))
  }

  /** An inner node's minimax value is that of one of its children (the
      first such child is returned), and no child is better for the player
      to move. */
  lemma MinimaxIsBestChild(adj: Adjacency, s: GameState, depth: nat) returns (k: nat)
    requires StateOk(adj, s) && !IsLeaf(s, depth)
    ensures var vs, m := MinimaxChildren(adj, s, depth), Minimax(adj, s, depth);
            && k < |vs| && vs[k] == m
            && (forall j :: 0 <= j < k ==> vs[j] != m)
            && (s.agentTurn == 0 ==> forall j :: 0 <= j < |vs| ==> vs[j] <= m)
            && (s.agentTurn != 0 ==> forall j :: 0 <= j < |vs| ==> m <= vs[j])
  {
    var vs := MinimaxChildren(adj, s, depth);
    if s.agentTurn == 0 {
      k := FirstMaxIndex(vs, |vs|);
    } else {
      k := FirstMinIndex(vs, |vs|);
    }
  }

  /** `ScanResult` at an inner node of the game tree. */
  ghost predicate InnerResult(adj: Adjacency, s: GameState, depth: nat, alpha: Ext, beta: Ext,
                              value: Ext, explored: seq<int>)
    requires StateOk(adj, s) && !IsLeaf(s, depth)
  {
    ScanResult(s.agentTurn, MinimaxChildren(adj, s, depth), explored, value, alpha, beta)
  }

  /** `alphabeta`: fail-soft alpha-beta. With the full window the value is
      the minimax value. It also returns the values the tree records for
      the children it explored. */
  method AlphaBeta(adj: Adjacency, s: GameState, depth: nat, alpha: Ext, beta: Ext)
    returns (value: Ext, explored: seq<int>)
    requires StateOk(adj, s) && Lt(alpha, beta)
    ensures FailSoft(Minimax(adj, s, depth), value, alpha, beta)
    ensures alpha == NegInf && beta == PosInf ==> value == Fin(Minimax(adj, s, depth))
    ensures IsLeaf(s, depth) ==> explored == []
    ensures !IsLeaf(s, depth) ==> InnerResult(adj, s, depth, alpha, beta, value, explored)
    decreases depth, 1
  {
    if depth == 0 || IsStateTerminal(s) {
      return Fin(AdversarialHeuristic(s)), [];
    }
    if s.agentTurn == 0 {
      value, explored := MaxInner(adj, s, depth, alpha, beta);
    } else {
      value, explored := MinInner(adj, s, depth, alpha, beta);
    }
  }

  /** An inner node of `alphabeta` on agent 0's turn: expand, then the
      max loop over the successors. */
  method MaxInner(adj: Adjacency, s: GameState, depth: nat, alpha: Ext, beta: Ext)
    returns (value: Ext, explored: seq<int>)
    requires StateOk(adj, s) && Lt(alpha, beta) && !IsLeaf(s, depth) && s.agentTurn == 0
    ensures FailSoft(Minimax(adj, s, depth), value, alpha, beta)
    ensures InnerResult(adj, s, depth, alpha, beta, value, explored)
    decreases depth, 0
  {
    var children := Successors(adj, s);
    value, explored := MaxNode(adj, children, depth - 1, alpha, beta, MinimaxChildren(adj, s, depth));
  }

  /** An inner node of `alphabeta` on agent 1's turn: expand, then the
      min loop over the successors. */
  method MinInner(adj: Adjacency, s: GameState, depth: nat, alpha: Ext, beta: Ext)
    returns (value: Ext, explored: seq<int>)
    requires StateOk(adj, s) && Lt(alpha, beta) && !IsLeaf(s, depth) && s.agentTurn == 1
    ensures FailSoft(Minimax(adj, s, depth), value, alpha, beta)
    ensures InnerResult(adj, s, depth, alpha, beta, value, explored)
    decreases depth, 0
  {
    var children := Successors(adj, s);
    value, explored := MinNode(adj, children, depth - 1, alpha, beta, MinimaxChildren(adj, s, depth));
  }

  /** `c` is a well-formed state and `m` its minimax value at `depth`. */
  ghost predicate HasValue(adj: Adjacency, c: GameState, depth: nat, m: int)
  {
    StateOk(adj, c) && m == Minimax(adj, c, depth)
  }

  /** `cs` are well-formed states and `ms` their minimax values at `depth`. */
  ghost predicate Valued(adj: Adjacency, cs: seq<GameState>, depth: nat, ms: seq<int>)
  {
    (forall i :: 0 <= i < |cs| ==> StateOk(adj, cs[i])) && ms == ValuesOf(adj, cs, depth)
  }

  /** One recursive `alphabeta` call, seen through its fail-soft guarantee
      about the child's true value `m` alone. */
  method SearchValue(adj: Adjacency, c: GameState, depth: nat, alpha: Ext, beta: Ext, ghost m: int)
    returns (v: Ext)
    requires HasValue(adj, c, depth, m) && Lt(alpha, beta)
    ensures FailSoft(m, v, alpha, beta)
    decreases depth, 2
  {
    var explored;
    v, explored := AlphaBeta(adj, c, depth, alpha, beta);
  }

  /** The max-player branch of `alphabeta`, over the node's children in
      `expand` order (searched `depth` plies deep) and their true values
      `ms`: the running maximum raises alpha, and the loop stops as soon as
      alpha reaches beta. */
  method MaxNode(adj: Adjacency, children: seq<GameState>, depth: nat, alpha: Ext, beta: Ext,
                 ghost ms: seq<int>)
    returns (value: Ext, explored: seq<int>)
    requires 0 < |children| && Valued(adj, children, depth, ms) && Lt(alpha, beta)
    ensures FailSoft(MaxOf(ms), value, alpha, beta)
    ensures ScanResult(0, ms, explored, value, alpha, beta)
    decreases depth, 3
  {
    explored := [];
    value := NegInf;
    var a := alpha;
    ghost var w := 0;
    ghost var cut := false;
    var k := 0;
    while k < |children|
      invariant 0 <= k <= |children| && |explored| == k
      invariant MaxScan(ms, explored, value, alpha, beta, w)
      invariant a == MaxExt(value, alpha) && Lt(a, beta)
    {
      var v := SearchValue(adj, children[k], depth, a, beta, ms[k]);
      ghost var value0, explored0 := value, explored;
      value := MaxExt(value, v);
      a := MaxExt(a, value);
      explored := explored + [v.n];
      k := k + 1;
      if Le(beta, a) {
        MaxScanCut(ms, explored0, value0, alpha, beta, w, v);
        cut := true;
        break;
      }
      w := MaxScanStep(ms, explored0, value0, alpha, beta, w, v);
    }
    if !cut {
      MaxScanDone(ms, explored, value, alpha, beta, w);
    }
  }


  /** The min-player branch of `alphabeta`: the running minimum lowers
      beta, and the loop stops as soon as beta reaches alpha. */
  method MinNode(adj: Adjacency, children: seq<GameState>, depth: nat, alpha: Ext, beta: Ext,
                 ghost ms: seq<int>)
    returns (value: Ext, explored: seq<int>)
    requires 0 < |children| && Valued(adj, children, depth, ms) && Lt(alpha, beta)
    ensures FailSoft(MinOf(ms), value, alpha, beta)
    ensures ScanResult(1, ms, explored, value, alpha, beta)
    decreases depth, 3
  {
    explored := [];
    value := PosInf;
    var b := beta;
    ghost var w := 0;
    ghost var cut := false;
    var k := 0;
    while k < |children|
      invariant 0 <= k <= |children| && |explored| == k
      invariant MinScan(ms, explored, value, alpha, beta, w)
      invariant b == MinExt(value, beta) && Lt(alpha, b)
    {
      var v := SearchValue(adj, children[k], depth, alpha, b, ms[k]);
      ghost var value0, explored0 := value, explored;
      value := MinExt(value, v);
      b := MinExt(b, value);
      explored := explored + [v.n];
      k := k + 1;
      if Le(b, alpha) {
        MinScanCut(ms, explored0, value0, alpha, beta, w, v);
        cut := true;
        break;
      }
      w := MinScanStep(ms, explored0, value0, alpha, beta, w, v);
    }
    if !cut {
      MinScanDone(ms, explored, value, alpha, beta, w);
    }
  }


  // ---------------------------------------------------------------------
  // Root selection and the agent's decision

  /** `select_best_branch` over the root's children and the values the
      search recorded for them: agent 0 keeps the first child of greatest
      value, any other agent the first child of least value (the running
      best is replaced only on a strict improvement). */
  method SelectBestBranch(root: GameState, children: seq<GameState>, values: seq<int>, aid: int)
    returns (action: Action)
    requires 0 <= aid < |root.locations| && |values| == |children|
    requires forall i :: 0 <= i < |children| ==> aid < |children[i].locations|
    ensures action == ChosenAction(root, children, aid,
                        if aid == 0 then FirstMaxIndex(values, |values|) else FirstMinIndex(values, |values|))
  {
    var currLoc := root.locations[aid].dest;
    var moveTo := -1;
    ghost var k := -1;
    var i := 0;
    if aid == 0 {
      var best := NegInf;
      while i < |children|
        invariant 0 <= i <= |children| && k == FirstMaxIndex(values, i)
        invariant best == (if k == -1 then NegInf else Fin(values[k]))
        invariant moveTo == (if k == -1 then -1 else children[k].locations[aid].dest)
      {
        if Lt(best, Fin(values[i])) {
          best := Fin(values[i]);
          moveTo := children[i].locations[aid].dest;
          k := i;
        }
        i := i + 1;
      }
    } else {
      var best := PosInf;
      while i < |children|
        invariant 0 <= i <= |children| && k == FirstMinIndex(values, i)
        invariant best == (if k == -1 then PosInf else Fin(values[k]))
        invariant moveTo == (if k == -1 then -1 else children[k].locations[aid].dest)
      {
        if Lt(Fin(values[i]), best) {
          best := Fin(values[i]);
          moveTo := children[i].locations[aid].dest;
          k := i;
        }
        i := i + 1;
      }
    }
    if moveTo != -1 {
      action := Move(currLoc, moveTo);
    } else {
      action := Terminate;
    }
  }

  /** What `AdversarialAgent.act` returns: "noop" while the agent is on an
      edge; otherwise the full-window search from the state and the
      selection among the root's children. With no children (cutoff depth
      0 or a terminal state) the agent terminates. On its own turn it takes
      the edge to the first child, in `expand` order, whose minimax value
      is the state's minimax value. */
  method AdversarialDecide(adj: Adjacency, s: GameState, aid: int, depth: nat) returns (action: Action)
    requires StateOk(adj, s) && 0 <= aid < 2
    ensures IsAgentMoving(s, aid) ==> action == Noop
    ensures !IsAgentMoving(s, aid) && IsLeaf(s, depth) ==> action == Terminate
    ensures !IsAgentMoving(s, aid) && !IsLeaf(s, depth) ==> AdversarialChoice(adj, s, aid, depth, action)
  {
    if IsAgentMoving(s, aid) {
      return Noop;
    }
    var value, explored := AlphaBeta(adj, s, depth, NegInf, PosInf);
    var children := if IsLeaf(s, depth) then [] else Successors(adj, s);
    if !IsLeaf(s, depth) {
      assert |explored| == |children|;
    }
    action := SelectBestBranch(s, children, explored, aid);
    if !IsLeaf(s, depth) && s.agentTurn == aid {
      RootChoiceIsOptimal(adj, s, depth, explored);
    }
  }

  /** What the adversarial agent's choice at an inner node guarantees: on
      its own turn, the label of the edge to the first optimal child. */
  ghost predicate AdversarialChoice(adj: Adjacency, s: GameState, aid: int, depth: nat, action: Action)
    requires StateOk(adj, s) && !IsLeaf(s, depth)
  {
    s.agentTurn == aid ==> FirstOptimalEdge(adj, s, depth, action)
  }

  /** `action` labels the tree edge to the first child, in `expand` order,
      whose minimax value is the state's. */
  ghost predicate FirstOptimalEdge(adj: Adjacency, s: GameState, depth: nat, action: Action)
    requires StateOk(adj, s) && !IsLeaf(s, depth)
  {
    var ms, m := MinimaxChildren(adj, s, depth), Minimax(adj, s, depth);
    exists k :: && 0 <= k < |ms|
                && action == ActionOf(s, Successors(adj, s)[k])
                && ms[k] == m
                && forall j :: 0 <= j < k ==> ms[j] != m
  }

  /** On its own turn the adversarial agent only moves along an edge that
      leaves the node it rests on. */
  lemma AdversarialMoveFollowsEdge(adj: Adjacency, s: GameState, aid: int, depth: nat, action: Action)
    requires StateOk(adj, s) && !IsLeaf(s, depth) && s.agentTurn == aid
    requires AdversarialChoice(adj, s, aid, depth, action)
    ensures action.Move? ==> action.from == s.locations[aid].dest && IsNeighbour(adj, action.from, action.to)
  {
    var k :| 0 <= k < |MinimaxChildren(adj, s, depth)|
             && action == ActionOf(s, Successors(adj, s)[k])
             && MinimaxChildren(adj, s, depth)[k] == Minimax(adj, s, depth)
             && forall j :: 0 <= j < k ==> MinimaxChildren(adj, s, depth)[j] != Minimax(adj, s, depth);
    ActionOfSuccessor(adj, s, k);
  }

  /** With the full window the root's recorded child values single out the
      first child whose minimax value is the root's: the first best
      recorded value is exact, and every earlier recorded value bounds a
      strictly worse true value. The action chosen through that child is
      the label of its edge. */
  lemma RootChoiceIsOptimal(adj: Adjacency, s: GameState, depth: nat, explored: seq<int>)
    requires StateOk(adj, s) && !IsLeaf(s, depth) && !IsAgentMoving(s, s.agentTurn)
    requires InnerResult(adj, s, depth, NegInf, PosInf, Fin(Minimax(adj, s, depth)), explored)
    ensures var k := if s.agentTurn == 0 then FirstMaxIndex(explored, |explored|)
                     else FirstMinIndex(explored, |explored|);
            && |explored| == |Successors(adj, s)| && 0 <= k < |explored|
            && FirstOptimalEdge(adj, s, depth, ChosenAction(s, Successors(adj, s), s.agentTurn, k))
  {
    var ms := MinimaxChildren(adj, s, depth);
    FirstBestIsFirstOptimal(s.agentTurn, ms, explored);
    var k := if s.agentTurn == 0 then FirstMaxIndex(explored, |explored|)
             else FirstMinIndex(explored, |explored|);
    ChosenActionIsEdgeAction(adj, s, k);
  }
}
