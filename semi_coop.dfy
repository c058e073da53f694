/** The semi-cooperative agent: values are pairs `[player0, player1]`;
    the player to move keeps the child that is best for itself and breaks
    ties in favour of its partner. `SemiValue` is the reference the search
    loop is proved against; `BestIndex` is the selection rule both the tree
    and the root use. */
module SemiCooperative {
  import opened Common
  import opened GraphModel
  import opened GameStates
  import opened Actions

  /** A value pair, either entry possibly -inf. */
  datatype Pair = Pair(v0: Ext, v1: Ext)
  {
    /** The entry of player `p`. */
    function At(p: int): Ext
    {
      if p == 0 then v0 else v1
    }
  }

  /** The running value before any child is seen: `[-inf, -inf]`. */
  const NoValue := Pair(NegInf, NegInf)

  predicate Finite(x: Pair)
  {
    x.v0.Fin? && x.v1.Fin?
  }

  /** Whether `x` replaces the running value `y` at a node where `p` is to
      move: strictly better for `p`, or equal for `p` and strictly better
      for the partner `1 - p`. */
  predicate Beats(p: int, x: Pair, y: Pair)
  {
    Lt(y.At(p), x.At(p)) || (x.At(p) == y.At(p) && Lt(y.At(1 - p), x.At(1 - p)))
  }

  /** `Beats` is a strict order: irreflexive and transitive ... */
  lemma BeatsStrictOrder(p: int, x: Pair, y: Pair, z: Pair)
    ensures !Beats(p, x, x)
    ensures Beats(p, x, y) && Beats(p, y, z) ==> Beats(p, x, z)
  {
  }

  /** ... and total: of two different pairs one beats the other. */
  lemma BeatsTotal(p: int, x: Pair, y: Pair)
    requires 0 <= p <= 1
    ensures x == y || Beats(p, x, y) || Beats(p, y, x)
  {
  }

  /** The running value of a selection that has settled on index k (-1:
      none yet). */
  function Chosen(vs: seq<Pair>, k: int): Pair
    requires -1 <= k < |vs|
  {
    if k == -1 then NoValue else vs[k]
  }

  /** The index the selection settles on after the first n pairs of `vs`
      when `p` is to move: the running value starts at `[-inf, -inf]` and
      each pair that beats it replaces it. */
  function BestIndex(p: int, vs: seq<Pair>, n: nat): (k: int)
    requires 0 <= p <= 1 && n <= |vs|
    ensures -1 <= k < n
    ensures n > 0 && Finite(vs[0]) ==> k >= 0
    ensures forall j :: 0 <= j < n ==> !Beats(p, vs[j], Chosen(vs, k))
    ensures forall j :: 0 <= j < k ==> Beats(p, vs[k], vs[j])
  {
    if n == 0 then -1
    else
      var k := BestIndex(p, vs, n - 1);
      if Beats(p, vs[n - 1], Chosen(vs, k)) then
        BeatsAfterReplace(p, vs, n, k);
        n - 1
      else
        BeatsAfterKeep(p, vs, n, k);
        k
  }

  /** When the n-th pair replaces the choice k made over the first n - 1,
      nothing among the first n beats it, and it beats every earlier pair. */
  lemma BeatsAfterReplace(p: int, vs: seq<Pair>, n: nat, k: int)
    requires 0 <= p <= 1 && 0 < n <= |vs| && -1 <= k < n - 1
    requires forall j :: 0 <= j < n - 1 ==> !Beats(p, vs[j], Chosen(vs, k))
    requires forall j :: 0 <= j < k ==> Beats(p, vs[k], vs[j])
    requires Beats(p, vs[n - 1], Chosen(vs, k))
    ensures forall j :: 0 <= j < n ==> !Beats(p, vs[j], vs[n - 1])
    ensures forall j :: 0 <= j < n - 1 ==> Beats(p, vs[n - 1], vs[j])
  {
    var x, c := vs[n - 1], Chosen(vs, k);
    forall j | 0 <= j < n
      ensures !Beats(p, vs[j], x)
    {
      if j < n - 1 {
        BeatsStrictOrder(p, vs[j], x, c);
      } else {
        BeatsStrictOrder(p, x, x, x);
      }
    }
    forall j | 0 <= j < n - 1
      ensures Beats(p, x, vs[j])
    {
      BeatsTotal(p, c, vs[j]);
      BeatsStrictOrder(p, x, c, vs[j]);
    }
  }

  /** When the n-th pair does not replace the choice k, k stays unbeaten. */
  lemma BeatsAfterKeep(p: int, vs: seq<Pair>, n: nat, k: int)
    requires 0 <= p <= 1 && 0 < n <= |vs| && -1 <= k < n - 1
    requires forall j :: 0 <= j < n - 1 ==> !Beats(p, vs[j], Chosen(vs, k))
    requires !Beats(p, vs[n - 1], Chosen(vs, k))
    ensures n > 0 && Finite(vs[0]) ==> k >= 0
    ensures forall j :: 0 <= j < n ==> !Beats(p, vs[j], Chosen(vs, k))
  {
    if Finite(vs[0]) && k == -1 {
      assert Beats(p, vs[0], NoValue);
      assert false;
    }
  }

  /** `semi_cooperative_heuristic`: the pair of scores. */
  function SemiHeuristic(s: GameState): Pair
    requires |s.scores| == 2
  {
    Pair(Fin(s.scores[0]), Fin(s.scores[1]))
  }

  /** The value of the depth-bounded tree: the score pair at a leaf; at an
      inner node the child value `BestIndex` settles on for the player to
      move. */
  function SemiValue(adj: Adjacency, s: GameState, depth: nat): (v: Pair)
    requires StateOk(adj, s)
    ensures Finite(v)
    decreases depth, 2
  {
    if IsLeaf(s, depth) then SemiHeuristic(s)
    else
      var vs := SemiChildren(adj, s, depth);
      vs[BestIndex(s.agentTurn, vs, |vs|)]
  }

  /** The values of the children of an inner node, in `expand` order. */
  function SemiChildren(adj: Adjacency, s: GameState, depth: nat): (vs: seq<Pair>)
    requires StateOk(adj, s) && !IsLeaf(s, depth)
    ensures |vs| == |Successors(adj, s)| > 0
    ensures forall i :: 0 <= i < |vs| ==> Finite(vs[i])
    decreases depth, 1
  {
    SemiValuesOf(adj, Successors(adj, s), depth - 1)
  }

  /** The values of a sequence of well-formed states at `depth`. */
  function SemiValuesOf(adj: Adjacency, cs: seq<GameState>, depth: nat): (vs: seq<Pair>)
    requires forall i :: 0 <= i < |cs| ==> StateOk(adj, cs[i])
    ensures |vs| == |cs|
    ensures forall i :: 0 <= i < |vs| ==> Finite(vs[i])
    decreases depth + 1, 0
  {
    seq(|cs|, i requires 0 <= i < |cs| => SemiValue(adj, cs[i], depth))
  }

  /** An inner node's value is the value of one of its children, the first
      of those equal to it; no child beats it for the player to move, and
      it beats every earlier child. */
  lemma SemiValueIsBestChild(adj: Adjacency, s: GameState, depth: nat) returns (k: nat)
    requires StateOk(adj, s) && !IsLeaf(s, depth)
    ensures var vs, v, p := SemiChildren(adj, s, depth), SemiValue(adj, s, depth), s.agentTurn;
            && k < |vs| && vs[k] == v
            && (forall j :: 0 <= j < |vs| ==> !Beats(p, vs[j], v))
            && (forall j :: 0 <= j < k ==> Beats(p, v, vs[j]) && vs[j] != v)
  {
    var vs := SemiChildren(adj, s, depth);
    k := BestIndex(s.agentTurn, vs, |vs|);
    forall j | 0 <= j < k
      ensures vs[j] != vs[k]
    {
      BeatsStrictOrder(s.agentTurn, vs[k], vs[k], vs[k]);
    }
  }

  /** `expand_minmax_tree`: the value of the node, and the values the tree
      records for its children (none at a leaf). */
  method ExpandMinmaxTree(adj: Adjacency, s: GameState, depth: nat) returns (value: Pair, childValues: seq<Pair>)
    requires StateOk(adj, s)
    ensures value == SemiValue(adj, s, depth)
    ensures IsLeaf(s, depth) ==> childValues == []
    ensures !IsLeaf(s, depth) ==> childValues == SemiChildren(adj, s, depth)
    decreases depth, 1
  {
    if depth == 0 || IsStateTerminal(s) {
      return SemiHeuristic(s), [];
    }
    var children := Successors(adj, s);
    value, childValues := SemiNode(adj, children, depth - 1, s.agentTurn, SemiChildren(adj, s, depth));
  }

  /** `c` is a well-formed state and `m` its value at `depth`. */
  ghost predicate SemiHasValue(adj: Adjacency, c: GameState, depth: nat, m: Pair)
  {
    StateOk(adj, c) && m == SemiValue(adj, c, depth)
  }

  /** `cs` are well-formed states and `ms` their values at `depth`. */
  ghost predicate SemiValued(adj: Adjacency, cs: seq<GameState>, depth: nat, ms: seq<Pair>)
  {
    (forall i :: 0 <= i < |cs| ==> StateOk(adj, cs[i])) && ms == SemiValuesOf(adj, cs, depth)
  }

  /** One recursive `expand_minmax_tree` call, seen through the value of the
      child alone. */
  method SemiSearch(adj: Adjacency, c: GameState, depth: nat, ghost m: Pair) returns (v: Pair)
    requires SemiHasValue(adj, c, depth, m)
    ensures v == m
    decreases depth, 2
  {
    var childValues;
    v, childValues := ExpandMinmaxTree(adj, c, depth);
  }

  /** The loop of `expand_minmax_tree` at a node where `p` is to move, over
      the children (searched `depth` plies deep, with values `ms`): the
      running pair starts at `[-inf, -inf]` and is replaced by a child value
      better for `p`, or equal for `p` and better for the partner. */
  method SemiNode(adj: Adjacency, children: seq<GameState>, depth: nat, p: int, ghost ms: seq<Pair>)
    returns (value: Pair, childValues: seq<Pair>)
    requires 0 < |children| && SemiValued(adj, children, depth, ms) && 0 <= p <= 1
    ensures BestIndex(p, ms, |ms|) >= 0 && value == ms[BestIndex(p, ms, |ms|)]
    ensures childValues == ms
    decreases depth, 3
  {
    value := NoValue;
    childValues := [];
    ghost var k := -1;
    var i := 0;
    while i < |children|
      invariant 0 <= i <= |children| && childValues == ms[..i]
      invariant k == BestIndex(p, ms, i) && value == Chosen(ms, k)
    {
      var v := SemiSearch(adj, children[i], depth, ms[i]);
      if Lt(value.At(p), v.At(p)) {
        value := v;
        k := i;
      } else if v.At(p) == value.At(p) && Lt(value.At(1 - p), v.At(1 - p)) {
        value := v;
        k := i;
      }
      childValues := childValues + [v];
      i := i + 1;
    }
    assert ms[..|children|] == ms;
  }

  /** `select_best_branch`: the same replacement rule over the root's
      children with the agent's own id in place of the player to move. */
  method SelectBestBranch(root: GameState, children: seq<GameState>, values: seq<Pair>, aid: int)
    returns (action: Action)
    requires 0 <= aid <= 1 && aid < |root.locations| && |values| == |children|
    requires forall i :: 0 <= i < |children| ==> aid < |children[i].locations|
    ensures action == ChosenAction(root, children, aid, BestIndex(aid, values, |values|))
  {
    var currLoc := root.locations[aid].dest;
    var moveTo := -1;
    var best := NoValue;
    ghost var k := -1;
    var i := 0;
    while i < |children|
      invariant 0 <= i <= |children| && k == BestIndex(aid, values, i)
      invariant best == Chosen(values, k)
      invariant moveTo == (if k == -1 then -1 else children[k].locations[aid].dest)
    {
      if Lt(best.At(aid), values[i].At(aid)) {
        best := values[i];
        moveTo := children[i].locations[aid].dest;
        k := i;
      } else if values[i].At(aid) == best.At(aid) && Lt(best.At(1 - aid), values[i].At(1 - aid)) {
        best := values[i];
        moveTo := children[i].locations[aid].dest;
        k := i;
      }
      i := i + 1;
    }
    if moveTo != -1 {
      action := Move(currLoc, moveTo);
    } else {
      action := Terminate;
    }
  }

  /** The semi-cooperative choice at an inner node: the action through the
      child the replacement rule settles on for the agent itself, which no
      child beats for the agent and which beats every earlier child; on the
      agent's own turn, that child's value is the state's value and the
      action is the label of the edge to it. */
  ghost predicate SemiCoopChoice(adj: Adjacency, s: GameState, aid: int, depth: nat, action: Action)
    requires StateOk(adj, s) && !IsLeaf(s, depth) && 0 <= aid <= 1
  {
    var vs := SemiChildren(adj, s, depth);
    var k := BestIndex(aid, vs, |vs|);
    && 0 <= k < |vs|
    && action == ChosenAction(s, Successors(adj, s), aid, k)
    && (forall j :: 0 <= j < |vs| ==> !Beats(aid, vs[j], vs[k]))
    && (forall j :: 0 <= j < k ==> Beats(aid, vs[k], vs[j]))
    && (s.agentTurn == aid ==> vs[k] == SemiValue(adj, s, depth)
                               && action == ActionOf(s, Successors(adj, s)[k]))
  }

  /** On its own turn the semi-cooperative agent only moves along an edge
      that leaves the node it rests on. */
  lemma SemiCoopMoveFollowsEdge(adj: Adjacency, s: GameState, aid: int, depth: nat, action: Action)
    requires StateOk(adj, s) && !IsLeaf(s, depth) && 0 <= aid <= 1 && s.agentTurn == aid
    requires SemiCoopChoice(adj, s, aid, depth, action)
    ensures action.Move? ==> action.from == s.locations[aid].dest && IsNeighbour(adj, action.from, action.to)
  {
    var vs := SemiChildren(adj, s, depth);
    ActionOfSuccessor(adj, s, BestIndex(aid, vs, |vs|));
  }

  /** What `SemiCoopAgent.act` returns: "noop" while the agent is on an
      edge; "terminate" with no children; otherwise the action through the
      child the replacement rule settles on for the agent itself: no child
      beats it for the agent, and it beats every earlier child. On the
      agent's own turn that child's value is the state's value and the
      action is the label of the edge to it. */
  method SemiCoopDecide(adj: Adjacency, s: GameState, aid: int, depth: nat) returns (action: Action)
    requires StateOk(adj, s) && 0 <= aid <= 1
    ensures IsAgentMoving(s, aid) ==> action == Noop
    ensures !IsAgentMoving(s, aid) && IsLeaf(s, depth) ==> action == Terminate
    ensures !IsAgentMoving(s, aid) && !IsLeaf(s, depth) ==> SemiCoopChoice(adj, s, aid, depth, action)
  {
    if IsAgentMoving(s, aid) {
      return Noop;
    }
    var value, childValues := ExpandMinmaxTree(adj, s, depth);
    var children := if IsLeaf(s, depth) then [] else Successors(adj, s);
    action := SelectBestBranch(s, children, childValues, aid);
    if !IsLeaf(s, depth) && s.agentTurn == aid {
      ChosenActionIsEdgeAction(adj, s, BestIndex(aid, childValues, |childValues|));
    }
  }
}
