/** The external action vocabulary shared by all agents, and the label a
    search-tree edge carries (`MultiplayerAgent.get_edge_label`). */
module Actions {
  import opened GraphModel
  import opened GameStates

  /** `("noop",)`, `("move", from, to)`, `("terminate",)`. */
  datatype Action = Noop | Move(from: int, to: int) | Terminate

  /** `"T"`, `"M"` and `"C<dest>"`. */
  datatype EdgeLabel = T | M | C(dest: int)

  /** The label of the tree edge from `curr` to its successor `next`,
      read off the destination of the agent whose turn it is in `curr`. */
  function GetEdgeLabel(curr: GameState, next: GameState): (l: EdgeLabel)
    requires 0 <= curr.agentTurn < |curr.locations| && curr.agentTurn < |next.locations|
    ensures l == T <==> next.locations[curr.agentTurn].dest == -1
    ensures l == M <==> next.locations[curr.agentTurn].dest != -1
                        && next.locations[curr.agentTurn].dest == curr.locations[curr.agentTurn].dest
    ensures l.C? ==> l.dest == next.locations[curr.agentTurn].dest
  {
    var currPlayer := curr.agentTurn;
    var currLoc := curr.locations[currPlayer].dest;
    var nextLoc := next.locations[currPlayer].dest;
    if nextLoc == -1 then T
    else if currLoc == nextLoc then M
    else C(nextLoc)
  }

  /** The label looks at nothing but the current player's destination in
      the two states. */
  lemma EdgeLabelDependsOnDestinationsOnly(curr: GameState, next: GameState, curr': GameState, next': GameState)
    requires 0 <= curr.agentTurn < |curr.locations| && curr.agentTurn < |next.locations|
    requires 0 <= curr'.agentTurn < |curr'.locations| && curr'.agentTurn < |next'.locations|
    requires curr.agentTurn == curr'.agentTurn
    requires curr.locations[curr.agentTurn].dest == curr'.locations[curr.agentTurn].dest
    requires next.locations[curr.agentTurn].dest == next'.locations[curr.agentTurn].dest
    ensures GetEdgeLabel(curr, next) == GetEdgeLabel(curr', next')
  {
  }

  /** The external action that the tree edge curr -> next stands for, for
      the agent whose turn it is: terminate on "T", wait on "M", commit to
      the new destination on "C". */
  function ActionOf(curr: GameState, next: GameState): Action
    requires 0 <= curr.agentTurn < |curr.locations| && curr.agentTurn < |next.locations|
  {
    match GetEdgeLabel(curr, next)
    case T => Terminate
    case M => Noop
    case C(d) => Move(curr.locations[curr.agentTurn].dest, d)
  }

  /** The action each `expand` successor stands for: a commit successor is
      a move to its neighbour, the termination successor and the pass of a
      terminated agent are "terminate", the pass of a moving agent is
      "noop". Every move is from the agent's node to one of its neighbours. */
  lemma ActionOfSuccessor(adj: Adjacency, s: GameState, k: int)
    requires StateOk(adj, s) && 0 <= k < |Successors(adj, s)|
    ensures var a, p := ActionOf(s, Successors(adj, s)[k]), s.agentTurn;
            var cur := s.locations[p].dest;
            && (AtRest(s) && k < |adj[cur]| ==> a == Move(cur, adj[cur][k].nbr))
            && (AtRest(s) && k == |adj[cur]| ==> a == Terminate)
            && (IsAgentTerminated(s, p) ==> a == Terminate)
            && (!IsAgentTerminated(s, p) && IsAgentMoving(s, p) ==> a == Noop)
            && (a.Move? ==> a.from == cur && IsNeighbour(adj, cur, a.to))
  {
    var p := s.agentTurn;
    var c := Successors(adj, s)[k];
    SuccessorTiming(adj, s, k);
    PlySuccessorsOk(adj, s);
    var raw := PlySuccessors(adj, s)[k];
    assert c.locations[p].dest == raw.locations[p].dest;
    assert LocationOk(adj, s.locations[p]);
    if AtRest(s) {
      var cur := s.locations[p].dest;
      if k < |adj[cur]| {
        assert raw.locations[p].dest == adj[cur][k].nbr;
        assert adj[cur][k].nbr in adj && adj[cur][k].nbr != cur;
      }
    }
  }

  /** The action every `select_best_branch` returns once it has settled on
      child k of the root (k == -1: no child): the child's destination for
      the agent becomes a move from the agent's current destination, and a
      destination of -1, or no child at all, a termination. */
  function ChosenAction(root: GameState, children: seq<GameState>, aid: int, k: int): (a: Action)
    requires 0 <= aid < |root.locations| && -1 <= k < |children|
    requires k >= 0 ==> aid < |children[k].locations|
    ensures k == -1 ==> a == Terminate
    ensures k >= 0 && children[k].locations[aid].dest == -1 ==> a == Terminate
    ensures k >= 0 && children[k].locations[aid].dest != -1 ==>
              a == Move(root.locations[aid].dest, children[k].locations[aid].dest)
  {
    var moveTo := if k == -1 then -1 else children[k].locations[aid].dest;
    if moveTo != -1 then Move(root.locations[aid].dest, moveTo) else Terminate
  }

  /** On the agent's own turn and with the agent not moving, the action
      chosen through a child of `expand` is exactly the action the tree
      edge to that child is labelled with. */
  lemma ChosenActionIsEdgeAction(adj: Adjacency, s: GameState, k: int)
    requires StateOk(adj, s) && 0 <= k < |Successors(adj, s)|
    requires !IsAgentMoving(s, s.agentTurn)
    ensures ChosenAction(s, Successors(adj, s), s.agentTurn, k) == ActionOf(s, Successors(adj, s)[k])
  {
    var p := s.agentTurn;
    var c := Successors(adj, s)[k];
    SuccessorTiming(adj, s, k);
    ActionOfSuccessor(adj, s, k);
    PlySuccessorsOk(adj, s);
    assert c.locations[p].dest == PlySuccessors(adj, s)[k].locations[p].dest;
    assert LocationOk(adj, s.locations[p]);
    if AtRest(s) {
      RestingAgentSuccessors(adj, s);
    } else {
      BusyAgentSuccessors(adj, s);
    }
  }
}
