/** `State` as the Python program has it: an object whose methods update its fields
    in place. `Snapshot()` is its value; each mutator is proved to move the
    snapshot exactly as the corresponding function of GameStates says, and
    `Expand` builds its successors by cloning and mutating, as the Python program
    does, and is proved to return exactly `Successors`. */
module StateObject {
  import opened Common
  import opened GraphModel
  import opened GameStates

  class State {
    var nodeValues: seq<int>
    var currentTime: int
    var agentTurn: int
    var scores: seq<int>
    var locations: seq<Location>
    var deadline: int

    function Snapshot(): GameState
      reads this
    {
      GameState(nodeValues, locations, scores, currentTime, deadline, agentTurn)
    }

    /** Copies its arguments; the deadline defaults to -1, the scores to
        [0, 0], the time and the turn to 0. */
    constructor (nodeValues: seq<int>, agentsLocations: seq<Location>, deadline: int := -1,
                 scores: Option<seq<int>> := None, currentTime: int := 0, agentTurn: int := 0)
      ensures Snapshot() == GameState(nodeValues, agentsLocations,
                                      if scores.Some? then scores.value else [0, 0],
                                      currentTime, deadline, agentTurn)
    {
      this.nodeValues := nodeValues;
      this.currentTime := currentTime;
      this.agentTurn := agentTurn;
      this.scores := if scores.Some? then scores.value else [0, 0];
      this.locations := agentsLocations;
      this.deadline := deadline;
    }

    method AdvanceTime(timeUnits: int := 1)
      modifies this
      ensures Snapshot() == old(Snapshot()).(currentTime := old(currentTime) + timeUnits)
    {
      currentTime := currentTime + timeUnits;
    }

    /** Every agent with steps left takes one step. */
    method UpdateMovingAgents()
      modifies this
      ensures Snapshot() == old(Snapshot()).(locations := DecrementAll(old(locations)))
    {
      var i := 0;
      while i < |locations|
        invariant 0 <= i <= |locations| == |old(locations)|
        invariant forall j :: 0 <= j < i ==> locations[j] == Decrement(old(locations)[j])
        invariant forall j :: i <= j < |locations| ==> locations[j] == old(locations)[j]
        invariant Snapshot().(locations := old(locations)) == old(Snapshot())
      {
        if locations[i].steps > 0 {
          locations := locations[i := locations[i].(steps := locations[i].steps - 1)];
        }
        i := i + 1;
      }
    }

    method TerminateAgent(aid: int)
      requires 0 <= aid < |locations|
      modifies this
      ensures Snapshot() == old(Snapshot()).(locations := old(locations)[aid := Terminated])
      ensures locations[aid] == Terminated
    {
      locations := locations[aid := Location(-1, -1, 0)];
    }

    /** Sets the agent on the edge orig-dest with `weight` steps. With a
        negative weight the edge weight minus one is computed and discarded,
        so the location stores the negative weight itself. */
    method MoveAgent(adj: Adjacency, aid: int, orig: int, dest: int, weight: int := -1)
      requires 0 <= aid < |locations|
      requires weight < 0 ==> IsNeighbour(adj, orig, dest)
      modifies this
      ensures Snapshot() == old(Snapshot()).(locations := old(locations)[aid := Location(orig, dest, weight)])
    {
      if weight < 0 {
        var discarded := EdgeWeight(adj, orig, dest) - 1;
      }
      locations := locations[aid := Location(orig, dest, weight)];
    }

    /** Agents in index order: one at rest on a node takes its people. */
    method UpdatePeopleAndScores()
      requires CollectOk(Snapshot())
      modifies this
      ensures Snapshot() == Collected(old(Snapshot()))
    {
      var i := 0;
      while i < |locations|
        invariant 0 <= i <= |locations|
        invariant CollectOk(Snapshot())
        invariant CollectFrom(Snapshot(), i) == Collected(old(Snapshot()))
      {
        if locations[i].steps == 0 {
          var currnode := locations[i].dest;
          if currnode != -1 {
            scores := scores[i := scores[i] + nodeValues[currnode]];
            nodeValues := nodeValues[currnode := 0];
          }
        }
        i := i + 1;
      }
    }

    /** The turn passes to the next agent, wrapping to 0 after the last. */
    method AdvanceTurn()
      requires 0 <= agentTurn < |locations|
      modifies this
      ensures Snapshot() == old(Snapshot()).(agentTurn := if old(agentTurn) + 1 == |locations| then 0 else old(agentTurn) + 1)
      ensures 0 <= agentTurn < |locations|
    {
      agentTurn := agentTurn + 1;
      if agentTurn == |locations| {
        agentTurn := 0;
      }
    }

    /** The successors of this state, built as fresh clones: the pass (or
        termination) clone first, one clone per neighbour moved onto its
        edge, the first clone rotated to the end, and, after agent 1's ply,
        every clone given turn 0 and the round effects. The receiver is not
        changed. */
    method Expand(adj: Adjacency) returns (succ: seq<GameState>)
      requires StateOk(adj, Snapshot())
      ensures succ == Successors(adj, Snapshot())
    {
      var states: seq<State> := [];
      if !IsStateTerminal(Snapshot()) {
        states := PlyClones(adj);
        if agentTurn == 1 {
          PlySuccessorsOk(adj, Snapshot());
          CloseRoundAll(states);
        }
      }
      succ := SnapshotsOf(states);
    }

    /** One clone's share of the round-closing loop: turn 0, one time
        unit, one step for every moving agent, collection if the new time
        is within the deadline. */
    method CloseRoundInPlace()
      requires CollectOk(Snapshot())
      modifies this
      ensures Snapshot() == EndOfRound(old(Snapshot()))
    {
      agentTurn := 0;
      AdvanceTime();
      UpdateMovingAgents();
      if currentTime <= deadline {
        UpdatePeopleAndScores();
      }
    }

    /** The clones of one ply, in the order `expand` leaves them: commit
        clones in adjacency order and the termination clone last for an
        agent at rest, the pass clone alone otherwise. */
    method PlyClones(adj: Adjacency) returns (states: seq<State>)
      requires StateOk(adj, Snapshot())
      ensures forall j :: 0 <= j < |states| ==> fresh(states[j])
      ensures forall i, j :: 0 <= i < j < |states| ==> states[i] != states[j]
      ensures |states| == |PlySuccessors(adj, Snapshot())|
      ensures forall j :: 0 <= j < |states| ==> states[j].Snapshot() == PlySuccessors(adj, Snapshot())[j]
    {
      var s := Snapshot();
      var first := new State(nodeValues, locations, deadline, Some(scores), currentTime, agentTurn + 1);
      states := [first];
      if !(IsAgentTerminated(s, agentTurn) || IsAgentMoving(s, agentTurn)) {
        first.TerminateAgent(agentTurn);
        var currnode := locations[agentTurn].dest;
        var es := adj[currnode];
        var k := 0;
        while k < |es|
          invariant 0 <= k <= |es|
          invariant |states| == k + 1
          invariant forall j :: 0 <= j < |states| ==> fresh(states[j])
          invariant forall i, j :: 0 <= i < j < |states| ==> states[i] != states[j]
          invariant states[0].Snapshot() == TerminateSuccessor(s)
          invariant forall j :: 1 <= j < |states| ==> states[j].Snapshot() == MoveSuccessor(s, currnode, es[j - 1])
          invariant Snapshot() == s
        {
          var next := new State(nodeValues, locations, deadline, Some(scores), currentTime, agentTurn + 1);
          next.MoveAgent(adj, agentTurn, currnode, es[k].nbr, es[k].weight);
          states := states + [next];
          k := k + 1;
        }
        states := states[1..] + [states[0]];
      }
    }
  }

  /** The round-closing loop of `expand` over distinct clones. */
  method CloseRoundAll(states: seq<State>)
    requires forall i, j :: 0 <= i < j < |states| ==> states[i] != states[j]
    requires forall j :: 0 <= j < |states| ==> CollectOk(states[j].Snapshot())
    modifies set j | 0 <= j < |states| :: states[j]
    ensures forall j :: 0 <= j < |states| ==>
              CollectOk(old(states[j].Snapshot())) && states[j].Snapshot() == EndOfRound(old(states[j].Snapshot()))
  {
    var j := 0;
    while j < |states|
      invariant 0 <= j <= |states|
      invariant forall i :: 0 <= i < |states| ==> CollectOk(old(states[i].Snapshot()))
      invariant forall i :: 0 <= i < j ==> states[i].Snapshot() == EndOfRound(old(states[i].Snapshot()))
      invariant forall i :: j <= i < |states| ==> states[i].Snapshot() == old(states[i].Snapshot())
    {
      states[j].CloseRoundInPlace();
      j := j + 1;
    }
  }

  method SnapshotsOf(states: seq<State>) returns (snaps: seq<GameState>)
    ensures |snaps| == |states|
    ensures forall j :: 0 <= j < |states| ==> snaps[j] == states[j].Snapshot()
  {
    snaps := [];
    var i := 0;
    while i < |states|
      invariant 0 <= i <= |states|
      invariant |snaps| == i
      invariant forall j :: 0 <= j < i ==> snaps[j] == states[j].Snapshot()
    {
      snaps := snaps + [states[i].Snapshot()];
      i := i + 1;
    }
  }
}
