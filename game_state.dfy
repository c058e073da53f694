/** The game state as a value, the pure queries on it, and the transition
    rules of `State.expand` and of the shared round effects, stated as
    functions. The class in state.dfy performs the same steps in place and
    is proved to produce exactly these values. */
module GameStates {
  import opened Common
  import opened GraphModel

  /** `[origin, dest, steps]`: at rest on `dest` when steps == 0, on the
      edge origin-dest with `steps` left otherwise. */
  datatype Location = Location(origin: int, dest: int, steps: int)

  /** The location of an agent that has terminated. */
  const Terminated := Location(-1, -1, 0)

  datatype GameState = GameState(
    nodeValues: seq<int>,     // people per node, indexed by node id
    locations: seq<Location>, // one per agent
    scores: seq<int>,         // one per agent
    currentTime: int,
    deadline: int,
    agentTurn: int)           // the agent whose ply comes next

  // ---------------------------------------------------------------------
  // Pure queries

  predicate IsAgentMoving(s: GameState, aid: int)
    requires 0 <= aid < |s.locations|
  {
    s.locations[aid].steps != 0
  }

  predicate IsAgentTerminated(s: GameState, aid: int)
    requires 0 <= aid < |s.locations|
  {
    s.locations[aid].origin == -1
  }

  predicate DeadlineReached(s: GameState)
  {
    0 < s.deadline <= s.currentTime
  }

  function PeopleRemaining(s: GameState): int
  {
    Sum(s.nodeValues)
  }

  predicate AllAgentsTerminated(s: GameState)
  {
    forall i :: 0 <= i < |s.locations| ==> s.locations[i].origin == -1
  }

  predicate IsStateTerminal(s: GameState)
  {
    DeadlineReached(s) || PeopleRemaining(s) <= 0 || AllAgentsTerminated(s)
  }

  /** Every search strategy stops at the cutoff depth and at terminal
      states, and scores the state with its heuristic there. */
  predicate IsLeaf(s: GameState, depth: nat)
  {
    depth == 0 || IsStateTerminal(s)
  }

  // ---------------------------------------------------------------------
  // Well-formedness: what the Python program's indexing and dictionary lookups
  // rely on (two agents, locations on graph nodes or terminated).

  predicate LocationOk(adj: Adjacency, l: Location)
  {
    l == Terminated || (l.origin in adj && l.dest in adj && l.steps >= 0)
  }

  predicate StateOk(adj: Adjacency, s: GameState)
  {
    && AdjacencyOk(adj, |s.nodeValues|)
    && |s.locations| == 2
    && |s.scores| == 2
    && 0 <= s.agentTurn < 2
    && (forall i :: 0 <= i < |s.locations| ==> LocationOk(adj, s.locations[i]))
  }

  /** Every entry of a sequence is non-negative. */
  predicate NonNegative(xs: seq<int>)
  {
    forall i :: 0 <= i < |xs| ==> xs[i] >= 0
  }

  // ---------------------------------------------------------------------
  // Round effects: decrement step counters, advance time, collect people.

  /** `update_moving_agents` for one agent. */
  function Decrement(l: Location): (r: Location)
  {
    if l.steps > 0 then l.(steps := l.steps - 1) else l
  }

  /** `update_moving_agents` for every agent: an agent with steps left
      takes one step along the same edge; an agent at rest or terminated
      stays where it is; no step count that was non-negative goes below 0. */
  function DecrementAll(locs: seq<Location>): (r: seq<Location>)
    ensures |r| == |locs|
    ensures forall i :: 0 <= i < |locs| ==> r[i] == Decrement(locs[i])
    ensures forall i :: 0 <= i < |locs| ==>
              && r[i].origin == locs[i].origin && r[i].dest == locs[i].dest
              && (locs[i].steps > 0 ==> r[i].steps == locs[i].steps - 1)
              && (locs[i].steps <= 0 ==> r[i] == locs[i])
              && (locs[i].steps >= 0 ==> r[i].steps >= 0)
  {
    seq(|locs|, i requires 0 <= i < |locs| => Decrement(locs[i]))
  }

  /** What `update_people_and_scores` needs to index safely. */
  predicate CollectOk(s: GameState)
  {
    && |s.scores| == |s.locations|
    && forall i :: 0 <= i < |s.locations| ==>
         s.locations[i].dest == -1 || 0 <= s.locations[i].dest < |s.nodeValues|
  }

  /** One iteration of `update_people_and_scores`: an agent at rest on a
      node takes the node's people and the node is emptied. */
  function CollectAgent(s: GameState, i: nat): (r: GameState)
    requires CollectOk(s) && i < |s.locations|
    ensures CollectOk(r)
  {
    var l := s.locations[i];
    if l.steps != 0 || l.dest == -1 then s
    else s.(scores := s.scores[i := s.scores[i] + s.nodeValues[l.dest]],
            nodeValues := s.nodeValues[l.dest := 0])
  }

  /** Agents i, i+1, ... collect in index order. Only values and scores
      change, people move from nodes to scores without loss, and with no
      negative node value no score decreases and no node goes negative. */
  function CollectFrom(s: GameState, i: nat): (r: GameState)
    requires CollectOk(s) && i <= |s.locations|
    ensures CollectOk(r)
    ensures r.locations == s.locations && r.currentTime == s.currentTime
    ensures r.deadline == s.deadline && r.agentTurn == s.agentTurn
    ensures |r.nodeValues| == |s.nodeValues| && |r.scores| == |s.scores|
    ensures Sum(r.nodeValues) + Sum(r.scores) == Sum(s.nodeValues) + Sum(s.scores)
    ensures NonNegative(s.nodeValues) ==>
              NonNegative(r.nodeValues) && forall j :: 0 <= j < |s.scores| ==> s.scores[j] <= r.scores[j]
    decreases |s.locations| - i
  {
    if i == |s.locations| then s
    else
      var t := CollectAgent(s, i);
      CollectAgentConserves(s, i);
      CollectFrom(t, i + 1)
  }

  lemma CollectAgentConserves(s: GameState, i: nat)
    requires CollectOk(s) && i < |s.locations|
    ensures Sum(CollectAgent(s, i).nodeValues) + Sum(CollectAgent(s, i).scores)
         == Sum(s.nodeValues) + Sum(s.scores)
  {
    var l := s.locations[i];
    if l.steps == 0 && l.dest != -1 {
      SumUpdate(s.nodeValues, l.dest, 0);
      SumUpdate(s.scores, i, s.scores[i] + s.nodeValues[l.dest]);
    }
  }

  function Collected(s: GameState): GameState
    requires CollectOk(s)
  {
    CollectFrom(s, 0)
  }

  /** The shared effects once the last agent of a round has acted: every
      positive step count goes down by one, time advances by one, and the
      agents collect only if the new time does not pass the deadline. */
  function CloseRound(s: GameState): (r: GameState)
    requires CollectOk(s)
  {
    var t := s.(currentTime := s.currentTime + 1, locations := DecrementAll(s.locations));
    if t.currentTime <= t.deadline then Collected(t) else t
  }

  /** What `expand` does to each successor after agent 1's ply: turn 0,
      then the shared round effects. */
  function EndOfRound(s: GameState): GameState
    requires CollectOk(s)
  {
    var t := s.(agentTurn := 0);
    assert CollectOk(t);
    CloseRound(t)
  }

  // ---------------------------------------------------------------------
  // expand

  /** The successor that keeps the active agent's location as it is. */
  function PassSuccessor(s: GameState): GameState
  {
    s.(agentTurn := s.agentTurn + 1)
  }

  function TerminateSuccessor(s: GameState): GameState
    requires 0 <= s.agentTurn < |s.locations|
  {
    s.(locations := s.locations[s.agentTurn := Terminated], agentTurn := s.agentTurn + 1)
  }

  /** The active agent commits to edge `e` from `cur`, storing the full weight. */
  function MoveSuccessor(s: GameState, cur: int, e: Edge): GameState
    requires 0 <= s.agentTurn < |s.locations|
  {
    s.(locations := s.locations[s.agentTurn := Location(cur, e.nbr, e.weight)],
       agentTurn := s.agentTurn + 1)
  }

  /** The active agent may choose: at rest and not terminated. */
  predicate AtRest(s: GameState)
    requires 0 <= s.agentTurn < |s.locations|
  {
    !(IsAgentTerminated(s, s.agentTurn) || IsAgentMoving(s, s.agentTurn))
  }

  /** The successors of one ply before any round effect: one per neighbour
      in adjacency order followed by termination for an agent at rest, and
      a single pass otherwise. */
  function PlySuccessors(adj: Adjacency, s: GameState): (r: seq<GameState>)
    requires StateOk(adj, s)
    ensures |r| > 0
  {
    if !AtRest(s) then [PassSuccessor(s)]
    else
      var cur := s.locations[s.agentTurn].dest;
      var es := adj[cur];
      seq(|es|, k requires 0 <= k < |es| => MoveSuccessor(s, cur, es[k])) + [TerminateSuccessor(s)]
  }

  /** `State.expand`: nothing from a terminal state; otherwise the ply
      successors, and when agent 1's ply closes the round each of them gets
      turn 0 and the shared round effects. */
  function Successors(adj: Adjacency, s: GameState): (r: seq<GameState>)
    requires StateOk(adj, s)
    ensures |r| == 0 <==> IsStateTerminal(s)
    ensures !IsStateTerminal(s) ==> |r| == |PlySuccessors(adj, s)|
    ensures forall i :: 0 <= i < |r| ==> StateOk(adj, r[i])
  {
    if IsStateTerminal(s) then []
    else
      var raw := PlySuccessors(adj, s);
      PlySuccessorsOk(adj, s);
      if s.agentTurn == 1 then
        seq(|raw|, i requires 0 <= i < |raw| => EndOfRound(raw[i]))
      else raw
  }

  /** Every ply successor keeps the shape StateOk asks for, apart from the
      turn, which is one past the active agent. */
  lemma PlySuccessorsOk(adj: Adjacency, s: GameState)
    requires StateOk(adj, s)
    ensures forall i :: 0 <= i < |PlySuccessors(adj, s)| ==>
              var c := PlySuccessors(adj, s)[i];
              StateOk(adj, c.(agentTurn := s.agentTurn)) && c.agentTurn == s.agentTurn + 1
              && CollectOk(c)
  {
    var raw := PlySuccessors(adj, s);
    forall i | 0 <= i < |raw|
      ensures StateOk(adj, raw[i].(agentTurn := s.agentTurn)) && CollectOk(raw[i])
    {
      if AtRest(s) {
        var cur := s.locations[s.agentTurn].dest;
        if i < |adj[cur]| {
          assert LocationOk(adj, Location(cur, adj[cur][i].nbr, adj[cur][i].weight));
        }
      }
    }
  }

  // ---------------------------------------------------------------------
  // Properties of expand

  /** An agent at rest gets one commit successor per neighbour, in
      adjacency order, each storing the full edge weight, and the
      termination successor last; the other agent's location is left as it
      was by the ply itself. */
  lemma RestingAgentSuccessors(adj: Adjacency, s: GameState)
    requires StateOk(adj, s) && !IsStateTerminal(s) && AtRest(s)
    ensures var p, cur := s.agentTurn, s.locations[s.agentTurn].dest;
            var ply := PlySuccessors(adj, s);
            && |Successors(adj, s)| == |adj[cur]| + 1
            && (forall k :: 0 <= k < |adj[cur]| ==>
                  ply[k].locations[p] == Location(cur, adj[cur][k].nbr, adj[cur][k].weight))
            && ply[|adj[cur]|].locations[p] == Terminated
            && (forall k :: 0 <= k < |ply| ==> ply[k].locations[1 - p] == s.locations[1 - p])
  {
  }

  /** A moving or terminated agent has exactly one successor, the pass. */
  lemma BusyAgentSuccessors(adj: Adjacency, s: GameState)
    requires StateOk(adj, s) && !IsStateTerminal(s) && !AtRest(s)
    ensures |Successors(adj, s)| == 1
    ensures PlySuccessors(adj, s)[0].locations == s.locations
  {
  }

  /** From turn 0 a successor has turn 1 and the same time, scores and
      node values; from turn 1 it has turn 0, time one later, every step
      count of the ply successor decremented (never below zero), nothing
      collected when the new time is past the deadline, and otherwise
      exactly the collection of the decremented state. */
  lemma SuccessorTiming(adj: Adjacency, s: GameState, i: int)
    requires StateOk(adj, s) && 0 <= i < |Successors(adj, s)|
    ensures var c, raw := Successors(adj, s)[i], PlySuccessors(adj, s)[i];
            && c.deadline == s.deadline
            && (s.agentTurn == 0 ==>
                  && c.agentTurn == 1 && c.currentTime == s.currentTime
                  && c.scores == s.scores && c.nodeValues == s.nodeValues
                  && c.locations == raw.locations)
            && (s.agentTurn == 1 ==>
                  && c.agentTurn == 0 && c.currentTime == s.currentTime + 1
                  && (forall j :: 0 <= j < |c.locations| ==>
                        c.locations[j] == Decrement(raw.locations[j])
                        && 0 <= c.locations[j].steps
                        && (raw.locations[j].steps > 0 ==> c.locations[j].steps == raw.locations[j].steps - 1))
                  && (c.currentTime > c.deadline ==>
                        c.scores == s.scores && c.nodeValues == s.nodeValues)
                  && var d := raw.(agentTurn := 0, currentTime := s.currentTime + 1,
                                   locations := DecrementAll(raw.locations));
                     && CollectOk(d)
                     && (c.currentTime <= c.deadline ==> c == Collected(d)))
  {
    var raw := PlySuccessors(adj, s);
    PlySuccessorsOk(adj, s);
    assert LocationOk(adj, raw[i].locations[0]) && LocationOk(adj, raw[i].locations[1]);
  }

  /** People are conserved: what leaves the nodes arrives in the scores. */
  lemma SuccessorsConserve(adj: Adjacency, s: GameState, i: int)
    requires StateOk(adj, s) && 0 <= i < |Successors(adj, s)|
    ensures var c := Successors(adj, s)[i];
            PeopleRemaining(c) + Sum(c.scores) == PeopleRemaining(s) + Sum(s.scores)
  {
    PlySuccessorsOk(adj, s);
  }

  /** With no negative node value, no successor lowers a score or makes a
      node value negative. */
  lemma SuccessorsScoresMonotone(adj: Adjacency, s: GameState, i: int)
    requires StateOk(adj, s) && NonNegative(s.nodeValues) && 0 <= i < |Successors(adj, s)|
    ensures var c := Successors(adj, s)[i];
            && NonNegative(c.nodeValues)
            && forall j :: 0 <= j < |s.scores| ==> s.scores[j] <= c.scores[j]
  {
    PlySuccessorsOk(adj, s);
  }

  /** With a deadline that is not positive and a time that is not negative,
      nothing is ever collected: the collection test compares the new time
      with the deadline directly. */
  lemma NoCollectionWithoutPositiveDeadline(adj: Adjacency, s: GameState, i: int)
    requires StateOk(adj, s) && s.deadline <= 0 && s.currentTime >= 0
    requires 0 <= i < |Successors(adj, s)|
    ensures Successors(adj, s)[i].scores == s.scores
    ensures Successors(adj, s)[i].nodeValues == s.nodeValues
  {
    SuccessorTiming(adj, s, i);
  }

  /** Two agents at rest on the same node: agent 0 collects first and takes
      everything, agent 1 gets nothing from it. */
  lemma FirstAgentTakesSharedNode(s: GameState, v: int)
    requires CollectOk(s) && |s.locations| == 2
    requires 0 <= v < |s.nodeValues|
    requires s.locations[0].dest == v && s.locations[0].steps == 0
    requires s.locations[1].dest == v && s.locations[1].steps == 0
    ensures Collected(s).scores == [s.scores[0] + s.nodeValues[v], s.scores[1]]
    ensures Collected(s).nodeValues == s.nodeValues[v := 0]
  {
    var t := CollectAgent(s, 0);
    assert t.scores == [s.scores[0] + s.nodeValues[v], s.scores[1]];
    var u := CollectAgent(t, 1);
    assert u.scores == t.scores[1 := t.scores[1] + 0];
    assert CollectFrom(s, 0) == CollectFrom(t, 1);
    assert CollectFrom(t, 1) == CollectFrom(u, 2);
  }

  /** An agent that has arrived on a node: no steps left and not terminated. */
  predicate RestsOn(l: Location, v: int)
  {
    l.steps == 0 && l.dest != -1 && l.dest == v
  }

  /** Collection with two agents in closed form: a moving or terminated
      agent's score is unchanged; agent 0 at rest on v gains the people on
      v; agent 1 at rest on w gains the people on w unless agent 0 rests on
      w too, in which case it gains nothing; every node an agent rests on is
      emptied and every other node keeps its value. */
  lemma CollectedTwoAgents(s: GameState)
    requires CollectOk(s) && |s.locations| == 2
    ensures var r, l0, l1 := Collected(s), s.locations[0], s.locations[1];
            && |r.scores| == 2 && |r.nodeValues| == |s.nodeValues|
            && r.locations == s.locations
            && (!RestsOn(l0, l0.dest) ==> r.scores[0] == s.scores[0])
            && (RestsOn(l0, l0.dest) ==> r.scores[0] == s.scores[0] + s.nodeValues[l0.dest])
            && (!RestsOn(l1, l1.dest) ==> r.scores[1] == s.scores[1])
            && (RestsOn(l1, l1.dest) && !RestsOn(l0, l1.dest) ==>
                  r.scores[1] == s.scores[1] + s.nodeValues[l1.dest])
            && (RestsOn(l1, l1.dest) && RestsOn(l0, l1.dest) ==> r.scores[1] == s.scores[1])
            && (forall j :: 0 <= j < |s.nodeValues| ==>
                  r.nodeValues[j] == (if RestsOn(l0, j) || RestsOn(l1, j) then 0 else s.nodeValues[j]))
  {
    var t := CollectAgent(s, 0);
    var u := CollectAgent(t, 1);
    assert CollectFrom(s, 0) == CollectFrom(t, 1);
    assert CollectFrom(t, 1) == CollectFrom(u, 2);
  }
}
