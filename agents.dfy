/** The agent objects: the base `Agent` with its class-wide id counter and
    the search agent `MultiplayerAgent`, whose three subclasses differ only
    in the heuristic they install and the search their `act` runs. */
module Agents {
  import opened Common
  import opened GraphModel
  import opened GameStates
  import opened Actions
  import Adversarial
  import Cooperative
  import SemiCooperative

  /** The class attribute `Agent.num_agents`, shared by every construction. */
  class AgentCounter {
    var numAgents: int

    constructor ()
      ensures numAgents == 0
    {
      numAgents := 0;
    }
  }

  class Agent {
    var aid: int
    var numActions: int

    /** Takes the next id from the counter. */
    constructor (counter: AgentCounter)
      modifies counter
      ensures aid == old(counter.numAgents) && counter.numAgents == aid + 1
      ensures numActions == 0
    {
      aid := counter.numAgents;
      counter.numAgents := counter.numAgents + 1;
      numActions := 0;
    }

    /** The base agent has no policy. */
    function Act(observation: GameState): (r: Option<Action>)
    {
      None
    }

    /** An agent observes the state as it is. */
    function Observe(s: GameState): (r: GameState)
    {
      s
    }
  }

  /** The base agent's `act` answers None and its `observe` hands the state
      back unchanged, whatever the agent and the state. */
  lemma BaseAgentBehaviour(a: Agent, s: GameState)
    ensures a.Act(s) == None
    ensures a.Observe(s) == s
  {
  }

  /** The heuristic a search agent installs, which also selects its search. */
  datatype Heuristic = AdversarialHeuristic | CooperativeHeuristic | SemiCooperativeHeuristic

  class MultiplayerAgent {
    var aid: int
    var numActions: int
    var depth: nat
    var heuristic: Option<Heuristic>
    var vertexId: int
    var numCall: int

    /** `MultiplayerAgent(depth)`: an id from the counter, the cutoff depth,
        no heuristic, vertex id 0 and no call yet. */
    constructor (counter: AgentCounter, depth: nat)
      modifies counter
      ensures aid == old(counter.numAgents) && counter.numAgents == aid + 1
      ensures numActions == 0 && this.depth == depth && heuristic == None
      ensures vertexId == 0 && numCall == 0
    {
      aid := counter.numAgents;
      counter.numAgents := counter.numAgents + 1;
      numActions := 0;
      this.depth := depth;
      heuristic := None;
      vertexId := 0;
      numCall := 0;
    }

    /** A subclass constructor: the base construction, then the subclass's
        heuristic. */
    constructor WithHeuristic(counter: AgentCounter, depth: nat, h: Heuristic)
      modifies counter
      ensures aid == old(counter.numAgents) && counter.numAgents == aid + 1
      ensures numActions == 0 && this.depth == depth && heuristic == Some(h)
      ensures vertexId == 0 && numCall == 0
    {
      aid := counter.numAgents;
      counter.numAgents := counter.numAgents + 1;
      numActions := 0;
      this.depth := depth;
      heuristic := Some(h);
      vertexId := 0;
      numCall := 0;
    }

    /** `act`: without a heuristic the base agent's None; "noop" while on an
        edge, with no search; otherwise one more call and the action of the
        strategy the heuristic selects: "terminate" at a leaf, and at an
        inner node the choice that strategy guarantees. */
    method Act(adj: Adjacency, s: GameState) returns (r: Option<Action>)
      requires StateOk(adj, s) && 0 <= aid < 2
      modifies this
      ensures aid == old(aid) && depth == old(depth) && heuristic == old(heuristic)
      ensures numActions == old(numActions) && vertexId == old(vertexId)
      ensures heuristic.None? ==> r == None && numCall == old(numCall)
      ensures heuristic.Some? && IsAgentMoving(s, aid) ==> r == Some(Noop) && numCall == old(numCall)
      ensures heuristic.Some? && !IsAgentMoving(s, aid) ==>
                && numCall == old(numCall) + 1
                && r.Some?
                && (IsLeaf(s, depth) ==> r.value == Terminate)
                && (!IsLeaf(s, depth) ==>
                      match heuristic.value
                      case AdversarialHeuristic => Adversarial.AdversarialChoice(adj, s, aid, depth, r.value)
                      case CooperativeHeuristic => Cooperative.CooperativeChoice(adj, s, aid, depth, r.value)
                      case SemiCooperativeHeuristic => SemiCooperative.SemiCoopChoice(adj, s, aid, depth, r.value))
    {
      if heuristic.None? {
        return None;
      }
      if IsAgentMoving(s, aid) {
        return Some(Noop);
      }
      var action;
      match heuristic.value {
        case AdversarialHeuristic =>
          action := Adversarial.AdversarialDecide(adj, s, aid, depth);
        case CooperativeHeuristic =>
          action := Cooperative.CooperativeDecide(adj, s, aid, depth);
        case SemiCooperativeHeuristic =>
          action := SemiCooperative.SemiCoopDecide(adj, s, aid, depth);
      }
      numCall := numCall + 1;
      r := Some(action);
    }
  }

  /** Two agents built one after the other, as the simulator builds its
      pair: consecutive ids, 0 and 1 from a fresh counter. */
  method NewAgentPair(counter: AgentCounter, depth: nat, h: Heuristic)
    returns (first: MultiplayerAgent, second: MultiplayerAgent)
    modifies counter
    ensures first.aid == old(counter.numAgents) && second.aid == first.aid + 1
    ensures counter.numAgents == old(counter.numAgents) + 2
    ensures first.heuristic == Some(h) && second.heuristic == Some(h)
    ensures first.depth == depth && second.depth == depth
    ensures fresh(first) && fresh(second) && first != second
  {
    first := new MultiplayerAgent.WithHeuristic(counter, depth, h);
    second := new MultiplayerAgent.WithHeuristic(counter, depth, h);
  }
}
