/** The environment: the authoritative update that applies one agent's
    external action to the game state, the termination test, and the
    game-type dispatch that picks the pair of agents. `ApplyAction` is the
    update as a function; `Simulator.UpdateState` performs it in place on
    the `State` object and is proved to produce exactly that value. */
module Simulation {
  import opened Common
  import opened GraphModel
  import opened GameStates
  import opened StateObject
  import opened Actions

  /** The location an action gives the acting agent before round effects:
      unchanged on "noop", on the edge with its full weight on "move",
      terminated on "terminate". */
  function ActionLocation(adj: Adjacency, s: GameState, action: Action, aid: int): Location
    requires 0 <= aid < |s.locations|
    requires action.Move? ==> IsNeighbour(adj, action.from, action.to)
  {
    match action
    case Noop => s.locations[aid]
    case Move(from, to) => Location(from, to, EdgeWeight(adj, from, to))
    case Terminate => Terminated
  }

  /** The turn after `advance_turn`: the next agent, 0 after the last. */
  function NextTurn(s: GameState): int
  {
    if s.agentTurn + 1 == |s.locations| then 0 else s.agentTurn + 1
  }

  /** What a move action demands: an edge between its two nodes. */
  predicate ActionOk(adj: Adjacency, action: Action)
  {
    action.Move? ==> IsNeighbour(adj, action.from, action.to)
  }

  /** `update_state` as a value: the acting agent's location changes as the
      action says, the turn advances, and when `aid` is the last of
      `agentCount` agents the round closes (steps, time, collection within
      the deadline). People are conserved, scores never fall while no node
      value is negative, and nothing is collected by an agent that does not
      close the round or once the new time passes the deadline. */
  function ApplyAction(adj: Adjacency, s: GameState, action: Action, aid: int, agentCount: int): (r: GameState)
    requires StateOk(adj, s) && 0 <= aid < |s.locations| && ActionOk(adj, action)
    ensures |r.locations| == |s.locations| && |r.scores| == |s.scores| && |r.nodeValues| == |s.nodeValues|
    ensures r.agentTurn == NextTurn(s) && r.deadline == s.deadline
    ensures var closes := aid == agentCount - 1;
            var l := ActionLocation(adj, s, action, aid);
            && r.currentTime == s.currentTime + (if closes then 1 else 0)
            && r.locations[aid] == (if closes then Decrement(l) else l)
            && (forall i :: 0 <= i < |s.locations| && i != aid ==>
                  r.locations[i] == (if closes then Decrement(s.locations[i]) else s.locations[i]))
            && (!closes || s.currentTime + 1 > s.deadline ==>
                  r.nodeValues == s.nodeValues && r.scores == s.scores)
    ensures Sum(r.nodeValues) + Sum(r.scores) == Sum(s.nodeValues) + Sum(s.scores)
    ensures NonNegative(s.nodeValues) ==>
              NonNegative(r.nodeValues) && forall i :: 0 <= i < |s.scores| ==> s.scores[i] <= r.scores[i]
  {
    var t := s.(locations := s.locations[aid := ActionLocation(adj, s, action, aid)]);
    assert CollectOk(t) by {
      assert LocationOk(adj, s.locations[aid]);
      if action.Move? {
        var k :| 0 <= k < |adj[action.from]| && adj[action.from][k].nbr == action.to;
      }
    }
    var u := t.(agentTurn := NextTurn(t));
    if aid == agentCount - 1 then CloseRound(u) else u
  }

  /** Applying, for the agent whose turn it is, the action that the tree
      edge to an `expand` successor stands for gives back exactly that
      successor: the search and the environment agree on every move. */
  lemma ApplyActionMatchesExpand(adj: Adjacency, s: GameState, k: int)
    requires StateOk(adj, s) && NeighboursDistinct(adj) && 0 <= k < |Successors(adj, s)|
    ensures ActionOk(adj, ActionOf(s, Successors(adj, s)[k]))
    ensures ApplyAction(adj, s, ActionOf(s, Successors(adj, s)[k]), s.agentTurn, 2) == Successors(adj, s)[k]
  {
    var p := s.agentTurn;
    var a := ActionOf(s, Successors(adj, s)[k]);
    ActionOfSuccessor(adj, s, k);
    PlySuccessorsOk(adj, s);
    var raw := PlySuccessors(adj, s)[k];
    assert LocationOk(adj, s.locations[p]);
    if AtRest(s) {
      var cur := s.locations[p].dest;
      if k < |adj[cur]| {
        EdgeWeightAt(adj, |s.nodeValues|, cur, k);
      }
    } else if IsAgentTerminated(s, p) {
      assert s.locations[p].origin !in adj;
      assert s.locations[p] == Terminated;
      assert s.locations[p := Terminated] == s.locations;
    }
    assert ActionLocation(adj, s, a, p) == raw.locations[p];
    assert s.locations[p := ActionLocation(adj, s, a, p)] == raw.locations;
  }

  /** The game types of the simulator. */
  datatype GameType = AdversarialGame | SemiCoopGame | CoopGame

  /** The pair of agents a game type asks for. */
  datatype Players = AdversarialPlayers | SemiCoopPlayers | CoopPlayers | HumanPlayers

  /** The outcome of the dispatch: the game type (none for humans) and the
      players. */
  datatype GameSetup = GameSetup(gameType: Option<GameType>, players: Players)

  /** ASCII lower case. */
  function Lower(input: string): (r: string)
    ensures |r| == |input|
    ensures forall i :: 0 <= i < |input| ==>
              r[i] == (if 'A' <= input[i] <= 'Z' then input[i] - 'A' + 'a' else input[i])
  {
    if input == [] then []
    else
      var c := input[0];
      [if 'A' <= c <= 'Z' then c - 'A' + 'a' else c] + Lower(input[1..])
  }

  /** Lower-casing twice is lower-casing once. */
  lemma LowerIdempotent(input: string)
    ensures Lower(Lower(input)) == Lower(input)
  {
    var once := Lower(input);
    assert forall i :: 0 <= i < |once| ==> Lower(once)[i] == once[i];
  }

  /** The game-type dispatch of `user_input` on the lower-cased answer:
      "0"/"a" adversarial, "1"/"s"/"sc" semi-cooperative, "2"/"c"
      cooperative, "h" two humans with no game type, anything else the
      error "Game type not recognized". */
  function ChooseGame(input: string): (r: Result<GameSetup>)
    ensures r.Err? <==> Lower(input) !in ["0", "a", "1", "s", "sc", "2", "c", "h"]
    ensures r.Err? ==> r.message == "Game type not recognized"
    ensures r.Ok? && r.value.players == AdversarialPlayers <==> Lower(input) in ["0", "a"]
    ensures r.Ok? && r.value.players == SemiCoopPlayers <==> Lower(input) in ["1", "s", "sc"]
    ensures r.Ok? && r.value.players == CoopPlayers <==> Lower(input) in ["2", "c"]
    ensures r.Ok? && r.value.players == HumanPlayers <==> Lower(input) == "h"
    ensures r.Ok? ==> (r.value.gameType == None <==> r.value.players == HumanPlayers)
  {
    var g := Lower(input);
    if g in ["0", "a"] then Ok(GameSetup(Some(AdversarialGame), AdversarialPlayers))
    else if g in ["1", "s", "sc"] then Ok(GameSetup(Some(SemiCoopGame), SemiCoopPlayers))
    else if g in ["2", "c"] then Ok(GameSetup(Some(CoopGame), CoopPlayers))
    else if g in ["h"] then Ok(GameSetup(None, HumanPlayers))
    else Err("Game type not recognized")
  }

  /** The dispatch does not depend on letter case. */
  lemma ChooseGameIgnoresCase(input: string)
    ensures ChooseGame(Lower(input)) == ChooseGame(input)
  {
    LowerIdempotent(input);
  }

  class Simulator {
    var gameType: Option<GameType>
    var state: State
    /** `len(self.agents)`. */
    var agentCount: int

    /** The end of `user_input`, once the answers are read: the game type,
        two agents, and the initial state with both agents at rest on their
        start vertices, scores [0, 0], time 0 and agent 0 to move. */
    constructor (setup: GameSetup, nodeValues: seq<int>, start0: int, start1: int, deadline: int)
      ensures gameType == setup.gameType && agentCount == 2 && fresh(state)
      ensures state.Snapshot() == GameState(nodeValues, [Location(start0, start0, 0), Location(start1, start1, 0)],
                                            [0, 0], 0, deadline, 0)
    {
      gameType := setup.gameType;
      agentCount := 2;
      state := new State(nodeValues, [Location(start0, start0, 0), Location(start1, start1, 0)], deadline);
    }

    /** `update_state`: applies `action` for agent `aid` to the state in
        place, step by step. */
    method UpdateState(adj: Adjacency, action: Action, aid: int)
      requires StateOk(adj, state.Snapshot()) && 0 <= aid < |state.locations| && ActionOk(adj, action)
      modifies state
      ensures state.Snapshot() == ApplyAction(adj, old(state.Snapshot()), action, aid, agentCount)
    {
      RecordAction(adj, action, aid);
      state.AdvanceTurn();
      if aid == agentCount - 1 {
        CloseRoundOfState();
      }
    }

    /** The first step of `update_state`: "move" puts the agent on the edge
        with the edge's weight, "terminate" terminates it, "noop" does
        nothing. */
    method RecordAction(adj: Adjacency, action: Action, aid: int)
      requires StateOk(adj, state.Snapshot()) && 0 <= aid < |state.locations| && ActionOk(adj, action)
      modifies state
      ensures state.Snapshot() == old(state.Snapshot()).(locations :=
                old(state.locations)[aid := ActionLocation(adj, old(state.Snapshot()), action, aid)])
    {
      if action != Noop {
        match action {
          case Move(from, to) =>
            var weight := EdgeWeight(adj, from, to);
            state.MoveAgent(adj, aid, from, to, weight);
          case Terminate =>
            state.TerminateAgent(aid);
        }
      }
      assert old(state.locations)[aid := old(state.locations)[aid]] == old(state.locations);
    }

    /** The last agent's share of `update_state`: one step for every moving
        agent, one time unit, and collection if the new time is within the
        deadline. */
    method CloseRoundOfState()
      requires CollectOk(state.Snapshot())
      modifies state
      ensures state.Snapshot() == CloseRound(old(state.Snapshot()))
    {
      state.UpdateMovingAgents();
      state.AdvanceTime();
      if state.currentTime <= state.deadline {
        state.UpdatePeopleAndScores();
      }
    }

    /** `termination`: the game is over exactly at a terminal state. */
    predicate Termination()
      reads this, state
      ensures Termination() <==> DeadlineReached(state.Snapshot()) || PeopleRemaining(state.Snapshot()) <= 0
                                 || AllAgentsTerminated(state.Snapshot())
    {
      IsStateTerminal(state.Snapshot())
    }
  }
}
