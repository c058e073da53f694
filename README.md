# Rescue game decision engine, in Dafny

This project models the decision engine of a two-agent, turn-based rescue
game played on a weighted undirected graph. Nodes hold people. Each agent is
either at rest on a node, travelling along an edge with some steps left, or
terminated. An agent that rests on a node at the end of a round takes the
node's people into its score, as long as the time is within the deadline.

The model covers:

- **The game state and its transitions** (`state.py`). `GameStates`
  (game_state.dfy) states the state as a value, the queries on it, and the
  successors `expand` produces, as functions. `StateObject.State`
  (state.dfy) is the object itself. Its fields are updated in place by the
  Python program's mutators. `Expand` clones and mutates as the program
  does, and is proved to return exactly `Successors`.
- **The authoritative update** (`simulator.py`). `Simulation.ApplyAction` is
  `update_state` as a value. `Simulator.UpdateState` performs it on the
  state object, step by step. `ApplyActionMatchesExpand` proves that the
  action read off a search edge reproduces that successor. The game-type
  dispatch and `termination` are also modelled.
- **The three search agents**:
  - zero-sum alpha-beta on `scores[0] - scores[1]` (adversarial.dfy and
    alpha_beta_scan.dfy), proved against plain minimax;
  - max-everywhere search on `scores[0] + scores[1]` (cooperative.dfy);
  - the semi-cooperative pair search, lexicographic on own score and then
    the partner's (semi_coop.dfy).

  Each agent also has a root selection that turns the chosen child into a
  `noop`, `move` or `terminate` action. Every search is an imperative
  method with loops, proved against a recursive reference value.
- **The agent objects** (`agent.py`, `multiplayer_agent.py`): the class-wide
  id counter, the base agent, the search agent with its heuristic, and the
  search-edge label.
- **The graph helpers** (`graph_util.py`): counts and sums of node values,
  the node-value list, get-and-set of a node value, the cheapest neighbour,
  and the nearest people given a shortest-path result.
- **The random graph generator's edge list** (`graph_generator.py`).

The graph is a map from node id to its incident edges `(nbr, eid, weight)`
in adjacency-iteration order. The sentinels -inf and +inf are the `NegInf`
and `PosInf` cases of `Common.Ext`. The networkx search tree is replaced by
recursion that returns each node's value and the values of its children.

A few points where the code behaves differently from what its comments or a
reading of the game rules might suggest. The model follows the code:

- A move stores the full edge weight as the step count. The step "taken
  now" happens only through the decrement when the round closes. This holds
  both in `expand` and in `update_state`.
- Collection in `expand` and in `update_state` is guarded by
  `current_time <= deadline` alone. With a deadline of 0 or less, neither
  of them ever collects, even though `deadline_reached` treats such a
  deadline as "no deadline" (`GameStates.NoCollectionWithoutPositiveDeadline`).
  The one unguarded collection, before the first turn of `run_environment`,
  is outside the model.
- Neighbours are visited in adjacency-iteration order, not sorted.
- With `weight=-1`, `move_agent` computes the edge weight minus one and
  discards it, so the location stores -1. Every caller passes a weight.
- Two agents at rest on the same node: agent 0 collects first and takes
  everything (`GameStates.FirstAgentTakesSharedNode`).
- In `get_min_path_to_people`, the tie branch `i < min_path[-1]` can never
  replace the running choice. Candidates are visited in increasing id, and
  the running path ends at a smaller id, so the lowest id wins every tie
  anyway. The model keeps the branch.

## Model

| member | source | states |
|---|---|---|
| Common.MaxExt | Code/adversarial_agent.py:52-53 | `max` over values with -inf/+inf: at least both arguments and equal to one of them |
| Common.MinExt | Code/adversarial_agent.py:64-65 | `min` over values with -inf/+inf: at most both arguments and equal to one of them |
| Common.SumUpdate | Code/state.py:100-101 | overwriting one entry changes the sum by the new value minus the old |
| Common.MaxOf | Code/cooperative_agent.py:36-43 | the maximum of a non-empty sequence: no entry exceeds it and some entry equals it |
| Common.MinOf | Code/adversarial_agent.py:58-69 | the minimum of a non-empty sequence: no entry is below it and some entry equals it |
| Common.FirstMaxIndex | Code/cooperative_agent.py:45-52 | a running best replaced only on strict improvement settles on the first index of the maximum: -1 for no entry, no entry larger, every earlier entry strictly smaller |
| Common.FirstMinIndex | Code/adversarial_agent.py:80-85 | the same for the minimum: the first index of the least entry, every earlier entry strictly larger |
| GraphModel.EdgeIndex | Code/graph_util.py:42-43 | the lookup of neighbour `w` finds an edge to `w`, and no earlier edge goes to `w` |
| GraphModel.EdgeWeightAt | Code/state.py:28-34 | with each neighbour listed once, the weight looked up for the k-th neighbour is the weight stored on the k-th edge |
| GameStates.DecrementAll | Code/state.py:71-74 | `update_moving_agents` on every location: origin and destination kept, a positive step count lowered by exactly one, at-rest and terminated locations unchanged, no non-negative count going below 0 |
| GameStates.CollectAgent | Code/state.py:96-101 | one agent's collection keeps the state safe to index; what it gives each agent is stated in closed form by `CollectedTwoAgents` |
| GameStates.CollectFrom | Code/state.py:95-101 | collection in index order changes only node values and scores, conserves node values plus scores, and with non-negative node values never lowers a score or makes a node negative |
| GameStates.CollectAgentConserves | Code/state.py:100-101 | one agent's collection moves people from the node to its score without loss |
| GameStates.PlySuccessors | Code/state.py:22-38 | the ply always has at least one successor |
| GameStates.Successors | Code/state.py:17-48 | `expand` is empty exactly at terminal states, otherwise has one successor per ply option, and every successor is well formed |
| GameStates.PlySuccessorsOk | Code/state.py:22-34 | each ply successor keeps the state well formed, has turn one past the parent's, and is safe to collect |
| GameStates.RestingAgentSuccessors | Code/state.py:25-38 | an agent at rest gets one successor per neighbour in adjacency order, at `[currnode, neighbour, weight]`, then termination last; the other agent's location is untouched |
| GameStates.BusyAgentSuccessors | Code/state.py:22-23 | a moving or terminated agent gets exactly one successor, which keeps all locations |
| GameStates.SuccessorTiming | Code/state.py:40-47 | from turn 0: turn 1 with unchanged time, scores and values; from turn 1: turn 0, time + 1, every step count decremented and never below 0, nothing collected past the deadline, and otherwise exactly the collection (`Collected`) of the decremented state |
| GameStates.SuccessorsConserve | Code/state.py:95-101 | people remaining plus the sum of scores is the same in every successor as in the parent |
| GameStates.SuccessorsScoresMonotone | Code/state.py:46-47 | with non-negative node values no successor lowers a score or makes a node value negative |
| GameStates.NoCollectionWithoutPositiveDeadline | Code/state.py:46-47 | with deadline <= 0 and time >= 0, no successor changes scores or node values |
| GameStates.CollectedTwoAgents | Code/state.py:95-101 | collection with two agents: a moving or terminated agent's score is unchanged; agent 0 at rest on v gains v's people; agent 1 at rest on w gains w's people, or nothing if agent 0 rests on w too; nodes an agent rests on become 0 and every other node keeps its value |
| GameStates.FirstAgentTakesSharedNode | Code/state.py:96-101 | two agents at rest on node v: agent 0 gains all of v's people, agent 1 nothing, and v is emptied |
| StateObject.State.constructor | Code/state.py:9-15 | the new state holds copies of its arguments; defaults: deadline -1, scores [0, 0], time 0, turn 0 |
| StateObject.State.AdvanceTime | Code/state.py:50-51 | only the time changes, by `timeUnits` |
| StateObject.State.UpdateMovingAgents | Code/state.py:71-74 | only the locations change, each one decremented |
| StateObject.State.TerminateAgent | Code/state.py:76-77 | only the agent's location changes, to `[-1, -1, 0]` (so applying it twice equals applying it once) |
| StateObject.State.MoveAgent | Code/state.py:82-93 | only the agent's location changes, to `[orig, dest, weight]`, including a negative weight |
| StateObject.State.UpdatePeopleAndScores | Code/state.py:95-101 | the new state is the in-order collection `Collected` of the old one |
| StateObject.State.AdvanceTurn | Code/state.py:127-130 | only the turn changes: the next agent, 0 after the last, always a valid index |
| StateObject.State.Expand | Code/state.py:17-48 | the snapshots of the built successors are exactly `Successors` of the receiver; the receiver is not modified |
| StateObject.State.CloseRoundInPlace | Code/state.py:40-47 | one clone after agent 1's ply: turn 0 and the round effects, exactly `EndOfRound` |
| StateObject.State.PlyClones | Code/state.py:18-38 | distinct fresh clones whose snapshots are exactly the ply successors, in order |
| StateObject.CloseRoundAll | Code/state.py:40-47 | every clone of the round-closing loop ends at `EndOfRound` of its old value |
| StateObject.SnapshotsOf | Code/state.py:48 | the returned list is the clones' values, in order |
| Actions.GetEdgeLabel | Code/multiplayer_agent.py:17-31 | "T" iff the successor's destination is -1; "M" iff it is not -1 and unchanged; otherwise "C" with the new destination |
| Actions.EdgeLabelDependsOnDestinationsOnly | Code/multiplayer_agent.py:23-25 | two state pairs that agree on the turn and on the player's two destinations get the same label |
| Actions.ActionOfSuccessor | Code/state.py:22-38 | each successor's edge stands for: move to the k-th neighbour, terminate for the last one or for a terminated agent, noop for a moving agent; every move goes from the agent's node to a neighbour |
| Actions.ChosenAction | Code/adversarial_agent.py:86-90 | no child or destination -1 gives `terminate`, otherwise `move` from the current destination to the child's |
| Actions.ChosenActionIsEdgeAction | Code/adversarial_agent.py:72-90 | on the agent's own turn and at rest, the action chosen through child k is the action of the edge to child k |
| AlphaBetaScan.MaxScanStep | Code/adversarial_agent.py:51-55 | a max-node child that does not close the window keeps the scan invariant, and alpha becomes max(value, alpha) |
| AlphaBetaScan.MaxScanCut | Code/adversarial_agent.py:53-55 | a child reaching beta gives a fail-soft lower bound on the node's true value, and beta was finite |
| AlphaBetaScan.MaxScanDone | Code/adversarial_agent.py:45-57 | with no cut, the running maximum is the node's fail-soft value |
| AlphaBetaScan.MinScanStep | Code/adversarial_agent.py:64-67 | the min-node counterpart of `MaxScanStep` |
| AlphaBetaScan.MinScanCut | Code/adversarial_agent.py:65-67 | the min-node counterpart of `MaxScanCut` |
| AlphaBetaScan.MinScanDone | Code/adversarial_agent.py:58-69 | the min-node counterpart of `MaxScanDone` |
| AlphaBetaScan.FirstBestIsFirstOptimal | Code/adversarial_agent.py:74-85 | with the full window, the first best recorded value sits at the first child whose true value is the optimum |
| Adversarial.MinimaxIsBestChild | Code/adversarial_agent.py:45-69 | an inner node's minimax value is that of its first equal child; no child is better for the player to move |
| Adversarial.AlphaBeta | Code/adversarial_agent.py:28-69 | fail-soft alpha-beta: exact inside the window, a bound outside it, and equal to minimax with the window (-inf, +inf); at an inner node, the recorded child values satisfy `ScanResult` |
| Adversarial.MaxInner | Code/adversarial_agent.py:45-57 | agent 0's inner node: the fail-soft value of the node |
| Adversarial.MinInner | Code/adversarial_agent.py:58-69 | agent 1's inner node: the fail-soft value of the node |
| Adversarial.SearchValue | Code/adversarial_agent.py:52 | the recursive call's fail-soft guarantee about the child's true value |
| Adversarial.MaxNode | Code/adversarial_agent.py:46-57 | the max loop with alpha raising and the early break: the fail-soft maximum of the children's true values |
| Adversarial.MinNode | Code/adversarial_agent.py:59-69 | the min loop with beta lowering and the early break: the fail-soft minimum |
| Adversarial.SelectBestBranch | Code/adversarial_agent.py:71-90 | agent 0 acts through the first child of greatest recorded value, agent 1 through the first of least value |
| Adversarial.AdversarialDecide | Code/adversarial_agent.py:13-26 | noop while moving; terminate at a leaf; otherwise, on its own turn, the edge to the first child whose minimax value is the state's |
| Adversarial.AdversarialMoveFollowsEdge | Code/adversarial_agent.py:13-26 | on its own turn the adversarial agent's move starts at the node it rests on and follows an edge |
| Adversarial.RootChoiceIsOptimal | Code/adversarial_agent.py:71-90 | with the full window no root child is pruned, and the selection labels the edge to the first optimal child |
| Cooperative.CoopValueAtLeastHeuristic | Code/cooperative_agent.py:33-43 | with non-negative node values a state's value is at least its own score sum |
| Cooperative.InnerAtLeast | Code/cooperative_agent.py:36-43 | an inner node whose children are all worth at least `lo` is worth at least `lo` |
| Cooperative.ValuesAtLeast | Code/cooperative_agent.py:33-43 | states with non-negative values and score sum at least `lo` all have values at least `lo` |
| Cooperative.ChildrenNoWorse | Code/cooperative_agent.py:60-63 | no successor makes a node negative or lowers the score sum |
| Cooperative.CoopValueIsBestChild | Code/cooperative_agent.py:36-43 | an inner node's value is its first maximal child's, and no child is worth more, whoever is to move |
| Cooperative.ExpandMinimaxTree | Code/cooperative_agent.py:24-43 | the returned value is the reference value, and the recorded child values are the children's values |
| Cooperative.CoopSearch | Code/cooperative_agent.py:37 | the recursive call returns the child's value |
| Cooperative.CoopNode | Code/cooperative_agent.py:36-43 | the loop from -inf returns the maximum of the children's values |
| Cooperative.SelectBestBranch | Code/cooperative_agent.py:45-57 | either agent acts through the first child of greatest recorded value |
| Cooperative.CooperativeMoveFollowsEdge | Code/cooperative_agent.py:13-22 | on its own turn the cooperative agent's move starts at the node it rests on and follows an edge |
| Cooperative.CooperativeDecide | Code/cooperative_agent.py:13-22 | noop while moving; terminate at a leaf; otherwise the action through the first child whose value is the state's, which is that child's edge on the agent's own turn |
| SemiCooperative.SemiCoopMoveFollowsEdge | Code/semi_coop_agent.py:13-22 | on its own turn the semi-cooperative agent's move starts at the node it rests on and follows an edge |
| SemiCooperative.BeatsStrictOrder | Code/semi_coop_agent.py:44-48 | the replacement rule is irreflexive and transitive |
| SemiCooperative.BeatsTotal | Code/semi_coop_agent.py:44-48 | of two different pairs, one replaces the other |
| SemiCooperative.BestIndex | Code/semi_coop_agent.py:36-48 | the replacement loop from [-inf, -inf] settles on a child that no child beats and that beats every earlier child |
| SemiCooperative.BeatsAfterReplace | Code/semi_coop_agent.py:44-46 | a replacing pair is unbeaten so far and beats every earlier pair |
| SemiCooperative.BeatsAfterKeep | Code/semi_coop_agent.py:44-48 | a pair that does not replace leaves the choice unbeaten |
| SemiCooperative.SemiValue | Code/semi_coop_agent.py:24-50 | every value pair is finite |
| SemiCooperative.SemiValueIsBestChild | Code/semi_coop_agent.py:36-50 | an inner node's value is that of its earliest equal child; no child beats it for the player to move, and it beats every earlier child |
| SemiCooperative.ExpandMinmaxTree | Code/semi_coop_agent.py:24-50 | the returned pair is the reference value, and the recorded child pairs are the children's values |
| SemiCooperative.SemiSearch | Code/semi_coop_agent.py:41 | the recursive call returns the child's value |
| SemiCooperative.SemiNode | Code/semi_coop_agent.py:36-48 | the loop settles on a child and returns that child's pair, as `BestIndex` says |
| SemiCooperative.SelectBestBranch | Code/semi_coop_agent.py:52-69 | the agent acts through the child the same rule picks with its own id |
| SemiCooperative.SemiCoopDecide | Code/semi_coop_agent.py:13-22 | noop while moving; terminate at a leaf; otherwise the action through a child unbeaten for the agent that beats every earlier child; on its own turn, that child carries the state's value and the action is its edge |
| Agents.AgentCounter.constructor | Code/agent.py:2 | the class counter starts at 0 |
| Agents.Agent.constructor | Code/agent.py:4-7 | the id is the counter before construction, the counter goes up by exactly one, and `num_actions` is 0 |
| Agents.BaseAgentBehaviour | Code/agent.py:9-13 | the base `act` returns None and `observe` returns the state unchanged |
| Agents.MultiplayerAgent.constructor | Code/multiplayer_agent.py:10-15 | id from the counter, `depth` stored, no heuristic, `vertex_id` 0, `num_call` 0 |
| Agents.MultiplayerAgent.WithHeuristic | Code/adversarial_agent.py:9-11 | the base construction, then the subclass's heuristic |
| Agents.MultiplayerAgent.Act | Code/adversarial_agent.py:13-26 | noop without a search while moving; otherwise one more call and the choice the installed strategy guarantees |
| Agents.NewAgentPair | Code/simulator.py:68-76 | two agents built in a row get consecutive ids, 0 and 1 from a fresh counter |
| Simulation.ApplyAction | Code/simulator.py:41-57 | noop, move with the full weight, or terminate; turn advanced; only the last agent decrements steps and advances time; collection only if the new time is within the deadline; people conserved and scores monotone |
| Simulation.ApplyActionMatchesExpand | Code/simulator.py:41-57 | applying the action of an `expand` successor's edge for the agent to move gives exactly that successor |
| Simulation.Lower | Code/simulator.py:66 | ASCII lower-casing, letter by letter |
| Simulation.LowerIdempotent | Code/simulator.py:66 | lower-casing twice equals lower-casing once |
| Simulation.ChooseGame | Code/simulator.py:68-80 | "0"/"a", "1"/"s"/"sc", "2"/"c", "h" select their agent pairs (iff), no game type for humans, and anything else is the error "Game type not recognized" |
| Simulation.ChooseGameIgnoresCase | Code/simulator.py:66-80 | the dispatch gives the same result for an answer and its lower-cased form |
| Simulation.Simulator.constructor | Code/simulator.py:82-86 | both agents at rest on their start vertices, scores [0, 0], time 0, agent 0 to move |
| Simulation.Simulator.UpdateState | Code/simulator.py:41-57 | the in-place update leaves the state at exactly `ApplyAction` of the old state |
| Simulation.Simulator.RecordAction | Code/simulator.py:42-49 | only the acting agent's location changes, as the action says |
| Simulation.Simulator.CloseRoundOfState | Code/simulator.py:51-57 | the last agent's share is exactly `CloseRound` |
| Simulation.Simulator.Termination | Code/simulator.py:59-60 | true iff the deadline is reached, no people remain, or every agent is terminated |
| GraphUtil.CountPositive | Code/graph_util.py:50-55 | 0 iff no node holds people, the node count iff all do |
| GraphUtil.CountPositiveIsSize | Code/graph_util.py:50-55 | the count is the size of the set of nodes holding people |
| GraphUtil.CountPositiveClear | Code/graph_util.py:58-63 | emptying a node lowers the count by one exactly when the node held people |
| GraphUtil.NumPositiveExcludingCurrent | Code/graph_util.py:58-63 | the count of other nodes holding people; 0 iff no other node does |
| GraphUtil.NoPeopleIffNoPositiveNode | Code/graph_util.py:8-13 | with non-negative values the total is non-negative, and 0 iff no node holds people |
| GraphUtil.SumZeroIffAllZero | Code/graph_util.py:8-13 | a sum of non-negative values is 0 iff every value is 0 |
| GraphUtil.NodeValues.SetNodeValue | Code/graph_util.py:16-17 | only the node's value changes, to the new value |
| GraphUtil.NodeValues.GasNodeValue | Code/graph_util.py:31-35 | returns the previous value, the node holds the new value, and the total changes by the difference |
| GraphUtil.NodeValues.GraphToNodeValueList | Code/graph_util.py:20-24 | a list of length n with entry i equal to node i's value |
| GraphUtil.GetMinimumEdgeNeighbour | Code/graph_util.py:66-91 | -1 for a node without neighbours; otherwise a neighbour whose edge is lightest, with the smallest edge id among the lightest |
| GraphUtil.CheapestEdgeUnique | Code/graph_util.py:86-90 | with distinct edge ids only one edge is cheapest, so the answer does not depend on the iteration order |
| GraphUtil.GetMinPathValueToPeople | Code/graph_util.py:94-106 | 0 when no node or the current node holds people; otherwise +inf iff no reached node holds people, else the least distance to one |
| GraphUtil.GetMinPathToPeople | Code/graph_util.py:116-131 | empty when no other node holds people; otherwise the path without its start to the nearest such node, the lowest id winning a tie |
| GraphGeneration.PairOf | Code/graph_generator.py:34 | the `(min, max)` pair: ordered, and the same two nodes |
| GraphGeneration.GenerateAllNodePairs | Code/graph_generator.py:44-48 | exactly the pairs (i, j) with 0 <= i < j < n, strictly lexicographic, n(n-1)/2 of them |
| GraphGeneration.NextRowCount | Code/graph_generator.py:46-47 | row i adds n - i - 1 pairs to the running count |
| GraphGeneration.Remove | Code/graph_generator.py:37 | `list.remove`: one element fewer, nothing new, every other element kept, and the removed one gone when the list has no repeats |
| GraphGeneration.GraphGenerator.constructor | Code/graph_generator.py:5-9 | node values sampled from ten zeros and 1 .. 10, weights from five ones and 2 .. 5 |
| GraphGeneration.GraphGenerator.GenerateGraph | Code/graph_generator.py:11-42 | "Too many edges" iff more than n(n-1)/2 edges; "Too few edges, graph must be connected" iff otherwise fewer than n - 1; else exactly `numEdges` edges with ids 0, 1, ..., valid pairs, no pair twice, drawn weights, and the path edges first; the deadline recorded is the caller's, 1 by default |
| GraphGeneration.PathEdges | Code/graph_generator.py:29-37 | the n - 1 edges between consecutive nodes of the shuffled order, each taken out of the pool of unused pairs |
| GraphGeneration.DrawnEdges | Code/graph_generator.py:38-42 | the remaining edges come from the pool, keep the path edges in front, and keep ids consecutive and pairs distinct |
| GraphGeneration.PathEdgeNew | Code/graph_generator.py:33-37 | each path edge joins two distinct nodes and differs from every earlier path edge |
| GraphGeneration.PathConnects | Code/graph_generator.py:26-37 | every node is an end of a path edge, and consecutive path edges share an end, so the graph is connected |
| GraphGeneration.PermutationCovers | Code/graph_generator.py:29-30 | the shuffled node list contains every node |
| GraphGeneration.DistinctBounded | Code/graph_generator.py:29-30 | distinct ids below m number at most m |

## Left out

- Plotting and printing: `draw_graph`, `print_graph`, `print_tree`, the `State.print*` methods and `__str__`, and the simulator's `print`, `start_print` and `end_print`. None of them holds logic.
- The networkx search tree (`tree.add_node`/`add_edge`, the labels stored on it) and `vertex_id` numbering. The tree exists for plotting. The recursion returns the node value and the children's values instead.
- Agents.MultiplayerAgent.Act: does not update `vertex_id`, which only numbers tree nodes.
- networkx's Dijkstra. Its distance map and paths are parameters of `GetMinPathValueToPeople` and `GetMinPathToPeople`, and the distance map's iteration order is the `keys` parameter.
- Simulation.ApplyAction: requires a move to follow an edge of the graph. On a non-edge the Python `update_state` raises a `KeyError` at the weight lookup, before it changes anything. Every edge action of the search satisfies this (`Actions.ActionOfSuccessor`). The same holds for `Simulation.Simulator.UpdateState` and `Simulation.Simulator.RecordAction`.
- StateObject.State.MoveAgent: requires an edge when the weight is negative. With the default weight, `move_agent` looks up the edge weight, and on a non-edge that lookup raises a `KeyError`.
- GraphUtil.GetMinPathToPeople: requires every other node holding people to be reached by the search. Otherwise the Python program raises a `KeyError`.
- Randomness and file writing in `graph_generator.py`. The shuffled node list and the indices `random.choice` picks are parameters. The `#N`/`#D`/`#V`/`#E` lines are represented by the records `GeneratedGraph` and `GenEdge`, not by text.
- GraphGeneration.GraphGenerator.GenerateGraph: requires at least one node, so it says nothing about `num_nodes <= 0`. With `num_nodes = 0` the Python program raises "Too many edges" for `num_edges >= 1` and "Too few edges, graph must be connected" for `num_edges < -1`. For `num_edges = 0` it fails in `random.choice` on the empty pool, and for `num_edges = -1` it writes a graph with no nodes and no edges. Negative node counts are excluded as well.
- `graph_reader.py` (file reading and float parsing of the deadline). Deadlines and weights are integers in the model.
- `human_agent.py` and the `input()` prompts of `user_input`. The dispatch takes the answer as a string, and the start vertices as parameters. The human agents appear only as the `HumanPlayers` outcome.
- Simulation.Lower: lower-cases ASCII letters only, where Python's `str.lower` also folds other alphabets. The dispatch strings are ASCII.
- `run_environment`, the loop that asks each agent for an action and calls `update_state` until `termination`. Its steps are modelled one by one. Before the first turn it calls `update_people_and_scores` with no deadline test, so agents that start on nodes with people collect them at time 0 whatever the deadline. That call is `StateObject.State.UpdatePeopleAndScores`; the loop around it is not modelled.
- `are_all_agents_moving_or_terminated` (decides only whether to print), `get_agent_location`, `get_node_value`, `get_neighbours` and `remove_edge` (one-line accessors that no modelled operation needs).
- The three agent subclasses are one class `MultiplayerAgent` whose `heuristic` field selects the search, since subclassing is not modelled. The class attribute `Agent.num_agents` is the object `AgentCounter` passed to each construction.
- The agents' searches take the graph as a parameter. In the Python program it is the class attribute `State.graph`.
- `Simulator.agentCount` stands for `len(self.agents)`, which is always 2 after the dispatch.
- The search depth is a natural number. A negative cutoff would make the Python program recurse until the state is terminal.
- Node ids are `0 .. n-1`, and node `i`'s value is entry `i` of the value list.
