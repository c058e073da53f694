/** The static part of the game graph that the transition engine consults:
    for every node, its incident edges in adjacency-iteration order. */
module GraphModel {

  /** One incident edge as seen from a node: the node at its other end, the
      edge identifier and the traversal weight. */
  datatype Edge = Edge(nbr: int, eid: int, weight: int)

  /** Node id to its incident edges, in the order the graph iterates them. */
  type Adjacency = map<int, seq<Edge>>

  /** A graph on node ids in [0, n): neighbours are nodes, no self-loops,
      weights positive. */
  predicate AdjacencyOk(adj: Adjacency, n: int)
  {
    && (forall v :: v in adj ==> 0 <= v < n)
    && (forall v, k :: v in adj && 0 <= k < |adj[v]| ==>
          adj[v][k].nbr in adj && adj[v][k].nbr != v && adj[v][k].weight > 0)
  }

  /** A simple graph lists each neighbour of a node once. */
  predicate NeighboursDistinct(adj: Adjacency)
  {
    forall v, j, k :: v in adj && 0 <= j < k < |adj[v]| ==> adj[v][j].nbr != adj[v][k].nbr
  }

  predicate IsNeighbour(adj: Adjacency, u: int, w: int)
  {
    u in adj && exists k :: 0 <= k < |adj[u]| && adj[u][k].nbr == w
  }

  /** Position of the first edge towards `w` in `es`, or |es| if none. */
  function EdgeIndex(es: seq<Edge>, w: int): (k: nat)
    ensures k <= |es|
    ensures k < |es| ==> es[k].nbr == w
    ensures forall j :: 0 <= j < k ==> es[j].nbr != w
  {
    if es == [] then 0
    else if es[0].nbr == w then 0
    else 1 + EdgeIndex(es[1..], w)
  }

  /** `get_edge_weight`: the weight stored on the edge u-w. */
  function EdgeWeight(adj: Adjacency, u: int, w: int): int
    requires IsNeighbour(adj, u, w)
  {
    var k := EdgeIndex(adj[u], w);
    assert k < |adj[u]|;
    adj[u][k].weight
  }

  /** With neighbours listed once, looking up the k-th neighbour finds the
      k-th edge, so its weight is the one the adjacency list stores there. */
  lemma EdgeWeightAt(adj: Adjacency, n: int, u: int, k: int)
    requires AdjacencyOk(adj, n) && NeighboursDistinct(adj)
    requires u in adj && 0 <= k < |adj[u]|
    ensures IsNeighbour(adj, u, adj[u][k].nbr)
    ensures EdgeWeight(adj, u, adj[u][k].nbr) == adj[u][k].weight
  {
  }
}
