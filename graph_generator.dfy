/** The random graph generator: the pool of all node pairs, the checks on
    the requested edge count, and the edge list it writes, a path through
    all nodes in shuffled order followed by edges drawn from the pool of
    unused pairs. The shuffle and every random draw are parameters; the
    file text is represented by the records it holds. */
module GraphGeneration {
  import opened Common

  /** An unordered pair of nodes, smaller id first. */
  datatype NodePair = NodePair(lo: int, hi: int)

  /** Strict lexicographic order on pairs. */
  predicate PairLess(a: NodePair, b: NodePair)
  {
    a.lo < b.lo || (a.lo == b.lo && a.hi < b.hi)
  }

  /** The pair for the edge between u and v. */
  function PairOf(u: int, v: int): (p: NodePair)
    ensures p.lo <= p.hi && {p.lo, p.hi} == {u, v}
  {
    NodePair(if u < v then u else v, if u < v then v else u)
  }

  /** A pair of distinct nodes of a graph on 0 .. n-1. */
  predicate ValidPair(p: NodePair, n: int)
  {
    0 <= p.lo < p.hi < n
  }

  /** `generate_all_node_pairs`: every pair (i, j) with 0 <= i < j < n,
      in lexicographic order, n(n-1)/2 of them. */
  method GenerateAllNodePairs(numNodes: int) returns (pairs: seq<NodePair>)
    ensures forall p :: p in pairs <==> ValidPair(p, numNodes)
    ensures forall a, b :: 0 <= a < b < |pairs| ==> PairLess(pairs[a], pairs[b])
    ensures numNodes >= 0 ==> 2 * |pairs| == numNodes * (numNodes - 1)
  {
    pairs := [];
    var i := 0;
    while i < numNodes
      invariant numNodes >= 0 ==> 0 <= i <= numNodes
      invariant numNodes < 0 ==> i == 0
      invariant forall p :: p in pairs <==> ValidPair(p, numNodes) && p.lo < i
      invariant forall a, b :: 0 <= a < b < |pairs| ==> PairLess(pairs[a], pairs[b])
      invariant forall a :: 0 <= a < |pairs| ==> pairs[a].lo < i
      invariant 2 * |pairs| == i * (2 * numNodes - i - 1)
    {
      ghost var before := pairs;
      var j := i + 1;
      while j < numNodes
        invariant i + 1 <= j <= numNodes
        invariant |pairs| == |before| + (j - i - 1)
        invariant pairs[..|before|] == before
        invariant forall a :: |before| <= a < |pairs| ==> pairs[a] == NodePair(i, a - |before| + i + 1)
      {
        pairs := pairs + [NodePair(i, j)];
        j := j + 1;
      }
      forall p | ValidPair(p, numNodes) && p.lo == i
        ensures p in pairs
      {
        assert pairs[|before| + p.hi - i - 1] == p;
      }
      assert forall a :: 0 <= a < |before| ==> pairs[a] == before[a];
      NextRowCount(|before|, i, numNodes);
      i := i + 1;
    }
  }

  /** Row i of the pool adds n - i - 1 pairs. */
  lemma NextRowCount(count: int, i: int, n: int)
    requires 2 * count == i * (2 * n - i - 1)
    ensures 2 * (count + (n - i - 1)) == (i + 1) * (2 * n - (i + 1) - 1)
  {
  }

  /** `list.remove`: the list without the first occurrence of `x`. */
  function Remove(xs: seq<NodePair>, x: NodePair): (r: seq<NodePair>)
    requires x in xs
    ensures |r| == |xs| - 1
    ensures forall y :: y in r ==> y in xs
    ensures forall y :: y in xs && y != x ==> y in r
    ensures (forall a, b :: 0 <= a < b < |xs| ==> xs[a] != xs[b]) ==>
              x !in r && forall a, b :: 0 <= a < b < |r| ==> r[a] != r[b]
  {
    if xs[0] == x then
      assert forall k :: 1 <= k < |xs| ==> xs[k] == xs[1..][k - 1];
      xs[1..]
    else
      var tail := xs[1..];
      assert forall k :: 1 <= k < |xs| ==> xs[k] == tail[k - 1];
      assert (forall a, b :: 0 <= a < b < |xs| ==> xs[a] != xs[b]) ==>
               xs[0] !in tail && forall a, b :: 0 <= a < b < |tail| ==> tail[a] != tail[b];
      [xs[0]] + Remove(tail, x)
  }

  /** One line `#E<eid> <u> <v> W<weight>` of the file. */
  datatype GenEdge = GenEdge(eid: int, pair: NodePair, weight: int)

  /** The records of a generated file: node count, deadline, one value
      per node and the edges in the order written. */
  datatype GeneratedGraph = GeneratedGraph(numNodes: int, deadline: int, nodeValues: seq<int>, edges: seq<GenEdge>)

  /** `s` is a permutation of 0 .. n-1, as `random.shuffle` leaves the
      node list. */
  predicate IsPermutation(s: seq<int>, n: int)
  {
    && |s| == n
    && (forall i :: 0 <= i < |s| ==> 0 <= s[i] < n)
    && (forall i, j :: 0 <= i < j < |s| ==> s[i] != s[j])
  }

  class GraphGenerator {
    var nodeValuesSampleList: seq<int>
    var edgeValuesSampleList: seq<int>

    /** Node values: ten zeros then 1 .. 10; edge weights: five ones then
        2 .. 5. */
    constructor ()
      ensures nodeValuesSampleList == [0, 0, 0, 0, 0, 0, 0, 0, 0, 0, 1, 2, 3, 4, 5, 6, 7, 8, 9, 10]
      ensures edgeValuesSampleList == [1, 1, 1, 1, 1, 2, 3, 4, 5]
    {
      nodeValuesSampleList := [0, 0, 0, 0, 0, 0, 0, 0, 0, 0, 1, 2, 3, 4, 5, 6, 7, 8, 9, 10];
      edgeValuesSampleList := [1, 1, 1, 1, 1, 2, 3, 4, 5];
    }

    /** `generate_graph`. "Too many edges" when more edges are asked for
        than there are pairs, "Too few edges, graph must be connected" when
        fewer than n - 1; otherwise the node values drawn, the n - 1 path
        edges between consecutive nodes of the shuffled order, then the
        remaining edges drawn from the unused pairs. Exactly `numEdges`
        edges with ids 0, 1, ..., each a pair of distinct nodes, no pair
        twice, weights from the sample list. `pathNodes` is the shuffled
        node list and `valueDraws`, `weightDraws`, `edgeDraws` are the
        indices `random.choice` picks, each below the size of the list it
        picks from at that moment. The deadline written to the file is
        1 unless the caller gives one, as in the Python program. */
    method GenerateGraph(numNodes: int, numEdges: int, pathNodes: seq<int>,
                         valueDraws: seq<nat>, weightDraws: seq<nat>, edgeDraws: seq<nat>,
                         deadline: int := 1)
      returns (r: Result<GeneratedGraph>)
      requires numNodes >= 1 && IsPermutation(pathNodes, numNodes)
      requires |valueDraws| == numNodes && forall i :: 0 <= i < |valueDraws| ==> valueDraws[i] < |nodeValuesSampleList|
      requires |weightDraws| >= numEdges && forall i :: 0 <= i < |weightDraws| ==> weightDraws[i] < |edgeValuesSampleList|
      requires |edgeDraws| >= numEdges - numNodes + 1
      requires forall i :: 0 <= i < |edgeDraws| ==>
                 edgeDraws[i] < numNodes * (numNodes - 1) / 2 - (numNodes - 1) - i
      ensures 2 * numEdges > numNodes * (numNodes - 1) <==> r == Err("Too many edges")
      ensures 2 * numEdges <= numNodes * (numNodes - 1) && numEdges < numNodes - 1 <==>
                r == Err("Too few edges, graph must be connected")
      ensures r.Ok? ==>
                var g := r.value;
                && g.numNodes == numNodes && g.deadline == deadline
                && |g.nodeValues| == numNodes
                && (forall i :: 0 <= i < numNodes ==> g.nodeValues[i] == nodeValuesSampleList[valueDraws[i]])
                && |g.edges| == numEdges
                && (forall e :: 0 <= e < numEdges ==>
                      && g.edges[e].eid == e
                      && ValidPair(g.edges[e].pair, numNodes)
                      && g.edges[e].weight == edgeValuesSampleList[weightDraws[e]])
                && (forall a, b :: 0 <= a < b < numEdges ==> g.edges[a].pair != g.edges[b].pair)
                && (forall i :: 0 <= i < numNodes - 1 ==>
                      g.edges[i].pair == PairOf(pathNodes[i], pathNodes[i + 1]))
    {
      if 2 * numEdges > numNodes * (numNodes - 1) {
        return Err("Too many edges");
      }
      if numEdges < numNodes - 1 {
        return Err("Too few edges, graph must be connected");
      }
      var nodeValues := [];
      var i := 0;
      while i < numNodes
        invariant 0 <= i <= numNodes && |nodeValues| == i
        invariant forall j :: 0 <= j < i ==> nodeValues[j] == nodeValuesSampleList[valueDraws[j]]
      {
        nodeValues := nodeValues + [nodeValuesSampleList[valueDraws[i]]];
        i := i + 1;
      }
      var edges, possibleEdges := PathEdges(numNodes, pathNodes, weightDraws, edgeValuesSampleList);
      edges := DrawnEdges(numNodes, numEdges, edges, possibleEdges, weightDraws, edgeDraws, edgeValuesSampleList);
      r := Ok(GeneratedGraph(numNodes, deadline, nodeValues, edges));
    }
  }

  /** The first loop of `generate_graph`: an edge between each two
      consecutive nodes of the shuffled order, each removed from the pool
      of all pairs. */
  method PathEdges(n: int, pathNodes: seq<int>, weightDraws: seq<nat>, sample: seq<int>)
    returns (edges: seq<GenEdge>, possibleEdges: seq<NodePair>)
    requires n >= 1 && IsPermutation(pathNodes, n)
    requires |weightDraws| >= n - 1 && forall i :: 0 <= i < |weightDraws| ==> weightDraws[i] < |sample|
    ensures |edges| == n - 1 && EdgesSoFar(edges, n, weightDraws, sample)
    ensures forall j :: 0 <= j < n - 1 ==> edges[j].pair == PairOf(pathNodes[j], pathNodes[j + 1])
    ensures Pool(possibleEdges, edges, n)
    ensures 2 * (|possibleEdges| + n - 1) == n * (n - 1)
  {
    edges := [];
    possibleEdges := GenerateAllNodePairs(n);
    ghost var total := |possibleEdges|;
    forall a, b | 0 <= a < b < |possibleEdges|
      ensures possibleEdges[a] != possibleEdges[b]
    {
      assert PairLess(possibleEdges[a], possibleEdges[b]);
    }
    var i := 0;
    while i < n - 1
      invariant 0 <= i <= n - 1 && |edges| == i
      invariant EdgesSoFar(edges, n, weightDraws, sample)
      invariant forall j :: 0 <= j < i ==> edges[j].pair == PairOf(pathNodes[j], pathNodes[j + 1])
      invariant Pool(possibleEdges, edges, n)
      invariant |possibleEdges| == total - i
    {
      var edge := PairOf(pathNodes[i], pathNodes[i + 1]);
      PathEdgeNew(pathNodes, n, edges, i);
      edges := edges + [GenEdge(i, edge, sample[weightDraws[i]])];
      possibleEdges := Remove(possibleEdges, edge);
      i := i + 1;
    }
  }

  /** The second loop of `generate_graph`: the remaining edges, each the
      pair at the drawn index of the pool, removed from it once written. */
  method DrawnEdges(n: int, numEdges: int, edges0: seq<GenEdge>, pool0: seq<NodePair>,
                    weightDraws: seq<nat>, edgeDraws: seq<nat>, sample: seq<int>)
    returns (edges: seq<GenEdge>)
    requires n >= 1 && |edges0| == n - 1 <= numEdges && 2 * numEdges <= n * (n - 1)
    requires |weightDraws| >= numEdges && forall i :: 0 <= i < |weightDraws| ==> weightDraws[i] < |sample|
    requires EdgesSoFar(edges0, n, weightDraws, sample) && Pool(pool0, edges0, n)
    requires 2 * (|pool0| + n - 1) == n * (n - 1)
    requires |edgeDraws| >= numEdges - n + 1
    requires forall i :: 0 <= i < |edgeDraws| ==> edgeDraws[i] < n * (n - 1) / 2 - (n - 1) - i
    ensures |edges| == numEdges && EdgesSoFar(edges, n, weightDraws, sample)
    ensures edges[..n - 1] == edges0
  {
    edges := edges0;
    var possibleEdges := pool0;
    var k := 0;
    while k < numEdges - n + 1
      invariant 0 <= k <= numEdges - n + 1 && |edges| == n - 1 + k
      invariant EdgesSoFar(edges, n, weightDraws, sample)
      invariant edges[..n - 1] == edges0
      invariant Pool(possibleEdges, edges, n)
      invariant |possibleEdges| == |pool0| - k
    {
      var edge := possibleEdges[edgeDraws[k]];
      var eid := |edges|;
      edges := edges + [GenEdge(eid, edge, sample[weightDraws[eid]])];
      possibleEdges := Remove(possibleEdges, edge);
      k := k + 1;
    }
  }

  /** The edges written so far: consecutive ids from 0, pairs of distinct
      nodes, no pair twice, weights as drawn. */
  ghost predicate EdgesSoFar(edges: seq<GenEdge>, n: int, weightDraws: seq<nat>, sample: seq<int>)
  {
    && |edges| <= |weightDraws|
    && (forall e :: 0 <= e < |edges| ==>
          && edges[e].eid == e
          && ValidPair(edges[e].pair, n)
          && weightDraws[e] < |sample|
          && edges[e].weight == sample[weightDraws[e]])
    && (forall a, b :: 0 <= a < b < |edges| ==> edges[a].pair != edges[b].pair)
  }

  /** The pool of unused pairs: no pair twice, and exactly the valid pairs
      not yet written. */
  ghost predicate Pool(pool: seq<NodePair>, edges: seq<GenEdge>, n: int)
  {
    && (forall a, b :: 0 <= a < b < |pool| ==> pool[a] != pool[b])
    && (forall p :: p in pool <==> ValidPair(p, n) && forall e :: 0 <= e < |edges| ==> edges[e].pair != p)
  }

  /** The i-th path edge joins two distinct nodes and was not among the
      earlier path edges, since the shuffled order visits every node once. */
  lemma PathEdgeNew(pathNodes: seq<int>, n: int, edges: seq<GenEdge>, i: int)
    requires IsPermutation(pathNodes, n) && 0 <= i < n - 1 && |edges| == i
    requires forall j :: 0 <= j < i ==> edges[j].pair == PairOf(pathNodes[j], pathNodes[j + 1])
    ensures ValidPair(PairOf(pathNodes[i], pathNodes[i + 1]), n)
    ensures forall e :: 0 <= e < |edges| ==> edges[e].pair != PairOf(pathNodes[i], pathNodes[i + 1])
  {
    var p := PairOf(pathNodes[i], pathNodes[i + 1]);
    forall e | 0 <= e < |edges|
      ensures edges[e].pair != p
    {
      var q := PairOf(pathNodes[e], pathNodes[e + 1]);
      if q == p {
        assert false;
      }
    }
  }

  /** Node v is one of the ends of edge e. */
  predicate Touches(e: GenEdge, v: int)
  {
    v == e.pair.lo || v == e.pair.hi
  }

  /** A node id of a graph with n nodes. */
  predicate IsNode(v: int, n: int)
  {
    0 <= v < n
  }

  /** The path edges written first make the graph connected: they are
      the edges between consecutive nodes of an order that visits every
      node, so every node is an end of one of them and each shares an end
      with the next. */
  lemma PathConnects(pathNodes: seq<int>, n: int, edges: seq<GenEdge>)
    requires n >= 2 && IsPermutation(pathNodes, n) && |edges| >= n - 1
    requires forall i :: 0 <= i < n - 1 ==> edges[i].pair == PairOf(pathNodes[i], pathNodes[i + 1])
    ensures forall v :: IsNode(v, n) ==> exists i :: 0 <= i < n - 1 && Touches(edges[i], v)
    ensures forall i :: 1 <= i < n - 1 ==> Touches(edges[i - 1], pathNodes[i]) && Touches(edges[i], pathNodes[i])
  {
    forall v | IsNode(v, n)
      ensures exists i :: 0 <= i < n - 1 && Touches(edges[i], v)
    {
      PermutationCovers(pathNodes, n, v);
      var k :| 0 <= k < n && pathNodes[k] == v;
      var e := if k < n - 1 then k else k - 1;
      var p := PairOf(pathNodes[e], pathNodes[e + 1]);
      assert edges[e].pair == p && v in {pathNodes[e], pathNodes[e + 1]};
      assert Touches(edges[e], v);
    }
    forall i | 1 <= i < n - 1
      ensures Touches(edges[i - 1], pathNodes[i]) && Touches(edges[i], pathNodes[i])
    {
      var p, q := PairOf(pathNodes[i - 1], pathNodes[i]), PairOf(pathNodes[i], pathNodes[i + 1]);
      assert edges[i - 1].pair == p && edges[i].pair == q;
    }
  }

  /** A permutation of 0 .. n-1 contains every node: without v, its n
      distinct entries, renumbered to close the gap at v, would fit in
      0 .. n-2. */
  lemma PermutationCovers(s: seq<int>, n: int, v: int)
    requires IsPermutation(s, n) && 0 <= v < n
    ensures v in s
  {
    if v !in s {
      var t := seq(|s|, i requires 0 <= i < |s| => if s[i] < v then s[i] else s[i] - 1);
      DistinctBounded(t, n - 1);
      assert false;
    }
  }

  /** Distinct entries all below m are at most m in number. */
  lemma {:induction false} DistinctBounded(s: seq<int>, m: nat)
    requires forall i :: 0 <= i < |s| ==> 0 <= s[i] < m
    requires forall i, j :: 0 <= i < j < |s| ==> s[i] != s[j]
    ensures |s| <= m
    decreases |s|
  {
    if s != [] {
      if k :| 0 <= k < |s| && s[k] == m - 1 {
        var rest := s[..k] + s[k + 1..];
        assert forall i :: 0 <= i < |rest| ==> rest[i] == if i < k then s[i] else s[i + 1];
        assert forall i :: 0 <= i < |rest| ==> 0 <= rest[i] < m - 1;
        assert forall i, j :: 0 <= i < j < |rest| ==> rest[i] != rest[j];
        DistinctBounded(rest, m - 1);
      } else {
        assert 0 <= s[0] < m;
        var tail := s[1..];
        assert forall i :: 0 <= i < |tail| ==> tail[i] == s[i + 1];
        assert forall i :: 0 <= i < |tail| ==> 0 <= tail[i] < m - 1;
        DistinctBounded(tail, m - 1);
      }
    }
  }
}
