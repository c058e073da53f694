/** The graph helpers: sums and counts of node values, the node-value
    list, get-and-set of a node value, the cheapest neighbour, and the
    nearest people given the results of a shortest-path search. Node ids
    are 0 .. n-1 and node i's `value` attribute is `values[i]`; the
    shortest-path search itself is not part of this model, its distances
    and paths are parameters. */
module GraphUtil {
  import opened Common
  import opened GraphModel

  // ---------------------------------------------------------------------
  // Counting positive nodes

  /** `get_num_positive_nodes`: how many nodes hold people. */
  function CountPositive(values: seq<int>): (c: nat)
    ensures c <= |values|
    ensures c == 0 <==> forall i :: 0 <= i < |values| ==> values[i] <= 0
    ensures c == |values| <==> forall i :: 0 <= i < |values| ==> values[i] > 0
  {
    if values == [] then 0
    else
      var init := values[..|values| - 1];
      assert forall i :: 0 <= i < |init| ==> init[i] == values[i];
      CountPositive(init) + (if values[|values| - 1] > 0 then 1 else 0)
  }

  /** The nodes holding people. */
  ghost function PositiveNodes(values: seq<int>): set<int>
  {
    set i | 0 <= i < |values| && values[i] > 0
  }

  /** The count is the number of nodes holding people. */
  lemma {:induction false} CountPositiveIsSize(values: seq<int>)
    ensures CountPositive(values) == |PositiveNodes(values)|
  {
    if values != [] {
      var n := |values| - 1;
      var init := values[..n];
      CountPositiveIsSize(init);
      assert PositiveNodes(values) == PositiveNodes(init) + (if values[n] > 0 then {n} else {});
    }
  }

  /** Emptying node `node` lowers the count by one exactly when the node
      held people. */
  lemma CountPositiveClear(values: seq<int>, node: int)
    requires 0 <= node < |values|
    ensures CountPositive(values) == CountPositive(values[node := 0]) + (if values[node] > 0 then 1 else 0)
  {
    var cleared := values[node := 0];
    CountPositiveIsSize(values);
    CountPositiveIsSize(cleared);
    if values[node] > 0 {
      assert PositiveNodes(values) == PositiveNodes(cleared) + {node};
    } else {
      assert PositiveNodes(values) == PositiveNodes(cleared);
    }
  }

  /** `get_num_positive_nodes_excluding_current`: the count less one when
      the current node holds people, which is the number of other nodes
      holding people. */
  function NumPositiveExcludingCurrent(values: seq<int>, currnode: int): (c: int)
    requires 0 <= currnode < |values|
    ensures c == CountPositive(values[currnode := 0])
    ensures c == 0 <==> forall i :: 0 <= i < |values| && i != currnode ==> values[i] <= 0
  {
    CountPositiveClear(values, currnode);
    assert forall i :: 0 <= i < |values| && i != currnode ==> values[currnode := 0][i] == values[i];
    CountPositive(values) - (if values[currnode] > 0 then 1 else 0)
  }

  // ---------------------------------------------------------------------
  // Node values

  /** `total_node_value`: the people remaining on the graph. */
  function TotalNodeValue(values: seq<int>): int
  {
    Sum(values)
  }

  /** With no negative node value the total is 0 exactly when no node
      holds people. */
  lemma NoPeopleIffNoPositiveNode(values: seq<int>)
    requires forall i :: 0 <= i < |values| ==> values[i] >= 0
    ensures TotalNodeValue(values) >= 0
    ensures TotalNodeValue(values) == 0 <==> CountPositive(values) == 0
  {
    SumZeroIffAllZero(values);
  }

  lemma {:induction false} SumZeroIffAllZero(s: seq<int>)
    requires forall i :: 0 <= i < |s| ==> s[i] >= 0
    ensures Sum(s) >= 0
    ensures Sum(s) == 0 <==> forall i :: 0 <= i < |s| ==> s[i] == 0
  {
    if s != [] {
      SumZeroIffAllZero(s[1..]);
      assert forall i :: 1 <= i < |s| ==> s[i] == s[1..][i - 1];
    }
  }

  /** The node attributes that `set_node_value` and `gas_node_value`
      update in place. */
  class NodeValues {
    var values: seq<int>

    constructor (values: seq<int>)
      ensures this.values == values
    {
      this.values := values;
    }

    method SetNodeValue(node: int, value: int)
      requires 0 <= node < |values|
      modifies this
      ensures values == old(values)[node := value]
    {
      values := values[node := value];
    }

    /** Get and set: the previous value comes back and the node holds the
        new one; the total changes by the difference. */
    method GasNodeValue(node: int, value: int) returns (prev: int)
      requires 0 <= node < |values|
      modifies this
      ensures prev == old(values)[node] && values == old(values)[node := value]
      ensures TotalNodeValue(values) == TotalNodeValue(old(values)) - prev + value
    {
      prev := values[node];
      values := values[node := value];
      SumUpdate(old(values), node, value);
    }

    /** `graph_to_node_value_list`: a list of n zeros in which every node
        writes its value at its own index. */
    method GraphToNodeValueList() returns (valueList: seq<int>)
      ensures |valueList| == |values|
      ensures forall i :: 0 <= i < |values| ==> valueList[i] == values[i]
    {
      var a := new int[|values|](_ => 0);
      var i := 0;
      while i < |values|
        invariant 0 <= i <= |values| == a.Length
        invariant forall j :: 0 <= j < i ==> a[j] == values[j]
      {
        a[i] := values[i];
        i := i + 1;
      }
      valueList := a[..];
    }
  }

  // ---------------------------------------------------------------------
  // The cheapest neighbour

  /** Edge `a` is no more expensive than `b`: lighter, or as light with an
      edge id no larger. */
  predicate NoDearer(a: Edge, b: Edge)
  {
    a.weight < b.weight || (a.weight == b.weight && a.eid <= b.eid)
  }

  /** `get_minimum_edge_neighbour`: -1 for a node without neighbours;
      otherwise a neighbour whose edge is the lightest, with the smallest
      edge id among the lightest. */
  method GetMinimumEdgeNeighbour(adj: Adjacency, node: int) returns (r: int)
    requires node in adj
    ensures |adj[node]| == 0 ==> r == -1
    ensures |adj[node]| > 0 ==>
              exists k :: 0 <= k < |adj[node]| && r == adj[node][k].nbr
                          && forall j :: 0 <= j < |adj[node]| ==> NoDearer(adj[node][k], adj[node][j])
  {
    var es := adj[node];
    if |es| == 0 {
      return -1;
    }
    var mindest: Option<int> := None;
    var minweight := PosInf;
    var mineid := 0;  // the edge id of the edge to `mindest`
    ghost var k := 0;
    var i := 0;
    while i < |es|
      invariant 0 <= i <= |es| && 0 <= k < |es|
      invariant i == 0 <==> mindest.None?
      invariant mindest.Some? ==> k < i && mindest.value == es[k].nbr
                                  && minweight == Fin(es[k].weight) && mineid == es[k].eid
      invariant forall j :: 0 <= j < i ==> NoDearer(es[k], es[j])
    {
      var weight := es[i].weight;
      if mindest.None? {
        mindest, minweight, mineid, k := Some(es[i].nbr), Fin(weight), es[i].eid, i;
      } else {
        if Lt(Fin(weight), minweight) {
          mindest, minweight, mineid, k := Some(es[i].nbr), Fin(weight), es[i].eid, i;
        } else if Fin(weight) == minweight {
          if es[i].eid < mineid {
            mindest, minweight, mineid, k := Some(es[i].nbr), Fin(weight), es[i].eid, i;
          }
        }
      }
      i := i + 1;
    }
    r := mindest.value;
  }

  /** With distinct edge ids at most one edge is no dearer than all the
      others, so the neighbour found does not depend on the order the
      edges are listed in. */
  lemma CheapestEdgeUnique(es: seq<Edge>, k1: int, k2: int)
    requires forall a, b :: 0 <= a < b < |es| ==> es[a].eid != es[b].eid
    requires 0 <= k1 < |es| && 0 <= k2 < |es|
    requires forall j :: 0 <= j < |es| ==> NoDearer(es[k1], es[j])
    requires forall j :: 0 <= j < |es| ==> NoDearer(es[k2], es[j])
    ensures k1 == k2
  {
    assert NoDearer(es[k1], es[k2]) && NoDearer(es[k2], es[k1]);
  }

  // ---------------------------------------------------------------------
  // The nearest people

  /** A node other than the current one that holds people and that the
      search reached. */
  predicate Target(values: seq<int>, dist: map<int, int>, currnode: int, n: int)
  {
    n in dist && n != currnode && 0 <= n < |values| && values[n] > 0
  }

  /** `get_min_path_value_to_people`: 0 when no node holds people or the
      current one does; otherwise the least distance to another node with
      people, and +inf when the search reached none. The search's distance
      map is `dist`, and `keys` lists its nodes in the map's iteration
      order. */
  method GetMinPathValueToPeople(values: seq<int>, currnode: int, dist: map<int, int>, keys: seq<int>)
    returns (r: Ext)
    requires 0 <= currnode < |values|
    requires forall n :: n in dist ==> 0 <= n < |values|
    requires forall n :: n in dist <==> n in keys
    ensures CountPositive(values) == 0 || values[currnode] > 0 ==> r == Fin(0)
    ensures CountPositive(values) != 0 && values[currnode] <= 0 ==>
              && (r == PosInf <==> forall n :: n in dist ==> !Target(values, dist, currnode, n))
              && (r.Fin? ==> exists n :: Target(values, dist, currnode, n) && dist[n] == r.n)
              && (forall n :: Target(values, dist, currnode, n) ==> Le(r, Fin(dist[n])))
              && !r.NegInf?
  {
    if CountPositive(values) == 0 {
      return Fin(0);
    }
    if values[currnode] > 0 {
      return Fin(0);
    }
    var minValue := PosInf;
    for i := 0 to |keys|
      invariant !minValue.NegInf?
      invariant minValue == PosInf <==> forall j :: 0 <= j < i ==> !Target(values, dist, currnode, keys[j])
      invariant minValue.Fin? ==> exists n :: Target(values, dist, currnode, n) && dist[n] == minValue.n
      invariant forall j :: 0 <= j < i && Target(values, dist, currnode, keys[j]) ==> Le(minValue, Fin(dist[keys[j]]))
    {
      var n := keys[i];
      assert n in keys;
      if n != currnode && values[n] > 0 {
        if Lt(Fin(dist[n]), minValue) {
          minValue := Fin(dist[n]);
        }
      }
    }
    r := minValue;
  }

  /** What the shortest-path search guarantees about a node it reached:
      a path that ends at the node. */
  predicate PathEndsAt(paths: map<int, seq<int>>, n: int)
  {
    n in paths && |paths[n]| > 0 && paths[n][|paths[n]| - 1] == n
  }

  /** `get_min_path_to_people`: nothing when no other node holds people;
      otherwise the path, without its first node, to the nearest other
      node with people, the lowest id winning a tie. Every other node with
      people must have been reached by the search. */
  method GetMinPathToPeople(values: seq<int>, currnode: int, dist: map<int, int>, paths: map<int, seq<int>>)
    returns (r: seq<int>)
    requires 0 <= currnode < |values|
    requires forall i :: 0 <= i < |values| && i != currnode && values[i] > 0 ==> i in dist && PathEndsAt(paths, i)
    ensures NumPositiveExcludingCurrent(values, currnode) == 0 ==> r == []
    ensures NumPositiveExcludingCurrent(values, currnode) != 0 ==>
              exists t :: && Target(values, dist, currnode, t) && PathEndsAt(paths, t)
                          && r == paths[t][1..]
                          && forall i :: Target(values, dist, currnode, i) ==>
                               dist[t] < dist[i] || (dist[t] == dist[i] && t <= i)
  {
    if NumPositiveExcludingCurrent(values, currnode) == 0 {
      return [];
    }
    var minPathValue := PosInf;
    var minPath: seq<int> := [];
    ghost var t := -1;
    var i := 0;
    while i < |values|
      invariant 0 <= i <= |values|
      invariant -1 <= t < i
      invariant t == -1 <==> minPathValue == PosInf
      invariant t == -1 ==> forall j :: 0 <= j < i ==> !Target(values, dist, currnode, j)
      invariant t != -1 ==> && Target(values, dist, currnode, t)
                            && minPathValue == Fin(dist[t]) && minPath == paths[t]
                            && forall j :: 0 <= j < i && Target(values, dist, currnode, j) ==>
                                 dist[t] < dist[j] || (dist[t] == dist[j] && t <= j)
    {
      if i != currnode && values[i] > 0 {
        if Lt(Fin(dist[i]), minPathValue) {
          minPathValue := Fin(dist[i]);
          minPath := paths[i];
          t := i;
        } else if Fin(dist[i]) == minPathValue {
          if i < minPath[|minPath| - 1] {
            minPathValue := Fin(dist[i]);
            minPath := paths[i];
            t := i;
          }
        }
      }
      i := i + 1;
    }
    if t == -1 {
      var j :| 0 <= j < |values| && j != currnode && values[j] > 0;
      assert Target(values, dist, currnode, j);
      assert false;
    }
    r := minPath[1..];
  }
}
