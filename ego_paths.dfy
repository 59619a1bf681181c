/** The two steps both ego-graph scripts take first: every edge gets the
    cost 1/weight as its 'invweight', and single_source_dijkstra finds, for
    every node, a cheapest path to it from the centre under those costs. */
module EgoPaths {
  import opened Wrappers
  import opened Graphs
  import opened AttrGraphs
  import opened ShortestPaths

  /** ego.edges[edge]['invweight'] = 1./weight.  The zero case does not
      arise: the loop raises on a weight of 0 before storing anything. */
  function Inverse(e: EdgeData): EdgeData {
    e.(invweight := Some(if e.weight == 0 then 0.0 else 1.0 / (e.weight as real)))
  }

  predicate ZeroWeight(a: Adj) {
    exists u, v :: u in a && v in a[u] && a[u][v].weight == 0
  }

  predicate NegativeWeight(a: Adj) {
    exists u, v :: u in a && v in a[u] && a[u][v].weight < 0
  }

  /** The invweight loop: ZeroDivisionError on an edge of weight 0, else
      every edge holds its inverse weight. */
  function InvWeights(s: GraphState): Result<GraphState> {
    if ZeroWeight(s.adj) then Err(ZeroDivisionError)
    else Ok(s.(adj := UpdateEdges(s.adj, s.adj.Keys, Inverse)))
  }

  /** The edge costs single_source_dijkstra reads: 'invweight', or 1 where
      the attribute is missing, networkx's default. */
  function CostsOf(a: Adj): Costs {
    map u | u in a :: (map v | v in a[u] :: a[u][v].invweight.GetOr(1.0))
  }

  /** nx.single_source_dijkstra(ego, centre, weight='invweight'):
      NodeNotFound for a centre outside the graph; a graph with a negative
      weight is not part of this model. */
  function PathTable(s: GraphState, centre: Node): Result<Table> {
    if centre !in s.nodes then Err(NodeNotFound)
    else if NegativeWeight(s.adj) then Err(NotModelled)
    else Dijkstra(CostsOf(s.adj), s.nodes, centre)
  }

  /** The cost of an edge in both scripts: the inverse of its weight. */
  function InverseCosts(a: Adj): Costs {
    map u | u in a :: (map v | v in a[u] :: if a[u][v].weight == 0 then 0.0 else 1.0 / (a[u][v].weight as real))
  }

  /** After the invweight loop the costs Dijkstra reads are 1/weight. */
  lemma CostsOfInverse(s: GraphState)
    requires ValidState(s) && InvWeights(s).Ok?
    ensures CostsOf(InvWeights(s).value.adj) == InverseCosts(s.adj)
  {
    var c := CostsOf(InvWeights(s).value.adj);
    var d := InverseCosts(s.adj);
    assert c.Keys == d.Keys;
    forall u | u in c
      ensures c[u] == d[u]
    {
      assert c[u].Keys == d[u].Keys;
      forall v | v in c[u]
        ensures c[u][v] == d[u][v]
      {
        InvWeightsFacts(s, u, v);
      }
    }
  }

  ghost predicate PositiveWeights(a: Adj) {
    forall u, v {:trigger Linked(a, u, v)} :: Linked(a, u, v) ==> a[u][v].weight > 0
  }

  /** The invweight loop fails exactly on a zero weight; otherwise it keeps
      the nodes, the edges, their weights and the node data, gives every edge
      the invweight 1/weight, and keeps the graph well formed. */
  lemma InvWeightsFacts(s: GraphState, u: Node, v: Node)
    requires ValidState(s)
    ensures InvWeights(s).Err? <==> ZeroWeight(s.adj)
    ensures InvWeights(s).Err? ==> InvWeights(s).error == ZeroDivisionError
    ensures InvWeights(s).Ok? ==> ValidState(InvWeights(s).value)
    ensures InvWeights(s).Ok? ==> InvWeights(s).value.nodes == s.nodes
    ensures InvWeights(s).Ok? ==> InvWeights(s).value.data == s.data
    ensures InvWeights(s).Ok? ==> (Linked(InvWeights(s).value.adj, u, v) <==> Linked(s.adj, u, v))
    ensures InvWeights(s).Ok? && Linked(s.adj, u, v) ==>
      InvWeights(s).value.adj[u][v].weight == s.adj[u][v].weight &&
      InvWeights(s).value.adj[u][v].invweight == Some(1.0 / (s.adj[u][v].weight as real)) &&
      InvWeights(s).value.adj[u][v].strokeWidth == s.adj[u][v].strokeWidth
  {
    if !ZeroWeight(s.adj) {
      UpdateEdgesSymmetric(s.adj, Inverse);
      if Linked(s.adj, u, v) {
        assert s.adj[u][v].weight != 0;
      }
    }
  }

  /** The costs of a well-formed graph with positive weights are those of
      a graph Dijkstra handles: positive and between its nodes. */
  lemma CostsWellFormed(s: GraphState)
    requires ValidState(s) && PositiveWeights(s.adj)
    requires forall u, v {:trigger Linked(s.adj, u, v)} :: Linked(s.adj, u, v) ==>
      s.adj[u][v].invweight == Some(1.0 / (s.adj[u][v].weight as real))
    ensures WellFormed(CostsOf(s.adj), s.nodes) && PositiveCosts(CostsOf(s.adj))
  {
    var c := CostsOf(s.adj);
    forall u, v | Step(c, u, v)
      ensures v in c && c[u][v] > 0.0
    {
      assert Linked(s.adj, u, v);
    }
  }

  /** A walk under the costs is a walk along the graph's edges. */
  lemma StepIsEdge(a: Adj, u: Node, v: Node)
    ensures Step(CostsOf(a), u, v) <==> Linked(a, u, v)
  {
  }

  lemma PositiveAfterInverse(s: GraphState)
    requires ValidState(s) && !ZeroWeight(s.adj) && !NegativeWeight(s.adj)
    ensures PositiveWeights(InvWeights(s).value.adj)
    ensures forall u, v {:trigger Linked(InvWeights(s).value.adj, u, v)} ::
      Linked(InvWeights(s).value.adj, u, v) ==>
        InvWeights(s).value.adj[u][v].invweight == Some(1.0 / (InvWeights(s).value.adj[u][v].weight as real))
  {
    var b := InvWeights(s).value.adj;
    forall u, v | Linked(b, u, v)
      ensures b[u][v].weight > 0
      ensures b[u][v].invweight == Some(1.0 / (b[u][v].weight as real))
    {
      InvWeightsFacts(s, u, v);
    }
  }

  /** Once the costs are set, single_source_dijkstra from a centre of the
      graph fails only on a negative weight.  Otherwise every node it lists
      gets a walk along the graph's edges from the centre to that node,
      whose cost is the sum of 1/weight along it and no more than that of
      any other such walk; every node the centre reaches is listed; and the
      centre gets the trivial path [centre]. */
  lemma PathTableCorrect(s: GraphState, centre: Node, v: Node)
    requires ValidState(s) && InvWeights(s).Ok? && centre in s.adj
    ensures PathTable(InvWeights(s).value, centre).Ok? <==> !NegativeWeight(s.adj)
    ensures PathTable(InvWeights(s).value, centre).Err? ==>
      PathTable(InvWeights(s).value, centre).error == NotModelled
    ensures PathTable(InvWeights(s).value, centre).Ok? && v in PathTable(InvWeights(s).value, centre).value ==>
      IsPath(CostsOf(InvWeights(s).value.adj), PathTable(InvWeights(s).value, centre).value[v].path) &&
      PathTable(InvWeights(s).value, centre).value[v].path[0] == centre &&
      PathTable(InvWeights(s).value, centre).value[v].path[|PathTable(InvWeights(s).value, centre).value[v].path| - 1] == v &&
      Cost(CostsOf(InvWeights(s).value.adj), PathTable(InvWeights(s).value, centre).value[v].path) ==
        PathTable(InvWeights(s).value, centre).value[v].cost
    ensures PathTable(InvWeights(s).value, centre).Ok? ==>
      forall p :: IsPath(CostsOf(InvWeights(s).value.adj), p) && p[0] == centre && p[|p| - 1] == v ==>
        v in PathTable(InvWeights(s).value, centre).value &&
        PathTable(InvWeights(s).value, centre).value[v].cost <= Cost(CostsOf(InvWeights(s).value.adj), p)
    ensures PathTable(InvWeights(s).value, centre).Ok? ==>
      centre in PathTable(InvWeights(s).value, centre).value &&
      PathTable(InvWeights(s).value, centre).value[centre] == Entry(0.0, [centre])
  {
    var s1 := InvWeights(s).value;
    InvWeightsFacts(s, centre, centre);
    assert centre in s1.nodes;
    assert NegativeWeight(s1.adj) <==> NegativeWeight(s.adj) by {
      if NegativeWeight(s.adj) {
        var x, y :| x in s.adj && y in s.adj[x] && s.adj[x][y].weight < 0;
        InvWeightsFacts(s, x, y);
      }
      if NegativeWeight(s1.adj) {
        var x, y :| x in s1.adj && y in s1.adj[x] && s1.adj[x][y].weight < 0;
        InvWeightsFacts(s, x, y);
      }
    }
    if !NegativeWeight(s.adj) {
      PositiveAfterInverse(s);
      CostsWellFormed(s1);
      DijkstraCorrect(CostsOf(s1.adj), s1.nodes, centre, v);
    }
  }

  /** The invweight loop of both scripts, over the nodes in order and the
      edges leaving each. */
  method SetInvWeights(ego: AttrGraph) returns (r: Result<()>)
    requires ValidState(ego.State())
    modifies ego
    ensures r.Err? ==> InvWeights(old(ego.State())) == Err(r.error)
    ensures r.Ok? ==> InvWeights(old(ego.State())) == Ok(ego.State())
  {
    var ns := ego.nodes;
    ghost var a0 := ego.adj;
    ghost var done: set<Node> := {};
    for i := 0 to |ns|
      invariant ego.nodes == ns && ego.data == old(ego.data)
      invariant ego.adj == UpdateEdges(a0, done, Inverse)
      invariant forall x :: x in done <==> x in ns[..i]
      invariant forall x, v :: x in done && v in a0[x] ==> a0[x][v].weight != 0
    {
      var u := ns[i];
      var nb := ego.adj[u];
      assert nb == a0[u];
      if exists v :: v in nb && nb[v].weight == 0 {
        return Err(ZeroDivisionError);
      }
      ego.adj := ego.adj[u := EdgeRow(nb, Inverse)];
      UpdateEdgesStep(a0, done, Inverse, u);
      PrefixStep(ns, i, done);
      done := done + {u};
    }
    assert ns[..|ns|] == ns;
    assert done == a0.Keys;
    return Ok(());
  }
}
