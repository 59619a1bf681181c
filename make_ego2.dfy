/** graph_viz/make_ego2.py: the variant behind the web service.  Its ego
    graph carries on every node the cheapest walk to it from the band, and
    the response lists nodes with their walk and degree and links with
    their score. */
module MakeEgo2 {
  import opened Wrappers
  import opened Graphs
  import opened AttrGraphs
  import opened ShortestPaths
  import opened Extrema
  import opened EgoPaths
  import MakeEgo
  import EgoJson

  // ---------------------------------------------------------------------
  // setShortestPathTo

  /** ego.nodes[end_node]['shortest_path'] = path, for every walk of at
      least one edge; the walk of the band to itself is skipped. */
  function StorePath(t: Table): (Node, NodeData) -> NodeData {
    (n: Node, d: NodeData) => if n in t && |t[n].path| >= 2 then d.(shortestPath := Some(t[n].path)) else d
  }

  /** setShortestPathTo(ego, band_name): ZeroDivisionError for an edge of
      weight 0; single_source_dijkstra's NodeNotFound for a band that is not
      a node. */
  function ShortestPathTo(s: GraphState, centre: Node): Result<GraphState> {
    var s1 :- InvWeights(s);
    var t :- PathTable(s1, centre);
    Ok(s1.(data := UpdateData(s1.data, s1.data.Keys, StorePath(t))))
  }

  /** The errors, in the order they are raised. */
  lemma ShortestPathToError(s: GraphState, centre: Node)
    requires ValidState(s)
    ensures ShortestPathTo(s, centre).Err? <==> ZeroWeight(s.adj) || centre !in s.adj || NegativeWeight(s.adj)
    ensures ZeroWeight(s.adj) ==> ShortestPathTo(s, centre) == Err(ZeroDivisionError)
    ensures !ZeroWeight(s.adj) && centre !in s.adj ==> ShortestPathTo(s, centre) == Err(NodeNotFound)
    ensures !ZeroWeight(s.adj) && centre in s.adj && NegativeWeight(s.adj) ==>
      ShortestPathTo(s, centre) == Err(NotModelled)
  {
    InvWeightsFacts(s, centre, centre);
    if !ZeroWeight(s.adj) && centre in s.adj {
      PathTableCorrect(s, centre, centre);
    }
  }

  /** The stages of a successful call. */
  lemma PathToStages(s: GraphState, centre: Node, r: GraphState) returns (s1: GraphState, t: Table)
    requires ValidState(s) && ShortestPathTo(s, centre) == Ok(r)
    ensures InvWeights(s) == Ok(s1) && PathTable(s1, centre) == Ok(t) && centre in s.adj
    ensures ValidState(s1) && s1.nodes == s.nodes && s1.data == s.data
    ensures r == s1.(data := UpdateData(s1.data, s1.data.Keys, StorePath(t)))
  {
    InvWeightsFacts(s, centre, centre);
    s1 := InvWeights(s).value;
    t := PathTable(s1, centre).value;
  }

  lemma PathToResult(s: GraphState, centre: Node, s1: GraphState, t: Table)
    requires InvWeights(s) == Ok(s1) && PathTable(s1, centre) == Ok(t)
    ensures ShortestPathTo(s, centre) == Ok(s1.(data := UpdateData(s1.data, s1.data.Keys, StorePath(t))))
  {
  }

  /** What a node holds afterwards. */
  lemma PathToData(s: GraphState, centre: Node, r: GraphState, s1: GraphState, t: Table, n: Node)
    requires s1.data == s.data && r == s1.(data := UpdateData(s1.data, s1.data.Keys, StorePath(t)))
    ensures n in r.data <==> n in s.data
    ensures n in s.data ==>
      r.data[n] == if n in t && |t[n].path| >= 2 then s.data[n].(shortestPath := Some(t[n].path)) else s.data[n]
  {
  }

  /** The facts of the table, stated over t and the 1/weight costs. */
  lemma TableFacts(s: GraphState, centre: Node, s1: GraphState, t: Table, v: Node)
    requires ValidState(s) && InvWeights(s) == Ok(s1) && PathTable(s1, centre) == Ok(t) && centre in s.adj
    ensures centre in t && t[centre] == Entry(0.0, [centre])
    ensures v in t ==>
      IsPath(InverseCosts(s.adj), t[v].path) && t[v].path[0] == centre &&
      t[v].path[|t[v].path| - 1] == v && Cost(InverseCosts(s.adj), t[v].path) == t[v].cost
    ensures forall p :: IsPath(InverseCosts(s.adj), p) && p[0] == centre && p[|p| - 1] == v ==>
      v in t && t[v].cost <= Cost(InverseCosts(s.adj), p)
  {
    PathTableCorrect(s, centre, v);
    CostsOfInverse(s);
  }

  /** A walk of at least one edge in the table ends at its key, an existing
      node. */
  lemma PathEnd(s: GraphState, centre: Node, s1: GraphState, t: Table, v: Node)
    requires ValidState(s) && InvWeights(s) == Ok(s1) && PathTable(s1, centre) == Ok(t)
    requires v in t && |t[v].path| >= 2
    ensures Last(t[v].path) == v && v in s.data && v in s1.data
  {
    InvWeightsFacts(s, centre, centre);
    PathTableCorrect(s, centre, v);
    var p := t[v].path;
    LastStep(CostsOf(s1.adj), p);
    StepIsEdge(s1.adj, p[|p| - 2], v);
    assert Linked(s1.adj, p[|p| - 2], v);
  }

  /** The graph keeps its nodes and its edges, and a node changes only in
      'shortest_path'. */
  lemma ShortestPathToKeeps(s: GraphState, centre: Node, r: GraphState, u: Node)
    requires ValidState(s) && ShortestPathTo(s, centre) == Ok(r)
    ensures r.nodes == s.nodes && r.adj == InvWeights(s).value.adj
    ensures u in r.data <==> u in s.data
    ensures u in s.data ==> r.data[u] == s.data[u].(shortestPath := r.data[u].shortestPath)
  {
    var s1, t := PathToStages(s, centre, r);
    PathToData(s, centre, r, s1, t, u);
  }

  /** The result is again a well-formed graph state. */
  lemma ShortestPathToValid(s: GraphState, centre: Node, r: GraphState)
    requires ValidState(s) && ShortestPathTo(s, centre) == Ok(r)
    ensures ValidState(r)
  {
    var s1, t := PathToStages(s, centre, r);
    PathToShape(s, s1, r);
  }

  /** Every edge gets its inverse weight. */
  lemma ShortestPathToInvWeight(s: GraphState, centre: Node, r: GraphState, u: Node, v: Node)
    requires ValidState(s) && ShortestPathTo(s, centre) == Ok(r) && Linked(s.adj, u, v)
    ensures s.adj[u][v].weight != 0 && Linked(r.adj, u, v)
    ensures r.adj[u][v] == s.adj[u][v].(invweight := Some(1.0 / (s.adj[u][v].weight as real)))
  {
    var s1, t := PathToStages(s, centre, r);
    InvWeightEdge(s, s1, u, v);
  }

  lemma PathToShape(s: GraphState, s1: GraphState, r: GraphState)
    requires ValidState(s1) && s1.nodes == s.nodes && r.nodes == s1.nodes && r.adj == s1.adj
    requires r.data.Keys == s1.data.Keys
    ensures ValidState(r) && r.nodes == s.nodes && r.adj == s1.adj
  {
  }

  lemma InvWeightEdge(s: GraphState, s1: GraphState, u: Node, v: Node)
    requires ValidState(s) && InvWeights(s) == Ok(s1)
    ensures Linked(s.adj, u, v) ==>
      s.adj[u][v].weight != 0 && s1.adj[u][v] == s.adj[u][v].(invweight := Some(1.0 / (s.adj[u][v].weight as real)))
  {
    InvWeightsFacts(s, u, v);
    if Linked(s.adj, u, v) {
      assert !ZeroWeight(s.adj);
    }
  }

  /** The band gets no walk. */
  lemma PathToCentre(s: GraphState, centre: Node, r: GraphState)
    requires ValidState(s) && ShortestPathTo(s, centre) == Ok(r)
    requires centre in s.data && s.data[centre].shortestPath.None?
    ensures r.data[centre].shortestPath.None?
  {
    var s1, t := PathToStages(s, centre, r);
    PathToData(s, centre, r, s1, t, centre);
    TableFacts(s, centre, s1, t, centre);
  }

  /** Every other node reachable from the band gets a walk. */
  lemma PathToReached(s: GraphState, centre: Node, r: GraphState, n: Node, q: seq<Node>)
    requires ValidState(s) && ShortestPathTo(s, centre) == Ok(r) && n in s.data && n != centre
    requires IsPath(InverseCosts(s.adj), q) && q[0] == centre && q[|q| - 1] == n
    ensures r.data[n].shortestPath.Some?
  {
    var s1, t := PathToStages(s, centre, r);
    TableReach(s, centre, s1, t, n, q);
    PathToData(s, centre, r, s1, t, n);
  }

  lemma TableReach(s: GraphState, centre: Node, s1: GraphState, t: Table, v: Node, q: seq<Node>)
    requires ValidState(s) && InvWeights(s) == Ok(s1) && PathTable(s1, centre) == Ok(t) && centre in s.adj
    requires IsPath(InverseCosts(s.adj), q) && q[0] == centre && q[|q| - 1] == v && v != centre
    ensures v in t && |t[v].path| >= 2
  {
    TableFacts(s, centre, s1, t, v);
    var p := t[v].path;
    assert p[0] != p[|p| - 1];
  }

  /** p is a walk from c to n, in the 1/weight costs no dearer than any
      other walk from c to n. */
  ghost predicate Cheapest(a: Costs, c: Node, n: Node, p: seq<Node>) {
    IsPath(a, p) && p[0] == c && p[|p| - 1] == n &&
    forall q :: IsPath(a, q) && q[0] == c && q[|q| - 1] == n ==> Cost(a, p) <= Cost(a, q)
  }

  /** A walk stored on a node that had none runs from the band to it over
      at least one edge and costs (in 1/weight) no more than any other such
      walk. */
  lemma PathToOptimal(s: GraphState, centre: Node, r: GraphState, n: Node, p: seq<Node>)
    requires ValidState(s) && ShortestPathTo(s, centre) == Ok(r) && n in s.data
    requires r.data[n].shortestPath == Some(p) && s.data[n].shortestPath.None?
    ensures |p| >= 2 && Cheapest(InverseCosts(s.adj), centre, n, p)
  {
    var s1, t := PathToStages(s, centre, r);
    StoredWalk(s, s1, t, r, n, p);
    TableOptimal(s, centre, s1, t, n, p);
  }

  /** A walk found on a node that had none is the table's entry for it. */
  lemma StoredWalk(s: GraphState, s1: GraphState, t: Table, r: GraphState, n: Node, p: seq<Node>)
    requires s1.data == s.data && r == s1.(data := UpdateData(s1.data, s1.data.Keys, StorePath(t)))
    requires n in s.data && n in r.data && r.data[n].shortestPath == Some(p) && s.data[n].shortestPath.None?
    ensures n in t && |t[n].path| >= 2 && t[n].path == p
  {
  }

  lemma TableOptimal(s: GraphState, centre: Node, s1: GraphState, t: Table, n: Node, p: seq<Node>)
    requires ValidState(s) && InvWeights(s) == Ok(s1) && PathTable(s1, centre) == Ok(t) && centre in s.adj
    requires n in t && |t[n].path| >= 2 && t[n].path == p
    ensures |p| >= 2 && Cheapest(InverseCosts(s.adj), centre, n, p)
  {
    TableFacts(s, centre, s1, t, n);
  }

  /** The costs read the weights only, which the invweight loop keeps. */
  lemma InverseCostsKept(s: GraphState, centre: Node, r: GraphState)
    requires ValidState(s) && ShortestPathTo(s, centre) == Ok(r)
    ensures InverseCosts(r.adj) == InverseCosts(s.adj)
  {
    var s1, t := PathToStages(s, centre, r);
    InverseCostsOf(s, s1);
  }

  lemma InverseCostsOf(s: GraphState, s1: GraphState)
    requires ValidState(s) && InvWeights(s) == Ok(s1)
    ensures InverseCosts(s1.adj) == InverseCosts(s.adj)
  {
    var a, b := InverseCosts(s1.adj), InverseCosts(s.adj);
    forall u | u in s.adj
      ensures u in s1.adj && a[u] == b[u]
    {
      InvWeightsFacts(s, u, u);
      assert u in s1.adj;
      forall v | v in s.adj[u]
        ensures v in s1.adj[u] && s1.adj[u][v].weight == s.adj[u][v].weight
      {
        InvWeightsFacts(s, u, v);
      }
      assert s1.adj[u].Keys == s.adj[u].Keys by {
        forall v | v in s1.adj[u]
          ensures v in s.adj[u]
        {
          InvWeightsFacts(s, u, v);
        }
      }
    }
    assert s1.adj.Keys == s.adj.Keys by {
      forall u | u in s1.adj
        ensures u in s.adj
      {
        InvWeightsFacts(s, u, u);
      }
    }
  }

  /** path[-1] */
  function Last(p: seq<Node>): Node
    requires |p| > 0
  {
    p[|p| - 1]
  }

  /** An entry without an edge leaves the data as it is. */
  lemma StoreSkip(d: Data, t: Table, done: set<Node>, x: Node)
    requires x in t && |t[x].path| < 2
    ensures UpdateData(d, done + {x}, StorePath(t)) == UpdateData(d, done, StorePath(t))
  {
  }

  /** An entry with a walk stores it on its last node. */
  lemma StoreUpdate(d0: Data, t: Table, done: set<Node>, x: Node, d: Data)
    requires x in d0 && x in t && x !in done && |t[x].path| >= 2 && d == UpdateData(d0, done, StorePath(t))
    ensures x in d && UpdateData(d0, done + {x}, StorePath(t)) == d[x := d[x].(shortestPath := Some(t[x].path))]
  {
    UpdateDataStep(d0, done, StorePath(t), x);
  }

  lemma DoneStep(keys: set<Node>, todo: set<Node>, x: Node)
    requires x in todo && todo <= keys
    ensures keys - (todo - {x}) == (keys - todo) + {x}
  {
  }

  lemma DoneAll(keys: set<Node>, todo: set<Node>)
    requires todo == {}
    ensures keys - todo == keys
  {
  }

  lemma StoreAll(d: Data, t: Table)
    ensures UpdateData(d, t.Keys, StorePath(t)) == UpdateData(d, d.Keys, StorePath(t))
  {
  }

  // ---------------------------------------------------------------------
  // makeEgoGraph

  /** makeEgoGraph(band_name, ego_radius): AttributeError before makeGraph. */
  function MakeEgoSpec(graph: Option<Graph>, bandName: string, radius: nat): Result<GraphState>
    requires graph.Some? ==> Valid(graph.value)
  {
    if graph.None? then Err(AttributeError)
    else
      var e :- EgoGraph(graph.value, Name(bandName), radius);
      ShortestPathTo(FromGraph(e), Name(bandName))
  }

  lemma MakeEgoStages(g: Graph, bandName: string, radius: nat, s: GraphState) returns (e: Graph)
    requires Valid(g) && MakeEgoSpec(Some(g), bandName, radius) == Ok(s)
    ensures Name(bandName) in g.adj && EgoGraph(g, Name(bandName), radius) == Ok(e)
    ensures ValidState(FromGraph(e)) && ShortestPathTo(FromGraph(e), Name(bandName)) == Ok(s)
  {
    e := EgoGraph(g, Name(bandName), radius).value;
    FromGraphValid(e);
  }

  /** Without a graph, AttributeError; for a band not in it, NodeNotFound. */
  lemma MakeEgoError(graph: Option<Graph>, bandName: string, radius: nat)
    requires graph.Some? ==> Valid(graph.value)
    ensures graph.None? ==> MakeEgoSpec(graph, bandName, radius) == Err(AttributeError)
    ensures graph.Some? && Name(bandName) !in graph.value.adj ==>
      MakeEgoSpec(graph, bandName, radius) == Err(NodeNotFound)
  {
  }

  /** Every node of the ego graph is at the end of a walk from the band,
      a walk of the cost graph as well. */
  lemma EgoWalk(g: Graph, c: Node, radius: nat, e: Graph, n: Node) returns (w: seq<Node>)
    requires Valid(g) && c in g.adj && EgoGraph(g, c, radius) == Ok(e) && n in FromGraph(e).data
    ensures IsPath(InverseCosts(FromGraph(e).adj), w) && w[0] == c && w[|w| - 1] == n
  {
    w := EgoConnected(g, c, radius, n);
    var a := FromGraph(e).adj;
    forall i | 0 <= i < |w| - 1
      ensures Step(InverseCosts(a), w[i], w[i + 1])
    {
      assert w[i] in e.adj && w[i + 1] in e.adj[w[i]];
    }
  }

  /** In the ego graph every node but the band carries a walk from the band,
      the band none. */
  lemma MakeEgoPaths(g: Graph, bandName: string, radius: nat, s: GraphState, n: Node)
    requires Valid(g) && MakeEgoSpec(Some(g), bandName, radius) == Ok(s) && n in s.data
    ensures n == Name(bandName) <==> s.data[n].shortestPath.None?
  {
    var e := MakeEgoStages(g, bandName, radius, s);
    var s0 := FromGraph(e);
    ShortestPathToKeeps(s0, Name(bandName), s, n);
    ShortestPathToValid(s0, Name(bandName), s);
    if n == Name(bandName) {
      PathToCentre(s0, Name(bandName), s);
    } else {
      var w := EgoWalk(g, Name(bandName), radius, e, n);
      PathToReached(s0, Name(bandName), s, n, w);
    }
  }

  /** The walk stored on a node is a cheapest walk to it from the band in
      the ego graph, by 1/weight. */
  lemma MakeEgoOptimal(g: Graph, bandName: string, radius: nat, s: GraphState, n: Node, p: seq<Node>)
    requires Valid(g) && MakeEgoSpec(Some(g), bandName, radius) == Ok(s)
    requires n in s.data && s.data[n].shortestPath == Some(p)
    ensures |p| >= 2 && p[0] == Name(bandName) && p[|p| - 1] == n
    ensures IsPath(InverseCosts(s.adj), p)
    ensures forall q :: IsPath(InverseCosts(s.adj), q) && q[0] == Name(bandName) && q[|q| - 1] == n ==>
      Cost(InverseCosts(s.adj), p) <= Cost(InverseCosts(s.adj), q)
  {
    var e := MakeEgoStages(g, bandName, radius, s);
    var s0 := FromGraph(e);
    ShortestPathToKeeps(s0, Name(bandName), s, n);
    ShortestPathToValid(s0, Name(bandName), s);
    PathToOptimal(s0, Name(bandName), s, n, p);
    InverseCostsKept(s0, Name(bandName), s);
  }

  // ---------------------------------------------------------------------
  // makeResponse

  datatype ResponseNode = ResponseNode(name: string, shortestPath: seq<Node>, degree: nat)

  datatype ResponseLink = ResponseLink(source: Node, target: Node, simScore: int)

  datatype Response = Response(nodes: seq<ResponseNode>, links: seq<ResponseLink>, minSimScore: int, maxSimScore: int)

  function ResponseNodes(s: GraphState): (r: seq<ResponseNode>)
    requires ValidState(s)
    ensures |r| == |s.nodes|
  {
    seq(|s.nodes|, i requires 0 <= i < |s.nodes| =>
      ResponseNode(EgoJson.NodeName(s.nodes[i]), s.data[s.nodes[i]].shortestPath.GetOr([]), Degree(s.adj, s.nodes[i])))
  }

  function ResponseLinks(s: GraphState): (r: seq<ResponseLink>)
    ensures |r| == |EdgeList(s.nodes, s.adj)|
  {
    var es := EdgeList(s.nodes, s.adj);
    assert forall k :: 0 <= k < |es| ==> Linked(s.adj, es[k].0, es[k].1) by {
      forall k | 0 <= k < |es|
        ensures Linked(s.adj, es[k].0, es[k].1)
      {
        EdgeListEdges(s, es[k]);
      }
    }
    seq(|es|, k requires 0 <= k < |es| => ResponseLink(es[k].0, es[k].1, s.adj[es[k].0][es[k].1].weight))
  }

  function SimScores(ls: seq<ResponseLink>): (r: seq<int>)
    ensures |r| == |ls| && forall k :: 0 <= k < |ls| ==> r[k] == ls[k].simScore
  {
    seq(|ls|, k requires 0 <= k < |ls| => ls[k].simScore)
  }

  /** makeResponse(ego) before json.dumps: ValueError from min() on a graph
      without edges. */
  function MakeResponse(s: GraphState): Result<Response>
    requires ValidState(s)
  {
    var ns := ResponseNodes(s);
    var ls := ResponseLinks(s);
    if ls == [] then Err(ValueError)
    else Ok(Response(ns, ls, MinInt(SimScores(ls)), MaxInt(SimScores(ls))))
  }

  predicate Joins(l: ResponseLink, u: Node, v: Node) {
    l.source == u && l.target == v
  }

  /** The response fails exactly for a graph without edges. */
  lemma ResponseError(s: GraphState)
    requires ValidState(s)
    ensures MakeResponse(s).Err? <==> forall u, v :: !Linked(s.adj, u, v)
    ensures MakeResponse(s).Err? ==> MakeResponse(s).error == ValueError
  {
    EgoJson.EdgesListed(s);
  }

  lemma ResponseParts(s: GraphState, r: Response)
    requires ValidState(s) && MakeResponse(s) == Ok(r)
    ensures r.nodes == ResponseNodes(s) && r.links == ResponseLinks(s)
  {
  }

  /** Every node has exactly one entry, at its place in the node order,
      with its name, its walk or [] and its degree. */
  lemma ResponseNodeEntry(s: GraphState, r: Response, n: Node) returns (i: nat)
    requires ValidState(s) && MakeResponse(s) == Ok(r) && n in s.nodes
    ensures i < |r.nodes| && s.nodes[i] == n && |r.nodes| == |s.nodes|
    ensures r.nodes[i] == ResponseNode(EgoJson.NodeName(n), s.data[n].shortestPath.GetOr([]), Degree(s.adj, n))
    ensures forall k :: 0 <= k < |s.nodes| && k != i ==> s.nodes[k] != n
  {
    ResponseParts(s, r);
    i :| 0 <= i < |s.nodes| && s.nodes[i] == n;
  }

  /** Every edge has a link, in one of its two directions, with its weight
      as the score. */
  lemma ResponseLinkOfEdge(s: GraphState, r: Response, u: Node, v: Node) returns (k: nat)
    requires ValidState(s) && MakeResponse(s) == Ok(r) && Linked(s.adj, u, v)
    ensures k < |r.links| && (Joins(r.links[k], u, v) || Joins(r.links[k], v, u))
    ensures r.links[k].simScore == s.adj[u][v].weight
  {
    ResponseParts(s, r);
    k := EdgeListIndex(s, u, v);
    assert Linked(s.adj, v, u);
  }

  /** Every link is an edge, and no link comes twice. */
  lemma ResponseLinkIsEdge(s: GraphState, r: Response, k: nat)
    requires ValidState(s) && MakeResponse(s) == Ok(r) && k < |r.links|
    ensures Linked(s.adj, r.links[k].source, r.links[k].target)
    ensures r.links[k].simScore == s.adj[r.links[k].source][r.links[k].target].weight
  {
    ResponseParts(s, r);
    EdgeListEdges(s, EdgeList(s.nodes, s.adj)[k]);
  }

  lemma ResponseLinksDistinct(s: GraphState, r: Response)
    requires ValidState(s) && MakeResponse(s) == Ok(r)
    ensures forall a, b :: 0 <= a < b < |r.links| ==> r.links[a] != r.links[b]
  {
    ResponseParts(s, r);
    var es := EdgeList(s.nodes, s.adj);
    EdgeListDistinct(s.nodes, s.adj);
    forall a, b | 0 <= a < b < |r.links|
      ensures r.links[a] != r.links[b]
    {
      assert es[a] != es[b];
    }
  }

  /** min_sim_score and max_sim_score are scores of links and bound all of
      them. */
  lemma ResponseBounds(s: GraphState, r: Response)
    requires ValidState(s) && MakeResponse(s) == Ok(r)
    ensures forall k :: 0 <= k < |r.links| ==> r.minSimScore <= r.links[k].simScore <= r.maxSimScore
    ensures exists k :: 0 <= k < |r.links| && r.links[k].simScore == r.minSimScore
    ensures exists k :: 0 <= k < |r.links| && r.links[k].simScore == r.maxSimScore
  {
    var ss := SimScores(r.links);
    var c :| 0 <= c < |ss| && ss[c] == r.minSimScore;
    var d :| 0 <= d < |ss| && ss[d] == r.maxSimScore;
  }

  // ---------------------------------------------------------------------
  // The object

  class EgoGraphs {
    var bandsList: Option<seq<(int, string)>>
    var simList: Option<seq<Row>>
    var bandIdToBand: Option<map<int, string>>
    var edgeList: Option<seq<Row>>
    /** self.G, None until makeGraph has run. */
    var graph: Option<Graph>

    /** readDatabase sets the four lists together and makeGraph deletes
        them together. */
    ghost predicate Valid()
      reads this
    {
      bandsList.Some? == simList.Some? == bandIdToBand.Some? == edgeList.Some? &&
      (graph.Some? ==> Graphs.Valid(graph.value))
    }

    /** EgoGraphs(): no attribute is set. */
    constructor ()
      ensures bandsList.None? && simList.None? && bandIdToBand.None? && edgeList.None? && graph.None?
      ensures Valid()
    {
      bandsList, simList, bandIdToBand, edgeList := None, None, None, None;
      graph := None;
    }

    /** readDatabase(database), with the two query results as parameters. */
    method ReadDatabase(bands: seq<(int, string)>, sims: seq<Row>)
      requires Valid()
      modifies this
      ensures Valid()
      ensures bandsList == Some(bands) && simList == Some(sims)
      ensures bandIdToBand == Some(MakeEgo.BandMap(bands)) && edgeList == Some(sims)
      ensures graph == old(graph)
    {
      bandsList := Some(bands);
      simList := Some(sims);
      bandIdToBand := Some(MakeEgo.BandMap(bands));
      edgeList := Some(seq(|sims|, i requires 0 <= i < |sims| => Row(sims[i].bandId, sims[i].similarToId, sims[i].score)));
      assert edgeList.value == sims;
    }

    /** makeGraph(): AttributeError before readDatabase; then the graph, and
        the lists deleted, so that a second call raises AttributeError. */
    method MakeGraph() returns (r: Result<()>)
      requires Valid()
      modifies this
      ensures Valid()
      ensures old(edgeList).None? ==> r == Err(AttributeError)
      ensures old(edgeList).Some? ==>
        (r.Ok? <==> MakeEgo.MakeGraphSpec(old(bandIdToBand).value, old(edgeList).value).Ok?)
      ensures r.Err? ==> unchanged(this)
      ensures r.Ok? ==> graph == Some(MakeEgo.MakeGraphSpec(old(bandIdToBand).value, old(edgeList).value).value)
      ensures r.Ok? ==> bandsList.None? && simList.None? && bandIdToBand.None? && edgeList.None?
    {
      if edgeList.None? || bandIdToBand.None? {
        return Err(AttributeError);
      }
      var g := MakeEgo.MakeGraphSpec(bandIdToBand.value, edgeList.value);
      if g.Err? {
        return Err(g.error);
      }
      graph := Some(g.value);
      bandsList := None;
      simList := None;
      bandIdToBand := None;
      edgeList := None;
      return Ok(());
    }

    /** setShortestPathTo(ego, band_name): the walks stored one entry of the
        table at a time, in whatever order the table is read. */
    method SetShortestPathTo(ego: AttrGraph, bandName: string) returns (r: Result<()>)
      requires ValidState(ego.State())
      modifies ego
      ensures r.Ok? ==> ShortestPathTo(old(ego.State()), Name(bandName)) == Ok(ego.State())
      ensures r.Err? ==> ShortestPathTo(old(ego.State()), Name(bandName)) == Err(r.error)
    {
      ghost var s0 := ego.State();
      var centre := Name(bandName);
      InvWeightsFacts(s0, centre, centre);
      r := SetInvWeights(ego);
      if r.Err? {
        return;
      }
      ghost var s1 := ego.State();
      var paths := PathTable(ego.State(), centre);
      if paths.Err? {
        return Err(paths.error);
      }
      var t := paths.value;
      StoreWalks(ego, t, s0, centre, s1);
      PathToResult(s0, centre, s1, t);
      assert ego.State() == s1.(data := ego.data);
      return Ok(());
    }

    /** The loop of setShortestPathTo: each walk of two or more nodes stored
        on its last node. */
    method StoreWalks(ego: AttrGraph, t: Table, ghost s0: GraphState, centre: Node, ghost s1: GraphState)
      requires ValidState(s0) && InvWeights(s0) == Ok(s1) && PathTable(s1, centre) == Ok(t)
      requires ego.nodes == s1.nodes && ego.adj == s1.adj && ego.data == s1.data
      modifies ego
      ensures ego.nodes == s1.nodes && ego.adj == s1.adj
      ensures ego.data == UpdateData(s1.data, s1.data.Keys, StorePath(t))
    {
      var todo := t.Keys;
      while todo != {}
        invariant todo <= t.Keys
        invariant ego.nodes == s1.nodes && ego.adj == s1.adj
        invariant ego.data == UpdateData(s1.data, t.Keys - todo, StorePath(t))
        decreases |todo|
      {
        var target :| target in todo;
        ghost var done := t.Keys - todo;
        var walk := t[target].path;
        if |walk| == 0 {
          // 'missing a path': only printed
          StoreSkip(s1.data, t, done, target);
        } else if |walk| == 1 {
          // the band itself
          StoreSkip(s1.data, t, done, target);
        } else {
          PathEnd(s0, centre, s1, t, target);
          StoreUpdate(s1.data, t, done, target, ego.data);
          var end := Last(walk);
          ego.SetNode(end, ego.data[end].(shortestPath := Some(walk)));
        }
        DoneStep(t.Keys, todo, target);
        todo := todo - {target};
      }
      DoneAll(t.Keys, todo);
      StoreAll(s1.data, t);
    }

    /** makeEgoGraph(band_name, ego_radius) */
    method MakeEgoGraph(bandName: string, egoRadius: nat) returns (r: Result<AttrGraph>)
      requires Valid()
      ensures r.Ok? ==> fresh(r.value) && MakeEgoSpec(graph, bandName, egoRadius) == Ok(r.value.State())
      ensures r.Err? ==> MakeEgoSpec(graph, bandName, egoRadius) == Err(r.error)
    {
      if graph.None? {
        return Err(AttributeError);
      }
      var e := EgoGraph(graph.value, Name(bandName), egoRadius);
      if e.Err? {
        return Err(e.error);
      }
      var ego := new AttrGraph(e.value);
      FromGraphValid(e.value);
      var paths := SetShortestPathTo(ego, bandName);
      if paths.Err? {
        return Err(paths.error);
      }
      return Ok(ego);
    }
  }
}
