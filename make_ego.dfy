/** graph_viz/make_ego.py: the similarity graph of all bands, the ego graph
    of one band in it, the radius of every node and the width of every edge
    for drawing it.  The database rows are parameters of the constructor. */
module MakeEgo {
  import opened Wrappers
  import opened Graphs
  import opened AttrGraphs
  import opened ShortestPaths
  import opened Partition
  import opened Extrema
  import opened EgoPaths
  import opened NodeRadii
  import opened RadiiPipeline
  import opened StrokeWidths
  import opened EgoJson

  // ---------------------------------------------------------------------
  // readDatabase and makeGraph

  /** {band_id: band for band_id, band in bands_list}: a later pair for the
      same id wins. */
  function BandMap(bands: seq<(int, string)>): map<int, string>
    decreases |bands|
  {
    if bands == [] then map[]
    else BandMap(bands[..|bands| - 1])[bands[|bands| - 1].0 := bands[|bands| - 1].1]
  }

  /** Every listed id is a key, with the name of its last pair; nothing else
      is a key. */
  lemma {:induction false} BandMapLast(bands: seq<(int, string)>, i: nat)
    requires i < |bands| && forall j :: i < j < |bands| ==> bands[j].0 != bands[i].0
    ensures bands[i].0 in BandMap(bands) && BandMap(bands)[bands[i].0] == bands[i].1
    decreases |bands|
  {
    if i < |bands| - 1 {
      var init := bands[..|bands| - 1];
      assert forall j :: i < j < |init| ==> init[j] == bands[j];
      BandMapLast(init, i);
    }
  }

  lemma {:induction false} BandMapKeys(bands: seq<(int, string)>, k: int)
    ensures k in BandMap(bands) <==> exists i :: 0 <= i < |bands| && bands[i].0 == k
    decreases |bands|
  {
    if bands != [] {
      var init := bands[..|bands| - 1];
      BandMapKeys(init, k);
      if exists i :: 0 <= i < |init| && init[i].0 == k {
        var i :| 0 <= i < |init| && init[i].0 == k;
        assert bands[i].0 == k;
      }
      if exists i :: 0 <= i < |bands| && bands[i].0 == k {
        var i :| 0 <= i < |bands| && bands[i].0 == k;
        if i < |init| {
          assert init[i].0 == k;
        }
      }
    }
  }

  /** No two nodes get the same name. */
  predicate RelabelDistinct(names: map<int, string>, ns: seq<Node>) {
    forall i, j :: 0 <= i < j < |ns| ==> Relabel(names, ns[i]) != Relabel(names, ns[j])
  }

  lemma RelabelDistinctInjective(names: map<int, string>, g: Graph)
    requires Valid(g) && RelabelDistinct(names, g.nodes)
    ensures InjectiveOn(names, g)
  {
    forall x, y | x in g.adj && y in g.adj && Relabel(names, x) == Relabel(names, y)
      ensures x == y
    {
      var i :| 0 <= i < |g.nodes| && g.nodes[i] == x;
      var j :| 0 <= j < |g.nodes| && g.nodes[j] == y;
      assert i == j;
    }
  }

  /** makeGraph: the graph of the similarity rows with every band id that
      has a name renamed to it.  Two nodes given one name would be merged
      by relabel_nodes; that case is not part of this model. */
  function MakeGraphSpec(names: map<int, string>, rows: seq<Row>): (r: Result<Graph>)
    ensures r.Ok? ==> Valid(r.value)
    ensures r.Err? <==> !RelabelDistinct(names, Build(rows).nodes)
    ensures r.Err? ==> r.error == NotModelled
  {
    var g := Build(rows);
    if !RelabelDistinct(names, g.nodes) then Err(NotModelled)
    else
      RelabelDistinctInjective(names, g);
      RelabelValid(names, g);
      Ok(RelabelGraph(names, g))
  }

  /** The nodes of the graph are the renamed ids of the rows. */
  lemma MakeGraphNodes(names: map<int, string>, rows: seq<Row>, x: Node)
    requires MakeGraphSpec(names, rows).Ok?
    ensures HasEndpoint(rows, x) ==> Relabel(names, x) in MakeGraphSpec(names, rows).value.adj
  {
    var g := Build(rows);
    RelabelDistinctInjective(names, g);
    BuildNodes(rows, x);
    if HasEndpoint(rows, x) {
      RelabelEdges(names, g, x, x);
    }
  }

  lemma MakeGraphNodesFrom(names: map<int, string>, rows: seq<Row>, u: Node) returns (x: Node)
    requires MakeGraphSpec(names, rows).Ok? && u in MakeGraphSpec(names, rows).value.adj
    ensures HasEndpoint(rows, x) && u == Relabel(names, x)
  {
    var g := Build(rows);
    RelabelDistinctInjective(names, g);
    x := RelabelNodes(names, g, u);
    BuildNodes(rows, x);
  }

  /** Two renamed ids are joined exactly when some row joins them, with the
      score of the last such row as the weight. */
  lemma MakeGraphEdges(names: map<int, string>, rows: seq<Row>, x: Node, y: Node)
    requires MakeGraphSpec(names, rows).Ok? && HasEndpoint(rows, x) && HasEndpoint(rows, y)
    ensures Adjacent(MakeGraphSpec(names, rows).value, Relabel(names, x), Relabel(names, y)) <==>
      LastScore(rows, x, y).Some?
    ensures LastScore(rows, x, y).Some? ==>
      MakeGraphSpec(names, rows).value.adj[Relabel(names, x)][Relabel(names, y)] == LastScore(rows, x, y).value
  {
    var g := Build(rows);
    RelabelDistinctInjective(names, g);
    BuildNodes(rows, x);
    BuildNodes(rows, y);
    BuildEdges(rows, x, y);
    RelabelEdges(names, g, x, y);
  }

  // ---------------------------------------------------------------------
  // makeEgoGraph

  /** makeEgoGraph(band_name, ego_radius): the ego graph, its node radii by
      'shortest_path' and its edge widths by 'weight_simple'. */
  function MakeEgoSpec(graph: Result<Graph>, bandName: string, radius: nat, agg: seq<real> -> real,
                       compress: real -> real): Result<GraphState>
    requires graph.Ok? ==> Valid(graph.value)
  {
    var g :- graph;
    var e :- EgoGraph(g, Name(bandName), radius);
    var s :- SetNodeRadiiSpec(FromGraph(e), Name(bandName), "shortest_path", agg);
    EdgeStrokeWidths(s, "weight_simple", compress)
  }

  /** The states of a successful makeEgoGraph. */
  lemma MakeEgoStages(g: Graph, bandName: string, radius: nat, agg: seq<real> -> real,
                      compress: real -> real, s: GraphState) returns (e: Graph, s7: GraphState)
    requires Valid(g) && MakeEgoSpec(Ok(g), bandName, radius, agg, compress) == Ok(s)
    ensures Name(bandName) in g.adj && EgoGraph(g, Name(bandName), radius) == Ok(e)
    ensures ValidState(FromGraph(e)) && Fresh(FromGraph(e))
    ensures ShortestPathRadii(FromGraph(e), Name(bandName), agg) == Ok(s7)
    ensures ValidState(s7) && EdgeStrokeWidths(s7, "weight_simple", compress) == Ok(s)
  {
    e := EgoGraph(g, Name(bandName), radius).value;
    FromGraphValid(e);
    s7 := ShortestPathRadii(FromGraph(e), Name(bandName), agg).value;
    RadiiNoIsolated(FromGraph(e), Name(bandName), agg, s7, Name(bandName));
  }

  /** A band that is not a node of the graph raises NodeNotFound. */
  lemma MakeEgoUnknown(g: Graph, bandName: string, radius: nat, agg: seq<real> -> real, compress: real -> real)
    requires Valid(g) && Name(bandName) !in g.adj
    ensures MakeEgoSpec(Ok(g), bandName, radius, agg, compress) == Err(NodeNotFound)
  {
  }

  /** A band without neighbours has an ego graph of itself alone, nothing
      in it is scored, and the trim raises IndexError. */
  lemma MakeEgoLoneBand(g: Graph, bandName: string, radius: nat, agg: seq<real> -> real, compress: real -> real)
    requires Valid(g) && Name(bandName) in g.adj && g.adj[Name(bandName)] == map[]
    ensures MakeEgoSpec(Ok(g), bandName, radius, agg, compress) == Err(IndexError)
  {
    var c := Name(bandName);
    WithinLone(g, c, radius);
    var e := EgoGraph(g, c, radius).value;
    assert e == Induced(g, {c});
    LoneFilter(g.nodes, c);
    FromGraphValid(e);
    var s0 := FromGraph(e);
    assert s0.nodes == [c] && s0.adj[c] == map[];
    RadiiLoneCentre(s0, c, agg);
  }

  /** Only the centre itself is within any number of hops of a node
      without neighbours. */
  lemma {:induction false} WithinLone(g: Graph, c: Node, k: nat)
    requires c in g.adj && g.adj[c] == map[]
    ensures Within(g, c, k) == {c}
    decreases k
  {
    if k > 0 {
      WithinLone(g, c, k - 1);
      assert NeighbourSet(g, {c}) == {};
    }
  }

  /** Keeping one listed node of a list without repeats leaves that node. */
  lemma {:induction false} LoneFilter(ns: seq<Node>, c: Node)
    requires Distinct(ns) && c in ns
    ensures Filter(ns, {c}) == [c]
    decreases |ns|
  {
    assert Distinct(ns[1..]) by {
      assert forall i :: 0 <= i < |ns| - 1 ==> ns[1..][i] == ns[i + 1];
    }
    if ns[0] == c {
      assert c !in ns[1..] by {
        assert forall i :: 0 <= i < |ns| - 1 ==> ns[1..][i] == ns[i + 1] != ns[0];
      }
      FilterNone(ns[1..], c);
    } else {
      LoneFilter(ns[1..], c);
    }
  }

  lemma {:induction false} FilterNone(ns: seq<Node>, c: Node)
    requires c !in ns
    ensures Filter(ns, {c}) == []
    decreases |ns|
  {
    if ns != [] {
      FilterNone(ns[1..], c);
    }
  }

  /** Every node of the drawn ego graph is reachable from the band by at
      most radius edges of the graph, and has an edge. */
  lemma MakeEgoNodes(g: Graph, bandName: string, radius: nat, agg: seq<real> -> real,
                     compress: real -> real, s: GraphState, n: Node)
    requires Valid(g) && MakeEgoSpec(Ok(g), bandName, radius, agg, compress) == Ok(s)
    requires n in s.adj
    ensures exists w :: IsWalk(g, w) && w[0] == Name(bandName) && w[|w| - 1] == n && |w| <= radius + 1
    ensures Degree(s.adj, n) > 0
  {
    var e, s7 := MakeEgoStages(g, bandName, radius, agg, compress, s);
    StageNodes(g, Name(bandName), radius, agg, compress, e, s7, s, n);
  }

  lemma StageNodes(g: Graph, c: Node, radius: nat, agg: seq<real> -> real, compress: real -> real,
                   e: Graph, s7: GraphState, s: GraphState, n: Node)
    requires Valid(g) && c in g.adj && EgoGraph(g, c, radius) == Ok(e)
    requires ValidState(FromGraph(e)) && Fresh(FromGraph(e))
    requires ShortestPathRadii(FromGraph(e), c, agg) == Ok(s7)
    requires ValidState(s7) && EdgeStrokeWidths(s7, "weight_simple", compress) == Ok(s)
    requires n in s.adj
    ensures exists w :: IsWalk(g, w) && w[0] == c && w[|w| - 1] == n && |w| <= radius + 1
    ensures Degree(s.adj, n) > 0
  {
    SameDegree(s7, compress, s, n);
    RadiiSubgraph(FromGraph(e), c, agg, s7, n, n);
    EgoGraphNodes(g, c, radius, n);
    RadiiNoIsolated(FromGraph(e), c, agg, s7, n);
  }

  /** The widths keep every degree. */
  lemma SameDegree(s7: GraphState, compress: real -> real, s: GraphState, n: Node)
    requires ValidState(s7) && EdgeStrokeWidths(s7, "weight_simple", compress) == Ok(s) && n in s.adj
    ensures n in s7.adj && Degree(s.adj, n) == Degree(s7.adj, n)
  {
    var ws := Weights(s7);
    UpdateEdgesSymmetric(s7.adj, WidthEdge(MinInt(ws), MaxInt(ws), compress));
    assert s.adj[n].Keys == s7.adj[n].Keys;
  }

  /** Every edge of the drawn ego graph is an edge of the graph with its
      weight, and with a compressor its width lies in [1.5, 4]. */
  lemma MakeEgoEdges(g: Graph, bandName: string, radius: nat, agg: seq<real> -> real,
                     compress: real -> real, s: GraphState, u: Node, v: Node)
    requires Valid(g) && MakeEgoSpec(Ok(g), bandName, radius, agg, compress) == Ok(s)
    requires Linked(s.adj, u, v)
    ensures u in g.adj && v in g.adj[u] && s.adj[u][v].weight == g.adj[u][v]
    ensures g.adj[u][v] != 0 && s.adj[u][v].invweight == Some(1.0 / (g.adj[u][v] as real))
    ensures IsCompressor(compress) ==>
      s.adj[u][v].strokeWidth.Some? && MinWidth <= s.adj[u][v].strokeWidth.value <= MaxWidth
  {
    var e, s7 := MakeEgoStages(g, bandName, radius, agg, compress, s);
    StageEdges(g, Name(bandName), radius, agg, compress, e, s7, s, u, v);
  }

  lemma StageEdges(g: Graph, c: Node, radius: nat, agg: seq<real> -> real, compress: real -> real,
                   e: Graph, s7: GraphState, s: GraphState, u: Node, v: Node)
    requires Valid(g) && c in g.adj && EgoGraph(g, c, radius) == Ok(e)
    requires ValidState(FromGraph(e)) && Fresh(FromGraph(e))
    requires ShortestPathRadii(FromGraph(e), c, agg) == Ok(s7)
    requires ValidState(s7) && EdgeStrokeWidths(s7, "weight_simple", compress) == Ok(s)
    requires Linked(s.adj, u, v)
    ensures u in g.adj && v in g.adj[u] && s.adj[u][v].weight == g.adj[u][v]
    ensures g.adj[u][v] != 0 && s.adj[u][v].invweight == Some(1.0 / (g.adj[u][v] as real))
    ensures IsCompressor(compress) ==>
      s.adj[u][v].strokeWidth.Some? && MinWidth <= s.adj[u][v].strokeWidth.value <= MaxWidth
  {
    StrokeWidthsKeeps(s7, "weight_simple", compress, u, v);
    RadiiSubgraph(FromGraph(e), c, agg, s7, u, v);
    assert Linked(FromGraph(e).adj, u, v);
    assert v in e.adj by {
      assert Valid(e);
    }
    EgoGraphEdges(g, c, radius, u, v);
    if IsCompressor(compress) {
      StrokeWidthsRange(s7, "weight_simple", compress, u, v);
    }
  }

  /** The band keeps the centre radius and no radial force; every other
      node has a radius in [3, 10] and a force factor in [0, 1]. */
  lemma MakeEgoRadii(g: Graph, bandName: string, radius: nat, agg: seq<real> -> real,
                     compress: real -> real, s: GraphState, n: Node)
    requires Valid(g) && MakeEgoSpec(Ok(g), bandName, radius, agg, compress) == Ok(s)
    requires n in s.data
    ensures n == Name(bandName) ==> s.data[n] == NodeData(Some(CentreRadius), None, None, Some(0.0), None)
    ensures n != Name(bandName) ==>
      s.data[n].radius.Some? && MinRadius <= s.data[n].radius.value <= MaxRadius &&
      s.data[n].forceRadialFactor.Some? && 0.0 <= s.data[n].forceRadialFactor.value <= 1.0
  {
    var e, s7 := MakeEgoStages(g, bandName, radius, agg, compress, s);
    StageRadii(Name(bandName), agg, compress, e, s7, s, n);
  }

  lemma StageRadii(c: Node, agg: seq<real> -> real, compress: real -> real,
                   e: Graph, s7: GraphState, s: GraphState, n: Node)
    requires ValidState(FromGraph(e)) && Fresh(FromGraph(e))
    requires ShortestPathRadii(FromGraph(e), c, agg) == Ok(s7)
    requires ValidState(s7) && EdgeStrokeWidths(s7, "weight_simple", compress) == Ok(s)
    requires n in s.data
    ensures s.data[n].radius.Some? && s.data[n].forceRadialFactor.Some?
    ensures 0.0 <= s.data[n].forceRadialFactor.value <= 1.0
    ensures n == c ==> s.data[n] == NodeData(Some(CentreRadius), None, None, Some(0.0), None)
    ensures n != c ==> MinRadius <= s.data[n].radius.value <= MaxRadius
  {
    StrokeWidthsKeeps(s7, "weight_simple", compress, n, n);
    RadiiRanges(FromGraph(e), c, agg, s7, n);
    if n == c {
      RadiiCentre(FromGraph(e), c, agg, s7);
    }
  }

  /** writeJSON after makeEgoGraph never fails: every node has a radius and
      a force factor, every edge a width, and there is at least one edge. */
  lemma MakeEgoJson(g: Graph, bandName: string, radius: nat, agg: seq<real> -> real,
                    compress: real -> real, s: GraphState)
    requires Valid(g) && MakeEgoSpec(Ok(g), bandName, radius, agg, compress) == Ok(s)
    ensures JsonData(s).Ok?
  {
    var e, s7 := MakeEgoStages(g, bandName, radius, agg, compress, s);
    StageJson(Name(bandName), agg, compress, e, s7, s);
  }

  lemma StageJson(c: Node, agg: seq<real> -> real, compress: real -> real,
                  e: Graph, s7: GraphState, s: GraphState)
    requires ValidState(FromGraph(e)) && Fresh(FromGraph(e))
    requires ShortestPathRadii(FromGraph(e), c, agg) == Ok(s7)
    requires ValidState(s7) && EdgeStrokeWidths(s7, "weight_simple", compress) == Ok(s)
    ensures JsonData(s).Ok?
  {
    StrokeWidthsKeeps(s7, "weight_simple", compress, c, c);
    StageNodesComplete(c, agg, compress, e, s7, s);
    var u, v := StageLinksComplete(compress, s7, s);
    JsonReady(s, u, v);
  }

  lemma StageNodesComplete(c: Node, agg: seq<real> -> real, compress: real -> real,
                           e: Graph, s7: GraphState, s: GraphState)
    requires ValidState(FromGraph(e)) && Fresh(FromGraph(e))
    requires ShortestPathRadii(FromGraph(e), c, agg) == Ok(s7)
    requires ValidState(s7) && EdgeStrokeWidths(s7, "weight_simple", compress) == Ok(s)
    ensures NodesComplete(s)
  {
    forall i | 0 <= i < |s.nodes|
      ensures s.nodes[i] in s.data && s.data[s.nodes[i]].radius.Some? && s.data[s.nodes[i]].forceRadialFactor.Some?
    {
      StrokeWidthsKeeps(s7, "weight_simple", compress, c, c);
      StageRadii(c, agg, compress, e, s7, s, s.nodes[i]);
    }
  }

  lemma StageLinksComplete(compress: real -> real, s7: GraphState, s: GraphState) returns (u: Node, v: Node)
    requires ValidState(s7) && EdgeStrokeWidths(s7, "weight_simple", compress) == Ok(s)
    ensures LinksComplete(s) && Linked(s.adj, u, v)
  {
    StageWidths(compress, s7, s);
    LinksCompleteEdges(s);
    StrokeWidthsError(s7, "weight_simple", compress);
    u, v :| Linked(s7.adj, u, v);
    StrokeWidthsKeeps(s7, "weight_simple", compress, u, v);
  }

  lemma StageWidths(compress: real -> real, s7: GraphState, s: GraphState)
    requires ValidState(s7) && EdgeStrokeWidths(s7, "weight_simple", compress) == Ok(s)
    ensures ValidState(s)
    ensures forall x, y :: Linked(s.adj, x, y) ==> s.adj[x][y].strokeWidth.Some?
  {
    StrokeWidthsKeeps(s7, "weight_simple", compress, s7.nodes[0], s7.nodes[0]);
    forall x, y | Linked(s.adj, x, y)
      ensures s.adj[x][y].strokeWidth.Some?
    {
      StrokeWidthsKeeps(s7, "weight_simple", compress, x, y);
      WidthOf(s7, "weight_simple", compress, x, y);
    }
  }

  lemma JsonReady(s: GraphState, u: Node, v: Node)
    requires ValidState(s) && NodesComplete(s) && LinksComplete(s) && Linked(s.adj, u, v)
    ensures JsonData(s).Ok?
  {
    JsonDataError(s);
    assert u in s.nodes;
  }

  // ---------------------------------------------------------------------
  // The loops of setNodeRadii

  /** method='linear_indeg' */
  method SetLinearRadii(ego: AttrGraph) returns (r: Result<()>)
    requires ValidState(ego.State())
    modifies ego
    ensures r.Ok? ==> LinearRadii(old(ego.State())) == Ok(ego.State())
    ensures r.Err? ==> LinearRadii(old(ego.State())) == Err(r.error)
  {
    var s := ego.State();
    var degrees := DegreeList(s);
    if degrees == [] {
      return Err(ValueError);
    }
    ego.UpdateEachNode(IndegData(s, MinInt(degrees), MaxInt(degrees)));
    return Ok(());
  }

  /** The trim loop: over a snapshot of the nodes and their dicts, every
      scored node below the limit removed. */
  method TrimBelow(ego: AttrGraph, limit: real)
    requires ValidState(ego.State())
    modifies ego
    ensures ego.State() == Drop(old(ego.State()), BelowSet(old(ego.data), limit))
  {
    ghost var s0 := ego.State();
    var ns := ego.nodes;
    var d := ego.data;
    ghost var done: set<Node> := {};
    ghost var gone: set<Node> := {};
    DropNothing(s0);
    for i := 0 to |ns|
      invariant ego.State() == Drop(s0, gone)
      invariant forall x :: x in done <==> x in ns[..i]
      invariant forall x :: x in gone <==> x in done && x in BelowSet(d, limit)
    {
      var n := ns[i];
      PrefixStep(ns, i, done);
      if n in d && d[n].score.Some? && d[n].score.value < limit {
        ego.RemoveNode(n);
        DropTwice(s0, gone, {n});
        gone := gone + {n};
      }
      done := done + {n};
    }
    assert ns[..|ns|] == ns;
    assert gone == BelowSet(d, limit);
  }

  /** The isolated-node loop: over a snapshot of the nodes, every node whose
      degree is 0 by then removed. */
  method DropIsolatedNodes(ego: AttrGraph)
    requires ValidState(ego.State())
    modifies ego
    ensures ego.State() == DropIsolated(old(ego.State()))
  {
    ghost var s0 := ego.State();
    var ns := ego.nodes;
    ghost var done: set<Node> := {};
    ghost var gone: set<Node> := {};
    DropNothing(s0);
    for i := 0 to |ns|
      invariant ego.State() == Drop(s0, gone)
      invariant forall x :: x in done <==> x in ns[..i]
      invariant forall x :: x in gone <==> x in done && x in IsolatedSet(s0)
    {
      var n := ns[i];
      PrefixStep(ns, i, done);
      KeepsEdges(s0, gone, n);
      if Degree(ego.adj, n) == 0 {
        ego.RemoveNode(n);
        DropTwice(s0, gone, {n});
        gone := gone + {n};
      }
      done := done + {n};
    }
    assert ns[..|ns|] == ns;
    assert gone == IsolatedSet(s0);
  }

  /** The radius loops of method='shortest_path', from the inverse weights
      to the radial force factors. */
  method SetPathRadii(ego: AttrGraph, centre: Node, agg: seq<real> -> real) returns (r: Result<()>)
    requires ValidState(ego.State())
    modifies ego
    ensures r.Ok? ==> ShortestPathRadii(old(ego.State()), centre, agg) == Ok(ego.State())
    ensures r.Err? ==> ShortestPathRadii(old(ego.State()), centre, agg) == Err(r.error)
  {
    ghost var s0 := ego.State();
    InvWeightsFacts(s0, centre, centre);
    r := SetInvWeights(ego);
    if r.Err? {
      return;
    }
    ghost var s1 := ego.State();
    var paths := PathTable(ego.State(), centre);
    if paths.Err? {
      return Err(paths.error);
    }
    var t := paths.value;
    ego.UpdateEachNode(InitRadius);
    if centre !in ego.data {
      return Err(KeyError);
    }
    ego.SetNode(centre, ego.data[centre].(radius := Some(CentreRadius)));
    ghost var s2 := ego.State();
    assert InitRadii(s1, centre) == Ok(s2);
    ego.UpdateEachNode(ScoreData(ego.adj, t, agg));
    ghost var s3 := ego.State();
    assert s3 == SetScores(s2, t, agg);
    var scores := ScoreList(ego.nodes, ego.data);
    var ind := TrimIndex(ego.State());
    if scores == [] {
      return Err(IndexError);
    }
    if ind >= |scores| {
      return Err(ValueError);
    }
    var limit := Kth(scores, ind);
    TrimBelow(ego, limit);
    ghost var s4 := ego.State();
    TrimNodes(s3, centre);
    DropIsolatedNodes(ego);
    ghost var s5 := ego.State();
    DropIsolatedFacts(s4, centre);
    var left := ScoreList(ego.nodes, ego.data);
    if left == [] {
      return Err(ValueError);
    }
    ego.UpdateEachNode(RadiusData(MinReal(left), MaxReal(left)));
    if !AllRadii(ego.State()) {
      return Err(KeyError);
    }
    ego.UpdateEachNode(ForceData);
    return Ok(());
  }

  // ---------------------------------------------------------------------
  // The object

  class EgoGraphs {
    var bandsList: seq<(int, string)>
    var simList: seq<Row>
    var bandIdToBand: map<int, string>
    var edgeList: seq<Row>
    /** self.G; NotModelled for a renaming the model does not cover. */
    var graph: Result<Graph>

    ghost predicate GraphValid()
      reads this
    {
      graph.Ok? ==> Valid(graph.value)
    }

    /** EgoGraphs(database): readDatabase then makeGraph, with the two
        query results as parameters. */
    constructor (bands: seq<(int, string)>, sims: seq<Row>)
      ensures bandsList == bands && simList == sims && bandIdToBand == BandMap(bands) && edgeList == sims
      ensures graph == MakeGraphSpec(BandMap(bands), sims) && GraphValid()
    {
      bandsList, simList, bandIdToBand, edgeList := [], [], map[], [];
      graph := Err(NotModelled);
      new;
      ReadDatabase(bands, sims);
      MakeGraph();
    }

    /** The band names and the similarity rows: the name map built from the
        first, the edge list copied from the second. */
    method ReadDatabase(bands: seq<(int, string)>, sims: seq<Row>)
      modifies this
      ensures bandsList == bands && simList == sims && bandIdToBand == BandMap(bands) && edgeList == sims
      ensures graph == old(graph)
    {
      bandsList := bands;
      simList := sims;
      bandIdToBand := BandMap(bands);
      edgeList := seq(|sims|, i requires 0 <= i < |sims| => Row(sims[i].bandId, sims[i].similarToId, sims[i].score));
      assert edgeList == sims;
    }

    method MakeGraph()
      modifies this
      ensures bandsList == old(bandsList) && simList == old(simList)
      ensures bandIdToBand == old(bandIdToBand) && edgeList == old(edgeList)
      ensures graph == MakeGraphSpec(bandIdToBand, edgeList) && GraphValid()
    {
      var g := MakeGraphSpec(bandIdToBand, edgeList);
      graph := g;
    }

    /** setNodeRadii(ego, band_name, method) */
    method SetNodeRadii(ego: AttrGraph, bandName: string, how: string, agg: seq<real> -> real)
      returns (r: Result<()>)
      requires ValidState(ego.State())
      modifies ego
      ensures r.Ok? ==> SetNodeRadiiSpec(old(ego.State()), Name(bandName), how, agg) == Ok(ego.State())
      ensures r.Err? ==> SetNodeRadiiSpec(old(ego.State()), Name(bandName), how, agg) == Err(r.error)
    {
      if how == "linear_indeg" {
        r := SetLinearRadii(ego);
      } else if how == "shortest_path" {
        r := SetPathRadii(ego, Name(bandName), agg);
      } else {
        r := Err(ValueError);
      }
    }

    /** setEdgeStrokeWidth(ego, band_name, method) */
    method SetEdgeStrokeWidth(ego: AttrGraph, bandName: string, how: string, compress: real -> real)
      returns (r: Result<()>)
      requires ValidState(ego.State())
      modifies ego
      ensures r.Ok? ==> EdgeStrokeWidths(old(ego.State()), how, compress) == Ok(ego.State())
      ensures r.Err? ==> EdgeStrokeWidths(old(ego.State()), how, compress) == Err(r.error)
    {
      if how != "weight_simple" {
        return Err(ValueError);
      }
      var weights := Weights(ego.State());
      if weights == [] {
        return Err(ValueError);
      }
      ego.UpdateEachEdge(WidthEdge(MinInt(weights), MaxInt(weights), compress));
      return Ok(());
    }

    /** makeEgoGraph(band_name, ego_radius): agg and compress stand for
        exp(mean(log(.))) and x ** 0.33. */
    method MakeEgoGraph(bandName: string, egoRadius: nat, agg: seq<real> -> real, compress: real -> real)
      returns (r: Result<AttrGraph>)
      requires GraphValid()
      ensures r.Ok? ==> fresh(r.value) && MakeEgoSpec(graph, bandName, egoRadius, agg, compress) == Ok(r.value.State())
      ensures r.Err? ==> MakeEgoSpec(graph, bandName, egoRadius, agg, compress) == Err(r.error)
    {
      if graph.Err? {
        return Err(graph.error);
      }
      var e := EgoGraph(graph.value, Name(bandName), egoRadius);
      if e.Err? {
        return Err(e.error);
      }
      var ego := new AttrGraph(e.value);
      FromGraphValid(e.value);
      var radii := SetNodeRadii(ego, bandName, "shortest_path", agg);
      if radii.Err? {
        return Err(radii.error);
      }
      ghost var s := ego.State();
      RadiiValid(FromGraph(e.value), Name(bandName), agg, s);
      var widths := SetEdgeStrokeWidth(ego, bandName, "weight_simple", compress);
      if widths.Err? {
        return Err(widths.error);
      }
      return Ok(ego);
    }
  }

  /** The graph setNodeRadii leaves is well formed. */
  lemma RadiiValid(s0: GraphState, centre: Node, agg: seq<real> -> real, s: GraphState)
    requires ValidState(s0) && Fresh(s0) && SetNodeRadiiSpec(s0, centre, "shortest_path", agg) == Ok(s)
    ensures ValidState(s)
  {
    RadiiNoIsolated(s0, centre, agg, s, centre);
  }
}
