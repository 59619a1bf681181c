/** The data EgoGraphs.writeJSON serialises: one entry per node with its
    name, radius, force factor and path, one per edge with its endpoints,
    width and similarity score, and the least and greatest radius and
    score.  Writing the file is not part of this model. */
module EgoJson {
  import opened Wrappers
  import opened Graphs
  import opened AttrGraphs
  import opened Extrema
  import opened Text

  datatype NodeEntry = NodeEntry(name: string, radius: real, forceRadialFactor: real, path: seq<Node>)

  datatype LinkEntry = LinkEntry(source: Node, target: Node, strokeWidth: real, simScore: int)

  datatype EgoJson = EgoJson(nodes: seq<NodeEntry>, links: seq<LinkEntry>,
                             minRadius: real, maxRadius: real, minSimScore: int, maxSimScore: int)

  /** str(node): a band name, or the id of a band without one. */
  function NodeName(n: Node): string {
    match n
    case Id(i) => IntText(i)
    case Name(s) => s
  }

  /** Every node dict has 'radius' and 'force_radial_factor'. */
  predicate NodesComplete(s: GraphState) {
    forall i :: 0 <= i < |s.nodes| ==>
      s.nodes[i] in s.data && s.data[s.nodes[i]].radius.Some? && s.data[s.nodes[i]].forceRadialFactor.Some?
  }

  /** Every edge listed has a 'stroke_width'. */
  predicate LinksComplete(s: GraphState) {
    var es := EdgeList(s.nodes, s.adj);
    forall k :: 0 <= k < |es| ==> Linked(s.adj, es[k].0, es[k].1) && s.adj[es[k].0][es[k].1].strokeWidth.Some?
  }

  function NodeEntries(s: GraphState): (r: seq<NodeEntry>)
    requires NodesComplete(s)
    ensures |r| == |s.nodes|
  {
    seq(|s.nodes|, i requires 0 <= i < |s.nodes| =>
      NodeEntry(NodeName(s.nodes[i]), s.data[s.nodes[i]].radius.value,
                s.data[s.nodes[i]].forceRadialFactor.value, s.data[s.nodes[i]].path.GetOr([])))
  }

  function LinkEntries(s: GraphState): (r: seq<LinkEntry>)
    requires LinksComplete(s)
    ensures |r| == |EdgeList(s.nodes, s.adj)|
  {
    var es := EdgeList(s.nodes, s.adj);
    seq(|es|, k requires 0 <= k < |es| =>
      LinkEntry(es[k].0, es[k].1, s.adj[es[k].0][es[k].1].strokeWidth.value, s.adj[es[k].0][es[k].1].weight))
  }

  function Radii(ns: seq<NodeEntry>): (r: seq<real>)
    ensures |r| == |ns| && forall i :: 0 <= i < |ns| ==> r[i] == ns[i].radius
  {
    seq(|ns|, i requires 0 <= i < |ns| => ns[i].radius)
  }

  function SimScores(ls: seq<LinkEntry>): (r: seq<int>)
    ensures |r| == |ls| && forall k :: 0 <= k < |ls| ==> r[k] == ls[k].simScore
  {
    seq(|ls|, k requires 0 <= k < |ls| => ls[k].simScore)
  }

  /** KeyError for a node without radius or factor or an edge without a
      width, in the order the lists are built; ValueError from min() on no
      nodes or no links. */
  function JsonData(s: GraphState): Result<EgoJson> {
    if !NodesComplete(s) then Err(KeyError)
    else if !LinksComplete(s) then Err(KeyError)
    else
      var ns := NodeEntries(s);
      var ls := LinkEntries(s);
      if ns == [] || ls == [] then Err(ValueError)
      else Ok(EgoJson(ns, ls, MinReal(Radii(ns)), MaxReal(Radii(ns)), MinInt(SimScores(ls)), MaxInt(SimScores(ls))))
  }

  /** In a valid state G.edges() is empty exactly when the graph has no
      edge. */
  lemma EdgesListed(s: GraphState)
    requires ValidState(s)
    ensures EdgeList(s.nodes, s.adj) == [] <==> forall u, v :: !Linked(s.adj, u, v)
  {
    var es := EdgeList(s.nodes, s.adj);
    if es != [] {
      EdgeListEdges(s, es[0]);
    }
    forall u, v | Linked(s.adj, u, v)
      ensures es != []
    {
      EdgeListOnce(s, u, v);
    }
  }

  /** Every edge has a width exactly when every listed one has. */
  lemma LinksCompleteEdges(s: GraphState)
    requires ValidState(s)
    ensures LinksComplete(s) <==> forall u, v :: Linked(s.adj, u, v) ==> s.adj[u][v].strokeWidth.Some?
  {
    if forall u, v :: Linked(s.adj, u, v) ==> s.adj[u][v].strokeWidth.Some? {
      EdgesComplete(s);
    }
    if LinksComplete(s) {
      forall u, v | Linked(s.adj, u, v)
        ensures s.adj[u][v].strokeWidth.Some?
      {
        CompleteEdge(s, u, v);
      }
    }
  }

  lemma EdgesComplete(s: GraphState)
    requires forall u, v :: Linked(s.adj, u, v) ==> s.adj[u][v].strokeWidth.Some?
    ensures LinksComplete(s)
  {
    var es := EdgeList(s.nodes, s.adj);
    forall k | 0 <= k < |es|
      ensures Linked(s.adj, es[k].0, es[k].1)
    {
      EdgeListEdges(s, es[k]);
    }
  }

  lemma CompleteEdge(s: GraphState, u: Node, v: Node)
    requires ValidState(s) && LinksComplete(s) && Linked(s.adj, u, v)
    ensures s.adj[u][v].strokeWidth.Some?
  {
    var es := EdgeList(s.nodes, s.adj);
    EdgeListOnce(s, u, v);
    assert Linked(s.adj, v, u);
    var k :| 0 <= k < |es| && (es[k] == (u, v) || es[k] == (v, u));
  }

  /** The data fails exactly on a missing attribute or on a graph without
      nodes or without edges: KeyError for the first, else ValueError. */
  lemma JsonDataError(s: GraphState)
    requires ValidState(s)
    ensures JsonData(s).Err? <==>
      !NodesComplete(s) || !LinksComplete(s) || s.nodes == [] || forall u, v :: !Linked(s.adj, u, v)
    ensures JsonData(s).Err? && NodesComplete(s) && LinksComplete(s) ==> JsonData(s).error == ValueError
    ensures JsonData(s).Err? && !(NodesComplete(s) && LinksComplete(s)) ==> JsonData(s).error == KeyError
  {
    EdgesListed(s);
    if JsonData(s).Err? && NodesComplete(s) && LinksComplete(s) && s.nodes != [] {
      assert LinkEntries(s) == [];
    }
  }

  /** The lists are the node and link entries. */
  lemma JsonParts(s: GraphState, j: EgoJson)
    requires JsonData(s) == Ok(j)
    ensures NodesComplete(s) && LinksComplete(s)
    ensures j.nodes == NodeEntries(s) && j.links == LinkEntries(s)
  {
  }

  /** A node's entry carries its name, its radius, its factor and its path,
      [] when it has none; every node has exactly one entry, at its place
      in the node order. */
  lemma JsonNodes(s: GraphState, j: EgoJson, n: Node) returns (i: nat)
    requires ValidState(s) && JsonData(s) == Ok(j) && n in s.nodes
    ensures i < |s.nodes| && s.nodes[i] == n && |j.nodes| == |s.nodes|
    ensures j.nodes[i] ==
      NodeEntry(NodeName(n), s.data[n].radius.value, s.data[n].forceRadialFactor.value, s.data[n].path.GetOr([]))
    ensures forall k :: 0 <= k < |s.nodes| && k != i ==> s.nodes[k] != n
  {
    JsonParts(s, j);
    i :| 0 <= i < |s.nodes| && s.nodes[i] == n;
  }

  predicate Joins(l: LinkEntry, u: Node, v: Node) {
    l.source == u && l.target == v
  }

  /** Every edge has a link, in one of its two directions, with its width
      and with its weight as the similarity score. */
  lemma JsonLinks(s: GraphState, j: EgoJson, u: Node, v: Node) returns (k: nat)
    requires ValidState(s) && JsonData(s) == Ok(j) && Linked(s.adj, u, v)
    ensures k < |j.links| && (Joins(j.links[k], u, v) || Joins(j.links[k], v, u))
    ensures j.links[k].strokeWidth == s.adj[u][v].strokeWidth.value && j.links[k].simScore == s.adj[u][v].weight
  {
    JsonParts(s, j);
    k := LinkOfEdge(s, u, v);
  }

  lemma LinkOfEdge(s: GraphState, u: Node, v: Node) returns (k: nat)
    requires ValidState(s) && LinksComplete(s) && Linked(s.adj, u, v)
    ensures k < |LinkEntries(s)| && (Joins(LinkEntries(s)[k], u, v) || Joins(LinkEntries(s)[k], v, u))
    ensures LinkEntries(s)[k].strokeWidth == s.adj[u][v].strokeWidth.value
    ensures LinkEntries(s)[k].simScore == s.adj[u][v].weight
  {
    k := EdgeListIndex(s, u, v);
    assert Linked(s.adj, v, u);
  }

  /** No edge has a link in both directions, and no link comes twice. */
  lemma JsonLinksOnce(s: GraphState, j: EgoJson, u: Node, v: Node)
    requires ValidState(s) && JsonData(s) == Ok(j) && Linked(s.adj, u, v) && u != v
    ensures forall a, b :: 0 <= a < |j.links| && 0 <= b < |j.links| && Joins(j.links[a], u, v) ==>
      !Joins(j.links[b], v, u)
  {
    JsonParts(s, j);
    var es := EdgeList(s.nodes, s.adj);
    EdgeListOnce(s, u, v);
    forall a, b | 0 <= a < |j.links| && 0 <= b < |j.links| && Joins(j.links[a], u, v)
      ensures !Joins(j.links[b], v, u)
    {
      assert es[a] == (u, v);
      assert (v, u) !in es;
    }
  }

  lemma JsonLinksDistinct(s: GraphState, j: EgoJson)
    requires ValidState(s) && JsonData(s) == Ok(j)
    ensures forall a, b :: 0 <= a < b < |j.links| ==> j.links[a] != j.links[b]
  {
    JsonParts(s, j);
    var es := EdgeList(s.nodes, s.adj);
    EdgeListDistinct(s.nodes, s.adj);
    forall a, b | 0 <= a < b < |j.links|
      ensures j.links[a] != j.links[b]
    {
      assert es[a] != es[b];
    }
  }

  /** Every link is an edge of the graph. */
  lemma JsonLinkIsEdge(s: GraphState, j: EgoJson, k: nat)
    requires JsonData(s) == Ok(j) && k < |j.links|
    ensures Linked(s.adj, j.links[k].source, j.links[k].target)
  {
    JsonParts(s, j);
    EdgeListEdges(s, EdgeList(s.nodes, s.adj)[k]);
  }

  /** min_radius and max_radius are radii of nodes and bound all of them;
      likewise the similarity scores of the links. */
  lemma JsonBounds(s: GraphState, j: EgoJson)
    requires JsonData(s) == Ok(j)
    ensures forall i :: 0 <= i < |j.nodes| ==> j.minRadius <= j.nodes[i].radius <= j.maxRadius
    ensures exists i :: 0 <= i < |j.nodes| && j.nodes[i].radius == j.minRadius
    ensures exists i :: 0 <= i < |j.nodes| && j.nodes[i].radius == j.maxRadius
    ensures forall k :: 0 <= k < |j.links| ==> j.minSimScore <= j.links[k].simScore <= j.maxSimScore
    ensures exists k :: 0 <= k < |j.links| && j.links[k].simScore == j.minSimScore
    ensures exists k :: 0 <= k < |j.links| && j.links[k].simScore == j.maxSimScore
  {
    JsonFields(s, j);
    RadiusBounds(j.nodes, j.minRadius, j.maxRadius);
    SimScoreBounds(j.links, j.minSimScore, j.maxSimScore);
  }

  lemma JsonFields(s: GraphState, j: EgoJson)
    requires JsonData(s) == Ok(j)
    ensures j.nodes != [] && j.minRadius == MinReal(Radii(j.nodes)) && j.maxRadius == MaxReal(Radii(j.nodes))
    ensures j.links != [] && j.minSimScore == MinInt(SimScores(j.links)) && j.maxSimScore == MaxInt(SimScores(j.links))
  {
  }

  lemma RadiusBounds(ns: seq<NodeEntry>, lo: real, hi: real)
    requires ns != [] && lo == MinReal(Radii(ns)) && hi == MaxReal(Radii(ns))
    ensures forall i :: 0 <= i < |ns| ==> lo <= ns[i].radius <= hi
    ensures exists i :: 0 <= i < |ns| && ns[i].radius == lo
    ensures exists i :: 0 <= i < |ns| && ns[i].radius == hi
  {
    var rs := Radii(ns);
    var a :| 0 <= a < |rs| && rs[a] == lo;
    var b :| 0 <= b < |rs| && rs[b] == hi;
  }

  lemma SimScoreBounds(ls: seq<LinkEntry>, lo: int, hi: int)
    requires ls != [] && lo == MinInt(SimScores(ls)) && hi == MaxInt(SimScores(ls))
    ensures forall k :: 0 <= k < |ls| ==> lo <= ls[k].simScore <= hi
    ensures exists k :: 0 <= k < |ls| && ls[k].simScore == lo
    ensures exists k :: 0 <= k < |ls| && ls[k].simScore == hi
  {
    var ss := SimScores(ls);
    var c :| 0 <= c < |ss| && ss[c] == lo;
    var d :| 0 <= d < |ss| && ss[d] == hi;
  }
}
