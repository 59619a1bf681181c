/** EgoGraphs.setEdgeStrokeWidth: every edge's 'stroke_width' from its
    weight, rescaled between the least and the greatest weight of the ego
    graph and compressed by a power of 0.33. */
module StrokeWidths {
  import opened Wrappers
  import opened Graphs
  import opened AttrGraphs
  import opened Extrema
  import opened NodeRadii

  const MinWidth: real := 1.5
  const MaxWidth: real := 4.0

  /** What width ** 0.33 must be like for the bounds below: [0, 1] into
      itself, 0 to 0 and 1 to 1. */
  ghost predicate IsCompressor(compress: real -> real) {
    (forall x :: 0.0 <= x <= 1.0 ==> 0.0 <= compress(x) <= 1.0) &&
    compress(0.0) == 0.0 && compress(1.0) == 1.0
  }

  /** [t[2]['weight'] for t in ego.edges(data=True)] */
  function EdgeWeights(es: seq<(Node, Node)>, a: Adj): (r: seq<int>)
    ensures |r| == |es|
    ensures forall k :: 0 <= k < |es| && Linked(a, es[k].0, es[k].1) ==> r[k] == a[es[k].0][es[k].1].weight
  {
    seq(|es|, k requires 0 <= k < |es| => if Linked(a, es[k].0, es[k].1) then a[es[k].0][es[k].1].weight else 0)
  }

  function Weights(s: GraphState): seq<int> {
    EdgeWeights(EdgeList(s.nodes, s.adj), s.adj)
  }

  /** min_width + (max_width - min_width) * (rescaled weight) ** 0.33 */
  function Width(w: int, lo: int, hi: int, compress: real -> real): real {
    MinWidth + (MaxWidth - MinWidth) * compress(Rescale(w as real, lo as real, hi as real))
  }

  function WidthEdge(lo: int, hi: int, compress: real -> real): EdgeData -> EdgeData {
    (e: EdgeData) => e.(strokeWidth := Some(Width(e.weight, lo, hi, compress)))
  }

  /** setEdgeStrokeWidth(ego, band_name, method): ValueError for a method
      other than 'weight_simple', and from min() on a graph without edges. */
  function EdgeStrokeWidths(s: GraphState, how: string, compress: real -> real): Result<GraphState> {
    var ws := Weights(s);
    if how != "weight_simple" || ws == [] then Err(ValueError)
    else Ok(s.(adj := UpdateEdges(s.adj, s.adj.Keys, WidthEdge(MinInt(ws), MaxInt(ws), compress))))
  }

  /** With a compressor a weight between lo and hi gets a width in
      [1.5, 4]: 1.5 at lo, and 4 at hi when hi > lo. */
  lemma WidthBounds(w: int, lo: int, hi: int, compress: real -> real)
    requires lo <= w <= hi && IsCompressor(compress)
    ensures MinWidth <= Width(w, lo, hi, compress) <= MaxWidth
    ensures w == lo ==> Width(w, lo, hi, compress) == MinWidth
    ensures w == hi && lo < hi ==> Width(w, lo, hi, compress) == MaxWidth
  {
    RescaleBounds(w as real, lo as real, hi as real);
  }

  /** Every edge's weight is among the weights min() and max() see. */
  lemma WeightListed(s: GraphState, u: Node, v: Node)
    requires ValidState(s) && Linked(s.adj, u, v)
    ensures s.adj[u][v].weight in Weights(s)
  {
    var es := EdgeList(s.nodes, s.adj);
    EdgeListOnce(s, u, v);
    var k :| 0 <= k < |es| && (es[k] == (u, v) || es[k] == (v, u));
    assert Linked(s.adj, v, u);
    assert Weights(s)[k] == s.adj[u][v].weight;
  }

  /** Each weight listed is one of an edge. */
  lemma WeightOfEdge(s: GraphState, k: nat) returns (u: Node, v: Node)
    requires k < |Weights(s)|
    ensures Linked(s.adj, u, v) && Weights(s)[k] == s.adj[u][v].weight
  {
    var es := EdgeList(s.nodes, s.adj);
    EdgeListEdges(s, es[k]);
    u, v := es[k].0, es[k].1;
  }

  /** The only errors are ValueError, for an unknown method and for a graph
      without edges. */
  lemma StrokeWidthsError(s: GraphState, how: string, compress: real -> real)
    requires ValidState(s)
    ensures EdgeStrokeWidths(s, how, compress).Err? <==>
      how != "weight_simple" || forall u, v :: !Linked(s.adj, u, v)
    ensures EdgeStrokeWidths(s, how, compress).Err? ==> EdgeStrokeWidths(s, how, compress).error == ValueError
  {
    if Weights(s) != [] {
      var u, v := WeightOfEdge(s, 0);
    }
    forall u, v | Linked(s.adj, u, v)
      ensures Weights(s) != []
    {
      WeightListed(s, u, v);
    }
  }

  /** The widths change only the 'stroke_width' of the edges, alike in both
      directions. */
  lemma StrokeWidthsKeeps(s: GraphState, how: string, compress: real -> real, u: Node, v: Node)
    requires ValidState(s) && EdgeStrokeWidths(s, how, compress).Ok?
    ensures ValidState(EdgeStrokeWidths(s, how, compress).value)
    ensures EdgeStrokeWidths(s, how, compress).value.nodes == s.nodes
    ensures EdgeStrokeWidths(s, how, compress).value.data == s.data
    ensures Linked(EdgeStrokeWidths(s, how, compress).value.adj, u, v) <==> Linked(s.adj, u, v)
    ensures Linked(s.adj, u, v) ==>
      EdgeStrokeWidths(s, how, compress).value.adj[u][v] ==
        s.adj[u][v].(strokeWidth := EdgeStrokeWidths(s, how, compress).value.adj[u][v].strokeWidth)
  {
    var ws := Weights(s);
    UpdateEdgesSymmetric(s.adj, WidthEdge(MinInt(ws), MaxInt(ws), compress));
  }

  /** Each edge's width is that of its weight between the least and the
      greatest weight. */
  lemma WidthOf(s: GraphState, how: string, compress: real -> real, u: Node, v: Node)
    requires ValidState(s) && EdgeStrokeWidths(s, how, compress).Ok? && Linked(s.adj, u, v)
    ensures EdgeStrokeWidths(s, how, compress).value.adj[u][v].strokeWidth ==
      Some(Width(s.adj[u][v].weight, MinInt(Weights(s)), MaxInt(Weights(s)), compress))
    ensures MinInt(Weights(s)) <= s.adj[u][v].weight <= MaxInt(Weights(s))
  {
    WeightListed(s, u, v);
  }

  /** With a compressor, every width lies in [1.5, 4]. */
  lemma StrokeWidthsRange(s: GraphState, how: string, compress: real -> real, u: Node, v: Node)
    requires ValidState(s) && EdgeStrokeWidths(s, how, compress).Ok? && IsCompressor(compress)
    requires Linked(s.adj, u, v)
    ensures EdgeStrokeWidths(s, how, compress).value.adj[u][v].strokeWidth.Some?
    ensures MinWidth <= EdgeStrokeWidths(s, how, compress).value.adj[u][v].strokeWidth.value <= MaxWidth
  {
    var ws := Weights(s);
    WidthOf(s, how, compress, u, v);
    WidthBounds(s.adj[u][v].weight, MinInt(ws), MaxInt(ws), compress);
  }

  ghost predicate LeastWeight(s: GraphState, u: Node, v: Node) {
    Linked(s.adj, u, v) && forall x, y :: Linked(s.adj, x, y) ==> s.adj[u][v].weight <= s.adj[x][y].weight
  }

  ghost predicate GreatestWeight(s: GraphState, u: Node, v: Node) {
    Linked(s.adj, u, v) && forall x, y :: Linked(s.adj, x, y) ==> s.adj[x][y].weight <= s.adj[u][v].weight
  }

  /** An edge of least weight gets width 1.5. */
  lemma StrokeWidthsLeast(s: GraphState, how: string, compress: real -> real, u: Node, v: Node)
    requires ValidState(s) && EdgeStrokeWidths(s, how, compress).Ok? && IsCompressor(compress)
    requires LeastWeight(s, u, v)
    ensures EdgeStrokeWidths(s, how, compress).value.adj[u][v].strokeWidth == Some(MinWidth)
  {
    var ws := Weights(s);
    WidthOf(s, how, compress, u, v);
    var i :| 0 <= i < |ws| && ws[i] == MinInt(ws);
    var x, y := WeightOfEdge(s, i);
    assert s.adj[u][v].weight == MinInt(ws);
    WidthBounds(s.adj[u][v].weight, MinInt(ws), MaxInt(ws), compress);
  }

  /** When the weights differ, an edge of greatest weight gets width 4:
      integer weights then differ by at least 1. */
  lemma StrokeWidthsGreatest(s: GraphState, how: string, compress: real -> real, u: Node, v: Node, x: Node, y: Node)
    requires ValidState(s) && EdgeStrokeWidths(s, how, compress).Ok? && IsCompressor(compress)
    requires GreatestWeight(s, u, v) && Linked(s.adj, x, y) && s.adj[x][y].weight != s.adj[u][v].weight
    ensures EdgeStrokeWidths(s, how, compress).value.adj[u][v].strokeWidth == Some(MaxWidth)
  {
    var ws := Weights(s);
    WidthOf(s, how, compress, u, v);
    WidthOf(s, how, compress, x, y);
    var i :| 0 <= i < |ws| && ws[i] == MaxInt(ws);
    var x1, y1 := WeightOfEdge(s, i);
    assert s.adj[u][v].weight == MaxInt(ws);
    WidthBounds(s.adj[u][v].weight, MinInt(ws), MaxInt(ws), compress);
  }
}
