/** The similarity graph of the ego-graph scripts as a value: an undirected
    graph with integer weights, built from (band_id, similar_to_id, score)
    rows, relabelled from ids to band names, and the ego graph of a band: the
    bands within a number of hops, with the edges among them. */
module Graphs {
  import opened Wrappers

  /** A node is a band id until it is relabelled with the band's name; an id
      with no name stays an id. */
  datatype Node = Id(id: int) | Name(name: string)

  /** Node order (first appearance) and weighted adjacency. */
  datatype Graph = Graph(nodes: seq<Node>, adj: map<Node, map<Node, int>>)

  predicate Distinct<T(==)>(s: seq<T>) {
    forall i, j :: 0 <= i < j < |s| ==> s[i] != s[j]
  }

  /** A well-formed undirected graph: every node listed once, the adjacency
      keyed by exactly the listed nodes, and every edge present in both
      directions with the same weight. */
  ghost predicate Valid(g: Graph) {
    Distinct(g.nodes) &&
    (forall u :: u in g.adj <==> u in g.nodes) &&
    (forall u, v {:trigger Adjacent(g, u, v)} :: Adjacent(g, u, v) ==>
      v in g.adj && Adjacent(g, v, u) && g.adj[v][u] == g.adj[u][v])
  }

  predicate Adjacent(g: Graph, u: Node, v: Node) {
    u in g.adj && v in g.adj[u]
  }

  const EmptyGraph: Graph := Graph([], map[])

  function Neighbours(g: Graph, u: Node): map<Node, int> {
    if u in g.adj then g.adj[u] else map[]
  }

  /** G.add_edge(u, v, weight=w): new nodes are appended, the weight of an
      existing edge is overwritten. */
  function AddEdge(g: Graph, u: Node, v: Node, w: int): (r: Graph)
    ensures |g.nodes| <= |r.nodes| && r.nodes[..|g.nodes|] == g.nodes
  {
    var adj1 := g.adj[u := Neighbours(g, u)[v := w]];
    var av := if v in adj1 then adj1[v] else map[];
    Graph(AppendNew(AppendNew(g.nodes, u), v), adj1[v := av[u := w]])
  }

  /** A node is appended to the node order when it is new. */
  function AppendNew(ns: seq<Node>, x: Node): (r: seq<Node>)
    ensures forall y :: y in r <==> y in ns || y == x
    ensures Distinct(ns) ==> Distinct(r)
    ensures |ns| <= |r| && r[..|ns|] == ns
  {
    if x in ns then ns else ns + [x]
  }

  /** add_edge adds the two endpoints and the edge between them, with weight
      w in both directions, and leaves every other edge as it was. */
  lemma AddEdgeAt(g: Graph, u: Node, v: Node, w: int, x: Node, y: Node)
    ensures x in AddEdge(g, u, v, w).adj <==> x in g.adj || x == u || x == v
    ensures Adjacent(AddEdge(g, u, v, w), x, y) <==>
      Adjacent(g, x, y) || (x == u && y == v) || (x == v && y == u)
    ensures Adjacent(AddEdge(g, u, v, w), x, y) ==>
      AddEdge(g, u, v, w).adj[x][y] ==
        if (x == u && y == v) || (x == v && y == u) then w else g.adj[x][y]
  {
  }

  lemma AddEdgeValid(g: Graph, u: Node, v: Node, w: int)
    requires Valid(g)
    ensures Valid(AddEdge(g, u, v, w))
  {
    var r := AddEdge(g, u, v, w);
    forall x | x in r.adj
      ensures x in r.nodes
    {
      AddEdgeAt(g, u, v, w, x, x);
    }
    forall x | x in r.nodes
      ensures x in r.adj
    {
      AddEdgeAt(g, u, v, w, x, x);
    }
    forall x, y | Adjacent(r, x, y)
      ensures y in r.adj && Adjacent(r, y, x) && r.adj[y][x] == r.adj[x][y]
    {
      AddEdgeSymmetric(g, u, v, w, x, y);
    }
  }

  lemma AddEdgeSymmetric(g: Graph, u: Node, v: Node, w: int, x: Node, y: Node)
    requires Valid(g) && Adjacent(AddEdge(g, u, v, w), x, y)
    ensures y in AddEdge(g, u, v, w).adj && Adjacent(AddEdge(g, u, v, w), y, x)
    ensures AddEdge(g, u, v, w).adj[y][x] == AddEdge(g, u, v, w).adj[x][y]
  {
    AddEdgeAt(g, u, v, w, x, y);
    AddEdgeAt(g, u, v, w, y, x);
    AddEdgeAt(g, u, v, w, y, y);
  }

  /** One similarity row. */
  datatype Row = Row(bandId: int, similarToId: int, score: int)

  /** nx.Graph() followed by add_weighted_edges_from(rows), row by row. */
  function Build(rows: seq<Row>): (r: Graph)
    ensures Valid(r)
    decreases |rows|
  {
    if rows == [] then EmptyGraph
    else
      var last := rows[|rows| - 1];
      var g := Build(rows[..|rows| - 1]);
      AddEdgeValid(g, Id(last.bandId), Id(last.similarToId), last.score);
      AddEdge(g, Id(last.bandId), Id(last.similarToId), last.score)
  }

  predicate Joins(row: Row, u: Node, v: Node) {
    (u == Id(row.bandId) && v == Id(row.similarToId)) || (u == Id(row.similarToId) && v == Id(row.bandId))
  }

  predicate Endpoint(row: Row, u: Node) {
    u == Id(row.bandId) || u == Id(row.similarToId)
  }

  /** The score of the last row joining u and v: the one whose weight stays. */
  function LastScore(rows: seq<Row>, u: Node, v: Node): Option<int>
    decreases |rows|
  {
    if rows == [] then None
    else if Joins(rows[|rows| - 1], u, v) then Some(rows[|rows| - 1].score)
    else LastScore(rows[..|rows| - 1], u, v)
  }

  predicate HasEndpoint(rows: seq<Row>, u: Node) {
    exists i :: 0 <= i < |rows| && Endpoint(rows[i], u)
  }

  lemma HasEndpointSnoc(rows: seq<Row>, u: Node)
    requires rows != []
    ensures HasEndpoint(rows, u) <==> HasEndpoint(rows[..|rows| - 1], u) || Endpoint(rows[|rows| - 1], u)
  {
    var init := rows[..|rows| - 1];
    if HasEndpoint(init, u) {
      var i :| 0 <= i < |init| && Endpoint(init[i], u);
      assert Endpoint(rows[i], u);
    }
    if HasEndpoint(rows, u) {
      var i :| 0 <= i < |rows| && Endpoint(rows[i], u);
      if i < |init| {
        assert Endpoint(init[i], u);
      }
    }
  }

  /** The nodes of the built graph are exactly the ids in the rows. */
  lemma {:induction false} BuildNodes(rows: seq<Row>, u: Node)
    ensures u in Build(rows).adj <==> HasEndpoint(rows, u)
    decreases |rows|
  {
    if rows != [] {
      var init := rows[..|rows| - 1];
      var last := rows[|rows| - 1];
      BuildNodes(init, u);
      AddEdgeAt(Build(init), Id(last.bandId), Id(last.similarToId), last.score, u, u);
      HasEndpointSnoc(rows, u);
    }
  }

  /** u and v are adjacent in the built graph exactly when a row joins them,
      and the weight is the score of the last such row. */
  lemma {:induction false} BuildEdges(rows: seq<Row>, u: Node, v: Node)
    ensures Adjacent(Build(rows), u, v) <==> LastScore(rows, u, v).Some?
    ensures Adjacent(Build(rows), u, v) ==> Build(rows).adj[u][v] == LastScore(rows, u, v).value
    decreases |rows|
  {
    if rows != [] {
      var init := rows[..|rows| - 1];
      var last := rows[|rows| - 1];
      BuildEdges(init, u, v);
      AddEdgeAt(Build(init), Id(last.bandId), Id(last.similarToId), last.score, u, v);
    }
  }

  /** A '(band, similar band)' row puts the edge in both directions. */
  lemma LastScoreSymmetric(rows: seq<Row>, u: Node, v: Node)
    ensures LastScore(rows, u, v) == LastScore(rows, v, u)
    decreases |rows|
  {
  }

  // ---------------------------------------------------------------------
  // relabel_nodes

  /** mapping.get(n, n) for the id-to-name map. */
  function Relabel(names: map<int, string>, n: Node): Node {
    match n
    case Id(i) => if i in names then Name(names[i]) else n
    case Name(_) => n
  }

  ghost predicate InjectiveSet(names: map<int, string>, s: set<Node>) {
    forall x, y :: x in s && y in s && Relabel(names, x) == Relabel(names, y) ==> x == y
  }

  ghost predicate InjectiveOn(names: map<int, string>, g: Graph) {
    InjectiveSet(names, g.adj.Keys)
  }

  /** The keys of a map renamed, the values kept. */
  function RelabelKeys<V>(names: map<int, string>, m: map<Node, V>): (r: map<Node, V>)
    requires InjectiveSet(names, m.Keys)
  {
    map x | x in m :: Relabel(names, x) := m[x]
  }

  lemma RelabelKeysAt<V>(names: map<int, string>, m: map<Node, V>, x: Node)
    requires InjectiveSet(names, m.Keys) && x in m
    ensures Relabel(names, x) in RelabelKeys(names, m)
    ensures RelabelKeys(names, m)[Relabel(names, x)] == m[x]
  {
  }

  lemma RelabelKeysFrom<V>(names: map<int, string>, m: map<Node, V>, y: Node) returns (x: Node)
    requires InjectiveSet(names, m.Keys) && y in RelabelKeys(names, m)
    ensures x in m && y == Relabel(names, x)
  {
    x :| x in m && y == Relabel(names, x);
  }

  function RelabelAdj(names: map<int, string>, g: Graph): map<Node, map<Node, int>>
    requires Valid(g) && InjectiveOn(names, g)
  {
    map x | x in g.adj :: (NeighboursInGraph(g, x); RelabelKeys(names, g.adj[x]))
  }

  /** nx.relabel_nodes(G, names) for a map that gives distinct nodes distinct
      names: every node renamed in place in the node order, the edges and
      weights carried over. */
  function RelabelGraph(names: map<int, string>, g: Graph): (r: Graph)
    requires Valid(g) && InjectiveOn(names, g)
  {
    Graph(seq(|g.nodes|, i requires 0 <= i < |g.nodes| => Relabel(names, g.nodes[i])),
          RelabelKeys(names, RelabelAdj(names, g)))
  }

  /** Every node of the relabelled graph is a renamed node of G, and the
      edges and weights between renamed nodes are those of G. */
  lemma RelabelEdges(names: map<int, string>, g: Graph, x: Node, y: Node)
    requires Valid(g) && InjectiveOn(names, g) && x in g.adj && y in g.adj
    ensures Relabel(names, x) in RelabelGraph(names, g).adj
    ensures Relabel(names, y) in RelabelGraph(names, g).adj[Relabel(names, x)] <==> y in g.adj[x]
    ensures y in g.adj[x] ==>
      RelabelGraph(names, g).adj[Relabel(names, x)][Relabel(names, y)] == g.adj[x][y]
  {
    var a := RelabelAdj(names, g);
    var r := RelabelGraph(names, g);
    RelabelKeysAt(names, a, x);
    NeighboursInGraph(g, x);
    var ax := g.adj[x];
    assert r.adj[Relabel(names, x)] == RelabelKeys(names, ax);
    if y in ax {
      RelabelKeysAt(names, ax, y);
    }
    if Relabel(names, y) in RelabelKeys(names, ax) {
      var y' := RelabelKeysFrom(names, ax, Relabel(names, y));
      assert y' in g.adj;
    }
  }

  lemma RelabelNeighbour(names: map<int, string>, g: Graph, x: Node, v: Node) returns (y: Node)
    requires Valid(g) && InjectiveOn(names, g) && x in g.adj
    requires Relabel(names, x) in RelabelGraph(names, g).adj
    requires v in RelabelGraph(names, g).adj[Relabel(names, x)]
    ensures y in g.adj[x] && v == Relabel(names, y)
  {
    var a := RelabelAdj(names, g);
    RelabelKeysAt(names, a, x);
    NeighboursInGraph(g, x);
    y := RelabelKeysFrom(names, g.adj[x], v);
  }

  lemma RelabelNodes(names: map<int, string>, g: Graph, u: Node) returns (x: Node)
    requires Valid(g) && InjectiveOn(names, g) && u in RelabelGraph(names, g).adj
    ensures x in g.adj && u == Relabel(names, x)
  {
    x := RelabelKeysFrom(names, RelabelAdj(names, g), u);
  }

  lemma RelabelSymmetric(names: map<int, string>, g: Graph, u: Node, v: Node)
    requires Valid(g) && InjectiveOn(names, g) && Adjacent(RelabelGraph(names, g), u, v)
    ensures v in RelabelGraph(names, g).adj && Adjacent(RelabelGraph(names, g), v, u)
    ensures RelabelGraph(names, g).adj[v][u] == RelabelGraph(names, g).adj[u][v]
  {
    var x := RelabelNodes(names, g, u);
    RelabelEdges(names, g, x, x);
    var y := RelabelNeighbour(names, g, x, v);
    assert Adjacent(g, x, y);
    RelabelEdges(names, g, x, y);
    RelabelEdges(names, g, y, x);
  }

  /** The relabelled graph is again a well-formed undirected graph. */
  lemma RelabelValid(names: map<int, string>, g: Graph)
    requires Valid(g) && InjectiveOn(names, g)
    ensures Valid(RelabelGraph(names, g))
  {
    var r := RelabelGraph(names, g);
    forall i, j | 0 <= i < j < |r.nodes|
      ensures r.nodes[i] != r.nodes[j]
    {
      assert g.nodes[i] in g.adj && g.nodes[j] in g.adj;
    }
    forall u | u in r.adj
      ensures u in r.nodes
    {
      var x := RelabelNodes(names, g, u);
      var i :| 0 <= i < |g.nodes| && g.nodes[i] == x;
      assert r.nodes[i] == u;
    }
    forall i | 0 <= i < |r.nodes|
      ensures r.nodes[i] in r.adj
    {
      RelabelEdges(names, g, g.nodes[i], g.nodes[i]);
    }
    forall u, v | Adjacent(r, u, v)
      ensures v in r.adj && Adjacent(r, v, u) && r.adj[v][u] == r.adj[u][v]
    {
      RelabelSymmetric(names, g, u, v);
    }
  }

  // ---------------------------------------------------------------------
  // Walks and the ego graph

  /** A walk: consecutive nodes are adjacent. */
  predicate IsWalk(g: Graph, w: seq<Node>) {
    |w| >= 1 && w[0] in g.adj &&
    forall i :: 0 <= i < |w| - 1 ==> w[i] in g.adj && w[i + 1] in g.adj[w[i]]
  }

  function NeighbourSet(g: Graph, s: set<Node>): set<Node> {
    set u, v | u in s && u in g.adj && v in g.adj[u] :: v
  }

  /** The nodes within k hops of c. */
  function Within(g: Graph, c: Node, k: nat): set<Node>
    decreases k
  {
    if k == 0 then {c} else Within(g, c, k - 1) + NeighbourSet(g, Within(g, c, k - 1))
  }

  /** Every node within k hops is the end of a walk of at most k edges from
      c all of whose nodes are within k hops. */
  lemma {:induction false} WithinWalk(g: Graph, c: Node, k: nat, v: Node) returns (w: seq<Node>)
    requires c in g.adj && v in Within(g, c, k)
    ensures IsWalk(g, w) && w[0] == c && w[|w| - 1] == v && |w| <= k + 1
    ensures forall i :: 0 <= i < |w| ==> w[i] in Within(g, c, k)
    decreases k
  {
    if k == 0 {
      w := [c];
    } else if v in Within(g, c, k - 1) {
      w := WithinWalk(g, c, k - 1, v);
    } else {
      var u :| u in Within(g, c, k - 1) && u in g.adj && v in g.adj[u];
      var w0 := WithinWalk(g, c, k - 1, u);
      w := w0 + [v];
      SnocWalk(g, w0, v);
      forall i | 0 <= i < |w|
        ensures w[i] in Within(g, c, k)
      {
        if i < |w0| {
          assert w[i] == w0[i];
        }
      }
    }
  }

  lemma SnocWalk(g: Graph, w: seq<Node>, v: Node)
    requires IsWalk(g, w) && w[|w| - 1] in g.adj && v in g.adj[w[|w| - 1]]
    ensures IsWalk(g, w + [v])
  {
    var w' := w + [v];
    forall i | 0 <= i < |w'| - 1
      ensures w'[i] in g.adj && w'[i + 1] in g.adj[w'[i]]
    {
      if i < |w| - 1 {
        assert w'[i] == w[i] && w'[i + 1] == w[i + 1];
      }
    }
  }

  /** The end of a walk of at most k edges from c is within k hops. */
  lemma {:induction false} WalkWithin(g: Graph, c: Node, k: nat, w: seq<Node>)
    requires IsWalk(g, w) && w[0] == c && |w| <= k + 1
    ensures w[|w| - 1] in Within(g, c, k)
    decreases k
  {
    if |w| == 1 {
      WithinGrows(g, c, 0, k);
    } else {
      var w0 := w[..|w| - 1];
      assert IsWalk(g, w0);
      WalkWithin(g, c, k - 1, w0);
      assert w[|w| - 1] in g.adj[w0[|w0| - 1]];
    }
  }

  lemma {:induction false} WithinGrows(g: Graph, c: Node, j: nat, k: nat)
    requires j <= k
    ensures Within(g, c, j) <= Within(g, c, k)
    decreases k - j
  {
    if j < k {
      WithinGrows(g, c, j, k - 1);
    }
  }

  lemma {:induction false} WithinInGraph(g: Graph, c: Node, k: nat)
    requires Valid(g) && c in g.adj
    ensures Within(g, c, k) <= g.adj.Keys
    decreases k
  {
    if k > 0 {
      WithinInGraph(g, c, k - 1);
      NeighbourSetInGraph(g, Within(g, c, k - 1));
    }
  }

  lemma NeighboursInGraph(g: Graph, x: Node)
    requires Valid(g) && x in g.adj
    ensures g.adj[x].Keys <= g.adj.Keys
  {
    forall y | y in g.adj[x]
      ensures y in g.adj
    {
      assert Adjacent(g, x, y);
    }
  }

  lemma NeighbourSetInGraph(g: Graph, s: set<Node>)
    requires Valid(g)
    ensures NeighbourSet(g, s) <= g.adj.Keys
  {
    forall v | v in NeighbourSet(g, s)
      ensures v in g.adj
    {
      var u :| u in s && u in g.adj && v in g.adj[u];
      assert Adjacent(g, u, v);
    }
  }

  /** The subgraph induced by a set of nodes. */
  function Induced(g: Graph, s: set<Node>): Graph {
    Graph(Filter(g.nodes, s),
          map u | u in g.adj && u in s :: (map v | v in g.adj[u] && v in s :: g.adj[u][v]))
  }

  function Filter(ns: seq<Node>, s: set<Node>): (r: seq<Node>)
    ensures forall x :: x in r <==> x in ns && x in s
    ensures Distinct(ns) ==> Distinct(r)
    decreases |ns|
  {
    if ns == [] then []
    else if ns[0] in s then [ns[0]] + Filter(ns[1..], s)
    else Filter(ns[1..], s)
  }

  lemma InducedValid(g: Graph, s: set<Node>)
    requires Valid(g)
    ensures Valid(Induced(g, s))
  {
    var h := Induced(g, s);
    forall u | u in h.nodes
      ensures u in h.adj
    {
    }
    forall u, v | Adjacent(h, u, v)
      ensures v in h.adj && Adjacent(h, v, u) && h.adj[v][u] == h.adj[u][v]
    {
      assert Adjacent(g, u, v) && v in s;
    }
  }

  /** nx.ego_graph(G, c, radius, center=True): the nodes within radius hops of
      c and every edge of G between two of them; NodeNotFound when c is not a
      node of G. */
  function EgoGraph(g: Graph, c: Node, radius: nat): (r: Result<Graph>)
    requires Valid(g)
    ensures r.Err? <==> c !in g.adj
    ensures r.Err? ==> r.error == NodeNotFound
    ensures r.Ok? ==> Valid(r.value) && c in r.value.adj
  {
    if c !in g.adj then Err(NodeNotFound)
    else
      InducedValid(g, Within(g, c, radius));
      assert c in Within(g, c, radius) by { WithinGrows(g, c, 0, radius); }
      Ok(Induced(g, Within(g, c, radius)))
  }

  /** The ego graph holds exactly the nodes reachable from c by a walk of at
      most radius edges, and exactly the edges of G between them, with the
      same weights. */
  lemma EgoGraphNodes(g: Graph, c: Node, radius: nat, v: Node)
    requires Valid(g) && c in g.adj
    ensures v in EgoGraph(g, c, radius).value.adj <==>
      exists w :: IsWalk(g, w) && w[0] == c && w[|w| - 1] == v && |w| <= radius + 1
  {
    var s := Within(g, c, radius);
    assert EgoGraph(g, c, radius).value == Induced(g, s);
    WithinInGraph(g, c, radius);
    if v in s {
      var w := WithinWalk(g, c, radius, v);
      assert IsWalk(g, w) && w[0] == c && w[|w| - 1] == v && |w| <= radius + 1;
    }
    if exists w :: IsWalk(g, w) && w[0] == c && w[|w| - 1] == v && |w| <= radius + 1 {
      var w :| IsWalk(g, w) && w[0] == c && w[|w| - 1] == v && |w| <= radius + 1;
      WalkWithin(g, c, radius, w);
    }
  }

  lemma EgoGraphEdges(g: Graph, c: Node, radius: nat, u: Node, v: Node)
    requires Valid(g) && c in g.adj
    requires u in EgoGraph(g, c, radius).value.adj && v in EgoGraph(g, c, radius).value.adj
    ensures v in EgoGraph(g, c, radius).value.adj[u] <==> v in g.adj[u]
    ensures v in g.adj[u] ==> EgoGraph(g, c, radius).value.adj[u][v] == g.adj[u][v]
  {
  }

  /** Every ego node is reachable from the centre inside the ego graph. */
  lemma EgoConnected(g: Graph, c: Node, radius: nat, v: Node) returns (w: seq<Node>)
    requires Valid(g) && c in g.adj && v in EgoGraph(g, c, radius).value.adj
    ensures IsWalk(EgoGraph(g, c, radius).value, w) && w[0] == c && w[|w| - 1] == v
  {
    var s := Within(g, c, radius);
    var e := EgoGraph(g, c, radius).value;
    w := WithinWalk(g, c, radius, v);
    forall i | 0 <= i < |w| - 1
      ensures w[i] in e.adj && w[i + 1] in e.adj[w[i]]
    {
      assert w[i] in s && w[i + 1] in s;
    }
  }
}
