/** The networkx graph the ego-graph code changes in place: node order,
    edges with their attribute dicts (one dict shared by both directions),
    and a dict of attributes per node. */
module AttrGraphs {
  import opened Wrappers
  import opened Graphs

  /** The edge attributes the code reads or writes. */
  datatype EdgeData = EdgeData(weight: int, invweight: Option<real>, strokeWidth: Option<real>)

  /** The node attributes the code reads or writes; None is a missing key. */
  datatype NodeData = NodeData(radius: Option<real>, score: Option<real>, path: Option<seq<Node>>,
                               forceRadialFactor: Option<real>, shortestPath: Option<seq<Node>>)

  const NoData: NodeData := NodeData(None, None, None, None, None)

  type Adj = map<Node, map<Node, EdgeData>>

  type Data = map<Node, NodeData>

  datatype GraphState = GraphState(nodes: seq<Node>, adj: Adj, data: Data)

  predicate Linked(a: Adj, u: Node, v: Node) {
    u in a && v in a[u]
  }

  /** Every edge is in both directions with the same attributes. */
  ghost predicate Symmetric(a: Adj) {
    forall u, v {:trigger Linked(a, u, v)} :: Linked(a, u, v) ==>
      v in a && Linked(a, v, u) && a[v][u] == a[u][v]
  }

  ghost predicate ValidState(s: GraphState) {
    Distinct(s.nodes) &&
    (forall u :: u in s.adj <==> u in s.nodes) &&
    (forall u :: u in s.data <==> u in s.nodes) &&
    Symmetric(s.adj)
  }

  /** A copy of a graph value with empty attribute dicts besides the weight. */
  function FromGraph(g: Graph): GraphState {
    GraphState(g.nodes,
               map u | u in g.adj :: (map v | v in g.adj[u] :: EdgeData(g.adj[u][v], None, None)),
               map u | u in g.adj :: NoData)
  }

  lemma FromGraphValid(g: Graph)
    requires Graphs.Valid(g)
    ensures ValidState(FromGraph(g))
  {
    var s := FromGraph(g);
    forall u, v | Linked(s.adj, u, v)
      ensures v in s.adj && Linked(s.adj, v, u) && s.adj[v][u] == s.adj[u][v]
    {
      assert Adjacent(g, u, v);
    }
  }

  /** G.degree(n): the number of incident edges, a self-loop counting twice. */
  function Degree(a: Adj, n: Node): nat
    requires n in a
  {
    |a[n]| + (if n in a[n] then 1 else 0)
  }

  lemma DegreeZero(a: Adj, n: Node)
    requires n in a
    ensures Degree(a, n) == 0 <==> a[n] == map[]
  {
    if a[n] != map[] {
      var v :| v in a[n];
    }
  }

  lemma DegreeOfLinked(a: Adj, n: Node, v: Node)
    requires Linked(a, n, v)
    ensures Degree(a, n) > 0
  {
    DegreeZero(a, n);
  }

  /** G.degree(n, weight='weight'): the sum of the incident weights, a
      self-loop counting twice, over the neighbours among ns. */
  function WeightedDegree(a: Adj, n: Node, ns: seq<Node>): int
    decreases |ns|
  {
    if ns == [] then 0
    else
      var v := ns[|ns| - 1];
      WeightedDegree(a, n, ns[..|ns| - 1]) +
        (if Linked(a, n, v) then (if v == n then 2 else 1) * a[n][v].weight else 0)
  }

  // ---------------------------------------------------------------------
  // remove_node

  function DropNodes(ns: seq<Node>, r: set<Node>): (q: seq<Node>)
    ensures forall x :: x in q <==> x in ns && x !in r
    ensures Distinct(ns) ==> Distinct(q)
    ensures |q| <= |ns|
    decreases |ns|
  {
    if ns == [] then []
    else if ns[0] in r then DropNodes(ns[1..], r)
    else [ns[0]] + DropNodes(ns[1..], r)
  }

  /** The graph with the nodes of r and their edges removed. */
  function Drop(s: GraphState, r: set<Node>): GraphState {
    GraphState(DropNodes(s.nodes, r),
               map u | u in s.adj && u !in r :: (map v | v in s.adj[u] && v !in r :: s.adj[u][v]),
               map u | u in s.data && u !in r :: s.data[u])
  }

  lemma DropValid(s: GraphState, r: set<Node>)
    requires ValidState(s)
    ensures ValidState(Drop(s, r))
  {
    var t := Drop(s, r);
    forall u, v | Linked(t.adj, u, v)
      ensures v in t.adj && Linked(t.adj, v, u) && t.adj[v][u] == t.adj[u][v]
    {
      assert Linked(s.adj, u, v);
    }
  }

  lemma {:induction false} DropNodesTwice(ns: seq<Node>, r: set<Node>, x: set<Node>)
    ensures DropNodes(DropNodes(ns, r), x) == DropNodes(ns, r + x)
    decreases |ns|
  {
    if ns != [] {
      DropNodesTwice(ns[1..], r, x);
    }
  }

  /** Removing nodes one after another removes them all. */
  lemma DropTwice(s: GraphState, r: set<Node>, x: set<Node>)
    ensures Drop(Drop(s, r), x) == Drop(s, r + x)
  {
    DropNodesTwice(s.nodes, r, x);
    DropAdjTwice(s.adj, r, x);
    var d := Drop(Drop(s, r), x).data;
    var e := Drop(s, r + x).data;
    assert d.Keys == e.Keys;
    assert d == e;
  }

  lemma DropAdjTwice(a: Adj, r: set<Node>, x: set<Node>)
    ensures Drop(Drop(GraphState([], a, map[]), r), x).adj == Drop(GraphState([], a, map[]), r + x).adj
  {
    var b := Drop(Drop(GraphState([], a, map[]), r), x).adj;
    var c := Drop(GraphState([], a, map[]), r + x).adj;
    assert b.Keys == c.Keys;
    forall u | u in b
      ensures b[u] == c[u]
    {
      assert b[u].Keys == c[u].Keys;
    }
  }

  lemma DropNothing(s: GraphState)
    ensures Drop(s, {}) == s
  {
    DropNodesNothing(s.nodes);
    DropAdjNothing(s.adj);
    assert Drop(s, {}).data == s.data;
  }

  lemma DropAdjNothing(a: Adj)
    ensures Drop(GraphState([], a, map[]), {}).adj == a
  {
    var b := Drop(GraphState([], a, map[]), {}).adj;
    forall u | u in b
      ensures b[u] == a[u]
    {
      assert b[u].Keys == a[u].Keys;
    }
    assert b.Keys == a.Keys;
  }

  lemma {:induction false} DropNodesNothing(ns: seq<Node>)
    ensures DropNodes(ns, {}) == ns
    decreases |ns|
  {
    if ns != [] {
      DropNodesNothing(ns[1..]);
    }
  }

  lemma {:induction false} DropNodesCount(ns: seq<Node>, r: set<Node>)
    ensures |DropNodes(ns, r)| == |ns| - CountIn(ns, r)
    decreases |ns|
  {
    if ns != [] {
      DropNodesCount(ns[1..], r);
    }
  }

  /** How many of ns lie in r. */
  function CountIn(ns: seq<Node>, r: set<Node>): (k: nat)
    ensures k <= |ns|
    decreases |ns|
  {
    if ns == [] then 0 else (if ns[0] in r then 1 else 0) + CountIn(ns[1..], r)
  }

  // ---------------------------------------------------------------------
  // Attribute updates

  /** The node dicts of s updated by f, for the nodes in done. */
  function UpdateData(d: Data, done: set<Node>, f: (Node, NodeData) -> NodeData): Data {
    map n | n in d :: if n in done then f(n, d[n]) else d[n]
  }

  lemma UpdateDataStep(d: Data, done: set<Node>, f: (Node, NodeData) -> NodeData, x: Node)
    requires x in d
    ensures UpdateData(d, done + {x}, f) == UpdateData(d, done, f)[x := f(x, d[x])]
  {
  }

  lemma UpdateDataNone(d: Data, f: (Node, NodeData) -> NodeData)
    ensures UpdateData(d, {}, f) == d
  {
  }

  /** The edge dicts leaving one node, each updated by f. */
  function EdgeRow(m: map<Node, EdgeData>, f: EdgeData -> EdgeData): (r: map<Node, EdgeData>)
    ensures r.Keys == m.Keys
  {
    map v | v in m :: f(m[v])
  }

  /** The edge dicts of every edge leaving a node in done updated by f. */
  function UpdateEdges(a: Adj, done: set<Node>, f: EdgeData -> EdgeData): Adj {
    map u | u in a :: if u in done then EdgeRow(a[u], f) else a[u]
  }

  lemma UpdateEdgesStep(a: Adj, done: set<Node>, f: EdgeData -> EdgeData, x: Node)
    requires x in a
    ensures UpdateEdges(a, done + {x}, f) == UpdateEdges(a, done, f)[x := EdgeRow(a[x], f)]
  {
  }

  lemma UpdateEdgesNone(a: Adj, f: EdgeData -> EdgeData)
    ensures UpdateEdges(a, {}, f) == a
  {
  }

  /** Once every node is done, each edge's one dict is updated, in both
      directions alike. */
  lemma UpdateEdgesSymmetric(a: Adj, f: EdgeData -> EdgeData)
    requires Symmetric(a)
    ensures Symmetric(UpdateEdges(a, a.Keys, f))
  {
    var b := UpdateEdges(a, a.Keys, f);
    forall u, v | Linked(b, u, v)
      ensures v in b && Linked(b, v, u) && b[v][u] == b[u][v]
    {
      assert Linked(a, u, v);
    }
  }

  // ---------------------------------------------------------------------
  // G.edges()

  /** The edges from u to the nodes of vs, in the order of vs. */
  function EdgesFrom(a: Adj, u: Node, vs: seq<Node>): (r: seq<(Node, Node)>)
    ensures forall e :: e in r <==> e.0 == u && e.1 in vs && Linked(a, u, e.1)
    ensures Distinct(vs) ==> Distinct(r)
    decreases |vs|
  {
    if vs == [] then []
    else (if Linked(a, u, vs[0]) then [(u, vs[0])] else []) + EdgesFrom(a, u, vs[1..])
  }

  /** G.edges(): every node in order with its neighbours not listed before
      it, itself included (a self-loop), so each edge comes once, from its
      endpoint that comes first. */
  function EdgeList(ns: seq<Node>, a: Adj): seq<(Node, Node)>
    decreases |ns|
  {
    if ns == [] then [] else EdgesFrom(a, ns[0], ns) + EdgeList(ns[1..], a)
  }

  predicate InOrder(ns: seq<Node>, x: Node, y: Node) {
    exists i, j :: 0 <= i <= j < |ns| && ns[i] == x && ns[j] == y
  }

  lemma InOrderTail(ns: seq<Node>, x: Node, y: Node)
    requires ns != []
    ensures InOrder(ns, x, y) <==> (x == ns[0] && y in ns) || InOrder(ns[1..], x, y)
  {
    if InOrder(ns, x, y) {
      var i, j :| 0 <= i <= j < |ns| && ns[i] == x && ns[j] == y;
      if i > 0 {
        assert ns[1..][i - 1] == x && ns[1..][j - 1] == y;
      }
    }
    if x == ns[0] && y in ns {
      var j :| 0 <= j < |ns| && ns[j] == y;
      assert ns[0] == x;
    }
    if InOrder(ns[1..], x, y) {
      var i, j :| 0 <= i <= j < |ns[1..]| && ns[1..][i] == x && ns[1..][j] == y;
      assert ns[i + 1] == x && ns[j + 1] == y;
    }
  }

  /** G.edges() lists (x, y) exactly for the edges whose x does not come
      after y in the node order. */
  lemma {:induction false} EdgeListMember(ns: seq<Node>, a: Adj, x: Node, y: Node)
    ensures (x, y) in EdgeList(ns, a) <==> Linked(a, x, y) && InOrder(ns, x, y)
    decreases |ns|
  {
    if ns != [] {
      EdgeListMember(ns[1..], a, x, y);
      InOrderTail(ns, x, y);
    }
  }

  lemma {:induction false} EdgeListFrom(ns: seq<Node>, a: Adj, e: (Node, Node))
    requires e in EdgeList(ns, a)
    ensures e.0 in ns && e.1 in ns
    decreases |ns|
  {
    if e !in EdgesFrom(a, ns[0], ns) {
      EdgeListFrom(ns[1..], a, e);
    }
  }

  lemma {:induction false} EdgeListDistinct(ns: seq<Node>, a: Adj)
    requires Distinct(ns)
    ensures Distinct(EdgeList(ns, a))
    decreases |ns|
  {
    if ns != [] {
      var h := EdgesFrom(a, ns[0], ns);
      var t := EdgeList(ns[1..], a);
      assert Distinct(ns[1..]);
      EdgeListDistinct(ns[1..], a);
      forall e | e in t
        ensures e !in h
      {
        EdgeListFrom(ns[1..], a, e);
      }
      forall i, j | 0 <= i < j < |h + t|
        ensures (h + t)[i] != (h + t)[j]
      {
        if i < |h| && j >= |h| {
          assert (h + t)[j] in t;
        }
      }
    }
  }

  /** In a valid state G.edges() lists each edge exactly once: in one of its
      two directions, never in both, and never twice. */
  lemma EdgeListOnce(s: GraphState, x: Node, y: Node)
    requires ValidState(s) && Linked(s.adj, x, y)
    ensures (x, y) in EdgeList(s.nodes, s.adj) || (y, x) in EdgeList(s.nodes, s.adj)
    ensures x != y ==> !((x, y) in EdgeList(s.nodes, s.adj) && (y, x) in EdgeList(s.nodes, s.adj))
    ensures Distinct(EdgeList(s.nodes, s.adj))
  {
    var ns := s.nodes;
    EdgeListMember(ns, s.adj, x, y);
    EdgeListMember(ns, s.adj, y, x);
    EdgeListDistinct(ns, s.adj);
    assert Linked(s.adj, y, x);
    var i :| 0 <= i < |ns| && ns[i] == x;
    var j :| 0 <= j < |ns| && ns[j] == y;
    if i <= j {
      assert InOrder(ns, x, y);
    } else {
      assert InOrder(ns, y, x);
    }
    if InOrder(ns, x, y) && InOrder(ns, y, x) {
      InOrderAntisymmetric(ns, x, y);
    }
  }

  /** Each edge is listed in one of its two directions, as an index. */
  lemma EdgeListIndex(s: GraphState, x: Node, y: Node) returns (k: nat)
    requires ValidState(s) && Linked(s.adj, x, y)
    ensures k < |EdgeList(s.nodes, s.adj)|
    ensures EdgeList(s.nodes, s.adj)[k] == (x, y) || EdgeList(s.nodes, s.adj)[k] == (y, x)
  {
    var ns := s.nodes;
    assert Linked(s.adj, y, x);
    var i :| 0 <= i < |ns| && ns[i] == x;
    var j :| 0 <= j < |ns| && ns[j] == y;
    if i <= j {
      EdgeListMember(ns, s.adj, x, y);
      assert InOrder(ns, x, y);
      k :| 0 <= k < |EdgeList(ns, s.adj)| && EdgeList(ns, s.adj)[k] == (x, y);
    } else {
      EdgeListMember(ns, s.adj, y, x);
      assert InOrder(ns, y, x);
      k :| 0 <= k < |EdgeList(ns, s.adj)| && EdgeList(ns, s.adj)[k] == (y, x);
    }
  }

  lemma InOrderAntisymmetric(ns: seq<Node>, x: Node, y: Node)
    requires Distinct(ns) && InOrder(ns, x, y) && InOrder(ns, y, x)
    ensures x == y
  {
    var i1, j1 :| 0 <= i1 <= j1 < |ns| && ns[i1] == x && ns[j1] == y;
    var i2, j2 :| 0 <= i2 <= j2 < |ns| && ns[i2] == y && ns[j2] == x;
    assert i1 == j2;
  }

  /** Every listed pair is an edge. */
  lemma EdgeListEdges(s: GraphState, e: (Node, Node))
    requires e in EdgeList(s.nodes, s.adj)
    ensures Linked(s.adj, e.0, e.1)
  {
    EdgeListMember(s.nodes, s.adj, e.0, e.1);
  }

  /** The nodes visited by a loop over ns, one more at each step. */
  lemma PrefixStep(ns: seq<Node>, i: nat, done: set<Node>)
    requires i < |ns| && Distinct(ns)
    requires forall x :: x in done <==> x in ns[..i]
    ensures ns[i] !in done
    ensures forall x :: x in done + {ns[i]} <==> x in ns[..i + 1]
  {
    assert ns[..i + 1] == ns[..i] + [ns[i]];
  }

  // ---------------------------------------------------------------------
  // The graph object

  class AttrGraph {
    var nodes: seq<Node>
    var adj: Adj
    var data: Data

    function State(): GraphState
      reads this
    {
      GraphState(nodes, adj, data)
    }

    /** A fresh graph holding a copy of g. */
    constructor (g: Graph)
      ensures State() == FromGraph(g)
    {
      var s := FromGraph(g);
      nodes := s.nodes;
      adj := s.adj;
      data := s.data;
    }

    /** for node in G.nodes(): G.nodes[node][...] = ...: every node's dict
        updated by f, nothing else changed. */
    method UpdateEachNode(f: (Node, NodeData) -> NodeData)
      requires ValidState(State())
      modifies this
      ensures State() == old(State()).(data := UpdateData(old(data), old(data).Keys, f))
    {
      var ns := nodes;
      ghost var d0 := data;
      ghost var done: set<Node> := {};
      for i := 0 to |ns|
        invariant nodes == ns && adj == old(adj)
        invariant data == UpdateData(d0, done, f)
        invariant forall x :: x in done <==> x in ns[..i]
      {
        var n := ns[i];
        PrefixStep(ns, i, done);
        data := data[n := f(n, data[n])];
        UpdateDataStep(d0, done, f, n);
        done := done + {n};
      }
      assert ns[..|ns|] == ns;
      assert done == d0.Keys;
    }

    /** for edge in G.edges(): G.edges[edge][...] = ...: every edge's one
        dict updated by f, nothing else changed. */
    method UpdateEachEdge(f: EdgeData -> EdgeData)
      requires ValidState(State())
      modifies this
      ensures State() == old(State()).(adj := UpdateEdges(old(adj), old(adj).Keys, f))
    {
      var ns := nodes;
      ghost var a0 := adj;
      ghost var done: set<Node> := {};
      for i := 0 to |ns|
        invariant nodes == ns && data == old(data)
        invariant adj == UpdateEdges(a0, done, f)
        invariant forall x :: x in done <==> x in ns[..i]
      {
        var u := ns[i];
        var nb := adj[u];
        PrefixStep(ns, i, done);
        assert nb == a0[u];
        adj := adj[u := EdgeRow(nb, f)];
        UpdateEdgesStep(a0, done, f, u);
        done := done + {u};
      }
      assert ns[..|ns|] == ns;
      assert done == a0.Keys;
    }

    /** G.nodes[n] = x for a node of the graph. */
    method SetNode(n: Node, x: NodeData)
      requires n in data
      modifies this
      ensures State() == old(State()).(data := old(data)[n := x])
    {
      data := data[n := x];
    }

    /** G.remove_node(n): the node, its edges and its dict go. */
    method RemoveNode(n: Node)
      requires n in adj
      modifies this
      ensures State() == Drop(old(State()), {n})
    {
      var s := Drop(State(), {n});
      nodes := s.nodes;
      adj := s.adj;
      data := s.data;
    }
  }
}
