/** The steps of EgoGraphs.setNodeRadii, each as a function of the graph
    state before it: the radius of every node, the path score of every
    node but the centre, the trim by an order statistic of the scores, the
    removal of isolated nodes, the rescaling of scores into radii and the
    radial force factor; and the 'linear_indeg' method, which sizes nodes by
    weighted degree instead. */
module NodeRadii {
  import opened Wrappers
  import opened Graphs
  import opened AttrGraphs
  import opened ShortestPaths
  import opened Partition
  import opened Extrema

  const MinRadius: real := 3.0
  const MaxRadius: real := 10.0
  /** The centre's radius, 1.25 * max_radius. */
  const CentreRadius: real := 1.25 * MaxRadius
  /** The node count the trim aims at. */
  const MaxSize: nat := 250
  /** The penalty per hop away from the centre. */
  const Alpha: real := 0.1

  /** float(x - lo) / float(max(1, hi - lo)) */
  function Rescale(x: real, lo: real, hi: real): real {
    (x - lo) / Max2(1.0, hi - lo)
  }

  /** A value between lo and hi rescales into [0, 1]; lo itself to 0, and
      hi to 1 when hi - lo >= 1. */
  lemma RescaleBounds(x: real, lo: real, hi: real)
    requires lo <= x <= hi
    ensures 0.0 <= Rescale(x, lo, hi) <= 1.0
    ensures x == lo ==> Rescale(x, lo, hi) == 0.0
    ensures x == hi && hi - lo >= 1.0 ==> Rescale(x, lo, hi) == 1.0
  {
    var d := Max2(1.0, hi - lo);
    assert x - lo <= d;
    assert (x - lo) / d <= d / d;
  }

  // ---------------------------------------------------------------------
  // radius = min_radius everywhere, then 1.25 * max_radius at the centre

  function InitRadius(n: Node, x: NodeData): NodeData {
    x.(radius := Some(MinRadius))
  }

  function InitRadii(s: GraphState, centre: Node): Result<GraphState> {
    var d := UpdateData(s.data, s.data.Keys, InitRadius);
    if centre !in d then Err(KeyError)
    else Ok(s.(data := d[centre := d[centre].(radius := Some(CentreRadius))]))
  }

  /** Every node gets radius 3 but the centre, which gets 12.5; nothing else
      changes. */
  lemma InitRadiiFacts(s: GraphState, centre: Node, n: Node)
    ensures InitRadii(s, centre).Err? <==> centre !in s.data
    ensures InitRadii(s, centre).Err? ==> InitRadii(s, centre).error == KeyError
    ensures InitRadii(s, centre).Ok? ==>
      InitRadii(s, centre).value.nodes == s.nodes && InitRadii(s, centre).value.adj == s.adj &&
      InitRadii(s, centre).value.data.Keys == s.data.Keys
    ensures InitRadii(s, centre).Ok? && n in s.data ==>
      InitRadii(s, centre).value.data[n] ==
        s.data[n].(radius := Some(if n == centre then CentreRadius else MinRadius))
  {
  }

  // ---------------------------------------------------------------------
  // The path score

  function Power(x: real, k: nat): real {
    if k == 0 then 1.0 else x * Power(x, k - 1)
  }

  lemma {:induction false} PowerPositive(x: real, k: nat)
    requires x > 0.0
    ensures Power(x, k) > 0.0
  {
    if k > 0 {
      PowerPositive(x, k - 1);
    }
  }

  /** weight(p[i-1], p[i]) / degree(p[i-1]) * alpha**(i-1), with the
      degree in the graph the score is computed on.  A pair that is not an
      edge does not occur on the paths single_source_dijkstra returns. */
  function Term(a: Adj, p: seq<Node>, i: nat): real
    requires 1 <= i < |p|
  {
    if Linked(a, p[i - 1], p[i]) then
      DegreeOfLinked(a, p[i - 1], p[i]);
      (a[p[i - 1]][p[i]].weight as real) / (Degree(a, p[i - 1]) as real) * Power(Alpha, i - 1)
    else 0.0
  }

  /** The per-hop terms of a path, one per edge. */
  function Terms(a: Adj, p: seq<Node>): (r: seq<real>)
    ensures |p| >= 2 ==> |r| == |p| - 1
  {
    if |p| < 2 then [] else seq(|p| - 1, k requires 0 <= k < |p| - 1 => Term(a, p, k + 1))
  }

  predicate AlongEdges(a: Adj, p: seq<Node>) {
    forall i :: 0 <= i < |p| - 1 ==> Linked(a, p[i], p[i + 1])
  }

  /** On a path along edges of positive weight every term is positive. */
  lemma TermsPositive(a: Adj, p: seq<Node>)
    requires |p| >= 2 && AlongEdges(a, p)
    requires forall u, v {:trigger Linked(a, u, v)} :: Linked(a, u, v) ==> a[u][v].weight > 0
    ensures |Terms(a, p)| == |p| - 1
    ensures forall k :: 0 <= k < |Terms(a, p)| ==> Terms(a, p)[k] > 0.0
  {
    forall k | 0 <= k < |p| - 1
      ensures Terms(a, p)[k] > 0.0
    {
      assert Linked(a, p[k], p[k + 1]);
      DegreeOfLinked(a, p[k], p[k + 1]);
      PowerPositive(Alpha, k);
      var w := a[p[k]][p[k + 1]].weight as real;
      var d := Degree(a, p[k]) as real;
      assert w / d > 0.0;
    }
  }

  /** The score and path a node gets from the path table: only for a path
      of at least one edge, so never for the centre. */
  function ScoreData(a: Adj, t: Table, agg: seq<real> -> real): (Node, NodeData) -> NodeData {
    (n: Node, x: NodeData) =>
      if n in t && |t[n].path| >= 2 then
        x.(score := Some(agg(Terms(a, t[n].path))), path := Some(t[n].path))
      else x
  }

  /** The loop over path_dict; agg stands for exp(mean(log(terms))). */
  function SetScores(s: GraphState, t: Table, agg: seq<real> -> real): GraphState {
    s.(data := UpdateData(s.data, s.data.Keys, ScoreData(s.adj, t, agg)))
  }

  lemma SetScoresFacts(s: GraphState, t: Table, agg: seq<real> -> real, n: Node)
    ensures SetScores(s, t, agg).nodes == s.nodes && SetScores(s, t, agg).adj == s.adj
    ensures SetScores(s, t, agg).data.Keys == s.data.Keys
    ensures n in s.data && n in t && |t[n].path| >= 2 ==>
      SetScores(s, t, agg).data[n] ==
        s.data[n].(score := Some(agg(Terms(s.adj, t[n].path))), path := Some(t[n].path))
    ensures n in s.data && !(n in t && |t[n].path| >= 2) ==> SetScores(s, t, agg).data[n] == s.data[n]
  {
  }

  // ---------------------------------------------------------------------
  // The trim

  /** [t[1]['score'] for t in ego.nodes(data=True) if 'score' in t[1]] */
  function ScoreList(ns: seq<Node>, d: Data): seq<real>
    decreases |ns|
  {
    if ns == [] then []
    else (if ns[0] in d && d[ns[0]].score.Some? then [d[ns[0]].score.value] else []) + ScoreList(ns[1..], d)
  }

  predicate Scored(d: Data, n: Node) {
    n in d && d[n].score.Some?
  }

  lemma {:induction false} ScoreListMember(ns: seq<Node>, d: Data, n: Node)
    requires n in ns && Scored(d, n)
    ensures d[n].score.value in ScoreList(ns, d)
    decreases |ns|
  {
    if ns[0] != n {
      ScoreListMember(ns[1..], d, n);
    }
  }

  lemma {:induction false} ScoreListFrom(ns: seq<Node>, d: Data, x: real) returns (n: Node)
    requires x in ScoreList(ns, d)
    ensures n in ns && Scored(d, n) && d[n].score.value == x
    decreases |ns|
  {
    if Scored(d, ns[0]) && x == d[ns[0]].score.value {
      n := ns[0];
    } else {
      n := ScoreListFrom(ns[1..], d, x);
    }
  }

  lemma ScoreListEmpty(ns: seq<Node>, d: Data)
    ensures ScoreList(ns, d) == [] <==> forall n :: n in ns ==> !Scored(d, n)
  {
    if ScoreList(ns, d) != [] {
      var n := ScoreListFrom(ns, d, ScoreList(ns, d)[0]);
    }
    forall n | n in ns && Scored(d, n)
      ensures ScoreList(ns, d) != []
    {
      ScoreListMember(ns, d, n);
    }
  }

  /** ind = max(0, len(ego) - max_size) */
  function TrimIndex(s: GraphState): nat {
    if |s.nodes| > MaxSize then |s.nodes| - MaxSize else 0
  }

  predicate CanTrim(s: GraphState) {
    TrimIndex(s) < |ScoreList(s.nodes, s.data)|
  }

  /** limit = np.partition(scores, ind)[ind] */
  function Limit(s: GraphState): real
    requires CanTrim(s)
  {
    Kth(ScoreList(s.nodes, s.data), TrimIndex(s))
  }

  function BelowSet(d: Data, limit: real): set<Node> {
    set n | n in d && d[n].score.Some? && d[n].score.value < limit
  }

  /** The trim: an empty score list partitions to an empty array, whose
      `[ind]` raises IndexError; np.partition raises ValueError for an
      index past a non-empty score list; otherwise the scored nodes below
      the limit go. */
  function Trim(s: GraphState): Result<GraphState> {
    if !CanTrim(s) then Err(if ScoreList(s.nodes, s.data) == [] then IndexError else ValueError)
    else Ok(Drop(s, BelowSet(s.data, Limit(s))))
  }

  lemma {:induction false} CountBelowScores(ns: seq<Node>, d: Data, limit: real)
    ensures CountIn(ns, BelowSet(d, limit)) == CountBelow(ScoreList(ns, d), limit)
    decreases |ns|
  {
    if ns != [] {
      CountBelowScores(ns[1..], d, limit);
      var h := if ns[0] in d && d[ns[0]].score.Some? then [d[ns[0]].score.value] else [];
      CountBelowAppend(h, ScoreList(ns[1..], d), limit);
      assert CountBelow(h, limit) == (if ns[0] in BelowSet(d, limit) then 1 else 0) by {
        if h != [] {
          assert h[..0] == [];
        }
      }
    }
  }

  lemma {:induction false} CountInNone(ns: seq<Node>, r: set<Node>, x: Node)
    requires CountIn(ns, r) == 0 && x in ns
    ensures x !in r
    decreases |ns|
  {
    if ns[0] != x {
      CountInNone(ns[1..], r, x);
    }
  }

  /** At most ind nodes go, so nothing goes from a graph of at most 250
      nodes and at least 250 stay in a larger one. */
  lemma TrimCount(s: GraphState)
    requires ValidState(s) && CanTrim(s)
    ensures |Trim(s).value.nodes| == |s.nodes| - CountBelow(ScoreList(s.nodes, s.data), Limit(s))
    ensures |Trim(s).value.nodes| >= |s.nodes| - TrimIndex(s)
    ensures |s.nodes| <= MaxSize ==> Trim(s).value == s
    ensures |s.nodes| > MaxSize ==> |Trim(s).value.nodes| >= MaxSize
  {
    var scores := ScoreList(s.nodes, s.data);
    var r := BelowSet(s.data, Limit(s));
    DropNodesCount(s.nodes, r);
    CountBelowScores(s.nodes, s.data, Limit(s));
    KthCounts(scores, TrimIndex(s));
    if |s.nodes| <= MaxSize {
      forall x | x in r
        ensures false
      {
        CountInNone(s.nodes, r, x);
      }
      assert r == {};
      DropNothing(s);
    }
  }

  /** The trim fails exactly when there are no more scores than ind:
      with IndexError exactly when no node is scored, and with ValueError
      when some are but no more than ind. */
  lemma TrimError(s: GraphState)
    ensures Trim(s).Err? <==> TrimIndex(s) >= |ScoreList(s.nodes, s.data)|
    ensures Trim(s) == Err(IndexError) <==> forall m :: m in s.nodes ==> !Scored(s.data, m)
    ensures Trim(s) == Err(ValueError) <==>
      ScoreList(s.nodes, s.data) != [] && TrimIndex(s) >= |ScoreList(s.nodes, s.data)|
  {
    ScoreListEmpty(s.nodes, s.data);
  }

  /** Exactly the scored nodes below the limit go; the unscored nodes, the
      centre among them, all stay. */
  lemma TrimNodes(s: GraphState, n: Node)
    requires ValidState(s) && CanTrim(s)
    ensures ValidState(Trim(s).value)
    ensures n in Trim(s).value.nodes <==>
      n in s.nodes && !(Scored(s.data, n) && s.data[n].score.value < Limit(s))
  {
    DropValid(s, BelowSet(s.data, Limit(s)));
  }

  /** Every node that stays keeps its dict, and a scored one is at the limit
      or above; its edges are those to the nodes that stay. */
  lemma TrimKeeps(s: GraphState, n: Node)
    requires ValidState(s) && CanTrim(s) && n in Trim(s).value.data
    ensures Trim(s).value.data[n] == s.data[n]
    ensures Scored(s.data, n) ==> s.data[n].score.value >= Limit(s)
    ensures n in Trim(s).value.adj ==>
      forall v :: v in Trim(s).value.adj[n] <==> v in s.adj[n] && v in Trim(s).value.adj
  {
    forall v | n in s.adj && v in s.adj[n]
      ensures v in s.adj
    {
      assert Linked(s.adj, n, v);
    }
  }

  // ---------------------------------------------------------------------
  // Isolated nodes

  function IsolatedSet(s: GraphState): set<Node> {
    set n | n in s.adj && Degree(s.adj, n) == 0
  }

  function DropIsolated(s: GraphState): GraphState {
    Drop(s, IsolatedSet(s))
  }

  /** Removing isolated nodes leaves every other node's edges as they were. */
  lemma KeepsEdges(s: GraphState, x: set<Node>, n: Node)
    requires ValidState(s) && x <= IsolatedSet(s) && n in s.adj && n !in x
    ensures n in Drop(s, x).adj && Drop(s, x).adj[n] == s.adj[n]
  {
    forall v | v in s.adj[n]
      ensures v !in x
    {
      assert Linked(s.adj, n, v);
      DegreeOfLinked(s.adj, v, n);
    }
    DropRow(s, x, n);
  }

  lemma DropRow(s: GraphState, x: set<Node>, n: Node)
    requires n in s.adj && n !in x && forall v :: v in s.adj[n] ==> v !in x
    ensures n in Drop(s, x).adj && Drop(s, x).adj[n] == s.adj[n]
  {
    assert Drop(s, x).adj[n].Keys == s.adj[n].Keys;
  }

  /** After the pass no node is isolated, the centre included; exactly the
      isolated nodes went, and every other node keeps its edges and dict. */
  lemma DropIsolatedFacts(s: GraphState, n: Node)
    requires ValidState(s)
    ensures ValidState(DropIsolated(s))
    ensures n in DropIsolated(s).nodes <==> n in s.nodes && Degree(s.adj, n) > 0
    ensures n in DropIsolated(s).adj ==>
      DropIsolated(s).adj[n] == s.adj[n] && Degree(DropIsolated(s).adj, n) > 0
    ensures n in DropIsolated(s).data ==> DropIsolated(s).data[n] == s.data[n]
  {
    DropValid(s, IsolatedSet(s));
    if n in s.adj && n !in IsolatedSet(s) {
      KeepsEdges(s, IsolatedSet(s), n);
    }
  }

  // ---------------------------------------------------------------------
  // Scores to radii

  function RadiusData(lo: real, hi: real): (Node, NodeData) -> NodeData {
    (n: Node, x: NodeData) =>
      if x.score.Some? then x.(radius := Some(MinRadius + (MaxRadius - MinRadius) * Rescale(x.score.value, lo, hi)))
      else x
  }

  /** min() and max() of the scores raise ValueError when no node is
      scored; otherwise every scored node's score is rescaled into a radius. */
  function Normalise(s: GraphState): Result<GraphState> {
    var scores := ScoreList(s.nodes, s.data);
    if scores == [] then Err(ValueError)
    else Ok(s.(data := UpdateData(s.data, s.data.Keys, RadiusData(MinReal(scores), MaxReal(scores)))))
  }

  predicate LeastScore(s: GraphState, n: Node) {
    Scored(s.data, n) &&
    forall m :: m in s.nodes && Scored(s.data, m) ==> s.data[n].score.value <= s.data[m].score.value
  }

  predicate GreatestScore(s: GraphState, n: Node) {
    Scored(s.data, n) &&
    forall m :: m in s.nodes && Scored(s.data, m) ==> s.data[m].score.value <= s.data[n].score.value
  }

  /** Normalisation fails, with ValueError, exactly when no node is scored;
      otherwise it changes only the radii of the scored nodes. */
  lemma NormaliseError(s: GraphState, n: Node)
    ensures Normalise(s).Err? <==> forall m :: m in s.nodes ==> !Scored(s.data, m)
    ensures Normalise(s).Err? ==> Normalise(s).error == ValueError
    ensures Normalise(s).Ok? ==>
      Normalise(s).value.nodes == s.nodes && Normalise(s).value.adj == s.adj &&
      Normalise(s).value.data.Keys == s.data.Keys
    ensures Normalise(s).Ok? && n in s.data && !Scored(s.data, n) ==>
      Normalise(s).value.data[n] == s.data[n]
    ensures Normalise(s).Ok? && Scored(s.data, n) ==>
      Normalise(s).value.data[n] == s.data[n].(radius := Normalise(s).value.data[n].radius)
  {
    ScoreListEmpty(s.nodes, s.data);
  }

  /** Each scored node's radius lies in [3, 10]. */
  lemma NormaliseRange(s: GraphState, n: Node)
    requires Normalise(s).Ok? && n in s.nodes && Scored(s.data, n)
    ensures Normalise(s).value.data[n].radius.Some?
    ensures MinRadius <= Normalise(s).value.data[n].radius.value <= MaxRadius
  {
    var scores := ScoreList(s.nodes, s.data);
    ScoreListMember(s.nodes, s.data, n);
    RescaleBounds(s.data[n].score.value, MinReal(scores), MaxReal(scores));
  }

  /** A node of least score gets radius 3. */
  lemma NormaliseLeast(s: GraphState, n: Node)
    requires Normalise(s).Ok? && n in s.nodes && LeastScore(s, n)
    ensures Normalise(s).value.data[n].radius == Some(MinRadius)
  {
    var scores := ScoreList(s.nodes, s.data);
    var x := s.data[n].score.value;
    ScoreListMember(s.nodes, s.data, n);
    var m := ScoreListFrom(s.nodes, s.data, MinReal(scores));
    assert x == MinReal(scores);
    RescaleBounds(x, MinReal(scores), MaxReal(scores));
  }

  /** A node of greatest score gets radius 10 when the scores span at least
      1; a narrower span is not stretched (the divisor is max(1, span)). */
  lemma NormaliseGreatest(s: GraphState, n: Node)
    requires Normalise(s).Ok? && n in s.nodes && GreatestScore(s, n)
    requires MaxReal(ScoreList(s.nodes, s.data)) - MinReal(ScoreList(s.nodes, s.data)) >= 1.0
    ensures Normalise(s).value.data[n].radius == Some(MaxRadius)
  {
    var scores := ScoreList(s.nodes, s.data);
    var x := s.data[n].score.value;
    ScoreListMember(s.nodes, s.data, n);
    var m := ScoreListFrom(s.nodes, s.data, MaxReal(scores));
    assert x == MaxReal(scores);
    RescaleBounds(x, MinReal(scores), MaxReal(scores));
  }

  // ---------------------------------------------------------------------
  // The radial force factor

  /** max(0, 1 - (radius - min_radius) / max(1, max_radius - min_radius)) ** 2 */
  function Factor(r: real): real {
    var f := Max2(0.0, 1.0 - (r - MinRadius) / Max2(1.0, MaxRadius - MinRadius));
    f * f
  }

  /** For a radius of at least 3 the factor lies in [0, 1]; it is 1 at 3
      and 0 from 10 on, so 0 for the centre's 12.5. */
  lemma FactorFacts(r: real)
    requires r >= MinRadius
    ensures 0.0 <= Factor(r) <= 1.0
    ensures r == MinRadius ==> Factor(r) == 1.0
    ensures r >= MaxRadius ==> Factor(r) == 0.0
  {
    var f := Max2(0.0, 1.0 - (r - MinRadius) / 7.0);
    assert 0.0 <= f <= 1.0;
    assert f * f <= f * 1.0;
  }

  function ForceData(n: Node, x: NodeData): NodeData {
    x.(forceRadialFactor := Some(Factor(x.radius.GetOr(0.0))))
  }

  predicate AllRadii(s: GraphState) {
    forall n :: n in s.data ==> s.data[n].radius.Some?
  }

  /** The factor loop reads every node's radius (KeyError where there is
      none) and stores its factor. */
  function Force(s: GraphState): Result<GraphState> {
    if !AllRadii(s) then Err(KeyError)
    else Ok(s.(data := UpdateData(s.data, s.data.Keys, ForceData)))
  }

  lemma ForceFacts(s: GraphState, n: Node)
    ensures Force(s).Ok? <==> AllRadii(s)
    ensures Force(s).Ok? ==>
      Force(s).value.nodes == s.nodes && Force(s).value.adj == s.adj && Force(s).value.data.Keys == s.data.Keys
    ensures Force(s).Ok? && n in s.data ==>
      Force(s).value.data[n] == s.data[n].(forceRadialFactor := Some(Factor(s.data[n].radius.value)))
  {
  }

  // ---------------------------------------------------------------------
  // method='linear_indeg'

  function DegreeList(s: GraphState): (r: seq<int>)
    ensures |r| == |s.nodes|
  {
    seq(|s.nodes|, i requires 0 <= i < |s.nodes| => WeightedDegree(s.adj, s.nodes[i], s.nodes))
  }

  function IndegData(s: GraphState, lo: int, hi: int): (Node, NodeData) -> NodeData {
    (n: Node, x: NodeData) =>
      x.(radius := Some(MinRadius + (MaxRadius - MinRadius) *
                         Rescale(WeightedDegree(s.adj, n, s.nodes) as real, lo as real, hi as real)))
  }

  /** min() of the degrees raises ValueError on an empty graph; otherwise
      every node's radius is its rescaled weighted degree. */
  function LinearRadii(s: GraphState): Result<GraphState> {
    var degrees := DegreeList(s);
    if degrees == [] then Err(ValueError)
    else Ok(s.(data := UpdateData(s.data, s.data.Keys, IndegData(s, MinInt(degrees), MaxInt(degrees)))))
  }

  /** linear_indeg sets every node's radius, and only that, in [3, 10]. */
  lemma LinearRadiiRange(s: GraphState, k: nat)
    requires ValidState(s) && k < |s.nodes|
    ensures LinearRadii(s).Ok?
    ensures LinearRadii(s).value.nodes == s.nodes && LinearRadii(s).value.adj == s.adj
    ensures LinearRadii(s).value.data.Keys == s.data.Keys
    ensures LinearRadii(s).value.data[s.nodes[k]] ==
      s.data[s.nodes[k]].(radius := LinearRadii(s).value.data[s.nodes[k]].radius)
    ensures LinearRadii(s).value.data[s.nodes[k]].radius.Some?
    ensures MinRadius <= LinearRadii(s).value.data[s.nodes[k]].radius.value <= MaxRadius
  {
    var degrees := DegreeList(s);
    assert s.nodes[k] in s.data;
    RescaleBounds(degrees[k] as real, MinInt(degrees) as real, MaxInt(degrees) as real);
  }

  /** min() of the degrees of an empty graph raises ValueError. */
  lemma LinearRadiiError(s: GraphState)
    ensures LinearRadii(s).Err? <==> s.nodes == []
    ensures LinearRadii(s).Err? ==> LinearRadii(s).error == ValueError
  {
  }

  /** A node of least weighted degree gets radius 3. */
  lemma LinearRadiiLeast(s: GraphState, k: nat)
    requires ValidState(s) && k < |s.nodes|
    requires forall j :: 0 <= j < |s.nodes| ==> DegreeList(s)[k] <= DegreeList(s)[j]
    ensures LinearRadii(s).value.data[s.nodes[k]].radius == Some(MinRadius)
  {
    var degrees := DegreeList(s);
    assert s.nodes[k] in s.data;
    RescaleBounds(degrees[k] as real, MinInt(degrees) as real, MaxInt(degrees) as real);
  }

  /** When the degrees differ, a node of greatest weighted degree gets
      radius 10: integer degrees then differ by at least 1. */
  lemma LinearRadiiGreatest(s: GraphState, k: nat, j: nat)
    requires ValidState(s) && k < |s.nodes| && j < |s.nodes|
    requires forall i :: 0 <= i < |s.nodes| ==> DegreeList(s)[i] <= DegreeList(s)[k]
    requires DegreeList(s)[j] != DegreeList(s)[k]
    ensures LinearRadii(s).value.data[s.nodes[k]].radius == Some(MaxRadius)
  {
    var degrees := DegreeList(s);
    assert s.nodes[k] in s.data;
    assert MinInt(degrees) <= degrees[j] < degrees[k] == MaxInt(degrees);
    RescaleBounds(degrees[k] as real, MinInt(degrees) as real, MaxInt(degrees) as real);
  }
}
