/** setNodeRadii as one function of the ego graph it is given, and what
    the whole 'shortest_path' method guarantees about the graph it leaves. */
module RadiiPipeline {
  import opened Wrappers
  import opened Graphs
  import opened AttrGraphs
  import opened ShortestPaths
  import opened EgoPaths
  import opened NodeRadii

  /** method='shortest_path'; agg stands for exp(mean(log(terms))). */
  function ShortestPathRadii(s0: GraphState, centre: Node, agg: seq<real> -> real): Result<GraphState> {
    var s1 :- InvWeights(s0);
    var t :- PathTable(s1, centre);
    var s2 :- InitRadii(s1, centre);
    var s3 := SetScores(s2, t, agg);
    var s4 :- Trim(s3);
    var s5 := DropIsolated(s4);
    var s6 :- Normalise(s5);
    Force(s6)
  }

  /** setNodeRadii(ego, band_name, method): ValueError for an unknown method. */
  function SetNodeRadiiSpec(s: GraphState, centre: Node, how: string, agg: seq<real> -> real): Result<GraphState> {
    if how == "linear_indeg" then LinearRadii(s)
    else if how == "shortest_path" then ShortestPathRadii(s, centre, agg)
    else Err(ValueError)
  }

  /** A graph just made from a graph value: no node attribute set yet. */
  predicate Fresh(s: GraphState) {
    forall n :: n in s.data ==> s.data[n] == NoData
  }

  /** The states between the steps of a successful run. */
  lemma Stages(s0: GraphState, centre: Node, agg: seq<real> -> real)
    returns (s1: GraphState, t: Table, s2: GraphState, s3: GraphState, s4: GraphState,
             s5: GraphState, s6: GraphState)
    requires ShortestPathRadii(s0, centre, agg).Ok?
    ensures InvWeights(s0) == Ok(s1) && PathTable(s1, centre) == Ok(t)
    ensures InitRadii(s1, centre) == Ok(s2) && s3 == SetScores(s2, t, agg)
    ensures Trim(s3) == Ok(s4) && s5 == DropIsolated(s4) && Normalise(s5) == Ok(s6)
    ensures Force(s6) == ShortestPathRadii(s0, centre, agg)
  {
    s1 := InvWeights(s0).value;
    t := PathTable(s1, centre).value;
    s2 := InitRadii(s1, centre).value;
    s3 := SetScores(s2, t, agg);
    s4 := Trim(s3).value;
    s5 := DropIsolated(s4);
    s6 := Normalise(s5).value;
  }

  /** Up to the trim the node order and the edges are those of the graph
      with its costs set, and each node's dict is built from nothing. */
  lemma EarlyStages(s0: GraphState, centre: Node, agg: seq<real> -> real, s1: GraphState, t: Table,
                    s2: GraphState, s3: GraphState, n: Node)
    requires ValidState(s0) && Fresh(s0)
    requires InvWeights(s0) == Ok(s1) && PathTable(s1, centre) == Ok(t)
    requires InitRadii(s1, centre) == Ok(s2) && s3 == SetScores(s2, t, agg)
    ensures ValidState(s1) && ValidState(s3)
    ensures s3.nodes == s0.nodes && s3.adj == s1.adj && centre in s1.adj
    ensures n in s3.data ==> s3.data[n].forceRadialFactor.None? && s3.data[n].shortestPath.None?
    ensures n in s3.data && n in t && |t[n].path| >= 2 ==>
      s3.data[n] == NodeData(Some(MinRadius), Some(agg(Terms(s1.adj, t[n].path))), Some(t[n].path), None, None)
    ensures n in s3.data && !(n in t && |t[n].path| >= 2) ==>
      s3.data[n] == NodeData(Some(if n == centre then CentreRadius else MinRadius), None, None, None, None)
  {
    InvWeightsFacts(s0, n, n);
    PathTableCorrect(s0, centre, n);
    PathTableCorrect(s0, centre, centre);
    InitRadiiFacts(s1, centre, n);
    SetScoresFacts(s2, t, agg, n);
    InitRadiiFacts(s1, centre, centre);
  }

  /** The trim, the isolated-node pass, the rescaling and the factors keep
      the dict entries they do not set: the path, the score and, for the
      unscored nodes, the radius. */
  lemma LateStages(s3: GraphState, s4: GraphState, s5: GraphState, s6: GraphState, s7: GraphState, n: Node)
    requires ValidState(s3)
    requires Trim(s3) == Ok(s4) && s5 == DropIsolated(s4) && Normalise(s5) == Ok(s6) && Force(s6) == Ok(s7)
    ensures ValidState(s4) && ValidState(s5)
    ensures ValidState(s7) && s7.nodes == s5.nodes && s7.adj == s5.adj
    ensures n in s7.data <==> n in s7.nodes
    ensures n in s7.data ==> n in s3.data && n in s4.data && n in s5.data && n in s6.data && n in s5.nodes
    ensures n in s7.data ==> s5.data[n] == s3.data[n]
    ensures n in s7.data && !Scored(s3.data, n) ==> s6.data[n] == s3.data[n]
    ensures n in s7.data ==>
      s7.data[n].score == s3.data[n].score && s7.data[n].path == s3.data[n].path &&
      s7.data[n].shortestPath == s3.data[n].shortestPath
    ensures n in s7.data && !Scored(s3.data, n) ==> s7.data[n].radius == s3.data[n].radius
    ensures n in s7.data && Scored(s3.data, n) ==> s7.data[n].radius == s6.data[n].radius
    ensures n in s7.data ==> s7.data[n].forceRadialFactor == Some(Factor(s6.data[n].radius.value))
  {
    TrimNodes(s3, n);
    DropIsolatedFacts(s4, n);
    NormaliseError(s5, n);
    ForceFacts(s6, n);
    if n in s7.data {
      TrimKeeps(s3, n);
    }
  }

  /** After setNodeRadii no node is isolated, the centre included, and the
      nodes that remain keep exactly their edges of the trimmed graph. */
  lemma RadiiNoIsolated(s0: GraphState, centre: Node, agg: seq<real> -> real, s7: GraphState, n: Node)
    requires ValidState(s0) && Fresh(s0) && ShortestPathRadii(s0, centre, agg) == Ok(s7)
    ensures ValidState(s7)
    ensures n in s7.adj ==>
      Degree(s7.adj, n) > 0
  {
    var s1, t, s2, s3, s4, s5, s6 := Stages(s0, centre, agg);
    EarlyStages(s0, centre, agg, s1, t, s2, s3, n);
    LateStages(s3, s4, s5, s6, s7, n);
    TrimNodes(s3, n);
    DropIsolatedFacts(s4, n);
  }

  /** A path stored on a node is the one the path table holds for it, and
      its score is agg of the terms along it. */
  lemma StoredPath(s0: GraphState, centre: Node, agg: seq<real> -> real, s7: GraphState, n: Node, p: seq<Node>)
    returns (s1: GraphState, t: Table)
    requires ValidState(s0) && Fresh(s0) && ShortestPathRadii(s0, centre, agg) == Ok(s7)
    requires n in s7.data && s7.data[n].path == Some(p)
    ensures InvWeights(s0) == Ok(s1) && PathTable(s1, centre) == Ok(t)
    ensures n in t && t[n].path == p && |p| >= 2
    ensures s7.data[n].score == Some(agg(Terms(s1.adj, p)))
  {
    var s2, s3, s4, s5, s6;
    s1, t, s2, s3, s4, s5, s6 := Stages(s0, centre, agg);
    EarlyStages(s0, centre, agg, s1, t, s2, s3, n);
    LateStages(s3, s4, s5, s6, s7, n);
  }

  /** Every path stored on a node starts at the centre, ends at that node,
      has at least one edge, follows edges of the ego graph, and costs (in
      1/weight) no more than any other such walk. */
  lemma RadiiPaths(s0: GraphState, centre: Node, agg: seq<real> -> real, s7: GraphState, n: Node, p: seq<Node>)
    requires ValidState(s0) && Fresh(s0) && ShortestPathRadii(s0, centre, agg) == Ok(s7)
    requires n in s7.data && s7.data[n].path == Some(p)
    ensures |p| >= 2 && p[0] == centre && p[|p| - 1] == n
    ensures IsPath(InverseCosts(s0.adj), p)
    ensures forall q :: IsPath(InverseCosts(s0.adj), q) && q[0] == centre && q[|q| - 1] == n ==>
      Cost(InverseCosts(s0.adj), p) <= Cost(InverseCosts(s0.adj), q)
  {
    var s1, t := StoredPath(s0, centre, agg, s7, n, p);
    PathTableCorrect(s0, centre, n);
    CostsOfInverse(s0);
  }

  /** The score stored with a path is agg of its terms, each of them
      positive. */
  lemma RadiiScores(s0: GraphState, centre: Node, agg: seq<real> -> real, s7: GraphState, n: Node, p: seq<Node>)
    requires ValidState(s0) && Fresh(s0) && ShortestPathRadii(s0, centre, agg) == Ok(s7)
    requires n in s7.data && s7.data[n].path == Some(p)
    ensures s7.data[n].score == Some(agg(Terms(s0.adj, p)))
    ensures |Terms(s0.adj, p)| == |p| - 1
    ensures forall k :: 0 <= k < |Terms(s0.adj, p)| ==> Terms(s0.adj, p)[k] > 0.0
  {
    var s1, t := StoredPath(s0, centre, agg, s7, n, p);
    PathTableCorrect(s0, centre, n);
    TermsOnPath(s0, p);
  }

  /** The terms of a walk of the costs graph are positive. */
  lemma TermsOnPath(s0: GraphState, p: seq<Node>)
    requires ValidState(s0) && InvWeights(s0).Ok? && !NegativeWeight(s0.adj)
    requires |p| >= 2 && IsPath(InverseCosts(s0.adj), p)
    ensures Terms(InvWeights(s0).value.adj, p) == Terms(s0.adj, p)
    ensures forall k :: 0 <= k < |Terms(s0.adj, p)| ==> Terms(s0.adj, p)[k] > 0.0
  {
    var a1 := InvWeights(s0).value.adj;
    CostsOfInverse(s0);
    assert AlongEdges(s0.adj, p) by {
      forall i | 0 <= i < |p| - 1
        ensures Linked(s0.adj, p[i], p[i + 1])
      {
        assert Step(CostsOf(a1), p[i], p[i + 1]);
        InvWeightsFacts(s0, p[i], p[i + 1]);
      }
    }
    forall u, v | Linked(s0.adj, u, v)
      ensures s0.adj[u][v].weight > 0
    {
      InvWeightsFacts(s0, u, v);
      assert s0.adj[u][v].weight != 0;
    }
    TermsPositive(s0.adj, p);
    TermsSame(s0, p);
  }

  lemma TermsSame(s0: GraphState, p: seq<Node>)
    requires ValidState(s0) && InvWeights(s0).Ok? && |p| >= 2
    ensures Terms(InvWeights(s0).value.adj, p) == Terms(s0.adj, p)
  {
    var a1 := InvWeights(s0).value.adj;
    forall i | 1 <= i < |p|
      ensures Term(a1, p, i) == Term(s0.adj, p, i)
    {
      InvWeightsFacts(s0, p[i - 1], p[i]);
      if Linked(s0.adj, p[i - 1], p[i]) {
        assert a1[p[i - 1]].Keys == s0.adj[p[i - 1]].Keys;
        assert Degree(a1, p[i - 1]) == Degree(s0.adj, p[i - 1]);
      }
    }
  }

  /** The centre, while it remains, has no score and no path, radius 12.5
      and force factor 0. */
  lemma RadiiCentre(s0: GraphState, centre: Node, agg: seq<real> -> real, s7: GraphState)
    requires ValidState(s0) && Fresh(s0) && ShortestPathRadii(s0, centre, agg) == Ok(s7)
    requires centre in s7.data
    ensures s7.data[centre] ==
      NodeData(Some(CentreRadius), None, None, Some(0.0), None)
  {
    var s1, t, s2, s3, s4, s5, s6 := Stages(s0, centre, agg);
    EarlyStages(s0, centre, agg, s1, t, s2, s3, centre);
    LateStages(s3, s4, s5, s6, s7, centre);
    PathTableCorrect(s0, centre, centre);
    assert t[centre].path == [centre];
    FactorFacts(CentreRadius);
  }

  /** Every remaining node has a radius and a force factor in [0, 1]: a
      scored node a radius in [3, 10], an unscored one other than the
      centre radius 3. */
  lemma RadiiRanges(s0: GraphState, centre: Node, agg: seq<real> -> real, s7: GraphState, n: Node)
    requires ValidState(s0) && Fresh(s0) && ShortestPathRadii(s0, centre, agg) == Ok(s7)
    requires n in s7.data
    ensures s7.data[n].radius.Some?
    ensures s7.data[n].score.Some? ==>
      MinRadius <= s7.data[n].radius.value <= MaxRadius
    ensures s7.data[n].score.None? && n != centre ==>
      s7.data[n].radius == Some(MinRadius)
    ensures s7.data[n].forceRadialFactor.Some?
    ensures 0.0 <= s7.data[n].forceRadialFactor.value <= 1.0
  {
    var s1, t, s2, s3, s4, s5, s6 := Stages(s0, centre, agg);
    EarlyStages(s0, centre, agg, s1, t, s2, s3, n);
    LateStages(s3, s4, s5, s6, s7, n);
    if Scored(s3.data, n) {
      NormaliseRange(s5, n);
    }
    FactorFacts(s6.data[n].radius.value);
  }

  /** The trim removes at most max(0, len(ego) - 250) nodes, none of them
      from an ego graph of at most 250 nodes, and every scored node that
      remains has a score at or above the limit. */
  lemma RadiiTrim(s0: GraphState, centre: Node, agg: seq<real> -> real)
    returns (s3: GraphState, s4: GraphState)
    requires ValidState(s0) && Fresh(s0) && ShortestPathRadii(s0, centre, agg).Ok?
    ensures s3.nodes == s0.nodes && CanTrim(s3) && Trim(s3) == Ok(s4)
    ensures |s4.nodes| >= |s0.nodes| - TrimIndex(s3)
    ensures |s0.nodes| <= MaxSize ==> s4 == s3
    ensures |s0.nodes| > MaxSize ==> |s4.nodes| >= MaxSize
    ensures forall n :: n in s4.data && Scored(s4.data, n) ==> s4.data[n].score.value >= Limit(s3)
  {
    var s1, t, s2, s5, s6;
    s1, t, s2, s3, s4, s5, s6 := Stages(s0, centre, agg);
    EarlyStages(s0, centre, agg, s1, t, s2, s3, centre);
    TrimError(s3);
    TrimCount(s3);
    forall n | n in s4.data && Scored(s4.data, n)
      ensures s4.data[n].score.value >= Limit(s3)
    {
      TrimKeeps(s3, n);
    }
  }

  /** The graph setNodeRadii leaves is a subgraph of the ego graph it was
      given: its nodes are ego nodes and its edges ego edges with their
      weights; the costs set on them are 1/weight. */
  lemma RadiiSubgraph(s0: GraphState, centre: Node, agg: seq<real> -> real, s7: GraphState, u: Node, v: Node)
    requires ValidState(s0) && Fresh(s0) && ShortestPathRadii(s0, centre, agg) == Ok(s7)
    ensures u in s7.adj ==> u in s0.adj
    ensures Linked(s7.adj, u, v) ==>
      Linked(s0.adj, u, v) && s7.adj[u][v].weight == s0.adj[u][v].weight && s0.adj[u][v].weight != 0 &&
      s7.adj[u][v].invweight == Some(1.0 / (s0.adj[u][v].weight as real)) &&
      s7.adj[u][v].strokeWidth == s0.adj[u][v].strokeWidth
  {
    var s1, t, s2, s3, s4, s5, s6 := Stages(s0, centre, agg);
    EarlyStages(s0, centre, agg, s1, t, s2, s3, u);
    LateStages(s3, s4, s5, s6, s7, u);
    InvWeightsFacts(s0, u, v);
    DropIsolatedFacts(s4, u);
    if u in s7.adj {
      assert u in s4.adj && u in s3.adj;
    }
  }

  /** The ego graph of a band without neighbours has no scored node, so the
      score list is empty and indexing its partition raises IndexError. */
  lemma RadiiLoneCentre(s0: GraphState, centre: Node, agg: seq<real> -> real)
    requires ValidState(s0) && Fresh(s0) && s0.nodes == [centre]
    requires s0.adj[centre] == map[]
    ensures ShortestPathRadii(s0, centre, agg) == Err(IndexError)
  {
    InvWeightsFacts(s0, centre, centre);
    var s1 := InvWeights(s0).value;
    assert !NegativeWeight(s0.adj);
    PathTableCorrect(s0, centre, centre);
    var t := PathTable(s1, centre).value;
    InitRadiiFacts(s1, centre, centre);
    var s2 := InitRadii(s1, centre).value;
    var s3 := SetScores(s2, t, agg);
    SetScoresFacts(s2, t, agg, centre);
    assert !Scored(s3.data, centre);
    TrimError(s3);
  }
}
