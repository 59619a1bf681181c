/** nx.single_source_dijkstra by its meaning: from a source node, for every
    node reachable from it, a walk of least total cost over positive edge
    costs.  The table is built in rounds, round k holding the cheapest walks
    of at most k edges; after as many rounds as there are nodes no walk can
    do better.  Which of several equally cheap walks is kept is not fixed. */
module ShortestPaths {
  import opened Wrappers
  import opened Graphs

  /** The cost of every edge, in both directions: the 'invweight' attribute. */
  type Costs = map<Node, map<Node, real>>

  predicate Step(c: Costs, u: Node, v: Node) {
    u in c && v in c[u]
  }

  /** Every edge leads to a node of the cost graph, and ns lists its nodes. */
  ghost predicate WellFormed(c: Costs, ns: seq<Node>) {
    (forall u :: u in c ==> u in ns) &&
    (forall u, v {:trigger Step(c, u, v)} :: Step(c, u, v) ==> v in c)
  }

  ghost predicate PositiveCosts(c: Costs) {
    forall u, v {:trigger Step(c, u, v)} :: Step(c, u, v) ==> c[u][v] > 0.0
  }

  predicate IsPath(c: Costs, p: seq<Node>) {
    |p| >= 1 && forall i :: 0 <= i < |p| - 1 ==> Step(c, p[i], p[i + 1])
  }

  /** The sum of the edge costs along a walk. */
  function Cost(c: Costs, p: seq<Node>): real
    requires IsPath(c, p)
    decreases |p|
  {
    if |p| == 1 then 0.0
    else
      PrefixPath(c, p, |p| - 1);
      LastStep(c, p);
      Cost(c, p[..|p| - 1]) + c[p[|p| - 2]][p[|p| - 1]]
  }

  lemma PrefixPath(c: Costs, p: seq<Node>, n: nat)
    requires IsPath(c, p) && 1 <= n <= |p|
    ensures IsPath(c, p[..n])
  {
    forall i | 0 <= i < n - 1
      ensures Step(c, p[..n][i], p[..n][i + 1])
    {
      assert Step(c, p[i], p[i + 1]);
    }
  }

  lemma SuffixPath(c: Costs, p: seq<Node>, i: nat)
    requires IsPath(c, p) && i < |p|
    ensures IsPath(c, p[i..])
  {
    forall k | 0 <= k < |p| - i - 1
      ensures Step(c, p[i..][k], p[i..][k + 1])
    {
      assert Step(c, p[i + k], p[i + k + 1]);
    }
  }

  lemma LastStep(c: Costs, p: seq<Node>)
    requires IsPath(c, p) && |p| >= 2
    ensures Step(c, p[|p| - 2], p[|p| - 1])
  {
    var i := |p| - 2;
    assert Step(c, p[i], p[i + 1]);
  }

  /** The cheapest walk found so far to a node, and its cost. */
  datatype Entry = Entry(cost: real, path: seq<Node>)

  type Table = map<Node, Entry>

  /** The cheaper of two candidates; on a tie the first stays. */
  function Better(a: Option<Entry>, b: Option<Entry>): (r: Option<Entry>)
    ensures r == a || r == b
    ensures r.None? <==> a.None? && b.None?
    ensures r.Some? && a.Some? ==> r.value.cost <= a.value.cost
    ensures r.Some? && b.Some? ==> r.value.cost <= b.value.cost
  {
    if a.None? then b else if b.Some? && b.value.cost < a.value.cost then b else a
  }

  function Get(t: Table, v: Node): Option<Entry> {
    if v in t then Some(t[v]) else None
  }

  /** The walk to u followed by the edge u-v. */
  function Extend(c: Costs, t: Table, u: Node, v: Node): Option<Entry> {
    if u in t && Step(c, u, v) then Some(Entry(t[u].cost + c[u][v], t[u].path + [v])) else None
  }

  /** The cheapest extension to v of a walk in t ending at one of us. */
  function Via(c: Costs, t: Table, v: Node, us: seq<Node>): Option<Entry>
    decreases |us|
  {
    if us == [] then None
    else Better(Via(c, t, v, us[..|us| - 1]), Extend(c, t, us[|us| - 1], v))
  }

  function Candidate(c: Costs, ns: seq<Node>, t: Table, v: Node): Option<Entry> {
    Better(Get(t, v), Via(c, t, v, ns))
  }

  /** One round: every node keeps its walk or takes a cheaper extension. */
  function Relax(c: Costs, ns: seq<Node>, t: Table): Table {
    map v | v in ns && Candidate(c, ns, t, v).Some? :: Candidate(c, ns, t, v).value
  }

  function Level(c: Costs, ns: seq<Node>, s: Node, k: nat): Table
    decreases k
  {
    if k == 0 then map[s := Entry(0.0, [s])] else Relax(c, ns, Level(c, ns, s, k - 1))
  }

  /** The paths of single_source_dijkstra(G, s, weight='invweight'):
      NodeNotFound when s is not a node. */
  function Dijkstra(c: Costs, ns: seq<Node>, s: Node): Result<Table> {
    if s !in ns then Err(NodeNotFound) else Ok(Level(c, ns, s, |ns|))
  }

  // ---------------------------------------------------------------------
  // Walks

  lemma {:induction false} CostNonNegative(c: Costs, p: seq<Node>)
    requires PositiveCosts(c) && IsPath(c, p)
    ensures Cost(c, p) >= 0.0
    ensures |p| >= 2 ==> Cost(c, p) > 0.0
    decreases |p|
  {
    if |p| > 1 {
      PrefixPath(c, p, |p| - 1);
      CostNonNegative(c, p[..|p| - 1]);
      LastStep(c, p);
    }
  }

  lemma CostSnoc(c: Costs, p: seq<Node>, v: Node)
    requires IsPath(c, p) && Step(c, p[|p| - 1], v)
    ensures IsPath(c, p + [v])
    ensures Cost(c, p + [v]) == Cost(c, p) + c[p[|p| - 1]][v]
  {
    var q := p + [v];
    assert q[..|q| - 1] == p;
  }

  /** Two walks that meet glue into one whose cost is the sum. */
  lemma {:induction false} CostGlue(c: Costs, a: seq<Node>, b: seq<Node>)
    requires IsPath(c, a) && IsPath(c, b) && a[|a| - 1] == b[0]
    ensures IsPath(c, a + b[1..])
    ensures Cost(c, a + b[1..]) == Cost(c, a) + Cost(c, b)
    decreases |b|
  {
    if |b| == 1 {
      assert a + b[1..] == a;
    } else {
      var b' := b[..|b| - 1];
      PrefixPath(c, b, |b| - 1);
      CostGlue(c, a, b');
      var q := a + b'[1..];
      assert a + b[1..] == q + [b[|b| - 1]];
      assert q[|q| - 1] == b[|b| - 2];
      LastStep(c, b);
      CostSnoc(c, q, b[|b| - 1]);
    }
  }

  lemma CostSplit(c: Costs, p: seq<Node>, i: nat)
    requires IsPath(c, p) && i < |p|
    ensures IsPath(c, p[..i + 1]) && IsPath(c, p[i..])
    ensures Cost(c, p) == Cost(c, p[..i + 1]) + Cost(c, p[i..])
  {
    var a := p[..i + 1];
    var b := p[i..];
    PrefixPath(c, p, i + 1);
    SuffixPath(c, p, i);
    CostGlue(c, a, b);
    assert a + b[1..] == p;
  }

  /** Cutting out the cycle between two visits of a node leaves a walk with
      the same ends that costs no more. */
  lemma CutCycle(c: Costs, p: seq<Node>, i: nat, j: nat) returns (q: seq<Node>)
    requires PositiveCosts(c) && IsPath(c, p) && i < j < |p| && p[i] == p[j]
    ensures IsPath(c, q) && q[0] == p[0] && q[|q| - 1] == p[|p| - 1]
    ensures |q| < |p| && Cost(c, q) <= Cost(c, p)
    ensures forall k :: 0 <= k < |q| ==> q[k] in p
  {
    q := p[..i + 1] + p[j + 1..];
    CutCost(c, p, i, j);
    CutMembers(p, i, j, q);
  }

  lemma CutCost(c: Costs, p: seq<Node>, i: nat, j: nat)
    requires PositiveCosts(c) && IsPath(c, p) && i < j < |p| && p[i] == p[j]
    ensures IsPath(c, p[..i + 1] + p[j + 1..])
    ensures Cost(c, p[..i + 1] + p[j + 1..]) <= Cost(c, p)
  {
    CostSplit(c, p, i);
    var tail := p[i..];
    CostSplit(c, tail, j - i);
    assert tail[..j - i + 1] == p[i..j + 1];
    assert tail[j - i..] == p[j..];
    CostNonNegative(c, p[i..j + 1]);
    SuffixPath(c, p, j);
    CostGlue(c, p[..i + 1], p[j..]);
    assert p[j..][1..] == p[j + 1..];
  }

  lemma CutMembers(p: seq<Node>, i: nat, j: nat, q: seq<Node>)
    requires i < j < |p| && q == p[..i + 1] + p[j + 1..]
    ensures forall k :: 0 <= k < |q| ==> q[k] in p
  {
    forall k | 0 <= k < |q|
      ensures q[k] in p
    {
      if k <= i {
        assert q[k] == p[k];
      } else {
        assert q[k] == p[j + k - i];
      }
    }
  }

  function RemoveAll(ns: seq<Node>, x: Node): (r: seq<Node>)
    ensures |r| <= |ns|
    ensures x in ns ==> |r| < |ns|
    ensures forall y :: y in r <==> y in ns && y != x
    decreases |ns|
  {
    if ns == [] then []
    else if ns[0] == x then RemoveAll(ns[1..], x)
    else [ns[0]] + RemoveAll(ns[1..], x)
  }

  /** A walk without repeated nodes, all drawn from ns, has at most |ns| nodes. */
  lemma {:induction false} DistinctBound(q: seq<Node>, ns: seq<Node>)
    requires Distinct(q) && forall k :: 0 <= k < |q| ==> q[k] in ns
    ensures |q| <= |ns|
    decreases |q|
  {
    if q != [] {
      var ns' := RemoveAll(ns, q[0]);
      forall k | 0 <= k < |q[1..]|
        ensures q[1..][k] in ns'
      {
        assert q[1..][k] == q[k + 1] && q[k + 1] != q[0];
      }
      assert Distinct(q[1..]) by {
        assert forall a, b :: 0 <= a < b < |q[1..]| ==> q[1..][a] == q[a + 1] && q[1..][b] == q[b + 1];
      }
      DistinctBound(q[1..], ns');
    }
  }

  /** Every walk can be shortened to one of at most |ns| nodes, with the same
      ends and no greater cost. */
  lemma {:induction false} ShortWalk(c: Costs, ns: seq<Node>, p: seq<Node>) returns (q: seq<Node>)
    requires PositiveCosts(c) && IsPath(c, p) && forall k :: 0 <= k < |p| ==> p[k] in ns
    ensures IsPath(c, q) && q[0] == p[0] && q[|q| - 1] == p[|p| - 1]
    ensures |q| <= |ns| && Cost(c, q) <= Cost(c, p)
    decreases |p|
  {
    if Distinct(p) {
      DistinctBound(p, ns);
      q := p;
    } else {
      var i, j :| 0 <= i < j < |p| && p[i] == p[j];
      var p' := CutCycle(c, p, i, j);
      q := ShortWalk(c, ns, p');
    }
  }

  lemma WalkInNodes(c: Costs, ns: seq<Node>, s: Node, p: seq<Node>)
    requires WellFormed(c, ns) && s in ns && IsPath(c, p) && p[0] == s
    ensures forall k :: 0 <= k < |p| ==> p[k] in ns
  {
    forall k | 0 <= k < |p|
      ensures p[k] in ns
    {
      if k > 0 {
        assert Step(c, p[k - 1], p[k]);
      }
    }
  }

  // ---------------------------------------------------------------------
  // The rounds

  /** Every entry is a walk from s to its node of the recorded cost and of
      at most k edges. */
  ghost predicate SoundEntry(c: Costs, s: Node, v: Node, e: Entry, k: nat) {
    IsPath(c, e.path) && e.path[0] == s && e.path[|e.path| - 1] == v &&
    |e.path| <= k + 1 && Cost(c, e.path) == e.cost
  }

  ghost predicate Sound(c: Costs, s: Node, t: Table, k: nat) {
    forall v :: v in t ==> SoundEntry(c, s, v, t[v], k)
  }

  lemma ViaFrom(c: Costs, t: Table, v: Node, us: seq<Node>) returns (u: Node)
    requires Via(c, t, v, us).Some?
    ensures u in us && Extend(c, t, u, v) == Via(c, t, v, us)
    decreases |us|
  {
    if Via(c, t, v, us[..|us| - 1]) == Via(c, t, v, us) {
      u := ViaFrom(c, t, v, us[..|us| - 1]);
    } else {
      u := us[|us| - 1];
    }
  }

  lemma {:induction false} ViaAtMost(c: Costs, t: Table, v: Node, us: seq<Node>, u: Node)
    requires u in us && Extend(c, t, u, v).Some?
    ensures Via(c, t, v, us).Some? && Via(c, t, v, us).value.cost <= Extend(c, t, u, v).value.cost
    decreases |us|
  {
    if us[|us| - 1] != u {
      assert u in us[..|us| - 1];
      ViaAtMost(c, t, v, us[..|us| - 1], u);
    }
  }

  lemma ExtendSound(c: Costs, s: Node, t: Table, k: nat, u: Node, v: Node)
    requires Sound(c, s, t, k) && Extend(c, t, u, v).Some?
    ensures SoundEntry(c, s, v, Extend(c, t, u, v).value, k + 1)
  {
    assert SoundEntry(c, s, u, t[u], k);
    CostSnoc(c, t[u].path, v);
  }

  lemma {:induction false} LevelSound(c: Costs, ns: seq<Node>, s: Node, k: nat)
    ensures Sound(c, s, Level(c, ns, s, k), k)
    decreases k
  {
    if k > 0 {
      var t := Level(c, ns, s, k - 1);
      LevelSound(c, ns, s, k - 1);
      forall v | v in Level(c, ns, s, k)
        ensures SoundEntry(c, s, v, Level(c, ns, s, k)[v], k)
      {
        if Candidate(c, ns, t, v) != Get(t, v) {
          var u := ViaFrom(c, t, v, ns);
          ExtendSound(c, s, t, k - 1, u, v);
        } else {
          assert SoundEntry(c, s, v, t[v], k - 1);
        }
      }
    }
  }

  /** Every walk from s of at most k edges ends at a node of the table, whose
      entry costs no more. */
  ghost predicate Optimal(c: Costs, s: Node, t: Table, k: nat) {
    forall p :: IsPath(c, p) && p[0] == s && |p| <= k + 1 ==>
      p[|p| - 1] in t && t[p[|p| - 1]].cost <= Cost(c, p)
  }

  lemma RelaxKeeps(c: Costs, ns: seq<Node>, t: Table, v: Node)
    requires v in t && v in ns
    ensures v in Relax(c, ns, t) && Relax(c, ns, t)[v].cost <= t[v].cost
  {
  }

  lemma RelaxExtends(c: Costs, ns: seq<Node>, t: Table, u: Node, v: Node)
    requires WellFormed(c, ns) && Extend(c, t, u, v).Some?
    ensures v in Relax(c, ns, t) && Relax(c, ns, t)[v].cost <= Extend(c, t, u, v).value.cost
  {
    assert Step(c, u, v);
    ViaAtMost(c, t, v, ns, u);
  }

  lemma {:induction false} LevelOptimal(c: Costs, ns: seq<Node>, s: Node, k: nat)
    requires WellFormed(c, ns) && s in ns
    ensures Optimal(c, s, Level(c, ns, s, k), k)
    decreases k
  {
    var t := Level(c, ns, s, k);
    forall p | IsPath(c, p) && p[0] == s && |p| <= k + 1
      ensures p[|p| - 1] in t && t[p[|p| - 1]].cost <= Cost(c, p)
    {
      LevelOptimalFor(c, ns, s, k, p);
    }
  }

  lemma {:induction false} LevelOptimalFor(c: Costs, ns: seq<Node>, s: Node, k: nat, p: seq<Node>)
    requires WellFormed(c, ns) && s in ns
    requires IsPath(c, p) && p[0] == s && |p| <= k + 1
    ensures p[|p| - 1] in Level(c, ns, s, k) && Level(c, ns, s, k)[p[|p| - 1]].cost <= Cost(c, p)
    decreases k
  {
    var v := p[|p| - 1];
    if k == 0 {
    } else {
      var t := Level(c, ns, s, k - 1);
      WalkInNodes(c, ns, s, p);
      if |p| <= k {
        LevelOptimalFor(c, ns, s, k - 1, p);
        RelaxKeeps(c, ns, t, v);
      } else {
        var q := p[..|p| - 1];
        var u := q[|q| - 1];
        assert p == q + [v];
        PrefixPath(c, p, |p| - 1);
        LastStep(c, p);
        CostSnoc(c, q, v);
        LevelOptimalFor(c, ns, s, k - 1, q);
        RelaxExtends(c, ns, t, u, v);
      }
    }
  }

  /** The source keeps the trivial walk [s] at cost 0. */
  ghost predicate NonNegative(t: Table) {
    forall v :: v in t ==> t[v].cost >= 0.0
  }

  lemma LevelNonNegative(c: Costs, ns: seq<Node>, s: Node, k: nat)
    requires PositiveCosts(c)
    ensures NonNegative(Level(c, ns, s, k))
  {
    var t := Level(c, ns, s, k);
    LevelSound(c, ns, s, k);
    forall v | v in t
      ensures t[v].cost >= 0.0
    {
      assert SoundEntry(c, s, v, t[v], k);
      CostNonNegative(c, t[v].path);
    }
  }

  /** No extension beats a walk of cost 0. */
  lemma ZeroStays(c: Costs, ns: seq<Node>, t: Table, s: Node)
    requires PositiveCosts(c) && NonNegative(t) && s in t && t[s].cost == 0.0
    ensures Candidate(c, ns, t, s) == Get(t, s)
  {
    var via := Via(c, t, s, ns);
    if via.Some? {
      var u := ViaFrom(c, t, s, ns);
      assert Step(c, u, s);
    }
  }

  lemma {:induction false} LevelSource(c: Costs, ns: seq<Node>, s: Node, k: nat)
    requires PositiveCosts(c) && s in ns
    ensures s in Level(c, ns, s, k) && Level(c, ns, s, k)[s] == Entry(0.0, [s])
    decreases k
  {
    if k > 0 {
      var t := Level(c, ns, s, k - 1);
      LevelSource(c, ns, s, k - 1);
      LevelNonNegative(c, ns, s, k - 1);
      ZeroStays(c, ns, t, s);
    }
  }

  /** single_source_dijkstra returns, for every node reachable from s and
      for no other, a walk from s to it of least total cost; s keeps the
      trivial walk [s]. */
  lemma DijkstraCorrect(c: Costs, ns: seq<Node>, s: Node, v: Node)
    requires WellFormed(c, ns) && PositiveCosts(c) && s in ns
    ensures Dijkstra(c, ns, s).Ok?
    ensures v in Dijkstra(c, ns, s).value ==>
      var e := Dijkstra(c, ns, s).value[v];
      IsPath(c, e.path) && e.path[0] == s && e.path[|e.path| - 1] == v && Cost(c, e.path) == e.cost
    ensures forall p :: IsPath(c, p) && p[0] == s && p[|p| - 1] == v ==>
      v in Dijkstra(c, ns, s).value && Dijkstra(c, ns, s).value[v].cost <= Cost(c, p)
    ensures s in Dijkstra(c, ns, s).value && Dijkstra(c, ns, s).value[s] == Entry(0.0, [s])
  {
    var k := |ns|;
    var t := Level(c, ns, s, k);
    LevelSound(c, ns, s, k);
    if v in t {
      assert SoundEntry(c, s, v, t[v], k);
    }
    LevelSource(c, ns, s, k);
    forall p | IsPath(c, p) && p[0] == s && p[|p| - 1] == v
      ensures v in t && t[v].cost <= Cost(c, p)
    {
      WalkInNodes(c, ns, s, p);
      var q := ShortWalk(c, ns, p);
      LevelOptimalFor(c, ns, s, k, q);
    }
  }
}
