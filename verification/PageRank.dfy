/** The PageRank kernels: pushing along out-edges, plain and personalized (ts/src/graph-analytics.ts), and pulling over
    the mapped CSR file (crates/hg_analytics/src/ooc.rs). */
module PageRank {
  import opened Graphs
  import opened PageRankSpec
  import opened Sums
  import opened Transition
  import Csr

  // ---- When the iteration stops --------------------------------------------------------------------

  /** How far the k-th step, k > 0, moves the ranks. */
  function StepSize(g: Graph, d: real, t: seq<real>, r0: seq<real>, k: nat): real
    requires |r0| == g.n && k > 0
  {
    Distance(MixTimes(g, d, t, r0, k), MixTimes(g, d, t, r0, k - 1))
  }

  ghost predicate StillMoving(g: Graph, d: real, t: seq<real>, r0: seq<real>, tol: real, k: nat)
    requires |r0| == g.n
  {
    forall j: nat :: 0 < j <= k ==> StepSize(g, d, t, r0, j) >= tol
  }

  /** k is the number of steps made: up to the first that moves the ranks by less than tol, or maxIters. */
  ghost predicate StopsAt(g: Graph, d: real, t: seq<real>, r0: seq<real>, maxIters: nat, tol: real, k: nat)
    requires |r0| == g.n
  {
    && k <= maxIters
    && StillMoving(g, d, t, r0, tol, if k > 0 then k - 1 else 0)
    && (k == maxIters || (k > 0 && StepSize(g, d, t, r0, k) < tol))
  }

  ghost predicate IsResult(g: Graph, d: real, t: seq<real>, r0: seq<real>, maxIters: nat, tol: real, rank: seq<real>)
    requires |r0| == g.n
  {
    exists k: nat :: StopsAt(g, d, t, r0, maxIters, tol, k) && rank == MixTimes(g, d, t, r0, k)
  }

  /** The stopping rule leaves one result: kernels that meet it agree. */
  lemma ResultUnique(g: Graph, d: real, t: seq<real>, r0: seq<real>, maxIters: nat, tol: real, rank: seq<real>, rank': seq<real>)
    requires |r0| == g.n
    requires IsResult(g, d, t, r0, maxIters, tol, rank) && IsResult(g, d, t, r0, maxIters, tol, rank')
    ensures rank == rank'
  {
    hide MixTimes, StepSize;
    var k: nat :| StopsAt(g, d, t, r0, maxIters, tol, k) && rank == MixTimes(g, d, t, r0, k);
    var k': nat :| StopsAt(g, d, t, r0, maxIters, tol, k') && rank' == MixTimes(g, d, t, r0, k');
  }

  /** A step of exactly the tolerance does not stop the iteration; with tolerance 0 nothing does but the bound. */
  lemma StopsBelowTolerance(g: Graph, d: real, t: seq<real>, r0: seq<real>, maxIters: nat, tol: real, k: nat)
    requires |r0| == g.n && StopsAt(g, d, t, r0, maxIters, tol, k)
    ensures k == maxIters || (k > 0 && StepSize(g, d, t, r0, k) < tol && forall j: nat :: 0 < j < k ==> StepSize(g, d, t, r0, j) >= tol)
    ensures tol <= 0.0 ==> k == maxIters
  {
    hide MixTimes;
    if k > 0 {
      DistanceNonNegative(MixTimes(g, d, t, r0, k), MixTimes(g, d, t, r0, k - 1));
    }
  }

  lemma {:induction false} IteratesAreDistributions(g: Graph, d: real, t: seq<real>, r0: seq<real>, k: nat)
    requires 0.0 <= d <= 1.0 && |t| == g.n == |r0| && IsDistribution(t) && IsDistribution(r0)
    ensures IsDistribution(MixTimes(g, d, t, r0, k))
  {
    hide IsDistribution, Mix;
    if k > 0 {
      IteratesAreDistributions(g, d, t, r0, k - 1);
      StepKeepsDistribution(g, d, t, MixTimes(g, d, t, r0, k - 1));
    }
  }

  /** The returned ranks form a distribution. */
  lemma ResultIsDistribution(g: Graph, d: real, t: seq<real>, r0: seq<real>, maxIters: nat, tol: real, rank: seq<real>)
    requires 0.0 <= d <= 1.0 && |t| == g.n == |r0| && IsDistribution(t) && IsDistribution(r0)
    requires IsResult(g, d, t, r0, maxIters, tol, rank)
    ensures IsDistribution(rank)
  {
    hide IsDistribution, MixTimes, StopsAt;
    var k: nat :| StopsAt(g, d, t, r0, maxIters, tol, k) && rank == MixTimes(g, d, t, r0, k);
    IteratesAreDistributions(g, d, t, r0, k);
  }

  /** However many more steps are made, an early result moves by no more than d * tol / (1 - d). */
  lemma ResultIsStable(g: Graph, d: real, t: seq<real>, r0: seq<real>, maxIters: nat, tol: real, rank: seq<real>, m: nat)
    requires 0.0 <= d < 1.0 && |t| == g.n == |r0| && IsDistribution(t)
    requires IsResult(g, d, t, r0, maxIters, tol, rank)
    ensures Distance(MixTimes(g, d, t, rank, m), rank) <= d * tol / (1.0 - d) || rank == MixTimes(g, d, t, r0, maxIters)
  {
    hide IsDistribution, Mix, PowerOf, Distance;
    var k: nat :| StopsAt(g, d, t, r0, maxIters, tol, k) && rank == MixTimes(g, d, t, r0, k);
    if k < maxIters {
      ExitIsStable(g, d, t, MixTimes(g, d, t, r0, k - 1), tol, m);
    }
  }

  /** If the iteration stopped early the returned ranks are close to any fixed point. */
  lemma ResultIsGood(g: Graph, d: real, t: seq<real>, r0: seq<real>, maxIters: nat, tol: real, rank: seq<real>, f: seq<real>)
    requires 0.0 <= d < 1.0 && |t| == g.n == |r0| && IsDistribution(t) && IsDistribution(r0)
    requires IsResult(g, d, t, r0, maxIters, tol, rank) && IsFixed(g, d, t, f)
    ensures IsDistribution(rank)
    ensures Distance(rank, f) <= d * tol / (1.0 - d) || rank == MixTimes(g, d, t, r0, maxIters)
    ensures exists k: nat :: k <= maxIters && Distance(rank, f) <= PowerOf(d, k) * Distance(r0, f)
  {
    hide IsDistribution, Mix, IsFixed, PowerOf, Distance;
    var k: nat :| StopsAt(g, d, t, r0, maxIters, tol, k) && rank == MixTimes(g, d, t, r0, k);
    IteratesAreDistributions(g, d, t, r0, k);
    IteratesApproach(g, d, t, r0, f, k);
    if k < maxIters {
      ExitBound(g, d, t, MixTimes(g, d, t, r0, k - 1), f, tol);
    }
  }

  // ---- Adjacency lists -----------------------------------------------------------------------------

  function CountIn(vs: seq<nat>, v: nat): nat {
    if vs == [] then 0 else CountIn(vs[..|vs| - 1], v) + if vs[|vs| - 1] == v then 1 else 0
  }

  /** The targets listed for each node are those of its valid edges, repeated edges repeated. */
  ghost predicate IsOut(g: Graph, outAdj: seq<seq<nat>>, outDeg: seq<nat>) {
    && |outAdj| == |outDeg| == g.n
    && (forall u: nat :: u < g.n ==> outDeg[u] == OutDeg(g.n, g.edges, u))
    && forall u: nat :: u < g.n ==> ListsTargets(g, outAdj[u], u)
  }

  ghost predicate ListsTargets(g: Graph, vs: seq<nat>, u: nat) {
    (forall j :: 0 <= j < |vs| ==> vs[j] < g.n) && forall v: nat :: CountIn(vs, v) == Edges(g.n, g.edges, u, v)
  }

  /** One more edge, seen from node u. */
  lemma TargetsStep(g: Graph, g': Graph, vs: seq<nat>, u: nat, e: (nat, nat))
    requires ListsTargets(g, vs, u) && g'.n == g.n && g'.edges == g.edges + [e]
    ensures ListsTargets(g', if ValidEdge(g.n, e) && e.0 == u then vs + [e.1] else vs, u)
    ensures OutDeg(g.n, g'.edges, u) == OutDeg(g.n, g.edges, u) + if ValidEdge(g.n, e) && e.0 == u then 1 else 0
  {
    assert g'.edges[..|g'.edges| - 1] == g.edges;
    var vs' := if ValidEdge(g.n, e) && e.0 == u then vs + [e.1] else vs;
    assert (vs + [e.1])[..|vs|] == vs;
    forall v: nat ensures CountIn(vs', v) == Edges(g.n, g'.edges, u, v) {
      assert CountIn(vs, v) == Edges(g.n, g.edges, u, v);
    }
  }

  lemma OutStep(g: Graph, g': Graph, outAdj: seq<seq<nat>>, outDeg: seq<nat>, e: (nat, nat))
    requires IsOut(g, outAdj, outDeg) && g'.n == g.n && g'.edges == g.edges + [e]
    ensures ValidEdge(g.n, e) ==> IsOut(g', outAdj[e.0 := outAdj[e.0] + [e.1]], outDeg[e.0 := outDeg[e.0] + 1])
    ensures !ValidEdge(g.n, e) ==> IsOut(g', outAdj, outDeg)
  {
    hide ListsTargets, OutDeg;
    forall u: nat | u < g.n
      ensures ListsTargets(g', if ValidEdge(g.n, e) && e.0 == u then outAdj[u] + [e.1] else outAdj[u], u)
      ensures OutDeg(g.n, g'.edges, u) == outDeg[u] + if ValidEdge(g.n, e) && e.0 == u then 1 else 0
    {
      TargetsStep(g, g', outAdj[u], u, e);
    }
  }

  method BuildOut(g: Graph) returns (outAdj: seq<seq<nat>>, outDeg: seq<nat>)
    ensures IsOut(g, outAdj, outDeg)
  {
    outAdj, outDeg := seq(g.n, _ => []), seq(g.n, _ => 0);
    assert g.edges[..0] == [];
    for i := 0 to |g.edges|
      invariant |outAdj| == |outDeg| == g.n && IsOut(Graph(g.n, g.edges[..i]), outAdj, outDeg)
    {
      hide IsOut;
      var (u, v) := g.edges[i];
      assert g.edges[..i + 1] == g.edges[..i] + [(u, v)];
      OutStep(Graph(g.n, g.edges[..i]), Graph(g.n, g.edges[..i + 1]), outAdj, outDeg, g.edges[i]);
      if u < g.n && v < g.n {
        outAdj := outAdj[u := outAdj[u] + [v]];
        outDeg := outDeg[u := outDeg[u] + 1];
      }
    }
    assert g.edges[..|g.edges|] == g.edges;
  }

  // ---- The push loop -------------------------------------------------------------------------------

  method SumDangling(ghost g: Graph, outDeg: seq<nat>, rank: seq<real>) returns (dangling: real)
    requires |outDeg| == g.n == |rank| && forall u: nat :: u < g.n ==> outDeg[u] == OutDeg(g.n, g.edges, u)
    ensures dangling == Dangling(g, rank, 0, g.n)
  {
    dangling := 0.0;
    for u := 0 to |rank|
      invariant dangling == Dangling(g, rank, 0, u)
    {
      if outDeg[u] == 0 {
        dangling := dangling + rank[u];
      }
    }
  }

  /** What node v has received from the nodes below k. */
  function Received(g: Graph, d: real, rank: seq<real>, v: nat, k: nat): real {
    Blend(d, Sum(k, Along(g, g.edges, rank, v)))
  }

  /** What one of k out-edges carries. */
  function PerEdge(d: real, r: real, k: nat): real
    requires k > 0
  {
    d * r / k as real
  }

  lemma ReceivedNothing(g: Graph, d: real, rank: seq<real>, v: nat)
    ensures Received(g, d, rank, v, 0) == 0.0
  {}

  lemma ReceivedOneMore(g: Graph, d: real, rank: seq<real>, v: nat, u: nat)
    requires u < g.n == |rank|
    ensures var k := OutDeg(g.n, g.edges, u);
      Received(g, d, rank, v, u + 1) == Received(g, d, rank, v, u)
        + if k == 0 then 0.0 else Blend(PerEdge(d, rank[u], k), Edges(g.n, g.edges, u, v) as real)
  {
    hide Blend, OutDeg, Edges, PerEdge;
    var k, e := OutDeg(g.n, g.edges, u), Edges(g.n, g.edges, u, v) as real;
    var sent := Blend(Share(g, rank, u), e);
    assert Along(g, g.edges, rank, v)(u) == sent && At(rank, u) == rank[u];
    BlendAdd(d, Sum(u, Along(g, g.edges, rank, v)), sent);
    if k == 0 {
      NothingSent(d, e);
    } else {
      assert Share(g, rank, u) == rank[u] / k as real;
      PushShare(d, rank[u], k, Share(g, rank, u), e);
    }
  }

  lemma NothingSent(d: real, e: real)
    ensures Blend(d, Blend(0.0, e)) == 0.0
  {}

  lemma PushShare(d: real, r: real, k: nat, share: real, e: real)
    requires k > 0 && share == r / k as real
    ensures Blend(d, Blend(share, e)) == Blend(PerEdge(d, r, k), e)
  {
    assert d * share == d * r / k as real;
    assert d * (share * e) == d * share * e;
  }

  /** One node hands an equal share to every out-edge. */
  method PushNode(vs: seq<nat>, share: real, next: array<real>)
    requires forall j :: 0 <= j < |vs| ==> vs[j] < next.Length
    modifies next
    ensures forall v: nat :: v < next.Length ==> next[v] == old(next[v]) + Blend(share, CountIn(vs, v) as real)
  {
    for j := 0 to |vs|
      invariant forall v: nat :: v < next.Length ==> next[v] == old(next[v]) + Blend(share, CountIn(vs[..j], v) as real)
    {
      var w := vs[j];
      assert vs[..j + 1][..j] == vs[..j];
      BlendAdd(share, CountIn(vs[..j], w) as real, 1.0);
      next[w] := next[w] + share;
    }
    assert vs[..|vs|] == vs;
  }

  method Push(ghost g: Graph, outAdj: seq<seq<nat>>, outDeg: seq<nat>, d: real, rank: seq<real>, next: array<real>)
    requires IsOut(g, outAdj, outDeg) && |rank| == g.n == next.Length
    modifies next
    ensures forall v: nat :: v < g.n ==> next[v] == old(next[v]) + Received(g, d, rank, v, g.n)
  {
    hide Received, Blend, Edges, OutDeg, CountIn, PerEdge;
    forall v: nat ensures Received(g, d, rank, v, 0) == 0.0 { ReceivedNothing(g, d, rank, v); }
    for u := 0 to |rank|
      invariant forall v: nat :: v < g.n ==> next[v] == old(next[v]) + Received(g, d, rank, v, u)
    {
      var k := u + 1;
      forall v: nat | v < g.n
        ensures Received(g, d, rank, v, k) == Received(g, d, rank, v, u)
          + if outDeg[u] == 0 then 0.0 else Blend(PerEdge(d, rank[u], outDeg[u]), CountIn(outAdj[u], v) as real)
      {
        ReceivedOneMore(g, d, rank, v, u);
      }
      if outDeg[u] > 0 {
        PushNode(outAdj[u], PerEdge(d, rank[u], outDeg[u]), next);
      }
    }
  }

  function TeleportShare(d: real, t: real): real { (1.0 - d) * t }
  function DanglingPart(d: real, dangling: real, t: real): real { d * dangling * t }

  lemma MixAt(g: Graph, d: real, t: seq<real>, rank: seq<real>, v: nat)
    requires |t| == g.n == |rank| && v < g.n
    ensures Mix(g, d, t, rank)[v]
         == TeleportShare(d, t[v]) + DanglingPart(d, Dangling(g, rank, 0, g.n), t[v]) + Received(g, d, rank, v, g.n)
  {
    hide Flow, Along, Sum, Dangling, Blend, TeleportShare, DanglingPart;
    var dangling, along := Dangling(g, rank, 0, g.n), Sum(g.n, Along(g, g.edges, rank, v));
    assert Mix(g, d, t, rank)[v] == Blend(1.0 - d, At(t, v)) + Blend(d, Flow(g, t, rank)(v));
    FlowSplits(g, t, rank, v);
    BlendAdd(d, Blend(t[v], dangling), along);
    Products(d, t[v], dangling);
    assert At(t, v) == t[v];
    assert Flow(g, t, rank)(v) == Blend(t[v], dangling) + along;
  }

  lemma Products(d: real, t: real, dangling: real)
    ensures Blend(1.0 - d, t) == TeleportShare(d, t) && Blend(d, Blend(t, dangling)) == DanglingPart(d, dangling, t)
  {
    assert d * (t * dangling) == d * dangling * t;
  }

  /** A step as the personalized kernel makes it. */
  method PersonalizedStep(ghost g: Graph, outAdj: seq<seq<nat>>, outDeg: seq<nat>, d: real, t: seq<real>, rank: seq<real>)
    returns (r: seq<real>)
    requires IsOut(g, outAdj, outDeg) && |t| == g.n == |rank|
    ensures r == Mix(g, d, t, rank)
  {
    hide Received, Dangling, Mix, OutDeg, CountIn, TeleportShare, DanglingPart;
    var n := |rank|;
    var next := new real[n](v requires 0 <= v < n => TeleportShare(d, t[v]));
    var dangling := SumDangling(g, outDeg, rank);
    for v := 0 to n
      invariant forall w: nat :: w < n ==> next[w] == TeleportShare(d, t[w]) + if w < v then DanglingPart(d, dangling, t[w]) else 0.0
    {
      next[v] := next[v] + DanglingPart(d, dangling, t[v]);
    }
    Push(g, outAdj, outDeg, d, rank, next);
    forall v: nat | v < n ensures next[v] == Mix(g, d, t, rank)[v] {
      MixAt(g, d, t, rank, v);
    }
    r := next[..];
  }

  /** A step as the plain kernel makes it: teleport and dangling shares are one n-th each. */
  method UniformStep(ghost g: Graph, outAdj: seq<seq<nat>>, outDeg: seq<nat>, d: real, rank: seq<real>) returns (r: seq<real>)
    requires IsOut(g, outAdj, outDeg) && |rank| == g.n > 0
    ensures r == Mix(g, d, Uniform(g.n), rank)
  {
    hide Received, Dangling, Mix, OutDeg, CountIn, TeleportShare, DanglingPart, Nth;
    var n := |rank|;
    var start := Nth(1.0 - d, n);
    var next := new real[n](_ => start);
    var dangling := SumDangling(g, outDeg, rank);
    var danglingShare := Nth(d * dangling, n);
    Push(g, outAdj, outDeg, d, rank, next);
    for v := 0 to n
      invariant forall w: nat :: w < n ==>
        next[w] == start + Received(g, d, rank, w, n) + if w < v then danglingShare else 0.0
    {
      next[v] := next[v] + danglingShare;
    }
    forall v: nat | v < n ensures next[v] == Mix(g, d, Uniform(n), rank)[v] {
      MixAt(g, d, Uniform(n), rank, v);
      UniformShares(d, dangling, n);
    }
    r := next[..];
  }

  function Nth(x: real, n: nat): real
    requires n > 0
  {
    x / n as real
  }

  lemma UniformShares(d: real, dangling: real, n: nat)
    requires n > 0
    ensures TeleportShare(d, 1.0 / n as real) == Nth(1.0 - d, n)
    ensures DanglingPart(d, dangling, 1.0 / n as real) == Nth(d * dangling, n)
  {}

  method DistanceOf(r: seq<real>, s: seq<real>) returns (diff: real)
    requires |r| == |s|
    ensures diff == Distance(r, s)
  {
    diff := 0.0;
    for v := 0 to |r|
      invariant diff == Sum(v, Gap(r, s))
    {
      diff := diff + Abs(r[v] - s[v]);
    }
  }

  // ---- The kernels ---------------------------------------------------------------------------------

  method UniformPageRank(g: Graph, d: real, maxIters: nat, tol: real) returns (rank: seq<real>)
    ensures g.n == 0 ==> rank == []
    ensures g.n > 0 ==> IsResult(g, d, Uniform(g.n), Uniform(g.n), maxIters, tol, rank)
  {
    hide MixTimes, StepSize, IsOut, StopsAt;
    if g.n == 0 {
      return [];
    }
    var outAdj, outDeg := BuildOut(g);
    ghost var t := Uniform(g.n);
    rank := Uniform(g.n);
    StartIterating(g, d, t, t, tol);
    for it := 0 to maxIters
      invariant rank == MixTimes(g, d, t, t, it) && StillMoving(g, d, t, t, tol, it)
    {
      var next := UniformStep(g, outAdj, outDeg, d, rank);
      var diff := DistanceOf(next, rank);
      IterateOnce(g, d, t, t, maxIters, tol, it);
      rank := next;
      if diff < tol {
        return;
      }
    }
    IterateAll(g, d, t, t, maxIters, tol);
  }

  method PersonalizedPageRank(g: Graph, t: seq<real>, d: real, maxIters: nat, tol: real) returns (rank: seq<real>)
    requires |t| == g.n
    ensures IsResult(g, d, t, t, maxIters, tol, rank)
  {
    hide MixTimes, StepSize, IsOut, StopsAt;
    var outAdj, outDeg := BuildOut(g);
    rank := t;
    StartIterating(g, d, t, t, tol);
    for it := 0 to maxIters
      invariant rank == MixTimes(g, d, t, t, it) && StillMoving(g, d, t, t, tol, it)
    {
      var next := PersonalizedStep(g, outAdj, outDeg, d, t, rank);
      var diff := DistanceOf(next, rank);
      IterateOnce(g, d, t, t, maxIters, tol, it);
      rank := next;
      if diff < tol {
        return;
      }
    }
    IterateAll(g, d, t, t, maxIters, tol);
  }

  lemma StartIterating(g: Graph, d: real, t: seq<real>, r0: seq<real>, tol: real)
    requires |r0| == g.n
    ensures MixTimes(g, d, t, r0, 0) == r0 && StillMoving(g, d, t, r0, tol, 0)
  {}

  lemma IterateOnce(g: Graph, d: real, t: seq<real>, r0: seq<real>, maxIters: nat, tol: real, k: nat)
    requires |r0| == g.n && StillMoving(g, d, t, r0, tol, k) && k < maxIters
    ensures var now := MixTimes(g, d, t, r0, k);
            var next := Mix(g, d, t, now);
      && next == MixTimes(g, d, t, r0, k + 1)
      && (Distance(next, now) < tol ==> IsResult(g, d, t, r0, maxIters, tol, next))
      && (Distance(next, now) >= tol ==> StillMoving(g, d, t, r0, tol, k + 1))
  {
    hide Mix, Distance;
    assert StepSize(g, d, t, r0, k + 1) == Distance(MixTimes(g, d, t, r0, k + 1), MixTimes(g, d, t, r0, k));
    if StepSize(g, d, t, r0, k + 1) < tol {
      assert StopsAt(g, d, t, r0, maxIters, tol, k + 1);
    }
  }

  lemma IterateAll(g: Graph, d: real, t: seq<real>, r0: seq<real>, maxIters: nat, tol: real)
    requires |r0| == g.n && StillMoving(g, d, t, r0, tol, maxIters)
    ensures IsResult(g, d, t, r0, maxIters, tol, MixTimes(g, d, t, r0, maxIters))
  {
    assert StopsAt(g, d, t, r0, maxIters, tol, maxIters);
  }

  // ---- The teleport distribution of the seeds --------------------------------------------------------

  /** A seed weight counts when it is a finite positive number. */
  datatype RawWeight = NotFinite | Number(value: real)

  datatype Seed = Seed(node: nat, weight: RawWeight)

  predicate Usable(n: nat, s: Seed) { s.node < n && s.weight.Number? && s.weight.value > 0.0 }

  /** t gives each node its part of the total weight. */
  ghost predicate IsShareOf(n: nat, t: seq<real>, weights: nat -> real) {
    |t| == n && Sum(n, weights) > 0.0 && forall i: nat :: i < n ==> t[i] == weights(i) / Sum(n, weights)
  }

  method TeleportOf(n: nat, seeds: seq<Seed>) returns (t: seq<real>)
    requires n > 0
    ensures |t| == n && IsDistribution(t)
    ensures (forall s :: s in seeds ==> !Usable(n, s)) ==> t == Uniform(n)
    ensures (exists s :: s in seeds && Usable(n, s)) ==> IsShareOf(n, t, SeedWeights(n, seeds))
  {
    var raw: seq<real> := seq(n, _ => 0.0);
    var sum := 0.0;
    SumZero(n, Of(raw));
    for k := 0 to |seeds|
      invariant |raw| == n && sum == Sum(n, Of(raw))
      invariant forall i: nat :: i < n ==> raw[i] == SeedWeight(n, seeds[..k], i)
    {
      var s := seeds[k];
      assert seeds[..k + 1][..k] == seeds[..k];
      if s.node < n && s.weight.Number? && s.weight.value > 0.0 {
        var raw' := raw[s.node := raw[s.node] + s.weight.value];
        SumChange(n, Of(raw), s.node, s.weight.value, Of(raw'));
        raw := raw';
        sum := sum + s.weight.value;
      }
    }
    assert seeds[..|seeds|] == seeds;
    SumCong(n, Of(raw), SeedWeights(n, seeds));
    SumNonNegative(n, SeedWeights(n, seeds));
    SeedsCount(n, seeds);
    if sum <= 0.0 {
      UniformIsDistribution(n);
      t := Uniform(n);
    } else {
      NormalizedIsDistribution(raw, sum);
      t := Normalized(raw, sum);
    }
  }

  /** The usable weight of node i. */
  function SeedWeight(n: nat, seeds: seq<Seed>, i: nat): (w: real)
    ensures w >= 0.0
  {
    if seeds == [] then 0.0
    else
      var s := seeds[|seeds| - 1];
      SeedWeight(n, seeds[..|seeds| - 1], i) + if Usable(n, s) && s.node == i then s.weight.value else 0.0
  }

  function SeedWeights(n: nat, seeds: seq<Seed>): nat -> real { (i: nat) => SeedWeight(n, seeds, i) }

  /** Weights of one node add up; those that are no positive number and those of nodes that do not exist do not count. */
  lemma SeedOneMore(n: nat, seeds: seq<Seed>, node: nat, weight: RawWeight, i: nat)
    ensures SeedWeight(n, [], i) == 0.0
    ensures SeedWeight(n, seeds + [Seed(node, weight)], i)
      == SeedWeight(n, seeds, i) + if node == i && i < n && weight.Number? && weight.value > 0.0 then weight.value else 0.0
  {
    assert (seeds + [Seed(node, weight)])[..|seeds|] == seeds;
  }

  lemma {:induction false} SeedAdds(n: nat, seeds: seq<Seed>, s: Seed)
    requires s in seeds && Usable(n, s)
    ensures SeedWeight(n, seeds, s.node) > 0.0
  {
    if s != seeds[|seeds| - 1] {
      SeedAdds(n, seeds[..|seeds| - 1], s);
    }
  }

  lemma {:induction false} NoSeedsNoWeight(n: nat, seeds: seq<Seed>, i: nat)
    requires forall s :: s in seeds ==> !Usable(n, s)
    ensures SeedWeight(n, seeds, i) == 0.0
  {
    if seeds != [] {
      assert seeds[|seeds| - 1] in seeds;
      NoSeedsNoWeight(n, seeds[..|seeds| - 1], i);
    }
  }

  /** There is weight exactly when some seed is usable. */
  lemma SeedsCount(n: nat, seeds: seq<Seed>)
    ensures Sum(n, SeedWeights(n, seeds)) > 0.0 <==> exists s :: s in seeds && Usable(n, s)
  {
    hide SeedWeight;
    SumNonNegative(n, SeedWeights(n, seeds));
    if exists s :: s in seeds && Usable(n, s) {
      var s :| s in seeds && Usable(n, s);
      SeedAdds(n, seeds, s);
      assert SeedWeights(n, seeds)(s.node) > 0.0;
    } else {
      forall i: nat | i < n ensures SeedWeights(n, seeds)(i) == 0.0 {
        NoSeedsNoWeight(n, seeds, i);
      }
      SumZero(n, SeedWeights(n, seeds));
    }
  }

  function Normalized(raw: seq<real>, sum: real): (t: seq<real>)
    requires sum != 0.0
    ensures |t| == |raw| && forall i :: 0 <= i < |raw| ==> t[i] == raw[i] / sum
  {
    seq(|raw|, i requires 0 <= i < |raw| => raw[i] / sum)
  }

  lemma NormalizedIsDistribution(raw: seq<real>, sum: real)
    requires sum > 0.0 && sum == Sum(|raw|, Of(raw)) && forall i :: 0 <= i < |raw| ==> raw[i] >= 0.0
    ensures IsDistribution(Normalized(raw, sum))
  {
    var t, share := Normalized(raw, sum), 1.0 / sum;
    Whole(sum);
    ScaledSum(|raw|, share, Of(raw));
    forall i: nat | i < |raw| ensures t[i] >= 0.0 && At(t, i) == Scaled(share, Of(raw))(i) {
      assert At(raw, i) == raw[i] && At(t, i) == t[i];
      Quotient(raw[i], sum);
    }
    SumCong(|raw|, Scaled(share, Of(raw)), Of(t));
  }

  lemma Quotient(x: real, k: real)
    requires k > 0.0 && x >= 0.0
    ensures x / k >= 0.0 && x / k == Blend(1.0 / k, x)
  {}

  // ---- Pulling over the mapped file ------------------------------------------------------------------

  method PullNode(ghost g: Graph, us: seq<nat>, outDeg: seq<nat>, rank: seq<real>) returns (acc: real)
    requires |rank| == g.n && outDeg == Csr.OutDegs(g) && Givers(g, us)
    ensures acc == Inflow(g, rank, us)
  {
    hide OutDeg;
    acc := 0.0;
    for j := 0 to |us|
      invariant Givers(g, us[..j]) && acc == Inflow(g, rank, us[..j])
    {
      assert us[..j + 1][..j] == us[..j];
      var u := us[j];
      acc := acc + rank[u] / outDeg[u] as real;
    }
    assert us[..|us|] == us;
  }

  lemma OutDegsAt(g: Graph)
    ensures |Csr.OutDegs(g)| == g.n && forall u: nat :: u < g.n ==> Csr.OutDegs(g)[u] == OutDeg(g.n, g.edges, u)
  {}

  lemma NodeStepParts(g: Graph, d: real, r: seq<real>, v: nat)
    requires g.n > 0 && |r| == g.n
    ensures Givers(g, Sources(g.n, g.edges, v))
    ensures NodeStep(g, d, r, v) == Additive(g.n, d, Dangling(g, r, 0, g.n)) + d * Inflow(g, r, Sources(g.n, g.edges, v))
  {
    hide Additive, OutDeg, Dangling, Inflow;
    SourcesHaveOutDeg(g.n, g.edges, v);
  }

  /** One step, node by node, from the in-neighbours read out of the file. */
  method PullStep(csr: Csr.MmapCsr, ghost g: Graph, outDeg: seq<nat>, d: real, rank: seq<real>) returns (next: seq<real>)
    requires 0 < g.n <= 0x1_0000_0000 && |g.edges| < 0x1_0000_0000 && csr.n == g.n
    requires |Csr.File(g)| >= 16 && csr == Csr.Open(Csr.File(g))
    requires |rank| == g.n && outDeg == Csr.OutDegs(g)
    ensures next == Mix(g, d, Uniform(g.n), rank)
  {
    hide *;
    var n := csr.n;
    OutDegsAt(g);
    var dangling := SumDangling(g, outDeg, rank);
    var add := Additive(n, d, dangling);
    next := [];
    for v := 0 to n
      invariant |next| == v && forall w :: 0 <= w < v ==> next[w] == NodeStep(g, d, rank, w)
    {
      NodeStepParts(g, d, rank, v);
      Csr.InNeighborsAreSources(g, v);
      var acc := PullNode(g, csr.InNeighbors(v), outDeg, rank);
      next := next + [add + d * acc];
    }
    assert next == Step(g, d, rank);
    StepIsMix(g, d, rank);
  }

  /** The pull kernel. */
  method PageRankMmap(csr: Csr.MmapCsr, ghost g: Graph, d: real, maxIters: nat, tol: real) returns (rank: seq<real>)
    requires g.n <= 0x1_0000_0000 && |g.edges| < 0x1_0000_0000
    requires |Csr.File(g)| >= 16 && csr == Csr.Open(Csr.File(g))
    ensures g.n == 0 ==> rank == []
    ensures g.n > 0 ==> IsResult(g, d, Uniform(g.n), Uniform(g.n), maxIters, tol, rank)
  {
    hide Csr.Open, Csr.File, Csr.OutDegs, MixTimes, StepSize, StopsAt;
    Csr.ReadsBack(g);
    var n := csr.n;
    if n == 0 {
      return [];
    }
    var outDeg := csr.OutDeg();
    ghost var t := Uniform(n);
    rank := Uniform(n);
    StartIterating(g, d, t, t, tol);
    for it := 0 to maxIters
      invariant rank == MixTimes(g, d, t, t, it) && StillMoving(g, d, t, t, tol, it)
    {
      var next := PullStep(csr, g, outDeg, d, rank);
      var diff := DistanceOf(next, rank);
      IterateOnce(g, d, t, t, maxIters, tol, it);
      rank := next;
      if diff < tol {
        return;
      }
    }
    IterateAll(g, d, t, t, maxIters, tol);
  }
}
