/** The single-graph PageRank iterates, over the reals: what every kernel and the distributed run compute.
    Edges with an endpoint out of range are skipped. */
module PageRankSpec {
  import opened Graphs

  /** The sources of the valid edges into v, in input order, repeated edges included. */
  function Sources(n: nat, edges: seq<(nat, nat)>, v: nat): (us: seq<nat>)
    ensures forall i :: 0 <= i < |us| ==> us[i] < n
  {
    if edges == [] then []
    else
      var e := edges[|edges| - 1];
      Sources(n, edges[..|edges| - 1], v) + if ValidEdge(n, e) && e.1 == v then [e.0] else []
  }

  /** The number of valid edges out of u. */
  function OutDeg(n: nat, edges: seq<(nat, nat)>, u: nat): nat {
    if edges == [] then 0
    else
      var e := edges[|edges| - 1];
      OutDeg(n, edges[..|edges| - 1], u) + if ValidEdge(n, e) && e.0 == u then 1 else 0
  }

  /** No in-neighbour has out-degree 0, so no rank is ever divided by 0. */
  lemma {:induction false} SourcesHaveOutDeg(n: nat, edges: seq<(nat, nat)>, v: nat)
    ensures forall u :: u in Sources(n, edges, v) ==> OutDeg(n, edges, u) > 0
  {
    if edges != [] {
      SourcesHaveOutDeg(n, edges[..|edges| - 1], v);
    }
  }

  /** The rank of the nodes in [lo, hi) without out-edges. */
  function Dangling(g: Graph, r: seq<real>, lo: nat, hi: nat): real
    requires lo <= hi <= g.n == |r|
  {
    if lo == hi then 0.0
    else Dangling(g, r, lo, hi - 1) + if OutDeg(g.n, g.edges, hi - 1) == 0 then r[hi - 1] else 0.0
  }

  lemma {:induction false} DanglingSplit(g: Graph, r: seq<real>, lo: nat, mid: nat, hi: nat)
    requires lo <= mid <= hi <= g.n == |r|
    ensures Dangling(g, r, lo, hi) == Dangling(g, r, lo, mid) + Dangling(g, r, mid, hi)
  {
    if mid < hi {
      DanglingSplit(g, r, lo, mid, hi - 1);
    }
  }

  ghost predicate Givers(g: Graph, us: seq<nat>) {
    forall i :: 0 <= i < |us| ==> us[i] < g.n && OutDeg(g.n, g.edges, us[i]) > 0
  }

  /** The rank that flows in along the given sources: each gives an equal share to every out-edge. */
  function Inflow(g: Graph, r: seq<real>, us: seq<nat>): real
    requires |r| == g.n && Givers(g, us)
  {
    if us == [] then 0.0
    else
      var u := us[|us| - 1];
      Inflow(g, r, us[..|us| - 1]) + r[u] / OutDeg(g.n, g.edges, u) as real
  }

  /** What every node gets in a step regardless of its in-edges: the base term and its part of the
      dangling rank. */
  function Additive(n: nat, d: real, dangling: real): real
    requires n > 0
  {
    (1.0 - d) / n as real + d * dangling / n as real
  }

  function Teleport(g: Graph, d: real, r: seq<real>): real
    requires |r| == g.n > 0
  {
    Additive(g.n, d, Dangling(g, r, 0, g.n))
  }

  function NodeStep(g: Graph, d: real, r: seq<real>, v: nat): real
    requires |r| == g.n > 0
  {
    SourcesHaveOutDeg(g.n, g.edges, v);
    Teleport(g, d, r) + d * Inflow(g, r, Sources(g.n, g.edges, v))
  }

  function Step(g: Graph, d: real, r: seq<real>): (next: seq<real>)
    requires |r| == g.n > 0
    ensures |next| == g.n
    ensures forall v :: 0 <= v < g.n ==> next[v] == NodeStep(g, d, r, v)
  {
    seq(g.n, v requires 0 <= v < g.n => NodeStep(g, d, r, v))
  }

  /** The t-th iterate from the uniform ranks. */
  function Iterate(g: Graph, d: real, t: nat): (r: seq<real>)
    requires g.n > 0
    ensures |r| == g.n
  {
    if t == 0 then seq(g.n, _ => 1.0 / g.n as real) else Step(g, d, Iterate(g, d, t - 1))
  }
}
