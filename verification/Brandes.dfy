/** Brandes' betweenness centrality over a directed multigraph (ts/src/graph-analytics.ts): breadth-first
    search with path counts, then back-propagation of dependencies. */
module ShortestWalks {
  import opened Sums
  import opened Walks
  import opened WalkLists

  // ---- Distances ---------------------------------------------------------------------------------

  ghost predicate IsDist(adj: Adjacency, s: nat, t: nat, d: nat) {
    Count(adj, s, d, t) > 0.0 && forall l: nat :: l < d ==> Count(adj, s, l, t) == 0.0
  }

  ghost predicate Unreachable(adj: Adjacency, s: nat, t: nat) {
    forall l: nat :: Count(adj, s, l, t) == 0.0
  }

  /** dist[t] is the distance from s, or -1 without a walk. */
  ghost predicate DistOk(adj: Adjacency, s: nat, dist: seq<int>) {
    && WellFormed(adj) && s < |adj| == |dist|
    && forall t :: 0 <= t < |dist| ==>
         if dist[t] >= 0 then IsDist(adj, s, t, dist[t]) else dist[t] == -1 && Unreachable(adj, s, t)
  }

  lemma DistIsLeast(adj: Adjacency, s: nat, dist: seq<int>, t: nat, l: nat)
    requires DistOk(adj, s, dist) && t < |adj| && Count(adj, s, l, t) > 0.0
    ensures 0 <= dist[t] <= l
  {}

  lemma DistOfSource(adj: Adjacency, s: nat, dist: seq<int>)
    requires DistOk(adj, s, dist)
    ensures forall t :: 0 <= t < |adj| ==> (dist[t] == 0 <==> t == s)
  {
    assert Count(adj, s, 0, s) > 0.0;
    DistIsLeast(adj, s, dist, s, 0);
    forall t | 0 <= t < |adj| && dist[t] == 0 ensures t == s {
      assert IsDist(adj, s, t, 0);
    }
  }

  lemma DistAlongEdge(adj: Adjacency, s: nat, dist: seq<int>, u: nat, w: nat)
    requires DistOk(adj, s, dist) && u < |adj| && w in adj[u] && dist[u] >= 0
    ensures w < |adj| && 0 <= dist[w] <= dist[u] + 1
  {
    hide Count, Mult;
    assert IsDist(adj, s, u, dist[u]);
    CountExtends(adj, s, dist[u], u, w);
    DistIsLeast(adj, s, dist, w, dist[u] + 1);
  }

  /** A walk onwards from v bounds the distance of its end. */
  lemma {:induction false} DistAlongWalk(adj: Adjacency, s: nat, dist: seq<int>, v: nat, l: nat, t: nat)
    requires DistOk(adj, s, dist) && v < |adj| && t < |adj| && dist[v] >= 0 && Count(adj, v, l, t) > 0.0
    ensures 0 <= dist[t] <= dist[v] + l
    decreases l
  {
    if l != 0 {
      hide Count, Mult;
      var u := CountLast(adj, v, l - 1, t);
      DistAlongWalk(adj, s, dist, v, l - 1, u);
      DistAlongEdge(adj, s, dist, u, t);
    }
  }

  // ---- Path counts -------------------------------------------------------------------------------

  /** The number of shortest walks from s to t. */
  ghost function Sigma(adj: Adjacency, s: nat, dist: seq<int>, t: nat): real
    requires |dist| == |adj| && t < |adj|
  {
    if dist[t] >= 0 then Count(adj, s, dist[t], t) else 0.0
  }

  /** The number of ways to go on from v to t on a shortest walk from s. */
  ghost function Onward(adj: Adjacency, dist: seq<int>, v: nat, t: nat): real
    requires |dist| == |adj| && v < |adj| && t < |adj|
  {
    if 0 <= dist[v] <= dist[t] then Count(adj, v, dist[t] - dist[v], t) else 0.0
  }

  /** The edges shortest walks use. */
  predicate Tight(dist: seq<int>, v: nat, w: nat)
    requires v < |dist| && w < |dist|
  {
    dist[v] >= 0 && dist[w] == dist[v] + 1
  }

  lemma OnwardTerm(adj: Adjacency, s: nat, dist: seq<int>, v: nat, t: nat, w: nat)
    requires DistOk(adj, s, dist) && v < |adj| && t < |adj| && w < |adj| && 0 <= dist[v] < dist[t]
    ensures Mult(adj, v, w) * Count(adj, w, dist[t] - dist[v] - 1, t)
         == if Tight(dist, v, w) then Mult(adj, v, w) * Onward(adj, dist, w, t) else 0.0
  {
    hide Count, Mult;
    var l := dist[t] - dist[v] - 1;
    CountNonNegative(adj, w, l, t);
    MultPositive(adj, v, w);
    if !Tight(dist, v, w) && Mult(adj, v, w) > 0.0 && Count(adj, w, l, t) > 0.0 {
      DistAlongEdge(adj, s, dist, v, w);
      DistAlongWalk(adj, s, dist, w, l, t);
    }
  }

  /** Going on from v means going along a tight edge first. */
  lemma OnwardFirst(adj: Adjacency, s: nat, dist: seq<int>, v: nat, t: nat, f: nat -> real)
    requires DistOk(adj, s, dist) && v < |adj| && t < |adj|
    requires forall w: nat :: w < |adj| ==>
      f(w) == if Tight(dist, v, w) then Mult(adj, v, w) * Onward(adj, dist, w, t) else 0.0
    ensures Onward(adj, dist, v, t) == (if v == t && dist[v] >= 0 then 1.0 else 0.0) + Sum(|adj|, f)
  {
    hide Mult, Sum;
    if 0 <= dist[v] < dist[t] {
      hide Count;
      var g := (w: nat) => Mult(adj, v, w) * Count(adj, w, dist[t] - dist[v] - 1, t);
      forall w: nat | w < |adj| ensures g(w) == f(w) {
        OnwardTerm(adj, s, dist, v, t, w);
      }
      SumCong(|adj|, f, g);
      CountFirst(adj, v, dist[t] - dist[v] - 1, t);
    } else {
      SumZero(|adj|, f);
    }
  }

  // ---- Dependencies ------------------------------------------------------------------------------

  lemma SigmaPositive(adj: Adjacency, s: nat, dist: seq<int>, t: nat)
    requires DistOk(adj, s, dist) && t < |adj| && dist[t] >= 0
    ensures Sigma(adj, s, dist, t) > 0.0
  {}

  ghost function ShareTerm(adj: Adjacency, s: nat, dist: seq<int>, v: nat, t: nat): real
    requires DistOk(adj, s, dist) && v < |adj| && t < |adj|
  {
    if dist[t] >= 0 then SigmaPositive(adj, s, dist, t); Onward(adj, dist, v, t) / Sigma(adj, s, dist, t) else 0.0
  }

  ghost function ShareTerms(adj: Adjacency, s: nat, dist: seq<int>, v: nat): nat -> real
    requires DistOk(adj, s, dist) && v < |adj|
  {
    (t: nat) => if t < |adj| then ShareTerm(adj, s, dist, v, t) else 0.0
  }

  /** The dependency of s on v, over all targets, divided by the path count of v. */
  ghost function Share(adj: Adjacency, s: nat, dist: seq<int>, v: nat): real
    requires DistOk(adj, s, dist) && v < |adj|
  {
    Sum(|adj|, ShareTerms(adj, s, dist, v))
  }

  /** The dependency of s on v: the sum over the targets t of the fraction of shortest s-t walks through v
      (see DependencyMeaning). */
  ghost function Dependency(adj: Adjacency, s: nat, dist: seq<int>, v: nat): real
    requires DistOk(adj, s, dist) && v < |adj|
  {
    Sigma(adj, s, dist, v) * Share(adj, s, dist, v) - 1.0
  }

  lemma ShareTermFirst(adj: Adjacency, s: nat, dist: seq<int>, v: nat, t: nat, row: nat -> real)
    requires DistOk(adj, s, dist) && v < |adj| && t < |adj| && dist[v] >= 0 && Sigma(adj, s, dist, v) > 0.0
    requires forall w: nat :: w < |adj| ==>
      row(w) == if Tight(dist, v, w) then Mult(adj, v, w) * ShareTerm(adj, s, dist, w, t) else 0.0
    ensures ShareTerm(adj, s, dist, v, t) == (if v == t then 1.0 / Sigma(adj, s, dist, v) else 0.0) + Sum(|adj|, row)
  {
    hide Count, Mult, Sum, Onward, Sigma;
    if dist[t] >= 0 {
      SigmaPositive(adj, s, dist, t);
      var sigma := Sigma(adj, s, dist, t);
      var f := (w: nat) => if w < |adj| && Tight(dist, v, w) then Mult(adj, v, w) * Onward(adj, dist, w, t) else 0.0;
      OnwardFirst(adj, s, dist, v, t, f);
      forall w: nat | w < |adj| ensures row(w) == 1.0 / sigma * f(w) {
        if Tight(dist, v, w) {
          Divide(Mult(adj, v, w), Onward(adj, dist, w, t), sigma);
        }
      }
      SumScale(|adj|, f, 1.0 / sigma, row);
      DivideSum(if v == t then 1.0 else 0.0, Sum(|adj|, f), sigma);
    } else {
      SumZero(|adj|, row);
    }
  }

  lemma Divide(m: real, x: real, y: real)
    requires y != 0.0
    ensures m * (x / y) == 1.0 / y * (m * x)
  {}

  lemma DivideSum(a: real, b: real, y: real)
    requires y != 0.0
    ensures (a + b) / y == a / y + 1.0 / y * b
  {}

  /** The recursion behind back-propagation, before scaling by path counts. */
  lemma ShareRecursion(adj: Adjacency, s: nat, dist: seq<int>, v: nat, f: nat -> real)
    requires DistOk(adj, s, dist) && v < |adj| && dist[v] >= 0 && Sigma(adj, s, dist, v) > 0.0
    requires forall w: nat :: w < |adj| ==>
      f(w) == if Tight(dist, v, w) then Mult(adj, v, w) * Share(adj, s, dist, w) else 0.0
    ensures Share(adj, s, dist, v) == 1.0 / Sigma(adj, s, dist, v) + Sum(|adj|, f)
  {
    hide Count, Mult, Sum, Sigma, ShareTerm;
    var n := |adj|;
    var point := (t: nat) => if t == v then 1.0 / Sigma(adj, s, dist, v) else 0.0;
    var g := (t: nat, w: nat) =>
      if t < n && w < n && Tight(dist, v, w) then Mult(adj, v, w) * ShareTerm(adj, s, dist, w, t) else 0.0;
    var rows := (t: nat) => Sum(n, Row(g, t));
    forall t: nat | t < n ensures ShareTerms(adj, s, dist, v)(t) == point(t) + rows(t) {
      ShareTermFirst(adj, s, dist, v, t, Row(g, t));
    }
    SumAdd(n, point, rows, ShareTerms(adj, s, dist, v));
    SumPoint(n, point, v);
    forall w: nat | w < n ensures f(w) == Sum(n, Column(g, w)) {
      if Tight(dist, v, w) {
        SumScale(n, ShareTerms(adj, s, dist, w), Mult(adj, v, w), Column(g, w));
      } else {
        SumZero(n, Column(g, w));
      }
    }
    SumSwap(n, n, g, rows, f);
  }

  /** What a tight edge from v to w contributes to the dependency on v. */
  ghost function Contribution(sigmaV: real, sigmaW: real, dependencyW: real): real
    requires sigmaW != 0.0
  {
    sigmaV / sigmaW * (1.0 + dependencyW)
  }

  lemma ContributionIsShare(sigmaV: real, sigmaW: real, share: real)
    requires sigmaW != 0.0
    ensures Contribution(sigmaV, sigmaW, sigmaW * share - 1.0) == sigmaV * share
  {}

  ghost function EdgeTerm(adj: Adjacency, s: nat, dist: seq<int>, v: nat, w: nat): real
    requires DistOk(adj, s, dist) && v < |adj| && w < |adj|
  {
    if Tight(dist, v, w) then
      SigmaPositive(adj, s, dist, w);
      Mult(adj, v, w) * Contribution(Sigma(adj, s, dist, v), Sigma(adj, s, dist, w), Dependency(adj, s, dist, w))
    else 0.0
  }

  /** Brandes' recursion: the dependency on v is the sum of the contributions of its tight out-edges. */
  lemma DependencyRecursion(adj: Adjacency, s: nat, dist: seq<int>, v: nat, f: nat -> real)
    requires DistOk(adj, s, dist) && v < |adj| && dist[v] >= 0
    requires forall w: nat :: w < |adj| ==> f(w) == EdgeTerm(adj, s, dist, v, w)
    ensures Dependency(adj, s, dist, v) == Sum(|adj|, f)
  {
    hide Count, Mult, Sum, Sigma, Share, Contribution;
    SigmaPositive(adj, s, dist, v);
    var sigma := Sigma(adj, s, dist, v);
    var g := (w: nat) => if w < |adj| && Tight(dist, v, w) then Mult(adj, v, w) * Share(adj, s, dist, w) else 0.0;
    ShareRecursion(adj, s, dist, v, g);
    forall w: nat | w < |adj| ensures f(w) == sigma * g(w) {
      if Tight(dist, v, w) {
        SigmaPositive(adj, s, dist, w);
        var sigmaW, share := Sigma(adj, s, dist, w), Share(adj, s, dist, w);
        assert Dependency(adj, s, dist, w) == sigmaW * share - 1.0;
        ContributionIsShare(sigma, sigmaW, share);
        assert f(w) == Mult(adj, v, w) * (sigma * share);
        Rearrange(Mult(adj, v, w), sigma, share);
      } else {
        assert f(w) == 0.0 && g(w) == 0.0;
      }
    }
    SumScale(|adj|, g, sigma, f);
    Multiply(sigma, Sum(|adj|, g));
  }

  lemma Multiply(x: real, y: real)
    requires x != 0.0
    ensures x * (1.0 / x + y) - 1.0 == x * y
  {}

  // ---- Betweenness -------------------------------------------------------------------------------

  /** The walks with v strictly inside. */
  ghost function Visits(adj: Adjacency, s: nat, v: nat): seq<nat> -> bool {
    (p: seq<nat>) => exists i: nat :: 0 < i < |p| && AtIs(adj, s, i, v)(p)
  }

  lemma ShortestExist(adj: Adjacency, s: nat, t: nat, d: nat)
    requires WellFormed(adj) && s < |adj| && t < |adj| && IsDist(adj, s, t, d)
    ensures |List(adj, s, d, t)| > 0
  {
    hide Count;
    ListCount(adj, s, d, t);
  }

  lemma IsDistUnique(adj: Adjacency, s: nat, t: nat, d: nat, d': nat)
    requires IsDist(adj, s, t, d) && IsDist(adj, s, t, d')
    ensures d == d'
  {}

  /** The fraction of the shortest walks from s to t that have v strictly inside; 0 without a walk. */
  ghost function PathShare(adj: Adjacency, s: nat, t: nat, v: nat): real
    requires WellFormed(adj) && s < |adj| && t < |adj|
  {
    if exists d: nat :: IsDist(adj, s, t, d) then
      var d: nat :| IsDist(adj, s, t, d);
      ShareAt(adj, s, t, v, d)
    else 0.0
  }

  ghost function ShareAt(adj: Adjacency, s: nat, t: nat, v: nat, d: nat): real
    requires WellFormed(adj) && s < |adj| && t < |adj| && IsDist(adj, s, t, d)
  {
    ShortestExist(adj, s, t, d);
    HowMany(List(adj, s, d, t), Visits(adj, s, v)) as real / |List(adj, s, d, t)| as real
  }

  ghost function TargetTerm(adj: Adjacency, s: nat, v: nat): nat -> real
    requires WellFormed(adj) && s < |adj|
  {
    (t: nat) => if t < |adj| && t != s && t != v then PathShare(adj, s, t, v) else 0.0
  }

  /** The betweenness of v restricted to walks from s. */
  ghost function SourceTerm(adj: Adjacency, v: nat): nat -> real
    requires WellFormed(adj)
  {
    (s: nat) => if s < |adj| && s != v then Sum(|adj|, TargetTerm(adj, s, v)) else 0.0
  }

  /** Betweenness: over all ordered pairs s, t without v, the fraction of shortest s-t walks through v. */
  ghost function Betweenness(adj: Adjacency, v: nat): real
    requires WellFormed(adj)
  {
    Sum(|adj|, SourceTerm(adj, v))
  }

  lemma WalksAreCounted(adj: Adjacency, s: nat, l: nat, t: nat, p: seq<nat>)
    requires WellFormed(adj) && s < |adj| && t < |adj| && IsWalkTo(adj, s, l, t, p)
    ensures Count(adj, s, l, t) > 0.0
  {
    hide Count;
    ListIsComplete(adj, s, l, t);
    ListCount(adj, s, l, t);
    assert p in List(adj, s, l, t);
  }

  /** A shortest walk can be at v only after as many steps as v is away. */
  lemma VisitPosition(adj: Adjacency, s: nat, dist: seq<int>, t: nat, p: seq<nat>, i: nat, v: nat)
    requires DistOk(adj, s, dist) && t < |adj| && v < |adj| && dist[t] >= 0
    requires IsWalkTo(adj, s, dist[t], t, p) && i <= |p| && AtIs(adj, s, i, v)(p)
    ensures dist[v] == i
  {
    hide Count;
    Prefixes(adj, s, p, i);
    WalksAreCounted(adj, s, i, v, p[..i]);
    WalksAreCounted(adj, v, |p| - i, t, p[i..]);
    DistIsLeast(adj, s, dist, v, i);
    DistAlongWalk(adj, s, dist, v, |p| - i, t);
  }

  /** On the listed shortest walks, being strictly inside is being there after dist[v] steps. */
  lemma VisitsOnce(adj: Adjacency, s: nat, dist: seq<int>, t: nat, v: nat, p: seq<nat>)
    requires DistOk(adj, s, dist) && t < |adj| && v < |adj| && dist[t] >= 0
    requires p in List(adj, s, dist[t], t)
    ensures Visits(adj, s, v)(p) <==> 0 < dist[v] < dist[t] && AtIs(adj, s, dist[v], v)(p)
  {
    hide Count, AtIs, List;
    ListIsComplete(adj, s, dist[t], t);
    assert IsWalkTo(adj, s, dist[t], t, p);
    forall j: nat | j <= |p| && AtIs(adj, s, j, v)(p) ensures j == dist[v] {
      VisitPosition(adj, s, dist, t, p, j, v);
    }
  }

  /** Shortest walks through v: shortest walks to v, each continued in every way. */
  lemma VisitCount(adj: Adjacency, s: nat, dist: seq<int>, t: nat, v: nat)
    requires DistOk(adj, s, dist) && t < |adj| && v < |adj| && dist[t] >= 0 && v != s && v != t
    ensures HowMany(List(adj, s, dist[t], t), Visits(adj, s, v)) as real
         == Sigma(adj, s, dist, v) * Onward(adj, dist, v, t)
  {
    hide Count, AtIs, Visits, HowMany, List;
    var ps, d, i := List(adj, s, dist[t], t), dist[t], dist[v];
    DistOfSource(adj, s, dist);
    forall p: seq<nat> | p in ps ensures Visits(adj, s, v)(p) <==> 0 < i < d && AtIs(adj, s, i, v)(p) {
      VisitsOnce(adj, s, dist, t, v, p);
    }
    if 0 < i < d {
      assert forall k :: 0 <= k < |ps| ==> ps[k] in ps;
      HowManyCong(ps, ps, Visits(adj, s, v), AtIs(adj, s, i, v));
      ListThrough(adj, s, d, t, i, v);
    } else {
      HowManyNone(ps, Visits(adj, s, v));
      CountZeroSteps(adj, v, t);
    }
  }

  lemma CountZeroSteps(adj: Adjacency, v: nat, t: nat)
    requires v != t
    ensures Count(adj, v, 0, t) == 0.0
  {}

  lemma PathShareValue(adj: Adjacency, s: nat, dist: seq<int>, t: nat, v: nat)
    requires DistOk(adj, s, dist) && t < |adj| && v < |adj| && v != s && v != t
    ensures PathShare(adj, s, t, v) == Sigma(adj, s, dist, v) * ShareTerm(adj, s, dist, v, t)
  {
    hide Count, Visits, List, HowMany, Onward;
    if dist[t] >= 0 {
      var d: nat := dist[t];
      assert IsDist(adj, s, t, d);
      var e: nat :| IsDist(adj, s, t, e) && PathShare(adj, s, t, v) == ShareAt(adj, s, t, v, e);
      IsDistUnique(adj, s, t, d, e);
      ListCount(adj, s, d, t);
      VisitCount(adj, s, dist, t, v);
      SigmaPositive(adj, s, dist, t);
      Associate(Sigma(adj, s, dist, v), Onward(adj, dist, v, t), Sigma(adj, s, dist, t));
    } else {
      assert Unreachable(adj, s, t);
      forall d: nat ensures !IsDist(adj, s, t, d) {}
    }
  }

  lemma Associate(x: real, y: real, z: real)
    requires z != 0.0
    ensures x * y / z == x * (y / z)
  {}

  /** The dependency of s on v is what the walks from s add to the betweenness of v. */
  lemma DependencyMeaning(adj: Adjacency, s: nat, dist: seq<int>, v: nat)
    requires DistOk(adj, s, dist) && v < |adj| && v != s
    ensures SourceTerm(adj, v)(s) == if dist[v] >= 0 then Dependency(adj, s, dist, v) else 0.0
  {
    hide Count, Sum, PathShare, ShareTerm, Sigma;
    var n, sigma := |adj|, Sigma(adj, s, dist, v);
    var scaled := (t: nat) => sigma * ShareTerms(adj, s, dist, v)(t);
    SumScale(n, ShareTerms(adj, s, dist, v), sigma, scaled);
    var point := (t: nat) => if t == v && dist[v] >= 0 then 1.0 else 0.0;
    forall t: nat | t < n ensures scaled(t) == TargetTerm(adj, s, v)(t) + point(t) {
      if t == v {
        SelfTerm(adj, s, dist, v);
      } else if t == s {
        SourceShare(adj, s, dist, v);
      } else {
        PathShareValue(adj, s, dist, t, v);
      }
    }
    SumAdd(n, TargetTerm(adj, s, v), point, scaled);
    SumPoint(n, point, v);
    if dist[v] < 0 {
      ZeroSigma(adj, s, dist, v);
    }
  }

  lemma ZeroSigma(adj: Adjacency, s: nat, dist: seq<int>, v: nat)
    requires DistOk(adj, s, dist) && v < |adj| && dist[v] < 0
    ensures Sigma(adj, s, dist, v) == 0.0
  {}

  lemma SelfTerm(adj: Adjacency, s: nat, dist: seq<int>, v: nat)
    requires DistOk(adj, s, dist) && v < |adj|
    ensures Sigma(adj, s, dist, v) * ShareTerm(adj, s, dist, v, v) == if dist[v] >= 0 then 1.0 else 0.0
  {
    if dist[v] >= 0 {
      SigmaPositive(adj, s, dist, v);
    }
  }

  lemma SourceShare(adj: Adjacency, s: nat, dist: seq<int>, v: nat)
    requires DistOk(adj, s, dist) && v < |adj| && v != s
    ensures ShareTerm(adj, s, dist, v, s) == 0.0
  {
    DistOfSource(adj, s, dist);
  }
}

/** The algorithm. */
module Brandes {
  import opened Sums
  import opened Walks
  import opened ShortestWalks

  // ---- Breadth-first search with path counts ------------------------------------------------------

  /** The search maps: distance or -1, path count, and predecessors with one entry per edge. */
  datatype Search = Search(dist: seq<int>, sigma: seq<real>, pred: seq<seq<nat>>) {
    predicate Sized(n: nat) { |dist| == |sigma| == |pred| == n }
  }

  ghost predicate Distinct(s: seq<nat>) { forall i, j :: 0 <= i < j < |s| ==> s[i] != s[j] }

  /** The discovered nodes in order, the first k of them expanded: their distances ascend and span at most
      one step from the node being expanded, and each is witnessed by a walk. */
  ghost predicate Discovered(adj: Adjacency, s: nat, order: seq<nat>, k: nat, dist: seq<int>) {
    && WellFormed(adj) && s < |adj| == |dist| && k <= |order|
    && Distinct(order)
    && (forall i :: 0 <= i < |order| ==> order[i] < |adj|)
    && (forall v :: 0 <= v < |adj| ==> (dist[v] >= 0 <==> v in order) && (dist[v] < 0 ==> dist[v] == -1))
    && (forall i, j :: 0 <= i <= j < |order| ==> dist[order[i]] <= dist[order[j]])
    && (k < |order| ==> dist[order[|order| - 1]] <= dist[order[k]] + 1)
    && (forall v :: 0 <= v < |adj| && dist[v] >= 0 ==> Count(adj, s, dist[v], v) > 0.0)
    && dist[s] == 0
  }

  /** How many edges from u to w have been scanned: all, if u is expanded; those among the first i, if u is
      being expanded. */
  ghost function Scanned(adj: Adjacency, order: seq<nat>, k: nat, i: nat, u: nat, w: nat): nat
    requires k <= |order|
  {
    if u >= |adj| then 0
    else if u in order[..k] then Times(adj[u], w)
    else if k < |order| && u == order[k] && i <= |adj[u]| then Times(adj[u][..i], w)
    else 0
  }

  function Weighted(m: nat, x: real): real { m as real * x }

  ghost function SigmaTerm(adj: Adjacency, order: seq<nat>, k: nat, i: nat, q: Search, w: nat): nat -> real
    requires k <= |order| && q.Sized(|adj|) && w < |adj|
  {
    (u: nat) => if u < |adj| && Tight(q.dist, u, w) then Weighted(Scanned(adj, order, k, i, u, w), q.sigma[u]) else 0.0
  }

  ghost predicate SigmaOk(adj: Adjacency, s: nat, order: seq<nat>, k: nat, i: nat, q: Search, w: nat)
    requires k <= |order| && q.Sized(|adj|) && w < |adj|
  {
    q.sigma[w] == (if w == s then 1.0 else 0.0) + Sum(|adj|, SigmaTerm(adj, order, k, i, q, w))
  }

  ghost predicate PredOk(adj: Adjacency, order: seq<nat>, k: nat, i: nat, q: Search, u: nat, w: nat)
    requires k <= |order| && q.Sized(|adj|) && w < |adj|
  {
    && Times(q.pred[w], u) == (if u < |adj| && Tight(q.dist, u, w) then Scanned(adj, order, k, i, u, w) else 0)
    && (u < |adj| && Scanned(adj, order, k, i, u, w) > 0 ==> 0 <= q.dist[w] <= q.dist[u] + 1)
  }

  /** Path counts and predecessor lists account for exactly the scanned tight edges, and a scanned edge
      leads to a discovered node at most one step further. */
  ghost predicate Accounted(adj: Adjacency, s: nat, order: seq<nat>, k: nat, i: nat, q: Search)
    requires k <= |order| && q.Sized(|adj|)
  {
    && (forall w: nat :: w < |adj| ==> SigmaOk(adj, s, order, k, i, q, w))
    && (forall u: nat, w: nat :: w < |adj| ==> PredOk(adj, order, k, i, q, u, w))
  }

  ghost predicate BfsInv(adj: Adjacency, s: nat, order: seq<nat>, k: nat, i: nat, q: Search) {
    q.Sized(|adj|) && Discovered(adj, s, order, k, q.dist) && Accounted(adj, s, order, k, i, q)
  }

  /** One edge of the node being expanded. */
  function ScanEdge(q: Search, v: nat, w: nat): Search
    requires q.Sized(|q.dist|) && v < |q.dist| && w < |q.dist|
  {
    var dist := if q.dist[w] < 0 then q.dist[w := q.dist[v] + 1] else q.dist;
    if dist[w] == dist[v] + 1 then
      Search(dist, q.sigma[w := q.sigma[w] + q.sigma[v]], q.pred[w := q.pred[w] + [v]])
    else q.(dist := dist)
  }

  lemma ScannedStep(adj: Adjacency, order: seq<nat>, order': seq<nat>, k: nat, i: nat, u: nat, x: nat)
    requires k < |order| && order <= order' && Distinct(order) && order[k] < |adj| && i < |adj[order[k]]|
    ensures Scanned(adj, order', k, i + 1, u, x)
         == Scanned(adj, order, k, i, u, x) + if u == order[k] && x == adj[order[k]][i] then 1 else 0
  {
    assert order'[..k] == order[..k];
    var v := order[k];
    assert v !in order[..k];
    assert adj[v][..i + 1] == adj[v][..i] + [adj[v][i]];
  }

  /** Nodes further out than the one being expanded have no scanned edges. */
  lemma NotScanned(adj: Adjacency, s: nat, order: seq<nat>, k: nat, i: nat, dist: seq<int>, u: nat, x: nat)
    requires Discovered(adj, s, order, k, dist) && k < |order| && u < |adj|
    requires dist[u] < 0 || dist[u] > dist[order[k]]
    ensures Scanned(adj, order, k, i, u, x) == 0
  {
    assert forall j :: 0 <= j < k ==> order[j] in order && order[j] != u;
  }

  lemma DistinctAppend(order: seq<nat>, w: nat)
    requires Distinct(order) && w !in order
    ensures Distinct(order + [w])
  {}

  /** Discovering w next to the node being expanded. */
  lemma DiscoverKeeps(adj: Adjacency, s: nat, order: seq<nat>, k: nat, i: nat, dist: seq<int>)
    requires Discovered(adj, s, order, k, dist) && k < |order| && i < |adj[order[k]]|
    requires dist[adj[order[k]][i]] < 0
    ensures
      var v, w := order[k], adj[order[k]][i];
      Discovered(adj, s, order + [w], k, dist[w := dist[v] + 1])
  {
    var v, w := order[k], adj[order[k]][i];
    hide Count;
    assert v in order && w !in order;
    CountExtends(adj, s, dist[v], v, w);
    DistinctAppend(order, w);
  }

  /** The state after scanning edge i of the node being expanded. */
  ghost function OrderAfter(order: seq<nat>, dist: seq<int>, w: nat): seq<nat>
    requires w < |dist|
  {
    if dist[w] < 0 then order + [w] else order
  }

  /** One term of a path count before and after scanning the edge from v to w, m scanned edges before. */
  lemma TermStep(n: nat, q: Search, v: nat, w: nat, u: nat, x: nat, m: nat)
    requires |q.dist| == n && q.Sized(n) && v < n && w < n && u < n && x < n && q.dist[v] >= 0
    requires q.dist[w] < 0 ==> q.dist[w] == -1
    requires q.dist[u] < 0 || q.dist[u] > q.dist[v] ==> m == 0
    requires m > 0 ==> 0 <= q.dist[x] <= q.dist[u] + 1
    ensures
      var q' := ScanEdge(q, v, w);
      var m' := m + if u == v && x == w then 1 else 0;
      (if Tight(q'.dist, u, x) then Weighted(m', q'.sigma[u]) else 0.0)
        == (if Tight(q.dist, u, x) then Weighted(m, q.sigma[u]) else 0.0)
           + if u == v && x == w && Tight(q'.dist, v, w) then q.sigma[v] else 0.0
  {
    ScanTerm(m, q.sigma[u]);
  }

  lemma SigmaTermStep(adj: Adjacency, s: nat, order: seq<nat>, k: nat, i: nat, q: Search, x: nat, u: nat)
    requires q.Sized(|adj|) && Discovered(adj, s, order, k, q.dist)
    requires k < |order| && i < |adj[order[k]]| && x < |adj| && u < |adj| && PredOk(adj, order, k, i, q, u, x)
    ensures
      var v, w := order[k], adj[order[k]][i];
      var q', order' := ScanEdge(q, v, w), OrderAfter(order, q.dist, w);
      SigmaTerm(adj, order', k, i + 1, q', x)(u)
        == SigmaTerm(adj, order, k, i, q, x)(u) + if u == v && x == w && Tight(q'.dist, v, w) then q.sigma[v] else 0.0
  {
    hide Count, Times, Scanned, Tight, Weighted;
    var v, w := order[k], adj[order[k]][i];
    assert v in order;
    ScannedStep(adj, order, OrderAfter(order, q.dist, w), k, i, u, x);
    if q.dist[u] < 0 || q.dist[u] > q.dist[v] {
      NotScanned(adj, s, order, k, i, q.dist, u, x);
    }
    TermStep(|adj|, q, v, w, u, x, Scanned(adj, order, k, i, u, x));
  }

  /** Scanning an edge keeps every path-count equation: the edge adds its source's count to its target when
      it is tight, and changes nothing else. */
  lemma SigmaKeeps(adj: Adjacency, s: nat, order: seq<nat>, k: nat, i: nat, q: Search, x: nat)
    requires BfsInv(adj, s, order, k, i, q) && k < |order| && i < |adj[order[k]]| && x < |adj|
    ensures
      var v, w := order[k], adj[order[k]][i];
      var q', order' := ScanEdge(q, v, w), OrderAfter(order, q.dist, w);
      SigmaOk(adj, s, order', k, i + 1, q', x)
  {
    hide Count, Times, Sum, Scanned, SigmaTerm, PredOk;
    var v, w := order[k], adj[order[k]][i];
    var q', order' := ScanEdge(q, v, w), OrderAfter(order, q.dist, w);
    assert v in order && SigmaOk(adj, s, order, k, i, q, x);
    var f, h := SigmaTerm(adj, order, k, i, q, x), SigmaTerm(adj, order', k, i + 1, q', x);
    var c := if x == w && Tight(q'.dist, v, w) then q.sigma[v] else 0.0;
    forall u: nat | u < |adj| ensures h(u) == f(u) + if u == v then c else 0.0 {
      assert PredOk(adj, order, k, i, q, u, x);
      SigmaTermStep(adj, s, order, k, i, q, x, u);
    }
    SumChange(|adj|, f, v, c, h);
  }

  lemma ScanTerm(m: nat, x: real)
    ensures (m + 1) as real * x == m as real * x + x
    ensures m == 0 ==> m as real * x == 0.0
  {}

  lemma PredKeeps(adj: Adjacency, s: nat, order: seq<nat>, k: nat, i: nat, q: Search, u: nat, x: nat)
    requires BfsInv(adj, s, order, k, i, q) && k < |order| && i < |adj[order[k]]| && x < |adj|
    ensures
      var v, w := order[k], adj[order[k]][i];
      var q', order' := ScanEdge(q, v, w), OrderAfter(order, q.dist, w);
      PredOk(adj, order', k, i + 1, q', u, x)
  {
    hide Count, Times, Sum, Scanned;
    var v, w := order[k], adj[order[k]][i];
    assert v in order && PredOk(adj, order, k, i, q, u, x);
    ScannedStep(adj, order, OrderAfter(order, q.dist, w), k, i, u, x);
    WalkLists.TimesAppend(q.pred[w], v, u);
    if u < |adj| && (q.dist[u] < 0 || q.dist[u] > q.dist[v]) {
      NotScanned(adj, s, order, k, i, q.dist, u, x);
    }
  }

  lemma TargetInRange(adj: Adjacency, s: nat, order: seq<nat>, k: nat, i: nat, dist: seq<int>)
    requires Discovered(adj, s, order, k, dist) && k < |order| && i < |adj[order[k]]|
    ensures |dist| == |adj| && order[k] < |adj| && adj[order[k]][i] < |adj|
  {}

  lemma ScanShape(adj: Adjacency, s: nat, order: seq<nat>, k: nat, i: nat, q: Search)
    requires k < |order| && order[k] < |adj| == |q.dist| && i < |adj[order[k]]| && adj[order[k]][i] < |adj|
    requires Discovered(adj, s, order, k, q.dist) && q.Sized(|adj|)
    ensures var v, w := order[k], adj[order[k]][i];
      ScanEdge(q, v, w).Sized(|adj|) && Discovered(adj, s, OrderAfter(order, q.dist, w), k, ScanEdge(q, v, w).dist)
  {
    hide Count, Discovered;
    var w := adj[order[k]][i];
    if q.dist[w] < 0 {
      DiscoverKeeps(adj, s, order, k, i, q.dist);
    }
  }

  lemma ScanKeeps(adj: Adjacency, s: nat, order: seq<nat>, k: nat, i: nat, q: Search)
    requires BfsInv(adj, s, order, k, i, q) && k < |order| && i < |adj[order[k]]|
    ensures
      var v, w := order[k], adj[order[k]][i];
      BfsInv(adj, s, OrderAfter(order, q.dist, w), k, i + 1, ScanEdge(q, v, w))
  {
    hide Count, SigmaOk, PredOk, Sum, Scanned, Discovered;
    var i' := i + 1;
    TargetInRange(adj, s, order, k, i, q.dist);
    ScanShape(adj, s, order, k, i, q);
    var v, w := order[k], adj[order[k]][i];
    var q', order' := ScanEdge(q, v, w), OrderAfter(order, q.dist, w);
    forall x: nat | x < |adj| ensures SigmaOk(adj, s, order', k, i', q', x) {
      SigmaKeeps(adj, s, order, k, i, q, x);
    }
    forall u: nat, x: nat | x < |adj| ensures PredOk(adj, order', k, i', q', u, x) {
      PredKeeps(adj, s, order, k, i, q, u, x);
    }
  }

  /** A node whose edges are all scanned counts as expanded. */
  lemma ExpandedKeeps(adj: Adjacency, s: nat, order: seq<nat>, k: nat, q: Search)
    requires k < |order| && order[k] < |adj| && BfsInv(adj, s, order, k, |adj[order[k]]|, q)
    ensures BfsInv(adj, s, order, k + 1, 0, q)
  {
    hide Count, Sum, Times, Scanned;
    var v, k' := order[k], k + 1;
    assert v in order;
    forall u: nat, x: nat | x < |adj| ensures PredOk(adj, order, k', 0, q, u, x) {
      assert PredOk(adj, order, k, |adj[v]|, q, u, x);
      ScannedAll(adj, order, k, u, x);
    }
    forall w: nat | w < |adj| ensures SigmaOk(adj, s, order, k', 0, q, w) {
      assert SigmaOk(adj, s, order, k, |adj[v]|, q, w);
      forall u: nat | u < |adj| ensures Scanned(adj, order, k, |adj[v]|, u, w) == Scanned(adj, order, k + 1, 0, u, w) {
        ScannedAll(adj, order, k, u, w);
      }
      SumCong(|adj|, SigmaTerm(adj, order, k, |adj[v]|, q, w), SigmaTerm(adj, order, k + 1, 0, q, w));
    }
  }

  lemma ScannedAll(adj: Adjacency, order: seq<nat>, k: nat, u: nat, x: nat)
    requires k < |order| && Distinct(order) && forall i :: 0 <= i < |order| ==> order[i] < |adj|
    ensures Scanned(adj, order, k, |adj[order[k]]|, u, x) == Scanned(adj, order, k + 1, 0, u, x)
  {
    var v := order[k];
    assert order[..k + 1] == order[..k] + [v];
    assert adj[v][..|adj[v]|] == adj[v] && v !in order[..k];
    WalkLists.TimesNone(x);
    if k + 1 < |order| {
      assert adj[order[k + 1]][..0] == [];
    }
  }

  lemma InitialSearch(adj: Adjacency, s: nat, q: Search)
    requires WellFormed(adj) && s < |adj| && q.Sized(|adj|)
    requires forall v :: 0 <= v < |adj| ==>
      q.dist[v] == (if v == s then 0 else -1) && q.sigma[v] == (if v == s then 1.0 else 0.0) && q.pred[v] == []
    ensures BfsInv(adj, s, [s], 0, 0, q)
  {
    hide Times, Sum;
    forall u: nat, x: nat ensures Scanned(adj, [s], 0, 0, u, x) == 0 {
      WalkLists.TimesNone(x);
      if s < |adj| {
        assert adj[s][..0] == [];
      }
    }
    forall w | 0 <= w < |adj| ensures Sum(|adj|, SigmaTerm(adj, [s], 0, 0, q, w)) == 0.0 {
      SumZero(|adj|, SigmaTerm(adj, [s], 0, 0, q, w));
    }
    forall u: nat, x: nat | x < |adj| ensures Times(q.pred[x], u) == 0 {
      WalkLists.TimesNone(u);
    }
  }

  // ---- When the queue is empty -------------------------------------------------------------------

  /** Every walk has been followed. */
  lemma {:induction false} AllDiscovered(adj: Adjacency, s: nat, order: seq<nat>, q: Search, l: nat, t: nat)
    requires BfsInv(adj, s, order, |order|, 0, q) && t < |adj| && Count(adj, s, l, t) > 0.0
    ensures 0 <= q.dist[t] <= l
    decreases l
  {
    if l != 0 {
      hide Count, Mult, Sum;
      var u := CountLast(adj, s, l - 1, t);
      AllDiscovered(adj, s, order, q, l - 1, u);
      assert order[..|order|] == order;
      assert PredOk(adj, order, |order|, 0, q, u, t);
      assert Scanned(adj, order, |order|, 0, u, t) == Times(adj[u], t) > 0;
    }
  }

  lemma SearchIsExact(adj: Adjacency, s: nat, order: seq<nat>, q: Search)
    requires BfsInv(adj, s, order, |order|, 0, q)
    ensures DistOk(adj, s, q.dist)
  {
    hide Count, Accounted;
    forall t | 0 <= t < |adj|
      ensures if q.dist[t] >= 0 then IsDist(adj, s, t, q.dist[t]) else q.dist[t] == -1 && Unreachable(adj, s, t)
    {
      forall l: nat | q.dist[t] < 0 || l < q.dist[t] ensures Count(adj, s, l, t) == 0.0 {
        CountNonNegative(adj, s, l, t);
        if Count(adj, s, l, t) > 0.0 {
          AllDiscovered(adj, s, order, q, l, t);
        }
      }
    }
  }

  /** The list of w has one entry for every tight edge into w. */
  ghost predicate ListsPredecessors(adj: Adjacency, q: Search, w: nat)
    requires q.Sized(|adj|) && |q.dist| == |adj| && w < |adj|
  {
    forall v: nat :: Times(q.pred[w], v) == if v < |adj| && Tight(q.dist, v, w) then Times(adj[v], w) else 0
  }

  /** The finished search of s. */
  ghost predicate Finished(adj: Adjacency, s: nat, order: seq<nat>, q: Search) {
    && q.Sized(|adj|) && DistOk(adj, s, q.dist) && Distinct(order)
    && (forall v: nat :: v in order <==> v < |adj| && q.dist[v] >= 0)
    && (forall i, j :: 0 <= i <= j < |order| ==> order[i] < |adj| && order[j] < |adj| && q.dist[order[i]] <= q.dist[order[j]])
    && (forall v: nat :: v < |adj| ==> q.sigma[v] == Sigma(adj, s, q.dist, v))
    && (forall w: nat :: w < |adj| ==> ListsPredecessors(adj, q, w))
  }

  lemma AllScanned(adj: Adjacency, s: nat, order: seq<nat>, q: Search, u: nat, w: nat)
    requires BfsInv(adj, s, order, |order|, 0, q) && u < |adj| && q.dist[u] >= 0
    ensures Scanned(adj, order, |order|, 0, u, w) == Times(adj[u], w)
  {
    assert order[..|order|] == order;
  }

  lemma CountTerm(adj: Adjacency, s: nat, dist: seq<int>, u: nat, t: nat)
    requires DistOk(adj, s, dist) && u < |adj| && t < |adj| && dist[t] > 0 && !Tight(dist, u, t)
    ensures Mult(adj, u, t) * Count(adj, s, dist[t] - 1, u) == 0.0
  {
    hide Count, Mult;
    CountNonNegative(adj, s, dist[t] - 1, u);
    MultPositive(adj, u, t);
    if Mult(adj, u, t) > 0.0 && Count(adj, s, dist[t] - 1, u) > 0.0 {
      DistIsLeast(adj, s, dist, u, dist[t] - 1);
      DistAlongEdge(adj, s, dist, u, t);
    }
  }

  lemma {:induction false} SigmaIsExact(adj: Adjacency, s: nat, order: seq<nat>, q: Search, t: nat)
    requires BfsInv(adj, s, order, |order|, 0, q) && DistOk(adj, s, q.dist) && t < |adj|
    ensures q.sigma[t] == Sigma(adj, s, q.dist, t)
    decreases q.dist[t]
  {
    hide Sum, Times, Scanned, IsDist, PredOk;
    var f := SigmaTerm(adj, order, |order|, 0, q, t);
    assert SigmaOk(adj, s, order, |order|, 0, q, t);
    DistOfSource(adj, s, q.dist);
    if q.dist[t] <= 0 {
      SumZero(|adj|, f);
    } else {
      var d: nat := q.dist[t] - 1;
      forall u: nat | u < |adj| ensures f(u) == Mult(adj, u, t) * Count(adj, s, d, u) {
        if Tight(q.dist, u, t) {
          SigmaIsExact(adj, s, order, q, u);
          AllScanned(adj, s, order, q, u, t);
        } else {
          CountTerm(adj, s, q.dist, u, t);
        }
      }
      CountUnfold(adj, s, d, t, (u: nat) => Mult(adj, u, t) * Count(adj, s, d, u));
      SumCong(|adj|, f, (u: nat) => Mult(adj, u, t) * Count(adj, s, d, u));
    }
  }

  lemma SearchFinishes(adj: Adjacency, s: nat, order: seq<nat>, q: Search)
    requires BfsInv(adj, s, order, |order|, 0, q)
    ensures Finished(adj, s, order, q)
  {
    hide Count, Sum, Times, Scanned, Sigma;
    SearchIsExact(adj, s, order, q);
    forall v: nat | v < |adj| ensures q.sigma[v] == Sigma(adj, s, q.dist, v) {
      SigmaIsExact(adj, s, order, q, v);
    }
    forall w: nat | w < |adj| ensures ListsPredecessors(adj, q, w) {
      forall v: nat ensures Times(q.pred[w], v) == if v < |adj| && Tight(q.dist, v, w) then Times(adj[v], w) else 0 {
        assert PredOk(adj, order, |order|, 0, q, v, w);
        if v < |adj| && Tight(q.dist, v, w) {
          AllScanned(adj, s, order, q, v, w);
        }
      }
    }
  }

  // ---- The loops ---------------------------------------------------------------------------------

  /** Scans the out-edges of v, the node after the expanded ones: new nodes join the queue, tight edges add
      v's path count and a predecessor entry. */
  method Expand(adj: Adjacency, s: nat, ghost stack: seq<nat>, v: nat, queue0: seq<nat>, q0: Search)
    returns (queue: seq<nat>, q: Search)
    requires BfsInv(adj, s, stack + [v] + queue0, |stack|, 0, q0)
    ensures BfsInv(adj, s, stack + [v] + queue, |stack| + 1, 0, q)
  {
    hide BfsInv, Discovered, Accounted;
    queue, q := queue0, q0;
    ghost var k, order := |stack|, stack + [v] + queue;
    assert order[k] == v;
    SearchBounds(adj, s, order, k, 0, q);
    for i := 0 to |adj[v]|
      invariant order == stack + [v] + queue && order[k] == v
      invariant BfsInv(adj, s, order, k, i, q)
    {
      var w := adj[v][i];
      SearchBounds(adj, s, order, k, i, q);
      ScanKeeps(adj, s, order, k, i, q);
      ghost var after := ScanEdge(q, v, w);
      order := OrderAfter(order, q.dist, w);
      if q.dist[w] < 0 {
        q := Search(q.dist[w := q.dist[v] + 1], q.sigma, q.pred);
        queue := queue + [w];
      }
      if q.dist[w] == q.dist[v] + 1 {
        q := Search(q.dist, q.sigma[w := q.sigma[w] + q.sigma[v]], q.pred[w := q.pred[w] + [v]]);
      }
      assert q == after;
    }
    SearchBounds(adj, s, order, k, |adj[v]|, q);
    ExpandedKeeps(adj, s, order, k, q);
  }

  lemma SearchBounds(adj: Adjacency, s: nat, order: seq<nat>, k: nat, i: nat, q: Search)
    requires k < |order| && BfsInv(adj, s, order, k, i, q)
    ensures q.Sized(|adj|) && order[k] < |adj| && forall j :: 0 <= j < |adj[order[k]]| ==> adj[order[k]][j] < |adj|
  {}

  /** The first phase: distances, path counts and predecessors, with the nodes in order of expansion. */
  method BreadthFirst(adj: Adjacency, s: nat) returns (stack: seq<nat>, q: Search)
    requires WellFormed(adj) && s < |adj|
    ensures Finished(adj, s, stack, q)
  {
    hide Count, Accounted, Finished;
    var n := |adj|;
    stack := [];
    q := Search(seq(n, _ => -1), seq(n, _ => 0.0), seq(n, _ => []));
    q := Search(q.dist[s := 0], q.sigma[s := 1.0], q.pred);
    var queue := [s];
    InitialSearch(adj, s, q);
    assert stack + queue == [s];
    while queue != []
      invariant BfsInv(adj, s, stack + queue, |stack|, 0, q)
      decreases n - |stack|
    {
      var v, rest := queue[0], queue[1..];
      assert stack + queue == stack + [v] + rest;
      StackBound(stack + queue, n);
      queue, q := Expand(adj, s, stack, v, rest, q);
      stack := stack + [v];
    }
    assert stack + queue == stack;
    SearchFinishes(adj, s, stack, q);
  }

  lemma {:induction false} StackBound(order: seq<nat>, n: nat)
    requires Distinct(order) && forall i :: 0 <= i < |order| ==> order[i] < n
    ensures |order| <= n
    decreases n
  {
    assert order != [] ==> order[0] < n;
    if n == 0 {
    } else if n - 1 in order {
      var k :| 0 <= k < |order| && order[k] == n - 1;
      StackBound(order[..k] + order[k + 1..], n - 1);
    } else {
      StackBound(order, n - 1);
    }
  }

  // ---- Back-propagation --------------------------------------------------------------------------

  /** The contributions of the out-edges of v that lead to nodes already popped. */
  ghost function PoppedTerms(adj: Adjacency, s: nat, dist: seq<int>, popped: seq<nat>, v: nat): nat -> real
    requires DistOk(adj, s, dist) && v < |adj|
  {
    (w: nat) => if w < |adj| && w in popped then EdgeTerm(adj, s, dist, v, w) else 0.0
  }

  ghost predicate Propagated(adj: Adjacency, s: nat, dist: seq<int>, popped: seq<nat>, delta: seq<real>) {
    && DistOk(adj, s, dist) && |delta| == |adj|
    && forall v: nat :: v < |adj| ==> delta[v] == Sum(|adj|, PoppedTerms(adj, s, dist, popped, v))
  }

  /** When a node is popped, all nodes its tight edges lead to have been popped: its delta is final. */
  lemma PoppedIsFinal(adj: Adjacency, s: nat, order: seq<nat>, q: Search, m: nat, delta: seq<real>)
    requires Finished(adj, s, order, q) && m < |order| && Propagated(adj, s, q.dist, order[m + 1..], delta)
    ensures delta[order[m]] == Dependency(adj, s, q.dist, order[m])
  {
    hide Sum, EdgeTerm, Dependency, DistOk, Sigma;
    var v, f := order[m], PoppedTerms(adj, s, q.dist, order[m + 1..], order[m]);
    assert v in order;
    forall w: nat | w < |adj| ensures f(w) == EdgeTerm(adj, s, q.dist, v, w) {
      if Tight(q.dist, v, w) {
        assert w in order;
        var j :| 0 <= j < |order| && order[j] == w;
        assert j > m;
        assert order[m + 1..][j - m - 1] == w;
      } else {
        LooseEdge(adj, s, q.dist, v, w);
      }
    }
    DependencyRecursion(adj, s, q.dist, v, f);
  }

  lemma LooseEdge(adj: Adjacency, s: nat, dist: seq<int>, v: nat, w: nat)
    requires DistOk(adj, s, dist) && v < |adj| && w < |adj| && !Tight(dist, v, w)
    ensures EdgeTerm(adj, s, dist, v, w) == 0.0
  {}

  /** Hands the dependency of w on to its predecessors, one list entry at a time. */
  method HandOn(adj: Adjacency, s: nat, q: Search, w: nat, delta0: seq<real>, ghost popped: seq<nat>)
    returns (delta: seq<real>)
    requires q.Sized(|adj|) && w < |adj| && w !in popped && Propagated(adj, s, q.dist, popped, delta0)
    requires delta0[w] == Dependency(adj, s, q.dist, w) && q.dist[w] >= 0
    requires forall v: nat :: v < |adj| ==> q.sigma[v] == Sigma(adj, s, q.dist, v)
    requires ListsPredecessors(adj, q, w)
    ensures |delta| == |adj| && Propagated(adj, s, q.dist, [w] + popped, delta)
  {
    hide Sum, Sigma, Dependency, Times, Contribution, DistOk;
    delta := delta0;
    SigmaPositive(adj, s, q.dist, w);
    ghost var c: nat -> real := (v: nat) => if v < |adj| then Contribution(q.sigma[v], q.sigma[w], delta0[w]) else 0.0;
    var preds := q.pred[w];
    forall v: nat ensures Times(preds[..0], v) == 0 {
      assert preds[..0] == [];
      WalkLists.TimesNone(v);
    }
    forall v: nat | v in preds ensures v < |adj| && v != w {
      PredecessorCounts(preds, v);
    }
    for i := 0 to |preds|
      invariant |delta| == |adj|
      invariant forall v: nat :: v < |adj| ==> delta[v] == delta0[v] + Times(preds[..i], v) as real * c(v)
      invariant delta[w] == delta0[w]
    {
      var v := preds[i];
      assert preds[..i + 1] == preds[..i] + [v];
      forall u: nat ensures Times(preds[..i + 1], u) == Times(preds[..i], u) + if u == v then 1 else 0 {
        WalkLists.TimesAppend(preds[..i], v, u);
      }
      WalkLists.Distribute(Times(preds[..i], v), c(v));
      assert v in preds;
      ContributionFormula(q.sigma[v], q.sigma[w], delta[w]);
      delta := delta[v := delta[v] + q.sigma[v] / q.sigma[w] * (1.0 + delta[w])];
    }
    assert preds[..|preds|] == preds;
    forall v: nat | v < |adj| ensures delta[v] == Sum(|adj|, PoppedTerms(adj, s, q.dist, [w] + popped, v)) {
      AddPopped(adj, s, q.dist, popped, w, v);
    }
  }

  lemma ContributionFormula(x: real, y: real, z: real)
    requires y != 0.0
    ensures Contribution(x, y, z) == x / y * (1.0 + z)
  {}

  lemma PredecessorCounts(preds: seq<nat>, v: nat)
    requires v in preds
    ensures Times(preds, v) > 0
  {}

  lemma AddPopped(adj: Adjacency, s: nat, dist: seq<int>, popped: seq<nat>, w: nat, v: nat)
    requires DistOk(adj, s, dist) && v < |adj| && w < |adj| && w !in popped
    ensures Sum(|adj|, PoppedTerms(adj, s, dist, [w] + popped, v))
         == Sum(|adj|, PoppedTerms(adj, s, dist, popped, v)) + EdgeTerm(adj, s, dist, v, w)
  {
    hide EdgeTerm, Sum, DistOk;
    SumChange(|adj|, PoppedTerms(adj, s, dist, popped, v), w, EdgeTerm(adj, s, dist, v, w),
              PoppedTerms(adj, s, dist, [w] + popped, v));
  }

  /** The dependencies of the popped nodes have been added to the result, except for the source itself. */
  ghost predicate Added(adj: Adjacency, s: nat, dist: seq<int>, popped: seq<nat>, out0: seq<real>, out: seq<real>) {
    && DistOk(adj, s, dist) && |out0| == |out| == |adj|
    && forall v: nat :: v < |adj| ==>
         out[v] == out0[v] + if v in popped && v != s then Dependency(adj, s, dist, v) else 0.0
  }

  /** The second phase: pops the nodes in reverse order, passes each dependency on, and adds it to the
      result except for the source itself. */
  method BackPropagate(adj: Adjacency, s: nat, order: seq<nat>, q: Search, out0: seq<real>) returns (out: seq<real>)
    requires Finished(adj, s, order, q) && |out0| == |adj|
    ensures |out| == |adj|
    ensures WellFormed(adj) && forall v: nat :: v < |adj| ==> out[v] == out0[v] + SourceTerm(adj, v)(s)
  {
    hide Finished, Propagated, Added, SourceTerm, DistOk, Sigma, Dependency, ListsPredecessors;
    var stack, delta := order, seq(|adj|, _ => 0.0);
    out := out0;
    FinishedFacts(adj, s, order, q);
    NothingPropagated(adj, s, q.dist, delta, out0);
    assert order[|order|..] == [];
    while stack != []
      invariant |stack| <= |order| && stack == order[..|stack|]
      invariant |out| == |delta| == |adj|
      invariant Propagated(adj, s, q.dist, order[|stack|..], delta)
      invariant Added(adj, s, q.dist, order[|stack|..], out0, out)
    {
      ghost var m := |stack| - 1;
      var w := stack[|stack| - 1];
      assert w in order && order[m] == w && order[m..] == [w] + order[m + 1..];
      stack := stack[..|stack| - 1];
      PoppedIsFinal(adj, s, order, q, m, delta);
      NotPoppedYet(adj, s, order, q, m);
      AddedStep(adj, s, q.dist, order[m + 1..], w, out0, out, delta);
      var delta' := HandOn(adj, s, q, w, delta, order[m + 1..]);
      if w != s {
        out := out[w := out[w] + delta[w]];
      }
      delta := delta';
    }
    assert order[0..] == order;
    AllAdded(adj, s, order, q, out0, out);
  }

  lemma FinishedFacts(adj: Adjacency, s: nat, order: seq<nat>, q: Search)
    requires Finished(adj, s, order, q)
    ensures q.Sized(|adj|) && DistOk(adj, s, q.dist) && WellFormed(adj)
    ensures forall v: nat :: v in order <==> v < |adj| && q.dist[v] >= 0
    ensures forall v: nat :: v < |adj| ==> q.sigma[v] == Sigma(adj, s, q.dist, v)
    ensures forall w: nat :: w < |adj| ==> ListsPredecessors(adj, q, w)
  {}

  lemma AddedStep(adj: Adjacency, s: nat, dist: seq<int>, popped: seq<nat>, w: nat, out0: seq<real>, out: seq<real>, delta: seq<real>)
    requires Added(adj, s, dist, popped, out0, out) && Propagated(adj, s, dist, popped, delta)
    requires w < |adj| && w !in popped && delta[w] == Dependency(adj, s, dist, w)
    ensures |out| == |adj| && |delta| == |adj|
    ensures Added(adj, s, dist, [w] + popped, out0, if w != s then out[w := out[w] + delta[w]] else out)
  {
    hide DistOk, Dependency;
  }

  lemma AllAdded(adj: Adjacency, s: nat, order: seq<nat>, q: Search, out0: seq<real>, out: seq<real>)
    requires Finished(adj, s, order, q) && Added(adj, s, q.dist, order, out0, out)
    ensures |out| == |adj| == |out0|
    ensures WellFormed(adj) && forall v: nat :: v < |adj| ==> out[v] == out0[v] + SourceTerm(adj, v)(s)
  {
    hide SourceTerm, Dependency;
    forall v: nat | v < |adj| ensures out[v] == out0[v] + SourceTerm(adj, v)(s) {
      if v == s {
        SourceTermOfSource(adj, s);
      } else {
        DependencyMeaning(adj, s, q.dist, v);
      }
    }
  }

  lemma NothingPropagated(adj: Adjacency, s: nat, dist: seq<int>, delta: seq<real>, out0: seq<real>)
    requires DistOk(adj, s, dist) && |delta| == |adj| == |out0| && forall v :: 0 <= v < |delta| ==> delta[v] == 0.0
    ensures Propagated(adj, s, dist, [], delta) && Added(adj, s, dist, [], out0, out0)
  {
    forall v: nat | v < |adj| ensures Sum(|adj|, PoppedTerms(adj, s, dist, [], v)) == 0.0 {
      SumZero(|adj|, PoppedTerms(adj, s, dist, [], v));
    }
  }

  lemma SourceTermOfSource(adj: Adjacency, s: nat)
    requires WellFormed(adj)
    ensures SourceTerm(adj, s)(s) == 0.0
  {}

  lemma NotPoppedYet(adj: Adjacency, s: nat, order: seq<nat>, q: Search, m: nat)
    requires Finished(adj, s, order, q) && m < |order|
    ensures order[m] !in order[m + 1..]
  {}

  // ---- The whole computation ---------------------------------------------------------------------

  /** The targets of the edges out of u between nodes below n, in insertion order. */
  function Targets(n: nat, edges: seq<(nat, nat)>, u: nat): (ts: seq<nat>)
    ensures forall i :: 0 <= i < |ts| ==> ts[i] < n
  {
    if edges == [] then []
    else
      var e := edges[|edges| - 1];
      Targets(n, edges[..|edges| - 1], u) + if e.0 < n && e.1 < n && e.0 == u then [e.1] else []
  }

  /** The adjacency lists of a graph; edges with a missing endpoint are dropped. */
  function AdjacencyOf(n: nat, edges: seq<(nat, nat)>): (adj: Adjacency)
    ensures |adj| == n && forall u :: 0 <= u < n ==> adj[u] == Targets(n, edges, u)
    ensures WellFormed(adj)
  {
    seq(n, u requires 0 <= u < n => Targets(n, edges, u))
  }

  /** The positions in the edge list of the edges from u to v. */
  ghost function Places(edges: seq<(nat, nat)>, u: nat, v: nat): set<nat> {
    set i: nat | i < |edges| && edges[i] == (u, v)
  }

  lemma PlacesStep(edges: seq<(nat, nat)>, e: (nat, nat), u: nat, v: nat)
    ensures |Places(edges + [e], u, v)| == |Places(edges, u, v)| + if e == (u, v) then 1 else 0
  {
    var all := edges + [e];
    if e == (u, v) {
      assert Places(all, u, v) == Places(edges, u, v) + {|edges|};
    } else {
      assert Places(all, u, v) == Places(edges, u, v);
    }
  }

  lemma {:induction false} TargetsCount(n: nat, edges: seq<(nat, nat)>, u: nat, v: nat)
    requires u < n && v < n
    ensures Times(Targets(n, edges, u), v) == |Places(edges, u, v)|
  {
    if edges == [] {
      assert Places(edges, u, v) == {};
    } else {
      hide Places;
      var rest, e := edges[..|edges| - 1], edges[|edges| - 1];
      assert edges == rest + [e];
      TargetsCount(n, rest, u, v);
      PlacesStep(rest, e, u, v);
    }
  }

  /** Every edge between nodes is an edge of the multigraph, parallel ones apart. */
  lemma TargetsAreEdges(n: nat, edges: seq<(nat, nat)>, u: nat, v: nat)
    requires u < n && v < n
    ensures Mult(AdjacencyOf(n, edges), u, v) == |Places(edges, u, v)| as real
  {
    hide Places, Targets, Times;
    TargetsCount(n, edges, u, v);
  }

  method BuildAdjacency(n: nat, edges: seq<(nat, nat)>) returns (adj: Adjacency)
    ensures adj == AdjacencyOf(n, edges)
  {
    adj := seq(n, _ => []);
    for i := 0 to |edges|
      invariant |adj| == n && forall u :: 0 <= u < n ==> adj[u] == Targets(n, edges[..i], u)
    {
      var (u, v) := edges[i];
      assert edges[..i + 1][..i] == edges[..i];
      if u < n && v < n {
        adj := adj[u := adj[u] + [v]];
      }
    }
    assert edges[..|edges|] == edges;
  }

  /** Betweenness centrality of every node. */
  method ComputeBetweenness(n: nat, edges: seq<(nat, nat)>) returns (out: seq<real>)
    ensures |out| == n
    ensures forall v: nat :: v < n ==> out[v] == Betweenness(AdjacencyOf(n, edges), v)
  {
    hide SourceTerm, Finished;
    var adj := BuildAdjacency(n, edges);
    out := seq(n, _ => 0.0);
    for s := 0 to n
      invariant |out| == n
      invariant forall v: nat :: v < n ==> out[v] == Sum(s, SourceTerm(adj, v))
    {
      var stack, q := BreadthFirst(adj, s);
      out := BackPropagate(adj, s, stack, q, out);
    }
  }
}
