/** Community detection, the Louvain local-moving phase (ts/src/graph-analytics.ts). Nodes are numbered in id order;
    the order in which the store lists them, and so the order of visits, is a parameter. */
module Louvain {
  import opened Basics
  import opened Graphs
  import opened Sums
  import opened Communities

  // ---- Potential: no labelling recurs --------------------------------------------------------------

  function LabelSum(c: seq<nat>): nat {
    if c == [] then 0 else LabelSum(c[..|c| - 1]) + c[|c| - 1]
  }

  lemma {:induction false} LabelSumUpdate(c: seq<nat>, x: nat, b: nat)
    requires x < |c|
    ensures LabelSum(c[x := b]) == LabelSum(c) - c[x] + b
  {
    var init := c[..|c| - 1];
    if x == |c| - 1 {
      assert c[x := b][..|c| - 1] == init;
    } else {
      LabelSumUpdate(init, x, b);
      assert c[x := b][..|c| - 1] == init[x := b];
    }
  }

  /** Higher modularity, or the same with lower labels. */
  ghost predicate Better(g: Graph, c: seq<nat>, c': seq<nat>) {
    Modularity(g, c') > Modularity(g, c) || (Modularity(g, c') == Modularity(g, c) && LabelSum(c') < LabelSum(c))
  }

  /** The labels x may take: its own and its neighbours'. */
  ghost predicate Candidate(g: Graph, c: seq<nat>, x: nat, l: nat) {
    x < |c| && (l == c[x] || exists j: nat :: j < |c| && W(g, x, j) > 0.0 && c[j] == l)
  }

  /** Greatest gain, and the smallest label among those. */
  ghost predicate IsBest(g: Graph, c: seq<nat>, x: nat, b: nat) {
    Candidate(g, c, x, b) && forall l: nat :: Candidate(g, c, x, l) ==> Preferred(g, c, x, b, l)
  }

  ghost predicate Preferred(g: Graph, c: seq<nat>, x: nat, b: nat, l: nat) {
    Gain(g, c, x, l) < Gain(g, c, x, b) || (Gain(g, c, x, l) == Gain(g, c, x, b) && b <= l)
  }

  /** A visit leaves the labelling alone or makes it better. */
  lemma VisitImproves(g: Graph, c: seq<nat>, x: nat, b: nat)
    requires IsLabelling(g, c) && x < g.n && M2(g) > 0.0 && IsBest(g, c, x, b)
    ensures IsLabelling(g, c[x := b])
    ensures b == c[x] ==> c[x := b] == c
    ensures b != c[x] ==> Better(g, c, c[x := b])
  {
    hide Gain, Modularity, M2, LabelSum;
    assert Candidate(g, c, x, c[x]);
    assert Preferred(g, c, x, b, c[x]);
    MoveChangesModularity(g, c, x, b);
    ScaledSign(2.0 / M2(g), Gain(g, c, x, b) - Gain(g, c, x, c[x]));
    LabelSumUpdate(c, x, b);
  }

  lemma ScaledSign(r: real, d: real)
    requires r > 0.0 && d >= 0.0
    ensures r * d >= 0.0 && (d > 0.0 ==> r * d > 0.0)
  {}

  /** One node visit, of any node. */
  ghost predicate Visited(g: Graph, c: seq<nat>, c': seq<nat>) {
    exists x: nat, b: nat :: x < g.n && IsBest(g, c, x, b) && c' == c[x := b]
  }

  ghost predicate IsRun(g: Graph, run: seq<seq<nat>>) {
    && (forall k :: 0 <= k < |run| ==> IsLabelling(g, run[k]))
    && forall k :: 0 <= k < |run| - 1 ==> Visited(g, run[k], run[k + 1])
  }

  lemma {:induction false} RunImproves(g: Graph, run: seq<seq<nat>>, i: nat, j: nat)
    requires M2(g) > 0.0 && IsRun(g, run) && i <= j < |run|
    ensures run[j] == run[i] || Better(g, run[i], run[j])
    ensures forall k :: i <= k <= j && run[i] == run[j] ==> run[k] == run[i]
    decreases j - i
  {
    hide Modularity, M2, LabelSum, IsBest;
    if i < j {
      RunImproves(g, run, i, j - 1);
      var k := j - 1;
      assert Visited(g, run[k], run[k + 1]);
      var x: nat, b: nat :| x < g.n && IsBest(g, run[k], x, b) && run[j] == run[k][x := b];
      VisitImproves(g, run[k], x, b);
    }
  }

  /** Along any run of visits, in any order of nodes, a labelling that has been left never comes back. */
  lemma NoLabellingRecurs(g: Graph, run: seq<seq<nat>>, i: nat, k: nat, j: nat)
    requires M2(g) > 0.0 && IsRun(g, run) && i <= k <= j < |run| && run[i] == run[j]
    ensures run[k] == run[i]
  {
    RunImproves(g, run, i, j);
  }

  // ---- All labellings: how many passes can move ----------------------------------------------------

  ghost function Labellings(n: nat, length: nat): set<seq<nat>> {
    if length == 0 then {[]}
    else set c, l: nat | c in Labellings(n, length - 1) && l < n :: c + [l]
  }

  lemma {:induction false} AllListed(n: nat, c: seq<nat>)
    requires forall i :: 0 <= i < |c| ==> c[i] < n
    ensures c in Labellings(n, |c|)
    decreases |c|
  {
    if c != [] {
      var init, l := c[..|c| - 1], c[|c| - 1];
      AllListed(n, init);
      assert c == init + [l];
    }
  }

  // ---- Building the weights -----------------------------------------------------------------------

  type Weighted = seq<map<nat, real>>

  function Get(m: map<nat, real>, k: nat): real { if k in m then m[k] else 0.0 }

  /** adj[i] lists exactly the nodes joined to i, with their weights. */
  ghost predicate IsWeighting(g: Graph, adj: Weighted) {
    |adj| == g.n && forall i: nat, j: nat :: i < g.n ==> HasWeight(g, adj[i], i, j)
  }

  ghost predicate HasWeight(g: Graph, row: map<nat, real>, i: nat, j: nat) {
    (j in row <==> W(g, i, j) > 0.0) && Get(row, j) == W(g, i, j)
  }

  function Heavier(row: map<nat, real>, b: nat): map<nat, real> { row[b := Get(row, b) + 1.0] }

  function Bump(adj: Weighted, a: nat, b: nat): Weighted
    requires a < |adj|
  {
    if a == b then adj else adj[a := Heavier(adj[a], b)]
  }

  lemma BumpsKeep(g: Graph, g': Graph, adj: Weighted, e: (nat, nat))
    requires IsWeighting(g, adj) && g'.n == g.n && g'.edges == g.edges + [e]
    ensures ValidEdge(g.n, e) ==> IsWeighting(g', Bump(Bump(adj, e.0, e.1), e.1, e.0))
    ensures !ValidEdge(g.n, e) ==> IsWeighting(g', adj)
  {
    assert g'.edges[..|g'.edges| - 1] == g.edges;
    forall i: nat, j: nat | i < g.n ensures W(g', i, j) == W(g, i, j) + if Joins(g.n, e, i, j) then 1.0 else 0.0 {}
    hide W;
    forall i: nat, j: nat | i < g.n && !ValidEdge(g.n, e) ensures HasWeight(g', adj[i], i, j) {
      assert HasWeight(g, adj[i], i, j);
    }
    if ValidEdge(g.n, e) {
      var adj' := Bump(Bump(adj, e.0, e.1), e.1, e.0);
      forall i: nat, j: nat | i < g.n ensures HasWeight(g', adj'[i], i, j) {
        assert HasWeight(g, adj[i], i, j);
      }
    }
  }

  lemma NoWeights(n: nat, adj: Weighted)
    requires |adj| == n && forall i :: 0 <= i < n ==> adj[i] == map[]
    ensures IsWeighting(Graph(n, []), adj)
  {
    forall i: nat, j: nat | i < n ensures HasWeight(Graph(n, []), adj[i], i, j) {}
  }

  method BuildWeights(g: Graph) returns (adj: Weighted)
    ensures IsWeighting(g, adj)
  {
    hide IsWeighting, Bump;
    adj := seq(g.n, _ => map[]);
    NoWeights(g.n, adj);
    assert g.edges[..0] == [];
    for i := 0 to |g.edges|
      invariant |adj| == g.n && IsWeighting(Graph(g.n, g.edges[..i]), adj)
    {
      var (a, b) := g.edges[i];
      assert g.edges[..i + 1] == g.edges[..i] + [(a, b)];
      BumpsKeep(Graph(g.n, g.edges[..i]), Graph(g.n, g.edges[..i + 1]), adj, g.edges[i]);
      if a < g.n && b < g.n {
        BumpSize(adj, a, b);
        BumpSize(Bump(adj, a, b), b, a);
        adj := Bump(Bump(adj, a, b), b, a);
      }
    }
    assert g.edges[..|g.edges|] == g.edges;
  }

  lemma BumpSize(adj: Weighted, a: nat, b: nat)
    requires a < |adj|
    ensures |Bump(adj, a, b)| == |adj|
  {}

  // ---- Degrees and totals -------------------------------------------------------------------------

  ghost function WeightsOutside(g: Graph, i: nat, rest: set<nat>): nat -> real {
    (j: nat) => if j in rest then 0.0 else W(g, i, j)
  }

  method SumWeights(ghost g: Graph, ghost i: nat, row: map<nat, real>) returns (k: real)
    requires forall j: nat :: HasWeight(g, row, i, j)
    ensures k == K(g, i)
  {
    hide W;
    k := 0.0;
    var rest := row.Keys;
    assert forall j: nat :: HasWeight(g, row, i, j) && W(g, i, j) >= 0.0;
    SumZero(g.n, WeightsOutside(g, i, rest));
    while rest != {}
      invariant rest <= row.Keys && k == Sum(g.n, WeightsOutside(g, i, rest))
    {
      var j: nat :| j in rest;
      assert HasWeight(g, row, i, j);
      WRange(g, i, j);
      SumChange(g.n, WeightsOutside(g, i, rest), j, W(g, i, j), WeightsOutside(g, i, rest - {j}));
      k := k + row[j];
      rest := rest - {j};
    }
    SumCong(g.n, WeightsOutside(g, i, rest), Weights(g, i));
  }

  /** sumTot[l] is the total degree of the nodes labelled l, for every label. */
  ghost predicate TotalsOk(g: Graph, c: seq<nat>, sumTot: seq<real>) {
    |sumTot| == g.n && forall l: nat :: l < g.n ==> sumTot[l] == TotalDegree(g, c, l)
  }

  ghost predicate DegreesOk(g: Graph, k: seq<real>) { |k| == g.n && forall i: nat :: i < g.n ==> k[i] == K(g, i) }

  ghost predicate IsIdentity(g: Graph, c: seq<nat>) { |c| == g.n && forall i :: 0 <= i < g.n ==> c[i] == i }

  lemma AloneTotals(g: Graph, c: seq<nat>, k: seq<real>)
    requires IsIdentity(g, c) && DegreesOk(g, k)
    ensures IsLabelling(g, c) && TotalsOk(g, c, k)
  {
    hide K;
    forall l: nat | l < g.n ensures k[l] == TotalDegree(g, c, l) {
      SumPoint(g.n, MemberDegrees(g, c, l), l);
    }
  }

  method SumDegrees(ghost g: Graph, k: seq<real>) returns (m2: real)
    requires DegreesOk(g, k)
    ensures m2 == M2(g)
  {
    m2 := 0.0;
    for i := 0 to |k|
      invariant m2 == Sum(i, Degrees(g))
    {
      m2 := m2 + k[i];
    }
  }

  // ---- One visit ----------------------------------------------------------------------------------

  ghost function IntoOutside(g: Graph, c: seq<nat>, x: nat, rest: set<nat>, l: nat): nat -> real {
    (j: nat) => if j < |c| && c[j] == l && j !in rest then W(g, x, j) else 0.0
  }

  /** The weights into each community from the neighbours already counted. */
  ghost predicate CountedInto(g: Graph, c: seq<nat>, x: nat, keys: set<nat>, rest: set<nat>, kIn: map<nat, real>) {
    && (forall l: nat :: l in kIn <==> SeenLabel(c, keys, rest, l))
    && forall l: nat :: Get(kIn, l) == Sum(g.n, IntoOutside(g, c, x, rest, l))
  }

  ghost predicate SeenLabel(c: seq<nat>, keys: set<nat>, rest: set<nat>, l: nat) {
    exists j: nat :: j in keys && j !in rest && j < |c| && c[j] == l
  }

  lemma SeenOneMore(c: seq<nat>, keys: set<nat>, rest: set<nat>, j: nat, l: nat)
    requires j in rest && rest <= keys && j < |c|
    ensures SeenLabel(c, keys, rest - {j}, l) <==> SeenLabel(c, keys, rest, l) || l == c[j]
  {
    if SeenLabel(c, keys, rest, l) {
      var i: nat :| i in keys && i !in rest && i < |c| && c[i] == l;
      assert i !in rest - {j};
    }
    if l == c[j] {
      assert j in keys && j !in rest - {j};
    }
  }

  lemma CountOne(g: Graph, c: seq<nat>, x: nat, keys: set<nat>, rest: set<nat>, kIn: map<nat, real>, j: nat)
    requires CountedInto(g, c, x, keys, rest, kIn) && j in rest && rest <= keys && j < g.n && |c| == g.n
    ensures CountedInto(g, c, x, keys, rest - {j}, kIn[c[j] := Get(kIn, c[j]) + W(g, x, j)])
  {
    hide W, SeenLabel;
    var kIn' := kIn[c[j] := Get(kIn, c[j]) + W(g, x, j)];
    var rest' := rest - {j};
    forall l: nat ensures Get(kIn', l) == Sum(g.n, IntoOutside(g, c, x, rest', l)) {
      SumChange(g.n, IntoOutside(g, c, x, rest, l), j, if c[j] == l then W(g, x, j) else 0.0, IntoOutside(g, c, x, rest', l));
    }
    forall l: nat ensures l in kIn' <==> SeenLabel(c, keys, rest', l) {
      SeenOneMore(c, keys, rest, j, l);
    }
  }

  /** kIn has an entry for each neighbouring community: the weight from x into it. */
  ghost predicate IsInto(g: Graph, c: seq<nat>, x: nat, kIn: map<nat, real>) {
    && (forall l: nat :: Candidate(g, c, x, l) <==> l in kIn || (x < |c| && l == c[x]))
    && forall l: nat :: Get(kIn, l) == Sum(g.n, Into(g, c, x, l))
  }

  method WeightsInto(ghost g: Graph, c: seq<nat>, ghost x: nat, row: map<nat, real>) returns (kIn: map<nat, real>)
    requires IsLabelling(g, c) && x < g.n && forall j: nat :: HasWeight(g, row, x, j)
    ensures IsInto(g, c, x, kIn)
  {
    hide W, CountedInto;
    kIn := map[];
    var rest := row.Keys;
    StartCounting(g, c, x, row);
    while rest != {}
      invariant rest <= row.Keys && CountedInto(g, c, x, row.Keys, rest, kIn)
    {
      var j: nat :| j in rest;
      assert HasWeight(g, row, x, j);
      WRange(g, x, j);
      CountOne(g, c, x, row.Keys, rest, kIn, j);
      kIn := kIn[c[j] := Get(kIn, c[j]) + row[j]];
      rest := rest - {j};
    }
    AllCounted(g, c, x, row, kIn);
  }

  lemma StartCounting(g: Graph, c: seq<nat>, x: nat, row: map<nat, real>)
    requires forall j: nat :: HasWeight(g, row, x, j)
    ensures CountedInto(g, c, x, row.Keys, row.Keys, map[])
  {
    hide W;
    forall l: nat ensures Sum(g.n, IntoOutside(g, c, x, row.Keys, l)) == 0.0 {
      forall j: nat | j < g.n ensures IntoOutside(g, c, x, row.Keys, l)(j) == 0.0 {
        assert HasWeight(g, row, x, j) && W(g, x, j) >= 0.0;
      }
      SumZero(g.n, IntoOutside(g, c, x, row.Keys, l));
    }
  }

  lemma AllCounted(g: Graph, c: seq<nat>, x: nat, row: map<nat, real>, kIn: map<nat, real>)
    requires x < |c| && forall j: nat :: HasWeight(g, row, x, j)
    requires CountedInto(g, c, x, row.Keys, {}, kIn)
    ensures IsInto(g, c, x, kIn)
  {
    hide W;
    forall l: nat ensures Get(kIn, l) == Sum(g.n, Into(g, c, x, l)) {
      SumCong(g.n, IntoOutside(g, c, x, {}, l), Into(g, c, x, l));
    }
    forall l: nat ensures Candidate(g, c, x, l) <==> l in kIn || l == c[x] {
      if l in kIn {
        var j: nat :| j in row.Keys && j !in {} && j < |c| && c[j] == l;
        assert HasWeight(g, row, x, j);
      }
      if Candidate(g, c, x, l) && l != c[x] {
        var j: nat :| j < |c| && W(g, x, j) > 0.0 && c[j] == l;
        assert HasWeight(g, row, x, j);
        assert j in row.Keys && j !in {};
      }
    }
  }

  /** With x taken out: each entry is the total degree of the other nodes with that label. */
  ghost predicate TotalsWithout(g: Graph, c: seq<nat>, x: nat, sumTot: seq<real>) {
    |sumTot| == g.n && forall l: nat :: l < g.n ==> sumTot[l] == Sum(g.n, OtherDegrees(g, c, x, l))
  }

  lemma TakeOut(g: Graph, c: seq<nat>, x: nat, sumTot: seq<real>)
    requires IsLabelling(g, c) && x < g.n && TotalsOk(g, c, sumTot)
    ensures TotalsWithout(g, c, x, sumTot[c[x] := sumTot[c[x]] - K(g, x)])
  {
    hide K, TotalDegree;
    var taken := sumTot[c[x] := sumTot[c[x]] - K(g, x)];
    forall l: nat | l < g.n ensures taken[l] == Sum(g.n, OtherDegrees(g, c, x, l)) {
      TotalsAfterMove(g, c, x, c[x], l);
    }
  }

  lemma PutBack(g: Graph, c: seq<nat>, x: nat, b: nat, sumTot: seq<real>)
    requires IsLabelling(g, c) && x < g.n && b < g.n && TotalsWithout(g, c, x, sumTot)
    ensures TotalsOk(g, c[x := b], sumTot[b := sumTot[b] + K(g, x)])
  {
    hide K, TotalDegree;
    var put := sumTot[b := sumTot[b] + K(g, x)];
    forall l: nat | l < g.n ensures put[l] == TotalDegree(g, c[x := b], l) {
      TotalsAfterMove(g, c, x, b, l);
    }
  }

  /** The scan over the neighbouring communities, in any order. */
  method BestLabel(ghost g: Graph, c: seq<nat>, x: nat, kIn: map<nat, real>, sumTot: seq<real>, kx: real, m2: real) returns (best: nat)
    requires IsLabelling(g, c) && x < g.n && IsInto(g, c, x, kIn) && TotalsWithout(g, c, x, sumTot)
    requires kx == K(g, x) && m2 == M2(g) && m2 > 0.0
    ensures IsBest(g, c, x, best)
  {
    hide Gain, K, M2, Candidate, W, Sum;
    CandidateInRange(g, c, x);
    best := c[x];
    GainByTotals(g, c, x, best);
    var bestGain := Get(kIn, best) - sumTot[best] * kx / m2;
    var rest := kIn.Keys;
    while rest != {}
      invariant rest <= kIn.Keys
      invariant Candidate(g, c, x, best) && bestGain == Gain(g, c, x, best)
      invariant forall l: nat :: Candidate(g, c, x, l) && l !in rest ==> Preferred(g, c, x, best, l)
    {
      var l: nat :| l in rest;
      assert Candidate(g, c, x, l);
      GainByTotals(g, c, x, l);
      var gain := kIn[l] - sumTot[l] * kx / m2;
      if gain > bestGain || (gain == bestGain && l < best) {
        best, bestGain := l, gain;
      }
      rest := rest - {l};
    }
  }

  lemma CandidateInRange(g: Graph, c: seq<nat>, x: nat)
    requires IsLabelling(g, c)
    ensures forall l: nat :: Candidate(g, c, x, l) ==> l < g.n
  {}

  method Visit(ghost g: Graph, adj: Weighted, k: seq<real>, m2: real, c: seq<nat>, sumTot: seq<real>, x: nat)
    returns (c': seq<nat>, sumTot': seq<real>, moved: bool)
    requires IsWeighting(g, adj) && DegreesOk(g, k) && m2 == M2(g) && m2 > 0.0
    requires IsLabelling(g, c) && TotalsOk(g, c, sumTot) && x < g.n
    ensures IsLabelling(g, c') && TotalsOk(g, c', sumTot')
    ensures exists b: nat :: IsBest(g, c, x, b) && c' == c[x := b] && (moved <==> b != c[x])
    ensures moved ==> Better(g, c, c')
    ensures !moved ==> c' == c && IsBest(g, c, x, c[x])
  {
    hide TotalsOk, TotalsWithout, IsBest, IsInto, K, M2, Better, HasWeight;
    assert forall j: nat :: HasWeight(g, adj[x], x, j);
    TotalsSize(g, c, sumTot);
    TakeOut(g, c, x, sumTot);
    var without := sumTot[c[x] := sumTot[c[x]] - k[x]];
    var kIn := WeightsInto(g, c, x, adj[x]);
    var best := BestLabel(g, c, x, kIn, without, k[x], m2);
    BestInRange(g, c, x, best);
    VisitImproves(g, c, x, best);
    PutBack(g, c, x, best, without);
    c' := c[x := best];
    sumTot' := without[best := without[best] + k[x]];
    moved := best != c[x];
  }

  lemma TotalsSize(g: Graph, c: seq<nat>, sumTot: seq<real>)
    requires TotalsOk(g, c, sumTot)
    ensures |sumTot| == g.n
  {}

  lemma BestInRange(g: Graph, c: seq<nat>, x: nat, b: nat)
    requires IsLabelling(g, c) && IsBest(g, c, x, b)
    ensures b < g.n
  {}

  // ---- What passes do -------------------------------------------------------------------------------

  /** A visit of x gives it its best label. */
  ghost predicate VisitedAt(g: Graph, c: seq<nat>, c': seq<nat>, x: nat) {
    x < |c| && exists b: nat :: IsBest(g, c, x, b) && c' == c[x := b]
  }

  /** The visits of the given nodes, one after the other, lead from c to c'. */
  ghost predicate Swept(g: Graph, nodes: seq<nat>, c: seq<nat>, c': seq<nat>)
    decreases |nodes|
  {
    if nodes == [] then c == c'
    else
      var before, last := nodes[..|nodes| - 1], nodes[|nodes| - 1];
      exists mid :: Swept(g, before, c, mid) && VisitedAt(g, mid, c', last)
  }

  lemma VisitOnce(g: Graph, c: seq<nat>, c': seq<nat>, c'': seq<nat>, x: nat)
    requires VisitedAt(g, c, c', x) && VisitedAt(g, c, c'', x)
    ensures c' == c''
  {
    hide Gain, Candidate;
    var b: nat :| IsBest(g, c, x, b) && c' == c[x := b];
    var b': nat :| IsBest(g, c, x, b') && c'' == c[x := b'];
    assert Preferred(g, c, x, b, b') && Preferred(g, c, x, b', b);
  }

  /** The order of the visits and the labels before determine the labels after. */
  lemma {:induction false} SweepOnce(g: Graph, nodes: seq<nat>, c: seq<nat>, c': seq<nat>, c'': seq<nat>)
    requires Swept(g, nodes, c, c') && Swept(g, nodes, c, c'')
    ensures c' == c''
    decreases |nodes|
  {
    if nodes != [] {
      hide VisitedAt;
      var before, last := nodes[..|nodes| - 1], nodes[|nodes| - 1];
      var mid :| Swept(g, before, c, mid) && VisitedAt(g, mid, c', last);
      var mid' :| Swept(g, before, c, mid') && VisitedAt(g, mid', c'', last);
      SweepOnce(g, before, c, mid, mid');
      VisitOnce(g, mid, c', c'', last);
    }
  }

  /** The first of the nodes is visited first. */
  lemma {:induction false} SweepFirst(g: Graph, nodes: seq<nat>, c: seq<nat>, c': seq<nat>) returns (mid: seq<nat>)
    requires nodes != [] && Swept(g, nodes, c, c')
    ensures VisitedAt(g, c, mid, nodes[0]) && Swept(g, nodes[1..], mid, c')
    decreases |nodes|
  {
    hide VisitedAt;
    var before, last := nodes[..|nodes| - 1], nodes[|nodes| - 1];
    var end :| Swept(g, before, c, end) && VisitedAt(g, end, c', last);
    if before == [] {
      mid := c';
      assert nodes[1..] == [];
    } else {
      mid := SweepFirst(g, before, c, end);
      assert nodes[1..][..|nodes| - 2] == before[1..] && nodes[1..][|nodes| - 2] == last;
    }
  }

  /** The number of passes and the order determine the labels: the computation is deterministic. */
  lemma {:induction false} PassesOnce(g: Graph, order: seq<nat>, k: nat, c: seq<nat>, c': seq<nat>)
    requires Passed(g, order, k, c) && Passed(g, order, k, c')
    ensures c == c'
  {
    if k > 0 {
      hide Swept;
      var mid :| Passed(g, order, k - 1, mid) && Swept(g, order, mid, c);
      var mid' :| Passed(g, order, k - 1, mid') && Swept(g, order, mid', c');
      PassesOnce(g, order, k - 1, mid, mid');
      SweepOnce(g, order, mid, c, c');
    }
  }

  /** k passes over all nodes lead from everyone alone to c. */
  ghost predicate Passed(g: Graph, order: seq<nat>, k: nat, c: seq<nat>) {
    if k == 0 then IsIdentity(g, c) else exists mid :: Passed(g, order, k - 1, mid) && Swept(g, order, mid, c)
  }

  // ---- Passes -------------------------------------------------------------------------------------

  /** The order of the visits, that of the store: every node, at least once; more often would change nothing below. */
  ghost predicate IsOrder(g: Graph, order: seq<nat>) {
    (forall i :: 0 <= i < |order| ==> order[i] < g.n) && forall x: nat :: x < g.n ==> x in order
  }

  /** No visit would move any node. */
  ghost predicate Settled(g: Graph, c: seq<nat>) { |c| == g.n && forall x: nat :: x < g.n ==> IsBest(g, c, x, c[x]) }

  lemma BetterTrans(g: Graph, a: seq<nat>, b: seq<nat>, c: seq<nat>)
    requires Better(g, a, b) && Better(g, b, c)
    ensures Better(g, a, c)
  {}

  method Pass(ghost g: Graph, adj: Weighted, k: seq<real>, m2: real, order: seq<nat>, c0: seq<nat>, sumTot0: seq<real>)
    returns (c: seq<nat>, sumTot: seq<real>, moved: bool)
    requires IsWeighting(g, adj) && DegreesOk(g, k) && m2 == M2(g) && m2 > 0.0 && IsOrder(g, order)
    requires IsLabelling(g, c0) && TotalsOk(g, c0, sumTot0)
    ensures IsLabelling(g, c) && TotalsOk(g, c, sumTot)
    ensures moved ==> Better(g, c0, c)
    ensures !moved ==> c == c0 && Settled(g, c)
    ensures Swept(g, order, c0, c)
  {
    hide TotalsOk, IsBest, M2, Better, IsLabelling, DegreesOk, IsWeighting, Swept, VisitedAt;
    LabellingSize(g, c0);
    NothingSwept(g, c0);
    assert order[..0] == [];
    c, sumTot, moved := c0, sumTot0, false;
    for i := 0 to |order|
      invariant IsLabelling(g, c) && TotalsOk(g, c, sumTot) && |c| == g.n
      invariant Swept(g, order[..i], c0, c)
      invariant moved ==> Better(g, c0, c)
      invariant !moved ==> c == c0 && forall j :: 0 <= j < i ==> IsBest(g, c, order[j], c[order[j]])
    {
      var before := c;
      var now;
      c, sumTot, now := Visit(g, adj, k, m2, before, sumTot, order[i]);
      SweepOn(g, order, i, c0, before, c);
      if now && moved {
        BetterTrans(g, c0, before, c);
      }
      moved := moved || now;
    }
    assert order[..|order|] == order;
    if !moved {
      EveryNodeVisited(g, order, c);
    }
  }

  lemma NothingSwept(g: Graph, c: seq<nat>)
    ensures Swept(g, [], c, c)
  {}

  lemma SweepOn(g: Graph, order: seq<nat>, i: nat, c0: seq<nat>, mid: seq<nat>, c: seq<nat>)
    requires i < |order| && Swept(g, order[..i], c0, mid) && order[i] < |mid|
    requires exists b: nat :: IsBest(g, mid, order[i], b) && c == mid[order[i] := b]
    ensures Swept(g, order[..i + 1], c0, c)
  {
    var nodes := order[..i + 1];
    var before, last := nodes[..|nodes| - 1], nodes[|nodes| - 1];
    assert before == order[..i];
    assert Swept(g, before, c0, mid) && VisitedAt(g, mid, c, last);
  }

  lemma EveryNodeVisited(g: Graph, order: seq<nat>, c: seq<nat>)
    requires IsOrder(g, order) && |c| == g.n && forall j :: 0 <= j < |order| ==> IsBest(g, c, order[j], c[order[j]])
    ensures Settled(g, c)
  {
    forall x: nat | x < g.n ensures IsBest(g, c, x, c[x]) {
      assert x in order;
      var j :| 0 <= j < |order| && order[j] == x;
    }
  }

  lemma LabellingSize(g: Graph, c: seq<nat>)
    requires IsLabelling(g, c)
    ensures |c| == g.n
  {}

  /** Pairwise different labellings, the last of which is better than all before. */
  ghost predicate AllWorse(g: Graph, seen: set<seq<nat>>, c: seq<nat>) {
    forall s :: s in seen ==> s == c || Better(g, s, c)
  }

  lemma NewLabelling(g: Graph, seen: set<seq<nat>>, c: seq<nat>, c': seq<nat>)
    requires AllWorse(g, seen, c) && Better(g, c, c') && IsLabelling(g, c') && seen <= Labellings(g.n, g.n)
    ensures c' !in seen && AllWorse(g, seen + {c'}, c') && seen + {c'} <= Labellings(g.n, g.n)
    ensures |seen| + 1 <= |Labellings(g.n, g.n)|
  {
    hide Modularity, LabelSum;
    AllListed(g.n, c');
    SubsetSize(seen + {c'}, Labellings(g.n, g.n));
  }

  /** Passes until one moves nothing, at most maxPasses of them. A store without edges keeps every node alone. */
  method Louvain(g: Graph, order: seq<nat>, maxPasses: nat) returns (c: seq<nat>)
    requires IsOrder(g, order)
    ensures IsLabelling(g, c)
    ensures M2(g) == 0.0 ==> IsIdentity(g, c)
    ensures forall alone :: IsIdentity(g, alone) ==> Modularity(g, c) >= Modularity(g, alone)
    ensures M2(g) > 0.0 ==> exists k: nat :: Passed(g, order, k, c) && k <= maxPasses && (k == maxPasses || Settled(g, c))
    ensures M2(g) > 0.0 && maxPasses >= |Labellings(g.n, g.n)| ==> Settled(g, c)
  {
    hide M2, IsWeighting, TotalsOk, Settled, IsBest, Modularity, LabelSum, IsOrder, Labellings, Swept;
    var adj := BuildWeights(g);
    WeightingSize(g, adj);
    var k: seq<real> := [];
    for i := 0 to g.n
      invariant |k| == i && forall j: nat :: j < i ==> k[j] == K(g, j)
    {
      WeightingRow(g, adj, i);
      var ki := SumWeights(g, i, adj[i]);
      k := k + [ki];
    }
    var m2 := SumDegrees(g, k);
    c := seq(g.n, i => i);
    ghost var alone := c;
    assert forall other :: IsIdentity(g, other) ==> other == alone;
    AloneTotals(g, c, k);
    if m2 == 0.0 {
      return;
    }
    DegreesNonNegative(g);
    var sumTot := k;
    ghost var seen := {c};
    AllListed(g.n, c);
    SubsetSize(seen, Labellings(g.n, g.n));
    for pass := 0 to maxPasses
      invariant IsLabelling(g, c) && TotalsOk(g, c, sumTot)
      invariant c in seen && alone in seen && |seen| == pass + 1 <= |Labellings(g.n, g.n)| && seen <= Labellings(g.n, g.n)
      invariant AllWorse(g, seen, c) && Passed(g, order, pass, c)
    {
      var before := c;
      var moved;
      c, sumTot, moved := Pass(g, adj, k, m2, order, before, sumTot);
      assert Passed(g, order, pass + 1, c);
      if !moved {
        return;
      }
      NewLabelling(g, seen, before, c);
      seen := seen + {c};
    }
  }

  lemma WeightingSize(g: Graph, adj: Weighted)
    requires IsWeighting(g, adj)
    ensures |adj| == g.n
  {}

  lemma WeightingRow(g: Graph, adj: Weighted, i: nat)
    requires IsWeighting(g, adj) && i < g.n
    ensures |adj| == g.n && forall j: nat :: HasWeight(g, adj[i], i, j)
  {}
}
