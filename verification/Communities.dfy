/** Modularity of a labelling of the nodes, over the undirected weighting of an edge list: the number of edges
    between two nodes in either direction, loops left out (ts/src/graph-analytics.ts). */
module Communities {
  import opened Graphs
  import opened Sums

  // ---- Weights and degrees -----------------------------------------------------------------------

  predicate Joins(n: nat, e: (nat, nat), i: nat, j: nat) {
    ValidEdge(n, e) && e.0 != e.1 && (e == (i, j) || e == (j, i))
  }

  function W(g: Graph, i: nat, j: nat): (w: real)
    ensures w >= 0.0
    decreases |g.edges|
  {
    if g.edges == [] then 0.0
    else
      W(Graph(g.n, g.edges[..|g.edges| - 1]), i, j) + if Joins(g.n, g.edges[|g.edges| - 1], i, j) then 1.0 else 0.0
  }

  /** The positions in the edge list of the edges between i and j, in either direction. */
  ghost function Places(edges: seq<(nat, nat)>, i: nat, j: nat): set<nat> {
    set k: nat | k < |edges| && (edges[k] == (i, j) || edges[k] == (j, i))
  }

  /** The weight of two different nodes is the number of edges between them; a node has none to itself. */
  lemma {:induction false} WeightIsCount(g: Graph, i: nat, j: nat)
    requires i < g.n && j < g.n
    ensures W(g, i, j) == if i == j then 0.0 else |Places(g.edges, i, j)| as real
    decreases |g.edges|
  {
    if g.edges == [] {
      assert Places(g.edges, i, j) == {};
    } else {
      var k := |g.edges| - 1;
      var rest := g.edges[..k];
      WeightIsCount(Graph(g.n, rest), i, j);
      if g.edges[k] == (i, j) || g.edges[k] == (j, i) {
        assert Places(g.edges, i, j) == Places(rest, i, j) + {k};
      } else {
        assert Places(g.edges, i, j) == Places(rest, i, j);
      }
    }
  }

  lemma {:induction false} WSymmetric(g: Graph, i: nat, j: nat)
    ensures W(g, i, j) == W(g, j, i)
    decreases |g.edges|
  {
    if g.edges != [] {
      WSymmetric(Graph(g.n, g.edges[..|g.edges| - 1]), i, j);
    }
  }

  lemma {:induction false} WRange(g: Graph, i: nat, j: nat)
    ensures W(g, i, j) != 0.0 ==> i < g.n && j < g.n && i != j
    decreases |g.edges|
  {
    if g.edges != [] {
      WRange(Graph(g.n, g.edges[..|g.edges| - 1]), i, j);
    }
  }

  function Weights(g: Graph, i: nat): nat -> real { (j: nat) => W(g, i, j) }

  function K(g: Graph, i: nat): real { Sum(g.n, Weights(g, i)) }

  function Degrees(g: Graph): nat -> real { (i: nat) => K(g, i) }

  /** Twice the number of edges. */
  function M2(g: Graph): real { Sum(g.n, Degrees(g)) }

  lemma DegreesNonNegative(g: Graph)
    ensures forall i: nat :: K(g, i) >= 0.0
    ensures M2(g) >= 0.0 && forall i: nat :: i < g.n ==> K(g, i) <= M2(g)
  {
    forall i: nat ensures K(g, i) >= 0.0 {
      SumNonNegative(g.n, Weights(g, i));
    }
    SumNonNegative(g.n, Degrees(g));
    forall i: nat | i < g.n ensures K(g, i) <= M2(g) {
      assert Degrees(g)(i) <= M2(g);
    }
  }

  // ---- Labellings --------------------------------------------------------------------------------

  ghost predicate IsLabelling(g: Graph, c: seq<nat>) { |c| == g.n && forall i :: 0 <= i < |c| ==> c[i] < g.n }

  /** The weight between i and j above what their degrees alone lead to expect. */
  function Excess(g: Graph, i: nat, j: nat): real {
    if M2(g) == 0.0 then 0.0 else W(g, i, j) - K(g, i) * K(g, j) / M2(g)
  }

  lemma ExcessSymmetric(g: Graph, i: nat, j: nat)
    ensures Excess(g, i, j) == Excess(g, j, i)
  {
    WSymmetric(g, i, j);
  }

  function PairTerms(g: Graph, c: seq<nat>, i: nat): nat -> real {
    (j: nat) => if i < |c| && j < |c| && c[i] == c[j] then Excess(g, i, j) else 0.0
  }

  function PairRows(g: Graph, c: seq<nat>): nat -> real { (i: nat) => Sum(g.n, PairTerms(g, c, i)) }

  /** The sum of the excess over all pairs in the same community, relative to the total weight. */
  function Modularity(g: Graph, c: seq<nat>): real {
    if M2(g) == 0.0 then 0.0 else Sum(g.n, PairRows(g, c)) / M2(g)
  }

  /** With every node in one community nothing exceeds what the degrees lead to expect. */
  lemma OneCommunity(g: Graph, c: seq<nat>)
    requires |c| == g.n && forall i, j :: 0 <= i < j < |c| ==> c[i] == c[j]
    ensures Modularity(g, c) == 0.0
  {
    if M2(g) != 0.0 {
      forall i: nat | i < g.n ensures PairRows(g, c)(i) == 0.0 {
        OneRow(g, c, i);
      }
      SumZero(g.n, PairRows(g, c));
    }
  }

  function Expected(g: Graph, i: nat, j: nat): real
    requires M2(g) != 0.0
  {
    0.0 - K(g, i) * K(g, j) / M2(g)
  }

  function Expectations(g: Graph, i: nat): nat -> real
    requires M2(g) != 0.0
  {
    (j: nat) => Expected(g, i, j)
  }

  /** All that the degrees lead to expect of a node is its degree. */
  lemma ExpectedSum(g: Graph, i: nat)
    requires M2(g) != 0.0
    ensures Sum(g.n, Expectations(g, i)) == 0.0 - K(g, i)
  {
    hide K;
    var factor := 0.0 - K(g, i) / M2(g);
    forall j: nat ensures Expectations(g, i)(j) == factor * Degrees(g)(j) {
      ProductOver(K(g, i), K(g, j), M2(g));
    }
    SumScale(g.n, Degrees(g), factor, Expectations(g, i));
    Cancels(K(g, i), M2(g));
  }

  lemma OneRow(g: Graph, c: seq<nat>, i: nat)
    requires |c| == g.n && i < g.n && M2(g) != 0.0 && forall i, j :: 0 <= i < j < |c| ==> c[i] == c[j]
    ensures Sum(g.n, PairTerms(g, c, i)) == 0.0
  {
    forall j: nat | j < g.n ensures PairTerms(g, c, i)(j) == Weights(g, i)(j) + Expectations(g, i)(j) {
      OneTerm(g, c, i, j);
    }
    hide W, PairTerms, Weights, Expectations;
    SumAdd(g.n, Weights(g, i), Expectations(g, i), PairTerms(g, c, i));
    ExpectedSum(g, i);
  }

  lemma OneTerm(g: Graph, c: seq<nat>, i: nat, j: nat)
    requires |c| == g.n && i < g.n && j < g.n && M2(g) != 0.0 && forall i, j :: 0 <= i < j < |c| ==> c[i] == c[j]
    ensures PairTerms(g, c, i)(j) == W(g, i, j) + Expected(g, i, j)
  {
    hide W, K, M2;
    assert c[i] == c[j];
  }

  lemma ProductOver(x: real, y: real, m: real)
    requires m != 0.0
    ensures (0.0 - x / m) * y == 0.0 - x * y / m
  {}

  lemma Cancels(x: real, m: real)
    requires m != 0.0
    ensures (0.0 - x / m) * m == 0.0 - x
  {}

  /** How node x is drawn to the other nodes labelled l. */
  function PullOf(g: Graph, c: seq<nat>, x: nat, l: nat, j: nat): real {
    if j < |c| && j != x && c[j] == l then Excess(g, x, j) else 0.0
  }

  function Pull(g: Graph, c: seq<nat>, x: nat, l: nat): nat -> real { (j: nat) => PullOf(g, c, x, l, j) }

  function Gain(g: Graph, c: seq<nat>, x: nat, l: nat): real { Sum(g.n, Pull(g, c, x, l)) }

  // ---- A move changes modularity by twice the difference of gains -----------------------------------

  function PullChange(g: Graph, c: seq<nat>, x: nat, a: nat, b: nat): nat -> real {
    (i: nat) => PullOf(g, c, x, b, i) - PullOf(g, c, x, a, i)
  }

  lemma PullChangeSum(g: Graph, c: seq<nat>, x: nat, a: nat, b: nat)
    ensures Sum(g.n, PullChange(g, c, x, a, b)) == Gain(g, c, x, b) - Gain(g, c, x, a)
  {
    SumAdd(g.n, PullChange(g, c, x, a, b), Pull(g, c, x, a), Pull(g, c, x, b));
  }

  /** A row other than the moved node's changes in one place. */
  lemma OtherRow(g: Graph, c: seq<nat>, x: nat, b: nat, i: nat)
    requires IsLabelling(g, c) && x < g.n && b < g.n && i < g.n && i != x
    ensures PairRows(g, c[x := b])(i) == PairRows(g, c)(i) + PullChange(g, c, x, c[x], b)(i)
  {
    hide Excess;
    var d := PullChange(g, c, x, c[x], b)(i);
    ExcessSymmetric(g, i, x);
    SumChange(g.n, PairTerms(g, c, i), x, d, PairTerms(g, c[x := b], i));
  }

  lemma MovedRow(g: Graph, c: seq<nat>, x: nat, b: nat)
    requires IsLabelling(g, c) && x < g.n && b < g.n
    ensures PairRows(g, c[x := b])(x) == PairRows(g, c)(x) + Gain(g, c, x, b) - Gain(g, c, x, c[x])
  {
    hide Excess;
    PullChangeSum(g, c, x, c[x], b);
    SumAdd(g.n, PairTerms(g, c, x), PullChange(g, c, x, c[x], b), PairTerms(g, c[x := b], x));
  }

  lemma MoveRows(g: Graph, c: seq<nat>, x: nat, b: nat)
    requires IsLabelling(g, c) && x < g.n && b < g.n
    ensures Sum(g.n, PairRows(g, c[x := b]))
         == Sum(g.n, PairRows(g, c)) + 2.0 * (Gain(g, c, x, b) - Gain(g, c, x, c[x]))
  {
    hide PairRows, Gain, PullChange, Excess;
    var rows, rows' := PairRows(g, c), PairRows(g, c[x := b]);
    var change := PullChange(g, c, x, c[x], b);
    var total := Gain(g, c, x, b) - Gain(g, c, x, c[x]);
    PullChangeSum(g, c, x, c[x], b);
    var plus := (i: nat) => rows(i) + change(i);
    SumAdd(g.n, rows, change, plus);
    NoSelfPull(g, c, x, b);
    MovedRow(g, c, x, b);
    forall i: nat | i < g.n && i != x ensures rows'(i) == plus(i) {
      OtherRow(g, c, x, b, i);
    }
    SumChange(g.n, plus, x, total, rows');
  }

  lemma NoSelfPull(g: Graph, c: seq<nat>, x: nat, b: nat)
    requires x < |c|
    ensures PullChange(g, c, x, c[x], b)(x) == 0.0
  {}

  /** Moving x to label b changes modularity by 2 / m2 times the gain difference. */
  lemma MoveChangesModularity(g: Graph, c: seq<nat>, x: nat, b: nat)
    requires IsLabelling(g, c) && x < g.n && b < g.n && M2(g) != 0.0
    ensures Modularity(g, c[x := b]) == Modularity(g, c) + 2.0 / M2(g) * (Gain(g, c, x, b) - Gain(g, c, x, c[x]))
  {
    hide PairRows, Gain, M2;
    MoveRows(g, c, x, b);
    Divide(Sum(g.n, PairRows(g, c)), Gain(g, c, x, b) - Gain(g, c, x, c[x]), M2(g));
  }

  lemma Divide(s: real, d: real, m: real)
    requires m != 0.0
    ensures (s + 2.0 * d) / m == s / m + 2.0 / m * d
  {
    Cancel((s + 2.0 * d) / m, s / m + 2.0 / m * d, m);
  }

  lemma Cancel(x: real, y: real, m: real)
    requires m != 0.0 && x * m == y * m
    ensures x == y
  {}

  // ---- The gain as the code computes it -----------------------------------------------------------

  /** The weight from x into community l. */
  function Into(g: Graph, c: seq<nat>, x: nat, l: nat): nat -> real {
    (j: nat) => if j < |c| && c[j] == l then W(g, x, j) else 0.0
  }

  function OtherDegree(g: Graph, c: seq<nat>, x: nat, l: nat, j: nat): real {
    if j < |c| && j != x && c[j] == l then K(g, j) else 0.0
  }

  /** The degrees of the other nodes labelled l. */
  function OtherDegrees(g: Graph, c: seq<nat>, x: nat, l: nat): nat -> real { (j: nat) => OtherDegree(g, c, x, l, j) }

  function MemberDegrees(g: Graph, c: seq<nat>, l: nat): nat -> real {
    (j: nat) => if j < |c| && c[j] == l then K(g, j) else 0.0
  }

  /** The total degree of the nodes labelled l. */
  function TotalDegree(g: Graph, c: seq<nat>, l: nat): real { Sum(g.n, MemberDegrees(g, c, l)) }

  lemma PullByTotals(g: Graph, c: seq<nat>, x: nat, l: nat, j: nat)
    requires M2(g) != 0.0
    ensures PullOf(g, c, x, l, j) == Into(g, c, x, l)(j) + -(K(g, x) / M2(g)) * OtherDegree(g, c, x, l, j)
  {
    hide W, K, M2;
    WRange(g, x, x);
    Rescale(K(g, x), K(g, j), M2(g));
  }

  lemma GainByTotals(g: Graph, c: seq<nat>, x: nat, l: nat)
    requires M2(g) != 0.0
    ensures Gain(g, c, x, l) == Sum(g.n, Into(g, c, x, l)) - Sum(g.n, OtherDegrees(g, c, x, l)) * K(g, x) / M2(g)
  {
    hide W, K, M2, PullOf, OtherDegree, Into, Sum;
    var share := -(K(g, x) / M2(g));
    var scaled := (j: nat) => share * OtherDegree(g, c, x, l, j);
    SumScale(g.n, OtherDegrees(g, c, x, l), share, scaled);
    forall j: nat | j < g.n ensures Pull(g, c, x, l)(j) == Into(g, c, x, l)(j) + scaled(j) {
      PullByTotals(g, c, x, l, j);
    }
    SumAdd(g.n, Into(g, c, x, l), scaled, Pull(g, c, x, l));
    Rescale(K(g, x), Sum(g.n, OtherDegrees(g, c, x, l)), M2(g));
  }

  lemma Rescale(a: real, b: real, m: real)
    requires m != 0.0
    ensures -(a / m) * b == -(a * b / m) && b * a / m == a * b / m
  {}

  /** Taking x out of its community, and putting it into another, shifts its degree and nothing else. */
  lemma TotalsAfterMove(g: Graph, c: seq<nat>, x: nat, b: nat, l: nat)
    requires IsLabelling(g, c) && x < g.n && b < g.n
    ensures TotalDegree(g, c, l) == Sum(g.n, OtherDegrees(g, c, x, l)) + if c[x] == l then K(g, x) else 0.0
    ensures TotalDegree(g, c[x := b], l) == Sum(g.n, OtherDegrees(g, c, x, l)) + if b == l then K(g, x) else 0.0
  {
    hide K;
    SumChange(g.n, OtherDegrees(g, c, x, l), x, if c[x] == l then K(g, x) else 0.0, MemberDegrees(g, c, l));
    SumChange(g.n, OtherDegrees(g, c, x, l), x, if b == l then K(g, x) else 0.0, MemberDegrees(g, c[x := b], l));
  }
}
