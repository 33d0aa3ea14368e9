/** PageRank as a Markov chain over the reals: every step mixes a teleport distribution with the rank flowing along
    the edges, dangling rank going where the teleport goes. */
module Transition {
  import opened Graphs
  import opened PageRankSpec
  import opened Sums

  // ---- Distributions and distances -----------------------------------------------------------------

  function At(r: seq<real>, i: nat): real { if i < |r| then r[i] else 0.0 }

  function Of(r: seq<real>): nat -> real { (i: nat) => At(r, i) }

  predicate IsDistribution(r: seq<real>) {
    (forall i :: 0 <= i < |r| ==> r[i] >= 0.0) && Sum(|r|, Of(r)) == 1.0
  }

  function Abs(x: real): real { if x < 0.0 then -x else x }

  function Gap(r: seq<real>, s: seq<real>): nat -> real {
    (i: nat) => if i < |r| && i < |s| then Abs(r[i] - s[i]) else 0.0
  }

  /** The sum of the absolute differences. */
  function Distance(r: seq<real>, s: seq<real>): real { Sum(|r|, Gap(r, s)) }

  lemma DistanceNonNegative(r: seq<real>, s: seq<real>)
    ensures Distance(r, s) >= 0.0
    ensures |r| == |s| && Distance(r, s) == 0.0 ==> r == s
  {
    SumNonNegative(|r|, Gap(r, s));
    if |r| == |s| && Distance(r, s) == 0.0 {
      forall i: nat | i < |r| ensures r[i] == s[i] {
        assert Gap(r, s)(i) <= 0.0;
      }
    }
  }

  lemma {:induction false} SumMonotone(n: nat, f: nat -> real, g: nat -> real)
    requires forall i: nat :: i < n ==> f(i) <= g(i)
    ensures Sum(n, f) <= Sum(n, g)
  {
    if n > 0 {
      SumMonotone(n - 1, f, g);
    }
  }

  lemma Triangle(r: seq<real>, s: seq<real>, t: seq<real>)
    requires |r| == |s| == |t|
    ensures Distance(r, t) <= Distance(r, s) + Distance(s, t)
  {
    var both := (i: nat) => Gap(r, s)(i) + Gap(s, t)(i);
    SumAdd(|r|, Gap(r, s), Gap(s, t), both);
    SumMonotone(|r|, Gap(r, t), both);
  }

  // ---- Products, kept as one term in the proofs ------------------------------------------------------

  function Blend(a: real, x: real): real { a * x }

  function Scaled(a: real, f: nat -> real): nat -> real { (i: nat) => Blend(a, f(i)) }

  lemma ScaledSum(n: nat, a: real, f: nat -> real)
    ensures Sum(n, Scaled(a, f)) == Blend(a, Sum(n, f))
  {
    SumScale(n, f, a, Scaled(a, f));
  }

  lemma BlendNonNegative(a: real, x: real)
    requires a >= 0.0 && x >= 0.0
    ensures Blend(a, x) >= 0.0
  {}

  lemma BlendAdd(a: real, x: real, y: real)
    ensures Blend(a, x + y) == Blend(a, x) + Blend(a, y)
  {}

  lemma BlendAbs(a: real, x: real)
    requires a >= 0.0
    ensures Abs(Blend(a, x)) == Blend(a, Abs(x))
  {
    if x < 0.0 {
      assert a * -x == -(a * x);
      BlendNonNegative(a, -x);
    } else {
      BlendNonNegative(a, x);
    }
  }

  lemma BlendMonotone(a: real, x: real, y: real)
    requires a >= 0.0 && x <= y
    ensures Blend(a, x) <= Blend(a, y)
  {}

  // ---- The transition matrix -----------------------------------------------------------------------

  /** The number of edges from u to v. */
  function Edges(n: nat, edges: seq<(nat, nat)>, u: nat, v: nat): nat {
    if edges == [] then 0
    else
      var e := edges[|edges| - 1];
      Edges(n, edges[..|edges| - 1], u, v) + if ValidEdge(n, e) && e == (u, v) then 1 else 0
  }

  function EdgesFrom(n: nat, edges: seq<(nat, nat)>, u: nat): nat -> real {
    (v: nat) => Edges(n, edges, u, v) as real
  }

  lemma {:induction false} EdgesSum(n: nat, edges: seq<(nat, nat)>, u: nat)
    ensures Sum(n, EdgesFrom(n, edges, u)) == OutDeg(n, edges, u) as real
  {
    if edges == [] {
      SumZero(n, EdgesFrom(n, edges, u));
    } else {
      var rest, e := edges[..|edges| - 1], edges[|edges| - 1];
      EdgesSum(n, rest, u);
      if ValidEdge(n, e) && e.0 == u {
        SumChange(n, EdgesFrom(n, rest, u), e.1, 1.0, EdgesFrom(n, edges, u));
      } else {
        SumCong(n, EdgesFrom(n, rest, u), EdgesFrom(n, edges, u));
      }
    }
  }

  /** Where the rank of u goes in one step, as a share of it. */
  function P(g: Graph, t: seq<real>, u: nat, v: nat): real {
    var k := OutDeg(g.n, g.edges, u);
    if k == 0 then At(t, v) else Blend(1.0 / k as real, Edges(g.n, g.edges, u, v) as real)
  }

  function Outgoing(g: Graph, t: seq<real>, u: nat): nat -> real { (v: nat) => P(g, t, u, v) }

  /** Each node's rank is passed on in full. */
  lemma POutgoing(g: Graph, t: seq<real>, u: nat)
    requires IsDistribution(t) && |t| == g.n
    ensures Sum(g.n, Outgoing(g, t, u)) == 1.0
    ensures forall v: nat :: P(g, t, u, v) >= 0.0
  {
    var k := OutDeg(g.n, g.edges, u);
    if k == 0 {
      SumCong(g.n, Outgoing(g, t, u), Of(t));
    } else {
      hide Blend, OutDeg, Edges;
      var share := 1.0 / k as real;
      var out := EdgesFrom(g.n, g.edges, u);
      EdgesSum(g.n, g.edges, u);
      ScaledSum(g.n, share, out);
      SumCong(g.n, Scaled(share, out), Outgoing(g, t, u));
      Whole(k as real);
      forall v: nat ensures P(g, t, u, v) >= 0.0 {
        BlendNonNegative(share, out(v));
      }
    }
  }

  lemma Whole(k: real)
    requires k > 0.0
    ensures 1.0 / k > 0.0 && Blend(1.0 / k, k) == 1.0
  {}

  /** The rank arriving at v: entry v of r times the matrix. */
  function Arrivals(g: Graph, t: seq<real>, r: seq<real>, v: nat): nat -> real {
    (u: nat) => Blend(At(r, u), P(g, t, u, v))
  }

  function Flow(g: Graph, t: seq<real>, r: seq<real>): nat -> real { (v: nat) => Sum(g.n, Arrivals(g, t, r, v)) }

  function NodeMix(g: Graph, d: real, t: seq<real>, r: seq<real>, v: nat): real {
    Blend(1.0 - d, At(t, v)) + Blend(d, Flow(g, t, r)(v))
  }

  /** One step of the chain with teleport distribution t and damping d. */
  function Mix(g: Graph, d: real, t: seq<real>, r: seq<real>): (next: seq<real>)
    ensures |next| == g.n
  {
    seq(g.n, v requires 0 <= v => NodeMix(g, d, t, r, v))
  }

  // ---- What the matrix is --------------------------------------------------------------------------------

  /** The positions in the edge list of the edges from u to v. */
  ghost function Places(edges: seq<(nat, nat)>, u: nat, v: nat): set<nat> {
    set i: nat | i < |edges| && edges[i] == (u, v)
  }

  lemma {:induction false} EdgesAreCounted(n: nat, edges: seq<(nat, nat)>, u: nat, v: nat)
    requires u < n && v < n
    ensures Edges(n, edges, u, v) == |Places(edges, u, v)|
  {
    if edges == [] {
      assert Places(edges, u, v) == {};
    } else {
      var k := |edges| - 1;
      var rest := edges[..k];
      EdgesAreCounted(n, rest, u, v);
      if edges[k] == (u, v) {
        assert Places(edges, u, v) == Places(rest, u, v) + {k};
      } else {
        assert Places(edges, u, v) == Places(rest, u, v);
      }
    }
  }

  /** All the rank at one node. */
  function AllAt(n: nat, u: nat): (r: seq<real>)
    ensures |r| == n
  {
    seq(n, i => if i == u then 1.0 else 0.0)
  }

  /** From node u a step teleports with probability 1 - d and otherwise follows an out-edge, each as likely as the
      others; without an out-edge it teleports. */
  lemma StepFromNode(g: Graph, d: real, t: seq<real>, u: nat, v: nat)
    requires |t| == g.n && u < g.n && v < g.n
    ensures var k := OutDeg(g.n, g.edges, u);
      Mix(g, d, t, AllAt(g.n, u))[v]
        == (1.0 - d) * t[v] + d * if k == 0 then t[v] else |Places(g.edges, u, v)| as real / k as real
  {
    hide P;
    var r := AllAt(g.n, u);
    forall i: nat | i < g.n && i != u ensures Arrivals(g, t, r, v)(i) == 0.0 {
      BlendZero(P(g, t, i, v));
    }
    SumPoint(g.n, Arrivals(g, t, r, v), u);
    BlendOne'(P(g, t, u, v));
    PIs(g, t, u, v);
  }

  lemma BlendZero(x: real)
    ensures Blend(0.0, x) == 0.0
  {}

  lemma BlendOne'(x: real)
    ensures Blend(1.0, x) == x
  {}

  lemma PIs(g: Graph, t: seq<real>, u: nat, v: nat)
    requires |t| == g.n && u < g.n && v < g.n
    ensures var k := OutDeg(g.n, g.edges, u);
      P(g, t, u, v) == if k == 0 then t[v] else |Places(g.edges, u, v)| as real / k as real
  {
    EdgesAreCounted(g.n, g.edges, u, v);
    var k := OutDeg(g.n, g.edges, u);
    if k > 0 {
      Quotient(k as real, |Places(g.edges, u, v)| as real);
    }
  }

  lemma Quotient(k: real, x: real)
    requires k != 0.0
    ensures Blend(1.0 / k, x) == x / k
  {}

  // ---- A step keeps a distribution and contracts distances -------------------------------------------

  lemma ArrivalsNonNegative(g: Graph, t: seq<real>, r: seq<real>, v: nat)
    requires IsDistribution(t) && |t| == g.n && forall i :: 0 <= i < |r| ==> r[i] >= 0.0
    ensures Flow(g, t, r)(v) >= 0.0
  {
    hide P, Blend;
    forall u: nat | u < g.n ensures Arrivals(g, t, r, v)(u) >= 0.0 {
      POutgoing(g, t, u);
      BlendNonNegative(At(r, u), P(g, t, u, v));
    }
    SumNonNegative(g.n, Arrivals(g, t, r, v));
  }

  function Arrive(g: Graph, t: seq<real>, r: seq<real>): (nat, nat) -> real {
    (u: nat, v: nat) => Blend(At(r, u), P(g, t, u, v))
  }

  /** The matrix moves rank without creating or losing any. */
  lemma FlowKeepsTotal(g: Graph, t: seq<real>, r: seq<real>)
    requires IsDistribution(t) && |t| == g.n == |r|
    ensures Sum(g.n, Flow(g, t, r)) == Sum(g.n, Of(r))
  {
    hide P, IsDistribution, Blend;
    forall u: nat | u < g.n ensures At(r, u) == Sum(g.n, Row(Arrive(g, t, r), u)) {
      POutgoing(g, t, u);
      ScaledSum(g.n, At(r, u), Outgoing(g, t, u));
      SumCong(g.n, Scaled(At(r, u), Outgoing(g, t, u)), Row(Arrive(g, t, r), u));
      BlendOne(At(r, u));
    }
    forall v: nat | v < g.n ensures Flow(g, t, r)(v) == Sum(g.n, Column(Arrive(g, t, r), v)) {
      SumCong(g.n, Arrivals(g, t, r, v), Column(Arrive(g, t, r), v));
    }
    SumSwap(g.n, g.n, Arrive(g, t, r), Of(r), Flow(g, t, r));
  }

  lemma BlendOne(x: real)
    ensures Blend(x, 1.0) == x
  {}

  lemma MixTotal(g: Graph, d: real, t: seq<real>, r: seq<real>)
    requires |t| == g.n
    ensures Sum(g.n, Of(Mix(g, d, t, r))) == Blend(1.0 - d, Sum(g.n, Of(t))) + Blend(d, Sum(g.n, Flow(g, t, r)))
  {
    hide Flow, Blend;
    ScaledSum(g.n, 1.0 - d, Of(t));
    ScaledSum(g.n, d, Flow(g, t, r));
    SumAdd(g.n, Scaled(1.0 - d, Of(t)), Scaled(d, Flow(g, t, r)), Of(Mix(g, d, t, r)));
  }

  /** Ranks stay non-negative and sum to 1. */
  lemma StepKeepsDistribution(g: Graph, d: real, t: seq<real>, r: seq<real>)
    requires 0.0 <= d <= 1.0 && IsDistribution(t) && IsDistribution(r) && |t| == g.n == |r|
    ensures IsDistribution(Mix(g, d, t, r))
  {
    MixTotal(g, d, t, r);
    FlowKeepsTotal(g, t, r);
    hide Flow, Sum, Blend;
    forall v: nat | v < g.n ensures Mix(g, d, t, r)[v] >= 0.0 {
      ArrivalsNonNegative(g, t, r, v);
      BlendNonNegative(1.0 - d, t[v]);
      BlendNonNegative(d, Flow(g, t, r)(v));
    }
    BlendOne(1.0 - d);
    BlendOne(d);
  }

  function Minus(r: seq<real>, s: seq<real>): (x: seq<real>)
    requires |r| == |s|
    ensures |x| == |r| && forall i :: 0 <= i < |r| ==> x[i] == r[i] - s[i]
  {
    seq(|r|, i requires 0 <= i < |r| => r[i] - s[i])
  }

  function Magnitude(x: seq<real>): (m: seq<real>)
    ensures |m| == |x| && forall i :: 0 <= i < |x| ==> m[i] == Abs(x[i])
  {
    seq(|x|, i requires 0 <= i < |x| => Abs(x[i]))
  }

  lemma {:induction false} SumAbs(n: nat, f: nat -> real, m: nat -> real)
    requires forall i: nat :: i < n ==> Abs(f(i)) <= m(i)
    ensures Abs(Sum(n, f)) <= Sum(n, m)
  {
    if n > 0 {
      SumAbs(n - 1, f, m);
    }
  }

  lemma ArrivalsSplit(g: Graph, t: seq<real>, r: seq<real>, s: seq<real>, v: nat, u: nat)
    requires IsDistribution(t) && |t| == g.n == |r| == |s| && v < g.n && u < g.n
    ensures var x := Minus(r, s);
      && Arrivals(g, t, r, v)(u) == Arrivals(g, t, s, v)(u) + Arrivals(g, t, x, v)(u)
      && Abs(Arrivals(g, t, x, v)(u)) <= Arrivals(g, t, Magnitude(x), v)(u)
  {
    hide P, IsDistribution, Blend;
    var x, p := Minus(r, s), P(g, t, u, v);
    POutgoing(g, t, u);
    assert At(r, u) == At(s, u) + At(x, u) && At(Magnitude(x), u) == Abs(x[u]);
    BlendSwap(r[u], p);
    BlendSwap(s[u], p);
    BlendSwap(x[u], p);
    BlendSwap(Abs(x[u]), p);
    BlendAdd(p, s[u], x[u]);
    BlendAbs(p, x[u]);
  }

  lemma BlendSwap(x: real, y: real)
    ensures Blend(x, y) == Blend(y, x)
  {}

  lemma GapOfSteps(g: Graph, d: real, t: seq<real>, r: seq<real>, s: seq<real>, v: nat)
    requires d >= 0.0 && IsDistribution(t) && |t| == g.n == |r| == |s| && v < g.n
    ensures Gap(Mix(g, d, t, r), Mix(g, d, t, s))(v) <= Blend(d, Flow(g, t, Magnitude(Minus(r, s)))(v))
  {
    hide Arrivals, IsDistribution, Blend, Sum;
    var x := Minus(r, s);
    forall u: nat | u < g.n
      ensures Arrivals(g, t, r, v)(u) == Arrivals(g, t, s, v)(u) + Arrivals(g, t, x, v)(u)
      ensures Abs(Arrivals(g, t, x, v)(u)) <= Arrivals(g, t, Magnitude(x), v)(u)
    {
      ArrivalsSplit(g, t, r, s, v, u);
    }
    SumAdd(g.n, Arrivals(g, t, s, v), Arrivals(g, t, x, v), Arrivals(g, t, r, v));
    SumAbs(g.n, Arrivals(g, t, x, v), Arrivals(g, t, Magnitude(x), v));
    BlendAdd(d, Flow(g, t, s)(v), Flow(g, t, x)(v));
    BlendAbs(d, Flow(g, t, x)(v));
    BlendMonotone(d, Abs(Flow(g, t, x)(v)), Flow(g, t, Magnitude(x))(v));
  }

  /** A step brings any two rank vectors closer by the damping factor. */
  lemma StepContracts(g: Graph, d: real, t: seq<real>, r: seq<real>, s: seq<real>)
    requires d >= 0.0 && IsDistribution(t) && |t| == g.n == |r| == |s|
    ensures Distance(Mix(g, d, t, r), Mix(g, d, t, s)) <= d * Distance(r, s)
  {
    var total := StepGaps(g, d, t, r, s);
    assert Blend(d, total) == d * total;
  }

  lemma StepGaps(g: Graph, d: real, t: seq<real>, r: seq<real>, s: seq<real>) returns (total: real)
    requires d >= 0.0 && IsDistribution(t) && |t| == g.n == |r| == |s|
    ensures total == Distance(r, s) && Distance(Mix(g, d, t, r), Mix(g, d, t, s)) <= Blend(d, total)
  {
    hide IsDistribution, Flow, Mix, Blend;
    var m := Magnitude(Minus(r, s));
    forall v: nat | v < g.n ensures Gap(Mix(g, d, t, r), Mix(g, d, t, s))(v) <= Scaled(d, Flow(g, t, m))(v) {
      GapOfSteps(g, d, t, r, s, v);
    }
    SumMonotone(g.n, Gap(Mix(g, d, t, r), Mix(g, d, t, s)), Scaled(d, Flow(g, t, m)));
    ScaledSum(g.n, d, Flow(g, t, m));
    FlowKeepsTotal(g, t, m);
    SumCong(g.n, Of(m), Gap(r, s));
    total := Sum(g.n, Of(m));
  }

  // ---- Fixed points --------------------------------------------------------------------------------

  predicate IsFixed(g: Graph, d: real, t: seq<real>, f: seq<real>) { |f| == g.n && Mix(g, d, t, f) == f }

  /** Stopping when a step changes the ranks by at most tol leaves them within d * tol / (1 - d) of any fixed point. */
  lemma ExitBound(g: Graph, d: real, t: seq<real>, r: seq<real>, f: seq<real>, tol: real)
    requires 0.0 <= d < 1.0 && IsDistribution(t) && |t| == g.n == |r| && IsFixed(g, d, t, f)
    requires Distance(Mix(g, d, t, r), r) <= tol
    ensures Distance(Mix(g, d, t, r), f) <= d * tol / (1.0 - d)
  {
    hide Mix, IsDistribution, Distance;
    var next := Mix(g, d, t, r);
    StepContracts(g, d, t, r, f);
    Triangle(r, next, f);
    DistanceSymmetric(r, next);
    assert Distance(next, f) <= d * Distance(r, f);
    assert Distance(r, f) <= tol + Distance(next, f);
    Geometric(d, Distance(next, f), tol, Distance(r, f));
  }

  lemma DistanceSymmetric(r: seq<real>, s: seq<real>)
    requires |r| == |s|
    ensures Distance(r, s) == Distance(s, r)
  {
    SumCong(|r|, Gap(r, s), Gap(s, r));
  }

  lemma Geometric(d: real, x: real, tol: real, y: real)
    requires 0.0 <= d < 1.0 && x <= d * y && y <= tol + x
    ensures x <= d * tol / (1.0 - d)
  {
    assert d * y <= d * (tol + x);
    assert x * (1.0 - d) <= d * tol;
    Cross(x, d * tol, 1.0 - d);
  }

  lemma Cross(x: real, y: real, k: real)
    requires k > 0.0 && x * k <= y
    ensures x <= y / k
  {}

  /** At most one fixed point exists. */
  lemma FixedPointUnique(g: Graph, d: real, t: seq<real>, f: seq<real>, f': seq<real>)
    requires 0.0 <= d < 1.0 && IsDistribution(t) && |t| == g.n && IsFixed(g, d, t, f) && IsFixed(g, d, t, f')
    ensures f == f'
  {
    hide Mix, IsDistribution, Distance;
    StepContracts(g, d, t, f, f');
    DistanceNonNegative(f, f');
    assert Distance(f, f') <= d * Distance(f, f');
    OnlyZero(d, Distance(f, f'));
  }

  lemma OnlyZero(d: real, x: real)
    requires 0.0 <= d < 1.0 && 0.0 <= x <= d * x
    ensures x == 0.0
  {
    assert x * (1.0 - d) <= 0.0;
    assert x > 0.0 ==> x * (1.0 - d) > 0.0;
  }

  function PowerOf(d: real, k: nat): real { if k == 0 then 1.0 else d * PowerOf(d, k - 1) }

  function MixTimes(g: Graph, d: real, t: seq<real>, r: seq<real>, k: nat): (s: seq<real>)
    requires |r| == g.n
    ensures |s| == g.n
  {
    if k == 0 then r else Mix(g, d, t, MixTimes(g, d, t, r, k - 1))
  }

  /** The iterates approach a fixed point geometrically, from any start. */
  lemma {:induction false} IteratesApproach(g: Graph, d: real, t: seq<real>, r: seq<real>, f: seq<real>, k: nat)
    requires 0.0 <= d && IsDistribution(t) && |t| == g.n == |r| && IsFixed(g, d, t, f)
    ensures Distance(MixTimes(g, d, t, r, k), f) <= PowerOf(d, k) * Distance(r, f)
  {
    hide Mix, IsDistribution, Distance;
    if k > 0 {
      IteratesApproach(g, d, t, r, f, k - 1);
      StepContracts(g, d, t, MixTimes(g, d, t, r, k - 1), f);
      Compound(d, Distance(MixTimes(g, d, t, r, k - 1), f), PowerOf(d, k - 1), Distance(r, f));
    }
  }

  lemma Compound(d: real, x: real, p: real, y: real)
    requires d >= 0.0 && x <= p * y
    ensures d * x <= d * p * y
  {
    assert d * x <= d * (p * y);
  }

  // ---- Iterates without a fixed point ------------------------------------------------------------------

  /** Two runs from different starts close in on each other geometrically. */
  lemma {:induction false} RunsApproach(g: Graph, d: real, t: seq<real>, r: seq<real>, s: seq<real>, k: nat)
    requires 0.0 <= d && IsDistribution(t) && |t| == g.n == |r| == |s|
    ensures Distance(MixTimes(g, d, t, r, k), MixTimes(g, d, t, s, k)) <= PowerOf(d, k) * Distance(r, s)
  {
    hide Mix, IsDistribution, Distance;
    if k > 0 {
      var r', s' := MixTimes(g, d, t, r, k - 1), MixTimes(g, d, t, s, k - 1);
      RunsApproach(g, d, t, r, s, k - 1);
      StepContracts(g, d, t, r', s');
      Compound(d, Distance(r', s'), PowerOf(d, k - 1), Distance(r, s));
    }
  }

  /** No number of steps leads further than the first step times 1 / (1 - d). */
  lemma {:induction false} NeverFar(g: Graph, d: real, t: seq<real>, r: seq<real>, m: nat)
    requires 0.0 <= d < 1.0 && IsDistribution(t) && |t| == g.n == |r|
    ensures Distance(MixTimes(g, d, t, r, m), r) <= Distance(Mix(g, d, t, r), r) / (1.0 - d)
  {
    hide Mix, IsDistribution, Distance;
    var next := Mix(g, d, t, r);
    DistanceNonNegative(next, r);
    if m == 0 {
      DistanceToItself(r);
      Cross(0.0, Distance(next, r), 1.0 - d);
    } else {
      var mid := MixTimes(g, d, t, r, m - 1);
      NeverFar(g, d, t, r, m - 1);
      StepContracts(g, d, t, mid, r);
      Triangle(Mix(g, d, t, mid), next, r);
      OneMore(d, Distance(next, r), Distance(mid, r));
    }
  }

  lemma DistanceToItself(r: seq<real>)
    ensures Distance(r, r) == 0.0
  {
    forall i: nat | i < |r| ensures Gap(r, r)(i) == 0.0 {
      assert Abs(r[i] - r[i]) == 0.0;
    }
    SumZero(|r|, Gap(r, r));
  }

  lemma OneMore(d: real, a: real, x: real)
    requires 0.0 <= d < 1.0 && x <= a / (1.0 - d)
    ensures d * x + a <= a / (1.0 - d)
  {
    var y := a / (1.0 - d);
    assert d * x <= d * y;
    assert (1.0 - d) * y == a;
  }

  lemma {:induction false} MixTimesAdd(g: Graph, d: real, t: seq<real>, r: seq<real>, k: nat, m: nat)
    requires |r| == g.n
    ensures MixTimes(g, d, t, r, k + m) == MixTimes(g, d, t, MixTimes(g, d, t, r, m), k)
  {
    hide Mix;
    if k > 0 {
      MixTimesAdd(g, d, t, r, k - 1, m);
    }
  }

  /** The iterates are a Cauchy sequence, from any start: all those after the k-th stay within d^k / (1 - d) times the
      first step of it. */
  lemma IteratesSettle(g: Graph, d: real, t: seq<real>, r: seq<real>, k: nat, m: nat)
    requires 0.0 <= d < 1.0 && IsDistribution(t) && |t| == g.n == |r|
    ensures Distance(MixTimes(g, d, t, r, k + m), MixTimes(g, d, t, r, k)) <= PowerOf(d, k) * (Distance(Mix(g, d, t, r), r) / (1.0 - d))
  {
    hide Mix, IsDistribution, Distance;
    var far := MixTimes(g, d, t, r, m);
    MixTimesAdd(g, d, t, r, k, m);
    RunsApproach(g, d, t, far, r, k);
    NeverFar(g, d, t, r, m);
    PowerNonNegative(d, k);
    Monotone(PowerOf(d, k), Distance(far, r), Distance(Mix(g, d, t, r), r) / (1.0 - d));
  }

  lemma {:induction false} PowerNonNegative(d: real, k: nat)
    requires d >= 0.0
    ensures PowerOf(d, k) >= 0.0
  {
    if k > 0 {
      PowerNonNegative(d, k - 1);
      Monotone(d, 0.0, PowerOf(d, k - 1));
    }
  }

  lemma Monotone(a: real, x: real, y: real)
    requires a >= 0.0 && x <= y
    ensures a * x <= a * y
  {}

  /** Stopping when a step changes the ranks by at most tol: no further steps lead beyond d * tol / (1 - d). */
  lemma ExitIsStable(g: Graph, d: real, t: seq<real>, r: seq<real>, tol: real, m: nat)
    requires 0.0 <= d < 1.0 && IsDistribution(t) && |t| == g.n == |r| && Distance(Mix(g, d, t, r), r) <= tol
    ensures var next := Mix(g, d, t, r); Distance(MixTimes(g, d, t, next, m), next) <= d * tol / (1.0 - d)
  {
    hide Mix, IsDistribution, Distance;
    var next := Mix(g, d, t, r);
    NeverFar(g, d, t, next, m);
    StepContracts(g, d, t, next, r);
    Monotone(d, Distance(next, r), tol);
    Divide(Distance(Mix(g, d, t, next), next), d * tol, 1.0 - d);
  }

  lemma Divide(x: real, y: real, k: real)
    requires k > 0.0 && x <= y
    ensures x / k <= y / k
  {}

  // ---- The step of the kernels is the step of the chain ------------------------------------------------

  function Uniform(n: nat): (t: seq<real>)
    ensures |t| == n
  {
    seq(n, _ => if n == 0 then 0.0 else 1.0 / n as real)
  }

  lemma UniformIsDistribution(n: nat)
    requires n > 0
    ensures IsDistribution(Uniform(n))
  {
    hide Blend;
    var one := (i: nat) => 1.0;
    var share := 1.0 / n as real;
    Ones(n, one);
    ScaledSum(n, share, one);
    BlendOne(share);
    SumCong(n, Scaled(share, one), Of(Uniform(n)));
    Whole(n as real);
  }

  lemma {:induction false} Ones(n: nat, one: nat -> real)
    requires forall i: nat :: one(i) == 1.0
    ensures Sum(n, one) == n as real
  {
    if n > 0 {
      Ones(n - 1, one);
    }
  }

  function Share(g: Graph, r: seq<real>, u: nat): real {
    var k := OutDeg(g.n, g.edges, u);
    if k == 0 then 0.0 else At(r, u) / k as real
  }

  /** What u sends to v along the given edges alone. */
  function Along(g: Graph, edges: seq<(nat, nat)>, r: seq<real>, v: nat): nat -> real {
    (u: nat) => Blend(Share(g, r, u), Edges(g.n, edges, u, v) as real)
  }

  lemma AlongOneMore(g: Graph, edges: seq<(nat, nat)>, r: seq<real>, v: nat, u: nat)
    requires edges != []
    ensures var e := edges[|edges| - 1];
      Along(g, edges, r, v)(u) == Along(g, edges[..|edges| - 1], r, v)(u) + if ValidEdge(g.n, e) && e == (u, v) then Share(g, r, u) else 0.0
  {
    hide Share, Blend;
    var rest := edges[..|edges| - 1];
    BlendAdd(Share(g, r, u), Edges(g.n, rest, u, v) as real, 1.0);
    BlendOne(Share(g, r, u));
  }

  lemma SourcesLast(g: Graph, edges: seq<(nat, nat)>, v: nat)
    requires edges != []
    ensures var e := edges[|edges| - 1];
      Sources(g.n, edges, v) == Sources(g.n, edges[..|edges| - 1], v) + if ValidEdge(g.n, e) && e.1 == v then [e.0] else []
  {}

  lemma InflowAppend(g: Graph, r: seq<real>, us: seq<nat>, u: nat)
    requires |r| == g.n && Givers(g, us + [u])
    ensures Givers(g, us) && Inflow(g, r, us + [u]) == Inflow(g, r, us) + Share(g, r, u)
  {
    hide OutDeg;
    var all := us + [u];
    assert all[..|us|] == us && all[|us|] == u;
    assert forall i :: 0 <= i < |us| ==> us[i] == all[i];
  }

  lemma InflowOneMore(g: Graph, edges: seq<(nat, nat)>, r: seq<real>, v: nat)
    requires |r| == g.n && edges != [] && Givers(g, Sources(g.n, edges, v))
    ensures var e := edges[|edges| - 1];
      var before := Sources(g.n, edges[..|edges| - 1], v);
      && Givers(g, before)
      && Inflow(g, r, Sources(g.n, edges, v)) == Inflow(g, r, before) + if ValidEdge(g.n, e) && e.1 == v then Share(g, r, e.0) else 0.0
  {
    hide Inflow, Share, Sources, Givers;
    var e, before := edges[|edges| - 1], Sources(g.n, edges[..|edges| - 1], v);
    SourcesLast(g, edges, v);
    if ValidEdge(g.n, e) && e.1 == v {
      InflowAppend(g, r, before, e.0);
    } else {
      assert before + [] == before;
    }
  }

  lemma AlongSumStep(g: Graph, edges: seq<(nat, nat)>, r: seq<real>, v: nat)
    requires edges != []
    ensures var e := edges[|edges| - 1];
      Sum(g.n, Along(g, edges, r, v))
        == Sum(g.n, Along(g, edges[..|edges| - 1], r, v)) + if ValidEdge(g.n, e) && e.1 == v then Share(g, r, e.0) else 0.0
  {
    hide Edges, Along, Blend, Share;
    var rest, e := edges[..|edges| - 1], edges[|edges| - 1];
    forall u: nat ensures Along(g, edges, r, v)(u)
      == Along(g, rest, r, v)(u) + if ValidEdge(g.n, e) && e == (u, v) then Share(g, r, u) else 0.0
    {
      AlongOneMore(g, edges, r, v, u);
    }
    if ValidEdge(g.n, e) && e.1 == v {
      SumChange(g.n, Along(g, rest, r, v), e.0, Share(g, r, e.0), Along(g, edges, r, v));
    } else {
      SumCong(g.n, Along(g, rest, r, v), Along(g, edges, r, v));
    }
  }

  lemma {:induction false} InflowIsSum(g: Graph, edges: seq<(nat, nat)>, r: seq<real>, v: nat)
    requires |r| == g.n && v < g.n && Givers(g, Sources(g.n, edges, v))
    ensures Inflow(g, r, Sources(g.n, edges, v)) == Sum(g.n, Along(g, edges, r, v))
    decreases |edges|
  {
    if edges == [] {
      SumZero(g.n, Along(g, edges, r, v));
    } else {
      hide Along, Share, Inflow, Sources, Givers, Sum;
      InflowOneMore(g, edges, r, v);
      InflowIsSum(g, edges[..|edges| - 1], r, v);
      AlongSumStep(g, edges, r, v);
    }
  }

  function DanglingTerms(g: Graph, r: seq<real>): nat -> real {
    (u: nat) => if OutDeg(g.n, g.edges, u) == 0 then At(r, u) else 0.0
  }

  lemma {:induction false} DanglingIsSum(g: Graph, r: seq<real>, k: nat)
    requires |r| == g.n && k <= g.n
    ensures Dangling(g, r, 0, k) == Sum(k, DanglingTerms(g, r))
  {
    if k > 0 {
      DanglingIsSum(g, r, k - 1);
      assert At(r, k - 1) == r[k - 1];
    }
  }

  lemma ArrivalKinds(g: Graph, t: seq<real>, r: seq<real>, v: nat, u: nat)
    requires |t| == g.n == |r| && v < g.n && u < g.n
    ensures Arrivals(g, t, r, v)(u) == Blend(t[v], DanglingTerms(g, r)(u)) + Along(g, g.edges, r, v)(u)
  {
    hide Edges, OutDeg;
    var k, e := OutDeg(g.n, g.edges, u), Edges(g.n, g.edges, u, v) as real;
    if k > 0 {
      Reshare(r[u], e, k as real);
    }
  }

  /** The flow into v is the dangling rank's part plus what arrives along the edges. */
  lemma FlowSplits(g: Graph, t: seq<real>, r: seq<real>, v: nat)
    requires |t| == g.n == |r| && v < g.n
    ensures Flow(g, t, r)(v) == Blend(t[v], Dangling(g, r, 0, g.n)) + Sum(g.n, Along(g, g.edges, r, v))
  {
    hide Arrivals, DanglingTerms, Along, Blend;
    DanglingIsSum(g, r, g.n);
    ScaledSum(g.n, t[v], DanglingTerms(g, r));
    forall u: nat | u < g.n
      ensures Arrivals(g, t, r, v)(u) == Scaled(t[v], DanglingTerms(g, r))(u) + Along(g, g.edges, r, v)(u)
    {
      ArrivalKinds(g, t, r, v, u);
    }
    SumAdd(g.n, Scaled(t[v], DanglingTerms(g, r)), Along(g, g.edges, r, v), Arrivals(g, t, r, v));
  }

  lemma Reshare(a: real, b: real, k: real)
    requires k > 0.0
    ensures Blend(a, Blend(1.0 / k, b)) == Blend(a / k, b)
  {
    assert a / k == a * (1.0 / k);
    assert a * ((1.0 / k) * b) == a * (1.0 / k) * b;
  }

  /** The step of the distributed run and of the CSR kernel is the chain's step with uniform teleport. */
  lemma StepIsMix(g: Graph, d: real, r: seq<real>)
    requires g.n > 0 && |r| == g.n
    ensures Step(g, d, r) == Mix(g, d, Uniform(g.n), r)
  {
    hide NodeStep, NodeMix;
    forall v: nat | v < g.n ensures Step(g, d, r)[v] == Mix(g, d, Uniform(g.n), r)[v] {
      NodeStepIsMix(g, d, r, v);
    }
    assert |Step(g, d, r)| == |Mix(g, d, Uniform(g.n), r)|;
  }

  lemma NodeStepIsMix(g: Graph, d: real, r: seq<real>, v: nat)
    requires g.n > 0 && |r| == g.n && v < g.n
    ensures NodeStep(g, d, r, v) == NodeMix(g, d, Uniform(g.n), r, v)
  {
    hide Flow, Sources, Dangling, Inflow, Blend;
    SourcesHaveOutDeg(g.n, g.edges, v);
    InflowIsSum(g, g.edges, r, v);
    FlowSplits(g, Uniform(g.n), r, v);
    Collect(g.n as real, d, Dangling(g, r, 0, g.n), Inflow(g, r, Sources(g.n, g.edges, v)));
  }

  lemma Collect(n: real, d: real, dangling: real, inflow: real)
    requires n > 0.0
    ensures (1.0 - d) / n + d * dangling / n + d * inflow
         == Blend(1.0 - d, 1.0 / n) + Blend(d, Blend(1.0 / n, dangling) + inflow)
  {
    assert d * dangling / n == d * dangling * (1.0 / n);
    assert (1.0 - d) / n == (1.0 - d) * (1.0 / n);
  }
}
