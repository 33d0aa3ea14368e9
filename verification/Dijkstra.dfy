/** Weighted shortest paths (ts/src/graph-analytics.ts): the network an edge list stands for, its walks and their costs. */
module WeightedWalks {
  datatype Arc = Arc(from: nat, to: nat, w: real)

  type Network = iset<Arc>

  ghost predicate NonNegative(net: Network) { forall a :: a in net ==> a.w >= 0.0 }

  /** The arcs lead from s to t. */
  ghost predicate IsWalk(net: Network, arcs: seq<Arc>, s: nat, t: nat) {
    if arcs == [] then s == t
    else arcs[0].from == s && arcs[0] in net && IsWalk(net, arcs[1..], arcs[0].to, t)
  }

  function Cost(arcs: seq<Arc>): real {
    if arcs == [] then 0.0 else arcs[0].w + Cost(arcs[1..])
  }

  /** Costs add up along a walk, arc by arc. */
  lemma {:induction false} CostAdds(p: seq<Arc>, q: seq<Arc>)
    ensures Cost(p + q) == Cost(p) + Cost(q)
    ensures Cost([]) == 0.0 && (|p| == 1 ==> Cost(p) == p[0].w)
  {
    if p == [] {
      assert p + q == q;
    } else {
      CostAdds(p[1..], q);
      assert (p + q)[1..] == p[1..] + q;
    }
  }

  /** The nodes a walk from s visits, both ends included. */
  function Nodes(s: nat, arcs: seq<Arc>): seq<nat>
    decreases arcs
  {
    [s] + if arcs == [] then [] else Nodes(arcs[0].to, arcs[1..])
  }

  ghost predicate Reachable(net: Network, s: nat, t: nat) { exists arcs :: IsWalk(net, arcs, s, t) }

  /** Some walk visits exactly these nodes at exactly this cost, and no walk from s to t is cheaper. */
  ghost predicate IsCheapest(net: Network, s: nat, t: nat, path: seq<nat>, cost: real) {
    && (exists arcs :: IsWalk(net, arcs, s, t) && Nodes(s, arcs) == path && Cost(arcs) == cost)
    && forall arcs :: IsWalk(net, arcs, s, t) ==> cost <= Cost(arcs)
  }
}

module Dijkstra {
  import opened Basics
  import opened WeightedWalks

  // ---- The network of an edge list ---------------------------------------------------------------

  /** What reading the weight property as a number can give. A missing property reads as NaN. */
  datatype Raw = NaN | PositiveInfinity | NegativeInfinity | Finite(value: real)

  datatype Edge = Edge(from: nat, to: nat, raw: Raw)

  predicate BelowZero(r: Raw) { r.NegativeInfinity? || (r.Finite? && r.value < 0.0) }

  /** Refused are numbers below 0 and negative infinity; a missing weight and positive infinity are not. */
  lemma NegativeMeans(x: real)
    ensures BelowZero(Finite(x)) <==> x < 0.0
    ensures BelowZero(NegativeInfinity) && !BelowZero(PositiveInfinity) && !BelowZero(NaN)
  {}

  /** A weight that is not a finite number counts as 1. */
  function Weight(r: Raw): real { if r.Finite? then r.value else 1.0 }

  ghost predicate Stands(e: Edge, undirected: bool, a: Arc) {
    a == Arc(e.from, e.to, Weight(e.raw)) || (undirected && a == Arc(e.to, e.from, Weight(e.raw)))
  }

  ghost function NetworkOf(edges: seq<Edge>, undirected: bool): Network {
    iset a, i: nat | i < |edges| && Stands(edges[i], undirected, a) :: a
  }

  /** An edge without a usable weight is an arc of weight 1, and an undirected edge is one each way. */
  lemma OneEdgeNetwork(raw: Raw)
    ensures var w := if raw.Finite? then raw.value else 1.0;
      && NetworkOf([Edge(3, 4, raw)], false) == iset{Arc(3, 4, w)}
      && NetworkOf([Edge(3, 4, raw)], true) == iset{Arc(3, 4, w), Arc(4, 3, w)}
  {
    var e, w := Edge(3, 4, raw), if raw.Finite? then raw.value else 1.0;
    assert [e][0] == e;
    forall a ensures a in NetworkOf([e], false) <==> a == Arc(3, 4, w) {
      assert a in NetworkOf([e], false) <==> Stands([e][0], false, a);
    }
    forall a ensures a in NetworkOf([e], true) <==> a == Arc(3, 4, w) || a == Arc(4, 3, w) {
      assert a in NetworkOf([e], true) <==> Stands([e][0], true, a);
    }
  }

  lemma NetworkExtends(edges: seq<Edge>, undirected: bool, e: Edge, a: Arc)
    ensures a in NetworkOf(edges + [e], undirected) <==> a in NetworkOf(edges, undirected) || Stands(e, undirected, a)
  {
    var all := edges + [e];
    if a in NetworkOf(edges, undirected) {
      var i: nat :| i < |edges| && Stands(edges[i], undirected, a);
      assert all[i] == edges[i];
    }
    if Stands(e, undirected, a) {
      assert all[|edges|] == e;
    }
  }

  lemma NetworkNonNegative(edges: seq<Edge>, undirected: bool)
    requires forall e :: e in edges ==> !BelowZero(e.raw)
    ensures NonNegative(NetworkOf(edges, undirected))
  {}

  // ---- Adjacency lists ---------------------------------------------------------------------------

  datatype Hop = Hop(to: nat, w: real)

  type Adjacency = map<nat, seq<Hop>>

  function Out(adj: Adjacency, u: nat): seq<Hop> { if u in adj then adj[u] else [] }

  function Add(adj: Adjacency, a: Arc): Adjacency { adj[a.from := Out(adj, a.from) + [Hop(a.to, a.w)]] }

  ghost predicate Lists(adj: Adjacency, net: Network) {
    forall a :: a in net <==> Hop(a.to, a.w) in Out(adj, a.from)
  }

  lemma AddHop(adj: Adjacency, a: Arc, b: Arc)
    ensures Hop(b.to, b.w) in Out(Add(adj, a), b.from) <==> Hop(b.to, b.w) in Out(adj, b.from) || a == b
  {}

  datatype Built = Built(adj: Adjacency) | Negative(at: nat)

  /** Fails at the first edge of negative weight, wherever in the graph it lies. */
  method BuildAdjacency(edges: seq<Edge>, undirected: bool) returns (b: Built)
    ensures b.Built? <==> forall e :: e in edges ==> !BelowZero(e.raw)
    ensures b.Built? ==> Lists(b.adj, NetworkOf(edges, undirected))
    ensures b.Negative? ==> b.at < |edges| && BelowZero(edges[b.at].raw) && forall i :: 0 <= i < b.at ==> !BelowZero(edges[i].raw)
  {
    hide NetworkOf, Stands, Add, Out, BelowZero;
    var adj: Adjacency := map[];
    assert Lists(adj, NetworkOf(edges[..0], undirected)) by { EmptyLists(undirected); }
    for i := 0 to |edges|
      invariant Lists(adj, NetworkOf(edges[..i], undirected))
      invariant forall j :: 0 <= j < i ==> !BelowZero(edges[j].raw)
    {
      var e := edges[i];
      if BelowZero(e.raw) {
        return Negative(i);
      }
      assert edges[..i + 1] == edges[..i] + [e];
      AddEdge(adj, edges[..i], undirected, e);
      adj := Add(adj, Arc(e.from, e.to, Weight(e.raw)));
      if undirected {
        adj := Add(adj, Arc(e.to, e.from, Weight(e.raw)));
      }
    }
    assert edges[..|edges|] == edges;
    return Built(adj);
  }

  lemma EmptyLists(undirected: bool)
    ensures Lists(map[], NetworkOf([], undirected))
  {}

  lemma AddEdge(adj: Adjacency, edges: seq<Edge>, undirected: bool, e: Edge)
    requires Lists(adj, NetworkOf(edges, undirected))
    ensures var once := Add(adj, Arc(e.from, e.to, Weight(e.raw)));
            Lists(if undirected then Add(once, Arc(e.to, e.from, Weight(e.raw))) else once, NetworkOf(edges + [e], undirected))
  {
    hide NetworkOf, Add, Out;
    var there, back := Arc(e.from, e.to, Weight(e.raw)), Arc(e.to, e.from, Weight(e.raw));
    forall b ensures b in NetworkOf(edges + [e], undirected) <==>
      Hop(b.to, b.w) in Out(if undirected then Add(Add(adj, there), back) else Add(adj, there), b.from)
    {
      NetworkExtends(edges, undirected, e, b);
      AddHop(adj, there, b);
      AddHop(Add(adj, there), back, b);
    }
  }

  // ---- What every round keeps --------------------------------------------------------------------

  ghost predicate Relaxed(dist: map<nat, real>, a: Arc) {
    a.from in dist && a.to in dist && dist[a.to] <= dist[a.from] + a.w
  }

  /** v's distance is that of its predecessor, which is final, plus one arc. */
  ghost predicate Tight(net: Network, dist: map<nat, real>, done: set<nat>, p: nat, v: nat) {
    p in done && p in dist && v in dist && exists w :: Arc(p, v, w) in net && dist[v] == dist[p] + w
  }

  ghost predicate Waiting(u: nat, hops: seq<Hop>, a: Arc) { a.from == u && Hop(a.to, a.w) in hops }

  datatype State = State(dist: map<nat, real>, prev: map<nat, nat>, done: set<nat>)

  /** The round at which a node became final. */
  type Rounds = map<nat, nat>

  ghost predicate Shape(s: nat, st: State) {
    && s in st.dist && st.dist[s] == 0.0
    && st.done <= st.dist.Keys
    && st.prev.Keys == st.dist.Keys - {s}
    && (s in st.done || (st.dist.Keys == {s} && st.done == {}))
  }

  /** Every node's predecessor became final before the node did. */
  ghost predicate Ordered(s: nat, st: State, rounds: Rounds) {
    && rounds.Keys == st.done
    && (forall v :: v in st.done ==> rounds[v] < |st.done|)
    && forall v :: v in st.done && v in st.prev ==> st.prev[v] in rounds && rounds[st.prev[v]] < rounds[v]
  }

  /** The invariant of the rounds; inside a round the arcs from u by the hops are still to be relaxed. */
  ghost predicate Inv(net: Network, s: nat, st: State, rounds: Rounds, u: nat, hops: seq<Hop>) {
    && Shape(s, st) && Ordered(s, st, rounds)
    && (forall v :: v in st.prev ==> Tight(net, st.dist, st.done, st.prev[v], v))
    && (forall a :: a in net && a.from in st.done && !Waiting(u, hops, a) ==> Relaxed(st.dist, a))
    && forall x, v :: x in st.done && v in st.dist && v !in st.done ==> st.dist[x] <= st.dist[v]
  }

  ghost predicate Latest(st: State, u: nat) {
    u in st.done && u in st.dist && forall x :: x in st.done && x in st.dist ==> st.dist[x] <= st.dist[u]
  }

  /** u is the nearest node that is not final, the smallest of the nearest ones. */
  ghost predicate IsNearest(st: State, u: nat) {
    && u in st.dist && u !in st.done
    && forall v :: v in st.dist && v !in st.done ==> st.dist[u] < st.dist[v] || (st.dist[u] == st.dist[v] && u <= v)
  }

  lemma Start(net: Network, s: nat)
    ensures Inv(net, s, State(map[s := 0.0], map[], {}), map[], s, [])
  {}

  lemma CloseOrdered(s: nat, st: State, rounds: Rounds, u: nat)
    requires Shape(s, st) && Ordered(s, st, rounds) && IsNearest(st, u)
    requires forall v :: v in st.prev ==> st.prev[v] in st.done
    ensures Shape(s, State(st.dist, st.prev, st.done + {u}))
    ensures Ordered(s, State(st.dist, st.prev, st.done + {u}), rounds[u := |st.done|])
  {
    if s !in st.done {
      assert u == s;
    }
  }

  /** Making the nearest node final; all its arcs wait. */
  lemma CloseNode(net: Network, adj: Adjacency, s: nat, st: State, rounds: Rounds, u0: nat, u: nat)
    requires Inv(net, s, st, rounds, u0, []) && Lists(adj, net) && IsNearest(st, u)
    ensures Inv(net, s, State(st.dist, st.prev, st.done + {u}), rounds[u := |st.done|], u, Out(adj, u))
    ensures Latest(State(st.dist, st.prev, st.done + {u}), u)
  {
    hide Out, Shape, Ordered, Waiting, Relaxed;
    var st' := State(st.dist, st.prev, st.done + {u});
    forall v | v in st'.prev ensures Tight(net, st'.dist, st'.done, st'.prev[v], v) {
      assert Tight(net, st.dist, st.done, st.prev[v], v);
    }
    CloseOrdered(s, st, rounds, u);
    forall a | a in net && a.from in st'.done && !Waiting(u, Out(adj, u), a) ensures Relaxed(st'.dist, a) {
      ListedWaits(net, adj, u, u0, a);
    }
  }

  lemma ListedWaits(net: Network, adj: Adjacency, u: nat, u0: nat, a: Arc)
    requires Lists(adj, net) && a in net
    ensures a.from == u ==> Waiting(u, Out(adj, u), a)
    ensures !Waiting(u0, [], a)
  {}

  function RelaxHop(st: State, u: nat, h: Hop): State
    requires u in st.dist
  {
    var nd := st.dist[u] + h.w;
    if h.to in st.done then st
    else if h.to in st.dist && st.dist[h.to] <= nd then st
    else State(st.dist[h.to := nd], st.prev[h.to := u], st.done)
  }

  lemma RelaxKeeps(net: Network, s: nat, st: State, rounds: Rounds, u: nat, h: Hop, rest: seq<Hop>)
    requires NonNegative(net) && Inv(net, s, st, rounds, u, [h] + rest) && Latest(st, u)
    requires Arc(u, h.to, h.w) in net
    ensures Inv(net, s, RelaxHop(st, u, h), rounds, u, rest) && Latest(RelaxHop(st, u, h), u)
  {
    RelaxOrdered(s, st, rounds, u, h);
    hide Shape, Ordered;
    var st' := RelaxHop(st, u, h);
    var arc := Arc(u, h.to, h.w);
    forall v | v in st'.prev ensures Tight(net, st'.dist, st'.done, st'.prev[v], v) {
      if v == h.to && st' != st {
        assert arc in net;
      } else {
        assert Tight(net, st.dist, st.done, st.prev[v], v);
      }
    }
    forall a | a in net && a.from in st'.done && !Waiting(u, rest, a) ensures Relaxed(st'.dist, a) {
      if a != arc {
        assert !Waiting(u, [h] + rest, a);
        assert Relaxed(st.dist, a);
      }
    }
  }

  lemma RelaxOrdered(s: nat, st: State, rounds: Rounds, u: nat, h: Hop)
    requires Shape(s, st) && Ordered(s, st, rounds) && u in st.done
    ensures u in st.dist && Shape(s, RelaxHop(st, u, h)) && Ordered(s, RelaxHop(st, u, h), rounds)
  {
    assert s in st.done;
  }

  // ---- The two facts that make the answer right ---------------------------------------------------

  /** A walk either stays inside the final nodes, costing at least the distance found, or costs at least the
      distance of every node that is not final. */
  lemma {:induction false} WalkCost(net: Network, s: nat, st: State, rounds: Rounds, u: nat, best: real, arcs: seq<Arc>, x: nat, t: nat, c: real)
    requires NonNegative(net) && Inv(net, s, st, rounds, u, []) && IsWalk(net, arcs, x, t)
    requires forall v :: v in st.dist && v !in st.done ==> best <= st.dist[v]
    requires c >= best || (x in st.done && c >= st.dist[x])
    ensures c + Cost(arcs) >= best || (t in st.done && c + Cost(arcs) >= st.dist[t])
    decreases arcs
  {
    hide Ordered, Tight;
    if arcs != [] {
      var a := arcs[0];
      if !(c >= best) {
        assert !Waiting(u, [], a);
        assert Relaxed(st.dist, a);
      }
      WalkCost(net, s, st, rounds, u, best, arcs[1..], a.to, t, c + a.w);
    }
  }

  lemma {:induction false} WalksStayInside(net: Network, s: nat, st: State, rounds: Rounds, u: nat, arcs: seq<Arc>, x: nat, t: nat)
    requires Inv(net, s, st, rounds, u, []) && IsWalk(net, arcs, x, t)
    requires st.dist.Keys == st.done && x in st.done
    ensures t in st.done
    decreases arcs
  {
    hide Ordered, Tight;
    if arcs != [] {
      assert !Waiting(u, [], arcs[0]);
      assert Relaxed(st.dist, arcs[0]);
      WalksStayInside(net, s, st, rounds, u, arcs[1..], arcs[0].to, t);
    }
  }

  // ---- The method --------------------------------------------------------------------------------

  /** Minimum extraction over the tentative distances, in any order. */
  method Nearest(st: State) returns (u: Option<nat>)
    ensures u.Some? ==> IsNearest(st, u.value)
    ensures u.None? ==> st.dist.Keys <= st.done
  {
    u := None;
    var rest := st.dist.Keys;
    while rest != {}
      invariant rest <= st.dist.Keys
      invariant u.None? ==> st.dist.Keys - rest <= st.done
      invariant u.Some? ==> IsNearest(State(map v | v in st.dist && v !in rest :: st.dist[v], st.prev, st.done), u.value)
    {
      var node: nat :| node in rest;
      if node !in st.done {
        if u.None? || st.dist[node] < st.dist[u.value] || (st.dist[node] == st.dist[u.value] && node < u.value) {
          u := Some(node);
        }
      }
      rest := rest - {node};
    }
  }

  /** Relaxes the arcs out of u. */
  method Relax(ghost net: Network, ghost s: nat, st0: State, ghost rounds: Rounds, u: nat, hops: seq<Hop>) returns (st: State)
    requires NonNegative(net) && Inv(net, s, st0, rounds, u, hops) && Latest(st0, u)
    requires forall i :: 0 <= i < |hops| ==> Arc(u, hops[i].to, hops[i].w) in net
    ensures Inv(net, s, st, rounds, u, []) && st.done == st0.done
    ensures forall v :: v in st.dist ==> v in st0.dist || exists i :: 0 <= i < |hops| && v == hops[i].to
  {
    hide Inv, NonNegative;
    st := st0;
    assert hops[0..] == hops;
    for i := 0 to |hops|
      invariant Inv(net, s, st, rounds, u, hops[i..]) && Latest(st, u) && st.done == st0.done && u in st.dist
      invariant forall v :: v in st.dist ==> v in st0.dist || exists j :: 0 <= j < i && v == hops[j].to
    {
      assert hops[i..] == [hops[i]] + hops[i + 1..];
      RelaxKeeps(net, s, st, rounds, u, hops[i], hops[i + 1..]);
      st := RelaxHop(st, u, hops[i]);
    }
  }

  function Reversed(p: seq<nat>): seq<nat> {
    if p == [] then [] else [p[|p| - 1]] + Reversed(p[..|p| - 1])
  }

  function Round(st: State, rounds: Rounds, v: nat): nat
    requires rounds.Keys == st.done
  {
    if v in rounds then rounds[v] else |st.done|
  }

  /** One step back along the predecessors. */
  lemma StepBack(net: Network, s: nat, st: State, rounds: Rounds, u: nat, v: nat) returns (a: Arc)
    requires Inv(net, s, st, rounds, u, []) && v in st.dist && v != s
    ensures v in st.prev && a in net && a == Arc(st.prev[v], v, a.w)
    ensures st.prev[v] in st.dist && st.dist[v] == st.dist[st.prev[v]] + a.w
    ensures rounds.Keys == st.done && Round(st, rounds, st.prev[v]) < Round(st, rounds, v)
  {
    assert Tight(net, st.dist, st.done, st.prev[v], v);
    var w :| Arc(st.prev[v], v, w) in net && st.dist[v] == st.dist[st.prev[v]] + w;
    a := Arc(st.prev[v], v, w);
  }

  predicate NoRepeats(p: seq<nat>) { forall i, j :: 0 <= i < j < |p| ==> p[i] != p[j] }

  /** The predecessors lead back to s without a repetition, along a walk of the distance found. */
  method Reconstruct(ghost net: Network, s: nat, st: State, ghost rounds: Rounds, ghost u: nat, t: nat)
    returns (path: seq<nat>, ghost arcs: seq<Arc>)
    requires Inv(net, s, st, rounds, u, []) && t in st.dist
    ensures IsWalk(net, arcs, s, t) && Nodes(s, arcs) == path && Cost(arcs) == st.dist[t] && NoRepeats(path)
  {
    hide Inv, Round;
    assert rounds.Keys == st.done && s in st.dist && st.dist[s] == 0.0 by { InvFacts(net, s, st, rounds, u); }
    var back: seq<nat> := [t];
    var cur: nat := t;
    arcs := [];
    assert Reversed([t]) == [t];
    while cur != s
      invariant cur in st.dist && |back| > 0 && back[|back| - 1] == cur
      invariant IsWalk(net, arcs, cur, t) && Cost(arcs) == st.dist[t] - st.dist[cur]
      invariant Nodes(cur, arcs) == Reversed(back)
      invariant forall i, j :: 0 <= i < j < |back| ==> Round(st, rounds, back[i]) > Round(st, rounds, back[j])
      decreases Round(st, rounds, cur)
    {
      ghost var a := StepBack(net, s, st, rounds, u, cur);
      var p := st.prev[cur];
      Prepend(net, a, arcs, cur, t);
      assert (back + [p])[..|back|] == back;
      back := back + [p];
      arcs := [a] + arcs;
      cur := p;
    }
    ReversedKeepsDistinct(back);
    path := Reversed(back);
  }

  lemma InvFacts(net: Network, s: nat, st: State, rounds: Rounds, u: nat)
    requires Inv(net, s, st, rounds, u, [])
    ensures rounds.Keys == st.done && s in st.dist && st.dist[s] == 0.0
  {}

  lemma Prepend(net: Network, a: Arc, arcs: seq<Arc>, v: nat, t: nat)
    requires IsWalk(net, arcs, v, t) && a in net && a.to == v
    ensures IsWalk(net, [a] + arcs, a.from, t) && Cost([a] + arcs) == a.w + Cost(arcs)
    ensures Nodes(a.from, [a] + arcs) == [a.from] + Nodes(v, arcs)
  {
    assert ([a] + arcs)[1..] == arcs;
  }

  lemma {:induction false} ReversedAt(p: seq<nat>, k: nat)
    requires k < |p|
    ensures |Reversed(p)| == |p| && Reversed(p)[k] == p[|p| - 1 - k]
  {
    if k > 0 {
      ReversedAt(p[..|p| - 1], k - 1);
    } else if |p| > 1 {
      ReversedAt(p[..|p| - 1], 0);
    }
  }

  lemma ReversedKeepsDistinct(p: seq<nat>)
    requires NoRepeats(p)
    ensures NoRepeats(Reversed(p))
  {
    var r := Reversed(p);
    if p != [] {
      ReversedAt(p, 0);
    }
    forall i, j | 0 <= i < j < |r| ensures r[i] != r[j] {
      ReversedAt(p, i);
      ReversedAt(p, j);
    }
  }

  datatype Answer = NoPath | Path(nodes: seq<nat>, cost: real) | NegativeWeight(at: nat)

  /** The answer for endpoints that exist. */
  ghost predicate Correct(net: Network, s: nat, t: nat, r: Answer) {
    match r
    case NoPath => !Reachable(net, s, t)
    case Path(nodes, cost) => IsCheapest(net, s, t, nodes, cost) && NoRepeats(nodes)
    case NegativeWeight(_) => false
  }

  method ShortestPathWeighted(nodes: set<nat>, edges: seq<Edge>, source: nat, target: nat, undirected: bool) returns (r: Answer)
    ensures source !in nodes || target !in nodes ==> r == NoPath
    ensures source in nodes && target in nodes ==>
      (r.NegativeWeight? <==> exists e :: e in edges && BelowZero(e.raw))
    ensures r.NegativeWeight? ==> r.at < |edges| && BelowZero(edges[r.at].raw) && forall i :: 0 <= i < r.at ==> !BelowZero(edges[i].raw)
    ensures source in nodes && target in nodes && !r.NegativeWeight? ==> Correct(NetworkOf(edges, undirected), source, target, r)
  {
    if source !in nodes || target !in nodes {
      return NoPath;
    }
    var b := BuildAdjacency(edges, undirected);
    if b.Negative? {
      return NegativeWeight(b.at);
    }
    NetworkNonNegative(edges, undirected);
    r := Search(b.adj, NetworkOf(edges, undirected), source, target);
  }

  /** Every node the search can ever meet. */
  ghost function Ends(adj: Adjacency, source: nat): set<nat> {
    {source} + set u, h | u in adj && h in adj[u] :: h.to
  }

  lemma HopsAreArcs(adj: Adjacency, net: Network, source: nat, u: nat)
    requires Lists(adj, net)
    ensures forall i :: 0 <= i < |Out(adj, u)| ==> Arc(u, Out(adj, u)[i].to, Out(adj, u)[i].w) in net
    ensures forall i :: 0 <= i < |Out(adj, u)| ==> Out(adj, u)[i].to in Ends(adj, source)
  {
    var hops := Out(adj, u);
    forall i | 0 <= i < |hops| ensures Arc(u, hops[i].to, hops[i].w) in net {
      var a := Arc(u, hops[i].to, hops[i].w);
      assert Hop(a.to, a.w) == hops[i];
      assert Hop(a.to, a.w) in Out(adj, a.from);
    }
  }

  lemma SourceIn(adj: Adjacency, source: nat)
    ensures source in Ends(adj, source)
  {}

  lemma NearestIn(st: State, u: nat)
    requires IsNearest(st, u)
    ensures u in st.dist && u !in st.done
  {}

  lemma NoPathIsRight(net: Network, s: nat, t: nat, st: State, rounds: Rounds, u: nat)
    requires Inv(net, s, st, rounds, u, []) && st.dist.Keys <= st.done && t !in st.done
    ensures !Reachable(net, s, t)
  {
    forall arcs | IsWalk(net, arcs, s, t) ensures false {
      WalksStayInside(net, s, st, rounds, u, arcs, s, t);
    }
  }

  lemma PathIsRight(net: Network, s: nat, t: nat, st: State, rounds: Rounds, u: nat, nodes: seq<nat>, arcs: seq<Arc>)
    requires NonNegative(net) && Inv(net, s, st, rounds, u, []) && IsNearest(st, t)
    requires IsWalk(net, arcs, s, t) && Nodes(s, arcs) == nodes && Cost(arcs) == st.dist[t]
    ensures IsCheapest(net, s, t, nodes, st.dist[t])
  {
    forall other | IsWalk(net, other, s, t) ensures st.dist[t] <= Cost(other) {
      WalkCost(net, s, st, rounds, u, st.dist[t], other, s, t, 0.0);
    }
  }

  /** The rounds: take the nearest node, stop at the target, relax its arcs otherwise. */
  method Search(adj: Adjacency, ghost net: Network, source: nat, target: nat) returns (r: Answer)
    requires Lists(adj, net) && NonNegative(net)
    ensures Correct(net, source, target, r)
  {
    hide Inv, NonNegative, Lists, Latest, IsNearest, Out, Ends, IsCheapest, Reachable;
    assert source in Ends(adj, source) by { SourceIn(adj, source); }
    var st := State(map[source := 0.0], map[], {});
    ghost var rounds: Rounds := map[];
    ghost var last := source;
    Start(net, source);
    ghost var ends := Ends(adj, source);
    while true
      invariant Inv(net, source, st, rounds, last, []) && target !in st.done
      invariant st.dist.Keys <= ends
      decreases |ends - st.done|
    {
      var u := Nearest(st);
      if u.None? {
        NoPathIsRight(net, source, target, st, rounds, last);
        return NoPath;
      }
      if u.value == target {
        ghost var arcs;
        var nodes: seq<nat>;
        NearestIn(st, target);
        nodes, arcs := Reconstruct(net, source, st, rounds, last, target);
        PathIsRight(net, source, target, st, rounds, last, nodes, arcs);
        return Path(nodes, st.dist[target]);
      }
      CloseNode(net, adj, source, st, rounds, last, u.value);
      NearestIn(st, u.value);
      HopsAreArcs(adj, net, source, u.value);
      rounds := rounds[u.value := |st.done|];
      last := u.value;
      ghost var before := st.done;
      st := State(st.dist, st.prev, st.done + {u.value});
      st := Relax(net, source, st, rounds, u.value, Out(adj, u.value));
      assert ends - st.done == (ends - before) - {u.value};
    }
  }
}
