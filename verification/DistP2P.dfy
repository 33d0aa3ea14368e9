/** Peer-to-peer PageRank: k workers own contiguous node ranges and send each other exactly the ranks the
    other side needs; a coordinator sums the dangling rank once per superstep, which is the barrier
    (crates/hg_analytics/examples/dist_p2p.rs, shards from crates/hg_analytics/src/boundary.rs). */
module DistP2P {
  import opened Graphs
  import opened PageRankSpec

  // ---- Shards ------------------------------------------------------------------------------------

  /** Shard c owns the nodes [bounds[c], bounds[c + 1]). */
  datatype Config = Config(g: Graph, bounds: seq<nat>, d: real, iters: nat) {
    predicate Good() {
      && g.n > 0 && |bounds| >= 2
      && bounds[0] == 0 && bounds[|bounds| - 1] == g.n
      && (forall i, j :: 0 <= i <= j < |bounds| ==> bounds[i] <= bounds[j])
    }

    function K(): nat
      requires Good()
    {
      |bounds| - 1
    }

    predicate Owns(c: nat, u: nat)
      requires Good() && c < K()
    {
      bounds[c] <= u < bounds[c + 1]
    }

    function Owned(c: nat): nat
      requires Good() && c < K()
    {
      bounds[c + 1] - bounds[c]
    }

    /** A node of another shard with an edge into this one. */
    ghost predicate IsGhost(c: nat, u: nat)
      requires Good() && c < K()
    {
      !Owns(c, u) && exists v: nat :: Owns(c, v) && u in Sources(g.n, g.edges, v)
    }

    /** The ghosts below m in ascending order. */
    ghost function GhostsBelow(c: nat, m: nat): (gs: seq<nat>)
      requires Good() && c < K() && m <= g.n
      ensures forall u: nat :: u in gs <==> u < m && IsGhost(c, u)
      ensures Ascending(gs)
    {
      if m == 0 then []
      else
        var gs := GhostsBelow(c, m - 1);
        assert forall i :: 0 <= i < |gs| ==> gs[i] in gs;
        gs + if IsGhost(c, m - 1) then [m - 1] else []
    }

    ghost function Ghosts(c: nat): (gs: seq<nat>)
      requires Good() && c < K()
      ensures forall u: nat :: u in gs <==> u < g.n && IsGhost(c, u)
      ensures Ascending(gs)
    {
      GhostsBelow(c, g.n)
    }

    /** Where shard c keeps the rank of u: owned nodes first, then ghosts. */
    ghost function LocalIndex(c: nat, u: nat): (li: nat)
      requires Good() && c < K() && (Owns(c, u) || u in Ghosts(c))
      ensures li < Owned(c) + |Ghosts(c)|
      ensures GlobalId(c, li) == u
    {
      if Owns(c, u) then u - bounds[c] else Owned(c) + IndexOf(Ghosts(c), u)
    }

    ghost function GlobalId(c: nat, li: nat): (u: nat)
      requires Good() && c < K() && li < Owned(c) + |Ghosts(c)|
      ensures u < g.n
    {
      if li < Owned(c) then bounds[c] + li
      else
        var u := Ghosts(c)[li - Owned(c)];
        assert u in Ghosts(c);
        u
    }

    lemma SourceIsLocal(c: nat, v: nat)
      requires Good() && c < K() && v < Owned(c)
      ensures forall u: nat :: u in Sources(g.n, g.edges, bounds[c] + v) ==> Owns(c, u) || u in Ghosts(c)
    {
      assert Owns(c, bounds[c] + v);
    }

    /** The local indices of the in-neighbours of the v-th owned node. */
    ghost function InAdj(c: nat, v: nat): (lis: seq<nat>)
      requires Good() && c < K() && v < Owned(c)
      ensures |lis| == |Sources(g.n, g.edges, bounds[c] + v)|
    {
      SourceIsLocal(c, v);
      var us := Sources(g.n, g.edges, bounds[c] + v);
      seq(|us|, i requires 0 <= i < |us| => LocalIndex(c, us[i]))
    }

    lemma InAdjGlobal(c: nat, v: nat)
      requires Good() && c < K() && v < Owned(c)
      ensures forall i :: 0 <= i < |InAdj(c, v)| ==>
        InAdj(c, v)[i] < Owned(c) + |Ghosts(c)| && GlobalId(c, InAdj(c, v)[i]) == Sources(g.n, g.edges, bounds[c] + v)[i]
    {
      SourceIsLocal(c, v);
      forall i | 0 <= i < |InAdj(c, v)|
        ensures InAdj(c, v)[i] < Owned(c) + |Ghosts(c)|
        ensures GlobalId(c, InAdj(c, v)[i]) == Sources(g.n, g.edges, bounds[c] + v)[i]
      {
        assert InAdj(c, v)[i] == LocalIndex(c, Sources(g.n, g.edges, bounds[c] + v)[i]);
      }
    }
  }

  predicate Ascending(s: seq<nat>) { forall i, j :: 0 <= i < j < |s| ==> s[i] < s[j] }

  function IndexOf(s: seq<nat>, u: nat): (i: nat)
    requires u in s
    ensures i < |s| && s[i] == u
  {
    if s[0] == u then 0 else 1 + IndexOf(s[1..], u)
  }

  lemma IndexOfAt(s: seq<nat>, i: nat)
    requires i < |s| && Ascending(s)
    ensures IndexOf(s, s[i]) == i
  {}

  lemma AscendingOrder(s: seq<nat>, i: nat, j: nat)
    requires i < |s| && j < |s| && Ascending(s)
    ensures s[i] < s[j] <==> i < j
  {}

  lemma HasElement(s: seq<nat>)
    requires s != []
    ensures exists u :: u in s
  {
    assert s[0] in s;
  }

  /** Every node has exactly one owner. */
  lemma OwnerExists(cfg: Config, u: nat) returns (c: nat)
    requires cfg.Good() && u < cfg.g.n
    ensures c < cfg.K() && cfg.Owns(c, u)
    ensures forall c' :: 0 <= c' < cfg.K() && cfg.Owns(c', u) ==> c' == c
  {
    c := 0;
    while !(u < cfg.bounds[c + 1])
      invariant c < cfg.K() && cfg.bounds[c] <= u
      decreases cfg.K() - c
    {
      c := c + 1;
    }
  }

  // ---- Routing tables ----------------------------------------------------------------------------

  /** The elements of s owned by shard c. */
  function OwnedBy(cfg: Config, c: nat, s: seq<nat>): (us: seq<nat>)
    requires cfg.Good() && c < cfg.K()
    ensures forall u: nat :: u in us <==> u in s && cfg.Owns(c, u)
  {
    if s == [] then [] else OwnedBy(cfg, c, s[..|s| - 1]) + if cfg.Owns(c, s[|s| - 1]) then [s[|s| - 1]] else []
  }

  lemma {:induction false} OwnedByAscending(cfg: Config, c: nat, s: seq<nat>)
    requires cfg.Good() && c < cfg.K() && Ascending(s)
    ensures Ascending(OwnedBy(cfg, c, s))
  {
    if s != [] {
      var us := OwnedBy(cfg, c, s[..|s| - 1]);
      OwnedByAscending(cfg, c, s[..|s| - 1]);
      assert forall i :: 0 <= i < |us| ==> us[i] in us;
    }
  }

  /** What c sends to d, by global id: d's ghosts that c owns. */
  ghost function Route(cfg: Config, c: nat, d: nat): (us: seq<nat>)
    requires cfg.Good() && c < cfg.K() && d < cfg.K()
    ensures Ascending(us)
    ensures forall u: nat :: u in us <==> u in cfg.Ghosts(d) && cfg.Owns(c, u)
  {
    OwnedByAscending(cfg, c, cfg.Ghosts(d));
    OwnedBy(cfg, c, cfg.Ghosts(d))
  }

  /** The owned indices c sends to d. */
  ghost function SendLocal(cfg: Config, c: nat, d: nat): (lis: seq<nat>)
    requires cfg.Good() && c < cfg.K() && d < cfg.K()
    ensures |lis| == |Route(cfg, c, d)|
    ensures forall i :: 0 <= i < |lis| ==> lis[i] < cfg.Owned(c) && cfg.bounds[c] + lis[i] == Route(cfg, c, d)[i]
  {
    var us := Route(cfg, c, d);
    assert forall i :: 0 <= i < |us| ==> us[i] in us;
    seq(|us|, i requires 0 <= i < |us| => us[i] - cfg.bounds[c])
  }

  /** The ghost positions at which c stores what d sends. */
  ghost function RecvGhost(cfg: Config, c: nat, d: nat): (gis: seq<nat>)
    requires cfg.Good() && c < cfg.K() && d < cfg.K()
    ensures |gis| == |Route(cfg, d, c)|
    ensures forall i :: 0 <= i < |gis| ==> gis[i] < |cfg.Ghosts(c)| && cfg.Ghosts(c)[gis[i]] == Route(cfg, d, c)[i]
  {
    var us := Route(cfg, d, c);
    assert forall i :: 0 <= i < |us| ==> us[i] in us;
    seq(|us|, i requires 0 <= i < |us| => IndexOf(cfg.Ghosts(c), us[i]))
  }

  /** The two tables of a pair mirror each other: the j-th value sent is the j-th value stored. */
  lemma TablesMirror(cfg: Config, c: nat, d: nat)
    requires cfg.Good() && c < cfg.K() && d < cfg.K()
    ensures |SendLocal(cfg, c, d)| == |RecvGhost(cfg, d, c)|
    ensures forall j :: 0 <= j < |SendLocal(cfg, c, d)| ==>
      cfg.bounds[c] + SendLocal(cfg, c, d)[j] == cfg.Ghosts(d)[RecvGhost(cfg, d, c)[j]]
    ensures Ascending(SendLocal(cfg, c, d)) && Ascending(RecvGhost(cfg, d, c))
    ensures c == d ==> SendLocal(cfg, c, d) == []
  {
    var gs, gis, us := cfg.Ghosts(d), RecvGhost(cfg, d, c), Route(cfg, c, d);
    forall i, j | 0 <= i < j < |gis| ensures gis[i] < gis[j] {
      AscendingOrder(gs, gis[i], gis[j]);
    }
    if c == d && us != [] {
      HasElement(us);
    }
  }

  /** Together the peers' messages fill every ghost slot. */
  lemma EveryGhostArrives(cfg: Config, c: nat, i: nat) returns (d: nat, j: nat)
    requires cfg.Good() && c < cfg.K() && i < |cfg.Ghosts(c)|
    ensures d < cfg.K() && cfg.Owns(d, cfg.Ghosts(c)[i])
    ensures j < |RecvGhost(cfg, c, d)| && RecvGhost(cfg, c, d)[j] == i
  {
    var u := cfg.Ghosts(c)[i];
    assert u in cfg.Ghosts(c);
    d := OwnerExists(cfg, u);
    var us := Route(cfg, d, c);
    assert u in us;
    j := IndexOf(us, u);
    IndexOfAt(cfg.Ghosts(c), i);
    var gi := RecvGhost(cfg, c, d)[j];
    assert cfg.Ghosts(c)[gi] == us[j] == u;
    AscendingOrder(cfg.Ghosts(c), gi, i);
    AscendingOrder(cfg.Ghosts(c), i, gi);
  }

  // ---- Worker setup ------------------------------------------------------------------------------

  /** What a worker is sent: its in-edges over local indices as offsets and neighbours, the out-degrees
      of its local nodes, and its routing tables. */
  datatype Setup = Setup(
    owned: nat, ghosts: nat, off: seq<nat>, nbr: seq<nat>, outDeg: seq<nat>,
    send: seq<seq<nat>>, recv: seq<seq<nat>>)
  {
    predicate Wellformed() {
      && |off| == owned + 1 && off[0] == 0 && off[owned] == |nbr|
      && (forall i, j :: 0 <= i <= j <= owned ==> off[i] <= off[j])
      && |outDeg| == owned + ghosts
      && (forall i :: 0 <= i < |nbr| ==> nbr[i] < owned + ghosts && outDeg[nbr[i]] > 0)
      && (forall d, i :: 0 <= d < |send| && 0 <= i < |send[d]| ==> send[d][i] < owned)
      && (forall d, i :: 0 <= d < |recv| && 0 <= i < |recv[d]| ==> recv[d][i] < ghosts)
    }

    function Neighbours(v: nat): seq<nat>
      requires Wellformed() && v < owned
    {
      nbr[off[v]..off[v + 1]]
    }

    predicate Readable(lis: seq<nat>) {
      |outDeg| == owned + ghosts && forall i :: 0 <= i < |lis| ==> lis[i] < owned + ghosts && outDeg[lis[i]] > 0
    }

    function LocalInflow(local: seq<real>, lis: seq<nat>): real
      requires |local| == owned + ghosts && Readable(lis)
    {
      if lis == [] then 0.0
      else
        var li := lis[|lis| - 1];
        LocalInflow(local, lis[..|lis| - 1]) + local[li] / outDeg[li] as real
    }

    function NewRank(d: real, local: seq<real>, add: real, v: nat): real
      requires Wellformed() && |local| == owned + ghosts && v < owned
    {
      add + d * LocalInflow(local, Neighbours(v))
    }

    /** The owned ranks after one superstep. */
    function NewOwned(d: real, local: seq<real>, add: real): (r: seq<real>)
      requires Wellformed() && |local| == owned + ghosts
      ensures |r| == owned && forall v :: 0 <= v < owned ==> r[v] == NewRank(d, local, add, v)
    {
      seq(owned, v requires 0 <= v < owned => NewRank(d, local, add, v))
    }

    /** The rank of the first k owned nodes without out-edges. */
    function DanglingOf(r: seq<real>, k: nat): real
      requires Wellformed() && k <= owned == |r|
    {
      if k == 0 then 0.0 else DanglingOf(r, k - 1) + if outDeg[k - 1] == 0 then r[k - 1] else 0.0
    }

    /** The message for peer d. */
    function Outgoing(r: seq<real>, d: nat): (vals: seq<real>)
      requires Wellformed() && |r| == owned && d < |send|
      ensures |vals| == |send[d]| && forall i :: 0 <= i < |vals| ==> vals[i] == r[send[d][i]]
    {
      seq(|send[d]|, i requires 0 <= i < |send[d]| => r[send[d][i]])
    }

    /** The local view after storing the first k values of peer d's message. */
    function Scatter(local: seq<real>, d: nat, vals: seq<real>, k: nat): (local': seq<real>)
      requires Wellformed() && |local| == owned + ghosts && d < |recv| && k <= |recv[d]| <= |vals|
      ensures |local'| == |local|
    {
      if k == 0 then local else Scatter(local, d, vals, k - 1)[owned + recv[d][k - 1] := vals[k - 1]]
    }

    lemma {:induction false} ScatterFacts(local: seq<real>, d: nat, vals: seq<real>, k: nat)
      requires Wellformed() && |local| == owned + ghosts && d < |recv| && k <= |recv[d]| <= |vals|
      requires Ascending(recv[d])
      ensures forall j :: 0 <= j < k ==> Scatter(local, d, vals, k)[owned + recv[d][j]] == vals[j]
      ensures forall li :: 0 <= li < |local| && (forall j :: 0 <= j < k ==> li != owned + recv[d][j])
                ==> Scatter(local, d, vals, k)[li] == local[li]
    {
      if k != 0 {
        ScatterFacts(local, d, vals, k - 1);
      }
    }
  }

  /** `s` is the setup of worker c. */
  ghost predicate SetupFor(cfg: Config, c: nat, s: Setup)
    requires cfg.Good() && c < cfg.K()
  {
    && s.Wellformed()
    && s.owned == cfg.Owned(c) && s.ghosts == |cfg.Ghosts(c)|
    && (forall v :: 0 <= v < s.owned ==> s.Neighbours(v) == cfg.InAdj(c, v))
    && (forall li :: 0 <= li < s.owned + s.ghosts ==> s.outDeg[li] == OutDeg(cfg.g.n, cfg.g.edges, cfg.GlobalId(c, li)))
    && |s.send| == |s.recv| == cfg.K()
    && (forall d :: 0 <= d < cfg.K() ==> s.send[d] == SendLocal(cfg, c, d) && s.recv[d] == RecvGhost(cfg, c, d))
  }

  /** `local` holds, at every local index, the rank of its node. */
  ghost predicate Mirrors(cfg: Config, c: nat, local: seq<real>, r: seq<real>)
    requires cfg.Good() && c < cfg.K() && |r| == cfg.g.n
  {
    && |local| == cfg.Owned(c) + |cfg.Ghosts(c)|
    && forall li :: 0 <= li < |local| ==> local[li] == r[cfg.GlobalId(c, li)]
  }

  lemma {:induction false} InflowAgrees(cfg: Config, c: nat, s: Setup, local: seq<real>, r: seq<real>, lis: seq<nat>, us: seq<nat>)
    requires cfg.Good() && c < cfg.K() && SetupFor(cfg, c, s) && |r| == cfg.g.n && Mirrors(cfg, c, local, r)
    requires |lis| == |us| && s.Readable(lis) && Givers(cfg.g, us)
    requires forall i :: 0 <= i < |us| ==> cfg.GlobalId(c, lis[i]) == us[i]
    ensures s.LocalInflow(local, lis) == Inflow(cfg.g, r, us)
    decreases |us|
  {
    if us != [] {
      InflowAgrees(cfg, c, s, local, r, lis[..|lis| - 1], us[..|us| - 1]);
    }
  }

  ghost function Slice(cfg: Config, c: nat, r: seq<real>): seq<real>
    requires cfg.Good() && c < cfg.K() && |r| == cfg.g.n
  {
    r[cfg.bounds[c]..cfg.bounds[c + 1]]
  }

  lemma NewRankIsNodeStep(cfg: Config, c: nat, s: Setup, local: seq<real>, r: seq<real>, v: nat)
    requires cfg.Good() && c < cfg.K() && SetupFor(cfg, c, s) && |r| == cfg.g.n && Mirrors(cfg, c, local, r)
    requires v < s.owned
    ensures s.NewRank(cfg.d, local, Teleport(cfg.g, cfg.d, r), v) == NodeStep(cfg.g, cfg.d, r, cfg.bounds[c] + v)
  {
    hide Teleport, Sources, Dangling, OutDeg, Inflow, Setup.LocalInflow, Config.InAdj, Config.Ghosts, Config.GlobalId, Ascending, Mirrors;
    SourcesHaveOutDeg(cfg.g.n, cfg.g.edges, cfg.bounds[c] + v);
    cfg.InAdjGlobal(c, v);
    assert s.Neighbours(v) == cfg.InAdj(c, v);
    InflowAgrees(cfg, c, s, local, r, s.Neighbours(v), Sources(cfg.g.n, cfg.g.edges, cfg.bounds[c] + v));
  }

  /** A superstep on a faithful local view is the owned slice of the single-graph step. */
  lemma NewOwnedIsStep(cfg: Config, c: nat, s: Setup, local: seq<real>, r: seq<real>)
    requires cfg.Good() && c < cfg.K() && SetupFor(cfg, c, s) && |r| == cfg.g.n && Mirrors(cfg, c, local, r)
    ensures s.NewOwned(cfg.d, local, Teleport(cfg.g, cfg.d, r)) == Slice(cfg, c, Step(cfg.g, cfg.d, r))
  {
    hide Teleport, NodeStep, Setup.NewRank;
    forall v | 0 <= v < s.owned
      ensures s.NewRank(cfg.d, local, Teleport(cfg.g, cfg.d, r), v) == NodeStep(cfg.g, cfg.d, r, cfg.bounds[c] + v)
    {
      NewRankIsNodeStep(cfg, c, s, local, r, v);
    }
  }

  lemma {:induction false} DanglingAgrees(cfg: Config, c: nat, s: Setup, r: seq<real>, k: nat)
    requires cfg.Good() && c < cfg.K() && SetupFor(cfg, c, s) && |r| == cfg.g.n && k <= s.owned
    ensures s.DanglingOf(Slice(cfg, c, r), k) == Dangling(cfg.g, r, cfg.bounds[c], cfg.bounds[c] + k)
  {
    if k != 0 {
      DanglingAgrees(cfg, c, s, r, k - 1);
      assert cfg.GlobalId(c, k - 1) == cfg.bounds[c] + (k - 1);
    }
  }
}
