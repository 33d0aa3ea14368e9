/** The loops behind the protocol's steps: building the shards and the setups, and a worker's superstep
    over its rank buffers (crates/hg_analytics/src/boundary.rs, crates/hg_analytics/examples/dist_p2p.rs). */
module DistWorker {
  import opened Basics
  import opened Graphs
  import opened PageRankSpec
  import opened DistP2P

  // ---- A worker's superstep ----------------------------------------------------------------------

  /** Copies the owned ranks into the local view, overwrites every owned rank from that view, and sums the
      new ranks of the dangling nodes. */
  method ComputeSuperstep(s: Setup, d: real, ownedRank: array<real>, localRank: array<real>, add: real)
    returns (partial: real)
    requires s.Wellformed() && ownedRank.Length == s.owned && localRank.Length == s.owned + s.ghosts
    requires ownedRank != localRank
    modifies ownedRank, localRank
    ensures localRank[..] == old(ownedRank[..]) + old(localRank[s.owned..])
    ensures ownedRank[..] == s.NewOwned(d, localRank[..], add)
    ensures partial == s.DanglingOf(ownedRank[..], s.owned)
  {
    CopyOwned(ownedRank, localRank);
    partial := ComputeOwned(s, d, ownedRank, localRank, add);
  }

  method CopyOwned(ownedRank: array<real>, localRank: array<real>)
    requires ownedRank.Length <= localRank.Length && ownedRank != localRank
    modifies localRank
    ensures localRank[..] == ownedRank[..] + old(localRank[ownedRank.Length..])
  {
    for v := 0 to ownedRank.Length
      invariant localRank[..v] == ownedRank[..v]
      invariant localRank[v..] == old(localRank[v..])
    {
      localRank[v] := ownedRank[v];
    }
    assert localRank[..] == localRank[..ownedRank.Length] + localRank[ownedRank.Length..];
  }

  method ComputeOwned(s: Setup, d: real, ownedRank: array<real>, localRank: array<real>, add: real)
    returns (partial: real)
    requires s.Wellformed() && ownedRank.Length == s.owned && localRank.Length == s.owned + s.ghosts
    requires ownedRank != localRank
    modifies ownedRank
    ensures ownedRank[..] == s.NewOwned(d, localRank[..], add)
    ensures partial == s.DanglingOf(ownedRank[..], s.owned)
  {
    hide Setup.LocalInflow;
    ghost var local := localRank[..];
    ghost var result := s.NewOwned(d, local, add);
    partial := 0.0;
    for v := 0 to s.owned
      invariant localRank[..] == local
      invariant forall i :: 0 <= i < v ==> ownedRank[i] == result[i]
      invariant partial == s.DanglingOf(result, v)
    {
      var acc := SumNeighbours(s, localRank, v);
      ownedRank[v] := add + d * acc;
      assert ownedRank[v] == s.NewRank(d, local, add, v) == result[v];
      if s.outDeg[v] == 0 {
        partial := partial + ownedRank[v];
      }
    }
    assert ownedRank[..] == result;
  }

  method SumNeighbours(s: Setup, localRank: array<real>, v: nat) returns (acc: real)
    requires s.Wellformed() && localRank.Length == s.owned + s.ghosts && v < s.owned
    ensures acc == s.LocalInflow(localRank[..], s.Neighbours(v))
  {
    ghost var lis := s.Neighbours(v);
    acc := 0.0;
    for i := s.off[v] to s.off[v + 1]
      invariant acc == s.LocalInflow(localRank[..], lis[..i - s.off[v]])
    {
      var li := s.nbr[i];
      assert lis[..i + 1 - s.off[v]][..i - s.off[v]] == lis[..i - s.off[v]];
      acc := acc + localRank[li] / s.outDeg[li] as real;
    }
    assert lis[..s.off[v + 1] - s.off[v]] == lis;
  }

  /** Stores peer src's message in the ghost slots its table names. */
  method StoreMessage(s: Setup, src: nat, vals: seq<real>, localRank: array<real>)
    requires s.Wellformed() && localRank.Length == s.owned + s.ghosts && src < |s.recv| && |vals| == |s.recv[src]|
    modifies localRank
    ensures localRank[..] == s.Scatter(old(localRank[..]), src, vals, |vals|)
  {
    for k := 0 to |s.recv[src]|
      invariant localRank[..] == s.Scatter(old(localRank[..]), src, vals, k)
    {
      localRank[s.owned + s.recv[src][k]] := vals[k];
    }
  }

  // ---- Shards ------------------------------------------------------------------------------------

  datatype Shard = Shard(lo: nat, hi: nat, ghosts: seq<nat>, inAdj: seq<seq<nat>>)

  ghost predicate ShardFor(cfg: Config, c: nat, sh: Shard)
    requires cfg.Good() && c < cfg.K()
  {
    && sh.lo == cfg.bounds[c] && sh.hi == cfg.bounds[c + 1]
    && sh.ghosts == cfg.Ghosts(c)
    && |sh.inAdj| == cfg.Owned(c) && forall v :: 0 <= v < |sh.inAdj| ==> sh.inAdj[v] == cfg.InAdj(c, v)
  }

  /** What a binary search for v in the sorted bounds may answer, turned into a shard number: any position
      that holds v, capped at the last shard, or the one before the insertion point. */
  predicate SearchAnswer(cfg: Config, v: nat, c: nat)
    requires cfg.Good()
  {
    if v in cfg.bounds then exists i :: 0 <= i < |cfg.bounds| && cfg.bounds[i] == v && c == if i < cfg.K() then i else cfg.K() - 1
    else c < cfg.K() && cfg.bounds[c] < v < cfg.bounds[c + 1]
  }

  /** No shard but the last ones may be empty: a bound below n is not repeated. */
  predicate NoEmptyShard(cfg: Config)
    requires cfg.Good()
  {
    forall c :: 0 <= c < cfg.K() ==> cfg.bounds[c] < cfg.bounds[c + 1] || cfg.bounds[c] == cfg.g.n
  }

  /** The search finds the owner of every node exactly when no bound below n is repeated; the source only
      asks for non-decreasing bounds. */
  lemma SearchFindsOwner(cfg: Config)
    requires cfg.Good()
    ensures (forall v, c :: 0 <= v < cfg.g.n && 0 <= c < cfg.K() && SearchAnswer(cfg, v, c) ==> cfg.Owns(c, v))
        <==> NoEmptyShard(cfg)
  {
    if NoEmptyShard(cfg) {
      forall v, c | 0 <= v < cfg.g.n && 0 <= c < cfg.K() && SearchAnswer(cfg, v, c) ensures cfg.Owns(c, v) {
        if v in cfg.bounds {
          var i :| 0 <= i < |cfg.bounds| && cfg.bounds[i] == v && c == if i < cfg.K() then i else cfg.K() - 1;
          assert i < cfg.K();
        }
      }
    } else {
      var c :| 0 <= c < cfg.K() && !(cfg.bounds[c] < cfg.bounds[c + 1] || cfg.bounds[c] == cfg.g.n);
      assert cfg.bounds[c] in cfg.bounds;
      assert SearchAnswer(cfg, cfg.bounds[c], c) && !cfg.Owns(c, cfg.bounds[c]);
    }
  }

  /** Two nodes and the bounds 0, 0, 1: the search for node 0 may answer the empty first shard, which does not own it. */
  lemma RepeatedBoundMisleads(g: Graph, d: real, iters: nat)
    requires g.n == 1
    ensures var cfg := Config(g, [0, 0, 1], d, iters); cfg.Good() && SearchAnswer(cfg, 0, 0) && !cfg.Owns(0, 0) && cfg.Owns(1, 0)
  {
    var cfg := Config(g, [0, 0, 1], d, iters);
    assert cfg.bounds[0] == 0;
  }

  /** Bounds for k shards of equal size, the last one shorter. */
  function RangeBounds(n: nat, k: nat): (bounds: seq<nat>)
    requires 0 < k <= n
  {
    var size := (n + k - 1) / k;
    seq(k + 1, c requires 0 <= c <= k => Min(c * size, n))
  }

  /** Shards of equal size have bounds that the search answers rightly. */
  lemma RangeBoundsFit(cfg: Config, k: nat)
    requires 0 < k <= cfg.g.n && cfg.bounds == RangeBounds(cfg.g.n, k)
    ensures cfg.Good() && cfg.K() == k && NoEmptyShard(cfg)
  {
    var n := cfg.g.n;
    var size := (n + k - 1) / k;
    Covered(n, k);
    assert forall c :: 0 <= c <= k ==> cfg.bounds[c] == Min(c * size, n);
    forall i, j | 0 <= i <= j < |cfg.bounds| ensures cfg.bounds[i] <= cfg.bounds[j] {
      Scales(i, j, size);
    }
    forall c | 0 <= c < k ensures cfg.bounds[c] < cfg.bounds[c + 1] || cfg.bounds[c] == n {
      assert (c + 1) * size == c * size + size;
    }
  }

  lemma Covered(n: nat, k: nat)
    requires 0 < k <= n
    ensures (n + k - 1) / k >= 1 && k * ((n + k - 1) / k) >= n
  {}

  lemma Scales(i: nat, j: nat, size: nat)
    requires i <= j
    ensures i * size <= j * size
  {}

  /** Any answer the search may give. */
  method FindOwner(cfg: Config, v: nat) returns (c: nat)
    requires cfg.Good() && v < cfg.g.n
    ensures c < cfg.K() && SearchAnswer(cfg, v, c)
  {
    SearchAnswers(cfg, v);
    c :| c < cfg.K() && SearchAnswer(cfg, v, c);
  }

  /** The block of the answer starts at the node or before it, so the node's place in the block exists exactly when the
      block owns the node. */
  lemma AnswerBelow(cfg: Config, v: nat, c: nat)
    requires cfg.Good() && v < cfg.g.n && c < cfg.K() && SearchAnswer(cfg, v, c)
    ensures cfg.bounds[c] <= v && (v - cfg.bounds[c] < cfg.Owned(c) <==> cfg.Owns(c, v))
  {}

  lemma SearchAnswers(cfg: Config, v: nat)
    requires cfg.Good() && v < cfg.g.n
    ensures exists c: nat :: c < cfg.K() && SearchAnswer(cfg, v, c)
  {
    if v in cfg.bounds {
      var i: nat :| i < |cfg.bounds| && cfg.bounds[i] == v;
      assert SearchAnswer(cfg, v, i);
    } else {
      var c := OwnerExists(cfg, v);
      assert cfg.bounds[c] in cfg.bounds;
      assert SearchAnswer(cfg, v, c);
    }
  }

  /** The elements of s below n, ascending: what iterating over an ordered set yields. */
  function AscendingList(s: set<nat>, n: nat): (us: seq<nat>)
    ensures Ascending(us)
    ensures forall u: nat :: u in us <==> u in s && u < n
  {
    if n == 0 then []
    else
      var us := AscendingList(s, n - 1);
      assert forall i :: 0 <= i < |us| ==> us[i] in us;
      if n - 1 in s then us + [n - 1] else us
  }

  lemma {:induction false} ListsGhosts(cfg: Config, c: nat, s: set<nat>, m: nat)
    requires cfg.Good() && c < cfg.K() && m <= cfg.g.n
    requires forall u: nat :: u < m ==> (u in s <==> cfg.IsGhost(c, u))
    ensures AscendingList(s, m) == cfg.GhostsBelow(c, m)
  {
    hide Config.IsGhost, Ascending;
    if m != 0 {
      ListsGhosts(cfg, c, s, m - 1);
    }
  }

  /** The local index of source u in a shard. */
  function Renumbered(lo: nat, hi: nat, ghosts: seq<nat>, u: nat): nat
    requires lo <= hi && (lo <= u < hi || u in ghosts)
  {
    if lo <= u < hi then u - lo else hi - lo + IndexOf(ghosts, u)
  }

  lemma FullGhostSet(cfg: Config, c: nat, raw: seq<seq<nat>>, s: set<nat>)
    requires cfg.Good() && c < cfg.K() && |raw| == cfg.g.n && GhostSet(cfg, c, raw, s)
    requires forall v :: 0 <= v < cfg.g.n ==> raw[v] == Sources(cfg.g.n, cfg.g.edges, v)
    ensures forall u: nat :: u in s <==> cfg.IsGhost(c, u)
  {
    hide Sources;
    forall u: nat ensures u in s <==> cfg.IsGhost(c, u) {
      if u in s {
        var v: nat :| cfg.Owns(c, v) && u in raw[v];
        assert u in Sources(cfg.g.n, cfg.g.edges, v);
      }
      if cfg.IsGhost(c, u) {
        var v: nat :| cfg.Owns(c, v) && u in Sources(cfg.g.n, cfg.g.edges, v);
        assert u in raw[v];
      }
    }
  }

  method RenumberSources(cfg: Config, c: nat, v: nat, us: seq<nat>, ghosts: seq<nat>) returns (lis: seq<nat>)
    requires cfg.Good() && c < cfg.K() && v < cfg.Owned(c)
    requires us == Sources(cfg.g.n, cfg.g.edges, cfg.bounds[c] + v) && ghosts == cfg.Ghosts(c)
    ensures lis == cfg.InAdj(c, v)
  {
    hide Config.IsGhost, Ascending, Sources;
    var lo, hi := cfg.bounds[c], cfg.bounds[c + 1];
    cfg.SourceIsLocal(c, v);
    lis := seq(|us|, i requires 0 <= i < |us| => Renumbered(lo, hi, ghosts, us[i]));
  }

  method MakeShard(cfg: Config, c: nat, raw: seq<seq<nat>>, ghostSet: set<nat>) returns (sh: Shard)
    requires cfg.Good() && c < cfg.K() && |raw| == cfg.g.n && GhostSet(cfg, c, raw, ghostSet)
    requires forall v :: 0 <= v < cfg.g.n ==> raw[v] == Sources(cfg.g.n, cfg.g.edges, v)
    ensures ShardFor(cfg, c, sh)
  {
    var lo, hi := cfg.bounds[c], cfg.bounds[c + 1];
    var ghosts := AscendingList(ghostSet, cfg.g.n);
    hide Config.IsGhost, Ascending, GhostSet, Config.Owns, Sources, AscendingList;
    FullGhostSet(cfg, c, raw, ghostSet);
    ListsGhosts(cfg, c, ghostSet, cfg.g.n);
    var inAdj: seq<seq<nat>> := [];
    for v := 0 to hi - lo
      invariant |inAdj| == v && forall w :: 0 <= w < v ==> inAdj[w] == cfg.InAdj(c, w)
    {
      var lis := RenumberSources(cfg, c, v, raw[lo + v], ghosts);
      inAdj := inAdj + [lis];
    }
    return Shard(lo, hi, ghosts, inAdj);
  }

  /** The edge's target is a node for which the search may answer a block that does not own it. */
  ghost predicate Misplaced(cfg: Config, e: (nat, nat))
    requires cfg.Good()
  {
    e.0 < cfg.g.n && e.1 < cfg.g.n && exists c: nat :: c < cfg.K() && SearchAnswer(cfg, e.1, c) && !cfg.Owns(c, e.1)
  }

  lemma IsMisplaced(cfg: Config, e: (nat, nat), c: nat)
    requires cfg.Good() && e.0 < cfg.g.n && e.1 < cfg.g.n && c < cfg.K() && SearchAnswer(cfg, e.1, c) && !cfg.Owns(c, e.1)
    ensures Misplaced(cfg, e)
  {}

  lemma NoneMisplaced(cfg: Config, e: (nat, nat))
    requires cfg.Good() && NoEmptyShard(cfg)
    ensures !Misplaced(cfg, e)
  {
    SearchFindsOwner(cfg);
  }

  datatype Partition = Partition(shards: seq<Shard>, outDeg: seq<nat>)

  ghost predicate IsPartition(cfg: Config, p: Partition)
    requires cfg.Good()
  {
    && |p.shards| == cfg.K() && (forall c :: 0 <= c < cfg.K() ==> ShardFor(cfg, c, p.shards[c]))
    && |p.outDeg| == cfg.g.n && forall u :: 0 <= u < cfg.g.n ==> p.outDeg[u] == OutDeg(cfg.g.n, cfg.g.edges, u)
  }

  /** Splits the edges over the shards: per owned node its sources in input order, per shard the distinct
      foreign sources; then renumbers the sources locally. Nothing comes out when an edge's target lies outside the
      block found for it, which is an index out of range. */
  method PartitionEdges(cfg: Config) returns (r: Option<Partition>)
    requires cfg.Good()
    ensures r.Some? ==> IsPartition(cfg, r.value)
    ensures r.None? ==> exists i :: 0 <= i < |cfg.g.edges| && Misplaced(cfg, cfg.g.edges[i])
    ensures NoEmptyShard(cfg) ==> r.Some?
  {
    hide SearchAnswer, NoEmptyShard, ShardFor, GhostSet, Misplaced;
    var n, edges := cfg.g.n, cfg.g.edges;
    var outDeg: seq<nat> := seq(n, _ => 0);
    var raw: seq<seq<nat>> := seq(n, _ => []);  // the sources of node v; the shard blocks in sequence
    var ghostSets: seq<set<nat>> := seq(cfg.K(), _ => {});
    NoGhosts(cfg, raw);
    for i := 0 to |edges|
      invariant |outDeg| == |raw| == n && |ghostSets| == cfg.K()
      invariant forall u :: 0 <= u < n ==> outDeg[u] == OutDeg(n, edges[..i], u)
      invariant forall v :: 0 <= v < n ==> raw[v] == Sources(n, edges[..i], v)
      invariant forall c :: 0 <= c < cfg.K() ==> GhostSet(cfg, c, raw, ghostSets[c])
    {
      var (u, v) := edges[i];
      assert edges[..i + 1][..i] == edges[..i];
      if u < n && v < n {
        outDeg := outDeg[u := outDeg[u] + 1];
        var c := FindOwner(cfg, v);
        AnswerBelow(cfg, v, c);
        if v - cfg.bounds[c] >= cfg.Owned(c) {
          IsMisplaced(cfg, edges[i], c);
          if NoEmptyShard(cfg) {
            NoneMisplaced(cfg, edges[i]);
          }
          return None;
        }
        forall d | 0 <= d < cfg.K()
          ensures GhostSet(cfg, d, raw[v := raw[v] + [u]], if d == c && !cfg.Owns(c, u) then ghostSets[d] + {u} else ghostSets[d])
        {
          GhostSetStep(cfg, d, raw, ghostSets[d], c, u, v);
        }
        raw := raw[v := raw[v] + [u]];
        if u < cfg.bounds[c] || u >= cfg.bounds[c + 1] {
          ghostSets := ghostSets[c := ghostSets[c] + {u}];
        }
      }
    }
    assert edges[..|edges|] == edges;
    var shards := MakeShards(cfg, raw, ghostSets);
    return Some(Partition(shards, outDeg));
  }

  method MakeShards(cfg: Config, raw: seq<seq<nat>>, ghostSets: seq<set<nat>>) returns (shards: seq<Shard>)
    requires cfg.Good() && |raw| == cfg.g.n && |ghostSets| == cfg.K()
    requires forall v :: 0 <= v < cfg.g.n ==> raw[v] == Sources(cfg.g.n, cfg.g.edges, v)
    requires forall c :: 0 <= c < cfg.K() ==> GhostSet(cfg, c, raw, ghostSets[c])
    ensures |shards| == cfg.K() && forall c :: 0 <= c < cfg.K() ==> ShardFor(cfg, c, shards[c])
  {
    hide ShardFor, GhostSet;
    shards := [];
    for c := 0 to cfg.K()
      invariant |shards| == c && forall d :: 0 <= d < c ==> ShardFor(cfg, d, shards[d])
    {
      var sh := MakeShard(cfg, c, raw, ghostSets[c]);
      shards := shards + [sh];
    }
  }

  /** `s` holds the foreign sources that the lists of shard c's nodes mention. */
  ghost predicate GhostSet(cfg: Config, c: nat, raw: seq<seq<nat>>, s: set<nat>)
    requires cfg.Good() && c < cfg.K() && |raw| == cfg.g.n
  {
    forall u: nat :: u in s <==> !cfg.Owns(c, u) && exists v: nat :: cfg.Owns(c, v) && u in raw[v]
  }

  lemma NoGhosts(cfg: Config, raw: seq<seq<nat>>)
    requires cfg.Good() && |raw| == cfg.g.n && forall v :: 0 <= v < |raw| ==> raw[v] == []
    ensures forall c: nat :: c < cfg.K() ==> GhostSet(cfg, c, raw, {})
  {}

  lemma GhostSetStep(cfg: Config, d: nat, raw: seq<seq<nat>>, s: set<nat>, c: nat, u: nat, v: nat)
    requires cfg.Good() && c < cfg.K() && d < cfg.K() && |raw| == cfg.g.n && v < cfg.g.n && cfg.Owns(c, v)
    requires GhostSet(cfg, d, raw, s)
    ensures GhostSet(cfg, d, raw[v := raw[v] + [u]], if d == c && !cfg.Owns(c, u) then s + {u} else s)
  {
    var raw' := raw[v := raw[v] + [u]];
    var s' := if d == c && !cfg.Owns(c, u) then s + {u} else s;
    forall x: nat ensures x in s' <==> !cfg.Owns(d, x) && exists w: nat :: cfg.Owns(d, w) && x in raw'[w] {
      if x in s {
        var w: nat :| cfg.Owns(d, w) && x in raw[w];
        assert x in raw'[w];
      } else if x in s' {
        assert x in raw'[v];
      }
    }
  }

  // ---- Setups ------------------------------------------------------------------------------------

  /** The setup of worker c: offsets and neighbours of its in-edges, out-degrees of its local nodes, and for
      every peer what to send it and where to store what it sends. The tables come out ascending
      (TablesMirror), so the source's sorting leaves them as they are. */
  method BuildSetup(cfg: Config, shards: seq<Shard>, outDeg: seq<nat>, c: nat) returns (s: Setup)
    requires cfg.Good() && c < cfg.K()
    requires |shards| == cfg.K() && forall d :: 0 <= d < cfg.K() ==> ShardFor(cfg, d, shards[d])
    requires |outDeg| == cfg.g.n && forall u :: 0 <= u < cfg.g.n ==> outDeg[u] == OutDeg(cfg.g.n, cfg.g.edges, u)
    ensures SetupFor(cfg, c, s)
  {
    hide Config.IsGhost, Sources, OutDeg, Ascending;
    var sh := shards[c];
    assert ShardFor(cfg, c, sh);
    var off, flat := Flatten(sh.inAdj);
    var odl: seq<nat> := outDeg[sh.lo..sh.hi];
    for i := 0 to |sh.ghosts|
      invariant |odl| == sh.hi - sh.lo + i
      invariant forall li :: 0 <= li < |odl| ==> odl[li] == OutDeg(cfg.g.n, cfg.g.edges, cfg.GlobalId(c, li))
    {
      assert sh.ghosts[i] in cfg.Ghosts(c);
      odl := odl + [outDeg[sh.ghosts[i]]];
    }
    var send, recv := BuildTables(cfg, shards, c);
    s := Setup(sh.hi - sh.lo, |sh.ghosts|, off, flat, odl, send, recv);
    NeighboursInRange(cfg, c, off, flat, sh.inAdj);
    forall i | 0 <= i < |flat| ensures flat[i] < s.owned + s.ghosts && odl[flat[i]] > 0 {
      assert flat[i] < s.owned + s.ghosts;
    }
    forall d | 0 <= d < cfg.K() ensures send[d] == SendLocal(cfg, c, d) && recv[d] == RecvGhost(cfg, c, d) {}
    forall v | 0 <= v < s.owned ensures s.nbr[s.off[v]..s.off[v + 1]] == cfg.InAdj(c, v) {
      assert IsBlock(off, flat, sh.inAdj, v);
    }
    assert s.Wellformed();
  }

  /** List v is the block of `flat` between its offset and the next. */
  ghost predicate IsBlock(off: seq<nat>, flat: seq<nat>, lists: seq<seq<nat>>, v: nat)
    requires v < |lists| && |off| == |lists| + 1
  {
    off[v] <= off[v + 1] <= |flat| && flat[off[v]..off[v + 1]] == lists[v]
  }

  method Offsets(lists: seq<seq<nat>>) returns (off: seq<nat>)
    ensures |off| == |lists| + 1 && off[0] == 0
    ensures forall v :: 0 <= v < |lists| ==> off[v + 1] == off[v] + |lists[v]|
    ensures forall i, j :: 0 <= i <= j <= |lists| ==> off[i] <= off[j]
  {
    off := [0];
    for i := 0 to |lists|
      invariant |off| == i + 1 && off[0] == 0
      invariant forall v :: 0 <= v < i ==> off[v + 1] == off[v] + |lists[v]|
      invariant forall v, w :: 0 <= v <= w <= i ==> off[v] <= off[w]
    {
      off := off + [off[i] + |lists[i]|];
    }
  }

  /** Offsets and concatenation of the lists. */
  method Flatten(lists: seq<seq<nat>>) returns (off: seq<nat>, flat: seq<nat>)
    ensures |off| == |lists| + 1 && off[0] == 0 && off[|lists|] == |flat|
    ensures forall i, j :: 0 <= i <= j <= |lists| ==> off[i] <= off[j]
    ensures forall v :: 0 <= v < |lists| ==> IsBlock(off, flat, lists, v)
  {
    off := Offsets(lists);
    flat := [];
    for i := 0 to |lists|
      invariant |flat| == off[i]
      invariant forall v :: 0 <= v < i ==> IsBlock(off, flat, lists, v)
    {
      var longer := flat + lists[i];
      forall v | 0 <= v < i ensures IsBlock(off, longer, lists, v) {
        assert IsBlock(off, flat, lists, v);
        assert longer[..|flat|] == flat;
        assert longer[off[v]..off[v + 1]] == flat[off[v]..off[v + 1]];
      }
      flat := longer;
    }
  }

  /** Every flattened neighbour is a local index of a node with out-edges. */
  lemma NeighboursInRange(cfg: Config, c: nat, off: seq<nat>, flat: seq<nat>, lists: seq<seq<nat>>)
    requires cfg.Good() && c < cfg.K() && |lists| == cfg.Owned(c)
    requires forall v :: 0 <= v < |lists| ==> lists[v] == cfg.InAdj(c, v)
    requires |off| == |lists| + 1 && off[0] == 0 && off[|lists|] == |flat|
    requires forall v :: 0 <= v < |lists| ==> IsBlock(off, flat, lists, v)
    ensures forall i :: 0 <= i < |flat| ==>
      flat[i] < cfg.Owned(c) + |cfg.Ghosts(c)| && OutDeg(cfg.g.n, cfg.g.edges, cfg.GlobalId(c, flat[i])) > 0
  {
    hide Config.IsGhost, Sources, OutDeg, Ascending;
    forall i | 0 <= i < |flat|
      ensures flat[i] < cfg.Owned(c) + |cfg.Ghosts(c)|
      ensures OutDeg(cfg.g.n, cfg.g.edges, cfg.GlobalId(c, flat[i])) > 0
    {
      var v := BlockOf(off, i);
      assert IsBlock(off, flat, lists, v);
      assert flat[i] == lists[v][i - off[v]];
      cfg.InAdjGlobal(c, v);
      SourcesHaveOutDeg(cfg.g.n, cfg.g.edges, cfg.bounds[c] + v);
    }
  }

  lemma BlockOf(off: seq<nat>, i: nat) returns (v: nat)
    requires |off| >= 1 && off[0] == 0 && i < off[|off| - 1]
    ensures v + 1 < |off| && off[v] <= i < off[v + 1]
  {
    v := 0;
    while !(i < off[v + 1])
      invariant v + 1 < |off| && off[v] <= i
      decreases |off| - v
    {
      v := v + 1;
    }
  }

  method BuildTables(cfg: Config, shards: seq<Shard>, c: nat) returns (send: seq<seq<nat>>, recv: seq<seq<nat>>)
    requires cfg.Good() && c < cfg.K()
    requires |shards| == cfg.K() && forall d :: 0 <= d < cfg.K() ==> ShardFor(cfg, d, shards[d])
    ensures |send| == |recv| == cfg.K()
    ensures forall d :: 0 <= d < cfg.K() ==> send[d] == SendLocal(cfg, c, d) && recv[d] == RecvGhost(cfg, c, d)
  {
    hide Config.IsGhost, Ascending;
    var sh := shards[c];
    assert ShardFor(cfg, c, sh);
    send, recv := [], [];
    for d := 0 to cfg.K()
      invariant |send| == |recv| == d
      invariant forall e :: 0 <= e < d ==> send[e] == SendLocal(cfg, c, e) && recv[e] == RecvGhost(cfg, c, e)
    {
      var dsh := shards[d];
      assert ShardFor(cfg, d, dsh);
      var outgoing, incoming := OwnedBy(cfg, c, dsh.ghosts), OwnedBy(cfg, d, sh.ghosts);
      assert outgoing == Route(cfg, c, d) && incoming == Route(cfg, d, c);
      assert forall i :: 0 <= i < |outgoing| ==> outgoing[i] in outgoing;
      assert forall i :: 0 <= i < |incoming| ==> incoming[i] in incoming;
      send := send + [seq(|outgoing|, i requires 0 <= i < |outgoing| => outgoing[i] - sh.lo)];
      recv := recv + [seq(|incoming|, i requires 0 <= i < |incoming| => IndexOf(sh.ghosts, incoming[i]))];
      assert send[d] == SendLocal(cfg, c, d) && recv[d] == RecvGhost(cfg, c, d);
    }
  }
}
