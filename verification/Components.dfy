/** Undirected connectivity of an edge list over the nodes below n. */
module Connectivity {
  import opened Graphs

  /** A valid edge joins u and v, in either direction. */
  ghost predicate Linked(g: Graph, u: nat, v: nat) {
    u < g.n && v < g.n && ((u, v) in g.edges || (v, u) in g.edges)
  }

  ghost predicate IsPath(g: Graph, p: seq<nat>) {
    && |p| > 0
    && (forall i :: 0 <= i < |p| ==> p[i] < g.n)
    && forall i :: 0 <= i < |p| - 1 ==> Linked(g, p[i], p[i + 1])
  }

  ghost predicate PathBetween(g: Graph, p: seq<nat>, u: nat, v: nat) {
    IsPath(g, p) && p[0] == u && p[|p| - 1] == v
  }

  ghost predicate Connected(g: Graph, u: nat, v: nat) { exists p :: PathBetween(g, p, u, v) }

  lemma ConnectedRefl(g: Graph, u: nat)
    requires u < g.n
    ensures Connected(g, u, u)
  {
    assert PathBetween(g, [u], u, u);
  }

  lemma ConnectedLink(g: Graph, u: nat, v: nat)
    requires Linked(g, u, v)
    ensures Connected(g, u, v)
  {
    assert PathBetween(g, [u, v], u, v);
  }

  lemma ConnectedTrans(g: Graph, u: nat, v: nat, w: nat)
    requires Connected(g, u, v) && Connected(g, v, w)
    ensures Connected(g, u, w)
  {
    var p :| PathBetween(g, p, u, v);
    var q :| PathBetween(g, q, v, w);
    assert PathBetween(g, p + q[1..], u, w);
  }

  function Reversed(p: seq<nat>): (r: seq<nat>)
    ensures |r| == |p| && forall i :: 0 <= i < |p| ==> r[i] == p[|p| - 1 - i]
  {
    seq(|p|, i requires 0 <= i < |p| => p[|p| - 1 - i])
  }

  lemma ConnectedSym(g: Graph, u: nat, v: nat)
    requires Connected(g, u, v)
    ensures Connected(g, v, u)
  {
    var p :| PathBetween(g, p, u, v);
    var r := Reversed(p);
    forall i | 0 <= i < |r| - 1 ensures Linked(g, r[i], r[i + 1]) {
      assert Linked(g, p[|p| - 2 - i], p[|p| - 2 - i + 1]);
    }
    assert PathBetween(g, r, v, u);
  }

  lemma ConnectedInRange(g: Graph, u: nat, v: nat)
    requires Connected(g, u, v)
    ensures u < g.n && v < g.n
  {}

  /** A value that is the same across every link is the same across a component. */
  lemma {:induction false} SameAlongPath<T>(g: Graph, f: nat -> T, p: seq<nat>)
    requires IsPath(g, p)
    requires forall u: nat, v: nat :: Linked(g, u, v) ==> f(u) == f(v)
    ensures f(p[0]) == f(p[|p| - 1])
  {
    if |p| > 1 {
      var rest := p[1..];
      forall i | 0 <= i < |rest| - 1 ensures Linked(g, rest[i], rest[i + 1]) {
        assert Linked(g, p[i + 1], p[i + 1 + 1]);
      }
      SameAlongPath(g, f, rest);
      assert Linked(g, p[0], p[0 + 1]);
    }
  }

  lemma SameInComponent<T>(g: Graph, f: nat -> T, u: nat, v: nat)
    requires Connected(g, u, v)
    requires forall x: nat, y: nat :: Linked(g, x, y) ==> f(x) == f(y)
    ensures f(u) == f(v)
  {
    var p :| PathBetween(g, p, u, v);
    SameAlongPath(g, f, p);
  }

  /** More edges connect at least as much. */
  lemma ConnectedGrows(g: Graph, g': Graph, u: nat, v: nat)
    requires Connected(g, u, v) && g'.n == g.n && forall e :: e in g.edges ==> e in g'.edges
    ensures Connected(g', u, v)
  {
    var p :| PathBetween(g, p, u, v);
    forall i | 0 <= i < |p| - 1 ensures Linked(g', p[i], p[i + 1]) {
      assert Linked(g, p[i], p[i + 1]);
    }
    assert PathBetween(g', p, u, v);
  }

  /** l is the smallest node of v's component. */
  ghost predicate IsLeastOf(g: Graph, v: nat, l: nat) {
    Connected(g, v, l) && forall u: nat :: Connected(g, v, u) ==> l <= u
  }
}

/** Connected components by label propagation, on one graph and over shards (crates/hg_analytics/src/cc.rs). */
module LabelPropagation {
  import opened Basics
  import opened Connectivity
  import opened Graphs

  // ---- Adjacency ---------------------------------------------------------------------------------

  /** The neighbours of v in the order the edge loop pushes them. Loops are skipped. */
  function Neighbours(g: Graph, v: nat): (vs: seq<nat>)
    ensures forall i :: 0 <= i < |vs| ==> vs[i] < g.n
    decreases |g.edges|
  {
    if g.edges == [] then []
    else
      var (a, b) := g.edges[|g.edges| - 1];
      var before := Neighbours(Graph(g.n, g.edges[..|g.edges| - 1]), v);
      if a < g.n && b < g.n && a != b then
        before + (if a == v then [b] else []) + (if b == v then [a] else [])
      else before
  }

  lemma {:induction false} NeighboursAreLinked(g: Graph, v: nat)
    ensures forall u: nat :: u in Neighbours(g, v) <==> Linked(g, u, v) && u != v
    decreases |g.edges|
  {
    if g.edges != [] {
      var g' := Graph(g.n, g.edges[..|g.edges| - 1]);
      var e := g.edges[|g.edges| - 1];
      NeighboursAreLinked(g', v);
      assert g.edges == g'.edges + [e];
      forall u: nat ensures Linked(g, u, v) <==> Linked(g', u, v) || (u < g.n && v < g.n && (e == (u, v) || e == (v, u))) {}
    }
  }

  ghost predicate IsAdjacency(g: Graph, adj: seq<seq<nat>>) {
    |adj| == g.n && forall v :: 0 <= v < g.n ==> adj[v] == Neighbours(g, v)
  }

  // ---- Labels ------------------------------------------------------------------------------------

  /** Every label is a node of the component, and no larger than the node itself. */
  ghost predicate Sound(g: Graph, labels: seq<nat>) {
    |labels| == g.n && forall v :: 0 <= v < g.n ==> labels[v] <= v && Connected(g, v, labels[v])
  }

  /** No neighbour has a smaller label. */
  ghost predicate Stable(g: Graph, labels: seq<nat>) {
    |labels| == g.n && forall u: nat, v: nat :: Linked(g, u, v) ==> labels[v] <= labels[u]
  }

  /** A stable labelling gives every node the least node of its component. */
  lemma StableIsLeast(g: Graph, labels: seq<nat>, v: nat)
    requires Sound(g, labels) && Stable(g, labels) && v < g.n
    ensures IsLeastOf(g, v, labels[v])
  {
    var f := (u: nat) => if u < |labels| then labels[u] else 0;
    forall u: nat | Connected(g, v, u) ensures labels[v] <= u {
      forall x: nat, y: nat | Linked(g, x, y) ensures f(x) == f(y) {
        assert Linked(g, y, x);
      }
      SameInComponent(g, f, v, u);
      ConnectedInRange(g, v, u);
    }
  }

  /** So equal labels mean the same component. */
  lemma LabelsPartition(g: Graph, labels: seq<nat>, u: nat, v: nat)
    requires |labels| == g.n && u < g.n && v < g.n
    requires forall w :: 0 <= w < g.n ==> IsLeastOf(g, w, labels[w])
    ensures labels[u] == labels[v] <==> Connected(g, u, v)
  {
    if labels[u] == labels[v] {
      ConnectedSym(g, v, labels[v]);
      ConnectedTrans(g, u, labels[u], v);
    }
    if Connected(g, u, v) {
      ConnectedSym(g, u, v);
      ConnectedTrans(g, u, v, labels[v]);
      ConnectedTrans(g, v, u, labels[u]);
    }
  }

  /** The smallest of m and the labels of the given nodes. */
  function LeastLabel(labels: seq<nat>, vs: seq<nat>, m: nat): (l: nat)
    requires forall i :: 0 <= i < |vs| ==> vs[i] < |labels|
    ensures l <= m && forall i :: 0 <= i < |vs| ==> l <= labels[vs[i]]
    ensures l == m || exists i :: 0 <= i < |vs| && l == labels[vs[i]]
  {
    if vs == [] then m
    else
      var l := LeastLabel(labels, vs[..|vs| - 1], m);
      var x := labels[vs[|vs| - 1]];
      if x < l then x else l
  }

  /** Taking the least label around a node keeps labels sound. */
  lemma LeastLabelSound(g: Graph, labels: seq<nat>, v: nat)
    requires Sound(g, labels) && v < g.n
    ensures LeastLabel(labels, Neighbours(g, v), labels[v]) <= v
    ensures Connected(g, v, LeastLabel(labels, Neighbours(g, v), labels[v]))
  {
    var vs := Neighbours(g, v);
    var l := LeastLabel(labels, vs, labels[v]);
    if l != labels[v] {
      var i :| 0 <= i < |vs| && l == labels[vs[i]];
      NeighboursAreLinked(g, v);
      assert vs[i] in vs;
      assert Linked(g, v, vs[i]);
      ConnectedLink(g, v, vs[i]);
      ConnectedTrans(g, v, vs[i], l);
    }
  }

  function Total(labels: seq<nat>): nat {
    if labels == [] then 0 else Total(labels[..|labels| - 1]) + labels[|labels| - 1]
  }

  lemma {:induction false} TotalDrops(labels: seq<nat>, labels': seq<nat>)
    requires |labels| == |labels'| && forall v :: 0 <= v < |labels| ==> labels'[v] <= labels[v]
    ensures Total(labels') <= Total(labels)
    ensures labels' != labels ==> Total(labels') < Total(labels)
  {
    if labels != [] {
      var k := |labels| - 1;
      TotalDrops(labels[..k], labels'[..k]);
      if labels'[..k] == labels[..k] && labels'[k] == labels[k] {
        assert labels' == labels'[..k] + [labels'[k]] == labels;
      }
    }
  }

  // ---- One graph ---------------------------------------------------------------------------------

  method BuildAdjacency(g: Graph) returns (adj: seq<seq<nat>>)
    ensures IsAdjacency(g, adj)
  {
    adj := seq(g.n, _ => []);
    for i := 0 to |g.edges|
      invariant IsAdjacency(Graph(g.n, g.edges[..i]), adj)
    {
      var (u, v) := g.edges[i];
      assert g.edges[..i + 1][..i] == g.edges[..i];
      if u < g.n && v < g.n && u != v {
        adj := adj[u := adj[u] + [v]];
        adj := adj[v := adj[v] + [u]];
      }
    }
    assert g.edges[..|g.edges|] == g.edges;
  }

  /** The least label around v, by the source's scan. */
  method ScanNeighbours(labels: seq<nat>, vs: seq<nat>, m0: nat) returns (m: nat)
    requires forall i :: 0 <= i < |vs| ==> vs[i] < |labels|
    ensures m == LeastLabel(labels, vs, m0)
  {
    m := m0;
    for i := 0 to |vs|
      invariant m == LeastLabel(labels, vs[..i], m0)
    {
      assert vs[..i + 1][..i] == vs[..i];
      if labels[vs[i]] < m {
        m := labels[vs[i]];
      }
    }
    assert vs[..|vs|] == vs;
  }

  /** No neighbour of the first k nodes has a smaller label. */
  ghost predicate StableBelow(g: Graph, labels: seq<nat>, k: nat) {
    |labels| == g.n && forall u: nat, v: nat :: v < k && Linked(g, u, v) ==> labels[v] <= labels[u]
  }

  lemma StableStep(g: Graph, labels: seq<nat>, k: nat)
    requires StableBelow(g, labels, k) && k < g.n && LeastLabel(labels, Neighbours(g, k), labels[k]) == labels[k]
    ensures StableBelow(g, labels, k + 1)
  {
    NeighboursAreLinked(g, k);
    forall u: nat | Linked(g, u, k) ensures labels[k] <= labels[u] {
      if u != k {
        var vs := Neighbours(g, k);
        assert u in vs;
        var i :| 0 <= i < |vs| && vs[i] == u;
      }
    }
  }

  lemma SoundStep(g: Graph, labels: seq<nat>, v: nat, l: nat)
    requires Sound(g, labels) && v < g.n && l == LeastLabel(labels, Neighbours(g, v), labels[v])
    ensures Sound(g, labels[v := l])
  {
    LeastLabelSound(g, labels, v);
  }

  /** The first k nodes take the least label around them one after the other, each seeing the labels before it. */
  ghost function Sweep(g: Graph, labels: seq<nat>, k: nat): (r: seq<nat>)
    requires |labels| == g.n && k <= g.n
    ensures |r| == g.n
  {
    if k == 0 then labels
    else
      var before := Sweep(g, labels, k - 1);
      before[k - 1 := LeastLabel(before, Neighbours(g, k - 1), before[k - 1])]
  }

  lemma SweepStep(g: Graph, labels: seq<nat>, v: nat)
    requires |labels| == g.n && v < g.n
    ensures forall w :: w in Neighbours(g, v) ==> w < g.n
    ensures var before := Sweep(g, labels, v);
      Sweep(g, labels, v + 1) == before[v := LeastLabel(before, Neighbours(g, v), before[v])]
      && LeastLabel(before, Neighbours(g, v), before[v]) <= before[v]
  {}

  /** One in-place pass. */
  method Pass(g: Graph, adj: seq<seq<nat>>, labels0: seq<nat>) returns (labels: seq<nat>, changed: bool)
    requires IsAdjacency(g, adj) && Sound(g, labels0)
    ensures Sound(g, labels) && labels == Sweep(g, labels0, g.n)
    ensures if changed then Total(labels) < Total(labels0) else labels == labels0 && Stable(g, labels)
  {
    hide Connected, Linked, Sweep, LeastLabel, Neighbours, Sound, StableBelow;
    SoundSizes(g, labels0);
    labels, changed := labels0, false;
    assert Sweep(g, labels0, 0) == labels0 && StableBelow(g, labels, 0) by { StartSweep(g, labels0); }
    for v := 0 to g.n
      invariant |labels| == g.n && Sound(g, labels) && labels == Sweep(g, labels0, v)
      invariant forall w :: 0 <= w < g.n ==> labels[w] <= labels0[w]
      invariant if changed then labels != labels0 else labels == labels0 && StableBelow(g, labels, v)
    {
      SweepStep(g, labels0, v);
      var m := ScanNeighbours(labels, adj[v], labels[v]);
      SoundStep(g, labels, v, m);
      if m < labels[v] {
        labels := labels[v := m];
        assert labels[v] < labels0[v];
        changed := true;
      } else {
        assert labels[v := m] == labels;
        if !changed {
          StableStep(g, labels, v);
        }
      }
    }
    TotalDrops(labels0, labels);
    if !changed {
      WholeStable(g, labels);
    }
  }

  lemma SoundSizes(g: Graph, labels: seq<nat>)
    requires Sound(g, labels)
    ensures |labels| == g.n
  {}

  lemma StartSweep(g: Graph, labels: seq<nat>)
    requires |labels| == g.n
    ensures Sweep(g, labels, 0) == labels && StableBelow(g, labels, 0)
  {}

  lemma WholeStable(g: Graph, labels: seq<nat>)
    requires StableBelow(g, labels, g.n)
    ensures Stable(g, labels)
  {}

  lemma IdentityIsSound(g: Graph, labels: seq<nat>)
    requires |labels| == g.n && forall v :: 0 <= v < g.n ==> labels[v] == v
    ensures Sound(g, labels)
  {
    forall v | 0 <= v < g.n ensures Connected(g, v, v) {
      ConnectedRefl(g, v);
    }
  }

  /** Every node is labelled with the least node of its component. */
  method ConnectedComponents(g: Graph) returns (labels: seq<nat>)
    ensures |labels| == g.n && forall v :: 0 <= v < g.n ==> IsLeastOf(g, v, labels[v])
  {
    hide Sound, Stable, IsLeastOf;
    if g.n == 0 {
      return [];
    }
    var adj := BuildAdjacency(g);
    labels := seq(g.n, v => v);
    IdentityIsSound(g, labels);
    var changed := true;
    while changed
      invariant Sound(g, labels) && (!changed ==> Stable(g, labels))
      decreases changed, Total(labels)
    {
      labels, changed := Pass(g, adj, labels);
    }
    AllLeast(g, labels);
  }

  lemma AllLeast(g: Graph, labels: seq<nat>)
    requires Sound(g, labels) && Stable(g, labels)
    ensures |labels| == g.n && forall v :: 0 <= v < g.n ==> IsLeastOf(g, v, labels[v])
  {
    forall v | 0 <= v < g.n ensures IsLeastOf(g, v, labels[v]) {
      StableIsLeast(g, labels, v);
    }
  }

  // ---- Shards ------------------------------------------------------------------------------------

  datatype Shard = Shard(lo: nat, hi: nat, adj: seq<seq<nat>>)

  /** Building the shards may fail: the length hi - lo of a shard is an unsigned subtraction. */
  datatype Partition = Shards(shards: seq<Shard>) | Underflow

  function DivCeil(n: nat, k: nat): nat requires k > 0 { (n + k - 1) / k }

  /** The least size of k ranges that cover n. */
  lemma DivCeilIsLeast(n: nat, k: nat, size: nat)
    requires k > 0
    ensures size >= DivCeil(n, k) <==> size * k >= n
  {
    var x := n + k - 1;
    var q := DivCeil(n, k);
    assert x == q * k + x % k;
    if size >= q {
      MulMonotone(q, size, k);
    } else {
      MulMonotone(size, q - 1, k);
      assert (q - 1) * k == q * k - k;
    }
  }

  ghost predicate IsShard(g: Graph, sh: Shard) {
    && sh.lo <= sh.hi <= g.n && |sh.adj| == sh.hi - sh.lo
    && forall i :: 0 <= i < |sh.adj| ==> sh.adj[i] == Neighbours(g, sh.lo + i)
  }

  predicate StartsWhereLastEnds(shards: seq<Shard>, c: nat)
    requires c < |shards|
  {
    shards[c].lo == if c == 0 then 0 else shards[c - 1].hi
  }

  /** The shards own consecutive ranges that cover all nodes, with the adjacency of what they own. */
  ghost predicate Tiles(g: Graph, shards: seq<Shard>) {
    && (forall c :: 0 <= c < |shards| ==> IsShard(g, shards[c]))
    && (forall c :: 0 <= c < |shards| ==> StartsWhereLastEnds(shards, c))
    && (if shards == [] then g.n == 0 else shards[|shards| - 1].hi == g.n)
  }

  /** The ranges fit exactly when the last one starts inside [0, n]; for 5 nodes and 4 shards it does not. */
  predicate Fits(n: nat, k: nat)
    requires n > 0
  {
    var k' := Clamp(k, 1, n);
    (k' - 1) * DivCeil(n, k') <= n
  }

  lemma FiveInFourDoNotFit()
    ensures !Fits(5, 4)
  {}

  lemma RangeFacts(n: nat, k: nat, c: nat)
    requires 0 < k <= n && c < k
    ensures DivCeil(n, k) > 0 && DivCeil(n, k) * k >= n
    ensures c * DivCeil(n, k) <= (k - 1) * DivCeil(n, k)
    ensures (c + 1) * DivCeil(n, k) == c * DivCeil(n, k) + DivCeil(n, k)
  {
    var size := DivCeil(n, k);
    assert size * k >= n by {
      DivCeilBound(n, k);
    }
    MulMonotone(c, k - 1, size);
  }

  lemma DivCeilBound(n: nat, k: nat)
    requires 0 < k <= n
    ensures DivCeil(n, k) > 0 && DivCeil(n, k) * k >= n
  {
    var x := n + k - 1;
    assert x == x / k * k + x % k;
  }

  lemma MulMonotone(a: nat, b: nat, x: nat)
    requires a <= b
    ensures a * x <= b * x
  {}

  /** The shard of a node, and its place there. */
  lemma OwnerIndex(n: nat, size: nat, k: nat, u: nat)
    requires size > 0 && u < n <= size * k
    ensures u / size < k
    ensures u / size * size <= u < u / size * size + size
  {
    assert u == u / size * size + u % size;
    if u / size >= k {
      MulMonotone(k, u / size, size);
    }
  }

  /** Shard c with the adjacency collected from the edges of g. */
  ghost predicate ShardWith(g: Graph, n: nat, size: nat, c: nat, sh: Shard) {
    && sh.lo == c * size && sh.hi == Min((c + 1) * size, n) && sh.lo <= sh.hi
    && |sh.adj| == sh.hi - sh.lo
    && forall i :: 0 <= i < |sh.adj| ==> sh.adj[i] == Neighbours(g, sh.lo + i)
  }

  function Push(sh: Shard, u: nat, v: nat): Shard
    requires sh.lo <= u < sh.lo + |sh.adj|
  {
    Shard(sh.lo, sh.hi, sh.adj[u - sh.lo := sh.adj[u - sh.lo] + [v]])
  }

  method EmptyShards(n: nat, size: nat, k: nat) returns (shards: seq<Shard>, ok: bool)
    requires size > 0 && k > 0
    ensures ok <==> (k - 1) * size <= n
    ensures ok ==> |shards| == k && forall c :: 0 <= c < k ==> ShardWith(Graph(n, []), n, size, c, shards[c])
  {
    shards := [];
    for c := 0 to k
      invariant |shards| == c && forall d :: 0 <= d < c ==> ShardWith(Graph(n, []), n, size, d, shards[d])
    {
      var lo := c * size;
      var hi := Min((c + 1) * size, n);
      MulMonotone(c, k - 1, size);
      assert (c + 1) * size == c * size + size;
      if hi < lo {
        return [], false;
      }
      shards := shards + [Shard(lo, hi, seq(hi - lo, _ => []))];
    }
    assert ShardWith(Graph(n, []), n, size, k - 1, shards[k - 1]);
    ok := true;
  }

  lemma NeighboursAppend(g: Graph, g': Graph, u: nat, v: nat, w: nat)
    requires g'.n == g.n && g'.edges == g.edges + [(u, v)] && u < g.n && v < g.n && u != v
    ensures Neighbours(g', w) == Neighbours(g, w) + (if u == w then [v] else []) + (if v == w then [u] else [])
  {
    assert g'.edges[..|g'.edges| - 1] == g.edges;
  }

  lemma PushAt(sh: Shard, u: nat, v: nat, i: nat)
    requires sh.lo <= u < sh.lo + |sh.adj| && i < |sh.adj|
    ensures |Push(sh, u, v).adj| == |sh.adj|
    ensures Push(sh, u, v).adj[i] == sh.adj[i] + if sh.lo + i == u then [v] else []
  {}

  /** The node w of shard c is u exactly in u's shard. */
  lemma InBlock(n: nat, size: nat, c: nat, lo: nat, hi: nat, u: nat, cu: nat)
    requires lo == c * size && hi == Min((c + 1) * size, n) && u < n
    requires cu * size <= u < cu * size + size
    ensures c == cu <==> lo <= u < hi
  {
    assert (c + 1) * size == c * size + size;
    BlockOrder(c, cu, size);
    BlockOrder(cu, c, size);
  }

  lemma BlockOrder(c: nat, d: nat, size: nat)
    ensures c < d ==> c * size + size <= d * size
  {
    if c < d {
      MulMonotone(c + 1, d, size);
      assert (c + 1) * size == c * size + size;
    }
  }

  /** Adding one edge to the shards of its endpoints. */
  lemma PushKeeps(g: Graph, g': Graph, size: nat, c: nat, sh: Shard, u: nat, v: nat, cu: nat, cv: nat)
    requires g'.n == g.n && g'.edges == g.edges + [(u, v)] && u < g.n && v < g.n && u != v && size > 0
    requires ShardWith(g, g.n, size, c, sh)
    requires cu * size <= u < cu * size + size && cv * size <= v < cv * size + size
    ensures (c == cu <==> sh.lo <= u < sh.lo + |sh.adj|) && (c == cv <==> sh.lo <= v < sh.lo + |sh.adj|)
    ensures ShardWith(g', g.n, size, c, PushEdge(sh, c, cu, cv, u, v))
  {
    hide Neighbours, Push;
    InBlock(g.n, size, c, sh.lo, sh.hi, u, cu);
    InBlock(g.n, size, c, sh.lo, sh.hi, v, cv);
    PushShape(sh, u, v);
    var sh1 := if c == cu then Push(sh, u, v) else sh;
    PushShape(sh1, v, u);
    var sh2 := if c == cv then Push(sh1, v, u) else sh1;
    forall i | 0 <= i < |sh2.adj| ensures sh2.adj[i] == Neighbours(g', sh2.lo + i) {
      NeighboursAppend(g, g', u, v, sh.lo + i);
      if c == cu {
        PushAt(sh, u, v, i);
      }
      if c == cv {
        PushAt(sh1, v, u, i);
      }
    }
  }

  /** Shard c after an edge between u in shard cu and v in shard cv. */
  function PushEdge(sh: Shard, c: nat, cu: nat, cv: nat, u: nat, v: nat): Shard
    requires c == cu ==> sh.lo <= u < sh.lo + |sh.adj|
    requires c == cv ==> sh.lo <= v < sh.lo + |sh.adj|
  {
    var sh1 := if c == cu then Push(sh, u, v) else sh;
    if c == cv then Push(sh1, v, u) else sh1
  }

  lemma PushShape(sh: Shard, u: nat, v: nat)
    ensures sh.lo <= u < sh.lo + |sh.adj| ==>
      Push(sh, u, v).lo == sh.lo && Push(sh, u, v).hi == sh.hi && |Push(sh, u, v).adj| == |sh.adj|
  {}

  /** Shard c owns the range from c * size up to the next one, cut off at n. */
  ghost predicate AreRanges(n: nat, size: nat, shards: seq<Shard>) {
    forall c :: 0 <= c < |shards| ==> shards[c].lo == c * size && shards[c].hi == Min(c * size + size, n)
  }

  /** Range-partitions the graph; fails exactly when the ranges do not fit. */
  method PartitionUndirected(g: Graph, k0: nat) returns (p: Partition)
    ensures g.n == 0 ==> p == Shards([])
    ensures g.n > 0 ==> (p.Underflow? <==> !Fits(g.n, k0))
    ensures p.Shards? ==> Tiles(g, p.shards)
    ensures p.Shards? && g.n > 0 ==> |p.shards| == Clamp(k0, 1, g.n) && AreRanges(g.n, DivCeil(g.n, |p.shards|), p.shards)
  {
    if g.n == 0 {
      return Shards([]);
    }
    var n, k := g.n, Clamp(k0, 1, g.n);
    var size := DivCeil(n, k);
    RangeFacts(n, k, k - 1);
    var shards, ok := EmptyShards(n, size, k);
    if !ok {
      return Underflow;
    }
    assert g.edges[..0] == [];
    for i := 0 to |g.edges|
      invariant |shards| == k
      invariant forall c :: 0 <= c < k ==> ShardWith(Graph(n, g.edges[..i]), n, size, c, shards[c])
    {
      shards := AddEdge(Graph(n, g.edges[..i]), n, size, k, shards, g.edges[i]);
      assert g.edges[..i + 1] == g.edges[..i] + [g.edges[i]];
    }
    assert g.edges[..|g.edges|] == g.edges;
    ShardsTile(g, size, k, shards);
    return Shards(shards);
  }

  /** One edge pushed on both of its endpoints' shards. */
  method AddEdge(ghost g: Graph, n: nat, size: nat, k: nat, shards0: seq<Shard>, e: (nat, nat)) returns (shards: seq<Shard>)
    requires n == g.n && size > 0 && 0 < n <= size * k && |shards0| == k
    requires forall c :: 0 <= c < k ==> ShardWith(g, n, size, c, shards0[c])
    ensures |shards| == k
    ensures forall c :: 0 <= c < k ==> ShardWith(Graph(n, g.edges + [e]), n, size, c, shards[c])
  {
    hide ShardWith, Push;
    var (u, v) := e;
    ghost var g' := Graph(n, g.edges + [e]);
    if u < n && v < n && u != v {
      var cu, cv := u / size, v / size;
      OwnerIndex(n, size, k, u);
      OwnerIndex(n, size, k, v);
      PushAll(g, g', size, k, shards0, u, v, cu, cv);
      shards := shards0[cu := Push(shards0[cu], u, v)];
      shards := shards[cv := Push(shards[cv], v, u)];
    } else {
      shards := shards0;
      forall c | 0 <= c < k ensures ShardWith(g', n, size, c, shards[c]) {
        SkipKeeps(g, g', e, n, size, c, shards[c]);
      }
    }
  }

  lemma PushAll(g: Graph, g': Graph, size: nat, k: nat, shards: seq<Shard>, u: nat, v: nat, cu: nat, cv: nat)
    requires g'.n == g.n && g'.edges == g.edges + [(u, v)] && u < g.n && v < g.n && u != v && size > 0
    requires |shards| == k && cu < k && cv < k
    requires cu * size <= u < cu * size + size && cv * size <= v < cv * size + size
    requires forall c :: 0 <= c < k ==> ShardWith(g, g.n, size, c, shards[c])
    ensures shards[cu].lo <= u < shards[cu].lo + |shards[cu].adj|
    ensures
      var shards1 := shards[cu := Push(shards[cu], u, v)];
      && shards1[cv].lo <= v < shards1[cv].lo + |shards1[cv].adj|
      && var shards2 := shards1[cv := Push(shards1[cv], v, u)];
         forall c :: 0 <= c < k ==> ShardWith(g', g.n, size, c, shards2[c])
  {
    hide ShardWith, Push, PushEdge;
    forall c | 0 <= c < k
      ensures c == cu <==> shards[c].lo <= u < shards[c].lo + |shards[c].adj|
      ensures c == cv <==> shards[c].lo <= v < shards[c].lo + |shards[c].adj|
      ensures ShardWith(g', g.n, size, c, PushEdge(shards[c], c, cu, cv, u, v))
    {
      PushKeeps(g, g', size, c, shards[c], u, v, cu, cv);
    }
    PushShape(shards[cu], u, v);
    var shards1 := shards[cu := Push(shards[cu], u, v)];
    var shards2 := shards1[cv := Push(shards1[cv], v, u)];
    forall c | 0 <= c < k ensures shards2[c] == PushEdge(shards[c], c, cu, cv, u, v) {
      PushEdgeCases(shards[c], c, cu, cv, u, v);
    }
  }

  lemma PushEdgeCases(sh: Shard, c: nat, cu: nat, cv: nat, u: nat, v: nat)
    requires c == cu ==> sh.lo <= u < sh.lo + |sh.adj|
    requires c == cv ==> sh.lo <= v < sh.lo + |sh.adj|
    ensures c == cu && c != cv ==> PushEdge(sh, c, cu, cv, u, v) == Push(sh, u, v)
    ensures c != cu && c == cv ==> PushEdge(sh, c, cu, cv, u, v) == Push(sh, v, u)
    ensures c == cu && c == cv ==> PushEdge(sh, c, cu, cv, u, v) == Push(Push(sh, u, v), v, u)
    ensures c != cu && c != cv ==> PushEdge(sh, c, cu, cv, u, v) == sh
  {}

  lemma SkipKeeps(g: Graph, g': Graph, e: (nat, nat), n: nat, size: nat, c: nat, sh: Shard)
    requires g'.n == g.n && g'.edges == g.edges + [e] && (e.0 >= g.n || e.1 >= g.n || e.0 == e.1)
    requires ShardWith(g, n, size, c, sh)
    ensures ShardWith(g', n, size, c, sh)
  {
    assert g'.edges[..|g'.edges| - 1] == g.edges;
  }

  lemma ShardsTile(g: Graph, size: nat, k: nat, shards: seq<Shard>)
    requires size > 0 && k > 0 && 0 < g.n <= size * k && |shards| == k
    requires forall c :: 0 <= c < k ==> ShardWith(g, g.n, size, c, shards[c])
    ensures Tiles(g, shards)
  {
    hide Neighbours;
    forall c | 0 <= c < k ensures StartsWhereLastEnds(shards, c) {
      assert ShardWith(g, g.n, size, c, shards[c]);
      if c > 0 {
        assert ShardWith(g, g.n, size, c - 1, shards[c - 1]);
        assert c * size == (c - 1) * size + size;
      }
    }
    assert ShardWith(g, g.n, size, k - 1, shards[k - 1]);
    assert (k - 1 + 1) * size == size * k;
  }

  // ---- Supersteps over the shards ----------------------------------------------------------------

  /** The labels after one superstep: every node takes the least label around it, all from the old labels. */
  ghost predicate IsSuperstep(g: Graph, labels: seq<nat>, next: seq<nat>) {
    && |labels| == |next| == g.n
    && forall v :: 0 <= v < g.n ==> next[v] == LeastLabel(labels, Neighbours(g, v), labels[v])
  }

  /** What one shard computes for its owned nodes. */
  method ShardLabels(g: Graph, sh: Shard, labels: seq<nat>) returns (local: seq<nat>)
    requires IsShard(g, sh) && |labels| == g.n
    ensures |local| == |sh.adj|
    ensures forall i :: 0 <= i < |local| ==> local[i] == LeastLabel(labels, Neighbours(g, sh.lo + i), labels[sh.lo + i])
  {
    hide Neighbours, LeastLabel;
    local := seq(sh.hi - sh.lo, _ => 0);
    for i := 0 to |sh.adj|
      invariant |local| == |sh.adj|
      invariant forall j :: 0 <= j < i ==> local[j] == LeastLabel(labels, Neighbours(g, sh.lo + j), labels[sh.lo + j])
    {
      var m := ScanNeighbours(labels, sh.adj[i], labels[sh.lo + i]);
      local := local[i := m];
    }
  }

  lemma SuperstepSound(g: Graph, labels: seq<nat>, next: seq<nat>)
    requires Sound(g, labels) && IsSuperstep(g, labels, next)
    ensures Sound(g, next) && Total(next) <= Total(labels)
    ensures next != labels ==> Total(next) < Total(labels)
    ensures next == labels ==> Stable(g, labels)
  {
    hide Connected, Neighbours, LeastLabel;
    forall v | 0 <= v < g.n ensures next[v] <= v && Connected(g, v, next[v]) && next[v] <= labels[v] {
      LeastLabelSound(g, labels, v);
    }
    TotalDrops(labels, next);
    if next == labels {
      SuperstepStable(g, labels, g.n);
      WholeStable(g, labels);
    }
  }

  lemma {:induction false} SuperstepStable(g: Graph, labels: seq<nat>, k: nat)
    requires IsSuperstep(g, labels, labels) && k <= g.n
    ensures StableBelow(g, labels, k)
  {
    if k != 0 {
      SuperstepStable(g, labels, k - 1);
      StableStep(g, labels, k - 1);
    }
  }

  /** All shards' results gathered into a copy of the labels. */
  method Superstep(g: Graph, shards: seq<Shard>, labels: seq<nat>) returns (next: seq<nat>, changed: bool)
    requires Tiles(g, shards) && |labels| == g.n
    ensures IsSuperstep(g, labels, next) && (changed <==> next != labels)
  {
    hide Neighbours, LeastLabel, IsShard, Tiles;
    TilesEnd(g, shards);
    next, changed := labels, false;
    var done := 0;
    for c := 0 to |shards|
      invariant done == (if c == 0 then 0 else shards[c - 1].hi) <= g.n && |next| == g.n
      invariant forall v :: 0 <= v < done ==> next[v] == LeastLabel(labels, Neighbours(g, v), labels[v])
      invariant forall v :: done <= v < g.n ==> next[v] == labels[v]
      invariant changed <==> next != labels
    {
      var sh := shards[c];
      TileAt(g, shards, c);
      ShardBounds(g, sh);
      var local := ShardLabels(g, sh, labels);
      for i := 0 to |local|
        invariant |next| == g.n
        invariant forall v :: 0 <= v < sh.lo + i ==> next[v] == LeastLabel(labels, Neighbours(g, v), labels[v])
        invariant forall v :: sh.lo + i <= v < g.n ==> next[v] == labels[v]
        invariant changed <==> next != labels
      {
        var l := local[i];
        if l != next[sh.lo + i] {
          next := next[sh.lo + i := l];
          changed := true;
          assert next[sh.lo + i] != labels[sh.lo + i];
        }
      }
      done := sh.hi;
    }
  }

  lemma TileAt(g: Graph, shards: seq<Shard>, c: nat)
    requires Tiles(g, shards) && c < |shards|
    ensures IsShard(g, shards[c]) && shards[c].lo == if c == 0 then 0 else shards[c - 1].hi
  {
    assert StartsWhereLastEnds(shards, c);
  }

  lemma TilesEnd(g: Graph, shards: seq<Shard>)
    requires Tiles(g, shards)
    ensures g.n == if shards == [] then 0 else shards[|shards| - 1].hi
  {}

  lemma ShardBounds(g: Graph, sh: Shard)
    requires IsShard(g, sh)
    ensures sh.lo <= sh.hi <= g.n && |sh.adj| == sh.hi - sh.lo
  {}

  /** The sharded form reaches the same labels as the single-graph form. */
  method DistributedConnectedComponents(g: Graph, shards: seq<Shard>) returns (labels: seq<nat>)
    requires Tiles(g, shards)
    ensures |labels| == g.n && forall v :: 0 <= v < g.n ==> IsLeastOf(g, v, labels[v])
  {
    hide Sound, Stable, IsLeastOf, Tiles, IsSuperstep;
    if g.n == 0 {
      return [];
    }
    labels := seq(g.n, v => v);
    IdentityIsSound(g, labels);
    var changed := true;
    while changed
      invariant |labels| == g.n && Sound(g, labels) && (!changed ==> Stable(g, labels))
      decreases changed, Total(labels)
    {
      var next, moved := Superstep(g, shards, labels);
      SuperstepSound(g, labels, next);
      SoundSize(g, next);
      labels, changed := next, moved;
    }
    AllLeast(g, labels);
  }

  lemma SoundSize(g: Graph, labels: seq<nat>)
    requires Sound(g, labels)
    ensures |labels| == g.n
  {}

  /** The least node of a component is unique, so every form gives the same labels. */
  lemma LabelsUnique(g: Graph, labels: seq<nat>, labels': seq<nat>)
    requires |labels| == |labels'| == g.n
    requires forall v :: 0 <= v < g.n ==> IsLeastOf(g, v, labels[v]) && IsLeastOf(g, v, labels'[v])
    ensures labels == labels'
  {
    forall v | 0 <= v < g.n ensures labels[v] == labels'[v] {
      assert labels[v] <= labels'[v] && labels'[v] <= labels[v];
    }
  }
}
