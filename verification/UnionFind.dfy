/** Connected components by union-find with path compression (ts/src/graph-analytics.ts). */
module UnionFind {
  import opened Graphs
  import opened Connectivity

  /** The forest as values: parents, the representative of each node, and a rank that rises along parents. */
  ghost predicate IsForest(parent: seq<nat>, root: seq<nat>, rank: seq<nat>, top: nat) {
    |parent| == |root| == |rank| && forall x :: 0 <= x < |parent| ==> InForest(parent, root, rank, top, x)
  }

  ghost predicate InForest(parent: seq<nat>, root: seq<nat>, rank: seq<nat>, top: nat, x: int)
    requires |parent| == |root| == |rank| && 0 <= x < |parent|
  {
    && parent[x] < |parent| && root[x] < |parent| && rank[x] <= top
    && root[root[x]] == root[x] && root[parent[x]] == root[x]
    && (parent[x] == x <==> root[x] == x)
    && (parent[x] != x ==> rank[x] < rank[parent[x]])
  }

  lemma Sizes(parent: seq<nat>, root: seq<nat>, rank: seq<nat>, top: nat)
    requires IsForest(parent, root, rank, top)
    ensures |parent| == |root| == |rank|
  {}

  lemma At(parent: seq<nat>, root: seq<nat>, rank: seq<nat>, top: nat, x: nat)
    requires IsForest(parent, root, rank, top) && x < |parent|
    ensures |parent| == |root| == |rank| && parent[x] < |parent| && root[x] < |parent| && rank[x] <= top
    ensures root[root[x]] == root[x] && root[parent[x]] == root[x] && (parent[x] == x <==> root[x] == x)
    ensures parent[x] != x ==> rank[x] < rank[parent[x]] <= top
  {
    assert InForest(parent, root, rank, top, x);
    assert InForest(parent, root, rank, top, parent[x]);
  }

  lemma {:induction false} RootIsHighest(parent: seq<nat>, root: seq<nat>, rank: seq<nat>, top: nat, x: nat)
    requires IsForest(parent, root, rank, top) && x < |parent|
    ensures root[x] < |rank| && (x != root[x] ==> rank[x] < rank[root[x]])
    decreases top - rank[x]
  {
    At(parent, root, rank, top, x);
    hide IsForest;
    if parent[x] != x {
      At(parent, root, rank, top, parent[x]);
      RootIsHighest(parent, root, rank, top, parent[x]);
    }
  }

  lemma CompressKeeps(parent: seq<nat>, root: seq<nat>, rank: seq<nat>, top: nat, x: nat)
    requires IsForest(parent, root, rank, top) && x < |parent| && x != root[x]
    ensures IsForest(parent[x := root[x]], root, rank, top)
  {
    RootIsHighest(parent, root, rank, top, x);
    At(parent, root, rank, top, x);
    At(parent, root, rank, top, root[x]);
    var parent' := parent[x := root[x]];
    forall y | 0 <= y < |parent| ensures InForest(parent', root, rank, top, y) {
      assert InForest(parent, root, rank, top, y);
    }
  }

  function Merged(root: seq<nat>, ra: nat, rb: nat): (r: seq<nat>)
    ensures |r| == |root| && forall x :: 0 <= x < |root| ==> r[x] == if root[x] == ra then rb else root[x]
  {
    seq(|root|, x requires 0 <= x < |root| => if root[x] == ra then rb else root[x])
  }

  lemma LinkKeeps(parent: seq<nat>, root: seq<nat>, rank: seq<nat>, top: nat, ra: nat, rb: nat)
    requires IsForest(parent, root, rank, top) && ra < |parent| && rb < |parent| && ra != rb
    requires root[ra] == ra && root[rb] == rb
    ensures IsForest(parent[ra := rb], Merged(root, ra, rb), rank[rb := top + 1], top + 1)
  {
    var parent', root', rank' := parent[ra := rb], Merged(root, ra, rb), rank[rb := top + 1];
    var top' := top + 1;
    At(parent, root, rank, top, ra);
    At(parent, root, rank, top, rb);
    forall y: nat | y < |parent| ensures InForest(parent', root', rank', top', y) {
      LinkAt(parent, root, rank, top, ra, rb, y);
    }
  }

  lemma LinkAt(parent: seq<nat>, root: seq<nat>, rank: seq<nat>, top: nat, ra: nat, rb: nat, y: nat)
    requires IsForest(parent, root, rank, top) && ra < |parent| && rb < |parent| && ra != rb && y < |parent|
    requires root[ra] == ra && root[rb] == rb
    ensures InForest(parent[ra := rb], Merged(root, ra, rb), rank[rb := top + 1], top + 1, y)
  {
    At(parent, root, rank, top, ra);
    At(parent, root, rank, top, rb);
    At(parent, root, rank, top, y);
    At(parent, root, rank, top, parent[y]);
    At(parent, root, rank, top, root[y]);
    hide IsForest;
  }

  /** The k-th node on the way up from x. */
  function Up(parent: seq<nat>, x: nat, k: nat): nat
    decreases k
  {
    if k == 0 || x >= |parent| then x else Up(parent, parent[x], k - 1)
  }

  /** Every node on the old way up from x0 hangs directly under the representative; all other parents are as before. */
  ghost predicate Flattened(was: seq<nat>, parent: seq<nat>, root: seq<nat>, x0: nat) {
    && |was| == |parent| == |root| && x0 < |root|
    && (forall k: nat :: Up(was, x0, k) < |parent| && parent[Up(was, x0, k)] == root[x0])
    && forall y :: 0 <= y < |parent| ==> parent[y] == was[y] || OnWay(was, x0, y)
  }

  ghost predicate OnWay(was: seq<nat>, x0: nat, y: int) { exists k: nat :: Up(was, x0, k) == y }

  /** Part of the way: the nodes before x are done, x and all above it are untouched. */
  ghost predicate Flattening(was: seq<nat>, parent: seq<nat>, root: seq<nat>, rank: seq<nat>, x0: nat, x: nat) {
    && |was| == |parent| == |root| == |rank| && x0 < |root| && x < |root|
    && (exists m: nat :: WayTo(was, parent, root, x0, x, m))
    && (forall y :: 0 <= y < |parent| ==> parent[y] == was[y] || (OnWay(was, x0, y) && rank[y] < rank[x]))
  }

  ghost predicate WayTo(was: seq<nat>, parent: seq<nat>, root: seq<nat>, x0: nat, x: nat, m: nat) {
    && |parent| == |root| && x0 < |root| && Up(was, x0, m) == x
    && forall k: nat :: k < m ==> Up(was, x0, k) < |parent| && parent[Up(was, x0, k)] == root[x0]
  }

  lemma {:induction false} UpNext(parent: seq<nat>, x: nat, k: nat)
    requires Up(parent, x, k) < |parent|
    ensures Up(parent, x, k + 1) == parent[Up(parent, x, k)]
    decreases k
  {
    if k > 0 && x < |parent| {
      UpNext(parent, parent[x], k - 1);
    }
  }

  lemma StartFlat(parent: seq<nat>, root: seq<nat>, rank: seq<nat>, x0: nat)
    requires |parent| == |root| == |rank| && x0 < |root|
    ensures Flattening(parent, parent, root, rank, x0, x0)
  {
    assert WayTo(parent, parent, root, x0, x0, 0);
  }

  lemma FlattenOne(was: seq<nat>, parent: seq<nat>, root: seq<nat>, rank: seq<nat>, x0: nat, x: nat)
    requires Flattening(was, parent, root, rank, x0, x)
    requires parent[x] < |parent| && root[x] == root[x0] && rank[x] < rank[parent[x]]
    ensures Flattening(was, parent[x := root[x0]], root, rank, x0, parent[x])
  {
    var m: nat :| WayTo(was, parent, root, x0, x, m);
    var parent' := parent[x := root[x0]];
    var m' := m + 1;
    UpNext(was, x0, m);
    assert parent[x] == was[x];
    forall k: nat | k < m' ensures Up(was, x0, k) < |parent'| && parent'[Up(was, x0, k)] == root[x0] {
      if k == m {
        assert Up(was, x0, k) == x;
      }
    }
    assert WayTo(was, parent', root, x0, parent[x], m');
    assert OnWay(was, x0, x);
  }

  /** The last node hangs under the representative already, and above that there is only the representative itself. */
  lemma FlatAtEnd(was: seq<nat>, parent: seq<nat>, root: seq<nat>, rank: seq<nat>, top: nat, x0: nat, x: nat)
    requires Flattening(was, parent, root, rank, x0, x) && IsForest(parent, root, rank, top) && root[x0] < |root|
    requires root[x] == root[x0] && parent[x] == root[x0] && root[root[x0]] == root[x0]
    ensures Flattened(was, parent, root, x0)
  {
    var r := root[x0];
    At(parent, root, rank, top, x);
    At(parent, root, rank, top, r);
    var m: nat :| WayTo(was, parent, root, x0, x, m);
    RootIsHighest(parent, root, rank, top, x);
    assert parent[r] == r && parent[x] == was[x] && was[r] == r;
    forall k: nat ensures Up(was, x0, k) < |parent| && parent[Up(was, x0, k)] == r {
      if k > m {
        AboveEnd(was, x0, r, m, k);
      } else if k == m {
        assert Up(was, x0, k) == x;
      }
    }
  }

  lemma {:induction false} AboveEnd(was: seq<nat>, x0: nat, r: nat, m: nat, k: nat)
    requires m < k && Up(was, x0, m) < |was| && was[Up(was, x0, m)] == r && r < |was| && was[r] == r
    ensures Up(was, x0, k) == r
    decreases k
  {
    UpNext(was, x0, m);
    if k > m + 1 {
      AboveEnd(was, x0, r, m, k - 1);
      UpNext(was, x0, k - 1);
    }
  }

  class Forest {
    var parent: seq<nat>
    ghost var root: seq<nat>
    ghost var rank: seq<nat>
    ghost var top: nat

    ghost predicate Valid()
      reads this
    {
      IsForest(parent, root, rank, top)
    }

    /** Every node alone. */
    constructor (n: nat)
      ensures Valid() && |parent| == |root| == n && forall x :: 0 <= x < n ==> root[x] == x
    {
      parent := seq(n, x => x);
      root := seq(n, x => x);
      rank := seq(n, _ => 0);
      top := 0;
    }

    /** The first loop: climb to the representative. */
    method Climb(x: nat) returns (r: nat)
      requires Valid() && x < |parent|
      ensures |root| == |parent| && r == root[x] && r < |parent| && root[r] == r
    {
      hide IsForest;
      r := x;
      At(parent, root, rank, top, x);
      while parent[r] != r
        invariant |parent| == |root| == |rank| && r < |parent| && root[r] == root[x]
        invariant r < |parent| && parent[r] < |parent| && rank[r] <= top
        decreases top - rank[r]
      {
        At(parent, root, rank, top, r);
        r := parent[r];
        At(parent, root, rank, top, r);
      }
      At(parent, root, rank, top, r);
    }

    /** The second loop: hang the nodes on the way directly under it. */
    method Compress(x0: nat, r: nat)
      requires Valid() && x0 < |parent| == |root| && r < |parent| && root[x0] == r && root[r] == r
      modifies `parent
      ensures Valid() && |parent| == old(|parent|)
      ensures Flattened(old(parent), parent, root, x0)
    {
      hide IsForest, InForest, Flattened;
      var x: nat := x0;
      At(parent, root, rank, top, x);
      StartFlat(parent, root, rank, x0);
      while parent[x] != r
        invariant |parent| == |root| == |rank| && |parent| == old(|parent|)
        invariant Valid()
        invariant x < |parent| && root[x] == r && rank[x] <= top
        invariant Flattening(old(parent), parent, root, rank, x0, x)
        decreases top - rank[x]
      {
        var next := parent[x];
        At(parent, root, rank, top, x);
        At(parent, root, rank, top, next);
        At(parent, root, rank, top, r);
        CompressKeeps(parent, root, rank, top, x);
        FlattenOne(old(parent), parent, root, rank, x0, x);
        parent := parent[x := r];
        x := next;
      }
      At(parent, root, rank, top, r);
      FlatAtEnd(old(parent), parent, root, rank, top, x0, x);
    }

    /** The representative of x. */
    method Find(x: nat) returns (r: nat)
      requires Valid() && x < |parent|
      modifies `parent
      ensures Valid() && |parent| == old(|parent|) && |root| == |parent|
      ensures r == root[x] && r < |parent| && root[r] == r
      ensures Flattened(old(parent), parent, root, x)
    {
      hide IsForest, Flattened;
      r := Climb(x);
      Compress(x, r);
    }

    /** Joins the classes of a and b under b's representative. */
    method Union(a: nat, b: nat)
      requires Valid() && a < |parent| && b < |parent| && |root| == |parent|
      modifies this
      ensures Valid() && |parent| == old(|parent|)
      ensures root == Merged(old(root), old(root)[a], old(root)[b])
    {
      hide IsForest;
      var ra := Find(a);
      var rb := Find(b);
      if ra != rb {
        Sizes(parent, root, rank, top);
        LinkKeeps(parent, root, rank, top, ra, rb);
        parent := parent[ra := rb];
        root := Merged(root, ra, rb);
        rank := rank[rb := top + 1];
        top := top + 1;
      } else {
        assert root == Merged(root, ra, rb);
      }
    }
  }

  /** Two nodes have the same representative exactly when they are connected. */
  ghost predicate Represents(g: Graph, root: seq<nat>) {
    && |root| == g.n
    && (forall u: nat, v: nat :: Linked(g, u, v) ==> root[u] == root[v])
    && (forall v: nat :: v < g.n ==> Connected(g, v, root[v]))
  }

  lemma RepresentsPartition(g: Graph, root: seq<nat>, u: nat, v: nat)
    requires Represents(g, root) && u < g.n && v < g.n
    ensures root[u] == root[v] <==> Connected(g, u, v)
  {
    if root[u] == root[v] {
      ConnectedSym(g, v, root[v]);
      ConnectedTrans(g, u, root[u], v);
    }
    if Connected(g, u, v) {
      var f := (x: nat) => if x < |root| then root[x] else 0;
      SameInComponent(g, f, u, v);
    }
  }

  lemma NoEdges(n: nat, root: seq<nat>)
    requires |root| == n && forall x :: 0 <= x < n ==> root[x] == x
    ensures Represents(Graph(n, []), root)
  {
    var g := Graph(n, []);
    forall v: nat | v < n ensures Connected(g, v, root[v]) {
      ConnectedRefl(g, v);
    }
  }

  /** Joining the endpoints of one more edge. */
  lemma UnionKeeps(g: Graph, g': Graph, root: seq<nat>, a: nat, b: nat)
    requires Represents(g, root) && g'.n == g.n && g'.edges == g.edges + [(a, b)] && a < g.n && b < g.n
    ensures Represents(g', Merged(root, root[a], root[b]))
  {
    hide Connected;
    var root' := Merged(root, root[a], root[b]);
    forall u: nat, v: nat | Linked(g', u, v) ensures root'[u] == root'[v] {
      assert Linked(g, u, v) || (u, v) == (a, b) || (v, u) == (a, b);
    }
    forall v: nat | v < g.n ensures Connected(g', v, root'[v]) {
      ConnectedGrows(g, g', v, root[v]);
      if root[v] == root[a] {
        ConnectedGrows(g, g', a, root[a]);
        ConnectedGrows(g, g', b, root[b]);
        ConnectedSym(g', a, root[a]);
        assert Linked(g', a, b);
        ConnectedLink(g', a, b);
        ConnectedTrans(g', v, root[a], a);
        ConnectedTrans(g', v, a, b);
        ConnectedTrans(g', v, b, root[b]);
      }
    }
  }

  lemma SkipEdge(g: Graph, g': Graph, root: seq<nat>, e: (nat, nat))
    requires Represents(g, root) && g'.n == g.n && g'.edges == g.edges + [e] && (e.0 >= g.n || e.1 >= g.n)
    ensures Represents(g', root)
  {
    hide Connected;
    forall u: nat, v: nat | Linked(g', u, v) ensures root[u] == root[v] {
      assert Linked(g, u, v);
    }
    forall v: nat | v < g.n ensures Connected(g', v, root[v]) {
      ConnectedGrows(g, g', v, root[v]);
    }
  }

  /** Every node with the representative of its component. */
  method ConnectedComponents(g: Graph) returns (out: seq<nat>)
    ensures |out| == g.n
    ensures forall u: nat, v: nat :: u < g.n && v < g.n ==> (out[u] == out[v] <==> Connected(g, u, v))
    ensures forall v: nat :: v < g.n ==> Connected(g, v, out[v])
  {
    hide Represents, Connected, Linked, IsForest, Merged;
    var forest := new Forest(g.n);
    NoEdges(g.n, forest.root);
    assert g.edges[..0] == [];
    for i := 0 to |g.edges|
      invariant forest.Valid() && |forest.parent| == |forest.root| == g.n
      invariant Represents(Graph(g.n, g.edges[..i]), forest.root)
    {
      var (a, b) := g.edges[i];
      assert g.edges[..i + 1] == g.edges[..i] + [(a, b)];
      if a < g.n && b < g.n {
        UnionKeeps(Graph(g.n, g.edges[..i]), Graph(g.n, g.edges[..i + 1]), forest.root, a, b);
        forest.Union(a, b);
      } else {
        SkipEdge(Graph(g.n, g.edges[..i]), Graph(g.n, g.edges[..i + 1]), forest.root, (a, b));
      }
    }
    assert g.edges[..|g.edges|] == g.edges;
    ghost var root := forest.root;
    out := [];
    for v := 0 to g.n
      invariant forest.Valid() && |forest.parent| == |forest.root| == g.n && forest.root == root
      invariant |out| == v && forall w :: 0 <= w < v ==> out[w] == root[w]
    {
      var r := forest.Find(v);
      out := out + [r];
    }
    assert out == root;
    forall u: nat, v: nat | u < g.n && v < g.n ensures out[u] == out[v] <==> Connected(g, u, v) {
      RepresentsPartition(g, root, u, v);
    }
    RootsConnected(g, root);
  }

  lemma RootsConnected(g: Graph, root: seq<nat>)
    requires Represents(g, root)
    ensures |root| == g.n && forall v: nat :: v < g.n ==> Connected(g, v, root[v])
  {}
}
