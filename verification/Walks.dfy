/** The number of walks between two nodes of a directed multigraph given by adjacency lists (parallel edges
    are repeated entries and count separately). */
module Walks {
  import opened Sums

  type Adjacency = seq<seq<nat>>

  ghost predicate WellFormed(adj: Adjacency) {
    forall u, i :: 0 <= u < |adj| && 0 <= i < |adj[u]| ==> adj[u][i] < |adj|
  }

  function Times(vs: seq<nat>, w: nat): nat { multiset(vs)[w] }

  /** The number of edges from u to v. */
  function Mult(adj: Adjacency, u: nat, v: nat): (m: real)
    ensures m >= 0.0
  {
    if u < |adj| then Times(adj[u], v) as real else 0.0
  }

  /** The number of walks with `length` edges from s to t. */
  ghost function Count(adj: Adjacency, s: nat, length: nat, t: nat): real
    decreases length
  {
    if length == 0 then if s == t then 1.0 else 0.0
    else Sum(|adj|, (u: nat) => Mult(adj, u, t) * Count(adj, s, length - 1, u))
  }

  lemma {:induction false} CountNonNegative(adj: Adjacency, s: nat, length: nat, t: nat)
    ensures Count(adj, s, length, t) >= 0.0
    decreases length
  {
    if length != 0 {
      forall u: nat ensures Mult(adj, u, t) * Count(adj, s, length - 1, u) >= 0.0 {
        CountNonNegative(adj, s, length - 1, u);
      }
      SumNonNegative(|adj|, (u: nat) => Mult(adj, u, t) * Count(adj, s, length - 1, u));
    }
  }

  /** Extending a walk by an edge. */
  lemma CountExtends(adj: Adjacency, s: nat, length: nat, u: nat, t: nat)
    requires u < |adj| && t in adj[u] && Count(adj, s, length, u) > 0.0
    ensures Count(adj, s, length + 1, t) > 0.0
  {
    var f := (x: nat) => Mult(adj, x, t) * Count(adj, s, length, x);
    forall x: nat ensures f(x) >= 0.0 {
      CountNonNegative(adj, s, length, x);
    }
    SumNonNegative(|adj|, f);
    assert Mult(adj, u, t) >= 1.0;
    assert f(u) > 0.0;
  }

  lemma MultPositive(adj: Adjacency, u: nat, t: nat)
    ensures Mult(adj, u, t) > 0.0 <==> u < |adj| && t in adj[u]
  {}

  lemma NotZeroProduct(x: real, y: real)
    requires x * y != 0.0
    ensures x != 0.0 && y != 0.0
  {}

  /** The last edge of a walk. */
  lemma CountLast(adj: Adjacency, s: nat, length: nat, t: nat) returns (u: nat)
    requires Count(adj, s, length + 1, t) > 0.0
    ensures u < |adj| && t in adj[u] && Count(adj, s, length, u) > 0.0
  {
    hide Mult, Times;
    var f := (x: nat) => Mult(adj, x, t) * Count(adj, s, length, x);
    if forall x: nat :: x < |adj| ==> f(x) == 0.0 {
      SumZero(|adj|, f);
    }
    u :| u < |adj| && f(u) != 0.0;
    CountNonNegative(adj, s, length, u);
    NotZeroProduct(Mult(adj, u, t), Count(adj, s, length, u));
    MultPositive(adj, u, t);
  }

  /** Walks may also be counted by their first edge. */
  lemma {:induction false} CountFirst(adj: Adjacency, v: nat, length: nat, t: nat)
    requires v < |adj| && t < |adj|
    ensures Count(adj, v, length + 1, t) == Sum(|adj|, (w: nat) => Mult(adj, v, w) * Count(adj, w, length, t))
    decreases length
  {
    hide Mult, Count, Sum;
    if length == 0 {
      CountOneEdge(adj, v, t);
    } else {
      var n := |adj|;
      var last := (u: nat) => Mult(adj, u, t) * Count(adj, v, length, u);
      var first := (w: nat) => Mult(adj, v, w) * Count(adj, w, length, t);
      var f := (u: nat, w: nat) => Mult(adj, u, t) * (Mult(adj, v, w) * Count(adj, w, length - 1, u));
      forall u: nat | u < n ensures last(u) == Sum(n, Row(f, u)) {
        CountFirst(adj, v, length - 1, u);
        RowOfLast(adj, v, length, t, u, Row(f, u));
      }
      forall w: nat | w < n ensures first(w) == Sum(n, Column(f, w)) {
        ColumnOfFirst(adj, v, length, t, w, Column(f, w));
      }
      SumSwap(n, n, f, last, first);
      CountUnfold(adj, v, length, t, last);
    }
  }

  lemma CountUnfold(adj: Adjacency, s: nat, length: nat, t: nat, f: nat -> real)
    requires forall u: nat :: f(u) == Mult(adj, u, t) * Count(adj, s, length, u)
    ensures Count(adj, s, length + 1, t) == Sum(|adj|, f)
  {
    hide Mult;
    SumCong(|adj|, f, (u: nat) => Mult(adj, u, t) * Count(adj, s, length, u));
  }

  lemma CountOneEdge(adj: Adjacency, v: nat, t: nat)
    requires v < |adj| && t < |adj|
    ensures Count(adj, v, 1, t) == Mult(adj, v, t) == Sum(|adj|, (w: nat) => Mult(adj, v, w) * Count(adj, w, 0, t))
  {
    hide Mult;
    var last := (u: nat) => Mult(adj, u, t) * Count(adj, v, 0, u);
    SumPoint(|adj|, last, v);
    CountUnfold(adj, v, 0, t, last);
    SumPoint(|adj|, (w: nat) => Mult(adj, v, w) * Count(adj, w, 0, t), t);
  }

  lemma Rearrange(a: real, b: real, c: real)
    ensures a * (b * c) == b * (a * c)
  {}

  lemma RowOfLast(adj: Adjacency, v: nat, length: nat, t: nat, u: nat, row: nat -> real)
    requires length > 0
    requires forall w: nat :: row(w) == Mult(adj, u, t) * (Mult(adj, v, w) * Count(adj, w, length - 1, u))
    ensures Mult(adj, u, t) * Sum(|adj|, (w: nat) => Mult(adj, v, w) * Count(adj, w, length - 1, u)) == Sum(|adj|, row)
  {
    hide Mult, Count;
    SumScale(|adj|, (w: nat) => Mult(adj, v, w) * Count(adj, w, length - 1, u), Mult(adj, u, t), row);
  }

  lemma ColumnOfFirst(adj: Adjacency, v: nat, length: nat, t: nat, w: nat, column: nat -> real)
    requires length > 0
    requires forall u: nat :: column(u) == Mult(adj, u, t) * (Mult(adj, v, w) * Count(adj, w, length - 1, u))
    ensures Mult(adj, v, w) * Count(adj, w, length, t) == Sum(|adj|, column)
  {
    hide Mult;
    var f := (u: nat) => Mult(adj, u, t) * Count(adj, w, length - 1, u);
    forall u: nat ensures column(u) == Mult(adj, v, w) * f(u) {
      Rearrange(Mult(adj, u, t), Mult(adj, v, w), Count(adj, w, length - 1, u));
    }
    SumScale(|adj|, f, Mult(adj, v, w), column);
  }
}

/** The walks themselves, as lists of choices among the out-edges, and what the counts of module Walks
    count. */
module WalkLists {
  import opened Sums
  import opened Walks

  /** A walk from s: each step picks a position in the current node's adjacency list. */
  ghost predicate IsWalk(adj: Adjacency, s: nat, p: seq<nat>)
    decreases |p|
  {
    s < |adj| && (p != [] ==> p[0] < |adj[s]| && IsWalk(adj, adj[s][p[0]], p[1..]))
  }

  ghost function End(adj: Adjacency, s: nat, p: seq<nat>): nat
    requires IsWalk(adj, s, p)
    decreases |p|
  {
    if p == [] then s else End(adj, adj[s][p[0]], p[1..])
  }

  lemma {:induction false} Prefixes(adj: Adjacency, s: nat, p: seq<nat>, i: nat)
    requires IsWalk(adj, s, p) && i <= |p|
    ensures IsWalk(adj, s, p[..i])
    ensures IsWalk(adj, End(adj, s, p[..i]), p[i..])
    ensures End(adj, End(adj, s, p[..i]), p[i..]) == End(adj, s, p)
    decreases i
  {
    if i == 0 {
      assert p[..0] == [] && p[0..] == p;
    } else {
      Prefixes(adj, adj[s][p[0]], p[1..], i - 1);
      assert p[..i][1..] == p[1..][..i - 1] && p[1..][i - 1..] == p[i..];
    }
  }

  /** The node a walk is at after i steps. */
  ghost function At(adj: Adjacency, s: nat, p: seq<nat>, i: nat): nat
    requires IsWalk(adj, s, p) && i <= |p|
  {
    Prefixes(adj, s, p, i);
    End(adj, s, p[..i])
  }

  /** The walks of p put after a first step i. */
  ghost function Prefixed(i: nat, ps: seq<seq<nat>>): (qs: seq<seq<nat>>)
    ensures |qs| == |ps| && forall k :: 0 <= k < |ps| ==> qs[k] == [i] + ps[k]
  {
    seq(|ps|, k requires 0 <= k < |ps| => [i] + ps[k])
  }

  /** All walks of the given length from s to t whose first step is below k. */
  ghost function ListFrom(adj: Adjacency, s: nat, length: nat, t: nat, k: nat): seq<seq<nat>>
    requires WellFormed(adj) && s < |adj| && k <= |adj[s]| && length > 0
    decreases length, 1, k
  {
    if k == 0 then []
    else ListFrom(adj, s, length, t, k - 1) + Prefixed(k - 1, List(adj, adj[s][k - 1], length - 1, t))
  }

  /** All walks of the given length from s to t. */
  ghost function List(adj: Adjacency, s: nat, length: nat, t: nat): seq<seq<nat>>
    requires WellFormed(adj) && s < |adj|
    decreases length, 2, 0
  {
    if length == 0 then if s == t then [[]] else []
    else ListFrom(adj, s, length, t, |adj[s]|)
  }

  ghost predicate IsWalkTo(adj: Adjacency, s: nat, length: nat, t: nat, p: seq<nat>) {
    IsWalk(adj, s, p) && |p| == length && End(adj, s, p) == t
  }

  /** The list holds every walk, and each once. */
  lemma {:induction false} ListIsComplete(adj: Adjacency, s: nat, length: nat, t: nat)
    requires WellFormed(adj) && s < |adj|
    ensures forall p: seq<nat> :: p in List(adj, s, length, t) <==> IsWalkTo(adj, s, length, t, p)
    ensures forall i, j :: 0 <= i < j < |List(adj, s, length, t)| ==> List(adj, s, length, t)[i] != List(adj, s, length, t)[j]
    decreases length, 2, 0
  {
    if length == 0 {
      forall p: seq<nat> ensures p in List(adj, s, length, t) <==> IsWalkTo(adj, s, length, t, p) {}
    } else {
      ListFromIsComplete(adj, s, length, t, |adj[s]|);
      forall p: seq<nat> ensures p in List(adj, s, length, t) <==> IsWalkTo(adj, s, length, t, p) {}
    }
  }

  lemma {:induction false} ListFromIsComplete(adj: Adjacency, s: nat, length: nat, t: nat, k: nat)
    requires WellFormed(adj) && s < |adj| && k <= |adj[s]| && length > 0
    ensures forall p: seq<nat> :: p in ListFrom(adj, s, length, t, k) <==> IsWalkTo(adj, s, length, t, p) && p[0] < k
    ensures forall i, j :: 0 <= i < j < |ListFrom(adj, s, length, t, k)| ==>
      ListFrom(adj, s, length, t, k)[i] != ListFrom(adj, s, length, t, k)[j]
    decreases length, 1, k
  {
    if k != 0 {
      var w := adj[s][k - 1];
      var before, rest := ListFrom(adj, s, length, t, k - 1), List(adj, w, length - 1, t);
      var mine := Prefixed(k - 1, rest);
      ListFromIsComplete(adj, s, length, t, k - 1);
      ListIsComplete(adj, w, length - 1, t);
      forall p: seq<nat> ensures p in mine <==> IsWalkTo(adj, s, length, t, p) && p[0] == k - 1 {
        if p in mine {
          var i :| 0 <= i < |mine| && mine[i] == p;
          assert rest[i] in rest && p[1..] == rest[i];
        }
        if IsWalkTo(adj, s, length, t, p) && p[0] == k - 1 {
          assert p[1..] in rest;
          var i :| 0 <= i < |rest| && rest[i] == p[1..];
          assert mine[i] == [k - 1] + p[1..] == p;
        }
      }
      var both: seq<seq<nat>> := before + mine;
      forall i, j | 0 <= i < j < |both| ensures both[i] != both[j] {
        if i < |before| <= j {
          assert before[i] in before && mine[j - |before|] in mine;
        } else if |before| <= i {
          var a, b := i - |before|, j - |before|;
          assert mine[a][1..] == rest[a] && mine[b][1..] == rest[b];
        }
      }
    }
  }

  /** How many of the walks have a property. */
  ghost function HowMany(ps: seq<seq<nat>>, q: seq<nat> -> bool): nat {
    if ps == [] then 0 else HowMany(ps[..|ps| - 1], q) + if q(ps[|ps| - 1]) then 1 else 0
  }

  lemma {:induction false} HowManySplit(ps: seq<seq<nat>>, qs: seq<seq<nat>>, q: seq<nat> -> bool)
    ensures HowMany(ps + qs, q) == HowMany(ps, q) + HowMany(qs, q)
  {
    if qs == [] {
      assert ps + qs == ps;
    } else {
      HowManySplit(ps, qs[..|qs| - 1], q);
      assert (ps + qs)[..|ps + qs| - 1] == ps + qs[..|qs| - 1];
    }
  }

  lemma {:induction false} HowManyCong(ps: seq<seq<nat>>, qs: seq<seq<nat>>, f: seq<nat> -> bool, g: seq<nat> -> bool)
    requires |ps| == |qs| && forall i :: 0 <= i < |ps| ==> f(ps[i]) == g(qs[i])
    ensures HowMany(ps, f) == HowMany(qs, g)
  {
    if ps != [] {
      HowManyCong(ps[..|ps| - 1], qs[..|qs| - 1], f, g);
    }
  }

  lemma {:induction false} HowManyAll(ps: seq<seq<nat>>, q: seq<nat> -> bool)
    requires forall p: seq<nat> :: p in ps ==> q(p)
    ensures HowMany(ps, q) == |ps|
  {
    if ps != [] {
      HowManyAll(ps[..|ps| - 1], q);
    }
  }

  lemma {:induction false} HowManyNone(ps: seq<seq<nat>>, q: seq<nat> -> bool)
    requires forall p: seq<nat> :: p in ps ==> !q(p)
    ensures HowMany(ps, q) == 0
  {
    if ps != [] {
      HowManyNone(ps[..|ps| - 1], q);
    }
  }

  /** Summing over a list of nodes is summing over the nodes with their multiplicities. */
  ghost function SumList(vs: seq<nat>, f: nat -> real): real {
    if vs == [] then 0.0 else SumList(vs[..|vs| - 1], f) + f(vs[|vs| - 1])
  }

  lemma {:induction false} SumListIsSum(n: nat, vs: seq<nat>, f: nat -> real, h: nat -> real)
    requires forall i :: 0 <= i < |vs| ==> vs[i] < n
    requires forall w: nat :: w < n ==> h(w) == Times(vs, w) as real * f(w)
    ensures SumList(vs, f) == Sum(n, h)
  {
    hide Times, Sum;
    if vs == [] {
      forall w: nat ensures Times(vs, w) == 0 {
        TimesNone(w);
      }
      SumZero(n, h);
    } else {
      var rest, last := vs[..|vs| - 1], vs[|vs| - 1];
      assert vs == rest + [last];
      var h' := (w: nat) => Times(rest, w) as real * f(w);
      var point := (w: nat) => if w == last then f(last) else 0.0;
      SumListIsSum(n, rest, f, h');
      SumPoint(n, point, last);
      forall w: nat | w < n ensures h(w) == h'(w) + point(w) {
        TimesAppend(rest, last, w);
        if w == last {
          Distribute(Times(rest, w), f(w));
        }
      }
      SumAdd(n, h', point, h);
    }
  }

  lemma TimesNone(w: nat)
    ensures Times([], w) == 0
  {}

  lemma TimesAppend(vs: seq<nat>, v: nat, w: nat)
    ensures Times(vs + [v], w) == Times(vs, w) + if v == w then 1 else 0
  {}

  lemma Distribute(k: nat, x: real)
    ensures (k + 1) as real * x == k as real * x + x
  {}

  /** Sums over the out-edges of s, as counts by the first edge. */
  lemma SumOutEdges(adj: Adjacency, s: nat, f: nat -> real, h: nat -> real)
    requires WellFormed(adj) && s < |adj|
    requires forall w: nat :: w < |adj| ==> h(w) == Mult(adj, s, w) * f(w)
    ensures SumList(adj[s], f) == Sum(|adj|, h)
  {
    hide Times, Sum, SumList;
    SumListIsSum(|adj|, adj[s], f, h);
  }

  lemma {:induction false} ListFromCount(adj: Adjacency, s: nat, length: nat, t: nat, k: nat, f: nat -> real)
    requires WellFormed(adj) && s < |adj| && k <= |adj[s]| && length > 0 && t < |adj|
    requires forall w: nat :: f(w) == Count(adj, w, length - 1, t)
    ensures |ListFrom(adj, s, length, t, k)| as real == SumList(adj[s][..k], f)
    decreases length, 1, k
  {
    hide Count;
    if k != 0 {
      ListFromCount(adj, s, length, t, k - 1, f);
      ListCount(adj, adj[s][k - 1], length - 1, t);
      assert adj[s][..k][..k - 1] == adj[s][..k - 1];
    }
  }

  /** The number of listed walks is the count. */
  lemma {:induction false} ListCount(adj: Adjacency, s: nat, length: nat, t: nat)
    requires WellFormed(adj) && s < |adj| && t < |adj|
    ensures |List(adj, s, length, t)| as real == Count(adj, s, length, t)
    decreases length, 2, 0
  {
    if length != 0 {
      hide Count, Mult, Sum;
      var f := (w: nat) => Count(adj, w, length - 1, t);
      ListFromCount(adj, s, length, t, |adj[s]|, f);
      assert adj[s][..|adj[s]|] == adj[s];
      SumOutEdges(adj, s, f, (w: nat) => Mult(adj, s, w) * Count(adj, w, length - 1, t));
      CountFirst(adj, s, length - 1, t);
    }
  }

  /** The walks that are at v after i steps. */
  ghost function AtIs(adj: Adjacency, s: nat, i: nat, v: nat): seq<nat> -> bool {
    (p: seq<nat>) => IsWalk(adj, s, p) && i <= |p| && At(adj, s, p, i) == v
  }

  lemma AtAfterStep(adj: Adjacency, s: nat, i: nat, v: nat, j: nat, p: seq<nat>)
    requires s < |adj| && j < |adj[s]| && i > 0
    ensures AtIs(adj, s, i, v)([j] + p) == AtIs(adj, adj[s][j], i - 1, v)(p)
  {
    assert ([j] + p)[1..] == p;
    if IsWalk(adj, adj[s][j], p) && i <= |p| + 1 {
      assert ([j] + p)[..i] == [j] + p[..i - 1];
      assert ([j] + p)[..i][1..] == p[..i - 1];
    }
  }

  /** Walks that are at v after i steps, by count: any walk to v followed by any walk onwards. */
  ghost function CountVia(adj: Adjacency, s: nat, length: nat, t: nat, i: nat, v: nat): real
    requires i <= length
  {
    Count(adj, s, i, v) * Count(adj, v, length - i, t)
  }

  lemma {:induction false} ListFromThrough(adj: Adjacency, s: nat, length: nat, t: nat, i: nat, v: nat, k: nat, f: nat -> real)
    requires WellFormed(adj) && s < |adj| && k <= |adj[s]| && 0 < i <= length && t < |adj| && v < |adj|
    requires forall w: nat :: f(w) == CountVia(adj, w, length - 1, t, i - 1, v)
    ensures HowMany(ListFrom(adj, s, length, t, k), AtIs(adj, s, i, v)) as real == SumList(adj[s][..k], f)
    decreases length, 1, k
  {
    hide CountVia, AtIs, IsWalk, List;
    if k != 0 {
      var w := adj[s][k - 1];
      var rest := List(adj, w, length - 1, t);
      ListFromThrough(adj, s, length, t, i, v, k - 1, f);
      ListThrough(adj, w, length - 1, t, i - 1, v);
      assert adj[s][..k][..k - 1] == adj[s][..k - 1];
      HowManySplit(ListFrom(adj, s, length, t, k - 1), Prefixed(k - 1, rest), AtIs(adj, s, i, v));
      forall m | 0 <= m < |rest| ensures AtIs(adj, w, i - 1, v)(rest[m]) == AtIs(adj, s, i, v)([k - 1] + rest[m]) {
        AtAfterStep(adj, s, i, v, k - 1, rest[m]);
      }
      HowManyCong(rest, Prefixed(k - 1, rest), AtIs(adj, w, i - 1, v), AtIs(adj, s, i, v));
    }
  }

  lemma ThroughSum(adj: Adjacency, s: nat, length: nat, t: nat, i: nat, v: nat, f: nat -> real)
    requires WellFormed(adj) && s < |adj| && v < |adj| && 0 < i <= length
    requires forall w: nat :: f(w) == CountVia(adj, w, length - 1, t, i - 1, v)
    ensures SumList(adj[s], f) == CountVia(adj, s, length, t, i, v)
  {
    hide Count, Mult, Sum, SumList;
    var c := Count(adj, v, length - i, t);
    var g := (w: nat) => Mult(adj, s, w) * Count(adj, w, i - 1, v);
    var h := (w: nat) => c * g(w);
    forall w: nat ensures h(w) == Mult(adj, s, w) * f(w) {
      Rearrange(c, Mult(adj, s, w), Count(adj, w, i - 1, v));
    }
    SumOutEdges(adj, s, f, h);
    SumScale(|adj|, g, c, h);
    CountFirst(adj, s, i - 1, v);
  }

  lemma {:induction false} ListThrough(adj: Adjacency, s: nat, length: nat, t: nat, i: nat, v: nat)
    requires WellFormed(adj) && s < |adj| && t < |adj| && v < |adj| && i <= length
    ensures HowMany(List(adj, s, length, t), AtIs(adj, s, i, v)) as real == CountVia(adj, s, length, t, i, v)
    decreases length, 2, 0
  {
    if i == 0 {
      StartCount(adj, s, length, t, v);
    } else {
      hide CountVia, AtIs, HowMany, SumList, ListFrom;
      var f := (w: nat) => CountVia(adj, w, length - 1, t, i - 1, v);
      ListFromThrough(adj, s, length, t, i, v, |adj[s]|, f);
      assert adj[s][..|adj[s]|] == adj[s];
      ThroughSum(adj, s, length, t, i, v, f);
    }
  }

  lemma StartCount(adj: Adjacency, s: nat, length: nat, t: nat, v: nat)
    requires WellFormed(adj) && s < |adj| && t < |adj| && v < |adj|
    ensures HowMany(List(adj, s, length, t), AtIs(adj, s, 0, v)) as real == CountVia(adj, s, length, t, 0, v)
  {
    ListIsComplete(adj, s, length, t);
    forall p: seq<nat> | p in List(adj, s, length, t) ensures AtIs(adj, s, 0, v)(p) == (s == v) {
      assert IsWalkTo(adj, s, length, t, p);
      assert p[..0] == [];
    }
    if s == v {
      HowManyAll(List(adj, s, length, t), AtIs(adj, s, 0, v));
      ListCount(adj, s, length, t);
    } else {
      HowManyNone(List(adj, s, length, t), AtIs(adj, s, 0, v));
    }
  }
}
