/** The layered neighbour graph of the vector index and the bounded best-first search of one layer (ts/src/ann.ts).
    Ids stand for strings in their order; vectors are taken as already normalised. */
module HnswSearch {
  import opened Basics
  import opened Sums

  type Vec = seq<real>

  /** A node is listed at the layers up to its level, with its neighbours there. */
  datatype Node = Node(vec: Vec, level: nat, neighbors: seq<seq<nat>>)

  type Net = map<nat, Node>

  datatype Cand = Cand(id: nat, d: real)

  // ---- Distance ----------------------------------------------------------------------------------

  function Dot(a: Vec, b: Vec, n: nat): real
    requires n <= |a| && n <= |b|
  {
    if n == 0 then 0.0 else Dot(a, b, n - 1) + a[n - 1] * b[n - 1]
  }

  function Dist(a: Vec, b: Vec): real { 1.0 - Dot(a, b, Min(|a|, |b|)) }

  method ComputeDist(a: Vec, b: Vec) returns (d: real)
    ensures d == Dist(a, b)
  {
    var len := Min(|a|, |b|);
    var dot := 0.0;
    for i := 0 to len
      invariant dot == Dot(a, b, i)
    {
      dot := dot + a[i] * b[i];
    }
    d := 1.0 - dot;
  }

  /** The products of the entries two vectors both have. */
  ghost function Products(a: Vec, b: Vec): nat -> real {
    (i: nat) => if i < |a| && i < |b| then a[i] * b[i] else 0.0
  }

  ghost function Square(a: Vec, b: Vec): nat -> real {
    (i: nat) => if i < |a| && i < |b| then (a[i] - b[i]) * (a[i] - b[i]) else 0.0
  }

  lemma {:induction false} DotIsSum(a: Vec, b: Vec, n: nat)
    requires n <= |a| && n <= |b|
    ensures Dot(a, b, n) == Sum(n, Products(a, b))
  {
    if n > 0 {
      DotIsSum(a, b, n - 1);
    }
  }

  /** The distance is one less the sum of products, the cosine of vectors of length one. */
  lemma DistIs(a: Vec, b: Vec)
    ensures Dist(a, b) == 1.0 - Sum(Min(|a|, |b|), Products(a, b))
  {
    DotIsSum(a, b, Min(|a|, |b|));
  }

  /** For vectors of length one it is half the square of their Euclidean distance: the nearest by one are the nearest by
      the other. */
  lemma DistIsEuclidean(a: Vec, b: Vec)
    requires |a| == |b| && Sum(|a|, Products(a, a)) == 1.0 && Sum(|b|, Products(b, b)) == 1.0
    ensures Sum(|a|, Square(a, b)) == 2.0 * Dist(a, b)
  {
    DistIs(a, b);
    SquaresSum(a, b, |a|);
  }

  lemma {:induction false} SquaresSum(a: Vec, b: Vec, n: nat)
    requires n <= |a| == |b|
    ensures Sum(n, Square(a, b)) == Sum(n, Products(a, a)) + Sum(n, Products(b, b)) - 2.0 * Sum(n, Products(a, b))
  {
    if n > 0 {
      SquaresSum(a, b, n - 1);
      Binomial(a[n - 1], b[n - 1]);
    }
  }

  lemma Binomial(x: real, y: real)
    ensures (x - y) * (x - y) == x * x + y * y - 2.0 * (x * y)
  {}

  // ---- Sorted candidate lists ----------------------------------------------------------------------

  predicate Before(c: Cand, e: Cand) { c.d < e.d || (c.d == e.d && c.id < e.id) }

  ghost predicate Sorted(cs: seq<Cand>) { forall i, j :: 0 <= i < j < |cs| ==> Before(cs[i], cs[j]) }

  ghost predicate Holds(cs: seq<Cand>, id: nat) { exists i :: 0 <= i < |cs| && cs[i].id == id }

  /** The distances are those to q. */
  ghost predicate True(net: Net, q: Vec, cs: seq<Cand>) {
    forall i :: 0 <= i < |cs| ==> cs[i].id in net && cs[i].d == Dist(q, net[cs[i].id].vec)
  }

  function Insert(cs: seq<Cand>, at: nat, c: Cand): seq<Cand>
    requires at <= |cs|
  {
    cs[..at] + [c] + cs[at..]
  }

  /** Binary search for the place of a candidate that is not in the list. */
  method InsertSorted(cs: seq<Cand>, item: Cand) returns (r: seq<Cand>, ghost at: nat)
    requires Sorted(cs) && !Holds(cs, item.id)
    ensures at <= |cs| && r == Insert(cs, at, item) && Sorted(r)
  {
    var lo, hi := 0, |cs|;
    while lo < hi
      invariant 0 <= lo <= hi <= |cs|
      invariant forall i :: 0 <= i < lo ==> Before(cs[i], item)
      invariant forall i :: hi <= i < |cs| ==> Before(item, cs[i])
    {
      var mid := (lo + hi) / 2;
      var c := cs[mid];
      assert c.id != item.id;
      if c.d < item.d || (c.d == item.d && c.id < item.id) {
        lo := mid + 1;
      } else {
        hi := mid;
      }
    }
    r := cs[..lo] + [item] + cs[lo..];
    at := lo;
  }

  lemma InsertHolds(cs: seq<Cand>, at: nat, c: Cand, id: nat)
    requires at <= |cs|
    ensures Holds(Insert(cs, at, c), id) <==> Holds(cs, id) || id == c.id
  {
    var r := Insert(cs, at, c);
    if Holds(cs, id) {
      var i :| 0 <= i < |cs| && cs[i].id == id;
      assert r[if i < at then i else i + 1].id == id;
    }
    if id == c.id {
      assert r[at].id == id;
    }
    if Holds(r, id) {
      var i :| 0 <= i < |r| && r[i].id == id;
      assert r[i] == c || cs[if i < at then i else i - 1].id == id;
    }
  }

  /** With true distances a sorted list holds no id twice. */
  lemma SortedDistinct(net: Net, q: Vec, cs: seq<Cand>, i: nat, j: nat)
    requires Sorted(cs) && True(net, q, cs) && i < j < |cs|
    ensures cs[i].id != cs[j].id
  {
    assert Before(cs[i], cs[j]);
  }

  ghost function Ids(cs: seq<Cand>): set<nat> {
    if cs == [] then {} else Ids(cs[..|cs| - 1]) + {cs[|cs| - 1].id}
  }

  lemma {:induction false} IdsHolds(cs: seq<Cand>, id: nat)
    ensures id in Ids(cs) <==> Holds(cs, id)
  {
    if cs != [] {
      var init := cs[..|cs| - 1];
      IdsHolds(init, id);
      if Holds(init, id) {
        var i :| 0 <= i < |init| && init[i].id == id;
        assert cs[i].id == id;
      }
      assert cs[|cs| - 1].id == id ==> Holds(cs, id);
      if Holds(cs, id) && cs[|cs| - 1].id != id {
        var i :| 0 <= i < |cs| && cs[i].id == id;
        assert init[i].id == id;
      }
    }
  }

  lemma {:induction false} IdsSize(net: Net, q: Vec, cs: seq<Cand>)
    requires Sorted(cs) && True(net, q, cs)
    ensures |Ids(cs)| == |cs| && Ids(cs) <= net.Keys
  {
    if cs != [] {
      var init, last := cs[..|cs| - 1], cs[|cs| - 1];
      IdsSize(net, q, init);
      IdsHolds(init, last.id);
      forall i: nat | i < |init| ensures init[i].id != last.id {
        SortedDistinct(net, q, cs, i, |cs| - 1);
      }
    }
  }

  lemma KeysSize(net: Net)
    ensures |net.Keys| == |net|
  {}

  /** Results that could hold every node, and are full, hold every node. */
  lemma FullHoldsAll(net: Net, q: Vec, cs: seq<Cand>)
    requires Sorted(cs) && True(net, q, cs) && |cs| >= |net|
    ensures forall v: nat :: v in net ==> Holds(cs, v)
  {
    IdsSize(net, q, cs);
    KeysSize(net);
    SubsetSize(Ids(cs), net.Keys);
    forall v: nat | v in net ensures Holds(cs, v) {
      IdsHolds(cs, v);
    }
  }

  // ---- One layer ---------------------------------------------------------------------------------

  function Links(net: Net, layer: nat, id: nat): seq<nat>
    requires id in net
  {
    if layer < |net[id].neighbors| then net[id].neighbors[layer] else []
  }

  /** Every listed neighbour exists. */
  ghost predicate Closed(net: Net, layer: nat) {
    forall id: nat, n: nat :: id in net && n in Links(net, layer, id) ==> n in net
  }

  ghost predicate IsTrail(net: Net, layer: nat, eps: seq<nat>, p: seq<nat>) {
    && |p| > 0 && p[0] in eps && (forall i :: 0 <= i < |p| ==> p[i] in net)
    && forall i :: 0 <= i < |p| - 1 ==> p[i + 1] in Links(net, layer, p[i])
  }

  /** id can be reached from an entry point along the layer's links. */
  ghost predicate Reached(net: Net, layer: nat, eps: seq<nat>, id: nat) {
    exists p :: IsTrail(net, layer, eps, p) && p[|p| - 1] == id
  }

  lemma ReachedStart(net: Net, layer: nat, eps: seq<nat>, id: nat)
    requires id in eps && id in net
    ensures Reached(net, layer, eps, id)
  {
    assert IsTrail(net, layer, eps, [id]);
  }

  lemma ReachedStep(net: Net, layer: nat, eps: seq<nat>, id: nat, n: nat)
    requires Reached(net, layer, eps, id) && id in net && n in net && n in Links(net, layer, id)
    ensures Reached(net, layer, eps, n)
  {
    var p :| IsTrail(net, layer, eps, p) && p[|p| - 1] == id;
    assert IsTrail(net, layer, eps, p + [n]);
    assert (p + [n])[|p + [n]| - 1] == n;
  }

  lemma {:induction false} ReachedInside(net: Net, layer: nat, eps: seq<nat>, inside: set<nat>, p: seq<nat>)
    requires IsTrail(net, layer, eps, p)
    requires forall id :: id in eps ==> id in inside
    requires forall id: nat, n: nat :: id in inside && id in net && n in Links(net, layer, id) ==> n in inside
    ensures p[|p| - 1] in inside
    decreases |p|
  {
    if |p| > 1 {
      var q := p[..|p| - 1];
      ReachedInside(net, layer, eps, inside, q);
      assert p[|p| - 2 + 1] in Links(net, layer, p[|p| - 2]);
    }
  }

  // ---- What the search keeps ---------------------------------------------------------------------

  datatype State = State(visited: set<nat>, cands: seq<Cand>, results: seq<Cand>)

  type Filter = nat -> bool

  /** v is among the results, or these are full and all at least as near. */
  ghost predicate Covered(net: Net, q: Vec, ef: nat, results: seq<Cand>, v: nat) {
    v in net && (Holds(results, v) || (|results| == ef > 0 && Dist(q, net[v].vec) >= results[|results| - 1].d))
  }

  ghost predicate ListsOk(net: Net, q: Vec, ef: nat, accept: Filter, s: State) {
    && Sorted(s.cands) && True(net, q, s.cands) && Sorted(s.results) && True(net, q, s.results)
    && |s.results| <= ef
    && (forall i :: 0 <= i < |s.results| ==> accept(s.results[i].id))
    && s.visited <= net.Keys
    && (forall v :: Holds(s.cands, v) ==> v in s.visited)
    && (forall v :: Holds(s.results, v) ==> v in s.visited)
    && forall v :: v in s.visited && accept(v) ==> Covered(net, q, ef, s.results, v)
  }

  /** Expanded nodes have been taken from the frontier; the frontier and they hold every result, and, while the
      results can hold every node, every visited node. */
  ghost predicate FrontierOk(net: Net, ef: nat, s: State, expanded: set<nat>) {
    && expanded <= s.visited
    && (forall v :: Holds(s.cands, v) ==> v !in expanded)
    && (forall v :: Holds(s.results, v) ==> v in expanded || Holds(s.cands, v))
    && (|net| <= ef ==> forall v :: v in s.visited ==> v in expanded || Holds(s.cands, v))
  }

  ghost predicate AllReached(net: Net, layer: nat, eps: seq<nat>, visited: set<nat>) {
    (forall v :: v in eps ==> v in visited) && forall v :: v in visited ==> Reached(net, layer, eps, v)
  }

  ghost predicate AllLinksVisited(net: Net, layer: nat, visited: set<nat>, ids: set<nat>) {
    forall id: nat, n: nat :: id in ids && id in net && n in Links(net, layer, id) ==> n in visited
  }

  /** The promise of a search: sorted true distances of accepted nodes that can be reached, at most ef; no accepted
      entry point and no accepted neighbour of a result is nearer than the results without being one; and with room
      for every node, all accepted nodes that can be reached. */
  ghost predicate IsSearched(net: Net, layer: nat, q: Vec, eps: seq<nat>, ef: nat, accept: Filter, results: seq<Cand>) {
    && Sorted(results) && True(net, q, results) && |results| <= ef
    && (forall v :: Holds(results, v) ==> accept(v) && Reached(net, layer, eps, v))
    && (forall v :: v in eps && accept(v) ==> Covered(net, q, ef, results, v))
    && (forall v: nat, n: nat :: Holds(results, v) && v in net && n in Links(net, layer, v) && accept(n) ==>
          Covered(net, q, ef, results, n))
    && (|net| <= ef ==> forall v :: Holds(results, v) <==> accept(v) && Reached(net, layer, eps, v))
  }

  // ---- Pushing a node ----------------------------------------------------------------------------

  function Trim(cs: seq<Cand>, ef: nat): seq<Cand> { if |cs| > ef then cs[..|cs| - 1] else cs }

  ghost predicate ResultsOk(net: Net, q: Vec, ef: nat, accept: Filter, results: seq<Cand>) {
    Sorted(results) && True(net, q, results) && |results| <= ef && forall i :: 0 <= i < |results| ==> accept(results[i].id)
  }

  lemma ResultsPush(net: Net, q: Vec, ef: nat, accept: Filter, results: seq<Cand>, at: nat, c: Cand)
    requires ResultsOk(net, q, ef, accept, results) && at <= |results| && Sorted(Insert(results, at, c)) && ef > 0
    requires c.id in net && c.d == Dist(q, net[c.id].vec) && accept(c.id)
    ensures ResultsOk(net, q, ef, accept, Trim(Insert(results, at, c), ef))
    ensures forall v :: Holds(Trim(Insert(results, at, c), ef), v) ==> Holds(results, v) || v == c.id
  {
    hide Dist;
    var all := Insert(results, at, c);
    var r := Trim(all, ef);
    forall v | Holds(r, v) ensures Holds(results, v) || v == c.id {
      var i :| 0 <= i < |r| && r[i].id == v;
      assert all[i].id == v;
      InsertHolds(results, at, c, v);
    }
  }

  lemma CoveredPush(net: Net, q: Vec, ef: nat, results: seq<Cand>, at: nat, c: Cand, v: nat)
    requires Sorted(results) && True(net, q, results) && |results| <= ef && at <= |results| && Sorted(Insert(results, at, c)) && ef > 0
    requires c.id in net && c.d == Dist(q, net[c.id].vec)
    requires v == c.id || Covered(net, q, ef, results, v)
    ensures Covered(net, q, ef, Trim(Insert(results, at, c), ef), v)
  {
    hide Dist;
    var all := Insert(results, at, c);
    var r := Trim(all, ef);
    InsertHolds(results, at, c, v);
    if |all| > ef {
      assert Before(all[ef - 1], all[ef]);
      assert at < ef ==> all[ef] == results[ef - 1];
    }
    if Holds(all, v) {
      var i :| 0 <= i < |all| && all[i].id == v;
      assert i < |r| ==> r[i].id == v;
      assert all[i].d == Dist(q, net[v].vec);
    }
  }

  function Push(s: State, c: Cand, accept: Filter, ef: nat, at: nat, at': nat): State
    requires at <= |s.cands| && at' <= |s.results|
  {
    State(s.visited + {c.id}, Insert(s.cands, at, c), if accept(c.id) then Trim(Insert(s.results, at', c), ef) else s.results)
  }

  lemma CandsPush(net: Net, q: Vec, cands: seq<Cand>, at: nat, c: Cand)
    requires True(net, q, cands) && at <= |cands| && c.id in net && c.d == Dist(q, net[c.id].vec)
    ensures True(net, q, Insert(cands, at, c))
  {}

  lemma PushKeeps(net: Net, q: Vec, ef: nat, accept: Filter, s: State, expanded: set<nat>, c: Cand, at: nat, at': nat)
    requires ListsOk(net, q, ef, accept, s) && FrontierOk(net, ef, s, expanded) && ef > 0
    requires c.id in net && c.d == Dist(q, net[c.id].vec) && c.id !in s.visited
    requires at <= |s.cands| && at' <= |s.results| && Sorted(Insert(s.cands, at, c))
    requires accept(c.id) ==> Sorted(Insert(s.results, at', c))
    ensures ListsOk(net, q, ef, accept, Push(s, c, accept, ef, at, at'))
    ensures FrontierOk(net, ef, Push(s, c, accept, ef, at, at'), expanded)
  {
    var s' := Push(s, c, accept, ef, at, at');
    assert ResultsOk(net, q, ef, accept, s.results);
    CandsPush(net, q, s.cands, at, c);
    hide Dist, Insert, Trim, Covered, Sorted, True, Holds;
    forall v: nat ensures Holds(s'.cands, v) <==> Holds(s.cands, v) || v == c.id {
      InsertHolds(s.cands, at, c, v);
    }
    if accept(c.id) {
      ResultsPush(net, q, ef, accept, s.results, at', c);
      forall v | v in s'.visited && accept(v) ensures Covered(net, q, ef, s'.results, v) {
        CoveredPush(net, q, ef, s.results, at', c, v);
      }
    }
  }

  /** A node that is not nearer than full results is left aside. */
  lemma SkipKeeps(net: Net, q: Vec, ef: nat, accept: Filter, s: State, expanded: set<nat>, c: Cand)
    requires ListsOk(net, q, ef, accept, s) && FrontierOk(net, ef, s, expanded) && ef > 0
    requires c.id in net && c.d == Dist(q, net[c.id].vec) && c.id !in s.visited
    requires |s.results| == ef && c.d >= s.results[|s.results| - 1].d
    ensures ListsOk(net, q, ef, accept, State(s.visited + {c.id}, s.cands, s.results))
    ensures FrontierOk(net, ef, State(s.visited + {c.id}, s.cands, s.results), expanded)
  {
    hide Dist, Holds;
    if |net| <= ef {
      FullHoldsAll(net, q, s.results);
    }
  }

  // ---- The search --------------------------------------------------------------------------------

  ghost predicate DistinctIn(net: Net, eps: seq<nat>) {
    (forall i :: 0 <= i < |eps| ==> eps[i] in net) && forall i, j :: 0 <= i < j < |eps| ==> eps[i] != eps[j]
  }

  /** Offers one node: it goes to the frontier, and to the results if accepted. */
  method Offer(net: Net, q: Vec, ef: nat, accept: Filter, s: State, ghost expanded: set<nat>, c: Cand)
    returns (s': State)
    requires ListsOk(net, q, ef, accept, s) && FrontierOk(net, ef, s, expanded) && ef > 0
    requires c.id in net && c.d == Dist(q, net[c.id].vec) && c.id !in s.visited
    ensures ListsOk(net, q, ef, accept, s') && FrontierOk(net, ef, s', expanded)
    ensures s'.visited == s.visited + {c.id}
  {
    ListsFacts(net, q, ef, accept, s, c.id);
    hide *;
    var cands, at := InsertSorted(s.cands, c);
    var results := s.results;
    ghost var at' := 0;
    if accept(c.id) {
      results, at' := InsertSorted(s.results, c);
      if |results| > ef {
        results := results[..|results| - 1];
      }
    }
    s' := State(s.visited + {c.id}, cands, results);
    assert s' == Push(s, c, accept, ef, at, at') by { PushIs(s, c, accept, ef, at, at'); }
    PushKeeps(net, q, ef, accept, s, expanded, c, at, at');
  }

  lemma PushIs(s: State, c: Cand, accept: Filter, ef: nat, at: nat, at': nat)
    requires at <= |s.cands| && at' <= |s.results|
    ensures Push(s, c, accept, ef, at, at').visited == s.visited + {c.id}
    ensures Push(s, c, accept, ef, at, at').cands == Insert(s.cands, at, c)
    ensures var all := Insert(s.results, at', c);
      Push(s, c, accept, ef, at, at').results == if !accept(c.id) then s.results else if |all| > ef then all[..|all| - 1] else all
  {}

  lemma ListsFacts(net: Net, q: Vec, ef: nat, accept: Filter, s: State, v: nat)
    requires ListsOk(net, q, ef, accept, s)
    ensures Sorted(s.cands) && Sorted(s.results) && |s.results| <= ef && s.visited <= net.Keys
    ensures v !in s.visited ==> !Holds(s.cands, v) && !Holds(s.results, v)
    ensures forall i :: 0 <= i < |s.cands| ==> s.cands[i].id in s.visited
  {
    forall i | 0 <= i < |s.cands| ensures s.cands[i].id in s.visited {
      assert Holds(s.cands, s.cands[i].id);
    }
  }

  lemma EmptyState(net: Net, q: Vec, ef: nat, accept: Filter)
    ensures ListsOk(net, q, ef, accept, State({}, [], [])) && FrontierOk(net, ef, State({}, [], []), {})
  {}

  /** Taking the nearest node from the frontier. */
  lemma PopKeeps(net: Net, q: Vec, ef: nat, accept: Filter, s: State, expanded: set<nat>)
    requires ListsOk(net, q, ef, accept, s) && FrontierOk(net, ef, s, expanded) && s.cands != []
    ensures s.cands[0].id in s.visited && s.cands[0].id !in expanded
    ensures var s' := State(s.visited, s.cands[1..], s.results);
            ListsOk(net, q, ef, accept, s') && FrontierOk(net, ef, s', expanded + {s.cands[0].id})
  {
    hide Dist, Covered;
    var c, rest := s.cands[0], s.cands[1..];
    forall v: nat ensures Holds(s.cands, v) <==> Holds(rest, v) || v == c.id {
      PopHolds(s.cands, v);
    }
    forall i | 0 <= i < |rest| ensures rest[i].id != c.id {
      SortedDistinct(net, q, s.cands, 0, i + 1);
    }
  }

  lemma PopHolds(cs: seq<Cand>, v: nat)
    requires cs != []
    ensures Holds(cs, v) <==> Holds(cs[1..], v) || v == cs[0].id
  {
    var rest := cs[1..];
    if Holds(cs, v) {
      var i :| 0 <= i < |cs| && cs[i].id == v;
      assert i > 0 ==> rest[i - 1].id == v;
    }
    if Holds(rest, v) {
      var i :| 0 <= i < |rest| && rest[i].id == v;
      assert cs[i + 1].id == v;
    }
    assert cs[0].id == v ==> Holds(cs, v);
  }

  /** Stopping early: every node left in the frontier is farther than the results, so all results are expanded. */
  lemma StopIsRight(net: Net, layer: nat, q: Vec, eps: seq<nat>, ef: nat, accept: Filter, s: State, expanded: set<nat>)
    requires ListsOk(net, q, ef, accept, s) && FrontierOk(net, ef, s, expanded) && Closed(net, layer)
    requires AllReached(net, layer, eps, s.visited) && AllLinksVisited(net, layer, s.visited, expanded)
    requires s.cands != [] && |s.results| == ef > 0 && s.cands[0].d > s.results[ef - 1].d
    ensures IsSearched(net, layer, q, eps, ef, accept, s.results)
  {
    hide Dist, Reached;
    forall v: nat | Holds(s.results, v) ensures v in expanded {
      var i :| 0 <= i < |s.results| && s.results[i].id == v;
      assert s.results[i].d <= s.results[ef - 1].d;
      forall j | 0 <= j < |s.cands| ensures s.cands[j].id != v {
        assert s.cands[0].d <= s.cands[j].d;
      }
    }
    AcceptedResults(s.results, accept);
    if |net| <= ef {
      FullHoldsAll(net, q, s.results);
      ReachedExist(net, layer, eps);
    }
  }

  lemma AcceptedResults(results: seq<Cand>, accept: Filter)
    requires forall i :: 0 <= i < |results| ==> accept(results[i].id)
    ensures forall v :: Holds(results, v) ==> accept(v)
  {}

  lemma ReachedExist(net: Net, layer: nat, eps: seq<nat>)
    ensures forall v :: Reached(net, layer, eps, v) ==> v in net
  {}

  /** Running out of frontier: everything visited has been expanded. */
  lemma EndIsRight(net: Net, layer: nat, q: Vec, eps: seq<nat>, ef: nat, accept: Filter, s: State, expanded: set<nat>)
    requires ListsOk(net, q, ef, accept, s) && FrontierOk(net, ef, s, expanded) && Closed(net, layer)
    requires AllReached(net, layer, eps, s.visited) && AllLinksVisited(net, layer, s.visited, expanded)
    requires s.cands == [] && ef > 0
    ensures IsSearched(net, layer, q, eps, ef, accept, s.results)
  {
    hide Dist, Reached;
    assert forall v :: !Holds(s.cands, v);
    AcceptedResults(s.results, accept);
    if |net| <= ef {
      forall v | Reached(net, layer, eps, v) ensures v in s.visited {
        InVisited(net, layer, eps, s.visited, v);
      }
      if |s.results| == ef {
        FullHoldsAll(net, q, s.results);
      }
    }
  }

  lemma InVisited(net: Net, layer: nat, eps: seq<nat>, visited: set<nat>, v: nat)
    requires Reached(net, layer, eps, v) && (forall e :: e in eps ==> e in visited)
    requires AllLinksVisited(net, layer, visited, visited)
    ensures v in visited
  {
    var p :| IsTrail(net, layer, eps, p) && p[|p| - 1] == v;
    ReachedInside(net, layer, eps, visited, p);
  }

  /** A node met for the first time is kept when there is room or it is nearer than the farthest result. */
  method Consider(net: Net, q: Vec, ef: nat, accept: Filter, s0: State, ghost expanded: set<nat>, nid: nat)
    returns (s: State)
    requires ef > 0 && nid in net && nid !in s0.visited
    requires ListsOk(net, q, ef, accept, s0) && FrontierOk(net, ef, s0, expanded)
    ensures ListsOk(net, q, ef, accept, s) && FrontierOk(net, ef, s, expanded) && s.visited == s0.visited + {nid}
  {
    hide ListsOk, FrontierOk, Dist;
    ListsFacts(net, q, ef, accept, s0, nid);
    var d := ComputeDist(q, net[nid].vec);
    if |s0.results| < ef || d < s0.results[|s0.results| - 1].d {
      s := Offer(net, q, ef, accept, s0, expanded, Cand(nid, d));
    } else {
      SkipKeeps(net, q, ef, accept, s0, expanded, Cand(nid, d));
      s := State(s0.visited + {nid}, s0.cands, s0.results);
    }
  }

  lemma ReachedGrows(net: Net, layer: nat, eps: seq<nat>, visited: set<nat>, id: nat, nid: nat)
    requires AllReached(net, layer, eps, visited) && Reached(net, layer, eps, id)
    requires id in net && nid in net && nid in Links(net, layer, id)
    ensures AllReached(net, layer, eps, visited + {nid})
  {
    ReachedStep(net, layer, eps, id, nid);
  }

  lemma LinksGrow(net: Net, layer: nat, before: set<nat>, visited: set<nat>, expanded: set<nat>, id: nat)
    requires AllLinksVisited(net, layer, before, expanded - {id}) && before <= visited && id in net
    requires forall i :: 0 <= i < |Links(net, layer, id)| ==> Links(net, layer, id)[i] in visited
    ensures AllLinksVisited(net, layer, visited, expanded)
  {}

  lemma LinksExist(net: Net, layer: nat, id: nat)
    requires Closed(net, layer) && id in net
    ensures forall i :: 0 <= i < |Links(net, layer, id)| ==> Links(net, layer, id)[i] in net
  {
    forall i | 0 <= i < |Links(net, layer, id)| ensures Links(net, layer, id)[i] in net {
      assert Links(net, layer, id)[i] in Links(net, layer, id);
    }
  }

  /** The neighbours of one expanded node. */
  method ExpandNode(net: Net, layer: nat, q: Vec, ghost eps: seq<nat>, ef: nat, accept: Filter, s0: State, ghost expanded: set<nat>, id: nat)
    returns (s: State)
    requires Closed(net, layer) && ef > 0 && id in net && id in expanded && Reached(net, layer, eps, id)
    requires ListsOk(net, q, ef, accept, s0) && FrontierOk(net, ef, s0, expanded) && AllReached(net, layer, eps, s0.visited)
    requires AllLinksVisited(net, layer, s0.visited, expanded - {id})
    ensures ListsOk(net, q, ef, accept, s) && FrontierOk(net, ef, s, expanded) && AllReached(net, layer, eps, s.visited)
    ensures AllLinksVisited(net, layer, s.visited, expanded)
  {
    hide *;
    s := s0;
    LinksExist(net, layer, id);
    var nbrs := Links(net, layer, id);
    for j := 0 to |nbrs|
      invariant ListsOk(net, q, ef, accept, s) && FrontierOk(net, ef, s, expanded) && AllReached(net, layer, eps, s.visited)
      invariant s0.visited <= s.visited && forall i :: 0 <= i < j ==> nbrs[i] in s.visited
    {
      var nid := nbrs[j];
      if nid !in s.visited {
        ReachedGrows(net, layer, eps, s.visited, id, nid);
        s := Consider(net, q, ef, accept, s, expanded, nid);
      }
    }
    LinksGrow(net, layer, s0.visited, s.visited, expanded, id);
  }

  /** The entry points are the first to be met. */
  method StartSearch(net: Net, q: Vec, eps: seq<nat>, ef: nat, ghost layer: nat, accept: Filter) returns (s: State)
    requires DistinctIn(net, eps) && ef > 0
    ensures ListsOk(net, q, ef, accept, s) && FrontierOk(net, ef, s, {}) && AllReached(net, layer, eps, s.visited)
  {
    hide ListsOk, FrontierOk, Reached, Dist;
    s := State({}, [], []);
    EmptyState(net, q, ef, accept);
    for i := 0 to |eps|
      invariant ListsOk(net, q, ef, accept, s) && FrontierOk(net, ef, s, {})
      invariant forall v :: v in s.visited <==> exists j :: 0 <= j < i && eps[j] == v
    {
      var d := ComputeDist(q, net[eps[i]].vec);
      s := Offer(net, q, ef, accept, s, {}, Cand(eps[i], d));
    }
    forall v | v in s.visited ensures Reached(net, layer, eps, v) {
      ReachedStart(net, layer, eps, v);
    }
  }

  lemma ExpandedShrinks(keys: set<nat>, expanded: set<nat>, id: nat)
    requires id in keys && id !in expanded
    ensures |keys - (expanded + {id})| < |keys - expanded| && (expanded + {id}) - {id} == expanded
  {
    assert keys - (expanded + {id}) == (keys - expanded) - {id};
  }

  method SearchLayer(net: Net, q: Vec, eps: seq<nat>, ef: nat, layer: nat, accept: Filter) returns (results: seq<Cand>)
    requires Closed(net, layer) && DistinctIn(net, eps) && ef > 0
    ensures IsSearched(net, layer, q, eps, ef, accept, results)
  {
    hide *;
    var s := StartSearch(net, q, eps, ef, layer, accept);
    ghost var expanded: set<nat> := {};
    NoneExpanded(net, layer, s.visited);
    while s.cands != []
      invariant ListsOk(net, q, ef, accept, s) && FrontierOk(net, ef, s, expanded)
      invariant AllReached(net, layer, eps, s.visited) && AllLinksVisited(net, layer, s.visited, expanded)
      decreases |net.Keys - expanded|
    {
      var c := s.cands[0];
      ListsFacts(net, q, ef, accept, s, c.id);
      if |s.results| >= ef && c.d > s.results[|s.results| - 1].d {
        StopIsRight(net, layer, q, eps, ef, accept, s, expanded);
        return s.results;
      }
      PopKeeps(net, q, ef, accept, s, expanded);
      VisitedReached(net, layer, eps, s.visited, c.id);
      ExpandedShrinks(net.Keys, expanded, c.id);
      expanded := expanded + {c.id};
      s := ExpandNode(net, layer, q, eps, ef, accept, State(s.visited, s.cands[1..], s.results), expanded, c.id);
    }
    EndIsRight(net, layer, q, eps, ef, accept, s, expanded);
    return s.results;
  }

  lemma VisitedReached(net: Net, layer: nat, eps: seq<nat>, visited: set<nat>, v: nat)
    requires AllReached(net, layer, eps, visited) && v in visited
    ensures Reached(net, layer, eps, v)
  {}

  lemma NoneExpanded(net: Net, layer: nat, visited: set<nat>)
    ensures AllLinksVisited(net, layer, visited, {})
  {}
}
