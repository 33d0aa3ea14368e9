/** The vector index (ts/src/ann.ts): insertion keeps the layered graph well formed, and search answers from it. The
    level drawn at random for a new node is an argument. */
module Hnsw {
  import opened Basics
  import opened HnswSearch
  import opened Sums

  // ---- The invariant -------------------------------------------------------------------------------

  /** The most neighbours a node may have at a layer. */
  function Cap(m: nat, layer: nat): nat { if layer == 0 then m * 2 else m }

  /** The neighbours of id at one layer: nodes of at least that level, not id itself, each listed once, not too many. */
  ghost predicate ListOk(net: Net, m: nat, id: nat, layer: nat, ns: seq<nat>) {
    && |ns| <= Cap(m, layer)
    && (forall i :: 0 <= i < |ns| ==> ns[i] in net && net[ns[i]].level >= layer && ns[i] != id)
    && forall i, j :: 0 <= i < j < |ns| ==> ns[i] != ns[j]
  }

  ghost predicate NodeOk(net: Net, m: nat, id: nat) {
    id in net && |net[id].neighbors| == net[id].level + 1
    && forall layer: nat :: layer <= net[id].level ==> ListOk(net, m, id, layer, net[id].neighbors[layer])
  }

  ghost predicate NetOk(net: Net, m: nat) { forall id: nat :: id in net ==> NodeOk(net, m, id) }

  /** The entry point has the top level. */
  ghost predicate EntryOk(net: Net, entry: Option<nat>, maxLevel: nat) {
    && (entry == None <==> net == map[])
    && (entry.Some? ==> entry.value in net && net[entry.value].level == maxLevel)
    && forall id :: id in net ==> entry.Some? && net[id].level <= maxLevel
  }

  lemma NetClosed(net: Net, m: nat, layer: nat)
    requires NetOk(net, m)
    ensures Closed(net, layer)
    ensures forall id: nat, n: nat :: id in net && n in Links(net, layer, id) ==> n in net && net[n].level >= layer
  {
    forall id: nat, n: nat | id in net && n in Links(net, layer, id) ensures n in net && net[n].level >= layer {
      assert NodeOk(net, m, id);
      assert ListOk(net, m, id, layer, Links(net, layer, id));
    }
  }

  /** What a layer search finds has at least the layer's level, if its entry points do. */
  lemma {:induction false} ReachedLevel(net: Net, m: nat, layer: nat, eps: seq<nat>, p: seq<nat>)
    requires NetOk(net, m) && IsTrail(net, layer, eps, p)
    requires forall e :: e in eps ==> e in net && net[e].level >= layer
    ensures net[p[|p| - 1]].level >= layer
    decreases |p|
  {
    if |p| > 1 {
      NetClosed(net, m, layer);
      assert p[|p| - 2 + 1] in Links(net, layer, p[|p| - 2]);
    }
  }

  /** A node that no list of the layer names and that is no entry point is not reached. */
  lemma NotReached(net: Net, layer: nat, eps: seq<nat>, id: nat)
    requires id !in eps && forall x: nat :: x in net ==> id !in Links(net, layer, x)
    ensures !Reached(net, layer, eps, id)
  {
    forall p | IsTrail(net, layer, eps, p) ensures p[|p| - 1] != id {
      if |p| > 1 {
        assert p[|p| - 2 + 1] in Links(net, layer, p[|p| - 2]);
      }
    }
  }

  // ---- Layers of two nets --------------------------------------------------------------------------

  /** The same nodes with the same vectors and levels. */
  ghost predicate SameNodes(a: Net, b: Net) {
    a.Keys == b.Keys && forall x :: x in a ==> x in b && a[x].vec == b[x].vec && a[x].level == b[x].level
  }

  ghost predicate SameLinks(a: Net, b: Net, layer: nat) {
    SameNodes(a, b) && forall x: nat :: x in a && x in b ==> Links(a, layer, x) == Links(b, layer, x)
  }

  lemma ReachedSame(a: Net, b: Net, layer: nat, eps: seq<nat>, v: nat)
    requires SameLinks(a, b, layer) && Reached(a, layer, eps, v)
    ensures Reached(b, layer, eps, v)
  {
    var p :| IsTrail(a, layer, eps, p) && p[|p| - 1] == v;
    assert IsTrail(b, layer, eps, p);
  }

  /** A search sees only its own layer. */
  lemma SearchedSame(a: Net, b: Net, layer: nat, q: Vec, eps: seq<nat>, ef: nat, accept: Filter, results: seq<Cand>)
    requires SameLinks(a, b, layer) && IsSearched(a, layer, q, eps, ef, accept, results)
    ensures IsSearched(b, layer, q, eps, ef, accept, results)
  {
    hide Reached, Dist, Holds;
    assert |a| == |b| by { KeysSize(a, b); }
    forall v ensures Reached(a, layer, eps, v) <==> Reached(b, layer, eps, v) {
      if Reached(a, layer, eps, v) {
        ReachedSame(a, b, layer, eps, v);
      }
      if Reached(b, layer, eps, v) {
        ReachedSame(b, a, layer, eps, v);
      }
    }
  }

  lemma KeysSize(a: Net, b: Net)
    requires a.Keys == b.Keys
    ensures |a| == |b|
  {
    assert |a| == |a.Keys| && |b| == |b.Keys|;
  }

  function SetList(net: Net, x: nat, layer: nat, ns: seq<nat>): Net
    requires x in net && layer < |net[x].neighbors|
  {
    net[x := Node(net[x].vec, net[x].level, net[x].neighbors[layer := ns])]
  }

  lemma SetListLinks(net: Net, x: nat, layer: nat, ns: seq<nat>)
    requires x in net && layer < |net[x].neighbors|
    ensures SameNodes(net, SetList(net, x, layer, ns))
    ensures forall y: nat, l: nat :: y in net ==>
      Links(SetList(net, x, layer, ns), l, y) == if y == x && l == layer then ns else Links(net, l, y)
  {}

  lemma SetListKeeps(net: Net, m: nat, x: nat, layer: nat, ns: seq<nat>)
    requires NetOk(net, m) && x in net && layer <= net[x].level && ListOk(net, m, x, layer, ns)
    ensures layer < |net[x].neighbors| && NetOk(SetList(net, x, layer, ns), m)
  {
    assert NodeOk(net, m, x);
    var net' := SetList(net, x, layer, ns);
    forall id: nat | id in net' ensures NodeOk(net', m, id) {
      assert NodeOk(net, m, id);
      forall l: nat | l <= net'[id].level ensures ListOk(net', m, id, l, net'[id].neighbors[l]) {
        assert ListOk(net, m, id, l, if id == x && l == layer then ns else net[id].neighbors[l]);
      }
    }
  }

  // ---- Keeping the nearest neighbours ----------------------------------------------------------------

  function FirstIds(cs: seq<Cand>, k: nat): (ids: seq<nat>)
    ensures |ids| == Min(|cs|, k) && forall i :: 0 <= i < |ids| ==> ids[i] == cs[i].id
  {
    seq(Min(|cs|, k), i requires 0 <= i < Min(|cs|, k) => cs[i].id)
  }

  /** out lists the k nearest of ns in (distance, id) order. */
  ghost predicate IsNearestOf(net: Net, q: Vec, ns: seq<nat>, k: nat, out: seq<nat>) {
    exists cs :: Ranked(net, q, ns, cs) && out == FirstIds(cs, k)
  }

  /** cs is ns in (distance, id) order. */
  ghost predicate Ranked(net: Net, q: Vec, ns: seq<nat>, cs: seq<Cand>) {
    Sorted(cs) && True(net, q, cs) && |cs| == |ns| && forall v: nat :: Holds(cs, v) <==> v in ns
  }

  ghost predicate AllDifferent(ns: seq<nat>) { forall i, j :: 0 <= i < j < |ns| ==> ns[i] != ns[j] }

  method NearestOf(net: Net, q: Vec, ns: seq<nat>, k: nat) returns (out: seq<nat>)
    requires AllDifferent(ns) && forall i :: 0 <= i < |ns| ==> ns[i] in net
    ensures IsNearestOf(net, q, ns, k, out)
  {
    var cs: seq<Cand> := [];
    for i := 0 to |ns|
      invariant Ranked(net, q, ns[..i], cs)
    {
      hide Dist, Holds, Sorted;
      var d := ComputeDist(q, net[ns[i]].vec);
      var before := cs;
      ghost var at;
      assert !Holds(cs, ns[i]);
      cs, at := InsertSorted(before, Cand(ns[i], d));
      forall v: nat ensures Holds(cs, v) <==> v in ns[..i + 1] {
        InsertHolds(before, at, Cand(ns[i], d), v);
        assert ns[..i + 1] == ns[..i] + [ns[i]];
      }
    }
    assert ns[..|ns|] == ns;
    out := FirstIds(cs, k);
  }

  lemma FirstIdsFacts(net: Net, q: Vec, cs: seq<Cand>, k: nat)
    requires Sorted(cs) && True(net, q, cs)
    ensures AllDifferent(FirstIds(cs, k)) && forall i :: 0 <= i < |FirstIds(cs, k)| ==> Holds(cs, FirstIds(cs, k)[i])
  {
    var ids := FirstIds(cs, k);
    forall i, j | 0 <= i < j < |ids| ensures ids[i] != ids[j] {
      SortedDistinct(net, q, cs, i, j);
    }
  }

  // ---- Linking a new node at one layer ----------------------------------------------------------------

  /** x's list after the new node has been appended, cut back to the nearest when it is too long. */
  ghost predicate IsBackList(net: Net, m: nat, layer: nat, x: nat, id: nat, ns: seq<nat>)
    requires x in net
  {
    var longer := Links(net, layer, x) + [id];
    if |longer| <= Cap(m, layer) then ns == longer else IsNearestOf(net, net[x].vec, longer, Cap(m, layer), ns)
  }

  lemma BackListOk(net: Net, m: nat, layer: nat, x: nat, id: nat, ns: seq<nat>)
    requires NetOk(net, m) && x in net && id in net && x != id && layer <= net[x].level && layer <= net[id].level
    requires id !in Links(net, layer, x) && IsBackList(net, m, layer, x, id, ns)
    ensures ListOk(net, m, x, layer, ns)
  {
    hide Dist;
    assert NodeOk(net, m, x);
    var before := Links(net, layer, x);
    assert ListOk(net, m, x, layer, before);
    var longer := before + [id];
    if |longer| > Cap(m, layer) {
      var cs :| Ranked(net, net[x].vec, longer, cs) && ns == FirstIds(cs, Cap(m, layer));
      FirstIdsFacts(net, net[x].vec, cs, Cap(m, layer));
      assert forall i :: 0 <= i < |ns| ==> ns[i] in longer;
    }
  }

  /** The layer as the insertion of id leaves it: id links to the nearest found, each of them links back. */
  ghost predicate LayerDone(start: Net, net: Net, m: nat, efC: nat, id: nat, layer: nat, step: LayerStep) {
    SameNodes(start, net) && id in start && LinksFrom(start, net, m, efC, id, layer, step.eps, step.found)
  }

  /** The search of one layer during an insertion: where it started and what it found. */
  datatype LayerStep = LayerStep(eps: seq<nat>, found: seq<Cand>)

  function AllIds(found: seq<Cand>): seq<nat> { FirstIds(found, |found| + 1) }

  ghost predicate LinksFrom(start: Net, net: Net, m: nat, efC: nat, id: nat, layer: nat, eps: seq<nat>, found: seq<Cand>)
    requires SameNodes(start, net) && id in start
  {
    && IsSearched(start, layer, start[id].vec, eps, efC, _ => true, found)
    && Links(net, layer, id) == FirstIds(found, m)
    && forall x: nat :: x in start && x != id ==>
         if x in FirstIds(found, m) then IsBackList(start, m, layer, x, id, Links(net, layer, x))
         else Links(net, layer, x) == Links(start, layer, x)
  }

  lemma BackListSame(a: Net, b: Net, m: nat, layer: nat, x: nat, id: nat, ns: seq<nat>)
    requires SameNodes(a, b) && x in a && x in b && Links(a, layer, x) == Links(b, layer, x) && IsBackList(a, m, layer, x, id, ns)
    ensures IsBackList(b, m, layer, x, id, ns)
  {
    hide Dist;
    var longer := Links(a, layer, x) + [id];
    if |longer| > Cap(m, layer) {
      var cs :| Ranked(a, a[x].vec, longer, cs) && ns == FirstIds(cs, Cap(m, layer));
      assert Ranked(b, b[x].vec, longer, cs);
    }
  }

  ghost predicate NotListed(net: Net, layer: nat, id: nat) {
    forall x: nat :: x in net ==> id !in Links(net, layer, x)
  }

  /** Entry points for a layer: different nodes of at least its level, the new node not among them. */
  ghost predicate GoodEntries(net: Net, layer: nat, id: nat, eps: seq<nat>) {
    eps != [] && DistinctIn(net, eps) && id !in eps && forall e :: e in eps ==> e in net && net[e].level >= layer
  }

  /** What was found can serve as neighbours and as entry points. */
  lemma FoundIsGood(net: Net, m: nat, layer: nat, q: Vec, id: nat, eps: seq<nat>, ef: nat, found: seq<Cand>, k: nat)
    requires NetOk(net, m) && NotListed(net, layer, id) && GoodEntries(net, layer, id, eps) && ef > 0
    requires IsSearched(net, layer, q, eps, ef, _ => true, found) && k > 0
    ensures GoodEntries(net, layer, id, FirstIds(found, k)) && |FirstIds(found, k)| <= k
  {
    hide Dist, Reached, NetOk;
    var ids := FirstIds(found, k);
    FirstIdsFacts(net, q, found, k);
    assert Covered(net, q, ef, found, eps[0]);
    NotReached(net, layer, eps, id);
    forall i | 0 <= i < |ids| ensures ids[i] in net && net[ids[i]].level >= layer && ids[i] != id {
      assert Holds(found, ids[i]);
      LevelOfReached(net, m, layer, eps, ids[i]);
    }
  }

  lemma LevelOfReached(net: Net, m: nat, layer: nat, eps: seq<nat>, v: nat)
    requires NetOk(net, m) && Reached(net, layer, eps, v) && forall e :: e in eps ==> e in net && net[e].level >= layer
    ensures v in net && net[v].level >= layer
  {
    var p :| IsTrail(net, layer, eps, p) && p[|p| - 1] == v;
    ReachedLevel(net, m, layer, eps, p);
  }

  /** Appends id to x's list, keeping the nearest when it gets too long. */
  method LinkBack(net: Net, m: nat, layer: nat, x: nat, id: nat) returns (net': Net)
    requires NetOk(net, m) && x in net && id in net && x != id && layer <= net[x].level && layer <= net[id].level
    requires id !in Links(net, layer, x)
    ensures NetOk(net', m) && SameNodes(net, net')
    ensures IsBackList(net, m, layer, x, id, Links(net', layer, x))
    ensures forall y: nat, l: nat :: y in net && (y != x || l != layer) ==> Links(net', l, y) == Links(net, l, y)
  {
    hide Dist, IsNearestOf, NetOk;
    LongerOk(net, m, layer, x, id);
    var nl := Links(net, layer, x) + [id];
    if |nl| > Cap(m, layer) {
      nl := NearestOf(net, net[x].vec, nl, Cap(m, layer));
    }
    BackListOk(net, m, layer, x, id, nl);
    SetListKeeps(net, m, x, layer, nl);
    SetListLinks(net, x, layer, nl);
    net' := SetList(net, x, layer, nl);
  }

  lemma LongerOk(net: Net, m: nat, layer: nat, x: nat, id: nat)
    requires NetOk(net, m) && x in net && id in net && layer <= net[x].level && id !in Links(net, layer, x)
    ensures AllDifferent(Links(net, layer, x) + [id])
    ensures forall i :: 0 <= i <= |Links(net, layer, x)| ==> (Links(net, layer, x) + [id])[i] in net
    ensures layer < |net[x].neighbors|
  {
    assert NodeOk(net, m, x);
    assert ListOk(net, m, x, layer, Links(net, layer, x));
  }

  /** One layer of an insertion. */
  method LinkLayer(net0: Net, m: nat, efC: nat, id: nat, layer: nat, eps: seq<nat>) returns (net: Net, eps': seq<nat>, ghost step: LayerStep)
    requires NetOk(net0, m) && m > 0 && efC > 0 && id in net0 && layer <= net0[id].level
    requires NotListed(net0, layer, id) && GoodEntries(net0, layer, id, eps)
    ensures NetOk(net, m) && LayerDone(net0, net, m, efC, id, layer, step) && step.eps == eps && eps' == AllIds(step.found)
    ensures forall l: nat :: l != layer ==> SameLinks(net0, net, l)
    ensures GoodEntries(net0, layer, id, eps')
  {
    hide *;
    NetClosed(net0, m, layer);
    EntriesDistinct(net0, layer, id, eps);
    var found := SearchLayer(net0, net0[id].vec, eps, efC, layer, _ => true);
    FoundIsGood(net0, m, layer, net0[id].vec, id, eps, efC, found, m);
    FoundIsGood(net0, m, layer, net0[id].vec, id, eps, efC, found, |found| + 1);
    var neighbors := FirstIds(found, m);
    NeighborsOk(net0, m, layer, id, neighbors);
    SetListKeeps(net0, m, id, layer, neighbors);
    SetListLinks(net0, id, layer, neighbors);
    net := SetList(net0, id, layer, neighbors);
    StartLinking(net0, net, m, layer, id, neighbors);
    for j := 0 to |neighbors|
      invariant NetOk(net, m) && Linking(net0, net, m, layer, id, neighbors, j)
    {
      LinkingFacts(net0, net, m, layer, id, neighbors, j);
      ghost var before := net;
      net := LinkBack(net, m, layer, neighbors[j], id);
      LinkingStep(net0, before, net, m, layer, id, neighbors, j);
    }
    LinkingDone(net0, net, m, efC, layer, id, eps, found);
    eps' := FirstIds(found, |found| + 1);
    step := LayerStep(eps, found);
    assert eps' == AllIds(step.found) by { AllIdsIs(found); }
  }

  lemma AllIdsIs(found: seq<Cand>)
    ensures AllIds(found) == FirstIds(found, |found| + 1)
  {}

  lemma EntriesDistinct(net: Net, layer: nat, id: nat, eps: seq<nat>)
    requires GoodEntries(net, layer, id, eps)
    ensures DistinctIn(net, eps)
  {}

  lemma NeighborsOk(net: Net, m: nat, layer: nat, id: nat, neighbors: seq<nat>)
    requires GoodEntries(net, layer, id, neighbors) && |neighbors| <= m
    ensures ListOk(net, m, id, layer, neighbors)
  {
    assert forall i :: 0 <= i < |neighbors| ==> neighbors[i] in neighbors;
  }

  /** Part of the way through a layer: the first j neighbours link back, all other links are as before. */
  ghost predicate Linking(start: Net, net: Net, m: nat, layer: nat, id: nat, neighbors: seq<nat>, j: nat) {
    && SameNodes(start, net) && id in start && layer <= start[id].level && j <= |neighbors|
    && NotListed(start, layer, id) && GoodEntries(start, layer, id, neighbors)
    && Links(net, layer, id) == neighbors
    && (forall x: nat :: x in start && x != id ==> LinkedTo(start, net, m, layer, id, neighbors[..j], x))
    && forall x: nat, l: nat :: x in start && l != layer ==> Links(net, l, x) == Links(start, l, x)
  }

  ghost predicate LinkedTo(start: Net, net: Net, m: nat, layer: nat, id: nat, done: seq<nat>, x: nat)
    requires x in start && x in net
  {
    if x in done then IsBackList(start, m, layer, x, id, Links(net, layer, x)) else Links(net, layer, x) == Links(start, layer, x)
  }

  lemma StartLinking(start: Net, net: Net, m: nat, layer: nat, id: nat, neighbors: seq<nat>)
    requires id in start && layer < |start[id].neighbors| && layer <= start[id].level
    requires net == SetList(start, id, layer, neighbors)
    requires NotListed(start, layer, id) && GoodEntries(start, layer, id, neighbors)
    ensures Linking(start, net, m, layer, id, neighbors, 0)
  {
    hide IsBackList;
    SetListLinks(start, id, layer, neighbors);
  }

  lemma LinkingFacts(start: Net, net: Net, m: nat, layer: nat, id: nat, neighbors: seq<nat>, j: nat)
    requires Linking(start, net, m, layer, id, neighbors, j) && j < |neighbors|
    ensures var x := neighbors[j];
      && x in net && id in net && x != id && layer <= net[x].level && layer <= net[id].level
      && Links(net, layer, x) == Links(start, layer, x) && id !in Links(net, layer, x)
  {
    hide IsBackList;
    var x := neighbors[j];
    assert x in neighbors && x !in neighbors[..j];
    assert LinkedTo(start, net, m, layer, id, neighbors[..j], x);
  }

  lemma LinkingStep(start: Net, before: Net, net: Net, m: nat, layer: nat, id: nat, neighbors: seq<nat>, j: nat)
    requires Linking(start, before, m, layer, id, neighbors, j) && j < |neighbors| && SameNodes(before, net)
    requires neighbors[j] in before && IsBackList(before, m, layer, neighbors[j], id, Links(net, layer, neighbors[j]))
    requires forall y: nat, l: nat :: y in before && (y != neighbors[j] || l != layer) ==> Links(net, l, y) == Links(before, l, y)
    ensures Linking(start, net, m, layer, id, neighbors, j + 1)
  {
    hide IsBackList, NotListed, GoodEntries, Links;
    LinkingFacts(start, before, m, layer, id, neighbors, j);
    var k := j + 1;
    assert neighbors[..k] == neighbors[..j] + [neighbors[j]];
    BackListSame(before, start, m, layer, neighbors[j], id, Links(net, layer, neighbors[j]));
    forall x: nat | x in start && x != id ensures LinkedTo(start, net, m, layer, id, neighbors[..k], x) {
      assert LinkedTo(start, before, m, layer, id, neighbors[..j], x);
    }
  }

  lemma LinkingDone(start: Net, net: Net, m: nat, efC: nat, layer: nat, id: nat, eps: seq<nat>, found: seq<Cand>)
    requires id in start && IsSearched(start, layer, start[id].vec, eps, efC, _ => true, found)
    requires Linking(start, net, m, layer, id, FirstIds(found, m), |FirstIds(found, m)|)
    ensures LayerDone(start, net, m, efC, id, layer, LayerStep(eps, found))
    ensures forall l: nat :: l != layer ==> SameLinks(start, net, l)
  {
    hide IsBackList, IsSearched, FirstIds;
    var ids := FirstIds(found, m);
    assert ids[..|ids|] == ids;
    forall x: nat | x in start && x != id
      ensures if x in ids then IsBackList(start, m, layer, x, id, Links(net, layer, x)) else Links(net, layer, x) == Links(start, layer, x)
    {
      assert LinkedTo(start, net, m, layer, id, ids[..|ids|], x);
    }
    assert LinksFrom(start, net, m, efC, id, layer, eps, found);
  }

  lemma LayerDoneFrom(start: Net, mid: Net, net: Net, m: nat, efC: nat, id: nat, layer: nat, step: LayerStep)
    requires SameLinks(start, mid, layer) && LayerDone(mid, net, m, efC, id, layer, step)
    ensures LayerDone(start, net, m, efC, id, layer, step)
  {
    hide IsBackList, IsSearched, FirstIds;
    var eps, found := step.eps, step.found;
    SearchedSame(mid, start, layer, mid[id].vec, eps, efC, _ => true, found);
    var ids := FirstIds(found, m);
    forall x: nat | x in start && x != id
      ensures if x in ids then IsBackList(start, m, layer, x, id, Links(net, layer, x)) else Links(net, layer, x) == Links(start, layer, x)
    {
      if x in ids {
        BackListSame(mid, start, m, layer, x, id, Links(net, layer, x));
      }
    }
    assert LinksFrom(start, net, m, efC, id, layer, eps, found);
  }

  lemma LayerDoneKept(start: Net, mid: Net, net: Net, m: nat, efC: nat, id: nat, layer: nat, step: LayerStep)
    requires LayerDone(start, mid, m, efC, id, layer, step) && SameLinks(mid, net, layer)
    ensures LayerDone(start, net, m, efC, id, layer, step)
  {
    hide IsBackList, IsSearched, FirstIds;
  }

  /** ep is reached from e by going to the nearest node found, layer by layer, down to just above the given one. */
  ghost predicate Descended(net: Net, q: Vec, e: nat, from: nat, to: nat, ep: nat)
    decreases from
  {
    if from <= to then ep == e
    else exists w: seq<Cand> :: StepsDown(net, q, e, from, w) && Descended(net, q, w[0].id, from - 1, to, ep)
  }

  ghost predicate StepsDown(net: Net, q: Vec, e: nat, layer: nat, w: seq<Cand>) {
    w != [] && IsSearched(net, layer, q, [e], 1, _ => true, w)
  }

  lemma DescendedStep(net: Net, q: Vec, e: nat, from: nat, to: nat, w: seq<Cand>, ep: nat)
    requires from > to && StepsDown(net, q, e, from, w)
    ensures Descended(net, q, w[0].id, from - 1, to, ep) ==> Descended(net, q, e, from, to, ep)
  {}

  /** The greedy descent: one nearest node per layer, from the entry point's layer down to just above the given one. */
  method Descend(net: Net, ghost m: nat, q: Vec, entry: nat, from: nat, to: nat, ghost avoid: set<nat>) returns (ep: nat)
    requires NetOk(net, m) && entry in net && net[entry].level >= from && entry !in avoid
    requires forall a: nat, l: nat :: a in avoid ==> NotListed(net, l, a)
    ensures ep in net && ep !in avoid && net[ep].level >= Min(from, to) && Dist(q, net[ep].vec) <= Dist(q, net[entry].vec)
    ensures Descended(net, q, entry, from, to, ep)
  {
    hide *;
    ep := entry;
    assert Min(from, to) <= from by { MinBound(from, to); }
    var lc := from;
    while lc > to
      invariant ep in net && ep !in avoid && net[ep].level >= lc && Dist(q, net[ep].vec) <= Dist(q, net[entry].vec)
      invariant lc <= from && (if from >= to then lc >= to else lc == from)
      invariant forall t: nat :: Descended(net, q, ep, lc, to, t) ==> Descended(net, q, entry, from, to, t)
    {
      NetClosed(net, m, lc);
      OneEntry(net, ep);
      var w := SearchLayer(net, q, [ep], 1, lc, _ => true);
      NearestIsGood(net, m, lc, q, ep, w, avoid);
      assert StepsDown(net, q, ep, lc, w) by { IsStep(net, q, ep, lc, w); }
      forall t: nat ensures Descended(net, q, w[0].id, lc - 1, to, t) ==> Descended(net, q, ep, lc, to, t) {
        DescendedStep(net, q, ep, lc, to, w, t);
      }
      ep := w[0].id;
      lc := lc - 1;
    }
    MinBound(from, to);
    assert Descended(net, q, ep, lc, to, ep) by { AtEnd(net, q, ep, lc, to); }
  }

  lemma IsStep(net: Net, q: Vec, e: nat, layer: nat, w: seq<Cand>)
    requires w != [] && IsSearched(net, layer, q, [e], 1, _ => true, w)
    ensures StepsDown(net, q, e, layer, w)
  {}

  lemma AtEnd(net: Net, q: Vec, ep: nat, lc: nat, to: nat)
    requires lc <= to
    ensures Descended(net, q, ep, lc, to, ep)
  {}

  lemma MinBound(x: nat, y: nat)
    ensures Min(x, y) == if x < y then x else y
  {}

  lemma OneEntry(net: Net, ep: nat)
    requires ep in net
    ensures DistinctIn(net, [ep])
  {}

  lemma NearestIsGood(net: Net, m: nat, layer: nat, q: Vec, ep: nat, w: seq<Cand>, avoid: set<nat>)
    requires NetOk(net, m) && ep in net && net[ep].level >= layer && ep !in avoid
    requires forall a: nat, l: nat :: a in avoid ==> NotListed(net, l, a)
    requires IsSearched(net, layer, q, [ep], 1, _ => true, w)
    ensures |w| > 0 && w[0].id in net && w[0].id !in avoid && net[w[0].id].level >= layer
    ensures Dist(q, net[w[0].id].vec) <= Dist(q, net[ep].vec)
  {
    hide Dist, Reached, NetOk;
    assert ep in [ep];
    assert Covered(net, q, 1, w, ep);
    assert Holds(w, w[0].id);
    LevelOfReached(net, m, layer, [ep], w[0].id);
    if w[0].id in avoid {
      assert NotListed(net, layer, w[0].id);
      NotReached(net, layer, [ep], w[0].id);
    }
  }

  function Isolated(vec: Vec, level: nat): Node { Node(vec, level, seq(level + 1, _ => [])) }

  /** The net with a new node that is linked nowhere yet. */
  function WithNew(net: Net, id: nat, vec: Vec, level: nat): Net { net[id := Isolated(vec, level)] }

  lemma WithNewFacts(net: Net, id: nat, vec: Vec, level: nat)
    ensures var start := WithNew(net, id, vec, level);
      start == net[id := Isolated(vec, level)] && id in start && start[id].level == level && start[id].vec == vec
  {}

  lemma IsolatedOk(net: Net, m: nat, id: nat, vec: Vec, level: nat)
    requires NetOk(net, m) && id !in net
    ensures NetOk(WithNew(net, id, vec, level), m)
    ensures forall l: nat :: NotListed(WithNew(net, id, vec, level), l, id)
  {
    var start := WithNew(net, id, vec, level);
    forall x: nat | x in start ensures NodeOk(start, m, x) {
      if x != id {
        assert NodeOk(net, m, x);
        forall l: nat | l <= start[x].level ensures ListOk(start, m, x, l, start[x].neighbors[l]) {
          assert ListOk(net, m, x, l, net[x].neighbors[l]);
        }
      }
    }
    forall l: nat, x: nat | x in start ensures id !in Links(start, l, x) {
      if x != id {
        assert NodeOk(net, m, x);
        assert ListOk(net, m, x, l, Links(net, l, x));
      }
    }
  }

  /** What an insertion leaves: at the top shared layer the search starts from ep, at each lower one from all that the
      layer above found; the other layers are untouched. */
  ghost predicate Inserting(start: Net, net: Net, m: nat, efC: nat, id: nat, ep: nat, top: int, lc: int, steps: map<nat, LayerStep>) {
    && SameNodes(start, net)
    && (forall l: nat :: lc <= l <= top ==> l in steps && LayerDone(start, net, m, efC, id, l, steps[l]))
    && (forall l: nat :: lc <= l <= top ==> l in steps && StartsRight(ep, top, steps, l))
    && forall l: nat :: l < lc || l > top ==> SameLinks(start, net, l)
  }

  ghost predicate StartsRight(ep: nat, top: int, steps: map<nat, LayerStep>, l: nat)
    requires l in steps
  {
    steps[l].eps == if l == top then [ep] else if l + 1 in steps then AllIds(steps[l + 1].found) else []
  }

  lemma InsertingStep(start: Net, mid: Net, net: Net, m: nat, efC: nat, id: nat, ep: nat, top: nat, lc: nat, steps: map<nat, LayerStep>, step: LayerStep)
    requires Inserting(start, mid, m, efC, id, ep, top, lc + 1, steps) && lc <= top
    requires LayerDone(mid, net, m, efC, id, lc, step) && forall l: nat :: l != lc ==> SameLinks(mid, net, l)
    requires step.eps == NextEntries(ep, top, steps, lc)
    ensures Inserting(start, net, m, efC, id, ep, top, lc, steps[lc := step]) && SameNodes(start, net) && SameNodes(mid, net)
  {
    hide LayerDone, SameLinks, SameNodes, StartsRight, NextEntries;
    LinksNodes(start, mid, lc);
    LinksNodes(mid, net, lc + 1);
    var steps' := steps[lc := step];
    forall l: nat | lc <= l <= top
      ensures l in steps' && LayerDone(start, net, m, efC, id, l, steps'[l]) && StartsRight(ep, top, steps', l)
    {
      if l == lc {
        LayerDoneFrom(start, mid, net, m, efC, id, l, step);
        StartsNow(ep, top, steps, l, step);
      } else {
        LayerDoneKept(start, mid, net, m, efC, id, l, steps[l]);
        StartsKept(ep, top, steps, l, lc, step);
      }
    }
    forall l: nat | l < lc || l > top ensures SameLinks(start, net, l) {
      LinksTrans(start, mid, net, l);
    }
    NodesTrans(start, mid, net);
  }

  lemma LinksNodes(a: Net, b: Net, layer: nat)
    requires SameLinks(a, b, layer)
    ensures SameNodes(a, b)
  {}

  lemma LinksTrans(a: Net, b: Net, c: Net, layer: nat)
    requires SameLinks(a, b, layer) && SameLinks(b, c, layer)
    ensures SameLinks(a, c, layer)
  {}

  lemma NodesTrans(a: Net, b: Net, c: Net)
    requires SameNodes(a, b) && SameNodes(b, c)
    ensures SameNodes(a, c)
  {}

  lemma StartsNow(ep: nat, top: nat, steps: map<nat, LayerStep>, l: nat, step: LayerStep)
    requires step.eps == NextEntries(ep, top, steps, l)
    ensures StartsRight(ep, top, steps[l := step], l)
  {}

  lemma StartsKept(ep: nat, top: nat, steps: map<nat, LayerStep>, l: nat, lc: nat, step: LayerStep)
    requires l in steps && StartsRight(ep, top, steps, l) && lc < l
    ensures StartsRight(ep, top, steps[lc := step], l)
  {}

  /** The entry points of a layer, given what the layers above found. */
  ghost function NextEntries(ep: nat, top: int, steps: map<nat, LayerStep>, l: nat): seq<nat> {
    if l == top then [ep] else if l + 1 in steps then AllIds(steps[l + 1].found) else []
  }

  lemma EntriesOf(ep: nat, top: int, steps: map<nat, LayerStep>, l: nat, step: LayerStep)
    ensures NextEntries(ep, l, steps, l) == [ep]
    ensures l < top ==> NextEntries(ep, top, steps[l + 1 := step], l) == AllIds(step.found)
  {}

  lemma StillNotListed(start: Net, net: Net, m: nat, efC: nat, id: nat, ep: nat, top: nat, lc: int, steps: map<nat, LayerStep>, l: nat)
    requires Inserting(start, net, m, efC, id, ep, top, lc, steps) && l < lc && NotListed(start, l, id)
    ensures NotListed(net, l, id)
  {
    assert SameLinks(start, net, l);
  }

  lemma EntriesBelow(start: Net, net: Net, id: nat, layer: nat, below: nat, eps: seq<nat>)
    requires SameNodes(start, net) && GoodEntries(start, layer, id, eps) && below <= layer
    ensures GoodEntries(net, below, id, eps)
  {}

  lemma OneGoodEntry(net: Net, layer: nat, id: nat, ep: nat)
    requires ep in net && ep != id && net[ep].level >= layer
    ensures GoodEntries(net, layer, id, [ep])
  {}

  datatype Scored = Scored(id: nat, score: real)

  function Scores(cs: seq<Cand>, k: nat): (r: seq<Scored>)
    ensures |r| == Min(|cs|, k) && forall i :: 0 <= i < |r| ==> r[i] == Scored(cs[i].id, 1.0 - cs[i].d)
  {
    seq(Min(|cs|, k), i requires 0 <= i < Min(|cs|, k) => Scored(cs[i].id, 1.0 - cs[i].d))
  }

  function MaxInt(x: int, y: int): int { if x < y then y else x }

  /** A filtered search looks four times as wide. */
  function Breadth(efS: nat, topK: int, filtered: bool): int {
    if filtered then MaxInt(efS * 4, topK * 4) else MaxInt(efS, topK)
  }

  function Accepts(filter: Option<Filter>): Filter { if filter.Some? then filter.value else _ => true }

  /** The larger of the two widths, and four times that with a filter. */
  lemma BreadthIs(efS: nat, topK: int)
    ensures Breadth(efS, topK, false) >= efS && Breadth(efS, topK, false) >= topK && Breadth(efS, topK, false) in {efS, topK}
    ensures Breadth(efS, topK, true) == 4 * Breadth(efS, topK, false)
  {}

  lemma BreadthPositive(efS: nat, topK: int, filtered: bool)
    requires efS > 0
    ensures Breadth(efS, topK, filtered) > 0
  {}

  class Index {
    var nodes: Net
    var entry: Option<nat>
    var maxLevel: nat
    const m: nat
    const efC: nat
    const efS: nat

    ghost predicate Valid()
      reads this
    {
      m >= 2 && efC >= m && efS >= 1 && NetOk(nodes, m) && EntryOk(nodes, entry, maxLevel)
    }

    constructor (mOption: nat, efConstruction: nat, efSearch: nat)
      ensures Valid() && nodes == map[] && entry == None
      ensures m == Max(2, mOption) && efC == Max(m, efConstruction) && efS == Max(1, efSearch)
    {
      m := Max(2, mOption);
      efC := Max(Max(2, mOption), efConstruction);
      efS := Max(1, efSearch);
      nodes, entry, maxLevel := map[], None, 0;
    }

    /** Adds a vector: under a known id it replaces that vector and nothing else; a new node is linked at every layer
        up to its own level and the previous top, and becomes the entry point when it is higher than all before. */
    method Add(id: nat, vec: Vec, level: nat)
      requires Valid()
      modifies this
      ensures Valid()
      ensures id in old(nodes) ==>
        nodes == old(nodes)[id := Node(vec, old(nodes)[id].level, old(nodes)[id].neighbors)] && entry == old(entry) && maxLevel == old(maxLevel)
      ensures id !in old(nodes) && old(entry).None? ==> nodes == WithNew(old(nodes), id, vec, level)
      ensures id !in old(nodes) && old(entry).Some? ==>
        exists ep, steps :: Linked(WithNew(old(nodes), id, vec, level), nodes, m, efC, id, vec, old(entry).value, old(maxLevel), level, ep, steps)
      ensures id !in old(nodes) && old(entry).Some? ==>
        exists ep: nat, founds :: IsInserted(WithNew(old(nodes), id, vec, level), nodes, m, efC, id, old(entry).value, old(maxLevel), level, ep, founds)
      ensures id !in old(nodes) ==>
        (if old(entry).None? || level > old(maxLevel) then entry == Some(id) && maxLevel == level
            else entry == old(entry) && maxLevel == old(maxLevel))
    {
      hide *;
      ValidFacts();
      if id in nodes {
        VectorChange(nodes, m, entry, maxLevel, id, vec);
        nodes := nodes[id := Node(vec, nodes[id].level, nodes[id].neighbors)];
        ValidFrom();
        return;
      }
      ghost var start := WithNew(nodes, id, vec, level);
      WithNewFacts(nodes, id, vec, level);
      IsolatedOk(nodes, m, id, vec, level);
      nodes := nodes[id := Isolated(vec, level)];
      if entry.None? {
        EntryFirst(nodes, id, level);
        entry, maxLevel := Some(id), level;
        ValidFrom();
        return;
      }
      var top := Min(maxLevel, level);
      MinBound(maxLevel, level);
      var ep := Descend(nodes, m, vec, entry.value, maxLevel, level, {id});
      var eps := [ep];
      OneGoodEntry(nodes, top, id, ep);
      StartInserting(start, m, efC, id, ep, top);
      EntriesOf(ep, top, map[], top, LayerStep([], []));
      ghost var steps: map<nat, LayerStep> := map[];
      var net: Net := nodes;
      for lc := top + 1 downto 0
        invariant NetOk(net, m) && Inserting(start, net, m, efC, id, ep, top, lc, steps)
        invariant entry == old(entry) && maxLevel == old(maxLevel)
        invariant id in net && net[id].level == level && SameNodes(start, net)
        invariant GoodEntries(net, if lc > top then top else lc, id, eps)
        invariant lc > 0 ==> eps == NextEntries(ep, top, steps, lc - 1)
      {
        EntriesBelow(net, net, id, if lc + 1 > top then top else lc + 1, lc, eps);
        StillNotListed(start, net, m, efC, id, ep, top, lc + 1, steps, lc);
        ghost var before, step := net, LayerStep([], []);
        net, eps, step := LinkLayer(net, m, efC, id, lc, eps);
        InsertingStep(start, before, net, m, efC, id, ep, top, lc, steps, step);
        SameNodesKept(start, net, id);
        EntriesBelow(before, net, id, lc, lc, eps);
        if lc > 0 {
          EntriesOf(ep, top, steps, lc - 1, step);
        }
        steps := steps[lc := step];
      }
      assert Linked(start, net, m, efC, id, vec, entry.value, maxLevel, level, ep, steps) by {
        IsLinked(start, net, m, efC, id, vec, entry.value, maxLevel, level, ep, steps);
      }
      ghost var founds := InsertionMeans(start, net, m, efC, id, entry.value, maxLevel, level, ep, steps);
      EntryGrows(old(nodes), net, entry, maxLevel, id, vec, level);
      nodes := net;
      if level > maxLevel {
        entry, maxLevel := Some(id), level;
      }
      ValidFrom();
    }

    lemma ValidFacts()
      requires Valid()
      ensures m >= 2 && efC >= m && efS >= 1 && NetOk(nodes, m) && EntryOk(nodes, entry, maxLevel)
      ensures entry.None? <==> nodes == map[]
      ensures entry.Some? ==> entry.value in nodes && nodes[entry.value].level == maxLevel
    {}

    lemma ValidFrom()
      requires m >= 2 && efC >= m && efS >= 1 && NetOk(nodes, m) && EntryOk(nodes, entry, maxLevel)
      ensures Valid()
    {}

    /** The nearest nodes found at the bottom layer, each once and accepted by the filter, best first and equally good ones
        by id, with the sum of products as score; every accepted one that can be reached at the bottom layer counts when
        the search is wide enough for all nodes. */
    method Search(q: Vec, topK: int, filter: Option<Filter>) returns (r: seq<Scored>)
      requires Valid()
      ensures entry.None? ==> r == []
      ensures entry.Some? ==> exists ep: nat, found ::
        IsAnswer(nodes, entry.value, maxLevel, q, ep, Breadth(efS, topK, filter.Some?), Accepts(filter), found) && r == Scores(found, MaxInt(0, topK))
      ensures |r| <= if topK > 0 then topK else 0
      ensures forall i :: 0 <= i < |r| ==> r[i].id in nodes && r[i].score == Cosine(q, nodes[r[i].id].vec)
      ensures forall i, j :: 0 <= i < j < |r| ==> IsBetter(r[i], r[j])
      ensures filter.Some? ==> forall i :: 0 <= i < |r| ==> filter.value(r[i].id)
      ensures entry.Some? && (|nodes| <= efS || |nodes| <= topK || (filter.Some? && (|nodes| <= 4 * efS || |nodes| <= 4 * topK))) ==>
        exists ep: nat :: ep in nodes && Cosine(q, nodes[ep].vec) >= Cosine(q, nodes[entry.value].vec) && IsBest(nodes, q, ep, topK, filter, r)
    {
      hide *;
      ValidFacts();
      if entry.None? {
        return [];
      }
      var ep := Descend(nodes, m, q, entry.value, maxLevel, 0, {});
      var ef0, accept := Breadth(efS, topK, filter.Some?), Accepts(filter);
      BreadthPositive(efS, topK, filter.Some?);
      MaxBound(0, topK);
      NetClosed(nodes, m, 0);
      OneEntry(nodes, ep);
      var found := SearchLayer(nodes, q, [ep], ef0, 0, accept);
      assert IsAnswer(nodes, entry.value, maxLevel, q, ep, ef0, accept, found) by {
        AnswerFrom(nodes, entry.value, maxLevel, q, ep, ef0, accept, found);
      }
      r := Scores(found, MaxInt(0, topK));
      AnswerMeans(nodes, entry.value, maxLevel, q, ep, efS, topK, filter, found);
    }
  }

  /** The sum of products of the entries both vectors have. */
  ghost function Cosine(q: Vec, v: Vec): real { Sum(Min(|q|, |v|), Products(q, v)) }

  predicate IsBetter(x: Scored, y: Scored) { x.score > y.score || (x.score == y.score && x.id < y.id) }

  /** The topK best of the accepted nodes that links of the bottom layer lead to from ep. */
  ghost predicate IsBest(net: Net, q: Vec, ep: nat, topK: int, filter: Option<Filter>, r: seq<Scored>) {
    forall v: nat :: v in net && Reached(net, 0, [ep], v) && (filter.None? || filter.value(v)) && topK > 0 ==>
      IsListed(r, v) || (|r| == topK && IsBetter(r[|r| - 1], Scored(v, Cosine(q, net[v].vec))))
  }

  ghost predicate IsListed(r: seq<Scored>, v: nat) { exists i :: 0 <= i < |r| && r[i].id == v }

  lemma DistIsCosine(q: Vec, v: Vec)
    ensures Dist(q, v) == 1.0 - Cosine(q, v)
  {
    DistIs(q, v);
  }

  /** What the answer of a search is in terms of the vectors and the filter. */
  lemma AnswerMeans(net: Net, entry: nat, maxLevel: nat, q: Vec, ep: nat, efS: nat, topK: int, filter: Option<Filter>, found: seq<Cand>)
    requires efS > 0 && IsAnswer(net, entry, maxLevel, q, ep, Breadth(efS, topK, filter.Some?), Accepts(filter), found)
    ensures var r := Scores(found, MaxInt(0, topK));
      && |r| <= (if topK > 0 then topK else 0)
      && (forall i :: 0 <= i < |r| ==> r[i].id in net && r[i].score == Cosine(q, net[r[i].id].vec))
      && (forall i, j :: 0 <= i < j < |r| ==> IsBetter(r[i], r[j]))
      && (filter.Some? ==> forall i :: 0 <= i < |r| ==> filter.value(r[i].id))
      && ep in net && entry in net && Cosine(q, net[ep].vec) >= Cosine(q, net[entry].vec)
    ensures |net| <= efS || |net| <= topK || (filter.Some? && (|net| <= 4 * efS || |net| <= 4 * topK)) ==>
      IsBest(net, q, ep, topK, filter, Scores(found, MaxInt(0, topK)))
  {
    hide Dist, Cosine, Reached, Descended;
    var r := Scores(found, MaxInt(0, topK));
    DistIsCosine(q, net[ep].vec);
    DistIsCosine(q, net[entry].vec);
    forall i | 0 <= i < |found| ensures found[i].id in net && 1.0 - found[i].d == Cosine(q, net[found[i].id].vec) && Accepts(filter)(found[i].id) {
      DistIsCosine(q, net[found[i].id].vec);
      assert Holds(found, found[i].id);
    }
    forall i, j | 0 <= i < j < |r| ensures IsBetter(r[i], r[j]) {
      assert Before(found[i], found[j]);
    }
    if |net| <= efS || |net| <= topK || (filter.Some? && (|net| <= 4 * efS || |net| <= 4 * topK)) {
      assert |net| <= Breadth(efS, topK, filter.Some?);
      AllFoundIsBest(net, q, ep, Breadth(efS, topK, filter.Some?), topK, filter, found);
    }
  }

  lemma AllFoundIsBest(net: Net, q: Vec, ep: nat, ef: int, topK: int, filter: Option<Filter>, found: seq<Cand>)
    requires ef > 0 && |net| <= ef && IsSearched(net, 0, q, [ep], ef, Accepts(filter), found)
    ensures IsBest(net, q, ep, topK, filter, Scores(found, MaxInt(0, topK)))
  {
    hide Dist, Cosine, Reached;
    var r := Scores(found, MaxInt(0, topK));
    forall v: nat | v in net && Reached(net, 0, [ep], v) && (filter.None? || filter.value(v)) && topK > 0
      ensures IsListed(r, v) || (|r| == topK && IsBetter(r[|r| - 1], Scored(v, Cosine(q, net[v].vec))))
    {
      assert Accepts(filter)(v);
      assert Holds(found, v);
      var i :| 0 <= i < |found| && found[i].id == v;
      DistIsCosine(q, net[v].vec);
      if i < |r| {
        assert r[i].id == v;
      } else {
        assert Before(found[topK - 1], found[i]);
      }
    }
  }

  /** kept are k of the nodes given, or all if there are no more, and none left out is nearer to v than one kept. */
  ghost predicate KeepsNearest(net: Net, v: Vec, given: seq<nat>, k: nat, kept: seq<nat>) {
    && |kept| == (if |given| < k then |given| else k)
    && (forall a :: a in kept ==> a in given && a in net)
    && forall a, b :: a in kept && b in given && b !in kept && a in net && b in net ==> Cosine(v, net[a].vec) >= Cosine(v, net[b].vec)
  }

  lemma FirstIdsHave(cs: seq<Cand>, k: nat, j: nat)
    requires j < |cs|
    ensures j < |FirstIds(cs, k)| ==> cs[j].id in FirstIds(cs, k)
  {
    var ids := FirstIds(cs, k);
    assert j < |ids| ==> ids[j] == cs[j].id;
  }

  lemma FirstAreNearest(net: Net, v: Vec, cs: seq<Cand>, given: seq<nat>, k: nat)
    requires Ranked(net, v, given, cs)
    ensures KeepsNearest(net, v, given, k, FirstIds(cs, k))
  {
    hide Dist, Cosine;
    var kept := FirstIds(cs, k);
    forall a | a in kept ensures a in given && a in net {
      var i :| 0 <= i < |kept| && kept[i] == a;
      assert cs[i].id == a && Holds(cs, a);
    }
    forall a, b | a in kept && b in given && b !in kept && a in net && b in net ensures Cosine(v, net[a].vec) >= Cosine(v, net[b].vec) {
      var i :| 0 <= i < |kept| && kept[i] == a;
      assert Holds(cs, b);
      var j :| 0 <= j < |cs| && cs[j].id == b;
      FirstIdsHave(cs, k, j);
      assert Before(cs[i], cs[j]);
      DistIsCosine(v, net[a].vec);
      DistIsCosine(v, net[b].vec);
    }
  }

  lemma FoundIsRanked(net: Net, v: Vec, found: seq<Cand>)
    requires Sorted(found) && True(net, v, found)
    ensures Ranked(net, v, AllIds(found), found)
  {
    hide Dist;
    var ids := AllIds(found);
    forall x: nat ensures Holds(found, x) <==> x in ids {
      if Holds(found, x) {
        var i :| 0 <= i < |found| && found[i].id == x;
        assert ids[i] == x;
      }
      if x in ids {
        var i :| 0 <= i < |ids| && ids[i] == x;
        assert found[i].id == x;
      }
    }
  }

  /** What an insertion does at a layer, in terms of the vectors: the new node links to the nearest m of those found, and
      each of them keeps the nearest of its neighbours and the new node, 2m at the bottom layer and m above. */
  lemma LayerMeans(start: Net, net: Net, m: nat, efC: nat, id: nat, layer: nat, step: LayerStep)
    requires LayerDone(start, net, m, efC, id, layer, step)
    ensures IsLayerLinked(start, net, m, id, layer, AllIds(step.found))
  {
    hide Dist, Cosine, IsSearched, KeepsNearest, Ranked;
    SearchedIsSorted(start, layer, start[id].vec, step.eps, efC, step.found);
    FoundIsRanked(start, start[id].vec, step.found);
    FirstAreNearest(start, start[id].vec, step.found, AllIds(step.found), m);
    forall x: nat | x in start && x != id && x in Links(net, layer, id)
      ensures IsTrimmed(start, x, Links(start, layer, x) + [id], if layer == 0 then 2 * m else m, Links(net, layer, x))
    {
      BackListTrimmed(start, m, layer, x, id, Links(net, layer, x));
    }
  }

  ghost predicate IsLayerLinked(start: Net, net: Net, m: nat, id: nat, layer: nat, found: seq<nat>) {
    && id in start && id in net && start.Keys == net.Keys
    && KeepsNearest(start, start[id].vec, found, m, Links(net, layer, id))
    && forall x: nat :: x in start && x != id ==>
         if x in Links(net, layer, id) then
           IsTrimmed(start, x, Links(start, layer, x) + [id], if layer == 0 then 2 * m else m, Links(net, layer, x))
         else Links(net, layer, x) == Links(start, layer, x)
  }

  /** The insertion as a whole: from a node ep at least as near as the entry point, layer by layer from the top shared one
      down, each search starting from what the layer above found, the first one from ep; other layers are untouched. With
      room for all nodes a search finds all that can be reached. */
  ghost predicate IsInserted(start: Net, net: Net, m: nat, efC: nat, id: nat, entry: nat, maxLevel: nat, level: nat, ep: nat, founds: map<nat, seq<nat>>) {
    var top := if maxLevel < level then maxLevel else level;
    && id in start && entry in start && ep in start
    && Cosine(start[id].vec, start[ep].vec) >= Cosine(start[id].vec, start[entry].vec)
    && (forall l: nat :: l <= top ==> l in founds && IsLayerLinked(start, net, m, id, l, founds[l]))
    && (|start| <= efC ==> FindsAll(start, top, ep, founds))
    && forall l: nat :: l > top ==> SameLinks(start, net, l)
  }

  ghost predicate FindsAll(start: Net, top: nat, ep: nat, founds: map<nat, seq<nat>>) {
    && (top in founds ==> forall v: nat :: v in founds[top] <==> Reached(start, top, [ep], v))
    && forall l: nat, v: nat :: l < top && l in founds && l + 1 in founds ==> (v in founds[l] <==> Reached(start, l, founds[l + 1], v))
  }

  lemma StepNearer(net: Net, q: Vec, e: nat, layer: nat, w: seq<Cand>)
    requires StepsDown(net, q, e, layer, w) && e in net
    ensures w != [] && w[0].id in net && Cosine(q, net[w[0].id].vec) >= Cosine(q, net[e].vec)
  {
    hide Dist, Cosine, Reached;
    assert e in [e];
    assert Covered(net, q, 1, w, e);
    assert |w| == 1;
    DistIsCosine(q, net[e].vec);
    DistIsCosine(q, net[w[0].id].vec);
  }

  lemma DescendedFirst(net: Net, q: Vec, e: nat, from: nat, to: nat, ep: nat) returns (w: seq<Cand>)
    requires Descended(net, q, e, from, to, ep)
    ensures if from <= to then ep == e else StepsDown(net, q, e, from, w) && w != [] && Descended(net, q, w[0].id, from - 1, to, ep)
  {
    hide IsSearched;
    w := [];
    if from > to {
      w :| StepsDown(net, q, e, from, w) && Descended(net, q, w[0].id, from - 1, to, ep);
    }
  }

  lemma {:induction false} DescendedNearer(net: Net, q: Vec, e: nat, from: nat, to: nat, ep: nat)
    requires Descended(net, q, e, from, to, ep) && e in net
    ensures ep in net && Cosine(q, net[ep].vec) >= Cosine(q, net[e].vec)
    decreases from
  {
    hide *;
    var w := DescendedFirst(net, q, e, from, to, ep);
    if from > to {
      StepNearer(net, q, e, from, w);
      DescendedNearer(net, q, w[0].id, from - 1, to, ep);
    }
  }

  lemma FoundAll(net: Net, layer: nat, q: Vec, eps: seq<nat>, ef: nat, found: seq<Cand>)
    requires IsSearched(net, layer, q, eps, ef, _ => true, found) && |net| <= ef
    ensures forall v: nat :: v in AllIds(found) <==> Reached(net, layer, eps, v)
  {
    hide Dist, Reached;
    FoundIsRanked(net, q, found);
  }

  lemma InsertionMeans(start: Net, net: Net, m: nat, efC: nat, id: nat, entry: nat, maxLevel: nat, level: nat, ep: nat, steps: map<nat, LayerStep>)
    returns (founds: map<nat, seq<nat>>)
    requires id in start && entry in start && Linked(start, net, m, efC, id, start[id].vec, entry, maxLevel, level, ep, steps)
    ensures IsInserted(start, net, m, efC, id, entry, maxLevel, level, ep, founds)
  {
    hide Dist, Cosine, Reached, IsSearched, KeepsNearest, IsTrimmed, IsLayerLinked, LinksFrom, SameLinks;
    var top := Min(maxLevel, level);
    founds := map l | l in steps :: AllIds(steps[l].found);
    DescendedNearer(start, start[id].vec, entry, maxLevel, level, ep);
    forall l: nat | l <= top ensures l in founds && IsLayerLinked(start, net, m, id, l, founds[l]) {
      LayerMeans(start, net, m, efC, id, l, steps[l]);
    }
    if |start| <= efC {
      forall l: nat | l <= top
        ensures l in founds && forall v: nat :: v in founds[l] <==> Reached(start, l, steps[l].eps, v)
      {
        StepSearched(start, net, m, efC, id, l, steps[l]);
        FoundAll(start, l, start[id].vec, steps[l].eps, efC, steps[l].found);
      }
      forall l: nat, v: nat | l < top ensures l in founds && l + 1 in founds && (v in founds[l] <==> Reached(start, l, founds[l + 1], v)) {
        assert StartsRight(ep, top, steps, l);
      }
      assert StartsRight(ep, top, steps, top);
    }
  }

  lemma StepSearched(start: Net, net: Net, m: nat, efC: nat, id: nat, layer: nat, step: LayerStep)
    requires LayerDone(start, net, m, efC, id, layer, step)
    ensures IsSearched(start, layer, start[id].vec, step.eps, efC, _ => true, step.found)
  {}

  /** The list as it is if it is not too long, or the nearest of it. */
  ghost predicate IsTrimmed(net: Net, x: nat, longer: seq<nat>, cap: nat, ns: seq<nat>)
    requires x in net
  {
    if |longer| <= cap then ns == longer else KeepsNearest(net, net[x].vec, longer, cap, ns)
  }

  lemma BackListTrimmed(net: Net, m: nat, layer: nat, x: nat, id: nat, ns: seq<nat>)
    requires x in net && IsBackList(net, m, layer, x, id, ns)
    ensures IsTrimmed(net, x, Links(net, layer, x) + [id], if layer == 0 then 2 * m else m, ns)
  {
    hide Ranked, KeepsNearest;
    var longer := Links(net, layer, x) + [id];
    if |longer| > Cap(m, layer) {
      var cs :| Ranked(net, net[x].vec, longer, cs) && ns == FirstIds(cs, Cap(m, layer));
      FirstAreNearest(net, net[x].vec, cs, longer, Cap(m, layer));
    }
  }

  lemma SearchedIsSorted(net: Net, layer: nat, q: Vec, eps: seq<nat>, ef: nat, found: seq<Cand>)
    requires IsSearched(net, layer, q, eps, ef, _ => true, found)
    ensures Sorted(found) && True(net, q, found)
  {}

  /** No list is longer than twice m at the bottom layer, or m above it. */
  lemma DegreeBound(net: Net, m: nat, x: nat, layer: nat)
    requires NetOk(net, m) && x in net
    ensures |Links(net, layer, x)| <= if layer == 0 then 2 * m else m
  {
    assert NodeOk(net, m, x);
    assert layer <= net[x].level ==> ListOk(net, m, x, layer, net[x].neighbors[layer]);
  }

  /** A search of the bottom layer from the node the descent leads to, which is at least as near as the entry point. */
  ghost predicate IsAnswer(net: Net, entry: nat, maxLevel: nat, q: Vec, ep: nat, ef: int, accept: Filter, found: seq<Cand>) {
    && entry in net && ep in net && ef > 0 && Dist(q, net[ep].vec) <= Dist(q, net[entry].vec) && Descended(net, q, entry, maxLevel, 0, ep)
    && IsSearched(net, 0, q, [ep], ef, accept, found)
  }

  lemma AnswerFrom(net: Net, entry: nat, maxLevel: nat, q: Vec, ep: nat, ef: int, accept: Filter, found: seq<Cand>)
    requires entry in net && ep in net && ef > 0 && Dist(q, net[ep].vec) <= Dist(q, net[entry].vec) && Descended(net, q, entry, maxLevel, 0, ep)
    requires IsSearched(net, 0, q, [ep], ef, accept, found)
    ensures IsAnswer(net, entry, maxLevel, q, ep, ef, accept, found)
  {}

  lemma MaxBound(x: int, y: int)
    ensures MaxInt(x, y) >= x && MaxInt(x, y) >= y
  {}

  lemma VectorChange(net: Net, m: nat, entry: Option<nat>, maxLevel: nat, id: nat, vec: Vec)
    requires NetOk(net, m) && EntryOk(net, entry, maxLevel) && id in net
    ensures var net' := net[id := Node(vec, net[id].level, net[id].neighbors)];
      NetOk(net', m) && EntryOk(net', entry, maxLevel)
  {
    var net' := net[id := Node(vec, net[id].level, net[id].neighbors)];
    forall x: nat | x in net' ensures NodeOk(net', m, x) {
      assert NodeOk(net, m, x);
      forall l: nat | l <= net'[x].level ensures ListOk(net', m, x, l, net'[x].neighbors[l]) {
        assert ListOk(net, m, x, l, net[x].neighbors[l]);
      }
    }
  }

  lemma StartInserting(net: Net, m: nat, efC: nat, id: nat, ep: nat, top: nat)
    ensures SameNodes(net, net) && Inserting(net, net, m, efC, id, ep, top, top + 1, map[])
  {}

  /** The whole insertion of a node into a net that has an entry point. */
  ghost predicate Linked(start: Net, net: Net, m: nat, efC: nat, id: nat, vec: Vec, entry: nat, maxLevel: nat, level: nat, ep: nat, steps: map<nat, LayerStep>) {
    && Descended(start, vec, entry, maxLevel, level, ep)
    && Inserting(start, net, m, efC, id, ep, Min(maxLevel, level), 0, steps)
  }

  lemma IsLinked(start: Net, net: Net, m: nat, efC: nat, id: nat, vec: Vec, entry: nat, maxLevel: nat, level: nat, ep: nat, steps: map<nat, LayerStep>)
    requires Descended(start, vec, entry, maxLevel, level, ep)
    requires Inserting(start, net, m, efC, id, ep, Min(maxLevel, level), 0, steps)
    ensures Linked(start, net, m, efC, id, vec, entry, maxLevel, level, ep, steps)
  {}

  lemma SameNodesKept(start: Net, net: Net, id: nat)
    requires SameNodes(start, net) && id in start
    ensures id in net && net[id].level == start[id].level
  {}

  lemma EntryFirst(net: Net, id: nat, level: nat)
    requires net.Keys == {id} && net[id].level == level
    ensures EntryOk(net, Some(id), level)
  {}

  lemma EntryGrows(was: Net, net: Net, entry: Option<nat>, maxLevel: nat, id: nat, vec: Vec, level: nat)
    requires EntryOk(was, entry, maxLevel) && entry.Some? && id !in was && SameNodes(WithNew(was, id, vec, level), net)
    ensures if level > maxLevel then EntryOk(net, Some(id), level) else EntryOk(net, entry, maxLevel)
  {}
}
