/** Basic graph patterns and property paths (ts/src/sparql.ts): indexed evaluation is the scan, in the same order, and
    paths are the closures of section 18.4 of SPARQL 1.1 Query Language. */
module Sparql {
  import opened Basics
  import opened Strings

  /** A property value and its string form, by which all values are compared. */
  datatype Value = Text(text: string) | NumberValue(number: int, text: string) | BooleanValue(truth: bool, text: string)

  datatype Triple = Triple(s: Value, p: Value, o: Value)

  datatype Term = Var(name: string) | Iri(iri: string) | Literal(literal: Value)

  datatype PathMod = OneOrMore | ZeroOrMore | ZeroOrOne

  datatype Pattern = Pattern(s: Term, p: Term, o: Term, path: Option<PathMod>)

  type Binding = map<string, Value>

  // ---- Matching one triple -------------------------------------------------------------------------

  function MatchTerm(term: Term, v: Value, b: Binding): Option<Binding> {
    match term
    case Var(name) => if name in b then (if b[name].text == v.text then Some(b) else None) else Some(b[name := v])
    case Iri(iri) => if v.text == iri then Some(b) else None
    case Literal(literal) => if literal.text == v.text then Some(b) else None
  }

  function MatchTriple(pat: Pattern, t: Triple, b: Binding): Option<Binding> {
    var b1 := MatchTerm(pat.s, t.s, b);
    if b1.None? then None
    else
      var b2 := MatchTerm(pat.p, t.p, b1.value);
      if b2.None? then None else MatchTerm(pat.o, t.o, b2.value)
  }

  function BoundValue(term: Term, b: Binding): Option<string> {
    match term
    case Var(name) => if name in b then Some(b[name].text) else None
    case Iri(iri) => Some(iri)
    case Literal(literal) => Some(literal.text)
  }

  // ---- The scan ------------------------------------------------------------------------------------

  /** The solutions a list of triples adds to b, in the order of the triples. */
  function ScanMatches(pat: Pattern, triples: seq<Triple>, b: Binding): seq<Binding> {
    if triples == [] then []
    else
      var before := ScanMatches(pat, triples[..|triples| - 1], b);
      var last := MatchTriple(pat, triples[|triples| - 1], b);
      if last.Some? then before + [last.value] else before
  }

  // ---- The index -----------------------------------------------------------------------------------

  datatype Position = Subject | Predicate | Object

  function KeyOf(pos: Position, t: Triple): string {
    match pos
    case Subject => t.s.text
    case Predicate => t.p.text
    case Object => t.o.text
  }

  function TermAt(pos: Position, pat: Pattern): Term {
    match pos
    case Subject => pat.s
    case Predicate => pat.p
    case Object => pat.o
  }

  /** The triples with key k at a position, in order. */
  function Bucket(pos: Position, triples: seq<Triple>, k: string): seq<Triple> {
    if triples == [] then []
    else
      var before := Bucket(pos, triples[..|triples| - 1], k);
      if KeyOf(pos, triples[|triples| - 1]) == k then before + [triples[|triples| - 1]] else before
  }

  type Buckets = map<string, seq<Triple>>

  datatype Index = Index(s: Buckets, p: Buckets, o: Buckets)

  function Lookup(m: Buckets, k: string): seq<Triple> { if k in m then m[k] else [] }

  ghost predicate AreBuckets(m: Buckets, pos: Position, triples: seq<Triple>) {
    forall k :: Lookup(m, k) == Bucket(pos, triples, k)
  }

  ghost predicate IsIndex(idx: Index, triples: seq<Triple>) {
    AreBuckets(idx.s, Subject, triples) && AreBuckets(idx.p, Predicate, triples) && AreBuckets(idx.o, Object, triples)
  }

  function Put(m: Buckets, k: string, t: Triple): Buckets { m[k := Lookup(m, k) + [t]] }

  lemma PutKeeps(m: Buckets, pos: Position, triples: seq<Triple>, t: Triple)
    requires AreBuckets(m, pos, triples)
    ensures AreBuckets(Put(m, KeyOf(pos, t), t), pos, triples + [t])
  {
    var all := triples + [t];
    assert all[..|all| - 1] == triples;
    forall k ensures Lookup(Put(m, KeyOf(pos, t), t), k) == Bucket(pos, all, k) {
      assert Lookup(m, k) == Bucket(pos, triples, k);
    }
  }

  method BuildIndex(triples: seq<Triple>) returns (idx: Index)
    ensures IsIndex(idx, triples)
  {
    hide AreBuckets, Put;
    var s: Buckets, p: Buckets, o: Buckets := map[], map[], map[];
    EmptyBuckets();
    assert triples[..0] == [];
    for i := 0 to |triples|
      invariant AreBuckets(s, Subject, triples[..i]) && AreBuckets(p, Predicate, triples[..i]) && AreBuckets(o, Object, triples[..i])
    {
      var t := triples[i];
      assert triples[..i + 1] == triples[..i] + [t];
      PutKeeps(s, Subject, triples[..i], t);
      PutKeeps(p, Predicate, triples[..i], t);
      PutKeeps(o, Object, triples[..i], t);
      s, p, o := Put(s, t.s.text, t), Put(p, t.p.text, t), Put(o, t.o.text, t);
    }
    assert triples[..|triples|] == triples;
    idx := Index(s, p, o);
  }

  lemma EmptyBuckets()
    ensures forall pos :: AreBuckets(map[], pos, [])
  {}

  /** A triple that matches has the bound value at every bound position. */
  lemma MatchHasKey(pat: Pattern, t: Triple, b: Binding, pos: Position)
    requires MatchTriple(pat, t, b).Some? && BoundValue(TermAt(pos, pat), b).Some?
    ensures KeyOf(pos, t) == BoundValue(TermAt(pos, pat), b).value
  {}

  /** A bucket of a bound position gives the same solutions as all triples, in the same order. */
  lemma {:induction false} BucketIsEnough(pat: Pattern, triples: seq<Triple>, b: Binding, pos: Position, k: string)
    requires BoundValue(TermAt(pos, pat), b) == Some(k)
    ensures ScanMatches(pat, Bucket(pos, triples, k), b) == ScanMatches(pat, triples, b)
  {
    hide MatchTriple, KeyOf;
    if triples != [] {
      var rest, t := triples[..|triples| - 1], triples[|triples| - 1];
      BucketIsEnough(pat, rest, b, pos, k);
      if KeyOf(pos, t) == k {
        assert (Bucket(pos, rest, k) + [t])[..|Bucket(pos, rest, k)|] == Bucket(pos, rest, k);
      } else if MatchTriple(pat, t, b).Some? {
        MatchHasKey(pat, t, b, pos);
      }
    }
  }

  /** The smallest bucket among the bound positions, or all triples when none is bound. */
  method CandidateTriples(idx: Index, pat: Pattern, b: Binding, triples: seq<Triple>) returns (r: seq<Triple>)
    requires IsIndex(idx, triples)
    ensures ScanMatches(pat, r, b) == ScanMatches(pat, triples, b)
    ensures forall pos :: BoundValue(TermAt(pos, pat), b).Some? ==> |r| <= |Bucket(pos, triples, BoundValue(TermAt(pos, pat), b).value)|
    ensures (forall pos :: BoundValue(TermAt(pos, pat), b).None?) ==> r == triples
  {
    hide ScanMatches, Bucket, BoundValue;
    var sv, ov, pv := BoundValue(pat.s, b), BoundValue(pat.o, b), BoundValue(pat.p, b);
    assert sv == BoundValue(TermAt(Subject, pat), b) && ov == BoundValue(TermAt(Object, pat), b) && pv == BoundValue(TermAt(Predicate, pat), b);
    var best: Option<seq<Triple>> := None;
    if sv.Some? {
      BucketIsEnough(pat, triples, b, Subject, sv.value);
      best := Some(Lookup(idx.s, sv.value));
    }
    if ov.Some? {
      BucketIsEnough(pat, triples, b, Object, ov.value);
      var c := Lookup(idx.o, ov.value);
      if best.None? || |c| < |best.value| {
        best := Some(c);
      }
    }
    if pv.Some? {
      BucketIsEnough(pat, triples, b, Predicate, pv.value);
      var c := Lookup(idx.p, pv.value);
      if best.None? || |c| < |best.value| {
        best := Some(c);
      }
    }
    r := if best.Some? then best.value else triples;
  }

  // ---- Property paths --------------------------------------------------------------------------------

  /** Some triple with predicate p leads from a to b. */
  ghost predicate Edge(triples: seq<Triple>, p: string, a: string, b: string) {
    exists i :: 0 <= i < |triples| && IsEdge(triples[i], p, a, b)
  }

  predicate IsEdge(t: Triple, p: string, a: string, b: string) { t.p.text == p && t.s.text == a && t.o.text == b }

  ghost predicate IsWalk(triples: seq<Triple>, p: string, w: seq<string>) {
    |w| > 0 && forall i :: 0 <= i < |w| - 1 ==> Edge(triples, p, w[i], w[i + 1])
  }

  /** One or more hops. */
  ghost predicate Plus(triples: seq<Triple>, p: string, a: string, b: string) {
    exists w :: IsWalk(triples, p, w) && |w| > 1 && w[0] == a && w[|w| - 1] == b
  }

  /** The closure a path modifier asks for. */
  ghost predicate InClosure(triples: seq<Triple>, p: string, mod: PathMod, a: string, b: string) {
    match mod
    case OneOrMore => Plus(triples, p, a, b)
    case ZeroOrMore => a == b || Plus(triples, p, a, b)
    case ZeroOrOne => a == b || Edge(triples, p, a, b)
  }

  /** The nodes that some edge touches. */
  ghost function Touching(triples: seq<Triple>, p: string): set<string> {
    if triples == [] then {}
    else
      var t := triples[|triples| - 1];
      Touching(triples[..|triples| - 1], p) + if t.p.text == p then {t.s.text, t.o.text} else {}
  }

  lemma {:induction false} TouchingIs(triples: seq<Triple>, p: string, x: string)
    ensures x in Touching(triples, p) <==> exists i :: 0 <= i < |triples| && triples[i].p.text == p && (triples[i].s.text == x || triples[i].o.text == x)
  {
    if triples != [] {
      var rest := triples[..|triples| - 1];
      TouchingIs(rest, p, x);
      if x in Touching(rest, p) {
        var i :| 0 <= i < |rest| && rest[i].p.text == p && (rest[i].s.text == x || rest[i].o.text == x);
        assert triples[i] == rest[i];
      }
      forall i | 0 <= i < |triples| && triples[i].p.text == p && (triples[i].s.text == x || triples[i].o.text == x)
        ensures x in Touching(triples, p)
      {
        assert i < |rest| ==> rest[i] == triples[i];
      }
      assert triples[|triples| - 1].p.text == p && (triples[|triples| - 1].s.text == x || triples[|triples| - 1].o.text == x) ==>
        exists i :: 0 <= i < |triples| && triples[i].p.text == p && (triples[i].s.text == x || triples[i].o.text == x);
    }
  }

  lemma EdgeTouches(triples: seq<Triple>, p: string, a: string, b: string)
    requires Edge(triples, p, a, b)
    ensures a in Touching(triples, p) && b in Touching(triples, p)
  {
    TouchingIs(triples, p, a);
    TouchingIs(triples, p, b);
  }

  /** What a path leads to from a node. */
  ghost function Reach(triples: seq<Triple>, p: string, mod: PathMod, a: string): set<string> {
    set b | b in Touching(triples, p) + {a} && InClosure(triples, p, mod, a, b)
  }

  lemma ReachIs(triples: seq<Triple>, p: string, mod: PathMod, a: string, b: string)
    ensures b in Reach(triples, p, mod, a) <==> InClosure(triples, p, mod, a, b)
  {
    if Plus(triples, p, a, b) {
      var w :| IsWalk(triples, p, w) && |w| > 1 && w[0] == a && w[|w| - 1] == b;
      assert Edge(triples, p, w[|w| - 2], w[|w| - 2 + 1]);
      EdgeTouches(triples, p, w[|w| - 2], b);
    }
    if Edge(triples, p, a, b) {
      EdgeTouches(triples, p, a, b);
    }
  }

  // ---- Following a path ------------------------------------------------------------------------------

  type Links = map<string, set<string>>

  function Next(adj: Links, a: string): set<string> { if a in adj then adj[a] else {} }

  ghost predicate AreLinks(adj: Links, triples: seq<Triple>, p: string) {
    forall a, b :: b in Next(adj, a) <==> Edge(triples, p, a, b)
  }

  lemma EdgeAppend(triples: seq<Triple>, t: Triple, p: string, a: string, b: string)
    ensures Edge(triples + [t], p, a, b) <==> Edge(triples, p, a, b) || IsEdge(t, p, a, b)
  {
    var all := triples + [t];
    if Edge(triples, p, a, b) {
      var i :| 0 <= i < |triples| && IsEdge(triples[i], p, a, b);
      assert IsEdge(all[i], p, a, b);
    }
    if IsEdge(t, p, a, b) {
      assert IsEdge(all[|triples|], p, a, b);
    }
  }

  /** A bucket of the predicate has the edges of all triples. */
  lemma {:induction false} BucketEdges(triples: seq<Triple>, p: string, a: string, b: string)
    ensures Edge(Bucket(Predicate, triples, p), p, a, b) <==> Edge(triples, p, a, b)
  {
    hide Edge;
    if triples == [] {
    } else {
      var rest, t := triples[..|triples| - 1], triples[|triples| - 1];
      BucketEdges(rest, p, a, b);
      assert triples == rest + [t];
      EdgeAppend(rest, t, p, a, b);
      EdgeAppend(Bucket(Predicate, rest, p), t, p, a, b);
    }
  }

  lemma {:induction false} BucketTouching(triples: seq<Triple>, p: string)
    ensures Touching(Bucket(Predicate, triples, p), p) == Touching(triples, p)
  {
    if triples != [] {
      var rest, t := triples[..|triples| - 1], triples[|triples| - 1];
      BucketTouching(rest, p);
      var before := Bucket(Predicate, rest, p);
      assert (before + [t])[..|before|] == before;
    }
  }

  lemma {:induction false} BucketKeys(pos: Position, triples: seq<Triple>, k: string, i: nat)
    requires i < |Bucket(pos, triples, k)|
    ensures KeyOf(pos, Bucket(pos, triples, k)[i]) == k
  {
    var rest := triples[..|triples| - 1];
    if i < |Bucket(pos, rest, k)| {
      BucketKeys(pos, rest, k, i);
    }
  }

  method BuildLinks(bucket: seq<Triple>, p: string) returns (adj: Links, nodes: set<string>)
    requires forall i :: 0 <= i < |bucket| ==> bucket[i].p.text == p
    ensures AreLinks(adj, bucket, p) && nodes == Touching(bucket, p)
  {
    hide Edge, AreLinks;
    adj, nodes := map[], {};
    assert bucket[..0] == [];
    NoLinks(p);
    for i := 0 to |bucket|
      invariant AreLinks(adj, bucket[..i], p) && nodes == Touching(bucket[..i], p)
    {
      var t := bucket[i];
      assert bucket[..i + 1] == bucket[..i] + [t];
      assert bucket[..i + 1][..i] == bucket[..i];
      AddLink(adj, bucket[..i], t, p);
      adj := adj[t.s.text := Next(adj, t.s.text) + {t.o.text}];
      nodes := nodes + {t.s.text, t.o.text};
    }
    assert bucket[..|bucket|] == bucket;
  }

  lemma NoLinks(p: string)
    ensures AreLinks(map[], [], p)
  {}

  lemma AddLink(adj: Links, triples: seq<Triple>, t: Triple, p: string)
    requires AreLinks(adj, triples, p) && t.p.text == p
    ensures AreLinks(adj[t.s.text := Next(adj, t.s.text) + {t.o.text}], triples + [t], p)
  {
    hide Edge;
    var adj' := adj[t.s.text := Next(adj, t.s.text) + {t.o.text}];
    forall a, b ensures b in Next(adj', a) <==> Edge(triples + [t], p, a, b) {
      EdgeAppend(triples, t, p, a, b);
      assert b in Next(adj, a) <==> Edge(triples, p, a, b);
    }
  }

  lemma PlusEdge(triples: seq<Triple>, p: string, a: string, b: string)
    requires Edge(triples, p, a, b)
    ensures Plus(triples, p, a, b)
  {
    assert IsWalk(triples, p, [a, b]);
  }

  lemma PlusStep(triples: seq<Triple>, p: string, a: string, b: string, c: string)
    requires Plus(triples, p, a, b) && Edge(triples, p, b, c)
    ensures Plus(triples, p, a, c)
  {
    hide Edge;
    var w :| IsWalk(triples, p, w) && |w| > 1 && w[0] == a && w[|w| - 1] == b;
    assert IsWalk(triples, p, w + [c]);
  }

  lemma {:induction false} WalkInside(triples: seq<Triple>, p: string, inside: set<string>, w: seq<string>)
    requires IsWalk(triples, p, w) && |w| > 1
    requires forall b :: Edge(triples, p, w[0], b) ==> b in inside
    requires forall a, b :: a in inside && Edge(triples, p, a, b) ==> b in inside
    ensures w[|w| - 1] in inside
    decreases |w|
  {
    hide Edge;
    assert Edge(triples, p, w[|w| - 2], w[|w| - 2 + 1]);
    if |w| > 2 {
      WalkInside(triples, p, inside, w[..|w| - 1]);
    }
  }

  method ToSeq(s: set<string>) returns (r: seq<string>)
    ensures forall x :: x in r <==> x in s
  {
    r := [];
    var rest := s;
    while rest != {}
      invariant rest <= s && forall x :: x in r <==> x in s && x !in rest
    {
      var x :| x in rest;
      r := r + [x];
      rest := rest - {x};
    }
  }

  /** Each node met is reached by one or more hops, and the links of every node seen lead to nodes seen or waiting. */
  ghost predicate Searching(triples: seq<Triple>, p: string, adj: Links, from: string, seen: set<string>, stack: seq<string>) {
    && (forall x :: x in seen || x in stack ==> Plus(triples, p, from, x))
    && (forall b :: b in Next(adj, from) ==> b in seen || b in stack)
    && forall a, b :: a in seen && b in Next(adj, a) ==> b in seen || b in stack
  }

  lemma SearchEnds(triples: seq<Triple>, p: string, adj: Links, from: string, seen: set<string>)
    requires AreLinks(adj, triples, p) && Searching(triples, p, adj, from, seen, [])
    ensures forall x :: x in seen <==> Plus(triples, p, from, x)
  {
    hide Edge;
    forall x | Plus(triples, p, from, x) ensures x in seen {
      var w :| IsWalk(triples, p, w) && |w| > 1 && w[0] == from && w[|w| - 1] == x;
      WalkInside(triples, p, seen, w);
    }
  }

  lemma SearchStarts(triples: seq<Triple>, p: string, adj: Links, from: string, stack: seq<string>)
    requires AreLinks(adj, triples, p) && forall x :: x in stack <==> x in Next(adj, from)
    ensures Searching(triples, p, adj, from, {}, stack)
  {
    hide Edge, Plus;
    forall x | x in stack ensures Plus(triples, p, from, x) {
      PlusEdge(triples, p, from, x);
    }
  }

  lemma PlusTouches(triples: seq<Triple>, p: string, a: string, b: string)
    requires Plus(triples, p, a, b)
    ensures b in Touching(triples, p)
  {
    var w :| IsWalk(triples, p, w) && |w| > 1 && w[0] == a && w[|w| - 1] == b;
    assert Edge(triples, p, w[|w| - 2], w[|w| - 2 + 1]);
    EdgeTouches(triples, p, w[|w| - 2], b);
  }

  lemma SearchSkips(triples: seq<Triple>, p: string, adj: Links, from: string, seen: set<string>, stack: seq<string>)
    requires Searching(triples, p, adj, from, seen, stack) && stack != [] && stack[|stack| - 1] in seen
    ensures Searching(triples, p, adj, from, seen, stack[..|stack| - 1])
  {
    hide Plus, Next;
    LastOf(stack);
  }

  lemma LastOf(stack: seq<string>)
    requires stack != []
    ensures forall x :: x in stack <==> x in stack[..|stack| - 1] || x == stack[|stack| - 1]
  {
    assert stack == stack[..|stack| - 1] + [stack[|stack| - 1]];
  }

  lemma SearchGoesOn(triples: seq<Triple>, p: string, adj: Links, from: string, seen: set<string>, stack: seq<string>, more: seq<string>)
    requires AreLinks(adj, triples, p) && Searching(triples, p, adj, from, seen, stack) && stack != []
    requires forall x :: x in more <==> x in Next(adj, stack[|stack| - 1]) - (seen + {stack[|stack| - 1]})
    ensures Searching(triples, p, adj, from, seen + {stack[|stack| - 1]}, stack[..|stack| - 1] + more)
  {
    hide Edge, Plus;
    var n, rest := stack[|stack| - 1], stack[..|stack| - 1];
    LastOf(stack);
    assert forall x :: x in rest + more <==> x in rest || x in more;
    forall x | x in more ensures Plus(triples, p, from, x) {
      PlusStep(triples, p, from, n, x);
    }
  }

  lemma Shrinks(all: set<string>, seen: set<string>, n: string)
    requires n in all && n !in seen
    ensures |all - (seen + {n})| < |all - seen|
  {
    assert all - (seen + {n}) == (all - seen) - {n};
  }

  /** The nodes one or more hops away; the search ends on cycles too. */
  method Follow(ghost triples: seq<Triple>, ghost p: string, adj: Links, from: string) returns (seen: set<string>)
    requires AreLinks(adj, triples, p)
    ensures forall x :: x in seen <==> Plus(triples, p, from, x)
  {
    hide *;
    seen := {};
    var stack := ToSeq(Next(adj, from));
    SearchStarts(triples, p, adj, from, stack);
    ghost var all := Touching(triples, p);
    while stack != []
      invariant Searching(triples, p, adj, from, seen, stack)
      decreases |all - seen|, |stack|
    {
      var n, rest := stack[|stack| - 1], stack[..|stack| - 1];
      if n in seen {
        SearchSkips(triples, p, adj, from, seen, stack);
        stack := rest;
      } else {
        InTouching(triples, p, adj, from, seen, stack);
        var more := ToSeq(Next(adj, n) - (seen + {n}));
        SearchGoesOn(triples, p, adj, from, seen, stack, more);
        Shrinks(all, seen, n);
        stack := rest + more;
        seen := seen + {n};
      }
    }
    SearchEnds(triples, p, adj, from, seen);
  }

  /** What one node leads to. */
  method ReachFrom(ghost triples: seq<Triple>, ghost p: string, adj: Links, mod: PathMod, from: string) returns (out: set<string>)
    requires AreLinks(adj, triples, p)
    ensures out == Reach(triples, p, mod, from)
  {
    hide *;
    if mod == ZeroOrOne {
      out := {from} + Next(adj, from);
      OneHop(triples, p, adj, from);
    } else {
      var seen := Follow(triples, p, adj, from);
      out := seen + if mod == ZeroOrMore then {from} else {};
      ManyHops(triples, p, mod, from, seen, out);
    }
  }

  lemma InTouching(triples: seq<Triple>, p: string, adj: Links, from: string, seen: set<string>, stack: seq<string>)
    requires Searching(triples, p, adj, from, seen, stack) && stack != []
    ensures stack[|stack| - 1] in Touching(triples, p)
  {
    PlusTouches(triples, p, from, stack[|stack| - 1]);
  }

  lemma OneHop(triples: seq<Triple>, p: string, adj: Links, from: string)
    requires AreLinks(adj, triples, p)
    ensures {from} + Next(adj, from) == Reach(triples, p, ZeroOrOne, from)
  {
    hide Edge, Reach;
    forall b ensures b in {from} + Next(adj, from) <==> b in Reach(triples, p, ZeroOrOne, from) {
      ReachIs(triples, p, ZeroOrOne, from, b);
    }
  }

  lemma ManyHops(triples: seq<Triple>, p: string, mod: PathMod, from: string, seen: set<string>, out: set<string>)
    requires mod != ZeroOrOne && forall x :: x in seen <==> Plus(triples, p, from, x)
    requires out == seen + if mod == ZeroOrMore then {from} else {}
    ensures out == Reach(triples, p, mod, from)
  {
    hide Plus, Reach;
    forall b ensures b in out <==> b in Reach(triples, p, mod, from) {
      ReachIs(triples, p, mod, from, b);
    }
  }

  // ---- Path solutions ---------------------------------------------------------------------------------

  function Assign(term: Term, x: string, b: Binding): Binding {
    if term.Var? && term.name != "" then b[term.name := Text(x)] else b
  }

  function PathRow(pat: Pattern, b: Binding, from: string, to: string): Binding {
    Assign(pat.o, to, Assign(pat.s, from, b))
  }

  /** The rows for one start, in the order of the ends. */
  function RowsFrom(pat: Pattern, b: Binding, from: string, tos: seq<string>): seq<Binding> {
    if tos == [] then []
    else
      var ov, before := BoundValue(pat.o, b), RowsFrom(pat, b, from, tos[..|tos| - 1]);
      var to := tos[|tos| - 1];
      if ov.Some? && to != ov.value then before else before + [PathRow(pat, b, from, to)]
  }

  ghost function Rows(pat: Pattern, b: Binding, triples: seq<Triple>, p: string, mod: PathMod, froms: seq<string>): seq<Binding> {
    if froms == [] then []
    else
      var from := froms[|froms| - 1];
      Rows(pat, b, triples, p, mod, froms[..|froms| - 1]) + RowsFrom(pat, b, from, Listed(Reach(triples, p, mod, from)))
  }

  ghost function Starts(pat: Pattern, b: Binding, triples: seq<Triple>, p: string): seq<string> {
    var sv := BoundValue(pat.s, b);
    if sv.Some? then [sv.value] else Listed(Touching(triples, p))
  }

  /** The solutions of a path pattern: nothing for an unbound predicate. */
  ghost function PathSolutions(pat: Pattern, b: Binding, triples: seq<Triple>): seq<Binding>
    requires pat.path.Some?
  {
    var pv := BoundValue(pat.p, b);
    if pv.None? then [] else Rows(pat, b, triples, pv.value, pat.path.value, Starts(pat, b, triples, pv.value))
  }

  method PathRows(pat: Pattern, b: Binding, from: string, tos: seq<string>) returns (rows: seq<Binding>)
    ensures rows == RowsFrom(pat, b, from, tos)
  {
    rows := [];
    var ov := BoundValue(pat.o, b);
    for i := 0 to |tos|
      invariant rows == RowsFrom(pat, b, from, tos[..i])
    {
      assert tos[..i + 1][..i] == tos[..i];
      if !(ov.Some? && tos[i] != ov.value) {
        rows := rows + [PathRow(pat, b, from, tos[i])];
      }
    }
    assert tos[..|tos|] == tos;
  }

  method RowsOf(pat: Pattern, b: Binding, ghost triples: seq<Triple>, ghost p: string, adj: Links, from: string) returns (rows: seq<Binding>)
    requires AreLinks(adj, triples, p) && pat.path.Some?
    ensures rows == RowsFrom(pat, b, from, Listed(Reach(triples, p, pat.path.value, from)))
  {
    hide *;
    var reached := ReachFrom(triples, p, adj, pat.path.value, from);
    var tos := Sort(reached);
    rows := PathRows(pat, b, from, tos);
  }

  method EvalPath(idx: Index, pat: Pattern, b: Binding, ghost triples: seq<Triple>) returns (rows: seq<Binding>)
    requires IsIndex(idx, triples) && pat.path.Some?
    ensures rows == PathSolutions(pat, b, triples)
  {
    hide Edge, Plus, Reach, Touching, RowsFrom, Bucket, BoundValue, AreLinks, Listed;
    var pv := BoundValue(pat.p, b);
    if pv.None? {
      return [];
    }
    var p := pv.value;
    var bucket := Lookup(idx.p, p);
    forall i: nat | i < |bucket| ensures bucket[i].p.text == p {
      BucketKeys(Predicate, triples, p, i);
    }
    var adj, nodes := BuildLinks(bucket, p);
    BucketLinks(adj, triples, p);
    BucketTouching(triples, p);
    var sv := BoundValue(pat.s, b);
    var froms: seq<string>;
    if sv.Some? {
      froms := [sv.value];
    } else {
      froms := Sort(nodes);
    }
    rows := [];
    for i := 0 to |froms|
      invariant rows == Rows(pat, b, triples, p, pat.path.value, froms[..i])
    {
      assert froms[..i + 1][..i] == froms[..i];
      var more := RowsOf(pat, b, triples, p, adj, froms[i]);
      rows := rows + more;
    }
    assert froms[..|froms|] == froms;
  }

  lemma BucketLinks(adj: Links, triples: seq<Triple>, p: string)
    requires AreLinks(adj, Bucket(Predicate, triples, p), p)
    ensures AreLinks(adj, triples, p)
  {
    hide Edge;
    forall x, y ensures y in Next(adj, x) <==> Edge(triples, p, x, y) {
      BucketEdges(triples, p, x, y);
    }
  }

  // ---- Basic graph patterns ----------------------------------------------------------------------------

  /** The solutions of one pattern under one solution, by scanning. */
  ghost function Extensions(pat: Pattern, triples: seq<Triple>, b: Binding): seq<Binding> {
    if pat.path.Some? then PathSolutions(pat, b, triples) else ScanMatches(pat, triples, b)
  }

  ghost function ExtendAll(pat: Pattern, triples: seq<Triple>, sols: seq<Binding>): seq<Binding> {
    if sols == [] then [] else ExtendAll(pat, triples, sols[..|sols| - 1]) + Extensions(pat, triples, sols[|sols| - 1])
  }

  /** Pattern by pattern, every triple tried for every solution. */
  ghost function ScanBGP(patterns: seq<Pattern>, triples: seq<Triple>, seed: seq<Binding>): seq<Binding> {
    if patterns == [] then seed
    else ExtendAll(patterns[|patterns| - 1], triples, ScanBGP(patterns[..|patterns| - 1], triples, seed))
  }

  lemma {:induction false} NothingExtends(patterns: seq<Pattern>, triples: seq<Triple>, seed: seq<Binding>, i: nat)
    requires i <= |patterns| && ScanBGP(patterns[..i], triples, seed) == []
    ensures i < |patterns| ==> ScanBGP(patterns, triples, seed) == []
    decreases |patterns|
  {
    if i < |patterns| {
      var rest := patterns[..|patterns| - 1];
      assert rest[..i] == patterns[..i];
      NothingExtends(rest, triples, seed, i);
      assert i == |rest| ==> rest[..i] == rest;
    }
  }

  /** The indexed evaluation gives the solutions of the scan, in the same order. */
  method EvalBGP(patterns: seq<Pattern>, triples: seq<Triple>, seed: seq<Binding>) returns (solutions: seq<Binding>)
    ensures solutions == ScanBGP(patterns, triples, seed)
  {
    hide IsIndex, Extensions;
    var idx := BuildIndex(triples);
    solutions := seed;
    for i := 0 to |patterns|
      invariant solutions == ScanBGP(patterns[..i], triples, seed)
    {
      assert patterns[..i + 1][..i] == patterns[..i];
      solutions := EvalPattern(idx, patterns[i], triples, solutions);
      if solutions == [] {
        NothingExtends(patterns, triples, seed, i + 1);
        assert i + 1 == |patterns| ==> patterns[..i + 1] == patterns;
        return;
      }
    }
    assert patterns[..|patterns|] == patterns;
  }

  method EvalPattern(idx: Index, pat: Pattern, triples: seq<Triple>, sols: seq<Binding>) returns (r: seq<Binding>)
    requires IsIndex(idx, triples)
    ensures r == ExtendAll(pat, triples, sols)
  {
    hide IsIndex, PathSolutions, ScanMatches, BoundValue, Bucket;
    r := [];
    for i := 0 to |sols|
      invariant r == ExtendAll(pat, triples, sols[..i])
    {
      assert sols[..i + 1][..i] == sols[..i];
      if pat.path.Some? {
        var rows := EvalPath(idx, pat, sols[i], triples);
        r := r + rows;
      } else {
        var candidates := CandidateTriples(idx, pat, sols[i], triples);
        var rows := MatchAll(pat, candidates, sols[i]);
        r := r + rows;
      }
    }
    assert sols[..|sols|] == sols;
  }

  method MatchAll(pat: Pattern, triples: seq<Triple>, b: Binding) returns (r: seq<Binding>)
    ensures r == ScanMatches(pat, triples, b)
  {
    hide MatchTriple;
    r := [];
    for i := 0 to |triples|
      invariant r == ScanMatches(pat, triples[..i], b)
    {
      assert triples[..i + 1][..i] == triples[..i];
      var merged := MatchTriple(pat, triples[i], b);
      if merged.Some? {
        r := r + [merged.value];
      }
    }
    assert triples[..|triples|] == triples;
  }
}
