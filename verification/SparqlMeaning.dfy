/** What the solutions of basic graph patterns and property paths mean (ts/src/sparql.ts). */
module SparqlMeaning {
  import opened Basics
  import opened Strings
  import opened Sparql

  // ---- Basic graph patterns ----------------------------------------------------------------------------

  /** Under m the pattern becomes the triple, by string form. */
  ghost predicate IsInstance(pat: Pattern, t: Triple, m: Binding) {
    && BoundValue(pat.s, m) == Some(t.s.text)
    && BoundValue(pat.p, m) == Some(t.p.text)
    && BoundValue(pat.o, m) == Some(t.o.text)
  }

  /** Every variable of b has the same text in m. */
  ghost predicate Within(b: Binding, m: Binding) { forall x :: x in b ==> x in m && b[x].text == m[x].text }

  ghost predicate HasInstance(pat: Pattern, triples: seq<Triple>, m: Binding) {
    exists i :: 0 <= i < |triples| && IsInstance(pat, triples[i], m)
  }

  lemma MatchSound(pat: Pattern, t: Triple, b: Binding)
    requires MatchTriple(pat, t, b).Some?
    ensures Within(b, MatchTriple(pat, t, b).value) && IsInstance(pat, t, MatchTriple(pat, t, b).value)
  {
    TermSound(pat.s, t.s, b);
    var b1 := MatchTerm(pat.s, t.s, b).value;
    TermSound(pat.p, t.p, b1);
    var b2 := MatchTerm(pat.p, t.p, b1).value;
    TermSound(pat.o, t.o, b2);
    hide MatchTerm, BoundValue;
    TermKept(pat.s, b1, b2);
    TermKept(pat.s, b2, MatchTriple(pat, t, b).value);
    TermKept(pat.p, b2, MatchTriple(pat, t, b).value);
  }

  lemma TermSound(term: Term, v: Value, b: Binding)
    requires MatchTerm(term, v, b).Some?
    ensures Within(b, MatchTerm(term, v, b).value) && BoundValue(term, MatchTerm(term, v, b).value) == Some(v.text)
  {}

  lemma TermKept(term: Term, b: Binding, m: Binding)
    requires Within(b, m)
    ensures BoundValue(term, b).Some? ==> BoundValue(term, m) == BoundValue(term, b)
  {}

  lemma TermComplete(term: Term, v: Value, b: Binding, m: Binding)
    requires Within(b, m) && BoundValue(term, m) == Some(v.text)
    ensures MatchTerm(term, v, b).Some? && Within(MatchTerm(term, v, b).value, m)
  {}

  lemma MatchComplete(pat: Pattern, t: Triple, b: Binding, m: Binding)
    requires Within(b, m) && IsInstance(pat, t, m)
    ensures MatchTriple(pat, t, b).Some? && Within(MatchTriple(pat, t, b).value, m)
  {
    hide MatchTerm, BoundValue;
    TermComplete(pat.s, t.s, b, m);
    var b1 := MatchTerm(pat.s, t.s, b).value;
    TermComplete(pat.p, t.p, b1, m);
    TermComplete(pat.o, t.o, MatchTerm(pat.p, t.p, b1).value, m);
  }

  lemma {:induction false} ScanSound(pat: Pattern, triples: seq<Triple>, b: Binding, sol: Binding)
    requires sol in ScanMatches(pat, triples, b)
    ensures Within(b, sol) && HasInstance(pat, triples, sol)
  {
    hide MatchTriple, IsInstance, Within;
    var rest, t := triples[..|triples| - 1], triples[|triples| - 1];
    if sol in ScanMatches(pat, rest, b) {
      ScanSound(pat, rest, b, sol);
      var i :| 0 <= i < |rest| && IsInstance(pat, rest[i], sol);
      assert IsInstance(pat, triples[i], sol);
    } else {
      MatchSound(pat, t, b);
      assert IsInstance(pat, triples[|triples| - 1], sol);
    }
  }

  /** The positions of the triples that match. */
  function Matching(pat: Pattern, triples: seq<Triple>, b: Binding): seq<nat> {
    if triples == [] then []
    else
      var n := |triples| - 1;
      var before := Matching(pat, triples[..n], b);
      if MatchTriple(pat, triples[n], b).Some? then before + [n] else before
  }

  ghost predicate Rising(at: seq<nat>) { forall i, j :: 0 <= i < j < |at| ==> at[i] < at[j] }

  lemma {:induction false} MatchingRises(pat: Pattern, triples: seq<Triple>, b: Binding)
    ensures Rising(Matching(pat, triples, b))
    ensures forall i: nat :: i in Matching(pat, triples, b) <==> i < |triples| && MatchTriple(pat, triples[i], b).Some?
  {
    hide MatchTriple;
    if triples != [] {
      var n := |triples| - 1;
      var before := Matching(pat, triples[..n], b);
      MatchingRises(pat, triples[..n], b);
      forall i | 0 <= i < |before| ensures before[i] < n {
        assert before[i] in before;
      }
    }
  }

  /** A row for each matching triple, in the order of the triples, repeated ones repeated. */
  lemma {:induction false} ScanIsMatching(pat: Pattern, triples: seq<Triple>, b: Binding)
    ensures var at, rows := Matching(pat, triples, b), ScanMatches(pat, triples, b);
      |at| == |rows| && forall i :: 0 <= i < |at| ==> at[i] < |triples| && MatchTriple(pat, triples[at[i]], b) == Some(rows[i])
  {
    hide MatchTriple;
    if triples != [] {
      ScanIsMatching(pat, triples[..|triples| - 1], b);
    }
  }

  /** The solutions of a list of bindings are those of its parts, one after the other. */
  lemma {:induction false} ExtendInTurn(patterns: seq<Pattern>, triples: seq<Triple>, left: seq<Binding>, right: seq<Binding>)
    ensures ScanBGP(patterns, triples, left + right) == ScanBGP(patterns, triples, left) + ScanBGP(patterns, triples, right)
    decreases |patterns|
  {
    if patterns != [] {
      hide ExtendAll;
      var rest := patterns[..|patterns| - 1];
      ExtendInTurn(rest, triples, left, right);
      ExtendConcat(patterns[|patterns| - 1], triples, ScanBGP(rest, triples, left), ScanBGP(rest, triples, right));
    }
  }

  lemma {:induction false} ExtendConcat(pat: Pattern, triples: seq<Triple>, left: seq<Binding>, right: seq<Binding>)
    ensures ExtendAll(pat, triples, left + right) == ExtendAll(pat, triples, left) + ExtendAll(pat, triples, right)
  {
    hide Extensions;
    if right == [] {
      assert left + right == left;
    } else {
      var all, rest := left + right, right[..|right| - 1];
      ExtendConcat(pat, triples, left, rest);
      assert all[..|all| - 1] == left + rest;
    }
  }

  /** From one binding a pattern without a path gives a row for each triple that matches, and the patterns behind it go
      on from each of these rows in turn. */
  lemma {:induction false} FirstPattern(patterns: seq<Pattern>, triples: seq<Triple>, b: Binding)
    requires patterns != [] && patterns[0].path.None?
    ensures ScanBGP(patterns, triples, [b]) == ScanBGP(patterns[1..], triples, ScanMatches(patterns[0], triples, b))
    decreases |patterns|
  {
    hide ScanMatches;
    var n := |patterns| - 1;
    assert [b][..0] == [];
    if n > 0 {
      FirstPattern(patterns[..n], triples, b);
      assert patterns[..n][1..] == patterns[1..][..n - 1] && patterns[1..][n - 1] == patterns[n];
    } else {
      assert patterns[..0] == [] && patterns[1..] == [];
      assert ScanBGP(patterns[..0], triples, [b]) == [b];
      assert ExtendAll(patterns[0], triples, [b]) == [] + ScanMatches(patterns[0], triples, b);
    }
  }

  lemma {:induction false} ScanComplete(pat: Pattern, triples: seq<Triple>, b: Binding, m: Binding) returns (sol: Binding)
    requires Within(b, m) && HasInstance(pat, triples, m)
    ensures sol in ScanMatches(pat, triples, b) && Within(sol, m)
  {
    hide MatchTriple, IsInstance, Within;
    var i :| 0 <= i < |triples| && IsInstance(pat, triples[i], m);
    var rest, t := triples[..|triples| - 1], triples[|triples| - 1];
    if i == |rest| {
      MatchComplete(pat, t, b, m);
      sol := MatchTriple(pat, t, b).value;
    } else {
      assert IsInstance(pat, rest[i], m);
      sol := ScanComplete(pat, rest, b, m);
    }
  }

  /** Under m the ends of the path pattern are joined as its modifier asks. */
  ghost predicate PathHolds(pat: Pattern, triples: seq<Triple>, m: Binding)
    requires pat.path.Some?
  {
    var p, from, to := BoundValue(pat.p, m), BoundValue(pat.s, m), BoundValue(pat.o, m);
    p.Some? && from.Some? && to.Some? && InClosure(triples, p.value, pat.path.value, from.value, to.value)
  }

  /** Under m the pattern is a triple of the store or, with a path, a connection in it. */
  ghost predicate Holds(pat: Pattern, triples: seq<Triple>, m: Binding) {
    if pat.path.Some? then PathHolds(pat, triples, m) else HasInstance(pat, triples, m)
  }

  predicate IsNamed(term: Term) { term.Var? ==> term.name != "" }

  /** The ends of a path are not one variable without a value. */
  predicate EndsDiffer(pat: Pattern, b: Binding) { pat.s.Var? && pat.o == pat.s ==> pat.s.name in b }

  ghost predicate IsPathRow(pat: Pattern, b: Binding, triples: seq<Triple>, p: string, from: string, to: string, sol: Binding)
    requires pat.path.Some?
  {
    && InClosure(triples, p, pat.path.value, from, to) && sol == PathRow(pat, b, from, to)
    && (BoundValue(pat.o, b).Some? ==> BoundValue(pat.o, b).value == to)
  }

  lemma {:induction false} RowsFromSound(pat: Pattern, b: Binding, from: string, tos: seq<string>, sol: Binding) returns (to: string)
    requires sol in RowsFrom(pat, b, from, tos)
    ensures to in tos && sol == PathRow(pat, b, from, to) && (BoundValue(pat.o, b).Some? ==> BoundValue(pat.o, b).value == to)
  {
    hide PathRow, BoundValue;
    var rest := tos[..|tos| - 1];
    if sol in RowsFrom(pat, b, from, rest) {
      to := RowsFromSound(pat, b, from, rest, sol);
    } else {
      to := tos[|tos| - 1];
    }
  }

  lemma {:induction false} RowsFromComplete(pat: Pattern, b: Binding, from: string, tos: seq<string>, to: string)
    requires to in tos && (BoundValue(pat.o, b).Some? ==> BoundValue(pat.o, b).value == to)
    ensures PathRow(pat, b, from, to) in RowsFrom(pat, b, from, tos)
  {
    hide PathRow, BoundValue;
    var rest := tos[..|tos| - 1];
    if to in rest {
      RowsFromComplete(pat, b, from, rest, to);
    } else {
      assert tos == rest + [tos[|tos| - 1]];
    }
  }

  lemma {:induction false} RowsSound(pat: Pattern, b: Binding, triples: seq<Triple>, p: string, froms: seq<string>, sol: Binding)
    returns (from: string, to: string)
    requires pat.path.Some? && sol in Rows(pat, b, triples, p, pat.path.value, froms)
    ensures from in froms && IsPathRow(pat, b, triples, p, from, to, sol)
  {
    hide PathRow, BoundValue, InClosure, Reach, Listed, RowsFrom;
    var rest := froms[..|froms| - 1];
    if sol in Rows(pat, b, triples, p, pat.path.value, rest) {
      from, to := RowsSound(pat, b, triples, p, rest, sol);
    } else {
      from := froms[|froms| - 1];
      to := RowsFromSound(pat, b, from, Listed(Reach(triples, p, pat.path.value, from)), sol);
      ReachIs(triples, p, pat.path.value, from, to);
    }
  }

  lemma {:induction false} RowsComplete(pat: Pattern, b: Binding, triples: seq<Triple>, p: string, froms: seq<string>, from: string, to: string)
    requires pat.path.Some? && from in froms && IsPathRow(pat, b, triples, p, from, to, PathRow(pat, b, from, to))
    ensures PathRow(pat, b, from, to) in Rows(pat, b, triples, p, pat.path.value, froms)
  {
    hide PathRow, BoundValue, InClosure, Reach, Listed, RowsFrom;
    var rest, last := froms[..|froms| - 1], froms[|froms| - 1];
    if from in rest {
      RowsComplete(pat, b, triples, p, rest, from, to);
    } else {
      assert froms == rest + [last];
      ReachIs(triples, p, pat.path.value, from, to);
      RowsFromComplete(pat, b, from, Listed(Reach(triples, p, pat.path.value, from)), to);
    }
  }

  /** A row keeps what is bound and gives the ends their values. */
  lemma RowMeans(pat: Pattern, b: Binding, from: string, to: string)
    requires IsNamed(pat.s) && IsNamed(pat.o) && (EndsDiffer(pat, b) || from == to)
    requires BoundValue(pat.s, b).Some? ==> BoundValue(pat.s, b).value == from
    requires BoundValue(pat.o, b).Some? ==> BoundValue(pat.o, b).value == to
    ensures var sol := PathRow(pat, b, from, to);
      Within(b, sol) && BoundValue(pat.s, sol) == Some(from) && BoundValue(pat.o, sol) == Some(to)
  {}

  /** A solution of a path pattern keeps the binding and joins the ends. */
  lemma PathSound(pat: Pattern, triples: seq<Triple>, b: Binding, sol: Binding)
    requires pat.path.Some? && IsNamed(pat.s) && IsNamed(pat.o) && EndsDiffer(pat, b) && sol in PathSolutions(pat, b, triples)
    ensures Within(b, sol) && PathHolds(pat, triples, sol)
  {
    hide BoundValue, PathRow, Rows, Within, Listed, Touching, InClosure, EndsDiffer, IsNamed;
    var p := BoundValue(pat.p, b).value;
    var from, to := RowsSound(pat, b, triples, p, Starts(pat, b, triples, p), sol);
    RowMeans(pat, b, from, to);
    TermKept(pat.p, b, sol);
  }

  /** The path pattern has its predicate, and a start that is given or that the predicate touches. */
  ghost predicate CanStart(pat: Pattern, triples: seq<Triple>, b: Binding, m: Binding)
    requires pat.path.Some?
  {
    && BoundValue(pat.p, b).Some?
    && (BoundValue(pat.s, b).Some? || pat.path.value == OneOrMore
        || (BoundValue(pat.s, m).Some? && BoundValue(pat.s, m).value in Touching(triples, BoundValue(pat.p, b).value)))
  }

  /** Values that join the ends and keep the binding are found. */
  lemma PathComplete(pat: Pattern, triples: seq<Triple>, b: Binding, m: Binding) returns (sol: Binding)
    requires pat.path.Some? && Within(b, m) && PathHolds(pat, triples, m) && CanStart(pat, triples, b, m)
    ensures sol in PathSolutions(pat, b, triples) && Within(sol, m)
  {
    hide BoundValue, PathRow, Rows, Within, Listed, Touching, Plus, Edge;
    TermKept(pat.p, b, m);
    TermKept(pat.s, b, m);
    TermKept(pat.o, b, m);
    var p, from, to := BoundValue(pat.p, b).value, BoundValue(pat.s, m).value, BoundValue(pat.o, m).value;
    if pat.path.value == OneOrMore {
      PlusStarts(triples, p, from, to);
    }
    sol := PathRow(pat, b, from, to);
    assert from in Starts(pat, b, triples, p);
    RowsComplete(pat, b, triples, p, Starts(pat, b, triples, p), from, to);
    RowWithin(pat, b, m, from, to);
  }

  lemma RowWithin(pat: Pattern, b: Binding, m: Binding, from: string, to: string)
    requires Within(b, m) && BoundValue(pat.s, m) == Some(from) && BoundValue(pat.o, m) == Some(to)
    ensures Within(PathRow(pat, b, from, to), m)
  {}

  lemma {:induction false} ExtendSound(pat: Pattern, triples: seq<Triple>, sols: seq<Binding>, sol: Binding) returns (b: Binding)
    requires sol in ExtendAll(pat, triples, sols)
    requires pat.path.Some? ==> IsNamed(pat.s) && IsNamed(pat.o) && forall x :: x in sols ==> EndsDiffer(pat, x)
    ensures b in sols && Within(b, sol) && Holds(pat, triples, sol)
  {
    hide ScanMatches, PathSolutions, HasInstance, PathHolds, Within, EndsDiffer, IsNamed;
    var rest := sols[..|sols| - 1];
    if sol in ExtendAll(pat, triples, rest) {
      b := ExtendSound(pat, triples, rest, sol);
    } else {
      b := sols[|sols| - 1];
      if pat.path.Some? {
        PathSound(pat, triples, b, sol);
      } else {
        ScanSound(pat, triples, b, sol);
      }
    }
  }

  lemma {:induction false} ExtendComplete(pat: Pattern, triples: seq<Triple>, sols: seq<Binding>, b: Binding, m: Binding) returns (sol: Binding)
    requires b in sols && Within(b, m) && Holds(pat, triples, m) && (pat.path.Some? ==> CanStart(pat, triples, b, m))
    ensures sol in ExtendAll(pat, triples, sols) && Within(sol, m)
  {
    hide ScanMatches, PathSolutions, HasInstance, PathHolds, Within, CanStart;
    var rest, last := sols[..|sols| - 1], sols[|sols| - 1];
    if b in rest {
      sol := ExtendComplete(pat, triples, rest, b, m);
    } else {
      assert b == last;
      if pat.path.Some? {
        sol := PathComplete(pat, triples, b, m);
      } else {
        sol := ScanComplete(pat, triples, b, m);
      }
    }
  }

  ghost predicate AllHold(patterns: seq<Pattern>, triples: seq<Triple>, m: Binding) {
    forall i :: 0 <= i < |patterns| ==> Holds(patterns[i], triples, m)
  }

  predicate Mentions(pat: Pattern, name: string) { pat.s == Var(name) || pat.p == Var(name) || pat.o == Var(name) }

  /** The variable has a value before pattern k is evaluated: from every seed, or from an earlier pattern. */
  ghost predicate IsKnown(patterns: seq<Pattern>, k: nat, seed: seq<Binding>, name: string)
    requires k <= |patterns|
  {
    (forall b :: b in seed ==> name in b) || exists j :: 0 <= j < k && Mentions(patterns[j], name)
  }

  /** The variables at the ends of a path have names, and are not one variable without a value. */
  ghost predicate PathOk(patterns: seq<Pattern>, k: nat, seed: seq<Binding>)
    requires k < |patterns|
  {
    var pat := patterns[k];
    pat.path.Some? ==> IsNamed(pat.s) && IsNamed(pat.o) && (pat.s.Var? && pat.o == pat.s ==> IsKnown(patterns, k, seed, pat.s.name))
  }

  ghost predicate PathsOk(patterns: seq<Pattern>, seed: seq<Binding>) { forall k :: 0 <= k < |patterns| ==> PathOk(patterns, k, seed) }

  lemma PathsOkBefore(patterns: seq<Pattern>, seed: seq<Binding>)
    requires PathsOk(patterns, seed) && patterns != []
    ensures PathsOk(patterns[..|patterns| - 1], seed)
  {
    var rest := patterns[..|patterns| - 1];
    forall k: nat | k < |rest| ensures PathOk(rest, k, seed) {
      assert PathOk(patterns, k, seed);
      KnownBefore(patterns, k, seed);
    }
  }

  lemma KnownBefore(patterns: seq<Pattern>, k: nat, seed: seq<Binding>)
    requires k < |patterns|
    ensures forall name :: IsKnown(patterns, k, seed, name) <==> IsKnown(patterns[..|patterns| - 1], k, seed, name)
  {
    forall name ensures IsKnown(patterns, k, seed, name) <==> IsKnown(patterns[..|patterns| - 1], k, seed, name) {
      assert forall j :: 0 <= j < k ==> patterns[..|patterns| - 1][j] == patterns[j];
    }
  }

  /** A known variable has a value in every solution of the patterns before. */
  lemma KnownIsBound(patterns: seq<Pattern>, triples: seq<Triple>, seed: seq<Binding>, b: Binding, sol: Binding, name: string)
    requires b in seed && Within(b, sol) && AllHold(patterns, triples, sol) && IsKnown(patterns, |patterns|, seed, name)
    ensures name in sol
  {
    hide InClosure;
    if name !in b {
      var j :| 0 <= j < |patterns| && Mentions(patterns[j], name);
      assert Holds(patterns[j], triples, sol);
      if patterns[j].path.None? {
        var i :| 0 <= i < |triples| && IsInstance(patterns[j], triples[i], sol);
      }
    }
  }

  /** Every solution extends a seed and makes each pattern a triple of the store or, with a path, a connection in it. */
  lemma {:induction false} BGPSound(patterns: seq<Pattern>, triples: seq<Triple>, seed: seq<Binding>, sol: Binding) returns (b: Binding)
    requires PathsOk(patterns, seed) && sol in ScanBGP(patterns, triples, seed)
    ensures b in seed && Within(b, sol) && AllHold(patterns, triples, sol)
    decreases |patterns|
  {
    if patterns != [] {
      hide Holds, ExtendAll, Within, IsKnown, EndsDiffer, IsNamed, PathsOk, AllHold;
      var rest, pat := patterns[..|patterns| - 1], patterns[|patterns| - 1];
      PathsOkBefore(patterns, seed);
      forall x | x in ScanBGP(rest, triples, seed) && pat.path.Some? ensures EndsDiffer(pat, x) {
        var y := BGPSound(rest, triples, seed, x);
        LastEndsDiffer(patterns, triples, seed, y, x);
      }
      LastNamed(patterns, seed);
      var mid := ExtendSound(pat, triples, ScanBGP(rest, triples, seed), sol);
      b := BGPSound(rest, triples, seed, mid);
      WithinTrans(b, mid, sol);
      AllHoldOneMore(patterns, triples, mid, sol);
    } else {
      b := sol;
      NoneHold(triples, sol);
    }
  }

  lemma NoneHold(triples: seq<Triple>, m: Binding)
    ensures AllHold([], triples, m) && Within(m, m)
  {}

  lemma AllHoldOneMore(patterns: seq<Pattern>, triples: seq<Triple>, mid: Binding, sol: Binding)
    requires patterns != [] && AllHold(patterns[..|patterns| - 1], triples, mid) && Within(mid, sol)
    requires Holds(patterns[|patterns| - 1], triples, sol)
    ensures AllHold(patterns, triples, sol)
  {
    hide Holds, Within;
    var rest := patterns[..|patterns| - 1];
    forall i | 0 <= i < |patterns| ensures Holds(patterns[i], triples, sol) {
      if i < |rest| {
        assert Holds(rest[i], triples, mid);
        HoldsKept(rest[i], triples, mid, sol);
      }
    }
  }

  lemma LastNamed(patterns: seq<Pattern>, seed: seq<Binding>)
    requires PathsOk(patterns, seed) && patterns != []
    ensures var pat := patterns[|patterns| - 1]; pat.path.Some? ==> IsNamed(pat.s) && IsNamed(pat.o)
  {
    assert PathOk(patterns, |patterns| - 1, seed);
  }

  lemma LastEndsDiffer(patterns: seq<Pattern>, triples: seq<Triple>, seed: seq<Binding>, b: Binding, x: Binding)
    requires PathsOk(patterns, seed) && patterns != [] && patterns[|patterns| - 1].path.Some?
    requires b in seed && Within(b, x) && AllHold(patterns[..|patterns| - 1], triples, x)
    ensures EndsDiffer(patterns[|patterns| - 1], x)
  {
    hide AllHold, Within, IsKnown;
    var n := |patterns| - 1;
    var pat := patterns[n];
    assert PathOk(patterns, n, seed);
    KnownBefore(patterns, n, seed);
    if pat.s.Var? && pat.o == pat.s {
      KnownIsBound(patterns[..n], triples, seed, b, x, pat.s.name);
    }
  }

  lemma WithinTrans(a: Binding, b: Binding, c: Binding)
    requires Within(a, b) && Within(b, c)
    ensures Within(a, c)
  {}

  lemma HoldsKept(pat: Pattern, triples: seq<Triple>, b: Binding, m: Binding)
    requires Holds(pat, triples, b) && Within(b, m)
    ensures Holds(pat, triples, m)
  {
    hide BoundValue, Within, HasInstance, InClosure;
    if pat.path.None? {
      InstanceKept(pat, triples, b, m);
    } else {
      TermKept(pat.s, b, m);
      TermKept(pat.p, b, m);
      TermKept(pat.o, b, m);
    }
  }

  lemma InstanceKept(pat: Pattern, triples: seq<Triple>, b: Binding, m: Binding)
    requires HasInstance(pat, triples, b) && Within(b, m)
    ensures HasInstance(pat, triples, m)
  {
    hide BoundValue, Within;
    var i :| 0 <= i < |triples| && IsInstance(pat, triples[i], b);
    TermKept(pat.s, b, m);
    TermKept(pat.p, b, m);
    TermKept(pat.o, b, m);
    assert IsInstance(pat, triples[i], m);
  }

  ghost predicate IsGiven(patterns: seq<Pattern>, k: nat, seed: seq<Binding>, term: Term)
    requires k <= |patterns|
  {
    term.Var? ==> IsKnown(patterns, k, seed, term.name)
  }

  /** The predicate of a path is given, and so is its start, or a hop is needed, or the predicate touches the start that m
      gives. */
  ghost predicate StartOk(patterns: seq<Pattern>, k: nat, triples: seq<Triple>, seed: seq<Binding>, m: Binding)
    requires k < |patterns|
  {
    var pat := patterns[k];
    pat.path.Some? ==>
      && IsGiven(patterns, k, seed, pat.p)
      && (IsGiven(patterns, k, seed, pat.s) || pat.path.value == OneOrMore || StartTouched(pat, triples, m))
  }

  ghost predicate StartTouched(pat: Pattern, triples: seq<Triple>, m: Binding) {
    var p, from := BoundValue(pat.p, m), BoundValue(pat.s, m);
    p.Some? && from.Some? && from.value in Touching(triples, p.value)
  }

  ghost predicate StartsOk(patterns: seq<Pattern>, triples: seq<Triple>, seed: seq<Binding>, m: Binding) {
    forall k :: 0 <= k < |patterns| ==> StartOk(patterns, k, triples, seed, m)
  }

  lemma StartsOkBefore(patterns: seq<Pattern>, triples: seq<Triple>, seed: seq<Binding>, m: Binding)
    requires StartsOk(patterns, triples, seed, m) && patterns != []
    ensures StartsOk(patterns[..|patterns| - 1], triples, seed, m)
  {
    hide StartTouched, IsKnown;
    var rest := patterns[..|patterns| - 1];
    forall k: nat | k < |rest| ensures StartOk(rest, k, triples, seed, m) {
      assert StartOk(patterns, k, triples, seed, m);
      KnownBefore(patterns, k, seed);
    }
  }

  lemma LastCanStart(patterns: seq<Pattern>, triples: seq<Triple>, seed: seq<Binding>, b: Binding, mid: Binding, m: Binding)
    requires StartsOk(patterns, triples, seed, m) && patterns != [] && patterns[|patterns| - 1].path.Some?
    requires b in seed && Within(b, mid) && Within(mid, m) && AllHold(patterns[..|patterns| - 1], triples, mid)
    ensures CanStart(patterns[|patterns| - 1], triples, mid, m)
  {
    hide AllHold, Within, IsKnown, Touching;
    var n := |patterns| - 1;
    var pat := patterns[n];
    assert StartOk(patterns, n, triples, seed, m);
    KnownBefore(patterns, n, seed);
    forall name | IsKnown(patterns, n, seed, name) ensures name in mid {
      KnownIsBound(patterns[..n], triples, seed, b, mid, name);
    }
    TermKept(pat.p, mid, m);
  }

  /** Any assignment that extends a seed and makes each pattern hold is covered by a solution. */
  lemma {:induction false} BGPComplete(patterns: seq<Pattern>, triples: seq<Triple>, seed: seq<Binding>, b: Binding, m: Binding) returns (sol: Binding)
    requires PathsOk(patterns, seed) && StartsOk(patterns, triples, seed, m)
    requires b in seed && Within(b, m) && AllHold(patterns, triples, m)
    ensures sol in ScanBGP(patterns, triples, seed) && Within(sol, m)
    decreases |patterns|
  {
    if patterns == [] {
      sol := b;
    } else {
      hide Holds, ExtendAll, Within, PathsOk, StartsOk, CanStart;
      var rest := patterns[..|patterns| - 1];
      assert forall i :: 0 <= i < |rest| ==> rest[i] == patterns[i];
      PathsOkBefore(patterns, seed);
      StartsOkBefore(patterns, triples, seed, m);
      var mid := BGPComplete(rest, triples, seed, b, m);
      if patterns[|patterns| - 1].path.Some? {
        var x := BGPSound(rest, triples, seed, mid);
        LastCanStart(patterns, triples, seed, x, mid, m);
      }
      sol := ExtendComplete(patterns[|patterns| - 1], triples, ScanBGP(rest, triples, seed), mid, m);
    }
  }

  // ---- Paths -----------------------------------------------------------------------------------------

  ghost predicate AreRows(pat: Pattern, b: Binding, from: string, tos: seq<string>, rows: seq<Binding>) {
    |rows| == |tos| && forall i :: 0 <= i < |tos| ==> rows[i] == PathRow(pat, b, from, tos[i])
  }

  /** With the object unbound there is a row for every end; with it bound, one when it is among the ends. */
  lemma {:induction false} RowsFromIs(pat: Pattern, b: Binding, from: string, tos: seq<string>)
    ensures BoundValue(pat.o, b).None? ==> AreRows(pat, b, from, tos, RowsFrom(pat, b, from, tos))
  {
    if tos != [] {
      RowsFromIs(pat, b, from, tos[..|tos| - 1]);
    }
  }

  lemma {:induction false} RowsFromBound(pat: Pattern, b: Binding, from: string, tos: seq<string>, ov: string)
    requires BoundValue(pat.o, b) == Some(ov) && forall i, j :: 0 <= i < j < |tos| ==> tos[i] != tos[j]
    ensures RowsFrom(pat, b, from, tos) == if ov in tos then [PathRow(pat, b, from, ov)] else []
  {
    if tos != [] {
      var rest := tos[..|tos| - 1];
      RowsFromBound(pat, b, from, rest, ov);
      assert tos == rest + [tos[|tos| - 1]];
    }
  }

  lemma ListedDistinct(s: set<string>)
    ensures forall i, j :: 0 <= i < j < |Listed(s)| ==> Listed(s)[i] != Listed(s)[j]
  {
    forall i: nat, j: nat | i < j < |Listed(s)| ensures Listed(s)[i] != Listed(s)[j] {
      ListedAscends(s, i, j);
      Trichotomy(Listed(s)[i], Listed(s)[j]);
    }
  }

  /** A path from a bound subject: the ends are exactly the closure of the modifier, in ascending order, each once. */
  lemma PathFromBound(pat: Pattern, b: Binding, triples: seq<Triple>, sv: string, p: string)
    requires pat.path.Some? && BoundValue(pat.p, b) == Some(p) && BoundValue(pat.s, b) == Some(sv)
    ensures BoundValue(pat.o, b).None? ==>
      exists tos :: IsClosureList(triples, p, pat.path.value, sv, tos) && AreRows(pat, b, sv, tos, PathSolutions(pat, b, triples))
    ensures BoundValue(pat.o, b).Some? ==>
      PathSolutions(pat, b, triples)
        == if InClosure(triples, p, pat.path.value, sv, BoundValue(pat.o, b).value) then [PathRow(pat, b, sv, BoundValue(pat.o, b).value)] else []
  {
    hide InClosure, Reach, Listed, RowsFrom, PathRow;
    var mod := pat.path.value;
    var tos := Listed(Reach(triples, p, mod, sv));
    assert [sv][..0] == [] && Rows(pat, b, triples, p, mod, []) == [];
    assert PathSolutions(pat, b, triples) == [] + RowsFrom(pat, b, sv, tos);
    forall x ensures x in tos <==> InClosure(triples, p, mod, sv, x) {
      ReachIs(triples, p, mod, sv, x);
    }
    if BoundValue(pat.o, b).None? {
      RowsFromIs(pat, b, sv, tos);
      forall i: nat, j: nat | i < j < |tos| ensures Less(tos[i], tos[j]) {
        ListedAscends(Reach(triples, p, mod, sv), i, j);
      }
      assert IsClosureList(triples, p, mod, sv, tos);
      assert AreRows(pat, b, sv, tos, PathSolutions(pat, b, triples));
    } else {
      ListedDistinct(Reach(triples, p, mod, sv));
      RowsFromBound(pat, b, sv, tos, BoundValue(pat.o, b).value);
    }
  }

  ghost predicate IsClosureList(triples: seq<Triple>, p: string, mod: PathMod, from: string, tos: seq<string>) {
    (forall x :: x in tos <==> InClosure(triples, p, mod, from, x)) && forall i, j :: 0 <= i < j < |tos| ==> Less(tos[i], tos[j])
  }

  // ---- Paths without a bound end -------------------------------------------------------------------------

  /** Start and end pairs in the order of the rows. */
  ghost function PairsFrom(from: string, tos: seq<string>): (r: seq<(string, string)>)
    ensures |r| == |tos| && forall i :: 0 <= i < |tos| ==> r[i] == (from, tos[i])
  {
    seq(|tos|, i requires 0 <= i < |tos| => (from, tos[i]))
  }

  ghost function Pairs(triples: seq<Triple>, p: string, mod: PathMod, froms: seq<string>): seq<(string, string)> {
    if froms == [] then []
    else Pairs(triples, p, mod, froms[..|froms| - 1]) + PairsFrom(froms[|froms| - 1], Listed(Reach(triples, p, mod, froms[|froms| - 1])))
  }

  lemma {:induction false} PairsAre(triples: seq<Triple>, p: string, mod: PathMod, froms: seq<string>, a: string, c: string)
    ensures (a, c) in Pairs(triples, p, mod, froms) <==> a in froms && InClosure(triples, p, mod, a, c)
  {
    hide InClosure, Reach, Listed;
    if froms != [] {
      var rest, from := froms[..|froms| - 1], froms[|froms| - 1];
      PairsAre(triples, p, mod, rest, a, c);
      ReachIs(triples, p, mod, from, c);
      var tos := Listed(Reach(triples, p, mod, from));
      assert (a, c) in PairsFrom(from, tos) <==> a == from && c in tos by { PairsFromAre(from, tos, a, c); }
      assert froms == rest + [from];
    }
  }

  lemma PairsFromAre(from: string, tos: seq<string>, a: string, c: string)
    ensures (a, c) in PairsFrom(from, tos) <==> a == from && c in tos
  {
    var r := PairsFrom(from, tos);
    if a == from && c in tos {
      var i :| 0 <= i < |tos| && tos[i] == c;
      assert r[i] == (a, c);
    }
  }

  /** Row by row, the rows are those of the pairs. */
  ghost predicate RowsMatch(pat: Pattern, b: Binding, pairs: seq<(string, string)>, rows: seq<Binding>) {
    |rows| == |pairs| && forall i :: 0 <= i < |pairs| ==> rows[i] == PathRow(pat, b, pairs[i].0, pairs[i].1)
  }

  lemma RowsMatchConcat(pat: Pattern, b: Binding, pairs: seq<(string, string)>, rows: seq<Binding>, pairs': seq<(string, string)>, rows': seq<Binding>)
    requires RowsMatch(pat, b, pairs, rows) && RowsMatch(pat, b, pairs', rows')
    ensures RowsMatch(pat, b, pairs + pairs', rows + rows')
  {
    hide PathRow;
  }

  lemma RowsMatchFrom(pat: Pattern, b: Binding, from: string, tos: seq<string>, rows: seq<Binding>)
    requires AreRows(pat, b, from, tos, rows)
    ensures RowsMatch(pat, b, PairsFrom(from, tos), rows)
  {
    hide PathRow;
  }

  lemma {:induction false} RowsArePairs(pat: Pattern, b: Binding, triples: seq<Triple>, p: string, mod: PathMod, froms: seq<string>)
    requires BoundValue(pat.o, b).None?
    ensures RowsMatch(pat, b, Pairs(triples, p, mod, froms), Rows(pat, b, triples, p, mod, froms))
  {
    hide Reach, Listed, PathRow, RowsFrom, AreRows, PairsFrom;
    if froms != [] {
      hide RowsMatch;
      var rest, from := froms[..|froms| - 1], froms[|froms| - 1];
      var tos := Listed(Reach(triples, p, mod, from));
      RowsArePairs(pat, b, triples, p, mod, rest);
      RowsFromIs(pat, b, from, tos);
      RowsMatchFrom(pat, b, from, tos, RowsFrom(pat, b, from, tos));
      RowsMatchConcat(pat, b, Pairs(triples, p, mod, rest), Rows(pat, b, triples, p, mod, rest), PairsFrom(from, tos), RowsFrom(pat, b, from, tos));
    }
  }

  /** All pairs of the closure that start at a node the predicate touches. */
  ghost function FreePairs(triples: seq<Triple>, p: string, mod: PathMod): seq<(string, string)> {
    Pairs(triples, p, mod, Listed(Touching(triples, p)))
  }

  /** With both ends unbound the rows are those of the closure pairs from touched nodes. */
  lemma PathBetweenFree(pat: Pattern, b: Binding, triples: seq<Triple>, p: string)
    requires pat.path.Some? && BoundValue(pat.p, b) == Some(p) && BoundValue(pat.s, b).None? && BoundValue(pat.o, b).None?
    ensures var pairs := FreePairs(triples, p, pat.path.value);
      && RowsMatch(pat, b, pairs, PathSolutions(pat, b, triples))
      && forall a, c :: (a, c) in pairs <==> a in Touching(triples, p) && InClosure(triples, p, pat.path.value, a, c)
  {
    hide InClosure, Touching;
    var froms := Listed(Touching(triples, p));
    RowsArePairs(pat, b, triples, p, pat.path.value, froms);
    forall a, c ensures (a, c) in FreePairs(triples, p, pat.path.value) <==> a in Touching(triples, p) && InClosure(triples, p, pat.path.value, a, c) {
      PairsAre(triples, p, pat.path.value, froms, a, c);
    }
  }

  // ---- Paths to a bound object ---------------------------------------------------------------------------

  /** The starts that lead to an end, in order. */
  ghost function Sources(triples: seq<Triple>, p: string, mod: PathMod, froms: seq<string>, to: string): seq<string> {
    if froms == [] then []
    else
      var before, from := Sources(triples, p, mod, froms[..|froms| - 1], to), froms[|froms| - 1];
      if InClosure(triples, p, mod, from, to) then before + [from] else before
  }

  lemma {:induction false} SourcesAre(triples: seq<Triple>, p: string, mod: PathMod, froms: seq<string>, to: string)
    requires forall i, j :: 0 <= i < j < |froms| ==> Less(froms[i], froms[j])
    ensures var r := Sources(triples, p, mod, froms, to);
      && (forall x :: x in r <==> x in froms && InClosure(triples, p, mod, x, to))
      && (forall i, j :: 0 <= i < j < |r| ==> Less(r[i], r[j]))
  {
    hide InClosure, Less;
    if froms != [] {
      var rest, from := froms[..|froms| - 1], froms[|froms| - 1];
      SourcesAre(triples, p, mod, rest, to);
      assert froms == rest + [from];
      var before := Sources(triples, p, mod, rest, to);
      forall i | 0 <= i < |before| ensures Less(before[i], from) {
        assert before[i] in before;
        var k :| 0 <= k < |rest| && rest[k] == before[i];
        assert froms[k] == rest[k];
      }
    }
  }

  ghost predicate AreRowsInto(pat: Pattern, b: Binding, froms: seq<string>, to: string, rows: seq<Binding>) {
    |rows| == |froms| && forall i :: 0 <= i < |froms| ==> rows[i] == PathRow(pat, b, froms[i], to)
  }

  lemma {:induction false} RowsAreSources(pat: Pattern, b: Binding, triples: seq<Triple>, p: string, mod: PathMod, froms: seq<string>, to: string)
    requires BoundValue(pat.o, b) == Some(to)
    ensures AreRowsInto(pat, b, Sources(triples, p, mod, froms, to), to, Rows(pat, b, triples, p, mod, froms))
  {
    hide InClosure, Reach, Listed, PathRow, RowsFrom;
    if froms != [] {
      var rest, from := froms[..|froms| - 1], froms[|froms| - 1];
      RowsAreSources(pat, b, triples, p, mod, rest, to);
      ReachIs(triples, p, mod, from, to);
      ListedDistinct(Reach(triples, p, mod, from));
      RowsFromBound(pat, b, from, Listed(Reach(triples, p, mod, from)), to);
    }
  }

  ghost predicate IsSourceList(triples: seq<Triple>, p: string, mod: PathMod, froms: seq<string>, to: string) {
    && (forall x :: x in froms <==> x in Touching(triples, p) && InClosure(triples, p, mod, x, to))
    && forall i, j :: 0 <= i < j < |froms| ==> Less(froms[i], froms[j])
  }

  /** A path from a free subject to a bound object: the starts are the touched nodes that lead to it, in ascending
      order, each once. */
  lemma PathToBound(pat: Pattern, b: Binding, triples: seq<Triple>, p: string, to: string) returns (froms: seq<string>)
    requires pat.path.Some? && BoundValue(pat.p, b) == Some(p) && BoundValue(pat.s, b).None? && BoundValue(pat.o, b) == Some(to)
    ensures IsSourceList(triples, p, pat.path.value, froms, to)
    ensures AreRowsInto(pat, b, froms, to, PathSolutions(pat, b, triples))
  {
    hide InClosure, Listed, Touching, Less;
    var all := Listed(Touching(triples, p));
    forall i: nat, j: nat | i < j < |all| ensures Less(all[i], all[j]) {
      ListedAscends(Touching(triples, p), i, j);
    }
    froms := Sources(triples, p, pat.path.value, all, to);
    SourcesAre(triples, p, pat.path.value, all, to);
    RowsAreSources(pat, b, triples, p, pat.path.value, all, to);
  }

  /** Only the start at the object itself can be missing: it is, when no hop is needed and the predicate does not touch
      the object. */
  lemma PathToBoundMisses(triples: seq<Triple>, p: string, mod: PathMod, froms: seq<string>, to: string, x: string)
    requires IsSourceList(triples, p, mod, froms, to)
    ensures InClosure(triples, p, mod, x, to) && x !in froms <==> mod != OneOrMore && x == to && to !in Touching(triples, p)
  {
    hide Plus, Edge, Touching;
    if Plus(triples, p, x, to) {
      PlusStarts(triples, p, x, to);
    }
    if Edge(triples, p, x, to) {
      EdgeTouches(triples, p, x, to);
    }
  }

  /** Every subject and object of the store. */
  ghost predicate IsNode(triples: seq<Triple>, x: string) {
    exists i :: 0 <= i < |triples| && (triples[i].s.text == x || triples[i].o.text == x)
  }

  /** All closure pairs between nodes of the store, as the standard asks for when both ends are free. */
  ghost predicate IsComplete(triples: seq<Triple>, p: string, mod: PathMod) {
    forall a, c :: IsNode(triples, a) && InClosure(triples, p, mod, a, c) ==> (a, c) in FreePairs(triples, p, mod)
  }

  ghost predicate TouchesAll(triples: seq<Triple>, p: string) {
    forall x :: IsNode(triples, x) ==> x in Touching(triples, p)
  }

  /** One or more hops are complete; the forms that allow none are complete exactly when the predicate touches every node. */
  lemma FreePathsExactly(triples: seq<Triple>, p: string, mod: PathMod)
    ensures mod == OneOrMore ==> IsComplete(triples, p, mod)
    ensures mod != OneOrMore ==> (IsComplete(triples, p, mod) <==> TouchesAll(triples, p))
  {
    hide Pairs, Touching, Plus, Edge, IsNode;
    var froms := Listed(Touching(triples, p));
    forall a, c ensures (a, c) in FreePairs(triples, p, mod) <==> a in Touching(triples, p) && InClosure(triples, p, mod, a, c) {
      PairsAre(triples, p, mod, froms, a, c);
    }
    if mod == OneOrMore {
      forall a, c | Plus(triples, p, a, c) ensures a in Touching(triples, p) {
        PlusStarts(triples, p, a, c);
      }
    } else if IsComplete(triples, p, mod) {
      forall x | IsNode(triples, x) ensures x in Touching(triples, p) {
        assert InClosure(triples, p, mod, x, x);
        assert (x, x) in FreePairs(triples, p, mod);
      }
    }
  }

  /** One triple with another predicate: its two nodes have a zero-length path, and none is found. */
  lemma UntouchedNodesAreMissed()
    ensures var triples := [Triple(Text("a"), Text("q"), Text("b"))];
      && InClosure(triples, "p", ZeroOrMore, "a", "a") && IsNode(triples, "a") && FreePairs(triples, "p", ZeroOrMore) == []
      && !IsComplete(triples, "p", ZeroOrMore)
  {
    hide Touching, Listed, Plus;
    var triples := [Triple(Text("a"), Text("q"), Text("b"))];
    assert IsNode(triples, "a") by { assert triples[0].s.text == "a"; }
    assert triples[0].p.text != "p";
    NothingTouched(triples, "p");
    assert InClosure(triples, "p", ZeroOrMore, "a", "a");
    assert ("a", "a") !in FreePairs(triples, "p", ZeroOrMore);
  }

  lemma NothingTouched(triples: seq<Triple>, p: string)
    requires |triples| == 1 && triples[0].p.text != p
    ensures Touching(triples, p) == {} && Listed(Touching(triples, p)) == []
  {
    assert Touching(triples[..0], p) == {};
  }

  lemma PlusStarts(triples: seq<Triple>, p: string, a: string, c: string)
    requires Plus(triples, p, a, c)
    ensures a in Touching(triples, p)
  {
    var w :| IsWalk(triples, p, w) && |w| > 1 && w[0] == a && w[|w| - 1] == c;
    assert Edge(triples, p, w[0], w[0 + 1]);
    EdgeTouches(triples, p, a, w[1]);
  }

  // ---- One variable at both ends -------------------------------------------------------------------------

  ghost predicate OnlyLoops(triples: seq<Triple>, p: string) { forall a, c :: Edge(triples, p, a, c) ==> a == c }

  /** The node x of the store has a path to itself, and row says so. */
  ghost predicate IsLoopRow(pat: Pattern, b: Binding, triples: seq<Triple>, p: string, row: Binding, x: string)
    requires pat.path.Some?
  {
    IsNode(triples, x) && InClosure(triples, p, pat.path.value, x, x) && row == PathRow(pat, b, x, x)
  }

  ghost predicate IsSomeLoopRow(pat: Pattern, b: Binding, triples: seq<Triple>, p: string, row: Binding)
    requires pat.path.Some?
  {
    exists x :: IsLoopRow(pat, b, triples, p, row, x)
  }

  /** The rows are those of the nodes with a path to themselves, each once: what section 18.4 asks for when one variable
      stands at both ends. */
  ghost predicate AreLoopRows(pat: Pattern, b: Binding, triples: seq<Triple>, p: string, rows: seq<Binding>)
    requires pat.path.Some?
  {
    && (forall i, j :: 0 <= i < j < |rows| ==> rows[i] != rows[j])
    && (forall i :: 0 <= i < |rows| ==> IsSomeLoopRow(pat, b, triples, p, rows[i]))
    && (forall x :: IsNode(triples, x) && InClosure(triples, p, pat.path.value, x, x) ==> PathRow(pat, b, x, x) in rows)
  }

  ghost predicate Distinct<T>(s: seq<T>) { forall i, j :: 0 <= i < j < |s| ==> s[i] != s[j] }

  lemma DistinctAt<T>(s: seq<T>, i: nat, j: nat)
    requires Distinct(s) && i < j < |s|
    ensures s[i] != s[j]
  {}

  lemma DistinctConcat<T>(a: seq<T>, b: seq<T>)
    requires Distinct(a) && Distinct(b) && forall x :: x in a ==> x !in b
    ensures Distinct(a + b)
  {
    var c := a + b;
    forall i, j | 0 <= i < j < |c| ensures c[i] != c[j] {
      if i < |a| <= j {
        assert c[i] in a && c[j] in b;
      }
    }
  }

  lemma {:induction false} PairsDistinct(triples: seq<Triple>, p: string, mod: PathMod, froms: seq<string>)
    requires Distinct(froms)
    ensures Distinct(Pairs(triples, p, mod, froms))
  {
    hide Reach, Listed, InClosure;
    if froms != [] {
      var rest, from := froms[..|froms| - 1], froms[|froms| - 1];
      PairsDistinct(triples, p, mod, rest);
      var before, tos := Pairs(triples, p, mod, rest), Listed(Reach(triples, p, mod, from));
      ListedDistinct(Reach(triples, p, mod, from));
      forall pair | pair in before ensures pair !in PairsFrom(from, tos) {
        PairsAre(triples, p, mod, rest, pair.0, pair.1);
        PairsFromAre(from, tos, pair.0, pair.1);
      }
      DistinctConcat(before, PairsFrom(from, tos));
    }
  }

  lemma SameVariableRow(pat: Pattern, b: Binding, a: string, c: string)
    requires pat.s.Var? && pat.s.name != "" && pat.o == pat.s
    ensures PathRow(pat, b, a, c) == b[pat.s.name := Text(c)]
  {}

  lemma RowsDiffer(pat: Pattern, b: Binding, a: string, c: string)
    requires pat.s.Var? && pat.s.name != "" && pat.o == pat.s
    ensures PathRow(pat, b, a, a) == PathRow(pat, b, c, c) ==> a == c
  {
    var x, y := PathRow(pat, b, a, a), PathRow(pat, b, c, c);
    assert x[pat.s.name] == Text(a) && y[pat.s.name] == Text(c);
  }

  /** A path from a variable to itself is not restricted to equal ends: the rows are right exactly when every edge of
      the predicate is a loop and, if no hop is needed, the predicate touches every node. */
  lemma SameVariableExactly(pat: Pattern, b: Binding, triples: seq<Triple>, p: string)
    requires pat.path.Some? && pat.s.Var? && pat.s.name != "" && pat.o == pat.s
    requires BoundValue(pat.p, b) == Some(p) && BoundValue(pat.s, b).None?
    ensures AreLoopRows(pat, b, triples, p, PathSolutions(pat, b, triples))
      <==> OnlyLoops(triples, p) && (pat.path.value != OneOrMore ==> TouchesAll(triples, p))
  {
    hide AreLoopRows, PathSolutions, PathRow, Touching, InClosure, Edge, IsNode;
    var mod := pat.path.value;
    if !OnlyLoops(triples, p) {
      var a, c :| Edge(triples, p, a, c) && a != c;
      OpenEdgeSpoils(pat, b, triples, p, a, c);
    } else if mod != OneOrMore && !TouchesAll(triples, p) {
      var x :| IsNode(triples, x) && x !in Touching(triples, p);
      UntouchedSpoils(pat, b, triples, p, x);
    } else {
      LoopsAreRight(pat, b, triples, p);
    }
  }

  /** An edge that is no loop makes a row for its end that is not wanted, or makes it twice. */
  lemma OpenEdgeSpoils(pat: Pattern, b: Binding, triples: seq<Triple>, p: string, a: string, c: string)
    requires pat.path.Some? && pat.s.Var? && pat.s.name != "" && pat.o == pat.s
    requires BoundValue(pat.p, b) == Some(p) && BoundValue(pat.s, b).None?
    requires Edge(triples, p, a, c) && a != c
    ensures !AreLoopRows(pat, b, triples, p, PathSolutions(pat, b, triples))
  {
    hide PathSolutions, PathRow, Touching, Edge, IsNode, FreePairs, Plus;
    var pairs, rows := FreePairs(triples, p, pat.path.value), PathSolutions(pat, b, triples);
    PathBetweenFree(pat, b, triples, p);
    EdgeTouches(triples, p, a, c);
    PlusEdge(triples, p, a, c);
    assert (a, c) in pairs;
    var i :| 0 <= i < |pairs| && pairs[i] == (a, c);
    SameVariableRow(pat, b, a, c);
    SameVariableRow(pat, b, c, c);
    if InClosure(triples, p, pat.path.value, c, c) {
      assert (c, c) in pairs;
      var j :| 0 <= j < |pairs| && pairs[j] == (c, c);
      assert rows[i] == rows[j];
    } else if AreLoopRows(pat, b, triples, p, rows) {
      var x :| IsLoopRow(pat, b, triples, p, rows[i], x);
      RowsDiffer(pat, b, x, c);
    }
  }

  /** A node that the predicate does not touch has no row. */
  lemma UntouchedSpoils(pat: Pattern, b: Binding, triples: seq<Triple>, p: string, x: string)
    requires pat.path.Some? && pat.path.value != OneOrMore && pat.s.Var? && pat.s.name != "" && pat.o == pat.s
    requires BoundValue(pat.p, b) == Some(p) && BoundValue(pat.s, b).None? && OnlyLoops(triples, p)
    requires IsNode(triples, x) && x !in Touching(triples, p)
    ensures !AreLoopRows(pat, b, triples, p, PathSolutions(pat, b, triples))
  {
    hide PathSolutions, PathRow, Touching, Edge, IsNode, FreePairs, Plus;
    var pairs, rows := FreePairs(triples, p, pat.path.value), PathSolutions(pat, b, triples);
    PathBetweenFree(pat, b, triples, p);
    assert InClosure(triples, p, pat.path.value, x, x);
    if PathRow(pat, b, x, x) in rows {
      var i :| 0 <= i < |rows| && rows[i] == PathRow(pat, b, x, x);
      assert (pairs[i].0, pairs[i].1) in pairs;
      SameClosure(triples, p, pat.path.value, pairs[i].0, pairs[i].1);
      RowsDiffer(pat, b, pairs[i].0, x);
    }
  }

  lemma LoopsAreRight(pat: Pattern, b: Binding, triples: seq<Triple>, p: string)
    requires pat.path.Some? && pat.s.Var? && pat.s.name != "" && pat.o == pat.s
    requires BoundValue(pat.p, b) == Some(p) && BoundValue(pat.s, b).None?
    requires OnlyLoops(triples, p) && (pat.path.value != OneOrMore ==> TouchesAll(triples, p))
    ensures AreLoopRows(pat, b, triples, p, PathSolutions(pat, b, triples))
  {
    hide *;
    var mod := pat.path.value;
    var pairs, rows := FreePairs(triples, p, mod), PathSolutions(pat, b, triples);
    PathBetweenFree(pat, b, triples, p);
    FreePairsDistinct(triples, p, mod);
    RowsAt(pat, b, pairs, rows);
    forall i: nat | i < |pairs| ensures pairs[i].0 == pairs[i].1 && IsLoopRow(pat, b, triples, p, rows[i], pairs[i].0) {
      LoopRow(pat, b, triples, p, pairs[i].0, pairs[i].1);
    }
    forall i: nat, j: nat | i < j < |rows| ensures rows[i] != rows[j] {
      DistinctAt(pairs, i, j);
      RowsDiffer(pat, b, pairs[i].0, pairs[j].0);
    }
    forall x | IsNode(triples, x) && InClosure(triples, p, mod, x, x) ensures PathRow(pat, b, x, x) in rows {
      LoopIsTouched(triples, p, mod, x);
      assert (x, x) in pairs;
      var i :| 0 <= i < |pairs| && pairs[i] == (x, x);
      assert rows[i] == PathRow(pat, b, x, x);
    }
    AreLoopRowsFrom(pat, b, triples, p, rows, pairs);
  }

  lemma RowsAt(pat: Pattern, b: Binding, pairs: seq<(string, string)>, rows: seq<Binding>)
    requires RowsMatch(pat, b, pairs, rows)
    ensures |rows| == |pairs| && forall i :: 0 <= i < |pairs| ==> rows[i] == PathRow(pat, b, pairs[i].0, pairs[i].1)
  {}

  lemma FreePairsDistinct(triples: seq<Triple>, p: string, mod: PathMod)
    ensures Distinct(FreePairs(triples, p, mod))
  {
    hide Touching, Listed, Pairs;
    ListedDistinct(Touching(triples, p));
    PairsDistinct(triples, p, mod, Listed(Touching(triples, p)));
    assert FreePairs(triples, p, mod) == Pairs(triples, p, mod, Listed(Touching(triples, p)));
  }

  lemma LoopRow(pat: Pattern, b: Binding, triples: seq<Triple>, p: string, a: string, c: string)
    requires pat.path.Some? && OnlyLoops(triples, p)
    requires (a, c) in FreePairs(triples, p, pat.path.value)
    ensures a == c && IsLoopRow(pat, b, triples, p, PathRow(pat, b, a, c), a)
  {
    hide Touching, InClosure, PathRow, IsNode, Listed;
    PairsAre(triples, p, pat.path.value, Listed(Touching(triples, p)), a, c);
    SameClosure(triples, p, pat.path.value, a, c);
    TouchedIsNode(triples, p, a);
  }

  lemma AreLoopRowsFrom(pat: Pattern, b: Binding, triples: seq<Triple>, p: string, rows: seq<Binding>, pairs: seq<(string, string)>)
    requires pat.path.Some? && |pairs| == |rows|
    requires forall i: nat, j: nat :: i < j < |rows| ==> rows[i] != rows[j]
    requires forall i :: 0 <= i < |rows| ==> IsLoopRow(pat, b, triples, p, rows[i], pairs[i].0)
    requires forall x :: IsNode(triples, x) && InClosure(triples, p, pat.path.value, x, x) ==> PathRow(pat, b, x, x) in rows
    ensures AreLoopRows(pat, b, triples, p, rows)
  {
    hide IsLoopRow, IsNode, InClosure, PathRow;
    forall i | 0 <= i < |rows| ensures IsSomeLoopRow(pat, b, triples, p, rows[i]) {
      assert IsLoopRow(pat, b, triples, p, rows[i], pairs[i].0);
    }
  }

  lemma SameClosure(triples: seq<Triple>, p: string, mod: PathMod, a: string, c: string)
    requires OnlyLoops(triples, p) && InClosure(triples, p, mod, a, c)
    ensures a == c
  {
    hide Edge, Plus;
    if mod != ZeroOrOne && Plus(triples, p, a, c) {
      LoopsOnly(triples, p, a, c);
    }
  }

  lemma LoopIsTouched(triples: seq<Triple>, p: string, mod: PathMod, x: string)
    requires IsNode(triples, x) && InClosure(triples, p, mod, x, x) && (mod != OneOrMore ==> TouchesAll(triples, p))
    ensures x in Touching(triples, p)
  {
    hide IsNode, Plus, Touching;
    if mod == OneOrMore {
      PlusStarts(triples, p, x, x);
    }
  }

  lemma TouchedIsNode(triples: seq<Triple>, p: string, x: string)
    requires x in Touching(triples, p)
    ensures IsNode(triples, x)
  {
    TouchingIs(triples, p, x);
  }

  /** One edge from a to b: no node has a path of one or more hops to itself, and a row for b is found. */
  lemma OneEdgeMakesARow(b: Binding)
    requires "x" !in b
    ensures var triples, pat := [Triple(Text("a"), Text("p"), Text("b"))], Pattern(Var("x"), Iri("p"), Var("x"), Some(OneOrMore));
      && (forall x :: !InClosure(triples, "p", OneOrMore, x, x))
      && b["x" := Text("b")] in PathSolutions(pat, b, triples)
      && !AreLoopRows(pat, b, triples, "p", PathSolutions(pat, b, triples))
  {
    hide PathSolutions, FreePairs, AreLoopRows, Touching, Plus;
    var triples, pat := [Triple(Text("a"), Text("p"), Text("b"))], Pattern(Var("x"), Iri("p"), Var("x"), Some(OneOrMore));
    assert IsEdge(triples[0], "p", "a", "b");
    assert Edge(triples, "p", "a", "b");
    assert "a"[0] != "b"[0];
    forall x ensures !InClosure(triples, "p", OneOrMore, x, x) {
      if Plus(triples, "p", x, x) {
        OneEdgeEnds(triples, x, x);
      }
    }
    OpenEdgeSpoils(pat, b, triples, "p", "a", "b");
    PathBetweenFree(pat, b, triples, "p");
    var pairs := FreePairs(triples, "p", OneOrMore);
    EdgeTouches(triples, "p", "a", "b");
    PlusEdge(triples, "p", "a", "b");
    assert ("a", "b") in pairs;
    var i :| 0 <= i < |pairs| && pairs[i] == ("a", "b");
    SameVariableRow(pat, b, "a", "b");
    assert PathSolutions(pat, b, triples)[i] == b["x" := Text("b")];
  }

  lemma OneEdgeEnds(triples: seq<Triple>, x: string, y: string)
    requires triples == [Triple(Text("a"), Text("p"), Text("b"))] && Plus(triples, "p", x, y)
    ensures x == "a" && y == "b"
  {
    var w :| IsWalk(triples, "p", w) && |w| > 1 && w[0] == x && w[|w| - 1] == y;
    assert Edge(triples, "p", w[0], w[0 + 1]) && Edge(triples, "p", w[|w| - 2], w[|w| - 2 + 1]);
  }

  /** One triple with another predicate: both nodes have a zero-length path to themselves, and no row is found although
      the predicate has no edge but loops. */
  lemma UntouchedLoopsAreMissed(b: Binding)
    requires "x" !in b
    ensures var triples, pat := [Triple(Text("a"), Text("q"), Text("b"))], Pattern(Var("x"), Iri("p"), Var("x"), Some(ZeroOrMore));
      && OnlyLoops(triples, "p") && PathSolutions(pat, b, triples) == []
      && IsLoopRow(pat, b, triples, "p", b["x" := Text("a")], "a") && IsLoopRow(pat, b, triples, "p", b["x" := Text("b")], "b")
      && !AreLoopRows(pat, b, triples, "p", PathSolutions(pat, b, triples))
  {
    hide AreLoopRows, Touching, Listed, Plus;
    var triples, pat := [Triple(Text("a"), Text("q"), Text("b"))], Pattern(Var("x"), Iri("p"), Var("x"), Some(ZeroOrMore));
    NothingTouched(triples, "p");
    assert triples[0].s.text == "a" && triples[0].o.text == "b";
    assert IsNode(triples, "a") && IsNode(triples, "b");
    SameVariableRow(pat, b, "a", "a");
    SameVariableRow(pat, b, "b", "b");
    UntouchedSpoils(pat, b, triples, "p", "a");
  }

  lemma LoopsOnly(triples: seq<Triple>, p: string, a: string, c: string)
    requires OnlyLoops(triples, p) && Plus(triples, p, a, c)
    ensures a == c
  {
    var w :| IsWalk(triples, p, w) && |w| > 1 && w[0] == a && w[|w| - 1] == c;
    WalkInside(triples, p, {a}, w);
  }
}
