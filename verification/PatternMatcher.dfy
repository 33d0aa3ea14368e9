/** Pattern matching over the metagraph (ts/src/patternMatcher.ts). A handle stands for the content it is the hash of. */
module PatternMatcher {
  import opened Basics

  datatype Handle = NodeHandle(kind: string, name: string) | LinkHandle(kind: string, outgoing: seq<Handle>)

  /** Nodes have no outgoing list. */
  datatype Atom = Atom(handle: Handle, kind: string, outgoing: Option<seq<Handle>>)

  /** The stored atoms in storage order, and the type lattice. */
  datatype Space = Space(atoms: seq<Atom>, isA: (string, string) -> bool) {
    function Find(h: Handle, i: nat): Option<Atom>
      requires i <= |atoms|
      decreases |atoms| - i
    {
      if i == |atoms| then None else if atoms[i].handle == h then Some(atoms[i]) else Find(h, i + 1)
    }

    function GetAtom(h: Handle): Option<Atom> { Find(h, 0) }
  }

  /** A variable may be restricted to a type; the empty type is no restriction. */
  datatype Term = Var(name: string, kind: string) | NodeTerm(kind: string, name: string) | LinkTerm(kind: string, outgoing: seq<Term>)

  type Grounding = map<string, Handle>

  // ---- Unification ---------------------------------------------------------------------------------

  predicate TypeOk(space: Space, h: Handle, kind: string) {
    kind == "" || (var atom := space.GetAtom(h); atom.Some? && space.isA(atom.value.kind, kind))
  }

  function OutgoingOf(atom: Atom): seq<Handle> { if atom.outgoing.Some? then atom.outgoing.value else [] }

  function UnifyTerm(space: Space, term: Term, h: Handle, b: Grounding): Option<Grounding>
    decreases term, 1
  {
    match term
    case Var(name, kind) =>
      if name in b then (if b[name] == h then Some(b) else None)
      else if TypeOk(space, h, kind) then Some(b[name := h]) else None
    case NodeTerm(kind, name) => if NodeHandle(kind, name) == h then Some(b) else None
    case LinkTerm(kind, outgoing) =>
      var atom := space.GetAtom(h);
      if atom.None? || atom.value.outgoing.None? then None
      else if !space.isA(atom.value.kind, kind) || |atom.value.outgoing.value| != |outgoing| then None
      else UnifyAll(space, outgoing, atom.value.outgoing.value, b)
  }

  function UnifyAll(space: Space, terms: seq<Term>, hs: seq<Handle>, b: Grounding): Option<Grounding>
    requires |terms| == |hs|
    decreases terms, 0
  {
    if terms == [] then Some(b)
    else
      var first := UnifyTerm(space, terms[0], hs[0], b);
      if first.None? then None else UnifyAll(space, terms[1..], hs[1..], first.value)
  }

  /** A clause is a link template; the atom may be any whose type is the clause's or below it. */
  datatype Clause = Clause(kind: string, outgoing: seq<Term>)

  function UnifyLink(space: Space, clause: Clause, atom: Atom, b: Grounding): Option<Grounding> {
    if !space.isA(atom.kind, clause.kind) || |OutgoingOf(atom)| != |clause.outgoing| then None
    else UnifyAll(space, clause.outgoing, OutgoingOf(atom), b)
  }

  // ---- What a grounding is -------------------------------------------------------------------------

  /** Under g the term is the handle, variables' types aside. */
  ghost predicate Fits(space: Space, term: Term, h: Handle, g: Grounding)
    decreases term, 1
  {
    match term
    case Var(name, _) => name in g && g[name] == h
    case NodeTerm(kind, name) => NodeHandle(kind, name) == h
    case LinkTerm(kind, outgoing) =>
      var atom := space.GetAtom(h);
      && atom.Some? && atom.value.outgoing.Some? && space.isA(atom.value.kind, kind)
      && |atom.value.outgoing.value| == |outgoing| && AllFit(space, outgoing, atom.value.outgoing.value, g)
  }

  ghost predicate AllFit(space: Space, terms: seq<Term>, hs: seq<Handle>, g: Grounding)
    decreases terms, 0
  {
    |terms| == |hs| && (terms == [] || (Fits(space, terms[0], hs[0], g) && AllFit(space, terms[1..], hs[1..], g)))
  }

  ghost predicate ClauseFits(space: Space, clause: Clause, atom: Atom, g: Grounding) {
    space.isA(atom.kind, clause.kind) && AllFit(space, clause.outgoing, OutgoingOf(atom), g)
  }

  /** Some stored atom is the clause. */
  ghost predicate Present(space: Space, clause: Clause, g: Grounding) {
    exists i :: 0 <= i < |space.atoms| && ClauseFits(space, clause, space.atoms[i], g)
  }

  /** The type a variable has where it first occurs, clause by clause and from left to right. */
  type Types = map<string, string>

  function TypesOf(term: Term, e: Types): Types
    decreases term, 1
  {
    match term
    case Var(name, kind) => if name in e then e else e[name := kind]
    case NodeTerm(_, _) => e
    case LinkTerm(_, outgoing) => TypesOfAll(outgoing, e)
  }

  function TypesOfAll(terms: seq<Term>, e: Types): Types
    decreases terms, 0
  {
    if terms == [] then e else TypesOfAll(terms[1..], TypesOf(terms[0], e))
  }

  function FirstTypes(clauses: seq<Clause>): Types {
    if clauses == [] then map[]
    else TypesOfAll(clauses[|clauses| - 1].outgoing, FirstTypes(clauses[..|clauses| - 1]))
  }

  ghost predicate WellTyped(space: Space, g: Grounding, e: Types) {
    forall x :: x in e ==> x in g && TypeOk(space, g[x], e[x])
  }

  /** An assignment of exactly the pattern's variables under which every clause is present, each variable of the type
      of its first occurrence. */
  ghost predicate IsGrounding(space: Space, clauses: seq<Clause>, g: Grounding) {
    && g.Keys == FirstTypes(clauses).Keys && WellTyped(space, g, FirstTypes(clauses))
    && forall i :: 0 <= i < |clauses| ==> Present(space, clauses[i], g)
  }

  // ---- Unification is sound and complete -------------------------------------------------------------

  ghost predicate Extends(b: Grounding, c: Grounding) { forall x :: x in b ==> x in c && c[x] == b[x] }

  lemma {:induction false} FitsMore(space: Space, term: Term, h: Handle, b: Grounding, c: Grounding)
    requires Fits(space, term, h, b) && Extends(b, c)
    ensures Fits(space, term, h, c)
    decreases term, 1
  {
    if term.LinkTerm? {
      AllFitMore(space, term.outgoing, space.GetAtom(h).value.outgoing.value, b, c);
    }
  }

  lemma {:induction false} AllFitMore(space: Space, terms: seq<Term>, hs: seq<Handle>, b: Grounding, c: Grounding)
    requires AllFit(space, terms, hs, b) && Extends(b, c)
    ensures AllFit(space, terms, hs, c)
    decreases terms, 0
  {
    if terms != [] {
      FitsMore(space, terms[0], hs[0], b, c);
      AllFitMore(space, terms[1..], hs[1..], b, c);
    }
  }

  lemma {:induction false} TypesGrow(term: Term, e: Types)
    ensures forall x :: x in e ==> x in TypesOf(term, e) && TypesOf(term, e)[x] == e[x]
    decreases term, 1
  {
    if term.LinkTerm? {
      AllTypesGrow(term.outgoing, e);
    }
  }

  lemma {:induction false} AllTypesGrow(terms: seq<Term>, e: Types)
    ensures forall x :: x in e ==> x in TypesOfAll(terms, e) && TypesOfAll(terms, e)[x] == e[x]
    decreases terms, 0
  {
    if terms != [] {
      TypesGrow(terms[0], e);
      AllTypesGrow(terms[1..], TypesOf(terms[0], e));
    }
  }

  lemma {:induction false} UnifySound(space: Space, term: Term, h: Handle, b: Grounding, e: Types)
    requires UnifyTerm(space, term, h, b).Some? && b.Keys == e.Keys && WellTyped(space, b, e)
    ensures var c := UnifyTerm(space, term, h, b).value;
      Extends(b, c) && Fits(space, term, h, c) && c.Keys == TypesOf(term, e).Keys && WellTyped(space, c, TypesOf(term, e))
    decreases term, 1
  {
    hide TypeOk;
    if term.LinkTerm? {
      UnifyAllSound(space, term.outgoing, space.GetAtom(h).value.outgoing.value, b, e);
    }
  }

  lemma {:induction false} UnifyAllSound(space: Space, terms: seq<Term>, hs: seq<Handle>, b: Grounding, e: Types)
    requires |terms| == |hs| && UnifyAll(space, terms, hs, b).Some? && b.Keys == e.Keys && WellTyped(space, b, e)
    ensures var c := UnifyAll(space, terms, hs, b).value;
      Extends(b, c) && AllFit(space, terms, hs, c) && c.Keys == TypesOfAll(terms, e).Keys && WellTyped(space, c, TypesOfAll(terms, e))
    decreases terms, 0
  {
    hide TypeOk, WellTyped;
    if terms != [] {
      UnifySound(space, terms[0], hs[0], b, e);
      var mid := UnifyTerm(space, terms[0], hs[0], b).value;
      UnifyAllSound(space, terms[1..], hs[1..], mid, TypesOf(terms[0], e));
      FitsMore(space, terms[0], hs[0], mid, UnifyAll(space, terms, hs, b).value);
    }
  }

  lemma {:induction false} UnifyComplete(space: Space, term: Term, h: Handle, b: Grounding, e: Types, g: Grounding)
    requires b.Keys == e.Keys && Extends(b, g) && Fits(space, term, h, g) && WellTyped(space, g, TypesOf(term, e))
    ensures UnifyTerm(space, term, h, b).Some?
    ensures var c := UnifyTerm(space, term, h, b).value; Extends(c, g) && c.Keys == TypesOf(term, e).Keys
    decreases term, 1
  {
    hide TypeOk;
    if term.LinkTerm? {
      UnifyAllComplete(space, term.outgoing, space.GetAtom(h).value.outgoing.value, b, e, g);
    }
  }

  lemma {:induction false} UnifyAllComplete(space: Space, terms: seq<Term>, hs: seq<Handle>, b: Grounding, e: Types, g: Grounding)
    requires b.Keys == e.Keys && Extends(b, g) && AllFit(space, terms, hs, g) && WellTyped(space, g, TypesOfAll(terms, e))
    ensures UnifyAll(space, terms, hs, b).Some?
    ensures var c := UnifyAll(space, terms, hs, b).value; Extends(c, g) && c.Keys == TypesOfAll(terms, e).Keys
    decreases terms, 0
  {
    hide TypeOk;
    if terms != [] {
      AllTypesGrow(terms[1..], TypesOf(terms[0], e));
      UnifyComplete(space, terms[0], hs[0], b, e, g);
      var mid := UnifyTerm(space, terms[0], hs[0], b).value;
      UnifyAllComplete(space, terms[1..], hs[1..], mid, TypesOf(terms[0], e), g);
    }
  }

  // ---- Clause by clause ----------------------------------------------------------------------------

  /** What is known between clauses: the groundings kept are exactly those of the clauses so far. */
  ghost predicate AreGroundings(space: Space, clauses: seq<Clause>, gs: seq<Grounding>) {
    forall g :: g in gs <==> IsGrounding(space, clauses, g)
  }

  lemma ClauseSound(space: Space, clauses: seq<Clause>, clause: Clause, i: nat, b: Grounding)
    requires IsGrounding(space, clauses, b) && i < |space.atoms| && UnifyLink(space, clause, space.atoms[i], b).Some?
    ensures IsGrounding(space, clauses + [clause], UnifyLink(space, clause, space.atoms[i], b).value)
  {
    hide TypeOk, WellTyped, Fits, AllFit, TypesOfAll;
    var atom, e := space.atoms[i], FirstTypes(clauses);
    var all := clauses + [clause];
    assert all[..|all| - 1] == clauses;
    UnifyAllSound(space, clause.outgoing, OutgoingOf(atom), b, e);
    var c := UnifyLink(space, clause, atom, b).value;
    assert ClauseFits(space, clause, space.atoms[i], c);
    forall k | 0 <= k < |all| ensures Present(space, all[k], c) {
      if k < |clauses| {
        PresentMore(space, clauses[k], b, c);
      }
    }
  }

  lemma PresentMore(space: Space, clause: Clause, b: Grounding, c: Grounding)
    requires Present(space, clause, b) && Extends(b, c)
    ensures Present(space, clause, c)
  {
    hide Fits, AllFit;
    var i :| 0 <= i < |space.atoms| && ClauseFits(space, clause, space.atoms[i], b);
    AllFitMore(space, clause.outgoing, OutgoingOf(space.atoms[i]), b, c);
    assert ClauseFits(space, clause, space.atoms[i], c);
  }

  function Restrict(g: Grounding, keys: set<string>): Grounding { map x | x in g && x in keys :: g[x] }

  /** A grounding of more clauses, cut down to the variables of the first ones, is a grounding of those. */
  lemma ClauseComplete(space: Space, clauses: seq<Clause>, clause: Clause, g: Grounding) returns (b: Grounding, i: nat)
    requires IsGrounding(space, clauses + [clause], g)
    ensures IsGrounding(space, clauses, b) && i < |space.atoms| && UnifyLink(space, clause, space.atoms[i], b) == Some(g)
  {
    hide TypeOk;
    var all, e := clauses + [clause], FirstTypes(clauses);
    assert all[..|all| - 1] == clauses;
    assert Present(space, all[|clauses|], g);
    i :| 0 <= i < |space.atoms| && ClauseFits(space, clause, space.atoms[i], g);
    b := Restrict(g, e.Keys);
    AllTypesGrow(clause.outgoing, e);
    UnifyAllComplete(space, clause.outgoing, OutgoingOf(space.atoms[i]), b, e, g);
    AllFitSize(space, clause.outgoing, OutgoingOf(space.atoms[i]), g);
    var c := UnifyAll(space, clause.outgoing, OutgoingOf(space.atoms[i]), b).value;
    assert c == g;
    forall k | 0 <= k < |clauses| ensures Present(space, clauses[k], b) {
      assert Present(space, all[k], g);
      PresentLess(space, clauses, k, g, b);
    }
  }

  lemma AllFitSize(space: Space, terms: seq<Term>, hs: seq<Handle>, g: Grounding)
    requires AllFit(space, terms, hs, g)
    ensures |terms| == |hs|
  {}

  /** The variables of a term all get a type. */
  lemma {:induction false} FitsLess(space: Space, term: Term, h: Handle, g: Grounding, b: Grounding, e: Types)
    requires Fits(space, term, h, g) && Extends(b, g) && TypesOf(term, e).Keys <= b.Keys
    ensures Fits(space, term, h, b)
    decreases term, 1
  {
    if term.LinkTerm? {
      AllFitLess(space, term.outgoing, space.GetAtom(h).value.outgoing.value, g, b, e);
    }
  }

  lemma {:induction false} AllFitLess(space: Space, terms: seq<Term>, hs: seq<Handle>, g: Grounding, b: Grounding, e: Types)
    requires AllFit(space, terms, hs, g) && Extends(b, g) && TypesOfAll(terms, e).Keys <= b.Keys
    ensures AllFit(space, terms, hs, b)
    decreases terms, 0
  {
    if terms != [] {
      AllTypesGrow(terms[1..], TypesOf(terms[0], e));
      FitsLess(space, terms[0], hs[0], g, b, e);
      AllFitLess(space, terms[1..], hs[1..], g, b, TypesOf(terms[0], e));
    }
  }

  lemma {:induction false} FirstTypesGrow(clauses: seq<Clause>, k: nat)
    requires k <= |clauses|
    ensures FirstTypes(clauses[..k]).Keys <= FirstTypes(clauses).Keys
    decreases |clauses|
  {
    if k < |clauses| {
      var rest := clauses[..|clauses| - 1];
      FirstTypesGrow(rest, k);
      assert rest[..k] == clauses[..k];
      AllTypesGrow(clauses[|clauses| - 1].outgoing, FirstTypes(rest));
    } else {
      assert clauses[..k] == clauses;
    }
  }

  lemma TypesStep(clauses: seq<Clause>, k: nat)
    requires k < |clauses|
    ensures FirstTypes(clauses[..k + 1]) == TypesOfAll(clauses[k].outgoing, FirstTypes(clauses[..k]))
  {
    assert clauses[..k + 1][..k] == clauses[..k];
  }

  lemma PresentLess(space: Space, clauses: seq<Clause>, k: nat, g: Grounding, b: Grounding)
    requires k < |clauses| && Present(space, clauses[k], g) && Extends(b, g) && b.Keys == FirstTypes(clauses).Keys
    ensures Present(space, clauses[k], b)
  {
    hide Fits, AllFit, OutgoingOf, TypesOfAll;
    var i :| 0 <= i < |space.atoms| && ClauseFits(space, clauses[k], space.atoms[i], g);
    FirstTypesGrow(clauses, k + 1);
    TypesStep(clauses, k);
    AllFitLess(space, clauses[k].outgoing, OutgoingOf(space.atoms[i]), g, b, FirstTypes(clauses[..k]));
    assert ClauseFits(space, clauses[k], space.atoms[i], b);
  }

  // ---- The matcher ---------------------------------------------------------------------------------

  /** One clause: every grounding so far with every stored atom of a fitting type. */
  method ExtendGroundings(space: Space, ghost clauses: seq<Clause>, clause: Clause, gs: seq<Grounding>) returns (next: seq<Grounding>)
    requires AreGroundings(space, clauses, gs)
    ensures AreGroundings(space, clauses + [clause], next)
  {
    hide IsGrounding, UnifyLink;
    next := [];
    for k := 0 to |gs|
      invariant forall g :: g in next ==> IsGrounding(space, clauses + [clause], g)
      invariant forall j, i :: 0 <= j < k && 0 <= i < |space.atoms| && UnifyLink(space, clause, space.atoms[i], gs[j]).Some? ==>
                  UnifyLink(space, clause, space.atoms[i], gs[j]).value in next
    {
      assert gs[k] in gs;
      for i := 0 to |space.atoms|
        invariant forall g :: g in next ==> IsGrounding(space, clauses + [clause], g)
        invariant forall j, i' :: 0 <= j < k && 0 <= i' < |space.atoms| && UnifyLink(space, clause, space.atoms[i'], gs[j]).Some? ==>
                    UnifyLink(space, clause, space.atoms[i'], gs[j]).value in next
        invariant forall i' :: 0 <= i' < i && UnifyLink(space, clause, space.atoms[i'], gs[k]).Some? ==>
                    UnifyLink(space, clause, space.atoms[i'], gs[k]).value in next
      {
        var merged := UnifyLink(space, clause, space.atoms[i], gs[k]);
        if merged.Some? {
          ClauseSound(space, clauses, clause, i, gs[k]);
          next := next + [merged.value];
        }
      }
    }
    forall g | IsGrounding(space, clauses + [clause], g) ensures g in next {
      var b, i := ClauseComplete(space, clauses, clause, g);
      assert b in gs;
      var j :| 0 <= j < |gs| && gs[j] == b;
      assert UnifyLink(space, clause, space.atoms[i], gs[j]).Some?;
    }
  }

  ghost predicate NoDuplicates(gs: seq<Grounding>) { forall i, j :: 0 <= i < j < |gs| ==> gs[i] != gs[j] }

  /** Keeps the first of equal groundings. */
  method Deduplicate(gs: seq<Grounding>) returns (r: seq<Grounding>)
    ensures NoDuplicates(r) && forall g :: g in r <==> g in gs
  {
    r := [];
    for i := 0 to |gs|
      invariant NoDuplicates(r) && forall g :: g in r <==> g in gs[..i]
    {
      assert gs[..i + 1] == gs[..i] + [gs[i]];
      if gs[i] !in r {
        r := r + [gs[i]];
      }
    }
    assert gs[..|gs|] == gs;
  }

  /** The groundings found are exactly the groundings there are, each once. */
  method FindMatches(space: Space, clauses: seq<Clause>) returns (gs: seq<Grounding>)
    ensures NoDuplicates(gs) && forall g :: g in gs <==> IsGrounding(space, clauses, g)
  {
    hide IsGrounding;
    gs := [map[]];
    NoClauses(space);
    assert clauses[..0] == [];
    for k := 0 to |clauses|
      invariant AreGroundings(space, clauses[..k], gs)
    {
      assert clauses[..k + 1] == clauses[..k] + [clauses[k]];
      gs := ExtendGroundings(space, clauses[..k], clauses[k], gs);
      if gs == [] {
        forall g ensures !IsGrounding(space, clauses, g) {
          NoneEarlier(space, clauses, k + 1, g);
        }
        return;
      }
    }
    assert clauses[..|clauses|] == clauses;
    gs := Deduplicate(gs);
  }

  lemma NoClauses(space: Space)
    ensures AreGroundings(space, [], [map[]])
  {}

  /** No groundings of a prefix of the clauses, none of all. */
  lemma {:induction false} NoneEarlier(space: Space, clauses: seq<Clause>, k: nat, g: Grounding)
    requires k <= |clauses| && AreGroundings(space, clauses[..k], [])
    ensures !IsGrounding(space, clauses, g)
    decreases |clauses|
  {
    hide IsGrounding;
    if k == |clauses| {
      assert clauses[..k] == clauses;
      assert g !in [];
    } else {
      var rest := clauses[..|clauses| - 1];
      assert clauses == rest + [clauses[|clauses| - 1]] && rest[..k] == clauses[..k];
      if IsGrounding(space, clauses, g) {
        var b, i := ClauseComplete(space, rest, clauses[|clauses| - 1], g);
        NoneEarlier(space, rest, k, b);
      }
    }
  }

  // ---- Types checked once ----------------------------------------------------------------------------

  /** The variable x occurs in the term with the type kind. */
  predicate Has(term: Term, x: string, kind: string)
    decreases term, 1
  {
    match term
    case Var(name, k) => name == x && k == kind
    case NodeTerm(_, _) => false
    case LinkTerm(_, outgoing) => HasAll(outgoing, x, kind)
  }

  predicate HasAll(terms: seq<Term>, x: string, kind: string)
    decreases terms, 0
  {
    terms != [] && (Has(terms[0], x, kind) || HasAll(terms[1..], x, kind))
  }

  ghost predicate Carries(clauses: seq<Clause>, x: string, kind: string) {
    exists i :: 0 <= i < |clauses| && HasAll(clauses[i].outgoing, x, kind)
  }

  ghost predicate Occurs(clauses: seq<Clause>, x: string) { exists kind :: Carries(clauses, x, kind) }

  /** The meaning of a pattern with no order in it: every clause is present, its variables typed wherever they occur. */
  ghost predicate IsAssignment(space: Space, clauses: seq<Clause>, g: Grounding) {
    && (forall x :: x in g <==> Occurs(clauses, x))
    && (forall i :: 0 <= i < |clauses| ==> Present(space, clauses[i], g))
    && (forall x, kind :: Carries(clauses, x, kind) ==> x in g && TypeOk(space, g[x], kind))
  }

  ghost predicate Exact(space: Space, clauses: seq<Clause>, g: Grounding) {
    IsGrounding(space, clauses, g) <==> IsAssignment(space, clauses, g)
  }

  /** Every occurrence has a type, and the type is that of an occurrence. */
  lemma {:induction false} TypesAre(term: Term, e: Types)
    ensures forall x, kind :: Has(term, x, kind) ==> x in TypesOf(term, e)
    ensures forall x :: x in TypesOf(term, e) ==> (x in e && e[x] == TypesOf(term, e)[x]) || Has(term, x, TypesOf(term, e)[x])
    decreases term, 1
  {
    if term.LinkTerm? {
      AllTypesAre(term.outgoing, e);
    }
  }

  lemma {:induction false} AllTypesAre(terms: seq<Term>, e: Types)
    ensures forall x, kind :: HasAll(terms, x, kind) ==> x in TypesOfAll(terms, e)
    ensures forall x :: x in TypesOfAll(terms, e) ==> (x in e && e[x] == TypesOfAll(terms, e)[x]) || HasAll(terms, x, TypesOfAll(terms, e)[x])
    decreases terms, 0
  {
    if terms != [] {
      TypesAre(terms[0], e);
      AllTypesGrow(terms[1..], TypesOf(terms[0], e));
      AllTypesAre(terms[1..], TypesOf(terms[0], e));
    }
  }

  lemma CarriesAppend(rest: seq<Clause>, last: Clause, x: string, kind: string)
    ensures Carries(rest + [last], x, kind) <==> Carries(rest, x, kind) || HasAll(last.outgoing, x, kind)
  {
    var all := rest + [last];
    if Carries(rest, x, kind) {
      var i :| 0 <= i < |rest| && HasAll(rest[i].outgoing, x, kind);
      assert all[i] == rest[i];
    }
    assert all[|rest|] == last;
  }

  lemma {:induction false} FirstTypesAre(clauses: seq<Clause>)
    ensures forall x, kind :: Carries(clauses, x, kind) ==> x in FirstTypes(clauses)
    ensures forall x :: x in FirstTypes(clauses) ==> Carries(clauses, x, FirstTypes(clauses)[x])
    decreases |clauses|
  {
    hide Carries, HasAll;
    if clauses == [] {
      NothingCarried();
    } else {
      var rest, last := clauses[..|clauses| - 1], clauses[|clauses| - 1];
      FirstTypesAre(rest);
      AllTypesGrow(last.outgoing, FirstTypes(rest));
      AllTypesAre(last.outgoing, FirstTypes(rest));
      assert clauses == rest + [last];
      forall x, kind ensures Carries(clauses, x, kind) <==> Carries(rest, x, kind) || HasAll(last.outgoing, x, kind) {
        CarriesAppend(rest, last, x, kind);
      }
    }
  }

  lemma NothingCarried()
    ensures forall x, kind :: !Carries([], x, kind)
  {}

  /** A handle of the type a variable has first is of all its types. */
  ghost predicate FirstIsEnough(space: Space, clauses: seq<Clause>) {
    forall x, kind, h :: Carries(clauses, x, kind) && x in FirstTypes(clauses) && TypeOk(space, h, FirstTypes(clauses)[x]) ==> TypeOk(space, h, kind)
  }

  lemma ExactWhenEnough(space: Space, clauses: seq<Clause>, g: Grounding)
    requires FirstIsEnough(space, clauses)
    ensures Exact(space, clauses, g)
  {
    hide TypeOk, Present, Carries;
    FirstTypesAre(clauses);
    var e := FirstTypes(clauses);
    forall x ensures x in e <==> Occurs(clauses, x) {
      if x in e {
        assert Carries(clauses, x, e[x]);
      }
    }
    if IsGrounding(space, clauses, g) {
      forall x, kind | Carries(clauses, x, kind) ensures x in g && TypeOk(space, g[x], kind) {
        assert TypeOk(space, g[x], e[x]);
      }
    }
    if IsAssignment(space, clauses, g) {
      forall x | x in e ensures x in g && TypeOk(space, g[x], e[x]) {
        assert Carries(clauses, x, e[x]);
      }
      assert g.Keys == e.Keys;
    }
  }

  /** No variable occurs with two types. */
  ghost predicate Consistent(clauses: seq<Clause>) {
    forall x, kind, kind' :: Carries(clauses, x, kind) && Carries(clauses, x, kind') ==> kind == kind'
  }

  /** For consistently typed variables the groundings are exactly the assignments. */
  lemma ConsistentExactly(space: Space, clauses: seq<Clause>, g: Grounding)
    requires Consistent(clauses)
    ensures IsGrounding(space, clauses, g) <==> IsAssignment(space, clauses, g)
  {
    hide TypeOk, Carries, FirstTypes, IsGrounding, IsAssignment;
    FirstTypesAre(clauses);
    ExactWhenEnough(space, clauses, g);
  }

  // ---- Exactly when no restriction is written too late ------------------------------------------------------

  /** The type lattice: every type is below itself and what is above one above it, and nothing is above all types, as a
      type that was never declared has only itself above it. */
  ghost predicate IsLattice(isA: (string, string) -> bool) {
    && (forall a :: isA(a, a))
    && (forall a, b, c :: isA(a, b) && isA(b, c) ==> isA(a, c))
    && (forall b :: HasOther(isA, b))
  }

  ghost predicate HasOther(isA: (string, string) -> bool, b: string) { exists a :: !isA(a, b) }

  lemma IsReflexive(isA: (string, string) -> bool, a: string)
    requires IsLattice(isA)
    ensures isA(a, a)
  {}

  /** No later occurrence restricts a variable further than its first one does. */
  ghost predicate NoneTooLate(isA: (string, string) -> bool, clauses: seq<Clause>) {
    forall x, kind :: Carries(clauses, x, kind) && x in FirstTypes(clauses) ==> IsSettled(isA, FirstTypes(clauses)[x], kind)
  }

  predicate IsSettled(isA: (string, string) -> bool, first: string, later: string) {
    later == "" || (first != "" && isA(first, later))
  }

  /** Under a lattice and whatever is stored, a pattern is matched as it reads. */
  ghost predicate AlwaysExact(isA: (string, string) -> bool, clauses: seq<Clause>) {
    forall atoms, g :: IsStore(atoms) ==> Exact(Space(atoms, isA), clauses, g)
  }

  function AtomOf(h: Handle): Atom {
    match h
    case NodeHandle(kind, _) => Atom(h, kind, None)
    case LinkHandle(kind, outgoing) => Atom(h, kind, Some(outgoing))
  }

  /** Atoms are what their handles say, each stored once, and a link never without its targets. */
  ghost predicate IsStore(atoms: seq<Atom>) {
    && (forall i :: 0 <= i < |atoms| ==> atoms[i] == AtomOf(atoms[i].handle))
    && (forall i, j :: 0 <= i < j < |atoms| ==> atoms[i].handle != atoms[j].handle)
    && (forall h, q :: AtomOf(h) in atoms && IsTarget(q, h) ==> AtomOf(q) in atoms)
  }

  predicate IsTarget(q: Handle, h: Handle) { h.LinkHandle? && q in h.outgoing }

  lemma NoneTooLateIsEnough(space: Space, clauses: seq<Clause>)
    requires IsLattice(space.isA) && NoneTooLate(space.isA, clauses)
    ensures FirstIsEnough(space, clauses)
  {
    hide Carries, FirstTypes;
    forall x, kind, h | Carries(clauses, x, kind) && x in FirstTypes(clauses) && TypeOk(space, h, FirstTypes(clauses)[x])
      ensures TypeOk(space, h, kind)
    {
      assert IsSettled(space.isA, FirstTypes(clauses)[x], kind);
    }
  }

  /** A term with its variables replaced. */
  function Inst(term: Term, g: Grounding): Handle
    decreases term, 1
  {
    match term
    case Var(name, kind) => if name in g then g[name] else NodeHandle(kind, name)
    case NodeTerm(kind, name) => NodeHandle(kind, name)
    case LinkTerm(kind, outgoing) => LinkHandle(kind, InstAll(outgoing, g))
  }

  function InstAll(terms: seq<Term>, g: Grounding): (r: seq<Handle>)
    ensures |r| == |terms|
    decreases terms, 0
  {
    if terms == [] then [] else [Inst(terms[0], g)] + InstAll(terms[1..], g)
  }

  /** A handle with everything it is built from. */
  ghost function Parts(h: Handle): (r: set<Handle>)
    ensures h in r
    decreases h, 1
  {
    {h} + if h.LinkHandle? then PartsAll(h.outgoing) else {}
  }

  ghost function PartsAll(hs: seq<Handle>): (r: set<Handle>)
    ensures forall h :: h in hs ==> h in r
    decreases hs, 0
  {
    if hs == [] then {} else Parts(hs[0]) + PartsAll(hs[1..])
  }

  lemma {:induction false} PartsClosed(h: Handle, p: Handle, q: Handle)
    requires p in Parts(h) && IsTarget(q, p)
    ensures q in Parts(h)
    decreases h, 1
  {
    if p != h {
      AllPartsClosed(h.outgoing, p, q);
    }
  }

  lemma {:induction false} AllPartsClosed(hs: seq<Handle>, p: Handle, q: Handle)
    requires p in PartsAll(hs) && IsTarget(q, p)
    ensures q in PartsAll(hs)
    decreases hs, 0
  {
    if p in Parts(hs[0]) {
      PartsClosed(hs[0], p, q);
    } else {
      AllPartsClosed(hs[1..], p, q);
    }
  }

  /** The atoms of a set of handles. */
  lemma {:induction false} StoreOf(all: set<Handle>) returns (atoms: seq<Atom>)
    ensures forall h :: AtomOf(h) in atoms <==> h in all
    ensures forall i :: 0 <= i < |atoms| ==> atoms[i] == AtomOf(atoms[i].handle)
    ensures forall i, j :: 0 <= i < j < |atoms| ==> atoms[i].handle != atoms[j].handle
    decreases all
  {
    if all == {} {
      atoms := [];
    } else {
      var h :| h in all;
      var rest := StoreOf(all - {h});
      atoms := rest + [AtomOf(h)];
    }
  }

  lemma {:induction false} FindsPart(space: Space, h: Handle, i: nat)
    requires i <= |space.atoms| && IsStore(space.atoms) && AtomOf(h) in space.atoms[i..]
    ensures space.Find(h, i) == Some(AtomOf(h))
    decreases |space.atoms| - i
  {
    hide IsTarget;
    if space.atoms[i].handle != h {
      assert space.atoms[i..] == [space.atoms[i]] + space.atoms[i + 1..];
      FindsPart(space, h, i + 1);
    }
  }

  lemma Stored(space: Space, h: Handle)
    requires IsStore(space.atoms) && AtomOf(h) in space.atoms
    ensures space.GetAtom(h) == Some(AtomOf(h))
  {
    hide IsStore, AtomOf;
    assert space.atoms[0..] == space.atoms;
    FindsPart(space, h, 0);
  }

  lemma TargetsStored(space: Space, hs: seq<Handle>, kind: string)
    requires IsStore(space.atoms) && AtomOf(LinkHandle(kind, hs)) in space.atoms
    ensures AllStored(space, hs)
  {
    hide AtomOf;
    forall h | h in hs ensures AtomOf(h) in space.atoms {
      assert IsTarget(h, LinkHandle(kind, hs));
    }
  }

  ghost predicate AllStored(space: Space, hs: seq<Handle>) { forall h :: h in hs ==> AtomOf(h) in space.atoms }

  ghost predicate Covers(g: Grounding, term: Term) { forall x, kind :: Has(term, x, kind) ==> x in g }

  ghost predicate CoversAll(g: Grounding, terms: seq<Term>) { forall x, kind :: HasAll(terms, x, kind) ==> x in g }

  lemma CoversParts(g: Grounding, terms: seq<Term>)
    requires CoversAll(g, terms) && terms != []
    ensures Covers(g, terms[0]) && CoversAll(g, terms[1..])
  {
    forall x, kind | Has(terms[0], x, kind) ensures x in g {
      assert HasAll(terms, x, kind);
    }
    forall x, kind | HasAll(terms[1..], x, kind) ensures x in g {
      assert HasAll(terms, x, kind);
    }
  }

  lemma CoversLink(g: Grounding, term: Term)
    requires Covers(g, term)
    ensures term.LinkTerm? ==> CoversAll(g, term.outgoing)
    ensures term.Var? ==> term.name in g
  {
    if term.LinkTerm? {
      forall x, kind | HasAll(term.outgoing, x, kind) ensures x in g {
        assert Has(term, x, kind);
      }
    } else if term.Var? {
      assert Has(term, term.name, term.kind);
    }
  }

  /** A stored instance fits its term. */
  lemma {:induction false} InstFits(space: Space, term: Term, g: Grounding)
    requires IsStore(space.atoms) && IsLattice(space.isA) && AtomOf(Inst(term, g)) in space.atoms
    requires Covers(g, term)
    ensures Fits(space, term, Inst(term, g), g)
    decreases term, 1
  {
    hide IsStore, IsLattice, Has, HasAll, Covers, CoversAll, AllStored;
    CoversLink(g, term);
    if term.LinkTerm? {
      Stored(space, Inst(term, g));
      TargetsStored(space, InstAll(term.outgoing, g), term.kind);
      IsReflexive(space.isA, term.kind);
      AllInstFit(space, term.outgoing, g);
    }
  }

  lemma {:induction false} AllInstFit(space: Space, terms: seq<Term>, g: Grounding)
    requires IsStore(space.atoms) && IsLattice(space.isA) && AllStored(space, InstAll(terms, g))
    requires CoversAll(g, terms)
    ensures AllFit(space, terms, InstAll(terms, g), g)
    decreases terms, 0
  {
    hide IsStore, IsLattice, AtomOf, Has, HasAll, Covers, CoversAll;
    if terms != [] {
      CoversParts(g, terms);
      var hs := InstAll(terms, g);
      assert hs == [Inst(terms[0], g)] + InstAll(terms[1..], g);
      assert hs[1..] == InstAll(terms[1..], g) && hs[0] in hs;
      InstFits(space, terms[0], g);
      AllInstFit(space, terms[1..], g);
    }
  }

  // ---- What a store makes present ------------------------------------------------------------------

  lemma {:induction false} FoundIs(space: Space, h: Handle, i: nat)
    requires i <= |space.atoms| && IsStore(space.atoms)
    ensures space.Find(h, i).Some? ==> space.Find(h, i).value == AtomOf(h) && AtomOf(h) in space.atoms
    decreases |space.atoms| - i
  {
    hide AtomOf, IsTarget;
    if i < |space.atoms| && space.atoms[i].handle != h {
      FoundIs(space, h, i + 1);
    }
  }

  /** Where no type is below another, only the instance fits. */
  lemma {:induction false} FlatFits(space: Space, term: Term, h: Handle, g: Grounding)
    requires IsStore(space.atoms) && (forall a, b :: space.isA(a, b) <==> a == b) && Fits(space, term, h, g)
    ensures h == Inst(term, g)
    decreases term, 1
  {
    hide IsStore;
    if term.LinkTerm? {
      FoundIs(space, h, 0);
      AllFlatFit(space, term.outgoing, space.GetAtom(h).value.outgoing.value, g);
    }
  }

  lemma {:induction false} AllFlatFit(space: Space, terms: seq<Term>, hs: seq<Handle>, g: Grounding)
    requires IsStore(space.atoms) && (forall a, b :: space.isA(a, b) <==> a == b) && AllFit(space, terms, hs, g)
    ensures hs == InstAll(terms, g)
    decreases terms, 0
  {
    hide IsStore;
    if terms != [] {
      FlatFits(space, terms[0], hs[0], g);
      AllFlatFit(space, terms[1..], hs[1..], g);
      assert hs == [hs[0]] + hs[1..];
    }
  }

  /** Where no type is below another, a clause is present exactly when its instance is stored. */
  lemma PresentIsStored(space: Space, clause: Clause, g: Grounding)
    requires IsStore(space.atoms) && (forall a, b :: space.isA(a, b) <==> a == b) && CoversAll(g, clause.outgoing)
    ensures Present(space, clause, g) <==> AtomOf(LinkHandle(clause.kind, InstAll(clause.outgoing, g))) in space.atoms || IsEmptyNode(space, clause)
  {
    hide IsStore, AllFit, InstAll, IsLattice, CoversAll;
    var h := LinkHandle(clause.kind, InstAll(clause.outgoing, g));
    FlatIsLattice(space.isA);
    if AtomOf(h) in space.atoms {
      TargetsStored(space, InstAll(clause.outgoing, g), clause.kind);
      AllInstFit(space, clause.outgoing, g);
      var j :| 0 <= j < |space.atoms| && space.atoms[j] == AtomOf(h);
      assert ClauseFits(space, clause, space.atoms[j], g);
    }
    if IsEmptyNode(space, clause) {
      var j :| 0 <= j < |space.atoms| && IsEmptyNodeAt(space, clause, j);
      assert AllFit(space, clause.outgoing, [], g) by { NothingFits(space, g); }
      assert ClauseFits(space, clause, space.atoms[j], g);
    }
    if Present(space, clause, g) {
      var j :| 0 <= j < |space.atoms| && ClauseFits(space, clause, space.atoms[j], g);
      AllFlatFit(space, clause.outgoing, OutgoingOf(space.atoms[j]), g);
      AtomIs(space, j);
      if space.atoms[j].outgoing.None? {
        NoOutgoing(clause.outgoing, g);
        assert IsEmptyNodeAt(space, clause, j);
      }
    }
  }

  /** A clause with nothing in it asks only for the type, so a node will do. */
  ghost predicate IsEmptyNode(space: Space, clause: Clause) {
    exists j :: 0 <= j < |space.atoms| && IsEmptyNodeAt(space, clause, j)
  }

  predicate IsEmptyNodeAt(space: Space, clause: Clause, j: nat)
    requires j < |space.atoms|
  {
    clause.outgoing == [] && space.atoms[j].kind == clause.kind && space.atoms[j].outgoing == None
  }

  lemma NothingFits(space: Space, g: Grounding)
    ensures AllFit(space, [], [], g)
  {}

  lemma NoOutgoing(terms: seq<Term>, g: Grounding)
    requires InstAll(terms, g) == []
    ensures terms == []
  {}

  lemma AtomIs(space: Space, j: nat)
    requires j < |space.atoms| && IsStore(space.atoms)
    ensures var atom := space.atoms[j];
      atom.outgoing.Some? ==> atom == AtomOf(LinkHandle(atom.kind, atom.outgoing.value))
  {}

  /** A stored link of a type answers the clauses and terms of that type and of the types above it. */
  lemma SubtypesAnswer(space: Space, low: string, kind: string, g: Grounding)
    requires IsStore(space.atoms) && space.atoms == [AtomOf(LinkHandle(low, []))]
    ensures Present(space, Clause(kind, []), g) <==> space.isA(low, kind)
    ensures Fits(space, LinkTerm(kind, []), LinkHandle(low, []), g) <==> space.isA(low, kind)
  {
    Stored(space, LinkHandle(low, []));
    NothingFits(space, g);
    if space.isA(low, kind) {
      assert ClauseFits(space, Clause(kind, []), space.atoms[0], g);
    }
  }

  /** A variable's value is a part of the instance of any term it occurs in. */
  lemma {:induction false} ValueIsPart(term: Term, g: Grounding, x: string, kind: string)
    requires Has(term, x, kind) && x in g
    ensures g[x] in Parts(Inst(term, g))
    decreases term, 1
  {
    if term.LinkTerm? {
      AllValuesAreParts(term.outgoing, g, x, kind);
    }
  }

  lemma {:induction false} AllValuesAreParts(terms: seq<Term>, g: Grounding, x: string, kind: string)
    requires HasAll(terms, x, kind) && x in g
    ensures g[x] in PartsAll(InstAll(terms, g))
    decreases terms, 0
  {
    var hs := InstAll(terms, g);
    assert hs[0] == Inst(terms[0], g) && hs[1..] == InstAll(terms[1..], g);
    if Has(terms[0], x, kind) {
      ValueIsPart(terms[0], g, x, kind);
    } else {
      AllValuesAreParts(terms[1..], g, x, kind);
    }
  }

  ghost function Tops(clauses: seq<Clause>, g: Grounding): (r: seq<Handle>)
    ensures |r| == |clauses| && forall i :: 0 <= i < |clauses| ==> r[i] == LinkHandle(clauses[i].kind, InstAll(clauses[i].outgoing, g))
  {
    seq(|clauses|, i requires 0 <= i < |clauses| => LinkHandle(clauses[i].kind, InstAll(clauses[i].outgoing, g)))
  }

  lemma PartIsPart(hs: seq<Handle>, i: nat, p: Handle)
    requires i < |hs| && p in Parts(hs[i])
    ensures p in PartsAll(hs)
    decreases i
  {
    if i > 0 {
      PartIsPart(hs[1..], i - 1, p);
    }
  }

  /** The store that has just what the clauses say under g. */
  lemma StoreFor(clauses: seq<Clause>, g: Grounding) returns (atoms: seq<Atom>)
    ensures IsStore(atoms)
    ensures forall i :: 0 <= i < |clauses| ==> AtomOf(LinkHandle(clauses[i].kind, InstAll(clauses[i].outgoing, g))) in atoms
    ensures forall x, kind :: Carries(clauses, x, kind) && x in g ==> AtomOf(g[x]) in atoms
  {
    hide AtomOf, Parts, InstAll, HasAll, IsTarget;
    var tops := Tops(clauses, g);
    atoms := StoreOf(PartsAll(tops));
    forall h, q | AtomOf(h) in atoms && IsTarget(q, h) ensures AtomOf(q) in atoms {
      AllPartsClosed(tops, h, q);
    }
    forall i | 0 <= i < |clauses| ensures AtomOf(LinkHandle(clauses[i].kind, InstAll(clauses[i].outgoing, g))) in atoms {
      assert tops[i] in PartsAll(tops);
    }
    forall x, kind | Carries(clauses, x, kind) && x in g ensures AtomOf(g[x]) in atoms {
      var i :| 0 <= i < |clauses| && HasAll(clauses[i].outgoing, x, kind);
      AllValuesAreParts(clauses[i].outgoing, g, x, kind);
      PartOfTop(clauses[i], g, g[x]);
      PartIsPart(tops, i, g[x]);
    }
  }

  lemma PartOfTop(clause: Clause, g: Grounding, p: Handle)
    requires p in PartsAll(InstAll(clause.outgoing, g))
    ensures p in Parts(LinkHandle(clause.kind, InstAll(clause.outgoing, g)))
  {}

  lemma ClausesPresent(space: Space, clauses: seq<Clause>, g: Grounding, i: nat)
    requires i < |clauses| && IsStore(space.atoms) && IsLattice(space.isA)
    requires AtomOf(LinkHandle(clauses[i].kind, InstAll(clauses[i].outgoing, g))) in space.atoms
    requires forall x, kind :: Carries(clauses, x, kind) ==> x in g
    ensures Present(space, clauses[i], g)
  {
    hide IsStore, IsLattice, Fits, AllFit, Has, HasAll, InstAll;
    var clause := clauses[i];
    var hs := InstAll(clause.outgoing, g);
    forall x, kind | HasAll(clause.outgoing, x, kind) ensures x in g {
      assert Carries(clauses, x, kind);
    }
    TargetsStored(space, hs, clause.kind);
    AllInstFit(space, clause.outgoing, g);
    IsReflexive(space.isA, clause.kind);
    var j :| 0 <= j < |space.atoms| && space.atoms[j] == AtomOf(LinkHandle(clause.kind, hs));
    assert ClauseFits(space, clause, space.atoms[j], g);
  }

  /** Every variable stands for a node of its first type, but x for one of type t. */
  ghost function Escape(clauses: seq<Clause>, x: string, t: string): Grounding {
    map y | y in FirstTypes(clauses) :: NodeHandle(if y == x then t else FirstTypes(clauses)[y], y)
  }

  /** A type that passes where x first occurs and not at a later occurrence makes a grounding that is no assignment. */
  lemma EscapesType(isA: (string, string) -> bool, clauses: seq<Clause>, x: string, kind: string, t: string) returns (atoms: seq<Atom>)
    requires IsLattice(isA) && Carries(clauses, x, kind) && x in FirstTypes(clauses)
    requires FirstTypes(clauses)[x] == "" || isA(t, FirstTypes(clauses)[x])
    requires kind != "" && !isA(t, kind)
    ensures IsStore(atoms) && IsGrounding(Space(atoms, isA), clauses, Escape(clauses, x, t))
    ensures !IsAssignment(Space(atoms, isA), clauses, Escape(clauses, x, t))
  {
    hide *;
    var e, g := FirstTypes(clauses), Escape(clauses, x, t);
    FirstTypesAre(clauses);
    EscapeIs(clauses, x, t);
    atoms := StoreFor(clauses, g);
    var space := Space(atoms, isA);
    forall i: nat | i < |clauses| ensures Present(space, clauses[i], g) {
      ClausesPresent(space, clauses, g, i);
    }
    forall y | y in e ensures TypeOk(space, g[y], e[y]) {
      assert Carries(clauses, y, e[y]);
      IsReflexive(isA, e[y]);
      NodeTyped(space, if y == x then t else e[y], y, e[y]);
    }
    NodeTyped(space, t, x, kind);
    GroundingFrom(space, clauses, g);
    AssignmentTypes(space, clauses, g, x, kind);
  }

  lemma EscapeIs(clauses: seq<Clause>, x: string, t: string)
    ensures Escape(clauses, x, t).Keys == FirstTypes(clauses).Keys
    ensures forall y :: y in FirstTypes(clauses) ==> Escape(clauses, x, t)[y] == NodeHandle(if y == x then t else FirstTypes(clauses)[y], y)
  {}

  lemma NodeTyped(space: Space, t: string, y: string, kind: string)
    requires IsStore(space.atoms) && AtomOf(NodeHandle(t, y)) in space.atoms
    ensures TypeOk(space, NodeHandle(t, y), kind) <==> kind == "" || space.isA(t, kind)
  {
    hide IsStore;
    Stored(space, NodeHandle(t, y));
  }

  lemma GroundingFrom(space: Space, clauses: seq<Clause>, g: Grounding)
    requires g.Keys == FirstTypes(clauses).Keys && forall y :: y in FirstTypes(clauses) ==> TypeOk(space, g[y], FirstTypes(clauses)[y])
    requires forall i: nat :: i < |clauses| ==> Present(space, clauses[i], g)
    ensures IsGrounding(space, clauses, g)
  {
    hide TypeOk, FirstTypes, Present;
  }

  lemma AssignmentTypes(space: Space, clauses: seq<Clause>, g: Grounding, x: string, kind: string)
    requires Carries(clauses, x, kind) && x in g && !TypeOk(space, g[x], kind)
    ensures !IsAssignment(space, clauses, g)
  {}

  /** In every store a pattern is matched as it reads, its types checked at every occurrence, exactly when no variable is
      restricted further after its first occurrence. */
  lemma TypesCheckedExactly(isA: (string, string) -> bool, clauses: seq<Clause>)
    requires IsLattice(isA)
    ensures AlwaysExact(isA, clauses) <==> NoneTooLate(isA, clauses)
  {
    hide Carries, FirstTypes, IsStore, IsGrounding, IsAssignment;
    if NoneTooLate(isA, clauses) {
      forall atoms, g ensures Exact(Space(atoms, isA), clauses, g) {
        NoneTooLateIsEnough(Space(atoms, isA), clauses);
        ExactWhenEnough(Space(atoms, isA), clauses, g);
      }
    } else {
      var x, kind :| Carries(clauses, x, kind) && x in FirstTypes(clauses) && !IsSettled(isA, FirstTypes(clauses)[x], kind);
      var first := FirstTypes(clauses)[x];
      var t := first;
      if first == "" {
        assert HasOther(isA, kind);
        t :| !isA(t, kind);
      }
      var atoms := EscapesType(isA, clauses, x, kind, t);
      assert !Exact(Space(atoms, isA), clauses, Escape(clauses, x, t));
    }
  }

  /** Every occurrence has no type or the first one. */
  ghost predicate OnlyFirst(clauses: seq<Clause>) {
    forall x, kind :: Carries(clauses, x, kind) && x in FirstTypes(clauses) ==> kind == "" || kind == FirstTypes(clauses)[x]
  }

  /** Under every lattice and in every store, exactly when every occurrence has no type or the first one. */
  lemma TypesCheckedAnyLattice(clauses: seq<Clause>)
    ensures (forall isA :: IsLattice(isA) ==> AlwaysExact(isA, clauses)) <==> OnlyFirst(clauses)
  {
    hide Carries, FirstTypes, AlwaysExact, IsLattice, NoneTooLate, OnlyFirst;
    if OnlyFirst(clauses) {
      forall isA | IsLattice(isA) ensures AlwaysExact(isA, clauses) {
        OnlyFirstSettled(isA, clauses);
        TypesCheckedExactly(isA, clauses);
      }
    }
    var flat: (string, string) -> bool := (a, b) => a == b;
    FlatIsLattice(flat);
    if AlwaysExact(flat, clauses) {
      TypesCheckedExactly(flat, clauses);
      FlatSettled(flat, clauses);
    }
  }

  lemma OnlyFirstSettled(isA: (string, string) -> bool, clauses: seq<Clause>)
    requires IsLattice(isA) && OnlyFirst(clauses)
    ensures NoneTooLate(isA, clauses)
  {
    hide Carries, FirstTypes;
  }

  lemma FlatSettled(flat: (string, string) -> bool, clauses: seq<Clause>)
    requires (forall a, b :: flat(a, b) <==> a == b) && NoneTooLate(flat, clauses)
    ensures OnlyFirst(clauses)
  {
    hide Carries, FirstTypes;
  }

  lemma FlatIsLattice(flat: (string, string) -> bool)
    requires forall a, b :: flat(a, b) <==> a == b
    ensures IsLattice(flat)
  {
    forall b ensures HasOther(flat, b) {
      assert !flat(b + "x", b);
    }
  }

  /** The order and repetition of clauses do not matter to the groundings when in either order no restriction comes too
      late. */
  lemma ClauseOrder(space: Space, clauses: seq<Clause>, clauses': seq<Clause>, g: Grounding)
    requires IsLattice(space.isA) && NoneTooLate(space.isA, clauses) && NoneTooLate(space.isA, clauses')
    requires forall c :: c in clauses <==> c in clauses'
    ensures IsGrounding(space, clauses, g) <==> IsGrounding(space, clauses', g)
  {
    hide IsGrounding, IsAssignment, NoneTooLate, IsLattice, FirstIsEnough;
    NoneTooLateIsEnough(space, clauses);
    NoneTooLateIsEnough(space, clauses');
    ExactWhenEnough(space, clauses, g);
    ExactWhenEnough(space, clauses', g);
    AssignmentMoves(space, clauses, clauses', g);
    AssignmentMoves(space, clauses', clauses, g);
  }

  lemma AssignmentMoves(space: Space, clauses: seq<Clause>, clauses': seq<Clause>, g: Grounding)
    requires forall c :: c in clauses <==> c in clauses'
    ensures IsAssignment(space, clauses, g) ==> IsAssignment(space, clauses', g)
  {
    hide Present, Carries;
    forall x, kind ensures Carries(clauses, x, kind) <==> Carries(clauses', x, kind) {
      CarriesIn(clauses, clauses', x, kind);
      CarriesIn(clauses', clauses, x, kind);
    }
    forall x ensures Occurs(clauses, x) <==> Occurs(clauses', x) {}
    if IsAssignment(space, clauses, g) {
      forall i | 0 <= i < |clauses'| ensures Present(space, clauses'[i], g) {
        assert clauses'[i] in clauses;
        var j :| 0 <= j < |clauses| && clauses[j] == clauses'[i];
      }
    }
  }

  lemma CarriesIn(clauses: seq<Clause>, clauses': seq<Clause>, x: string, kind: string)
    requires forall c :: c in clauses ==> c in clauses'
    ensures Carries(clauses, x, kind) ==> Carries(clauses', x, kind)
  {
    if Carries(clauses, x, kind) {
      var i :| 0 <= i < |clauses| && HasAll(clauses[i].outgoing, x, kind);
      assert clauses[i] in clauses';
      var j :| 0 <= j < |clauses'| && clauses'[j] == clauses[i];
    }
  }

  /** Consistent types come too late in no order, under any lattice. */
  lemma ConsistentNotLate(isA: (string, string) -> bool, clauses: seq<Clause>)
    requires IsLattice(isA) && Consistent(clauses)
    ensures NoneTooLate(isA, clauses)
  {
    hide Carries, FirstTypes;
    FirstTypesAre(clauses);
  }

  // ---- A restriction written too late ------------------------------------------------------------------

  function ExampleNode(): Atom { Atom(NodeHandle("ConceptNode", "a"), "ConceptNode", None) }

  function ExampleSpace(): Space {
    Space([ExampleNode(), Atom(LinkHandle("ListLink", [ExampleNode().handle]), "ListLink", Some([ExampleNode().handle]))], (a, b) => a == b)
  }

  /** (ListLink $x) with the variable restricted to the given type. */
  function ExampleClause(kind: string): Clause { Clause("ListLink", [Var("x", kind)]) }

  function ExampleGrounding(): Grounding { map["x" := ExampleNode().handle] }

  lemma ExampleFits(kind: string)
    ensures Present(ExampleSpace(), ExampleClause(kind), ExampleGrounding())
  {
    var terms, h := [Var("x", kind)], ExampleNode().handle;
    assert terms[1..] == [] && [h][1..] == [];
    assert Fits(ExampleSpace(), terms[0], h, ExampleGrounding());
    assert AllFit(ExampleSpace(), terms[1..], [h][1..], ExampleGrounding());
    assert AllFit(ExampleSpace(), terms, [h], ExampleGrounding());
    assert ClauseFits(ExampleSpace(), ExampleClause(kind), ExampleSpace().atoms[1], ExampleGrounding());
  }

  lemma ExampleTypes(kind: string, kind': string)
    ensures FirstTypes([ExampleClause(kind), ExampleClause(kind')]) == map["x" := kind]
  {
    var a, b := ExampleClause(kind), ExampleClause(kind');
    assert [a, b][..1] == [a] && [a][..0] == [];
    assert a.outgoing[1..] == [] && b.outgoing[1..] == [];
    assert TypesOfAll(a.outgoing, map[]) == map["x" := kind];
    assert FirstTypes([a]) == map["x" := kind];
    assert TypesOfAll(b.outgoing, map["x" := kind]) == map["x" := kind];
  }

  /** A variable first seen without a type escapes a restriction written at a later occurrence. */
  lemma TypeSeenTooLate()
    ensures var clauses := [ExampleClause(""), ExampleClause("PredicateNode")];
      IsGrounding(ExampleSpace(), clauses, ExampleGrounding()) && !IsAssignment(ExampleSpace(), clauses, ExampleGrounding())
  {
    hide FirstTypes, Present;
    var clauses := [ExampleClause(""), ExampleClause("PredicateNode")];
    ExampleTypes("", "PredicateNode");
    ExampleFits("");
    ExampleFits("PredicateNode");
    assert ExampleSpace().GetAtom(ExampleNode().handle) == Some(ExampleNode());
    assert clauses[1].outgoing[0] == Var("x", "PredicateNode");
    assert HasAll(clauses[1].outgoing, "x", "PredicateNode");
    assert Carries(clauses, "x", "PredicateNode");
    assert !TypeOk(ExampleSpace(), ExampleGrounding()["x"], "PredicateNode");
  }
}
