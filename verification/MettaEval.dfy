/** MeTTa evaluation (ts/src/metta-eval.ts, instantiate from ts/src/metta.ts): unification by printed text, grounded
    operations over unbounded integers, and rewriting under a step budget. */
module MettaEval {
  import opened Basics
  import opened Metta
  import Decimal

  type Binding = map<string, SExpr>

  // ---- Substitution ------------------------------------------------------------------------------

  function Instantiate(t: SExpr, b: Binding): SExpr {
    match t
    case Sym(_) => t
    case Var(name) => if name in b then b[name] else t
    case List(items) => List(InstantiateAll(items, b))
  }

  function InstantiateAll(ts: seq<SExpr>, b: Binding): (r: seq<SExpr>)
    ensures |r| == |ts|
  {
    if ts == [] then [] else [Instantiate(ts[0], b)] + InstantiateAll(ts[1..], b)
  }

  function Vars(t: SExpr): set<string> {
    match t
    case Sym(_) => {}
    case Var(name) => {name}
    case List(items) => VarsAll(items)
  }

  function VarsAll(ts: seq<SExpr>): set<string> {
    if ts == [] then {} else Vars(ts[0]) + VarsAll(ts[1..])
  }

  /** b gives every variable of a the same value as c does. */
  ghost predicate Agree(a: set<string>, b: Binding, c: Binding) {
    forall x :: x in a ==> (x in b <==> x in c) && (x in b ==> b[x] == c[x])
  }

  lemma {:induction false} InstantiateAgree(t: SExpr, b: Binding, c: Binding)
    requires Agree(Vars(t), b, c)
    ensures Instantiate(t, b) == Instantiate(t, c)
    decreases t, 1
  {
    if t.List? {
      InstantiateAllAgree(t.items, b, c);
    }
  }

  lemma {:induction false} InstantiateAllAgree(ts: seq<SExpr>, b: Binding, c: Binding)
    requires Agree(VarsAll(ts), b, c)
    ensures InstantiateAll(ts, b) == InstantiateAll(ts, c)
    decreases ts, 0
  {
    if ts != [] {
      InstantiateAgree(ts[0], b, c);
      InstantiateAllAgree(ts[1..], b, c);
    }
  }

  // ---- Unification -------------------------------------------------------------------------------

  /** A repeated variable compares its terms by their printed text. */
  function Unify(p: SExpr, t: SExpr, b: Binding): Option<Binding>
    decreases p, 1
  {
    match p
    case Var(name) =>
      if name in b then (if Serialize(b[name]) == Serialize(t) then Some(b) else None) else Some(b[name := t])
    case Sym(name) => if t.Sym? && t.name == name then Some(b) else None
    case List(items) => if t.List? && |t.items| == |items| then UnifyAll(items, t.items, b) else None
  }

  function UnifyAll(ps: seq<SExpr>, ts: seq<SExpr>, b: Binding): Option<Binding>
    requires |ps| == |ts|
    decreases ps, 0
  {
    if ps == [] then Some(b)
    else
      var first := Unify(ps[0], ts[0], b);
      if first.None? then None else UnifyAll(ps[1..], ts[1..], first.value)
  }

  ghost predicate Extends(b: Binding, c: Binding) { forall x :: x in b ==> x in c && c[x] == b[x] }

  ghost predicate Printable(b: Binding) { forall x :: x in b ==> IsPrintable(b[x]) }

  /** a is e or inside it. */
  predicate Sub(a: SExpr, e: SExpr)
    decreases e, 1
  {
    a == e || (e.List? && SubAny(a, e.items))
  }

  predicate SubAny(a: SExpr, es: seq<SExpr>)
    decreases es, 0
  {
    es != [] && (Sub(a, es[0]) || SubAny(a, es[1..]))
  }

  /** No two different parts of the term print alike. */
  ghost predicate TextsDiffer(t: SExpr) {
    forall a, c :: Sub(a, t) && Sub(c, t) && Serialize(a) == Serialize(c) ==> a == c
  }

  ghost predicate Inside(b: Binding, top: SExpr) { forall x :: x in b ==> Sub(b[x], top) }

  ghost predicate AllInside(ts: seq<SExpr>, top: SExpr) { forall i :: 0 <= i < |ts| ==> Sub(ts[i], top) }

  lemma {:induction false} SubTrans(a: SExpr, e: SExpr, top: SExpr)
    requires Sub(a, e) && Sub(e, top)
    ensures Sub(a, top)
    decreases top, 1
  {
    if e != top {
      SubAnyTrans(a, e, top.items);
    }
  }

  lemma {:induction false} SubAnyTrans(a: SExpr, e: SExpr, es: seq<SExpr>)
    requires Sub(a, e) && SubAny(e, es)
    ensures SubAny(a, es)
    decreases es, 0
  {
    if Sub(e, es[0]) {
      SubTrans(a, e, es[0]);
    } else {
      SubAnyTrans(a, e, es[1..]);
    }
  }

  lemma {:induction false} ItemIsSub(es: seq<SExpr>, i: nat)
    requires i < |es|
    ensures SubAny(es[i], es)
  {
    if i > 0 {
      ItemIsSub(es[1..], i - 1);
    }
  }

  lemma ItemsInside(t: SExpr, top: SExpr)
    requires t.List? && Sub(t, top)
    ensures AllInside(t.items, top)
  {
    forall i: nat | i < |t.items| ensures Sub(t.items[i], top) {
      ItemIsSub(t.items, i);
      SubTrans(t.items[i], t, top);
    }
  }

  /** Against parts of a term whose parts all print differently, a binding found turns the pattern into the part. */
  lemma {:induction false} UnifySound(p: SExpr, t: SExpr, b: Binding, top: SExpr)
    requires TextsDiffer(top) && Sub(t, top) && Inside(b, top) && Unify(p, t, b).Some?
    ensures var c := Unify(p, t, b).value;
      Extends(b, c) && Inside(c, top) && c.Keys == b.Keys + Vars(p) && Instantiate(p, c) == t
    decreases p, 1
  {
    hide Sub, Serialize;
    if p.List? {
      ItemsInside(t, top);
      UnifyAllSound(p.items, t.items, b, top);
    }
  }

  lemma {:induction false} UnifyAllSound(ps: seq<SExpr>, ts: seq<SExpr>, b: Binding, top: SExpr)
    requires |ps| == |ts| && TextsDiffer(top) && AllInside(ts, top) && Inside(b, top) && UnifyAll(ps, ts, b).Some?
    ensures var c := UnifyAll(ps, ts, b).value;
      Extends(b, c) && Inside(c, top) && c.Keys == b.Keys + VarsAll(ps) && InstantiateAll(ps, c) == ts
    decreases ps, 0
  {
    hide TextsDiffer, Sub;
    if ps != [] {
      UnifySound(ps[0], ts[0], b, top);
      var mid := Unify(ps[0], ts[0], b).value;
      UnifyAllSound(ps[1..], ts[1..], mid, top);
      var c := UnifyAll(ps[1..], ts[1..], mid).value;
      InstantiateAgree(ps[0], mid, c);
      assert ts == [ts[0]] + ts[1..];
    }
  }

  /** Any substitution that turns the pattern into the term is found, as far as the pattern fixes it. */
  lemma {:induction false} UnifyComplete(p: SExpr, b: Binding, s: Binding)
    requires Extends(b, s) && Vars(p) <= s.Keys
    ensures Unify(p, Instantiate(p, s), b).Some? && Extends(Unify(p, Instantiate(p, s), b).value, s)
    decreases p, 1
  {
    if p.List? {
      UnifyAllComplete(p.items, b, s);
    }
  }

  lemma {:induction false} UnifyAllComplete(ps: seq<SExpr>, b: Binding, s: Binding)
    requires Extends(b, s) && VarsAll(ps) <= s.Keys
    ensures UnifyAll(ps, InstantiateAll(ps, s), b).Some? && Extends(UnifyAll(ps, InstantiateAll(ps, s), b).value, s)
    decreases ps, 0
  {
    if ps != [] {
      var ts := InstantiateAll(ps, s);
      assert ts[0] == Instantiate(ps[0], s) && ts[1..] == InstantiateAll(ps[1..], s);
      UnifyComplete(ps[0], b, s);
      UnifyAllComplete(ps[1..], Unify(ps[0], ts[0], b).value, s);
    }
  }

  ghost predicate IsInstance(p: SExpr, t: SExpr) { exists s: Binding :: Instantiate(p, s) == t }

  /** Against a term whose parts print differently, unification succeeds exactly when some substitution makes the pattern
      the term, and instantiating the pattern with the binding found gives the term. */
  lemma UnifyExactly(p: SExpr, t: SExpr)
    requires TextsDiffer(t)
    ensures Unify(p, t, map[]).Some? <==> IsInstance(p, t)
    ensures Unify(p, t, map[]).Some? ==> Instantiate(p, Unify(p, t, map[]).value) == t
  {
    hide TextsDiffer;
    if Unify(p, t, map[]).Some? {
      UnifySound(p, t, map[], t);
    }
    if IsInstance(p, t) {
      InstanceUnifies(p, t);
    }
  }

  lemma InstanceUnifies(p: SExpr, t: SExpr)
    requires IsInstance(p, t)
    ensures Unify(p, t, map[]).Some?
  {
    var s: Binding :| Instantiate(p, s) == t;
    var full: Binding := map x | x in Vars(p) + s.Keys :: if x in s then s[x] else Var(x);
    SameInstance(p, s, full);
    UnifyComplete(p, map[], full);
  }

  /** Leaving a variable alone and replacing it by itself are the same. */
  lemma {:induction false} SameInstance(p: SExpr, s: Binding, full: Binding)
    requires Vars(p) <= full.Keys && Extends(s, full) && forall x :: x in full && x !in s ==> full[x] == Var(x)
    ensures Instantiate(p, full) == Instantiate(p, s)
    decreases p, 1
  {
    if p.List? {
      SameInstances(p.items, s, full);
    }
  }

  lemma {:induction false} SameInstances(ps: seq<SExpr>, s: Binding, full: Binding)
    requires VarsAll(ps) <= full.Keys && Extends(s, full) && forall x :: x in full && x !in s ==> full[x] == Var(x)
    ensures InstantiateAll(ps, full) == InstantiateAll(ps, s)
    decreases ps, 0
  {
    if ps != [] {
      SameInstance(ps[0], s, full);
      SameInstances(ps[1..], s, full);
    }
  }

  // ---- Exactly when comparing texts is comparing terms -------------------------------------------------------

  lemma {:induction false} PrintableSub(a: SExpr, e: SExpr)
    requires IsPrintable(e) && Sub(a, e)
    ensures IsPrintable(a)
    decreases e, 1
  {
    if a != e {
      PrintableSubAny(a, e.items);
    }
  }

  lemma {:induction false} PrintableSubAny(a: SExpr, es: seq<SExpr>)
    requires AllPrintable(es) && SubAny(a, es)
    ensures IsPrintable(a)
    decreases es, 0
  {
    if Sub(a, es[0]) {
      PrintableSub(a, es[0]);
    } else {
      PrintableSubAny(a, es[1..]);
    }
  }

  /** The parts of a printable term print differently. */
  lemma PrintableTextsDiffer(t: SExpr)
    requires IsPrintable(t)
    ensures TextsDiffer(t)
  {
    hide IsPrintable, Sub, Serialize;
    forall a, c | Sub(a, t) && Sub(c, t) && Serialize(a) == Serialize(c) ensures a == c {
      PrintableSub(a, t);
      PrintableSub(c, t);
      SerializeInjective(a, c);
    }
  }

  /** A part of a term prints shorter than the term. */
  lemma {:induction false} PartIsShorter(a: SExpr, e: SExpr)
    requires Sub(a, e) && a != e
    ensures |Serialize(a)| < |Serialize(e)|
    decreases e, 1
  {
    PartFits(a, e.items);
  }

  lemma {:induction false} PartFits(a: SExpr, es: seq<SExpr>)
    requires SubAny(a, es)
    ensures |Serialize(a)| <= |Joined(SerializeAll(es))|
    decreases es, 0
  {
    var parts := SerializeAll(es);
    assert parts[0] == Serialize(es[0]) && parts[1..] == SerializeAll(es[1..]);
    if Sub(a, es[0]) {
      if a != es[0] {
        PartIsShorter(a, es[0]);
      }
    } else {
      PartFits(a, es[1..]);
    }
  }

  /** The pattern that asks for a and c to be one term: x in place of both, the rest as it is. */
  function Merged(u: SExpr, a: SExpr, c: SExpr, x: string): SExpr
    decreases u, 1
  {
    if u == a || u == c then Var(x) else if u.List? then List(MergedAll(u.items, a, c, x)) else u
  }

  function MergedAll(us: seq<SExpr>, a: SExpr, c: SExpr, x: string): (r: seq<SExpr>)
    ensures |r| == |us|
    decreases us, 0
  {
    if us == [] then [] else [Merged(us[0], a, c, x)] + MergedAll(us[1..], a, c, x)
  }

  /** While the merged pattern is unified, x stands for text and any other variable for itself. */
  ghost predicate BindsText(b: Binding, x: string, text: string) {
    && (x in b ==> Serialize(b[x]) == text)
    && forall y :: y in b && y != x ==> b[y] == Var(y)
  }

  lemma {:induction false} MergedUnifies(u: SExpr, a: SExpr, c: SExpr, x: string, b: Binding)
    requires Serialize(a) == Serialize(c) && x !in Vars(u) && BindsText(b, x, Serialize(a))
    ensures var r := Unify(Merged(u, a, c, x), u, b); r.Some? && BindsText(r.value, x, Serialize(a))
    decreases u, 1
  {
    hide Serialize;
    if u.List? && u != a && u != c {
      AllMergedUnify(u.items, a, c, x, b);
    }
  }

  lemma {:induction false} AllMergedUnify(us: seq<SExpr>, a: SExpr, c: SExpr, x: string, b: Binding)
    requires Serialize(a) == Serialize(c) && x !in VarsAll(us) && BindsText(b, x, Serialize(a))
    ensures var r := UnifyAll(MergedAll(us, a, c, x), us, b); r.Some? && BindsText(r.value, x, Serialize(a))
    decreases us, 0
  {
    hide Serialize, BindsText;
    if us != [] {
      var ps := MergedAll(us, a, c, x);
      assert ps[0] == Merged(us[0], a, c, x) && ps[1..] == MergedAll(us[1..], a, c, x);
      MergedUnifies(us[0], a, c, x, b);
      AllMergedUnify(us[1..], a, c, x, Unify(ps[0], us[0], b).value);
    }
  }

  /** Had the merged pattern an instance, x would stand for each of the two terms. */
  lemma {:induction false} MergedFixes(u: SExpr, a: SExpr, c: SExpr, x: string, s: Binding, target: SExpr)
    requires target in {a, c} && Serialize(a) == Serialize(c) && Sub(target, u) && Instantiate(Merged(u, a, c, x), s) == u
    ensures Instantiate(Var(x), s) == target
    decreases u, 1
  {
    hide Serialize;
    if u == a || u == c {
      if u != target {
        PartIsShorter(target, u);
      }
    } else {
      AllMergedFix(u.items, a, c, x, s, target);
    }
  }

  lemma {:induction false} AllMergedFix(us: seq<SExpr>, a: SExpr, c: SExpr, x: string, s: Binding, target: SExpr)
    requires target in {a, c} && Serialize(a) == Serialize(c) && SubAny(target, us) && InstantiateAll(MergedAll(us, a, c, x), s) == us
    ensures Instantiate(Var(x), s) == target
    decreases us, 0
  {
    hide Serialize;
    var ps := MergedAll(us, a, c, x);
    assert ps[0] == Merged(us[0], a, c, x) && ps[1..] == MergedAll(us[1..], a, c, x);
    assert us == [Instantiate(ps[0], s)] + InstantiateAll(ps[1..], s);
    if Sub(target, us[0]) {
      MergedFixes(us[0], a, c, x, s, target);
    } else {
      AllMergedFix(us[1..], a, c, x, s, target);
    }
  }

  lemma {:induction false} FreshName(names: set<string>) returns (x: string)
    ensures forall y :: y in names ==> |y| < |x|
    decreases names
  {
    if names == {} {
      x := "x";
    } else {
      var y :| y in names;
      var longer := FreshName(names - {y});
      x := longer + y + "x";
    }
  }

  /** Unification against t finds the instances and nothing else. */
  ghost predicate AlwaysRight(t: SExpr) { forall p :: Unify(p, t, map[]).Some? <==> IsInstance(p, t) }

  /** Comparing by printed text is right for every pattern exactly when no two different parts of the term print alike. */
  lemma TextDecidesExactly(t: SExpr)
    ensures AlwaysRight(t) <==> TextsDiffer(t)
  {
    hide Sub, Serialize, IsInstance, Unify;
    if TextsDiffer(t) {
      forall p ensures Unify(p, t, map[]).Some? <==> IsInstance(p, t) {
        UnifyExactly(p, t);
      }
    } else {
      var a, c :| Sub(a, t) && Sub(c, t) && Serialize(a) == Serialize(c) && a != c;
      var p := MergedMisleads(t, a, c);
    }
  }

  /** Two parts that print alike: a pattern that unifies and has no instance. */
  lemma MergedMisleads(t: SExpr, a: SExpr, c: SExpr) returns (p: SExpr)
    requires Sub(a, t) && Sub(c, t) && Serialize(a) == Serialize(c) && a != c
    ensures Unify(p, t, map[]).Some? && !IsInstance(p, t)
  {
    hide Sub, Serialize, Unify, Instantiate;
    var x := FreshName(Vars(t));
    p := Merged(t, a, c, x);
    MergedUnifies(t, a, c, x, map[]);
    forall s: Binding ensures Instantiate(p, s) != t {
      if Instantiate(p, s) == t {
        MergedFixes(t, a, c, x, s, a);
        MergedFixes(t, a, c, x, s, c);
      }
    }
  }

  /** Without printability the printed text can mislead: two different terms that print alike. */
  lemma TextCanMislead()
    ensures var p := List([Var("x"), Var("x")]);
            var t := List([Sym("(a)"), List([Sym("a")])]);
      Unify(p, t, map[]).Some? && !IsInstance(p, t)
  {
    var ps := [Var("x"), Var("x")];
    var ts := [Sym("(a)"), List([Sym("a")])];
    var b := map["x" := Sym("(a)")];
    assert SerializeAll([Sym("a")]) == ["a"];
    assert Serialize(ts[1]) == "(" + "a" + ")";
    assert Unify(ps[0], ts[0], map[]) == Some(b);
    assert Unify(ps[1], ts[1], b) == Some(b);
    assert ps[1..][1..] == [];
    forall s: Binding ensures Instantiate(List(ps), s) != List(ts) {
      var r := InstantiateAll(ps, s);
      assert r[0] == Instantiate(ps[0], s) && r[1] == InstantiateAll(ps[1..], s)[0];
      assert ts[0] != ts[1];
    }
  }

  // ---- Grounded operations -------------------------------------------------------------------------

  predicate IsDigits(s: string) { s != "" && forall i :: 0 <= i < |s| ==> Decimal.IsDigit(s[i]) }

  /** An optional minus sign and digits. */
  predicate IsNum(e: SExpr) {
    e.Sym? && (IsDigits(e.name) || (|e.name| > 1 && e.name[0] == '-' && IsDigits(e.name[1..])))
  }

  function NumberOf(e: SExpr): int
    requires IsNum(e)
  {
    if IsDigits(e.name) then Decimal.Value(e.name) else 0 - Decimal.Value(e.name[1..])
  }

  function Num(n: int): SExpr { Sym(if n < 0 then "-" + Decimal.ToString(-n) else Decimal.ToString(n)) }

  function Truth(b: bool): SExpr { Sym(if b then "True" else "False") }

  lemma NumRoundTrip(n: int)
    ensures IsNum(Num(n)) && NumberOf(Num(n)) == n && IsPrintable(Num(n))
  {
    var m := if n < 0 then -n else n;
    var s := Decimal.ToString(m);
    Decimal.RoundTrip(m);
    assert ("-" + s)[1..] == s && !Decimal.IsDigit('-');
    assert forall c :: Decimal.IsDigit(c) ==> !Ends(c) && c != '$';
  }

  /** The arithmetic and comparison operations. */
  function Operate(op: string, x: int, y: int): Option<SExpr> {
    if op == "+" then Some(Num(x + y))
    else if op == "-" then Some(Num(x - y))
    else if op == "*" then Some(Num(x * y))
    else if op == "<" then Some(Truth(x < y))
    else if op == ">" then Some(Truth(x > y))
    else if op == "<=" then Some(Truth(x <= y))
    else if op == ">=" then Some(Truth(x >= y))
    else None
  }

  function Grounded(e: SExpr): Option<SExpr> {
    if !e.List? || |e.items| != 3 || !e.items[0].Sym? then None
    else if e.items[0].name == "==" then Some(Truth(Serialize(e.items[1]) == Serialize(e.items[2])))
    else if !IsNum(e.items[1]) || !IsNum(e.items[2]) then None
    else Operate(e.items[0].name, NumberOf(e.items[1]), NumberOf(e.items[2]))
  }

  /** An operation applied to two terms. */
  function Applied(op: string, a: SExpr, b: SExpr): SExpr { List([Sym(op), a, b]) }

  ghost predicate IsNumber(r: Option<SExpr>, n: int) { r.Some? && IsNum(r.value) && NumberOf(r.value) == n }

  /** Sums, differences and products of numbers are numbers with the value of the integers' operation. */
  lemma GroundedArithmetic(a: SExpr, b: SExpr)
    requires IsNum(a) && IsNum(b)
    ensures IsNumber(Grounded(Applied("+", a, b)), NumberOf(a) + NumberOf(b))
    ensures IsNumber(Grounded(Applied("-", a, b)), NumberOf(a) - NumberOf(b))
    ensures IsNumber(Grounded(Applied("*", a, b)), NumberOf(a) * NumberOf(b))
  {
    hide Num, NumberOf, IsNum;
    NumRoundTrip(NumberOf(a) + NumberOf(b));
    NumRoundTrip(NumberOf(a) - NumberOf(b));
    NumRoundTrip(NumberOf(a) * NumberOf(b));
  }

  ghost predicate IsTrue(r: Option<SExpr>) { r == Some(Sym("True")) }

  ghost predicate IsFalse(r: Option<SExpr>) { r == Some(Sym("False")) }

  /** Comparisons of numbers give the symbol True or False, as the integers compare. */
  lemma GroundedComparison(a: SExpr, b: SExpr)
    requires IsNum(a) && IsNum(b)
    ensures if NumberOf(a) < NumberOf(b) then IsTrue(Grounded(Applied("<", a, b))) else IsFalse(Grounded(Applied("<", a, b)))
    ensures if NumberOf(a) > NumberOf(b) then IsTrue(Grounded(Applied(">", a, b))) else IsFalse(Grounded(Applied(">", a, b)))
    ensures if NumberOf(a) <= NumberOf(b) then IsTrue(Grounded(Applied("<=", a, b))) else IsFalse(Grounded(Applied("<=", a, b)))
    ensures if NumberOf(a) >= NumberOf(b) then IsTrue(Grounded(Applied(">=", a, b))) else IsFalse(Grounded(Applied(">=", a, b)))
  {
    hide Num, NumberOf, IsNum;
  }

  /** Equality is for all terms, by their text; of printable terms it holds exactly for the same term. */
  lemma GroundedEquality(a: SExpr, b: SExpr)
    ensures if Serialize(a) == Serialize(b) then IsTrue(Grounded(Applied("==", a, b))) else IsFalse(Grounded(Applied("==", a, b)))
    ensures IsPrintable(a) && IsPrintable(b) ==> (IsTrue(Grounded(Applied("==", a, b))) <==> a == b)
  {
    hide Serialize, IsPrintable;
    if IsPrintable(a) && IsPrintable(b) {
      SerializeInjective(a, b);
    }
  }

  /** Nothing else is a grounded operation. */
  lemma GroundedOnly(e: SExpr)
    ensures Grounded(e).Some? <==> exists op, a, b :: IsOperation(e, op, a, b)
  {
    hide IsNum, NumberOf, Num, Serialize;
    if Grounded(e).Some? {
      assert e.items == [e.items[0], e.items[1], e.items[2]];
      assert IsOperation(e, e.items[0].name, e.items[1], e.items[2]);
    }
  }

  predicate IsOperation(e: SExpr, op: string, a: SExpr, b: SExpr) {
    e == List([Sym(op), a, b]) && (op == "==" || (op in {"+", "-", "*", "<", ">", "<=", ">="} && IsNum(a) && IsNum(b)))
  }

  /** Every integer is written in decimal, with a minus sign if it is negative, and read back; leading zeros are read, a
      lone sign or a fraction is no number. */
  lemma NumbersRead()
    ensures forall n :: IsNum(Num(n)) && NumberOf(Num(n)) == n
    ensures Num(-12) == Sym("-12") && IsNum(Sym("007")) && NumberOf(Sym("007")) == 7 && !IsNum(Sym("")) && !IsNum(Sym("-")) && !IsNum(Sym("1.5"))
  {
    forall n ensures IsNum(Num(n)) && NumberOf(Num(n)) == n {
      NumRoundTrip(n);
    }
    assert Decimal.ToString(12) == "12";
    assert Num(-12) == Sym("-" + "12");
    assert "1.5"[1] == '.';
    assert Decimal.Value("007") == 7;
  }

  lemma OperatePrintable(op: string, x: int, y: int)
    ensures Operate(op, x, y).Some? ==> Operate(op, x, y).value.Sym? && IsPrintable(Operate(op, x, y).value)
  {
    hide Num;
    NumIsSym(x + y);
    NumIsSym(x - y);
    NumIsSym(x * y);
    TruthPrintable();
  }

  lemma NumIsSym(n: int)
    ensures Num(n).Sym? && IsPrintable(Num(n))
  {
    NumRoundTrip(n);
  }

  lemma TruthPrintable()
    ensures forall b :: Truth(b).Sym? && IsPrintable(Truth(b))
  {}

  lemma GroundedPrintable(e: SExpr)
    ensures Grounded(e).Some? ==> Grounded(e).value.Sym? && IsPrintable(Grounded(e).value)
  {
    hide Operate, Truth, IsPrintable;
    TruthPrintable();
    if e.List? && |e.items| == 3 && e.items[0].Sym? && IsNum(e.items[1]) && IsNum(e.items[2]) {
      OperatePrintable(e.items[0].name, NumberOf(e.items[1]), NumberOf(e.items[2]));
    }
  }

  // ---- Rewriting ---------------------------------------------------------------------------------

  datatype Rule = Rule(lhs: SExpr, rhs: SExpr)

  /** What the first rule from i whose left side matches makes of e. */
  function FirstMatch(rules: seq<Rule>, e: SExpr, i: nat): Option<SExpr>
    requires i <= |rules|
    decreases |rules| - i
  {
    if i == |rules| then None
    else
      var b := Unify(rules[i].lhs, e, map[]);
      if b.Some? then Some(Instantiate(rules[i].rhs, b.value)) else FirstMatch(rules, e, i + 1)
  }

  /** It is the first: the rules before it do not match. */
  lemma {:induction false} FirstMatchIsFirst(rules: seq<Rule>, e: SExpr, i: nat)
    requires i <= |rules|
    ensures FirstMatch(rules, e, i).None? <==> forall k :: i <= k < |rules| ==> Unify(rules[k].lhs, e, map[]).None?
    ensures FirstMatch(rules, e, i).Some? ==> exists k :: IsFirst(rules, e, i, k) && FirstMatch(rules, e, i).value == Instantiate(rules[k].rhs, Unify(rules[k].lhs, e, map[]).value)
    decreases |rules| - i
  {
    hide Unify, Instantiate;
    if i < |rules| {
      if Unify(rules[i].lhs, e, map[]).Some? {
        assert IsFirst(rules, e, i, i);
      } else {
        FirstMatchIsFirst(rules, e, i + 1);
        if FirstMatch(rules, e, i).Some? {
          var k :| IsFirst(rules, e, i + 1, k) && FirstMatch(rules, e, i).value == Instantiate(rules[k].rhs, Unify(rules[k].lhs, e, map[]).value);
          assert IsFirst(rules, e, i, k);
        }
      }
    }
  }

  predicate IsFirst(rules: seq<Rule>, e: SExpr, i: nat, k: int) {
    i <= k < |rules| && Unify(rules[k].lhs, e, map[]).Some? && forall j :: i <= j < k ==> Unify(rules[j].lhs, e, map[]).None?
  }

  predicate IsIf(e: SExpr) { e.List? && |e.items| == 4 && e.items[0] == Sym("if") }

  function Branch(e: SExpr, cond: SExpr): SExpr
    requires IsIf(e)
  {
    if Serialize(cond) == "True" then e.items[2] else e.items[3]
  }

  function Clip(n: int): nat { if n > 0 then n else 0 }

  /** The result and the budget left. Rules may grow terms, but every rewrite costs one step. */
  function Reduce(e: SExpr, rules: seq<Rule>, n: int): (r: (SExpr, int))
    ensures r.1 <= n
    decreases Clip(n), e, 1
  {
    if n <= 0 || !e.List? then (e, n)
    else if IsIf(e) then
      var c := Reduce(e.items[1], rules, n - 1);
      Reduce(Branch(e, c.0), rules, c.1)
    else
      var children := ReduceAll(e.items, rules, n);
      var e' := List(children.0);
      if Grounded(e').Some? then Reduce(Grounded(e').value, rules, children.1 - 1)
      else if FirstMatch(rules, e', 0).Some? then Reduce(FirstMatch(rules, e', 0).value, rules, children.1 - 1)
      else (e', children.1)
  }

  function ReduceAll(es: seq<SExpr>, rules: seq<Rule>, n: int): (r: (seq<SExpr>, int))
    ensures r.1 <= n && |r.0| == |es|
    decreases Clip(n), es, 0
  {
    if es == [] then ([], n)
    else
      var first := Reduce(es[0], rules, n);
      var rest := ReduceAll(es[1..], rules, first.1);
      ([first.0] + rest.0, rest.1)
  }

  // ---- Evaluation keeps terms printable --------------------------------------------------------------

  ghost predicate RulesPrintable(rules: seq<Rule>) { forall i :: 0 <= i < |rules| ==> IsPrintable(rules[i].rhs) }

  lemma {:induction false} InstantiatePrintable(t: SExpr, b: Binding)
    requires IsPrintable(t) && Printable(b)
    ensures IsPrintable(Instantiate(t, b))
    decreases t, 1
  {
    if t.List? {
      InstantiateAllPrintable(t.items, b);
    }
  }

  lemma {:induction false} InstantiateAllPrintable(ts: seq<SExpr>, b: Binding)
    requires AllPrintable(ts) && Printable(b)
    ensures AllPrintable(InstantiateAll(ts, b))
    decreases ts, 0
  {
    if ts != [] {
      InstantiatePrintable(ts[0], b);
      InstantiateAllPrintable(ts[1..], b);
      assert InstantiateAll(ts, b)[1..] == InstantiateAll(ts[1..], b);
    }
  }

  lemma InsidePrintable(b: Binding, e: SExpr)
    requires Inside(b, e) && IsPrintable(e)
    ensures Printable(b)
  {
    forall x | x in b ensures IsPrintable(b[x]) {
      PrintableSub(b[x], e);
    }
  }

  lemma {:induction false} FirstMatchPrintable(rules: seq<Rule>, e: SExpr, i: nat)
    requires RulesPrintable(rules) && IsPrintable(e) && i <= |rules|
    ensures FirstMatch(rules, e, i).Some? ==> IsPrintable(FirstMatch(rules, e, i).value)
    decreases |rules| - i
  {
    if i < |rules| {
      var b := Unify(rules[i].lhs, e, map[]);
      if b.Some? {
        PrintableTextsDiffer(e);
        UnifySound(rules[i].lhs, e, map[], e);
        InsidePrintable(b.value, e);
        InstantiatePrintable(rules[i].rhs, b.value);
      } else {
        FirstMatchPrintable(rules, e, i + 1);
      }
    }
  }

  lemma ItemPrintable(es: seq<SExpr>, i: nat)
    requires AllPrintable(es) && i < |es|
    ensures IsPrintable(es[i])
  {
    if i > 0 {
      ItemPrintable(es[1..], i - 1);
    }
  }

  /** So every comparison by printed text that evaluation makes is a comparison of terms. */
  lemma {:induction false} ReducePrintable(e: SExpr, rules: seq<Rule>, n: int)
    requires RulesPrintable(rules) && IsPrintable(e)
    ensures IsPrintable(Reduce(e, rules, n).0)
    decreases Clip(n), e, 1
  {
    if n > 0 && e.List? {
      if IsIf(e) {
        ItemPrintable(e.items, 2);
        ItemPrintable(e.items, 3);
        ReducePrintable(Branch(e, Reduce(e.items[1], rules, n - 1).0), rules, Reduce(e.items[1], rules, n - 1).1);
      } else {
        ReduceAllPrintable(e.items, rules, n);
        var children := ReduceAll(e.items, rules, n);
        var e' := List(children.0);
        GroundedPrintable(e');
        FirstMatchPrintable(rules, e', 0);
        if Grounded(e').Some? {
          ReducePrintable(Grounded(e').value, rules, children.1 - 1);
        } else if FirstMatch(rules, e', 0).Some? {
          ReducePrintable(FirstMatch(rules, e', 0).value, rules, children.1 - 1);
        }
      }
    }
  }

  lemma {:induction false} ReduceAllPrintable(es: seq<SExpr>, rules: seq<Rule>, n: int)
    requires RulesPrintable(rules) && AllPrintable(es)
    ensures AllPrintable(ReduceAll(es, rules, n).0)
    decreases Clip(n), es, 0
  {
    if es != [] {
      var first := Reduce(es[0], rules, n);
      ReducePrintable(es[0], rules, n);
      ReduceAllPrintable(es[1..], rules, first.1);
      assert ReduceAll(es, rules, n).0[1..] == ReduceAll(es[1..], rules, first.1).0;
    }
  }

  // ---- Normal forms ------------------------------------------------------------------------------

  /** No list inside e is a grounded operation that applies or is matched by a rule. */
  ghost predicate IsNormal(rules: seq<Rule>, e: SExpr) {
    e.List? ==> Grounded(e) == None && FirstMatch(rules, e, 0) == None && AllNormal(rules, e.items)
  }

  ghost predicate AllNormal(rules: seq<Rule>, es: seq<SExpr>) {
    es == [] || (IsNormal(rules, es[0]) && AllNormal(rules, es[1..]))
  }

  /** With budget to spare, the result is a normal form. */
  lemma {:induction false} ReduceNormal(e: SExpr, rules: seq<Rule>, n: int)
    ensures Reduce(e, rules, n).1 > 0 ==> IsNormal(rules, Reduce(e, rules, n).0)
    decreases Clip(n), e, 1
  {
    hide Grounded, FirstMatch, Branch;
    if n > 0 && e.List? {
      if IsIf(e) {
        var c := Reduce(e.items[1], rules, n - 1);
        ReduceNormal(Branch(e, c.0), rules, c.1);
      } else {
        var children := ReduceAll(e.items, rules, n);
        var e' := List(children.0);
        if Grounded(e').Some? {
          ReduceNormal(Grounded(e').value, rules, children.1 - 1);
        } else if FirstMatch(rules, e', 0).Some? {
          ReduceNormal(FirstMatch(rules, e', 0).value, rules, children.1 - 1);
        } else {
          ReduceAllNormal(e.items, rules, n);
        }
      }
    }
  }

  lemma {:induction false} ReduceAllNormal(es: seq<SExpr>, rules: seq<Rule>, n: int)
    ensures ReduceAll(es, rules, n).1 > 0 ==> AllNormal(rules, ReduceAll(es, rules, n).0)
    decreases Clip(n), es, 0
  {
    hide Grounded, FirstMatch;
    if es != [] {
      var first := Reduce(es[0], rules, n);
      ReduceNormal(es[0], rules, n);
      ReduceAllNormal(es[1..], rules, first.1);
      assert ReduceAll(es, rules, n).0[1..] == ReduceAll(es[1..], rules, first.1).0;
    }
  }

  /** No conditional is left anywhere. */
  ghost predicate NoIf(e: SExpr) { e.List? ==> !IsIf(e) && NoIfs(e.items) }

  ghost predicate NoIfs(es: seq<SExpr>) { es == [] || (NoIf(es[0]) && NoIfs(es[1..])) }

  /** A normal form without conditionals is left as it is, at no cost. */
  lemma {:induction false} NormalIsFixed(e: SExpr, rules: seq<Rule>, n: int)
    requires IsNormal(rules, e) && NoIf(e)
    ensures Reduce(e, rules, n) == (e, n)
    decreases e, 1
  {
    if n > 0 && e.List? {
      NormalsAreFixed(e.items, rules, n);
    }
  }

  lemma {:induction false} NormalsAreFixed(es: seq<SExpr>, rules: seq<Rule>, n: int)
    requires AllNormal(rules, es) && NoIfs(es)
    ensures ReduceAll(es, rules, n) == (es, n)
    decreases es, 0
  {
    if es != [] {
      NormalIsFixed(es[0], rules, n);
      NormalsAreFixed(es[1..], rules, n);
      assert es == [es[0]] + es[1..];
    }
  }

  // ---- The order of evaluation ----------------------------------------------------------------------

  /** Arguments come first: evaluating them and then the list of their values is evaluating the list. */
  lemma ArgumentsFirst(es: seq<SExpr>, rules: seq<Rule>, n: int)
    requires n > 0 && !IsIf(List(es))
    requires ReduceAll(es, rules, n).1 > 0 && NoIfs(ReduceAll(es, rules, n).0) && !IsIf(List(ReduceAll(es, rules, n).0))
    ensures Reduce(List(es), rules, n) == Reduce(List(ReduceAll(es, rules, n).0), rules, ReduceAll(es, rules, n).1)
  {
    hide Grounded, FirstMatch, NoIfs;
    var values := ReduceAll(es, rules, n);
    ReduceAllNormal(es, rules, n);
    NormalsAreFixed(values.0, rules, values.1);
  }

  /** A list of values is first tried as a grounded operation, then with the rules; either costs one step. */
  lemma GroundedBeforeRules(es: seq<SExpr>, rules: seq<Rule>, n: int)
    requires n > 0 && !IsIf(List(es)) && AllNormal(rules, es) && NoIfs(es)
    ensures Grounded(List(es)).Some? ==> Reduce(List(es), rules, n) == Reduce(Grounded(List(es)).value, rules, n - 1)
    ensures Grounded(List(es)).None? && FirstMatch(rules, List(es), 0).Some? ==>
      Reduce(List(es), rules, n) == Reduce(FirstMatch(rules, List(es), 0).value, rules, n - 1)
  {
    hide Grounded, FirstMatch, NoIfs;
    NormalsAreFixed(es, rules, n);
  }

  /** A conditional evaluates its condition, then the first branch if that gives the symbol True and the second one
      otherwise; the other branch has no influence, and the choice costs one step. */
  lemma ConditionalIs(c: SExpr, a: SExpr, b: SExpr, rules: seq<Rule>, n: int)
    requires n > 0
    ensures var (cond, left) := Reduce(c, rules, n - 1);
      Reduce(List([Sym("if"), c, a, b]), rules, n) == if cond == Sym("True") then Reduce(a, rules, left) else Reduce(b, rules, left)
  {
    PrintsTrue(Reduce(c, rules, n - 1).0);
  }

  // ---- Which positions are rewritten ------------------------------------------------------------------

  /** No position at all, leaves included, is matched by a rule or is a grounded operation. */
  ghost predicate IsFullyNormal(rules: seq<Rule>, e: SExpr) {
    Grounded(e) == None && FirstMatch(rules, e, 0) == None && (e.List? ==> AllFullyNormal(rules, e.items))
  }

  ghost predicate AllFullyNormal(rules: seq<Rule>, es: seq<SExpr>) {
    es == [] || (IsFullyNormal(rules, es[0]) && AllFullyNormal(rules, es[1..]))
  }

  predicate ListRules(rules: seq<Rule>) { forall i :: 0 <= i < |rules| ==> rules[i].lhs.List? }

  ghost predicate AlwaysFullyNormal(rules: seq<Rule>) {
    forall e, n: int :: Reduce(e, rules, n).1 > 0 ==> IsFullyNormal(rules, Reduce(e, rules, n).0)
  }

  lemma {:induction false} LeafUnmatched(rules: seq<Rule>, e: SExpr, i: nat)
    requires ListRules(rules) && !e.List? && i <= |rules|
    ensures FirstMatch(rules, e, i) == None
    decreases |rules| - i
  {
    if i < |rules| {
      LeafUnmatched(rules, e, i + 1);
    }
  }

  lemma {:induction false} NormalIsFull(rules: seq<Rule>, e: SExpr)
    requires ListRules(rules) && IsNormal(rules, e)
    ensures IsFullyNormal(rules, e)
    decreases e, 1
  {
    if e.List? {
      NormalsAreFull(rules, e.items);
    } else {
      LeafUnmatched(rules, e, 0);
    }
  }

  lemma {:induction false} NormalsAreFull(rules: seq<Rule>, es: seq<SExpr>)
    requires ListRules(rules) && AllNormal(rules, es)
    ensures AllFullyNormal(rules, es)
    decreases es, 0
  {
    if es != [] {
      NormalIsFull(rules, es[0]);
      NormalsAreFull(rules, es[1..]);
    }
  }

  lemma {:induction false} MatchFound(rules: seq<Rule>, e: SExpr, i: nat, k: nat)
    requires i <= k < |rules| && Unify(rules[k].lhs, e, map[]).Some?
    ensures FirstMatch(rules, e, i).Some?
    decreases |rules| - i
  {
    if i < k && Unify(rules[i].lhs, e, map[]).None? {
      MatchFound(rules, e, i + 1, k);
    }
  }

  /** Leaves are never rewritten: results are free of matches at every position exactly when all left sides are lists. */
  lemma FullyNormalExactly(rules: seq<Rule>)
    ensures AlwaysFullyNormal(rules) <==> ListRules(rules)
  {
    if ListRules(rules) {
      forall e, n: int | Reduce(e, rules, n).1 > 0 ensures IsFullyNormal(rules, Reduce(e, rules, n).0) {
        ReduceNormal(e, rules, n);
        NormalIsFull(rules, Reduce(e, rules, n).0);
      }
    } else {
      var k :| 0 <= k < |rules| && !rules[k].lhs.List?;
      var leaf := if rules[k].lhs.Sym? then rules[k].lhs else Sym("a");
      MatchFound(rules, leaf, 0, k);
      assert Reduce(leaf, rules, 1) == (leaf, 1);
    }
  }

  // ---- The result is reached by rewriting -------------------------------------------------------------

  ghost predicate RootStep(rules: seq<Rule>, a: SExpr, b: SExpr) {
    || Grounded(a) == Some(b)
    || FirstMatch(rules, a, 0) == Some(b)
    || (IsIf(a) && b == if a.items[1] == Sym("True") then a.items[2] else a.items[3])
  }

  /** One rewrite, at the root or inside one item. */
  ghost predicate Step(rules: seq<Rule>, a: SExpr, b: SExpr)
    decreases a
  {
    RootStep(rules, a, b) ||
    (a.List? && b.List? && |a.items| == |b.items| &&
     exists i :: 0 <= i < |a.items| && Step(rules, a.items[i], b.items[i]) && b.items == a.items[i := b.items[i]])
  }

  /** k rewrites lead from a to b. */
  ghost predicate Derives(rules: seq<Rule>, a: SExpr, b: SExpr, k: nat)
    decreases k
  {
    if k == 0 then a == b else exists c :: Step(rules, a, c) && Derives(rules, c, b, k - 1)
  }

  lemma {:induction false} DerivesTrans(rules: seq<Rule>, a: SExpr, b: SExpr, c: SExpr, j: nat, k: nat)
    requires Derives(rules, a, b, j) && Derives(rules, b, c, k)
    ensures Derives(rules, a, c, j + k)
    decreases j
  {
    if j > 0 {
      var x :| Step(rules, a, x) && Derives(rules, x, b, j - 1);
      DerivesTrans(rules, x, b, c, j - 1, k);
    }
  }

  lemma DerivesStep(rules: seq<Rule>, a: SExpr, b: SExpr)
    requires Step(rules, a, b)
    ensures Derives(rules, a, b, 1)
  {
    assert Derives(rules, b, b, 0);
  }

  /** Rewriting one item rewrites the list. */
  lemma {:induction false} DerivesInside(rules: seq<Rule>, es: seq<SExpr>, i: nat, x: SExpr, k: nat)
    requires i < |es| && Derives(rules, es[i], x, k)
    ensures Derives(rules, List(es), List(es[i := x]), k)
    decreases k
  {
    if k == 0 {
      assert es[i := x] == es;
    } else {
      var c :| Step(rules, es[i], c) && Derives(rules, c, x, k - 1);
      var mid := es[i := c];
      DerivesInside(rules, mid, i, x, k - 1);
      assert mid[i := x] == es[i := x];
      StepInside(rules, es, i, c);
    }
  }

  lemma StepInside(rules: seq<Rule>, es: seq<SExpr>, i: nat, c: SExpr)
    requires i < |es| && Step(rules, es[i], c)
    ensures Step(rules, List(es), List(es[i := c]))
  {
    var a, b := List(es), List(es[i := c]);
    assert Step(rules, a.items[i], b.items[i]) && b.items == a.items[i := b.items[i]];
  }

  lemma PrintsTrue(e: SExpr)
    ensures Serialize(e) == "True" <==> e == Sym("True")
  {
    assert "True"[0] == 'T';
  }

  /** The result is reached from the expression by exactly as many rewrites as the budget went down. */
  lemma {:induction false} ReduceDerives(e: SExpr, rules: seq<Rule>, n: int)
    ensures Derives(rules, e, Reduce(e, rules, n).0, n - Reduce(e, rules, n).1)
    decreases Clip(n), e, 1
  {
    hide Grounded, FirstMatch, Derives, Step;
    if n <= 0 || !e.List? {
      DerivesSelf(rules, e);
    } else if IsIf(e) {
      ReduceIfDerives(e, rules, n);
    } else {
      var children := ReduceAll(e.items, rules, n);
      var e' := List(children.0);
      ReduceAllDerives([], e.items, rules, n);
      assert [] + e.items == e.items && [] + children.0 == children.0;
      if Grounded(e').Some? {
        RootDerives(rules, e', Grounded(e').value);
        ReduceDerives(Grounded(e').value, rules, children.1 - 1);
        ThenThen(rules, e, e', Grounded(e').value, n, children.1, Reduce(e, rules, n).0, Reduce(e, rules, n).1);
      } else if FirstMatch(rules, e', 0).Some? {
        RootDerives(rules, e', FirstMatch(rules, e', 0).value);
        ReduceDerives(FirstMatch(rules, e', 0).value, rules, children.1 - 1);
        ThenThen(rules, e, e', FirstMatch(rules, e', 0).value, n, children.1, Reduce(e, rules, n).0, Reduce(e, rules, n).1);
      }
    }
  }

  lemma DerivesSelf(rules: seq<Rule>, e: SExpr)
    ensures Derives(rules, e, e, 0)
  {}

  lemma RootDerives(rules: seq<Rule>, a: SExpr, b: SExpr)
    requires RootStep(rules, a, b)
    ensures Derives(rules, a, b, 1)
  {
    DerivesStep(rules, a, b);
  }

  /** Some rewrites, one at the root, some more. */
  lemma ThenThen(rules: seq<Rule>, a: SExpr, b: SExpr, c: SExpr, n: int, mid: int, d: SExpr, left: int)
    requires mid <= n && left <= mid - 1
    requires Derives(rules, a, b, n - mid) && Derives(rules, b, c, 1) && Derives(rules, c, d, mid - 1 - left)
    ensures Derives(rules, a, d, n - left)
  {
    hide Derives;
    DerivesTrans(rules, a, b, c, n - mid, 1);
    DerivesTrans(rules, a, c, d, n - mid + 1, mid - 1 - left);
  }

  lemma {:induction false} ReduceIfDerives(e: SExpr, rules: seq<Rule>, n: int)
    requires n > 0 && IsIf(e)
    ensures Derives(rules, e, Reduce(e, rules, n).0, n - Reduce(e, rules, n).1)
    decreases Clip(n), e, 0
  {
    hide Grounded, FirstMatch, Derives, Step;
    var c := Reduce(e.items[1], rules, n - 1);
    var branch := Branch(e, c.0);
    var chosen := List(e.items[1 := c.0]);
    ReduceDerives(e.items[1], rules, n - 1);
    DerivesInside(rules, e.items, 1, c.0, n - 1 - c.1);
    PrintsTrue(c.0);
    RootDerives(rules, chosen, branch);
    ReduceDerives(branch, rules, c.1);
    ThenThen(rules, e, chosen, branch, n, c.1 + 1, Reduce(e, rules, n).0, Reduce(e, rules, n).1);
  }

  lemma {:induction false} ReduceAllDerives(before: seq<SExpr>, es: seq<SExpr>, rules: seq<Rule>, n: int)
    ensures Derives(rules, List(before + es), List(before + ReduceAll(es, rules, n).0), n - ReduceAll(es, rules, n).1)
    decreases Clip(n), es, 0
  {
    hide Grounded, FirstMatch, Derives, Step, Reduce;
    if es == [] {
      DerivesSelf(rules, List(before + es));
    } else {
      var first := Reduce(es[0], rules, n);
      var rest := ReduceAll(es[1..], rules, first.1);
      var all, done := before + es, before + [first.0];
      ReduceDerives(es[0], rules, n);
      DerivesInside(rules, all, |before|, first.0, n - first.1);
      assert all[|before| := first.0] == done + es[1..];
      ReduceAllDerives(done, es[1..], rules, first.1);
      assert done + rest.0 == before + ReduceAll(es, rules, n).0;
      DerivesTrans(rules, List(all), List(done + es[1..]), List(done + rest.0), n - first.1, first.1 - rest.1);
    }
  }

  // ---- The evaluator as the program runs it ------------------------------------------------------------

  class Budget {
    var n: int

    constructor (n: int)
      ensures this.n == n
    {
      this.n := n;
    }
  }

  method ReduceExpr(e: SExpr, rules: seq<Rule>, budget: Budget) returns (r: SExpr)
    modifies budget
    ensures (r, budget.n) == Reduce(e, rules, old(budget.n))
    decreases Clip(budget.n), e, 1
  {
    hide Grounded, FirstMatch, Unify, Instantiate;
    if budget.n <= 0 || !e.List? {
      return e;
    }
    if |e.items| == 4 && e.items[0] == Sym("if") {
      budget.n := budget.n - 1;
      var cond := ReduceExpr(e.items[1], rules, budget);
      r := ReduceExpr(if Serialize(cond) == "True" then e.items[2] else e.items[3], rules, budget);
      return;
    }
    var items := ReduceItems(e.items, rules, budget);
    var e' := List(items);
    var g := Grounded(e');
    if g.Some? {
      budget.n := budget.n - 1;
      r := ReduceExpr(g.value, rules, budget);
      return;
    }
    var rewritten := MatchRules(rules, e');
    if rewritten.Some? {
      budget.n := budget.n - 1;
      r := ReduceExpr(rewritten.value, rules, budget);
      return;
    }
    return e';
  }

  /** The items in order, each with the budget the ones before have left. */
  method ReduceItems(es: seq<SExpr>, rules: seq<Rule>, budget: Budget) returns (items: seq<SExpr>)
    modifies budget
    ensures (items, budget.n) == ReduceAll(es, rules, old(budget.n))
    decreases Clip(budget.n), es, 0
  {
    hide Reduce;
    items := [];
    ghost var whole := ReduceAll(es, rules, budget.n);
    assert es[0..] == es && [] + whole.0 == whole.0;
    for i := 0 to |es|
      invariant budget.n <= old(budget.n)
      invariant whole == (items + ReduceAll(es[i..], rules, budget.n).0, ReduceAll(es[i..], rules, budget.n).1)
    {
      assert es[i..][0] == es[i] && es[i..][1..] == es[i + 1..];
      var item := ReduceExpr(es[i], rules, budget);
      ghost var tail := ReduceAll(es[i + 1..], rules, budget.n);
      assert items + ([item] + tail.0) == items + [item] + tail.0;
      items := items + [item];
    }
    assert es[|es|..] == [] && items + [] == items;
  }

  /** The first rule whose left side matches, tried in order. */
  method MatchRules(rules: seq<Rule>, e: SExpr) returns (r: Option<SExpr>)
    ensures r == FirstMatch(rules, e, 0)
  {
    hide Unify, Instantiate;
    for i := 0 to |rules|
      invariant FirstMatch(rules, e, 0) == FirstMatch(rules, e, i)
    {
      var b := Unify(rules[i].lhs, e, map[]);
      if b.Some? {
        return Some(Instantiate(rules[i].rhs, b.value));
      }
    }
    return None;
  }

  method EvalSExpr(e: SExpr, rules: seq<Rule>, maxSteps: int) returns (r: SExpr)
    ensures r == Reduce(e, rules, maxSteps).0
  {
    var budget := new Budget(maxSteps);
    r := ReduceExpr(e, rules, budget);
  }
}
