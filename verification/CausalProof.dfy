/** Causal cuts, frame-bound proofs and cut compaction (ts/src/causal-proof.ts). */
module CausalProof {
  import Decimal

  // ---- Operations and cuts -----------------------------------------------------------------------

  type Writer = string

  datatype OpId = OpId(writer: Writer, seqno: nat)

  /** A version vector; a writer without an entry counts as 0. */
  type Cut = map<Writer, nat>

  function OpIdStr(op: OpId): string { op.writer + ":" + Decimal.ToString(op.seqno) }

  function At(cut: Cut, w: Writer): nat { if w in cut then cut[w] else 0 }

  predicate OpInCut(op: OpId, cut: Cut) { At(cut, op.writer) >= op.seqno }

  ghost predicate IsLastColon(s: string, p: nat) {
    p < |s| && s[p] == ':' && forall k :: p < k < |s| ==> s[k] != ':'
  }

  lemma LastColon(op: OpId)
    ensures IsLastColon(OpIdStr(op), |op.writer|)
  {
    var s, digits := OpIdStr(op), Decimal.ToString(op.seqno);
    forall k | |op.writer| < k < |s| ensures s[k] != ':' {
      assert s[k] == digits[k - |op.writer| - 1];
    }
  }

  /** The printed form identifies the operation, whatever characters the writer key has: the number after
      the last colon has no colon. */
  lemma OpIdStrInjective(a: OpId, b: OpId)
    ensures OpIdStr(a) == OpIdStr(b) <==> a == b
  {
    LastColon(a);
    LastColon(b);
    if OpIdStr(a) == OpIdStr(b) {
      var s, p := OpIdStr(a), |a.writer|;
      assert IsLastColon(s, p) && IsLastColon(s, |b.writer|);
      assert a.writer == s[..p] == b.writer;
      assert Decimal.ToString(a.seqno) == s[p + 1..] == Decimal.ToString(b.seqno);
      Decimal.Injective(a.seqno, b.seqno);
    }
  }

  // ---- The order of cuts -------------------------------------------------------------------------

  function Max(x: nat, y: nat): nat { if x > y then x else y }
  function Min(x: int, y: int): int { if x < y then x else y }

  /** a observes everything b does. */
  ghost predicate Subsumes(a: Cut, b: Cut) { forall w :: At(a, w) >= At(b, w) }

  method CutJoin(a: Cut, b: Cut) returns (out: Cut)
    ensures forall w :: At(out, w) == Max(At(a, w), At(b, w))
    ensures out.Keys == a.Keys + b.Keys
  {
    out := a;
    var rest := b.Keys;
    while rest != {}
      invariant rest <= b.Keys && out.Keys == a.Keys + (b.Keys - rest)
      invariant forall w :: At(out, w) == if w in rest then At(a, w) else Max(At(a, w), At(b, w))
    {
      var w :| w in rest;
      out := out[w := Max(At(out, w), b[w])];
      rest := rest - {w};
    }
  }

  method CutSubsumes(a: Cut, b: Cut) returns (r: bool)
    ensures r == Subsumes(a, b)
  {
    var rest := b.Keys;
    while rest != {}
      invariant rest <= b.Keys
      invariant forall w :: w !in rest ==> At(a, w) >= At(b, w)
    {
      var w :| w in rest;
      if At(a, w) < b[w] {
        assert At(a, w) < At(b, w);
        return false;
      }
      rest := rest - {w};
    }
    return true;
  }

  method CutEquals(a: Cut, b: Cut) returns (r: bool)
    ensures r == (forall w :: At(a, w) == At(b, w))
  {
    var x := CutSubsumes(a, b);
    if !x {
      return false;
    }
    r := CutSubsumes(b, a);
  }

  method CutIsEmpty(cut: Cut) returns (r: bool)
    ensures r == (forall w :: At(cut, w) == 0)
  {
    var rest := cut.Keys;
    while rest != {}
      invariant rest <= cut.Keys && forall w :: w !in rest ==> At(cut, w) == 0
    {
      var w :| w in rest;
      if cut[w] > 0 {
        assert At(cut, w) != 0;
        return false;
      }
      rest := rest - {w};
    }
    return true;
  }

  /** The join is the least cut above both: any cut with the values CutJoin returns. */
  lemma JoinIsLeastUpperBound(a: Cut, b: Cut, out: Cut, c: Cut)
    requires forall w :: At(out, w) == Max(At(a, w), At(b, w))
    ensures Subsumes(out, a) && Subsumes(out, b)
    ensures Subsumes(c, a) && Subsumes(c, b) <==> Subsumes(c, out)
  {
    if Subsumes(c, out) {
      forall w ensures At(c, w) >= At(a, w) && At(c, w) >= At(b, w) {
        assert At(c, w) >= At(out, w);
      }
    }
  }

  /** The cut of an order is the least cut that contains its operations. */
  ghost predicate IsCutOf(cut: Cut, order: seq<OpId>) {
    && (forall op :: op in order ==> OpInCut(op, cut))
    && (forall w :: w in cut ==> exists op :: op in order && op.writer == w && op.seqno == cut[w])
  }

  method CutFromOrder(order: seq<OpId>) returns (out: Cut)
    ensures IsCutOf(out, order)
  {
    out := map[];
    for i := 0 to |order|
      invariant IsCutOf(out, order[..i])
    {
      var op := order[i];
      ghost var before := out;
      assert order[..i + 1] == order[..i] + [op];
      out := out[op.writer := Max(At(out, op.writer), op.seqno)];
      forall w | w in out ensures exists o :: o in order[..i + 1] && o.writer == w && o.seqno == out[w] {
        if w == op.writer && out[w] == op.seqno {
          assert op in order[..i + 1];
        } else {
          assert w in before;
          var o :| o in order[..i] && o.writer == w && o.seqno == before[w];
          assert o in order[..i + 1];
        }
      }
    }
    assert order[..|order|] == order;
  }

  lemma CutOfOrderIsLeast(cut: Cut, order: seq<OpId>, c: Cut)
    requires IsCutOf(cut, order)
    ensures Subsumes(c, cut) <==> forall op :: op in order ==> OpInCut(op, c)
  {
    if forall op :: op in order ==> OpInCut(op, c) {
      forall w ensures At(c, w) >= At(cut, w) {
        if w in cut {
          var op :| op in order && op.writer == w && op.seqno == cut[w];
        }
      }
    }
  }

  // ---- Proofs ------------------------------------------------------------------------------------

  datatype Proof = Proof(statement: string, verdict: bool, derivedAgainst: Cut, dependencyOps: seq<OpId>)

  datatype BindResult = Bound(proof: Proof) | EmptyFrame | OutsideFrame(op: OpId)

  /** A proof names its frame and depends on nothing outside it. */
  ghost predicate WellBound(p: Proof) {
    && (exists w :: At(p.derivedAgainst, w) > 0)
    && forall i :: 0 <= i < |p.dependencyOps| ==> OpInCut(p.dependencyOps[i], p.derivedAgainst)
  }

  /** Dependency i is the first outside the frame. */
  ghost predicate IsFirstOutside(p: Proof, i: int) {
    && 0 <= i < |p.dependencyOps| && !OpInCut(p.dependencyOps[i], p.derivedAgainst)
    && forall j :: 0 <= j < i ==> OpInCut(p.dependencyOps[j], p.derivedAgainst)
  }

  method BindProof(p: Proof) returns (r: BindResult)
    ensures r.Bound? <==> WellBound(p)
    ensures r.Bound? ==> r.proof == p
    ensures r.EmptyFrame? <==> forall w :: At(p.derivedAgainst, w) == 0
    ensures r.OutsideFrame? <==> (exists w :: At(p.derivedAgainst, w) > 0) && exists op :: op in p.dependencyOps && op.seqno > At(p.derivedAgainst, op.writer)
    ensures r.OutsideFrame? ==> exists i :: IsFirstOutside(p, i) && r.op == p.dependencyOps[i]
  {
    var empty := CutIsEmpty(p.derivedAgainst);
    if empty {
      return EmptyFrame;
    }
    for i := 0 to |p.dependencyOps|
      invariant forall j :: 0 <= j < i ==> OpInCut(p.dependencyOps[j], p.derivedAgainst)
    {
      if !OpInCut(p.dependencyOps[i], p.derivedAgainst) {
        return OutsideFrame(p.dependencyOps[i]);
      }
    }
    return Bound(p);
  }

  datatype Verdict = InFrame(verdict: bool) | OutOfFrame

  function Printed(ops: seq<OpId>): (ks: seq<string>)
    ensures |ks| == |ops| && forall i :: 0 <= i < |ops| ==> ks[i] == OpIdStr(ops[i])
  {
    seq(|ops|, i requires 0 <= i < |ops| => OpIdStr(ops[i]))
  }

  /** The operations of the order that the cut observes and the proof depends on. */
  function Observed(order: seq<OpId>, cut: Cut, deps: seq<OpId>): seq<OpId> {
    if order == [] then []
    else
      var op := order[|order| - 1];
      var seen := Observed(order[..|order| - 1], cut, deps);
      if OpInCut(op, cut) && op in deps then seen + [op] else seen
  }

  /** A proof holds within its frame: all dependencies observed, and in the order it saw them, with nothing
      of them repeated. Otherwise the verdict is withheld. */
  ghost predicate HoldsIn(p: Proof, cut: Cut, order: seq<OpId>) {
    && (forall i :: 0 <= i < |p.dependencyOps| ==> OpInCut(p.dependencyOps[i], cut))
    && Observed(order, cut, p.dependencyOps) == p.dependencyOps
  }

  ghost function Honored(p: Proof, cut: Cut, order: seq<OpId>): Verdict {
    if HoldsIn(p, cut, order) then InFrame(p.verdict) else OutOfFrame
  }

  lemma PrintedMember(op: OpId, ops: seq<OpId>, keys: set<string>)
    requires keys == set k | k in Printed(ops)
    ensures OpIdStr(op) in keys <==> op in ops
  {
    if OpIdStr(op) in keys {
      var i :| 0 <= i < |ops| && Printed(ops)[i] == OpIdStr(op);
      OpIdStrInjective(op, ops[i]);
    }
    if op in ops {
      var i :| 0 <= i < |ops| && ops[i] == op;
      assert Printed(ops)[i] == OpIdStr(op);
    }
  }

  lemma PrintedEqual(a: seq<OpId>, b: seq<OpId>)
    ensures Printed(a) == Printed(b) <==> a == b
  {
    if Printed(a) == Printed(b) {
      assert |a| == |b|;
      forall i | 0 <= i < |a| ensures a[i] == b[i] {
        assert Printed(a)[i] == Printed(b)[i];
        OpIdStrInjective(a[i], b[i]);
      }
    }
  }

  ghost predicate Rising(at: seq<nat>) { forall i, j :: 0 <= i < j < |at| ==> at[i] < at[j] }

  /** The operations deps stand in the order at the rising positions at, and at no other position stands one of them. */
  ghost predicate StandsAt(order: seq<OpId>, deps: seq<OpId>, at: seq<nat>) {
    && |at| == |deps| && Rising(at)
    && (forall i :: 0 <= i < |at| ==> at[i] < |order| && order[at[i]] == deps[i])
    && forall k: nat :: k < |order| && order[k] in deps ==> k in at
  }

  predicate Wanted(op: OpId, cut: Cut, deps: seq<OpId>) { OpInCut(op, cut) && op in deps }

  /** The positions of the operations observed. */
  function Positions(order: seq<OpId>, cut: Cut, deps: seq<OpId>): seq<nat> {
    if order == [] then []
    else
      var n := |order| - 1;
      var before := Positions(order[..n], cut, deps);
      if Wanted(order[n], cut, deps) then before + [n] else before
  }

  lemma {:induction false} PositionsRise(order: seq<OpId>, cut: Cut, deps: seq<OpId>)
    ensures Rising(Positions(order, cut, deps))
    ensures forall k: nat :: k in Positions(order, cut, deps) <==> k < |order| && Wanted(order[k], cut, deps)
  {
    hide Wanted;
    if order != [] {
      var n := |order| - 1;
      PositionsRise(order[..n], cut, deps);
      var before := Positions(order[..n], cut, deps);
      forall i | 0 <= i < |before| ensures before[i] < n {
        assert before[i] in before;
      }
    }
  }

  lemma {:induction false} PositionsObserved(order: seq<OpId>, cut: Cut, deps: seq<OpId>)
    ensures |Positions(order, cut, deps)| == |Observed(order, cut, deps)|
    ensures forall i :: 0 <= i < |Observed(order, cut, deps)| ==>
      Positions(order, cut, deps)[i] < |order| && order[Positions(order, cut, deps)[i]] == Observed(order, cut, deps)[i]
  {
    hide OpInCut;
    if order != [] {
      PositionsObserved(order[..|order| - 1], cut, deps);
    }
  }

  lemma LastIsTop(a: seq<nat>)
    requires Rising(a) && a != []
    ensures forall k: nat :: k in a ==> k <= a[|a| - 1]
    ensures forall k: nat :: k in a[..|a| - 1] <==> k in a && k != a[|a| - 1]
    ensures Rising(a[..|a| - 1])
  {
    var rest, last := a[..|a| - 1], a[|a| - 1];
    assert a == rest + [last];
  }

  lemma BothEmpty(a: seq<nat>, b: seq<nat>)
    requires forall k: nat :: k in a <==> k in b
    ensures a == [] <==> b == []
  {
    assert a != [] ==> a[0] in a;
    assert b != [] ==> b[0] in b;
  }

  /** Rising positions are determined by which they are. */
  lemma {:induction false} RisingSame(a: seq<nat>, b: seq<nat>)
    requires Rising(a) && Rising(b) && forall k: nat :: k in a <==> k in b
    ensures a == b
  {
    BothEmpty(a, b);
    if a != [] {
      LastIsTop(a);
      LastIsTop(b);
      hide Rising;
      var x, y := a[|a| - 1], b[|b| - 1];
      assert x in b && y in a;
      assert x == y;
      var a', b' := a[..|a| - 1], b[..|b| - 1];
      forall k: nat ensures k in a' <==> k in b' {
        assert k in a <==> k in b;
      }
      RisingSame(a', b');
      assert a == a' + [x] && b == b' + [y];
    }
  }

  /** All dependencies are in the cut and stand in the order as recorded, with nothing of them repeated or left over. */
  ghost predicate FrameHolds(p: Proof, cut: Cut, order: seq<OpId>) {
    && (forall op :: op in p.dependencyOps ==> At(cut, op.writer) >= op.seqno)
    && exists at :: StandsAt(order, p.dependencyOps, at)
  }

  lemma HoldsExactly(p: Proof, cut: Cut, order: seq<OpId>)
    ensures HoldsIn(p, cut, order) <==> FrameHolds(p, cut, order)
  {
    hide OpInCut, Positions, Observed, Rising;
    var deps := p.dependencyOps;
    var places := Positions(order, cut, deps);
    PositionsRise(order, cut, deps);
    PositionsObserved(order, cut, deps);
    assert forall op :: OpInCut(op, cut) <==> At(cut, op.writer) >= op.seqno by { InCutMeans(cut); }
    if HoldsIn(p, cut, order) {
      forall op | op in deps ensures OpInCut(op, cut) {
        var i :| 0 <= i < |deps| && deps[i] == op;
      }
      assert StandsAt(order, deps, places);
    }
    if FrameHolds(p, cut, order) {
      var at :| StandsAt(order, deps, at);
      forall k: nat ensures k in at <==> k in places {
        StandsExactly(order, deps, at, k);
      }
      RisingSame(at, places);
      assert Observed(order, cut, deps) == deps;
    }
  }

  lemma InCutMeans(cut: Cut)
    ensures forall op :: OpInCut(op, cut) <==> At(cut, op.writer) >= op.seqno
  {}

  lemma StandsExactly(order: seq<OpId>, deps: seq<OpId>, at: seq<nat>, k: nat)
    requires StandsAt(order, deps, at)
    ensures k in at <==> k < |order| && order[k] in deps
  {}

  /** Two orders with dependencies at the same positions, both as recorded, have the same ones there. */
  lemma SamePlaces(order: seq<OpId>, order': seq<OpId>, deps: seq<OpId>, a: seq<nat>, b: seq<nat>, k: nat)
    requires StandsAt(order, deps, a) && StandsAt(order', deps, b) && k < |order| && order[k] in deps
    requires forall i: nat :: i < |order| && order[i] in deps <==> i < |order'| && order'[i] in deps
    ensures k < |order'| && order'[k] == order[k]
  {
    hide Rising;
    forall i: nat ensures i in a <==> i in b {
      StandsExactly(order, deps, a, i);
      StandsExactly(order', deps, b, i);
    }
    RisingSame(a, b);
    StandsExactly(order, deps, a, k);
    var i :| 0 <= i < |a| && a[i] == k;
    assert order[a[i]] == deps[i] && order'[b[i]] == deps[i];
  }

  /** What can be bound holds where it was derived: exactly the proofs with a frame that are in it when evaluated against
      their own cut, the order being their dependencies. */
  lemma BoundHoldsAtHome(p: Proof)
    ensures WellBound(p) <==> (exists w :: At(p.derivedAgainst, w) > 0) && FrameHolds(p, p.derivedAgainst, p.dependencyOps)
  {
    var deps := p.dependencyOps;
    var at := seq(|deps|, i requires 0 <= i => i);
    assert StandsAt(deps, deps, at) by {
      forall k: nat | k < |deps| ensures k in at {
        assert at[k] == k;
      }
    }
    if FrameHolds(p, p.derivedAgainst, deps) {
      forall i | 0 <= i < |deps| ensures OpInCut(deps[i], p.derivedAgainst) {
        assert deps[i] in deps;
      }
    }
  }

  lemma FirstOutsideOnce(p: Proof, i: int, j: int)
    requires IsFirstOutside(p, i) && IsFirstOutside(p, j)
    ensures i == j
  {}

  /** A fork that exchanges two different dependencies takes a proof out of its frame. */
  lemma ForkIsOutOfFrame(p: Proof, cut: Cut, order: seq<OpId>, k: nat, l: nat)
    requires k < l < |order| && order[k] != order[l] && order[k] in p.dependencyOps && order[l] in p.dependencyOps
    requires FrameHolds(p, cut, order)
    ensures !FrameHolds(p, cut, order[k := order[l]][l := order[k]])
  {
    hide StandsAt;
    var swapped := order[k := order[l]][l := order[k]];
    var a :| StandsAt(order, p.dependencyOps, a);
    forall b | StandsAt(swapped, p.dependencyOps, b) ensures false {
      SamePlaces(order, swapped, p.dependencyOps, a, b, k);
    }
  }

  /** Where two dependencies stand, each recorded once, they stand as recorded. */
  lemma StandInOrder(order: seq<OpId>, deps: seq<OpId>, at: seq<nat>, i: nat, j: nat, k: nat, l: nat)
    requires StandsAt(order, deps, at) && forall x, y :: 0 <= x < y < |deps| ==> deps[x] != deps[y]
    requires i < |deps| && j < |deps| && k < l < |order| && order[k] == deps[j] && order[l] == deps[i]
    ensures j < i
  {
    StandsExactly(order, deps, at, k);
    StandsExactly(order, deps, at, l);
    var x :| 0 <= x < |at| && at[x] == k;
    var y :| 0 <= y < |at| && at[y] == l;
    assert deps[x] == deps[j] && deps[y] == deps[i];
  }

  /** With each dependency recorded once, an order that has two of them the other way round is out of frame. */
  lemma ReversedIsOutOfFrame(p: Proof, cut: Cut, order: seq<OpId>, i: nat, j: nat, k: nat, l: nat)
    requires forall x, y :: 0 <= x < y < |p.dependencyOps| ==> p.dependencyOps[x] != p.dependencyOps[y]
    requires i < j < |p.dependencyOps| && k < l < |order| && order[k] == p.dependencyOps[j] && order[l] == p.dependencyOps[i]
    ensures !FrameHolds(p, cut, order)
  {
    hide StandsAt;
    forall at | StandsAt(order, p.dependencyOps, at) ensures false {
      StandInOrder(order, p.dependencyOps, at, i, j, k, l);
    }
  }

  /** Evaluates a proof against a read cut and the current order, comparing printed operation ids. */
  method HonorProof(p: Proof, cut: Cut, order: seq<OpId>) returns (r: Verdict)
    ensures r == Honored(p, cut, order)
    ensures r == if FrameHolds(p, cut, order) then InFrame(p.verdict) else OutOfFrame
  {
    hide OpIdStr, FrameHolds;
    HoldsExactly(p, cut, order);
    var deps := p.dependencyOps;
    for i := 0 to |deps|
      invariant forall j :: 0 <= j < i ==> OpInCut(deps[j], cut)
    {
      if !OpInCut(deps[i], cut) {
        return OutOfFrame;
      }
    }
    var expected := Printed(deps);
    var depKeys := set k | k in expected;
    var observed: seq<string> := [];
    for i := 0 to |order|
      invariant observed == Printed(Observed(order[..i], cut, deps))
    {
      var op := order[i];
      assert order[..i + 1][..i] == order[..i];
      PrintedMember(op, deps, depKeys);
      if OpInCut(op, cut) && OpIdStr(op) in depKeys {
        observed := observed + [OpIdStr(op)];
      }
    }
    assert order[..|order|] == order;
    PrintedEqual(Observed(order, cut, deps), deps);
    if |observed| != |expected| {
      return OutOfFrame;
    }
    for i := 0 to |expected|
      invariant forall j :: 0 <= j < i ==> observed[j] == expected[j]
    {
      if observed[i] != expected[i] {
        return OutOfFrame;
      }
    }
    return InFrame(p.verdict);
  }

  // ---- Growth ------------------------------------------------------------------------------------

  /** `after` is `before` with operations inserted that are not among `deps`. */
  ghost predicate GrowsBy(before: seq<OpId>, after: seq<OpId>, deps: seq<OpId>) {
    if after == [] then before == []
    else
      var op := after[|after| - 1];
      || (op !in deps && GrowsBy(before, after[..|after| - 1], deps))
      || (before != [] && before[|before| - 1] == op && GrowsBy(before[..|before| - 1], after[..|after| - 1], deps))
  }

  /** With all dependencies observed, the cut no longer matters to what is observed of them. */
  lemma {:induction false} GrowthUnobserved(before: seq<OpId>, after: seq<OpId>, cut: Cut, cut': Cut, deps: seq<OpId>)
    requires GrowsBy(before, after, deps)
    requires forall op :: op in deps ==> OpInCut(op, cut) && OpInCut(op, cut')
    ensures Observed(after, cut', deps) == Observed(before, cut, deps)
    decreases |after|
  {
    if after != [] {
      var op := after[|after| - 1];
      if op !in deps && GrowsBy(before, after[..|after| - 1], deps) {
        GrowthUnobserved(before, after[..|after| - 1], cut, cut', deps);
      } else {
        GrowthUnobserved(before[..|before| - 1], after[..|after| - 1], cut, cut', deps);
      }
    }
  }

  /** An in-frame proof stays in frame, with its verdict, while the cut grows and other operations arrive
      anywhere in the order. */
  lemma InFrameIsStable(p: Proof, cut: Cut, order: seq<OpId>, cut': Cut, order': seq<OpId>)
    requires Honored(p, cut, order).InFrame? && Subsumes(cut', cut) && GrowsBy(order, order', p.dependencyOps)
    ensures Honored(p, cut', order') == Honored(p, cut, order) == InFrame(p.verdict)
  {
    forall op | op in p.dependencyOps ensures OpInCut(op, cut) && OpInCut(op, cut') {
      var i :| 0 <= i < |p.dependencyOps| && p.dependencyOps[i] == op;
      assert At(cut', op.writer) >= At(cut, op.writer);
    }
    GrowthUnobserved(order, order', cut, cut', p.dependencyOps);
  }

  // ---- Compaction --------------------------------------------------------------------------------

  /** The componentwise minimum of the cuts, over the writers any of them names. */
  ghost predicate IsMeet(out: Cut, cuts: seq<Cut>) {
    && (forall w :: w in out <==> exists i :: 0 <= i < |cuts| && w in cuts[i])
    && (forall w, i :: 0 <= i < |cuts| ==> At(out, w) <= At(cuts[i], w))
    && (forall w :: w in out ==> exists i :: 0 <= i < |cuts| && At(out, w) == At(cuts[i], w))
  }

  lemma MeetIsGreatestLowerBound(out: Cut, cuts: seq<Cut>, c: Cut)
    requires IsMeet(out, cuts) && cuts != []
    ensures Subsumes(out, c) <==> forall i :: 0 <= i < |cuts| ==> Subsumes(cuts[i], c)
  {
    if forall i :: 0 <= i < |cuts| ==> Subsumes(cuts[i], c) {
      forall w ensures At(out, w) >= At(c, w) {
        if w in out {
          var i :| 0 <= i < |cuts| && At(out, w) == At(cuts[i], w);
          assert Subsumes(cuts[i], c);
        } else {
          assert w !in cuts[0] && Subsumes(cuts[0], c);
          assert At(cuts[0], w) == 0;
        }
      }
    }
    if Subsumes(out, c) {
      forall i, w | 0 <= i < |cuts| ensures At(cuts[i], w) >= At(c, w) {
        assert At(out, w) >= At(c, w);
      }
    }
  }

  method CutMeet(cuts: seq<Cut>) returns (out: Cut)
    ensures IsMeet(out, cuts)
  {
    out := map[];
    if |cuts| == 0 {
      return;
    }
    var writers: set<Writer> := {};
    for i := 0 to |cuts|
      invariant forall w :: w in writers <==> exists j :: 0 <= j < i && w in cuts[j]
    {
      writers := writers + cuts[i].Keys;
    }
    var rest := writers;
    while rest != {}
      invariant rest <= writers && out.Keys == writers - rest
      invariant forall w, i :: w in out && 0 <= i < |cuts| ==> out[w] <= At(cuts[i], w)
      invariant forall w :: w in out ==> exists i :: 0 <= i < |cuts| && out[w] == At(cuts[i], w)
    {
      var w :| w in rest;
      var m := LeastAt(cuts, w);
      out := out[w := m];
      rest := rest - {w};
    }
  }

  method LeastAt(cuts: seq<Cut>, w: Writer) returns (m: nat)
    requires cuts != []
    ensures forall i :: 0 <= i < |cuts| ==> m <= At(cuts[i], w)
    ensures exists i :: 0 <= i < |cuts| && m == At(cuts[i], w)
  {
    m := At(cuts[0], w);
    for i := 0 to |cuts|
      invariant forall j :: 0 <= j < i ==> m <= At(cuts[j], w)
      invariant exists j :: 0 <= j < |cuts| && m == At(cuts[j], w)
    {
      if At(cuts[i], w) < m {
        m := At(cuts[i], w);
      }
    }
  }

  /** All dependency operations of the proofs, in order. */
  function AllDeps(proofs: seq<Proof>): seq<OpId> {
    if proofs == [] then [] else AllDeps(proofs[..|proofs| - 1]) + proofs[|proofs| - 1].dependencyOps
  }

  lemma {:induction false} DepsIncluded(proofs: seq<Proof>, i: nat)
    requires i < |proofs|
    ensures forall op :: op in proofs[i].dependencyOps ==> op in AllDeps(proofs)
  {
    if i < |proofs| - 1 {
      DepsIncluded(proofs[..|proofs| - 1], i);
    }
  }

  ghost predicate Pinned(deps: seq<OpId>, w: Writer) { exists op :: op in deps && op.writer == w }

  /** Some operation of w is pinned just above v. */
  ghost predicate PinnedAbove(deps: seq<OpId>, w: Writer, v: int) {
    exists op :: op in deps && op.writer == w && op.seqno - 1 == v
  }

  /** The meet lowered below every pinned operation. */
  ghost predicate Lowered(low: map<Writer, int>, meet: Cut, deps: seq<OpId>) {
    && (forall w :: w in low <==> w in meet || Pinned(deps, w))
    && (forall op :: op in deps ==> op.writer in low && low[op.writer] <= op.seqno - 1)
    && (forall w :: w in meet ==> low[w] <= meet[w])
    && (forall w :: w in low ==> (w in meet && low[w] == meet[w]) || PinnedAbove(deps, w, low[w]))
  }

  function Max0(x: int): nat { if x > 0 then x else 0 }

  /** A floor is a lowered meet, but not below 0. */
  ghost predicate IsFloor(floor: Cut, meet: Cut, deps: seq<OpId>) {
    exists low :: Lowered(low, meet, deps) && floor == map w | w in low :: Max0(low[w])
  }

  function Lower(low: map<Writer, int>, op: OpId): map<Writer, int> {
    var cap := op.seqno - 1;
    low[op.writer := Min(if op.writer in low then low[op.writer] else cap, cap)]
  }

  method CompactionFloor(readerCuts: seq<Cut>, proofs: seq<Proof>) returns (floor: Cut)
    ensures exists meet :: IsMeet(meet, readerCuts) && IsFloor(floor, meet, AllDeps(proofs))
  {
    hide Lowered;
    var start := CutMeet(readerCuts);
    ghost var meet := start;
    var low: map<Writer, int> := map w | w in start :: start[w];
    StartLowered(start, low);
    for i := 0 to |proofs|
      invariant Lowered(low, meet, AllDeps(proofs[..i]))
    {
      assert proofs[..i + 1][..i] == proofs[..i];
      low := LowerAll(low, meet, AllDeps(proofs[..i]), proofs[i].dependencyOps);
    }
    assert proofs[..|proofs|] == proofs;
    floor := map w | w in low :: Max0(low[w]);
  }

  lemma StartLowered(meet: Cut, low: map<Writer, int>)
    requires low == map w | w in meet :: meet[w]
    ensures Lowered(low, meet, [])
  {}

  method LowerAll(low0: map<Writer, int>, ghost meet: Cut, ghost before: seq<OpId>, deps: seq<OpId>)
    returns (low: map<Writer, int>)
    requires Lowered(low0, meet, before)
    ensures Lowered(low, meet, before + deps)
  {
    hide Lowered;
    low := low0;
    assert before + deps[..0] == before;
    for j := 0 to |deps|
      invariant Lowered(low, meet, before + deps[..j])
    {
      LowerKeeps(low, meet, before + deps[..j], deps[j]);
      assert before + deps[..j + 1] == before + deps[..j] + [deps[j]];
      var cap := deps[j].seqno - 1;
      var w := deps[j].writer;
      low := low[w := Min(if w in low then low[w] else cap, cap)];
    }
    assert deps[..|deps|] == deps;
  }

  lemma LowerKeeps(low: map<Writer, int>, meet: Cut, deps: seq<OpId>, op: OpId)
    requires Lowered(low, meet, deps)
    ensures Lowered(Lower(low, op), meet, deps + [op])
  {
    var low', deps' := Lower(low, op), deps + [op];
    assert op in deps';
    assert forall o :: o in deps' <==> o in deps || o == op;
    forall w ensures w in low' <==> w in meet || Pinned(deps', w) {
      assert Pinned(deps', w) <==> Pinned(deps, w) || w == op.writer;
    }
    forall w | w in low' ensures (w in meet && low'[w] == meet[w]) || PinnedAbove(deps', w, low'[w]) {
      if w != op.writer || low'[w] != op.seqno - 1 {
        assert w in low && low'[w] == low[w];
        assert PinnedAbove(deps, w, low[w]) ==> PinnedAbove(deps', w, low[w]);
      }
    }
  }

  lemma FloorFacts(floor: Cut, meet: Cut, deps: seq<OpId>)
    requires IsFloor(floor, meet, deps)
    ensures forall op :: op in deps ==> At(floor, op.writer) <= Max0(op.seqno - 1)
    ensures forall w :: At(floor, w) > 0 ==> w in meet || Pinned(deps, w)
    ensures forall w :: w in meet ==> At(floor, w) <= meet[w]
  {
    var low :| Lowered(low, meet, deps) && floor == map w | w in low :: Max0(low[w]);
  }

  /** The floor of a pinned writer no reader has seen is the lowest pin, less one. */
  lemma UnseenFloor(floor: Cut, meet: Cut, deps: seq<OpId>, w: Writer)
    requires IsFloor(floor, meet, deps) && w !in meet && Pinned(deps, w)
    ensures At(floor, w) == 0 <==> exists op :: op in deps && op.writer == w && op.seqno <= 1
  {
    var low :| Lowered(low, meet, deps) && floor == map w | w in low :: Max0(low[w]);
    assert PinnedAbove(deps, w, low[w]);
  }

  /** Every pinned writer that no reader has seen is pinned at its very first operation. */
  ghost predicate UnseenPinnedAtStart(meet: Cut, deps: seq<OpId>) {
    forall w :: w !in meet && Pinned(deps, w) ==> exists op :: op in deps && op.writer == w && op.seqno <= 1
  }

  /** All readers have passed the floor exactly when unseen writers are pinned at their start: the code
      starts the floor of such a writer at the pin, not at 0. */
  lemma FloorBelowReaders(floor: Cut, meet: Cut, cuts: seq<Cut>, deps: seq<OpId>)
    requires IsMeet(meet, cuts) && IsFloor(floor, meet, deps) && cuts != []
    ensures Subsumes(meet, floor) <==> UnseenPinnedAtStart(meet, deps)
    ensures Subsumes(meet, floor) <==> forall i :: 0 <= i < |cuts| ==> Subsumes(cuts[i], floor)
  {
    hide IsMeet, IsFloor;
    MeetIsGreatestLowerBound(meet, cuts, floor);
    FloorFacts(floor, meet, deps);
    forall w | w !in meet && Pinned(deps, w)
      ensures At(floor, w) == 0 <==> exists op :: op in deps && op.writer == w && op.seqno <= 1
    {
      UnseenFloor(floor, meet, deps, w);
    }
    if Subsumes(meet, floor) {
      forall w | w !in meet && Pinned(deps, w) ensures At(floor, w) == 0 {
        assert At(meet, w) >= At(floor, w);
      }
    }
  }

  /** One reader that has seen nothing and a proof pinning the fifth operation of a writer: the floor is 4. */
  lemma FloorAheadOfReader()
    ensures var floor: Cut, meet: Cut := map["w" := 4], map[];
      && IsMeet(meet, [map[]]) && IsFloor(floor, meet, [OpId("w", 5)])
      && At(floor, "w") == 4 && At(meet, "w") == 0 && !Subsumes(meet, floor)
  {
    var floor: Cut, meet: Cut := map["w" := 4], map[];
    var cuts: seq<Cut> := [map[]];
    assert forall i :: 0 <= i < |cuts| ==> cuts[i] == map[];
    OnePin("w", 5);
    assert At(meet, "w") < At(floor, "w");
  }

  /** The floor under a single pinned operation when no reader has seen its writer. */
  lemma OnePin(w: Writer, n: nat)
    ensures IsFloor(map[w := Max0(n - 1)], map[], [OpId(w, n)])
  {
    var deps, low: map<Writer, int> := [OpId(w, n)], map[w := n - 1];
    assert OpId(w, n) in deps;
    assert Pinned(deps, w) && PinnedAbove(deps, w, n - 1);
    assert Lowered(low, map[], deps);
    assert map[w := Max0(n - 1)] == map x | x in low :: Max0(low[x]);
  }

  // ---- Compaction is invisible -------------------------------------------------------------------

  /** The live part of an order: what lies above the floor. */
  function Live(order: seq<OpId>, floor: Cut): seq<OpId> {
    if order == [] then []
    else
      var op := order[|order| - 1];
      var live := Live(order[..|order| - 1], floor);
      if op.seqno <= At(floor, op.writer) then live else live + [op]
  }

  function Settled(order: seq<OpId>, floor: Cut): seq<OpId> {
    if order == [] then []
    else
      var op := order[|order| - 1];
      var settled := Settled(order[..|order| - 1], floor);
      if op.seqno <= At(floor, op.writer) then settled + [op] else settled
  }

  method Compact(order: seq<OpId>, floor: Cut) returns (settled: seq<OpId>, live: seq<OpId>)
    ensures settled == Settled(order, floor) && live == Live(order, floor)
  {
    settled, live := [], [];
    for i := 0 to |order|
      invariant settled == Settled(order[..i], floor) && live == Live(order[..i], floor)
    {
      var op := order[i];
      assert order[..i + 1][..i] == order[..i];
      if op.seqno <= At(floor, op.writer) {
        settled := settled + [op];
      } else {
        live := live + [op];
      }
    }
    assert order[..|order|] == order;
  }

  /** No operation is lost or duplicated, and the settled ones are those the floor covers. */
  lemma {:induction false} CompactPartitions(order: seq<OpId>, floor: Cut)
    ensures multiset(Settled(order, floor)) + multiset(Live(order, floor)) == multiset(order)
    ensures forall op :: op in Settled(order, floor) ==> OpInCut(op, floor)
    ensures forall op :: op in Live(order, floor) ==> !OpInCut(op, floor)
  {
    if order != [] {
      var rest, op := order[..|order| - 1], order[|order| - 1];
      CompactPartitions(rest, floor);
      assert order == rest + [op];
      AppendCounts(Settled(rest, floor), Live(rest, floor), op);
    }
  }

  /** The positions of the operations that the floor covers, or of the others. */
  function Sorted(order: seq<OpId>, floor: Cut, covered: bool): seq<nat> {
    if order == [] then []
    else
      var n := |order| - 1;
      var before := Sorted(order[..n], floor, covered);
      if OpInCut(order[n], floor) == covered then before + [n] else before
  }

  /** Both parts keep the order: each is what stands at rising positions. */
  lemma {:induction false} CompactKeepsOrder(order: seq<OpId>, floor: Cut)
    ensures Rising(Sorted(order, floor, true)) && Rising(Sorted(order, floor, false))
    ensures ReadsAs(order, Sorted(order, floor, true), Settled(order, floor))
    ensures ReadsAs(order, Sorted(order, floor, false), Live(order, floor))
  {
    if order != [] {
      CompactKeepsOrder(order[..|order| - 1], floor);
    }
  }

  /** The positions lead to the operations. */
  ghost predicate ReadsAs(order: seq<OpId>, at: seq<nat>, ops: seq<OpId>) {
    |at| == |ops| && forall i :: 0 <= i < |at| ==> at[i] < |order| && order[at[i]] == ops[i]
  }

  lemma AppendCounts(a: seq<OpId>, b: seq<OpId>, op: OpId)
    ensures multiset(a + [op]) + multiset(b) == multiset(a) + multiset(b) + multiset{op}
    ensures multiset(a) + multiset(b + [op]) == multiset(a) + multiset(b) + multiset{op}
  {}

  /** Writers covered by the floor are dropped. */
  ghost predicate IsBounded(out: Cut, cut: Cut, floor: Cut) {
    && (forall w :: w in out <==> w in cut && cut[w] > At(floor, w))
    && (forall w :: w in out ==> out[w] == cut[w])
  }

  method BoundCut(cut: Cut, floor: Cut) returns (out: Cut)
    ensures IsBounded(out, cut, floor)
  {
    out := map[];
    var rest := cut.Keys;
    while rest != {}
      invariant rest <= cut.Keys
      invariant forall w :: w in out <==> w in cut && w !in rest && cut[w] > At(floor, w)
      invariant forall w :: w in out ==> out[w] == cut[w]
    {
      var w :| w in rest;
      if cut[w] > At(floor, w) {
        out := out[w := cut[w]];
      }
      rest := rest - {w};
    }
  }

  /** Operations above the floor are seen through the bounded cut as through the full one. */
  lemma BoundKeepsLive(out: Cut, cut: Cut, floor: Cut, op: OpId)
    requires IsBounded(out, cut, floor) && op.seqno > At(floor, op.writer)
    ensures OpInCut(op, out) <==> OpInCut(op, cut)
  {
    var w := op.writer;
    assert w in out <==> w in cut && cut[w] > At(floor, w);
  }

  lemma {:induction false} LiveObserved(order: seq<OpId>, floor: Cut, out: Cut, cut: Cut, deps: seq<OpId>)
    requires IsBounded(out, cut, floor)
    requires forall op :: op in deps ==> op.seqno > At(floor, op.writer)
    ensures Observed(Live(order, floor), out, deps) == Observed(order, cut, deps)
  {
    if order != [] {
      var op, rest := order[|order| - 1], order[..|order| - 1];
      LiveObserved(rest, floor, out, cut, deps);
      if op.seqno > At(floor, op.writer) {
        BoundKeepsLive(out, cut, floor, op);
        assert Live(order, floor)[..|Live(order, floor)| - 1] == Live(rest, floor);
      } else {
        assert op !in deps;
      }
    }
  }

  /** A pinned proof whose dependencies are numbered from 1 is evaluated on the compacted state exactly as on
      the full one, for every read cut and every order. */
  lemma CompactionIsInvisible(p: Proof, proofs: seq<Proof>, i: nat, meet: Cut, floor: Cut, cut: Cut, out: Cut, order: seq<OpId>)
    requires i < |proofs| && proofs[i] == p && IsFloor(floor, meet, AllDeps(proofs)) && IsBounded(out, cut, floor)
    requires forall op :: op in p.dependencyOps ==> op.seqno >= 1
    ensures Honored(p, out, Live(order, floor)) == Honored(p, cut, order)
  {
    hide IsFloor;
    DepsIncluded(proofs, i);
    FloorFacts(floor, meet, AllDeps(proofs));
    forall op | op in p.dependencyOps ensures op.seqno > At(floor, op.writer) {
      assert op in AllDeps(proofs);
    }
    LiveObserved(order, floor, out, cut, p.dependencyOps);
    forall op | op in p.dependencyOps ensures OpInCut(op, out) <==> OpInCut(op, cut) {
      BoundKeepsLive(out, cut, floor, op);
    }
    assert forall j :: 0 <= j < |p.dependencyOps| ==> p.dependencyOps[j] in p.dependencyOps;
  }

  ghost predicate AlwaysInvisible(p: Proof, floor: Cut) {
    forall cut, out, order :: IsBounded(out, cut, floor) ==> Honored(p, out, Live(order, floor)) == Honored(p, cut, order)
  }

  /** A cut that observes the first k operations of a list. */
  function Observing(ops: seq<OpId>, k: nat): (cut: Cut)
    requires k <= |ops|
    ensures forall i :: 0 <= i < k ==> OpInCut(ops[i], cut)
  {
    if k == 0 then map[]
    else
      var cut := Observing(ops, k - 1);
      assert forall i :: 0 <= i < k - 1 ==> OpInCut(ops[i], cut);
      cut[ops[k - 1].writer := Max(At(cut, ops[k - 1].writer), ops[k - 1].seqno)]
  }

  lemma {:induction false} ObservesItself(ops: seq<OpId>, cut: Cut, deps: seq<OpId>)
    requires forall op :: op in ops ==> op in deps && OpInCut(op, cut)
    ensures Observed(ops, cut, deps) == ops
  {
    if ops != [] {
      ObservesItself(ops[..|ops| - 1], cut, deps);
      assert ops[|ops| - 1] in ops;
    }
  }

  lemma {:induction false} FewerObserved(order: seq<OpId>, cut: Cut, deps: seq<OpId>, floor: Cut)
    ensures forall op :: op in Observed(Live(order, floor), cut, deps) ==> op.seqno > At(floor, op.writer)
  {
    if order != [] {
      var op, rest, live := order[|order| - 1], order[..|order| - 1], Live(order, floor);
      FewerObserved(rest, cut, deps, floor);
      if op.seqno > At(floor, op.writer) {
        assert live[..|live| - 1] == Live(rest, floor);
      }
    }
  }

  /** Numbering from 1 is exactly what it takes: an operation numbered 0 is folded away even when pinned. */
  lemma InvisibleExactlyFromOne(p: Proof, proofs: seq<Proof>, i: nat, meet: Cut, floor: Cut)
    requires i < |proofs| && proofs[i] == p && IsFloor(floor, meet, AllDeps(proofs))
    ensures AlwaysInvisible(p, floor) <==> forall op :: op in p.dependencyOps ==> op.seqno >= 1
  {
    var deps := p.dependencyOps;
    if forall op :: op in deps ==> op.seqno >= 1 {
      forall cut, out, order | IsBounded(out, cut, floor) ensures Honored(p, out, Live(order, floor)) == Honored(p, cut, order) {
        CompactionIsInvisible(p, proofs, i, meet, floor, cut, out, order);
      }
    } else {
      var op :| op in deps && op.seqno < 1;
      var cut := Observing(deps, |deps|);
      var out: Cut := map w | w in cut && cut[w] > At(floor, w) :: cut[w];
      ObservesItself(deps, cut, deps);
      FewerObserved(deps, out, deps, floor);
      assert IsBounded(out, cut, floor);
      assert Honored(p, cut, deps).InFrame? && Honored(p, out, Live(deps, floor)).OutOfFrame?;
    }
  }

  /** A proof that depends on an operation numbered 0: its own pin gives the floor 0, the operation is folded away, and
      the verdict is withheld that was given before. */
  lemma NumberZeroIsFolded(statement: string, verdict: bool)
    ensures var op, floor: Cut := OpId("w", 0), map["w" := 0];
      var p := Proof(statement, verdict, map[], [op]);
      && IsFloor(floor, map[], AllDeps([p])) && Live([op], floor) == [] && IsBounded(map[], map[], floor)
      && Honored(p, map[], [op]) == InFrame(verdict) && Honored(p, map[], Live([op], floor)) == OutOfFrame
  {
    hide IsFloor, Honored, Live, AllDeps, IsBounded;
    var op, floor: Cut := OpId("w", 0), map["w" := 0];
    var p := Proof(statement, verdict, map[], [op]);
    OnePin("w", 0);
    OneDep(p);
    FoldedAway(op, floor);
    HoldsBefore(p, op);
    WithheldAfter(p, op);
    NothingBounded(floor);
  }

  lemma OneDep(p: Proof)
    ensures AllDeps([p]) == p.dependencyOps
  {
    assert [p][..0] == [] && AllDeps([p][..0]) == [];
  }

  lemma FoldedAway(op: OpId, floor: Cut)
    requires op.seqno == 0
    ensures Live([op], floor) == []
  {
    assert [op][..0] == [] && Live([op][..0], floor) == [];
  }

  lemma HoldsBefore(p: Proof, op: OpId)
    requires op.seqno == 0 && p.dependencyOps == [op]
    ensures Honored(p, map[], [op]) == InFrame(p.verdict)
  {
    assert [op][..0] == [] && Observed([op][..0], map[], [op]) == [];
    assert Observed([op], map[], [op]) == [op];
  }

  lemma WithheldAfter(p: Proof, op: OpId)
    requires p.dependencyOps == [op]
    ensures Honored(p, map[], []) == OutOfFrame
  {
    assert Observed([], map[], [op]) == [];
  }

  lemma NothingBounded(floor: Cut)
    ensures IsBounded(map[], map[], floor)
  {}
}
