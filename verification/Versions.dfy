/** The order of version strings (ts/src/vendor-graph.ts). */
module Versions {
  import opened Basics
  import opened Strings
  import Decimal

  // ---- Parsing -----------------------------------------------------------------------------------

  /** A version split into what decides precedence. */
  datatype Parsed = Parsed(release: seq<string>, prerelease: Option<seq<string>>)

  predicate IsDigits(s: string) { s != "" && forall i :: 0 <= i < |s| ==> Decimal.IsDigit(s[i]) }

  /** The position of the first c, or the length. */
  function IndexOf(s: string, c: char): (n: nat)
    ensures n <= |s| && (n < |s| ==> s[n] == c) && forall i :: 0 <= i < n ==> s[i] != c
  {
    if s == "" || s[0] == c then 0 else 1 + IndexOf(s[1..], c)
  }

  function Split(s: string): (parts: seq<string>)
    ensures parts != []
    decreases |s|
  {
    var dot := IndexOf(s, '.');
    if dot == |s| then [s] else [s[..dot]] + Split(s[dot + 1..])
  }

  function StripV(raw: string): string { if raw != "" && raw[0] == 'v' then raw[1..] else raw }

  function Cut(s: string, c: char): string { s[..IndexOf(s, c)] }

  predicate AllDigits(parts: seq<string>) { forall i :: 0 <= i < |parts| ==> IsDigits(parts[i]) }
  predicate NoneEmpty(parts: seq<string>) { forall i :: 0 <= i < |parts| ==> parts[i] != "" }

  function ParseVersion(raw: string): Option<Parsed> {
    var s := Cut(StripV(raw), '+');
    var dash := IndexOf(s, '-');
    var release := Split(s[..dash]);
    if dash == 0 || !AllDigits(release) then None
    else if dash == |s| then Some(Parsed(release, None))
    else
      var prerelease := Split(s[dash + 1..]);
      if NoneEmpty(prerelease) then Some(Parsed(release, Some(prerelease))) else None
  }

  // ---- Numbers written in digits -------------------------------------------------------------------

  /** The number of a release component; a missing one is 0. */
  function NumAt(release: seq<string>, i: nat): nat
    requires AllDigits(release)
  {
    if i < |release| then (assert IsDigits(release[i]); Decimal.Value(release[i])) else 0
  }

  function Ascii(x: string, y: string): int { if Less(x, y) then -1 else if Less(y, x) then 1 else 0 }

  lemma AsciiIs(x: string, y: string)
    ensures Ascii(x, y) == -1 <==> Less(x, y)
    ensures Ascii(x, y) == 1 <==> Less(y, x)
    ensures Ascii(x, y) == 0 <==> x == y
    ensures -1 <= Ascii(x, y) <= 1
  {
    Trichotomy(x, y);
  }

  function Pow10(n: nat): nat { if n == 0 then 1 else 10 * Pow10(n - 1) }

  lemma {:induction false} Pow10Rises(m: nat, n: nat)
    requires m <= n
    ensures Pow10(m) <= Pow10(n) && Pow10(m) > 0
    decreases n
  {
    if m < n {
      Pow10Rises(m, n - 1);
    } else if n > 0 {
      Pow10Rises(n - 1, n - 1);
    }
  }

  predicate Digits(s: string) { forall i :: 0 <= i < |s| ==> Decimal.IsDigit(s[i]) }

  function DigitOf(c: char): nat
    requires Decimal.IsDigit(c)
  {
    c as int - '0' as int
  }

  /** The value read from the front. */
  lemma {:induction false} ValueFront(s: string)
    requires Digits(s) && s != ""
    ensures Digits(s[1..]) && Decimal.IsDigit(s[0])
    ensures Decimal.Value(s) == DigitOf(s[0]) * Pow10(|s| - 1) + Decimal.Value(s[1..])
  {
    if |s| > 1 {
      var init, tail := s[..|s| - 1], s[1..];
      ValueFront(init);
      assert tail[..|tail| - 1] == init[1..] && tail[|tail| - 1] == s[|s| - 1];
      Shift(DigitOf(s[0]), Pow10(|s| - 2), Decimal.Value(init[1..]), DigitOf(s[|s| - 1]));
    } else {
      assert s[..0] == [] && s[1..] == [];
    }
  }

  lemma Shift(a: nat, p: nat, u: nat, l: nat)
    ensures 10 * (a * p + u) + l == a * (10 * p) + (10 * u + l)
  {}

  lemma {:induction false} ValueBound(s: string)
    requires Digits(s)
    ensures Decimal.Value(s) < Pow10(|s|)
  {
    if s != "" {
      ValueBound(s[..|s| - 1]);
    }
  }

  /** Digit strings of one length compare like their values. */
  lemma {:induction false} SameLength(x: string, y: string)
    requires Digits(x) && Digits(y) && |x| == |y|
    ensures Less(x, y) <==> Decimal.Value(x) < Decimal.Value(y)
    ensures x == y <==> Decimal.Value(x) == Decimal.Value(y)
  {
    if x != "" {
      ValueFront(x);
      ValueFront(y);
      SameLength(x[1..], y[1..]);
      ValueBound(x[1..]);
      ValueBound(y[1..]);
      assert x == [x[0]] + x[1..] && y == [y[0]] + y[1..];
      DigitStep(DigitOf(x[0]), DigitOf(y[0]), Pow10(|x| - 1), Decimal.Value(x[1..]), Decimal.Value(y[1..]));
    }
  }

  lemma DigitStep(a: nat, b: nat, p: nat, u: nat, v: nat)
    requires u < p && v < p
    ensures a < b ==> a * p + u < b * p + v
    ensures b < a ==> b * p + v < a * p + u
  {
    if a < b {
      assert (a + 1) * p <= b * p;
    }
    if b < a {
      assert (b + 1) * p <= a * p;
    }
  }

  /** Leading zeros dropped, one digit kept. */
  function Stripped(s: string): string
    requires s != ""
  {
    if |s| > 1 && s[0] == '0' then Stripped(s[1..]) else s
  }

  lemma {:induction false} StrippedValue(s: string)
    requires IsDigits(s)
    ensures Stripped(s) != "" && Digits(Stripped(s)) && Decimal.Value(Stripped(s)) == Decimal.Value(s)
    ensures |Stripped(s)| == 1 || Decimal.Value(s) >= Pow10(|Stripped(s)| - 1)
  {
    ValueFront(s);
    if |s| > 1 && s[0] == '0' {
      StrippedValue(s[1..]);
    } else if |s| > 1 {
      assert DigitOf(s[0]) >= 1;
      LeadingDigit(DigitOf(s[0]), Pow10(|s| - 1), Decimal.Value(s[1..]));
    }
  }

  lemma LeadingDigit(a: nat, p: nat, u: nat)
    requires a >= 1
    ensures a * p + u >= p
  {}

  /** Comparing digit strings of any length is comparing the numbers. */
  method CompareNumericIds(x: string, y: string) returns (d: int)
    requires IsDigits(x) && IsDigits(y)
    ensures d == if Decimal.Value(x) < Decimal.Value(y) then -1 else if Decimal.Value(x) > Decimal.Value(y) then 1 else 0
  {
    var i, j := 0, 0;
    assert x[0..] == x && y[0..] == y;
    while i < |x| - 1 && x[i] == '0'
      invariant 0 <= i <= |x| - 1 && Stripped(x[i..]) == Stripped(x)
    {
      assert x[i..][1..] == x[i + 1..];
      i := i + 1;
    }
    while j < |y| - 1 && y[j] == '0'
      invariant 0 <= j <= |y| - 1 && Stripped(y[j..]) == Stripped(y)
    {
      assert y[j..][1..] == y[j + 1..];
      j := j + 1;
    }
    var sx, sy := x[i..], y[j..];
    assert sx == Stripped(x) && sy == Stripped(y);
    NumericOrder(x, y);
    if |sx| != |sy| {
      return if |sx| < |sy| then -1 else 1;
    }
    return if Less(sx, sy) then -1 else if Less(sy, sx) then 1 else 0;
  }

  lemma NumericOrder(x: string, y: string)
    requires IsDigits(x) && IsDigits(y)
    ensures |Stripped(x)| < |Stripped(y)| ==> Decimal.Value(x) < Decimal.Value(y)
    ensures |Stripped(x)| > |Stripped(y)| ==> Decimal.Value(x) > Decimal.Value(y)
    ensures |Stripped(x)| == |Stripped(y)| ==> (Less(Stripped(x), Stripped(y)) <==> Decimal.Value(x) < Decimal.Value(y))
    ensures |Stripped(x)| == |Stripped(y)| ==> (Less(Stripped(y), Stripped(x)) <==> Decimal.Value(y) < Decimal.Value(x))
  {
    var sx, sy := Stripped(x), Stripped(y);
    StrippedValue(x);
    StrippedValue(y);
    ValueBound(sx);
    ValueBound(sy);
    if |sx| < |sy| {
      Pow10Rises(|sx|, |sy| - 1);
    } else if |sy| < |sx| {
      Pow10Rises(|sy|, |sx| - 1);
    } else {
      SameLength(sx, sy);
      SameLength(sy, sx);
    }
  }

  // ---- Precedence ----------------------------------------------------------------------------------

  ghost predicate SameRelease(p: seq<string>, q: seq<string>)
    requires AllDigits(p) && AllDigits(q)
  {
    forall k: nat :: NumAt(p, k) == NumAt(q, k)
  }

  /** The first component that differs is smaller. */
  ghost predicate LowerRelease(p: seq<string>, q: seq<string>)
    requires AllDigits(p) && AllDigits(q)
  {
    exists k: nat :: NumAt(p, k) < NumAt(q, k) && forall j: nat :: j < k ==> NumAt(p, j) == NumAt(q, j)
  }

  predicate SameId(x: string, y: string) {
    if IsDigits(x) && IsDigits(y) then Decimal.Value(x) == Decimal.Value(y) else x == y
  }

  /** Numbers below words, numbers by value, words by character code. */
  predicate LowerId(x: string, y: string) {
    if IsDigits(x) then !IsDigits(y) || Decimal.Value(x) < Decimal.Value(y)
    else !IsDigits(y) && Less(x, y)
  }

  ghost predicate SameIds(p: seq<string>, q: seq<string>, k: nat) {
    k <= |p| && k <= |q| && forall j :: 0 <= j < k ==> SameId(p[j], q[j])
  }

  ghost predicate EqualIds(p: seq<string>, q: seq<string>) { |p| == |q| && SameIds(p, q, |p|) }

  ghost predicate LowerAt(p: seq<string>, q: seq<string>, k: nat) {
    SameIds(p, q, k) && k < |q| && (k == |p| || (k < |p| && LowerId(p[k], q[k])))
  }

  /** The first identifier that differs is lower, or the list is a proper prefix. */
  ghost predicate LowerIds(p: seq<string>, q: seq<string>) { exists k: nat :: LowerAt(p, q, k) }

  ghost predicate SamePre(p: Option<seq<string>>, q: Option<seq<string>>) {
    if p.None? || q.None? then p.None? && q.None? else EqualIds(p.value, q.value)
  }

  /** A prerelease is below the release it leads to. */
  ghost predicate LowerPre(p: Option<seq<string>>, q: Option<seq<string>>) {
    p.Some? && (q.None? || LowerIds(p.value, q.value))
  }

  ghost predicate SamePrecedence(p: Parsed, q: Parsed)
    requires AllDigits(p.release) && AllDigits(q.release)
  {
    SameRelease(p.release, q.release) && SamePre(p.prerelease, q.prerelease)
  }

  ghost predicate LowerPrecedence(p: Parsed, q: Parsed)
    requires AllDigits(p.release) && AllDigits(q.release)
  {
    LowerRelease(p.release, q.release) || (SameRelease(p.release, q.release) && LowerPre(p.prerelease, q.prerelease))
  }

  /** The order of the strings: what is not a release comes first; then precedence; then character codes. */
  ghost predicate Below(a: string, b: string) {
    var p, q := ParseVersion(a), ParseVersion(b);
    if q.None? then p.None? && Less(a, b)
    else if p.None? then true
    else LowerPrecedence(p.value, q.value) || (SamePrecedence(p.value, q.value) && Less(a, b))
  }

  // ---- A total order -------------------------------------------------------------------------------

  lemma {:induction false} FirstDifference(p: seq<string>, q: seq<string>, k: nat)
    requires AllDigits(p) && AllDigits(q)
    ensures LowerRelease(p, q) || LowerRelease(q, p) || forall j: nat :: j < k ==> NumAt(p, j) == NumAt(q, j)
  {
    hide NumAt;
    if k > 0 {
      FirstDifference(p, q, k - 1);
      assert NumAt(p, k - 1) < NumAt(q, k - 1) || NumAt(q, k - 1) < NumAt(p, k - 1) || NumAt(p, k - 1) == NumAt(q, k - 1);
    }
  }

  lemma ReleaseTotal(p: seq<string>, q: seq<string>)
    requires AllDigits(p) && AllDigits(q)
    ensures LowerRelease(p, q) || LowerRelease(q, p) || SameRelease(p, q)
    ensures LowerRelease(p, q) ==> !LowerRelease(q, p) && !SameRelease(p, q) && !SameRelease(q, p)
    ensures SameRelease(p, q) <==> SameRelease(q, p)
  {
    FirstDifference(p, q, |p| + |q|);
    assert forall j: nat :: j >= |p| + |q| ==> NumAt(p, j) == NumAt(q, j);
  }

  lemma ReleaseTrans(p: seq<string>, q: seq<string>, r: seq<string>)
    requires AllDigits(p) && AllDigits(q) && AllDigits(r)
    requires LowerRelease(p, q) || SameRelease(p, q)
    requires LowerRelease(q, r) || SameRelease(q, r)
    ensures if LowerRelease(p, q) || LowerRelease(q, r) then LowerRelease(p, r) else SameRelease(p, r)
  {
    hide NumAt;
    if LowerRelease(p, q) {
      var k: nat :| NumAt(p, k) < NumAt(q, k) && forall j: nat :: j < k ==> NumAt(p, j) == NumAt(q, j);
      if LowerRelease(q, r) {
        var i: nat :| NumAt(q, i) < NumAt(r, i) && forall j: nat :: j < i ==> NumAt(q, j) == NumAt(r, j);
        var least := if i < k then i else k;
        assert NumAt(p, least) < NumAt(r, least);
      } else {
        assert NumAt(p, k) < NumAt(r, k);
      }
    } else if LowerRelease(q, r) {
      var i: nat :| NumAt(q, i) < NumAt(r, i) && forall j: nat :: j < i ==> NumAt(q, j) == NumAt(r, j);
      assert NumAt(p, i) < NumAt(r, i);
    }
  }

  lemma IdTotal(x: string, y: string)
    ensures LowerId(x, y) || LowerId(y, x) || SameId(x, y)
    ensures LowerId(x, y) ==> !LowerId(y, x) && !SameId(x, y)
    ensures SameId(x, y) <==> SameId(y, x)
  {
    Trichotomy(x, y);
  }

  lemma IdTrans(x: string, y: string, z: string)
    requires (LowerId(x, y) || SameId(x, y)) && (LowerId(y, z) || SameId(y, z))
    ensures if LowerId(x, y) || LowerId(y, z) then LowerId(x, z) else SameId(x, z)
  {
    if Less(x, y) && Less(y, z) {
      Transitive(x, y, z);
    }
    IdTotal(x, y);
    IdTotal(y, z);
  }

  lemma {:induction false} FirstLower(p: seq<string>, q: seq<string>, k: nat)
    requires k <= |p| && k <= |q|
    ensures LowerIds(p, q) || LowerIds(q, p) || SameIds(p, q, k)
  {
    hide LowerId, SameId;
    if k > 0 {
      FirstLower(p, q, k - 1);
      if SameIds(p, q, k - 1) {
        IdTotal(p[k - 1], q[k - 1]);
        assert SameIds(q, p, k - 1) by { SameIdsFlip(p, q, k - 1); }
        assert LowerId(p[k - 1], q[k - 1]) ==> LowerAt(p, q, k - 1);
        assert LowerId(q[k - 1], p[k - 1]) ==> LowerAt(q, p, k - 1);
      }
    }
  }

  lemma SameIdsFlip(p: seq<string>, q: seq<string>, k: nat)
    requires SameIds(p, q, k)
    ensures SameIds(q, p, k)
  {}

  lemma IdsTotal(p: seq<string>, q: seq<string>)
    ensures LowerIds(p, q) || LowerIds(q, p) || EqualIds(p, q)
    ensures LowerIds(p, q) ==> !LowerIds(q, p) && !EqualIds(p, q)
    ensures EqualIds(p, q) <==> EqualIds(q, p)
  {
    hide LowerId, SameId;
    var least := if |p| < |q| then |p| else |q|;
    FirstLower(p, q, least);
    if SameIds(p, q, least) {
      SameIdsFlip(p, q, least);
      assert |p| < |q| ==> LowerAt(p, q, least);
      assert |q| < |p| ==> LowerAt(q, p, least);
    }
    if EqualIds(p, q) {
      SameIdsFlip(p, q, |p|);
    }
    if EqualIds(q, p) {
      SameIdsFlip(q, p, |q|);
    }
    if LowerIds(p, q) {
      var k: nat :| LowerAt(p, q, k);
      forall i: nat ensures !LowerAt(q, p, i) {
        LowerOneWay(p, q, k, i);
      }
      if k < |p| && k < |q| {
        IdTotal(p[k], q[k]);
      }
    }
  }

  lemma LowerOneWay(p: seq<string>, q: seq<string>, k: nat, i: nat)
    requires LowerAt(p, q, k)
    ensures !LowerAt(q, p, i)
  {
    hide LowerId, SameId;
    var least := if k < i then k else i;
    if least < |p| && least < |q| {
      IdTotal(p[least], q[least]);
      IdTotal(q[least], p[least]);
    }
  }

  lemma IdsTrans(p: seq<string>, q: seq<string>, r: seq<string>)
    requires (LowerIds(p, q) || EqualIds(p, q)) && (LowerIds(q, r) || EqualIds(q, r))
    ensures if LowerIds(p, q) || LowerIds(q, r) then LowerIds(p, r) else EqualIds(p, r)
  {
    hide LowerId, SameId;
    if LowerIds(p, q) {
      var k: nat :| LowerAt(p, q, k);
      if LowerIds(q, r) {
        var i: nat :| LowerAt(q, r, i);
        LowerThen(p, q, r, k, i);
      } else {
        SameThen(p, q, r, k);
        LowerThenSame(p, q, r, k);
      }
    } else if LowerIds(q, r) {
      var i: nat :| LowerAt(q, r, i);
      SameThen(p, q, r, i);
      SameThenLower(p, q, r, i);
    } else {
      SameThen(p, q, r, |p|);
    }
  }

  lemma SameThen(p: seq<string>, q: seq<string>, r: seq<string>, k: nat)
    requires SameIds(p, q, k) && SameIds(q, r, k)
    ensures SameIds(p, r, k)
  {
    hide LowerId, SameId;
    forall j | 0 <= j < k ensures SameId(p[j], r[j]) {
      IdTotal(p[j], q[j]);
      IdTotal(q[j], r[j]);
      IdTrans(p[j], q[j], r[j]);
    }
  }

  lemma LowerThenSame(p: seq<string>, q: seq<string>, r: seq<string>, k: nat)
    requires LowerAt(p, q, k) && EqualIds(q, r) && SameIds(p, r, k)
    ensures LowerIds(p, r)
  {
    hide LowerId, SameId;
    if k < |p| {
      IdTrans(p[k], q[k], r[k]);
    }
    assert LowerAt(p, r, k);
  }

  lemma SameThenLower(p: seq<string>, q: seq<string>, r: seq<string>, i: nat)
    requires EqualIds(p, q) && LowerAt(q, r, i) && SameIds(p, r, i)
    ensures LowerIds(p, r)
  {
    hide LowerId, SameId;
    if i < |q| {
      IdTrans(p[i], q[i], r[i]);
    }
    assert LowerAt(p, r, i);
  }

  lemma LowerThen(p: seq<string>, q: seq<string>, r: seq<string>, k: nat, i: nat)
    requires LowerAt(p, q, k) && LowerAt(q, r, i)
    ensures LowerIds(p, r)
  {
    hide LowerId, SameId;
    var least := if k < i then k else i;
    SameThen(p, q, r, least);
    if least < |p| {
      IdTrans(p[least], q[least], r[least]);
    }
    assert LowerAt(p, r, least);
  }

  lemma PrecedenceTotal(p: Parsed, q: Parsed)
    requires AllDigits(p.release) && AllDigits(q.release)
    ensures LowerPrecedence(p, q) || LowerPrecedence(q, p) || SamePrecedence(p, q)
    ensures LowerPrecedence(p, q) ==> !LowerPrecedence(q, p) && !SamePrecedence(p, q)
    ensures SamePrecedence(p, q) <==> SamePrecedence(q, p)
  {
    hide LowerRelease, SameRelease, LowerIds, SameIds;
    ReleaseTotal(p.release, q.release);
    ReleaseTotal(q.release, p.release);
    if p.prerelease.Some? && q.prerelease.Some? {
      IdsTotal(p.prerelease.value, q.prerelease.value);
      IdsTotal(q.prerelease.value, p.prerelease.value);
    }
  }

  lemma PrecedenceTrans(p: Parsed, q: Parsed, r: Parsed)
    requires AllDigits(p.release) && AllDigits(q.release) && AllDigits(r.release)
    requires (LowerPrecedence(p, q) || SamePrecedence(p, q)) && (LowerPrecedence(q, r) || SamePrecedence(q, r))
    ensures if LowerPrecedence(p, q) || LowerPrecedence(q, r) then LowerPrecedence(p, r) else SamePrecedence(p, r)
  {
    hide LowerRelease, SameRelease, LowerIds, SameIds;
    ReleaseTrans(p.release, q.release, r.release);
    ReleaseTotal(p.release, q.release);
    ReleaseTotal(q.release, r.release);
    if p.prerelease.Some? && q.prerelease.Some? && r.prerelease.Some? {
      IdsTotal(p.prerelease.value, q.prerelease.value);
      IdsTotal(q.prerelease.value, r.prerelease.value);
      if (LowerIds(p.prerelease.value, q.prerelease.value) || EqualIds(p.prerelease.value, q.prerelease.value)) &&
         (LowerIds(q.prerelease.value, r.prerelease.value) || EqualIds(q.prerelease.value, r.prerelease.value)) {
        IdsTrans(p.prerelease.value, q.prerelease.value, r.prerelease.value);
      }
    }
  }

  lemma ParsedRelease(a: string)
    ensures ParseVersion(a).Some? ==> AllDigits(ParseVersion(a).value.release)
  {}

  /** Of two strings exactly one is below the other, or they are the same string. */
  lemma BelowTotal(a: string, b: string)
    ensures Below(a, b) || Below(b, a) || a == b
    ensures !(Below(a, b) && Below(b, a)) && !Below(a, a)
  {
    ParsedRelease(a);
    ParsedRelease(b);
    hide ParseVersion, LowerPrecedence, SamePrecedence;
    Trichotomy(a, b);
    Trichotomy(a, a);
    var p, q := ParseVersion(a), ParseVersion(b);
    if p.Some? {
      PrecedenceTotal(p.value, p.value);
      if q.Some? {
        PrecedenceTotal(p.value, q.value);
        PrecedenceTotal(q.value, p.value);
      }
    }
  }

  lemma BelowTransitive(a: string, b: string, c: string)
    requires Below(a, b) && Below(b, c)
    ensures Below(a, c)
  {
    ParsedRelease(a);
    ParsedRelease(b);
    ParsedRelease(c);
    hide ParseVersion, LowerPrecedence, SamePrecedence;
    var p, q, r := ParseVersion(a), ParseVersion(b), ParseVersion(c);
    if Less(a, b) && Less(b, c) {
      Transitive(a, b, c);
    }
    if p.Some? && q.Some? && r.Some? {
      PrecedenceTrans(p.value, q.value, r.value);
    }
  }

  // ---- The comparison ------------------------------------------------------------------------------

  method CompareReleases(p: seq<string>, q: seq<string>) returns (d: int)
    requires AllDigits(p) && AllDigits(q)
    ensures d == -1 || d == 0 || d == 1
    ensures d == -1 ==> LowerRelease(p, q)
    ensures d == 1 ==> LowerRelease(q, p)
    ensures d == 0 ==> SameRelease(p, q)
  {
    var components := if |p| < |q| then |q| else |p|;
    for i := 0 to components
      invariant forall k: nat :: k < i ==> NumAt(p, k) == NumAt(q, k)
    {
      var x, y := if i < |p| then p[i] else "0", if i < |q| then q[i] else "0";
      ZeroIsDigits();
      d := CompareNumericIds(x, y);
      assert Decimal.Value(x) == NumAt(p, i) && Decimal.Value(y) == NumAt(q, i);
      if d != 0 {
        return;
      }
    }
    return 0;
  }

  lemma ZeroIsDigits()
    ensures IsDigits("0") && Decimal.Value("0") == 0
  {
    assert "0"[..0] == "";
  }

  method ComparePrereleases(p: seq<string>, q: seq<string>) returns (d: int)
    ensures d == -1 || d == 0 || d == 1
    ensures d == -1 ==> LowerIds(p, q)
    ensures d == 1 ==> LowerIds(q, p)
    ensures d == 0 ==> |p| == |q| && SameIds(p, q, |p|)
  {
    var ids := if |p| < |q| then |q| else |p|;
    for i := 0 to ids
      invariant i <= |p| && i <= |q| && SameIds(p, q, i) && SameIds(q, p, i)
    {
      if i == |p| {
        assert LowerAt(p, q, i);
        return -1;
      }
      if i == |q| {
        assert LowerAt(q, p, i);
        return 1;
      }
      var x, y := p[i], q[i];
      var xNum, yNum := IsDigits(x), IsDigits(y);
      if xNum != yNum {
        assert if xNum then LowerAt(p, q, i) else LowerAt(q, p, i);
        return if xNum then -1 else 1;
      }
      if xNum {
        d := CompareNumericIds(x, y);
      } else {
        AsciiIs(x, y);
        d := Ascii(x, y);
      }
      if d != 0 {
        assert if d == -1 then LowerAt(p, q, i) else LowerAt(q, p, i);
        return;
      }
    }
    return 0;
  }

  /** The sign tells the order, and is 0 only for identical strings. */
  method CompareVersions(a: string, b: string) returns (d: int)
    ensures d == -1 || d == 0 || d == 1
    ensures d == -1 <==> Below(a, b)
    ensures d == 1 <==> Below(b, a)
    ensures d == 0 <==> a == b
  {
    hide Below;
    BelowTotal(a, b);
    d := ComparePrecedence(a, b);
  }

  method ComparePrecedence(a: string, b: string) returns (d: int)
    ensures d == -1 || d == 0 || d == 1
    ensures d == -1 ==> Below(a, b)
    ensures d == 1 ==> Below(b, a)
    ensures d == 0 ==> a == b
  {
    hide ParseVersion, LowerRelease, SameRelease, LowerIds, SameIds, Ascii;
    AsciiIs(a, b);
    ParsedRelease(a);
    ParsedRelease(b);
    var pa, pb := ParseVersion(a), ParseVersion(b);
    if pa.None? || pb.None? {
      if pa.None? && pb.None? {
        return Ascii(a, b);
      }
      return if pa.None? then -1 else 1;
    }
    d := CompareReleases(pa.value.release, pb.value.release);
    if d != 0 {
      return;
    }
    SameReleaseBack(pa.value.release, pb.value.release);
    if pa.value.prerelease.None? || pb.value.prerelease.None? {
      if pa.value.prerelease.None? && pb.value.prerelease.None? {
        return Ascii(a, b);
      }
      return if pa.value.prerelease.None? then 1 else -1;
    }
    d := ComparePrereleases(pa.value.prerelease.value, pb.value.prerelease.value);
    if d != 0 {
      return;
    }
    SameIdsBack(pa.value.prerelease.value, pb.value.prerelease.value);
    return Ascii(a, b);
  }

  lemma SameReleaseBack(p: seq<string>, q: seq<string>)
    requires AllDigits(p) && AllDigits(q) && SameRelease(p, q)
    ensures SameRelease(q, p)
  {}

  lemma SameIdsBack(p: seq<string>, q: seq<string>)
    requires |p| == |q| && SameIds(p, q, |p|)
    ensures SameIds(q, p, |q|)
  {}
}
