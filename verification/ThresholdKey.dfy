/** Shamir secret sharing over GF(2^8): log/antilog tables, splitting by Horner evaluation and
    combining by Lagrange interpolation at 0 (ts/src/threshold-key.ts). */
module ThresholdKey {
  import opened Basics
  import opened Gf256
  import opened Polynomial

  // ---- Tables ------------------------------------------------------------------------------------

  /** The EXP and LOG tables, filled once. */
  class FieldTables {
    const exp: array<Byte>
    const log: array<nat>

    ghost predicate Valid()
      reads exp, log
    {
      && exp.Length == 512 && log.Length == 256
      && (forall i: nat :: i < 512 ==> exp[i] == Pow(i))
      && (forall a: Byte {:trigger Index(a)} :: a != 0 ==> log[Index(a)] < 255 && Pow(log[Index(a)]) == a)
      && log[0] == 0
    }

    constructor ()
      ensures Valid() && fresh(exp) && fresh(log)
    {
      exp := new Byte[512](_ => 0);
      log := new nat[256](_ => 0);
      new;
      hide Pow, Mul, Index;
      FillPowers();
      RepeatPowers();
    }

    /** The 255 powers of the generator, each with its logarithm. */
    method FillPowers()
      requires exp.Length == 512 && log.Length == 256 && log[0] == 0
      modifies exp, log
      ensures forall j: nat :: j < 255 ==> exp[j] == Pow(j)
      ensures forall a: Byte {:trigger Index(a)} :: a != 0 ==> log[Index(a)] < 255 && Pow(log[Index(a)]) == a
      ensures log[0] == 0
    {
      hide Pow, Mul, Index;
      PowZero();
      var x: Byte := 1;
      for i := 0 to 255
        invariant x == Pow(i)
        invariant forall j: nat :: j < i ==> exp[j] == Pow(j)
        invariant forall j: nat :: j < i ==> log[Index(Pow(j))] == j
        invariant log[0] == 0
      {
        FreshIndex(i);
        exp[i] := x;
        log[Index(x)] := i;
        PowNext(i);
        x := XTime(x) ^ x;
      }
      forall a: Byte | a != 0 ensures log[Index(a)] < 255 && Pow(log[Index(a)]) == a {
        var j := LogExists(a);
      }
    }

    /** The second copy of the powers, so that a sum of two logarithms needs no reduction. */
    method RepeatPowers()
      requires exp.Length == 512
      requires forall j: nat :: j < 255 ==> exp[j] == Pow(j)
      modifies exp
      ensures forall j: nat :: j < 512 ==> exp[j] == Pow(j)
    {
      hide Pow, Mul;
      for i := 255 to 512
        invariant forall j: nat :: j < i ==> exp[j] == Pow(j)
      {
        PowPeriod(i - 255);
        exp[i] := exp[i - 255];
      }
    }

    /** The table product is the field product. */
    function GMul(a: Byte, b: Byte): (p: Byte)
      requires Valid()
      reads exp, log
      ensures p == Mul(a, b)
    {
      hide Pow, Mul, Index;
      if a == 0 || b == 0 then
        MulByZero(a);
        MulByZero(b);
        0
      else
        PowAdd(log[Index(a)], log[Index(b)]);
        exp[log[Index(a)] + log[Index(b)]]
    }

    /** The table quotient is the field quotient; a zero divisor is not caught, and gives back the dividend. */
    function GDiv(a: Byte, b: Byte): (q: Byte)
      requires Valid()
      reads exp, log
      ensures b != 0 ==> Mul(q, b) == a
      ensures b == 0 ==> q == a
    {
      hide Pow, Mul, Index;
      IndexInjective(0, b);
      if a == 0 then
        MulByZero(b);
        0
      else
        var i, j := log[Index(a)], log[Index(b)];
        LogQuotient(i, j);
        exp[(i + 255 - j) % 255]
    }
  }

  lemma Wrap(k: nat)
    requires k < 510
    ensures k % 255 == if k < 255 then k else k - 255
  {}

  lemma ReducedPow(k: nat)
    requires k < 510
    ensures Pow(k % 255) == Pow(k)
  {
    hide Pow;
    Wrap(k);
    if k >= 255 {
      PowPeriod(k - 255);
    }
  }

  lemma ShiftedQuotient(i: nat, j: nat, k: nat)
    requires k + j == i + 255
    ensures Mul(Pow(k), Pow(j)) == Pow(i)
  {
    hide Pow, Mul;
    PowAdd(k, j);
    PowPeriod(i);
  }

  lemma LogQuotient(i: nat, j: nat)
    requires i < 255 && j < 255
    ensures Mul(Pow((i + 255 - j) % 255), Pow(j)) == Pow(i)
    ensures j == 0 ==> Pow((i + 255 - j) % 255) == Pow(i)
  {
    hide Pow, Mul;
    var k: nat := i + 255 - j;
    ReducedPow(k);
    ShiftedQuotient(i, j, k);
    PowPeriod(i);
  }

  lemma FreshIndex(i: nat)
    requires i < 255
    ensures Index(Pow(i)) != 0
    ensures forall j: nat :: j < i ==> Index(Pow(j)) != Index(Pow(i))
  {
    hide Pow, Mul, Index;
    PowNotZero(i);
    IndexInjective(Pow(i), 0);
    forall j: nat | j < i ensures Index(Pow(j)) != Index(Pow(i)) {
      PowInjective(j, i);
      IndexInjective(Pow(j), Pow(i));
    }
  }

  // ---- Shares ------------------------------------------------------------------------------------

  /** A share: the point x and one value per secret byte. */
  datatype Share = Share(x: int, y: array<Byte>)

  /** The same with the buffer's contents. */
  datatype ShareView = ShareView(x: int, y: seq<Byte>)

  datatype ShareError =
    | BadParameters
    | TooFewShares
    | InvalidX(x: int)
    | DuplicateX(x: int)
    | InconsistentLength
    | QuorumNotMet

  ghost function View(s: Share): ShareView
    reads s.y
  {
    ShareView(s.x, s.y[..])
  }

  ghost function Views(shares: seq<Share>): (vs: seq<ShareView>)
    reads set s | s in shares :: s.y
    ensures |vs| == |shares|
    ensures forall i :: 0 <= i < |shares| ==> vs[i] == View(shares[i])
  {
    seq(|shares|, i requires 0 <= i < |shares| reads set s | s in shares :: s.y => View(shares[i]))
  }

  // ---- Splitting ---------------------------------------------------------------------------------

  predicate GoodParameters(n: int, t: int) { 2 <= t <= n <= 255 }

  /** One tail of t - 1 random coefficients per secret byte. */
  ghost predicate TailsFit(tails: seq<seq<Byte>>, length: nat, t: int) {
    |tails| == length && forall b :: 0 <= b < length ==> |tails[b]| == t - 1
  }

  /** The share at point x: byte b of the secret is the constant term of its own polynomial, whose
      other coefficients are the random tail tails[b]. */
  function ShareAt(secret: seq<Byte>, tails: seq<seq<Byte>>, x: int): (v: ShareView)
    requires |tails| == |secret| && 0 <= x <= 255
    ensures v.x == x && |v.y| == |secret|
    ensures forall b :: 0 <= b < |secret| ==> v.y[b] == Eval([secret[b]] + tails[b], Point(x))
  {
    ShareView(x, seq(|secret|, b requires 0 <= b < |secret| => Eval([secret[b]] + tails[b], Point(x))))
  }

  function Point(x: int): Byte
    requires 0 <= x <= 255
  {
    x as Byte
  }

  lemma PointRoundTrip(x: int)
    requires 0 <= x <= 255
    ensures Index(Point(x)) == x
  {
    hide Index, Point;
    var b := ByteWithIndex(x);
    PointOfIndex(b);
  }

  lemma PointOfIndex(b: Byte)
    ensures Point(Index(b)) == b
  {}

  lemma {:induction false} ByteWithIndex(x: nat) returns (b: Byte)
    requires x < 256
    ensures Index(b) == x
  {
    if x == 0 {
      b := 0;
    } else {
      var c := ByteWithIndex(x - 1);
      b := c + 1;
    }
  }

  lemma PointInjective(x: int, x': int)
    requires 0 <= x <= 255 && 0 <= x' <= 255
    ensures Point(x) == Point(x') ==> x == x'
  {
    hide Index, Point;
    PointRoundTrip(x);
    PointRoundTrip(x');
  }

  /** Splits a secret into n shares with threshold t. The random bytes are an argument: tails[b]
      are the t - 1 coefficients drawn for byte b. */
  method SplitSecret(field: FieldTables, secret: array<Byte>, n: int, t: int, tails: seq<seq<Byte>>)
    returns (r: Result<seq<Share>, ShareError>)
    requires field.Valid()
    requires GoodParameters(n, t) ==> TailsFit(tails, secret.Length, t)
    ensures r.Ok? <==> GoodParameters(n, t)
    ensures r.Ok? <==> 2 <= t && t <= n && n <= 255
    ensures r.Err? ==> r.error == BadParameters
    ensures r.Ok? ==> |r.value| == n
    ensures r.Ok? ==> forall i :: 0 <= i < n ==> fresh(r.value[i].y) && View(r.value[i]) == ShareAt(secret[..], tails, i + 1)
  {
    if t < 2 || t > n || n > 255 {
      return Err(BadParameters);
    }
    var shares := AllocateShares(n, secret.Length);
    for b := 0 to secret.Length
      invariant forall k :: 0 <= k < n ==> fresh(shares[k].y)
      invariant forall k, c :: 0 <= k < n && 0 <= c < b ==> shares[k].y[c] == Eval([secret[c]] + tails[c], Point(k + 1))
    {
      EvaluateByte(field, shares, [secret[b]] + tails[b], b);
    }
    hide Eval, Point;
    forall i | 0 <= i < n ensures View(shares[i]) == ShareAt(secret[..], tails, i + 1) {
      assert View(shares[i]).y == ShareAt(secret[..], tails, i + 1).y;
    }
    return Ok(shares);
  }

  ghost predicate Separate(shares: seq<Share>) {
    forall k, l :: 0 <= k < l < |shares| ==> shares[k].y != shares[l].y
  }

  method AllocateShares(n: nat, length: nat) returns (shares: seq<Share>)
    ensures |shares| == n && Separate(shares)
    ensures forall k :: 0 <= k < n ==> shares[k].x == k + 1 && fresh(shares[k].y) && shares[k].y.Length == length
  {
    shares := [];
    for i := 0 to n
      invariant |shares| == i && Separate(shares)
      invariant forall k :: 0 <= k < i ==> shares[k].x == k + 1 && fresh(shares[k].y) && shares[k].y.Length == length
    {
      var y := new Byte[length](_ => 0);
      shares := shares + [Share(i + 1, y)];
    }
  }

  /** Byte b of every share: the polynomial `coeffs` at the share's point. */
  method EvaluateByte(field: FieldTables, shares: seq<Share>, coeffs: seq<Byte>, b: nat)
    requires field.Valid() && Separate(shares)
    requires forall s :: s in shares ==> 0 <= s.x <= 255 && b < s.y.Length && (s.y as object) !in {field.exp as object, field.log}
    modifies set s | s in shares :: s.y
    ensures forall s :: s in shares ==> s.y[b] == Eval(coeffs, Point(s.x))
    ensures forall s, c :: s in shares && 0 <= c < s.y.Length && c != b ==> s.y[c] == old(s.y[c])
  {
    hide Eval, Point;
    for i := 0 to |shares|
      invariant field.Valid()
      invariant forall k :: 0 <= k < i ==> shares[k].y[b] == Eval(coeffs, Point(shares[k].x))
      invariant forall s, c :: s in shares && 0 <= c < s.y.Length && c != b ==> s.y[c] == old(s.y[c])
    {
      var y := Horner(field, coeffs, Point(shares[i].x));
      assert shares[i] in shares;
      shares[i].y[b] := y;
    }
  }

  /** The inner Horner loop, from the highest coefficient down. */
  method Horner(field: FieldTables, coeffs: seq<Byte>, x: Byte) returns (y: Byte)
    requires field.Valid()
    ensures y == Eval(coeffs, x)
  {
    hide Add, Mul;
    y := 0;
    for k := |coeffs| downto 0
      invariant y == Eval(coeffs[k..], x)
    {
      assert coeffs[k..] == [coeffs[k]] + coeffs[k + 1..];
      y := Add(field.GMul(y, x), coeffs[k]);
    }
    assert coeffs[0..] == coeffs;
  }

  // ---- Combining ---------------------------------------------------------------------------------

  /** What is wrong with share i, given the shares before it. */
  ghost function ShareFault(vs: seq<ShareView>, i: nat): Option<ShareError>
    requires i < |vs|
  {
    if vs[i].x < 1 || vs[i].x > 255 then Some(InvalidX(vs[i].x))
    else if exists j :: 0 <= j < i && vs[j].x == vs[i].x then Some(DuplicateX(vs[i].x))
    else if |vs[i].y| != |vs[0].y| then Some(InconsistentLength)
    else None
  }

  /** The first fault among the first k shares. */
  ghost function FirstFault(vs: seq<ShareView>, k: nat): Option<ShareError>
    requires k <= |vs|
  {
    if k == 0 then None
    else
      var earlier := FirstFault(vs, k - 1);
      if earlier.Some? then earlier else ShareFault(vs, k - 1)
  }

  ghost predicate Combinable(vs: seq<ShareView>) {
    && |vs| >= 2
    && (forall i :: 0 <= i < |vs| ==> 1 <= vs[i].x <= 255 && |vs[i].y| == |vs[0].y|)
    && (forall i, j :: 0 <= i < j < |vs| ==> vs[i].x != vs[j].x)
  }

  /** The fault reported is that of the first faulty share; of several faults of one share a bad point comes before a
      repeated one, and that before a wrong length. */
  lemma {:induction false} FaultIsFirst(vs: seq<ShareView>, k: nat, i: nat)
    requires i < k <= |vs| && FirstFault(vs, i) == None
    ensures vs[i].x < 1 || vs[i].x > 255 ==> FirstFault(vs, k) == Some(InvalidX(vs[i].x))
    ensures 1 <= vs[i].x <= 255 && (exists j :: 0 <= j < i && vs[j].x == vs[i].x) ==> FirstFault(vs, k) == Some(DuplicateX(vs[i].x))
    ensures 1 <= vs[i].x <= 255 && (forall j :: 0 <= j < i ==> vs[j].x != vs[i].x) && |vs[i].y| != |vs[0].y| ==>
      FirstFault(vs, k) == Some(InconsistentLength)
    decreases k
  {
    if i < k - 1 {
      FaultIsFirst(vs, k - 1, i);
    }
  }

  /** Validation passes exactly the lists of distinct in-range points with equal lengths. */
  lemma {:induction false} NoFault(vs: seq<ShareView>, k: nat)
    requires k <= |vs|
    ensures FirstFault(vs, k) == None <==>
      && (forall i :: 0 <= i < k ==> 1 <= vs[i].x <= 255 && |vs[i].y| == |vs[0].y|)
      && (forall i, j :: 0 <= i < j < k ==> vs[i].x != vs[j].x)
  {
    if k != 0 {
      NoFault(vs, k - 1);
    }
  }

  ghost function Points(vs: seq<ShareView>): (ps: seq<Byte>)
    requires forall i :: 0 <= i < |vs| ==> 0 <= vs[i].x <= 255
    ensures |ps| == |vs| && forall i :: 0 <= i < |vs| ==> ps[i] == Point(vs[i].x)
  {
    seq(|vs|, i requires 0 <= i < |vs| => Point(vs[i].x))
  }

  lemma PointsDistinct(vs: seq<ShareView>)
    requires Combinable(vs)
    ensures Distinct(Points(vs))
  {
    hide Point;
    var ps := Points(vs);
    forall i, j | 0 <= i < j < |ps| ensures ps[i] != ps[j] {
      PointInjective(vs[i].x, vs[j].x);
    }
  }

  ghost function Column(vs: seq<ShareView>, b: nat): (ys: seq<Byte>)
    requires forall i :: 0 <= i < |vs| ==> b < |vs[i].y|
    ensures |ys| == |vs| && forall i :: 0 <= i < |vs| ==> ys[i] == vs[i].y[b]
  {
    seq(|vs|, i requires 0 <= i < |vs| => vs[i].y[b])
  }

  /** Byte b of the combined secret: Lagrange's formula at 0. */
  ghost function CombinedByte(vs: seq<ShareView>, b: nat): Byte
    requires Combinable(vs) && b < |vs[0].y|
  {
    PointsDistinct(vs);
    Lagrange(Points(vs), Column(vs, b), |vs|, 0)
  }

  ghost function Combined(vs: seq<ShareView>): (secret: seq<Byte>)
    requires Combinable(vs)
    ensures |secret| == |vs[0].y|
    ensures forall b :: 0 <= b < |secret| ==> secret[b] == CombinedByte(vs, b)
  {
    seq(|vs[0].y|, b requires 0 <= b < |vs[0].y| => CombinedByte(vs, b))
  }

  /** Checks the shares and interpolates each byte at 0. */
  method CombineSecret(field: FieldTables, shares: seq<Share>) returns (r: Result<array<Byte>, ShareError>)
    requires field.Valid()
    ensures |shares| < 2 ==> r == Err(TooFewShares)
    ensures |shares| >= 2 ==>
      match FirstFault(Views(shares), |shares|)
      case Some(fault) => r == Err(fault)
      case None => r.Ok? && fresh(r.value) && Combinable(Views(shares)) && r.value[..] == Combined(Views(shares))
  {
    if |shares| < 2 {
      return Err(TooFewShares);
    }
    var fault := Validate(shares);
    if fault.Some? {
      return Err(fault.value);
    }
    NoFault(Views(shares), |shares|);
    var out := CombineBytes(field, shares);
    return Ok(out);
  }

  method CombineBytes(field: FieldTables, shares: seq<Share>) returns (out: array<Byte>)
    requires field.Valid() && Combinable(Views(shares))
    ensures fresh(out) && out[..] == Combined(Views(shares))
  {
    hide CombinedByte;
    ghost var vs := Views(shares);
    assert vs[0] == View(shares[0]);
    out := new Byte[shares[0].y.Length](_ => 0);
    for b := 0 to out.Length
      invariant Views(shares) == vs
      invariant forall c :: 0 <= c < b ==> out[c] == CombinedByte(vs, c)
    {
      var acc := CombineByte(field, shares, b);
      out[b] := acc;
      assert Views(shares) == vs;
    }
  }

  method Validate(shares: seq<Share>) returns (fault: Option<ShareError>)
    requires |shares| >= 2
    ensures fault == FirstFault(Views(shares), |shares|)
  {
    ghost var vs := Views(shares);
    var seen: set<int> := {};
    for i := 0 to |shares|
      invariant FirstFault(vs, i) == None
      invariant forall x :: x in seen <==> exists j :: 0 <= j < i && vs[j].x == x
    {
      var s := shares[i];
      assert vs[i] == View(s) && vs[0] == View(shares[0]);
      fault := if s.x < 1 || s.x > 255 then Some(InvalidX(s.x))
               else if s.x in seen then Some(DuplicateX(s.x))
               else if s.y.Length != shares[0].y.Length then Some(InconsistentLength)
               else None;
      assert fault == ShareFault(vs, i);
      if fault.Some? {
        FaultStays(vs, i + 1, |vs|);
        return;
      }
      seen := seen + {s.x};
    }
    return None;
  }

  lemma {:induction false} FaultStays(vs: seq<ShareView>, i: nat, k: nat)
    requires i <= k <= |vs| && FirstFault(vs, i).Some?
    ensures FirstFault(vs, k) == FirstFault(vs, i)
  {
    if i < k {
      FaultStays(vs, i, k - 1);
    }
  }

  /** The sum over j of y_j times the basis L_j(0), each basis a product over m != j. */
  method CombineByte(field: FieldTables, shares: seq<Share>, b: nat) returns (acc: Byte)
    requires field.Valid() && Combinable(Views(shares)) && b < |Views(shares)[0].y|
    ensures acc == CombinedByte(Views(shares), b)
  {
    hide Add, Mul, Point, Lagrange;
    ghost var vs := Views(shares);
    PointsDistinct(vs);
    ghost var xs, ys := Points(vs), Column(vs, b);
    acc := 0;
    LagrangeZero(xs, ys);
    for j := 0 to |shares|
      invariant acc == Lagrange(xs, ys, j, 0)
    {
      var basis := BasisAtZero(field, shares, j);
      assert vs[j] == View(shares[j]);
      LagrangeStep(xs, ys, j);
      acc := Add(acc, field.GMul(shares[j].y[b], basis));
    }
  }

  lemma LagrangeZero(xs: seq<Byte>, ys: seq<Byte>)
    requires |xs| == |ys| && Distinct(xs)
    ensures Lagrange(xs, ys, 0, 0) == 0
  {}

  lemma LagrangeStep(xs: seq<Byte>, ys: seq<Byte>, j: nat)
    requires |xs| == |ys| && Distinct(xs) && j < |xs|
    ensures Lagrange(xs, ys, j + 1, 0) == Add(Lagrange(xs, ys, j, 0), Mul(ys[j], Basis(xs, j, |xs|, 0)))
  {}

  method BasisAtZero(field: FieldTables, shares: seq<Share>, j: nat) returns (basis: Byte)
    requires field.Valid() && Combinable(Views(shares)) && j < |shares|
    ensures Distinct(Points(Views(shares))) && basis == Basis(Points(Views(shares)), j, |shares|, 0)
  {
    hide Add, Mul, Point;
    ghost var vs := Views(shares);
    PointsDistinct(vs);
    ghost var xs := Points(vs);
    basis := 1;
    for m := 0 to |shares|
      invariant basis == Basis(xs, j, m, 0)
    {
      if m == j {
        continue;
      }
      assert vs[m] == View(shares[m]) && vs[j] == View(shares[j]);
      Polynomial.Apart(xs, j, m);
      AddZero(xs[m]);
      var ratio := field.GDiv(Point(shares[m].x), Add(Point(shares[j].x), Point(shares[m].x)));
      DivUnique(xs[m], Add(xs[j], xs[m]), ratio);
      basis := field.GMul(basis, ratio);
    }
  }

  // ---- The threshold property --------------------------------------------------------------------

  /** `vs` is a choice of shares of one split, in any order and without repetition. */
  ghost predicate ChosenFrom(vs: seq<ShareView>, secret: seq<Byte>, tails: seq<seq<Byte>>, n: int)
    requires |tails| == |secret| && n <= 255
  {
    && (forall i :: 0 <= i < |vs| ==> 1 <= vs[i].x <= n && vs[i] == ShareAt(secret, tails, vs[i].x))
    && (forall i, j :: 0 <= i < j < |vs| ==> vs[i].x != vs[j].x)
  }

  /** Any t or more shares of a split combine to the secret, whatever was drawn for the tails. */
  lemma RoundTrip(secret: seq<Byte>, tails: seq<seq<Byte>>, n: int, t: int, vs: seq<ShareView>)
    requires GoodParameters(n, t) && TailsFit(tails, |secret|, t)
    requires ChosenFrom(vs, secret, tails, n) && |vs| >= t
    ensures FirstFault(vs, |vs|) == None && Combinable(vs)
    ensures Combined(vs) == secret
  {
    hide Eval, Lagrange, Point;
    NoFault(vs, |vs|);
    forall b | 0 <= b < |secret| ensures CombinedByte(vs, b) == secret[b] {
      var p := [secret[b]] + tails[b];
      PointsDistinct(vs);
      forall i | 0 <= i < |vs| ensures Column(vs, b)[i] == Eval(p, Points(vs)[i]) {
        assert vs[i].y[b] == Eval(p, Point(vs[i].x));
      }
      LagrangeIsEval(p, Points(vs), Column(vs, b), 0);
      EvalAtZero(p);
    }
  }

  // ---- Secrecy -----------------------------------------------------------------------------------

  /** `tail` makes a polynomial with constant term `secret` that has value ys[i] at each point xs[i]. */
  ghost predicate Explains(secret: Byte, tail: seq<Byte>, xs: seq<Byte>, ys: seq<Byte>)
    requires |xs| == |ys|
  {
    forall i :: 0 <= i < |xs| ==> Eval([secret] + tail, xs[i]) == ys[i]
  }

  /** Share points: distinct and not 0, where the secret itself sits. */
  ghost predicate SharePoints(xs: seq<Byte>) { Distinct(xs) && 0 !in xs }

  lemma WithZero(xs: seq<Byte>)
    requires SharePoints(xs)
    ensures Distinct([0] + xs)
  {}

  /** t - 1 shares leave every candidate secret byte possible ... */
  lemma SomeTailExplains(t: nat, secret: Byte, xs: seq<Byte>, ys: seq<Byte>) returns (tail: seq<Byte>)
    requires t >= 1 && |xs| == |ys| == t - 1 && SharePoints(xs)
    ensures |tail| == t - 1 && Explains(secret, tail, xs, ys)
  {
    hide Eval;
    WithZero(xs);
    var p := Interpolate([0] + xs, [secret] + ys);
    EvalAtZero(p);
    assert Eval(p, ([0] + xs)[0]) == secret;
    tail := p[1..];
    assert p == [secret] + tail;
    forall i | 0 <= i < |xs| ensures Eval([secret] + tail, xs[i]) == ys[i] {
      assert Eval(p, ([0] + xs)[i + 1]) == ([secret] + ys)[i + 1];
    }
  }

  /** ... and each of them through exactly one choice of random bytes, so that uniform random bytes
      make all 256 secrets equally likely. */
  lemma OneTailExplains(t: nat, secret: Byte, xs: seq<Byte>, ys: seq<Byte>, tail: seq<Byte>, tail': seq<Byte>)
    requires t >= 1 && |xs| == |ys| == t - 1 && SharePoints(xs)
    requires |tail| == |tail'| == t - 1
    requires Explains(secret, tail, xs, ys) && Explains(secret, tail', xs, ys)
    ensures tail == tail'
  {
    hide Eval;
    WithZero(xs);
    var p, p' := [secret] + tail, [secret] + tail';
    EvalAtZero(p);
    EvalAtZero(p');
    forall i | 0 <= i < t ensures Eval(p, ([0] + xs)[i]) == Eval(p', ([0] + xs)[i]) {
      if i > 0 {
        assert ([0] + xs)[i] == xs[i - 1];
      }
    }
    Uniqueness(p, p', [0] + xs);
    assert tail == p[1..] && tail' == p'[1..];
  }

  /** A mask is a tail whose polynomial moves the constant term by `shift` and no share point at all. */
  ghost predicate Masks(mask: seq<Byte>, shift: Byte, xs: seq<Byte>) {
    forall i :: 0 <= i < |xs| ==> Eval([shift] + mask, xs[i]) == 0
  }

  lemma MaskExists(t: nat, shift: Byte, xs: seq<Byte>) returns (mask: seq<Byte>)
    requires t >= 1 && |xs| <= t - 1 && SharePoints(xs)
    ensures |mask| == t - 1 && Masks(mask, shift, xs)
  {
    hide Eval;
    WithZero(xs);
    var p := Interpolate([0] + xs, [shift] + Zeros(|xs|));
    EvalAtZero(p);
    assert Eval(p, ([0] + xs)[0]) == shift;
    var q := p + Zeros(t - |p|);
    mask := q[1..];
    assert q == [shift] + mask;
    forall i | 0 <= i < |xs| ensures Eval(q, xs[i]) == 0 {
      assert Eval(p, ([0] + xs)[i + 1]) == ([shift] + Zeros(|xs|))[i + 1];
      EvalPadded(p, t - |p|, xs[i]);
    }
  }

  lemma MaskedTail(secret: Byte, secret': Byte, tail: seq<Byte>, mask: seq<Byte>, xs: seq<Byte>, ys: seq<Byte>)
    requires |tail| == |mask| && |xs| == |ys| && Masks(mask, Add(secret, secret'), xs)
    ensures Explains(secret, tail, xs, ys) <==> Explains(secret', Sum(tail, mask), xs, ys)
  {
    hide Eval, Add;
    var p, q := [secret] + tail, [Add(secret, secret')] + mask;
    forall i | 0 <= i < |xs| ensures Eval(p, xs[i]) == Eval([secret'] + Sum(tail, mask), xs[i]) {
      EvalSum(p, q, xs[i]);
      AddZero(Eval(p, xs[i]));
      AddCancel(secret, secret');
      assert Sum(p, q) == [secret'] + Sum(tail, mask);
    }
  }

  lemma MaskTwice(tail: seq<Byte>, mask: seq<Byte>)
    requires |tail| == |mask|
    ensures Sum(Sum(tail, mask), mask) == tail
  {
    hide Add;
    forall i | 0 <= i < |tail| ensures Add(Add(tail[i], mask[i]), mask[i]) == tail[i] {
      AddComm(Add(tail[i], mask[i]), mask[i]);
      AddComm(tail[i], mask[i]);
      AddCancel(mask[i], tail[i]);
    }
  }

  /** For fewer shares too: one mask turns the tails explaining some observations by `secret` into
      those explaining the same observations by `secret'`, and back, so both are equally many. */
  lemma SecretsInterchange(t: nat, secret: Byte, secret': Byte, xs: seq<Byte>) returns (mask: seq<Byte>)
    requires t >= 1 && |xs| <= t - 1 && SharePoints(xs)
    ensures |mask| == t - 1
    ensures forall tail, ys | |tail| == t - 1 && |ys| == |xs| ::
              Explains(secret, tail, xs, ys) <==> Explains(secret', Sum(tail, mask), xs, ys)
    ensures forall tail | |tail| == t - 1 :: Sum(Sum(tail, mask), mask) == tail
  {
    hide *;
    mask := MaskExists(t, Add(secret, secret'), xs);
    forall tail, ys | |tail| == t - 1 && |ys| == |xs|
      ensures Explains(secret, tail, xs, ys) <==> Explains(secret', Sum(tail, mask), xs, ys)
    {
      MaskedTail(secret, secret', tail, mask, xs, ys);
    }
    forall tail | |tail| == t - 1 ensures Sum(Sum(tail, mask), mask) == tail {
      MaskTwice(tail, mask);
    }
  }

  // ---- Key provider ------------------------------------------------------------------------------

  /** Holds the shares it was given and rebuilds the key from a quorum of them. */
  class ThresholdKeyProvider {
    const shares: seq<Share>
    const threshold: int

    constructor (shares: seq<Share>, threshold: int)
      ensures this.shares == shares && this.threshold == threshold
    {
      this.shares := shares;
      this.threshold := threshold;
    }

    /** Below the quorum there is no key; at the quorum of a split, the key is the secret. */
    method GetKey(field: FieldTables, ghost secret: seq<Byte>, ghost tails: seq<seq<Byte>>, ghost n: int)
      returns (r: Result<array<Byte>, ShareError>)
      requires field.Valid() && |tails| == |secret| && n <= 255
      ensures |shares| < threshold ==> r == Err(QuorumNotMet)
      ensures GoodParameters(n, threshold) && TailsFit(tails, |secret|, threshold)
              && ChosenFrom(Views(shares), secret, tails, n) && |shares| >= threshold
              ==> r.Ok? && r.value[..] == secret
    {
      if |shares| < threshold {
        return Err(QuorumNotMet);
      }
      r := CombineSecret(field, shares);
      if GoodParameters(n, threshold) && TailsFit(tails, |secret|, threshold) && ChosenFrom(Views(shares), secret, tails, n) {
        RoundTrip(secret, tails, n, threshold, Views(shares));
      }
    }
  }
}
