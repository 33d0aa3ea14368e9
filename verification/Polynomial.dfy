/** Polynomials over GF(2^8) as coefficient lists, constant term first: evaluation, the root bound,
    interpolation, and Lagrange's formula. */
module Polynomial {
  import opened Gf256

  type Poly = seq<Byte>

  /** Horner evaluation. */
  function Eval(p: Poly, x: Byte): Byte {
    if p == [] then 0 else Add(Mul(Eval(p[1..], x), x), p[0])
  }

  ghost predicate IsZero(p: Poly) { forall i :: 0 <= i < |p| ==> p[i] == 0 }

  ghost predicate Distinct<T(!new)>(xs: seq<T>) { forall i, j :: 0 <= i < j < |xs| ==> xs[i] != xs[j] }

  // ---- Division in the field ---------------------------------------------------------------------

  ghost function Div(a: Byte, b: Byte): (q: Byte)
    requires b != 0
    ensures Mul(q, b) == a
  {
    hide *;
    QuotientExists(a, b);
    var q :| Mul(q, b) == a;
    q
  }

  lemma QuotientExists(a: Byte, b: Byte)
    requires b != 0
    ensures exists q :: Mul(q, b) == a
  {
    hide *;
    var i := InverseExists(b);
    MulAssoc(a, i, b);
    MulComm(i, b);
    MulOne(a);
    assert Mul(Mul(a, i), b) == a;
  }

  lemma DivUnique(a: Byte, b: Byte, q: Byte)
    requires b != 0 && Mul(q, b) == a
    ensures q == Div(a, b)
  {
    hide *;
    MulComm(q, b);
    MulComm(Div(a, b), b);
    MulCancel(b, q, Div(a, b));
  }

  lemma DivAsProduct(a: Byte, b: Byte)
    requires b != 0
    ensures Div(a, b) == Mul(a, Div(1, b))
  {
    hide *;
    MulAssoc(a, Div(1, b), b);
    MulOne(a);
    DivUnique(a, b, Mul(a, Div(1, b)));
  }

  // ---- Sums, multiples and padding ---------------------------------------------------------------

  function Sum(p: Poly, q: Poly): (s: Poly)
    requires |p| == |q|
    ensures |s| == |p| && forall i :: 0 <= i < |p| ==> s[i] == Add(p[i], q[i])
  {
    seq(|p|, i requires 0 <= i < |p| => Add(p[i], q[i]))
  }

  function Scale(p: Poly, c: Byte): (s: Poly)
    ensures |s| == |p| && forall i :: 0 <= i < |p| ==> s[i] == Mul(p[i], c)
  {
    seq(|p|, i requires 0 <= i < |p| => Mul(p[i], c))
  }

  function Zeros(n: nat): (z: Poly)
    ensures |z| == n && IsZero(z)
  {
    seq(n, _ => 0)
  }

  lemma {:induction false} EvalSum(p: Poly, q: Poly, x: Byte)
    requires |p| == |q|
    ensures Eval(Sum(p, q), x) == Add(Eval(p, x), Eval(q, x))
  {
    hide Add, Mul;
    if p == [] {
      AddZero(0);
    } else {
      EvalSum(p[1..], q[1..], x);
      assert Sum(p, q)[1..] == Sum(p[1..], q[1..]);
      MulAddLeft(Eval(p[1..], x), Eval(q[1..], x), x);
      AddSwap(Mul(Eval(p[1..], x), x), Mul(Eval(q[1..], x), x), p[0], q[0]);
    }
  }

  lemma {:induction false} EvalScale(p: Poly, c: Byte, x: Byte)
    ensures Eval(Scale(p, c), x) == Mul(Eval(p, x), c)
  {
    hide Add, Mul;
    if p == [] {
      MulByZero(c);
    } else {
      EvalScale(p[1..], c, x);
      assert Scale(p, c)[1..] == Scale(p[1..], c);
      var e := Eval(p[1..], x);
      MulAddLeft(Mul(e, x), p[0], c);
      MulSwap(e, c, x);
    }
  }

  lemma {:induction false} EvalZero(p: Poly, x: Byte)
    requires IsZero(p)
    ensures Eval(p, x) == 0
  {
    hide Add, Mul;
    if p != [] {
      EvalZero(p[1..], x);
      MulByZero(x);
      AddZero(0);
    }
  }

  lemma {:induction false} EvalPadded(p: Poly, k: nat, x: Byte)
    ensures Eval(p + Zeros(k), x) == Eval(p, x)
  {
    hide Add, Mul;
    if p == [] {
      assert p + Zeros(k) == Zeros(k);
      EvalZero(Zeros(k), x);
    } else {
      EvalPadded(p[1..], k, x);
      assert (p + Zeros(k))[1..] == p[1..] + Zeros(k);
    }
  }

  lemma EvalAtZero(p: Poly)
    ensures Eval(p, 0) == if p == [] then 0 else p[0]
  {
    hide Add, Mul;
    if p != [] {
      MulByZero(Eval(p[1..], 0));
      AddZero(p[0]);
    }
  }

  // ---- The root bound ----------------------------------------------------------------------------

  /** Synthetic division of `p` by (z + r). */
  function Quotient(p: Poly, r: Byte): (q: Poly)
    ensures |q| == if p == [] then 0 else |p| - 1
  {
    if |p| <= 1 then [] else [Eval(p[1..], r)] + Quotient(p[1..], r)
  }

  lemma {:induction false} QuotientRemainder(p: Poly, r: Byte, z: Byte)
    ensures Eval(p, z) == Add(Mul(Eval(Quotient(p, r), z), Add(z, r)), Eval(p, r))
  {
    hide Add, Mul;
    if |p| <= 1 {
      MulByZero(Add(z, r));
      if p != [] {
        MulByZero(z);
        MulByZero(r);
        AddZero(p[0]);
      } else {
        AddZero(0);
      }
    } else {
      QuotientRemainder(p[1..], r, z);
      assert Quotient(p, r)[1..] == Quotient(p[1..], r);
      QuotientAlgebra(Eval(Quotient(p[1..], r), z), Eval(p[1..], r), z, r, p[0]);
    }
  }

  lemma QuotientAlgebra(q: Byte, e: Byte, z: Byte, r: Byte, c: Byte)
    ensures Add(Mul(Add(Mul(q, Add(z, r)), e), z), c)
         == Add(Mul(Add(Mul(q, z), e), Add(z, r)), Add(Mul(e, r), c))
  {
    hide *;
    var d := Add(z, r);
    // left: q*d*z + e*z + c;  right: q*z*d + e*z + e*r + e*r + c
    MulAddLeft(Mul(q, d), e, z);
    MulSwap(q, d, z);
    MulAddLeft(Mul(q, z), e, d);
    MulAddRight(e, z, r);
    var a, b, f := Mul(Mul(q, z), d), Mul(e, z), Mul(e, r);
    AddAssoc(a, Add(b, f), Add(f, c));
    AddAssoc(b, f, Add(f, c));
    AddCancel(f, c);
    AddAssoc(a, b, c);
  }

  lemma {:induction false} QuotientZero(p: Poly, r: Byte)
    requires IsZero(Quotient(p, r)) && Eval(p, r) == 0
    ensures IsZero(p)
  {
    hide Add, Mul;
    if p != [] {
      if |p| > 1 {
        var q := Quotient(p, r);
        assert q[0] == Eval(p[1..], r) && q[1..] == Quotient(p[1..], r);
        QuotientZero(p[1..], r);
      }
      MulByZero(r);
      AddZero(p[0]);
      assert p == [p[0]] + p[1..];
    }
  }

  /** A polynomial with as many roots as coefficients is zero. */
  lemma {:induction false} RootBound(p: Poly, roots: seq<Byte>)
    requires |p| <= |roots| && Distinct(roots)
    requires forall i :: 0 <= i < |roots| ==> Eval(p, roots[i]) == 0
    ensures IsZero(p)
    decreases |p|
  {
    hide Add, Mul;
    if p != [] {
      var r, rest := roots[0], roots[1..];
      var q := Quotient(p, r);
      forall i | 0 <= i < |rest| ensures Eval(q, rest[i]) == 0 {
        assert rest[i] == roots[i + 1] != r;
        QuotientRemainder(p, r, rest[i]);
        AddZero(Mul(Eval(q, rest[i]), Add(rest[i], r)));
        AddCancel(rest[i], r);
        if Eval(q, rest[i]) != 0 {
          MulNotZero(Eval(q, rest[i]), Add(rest[i], r));
        }
      }
      RootBound(q, rest);
      QuotientZero(p, r);
    }
  }

  /** Two polynomials of at most |xs| coefficients that agree at |xs| points are equal. */
  lemma Uniqueness(p: Poly, q: Poly, xs: seq<Byte>)
    requires |p| == |q| <= |xs| && Distinct(xs)
    requires forall i :: 0 <= i < |xs| ==> Eval(p, xs[i]) == Eval(q, xs[i])
    ensures p == q
  {
    hide Add, Mul, Eval;
    forall i | 0 <= i < |xs| ensures Eval(Sum(p, q), xs[i]) == 0 {
      EvalSum(p, q, xs[i]);
      AddZero(Eval(p, xs[i]));
    }
    RootBound(Sum(p, q), xs);
    forall i | 0 <= i < |p| ensures p[i] == q[i] {
      assert Sum(p, q)[i] == 0;
      AddCancel(p[i], q[i]);
    }
  }

  // ---- Interpolation -----------------------------------------------------------------------------

  /** The polynomial (z + r) * p(z) + c. */
  function LinearTimes(p: Poly, r: Byte, c: Byte): (s: Poly)
    ensures |s| == |p| + 1
  {
    if p == [] then [c] else [Add(Mul(p[0], r), c)] + LinearTimes(p[1..], r, p[0])
  }

  lemma {:induction false} EvalLinearTimes(p: Poly, r: Byte, c: Byte, z: Byte)
    ensures Eval(LinearTimes(p, r, c), z) == Add(Mul(Eval(p, z), Add(z, r)), c)
  {
    hide Add, Mul;
    if p == [] {
      MulByZero(z);
      MulByZero(Add(z, r));
      assert LinearTimes(p, r, c)[1..] == [];
    } else {
      EvalLinearTimes(p[1..], r, p[0], z);
      assert LinearTimes(p, r, c)[1..] == LinearTimes(p[1..], r, p[0]);
      LinearAlgebra(Eval(p[1..], z), p[0], z, r, c);
    }
  }

  lemma LinearAlgebra(e: Byte, a: Byte, z: Byte, r: Byte, c: Byte)
    ensures Add(Mul(Add(Mul(e, Add(z, r)), a), z), Add(Mul(a, r), c))
         == Add(Mul(Add(Mul(e, z), a), Add(z, r)), c)
  {
    hide *;
    var d := Add(z, r);
    MulAddLeft(Mul(e, d), a, z);
    MulSwap(e, d, z);
    MulAddLeft(Mul(e, z), a, d);
    MulAddRight(a, z, r);
    var u, v, w := Mul(Mul(e, z), d), Mul(a, z), Mul(a, r);
    AddAssoc(u, v, Add(w, c));
    AddAssoc(v, w, c);
    AddAssoc(u, Add(v, w), c);
  }

  /** For any values at distinct points there is an interpolating polynomial with one coefficient a point. */
  lemma {:induction false} Interpolate(xs: seq<Byte>, ys: seq<Byte>) returns (p: Poly)
    requires |xs| == |ys| && Distinct(xs)
    ensures |p| == |xs|
    ensures forall i :: 0 <= i < |xs| ==> Eval(p, xs[i]) == ys[i]
  {
    hide Add, Mul, Eval;
    if xs == [] {
      p := [];
    } else {
      var x, y, rest := xs[0], ys[0], xs[1..];
      forall i | 0 <= i < |rest| ensures Add(rest[i], x) != 0 {
        assert rest[i] == xs[i + 1] != x;
        AddCancel(rest[i], x);
      }
      var ys' := seq(|rest|, i requires 0 <= i < |rest| => Div(Add(ys[i + 1], y), Add(rest[i], x)));
      var r := Interpolate(rest, ys');
      p := LinearTimes(r, x, y);
      forall i | 0 <= i < |xs| ensures Eval(p, xs[i]) == ys[i] {
        EvalLinearTimes(r, x, y, xs[i]);
        if i == 0 {
          AddZero(x);
          MulByZero(Eval(r, x));
          AddZero(y);
        } else {
          assert xs[i] == rest[i - 1] && Eval(r, rest[i - 1]) == ys'[i - 1];
          AddAssoc(ys[i], y, y);
          AddZero(y);
          AddZero(ys[i]);
        }
      }
    }
  }

  // ---- Lagrange's formula ------------------------------------------------------------------------

  /** The product over m < k, m != j of (xs[m] + z) / (xs[j] + xs[m]). */
  ghost function Basis(xs: seq<Byte>, j: nat, k: nat, z: Byte): Byte
    requires j < |xs| && k <= |xs| && Distinct(xs)
  {
    if k == 0 then 1
    else if k - 1 == j then Basis(xs, j, k - 1, z)
    else
      Apart(xs, j, k - 1);
      Mul(Basis(xs, j, k - 1, z), Div(Add(xs[k - 1], z), Add(xs[j], xs[k - 1])))
  }

  lemma Apart(xs: seq<Byte>, i: nat, j: nat)
    requires i < |xs| && j < |xs| && i != j && Distinct(xs)
    ensures Add(xs[i], xs[j]) != 0
  {
    AddCancel(xs[i], xs[j]);
  }

  /** The sum over j < k of ys[j] times the j-th basis polynomial, at z. */
  ghost function Lagrange(xs: seq<Byte>, ys: seq<Byte>, k: nat, z: Byte): Byte
    requires |xs| == |ys| && k <= |xs| && Distinct(xs)
  {
    if k == 0 then 0
    else Add(Lagrange(xs, ys, k - 1, z), Mul(ys[k - 1], Basis(xs, k - 1, |xs|, z)))
  }

  lemma {:induction false} BasisAtPoint(xs: seq<Byte>, j: nat, k: nat, i: nat)
    requires j < |xs| && k <= |xs| && i < |xs| && Distinct(xs)
    ensures Basis(xs, j, k, xs[i]) == if i == j then 1 else if i < k then 0 else Basis(xs, j, k, xs[i])
  {
    hide Add, Mul;
    if k != 0 {
      BasisAtPoint(xs, j, k - 1, i);
      if k - 1 != j {
        Apart(xs, j, k - 1);
        var b, d := Basis(xs, j, k - 1, xs[i]), Add(xs[j], xs[k - 1]);
        if i == j {
          AddComm(xs[k - 1], xs[i]);
          MulOne(d);
          DivUnique(d, d, 1);
          MulOne(1);
        } else if i == k - 1 {
          AddZero(xs[i]);
          MulByZero(d);
          DivUnique(0, d, 0);
          MulByZero(b);
        } else if i < k {
          MulByZero(Div(Add(xs[k - 1], xs[i]), d));
        }
      }
    }
  }

  /** Each basis value comes from one polynomial. */
  lemma {:induction false} BasisPoly(xs: seq<Byte>, j: nat, k: nat) returns (p: Poly)
    requires j < |xs| && k <= |xs| && Distinct(xs)
    ensures |p| == if k <= j then k + 1 else k
    ensures forall z :: Eval(p, z) == Basis(xs, j, k, z)
  {
    hide Add, Mul, Eval;
    if k == 0 {
      p := [1];
      forall z ensures Eval(p, z) == 1 {
        EvalConstant(1, z);
      }
    } else {
      var q := BasisPoly(xs, j, k - 1);
      if k - 1 == j {
        p := q;
      } else {
        Apart(xs, j, k - 1);
        var d := Add(xs[j], xs[k - 1]);
        var l := LinearTimes(q, xs[k - 1], 0);
        p := Scale(l, Div(1, d));
        forall z ensures Eval(p, z) == Basis(xs, j, k, z) {
          var f, e := Add(z, xs[k - 1]), Basis(xs, j, k - 1, z);
          EvalScale(l, Div(1, d), z);
          EvalLinearTimes(q, xs[k - 1], 0, z);
          AddZero(Mul(e, f));
          MulAssoc(e, f, Div(1, d));
          DivAsProduct(f, d);
          AddComm(z, xs[k - 1]);
        }
      }
    }
  }

  lemma EvalConstant(c: Byte, z: Byte)
    ensures Eval([c], z) == c
  {
    hide Add, Mul;
    MulByZero(z);
    AddZero(c);
  }

  lemma {:induction false} LagrangePoly(xs: seq<Byte>, ys: seq<Byte>, k: nat) returns (p: Poly)
    requires |xs| == |ys| && k <= |xs| && Distinct(xs)
    ensures |p| == |xs|
    ensures forall z :: Eval(p, z) == Lagrange(xs, ys, k, z)
  {
    hide Add, Mul, Eval, Basis;
    if k == 0 {
      p := Zeros(|xs|);
      forall z ensures Eval(p, z) == 0 {
        EvalZero(p, z);
      }
    } else {
      var q := LagrangePoly(xs, ys, k - 1);
      var b := BasisPoly(xs, k - 1, |xs|);
      p := Sum(q, Scale(b, ys[k - 1]));
      forall z ensures Eval(p, z) == Lagrange(xs, ys, k, z) {
        EvalSum(q, Scale(b, ys[k - 1]), z);
        EvalScale(b, ys[k - 1], z);
        MulComm(Eval(b, z), ys[k - 1]);
      }
    }
  }

  lemma {:induction false} LagrangeAtPoint(xs: seq<Byte>, ys: seq<Byte>, k: nat, i: nat)
    requires |xs| == |ys| && k <= |xs| && i < |xs| && Distinct(xs)
    ensures Lagrange(xs, ys, k, xs[i]) == if i < k then ys[i] else 0
  {
    hide Add, Mul, Basis;
    if k != 0 {
      LagrangeAtPoint(xs, ys, k - 1, i);
      BasisAtPoint(xs, k - 1, |xs|, i);
      MulOne(ys[k - 1]);
      MulByZero(ys[k - 1]);
      AddZero(ys[k - 1]);
      AddZero(Lagrange(xs, ys, k - 1, xs[i]));
    }
  }

  /** Lagrange's formula evaluates every polynomial with at most |xs| coefficients, anywhere. */
  lemma LagrangeIsEval(p: Poly, xs: seq<Byte>, ys: seq<Byte>, z: Byte)
    requires |xs| == |ys| && |p| <= |xs| && Distinct(xs)
    requires forall i :: 0 <= i < |xs| ==> ys[i] == Eval(p, xs[i])
    ensures Lagrange(xs, ys, |xs|, z) == Eval(p, z)
  {
    hide Add, Mul, Eval, Lagrange;
    var q := LagrangePoly(xs, ys, |xs|);
    var p' := p + Zeros(|xs| - |p|);
    forall i | 0 <= i < |xs| ensures Eval(q, xs[i]) == Eval(p', xs[i]) {
      LagrangeAtPoint(xs, ys, |xs|, i);
      EvalPadded(p, |xs| - |p|, xs[i]);
    }
    Uniqueness(q, p', xs);
    EvalPadded(p, |xs| - |p|, z);
  }
}
