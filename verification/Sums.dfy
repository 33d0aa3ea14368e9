/** Finite sums of reals. */
module Sums {
  function Sum(n: nat, f: nat -> real): real {
    if n == 0 then 0.0 else Sum(n - 1, f) + f(n - 1)
  }

  lemma {:induction false} SumCong(n: nat, f: nat -> real, g: nat -> real)
    requires forall i: nat :: i < n ==> f(i) == g(i)
    ensures Sum(n, f) == Sum(n, g)
  {
    if n != 0 {
      SumCong(n - 1, f, g);
    }
  }

  lemma {:induction false} SumZero(n: nat, f: nat -> real)
    requires forall i: nat :: i < n ==> f(i) == 0.0
    ensures Sum(n, f) == 0.0
  {
    if n != 0 {
      SumZero(n - 1, f);
    }
  }

  lemma {:induction false} SumNonNegative(n: nat, f: nat -> real)
    requires forall i: nat :: i < n ==> f(i) >= 0.0
    ensures Sum(n, f) >= 0.0
    ensures forall i: nat :: i < n ==> f(i) <= Sum(n, f)
  {
    if n != 0 {
      SumNonNegative(n - 1, f);
    }
  }

  /** A sum with at most one term that is not zero. */
  lemma {:induction false} SumPoint(n: nat, f: nat -> real, k: nat)
    requires k < n && forall i: nat :: i < n && i != k ==> f(i) == 0.0
    ensures Sum(n, f) == f(k)
  {
    if n - 1 == k {
      SumZero(n - 1, f);
    } else {
      SumPoint(n - 1, f, k);
    }
  }

  lemma {:induction false} SumAdd(n: nat, f: nat -> real, g: nat -> real, h: nat -> real)
    requires forall i: nat :: i < n ==> h(i) == f(i) + g(i)
    ensures Sum(n, h) == Sum(n, f) + Sum(n, g)
  {
    if n != 0 {
      SumAdd(n - 1, f, g, h);
    }
  }

  lemma {:induction false} SumScale(n: nat, f: nat -> real, c: real, h: nat -> real)
    requires forall i: nat :: i < n ==> h(i) == c * f(i)
    ensures Sum(n, h) == c * Sum(n, f)
  {
    if n != 0 {
      SumScale(n - 1, f, c, h);
    }
  }

  function Row(f: (nat, nat) -> real, i: nat): nat -> real { (j: nat) => f(i, j) }
  function Column(f: (nat, nat) -> real, j: nat): nat -> real { (i: nat) => f(i, j) }

  /** Changing one term changes the sum by as much. */
  lemma SumChange(n: nat, f: nat -> real, k: nat, c: real, h: nat -> real)
    requires k < n && h(k) == f(k) + c && forall i: nat :: i < n && i != k ==> h(i) == f(i)
    ensures Sum(n, h) == Sum(n, f) + c
  {
    var point := (i: nat) => if i == k then c else 0.0;
    SumPoint(n, point, k);
    SumAdd(n, f, point, h);
  }

  /** The order of a double sum does not matter. */
  lemma {:induction false} SumSwap(m: nat, n: nat, f: (nat, nat) -> real, rows: nat -> real, columns: nat -> real)
    requires forall i: nat :: i < m ==> rows(i) == Sum(n, Row(f, i))
    requires forall j: nat :: j < n ==> columns(j) == Sum(m, Column(f, j))
    ensures Sum(m, rows) == Sum(n, columns)
  {
    if m == 0 {
      SumZero(n, columns);
    } else {
      var fewer := (j: nat) => Sum(m - 1, Column(f, j));
      SumSwap(m - 1, n, f, rows, fewer);
      SumAdd(n, fewer, Row(f, m - 1), columns);
    }
  }
}
