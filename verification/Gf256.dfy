/** The field GF(2^8) of FIPS 197, section 4.2: bytes are polynomials over GF(2),
    addition is exclusive or, and multiplication is taken modulo
    m(x) = x^8 + x^4 + x^3 + x + 1 (0x11b). */
module Gf256 {
  import opened Basics

  type Byte = bv8

  // ---- Operations ------------------------------------------------------------------------------

  function Add(a: Byte, b: Byte): Byte { a ^ b }
  function Half(b: Byte): Byte { b >> 1 }
  predicate Odd(b: Byte) { b & 1 == 1 }
  function When(bit: bool, v: Byte): Byte { if bit then v else 0 }

  /** Multiplication by the polynomial x. A byte is eight bits wide, so the shift drops what the
      source masks away with 0xff. */
  function XTime(x: Byte): Byte { (x << 1) ^ ((x >> 7) * 0x1b) }

  /** Field multiplication: one XTime for each bit of `b` (FIPS 197, section 4.2.1). */
  function Mul(a: Byte, b: Byte): Byte
    decreases b
  {
    if b == 0 then 0 else Add(When(Odd(b), a), Mul(XTime(a), Half(b)))
  }

  // ---- Bits ------------------------------------------------------------------------------------

  lemma AddAssoc(a: Byte, b: Byte, c: Byte)
    ensures Add(Add(a, b), c) == Add(a, Add(b, c))
  {}

  lemma AddComm(a: Byte, b: Byte)
    ensures Add(a, b) == Add(b, a)
  {}

  lemma AddZero(a: Byte)
    ensures Add(a, 0) == a == Add(0, a) && Add(a, a) == 0
  {}

  lemma AddSwap(a: Byte, b: Byte, c: Byte, d: Byte)
    ensures Add(Add(a, b), Add(c, d)) == Add(Add(a, c), Add(b, d))
  {
    hide *;
    AddAssoc(a, b, Add(c, d));
    AddAssoc(b, c, d);
    AddComm(b, c);
    AddAssoc(c, b, d);
    AddAssoc(a, c, Add(b, d));
  }

  lemma AddCancel(a: Byte, b: Byte)
    ensures Add(a, Add(a, b)) == b
    ensures Add(a, b) == 0 <==> a == b
  {}

  lemma WhenAdd(p: bool, a: Byte, b: Byte)
    ensures When(p, Add(a, b)) == Add(When(p, a), When(p, b))
  {}

  lemma XTimeAdd(a: Byte, b: Byte)
    ensures XTime(Add(a, b)) == Add(XTime(a), XTime(b))
  {}

  lemma XTimeWhen(p: bool, a: Byte)
    ensures XTime(When(p, a)) == When(p, XTime(a))
  {}

  /** The byte as a number, to index a table with it. */
  function Index(a: Byte): (i: nat)
    ensures i < 256
  {
    a as nat
  }

  lemma IndexInjective(a: Byte, b: Byte)
    ensures Index(a) == Index(b) ==> a == b
    ensures Index(0) == 0
  {}

  // ---- Ring laws -------------------------------------------------------------------------------

  lemma MulStep(a: Byte, b: Byte)
    ensures Mul(a, b) == Add(When(Odd(b), a), Mul(XTime(a), Half(b)))
  {}

  lemma {:induction false} MulByZero(a: Byte)
    ensures Mul(a, 0) == 0 == Mul(0, a)
    decreases a
  {
    if a != 0 {
      MulByZero(Half(a));
    }
  }

  lemma {:induction false} MulAddLeft(a: Byte, b: Byte, c: Byte)
    ensures Mul(Add(a, b), c) == Add(Mul(a, c), Mul(b, c))
    decreases c
  {
    hide Add, XTime, Odd, When;
    if c == 0 {
      AddZero(0);
    } else {
      XTimeAdd(a, b);
      MulAddLeft(XTime(a), XTime(b), Half(c));
      WhenAdd(Odd(c), a, b);
      AddSwap(When(Odd(c), a), Mul(XTime(a), Half(c)), When(Odd(c), b), Mul(XTime(b), Half(c)));
    }
  }

  lemma {:induction false} XTimeMul(a: Byte, b: Byte)
    ensures Mul(XTime(a), b) == XTime(Mul(a, b))
    decreases b
  {
    hide Add, Odd, When;
    if b != 0 {
      XTimeMul(XTime(a), Half(b));
      XTimeAdd(When(Odd(b), a), Mul(XTime(a), Half(b)));
      XTimeWhen(Odd(b), a);
    }
  }

  lemma MulWhen(p: bool, a: Byte, b: Byte)
    ensures Mul(When(p, a), b) == When(p, Mul(a, b))
  {
    hide Mul;
    MulByZero(b);
  }

  /** The key symmetry: the two right factors of a product may be exchanged. */
  lemma {:induction false} MulSwap(u: Byte, a: Byte, b: Byte)
    ensures Mul(Mul(u, a), b) == Mul(Mul(u, b), a)
    decreases a
  {
    hide Add, XTime, Odd, When;
    if a == 0 {
      MulByZero(b);
    } else {
      MulAddLeft(When(Odd(a), u), Mul(XTime(u), Half(a)), b);
      MulWhen(Odd(a), u, b);
      MulSwap(XTime(u), Half(a), b);
      XTimeMul(u, b);
    }
  }

  /** All eight steps of Mul at once. */
  lemma MulUnrolled(a: Byte, b: Byte)
    ensures
      var a1 := XTime(a); var a2 := XTime(a1); var a3 := XTime(a2); var a4 := XTime(a3);
      var a5 := XTime(a4); var a6 := XTime(a5); var a7 := XTime(a6);
      var b1 := Half(b); var b2 := Half(b1); var b3 := Half(b2); var b4 := Half(b3);
      var b5 := Half(b4); var b6 := Half(b5); var b7 := Half(b6);
      Mul(a, b) == Add(When(Odd(b), a), Add(When(Odd(b1), a1), Add(When(Odd(b2), a2), Add(When(Odd(b3), a3),
                   Add(When(Odd(b4), a4), Add(When(Odd(b5), a5), Add(When(Odd(b6), a6), Add(When(Odd(b7), a7), 0))))))))
  {
    hide *;
    var a1 := XTime(a); var a2 := XTime(a1); var a3 := XTime(a2); var a4 := XTime(a3);
    var a5 := XTime(a4); var a6 := XTime(a5); var a7 := XTime(a6);
    var b1 := Half(b); var b2 := Half(b1); var b3 := Half(b2); var b4 := Half(b3);
    var b5 := Half(b4); var b6 := Half(b5); var b7 := Half(b6);
    MulStep(a, b);
    MulStep(a1, b1);
    MulStep(a2, b2);
    MulStep(a3, b3);
    MulStep(a4, b4);
    MulStep(a5, b5);
    MulStep(a6, b6);
    MulStep(a7, b7);
    EightHalves(b);
    MulByZero(XTime(a7));
  }

  lemma EightHalves(b: Byte)
    ensures Half(Half(Half(Half(Half(Half(Half(Half(b)))))))) == 0
  {}

  lemma MulOne(a: Byte)
    ensures Mul(a, 1) == a == Mul(1, a)
  {
    hide Mul;
    MulUnrolled(a, 1);
    MulUnrolled(1, a);
  }

  lemma MulComm(a: Byte, b: Byte)
    ensures Mul(a, b) == Mul(b, a)
  {
    hide *;
    MulSwap(1, a, b);
    MulOne(a);
    MulOne(b);
  }

  lemma MulAssoc(a: Byte, b: Byte, c: Byte)
    ensures Mul(Mul(a, b), c) == Mul(a, Mul(b, c))
  {
    hide *;
    MulComm(a, b);
    MulSwap(b, a, c);
    MulComm(a, Mul(b, c));
  }

  lemma MulAddRight(a: Byte, b: Byte, c: Byte)
    ensures Mul(a, Add(b, c)) == Add(Mul(a, b), Mul(a, c))
  {
    hide *;
    MulAddLeft(b, c, a);
    MulComm(a, Add(b, c));
    MulComm(a, b);
    MulComm(a, c);
  }

  // ---- Multiplication is the polynomial product modulo m(x) -------------------------------------

  type Wide = bv16

  function WideAdd(a: Wide, b: Wide): Wide { a ^ b }
  function WideWhen(bit: bool, v: Wide): Wide { if bit then v else 0 }
  function Twice(a: Wide): Wide { a << 1 }
  function Widen(a: Byte): Wide { a as Wide }
  predicate Top(a: Byte) { a >> 7 == 1 }
  const MODULUS: Wide := 0x11b

  /** The product of two polynomials over GF(2), not reduced. With `a` and `b` below degree 8 it
      stays below degree 15, so sixteen bits hold it. */
  function Product(a: Wide, b: Byte): Wide
    decreases b
  {
    if b == 0 then 0 else WideAdd(WideWhen(Odd(b), a), Product(Twice(a), Half(b)))
  }

  lemma WideAddLaws(a: Wide, b: Wide, c: Wide)
    ensures WideAdd(WideAdd(a, b), c) == WideAdd(a, WideAdd(b, c))
    ensures WideAdd(a, b) == WideAdd(b, a)
    ensures WideAdd(a, a) == 0
  {}

  lemma WideAddSwap(a: Wide, b: Wide, c: Wide, d: Wide)
    ensures WideAdd(WideAdd(a, b), WideAdd(c, d)) == WideAdd(WideAdd(a, c), WideAdd(b, d))
  {
    hide *;
    WideAddLaws(a, b, WideAdd(c, d));
    WideAddLaws(b, c, d);
    WideAddLaws(c, b, d);
    WideAddLaws(a, c, WideAdd(b, d));
  }

  lemma WideLinear(p: bool, a: Wide, b: Wide)
    ensures WideWhen(p, WideAdd(a, b)) == WideAdd(WideWhen(p, a), WideWhen(p, b))
    ensures Twice(WideAdd(a, b)) == WideAdd(Twice(a), Twice(b))
    ensures WideAdd(0, a) == a == WideAdd(a, 0)
  {}

  lemma OddAdd(b: Byte, c: Byte)
    ensures Odd(Add(b, c)) == (Odd(b) != Odd(c))
    ensures Half(Add(b, c)) == Add(Half(b), Half(c))
  {}

  lemma WideWhenXor(p: bool, q: bool, a: Wide)
    ensures WideWhen(p != q, a) == WideAdd(WideWhen(p, a), WideWhen(q, a))
  {
    hide WideAdd;
    WideAddLaws(a, a, a);
    WideLinear(p, a, a);
    WideLinear(p, 0, 0);
  }

  lemma ProductStep(a: Wide, b: Byte)
    ensures Product(a, b) == WideAdd(WideWhen(Odd(b), a), Product(Twice(a), Half(b)))
  {}

  lemma {:induction false} ProductAddLeft(a: Wide, b: Wide, c: Byte)
    ensures Product(WideAdd(a, b), c) == WideAdd(Product(a, c), Product(b, c))
    decreases c
  {
    hide WideAdd, Twice, Odd, WideWhen;
    if c == 0 {
      WideLinear(true, 0, 0);
    } else {
      WideLinear(Odd(c), a, b);
      ProductAddLeft(Twice(a), Twice(b), Half(c));
      WideAddSwap(WideWhen(Odd(c), a), Product(Twice(a), Half(c)), WideWhen(Odd(c), b), Product(Twice(b), Half(c)));
    }
  }

  lemma {:induction false} ProductAddRight(a: Wide, b: Byte, c: Byte)
    ensures Product(a, Add(b, c)) == WideAdd(Product(a, b), Product(a, c))
    decreases b, c
  {
    if b == 0 {
      AddZero(c);
    } else {
      hide WideAdd, Twice, Odd, WideWhen, Product;
      ProductAddRight(Twice(a), Half(b), Half(c));
      OddAdd(b, c);
      WideWhenXor(Odd(b), Odd(c), a);
      ProductStep(a, b);
      ProductStep(a, c);
      ProductStep(a, Add(b, c));
      WideAddSwap(WideWhen(Odd(b), a), Product(Twice(a), Half(b)), WideWhen(Odd(c), a), Product(Twice(a), Half(c)));
    }
  }

  lemma {:induction false} ZeroProduct(b: Byte)
    ensures Product(0, b) == 0
    decreases b
  {
    if b != 0 {
      ZeroProduct(Half(b));
    }
  }

  lemma WidenFacts(p: bool, a: Byte, b: Byte)
    ensures Twice(Widen(a)) == WideAdd(Widen(XTime(a)), WideWhen(Top(a), MODULUS))
    ensures Widen(Add(a, b)) == WideAdd(Widen(a), Widen(b))
    ensures Widen(When(p, a)) == WideWhen(p, Widen(a))
  {}

  /** Mul(a, b) is the remainder of the plain product on division by m(x): the two differ by a
      multiple of m(x), and a byte has degree below that of m(x). */
  lemma {:induction false} MulIsProductModM(a: Byte, b: Byte) returns (quotient: Byte)
    ensures Product(Widen(a), b) == WideAdd(Product(MODULUS, quotient), Widen(Mul(a, b)))
    decreases b
  {
    hide WideAdd, Twice, Odd, WideWhen, XTime, Add, When, Widen, Top, Product;
    if b == 0 {
      quotient := 0;
      ZeroCase(Widen(a));
    } else {
      var q := MulIsProductModM(XTime(a), Half(b));
      var r := When(Top(a), Half(b));
      quotient := Add(q, r);
      ProductStep(Widen(a), b);
      WidenFacts(Odd(b), a, a);
      ProductAddLeft(Widen(XTime(a)), WideWhen(Top(a), MODULUS), Half(b));
      ProductWhen(Top(a), MODULUS, Half(b));
      ProductAddRight(MODULUS, q, r);
      var w, m, y, z := Widen(Mul(XTime(a), Half(b))), Product(MODULUS, q), Product(MODULUS, r), WideWhen(Odd(b), Widen(a));
      assert Product(Widen(a), b) == WideAdd(z, WideAdd(WideAdd(m, w), y));
      WidenFacts(Odd(b), When(Odd(b), a), Mul(XTime(a), Half(b)));
      WidenFacts(Odd(b), a, a);
      assert Widen(Mul(a, b)) == WideAdd(z, w);
      WideRegroup(z, m, w, y);
    }
  }

  lemma ZeroCase(w: Wide)
    ensures Product(w, 0) == 0 == WideAdd(Product(MODULUS, 0), Widen(0))
  {}

  lemma ProductWhen(p: bool, a: Wide, b: Byte)
    ensures Product(WideWhen(p, a), b) == Product(a, When(p, b))
  {
    ZeroProduct(b);
  }

  lemma WideRegroup(z: Wide, m: Wide, w: Wide, y: Wide)
    ensures WideAdd(z, WideAdd(WideAdd(m, w), y)) == WideAdd(WideAdd(m, y), WideAdd(z, w))
  {
    hide *;
    WideAddLaws(m, w, y);
    WideAddLaws(w, y, y);
    WideAddLaws(m, y, w);
    WideAddLaws(z, WideAdd(m, y), w);
    WideAddLaws(WideAdd(m, y), z, w);
  }

  // ---- Powers of the generator 3 ----------------------------------------------------------------

  /** The i-th power of the generator 3. */
  function Pow(i: nat): Byte { if i == 0 then 1 else Mul(Pow(i - 1), 3) }

  lemma {:induction false} PowAdd(i: nat, j: nat)
    ensures Pow(i + j) == Mul(Pow(i), Pow(j))
  {
    hide Mul;
    if j == 0 {
      MulOne(Pow(i));
    } else {
      PowAdd(i, j - 1);
      MulAssoc(Pow(i), Pow(j - 1), 3);
    }
  }

  /** One step of the table fill: multiplying by 3 is XTime plus the value itself. */
  lemma PowNext(i: nat)
    ensures Pow(i + 1) == XTime(Pow(i)) ^ Pow(i)
  {
    hide Mul;
    MulUnrolled(Pow(i), 3);
  }

  lemma Products()
    ensures Mul(3, 3) == 5
    ensures Mul(5, 3) == 15
    ensures Mul(15, 5) == 51
    ensures Mul(51, 51) == 114
    ensures Mul(114, 51) == 53
    ensures Mul(53, 5) == 225
    ensures Mul(225, 225) == 92
    ensures Mul(92, 225) == 12
    ensures Mul(12, 92) == 189
    ensures Mul(189, 189) == 188
    ensures Mul(188, 189) == 1
  {
    hide Mul;
    assert Mul(3, 3) == 5 by { MulUnrolled(3, 3); }
    assert Mul(5, 3) == 15 by { MulUnrolled(5, 3); }
    assert Mul(15, 5) == 51 by { MulUnrolled(15, 5); }
    assert Mul(51, 51) == 114 by { MulUnrolled(51, 51); }
    assert Mul(114, 51) == 53 by { MulUnrolled(114, 51); }
    assert Mul(53, 5) == 225 by { MulUnrolled(53, 5); }
    assert Mul(225, 225) == 92 by { MulUnrolled(225, 225); }
    assert Mul(92, 225) == 12 by { MulUnrolled(92, 225); }
    assert Mul(12, 92) == 189 by { MulUnrolled(12, 92); }
    assert Mul(189, 189) == 188 by { MulUnrolled(189, 189); }
    assert Mul(188, 189) == 1 by { MulUnrolled(188, 189); }
  }

  lemma PowValues()
    ensures Pow(255) == 1
    ensures Pow(15) != 1 && Pow(51) != 1 && Pow(85) != 1
  {
    hide Mul;
    Products();
    MulOne(3);
    PowAdd(1, 1);
    PowAdd(2, 1);
    PowAdd(3, 2);
    PowAdd(5, 5);
    PowAdd(10, 5);
    PowAdd(15, 2);
    PowAdd(17, 17);
    PowAdd(34, 17);
    PowAdd(51, 34);
    PowAdd(85, 85);
    PowAdd(170, 85);
  }

  lemma PowPeriod(i: nat)
    ensures Pow(i + 255) == Pow(i)
  {
    hide Mul, Pow;
    PowValues();
    PowAdd(i, 255);
    MulOne(Pow(i));
  }

  lemma PowZero()
    ensures Pow(0) == 1
  {}

  lemma {:induction false} PowMultiple(k: nat, q: nat)
    requires Pow(k) == 1
    ensures Pow(q * k) == 1
  {
    hide Mul;
    if q != 0 {
      PowMultiple(k, q - 1);
      PowAdd((q - 1) * k, k);
      assert (q - 1) * k + k == q * k;
      MulOne(1);
    }
  }

  lemma PowRemainder(k: nat, d: nat)
    requires k > 0 && Pow(k) == 1
    ensures Pow(d) == Pow(d % k)
  {
    hide Mul, Pow;
    PowMultiple(k, d / k);
    assert d == d / k * k + d % k;
    PowAdd(d / k * k, d % k);
    MulOne(Pow(d % k));
  }

  /** Every proper divisor of 255 divides 15, 51 or 85. */
  lemma ProperDivisors(k: nat)
    requires 0 < k < 255 && 255 % k == 0
    ensures 15 % k == 0 || 51 % k == 0 || 85 % k == 0
  {
    var q := 255 / k;
    assert q * k == 255;
    if q <= 15 {
      assert q == 3 || q == 5 || q == 15;
    } else {
      assert k < 16;
    }
  }

  /** The order of 3 is exactly 255: 3 generates the whole multiplicative group. */
  lemma {:induction false} PowNotOne(k: nat)
    requires 0 < k < 255
    ensures Pow(k) != 1
    decreases k
  {
    hide Mul, Pow;
    PowValues();
    if Pow(k) == 1 {
      PowRemainder(k, 255);
      if 255 % k != 0 {
        PowNotOne(255 % k);
      } else {
        assert Pow(0) == 1 by { PowRemainder(k, k); }
        ProperDivisors(k);
        PowRemainder(k, if 15 % k == 0 then 15 else if 51 % k == 0 then 51 else 85);
      }
    }
  }

  lemma PowNotZero(i: nat)
    requires i <= 255
    ensures Pow(i) != 0
  {
    hide Mul, Pow;
    PowValues();
    PowAdd(i, 255 - i);
    MulByZero(Pow(255 - i));
  }

  lemma PowInjective(i: nat, j: nat)
    requires i < j < 255
    ensures Pow(i) != Pow(j)
  {
    hide Mul, Pow;
    PowValues();
    PowAdd(i, 255 - i);
    PowAdd(j, 255 - i);
    assert j + (255 - i) == 255 + (j - i);
    PowAdd(255, j - i);
    MulOne(Pow(j - i));
    PowNotOne(j - i);
  }

  // ---- Every nonzero byte is a power of 3 --------------------------------------------------------

  function Powers(n: nat): set<nat> { if n == 0 then {} else Powers(n - 1) + {Index(Pow(n - 1))} }

  function Upto(n: nat): set<nat> { if n == 0 then {} else Upto(n - 1) + {n} }

  lemma {:induction false} UptoFacts(n: nat)
    ensures |Upto(n)| == n
    ensures forall x :: x in Upto(n) <==> 1 <= x <= n
  {
    if n != 0 {
      UptoFacts(n - 1);
    }
  }

  lemma {:induction false} PowersHit(n: nat, x: nat) returns (i: nat)
    requires x in Powers(n)
    ensures i < n && x == Index(Pow(i))
  {
    hide Mul, Pow, Index;
    if x in Powers(n - 1) {
      i := PowersHit(n - 1, x);
    } else {
      i := n - 1;
    }
  }

  lemma {:induction false} PowersCount(n: nat)
    requires n <= 255
    ensures |Powers(n)| == n
  {
    hide Mul, Pow, Index;
    if n != 0 {
      PowersCount(n - 1);
      if Index(Pow(n - 1)) in Powers(n - 1) {
        var i := PowersHit(n - 1, Index(Pow(n - 1)));
        PowInjective(i, n - 1);
        IndexInjective(Pow(i), Pow(n - 1));
      }
    }
  }

  /** All 255 nonzero bytes are met before the powers repeat. */
  lemma PowersFull(n: nat, a: nat)
    requires n == 255 && 1 <= a <= n
    ensures exists i: nat :: i < n && a == Index(Pow(i))
  {
    hide Pow, Index, Powers, Upto;
    UptoFacts(n);
    PowersCount(n);
    var s, t := Powers(n), Upto(n);
    forall x | x in s ensures x in t {
      var i := PowersHit(n, x);
      PowNotZero(i);
      IndexInjective(Pow(i), 0);
    }
    SubsetSize(s, t);
    assert a in t;
    var i := PowersHit(n, a);
  }

  /** The discrete logarithm exists. */
  lemma LogExists(a: Byte) returns (i: nat)
    requires a != 0
    ensures i < 255 && Pow(i) == a
  {
    hide Mul, Pow, Index;
    IndexInjective(a, 0);
    PowersFull(255, Index(a));
    i :| i < 255 && Index(a) == Index(Pow(i));
    IndexInjective(a, Pow(i));
  }

  // ---- Inverses ----------------------------------------------------------------------------------

  lemma InverseExists(a: Byte) returns (b: Byte)
    requires a != 0
    ensures Mul(a, b) == 1
  {
    hide Mul, Pow;
    var i := LogExists(a);
    b := Pow(255 - i);
    PowAdd(i, 255 - i);
    PowValues();
  }

  /** There are no zero divisors, so a nonzero factor cancels. */
  lemma MulCancel(a: Byte, b: Byte, c: Byte)
    requires a != 0 && Mul(a, b) == Mul(a, c)
    ensures b == c
  {
    hide *;
    var i := InverseExists(a);
    MulComm(a, i);
    MulAssoc(i, a, b);
    MulAssoc(i, a, c);
    MulOne(b);
    MulOne(c);
  }

  lemma MulNotZero(a: Byte, b: Byte)
    requires a != 0 && b != 0
    ensures Mul(a, b) != 0
  {
    hide *;
    MulByZero(a);
    if Mul(a, b) == 0 {
      MulCancel(a, b, 0);
    }
  }
}
