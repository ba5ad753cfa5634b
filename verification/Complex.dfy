/**
 Exact complex arithmetic: the scalars of the z routines, without rounding.
 The real routines are the case in which every imaginary part is zero.
 */
module Complex {

  datatype Scalar = Scalar(re: real, im: real)

  const ZERO := Scalar(0.0, 0.0)
  const ONE := Scalar(1.0, 0.0)

  function Add(x: Scalar, y: Scalar): Scalar {
    Scalar(x.re + y.re, x.im + y.im)
  }

  function Neg(x: Scalar): Scalar {
    Scalar(-x.re, -x.im)
  }

  function Mul(x: Scalar, y: Scalar): Scalar {
    Scalar(x.re * y.re - x.im * y.im, x.re * y.im + x.im * y.re)
  }

  /** The involution behind CblasConjTrans. */
  function Conj(x: Scalar): Scalar {
    Scalar(x.re, -x.im)
  }

  function Times(a: real, b: real): real {
    a * b
  }

  lemma TimesSign(a: real, b: real)
    requires a >= 0.0 && b >= 0.0
    ensures Times(a, b) >= 0.0
    ensures a > 0.0 && b > 0.0 ==> Times(a, b) > 0.0
  {
  }

  lemma SquareSign(a: real)
    ensures Times(a, a) >= 0.0
    ensures a != 0.0 ==> Times(a, a) > 0.0
  {
    if a >= 0.0 {
      TimesSign(a, a);
    } else {
      TimesSign(-a, -a);
      assert Times(-a, -a) == Times(a, a);
    }
  }

  function Norm2(x: Scalar): (n: real)
    ensures x != ZERO ==> n > 0.0
  {
    SquareSign(x.re);
    SquareSign(x.im);
    Times(x.re, x.re) + Times(x.im, x.im)
  }

  /** The multiplicative inverse; it is only ever taken of a nonzero scalar. */
  function Inv(x: Scalar): (y: Scalar)
    requires x != ZERO
    ensures Mul(x, y) == ONE
  {
    InvIsInverse(x, Norm2(x));
    Scalar(x.re / Norm2(x), -x.im / Norm2(x))
  }

  lemma InvIsInverse(x: Scalar, n: real)
    requires n == x.re * x.re + x.im * x.im && n > 0.0
    ensures Mul(x, Scalar(x.re / n, -x.im / n)) == ONE
  {
    calc {
      x.re * (x.re / n) - x.im * (-x.im / n);
      (x.re * x.re + x.im * x.im) / n;
      1.0;
    }
    assert x.re * (-x.im / n) == -(x.re * x.im) / n;
    assert x.im * (x.re / n) == (x.re * x.im) / n;
  }

  lemma AddAssoc(x: Scalar, y: Scalar, z: Scalar)
    ensures Add(Add(x, y), z) == Add(x, Add(y, z))
  {
  }

  lemma MulZero(x: Scalar)
    ensures Mul(ZERO, x) == ZERO && Mul(x, ZERO) == ZERO
  {
  }

  lemma MulComm(x: Scalar, y: Scalar)
    ensures Mul(x, y) == Mul(y, x)
  {
  }

  lemma MulAssoc(x: Scalar, y: Scalar, z: Scalar)
    ensures Mul(Mul(x, y), z) == Mul(x, Mul(y, z))
  {
  }

  lemma Distrib(x: Scalar, y: Scalar, z: Scalar)
    ensures Mul(x, Add(y, z)) == Add(Mul(x, y), Mul(x, z))
  {
  }

  lemma MulOne(x: Scalar)
    ensures Mul(ONE, x) == x && Mul(x, ONE) == x
  {
  }

  lemma AddZero(x: Scalar)
    ensures Add(ZERO, x) == x && Add(x, ZERO) == x
  {
  }

  lemma AddComm(x: Scalar, y: Scalar)
    ensures Add(x, y) == Add(y, x)
  {
  }

  lemma MulNeg(x: Scalar, y: Scalar)
    ensures Mul(x, Neg(y)) == Neg(Mul(x, y))
  {
  }

  lemma MulMinusOne(x: Scalar)
    ensures Mul(Neg(ONE), x) == Neg(x)
  {
  }

  /** A known part d and a freshly solved part e that equals sv complete the right-hand side. */
  lemma Completes(sv: Scalar, d: Scalar, e: Scalar, rhs: Scalar)
    requires Add(sv, d) == rhs && e == sv
    ensures Add(d, e) == rhs
  {
  }

  /** Subtracting g, in either of the two scalings that triangular solves use. */
  lemma Subtracts(scale: Scalar, scale': Scalar, gamma: Scalar, beta: Scalar,
                  v: Scalar, g: Scalar, d: Scalar, rhs: Scalar)
    requires Mul(scale', gamma) == Neg(ONE) && Mul(scale', beta) == scale
    requires Add(Mul(scale, v), d) == rhs
    ensures Add(Mul(scale', Add(Mul(gamma, g), Mul(beta, v))), Add(d, g)) == rhs
  {
    assert Mul(scale', Add(Mul(gamma, g), Mul(beta, v))) == Add(Neg(g), Mul(scale, v)) by {
      hide *;
      Distrib(scale', Mul(gamma, g), Mul(beta, v));
      MulAssoc(scale', gamma, g);
      MulAssoc(scale', beta, v);
      MulMinusOne(g);
    }
  }

  /** Adding one more contribution g to a scaled partial sum d. */
  lemma Accumulates(alpha: Scalar, d: Scalar, g: Scalar)
    ensures Add(Mul(alpha, g), Mul(ONE, Mul(alpha, d))) == Mul(alpha, Add(d, g))
  {
    hide *;
    MulOne(Mul(alpha, d));
    AddComm(Mul(alpha, g), Mul(alpha, d));
    Distrib(alpha, d, g);
  }

  /** Adding one more contribution g to alpha d + b. */
  lemma AccumulatesOnto(alpha: Scalar, d: Scalar, g: Scalar, b: Scalar)
    ensures Add(Mul(alpha, g), Mul(ONE, Add(Mul(alpha, d), b))) == Add(Mul(alpha, Add(d, g)), b)
  {
    hide *;
    MulOne(Add(Mul(alpha, d), b));
    Distrib(alpha, d, g);
    AddAssoc(Mul(alpha, g), Mul(alpha, d), b);
    AddComm(Mul(alpha, g), Mul(alpha, d));
  }
}
