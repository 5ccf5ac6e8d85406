/**
 * Complex arithmetic as the kernels spell it out on interleaved
 * (real, imaginary) pairs. Values are exact reals: the model has no
 * rounding.
 */
module Cplx {

  datatype Complex = Complex(re: real, im: real)

  const Zero: Complex := Complex(0.0, 0.0)

  /** A real number seen as a complex one with zero imaginary part. */
  function Lift(x: real): Complex
  {
    Complex(x, 0.0)
  }

  function Add(a: Complex, b: Complex): Complex
  {
    Complex(a.re + b.re, a.im + b.im)
  }

  function Sub(a: Complex, b: Complex): Complex
  {
    Complex(a.re - b.re, a.im - b.im)
  }

  function Neg(a: Complex): Complex
  {
    Complex(-a.re, -a.im)
  }

  function Conj(a: Complex): Complex
  {
    Complex(a.re, -a.im)
  }

  /** The product as the kernels write it: (ar*br - ai*bi, ar*bi + ai*br). */
  function Mul(a: Complex, b: Complex): Complex
  {
    Complex(a.re * b.re - a.im * b.im, a.re * b.im + a.im * b.re)
  }

  /** A complex value times a real one. */
  function Scale(s: real, a: Complex): Complex
  {
    Complex(s * a.re, s * a.im)
  }

  /** |a|^2 */
  function Norm2(a: Complex): real
  {
    a.re * a.re + a.im * a.im
  }

  /**
   * n/d written as the kernels do: (n * conj d) / |d|^2. Total: a zero
   * divisor gives zero (the kernels' callers exclude that case).
   */
  function Div(n: Complex, d: Complex): Complex
  {
    var den := Norm2(d);
    if den == 0.0 then Zero
    else Complex((n.re * d.re + n.im * d.im) / den, (n.im * d.re - n.re * d.im) / den)
  }

  lemma Norm2NonNeg(a: Complex)
    ensures Norm2(a) >= 0.0
  {
  }

  lemma SquarePos(x: real)
    ensures x * x >= 0.0 && (x != 0.0 ==> x * x > 0.0)
  {
    if x < 0.0 {
      assert x * x == (-x) * (-x);
    }
  }

  /** Division undoes multiplication by a nonzero divisor. */
  lemma DivMul(n: Complex, d: Complex)
    requires Norm2(d) != 0.0
    ensures Mul(Div(n, d), d) == n
  {
    var den := Norm2(d);
    var a := n.re * d.re + n.im * d.im;
    var b := n.im * d.re - n.re * d.im;
    assert Div(n, d) == Complex(a / den, b / den);
    assert a * d.re - b * d.im == n.re * den;
    assert a * d.im + b * d.re == n.im * den;
    QuotParts(a, b, d.re, d.im, den, n.re);
    QuotParts(a, b, d.im, -d.re, den, n.im);
  }

  /** (a/q) u - (b/q) v == (a u - b v) / q, which is r when a u - b v == r q. */
  lemma QuotParts(a: real, b: real, u: real, v: real, q: real, r: real)
    requires q != 0.0 && a * u - b * v == r * q
    ensures (a / q) * u - (b / q) * v == r
  {
    assert (a / q) * u - (b / q) * v == (a * u - b * v) / q;
  }

  /** On real values the complex operations are the real ones. */
  lemma LiftArith(x: real, y: real)
    ensures Add(Lift(x), Lift(y)) == Lift(x + y)
    ensures Sub(Lift(x), Lift(y)) == Lift(x - y)
    ensures Mul(Lift(x), Lift(y)) == Lift(x * y)
    ensures Neg(Lift(x)) == Lift(-x)
    ensures Conj(Lift(x)) == Lift(x)
    ensures Norm2(Lift(x)) == x * x
    ensures Scale(y, Lift(x)) == Lift(y * x)
  {
  }

  /** Division of real values, with the real zero-divisor convention. */
  lemma LiftDiv(x: real, y: real)
    ensures Div(Lift(x), Lift(y)) == Lift(if y == 0.0 then 0.0 else x / y)
  {
    if y != 0.0 {
      assert Norm2(Lift(y)) == y * y;
      Cancel(x, y, y);
    }
  }

  /** (x*z)/(y*z) == x/y; stated over three names so squares instantiate it. */
  lemma Cancel(x: real, y: real, z: real)
    requires y != 0.0 && z != 0.0
    ensures (x * z) / (y * z) == x / y
  {
    var q := x / y;
    assert x == q * y;
    assert x * z == q * (y * z);
  }
}
