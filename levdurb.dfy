/**
 * Autoregressive (AR) coefficients from autocorrelation values by the
 * Levinson-Durbin recursion, one vector at a time along axis `dim`
 * (c/ac2ar_levdurb.c: ac2ar_levdurb_s/_d real, ac2ar_levdurb_c/_z complex).
 *
 * For a vector x of Lx autocorrelation values the kernel writes P = Lx-1
 * coefficients. Order 1 is y = [x1/x0] with prediction error
 * e = x0 + a*x1, a = -x1/x0. Order p -> p+1:
 *     acc = x[p+1] - sum_{q<p} x[p-q] * y[q]
 *     a   = acc / (-e)
 *     y[j] := y[j] + a * snap(y[p-1-j])   (j < p, from a scratch copy)
 *     y[p] := -a
 *     e   := e * (1 - |a|^2)
 * where snap is the identity for real data and the conjugate for complex
 * data. The real and complex kernels differ only in that arithmetic, so the
 * recursion is written once over an `Ops` record of the operations.
 *
 * For real data the coefficients solve the Toeplitz (Yule-Walker) normal
 * equations sum_j y[j] * x[|i-j|] == x[i+1], the final error is
 * x0 - sum_j y[j] * x[j+1], and the coefficients are the step-up recursion
 * (ReflToAr) of the values written at y[p], the reflection coefficients.
 * On complex input with zero imaginary parts the complex kernel gives the
 * real kernel's coefficients.
 */
module LevDurb {
  import opened Strided
  import opened Cplx
  import ReflToAr

  // ---------------------------------------------------------------------
  // The recursion, over the arithmetic of either kernel

  /** The arithmetic a kernel uses. */
  datatype Ops<!T> = Ops(
    add: (T, T) -> T,
    sub: (T, T) -> T,
    mul: (T, T) -> T,
    neg: T -> T,
    snap: T -> T,             // what the scratch A keeps of a coefficient
    over: (T, real) -> T,     // a value divided by the (real) error
    ratio: (T, T) -> T,       // x1 / x0
    norm2: T -> real,         // |a|^2
    err0: (T, T, T) -> real)  // the order-1 error from x0, x1 and a

  /** Division with the kernels' divisors; a zero divisor gives zero. */
  function Quot(n: real, d: real): real
  {
    ReflToAr.Quot(n, d)
  }

  /** ac2ar_levdurb_s / _d: real arithmetic, e = x0 + a*x1 (c/ac2ar_levdurb.c:63-65). */
  function RealOps(): Ops<real>
  {
    Ops((u, v) => u + v, (u, v) => u - v, (u, v) => u * v, u => -u, u => u,
        (u, r) => Quot(u, r), (n, d) => Quot(n, d), u => u * u,
        (x0, x1, a) => x0 + a * x1)
  }

  /**
   * ac2ar_levdurb_c / _z: complex arithmetic with the plain product in the
   * prediction sum, a conjugated scratch copy (c/ac2ar_levdurb.c:319) and
   * e = Re(x0) * (1 - |a|^2) (c/ac2ar_levdurb.c:306).
   */
  function ComplexOps(): Ops<Complex>
  {
    Ops(Add, Sub, Mul, Neg, Conj,
        (u: Complex, r: real) => Complex(Quot(u.re, r), Quot(u.im, r)), Div, Norm2,
        (x0: Complex, x1: Complex, a: Complex) => x0.re * (1.0 - Norm2(a)))
  }

  /** The coefficients and the prediction error after some order. */
  datatype Lev<T> = Lev(y: seq<T>, e: real)

  /** The prediction sum of step p after n terms: x[p+1] - sum_{q<n} x[p-q] * y[q]. */
  function Acc<T>(o: Ops<T>, x: seq<T>, y: seq<T>, p: nat, n: nat): T
    requires n <= p < |x| - 1 && p <= |y|
  {
    if n == 0 then x[p + 1] else o.sub(Acc(o, x, y, p, n - 1), o.mul(x[p - (n - 1)], y[n - 1]))
  }

  /** The value a of the step from the order |s.y| state s. */
  function Reflection<T>(o: Ops<T>, x: seq<T>, s: Lev<T>): T
    requires |s.y| < |x| - 1
  {
    o.over(Acc(o, x, s.y, |s.y|, |s.y|), -s.e)
  }

  /** The first n updated coefficients y[j] + a * snap(y[p-1-j]), p = |y|. */
  function Updates<T>(o: Ops<T>, y: seq<T>, a: T, n: nat): (r: seq<T>)
    requires n <= |y|
    ensures |r| == n
  {
    if n == 0 then [] else Updates(o, y, a, n - 1) + [o.add(y[n - 1], o.mul(a, o.snap(y[|y| - n])))]
  }

  lemma {:induction false} UpdatesAt<T>(o: Ops<T>, y: seq<T>, a: T, n: nat, j: nat)
    requires j < n <= |y|
    ensures Updates(o, y, a, n)[j] == o.add(y[j], o.mul(a, o.snap(y[|y| - 1 - j])))
  {
    if j < n - 1 {
      UpdatesAt(o, y, a, n - 1, j);
    }
  }

  /** The order p+1 coefficients from the order p ones and a. */
  function Grow<T>(o: Ops<T>, y: seq<T>, a: T): (r: seq<T>)
    ensures |r| == |y| + 1 && r[|y|] == o.neg(a)
  {
    Updates(o, y, a, |y|) + [o.neg(a)]
  }

  /** Coefficient j < p of the grown vector: y[j] + a * snap(y[p-1-j]). */
  lemma GrowAt<T>(o: Ops<T>, y: seq<T>, a: T, j: nat)
    requires j < |y|
    ensures Grow(o, y, a)[j] == o.add(y[j], o.mul(a, o.snap(y[|y| - 1 - j])))
  {
    UpdatesAt(o, y, a, |y|, j);
  }

  /** Order 1. */
  function LevBase<T>(o: Ops<T>, x: seq<T>): (s: Lev<T>)
    requires |x| >= 2
    ensures |s.y| == 1
  {
    var a := o.neg(o.ratio(x[1], x[0]));
    Lev([o.neg(a)], o.err0(x[0], x[1], a))
  }

  /** One order up. */
  function LevStep<T>(o: Ops<T>, x: seq<T>, s: Lev<T>): (s': Lev<T>)
    requires |s.y| < |x| - 1
    ensures |s'.y| == |s.y| + 1
  {
    var a := Reflection(o, x, s);
    Lev(Grow(o, s.y, a), s.e * (1.0 - o.norm2(a)))
  }

  /** The state after order n. */
  function LevOrder<T>(o: Ops<T>, x: seq<T>, n: nat): (s: Lev<T>)
    requires 1 <= n < |x|
    ensures |s.y| == n
  {
    if n == 1 then LevBase(o, x) else LevStep(o, x, LevOrder(o, x, n - 1))
  }

  /** What the kernel writes for one vector: the order Lx-1 coefficients. */
  function LevDurbWith<T>(o: Ops<T>, x: seq<T>): (r: seq<T>)
    ensures |r| == if |x| < 2 then 0 else |x| - 1
  {
    if |x| < 2 then [] else LevOrder(o, x, |x| - 1).y
  }

  /** LevDurbWith as a function value, for the drivers. */
  function LevDurbOf<T>(o: Ops<T>): seq<T> -> seq<T>
  {
    s => LevDurbWith(o, s)
  }

  /** ac2ar_levdurb_s / _d on one vector. */
  function LevDurb(x: seq<real>): (r: seq<real>)
    ensures |r| == if |x| < 2 then 0 else |x| - 1
  {
    LevDurbWith(RealOps(), x)
  }

  /** ac2ar_levdurb_c / _z on one vector. */
  function CLevDurb(x: seq<Complex>): (r: seq<Complex>)
    ensures |r| == if |x| < 2 then 0 else |x| - 1
  {
    LevDurbWith(ComplexOps(), x)
  }

  /** Negation undoes itself, as it does for both kernels' arithmetic. */
  ghost predicate Involutive<T(!new)>(o: Ops<T>)
  {
    forall t :: o.neg(o.neg(t)) == t
  }

  lemma OpsInvolutive()
    ensures Involutive(RealOps()) && Involutive(ComplexOps())
  {
  }

  /** With two values (Lx == 2) the one coefficient is x1/x0 (c/ac2ar_levdurb.c:35). */
  lemma LevDurbPair<T(!new)>(o: Ops<T>, x: seq<T>)
    requires Involutive(o) && |x| == 2
    ensures LevDurbWith(o, x) == [o.ratio(x[1], x[0])]
  {
  }

  // ---------------------------------------------------------------------
  // Real data: the reflection coefficients and the step-up recursion

  /** The values the kernel writes at y[0], y[1], ..., y[n-1]: the last coefficient of each order. */
  function Reflections(x: seq<real>, n: nat): (k: seq<real>)
    requires n < |x|
    ensures |k| == n
  {
    seq(n, p requires 0 <= p < n => LevOrder(RealOps(), x, p + 1).y[p])
  }

  /**
   * The order-n coefficients are the step-up recursion of rc2ar applied to
   * the first n reflection coefficients: each order grows by the lattice
   * update y[j] - k y[n-1-j] with k the new last coefficient.
   */
  lemma {:induction false} LevIsStepUp(x: seq<real>, n: nat)
    requires 1 <= n < |x|
    ensures LevOrder(RealOps(), x, n).y == ReflToAr.StepUpAll(Reflections(x, n), ReflToAr.Lattice)
  {
    if n == 1 {
      LevIsStepUpBase(x);
    } else {
      LevIsStepUp(x, n - 1);
      LevIsStepUpStep(x, n);
    }
  }

  /** The induction step: if order n-1 is the step-up of its reflections, so is order n. */
  lemma LevIsStepUpStep(x: seq<real>, n: nat)
    requires 2 <= n < |x|
    requires LevOrder(RealOps(), x, n - 1).y == ReflToAr.StepUpAll(Reflections(x, n - 1), ReflToAr.Lattice)
    ensures LevOrder(RealOps(), x, n).y == ReflToAr.StepUpAll(Reflections(x, n), ReflToAr.Lattice)
  {
    var s := LevOrder(RealOps(), x, n - 1);
    var a := Reflection(RealOps(), x, s);
    var k, k1, y := Reflections(x, n), Reflections(x, n - 1), LevOrder(RealOps(), x, n).y;
    assert y == Grow(RealOps(), s.y, a) by { LevOrderStep(x, n); }
    assert k == k1 + [y[|y| - 1]] by { ReflectionsSnoc(x, n); }
    StepUpGrow(k1, s.y, a, k, y);
  }

  /** Order 1 is its own reflection coefficient. */
  lemma LevIsStepUpBase(x: seq<real>)
    requires 2 <= |x|
    ensures LevOrder(RealOps(), x, 1).y == ReflToAr.StepUpAll(Reflections(x, 1), ReflToAr.Lattice)
  {
    var k := Reflections(x, 1);
    assert k[..0] == [];
  }

  /** One order more appends its last coefficient. */
  lemma ReflectionsSnoc(x: seq<real>, n: nat)
    requires 1 <= n < |x|
    ensures Reflections(x, n) == Reflections(x, n - 1) + [LevOrder(RealOps(), x, n).y[n - 1]]
  {
    var k, k1 := Reflections(x, n), Reflections(x, n - 1);
    forall p | 0 <= p < n - 1
      ensures k[p] == k1[p]
    {
    }
  }

  /** If y1 is the step-up of k1, growing it by a is the step-up of k1 + [-a]. */
  lemma StepUpGrow(k1: seq<real>, y1: seq<real>, a: real, k: seq<real>, y: seq<real>)
    requires y1 == ReflToAr.StepUpAll(k1, ReflToAr.Lattice) && y == Grow(RealOps(), y1, a)
    requires k == k1 + [y[|y| - 1]]
    ensures y == ReflToAr.StepUpAll(k, ReflToAr.Lattice)
  {
    assert k[..|k| - 1] == k1;
    GrowIsExtend(y1, a);
  }

  /** One order up is one step-up with the new last coefficient -a. */
  lemma GrowIsExtend(y: seq<real>, a: real)
    ensures Grow(RealOps(), y, a) == ReflToAr.Extend(y, -a, ReflToAr.Lattice)
  {
    var g, z := Grow(RealOps(), y, a), ReflToAr.Extend(y, -a, ReflToAr.Lattice);
    forall j | 0 <= j < |y|
      ensures g[j] == z[j]
    {
      GrowAt(RealOps(), y, a, j);
    }
  }

  /**
   * Round trip with rc2ar's inverse: stepping the coefficients of ac2ar down
   * recovers the reflection coefficients, when none of them is +1 or -1.
   */
  lemma LevStepDown(x: seq<real>)
    requires |x| >= 2 && ReflToAr.Stable(Reflections(x, |x| - 1))
    ensures ReflToAr.StepDownAll(LevDurb(x)) == Reflections(x, |x| - 1)
  {
    var k := Reflections(x, |x| - 1);
    assert LevDurb(x) == LevOrder(RealOps(), x, |x| - 1).y;
    LevIsStepUp(x, |x| - 1);
    ReflToAr.StepDownStepUp(k);
  }

  // ---------------------------------------------------------------------
  // Real data: the normal equations and the prediction error

  /** No division by zero: x0 != 0 and every error that divides is nonzero. */
  predicate Regular(x: seq<real>)
  {
    |x| >= 2 && x[0] != 0.0 &&
    forall n :: 1 <= n < |x| - 1 ==> LevOrder(RealOps(), x, n).e != 0.0
  }

  function Abs(k: int): nat
  {
    if k < 0 then -k else k
  }

  /** sum_{j<n} y[j] * x[|i-j|]: row i of the Toeplitz matrix of x times y. */
  function Conv(x: seq<real>, y: seq<real>, i: int, n: nat): real
    requires n <= |y|
    requires n == 0 || (-|x| < i - (n - 1) && i < |x|)
  {
    if n == 0 then 0.0 else Conv(x, y, i, n - 1) + y[n - 1] * x[Abs(i - (n - 1))]
  }

  /** The autocorrelation laid out on both sides of its centre |x|-1. */
  function Sym(x: seq<real>): (t: seq<real>)
    requires |x| >= 1
    ensures |t| == 2 * |x| - 1
    ensures forall j :: 0 <= j < |t| ==> t[j] == x[Abs(j - (|x| - 1))]
  {
    seq(2 * |x| - 1, j requires 0 <= j < 2 * |x| - 1 => x[Abs(j - (|x| - 1))])
  }

  /** Both sides of Sym(x) hold x. */
  lemma SymAt(x: seq<real>, k: nat)
    requires k < |x|
    ensures Sym(x)[|x| - 1 + k] == x[k] && Sym(x)[|x| - 1 - k] == x[k]
  {
    assert Abs(|x| - 1 + k - (|x| - 1)) == k && Abs(|x| - 1 - k - (|x| - 1)) == k;
  }

  /** t[p] equals its reflection about c. */
  ghost predicate Mirrored(t: seq<real>, c: int, p: int)
    requires 0 <= p < |t| && 0 <= 2 * c - p < |t|
  {
    t[p] == t[2 * c - p]
  }

  /** t is symmetric about c. */
  ghost predicate Mirror(t: seq<real>, c: int)
  {
    forall p :: 0 <= p < |t| && 0 <= 2 * c - p < |t| ==> Mirrored(t, c, p)
  }

  lemma MirrorAt(t: seq<real>, c: int, p: int, q: int)
    requires Mirror(t, c) && 0 <= p < |t| && 0 <= q < |t| && p + q == 2 * c
    ensures t[p] == t[q]
  {
    assert Mirrored(t, c, p);
  }

  lemma SymMirror(x: seq<real>)
    requires |x| >= 1
    ensures Mirror(Sym(x), |x| - 1)
  {
    var t, c := Sym(x), |x| - 1;
    forall p | 0 <= p < |t| && 0 <= 2 * c - p < |t|
      ensures Mirrored(t, c, p)
    {
      assert Abs(p - c) == Abs(2 * c - p - c);
    }
  }

  /** sum_{j<n} y[j] * t[o-j]. */
  function Dot(t: seq<real>, y: seq<real>, o: int, n: nat): real
    requires n <= |y| && (n == 0 || n - 1 <= o < |t|)
  {
    if n == 0 then 0.0 else Dot(t, y, o, n - 1) + y[n - 1] * t[o - (n - 1)]
  }

  /** A Toeplitz row is a Dot against the two-sided layout. */
  lemma {:induction false} ConvIsDot(x: seq<real>, y: seq<real>, i: int, n: nat)
    requires 1 <= |x| && n <= |y| && (n == 0 || (-|x| < i - (n - 1) && i < |x|))
    ensures Conv(x, y, i, n) == Dot(Sym(x), y, |x| - 1 + i, n)
  {
    if n > 0 {
      ConvIsDot(x, y, i, n - 1);
    }
  }

  /** Dot reads only the first n coefficients and is linear in them. */
  lemma {:induction false} DotLinear(t: seq<real>, y: seq<real>, z: seq<real>, w: seq<real>, a: real, o: int, n: nat)
    requires n <= |y| && n <= |z| && n <= |w| && (n == 0 || n - 1 <= o < |t|)
    requires forall j :: 0 <= j < n ==> w[j] == y[j] + a * z[j]
    ensures Dot(t, w, o, n) == Dot(t, y, o, n) + a * Dot(t, z, o, n)
  {
    if n > 0 {
      DotLinear(t, y, z, w, a, o, n - 1);
    }
  }

  /** Peeling the first term: the rest is a shifted Dot. */
  lemma {:induction false} DotFirst(t: seq<real>, y: seq<real>, o: int, n: nat)
    requires 1 <= n <= |y| && n - 1 <= o < |t|
    ensures Dot(t, y, o, n) == y[0] * t[o] + Dot(t, y[1..], o - 1, n - 1)
  {
    if n > 1 {
      DotFirst(t, y, o, n - 1);
      assert y[1..][n - 2] == y[n - 1];
    }
  }

  /** Reversed coefficients against a symmetric t: Toeplitz matrices are persymmetric. */
  lemma {:induction false} DotReverse(t: seq<real>, c: int, y: seq<real>, z: seq<real>, o: int, o': int, n: nat)
    requires Mirror(t, c) && n <= |y| && n <= |z|
    requires n == 0 || (n - 1 <= o < |t| && n - 1 <= o' < |t|)
    requires o + o' == 2 * c + n - 1
    requires forall j :: 0 <= j < n ==> z[j] == y[n - 1 - j]
    ensures Dot(t, z, o, n) == Dot(t, y, o', n)
  {
    if n > 0 {
      DotFirst(t, y, o', n);
      DotReverse(t, c, y[1..], z, o, o' - 1, n - 1);
      MirrorAt(t, c, o - (n - 1), o');
    }
  }

  /** The prediction sum of the real kernel, in plain arithmetic. */
  function RealAcc(x: seq<real>, y: seq<real>, p: nat, n: nat): real
    requires n <= p < |x| - 1 && p <= |y|
  {
    if n == 0 then x[p + 1] else RealAcc(x, y, p, n - 1) - x[p - (n - 1)] * y[n - 1]
  }

  lemma {:induction false} AccIsReal(x: seq<real>, y: seq<real>, p: nat, n: nat)
    requires n <= p < |x| - 1 && p <= |y|
    ensures Acc(RealOps(), x, y, p, n) == RealAcc(x, y, p, n)
  {
    if n > 0 {
      AccIsReal(x, y, p, n - 1);
    }
  }

  /** For real data the prediction sum is x[p+1] minus row p. */
  lemma {:induction false} AccIsDot(x: seq<real>, t: seq<real>, c: int, y: seq<real>, p: nat, n: nat)
    requires n <= p < |x| - 1 && p <= |y| && t == Sym(x) && c == |x| - 1
    ensures RealAcc(x, y, p, n) == t[c + p + 1] - Dot(t, y, c + p, n)
  {
    if n == 0 {
      SymIndex(x, t, c, c + p + 1, p + 1);
    } else {
      AccIsDot(x, t, c, y, p, n - 1);
      SymIndex(x, t, c, c + p - (n - 1), p - (n - 1));
      DotLast(t, y, c + p, n - 1, n);
      AccArith(RealAcc(x, y, p, n), RealAcc(x, y, p, n - 1), t[c + p + 1],
               Dot(t, y, c + p, n), Dot(t, y, c + p, n - 1), x[p - (n - 1)], y[n - 1], t[c + p - (n - 1)]);
    }
  }

  /** Entry i = c + k of the two-sided layout is x[k]. */
  lemma SymIndex(x: seq<real>, t: seq<real>, c: int, i: int, k: nat)
    requires k < |x| && t == Sym(x) && c == |x| - 1 && i == c + k
    ensures t[i] == x[k]
  {
    SymAt(x, k);
  }

  lemma AccArith(acc: real, acc0: real, tr: real, d: real, d0: real, xq: real, yq: real, tq: real)
    requires acc0 == tr - d0 && acc == acc0 - xq * yq && d == d0 + yq * tq && tq == xq
    ensures acc == tr - d
  {
  }

  /**
   * The Levinson-Durbin theorem: the order-n coefficients solve the normal
   * equations and the error is what they leave unpredicted.
   */
  lemma LevSolves(x: seq<real>, n: nat)
    requires Regular(x) && 1 <= n < |x|
    ensures forall i :: 0 <= i < n ==> Conv(x, LevOrder(RealOps(), x, n).y, i, n) == x[i + 1]
    ensures LevOrder(RealOps(), x, n).e == x[0] - Conv(x, LevOrder(RealOps(), x, n).y, -1, n)
  {
    var t, c, s := Sym(x), |x| - 1, LevOrder(RealOps(), x, n);
    LevSolvesSym(x, t, c, n);
    forall i | 0 <= i < n
      ensures Conv(x, s.y, i, n) == x[i + 1]
    {
      ConvRow(x, t, c, s.y, i, n);
    }
    ConvError(x, t, c, s.y, s.e, n);
  }

  /** Row i of the two-sided layout is the Toeplitz row i. */
  lemma ConvRow(x: seq<real>, t: seq<real>, c: int, y: seq<real>, i: int, n: nat)
    requires 0 <= i < n < |x| && |y| == n && t == Sym(x) && c == |x| - 1
    requires Dot(t, y, c + i, n) == t[c + i + 1]
    ensures Conv(x, y, i, n) == x[i + 1]
  {
    ConvIsDot(x, y, i, n);
    SymIndex(x, t, c, c + i + 1, i + 1);
  }

  /** The error on the two-sided layout is the Toeplitz error. */
  lemma ConvError(x: seq<real>, t: seq<real>, c: int, y: seq<real>, e: real, n: nat)
    requires 1 <= n < |x| && |y| == n && t == Sym(x) && c == |x| - 1
    requires e == t[c] - Dot(t, y, c - 1, n)
    ensures e == x[0] - Conv(x, y, -1, n)
  {
    ConvIsDot(x, y, -1, n);
    SymIndex(x, t, c, c, 0);
  }

  /**
   * The order-n state s solves the normal equations on the two-sided layout t
   * with centre c, and s.e is the prediction error.
   */
  ghost predicate Solves(t: seq<real>, c: int, s: Lev<real>, n: nat)
    requires |t| == 2 * c + 1 && 1 <= n <= c && |s.y| == n
  {
    (forall o :: c <= o < c + n ==> Dot(t, s.y, o, n) == t[o + 1]) &&
    s.e == t[c] - Dot(t, s.y, c - 1, n)
  }

  /** LevSolves on the two-sided layout t = Sym(x) with centre c = |x|-1. */
  lemma {:induction false} LevSolvesSym(x: seq<real>, t: seq<real>, c: int, n: nat)
    requires Regular(x) && 1 <= n < |x| && t == Sym(x) && c == |x| - 1
    ensures Solves(t, c, LevOrder(RealOps(), x, n), n)
  {
    if n == 1 {
      LevBaseSolves(x, t, c);
    } else {
      LevSolvesSym(x, t, c, n - 1);
      var s := LevOrder(RealOps(), x, n - 1);
      assert s.e != 0.0;
      LevOrderStep(x, n);
      SolvesStep(x, t, c, n, s, LevOrder(RealOps(), x, n));
    }
  }

  lemma LevOrderStep(x: seq<real>, n: nat)
    requires 2 <= n < |x|
    ensures LevOrder(RealOps(), x, n) == LevStep(RealOps(), x, LevOrder(RealOps(), x, n - 1))
  {
  }

  /** One step of the recursion keeps the normal equations solved. */
  lemma SolvesStep(x: seq<real>, t: seq<real>, c: int, n: nat, s: Lev<real>, s': Lev<real>)
    requires 2 <= n < |x| && t == Sym(x) && c == |x| - 1 && |s.y| == n - 1 && s.e != 0.0
    requires Solves(t, c, s, n - 1) && s' == LevStep(RealOps(), x, s)
    ensures Solves(t, c, s', n)
  {
    var acc, a := StepFacts(x, t, c, n - 1, n, s, s');
    StepSolves(t, c, n - 1, n, s.y, s.e, acc, a, s');
  }

  /**
   * s' is the order-n state after the order-m coefficients y with error e,
   * with reflection value a, where acc is the prediction sum of the step, in
   * the two-sided layout t.
   */
  ghost predicate Stepped(t: seq<real>, c: int, m: nat, n: nat, y: seq<real>, e: real, acc: real, a: real, s': Lev<real>)
    requires |t| == 2 * c + 1 && 1 <= m && n == m + 1 <= c && |y| == m && |s'.y| == n
  {
    acc == t[c + m + 1] - Dot(t, y, c + m, m) && a * e == -acc &&
    s'.y[n - 1] == -a && s'.e == e * (1.0 - a * a) &&
    forall j :: 0 <= j < m ==> s'.y[j] == y[j] + a * y[m - 1 - j]
  }

  /** The quantities of one real step, in the layout of StepSolves. */
  lemma StepFacts(x: seq<real>, t: seq<real>, c: int, m: nat, n: nat, s: Lev<real>, s': Lev<real>) returns (acc: real, a: real)
    requires 1 <= m && n == m + 1 < |x| && t == Sym(x) && c == |x| - 1 && |s.y| == m && s.e != 0.0
    requires s' == LevStep(RealOps(), x, s)
    ensures |t| == 2 * c + 1 && Mirror(t, c) && n <= c && |s'.y| == n
    ensures Stepped(t, c, m, n, s.y, s.e, acc, a, s')
  {
    acc := Acc(RealOps(), x, s.y, m, m);
    AccIsReal(x, s.y, m, m);
    AccIsDot(x, t, c, s.y, m, m);
    a := RealStep(x, s, m, n);
    SymMirror(x);
  }

  /** The induction step of LevSolvesSym, from order m to order n = m+1, on plain values. */
  lemma {:induction false} StepSolves(t: seq<real>, c: int, m: nat, n: nat, y: seq<real>, e: real, acc: real, a: real, s': Lev<real>)
    requires |t| == 2 * c + 1 && Mirror(t, c) && 1 <= m && n == m + 1 <= c && |y| == m && |s'.y| == n
    requires forall p :: c <= p < c + m ==> Dot(t, y, p, m) == t[p + 1]
    requires e == t[c] - Dot(t, y, c - 1, m)
    requires Stepped(t, c, m, n, y, e, acc, a, s')
    ensures Solves(t, c, s', n)
  {
    var y' := s'.y;
    var z := seq(m, j requires 0 <= j < m => y[m - 1 - j]);
    UpdateReversed(m, y, z, y', a);
    forall p | c <= p < c + n
      ensures Dot(t, y', p, n) == t[p + 1]
    {
      StepRow(t, c, m, n, y, z, e, acc, a, y', p);
    }
    StepError(t, c, m, n, y, z, e, acc, a, y');
  }

  /** Order 1: y0 = x1/x0 solves x0 * y0 = x1, and e = x0 - y0 * x1. */
  lemma LevBaseSolves(x: seq<real>, t: seq<real>, c: int)
    requires |x| >= 2 && x[0] != 0.0 && t == Sym(x) && c == |x| - 1
    ensures Solves(t, c, LevOrder(RealOps(), x, 1), 1)
  {
    SymAt(x, 0);
    SymAt(x, 1);
    var y0 := RealBase(x);
    var s := LevOrder(RealOps(), x, 1);
    DotOne(t, s.y, c);
    DotOne(t, s.y, c - 1);
    BaseArith(x[0], x[1], y0, s.y[0], t[c], t[c + 1], t[c - 1], s.e);
  }

  /** The order-1 state of the real kernel. */
  lemma RealBase(x: seq<real>) returns (y0: real)
    requires |x| >= 2 && x[0] != 0.0
    ensures y0 == x[1] / x[0] && LevOrder(RealOps(), x, 1) == Lev([y0], x[0] + -y0 * x[1])
  {
    y0 := x[1] / x[0];
  }

  lemma DotOne(t: seq<real>, y: seq<real>, o: int)
    requires 1 <= |y| && 0 <= o < |t|
    ensures Dot(t, y, o, 1) == y[0] * t[o]
  {
  }

  lemma BaseArith(x0: real, x1: real, y0: real, s0: real, tc: real, tr: real, tl: real, e: real)
    requires x0 != 0.0 && y0 == x1 / x0 && s0 == y0 && tc == x0 && tr == x1 && tl == x1
    requires e == x0 + -y0 * x1
    ensures s0 * tc == tr && e == tc - s0 * tl
  {
  }

  /** A real step: a = acc / (-e), and the coefficients grow by the real lattice update. */
  lemma RealStep(x: seq<real>, s: Lev<real>, m: nat, n: nat) returns (a: real)
    requires 1 <= m && n == m + 1 < |x| && |s.y| == m && s.e != 0.0
    ensures a * s.e == -Acc(RealOps(), x, s.y, m, m)
    ensures var s' := LevStep(RealOps(), x, s);
            |s'.y| == n && s'.y[n - 1] == -a && s'.e == s.e * (1.0 - a * a) &&
            forall j :: 0 <= j < m ==> s'.y[j] == s.y[j] + a * s.y[m - 1 - j]
  {
    a := Reflection(RealOps(), x, s);
    var acc := Acc(RealOps(), x, s.y, |s.y|, |s.y|);
    assert a == acc / (-s.e);
    forall j | 0 <= j < m
      ensures LevStep(RealOps(), x, s).y[j] == s.y[j] + a * s.y[m - 1 - j]
    {
      GrowAt(RealOps(), s.y, a, j);
    }
  }

  /** The prediction error of the order-n system. */
  lemma StepError(t: seq<real>, c: int, m: nat, n: nat, y: seq<real>, z: seq<real>, e: real, acc: real, a: real, y': seq<real>)
    requires |t| == 2 * c + 1 && Mirror(t, c) && 1 <= m && n == m + 1 <= c && |y| == m && |z| == m && |y'| == n
    requires e == t[c] - Dot(t, y, c - 1, m)
    requires acc == t[c + m + 1] - Dot(t, y, c + m, m) && a * e == -acc
    requires y'[n - 1] == -a
    requires forall j :: 0 <= j < m ==> z[j] == y[m - 1 - j]
    requires forall j :: 0 <= j < m ==> y'[j] == y[j] + a * z[j]
    ensures e * (1.0 - a * a) == t[c] - Dot(t, y', c - 1, n)
  {
    var g, dz, ym := GrowRow(t, m, n, y, z, y', a, c - 1);
    DotReverse(t, c, y, z, c - 1, c + m, m);
    ErrorSolves(t, c, m, n, y, e, acc, a, ym, g, dz);
  }

  /** Row p of the order-n system. */
  lemma StepRow(t: seq<real>, c: int, m: nat, n: nat, y: seq<real>, z: seq<real>, e: real, acc: real, a: real, y': seq<real>, p: int)
    requires |t| == 2 * c + 1 && Mirror(t, c) && 1 <= m && n == m + 1 <= c && |y| == m && |z| == m && |y'| == n
    requires c <= p < c + n
    requires forall p :: c <= p < c + m ==> Dot(t, y, p, m) == t[p + 1]
    requires e == t[c] - Dot(t, y, c - 1, m)
    requires acc == t[c + m + 1] - Dot(t, y, c + m, m) && a * e == -acc
    requires y'[n - 1] == -a
    requires forall j :: 0 <= j < m ==> z[j] == y[m - 1 - j]
    requires forall j :: 0 <= j < m ==> y'[j] == y[j] + a * z[j]
    ensures Dot(t, y', p, n) == t[p + 1]
  {
    var g, dz, ym := GrowRow(t, m, n, y, z, y', a, p);
    DotReverse(t, c, y, z, p, 2 * c + m - 1 - p, m);
    RowSolves(t, c, m, n, y, e, acc, a, ym, g, dz, p, 2 * c + m - 1 - p);
  }

  /**
   * Row o after a step, by linearity: the new row g is the old row plus a
   * times the row dz of the reversed coefficients z plus the new last term.
   */
  lemma GrowRow(t: seq<real>, m: nat, n: nat, y: seq<real>, z: seq<real>, y': seq<real>, a: real, o: int)
    returns (g: real, dz: real, ym: real)
    requires 1 <= m && n == m + 1 && |y| == m && |z| == m && |y'| == n && m <= o < |t|
    requires forall j :: 0 <= j < m ==> y'[j] == y[j] + a * z[j]
    ensures g == Dot(t, y', o, n) && ym == y'[n - 1] && dz == Dot(t, z, o, m)
    ensures g == Dot(t, y, o, m) + a * dz + ym * t[o - (n - 1)]
  {
    g, dz, ym := Dot(t, y', o, n), Dot(t, z, o, m), y'[n - 1];
    DotLast(t, y', o, m, n);
    DotLinear(t, y, z, y', a, o, m);
  }

  lemma DotLast(t: seq<real>, y: seq<real>, o: int, m: nat, n: nat)
    requires n == m + 1 <= |y| && m <= o < |t|
    ensures Dot(t, y, o, n) == Dot(t, y, o, m) + y[n - 1] * t[o - (n - 1)]
  {
  }

  /** Row o of the order-n system holds, given how the row grew to g. */
  lemma RowSolves(t: seq<real>, c: int, m: nat, n: nat, y: seq<real>, e: real, acc: real, a: real, ym: real, g: real, dz: real, o: int, o': int)
    requires |t| == 2 * c + 1 && Mirror(t, c) && 1 <= m && n == m + 1 <= c && |y| == m
    requires c <= o < c + n && o + o' == 2 * c + m - 1
    requires forall p :: c <= p < c + m ==> Dot(t, y, p, m) == t[p + 1]
    requires e == t[c] - Dot(t, y, c - 1, m)
    requires acc == t[c + m + 1] - Dot(t, y, c + m, m) && a * e == -acc
    requires ym == -a
    requires g == Dot(t, y, o, m) + a * dz + ym * t[o - (n - 1)]
    requires dz == Dot(t, y, o', m)
    ensures g == t[o + 1]
  {
    if o < c + m {
      MirrorAt(t, c, o' + 1, o - (n - 1));
      RowInner(Dot(t, y, o, m), dz, Dot(t, y, o', m), a, ym, t[o + 1], t[o - (n - 1)]);
    } else {
      RowLast(Dot(t, y, o, m), dz, Dot(t, y, o', m), a, ym, t[o - (n - 1)], e, acc, t[o + 1]);
    }
  }

  /** The prediction error of the order-n system, given how row -1 grew to g. */
  lemma ErrorSolves(t: seq<real>, c: int, m: nat, n: nat, y: seq<real>, e: real, acc: real, a: real, ym: real, g: real, dz: real)
    requires |t| == 2 * c + 1 && Mirror(t, c) && 1 <= m && n == m + 1 <= c && |y| == m
    requires e == t[c] - Dot(t, y, c - 1, m)
    requires acc == t[c + m + 1] - Dot(t, y, c + m, m) && a * e == -acc
    requires ym == -a
    requires g == Dot(t, y, c - 1, m) + a * dz + ym * t[c - 1 - (n - 1)]
    requires dz == Dot(t, y, c + m, m)
    ensures e * (1.0 - a * a) == t[c] - g
  {
    MirrorAt(t, c, c - 1 - (n - 1), c + m + 1);
    ErrorLast(Dot(t, y, c - 1, m), dz, Dot(t, y, c + m, m), a, ym, t[c], e, acc, t[c + m + 1], t[c - 1 - (n - 1)]);
  }

  /** The update rule restated with the reversed coefficients z. */
  lemma UpdateReversed(m: nat, y: seq<real>, z: seq<real>, y': seq<real>, a: real)
    requires |z| == |y| == m < |y'|
    requires forall j :: 0 <= j < m ==> z[j] == y[m - 1 - j]
    requires forall j :: 0 <= j < m ==> y'[j] == y[j] + a * y[m - 1 - j]
    ensures forall j :: 0 <= j < m ==> y'[j] == y[j] + a * z[j]
  {
    forall j | 0 <= j < m
      ensures y'[j] == y[j] + a * z[j]
    {
      ScaleEq(a, z[j], y[m - 1 - j]);
    }
  }

  lemma ScaleEq(a: real, u: real, v: real)
    requires u == v
    ensures a * u == a * v
  {
  }

  lemma RowInner(c0: real, cz: real, cr: real, a: real, ym: real, xi: real, xr: real)
    requires c0 == xi && cz == cr && cr == xr && ym == -a
    ensures c0 + a * cz + ym * xr == xi
  {
  }

  lemma RowLast(c0: real, cz: real, cr: real, a: real, ym: real, x0: real, e: real, acc: real, xm: real)
    requires c0 == xm - acc && cz == cr && cr == x0 - e && a * e == -acc && ym == -a
    ensures c0 + a * cz + ym * x0 == xm
  {
    assert a * cz == a * x0 - a * e;
  }

  lemma ErrorLast(c0: real, cz: real, cr: real, a: real, ym: real, x0: real, e: real, acc: real, xm: real, xq: real)
    requires c0 == x0 - e && cz == cr && cr == xm - acc && a * e == -acc && ym == -a && xq == xm
    ensures e * (1.0 - a * a) == x0 - (c0 + a * cz + ym * xq)
  {
    assert a * cz == a * xm - a * acc;
    assert a * acc == -(a * (a * e));
  }

  // ---------------------------------------------------------------------
  // Real data: the prediction error and the step-up kernel

  /** rc2ar_s on the values the kernel writes at y[p] gives the negated coefficients. */
  lemma LevRc2Ar(x: seq<real>)
    requires |x| >= 2
    ensures ReflToAr.Rc2Ar(Reflections(x, |x| - 1)) == ReflToAr.NegateAll(LevDurb(x), ReflToAr.Minus)
  {
    LevIsStepUp(x, |x| - 1);
    ReflToAr.Rc2ArIsStepUp(Reflections(x, |x| - 1));
  }

  /**
   * A step whose value a has |a| < 1 keeps a positive error positive and
   * does not raise it (e := e * (1 - a*a), c/ac2ar_levdurb.c:75).
   */
  lemma ErrorShrinks(x: seq<real>, n: nat)
    requires 1 <= n < |x| - 1 && LevOrder(RealOps(), x, n).e > 0.0
    requires -1.0 < Reflection(RealOps(), x, LevOrder(RealOps(), x, n)) < 1.0
    ensures 0.0 < LevOrder(RealOps(), x, n + 1).e <= LevOrder(RealOps(), x, n).e
  {
    var s := LevOrder(RealOps(), x, n);
    assert LevOrder(RealOps(), x, n + 1) == LevStep(RealOps(), x, s) by {
      LevOrderStep(x, n + 1);
    }
    StepErrorBound(x, s);
  }

  /** One real step: e * (1 - a*a) lies in (0, e] when e > 0 and |a| < 1. */
  lemma StepErrorBound(x: seq<real>, s: Lev<real>)
    requires |s.y| < |x| - 1 && s.e > 0.0 && -1.0 < Reflection(RealOps(), x, s) < 1.0
    ensures 0.0 < LevStep(RealOps(), x, s).e <= s.e
  {
    var a := Reflection(RealOps(), x, s);
    UnitSquare(a);
    Shrink(s.e, a, LevStep(RealOps(), x, s).e);
  }

  lemma Shrink(e: real, a: real, e': real)
    requires e > 0.0 && a * a < 1.0 && e' == e * (1.0 - a * a)
    ensures 0.0 < e' <= e
  {
    SquarePos(a);
  }

  /**
   * With x0 > 0 and every value written at y[p] strictly between -1 and 1,
   * the error of every order is positive, at most x0, and no larger than the
   * error of the order before.
   */
  lemma {:induction false} ErrorsDecrease(x: seq<real>, n: nat)
    requires 1 <= n < |x| && x[0] > 0.0
    requires var k := Reflections(x, |x| - 1); forall p :: 0 <= p < |k| ==> -1.0 < k[p] < 1.0
    ensures 0.0 < LevOrder(RealOps(), x, n).e <= x[0]
    ensures n >= 2 ==> LevOrder(RealOps(), x, n).e <= LevOrder(RealOps(), x, n - 1).e
  {
    var k := Reflections(x, |x| - 1);
    if n == 1 {
      var y0 := RealBase(x);
      assert -1.0 < y0 < 1.0 by {
        assert k[0] == y0;
      }
      BaseError(x[0], x[1], y0);
    } else {
      ErrorsDecrease(x, n - 1);
      var s := LevOrder(RealOps(), x, n - 1);
      assert -1.0 < Reflection(RealOps(), x, s) < 1.0 by {
        assert k[n - 1] == LevOrder(RealOps(), x, n).y[n - 1];
        LevOrderStep(x, n);
      }
      ErrorShrinks(x, n - 1);
    }
  }

  /** Order 1: e = x0 - y0*x1 = x0 * (1 - y0*y0) with y0 = x1/x0. */
  lemma BaseError(x0: real, x1: real, y0: real)
    requires x0 > 0.0 && y0 == x1 / x0 && -1.0 < y0 < 1.0
    ensures 0.0 < x0 + -y0 * x1 <= x0
  {
    assert x1 == y0 * x0;
    assert y0 * x1 == (y0 * y0) * x0;
    UnitSquare(y0);
    Shrink(x0, y0, x0 * (1.0 - y0 * y0));
  }

  lemma UnitSquare(a: real)
    requires -1.0 < a < 1.0
    ensures 0.0 <= a * a < 1.0
  {
    if a >= 0.0 {
      assert a * a <= a * 1.0;
    } else {
      assert a * a <= -a * 1.0;
    }
  }

  // ---------------------------------------------------------------------
  // Complex data with zero imaginary parts

  /** h carries the arithmetic of o into that of p. */
  ghost predicate Carries<T(!new), U(!new)>(o: Ops<T>, p: Ops<U>, h: T -> U)
  {
    (forall u, v :: p.add(h(u), h(v)) == h(o.add(u, v))) &&
    (forall u, v :: p.sub(h(u), h(v)) == h(o.sub(u, v))) &&
    (forall u, v :: p.mul(h(u), h(v)) == h(o.mul(u, v))) &&
    (forall u :: p.neg(h(u)) == h(o.neg(u))) &&
    (forall u :: p.snap(h(u)) == h(o.snap(u))) &&
    (forall u, r :: p.over(h(u), r) == h(o.over(u, r))) &&
    (forall u, v :: p.ratio(h(u), h(v)) == h(o.ratio(u, v))) &&
    (forall u :: p.norm2(h(u)) == o.norm2(u)) &&
    (forall u, v :: p.err0(h(u), h(v), h(o.neg(o.ratio(v, u)))) == o.err0(u, v, o.neg(o.ratio(v, u))))
  }

  /** h applied to every element. */
  function MapAll<T, U>(h: T -> U, x: seq<T>): (r: seq<U>)
    ensures |r| == |x| && forall i :: 0 <= i < |x| ==> r[i] == h(x[i])
  {
    seq(|x|, i requires 0 <= i < |x| => h(x[i]))
  }

  function MapLev<T, U>(h: T -> U, s: Lev<T>): Lev<U>
  {
    Lev(MapAll(h, s.y), s.e)
  }

  /**
   * ac2ar_levdurb_c on complex input with zero imaginary parts gives the
   * coefficients of ac2ar_levdurb_s (c/ac2ar_levdurb.c:4-5).
   */
  lemma CLevDurbLift(x: seq<real>)
    ensures CLevDurb(ReflToAr.LiftAll(x)) == ReflToAr.LiftAll(LevDurb(x))
  {
    LiftCarries();
    LevDurbCarried(RealOps(), ComplexOps(), Lift, x);
    assert MapAll(Lift, x) == ReflToAr.LiftAll(x);
    assert MapAll(Lift, LevDurb(x)) == ReflToAr.LiftAll(LevDurb(x));
  }

  /** A map that carries the arithmetic commutes with the whole recursion. */
  lemma LevDurbCarried<T(!new), U(!new)>(o: Ops<T>, p: Ops<U>, h: T -> U, x: seq<T>)
    requires Carries(o, p, h)
    ensures LevDurbWith(p, MapAll(h, x)) == MapAll(h, LevDurbWith(o, x))
  {
    if |x| >= 2 {
      LevOrderCarried(o, p, h, x, |x| - 1);
    } else {
      assert MapAll(h, LevDurbWith(o, x)) == [];
    }
  }

  lemma {:induction false} LevOrderCarried<T(!new), U(!new)>(o: Ops<T>, p: Ops<U>, h: T -> U, x: seq<T>, n: nat)
    requires Carries(o, p, h) && 1 <= n < |x|
    ensures LevOrder(p, MapAll(h, x), n) == MapLev(h, LevOrder(o, x, n))
  {
    if n == 1 {
      LevBaseCarried(o, p, h, x);
    } else {
      LevOrderCarried(o, p, h, x, n - 1);
      LevStepCarried(o, p, h, x, LevOrder(o, x, n - 1));
    }
  }

  lemma LevBaseCarried<T(!new), U(!new)>(o: Ops<T>, p: Ops<U>, h: T -> U, x: seq<T>)
    requires Carries(o, p, h) && |x| >= 2
    ensures LevBase(p, MapAll(h, x)) == MapLev(h, LevBase(o, x))
  {
    var y := o.neg(o.neg(o.ratio(x[1], x[0])));
    assert MapAll(h, [y]) == [h(y)];
  }

  lemma LevStepCarried<T(!new), U(!new)>(o: Ops<T>, p: Ops<U>, h: T -> U, x: seq<T>, s: Lev<T>)
    requires Carries(o, p, h) && |s.y| < |x| - 1
    ensures LevStep(p, MapAll(h, x), MapLev(h, s)) == MapLev(h, LevStep(o, x, s))
  {
    var a := Reflection(o, x, s);
    ReflectionCarried(o, p, h, x, s);
    GrowCarried(o, p, h, s.y, a);
    LevStepFrom(o, p, h, x, s, a);
  }

  lemma LevStepFrom<T, U>(o: Ops<T>, p: Ops<U>, h: T -> U, x: seq<T>, s: Lev<T>, a: T)
    requires |s.y| < |x| - 1 && a == Reflection(o, x, s)
    requires Reflection(p, MapAll(h, x), MapLev(h, s)) == h(a)
    requires Grow(p, MapAll(h, s.y), h(a)) == MapAll(h, Grow(o, s.y, a))
    requires p.norm2(h(a)) == o.norm2(a)
    ensures LevStep(p, MapAll(h, x), MapLev(h, s)) == MapLev(h, LevStep(o, x, s))
  {
  }

  lemma ReflectionCarried<T(!new), U(!new)>(o: Ops<T>, p: Ops<U>, h: T -> U, x: seq<T>, s: Lev<T>)
    requires Carries(o, p, h) && |s.y| < |x| - 1
    ensures Reflection(p, MapAll(h, x), MapLev(h, s)) == h(Reflection(o, x, s))
  {
    AccCarried(o, p, h, x, s.y, |s.y|, |s.y|);
  }

  lemma {:induction false} AccCarried<T(!new), U(!new)>(o: Ops<T>, p: Ops<U>, h: T -> U, x: seq<T>, y: seq<T>, q: nat, n: nat)
    requires Carries(o, p, h) && n <= q < |x| - 1 && q <= |y|
    ensures Acc(p, MapAll(h, x), MapAll(h, y), q, n) == h(Acc(o, x, y, q, n))
  {
    if n > 0 {
      AccCarried(o, p, h, x, y, q, n - 1);
    }
  }

  lemma GrowCarried<T(!new), U(!new)>(o: Ops<T>, p: Ops<U>, h: T -> U, y: seq<T>, a: T)
    requires Carries(o, p, h)
    ensures Grow(p, MapAll(h, y), h(a)) == MapAll(h, Grow(o, y, a))
  {
    var g, g' := Grow(p, MapAll(h, y), h(a)), MapAll(h, Grow(o, y, a));
    forall j | 0 <= j < |y|
      ensures g[j] == g'[j]
    {
      GrowAt(p, MapAll(h, y), h(a), j);
      GrowAt(o, y, a, j);
    }
  }

  /** The embedding of the reals in the complex numbers carries the real kernel's arithmetic into the complex one's. */
  lemma LiftCarries()
    ensures Carries(RealOps(), ComplexOps(), Lift)
  {
    LiftCarriesSum();
    LiftCarriesDifference();
    LiftCarriesProduct();
    LiftCarriesRatio();
    LiftCarriesUnary();
    LiftCarriesError();
  }

  lemma LiftCarriesSum()
    ensures forall u, v :: ComplexOps().add(Lift(u), Lift(v)) == Lift(RealOps().add(u, v))
  {
    forall u, v
      ensures Add(Lift(u), Lift(v)) == Lift(u + v)
    {
      LiftArith(u, v);
    }
  }

  lemma LiftCarriesDifference()
    ensures forall u, v :: ComplexOps().sub(Lift(u), Lift(v)) == Lift(RealOps().sub(u, v))
  {
    forall u, v
      ensures Sub(Lift(u), Lift(v)) == Lift(u - v)
    {
      LiftArith(u, v);
    }
  }

  lemma LiftCarriesProduct()
    ensures forall u, v :: ComplexOps().mul(Lift(u), Lift(v)) == Lift(RealOps().mul(u, v))
  {
    forall u, v
      ensures Mul(Lift(u), Lift(v)) == Lift(u * v)
    {
      LiftArith(u, v);
    }
  }

  lemma LiftCarriesRatio()
    ensures forall u, v :: ComplexOps().ratio(Lift(u), Lift(v)) == Lift(RealOps().ratio(u, v))
    ensures forall u, r :: ComplexOps().over(Lift(u), r) == Lift(RealOps().over(u, r))
  {
    forall u, v
      ensures Div(Lift(u), Lift(v)) == Lift(Quot(u, v))
    {
      LiftDiv(u, v);
    }
  }

  lemma LiftCarriesUnary()
    ensures forall u :: ComplexOps().neg(Lift(u)) == Lift(RealOps().neg(u))
    ensures forall u :: ComplexOps().snap(Lift(u)) == Lift(RealOps().snap(u))
    ensures forall u :: ComplexOps().norm2(Lift(u)) == RealOps().norm2(u)
  {
    forall u
      ensures Neg(Lift(u)) == Lift(-u) && Conj(Lift(u)) == Lift(u) && Norm2(Lift(u)) == u * u
    {
      LiftArith(u, 0.0);
    }
  }

  lemma LiftCarriesError()
    ensures forall u, v :: ComplexOps().err0(Lift(u), Lift(v), Lift(RealOps().neg(RealOps().ratio(v, u))))
                           == RealOps().err0(u, v, RealOps().neg(RealOps().ratio(v, u)))
  {
    forall u, v
      ensures ComplexOps().err0(Lift(u), Lift(v), Lift(RealOps().neg(RealOps().ratio(v, u))))
              == RealOps().err0(u, v, RealOps().neg(RealOps().ratio(v, u)))
    {
      ErrorLiftAt(u, v, RealOps().neg(RealOps().ratio(v, u)));
    }
  }

  lemma ErrorLiftAt(x0: real, x1: real, a: real)
    requires a == -Quot(x1, x0)
    ensures ComplexOps().err0(Lift(x0), Lift(x1), Lift(a)) == RealOps().err0(x0, x1, a)
  {
    ComplexError0(Lift(x0), Lift(x1), Lift(a));
    RealError0(x0, x1, a);
    var n := Norm2(Lift(a));
    assert n == a * a by {
      LiftArith(a, 0.0);
    }
    BaseErrorLift(x0, x1, a, n);
  }

  lemma ComplexError0(x0: Complex, x1: Complex, a: Complex)
    ensures ComplexOps().err0(x0, x1, a) == x0.re * (1.0 - Norm2(a))
  {
  }

  lemma RealError0(x0: real, x1: real, a: real)
    ensures RealOps().err0(x0, x1, a) == x0 + a * x1
  {
  }

  /** The complex order-1 error x0 * (1 - |a|^2) equals the real x0 + a*x1 for a = -x1/x0. */
  lemma BaseErrorLift(x0: real, x1: real, a: real, n: real)
    requires a == -Quot(x1, x0) && n == a * a
    ensures x0 * (1.0 - n) == x0 + a * x1
  {
    if x0 != 0.0 {
      var q := x1 / x0;
      assert x1 == q * x0;
      assert a * x1 == -(q * x1);
      assert q * x1 == (q * q) * x0;
      assert a * a == q * q;
    }
  }
}
