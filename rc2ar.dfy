/**
 * Autoregressive (AR) coefficients from reflection coefficients, one vector
 * at a time along axis `dim` (c/rc2ar.c: rc2ar_s/_d real, rc2ar_c/_z
 * complex).
 *
 * The kernel copies the reflection coefficients into the output, then for
 * l = 1 .. L-1 rewrites the first l entries in place,
 *     y[q] := y[q] - y[l] * y[l-1-q]      (q < l, right-hand side from a
 *                                          scratch copy taken before step l)
 * and finally negates every entry. The real and complex kernels differ only
 * in that arithmetic, so the kernel below is written once over an element
 * type T with the update `lat(u, v, c) = u - c*v` and the negation `neg` as
 * parameters. The specification states the same result as L step-up
 * recursions (`StepUpAll`) and proves that, for real values, the step-down
 * recursion (`StepDownAll`) recovers the reflection coefficients whenever
 * none of them is +1 or -1.
 */
module ReflToAr {
  import opened Arith
  import opened Strided
  import opened Cplx

  // ---------------------------------------------------------------------
  // Specification: the step-up recursion

  /**
   * One step-up: the order-p coefficients y and the next reflection
   * coefficient c give the order p+1 coefficients.
   */
  function Extend<T>(y: seq<T>, c: T, lat: (T, T, T) -> T): (r: seq<T>)
    ensures |r| == |y| + 1 && r[|y|] == c
    ensures forall j {:trigger r[j]} :: 0 <= j < |y| ==> r[j] == lat(y[j], y[|y| - 1 - j], c)
  {
    Lattices(y, c, lat, |y|) + [c]
  }

  /** The first n lattice updates y[j] - c y[|y|-1-j]. */
  function Lattices<T>(y: seq<T>, c: T, lat: (T, T, T) -> T, n: nat): (r: seq<T>)
    requires n <= |y|
    ensures |r| == n
    ensures forall j {:trigger r[j]} :: 0 <= j < n ==> r[j] == lat(y[j], y[|y| - 1 - j], c)
  {
    if n == 0 then [] else Lattices(y, c, lat, n - 1) + [lat(y[n - 1], y[|y| - n], c)]
  }

  /** The step-up recursion over all reflection coefficients k[0], k[1], ... */
  function StepUpAll<T>(k: seq<T>, lat: (T, T, T) -> T): (r: seq<T>)
    ensures |r| == |k|
    decreases |k|
  {
    if k == [] then [] else Extend(StepUpAll(k[..|k| - 1], lat), k[|k| - 1], lat)
  }

  /** The real lattice update of one coefficient u with its mirror v: u - c v. */
  function Lattice(u: real, v: real, c: real): real
  {
    u - c * v
  }

  /** The complex one, with the plain product c v of rc2ar_c (c/rc2ar.c:192-193). */
  function CLattice(u: Complex, v: Complex, c: Complex): Complex
  {
    Sub(u, Mul(c, v))
  }

  function Minus(x: real): real
  {
    -x
  }

  function Sq(x: real): real
  {
    x * x
  }

  /**
   * One step-down, the inverse of `Extend` when the last coefficient c
   * satisfies c*c != 1: y[j] = (a[j] + c*a[p-1-j]) / (1 - c*c).
   */
  function Shrink(a: seq<real>): (r: seq<real>)
    requires |a| >= 1
    ensures |r| == |a| - 1
  {
    Unlattices(a, |a| - 1)
  }

  /** The first n inverse updates (a[j] + c a[p-1-j]) / (1 - c^2), c = a[p], p = |a|-1. */
  function Unlattices(a: seq<real>, n: nat): (r: seq<real>)
    requires n < |a|
    ensures |r| == n
    ensures forall j {:trigger r[j]} :: 0 <= j < n ==> r[j] == Unlattice(a[j], a[|a| - 2 - j], a[|a| - 1])
  {
    if n == 0 then [] else Unlattices(a, n - 1) + [Unlattice(a[n - 1], a[|a| - 1 - n], a[|a| - 1])]
  }

  /** The inverse lattice update: (u + c v) / (1 - c^2). */
  function Unlattice(u: real, v: real, c: real): real
  {
    Quot(u + c * v, 1.0 - Sq(c))
  }

  /** Total real division; a zero divisor gives zero. */
  function Quot(n: real, d: real): real
  {
    if d == 0.0 then 0.0 else n / d
  }

  /** The step-down recursion: reflection coefficients of AR coefficients a. */
  function StepDownAll(a: seq<real>): (k: seq<real>)
    ensures |k| == |a|
    decreases |a|
  {
    if a == [] then [] else StepDownAll(Shrink(a)) + [a[|a| - 1]]
  }

  /** c is +1 or -1, where the step-down recursion divides by zero. */
  predicate Unit(c: real)
  {
    c == 1.0 || c == -1.0
  }

  /** No reflection coefficient is +1 or -1. */
  predicate Stable(k: seq<real>)
  {
    forall i :: 0 <= i < |k| ==> !Unit(k[i])
  }

  lemma OneMinusSquare(c: real)
    requires !Unit(c)
    ensures 1.0 - Sq(c) != 0.0
  {
    MulNonZero(1.0 - c, 1.0 + c);
    assert (1.0 - c) * (1.0 + c) == 1.0 - Sq(c);
  }

  lemma MulNonZero(a: real, b: real)
    requires a != 0.0 && b != 0.0
    ensures a * b != 0.0
  {
  }

  lemma QuotCancel(u: real, z: real)
    requires z != 0.0
    ensures Quot(u * z, z) == u
  {
  }

  /** Shrink undoes Extend. */
  lemma ShrinkExtend(y: seq<real>, c: real)
    requires !Unit(c)
    ensures Shrink(Extend(y, c, Lattice)) == y
  {
    var a := Extend(y, c, Lattice);
    var p := |y|;
    forall j | 0 <= j < p
      ensures Shrink(a)[j] == y[j]
    {
      var u, v := y[j], y[p - 1 - j];
      assert a[j] == Lattice(u, v, c);
      assert a[p - 1 - j] == Lattice(v, u, c);
      UnlatticeLattice(u, v, c);
    }
  }

  /** Unlattice undoes Lattice on a coefficient and its mirror. */
  lemma UnlatticeLattice(u: real, v: real, c: real)
    requires !Unit(c)
    ensures Unlattice(Lattice(u, v, c), Lattice(v, u, c), c) == u
  {
    OneMinusSquare(c);
    assert (u - c * v) + c * (v - c * u) == u * (1.0 - Sq(c));
    QuotCancel(u, 1.0 - Sq(c));
  }

  /** The step-down recursion recovers the reflection coefficients. */
  lemma {:induction false} StepDownStepUp(k: seq<real>)
    requires Stable(k)
    ensures StepDownAll(StepUpAll(k, Lattice)) == k
    decreases |k|
  {
    if k != [] {
      var front := k[..|k| - 1];
      var c := k[|k| - 1];
      assert Stable(front) by {
        forall i | 0 <= i < |front|
          ensures !Unit(front[i])
        {
          assert front[i] == k[i];
        }
      }
      StepDownStepUp(front);
      calc {
        StepDownAll(StepUpAll(k, Lattice));
        StepDownAll(Extend(StepUpAll(front, Lattice), c, Lattice));
        { ShrinkExtend(StepUpAll(front, Lattice), c); }
        StepDownAll(StepUpAll(front, Lattice)) + [c];
        { assert k == front + [c]; }
        k;
      }
    }
  }

  // ---------------------------------------------------------------------
  // The recursion in the form the kernel computes it

  /** Step l of the kernel: y[q] := lat(y[q], y[l-1-q], y[l]) for q < l. */
  function RcStep<T>(z: seq<T>, l: nat, lat: (T, T, T) -> T): (r: seq<T>)
    requires l < |z|
    ensures |r| == |z|
    ensures forall q {:trigger r[q]} :: 0 <= q < |z| ==> r[q] == PartStep(z, l, lat, l, q)
  {
    RcSteps(z, l, lat, |z|)
  }

  /** The first n entries of RcStep(z, l). */
  function RcSteps<T>(z: seq<T>, l: nat, lat: (T, T, T) -> T, n: nat): (r: seq<T>)
    requires l < |z| && n <= |z|
    ensures |r| == n
    ensures forall q {:trigger r[q]} :: 0 <= q < n ==> r[q] == PartStep(z, l, lat, l, q)
  {
    if n == 0 then [] else RcSteps(z, l, lat, n - 1) + [PartStep(z, l, lat, l, n - 1)]
  }

  /** Entry j of RcStep(z, l) once only its first q entries are updated. */
  function PartStep<T>(z: seq<T>, l: nat, lat: (T, T, T) -> T, q: nat, j: nat): T
    requires q <= l < |z| && j < |z|
  {
    if j < q then lat(z[j], z[l - 1 - j], z[l]) else z[j]
  }

  /** The buffer after steps 1 .. n-1. */
  function Sweep<T>(x: seq<T>, n: nat, lat: (T, T, T) -> T): (r: seq<T>)
    requires n <= |x| || n <= 1
    ensures |r| == |x|
  {
    if n <= 1 then x else RcStep(Sweep(x, n - 1, lat), n - 1, lat)
  }

  /** Every entry negated. */
  function NegateAll<T>(z: seq<T>, neg: T -> T): (r: seq<T>)
    ensures |r| == |z|
    ensures forall i {:trigger r[i]} :: 0 <= i < |z| ==> r[i] == neg(z[i])
  {
    if z == [] then [] else NegateAll(z[..|z| - 1], neg) + [neg(z[|z| - 1])]
  }

  /** What the kernel stores for one vector: every step, then the negation. */
  function Rc2ArWith<T>(x: seq<T>, lat: (T, T, T) -> T, neg: T -> T): (r: seq<T>)
    ensures |r| == |x|
  {
    NegateAll(Sweep(x, |x|, lat), neg)
  }

  /** Rc2ArWith as a function value, for the drivers. */
  function Rc2ArOf<T>(lat: (T, T, T) -> T, neg: T -> T): seq<T> -> seq<T>
  {
    s => Rc2ArWith(s, lat, neg)
  }

  /** rc2ar_s / rc2ar_d on one vector. */
  function Rc2Ar(x: seq<real>): (r: seq<real>)
    ensures |r| == |x|
  {
    Rc2ArWith(x, Lattice, Minus)
  }

  /** rc2ar_c / rc2ar_z on one vector. */
  function CRc2Ar(x: seq<Complex>): (r: seq<Complex>)
    ensures |r| == |x|
  {
    Rc2ArWith(x, CLattice, Neg)
  }

  /**
   * After n-1 steps the first n entries hold the order-n step-up of the
   * first n reflection coefficients and the rest are still the input.
   */
  lemma {:induction false} SweepIsStepUp<T>(x: seq<T>, n: nat, lat: (T, T, T) -> T)
    requires 1 <= n <= |x|
    ensures Sweep(x, n, lat) == StepUpAll(x[..n], lat) + x[n..]
  {
    if n == 1 {
      SweepOne(x, lat);
    } else {
      SweepIsStepUp(x, n - 1, lat);
      StepExtends(x, Sweep(x, n - 1, lat), n - 1, lat);
    }
  }

  /** Before any step the buffer is the input, and order 1 is x[0] itself. */
  lemma SweepOne<T>(x: seq<T>, lat: (T, T, T) -> T)
    requires |x| >= 1
    ensures Sweep(x, 1, lat) == StepUpAll(x[..1], lat) + x[1..]
  {
    assert Extend([], x[0], lat) == [x[0]] by {
      assert Lattices([], x[0], lat, 0) == [];
    }
    assert StepUpAll(x[..1], lat) == [x[0]] by {
      assert x[..1][..0] == [];
      assert StepUpAll(x[..1], lat) == Extend(StepUpAll([], lat), x[0], lat);
    }
    assert x == [x[0]] + x[1..];
  }

  /** Step l turns an order-l prefix into the order-(l+1) one. */
  lemma StepExtends<T>(x: seq<T>, z: seq<T>, l: nat, lat: (T, T, T) -> T)
    requires 1 <= l < |x|
    requires z == StepUpAll(x[..l], lat) + x[l..]
    ensures RcStep(z, l, lat) == StepUpAll(x[..l + 1], lat) + x[l + 1..]
  {
    var front := StepUpAll(x[..l], lat);
    assert z[l] == x[l];
    assert StepUpAll(x[..l + 1], lat) == Extend(front, x[l], lat) by {
      assert x[..l + 1][..l] == x[..l];
    }
    var r := RcStep(z, l, lat);
    var e := Extend(front, x[l], lat);
    forall q | 0 <= q < |x|
      ensures r[q] == (e + x[l + 1..])[q]
    {
      if q < l {
        assert z[q] == front[q] && z[l - 1 - q] == front[l - 1 - q];
      }
    }
  }

  /** The kernel's result is the negated step-up recursion. */
  lemma Rc2ArWithIsStepUp<T>(x: seq<T>, lat: (T, T, T) -> T, neg: T -> T)
    ensures Rc2ArWith(x, lat, neg) == NegateAll(StepUpAll(x, lat), neg)
  {
    if |x| >= 1 {
      SweepIsStepUp(x, |x|, lat);
      assert x[..|x|] == x;
      assert StepUpAll(x, lat) + x[|x|..] == StepUpAll(x, lat);
    }
  }

  /** rc2ar_s is the negated step-up recursion. */
  lemma Rc2ArIsStepUp(x: seq<real>)
    ensures Rc2Ar(x) == NegateAll(StepUpAll(x, Lattice), Minus)
  {
    Rc2ArWithIsStepUp(x, Lattice, Minus);
  }

  /** Round trip: the reflection coefficients come back from rc2ar's output. */
  lemma Rc2ArRoundTrip(x: seq<real>)
    requires Stable(x)
    ensures StepDownAll(NegateAll(Rc2Ar(x), Minus)) == x
  {
    var s := StepUpAll(x, Lattice);
    Rc2ArIsStepUp(x);
    MinusTwice(s);
    StepDownStepUp(x);
  }

  /** Negating twice gives back the real values. */
  lemma MinusTwice(s: seq<real>)
    ensures NegateAll(NegateAll(s, Minus), Minus) == s
  {
    var t := NegateAll(NegateAll(s, Minus), Minus);
    assert forall i :: 0 <= i < |s| ==> t[i] == s[i];
  }

  /** Real values carried as complex ones with zero imaginary part. */
  function LiftAll(x: seq<real>): (r: seq<Complex>)
    ensures |r| == |x|
    ensures forall i :: 0 <= i < |x| ==> r[i] == Lift(x[i])
  {
    if x == [] then [] else LiftAll(x[..|x| - 1]) + [Lift(x[|x| - 1])]
  }

  /** On real input the complex step-up is the real one. */
  lemma {:induction false} StepUpLift(k: seq<real>)
    ensures StepUpAll(LiftAll(k), CLattice) == LiftAll(StepUpAll(k, Lattice))
    decreases |k|
  {
    if k != [] {
      var front := k[..|k| - 1];
      var c := k[|k| - 1];
      var lk := LiftAll(k);
      assert lk[..|k| - 1] == LiftAll(front);
      StepUpLift(front);
      ExtendLift(StepUpAll(front, Lattice), c);
    }
  }

  /** One step-up commutes with the embedding of reals in complex numbers. */
  lemma ExtendLift(y: seq<real>, c: real)
    ensures Extend(LiftAll(y), Lift(c), CLattice) == LiftAll(Extend(y, c, Lattice))
  {
    var e, e' := Extend(LiftAll(y), Lift(c), CLattice), LiftAll(Extend(y, c, Lattice));
    forall j | 0 <= j < |y|
      ensures e[j] == e'[j]
    {
      LiftArith(c, y[|y| - 1 - j]);
      LiftArith(y[j], c * y[|y| - 1 - j]);
    }
    assert e[|y|] == e'[|y|];
  }

  /** rc2ar_c on real input agrees with rc2ar_s. */
  lemma CRc2ArLift(x: seq<real>)
    ensures CRc2Ar(LiftAll(x)) == LiftAll(Rc2Ar(x))
  {
    Rc2ArWithIsStepUp(LiftAll(x), CLattice, Neg);
    Rc2ArIsStepUp(x);
    StepUpLift(x);
    var s := StepUpAll(x, Lattice);
    forall i | 0 <= i < |x|
      ensures Neg(Lift(s[i])) == Lift(Minus(s[i]))
    {
      LiftArith(s[i], 0.0);
    }
  }

  /**
   * The scratch pointer of rc2ar_c at step l (1 <= l < L) as written: the
   * copy loop (c/rc2ar.c:187) writes 2l+2 floats, one after another from the
   * start of the scratch, which holds only L floats (c/rc2ar.c:179); the
   * pointer then steps back over sci and scr and over two floats per
   * lattice update (c/rc2ar.c:188-191), ending at the start again. Returns
   * the offsets written, in order, and where the pointer ends. The writes
   * stay inside the L floats exactly when 2l+2 <= L, so the last step,
   * l = L-1, writes offset 2L-1, past the end.
   */
  method ComplexScratchAsWritten(L: nat, l: nat) returns (writes: seq<nat>, y: int)
    requires 1 <= l < L
    ensures |writes| == 2 * l + 2 && forall q :: 0 <= q < |writes| ==> writes[q] == q
    ensures y == 0
    ensures (forall q :: 0 <= q < |writes| ==> writes[q] < L) <==> 2 * l + 2 <= L
    ensures l == L - 1 ==> writes[|writes| - 1] == 2 * L - 1 >= L
  {
    writes, y := [], 0;
    var q := 0;
    while q < 2 * l + 2
      invariant 0 <= q <= 2 * l + 2 && y == q && |writes| == q
      invariant forall i :: 0 <= i < q ==> writes[i] == i
    {
      writes, y, q := writes + [y], y + 1, q + 1;
    }
    y := y - 1;   // sci
    y := y - 1;   // scr
    q := 0;
    while q < l
      invariant 0 <= q <= l && y == 2 * (l - q)
    {
      y, q := y - 2, q + 1;
    }
    assert writes[|writes| - 1] == 2 * l + 1;
  }

  // ---------------------------------------------------------------------
  // The kernel (rc2ar_s, rc2ar_d, rc2ar_c, rc2ar_z)

  /**
   * rc2ar_s / rc2ar_d: every vector of reflection coefficients along axis
   * `dim` of the R x C x S x H tensor X becomes its AR coefficients in Y.
   * Returns 1 for an invalid axis (Y untouched), otherwise 0.
   */
  method Rc2ArReal(X: array<real>, Y: array<real>, R: nat, C: nat, S: nat, H: nat, colMajor: bool, dim: nat)
    returns (status: int)
    requires X != Y
    requires Size(R, C, S, H) <= X.Length && Size(R, C, S, H) <= Y.Length
    modifies Y
    ensures status == (if dim > 3 then 1 else 0)
    ensures dim > 3 || Size(R, C, S, H) == 0 ==> Y[..] == old(Y[..])
    ensures dim <= 3 && Size(R, C, S, H) > 0 ==>
              var N := Size(R, C, S, H);
              var L := AxisLength(R, C, S, H, dim);
              Y[..N] == MapSlices(X[..N], WalkOf(R, C, S, H, colMajor, dim), L, L, Rc2Ar) &&
              Y[N..] == old(Y[N..])
  {
    status := Rc2ArKernel(X, Y, R, C, S, H, colMajor, dim, Lattice, Minus, Rc2ArOf(Lattice, Minus));
    if dim <= 3 && Size(R, C, S, H) > 0 {
      var N := Size(R, C, S, H);
      var L := AxisLength(R, C, S, H, dim);
      MapSlicesExt(X[..N], WalkOf(R, C, S, H, colMajor, dim), L, L, Rc2ArOf(Lattice, Minus), Rc2Ar);
    }
  }

  /**
   * rc2ar_c / rc2ar_z: the same on complex coefficients. The scratch holds
   * L complex values (2L floats); see ComplexScratchOverrun.
   */
  method Rc2ArComplex(X: array<Complex>, Y: array<Complex>, R: nat, C: nat, S: nat, H: nat, colMajor: bool, dim: nat)
    returns (status: int)
    requires X != Y
    requires Size(R, C, S, H) <= X.Length && Size(R, C, S, H) <= Y.Length
    modifies Y
    ensures status == (if dim > 3 then 1 else 0)
    ensures dim > 3 || Size(R, C, S, H) == 0 ==> Y[..] == old(Y[..])
    ensures dim <= 3 && Size(R, C, S, H) > 0 ==>
              var N := Size(R, C, S, H);
              var L := AxisLength(R, C, S, H, dim);
              Y[..N] == MapSlices(X[..N], WalkOf(R, C, S, H, colMajor, dim), L, L, CRc2Ar) &&
              Y[N..] == old(Y[N..])
  {
    status := Rc2ArKernel(X, Y, R, C, S, H, colMajor, dim, CLattice, Neg, Rc2ArOf(CLattice, Neg));
    if dim <= 3 && Size(R, C, S, H) > 0 {
      var N := Size(R, C, S, H);
      var L := AxisLength(R, C, S, H, dim);
      MapSlicesExt(X[..N], WalkOf(R, C, S, H, colMajor, dim), L, L, Rc2ArOf(CLattice, Neg), CRc2Ar);
    }
  }

  /** The driver shared by the four variants; f is the per-vector result. */
  method Rc2ArKernel<T(0,!new)>(X: array<T>, Y: array<T>, R: nat, C: nat, S: nat, H: nat, colMajor: bool, dim: nat,
                                lat: (T, T, T) -> T, neg: T -> T, ghost f: seq<T> -> seq<T>)
    returns (status: int)
    requires X != Y
    requires Size(R, C, S, H) <= X.Length && Size(R, C, S, H) <= Y.Length
    requires f == Rc2ArOf(lat, neg)
    modifies Y
    ensures status == (if dim > 3 then 1 else 0)
    ensures dim > 3 || Size(R, C, S, H) == 0 ==> Y[..] == old(Y[..])
    ensures dim <= 3 && Size(R, C, S, H) > 0 ==>
              var N := Size(R, C, S, H);
              var L := AxisLength(R, C, S, H, dim);
              Y[..N] == MapSlices(X[..N], WalkOf(R, C, S, H, colMajor, dim), L, L, f) &&
              Y[N..] == old(Y[N..])
  {
    if dim > 3 {
      return 1;
    }
    var N := R * C * S * H;
    var L := if dim == 0 then R else if dim == 1 then C else if dim == 2 then S else H;
    if N == 0 {
      return 0;
    }
    Shape(R, C, S, H, colMajor, dim);
    var y := new T[L];
    ghost var w := WalkOf(R, C, S, H, colMajor, dim);
    if L == N {
      SingleSlice(R, C, S, H, colMajor, dim);
      var xe, ye := Rc2ArVisit(X, Y, y, w, 1, L, 0, 0, 0, lat, neg, f);
    } else {
      var K := if colMajor then (if dim == 0 then 1 else if dim == 1 then R else if dim == 2 then R * C else R * C * S)
               else (if dim == 0 then C * S * H else if dim == 1 then S * H else if dim == 2 then H else 1);
      var B := if colMajor && dim == 0 then C * S * H else K;
      var V := N / L;
      var G := V / B;
      FastPathIffUnitStride(R, C, S, H, colMajor, dim);
      if K == 1 && (G == 1 || B == 1) {
        Rc2ArContiguous(X, Y, y, V, L, w, lat, neg, f);
      } else {
        Rc2ArStrided(X, Y, y, G, K, L, w, lat, neg, f);
      }
    }
    assert w.groups * w.blocks * L == N;
    MappedAll(Y[..], X[..], w, L, L, f);
    assert Y[..][..N] == Y[..N] && X[..][..N] == X[..N];
    TailSame(Y[..], old(Y[..]), N);
    return 0;
  }

  /** The contiguous loop: V vectors of L coefficients, one after another. */
  method Rc2ArContiguous<T>(X: array<T>, Y: array<T>, y: array<T>, V: nat, L: nat, ghost w: Walk,
                            lat: (T, T, T) -> T, neg: T -> T, ghost f: seq<T> -> seq<T>)
    requires X != Y && y != X && y != Y && L >= 1 && L <= y.Length
    requires w == Walk(V, 1, 1) && Fits(w, L, L, X.Length, Y.Length)
    requires f == Rc2ArOf(lat, neg)
    modifies Y, y
    ensures Mapped(Y[..], X[..], w, L, L, f, V, 0)
    ensures forall i :: V * L <= i < Y.Length ==> Y[i] == old(Y[i])
  {
    assert w.groups * w.blocks * L == V * L;
    var xp, yp := 0, 0;
    var v := 0;
    while v < V
      invariant v <= V && xp == v * L && yp == xp
      invariant Mapped(Y[..], X[..], w, L, L, f, v, 0)
      invariant forall i :: V * L <= i < Y.Length ==> Y[i] == old(Y[i])
    {
      NextContiguous(w, L, v);
      var xe, ye := Rc2ArVisit(X, Y, y, w, 1, L, v, 0, xp, lat, neg, f);
      MappedGroup(Y[..], X[..], w, L, L, f, v);
      xp, yp := xe, ye;
      v := v + 1;
    }
  }

  /** The general nest: G groups of K vectors whose samples are K apart. */
  method Rc2ArStrided<T>(X: array<T>, Y: array<T>, y: array<T>, G: nat, K: nat, L: nat, ghost w: Walk,
                         lat: (T, T, T) -> T, neg: T -> T, ghost f: seq<T> -> seq<T>)
    requires X != Y && y != X && y != Y && K >= 1 && L >= 1 && L <= y.Length
    requires w == Walk(G, K, K) && Fits(w, L, L, X.Length, Y.Length)
    requires f == Rc2ArOf(lat, neg)
    modifies Y, y
    ensures Mapped(Y[..], X[..], w, L, L, f, G, 0)
    ensures forall i :: G * K * L <= i < Y.Length ==> Y[i] == old(Y[i])
  {
    assert w.groups * w.blocks * L == G * K * L;
    var xp, yp := 0, 0;
    var g := 0;
    while g < G
      invariant g <= G && xp == Index(w, L, g, 0, 0) && yp == xp
      invariant Mapped(Y[..], X[..], w, L, L, f, g, 0)
      invariant forall i :: G * K * L <= i < Y.Length ==> Y[i] == old(Y[i])
    {
      xp, yp := Rc2ArGroup(X, Y, y, K, L, g, xp, w, lat, neg, f);
      MappedGroup(Y[..], X[..], w, L, L, f, g);
      NextGroup(w, L, g);
      xp, yp := xp + K * (L - 1), yp + K * (L - 1);
      g := g + 1;
    }
  }

  /** One group of the general nest: its K vectors, each one sample further on. */
  method Rc2ArGroup<T>(X: array<T>, Y: array<T>, y: array<T>, K: nat, L: nat, g: nat, start: nat, ghost w: Walk,
                       lat: (T, T, T) -> T, neg: T -> T, ghost f: seq<T> -> seq<T>)
    returns (xe: nat, ye: nat)
    requires X != Y && y != X && y != Y && L <= y.Length
    requires w.blocks == K && w.stride == K && g < w.groups && Fits(w, L, L, X.Length, Y.Length)
    requires f == Rc2ArOf(lat, neg)
    requires start == Index(w, L, g, 0, 0)
    requires Mapped(Y[..], X[..], w, L, L, f, g, 0)
    modifies Y, y
    ensures xe == Index(w, L, g, K, 0) && ye == xe
    ensures Mapped(Y[..], X[..], w, L, L, f, g, K)
    ensures forall i :: w.groups * K * L <= i < Y.Length ==> Y[i] == old(Y[i])
  {
    var xp, yp := start, start;
    var b := 0;
    while b < K
      invariant b <= K && xp == Index(w, L, g, b, 0) && yp == xp
      invariant Mapped(Y[..], X[..], w, L, L, f, g, b)
      invariant forall i :: w.groups * K * L <= i < Y.Length ==> Y[i] == old(Y[i])
    {
      var xe, ye := Rc2ArVisit(X, Y, y, w, K, L, g, b, xp, lat, neg, f);
      NextInGroup(w, L, g, b);
      xp, yp := xe - (K * L - 1), ye - (K * L - 1);
      b := b + 1;
    }
    xe, ye := xp, yp;
  }

  /** Slice (g, b) of walk w: Rc2ArSlice on it maps one more slice. */
  method Rc2ArVisit<T>(X: array<T>, Y: array<T>, y: array<T>, ghost w: Walk, K: nat, L: nat, g: nat, b: nat,
                       start: nat, lat: (T, T, T) -> T, neg: T -> T, ghost f: seq<T> -> seq<T>)
    returns (xe: nat, ye: nat)
    requires X != Y && y != X && y != Y && w.stride == K && L <= y.Length
    requires Fits(w, L, L, X.Length, Y.Length) && g < w.groups && b < w.blocks
    requires f == Rc2ArOf(lat, neg)
    requires start == Index(w, L, g, b, 0)
    requires Mapped(Y[..], X[..], w, L, L, f, g, b)
    modifies Y, y
    ensures xe == start + L * K && ye == xe
    ensures Mapped(Y[..], X[..], w, L, L, f, g, b + 1)
    ensures forall i :: w.groups * w.blocks * L <= i < Y.Length ==> Y[i] == old(Y[i])
  {
    SliceFits(w, L, g, b);
    ghost var before := Y[..];
    ghost var xs := Gather(X[..], start, K, L);
    xe, ye := Rc2ArSlice(X, Y, y, start, K, L, lat, neg, xs);
    assert X[..] == old(X[..]);
    assert f(xs) == Rc2ArWith(xs, lat, neg);
    assert SliceMapped(Y[..], X[..], w, L, L, f, g, b);
    MappedNext(before, Y[..], X[..], w, L, L, f, g, b);
    forall i | w.groups * w.blocks * L <= i < Y.Length
      ensures Y[i] == old(Y[i])
    {
      if OnSlice(i, start, K, L) {
        OnSliceBelow(w, L, g, b, i);
      }
    }
  }

  /**
   * One vector: the reflection coefficients at X[start], X[start+K], ...
   * become AR coefficients at the same positions of Y; y is the scratch
   * buffer of L values. Returns where the input and output pointers end,
   * L*K past the start.
   */
  method Rc2ArSlice<T>(X: array<T>, Y: array<T>, y: array<T>, start: nat, K: nat, L: nat,
                       lat: (T, T, T) -> T, neg: T -> T, ghost x: seq<T>)
    returns (xe: nat, ye: nat)
    requires X != Y && y != Y && y != X
    requires K >= 1 && L >= 1 && L <= y.Length
    requires start + (L - 1) * K < X.Length && start + (L - 1) * K < Y.Length
    requires x == Gather(X[..], start, K, L)
    modifies Y, y
    ensures xe == start + L * K && ye == start + L * K
    ensures Gather(Y[..], start, K, L) == Rc2ArWith(x, lat, neg)
    ensures forall i :: 0 <= i < Y.Length && !OnSlice(i, start, K, L) ==> Y[i] == old(Y[i])
  {
    SliceInBounds(start, K, L);
    var yp;
    xe, yp := CopySlice(X, Y, start, K, L);
    assert X[..] == old(X[..]);
    yp := yp - K * L;
    OffsetBack(start, K, L);
    assert Sweep(x, 1, lat) == x;
    SweepSlice(Y, y, start, K, L, x, lat);
    ye := NegateSlice(Y, start, K, L, Sweep(x, L, lat), neg);
    GatherIs(Y[..], start, K, Rc2ArWith(x, lat, neg));
  }

  /** Steps l = 1 .. L-1 on a slice holding the coefficients x. */
  method SweepSlice<T>(Y: array<T>, y: array<T>, start: nat, K: nat, L: nat, ghost x: seq<T>, lat: (T, T, T) -> T)
    requires y != Y && K >= 1 && 1 <= L <= y.Length && |x| == L
    requires start + (L - 1) * K < Y.Length
    requires forall j :: 0 <= j < L ==> Offset(start, K, j) < Y.Length && Y[Offset(start, K, j)] == x[j]
    modifies Y, y
    ensures forall j :: 0 <= j < L ==> Y[Offset(start, K, j)] == Sweep(x, L, lat)[j]
    ensures forall i :: 0 <= i < Y.Length && !OnSlice(i, start, K, L) ==> Y[i] == old(Y[i])
  {
    assert Sweep(x, 1, lat) == x;
    var l := 1;
    while l < L
      invariant 1 <= l <= L
      invariant forall j :: 0 <= j < L ==> Y[Offset(start, K, j)] == Sweep(x, l, lat)[j]
      invariant forall i :: 0 <= i < Y.Length && !OnSlice(i, start, K, L) ==> Y[i] == old(Y[i])
    {
      StepSlice(Y, y, start, K, L, l, Sweep(x, l, lat), lat);
      assert Sweep(x, l + 1, lat) == RcStep(Sweep(x, l, lat), l, lat);
      l := l + 1;
    }
  }

  /** The copy loop: Y's slice receives X's slice. */
  method CopySlice<T>(X: array<T>, Y: array<T>, start: nat, K: nat, L: nat) returns (xe: nat, ye: nat)
    requires X != Y && K >= 1 && L >= 1
    requires start + (L - 1) * K < X.Length && start + (L - 1) * K < Y.Length
    modifies Y
    ensures xe == Offset(start, K, L) && ye == xe
    ensures forall j :: 0 <= j < L ==>
              Offset(start, K, j) < Y.Length && Y[Offset(start, K, j)] == Gather(X[..], start, K, L)[j]
    ensures forall i :: 0 <= i < Y.Length && !OnSlice(i, start, K, L) ==> Y[i] == old(Y[i])
  {
    SliceInBounds(start, K, L);
    var xp, yp := start, start;
    var l := 0;
    while l < L
      invariant 0 <= l <= L && xp == Offset(start, K, l) && yp == xp
      invariant forall j :: 0 <= j < l ==> Y[Offset(start, K, j)] == X[Offset(start, K, j)]
      invariant forall i :: 0 <= i < Y.Length && !OnSlice(i, start, K, L) ==> Y[i] == old(Y[i])
    {
      OnSliceAt(start, K, L, l);
      OffsetNext(start, K, l);
      OffsetsDistinct(start, K, l);
      Y[yp] := X[xp];
      l, xp, yp := l + 1, xp + K, yp + K;
    }
    xe, ye := xp, yp;
  }

  /**
   * Step l on a slice holding z: the first l+1 values go to the scratch y,
   * then Y[q] -= y[l] * y[l-1-q] for q < l, walking y backwards.
   */
  method StepSlice<T>(Y: array<T>, y: array<T>, start: nat, K: nat, L: nat, l: nat, ghost z: seq<T>, lat: (T, T, T) -> T)
    requires y != Y && K >= 1 && 1 <= l < L && L <= y.Length && |z| == L
    requires start + (L - 1) * K < Y.Length
    requires forall j :: 0 <= j < L ==> Offset(start, K, j) < Y.Length && Y[Offset(start, K, j)] == z[j]
    modifies Y, y
    ensures forall j :: 0 <= j < L ==> Y[Offset(start, K, j)] == RcStep(z, l, lat)[j]
    ensures forall i :: 0 <= i < Y.Length && !OnSlice(i, start, K, L) ==> Y[i] == old(Y[i])
  {
    SliceInBounds(start, K, L);
    var yp, sp := LoadScratch(Y, y, start, K, L, l + 1, z);
    OffsetBack(start, K, l + 1);
    yp := yp - K * (l + 1);
    sp := sp - 1;
    var sc := y[sp];
    UpdateSlice(Y, y, yp, K, L, l, sc, z, lat);
  }

  /** The update loop of step l: Y[q] -= sc * y[l-1-q] for q < l, with sc == y[l]. */
  method UpdateSlice<T>(Y: array<T>, y: array<T>, start: nat, K: nat, L: nat, l: nat, sc: T, ghost z: seq<T>, lat: (T, T, T) -> T)
    requires y != Y && K >= 1 && 1 <= l < L && L <= y.Length && |z| == L
    requires forall j :: 0 <= j <= l ==> y[j] == z[j]
    requires sc == z[l]
    requires forall j :: 0 <= j < L ==> Offset(start, K, j) < Y.Length && Y[Offset(start, K, j)] == z[j]
    modifies Y
    ensures forall j :: 0 <= j < L ==> Y[Offset(start, K, j)] == RcStep(z, l, lat)[j]
    ensures forall i :: 0 <= i < Y.Length && !OnSlice(i, start, K, L) ==> Y[i] == old(Y[i])
  {
    var yp, sp := start, l;
    var q := 0;
    while q < l
      invariant 0 <= q <= l && sp == l - q && yp == Offset(start, K, q)
      invariant forall j :: 0 <= j <= l ==> y[j] == z[j]
      invariant forall j :: 0 <= j < L ==> Y[Offset(start, K, j)] == PartStep(z, l, lat, q, j)
      invariant forall i :: 0 <= i < Y.Length && !OnSlice(i, start, K, L) ==> Y[i] == old(Y[i])
    {
      OnSliceAt(start, K, L, q);
      OffsetNext(start, K, q);
      OffsetsDistinct(start, K, q);
      sp := sp - 1;
      assert y[sp] == z[l - 1 - q] && Y[yp] == z[q];
      Y[yp] := lat(Y[yp], y[sp], sc);
      q, yp := q + 1, yp + K;
    }
  }

  /** The first n values of Y's slice are copied to the front of y. */
  method LoadScratch<T>(Y: array<T>, y: array<T>, start: nat, K: nat, L: nat, n: nat, ghost z: seq<T>)
    returns (ye: nat, sp: nat)
    requires y != Y && K >= 1 && n <= L <= y.Length && |z| == L
    requires forall j :: 0 <= j < L ==> Offset(start, K, j) < Y.Length && Y[Offset(start, K, j)] == z[j]
    modifies y
    ensures ye == Offset(start, K, n) && sp == n
    ensures forall j :: 0 <= j < n ==> y[j] == z[j]
  {
    var yp := start;
    var q := 0;
    sp := 0;
    while q < n
      invariant 0 <= q <= n && sp == q && yp == Offset(start, K, q)
      invariant forall j :: 0 <= j < q ==> y[j] == z[j]
    {
      OffsetNext(start, K, q);
      y[sp] := Y[yp];
      q, yp, sp := q + 1, yp + K, sp + 1;
    }
    ye := yp;
  }

  /** The final loop: every value of the slice changes sign. */
  method NegateSlice<T>(Y: array<T>, start: nat, K: nat, L: nat, ghost z: seq<T>, neg: T -> T) returns (ye: nat)
    requires K >= 1 && L >= 1 && |z| == L
    requires start + (L - 1) * K < Y.Length
    requires forall j :: 0 <= j < L ==> Offset(start, K, j) < Y.Length && Y[Offset(start, K, j)] == z[j]
    modifies Y
    ensures ye == Offset(start, K, L)
    ensures forall j :: 0 <= j < L ==> Y[Offset(start, K, j)] == NegateAll(z, neg)[j]
    ensures forall i :: 0 <= i < Y.Length && !OnSlice(i, start, K, L) ==> Y[i] == old(Y[i])
  {
    SliceInBounds(start, K, L);
    var yp := start;
    var l := 0;
    while l < L
      invariant 0 <= l <= L && yp == Offset(start, K, l)
      invariant forall j :: 0 <= j < L ==> Y[Offset(start, K, j)] == if j < l then neg(z[j]) else z[j]
      invariant forall i :: 0 <= i < Y.Length && !OnSlice(i, start, K, L) ==> Y[i] == old(Y[i])
    {
      OnSliceAt(start, K, L, l);
      OffsetNext(start, K, l);
      OffsetsDistinct(start, K, l);
      Y[yp] := neg(Y[yp]);
      l, yp := l + 1, yp + K;
    }
    ye := yp;
  }
}
