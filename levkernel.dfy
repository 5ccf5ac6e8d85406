/**
 * The loops of ac2ar_levdurb_s / _d / _c / _z (c/ac2ar_levdurb.c): every
 * vector of Lx autocorrelation values along axis `dim` of an R x C x S x H
 * tensor X becomes its Lx-1 AR coefficients in Y, computed in place by the
 * Levinson-Durbin recursion of module LevDurb. The kernels keep a scratch
 * buffer A of Lx-2 values and walk X, Y and A with pointers; the model keeps
 * those pointers as indices that move as the source's do.
 */
module LevKernel {
  import opened Strided
  import opened Cplx
  import opened LevDurb

  /**
   * f yields the Levinson-Durbin coefficients of each vector. The trigger
   * keeps the fact from firing on every f(...) of the drivers' bookkeeping:
   * it applies where a vector's LevDurbWith has been computed.
   */
  ghost predicate Computes<T(!new)>(o: Ops<T>, f: seq<T> -> seq<T>)
  {
    forall s {:trigger LevDurbWith(o, s)} :: f(s) == LevDurbWith(o, s)
  }

  /** Number of output values: Lx-1 per vector, none when Lx < 2. */
  function OutSize(R: nat, C: nat, S: nat, H: nat, dim: nat): nat
  {
    if dim > 3 || AxisLength(R, C, S, H, dim) < 2 then 0
    else NumSlices(R, C, S, H, dim) * (AxisLength(R, C, S, H, dim) - 1)
  }

  /**
   * ac2ar_levdurb_s / _d. Returns 1 for an invalid axis (Y untouched),
   * otherwise 0; vectors of fewer than two values write nothing.
   */
  method AcToArReal(X: array<real>, Y: array<real>, R: nat, C: nat, S: nat, H: nat, colMajor: bool, dim: nat)
    returns (status: int)
    requires X != Y
    requires Size(R, C, S, H) <= X.Length && OutSize(R, C, S, H, dim) <= Y.Length
    modifies Y
    ensures status == (if dim > 3 then 1 else 0)
    ensures OutSize(R, C, S, H, dim) == 0 || Size(R, C, S, H) == 0 ==> Y[..] == old(Y[..])
    ensures OutSize(R, C, S, H, dim) > 0 && Size(R, C, S, H) > 0 ==>
              var N, M := Size(R, C, S, H), OutSize(R, C, S, H, dim);
              var Lx := AxisLength(R, C, S, H, dim);
              Y[..M] == MapSlices(X[..N], WalkOf(R, C, S, H, colMajor, dim), Lx, Lx - 1, LevDurb.LevDurb) &&
              Y[M..] == old(Y[M..])
  {
    OpsInvolutive();
    status := LevKernel(X, Y, R, C, S, H, colMajor, dim, RealOps(), LevDurbOf(RealOps()));
    if OutSize(R, C, S, H, dim) > 0 && Size(R, C, S, H) > 0 {
      var N, Lx := Size(R, C, S, H), AxisLength(R, C, S, H, dim);
      MapSlicesExt(X[..N], WalkOf(R, C, S, H, colMajor, dim), Lx, Lx - 1, LevDurbOf(RealOps()), LevDurb.LevDurb);
    }
  }

  /** ac2ar_levdurb_c / _z: the same on complex autocorrelations. */
  method AcToArComplex(X: array<Complex>, Y: array<Complex>, R: nat, C: nat, S: nat, H: nat, colMajor: bool, dim: nat)
    returns (status: int)
    requires X != Y
    requires Size(R, C, S, H) <= X.Length && OutSize(R, C, S, H, dim) <= Y.Length
    modifies Y
    ensures status == (if dim > 3 then 1 else 0)
    ensures OutSize(R, C, S, H, dim) == 0 || Size(R, C, S, H) == 0 ==> Y[..] == old(Y[..])
    ensures OutSize(R, C, S, H, dim) > 0 && Size(R, C, S, H) > 0 ==>
              var N, M := Size(R, C, S, H), OutSize(R, C, S, H, dim);
              var Lx := AxisLength(R, C, S, H, dim);
              Y[..M] == MapSlices(X[..N], WalkOf(R, C, S, H, colMajor, dim), Lx, Lx - 1, CLevDurb) &&
              Y[M..] == old(Y[M..])
  {
    OpsInvolutive();
    status := LevKernel(X, Y, R, C, S, H, colMajor, dim, ComplexOps(), LevDurbOf(ComplexOps()));
    if OutSize(R, C, S, H, dim) > 0 && Size(R, C, S, H) > 0 {
      var N, Lx := Size(R, C, S, H), AxisLength(R, C, S, H, dim);
      MapSlicesExt(X[..N], WalkOf(R, C, S, H, colMajor, dim), Lx, Lx - 1, LevDurbOf(ComplexOps()), CLevDurb);
    }
  }

  /** The driver shared by the four variants; f is the per-vector result. */
  method LevKernel<T(0,!new)>(X: array<T>, Y: array<T>, R: nat, C: nat, S: nat, H: nat, colMajor: bool, dim: nat,
                              o: Ops<T>, ghost f: seq<T> -> seq<T>)
    returns (status: int)
    requires X != Y && Involutive(o) && f == LevDurbOf(o)
    requires Size(R, C, S, H) <= X.Length && OutSize(R, C, S, H, dim) <= Y.Length
    modifies Y
    ensures status == (if dim > 3 then 1 else 0)
    ensures OutSize(R, C, S, H, dim) == 0 || Size(R, C, S, H) == 0 ==> Y[..] == old(Y[..])
    ensures OutSize(R, C, S, H, dim) > 0 && Size(R, C, S, H) > 0 ==>
              var N, M := Size(R, C, S, H), OutSize(R, C, S, H, dim);
              var Lx := AxisLength(R, C, S, H, dim);
              Y[..M] == MapSlices(X[..N], WalkOf(R, C, S, H, colMajor, dim), Lx, Lx - 1, f) &&
              Y[M..] == old(Y[M..])
  {
    if dim > 3 {
      return 1;
    }
    var N := R * C * S * H;
    var Lx := if dim == 0 then R else if dim == 1 then C else if dim == 2 then S else H;
    if N == 0 || Lx < 2 {
      return 0;
    }
    Shape(R, C, S, H, colMajor, dim);
    var A := new T[Lx - 2];
    ghost var w := WalkOf(R, C, S, H, colMajor, dim);
    assert Computes(o, f);
    if Lx == N {
      SingleSlice(R, C, S, H, colMajor, dim);
      var xe, ye := LevVisit(X, Y, A, w, 1, Lx, 0, 0, 0, 0, o, f);
    } else {
      var K := if colMajor then (if dim == 0 then 1 else if dim == 1 then R else if dim == 2 then R * C else R * C * S)
               else (if dim == 0 then C * S * H else if dim == 1 then S * H else if dim == 2 then H else 1);
      var B := if colMajor && dim == 0 then C * S * H else K;
      var V := N / Lx;
      var G := V / B;
      FastPathIffUnitStride(R, C, S, H, colMajor, dim);
      if K == 1 && (G == 1 || B == 1) {
        LevContiguous(X, Y, A, V, Lx, w, o, f);
      } else {
        LevStrided(X, Y, A, G, K, Lx, w, o, f);
      }
    }
    ghost var M := w.groups * w.blocks * (Lx - 1);
    assert w.groups * w.blocks * Lx == N && M == OutSize(R, C, S, H, dim);
    MappedAll(Y[..], X[..], w, Lx, Lx - 1, f);
    assert Y[..][..M] == Y[..M] && X[..][..N] == X[..N];
    TailSame(Y[..], old(Y[..]), M);
    return 0;
  }

  /** The contiguous loop: V vectors of Lx values in, V vectors of Lx-1 values out. */
  method LevContiguous<T(!new)>(X: array<T>, Y: array<T>, A: array<T>, V: nat, Lx: nat, ghost w: Walk,
                          o: Ops<T>, ghost f: seq<T> -> seq<T>)
    requires X != Y && A != X && A != Y && Lx >= 2 && Lx - 2 <= A.Length
    requires w == Walk(V, 1, 1) && Fits(w, Lx, Lx - 1, X.Length, Y.Length)
    requires Involutive(o) && Computes(o, f)
    modifies Y, A
    ensures Mapped(Y[..], X[..], w, Lx, Lx - 1, f, V, 0)
    ensures forall i :: 0 <= i < Y.Length && w.groups * w.blocks * (Lx - 1) <= i ==> Y[i] == old(Y[i])
  {
    var xp, yp := 0, 0;
    var v := 0;
    while v < V
      invariant v <= V && xp == v * Lx && yp == v * (Lx - 1)
      invariant Mapped(Y[..], X[..], w, Lx, Lx - 1, f, v, 0)
      invariant forall i :: 0 <= i < Y.Length && w.groups * w.blocks * (Lx - 1) <= i ==> Y[i] == old(Y[i])
    {
      NextContiguous(w, Lx, v);
      NextContiguous(w, Lx - 1, v);
      var xe, ye := LevVisit(X, Y, A, w, 1, Lx, v, 0, xp, yp, o, f);
      MappedGroup(Y[..], X[..], w, Lx, Lx - 1, f, v);
      ContiguousStep(Lx, v, xp, xe, yp);
      xp := if Lx == 2 then xp + 2 else xe;
      yp := yp + (Lx - 1);
      v := v + 1;
    }
  }

  /** The general nest: G groups of K vectors whose samples are K apart. */
  method LevStrided<T(!new)>(X: array<T>, Y: array<T>, A: array<T>, G: nat, K: nat, Lx: nat, ghost w: Walk,
                       o: Ops<T>, ghost f: seq<T> -> seq<T>)
    requires X != Y && A != X && A != Y && K >= 1 && Lx >= 2 && Lx - 2 <= A.Length
    requires w == Walk(G, K, K) && Fits(w, Lx, Lx - 1, X.Length, Y.Length)
    requires Involutive(o) && Computes(o, f)
    modifies Y, A
    ensures Mapped(Y[..], X[..], w, Lx, Lx - 1, f, G, 0)
    ensures forall i :: 0 <= i < Y.Length && w.groups * w.blocks * (Lx - 1) <= i ==> Y[i] == old(Y[i])
  {
    var xp, yp := 0, 0;
    var g := 0;
    while g < G
      invariant g <= G && xp == Index(w, Lx, g, 0, 0) && yp == Index(w, Lx - 1, g, 0, 0)
      invariant Mapped(Y[..], X[..], w, Lx, Lx - 1, f, g, 0)
      invariant forall i :: 0 <= i < Y.Length && w.groups * w.blocks * (Lx - 1) <= i ==> Y[i] == old(Y[i])
    {
      xp, yp := LevGroup(X, Y, A, K, Lx, g, xp, yp, w, o, f);
      g := g + 1;
    }
  }

  /**
   * One group of the general nest: its K vectors, each one sample further on;
   * the pointers then step to the next group.
   */
  method LevGroup<T(!new)>(X: array<T>, Y: array<T>, A: array<T>, K: nat, Lx: nat, g: nat, xs: nat, ys: nat, ghost w: Walk,
                     o: Ops<T>, ghost f: seq<T> -> seq<T>)
    returns (xe: nat, ye: nat)
    requires X != Y && A != X && A != Y && Lx >= 2 && Lx - 2 <= A.Length
    requires w.blocks == K && w.stride == K && g < w.groups && Fits(w, Lx, Lx - 1, X.Length, Y.Length)
    requires Involutive(o) && Computes(o, f)
    requires xs == Index(w, Lx, g, 0, 0) && ys == Index(w, Lx - 1, g, 0, 0)
    requires Mapped(Y[..], X[..], w, Lx, Lx - 1, f, g, 0)
    modifies Y, A
    ensures xe == Index(w, Lx, g + 1, 0, 0) && ye == Index(w, Lx - 1, g + 1, 0, 0)
    ensures Mapped(Y[..], X[..], w, Lx, Lx - 1, f, g + 1, 0)
    ensures forall i :: 0 <= i < Y.Length && w.groups * w.blocks * (Lx - 1) <= i ==> Y[i] == old(Y[i])
  {
    var xp, yp := xs, ys;
    var b := 0;
    while b < K
      invariant b <= K && xp == Index(w, Lx, g, b, 0) && yp == Index(w, Lx - 1, g, b, 0)
      invariant Mapped(Y[..], X[..], w, Lx, Lx - 1, f, g, b)
      invariant forall i :: 0 <= i < Y.Length && w.groups * w.blocks * (Lx - 1) <= i ==> Y[i] == old(Y[i])
    {
      var xe, ye := LevVisit(X, Y, A, w, K, Lx, g, b, xp, yp, o, f);
      BlockStep(w, K, Lx, g, b, xp, xe, yp);
      xp := if Lx == 2 then xe + 1 else xe - (K * Lx - 1);
      yp := ye + 1;
      b := b + 1;
    }
    MappedGroup(Y[..], X[..], w, Lx, Lx - 1, f, g);
    NextGroup(w, Lx, g);
    NextGroup(w, Lx - 1, g);
    xe, ye := xp + K * (Lx - 1), yp + K * (Lx - 1 - 1);
  }

  /**
   * Slice (g, b) of walk w: one more vector mapped. Returns the pointers as
   * the source leaves them: past the input vector (at its start for Lx == 2)
   * and back at the start of the output vector.
   */
  method LevVisit<T(!new)>(X: array<T>, Y: array<T>, A: array<T>, ghost w: Walk, K: nat, Lx: nat, g: nat, b: nat,
                     xs: nat, ys: nat, o: Ops<T>, ghost f: seq<T> -> seq<T>)
    returns (xe: nat, ye: nat)
    requires X != Y && A != X && A != Y && w.stride == K && Lx >= 2 && Lx - 2 <= A.Length
    requires Fits(w, Lx, Lx - 1, X.Length, Y.Length) && g < w.groups && b < w.blocks
    requires Involutive(o) && Computes(o, f)
    requires xs == Index(w, Lx, g, b, 0) && ys == Index(w, Lx - 1, g, b, 0)
    requires Mapped(Y[..], X[..], w, Lx, Lx - 1, f, g, b)
    modifies Y, A
    ensures xe == (if Lx == 2 then xs else xs + Lx * K) && ye == ys
    ensures Mapped(Y[..], X[..], w, Lx, Lx - 1, f, g, b + 1)
    ensures forall i :: 0 <= i < Y.Length && w.groups * w.blocks * (Lx - 1) <= i ==> Y[i] == old(Y[i])
  {
    SliceFits(w, Lx, g, b);
    SliceFits(w, Lx - 1, g, b);
    ghost var before := Y[..];
    ghost var x := Gather(X[..], xs, K, Lx);
    xe, ye := LevVector(X, Y, A, xs, ys, K, Lx, o, x);
    assert X[..] == old(X[..]);
    assert f(x) == LevDurbWith(o, x);
    assert SliceMapped(Y[..], X[..], w, Lx, Lx - 1, f, g, b);
    MappedNext(before, Y[..], X[..], w, Lx, Lx - 1, f, g, b);
    forall i | 0 <= i < Y.Length && w.groups * w.blocks * (Lx - 1) <= i
      ensures Y[i] == old(Y[i])
    {
      if OnSlice(i, ys, K, Lx - 1) {
        OnSliceBelow(w, Lx - 1, g, b, i);
      }
    }
  }

  /**
   * One vector: Lx values at X[xs], X[xs+K], ... become Lx-1 coefficients at
   * Y[ys], Y[ys+K], ... Returns the pointers as the source leaves them: past
   * the input vector (at its start for Lx == 2) and back at the output's start.
   */
  method LevVector<T(!new)>(X: array<T>, Y: array<T>, A: array<T>, xs: nat, ys: nat, K: nat, Lx: nat, o: Ops<T>,
                            ghost x: seq<T>)
    returns (xe: nat, ye: nat)
    requires X != Y && A != X && A != Y && K >= 1 && Lx >= 2 && Lx - 2 <= A.Length
    requires xs + (Lx - 1) * K < X.Length && ys + (Lx - 1 - 1) * K < Y.Length
    requires Involutive(o) && x == Gather(X[..], xs, K, Lx)
    modifies Y, A
    ensures xe == (if Lx == 2 then xs else xs + Lx * K) && ye == ys
    ensures Gather(Y[..], ys, K, Lx - 1) == LevDurbWith(o, x)
    ensures forall i :: 0 <= i < Y.Length && !OnSlice(i, ys, K, Lx - 1) ==> Y[i] == old(Y[i])
  {
    if Lx == 2 {
      PairSlice(X, Y, xs, ys, K, o, x);
      xe, ye := xs, ys;
    } else {
      xe, ye := LevSlice(X, Y, A, xs, ys, K, Lx, o, x);
    }
  }

  /** Lx == 2: the one coefficient x1/x0 (c/ac2ar_levdurb.c:35-51). */
  method PairSlice<T(!new)>(X: array<T>, Y: array<T>, xs: nat, ys: nat, K: nat, o: Ops<T>, ghost x: seq<T>)
    requires X != Y && K >= 1 && xs + K < X.Length && ys < Y.Length
    requires Involutive(o) && x == Gather(X[..], xs, K, 2)
    modifies Y
    ensures Gather(Y[..], ys, K, 1) == LevDurbWith(o, x)
    ensures forall i :: 0 <= i < Y.Length && !OnSlice(i, ys, K, 1) ==> Y[i] == old(Y[i])
  {
    Y[ys] := o.ratio(X[xs + K], X[xs]);
    LevDurbPair(o, x);
    GatherIs(Y[..], ys, K, [Y[ys]]);
    forall i | 0 <= i < Y.Length && !OnSlice(i, ys, K, 1)
      ensures Y[i] == old(Y[i])
    {
      if i == ys {
        OnSliceAt(ys, K, 1, 0);
      }
    }
  }

  /**
   * Lx >= 3: order 1 from x0 and x1, then orders 2 .. Lx-1, each step
   * updating the first p coefficients of Y's slice in place
   * (c/ac2ar_levdurb.c:61-76 and 88-123 for real, 300-328 and 340-400 for complex data).
   */
  method LevSlice<T>(X: array<T>, Y: array<T>, A: array<T>, xs: nat, ys: nat, K: nat, Lx: nat, o: Ops<T>,
                     ghost x: seq<T>)
    returns (xe: nat, ye: nat)
    requires X != Y && A != X && A != Y && K >= 1 && Lx >= 3 && Lx - 2 <= A.Length
    requires xs + (Lx - 1) * K < X.Length && ys + (Lx - 1 - 1) * K < Y.Length
    requires x == Gather(X[..], xs, K, Lx)
    modifies Y, A
    ensures xe == xs + Lx * K && ye == ys
    ensures Gather(Y[..], ys, K, Lx - 1) == LevDurbWith(o, x)
    ensures forall i :: 0 <= i < Y.Length && !OnSlice(i, ys, K, Lx - 1) ==> Y[i] == old(Y[i])
  {
    var e, xp;
    ghost var s;
    e, xp, s := LevFirst(X, Y, xs, ys, K, Lx, o, x);
    var p := 1;
    while p < Lx - 1
      invariant 1 <= p <= Lx - 1 && xp == Offset(xs, K, p + 1)
      invariant IsOrder(o, x, p, s) && e == s.e && |s.y| == p
      invariant forall j :: 0 <= j < p ==> Offset(ys, K, j) < Y.Length && Y[Offset(ys, K, j)] == s.y[j]
      invariant forall i :: 0 <= i < Y.Length && !OnSlice(i, ys, K, Lx - 1) ==> Y[i] == old(Y[i])
      invariant X[..] == old(X[..])
    {
      e, xp, s := NextOrderSlice(X, Y, A, xs, ys, K, Lx, p, e, o, x, s);
      p := p + 1;
    }
    SliceDone(Y[..], ys, K, Lx, o, x, s);
    xe, ye := xp, ys;
  }

  /**
   * s is the state after order p of x. The trigger keeps LevOrder folded in
   * the loop that only carries s along; it unfolds where a step names
   * LevOrder(o, x, p) itself.
   */
  ghost predicate IsOrder<T>(o: Ops<T>, x: seq<T>, p: nat, s: Lev<T>)
  {
    forall q: nat {:trigger LevOrder(o, x, q)} :: q == p && 1 <= q < |x| ==> s == LevOrder(o, x, q)
  }

  /** Order 1: y0 = x1/x0 and e = x0 + a*x1 with a = -x0/x1; X's pointer ends at x2. */
  method LevFirst<T>(X: array<T>, Y: array<T>, xs: nat, ys: nat, K: nat, Lx: nat, o: Ops<T>, ghost x: seq<T>)
    returns (e: real, xp: nat, ghost s: Lev<T>)
    requires X != Y && K >= 1 && Lx >= 3
    requires xs + (Lx - 1) * K < X.Length && ys + (Lx - 1 - 1) * K < Y.Length
    requires x == Gather(X[..], xs, K, Lx)
    modifies Y
    ensures xp == Offset(xs, K, 1 + 1) && IsOrder(o, x, 1, s) && e == s.e && |s.y| == 1
    ensures forall j :: 0 <= j < 1 ==> Offset(ys, K, j) < Y.Length && Y[Offset(ys, K, j)] == s.y[j]
    ensures forall i :: 0 <= i < Y.Length && !OnSlice(i, ys, K, Lx - 1) ==> Y[i] == old(Y[i])
  {
    SliceInBounds(xs, K, Lx);
    var a := o.neg(o.ratio(X[xs + K], X[xs]));
    OnSliceAt(ys, K, Lx - 1, 0);
    Y[ys] := o.neg(a);
    e := o.err0(X[xs], X[xs + K], a);
    xp := xs + 2 * K;
    s := LevOrder(o, x, 1);
  }

  /** Order p to order p+1 on one slice; X's pointer then steps to x[p+2]. */
  method NextOrderSlice<T>(X: array<T>, Y: array<T>, A: array<T>, xs: nat, ys: nat, K: nat, Lx: nat, p: nat, e: real,
                           o: Ops<T>, ghost x: seq<T>, ghost s: Lev<T>)
    returns (e': real, xp: nat, ghost s': Lev<T>)
    requires X != Y && A != X && A != Y && K >= 1 && 1 <= p < Lx - 1 && Lx - 2 <= A.Length
    requires xs + (Lx - 1) * K < X.Length && ys + (Lx - 1 - 1) * K < Y.Length
    requires x == Gather(X[..], xs, K, Lx) && IsOrder(o, x, p, s) && e == s.e && |s.y| == p
    requires forall j :: 0 <= j < p ==> Offset(ys, K, j) < Y.Length && Y[Offset(ys, K, j)] == s.y[j]
    modifies Y, A
    ensures xp == Offset(xs, K, p + 1 + 1) && IsOrder(o, x, p + 1, s') && e' == s'.e && |s'.y| == p + 1
    ensures forall j :: 0 <= j < p + 1 ==> Offset(ys, K, j) < Y.Length && Y[Offset(ys, K, j)] == s'.y[j]
    ensures forall i :: 0 <= i < Y.Length && !OnSlice(i, ys, K, Lx - 1) ==> Y[i] == old(Y[i])
  {
    assert s == LevOrder(o, x, p);
    assert Lev(s.y, e) == s;
    var xq;
    e', xq := LevStepSlice(X, Y, A, xs, ys, K, Lx, p, e, o, x, s.y);
    s' := LevStep(o, x, Lev(s.y, e));
    LevOrderNext(o, x, p);
    OffsetJump(xs, K, 1, p + 1);
    xp := xq + (p + 1) * K;
  }

  /** Step p -> p+1 on a slice whose first p values of Y hold the order-p coefficients y. */
  method LevStepSlice<T>(X: array<T>, Y: array<T>, A: array<T>, xs: nat, ys: nat, K: nat, Lx: nat, p: nat, e: real,
                         o: Ops<T>, ghost x: seq<T>, ghost y: seq<T>)
    returns (e': real, xp: nat)
    requires X != Y && A != X && A != Y && K >= 1 && 1 <= p < Lx - 1 && Lx - 2 <= A.Length && |y| == p
    requires xs + (Lx - 1) * K < X.Length && ys + (Lx - 1 - 1) * K < Y.Length
    requires x == Gather(X[..], xs, K, Lx)
    requires forall j :: 0 <= j < p ==> Offset(ys, K, j) < Y.Length && Y[Offset(ys, K, j)] == y[j]
    modifies Y, A
    ensures e' == LevStep(o, x, Lev(y, e)).e && xp == Offset(xs, K, 1)
    ensures forall j :: 0 <= j <= p ==> Offset(ys, K, j) < Y.Length && Y[Offset(ys, K, j)] == LevStep(o, x, Lev(y, e)).y[j]
    ensures forall i :: 0 <= i < Y.Length && !OnSlice(i, ys, K, Lx - 1) ==> Y[i] == old(Y[i])
  {
    var a;
    a, xp := Reflect(X, Y, xs, ys, K, Lx, p, e, o, x, y);
    var yp := Snap(Y, A, ys, K, Lx, p, o, y);
    Update(Y, A, yp + p * K, ys, K, Lx, p, a, o, y);
    e' := e * (1.0 - o.norm2(a));
    assert LevStep(o, x, Lev(y, e)) == Lev(Grow(o, y, a), e');
  }

  /**
   * The reflection coefficient of step p: the prediction sum over -e; its
   * negation becomes y[p] (c/ac2ar_levdurb.c:68-71, 310-318).
   */
  method Reflect<T>(X: array<T>, Y: array<T>, xs: nat, ys: nat, K: nat, Lx: nat, p: nat, e: real,
                    o: Ops<T>, ghost x: seq<T>, ghost y: seq<T>)
    returns (a: T, xp: nat)
    requires X != Y && K >= 1 && 1 <= p < Lx - 1 && |y| == p
    requires xs + (Lx - 1) * K < X.Length && ys + (Lx - 1 - 1) * K < Y.Length
    requires x == Gather(X[..], xs, K, Lx)
    requires forall j :: 0 <= j < p ==> Offset(ys, K, j) < Y.Length && Y[Offset(ys, K, j)] == y[j]
    modifies Y
    ensures a == Reflection(o, x, Lev(y, e)) && xp == Offset(xs, K, 1)
    ensures Offset(ys, K, p) < Y.Length && Y[Offset(ys, K, p)] == o.neg(a)
    ensures forall j :: 0 <= j < p ==> Y[Offset(ys, K, j)] == y[j]
    ensures forall i :: 0 <= i < Y.Length && !OnSlice(i, ys, K, Lx - 1) ==> Y[i] == old(Y[i])
  {
    SliceInBounds(ys, K, Lx - 1);
    var acc, yp;
    acc, xp, yp := Predict(X, Y, xs, ys, K, Lx, p, o, x, y);
    a := o.over(acc, -e);
    OnSliceAt(ys, K, Lx - 1, p);
    OffsetsDistinct(ys, K, p);
    Y[yp] := o.neg(a);
  }

  /**
   * The prediction loop of step p: acc = x[p+1] - sum_{q<p} x[p-q] * y[q],
   * walking X back from x[p+1] and Y forward from y[0].
   */
  method Predict<T>(X: array<T>, Y: array<T>, xs: nat, ys: nat, K: nat, Lx: nat, p: nat, o: Ops<T>,
                    ghost x: seq<T>, ghost y: seq<T>)
    returns (acc: T, xp: nat, yp: nat)
    requires K >= 1 && 1 <= p < Lx - 1 && |y| == p
    requires xs + (Lx - 1) * K < X.Length && ys + (Lx - 1 - 1) * K < Y.Length
    requires x == Gather(X[..], xs, K, Lx)
    requires forall j :: 0 <= j < p ==> Offset(ys, K, j) < Y.Length && Y[Offset(ys, K, j)] == y[j]
    ensures acc == Acc(o, x, y, p, p)
    ensures xp == Offset(xs, K, 1) && yp == Offset(ys, K, p)
  {
    OffsetBound(xs, K, Lx, p + 1);
    xp, yp := Offset(xs, K, p + 1), ys;
    acc := X[xp];
    var q := 0;
    while q < p
      invariant q <= p && xp == Offset(xs, K, p + 1 - q) && yp == Offset(ys, K, q)
      invariant acc == Acc(o, x, y, p, q)
    {
      OffsetBound(ys, K, Lx - 1, q);
      OffsetPrev(xs, K, p + 1 - q);
      OffsetNext(ys, K, q);
      xp := xp - K;
      assert X[xp] == x[p - q] && Y[yp] == y[q];
      AccNext(o, x, y, p, q);
      acc := o.sub(acc, o.mul(X[xp], Y[yp]));
      q, yp := q + 1, yp + K;
    }
  }

  /** After the last order the slice holds the vector's coefficients. */
  lemma SliceDone<T>(y: seq<T>, ys: nat, K: nat, Lx: nat, o: Ops<T>, x: seq<T>, s: Lev<T>)
    requires K >= 1 && Lx >= 3 && |x| == Lx && ys + (Lx - 1 - 1) * K < |y|
    requires IsOrder(o, x, Lx - 1, s) && |s.y| == Lx - 1
    requires forall j :: 0 <= j < Lx - 1 ==> Offset(ys, K, j) < |y| && y[Offset(ys, K, j)] == s.y[j]
    ensures Gather(y, ys, K, Lx - 1) == LevDurbWith(o, x)
  {
    assert s == LevOrder(o, x, Lx - 1);
    GatherIs(y, ys, K, s.y);
  }

  /** Pointer step of the contiguous loop: both pointers reach vector v + 1. */
  lemma ContiguousStep(Lx: nat, v: nat, xp: nat, xe: nat, yp: nat)
    requires Lx >= 2 && xp == v * Lx && yp == v * (Lx - 1)
    requires xe == (if Lx == 2 then xp else xp + Lx * 1)
    ensures (if Lx == 2 then xp + 2 else xe) == (v + 1) * Lx
    ensures yp + (Lx - 1) == (v + 1) * (Lx - 1)
  {
    assert (v + 1) * Lx == v * Lx + Lx;
    assert (v + 1) * (Lx - 1) == v * (Lx - 1) + (Lx - 1);
  }

  /** Pointer step of the group loop: both pointers reach block b + 1. */
  lemma BlockStep(w: Walk, K: nat, Lx: nat, g: nat, b: nat, xp: nat, xe: nat, yp: nat)
    requires ValidWalk(w) && w.stride == K && Lx >= 2
    requires xp == Index(w, Lx, g, b, 0) && yp == Index(w, Lx - 1, g, b, 0)
    requires xe == (if Lx == 2 then xp else xp + Lx * K)
    ensures Lx != 2 ==> xe >= K * Lx - 1
    ensures (if Lx == 2 then xe + 1 else xe - (K * Lx - 1)) == Index(w, Lx, g, b + 1, 0)
    ensures yp + 1 == Index(w, Lx - 1, g, b + 1, 0)
  {
    NextInGroup(w, Lx, g, b);
  }

  /** The order after p is one step up from order p. */
  lemma LevOrderNext<T>(o: Ops<T>, x: seq<T>, p: nat)
    requires 1 <= p < |x| - 1
    ensures LevOrder(o, x, p + 1) == LevStep(o, x, LevOrder(o, x, p))
  {
  }

  /** Moving a slice pointer forward by n samples. */
  lemma OffsetJump(start: nat, K: nat, i: nat, n: nat)
    ensures Offset(start, K, i) + n * K == Offset(start, K, i + n)
  {
    assert (i + n) * K == i * K + n * K;
  }

  /** Moving a slice pointer back by one sample. */
  lemma OffsetPrev(start: nat, K: nat, j: nat)
    requires j >= 1
    ensures Offset(start, K, j) >= K && Offset(start, K, j) - K == Offset(start, K, j - 1)
  {
  }

  /** One more term of the prediction sum. */
  lemma AccNext<T>(o: Ops<T>, x: seq<T>, y: seq<T>, p: nat, q: nat)
    requires q < p < |x| - 1 && p <= |y|
    ensures Acc(o, x, y, p, q + 1) == o.sub(Acc(o, x, y, p, q), o.mul(x[p - q], y[q]))
  {
  }

  /**
   * The copy loop of step p: A[q] = snap(y[p-1-q]), walking Y back from
   * y[p] (c/ac2ar_levdurb.c:72, 319). Returns Y's pointer, at y[0].
   */
  method Snap<T>(Y: array<T>, A: array<T>, ys: nat, K: nat, Lx: nat, p: nat, o: Ops<T>, ghost y: seq<T>)
    returns (yp: nat)
    requires A != Y && K >= 1 && 1 <= p < Lx - 1 && Lx - 2 <= A.Length && |y| == p
    requires ys + (Lx - 1 - 1) * K < Y.Length
    requires forall j :: 0 <= j < p ==> Offset(ys, K, j) < Y.Length && Y[Offset(ys, K, j)] == y[j]
    modifies A
    ensures yp == ys
    ensures forall j :: 0 <= j < p ==> A[j] == o.snap(y[p - 1 - j])
  {
    yp := Offset(ys, K, p);
    var ap := 0;
    var q := 0;
    while q < p
      invariant q <= p && ap == q && yp == Offset(ys, K, p - q)
      invariant forall j :: 0 <= j < q ==> A[j] == o.snap(y[p - 1 - j])
    {
      OffsetPrev(ys, K, p - q);
      yp := yp - K;
      A[ap] := o.snap(Y[yp]);
      q, ap := q + 1, ap + 1;
    }
  }

  /**
   * The update loop of step p: y[j] += a * A[j], walking Y and A back from
   * y[p-1] (c/ac2ar_levdurb.c:73-74, 320-326).
   */
  method Update<T>(Y: array<T>, A: array<T>, start: nat, ys: nat, K: nat, Lx: nat, p: nat, a: T, o: Ops<T>,
                   ghost y: seq<T>)
    requires A != Y && K >= 1 && 1 <= p < Lx - 1 && Lx - 2 <= A.Length && |y| == p
    requires ys + (Lx - 1 - 1) * K < Y.Length && start == Offset(ys, K, p)
    requires forall j :: 0 <= j < p ==> A[j] == o.snap(y[p - 1 - j])
    requires forall j :: 0 <= j < p ==> Offset(ys, K, j) < Y.Length && Y[Offset(ys, K, j)] == y[j]
    modifies Y
    ensures forall j :: 0 <= j < p ==> Y[Offset(ys, K, j)] == Grow(o, y, a)[j]
    ensures forall j :: p <= j < Lx - 1 ==> Offset(ys, K, j) < Y.Length && Y[Offset(ys, K, j)] == old(Y[Offset(ys, K, j)])
    ensures forall i :: 0 <= i < Y.Length && !OnSlice(i, ys, K, p) ==> Y[i] == old(Y[i])
  {
    SliceInBounds(ys, K, Lx - 1);
    var yp, ap := start, p;
    var q := 0;
    while q < p
      invariant q <= p && ap == p - q && yp == Offset(ys, K, p - q)
      invariant forall j :: 0 <= j < p ==> Y[Offset(ys, K, j)] == if j >= p - q then Grow(o, y, a)[j] else y[j]
      invariant forall j :: p <= j < Lx - 1 ==> Y[Offset(ys, K, j)] == old(Y[Offset(ys, K, j)])
      invariant forall i :: 0 <= i < Y.Length && !OnSlice(i, ys, K, p) ==> Y[i] == old(Y[i])
    {
      ghost var j0 := p - q - 1;
      OffsetPrev(ys, K, p - q);
      OnSliceAt(ys, K, p, j0);
      OffsetsDistinct(ys, K, j0);
      ap, yp := ap - 1, yp - K;
      assert yp == Offset(ys, K, j0) && Y[yp] == y[j0] && A[ap] == o.snap(y[p - 1 - j0]);
      Y[yp] := o.add(Y[yp], o.mul(a, A[ap]));
      GrowAt(o, y, a, j0);
      q := q + 1;
    }
  }
}
