/**
 * The drivers of c/ifft.rad2.c: ifft_rad2_s / _d take every vector of Lx =
 * nfft/2+1 non-negative-frequency spectrum values along axis `dim` of an
 * R x C x S x H tensor X to nfft real output samples in Y; ifft_rad2_c / _z
 * take every vector of nfft complex values to nfft complex samples. Each
 * vector is transformed by fft_1d_c (module Fft) with the tables of
 * get_bittbl and get_cstbl, and every output is multiplied by a scale s.
 * The drivers walk X and Y with pointers; the model keeps those pointers
 * as indices that move as the source's do.
 */
module IfftKernel {
  import opened Arith
  import opened Cplx
  import opened Strided
  import opened Bits
  import opened CsTbl
  import opened Fft

  /** M_SQRT2 and M_SQRT1_2 of math.h, to the digits the header spells out. */
  const Sqrt2: real := 1.41421356237309504880
  const Sqrt1Half: real := 0.70710678118654752440

  /** The output scale: 2*sqrt(2)/nfft when sc is set, 1/nfft otherwise. */
  function ScaleOf(sc: bool, nfft: nat): real
    requires nfft >= 1
  {
    if sc then 2.0 * Sqrt2 / (nfft as real) else 1.0 / (nfft as real)
  }

  /** The scale is positive, and nfft of it make 2*sqrt(2), or 1 without sc. */
  lemma ScaleTimesLength(sc: bool, nfft: nat)
    requires nfft >= 1
    ensures ScaleOf(sc, nfft) > 0.0
    ensures ScaleOf(sc, nfft) * (nfft as real) == (if sc then 2.0 * Sqrt2 else 1.0)
  {
  }

  // ---------------------------------------------------------------------
  // One vector

  /**
   * The spectrum of a real signal from its first Lx = nfft/2+1 values: the
   * rest are the conjugates of the mirrored ones, X[l] = conj X[nfft-l].
   */
  function Hermitian(x: seq<Complex>, nfft: nat): (y: seq<Complex>)
    ensures |y| == nfft
  {
    seq(nfft, l requires 0 <= l < nfft =>
      if l < |x| then x[l] else if nfft - l < |x| then Conj(x[nfft - l]) else Zero)
  }

  /** The extension keeps the given values and is conjugate-symmetric about 0 and nfft/2. */
  lemma HermitianSymmetric(x: seq<Complex>, nfft: nat)
    requires nfft >= 2 && nfft % 2 == 0 && |x| == nfft / 2 + 1
    requires x[0].im == 0.0 && x[nfft / 2].im == 0.0
    ensures Hermitian(x, nfft)[..|x|] == x
    ensures forall l :: 0 < l < nfft ==> Hermitian(x, nfft)[nfft - l] == Conj(Hermitian(x, nfft)[l])
    ensures Hermitian(x, nfft)[0] == Conj(Hermitian(x, nfft)[0])
  {
    var y := Hermitian(x, nfft);
    forall l | 0 < l < nfft
      ensures y[nfft - l] == Conj(y[l])
    {
      if l < |x| {
        assert y[l] == x[l];
        if nfft - l < |x| {
          assert l == nfft / 2 && y[nfft - l] == x[l];
        } else {
          assert y[nfft - l] == Conj(x[l]);
        }
      } else {
        assert y[l] == Conj(x[nfft - l]) && y[nfft - l] == x[nfft - l];
      }
    }
  }

  /** s times the real part of every value. */
  function RealParts(z: seq<Complex>, s: real): (r: seq<real>)
    ensures |r| == |z|
    ensures forall l :: 0 <= l < |z| ==> r[l] == s * z[l].re
  {
    seq(|z|, l requires 0 <= l < |z| => s * z[l].re)
  }

  /** Every value times s. */
  function Scaled(z: seq<Complex>, s: real): (r: seq<Complex>)
    ensures |r| == |z|
    ensures forall l :: 0 <= l < |z| ==> r[l] == Scale(s, z[l])
  {
    seq(|z|, l requires 0 <= l < |z| => Scale(s, z[l]))
  }

  /**
   * What ifft_rad2_s / _d compute for one vector of spectrum values: the
   * Hermitian extension to nfft = 2^m values, fft_1d_c with table T, and
   * s times the real parts.
   */
  function RealIfft(x: seq<Complex>, m: nat, T: seq<real>, s: real): (y: seq<real>)
    requires |T| == Pow2(m) + Pow2(m) / 4
    ensures |y| == Pow2(m)
  {
    RealParts(Transform(Hermitian(x, Pow2(m)), T, m), s)
  }

  /**
   * What ifft_rad2_c / _z compute for one vector of nfft = 2^m values:
   * fft_1d_c with table T, times s. (Only vectors of nfft values are ever
   * passed; other lengths give zeros.)
   */
  function ComplexIfft(x: seq<Complex>, m: nat, T: seq<real>, s: real): (y: seq<Complex>)
    requires |T| == Pow2(m) + Pow2(m) / 4
    ensures |y| == Pow2(m)
  {
    if |x| == Pow2(m) then Scaled(Transform(x, T, m), s) else seq(Pow2(m), _ => Zero)
  }

  /**
   * The real variant is the complex one on the Hermitian extension with the
   * imaginary parts dropped.
   */
  lemma RealIsComplexRe(x: seq<Complex>, m: nat, T: seq<real>, s: real)
    requires |T| == Pow2(m) + Pow2(m) / 4
    ensures forall l :: 0 <= l < Pow2(m) ==>
              RealIfft(x, m, T, s)[l] == ComplexIfft(Hermitian(x, Pow2(m)), m, T, s)[l].re
  {
    var y := Transform(Hermitian(x, Pow2(m)), T, m);
    forall l | 0 <= l < Pow2(m)
      ensures RealIfft(x, m, T, s)[l] == ComplexIfft(Hermitian(x, Pow2(m)), m, T, s)[l].re
    {
      assert RealIfft(x, m, T, s)[l] == s * y[l].re;
      assert Scaled(y, s)[l] == Scale(s, y[l]);
    }
  }

  /**
   * For two and four values the transform of a Hermitian extension is real,
   * so the real variant drops nothing.
   */
  lemma HermitianTransformReal(x: seq<Complex>, m: nat, T: seq<real>)
    requires 1 <= m <= 2 && |T| == Pow2(m) + Pow2(m) / 4 && |x| == Pow2(m) / 2 + 1
    requires x[0].im == 0.0 && x[Pow2(m) / 2].im == 0.0
    ensures forall l :: 0 <= l < Pow2(m) ==> Transform(Hermitian(x, Pow2(m)), T, m)[l].im == 0.0
  {
    var y := Hermitian(x, Pow2(m));
    if m == 1 {
      assert y == [x[0], x[1]];
    } else {
      assert Pow2(2) == 4;
      assert y == [x[0], x[1], x[2], Conj(x[1])];
    }
  }

  /** The table matters only from eight values on: the closed forms below that do not read it. */
  lemma TransformTableFree(y: seq<Complex>, T1: seq<real>, T2: seq<real>, m: nat)
    requires m < 3 && |y| == Pow2(m) && |T1| == |T2| == |y| + |y| / 4
    ensures Transform(y, T1, m) == Transform(y, T2, m)
  {
  }

  /** A vector of one spectrum value gives s times its real part. */
  lemma RealIfftUnit(x: Complex, T: seq<real>, s: real)
    requires |T| == 1
    ensures RealIfft([x], 0, T, s) == [s * x.re]
  {
    assert Hermitian([x], 1) == [x];
    assert Transform([x], T, 0) == [x];
    assert RealParts([x], s)[0] == s * x.re;
  }

  /** A vector of one value gives s times that value. */
  lemma ComplexIfftUnit(x: Complex, T: seq<real>, s: real)
    requires |T| == 1
    ensures ComplexIfft([x], 0, T, s) == [Scale(s, x)]
  {
  }

  /** With fewer than eight values the table is not read. */
  lemma RealTableFree(m: nat, T1: seq<real>, T2: seq<real>, s: real)
    requires m < 3 && |T1| == |T2| == Pow2(m) + Pow2(m) / 4
    ensures forall x :: RealIfft(x, m, T1, s) == RealIfft(x, m, T2, s)
  {
    forall x
      ensures RealIfft(x, m, T1, s) == RealIfft(x, m, T2, s)
    {
      TransformTableFree(Hermitian(x, Pow2(m)), T1, T2, m);
    }
  }

  /**
   * ifft_rad2_s / _d on every vector: the table is the one get_cstbl builds
   * from sin(pi/nfft) = sinv and the square root `root` it takes.
   */
  ghost function RealSpectra(nfft: nat, sc: bool, sinv: real, root: real): (f: seq<Complex> -> seq<real>)
    requires IsPow2(nfft)
    ensures forall x :: |f(x)| == nfft
  {
    var m := Log2(nfft);
    var T := CsTable(nfft, sinv, root, Sqrt1Half);
    x => RealIfft(x, m, T, ScaleOf(sc, nfft))
  }

  lemma RealSpectraAt(nfft: nat, sc: bool, sinv: real, root: real, x: seq<Complex>)
    requires IsPow2(nfft)
    ensures RealSpectra(nfft, sc, sinv, root)(x) ==
            RealIfft(x, Log2(nfft), CsTable(nfft, sinv, root, Sqrt1Half), ScaleOf(sc, nfft))
  {
  }

  /** With nfft == 1 each output is the scaled real part of its one input. */
  lemma RealSpectraOne(sc: bool, sinv: real, root: real, x: Complex)
    ensures RealSpectra(1, sc, sinv, root)([x]) == [ScaleOf(sc, 1) * x.re]
  {
    RealSpectraAt(1, sc, sinv, root, [x]);
    RealIfftUnit(x, CsTable(1, sinv, root, Sqrt1Half), ScaleOf(sc, 1));
  }

  /** Number of output values: nfft per vector. */
  function RealOutSize(R: nat, C: nat, S: nat, H: nat, dim: nat, nfft: nat): nat
  {
    if dim > 3 || AxisLength(R, C, S, H, dim) == 0 then 0
    else var V: nat := NumSlices(R, C, S, H, dim); MulNat(V, nfft); V * nfft
  }

  lemma MulNat(a: nat, b: nat)
    ensures a * b >= 0
  {
  }

  /** nfft outputs for each slice of the walk. */
  lemma RealOutSizeIs(R: nat, C: nat, S: nat, H: nat, colMajor: bool, dim: nat, nfft: nat)
    requires dim <= 3 && Size(R, C, S, H) > 0
    ensures var w := WalkOf(R, C, S, H, colMajor, dim);
            w.groups * w.blocks * AxisLength(R, C, S, H, dim) == Size(R, C, S, H) &&
            RealOutSize(R, C, S, H, dim, nfft) == w.groups * w.blocks * nfft
  {
    NonZeroFactors(R, C, S, H);
  }

  /** Slices of one value: MapSlices is f applied value by value. */
  lemma MapSlicesOfOne<T(!new), U>(x: seq<T>, w: Walk, f: seq<T> -> seq<U>)
    requires ValidWalk(w) && |x| == w.groups * w.blocks * 1
    requires forall s: seq<T> :: |s| == 1 ==> |f(s)| == 1
    ensures forall i :: 0 <= i < |x| ==> |f([x[i]])| == 1 && MapSlices(x, w, 1, 1, f)[i] == f([x[i]])[0]
  {
    forall i | 0 <= i < |x|
      ensures |f([x[i]])| == 1 && MapSlices(x, w, 1, 1, f)[i] == f([x[i]])[0]
    {
      var g, b, l := SlotsOf(w, 1, i);
      assert SliceOf(x, w, 1, g, b) == [x[i]];
    }
  }

  // ---------------------------------------------------------------------
  // The per-vector loops

  /**
   * Real inputs: copy the Lx values at X[xs], X[xs+K], ... into Y1, step
   * back two values, and fill Y1[Lx .. nfft) with the conjugates walking X
   * backwards. X's pointer ends where it started.
   */
  method HermitianFill(X: array<Complex>, Y1: array<Complex>, xs: nat, K: nat, Lx: nat, nfft: nat,
                       ghost x: seq<Complex>)
    returns (xe: nat)
    requires X != Y1 && K >= 1 && nfft >= 2 && nfft % 2 == 0 && Lx == nfft / 2 + 1 && Y1.Length == nfft
    requires xs + (Lx - 1) * K < X.Length && x == Gather(X[..], xs, K, Lx)
    modifies Y1
    ensures xe == xs && Y1[..] == Hermitian(x, nfft)
  {
    ghost var h := Hermitian(x, nfft);
    var xp := xs;
    var l := 0;
    while l < Lx
      invariant l <= Lx && xp == Offset(xs, K, l)
      invariant forall j {:trigger Y1[j]} :: 0 <= j < l ==> Y1[j] == h[j]
    {
      assert X[xp] == x[l] == h[l];
      Y1[l] := X[xp];
      OffsetNext(xs, K, l);
      l, xp := l + 1, xp + K;
    }
    OffsetBack(xs, K, 2);
    assert Offset(xs, K, Lx) == Offset(xs, K, Lx - 2) + K * 2;
    xp := xp - K * (1 + (1 - nfft % 2));
    while l < nfft
      invariant Lx <= l <= nfft && xp == Offset(xs, K, nfft - l)
      invariant forall j {:trigger Y1[j]} :: 0 <= j < l ==> Y1[j] == h[j]
    {
      assert X[xp] == x[nfft - l] && h[l] == Conj(x[nfft - l]);
      OffsetNext(xs, K, nfft - l - 1);
      Y1[l] := Conj(X[xp]);
      l, xp := l + 1, xp - K;
    }
    assert Y1[..] == h;
    xe := xp;
  }

  /** Y[ys + l*K] = s * re Y1[l] for every l; Y's pointer ends nfft samples on. */
  method RealScatter(Y: array<real>, Y1: array<Complex>, ys: nat, K: nat, nfft: nat, s: real)
    returns (ye: nat)
    requires K >= 1 && nfft >= 1 && Y1.Length == nfft && ys + (nfft - 1) * K < Y.Length
    modifies Y
    ensures ye == Offset(ys, K, nfft)
    ensures Gather(Y[..], ys, K, nfft) == RealParts(Y1[..], s)
    ensures forall i :: 0 <= i < Y.Length && !OnSlice(i, ys, K, nfft) ==> Y[i] == old(Y[i])
  {
    SliceInBounds(ys, K, nfft);
    ghost var r := RealParts(Y1[..], s);
    ye := ys;
    var l := 0;
    while l < nfft
      invariant l <= nfft && ye == Offset(ys, K, l)
      invariant forall j {:trigger Offset(ys, K, j)} :: 0 <= j < l ==> Y[Offset(ys, K, j)] == r[j]
      invariant forall i {:trigger Y[i]} :: 0 <= i < Y.Length && !OnSlice(i, ys, K, nfft) ==> Y[i] == old(Y[i])
    {
      OnSliceAt(ys, K, nfft, l);
      OffsetsDistinct(ys, K, l);
      Y[ye] := s * Y1[l].re;
      assert Y[ye] == r[l];
      OffsetNext(ys, K, l);
      l, ye := l + 1, ye + K;
    }
    GatherIs(Y[..], ys, K, r);
  }

  /**
   * One vector of ifft_rad2_s / _d: Hermitian fill of the scratch Y1,
   * fft_1d_c on it, scaled real parts out to Y[ys], Y[ys+K], ...
   */
  method RealVector(X: array<Complex>, Y: array<real>, Y1: array<Complex>, bt: array<nat>, T: array<real>,
                    xs: nat, ys: nat, K: nat, Lx: nat, nfft: nat, ghost m: nat, s: real, ghost x: seq<Complex>)
    returns (xe: nat, ye: nat)
    requires X != Y1 && T != Y && K >= 1 && nfft == Pow2(m) && m >= 1 && Lx == nfft / 2 + 1
    requires Y1.Length == nfft && bt.Length == nfft && T.Length == nfft + nfft / 4
    requires forall i :: 0 <= i < nfft ==> bt[i] == Rev(i, m)
    requires xs + (Lx - 1) * K < X.Length && ys + (nfft - 1) * K < Y.Length
    requires x == Gather(X[..], xs, K, Lx)
    modifies Y, Y1
    ensures xe == xs && ye == Offset(ys, K, nfft)
    ensures Gather(Y[..], ys, K, nfft) == RealIfft(x, m, T[..], s)
    ensures forall i :: 0 <= i < Y.Length && !OnSlice(i, ys, K, nfft) ==> Y[i] == old(Y[i])
  {
    assert nfft % 2 == 0;
    xe := HermitianFill(X, Y1, xs, K, Lx, nfft, x);
    ghost var y0 := Y1[..];
    assert Y1[0..0 + nfft] == y0;
    Fft1d(Y1, 0, nfft, m, bt, T);
    ghost var y1 := Y1[..];
    assert y1 == Y1[0..0 + nfft] == Transform(y0, T[..], m);
    ye := RealScatter(Y, Y1, ys, K, nfft, s);
    assert Gather(Y[..], ys, K, nfft) == RealParts(y1, s);
  }

  /** f is the real inverse transform of every vector, with table T and scale s. */
  ghost predicate RealComputes(f: seq<Complex> -> seq<real>, m: nat, T: seq<real>, s: real)
  {
    |T| == Pow2(m) + Pow2(m) / 4 &&
    forall x {:trigger RealIfft(x, m, T, s)} :: f(x) == RealIfft(x, m, T, s)
  }

  /**
   * ifft_rad2_s / ifft_rad2_d. Returns 1 for an invalid axis or when the
   * vectors along it do not hold nfft/2+1 values (Y untouched), 0
   * otherwise. nfft must be a power of two, as the source documents.
   */
  method IfftReal(X: array<Complex>, Y: array<real>, R: nat, C: nat, S: nat, H: nat, colMajor: bool, dim: nat,
                  nfft: nat, sc: bool, sinv: real, root: real)
    returns (status: int)
    requires nfft == 0 || IsPow2(nfft)
    requires Size(R, C, S, H) <= X.Length && RealOutSize(R, C, S, H, dim, nfft) <= Y.Length
    modifies Y
    ensures status == (if dim > 3 || AxisLength(R, C, S, H, dim) != nfft / 2 + 1 then 1 else 0)
    ensures status != 0 || nfft == 0 || Size(R, C, S, H) == 0 ==> Y[..] == old(Y[..])
    ensures status == 0 && nfft > 0 && Size(R, C, S, H) > 0 ==>
              var N, M := Size(R, C, S, H), RealOutSize(R, C, S, H, dim, nfft);
              Y[..M] == MapSlices(X[..N], WalkOf(R, C, S, H, colMajor, dim), nfft / 2 + 1, nfft,
                                  RealSpectra(nfft, sc, sinv, root)) &&
              Y[M..] == old(Y[M..])
  {
    if dim > 3 {
      return 1;
    }
    var N := R * C * S * H;
    var Lx := if dim == 0 then R else if dim == 1 then C else if dim == 2 then S else H;
    if Lx != nfft / 2 + 1 {
      return 1;
    }
    if nfft == 0 || N == 0 {
      return 0;
    }
    var s := ScaleOf(sc, nfft);
    if nfft == 1 {
      RealOne(X, Y, R, C, S, H, colMajor, dim, sc, sinv, root, s);
    } else {
      RealMany(X, Y, R, C, S, H, colMajor, dim, nfft, sc, sinv, root, s);
    }
    return 0;
  }

  /** nfft == 1 (c/ifft.rad2.c:231-234 as intended): one real output per spectrum value. */
  method RealOne(X: array<Complex>, Y: array<real>, R: nat, C: nat, S: nat, H: nat, colMajor: bool, dim: nat,
                 sc: bool, sinv: real, root: real, s: real)
    requires dim <= 3 && AxisLength(R, C, S, H, dim) == 1 && Size(R, C, S, H) > 0 && s == ScaleOf(sc, 1)
    requires Size(R, C, S, H) <= X.Length && RealOutSize(R, C, S, H, dim, 1) <= Y.Length
    modifies Y
    ensures var N := Size(R, C, S, H);
            RealOutSize(R, C, S, H, dim, 1) == N &&
            Y[..N] == MapSlices(X[..N], WalkOf(R, C, S, H, colMajor, dim), 1, 1, RealSpectra(1, sc, sinv, root)) &&
            Y[N..] == old(Y[N..])
  {
    var N := R * C * S * H;
    RealOneWalk(X, Y, N, WalkOf(R, C, S, H, colMajor, dim), sc, sinv, root, s);
  }

  /** The loop of the nfft == 1 case over the N values of a walk with slices of one value. */
  method RealOneWalk(X: array<Complex>, Y: array<real>, N: nat, ghost w: Walk, sc: bool, sinv: real, root: real,
                     s: real)
    requires ValidWalk(w) && w.groups * w.blocks * 1 == N && N <= X.Length && N <= Y.Length
    requires s == ScaleOf(sc, 1)
    modifies Y
    ensures Y[..N] == MapSlices(X[..N], w, 1, 1, RealSpectra(1, sc, sinv, root)) && Y[N..] == old(Y[N..])
  {
    RealUnit(X, Y, N, s);
    ghost var h := RealSpectra(1, sc, sinv, root);
    forall i | 0 <= i < N
      ensures Y[i] == h([X[i]])[0]
    {
      RealSpectraOne(sc, sinv, root, X[i]);
    }
    MapSlicesOfOne(X[..N], w, h);
    forall i | 0 <= i < N
      ensures Y[i] == MapSlices(X[..N], w, 1, 1, h)[i]
    {
      assert X[..N][i] == X[i];
      assert MapSlices(X[..N], w, 1, 1, h)[i] == h([X[i]])[0];
    }
    assert Y[..N] == MapSlices(X[..N], w, 1, 1, h);
    TailSame(Y[..], old(Y[..]), N);
  }

  /**
   * nfft >= 2: the tables, a scratch vector Y1 of nfft values, and the
   * three loop forms: a single vector, the contiguous loop, the general nest.
   */
  method RealMany(X: array<Complex>, Y: array<real>, R: nat, C: nat, S: nat, H: nat, colMajor: bool, dim: nat,
                  nfft: nat, sc: bool, sinv: real, root: real, s: real)
    requires IsPow2(nfft) && nfft >= 2 && s == ScaleOf(sc, nfft)
    requires dim <= 3 && AxisLength(R, C, S, H, dim) == nfft / 2 + 1 && Size(R, C, S, H) > 0
    requires Size(R, C, S, H) <= X.Length && RealOutSize(R, C, S, H, dim, nfft) <= Y.Length
    modifies Y
    ensures var N, M := Size(R, C, S, H), RealOutSize(R, C, S, H, dim, nfft);
            Y[..M] == MapSlices(X[..N], WalkOf(R, C, S, H, colMajor, dim), nfft / 2 + 1, nfft,
                                RealSpectra(nfft, sc, sinv, root)) &&
            Y[M..] == old(Y[M..])
  {
    var N := R * C * S * H;
    var Lx := if dim == 0 then R else if dim == 1 then C else if dim == 2 then S else H;
    ghost var m := Log2(nfft);
    Pow2Small(m);
    ghost var w := WalkOf(R, C, S, H, colMajor, dim);
    ghost var h := RealSpectra(nfft, sc, sinv, root);
    var bt, T, f := RealTables(nfft, m, sc, sinv, root, s);
    var Y1 := new Complex[nfft];
    RealLoops(X, Y, Y1, bt, T, R, C, S, H, colMajor, dim, N, Lx, nfft, m, s, w, f);
    ghost var M := w.groups * w.blocks * nfft;
    RealOutSizeIs(R, C, S, H, colMajor, dim, nfft);
    MappedAll(Y[..], X[..], w, Lx, nfft, f);
    assert Y[..][..M] == Y[..M] && X[..][..N] == X[..N];
    TailSame(Y[..], old(Y[..]), M);
    MapSlicesExt(X[..N], w, Lx, nfft, f, h);
  }

  /** The tables of get_bittbl and get_cstbl, and the transform they give every vector. */
  method RealTables(nfft: nat, ghost m: nat, sc: bool, sinv: real, root: real, s: real)
    returns (bt: array<nat>, T: array<real>, ghost f: seq<Complex> -> seq<real>)
    requires nfft == Pow2(m) && IsPow2(nfft) && m >= 1 && s == ScaleOf(sc, nfft)
    ensures fresh(bt) && fresh(T) && bt.Length == nfft && T.Length == nfft + nfft / 4
    ensures forall i :: 0 <= i < nfft ==> bt[i] == Rev(i, m)
    ensures RealComputes(f, m, T[..], s)
    ensures forall x :: f(x) == RealSpectra(nfft, sc, sinv, root)(x)
  {
    bt := new nat[nfft];
    T := new real[nfft + nfft / 4];
    GetBitTbl(bt, nfft, m);
    GetCsTable(T, nfft, m, sinv, root, Sqrt1Half);
    ghost var table := T[..];
    f := x => RealIfft(x, m, table, s);
    assert RealComputes(f, m, T[..], s);
    RealTableIs(nfft, m, sc, sinv, root, s, table, f);
  }

  /** Whichever table get_cstbl left, the transforms are those of CsTable. */
  lemma RealTableIs(nfft: nat, m: nat, sc: bool, sinv: real, root: real, s: real, table: seq<real>,
                    f: seq<Complex> -> seq<real>)
    requires nfft == Pow2(m) && IsPow2(nfft) && m >= 1 && s == ScaleOf(sc, nfft) && |table| == nfft + nfft / 4
    requires m >= 3 ==> table == CsTable(nfft, sinv, root, Sqrt1Half)
    requires RealComputes(f, m, table, s)
    ensures forall x :: f(x) == RealSpectra(nfft, sc, sinv, root)(x)
  {
    Log2Of(m);
    if m < 3 {
      RealTableFree(m, table, CsTable(nfft, sinv, root, Sqrt1Half), s);
    }
    forall x
      ensures f(x) == RealSpectra(nfft, sc, sinv, root)(x)
    {
      assert f(x) == RealIfft(x, m, table, s);
      RealSpectraAt(nfft, sc, sinv, root, x);
    }
  }

  /** The three loop forms: a single vector, the contiguous loop, the general nest. */
  method RealLoops(X: array<Complex>, Y: array<real>, Y1: array<Complex>, bt: array<nat>, T: array<real>,
                   R: nat, C: nat, S: nat, H: nat, colMajor: bool, dim: nat, N: nat, Lx: nat, nfft: nat,
                   ghost m: nat, s: real, ghost w: Walk, ghost f: seq<Complex> -> seq<real>)
    requires X != Y1 && T != Y && nfft == Pow2(m) && m >= 1 && Lx == nfft / 2 + 1
    requires Y1.Length == nfft && bt.Length == nfft && T.Length == nfft + nfft / 4
    requires forall i :: 0 <= i < nfft ==> bt[i] == Rev(i, m)
    requires dim <= 3 && N == Size(R, C, S, H) && N > 0 && Lx == AxisLength(R, C, S, H, dim)
    requires w == WalkOf(R, C, S, H, colMajor, dim) && Fits(w, Lx, nfft, X.Length, Y.Length)
    requires RealComputes(f, m, T[..], s)
    modifies Y, Y1
    ensures Mapped(Y[..], X[..], w, Lx, nfft, f, w.groups, 0)
    ensures forall i :: 0 <= i < Y.Length && w.groups * w.blocks * nfft <= i ==> Y[i] == old(Y[i])
  {
    Shape(R, C, S, H, colMajor, dim);
    if Lx == N {
      SingleSlice(R, C, S, H, colMajor, dim);
      var xe, ye := RealVisit(X, Y, Y1, bt, T, w, 1, Lx, nfft, m, s, 0, 0, 0, 0, f);
    } else {
      var K := if colMajor then (if dim == 0 then 1 else if dim == 1 then R else if dim == 2 then R * C else R * C * S)
               else (if dim == 0 then C * S * H else if dim == 1 then S * H else if dim == 2 then H else 1);
      var B := if colMajor && dim == 0 then C * S * H else K;
      var V := N / Lx;
      var G := V / B;
      FastPathIffUnitStride(R, C, S, H, colMajor, dim);
      if K == 1 && (G == 1 || B == 1) {
        RealContiguous(X, Y, Y1, bt, T, V, Lx, nfft, m, s, w, f);
      } else {
        RealStrided(X, Y, Y1, bt, T, G, K, Lx, nfft, m, s, w, f);
      }
    }
  }

  /** nfft == 1: every output is s times the real part of its input value. */
  method RealUnit(X: array<Complex>, Y: array<real>, N: nat, s: real)
    requires N <= X.Length && N <= Y.Length
    modifies Y
    ensures forall n :: 0 <= n < N ==> Y[n] == s * X[n].re
    ensures forall n :: N <= n < Y.Length ==> Y[n] == old(Y[n])
  {
    var n := 0;
    while n < N
      invariant n <= N
      invariant forall j :: 0 <= j < n ==> Y[j] == s * X[j].re
      invariant forall j :: n <= j < Y.Length ==> Y[j] == old(Y[j])
    {
      Y[n] := s * X[n].re;
      n := n + 1;
    }
  }

  /** The float buffer a complex array is stored as: re, im, re, im, ... */
  function Interleaved(x: seq<Complex>): (r: seq<real>)
    ensures |r| == 2 * |x|
    ensures forall i :: 0 <= i < |x| ==> r[2 * i] == x[i].re && r[2 * i + 1] == x[i].im
  {
    if x == [] then [] else [x[0].re, x[0].im] + Interleaved(x[1..])
  }

  /**
   * The nfft == 1 loop of ifft_rad2_s / _d as written (c/ifft.rad2.c:231-234):
   * it steps one float at a time through X, so output n is s times float n of
   * the interleaved input, not s times the real part of value n.
   */
  function RealUnitAsWritten(x: seq<Complex>, N: nat, s: real): (y: seq<real>)
    requires N <= |x|
    ensures |y| == N
    ensures forall n :: 0 <= n < N ==> y[n] == s * (if n % 2 == 0 then x[n / 2].re else x[n / 2].im)
  {
    var f := Interleaved(x);
    seq(N, n requires 0 <= n < N => s * f[n])
  }

  /**
   * Two real-valued spectra of one value each, 1 and 2: the loop as written
   * outputs s and 0 (the imaginary part of the first), where the transform of
   * each one-value vector gives s and 2s.
   */
  lemma RealUnitAsWrittenCounterexample(sc: bool, sinv: real, root: real)
    ensures var x, s := [Complex(1.0, 0.0), Complex(2.0, 0.0)], ScaleOf(sc, 1);
            s != 0.0 &&
            RealUnitAsWritten(x, 2, s) == [s, 0.0] &&
            RealSpectra(1, sc, sinv, root)([x[0]]) == [s] &&
            RealSpectra(1, sc, sinv, root)([x[1]]) == [2.0 * s]
  {
    var x, s := [Complex(1.0, 0.0), Complex(2.0, 0.0)], ScaleOf(sc, 1);
    ScaleTimesLength(sc, 1);
    RealSpectraOne(sc, sinv, root, x[0]);
    RealSpectraOne(sc, sinv, root, x[1]);
    var y := RealUnitAsWritten(x, 2, s);
    assert y[0] == s * 1.0 && y[1] == s * 0.0;
  }

  /** The contiguous loop: V vectors of Lx values in, V vectors of nfft values out. */
  method RealContiguous(X: array<Complex>, Y: array<real>, Y1: array<Complex>, bt: array<nat>, T: array<real>,
                        V: nat, Lx: nat, nfft: nat, ghost m: nat, s: real, ghost w: Walk,
                        ghost f: seq<Complex> -> seq<real>)
    requires X != Y1 && T != Y && nfft == Pow2(m) && m >= 1 && Lx == nfft / 2 + 1
    requires Y1.Length == nfft && bt.Length == nfft && T.Length == nfft + nfft / 4
    requires forall i :: 0 <= i < nfft ==> bt[i] == Rev(i, m)
    requires w == Walk(V, 1, 1) && Fits(w, Lx, nfft, X.Length, Y.Length)
    requires RealComputes(f, m, T[..], s)
    modifies Y, Y1
    ensures Mapped(Y[..], X[..], w, Lx, nfft, f, V, 0)
    ensures forall i :: 0 <= i < Y.Length && w.groups * w.blocks * nfft <= i ==> Y[i] == old(Y[i])
  {
    var xp, yp := 0, 0;
    var v := 0;
    while v < V
      invariant v <= V && xp == v * Lx && yp == v * nfft
      invariant Mapped(Y[..], X[..], w, Lx, nfft, f, v, 0)
      invariant forall i :: 0 <= i < Y.Length && w.groups * w.blocks * nfft <= i ==> Y[i] == old(Y[i])
    {
      NextContiguous(w, Lx, v);
      NextContiguous(w, nfft, v);
      var xe, ye := RealVisit(X, Y, Y1, bt, T, w, 1, Lx, nfft, m, s, v, 0, xp, yp, f);
      MappedGroup(Y[..], X[..], w, Lx, nfft, f, v);
      xp, yp := xe + Lx, ye;
      v := v + 1;
    }
  }

  /** The general nest: G groups of K vectors whose values are K apart. */
  method RealStrided(X: array<Complex>, Y: array<real>, Y1: array<Complex>, bt: array<nat>, T: array<real>,
                     G: nat, K: nat, Lx: nat, nfft: nat, ghost m: nat, s: real, ghost w: Walk,
                     ghost f: seq<Complex> -> seq<real>)
    requires X != Y1 && T != Y && K >= 1 && nfft == Pow2(m) && m >= 1 && Lx == nfft / 2 + 1
    requires Y1.Length == nfft && bt.Length == nfft && T.Length == nfft + nfft / 4
    requires forall i :: 0 <= i < nfft ==> bt[i] == Rev(i, m)
    requires w == Walk(G, K, K) && Fits(w, Lx, nfft, X.Length, Y.Length)
    requires RealComputes(f, m, T[..], s)
    modifies Y, Y1
    ensures Mapped(Y[..], X[..], w, Lx, nfft, f, G, 0)
    ensures forall i :: 0 <= i < Y.Length && w.groups * w.blocks * nfft <= i ==> Y[i] == old(Y[i])
  {
    var xp, yp := 0, 0;
    var g := 0;
    while g < G
      invariant g <= G && xp == Index(w, Lx, g, 0, 0) && yp == Index(w, nfft, g, 0, 0)
      invariant Mapped(Y[..], X[..], w, Lx, nfft, f, g, 0)
      invariant forall i :: 0 <= i < Y.Length && w.groups * w.blocks * nfft <= i ==> Y[i] == old(Y[i])
    {
      xp, yp := RealGroup(X, Y, Y1, bt, T, K, Lx, nfft, m, s, g, xp, yp, w, f);
      g := g + 1;
    }
  }

  /** One group of the general nest: its K vectors, each one value further on. */
  method RealGroup(X: array<Complex>, Y: array<real>, Y1: array<Complex>, bt: array<nat>, T: array<real>,
                   K: nat, Lx: nat, nfft: nat, ghost m: nat, s: real, g: nat, xs: nat, ys: nat, ghost w: Walk,
                   ghost f: seq<Complex> -> seq<real>)
    returns (xe: nat, ye: nat)
    requires X != Y1 && T != Y && nfft == Pow2(m) && m >= 1 && Lx == nfft / 2 + 1
    requires Y1.Length == nfft && bt.Length == nfft && T.Length == nfft + nfft / 4
    requires forall i :: 0 <= i < nfft ==> bt[i] == Rev(i, m)
    requires w.blocks == K && w.stride == K && g < w.groups && Fits(w, Lx, nfft, X.Length, Y.Length)
    requires RealComputes(f, m, T[..], s)
    requires xs == Index(w, Lx, g, 0, 0) && ys == Index(w, nfft, g, 0, 0)
    requires Mapped(Y[..], X[..], w, Lx, nfft, f, g, 0)
    modifies Y, Y1
    ensures xe == Index(w, Lx, g + 1, 0, 0) && ye == Index(w, nfft, g + 1, 0, 0)
    ensures Mapped(Y[..], X[..], w, Lx, nfft, f, g + 1, 0)
    ensures forall i :: 0 <= i < Y.Length && w.groups * w.blocks * nfft <= i ==> Y[i] == old(Y[i])
  {
    var xp, yp := xs, ys;
    var b := 0;
    while b < K
      invariant b <= K && xp == Index(w, Lx, g, b, 0) && yp == Index(w, nfft, g, b, 0)
      invariant Mapped(Y[..], X[..], w, Lx, nfft, f, g, b)
      invariant forall i :: 0 <= i < Y.Length && w.groups * w.blocks * nfft <= i ==> Y[i] == old(Y[i])
    {
      var xe, ye := RealVisit(X, Y, Y1, bt, T, w, K, Lx, nfft, m, s, g, b, xp, yp, f);
      NextInGroup(w, nfft, g, b);
      xp, yp := xe + 1, ye - (K * nfft - 1);
      b := b + 1;
    }
    MappedGroup(Y[..], X[..], w, Lx, nfft, f, g);
    NextGroup(w, Lx, g);
    NextGroup(w, nfft, g);
    xe, ye := xp + K * (Lx - 1), yp + K * (nfft - 1);
  }

  /** Slice (g, b) of walk w: one more vector transformed. */
  method RealVisit(X: array<Complex>, Y: array<real>, Y1: array<Complex>, bt: array<nat>, T: array<real>,
                   ghost w: Walk, K: nat, Lx: nat, nfft: nat, ghost m: nat, s: real, g: nat, b: nat,
                   xs: nat, ys: nat, ghost f: seq<Complex> -> seq<real>)
    returns (xe: nat, ye: nat)
    requires X != Y1 && T != Y && w.stride == K && nfft == Pow2(m) && m >= 1 && Lx == nfft / 2 + 1
    requires Y1.Length == nfft && bt.Length == nfft && T.Length == nfft + nfft / 4
    requires forall i :: 0 <= i < nfft ==> bt[i] == Rev(i, m)
    requires Fits(w, Lx, nfft, X.Length, Y.Length) && g < w.groups && b < w.blocks
    requires RealComputes(f, m, T[..], s)
    requires xs == Index(w, Lx, g, b, 0) && ys == Index(w, nfft, g, b, 0)
    requires Mapped(Y[..], X[..], w, Lx, nfft, f, g, b)
    modifies Y, Y1
    ensures xe == xs && ye == Offset(ys, K, nfft)
    ensures Mapped(Y[..], X[..], w, Lx, nfft, f, g, b + 1)
    ensures forall i :: 0 <= i < Y.Length && w.groups * w.blocks * nfft <= i ==> Y[i] == old(Y[i])
  {
    SliceFits(w, Lx, g, b);
    SliceFits(w, nfft, g, b);
    ghost var before := Y[..];
    ghost var x := Gather(X[..], xs, K, Lx);
    xe, ye := RealVector(X, Y, Y1, bt, T, xs, ys, K, Lx, nfft, m, s, x);
    assert X[..] == old(X[..]);
    assert f(x) == RealIfft(x, m, T[..], s);
    assert SliceMapped(Y[..], X[..], w, Lx, nfft, f, g, b);
    MappedNext(before, Y[..], X[..], w, Lx, nfft, f, g, b);
    forall i | 0 <= i < Y.Length && w.groups * w.blocks * nfft <= i
      ensures Y[i] == old(Y[i])
    {
      if OnSlice(i, ys, K, nfft) {
        OnSliceBelow(w, nfft, g, b, i);
      }
    }
  }

  // ---------------------------------------------------------------------
  // ifft_rad2_c / ifft_rad2_z

  /**
   * ifft_rad2_c / _z on every vector: the table is the one get_cstbl builds
   * from sin(pi/nfft) = sinv and the square root `root` it takes.
   */
  ghost function ComplexSpectra(nfft: nat, sc: bool, sinv: real, root: real): (f: seq<Complex> -> seq<Complex>)
    requires IsPow2(nfft)
    ensures forall x :: |f(x)| == nfft
  {
    var m := Log2(nfft);
    var T := CsTable(nfft, sinv, root, Sqrt1Half);
    x => ComplexIfft(x, m, T, ScaleOf(sc, nfft))
  }

  lemma ComplexSpectraAt(nfft: nat, sc: bool, sinv: real, root: real, x: seq<Complex>)
    requires IsPow2(nfft)
    ensures ComplexSpectra(nfft, sc, sinv, root)(x) ==
            ComplexIfft(x, Log2(nfft), CsTable(nfft, sinv, root, Sqrt1Half), ScaleOf(sc, nfft))
  {
  }

  /** With nfft == 1 each output is its one input, scaled. */
  lemma ComplexSpectraOne(sc: bool, sinv: real, root: real, x: Complex)
    ensures ComplexSpectra(1, sc, sinv, root)([x]) == [Scale(ScaleOf(sc, 1), x)]
  {
    ComplexSpectraAt(1, sc, sinv, root, [x]);
    ComplexIfftUnit(x, CsTable(1, sinv, root, Sqrt1Half), ScaleOf(sc, 1));
  }

  /** f is the complex inverse transform of every vector, with table T and scale s. */
  ghost predicate ComplexComputes(f: seq<Complex> -> seq<Complex>, m: nat, T: seq<real>, s: real)
  {
    |T| == Pow2(m) + Pow2(m) / 4 &&
    forall x {:trigger ComplexIfft(x, m, T, s)} :: f(x) == ComplexIfft(x, m, T, s)
  }

  /** Whichever table get_cstbl left, the transforms are those of CsTable. */
  lemma ComplexTableIs(nfft: nat, m: nat, sc: bool, sinv: real, root: real, s: real, table: seq<real>,
                       f: seq<Complex> -> seq<Complex>)
    requires nfft == Pow2(m) && IsPow2(nfft) && m >= 1 && s == ScaleOf(sc, nfft) && |table| == nfft + nfft / 4
    requires m >= 3 ==> table == CsTable(nfft, sinv, root, Sqrt1Half)
    requires ComplexComputes(f, m, table, s)
    ensures forall x :: f(x) == ComplexSpectra(nfft, sc, sinv, root)(x)
  {
    Log2Of(m);
    forall x
      ensures f(x) == ComplexSpectra(nfft, sc, sinv, root)(x)
    {
      assert f(x) == ComplexIfft(x, m, table, s);
      ComplexSpectraAt(nfft, sc, sinv, root, x);
      if m < 3 && |x| == nfft {
        TransformTableFree(x, table, CsTable(nfft, sinv, root, Sqrt1Half), m);
      }
    }
  }

  /**
   * ifft_rad2_c / ifft_rad2_z. Returns 1 for an invalid axis or when the
   * vectors along it do not hold nfft values (Y untouched), 0 otherwise.
   * nfft must be a power of two, as the source documents; X and Y are
   * distinct buffers.
   */
  method IfftComplex(X: array<Complex>, Y: array<Complex>, R: nat, C: nat, S: nat, H: nat, colMajor: bool,
                     dim: nat, nfft: nat, sc: bool, sinv: real, root: real)
    returns (status: int)
    requires X != Y && (nfft == 0 || IsPow2(nfft))
    requires Size(R, C, S, H) <= X.Length && Size(R, C, S, H) <= Y.Length
    modifies Y
    ensures status == (if dim > 3 || AxisLength(R, C, S, H, dim) != nfft then 1 else 0)
    ensures status != 0 || nfft == 0 || Size(R, C, S, H) == 0 ==> Y[..] == old(Y[..])
    ensures status == 0 && nfft > 0 && Size(R, C, S, H) > 0 ==>
              var N := Size(R, C, S, H);
              Y[..N] == MapSlices(X[..N], WalkOf(R, C, S, H, colMajor, dim), nfft, nfft,
                                  ComplexSpectra(nfft, sc, sinv, root)) &&
              Y[N..] == old(Y[N..])
  {
    if dim > 3 {
      return 1;
    }
    var N := R * C * S * H;
    var Lx := if dim == 0 then R else if dim == 1 then C else if dim == 2 then S else H;
    if Lx != nfft {
      return 1;
    }
    if nfft == 0 || N == 0 {
      return 0;
    }
    var s := ScaleOf(sc, nfft);
    if nfft == 1 {
      ComplexOne(X, Y, N, WalkOf(R, C, S, H, colMajor, dim), sc, sinv, root, s);
    } else {
      ComplexMany(X, Y, R, C, S, H, colMajor, dim, nfft, sc, sinv, root, s);
    }
    return 0;
  }

  /** nfft == 1: every output is its input times s, over the N values of the walk. */
  method ComplexOne(X: array<Complex>, Y: array<Complex>, N: nat, ghost w: Walk, sc: bool, sinv: real,
                    root: real, s: real)
    requires X != Y && ValidWalk(w) && w.groups * w.blocks * 1 == N && N <= X.Length && N <= Y.Length
    requires s == ScaleOf(sc, 1)
    modifies Y
    ensures Y[..N] == MapSlices(X[..N], w, 1, 1, ComplexSpectra(1, sc, sinv, root)) && Y[N..] == old(Y[N..])
  {
    var n := 0;
    while n < N
      invariant n <= N
      invariant forall j :: 0 <= j < n ==> Y[j] == Scale(s, X[j])
      invariant forall j :: n <= j < Y.Length ==> Y[j] == old(Y[j])
    {
      Y[n] := Scale(s, X[n]);
      n := n + 1;
    }
    ghost var h := ComplexSpectra(1, sc, sinv, root);
    forall i | 0 <= i < N
      ensures Y[i] == h([X[i]])[0]
    {
      ComplexSpectraOne(sc, sinv, root, X[i]);
    }
    MapSlicesOfOne(X[..N], w, h);
    forall i | 0 <= i < N
      ensures Y[i] == MapSlices(X[..N], w, 1, 1, h)[i]
    {
      assert X[..N][i] == X[i];
      assert MapSlices(X[..N], w, 1, 1, h)[i] == h([X[i]])[0];
    }
    assert Y[..N] == MapSlices(X[..N], w, 1, 1, h);
    TailSame(Y[..], old(Y[..]), N);
  }

  /** The tables of get_bittbl and get_cstbl, and the transform they give every vector. */
  method ComplexTables(nfft: nat, ghost m: nat, sc: bool, sinv: real, root: real, s: real)
    returns (bt: array<nat>, T: array<real>, ghost f: seq<Complex> -> seq<Complex>)
    requires nfft == Pow2(m) && IsPow2(nfft) && m >= 1 && s == ScaleOf(sc, nfft)
    ensures fresh(bt) && fresh(T) && bt.Length == nfft && T.Length == nfft + nfft / 4
    ensures forall i :: 0 <= i < nfft ==> bt[i] == Rev(i, m)
    ensures ComplexComputes(f, m, T[..], s)
    ensures forall x :: f(x) == ComplexSpectra(nfft, sc, sinv, root)(x)
  {
    bt := new nat[nfft];
    T := new real[nfft + nfft / 4];
    GetBitTbl(bt, nfft, m);
    GetCsTable(T, nfft, m, sinv, root, Sqrt1Half);
    ghost var table := T[..];
    f := x => ComplexIfft(x, m, table, s);
    assert ComplexComputes(f, m, T[..], s);
    ComplexTableIs(nfft, m, sc, sinv, root, s, table, f);
  }

  /** nfft >= 2: the tables, then the three loop forms. */
  method ComplexMany(X: array<Complex>, Y: array<Complex>, R: nat, C: nat, S: nat, H: nat, colMajor: bool,
                     dim: nat, nfft: nat, sc: bool, sinv: real, root: real, s: real)
    requires X != Y && IsPow2(nfft) && nfft >= 2 && s == ScaleOf(sc, nfft)
    requires dim <= 3 && AxisLength(R, C, S, H, dim) == nfft && Size(R, C, S, H) > 0
    requires Size(R, C, S, H) <= X.Length && Size(R, C, S, H) <= Y.Length
    modifies Y
    ensures var N := Size(R, C, S, H);
            Y[..N] == MapSlices(X[..N], WalkOf(R, C, S, H, colMajor, dim), nfft, nfft,
                                ComplexSpectra(nfft, sc, sinv, root)) &&
            Y[N..] == old(Y[N..])
  {
    var N := R * C * S * H;
    ghost var m := Log2(nfft);
    Pow2Small(m);
    ghost var w := WalkOf(R, C, S, H, colMajor, dim);
    ghost var h := ComplexSpectra(nfft, sc, sinv, root);
    var bt, T, f := ComplexTables(nfft, m, sc, sinv, root, s);
    ComplexLoops(X, Y, bt, T, R, C, S, H, colMajor, dim, N, nfft, m, s, w, f);
    MappedAll(Y[..], X[..], w, nfft, nfft, f);
    assert Y[..][..N] == Y[..N] && X[..][..N] == X[..N];
    TailSame(Y[..], old(Y[..]), N);
    MapSlicesExt(X[..N], w, nfft, nfft, f, h);
  }

  /** The three loop forms: a single vector, the contiguous loop, the general nest. */
  method ComplexLoops(X: array<Complex>, Y: array<Complex>, bt: array<nat>, T: array<real>,
                      R: nat, C: nat, S: nat, H: nat, colMajor: bool, dim: nat, N: nat, nfft: nat,
                      ghost m: nat, s: real, ghost w: Walk, ghost f: seq<Complex> -> seq<Complex>)
    requires X != Y && nfft == Pow2(m) && m >= 1
    requires bt.Length == nfft && T.Length == nfft + nfft / 4
    requires forall i :: 0 <= i < nfft ==> bt[i] == Rev(i, m)
    requires dim <= 3 && N == Size(R, C, S, H) && N > 0 && nfft == AxisLength(R, C, S, H, dim)
    requires w == WalkOf(R, C, S, H, colMajor, dim) && Fits(w, nfft, nfft, X.Length, Y.Length)
    requires ComplexComputes(f, m, T[..], s)
    modifies Y
    ensures Mapped(Y[..], X[..], w, nfft, nfft, f, w.groups, 0)
    ensures forall i :: 0 <= i < Y.Length && w.groups * w.blocks * nfft <= i ==> Y[i] == old(Y[i])
  {
    Shape(R, C, S, H, colMajor, dim);
    if nfft == N {
      SingleSlice(R, C, S, H, colMajor, dim);
      var xe, ye := ComplexVisitInPlace(X, Y, bt, T, w, nfft, m, s, 0, 0, 0, 0, f);
    } else {
      var K := if colMajor then (if dim == 0 then 1 else if dim == 1 then R else if dim == 2 then R * C else R * C * S)
               else (if dim == 0 then C * S * H else if dim == 1 then S * H else if dim == 2 then H else 1);
      var B := if colMajor && dim == 0 then C * S * H else K;
      var V := N / nfft;
      var G := V / B;
      FastPathIffUnitStride(R, C, S, H, colMajor, dim);
      if K == 1 && (G == 1 || B == 1) {
        ComplexContiguous(X, Y, bt, T, V, nfft, m, s, w, f);
      } else {
        var Y1 := new Complex[nfft];
        ComplexStrided(X, Y, Y1, bt, T, G, K, nfft, m, s, w, f);
      }
    }
  }

  /** The contiguous loop: V vectors of nfft values, each copied to Y and transformed there. */
  method ComplexContiguous(X: array<Complex>, Y: array<Complex>, bt: array<nat>, T: array<real>,
                           V: nat, nfft: nat, ghost m: nat, s: real, ghost w: Walk,
                           ghost f: seq<Complex> -> seq<Complex>)
    requires X != Y && nfft == Pow2(m) && m >= 1
    requires bt.Length == nfft && T.Length == nfft + nfft / 4
    requires forall i :: 0 <= i < nfft ==> bt[i] == Rev(i, m)
    requires w == Walk(V, 1, 1) && Fits(w, nfft, nfft, X.Length, Y.Length)
    requires ComplexComputes(f, m, T[..], s)
    modifies Y
    ensures Mapped(Y[..], X[..], w, nfft, nfft, f, V, 0)
    ensures forall i :: 0 <= i < Y.Length && w.groups * w.blocks * nfft <= i ==> Y[i] == old(Y[i])
  {
    var xp, yp := 0, 0;
    var v := 0;
    while v < V
      invariant v <= V && xp == v * nfft && yp == v * nfft
      invariant Mapped(Y[..], X[..], w, nfft, nfft, f, v, 0)
      invariant forall i :: 0 <= i < Y.Length && w.groups * w.blocks * nfft <= i ==> Y[i] == old(Y[i])
    {
      NextContiguous(w, nfft, v);
      xp, yp := ComplexVisitInPlace(X, Y, bt, T, w, nfft, m, s, v, 0, xp, yp, f);
      MappedGroup(Y[..], X[..], w, nfft, nfft, f, v);
      v := v + 1;
    }
  }

  /** The general nest: G groups of K vectors whose values are K apart, through the scratch Y1. */
  method ComplexStrided(X: array<Complex>, Y: array<Complex>, Y1: array<Complex>, bt: array<nat>, T: array<real>,
                        G: nat, K: nat, nfft: nat, ghost m: nat, s: real, ghost w: Walk,
                        ghost f: seq<Complex> -> seq<Complex>)
    requires X != Y && X != Y1 && Y != Y1 && K >= 1 && nfft == Pow2(m) && m >= 1
    requires Y1.Length == nfft && bt.Length == nfft && T.Length == nfft + nfft / 4
    requires forall i :: 0 <= i < nfft ==> bt[i] == Rev(i, m)
    requires w == Walk(G, K, K) && Fits(w, nfft, nfft, X.Length, Y.Length)
    requires ComplexComputes(f, m, T[..], s)
    modifies Y, Y1
    ensures Mapped(Y[..], X[..], w, nfft, nfft, f, G, 0)
    ensures forall i :: 0 <= i < Y.Length && w.groups * w.blocks * nfft <= i ==> Y[i] == old(Y[i])
  {
    var xp, yp := 0, 0;
    var g := 0;
    while g < G
      invariant g <= G && xp == Index(w, nfft, g, 0, 0) && yp == Index(w, nfft, g, 0, 0)
      invariant Mapped(Y[..], X[..], w, nfft, nfft, f, g, 0)
      invariant forall i :: 0 <= i < Y.Length && w.groups * w.blocks * nfft <= i ==> Y[i] == old(Y[i])
    {
      xp, yp := ComplexGroup(X, Y, Y1, bt, T, K, nfft, m, s, g, xp, yp, w, f);
      g := g + 1;
    }
  }

  /** One group of the general nest: its K vectors, each one value further on. */
  method ComplexGroup(X: array<Complex>, Y: array<Complex>, Y1: array<Complex>, bt: array<nat>, T: array<real>,
                      K: nat, nfft: nat, ghost m: nat, s: real, g: nat, xs: nat, ys: nat, ghost w: Walk,
                      ghost f: seq<Complex> -> seq<Complex>)
    returns (xe: nat, ye: nat)
    requires X != Y && X != Y1 && Y != Y1 && nfft == Pow2(m) && m >= 1
    requires Y1.Length == nfft && bt.Length == nfft && T.Length == nfft + nfft / 4
    requires forall i :: 0 <= i < nfft ==> bt[i] == Rev(i, m)
    requires w.blocks == K && w.stride == K && g < w.groups && Fits(w, nfft, nfft, X.Length, Y.Length)
    requires ComplexComputes(f, m, T[..], s)
    requires xs == Index(w, nfft, g, 0, 0) && ys == Index(w, nfft, g, 0, 0)
    requires Mapped(Y[..], X[..], w, nfft, nfft, f, g, 0)
    modifies Y, Y1
    ensures xe == Index(w, nfft, g + 1, 0, 0) && ye == Index(w, nfft, g + 1, 0, 0)
    ensures Mapped(Y[..], X[..], w, nfft, nfft, f, g + 1, 0)
    ensures forall i :: 0 <= i < Y.Length && w.groups * w.blocks * nfft <= i ==> Y[i] == old(Y[i])
  {
    var xp, yp := xs, ys;
    var b := 0;
    while b < K
      invariant b <= K && xp == Index(w, nfft, g, b, 0) && yp == Index(w, nfft, g, b, 0)
      invariant Mapped(Y[..], X[..], w, nfft, nfft, f, g, b)
      invariant forall i :: 0 <= i < Y.Length && w.groups * w.blocks * nfft <= i ==> Y[i] == old(Y[i])
    {
      var xe, ye := ComplexVisit(X, Y, Y1, bt, T, w, K, nfft, m, s, g, b, xp, yp, f);
      NextInGroup(w, nfft, g, b);
      xp, yp := xe - (K * nfft - 1), ye - (K * nfft - 1);
      b := b + 1;
    }
    MappedGroup(Y[..], X[..], w, nfft, nfft, f, g);
    NextGroup(w, nfft, g);
    xe, ye := xp + K * (nfft - 1), yp + K * (nfft - 1);
  }

  /** Slice (g, b) of a walk with unit stride: copied to Y, transformed and scaled in place. */
  method ComplexVisitInPlace(X: array<Complex>, Y: array<Complex>, bt: array<nat>, T: array<real>,
                             ghost w: Walk, nfft: nat, ghost m: nat, s: real, g: nat, b: nat,
                             xs: nat, ys: nat, ghost f: seq<Complex> -> seq<Complex>)
    returns (xe: nat, ye: nat)
    requires X != Y && w.stride == 1 && nfft == Pow2(m) && m >= 1
    requires bt.Length == nfft && T.Length == nfft + nfft / 4
    requires forall i :: 0 <= i < nfft ==> bt[i] == Rev(i, m)
    requires Fits(w, nfft, nfft, X.Length, Y.Length) && g < w.groups && b < w.blocks
    requires ComplexComputes(f, m, T[..], s)
    requires xs == Index(w, nfft, g, b, 0) && ys == Index(w, nfft, g, b, 0)
    requires Mapped(Y[..], X[..], w, nfft, nfft, f, g, b)
    modifies Y
    ensures xe == xs + nfft && ye == ys + nfft
    ensures Mapped(Y[..], X[..], w, nfft, nfft, f, g, b + 1)
    ensures forall i :: 0 <= i < Y.Length && w.groups * w.blocks * nfft <= i ==> Y[i] == old(Y[i])
  {
    SliceFits(w, nfft, g, b);
    ghost var before := Y[..];
    ghost var x := X[xs..xs + nfft];
    xe, ye := ComplexInPlace(X, Y, bt, T, xs, ys, nfft, m, s);
    assert X[..] == old(X[..]);
    GatherUnit(X[..], xs, nfft);
    GatherUnit(Y[..], ys, nfft);
    assert f(x) == ComplexIfft(x, m, T[..], s);
    assert SliceMapped(Y[..], X[..], w, nfft, nfft, f, g, b);
    forall i | 0 <= i < Y.Length && !OnSlice(i, ys, 1, nfft)
      ensures Y[i] == before[i]
    {
      if ys <= i < ys + nfft {
        assert OnSlice(i, ys, 1, nfft);
      } else if i < ys {
        assert Y[..ys][i] == before[..ys][i];
      } else {
        assert Y[ys + nfft..][i - (ys + nfft)] == before[ys + nfft..][i - (ys + nfft)];
      }
    }
    MappedNext(before, Y[..], X[..], w, nfft, nfft, f, g, b);
    forall i | 0 <= i < Y.Length && w.groups * w.blocks * nfft <= i
      ensures Y[i] == old(Y[i])
    {
      if OnSlice(i, ys, 1, nfft) {
        OnSliceBelow(w, nfft, g, b, i);
      }
    }
  }

  /** A unit-stride slice is a plain subsequence. */
  lemma GatherUnit<T>(s: seq<T>, start: nat, L: nat)
    requires L >= 1 && start + L <= |s|
    ensures Gather(s, start, 1, L) == s[start..start + L]
  {
    var r := Gather(s, start, 1, L);
    forall l | 0 <= l < L
      ensures r[l] == s[start..start + L][l]
    {
    }
  }

  /**
   * One vector of the contiguous loops: copy nfft values from X[xs] to
   * Y[ys], step Y back, fft_1d_c on Y in place, and scale it.
   */
  method ComplexInPlace(X: array<Complex>, Y: array<Complex>, bt: array<nat>, T: array<real>,
                        xs: nat, ys: nat, nfft: nat, ghost m: nat, s: real)
    returns (xe: nat, ye: nat)
    requires X != Y && nfft == Pow2(m) && bt.Length == nfft && T.Length == nfft + nfft / 4
    requires forall i :: 0 <= i < nfft ==> bt[i] == Rev(i, m)
    requires xs + nfft <= X.Length && ys + nfft <= Y.Length
    modifies Y
    ensures xe == xs + nfft && ye == ys + nfft
    ensures Y[ys..ys + nfft] == ComplexIfft(X[xs..xs + nfft], m, T[..], s)
    ensures Y[..ys] == old(Y[..ys]) && Y[ys + nfft..] == old(Y[ys + nfft..])
  {
    ghost var x := X[xs..xs + nfft];
    xe, ye := CopyRun(X, Y, xs, ys, nfft);
    ye := ye - nfft;
    ghost var y0 := Y[..];
    Fft1d(Y, ye, nfft, m, bt, T);
    ghost var y1 := Y[..];
    assert y1[ys..ys + nfft] == Transform(x, T[..], m);
    ye := ScaleRun(Y, ye, nfft, s);
    assert Y[..ys] == y1[..ys] == y0[..ys];
    assert Y[ys + nfft..] == y1[ys + nfft..] == y0[ys + nfft..];
  }

  /** Copy n values from X[xs ..] to Y[ys ..]; both pointers end n values on. */
  method CopyRun(X: array<Complex>, Y: array<Complex>, xs: nat, ys: nat, n: nat) returns (xe: nat, ye: nat)
    requires X != Y && xs + n <= X.Length && ys + n <= Y.Length
    modifies Y
    ensures xe == xs + n && ye == ys + n
    ensures Y[ys..ys + n] == X[xs..xs + n]
    ensures Y[..ys] == old(Y[..ys]) && Y[ys + n..] == old(Y[ys + n..])
  {
    xe, ye := xs, ys;
    while ye < ys + n
      invariant ys <= ye <= ys + n && xe - xs == ye - ys
      invariant forall i {:trigger Y[i]} :: ys <= i < ye ==> Y[i] == X[xs + (i - ys)]
      invariant forall i {:trigger Y[i]} :: 0 <= i < Y.Length && !(ys <= i < ye) ==> Y[i] == old(Y[i])
    {
      Y[ye] := X[xe];
      xe, ye := xe + 1, ye + 1;
    }
    ghost var a, b := Y[ys..ys + n], X[xs..xs + n];
    assert forall j :: 0 <= j < n ==> a[j] == b[j];
  }

  /** Multiply the n values at Y[ys ..] by s; the pointer ends n values on. */
  method ScaleRun(Y: array<Complex>, ys: nat, n: nat, s: real) returns (ye: nat)
    requires ys + n <= Y.Length
    modifies Y
    ensures ye == ys + n
    ensures Y[ys..ys + n] == Scaled(old(Y[ys..ys + n]), s)
    ensures Y[..ys] == old(Y[..ys]) && Y[ys + n..] == old(Y[ys + n..])
  {
    ye := ys;
    while ye < ys + n
      invariant ys <= ye <= ys + n
      invariant forall i {:trigger Y[i]} :: ys <= i < ye ==> Y[i] == Scale(s, old(Y[i]))
      invariant forall i {:trigger Y[i]} :: 0 <= i < Y.Length && !(ys <= i < ye) ==> Y[i] == old(Y[i])
    {
      Y[ye] := Scale(s, Y[ye]);
      ye := ye + 1;
    }
    ghost var a, b := Y[ys..ys + n], old(Y[ys..ys + n]);
    assert forall j :: 0 <= j < n ==> a[j] == Scale(s, b[j]);
    ghost var t, t0 := Y[ys + n..], old(Y[ys + n..]);
    assert forall j :: 0 <= j < |t| ==> t[j] == t0[j];
  }

  /** Slice (g, b) of the general nest: one more vector transformed through Y1. */
  method ComplexVisit(X: array<Complex>, Y: array<Complex>, Y1: array<Complex>, bt: array<nat>, T: array<real>,
                      ghost w: Walk, K: nat, nfft: nat, ghost m: nat, s: real, g: nat, b: nat,
                      xs: nat, ys: nat, ghost f: seq<Complex> -> seq<Complex>)
    returns (xe: nat, ye: nat)
    requires X != Y && X != Y1 && Y != Y1 && w.stride == K && nfft == Pow2(m) && m >= 1
    requires Y1.Length == nfft && bt.Length == nfft && T.Length == nfft + nfft / 4
    requires forall i :: 0 <= i < nfft ==> bt[i] == Rev(i, m)
    requires Fits(w, nfft, nfft, X.Length, Y.Length) && g < w.groups && b < w.blocks
    requires ComplexComputes(f, m, T[..], s)
    requires xs == Index(w, nfft, g, b, 0) && ys == Index(w, nfft, g, b, 0)
    requires Mapped(Y[..], X[..], w, nfft, nfft, f, g, b)
    modifies Y, Y1
    ensures xe == Offset(xs, K, nfft) && ye == Offset(ys, K, nfft)
    ensures Mapped(Y[..], X[..], w, nfft, nfft, f, g, b + 1)
    ensures forall i :: 0 <= i < Y.Length && w.groups * w.blocks * nfft <= i ==> Y[i] == old(Y[i])
  {
    SliceFits(w, nfft, g, b);
    ghost var before := Y[..];
    ghost var x := Gather(X[..], xs, K, nfft);
    xe, ye := ComplexVector(X, Y, Y1, bt, T, xs, ys, K, nfft, m, s, x);
    assert X[..] == old(X[..]);
    assert f(x) == ComplexIfft(x, m, T[..], s);
    assert SliceMapped(Y[..], X[..], w, nfft, nfft, f, g, b);
    MappedNext(before, Y[..], X[..], w, nfft, nfft, f, g, b);
    forall i | 0 <= i < Y.Length && w.groups * w.blocks * nfft <= i
      ensures Y[i] == old(Y[i])
    {
      if OnSlice(i, ys, K, nfft) {
        OnSliceBelow(w, nfft, g, b, i);
      }
    }
  }

  /**
   * One vector of the general nest: gather X[xs], X[xs+K], ... into Y1,
   * fft_1d_c on Y1, and scatter s times the result to Y[ys], Y[ys+K], ...
   */
  method ComplexVector(X: array<Complex>, Y: array<Complex>, Y1: array<Complex>, bt: array<nat>, T: array<real>,
                       xs: nat, ys: nat, K: nat, nfft: nat, ghost m: nat, s: real, ghost x: seq<Complex>)
    returns (xe: nat, ye: nat)
    requires X != Y && X != Y1 && Y != Y1 && K >= 1 && nfft == Pow2(m) && m >= 1
    requires Y1.Length == nfft && bt.Length == nfft && T.Length == nfft + nfft / 4
    requires forall i :: 0 <= i < nfft ==> bt[i] == Rev(i, m)
    requires xs + (nfft - 1) * K < X.Length && ys + (nfft - 1) * K < Y.Length
    requires x == Gather(X[..], xs, K, nfft)
    modifies Y, Y1
    ensures xe == Offset(xs, K, nfft) && ye == Offset(ys, K, nfft)
    ensures Gather(Y[..], ys, K, nfft) == ComplexIfft(x, m, T[..], s)
    ensures forall i :: 0 <= i < Y.Length && !OnSlice(i, ys, K, nfft) ==> Y[i] == old(Y[i])
  {
    xe := GatherRun(X, Y1, xs, K, nfft);
    ghost var y0 := Y1[..];
    assert Y1[0..0 + nfft] == y0;
    Fft1d(Y1, 0, nfft, m, bt, T);
    ghost var y1 := Y1[..];
    assert y1 == Y1[0..0 + nfft] == Transform(y0, T[..], m);
    ye := ComplexScatter(Y, Y1, ys, K, nfft, s);
    assert Gather(Y[..], ys, K, nfft) == Scaled(y1, s);
  }

  /** Y1[l] = X[xs + l*K] for every l; X's pointer ends n samples on. */
  method GatherRun(X: array<Complex>, Y1: array<Complex>, xs: nat, K: nat, n: nat) returns (xe: nat)
    requires X != Y1 && K >= 1 && n >= 1 && Y1.Length == n && xs + (n - 1) * K < X.Length
    modifies Y1
    ensures xe == Offset(xs, K, n) && Y1[..] == Gather(X[..], xs, K, n)
  {
    ghost var x := Gather(X[..], xs, K, n);
    xe := xs;
    var l := 0;
    while l < n
      invariant l <= n && xe == Offset(xs, K, l)
      invariant forall j {:trigger Y1[j]} :: 0 <= j < l ==> Y1[j] == x[j]
    {
      Y1[l] := X[xe];
      OffsetNext(xs, K, l);
      l, xe := l + 1, xe + K;
    }
    assert Y1[..] == x;
  }

  /** Y[ys + l*K] = s * Y1[l] for every l; Y's pointer ends nfft samples on. */
  method ComplexScatter(Y: array<Complex>, Y1: array<Complex>, ys: nat, K: nat, nfft: nat, s: real)
    returns (ye: nat)
    requires Y != Y1 && K >= 1 && nfft >= 1 && Y1.Length == nfft && ys + (nfft - 1) * K < Y.Length
    modifies Y
    ensures ye == Offset(ys, K, nfft)
    ensures Gather(Y[..], ys, K, nfft) == Scaled(Y1[..], s)
    ensures forall i :: 0 <= i < Y.Length && !OnSlice(i, ys, K, nfft) ==> Y[i] == old(Y[i])
  {
    SliceInBounds(ys, K, nfft);
    ghost var r := Scaled(Y1[..], s);
    ye := ys;
    var l := 0;
    while l < nfft
      invariant l <= nfft && ye == Offset(ys, K, l)
      invariant forall j {:trigger Offset(ys, K, j)} :: 0 <= j < l ==> Y[Offset(ys, K, j)] == r[j]
      invariant forall i {:trigger Y[i]} :: 0 <= i < Y.Length && !OnSlice(i, ys, K, nfft) ==> Y[i] == old(Y[i])
    {
      OnSliceAt(ys, K, nfft, l);
      OffsetsDistinct(ys, K, l);
      Y[ye] := Scale(s, Y1[l]);
      assert Y[ye] == r[l];
      OffsetNext(ys, K, l);
      l, ye := l + 1, ye + K;
    }
    GatherIs(Y[..], ys, K, r);
  }
}
