/**
 * Strided slice addressing, the block every kernel repeats
 * (c/ac2ar_levdurb.c:38-42, c/rc2ar.c:46-50, c/ifft.rad2.c:257-261).
 *
 * A tensor of shape R x C x S x H is stored flat, column-major (R fastest)
 * or row-major (H fastest). A kernel works on every 1-D slice along axis
 * `dim`. From the shape it derives the axis length L, the stride K between
 * consecutive samples of one slice, the block size B, the number of slices
 * V = N/L and the number of groups G = V/B. Slices are then visited either
 * contiguously (slice v starts at v*L, stride 1) or by the nest g, b, l at
 * g*B*L + b + l*K.
 */
module Strided {
  import opened Arith

  /** Number of elements R*C*S*H. */
  function Size(R: nat, C: nat, S: nat, H: nat): nat
  {
    R * C * S * H
  }

  /** Length of the active axis (Lx or L in the source). */
  function AxisLength(R: nat, C: nat, S: nat, H: nat, dim: nat): nat
    requires dim <= 3
  {
    if dim == 0 then R else if dim == 1 then C else if dim == 2 then S else H
  }

  /** K: the memory step between consecutive samples of one slice. */
  function Stride(R: nat, C: nat, S: nat, H: nat, colMajor: bool, dim: nat): nat
    requires dim <= 3
  {
    if colMajor then
      (if dim == 0 then 1 else if dim == 1 then R else if dim == 2 then R * C else R * C * S)
    else
      (if dim == 0 then C * S * H else if dim == 1 then S * H else if dim == 2 then H else 1)
  }

  /** B: the number of slices that sit side by side in one group. */
  function BlockSize(R: nat, C: nat, S: nat, H: nat, colMajor: bool, dim: nat): nat
    requires dim <= 3
  {
    if colMajor && dim == 0 then C * S * H else Stride(R, C, S, H, colMajor, dim)
  }

  /** V = N/L: the number of slices. */
  function NumSlices(R: nat, C: nat, S: nat, H: nat, dim: nat): nat
    requires dim <= 3 && AxisLength(R, C, S, H, dim) > 0
  {
    Size(R, C, S, H) / AxisLength(R, C, S, H, dim)
  }

  /** G = V/B: the number of groups. */
  function NumGroups(R: nat, C: nat, S: nat, H: nat, colMajor: bool, dim: nat): nat
    requires dim <= 3 && AxisLength(R, C, S, H, dim) > 0 && BlockSize(R, C, S, H, colMajor, dim) > 0
  {
    NumSlices(R, C, S, H, dim) / BlockSize(R, C, S, H, colMajor, dim)
  }

  /** The test that selects the contiguous loop: K==1 && (G==1 || B==1). */
  predicate FastPath(K: nat, B: nat, G: nat)
  {
    K == 1 && (G == 1 || B == 1)
  }

  /** The product of the axes slower than `dim` (only used in proofs). */
  function Outer(R: nat, C: nat, S: nat, H: nat, colMajor: bool, dim: nat): nat
    requires dim <= 3
  {
    if colMajor then
      (if dim == 0 then C * S * H else if dim == 1 then S * H else if dim == 2 then H else 1)
    else
      (if dim == 0 then 1 else if dim == 1 then R else if dim == 2 then R * C else R * C * S)
  }

  lemma SizeSplits(R: nat, C: nat, S: nat, H: nat, colMajor: bool, dim: nat)
    requires dim <= 3
    ensures Size(R, C, S, H) ==
            Outer(R, C, S, H, colMajor, dim) * AxisLength(R, C, S, H, dim) * Stride(R, C, S, H, colMajor, dim)
  {
    var rc := R * C;
    var rcs := rc * S;
    var sh := S * H;
    var csh := C * sh;
    assert Size(R, C, S, H) == rcs * H;
    assert rcs * H == R * csh by {
      MulAssoc(R, C, S); MulAssoc(R, C * S, H); MulAssoc(C, S, H);
    }
    assert R * csh == csh * R;
    assert C * S * H == csh by { MulAssoc(C, S, H); }
    assert rcs * H == (rc * S) * H;
    if colMajor {
      if dim == 0 {
        assert Outer(R, C, S, H, colMajor, dim) * AxisLength(R, C, S, H, dim) * Stride(R, C, S, H, colMajor, dim)
            == csh * R * 1;
      } else if dim == 1 {
        assert R * csh == (sh * C) * R by { MulComm(C, sh); }
      } else if dim == 2 {
        assert rcs * H == (H * S) * rc by { MulAssoc(rc, S, H); MulComm(rc, S * H); MulComm(S, H); }
      } else {
        assert rcs * H == 1 * H * rcs;
      }
    } else {
      if dim == 0 {
        assert R * csh == 1 * R * csh;
      } else if dim == 1 {
        assert R * csh == (R * C) * sh by { MulAssoc(R, C, sh); }
      } else if dim == 2 {
        assert rcs * H == rc * S * H;
      } else {
        assert rcs * H == rcs * H * 1;
      }
    }
  }

  lemma MulAssoc(a: int, b: int, c: int)
    ensures (a * b) * c == a * (b * c)
  {
  }

  lemma MulSwap(a: int, b: int, c: int)
    ensures a * b * c == (a * c) * b
  {
  }

  lemma MulComm(a: int, b: int)
    ensures a * b == b * a
  {
  }

  /**
   * The derived quantities of a non-empty tensor: every one is positive,
   * V*L = N, G*B = V and hence G*B*L = N.
   */
  lemma Shape(R: nat, C: nat, S: nat, H: nat, colMajor: bool, dim: nat)
    requires dim <= 3 && Size(R, C, S, H) > 0
    ensures var L := AxisLength(R, C, S, H, dim); var K := Stride(R, C, S, H, colMajor, dim);
            var B := BlockSize(R, C, S, H, colMajor, dim);
            L >= 1 && K >= 1 && B >= 1 &&
            NumSlices(R, C, S, H, dim) * L == Size(R, C, S, H) &&
            NumGroups(R, C, S, H, colMajor, dim) * B == NumSlices(R, C, S, H, dim) &&
            NumGroups(R, C, S, H, colMajor, dim) * B * L == Size(R, C, S, H) &&
            NumGroups(R, C, S, H, colMajor, dim) >= 1
  {
    NonZeroFactors(R, C, S, H);
    SizeSplits(R, C, S, H, colMajor, dim);
    PositiveFactors(R, C, S, H, colMajor, dim);
    var K := Stride(R, C, S, H, colMajor, dim);
    var O := Outer(R, C, S, H, colMajor, dim);
    assert colMajor && dim == 0 ==> K == 1 && BlockSize(R, C, S, H, colMajor, dim) == O;
    ShapeCounts(Size(R, C, S, H), AxisLength(R, C, S, H, dim), K, O,
                BlockSize(R, C, S, H, colMajor, dim), colMajor && dim == 0);
  }

  /** The arithmetic of Shape, over plain numbers: N = O*L*K, B = O or K. */
  lemma ShapeCounts(N: nat, L: nat, K: nat, O: nat, B: nat, wholeBlock: bool)
    requires L >= 1 && K >= 1 && O >= 1 && N == O * L * K
    requires wholeBlock ==> K == 1 && B == O
    requires !wholeBlock ==> B == K
    ensures B >= 1 && (N / L) * L == N && ((N / L) / B) * B == N / L
    ensures ((N / L) / B) * B * L == N && (N / L) / B >= 1
  {
    assert N == (O * K) * L;
    DivModOf(N, L, O * K, 0);
    var V := N / L;
    if wholeBlock {
      DivModOf(V, B, 1, 0);
    } else {
      DivModOf(V, B, O, 0);
    }
  }

  lemma NonZeroFactors(R: nat, C: nat, S: nat, H: nat)
    requires Size(R, C, S, H) > 0
    ensures R >= 1 && C >= 1 && S >= 1 && H >= 1
  {
  }

  lemma PositiveFactors(R: nat, C: nat, S: nat, H: nat, colMajor: bool, dim: nat)
    requires dim <= 3 && R >= 1 && C >= 1 && S >= 1 && H >= 1
    ensures AxisLength(R, C, S, H, dim) >= 1
    ensures Stride(R, C, S, H, colMajor, dim) >= 1
    ensures Outer(R, C, S, H, colMajor, dim) >= 1
  {
    MulPos(R, C); MulPos(R * C, S); MulPos(C, S); MulPos(C * S, H); MulPos(S, H);
  }

  lemma MulPos(a: nat, b: nat)
    requires a >= 1 && b >= 1
    ensures a * b >= 1
  {
  }

  /**
   * The contiguous loop is chosen exactly when the stride is 1; otherwise the
   * block size equals the stride.
   */
  lemma FastPathIffUnitStride(R: nat, C: nat, S: nat, H: nat, colMajor: bool, dim: nat)
    requires dim <= 3 && Size(R, C, S, H) > 0
    ensures var K := Stride(R, C, S, H, colMajor, dim);
            var B := BlockSize(R, C, S, H, colMajor, dim);
            (FastPath(K, B, NumGroups(R, C, S, H, colMajor, dim)) <==> K == 1) &&
            (!FastPath(K, B, NumGroups(R, C, S, H, colMajor, dim)) ==> B == K)
  {
    Shape(R, C, S, H, colMajor, dim);
    var K := Stride(R, C, S, H, colMajor, dim);
    var B := BlockSize(R, C, S, H, colMajor, dim);
    var G := NumGroups(R, C, S, H, colMajor, dim);
    if colMajor && dim == 0 {
      SizeSplits(R, C, S, H, colMajor, dim);
      assert B == NumSlices(R, C, S, H, dim) by {
        NonZeroFactors(R, C, S, H);
        DivModOf(Size(R, C, S, H), R, C * S * H, 0);
      }
      assert G * B == B;
      assert G == 1;
    }
  }

  /**
   * How one kernel call visits its slices: `groups` outer iterations, `blocks`
   * slices per group, `stride` between samples. The contiguous loop is the
   * walk (V, 1, 1); the general nest is (G, K, K).
   */
  datatype Walk = Walk(groups: nat, blocks: nat, stride: nat)

  /** Both loop forms step the block index by one and have B == K. */
  predicate ValidWalk(w: Walk)
  {
    w.blocks == w.stride && w.stride >= 1
  }

  /** The walk the source performs for a given shape, layout and axis. */
  function WalkOf(R: nat, C: nat, S: nat, H: nat, colMajor: bool, dim: nat): (w: Walk)
    requires dim <= 3 && Size(R, C, S, H) > 0
    ensures ValidWalk(w)
    ensures w.groups * w.blocks * AxisLength(R, C, S, H, dim) == Size(R, C, S, H)
    ensures w.groups * w.blocks == NumSlices(R, C, S, H, dim)
  {
    Shape(R, C, S, H, colMajor, dim);
    FastPathIffUnitStride(R, C, S, H, colMajor, dim);
    var K := Stride(R, C, S, H, colMajor, dim);
    var B := BlockSize(R, C, S, H, colMajor, dim);
    var G := NumGroups(R, C, S, H, colMajor, dim);
    if FastPath(K, B, G) then Walk(NumSlices(R, C, S, H, dim), 1, 1) else Walk(G, K, K)
  }

  /** Flat position of sample l of slice (g, b) when slices have length L. */
  function Index(w: Walk, L: nat, g: nat, b: nat, l: nat): nat
  {
    g * w.blocks * L + b + l * w.stride
  }

  lemma IndexAsMulAdd(w: Walk, L: nat, g: nat, b: nat, l: nat)
    requires ValidWalk(w)
    ensures Index(w, L, g, b, l) == (g * L + l) * w.stride + b
  {
    assert g * w.blocks * L == (g * L) * w.stride;
    assert (g * L + l) * w.stride == (g * L) * w.stride + l * w.stride;
  }

  /** Below every index of the walk lies the whole buffer: Index < G*B*L. */
  lemma IndexBound(w: Walk, L: nat, g: nat, b: nat, l: nat)
    requires ValidWalk(w) && g < w.groups && b < w.blocks && l < L
    ensures Index(w, L, g, b, l) < w.groups * w.blocks * L
  {
    var G, K := w.groups, w.stride;
    var q := g * L + l;
    IndexAsMulAdd(w, L, g, b, l);
    assert q < G * L by {
      MulAddBound(g, l, G, L);
    }
    assert q * K + b < (G * L) * K by {
      MulAddBound(q, b, G * L, K);
    }
    assert G * w.blocks * L == (G * L) * K by {
      MulSwap(G, K, L);
    }
  }

  /** Distinct (g, b, l) give distinct positions. */
  lemma IndexInjective(w: Walk, L: nat, g1: nat, b1: nat, l1: nat, g2: nat, b2: nat, l2: nat)
    requires ValidWalk(w)
    requires b1 < w.blocks && b2 < w.blocks && l1 < L && l2 < L
    requires Index(w, L, g1, b1, l1) == Index(w, L, g2, b2, l2)
    ensures g1 == g2 && b1 == b2 && l1 == l2
  {
    IndexAsMulAdd(w, L, g1, b1, l1);
    IndexAsMulAdd(w, L, g2, b2, l2);
    MulAddUnique(g1 * L + l1, b1, g2 * L + l2, b2, w.stride);
    MulAddUnique(g1, l1, g2, l2, L);
  }

  /** Quotient and remainder of i by K, by repeated subtraction. */
  function Split(i: nat, K: nat): (nat, nat)
    requires K >= 1
  {
    if i < K then (0, i) else var p := Split(i - K, K); (p.0 + 1, p.1)
  }

  /** Split(i, K) is the unique (q, r) with q*K + r == i and r < K. */
  lemma {:induction false} SplitIs(i: nat, K: nat)
    requires K >= 1
    ensures Split(i, K).1 < K && Split(i, K).0 * K + Split(i, K).1 == i
  {
    if i >= K {
      SplitIs(i - K, K);
      var p := Split(i - K, K);
      assert (p.0 + 1) * K == p.0 * K + K;
    }
  }

  lemma SplitOf(i: nat, K: nat, q: nat, r: nat)
    requires K >= 1 && r < K && q * K + r == i
    ensures Split(i, K) == (q, r)
  {
    SplitIs(i, K);
    MulAddUnique(Split(i, K).0, Split(i, K).1, q, r, K);
  }

  lemma SplitBound(i: nat, K: nat, t: nat)
    requires K >= 1 && i < t * K
    ensures Split(i, K).0 < t
  {
    SplitIs(i, K);
    var q := Split(i, K).0;
    if q >= t {
      MulMonotone(t, q, K);
    }
  }

  /** Block index of flat position i. */
  function SlotB(w: Walk, i: nat): nat
    requires ValidWalk(w)
  {
    Split(i, w.stride).1
  }

  /** Group index of flat position i when slices have length L. */
  function SlotG(w: Walk, L: nat, i: nat): nat
    requires ValidWalk(w) && L >= 1
  {
    Split(Split(i, w.stride).0, L).0
  }

  /** Sample index of flat position i within its slice. */
  function SlotL(w: Walk, L: nat, i: nat): nat
    requires ValidWalk(w) && L >= 1
  {
    Split(Split(i, w.stride).0, L).1
  }

  /** The slots of a position locate it again, and every position lies in a slice. */
  lemma IndexOfSlots(w: Walk, L: nat, i: nat)
    requires ValidWalk(w) && L >= 1
    ensures SlotB(w, i) < w.blocks && SlotL(w, L, i) < L
    ensures Index(w, L, SlotG(w, L, i), SlotB(w, i), SlotL(w, L, i)) == i
    ensures i < w.groups * w.blocks * L ==> SlotG(w, L, i) < w.groups
  {
    var g, b, l := SlotG(w, L, i), SlotB(w, i), SlotL(w, L, i);
    var q := Split(i, w.stride).0;
    SplitIs(i, w.stride);
    SplitIs(q, L);
    assert Index(w, L, g, b, l) == i by {
      IndexAsMulAdd(w, L, g, b, l);
    }
    if i < w.groups * w.blocks * L {
      assert g < w.groups by {
        SlotGBound(w, L, i);
      }
    }
  }

  lemma SlotGBound(w: Walk, L: nat, i: nat)
    requires ValidWalk(w) && L >= 1 && i < w.groups * w.blocks * L
    ensures SlotG(w, L, i) < w.groups
  {
    var G, K := w.groups, w.stride;
    assert G * w.blocks * L == (G * L) * K by {
      MulSwap(G, K, L);
    }
    SplitBound(i, K, G * L);
    SplitBound(Split(i, K).0, L, G);
  }

  /** The slots of Index(g, b, l) are g, b and l. */
  lemma SlotsOfIndex(w: Walk, L: nat, g: nat, b: nat, l: nat)
    requires ValidWalk(w) && b < w.blocks && l < L
    ensures SlotG(w, L, Index(w, L, g, b, l)) == g
    ensures SlotB(w, Index(w, L, g, b, l)) == b
    ensures SlotL(w, L, Index(w, L, g, b, l)) == l
  {
    var i := Index(w, L, g, b, l);
    IndexAsMulAdd(w, L, g, b, l);
    SplitOf(i, w.stride, g * L + l, b);
    SplitOf(g * L + l, L, g, l);
  }

  // ---------------------------------------------------------------------
  // One slice: a start position and a step

  /** Position of sample j of the slice that starts at `start` with step K. */
  function Offset(start: nat, K: nat, j: nat): nat
  {
    start + j * K
  }

  /** Position i is one of the M samples of the slice at `start` with step K. */
  predicate OnSlice(i: int, start: int, K: nat, M: nat)
    requires K >= 1
  {
    start <= i && (i - start) % K == 0 && (i - start) / K < M
  }

  lemma OnSliceAt(start: nat, K: nat, M: nat, j: nat)
    requires K >= 1 && j < M
    ensures OnSlice(Offset(start, K, j), start, K, M)
  {
    DivModOf(j * K, K, j, 0);
  }

  /** A position on a slice is one of its samples. */
  lemma OnSliceOffset(i: int, start: nat, K: nat, M: nat)
    requires K >= 1 && OnSlice(i, start, K, M)
    ensures (i - start) / K < M && i == Offset(start, K, (i - start) / K)
  {
    DivModOf(i - start, K, (i - start) / K, 0);
  }

  /** Moving a slice pointer by one sample. */
  lemma OffsetNext(start: nat, K: nat, j: nat)
    ensures Offset(start, K, j + 1) == Offset(start, K, j) + K
  {
  }

  /** Distinct samples of a slice sit at distinct positions. */
  lemma OffsetsDistinct(start: nat, K: nat, q: nat)
    requires K >= 1
    ensures forall j: nat :: j != q ==> Offset(start, K, j) != Offset(start, K, q)
  {
    forall j: nat | j != q
      ensures Offset(start, K, j) != Offset(start, K, q)
    {
      if j < q {
        MulMonotoneStrict(j, q, K);
      } else {
        MulMonotoneStrict(q, j, K);
      }
    }
  }

  lemma MulMonotoneStrict(a: nat, b: nat, K: nat)
    requires a < b && K >= 1
    ensures a * K < b * K
  {
    assert b * K == a * K + (b - a) * K;
    MulGe(b - a, K);
  }

  /** Moving a slice pointer back by n samples. */
  lemma OffsetBack(start: nat, K: nat, n: nat)
    ensures Offset(start, K, n) - K * n == start
  {
  }

  /** Sample j < L of a slice lies no further than its last sample. */
  lemma OffsetBound(start: nat, K: nat, L: nat, j: nat)
    requires j < L
    ensures Offset(start, K, j) <= start + (L - 1) * K
  {
    MulMonotone(j, L - 1, K);
  }

  /** Every sample of a slice lies no further than its last one. */
  lemma SliceInBounds(start: nat, K: nat, L: nat)
    ensures forall j :: 0 <= j < L ==> Offset(start, K, j) <= start + (L - 1) * K
  {
    forall j | 0 <= j < L
      ensures Offset(start, K, j) <= start + (L - 1) * K
    {
      OffsetBound(start, K, L, j);
    }
  }

  /** The L samples of one slice: s[start], s[start + K], ... */
  function Gather<T>(s: seq<T>, start: nat, K: nat, L: nat): (r: seq<T>)
    requires L == 0 || start + (L - 1) * K < |s|
    ensures |r| == L
    ensures forall l :: 0 <= l < L ==> Offset(start, K, l) < |s| && r[l] == s[Offset(start, K, l)]
  {
    if L == 0 then [] else
      OffsetBound(start, K, L, L - 1);
      Gather(s, start, K, L - 1) + [s[Offset(start, K, L - 1)]]
  }

  /** A slice whose samples hold r, sample by sample, gathers to r. */
  lemma GatherIs<T>(s: seq<T>, start: nat, K: nat, r: seq<T>)
    requires |r| >= 1 && start + (|r| - 1) * K < |s|
    requires forall j :: 0 <= j < |r| ==> s[Offset(start, K, j)] == r[j]
    ensures Gather(s, start, K, |r|) == r
  {
  }

  /** Gathering sees only the samples of the slice. */
  lemma GatherFrame<T>(s: seq<T>, s2: seq<T>, start: nat, K: nat, M: nat)
    requires M >= 1 && start + (M - 1) * K < |s| && |s2| == |s|
    requires forall j :: 0 <= j < M ==> s2[Offset(start, K, j)] == s[Offset(start, K, j)]
    ensures Gather(s2, start, K, M) == Gather(s, start, K, M)
  {
  }

  // ---------------------------------------------------------------------
  // All slices of a walk

  /** Slice (g, b) of length L fits in a buffer of G*B*L samples. */
  lemma SliceFits(w: Walk, L: nat, g: nat, b: nat)
    requires ValidWalk(w) && L >= 1 && g < w.groups && b < w.blocks
    ensures Index(w, L, g, b, 0) + (L - 1) * w.stride < w.groups * w.blocks * L
  {
    IndexBound(w, L, g, b, L - 1);
  }

  /** Sample j of slice (g, b) is Index(g, b, j). */
  lemma OffsetIsIndex(w: Walk, L: nat, g: nat, b: nat, j: nat)
    ensures Offset(Index(w, L, g, b, 0), w.stride, j) == Index(w, L, g, b, j)
  {
  }

  /** Slice (g, b) of a buffer of G*B*L samples. */
  function SliceOf<T>(x: seq<T>, w: Walk, L: nat, g: nat, b: nat): (r: seq<T>)
    requires ValidWalk(w) && L >= 1 && |x| == w.groups * w.blocks * L
    requires g < w.groups && b < w.blocks
    ensures |r| == L
  {
    SliceFits(w, L, g, b);
    Gather(x, Index(w, L, g, b, 0), w.stride, L)
  }

  /**
   * A kernel applied to every slice: slice (g, b) of the input (length L)
   * becomes slice (g, b) of the output (length M), with the same walk.
   */
  function MapSlices<T(!new), U>(x: seq<T>, w: Walk, L: nat, M: nat, f: seq<T> -> seq<U>): (r: seq<U>)
    requires ValidWalk(w) && L >= 1 && M >= 1 && |x| == w.groups * w.blocks * L
    requires forall s: seq<T> :: |s| == L ==> |f(s)| == M
    ensures |r| == w.groups * w.blocks * M
    ensures forall g: nat, b: nat, j: nat :: g < w.groups && b < w.blocks && j < M ==>
              Index(w, M, g, b, j) < |r| && r[Index(w, M, g, b, j)] == f(SliceOf(x, w, L, g, b))[j]
  {
    var r := MapUpTo(x, w, L, M, f, w.groups * w.blocks * M);
    assert forall g: nat, b: nat, j: nat :: g < w.groups && b < w.blocks && j < M ==>
             Index(w, M, g, b, j) < |r| && r[Index(w, M, g, b, j)] == f(SliceOf(x, w, L, g, b))[j] by {
      forall g: nat, b: nat, j: nat | g < w.groups && b < w.blocks && j < M
        ensures Index(w, M, g, b, j) < |r| && r[Index(w, M, g, b, j)] == f(SliceOf(x, w, L, g, b))[j]
      {
        IndexBound(w, M, g, b, j);
        SlotsOfIndex(w, M, g, b, j);
      }
    }
    r
  }

  /** MapSlices depends only on the values of f. */
  lemma MapSlicesExt<T(!new), U>(x: seq<T>, w: Walk, L: nat, M: nat, f: seq<T> -> seq<U>, h: seq<T> -> seq<U>)
    requires ValidWalk(w) && L >= 1 && M >= 1 && |x| == w.groups * w.blocks * L
    requires forall s: seq<T> :: |s| == L ==> |f(s)| == M
    requires forall s: seq<T> :: f(s) == h(s)
    ensures MapSlices(x, w, L, M, f) == MapSlices(x, w, L, M, h)
  {
    var r, r' := MapSlices(x, w, L, M, f), MapSlices(x, w, L, M, h);
    forall i | 0 <= i < |r|
      ensures r[i] == r'[i]
    {
      IndexOfSlots(w, M, i);
    }
  }

  /** Output position i of MapSlices: its sample of f applied to its slice. */
  function MapAt<T(!new), U>(x: seq<T>, w: Walk, L: nat, M: nat, f: seq<T> -> seq<U>, i: nat): U
    requires ValidWalk(w) && L >= 1 && M >= 1 && |x| == w.groups * w.blocks * L
    requires forall s: seq<T> :: |s| == L ==> |f(s)| == M
    requires i < w.groups * w.blocks * M
  {
    IndexOfSlots(w, M, i);
    f(SliceOf(x, w, L, SlotG(w, M, i), SlotB(w, i)))[SlotL(w, M, i)]
  }

  /** The first n output positions of MapSlices. */
  function MapUpTo<T(!new), U>(x: seq<T>, w: Walk, L: nat, M: nat, f: seq<T> -> seq<U>, n: nat): (r: seq<U>)
    requires ValidWalk(w) && L >= 1 && M >= 1 && |x| == w.groups * w.blocks * L
    requires forall s: seq<T> :: |s| == L ==> |f(s)| == M
    requires n <= w.groups * w.blocks * M
    ensures |r| == n
    ensures forall i {:trigger r[i]} :: 0 <= i < n ==> r[i] == MapAt(x, w, L, M, f, i)
  {
    if n == 0 then [] else MapUpTo(x, w, L, M, f, n - 1) + [MapAt(x, w, L, M, f, n - 1)]
  }

  // ---------------------------------------------------------------------
  // The drivers' bookkeeping: which slices are done

  /** Input and output buffers hold every slice of the walk. */
  predicate Fits(w: Walk, L: nat, M: nat, nx: nat, ny: nat)
  {
    ValidWalk(w) && L >= 1 && M >= 1 && w.groups * w.blocks * L <= nx && w.groups * w.blocks * M <= ny
  }

  /** Slice (g, b) of the output y holds f of slice (g, b) of the input x. */
  ghost predicate SliceMapped<T, U>(y: seq<U>, x: seq<T>, w: Walk, L: nat, M: nat, f: seq<T> -> seq<U>, g: nat, b: nat)
    requires Fits(w, L, M, |x|, |y|) && g < w.groups && b < w.blocks
  {
    SliceFits(w, L, g, b);
    SliceFits(w, M, g, b);
    Gather(y, Index(w, M, g, b, 0), w.stride, M) == f(Gather(x, Index(w, L, g, b, 0), w.stride, L))
  }

  /** (g1, b1) comes before (g2, b2) in the loops' order. */
  predicate Before(g1: nat, b1: nat, g2: nat, b2: nat)
  {
    g1 < g2 || (g1 == g2 && b1 < b2)
  }

  /** A loop position: inside group g < G, or just past the last group. */
  predicate LoopPos(w: Walk, g: nat, b: nat)
  {
    (g < w.groups && b <= w.blocks) || (g == w.groups && b == 0)
  }

  /**
   * Every slice the loops reach before (g, b) is mapped. Written as a
   * recursion in the loops' order, so a loop sees one slice at a time.
   */
  ghost predicate Mapped<T, U>(y: seq<U>, x: seq<T>, w: Walk, L: nat, M: nat, f: seq<T> -> seq<U>, g: nat, b: nat)
    requires Fits(w, L, M, |x|, |y|) && LoopPos(w, g, b)
    decreases g, b
  {
    if b > 0 then Mapped(y, x, w, L, M, f, g, b - 1) && SliceMapped(y, x, w, L, M, f, g, b - 1)
    else g == 0 || Mapped(y, x, w, L, M, f, g - 1, w.blocks)
  }

  /** Every slice before (g, b) is mapped. */
  lemma {:induction false} MappedAt<T, U>(y: seq<U>, x: seq<T>, w: Walk, L: nat, M: nat, f: seq<T> -> seq<U>,
                                          g: nat, b: nat, g1: nat, b1: nat)
    requires Fits(w, L, M, |x|, |y|) && LoopPos(w, g, b) && Mapped(y, x, w, L, M, f, g, b)
    requires b1 < w.blocks && Before(g1, b1, g, b)
    ensures g1 < w.groups && SliceMapped(y, x, w, L, M, f, g1, b1)
    decreases g, b
  {
    if b > 0 {
      if !(g1 == g && b1 == b - 1) {
        MappedAt(y, x, w, L, M, f, g, b - 1, g1, b1);
      }
    } else {
      MappedAt(y, x, w, L, M, f, g - 1, w.blocks, g1, b1);
    }
  }

  /** A sample of one slice is never on another slice. */
  lemma NotOnOtherSlice(w: Walk, M: nat, g: nat, b: nat, j: nat, g0: nat, b0: nat)
    requires ValidWalk(w) && b < w.blocks && b0 < w.blocks && j < M
    requires g != g0 || b != b0
    ensures !OnSlice(Index(w, M, g, b, j), Index(w, M, g0, b0, 0), w.stride, M)
  {
    var i := Index(w, M, g, b, j);
    var start := Index(w, M, g0, b0, 0);
    if OnSlice(i, start, w.stride, M) {
      OnSliceOffset(i, start, w.stride, M);
      var l := (i - start) / w.stride;
      assert i == Index(w, M, g0, b0, l);
      IndexInjective(w, M, g, b, j, g0, b0, l);
    }
  }

  /** Writing only on slice (g0, b0) keeps every other slice mapped. */
  lemma SliceFrame<T, U>(y: seq<U>, y2: seq<U>, x: seq<T>, w: Walk, L: nat, M: nat, f: seq<T> -> seq<U>,
                         g: nat, b: nat, g0: nat, b0: nat)
    requires Fits(w, L, M, |x|, |y|) && |y2| == |y| && g < w.groups && b < w.blocks && b0 < w.blocks
    requires g != g0 || b != b0
    requires forall i :: 0 <= i < |y| && !OnSlice(i, Index(w, M, g0, b0, 0), w.stride, M) ==> y2[i] == y[i]
    requires SliceMapped(y, x, w, L, M, f, g, b)
    ensures SliceMapped(y2, x, w, L, M, f, g, b)
  {
    SliceFits(w, M, g, b);
    var start := Index(w, M, g, b, 0);
    forall j | 0 <= j < M
      ensures y2[Offset(start, w.stride, j)] == y[Offset(start, w.stride, j)]
    {
      OffsetIsIndex(w, M, g, b, j);
      OffsetBound(start, w.stride, M, j);
      NotOnOtherSlice(w, M, g, b, j, g0, b0);
    }
    GatherFrame(y, y2, start, w.stride, M);
  }

  /** Writing only on a slice not yet reached keeps the finished ones mapped. */
  lemma {:induction false} MappedFrame<T, U>(y: seq<U>, y2: seq<U>, x: seq<T>, w: Walk, L: nat, M: nat,
                                             f: seq<T> -> seq<U>, g: nat, b: nat, g0: nat, b0: nat)
    requires Fits(w, L, M, |x|, |y|) && |y2| == |y| && LoopPos(w, g, b)
    requires g0 < w.groups && b0 < w.blocks && !Before(g0, b0, g, b)
    requires forall i :: 0 <= i < |y| && !OnSlice(i, Index(w, M, g0, b0, 0), w.stride, M) ==> y2[i] == y[i]
    requires Mapped(y, x, w, L, M, f, g, b)
    ensures Mapped(y2, x, w, L, M, f, g, b)
    decreases g, b
  {
    if b > 0 {
      MappedFrame(y, y2, x, w, L, M, f, g, b - 1, g0, b0);
      SliceFrame(y, y2, x, w, L, M, f, g, b - 1, g0, b0);
    } else if g > 0 {
      MappedFrame(y, y2, x, w, L, M, f, g - 1, w.blocks, g0, b0);
    }
  }

  /**
   * Finishing slice (g, b) in order: a write confined to that slice which
   * leaves it mapped advances the loops by one slice.
   */
  lemma MappedNext<T, U>(y: seq<U>, y2: seq<U>, x: seq<T>, w: Walk, L: nat, M: nat, f: seq<T> -> seq<U>,
                         g: nat, b: nat)
    requires Fits(w, L, M, |x|, |y|) && |y2| == |y| && g < w.groups && b < w.blocks
    requires Mapped(y, x, w, L, M, f, g, b)
    requires forall i :: 0 <= i < |y| && !OnSlice(i, Index(w, M, g, b, 0), w.stride, M) ==> y2[i] == y[i]
    requires SliceMapped(y2, x, w, L, M, f, g, b)
    ensures Mapped(y2, x, w, L, M, f, g, b + 1)
  {
    MappedFrame(y, y2, x, w, L, M, f, g, b, g, b);
  }

  /** The end of one group is the start of the next. */
  lemma MappedGroup<T, U>(y: seq<U>, x: seq<T>, w: Walk, L: nat, M: nat, f: seq<T> -> seq<U>, g: nat)
    requires Fits(w, L, M, |x|, |y|) && g < w.groups
    requires Mapped(y, x, w, L, M, f, g, w.blocks)
    ensures Mapped(y, x, w, L, M, f, g + 1, 0)
  {
  }

  /** Once every slice is mapped the output is MapSlices of the input. */
  lemma MappedAll<T(!new), U>(y: seq<U>, x: seq<T>, w: Walk, L: nat, M: nat, f: seq<T> -> seq<U>)
    requires Fits(w, L, M, |x|, |y|)
    requires forall s: seq<T> :: |s| == L ==> |f(s)| == M
    requires Mapped(y, x, w, L, M, f, w.groups, 0)
    ensures y[..w.groups * w.blocks * M] == MapSlices(x[..w.groups * w.blocks * L], w, L, M, f)
  {
    var n, m := w.groups * w.blocks * L, w.groups * w.blocks * M;
    var r := MapSlices(x[..n], w, L, M, f);
    forall i | 0 <= i < m
      ensures y[..m][i] == r[i]
    {
      MappedPosition(y, x, w, L, M, f, n, i);
    }
  }

  /** Position i of a fully mapped output holds position i of MapSlices. */
  lemma MappedPosition<T(!new), U>(y: seq<U>, x: seq<T>, w: Walk, L: nat, M: nat, f: seq<T> -> seq<U>, n: nat, i: nat)
    requires Fits(w, L, M, |x|, |y|) && n == w.groups * w.blocks * L
    requires forall s: seq<T> :: |s| == L ==> |f(s)| == M
    requires Mapped(y, x, w, L, M, f, w.groups, 0)
    requires i < w.groups * w.blocks * M
    ensures i < |y| && y[i] == MapSlices(x[..n], w, L, M, f)[i]
  {
    var g, b, l := SlotsOf(w, M, i);
    MappedAt(y, x, w, L, M, f, w.groups, 0, g, b);
    MappedSample(y, x, w, L, M, f, n, g, b, l);
  }

  /** Every position of a walk over G*B*L values is Index(g, b, l) of some slot. */
  lemma SlotsOf(w: Walk, L: nat, i: nat) returns (g: nat, b: nat, l: nat)
    requires ValidWalk(w) && L >= 1 && i < w.groups * w.blocks * L
    ensures g < w.groups && b < w.blocks && l < L && Index(w, L, g, b, l) == i
  {
    IndexOfSlots(w, L, i);
    g, b, l := SlotG(w, L, i), SlotB(w, i), SlotL(w, L, i);
  }

  /** Sample l of mapped slice (g, b) is sample l of f applied to the slice of the first n inputs. */
  lemma MappedSample<T(!new), U>(y: seq<U>, x: seq<T>, w: Walk, L: nat, M: nat, f: seq<T> -> seq<U>, n: nat,
                                 g: nat, b: nat, l: nat)
    requires Fits(w, L, M, |x|, |y|) && n == w.groups * w.blocks * L
    requires forall s: seq<T> :: |s| == L ==> |f(s)| == M
    requires g < w.groups && b < w.blocks && l < M
    requires SliceMapped(y, x, w, L, M, f, g, b)
    ensures Index(w, M, g, b, l) < |y|
    ensures y[Index(w, M, g, b, l)] == f(SliceOf(x[..n], w, L, g, b))[l]
  {
    SliceOfPrefix(x, n, w, L, g, b);
    SliceSample(y, x, w, L, M, f, g, b, l);
  }

  /** Sample l of a mapped slice (g, b) is sample l of f applied to the input slice. */
  lemma SliceSample<T, U>(y: seq<U>, x: seq<T>, w: Walk, L: nat, M: nat, f: seq<T> -> seq<U>, g: nat, b: nat, l: nat)
    requires Fits(w, L, M, |x|, |y|) && g < w.groups && b < w.blocks && l < M
    requires SliceMapped(y, x, w, L, M, f, g, b)
    ensures Index(w, M, g, b, l) < |y| && Index(w, L, g, b, 0) + (L - 1) * w.stride < |x|
    ensures |f(Gather(x, Index(w, L, g, b, 0), w.stride, L))| == M
    ensures y[Index(w, M, g, b, l)] == f(Gather(x, Index(w, L, g, b, 0), w.stride, L))[l]
  {
    SliceFits(w, M, g, b);
    SliceFits(w, L, g, b);
    OffsetIsIndex(w, M, g, b, l);
    var start := Index(w, M, g, b, 0);
    assert Gather(y, start, w.stride, M)[l] == y[Index(w, M, g, b, l)];
  }

  /** Sequences that agree from n on have the same tail. */
  lemma TailSame<T>(s: seq<T>, t: seq<T>, n: nat)
    requires n <= |s| == |t|
    requires forall i :: n <= i < |s| ==> s[i] == t[i]
    ensures s[n..] == t[n..]
  {
  }

  /** A sample of slice (g, b) lies below G*B*M. */
  lemma OnSliceBelow(w: Walk, M: nat, g: nat, b: nat, i: int)
    requires ValidWalk(w) && M >= 1 && g < w.groups && b < w.blocks
    requires OnSlice(i, Index(w, M, g, b, 0), w.stride, M)
    ensures i < w.groups * w.blocks * M
  {
    OnSliceOffset(i, Index(w, M, g, b, 0), w.stride, M);
    IndexBound(w, M, g, b, (i - Index(w, M, g, b, 0)) / w.stride);
  }

  /** The contiguous loop: slice v + 1 starts L samples after slice v. */
  lemma NextContiguous(w: Walk, L: nat, v: nat)
    requires w.blocks == 1 && w.stride == 1
    ensures Index(w, L, v, 0, 0) == v * L && v * L + L * 1 == (v + 1) * L
  {
  }

  /**
   * The general nest: after a slice the pointer is L*K past its start, and
   * stepping back by K*L - 1 reaches the start of the next slice.
   */
  lemma NextInGroup(w: Walk, L: nat, g: nat, b: nat)
    requires ValidWalk(w) && L >= 1
    ensures Index(w, L, g, b, 0) + L * w.stride >= w.stride * L - 1
    ensures Index(w, L, g, b, 0) + L * w.stride - (w.stride * L - 1) == Index(w, L, g, b + 1, 0)
  {
  }

  /** The general nest: stepping by B*(L-1) after the last block reaches the next group. */
  lemma NextGroup(w: Walk, L: nat, g: nat)
    requires ValidWalk(w) && L >= 1
    ensures Index(w, L, g, w.blocks, 0) + w.blocks * (L - 1) == Index(w, L, g + 1, 0, 0)
  {
    GroupStep(g, w.blocks, L);
    assert (g + 1) * w.blocks * L == (g + 1) * w.blocks * L + 0 + 0 * w.stride;
  }

  /** Pointer step at the end of a group: g*B*L + B + B*(L-1) == (g+1)*B*L. */
  lemma GroupStep(g: nat, B: nat, L: nat)
    requires L >= 1
    ensures g * B * L + B + B * (L - 1) == (g + 1) * B * L
  {
    assert B + B * (L - 1) == B * L;
  }

  /** A tensor that is a single vector is walked as the one slice (1, 1, 1). */
  lemma SingleSlice(R: nat, C: nat, S: nat, H: nat, colMajor: bool, dim: nat)
    requires dim <= 3 && Size(R, C, S, H) > 0 && AxisLength(R, C, S, H, dim) == Size(R, C, S, H)
    ensures WalkOf(R, C, S, H, colMajor, dim) == Walk(1, 1, 1)
  {
    NonZeroFactors(R, C, S, H);
    SizeSplits(R, C, S, H, colMajor, dim);
    PositiveFactors(R, C, S, H, colMajor, dim);
    Shape(R, C, S, H, colMajor, dim);
    var N := Size(R, C, S, H);
    var K := Stride(R, C, S, H, colMajor, dim);
    var O := Outer(R, C, S, H, colMajor, dim);
    UnitFactors(N, O, K);
    DivModOf(N, N, 1, 0);
    var B := BlockSize(R, C, S, H, colMajor, dim);
    assert B == 1;
    DivModOf(1, 1, 1, 0);
  }

  /** N == O*N*K with N, O, K >= 1 forces O == K == 1. */
  lemma UnitFactors(N: nat, O: nat, K: nat)
    requires N >= 1 && O >= 1 && K >= 1 && N == O * N * K
    ensures O == 1 && K == 1
  {
    assert N == (O * K) * N;
    MulAddUnique(O * K, 0, 1, 0, N);
    MulGe(K, O);
  }

  /** A slice of a prefix is the slice of the whole buffer. */
  lemma SliceOfPrefix<T>(x: seq<T>, n: nat, w: Walk, L: nat, g: nat, b: nat)
    requires ValidWalk(w) && L >= 1 && n == w.groups * w.blocks * L && n <= |x|
    requires g < w.groups && b < w.blocks
    ensures Index(w, L, g, b, 0) + (L - 1) * w.stride < |x|
    ensures SliceOf(x[..n], w, L, g, b) == Gather(x, Index(w, L, g, b, 0), w.stride, L)
  {
    var st := Index(w, L, g, b, 0);
    SliceFits(w, L, g, b);
    assert st + (L - 1) * w.stride < n;
    assert SliceOf(x[..n], w, L, g, b) == Gather(x[..n], st, w.stride, L);
    GatherPrefix(x, n, st, w.stride, L);
  }

  lemma GatherPrefix<T>(x: seq<T>, n: nat, start: nat, K: nat, L: nat)
    requires L >= 1 && start + (L - 1) * K < n <= |x|
    ensures Gather(x[..n], start, K, L) == Gather(x, start, K, L)
  {
    var s1 := Gather(x[..n], start, K, L);
    var s2 := Gather(x, start, K, L);
    forall l | 0 <= l < L
      ensures s1[l] == s2[l]
    {
    }
  }

  lemma MulMonotone(a: nat, b: nat, m: nat)
    requires a <= b
    ensures a * m <= b * m
  {
    assert b * m == a * m + (b - a) * m;
  }
}
