/**
 * fft_1d_c / fft_1d_z (c/ifft.rad2.c:99-212): the in-place radix-2
 * transform of nfft == 2^m complex values. Sizes 2 and 4 have closed
 * forms; larger sizes put the values in bit-reversed order with the table
 * of get_bittbl and then run m butterfly stages whose twiddle factors come
 * from the table of get_cstbl.
 */
module Fft {
  import opened Arith
  import opened Cplx
  import opened Bits

  // ---------------------------------------------------------------------
  // The bit-reversal permutation

  /** Entry n of the result is entry Rev(n) of y. */
  function Permute(y: seq<Complex>, m: nat): (r: seq<Complex>)
    requires |y| == Pow2(m)
    ensures |r| == |y|
  {
    seq(|y|, n requires 0 <= n < |y| => y[Rev(n, m)])
  }

  /** Bit reversal undoes itself. */
  lemma PermuteTwice(y: seq<Complex>, m: nat)
    requires |y| == Pow2(m)
    ensures Permute(Permute(y, m), m) == y
  {
    RevPermutes(m);
  }

  // ---------------------------------------------------------------------
  // One butterfly stage

  /** The twiddle factor at table index h: (T[h + nfft/4], T[h]), cosine and sine of 2*pi*h/nfft. */
  function Twiddle(T: seq<real>, nfft: nat, h: nat): Complex
    requires h < nfft / 2 && |T| == nfft + nfft / 4
  {
    Complex(T[h + nfft / 4], T[h])
  }

  /** The twiddles of the stage of half-size k: one every d table entries. */
  function StageTwiddles(T: seq<real>, nfft: nat, k: nat, d: nat): (tw: seq<Complex>)
    requires d >= 1 && 2 * k * d == nfft && |T| == nfft + nfft / 4
    ensures |tw| == k
  {
    seq(k, j requires 0 <= j < k => (LaneBound(j, k, d); Twiddle(T, nfft, j * d)))
  }

  /**
   * The product the butterfly forms from si = -T[h] and sr = T[h + nfft/4]:
   * dr = si*b.im + sr*b.re, di = sr*b.im - si*b.re.
   */
  function Rotated(si: real, sr: real, b: Complex): (r: Complex)
    ensures r == Mul(Complex(sr, -si), b)
  {
    Complex(si * b.im + sr * b.re, sr * b.im - si * b.re)
  }

  /** The lane of position p in a stage of half-size k: its offset within its half block. */
  function Lane(p: nat, k: nat): nat
    requires k >= 1
  {
    var r := p % (2 * k);
    if r < k then r else r - k
  }

  /**
   * Entry p after the stage of half-size k: every pair (i, i + k) with i in
   * the lower half of its block of 2k becomes (a + w*b, a - w*b), w the
   * twiddle of the pair's lane.
   */
  function StageAt(y: seq<Complex>, k: nat, tw: seq<Complex>, p: nat): Complex
    requires k >= 1 && |tw| == k && |y| % (2 * k) == 0 && p < |y|
  {
    Locate(p, k, |y|);
    var r := p % (2 * k);
    if r < k then Add(y[p], Mul(tw[r], y[p + k])) else Sub(y[p - k], Mul(tw[r - k], y[p]))
  }

  function Stage(y: seq<Complex>, k: nat, tw: seq<Complex>): (r: seq<Complex>)
    requires k >= 1 && |tw| == k && |y| % (2 * k) == 0
    ensures |r| == |y|
  {
    seq(|y|, p requires 0 <= p < |y| => StageAt(y, k, tw, p))
  }

  /**
   * The butterfly can be undone: the sum of a pair's outputs is twice its
   * upper input, and their difference twice the rotated lower input.
   */
  lemma StagePair(y: seq<Complex>, k: nat, tw: seq<Complex>, p: nat)
    requires k >= 1 && |tw| == k && |y| % (2 * k) == 0 && p < |y| && p % (2 * k) < k
    ensures p + k < |y|
    ensures Add(Stage(y, k, tw)[p], Stage(y, k, tw)[p + k]) == Scale(2.0, y[p])
    ensures Sub(Stage(y, k, tw)[p], Stage(y, k, tw)[p + k]) == Scale(2.0, Mul(tw[p % (2 * k)], y[p + k]))
  {
    Locate(p, k, |y|);
    var r := p % (2 * k);
    assert (p + k) % (2 * k) == r + k by {
      DivModOf(p + k, 2 * k, p / (2 * k), r + k);
    }
  }

  /** Position p: block p / (2k), offset p % (2k), and its partner inside the buffer. */
  lemma Locate(p: nat, k: nat, n: nat)
    requires k >= 1 && n % (2 * k) == 0 && p < n
    ensures p == (p / (2 * k)) * (2 * k) + p % (2 * k) && 0 <= p % (2 * k) < 2 * k
    ensures 0 <= p / (2 * k) < n / (2 * k)
    ensures p % (2 * k) < k ==> p + k < n
    ensures p % (2 * k) >= k ==> p >= k
  {
    var kk := 2 * k;
    Euclid(p, kk);
    Euclid(n, kk);
    InBlock(p, p / kk, p % kk, n / kk, k);
  }

  /** Euclidean division by a positive divisor. */
  lemma Euclid(p: nat, m: nat)
    requires m >= 1
    ensures p == (p / m) * m + p % m && 0 <= p % m < m && 0 <= p / m
  {
  }

  /** p == q*2k + r inside c blocks of 2k: the block index is below c, and the partner is inside. */
  lemma InBlock(p: nat, q: int, r: int, c: int, k: nat)
    requires k >= 1 && p == q * (2 * k) + r && 0 <= r < 2 * k && 0 <= q && p < c * (2 * k)
    ensures q < c
    ensures r < k ==> p + k < c * (2 * k)
    ensures r >= k ==> p >= k
  {
    if q >= c {
      MulMono(c, q, 2 * k);
    }
    if r < k {
      MulAddBound(q, r + k, c, 2 * k);
    }
  }

  /** q*m + j with j < m lies below d*m exactly when q < d. */
  lemma BlockIndex(q: nat, j: nat, d: nat, m: nat)
    requires j < m
    ensures q * m + j < d * m <==> q < d
  {
    if q < d {
      MulAddBound(q, j, d, m);
    } else {
      MulMono(d, q, m);
    }
  }

  lemma Twice(k: nat, d: nat)
    ensures 2 * k * d == d * (k + k) && (k + k) == 2 * k
  {
  }

  lemma MulSucc(q: nat, m: nat)
    ensures (q + 1) * m == q * m + m
  {
  }

  lemma MulMono(a: nat, b: nat, m: nat)
    requires a <= b
    ensures a * m <= b * m
  {
    assert b * m == a * m + (b - a) * m;
  }

  /** A lane's twiddle index stays in the first half of the table. */
  lemma LaneBound(j: nat, k: nat, d: nat)
    requires j < k && d >= 1
    ensures j * d < (2 * k * d) / 2
  {
    MulAddBound(j, 0, k, d);
    assert 2 * k * d == 2 * (k * d);
  }

  // ---------------------------------------------------------------------
  // The whole transform

  /** Sizes of stage s of a transform of 2^m values: k = 2^s, d = 2^(m-s-1), nfft == 2*k*d. */
  lemma StageSizes(m: nat, s: nat)
    requires s < m
    ensures 2 * Pow2(s) * Pow2(m - s - 1) == Pow2(m)
    ensures Pow2(m) % (2 * Pow2(s)) == 0
  {
    Pow2Add(s + 1, m - s - 1);
    assert Pow2(s + 1) == 2 * Pow2(s);
    DivModOf(Pow2(m), 2 * Pow2(s), Pow2(m - s - 1), 0);
  }

  /** The stages of half-size 2^s, 2^(s+1), ..., 2^(m-1), in that order. */
  function Stages(y: seq<Complex>, T: seq<real>, m: nat, s: nat): (r: seq<Complex>)
    requires s <= m && |y| == Pow2(m) && |T| == |y| + |y| / 4
    ensures |r| == |y|
    decreases m - s
  {
    if s == m then y
    else
      StageSizes(m, s);
      var k, d := Pow2(s), Pow2(m - s - 1);
      Stages(Stage(y, k, StageTwiddles(T, |y|, k, d)), T, m, s + 1)
  }

  /** The closed form for nfft == 2: (y0 + y1, y0 - y1). */
  function Fft2(y: seq<Complex>): (r: seq<Complex>)
    requires |y| == 2
    ensures |r| == 2
  {
    [Add(y[0], y[1]), Sub(y[0], y[1])]
  }

  /** The closed form for nfft == 4 as the source writes it, component by component. */
  function Fft4AsWritten(y: seq<Complex>): (r: seq<Complex>)
    requires |y| == 4
    ensures |r| == 4
  {
    var dcr := y[0].re + y[1].re + y[2].re + y[3].re;
    var dci := y[0].im + y[1].im + y[2].im + y[3].im;
    var nyr := y[0].re - y[1].re + y[2].re - y[3].re;
    var nyi := y[0].im - y[1].im + y[2].im - y[3].im;
    var y1r := y[0].re - y[2].re + y[1].im - y[3].im;
    var y1i := y[0].im - y[1].re + y[3].re - y[2].im;
    var y3r := y[0].re - y[1].im + y[3].im - y[2].re;
    var y3i := y[0].im - y[2].im + y[1].re - y[3].re;
    [Complex(dcr, dci), Complex(y1r, y1i), Complex(nyr, nyi), Complex(y3r, y3i)]
  }

  /**
   * The closed form for nfft == 4 with the kernel sign of the butterfly
   * stages: the entries the source writes to slots 1 and 3 trade places.
   */
  function Fft4(y: seq<Complex>): (r: seq<Complex>)
    requires |y| == 4
    ensures |r| == 4
  {
    var w := Fft4AsWritten(y);
    [w[0], w[3], w[2], w[1]]
  }

  /**
   * fft_1d_c on 2^m values: nothing below two values, the closed forms for
   * two and four, the bit-reversed butterfly stages otherwise.
   */
  function Transform(y: seq<Complex>, T: seq<real>, m: nat): (r: seq<Complex>)
    requires |y| == Pow2(m) && |T| == |y| + |y| / 4
    ensures |r| == |y|
  {
    if m == 0 then y
    else if m == 1 then Fft2(y)
    else if m == 2 then Fft4(y)
    else Stages(Permute(y, m), T, m, 0)
  }

  // ---------------------------------------------------------------------
  // Reference transforms for two and four values, whose roots of unity are exact

  /** i^e for the inverse transform's kernel e^(+2*pi*i*e/4). */
  function RootInv4(e: nat): Complex
  {
    var r := e % 4;
    if r == 0 then Complex(1.0, 0.0) else if r == 1 then Complex(0.0, 1.0)
    else if r == 2 then Complex(-1.0, 0.0) else Complex(0.0, -1.0)
  }

  /** (-i)^e for the forward transform's kernel e^(-2*pi*i*e/4). */
  function RootFwd4(e: nat): Complex
  {
    var r := e % 4;
    if r == 0 then Complex(1.0, 0.0) else if r == 1 then Complex(0.0, -1.0)
    else if r == 2 then Complex(-1.0, 0.0) else Complex(0.0, 1.0)
  }

  /** (-1)^e, the kernel of both transforms of two values. */
  function Root2(e: nat): Complex
  {
    if e % 2 == 0 then Complex(1.0, 0.0) else Complex(-1.0, 0.0)
  }

  /** sum over j < n of y[j] * root(j*k): entry k of a discrete Fourier transform. */
  function DftSum(y: seq<Complex>, root: nat -> Complex, k: nat, n: nat): Complex
    requires n <= |y|
  {
    if n == 0 then Zero else Add(DftSum(y, root, k, n - 1), Mul(y[n - 1], root((n - 1) * k)))
  }

  /** The two-value closed form is the transform of two values. */
  lemma Fft2IsDft(y: seq<Complex>)
    requires |y| == 2
    ensures forall k :: 0 <= k < 2 ==> Fft2(y)[k] == DftSum(y, Root2, k, 2)
  {
    forall k | 0 <= k < 2
      ensures Fft2(y)[k] == DftSum(y, Root2, k, 2)
    {
      assert DftSum(y, Root2, k, 1) == Add(Zero, Mul(y[0], Root2(0)));
      assert 1 * k == k;
      Turns(y[0]);
      Turns(y[1]);
    }
  }

  /** Multiplying by the four exact roots of unity 1, i, -1, -i. */
  lemma Turns(a: Complex)
    ensures Mul(a, Complex(1.0, 0.0)) == a && Mul(a, Complex(-1.0, 0.0)) == Neg(a)
    ensures Mul(a, Complex(0.0, 1.0)) == Complex(-a.im, a.re) && Mul(a, Complex(0.0, -1.0)) == Complex(a.im, -a.re)
    ensures Add(Zero, a) == a
  {
  }

  /** The corrected four-value closed form is the inverse transform. */
  lemma Fft4IsInverseDft(y: seq<Complex>)
    requires |y| == 4
    ensures forall k :: 0 <= k < 4 ==> Fft4(y)[k] == DftSum(y, RootInv4, k, 4)
  {
    var one, i, m1, mi := Complex(1.0, 0.0), Complex(0.0, 1.0), Complex(-1.0, 0.0), Complex(0.0, -1.0);
    FourTerms(y, RootInv4, 0, one, one, one);
    FourTerms(y, RootInv4, 1, i, m1, mi);
    FourTerms(y, RootInv4, 2, m1, one, m1);
    FourTerms(y, RootInv4, 3, mi, m1, i);
    Turns(y[1]);
    Turns(y[2]);
    Turns(y[3]);
  }

  /** The four-value closed form as written is the forward transform. */
  lemma Fft4AsWrittenIsForwardDft(y: seq<Complex>)
    requires |y| == 4
    ensures forall k :: 0 <= k < 4 ==> Fft4AsWritten(y)[k] == DftSum(y, RootFwd4, k, 4)
  {
    var one, i, m1, mi := Complex(1.0, 0.0), Complex(0.0, 1.0), Complex(-1.0, 0.0), Complex(0.0, -1.0);
    FourTerms(y, RootFwd4, 0, one, one, one);
    FourTerms(y, RootFwd4, 1, mi, m1, i);
    FourTerms(y, RootFwd4, 2, m1, one, m1);
    FourTerms(y, RootFwd4, 3, i, m1, mi);
    Turns(y[1]);
    Turns(y[2]);
    Turns(y[3]);
  }

  /** A sum of four terms unrolled, given the kernel's values at 0, k, 2k and 3k. */
  lemma FourTerms(y: seq<Complex>, root: nat -> Complex, k: nat, a: Complex, b: Complex, c: Complex)
    requires |y| == 4 && root(0) == Complex(1.0, 0.0) && root(k) == a && root(2 * k) == b && root(3 * k) == c
    ensures DftSum(y, root, k, 4) == Add(Add(Add(y[0], Mul(y[1], a)), Mul(y[2], b)), Mul(y[3], c))
  {
    assert DftSum(y, root, k, 1) == Add(Zero, Mul(y[0], root(0)));
    Turns(y[0]);
    assert 1 * k == k;
    assert DftSum(y, root, k, 2) == Add(DftSum(y, root, k, 1), Mul(y[1], root(k)));
    assert DftSum(y, root, k, 3) == Add(DftSum(y, root, k, 2), Mul(y[2], root(2 * k)));
  }

  /**
   * The closed form as written disagrees with the butterfly stages' kernel:
   * for a unit impulse at index 1 it yields -i at index 1 where the inverse
   * transform yields +i.
   */
  lemma Fft4AsWrittenCounterexample(y: seq<Complex>)
    requires y == [Zero, Complex(1.0, 0.0), Zero, Zero]
    ensures Fft4AsWritten(y)[1] == Complex(0.0, -1.0)
    ensures DftSum(y, RootInv4, 1, 4) == Complex(0.0, 1.0)
  {
    ImpulseInverse(y);
  }

  /** The inverse transform of a unit impulse at index 1 is i^k; at k == 1 it is i. */
  lemma ImpulseInverse(y: seq<Complex>)
    requires |y| == 4 && y[0] == Zero && y[1] == Complex(1.0, 0.0) && y[2] == Zero && y[3] == Zero
    ensures DftSum(y, RootInv4, 1, 4) == Complex(0.0, 1.0)
  {
    Fft4IsInverseDft(y);
    assert Fft4(y)[1] == Fft4AsWritten(y)[3];
  }


  // ---------------------------------------------------------------------
  // The in-place bit reversal

  /** The buffer after the swap loop has visited indices below n: a pair is swapped once either end is visited. */
  function PartlyPermuted(y: seq<Complex>, m: nat, n: nat): (r: seq<Complex>)
    requires |y| == Pow2(m)
    ensures |r| == |y|
  {
    seq(|y|, p requires 0 <= p < |y| => if p < n || Rev(p, m) < n then y[Rev(p, m)] else y[p])
  }

  /** Before the loop nothing has moved; after it every entry has. */
  lemma PartlyPermutedEnds(y: seq<Complex>, m: nat)
    requires |y| == Pow2(m)
    ensures PartlyPermuted(y, m, 1) == y
    ensures PartlyPermuted(y, m, |y|) == Permute(y, m)
  {
    RevZero(m);
    RevPermutes(m);
  }

  /** One turn of the swap loop: index n trades places with Rev(n) when n < Rev(n). */
  lemma PartlyPermutedStep(y: seq<Complex>, m: nat, n: nat)
    requires |y| == Pow2(m) && n < |y|
    ensures var z := PartlyPermuted(y, m, n); var b := Rev(n, m);
            PartlyPermuted(y, m, n + 1) == if n < b then z[n := z[b]][b := z[n]] else z
  {
    RevPermutes(m);
  }

  /**
   * The bit-reverse loop of fft_1d_c on Y[off .. off + nfft): for n = 1 ..
   * nfft-1, swap entries n and bt[n] when n < bt[n].
   */
  method BitReverse(Y: array<Complex>, off: nat, nfft: nat, bt: array<nat>, ghost m: nat)
    requires nfft == Pow2(m) && off + nfft <= Y.Length && nfft <= bt.Length
    requires forall i :: 0 <= i < nfft ==> bt[i] == Rev(i, m)
    modifies Y
    ensures Y[off..off + nfft] == Permute(old(Y[off..off + nfft]), m)
    ensures Y[..off] == old(Y[..off]) && Y[off + nfft..] == old(Y[off + nfft..])
  {
    ghost var y := Y[off..off + nfft];
    PartlyPermutedEnds(y, m);
    var n := 1;
    while n < nfft
      invariant 1 <= n && (n <= nfft || nfft == 1)
      invariant Y[off..off + nfft] == PartlyPermuted(y, m, n)
      invariant Y[..off] == old(Y[..off]) && Y[off + nfft..] == old(Y[off + nfft..])
    {
      PartlyPermutedStep(y, m, n);
      var b := bt[n];
      if n < b {
        Swap(Y, off, nfft, n, b);
      }
      n := n + 1;
    }
  }

  /** y = Y[n]; Y[n] = Y[b]; Y[b] = y; -- on entries n and b of the segment at off. */
  method Swap(Y: array<Complex>, off: nat, nfft: nat, n: nat, b: nat)
    requires n < nfft && b < nfft && off + nfft <= Y.Length
    modifies Y
    ensures var z := old(Y[off..off + nfft]); Y[off..off + nfft] == z[n := z[b]][b := z[n]]
    ensures Y[..off] == old(Y[..off]) && Y[off + nfft..] == old(Y[off + nfft..])
  {
    var t := Y[off + n];
    Y[off + n] := Y[off + b];
    Y[off + b] := t;
  }

  // ---------------------------------------------------------------------
  // The butterfly loops

  /** The stage loops have visited position p once lanes below j and the first q pairs of lane j are done. */
  predicate Visited(p: nat, k: nat, j: nat, q: nat)
    requires k >= 1
  {
    Lane(p, k) < j || (Lane(p, k) == j && p / (2 * k) < q)
  }

  /** The buffer part way through a stage. */
  function PartStage(y: seq<Complex>, k: nat, tw: seq<Complex>, j: nat, q: nat): (r: seq<Complex>)
    requires k >= 1 && |tw| == k && |y| % (2 * k) == 0
    ensures |r| == |y|
  {
    seq(|y|, p requires 0 <= p < |y| => if Visited(p, k, j, q) then StageAt(y, k, tw, p) else y[p])
  }

  /** Nothing is visited at the start of a stage, everything at its end. */
  lemma PartStageEnds(y: seq<Complex>, k: nat, tw: seq<Complex>)
    requires k >= 1 && |tw| == k && |y| % (2 * k) == 0
    ensures PartStage(y, k, tw, 0, 0) == y
    ensures PartStage(y, k, tw, k, 0) == Stage(y, k, tw)
  {
  }

  /** After the last pair of lane j (d pairs per lane), lane j + 1 begins. */
  lemma PartStageLane(y: seq<Complex>, k: nat, d: nat, tw: seq<Complex>, j: nat)
    requires k >= 1 && |tw| == k && |y| == 2 * k * d
    ensures |y| % (2 * k) == 0
    ensures PartStage(y, k, tw, j, d) == PartStage(y, k, tw, j + 1, 0)
  {
    DivModOf(|y|, 2 * k, d, 0);
    forall p | 0 <= p < |y|
      ensures Visited(p, k, j, d) == Visited(p, k, j + 1, 0)
    {
      Locate(p, k, |y|);
    }
  }

  /** Position i == q*2k + j with j < k: lane j, block q, and the partner i + k likewise. */
  lemma PairPlace(i: nat, k: nat, j: nat, q: nat)
    requires k >= 1 && j < k && i == q * (2 * k) + j
    ensures i / (2 * k) == q && i % (2 * k) == j && Lane(i, k) == j
    ensures (i + k) / (2 * k) == q && (i + k) % (2 * k) == j + k && Lane(i + k, k) == j
  {
    DivModOf(i, 2 * k, q, j);
    DivModOf(i + k, 2 * k, q, j + k);
  }

  /** A position of lane j in block q is one of the pair (q*2k + j, q*2k + j + k). */
  lemma PairOnly(p: nat, k: nat, j: nat, q: nat)
    requires k >= 1 && Lane(p, k) == j && p / (2 * k) == q
    ensures p == q * (2 * k) + j || p == q * (2 * k) + j + k
  {
    Euclid(p, 2 * k);
  }

  /** One butterfly of the inner loop: the pair (i, i + k) of lane j is written, nothing else. */
  lemma PartStageStep(y: seq<Complex>, k: nat, d: nat, tw: seq<Complex>, j: nat, q: nat, i: nat)
    requires k >= 1 && |tw| == k && |y| == 2 * k * d && j < k && q < d && i == q * (2 * k) + j
    ensures |y| % (2 * k) == 0 && i + k < |y|
    ensures var z := PartStage(y, k, tw, j, q);
            z[i] == y[i] && z[i + k] == y[i + k] &&
            PartStage(y, k, tw, j, q + 1) ==
              z[i := Add(y[i], Mul(tw[j], y[i + k]))][i + k := Sub(y[i], Mul(tw[j], y[i + k]))]
  {
    DivModOf(|y|, 2 * k, d, 0);
    MulAddBound(q, j + k, d, 2 * k);
    PairPlace(i, k, j, q);
    var z := PartStage(y, k, tw, j, q);
    var z' := PartStage(y, k, tw, j, q + 1);
    var w := z[i := Add(y[i], Mul(tw[j], y[i + k]))][i + k := Sub(y[i], Mul(tw[j], y[i + k]))];
    forall p | 0 <= p < |y|
      ensures z'[p] == w[p]
    {
      if p != i && p != i + k && Lane(p, k) == j && p / (2 * k) == q {
        PairOnly(p, k, j, q);
      }
    }
  }

  /**
   * for (i = j; i < nfft; i += kk) -- the butterflies of lane j with
   * twiddle (sr, -si): Y[i + k] = Y[i] - t, Y[i] += t where t = w * Y[i + k].
   */
  method Butterflies(Y: array<Complex>, off: nat, nfft: nat, k: nat, d: nat, j: nat, si: real, sr: real,
                     ghost y: seq<Complex>, ghost tw: seq<Complex>)
    requires k >= 1 && nfft == 2 * k * d && j < k && off + nfft <= Y.Length
    requires |y| == nfft && |tw| == k && tw[j] == Complex(sr, -si)
    requires nfft % (2 * k) == 0 && Y[off..off + nfft] == PartStage(y, k, tw, j, 0)
    modifies Y
    ensures Y[off..off + nfft] == PartStage(y, k, tw, j + 1, 0)
    ensures Y[..off] == old(Y[..off]) && Y[off + nfft..] == old(Y[off + nfft..])
  {
    var kk := k + k;
    Twice(k, d);
    var i := j;
    ghost var q := 0;
    while i < nfft
      invariant i == q * kk + j && q <= d
      invariant Y[off..off + nfft] == PartStage(y, k, tw, j, q)
      invariant Y[..off] == old(Y[..off]) && Y[off + nfft..] == old(Y[off + nfft..])
    {
      BlockIndex(q, j, d, kk);
      PartStageStep(y, k, d, tw, j, q, i);
      Butterfly(Y, off, nfft, i, k, si, sr);
      MulSucc(q, kk);
      i := i + kk;
      q := q + 1;
    }
    BlockIndex(q, j, d, kk);
    PartStageLane(y, k, d, tw, j);
  }

  /**
   * One butterfly on entries i and i + k of the segment at off:
   * dr = si*b.im + sr*b.re, di = sr*b.im - si*b.re; Y[i+k] = Y[i] - (dr, di); Y[i] += (dr, di).
   */
  method Butterfly(Y: array<Complex>, off: nat, nfft: nat, i: nat, k: nat, si: real, sr: real)
    requires k >= 1 && i + k < nfft && off + nfft <= Y.Length
    modifies Y
    ensures var z := old(Y[off..off + nfft]); var t := Mul(Complex(sr, -si), z[i + k]);
            Y[off..off + nfft] == z[i := Add(z[i], t)][i + k := Sub(z[i], t)]
    ensures Y[..off] == old(Y[..off]) && Y[off + nfft..] == old(Y[off + nfft..])
  {
    var ii, ik := off + i, off + i + k;
    var t := Rotated(si, sr, Y[ik]);
    Y[ik] := Sub(Y[ii], t);
    Y[ii] := Add(Y[ii], t);
  }

  /**
   * for (j = 0; j < k; ++j, h += d) -- one stage: lane j reads its twiddle
   * si = -T[h], sr = T[h + nfft/4] with h == j*d and runs its butterflies.
   */
  method StagePass(Y: array<Complex>, off: nat, nfft: nat, k: nat, d: nat, T: array<real>)
    requires k >= 1 && d >= 1 && nfft == 2 * k * d && off + nfft <= Y.Length && T.Length == nfft + nfft / 4
    modifies Y
    ensures nfft % (2 * k) == 0
    ensures Y[off..off + nfft] == Stage(old(Y[off..off + nfft]), k, StageTwiddles(T[..], nfft, k, d))
    ensures Y[..off] == old(Y[..off]) && Y[off + nfft..] == old(Y[off + nfft..])
  {
    DivModOf(nfft, 2 * k, d, 0);
    ghost var y := Y[off..off + nfft];
    ghost var tw := StageTwiddles(T[..], nfft, k, d);
    PartStageEnds(y, k, tw);
    var nfft4 := nfft / 4;
    var h := 0;
    var j := 0;
    while j < k
      invariant j <= k && h == j * d
      invariant Y[off..off + nfft] == PartStage(y, k, tw, j, 0)
      invariant Y[..off] == old(Y[..off]) && Y[off + nfft..] == old(Y[off + nfft..])
    {
      LaneBound(j, k, d);
      var si := -T[h];
      var sr := T[h + nfft4];
      Butterflies(Y, off, nfft, k, d, j, si, sr, y, tw);
      MulSucc(j, d);
      h := h + d;
      j := j + 1;
    }
  }

  /**
   * for (k = 1; k < nfft; k = kk) -- the stages of half-size 1, 2, 4, ...
   * nfft/2, each with d = nfft/(2k).
   */
  method RunStages(Y: array<Complex>, off: nat, nfft: nat, ghost m: nat, T: array<real>)
    requires nfft == Pow2(m) && off + nfft <= Y.Length && T.Length == nfft + nfft / 4
    modifies Y
    ensures Y[off..off + nfft] == Stages(old(Y[off..off + nfft]), T[..], m, 0)
    ensures Y[..off] == old(Y[..off]) && Y[off + nfft..] == old(Y[off + nfft..])
  {
    ghost var y := Y[off..off + nfft];
    var k := 1;
    ghost var s := 0;
    while k < nfft
      invariant s <= m && k == Pow2(s)
      invariant Stages(Y[off..off + nfft], T[..], m, s) == Stages(y, T[..], m, 0)
      invariant Y[..off] == old(Y[..off]) && Y[off + nfft..] == old(Y[off + nfft..])
    {
      ghost var z := Y[off..off + nfft];
      var kk, d := StageStart(nfft, m, k, s);
      StagePass(Y, off, nfft, k, d, T);
      StagesStep(z, T[..], m, s);
      k := kk;
      s := s + 1;
    }
    StagesDone(Y[off..off + nfft], T[..], m, s, k);
  }

  /** kk = k + k; d = nfft/kk; -- for k == 2^s below nfft == 2^m. */
  method StageStart(nfft: nat, ghost m: nat, k: nat, ghost s: nat) returns (kk: nat, d: nat)
    requires nfft == Pow2(m) && s <= m && k == Pow2(s) && k < nfft
    ensures s < m && kk == 2 * k && kk == Pow2(s + 1) && d == Pow2(m - s - 1) && d >= 1 && nfft == 2 * k * d
  {
    if s == m {
      assert false;
    }
    StageSizes(m, s);
    kk := k + k;
    d := nfft / kk;
    DivModOf(nfft, kk, Pow2(m - s - 1), 0);
  }

  /** Running stage s leaves the stages after it. */
  lemma StagesStep(z: seq<Complex>, T: seq<real>, m: nat, s: nat)
    requires s < m && |z| == Pow2(m) && |T| == |z| + |z| / 4
    ensures 2 * Pow2(s) * Pow2(m - s - 1) == |z| && |z| % (2 * Pow2(s)) == 0
    ensures Stages(z, T, m, s) ==
            Stages(Stage(z, Pow2(s), StageTwiddles(T, |z|, Pow2(s), Pow2(m - s - 1))), T, m, s + 1)
  {
    StageSizes(m, s);
  }

  /** Once k reaches nfft no stage is left. */
  lemma StagesDone(z: seq<Complex>, T: seq<real>, m: nat, s: nat, k: nat)
    requires s <= m && k == Pow2(s) && k >= Pow2(m) && |z| == Pow2(m) && |T| == |z| + |z| / 4
    ensures Stages(z, T, m, s) == z
  {
    if s < m {
      Pow2Monotone(s + 1, m);
    }
  }

  /**
   * fft_1d_c on Y[off .. off + nfft), nfft == 2^m, with the tables of
   * get_bittbl and get_cstbl: the closed forms for two and four values, the
   * bit reversal and the butterfly stages otherwise.
   */
  method Fft1d(Y: array<Complex>, off: nat, nfft: nat, ghost m: nat, bt: array<nat>, T: array<real>)
    requires nfft == Pow2(m) && off + nfft <= Y.Length && bt.Length == nfft && T.Length == nfft + nfft / 4
    requires forall i :: 0 <= i < nfft ==> bt[i] == Rev(i, m)
    modifies Y
    ensures Y[off..off + nfft] == Transform(old(Y[off..off + nfft]), T[..], m)
    ensures Y[..off] == old(Y[..off]) && Y[off + nfft..] == old(Y[off + nfft..])
  {
    if nfft < 2 {
      assert m == 0;
    } else if nfft == 2 {
      assert m == 1;
      var ny := Sub(Y[off], Y[off + 1]);
      Y[off] := Add(Y[off], Y[off + 1]);
      Y[off + 1] := ny;
    } else if nfft == 4 {
      Pow2Small(m);
      Closed4(Y, off);
    } else {
      Pow2Small(m);
      BitReverse(Y, off, nfft, bt, m);
      RunStages(Y, off, nfft, m, T);
    }
  }

  /** Powers of two below eight. */
  lemma Pow2Small(m: nat)
    ensures Pow2(m) == 1 <==> m == 0
    ensures Pow2(m) == 2 <==> m == 1
    ensures Pow2(m) == 4 <==> m == 2
  {
    if m >= 3 {
      Pow2Monotone(3, m);
    }
  }

  /** The nfft == 4 branch, with the inverse kernel's order of outputs 1 and 3. */
  method Closed4(Y: array<Complex>, off: nat)
    requires off + 4 <= Y.Length
    modifies Y
    ensures Y[off..off + 4] == Fft4(old(Y[off..off + 4]))
    ensures Y[..off] == old(Y[..off]) && Y[off + 4..] == old(Y[off + 4..])
  {
    var y0, y1, y2, y3 := Y[off], Y[off + 1], Y[off + 2], Y[off + 3];
    var dcr := y0.re + y1.re + y2.re + y3.re;
    var dci := y0.im + y1.im + y2.im + y3.im;
    var nyr := y0.re - y1.re + y2.re - y3.re;
    var nyi := y0.im - y1.im + y2.im - y3.im;
    var y1r := y0.re - y2.re + y1.im - y3.im;
    var y1i := y0.im - y1.re + y3.re - y2.im;
    var y3r := y0.re - y1.im + y3.im - y2.re;
    var y3i := y0.im - y2.im + y1.re - y3.re;
    Y[off] := Complex(dcr, dci);
    Y[off + 1] := Complex(y3r, y3i);
    Y[off + 2] := Complex(nyr, nyi);
    Y[off + 3] := Complex(y1r, y1i);
  }
}
