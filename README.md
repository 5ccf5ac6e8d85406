# Levinson-Durbin, reflection-to-AR and radix-2 inverse FFT, modelled in Dafny

This project models three kernels of a C library of signal-processing
functions that work along one axis `dim` of an R x C x S x H tensor stored
in column- or row-major order:

- `ac2ar_levdurb_s/_d/_c/_z` (c/ac2ar_levdurb.c) takes each vector of Lx
  autocorrelation values to the Lx-1 autoregressive (AR) coefficients that
  the Levinson-Durbin recursion computes. There is a closed form for Lx == 2.
- `rc2ar_s/_d/_c/_z` (c/rc2ar.c) takes each vector of L reflection
  coefficients to the L AR coefficients by the step-up recursion, then
  negates them.
- `ifft_rad2_s/_d/_c/_z` (c/ifft.rad2.c) is the inverse radix-2 FFT of each
  vector:
  - the real variants take nfft/2+1 non-negative-frequency values to nfft
    real samples;
  - the complex variants take nfft values to nfft complex samples.

  Its helpers are modelled too:
  - `get_bittbl`, the bit-reversal table;
  - `get_cstbl_s/_d`, the sine table built by recurrences and mirroring;
  - `fft_1d_c`, the in-place transform: closed forms for 2 and 4 points,
    bit-reversal and butterfly stages above that.

Modules:

- **`Strided`** (strided.dfy) is the index arithmetic shared by all three
  drivers:
  - the slice length, the stride K, the block size B, and the counts V and G;
  - the fast path `K == 1 && (G == 1 || B == 1)`;
  - the walk of slices as `Index(w, L, g, b, l)`;
  - the loop invariant `Mapped`, which says that the slices visited so far
    have been written.

  Each driver is then specified by `MapSlices`: slice (g, b) of the output
  is the kernel applied to slice (g, b) of the input, and nothing past the
  output is touched.
- **`LevDurb`** (levdurb.dfy) is the Levinson-Durbin recursion as functions.
  It is generic over an arithmetic `Ops`, instantiated with reals and with
  complex numbers, where the update conjugates.
  - For reals it proves that the coefficients solve the Yule-Walker normal
    equations and that the error is the prediction error.
  - It also proves that the coefficients are the step-up of the recursion's
    own reflection coefficients.
- **`LevKernel`** (levkernel.dfy) is the pointer-walking loops of
  `ac2ar_levdurb_*`, with arrays for X, Y and the scratch buffer A, proved
  against `LevDurb`.
- **`ReflToAr`** (rc2ar.dfy) has two parts:
  - the step-up recursion, its inverse (the step-down), and the round trip;
  - the `rc2ar_*` loops, proved against it.
- **`Bits`**, **`CsTbl`** and **`Fft`** (bits.dfy, cstbl.dfy, fft.dfy) model
  the three helpers of c/ifft.rad2.c.
- **`IfftKernel`** (ifftkernel.dfy) models the four drivers of
  c/ifft.rad2.c.
- **`Arith`** and **`Cplx`** are arithmetic support.

Single and double precision are one model over exact `real`. A complex
buffer of interleaved (re, im) floats is an `array<Complex>`. The C
functions' pointers become indices that move as the source's pointers move.

## Model

| member | source | states |
|---|---|---|
| Bits.Rev | c/ifft.rad2.c:43-56 | the table entry for i is i with its m bits reversed, and lies below 2^m |
| Bits.RevRev | c/ifft.rad2.c:43-56 | reversing the bits twice gives i back, so the bit-reversal reorder is an involution |
| Bits.RevPermutes | c/ifft.rad2.c:43-56 | the table is one-to-one on 0..2^m-1 and each entry's reversal is its index, so it is a permutation |
| Bits.RevNext | c/ifft.rad2.c:50-52 | the carry loop ("clear leading ones from the top bit, set the first zero") turns the entry for i into the entry for i+1 |
| Bits.RevZero | c/ifft.rad2.c:47 | the first entry, 0, is the reversal of 0 |
| Bits.NotAllOnes | c/ifft.rad2.c:51 | an entry other than the last is not all ones, so the carry loop stops before k reaches 0 |
| Bits.CarryLoop | c/ifft.rad2.c:50-52 | the while loop returns Carry(j, k), the reversed increment |
| Bits.GetBitTbl | c/ifft.rad2.c:43-56 | after get_bittbl every entry bt[i] is Rev(i, m) |
| CsTbl.SineRotates | c/ifft.rad2.c:64-69 | the sine recurrence (s += ds; ds -= t*s) is the three-term rotation s_{i+2} = (2-t) s_{i+1} - s_i |
| CsTbl.CosineRotates | c/ifft.rad2.c:64-72 | the cosine recurrence (c -= dc; dc += t*c) obeys the same three-term rotation |
| CsTbl.TableIsWave | c/ifft.rad2.c:74-75 | a mirrored table is determined by its first quarter: each entry is that quarter's odd-symmetric wave, and entries nfft apart are equal |
| CsTbl.TableIs | c/ifft.rad2.c:59-76 | a table seeded by the two recurrences and then mirrored and negated is exactly CsTable |
| CsTbl.SeedQuarter | c/ifft.rad2.c:62-73 | the first quarter wave is seeded as the recurrences give it, and nothing past it is touched |
| CsTbl.SeedSines | c/ifft.rad2.c:69 | the entries below nfft/8 are the sine recurrence, and the rest are unchanged |
| CsTbl.SeedCosines | c/ifft.rad2.c:71-72 | the entries from nfft/4 back to nfft/8 are the cosine recurrence, and the rest are unchanged |
| CsTbl.Mirror | c/ifft.rad2.c:74 | T[nfft/2 - i] = T[i] for i < nfft/4, and only those cells change |
| CsTbl.Negate | c/ifft.rad2.c:75 | T[i + nfft/2] = -T[i] across the rest of the table, and only those cells change |
| CsTbl.GetCsTable | c/ifft.rad2.c:59-76 | the table is seeded and mirrored; for nfft >= 8 it equals CsTable; for nfft < 8 the first quarter is left as it was |
| Fft.PermuteTwice | c/ifft.rad2.c:129-137 | the bit-reversal reorder undoes itself |
| Fft.Rotated | c/ifft.rad2.c:145-151 | the product formed from (sr, si) and the odd entry is multiplication by the twiddle sr - i si |
| Fft.StagePair | c/ifft.rad2.c:146-153 | each butterfly can be inverted: the sum of its outputs is twice the upper input, the difference twice the twiddled lower input |
| Fft.Fft2IsDft | c/ifft.rad2.c:102-108 | the closed form for nfft == 2 is the 2-point DFT |
| Fft.Fft4AsWrittenIsForwardDft | c/ifft.rad2.c:109-121 | the closed form for nfft == 4, as written, is the forward 4-point DFT (roots e^{-2 pi i k n/4}) |
| Fft.Fft4AsWrittenCounterexample | c/ifft.rad2.c:115-118 | on the impulse at position 1 the closed form gives -i at output 1, while the inverse DFT gives +i |
| Fft.Fft4IsInverseDft | c/ifft.rad2.c:109-121 | the corrected closed form (outputs 1 and 3 exchanged) is the inverse 4-point DFT |
| Fft.PartlyPermutedEnds | c/ifft.rad2.c:129-137 | the reorder loop starts from the input and ends at Permute |
| Fft.PartlyPermutedStep | c/ifft.rad2.c:131-136 | one pass swaps entries n and Rev(n) when n < Rev(n), and does nothing otherwise |
| Fft.Swap | c/ifft.rad2.c:133-135 | two entries of the vector change places, and nothing else changes |
| Fft.BitReverse | c/ifft.rad2.c:129-137 | the vector becomes Permute of its old value, and the rest of Y is unchanged |
| Fft.PartStageEnds | c/ifft.rad2.c:143-154 | a butterfly stage starts from its input and, after all lanes, is Stage |
| Fft.PartStageLane | c/ifft.rad2.c:143-154 | finishing every block of lane j is starting lane j+1 |
| Fft.PartStageStep | c/ifft.rad2.c:146-153 | one butterfly writes y[i] + w y[i+k] and y[i] - w y[i+k] at i and i+k of the partly staged vector |
| Fft.Butterfly | c/ifft.rad2.c:148-152 | in place: Y[i] += w Y[i+k] and Y[i+k] = old Y[i] - w Y[i+k], and nothing else changes |
| Fft.Butterflies | c/ifft.rad2.c:146-153 | the inner loop takes lane j of the stage from PartStage(j) to PartStage(j+1) |
| Fft.StagePass | c/ifft.rad2.c:143-154 | one pass of the stage loop applies Stage with the stage's twiddles taken from the table |
| Fft.StageStart | c/ifft.rad2.c:140-142 | the stage loop doubles k to the next power of two and the twiddle step d halves, with nfft == 2 k d |
| Fft.StagesStep | c/ifft.rad2.c:140-155 | running the stages from s is one Stage at k = 2^s followed by the stages from s+1 |
| Fft.StagesDone | c/ifft.rad2.c:140 | when k reaches nfft no stage is left |
| Fft.RunStages | c/ifft.rad2.c:140-155 | the stage loop turns the vector into Stages(old vector) |
| Fft.Closed4 | c/ifft.rad2.c:109-121 | the nfft == 4 branch, corrected, writes the inverse 4-point DFT of the vector in place |
| Fft.Fft1d | c/ifft.rad2.c:99-157 | fft_1d_c replaces the nfft values with Transform of the old values (nothing below 2, closed forms for 2 and 4, bit reversal then stages above) and leaves the rest of Y alone |
| IfftKernel.ScaleTimesLength | c/ifft.rad2.c:227 | the scale is positive, and nfft times it is 2 sqrt 2 with sc and 1 without |
| IfftKernel.HermitianSymmetric | c/ifft.rad2.c:247-249 | the extended spectrum keeps the given Lx values and is conjugate-symmetric, X[nfft-l] = conj X[l], with X[0] real |
| IfftKernel.RealIsComplexRe | c/ifft.rad2.c:245-253 | the real variant is the real part of the complex variant applied to the Hermitian extension |
| IfftKernel.HermitianTransformReal | c/ifft.rad2.c:247-252 | for nfft of 1, 2 and 4 the transform of a Hermitian extension has zero imaginary part, so keeping only real parts loses nothing |
| IfftKernel.TransformTableFree | c/ifft.rad2.c:99-121 | below eight points the transform does not read the sine table |
| IfftKernel.RealTableFree | c/ifft.rad2.c:242-243 | below eight points the real variant's result does not depend on the table's (unset) contents |
| IfftKernel.RealIfftUnit | c/ifft.rad2.c:231-234 | for nfft == 1 the real transform is the scaled real part |
| IfftKernel.ComplexIfftUnit | c/ifft.rad2.c:395-398 | for nfft == 1 the complex transform is the scaled value |
| IfftKernel.RealSpectraOne | c/ifft.rad2.c:231-234 | for nfft == 1 the per-vector map is s times the real part |
| IfftKernel.RealOutSizeIs | c/ifft.rad2.c:225-226 | the output holds one nfft-vector per input slice: G B nfft values |
| IfftKernel.MapSlicesOfOne | c/ifft.rad2.c:233 | with slices of length 1 the slice map is an element-wise map, so the nfft == 1 branch can ignore the layout |
| IfftKernel.HermitianFill | c/ifft.rad2.c:247-250 | Y1 becomes the Hermitian extension of the slice read with stride K, and X's position comes back to the start of the slice |
| IfftKernel.RealScatter | c/ifft.rad2.c:252 | the strided output slice becomes s times the real parts of Y1, and nothing else in Y changes |
| IfftKernel.RealVector | c/ifft.rad2.c:286-291 | one vector: the strided output slice is RealIfft of the input slice, and nothing else changes |
| IfftKernel.IfftReal | c/ifft.rad2.c:221-300 | returns 1 iff dim > 3 or Lx != nfft/2+1; leaves Y alone on error, for nfft == 0 and for an empty tensor; otherwise Y's first G B nfft values are MapSlices of the real inverse transform and the rest of Y is unchanged |
| IfftKernel.RealOne | c/ifft.rad2.c:231-234 | nfft == 1: the output has N values, each s times the real part of its input |
| IfftKernel.RealOneWalk | c/ifft.rad2.c:233 | the corrected nfft == 1 loop writes MapSlices of the one-point transform |
| IfftKernel.RealMany | c/ifft.rad2.c:236-297 | nfft >= 2: Y's output region is MapSlices of the real inverse transform and the rest of Y is unchanged |
| IfftKernel.RealTables | c/ifft.rad2.c:238-243 | fresh tables: bit-reversal entries are Rev(i, m), and the sine table gives the real per-vector map RealSpectra |
| IfftKernel.RealTableIs | c/ifft.rad2.c:242-243 | a table from get_cstbl_s yields exactly the RealSpectra map, for every nfft including those whose table stays unset |
| IfftKernel.RealLoops | c/ifft.rad2.c:245-294 | the three loop nests (Lx == N, contiguous, strided) all leave every slice mapped and the tail untouched |
| IfftKernel.RealUnit | c/ifft.rad2.c:233 | the corrected loop: Y[n] = s Re X[n] for n < N, and the rest is unchanged |
| IfftKernel.RealUnitAsWrittenCounterexample | c/ifft.rad2.c:231-234 | for X = [1, 2] the loop as written gives [s, 0], not [s, 2 s] |
| IfftKernel.RealContiguous | c/ifft.rad2.c:261-279 | the K == 1 loop maps all V slices in order and leaves the tail alone |
| IfftKernel.RealStrided | c/ifft.rad2.c:282-293 | the group loop maps all G groups and leaves the tail alone |
| IfftKernel.RealGroup | c/ifft.rad2.c:282-293 | one group: its B slices are mapped, and X and Y move to the next group |
| IfftKernel.RealVisit | c/ifft.rad2.c:284-292 | one slice of a group is mapped, and the pointers move as the loop header moves them |
| IfftKernel.ComplexSpectraOne | c/ifft.rad2.c:395-398 | for nfft == 1 the per-vector map scales by s |
| IfftKernel.ComplexTableIs | c/ifft.rad2.c:405-406 | a table from get_cstbl_s yields exactly the ComplexSpectra map |
| IfftKernel.ComplexTables | c/ifft.rad2.c:402-406 | fresh tables: bit-reversal entries are Rev(i, m), and the sine table gives ComplexSpectra |
| IfftKernel.IfftComplex | c/ifft.rad2.c:385-452 | returns 1 iff dim > 3 or Lx != nfft; leaves Y alone on error, for nfft == 0 and for an empty tensor; otherwise Y's first N values are MapSlices of the complex inverse transform and the rest is unchanged |
| IfftKernel.ComplexOne | c/ifft.rad2.c:395-398 | nfft == 1: every complex value is scaled by s |
| IfftKernel.ComplexMany | c/ifft.rad2.c:399-449 | nfft >= 2: Y's first N values are MapSlices of the complex inverse transform |
| IfftKernel.ComplexLoops | c/ifft.rad2.c:408-447 | the three loop nests all leave every slice mapped and the tail untouched |
| IfftKernel.ComplexContiguous | c/ifft.rad2.c:421-430 | the K == 1 loop maps all V slices in place in Y |
| IfftKernel.ComplexVisitInPlace | c/ifft.rad2.c:425-428 | one contiguous slice is copied to Y, transformed and scaled there, and X and Y advance by nfft |
| IfftKernel.ComplexInPlace | c/ifft.rad2.c:410-413 | Y's slice becomes ComplexIfft of X's slice, and nothing else in Y changes |
| IfftKernel.CopyRun | c/ifft.rad2.c:410 | n values are copied from X to Y, and nothing else in Y changes |
| IfftKernel.ScaleRun | c/ifft.rad2.c:413 | n values of Y are multiplied by s, and nothing else changes |
| IfftKernel.ComplexStrided | c/ifft.rad2.c:431-446 | the group loop maps all G groups through the scratch Y1 |
| IfftKernel.ComplexGroup | c/ifft.rad2.c:435-444 | one group: its B slices are mapped, and X and Y move to the next group |
| IfftKernel.ComplexVisit | c/ifft.rad2.c:437-443 | one strided slice is mapped, and X and Y move as the loop header moves them |
| IfftKernel.ComplexVector | c/ifft.rad2.c:439-442 | the strided output slice is ComplexIfft of the strided input slice, and nothing else in Y changes |
| IfftKernel.GatherRun | c/ifft.rad2.c:439 | Y1 becomes the input slice read with stride K |
| IfftKernel.ComplexScatter | c/ifft.rad2.c:442 | the strided output slice becomes s times Y1, and nothing else changes |
| LevDurb.GrowAt | c/ac2ar_levdurb.c:72-74 | order p+1 keeps coefficient j as y[j] + a snap(y[p-1-j]), where snap is the identity for reals and the conjugate for complex values |
| LevDurb.LevDurbPair | c/ac2ar_levdurb.c:33-35 | for Lx == 2 the output is the single coefficient x1/x0 |
| LevDurb.LevSolves | c/ac2ar_levdurb.c:61-76 | for reals, the order-n coefficients solve the normal equations sum_j x[\|i-j\|] y[j] = x[i+1] for i < n, and the error is x0 - sum_j x[j+1] y[j] |
| LevDurb.LevSolvesSym | c/ac2ar_levdurb.c:61-76 | the same normal equations, stated over the symmetric Toeplitz sequence of x, hold at every order |
| LevDurb.SolvesStep | c/ac2ar_levdurb.c:66-76 | one step of the recursion keeps the normal equations and the error solved, one order higher |
| LevDurb.LevBaseSolves | c/ac2ar_levdurb.c:63-65 | the order-1 start solves the order-1 normal equation and error |
| LevDurb.RealBase | c/ac2ar_levdurb.c:63-65 | the first coefficient is x1/x0 and the first error x0 - (x1/x0) x1 |
| LevDurb.RealStep | c/ac2ar_levdurb.c:66-76 | one step: a e = -acc, the new last entry is -a, each old entry becomes y[j] + a y[m-1-j], and e becomes e (1 - a^2) |
| LevDurb.StepError | c/ac2ar_levdurb.c:75 | the updated error e (1 - a^2) is the new order's prediction error |
| LevDurb.StepRow | c/ac2ar_levdurb.c:66-74 | every row of the normal equations holds for the updated coefficients |
| LevDurb.DotReverse | c/ac2ar_levdurb.c:72-74 | against the symmetric Toeplitz sequence, the reversed coefficients give the mirrored row, which is why the update can read its snapshot backwards |
| LevDurb.AccIsDot | c/ac2ar_levdurb.c:68-69 | the accumulator x[p+1] - sum_q x[p-q] y[q] is a row of the Toeplitz system |
| LevDurb.LevIsStepUp | c/ac2ar_levdurb.c:63-76 | for reals, the coefficients at every order are the step-up of the recursion's own reflection coefficients, the values written at y[p], the negation of what the commented-out rcs lines store |
| LevDurb.GrowIsExtend | c/ac2ar_levdurb.c:72-74 | one Levinson-Durbin update is one step-up with reflection coefficient -a, as rc2ar.c:35-41 computes it |
| LevDurb.StepUpGrow | c/ac2ar_levdurb.c:66-76 | if order n-1 is the step-up of its reflections, then so is order n |
| LevDurb.ReflectionsSnoc | c/ac2ar_levdurb.c:64 | the reflection coefficients of order n are those of order n-1 followed by the new last coefficient |
| LevDurb.LevStepDown | c/ac2ar_levdurb.c:25-133 | with no unit reflection coefficient, stepping the AR output back down recovers the reflection coefficients |
| LevDurb.LevRc2Ar | c/ac2ar_levdurb.c:63-76 | for reals, rc2ar applied to the values written at y[p] gives the negated Levinson-Durbin coefficients |
| LevDurb.ErrorShrinks | c/ac2ar_levdurb.c:75 | a step whose value a has \|a\| < 1 keeps a positive error positive and does not increase it |
| LevDurb.StepErrorBound | c/ac2ar_levdurb.c:75 | the update e (1 - a^2) lies in (0, e] for e > 0 and \|a\| < 1 |
| LevDurb.ErrorsDecrease | c/ac2ar_levdurb.c:61-76 | with x0 > 0 and every value written at y[p] strictly between -1 and 1, every order's error is positive, at most x0, and no larger than the previous order's |
| LevDurb.BaseError | c/ac2ar_levdurb.c:63-65 | the order-1 error x0 - y0 x1 lies in (0, x0] when x0 > 0 and \|y0\| < 1 |
| LevDurb.CLevDurbLift | c/ac2ar_levdurb.c:4-5 | the complex recursion on input with zero imaginary parts gives the real coefficients with zero imaginary parts |
| LevDurb.LevDurbCarried | c/ac2ar_levdurb.c:296-325 | any map that carries one kernel's arithmetic into another's commutes with the whole recursion |
| LevDurb.LevOrderCarried | c/ac2ar_levdurb.c:296-325 | the same at every order, coefficients and error |
| LevDurb.LiftCarries | c/ac2ar_levdurb.c:296-325 | embedding the reals as complex values with zero imaginary part carries the real arithmetic of lines 61-76 into the complex arithmetic, including the order-1 error x0 (1 - \|a\|^2) |
| LevKernel.AcToArReal | c/ac2ar_levdurb.c:25-133 | returns 1 iff dim > 3; leaves Y alone for an empty tensor or Lx < 2; otherwise Y's first G B (Lx-1) values are MapSlices of LevDurb and the rest of Y is unchanged |
| LevKernel.AcToArComplex | c/ac2ar_levdurb.c:247-410 | the same for complex data, with the conjugating recursion CLevDurb; on input with zero imaginary parts this is LevDurb (LevDurb.CLevDurbLift) |
| LevKernel.LevKernel | c/ac2ar_levdurb.c:25-133 | the shared driver over any involutive arithmetic: status, no-op cases, and output MapSlices of LevDurbWith |
| LevKernel.LevContiguous | c/ac2ar_levdurb.c:84-103 | the K == 1 loop maps all V slices, with Y advancing by P per vector |
| LevKernel.LevStrided | c/ac2ar_levdurb.c:106-126 | the group loop maps all G groups |
| LevKernel.LevGroup | c/ac2ar_levdurb.c:106-126 | one group: its B slices are mapped, and X and Y move to the next group |
| LevKernel.LevVisit | c/ac2ar_levdurb.c:108-125 | one slice is mapped; X ends Lx K further on (or where it started for Lx == 2), and Y where it started |
| LevKernel.LevVector | c/ac2ar_levdurb.c:108-125 | the strided output slice is LevDurbWith of the strided input slice, and nothing else in Y changes |
| LevKernel.PairSlice | c/ac2ar_levdurb.c:50 | Lx == 2: Y gets X[K]/X[0], and nothing else changes |
| LevKernel.LevSlice | c/ac2ar_levdurb.c:110-124 | Lx >= 3: the output slice is the full recursion, and X advances by Lx K |
| LevKernel.LevFirst | c/ac2ar_levdurb.c:110-113 | the start writes order 1 and returns its error |
| LevKernel.NextOrderSlice | c/ac2ar_levdurb.c:114-124 | one pass of the p loop takes the output slice and e from order p to order p+1 |
| LevKernel.LevStepSlice | c/ac2ar_levdurb.c:116-123 | one pass writes LevStep of the current order and returns its error |
| LevKernel.Reflect | c/ac2ar_levdurb.c:116-119 | the reflection coefficient a is computed from the accumulator and e, and -a is stored at position p |
| LevKernel.Predict | c/ac2ar_levdurb.c:116-117 | the inner loop computes the accumulator x[p+1] - sum_q x[p-q] y[q] |
| LevKernel.Snap | c/ac2ar_levdurb.c:120 | the scratch A receives the current coefficients in reverse order, conjugated for complex data |
| LevKernel.Update | c/ac2ar_levdurb.c:121-122 | each coefficient j < p becomes Grow's entry j, and the rest of the slice is unchanged |
| ReflToAr.ShrinkExtend | c/rc2ar.c:35-41 | with c not +-1, the step-down undoes one step-up |
| ReflToAr.UnlatticeLattice | c/rc2ar.c:39 | one lattice update can be undone when c is not +-1 |
| ReflToAr.StepDownStepUp | c/rc2ar.c:31-42 | with no coefficient equal to +-1, the step-down recovers the reflection coefficients from the step-up |
| ReflToAr.SweepIsStepUp | c/rc2ar.c:35-41 | after steps 1..n-1 of the in-place loop, the first n values are the step-up of the first n inputs, and the rest are untouched |
| ReflToAr.StepExtends | c/rc2ar.c:37-40 | one pass of the l loop extends the step-up by one coefficient |
| ReflToAr.Rc2ArWithIsStepUp | c/rc2ar.c:31-42 | the per-vector result is the negated step-up of the input |
| ReflToAr.Rc2ArIsStepUp | c/rc2ar.c:31-43 | rc2ar for reals is minus the step-up recursion |
| ReflToAr.Rc2ArRoundTrip | c/rc2ar.c:31-43 | with no coefficient equal to +-1, negating rc2ar's output and stepping it down recovers the input |
| ReflToAr.StepUpLift | c/rc2ar.c:185-196 | on real inputs the complex step-up is the real one |
| ReflToAr.ExtendLift | c/rc2ar.c:189-194 | on real inputs one complex update is the real one |
| ReflToAr.CRc2ArLift | c/rc2ar.c:168-198 | rc2ar_c on real data agrees with rc2ar_s |
| ReflToAr.ComplexScratchAsWritten | c/rc2ar.c:179-191 | as written: step l writes float offsets 0 .. 2l+1 of the L-float scratch and walks the pointer back to its start; the writes stay in bounds exactly when 2l+2 <= L, so the last step writes offset 2L-1 |
| ReflToAr.Rc2ArReal | c/rc2ar.c:18-90 | returns 1 iff dim > 3; leaves Y alone then and for an empty tensor; otherwise Y's first N values are MapSlices of Rc2Ar and the rest are unchanged |
| ReflToAr.Rc2ArComplex | c/rc2ar.c:168-255 | the same for complex data with CRc2Ar, using a scratch of L complex values |
| ReflToAr.Rc2ArKernel | c/rc2ar.c:18-90 | the shared driver over any lattice update and negation |
| ReflToAr.Rc2ArContiguous | c/rc2ar.c:50-65 | the K == 1 loop maps all V slices in place in Y |
| ReflToAr.Rc2ArStrided | c/rc2ar.c:68-83 | the group loop maps all G groups |
| ReflToAr.Rc2ArGroup | c/rc2ar.c:68-83 | one group: its B slices are mapped, and the position moves to the next group |
| ReflToAr.Rc2ArVisit | c/rc2ar.c:70-82 | one slice is mapped, and X and Y move L K further |
| ReflToAr.Rc2ArSlice | c/rc2ar.c:72-81 | the strided output slice is Rc2ArWith of the strided input slice, and nothing else changes |
| ReflToAr.CopySlice | c/rc2ar.c:72 | the input slice is copied to the output slice |
| ReflToAr.SweepSlice | c/rc2ar.c:74-80 | the l loop leaves the slice at Sweep, the in-place step-up |
| ReflToAr.StepSlice | c/rc2ar.c:76-79 | one pass of the l loop applies RcStep to the slice |
| ReflToAr.LoadScratch | c/rc2ar.c:76 | the scratch y receives the first l+1 values of the slice |
| ReflToAr.UpdateSlice | c/rc2ar.c:77-78 | Y[q] -= Y[l] y[l-1-q] for q < l, which is RcStep |
| ReflToAr.NegateSlice | c/rc2ar.c:81 | every value of the slice is negated |
| Strided.Shape | c/rc2ar.c:46-48 | for a non-empty tensor L, K and B are at least 1, V L = N, G B = V, and G >= 1 |
| Strided.FastPathIffUnitStride | c/rc2ar.c:46-50 | the fast-path test K == 1 && (G == 1 \|\| B == 1) holds exactly when K == 1, and otherwise B == K |
| Strided.SizeSplits | c/rc2ar.c:46 | N is the product of the outer size, L, and the stride K |
| Strided.WalkOf | c/rc2ar.c:46-48 | the walk of a non-empty tensor covers N = G B L values in NumSlices slices |
| Strided.IndexBound | c/rc2ar.c:68-72 | every position visited lies below G B L |
| Strided.IndexInjective | c/rc2ar.c:68-72 | no position is visited twice: distinct (g, b, l) give distinct indices |
| Strided.IndexOfSlots | c/rc2ar.c:68-72 | every position below G B L is visited by some (g, b, l) |
| Strided.MapSlicesExt | c/rc2ar.c:46-84 | MapSlices depends only on the values f takes |
| Strided.MappedNext | c/rc2ar.c:70 | writing slice (g, b) and nothing else extends the loop invariant to (g, b+1) |
| Strided.MappedGroup | c/rc2ar.c:68 | finishing a group's B slices is starting the next group |
| Strided.MappedAll | c/rc2ar.c:68-84 | when the group loop ends, the output is MapSlices of the input |
| Strided.NextInGroup | c/rc2ar.c:70 | the header step X -= K L - 1 after a slice lands on the next slice of the group |
| Strided.NextGroup | c/rc2ar.c:68 | the header step X += B (L-1) after a group lands on the next group |
| Strided.SingleSlice | c/rc2ar.c:31 | when L == N the walk is a single contiguous slice |

## Left out

- Allocation failure is not modelled. The `malloc` failure branches and
  their `fprintf`/`perror` messages are left out, because the model's
  scratch buffers are always allocated.
- The error messages printed for `dim > 3` and for a bad Lx are not
  modelled. Only the status returned is.
- Floating point is not modelled. Every float and double computation is
  exact `real` arithmetic, so the `_s` and `_d` variants (and `_c` and `_z`)
  share one model.
  - Rounding is not modelled.
  - `ifft_rad2_z` declares `s` and `Y1` as `float` (c/ifft.rad2.c:461,
    503); the model does not capture this precision loss.
- The libm values are parameters. `get_cstbl` computes `sin(pi/nfft)` and a
  `sqrt`; these are the parameters `sinv` and `root`. M_SQRT2 and M_SQRT1_2
  are constants written to the header's digits.
- Fft.Transform: it is proved to be the inverse DFT for nfft of 2 and 4
  only. For nfft >= 8 the twiddles come from the `sinv` and `root`
  parameters, so it is specified as the bit-reversal followed by the
  butterfly stages, not as the DFT.
- The nfft==1 branch of `ifft_rad2_c` copies 2N floats (c/ifft.rad2.c:397).
  The model covers this as N complex values.
- IfftKernel.IfftReal and IfftKernel.IfftComplex require nfft to be a power
  of two, which c/ifft.rad2.c:10 states as the algorithm's domain. The code
  does not check it.
- LevKernel.AcToArReal, LevKernel.AcToArComplex, ReflToAr.Rc2ArReal,
  ReflToAr.Rc2ArComplex and IfftKernel.IfftComplex require X and Y to be
  different arrays. In-place use, where Y aliases X, is not modelled. In
  IfftKernel.IfftReal, X and Y have different element types, so they
  cannot alias.
- Four undefined names in c/ifft.rad2.c are modelled as the evident
  intent:
  - the drivers call `ifft_1d_s` / `ifft_1d_c`, which are not defined in the
    file; the model calls `fft_1d_c` (Fft.Fft1d);
  - `X1` at c/ifft.rad2.c:289 is modelled as `Y1`;
  - `Ly` at c/ifft.rad2.c:434 is modelled as `nfft`.
- Part of the sine table stays unset for nfft < 8. For nfft below 8,
  `get_cstbl` leaves the table partly unset. The model leaves those cells as
  they were and proves that the transform never reads them
  (IfftKernel.RealTableFree, IfftKernel.TransformTableFree).
- Division by zero is not an error path in the code. The model's division
  is total: a zero divisor gives 0.
  - The normal-equation lemmas (LevDurb.LevSolves and the lemmas under it)
    assume `Regular(x)`: x0 != 0 and no intermediate error is 0.
  - The step-down lemmas assume no reflection coefficient is +-1.
- c/ac2ar_levdurb.c:285 writes a value that is never read; the model
  leaves that write out.
- ReflToAr.CRc2Ar: the complex step-up uses the plain complex product, as
  c/rc2ar.c:192-193 writes it, not the conjugate that the complex
  Levinson-Durbin update uses.
  - The model relates the two files only for real data
    (LevDurb.LevIsStepUp, LevDurb.LevStepDown, LevDurb.LevRc2Ar,
    ReflToAr.CRc2ArLift).
- The header comment of c/ifft.rad2.c:8 says the scale is sqrt(0.5/n). The
  code uses 2 sqrt(2)/nfft (c/ifft.rad2.c:227). The model follows the code
  (IfftKernel.ScaleOf).
- The `fft.fftw` variants and the rest of the library are not part of this
  model.

## Findings

| source | as written | input that shows it | evidently intended | confidence | as-written member | corrected member |
|---|---|---|---|---|---|---|
| c/rc2ar.c:179-191 | `rc2ar_c` allocates L floats of scratch, but at step l the copy loop writes 2l+2 floats, which is 2L at the last step | any complex vector with L >= 2, e.g. L = 2 writes 4 floats into a buffer of 2 | a scratch of L complex values (2L floats) | not executed | ReflToAr.ComplexScratchAsWritten | ReflToAr.Rc2ArComplex |
| c/ifft.rad2.c:109-121 | the nfft == 4 closed form computes the forward DFT (output 1 is y0 - i y1 - y2 + i y3), while the butterfly stages for nfft >= 8 use the inverse kernel | X = [0, 1, 0, 0] gives -i at output 1; the inverse DFT gives +i | the inverse DFT, with outputs 1 and 3 exchanged | not executed | Fft.Fft4AsWrittenCounterexample | Fft.Fft4IsInverseDft |
| c/ifft.rad2.c:231-234 | the nfft == 1 branch of the real variants steps through X one float at a time, so Y[n] reads the imaginary part of X[n/2] for odd n | N = 2, X = [1+0i, 2+0i] gives Y = [s, 0] | Y[n] = s Re X[n] | not executed | IfftKernel.RealUnitAsWrittenCounterexample | IfftKernel.RealUnit |
