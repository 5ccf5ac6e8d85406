/**
 * The twiddle table of get_cstbl_s / get_cstbl_d (c/ifft.rad2.c:59-96): an
 * array of nfft + nfft/4 values meant to be sin(2*pi*i/nfft). The first
 * quarter wave is seeded by two recurrences (sines from the front, cosines
 * from the quarter point backwards); two in-place loops then mirror the
 * quarter into the half wave and negate the half wave into the rest.
 * The values the source takes from sin, sqrt and M_SQRT1_2 are parameters.
 */
module CsTbl {
  import opened Arith

  /** One state of an oscillator recurrence: the value and its pending step. */
  datatype Osc = Osc(u: real, du: real)

  /** (s_i, ds_i) of the sine recurrence: s_0 = 0, s += ds, then ds -= t*s. */
  function SineRun(ds0: real, t: real, i: nat): Osc
  {
    if i == 0 then Osc(0.0, ds0)
    else
      var p := SineRun(ds0, t, i - 1);
      Osc(p.u + p.du, p.du - t * (p.u + p.du))
  }

  /** (c_i, dc_i) of the cosine recurrence: c_0 = 1, c -= dc, then dc += t*c. */
  function CosineRun(dc0: real, t: real, i: nat): Osc
  {
    if i == 0 then Osc(1.0, dc0)
    else
      var p := CosineRun(dc0, t, i - 1);
      Osc(p.u - p.du, p.du + t * (p.u - p.du))
  }

  /**
   * The sine recurrence is the three-term recurrence of a rotation by a
   * fixed step, s_{i+2} = (2 - t) s_{i+1} - s_i; with t = 4 sin^2(pi/nfft)
   * the factor 2 - t is 2 cos(2 pi/nfft).
   */
  lemma SineRotates(ds0: real, t: real, i: nat)
    ensures SineRun(ds0, t, i + 2).u == (2.0 - t) * SineRun(ds0, t, i + 1).u - SineRun(ds0, t, i).u
  {
    var s0, s1 := SineRun(ds0, t, i), SineRun(ds0, t, i + 1);
    assert s1 == Osc(s0.u + s0.du, s0.du - t * s1.u);
    assert SineRun(ds0, t, i + 2).u == s1.u + s1.du;
    Distrib(t, s1.u);
  }

  /** The cosine recurrence is the same rotation: c_{i+2} = (2 - t) c_{i+1} - c_i. */
  lemma CosineRotates(dc0: real, t: real, i: nat)
    ensures CosineRun(dc0, t, i + 2).u == (2.0 - t) * CosineRun(dc0, t, i + 1).u - CosineRun(dc0, t, i).u
  {
    var c0, c1 := CosineRun(dc0, t, i), CosineRun(dc0, t, i + 1);
    assert c1 == Osc(c0.u - c0.du, c0.du + t * c1.u);
    assert CosineRun(dc0, t, i + 2).u == c1.u - c1.du;
    Distrib(t, c1.u);
  }

  lemma Distrib(t: real, a: real)
    ensures (2.0 - t) * a == 2.0 * a - t * a
  {
  }

  /** The table's symmetries: a mirror about the quarter point and a sign flip every half period. */
  ghost predicate Mirrored(T: seq<real>, nfft: nat)
    requires |T| == nfft + nfft / 4
  {
    (forall i :: 0 < i < nfft / 4 ==> T[nfft / 2 - i] == T[i]) &&
    (forall i :: 0 <= i < nfft / 2 + nfft / 4 ==> T[i + nfft / 2] == -T[i])
  }

  /**
   * The wave a quarter q = T[0..nfft/4] spans under sine's symmetries:
   * rising over the first quarter, falling back over the second, and the
   * negative of the first half over the second half period.
   */
  ghost function Wave(q: seq<real>, nfft: nat, i: nat): real
    requires |q| == nfft / 4 + 1
    decreases i
  {
    if i < nfft / 2 then (if i <= nfft / 4 then q[i] else q[nfft / 2 - i])
    else if nfft / 2 == 0 then 0.0
    else -Wave(q, nfft, i - nfft / 2)
  }

  /**
   * A table with the two symmetries is the wave of its first quarter: the
   * seeding loops fix every entry, and the table repeats with period nfft.
   */
  lemma {:induction false} TableIsWave(T: seq<real>, nfft: nat, m: nat, i: nat)
    requires nfft == Pow2(m) && m >= 2 && |T| == nfft + nfft / 4 && Mirrored(T, nfft)
    requires i < |T|
    ensures T[i] == Wave(T[..nfft / 4 + 1], nfft, i)
    ensures i + nfft < |T| ==> T[i + nfft] == T[i]
    decreases i
  {
    Quarters(nfft, m);
    var q := T[..nfft / 4 + 1];
    if i < nfft / 2 {
      if i > nfft / 4 {
        assert T[nfft / 2 - (nfft / 2 - i)] == T[nfft / 2 - i];
      }
    } else {
      assert T[(i - nfft / 2) + nfft / 2] == -T[i - nfft / 2];
      TableIsWave(T, nfft, m, i - nfft / 2);
    }
    if i + nfft < |T| {
      assert T[(i + nfft / 2) + nfft / 2] == -T[i + nfft / 2];
      assert T[i + nfft / 2] == -T[i];
    }
  }

  /**
   * The first quarter wave, entries 0 .. nfft/4, as the seeding loops leave
   * it for nfft >= 8: sines below nfft/8, 1/sqrt(2) at nfft/8, cosines above.
   */
  function QuarterWave(nfft: nat, dc0: real, root: real, half: real): (q: seq<real>)
    ensures |q| == nfft / 4 + 1
  {
    seq(nfft / 4 + 1, i requires 0 <= i <= nfft / 4 =>
      if i < nfft / 8 then SineRun(root, 2.0 * dc0, i).u
      else if i == nfft / 8 && nfft / 8 > 0 then half
      else if i > nfft / 4 - nfft / 8 then CosineRun(dc0, 2.0 * dc0, nfft / 4 - i).u
      else 0.0)
  }

  /** The whole table get_cstbl builds for nfft >= 8 from sin(pi/nfft) = sinv and the seeds. */
  ghost function CsTable(nfft: nat, sinv: real, root: real, half: real): (T: seq<real>)
    ensures |T| == nfft + nfft / 4
  {
    seq(nfft + nfft / 4, i requires 0 <= i < nfft + nfft / 4 => Wave(QuarterWave(nfft, 2.0 * sinv * sinv, root, half), nfft, i))
  }

  /** A seeded, mirrored table of at least eight entries per period is CsTable. */
  lemma TableIs(T: seq<real>, nfft: nat, m: nat, sinv: real, root: real, half: real)
    requires nfft == Pow2(m) && m >= 3 && |T| == nfft + nfft / 4
    requires Seeded(T, nfft, 2.0 * sinv * sinv, root, half) && Mirrored(T, nfft)
    ensures T == CsTable(nfft, sinv, root, half)
  {
    Quarters(nfft, m);
    var q := QuarterWave(nfft, 2.0 * sinv * sinv, root, half);
    assert T[..nfft / 4 + 1] == q;
    forall i | 0 <= i < |T|
      ensures T[i] == CsTable(nfft, sinv, root, half)[i]
    {
      TableIsWave(T, nfft, m, i);
    }
  }

  /** Quarter and half sizes of a power of two. */
  lemma Quarters(nfft: nat, m: nat)
    requires nfft == Pow2(m)
    ensures m >= 1 ==> nfft / 2 + nfft / 2 == nfft
    ensures m >= 2 ==> nfft / 2 == 2 * (nfft / 4)
    ensures m >= 3 ==> nfft / 4 == 2 * (nfft / 8)
    ensures m < 3 ==> nfft / 8 == 0
    ensures m < 2 ==> nfft / 4 == 0
    ensures m < 1 ==> nfft / 2 == 0
  {
    if m >= 3 {
      assert Pow2(m) == 2 * Pow2(m - 1) && Pow2(m - 1) == 2 * Pow2(m - 2) && Pow2(m - 2) == 2 * Pow2(m - 3);
    } else if m == 2 {
      assert nfft == 4;
    } else if m == 1 {
      assert nfft == 2;
    }
  }

  /**
   * get_cstbl: the seeded quarter wave, then the mirror into (nfft/4, nfft/2)
   * and the negation into [nfft/2, nfft + nfft/4). For nfft < 8 nothing is
   * seeded and the first quarter keeps what the buffer held.
   */
  method GetCsTable(T: array<real>, nfft: nat, ghost m: nat, sinv: real, root: real, half: real)
    requires nfft == Pow2(m) && T.Length == nfft + nfft / 4
    modifies T
    ensures Seeded(T[..], nfft, 2.0 * sinv * sinv, root, half)
    ensures nfft / 8 == 0 ==> forall i :: 0 <= i <= nfft / 4 ==> T[i] == old(T[i])
    ensures Mirrored(T[..], nfft)
    ensures m >= 3 ==> T[..] == CsTable(nfft, sinv, root, half)
  {
    Quarters(nfft, m);
    SeedQuarter(T, nfft, m, sinv, root, half);
    ghost var seeded := T[..];
    Mirror(T, nfft, m);
    Negate(T, nfft, m);
    TableFrom(seeded, T[..], nfft, m, sinv, root, half);
  }

  /** Seeded looks at the first quarter wave only. */
  lemma TableFrom(a: seq<real>, b: seq<real>, nfft: nat, m: nat, sinv: real, root: real, half: real)
    requires nfft == Pow2(m) && |a| == |b| == nfft + nfft / 4
    requires forall i :: 0 <= i <= nfft / 4 && i < |a| ==> a[i] == b[i]
    requires Seeded(a, nfft, 2.0 * sinv * sinv, root, half) && Mirrored(b, nfft)
    ensures Seeded(b, nfft, 2.0 * sinv * sinv, root, half)
    ensures m >= 3 ==> b == CsTable(nfft, sinv, root, half)
  {
    if m >= 3 {
      TableIs(b, nfft, m, sinv, root, half);
    }
  }

  /** The first quarter wave as the two recurrences and the 1/sqrt(2) constant leave it. */
  ghost predicate Seeded(T: seq<real>, nfft: nat, dc0: real, root: real, half: real)
    requires |T| == nfft + nfft / 4
  {
    (forall i :: 0 <= i < nfft / 8 ==> T[i] == SineRun(root, 2.0 * dc0, i).u) &&
    (nfft / 8 > 0 ==> T[nfft / 8] == half) &&
    (forall j :: nfft / 4 - nfft / 8 < j <= nfft / 4 ==> T[j] == CosineRun(dc0, 2.0 * dc0, nfft / 4 - j).u)
  }

  /**
   * The seeding loops of get_cstbl with their moving pointer: sines upwards
   * from 0, 1/sqrt(2) at nfft/8, cosines downwards from nfft/4.
   */
  method SeedQuarter(T: array<real>, nfft: nat, ghost m: nat, sinv: real, root: real, half: real)
    requires nfft == Pow2(m) && T.Length == nfft + nfft / 4
    modifies T
    ensures Seeded(T[..], nfft, 2.0 * sinv * sinv, root, half)
    ensures forall j :: 0 <= j < T.Length && (nfft / 8 == 0 || j > nfft / 4) ==> T[j] == old(T[j])
  {
    Quarters(nfft, m);
    var nfft4, nfft8 := nfft / 4, nfft / 8;
    var c, s := 1.0, 0.0;
    var t := sinv;
    var dc := 2.0 * t * t;
    t := 2.0 * dc;
    var ds := root;
    var p := SeedSines(T, nfft8, s, ds, t);
    if nfft8 > 0 {
      T[p] := half;
    }
    p := p + (nfft4 - nfft8);
    p := SeedCosines(T, nfft4, nfft8, p, c, dc, t);
    p := p - (nfft4 - nfft8);
  }

  /** for (i = 0; i < nfft8; ++i, ++cstbl, s += ds, ds -= t*s) *cstbl = s; */
  method SeedSines(T: array<real>, nfft8: nat, s0: real, ds0: real, t: real) returns (p: nat)
    requires nfft8 <= T.Length && s0 == 0.0
    modifies T
    ensures p == nfft8
    ensures forall j :: 0 <= j < nfft8 ==> T[j] == SineRun(ds0, t, j).u
    ensures forall j :: nfft8 <= j < T.Length ==> T[j] == old(T[j])
  {
    var s, ds := s0, ds0;
    p := 0;
    var i := 0;
    while i < nfft8
      invariant i <= nfft8 && p == i && Osc(s, ds) == SineRun(ds0, t, i)
      invariant forall j {:trigger T[j]} :: 0 <= j < i ==> T[j] == SineRun(ds0, t, j).u
      invariant forall j :: i <= j < T.Length ==> T[j] == old(T[j])
    {
      assert SineRun(ds0, t, i + 1) == Osc(s + ds, ds - t * (s + ds));
      T[p] := s;
      i, p := i + 1, p + 1;
      s := s + ds;
      ds := ds - t * s;
    }
  }

  /** for (i = 0; i < nfft8; ++i, --cstbl, c -= dc, dc += t*c) *cstbl = c; */
  method SeedCosines(T: array<real>, nfft4: nat, nfft8: nat, p0: nat, c0: real, dc0: real, t: real) returns (p: nat)
    requires p0 == nfft4 && nfft4 < T.Length && (nfft8 == 0 || nfft4 == 2 * nfft8) && c0 == 1.0
    modifies T
    ensures p == nfft4 - nfft8
    ensures forall j :: nfft4 - nfft8 < j <= nfft4 ==> T[j] == CosineRun(dc0, t, nfft4 - j).u
    ensures forall j :: 0 <= j < T.Length && !(nfft4 - nfft8 < j <= nfft4) ==> T[j] == old(T[j])
  {
    var c, dc := c0, dc0;
    p := p0;
    var i := 0;
    while i < nfft8
      invariant i <= nfft8 && p == nfft4 - i && Osc(c, dc) == CosineRun(dc0, t, i)
      invariant forall j :: nfft4 - i < j <= nfft4 ==> T[j] == CosineRun(dc0, t, nfft4 - j).u
      invariant forall j :: 0 <= j < T.Length && !(nfft4 - i < j <= nfft4) ==> T[j] == old(T[j])
    {
      assert CosineRun(dc0, t, i + 1) == Osc(c - dc, dc + t * (c - dc));
      T[p] := c;
      i, p := i + 1, p - 1;
      c := c - dc;
      dc := dc + t * c;
    }
  }

  /** for (i = 0; i < nfft4; ++i) cstbl[nfft2 - i] = cstbl[i]; */
  method Mirror(T: array<real>, nfft: nat, ghost m: nat)
    requires nfft == Pow2(m) && T.Length == nfft + nfft / 4
    modifies T
    ensures forall i :: 0 <= i < nfft / 4 ==> T[nfft / 2 - i] == T[i]
    ensures forall j :: 0 <= j < T.Length && !(nfft / 2 - nfft / 4 < j <= nfft / 2) ==> T[j] == old(T[j])
  {
    Quarters(nfft, m);
    var nfft2, nfft4 := nfft / 2, nfft / 4;
    var i := 0;
    while i < nfft4
      invariant i <= nfft4
      invariant forall j :: 0 <= j < i ==> T[nfft2 - j] == T[j]
      invariant forall j :: 0 <= j < T.Length && !(nfft2 - i < j <= nfft2) ==> T[j] == old(T[j])
    {
      T[nfft2 - i] := T[i];
      i := i + 1;
    }
  }

  /** for (i = 0; i < nfft2 + nfft4; ++i) cstbl[i + nfft2] = -cstbl[i]; */
  method Negate(T: array<real>, nfft: nat, ghost m: nat)
    requires nfft == Pow2(m) && T.Length == nfft + nfft / 4
    modifies T
    ensures forall i :: 0 <= i < nfft / 2 + nfft / 4 ==> T[i + nfft / 2] == -T[i]
    ensures forall j :: 0 <= j < T.Length && !(nfft / 2 <= j < nfft / 2 + (nfft / 2 + nfft / 4)) ==> T[j] == old(T[j])
  {
    Quarters(nfft, m);
    var nfft2, nfft4 := nfft / 2, nfft / 4;
    var i := 0;
    while i < nfft2 + nfft4
      invariant i <= nfft2 + nfft4
      invariant forall j :: 0 <= j < i ==> T[j + nfft2] == -T[j]
      invariant forall j :: 0 <= j < T.Length && !(nfft2 <= j < nfft2 + i) ==> T[j] == old(T[j])
    {
      T[i + nfft2] := -T[i];
      i := i + 1;
    }
  }
}
