/**
 * The bit-reversal table of get_bittbl (c/ifft.rad2.c:43-56): entry i of a
 * table for nfft == 2^m is i with its m bits written in reverse order. The
 * source builds it with a "reversed increment": from the entry for i-1 it
 * clears the leading ones from the top bit down and sets the first zero.
 */
module Bits {
  import opened Arith

  /** i with its m low bits reversed: bit 0 of i becomes bit m-1. */
  function Rev(i: nat, m: nat): (r: nat)
    ensures r < Pow2(m)
  {
    if m == 0 then 0
    else (if i % 2 == 1 then Pow2(m - 1) else 0) + Rev(i / 2, m - 1)
  }

  /**
   * The inner while loop of get_bittbl as a function: while the bit k of j
   * is set, clear it and move to the next lower bit; then set that bit.
   */
  function Carry(j: nat, k: nat): nat
    decreases k
  {
    if 0 < k <= j then Carry(j - k, k / 2) else j + k
  }

  /** Reversing a number whose top bit is clear: the reversal has a clear bottom bit. */
  lemma {:induction false} RevTopClear(r: nat, m: nat)
    requires m >= 1 && r < Pow2(m - 1)
    ensures Rev(r, m) == 2 * Rev(r, m - 1)
  {
    if m >= 2 {
      RevTopClear(r / 2, m - 1);
      assert Pow2(m - 1) == 2 * Pow2(m - 2);
    }
  }

  /** Reversing a number whose top bit is set: the top bit lands at the bottom. */
  lemma {:induction false} RevTopSet(r: nat, m: nat)
    requires m >= 1 && r < Pow2(m - 1)
    ensures Rev(Pow2(m - 1) + r, m) == 2 * Rev(r, m - 1) + 1
  {
    if m >= 2 {
      var j := Pow2(m - 1) + r;
      assert Pow2(m - 1) == 2 * Pow2(m - 2);
      assert j % 2 == r % 2 && j / 2 == Pow2(m - 2) + r / 2;
      RevTopSet(r / 2, m - 1);
    }
  }

  /** Reversing twice gives the number back: the table is an involution. */
  lemma {:induction false} RevRev(i: nat, m: nat)
    requires i < Pow2(m)
    ensures Rev(Rev(i, m), m) == i
  {
    if m > 0 {
      RevRev(i / 2, m - 1);
      if i % 2 == 1 {
        RevTopSet(Rev(i / 2, m - 1), m);
      } else {
        RevTopClear(Rev(i / 2, m - 1), m);
      }
    }
  }

  /** The table is a permutation of 0 .. 2^m - 1: one-to-one and onto. */
  lemma RevPermutes(m: nat)
    ensures forall i, j :: 0 <= i < Pow2(m) && 0 <= j < Pow2(m) && Rev(i, m) == Rev(j, m) ==> i == j
    ensures forall j :: 0 <= j < Pow2(m) ==> Rev(Rev(j, m), m) == j
  {
    forall j | 0 <= j < Pow2(m)
      ensures Rev(Rev(j, m), m) == j
    {
      RevRev(j, m);
    }
  }

  /** The all-ones number reads the same reversed. */
  lemma {:induction false} RevOnes(m: nat)
    ensures Rev(Pow2(m) - 1, m) == Pow2(m) - 1
  {
    if m > 0 {
      assert (Pow2(m) - 1) % 2 == 1 && (Pow2(m) - 1) / 2 == Pow2(m - 1) - 1;
      RevOnes(m - 1);
    }
  }

  /** The reversed increment: one step of get_bittbl's carry loop per table entry. */
  lemma {:induction false} RevNext(i: nat, m: nat)
    requires m >= 1 && i + 1 < Pow2(m)
    ensures Rev(i + 1, m) == Carry(Rev(i, m), Pow2(m - 1))
  {
    if i % 2 == 0 {
      RevNextEven(i, m);
    } else {
      RevNext(i / 2, m - 1);
      RevNextOdd(i, m);
    }
  }

  /** From an even i the increment sets the top bit of the reversal, which is clear. */
  lemma RevNextEven(i: nat, m: nat)
    requires m >= 1 && i % 2 == 0
    ensures Rev(i + 1, m) == Carry(Rev(i, m), Pow2(m - 1))
  {
    var x := Rev(i / 2, m - 1);
    assert (i + 1) / 2 == i / 2 && (i + 1) % 2 == 1;
    assert Rev(i, m) == x;
    assert Rev(i + 1, m) == Pow2(m - 1) + x;
  }

  /** From an odd i the increment clears the set top bit and carries into the rest. */
  lemma RevNextOdd(i: nat, m: nat)
    requires m >= 2 && i % 2 == 1
    requires Rev(i / 2 + 1, m - 1) == Carry(Rev(i / 2, m - 1), Pow2(m - 2))
    ensures Rev(i + 1, m) == Carry(Rev(i, m), Pow2(m - 1))
  {
    var x := Rev(i / 2, m - 1);
    var P := Pow2(m - 1);
    assert P == 2 * Pow2(m - 2) && P / 2 == Pow2(m - 2);
    assert (i + 1) / 2 == i / 2 + 1 && (i + 1) % 2 == 0;
    assert Rev(i, m) == P + x;
    assert Carry(P + x, P) == Carry(x, P / 2);
    assert Rev(i + 1, m) == Rev(i / 2 + 1, m - 1);
  }

  /**
   * get_bittbl: bt[0] = 0, then for every i the carry loop turns the entry
   * for i-1 into the entry for i.
   */
  method GetBitTbl(bt: array<nat>, nfft: nat, ghost m: nat)
    requires nfft == Pow2(m) && bt.Length == nfft
    modifies bt
    ensures forall i :: 0 <= i < nfft ==> bt[i] == Rev(i, m)
  {
    var nfft2 := nfft / 2;
    var j: nat := 0;
    bt[0] := 0;
    RevZero(m);
    var i := 1;
    while i < nfft
      invariant 1 <= i <= nfft && j == Rev(i - 1, m)
      invariant forall n {:trigger bt[n]} :: 0 <= n < i ==> bt[n] == Rev(n, m)
    {
      assert m >= 1 && nfft2 == Pow2(m - 1);
      RevNext(i - 1, m);
      NotAllOnes(i - 1, m);
      j := CarryLoop(j, nfft2, m - 1);
      bt[i] := j;
      i := i + 1;
    }
  }

  /**
   * while (k <= j) { j -= k; k /= 2; } j += k; -- the carry loop of
   * get_bittbl. It never runs with k == 0: while it runs, j stays below 2k
   * and is not all ones below 2k.
   */
  method CarryLoop(j0: nat, k0: nat, ghost t0: nat) returns (j: nat)
    requires k0 == Pow2(t0) && j0 < 2 * k0 && j0 != 2 * k0 - 1
    ensures j == Carry(j0, k0)
  {
    j := j0;
    var k: nat := k0;
    ghost var t: nat := t0;
    while k <= j
      invariant k == Pow2(t) && j < 2 * k && j != 2 * k - 1
      invariant Carry(j, k) == Carry(j0, k0)
      decreases k
    {
      if t == 0 {
        assert false;
      }
      j := j - k;
      k := k / 2;
      t := t - 1;
    }
    j := j + k;
  }

  /** The first entry is 0. */
  lemma {:induction false} RevZero(m: nat)
    ensures Rev(0, m) == 0
  {
    if m > 0 {
      RevZero(m - 1);
    }
  }

  /** An entry other than the last is not all ones. */
  lemma NotAllOnes(i: nat, m: nat)
    requires i + 1 < Pow2(m)
    ensures Rev(i, m) != Pow2(m) - 1
  {
    if Rev(i, m) == Pow2(m) - 1 {
      RevRev(i, m);
      RevOnes(m);
    }
  }
}
