/** Bit reversal and powers: the order in which the root tables list the powers of one root of unity. */
module BitReversal {
  import opened Congruence
  import opened NttTower

  /** The n low bits of k in reverse order. */
  function BitRev(k: nat, n: nat): (r: nat)
    ensures r < Pow2(n)
  {
    if n == 0 then 0 else (if k % 2 == 1 then Pow2(n - 1) else 0) + BitRev(k / 2, n - 1)
  }

  function Power(g: int, e: nat): int
  {
    if e == 0 then 1 else g * Power(g, e - 1)
  }

  /** A bit put on top of n bits becomes the lowest one. */
  lemma {:induction false} TopBit(a: nat, top: bool, n: nat)
    requires a < Pow2(n)
    ensures BitRev(a + (if top then Pow2(n) else 0), n + 1) == (if top then 1 else 0) + 2 * BitRev(a, n)
  {
    if n == 0 {
      assert BitRev(0, 1) == 0 && BitRev(1, 1) == 1;
    } else {
      var x := a + if top then Pow2(n) else 0;
      assert x % 2 == a % 2 && x / 2 == a / 2 + if top then Pow2(n - 1) else 0;
      TopBit(a / 2, top, n - 1);
    }
  }

  lemma {:induction false} NoBits(n: nat)
    ensures BitRev(0, n) == 0
  {
    if n > 0 {
      NoBits(n - 1);
    }
  }

  /** A bit on top of the lower i bits is reversed on its own. */
  lemma {:induction false} BitRevSplit(j: nat, i: nat, n: nat)
    requires i < n && j < Pow2(i)
    ensures BitRev(Pow2(i) + j, n) == Pow2(n - 1 - i) + BitRev(j, n)
  {
    if i == 0 {
      NoBits(n - 1);
      assert (Pow2(0) + j) % 2 == 1 && (Pow2(0) + j) / 2 == 0;
    } else {
      assert (Pow2(i) + j) % 2 == j % 2 && (Pow2(i) + j) / 2 == Pow2(i - 1) + j / 2;
      BitRevSplit(j / 2, i - 1, n - 1);
    }
  }

  lemma {:induction false} PowerAdd(g: int, d: nat, e: nat)
    ensures Power(g, d + e) == Power(g, d) * Power(g, e)
  {
    if d > 0 {
      PowerAdd(g, d - 1, e);
      assert g * (Power(g, d - 1) * Power(g, e)) == (g * Power(g, d - 1)) * Power(g, e);
    }
  }

  lemma FactorsTogether(a: int, p: int, r: int)
    ensures (a * p) * (a * r) == a * (a * (p * r))
  {
    assert (a * p) * (a * r) == a * (p * (a * r));
    assert p * (a * r) == a * (p * r);
  }
}
