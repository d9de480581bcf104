/** The parameters shared by all of ML-DSA. */
module DsaConstants {
  const Q: int := 8380417
  /** The inverse of Q modulo R. */
  const QINV: int := 58728449
  /** The Montgomery radix. */
  const R: int := 0x1_0000_0000
  /** The inverse of R modulo Q. */
  const RINV: int := 8265825

  lemma QIs()
    ensures Q == 8380417
  {}
}

/** Modular reductions of ML-DSA, q = 8380417, R = 2^32. */
module DsaReduce {
  import opened MachineInts
  import opened Congruence
  import opened DsaConstants

  /** The multiple of Q that clears the low word of a. */
  function MontgomeryFactor(a: int): (t: int32)
  {
    ToInt32((a % R) * QINV % R)
  }

  lemma FactorClearsLowWord(a: int)
    ensures (a - MontgomeryFactor(a) * Q) % R == 0
  {
    hide *;
    var t: int := MontgomeryFactor(a);
    var u, h := a % 0x1_0000_0000, a / 0x1_0000_0000;
    var j := FactorIs(a, t, u);
    ClearsWord(a, u, h, 58728449 * u, j, t);
    WholeWords(h + j * 8380417 - 114592 * u);
  }

  lemma FactorIs(a: int, t: int, u: int) returns (j: int)
    requires t == MontgomeryFactor(a) && u == a % 0x1_0000_0000
    ensures 58728449 * u - t == 0x1_0000_0000 * j
  {
    var p := 58728449 * u;
    var w := p % 0x1_0000_0000;
    j := if w < 0x8000_0000 then p / 0x1_0000_0000 else p / 0x1_0000_0000 + 1;
  }

  lemma ClearsWord(a: int, u: int, h: int, p: int, j: int, t: int)
    requires a == 0x1_0000_0000 * h + u && p == 58728449 * u && p - t == 0x1_0000_0000 * j
    ensures a - t * 8380417 == 0x1_0000_0000 * (h + j * 8380417 - 114592 * u)
  {}

  lemma WholeWords(x: int)
    ensures Q == 8380417 && R == 0x1_0000_0000 && (0x1_0000_0000 * x) % R == 0
  {}

  /** Montgomery reduction: a multiple of Q is subtracted to clear the low word, the high word is kept. */
  function MontgomeryReduce(a: int64): (r: int32)
    requires -0x8000_0000 * Q <= a < 0x8000_0000 * Q
    ensures Cong(R * r, a, Q)
    ensures -Q < r < Q
    ensures a - 0x8000_0000 * Q < R * r <= a + 0x8000_0000 * Q
  {
    FactorClearsLowWord(a);
    var t: int := MontgomeryFactor(a);
    var r := (a - t * Q) / R;
    CongIntro(R * r, a, Q, -t);
    r
  }

  /** Multiplication by R^-1 is what Montgomery reduction does modulo Q. */
  lemma MontgomeryIsRinv(a: int64)
    requires -0x8000_0000 * Q <= a < 0x8000_0000 * Q
    ensures Cong(MontgomeryReduce(a), a * RINV, Q)
  {
    var r: int := MontgomeryReduce(a);
    var k := Quot(R * r, a, Q);
    assert RINV * R == 4236238847 * Q + 1;
    CongIntro(r, a * RINV, Q, k * RINV - 4236238847 * r);
  }

  /** Subtract the rounded multiple of Q. The result is congruent but not canonical. */
  function Reduce32(a: int32): (r: int32)
    requires a <= 0x7FFF_FFFF - 0x40_0000
    ensures Cong(r, a, Q)
    ensures -6283009 <= r <= 6283008
  {
    var t := (a + 0x40_0000) / 0x80_0000;
    CongIntro(a - t * Q, a, Q, -t);
    a - t * Q
  }

  /** The multiple is a / 2^23, rounded to the nearest integer and halves upwards. */
  lemma Reduce32Rounds(a: int32) returns (t: int)
    requires a <= 0x7FFF_FFFF - 0x40_0000
    ensures Reduce32(a) == a - 8380417 * t && -0x40_0000 <= a - 0x80_0000 * t < 0x40_0000
  {
    t := (a + 0x40_0000) / 0x80_0000;
  }

  /** Add Q to a negative number. */
  function CaddQ(a: int32): (r: int32)
    ensures Cong(r, a, Q)
    ensures -Q <= a < Q ==> 0 <= r < Q
    ensures -Q <= a < Q ==> r == a % Q
  {
    CongIntro(a, a, Q, 0);
    CongIntro(a + Q, a, Q, 1);
    if a < 0 then a + Q else a
  }

  /** The representative of smallest magnitude, in [-(Q-1)/2, (Q-1)/2]. */
  function Centred(a: int): (r: int)
    ensures -(Q - 1) / 2 <= r <= (Q - 1) / 2
    ensures Cong(r, a, Q)
  {
    var u := a % Q;
    CongMod(a, Q);
    CongIntro(u - Q, a, Q, -(a / Q) - 1);
    if u <= (Q - 1) / 2 then u else u - Q
  }

  /** The norm test on the non-canonical residue agrees with the test on the centred one. */
  ghost predicate NormTestExact(a: int32, bound: int)
    requires a <= 0x7FFF_FFFF - 0x40_0000
  {
    -bound < Reduce32(a) < bound <==> -bound < Centred(a) < bound
  }

  /** Up to 2097408 the test is exact for every coefficient, and a passing residue is the centred one. */
  lemma Reduce32DetectsSmall(a: int32, bound: int)
    requires a <= 0x7FFF_FFFF - 0x40_0000 && 0 <= bound <= 2097408
    ensures NormTestExact(a, bound)
    ensures -bound < Reduce32(a) < bound ==> Reduce32(a) == Centred(a)
  {
    var t, c := Reduce32(a), Centred(a);
    CongSym(c, a, Q);
    CongTrans(t, a, c, Q);
    var k := Quot(t, c, Q);
    assert -1 <= k <= 1;
  }

  /** Above 2097408, up to the largest bound the test accepts, it rejects a coefficient it should pass. */
  lemma Reduce32MissesLarge(bound: int)
    requires 2097408 < bound <= Q / 2
    ensures !NormTestExact(-2143289344, bound)
  {
    assert Reduce32(-2143289344) == -6283009;
    assert Centred(-2143289344) == 2097408;
  }

  /** The exact range of bounds for which the norm test is right on all coefficients. */
  lemma NormTestThreshold(bound: int)
    requires 0 <= bound <= Q / 2
    ensures (forall a: int32 :: a <= 0x7FFF_FFFF - 0x40_0000 ==> NormTestExact(a, bound)) <==> bound <= 2097408
  {
    if bound <= 2097408 {
      forall a: int32 | a <= 0x7FFF_FFFF - 0x40_0000
        ensures NormTestExact(a, bound)
      {
        Reduce32DetectsSmall(a, bound);
      }
    } else {
      Reduce32MissesLarge(bound);
    }
  }
}
