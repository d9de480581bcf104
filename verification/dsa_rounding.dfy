/** ML-DSA rounding and hints. */
module DsaRounding {
  import opened MachineInts
  import opened Congruence
  import opened DsaConstants

  const GAMMA2_32: int := 261888
  const GAMMA2_88: int := 95232

  predicate Supported(gamma2: int)
  {
    gamma2 == GAMMA2_32 || gamma2 == GAMMA2_88
  }

  // ---------- Power2Round ----------

  /** Split off the low d = 13 bits, rounding to nearest. */
  function Power2Round(a: int32): (r: (int32, int32))
    requires 0 <= a < Q
    ensures a == r.0 * 0x2000 + r.1 && -0x1000 < r.1 <= 0x1000
    ensures 0 <= r.0 < 0x400
  {
    var a1 := (a + 0x1000 - 1) / 0x2000;
    (a1, a - a1 * 0x2000)
  }

  // ---------- Decompose ----------

  /** The high part by multiplication and shift, as the code computes it. */
  function HighPart(a: int32, gamma2: int32): (a1: int32)
    requires -0x100_0000 <= a < 0x100_0000
  {
    var u := (a + 127) / 128;
    if gamma2 == GAMMA2_32 then
      ((u * 1025 + 0x20_0000) / 0x40_0000) % 16
    else
      var v := (u * 11275 + 0x80_0000) / 0x100_0000;
      if 43 - v < 0 then 0 else v
  }

  /** High and low part of a; an unsupported gamma2 yields 0 and leaves the old low part. */
  function Decompose(a: int32, old0: int32, gamma2: int32): (r: (int32, int32))
    requires -0x100_0000 <= a < 0x100_0000
  {
    if !Supported(gamma2) then (0, old0) else
      var a1 := HighPart(a, gamma2);
      var a0 := a - a1 * 2 * gamma2;
      (a1, if (Q - 1) / 2 - a0 < 0 then a0 - Q else a0)
  }

  /** The representative of r modulo 2 * half in (-half, half]. */
  function CentredMod(r: int, half: int): (c: int)
    requires half > 0
    ensures -half < c <= half
  {
    var u := r % (2 * half);
    if u > half then u - 2 * half else u
  }

  /** Decompose of section 7.4 of FIPS 204, on a canonical residue. */
  function DecomposeSpec(r: int, gamma2: int): (int, int)
    requires Supported(gamma2)
  {
    var r0 := CentredMod(r, gamma2);
    if r - r0 == Q - 1 then (0, r0 - 1) else ((r - r0) / (2 * gamma2), r0)
  }

  /** The number of high parts. */
  function Buckets(gamma2: int): (m: int)
    requires Supported(gamma2)
  {
    if gamma2 == GAMMA2_32 then 16 else 44
  }

  lemma SpecUnique(r: int, v: int, r0: int, gamma2: int)
    requires Supported(gamma2) && r == v * (2 * gamma2) + r0 && -gamma2 < r0 <= gamma2
    ensures CentredMod(r, gamma2) == r0 && (r - r0) / (2 * gamma2) == v
  {}

  /** The shifted product rounds to the nearest multiple of 2 * gamma2. */
  lemma RoundsToNearest32(a: int, u: int, v: int)
    requires -261888 <= a < 8380417 + 261888
    requires u == (a + 127) / 128 && v == (u * 1025 + 0x20_0000) / 0x40_0000
    ensures 0 <= v <= 16
    ensures a - v * 523776 <= 261888
    ensures a - v * 523776 > -261888 || (v == 0 && a == -261888)
  {
    assert v <= 16;
    assert u <= 4092 * v + 2046;
    assert v >= 1 ==> u >= 4092 * v - 2045;
  }

  lemma RoundsToNearest88(a: int, u: int, v: int)
    requires -95232 <= a < 8380417 + 95232
    requires u == (a + 127) / 128 && v == (u * 11275 + 0x80_0000) / 0x100_0000
    ensures 0 <= v <= 44
    ensures a - v * 190464 <= 95232
    ensures a - v * 190464 > -95232 || (v == 0 && a == -95232)
  {
    assert v <= 44;
    assert u <= 1488 * v + 744;
    assert v >= 1 ==> u >= 1488 * v - 743;
  }

  /**
   The multiply-and-shift form is the centred-remainder form: on every canonical residue, and on every
   non-canonical input less than gamma2 outside [0, Q-1], as verification produces.
   */
  lemma DecomposeMatchesSpec(a: int32, old0: int32, gamma2: int32)
    requires Supported(gamma2) && -gamma2 <= a < Q + gamma2
    ensures Decompose(a, old0, gamma2) == DecomposeSpec(a % Q, gamma2)
    ensures 0 <= Decompose(a, old0, gamma2).0 < Buckets(gamma2)
    ensures -gamma2 <= Decompose(a, old0, gamma2).1 <= gamma2
  {
    hide HighPart, DecomposeSpec;
    var v := HighPartRounds(a, gamma2);
    if gamma2 == GAMMA2_32 {
      DecomposeIs(a, old0, gamma2, v);
    } else {
      DecomposeIs(a, old0, gamma2, v);
    }
    SpecIs(a, gamma2, Buckets(gamma2), v);
  }

  /** The nearest multiple of 2 * gamma2, and how the code reports it. */
  lemma HighPartRounds(a: int32, gamma2: int32) returns (v: int)
    requires Supported(gamma2) && -gamma2 <= a < Q + gamma2
    ensures 0 <= v <= Buckets(gamma2)
    ensures a - v * (2 * gamma2) <= gamma2
    ensures a - v * (2 * gamma2) > -gamma2 || (v == 0 && a == -gamma2)
    ensures HighPart(a, gamma2) == if v == Buckets(gamma2) then 0 else v
  {
    var u := (a + 127) / 128;
    if gamma2 == 261888 {
      v := (u * 1025 + 0x20_0000) / 0x40_0000;
      RoundsToNearest32(a, u, v);
    } else {
      v := (u * 11275 + 0x80_0000) / 0x100_0000;
      RoundsToNearest88(a, u, v);
    }
  }

  /** The low part of a canonical residue is above -gamma2 with exactly one exception. */
  lemma LowPartReachesMinusGamma2(a: int32, old0: int32, gamma2: int32)
    requires Supported(gamma2) && 0 <= a < Q
    ensures Decompose(a, old0, gamma2).1 == -gamma2 <==> a == Q - gamma2
    ensures a == Q - gamma2 ==> Decompose(a, old0, gamma2).0 == 0
  {
    hide HighPart, Decompose;
    var v := HighPartRounds(a, gamma2);
    if gamma2 == 261888 {
      DecomposeIs(a, old0, 261888, v);
    } else {
      DecomposeIs(a, old0, 95232, v);
    }
  }

  lemma DecomposeIs(a: int32, old0: int32, gamma2: int32, v: int)
    requires Supported(gamma2) && -gamma2 <= a < Q + gamma2 && 0 <= v <= Buckets(gamma2)
    requires a - v * (2 * gamma2) <= gamma2 && (a - v * (2 * gamma2) > -gamma2 || (v == 0 && a == -gamma2))
    requires HighPart(a, gamma2) == if v == Buckets(gamma2) then 0 else v
    ensures Decompose(a, old0, gamma2) == if v == Buckets(gamma2) then (0, a - Q) else (v, a - v * (2 * gamma2))
  {
    hide HighPart;
    if gamma2 == 261888 {
      assert v == 16 ==> a - Q == a - v * 523776 - 1;
    } else {
      assert v == 44 ==> a - Q == a - v * 190464 - 1;
    }
  }

  /** A canonical residue given by the nearest multiple of 2 * gamma2 and the remainder. */
  lemma SpecParts(r: int, v: int, r0: int, gamma2: int)
    requires Supported(gamma2) && 0 <= r < Q && 0 <= v <= Buckets(gamma2)
    requires r == v * (2 * gamma2) + r0 && -gamma2 < r0 <= gamma2
    ensures DecomposeSpec(r, gamma2) == if v == Buckets(gamma2) then (0, r0 - 1) else (v, r0)
  {
    SpecUnique(r, v, r0, gamma2);
    hide CentredMod;
    if gamma2 == 261888 {
      assert v * 523776 == Q - 1 <==> v == 16;
    } else {
      assert v * 190464 == Q - 1 <==> v == 44;
    }
  }

  lemma SpecIs(a: int, gamma2: int, m: int, v: int)
    requires (gamma2 == 261888 && m == 16) || (gamma2 == 95232 && m == 44)
    requires -gamma2 <= a < Q + gamma2 && 0 <= v <= m
    requires a - v * (2 * gamma2) <= gamma2 && (a - v * (2 * gamma2) > -gamma2 || (v == 0 && a == -gamma2))
    ensures DecomposeSpec(a % Q, gamma2) == if v == m then (0, a - Q) else (v, a - v * (2 * gamma2))
  {
    hide DecomposeSpec;
    var g := 2 * gamma2;
    assert m * g == Q - 1;
    if a < 0 {
      if v >= 1 {
        ProductLe(1, v, g);
      }
      assert v == 0 && a % Q == a + Q;
      SpecParts(a + Q, m, a + 1, gamma2);
    } else if a < Q {
      SpecParts(a, v, a - v * g, gamma2);
    } else {
      if v <= m - 1 {
        ProductLe(v + 1, m, g);
      }
      assert v == m && a % Q == a - Q;
      SpecParts(a - Q, 0, a - Q, gamma2);
    }
  }

  /** The interval cannot be widened: the two forms differ at the first integer below it, and just above it. */
  lemma DecomposeIntervalIsTight(gamma2: int32)
    requires Supported(gamma2)
    ensures Decompose(-gamma2 - 1, 0, gamma2) != DecomposeSpec((-gamma2 - 1) % Q, gamma2)
    ensures gamma2 == GAMMA2_32 ==> Decompose(Q + gamma2, 0, gamma2) != DecomposeSpec((Q + gamma2) % Q, gamma2)
    ensures gamma2 == GAMMA2_88 ==> Decompose(Q + gamma2 + 1, 0, gamma2) != DecomposeSpec((Q + gamma2 + 1) % Q, gamma2)
  {
    if gamma2 == 261888 {
      assert Decompose(-261889, 0, 261888).0 == 0;
      assert Decompose(8642305, 0, 261888).0 == 1;
      assert 8642305 % 8380417 == 261888 && -261889 % 8380417 == 8118528;
    } else {
      assert Decompose(-95233, 0, 95232).0 == 0;
      assert Decompose(8475650, 0, 95232).0 == 0;
      assert 8475650 % 8380417 == 95233 && -95233 % 8380417 == 8285184;
    }
  }

  /** The two parts rebuild the residue. */
  lemma DecomposeRebuilds(r: int, gamma2: int)
    requires Supported(gamma2) && 0 <= r < Q
    ensures var (r1, r0) := DecomposeSpec(r, gamma2);
            0 <= r1 < Buckets(gamma2) && -gamma2 <= r0 <= gamma2 && (r1 * (2 * gamma2) + r0 - r) % Q == 0
  {}

  // ---------- Hints ----------

  function MakeHint(a0: int32, a1: int32, gamma2: int32): (h: int)
    ensures h == 0 || h == 1
  {
    if !Supported(gamma2) then 0
    else if a0 > gamma2 || a0 < -gamma2 || (a0 == -gamma2 && a1 != 0) then 1 else 0
  }

  function UseHint(a: int32, hint: int, gamma2: int32): (r: int32)
    requires -0x100_0000 <= a < 0x100_0000
  {
    if hint < 0 || hint > 1 || !Supported(gamma2) then 0 else
      var (a1, a0) := Decompose(a, 0, gamma2);
      if hint == 0 then a1
      else if gamma2 == GAMMA2_32 then
        if a0 > 0 then (a1 + 1) % 16 else (a1 - 1) % 16
      else if a0 > 0 then
        if a1 == 43 then 0 else a1 + 1
      else
        if a1 == 0 then 43 else a1 - 1
  }

  /** UseHint of section 7.4 of FIPS 204, on a canonical residue. */
  function UseHintSpec(r: int, hint: int, gamma2: int): int
    requires Supported(gamma2)
  {
    var m := Buckets(gamma2);
    var (r1, r0) := DecomposeSpec(r, gamma2);
    if hint == 1 && r0 > 0 then (r1 + 1) % m
    else if hint == 1 then (r1 - 1) % m
    else r1
  }

  lemma UseHintMatchesSpec(a: int32, hint: int, gamma2: int32)
    requires Supported(gamma2) && -gamma2 <= a < Q + gamma2 && 0 <= hint <= 1
    ensures UseHint(a, hint, gamma2) == UseHintSpec(a % Q, hint, gamma2)
    ensures 0 <= UseHint(a, hint, gamma2) < Buckets(gamma2)
  {
    DecomposeMatchesSpec(a, 0, gamma2);
    hide HighPart, Decompose, DecomposeSpec;
    var r1 := Decompose(a, 0, gamma2).0;
    if gamma2 == 261888 {
      NextBucket(r1, 16);
    } else {
      NextBucket(r1, 44);
    }
  }

  lemma NextBucket(r: int, m: int)
    requires 0 <= r < m
    ensures (r + 1) % m == (if r == m - 1 then 0 else r + 1)
    ensures (r - 1) % m == (if r == 0 then m - 1 else r - 1)
  {
    if r == m - 1 {
      assert (r + 1) % m == 0;
    }
    if r == 0 {
      WrapsDown(m);
    }
  }

  lemma WrapsDown(m: int)
    requires m > 0
    ensures (-1) % m == m - 1
  {
    CongIntro(-1, m - 1, m, -1);
    CongModEq(-1, m - 1, m);
  }

  /**
   Hint recovery. The signer knows the high part w1 and the corrected low part d; the verifier knows only a
   representative a of w1 * 2 * gamma2 + d. The hint bit recovers w1 whenever |d| < 2 * gamma2, also where the
   residue lies near Q-1, so that w1 is 0 and the sum is negative.
   */
  lemma HintRecovers(w1: int, d: int32, a: int, gamma2: int32)
    requires Supported(gamma2) && 0 <= w1 < Buckets(gamma2) && -2 * gamma2 < d < 2 * gamma2
    requires 0 <= a < Q && Cong(a, w1 * (2 * gamma2) + d, Q)
    ensures UseHintSpec(a, MakeHint(d, w1, gamma2), gamma2) == w1
  {
    var s := w1 * (2 * gamma2) + d;
    var k := Quot(a, s, Q);
    assert 0 <= k <= 1 by {
      if gamma2 == 261888 {
        assert s == w1 * 523776 + d;
      } else {
        assert s == w1 * 190464 + d;
      }
    }
    assert a == s || a == s + Q;
    if gamma2 == 261888 {
      RecoversIn(w1, d, a, 261888, 16);
    } else {
      RecoversIn(w1, d, a, 95232, 44);
    }
  }

  /**
   The hint bit is set exactly if the correction changes the high part: MakeHint of section 7.4 of FIPS 204, for every
   high part and every correction below 2 * gamma2 in magnitude.
   */
  lemma MakeHintMeaning(w1: int, d: int32, a: int, gamma2: int32)
    requires Supported(gamma2) && 0 <= w1 < Buckets(gamma2) && -2 * gamma2 < d < 2 * gamma2
    requires 0 <= a < Q && Cong(a, w1 * (2 * gamma2) + d, Q)
    ensures MakeHint(d, w1, gamma2) == 1 <==> DecomposeSpec(a, gamma2).0 != w1
  {
    HintRecovers(w1, d, a, gamma2);
    DecomposeRebuilds(a, gamma2);
    hide DecomposeSpec, MakeHint;
    NextBucket(DecomposeSpec(a, gamma2).0, Buckets(gamma2));
  }

  /** The cases of hint recovery: which multiple of 2 * gamma2 is nearest to the verifier's residue. */
  lemma RecoversIn(w1: int, d: int32, a: int, gamma2: int32, m: int)
    requires (gamma2 == 261888 && m == 16) || (gamma2 == 95232 && m == 44)
    requires 0 <= w1 < m && -2 * gamma2 < d < 2 * gamma2 && 0 <= a < Q
    requires var s := w1 * (2 * gamma2) + d; a == s || a == s + Q
    ensures UseHintSpec(a, MakeHint(d, w1, gamma2), gamma2) == w1
  {
    hide DecomposeSpec, UseHintSpec;
    var g := 2 * gamma2;
    var s := w1 * g + d;
    assert m * g == Q - 1;
    UseHintCases(a, MakeHint(d, w1, gamma2), gamma2, m);
    if a == s + Q {
      BelowZero(w1, d, g);
      if d >= -gamma2 {
        SpecParts(a, m, d + 1, gamma2);
      } else {
        assert (m - 1) * g == m * g - g;
        SpecParts(a, m - 1, d + 1 + g, gamma2);
      }
    } else if d > gamma2 {
      assert (w1 + 1) * g == w1 * g + g;
      SpecParts(a, w1 + 1, d - g, gamma2);
    } else if d > -gamma2 {
      SpecParts(a, w1, d, gamma2);
    } else {
      AboveZero(w1, d, g);
      assert (w1 - 1) * g == w1 * g - g;
      SpecParts(a, w1 - 1, d + g, gamma2);
    }
  }

  /** The high part r1, or its neighbour on the side of r0 if the hint is set. */
  function Adjusted(r1: int, r0: int, hint: int, m: int): int {
    if hint != 1 then r1
    else if r0 > 0 then if r1 == m - 1 then 0 else r1 + 1
    else if r1 == 0 then m - 1 else r1 - 1
  }

  lemma UseHintCases(a: int, hint: int, gamma2: int, m: int)
    requires Supported(gamma2) && m == Buckets(gamma2) && 0 <= a < Q
    ensures UseHintSpec(a, hint, gamma2) == Adjusted(DecomposeSpec(a, gamma2).0, DecomposeSpec(a, gamma2).1, hint, m)
  {
    DecomposeRebuilds(a, gamma2);
    hide DecomposeSpec;
    NextBucket(DecomposeSpec(a, gamma2).0, m);
  }

  lemma BelowZero(w1: int, d: int, g: int)
    requires 0 <= w1 && 0 < g && -g < d && w1 * g + d < 0
    ensures w1 == 0
  {
    if w1 >= 1 {
      ProductLe(1, w1, g);
    }
  }

  lemma AboveZero(w1: int, d: int, g: int)
    requires 0 <= w1 && d < 0 && w1 * g + d >= 0
    ensures w1 >= 1
  {}
}
