/** The constants of ML-KEM. */
module KemConstants {
  const Q: int := 3329
  /** The inverse of Q modulo R. */
  const QINV: int := 62209
  /** The Montgomery radix. */
  const R: int := 0x1_0000
  /** The inverse of R modulo Q. */
  const RINV: int := 169

  lemma QIs()
    ensures Q == 3329
  {}
}

/** Modular reductions of ML-KEM, q = 3329, R = 2^16. */
module KemReduce {
  import opened MachineInts
  import opened Congruence
  import opened KemConstants

  /** Barrett reduction. The result is the centred residue, not the canonical one. */
  function BarrettReduce(a: int16): (r: int16)
    ensures Cong(r, a, Q)
    ensures -1664 <= r <= 1664
  {
    var t := (20159 * a + 0x200_0000) / 0x400_0000;
    CongIntro(a - t * Q, a, Q, -t);
    BarrettQuotient(a, t);
    a - t * Q
  }

  /** The rounded product with 2^26 / Q is the nearest quotient, for every 16-bit number. */
  lemma BarrettQuotient(a: int16, t: int)
    requires t == (20159 * a + 0x200_0000) / 0x400_0000
    ensures -1664 <= a - t * Q <= 1664
  {}

  /** The multiple of Q that clears the low word of a. */
  function MontgomeryFactor(a: int): (t: int16)
  {
    ToInt16((a % R) * QINV % R)
  }

  lemma FactorClearsLowWord(a: int)
    ensures (a - MontgomeryFactor(a) * Q) % R == 0
  {
    hide *;
    var t: int := MontgomeryFactor(a);
    var u, h := a % 0x1_0000, a / 0x1_0000;
    var j := FactorIs(a, t, u);
    ClearsWord(a, u, h, 62209 * u, j, t);
    WholeWords(h + j * 3329 - 3160 * u);
  }

  lemma FactorIs(a: int, t: int, u: int) returns (j: int)
    requires t == MontgomeryFactor(a) && u == a % 0x1_0000
    ensures 62209 * u - t == 0x1_0000 * j
  {
    var p := 62209 * u;
    var w := p % 0x1_0000;
    j := if w < 0x8000 then p / 0x1_0000 else p / 0x1_0000 + 1;
  }

  lemma ClearsWord(a: int, u: int, h: int, p: int, j: int, t: int)
    requires a == 0x1_0000 * h + u && p == 62209 * u && p - t == 0x1_0000 * j
    ensures a - t * 3329 == 0x1_0000 * (h + j * 3329 - 3160 * u)
  {}

  lemma WholeWords(x: int)
    ensures Q == 3329 && R == 0x1_0000 && (0x1_0000 * x) % R == 0
  {}

  /** Montgomery reduction, wherever the subtraction stays in 32 bits; below 2^15 Q the result is below Q. */
  function MontgomeryReduce(a: int32): (r: int16)
    requires -0x8000_0000 + 0x8000 * Q <= a < 0x8000_0000 - 0x8000 * Q
    ensures Cong(R * r, a, Q)
    ensures -0x8000 * Q <= a < 0x8000 * Q ==> -Q < r < Q
    ensures a - 0x8000 * Q < R * r <= a + 0x8000 * Q
  {
    FactorClearsLowWord(a);
    var t: int := MontgomeryFactor(a);
    var r := (a - t * Q) / R;
    CongIntro(R * r, a, Q, -t);
    r
  }

  /** Multiplication by R^-1 is what Montgomery reduction does modulo Q. */
  lemma MontgomeryIsRinv(a: int32)
    requires -0x8000_0000 + 0x8000 * Q <= a < 0x8000_0000 - 0x8000 * Q
    ensures Cong(MontgomeryReduce(a), a * RINV, Q)
  {
    var r: int := MontgomeryReduce(a);
    var k := Quot(R * r, a, Q);
    assert RINV * R == 3327 * Q + 1;
    CongIntro(r, a * RINV, Q, k * RINV - 3327 * r);
  }

  /** Canonical residue of anything in (-Q, 2Q). */
  function CondSubQ(a: int16): (r: int16)
    ensures -Q < a < 2 * Q ==> 0 <= r < Q && r == a % Q
  {
    var b := if a < 0 then a + Q else a;
    var c := b - Q;
    if c < 0 then c + Q else c
  }

  /** The representative in [-1664, 1664]. */
  function Centred(a: int): (r: int)
    ensures -1664 <= r <= 1664
    ensures Cong(r, a, Q)
  {
    var u := a % Q;
    CongMod(a, Q);
    CongIntro(u - Q, a, Q, -(a / Q) - 1);
    if u <= 1664 then u else u - Q
  }

  lemma BarrettIsCentred(a: int16)
    ensures BarrettReduce(a) == Centred(a)
  {
    CongSym(Centred(a), a, Q);
    CongTrans(BarrettReduce(a), a, Centred(a), Q);
    CongClose(BarrettReduce(a), Centred(a), Q);
  }

  /** It is the canonical residue only for the lower half of the residues. */
  lemma BarrettCanonicalExactly(a: int16)
    ensures BarrettReduce(a) == a % Q <==> a % Q <= 1664
  {
    BarrettIsCentred(a);
  }
}
