/** Compression of ML-KEM coefficients, and the byte encodings of polynomials and vectors. */
module KemCompress {
  import opened MachineInts
  import opened Congruence
  import opened BitPacking
  import opened PolyCoding
  import opened GroupCodecs
  import opened KemConstants
  import opened KemReduce
  import opened KemPoly

  // ---------- One coefficient ----------

  /** Round 2^d x / Q, modulo 2^d. */
  function CompressCoeff(x: int16, d: int): (r: nat)
    ensures d <= 0 || d >= 16 ==> r == 0
    ensures 0 < d < 16 ==> r < Pow(2, d)
  {
    if d <= 0 || d >= 16 then 0 else
      var c0 := CondSubQ(BarrettReduce(x));
      var c := if c0 < 0 then c0 + Q else c0;
      Low((c * Pow(2, d) + Q / 2) / Q, Pow(2, d))
  }

  /** Round Q x / 2^d. */
  function DecompressCoeff(x: uint16, d: int): int16
  {
    if d <= 0 || d >= 16 then 0 else
      ToInt16((x * Q + Pow(2, d - 1)) / Pow(2, d))
  }

  /** The widths in use. */
  predicate Width(d: int)
  {
    d == 1 || d == 4 || d == 5 || d == 10 || d == 11
  }

  /** The rounded quotient, cut to the width with p = 2^d. */
  function Rounded(c: int, p: int): int
    requires p > 0
  {
    (c * p + 1664) / 3329 % p
  }

  function Expanded(y: int, h: int, p: int): int
    requires p > 0
  {
    (y * 3329 + h) / p
  }

  /** Compress_d of section 4.2.1 of FIPS 203: the nearest integer to p x / Q, modulo p = 2^d. */
  ghost predicate NearestCompressed(x: int, y: int, p: int)
    requires p > 0
  {
    exists n: int :: -Q <= 2 * (n * Q - x * p) < Q && y == n % p
  }

  lemma CompressIs(x: int16, d: int, p: int)
    requires Width(d) && p == Pow(2, d)
    ensures p > 0 && CompressCoeff(x, d) == Rounded(x % Q, p)
  {
    CongModEq(BarrettReduce(x), x, Q);
  }

  /** The code rounds to the nearest integer. */
  lemma CompressRounds(x: int16, d: int, p: int)
    requires Width(d) && p == Pow(2, d)
    ensures p > 0 && NearestCompressed(x % Q, CompressCoeff(x, d), p)
  {
    CompressIs(x, d, p);
    var c := (x % Q) * p;
    hide CompressCoeff, Pow;
    var n := (c + 1664) / 3329;
    assert -Q <= 2 * (n * Q - c) < Q;
  }

  /** The powers for each width: h = 2^(d-1) and p = 2^d. */
  lemma WidthPowers(d: int) returns (h: int, p: int)
    requires Width(d)
    ensures h == Pow(2, d - 1) && p == Pow(2, d) && PowersOf(h, p)
  {
    Powers();
    assert Pow(2, 0) == 1;
    h, p := Pow(2, d - 1), Pow(2, d);
  }

  predicate PowersOf(h: int, p: int)
  {
    (h == 1 && p == 2) || (h == 8 && p == 16) || (h == 16 && p == 32) || (h == 512 && p == 1024) || (h == 1024 && p == 2048)
  }

  lemma DecompressIs(x: nat, d: int, h: int, p: int)
    requires Width(d) && h == Pow(2, d - 1) && p == Pow(2, d) && PowersOf(h, p) && x < p
    ensures x < 0x1_0000 && DecompressCoeff(x, d) == Expanded(x, h, p) && 0 <= DecompressCoeff(x, d) < Q
  {
    hide Pow;
    ExpandedRange(x, h, p);
    hide Expanded, PowersOf;
    SmallInt16(Expanded(x, h, p));
    DecompressUnfolds(x, d, h, p);
  }

  /** The code rounds x Q / 2^d to the nearest integer, and halves upwards. */
  lemma DecompressRounds(x: nat, d: int, p: int)
    requires Width(d) && p == Pow(2, d) && x < p
    ensures x < 0x1_0000 && -p < 2 * (p * DecompressCoeff(x, d) - x * 3329) <= p
  {
    var h, q := WidthPowers(d);
    DecompressIs(x, d, h, p);
    hide DecompressCoeff, Pow;
    ExpandedRounds(x, h, p);
  }

  lemma ExpandedRounds(x: int, h: int, p: int)
    requires PowersOf(h, p)
    ensures -p < 2 * (p * Expanded(x, h, p) - x * 3329) <= p
  {
    if p == 2 {} else if p == 16 {} else if p == 32 {} else if p == 1024 {} else {}
  }

  lemma SmallInt16(x: int)
    requires 0 <= x < 0x8000
    ensures ToInt16(x) == x
  {}

  lemma DecompressUnfolds(x: uint16, d: int, h: int, p: int)
    requires Width(d) && h == Pow(2, d - 1) && p == Pow(2, d)
    ensures DecompressCoeff(x, d) == ToInt16(Expanded(x, h, p))
  {
    hide ToInt16, Pow;
  }

  lemma ExpandedRange(x: int, h: int, p: int)
    requires PowersOf(h, p) && 0 <= x < p
    ensures 0 <= Expanded(x, h, p) < 3329
  {
    if p == 2 {} else if p == 16 {} else if p == 32 {} else if p == 1024 {} else {}
  }

  /** Compressing undoes decompressing. */
  lemma CompressDecompress(x: nat, d: int)
    requires Width(d) && x < Pow(2, d)
    ensures x < 0x1_0000 && 0 <= DecompressCoeff(x, d) < Q
    ensures CompressCoeff(DecompressCoeff(x, d), d) == x
  {
    hide CompressCoeff, DecompressCoeff, Pow, Rounded, Expanded;
    var h, p := WidthPowers(d);
    DecompressIs(x, d, h, p);
    CompressIs(DecompressCoeff(x, d), d, p);
    RoundedExpanded(x, h, p);
  }

  lemma RoundedExpanded(x: int, h: int, p: int)
    requires PowersOf(h, p) && 0 <= x < p
    ensures Rounded(Expanded(x, h, p), p) == x
  {
    hide Rounded, Expanded;
    if p == 2 {
      Back2(x);
    } else if p == 16 {
      Back16(x);
    } else if p == 32 {
      Back32(x);
    } else if p == 1024 {
      Back1024(x);
    } else {
      Back2048(x);
    }
  }

  /** The rounded quotient is x if the product lies less than half a Q from x Q. */
  lemma RoundsTo(y: int, p: int, x: int)
    requires 0 <= x < p && x * 3329 - 1664 <= y * p <= x * 3329 + 1664
    ensures Rounded(y, p) == x
  {
    assert (y * p + 1664) / 3329 == x;
    SmallDigit(x, p);
  }

  lemma Back2(x: int)
    requires 0 <= x < 2
    ensures Rounded(Expanded(x, 1, 2), 2) == x
  {
    hide *;
    var y := Expanded(x, 1, 2);
    ExpandedBy2(x);
    RoundsTo(y, 2, x);
  }

  lemma ExpandedBy2(x: int)
    ensures x * 3329 - 1 < 2 * Expanded(x, 1, 2) <= x * 3329 + 1
  {}

  lemma Back16(x: int)
    requires 0 <= x < 16
    ensures Rounded(Expanded(x, 8, 16), 16) == x
  {
    hide *;
    var y := Expanded(x, 8, 16);
    ExpandedBy16(x);
    RoundsTo(y, 16, x);
  }

  lemma ExpandedBy16(x: int)
    ensures x * 3329 - 8 < 16 * Expanded(x, 8, 16) <= x * 3329 + 8
  {}

  lemma Back32(x: int)
    requires 0 <= x < 32
    ensures Rounded(Expanded(x, 16, 32), 32) == x
  {
    hide *;
    var y := Expanded(x, 16, 32);
    ExpandedBy32(x);
    RoundsTo(y, 32, x);
  }

  lemma ExpandedBy32(x: int)
    ensures x * 3329 - 16 < 32 * Expanded(x, 16, 32) <= x * 3329 + 16
  {}

  lemma Back1024(x: int)
    requires 0 <= x < 1024
    ensures Rounded(Expanded(x, 512, 1024), 1024) == x
  {
    hide *;
    var y := Expanded(x, 512, 1024);
    ExpandedBy1024(x);
    RoundsTo(y, 1024, x);
  }

  lemma ExpandedBy1024(x: int)
    ensures x * 3329 - 512 < 1024 * Expanded(x, 512, 1024) <= x * 3329 + 512
  {}

  lemma Back2048(x: int)
    requires 0 <= x < 2048
    ensures Rounded(Expanded(x, 1024, 2048), 2048) == x
  {
    hide *;
    var y := Expanded(x, 1024, 2048);
    ExpandedBy2048(x);
    RoundsTo(y, 2048, x);
  }

  lemma ExpandedBy2048(x: int)
    ensures x * 3329 - 1024 < 2048 * Expanded(x, 1024, 2048) <= x * 3329 + 1024
  {}

  /** How far a coefficient moves when it is compressed and decompressed: round(Q / 2^(d+1)). */
  function MaxError(d: int): int
    requires Width(d)
  {
    if d == 1 then 832 else if d == 4 then 104 else if d == 5 then 52 else if d == 10 then 2 else 1
  }

  lemma CompressionError(x: int16, d: int)
    requires Width(d)
    ensures CompressCoeff(x, d) < 0x1_0000
    ensures -MaxError(d) <= Centred(DecompressCoeff(CompressCoeff(x, d), d) - x) <= MaxError(d)
  {
    hide CompressCoeff, DecompressCoeff, Pow, Centred, Rounded, Expanded;
    var h, p := WidthPowers(d);
    CompressIs(x, d, p);
    var y := CompressCoeff(x, d);
    DecompressIs(y, d, h, p);
    WidthOfPower(d, p);
    RoundingError(x % Q, h, p, MaxError(d));
    Shift(x, Expanded(y, h, p));
  }

  lemma WidthOfPower(d: int, p: int)
    requires Width(d) && p == Pow(2, d)
    ensures p == if d == 1 then 2 else if d == 4 then 16 else if d == 5 then 32 else if d == 10 then 1024 else 2048
  {
    Powers();
  }

  lemma Shift(x: int, z: int)
    ensures Centred(z - x) == Centred(z - x % Q)
  {
    CongMod(x, Q);
    CongIntro(z - x, z - x % Q, Q, -(x / Q));
    CongModEq(z - x, z - x % Q, Q);
  }

  lemma RoundingError(c: int, h: int, p: int, bound: int)
    requires 0 <= c < 3329 && PowersOf(h, p)
    requires bound == if p == 2 then 832 else if p == 16 then 104 else if p == 32 then 52 else if p == 1024 then 2 else 1
    ensures -bound <= Centred(Expanded(Rounded(c, p), h, p) - c) <= bound
  {
    hide Centred, Rounded, Expanded;
    if p == 2 {
      Off2(c);
    } else if p == 16 {
      Off16(c);
    } else if p == 32 {
      Off32(c);
    } else if p == 1024 {
      Off1024(c);
    } else {
      Off2048(c);
    }
  }

  /** A value close to c, or zero with c close to Q, has a small centred distance from c. */
  lemma CloseOrWrapped(c: int, z: int, bound: int)
    requires 0 <= c < Q && 0 <= bound <= 1664 && (-bound <= z - c <= bound || (z == 0 && c >= Q - bound))
    ensures -bound <= Centred(z - c) <= bound
  {
    hide Centred;
    if -bound <= z - c <= bound {
      SmallIsCentred(z - c, z - c, 0);
    } else {
      SmallIsCentred(z - c, Q - c, -1);
    }
  }

  lemma Off2(c: int)
    requires 0 <= c < 3329
    ensures -832 <= Centred(Expanded(Rounded(c, 2), 1, 2) - c) <= 832
  {
    hide *;
    var n, z := Window2(c);
    QIs();
    CloseOrWrapped(c, z, 832);
  }

  lemma Window2(c: int) returns (n: int, z: int)
    requires 0 <= c < 3329
    ensures n == Rounded(c, 2) && z == Expanded(n, 1, 2) && (-832 <= z - c <= 832 || (z == 0 && c >= 3329 - 832))
  {
    var m := (c * 2 + 1664) / 3329;
    n := if m == 2 then 0 else m;
    z := (n * 3329 + 1) / 2;
  }

  lemma Off16(c: int)
    requires 0 <= c < 3329
    ensures -104 <= Centred(Expanded(Rounded(c, 16), 8, 16) - c) <= 104
  {
    hide *;
    var n, z := Window16(c);
    QIs();
    CloseOrWrapped(c, z, 104);
  }

  lemma Window16(c: int) returns (n: int, z: int)
    requires 0 <= c < 3329
    ensures n == Rounded(c, 16) && z == Expanded(n, 8, 16) && (-104 <= z - c <= 104 || (z == 0 && c >= 3329 - 104))
  {
    var m := (c * 16 + 1664) / 3329;
    n := if m == 16 then 0 else m;
    z := (n * 3329 + 8) / 16;
  }

  lemma Off32(c: int)
    requires 0 <= c < 3329
    ensures -52 <= Centred(Expanded(Rounded(c, 32), 16, 32) - c) <= 52
  {
    hide *;
    var n, z := Window32(c);
    QIs();
    CloseOrWrapped(c, z, 52);
  }

  lemma Window32(c: int) returns (n: int, z: int)
    requires 0 <= c < 3329
    ensures n == Rounded(c, 32) && z == Expanded(n, 16, 32) && (-52 <= z - c <= 52 || (z == 0 && c >= 3329 - 52))
  {
    var m := (c * 32 + 1664) / 3329;
    n := if m == 32 then 0 else m;
    z := (n * 3329 + 16) / 32;
  }

  lemma Off1024(c: int)
    requires 0 <= c < 3329
    ensures -2 <= Centred(Expanded(Rounded(c, 1024), 512, 1024) - c) <= 2
  {
    hide *;
    var n, z := Window1024(c);
    QIs();
    CloseOrWrapped(c, z, 2);
  }

  lemma Window1024(c: int) returns (n: int, z: int)
    requires 0 <= c < 3329
    ensures n == Rounded(c, 1024) && z == Expanded(n, 512, 1024) && (-2 <= z - c <= 2 || (z == 0 && c >= 3329 - 2))
  {
    var m := (c * 1024 + 1664) / 3329;
    n := if m == 1024 then 0 else m;
    z := (n * 3329 + 512) / 1024;
  }

  lemma Off2048(c: int)
    requires 0 <= c < 3329
    ensures -1 <= Centred(Expanded(Rounded(c, 2048), 1024, 2048) - c) <= 1
  {
    hide *;
    var n, z := Window2048(c);
    QIs();
    CloseOrWrapped(c, z, 1);
  }

  lemma Window2048(c: int) returns (n: int, z: int)
    requires 0 <= c < 3329
    ensures n == Rounded(c, 2048) && z == Expanded(n, 1024, 2048) && -1 <= z - c <= 1
  {
    var m := (c * 2048 + 1664) / 3329;
    n := m;
    z := (n * 3329 + 1024) / 2048;
  }

  /** A number of magnitude at most 1664 is the centred residue of what it differs from by a multiple of Q. */
  lemma SmallIsCentred(a: int, e: int, k: int)
    requires a == e + k * Q && -1664 <= e <= 1664
    ensures Centred(a) == e
  {
    CongIntro(e, a, Q, -k);
    CongSym(Centred(a), a, Q);
    CongTrans(e, a, Centred(a), Q);
    CongClose(e, Centred(a), Q);
  }
}
