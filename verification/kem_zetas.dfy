/** The root tables of the ML-KEM transform, in Montgomery form (R times the root modulo Q). */
module KemZetas {
  import opened BitReversal
  import opened Congruence
  import opened NttTower
  import KemConstants

  function Row0(c: nat): (z: int)
    ensures 0 < z < 3329
  {
    match c
    case 0 => 2285 case 1 => 2571 case 2 => 2970 case 3 => 1812 case 4 => 1493 case 5 => 1422 case 6 => 287 case 7 => 202
    case 8 => 3158 case 9 => 622 case 10 => 1577 case 11 => 182 case 12 => 962 case 13 => 2127 case 14 => 1855 case _ => 1468
  }

  function Row1(c: nat): (z: int)
    ensures 0 < z < 3329
  {
    match c
    case 0 => 573 case 1 => 2004 case 2 => 264 case 3 => 383 case 4 => 2500 case 5 => 1458 case 6 => 1727 case 7 => 3199
    case 8 => 2648 case 9 => 1017 case 10 => 732 case 11 => 608 case 12 => 1787 case 13 => 411 case 14 => 3124 case _ => 1758
  }

  function Row2(c: nat): (z: int)
    ensures 0 < z < 3329
  {
    match c
    case 0 => 1223 case 1 => 652 case 2 => 2777 case 3 => 1015 case 4 => 2036 case 5 => 1491 case 6 => 3047 case 7 => 1785
    case 8 => 516 case 9 => 3321 case 10 => 3009 case 11 => 2663 case 12 => 1711 case 13 => 2167 case 14 => 126 case _ => 1469
  }

  function Row3(c: nat): (z: int)
    ensures 0 < z < 3329
  {
    match c
    case 0 => 2476 case 1 => 3239 case 2 => 3058 case 3 => 830 case 4 => 107 case 5 => 1908 case 6 => 3082 case 7 => 2378
    case 8 => 2931 case 9 => 961 case 10 => 1821 case 11 => 2604 case 12 => 448 case 13 => 2264 case 14 => 677 case _ => 2054
  }

  function Row4(c: nat): (z: int)
    ensures 0 < z < 3329
  {
    match c
    case 0 => 2226 case 1 => 430 case 2 => 555 case 3 => 843 case 4 => 2078 case 5 => 871 case 6 => 1550 case 7 => 105
    case 8 => 422 case 9 => 587 case 10 => 177 case 11 => 3094 case 12 => 3038 case 13 => 2869 case 14 => 1574 case _ => 1653
  }

  function Row5(c: nat): (z: int)
    ensures 0 < z < 3329
  {
    match c
    case 0 => 3083 case 1 => 778 case 2 => 1159 case 3 => 3182 case 4 => 2552 case 5 => 1483 case 6 => 2727 case 7 => 1119
    case 8 => 1739 case 9 => 644 case 10 => 2457 case 11 => 349 case 12 => 418 case 13 => 329 case 14 => 3173 case _ => 3254
  }

  function Row6(c: nat): (z: int)
    ensures 0 < z < 3329
  {
    match c
    case 0 => 817 case 1 => 1097 case 2 => 603 case 3 => 610 case 4 => 1322 case 5 => 2044 case 6 => 1864 case 7 => 384
    case 8 => 2114 case 9 => 3193 case 10 => 1218 case 11 => 1994 case 12 => 2455 case 13 => 220 case 14 => 2142 case _ => 1670
  }

  function Row7(c: nat): (z: int)
    ensures 0 < z < 3329
  {
    match c
    case 0 => 2144 case 1 => 1799 case 2 => 2051 case 3 => 794 case 4 => 1819 case 5 => 2475 case 6 => 2459 case 7 => 478
    case 8 => 3221 case 9 => 3021 case 10 => 996 case 11 => 991 case 12 => 958 case 13 => 1869 case 14 => 1522 case _ => 1628
  }

  /** Entry k: R times the root used at node k of the splitting tree. */
  function Zeta(k: nat): (z: int)
    requires k < 128
    ensures 0 < z < 3329
  {
    if k < 16 then Row0(k)
    else if k < 32 then Row1(k - 16)
    else if k < 48 then Row2(k - 32)
    else if k < 64 then Row3(k - 48)
    else if k < 80 then Row4(k - 64)
    else if k < 96 then Row5(k - 80)
    else if k < 112 then Row6(k - 96)
    else Row7(k - 112)
  }

  /** The first node of the level of n. */
  function LevelStart(n: nat): (c: nat)
    requires 1 <= n < 128
    ensures c <= n < 2 * c && 2 * c <= 128
  {
    if n < 2 then 1 else if n < 4 then 2 else if n < 8 then 4 else if n < 16 then 8 else if n < 32 then 16 else if n < 64 then 32 else 64
  }

  /** A node's entry, its children's entries and its mirror's entry: the children square to plus and minus R times
      the entry, the mirrored entries multiply to -R^2. */
  predicate Inner(z: int, lo: int, hi: int, mirror: int)
  {
    && (lo * lo - z * KemConstants.R) % KemConstants.Q == 0
    && (hi * hi + z * KemConstants.R) % KemConstants.Q == 0
    && (z * mirror + KemConstants.R * KemConstants.R) % KemConstants.Q == 0
  }

  predicate Mirrored(z: int, mirror: int)
  {
    (z * mirror + KemConstants.R * KemConstants.R) % KemConstants.Q == 0
  }

  predicate InnerOk(n: nat)
    requires 1 <= n < 64
  {
    Inner(Zeta(n), Zeta(2 * n), Zeta(2 * n + 1), Zeta(3 * LevelStart(n) - 1 - n))
  }


  lemma Inner1(n: nat)
    requires 1 <= n < 8
    ensures InnerOk(n)
  {
    assert Inner(2571, 2970, 1812, 2571);
    assert Inner(2970, 1493, 1422, 1812);
    assert Inner(1812, 287, 202, 2970);
    assert Inner(1493, 3158, 622, 202);
    assert Inner(1422, 1577, 182, 287);
    assert Inner(287, 962, 2127, 1422);
    assert Inner(202, 1855, 1468, 1493);
    hide Inner;
  }

  lemma Inner8(n: nat)
    requires 8 <= n < 16
    ensures InnerOk(n)
  {
    assert Inner(3158, 573, 2004, 1468);
    assert Inner(622, 264, 383, 1855);
    assert Inner(1577, 2500, 1458, 2127);
    assert Inner(182, 1727, 3199, 962);
    assert Inner(962, 2648, 1017, 182);
    assert Inner(2127, 732, 608, 1577);
    assert Inner(1855, 1787, 411, 622);
    assert Inner(1468, 3124, 1758, 3158);
    hide Inner;
  }

  lemma Inner16(n: nat)
    requires 16 <= n < 24
    ensures InnerOk(n)
  {
    assert Inner(573, 1223, 652, 1758);
    assert Inner(2004, 2777, 1015, 3124);
    assert Inner(264, 2036, 1491, 411);
    assert Inner(383, 3047, 1785, 1787);
    assert Inner(2500, 516, 3321, 608);
    assert Inner(1458, 3009, 2663, 732);
    assert Inner(1727, 1711, 2167, 1017);
    assert Inner(3199, 126, 1469, 2648);
    hide Inner;
  }

  lemma Inner24(n: nat)
    requires 24 <= n < 32
    ensures InnerOk(n)
  {
    assert Inner(2648, 2476, 3239, 3199);
    assert Inner(1017, 3058, 830, 1727);
    assert Inner(732, 107, 1908, 1458);
    assert Inner(608, 3082, 2378, 2500);
    assert Inner(1787, 2931, 961, 383);
    assert Inner(411, 1821, 2604, 264);
    assert Inner(3124, 448, 2264, 2004);
    assert Inner(1758, 677, 2054, 573);
    hide Inner;
  }

  lemma Inner32(n: nat)
    requires 32 <= n < 40
    ensures InnerOk(n)
  {
    assert Inner(1223, 2226, 430, 2054);
    assert Inner(652, 555, 843, 677);
    assert Inner(2777, 2078, 871, 2264);
    assert Inner(1015, 1550, 105, 448);
    assert Inner(2036, 422, 587, 2604);
    assert Inner(1491, 177, 3094, 1821);
    assert Inner(3047, 3038, 2869, 961);
    assert Inner(1785, 1574, 1653, 2931);
    hide Inner;
  }

  lemma Inner40(n: nat)
    requires 40 <= n < 48
    ensures InnerOk(n)
  {
    assert Inner(516, 3083, 778, 2378);
    assert Inner(3321, 1159, 3182, 3082);
    assert Inner(3009, 2552, 1483, 1908);
    assert Inner(2663, 2727, 1119, 107);
    assert Inner(1711, 1739, 644, 830);
    assert Inner(2167, 2457, 349, 3058);
    assert Inner(126, 418, 329, 3239);
    assert Inner(1469, 3173, 3254, 2476);
    hide Inner;
  }

  lemma Inner48(n: nat)
    requires 48 <= n < 56
    ensures InnerOk(n)
  {
    assert Inner(2476, 817, 1097, 1469);
    assert Inner(3239, 603, 610, 126);
    assert Inner(3058, 1322, 2044, 2167);
    assert Inner(830, 1864, 384, 1711);
    assert Inner(107, 2114, 3193, 2663);
    assert Inner(1908, 1218, 1994, 3009);
    assert Inner(3082, 2455, 220, 3321);
    assert Inner(2378, 2142, 1670, 516);
    hide Inner;
  }

  lemma Inner56(n: nat)
    requires 56 <= n < 64
    ensures InnerOk(n)
  {
    assert Inner(2931, 2144, 1799, 1785);
    assert Inner(961, 2051, 794, 3047);
    assert Inner(1821, 1819, 2475, 1491);
    assert Inner(2604, 2459, 478, 2036);
    assert Inner(448, 3221, 3021, 1015);
    assert Inner(2264, 996, 991, 2777);
    assert Inner(677, 958, 1869, 652);
    assert Inner(2054, 1522, 1628, 1223);
    hide Inner;
  }

  lemma Mirrored64(n: nat)
    requires 64 <= n < 80
    ensures Mirrored(Zeta(n), Zeta(191 - n))
  {
    assert Mirrored(2226, 1628) && Mirrored(430, 1522) && Mirrored(555, 1869) && Mirrored(843, 958);
    assert Mirrored(2078, 991) && Mirrored(871, 996) && Mirrored(1550, 3021) && Mirrored(105, 3221);
    assert Mirrored(422, 478) && Mirrored(587, 2459) && Mirrored(177, 2475) && Mirrored(3094, 1819);
    assert Mirrored(3038, 794) && Mirrored(2869, 2051) && Mirrored(1574, 1799) && Mirrored(1653, 2144);
    hide Mirrored;
  }

  lemma Mirrored80(n: nat)
    requires 80 <= n < 96
    ensures Mirrored(Zeta(n), Zeta(191 - n))
  {
    assert Mirrored(3083, 1670) && Mirrored(778, 2142) && Mirrored(1159, 220) && Mirrored(3182, 2455);
    assert Mirrored(2552, 1994) && Mirrored(1483, 1218) && Mirrored(2727, 3193) && Mirrored(1119, 2114);
    assert Mirrored(1739, 384) && Mirrored(644, 1864) && Mirrored(2457, 2044) && Mirrored(349, 1322);
    assert Mirrored(418, 610) && Mirrored(329, 603) && Mirrored(3173, 1097) && Mirrored(3254, 817);
    hide Mirrored;
  }

  lemma InnerHolds(n: nat)
    requires 1 <= n < 64
    ensures InnerOk(n)
  {
    hide InnerOk;
    if n < 8 {
      Inner1(n);
    } else if n < 16 {
      Inner8(n);
    } else if n < 24 {
      Inner16(n);
    } else if n < 32 {
      Inner24(n);
    } else if n < 40 {
      Inner32(n);
    } else if n < 48 {
      Inner40(n);
    } else if n < 56 {
      Inner48(n);
    } else {
      Inner56(n);
    }
  }

  lemma MirroredTop(k: nat)
    requires 64 <= k < 96
    ensures Mirrored(Zeta(k), Zeta(191 - k))
  {
    hide Mirrored;
    if k < 80 {
      Mirrored64(k);
    } else {
      Mirrored80(k);
    }
  }

  lemma MirroredSwaps(a: int, b: int)
    ensures Mirrored(a, b) <==> Mirrored(b, a)
  {
    assert a * b == b * a;
  }

  lemma MirroredHolds(n: nat)
    requires 1 <= n < 128
    ensures Mirrored(Zeta(n), Zeta(3 * LevelStart(n) - 1 - n))
  {
    hide Zeta, Mirrored;
    if n < 64 {
      InnerHolds(n);
      InnerIsMirrored(n);
    } else if n < 96 {
      MirroredTop(n);
    } else {
      MirroredTop(191 - n);
      MirroredSwaps(Zeta(191 - n), Zeta(n));
    }
  }

  lemma InnerIsMirrored(n: nat)
    requires 1 <= n < 64 && InnerOk(n)
    ensures Mirrored(Zeta(n), Zeta(3 * LevelStart(n) - 1 - n))
  {
    hide Zeta;
  }

  // ---------- The table of the inverse transform ----------

  function InverseRow0(c: nat): (z: int)
    ensures 0 < z < 3329
  {
    match c
    case 0 => 1628 case 1 => 1522 case 2 => 1869 case 3 => 958 case 4 => 991 case 5 => 996 case 6 => 3021 case 7 => 3221
    case 8 => 478 case 9 => 2459 case 10 => 2475 case 11 => 1819 case 12 => 794 case 13 => 2051 case 14 => 1799 case _ => 2144
  }

  function InverseRow1(c: nat): (z: int)
    ensures 0 < z < 3329
  {
    match c
    case 0 => 1670 case 1 => 2142 case 2 => 220 case 3 => 2455 case 4 => 1994 case 5 => 1218 case 6 => 3193 case 7 => 2114
    case 8 => 384 case 9 => 1864 case 10 => 2044 case 11 => 1322 case 12 => 610 case 13 => 603 case 14 => 1097 case _ => 817
  }

  function InverseRow2(c: nat): (z: int)
    ensures 0 < z < 3329
  {
    match c
    case 0 => 3254 case 1 => 3173 case 2 => 329 case 3 => 418 case 4 => 349 case 5 => 2457 case 6 => 644 case 7 => 1739
    case 8 => 1119 case 9 => 2727 case 10 => 1483 case 11 => 2552 case 12 => 3182 case 13 => 1159 case 14 => 778 case _ => 3083
  }

  function InverseRow3(c: nat): (z: int)
    ensures 0 < z < 3329
  {
    match c
    case 0 => 1653 case 1 => 1574 case 2 => 2869 case 3 => 3038 case 4 => 3094 case 5 => 177 case 6 => 587 case 7 => 422
    case 8 => 105 case 9 => 1550 case 10 => 871 case 11 => 2078 case 12 => 843 case 13 => 555 case 14 => 430 case _ => 2226
  }

  function InverseRow4(c: nat): (z: int)
    ensures 0 < z < 3329
  {
    match c
    case 0 => 2054 case 1 => 677 case 2 => 2264 case 3 => 448 case 4 => 2604 case 5 => 1821 case 6 => 961 case 7 => 2931
    case 8 => 2378 case 9 => 3082 case 10 => 1908 case 11 => 107 case 12 => 830 case 13 => 3058 case 14 => 3239 case _ => 2476
  }

  function InverseRow5(c: nat): (z: int)
    ensures 0 < z < 3329
  {
    match c
    case 0 => 1469 case 1 => 126 case 2 => 2167 case 3 => 1711 case 4 => 2663 case 5 => 3009 case 6 => 3321 case 7 => 516
    case 8 => 1785 case 9 => 3047 case 10 => 1491 case 11 => 2036 case 12 => 1015 case 13 => 2777 case 14 => 652 case _ => 1223
  }

  function InverseRow6(c: nat): (z: int)
    ensures 0 < z < 3329
  {
    match c
    case 0 => 1758 case 1 => 3124 case 2 => 411 case 3 => 1787 case 4 => 608 case 5 => 732 case 6 => 1017 case 7 => 2648
    case 8 => 3199 case 9 => 1727 case 10 => 1458 case 11 => 2500 case 12 => 383 case 13 => 264 case 14 => 2004 case _ => 573
  }

  function InverseRow7(c: nat): (z: int)
    ensures 0 < z < 3329
  {
    match c
    case 0 => 1468 case 1 => 1855 case 2 => 2127 case 3 => 962 case 4 => 182 case 5 => 1577 case 6 => 622 case 7 => 3158
    case 8 => 202 case 9 => 287 case 10 => 1422 case 11 => 1493 case 12 => 1812 case 13 => 2970 case 14 => 2571 case _ => 2285
  }

  function ZetaInv(k: nat): (z: int)
    requires k < 128
    ensures 0 < z < 3329
  {
    if k < 16 then InverseRow0(k)
    else if k < 32 then InverseRow1(k - 16)
    else if k < 48 then InverseRow2(k - 32)
    else if k < 64 then InverseRow3(k - 48)
    else if k < 80 then InverseRow4(k - 64)
    else if k < 96 then InverseRow5(k - 80)
    else if k < 112 then InverseRow6(k - 96)
    else InverseRow7(k - 112)
  }

  /** The second table is the first one backwards. */
  lemma InverseTableIsReversed(k: nat)
    requires k < 128
    ensures ZetaInv(k) == Zeta(127 - k)
  {
    if k < 16 {
      InverseRowIsReversed0(k - 0);
    } else if k < 32 {
      InverseRowIsReversed1(k - 16);
    } else if k < 48 {
      InverseRowIsReversed2(k - 32);
    } else if k < 64 {
      InverseRowIsReversed3(k - 48);
    } else if k < 80 {
      InverseRowIsReversed4(k - 64);
    } else if k < 96 {
      InverseRowIsReversed5(k - 80);
    } else if k < 112 {
      InverseRowIsReversed6(k - 96);
    } else {
      InverseRowIsReversed7(k - 112);
    }
  }

  lemma InverseRowIsReversed0(c: nat)
    requires c < 16
    ensures InverseRow0(c) == Row7(15 - c)
  {}

  lemma InverseRowIsReversed1(c: nat)
    requires c < 16
    ensures InverseRow1(c) == Row6(15 - c)
  {}

  lemma InverseRowIsReversed2(c: nat)
    requires c < 16
    ensures InverseRow2(c) == Row5(15 - c)
  {}

  lemma InverseRowIsReversed3(c: nat)
    requires c < 16
    ensures InverseRow3(c) == Row4(15 - c)
  {}

  lemma InverseRowIsReversed4(c: nat)
    requires c < 16
    ensures InverseRow4(c) == Row3(15 - c)
  {}

  lemma InverseRowIsReversed5(c: nat)
    requires c < 16
    ensures InverseRow5(c) == Row2(15 - c)
  {}

  lemma InverseRowIsReversed6(c: nat)
    requires c < 16
    ensures InverseRow6(c) == Row1(15 - c)
  {}

  lemma InverseRowIsReversed7(c: nat)
    requires c < 16
    ensures InverseRow7(c) == Row0(15 - c)
  {}

  // ---------- The entries are the powers of one root, in bit-reversed order ----------

  /** The entry x is the product of the entries z and w. */
  predicate Product(z: int, w: int, x: int)
  {
    (z * w - KemConstants.R * x) % KemConstants.Q == 0
  }

  predicate ProductOk(k: nat)
    requires 1 <= k < 128
  {
    Product(Zeta(LevelStart(k)), Zeta(k - LevelStart(k)), Zeta(k))
  }

  lemma Product1(k: nat)
    requires 1 <= k < 8 && k != LevelStart(k)
    ensures ProductOk(k)
  {
    assert Product(2970, 2571, 1812);
    assert Product(1493, 2571, 1422);
    assert Product(1493, 2970, 287);
    assert Product(1493, 1812, 202);
    hide Product;
  }

  lemma Product8(k: nat)
    requires 8 <= k < 16 && k != LevelStart(k)
    ensures ProductOk(k)
  {
    assert Product(3158, 2571, 622);
    assert Product(3158, 2970, 1577);
    assert Product(3158, 1812, 182);
    assert Product(3158, 1493, 962);
    assert Product(3158, 1422, 2127);
    assert Product(3158, 287, 1855);
    assert Product(3158, 202, 1468);
    hide Product;
  }

  lemma Product16(k: nat)
    requires 16 <= k < 24 && k != LevelStart(k)
    ensures ProductOk(k)
  {
    assert Product(573, 2571, 2004);
    assert Product(573, 2970, 264);
    assert Product(573, 1812, 383);
    assert Product(573, 1493, 2500);
    assert Product(573, 1422, 1458);
    assert Product(573, 287, 1727);
    assert Product(573, 202, 3199);
    hide Product;
  }

  lemma Product24(k: nat)
    requires 24 <= k < 32 && k != LevelStart(k)
    ensures ProductOk(k)
  {
    assert Product(573, 3158, 2648);
    assert Product(573, 622, 1017);
    assert Product(573, 1577, 732);
    assert Product(573, 182, 608);
    assert Product(573, 962, 1787);
    assert Product(573, 2127, 411);
    assert Product(573, 1855, 3124);
    assert Product(573, 1468, 1758);
    hide Product;
  }

  lemma Product32(k: nat)
    requires 32 <= k < 40 && k != LevelStart(k)
    ensures ProductOk(k)
  {
    assert Product(1223, 2571, 652);
    assert Product(1223, 2970, 2777);
    assert Product(1223, 1812, 1015);
    assert Product(1223, 1493, 2036);
    assert Product(1223, 1422, 1491);
    assert Product(1223, 287, 3047);
    assert Product(1223, 202, 1785);
    hide Product;
  }

  lemma Product40(k: nat)
    requires 40 <= k < 48 && k != LevelStart(k)
    ensures ProductOk(k)
  {
    assert Product(1223, 3158, 516);
    assert Product(1223, 622, 3321);
    assert Product(1223, 1577, 3009);
    assert Product(1223, 182, 2663);
    assert Product(1223, 962, 1711);
    assert Product(1223, 2127, 2167);
    assert Product(1223, 1855, 126);
    assert Product(1223, 1468, 1469);
    hide Product;
  }

  lemma Product48(k: nat)
    requires 48 <= k < 56 && k != LevelStart(k)
    ensures ProductOk(k)
  {
    assert Product(1223, 573, 2476);
    assert Product(1223, 2004, 3239);
    assert Product(1223, 264, 3058);
    assert Product(1223, 383, 830);
    assert Product(1223, 2500, 107);
    assert Product(1223, 1458, 1908);
    assert Product(1223, 1727, 3082);
    assert Product(1223, 3199, 2378);
    hide Product;
  }

  lemma Product56(k: nat)
    requires 56 <= k < 64 && k != LevelStart(k)
    ensures ProductOk(k)
  {
    assert Product(1223, 2648, 2931);
    assert Product(1223, 1017, 961);
    assert Product(1223, 732, 1821);
    assert Product(1223, 608, 2604);
    assert Product(1223, 1787, 448);
    assert Product(1223, 411, 2264);
    assert Product(1223, 3124, 677);
    assert Product(1223, 1758, 2054);
    hide Product;
  }

  lemma Product64(k: nat)
    requires 64 <= k < 72 && k != LevelStart(k)
    ensures ProductOk(k)
  {
    assert Product(2226, 2571, 430);
    assert Product(2226, 2970, 555);
    assert Product(2226, 1812, 843);
    assert Product(2226, 1493, 2078);
    assert Product(2226, 1422, 871);
    assert Product(2226, 287, 1550);
    assert Product(2226, 202, 105);
    hide Product;
  }

  lemma Product72(k: nat)
    requires 72 <= k < 80 && k != LevelStart(k)
    ensures ProductOk(k)
  {
    assert Product(2226, 3158, 422);
    assert Product(2226, 622, 587);
    assert Product(2226, 1577, 177);
    assert Product(2226, 182, 3094);
    assert Product(2226, 962, 3038);
    assert Product(2226, 2127, 2869);
    assert Product(2226, 1855, 1574);
    assert Product(2226, 1468, 1653);
    hide Product;
  }

  lemma Product80(k: nat)
    requires 80 <= k < 88 && k != LevelStart(k)
    ensures ProductOk(k)
  {
    assert Product(2226, 573, 3083);
    assert Product(2226, 2004, 778);
    assert Product(2226, 264, 1159);
    assert Product(2226, 383, 3182);
    assert Product(2226, 2500, 2552);
    assert Product(2226, 1458, 1483);
    assert Product(2226, 1727, 2727);
    assert Product(2226, 3199, 1119);
    hide Product;
  }

  lemma Product88(k: nat)
    requires 88 <= k < 96 && k != LevelStart(k)
    ensures ProductOk(k)
  {
    assert Product(2226, 2648, 1739);
    assert Product(2226, 1017, 644);
    assert Product(2226, 732, 2457);
    assert Product(2226, 608, 349);
    assert Product(2226, 1787, 418);
    assert Product(2226, 411, 329);
    assert Product(2226, 3124, 3173);
    assert Product(2226, 1758, 3254);
    hide Product;
  }

  lemma Product96(k: nat)
    requires 96 <= k < 104 && k != LevelStart(k)
    ensures ProductOk(k)
  {
    assert Product(2226, 1223, 817);
    assert Product(2226, 652, 1097);
    assert Product(2226, 2777, 603);
    assert Product(2226, 1015, 610);
    assert Product(2226, 2036, 1322);
    assert Product(2226, 1491, 2044);
    assert Product(2226, 3047, 1864);
    assert Product(2226, 1785, 384);
    hide Product;
  }

  lemma Product104(k: nat)
    requires 104 <= k < 112 && k != LevelStart(k)
    ensures ProductOk(k)
  {
    assert Product(2226, 516, 2114);
    assert Product(2226, 3321, 3193);
    assert Product(2226, 3009, 1218);
    assert Product(2226, 2663, 1994);
    assert Product(2226, 1711, 2455);
    assert Product(2226, 2167, 220);
    assert Product(2226, 126, 2142);
    assert Product(2226, 1469, 1670);
    hide Product;
  }

  lemma Product112(k: nat)
    requires 112 <= k < 120 && k != LevelStart(k)
    ensures ProductOk(k)
  {
    assert Product(2226, 2476, 2144);
    assert Product(2226, 3239, 1799);
    assert Product(2226, 3058, 2051);
    assert Product(2226, 830, 794);
    assert Product(2226, 107, 1819);
    assert Product(2226, 1908, 2475);
    assert Product(2226, 3082, 2459);
    assert Product(2226, 2378, 478);
    hide Product;
  }

  lemma Product120(k: nat)
    requires 120 <= k < 128 && k != LevelStart(k)
    ensures ProductOk(k)
  {
    assert Product(2226, 2931, 3221);
    assert Product(2226, 961, 3021);
    assert Product(2226, 1821, 996);
    assert Product(2226, 2604, 991);
    assert Product(2226, 448, 958);
    assert Product(2226, 2264, 1869);
    assert Product(2226, 677, 1522);
    assert Product(2226, 2054, 1628);
    hide Product;
  }

  lemma ProductHolds(k: nat)
    requires 1 <= k < 128 && k != LevelStart(k)
    ensures ProductOk(k)
  {
    hide ProductOk;
    if k < 8 {
      Product1(k);
    } else if k < 16 {
      Product8(k);
    } else if k < 24 {
      Product16(k);
    } else if k < 32 {
      Product24(k);
    } else if k < 40 {
      Product32(k);
    } else if k < 48 {
      Product40(k);
    } else if k < 56 {
      Product48(k);
    } else if k < 64 {
      Product56(k);
    } else if k < 72 {
      Product64(k);
    } else if k < 80 {
      Product72(k);
    } else if k < 88 {
      Product80(k);
    } else if k < 96 {
      Product88(k);
    } else if k < 104 {
      Product96(k);
    } else if k < 112 {
      Product104(k);
    } else if k < 120 {
      Product112(k);
    } else {
      Product120(k);
    }
  }

  /** The first entry of level i. */
  lemma {:induction false} LevelStartIsPower(i: nat)
    requires i < 7
    ensures Pow2(i) < 128 && Cong(Zeta(Pow2(i)), KemConstants.R * Power(17, Pow2(6 - i)), KemConstants.Q)
    decreases 7 - i
  {
    hide *;
    Levels(i);
    if i == 6 {
      LastLevelStart();
    } else {
      LevelStartIsPower(i + 1);
      InnerHolds(Pow2(i));
      SquareOfStart(i);
      Squared(Zeta(Pow2(i)), Zeta(Pow2(i + 1)), Pow2(6 - (i + 1)));
    }
  }

  lemma Levels(i: nat)
    requires i < 7
    ensures 1 <= Pow2(i) < 128 && Pow2(6) == 64 && Pow2(0) == 1
    ensures i < 6 ==> Pow2(i + 1) == 2 * Pow2(i) < 128 && Pow2(6 - i) == 2 * Pow2(6 - (i + 1))
  {
    assert Pow2(1) == 2 && Pow2(2) == 4 && Pow2(3) == 8 && Pow2(4) == 16 && Pow2(5) == 32 && Pow2(6) == 64 && Pow2(7) == 128;
  }

  lemma LastLevelStart()
    ensures Cong(Zeta(64), KemConstants.R * Power(17, 1), KemConstants.Q)
  {
    assert Zeta(64) == 2226 && Power(17, 1) == 17;
    CongIff(2226, KemConstants.R * 17, KemConstants.Q);
  }

  lemma SquareOfStart(i: nat)
    requires i < 6 && 1 <= Pow2(i) < 64 && Pow2(i + 1) == 2 * Pow2(i) && InnerOk(Pow2(i))
    ensures (Zeta(Pow2(i + 1)) * Zeta(Pow2(i + 1)) - Zeta(Pow2(i)) * KemConstants.R) % KemConstants.Q == 0
  {
    hide Zeta, Pow2;
  }

  /** A congruence without the factor R on both sides. */
  lemma CancelR(x: int, y: int)
    requires Cong(KemConstants.R * x, KemConstants.R * y, KemConstants.Q)
    ensures Cong(x, y, KemConstants.Q)
  {
    var k, m := Quot(KemConstants.R * x, KemConstants.R * y, KemConstants.Q), (1 - KemConstants.R * KemConstants.RINV) / KemConstants.Q;
    assert KemConstants.R * KemConstants.RINV == 1 - KemConstants.Q * m;
    assert KemConstants.R * (x - y) == KemConstants.Q * k;
    assert (x - y) * (1 - KemConstants.Q * m) == KemConstants.RINV * (KemConstants.R * (x - y)) == KemConstants.RINV * (KemConstants.Q * k);
    CongIntro(x, y, KemConstants.Q, KemConstants.RINV * k + m * (x - y));
  }

  /** z is R times a power, and z w is congruent to R x; p and r are the powers behind z and w. */
  lemma ProductOfPowers(z: int, w: int, x: int, p: int, r: int)
    requires Cong(z, KemConstants.R * p, KemConstants.Q) && Cong(w, KemConstants.R * r, KemConstants.Q) && (z * w - KemConstants.R * x) % KemConstants.Q == 0
    ensures Cong(x, KemConstants.R * (p * r), KemConstants.Q)
  {
    hide *;
    KemConstants.QIs();
    var a := KemConstants.R;
    CongIff(z * w, a * x, KemConstants.Q);
    CongSym(z * w, a * x, KemConstants.Q);
    CongMul(z, a * p, w, a * r, KemConstants.Q);
    FactorsTogether(a, p, r);
    CongTrans(a * x, z * w, a * (a * (p * r)), KemConstants.Q);
    CancelR(x, a * (p * r));
  }

  lemma Squared(z: int, w: int, e: nat)
    requires Cong(w, KemConstants.R * Power(17, e), KemConstants.Q) && (w * w - z * KemConstants.R) % KemConstants.Q == 0
    ensures Cong(z, KemConstants.R * Power(17, 2 * e), KemConstants.Q)
  {
    hide Cong, Power;
    PowerAdd(17, e, e);
    ProductOfPowers(w, w, z, Power(17, e), Power(17, e));
  }

  /** Entry k is R times 17 to the bit reversal of k. */
  lemma {:induction false} ZetaIsPower(k: nat)
    requires k < 128
    ensures Cong(Zeta(k), KemConstants.R * Power(17, BitRev(k, 7)), KemConstants.Q)
  {
    hide *;
    if k == 0 {
      EntryZero();
      return;
    }
    var i := Level(k);
    var j := k - Pow2(i);
    LevelStartIsPower(i);
    BitRevSplit(j, i, 7);
    if j == 0 {
      NoBits(7);
    } else {
      ZetaIsPower(j);
      ProductHolds(k);
      ProductOkIs(k, Pow2(i));
      PowerAdd(17, Pow2(6 - i), BitRev(j, 7));
      ProductOfPowers(Zeta(Pow2(i)), Zeta(j), Zeta(k), Power(17, Pow2(6 - i)), Power(17, BitRev(j, 7)));
    }
  }

  lemma EntryZero()
    ensures Cong(Zeta(0), KemConstants.R * Power(17, BitRev(0, 7)), KemConstants.Q)
  {
    NoBits(7);
    CongIntro(2285, KemConstants.R, KemConstants.Q, -19);
    hide BitRev;
  }

  lemma Level(k: nat) returns (i: nat)
    requires 1 <= k < 128
    ensures i < 7 && Pow2(i) == LevelStart(k) && Pow2(i) <= k < 2 * Pow2(i)
  {
    assert Pow2(1) == 2 && Pow2(2) == 4 && Pow2(3) == 8 && Pow2(4) == 16 && Pow2(5) == 32 && Pow2(6) == 64 && Pow2(7) == 128;
    i := if k < 2 then 0 else if k < 4 then 1 else if k < 8 then 2 else if k < 16 then 3 else if k < 32 then 4
         else if k < 64 then 5 else 6;
  }

  lemma ProductOkIs(k: nat, s: nat)
    requires 1 <= k < 128 && s == LevelStart(k) && ProductOk(k)
    ensures (Zeta(s) * Zeta(k - s) - KemConstants.R * Zeta(k)) % KemConstants.Q == 0
  {
    hide Zeta;
  }
}
