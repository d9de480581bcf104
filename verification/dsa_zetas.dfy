/** The root table of the ML-DSA transform, in Montgomery form (R times the root modulo Q). */
module DsaZetas {
  import opened BitReversal
  import opened Congruence
  import opened NttTower
  import DsaConstants

  function Row0(c: nat): (z: int)
    ensures -4108315 <= z <= 4108315
  {
    match c
    case 0 => 0 case 1 => 25847 case 2 => -2608894 case 3 => -518909 case 4 => 237124 case 5 => -777960 case 6 => -876248 case 7 => 466468
    case 8 => 1826347 case 9 => 2353451 case 10 => -359251 case 11 => -2091905 case 12 => 3119733 case 13 => -2884855 case 14 => 3111497 case _ => 2680103
  }

  function Row1(c: nat): (z: int)
    ensures -4108315 <= z <= 4108315
  {
    match c
    case 0 => 2725464 case 1 => 1024112 case 2 => -1079900 case 3 => 3585928 case 4 => -549488 case 5 => -1119584 case 6 => 2619752 case 7 => -2108549
    case 8 => -2118186 case 9 => -3859737 case 10 => -1399561 case 11 => -3277672 case 12 => 1757237 case 13 => -19422 case 14 => 4010497 case _ => 280005
  }

  function Row2(c: nat): (z: int)
    ensures -4108315 <= z <= 4108315
  {
    match c
    case 0 => 2706023 case 1 => 95776 case 2 => 3077325 case 3 => 3530437 case 4 => -1661693 case 5 => -3592148 case 6 => -2537516 case 7 => 3915439
    case 8 => -3861115 case 9 => -3043716 case 10 => 3574422 case 11 => -2867647 case 12 => 3539968 case 13 => -300467 case 14 => 2348700 case _ => -539299
  }

  function Row3(c: nat): (z: int)
    ensures -4108315 <= z <= 4108315
  {
    match c
    case 0 => -1699267 case 1 => -1643818 case 2 => 3505694 case 3 => -3821735 case 4 => 3507263 case 5 => -2140649 case 6 => -1600420 case 7 => 3699596
    case 8 => 811944 case 9 => 531354 case 10 => 954230 case 11 => 3881043 case 12 => 3900724 case 13 => -2556880 case 14 => 2071892 case _ => -2797779
  }

  function Row4(c: nat): (z: int)
    ensures -4108315 <= z <= 4108315
  {
    match c
    case 0 => -3930395 case 1 => -1528703 case 2 => -3677745 case 3 => -3041255 case 4 => -1452451 case 5 => 3475950 case 6 => 2176455 case 7 => -1585221
    case 8 => -1257611 case 9 => 1939314 case 10 => -4083598 case 11 => -1000202 case 12 => -3190144 case 13 => -3157330 case 14 => -3632928 case _ => 126922
  }

  function Row5(c: nat): (z: int)
    ensures -4108315 <= z <= 4108315
  {
    match c
    case 0 => 3412210 case 1 => -983419 case 2 => 2147896 case 3 => 2715295 case 4 => -2967645 case 5 => -3693493 case 6 => -411027 case 7 => -2477047
    case 8 => -671102 case 9 => -1228525 case 10 => -22981 case 11 => -1308169 case 12 => -381987 case 13 => 1349076 case 14 => 1852771 case _ => -1430430
  }

  function Row6(c: nat): (z: int)
    ensures -4108315 <= z <= 4108315
  {
    match c
    case 0 => -3343383 case 1 => 264944 case 2 => 508951 case 3 => 3097992 case 4 => 44288 case 5 => -1100098 case 6 => 904516 case 7 => 3958618
    case 8 => -3724342 case 9 => -8578 case 10 => 1653064 case 11 => -3249728 case 12 => 2389356 case 13 => -210977 case 14 => 759969 case _ => -1316856
  }

  function Row7(c: nat): (z: int)
    ensures -4108315 <= z <= 4108315
  {
    match c
    case 0 => 189548 case 1 => -3553272 case 2 => 3159746 case 3 => -1851402 case 4 => -2409325 case 5 => -177440 case 6 => 1315589 case 7 => 1341330
    case 8 => 1285669 case 9 => -1584928 case 10 => -812732 case 11 => -1439742 case 12 => -3019102 case 13 => -3881060 case 14 => -3628969 case _ => 3839961
  }

  function Row8(c: nat): (z: int)
    ensures -4108315 <= z <= 4108315
  {
    match c
    case 0 => 2091667 case 1 => 3407706 case 2 => 2316500 case 3 => 3817976 case 4 => -3342478 case 5 => 2244091 case 6 => -2446433 case 7 => -3562462
    case 8 => 266997 case 9 => 2434439 case 10 => -1235728 case 11 => 3513181 case 12 => -3520352 case 13 => -3759364 case 14 => -1197226 case _ => -3193378
  }

  function Row9(c: nat): (z: int)
    ensures -4108315 <= z <= 4108315
  {
    match c
    case 0 => 900702 case 1 => 1859098 case 2 => 909542 case 3 => 819034 case 4 => 495491 case 5 => -1613174 case 6 => -43260 case 7 => -522500
    case 8 => -655327 case 9 => -3122442 case 10 => 2031748 case 11 => 3207046 case 12 => -3556995 case 13 => -525098 case 14 => -768622 case _ => -3595838
  }

  function Row10(c: nat): (z: int)
    ensures -4108315 <= z <= 4108315
  {
    match c
    case 0 => 342297 case 1 => 286988 case 2 => -2437823 case 3 => 4108315 case 4 => 3437287 case 5 => -3342277 case 6 => 1735879 case 7 => 203044
    case 8 => 2842341 case 9 => 2691481 case 10 => -2590150 case 11 => 1265009 case 12 => 4055324 case 13 => 1247620 case 14 => 2486353 case _ => 1595974
  }

  function Row11(c: nat): (z: int)
    ensures -4108315 <= z <= 4108315
  {
    match c
    case 0 => -3767016 case 1 => 1250494 case 2 => 2635921 case 3 => -3548272 case 4 => -2994039 case 5 => 1869119 case 6 => 1903435 case 7 => -1050970
    case 8 => -1333058 case 9 => 1237275 case 10 => -3318210 case 11 => -1430225 case 12 => -451100 case 13 => 1312455 case 14 => 3306115 case _ => -1962642
  }

  function Row12(c: nat): (z: int)
    ensures -4108315 <= z <= 4108315
  {
    match c
    case 0 => -1279661 case 1 => 1917081 case 2 => -2546312 case 3 => -1374803 case 4 => 1500165 case 5 => 777191 case 6 => 2235880 case 7 => 3406031
    case 8 => -542412 case 9 => -2831860 case 10 => -1671176 case 11 => -1846953 case 12 => -2584293 case 13 => -3724270 case 14 => 594136 case _ => -3776993
  }

  function Row13(c: nat): (z: int)
    ensures -4108315 <= z <= 4108315
  {
    match c
    case 0 => -2013608 case 1 => 2432395 case 2 => 2454455 case 3 => -164721 case 4 => 1957272 case 5 => 3369112 case 6 => 185531 case 7 => -1207385
    case 8 => -3183426 case 9 => 162844 case 10 => 1616392 case 11 => 3014001 case 12 => 810149 case 13 => 1652634 case 14 => -3694233 case _ => -1799107
  }

  function Row14(c: nat): (z: int)
    ensures -4108315 <= z <= 4108315
  {
    match c
    case 0 => -3038916 case 1 => 3523897 case 2 => 3866901 case 3 => 269760 case 4 => 2213111 case 5 => -975884 case 6 => 1717735 case 7 => 472078
    case 8 => -426683 case 9 => 1723600 case 10 => -1803090 case 11 => 1910376 case 12 => -1667432 case 13 => -1104333 case 14 => -260646 case _ => -3833893
  }

  function Row15(c: nat): (z: int)
    ensures -4108315 <= z <= 4108315
  {
    match c
    case 0 => -2939036 case 1 => -2235985 case 2 => -420899 case 3 => -2286327 case 4 => 183443 case 5 => -976891 case 6 => 1612842 case 7 => -3545687
    case 8 => -554416 case 9 => 3919660 case 10 => -48306 case 11 => -1362209 case 12 => 3937738 case 13 => 1400424 case 14 => -846154 case _ => 1976782
  }

  /** Entry k: R times the root used at node k of the splitting tree. */
  function Zeta(k: nat): (z: int)
    requires k < 256
    ensures -4108315 <= z <= 4108315
  {
    if k < 16 then Row0(k)
    else if k < 32 then Row1(k - 16)
    else if k < 48 then Row2(k - 32)
    else if k < 64 then Row3(k - 48)
    else if k < 80 then Row4(k - 64)
    else if k < 96 then Row5(k - 80)
    else if k < 112 then Row6(k - 96)
    else if k < 128 then Row7(k - 112)
    else if k < 144 then Row8(k - 128)
    else if k < 160 then Row9(k - 144)
    else if k < 176 then Row10(k - 160)
    else if k < 192 then Row11(k - 176)
    else if k < 208 then Row12(k - 192)
    else if k < 224 then Row13(k - 208)
    else if k < 240 then Row14(k - 224)
    else Row15(k - 240)
  }

  /** The first node of the level of n. */
  function LevelStart(n: nat): (c: nat)
    requires 1 <= n < 256
    ensures c <= n < 2 * c && 2 * c <= 256
  {
    if n < 2 then 1 else if n < 4 then 2 else if n < 8 then 4 else if n < 16 then 8 else if n < 32 then 16 else if n < 64 then 32 else if n < 128 then 64 else 128
  }

  /** A node's entry, its children's entries and its mirror's entry: the children square to plus and minus R times
      the entry, the mirrored entries multiply to -R^2. */
  predicate Inner(z: int, lo: int, hi: int, mirror: int)
  {
    && (lo * lo - z * DsaConstants.R) % DsaConstants.Q == 0
    && (hi * hi + z * DsaConstants.R) % DsaConstants.Q == 0
    && (z * mirror + DsaConstants.R * DsaConstants.R) % DsaConstants.Q == 0
  }

  predicate Mirrored(z: int, mirror: int)
  {
    (z * mirror + DsaConstants.R * DsaConstants.R) % DsaConstants.Q == 0
  }

  predicate InnerOk(n: nat)
    requires 1 <= n < 128
  {
    Inner(Zeta(n), Zeta(2 * n), Zeta(2 * n + 1), Zeta(3 * LevelStart(n) - 1 - n))
  }


  lemma Inner1(n: nat)
    requires 1 <= n < 8
    ensures InnerOk(n)
  {
    assert Inner(25847, -2608894, -518909, 25847);
    assert Inner(-2608894, 237124, -777960, -518909);
    assert Inner(-518909, -876248, 466468, -2608894);
    assert Inner(237124, 1826347, 2353451, 466468);
    assert Inner(-777960, -359251, -2091905, -876248);
    assert Inner(-876248, 3119733, -2884855, -777960);
    assert Inner(466468, 3111497, 2680103, 237124);
    hide Inner;
  }

  lemma Inner8(n: nat)
    requires 8 <= n < 16
    ensures InnerOk(n)
  {
    assert Inner(1826347, 2725464, 1024112, 2680103);
    assert Inner(2353451, -1079900, 3585928, 3111497);
    assert Inner(-359251, -549488, -1119584, -2884855);
    assert Inner(-2091905, 2619752, -2108549, 3119733);
    assert Inner(3119733, -2118186, -3859737, -2091905);
    assert Inner(-2884855, -1399561, -3277672, -359251);
    assert Inner(3111497, 1757237, -19422, 2353451);
    assert Inner(2680103, 4010497, 280005, 1826347);
    hide Inner;
  }

  lemma Inner16(n: nat)
    requires 16 <= n < 24
    ensures InnerOk(n)
  {
    assert Inner(2725464, 2706023, 95776, 280005);
    assert Inner(1024112, 3077325, 3530437, 4010497);
    assert Inner(-1079900, -1661693, -3592148, -19422);
    assert Inner(3585928, -2537516, 3915439, 1757237);
    assert Inner(-549488, -3861115, -3043716, -3277672);
    assert Inner(-1119584, 3574422, -2867647, -1399561);
    assert Inner(2619752, 3539968, -300467, -3859737);
    assert Inner(-2108549, 2348700, -539299, -2118186);
    hide Inner;
  }

  lemma Inner24(n: nat)
    requires 24 <= n < 32
    ensures InnerOk(n)
  {
    assert Inner(-2118186, -1699267, -1643818, -2108549);
    assert Inner(-3859737, 3505694, -3821735, 2619752);
    assert Inner(-1399561, 3507263, -2140649, -1119584);
    assert Inner(-3277672, -1600420, 3699596, -549488);
    assert Inner(1757237, 811944, 531354, 3585928);
    assert Inner(-19422, 954230, 3881043, -1079900);
    assert Inner(4010497, 3900724, -2556880, 1024112);
    assert Inner(280005, 2071892, -2797779, 2725464);
    hide Inner;
  }

  lemma Inner32(n: nat)
    requires 32 <= n < 40
    ensures InnerOk(n)
  {
    assert Inner(2706023, -3930395, -1528703, -2797779);
    assert Inner(95776, -3677745, -3041255, 2071892);
    assert Inner(3077325, -1452451, 3475950, -2556880);
    assert Inner(3530437, 2176455, -1585221, 3900724);
    assert Inner(-1661693, -1257611, 1939314, 3881043);
    assert Inner(-3592148, -4083598, -1000202, 954230);
    assert Inner(-2537516, -3190144, -3157330, 531354);
    assert Inner(3915439, -3632928, 126922, 811944);
    hide Inner;
  }

  lemma Inner40(n: nat)
    requires 40 <= n < 48
    ensures InnerOk(n)
  {
    assert Inner(-3861115, 3412210, -983419, 3699596);
    assert Inner(-3043716, 2147896, 2715295, -1600420);
    assert Inner(3574422, -2967645, -3693493, -2140649);
    assert Inner(-2867647, -411027, -2477047, 3507263);
    assert Inner(3539968, -671102, -1228525, -3821735);
    assert Inner(-300467, -22981, -1308169, 3505694);
    assert Inner(2348700, -381987, 1349076, -1643818);
    assert Inner(-539299, 1852771, -1430430, -1699267);
    hide Inner;
  }

  lemma Inner48(n: nat)
    requires 48 <= n < 56
    ensures InnerOk(n)
  {
    assert Inner(-1699267, -3343383, 264944, -539299);
    assert Inner(-1643818, 508951, 3097992, 2348700);
    assert Inner(3505694, 44288, -1100098, -300467);
    assert Inner(-3821735, 904516, 3958618, 3539968);
    assert Inner(3507263, -3724342, -8578, -2867647);
    assert Inner(-2140649, 1653064, -3249728, 3574422);
    assert Inner(-1600420, 2389356, -210977, -3043716);
    assert Inner(3699596, 759969, -1316856, -3861115);
    hide Inner;
  }

  lemma Inner56(n: nat)
    requires 56 <= n < 64
    ensures InnerOk(n)
  {
    assert Inner(811944, 189548, -3553272, 3915439);
    assert Inner(531354, 3159746, -1851402, -2537516);
    assert Inner(954230, -2409325, -177440, -3592148);
    assert Inner(3881043, 1315589, 1341330, -1661693);
    assert Inner(3900724, 1285669, -1584928, 3530437);
    assert Inner(-2556880, -812732, -1439742, 3077325);
    assert Inner(2071892, -3019102, -3881060, 95776);
    assert Inner(-2797779, -3628969, 3839961, 2706023);
    hide Inner;
  }

  lemma Inner64(n: nat)
    requires 64 <= n < 72
    ensures InnerOk(n)
  {
    assert Inner(-3930395, 2091667, 3407706, 3839961);
    assert Inner(-1528703, 2316500, 3817976, -3628969);
    assert Inner(-3677745, -3342478, 2244091, -3881060);
    assert Inner(-3041255, -2446433, -3562462, -3019102);
    assert Inner(-1452451, 266997, 2434439, -1439742);
    assert Inner(3475950, -1235728, 3513181, -812732);
    assert Inner(2176455, -3520352, -3759364, -1584928);
    assert Inner(-1585221, -1197226, -3193378, 1285669);
    hide Inner;
  }

  lemma Inner72(n: nat)
    requires 72 <= n < 80
    ensures InnerOk(n)
  {
    assert Inner(-1257611, 900702, 1859098, 1341330);
    assert Inner(1939314, 909542, 819034, 1315589);
    assert Inner(-4083598, 495491, -1613174, -177440);
    assert Inner(-1000202, -43260, -522500, -2409325);
    assert Inner(-3190144, -655327, -3122442, -1851402);
    assert Inner(-3157330, 2031748, 3207046, 3159746);
    assert Inner(-3632928, -3556995, -525098, -3553272);
    assert Inner(126922, -768622, -3595838, 189548);
    hide Inner;
  }

  lemma Inner80(n: nat)
    requires 80 <= n < 88
    ensures InnerOk(n)
  {
    assert Inner(3412210, 342297, 286988, -1316856);
    assert Inner(-983419, -2437823, 4108315, 759969);
    assert Inner(2147896, 3437287, -3342277, -210977);
    assert Inner(2715295, 1735879, 203044, 2389356);
    assert Inner(-2967645, 2842341, 2691481, -3249728);
    assert Inner(-3693493, -2590150, 1265009, 1653064);
    assert Inner(-411027, 4055324, 1247620, -8578);
    assert Inner(-2477047, 2486353, 1595974, -3724342);
    hide Inner;
  }

  lemma Inner88(n: nat)
    requires 88 <= n < 96
    ensures InnerOk(n)
  {
    assert Inner(-671102, -3767016, 1250494, 3958618);
    assert Inner(-1228525, 2635921, -3548272, 904516);
    assert Inner(-22981, -2994039, 1869119, -1100098);
    assert Inner(-1308169, 1903435, -1050970, 44288);
    assert Inner(-381987, -1333058, 1237275, 3097992);
    assert Inner(1349076, -3318210, -1430225, 508951);
    assert Inner(1852771, -451100, 1312455, 264944);
    assert Inner(-1430430, 3306115, -1962642, -3343383);
    hide Inner;
  }

  lemma Inner96(n: nat)
    requires 96 <= n < 104
    ensures InnerOk(n)
  {
    assert Inner(-3343383, -1279661, 1917081, -1430430);
    assert Inner(264944, -2546312, -1374803, 1852771);
    assert Inner(508951, 1500165, 777191, 1349076);
    assert Inner(3097992, 2235880, 3406031, -381987);
    assert Inner(44288, -542412, -2831860, -1308169);
    assert Inner(-1100098, -1671176, -1846953, -22981);
    assert Inner(904516, -2584293, -3724270, -1228525);
    assert Inner(3958618, 594136, -3776993, -671102);
    hide Inner;
  }

  lemma Inner104(n: nat)
    requires 104 <= n < 112
    ensures InnerOk(n)
  {
    assert Inner(-3724342, -2013608, 2432395, -2477047);
    assert Inner(-8578, 2454455, -164721, -411027);
    assert Inner(1653064, 1957272, 3369112, -3693493);
    assert Inner(-3249728, 185531, -1207385, -2967645);
    assert Inner(2389356, -3183426, 162844, 2715295);
    assert Inner(-210977, 1616392, 3014001, 2147896);
    assert Inner(759969, 810149, 1652634, -983419);
    assert Inner(-1316856, -3694233, -1799107, 3412210);
    hide Inner;
  }

  lemma Inner112(n: nat)
    requires 112 <= n < 120
    ensures InnerOk(n)
  {
    assert Inner(189548, -3038916, 3523897, 126922);
    assert Inner(-3553272, 3866901, 269760, -3632928);
    assert Inner(3159746, 2213111, -975884, -3157330);
    assert Inner(-1851402, 1717735, 472078, -3190144);
    assert Inner(-2409325, -426683, 1723600, -1000202);
    assert Inner(-177440, -1803090, 1910376, -4083598);
    assert Inner(1315589, -1667432, -1104333, 1939314);
    assert Inner(1341330, -260646, -3833893, -1257611);
    hide Inner;
  }

  lemma Inner120(n: nat)
    requires 120 <= n < 128
    ensures InnerOk(n)
  {
    assert Inner(1285669, -2939036, -2235985, -1585221);
    assert Inner(-1584928, -420899, -2286327, 2176455);
    assert Inner(-812732, 183443, -976891, 3475950);
    assert Inner(-1439742, 1612842, -3545687, -1452451);
    assert Inner(-3019102, -554416, 3919660, -3041255);
    assert Inner(-3881060, -48306, -1362209, -3677745);
    assert Inner(-3628969, 3937738, 1400424, -1528703);
    assert Inner(3839961, -846154, 1976782, -3930395);
    hide Inner;
  }

  lemma Mirrored128(n: nat)
    requires 128 <= n < 144
    ensures Mirrored(Zeta(n), Zeta(383 - n))
  {
    assert Mirrored(2091667, 1976782) && Mirrored(3407706, -846154) && Mirrored(2316500, 1400424) && Mirrored(3817976, 3937738);
    assert Mirrored(-3342478, -1362209) && Mirrored(2244091, -48306) && Mirrored(-2446433, 3919660) && Mirrored(-3562462, -554416);
    assert Mirrored(266997, -3545687) && Mirrored(2434439, 1612842) && Mirrored(-1235728, -976891) && Mirrored(3513181, 183443);
    assert Mirrored(-3520352, -2286327) && Mirrored(-3759364, -420899) && Mirrored(-1197226, -2235985) && Mirrored(-3193378, -2939036);
    hide Mirrored;
  }

  lemma Mirrored144(n: nat)
    requires 144 <= n < 160
    ensures Mirrored(Zeta(n), Zeta(383 - n))
  {
    assert Mirrored(900702, -3833893) && Mirrored(1859098, -260646) && Mirrored(909542, -1104333) && Mirrored(819034, -1667432);
    assert Mirrored(495491, 1910376) && Mirrored(-1613174, -1803090) && Mirrored(-43260, 1723600) && Mirrored(-522500, -426683);
    assert Mirrored(-655327, 472078) && Mirrored(-3122442, 1717735) && Mirrored(2031748, -975884) && Mirrored(3207046, 2213111);
    assert Mirrored(-3556995, 269760) && Mirrored(-525098, 3866901) && Mirrored(-768622, 3523897) && Mirrored(-3595838, -3038916);
    hide Mirrored;
  }

  lemma Mirrored160(n: nat)
    requires 160 <= n < 176
    ensures Mirrored(Zeta(n), Zeta(383 - n))
  {
    assert Mirrored(342297, -1799107) && Mirrored(286988, -3694233) && Mirrored(-2437823, 1652634) && Mirrored(4108315, 810149);
    assert Mirrored(3437287, 3014001) && Mirrored(-3342277, 1616392) && Mirrored(1735879, 162844) && Mirrored(203044, -3183426);
    assert Mirrored(2842341, -1207385) && Mirrored(2691481, 185531) && Mirrored(-2590150, 3369112) && Mirrored(1265009, 1957272);
    assert Mirrored(4055324, -164721) && Mirrored(1247620, 2454455) && Mirrored(2486353, 2432395) && Mirrored(1595974, -2013608);
    hide Mirrored;
  }

  lemma Mirrored176(n: nat)
    requires 176 <= n < 192
    ensures Mirrored(Zeta(n), Zeta(383 - n))
  {
    assert Mirrored(-3767016, -3776993) && Mirrored(1250494, 594136) && Mirrored(2635921, -3724270) && Mirrored(-3548272, -2584293);
    assert Mirrored(-2994039, -1846953) && Mirrored(1869119, -1671176) && Mirrored(1903435, -2831860) && Mirrored(-1050970, -542412);
    assert Mirrored(-1333058, 3406031) && Mirrored(1237275, 2235880) && Mirrored(-3318210, 777191) && Mirrored(-1430225, 1500165);
    assert Mirrored(-451100, -1374803) && Mirrored(1312455, -2546312) && Mirrored(3306115, 1917081) && Mirrored(-1962642, -1279661);
    hide Mirrored;
  }

  lemma InnerHolds(n: nat)
    requires 1 <= n < 128
    ensures InnerOk(n)
  {
    hide InnerOk;
    if n < 8 {
      Inner1(n);
    } else if n < 16 {
      Inner8(n);
    } else if n < 24 {
      Inner16(n);
    } else if n < 32 {
      Inner24(n);
    } else if n < 40 {
      Inner32(n);
    } else if n < 48 {
      Inner40(n);
    } else if n < 56 {
      Inner48(n);
    } else if n < 64 {
      Inner56(n);
    } else if n < 72 {
      Inner64(n);
    } else if n < 80 {
      Inner72(n);
    } else if n < 88 {
      Inner80(n);
    } else if n < 96 {
      Inner88(n);
    } else if n < 104 {
      Inner96(n);
    } else if n < 112 {
      Inner104(n);
    } else if n < 120 {
      Inner112(n);
    } else {
      Inner120(n);
    }
  }

  lemma MirroredHolds(n: nat)
    requires 1 <= n < 256
    ensures Mirrored(Zeta(n), Zeta(3 * LevelStart(n) - 1 - n))
  {
    if n < 128 {
      InnerHolds(n);
    } else {
      var k := if n < 192 then n else 383 - n;
      assert Mirrored(Zeta(k), Zeta(383 - k)) by {
        hide Mirrored;
        if k < 144 {
          Mirrored128(k);
        } else if k < 160 {
          Mirrored144(k);
        } else if k < 176 {
          Mirrored160(k);
        } else {
          Mirrored176(k);
        }
      }
    }
  }

  // ---------- The entries are the powers of one root, in bit-reversed order ----------

  /** The entry x is the product of the entries z and w. */
  predicate Product(z: int, w: int, x: int)
  {
    (z * w - DsaConstants.R * x) % DsaConstants.Q == 0
  }

  predicate ProductOk(k: nat)
    requires 1 <= k < 256
  {
    Product(Zeta(LevelStart(k)), Zeta(k - LevelStart(k)), Zeta(k))
  }

  lemma Product1(k: nat)
    requires 1 <= k < 8 && k != LevelStart(k)
    ensures ProductOk(k)
  {
    assert Product(-2608894, 25847, -518909);
    assert Product(237124, 25847, -777960);
    assert Product(237124, -2608894, -876248);
    assert Product(237124, -518909, 466468);
    hide Product;
  }

  lemma Product8(k: nat)
    requires 8 <= k < 16 && k != LevelStart(k)
    ensures ProductOk(k)
  {
    assert Product(1826347, 25847, 2353451);
    assert Product(1826347, -2608894, -359251);
    assert Product(1826347, -518909, -2091905);
    assert Product(1826347, 237124, 3119733);
    assert Product(1826347, -777960, -2884855);
    assert Product(1826347, -876248, 3111497);
    assert Product(1826347, 466468, 2680103);
    hide Product;
  }

  lemma Product16(k: nat)
    requires 16 <= k < 24 && k != LevelStart(k)
    ensures ProductOk(k)
  {
    assert Product(2725464, 25847, 1024112);
    assert Product(2725464, -2608894, -1079900);
    assert Product(2725464, -518909, 3585928);
    assert Product(2725464, 237124, -549488);
    assert Product(2725464, -777960, -1119584);
    assert Product(2725464, -876248, 2619752);
    assert Product(2725464, 466468, -2108549);
    hide Product;
  }

  lemma Product24(k: nat)
    requires 24 <= k < 32 && k != LevelStart(k)
    ensures ProductOk(k)
  {
    assert Product(2725464, 1826347, -2118186);
    assert Product(2725464, 2353451, -3859737);
    assert Product(2725464, -359251, -1399561);
    assert Product(2725464, -2091905, -3277672);
    assert Product(2725464, 3119733, 1757237);
    assert Product(2725464, -2884855, -19422);
    assert Product(2725464, 3111497, 4010497);
    assert Product(2725464, 2680103, 280005);
    hide Product;
  }

  lemma Product32(k: nat)
    requires 32 <= k < 40 && k != LevelStart(k)
    ensures ProductOk(k)
  {
    assert Product(2706023, 25847, 95776);
    assert Product(2706023, -2608894, 3077325);
    assert Product(2706023, -518909, 3530437);
    assert Product(2706023, 237124, -1661693);
    assert Product(2706023, -777960, -3592148);
    assert Product(2706023, -876248, -2537516);
    assert Product(2706023, 466468, 3915439);
    hide Product;
  }

  lemma Product40(k: nat)
    requires 40 <= k < 48 && k != LevelStart(k)
    ensures ProductOk(k)
  {
    assert Product(2706023, 1826347, -3861115);
    assert Product(2706023, 2353451, -3043716);
    assert Product(2706023, -359251, 3574422);
    assert Product(2706023, -2091905, -2867647);
    assert Product(2706023, 3119733, 3539968);
    assert Product(2706023, -2884855, -300467);
    assert Product(2706023, 3111497, 2348700);
    assert Product(2706023, 2680103, -539299);
    hide Product;
  }

  lemma Product48(k: nat)
    requires 48 <= k < 56 && k != LevelStart(k)
    ensures ProductOk(k)
  {
    assert Product(2706023, 2725464, -1699267);
    assert Product(2706023, 1024112, -1643818);
    assert Product(2706023, -1079900, 3505694);
    assert Product(2706023, 3585928, -3821735);
    assert Product(2706023, -549488, 3507263);
    assert Product(2706023, -1119584, -2140649);
    assert Product(2706023, 2619752, -1600420);
    assert Product(2706023, -2108549, 3699596);
    hide Product;
  }

  lemma Product56(k: nat)
    requires 56 <= k < 64 && k != LevelStart(k)
    ensures ProductOk(k)
  {
    assert Product(2706023, -2118186, 811944);
    assert Product(2706023, -3859737, 531354);
    assert Product(2706023, -1399561, 954230);
    assert Product(2706023, -3277672, 3881043);
    assert Product(2706023, 1757237, 3900724);
    assert Product(2706023, -19422, -2556880);
    assert Product(2706023, 4010497, 2071892);
    assert Product(2706023, 280005, -2797779);
    hide Product;
  }

  lemma Product64(k: nat)
    requires 64 <= k < 72 && k != LevelStart(k)
    ensures ProductOk(k)
  {
    assert Product(-3930395, 25847, -1528703);
    assert Product(-3930395, -2608894, -3677745);
    assert Product(-3930395, -518909, -3041255);
    assert Product(-3930395, 237124, -1452451);
    assert Product(-3930395, -777960, 3475950);
    assert Product(-3930395, -876248, 2176455);
    assert Product(-3930395, 466468, -1585221);
    hide Product;
  }

  lemma Product72(k: nat)
    requires 72 <= k < 80 && k != LevelStart(k)
    ensures ProductOk(k)
  {
    assert Product(-3930395, 1826347, -1257611);
    assert Product(-3930395, 2353451, 1939314);
    assert Product(-3930395, -359251, -4083598);
    assert Product(-3930395, -2091905, -1000202);
    assert Product(-3930395, 3119733, -3190144);
    assert Product(-3930395, -2884855, -3157330);
    assert Product(-3930395, 3111497, -3632928);
    assert Product(-3930395, 2680103, 126922);
    hide Product;
  }

  lemma Product80(k: nat)
    requires 80 <= k < 88 && k != LevelStart(k)
    ensures ProductOk(k)
  {
    assert Product(-3930395, 2725464, 3412210);
    assert Product(-3930395, 1024112, -983419);
    assert Product(-3930395, -1079900, 2147896);
    assert Product(-3930395, 3585928, 2715295);
    assert Product(-3930395, -549488, -2967645);
    assert Product(-3930395, -1119584, -3693493);
    assert Product(-3930395, 2619752, -411027);
    assert Product(-3930395, -2108549, -2477047);
    hide Product;
  }

  lemma Product88(k: nat)
    requires 88 <= k < 96 && k != LevelStart(k)
    ensures ProductOk(k)
  {
    assert Product(-3930395, -2118186, -671102);
    assert Product(-3930395, -3859737, -1228525);
    assert Product(-3930395, -1399561, -22981);
    assert Product(-3930395, -3277672, -1308169);
    assert Product(-3930395, 1757237, -381987);
    assert Product(-3930395, -19422, 1349076);
    assert Product(-3930395, 4010497, 1852771);
    assert Product(-3930395, 280005, -1430430);
    hide Product;
  }

  lemma Product96(k: nat)
    requires 96 <= k < 104 && k != LevelStart(k)
    ensures ProductOk(k)
  {
    assert Product(-3930395, 2706023, -3343383);
    assert Product(-3930395, 95776, 264944);
    assert Product(-3930395, 3077325, 508951);
    assert Product(-3930395, 3530437, 3097992);
    assert Product(-3930395, -1661693, 44288);
    assert Product(-3930395, -3592148, -1100098);
    assert Product(-3930395, -2537516, 904516);
    assert Product(-3930395, 3915439, 3958618);
    hide Product;
  }

  lemma Product104(k: nat)
    requires 104 <= k < 112 && k != LevelStart(k)
    ensures ProductOk(k)
  {
    assert Product(-3930395, -3861115, -3724342);
    assert Product(-3930395, -3043716, -8578);
    assert Product(-3930395, 3574422, 1653064);
    assert Product(-3930395, -2867647, -3249728);
    assert Product(-3930395, 3539968, 2389356);
    assert Product(-3930395, -300467, -210977);
    assert Product(-3930395, 2348700, 759969);
    assert Product(-3930395, -539299, -1316856);
    hide Product;
  }

  lemma Product112(k: nat)
    requires 112 <= k < 120 && k != LevelStart(k)
    ensures ProductOk(k)
  {
    assert Product(-3930395, -1699267, 189548);
    assert Product(-3930395, -1643818, -3553272);
    assert Product(-3930395, 3505694, 3159746);
    assert Product(-3930395, -3821735, -1851402);
    assert Product(-3930395, 3507263, -2409325);
    assert Product(-3930395, -2140649, -177440);
    assert Product(-3930395, -1600420, 1315589);
    assert Product(-3930395, 3699596, 1341330);
    hide Product;
  }

  lemma Product120(k: nat)
    requires 120 <= k < 128 && k != LevelStart(k)
    ensures ProductOk(k)
  {
    assert Product(-3930395, 811944, 1285669);
    assert Product(-3930395, 531354, -1584928);
    assert Product(-3930395, 954230, -812732);
    assert Product(-3930395, 3881043, -1439742);
    assert Product(-3930395, 3900724, -3019102);
    assert Product(-3930395, -2556880, -3881060);
    assert Product(-3930395, 2071892, -3628969);
    assert Product(-3930395, -2797779, 3839961);
    hide Product;
  }

  lemma Product128(k: nat)
    requires 128 <= k < 136 && k != LevelStart(k)
    ensures ProductOk(k)
  {
    assert Product(2091667, 25847, 3407706);
    assert Product(2091667, -2608894, 2316500);
    assert Product(2091667, -518909, 3817976);
    assert Product(2091667, 237124, -3342478);
    assert Product(2091667, -777960, 2244091);
    assert Product(2091667, -876248, -2446433);
    assert Product(2091667, 466468, -3562462);
    hide Product;
  }

  lemma Product136(k: nat)
    requires 136 <= k < 144 && k != LevelStart(k)
    ensures ProductOk(k)
  {
    assert Product(2091667, 1826347, 266997);
    assert Product(2091667, 2353451, 2434439);
    assert Product(2091667, -359251, -1235728);
    assert Product(2091667, -2091905, 3513181);
    assert Product(2091667, 3119733, -3520352);
    assert Product(2091667, -2884855, -3759364);
    assert Product(2091667, 3111497, -1197226);
    assert Product(2091667, 2680103, -3193378);
    hide Product;
  }

  lemma Product144(k: nat)
    requires 144 <= k < 152 && k != LevelStart(k)
    ensures ProductOk(k)
  {
    assert Product(2091667, 2725464, 900702);
    assert Product(2091667, 1024112, 1859098);
    assert Product(2091667, -1079900, 909542);
    assert Product(2091667, 3585928, 819034);
    assert Product(2091667, -549488, 495491);
    assert Product(2091667, -1119584, -1613174);
    assert Product(2091667, 2619752, -43260);
    assert Product(2091667, -2108549, -522500);
    hide Product;
  }

  lemma Product152(k: nat)
    requires 152 <= k < 160 && k != LevelStart(k)
    ensures ProductOk(k)
  {
    assert Product(2091667, -2118186, -655327);
    assert Product(2091667, -3859737, -3122442);
    assert Product(2091667, -1399561, 2031748);
    assert Product(2091667, -3277672, 3207046);
    assert Product(2091667, 1757237, -3556995);
    assert Product(2091667, -19422, -525098);
    assert Product(2091667, 4010497, -768622);
    assert Product(2091667, 280005, -3595838);
    hide Product;
  }

  lemma Product160(k: nat)
    requires 160 <= k < 168 && k != LevelStart(k)
    ensures ProductOk(k)
  {
    assert Product(2091667, 2706023, 342297);
    assert Product(2091667, 95776, 286988);
    assert Product(2091667, 3077325, -2437823);
    assert Product(2091667, 3530437, 4108315);
    assert Product(2091667, -1661693, 3437287);
    assert Product(2091667, -3592148, -3342277);
    assert Product(2091667, -2537516, 1735879);
    assert Product(2091667, 3915439, 203044);
    hide Product;
  }

  lemma Product168(k: nat)
    requires 168 <= k < 176 && k != LevelStart(k)
    ensures ProductOk(k)
  {
    assert Product(2091667, -3861115, 2842341);
    assert Product(2091667, -3043716, 2691481);
    assert Product(2091667, 3574422, -2590150);
    assert Product(2091667, -2867647, 1265009);
    assert Product(2091667, 3539968, 4055324);
    assert Product(2091667, -300467, 1247620);
    assert Product(2091667, 2348700, 2486353);
    assert Product(2091667, -539299, 1595974);
    hide Product;
  }

  lemma Product176(k: nat)
    requires 176 <= k < 184 && k != LevelStart(k)
    ensures ProductOk(k)
  {
    assert Product(2091667, -1699267, -3767016);
    assert Product(2091667, -1643818, 1250494);
    assert Product(2091667, 3505694, 2635921);
    assert Product(2091667, -3821735, -3548272);
    assert Product(2091667, 3507263, -2994039);
    assert Product(2091667, -2140649, 1869119);
    assert Product(2091667, -1600420, 1903435);
    assert Product(2091667, 3699596, -1050970);
    hide Product;
  }

  lemma Product184(k: nat)
    requires 184 <= k < 192 && k != LevelStart(k)
    ensures ProductOk(k)
  {
    assert Product(2091667, 811944, -1333058);
    assert Product(2091667, 531354, 1237275);
    assert Product(2091667, 954230, -3318210);
    assert Product(2091667, 3881043, -1430225);
    assert Product(2091667, 3900724, -451100);
    assert Product(2091667, -2556880, 1312455);
    assert Product(2091667, 2071892, 3306115);
    assert Product(2091667, -2797779, -1962642);
    hide Product;
  }

  lemma Product192(k: nat)
    requires 192 <= k < 200 && k != LevelStart(k)
    ensures ProductOk(k)
  {
    assert Product(2091667, -3930395, -1279661);
    assert Product(2091667, -1528703, 1917081);
    assert Product(2091667, -3677745, -2546312);
    assert Product(2091667, -3041255, -1374803);
    assert Product(2091667, -1452451, 1500165);
    assert Product(2091667, 3475950, 777191);
    assert Product(2091667, 2176455, 2235880);
    assert Product(2091667, -1585221, 3406031);
    hide Product;
  }

  lemma Product200(k: nat)
    requires 200 <= k < 208 && k != LevelStart(k)
    ensures ProductOk(k)
  {
    assert Product(2091667, -1257611, -542412);
    assert Product(2091667, 1939314, -2831860);
    assert Product(2091667, -4083598, -1671176);
    assert Product(2091667, -1000202, -1846953);
    assert Product(2091667, -3190144, -2584293);
    assert Product(2091667, -3157330, -3724270);
    assert Product(2091667, -3632928, 594136);
    assert Product(2091667, 126922, -3776993);
    hide Product;
  }

  lemma Product208(k: nat)
    requires 208 <= k < 216 && k != LevelStart(k)
    ensures ProductOk(k)
  {
    assert Product(2091667, 3412210, -2013608);
    assert Product(2091667, -983419, 2432395);
    assert Product(2091667, 2147896, 2454455);
    assert Product(2091667, 2715295, -164721);
    assert Product(2091667, -2967645, 1957272);
    assert Product(2091667, -3693493, 3369112);
    assert Product(2091667, -411027, 185531);
    assert Product(2091667, -2477047, -1207385);
    hide Product;
  }

  lemma Product216(k: nat)
    requires 216 <= k < 224 && k != LevelStart(k)
    ensures ProductOk(k)
  {
    assert Product(2091667, -671102, -3183426);
    assert Product(2091667, -1228525, 162844);
    assert Product(2091667, -22981, 1616392);
    assert Product(2091667, -1308169, 3014001);
    assert Product(2091667, -381987, 810149);
    assert Product(2091667, 1349076, 1652634);
    assert Product(2091667, 1852771, -3694233);
    assert Product(2091667, -1430430, -1799107);
    hide Product;
  }

  lemma Product224(k: nat)
    requires 224 <= k < 232 && k != LevelStart(k)
    ensures ProductOk(k)
  {
    assert Product(2091667, -3343383, -3038916);
    assert Product(2091667, 264944, 3523897);
    assert Product(2091667, 508951, 3866901);
    assert Product(2091667, 3097992, 269760);
    assert Product(2091667, 44288, 2213111);
    assert Product(2091667, -1100098, -975884);
    assert Product(2091667, 904516, 1717735);
    assert Product(2091667, 3958618, 472078);
    hide Product;
  }

  lemma Product232(k: nat)
    requires 232 <= k < 240 && k != LevelStart(k)
    ensures ProductOk(k)
  {
    assert Product(2091667, -3724342, -426683);
    assert Product(2091667, -8578, 1723600);
    assert Product(2091667, 1653064, -1803090);
    assert Product(2091667, -3249728, 1910376);
    assert Product(2091667, 2389356, -1667432);
    assert Product(2091667, -210977, -1104333);
    assert Product(2091667, 759969, -260646);
    assert Product(2091667, -1316856, -3833893);
    hide Product;
  }

  lemma Product240(k: nat)
    requires 240 <= k < 248 && k != LevelStart(k)
    ensures ProductOk(k)
  {
    assert Product(2091667, 189548, -2939036);
    assert Product(2091667, -3553272, -2235985);
    assert Product(2091667, 3159746, -420899);
    assert Product(2091667, -1851402, -2286327);
    assert Product(2091667, -2409325, 183443);
    assert Product(2091667, -177440, -976891);
    assert Product(2091667, 1315589, 1612842);
    assert Product(2091667, 1341330, -3545687);
    hide Product;
  }

  lemma Product248(k: nat)
    requires 248 <= k < 256 && k != LevelStart(k)
    ensures ProductOk(k)
  {
    assert Product(2091667, 1285669, -554416);
    assert Product(2091667, -1584928, 3919660);
    assert Product(2091667, -812732, -48306);
    assert Product(2091667, -1439742, -1362209);
    assert Product(2091667, -3019102, 3937738);
    assert Product(2091667, -3881060, 1400424);
    assert Product(2091667, -3628969, -846154);
    assert Product(2091667, 3839961, 1976782);
    hide Product;
  }

  lemma ProductHolds(k: nat)
    requires 1 <= k < 256 && k != LevelStart(k)
    ensures ProductOk(k)
  {
    hide ProductOk;
    if k < 8 {
      Product1(k);
    } else if k < 16 {
      Product8(k);
    } else if k < 24 {
      Product16(k);
    } else if k < 32 {
      Product24(k);
    } else if k < 40 {
      Product32(k);
    } else if k < 48 {
      Product40(k);
    } else if k < 56 {
      Product48(k);
    } else if k < 64 {
      Product56(k);
    } else if k < 72 {
      Product64(k);
    } else if k < 80 {
      Product72(k);
    } else if k < 88 {
      Product80(k);
    } else if k < 96 {
      Product88(k);
    } else if k < 104 {
      Product96(k);
    } else if k < 112 {
      Product104(k);
    } else if k < 120 {
      Product112(k);
    } else if k < 128 {
      Product120(k);
    } else if k < 136 {
      Product128(k);
    } else if k < 144 {
      Product136(k);
    } else if k < 152 {
      Product144(k);
    } else if k < 160 {
      Product152(k);
    } else if k < 168 {
      Product160(k);
    } else if k < 176 {
      Product168(k);
    } else if k < 184 {
      Product176(k);
    } else if k < 192 {
      Product184(k);
    } else if k < 200 {
      Product192(k);
    } else if k < 208 {
      Product200(k);
    } else if k < 216 {
      Product208(k);
    } else if k < 224 {
      Product216(k);
    } else if k < 232 {
      Product224(k);
    } else if k < 240 {
      Product232(k);
    } else if k < 248 {
      Product240(k);
    } else {
      Product248(k);
    }
  }

  /** The first entry of level i. */
  lemma {:induction false} LevelStartIsPower(i: nat)
    requires i < 8
    ensures Pow2(i) < 256 && Cong(Zeta(Pow2(i)), DsaConstants.R * Power(1753, Pow2(7 - i)), DsaConstants.Q)
    decreases 8 - i
  {
    hide *;
    Levels(i);
    if i == 7 {
      LastLevelStart();
    } else {
      LevelStartIsPower(i + 1);
      InnerHolds(Pow2(i));
      SquareOfStart(i);
      Squared(Zeta(Pow2(i)), Zeta(Pow2(i + 1)), Pow2(7 - (i + 1)));
    }
  }

  lemma Levels(i: nat)
    requires i < 8
    ensures 1 <= Pow2(i) < 256 && Pow2(7) == 128 && Pow2(0) == 1
    ensures i < 7 ==> Pow2(i + 1) == 2 * Pow2(i) < 256 && Pow2(7 - i) == 2 * Pow2(7 - (i + 1))
  {
    assert Pow2(1) == 2 && Pow2(2) == 4 && Pow2(3) == 8 && Pow2(4) == 16 && Pow2(5) == 32 && Pow2(6) == 64 && Pow2(7) == 128;
  }

  lemma LastLevelStart()
    ensures Cong(Zeta(128), DsaConstants.R * Power(1753, 1), DsaConstants.Q)
  {
    assert Zeta(128) == 2091667 && Power(1753, 1) == 1753;
    CongIff(2091667, DsaConstants.R * 1753, DsaConstants.Q);
  }

  lemma SquareOfStart(i: nat)
    requires i < 7 && 1 <= Pow2(i) < 128 && Pow2(i + 1) == 2 * Pow2(i) && InnerOk(Pow2(i))
    ensures (Zeta(Pow2(i + 1)) * Zeta(Pow2(i + 1)) - Zeta(Pow2(i)) * DsaConstants.R) % DsaConstants.Q == 0
  {
    hide Zeta, Pow2;
  }

  /** A congruence without the factor R on both sides. */
  lemma CancelR(x: int, y: int)
    requires Cong(DsaConstants.R * x, DsaConstants.R * y, DsaConstants.Q)
    ensures Cong(x, y, DsaConstants.Q)
  {
    var k, m := Quot(DsaConstants.R * x, DsaConstants.R * y, DsaConstants.Q), (1 - DsaConstants.R * DsaConstants.RINV) / DsaConstants.Q;
    assert DsaConstants.R * DsaConstants.RINV == 1 - DsaConstants.Q * m;
    assert DsaConstants.R * (x - y) == DsaConstants.Q * k;
    assert (x - y) * (1 - DsaConstants.Q * m) == DsaConstants.RINV * (DsaConstants.R * (x - y)) == DsaConstants.RINV * (DsaConstants.Q * k);
    CongIntro(x, y, DsaConstants.Q, DsaConstants.RINV * k + m * (x - y));
  }

  /** z is R times a power, and z w is congruent to R x; p and r are the powers behind z and w. */
  lemma ProductOfPowers(z: int, w: int, x: int, p: int, r: int)
    requires Cong(z, DsaConstants.R * p, DsaConstants.Q) && Cong(w, DsaConstants.R * r, DsaConstants.Q) && (z * w - DsaConstants.R * x) % DsaConstants.Q == 0
    ensures Cong(x, DsaConstants.R * (p * r), DsaConstants.Q)
  {
    hide *;
    DsaConstants.QIs();
    var a := DsaConstants.R;
    CongIff(z * w, a * x, DsaConstants.Q);
    CongSym(z * w, a * x, DsaConstants.Q);
    CongMul(z, a * p, w, a * r, DsaConstants.Q);
    FactorsTogether(a, p, r);
    CongTrans(a * x, z * w, a * (a * (p * r)), DsaConstants.Q);
    CancelR(x, a * (p * r));
  }

  lemma Squared(z: int, w: int, e: nat)
    requires Cong(w, DsaConstants.R * Power(1753, e), DsaConstants.Q) && (w * w - z * DsaConstants.R) % DsaConstants.Q == 0
    ensures Cong(z, DsaConstants.R * Power(1753, 2 * e), DsaConstants.Q)
  {
    hide Cong, Power;
    PowerAdd(1753, e, e);
    ProductOfPowers(w, w, z, Power(1753, e), Power(1753, e));
  }

  /** Entry k is R times 1753 to the bit reversal of k; entry 0 is not used. */
  lemma {:induction false} ZetaIsPower(k: nat)
    requires 1 <= k < 256
    ensures Cong(Zeta(k), DsaConstants.R * Power(1753, BitRev(k, 8)), DsaConstants.Q)
  {
    hide *;
    var i := Level(k);
    var j := k - Pow2(i);
    LevelStartIsPower(i);
    BitRevSplit(j, i, 8);
    if j == 0 {
      NoBits(8);
    } else {
      ZetaIsPower(j);
      ProductHolds(k);
      ProductOkIs(k, Pow2(i));
      PowerAdd(1753, Pow2(7 - i), BitRev(j, 8));
      ProductOfPowers(Zeta(Pow2(i)), Zeta(j), Zeta(k), Power(1753, Pow2(7 - i)), Power(1753, BitRev(j, 8)));
    }
  }

  lemma Level(k: nat) returns (i: nat)
    requires 1 <= k < 256
    ensures i < 8 && Pow2(i) == LevelStart(k) && Pow2(i) <= k < 2 * Pow2(i)
  {
    assert Pow2(1) == 2 && Pow2(2) == 4 && Pow2(3) == 8 && Pow2(4) == 16 && Pow2(5) == 32 && Pow2(6) == 64 && Pow2(7) == 128;
    i := if k < 2 then 0 else if k < 4 then 1 else if k < 8 then 2 else if k < 16 then 3 else if k < 32 then 4
         else if k < 64 then 5 else if k < 128 then 6 else 7;
  }

  lemma ProductOkIs(k: nat, s: nat)
    requires 1 <= k < 256 && s == LevelStart(k) && ProductOk(k)
    ensures (Zeta(s) * Zeta(k - s) - DsaConstants.R * Zeta(k)) % DsaConstants.Q == 0
  {
    hide Zeta;
  }
}
