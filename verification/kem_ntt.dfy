/** The ML-KEM transform: in-place forward and inverse passes down to pairs, and the products of pairs. */
module KemNtt {
  import opened MachineInts
  import opened Vectors
  import opened Congruence
  import opened PolyRing
  import opened NttTower
  import opened NttTransform
  import opened NttArray
  import opened NttRemainder
  import opened BitReversal
  import opened KemConstants
  import opened KemReduce
  import Zetas = KemZetas

  /** The root at a node: the table entry with the Montgomery factor removed. */
  function Root(n: nat): int
    requires n < 128
  {
    Zetas.Zeta(n) * RINV
  }

  function Roots(): (r: seq<int>)
    ensures |r| == 128
  {
    seq(128, n requires 0 <= n < 128 => Root(n))
  }

  /** The tower the tables describe: seven layers down to pairs of coefficients. */
  function T(): Tower
  {
    Tower(Q, Roots(), 7, 3303)
  }

  lemma TowerShape()
    ensures T().q == Q > 1 && T().depth == 7 && |T().roots| == 128
    ensures Pow2(0) == 1 && Pow2(7) == 128 && BlockLen(T(), 2, 0) == 256 && BlockLen(T(), 2, 7) == 2
  {
    assert Pow2(4) == 16;
  }

  // ---------- The table is right ----------

  /** Removing the Montgomery factors from x = p * R modulo Q. */
  lemma RemoveFactors(x: int, p: int)
    requires (x - p * R) % Q == 0
    ensures Cong(x * (RINV * RINV), p * RINV, Q)
  {
    var k := (x - p * R) / Q;
    assert x == p * R + Q * k;
    assert R * RINV == 1 + Q * 3327;
    CongIntro(x * (RINV * RINV), p * RINV, Q, 3327 * RINV * p + RINV * RINV * k);
  }

  lemma RootProduct(m: nat, n: nat)
    requires m < 128 && n < 128
    ensures Root(m) * Root(n) == Zetas.Zeta(m) * Zetas.Zeta(n) * (RINV * RINV)
  {
    hide Zetas.Zeta;
    Regroup(Zetas.Zeta(m), Zetas.Zeta(n), RINV);
  }

  lemma MinusOne()
    ensures Cong(-R * RINV, -1, Q)
  {
    assert R * RINV == 1 + Q * 3327;
    CongIntro(-R * RINV, -1, Q, -3327);
  }

  lemma SquareHolds(n: nat)
    requires 1 <= n < 128
    ensures SquareOk(T(), n)
  {
    hide Zetas.Zeta, Zetas.Row0, Cong;
    var p := if n == 1 then -R else if n % 2 == 0 then Zetas.Zeta(n / 2) else -Zetas.Zeta(n / 2);
    assert (Zetas.Zeta(n) * Zetas.Zeta(n) - p * R) % Q == 0 by {
      if n == 1 {
        Zetas.MirroredHolds(1);
      } else {
        Zetas.InnerHolds(n / 2);
      }
    }
    RootProduct(n, n);
    RemoveFactors(Zetas.Zeta(n) * Zetas.Zeta(n), p);
    if n == 1 {
      MinusOne();
      CongTrans(Root(1) * Root(1), -R * RINV, -1, Q);
    }
  }

  lemma LevelStartIsPow2(e: nat, b: nat)
    requires e < 7 && b < Pow2(e)
    ensures 1 <= Pow2(e) + b < 128 && Zetas.LevelStart(Pow2(e) + b) == Pow2(e)
  {
    assert Pow2(1) == 2 && Pow2(2) == 4 && Pow2(3) == 8 && Pow2(4) == 16 && Pow2(5) == 32 && Pow2(6) == 64;
  }

  lemma MirrorHolds(e: nat, b: nat)
    requires e < 7 && b < Pow2(e)
    ensures MirrorOk(T(), e, b)
  {
    LevelStartIsPow2(e, b);
    var n, m := Pow2(e) + b, 2 * Pow2(e) - 1 - b;
    Zetas.MirroredHolds(n);
    hide Zetas.Zeta, Cong;
    assert (Zetas.Zeta(n) * Zetas.Zeta(m) - (-R) * R) % Q == 0;
    RootProduct(n, m);
    RemoveFactors(Zetas.Zeta(n) * Zetas.Zeta(m), -R);
    MinusOne();
    CongTrans(Root(n) * Root(m), -R * RINV, -1, Q);
  }

  /** The constants of the ML-KEM transform form a tower of ring splittings modulo Q. */
  lemma TowerIsGood()
    ensures Good(T())
  {
    TowerShape();
    CongIntro(3303 * 128, 1, Q, 127);
    forall n | 1 <= n < 128
      ensures SquareOk(T(), n)
    {
      SquareHolds(n);
    }
    forall e: nat, b: nat | e < 7 && b < Pow2(e)
      ensures MirrorOk(T(), e, b)
    {
      MirrorHolds(e, b);
    }
  }

  // ---------- The table lists the powers of one root ----------

  /** Every root is a power of 17, by bit reversal. */
  lemma RootIsPower(k: nat)
    requires 1 <= k < 128
    ensures Cong(Root(k), Power(17, BitRev(k, 7)), Q)
  {
    hide *;
    QIs();
    Zetas.ZetaIsPower(k);
    RootIs(k);
    var p := Power(17, BitRev(k, 7));
    WithoutR(Zetas.Zeta(k), p);
  }

  lemma RootIs(k: nat)
    requires k < 128
    ensures Root(k) == Zetas.Zeta(k) * RINV
  {}

  lemma WithoutR(z: int, p: int)
    requires Cong(z, R * p, Q)
    ensures Cong(z * RINV, p, Q)
  {
    var k := Quot(z, R * p, Q);
    assert R * RINV == 1 + Q * 3327;
    assert z * RINV == RINV * (R * p) + RINV * (Q * k);
    assert RINV * (R * p) == (1 + Q * 3327) * p;
    CongIntro(z * RINV, p, Q, 3327 * p + RINV * k);
  }

  /** 17 is a root of X^128 + 1. */
  lemma HalfTurn()
    ensures Cong(Power(17, 128), -1, Q)
  {
    hide *;
    QIs();
    FirstReversed();
    RootIsPower(1);
    SquareOfFirst();
    var p := Power(17, 64);
    PowerAdd(17, 64, 64);
    CongMul(Root(1), p, Root(1), p, Q);
    CongSym(Root(1) * Root(1), p * p, Q);
    CongTrans(p * p, Root(1) * Root(1), -1, Q);
  }

  lemma FirstReversed()
    ensures BitRev(1, 7) == 64
  {
    NoBits(6);
    assert Pow2(4) == 16;
  }

  lemma SquareOfFirst()
    ensures Cong(Root(1) * Root(1), -1, Q)
  {
    SquareHolds(1);
    hide Root, Cong;
  }

  /** Leaf i of the tree belongs to 17 to the power 2 BitRev(i) + 1. */
  lemma LeafIsPower(i: nat)
    requires i < 128
    ensures (128 + i) / 2 < |T().roots| && Cong(NodeRoot(T(), 128 + i), Power(17, 2 * BitRev(i, 7) + 1), Q)
  {
    hide *;
    TowerShape();
    QIs();
    var j := i / 2;
    LeafReversed(i);
    RootIsPower(64 + j);
    LeafRoot(i);
    if i % 2 == 1 {
      HalfTurn();
      var e := 2 * BitRev(j, 6) + 1;
      PowerAdd(17, 128, e);
      Negated(Root(64 + j), Power(17, e), Power(17, 128));
    }
  }

  /** A root in the other half is the negative one. */
  lemma Negated(x: int, p: int, h: int)
    requires Cong(x, p, Q) && Cong(h, -1, Q)
    ensures Cong(-x, h * p, Q)
  {
    var k, l := Quot(x, p, Q), Quot(h, -1, Q);
    assert h * p == -p + Q * l * p;
    CongIntro(-x, h * p, Q, -k - l * p);
  }

  lemma LeafReversed(i: nat)
    requires i < 128
    ensures BitRev(64 + i / 2, 7) == 2 * BitRev(i / 2, 6) + 1
    ensures BitRev(i, 7) == BitRev(i / 2, 6) + if i % 2 == 1 then 64 else 0
  {
    assert Pow2(6) == 64 by {
      assert Pow2(4) == 16;
    }
    TopBit(i / 2, true, 6);
  }

  lemma LeafRoot(i: nat)
    requires i < 128
    ensures (128 + i) / 2 == 64 + i / 2 < |T().roots|
    ensures NodeRoot(T(), 128 + i) == if i % 2 == 0 then Root(64 + i / 2) else -Root(64 + i / 2)
  {
    hide Root;
    assert T().roots[64 + i / 2] == Root(64 + i / 2);
  }

  /**
   The transform as the standard has it: pair i holds the remainder of the polynomial modulo X^2 - 17^(2 BitRev7(i) + 1).
   */
  ghost predicate IsTransform(s: seq<int>, a: seq<int>)
  {
    |s| == 256 && forall i :: 0 <= i < 128 ==> PairIs(s, a, i)
  }

  ghost predicate PairIs(s: seq<int>, a: seq<int>, i: nat)
    requires |s| == 256 && i < 128
  {
    EqMod([s[2 * i], s[2 * i + 1]], Remainder(a, 2, Power(17, 2 * BitRev(i, 7) + 1)), Q)
  }

  /** An array that holds the transform of the tower holds these remainders. */
  lemma TransformMeans(s: seq<int>, a: seq<int>)
    requires |a| == 256 && |T().roots| == Pow2(7) && BlockLen(T(), 2, 0) == 256
    requires Represents(s, Ntt(T(), a, 2), 2, Q)
    ensures IsTransform(s, a)
  {
    hide *;
    TowerShape();
    LeafShape(a);
    PairsOf(s, Ntt(T(), a, 2));
    forall i | 0 <= i < 128
      ensures PairIs(s, a, i)
    {
      LeafMeans(s, a, i);
    }
    MakeTransform(s, a);
  }

  lemma LeafShape(a: seq<int>)
    requires |a| == 256 && |T().roots| == Pow2(7) && BlockLen(T(), 2, 0) == 256
    ensures |Ntt(T(), a, 2)| == 128 && Uniform(Ntt(T(), a, 2), 2) && Ntt(T(), a, 2) == Forward(T(), a, 2, 7)
  {
    TowerShape();
    NttIs(a);
    assert BlockLen(T(), 2, 7) == 2;
    hide Forward, Uniform, Roots;
  }

  lemma PairsOf(s: seq<int>, bl: Blocks)
    requires |bl| == 128 && Uniform(bl, 2) && Represents(s, bl, 2, Q)
    ensures |s| == 256 && forall i :: 0 <= i < 128 ==> EqMod([s[2 * i], s[2 * i + 1]], bl[i], Q)
  {
    hide EqMod;
    forall i | 0 <= i < 128
      ensures EqMod([s[2 * i], s[2 * i + 1]], bl[i], Q)
    {
      assert BlockAt(s, 2, i) == [s[2 * i], s[2 * i + 1]];
    }
  }

  lemma LeafMeans(s: seq<int>, a: seq<int>, i: nat)
    requires |a| == 256 && |s| == 256 && i < 128 && |T().roots| == Pow2(7) && BlockLen(T(), 2, 0) == 256
    requires |Ntt(T(), a, 2)| == 128 && Ntt(T(), a, 2) == Forward(T(), a, 2, 7)
    requires EqMod([s[2 * i], s[2 * i + 1]], Ntt(T(), a, 2)[i], Q)
    ensures PairIs(s, a, i)
  {
    hide *;
    TowerShape();
    TowerIsGood();
    Leaves();
    ForwardIsRemainder(T(), a, 2, 7, i);
    LeafIsPower(i);
    var z, y := NodeRoot(T(), 128 + i), Power(17, 2 * BitRev(i, 7) + 1);
    RemainderCong(a, 2, z, y, Q);
    var pair := [s[2 * i], s[2 * i + 1]];
    EqModTrans(pair, Ntt(T(), a, 2)[i], Remainder(a, 2, z), Q);
    EqModTrans(pair, Remainder(a, 2, z), Remainder(a, 2, y), Q);
    MakePair(s, a, i);
  }

  lemma Leaves()
    ensures Pow2(7) == 128 && BlockLen(T(), 2, 7) == 2
  {
    assert Pow2(4) == 16;
  }

  lemma MakePair(s: seq<int>, a: seq<int>, i: nat)
    requires |s| == 256 && i < 128
    requires EqMod([s[2 * i], s[2 * i + 1]], Remainder(a, 2, Power(17, 2 * BitRev(i, 7) + 1)), Q)
    ensures PairIs(s, a, i)
  {}

  lemma MakeTransform(s: seq<int>, a: seq<int>)
    requires |s| == 256 && forall i :: 0 <= i < 128 ==> PairIs(s, a, i)
    ensures IsTransform(s, a)
  {
    hide PairIs;
  }

  // ---------- Forward transform ----------

  /** A Montgomery product with a table entry is a product with the root. */
  lemma MontgomeryTimesRoot(zeta: int, c: int, t: int)
    requires Cong(t, zeta * c * RINV, Q)
    ensures Cong(t, zeta * RINV * c, Q)
  {
    assert zeta * c * RINV == zeta * RINV * c;
  }

  lemma ButterflyCong(u: int, c: int, t: int, y: int)
    requires Cong(t, y * c, Q)
    ensures Cong(u + t, Up(u, c, y), Q)
    ensures Cong(u - t, Down(u, c, y), Q)
  {
    CongIntro(u, u, Q, 0);
    CongAdd(u, u, t, y * c, Q);
    CongSub(u, u, t, y * c, Q);
  }

  /** The product of a table entry with any 16-bit value is in the range of Montgomery reduction. */
  lemma ProductInRange(zeta: int, c: int16)
    requires 0 <= zeta < 3329
    ensures -0x8000 * Q <= zeta * c < 0x8000 * Q
    ensures -0x8000_0000 <= zeta * c < 0x8000_0000
  {
    ProductBound(zeta, c, 3328, 0x8000);
  }

  predicate Int16(x: int)
  {
    -0x8000 <= x < 0x8000
  }

  /** What a forward layer can add to coefficients below a bound: half of Q, and a part of the bound. */
  function Growth(bound: int): int
  {
    (3328 * (bound - 1) + 109084672) / 0x1_0000 + 1
  }

  /** A forward butterfly on u and c with the root y leaves x and y modulo Q, and exactly twice u in their sum. */
  ghost predicate Splits(u: int, c: int, x: int, x': int, y: int, grow: int)
  {
    Cong(x, Up(u, c, y), Q) && Cong(x', Down(u, c, y), Q) && Kept(u, x, x', grow)
  }

  ghost predicate Kept(u: int, x: int, x': int, grow: int)
  {
    x + x' == 2 * u && Small(x - u, grow)
  }

  /** The Montgomery product of a table entry and a coefficient below a bound. */
  lemma TwiddleIs(zeta: int, c: int16, bound: int)
    requires 0 <= zeta < 3329 && Small(c, bound) && 0 <= bound <= 0x8000
    ensures -0x8000 * Q <= zeta * c < 0x8000 * Q && -0x8000_0000 <= zeta * c < 0x8000_0000
    ensures Cong(MontgomeryReduce(zeta * c), zeta * RINV * c, Q) && Small(MontgomeryReduce(zeta * c), Growth(bound))
  {
    hide *;
    QIs();
    InverseTwiddle(zeta, c);
    TwiddleProduct(zeta, c, bound);
    ReducedBelow(zeta * c, bound);
  }

  lemma TwiddleProduct(zeta: int, c: int, bound: int)
    requires 0 <= zeta < 3329 && Small(c, bound)
    ensures -3328 * (bound - 1) <= zeta * c <= 3328 * (bound - 1)
  {
    ProductBound(zeta, c, 3328, bound - 1);
  }

  lemma ReducedBelow(a: int32, bound: int)
    requires -109084672 <= a < 109084672 && -3328 * (bound - 1) <= a <= 3328 * (bound - 1)
    ensures Small(MontgomeryReduce(a), Growth(bound))
  {
    hide MontgomeryReduce, Cong, Growth, Small;
    ReducedBounds(a);
    BelowGrowth(MontgomeryReduce(a), a, bound);
  }

  lemma ReducedBounds(a: int32)
    requires -109084672 <= a < 109084672
    ensures a - 109084672 < 0x1_0000 * MontgomeryReduce(a) <= a + 109084672
  {
    hide MontgomeryReduce, Cong;
  }

  lemma BelowGrowth(r: int, a: int, bound: int)
    requires a - 109084672 < 0x1_0000 * r <= a + 109084672 && -3328 * (bound - 1) <= a <= 3328 * (bound - 1)
    ensures Small(r, Growth(bound))
  {}

  lemma GrowthFits(bound: int)
    requires bound <= 0x8000
    ensures Growth(bound) <= Q
  {}

  /** There is room for the growth. */
  lemma Room(s: seq<int>, lo: int, hi: int, bound: int, i: nat, t: int)
    requires Bounded(s, lo, hi, bound) && lo <= i < hi && i < |s| && Small(t, Growth(bound)) && bound + Growth(bound) <= 0x8000
    ensures -0x8000 <= s[i] + t < 0x8000 && -0x8000 <= s[i] - t < 0x8000
  {
    assert Small(s[i], bound);
  }

  method ForwardButterflies(p: array<int16>, start: nat, len: nat, zeta: int16, ghost bound: int)
    requires p.Length == 256 && start + 2 * len <= 256 && 0 <= zeta < 3329
    requires 0 <= bound && bound + Growth(bound) <= 0x8000 && Bounded(p[..], start, start + 2 * len, bound)
    modifies p
    ensures ForwardDone(old(p[..]), p[..], start, len, zeta * RINV, Q)
    ensures Bounded(p[..], start, start + 2 * len, bound + Growth(bound))
    ensures BlockKept(old(p[..]), p[..], start, len, Growth(bound))
    ensures forall i :: 0 <= i < 256 && !(start <= i < start + 2 * len) ==> p[i] == old(p[i])
  {
    hide *;
    ghost var s: seq<int> := p[..];
    GrowthIsPositive(bound);
    QIs();
    var j := start;
    while j < start + len
      invariant start <= j <= start + len
      invariant forall i :: start <= i < j ==> Splits(s[i], s[i + len], p[i], p[i + len], zeta * RINV, Growth(bound))
      invariant forall i :: 0 <= i < 256 && !(start <= i < j) && !(start + len <= i < j + len) ==> p[i] == s[i]
    {
      BoundedAt(s, start, start + 2 * len, bound, j + len);
      TwiddleIs(zeta, p[j + len], bound);
      var t: int16 := MontgomeryReduce(zeta * p[j + len]);
      Room(s, start, start + 2 * len, bound, j, t);
      p[j + len] := p[j] - t;
      p[j] := p[j] + t;
      SplitsIs(s[j], s[j + len], t, zeta * RINV, Growth(bound));
      j := j + 1;
    }
    SplitsAreForward(s, p[..], start, len, zeta * RINV, Growth(bound));
    SplitsAreBounded(s, p[..], start, len, bound, Growth(bound));
  }

  lemma GrowthIsPositive(bound: int)
    requires 0 <= bound && bound + Growth(bound) <= 0x8000
    ensures 0 < Growth(bound) && bound <= 0x8000
  {}

  lemma SplitsIs(u: int, c: int, t: int, y: int, grow: int)
    requires Cong(t, y * c, Q) && Small(t, grow)
    ensures Splits(u, c, u + t, u - t, y, grow)
  {
    hide Cong;
    ButterflyCong(u, c, t, y);
  }

  /** Every butterfly of a block keeps twice its first operand in the sum. */
  ghost predicate BlockKept(s: seq<int>, r: seq<int>, o: nat, len: nat, grow: int)
  {
    o + 2 * len <= |s| == |r| && forall i :: o <= i < o + len ==> Kept(s[i], r[i], r[i + len], grow)
  }

  lemma SplitsAreForward(s: seq<int>, r: seq<int>, o: nat, len: nat, y: int, grow: int)
    requires o + 2 * len <= |s| == |r| && Q > 0
    requires forall i :: o <= i < o + len ==> Splits(s[i], s[i + len], r[i], r[i + len], y, grow)
    requires forall i :: 0 <= i < |s| && !(o <= i < o + 2 * len) ==> r[i] == s[i]
    ensures ForwardDone(s, r, o, len, y, Q) && BlockKept(s, r, o, len, grow)
  {
    hide Cong, Up, Down, Kept;
  }

  lemma SplitsAreBounded(s: seq<int>, r: seq<int>, o: nat, len: nat, bound: int, grow: int)
    requires BlockKept(s, r, o, len, grow) && Bounded(s, o, o + 2 * len, bound)
    ensures Bounded(r, o, o + 2 * len, bound + grow)
  {
    forall i | o <= i < o + len
      ensures BothSmall(r[i], r[i + len], bound + grow)
    {
      assert Kept(s[i], r[i], r[i + len], grow) && Small(s[i], bound);
    }
    MakeBounded(r, o, len, bound + grow);
  }

  /** The first b of n blocks of length 2 * len have been through their butterflies. */
  ghost predicate LayerKept(s: seq<int>, r: seq<int>, n: nat, len: nat, b: nat, grow: int)
  {
    && |s| == |r| == 256 && b <= n && Offset(n, 2 * len) == 256
    && forall i :: 0 <= i < b ==> BlockKept(s, r, Offset(i, 2 * len), len, grow)
  }

  /** One layer: every block of length 2 * len is split, with consecutive table entries. */
  method ForwardLayer(p: array<int16>, len: nat, k0: nat, ghost bl: Blocks, ghost bound: int) returns (k: nat)
    requires p.Length == 256 && 0 < len && 0 < |bl| == k0 && 2 * |bl| <= 128
    requires Represents(p[..], bl, 2 * len, Q)
    requires 0 <= bound && bound + Growth(bound) <= 0x8000 && Bounded(p[..], 0, 256, bound)
    modifies p
    ensures k == 2 * |bl|
    ensures Represents(p[..], Split(T(), bl, len), len, Q)
    ensures LayerKept(old(p[..]), p[..], |bl|, len, |bl|, Growth(bound))
    ensures Bounded(p[..], 0, 256, bound + Growth(bound))
  {
    hide *;
    k := k0;
    var start := 0;
    ghost var b, grow := 0, Growth(bound);
    ghost var s0: seq<int> := p[..];
    LayerStarts(s0, bl, len, bound + grow, grow);
    while start < 256
      invariant b <= |bl| && start == Offset(b, 2 * len) <= 256 && k == |bl| + b
      invariant b == |bl| ==> start == 256
      invariant forall i :: start <= i < 256 ==> p[i] == s0[i]
      invariant LayerKept(s0, p[..], |bl|, len, b, grow) && SplitSoFar(T(), p[..], bl, len, b)
      invariant Bounded(p[..], 0, start, bound + grow)
      decreases |bl| - b
    {
      BlockIsNext(b, |bl|, len);
      var zeta: int16 := Zetas.Zeta(k);
      k := k + 1;
      ghost var s: seq<int> := p[..];
      TailBounded(s0, s, start, len, bound);
      ForwardButterflies(p, start, len, zeta, bound);
      SplitNext(s, p[..], bl, len, b);
      LayerKeptNext(s0, s, p[..], |bl|, len, b, grow);
      BoundedJoins(s, p[..], start, len, bound + grow);
      start := start + 2 * len;
      b := b + 1;
    }
    if b < |bl| {
      BlockIsNext(b, |bl|, len);
    }
    SplitEnd(T(), p[..], bl, len);
  }

  lemma LayerStarts(s: seq<int>, bl: Blocks, len: nat, bound: int, grow: int)
    requires |s| == 256 && 0 < |bl| && 2 * |bl| <= 128 && Represents(s, bl, 2 * len, Q)
    ensures T().q == Q > 0 && 2 * |bl| <= |T().roots| == 128 && Uniform(bl, 2 * len)
    ensures Offset(0, 2 * len) == 0 && Offset(|bl|, 2 * len) == 256
    ensures LayerKept(s, s, |bl|, len, 0, grow) && SplitSoFar(T(), s, bl, len, 0) && Bounded(s, 0, 0, bound)
  {
    TowerShape();
    SplitStart(T(), s, bl, len);
  }

  lemma SplitNext(s: seq<int>, r: seq<int>, bl: Blocks, len: nat, b: nat)
    requires b < |bl| && 2 * |bl| <= 128 == |T().roots| && T().q == Q > 0 && Uniform(bl, 2 * len)
    requires SplitSoFar(T(), s, bl, len, b)
    requires ForwardDone(s, r, Offset(b, 2 * len), len, Zetas.Zeta(|bl| + b) * RINV, Q)
    ensures SplitSoFar(T(), r, bl, len, b + 1)
  {
    assert T().roots[|bl| + b] == Zetas.Zeta(|bl| + b) * RINV;
    hide SplitSoFar, ForwardDone, Uniform, Offset, Roots, T;
    SplitStep(T(), s, r, bl, len, b);
  }

  lemma LayerKeptNext(s0: seq<int>, s: seq<int>, r: seq<int>, n: nat, len: nat, b: nat, grow: int)
    requires |s| == |r| == 256 && b < n && LayerKept(s0, s, n, len, b, grow)
    requires BlockKept(s, r, Offset(b, 2 * len), len, grow)
    requires forall i :: Offset(b, 2 * len) <= i < 256 ==> s[i] == s0[i]
    requires forall i :: 0 <= i < 256 && !(Offset(b, 2 * len) <= i < Offset(b, 2 * len) + 2 * len) ==> r[i] == s[i]
    ensures LayerKept(s0, r, n, len, b + 1, grow)
  {
    hide Kept;
    forall i | 0 <= i < b + 1
      ensures BlockKept(s0, r, Offset(i, 2 * len), len, grow)
    {
      if i < b {
        OffsetMono(i, b, 2 * len);
        hide Offset;
        assert BlockKept(s0, s, Offset(i, 2 * len), len, grow);
        BlockStays(s0, s, r, Offset(i, 2 * len), len, grow);
      } else {
        hide Offset;
        BlockFromStart(s0, s, r, Offset(b, 2 * len), len, grow);
      }
    }
  }

  lemma BlockStays(s0: seq<int>, s: seq<int>, r: seq<int>, o: nat, len: nat, grow: int)
    requires BlockKept(s0, s, o, len, grow) && |r| == |s| && forall i :: o <= i < o + 2 * len ==> r[i] == s[i]
    ensures BlockKept(s0, r, o, len, grow)
  {
    hide Kept;
    forall i | o <= i < o + len
      ensures Kept(s0[i], r[i], r[i + len], grow)
    {
      assert Kept(s0[i], s[i], s[i + len], grow);
    }
  }

  lemma BlockFromStart(s0: seq<int>, s: seq<int>, r: seq<int>, o: nat, len: nat, grow: int)
    requires BlockKept(s, r, o, len, grow) && |s0| == |s| && forall i :: o <= i < o + 2 * len ==> s[i] == s0[i]
    ensures BlockKept(s0, r, o, len, grow)
  {
    hide Kept;
    forall i | o <= i < o + len
      ensures Kept(s0[i], r[i], r[i + len], grow)
    {
      assert Kept(s[i], r[i], r[i + len], grow);
    }
  }

  lemma LevelSizes(e: nat)
    requires e < 7
    ensures BlockLen(T(), 2, e) == 2 * BlockLen(T(), 2, e + 1)
    ensures 1 <= Pow2(e) && 2 * Pow2(e) == Pow2(e + 1) <= 128
    ensures e == 6 ==> BlockLen(T(), 2, e + 1) == 2
    ensures e < 6 ==> BlockLen(T(), 2, e + 1) >= 4 && BlockLen(T(), 2, e + 1) % 2 == 0
  {
    assert Pow2(1) == 2 && Pow2(2) == 4 && Pow2(3) == 8 && Pow2(4) == 16 && Pow2(5) == 32 && Pow2(6) == 64 && Pow2(7) == 128;
  }

  /** What a layer needs to know about level e, and where it leads. */
  lemma LevelFacts(a: seq<int>, e: nat, len: int)
    requires |a| == 256 && e < 7 && |T().roots| == Pow2(7) && T().depth == 7
    requires BlockLen(T(), 2, 0) == 256 && BlockLen(T(), 2, e) == 2 * len
    ensures 2 <= len && |Forward(T(), a, 2, e)| == Pow2(e) >= 1 && 2 * Pow2(e) == Pow2(e + 1) <= 128
    ensures BlockLen(T(), 2, e + 1) == len
    ensures Uniform(Forward(T(), a, 2, e), 2 * len) && |T().roots| == 128
    ensures Forward(T(), a, 2, e + 1) == Split(T(), Forward(T(), a, 2, e), len)
    ensures e < 6 ==> len == 2 * (len / 2) && len >= 4
    ensures e == 6 ==> len / 2 == 1
  {
    ForwardStep(T(), a, 2, e + 1);
    assert OnLevel(T(), Forward(T(), a, 2, e), 2, e);
    hide Forward, Split, Uniform, BlockLen, Pow2, T;
    LevelSizes(e);
  }

  /** The bound after e layers. */
  function Grown(bound: int, e: nat): int
  {
    if e == 0 then bound else Grown(bound, e - 1) + Growth(Grown(bound, e - 1))
  }

  lemma GrownIs(bound: int, e: nat)
    requires bound + 7 * Q <= 0x8000 && 0 <= bound && e <= 7
    ensures Grown(bound, 0) == bound && 0 <= Grown(bound, e) <= bound + e * 3329
    ensures e < 7 ==> Grown(bound, e + 1) == Grown(bound, e) + Growth(Grown(bound, e)) <= 0x8000
  {
    if e > 0 {
      GrownIs(bound, e - 1);
      assert Growth(Grown(bound, e - 1)) <= 3329;
    }
  }

  /**
   r is left by the last forward layer: each pair of entries two apart adds up to twice an entry below the limit, and
   their difference is below 2 Q.
   */
  ghost predicate IsImage(r: seq<int>, limit: int)
  {
    exists s: seq<int> :: Bounded(s, 0, 256, limit) && LayerKept(s, r, 64, 2, 64, Q)
  }

  lemma MakeImage(s: seq<int>, r: seq<int>, limit: int, grow: int)
    requires Bounded(s, 0, 256, limit) && LayerKept(s, r, 64, 2, 64, grow) && grow <= Q
    ensures IsImage(r, limit)
  {
    forall i | 0 <= i < 64
      ensures BlockKept(s, r, Offset(i, 4), 2, Q)
    {
      assert BlockKept(s, r, Offset(i, 4), 2, grow);
    }
  }

  /**
   The forward transform. From coefficients below any bound that leaves room for seven more Q it stays in
   range, adds at most Q per layer, and leaves the transform of the old contents modulo Q.
   */
  method PolyNtt(p: array<int16>, ghost bound: int)
    requires p.Length == 256 && 0 <= bound && bound + 7 * Q <= 0x8000 && Bounded(p[..], 0, 256, bound)
    modifies p
    ensures IsImage(p[..], Grown(bound, 6))
    ensures |T().roots| == Pow2(7) && BlockLen(T(), 2, 0) == 256
    ensures Represents(p[..], Ntt(T(), old(p[..]), 2), 2, Q) && IsTransform(p[..], old(p[..]))
    ensures Bounded(p[..], 0, 256, bound + 7 * Q)
  {
    hide *;
    TowerShape();
    QIs();
    ghost var a: seq<int> := p[..];
    ghost var e, last := 0, a;
    var k, len := 1, 128;
    StartLevel(a);
    GrownIs(bound, 0);
    while len >= 2
      invariant 0 <= e <= 7 && 1 <= len && k == Pow2(e)
      invariant Represents(p[..], Forward(T(), a, 2, e), BlockLen(T(), 2, e), Q)
      invariant Bounded(p[..], 0, 256, Grown(bound, e))
      invariant e == 7 ==> Bounded(last, 0, 256, Grown(bound, 6)) && LayerKept(last, p[..], 64, 2, 64, Growth(Grown(bound, 6)))
      invariant len >= 2 ==> e < 7 && BlockLen(T(), 2, e) == 2 * len
      invariant len < 2 ==> e == 7
      decreases len
    {
      LevelFacts(a, e, len);
      LastLevel(e, len);
      GrownIs(bound, e);
      last := p[..];
      k := ForwardLayer(p, len, k, Forward(T(), a, 2, e), Grown(bound, e));
      len := len / 2;
      e := e + 1;
    }
    NttIs(a);
    GrownIs(bound, 6);
    GrowthFits(Grown(bound, 6));
    MakeImage(last, p[..], Grown(bound, 6), Growth(Grown(bound, 6)));
    GrownIs(bound, 7);
    BoundedWidens(p[..], Grown(bound, 7), bound + 7 * Q);
    TransformMeans(p[..], a);
  }

  lemma LastLevel(e: nat, len: nat)
    requires e < 7 && BlockLen(T(), 2, e) == 2 * len
    ensures e == 6 <==> len == 2
    ensures e == 6 ==> Pow2(e) == 64
  {
    assert Pow2(1) == 2 && Pow2(2) == 4 && Pow2(3) == 8 && Pow2(4) == 16 && Pow2(5) == 32 && Pow2(6) == 64 && Pow2(7) == 128;
  }

  lemma NttIs(a: seq<int>)
    requires |a| == 256 && |T().roots| == Pow2(7) && BlockLen(T(), 2, 0) == 256
    ensures Ntt(T(), a, 2) == Forward(T(), a, 2, 7)
  {
    hide Roots;
  }

  lemma StartLevel(a: seq<int>)
    requires |a| == 256
    ensures |T().roots| == Pow2(7) && BlockLen(T(), 2, 0) == 256
    ensures Represents(a, Forward(T(), a, 2, 0), 256, Q)
  {
    TowerShape();
    EqModRefl(a, Q);
    OffsetStep(0, 256);
    assert BlockAt(a, 256, 0) == a;
  }

  // ---------- Inverse transform ----------

  /** The sum and the difference of a butterfly pass the casts to 16 bits unchanged. */
  ghost predicate BlockFits(s: seq<int>, o: nat, len: nat)
  {
    o + 2 * len <= |s| && forall i :: o <= i < o + len ==> PairFits(s[i], s[i + len])
  }

  predicate PairFits(u: int, c: int)
  {
    Int16(u + c) && Int16(c - u)
  }

  ghost predicate LayerFits(s: seq<int>, n: nat, len: nat)
  {
    |s| == 256 && Offset(n, 2 * len) == 256 && forall b :: 0 <= b < n ==> BlockFits(s, Offset(b, 2 * len), len)
  }

  /** An inverse butterfly on u and c with the root y leaves x and x' modulo Q, both below Q. */
  ghost predicate Merges(u: int, c: int, x: int, x': int, y: int)
  {
    Cong(x, u + c, Q) && Cong(x', Diff(u, c, y), Q) && BothSmall(x, x', 3329)
  }

  method InverseButterflies(p: array<int16>, start: nat, len: nat, zeta: int16)
    requires p.Length == 256 && start + 2 * len <= 256 && 0 <= zeta < 3329 && BlockFits(p[..], start, len)
    modifies p
    ensures InverseDone(old(p[..]), p[..], start, len, zeta * RINV, Q)
    ensures Bounded(p[..], start, start + 2 * len, 3329)
    ensures forall i :: 0 <= i < 256 && !(start <= i < start + 2 * len) ==> p[i] == old(p[i])
  {
    hide *;
    ghost var s: seq<int> := p[..];
    QIs();
    var j := start;
    while j < start + len
      invariant start <= j <= start + len
      invariant forall i :: start <= i < j ==> Merges(s[i], s[i + len], p[i], p[i + len], zeta * RINV)
      invariant forall i :: 0 <= i < 256 && !(start <= i < j) && !(start + len <= i < j + len) ==> p[i] == s[i]
    {
      PairFitsAt(s, start, len, j);
      var t := p[j];
      p[j] := BarrettReduce(t + p[j + len]);
      var diff: int16 := p[j + len] - t;
      InverseTwiddle(zeta, diff);
      p[j + len] := MontgomeryReduce(zeta * diff);
      MergesIs(s[j], s[j + len], p[j + len], zeta * RINV);
      j := j + 1;
    }
    MergesAreInverse(s, p[..], start, len, zeta * RINV);
  }

  lemma PairFitsAt(s: seq<int>, o: nat, len: nat, i: nat)
    requires BlockFits(s, o, len) && o <= i < o + len <= i + len < |s|
    ensures -0x8000 <= s[i] + s[i + len] < 0x8000 && -0x8000 <= s[i + len] - s[i] < 0x8000
  {
    assert PairFits(s[i], s[i + len]);
  }

  lemma InverseTwiddle(zeta: int, d: int16)
    requires 0 <= zeta < 3329
    ensures -0x8000 * Q <= zeta * d < 0x8000 * Q && -0x8000_0000 <= zeta * d < 0x8000_0000
    ensures Cong(MontgomeryReduce(zeta * d), zeta * RINV * d, Q) && Small(MontgomeryReduce(zeta * d), 3329)
  {
    ProductInRange(zeta, d);
    MontgomeryIsRinv(zeta * d);
    hide Cong;
    MontgomeryTimesRoot(zeta, d, MontgomeryReduce(zeta * d));
  }

  lemma MergesIs(u: int, c: int, x': int, y: int)
    requires -0x8000 <= u + c < 0x8000 && Cong(x', y * (c - u), Q) && Small(x', 3329)
    ensures Merges(u, c, BarrettReduce(u + c), x', y)
  {
    hide Cong;
  }

  lemma MergesAreInverse(s: seq<int>, r: seq<int>, o: nat, len: nat, y: int)
    requires o + 2 * len <= |s| == |r| && Q > 0
    requires forall i :: o <= i < o + len ==> Merges(s[i], s[i + len], r[i], r[i + len], y)
    requires forall i :: 0 <= i < |s| && !(o <= i < o + 2 * len) ==> r[i] == s[i]
    ensures InverseDone(s, r, o, len, y, Q) && Bounded(r, o, o + 2 * len, 3329)
  {
    hide Cong, Diff, BothSmall;
    MakeBounded(r, o, len, 3329);
  }

  /**
   One inverse layer: the blocks of length len are merged pairwise, with the reversed table. The sums are brought back
   by Barrett reduction and the differences by Montgomery reduction, so every layer ends below Q.
   */
  method InverseLayer(p: array<int16>, len: nat, k0: nat, ghost bl: Blocks) returns (k: nat)
    requires p.Length == 256 && 0 < len && |bl| % 2 == 0 && 0 < |bl| <= 128 && k0 == 128 - |bl|
    requires Represents(p[..], bl, len, Q) && LayerFits(p[..], |bl| / 2, len)
    modifies p
    ensures k == 128 - |bl| / 2
    ensures Represents(p[..], Merge(T(), bl, len), 2 * len, Q) && Bounded(p[..], 0, 256, 3329)
  {
    hide *;
    k := k0;
    var start := 0;
    ghost var b, pairs := 0, |bl| / 2;
    ghost var s0: seq<int> := p[..];
    MergeStarts(s0, bl, len);
    while start < 256
      invariant b <= pairs && start == Offset(b, 2 * len) <= 256 && k == 128 - |bl| + b
      invariant b == pairs ==> start == 256
      invariant forall i :: start <= i < 256 ==> p[i] == s0[i]
      invariant MergedSoFar(T(), p[..], bl, len, b) && Bounded(p[..], 0, start, 3329)
      decreases pairs - b
    {
      BlockIsNext(b, pairs, len);
      var zeta: int16 := Zetas.ZetaInv(k);
      Zetas.InverseTableIsReversed(k);
      k := k + 1;
      ghost var s: seq<int> := p[..];
      TailFits(s0, s, pairs, len, b);
      InverseButterflies(p, start, len, zeta);
      MergeNext(s, p[..], bl, len, b);
      BoundedJoins(s, p[..], start, len, 3329);
      start := start + 2 * len;
      b := b + 1;
    }
    if b < pairs {
      BlockIsNext(b, pairs, len);
    }
    MergeEnd(T(), p[..], bl, len);
  }

  lemma MergeStarts(s: seq<int>, bl: Blocks, len: nat)
    requires |s| == 256 && 0 < len && |bl| % 2 == 0 && 0 < |bl| <= 128 && Represents(s, bl, len, Q)
    ensures T().q == Q > 0 && |bl| <= |T().roots| == 128 && Uniform(bl, len)
    ensures Offset(0, 2 * len) == 0 && Offset(|bl| / 2, 2 * len) == 256
    ensures MergedSoFar(T(), s, bl, len, 0) && Bounded(s, 0, 0, 3329)
  {
    TowerShape();
    OffsetStep(|bl| / 2, len);
    MergeStart(T(), s, bl, len);
  }

  lemma TailFits(s0: seq<int>, s: seq<int>, n: nat, len: nat, b: nat)
    requires |s| == |s0| == 256 && b < n && Offset(b, 2 * len) + 2 * len <= 256 && LayerFits(s0, n, len)
    requires forall i :: Offset(b, 2 * len) <= i < 256 ==> s[i] == s0[i]
    ensures BlockFits(s, Offset(b, 2 * len), len)
  {
    assert BlockFits(s0, Offset(b, 2 * len), len);
    hide Offset, LayerFits, PairFits;
    var o := Offset(b, 2 * len);
    forall i | o <= i < o + len
      ensures PairFits(s[i], s[i + len])
    {
      assert PairFits(s0[i], s0[i + len]);
    }
  }

  lemma MergeNext(s: seq<int>, r: seq<int>, bl: Blocks, len: nat, b: nat)
    requires |bl| % 2 == 0 && 2 * b < |bl| <= 128 == |T().roots| && T().q == Q > 0 && Uniform(bl, len)
    requires MergedSoFar(T(), s, bl, len, b)
    requires InverseDone(s, r, Offset(b, 2 * len), len, Zetas.Zeta(|bl| - 1 - b) * RINV, Q)
    ensures MergedSoFar(T(), r, bl, len, b + 1)
  {
    assert T().roots[|bl| - 1 - b] == Zetas.Zeta(|bl| - 1 - b) * RINV;
    hide MergedSoFar, InverseDone, Uniform, Offset, Roots, T;
    MergeStep(T(), s, r, bl, len, b);
  }

  /** Coefficients below 2^14 always fit. */
  lemma BoundedFits(s: seq<int>, n: nat, len: nat)
    requires |s| == 256 && Bounded(s, 0, 256, 0x4000) && Offset(n, 2 * len) == 256
    ensures LayerFits(s, n, len)
  {
    forall b | 0 <= b < n
      ensures BlockFits(s, Offset(b, 2 * len), len)
    {
      OffsetMono(b, n, 2 * len);
      hide Offset;
      var o := Offset(b, 2 * len);
      forall i | o <= i < o + len
        ensures PairFits(s[i], s[i + len])
      {
        assert Small(s[i], 0x4000) && Small(s[i + len], 0x4000);
      }
    }
  }

  lemma InverseFacts(bl: Blocks, e: nat, len: int)
    requires 0 < e <= 7 && OnLevel(T(), bl, 2, e) && BlockLen(T(), 2, e) == len
    ensures |T().roots| == Pow2(7) && T().depth == 7
    ensures 2 <= len <= 128 && |bl| % 2 == 0 && 0 < |bl| == Pow2(e) == 2 * Pow2(e - 1) <= 128 && Uniform(bl, len)
    ensures OnLevel(T(), Merge(T(), bl, len), 2, e - 1) && BlockLen(T(), 2, e - 1) == 2 * len
    ensures Backward(T(), bl, 2, e) == Backward(T(), Merge(T(), bl, len), 2, e - 1)
    ensures e == 1 <==> 2 * len == 256
    ensures e > 1 ==> 2 * len <= 128
  {
    TowerShape();
    hide Merge;
    LevelSizes(e - 1);
    LevelFits(T(), e);
    BlockLenSmall(e);
    BlockLenSmall(e - 1);
  }

  lemma BlockLenSmall(e: nat)
    requires e <= 7
    ensures BlockLen(T(), 2, e) <= 256
    ensures e > 0 ==> 2 <= BlockLen(T(), 2, e) <= 128 && (e == 1 <==> BlockLen(T(), 2, e) == 128)
  {
    assert Pow2(1) == 2 && Pow2(2) == 4 && Pow2(3) == 8 && Pow2(4) == 16 && Pow2(5) == 32 && Pow2(6) == 64;
  }

  /** The seven inverse layers, without the final scaling. */
  method InverseLayers(p: array<int16>, ghost bl: Blocks)
    requires p.Length == 256 && OnLevel(T(), bl, 2, 7) && Represents(p[..], bl, 2, Q)
    requires LayerFits(p[..], 64, 2)
    modifies p
    ensures EqMod(p[..], Backward(T(), bl, 2, 7), Q)
  {
    hide *;
    LeafLevel(bl);
    ghost var cur, e := bl, 7;
    var k, len := 0, 2;
    while len <= 128
      invariant 0 <= e <= 7 && 2 <= len <= 256
      invariant OnLevel(T(), cur, 2, e) && BlockLen(T(), 2, e) == len && k == 128 - Pow2(e)
      invariant Backward(T(), bl, 2, 7) == Backward(T(), cur, 2, e)
      invariant Represents(p[..], cur, len, Q) && (e > 0 ==> LayerFits(p[..], Pow2(e) / 2, len))
      invariant e == 0 <==> len == 256
      invariant e > 0 ==> len <= 128
      decreases e
    {
      InverseFacts(cur, e, len);
      k := InverseLayer(p, len, k, cur);
      BoundedWidens(p[..], 3329, 0x4000);
      cur := Merge(T(), cur, len);
      e := e - 1;
      len := 2 * len;
      if e > 0 {
        PairsFill(e, len);
        BoundedFits(p[..], Pow2(e) / 2, len);
      }
    }
    RootLevel(p[..], cur);
  }

  lemma PairsFill(e: nat, len: nat)
    requires 0 < e <= 7 && BlockLen(T(), 2, e) == len
    ensures Offset(Pow2(e) / 2, 2 * len) == 256
  {
    assert Pow2(1) == 2 && Pow2(2) == 4 && Pow2(3) == 8 && Pow2(4) == 16 && Pow2(5) == 32 && Pow2(6) == 64 && Pow2(7) == 128;
  }

  lemma BoundedWidens(s: seq<int>, a: int, b: int)
    requires Bounded(s, 0, |s|, a) && a <= b
    ensures Bounded(s, 0, |s|, b)
  {
    assert forall i :: 0 <= i < |s| ==> Small(s[i], a);
  }

  lemma LeafLevel(bl: Blocks)
    requires OnLevel(T(), bl, 2, 7)
    ensures |bl| == Pow2(7) == 128 && Uniform(bl, 2) && Pow2(0) == 1 && BlockLen(T(), 2, 7) == 2
    ensures T().depth == 7 && |T().roots| == Pow2(7) && Q > 0
  {
    TowerShape();
  }

  lemma RootLevel(s: seq<int>, bl: Blocks)
    requires |s| == 256 && OnLevel(T(), bl, 2, 0) && Represents(s, bl, 256, Q)
    ensures EqMod(s, Backward(T(), bl, 2, 0), Q)
  {
    OffsetStep(0, 256);
    assert BlockAt(s, 256, 0) == s;
  }

  /** What the last step of the inverse transform makes of a coefficient: R times the 128th part. */
  ghost function Finished(x: int): int
  {
    R * (3303 * x)
  }

  /** The last multiplication: by R^2 / 128 in Montgomery form, so by R / 128. */
  lemma FinalFactor(x: int16)
    ensures -0x8000 * Q <= 1441 * x < 0x8000 * Q
    ensures Cong(MontgomeryReduce(1441 * x), Finished(x), Q)
    ensures Small(MontgomeryReduce(1441 * x), 3329)
  {
    var r := MontgomeryReduce(1441 * x);
    MontgomeryIsRinv(1441 * x);
    assert 1441 * RINV - R * 3303 == Q * -64951;
    CongIntro(1441 * x * RINV, R * (3303 * x), Q, -64951 * x);
    CongTrans(r, 1441 * x * RINV, R * (3303 * x), Q);
  }

  /**
   The inverse transform: R times the mathematical inverse, every coefficient below Q. Only the sums and differences of
   the first layer can leave the 16 bits they are cast to; input below 2^14 is safe (BoundedFits), and so is every image
   of coefficients below 3743 in magnitude (ImageFits).
   */
  method PolyInvNtt(p: array<int16>, ghost bl: Blocks)
    requires p.Length == 256 && OnLevel(T(), bl, 2, 7) && Represents(p[..], bl, 2, Q)
    requires LayerFits(p[..], 64, 2)
    modifies p
    ensures EqMod(p[..], Scale(R, InvNtt(T(), bl, 2)), Q)
    ensures Bounded(p[..], 0, 256, 3329)
  {
    hide Backward, Represents, OnLevel, Cong, Finished, EqMod, InvNtt, Scale, T, MontgomeryReduce, LayerFits;
    InverseLayers(p, bl);
    ghost var s: seq<int> := p[..];
    var j := 0;
    while j < 256
      invariant 0 <= j <= 256
      invariant Bounded(p[..], 0, j, 3329)
      invariant forall i :: 0 <= i < j ==> Cong(p[i], Finished(s[i]), Q)
      invariant forall i :: j <= i < 256 ==> p[i] == s[i]
    {
      FinalFactor(p[j]);
      ghost var before: seq<int> := p[..];
      p[j] := MontgomeryReduce(1441 * (p[j] as int));
      BoundedNext(before, p[..], j, 3329);
      j := j + 1;
    }
    FinalScale(s, p[..], bl);
  }

  lemma FinishedCong(r: int, s: int, b: int)
    requires Cong(r, Finished(s), Q) && Cong(s, b, Q)
    ensures Cong(r, R * (3303 * b), Q)
  {
    CongIntro(3303, 3303, Q, 0);
    CongIntro(R, R, Q, 0);
    CongMul(3303, 3303, s, b, Q);
    CongMul(R, R, 3303 * s, 3303 * b, Q);
    CongTrans(r, R * (3303 * s), R * (3303 * b), Q);
  }

  lemma FinalScale(s: seq<int>, r: seq<int>, bl: Blocks)
    requires OnLevel(T(), bl, 2, 7) && EqMod(s, Backward(T(), bl, 2, 7), Q) && |r| == |s|
    requires forall i :: 0 <= i < |s| ==> Cong(r[i], Finished(s[i]), Q)
    ensures EqMod(r, Scale(R, InvNtt(T(), bl, 2)), Q)
  {
    hide Backward, OnLevel, Cong, Finished, T;
    var b := Backward(T(), bl, 2, 7);
    forall i | 0 <= i < |s|
      ensures Cong(r[i], R * (3303 * b[i]), Q)
    {
      FinishedCong(r[i], s[i], b[i]);
    }
    ScaledTwice(r, bl);
  }

  lemma ScaledTwice(r: seq<int>, bl: Blocks)
    requires OnLevel(T(), bl, 2, 7) && |r| == |Backward(T(), bl, 2, 7)|
    requires forall i :: 0 <= i < |r| ==> Cong(r[i], R * (3303 * Backward(T(), bl, 2, 7)[i]), Q)
    ensures EqMod(r, Scale(R, InvNtt(T(), bl, 2)), Q)
  {
    hide Backward, OnLevel, Cong;
  }

  // ---------- There and back ----------

  /** The entries whose doubles are the sums of the first inverse layer. */
  ghost predicate HalvesFit(s: seq<int>, o: nat)
  {
    forall i :: o <= i < o + 2 && i < |s| ==> -0x4000 <= s[i] < 0x4000
  }

  lemma PairFitsExactly(u: int, x: int, x': int)
    requires Kept(u, x, x', Q)
    ensures PairFits(x, x') <==> -0x4000 <= u < 0x4000
  {}

  lemma BlockFitsExactly(s: seq<int>, r: seq<int>, o: nat)
    requires BlockKept(s, r, o, 2, Q)
    ensures BlockFits(r, o, 2) <==> HalvesFit(s, o)
  {
    hide Kept, PairFits;
    assert Kept(s[o], r[o], r[o + 2], Q) && Kept(s[o + 1], r[o + 1], r[o + 1 + 2], Q);
    PairFitsExactly(s[o], r[o], r[o + 2]);
    PairFitsExactly(s[o + 1], r[o + 1], r[o + 1 + 2]);
    if BlockFits(r, o, 2) {
      assert PairFits(r[o], r[o + 2]) && PairFits(r[o + 1], r[o + 1 + 2]);
    }
  }

  /**
   What the last forward layer leaves of s can be handed straight to the inverse transform exactly if the first two
   entries of every block of four in s lie in [-2^14, 2^14).
   */
  lemma ImageFitsExactly(s: seq<int>, r: seq<int>)
    requires LayerKept(s, r, 64, 2, 64, Q)
    ensures LayerFits(r, 64, 2) <==> forall b :: 0 <= b < 64 ==> HalvesFit(s, Offset(b, 4))
  {
    hide BlockKept, BlockFits, HalvesFit, Offset;
    forall b | 0 <= b < 64
      ensures BlockFits(r, Offset(b, 4), 2) <==> HalvesFit(s, Offset(b, 4))
    {
      assert BlockKept(s, r, Offset(b, 4), 2, Q);
      BlockFitsExactly(s, r, Offset(b, 4));
    }
  }

  /** Coefficients below 3743 in magnitude stay below 2^14 up to the last layer. */
  lemma ImageFits(r: seq<int>, bound: int)
    requires 0 <= bound <= 3743 && IsImage(r, Grown(bound, 6))
    ensures LayerFits(r, 64, 2)
  {
    hide *;
    var s := BeforeLastLayer(r, Grown(bound, 6));
    ImageFitsExactly(s, r);
    GrownMono(bound, 3743, 6);
    GrownAtMost();
    forall b | 0 <= b < 64
      ensures HalvesFit(s, Offset(b, 4))
    {
      AllHalvesFit(s, Grown(bound, 6), Offset(b, 4), b);
    }
  }

  lemma BeforeLastLayer(r: seq<int>, limit: int) returns (s: seq<int>)
    requires IsImage(r, limit)
    ensures Bounded(s, 0, 256, limit) && LayerKept(s, r, 64, 2, 64, Q)
  {
    hide LayerKept, Bounded;
    s :| Bounded(s, 0, 256, limit) && LayerKept(s, r, 64, 2, 64, Q);
  }

  lemma AllHalvesFit(s: seq<int>, limit: int, o: nat, b: nat)
    requires Bounded(s, 0, 256, limit) && limit <= 0x4000 && b < 64 && o == Offset(b, 4)
    ensures HalvesFit(s, o)
  {
    assert o + 2 <= 256;
    hide Offset;
    forall i | o <= i < o + 2 && i < |s|
      ensures -0x4000 <= s[i] < 0x4000
    {
      assert Small(s[i], limit);
    }
  }

  lemma {:induction false} GrownMono(b: int, c: int, e: nat)
    requires b <= c
    ensures Grown(b, e) <= Grown(c, e)
  {
    if e > 0 {
      GrownMono(b, c, e - 1);
      GrowthMono(Grown(b, e - 1), Grown(c, e - 1));
    }
  }

  lemma GrowthMono(b: int, c: int)
    requires b <= c
    ensures Growth(b) <= Growth(c)
  {
    var m, n := 3328 * (b - 1) + 109084672, 3328 * (c - 1) + 109084672;
    assert m <= n;
  }

  lemma GrownAtMost()
    ensures Grown(3743, 6) == 0x4000
  {
    assert Grown(3743, 1) == 5598;
    assert Grown(3743, 2) == 7547;
    assert Grown(3743, 3) == 9595;
    assert Grown(3743, 4) == 11747;
    assert Grown(3743, 5) == 14008;
  }

  /** Montgomery reduction of R times a coefficient, made canonical, is its residue. */
  lemma Restored(x: int16, a: int)
    requires Cong(x, R * a, Q)
    ensures -0x8000_0000 + 0x8000 * Q <= x < 0x8000_0000 - 0x8000 * Q
    ensures CondSubQ(BarrettReduce(MontgomeryReduce(x))) == a % Q
  {
    MontgomeryIsRinv(x);
    var r := MontgomeryReduce(x);
    hide MontgomeryReduce;
    FactorGone(x, a, r);
    MadeCanonical(r, a);
  }

  lemma FactorGone(x: int, a: int, r: int)
    requires Cong(x, R * a, Q) && Cong(r, x * RINV, Q)
    ensures Cong(r, a, Q)
  {
    var k, l := Quot(x, R * a, Q), Quot(r, x * RINV, Q);
    assert R * RINV == 1 + 3327 * Q;
    CongIntro(r, a, Q, 3327 * a + RINV * k + l);
  }

  lemma MadeCanonical(r: int16, a: int)
    requires Cong(r, a, Q)
    ensures CondSubQ(BarrettReduce(r)) == a % Q
  {
    var y := BarrettReduce(r);
    hide BarrettReduce, CondSubQ;
    CongTrans(y, r, a, Q);
    CongModEq(y, a, Q);
  }

  /**
   A polynomial transformed and transformed back at once, and freed of the factor R: every coefficient is the residue of
   what it was, for all coefficients below 3743 in magnitude.
   */
  method ThereAndBack(p: array<int16>)
    requires p.Length == 256 && Bounded(p[..], 0, 256, 3743)
    modifies p
    ensures forall i :: 0 <= i < 256 ==> p[i] == old(p[i]) % Q
  {
    hide *;
    QIs();
    TowerShape();
    ghost var a: seq<int> := p[..];
    PolyNtt(p, 3743);
    NttLevel(a);
    ImageFits(p[..], 3743);
    PolyInvNtt(p, Ntt(T(), a, 2));
    ghost var s: seq<int> := p[..];
    ComesBack(a, s);
    var j := 0;
    while j < 256
      invariant 0 <= j <= 256
      invariant forall i :: 0 <= i < j ==> p[i] == a[i] % 3329
      invariant forall i :: j <= i < 256 ==> p[i] == s[i]
    {
      CoefficientComesBack(a, s, j);
      Restored(p[j], a[j]);
      p[j] := CondSubQ(BarrettReduce(MontgomeryReduce(p[j])));
      j := j + 1;
    }
  }

  lemma NttLevel(a: seq<int>)
    requires |a| == 256 && |T().roots| == Pow2(7) && BlockLen(T(), 2, 0) == 256
    ensures OnLevel(T(), Ntt(T(), a, 2), 2, 7)
  {
    TowerShape();
    hide T, OnLevel;
  }

  lemma ComesBack(a: seq<int>, s: seq<int>)
    requires |a| == 256 && |T().roots| == Pow2(7) && BlockLen(T(), 2, 0) == 256
    requires OnLevel(T(), Ntt(T(), a, 2), 2, 7) && EqMod(s, Scale(R, InvNtt(T(), Ntt(T(), a, 2), 2)), Q)
    ensures EqMod(s, Scale(R, a), Q)
  {
    hide *;
    TowerShape();
    TowerIsGood();
    InvNttOfNtt(T(), a, 2);
    CongIntro(R, R, Q, 0);
    ScaleCong(R, R, InvNtt(T(), Ntt(T(), a, 2), 2), a, Q);
    EqModTrans(s, Scale(R, InvNtt(T(), Ntt(T(), a, 2), 2)), Scale(R, a), Q);
  }

  lemma CoefficientComesBack(a: seq<int>, s: seq<int>, i: nat)
    requires |a| == 256 && EqMod(s, Scale(R, a), Q) && i < 256
    ensures |s| == 256 && Cong(s[i], R * a[i], Q)
  {
    assert Scale(R, a)[i] == R * a[i];
  }

  // ---------- Products of pairs ----------

  /** A transformed polynomial as a state of pairs. */
  ghost function Pairs(s: seq<int>): (bl: Blocks)
    requires |s| == 256
    ensures |bl| == 128 && Uniform(bl, 2)
  {
    seq(128, b requires 0 <= b < 128 => [s[2 * b], s[2 * b + 1]])
  }

  lemma PairsOnLevel(s: seq<int>)
    requires |s| == 256
    ensures OnLevel(T(), Pairs(s), 2, 7)
  {
    TowerShape();
  }

  lemma PairAt(s: seq<int>, b: nat)
    requires |s| == 256 && b < 128
    ensures Offset(b, 2) == 2 * b && BlockAt(s, 2, b) == [s[2 * b], s[2 * b + 1]]
  {}

  lemma PairsRepresent(s: seq<int>, bl: Blocks)
    requires |s| == 256 && |bl| == 128 && Uniform(bl, 2)
    ensures Represents(s, bl, 2, Q) <==> BlocksEq(Pairs(s), bl, Q)
  {
    assert Offset(|bl|, 2) == 256;
    hide EqMod, BlockAt, Offset;
    forall b | 0 <= b < 128
      ensures BlockAt(s, 2, b) == Pairs(s)[b]
    {
      PairAt(s, b);
    }
    if BlocksEq(Pairs(s), bl, Q) {
      forall b | 0 <= b < |bl|
        ensures EqMod(BlockAt(s, 2, b), bl[b], Q)
      {
        assert EqMod(Pairs(s)[b], bl[b], Q);
      }
    }
  }

  /** The low coefficient of a product of pairs modulo X^2 - zeta / R, divided by R. */
  function LowProduct(a0: int16, a1: int16, b0: int16, b1: int16, zeta: int16): (r: int16)
    requires -26632 < a0 < 26632 && -26632 < a1 < 26632 && -26632 < b0 < 26632 && -26632 < b1 < 26632
    requires -3329 < zeta < 3329
  {
    ProductFits(a1, b1);
    ProductFits(a0, b0);
    var t0 := MontgomeryReduce(a1 * b1);
    SmallProduct(t0, zeta);
    MontgomeryReduce(t0 * zeta) + MontgomeryReduce(a0 * b0)
  }

  /** The high coefficient, of what the arrays hold when it is computed. */
  function HighProduct(u0: int16, a1: int16, v0: int16, b1: int16): (r: int16)
    requires -26632 < u0 < 26632 && -26632 < a1 < 26632 && -26632 < v0 < 26632 && -26632 < b1 < 26632
  {
    ProductFits(u0, b1);
    ProductFits(a1, v0);
    MontgomeryReduce(u0 * b1) + MontgomeryReduce(a1 * v0)
  }

  /** The bound on a product of coefficients, one factor being a transform or less. */
  lemma ProductFits(a: int, b: int)
    requires -26632 < a < 26632 && -26632 < b < 26632
    ensures -709210161 <= a * b <= 709210161
    ensures -4096 < a < 4096 ==> -0x8000 * Q <= a * b < 0x8000 * Q
    ensures forall r: int :: a * b - 0x8000 * Q < R * r <= a * b + 0x8000 * Q ==> -12488 < r < 12488
  {
    ProductBound(a, b, 26631, 26631);
    if -4096 < a < 4096 {
      ProductBound(a, b, 4095, 26631);
    }
  }

  lemma SmallProduct(a: int, b: int)
    requires -12488 < a < 12488 && -3329 < b < 3329
    ensures -0x8000 * Q <= a * b < 0x8000 * Q
  {
    ProductBound(a, b, 12487, 3328);
  }

  /** r0 and r1 are the coefficients of (a0 + a1 X)(b0 + b1 X) modulo X^2 - y, divided by R. */
  ghost predicate IsPairProduct(r0: int, r1: int, a0: int, a1: int, b0: int, b1: int, y: int)
  {
    Cong(r0, RINV * (a0 * b0 + y * (a1 * b1)), Q) && Cong(r1, RINV * (a0 * b1 + a1 * b0), Q)
  }

  /** The products of a factor below 4096 are small enough to be added up. */
  lemma LowProductIs(a0: int16, a1: int16, b0: int16, b1: int16, zeta: int16)
    requires -26632 < a0 < 26632 && -26632 < a1 < 26632 && -26632 < b0 < 26632 && -26632 < b1 < 26632
    requires -3329 < zeta < 3329
    ensures Cong(LowProduct(a0, a1, b0, b1, zeta), RINV * (a0 * b0 + zeta * RINV * (a1 * b1)), Q)
    ensures WithinLimit(a0, a1, LowProduct(a0, a1, b0, b1, zeta))
  {
    hide MontgomeryReduce, Cong;
    ProductFits(a1, b1);
    ProductFits(a0, b0);
    var t0 := MontgomeryReduce(a1 * b1);
    SmallProduct(t0, zeta);
    MontgomeryIsRinv(a1 * b1);
    MontgomeryIsRinv(t0 * zeta);
    MontgomeryIsRinv(a0 * b0);
    LowCong(t0, MontgomeryReduce(t0 * zeta), MontgomeryReduce(a0 * b0), a0 * b0, a1 * b1, zeta);
  }

  lemma HighProductIs(u0: int16, a1: int16, v0: int16, b1: int16)
    requires -26632 < u0 < 26632 && -26632 < a1 < 26632 && -26632 < v0 < 26632 && -26632 < b1 < 26632
    ensures Cong(HighProduct(u0, a1, v0, b1), RINV * (u0 * b1 + a1 * v0), Q)
    ensures WithinLimit(u0, a1, HighProduct(u0, a1, v0, b1))
  {
    hide MontgomeryReduce, Cong;
    ProductFits(u0, b1);
    ProductFits(a1, v0);
    MontgomeryIsRinv(u0 * b1);
    MontgomeryIsRinv(a1 * v0);
    HighCong(MontgomeryReduce(u0 * b1), MontgomeryReduce(a1 * v0), u0 * b1, a1 * v0);
  }

  lemma LowCong(t0: int, x0: int, x1: int, p: int, r: int, zeta: int)
    requires Cong(t0, r * RINV, Q) && Cong(x0, t0 * zeta * RINV, Q) && Cong(x1, p * RINV, Q)
    ensures Cong(x0 + x1, RINV * (p + zeta * RINV * r), Q)
  {
    var k, l, m := Quot(t0, r * RINV, Q), Quot(x0, t0 * zeta * RINV, Q), Quot(x1, p * RINV, Q);
    calc {
      t0 * zeta * RINV;
      (Q * k + r * RINV) * zeta * RINV;
      Q * (k * zeta * RINV) + RINV * (zeta * RINV * r);
    }
    CongIntro(x0 + x1, RINV * (p + zeta * RINV * r), Q, k * zeta * RINV + l + m);
  }

  lemma HighCong(x2: int, x3: int, p: int, r: int)
    requires Cong(x2, p * RINV, Q) && Cong(x3, r * RINV, Q)
    ensures Cong(x2 + x3, RINV * (p + r), Q)
  {
    CongIntro(x2 + x3, RINV * (p + r), Q, Quot(x2, p * RINV, Q) + Quot(x3, r * RINV, Q));
  }

  /** Block n of the array contents r is the product of blocks n, divided by R. */
  ghost predicate BlockProduct(r: seq<int>, a: seq<int>, b: seq<int>, n: nat)
    requires |r| == |a| == |b| == 256 && n < 128
  {
    IsPairProduct(r[2 * n], r[2 * n + 1], a[2 * n], a[2 * n + 1], b[2 * n], b[2 * n + 1], NodeRoot(T(), 128 + n))
  }

  /** r1 is the high coefficient when an operand that shares the result's array already shows r0. */
  ghost predicate HighWritten(r0: int, r1: int, a0: int, a1: int, b0: int, b1: int, inA: bool, inB: bool)
  {
    Cong(r1, RINV * ((if inA then r0 else a0) * b1 + a1 * (if inB then r0 else b0)), Q)
  }

  /** Block n as the loop writes it, the result being the array of a (inA) or of b (inB). */
  ghost predicate BlockWritten(r: seq<int>, a: seq<int>, b: seq<int>, n: nat, inA: bool, inB: bool)
    requires |r| == |a| == |b| == 256 && n < 128
  {
    && Cong(r[2 * n], RINV * (a[2 * n] * b[2 * n] + NodeRoot(T(), 128 + n) * (a[2 * n + 1] * b[2 * n + 1])), Q)
    && HighWritten(r[2 * n], r[2 * n + 1], a[2 * n], a[2 * n + 1], b[2 * n], b[2 * n + 1], inA, inB)
  }

  lemma NodeRoots(i: nat)
    requires i < 64
    ensures NodeRoot(T(), 128 + 2 * i) == Zetas.Zeta(64 + i) * RINV
    ensures NodeRoot(T(), 128 + (2 * i + 1)) == -Zetas.Zeta(64 + i) * RINV
  {
    hide Zetas.Zeta;
    assert (128 + 2 * i) / 2 == 64 + i && (128 + (2 * i + 1)) / 2 == 64 + i;
  }

  /** The bound on the coefficients of a product, smaller if the first factor has 12-bit coefficients. */
  ghost function ProductLimit(a: seq<int>): (r: int)
    ensures r <= 24976
  {
    if Bounded(a, 0, 256, 4096) then 6658 else 24976
  }

  /** The first n blocks are products. */
  ghost predicate ProductsUpTo(r: seq<int>, a: seq<int>, b: seq<int>, n: nat)
  {
    && |r| == |a| == |b| == 256 && n <= 128
    && (forall j :: 0 <= j < n ==> BlockProduct(r, a, b, j))
    && Bounded(r, 0, 2 * n, ProductLimit(a))
  }

  /** The first n blocks are written, a and b being what the operands held before the loop. */
  ghost predicate WrittenUpTo(r: seq<int>, a: seq<int>, b: seq<int>, n: nat, inA: bool, inB: bool)
  {
    && |r| == |a| == |b| == 256 && n <= 128
    && (forall j :: 0 <= j < n ==> BlockWritten(r, a, b, j, inA, inB))
    && Bounded(r, 0, 2 * n, if inA then 24976 else ProductLimit(a))
  }

  /** With a separate result the blocks written are the products. */
  lemma WrittenApart(r: seq<int>, a: seq<int>, b: seq<int>)
    requires WrittenUpTo(r, a, b, 128, false, false)
    ensures ProductsUpTo(r, a, b, 128)
  {
    hide NodeRoot, T, Cong, ProductLimit, Bounded;
    forall n | 0 <= n < 128
      ensures BlockProduct(r, a, b, n)
    {
      assert BlockWritten(r, a, b, n, false, false);
    }
  }

  lemma NextWritten(r: seq<int>, r': seq<int>, a: seq<int>, b: seq<int>, n: nat, inA: bool, inB: bool)
    requires n < 128 && WrittenUpTo(r, a, b, n, inA, inB) && |r'| == 256
    requires forall j :: 0 <= j < 2 * n ==> r'[j] == r[j]
    requires BlockWritten(r', a, b, n, inA, inB)
    requires WithinLimit(a[2 * n], a[2 * n + 1], r'[2 * n])
    requires WithinLimit(if inA then r'[2 * n] else a[2 * n], a[2 * n + 1], r'[2 * n + 1])
    ensures WrittenUpTo(r', a, b, n + 1, inA, inB)
  {
    hide Cong, NodeRoot, T;
    forall j | 0 <= j < n + 1
      ensures BlockWritten(r', a, b, j, inA, inB)
    {
      if j < n {
        assert BlockWritten(r, a, b, j, inA, inB);
        assert r'[2 * j] == r[2 * j] && r'[2 * j + 1] == r[2 * j + 1];
      }
    }
    var limit := if inA then 24976 else ProductLimit(a);
    if Bounded(a, 0, 256, 4096) {
      assert Small(a[2 * n], 4096) && Small(a[2 * n + 1], 4096);
    }
    forall j | 0 <= j < 2 * (n + 1)
      ensures Small(r'[j], limit)
    {
      if j < 2 * n {
        assert Small(r[j], limit) && r'[j] == r[j];
      }
    }
  }

  /** The two coefficients of one block: the operands, x and y before the loop, are read again after the first store. */
  method WriteBlock(r: array<int16>, a: array<int16>, b: array<int16>, n: nat, zeta: int16, ghost x: seq<int>, ghost y: seq<int>)
    requires r.Length == a.Length == b.Length == |x| == |y| == 256 && n < 128
    requires Bounded(x, 0, 256, 26632) && Bounded(y, 0, 256, 26632)
    requires forall k :: 2 * n <= k < 256 ==> a[k] == x[k] && b[k] == y[k]
    requires -3329 < zeta < 3329 && zeta * RINV == NodeRoot(T(), 128 + n)
    requires WrittenUpTo(r[..], x, y, n, r == a, r == b)
    modifies r
    ensures WrittenUpTo(r[..], x, y, n + 1, r == a, r == b)
    ensures forall k :: 2 * n + 2 <= k < 256 ==> a[k] == x[k] && b[k] == y[k]
  {
    hide *;
    ghost var before: seq<int> := r[..];
    var j := 2 * n;
    InputsFit(x, y, j);
    LowProductIs(a[j], a[j + 1], b[j], b[j + 1], zeta);
    r[j] := LowProduct(a[j], a[j + 1], b[j], b[j + 1], zeta);
    StillFits(x[j], x[j + 1], r[j]);
    HighProductIs(a[j], a[j + 1], b[j], b[j + 1]);
    r[j + 1] := HighProduct(a[j], a[j + 1], b[j], b[j + 1]);
    IsBlockWritten(r[..], x, y, n, r == a, r == b);
    NextWritten(before, r[..], x, y, n, r == a, r == b);
  }

  lemma StillFits(a0: int, a1: int, r: int)
    requires WithinLimit(a0, a1, r)
    ensures -26632 < r < 26632
  {}

  lemma IsBlockWritten(r: seq<int>, a: seq<int>, b: seq<int>, n: nat, inA: bool, inB: bool)
    requires |r| == |a| == |b| == 256 && n < 128
    requires Cong(r[2 * n], RINV * (a[2 * n] * b[2 * n] + NodeRoot(T(), 128 + n) * (a[2 * n + 1] * b[2 * n + 1])), Q)
    requires Cong(r[2 * n + 1], RINV * ((if inA then r[2 * n] else a[2 * n]) * b[2 * n + 1] + a[2 * n + 1] * (if inB then r[2 * n] else b[2 * n])), Q)
    ensures BlockWritten(r, a, b, n, inA, inB)
  {
    hide Cong, NodeRoot, T;
  }

  /** The basewise product: 64 pairs of blocks, each pair with plus and minus one table entry. */
  method PolyBaseMul(r: array<int16>, a: array<int16>, b: array<int16>)
    requires r.Length == a.Length == b.Length == 256
    requires Bounded(a[..], 0, 256, 26632) && Bounded(b[..], 0, 256, 26632)
    modifies r
    ensures WrittenUpTo(r[..], old(a[..]), old(b[..]), 128, r == a, r == b)
    ensures r != a && r != b ==> ProductsUpTo(r[..], a[..], b[..], 128)
  {
    hide *;
    ghost var x: seq<int>, y: seq<int> := a[..], b[..];
    StartWritten(r[..], x, y, r == a, r == b);
    var i := 0;
    while i < 64
      invariant 0 <= i <= 64
      invariant forall k :: 4 * i <= k < 256 ==> a[k] == x[k] && b[k] == y[k]
      invariant WrittenUpTo(r[..], x, y, 2 * i, r == a, r == b)
    {
      var zeta: int16 := Zetas.Zeta(64 + i);
      NodeRoots(i);
      WriteBlock(r, a, b, 2 * i, zeta, x, y);
      WriteBlock(r, a, b, 2 * i + 1, -zeta, x, y);
      i := i + 1;
    }
    if r != a && r != b {
      WrittenApart(r[..], x, y);
    }
  }

  lemma StartWritten(r: seq<int>, a: seq<int>, b: seq<int>, inA: bool, inB: bool)
    requires |r| == |a| == |b| == 256
    ensures WrittenUpTo(r, a, b, 0, inA, inB)
  {}

  lemma InputsFit(a: seq<int>, b: seq<int>, idx: nat)
    requires |a| == |b| == 256 && Bounded(a, 0, 256, 26632) && Bounded(b, 0, 256, 26632) && idx + 1 < 256
    ensures forall j :: idx <= j < idx + 2 ==> -26632 < a[j] < 26632 && -26632 < b[j] < 26632
  {
    assert forall j :: idx <= j < idx + 2 ==> Small(a[j], 26632) && Small(b[j], 26632);
  }

  /** The bound on a coefficient of a product, by the coefficients of the first factor. */
  ghost predicate WithinLimit(a0: int, a1: int, r: int) {
    Small(r, 24976) && (Small(a0, 4096) && Small(a1, 4096) ==> Small(r, 6658))
  }

  // ---------- A product written over one of its factors ----------

  /** Block n survives being written over a (inA) or b (inB), by the low coefficient p of the product. */
  ghost predicate SurvivesOverwrite(a0: int, a1: int, b0: int, b1: int, p: int, inA: bool, inB: bool)
  {
    Cong((if inA then (p - a0) * b1 else 0) + (if inB then a1 * (p - b0) else 0), 0, Q)
  }

  ghost function LowOf(a: seq<int>, b: seq<int>, n: nat): int
    requires |a| == |b| == 256 && n < 128
  {
    RINV * (a[2 * n] * b[2 * n] + NodeRoot(T(), 128 + n) * (a[2 * n + 1] * b[2 * n + 1]))
  }

  ghost predicate BlockSurvives(a: seq<int>, b: seq<int>, n: nat, inA: bool, inB: bool)
    requires |a| == |b| == 256 && n < 128
  {
    SurvivesOverwrite(a[2 * n], a[2 * n + 1], b[2 * n], b[2 * n + 1], LowOf(a, b, n), inA, inB)
  }

  /** The factor RINV can be cancelled. */
  lemma CancelRinv(x: int)
    ensures Cong(RINV * x, 0, Q) <==> Cong(x, 0, Q)
  {
    if Cong(RINV * x, 0, Q) {
      var k := Quot(RINV * x, 0, Q);
      assert R * RINV == 1 + 3327 * Q;
      CongIntro(x, 0, Q, R * k - 3327 * x);
    }
    if Cong(x, 0, Q) {
      CongIntro(RINV * x, 0, Q, RINV * Quot(x, 0, Q));
    }
  }

  /** The high coefficient written with r0 in place of factors is the product's if the difference vanishes. */
  lemma HighSurvives(r0: int, r1: int, a0: int, a1: int, b0: int, b1: int, p: int, inA: bool, inB: bool)
    requires Cong(r0, p, Q) && HighWritten(r0, r1, a0, a1, b0, b1, inA, inB)
    ensures Cong(r1, RINV * (a0 * b1 + a1 * b0), Q) <==> SurvivesOverwrite(a0, a1, b0, b1, p, inA, inB)
  {
    var u0, v0 := if inA then r0 else a0, if inB then r0 else b0;
    var d := (if inA then (p - a0) * b1 else 0) + (if inB then a1 * (p - b0) else 0);
    var k := Quot(r0, p, Q);
    var e := (if inA then k * b1 else 0) + (if inB then a1 * k else 0);
    assert u0 * b1 + a1 * v0 == a0 * b1 + a1 * b0 + d + Q * e by {
      assert inA ==> u0 * b1 == (p + Q * k) * b1 == p * b1 + Q * (k * b1) && (p - a0) * b1 == p * b1 - a0 * b1;
      assert inB ==> a1 * v0 == a1 * (p + Q * k) == a1 * p + Q * (a1 * k) && a1 * (p - b0) == a1 * p - a1 * b0;
    }
    Shifted(r1, a0 * b1 + a1 * b0, u0 * b1 + a1 * v0, d, e);
    CancelRinv(d);
  }

  lemma Shifted(r1: int, s: int, w: int, d: int, e: int)
    requires Cong(r1, RINV * w, Q) && w == s + d + Q * e
    ensures Cong(r1, RINV * s, Q) <==> Cong(RINV * d, 0, Q)
  {
    var m := Quot(r1, RINV * w, Q);
    assert r1 == RINV * s + RINV * d + Q * (RINV * e + m);
    if Cong(r1, RINV * s, Q) {
      CongIntro(RINV * d, 0, Q, Quot(r1, RINV * s, Q) - RINV * e - m);
    }
    if Cong(RINV * d, 0, Q) {
      CongIntro(r1, RINV * s, Q, Quot(RINV * d, 0, Q) + RINV * e + m);
    }
  }

  /** Over one of its own factors, the result is the product exactly if every block survives. */
  lemma InPlaceExactly(r: seq<int>, a: seq<int>, b: seq<int>, inA: bool, inB: bool)
    requires WrittenUpTo(r, a, b, 128, inA, inB)
    ensures (forall n :: 0 <= n < 128 ==> BlockProduct(r, a, b, n))
       <==> (forall n :: 0 <= n < 128 ==> BlockSurvives(a, b, n, inA, inB))
  {
    hide NodeRoot, T, Cong, HighWritten, SurvivesOverwrite, Bounded, ProductLimit;
    forall n | 0 <= n < 128
      ensures BlockProduct(r, a, b, n) <==> BlockSurvives(a, b, n, inA, inB)
    {
      assert BlockWritten(r, a, b, n, inA, inB);
      HighSurvives(r[2 * n], r[2 * n + 1], a[2 * n], a[2 * n + 1], b[2 * n], b[2 * n + 1], LowOf(a, b, n), inA, inB);
    }
  }

  /** It is not always: X times X in the first block goes wrong over either factor, or over both. */
  lemma InPlaceGoesWrong(inA: bool, inB: bool)
    requires inA || inB
    ensures var x := seq(256, i => if i == 1 then 1 else 0);
            !BlockSurvives(x, x, 0, inA, inB) && BlockSurvives(x, x, 1, inA, inB)
  {
    var x := seq(256, i => if i == 1 then 1 else 0);
    var p, p' := LowOf(x, x, 0), LowOf(x, x, 1);
    assert p == RINV * (Zetas.Zeta(64) * RINV) && p % Q != 0 && (2 * p) % Q != 0 by {
      NodeRoots(0);
    }
    assert p' == 0;
    CongIff(p, 0, Q);
    CongIff(2 * p, 0, Q);
    CongIff(0, 0, Q);
    hide LowOf, Cong;
    assert !SurvivesOverwrite(0, 1, 0, 1, p, inA, inB);
    assert SurvivesOverwrite(0, 0, 0, 0, p', inA, inB);
  }

  /** Products of pairs in the ring. */
  lemma PairMul(a0: int, a1: int, b0: int, b1: int, z: int)
    ensures Mul([a0, a1], [b0, b1], z) == [a0 * b0 + z * (a1 * b1), a0 * b1 + a1 * b0]
  {
    var b, c := [b0, b1], [z * b1, b0];
    assert MulX(b, z) == c;
    assert [a0, a1][1..] == [a1] && [a1][1..] == [];
    assert Act([], MulX(c, z), z) == [0, 0];
    assert Act([a1], c, z) == [a1 * (z * b1), a1 * b0];
    assert a1 * (z * b1) == z * (a1 * b1);
  }

  /** The basewise product is the blockwise ring product, divided by R. */
  lemma BaseMulIsBlockProduct(r: seq<int>, a: seq<int>, b: seq<int>)
    requires ProductsUpTo(r, a, b, 128)
    ensures OnLevel(T(), Pairs(a), 2, 7) && OnLevel(T(), Pairs(b), 2, 7)
    ensures BlocksEq(Pairs(r), BlockScale(RINV, LevelMul(T(), Pairs(a), Pairs(b), 2, 7)), Q)
  {
    PairsOnLevel(a);
    PairsOnLevel(b);
    var p := LevelMul(T(), Pairs(a), Pairs(b), 2, 7);
    hide *;
    forall n | 0 <= n < 128
      ensures EqMod(Pairs(r)[n], BlockScale(RINV, p)[n], Q)
    {
      OneBlock(r, a, b, n);
    }
    MakeBlocksEq(Pairs(r), BlockScale(RINV, p));
  }

  lemma MakeBlocksEq(x: Blocks, y: Blocks)
    requires |x| == |y| && forall n :: 0 <= n < |x| ==> EqMod(x[n], y[n], Q)
    ensures BlocksEq(x, y, Q)
  {}

  lemma OneBlock(r: seq<int>, a: seq<int>, b: seq<int>, n: nat)
    requires ProductsUpTo(r, a, b, 128) && n < 128
    ensures OnLevel(T(), Pairs(a), 2, 7) && OnLevel(T(), Pairs(b), 2, 7)
    ensures EqMod(Pairs(r)[n], BlockScale(RINV, LevelMul(T(), Pairs(a), Pairs(b), 2, 7))[n], Q)
  {
    TowerShape();
    LevelFits(T(), 7);
    PairsOnLevel(a);
    PairsOnLevel(b);
    assert BlockProduct(r, a, b, n);
    hide T, NodeRoot, OnLevel, Cong, Act;
    BlockMulAt(T(), Pairs(a), Pairs(b), 2, n);
    PairMul(a[2 * n], a[2 * n + 1], b[2 * n], b[2 * n + 1], NodeRoot(T(), 128 + n));
  }
}
