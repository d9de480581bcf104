/** The ML-DSA transform: in-place forward and inverse passes and the pointwise product. */
module DsaNtt {
  import opened MachineInts
  import opened Vectors
  import opened Congruence
  import opened PolyRing
  import opened NttTower
  import opened NttTransform
  import opened NttArray
  import opened NttRemainder
  import opened BitReversal
  import opened DsaConstants
  import opened DsaReduce
  import opened DsaLayers
  import Zetas = DsaZetas

  /** The root at a node: the table entry with the Montgomery factor removed. */
  function Root(n: nat): int
    requires n < 256
  {
    Zetas.Zeta(n) * RINV
  }

  function Roots(): (r: seq<int>)
    ensures |r| == 256
  {
    seq(256, n requires 0 <= n < 256 => Root(n))
  }

  /** The tower the tables describe: eight layers down to single coefficients. */
  function T(): Tower
  {
    Tower(Q, Roots(), 8, 8347681)
  }

  lemma TowerShape()
    ensures T().q == Q > 1 && T().depth == 8 && |T().roots| == 256
    ensures Pow2(0) == 1 && Pow2(8) == 256 && BlockLen(T(), 1, 0) == 256 && BlockLen(T(), 1, 8) == 1
  {
    assert Pow2(4) == 16;
  }

  // ---------- The table is right ----------

  /** Removing the Montgomery factors from x = p * R modulo Q. */
  lemma RemoveFactors(x: int, p: int)
    requires (x - p * R) % Q == 0
    ensures Cong(x * (RINV * RINV), p * RINV, Q)
  {
    var k := (x - p * R) / Q;
    assert x == p * R + Q * k;
    assert R * RINV == 1 + Q * 4236238847;
    CongIntro(x * (RINV * RINV), p * RINV, Q, 4236238847 * RINV * p + RINV * RINV * k);
  }

  lemma RootProduct(m: nat, n: nat)
    requires m < 256 && n < 256
    ensures Root(m) * Root(n) == Zetas.Zeta(m) * Zetas.Zeta(n) * (RINV * RINV)
  {
    hide Zetas.Zeta;
    Regroup(Zetas.Zeta(m), Zetas.Zeta(n), RINV);
  }

  lemma SquareHolds(n: nat)
    requires 1 <= n < 256
    ensures SquareOk(T(), n)
  {
    hide Zetas.Zeta, Zetas.Row0, Cong;
    var p := if n == 1 then -R else if n % 2 == 0 then Zetas.Zeta(n / 2) else -Zetas.Zeta(n / 2);
    assert (Zetas.Zeta(n) * Zetas.Zeta(n) - p * R) % Q == 0 by {
      if n == 1 {
        Zetas.MirroredHolds(1);
      } else {
        Zetas.InnerHolds(n / 2);
      }
    }
    RootProduct(n, n);
    RemoveFactors(Zetas.Zeta(n) * Zetas.Zeta(n), p);
    if n == 1 {
      assert R * RINV == 1 + Q * 4236238847;
      CongIntro(-R * RINV, -1, Q, -4236238847);
      CongTrans(Root(1) * Root(1), -R * RINV, -1, Q);
    }
  }

  lemma LevelStartIsPow2(e: nat, b: nat)
    requires e < 8 && b < Pow2(e)
    ensures 1 <= Pow2(e) + b < 256 && Zetas.LevelStart(Pow2(e) + b) == Pow2(e)
  {
    assert Pow2(1) == 2 && Pow2(2) == 4 && Pow2(3) == 8 && Pow2(4) == 16 && Pow2(5) == 32 && Pow2(6) == 64 && Pow2(7) == 128;
  }

  lemma MirrorHolds(e: nat, b: nat)
    requires e < 8 && b < Pow2(e)
    ensures MirrorOk(T(), e, b)
  {
    LevelStartIsPow2(e, b);
    var n, m := Pow2(e) + b, 2 * Pow2(e) - 1 - b;
    Zetas.MirroredHolds(n);
    hide Zetas.Zeta, Cong;
    assert (Zetas.Zeta(n) * Zetas.Zeta(m) - (-R) * R) % Q == 0;
    RootProduct(n, m);
    RemoveFactors(Zetas.Zeta(n) * Zetas.Zeta(m), -R);
    assert R * RINV == 1 + Q * 4236238847;
    CongIntro(-R * RINV, -1, Q, -4236238847);
    CongTrans(Root(n) * Root(m), -R * RINV, -1, Q);
  }

  /** The constants of the ML-DSA transform form a tower of ring splittings modulo Q. */
  lemma TowerIsGood()
    ensures Good(T())
  {
    TowerShape();
    CongIntro(8347681 * 256, 1, Q, 255);
    forall n | 1 <= n < 256
      ensures SquareOk(T(), n)
    {
      SquareHolds(n);
    }
    forall e: nat, b: nat | e < 8 && b < Pow2(e)
      ensures MirrorOk(T(), e, b)
    {
      MirrorHolds(e, b);
    }
  }

  // ---------- The table lists the powers of one root ----------

  /** Every root is a power of 1753, by bit reversal. */
  lemma RootIsPower(k: nat)
    requires 1 <= k < 256
    ensures Cong(Root(k), Power(1753, BitRev(k, 8)), Q)
  {
    hide *;
    QIs();
    Zetas.ZetaIsPower(k);
    RootIs(k);
    var p := Power(1753, BitRev(k, 8));
    WithoutR(Zetas.Zeta(k), p);
  }

  lemma RootIs(k: nat)
    requires k < 256
    ensures Root(k) == Zetas.Zeta(k) * RINV
  {}

  lemma WithoutR(z: int, p: int)
    requires Cong(z, R * p, Q)
    ensures Cong(z * RINV, p, Q)
  {
    var k := Quot(z, R * p, Q);
    assert R * RINV == 1 + Q * 4236238847;
    assert z * RINV == RINV * (R * p) + RINV * (Q * k);
    assert RINV * (R * p) == (1 + Q * 4236238847) * p;
    CongIntro(z * RINV, p, Q, 4236238847 * p + RINV * k);
  }

  /** 1753 is a root of X^256 + 1. */
  lemma HalfTurn()
    ensures Cong(Power(1753, 256), -1, Q)
  {
    hide *;
    QIs();
    FirstReversed();
    RootIsPower(1);
    SquareOfFirst();
    var p := Power(1753, 128);
    PowerAdd(1753, 128, 128);
    CongMul(Root(1), p, Root(1), p, Q);
    CongSym(Root(1) * Root(1), p * p, Q);
    CongTrans(p * p, Root(1) * Root(1), -1, Q);
  }

  lemma FirstReversed()
    ensures BitRev(1, 8) == 128
  {
    NoBits(7);
    assert Pow2(4) == 16;
  }

  lemma SquareOfFirst()
    ensures Cong(Root(1) * Root(1), -1, Q)
  {
    SquareHolds(1);
    hide Root, Cong;
  }

  /** Leaf i of the tree belongs to 1753 to the power 2 BitRev(i) + 1. */
  lemma LeafIsPower(i: nat)
    requires i < 256
    ensures (256 + i) / 2 < |T().roots| && Cong(NodeRoot(T(), 256 + i), Power(1753, 2 * BitRev(i, 8) + 1), Q)
  {
    hide *;
    TowerShape();
    QIs();
    var j := i / 2;
    LeafReversed(i);
    RootIsPower(128 + j);
    LeafRoot(i);
    if i % 2 == 1 {
      HalfTurn();
      var e := 2 * BitRev(j, 7) + 1;
      PowerAdd(1753, 256, e);
      Negated(Root(128 + j), Power(1753, e), Power(1753, 256));
    }
  }

  /** A root in the other half is the negative one. */
  lemma Negated(x: int, p: int, h: int)
    requires Cong(x, p, Q) && Cong(h, -1, Q)
    ensures Cong(-x, h * p, Q)
  {
    var k, l := Quot(x, p, Q), Quot(h, -1, Q);
    assert h * p == -p + Q * l * p;
    CongIntro(-x, h * p, Q, -k - l * p);
  }

  lemma LeafReversed(i: nat)
    requires i < 256
    ensures BitRev(128 + i / 2, 8) == 2 * BitRev(i / 2, 7) + 1
    ensures BitRev(i, 8) == BitRev(i / 2, 7) + if i % 2 == 1 then 128 else 0
  {
    assert Pow2(7) == 128 by {
      assert Pow2(4) == 16;
    }
    TopBit(i / 2, true, 7);
  }

  lemma LeafRoot(i: nat)
    requires i < 256
    ensures (256 + i) / 2 == 128 + i / 2 < |T().roots|
    ensures NodeRoot(T(), 256 + i) == if i % 2 == 0 then Root(128 + i / 2) else -Root(128 + i / 2)
  {
    hide Root;
    assert T().roots[128 + i / 2] == Root(128 + i / 2);
  }

  /** The transform as the standard has it: entry i is the value of the polynomial at 1753^(2 BitRev8(i) + 1). */
  ghost predicate IsTransform(s: seq<int>, a: seq<int>)
  {
    |s| == 256 && forall i :: 0 <= i < 256 ==> Cong(s[i], Evaluate(a, Power(1753, 2 * BitRev(i, 8) + 1)), Q)
  }

  /** An array that holds the transform of the tower holds these values. */
  lemma TransformMeans(s: seq<int>, a: seq<int>)
    requires |a| == 256 && |T().roots| == Pow2(8) && BlockLen(T(), 1, 0) == 256
    requires Represents(s, Ntt(T(), a, 1), 1, Q)
    ensures IsTransform(s, a)
  {
    hide *;
    TowerShape();
    LeafShape(a);
    EntriesOf(s, Ntt(T(), a, 1));
    forall i | 0 <= i < 256
      ensures Cong(s[i], Evaluate(a, Power(1753, 2 * BitRev(i, 8) + 1)), Q)
    {
      LeafMeans(s, a, i);
    }
    MakeTransform(s, a);
  }

  lemma LeafShape(a: seq<int>)
    requires |a| == 256 && |T().roots| == Pow2(8) && BlockLen(T(), 1, 0) == 256
    ensures |Ntt(T(), a, 1)| == 256 && Uniform(Ntt(T(), a, 1), 1) && Ntt(T(), a, 1) == Forward(T(), a, 1, 8)
  {
    TowerShape();
    NttIs(a);
    hide Forward, Uniform, Roots;
  }

  lemma EntriesOf(s: seq<int>, bl: Blocks)
    requires |bl| == 256 && Uniform(bl, 1) && Represents(s, bl, 1, Q)
    ensures |s| == 256 && forall i :: 0 <= i < 256 ==> Cong(s[i], bl[i][0], Q)
  {
    hide Cong;
    forall i | 0 <= i < 256
      ensures Cong(s[i], bl[i][0], Q)
    {
      assert BlockAt(s, 1, i) == [s[i]] && EqMod(BlockAt(s, 1, i), bl[i], Q);
      assert BlockAt(s, 1, i)[0] == s[i];
    }
  }

  lemma LeafMeans(s: seq<int>, a: seq<int>, i: nat)
    requires |a| == 256 && |s| == 256 && i < 256 && |T().roots| == Pow2(8) && BlockLen(T(), 1, 0) == 256
    requires |Ntt(T(), a, 1)| == 256 && Uniform(Ntt(T(), a, 1), 1) && Ntt(T(), a, 1) == Forward(T(), a, 1, 8)
    requires Cong(s[i], Ntt(T(), a, 1)[i][0], Q)
    ensures Cong(s[i], Evaluate(a, Power(1753, 2 * BitRev(i, 8) + 1)), Q)
  {
    hide *;
    TowerShape();
    TowerIsGood();
    ForwardIsRemainder(T(), a, 1, 8, i);
    LeafIsPower(i);
    var z, y := NodeRoot(T(), 256 + i), Power(1753, 2 * BitRev(i, 8) + 1);
    RemainderCong(a, 1, z, y, Q);
    RemainderIsValue(a, y);
    HeadsCong(Ntt(T(), a, 1)[i], Remainder(a, 1, z), Remainder(a, 1, y));
    CongTrans(s[i], Ntt(T(), a, 1)[i][0], Evaluate(a, y), Q);
  }

  lemma HeadsCong(u: seq<int>, v: seq<int>, w: seq<int>)
    requires |w| == 1 && EqMod(u, v, Q) && EqMod(v, w, Q)
    ensures |u| == 1 && Cong(u[0], w[0], Q)
  {
    EqModTrans(u, v, w, Q);
  }

  lemma MakeTransform(s: seq<int>, a: seq<int>)
    requires |s| == 256 && forall i :: 0 <= i < 256 ==> Cong(s[i], Evaluate(a, Power(1753, 2 * BitRev(i, 8) + 1)), Q)
    ensures IsTransform(s, a)
  {
    hide Cong;
  }

  // ---------- Forward transform ----------

  /** A Montgomery product with a table entry is a product with the root. */
  lemma MontgomeryTimesRoot(zeta: int, c: int, t: int)
    requires Cong(t, zeta * c * RINV, Q)
    ensures Cong(t, zeta * RINV * c, Q)
  {
    assert zeta * c * RINV == zeta * RINV * c;
  }

  lemma ButterflyCong(u: int, c: int, t: int, y: int)
    requires Cong(t, y * c, Q)
    ensures Cong(u + t, Up(u, c, y), Q)
    ensures Cong(u - t, Down(u, c, y), Q)
  {
    CongIntro(u, u, Q, 0);
    CongAdd(u, u, t, y * c, Q);
    CongSub(u, u, t, y * c, Q);
  }

  /** The Montgomery product of a table entry is the product with the root. */
  lemma TwiddleIs(zeta: int, c: int)
    requires Small(zeta, 4190208) && Int32(c)
    ensures -0x8000_0000 * Q <= zeta * c < 0x8000_0000 * Q
    ensures -0x8000_0000_0000_0000 <= zeta * c < 0x8000_0000_0000_0000
    ensures Twiddle(zeta, c) == MontgomeryReduce(zeta * c) && Small(Twiddle(zeta, c), Q)
    ensures Cong(Twiddle(zeta, c), zeta * RINV * c, Q)
  {
    ProductInRange(zeta, c);
    MontgomeryIsRinv(zeta * c);
    hide Cong;
    MontgomeryTimesRoot(zeta, c, MontgomeryReduce(zeta * c));
  }

  /** There is room for one more term below Q. */
  lemma Room(s: seq<int>, lo: int, hi: int, bound: int, i: nat, t: int)
    requires Bounded(s, lo, hi, bound) && lo <= i < hi && i < |s| && Small(t, Q) && bound + Q <= 0x8000_0000
    ensures Int32(s[i] + t) && Int32(s[i] - t)
    ensures -0x8000_0000 <= s[i] + t < 0x8000_0000 && -0x8000_0000 <= s[i] - t < 0x8000_0000
  {
    assert Small(s[i], bound);
  }

  method ForwardButterflies(p: array<int32>, start: nat, len: nat, zeta: int32, ghost bound: int)
    requires p.Length == 256 && start + 2 * len <= 256 && Small(zeta, 4190208)
    requires bound + Q <= 0x8000_0000 && Bounded(p[..], start, start + 2 * len, bound)
    modifies p
    ensures BlockSplits(old(p[..]), p[..], start, len, zeta)
    ensures forall i :: 0 <= i < 256 && !(start <= i < start + 2 * len) ==> p[i] == old(p[i])
  {
    hide *;
    ghost var s: seq<int> := p[..];
    var j := start;
    while j < start + len
      invariant start <= j <= start + len
      invariant forall i :: start <= i < j ==> Splits(s[i], s[i + len], p[i], p[i + len], zeta)
      invariant forall i :: 0 <= i < 256 && !(start <= i < j) && !(start + len <= i < j + len) ==> p[i] == s[i]
    {
      IsInt32(p[j + len]);
      TwiddleIs(zeta, p[j + len]);
      var t: int32 := MontgomeryReduce(zeta * p[j + len]);
      Room(s, start, start + 2 * len, bound, j, t);
      p[j + len] := p[j] - t;
      p[j] := p[j] + t;
      SplitsIs(s[j], s[j + len], p[j], p[j + len], zeta);
      j := j + 1;
    }
    MakeBlockSplits(s, p[..], start, len, zeta);
  }

  lemma IsInt32(c: int32)
    ensures Int32(c)
  {}

  lemma SplitsIs(u: int, c: int, x: int, y: int, zeta: int)
    requires x == u + Twiddle(zeta, c) && y == u - Twiddle(zeta, c)
    ensures Splits(u, c, x, y, zeta)
  {}

  lemma MakeBlockSplits(s: seq<int>, r: seq<int>, o: nat, len: nat, zeta: int)
    requires o + 2 * len <= |s| == |r|
    requires forall i :: o <= i < o + len ==> Splits(s[i], s[i + len], r[i], r[i + len], zeta)
    ensures BlockSplits(s, r, o, len, zeta)
  {
    hide Splits;
  }

  /** The butterflies of a block modulo Q, and the bound on what they leave. */
  lemma SplitsAreForward(s: seq<int32>, r: seq<int>, o: nat, len: nat, zeta: int, bound: int)
    requires o + 2 * len <= |s| == |r| && BlockSplits(s, r, o, len, zeta) && Small(zeta, 4190208)
    requires forall i :: 0 <= i < |s| && !(o <= i < o + 2 * len) ==> r[i] == s[i]
    requires Bounded(s, o, o + 2 * len, bound)
    ensures ForwardDone(s, r, o, len, zeta * RINV, Q) && Bounded(r, o, o + 2 * len, bound + Q)
  {
    hide *;
    QIs();
    forall i | o <= i < o + len
      ensures Cong(r[i], Up(s[i], s[i + len], zeta * RINV), Q) && Cong(r[i + len], Down(s[i], s[i + len], zeta * RINV), Q)
      ensures BothSmall(r[i], r[i + len], bound + Q)
    {
      BlockSplitsAt(s, r, o, len, zeta, i);
      IsInt32(s[i + len]);
      TwiddleIs(zeta, s[i + len]);
      ButterflyCong(s[i], s[i + len], Twiddle(zeta, s[i + len]), zeta * RINV);
      BoundedAt(s, o, o + 2 * len, bound, i);
      SumSmall(s[i], Twiddle(zeta, s[i + len]), bound);
    }
    MakeForwardDone(s, r, o, len, zeta * RINV, Q);
    MakeBounded(r, o, len, bound + Q);
  }

  lemma BlockSplitsAt(s: seq<int>, r: seq<int>, o: nat, len: nat, zeta: int, i: nat)
    requires |s| == |r| && BlockSplits(s, r, o, len, zeta) && o <= i < o + len <= i + len < |s|
    ensures r[i] == s[i] + Twiddle(zeta, s[i + len]) && r[i + len] == s[i] - Twiddle(zeta, s[i + len])
    ensures Small(Twiddle(zeta, s[i + len]), Q)
  {
    assert Splits(s[i], s[i + len], r[i], r[i + len], zeta);
  }

  lemma SumSmall(u: int, t: int, bound: int)
    requires Small(u, bound) && Small(t, Q)
    ensures BothSmall(u + t, u - t, bound + Q)
  {}

  /** One layer: every block of length 2 * len is split, with consecutive table entries. */
  method ForwardLayer(p: array<int32>, len: nat, k0: nat, ghost bl: Blocks, ghost bound: int) returns (k: nat)
    requires p.Length == 256 && 0 < len && 0 < |bl| && k0 == |bl| - 1 && 2 * |bl| <= 256
    requires Represents(p[..], bl, 2 * len, Q)
    requires bound + Q <= 0x8000_0000 && Bounded(p[..], 0, 256, bound)
    modifies p
    ensures k == 2 * |bl| - 1
    ensures LayerSplits(old(p[..]), p[..], |bl|, len, |bl|)
    ensures Represents(p[..], Split(T(), bl, len), len, Q)
    ensures Bounded(p[..], 0, 256, bound + Q)
  {
    hide *;
    k := k0;
    var start := 0;
    ghost var b := 0;
    ghost var s0: seq<int> := p[..];
    LayerStarts(s0, bl, len, bound + Q);
    while start < 256
      invariant b <= |bl| && start == Offset(b, 2 * len) <= 256 && k == |bl| - 1 + b
      invariant b == |bl| ==> start == 256
      invariant forall i :: start <= i < 256 ==> p[i] == s0[i]
      invariant LayerSplits(s0, p[..], |bl|, len, b) && SplitSoFar(T(), p[..], bl, len, b)
      invariant Bounded(p[..], 0, start, bound + Q)
      decreases |bl| - b
    {
      BlockIsNext(b, |bl|, len);
      k := k + 1;
      ZetaIsSmall(k);
      var zeta: int32 := Zetas.Zeta(k);
      ghost var s: seq<int32> := p[..];
      TailBounded(s0, s, start, len, bound);
      ForwardButterflies(p, start, len, zeta, bound);
      SplitsAreForward(s, p[..], start, len, zeta, bound);
      SplitNext(s, p[..], bl, len, b);
      LayerSplitsNext(s0, s, p[..], |bl|, len, b);
      BoundedJoins(s, p[..], start, len, bound + Q);
      start := start + 2 * len;
      b := b + 1;
    }
    if b < |bl| {
      BlockIsNext(b, |bl|, len);
    }
    SplitEnd(T(), p[..], bl, len);
  }

  lemma ZetaIsSmall(k: nat)
    requires k < 256
    ensures Small(Zetas.Zeta(k), 4190208)
  {
    hide Zetas.Zeta;
  }

  lemma LayerStarts(s: seq<int>, bl: Blocks, len: nat, bound: int)
    requires |s| == 256 && 0 < |bl| && 2 * |bl| <= 256 && Represents(s, bl, 2 * len, Q)
    ensures T().q == Q > 0 && 2 * |bl| <= |T().roots| == 256 && Uniform(bl, 2 * len)
    ensures Offset(0, 2 * len) == 0 && Offset(|bl|, 2 * len) == 256
    ensures LayerSplits(s, s, |bl|, len, 0) && SplitSoFar(T(), s, bl, len, 0) && Bounded(s, 0, 0, bound)
  {
    TowerShape();
    SplitStart(T(), s, bl, len);
  }

  lemma SplitNext(s: seq<int>, r: seq<int>, bl: Blocks, len: nat, b: nat)
    requires b < |bl| && 2 * |bl| <= 256 == |T().roots| && T().q == Q > 0 && Uniform(bl, 2 * len)
    requires SplitSoFar(T(), s, bl, len, b)
    requires ForwardDone(s, r, Offset(b, 2 * len), len, Zetas.Zeta(|bl| + b) * RINV, Q)
    ensures SplitSoFar(T(), r, bl, len, b + 1)
  {
    assert T().roots[|bl| + b] == Zetas.Zeta(|bl| + b) * RINV;
    hide SplitSoFar, ForwardDone, Uniform, Offset, Roots, T;
    SplitStep(T(), s, r, bl, len, b);
  }

  lemma LayerSplitsNext(s0: seq<int>, s: seq<int>, r: seq<int>, n: nat, len: nat, b: nat)
    requires |s| == |r| == 256 && b < n && LayerSplits(s0, s, n, len, b)
    requires BlockSplits(s, r, Offset(b, 2 * len), len, Zetas.Zeta(n + b))
    requires forall i :: Offset(b, 2 * len) <= i < 256 ==> s[i] == s0[i]
    requires forall i :: 0 <= i < 256 && !(Offset(b, 2 * len) <= i < Offset(b, 2 * len) + 2 * len) ==> r[i] == s[i]
    ensures LayerSplits(s0, r, n, len, b + 1)
  {
    hide Splits, Zetas.Zeta;
    forall i | 0 <= i < b + 1
      ensures BlockSplits(s0, r, Offset(i, 2 * len), len, Zetas.Zeta(n + i))
    {
      if i < b {
        OffsetMono(i, b, 2 * len);
        hide Offset;
        assert BlockSplits(s0, s, Offset(i, 2 * len), len, Zetas.Zeta(n + i));
        BlockStays(s0, s, r, Offset(i, 2 * len), len, Zetas.Zeta(n + i));
      } else {
        hide Offset;
        BlockFromStart(s0, s, r, Offset(b, 2 * len), len, Zetas.Zeta(n + b));
      }
    }
  }

  lemma BlockStays(s0: seq<int>, s: seq<int>, r: seq<int>, o: nat, len: nat, zeta: int)
    requires BlockSplits(s0, s, o, len, zeta) && |r| == |s| && forall i :: o <= i < o + 2 * len ==> r[i] == s[i]
    ensures BlockSplits(s0, r, o, len, zeta)
  {
    hide Splits;
    forall i | o <= i < o + len
      ensures Splits(s0[i], s0[i + len], r[i], r[i + len], zeta)
    {
      assert Splits(s0[i], s0[i + len], s[i], s[i + len], zeta);
    }
  }

  lemma BlockFromStart(s0: seq<int>, s: seq<int>, r: seq<int>, o: nat, len: nat, zeta: int)
    requires BlockSplits(s, r, o, len, zeta) && |s0| == |s| && forall i :: o <= i < o + 2 * len ==> s[i] == s0[i]
    ensures BlockSplits(s0, r, o, len, zeta)
  {
    hide Splits;
    forall i | o <= i < o + len
      ensures Splits(s0[i], s0[i + len], r[i], r[i + len], zeta)
    {
      assert Splits(s[i], s[i + len], r[i], r[i + len], zeta);
    }
  }

  lemma LevelSizes(e: nat)
    requires e < 8
    ensures BlockLen(T(), 1, e) == 2 * BlockLen(T(), 1, e + 1)
    ensures 1 <= Pow2(e) && 2 * Pow2(e) == Pow2(e + 1) <= 256
    ensures e == 7 ==> BlockLen(T(), 1, e + 1) == 1
    ensures e < 7 ==> BlockLen(T(), 1, e + 1) % 2 == 0
  {
    assert Pow2(1) == 2 && Pow2(2) == 4 && Pow2(3) == 8 && Pow2(4) == 16 && Pow2(5) == 32 && Pow2(6) == 64 && Pow2(7) == 128;
  }

  /** What a layer needs to know about level e, and where it leads. */
  lemma LevelFacts(a: seq<int>, e: nat, len: int)
    requires |a| == 256 && e < 8 && |T().roots| == Pow2(8) && T().depth == 8
    requires BlockLen(T(), 1, 0) == 256 && BlockLen(T(), 1, e) == 2 * len
    ensures 1 <= len && |Forward(T(), a, 1, e)| == Pow2(e) >= 1 && 2 * Pow2(e) == Pow2(e + 1) <= 256
    ensures BlockLen(T(), 1, e + 1) == len
    ensures Uniform(Forward(T(), a, 1, e), 2 * len) && |T().roots| == 256
    ensures Forward(T(), a, 1, e + 1) == Split(T(), Forward(T(), a, 1, e), len)
    ensures e < 7 ==> len == 2 * (len / 2)
    ensures e == 7 ==> len / 2 == 0
  {
    ForwardStep(T(), a, 1, e + 1);
    assert OnLevel(T(), Forward(T(), a, 1, e), 1, e);
    hide Forward, Split, Uniform, BlockLen, Pow2, T;
    LevelSizes(e);
  }

  /**
   The forward transform. From coefficients below any bound that leaves room for eight more Q it stays in
   range, adds at most Q per layer, and leaves the transform of the old contents modulo Q.
   */
  method PolyNtt(p: array<int32>, ghost bound: int)
    requires p.Length == 256 && bound + 8 * Q <= 0x8000_0000 && Bounded(p[..], 0, 256, bound)
    modifies p
    ensures IsImage(old(p[..]), p[..])
    ensures |T().roots| == Pow2(8) && BlockLen(T(), 1, 0) == 256
    ensures Represents(p[..], Ntt(T(), old(p[..]), 1), 1, Q) && IsTransform(p[..], old(p[..]))
    ensures Bounded(p[..], 0, 256, bound + 8 * Q)
  {
    hide *;
    TowerShape();
    QIs();
    ghost var a: seq<int> := p[..];
    ghost var e, grown, f := 0, bound, [a];
    var k, len := 0, 128;
    StartLevel(a);
    RunStart(a);
    while len >= 1
      invariant 0 <= e <= 8 && 0 <= len && k == Pow2(e) - 1
      invariant Represents(p[..], Forward(T(), a, 1, e), BlockLen(T(), 1, e), Q)
      invariant Bounded(p[..], 0, 256, grown) && grown == bound + 8380417 * e
      invariant |f| == e + 1 && ForwardRun(f, a, e) && f[e] == p[..]
      invariant len >= 1 ==> e < 8 && BlockLen(T(), 1, e) == 2 * len
      invariant len == 0 ==> e == 8
      decreases len
    {
      LevelFacts(a, e, len);
      HalfLength(e, len);
      k := ForwardLayer(p, len, k, Forward(T(), a, 1, e), grown);
      RunNext(f, a, e, p[..]);
      f := f + [p[..]];
      grown := grown + Q;
      len := len / 2;
      e := e + 1;
    }
    NttIs(a);
    MakeImage(f, a, p[..]);
    TransformMeans(p[..], a);
  }

  lemma HalfLength(e: nat, len: nat)
    requires e < 8 && BlockLen(T(), 1, e) == 2 * len
    ensures len == Pow2(7 - e)
  {
    assert Pow2(1) == 2 && Pow2(2) == 4 && Pow2(3) == 8 && Pow2(4) == 16 && Pow2(5) == 32 && Pow2(6) == 64 && Pow2(7) == 128;
  }

  lemma NttIs(a: seq<int>)
    requires |a| == 256 && |T().roots| == Pow2(8) && BlockLen(T(), 1, 0) == 256
    ensures Ntt(T(), a, 1) == Forward(T(), a, 1, 8)
  {
    hide Roots;
  }

  lemma StartLevel(a: seq<int>)
    requires |a| == 256
    ensures |T().roots| == Pow2(8) && BlockLen(T(), 1, 0) == 256
    ensures Represents(a, Forward(T(), a, 1, 0), 256, Q)
  {
    TowerShape();
    EqModRefl(a, Q);
    OffsetStep(0, 256);
    assert BlockAt(a, 256, 0) == a;
  }

  // ---------- Inverse transform ----------

  lemma InverseCong(u: int, c: int, d: int, t: int, y: int)
    requires d == c - u && Cong(t, y * d, Q)
    ensures Cong(u + c, u + c, Q)
    ensures Cong(t, Diff(u, c, y), Q)
  {
    CongIntro(u + c, u + c, Q, 0);
  }

  method InverseButterflies(p: array<int32>, start: nat, len: nat, zeta: int32)
    requires p.Length == 256 && start + 2 * len <= 256 && Small(zeta, 4190208) && BlockFits(p[..], start, len)
    modifies p
    ensures BlockMerges(old(p[..]), p[..], start, len, zeta)
    ensures forall i :: 0 <= i < 256 && !(start <= i < start + 2 * len) ==> p[i] == old(p[i])
  {
    hide *;
    ghost var s: seq<int> := p[..];
    var j := start;
    while j < start + len
      invariant start <= j <= start + len
      invariant forall i :: start <= i < j ==> Merges(s[i], s[i + len], p[i], p[i + len], zeta)
      invariant forall i :: 0 <= i < 256 && !(start <= i < j) && !(start + len <= i < j + len) ==> p[i] == s[i]
    {
      PairFitsAt(s, start, len, j);
      var t := p[j];
      p[j] := t + p[j + len];
      var diff: int32 := p[j + len] - t;
      TwiddleIs(zeta, diff);
      p[j + len] := MontgomeryReduce(zeta * diff);
      MergesIs(s[j], s[j + len], p[j], p[j + len], zeta);
      j := j + 1;
    }
    MakeBlockMerges(s, p[..], start, len, zeta);
  }

  lemma PairFitsAt(s: seq<int>, o: nat, len: nat, i: nat)
    requires BlockFits(s, o, len) && o <= i < o + len <= i + len < |s|
    ensures -0x8000_0000 <= s[i] + s[i + len] < 0x8000_0000 && -0x8000_0000 <= s[i + len] - s[i] < 0x8000_0000
    ensures Int32(s[i + len] - s[i])
  {
    assert PairFits(s[i], s[i + len]);
  }

  lemma MergesIs(u: int, c: int, x: int, y: int, zeta: int)
    requires x == u + c && y == Twiddle(zeta, c - u)
    ensures Merges(u, c, x, y, zeta)
  {}

  lemma MakeBlockMerges(s: seq<int>, r: seq<int>, o: nat, len: nat, zeta: int)
    requires o + 2 * len <= |s| == |r|
    requires forall i :: o <= i < o + len ==> Merges(s[i], s[i + len], r[i], r[i + len], zeta)
    ensures BlockMerges(s, r, o, len, zeta)
  {
    hide Merges;
  }

  /** The inverse butterflies of a block modulo Q. */
  lemma MergesAreInverse(s: seq<int>, r: seq<int>, o: nat, len: nat, zeta: int)
    requires o + 2 * len <= |s| == |r| && BlockMerges(s, r, o, len, zeta) && BlockFits(s, o, len) && Small(zeta, 4190208)
    requires forall i :: 0 <= i < |s| && !(o <= i < o + 2 * len) ==> r[i] == s[i]
    ensures InverseDone(s, r, o, len, zeta * RINV, Q)
  {
    hide *;
    QIs();
    forall i | o <= i < o + len
      ensures Cong(r[i], s[i] + s[i + len], Q) && Cong(r[i + len], Diff(s[i], s[i + len], zeta * RINV), Q)
    {
      BlockMergesAt(s, r, o, len, zeta, i);
      PairFitsAt(s, o, len, i);
      TwiddleIs(zeta, s[i + len] - s[i]);
      InverseCong(s[i], s[i + len], s[i + len] - s[i], r[i + len], zeta * RINV);
    }
    MakeInverseDone(s, r, o, len, zeta * RINV, Q);
  }

  lemma BlockMergesAt(s: seq<int>, r: seq<int>, o: nat, len: nat, zeta: int, i: nat)
    requires |s| == |r| && BlockMerges(s, r, o, len, zeta) && o <= i < o + len <= i + len < |s|
    ensures r[i] == s[i] + s[i + len] && r[i + len] == Twiddle(zeta, s[i + len] - s[i])
  {
    assert Merges(s[i], s[i + len], r[i], r[i + len], zeta);
  }

  /** One inverse layer: the blocks of length len are merged pairwise, the table read backwards. */
  method InverseLayer(p: array<int32>, len: nat, k0: nat, ghost bl: Blocks) returns (k: nat)
    requires p.Length == 256 && 0 < len && |bl| % 2 == 0 && 0 < |bl| == k0 <= 256
    requires Represents(p[..], bl, len, Q) && LayerFits(p[..], |bl| / 2, len)
    modifies p
    ensures 2 * k == |bl|
    ensures LayerMerges(old(p[..]), p[..], |bl| / 2, len, |bl| / 2)
    ensures Represents(p[..], Merge(T(), bl, len), 2 * len, Q)
  {
    hide *;
    k := k0;
    var start := 0;
    ghost var b, pairs := 0, |bl| / 2;
    ghost var s0: seq<int> := p[..];
    MergeStarts(s0, bl, len);
    while start < 256
      invariant b <= pairs && start == Offset(b, 2 * len) <= 256 && k == |bl| - b
      invariant b == pairs ==> start == 256
      invariant forall i :: start <= i < 256 ==> p[i] == s0[i]
      invariant LayerMerges(s0, p[..], pairs, len, b) && MergedSoFar(T(), p[..], bl, len, b)
      decreases pairs - b
    {
      BlockIsNext(b, pairs, len);
      k := k - 1;
      ZetaIsSmall(k);
      var zeta: int32 := Zetas.Zeta(k);
      ghost var s: seq<int> := p[..];
      TailFits(s0, s, pairs, len, b);
      InverseButterflies(p, start, len, zeta);
      MergesAreInverse(s, p[..], start, len, zeta);
      MergeNext(s, p[..], bl, len, b);
      LayerMergesNext(s0, s, p[..], pairs, len, b);
      start := start + 2 * len;
      b := b + 1;
    }
    if b < pairs {
      BlockIsNext(b, pairs, len);
    }
    MergeEnd(T(), p[..], bl, len);
  }

  lemma MergeStarts(s: seq<int>, bl: Blocks, len: nat)
    requires |s| == 256 && 0 < len && |bl| % 2 == 0 && 0 < |bl| <= 256 && Represents(s, bl, len, Q)
    ensures T().q == Q > 0 && |bl| <= |T().roots| == 256 && Uniform(bl, len)
    ensures Offset(0, 2 * len) == 0 && Offset(|bl| / 2, 2 * len) == 256
    ensures LayerMerges(s, s, |bl| / 2, len, 0) && MergedSoFar(T(), s, bl, len, 0)
  {
    TowerShape();
    OffsetStep(|bl| / 2, len);
    MergeStart(T(), s, bl, len);
  }

  lemma TailFits(s0: seq<int>, s: seq<int>, n: nat, len: nat, b: nat)
    requires |s| == |s0| == 256 && b < n && Offset(b, 2 * len) + 2 * len <= 256 && LayerFits(s0, n, len)
    requires forall i :: Offset(b, 2 * len) <= i < 256 ==> s[i] == s0[i]
    ensures BlockFits(s, Offset(b, 2 * len), len)
  {
    assert BlockFits(s0, Offset(b, 2 * len), len);
    hide Offset, LayerFits, PairFits;
    var o := Offset(b, 2 * len);
    forall i | o <= i < o + len
      ensures PairFits(s[i], s[i + len])
    {
      assert PairFits(s0[i], s0[i + len]);
    }
  }

  lemma MergeNext(s: seq<int>, r: seq<int>, bl: Blocks, len: nat, b: nat)
    requires |bl| % 2 == 0 && 2 * b < |bl| <= 256 == |T().roots| && T().q == Q > 0 && Uniform(bl, len)
    requires MergedSoFar(T(), s, bl, len, b)
    requires InverseDone(s, r, Offset(b, 2 * len), len, Zetas.Zeta(|bl| - 1 - b) * RINV, Q)
    ensures MergedSoFar(T(), r, bl, len, b + 1)
  {
    assert T().roots[|bl| - 1 - b] == Zetas.Zeta(|bl| - 1 - b) * RINV;
    hide MergedSoFar, InverseDone, Uniform, Offset, Roots, T;
    MergeStep(T(), s, r, bl, len, b);
  }

  lemma LayerMergesNext(s0: seq<int>, s: seq<int>, r: seq<int>, n: nat, len: nat, b: nat)
    requires |s| == |r| == 256 && b < n && LayerMerges(s0, s, n, len, b)
    requires BlockMerges(s, r, Offset(b, 2 * len), len, Zetas.Zeta(2 * n - 1 - b))
    requires forall i :: Offset(b, 2 * len) <= i < 256 ==> s[i] == s0[i]
    requires forall i :: 0 <= i < 256 && !(Offset(b, 2 * len) <= i < Offset(b, 2 * len) + 2 * len) ==> r[i] == s[i]
    ensures LayerMerges(s0, r, n, len, b + 1)
  {
    hide Merges, Zetas.Zeta;
    forall i | 0 <= i < b + 1
      ensures BlockMerges(s0, r, Offset(i, 2 * len), len, Zetas.Zeta(2 * n - 1 - i))
    {
      if i < b {
        OffsetMono(i, b, 2 * len);
        hide Offset;
        assert BlockMerges(s0, s, Offset(i, 2 * len), len, Zetas.Zeta(2 * n - 1 - i));
        MergedStays(s0, s, r, Offset(i, 2 * len), len, Zetas.Zeta(2 * n - 1 - i));
      } else {
        hide Offset;
        MergedFromStart(s0, s, r, Offset(b, 2 * len), len, Zetas.Zeta(2 * n - 1 - b));
      }
    }
  }

  lemma MergedStays(s0: seq<int>, s: seq<int>, r: seq<int>, o: nat, len: nat, zeta: int)
    requires BlockMerges(s0, s, o, len, zeta) && |r| == |s| && forall i :: o <= i < o + 2 * len ==> r[i] == s[i]
    ensures BlockMerges(s0, r, o, len, zeta)
  {
    hide Merges;
    forall i | o <= i < o + len
      ensures Merges(s0[i], s0[i + len], r[i], r[i + len], zeta)
    {
      assert Merges(s0[i], s0[i + len], s[i], s[i + len], zeta);
    }
  }

  lemma MergedFromStart(s0: seq<int>, s: seq<int>, r: seq<int>, o: nat, len: nat, zeta: int)
    requires BlockMerges(s, r, o, len, zeta) && |s0| == |s| && forall i :: o <= i < o + 2 * len ==> s[i] == s0[i]
    ensures BlockMerges(s0, r, o, len, zeta)
  {
    hide Merges;
    forall i | o <= i < o + len
      ensures Merges(s0[i], s0[i + len], r[i], r[i + len], zeta)
    {
      assert Merges(s[i], s[i + len], r[i], r[i + len], zeta);
    }
  }

  lemma InverseFacts(bl: Blocks, e: nat, len: int)
    requires 0 < e <= 8 && OnLevel(T(), bl, 1, e) && BlockLen(T(), 1, e) == len
    ensures |T().roots| == Pow2(8) && T().depth == 8
    ensures 1 <= len <= 128 && |bl| % 2 == 0 && 0 < |bl| == Pow2(e) == 2 * Pow2(e - 1) <= 256 && Uniform(bl, len)
    ensures OnLevel(T(), Merge(T(), bl, len), 1, e - 1) && BlockLen(T(), 1, e - 1) == 2 * len
    ensures Backward(T(), bl, 1, e) == Backward(T(), Merge(T(), bl, len), 1, e - 1)
    ensures e == 1 <==> 2 * len == 256
  {
    TowerShape();
    hide Merge;
    LevelSizes(e - 1);
    LevelFits(T(), e);
    BlockLenSmall(e);
  }

  lemma BlockLenSmall(e: nat)
    requires e <= 8
    ensures BlockLen(T(), 1, e) <= 256
    ensures e > 0 ==> BlockLen(T(), 1, e) <= 128 && (e == 1 <==> BlockLen(T(), 1, e) == 128)
  {
    assert Pow2(1) == 2 && Pow2(2) == 4 && Pow2(3) == 8 && Pow2(4) == 16 && Pow2(5) == 32 && Pow2(6) == 64 && Pow2(7) == 128;
  }

  /** The eight inverse layers, without the final scaling. */
  method InverseLayers(p: array<int32>, ghost bl: Blocks)
    requires p.Length == 256 && OnLevel(T(), bl, 1, 8) && Represents(p[..], bl, 1, Q) && InverseFits(p[..])
    modifies p
    ensures EqMod(p[..], Backward(T(), bl, 1, 8), Q)
  {
    hide *;
    LeafLevel(bl);
    ghost var s: seq<int> := p[..];
    ghost var cur, e := bl, 8;
    ghost var g := InverseStart(s);
    var k, len := 256, 1;
    while len < 256
      invariant 0 <= e <= 8 && 1 <= len <= 256
      invariant OnLevel(T(), cur, 1, e) && BlockLen(T(), 1, e) == len && k == Pow2(e)
      invariant Backward(T(), bl, 1, 8) == Backward(T(), cur, 1, e)
      invariant Represents(p[..], cur, len, Q)
      invariant |g| == 9 && InverseRun(g, s, e) && g[e] == p[..]
      invariant e == 0 <==> len == 256
      decreases e
    {
      InverseFacts(cur, e, len);
      HalfLength(e - 1, len);
      NextFits(g, s, e);
      k := InverseLayer(p, len, k, cur);
      g := RunWith(g, s, e - 1, p[..]);
      cur := Merge(T(), cur, len);
      e := e - 1;
      len := 2 * len;
    }
    RootLevel(p[..], cur);
  }

  lemma InverseStart(s: seq<int>) returns (g: seq<seq<int>>)
    requires |s| == 256
    ensures |g| == 9 && InverseRun(g, s, 8) && g[8] == s
  {
    g := seq(9, i => s);
  }

  lemma NextFits(g: seq<seq<int>>, s: seq<int>, e: nat)
    requires 1 <= e <= 8 && |g| == 9 && InverseFits(s) && InverseRun(g, s, e)
    ensures LayerFits(g[e], Pow2(e - 1), Pow2(8 - e))
  {
    hide LayerMerges, LayerFits, Pow2;
  }

  lemma LeafLevel(bl: Blocks)
    requires OnLevel(T(), bl, 1, 8)
    ensures |bl| == Pow2(8) == 256 && Uniform(bl, 1) && Pow2(0) == 1 && BlockLen(T(), 1, 8) == 1
    ensures T().depth == 8 && |T().roots| == Pow2(8) && Q > 0
  {
    TowerShape();
  }

  lemma RootLevel(s: seq<int>, bl: Blocks)
    requires |s| == 256 && OnLevel(T(), bl, 1, 0) && Represents(s, bl, 256, Q)
    ensures EqMod(s, Backward(T(), bl, 1, 0), Q)
  {
    OffsetStep(0, 256);
    assert BlockAt(s, 256, 0) == s;
  }

  /** What the last step of the inverse transform makes of a coefficient: R times the 256th part. */
  ghost function Finished(x: int): int
  {
    R * (8347681 * x)
  }

  /** The last multiplication: by f = R^2 / 256 in Montgomery form, so by R / 256. */
  lemma FinalFactor(x: int32)
    ensures -0x8000_0000 * Q <= 41978 * x < 0x8000_0000 * Q
    ensures Cong(MontgomeryReduce(41978 * x), Finished(x), Q)
    ensures Small(MontgomeryReduce(41978 * x), 4211198)
  {
    var r := MontgomeryReduce(41978 * x);
    MontgomeryIsRinv(41978 * x);
    assert 41978 * RINV - R * 8347681 == Q * -4278148678;
    CongIntro(41978 * x * RINV, R * (8347681 * x), Q, -4278148678 * x);
    CongTrans(r, 41978 * x * RINV, R * (8347681 * x), Q);
  }

  /**
   The inverse transform of input whose sums fit 32 bits: R times the mathematical inverse, every coefficient below
   4211198. Reduced input fits (BoundedFits), the image of a polynomial under a condition on one coefficient
   (ImageFitsExactly).
   */
  method PolyInvNtt(p: array<int32>, ghost bl: Blocks)
    requires p.Length == 256 && OnLevel(T(), bl, 1, 8) && Represents(p[..], bl, 1, Q)
    requires InverseFits(p[..])
    modifies p
    ensures EqMod(p[..], Scale(R, InvNtt(T(), bl, 1)), Q)
    ensures Bounded(p[..], 0, 256, 4211198)
  {
    hide Backward, Represents, OnLevel, Cong, Finished, EqMod, InvNtt, Scale, T, MontgomeryReduce;
    hide InverseFits;
    InverseLayers(p, bl);
    ghost var s: seq<int> := p[..];
    var j := 0;
    while j < 256
      invariant 0 <= j <= 256
      invariant Bounded(p[..], 0, j, 4211198)
      invariant forall i :: 0 <= i < j ==> Cong(p[i], Finished(s[i]), Q)
      invariant forall i :: j <= i < 256 ==> p[i] == s[i]
    {
      FinalFactor(p[j]);
      ghost var before: seq<int> := p[..];
      p[j] := MontgomeryReduce(41978 * (p[j] as int));
      BoundedNext(before, p[..], j, 4211198);
      j := j + 1;
    }
    FinalScale(s, p[..], bl);
  }

  lemma FinishedCong(r: int, s: int, b: int)
    requires Cong(r, Finished(s), Q) && Cong(s, b, Q)
    ensures Cong(r, R * (8347681 * b), Q)
  {
    CongIntro(8347681, 8347681, Q, 0);
    CongIntro(R, R, Q, 0);
    CongMul(8347681, 8347681, s, b, Q);
    CongMul(R, R, 8347681 * s, 8347681 * b, Q);
    CongTrans(r, R * (8347681 * s), R * (8347681 * b), Q);
  }

  lemma FinalScale(s: seq<int>, r: seq<int>, bl: Blocks)
    requires OnLevel(T(), bl, 1, 8) && EqMod(s, Backward(T(), bl, 1, 8), Q) && |r| == |s|
    requires forall i :: 0 <= i < |s| ==> Cong(r[i], Finished(s[i]), Q)
    ensures EqMod(r, Scale(R, InvNtt(T(), bl, 1)), Q)
  {
    hide Backward, OnLevel, Cong, Finished, T;
    var b := Backward(T(), bl, 1, 8);
    forall i | 0 <= i < |s|
      ensures Cong(r[i], R * (8347681 * b[i]), Q)
    {
      FinishedCong(r[i], s[i], b[i]);
    }
    ScaledTwice(r, bl);
  }

  lemma ScaledTwice(r: seq<int>, bl: Blocks)
    requires OnLevel(T(), bl, 1, 8) && |r| == |Backward(T(), bl, 1, 8)|
    requires forall i :: 0 <= i < |r| ==> Cong(r[i], R * (8347681 * Backward(T(), bl, 1, 8)[i]), Q)
    ensures EqMod(r, Scale(R, InvNtt(T(), bl, 1)), Q)
  {
    hide Backward, OnLevel, Cong;
  }

  // ---------- Pointwise product ----------

  /** A transformed polynomial as a state of single-coefficient blocks. */
  ghost function Leaves(s: seq<int>): (bl: Blocks)
    ensures |bl| == |s| && Uniform(bl, 1)
  {
    seq(|s|, i requires 0 <= i < |s| => [s[i]])
  }

  lemma LeavesOnLevel(s: seq<int>)
    requires |s| == 256
    ensures OnLevel(T(), Leaves(s), 1, 8)
  {
    TowerShape();
  }

  lemma LeafAt(s: seq<int>, b: nat)
    requires b < |s|
    ensures Offset(b, 1) == b && BlockAt(s, 1, b) == [s[b]]
  {}

  lemma LeavesRepresent(s: seq<int>, bl: Blocks)
    requires |s| == |bl| && Uniform(bl, 1)
    ensures Represents(s, bl, 1, Q) <==> BlocksEq(Leaves(s), bl, Q)
  {
    assert Offset(|bl|, 1) == |bl|;
    hide EqMod, BlockAt, Offset;
    forall b | 0 <= b < |bl|
      ensures BlockAt(s, 1, b) == Leaves(s)[b]
    {
      LeafAt(s, b);
    }
    if BlocksEq(Leaves(s), bl, Q) {
      forall b | 0 <= b < |bl|
        ensures EqMod(BlockAt(s, 1, b), bl[b], Q)
      {
        assert EqMod(Leaves(s)[b], bl[b], Q);
      }
    }
  }

  method PolyPointwise(r: array<int32>, a: array<int32>, b: array<int32>)
    requires r.Length == a.Length == b.Length == 256
    requires Bounded(a[..], 0, 256, 9 * Q) && Bounded(b[..], 0, 256, 9 * Q)
    modifies r
    ensures forall i :: 0 <= i < 256 ==> Cong(r[i], old(a[i]) * old(b[i]) * RINV, Q)
    ensures Bounded(r[..], 0, 256, Q)
  {
    hide Cong;
    ghost var x: seq<int>, y: seq<int> := a[..], b[..];
    var i := 0;
    while i < 256
      invariant 0 <= i <= 256
      invariant forall j :: 0 <= j < i ==> Small(r[j], Q) && Cong(r[j], x[j] * y[j] * RINV, Q)
      invariant forall j :: i <= j < 256 ==> a[j] == x[j] && b[j] == y[j]
    {
      assert Small(x[i], 9 * Q) && Small(y[i], 9 * Q);
      ProductBound(x[i], y[i], 9 * Q, 9 * Q);
      var product: int64 := (a[i] as int) * b[i];
      MontgomeryIsRinv(product);
      r[i] := MontgomeryReduce(product);
      i := i + 1;
    }
  }

  /** The pointwise product is the leafwise ring product, divided by R. */
  lemma PointwiseIsLeafProduct(r: seq<int>, a: seq<int>, b: seq<int>)
    requires |r| == |a| == |b| == 256 && forall i :: 0 <= i < 256 ==> Cong(r[i], a[i] * b[i] * RINV, Q)
    ensures OnLevel(T(), Leaves(a), 1, 8) && OnLevel(T(), Leaves(b), 1, 8)
    ensures BlocksEq(Leaves(r), BlockScale(RINV, LevelMul(T(), Leaves(a), Leaves(b), 1, 8)), Q)
  {
    hide *;
    LeavesOnLevel(a);
    LeavesOnLevel(b);
    var p := BlockScale(RINV, LevelMul(T(), Leaves(a), Leaves(b), 1, 8));
    LeafLevel(LevelMul(T(), Leaves(a), Leaves(b), 1, 8));
    forall i | 0 <= i < 256
      ensures EqMod(Leaves(r)[i], p[i], Q)
    {
      LeafProductAt(r, a, b, i);
    }
    MakeBlocksEq(Leaves(r), p);
  }

  lemma MakeBlocksEq(x: Blocks, y: Blocks)
    requires |x| == |y| && forall n :: 0 <= n < |x| ==> EqMod(x[n], y[n], Q)
    ensures BlocksEq(x, y, Q)
  {}

  lemma LeafProductAt(r: seq<int>, a: seq<int>, b: seq<int>, i: nat)
    requires |r| == |a| == |b| == 256 && i < 256 && Cong(r[i], a[i] * b[i] * RINV, Q)
    requires OnLevel(T(), Leaves(a), 1, 8) && OnLevel(T(), Leaves(b), 1, 8)
    ensures |LevelMul(T(), Leaves(a), Leaves(b), 1, 8)| == 256
    ensures EqMod(Leaves(r)[i], BlockScale(RINV, LevelMul(T(), Leaves(a), Leaves(b), 1, 8))[i], Q)
  {
    TowerShape();
    LevelFits(T(), 8);
    hide T, OnLevel, NodeRoot, Cong, Mul;
    BlockMulAt(T(), Leaves(a), Leaves(b), 1, i);
    SingleProduct(a[i], b[i], NodeRoot(T(), 256 + i));
    assert RINV * (a[i] * b[i]) == a[i] * b[i] * RINV;
  }

  lemma SingleProduct(x: int, y: int, z: int)
    ensures Mul([x], [y], z) == [x * y]
  {
    assert [x][1..] == [];
    assert Act([x][1..], MulX([y], z), z) == [0];
  }

  // ---------- The product ----------

  /** What a pointwise product followed by the inverse transform leaves: the Montgomery factors cancel. */
  lemma FactorsCancel(c: seq<int>, r: seq<int>, xv: Blocks)
    requires |c| == 256 && OnLevel(T(), xv, 1, 8) && BlocksEq(Leaves(c), BlockScale(RINV, xv), Q)
    requires OnLevel(T(), Leaves(c), 1, 8) && EqMod(r, Scale(R, InvNtt(T(), Leaves(c), 1)), Q)
    ensures EqMod(r, InvNtt(T(), xv, 1), Q)
  {
    hide *;
    TowerShape();
    LevelScale(RINV, xv);
    var w := InvNtt(T(), xv, 1);
    InvNttScale(T(), RINV, xv, 1);
    InvNttCong(T(), Leaves(c), BlockScale(RINV, xv), 1);
    CongIntro(R, R, Q, 0);
    ScaleCong(R, R, InvNtt(T(), Leaves(c), 1), Scale(RINV, w), Q);
    ScaleScale(R, RINV, w);
    EqModRefl(w, Q);
    RTimesRinv();
    ScaleCong(R * RINV, 1, w, w, Q);
    ScaleOne(w);
    EqModTrans(r, Scale(R, InvNtt(T(), Leaves(c), 1)), Scale(R * RINV, w), Q);
    EqModTrans(r, Scale(R * RINV, w), w, Q);
  }

  lemma LevelScale(s: int, x: Blocks)
    requires OnLevel(T(), x, 1, 8)
    ensures OnLevel(T(), BlockScale(s, x), 1, 8)
  {}

  lemma RTimesRinv()
    ensures Q > 0 && Cong(R * RINV, 1, Q)
  {
    CongIntro(R * RINV, 1, Q, 4236238847);
  }

  /**
   Pointwise product and inverse transform, the pattern of every product in signing and verification:
   from an operand x and a transformed polynomial v it leaves the product of the ring.
   */
  method PolyTimes(r: array<int32>, a: array<int32>, b: array<int32>, ghost x: Blocks, ghost v: seq<int>)
    requires r.Length == a.Length == b.Length == 256
    requires Bounded(a[..], 0, 256, 9 * Q) && Bounded(b[..], 0, 256, 9 * Q)
    requires |T().roots| == Pow2(8) && |v| == BlockLen(T(), 1, 0) && OnLevel(T(), x, 1, 8)
    requires Represents(a[..], x, 1, Q) && Represents(b[..], Ntt(T(), v, 1), 1, Q)
    modifies r
    ensures EqMod(r[..], Times(T(), x, v, 1), Q)
    ensures Bounded(r[..], 0, 256, 4211198)
  {
    hide Represents, OnLevel, Ntt, BlockLen, Cong, EqMod, Times, T, Leaves, InvNtt, Scale, InverseFits;
    ghost var s: seq<int>, t: seq<int> := a[..], b[..];
    PolyPointwise(r, a, b);
    ghost var c: seq<int> := r[..];
    LeavesOnLevel(c);
    LeavesRepresent(c, Leaves(c));
    BlocksRefl(Leaves(c), Q);
    BoundedFits(c, Q);
    PolyInvNtt(r, Leaves(c));
    ProductOfLeaves(c, s, t, r[..], x, v);
  }

  lemma ProductOfLeaves(c: seq<int>, a: seq<int>, b: seq<int>, r: seq<int>, x: Blocks, v: seq<int>)
    requires |c| == |a| == |b| == 256 && forall i :: 0 <= i < 256 ==> Cong(c[i], a[i] * b[i] * RINV, Q)
    requires |T().roots| == Pow2(8) && |v| == BlockLen(T(), 1, 0) && OnLevel(T(), x, 1, 8)
    requires Represents(a, x, 1, Q) && Represents(b, Ntt(T(), v, 1), 1, Q)
    requires OnLevel(T(), Leaves(c), 1, 8) && EqMod(r, Scale(R, InvNtt(T(), Leaves(c), 1)), Q)
    ensures EqMod(r, Times(T(), x, v, 1), Q)
  {
    hide *;
    TowerShape();
    PointwiseIsLeafProduct(c, a, b);
    var y := Ntt(T(), v, 1);
    LeafLevel(x);
    LeafLevel(y);
    LeavesRepresent(a, x);
    LeavesRepresent(b, y);
    LevelMulCong(T(), Leaves(a), x, Leaves(b), y, 1, 8);
    var ab, xy := LevelMul(T(), Leaves(a), Leaves(b), 1, 8), LevelMul(T(), x, y, 1, 8);
    CongIntro(RINV, RINV, Q, 0);
    BlockScaleCong(RINV, RINV, ab, xy, Q);
    BlocksTrans(Leaves(c), BlockScale(RINV, ab), BlockScale(RINV, xy), Q);
    FactorsCancel(c, r, xy);
    TimesUnfolds(x, v);
  }

  lemma TimesUnfolds(x: Blocks, v: seq<int>)
    requires |T().roots| == Pow2(8) && |v| == BlockLen(T(), 1, 0) && OnLevel(T(), x, 1, 8)
    ensures Times(T(), x, v, 1) == InvNtt(T(), LevelMul(T(), x, Ntt(T(), v, 1), 1, 8), 1)
  {}

  /** The main law: transforming, multiplying pointwise and transforming back is the negacyclic product. */
  lemma TransformMultiplies(a: seq<int>, b: seq<int>, r: seq<int>)
    requires |a| == |b| == 256 && |T().roots| == Pow2(8) && BlockLen(T(), 1, 0) == 256
    requires EqMod(r, Times(T(), Ntt(T(), a, 1), b, 1), Q)
    ensures EqMod(r, Mul(a, b, -1), Q)
  {
    hide *;
    TowerShape();
    TowerIsGood();
    TimesIsNegacyclic(T(), a, b, 1);
    EqModTrans(r, Times(T(), Ntt(T(), a, 1), b, 1), Mul(a, b, -1), Q);
  }

  /**
   The law for the arrays: two polynomials with coefficients below q in magnitude, transformed, multiplied and
   transformed back, give the product of the ring, every coefficient below 4211198.
   */
  method MultiplyPolys(a: array<int32>, b: array<int32>) returns (r: array<int32>)
    requires a.Length == b.Length == 256 && a != b && Bounded(a[..], 0, 256, Q) && Bounded(b[..], 0, 256, Q)
    modifies a, b
    ensures fresh(r) && r.Length == 256
    ensures EqMod(r[..], Mul(old(a[..]), old(b[..]), -1), Q) && Bounded(r[..], 0, 256, 4211198)
  {
    hide *;
    QIs();
    ghost var x: seq<int>, y: seq<int> := a[..], b[..];
    TowerShape();
    PolyNtt(a, 8380417);
    PolyNtt(b, 8380417);
    NttLevel(x);
    r := new int32[256];
    PolyTimes(r, a, b, Ntt(T(), x, 1), y);
    TransformMultiplies(x, y, r[..]);
  }

  lemma NttLevel(x: seq<int>)
    requires |x| == 256 && |T().roots| == Pow2(8) && BlockLen(T(), 1, 0) == 256
    ensures OnLevel(T(), Ntt(T(), x, 1), 1, 8)
  {
    TowerShape();
    hide T, OnLevel;
  }

  // ---------- There and back ----------

  /** Montgomery reduction of R times a coefficient, made canonical, is its residue. */
  lemma Restored(x: int32, a: int)
    requires Cong(x, R * a, Q) && Small(x, 4211198)
    ensures -0x8000_0000 * Q <= x < 0x8000_0000 * Q && MontgomeryReduce(x) <= 0x7FFF_FFFF - 0x40_0000
    ensures CaddQ(Reduce32(MontgomeryReduce(x))) == a % Q
  {
    MontgomeryIsRinv(x);
    var r := MontgomeryReduce(x);
    var y := Reduce32(r);
    hide MontgomeryReduce, Reduce32, CaddQ;
    RTimesRinv();
    CongIntro(RINV, RINV, Q, 0);
    CongIntro(a, a, Q, 0);
    CongMul(x, R * a, RINV, RINV, Q);
    CongMul(R * RINV, 1, a, a, Q);
    assert R * a * RINV == R * RINV * a;
    CongTrans(r, x * RINV, R * a * RINV, Q);
    CongTrans(r, R * RINV * a, a, Q);
    CongTrans(y, r, a, Q);
    CongModEq(y, a, Q);
  }

  /**
   A polynomial transformed and transformed back at once, and freed of the factor R: every coefficient is the residue of
   what it was. The constant coefficient must lie in [-2^23, 2^23), which by ImageFitsExactly is what the sums allow.
   */
  method ThereAndBack(p: array<int32>, ghost bound: int)
    requires p.Length == 256 && bound + 8 * Q <= 0x8000_0000 && Bounded(p[..], 0, 256, bound)
    requires -0x80_0000 <= p[0] < 0x80_0000
    modifies p
    ensures forall i :: 0 <= i < 256 ==> p[i] == old(p[i]) % Q
  {
    hide *;
    QIs();
    TowerShape();
    ghost var a: seq<int> := p[..];
    PolyNtt(p, bound);
    NttLevel(a);
    ImageFitsExactly(a, p[..]);
    PolyInvNtt(p, Ntt(T(), a, 1));
    ghost var s: seq<int> := p[..];
    ComesBack(a, s);
    var j := 0;
    while j < 256
      invariant 0 <= j <= 256
      invariant forall i :: 0 <= i < j ==> p[i] == a[i] % 8380417
      invariant forall i :: j <= i < 256 ==> p[i] == s[i]
    {
      CoefficientComesBack(a, s, j);
      Restored(p[j], a[j]);
      p[j] := CaddQ(Reduce32(MontgomeryReduce(p[j])));
      j := j + 1;
    }
  }

  lemma ComesBack(a: seq<int>, s: seq<int>)
    requires |a| == 256 && |T().roots| == Pow2(8) && BlockLen(T(), 1, 0) == 256
    requires OnLevel(T(), Ntt(T(), a, 1), 1, 8) && EqMod(s, Scale(R, InvNtt(T(), Ntt(T(), a, 1), 1)), Q)
    ensures EqMod(s, Scale(R, a), Q)
  {
    hide *;
    TowerShape();
    TowerIsGood();
    InvNttOfNtt(T(), a, 1);
    CongIntro(R, R, Q, 0);
    ScaleCong(R, R, InvNtt(T(), Ntt(T(), a, 1), 1), a, Q);
    EqModTrans(s, Scale(R, InvNtt(T(), Ntt(T(), a, 1), 1)), Scale(R, a), Q);
  }

  lemma CoefficientComesBack(a: seq<int>, s: seq<int>, i: nat)
    requires |a| == 256 && EqMod(s, Scale(R, a), Q) && Bounded(s, 0, 256, 4211198) && i < 256
    ensures |s| == 256 && Cong(s[i], R * a[i], Q) && Small(s[i], 4211198)
  {
    assert Scale(R, a)[i] == R * a[i];
  }
}
