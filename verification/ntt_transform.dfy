/** The whole transform: depth layers forward, depth layers backward, and the product they compute. */
module NttTransform {
  import opened Congruence
  import opened PolyRing
  import opened NttTower

  /** The block length on level e, when the leaves have length m. */
  function BlockLen(t: Tower, m: nat, e: nat): nat
    requires e <= t.depth
  {
    m * Pow2(t.depth - e)
  }

  lemma BlockLenHalves(t: Tower, m: nat, e: nat)
    requires 0 < e <= t.depth
    ensures BlockLen(t, m, e - 1) == 2 * BlockLen(t, m, e)
  {
    assert m * (2 * Pow2(t.depth - e)) == 2 * (m * Pow2(t.depth - e));
  }

  lemma BlockLenPositive(t: Tower, m: nat, e: nat)
    requires e <= t.depth && m > 0
    ensures BlockLen(t, m, e) > 0
  {
    assert m * Pow2(t.depth - e) >= m;
  }

  /** A state on level e. */
  ghost predicate OnLevel(t: Tower, bl: Blocks, m: nat, e: nat)
  {
    e <= t.depth && |t.roots| == Pow2(t.depth) && |bl| == Pow2(e) && Uniform(bl, BlockLen(t, m, e))
  }

  lemma LevelFits(t: Tower, e: nat)
    requires e <= t.depth && |t.roots| == Pow2(t.depth)
    ensures Pow2(e) <= |t.roots|
  {
    Pow2Mono(e, t.depth);
  }

  ghost function Forward(t: Tower, a: seq<int>, m: nat, e: nat): (r: Blocks)
    requires e <= t.depth && |t.roots| == Pow2(t.depth) && |a| == BlockLen(t, m, 0)
    ensures OnLevel(t, r, m, e)
  {
    if e == 0 then [a] else
      BlockLenHalves(t, m, e);
      LevelFits(t, e);
      Split(t, Forward(t, a, m, e - 1), BlockLen(t, m, e))
  }

  ghost function Backward(t: Tower, bl: Blocks, m: nat, e: nat): (r: seq<int>)
    requires OnLevel(t, bl, m, e)
    ensures |r| == BlockLen(t, m, 0)
    decreases e
  {
    if e == 0 then bl[0] else
      BlockLenHalves(t, m, e);
      LevelFits(t, e);
      Backward(t, Merge(t, bl, BlockLen(t, m, e)), m, e - 1)
  }

  /** The product of two states on level e. */
  ghost function LevelMul(t: Tower, x: Blocks, y: Blocks, m: nat, e: nat): (r: Blocks)
    requires m > 0 && OnLevel(t, x, m, e) && OnLevel(t, y, m, e)
    ensures OnLevel(t, r, m, e)
  {
    LevelFits(t, e);
    BlockLenPositive(t, m, e);
    BlockMul(t, x, y, BlockLen(t, m, e))
  }

  ghost function LevelAdd(t: Tower, x: Blocks, y: Blocks, m: nat, e: nat): (r: Blocks)
    requires OnLevel(t, x, m, e) && OnLevel(t, y, m, e)
    ensures OnLevel(t, r, m, e)
  {
    BlockAdd(x, y, BlockLen(t, m, e))
  }

  // ---------- Forward ----------

  lemma ForwardStep(t: Tower, a: seq<int>, m: nat, e: nat)
    requires 0 < e <= t.depth && |t.roots| == Pow2(t.depth) && |a| == BlockLen(t, m, 0)
    ensures BlockLen(t, m, e - 1) == 2 * BlockLen(t, m, e)
    ensures 2 * Pow2(e - 1) <= |t.roots|
    ensures Forward(t, a, m, e) == Split(t, Forward(t, a, m, e - 1), BlockLen(t, m, e))
  {
    BlockLenHalves(t, m, e);
    LevelFits(t, e);
  }

  lemma {:induction false} ForwardCong(t: Tower, a: seq<int>, b: seq<int>, m: nat, e: nat)
    requires t.q > 0 && e <= t.depth && |t.roots| == Pow2(t.depth) && |a| == BlockLen(t, m, 0) && EqMod(a, b, t.q)
    ensures BlocksEq(Forward(t, a, m, e), Forward(t, b, m, e), t.q)
  {
    assert |a| == |b|;
    hide Split, EqMod, Cong;
    if e > 0 {
      ForwardCong(t, a, b, m, e - 1);
      BlockLenHalves(t, m, e);
      LevelFits(t, e);
      SplitCong(t, Forward(t, a, m, e - 1), Forward(t, b, m, e - 1), BlockLen(t, m, e));
    }
  }

  lemma {:induction false} ForwardLinear(t: Tower, s: int, a: seq<int>, b: seq<int>, m: nat, e: nat)
    requires e <= t.depth && |t.roots| == Pow2(t.depth) && |a| == |b| == BlockLen(t, m, 0)
    ensures Forward(t, Add(a, b), m, e) == LevelAdd(t, Forward(t, a, m, e), Forward(t, b, m, e), m, e)
    ensures Forward(t, Scale(s, a), m, e) == BlockScale(s, Forward(t, a, m, e))
  {
    hide Split, Add, Scale;
    if e > 0 {
      ForwardLinear(t, s, a, b, m, e - 1);
      BlockLenHalves(t, m, e);
      LevelFits(t, e);
      SplitAdd(t, Forward(t, a, m, e - 1), Forward(t, b, m, e - 1), BlockLen(t, m, e));
      SplitScale(t, s, Forward(t, a, m, e - 1), BlockLen(t, m, e));
    }
  }

  /** The forward transform is multiplicative: a negacyclic product becomes a blockwise product. */
  lemma ForwardMulBase(t: Tower, a: seq<int>, b: seq<int>, m: nat)
    requires Good(t) && m > 0 && |a| == |b| == BlockLen(t, m, 0) > 0
    ensures BlocksEq(Forward(t, Mul(a, b, -1), m, 0),
                     LevelMul(t, Forward(t, a, m, 0), Forward(t, b, m, 0), m, 0), t.q)
  {
    EqModRefl(Mul(a, b, -1), t.q);
    LevelFits(t, 0);
    BlockMulAt(t, [a], [b], BlockLen(t, m, 0), 0);
  }

  lemma ForwardMulStep(t: Tower, a: seq<int>, b: seq<int>, c: seq<int>, m: nat, e: nat)
    requires Good(t) && m > 0 && 0 < e <= t.depth && |a| == |b| == |c| == BlockLen(t, m, 0)
    requires BlocksEq(Forward(t, c, m, e - 1),
                      LevelMul(t, Forward(t, a, m, e - 1), Forward(t, b, m, e - 1), m, e - 1), t.q)
    ensures BlocksEq(Forward(t, c, m, e), LevelMul(t, Forward(t, a, m, e), Forward(t, b, m, e), m, e), t.q)
  {
    ForwardStep(t, a, m, e);
    ForwardStep(t, b, m, e);
    ForwardStep(t, c, m, e);
    BlockLenPositive(t, m, e);
    SplitMulCong(t, Forward(t, c, m, e - 1), Forward(t, a, m, e - 1), Forward(t, b, m, e - 1), BlockLen(t, m, e));
  }

  lemma {:induction false} ForwardMul(t: Tower, a: seq<int>, b: seq<int>, m: nat, e: nat)
    requires Good(t) && m > 0 && e <= t.depth && |a| == |b| == BlockLen(t, m, 0) > 0
    ensures BlocksEq(Forward(t, Mul(a, b, -1), m, e),
                     LevelMul(t, Forward(t, a, m, e), Forward(t, b, m, e), m, e), t.q)
  {
    hide *;
    if e == 0 {
      ForwardMulBase(t, a, b, m);
    } else {
      ForwardMul(t, a, b, m, e - 1);
      ForwardMulStep(t, a, b, Mul(a, b, -1), m, e);
    }
  }

  // ---------- Backward ----------

  lemma {:induction false} BackwardCong(t: Tower, x: Blocks, y: Blocks, m: nat, e: nat)
    requires t.q > 0 && OnLevel(t, x, m, e) && OnLevel(t, y, m, e) && BlocksEq(x, y, t.q)
    ensures EqMod(Backward(t, x, m, e), Backward(t, y, m, e), t.q)
    decreases e
  {
    hide Merge, EqMod;
    if e > 0 {
      BlockLenHalves(t, m, e);
      LevelFits(t, e);
      var n := BlockLen(t, m, e);
      MergeCong(t, x, y, n);
      BackwardCong(t, Merge(t, x, n), Merge(t, y, n), m, e - 1);
    }
  }

  lemma BackwardStep(t: Tower, x: Blocks, m: nat, e: nat)
    requires 0 < e && OnLevel(t, x, m, e)
    ensures e <= t.depth && |x| == 2 * Pow2(e - 1) && |x| % 2 == 0 && |x| <= |t.roots| && Uniform(x, BlockLen(t, m, e))
    ensures BlockLen(t, m, e - 1) == 2 * BlockLen(t, m, e)
    ensures OnLevel(t, Merge(t, x, BlockLen(t, m, e)), m, e - 1)
    ensures Backward(t, x, m, e) == Backward(t, Merge(t, x, BlockLen(t, m, e)), m, e - 1)
  {
    BlockLenHalves(t, m, e);
    LevelFits(t, e);
    hide BlockLen;
  }

  lemma BackwardRoot(t: Tower, x: Blocks, m: nat)
    requires OnLevel(t, x, m, 0)
    ensures |x| == 1 && Backward(t, x, m, 0) == x[0]
  {}

  lemma ScaledLevel(t: Tower, s: int, x: Blocks, m: nat, e: nat)
    requires OnLevel(t, x, m, e)
    ensures OnLevel(t, BlockScale(s, x), m, e)
  {
    hide BlockLen, Pow2;
  }

  lemma ScaledAt(s: int, x: Blocks, b: nat)
    requires b < |x|
    ensures BlockScale(s, x)[b] == Scale(s, x[b])
  {}

  lemma {:induction false} BackwardScale(t: Tower, s: int, x: Blocks, m: nat, e: nat)
    requires OnLevel(t, x, m, e)
    ensures OnLevel(t, BlockScale(s, x), m, e)
    ensures Backward(t, BlockScale(s, x), m, e) == Scale(s, Backward(t, x, m, e))
    decreases e
  {
    hide *;
    ScaledLevel(t, s, x, m, e);
    if e == 0 {
      BackwardRoot(t, x, m);
      BackwardRoot(t, BlockScale(s, x), m);
      ScaledAt(s, x, 0);
    } else {
      BackwardStep(t, x, m, e);
      BackwardStep(t, BlockScale(s, x), m, e);
      MergeScale(t, s, x, BlockLen(t, m, e));
      BackwardScale(t, s, Merge(t, x, BlockLen(t, m, e)), m, e - 1);
    }
  }

  lemma AddedAt(x: Blocks, y: Blocks, n: nat, b: nat)
    requires |x| == |y| && Uniform(x, n) && Uniform(y, n) && b < |x|
    ensures |x[b]| == |y[b]| && BlockAdd(x, y, n)[b] == Add(x[b], y[b])
  {}

  lemma LevelAddIs(t: Tower, x: Blocks, y: Blocks, m: nat, e: nat)
    requires OnLevel(t, x, m, e) && OnLevel(t, y, m, e)
    ensures e <= t.depth && |x| == |y| && Uniform(x, BlockLen(t, m, e)) && Uniform(y, BlockLen(t, m, e))
    ensures LevelAdd(t, x, y, m, e) == BlockAdd(x, y, BlockLen(t, m, e))
  {}

  lemma {:induction false} BackwardAdd(t: Tower, x: Blocks, y: Blocks, m: nat, e: nat)
    requires OnLevel(t, x, m, e) && OnLevel(t, y, m, e)
    ensures Backward(t, LevelAdd(t, x, y, m, e), m, e) == Add(Backward(t, x, m, e), Backward(t, y, m, e))
    decreases e
  {
    hide *;
    LevelAddIs(t, x, y, m, e);
    if e == 0 {
      BackwardRoot(t, x, m);
      BackwardRoot(t, y, m);
      BackwardRoot(t, LevelAdd(t, x, y, m, e), m);
      AddedAt(x, y, BlockLen(t, m, e), 0);
    } else {
      var n := BlockLen(t, m, e);
      BackwardStep(t, x, m, e);
      BackwardStep(t, y, m, e);
      BackwardStep(t, LevelAdd(t, x, y, m, e), m, e);
      MergeAdd(t, x, y, n);
      LevelAddIs(t, Merge(t, x, n), Merge(t, y, n), m, e - 1);
      BackwardAdd(t, Merge(t, x, n), Merge(t, y, n), m, e - 1);
    }
  }

  // ---------- The two directions undo each other ----------

  lemma ForwardRoot(t: Tower, a: seq<int>, m: nat)
    requires |t.roots| == Pow2(t.depth) && |a| == BlockLen(t, m, 0)
    ensures Forward(t, a, m, 0) == [a]
  {}

  lemma GoodShape(t: Tower)
    requires Good(t)
    ensures t.q > 1 && |t.roots| == Pow2(t.depth)
  {}

  lemma PowerOfTwo(e: nat, a: seq<int>)
    ensures Pow2(e) == (if e == 0 then 1 else 2 * Pow2(e - 1)) && Scale(1, a) == a
  {}

  /** Backward after forward multiplies by 2^e. */
  lemma {:induction false} BackwardForward(t: Tower, a: seq<int>, m: nat, e: nat)
    requires Good(t) && e <= t.depth && |a| == BlockLen(t, m, 0)
    ensures |t.roots| == Pow2(t.depth)
    ensures EqMod(Backward(t, Forward(t, a, m, e), m, e), Scale(Pow2(e), a), t.q)
  {
    hide *;
    GoodShape(t);
    PowerOfTwo(e, a);
    if e == 0 {
      ForwardRoot(t, a, m);
      BackwardRoot(t, [a], m);
      EqModRefl(a, t.q);
    } else {
      var x, n := Forward(t, a, m, e - 1), BlockLen(t, m, e);
      ForwardStep(t, a, m, e);
      BackwardStep(t, Forward(t, a, m, e), m, e);
      LevelShape(t, x, m, e - 1);
      MergeSplit(t, x, n, e - 1);
      BackwardScale(t, 2, x, m, e - 1);
      BackwardCong(t, Merge(t, Split(t, x, n), n), BlockScale(2, x), m, e - 1);
      BackwardForward(t, a, m, e - 1);
      CongIntro(2, 2, t.q, 0);
      ScaleCong(2, 2, Backward(t, x, m, e - 1), Scale(Pow2(e - 1), a), t.q);
      ScaleScale(2, Pow2(e - 1), a);
      EqModTrans(Backward(t, Forward(t, a, m, e), m, e), Scale(2, Backward(t, x, m, e - 1)), Scale(Pow2(e), a), t.q);
    }
  }

  lemma LevelShape(t: Tower, x: Blocks, m: nat, e: nat)
    requires OnLevel(t, x, m, e)
    ensures e <= t.depth && |x| == Pow2(e) && Uniform(x, BlockLen(t, m, e))
  {}

  lemma BlockScaleScale(s: int, u: int, x: Blocks)
    ensures BlockScale(s, BlockScale(u, x)) == BlockScale(s * u, x)
  {
    forall b | 0 <= b < |x|
      ensures BlockScale(s, BlockScale(u, x))[b] == BlockScale(s * u, x)[b]
    {
      ScaleScale(s, u, x[b]);
    }
  }

  lemma BlockScaleCong(s: int, u: int, x: Blocks, y: Blocks, q: int)
    requires q > 0 && Cong(s, u, q) && BlocksEq(x, y, q)
    ensures BlocksEq(BlockScale(s, x), BlockScale(u, y), q)
  {
    forall b | 0 <= b < |x|
      ensures EqMod(Scale(s, x[b]), Scale(u, y[b]), q)
    {
      ScaleCong(s, u, x[b], y[b], q);
    }
  }

  lemma BlocksRefl(x: Blocks, q: int)
    requires q > 0
    ensures BlocksEq(x, x, q)
  {
    forall b | 0 <= b < |x|
      ensures EqMod(x[b], x[b], q)
    {
      EqModRefl(x[b], q);
    }
  }

  /** Forward after backward multiplies by 2^e. */
  lemma {:induction false} ForwardBackward(t: Tower, x: Blocks, m: nat, e: nat)
    requires Good(t) && OnLevel(t, x, m, e)
    ensures e <= t.depth && |t.roots| == Pow2(t.depth)
    ensures BlocksEq(Forward(t, Backward(t, x, m, e), m, e), BlockScale(Pow2(e), x), t.q)
    decreases e
  {
    hide *;
    GoodShape(t);
    LevelShape(t, x, m, e);
    PowerOfTwo(e, []);
    if e == 0 {
      BackwardRoot(t, x, m);
      ForwardRoot(t, x[0], m);
      ScaleByOne(x, t.q);
    } else {
      var n := BlockLen(t, m, e);
      BackwardStep(t, x, m, e);
      var y := Merge(t, x, n);
      LevelShape(t, y, m, e - 1);
      var z := Forward(t, Backward(t, y, m, e - 1), m, e - 1);
      ForwardBackward(t, y, m, e - 1);
      ForwardStep(t, Backward(t, y, m, e - 1), m, e);
      LevelShape(t, z, m, e - 1);
      ScaledLevel(t, Pow2(e - 1), y, m, e - 1);
      LevelShape(t, BlockScale(Pow2(e - 1), y), m, e - 1);
      SplitCong(t, z, BlockScale(Pow2(e - 1), y), n);
      SplitScale(t, Pow2(e - 1), y, n);
      SplitMerge(t, x, n, e - 1);
      CongIntro(Pow2(e - 1), Pow2(e - 1), t.q, 0);
      BlockScaleCong(Pow2(e - 1), Pow2(e - 1), Split(t, y, n), BlockScale(2, x), t.q);
      BlockScaleScale(Pow2(e - 1), 2, x);
      BlocksTrans(Split(t, z, n), BlockScale(Pow2(e - 1), Split(t, y, n)), BlockScale(Pow2(e), x), t.q);
    }
  }

  lemma ScaleByOne(x: Blocks, q: int)
    requires q > 0 && |x| == 1
    ensures [x[0]] == x && BlocksEq(x, BlockScale(1, x), q)
  {
    assert BlockScale(1, x)[0] == x[0];
    EqModRefl(x[0], q);
  }

  // ---------- The ring product computed through the transform ----------

  /** The transform of a polynomial, down to the leaves. */
  ghost function Ntt(t: Tower, a: seq<int>, m: nat): (r: Blocks)
    requires |t.roots| == Pow2(t.depth) && |a| == BlockLen(t, m, 0)
    ensures OnLevel(t, r, m, t.depth)
  {
    Forward(t, a, m, t.depth)
  }

  /** The inverse transform, the factor 2^depth divided out. */
  ghost function InvNtt(t: Tower, x: Blocks, m: nat): (r: seq<int>)
    requires OnLevel(t, x, m, t.depth)
    ensures |r| == BlockLen(t, m, 0)
  {
    Scale(t.inverse, Backward(t, x, m, t.depth))
  }

  /** The product of a transformed operand with a polynomial, as the library computes it. */
  ghost function Times(t: Tower, x: Blocks, v: seq<int>, m: nat): (r: seq<int>)
    requires m > 0 && OnLevel(t, x, m, t.depth) && |v| == BlockLen(t, m, 0)
    ensures |r| == BlockLen(t, m, 0)
  {
    InvNtt(t, LevelMul(t, x, Ntt(t, v, m), m, t.depth), m)
  }

  lemma InvNttCong(t: Tower, x: Blocks, y: Blocks, m: nat)
    requires t.q > 0 && OnLevel(t, x, m, t.depth) && OnLevel(t, y, m, t.depth) && BlocksEq(x, y, t.q)
    ensures EqMod(InvNtt(t, x, m), InvNtt(t, y, m), t.q)
  {
    BackwardCong(t, x, y, m, t.depth);
    CongIntro(t.inverse, t.inverse, t.q, 0);
    ScaleCong(t.inverse, t.inverse, Backward(t, x, m, t.depth), Backward(t, y, m, t.depth), t.q);
  }

  lemma InvNttScale(t: Tower, s: int, x: Blocks, m: nat)
    requires OnLevel(t, x, m, t.depth) && OnLevel(t, BlockScale(s, x), m, t.depth)
    ensures InvNtt(t, BlockScale(s, x), m) == Scale(s, InvNtt(t, x, m))
  {
    var b := Backward(t, x, m, t.depth);
    BackwardScale(t, s, x, m, t.depth);
    ScaleScale(t.inverse, s, b);
    ScaleScale(s, t.inverse, b);
  }

  lemma InvNttOfNtt(t: Tower, a: seq<int>, m: nat)
    requires Good(t) && |a| == BlockLen(t, m, 0)
    ensures EqMod(InvNtt(t, Ntt(t, a, m), m), a, t.q)
  {
    var e := t.depth;
    BackwardForward(t, a, m, e);
    CongIntro(t.inverse, t.inverse, t.q, 0);
    ScaleCong(t.inverse, t.inverse, Backward(t, Forward(t, a, m, e), m, e), Scale(Pow2(e), a), t.q);
    ScaleScale(t.inverse, Pow2(e), a);
    EqModRefl(a, t.q);
    ScaleCong(t.inverse * Pow2(e), 1, a, a, t.q);
    assert Scale(1, a) == a;
    EqModTrans(InvNtt(t, Ntt(t, a, m), m), Scale(t.inverse * Pow2(e), a), a, t.q);
  }

  lemma NttOfInvNtt(t: Tower, x: Blocks, m: nat)
    requires Good(t) && OnLevel(t, x, m, t.depth)
    ensures BlocksEq(Ntt(t, InvNtt(t, x, m), m), x, t.q)
  {
    var e := t.depth;
    var b := Backward(t, x, m, e);
    ForwardLinear(t, t.inverse, b, b, m, e);
    ForwardBackward(t, x, m, e);
    CongIntro(t.inverse, t.inverse, t.q, 0);
    BlockScaleCong(t.inverse, t.inverse, Forward(t, b, m, e), BlockScale(Pow2(e), x), t.q);
    BlockScaleScale(t.inverse, Pow2(e), x);
    BlocksRefl(x, t.q);
    BlockScaleCong(t.inverse * Pow2(e), 1, x, x, t.q);
    forall i | 0 <= i < |x|
      ensures BlockScale(1, x)[i] == x[i]
    {}
    assert BlockScale(1, x) == x;
    BlocksTrans(Ntt(t, InvNtt(t, x, m), m), BlockScale(t.inverse * Pow2(e), x), x, t.q);
  }

  /** Multiplying through the transform is multiplication modulo X^n + 1 and q. */
  lemma TimesIsNegacyclic(t: Tower, a: seq<int>, b: seq<int>, m: nat)
    requires Good(t) && m > 0 && |a| == |b| == BlockLen(t, m, 0) > 0
    ensures EqMod(Times(t, Ntt(t, a, m), b, m), Mul(a, b, -1), t.q)
  {
    var p := LevelMul(t, Ntt(t, a, m), Ntt(t, b, m), m, t.depth);
    var c := Ntt(t, Mul(a, b, -1), m);
    ForwardMul(t, a, b, m, t.depth);
    BlocksSym(c, p, t.q);
    InvNttCong(t, p, c, m);
    InvNttOfNtt(t, Mul(a, b, -1), m);
    EqModTrans(InvNtt(t, p, m), InvNtt(t, c, m), Mul(a, b, -1), t.q);
  }

  // ---------- Algebra of Times ----------

  lemma LevelMulCong(t: Tower, x: Blocks, y: Blocks, u: Blocks, v: Blocks, m: nat, e: nat)
    requires t.q > 0 && m > 0 && OnLevel(t, x, m, e) && OnLevel(t, y, m, e) && BlocksEq(x, y, t.q)
    requires OnLevel(t, u, m, e) && OnLevel(t, v, m, e) && BlocksEq(u, v, t.q)
    ensures BlocksEq(LevelMul(t, x, u, m, e), LevelMul(t, y, v, m, e), t.q)
  {
    LevelFits(t, e);
    BlockLenPositive(t, m, e);
    hide Act, EqMod, Cong;
    var l, r := LevelMul(t, x, u, m, e), LevelMul(t, y, v, m, e);
    forall b | 0 <= b < |x|
      ensures EqMod(l[b], r[b], t.q)
    {
      var z := NodeRoot(t, |x| + b);
      CongIntro(z, z, t.q, 0);
      ActCong(x[b], y[b], u[b], v[b], z, z, t.q);
    }
  }

}
