/**
 The products of ML-KEM: a row of transformed polynomials with a transformed vector, accumulated in the transform
 domain, stated in the ring Z[X] / (X^256 + 1) modulo Q.
 */
module KemProducts {
  import opened MachineInts
  import opened Vectors
  import opened Congruence
  import opened PolyRing
  import opened NttTower
  import opened NttTransform
  import opened NttArray
  import opened KemConstants
  import opened KemReduce
  import opened KemPoly
  import opened KemNtt

  /** The transform of a polynomial. */
  ghost function Hat(p: seq<int>): (r: Blocks)
    requires |p| == 256
    ensures OnLevel(T(), r, 2, 7)
  {
    TowerShape();
    Ntt(T(), p, 2)
  }

  /** The polynomial with the transform x. */
  ghost function Unhat(x: Blocks): (p: seq<int>)
    requires OnLevel(T(), x, 2, 7)
    ensures |p| == 256
  {
    TowerShape();
    InvNtt(T(), x, 2)
  }

  /** The polynomial whose transform has the coefficients s. */
  ghost function Source(s: seq<int>): (p: seq<int>)
    requires |s| == 256
    ensures |p| == 256
  {
    PairsOnLevel(s);
    Unhat(Pairs(s))
  }

  /** The array contents r are the transform of p, with room for a product. */
  ghost predicate IsHat(r: seq<int>, p: seq<int>)
  {
    |r| == 256 && |p| == 256 && BlocksEq(Pairs(r), Hat(p), Q) && Bounded(r, 0, 256, 26632)
  }

  ghost function Pointwise(x: Blocks, y: Blocks): (r: Blocks)
    requires OnLevel(T(), x, 2, 7) && OnLevel(T(), y, 2, 7)
    ensures OnLevel(T(), r, 2, 7)
  {
    TowerShape();
    LevelMul(T(), x, y, 2, 7)
  }

  lemma HatCong(a: seq<int>, b: seq<int>)
    requires |a| == 256 && EqMod(a, b, Q)
    ensures |b| == 256 && BlocksEq(Hat(a), Hat(b), Q)
  {
    TowerShape();
    LengthsAgree(a, b);
    hide *;
    HatIs(a);
    HatIs(b);
    ForwardCong(T(), a, b, 2, 7);
  }

  lemma LengthsAgree(a: seq<int>, b: seq<int>)
    requires EqMod(a, b, Q)
    ensures |a| == |b|
  {}

  lemma HatIs(a: seq<int>)
    requires |a| == 256
    ensures |T().roots| == Pow2(7) && BlockLen(T(), 2, 0) == 256 && T().depth == 7 && T().q == Q > 0
    ensures Hat(a) == Forward(T(), a, 2, 7) == Ntt(T(), a, 2)
  {
    TowerShape();
  }

  lemma TransformedIsHat(p: seq<int>, c: seq<int>, r: seq<int>)
    requires |p| == |c| == |r| == 256 && EqMod(c, p, Q)
    requires |T().roots| == Pow2(7) && BlockLen(T(), 2, 0) == 256
    requires Represents(r, Ntt(T(), c, 2), 2, Q) && Bounded(r, 0, 256, 3329 + 7 * 3329)
    ensures IsHat(r, p)
  {
    hide Represents, T, EqMod, Cong, Bounded, Forward, Pairs;
    HatIs(c);
    LeafLevel(Hat(c));
    PairsRepresent(r, Hat(c));
    HatCong(c, p);
    BlocksTrans(Pairs(r), Hat(c), Hat(p), Q);
  }

  // ---------- Product of two polynomials ----------

  lemma PointwiseCong(x: Blocks, y: Blocks, u: Blocks, v: Blocks)
    requires OnLevel(T(), x, 2, 7) && OnLevel(T(), y, 2, 7) && BlocksEq(x, y, Q)
    requires OnLevel(T(), u, 2, 7) && OnLevel(T(), v, 2, 7) && BlocksEq(u, v, Q)
    ensures BlocksEq(Pointwise(x, u), Pointwise(y, v), Q)
  {
    TowerShape();
    LevelMulCong(T(), x, y, u, v, 2, 7);
  }

  lemma UnhatCong(x: Blocks, y: Blocks)
    requires OnLevel(T(), x, 2, 7) && OnLevel(T(), y, 2, 7) && BlocksEq(x, y, Q)
    ensures EqMod(Unhat(x), Unhat(y), Q)
  {
    TowerShape();
    InvNttCong(T(), x, y, 2);
  }

  /** Pointwise products of transforms are transforms of ring products. */
  lemma UnhatOfProduct(a: seq<int>, b: seq<int>)
    requires |a| == |b| == 256
    ensures EqMod(Unhat(Pointwise(Hat(a), Hat(b))), Mul(a, b, -1), Q)
  {
    TowerIsGood();
    TowerShape();
    TimesIsNegacyclic(T(), a, b, 2);
  }

  lemma HatOfUnhat(x: Blocks)
    requires OnLevel(T(), x, 2, 7)
    ensures BlocksEq(Hat(Unhat(x)), x, Q)
  {
    TowerIsGood();
    TowerShape();
    NttOfInvNtt(T(), x, 2);
  }

  /** A pointwise product with an operand given by its transform. */
  lemma UnhatOfSourceProduct(s: seq<int>, b: seq<int>)
    requires |s| == |b| == 256
    ensures OnLevel(T(), Pairs(s), 2, 7)
    ensures EqMod(Unhat(Pointwise(Pairs(s), Hat(b))), Mul(Source(s), b, -1), Q)
  {
    hide *;
    PairsOnLevel(s);
    SourceIs(s);
    var x, a := Pairs(s), Source(s);
    HatOfUnhat(x);
    TowerShape();
    BlocksSym(Hat(a), x, Q);
    BlocksRefl(Hat(b), Q);
    PointwiseCong(x, Hat(a), Hat(b), Hat(b));
    UnhatCong(Pointwise(x, Hat(b)), Pointwise(Hat(a), Hat(b)));
    UnhatOfProduct(a, b);
    EqModTrans(Unhat(Pointwise(x, Hat(b))), Unhat(Pointwise(Hat(a), Hat(b))), Mul(a, b, -1), Q);
  }

  lemma SourceIs(s: seq<int>)
    requires |s| == 256
    ensures OnLevel(T(), Pairs(s), 2, 7) && Source(s) == Unhat(Pairs(s))
  {
    PairsOnLevel(s);
  }

  /** The sum of row[j] * v[j] over j < n, in the ring. */
  ghost function RowProduct(row: Vec, v: Vec, n: nat): (r: seq<int>)
    requires 1 <= n <= |row| && n <= |v| && Polys(row) && Polys(v)
    ensures |r| == 256
  {
    var term := Mul(Source(row[n - 1]), v[n - 1], -1);
    if n == 1 then term else Add(RowProduct(row, v, n - 1), term)
  }

  /** The same sum in the transform domain. */
  ghost function RowAcc(row: Vec, v: Vec, n: nat): (r: Blocks)
    requires 1 <= n <= |row| && n <= |v| && Polys(row) && Polys(v)
    ensures OnLevel(T(), r, 2, 7)
  {
    PairsOnLevel(row[n - 1]);
    var term := Pointwise(Pairs(row[n - 1]), Hat(v[n - 1]));
    if n == 1 then term else LevelAdd(T(), RowAcc(row, v, n - 1), term, 2, 7)
  }

  lemma UnhatAdd(x: Blocks, y: Blocks)
    requires OnLevel(T(), x, 2, 7) && OnLevel(T(), y, 2, 7)
    ensures OnLevel(T(), LevelAdd(T(), x, y, 2, 7), 2, 7)
    ensures Unhat(LevelAdd(T(), x, y, 2, 7)) == Add(Unhat(x), Unhat(y))
  {
    TowerShape();
    BackwardAdd(T(), x, y, 2, 7);
    ScaleAdd(T().inverse, Backward(T(), x, 2, 7), Backward(T(), y, 2, 7));
  }

  /** The row sum in the transform domain transforms back to the row sum in the ring. */
  lemma {:induction false} UnhatOfRow(row: Vec, v: Vec, n: nat)
    requires 1 <= n <= |row| && n <= |v| && Polys(row) && Polys(v)
    ensures EqMod(Unhat(RowAcc(row, v, n)), RowProduct(row, v, n), Q)
  {
    hide Pointwise, Unhat, Hat, Pairs, Source, T, LevelAdd, EqMod, Mul, Act, Add, OnLevel;
    UnhatOfSourceProduct(row[n - 1], v[n - 1]);
    if n > 1 {
      UnhatOfRow(row, v, n - 1);
      var x, y := RowAcc(row, v, n - 1), Pointwise(Pairs(row[n - 1]), Hat(v[n - 1]));
      UnhatAdd(x, y);
      AddCong(Unhat(x), RowProduct(row, v, n - 1), Unhat(y), Mul(Source(row[n - 1]), v[n - 1], -1), Q);
    }
  }

  /** t holds an accumulated row, divided by R as the pointwise products leave it. */
  ghost predicate Holds(t: seq<int>, acc: Blocks)
  {
    |t| == 256 && OnLevel(T(), acc, 2, 7) && BlocksEq(Pairs(t), BlockScale(RINV, acc), Q)
  }

  /** Adding a pointwise product to an accumulated row. */
  lemma HoldsSum(t: seq<int>, c: seq<int>, x: Blocks, y: Blocks)
    requires Holds(t, x) && Holds(c, y)
    ensures Holds(Add(t, c), LevelAdd(T(), x, y, 2, 7))
  {
    TowerShape();
    LeafLevel(x);
    LeafLevel(y);
    hide T, OnLevel, Cong, Pow2;
    var s, z := Add(t, c), LevelAdd(T(), x, y, 2, 7);
    forall b | 0 <= b < 128
      ensures EqMod(Pairs(s)[b], BlockScale(RINV, z)[b], Q)
    {
      assert EqMod(Pairs(t)[b], BlockScale(RINV, x)[b], Q) && EqMod(Pairs(c)[b], BlockScale(RINV, y)[b], Q);
      ScaleAdd(RINV, x[b], y[b]);
      AddCong(Pairs(t)[b], BlockScale(RINV, x)[b], Pairs(c)[b], BlockScale(RINV, y)[b], Q);
    }
  }

  /** Replacing the coefficients by congruent ones. */
  lemma HoldsCong(t: seq<int>, u: seq<int>, x: Blocks)
    requires Holds(u, x) && EqMod(t, u, Q)
    ensures Holds(t, x)
  {
    hide T, OnLevel, Cong, BlockScale;
    forall b | 0 <= b < 128
      ensures EqMod(Pairs(t)[b], Pairs(u)[b], Q)
    {}
    BlocksTrans(Pairs(t), Pairs(u), BlockScale(RINV, x), Q);
  }

  // ---------- Arrays ----------

  /** A copy of a polynomial in a fresh array. */
  method Scratch(s: seq<int>) returns (a: array<int16>)
    requires |s| == 256 && InRange(s, -0x8000, 0x8000)
    ensures fresh(a) && a.Length == 256 && a[..] == s
  {
    a := new int16[256];
    var i := 0;
    while i < 256
      invariant 0 <= i <= 256
      invariant forall j :: 0 <= j < i ==> a[j] == s[j]
    {
      assert -0x8000 <= s[i] < 0x8000;
      a[i] := s[i];
      i := i + 1;
    }
  }

  /** The forward transform of a polynomial below Q in magnitude. */
  method Transform(p: seq<int>) returns (r: seq<int>)
    requires |p| == 256 && InRange(p, -3328, 3329)
    ensures IsHat(r, p)
  {
    hide *;
    SmallFits(p);
    var a := Scratch(p);
    PolyNtt(a, 3329);
    r := a[..];
    EqModRefl(p, Q);
    TransformedIsHat(p, p, r);
  }

  lemma SmallFits(p: seq<int>)
    requires |p| == 256 && InRange(p, -3328, 3329)
    ensures InRange(p, -0x8000, 0x8000) && Bounded(p, 0, 256, 3329) && Q == 3329
  {}

  lemma HatFits(r: seq<int>, p: seq<int>)
    requires IsHat(r, p)
    ensures |r| == |p| == 256 && InRange(r, -0x8000, 0x8000) && Bounded(r, 0, 256, 26632) && Q == 3329
  {
    assert forall i :: 0 <= i < 256 ==> Small(r[i], 26632);
  }

  ghost predicate AreHats(vhat: Vec, v: Vec)
  {
    |vhat| == |v| && forall j :: 0 <= j < |v| ==> IsHat(vhat[j], v[j])
  }

  lemma HatsArePolys(vhat: Vec, v: Vec)
    requires AreHats(vhat, v)
    ensures |vhat| == |v| && Polys(v)
    ensures forall j :: 0 <= j < |v| ==> IsHat(vhat[j], v[j]) && |v[j]| == 256
  {
    forall j | 0 <= j < |v|
      ensures |v[j]| == 256
    {
      assert IsHat(vhat[j], v[j]);
    }
  }

  /** Rows that the basewise product accepts: 12-bit coefficients. */
  ghost predicate Fits12(row: Vec)
  {
    forall j :: 0 <= j < |row| ==> |row[j]| == 256 && InRange(row[j], 0, 4096)
  }

  lemma Fits12At(row: Vec, j: nat)
    requires Fits12(row) && j < |row|
    ensures |row[j]| == 256 && InRange(row[j], -0x8000, 0x8000) && Bounded(row[j], 0, 256, 4096) && Bounded(row[j], 0, 256, 26632) && Polys(row)
  {}

  /** The first n products of a row have been accumulated. */
  ghost predicate Accumulated(t: seq<int>, row: Vec, v: Vec, n: nat)
  {
    && 1 <= n <= |row| && n <= |v| && Polys(row) && Polys(v)
    && Holds(t, RowAcc(row, v, n)) && Bounded(t, 0, 256, 6658)
  }

  /** One basewise product. */
  lemma HoldsProduct(c: seq<int>, a: seq<int>, bhat: seq<int>, b: seq<int>)
    requires ProductsUpTo(c, a, bhat, 128) && IsHat(bhat, b)
    ensures |a| == 256 && OnLevel(T(), Pairs(a), 2, 7) && Holds(c, Pointwise(Pairs(a), Hat(b)))
    ensures Bounded(c, 0, 256, ProductLimit(a)) && (Bounded(a, 0, 256, 4096) ==> Bounded(c, 0, 256, 6658))
  {
    hide OnLevel, Pairs, BlocksEq, BlockScale, Hat, T, Cong, LevelMul, EqMod, BlockProduct;
    BaseMulIsBlockProduct(c, a, bhat);
    PairsOnLevel(a);
    PairsOnLevel(bhat);
    TowerShape();
    BlocksRefl(Pairs(a), Q);
    PointwiseCong(Pairs(a), Pairs(a), Pairs(bhat), Hat(b));
    var x, y := Pointwise(Pairs(a), Pairs(bhat)), Pointwise(Pairs(a), Hat(b));
    CongIntro(RINV, RINV, Q, 0);
    BlockScaleCong(RINV, RINV, x, y, Q);
    BlocksTrans(Pairs(c), BlockScale(RINV, x), BlockScale(RINV, y), Q);
  }

  lemma FirstProduct(c: seq<int>, row: Vec, v: Vec)
    requires |row| > 0 && |v| > 0 && Polys(row) && Polys(v) && Bounded(c, 0, 256, 6658)
    requires OnLevel(T(), Pairs(row[0]), 2, 7) && Holds(c, Pointwise(Pairs(row[0]), Hat(v[0])))
    ensures Accumulated(c, row, v, 1)
  {
    hide Holds, Pointwise, Pairs, Hat, OnLevel, T;
  }

  lemma RowAccStep(row: Vec, v: Vec, n: nat)
    requires 1 <= n < |row| && n < |v| && Polys(row) && Polys(v)
    ensures OnLevel(T(), Pairs(row[n]), 2, 7)
    ensures RowAcc(row, v, n + 1) == LevelAdd(T(), RowAcc(row, v, n), Pointwise(Pairs(row[n]), Hat(v[n])), 2, 7)
  {
    PairsOnLevel(row[n]);
  }

  lemma HoldsLength(t: seq<int>, acc: Blocks)
    requires Holds(t, acc)
    ensures |t| == 256
  {}

  lemma SumFits(x: seq<int>, c: seq<int>)
    requires |x| == |c| == 256 && Bounded(x, 0, 256, 6658) && Bounded(c, 0, 256, 6658)
    ensures InRange(Add(x, c), -0x8000, 0x8000)
  {
    assert forall i :: 0 <= i < 256 ==> Small(x[i], 6658) && Small(c[i], 6658);
  }

  /** Adding a product and reducing. */
  lemma NextProduct(x: seq<int>, c: seq<int>, row: Vec, v: Vec, j: nat)
    requires 0 < j < |row| && j < |v| && Accumulated(x, row, v, j)
    requires Polys(row) && Polys(v) && Bounded(c, 0, 256, 6658)
    requires OnLevel(T(), Pairs(row[j]), 2, 7) && Holds(c, Pointwise(Pairs(row[j]), Hat(v[j])))
    ensures |x| == |c| == 256 && InRange(Add(x, c), -0x8000, 0x8000)
    ensures Holds(Add(x, c), RowAcc(row, v, j + 1))
  {
    HoldsSum(x, c, RowAcc(row, v, j), Pointwise(Pairs(row[j]), Hat(v[j])));
    RowAccStep(row, v, j);
    hide Holds, Pointwise, Pairs, Hat, OnLevel, T, RowAcc, LevelAdd;
    HoldsLength(x, RowAcc(row, v, j));
    HoldsLength(c, Pointwise(Pairs(row[j]), Hat(v[j])));
    SumFits(x, c);
  }

  lemma Reaccumulated(r: seq<int>, s: seq<int>, row: Vec, v: Vec, n: nat)
    requires 1 <= n <= |row| && n <= |v| && Polys(row) && Polys(v) && Holds(s, RowAcc(row, v, n))
    requires EqMod(r, s, Q) && InRange(r, -1664, 1665)
    ensures Accumulated(r, row, v, n) && |r| == 256
  {
    HoldsCong(r, s, RowAcc(row, v, n));
  }

  /** The inner product of a row and a transformed vector: accumulated, reduced to centred residues. */
  method PointwiseAcc(row: Vec, vhat: Vec, k: nat, ghost v: Vec) returns (r: array<int16>)
    requires 0 < k <= 4 && |row| == |vhat| == |v| == k && Fits12(row) && AreHats(vhat, v)
    ensures fresh(r) && r.Length == 256 && Accumulated(r[..], row, v, k) && InRange(r[..], -1664, 1665)
  {
    hide *;
    HatsArePolys(vhat, v);
    Fits12At(row, 0);
    HatFits(vhat[0], v[0]);
    r := new int16[256];
    var a := Scratch(row[0]);
    var b := Scratch(vhat[0]);
    PolyBaseMul(r, a, b);
    HoldsProduct(r[..], row[0], vhat[0], v[0]);
    FirstProduct(r[..], row, v);
    var i := 1;
    while i < k
      invariant 1 <= i <= k && Accumulated(r[..], row, v, i)
    {
      Fits12At(row, i);
      HatFits(vhat[i], v[i]);
      var tmp := new int16[256];
      a := Scratch(row[i]);
      b := Scratch(vhat[i]);
      PolyBaseMul(tmp, a, b);
      HoldsProduct(tmp[..], row[i], vhat[i], v[i]);
      ghost var x: seq<int>, c: seq<int> := r[..], tmp[..];
      NextProduct(x, c, row, v, i);
      PolyAdd(r, r, tmp);
      Reaccumulated(r[..], Add(x, c), row, v, i + 1);
      i := i + 1;
    }
    ghost var s: seq<int> := r[..];
    AccumulatedIs(s, row, v, k);
    PolyReduce(r);
    Reaccumulated(r[..], s, row, v, k);
  }

  lemma AccumulatedIs(t: seq<int>, row: Vec, v: Vec, n: nat)
    requires Accumulated(t, row, v, n)
    ensures 1 <= n <= |row| && n <= |v| && Polys(row) && Polys(v) && Holds(t, RowAcc(row, v, n)) && |t| == 256
  {}

  // ---------- Back to the ring ----------

  lemma CentredFits(t: seq<int>)
    requires |t| == 256 && InRange(t, -1664, 1665)
    ensures LayerFits(t, 64, 2) && Q == 3329
    ensures OnLevel(T(), Pairs(t), 2, 7) && Represents(t, Pairs(t), 2, Q)
  {
    assert Offset(64, 4) == 256 && Bounded(t, 0, 256, 0x4000);
    BoundedFits(t, 64, 2);
    PairsOnLevel(t);
    PairsRepresent(t, Pairs(t));
    BlocksRefl(Pairs(t), Q);
  }

  /** The inverse transform of an accumulated row: the row times the vector, in the ring. */
  method InverseRow(r: array<int16>, ghost row: Vec, ghost v: Vec, ghost k: nat)
    requires r.Length == 256 && Accumulated(r[..], row, v, k) && InRange(r[..], -1664, 1665)
    modifies r
    ensures 1 <= k <= |row| && k <= |v| && Polys(row) && Polys(v)
    ensures EqMod(r[..], RowProduct(row, v, k), Q) && InRange(r[..], -3328, 3329)
  {
    hide *;
    ghost var t: seq<int> := r[..];
    AccumulatedIs(t, row, v, k);
    CentredFits(t);
    PolyInvNtt(r, Pairs(t));
    RowDone(t, r[..], row, v, k);
    BoundedInRange(r[..]);
  }

  /**
   Two polynomials below q in magnitude, transformed, multiplied, reduced and transformed back: the product of the ring.
   All intermediate values fit 16 and 32 bits.
   */
  method MultiplyPolys(a: array<int16>, b: array<int16>) returns (r: array<int16>)
    requires a.Length == b.Length == 256 && a != b && Bounded(a[..], 0, 256, Q) && Bounded(b[..], 0, 256, Q)
    modifies a, b
    ensures fresh(r) && r.Length == 256
    ensures EqMod(r[..], Mul(old(a[..]), old(b[..]), -1), Q) && Bounded(r[..], 0, 256, Q)
  {
    hide *;
    QIs();
    ghost var x: seq<int>, y: seq<int> := a[..], b[..];
    EqModRefl(x, Q);
    EqModRefl(y, Q);
    PolyNtt(a, 3329);
    TransformedIsHat(x, x, a[..]);
    PolyNtt(b, 3329);
    TransformedIsHat(y, y, b[..]);
    r := new int16[256];
    PolyBaseMul(r, a, b);
    ghost var c: seq<int> := r[..];
    HoldsBoth(c, a[..], b[..], x, y);
    PolyReduce(r);
    HoldsCong(r[..], c, Pointwise(Hat(x), Hat(y)));
    CentredFits(r[..]);
    ghost var t: seq<int> := r[..];
    PolyInvNtt(r, Pairs(t));
    ProductDone(t, r[..], x, y);
  }

  lemma HoldsBoth(c: seq<int>, ahat: seq<int>, bhat: seq<int>, a: seq<int>, b: seq<int>)
    requires ProductsUpTo(c, ahat, bhat, 128) && IsHat(ahat, a) && IsHat(bhat, b)
    ensures |a| == |b| == |c| == 256 && OnLevel(T(), Hat(a), 2, 7) && OnLevel(T(), Hat(b), 2, 7)
    ensures Holds(c, Pointwise(Hat(a), Hat(b)))
  {
    hide OnLevel, Pairs, BlocksEq, BlockScale, Hat, T, Cong, LevelMul, EqMod, BlockProduct, Bounded;
    HoldsProduct(c, ahat, bhat, b);
    BlocksRefl(Hat(b), Q);
    PairsOnLevel(ahat);
    PointwiseCong(Pairs(ahat), Hat(a), Hat(b), Hat(b));
    var x, y := Pointwise(Pairs(ahat), Hat(b)), Pointwise(Hat(a), Hat(b));
    CongIntro(RINV, RINV, Q, 0);
    BlockScaleCong(RINV, RINV, x, y, Q);
    BlocksTrans(Pairs(c), BlockScale(RINV, x), BlockScale(RINV, y), Q);
  }

  lemma ProductDone(t: seq<int>, r: seq<int>, a: seq<int>, b: seq<int>)
    requires |a| == |b| == 256 && OnLevel(T(), Hat(a), 2, 7) && OnLevel(T(), Hat(b), 2, 7)
    requires Holds(t, Pointwise(Hat(a), Hat(b)))
    requires OnLevel(T(), Pairs(t), 2, 7) && EqMod(r, Scale(R, InvNtt(T(), Pairs(t), 2)), Q)
    ensures EqMod(r, Mul(a, b, -1), Q)
  {
    hide *;
    var p := Pointwise(Hat(a), Hat(b));
    HoldsIs(t, p);
    FactorsCancel(t, r, p);
    UnhatOfProduct(a, b);
    UnhatIs(p);
    TowerShape();
    EqModTrans(r, Unhat(p), Mul(a, b, -1), Q);
  }

  lemma BoundedInRange(s: seq<int>)
    requires |s| == 256 && Bounded(s, 0, 256, 3329)
    ensures InRange(s, -3328, 3329)
  {
    assert forall i :: 0 <= i < 256 ==> Small(s[i], 3329);
  }

  lemma RTimesRinv()
    ensures Q > 0 && Cong(R * RINV, 1, Q)
  {
    CongIntro(R * RINV, 1, Q, 3327);
  }

  lemma LevelScale(s: int, x: Blocks)
    requires OnLevel(T(), x, 2, 7)
    ensures OnLevel(T(), BlockScale(s, x), 2, 7)
  {}

  lemma RowDone(t: seq<int>, r: seq<int>, row: Vec, v: Vec, k: nat)
    requires 1 <= k <= |row| && k <= |v| && Polys(row) && Polys(v) && Holds(t, RowAcc(row, v, k))
    requires OnLevel(T(), Pairs(t), 2, 7) && EqMod(r, Scale(R, InvNtt(T(), Pairs(t), 2)), Q)
    ensures EqMod(r, RowProduct(row, v, k), Q)
  {
    hide *;
    var acc := RowAcc(row, v, k);
    HoldsIs(t, acc);
    FactorsCancel(t, r, acc);
    UnhatOfRow(row, v, k);
    UnhatIs(acc);
    TowerShape();
    EqModTrans(r, Unhat(acc), RowProduct(row, v, k), Q);
  }

  lemma HoldsIs(t: seq<int>, acc: Blocks)
    requires Holds(t, acc)
    ensures |t| == 256 && OnLevel(T(), acc, 2, 7) && BlocksEq(Pairs(t), BlockScale(RINV, acc), Q)
  {}

  lemma UnhatIs(x: Blocks)
    requires OnLevel(T(), x, 2, 7)
    ensures Unhat(x) == InvNtt(T(), x, 2)
  {}

  /** The factor R of the inverse transform and the factor 1/R of the products cancel. */
  lemma FactorsCancel(c: seq<int>, r: seq<int>, xv: Blocks)
    requires |c| == 256 && OnLevel(T(), xv, 2, 7) && BlocksEq(Pairs(c), BlockScale(RINV, xv), Q)
    requires OnLevel(T(), Pairs(c), 2, 7) && EqMod(r, Scale(R, InvNtt(T(), Pairs(c), 2)), Q)
    ensures EqMod(r, InvNtt(T(), xv, 2), Q)
  {
    hide *;
    TowerShape();
    LevelScale(RINV, xv);
    var w := InvNtt(T(), xv, 2);
    InvNttScale(T(), RINV, xv, 2);
    InvNttCong(T(), Pairs(c), BlockScale(RINV, xv), 2);
    CongIntro(R, R, Q, 0);
    ScaleCong(R, R, InvNtt(T(), Pairs(c), 2), Scale(RINV, w), Q);
    ScaleScale(R, RINV, w);
    EqModRefl(w, Q);
    RTimesRinv();
    ScaleCong(R * RINV, 1, w, w, Q);
    ScaleOne(w);
    EqModTrans(r, Scale(R, InvNtt(T(), Pairs(c), 2)), Scale(R * RINV, w), Q);
    EqModTrans(r, Scale(R * RINV, w), w, Q);
  }

  // ---------- Staying in the transform domain ----------

  /** The canonical coefficients of the transform of a polynomial. */
  ghost function HatSeq(p: seq<int>): (r: seq<int>)
    requires |p| == 256
    ensures |r| == 256 && InRange(r, 0, Q)
  {
    LeafLevel(Hat(p));
    seq(256, i requires 0 <= i < 256 => Hat(p)[i / 2][i % 2] % Q)
  }

  /** Canonical coefficients congruent to the transform are its canonical coefficients. */
  lemma CanonicalHat(r: seq<int>, p: seq<int>)
    requires |r| == |p| == 256 && BlocksEq(Pairs(r), Hat(p), Q) && InRange(r, 0, Q)
    ensures r == HatSeq(p)
  {
    hide *;
    forall i | 0 <= i < 256
      ensures r[i] == HatSeq(p)[i]
    {
      CanonicalHatAt(r, p, i);
    }
  }

  lemma CanonicalHatAt(r: seq<int>, p: seq<int>, i: nat)
    requires |r| == |p| == 256 && i < 256 && BlocksEq(Pairs(r), Hat(p), Q) && InRange(r, 0, Q)
    ensures r[i] == HatSeq(p)[i]
  {
    hide *;
    var b, c := i / 2, i % 2;
    assert i == 2 * b + c;
    PairsEqualAt(Pairs(r), Hat(p), b);
    PairsAt(r, b);
    HatSeqEntry(p, i);
    InRangeAt(r, i);
    CongruentAt(Pairs(r)[b], Hat(p)[b], c);
    CongModEq(r[i], Hat(p)[b][c], Q);
    CanonicalIsItself(r[i]);
  }

  lemma PairsEqualAt(x: Blocks, y: Blocks, b: nat)
    requires BlocksEq(x, y, Q) && b < |x|
    ensures b < |y| && EqMod(x[b], y[b], Q)
  {}

  lemma CongruentAt(a: seq<int>, b: seq<int>, c: nat)
    requires EqMod(a, b, Q) && c < |a|
    ensures c < |b| && Cong(a[c], b[c], Q)
  {}

  lemma InRangeAt(r: seq<int>, i: nat)
    requires InRange(r, 0, Q) && i < |r|
    ensures 0 <= r[i] < Q
  {}

  lemma CanonicalIsItself(x: int)
    requires 0 <= x < Q
    ensures Q > 0 && x % Q == x
  {}

  lemma HatSeqEntry(p: seq<int>, i: nat)
    requires |p| == 256 && i < 256
    ensures |Hat(p)| == 128 && |Hat(p)[i / 2]| == 2 && Q > 0 && HatSeq(p)[i] == Hat(p)[i / 2][i % 2] % Q
  {
    LeafLevel(Hat(p));
    hide Hat, T, OnLevel;
  }

  lemma HatSeqIsHat(p: seq<int>)
    requires |p| == 256
    ensures BlocksEq(Pairs(HatSeq(p)), Hat(p), Q)
  {
    hide *;
    LeafLevel(Hat(p));
    forall b | 0 <= b < 128
      ensures EqMod(Pairs(HatSeq(p))[b], Hat(p)[b], Q)
    {
      HatSeqBlock(p, b);
    }
    MakeBlocksEq(Pairs(HatSeq(p)), Hat(p));
  }

  /** The stored transform of a polynomial is its transform as the standard has it. */
  lemma HatSeqIsTransform(p: seq<int>)
    requires |p| == 256
    ensures IsTransform(HatSeq(p), p)
  {
    hide *;
    HatSeqIsHat(p);
    HatMeans(HatSeq(p), p);
  }

  lemma HatMeans(s: seq<int>, p: seq<int>)
    requires |s| == |p| == 256 && BlocksEq(Pairs(s), Hat(p), Q)
    ensures IsTransform(s, p)
  {
    hide *;
    HatIs(p);
    LeafLevel(Hat(p));
    PairsRepresent(s, Hat(p));
    TransformMeans(s, p);
  }

  /** And the polynomial behind a stored transform has that transform. */
  lemma SourceIsTransform(s: seq<int>)
    requires |s| == 256
    ensures IsTransform(s, Source(s))
  {
    hide *;
    SourceIs(s);
    HatOfUnhat(Pairs(s));
    QIs();
    BlocksSym(Hat(Source(s)), Pairs(s), Q);
    HatMeans(s, Source(s));
  }

  lemma HatSeqBlock(p: seq<int>, b: nat)
    requires |p| == 256 && b < 128
    ensures |Hat(p)| == 128 && EqMod(Pairs(HatSeq(p))[b], Hat(p)[b], Q)
  {
    hide *;
    HatSeqAt(p, b);
    PairsAt(HatSeq(p), b);
    CanonicalPair(Pairs(HatSeq(p))[b], Hat(p)[b]);
  }

  lemma PairsAt(s: seq<int>, b: nat)
    requires |s| == 256 && b < 128
    ensures Pairs(s)[b] == [s[2 * b], s[2 * b + 1]]
  {}

  lemma CanonicalPair(u: seq<int>, x: seq<int>)
    requires |x| == 2 && u == [x[0] % Q, x[1] % Q]
    ensures EqMod(u, x, Q)
  {
    hide Cong;
    CongMod(x[0], Q);
    CongMod(x[1], Q);
  }

  lemma HatSeqAt(p: seq<int>, b: nat)
    requires |p| == 256 && b < 128
    ensures |Hat(p)| == 128 && |Hat(p)[b]| == 2
    ensures HatSeq(p)[2 * b] == Hat(p)[b][0] % Q && HatSeq(p)[2 * b + 1] == Hat(p)[b][1] % Q
  {
    hide *;
    HatSeqEntry(p, 2 * b);
    HatSeqEntry(p, 2 * b + 1);
    assert (2 * b) / 2 == b && (2 * b) % 2 == 0 && (2 * b + 1) / 2 == b && (2 * b + 1) % 2 == 1;
  }

  /** The polynomial behind the canonical coefficients of a transform. */
  lemma SourceOfHatSeq(p: seq<int>)
    requires |p| == 256
    ensures EqMod(Source(HatSeq(p)), p, Q)
  {
    hide *;
    var h := HatSeq(p);
    HatSeqIsHat(p);
    SourceIs(h);
    UnhatCong(Pairs(h), Hat(p));
    UnhatOfHat(p);
    TowerShape();
    EqModTrans(Source(h), Unhat(Hat(p)), p, Q);
  }

  lemma UnhatOfHat(p: seq<int>)
    requires |p| == 256
    ensures EqMod(Unhat(Hat(p)), p, Q)
  {
    TowerIsGood();
    TowerShape();
    InvNttOfNtt(T(), p, 2);
  }

  lemma HatAdd(a: seq<int>, b: seq<int>)
    requires |a| == |b| == 256
    ensures Hat(Add(a, b)) == LevelAdd(T(), Hat(a), Hat(b), 2, 7)
  {
    TowerShape();
    ForwardLinear(T(), 0, a, b, 2, 7);
  }

  /** The transform of a row product is the accumulated row. */
  lemma HatOfRow(row: Vec, v: Vec, n: nat)
    requires 1 <= n <= |row| && n <= |v| && Polys(row) && Polys(v)
    ensures BlocksEq(Hat(RowProduct(row, v, n)), RowAcc(row, v, n), Q)
  {
    hide *;
    var acc := RowAcc(row, v, n);
    UnhatOfRow(row, v, n);
    HatCong(Unhat(acc), RowProduct(row, v, n));
    HatOfUnhat(acc);
    TowerShape();
    BlocksSym(Hat(Unhat(acc)), Hat(RowProduct(row, v, n)), Q);
    BlocksTrans(Hat(RowProduct(row, v, n)), Hat(Unhat(acc)), acc, Q);
  }

  /** Multiplying an accumulated row by R removes the factor 1/R. */
  lemma TimesR(r: seq<int>, t: seq<int>, acc: Blocks)
    requires Holds(t, acc) && EqMod(r, Scale(R, t), Q)
    ensures |r| == 256 && BlocksEq(Pairs(r), acc, Q)
  {
    TowerShape();
    LeafLevel(acc);
    hide T, OnLevel, Pow2;
    forall b | 0 <= b < 128
      ensures EqMod(Pairs(r)[b], acc[b], Q)
    {
      hide Cong;
      var x := acc[b];
      assert EqMod(Pairs(t)[b], Scale(RINV, x), Q);
      CongIntro(R, R, Q, 0);
      ScaleCong(R, R, Pairs(t)[b], Scale(RINV, x), Q);
      ScaleScale(R, RINV, x);
      EqModRefl(x, Q);
      RTimesRinv();
      ScaleCong(R * RINV, 1, x, x, Q);
      ScaleOne(x);
      assert EqMod(Pairs(r)[b], Scale(R, Pairs(t)[b]), Q);
      EqModTrans(Pairs(r)[b], Scale(R, Pairs(t)[b]), Scale(R * RINV, x), Q);
      EqModTrans(Pairs(r)[b], Scale(R * RINV, x), x, Q);
    }
  }

  /** The sum of two states held as pairs. */
  lemma PairsSum(r: seq<int>, a: seq<int>, b: seq<int>, x: Blocks, y: Blocks)
    requires |a| == |b| == 256 && OnLevel(T(), x, 2, 7) && OnLevel(T(), y, 2, 7)
    requires BlocksEq(Pairs(a), x, Q) && BlocksEq(Pairs(b), y, Q) && EqMod(r, Add(a, b), Q)
    ensures |r| == 256 && BlocksEq(Pairs(r), LevelAdd(T(), x, y, 2, 7), Q)
  {
    TowerShape();
    LeafLevel(x);
    LeafLevel(y);
    hide T, OnLevel, Pow2;
    var z := LevelAdd(T(), x, y, 2, 7);
    forall n | 0 <= n < 128
      ensures EqMod(Pairs(r)[n], z[n], Q)
    {
      hide Cong;
      assert EqMod(Pairs(a)[n], x[n], Q) && EqMod(Pairs(b)[n], y[n], Q);
      AddCong(Pairs(a)[n], x[n], Pairs(b)[n], y[n], Q);
      assert EqMod(Pairs(r)[n], Add(Pairs(a)[n], Pairs(b)[n]), Q);
      EqModTrans(Pairs(r)[n], Add(Pairs(a)[n], Pairs(b)[n]), z[n], Q);
    }
  }
}
