/**
 The products of ML-DSA: a small polynomial with a key polynomial, and the public matrix with a vector, both
 computed through the transform and both stated in the ring Z[X] / (X^256 + 1) modulo Q.
 */
module DsaProducts {
  import opened MachineInts
  import opened Vectors
  import opened Congruence
  import opened PolyRing
  import opened NttTower
  import opened NttTransform
  import opened NttArray
  import opened DsaConstants
  import opened DsaReduce
  import opened DsaPoly
  import opened DsaNtt
  import DsaLayers
  import opened DsaModel

  /** The transform of a polynomial. */
  ghost function Hat(p: seq<int>): (r: Blocks)
    requires |p| == 256
    ensures OnLevel(T(), r, 1, 8)
  {
    TowerShape();
    Ntt(T(), p, 1)
  }

  /** The polynomial with the transform x. */
  ghost function Unhat(x: Blocks): (p: seq<int>)
    requires OnLevel(T(), x, 1, 8)
    ensures |p| == 256
  {
    TowerShape();
    InvNtt(T(), x, 1)
  }

  /** The polynomial whose transform has the coefficients s. */
  ghost function Source(s: seq<int>): (p: seq<int>)
    requires |s| == 256
    ensures |p| == 256
  {
    LeavesOnLevel(s);
    Unhat(Leaves(s))
  }

  /** The array contents r are the transform of p, with room for a product. */
  ghost predicate IsHat(r: seq<int>, p: seq<int>)
  {
    |r| == 256 && |p| == 256 && BlocksEq(Leaves(r), Hat(p), Q) && Bounded(r, 0, 256, 9 * Q)
  }

  ghost function Pointwise(x: Blocks, y: Blocks): (r: Blocks)
    requires OnLevel(T(), x, 1, 8) && OnLevel(T(), y, 1, 8)
    ensures OnLevel(T(), r, 1, 8)
  {
    TowerShape();
    LevelMul(T(), x, y, 1, 8)
  }

  // ---------- Transform of one polynomial ----------

  lemma HatCong(a: seq<int>, b: seq<int>)
    requires |a| == 256 && EqMod(a, b, Q)
    ensures |b| == 256 && BlocksEq(Hat(a), Hat(b), Q)
  {
    TowerShape();
    LengthsAgree(a, b);
    hide *;
    HatIs(a);
    HatIs(b);
    ForwardCong(T(), a, b, 1, 8);
  }

  lemma LengthsAgree(a: seq<int>, b: seq<int>)
    requires EqMod(a, b, Q)
    ensures |a| == |b|
  {}

  lemma HatIs(a: seq<int>)
    requires |a| == 256
    ensures |T().roots| == Pow2(8) && BlockLen(T(), 1, 0) == 256 && T().depth == 8 && T().q == Q > 0
    ensures Hat(a) == Forward(T(), a, 1, 8) == Ntt(T(), a, 1)
  {
    TowerShape();
  }

  /** Make the coefficients non-negative and transform. */
  method Transform(p: seq<int>) returns (r: seq<int>)
    requires |p| == 256 && InRange(p, -Q, Q)
    ensures IsHat(r, p)
  {
    var a := new int32[256];
    var i := 0;
    assert Q == 8380417;
    hide Represents, Hat, Leaves, BlocksEq, T, EqMod, Cong, Bounded, Forward;
    while i < 256
      invariant 0 <= i <= 256
      invariant forall j :: 0 <= j < i ==> a[j] == p[j]
    {
      assert -8380417 <= p[i] < 8380417;
      a[i] := p[i];
      i := i + 1;
    }
    assert a[..] == p;
    PolyCaddQ(a);
    ghost var c: seq<int> := a[..];
    RangeIsBounded(c, Q);
    PolyNtt(a, Q);
    r := a[..];
    TransformedIsHat(p, c, r);
  }

  lemma RangeIsBounded(s: seq<int>, bound: int)
    requires InRange(s, 0, bound)
    ensures Bounded(s, 0, |s|, bound)
  {}

  lemma TransformedIsHat(p: seq<int>, c: seq<int>, r: seq<int>)
    requires |p| == |c| == |r| == 256 && EqMod(c, p, Q)
    requires |T().roots| == Pow2(8) && BlockLen(T(), 1, 0) == 256
    requires Represents(r, Ntt(T(), c, 1), 1, Q) && Bounded(r, 0, 256, Q + 8 * Q)
    ensures IsHat(r, p)
  {
    hide Represents, T, EqMod, Cong, Bounded, Forward, Leaves;
    HatIs(c);
    LeafLevel(Hat(c));
    LeavesRepresent(r, Hat(c));
    HatCong(c, p);
    BlocksTrans(Leaves(r), Hat(c), Hat(p), Q);
  }

  // ---------- Product of two polynomials ----------

  lemma PointwiseCong(x: Blocks, y: Blocks, u: Blocks, v: Blocks)
    requires OnLevel(T(), x, 1, 8) && OnLevel(T(), y, 1, 8) && BlocksEq(x, y, Q)
    requires OnLevel(T(), u, 1, 8) && OnLevel(T(), v, 1, 8) && BlocksEq(u, v, Q)
    ensures BlocksEq(Pointwise(x, u), Pointwise(y, v), Q)
  {
    TowerShape();
    LevelMulCong(T(), x, y, u, v, 1, 8);
  }

  lemma UnhatCong(x: Blocks, y: Blocks)
    requires OnLevel(T(), x, 1, 8) && OnLevel(T(), y, 1, 8) && BlocksEq(x, y, Q)
    ensures EqMod(Unhat(x), Unhat(y), Q)
  {
    TowerShape();
    InvNttCong(T(), x, y, 1);
  }

  /** Pointwise products of transforms are transforms of ring products. */
  lemma UnhatOfProduct(a: seq<int>, b: seq<int>)
    requires |a| == |b| == 256
    ensures EqMod(Unhat(Pointwise(Hat(a), Hat(b))), Mul(a, b, -1), Q)
  {
    TowerIsGood();
    TowerShape();
    TimesIsNegacyclic(T(), a, b, 1);
  }

  lemma HatOfUnhat(x: Blocks)
    requires OnLevel(T(), x, 1, 8)
    ensures BlocksEq(Hat(Unhat(x)), x, Q)
  {
    TowerIsGood();
    TowerShape();
    NttOfInvNtt(T(), x, 1);
  }

  /** A pointwise product with an operand given by its transform. */
  lemma UnhatOfSourceProduct(s: seq<int>, b: seq<int>)
    requires |s| == |b| == 256
    ensures OnLevel(T(), Leaves(s), 1, 8)
    ensures EqMod(Unhat(Pointwise(Leaves(s), Hat(b))), Mul(Source(s), b, -1), Q)
  {
    hide *;
    LeavesOnLevel(s);
    SourceIs(s);
    var x, a := Leaves(s), Source(s);
    HatOfUnhat(x);
    TowerShape();
    BlocksSym(Hat(a), x, Q);
    BlocksRefl(Hat(b), Q);
    PointwiseCong(x, Hat(a), Hat(b), Hat(b));
    UnhatCong(Pointwise(x, Hat(b)), Pointwise(Hat(a), Hat(b)));
    UnhatOfProduct(a, b);
    EqModTrans(Unhat(Pointwise(x, Hat(b))), Unhat(Pointwise(Hat(a), Hat(b))), Mul(a, b, -1), Q);
  }

  lemma SourceIs(s: seq<int>)
    requires |s| == 256
    ensures OnLevel(T(), Leaves(s), 1, 8) && Source(s) == Unhat(Leaves(s))
  {
    LeavesOnLevel(s);
  }

  /** The polynomial behind stored coefficients has them as its transform, in the sense of the standard. */
  lemma SourceIsTransform(s: seq<int>)
    requires |s| == 256
    ensures IsTransform(s, Source(s))
  {
    hide *;
    TowerShape();
    SourceIs(s);
    HatOfUnhat(Leaves(s));
    HatIs(Source(s));
    LeavesOfHat(s, Hat(Source(s)));
    TransformMeans(s, Source(s));
  }

  lemma LeavesOfHat(s: seq<int>, x: Blocks)
    requires |s| == 256 && OnLevel(T(), x, 1, 8) && BlocksEq(x, Leaves(s), Q)
    ensures Represents(s, x, 1, Q)
  {
    TowerShape();
    BlocksSym(x, Leaves(s), Q);
    LeavesRepresent(s, x);
    hide T, BlocksEq, Represents, Leaves;
  }

  /** A copy of a polynomial in a fresh array. */
  method Scratch(s: seq<int>) returns (a: array<int32>)
    requires |s| == 256 && InRange(s, -0x8000_0000, 0x8000_0000)
    ensures fresh(a) && a.Length == 256 && a[..] == s
  {
    a := new int32[256];
    var i := 0;
    while i < 256
      invariant 0 <= i <= 256
      invariant forall j :: 0 <= j < i ==> a[j] == s[j]
    {
      assert -0x8000_0000 <= s[i] < 0x8000_0000;
      a[i] := s[i];
      i := i + 1;
    }
  }

  lemma HatFits(r: seq<int>, p: seq<int>)
    requires IsHat(r, p)
    ensures |r| == |p| == 256 && InRange(r, -0x8000_0000, 0x8000_0000) && Bounded(r, 0, 256, 9 * Q)
    ensures Represents(r, Hat(p), 1, Q)
  {
    assert forall i :: 0 <= i < 256 ==> Small(r[i], 9 * Q);
    LeafLevel(Hat(p));
    LeavesRepresent(r, Hat(p));
  }

  /** Pointwise product and inverse transform of two transformed polynomials: the product of the ring. */
  method Product(chat: seq<int>, vhat: seq<int>, ghost c: seq<int>, ghost v: seq<int>) returns (r: array<int32>)
    requires IsHat(chat, c) && IsHat(vhat, v)
    ensures fresh(r) && r.Length == 256
    ensures EqMod(r[..], Mul(c, v, -1), Q) && Bounded(r[..], 0, 256, 4211198)
  {
    hide *;
    HatFits(chat, c);
    HatFits(vhat, v);
    HatIs(c);
    HatIs(v);
    var a := Scratch(chat);
    var b := Scratch(vhat);
    r := new int32[256];
    PolyTimes(r, a, b, Hat(c), v);
    ProductIs(r[..], c, v);
  }

  lemma ProductIs(r: seq<int>, c: seq<int>, v: seq<int>)
    requires |c| == |v| == 256 && |T().roots| == Pow2(8) && BlockLen(T(), 1, 0) == 256
    requires EqMod(r, Times(T(), Hat(c), v, 1), Q)
    ensures EqMod(r, Mul(c, v, -1), Q)
  {
    hide *;
    TimesIs(c, v);
    UnhatOfProduct(c, v);
    TowerShape();
    EqModTrans(r, Unhat(Pointwise(Hat(c), Hat(v))), Mul(c, v, -1), Q);
  }

  lemma TimesIs(c: seq<int>, v: seq<int>)
    requires |c| == |v| == 256 && |T().roots| == Pow2(8) && BlockLen(T(), 1, 0) == 256
    ensures Times(T(), Hat(c), v, 1) == Unhat(Pointwise(Hat(c), Hat(v)))
  {
    TimesUnfolds(Hat(c), v);
  }

  // ---------- Matrix times vector ----------

  /** The sum of row[j] * v[j] over j < n, in the ring. */
  ghost function RowProduct(row: Vec, v: Vec, n: nat): (r: seq<int>)
    requires 1 <= n <= |row| && n <= |v| && Polys(row) && Polys(v)
    ensures |r| == 256
  {
    var term := Mul(Source(row[n - 1]), v[n - 1], -1);
    if n == 1 then term else Add(RowProduct(row, v, n - 1), term)
  }

  /** The same sum in the transform domain. */
  ghost function RowAcc(row: Vec, v: Vec, n: nat): (r: Blocks)
    requires 1 <= n <= |row| && n <= |v| && Polys(row) && Polys(v)
    ensures OnLevel(T(), r, 1, 8)
  {
    LeavesOnLevel(row[n - 1]);
    var term := Pointwise(Leaves(row[n - 1]), Hat(v[n - 1]));
    if n == 1 then term else LevelAdd(T(), RowAcc(row, v, n - 1), term, 1, 8)
  }

  lemma UnhatAdd(x: Blocks, y: Blocks)
    requires OnLevel(T(), x, 1, 8) && OnLevel(T(), y, 1, 8)
    ensures OnLevel(T(), LevelAdd(T(), x, y, 1, 8), 1, 8)
    ensures Unhat(LevelAdd(T(), x, y, 1, 8)) == Add(Unhat(x), Unhat(y))
  {
    TowerShape();
    BackwardAdd(T(), x, y, 1, 8);
    ScaleAdd(T().inverse, Backward(T(), x, 1, 8), Backward(T(), y, 1, 8));
  }

  /** The row sum in the transform domain transforms back to the row sum in the ring. */
  lemma {:induction false} UnhatOfRow(row: Vec, v: Vec, n: nat)
    requires 1 <= n <= |row| && n <= |v| && Polys(row) && Polys(v)
    ensures EqMod(Unhat(RowAcc(row, v, n)), RowProduct(row, v, n), Q)
  {
    hide Pointwise, Unhat, Hat, Leaves, Source, T, LevelAdd, EqMod, Mul, Act, Add, OnLevel;
    UnhatOfSourceProduct(row[n - 1], v[n - 1]);
    if n > 1 {
      UnhatOfRow(row, v, n - 1);
      var x, y := RowAcc(row, v, n - 1), Pointwise(Leaves(row[n - 1]), Hat(v[n - 1]));
      UnhatAdd(x, y);
      AddCong(Unhat(x), RowProduct(row, v, n - 1), Unhat(y), Mul(Source(row[n - 1]), v[n - 1], -1), Q);
    }
  }

  /** t holds an accumulated row, divided by R as the pointwise products leave it. */
  ghost predicate Holds(t: seq<int>, acc: Blocks)
  {
    |t| == 256 && OnLevel(T(), acc, 1, 8) && BlocksEq(Leaves(t), BlockScale(RINV, acc), Q)
  }

  /** One pointwise product. */
  lemma HoldsProduct(c: seq<int>, a: seq<int>, bhat: seq<int>, b: seq<int>)
    requires |c| == |a| == 256 && IsHat(bhat, b)
    requires forall i :: 0 <= i < 256 ==> Cong(c[i], a[i] * bhat[i] * RINV, Q)
    ensures OnLevel(T(), Leaves(a), 1, 8) && Holds(c, Pointwise(Leaves(a), Hat(b)))
  {
    hide OnLevel, Leaves, BlocksEq, BlockScale, Hat, T, Cong, LevelMul, EqMod, Bounded;
    PointwiseIsLeafProduct(c, a, bhat);
    LeavesOnLevel(a);
    LeavesOnLevel(bhat);
    TowerShape();
    BlocksRefl(Leaves(a), Q);
    PointwiseCong(Leaves(a), Leaves(a), Leaves(bhat), Hat(b));
    var x, y := Pointwise(Leaves(a), Leaves(bhat)), Pointwise(Leaves(a), Hat(b));
    CongIntro(RINV, RINV, Q, 0);
    BlockScaleCong(RINV, RINV, x, y, Q);
    BlocksTrans(Leaves(c), BlockScale(RINV, x), BlockScale(RINV, y), Q);
  }

  /** Adding a pointwise product to an accumulated row. */
  lemma HoldsSum(t: seq<int>, c: seq<int>, x: Blocks, y: Blocks)
    requires Holds(t, x) && Holds(c, y)
    ensures Holds(Add(t, c), LevelAdd(T(), x, y, 1, 8))
  {
    TowerShape();
    LeafLevel(x);
    LeafLevel(y);
    hide T, OnLevel, Cong, Pow2;
    var s, z := Add(t, c), LevelAdd(T(), x, y, 1, 8);
    forall b | 0 <= b < 256
      ensures EqMod(Leaves(s)[b], BlockScale(RINV, z)[b], Q)
    {
      assert EqMod(Leaves(t)[b], BlockScale(RINV, x)[b], Q) && EqMod(Leaves(c)[b], BlockScale(RINV, y)[b], Q);
      ScaleAdd(RINV, x[b], y[b]);
      AddCong(Leaves(t)[b], BlockScale(RINV, x)[b], Leaves(c)[b], BlockScale(RINV, y)[b], Q);
    }
  }

  /** Replacing the coefficients by congruent ones. */
  lemma HoldsCong(t: seq<int>, u: seq<int>, x: Blocks)
    requires Holds(u, x) && EqMod(t, u, Q)
    ensures Holds(t, x)
  {
    hide T, OnLevel, Cong, BlockScale;
    forall b | 0 <= b < 256
      ensures EqMod(Leaves(t)[b], Leaves(u)[b], Q)
    {}
    BlocksTrans(Leaves(t), Leaves(u), BlockScale(RINV, x), Q);
  }

  /** The first n products of a row have been accumulated, each adding less than Q. */
  ghost predicate Accumulated(t: seq<int>, row: Vec, v: Vec, n: nat)
  {
    && 1 <= n <= |row| && n <= |v| && Polys(row) && Polys(v)
    && Holds(t, RowAcc(row, v, n)) && Bounded(t, 0, 256, 8380417 * n)
  }

  /** t is row i of the matrix product, reduced. */
  ghost predicate IsMatrixRow(t: seq<int>, o: Oracle, rho: seq<uint8>, i: nat, v: Vec)
  {
    && |v| >= 1 && Polys(v)
    && Holds(t, RowAcc(o.Row(rho, i, |v|), v, |v|)) && InRange(t, -6283009, 6283009)
  }

  ghost predicate AreHats(shat: Vec, s: Vec)
  {
    |shat| == |s| && forall j :: 0 <= j < |s| ==> IsHat(shat[j], s[j])
  }

  /** Row i of the public matrix times the transformed vector, accumulated and reduced in the transform domain. */
  method MatrixRow(o: Oracle, rho: seq<uint8>, i: nat, shat: Vec, l: nat, ghost s: Vec) returns (t: seq<int>)
    requires 0 < l <= 7 && |shat| == |s| == l && AreHats(shat, s)
    ensures IsMatrixRow(t, o, rho, i, s)
  {
    hide *;
    ghost var row := o.Row(rho, i, l);
    RowIsPolys(o, rho, i, l);
    HatsArePolys(shat, s);
    var acc, tmp := new int32[256], new int32[256];
    var j := 0;
    while j < l
      invariant 0 <= j <= l
      invariant j > 0 ==> Accumulated(acc[..], row, s, j)
    {
      EntryFits(o, rho, i, j, l);
      HatFits(shat[j], s[j]);
      var a := Scratch(o.Entry(rho, i, j));
      var b := Scratch(shat[j]);
      PolyPointwise(tmp, a, b);
      ghost var c, x: seq<int> := tmp[..], acc[..];
      HoldsProduct(c, row[j], shat[j], s[j]);
      if j == 0 {
        CopyPoly(acc, tmp);
        FirstProduct(c, row, s);
      } else {
        NextProduct(x, c, row, s, j);
        PolyAdd(acc, acc, tmp);
      }
      j := j + 1;
    }
    ghost var u: seq<int> := acc[..];
    AccumulatedFits(u, row, s, l);
    PolyReduce(acc);
    t := acc[..];
    RowReduced(t, u, o, rho, i, s);
  }

  method CopyPoly(r: array<int32>, a: array<int32>)
    requires r.Length == a.Length == 256
    modifies r
    ensures r[..] == old(a[..])
  {
    ghost var c := a[..];
    var n := 0;
    while n < 256
      invariant 0 <= n <= 256
      invariant forall i :: 0 <= i < n ==> r[i] == c[i]
      invariant forall i :: n <= i < 256 ==> a[i] == c[i]
    {
      r[n] := a[n];
      n := n + 1;
    }
  }

  lemma RowIsPolys(o: Oracle, rho: seq<uint8>, i: nat, l: nat)
    ensures Polys(o.Row(rho, i, l))
    ensures forall j :: 0 <= j < l ==> |o.Row(rho, i, l)[j]| == 256
  {}

  lemma HatsArePolys(shat: Vec, s: Vec)
    requires AreHats(shat, s)
    ensures Polys(s) && Q == 8380417
    ensures forall j :: 0 <= j < |s| ==> IsHat(shat[j], s[j]) && |s[j]| == 256
  {
    forall j | 0 <= j < |s|
      ensures |s[j]| == 256
    {
      assert IsHat(shat[j], s[j]);
    }
  }

  lemma EntryFits(o: Oracle, rho: seq<uint8>, i: nat, j: nat, l: nat)
    requires j < l
    ensures o.Row(rho, i, l)[j] == o.Entry(rho, i, j) && |o.Entry(rho, i, j)| == 256
    ensures InRange(o.Entry(rho, i, j), -0x8000_0000, 0x8000_0000) && Bounded(o.Entry(rho, i, j), 0, 256, 9 * Q)
  {}

  lemma FirstProduct(c: seq<int>, row: Vec, v: Vec)
    requires |row| > 0 && |v| > 0 && Polys(row) && Polys(v) && Bounded(c, 0, 256, Q)
    requires OnLevel(T(), Leaves(row[0]), 1, 8) && Holds(c, Pointwise(Leaves(row[0]), Hat(v[0])))
    ensures Accumulated(c, row, v, 1)
  {
    hide Holds, Pointwise, Leaves, Hat, OnLevel, T;
  }

  lemma NextProduct(x: seq<int>, c: seq<int>, row: Vec, v: Vec, j: nat)
    requires 0 < j < 7 && j < |row| && j < |v| && Accumulated(x, row, v, j)
    requires Polys(row) && Polys(v) && Bounded(c, 0, 256, Q)
    requires OnLevel(T(), Leaves(row[j]), 1, 8) && Holds(c, Pointwise(Leaves(row[j]), Hat(v[j])))
    ensures |x| == |c| == 256 && InRange(Add(x, c), -0x8000_0000, 0x8000_0000)
    ensures Accumulated(Add(x, c), row, v, j + 1)
  {
    HoldsSum(x, c, RowAcc(row, v, j), Pointwise(Leaves(row[j]), Hat(v[j])));
    RowAccStep(row, v, j);
    hide Holds, Pointwise, Leaves, Hat, OnLevel, T, RowAcc, LevelAdd;
    HoldsLength(x, RowAcc(row, v, j));
    HoldsLength(c, Pointwise(Leaves(row[j]), Hat(v[j])));
    SumFits(x, c, 8380417 * j);
  }

  lemma HoldsLength(t: seq<int>, acc: Blocks)
    requires Holds(t, acc)
    ensures |t| == 256
  {}

  lemma RowAccStep(row: Vec, v: Vec, n: nat)
    requires 1 <= n < |row| && n < |v| && Polys(row) && Polys(v)
    ensures OnLevel(T(), Leaves(row[n]), 1, 8)
    ensures RowAcc(row, v, n + 1) == LevelAdd(T(), RowAcc(row, v, n), Pointwise(Leaves(row[n]), Hat(v[n])), 1, 8)
  {
    LeavesOnLevel(row[n]);
  }

  lemma SumFits(x: seq<int>, c: seq<int>, bound: int)
    requires |x| == |c| == 256 && Bounded(x, 0, 256, bound) && Bounded(c, 0, 256, Q) && bound <= 0x7000_0000
    ensures InRange(Add(x, c), -0x8000_0000, 0x8000_0000) && Bounded(Add(x, c), 0, 256, bound + 8380417)
  {
    assert forall i :: 0 <= i < 256 ==> Small(x[i], bound) && Small(c[i], Q);
  }

  lemma AccumulatedFits(t: seq<int>, row: Vec, v: Vec, l: nat)
    requires l <= 7 && Accumulated(t, row, v, l)
    ensures InRange(t, -0x8000_0000, 0x7FC0_0000)
  {
    assert forall i :: 0 <= i < 256 ==> Small(t[i], 8380417 * l);
  }

  lemma RowReduced(t: seq<int>, u: seq<int>, o: Oracle, rho: seq<uint8>, i: nat, v: Vec)
    requires |v| > 0 && Polys(v) && Accumulated(u, o.Row(rho, i, |v|), v, |v|)
    requires EqMod(t, u, Q) && InRange(t, -6283009, 6283009)
    ensures IsMatrixRow(t, o, rho, i, v)
  {
    HoldsCong(t, u, RowAcc(o.Row(rho, i, |v|), v, |v|));
  }

  /** The public matrix times a transformed vector, in the transform domain. */
  method ExpandMatrixMul(o: Oracle, rho: seq<uint8>, shat: Vec, k: nat, l: nat, ghost s: Vec) returns (t: Vec)
    requires 0 < k <= 8 && 0 < l <= 7 && |shat| == |s| == l && AreHats(shat, s)
    ensures |t| == k && forall i :: 0 <= i < k ==> IsMatrixRow(t[i], o, rho, i, s)
  {
    hide *;
    t := [];
    var i := 0;
    while i < k
      invariant 0 <= i <= k && |t| == i
      invariant forall n :: 0 <= n < i ==> IsMatrixRow(t[n], o, rho, n, s)
    {
      var row := MatrixRow(o, rho, i, shat, l, s);
      t := t + [row];
      i := i + 1;
    }
  }

  /** Row i of the matrix product A v, in the ring. */
  ghost function MatrixTimes(o: Oracle, rho: seq<uint8>, i: nat, v: Vec): (r: seq<int>)
    requires |v| >= 1 && Polys(v)
    ensures |r| == 256
  {
    RowProduct(o.Row(rho, i, |v|), v, |v|)
  }

  /** The inverse transform of an accumulated row: the row times the vector, in the ring. */
  method InverseRow(t: seq<int>, ghost o: Oracle, ghost rho: seq<uint8>, ghost i: nat, ghost v: Vec)
    returns (r: array<int32>)
    requires IsMatrixRow(t, o, rho, i, v)
    ensures |v| >= 1 && Polys(v) && fresh(r) && r.Length == 256
    ensures EqMod(r[..], MatrixTimes(o, rho, i, v), Q) && Bounded(r[..], 0, 256, 4211198)
  {
    hide *;
    ghost var row := RowOf(t, o, rho, i, v);
    HoldsFits(t, RowAcc(row, v, |v|));
    r := Scratch(t);
    DsaLayers.BoundedFits(t, Q);
    PolyInvNtt(r, Leaves(t));
    RowDone(t, r[..], row, v, |v|);
  }

  lemma RowOf(t: seq<int>, o: Oracle, rho: seq<uint8>, i: nat, v: Vec) returns (row: Vec)
    requires IsMatrixRow(t, o, rho, i, v)
    ensures |v| >= 1 && |row| == |v| && Polys(row) && Polys(v) && Holds(t, RowAcc(row, v, |v|))
    ensures InRange(t, -6283009, 6283009) && MatrixTimes(o, rho, i, v) == RowProduct(row, v, |v|)
  {
    row := o.Row(rho, i, |v|);
    RowIsPolys(o, rho, i, |v|);
    hide Holds, RowAcc, RowProduct;
  }

  lemma HoldsFits(t: seq<int>, acc: Blocks)
    requires Holds(t, acc) && InRange(t, -6283009, 6283009)
    ensures |t| == 256 && InRange(t, -0x8000_0000, 0x8000_0000) && Bounded(t, 0, 256, Q)
    ensures OnLevel(T(), Leaves(t), 1, 8) && Represents(t, Leaves(t), 1, Q) && Q == 8380417
  {
    LeavesOnLevel(t);
    LeavesRepresent(t, Leaves(t));
    BlocksRefl(Leaves(t), Q);
  }

  lemma RowDone(t: seq<int>, r: seq<int>, row: Vec, v: Vec, l: nat)
    requires 1 <= l <= |row| && l <= |v| && Polys(row) && Polys(v) && Holds(t, RowAcc(row, v, l))
    requires OnLevel(T(), Leaves(t), 1, 8) && EqMod(r, Scale(R, InvNtt(T(), Leaves(t), 1)), Q)
    ensures EqMod(r, RowProduct(row, v, l), Q)
  {
    UnhatIs(RowAcc(row, v, l));
    FactorsCancel(t, r, RowAcc(row, v, l));
    UnhatOfRow(row, v, l);
    EqModTrans(r, Unhat(RowAcc(row, v, l)), RowProduct(row, v, l), Q);
  }

  lemma UnhatIs(x: Blocks)
    requires OnLevel(T(), x, 1, 8)
    ensures Unhat(x) == InvNtt(T(), x, 1)
  {}
}
