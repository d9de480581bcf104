/**
 The layered number-theoretic transform as a tower of ring splittings.

 A state is a sequence of blocks. The block with index b of a state of c blocks sits at node c + b of a
 binary tree rooted at 1, and is an element of Z[X] / (X^m - NodeRoot(c + b)), m being the block length.
 A forward layer splits every block in two, an inverse layer merges blocks pairwise.
 */
module NttTower {
  import opened Congruence
  import opened PolyRing

  type Blocks = seq<seq<int>>

  /**
   The modulus, the square roots used at the inner nodes 1 .. 2^depth - 1, the number of layers and the
   inverse of 2^depth.
   */
  datatype Tower = Tower(q: int, roots: seq<int>, depth: nat, inverse: int)

  function Pow2(e: nat): (r: nat)
    ensures r >= 1
  {
    if e == 0 then 1 else 2 * Pow2(e - 1)
  }

  /** The value of X^m at a node: -1 at the root, plus or minus the root chosen at the parent elsewhere. */
  function NodeRoot(t: Tower, node: nat): int
    requires 1 <= node && (node > 1 ==> node / 2 < |t.roots|)
  {
    if node == 1 then -1 else if node % 2 == 0 then t.roots[node / 2] else -t.roots[node / 2]
  }

  /** An entry squares to its node's value. */
  ghost predicate SquareOk(t: Tower, node: nat)
    requires t.q > 0 && 1 <= node < |t.roots|
  {
    Cong(t.roots[node] * t.roots[node], NodeRoot(t, node), t.q)
  }

  /** On level e, mirrored entries multiply to -1. */
  ghost predicate MirrorOk(t: Tower, e: nat, b: nat)
    requires t.q > 0 && b < Pow2(e)
  {
    2 * Pow2(e) <= |t.roots| && Cong(t.roots[Pow2(e) + b] * t.roots[2 * Pow2(e) - 1 - b], -1, t.q)
  }

  /** The root table is right. */
  ghost predicate Good(t: Tower)
  {
    && t.q > 1
    && |t.roots| == Pow2(t.depth)
    && Cong(t.inverse * Pow2(t.depth), 1, t.q)
    && (forall n :: 1 <= n < |t.roots| ==> SquareOk(t, n))
    && (forall e: nat, b: nat :: e < t.depth && b < Pow2(e) ==> MirrorOk(t, e, b))
  }

  // ---------- One node ----------

  /** Reduction modulo X^m - y of an element modulo X^2m - y^2. */
  function Lo(a: seq<int>, y: int): (r: seq<int>)
    requires |a| % 2 == 0
    ensures |r| == |a| / 2
  {
    seq(|a| / 2, i requires 0 <= i < |a| / 2 => a[i] + y * a[i + |a| / 2])
  }

  function Hi(a: seq<int>, y: int): (r: seq<int>)
    requires |a| % 2 == 0
    ensures |r| == |a| / 2
  {
    seq(|a| / 2, i requires 0 <= i < |a| / 2 => a[i] - y * a[i + |a| / 2])
  }

  ghost function Half(a: seq<int>, y: int, low: bool): (r: seq<int>)
    requires |a| % 2 == 0
    ensures |r| == |a| / 2
  {
    if low then Lo(a, y) else Hi(a, y)
  }

  /** The inverse butterfly; its result is twice the element that splits into lo and hi. */
  function Join(lo: seq<int>, hi: seq<int>, y: int): (r: seq<int>)
    requires |lo| == |hi|
    ensures |r| == 2 * |lo|
  {
    Add(lo, hi) + Scale(y, Sub(hi, lo))
  }

  lemma HiIsLo(a: seq<int>, y: int)
    requires |a| % 2 == 0
    ensures Hi(a, y) == Lo(a, -y)
  {
    forall i | 0 <= i < |a| / 2
      ensures Hi(a, y)[i] == Lo(a, -y)[i]
    {
      assert (-y) * a[i + |a| / 2] == -(y * a[i + |a| / 2]);
    }
  }

  lemma LoLinear(s: int, a: seq<int>, b: seq<int>, y: int)
    requires |a| == |b| && |a| % 2 == 0
    ensures Lo(Add(a, b), y) == Add(Lo(a, y), Lo(b, y))
    ensures Lo(Scale(s, a), y) == Scale(s, Lo(a, y))
  {
    hide *;
    forall i | 0 <= i < |a| / 2
      ensures Lo(Add(a, b), y)[i] == Add(Lo(a, y), Lo(b, y))[i]
      ensures Lo(Scale(s, a), y)[i] == Scale(s, Lo(a, y))[i]
    {
      LoLinearAt(s, a, b, y, i);
    }
  }

  lemma LoAt(a: seq<int>, y: int, i: nat)
    requires |a| % 2 == 0 && i < |a| / 2
    ensures Lo(a, y)[i] == a[i] + y * a[i + |a| / 2]
  {}

  lemma AddAt(a: seq<int>, b: seq<int>, i: nat)
    requires |a| == |b| && i < |a|
    ensures Add(a, b)[i] == a[i] + b[i]
  {}

  lemma ScaleAt(s: int, a: seq<int>, i: nat)
    requires i < |a|
    ensures Scale(s, a)[i] == s * a[i]
  {}

  lemma LoLinearAt(s: int, a: seq<int>, b: seq<int>, y: int, i: nat)
    requires |a| == |b| && |a| % 2 == 0 && i < |a| / 2
    ensures Lo(Add(a, b), y)[i] == Add(Lo(a, y), Lo(b, y))[i]
    ensures Lo(Scale(s, a), y)[i] == Scale(s, Lo(a, y))[i]
  {
    hide *;
    var m := |a| / 2;
    LoAt(a, y, i);
    LoAt(b, y, i);
    LoAt(Add(a, b), y, i);
    LoAt(Scale(s, a), y, i);
    AddAt(a, b, i);
    AddAt(a, b, i + m);
    AddAt(Lo(a, y), Lo(b, y), i);
    ScaleAt(s, a, i);
    ScaleAt(s, a, i + m);
    ScaleAt(s, Lo(a, y), i);
    Distribute(s, y, a[i], a[i + m], b[i + m]);
  }

  lemma Distribute(s: int, y: int, a: int, c: int, d: int)
    ensures y * (c + d) == y * c + y * d
    ensures s * (a + y * c) == s * a + y * (s * c)
  {}

  /** Reduction modulo X^m - y commutes with multiplication by X. */
  lemma LoMulX(b: seq<int>, y: int)
    requires |b| % 2 == 0 && |b| > 0
    ensures Lo(MulX(b, y * y), y) == MulX(Lo(b, y), y)
  {
    var m := |b| / 2;
    var n := |b| - 1;
    assert y * y * b[n] + y * b[m - 1] == y * (b[m - 1] + y * b[n]);
    forall i | 0 <= i < m
      ensures Lo(MulX(b, y * y), y)[i] == MulX(Lo(b, y), y)[i]
    {}
  }

  lemma {:induction false} LoAct(a: seq<int>, b: seq<int>, y: int)
    requires |b| % 2 == 0 && |b| > 0
    ensures Lo(Act(a, b, y * y), y) == Act(a, Lo(b, y), y)
    decreases |a|
  {
    if a == [] {
      assert Lo(Zero(|b|), y) == Zero(|b| / 2);
    } else {
      var rest := Act(a[1..], MulX(b, y * y), y * y);
      LoLinear(a[0], b, b, y);
      LoLinear(0, Scale(a[0], b), rest, y);
      LoAct(a[1..], MulX(b, y * y), y);
      LoMulX(b, y);
    }
  }

  /** The Chinese-remainder step: reduction modulo X^m - y is a ring homomorphism. */
  lemma LoMul(a: seq<int>, b: seq<int>, y: int)
    requires |a| == |b| && |b| % 2 == 0 && |b| > 0
    ensures Lo(Mul(a, b, y * y), y) == Mul(Lo(a, y), Lo(b, y), y)
  {
    var m := |a| / 2;
    var c := Lo(b, y);
    assert a == a[..m] + a[m..];
    calc {
      Lo(Mul(a, b, y * y), y);
      { LoAct(a, b, y); }
      Act(a[..m] + a[m..], c, y);
      { ActConcat(a[..m], a[m..], c, y); XPowN(c, y); }
      Add(Act(a[..m], c, y), Act(a[m..], Scale(y, c), y));
      { ActScale(a[m..], y, c, y); ActLinear(a[..m], y, a[m..], c, y); }
      Act(Add(a[..m], Scale(y, a[m..])), c, y);
      { assert Add(a[..m], Scale(y, a[m..])) == Lo(a, y); }
      Mul(Lo(a, y), c, y);
    }
  }

  lemma LoCong(a: seq<int>, b: seq<int>, y: int, q: int)
    requires q > 0 && |a| % 2 == 0 && EqMod(a, b, q)
    ensures EqMod(Lo(a, y), Lo(b, y), q)
  {
    var m := |a| / 2;
    forall i | 0 <= i < m
      ensures Cong(a[i] + y * a[i + m], b[i] + y * b[i + m], q)
    {
      CongIntro(y, y, q, 0);
      CongMul(y, y, a[i + m], b[i + m], q);
      CongAdd(a[i], b[i], y * a[i + m], y * b[i + m], q);
    }
  }

  lemma JoinCong(a: seq<int>, b: seq<int>, c: seq<int>, d: seq<int>, y: int, q: int)
    requires q > 0 && |a| == |c| && EqMod(a, b, q) && EqMod(c, d, q)
    ensures EqMod(Join(a, c, y), Join(b, d, y), q)
  {
    AddCong(a, b, c, d, q);
    SubCong(c, d, a, b, q);
    CongIntro(y, y, q, 0);
    ScaleCong(y, y, Sub(c, a), Sub(d, b), q);
  }

  /** The high half of an inverse butterfly after a forward one. */
  lemma JoinHighUndoes(u: int, x: int, y: int, yi: int, q: int)
    requires q > 0 && Cong(y * yi, -1, q)
    ensures Cong(yi * ((u - y * x) - (u + y * x)), 2 * x, q)
  {
    var k := Quot(y * yi, -1, q);
    calc {
      yi * ((u - y * x) - (u + y * x));
      -2 * x * (y * yi);
      -2 * x * (q * k - 1);
      q * (-2 * x * k) + 2 * x;
    }
    CongIntro(yi * ((u - y * x) - (u + y * x)), 2 * x, q, -2 * x * k);
  }

  lemma JoinSplit(a: seq<int>, y: int, yi: int, q: int)
    requires q > 0 && |a| % 2 == 0 && Cong(y * yi, -1, q)
    ensures EqMod(Join(Lo(a, y), Hi(a, y), yi), Scale(2, a), q)
  {
    var m := |a| / 2;
    forall i | 0 <= i < |a|
      ensures Cong(Join(Lo(a, y), Hi(a, y), yi)[i], 2 * a[i], q)
    {
      if i < m {
        CongIntro(Join(Lo(a, y), Hi(a, y), yi)[i], 2 * a[i], q, 0);
      } else {
        JoinHighUndoes(a[i - m], a[i], y, yi, q);
      }
    }
  }

  /** A forward butterfly after an inverse one. */
  lemma SplitUndoes(u: int, v: int, y: int, yi: int, q: int)
    requires q > 0 && Cong(y * yi, -1, q)
    ensures Cong(u + v + y * (yi * (v - u)), 2 * u, q)
    ensures Cong(u + v - y * (yi * (v - u)), 2 * v, q)
  {
    var k, d := Quot(y * yi, -1, q), v - u;
    calc {
      y * (yi * d);
      (y * yi) * d;
      (q * k - 1) * d;
      q * (k * d) - d;
    }
    CongIntro(u + v + y * (yi * d), 2 * u, q, k * d);
    CongIntro(u + v - y * (yi * d), 2 * v, q, -(k * d));
  }

  lemma SplitJoin(lo: seq<int>, hi: seq<int>, y: int, yi: int, q: int)
    requires q > 0 && |lo| == |hi| && Cong(y * yi, -1, q)
    ensures EqMod(Lo(Join(lo, hi, yi), y), Scale(2, lo), q)
    ensures EqMod(Hi(Join(lo, hi, yi), y), Scale(2, hi), q)
  {
    hide *;
    var a := Join(lo, hi, yi);
    forall i | 0 <= i < |lo|
      ensures Cong(Lo(a, y)[i], Scale(2, lo)[i], q) && Cong(Hi(a, y)[i], Scale(2, hi)[i], q)
    {
      HalvesAt(lo, hi, y, yi, i);
      ScaleAt(2, lo, i);
      ScaleAt(2, hi, i);
      SplitUndoes(lo[i], hi[i], y, yi, q);
    }
    MakeEqMod(Lo(a, y), Scale(2, lo), q);
    MakeEqMod(Hi(a, y), Scale(2, hi), q);
  }

  /** Entry i of the two halves of a joined element. */
  lemma HalvesAt(lo: seq<int>, hi: seq<int>, y: int, yi: int, i: nat)
    requires |lo| == |hi| && i < |lo|
    ensures Lo(Join(lo, hi, yi), y)[i] == lo[i] + hi[i] + y * (yi * (hi[i] - lo[i]))
    ensures Hi(Join(lo, hi, yi), y)[i] == lo[i] + hi[i] - y * (yi * (hi[i] - lo[i]))
  {
    JoinAt(lo, hi, yi, i);
    hide Join;
  }

  lemma JoinAt(lo: seq<int>, hi: seq<int>, yi: int, i: nat)
    requires |lo| == |hi| && i < |lo|
    ensures Join(lo, hi, yi)[i] == lo[i] + hi[i] && Join(lo, hi, yi)[i + |lo|] == yi * (hi[i] - lo[i])
  {
    ScaleAt(yi, Sub(hi, lo), i);
    hide Scale;
  }

  lemma MakeEqMod(a: seq<int>, b: seq<int>, q: int)
    requires q > 0 && |a| == |b| && forall i :: 0 <= i < |a| ==> Cong(a[i], b[i], q)
    ensures EqMod(a, b, q)
  {}

  // ---------- One layer ----------

  ghost predicate Uniform(bl: Blocks, m: nat)
  {
    forall b :: 0 <= b < |bl| ==> |bl[b]| == m
  }

  ghost predicate BlocksEq(x: Blocks, y: Blocks, q: int)
    requires q > 0
  {
    |x| == |y| && forall b :: 0 <= b < |x| ==> EqMod(x[b], y[b], q)
  }

  /** One forward layer: the block at node n splits with roots[n]. */
  ghost function Split(t: Tower, bl: Blocks, m: nat): (r: Blocks)
    requires 2 * |bl| <= |t.roots| && Uniform(bl, 2 * m)
    ensures |r| == 2 * |bl| && Uniform(r, m)
  {
    seq(2 * |bl|, i requires 0 <= i < 2 * |bl| => Half(bl[i / 2], t.roots[|bl| + i / 2], i % 2 == 0))
  }

  /** One inverse layer: the blocks below node c + b merge with the mirrored root, at 2c - 1 - b. */
  ghost function Merge(t: Tower, bl: Blocks, m: nat): (r: Blocks)
    requires |bl| % 2 == 0 && |bl| <= |t.roots| && Uniform(bl, m)
    ensures 2 * |r| == |bl| && Uniform(r, 2 * m)
  {
    seq(|bl| / 2, b requires 0 <= b < |bl| / 2 =>
      Join(bl[2 * b], bl[2 * b + 1], t.roots[|bl| - 1 - b]))
  }

  /** Blockwise product, each block in its own ring. */
  ghost function BlockMul(t: Tower, x: Blocks, y: Blocks, m: nat): (r: Blocks)
    requires |x| == |y| && m > 0 && Uniform(x, m) && Uniform(y, m) && |x| <= |t.roots| && |t.roots| > 0
    ensures |r| == |x| && Uniform(r, m)
  {
    seq(|x|, b requires 0 <= b < |x| => Mul(x[b], y[b], NodeRoot(t, |x| + b)))
  }

  ghost function BlockAdd(x: Blocks, y: Blocks, m: nat): (r: Blocks)
    requires |x| == |y| && Uniform(x, m) && Uniform(y, m)
    ensures |r| == |x| && Uniform(r, m)
  {
    seq(|x|, b requires 0 <= b < |x| => Add(x[b], y[b]))
  }

  ghost function BlockScale(s: int, x: Blocks): (r: Blocks)
    ensures |r| == |x| && forall b :: 0 <= b < |x| ==> |r[b]| == |x[b]|
  {
    seq(|x|, b requires 0 <= b < |x| => Scale(s, x[b]))
  }

  lemma BlocksTrans(x: Blocks, y: Blocks, z: Blocks, q: int)
    requires q > 0 && BlocksEq(x, y, q) && BlocksEq(y, z, q)
    ensures BlocksEq(x, z, q)
  {
    forall b | 0 <= b < |x|
      ensures EqMod(x[b], z[b], q)
    {
      EqModTrans(x[b], y[b], z[b], q);
    }
  }

  lemma BlocksSym(x: Blocks, y: Blocks, q: int)
    requires q > 0 && BlocksEq(x, y, q)
    ensures BlocksEq(y, x, q)
  {
    forall b | 0 <= b < |x|
      ensures EqMod(y[b], x[b], q)
    {
      EqModSym(x[b], y[b], q);
    }
  }

  lemma SplitCong(t: Tower, x: Blocks, y: Blocks, m: nat)
    requires t.q > 0 && 2 * |x| <= |t.roots| && Uniform(x, 2 * m) && Uniform(y, 2 * m) && BlocksEq(x, y, t.q)
    ensures BlocksEq(Split(t, x, m), Split(t, y, m), t.q)
  {
    forall i | 0 <= i < 2 * |x|
      ensures EqMod(Split(t, x, m)[i], Split(t, y, m)[i], t.q)
    {
      var r := t.roots[|x| + i / 2];
      assert EqMod(x[i / 2], y[i / 2], t.q);
      HiIsLo(x[i / 2], r);
      HiIsLo(y[i / 2], r);
      LoCong(x[i / 2], y[i / 2], if i % 2 == 0 then r else -r, t.q);
    }
  }

  lemma HalfLinear(s: int, a: seq<int>, b: seq<int>, y: int, low: bool)
    requires |a| == |b| && |a| % 2 == 0
    ensures Half(Add(a, b), y, low) == Add(Half(a, y, low), Half(b, y, low))
    ensures Half(Scale(s, a), y, low) == Scale(s, Half(a, y, low))
  {
    hide Lo, Hi, Add, Scale;
    HiIsLo(a, y);
    HiIsLo(b, y);
    HiIsLo(Add(a, b), y);
    HiIsLo(Scale(s, a), y);
    LoLinear(s, a, b, if low then y else -y);
  }

  lemma SplitAdd(t: Tower, x: Blocks, y: Blocks, m: nat)
    requires |x| == |y| && 2 * |x| <= |t.roots| && Uniform(x, 2 * m) && Uniform(y, 2 * m)
    ensures Split(t, BlockAdd(x, y, 2 * m), m) == BlockAdd(Split(t, x, m), Split(t, y, m), m)
  {
    hide Half, Add;
    var l, r := Split(t, BlockAdd(x, y, 2 * m), m), BlockAdd(Split(t, x, m), Split(t, y, m), m);
    forall i | 0 <= i < 2 * |x|
      ensures l[i] == r[i]
    {
      HalfLinear(0, x[i / 2], y[i / 2], t.roots[|x| + i / 2], i % 2 == 0);
    }
  }

  lemma SplitScale(t: Tower, s: int, x: Blocks, m: nat)
    requires 2 * |x| <= |t.roots| && Uniform(x, 2 * m)
    ensures Split(t, BlockScale(s, x), m) == BlockScale(s, Split(t, x, m))
  {
    hide Half, Scale;
    var l, r := Split(t, BlockScale(s, x), m), BlockScale(s, Split(t, x, m));
    forall i | 0 <= i < 2 * |x|
      ensures l[i] == r[i]
    {
      HalfLinear(s, x[i / 2], x[i / 2], t.roots[|x| + i / 2], i % 2 == 0);
    }
  }

  /** The Chinese-remainder step with the node's value known only modulo q. */
  lemma LoMulCong(a: seq<int>, b: seq<int>, r: int, z: int, q: int)
    requires q > 0 && |a| == |b| && |b| % 2 == 0 && |b| > 0 && Cong(r * r, z, q)
    ensures EqMod(Lo(Mul(a, b, z), r), Mul(Lo(a, r), Lo(b, r), r), q)
  {
    EqModRefl(a, q);
    EqModRefl(b, q);
    CongSym(r * r, z, q);
    ActCong(a, a, b, b, z, r * r, q);
    LoCong(Mul(a, b, z), Mul(a, b, r * r), r, q);
    LoMul(a, b, r);
  }

  lemma SplitPair(t: Tower, bl: Blocks, m: nat, b: nat)
    requires 2 * |bl| <= |t.roots| && Uniform(bl, 2 * m) && b < |bl|
    ensures Split(t, bl, m)[2 * b] == Lo(bl[b], t.roots[|bl| + b])
    ensures Split(t, bl, m)[2 * b + 1] == Hi(bl[b], t.roots[|bl| + b])
  {
    assert (2 * b) / 2 == b && (2 * b) % 2 == 0 && (2 * b + 1) / 2 == b && (2 * b + 1) % 2 == 1;
  }

  lemma NodeChildren(t: Tower, n: nat)
    requires 1 <= n < |t.roots|
    ensures NodeRoot(t, 2 * n) == t.roots[n] && NodeRoot(t, 2 * n + 1) == -t.roots[n]
  {
    assert (2 * n) / 2 == n && (2 * n) % 2 == 0 && (2 * n + 1) / 2 == n && (2 * n + 1) % 2 == 1;
  }

  lemma HiMulCong(a: seq<int>, b: seq<int>, r: int, z: int, q: int)
    requires q > 0 && |a| == |b| && |b| % 2 == 0 && |b| > 0 && Cong(r * r, z, q)
    ensures EqMod(Hi(Mul(a, b, z), r), Mul(Hi(a, r), Hi(b, r), -r), q)
  {
    assert (-r) * (-r) == r * r;
    HiIsLo(a, r);
    HiIsLo(b, r);
    HiIsLo(Mul(a, b, z), r);
    LoMulCong(a, b, -r, z, q);
  }

  lemma BlockMulAt(t: Tower, x: Blocks, y: Blocks, m: nat, b: nat)
    requires |x| == |y| && m > 0 && Uniform(x, m) && Uniform(y, m) && |x| <= |t.roots| && b < |x|
    ensures BlockMul(t, x, y, m)[b] == Mul(x[b], y[b], NodeRoot(t, |x| + b))
  {}

  lemma SplitMulPair(t: Tower, x: Blocks, y: Blocks, m: nat, b: nat)
    requires t.q > 0 && m > 0 && b < |x| && |x| == |y| && 2 * |x| <= |t.roots| && |x[b]| == |y[b]| == 2 * m
    requires Cong(t.roots[|x| + b] * t.roots[|x| + b], NodeRoot(t, |x| + b), t.q)
    requires Uniform(x, 2 * m) && Uniform(y, 2 * m)
    ensures EqMod(Split(t, BlockMul(t, x, y, 2 * m), m)[2 * b],
                  BlockMul(t, Split(t, x, m), Split(t, y, m), m)[2 * b], t.q)
    ensures EqMod(Split(t, BlockMul(t, x, y, 2 * m), m)[2 * b + 1],
                  BlockMul(t, Split(t, x, m), Split(t, y, m), m)[2 * b + 1], t.q)
  {
    hide *;
    var n := |x| + b;
    LoMulCong(x[b], y[b], t.roots[n], NodeRoot(t, n), t.q);
    HiMulCong(x[b], y[b], t.roots[n], NodeRoot(t, n), t.q);
    SplitPair(t, x, m, b);
    SplitPair(t, y, m, b);
    SplitPair(t, BlockMul(t, x, y, 2 * m), m, b);
    BlockMulAt(t, x, y, 2 * m, b);
    BlockMulAt(t, Split(t, x, m), Split(t, y, m), m, 2 * b);
    BlockMulAt(t, Split(t, x, m), Split(t, y, m), m, 2 * b + 1);
    NodeChildren(t, n);
    assert |Split(t, x, m)| + 2 * b == 2 * n;
  }

  /** A forward layer is multiplicative. */
  lemma SplitMul(t: Tower, x: Blocks, y: Blocks, m: nat)
    requires Good(t) && m > 0 && 0 < |x| == |y| && 2 * |x| <= |t.roots| && Uniform(x, 2 * m) && Uniform(y, 2 * m)
    ensures BlocksEq(Split(t, BlockMul(t, x, y, 2 * m), m), BlockMul(t, Split(t, x, m), Split(t, y, m), m), t.q)
  {
    hide Split, BlockMul, EqMod;
    var lhs, rhs := Split(t, BlockMul(t, x, y, 2 * m), m), BlockMul(t, Split(t, x, m), Split(t, y, m), m);
    forall i | 0 <= i < 2 * |x|
      ensures |lhs[i]| == |rhs[i]| && EqMod(lhs[i], rhs[i], t.q)
    {
      var b := i / 2;
      assert SquareOk(t, |x| + b) && |x[b]| == |y[b]| == 2 * m;
      SplitMulPair(t, x, y, m, b);
      assert i == 2 * b || i == 2 * b + 1;
    }
  }

  /** Multiplicativity of a layer, from a state known modulo q. */
  lemma SplitMulCong(t: Tower, xy: Blocks, x: Blocks, y: Blocks, m: nat)
    requires Good(t) && m > 0 && 0 < |xy| == |x| == |y| && 2 * |x| <= |t.roots|
    requires Uniform(x, 2 * m) && Uniform(y, 2 * m) && Uniform(xy, 2 * m)
    requires BlocksEq(xy, BlockMul(t, x, y, 2 * m), t.q)
    ensures BlocksEq(Split(t, xy, m), BlockMul(t, Split(t, x, m), Split(t, y, m), m), t.q)
  {
    SplitCong(t, xy, BlockMul(t, x, y, 2 * m), m);
    SplitMul(t, x, y, m);
    hide *;
    BlocksTrans(Split(t, xy, m), Split(t, BlockMul(t, x, y, 2 * m), m),
                BlockMul(t, Split(t, x, m), Split(t, y, m), m), t.q);
  }

  lemma MergeCong(t: Tower, x: Blocks, y: Blocks, m: nat)
    requires t.q > 0 && |x| % 2 == 0 && |x| <= |t.roots| && Uniform(x, m) && Uniform(y, m) && BlocksEq(x, y, t.q)
    ensures BlocksEq(Merge(t, x, m), Merge(t, y, m), t.q)
  {
    forall b | 0 <= b < |x| / 2
      ensures EqMod(Merge(t, x, m)[b], Merge(t, y, m)[b], t.q)
    {
      JoinCong(x[2 * b], y[2 * b], x[2 * b + 1], y[2 * b + 1], t.roots[|x| - 1 - b], t.q);
    }
  }

  lemma ScaleOut(s: int, y: int, u: int, v: int)
    ensures s * u + s * v == s * (u + v)
    ensures y * (s * v - s * u) == s * (y * (v - u))
  {
    assert s * v - s * u == s * (v - u);
    assert y * (s * (v - u)) == s * (y * (v - u));
  }

  lemma JoinScale(s: int, lo: seq<int>, hi: seq<int>, y: int)
    requires |lo| == |hi|
    ensures Join(Scale(s, lo), Scale(s, hi), y) == Scale(s, Join(lo, hi, y))
  {
    var m := |lo|;
    forall i | 0 <= i < 2 * m
      ensures Join(Scale(s, lo), Scale(s, hi), y)[i] == s * Join(lo, hi, y)[i]
    {
      var k := if i < m then i else i - m;
      ScaleOut(s, y, lo[k], hi[k]);
    }
  }

  lemma JoinAdd(lo: seq<int>, hi: seq<int>, lo': seq<int>, hi': seq<int>, y: int)
    requires |lo| == |hi| == |lo'| == |hi'|
    ensures Join(Add(lo, lo'), Add(hi, hi'), y) == Add(Join(lo, hi, y), Join(lo', hi', y))
  {
    hide *;
    forall i | 0 <= i < 2 * |lo|
      ensures Join(Add(lo, lo'), Add(hi, hi'), y)[i] == Add(Join(lo, hi, y), Join(lo', hi', y))[i]
    {
      JoinAddAt(lo, hi, lo', hi', y, i);
    }
  }

  lemma JoinAddAt(lo: seq<int>, hi: seq<int>, lo': seq<int>, hi': seq<int>, y: int, i: nat)
    requires |lo| == |hi| == |lo'| == |hi'| && i < 2 * |lo|
    ensures Join(Add(lo, lo'), Add(hi, hi'), y)[i] == Add(Join(lo, hi, y), Join(lo', hi', y))[i]
  {
    var m := |lo|;
    if i >= m {
      SumOut(y, hi[i - m] - lo[i - m], hi'[i - m] - lo'[i - m]);
    }
  }

  lemma SumOut(y: int, d: int, d': int)
    ensures y * (d + d') == y * d + y * d'
  {}

  lemma MergeScale(t: Tower, s: int, x: Blocks, m: nat)
    requires |x| % 2 == 0 && |x| <= |t.roots| && Uniform(x, m)
    ensures Merge(t, BlockScale(s, x), m) == BlockScale(s, Merge(t, x, m))
  {
    hide Join, Scale;
    var sx := BlockScale(s, x);
    forall b | 0 <= b < |x| / 2
      ensures Merge(t, sx, m)[b] == Scale(s, Merge(t, x, m)[b])
    {
      JoinScale(s, x[2 * b], x[2 * b + 1], t.roots[|x| - 1 - b]);
    }
  }

  lemma MergeAdd(t: Tower, x: Blocks, y: Blocks, m: nat)
    requires |x| == |y| && |x| % 2 == 0 && |x| <= |t.roots| && Uniform(x, m) && Uniform(y, m)
    ensures Merge(t, BlockAdd(x, y, m), m) == BlockAdd(Merge(t, x, m), Merge(t, y, m), 2 * m)
  {
    hide *;
    forall b | 0 <= b < |x| / 2
      ensures Merge(t, BlockAdd(x, y, m), m)[b] == BlockAdd(Merge(t, x, m), Merge(t, y, m), 2 * m)[b]
    {
      MergeAddAt(t, x, y, m, b);
    }
  }

  lemma BlockAddAt(x: Blocks, y: Blocks, m: nat, b: nat)
    requires |x| == |y| && Uniform(x, m) && Uniform(y, m) && b < |x|
    ensures |x[b]| == |y[b]| == m && BlockAdd(x, y, m)[b] == Add(x[b], y[b])
  {}

  lemma MergeAddAt(t: Tower, x: Blocks, y: Blocks, m: nat, b: nat)
    requires |x| == |y| && |x| % 2 == 0 && |x| <= |t.roots| && Uniform(x, m) && Uniform(y, m) && 2 * b < |x|
    ensures Merge(t, BlockAdd(x, y, m), m)[b] == BlockAdd(Merge(t, x, m), Merge(t, y, m), 2 * m)[b]
  {
    hide *;
    BlockAddAt(x, y, m, 2 * b);
    BlockAddAt(x, y, m, 2 * b + 1);
    MergeAt(t, x, m, b);
    MergeAt(t, y, m, b);
    MergeAt(t, BlockAdd(x, y, m), m, b);
    BlockAddAt(Merge(t, x, m), Merge(t, y, m), 2 * m, b);
    JoinAdd(x[2 * b], x[2 * b + 1], y[2 * b], y[2 * b + 1], t.roots[|x| - 1 - b]);
  }

  lemma {:induction false} Pow2Mono(d: nat, e: nat)
    requires d <= e
    ensures Pow2(d) <= Pow2(e)
    decreases e
  {
    if d < e {
      Pow2Mono(d, e - 1);
    }
  }

  lemma MergeAt(t: Tower, bl: Blocks, m: nat, b: nat)
    requires |bl| % 2 == 0 && |bl| <= |t.roots| && Uniform(bl, m) && 2 * b < |bl|
    ensures Merge(t, bl, m)[b] == Join(bl[2 * b], bl[2 * b + 1], t.roots[|bl| - 1 - b])
  {}

  lemma MergeSplitAt(t: Tower, x: Blocks, m: nat, b: nat)
    requires t.q > 0 && Uniform(x, 2 * m) && 2 * |x| <= |t.roots| && b < |x|
    requires Cong(t.roots[|x| + b] * t.roots[2 * |x| - 1 - b], -1, t.q)
    ensures EqMod(Merge(t, Split(t, x, m), m)[b], Scale(2, x[b]), t.q)
  {
    hide Split, Lo, Hi, Join, Scale, EqMod, Cong;
    SplitPair(t, x, m, b);
    JoinSplit(x[b], t.roots[|x| + b], t.roots[2 * |x| - 1 - b], t.q);
  }

  /** An inverse layer undoes a forward layer, up to a factor two. */
  lemma MergeSplit(t: Tower, x: Blocks, m: nat, e: nat)
    requires Good(t) && e < t.depth && |x| == Pow2(e) && Uniform(x, 2 * m) && 2 * |x| <= |t.roots|
    ensures BlocksEq(Merge(t, Split(t, x, m), m), BlockScale(2, x), t.q)
  {
    hide *;
    GoodModulus(t);
    forall b | 0 <= b < |x|
      ensures EqMod(Merge(t, Split(t, x, m), m)[b], Scale(2, x[b]), t.q)
    {
      Mirrored(t, e, b);
      MergeSplitAt(t, x, m, b);
    }
    MakeScaledEq(Merge(t, Split(t, x, m), m), 2, x, t.q);
  }

  lemma GoodModulus(t: Tower)
    requires Good(t)
    ensures t.q > 1
  {}

  lemma Mirrored(t: Tower, e: nat, b: nat)
    requires Good(t) && e < t.depth && b < Pow2(e)
    ensures 2 * Pow2(e) <= |t.roots| && Cong(t.roots[Pow2(e) + b] * t.roots[2 * Pow2(e) - 1 - b], -1, t.q)
  {
    assert MirrorOk(t, e, b);
    hide Cong, Pow2, SquareOk;
  }

  lemma MakeScaledEq(x: Blocks, s: int, y: Blocks, q: int)
    requires q > 0 && |x| == |y| && forall b :: 0 <= b < |x| ==> EqMod(x[b], Scale(s, y[b]), q)
    ensures BlocksEq(x, BlockScale(s, y), q)
  {
    hide EqMod, Scale;
  }

  lemma SplitMergeAt(t: Tower, x: Blocks, m: nat, i: nat)
    requires t.q > 0 && |x| % 2 == 0 && Uniform(x, m) && |x| <= |t.roots| && i < |x|
    requires Cong(t.roots[|x| / 2 + i / 2] * t.roots[|x| - 1 - i / 2], -1, t.q)
    ensures EqMod(Split(t, Merge(t, x, m), m)[i], Scale(2, x[i]), t.q)
  {
    hide *;
    var b, bl := i / 2, Merge(t, x, m);
    var y, yi := t.roots[|x| / 2 + b], t.roots[|x| - 1 - b];
    assert i == 2 * b + i % 2;
    UniformAt(x, m, 2 * b);
    UniformAt(x, m, 2 * b + 1);
    MergeAt(t, x, m, b);
    SplitPair(t, bl, m, b);
    SplitJoin(x[2 * b], x[2 * b + 1], y, yi, t.q);
  }

  lemma UniformAt(x: Blocks, m: nat, b: nat)
    requires Uniform(x, m) && b < |x|
    ensures |x[b]| == m
  {}

  /** A forward layer undoes an inverse layer, up to a factor two. */
  lemma SplitMerge(t: Tower, x: Blocks, m: nat, e: nat)
    requires Good(t) && e < t.depth && |x| == 2 * Pow2(e) && Uniform(x, m) && |x| <= |t.roots|
    ensures BlocksEq(Split(t, Merge(t, x, m), m), BlockScale(2, x), t.q)
  {
    hide *;
    GoodModulus(t);
    forall i | 0 <= i < |x|
      ensures EqMod(Split(t, Merge(t, x, m), m)[i], Scale(2, x[i]), t.q)
    {
      Mirrored(t, e, i / 2);
      SplitMergeAt(t, x, m, i);
    }
    MakeScaledEq(Split(t, Merge(t, x, m), m), 2, x, t.q);
  }

}
