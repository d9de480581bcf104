/** What the blocks of a transform are: the remainders of the polynomial modulo X^m - z, one z for each block. */
module NttRemainder {
  import opened Congruence
  import opened PolyRing
  import opened NttTower
  import opened NttTransform

  /** The remainder of a modulo X^m - z: the pieces of m coefficients, by Horner's rule. */
  function Remainder(a: seq<int>, m: nat, z: int): (r: seq<int>)
    requires m > 0
    ensures |r| == m
  {
    if |a| <= m then a + Zero(m - |a|) else Add(a[..m], Scale(z, Remainder(a[m..], m, z)))
  }

  /** The value of a polynomial at x. */
  function Evaluate(a: seq<int>, x: int): int
  {
    if a == [] then 0 else a[0] + x * Evaluate(a[1..], x)
  }

  /** The remainder modulo X - x is the value at x. */
  lemma {:induction false} RemainderIsValue(a: seq<int>, x: int)
    requires |a| > 0
    ensures Remainder(a, 1, x)[0] == Evaluate(a, x)
  {
    if |a| == 1 {
      assert a[1..] == [] && (a + Zero(0))[0] == a[0];
    } else {
      RemainderIsValue(a[1..], x);
    }
  }

  lemma {:induction false} RemainderCong(a: seq<int>, m: nat, y: int, z: int, q: int)
    requires m > 0 && q > 0 && Cong(y, z, q)
    ensures EqMod(Remainder(a, m, y), Remainder(a, m, z), q)
  {
    hide Cong;
    if |a| <= m {
      EqModRefl(a + Zero(m - |a|), q);
    } else {
      var u, v := Remainder(a[m..], m, y), Remainder(a[m..], m, z);
      RemainderCong(a[m..], m, y, z, q);
      ScaleCong(y, z, u, v, q);
      EqModRefl(a[..m], q);
      AddCong(a[..m], a[..m], Scale(y, u), Scale(z, v), q);
    }
  }

  /** The remainder modulo X^m - y comes from the one modulo X^2m - z if y squares to z. */
  lemma {:induction false} RemainderOfRemainder(a: seq<int>, m: nat, y: int, z: int, q: int)
    requires m > 0 && q > 0 && Cong(y * y, z, q)
    ensures EqMod(Lo(Remainder(a, 2 * m, z), y), Remainder(a, m, y), q)
  {
    hide *;
    if |a| <= 2 * m {
      ShortRemainder(a, m, y, z);
      EqModRefl(Remainder(a, m, y), q);
    } else {
      var b := a[2 * m..];
      RemainderOfRemainder(b, m, y, z, q);
      LongRemainder(a, m, y, z);
      var w, u := Lo(Remainder(b, 2 * m, z), y), Remainder(b, m, y);
      CongSym(y * y, z, q);
      ScaleCong(z, y * y, w, u, q);
      EqModRefl(Lo(a[..2 * m], y), q);
      AddCong(Lo(a[..2 * m], y), Lo(a[..2 * m], y), Scale(z, w), Scale(y * y, u), q);
    }
  }

  /** At most 2 m coefficients. */
  lemma ShortRemainder(a: seq<int>, m: nat, y: int, z: int)
    requires m > 0 && |a| <= 2 * m
    ensures Lo(Remainder(a, 2 * m, z), y) == Remainder(a, m, y)
  {
    var w := a + Zero(2 * m - |a|);
    forall i | 0 <= i < m
      ensures Lo(w, y)[i] == Remainder(a, m, y)[i]
    {
      if |a| <= m {
        assert w[i + m] == 0;
      } else {
        var rest := a[m..];
        assert Remainder(rest, m, y) == rest + Zero(m - |rest|);
        assert (rest + Zero(m - |rest|))[i] == w[i + m];
      }
    }
  }

  /** The first 2 m coefficients apart. */
  lemma LongRemainder(a: seq<int>, m: nat, y: int, z: int)
    requires m > 0 && |a| > 2 * m
    ensures Lo(Remainder(a, 2 * m, z), y) == Add(Lo(a[..2 * m], y), Scale(z, Lo(Remainder(a[2 * m..], 2 * m, z), y)))
    ensures Remainder(a, m, y) == Add(Lo(a[..2 * m], y), Scale(y * y, Remainder(a[2 * m..], m, y)))
  {
    var b, r := a[2 * m..], Remainder(a[2 * m..], 2 * m, z);
    assert Remainder(a, 2 * m, z) == Add(a[..2 * m], Scale(z, r));
    LoLinear(z, a[..2 * m], Scale(z, r), y);
    LoLinear(z, r, r, y);
    var u := Remainder(b, m, y);
    assert a[m..][m..] == b && a[m..][..m] == a[m..2 * m];
    assert Remainder(a[m..], m, y) == Add(a[m..2 * m], Scale(y, u));
    assert Remainder(a, m, y) == Add(a[..m], Scale(y, Add(a[m..2 * m], Scale(y, u))));
    TwoSteps(a[..2 * m], m, y, u);
    assert a[..2 * m][..m] == a[..m] && a[..2 * m][m..] == a[m..2 * m];
  }

  lemma TwoSteps(c: seq<int>, m: nat, y: int, u: seq<int>)
    requires |c| == 2 * m && |u| == m
    ensures Add(c[..m], Scale(y, Add(c[m..], Scale(y, u)))) == Add(Lo(c, y), Scale(y * y, u))
  {
    forall i | 0 <= i < m
      ensures c[i] + y * (c[i + m] + y * u[i]) == (c[i] + y * c[i + m]) + y * y * u[i]
    {
      assert y * (c[i + m] + y * u[i]) == y * c[i + m] + y * (y * u[i]);
      assert y * (y * u[i]) == y * y * u[i];
    }
  }

  /** Every block on every level is the remainder of the polynomial by its node. */
  lemma {:induction false} ForwardIsRemainder(t: Tower, a: seq<int>, m: nat, e: nat, b: nat)
    requires Good(t) && m > 0 && e <= t.depth && |a| == BlockLen(t, m, 0) && b < Pow2(e)
    ensures BlockLen(t, m, e) > 0 && 1 <= Pow2(e) + b && (e > 0 ==> (Pow2(e) + b) / 2 < |t.roots|)
    ensures EqMod(Forward(t, a, m, e)[b], Remainder(a, BlockLen(t, m, e), NodeRoot(t, Pow2(e) + b)), t.q)
    decreases e
  {
    hide *;
    GoodShape(t);
    BlockLenPositive(t, m, e);
    if e == 0 {
      WholeRemainder(t, a, m, b);
    } else {
      var c, n := b / 2, Pow2(e - 1) + b / 2;
      PowerOfLevel(e, b);
      LevelFits(t, e);
      ForwardStep(t, a, m, e);
      ForwardIsRemainder(t, a, m, e - 1, c);
      RootSquares(t, n);
      LevelShape(t, a, m, e - 1);
      ForwardChild(t, Forward(t, a, m, e - 1), a, BlockLen(t, m, e), c, n);
      assert b == 2 * c || b == 2 * c + 1;
    }
  }

  lemma LevelShape(t: Tower, a: seq<int>, m: nat, e: nat)
    requires e <= t.depth && |t.roots| == Pow2(t.depth) && |a| == BlockLen(t, m, 0)
    ensures |Forward(t, a, m, e)| == Pow2(e) && Uniform(Forward(t, a, m, e), BlockLen(t, m, e))
  {
    hide Forward, Uniform, BlockLen, Pow2;
  }

  /** Both children of a block that is a remainder. */
  lemma ForwardChild(t: Tower, bl: Blocks, a: seq<int>, len: nat, c: nat, n: nat)
    requires t.q > 0 && len > 0 && 2 * |bl| <= |t.roots| && Uniform(bl, 2 * len) && c < |bl| && n == |bl| + c
    requires EqMod(bl[c], Remainder(a, 2 * len, NodeRoot(t, n)), t.q) && Cong(t.roots[n] * t.roots[n], NodeRoot(t, n), t.q)
    ensures EqMod(Split(t, bl, len)[2 * c], Remainder(a, len, NodeRoot(t, 2 * n)), t.q)
    ensures EqMod(Split(t, bl, len)[2 * c + 1], Remainder(a, len, NodeRoot(t, 2 * n + 1)), t.q)
  {
    hide *;
    NodeChildren(t, n);
    FromParent(t, bl, len, c, |bl|, bl[c]);
    HalfOfRemainder(bl[c], Remainder(a, 2 * len, NodeRoot(t, n)), a, len, t.roots[n], NodeRoot(t, n), t.q);
  }

  lemma GoodShape(t: Tower)
    requires Good(t)
    ensures t.q > 1 && |t.roots| == Pow2(t.depth)
  {
    hide SquareOk, MirrorOk;
  }

  lemma RootSquares(t: Tower, n: nat)
    requires Good(t) && 1 <= n < |t.roots|
    ensures (n > 1 ==> n / 2 < |t.roots|) && Cong(t.roots[n] * t.roots[n], NodeRoot(t, n), t.q)
  {
    assert SquareOk(t, n);
    hide MirrorOk, Cong, NodeRoot;
  }

  lemma WholeRemainder(t: Tower, a: seq<int>, m: nat, b: nat)
    requires t.q > 0 && |t.roots| == Pow2(t.depth) && m > 0 && |a| == BlockLen(t, m, 0) > 0 && b < Pow2(0)
    ensures Pow2(0) == 1 && EqMod(Forward(t, a, m, 0)[b], Remainder(a, BlockLen(t, m, 0), NodeRoot(t, Pow2(0) + b)), t.q)
  {
    hide EqMod, BlockLen, NodeRoot;
    assert a + Zero(0) == a;
    EqModRefl(a, t.q);
  }

  lemma PowerOfLevel(e: nat, b: nat)
    requires e > 0 && b < Pow2(e)
    ensures Pow2(e) == 2 * Pow2(e - 1) && b / 2 < Pow2(e - 1) && 1 <= Pow2(e - 1)
    ensures Pow2(e) + b == 2 * (Pow2(e - 1) + b / 2) + b % 2
  {}

  lemma FromParent(t: Tower, bl: Blocks, len: nat, c: nat, n: nat, x: seq<int>)
    requires 2 * |bl| <= |t.roots| && Uniform(bl, 2 * len) && c < |bl| == n && x == bl[c]
    ensures |x| == 2 * len
    ensures Split(t, bl, len)[2 * c] == Lo(x, t.roots[n + c]) && Split(t, bl, len)[2 * c + 1] == Lo(x, -t.roots[n + c])
  {
    SplitPair(t, bl, len, c);
    HiIsLo(x, t.roots[n + c]);
    hide Split, Lo, Hi;
  }

  /** The two halves of a block that is a remainder. */
  lemma HalfOfRemainder(x: seq<int>, r: seq<int>, a: seq<int>, len: nat, y: int, z: int, q: int)
    requires len > 0 && q > 0 && |x| == 2 * len && r == Remainder(a, 2 * len, z) && EqMod(x, r, q) && Cong(y * y, z, q)
    ensures EqMod(Lo(x, y), Remainder(a, len, y), q) && EqMod(Lo(x, -y), Remainder(a, len, -y), q)
  {
    hide *;
    LoCong(x, r, y, q);
    LoCong(x, r, -y, q);
    assert (-y) * (-y) == y * y;
    RemainderOfRemainder(a, len, y, z, q);
    RemainderOfRemainder(a, len, -y, z, q);
    EqModTrans(Lo(x, y), Lo(r, y), Remainder(a, len, y), q);
    EqModTrans(Lo(x, -y), Lo(r, -y), Remainder(a, len, -y), q);
  }
}
