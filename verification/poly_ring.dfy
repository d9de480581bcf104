/**
 Multiplication in Z[X] / (X^n - z), on coefficient sequences over the exact integers.
 The modulus q enters only through the congruence lemmas.
 */
module PolyRing {
  import opened Congruence

  function Zero(n: nat): (r: seq<int>)
  {
    seq(n, _ => 0)
  }

  function Add(a: seq<int>, b: seq<int>): (r: seq<int>)
    requires |a| == |b|
    ensures |r| == |a|
  {
    seq(|a|, i requires 0 <= i < |a| => a[i] + b[i])
  }

  function Sub(a: seq<int>, b: seq<int>): (r: seq<int>)
    requires |a| == |b|
    ensures |r| == |a|
  {
    seq(|a|, i requires 0 <= i < |a| => a[i] - b[i])
  }

  function Scale(s: int, a: seq<int>): (r: seq<int>)
    ensures |r| == |a|
  {
    seq(|a|, i requires 0 <= i < |a| => s * a[i])
  }

  /** X * b in Z[X] / (X^n - z). */
  function MulX(b: seq<int>, z: int): (r: seq<int>)
    requires |b| > 0
    ensures |r| == |b|
  {
    [z * b[|b| - 1]] + b[..|b| - 1]
  }

  /** The polynomial a (of any length) acting on b: the sum of a[i] * X^i * b. */
  function Act(a: seq<int>, b: seq<int>, z: int): (r: seq<int>)
    requires |b| > 0
    ensures |r| == |b|
    decreases |a|
  {
    if a == [] then Zero(|b|) else Add(Scale(a[0], b), Act(a[1..], MulX(b, z), z))
  }

  /** The product of a and b modulo X^n - z. */
  function Mul(a: seq<int>, b: seq<int>, z: int): (r: seq<int>)
    requires |a| == |b| > 0
    ensures |r| == |a|
  {
    Act(a, b, z)
  }

  // ---------- The product is the schoolbook convolution ----------

  /** Coefficient k of X^i * b, for i <= n. */
  function Wrapped(b: seq<int>, z: int, i: nat, k: nat): int
    requires k < |b| && i <= |b|
  {
    if i <= k then b[k - i] else z * b[|b| + k - i]
  }

  /** The sum of a[j] * (coefficient k of X^j * b) over j >= i: the schoolbook coefficient of a * b. */
  function Convolution(a: seq<int>, b: seq<int>, z: int, k: nat, i: nat): int
    requires |a| == |b| && k < |b| && i <= |a|
    decreases |a| - i
  {
    if i == |a| then 0 else a[i] * Wrapped(b, z, i, k) + Convolution(a, b, z, k, i + 1)
  }

  function XPow(b: seq<int>, z: int, i: nat): (r: seq<int>)
    requires |b| > 0
    ensures |r| == |b|
  {
    if i == 0 then b else MulX(XPow(b, z, i - 1), z)
  }

  lemma {:induction false} XPowAt(b: seq<int>, z: int, i: nat, k: nat)
    requires k < |b| && i <= |b|
    ensures XPow(b, z, i)[k] == Wrapped(b, z, i, k)
  {
    if i > 0 {
      XPowAt(b, z, i - 1, if k == 0 then |b| - 1 else k - 1);
    }
  }

  lemma {:induction false} ActIsConvolution(a: seq<int>, b: seq<int>, z: int, k: nat, i: nat)
    requires |a| == |b| && k < |b| && i <= |a|
    ensures Act(a[i..], XPow(b, z, i), z)[k] == Convolution(a, b, z, k, i)
    decreases |a| - i
  {
    if i < |a| {
      ActIsConvolution(a, b, z, k, i + 1);
      assert a[i..][1..] == a[i + 1..];
      assert MulX(XPow(b, z, i), z) == XPow(b, z, i + 1);
      XPowAt(b, z, i, k);
    }
  }

  /** Every coefficient of the product is the z-wrapped convolution sum. */
  lemma MulIsConvolution(a: seq<int>, b: seq<int>, z: int, k: nat)
    requires |a| == |b| && k < |b|
    ensures Mul(a, b, z)[k] == Convolution(a, b, z, k, 0)
  {
    ActIsConvolution(a, b, z, k, 0);
    assert a[0..] == a;
  }

  // ---------- Linearity ----------

  lemma MulXLinear(s: int, b: seq<int>, c: seq<int>, z: int)
    requires |b| == |c| > 0
    ensures MulX(Add(b, c), z) == Add(MulX(b, z), MulX(c, z))
    ensures MulX(Scale(s, b), z) == Scale(s, MulX(b, z))
  {
    var n := |b| - 1;
    assert z * (b[n] + c[n]) == z * b[n] + z * c[n];
    assert z * (s * b[n]) == s * (z * b[n]);
    assert MulX(Add(b, c), z) == Add(MulX(b, z), MulX(c, z));
  }

  lemma ScaleAdd(s: int, a: seq<int>, b: seq<int>)
    requires |a| == |b|
    ensures Scale(s, Add(a, b)) == Add(Scale(s, a), Scale(s, b))
  {
    forall i | 0 <= i < |a|
      ensures s * (a[i] + b[i]) == s * a[i] + s * b[i]
    {}
  }

  lemma ScaleScale(s: int, t: int, a: seq<int>)
    ensures Scale(s, Scale(t, a)) == Scale(s * t, a)
  {
    forall i | 0 <= i < |a|
      ensures s * (t * a[i]) == (s * t) * a[i]
    {}
  }

  lemma AddScales(s: int, t: int, a: seq<int>)
    ensures Add(Scale(s, a), Scale(t, a)) == Scale(s + t, a)
  {
    forall i | 0 <= i < |a|
      ensures s * a[i] + t * a[i] == (s + t) * a[i]
    {}
  }

  /** Act is additive in the polynomial acted on. */
  lemma {:induction false} ActAdd(a: seq<int>, b: seq<int>, c: seq<int>, z: int)
    requires |b| == |c| > 0
    ensures Act(a, Add(b, c), z) == Add(Act(a, b, z), Act(a, c, z))
    decreases |a|
  {
    if a != [] {
      MulXLinear(0, b, c, z);
      ScaleAdd(a[0], b, c);
      ActAdd(a[1..], MulX(b, z), MulX(c, z), z);
    }
  }

  /** Act commutes with scaling of the polynomial acted on. */
  lemma {:induction false} ActScale(a: seq<int>, s: int, b: seq<int>, z: int)
    requires |b| > 0
    ensures Act(a, Scale(s, b), z) == Scale(s, Act(a, b, z))
    decreases |a|
  {
    if a != [] {
      MulXLinear(s, b, b, z);
      ScaleScale(a[0], s, b);
      ScaleScale(s, a[0], b);
      ActScale(a[1..], s, MulX(b, z), z);
      ScaleAdd(s, Scale(a[0], b), Act(a[1..], MulX(b, z), z));
    }
  }

  /** Act is linear in the acting polynomial. */
  lemma {:induction false} ActLinear(a: seq<int>, s: int, c: seq<int>, b: seq<int>, z: int)
    requires |a| == |c| && |b| > 0
    ensures Act(Add(a, Scale(s, c)), b, z) == Add(Act(a, b, z), Scale(s, Act(c, b, z)))
    decreases |a|
  {
    hide *;
    var d := Add(a, Scale(s, c));
    if a == [] {
      ActNothing(a, b, z);
      ActNothing(c, b, z);
      ActNothing(d, b, z);
      AddZeros(|b|, s);
    } else {
      var x := MulX(b, z);
      FirstAndRest(a, s, c);
      ActFirst(a, b, z);
      ActFirst(c, b, z);
      ActFirst(d, b, z);
      ActLinear(a[1..], s, c[1..], x, z);
      AddScales(a[0], s * c[0], b);
      ScaleScale(s, c[0], b);
      ScaleAdd(s, Scale(c[0], b), Act(c[1..], x, z));
      AddSwap(Scale(a[0], b), Scale(s, Scale(c[0], b)), Act(a[1..], x, z), Scale(s, Act(c[1..], x, z)));
    }
  }

  lemma ActNothing(a: seq<int>, b: seq<int>, z: int)
    requires |b| > 0 && |a| == 0
    ensures Act(a, b, z) == Zero(|b|)
  {}

  lemma AddZeros(n: nat, s: int)
    ensures Add(Zero(n), Scale(s, Zero(n))) == Zero(n)
  {}

  lemma ActFirst(a: seq<int>, b: seq<int>, z: int)
    requires |b| > 0 && |a| > 0
    ensures |MulX(b, z)| == |b| && Act(a, b, z) == Add(Scale(a[0], b), Act(a[1..], MulX(b, z), z))
  {}

  lemma FirstAndRest(a: seq<int>, s: int, c: seq<int>)
    requires |a| == |c| > 0
    ensures var d := Add(a, Scale(s, c)); d[0] == a[0] + s * c[0] && d[1..] == Add(a[1..], Scale(s, c[1..]))
  {}

  lemma AddSwap(a: seq<int>, b: seq<int>, c: seq<int>, d: seq<int>)
    requires |a| == |b| == |c| == |d|
    ensures Add(Add(a, b), Add(c, d)) == Add(Add(a, c), Add(b, d))
  {}

  lemma {:induction false} ActMulX(a: seq<int>, b: seq<int>, z: int)
    requires |b| > 0
    ensures Act(a, MulX(b, z), z) == MulX(Act(a, b, z), z)
    decreases |a|
  {
    if a == [] {
      assert MulX(Zero(|b|), z) == Zero(|b|);
    } else {
      var rest := Act(a[1..], MulX(b, z), z);
      ActMulX(a[1..], MulX(b, z), z);
      MulXLinear(a[0], b, b, z);
      MulXLinear(0, Scale(a[0], b), rest, z);
    }
  }

  /** Multiplications commute with one another. */
  lemma {:induction false} ActCommutes(a: seq<int>, c: seq<int>, b: seq<int>, z: int)
    requires |b| > 0
    ensures Act(a, Act(c, b, z), z) == Act(c, Act(a, b, z), z)
    decreases |a|
  {
    if a == [] {
      ActScale(c, 0, b, z);
      assert Scale(0, b) == Zero(|b|);
      assert Scale(0, Act(c, b, z)) == Zero(|b|);
    } else {
      ActMulX(c, b, z);
      ActCommutes(a[1..], c, MulX(b, z), z);
      ActScale(c, a[0], b, z);
      ActAdd(c, Scale(a[0], b), Act(a[1..], MulX(b, z), z), z);
    }
  }

  lemma {:induction false} ActConcat(a: seq<int>, c: seq<int>, b: seq<int>, z: int)
    requires |b| > 0
    ensures Act(a + c, b, z) == Add(Act(a, b, z), Act(c, XPow(b, z, |a|), z))
    decreases |a|
  {
    if a == [] {
      assert a + c == c;
    } else {
      assert (a + c)[1..] == a[1..] + c;
      ActConcat(a[1..], c, MulX(b, z), z);
      XPowShift(b, z, |a| - 1);
    }
  }

  lemma {:induction false} XPowShift(b: seq<int>, z: int, i: nat)
    requires |b| > 0
    ensures XPow(MulX(b, z), z, i) == XPow(b, z, i + 1)
  {
    if i > 0 {
      XPowShift(b, z, i - 1);
    }
  }

  /** X^n = z in Z[X] / (X^n - z). */
  lemma XPowN(b: seq<int>, z: int)
    requires |b| > 0
    ensures XPow(b, z, |b|) == Scale(z, b)
  {
    forall k | 0 <= k < |b|
      ensures XPow(b, z, |b|)[k] == z * b[k]
    {
      XPowAt(b, z, |b|, k);
    }
  }

  // ---------- Congruence ----------

  lemma AddCong(a: seq<int>, b: seq<int>, c: seq<int>, d: seq<int>, q: int)
    requires q > 0 && |a| == |c| && EqMod(a, b, q) && EqMod(c, d, q)
    ensures EqMod(Add(a, c), Add(b, d), q)
  {
    forall i | 0 <= i < |a|
      ensures Cong(a[i] + c[i], b[i] + d[i], q)
    {
      CongAdd(a[i], b[i], c[i], d[i], q);
    }
  }

  lemma SubCong(a: seq<int>, b: seq<int>, c: seq<int>, d: seq<int>, q: int)
    requires q > 0 && |a| == |c| && EqMod(a, b, q) && EqMod(c, d, q)
    ensures EqMod(Sub(a, c), Sub(b, d), q)
  {
    forall i | 0 <= i < |a|
      ensures Cong(a[i] - c[i], b[i] - d[i], q)
    {
      CongSub(a[i], b[i], c[i], d[i], q);
    }
  }

  lemma ScaleCong(s: int, t: int, a: seq<int>, b: seq<int>, q: int)
    requires q > 0 && Cong(s, t, q) && EqMod(a, b, q)
    ensures EqMod(Scale(s, a), Scale(t, b), q)
  {
    forall i | 0 <= i < |a|
      ensures Cong(s * a[i], t * b[i], q)
    {
      CongMul(s, t, a[i], b[i], q);
    }
  }

  lemma MulXCong(a: seq<int>, b: seq<int>, y: int, z: int, q: int)
    requires q > 0 && |a| > 0 && EqMod(a, b, q) && Cong(y, z, q)
    ensures EqMod(MulX(a, y), MulX(b, z), q)
  {
    CongMul(y, z, a[|a| - 1], b[|b| - 1], q);
  }

  lemma {:induction false} ActCong(a: seq<int>, b: seq<int>, c: seq<int>, d: seq<int>, y: int, z: int, q: int)
    requires q > 0 && |c| > 0 && EqMod(a, b, q) && EqMod(c, d, q) && Cong(y, z, q)
    ensures EqMod(Act(a, c, y), Act(b, d, z), q)
    decreases |a|
  {
    if a == [] {
      EqModRefl(Zero(|c|), q);
    } else {
      MulXCong(c, d, y, z, q);
      ActCong(a[1..], b[1..], MulX(c, y), MulX(d, z), y, z, q);
      ScaleCong(a[0], b[0], c, d, q);
      AddCong(Scale(a[0], c), Scale(b[0], d), Act(a[1..], MulX(c, y), y), Act(b[1..], MulX(d, z), z), q);
    }
  }

  lemma ScaleOne(w: seq<int>)
    ensures Scale(1, w) == w
  {}
}
