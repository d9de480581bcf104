/** Commutativity of the ring product, and inner products of polynomial vectors in Z[X] / (X^n + 1). */
module RingVectors {
  import opened Vectors
  import opened Congruence
  import opened PolyRing

  // ---------- The ring is commutative ----------

  /** The unit polynomial. */
  function One(n: nat): (r: seq<int>)
    requires n > 0
    ensures |r| == n
  {
    [1] + Zero(n - 1)
  }

  /** X^i * 1 has a single one, at i, as long as i < n. */
  lemma UnitPower(n: nat, z: int, i: nat, k: nat)
    requires i < n && k < n
    ensures XPow(One(n), z, i)[k] == if k == i then 1 else 0
  {
    XPowAt(One(n), z, i, k);
    if i > k {
      assert One(n)[n + k - i] == 0;
      assert z * 0 == 0;
    }
  }

  /** The coefficients of a from i on, acting on X^i. */
  lemma {:induction false} ActOneFrom(a: seq<int>, z: int, i: nat, k: nat)
    requires |a| > 0 && i <= |a| && k < |a|
    ensures Act(a[i..], XPow(One(|a|), z, i), z)[k] == if k >= i then a[k] else 0
    decreases |a| - i
  {
    if i < |a| {
      ActOneFrom(a, z, i + 1, k);
      assert a[i..][1..] == a[i + 1..];
      assert MulX(XPow(One(|a|), z, i), z) == XPow(One(|a|), z, i + 1);
      UnitPower(|a|, z, i, k);
      assert a[i] * (if k == i then 1 else 0) == if k == i then a[i] else 0;
    }
  }

  lemma ActOne(a: seq<int>, z: int)
    requires |a| > 0
    ensures Act(a, One(|a|), z) == a
  {
    forall k | 0 <= k < |a|
      ensures Act(a, One(|a|), z)[k] == a[k]
    {
      ActOneFrom(a, z, 0, k);
      assert a[0..] == a;
    }
  }

  /** Multiplication is commutative. */
  lemma MulCommutes(a: seq<int>, b: seq<int>, z: int)
    requires |a| == |b| > 0
    ensures Mul(a, b, z) == Mul(b, a, z)
  {
    hide Act;
    ActOne(a, z);
    ActOne(b, z);
    ActCommutes(a, b, One(|a|), z);
  }

  /** (a s) r = s (a r). */
  lemma MulRotates(a: seq<int>, s: seq<int>, r: seq<int>, z: int)
    requires |a| == |s| == |r| > 0
    ensures Mul(Mul(a, s, z), r, z) == Mul(s, Mul(a, r, z), z)
  {
    hide Act;
    MulCommutes(Mul(a, s, z), r, z);
    ActCommutes(r, a, s, z);
    MulCommutes(r, s, z);
    ActCommutes(s, a, r, z);
  }

  // ---------- Inner products ----------

  ghost predicate Sized(v: Vec, m: nat)
  {
    forall i :: 0 <= i < |v| ==> |v[i]| == m
  }

  /** The sum of a[j] b[j] over j < n, modulo X^m + 1. */
  function Dot(a: Vec, b: Vec, n: nat, m: nat): (r: seq<int>)
    requires 1 <= n <= |a| && n <= |b| && m > 0 && Sized(a, m) && Sized(b, m)
    ensures |r| == m
  {
    var term := Mul(a[n - 1], b[n - 1], -1);
    if n == 1 then term else Add(Dot(a, b, n - 1, m), term)
  }

  function AddVec(a: Vec, b: Vec, m: nat): (r: Vec)
    requires |a| == |b| && Sized(a, m) && Sized(b, m)
    ensures |r| == |a| && Sized(r, m)
  {
    seq(|a|, i requires 0 <= i < |a| => Add(a[i], b[i]))
  }

  /** Each polynomial of a multiplied by r. */
  function TimesVec(a: Vec, r: seq<int>, m: nat): (v: Vec)
    requires |r| == m > 0 && Sized(a, m)
    ensures |v| == |a| && Sized(v, m)
  {
    seq(|a|, i requires 0 <= i < |a| => Mul(a[i], r, -1))
  }

  lemma {:induction false} DotAddRight(a: Vec, b: Vec, c: Vec, n: nat, m: nat)
    requires 1 <= n <= |a| && n <= |b| == |c| && m > 0 && Sized(a, m) && Sized(b, m) && Sized(c, m)
    ensures Dot(a, AddVec(b, c, m), n, m) == Add(Dot(a, b, n, m), Dot(a, c, n, m))
  {
    hide Act, Add;
    ActAdd(a[n - 1], b[n - 1], c[n - 1], -1);
    if n > 1 {
      DotAddRight(a, b, c, n - 1, m);
      AddSwap(Dot(a, b, n - 1, m), Dot(a, c, n - 1, m), Mul(a[n - 1], b[n - 1], -1), Mul(a[n - 1], c[n - 1], -1));
    }
  }

  lemma MulAddLeft(a: seq<int>, b: seq<int>, c: seq<int>)
    requires |a| == |b| == |c| > 0
    ensures Mul(Add(a, b), c, -1) == Add(Mul(a, c, -1), Mul(b, c, -1))
  {
    hide Act, Add;
    MulCommutes(Add(a, b), c, -1);
    ActAdd(c, a, b, -1);
    MulCommutes(a, c, -1);
    MulCommutes(b, c, -1);
  }

  lemma {:induction false} DotAddLeft(a: Vec, b: Vec, c: Vec, n: nat, m: nat)
    requires 1 <= n <= |a| == |b| && n <= |c| && m > 0 && Sized(a, m) && Sized(b, m) && Sized(c, m)
    ensures Dot(AddVec(a, b, m), c, n, m) == Add(Dot(a, c, n, m), Dot(b, c, n, m))
  {
    hide Act, Add;
    MulAddLeft(a[n - 1], b[n - 1], c[n - 1]);
    if n > 1 {
      DotAddLeft(a, b, c, n - 1, m);
      AddSwap(Dot(a, c, n - 1, m), Dot(b, c, n - 1, m), Mul(a[n - 1], c[n - 1], -1), Mul(b[n - 1], c[n - 1], -1));
    }
  }

  /** (a . s) r = s . (a r). */
  lemma {:induction false} DotTimes(a: Vec, s: Vec, r: seq<int>, n: nat, m: nat)
    requires 1 <= n <= |a| && n <= |s| && |r| == m > 0 && Sized(a, m) && Sized(s, m)
    ensures Mul(Dot(a, s, n, m), r, -1) == Dot(s, TimesVec(a, r, m), n, m)
  {
    hide Act, Add;
    MulRotates(a[n - 1], s[n - 1], r, -1);
    if n > 1 {
      DotTimes(a, s, r, n - 1, m);
      MulAddLeft(Dot(a, s, n - 1, m), Mul(a[n - 1], s[n - 1], -1), r);
    }
  }

  // ---------- Matrices ----------

  ghost predicate Square(a: seq<Vec>, k: nat, m: nat)
  {
    |a| == k && forall i :: 0 <= i < k ==> |a[i]| == k && Sized(a[i], m)
  }

  /** Row products: the vector A s. */
  function Apply(a: seq<Vec>, s: Vec, k: nat, m: nat): (r: Vec)
    requires Square(a, k, m) && |s| == k >= 1 && Sized(s, m) && m > 0
    ensures |r| == k && Sized(r, m)
  {
    seq(k, i requires 0 <= i < k => Dot(a[i], s, k, m))
  }

  function ColumnOf(a: seq<Vec>, j: nat, k: nat, m: nat): (r: Vec)
    requires Square(a, k, m) && j < k
    ensures |r| == k && Sized(r, m)
  {
    seq(k, i requires 0 <= i < k => a[i][j])
  }

  /** Column sums over the first n rows: the vector of sums over i < n of a[i][j] r[i]. */
  function ApplyTransposed(a: seq<Vec>, r: Vec, n: nat, k: nat, m: nat): (v: Vec)
    requires Square(a, k, m) && |r| == k && 1 <= n <= k && Sized(r, m) && m > 0
    ensures |v| == k && Sized(v, m)
  {
    seq(k, j requires 0 <= j < k => Dot(ColumnOf(a, j, k, m), r, n, m))
  }

  lemma TransposedStep(a: seq<Vec>, r: Vec, n: nat, k: nat, m: nat)
    requires Square(a, k, m) && |r| == k && 1 <= n < k && Sized(r, m) && m > 0
    ensures ApplyTransposed(a, r, n + 1, k, m)
         == AddVec(ApplyTransposed(a, r, n, k, m), TimesVec(a[n], r[n], m), m)
  {
    hide Act, Add;
    var x, y := ApplyTransposed(a, r, n + 1, k, m), AddVec(ApplyTransposed(a, r, n, k, m), TimesVec(a[n], r[n], m), m);
    forall j | 0 <= j < k
      ensures x[j] == y[j]
    {
      assert ColumnOf(a, j, k, m)[n] == a[n][j];
    }
  }

  lemma TransposedOne(a: seq<Vec>, r: Vec, k: nat, m: nat)
    requires Square(a, k, m) && |r| == k >= 1 && Sized(r, m) && m > 0
    ensures ApplyTransposed(a, r, 1, k, m) == TimesVec(a[0], r[0], m)
  {
    hide Act;
    var x, y := ApplyTransposed(a, r, 1, k, m), TimesVec(a[0], r[0], m);
    forall j | 0 <= j < k
      ensures x[j] == y[j]
    {
      assert ColumnOf(a, j, k, m)[0] == a[0][j];
    }
  }

  /** Exchange of the two sums, over the first n rows. */
  lemma {:induction false} ExchangeUpTo(a: seq<Vec>, s: Vec, r: Vec, n: nat, k: nat, m: nat)
    requires Square(a, k, m) && |s| == |r| == k && 1 <= n <= k && Sized(s, m) && Sized(r, m) && m > 0
    ensures Dot(Apply(a, s, k, m), r, n, m) == Dot(s, ApplyTransposed(a, r, n, k, m), k, m)
  {
    hide Act, Add;
    ApplyAt(a, s, k, m, n - 1);
    DotTimes(a[n - 1], s, r[n - 1], k, m);
    if n == 1 {
      TransposedOne(a, r, k, m);
    } else {
      ExchangeUpTo(a, s, r, n - 1, k, m);
      TransposedStep(a, r, n - 1, k, m);
      DotAddRight(s, ApplyTransposed(a, r, n - 1, k, m), TimesVec(a[n - 1], r[n - 1], m), k, m);
    }
  }

  lemma ApplyAt(a: seq<Vec>, s: Vec, k: nat, m: nat, i: nat)
    requires Square(a, k, m) && |s| == k >= 1 && Sized(s, m) && m > 0 && i < k
    ensures |a[i]| == k && Sized(a[i], m) && Apply(a, s, k, m)[i] == Dot(a[i], s, k, m)
  {}

  /** (A s) . r = s . (A^T r), over the integers. */
  lemma Exchange(a: seq<Vec>, s: Vec, r: Vec, k: nat, m: nat)
    requires Square(a, k, m) && |s| == |r| == k >= 1 && Sized(s, m) && Sized(r, m) && m > 0
    ensures Dot(Apply(a, s, k, m), r, k, m) == Dot(s, ApplyTransposed(a, r, k, k, m), k, m)
  {
    ExchangeUpTo(a, s, r, k, k, m);
  }

  // ---------- Congruence ----------

  ghost predicate VecEq(a: Vec, b: Vec, q: int)
    requires q > 0
  {
    |a| == |b| && forall i :: 0 <= i < |a| ==> EqMod(a[i], b[i], q)
  }

  lemma {:induction false} DotCong(a: Vec, b: Vec, c: Vec, d: Vec, n: nat, m: nat, q: int)
    requires q > 0 && 1 <= n <= |a| && n <= |c| && m > 0 && Sized(a, m) && Sized(b, m) && Sized(c, m) && Sized(d, m)
    requires VecEq(a, b, q) && VecEq(c, d, q)
    ensures EqMod(Dot(a, c, n, m), Dot(b, d, n, m), q)
  {
    hide EqMod, Act, Add, Cong;
    CongIntro(-1, -1, q, 0);
    ActCong(a[n - 1], b[n - 1], c[n - 1], d[n - 1], -1, -1, q);
    if n > 1 {
      DotCong(a, b, c, d, n - 1, m, q);
      AddCong(Dot(a, c, n - 1, m), Dot(b, d, n - 1, m), Mul(a[n - 1], c[n - 1], -1), Mul(b[n - 1], d[n - 1], -1), q);
    }
  }

  lemma VecEqRefl(a: Vec, q: int)
    requires q > 0
    ensures VecEq(a, a, q)
  {
    forall i | 0 <= i < |a|
      ensures EqMod(a[i], a[i], q)
    {
      EqModRefl(a[i], q);
    }
  }
}
