/**
 The field GF(2)[X] / (X^128 + X^7 + X^2 + X + 1) on coefficient sequences, lowest power first, and the proof that
 its product is the schoolbook product of polynomials reduced modulo that polynomial.
 */
module Gf128 {

  type Elem = seq<bool>

  function Zeros(n: nat): (r: Elem)
    ensures |r| == n
  {
    seq(n, _ => false)
  }

  function Xor(a: Elem, b: Elem): (r: Elem)
    requires |a| == |b|
    ensures |r| == |a|
  {
    seq(|a|, i requires 0 <= i < |a| => a[i] != b[i])
  }

  /** a if the coefficient c is one, else zero. */
  function Select(c: bool, a: Elem): (r: Elem)
    ensures |r| == |a|
  {
    if c then a else Zeros(|a|)
  }

  /** X^128 reduced: X^7 + X^2 + X + 1. */
  function Tail(): (r: Elem)
    ensures |r| == 128
  {
    seq(128, i => i == 0 || i == 1 || i == 2 || i == 7)
  }

  /** X * v in the field. */
  function TimesX(v: Elem): (r: Elem)
    requires |v| == 128
    ensures |r| == 128
  {
    Xor([false] + v[..127], Select(v[127], Tail()))
  }

  /** The sum of x[i] * X^i * v. */
  function Act(x: Elem, v: Elem): (r: Elem)
    requires |v| == 128
    ensures |r| == 128
    decreases |x|
  {
    if x == [] then Zeros(128) else Xor(Select(x[0], v), Act(x[1..], TimesX(v)))
  }

  /** The product of the field. */
  function Mul(x: Elem, y: Elem): (r: Elem)
    requires |x| == |y| == 128
    ensures |r| == 128
  {
    Act(x, y)
  }

  // ---------- Linearity ----------

  lemma XorLaws(a: Elem, b: Elem, c: Elem, d: Elem)
    requires |a| == |b| == |c| == |d|
    ensures Xor(a, b) == Xor(b, a)
    ensures Xor(a, a) == Zeros(|a|) && Xor(a, Zeros(|a|)) == a
    ensures Xor(Xor(a, b), Xor(c, d)) == Xor(Xor(a, c), Xor(b, d))
  {}

  lemma XorAssoc(a: Elem, b: Elem, c: Elem)
    requires |a| == |b| == |c|
    ensures Xor(Xor(a, b), c) == Xor(a, Xor(b, c))
  {}

  lemma SelectXor(c: bool, a: Elem, b: Elem)
    requires |a| == |b|
    ensures Select(c, Xor(a, b)) == Xor(Select(c, a), Select(c, b))
  {}

  lemma SelectTwo(c: bool, d: bool, a: Elem)
    ensures Select(c != d, a) == Xor(Select(c, a), Select(d, a))
  {}

  lemma TimesXLinear(a: Elem, b: Elem)
    requires |a| == |b| == 128
    ensures TimesX(Xor(a, b)) == Xor(TimesX(a), TimesX(b))
    ensures TimesX(Zeros(128)) == Zeros(128)
  {}

  lemma TimesXSelect(c: bool, a: Elem)
    requires |a| == 128
    ensures TimesX(Select(c, a)) == Select(c, TimesX(a))
  {
    TimesXLinear(a, a);
  }

  /** The product distributes over addition on the right. */
  lemma {:induction false} ActXor(x: Elem, a: Elem, b: Elem)
    requires |a| == |b| == 128
    ensures Act(x, Xor(a, b)) == Xor(Act(x, a), Act(x, b))
    decreases |x|
  {
    hide Xor, Select, TimesX, Zeros;
    XorLaws(Zeros(128), Zeros(128), Zeros(128), Zeros(128));
    if x != [] {
      TimesXLinear(a, b);
      SelectXor(x[0], a, b);
      ActXor(x[1..], TimesX(a), TimesX(b));
      XorLaws(Select(x[0], a), Select(x[0], b), Act(x[1..], TimesX(a)), Act(x[1..], TimesX(b)));
    }
  }

  /** And on the left. */
  lemma {:induction false} ActXorLeft(x: Elem, y: Elem, v: Elem)
    requires |x| == |y| && |v| == 128
    ensures Act(Xor(x, y), v) == Xor(Act(x, v), Act(y, v))
    decreases |x|
  {
    if x == [] {
      XorLaws(Zeros(128), Zeros(128), Zeros(128), Zeros(128));
      assert Xor(x, y) == [];
    } else {
      var d := Xor(x, y);
      assert d[0] == (x[0] != y[0]) && d[1..] == Xor(x[1..], y[1..]);
      hide Xor, Select, TimesX, Zeros;
      SelectTwo(x[0], y[0], v);
      ActXorLeft(x[1..], y[1..], TimesX(v));
      XorLaws(Select(x[0], v), Select(y[0], v), Act(x[1..], TimesX(v)), Act(y[1..], TimesX(v)));
    }
  }

  lemma {:induction false} ActZero(x: Elem)
    ensures Act(x, Zeros(128)) == Zeros(128)
  {
    hide TimesX;
    if x != [] {
      TimesXLinear(Zeros(128), Zeros(128));
      ActZero(x[1..]);
    }
  }

  lemma ActSelect(x: Elem, c: bool, v: Elem)
    requires |v| == 128
    ensures Act(x, Select(c, v)) == Select(c, Act(x, v))
  {
    ActZero(x);
  }

  lemma {:induction false} ActTimesX(x: Elem, v: Elem)
    requires |v| == 128
    ensures Act(x, TimesX(v)) == TimesX(Act(x, v))
    decreases |x|
  {
    hide Xor, Select, TimesX, Zeros;
    TimesXLinear(Zeros(128), Zeros(128));
    if x != [] {
      ActTimesX(x[1..], TimesX(v));
      TimesXSelect(x[0], v);
      TimesXLinear(Select(x[0], v), Act(x[1..], TimesX(v)));
    }
  }

  /** Multiplications commute with one another. */
  lemma {:induction false} ActCommutes(x: Elem, y: Elem, v: Elem)
    requires |v| == 128
    ensures Act(x, Act(y, v)) == Act(y, Act(x, v))
    decreases |x|
  {
    hide Xor, Select, TimesX, Zeros;
    ActZero(y);
    if x != [] {
      ActTimesX(y, v);
      ActCommutes(x[1..], y, TimesX(v));
      ActSelect(y, x[0], v);
      ActXor(y, Select(x[0], v), Act(x[1..], TimesX(v)));
    }
  }

  // ---------- The field laws ----------

  function One(): (r: Elem)
    ensures |r| == 128
  {
    [true] + Zeros(127)
  }

  function XPow(v: Elem, i: nat): (r: Elem)
    requires |v| == 128
    ensures |r| == 128
  {
    if i == 0 then v else TimesX(XPow(v, i - 1))
  }

  lemma {:induction false} UnitPower(i: nat, k: nat)
    requires i < 128 && k < 128
    ensures XPow(One(), i)[k] == (k == i)
  {
    if i > 0 {
      var w := XPow(One(), i - 1);
      UnitPower(i - 1, 127);
      assert !w[127];
      assert Select(w[127], Tail()) == Zeros(128);
      if k > 0 {
        UnitPower(i - 1, k - 1);
      }
    }
  }

  lemma {:induction false} ActOneFrom(x: Elem, i: nat, k: nat)
    requires |x| == 128 && i <= 128 && k < 128
    ensures Act(x[i..], XPow(One(), i))[k] == (k >= i && x[k])
    decreases 128 - i
  {
    hide TimesX;
    if i < 128 {
      ActOneFrom(x, i + 1, k);
      assert x[i..][1..] == x[i + 1..];
      UnitPower(i, k);
    }
  }

  lemma MulOne(x: Elem)
    requires |x| == 128
    ensures Mul(x, One()) == x
  {
    forall k | 0 <= k < 128
      ensures Mul(x, One())[k] == x[k]
    {
      ActOneFrom(x, 0, k);
      assert x[0..] == x;
    }
  }

  lemma MulCommutes(x: Elem, y: Elem)
    requires |x| == |y| == 128
    ensures Mul(x, y) == Mul(y, x)
  {
    hide Act;
    MulOne(x);
    MulOne(y);
    ActCommutes(x, y, One());
  }

  lemma MulAssociates(x: Elem, y: Elem, z: Elem)
    requires |x| == |y| == |z| == 128
    ensures Mul(Mul(x, y), z) == Mul(x, Mul(y, z))
  {
    hide Act;
    MulCommutes(Mul(x, y), z);
    ActCommutes(z, x, y);
    MulCommutes(y, z);
  }

  lemma MulDistributes(x: Elem, y: Elem, z: Elem)
    requires |x| == |y| == |z| == 128
    ensures Mul(x, Xor(y, z)) == Xor(Mul(x, y), Mul(x, z))
    ensures Mul(Xor(x, y), z) == Xor(Mul(x, z), Mul(y, z))
  {
    ActXor(x, y, z);
    ActXorLeft(x, y, z);
  }

  // ---------- Schoolbook products ----------

  /** X * p for polynomials of degree below 256. */
  function Shift(p: Elem): (r: Elem)
    requires |p| == 256
    ensures |r| == 256
  {
    [false] + p[..255]
  }

  /** The schoolbook product: the sum of x[i] * X^i * p, without reduction. */
  function Schoolbook(x: Elem, p: Elem): (r: Elem)
    requires |p| == 256
    ensures |r| == 256
    decreases |x|
  {
    if x == [] then Zeros(256) else Xor(Select(x[0], p), Schoolbook(x[1..], Shift(p)))
  }

  /** The field polynomial. */
  function Modulus(): (r: Elem)
    ensures |r| == 256
  {
    seq(256, i => i == 0 || i == 1 || i == 2 || i == 7 || i == 128)
  }

  function Pad(v: Elem): (r: Elem)
    requires |v| == 128
    ensures |r| == 256
  {
    v + Zeros(128)
  }

  /** p = v + q * Modulus, with a quotient of at most k coefficients. */
  ghost predicate Reduces(p: Elem, v: Elem, k: nat)
    requires |p| == 256 && |v| == 128
  {
    exists q: Elem :: |q| == k && p == Xor(Pad(v), Schoolbook(q, Modulus()))
  }

  lemma ShiftLinear(a: Elem, b: Elem)
    requires |a| == |b| == 256
    ensures Shift(Xor(a, b)) == Xor(Shift(a), Shift(b)) && Shift(Zeros(256)) == Zeros(256)
  {}

  lemma {:induction false} SchoolbookShift(q: Elem, p: Elem)
    requires |p| == 256
    ensures Schoolbook(q, Shift(p)) == Shift(Schoolbook(q, p))
    decreases |q|
  {
    hide Xor, Shift, Zeros;
    ShiftLinear(Zeros(256), Zeros(256));
    if q != [] {
      SchoolbookShift(q[1..], Shift(p));
      ShiftLinear(Select(q[0], p), Schoolbook(q[1..], Shift(p)));
      assert Select(q[0], Shift(p)) == Shift(Select(q[0], p));
    }
  }

  lemma {:induction false} SchoolbookXor(q: Elem, s: Elem, p: Elem)
    requires |p| == 256 && |q| == |s|
    ensures Schoolbook(Xor(q, s), p) == Xor(Schoolbook(q, p), Schoolbook(s, p))
    decreases |q|
  {
    if q == [] {
      XorLaws(Zeros(256), Zeros(256), Zeros(256), Zeros(256));
      assert Xor(q, s) == [];
    } else {
      var d := Xor(q, s);
      assert d[0] == (q[0] != s[0]) && d[1..] == Xor(q[1..], s[1..]);
      hide Xor, Select, Shift, Zeros;
      SelectTwo(q[0], s[0], p);
      SchoolbookXor(q[1..], s[1..], Shift(p));
      XorLaws(Select(q[0], p), Select(s[0], p), Schoolbook(q[1..], Shift(p)), Schoolbook(s[1..], Shift(p)));
    }
  }

  lemma {:induction false} SchoolbookZero(q: Elem, p: Elem)
    requires |p| == 256
    ensures Schoolbook(Zeros(|q|), p) == Zeros(256)
    decreases |q|
  {
    if q != [] {
      assert Zeros(|q|)[1..] == Zeros(|q[1..]|);
      SchoolbookZero(q[1..], Shift(p));
      hide Shift;
      XorLaws(Zeros(256), Zeros(256), Zeros(256), Zeros(256));
    }
  }

  /** X v = (X v in the field) + v[127] * Modulus. */
  lemma PadTimesX(v: Elem)
    requires |v| == 128
    ensures Shift(Pad(v)) == Xor(Pad(TimesX(v)), Select(v[127], Modulus()))
  {}

  /** Multiplying both sides by X. */
  lemma ReducesTimesX(p: Elem, v: Elem, k: nat)
    requires |p| == 256 && |v| == 128 && Reduces(p, v, k)
    ensures Reduces(Shift(p), TimesX(v), k + 1)
  {
    var q :| |q| == k && p == Xor(Pad(v), Schoolbook(q, Modulus()));
    var s := [v[127]] + q;
    hide Xor, Shift, TimesX, Pad, Modulus, Select, Zeros;
    ShiftLinear(Pad(v), Schoolbook(q, Modulus()));
    SchoolbookShift(q, Modulus());
    PadTimesX(v);
    assert s[1..] == q;
    XorAssoc(Pad(TimesX(v)), Select(v[127], Modulus()), Schoolbook(q, Shift(Modulus())));
    assert Shift(p) == Xor(Pad(TimesX(v)), Schoolbook(s, Modulus()));
  }

  /** A quotient may be padded. */
  lemma {:induction false} SchoolbookPadded(q: Elem, p: Elem)
    requires |p| == 256
    ensures Schoolbook(q + [false], p) == Schoolbook(q, p)
    decreases |q|
  {
    if q == [] {
      assert [false][1..] == [];
      assert Schoolbook([false], p) == Xor(Select(false, p), Schoolbook([], Shift(p)));
      XorLaws(Zeros(256), Zeros(256), Zeros(256), Zeros(256));
    } else {
      assert (q + [false])[1..] == q[1..] + [false];
      SchoolbookPadded(q[1..], Shift(p));
    }
  }

  lemma ReducesWider(p: Elem, v: Elem, k: nat)
    requires |p| == 256 && |v| == 128 && Reduces(p, v, k)
    ensures Reduces(p, v, k + 1)
  {
    var q :| |q| == k && p == Xor(Pad(v), Schoolbook(q, Modulus()));
    SchoolbookPadded(q, Modulus());
    hide Xor, Pad, Modulus, Schoolbook;
    assert |q + [false]| == k + 1;
  }

  lemma {:induction false} ReducesUpTo(p: Elem, v: Elem, k: nat, n: nat)
    requires |p| == 256 && |v| == 128 && Reduces(p, v, k) && k <= n
    ensures Reduces(p, v, n)
    decreases n - k
  {
    hide Reduces;
    if k < n {
      ReducesWider(p, v, k);
      ReducesUpTo(p, v, k + 1, n);
    }
  }

  lemma PadXor(a: Elem, b: Elem)
    requires |a| == |b| == 128
    ensures Pad(Xor(a, b)) == Xor(Pad(a), Pad(b)) && Pad(Zeros(128)) == Zeros(256)
  {}

  lemma ReducesXor(p: Elem, v: Elem, r: Elem, w: Elem, k: nat)
    requires |p| == |r| == 256 && |v| == |w| == 128 && Reduces(p, v, k) && Reduces(r, w, k)
    ensures Reduces(Xor(p, r), Xor(v, w), k)
  {
    var q :| |q| == k && p == Xor(Pad(v), Schoolbook(q, Modulus()));
    var s :| |s| == k && r == Xor(Pad(w), Schoolbook(s, Modulus()));
    hide Xor, Pad, Modulus, Schoolbook;
    SchoolbookXor(q, s, Modulus());
    PadXor(v, w);
    XorLaws(Pad(v), Schoolbook(q, Modulus()), Pad(w), Schoolbook(s, Modulus()));
    assert Xor(p, r) == Xor(Pad(Xor(v, w)), Schoolbook(Xor(q, s), Modulus()));
  }

  lemma ReducesZero(k: nat)
    ensures Reduces(Zeros(256), Zeros(128), k)
  {
    SchoolbookZero(Zeros(k), Modulus());
    PadXor(Zeros(128), Zeros(128));
    XorLaws(Zeros(256), Zeros(256), Zeros(256), Zeros(256));
    hide Modulus, Pad, Schoolbook;
    assert |Zeros(k)| == k;
  }

  lemma ReducesSelect(c: bool, p: Elem, v: Elem, k: nat)
    requires |p| == 256 && |v| == 128 && Reduces(p, v, k)
    ensures Reduces(Select(c, p), Select(c, v), k)
  {
    hide Reduces;
    ReducesZero(k);
  }

  /** The field product is the schoolbook product, coefficient by coefficient of x, reduced. */
  lemma {:induction false} ActReduces(x: Elem, p: Elem, v: Elem, k: nat)
    requires |p| == 256 && |v| == 128 && Reduces(p, v, k)
    ensures Reduces(Schoolbook(x, p), Act(x, v), k + |x|)
    decreases |x|
  {
    hide Reduces, Xor, Select, Shift, TimesX, Zeros;
    ReducesZero(k + |x|);
    if x != [] {
      ReducesTimesX(p, v, k);
      ActReduces(x[1..], Shift(p), TimesX(v), k + 1);
      ReducesUpTo(p, v, k, k + |x|);
      ReducesSelect(x[0], p, v, k + |x|);
      ReducesXor(Select(x[0], p), Select(x[0], v), Schoolbook(x[1..], Shift(p)), Act(x[1..], TimesX(v)), k + |x|);
    }
  }

  /** The product is the remainder of the schoolbook product modulo the field polynomial. */
  lemma MulIsRemainder(x: Elem, y: Elem)
    requires |x| == |y| == 128
    ensures Reduces(Schoolbook(x, Pad(y)), Mul(x, y), 128)
  {
    XorLaws(Pad(y), Pad(y), Pad(y), Pad(y));
    var none: Elem := [];
    assert Schoolbook(none, Modulus()) == Zeros(256);
    assert |none| == 0 && Pad(y) == Xor(Pad(y), Schoolbook(none, Modulus()));
    hide Reduces, Pad;
    ActReduces(x, Pad(y), y, 0);
  }

  // ---------- The remainder is unique ----------

  /** The leading coefficient of a product with a polynomial of degree m. */
  lemma {:induction false} LeadingTerm(d: Elem, p: Elem, m: nat)
    requires |p| == 256 && |d| >= 1 && m + |d| <= 256 && p[m] && d[|d| - 1] && forall k :: m < k < 256 ==> !p[k]
    ensures Schoolbook(d, p)[m + |d| - 1]
    decreases |d|
  {
    if |d| == 1 {
      assert d[1..] == [];
    } else {
      LeadingTerm(d[1..], Shift(p), m + 1);
    }
  }

  /** A multiple of the modulus of degree below 128 is zero. */
  lemma {:induction false} SmallMultipleIsZero(d: Elem)
    requires |d| <= 128 && forall k :: 128 <= k < 256 ==> !Schoolbook(d, Modulus())[k]
    ensures Schoolbook(d, Modulus()) == Zeros(256)
    decreases |d|
  {
    if d != [] {
      var n := |d| - 1;
      if d[n] {
        LeadingTerm(d, Modulus(), 128);
        assert false;
      } else {
        assert d == d[..n] + [false];
        SchoolbookPadded(d[..n], Modulus());
        SmallMultipleIsZero(d[..n]);
      }
    }
  }

  /** So MulIsRemainder determines the product. */
  lemma RemainderIsUnique(p: Elem, v: Elem, w: Elem)
    requires |p| == 256 && |v| == |w| == 128 && Reduces(p, v, 128) && Reduces(p, w, 128)
    ensures v == w
  {
    var q :| |q| == 128 && p == Xor(Pad(v), Schoolbook(q, Modulus()));
    var s :| |s| == 128 && p == Xor(Pad(w), Schoolbook(s, Modulus()));
    var d := Xor(q, s);
    SchoolbookXor(q, s, Modulus());
    hide Schoolbook, Modulus;
    var m := Schoolbook(d, Modulus());
    forall k | 0 <= k < 256
      ensures m[k] == (Pad(v)[k] != Pad(w)[k])
    {
      assert p[k] == (Pad(v)[k] != Schoolbook(q, Modulus())[k]) && p[k] == (Pad(w)[k] != Schoolbook(s, Modulus())[k]);
    }
    SmallMultipleIsZero(d);
    forall k | 0 <= k < 128
      ensures v[k] == w[k]
    {
      assert !m[k];
    }
  }
}
