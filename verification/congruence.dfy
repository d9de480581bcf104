/** Congruence of integers, and of integer sequences, modulo a positive modulus. */
module Congruence {

  function Multiple(q: int, k: int): int
  {
    q * k
  }

  ghost predicate Cong(a: int, b: int, q: int)
    requires q > 0
  {
    exists k :: a - b == Multiple(q, k)
  }

  lemma MultipleSize(q: int, k: int)
    requires q > 0
    ensures k >= 1 ==> q * k >= q
    ensures k <= -1 ==> q * k <= -q
  {
    if k >= 1 {
      assert q * k == q + q * (k - 1);
    } else if k <= -1 {
      assert q * k == -q + q * (k + 1);
    }
  }

  /** A difference that is a multiple of `q` is a congruence. */
  lemma CongIntro(a: int, b: int, q: int, k: int)
    requires q > 0 && a - b == q * k
    ensures Cong(a, b, q)
  {
    assert a - b == Multiple(q, k);
  }

  /** The multiplier behind a congruence. */
  ghost function Quot(a: int, b: int, q: int): (k: int)
    requires q > 0 && Cong(a, b, q)
    ensures a - b == q * k
  {
    var k :| a - b == Multiple(q, k);
    k
  }

  /** The definition by remainders. */
  lemma CongIff(a: int, b: int, q: int)
    requires q > 0
    ensures Cong(a, b, q) <==> (a - b) % q == 0
  {
    if Cong(a, b, q) {
      var k, r := Quot(a, b, q), (a - b) % q;
      assert r == q * (k - (a - b) / q);
      MultipleSize(q, k - (a - b) / q);
    }
    if (a - b) % q == 0 {
      CongIntro(a, b, q, (a - b) / q);
    }
  }

  lemma CongTrans(a: int, b: int, c: int, q: int)
    requires q > 0 && Cong(a, b, q) && Cong(b, c, q)
    ensures Cong(a, c, q)
  {
    CongIntro(a, c, q, Quot(a, b, q) + Quot(b, c, q));
  }

  lemma CongSym(a: int, b: int, q: int)
    requires q > 0 && Cong(a, b, q)
    ensures Cong(b, a, q)
  {
    CongIntro(b, a, q, -Quot(a, b, q));
  }

  lemma CongAdd(a: int, b: int, c: int, d: int, q: int)
    requires q > 0 && Cong(a, b, q) && Cong(c, d, q)
    ensures Cong(a + c, b + d, q)
  {
    CongIntro(a + c, b + d, q, Quot(a, b, q) + Quot(c, d, q));
  }

  lemma CongSub(a: int, b: int, c: int, d: int, q: int)
    requires q > 0 && Cong(a, b, q) && Cong(c, d, q)
    ensures Cong(a - c, b - d, q)
  {
    CongIntro(a - c, b - d, q, Quot(a, b, q) - Quot(c, d, q));
  }

  lemma CongMul(a: int, b: int, c: int, d: int, q: int)
    requires q > 0 && Cong(a, b, q) && Cong(c, d, q)
    ensures Cong(a * c, b * d, q)
  {
    var k, l := Quot(a, b, q), Quot(c, d, q);
    calc {
      a * c - b * d;
      (a - b) * c + b * (c - d);
      (q * k) * c + b * (q * l);
      q * (k * c + b * l);
    }
    CongIntro(a * c, b * d, q, k * c + b * l);
  }

  /** Two congruent numbers less than `q` apart are equal. */
  lemma CongClose(a: int, b: int, q: int)
    requires q > 0 && Cong(a, b, q) && -q < a - b < q
    ensures a == b
  {
    MultipleSize(q, Quot(a, b, q));
  }

  lemma CongMod(a: int, q: int)
    requires q > 0
    ensures Cong(a % q, a, q)
  {
    CongIntro(a % q, a, q, -(a / q));
  }

  /** Congruent numbers have one canonical residue. */
  lemma CongModEq(a: int, b: int, q: int)
    requires q > 0 && Cong(a, b, q)
    ensures a % q == b % q
  {
    CongMod(a, q);
    CongMod(b, q);
    CongSym(b % q, b, q);
    CongTrans(a % q, a, b, q);
    CongTrans(a % q, b, b % q, q);
    CongClose(a % q, b % q, q);
  }

  ghost predicate EqMod(a: seq<int>, b: seq<int>, q: int)
    requires q > 0
  {
    |a| == |b| && forall i :: 0 <= i < |a| ==> Cong(a[i], b[i], q)
  }

  lemma EqModRefl(a: seq<int>, q: int)
    requires q > 0
    ensures EqMod(a, a, q)
  {
    forall i | 0 <= i < |a|
      ensures Cong(a[i], a[i], q)
    {
      CongIntro(a[i], a[i], q, 0);
    }
  }

  lemma EqModTrans(a: seq<int>, b: seq<int>, c: seq<int>, q: int)
    requires q > 0 && EqMod(a, b, q) && EqMod(b, c, q)
    ensures EqMod(a, c, q)
  {
    forall i | 0 <= i < |a|
      ensures Cong(a[i], c[i], q)
    {
      CongTrans(a[i], b[i], c[i], q);
    }
  }

  lemma EqModSym(a: seq<int>, b: seq<int>, q: int)
    requires q > 0 && EqMod(a, b, q)
    ensures EqMod(b, a, q)
  {
    forall i | 0 <= i < |a|
      ensures Cong(b[i], a[i], q)
    {
      CongSym(a[i], b[i], q);
    }
  }

  lemma Regroup(a: int, b: int, c: int)
    ensures (a * c) * (b * c) == a * b * (c * c)
  {
    assert (a * c) * (b * c) == a * (c * (b * c)) == a * (b * (c * c));
  }
}
