/** Bit strings the standards' way: bit b of a number, and which bit of which entry a packed string holds at a position. */
module BitStrings {
  import opened MachineInts
  import opened BitPacking

  /** Bit b of a number, 0 being the least significant. */
  function NumberBit(x: nat, b: nat): (r: nat)
    ensures r < 2
  {
    if b == 0 then x % 2 else NumberBit(x / 2, b - 1)
  }

  /** Bits of a number with low part x below 2^k and high part y. */
  lemma {:induction false} BitOfSum(x: nat, y: nat, k: nat, b: nat)
    requires x < Pow(2, k)
    ensures NumberBit(x + Pow(2, k) * y, b) == if b < k then NumberBit(x, b) else NumberBit(y, b - k)
  {
    hide *;
    PowerStep(k);
    if k == 0 {
      assert x + 1 * y == y;
    } else {
      MulAssoc(2, Pow(2, k - 1), y);
      SumHalves(x, Pow(2, k - 1) * y);
      BitSteps(x, b);
      BitSteps(x + 2 * (Pow(2, k - 1) * y), b);
      if b > 0 {
        BitOfSum(x / 2, y, k - 1, b - 1);
      }
    }
  }

  lemma BitSteps(x: nat, b: nat)
    ensures NumberBit(x, b) == if b == 0 then x % 2 else NumberBit(x / 2, b - 1)
  {}

  lemma SumHalves(x: nat, z: nat)
    ensures (x + 2 * z) % 2 == x % 2 && (x + 2 * z) / 2 == x / 2 + z
  {}

  /** Numbers below 2^k with the same bits are equal. */
  lemma {:induction false} BitsDetermine(x: nat, y: nat, k: nat)
    requires x < Pow(2, k) && y < Pow(2, k) && forall b :: 0 <= b < k ==> NumberBit(x, b) == NumberBit(y, b)
    ensures x == y
  {
    hide NumberBit;
    if k > 0 {
      BitSteps(x, 0);
      BitSteps(y, 0);
      assert NumberBit(x, 0) == NumberBit(y, 0);
      forall b | 0 <= b < k - 1
        ensures NumberBit(x / 2, b) == NumberBit(y / 2, b)
      {
        BitSteps(x, b + 1);
        BitSteps(y, b + 1);
        assert NumberBit(x, b + 1) == NumberBit(y, b + 1);
      }
      BitsDetermine(x / 2, y / 2, k - 1);
    }
  }

  /** Bit n of a number written with digits of w bits is bit n mod w of digit n / w. */
  lemma {:induction false} BitOfValue(s: seq<int>, w: nat, n: nat)
    requires w > 0 && Digits(s, Pow(2, w)) && n < w * |s|
    ensures n / w < |s| && s[n / w] >= 0 && Value(s, Pow(2, w)) >= 0
    ensures NumberBit(Value(s, Pow(2, w)), n) == NumberBit(s[n / w], n % w)
  {
    hide *;
    Head(s, Pow(2, w), w, n);
    ValueBound(s, Pow(2, w));
    ValueBound(s[1..], Pow(2, w));
    BitOfSum(s[0], Value(s[1..], Pow(2, w)), w, n);
    if n < w {
      BelowDivisor(n, w);
    } else {
      OneLess(n, w);
      assert w * |s[1..]| == w * |s| - w by {
        MulDistributes(w, |s[1..]|, 1);
      }
      Rest(s, Pow(2, w));
      BitOfValue(s[1..], w, n - w);
    }
  }

  lemma Head(s: seq<int>, base: nat, w: nat, n: nat)
    requires Digits(s, base) && n < w * |s|
    ensures |s| > 0 && 0 <= s[0] < base && Value(s, base) == s[0] + base * Value(s[1..], base) && Digits(s[1..], base)
  {}

  lemma Rest(s: seq<int>, base: nat)
    requires |s| > 0 && Digits(s, base)
    ensures Digits(s[1..], base)
  {}

  lemma BelowDivisor(n: nat, w: nat)
    requires n < w
    ensures n / w == 0 && n % w == n
  {}

  lemma OneLess(n: nat, w: nat)
    requires 0 < w <= n
    ensures (n - w) / w == n / w - 1 && (n - w) % w == n % w && n / w >= 1
  {
    DigitStep(n % w, n / w, w);
    DigitStep(n % w, n / w - 1, w);
    MulDistributes(w, n / w, -1);
    assert n == n % w + w * (n / w);
    assert n - w == n % w + w * (n / w - 1);
  }

  /** In two packings of the same bit string, with digits of v and of w bits, the same position holds the same bit. */
  lemma SameStringSameBit(s: seq<int>, v: nat, u: seq<int>, w: nat, n: nat)
    requires v > 0 && w > 0 && Digits(s, Pow(2, v)) && Digits(u, Pow(2, w)) && Value(s, Pow(2, v)) == Value(u, Pow(2, w))
    requires n < v * |s| && n < w * |u|
    ensures n / v < |s| && n / w < |u| && s[n / v] >= 0 && u[n / w] >= 0
    ensures NumberBit(s[n / v], n % v) == NumberBit(u[n / w], n % w)
  {
    BitOfValue(s, v, n);
    BitOfValue(u, w, n);
  }
}
