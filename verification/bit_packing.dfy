/**
 Little-endian packing of d-bit coefficients into bytes. A buffer and a coefficient sequence hold the same bits
 exactly when the numbers they denote, in base 256 and in base 2^d, are equal; such a correspondence is a
 bijection, which is where every codec's round trip comes from.
 */
module BitPacking {
  import opened MachineInts

  function Pow(b: nat, e: nat): (r: nat)
    ensures b > 0 ==> r > 0
    decreases e
  {
    if e == 0 then 1 else b * Pow(b, e - 1)
  }

  /** The number with the digits s, least significant first. */
  function Value(s: seq<int>, base: nat): int
  {
    if s == [] then 0 else s[0] + base * Value(s[1..], base)
  }

  ghost predicate Digits(s: seq<int>, base: int)
  {
    forall i :: 0 <= i < |s| ==> 0 <= s[i] < base
  }

  function Low(n: int, base: nat): (r: nat)
    requires base > 0
    ensures r < base
  {
    n % base
  }

  function High(n: int, base: nat): int
    requires base > 0
  {
    n / base
  }

  /** The len lowest digits of a number. */
  function ToDigits(n: int, base: nat, len: nat): (r: seq<nat>)
    requires base > 0
    ensures |r| == len && Digits(r, base)
    decreases len
  {
    hide Low, High;
    if len == 0 then [] else [Low(n, base)] + ToDigits(High(n, base), base, len - 1)
  }

  /** The bytes ts and the d-bit coefficients denote the same bit string. */
  ghost predicate SameBits(buf: seq<int>, ts: seq<int>, d: nat)
  {
    8 * |buf| == d * |ts| && Digits(buf, 256) && Digits(ts, Pow(2, d)) && Value(buf, 256) == Value(ts, Pow(2, d))
  }

  /** The number of bytes that n coefficients of d bits fill. */
  function PackedLength(n: nat, d: nat): nat
  {
    d * n / 8
  }

  /** The packed form of d-bit coefficients. */
  function Pack(ts: seq<int>, d: nat): (r: seq<nat>)
    ensures |r| == PackedLength(|ts|, d) && Digits(r, 256)
  {
    ToDigits(Value(ts, Pow(2, d)), 256, PackedLength(|ts|, d))
  }

  /** The n coefficients of d bits in a buffer. */
  function Unpack(buf: seq<int>, d: nat, n: nat): (r: seq<nat>)
    ensures |r| == n && Digits(r, Pow(2, d))
  {
    ToDigits(Value(buf, 256), Pow(2, d), n)
  }

  lemma DigitStep(x: int, v: int, base: int)
    requires 0 <= x < base
    ensures (x + base * v) % base == x && (x + base * v) / base == v
  {
    var q, r := (x + base * v) / base, (x + base * v) % base;
    assert base * (q - v) == x - r;
    if q - v >= 1 {
      ProductLe(1, q - v, base);
    } else if q - v <= -1 {
      ProductLe(q - v, -1, base);
    }
  }

  /** A digit sequence is recovered from its number. */
  lemma {:induction false} DigitsOfValue(s: seq<int>, base: nat)
    requires base > 0 && Digits(s, base)
    ensures ToDigits(Value(s, base), base, |s|) == s
  {
    if s != [] {
      DigitStep(s[0], Value(s[1..], base), base);
      DigitsOfValue(s[1..], base);
    }
  }

  /** Both directions of a correspondence are determined. */
  lemma SameBitsDetermines(buf: seq<int>, ts: seq<int>, d: nat)
    requires SameBits(buf, ts, d)
    ensures buf == Pack(ts, d)
    ensures ts == Unpack(buf, d, |ts|)
  {
    DigitsOfValue(buf, 256);
    DigitsOfValue(ts, Pow(2, d));
    assert d * |ts| / 8 == |buf|;
  }

  /** A number below base^len is recovered from its digits. */
  lemma {:induction false} ValueOfDigits(n: int, base: nat, len: nat)
    requires base > 0 && 0 <= n < Pow(base, len)
    ensures Value(ToDigits(n, base, len), base) == n
    decreases len
  {
    if len > 0 {
      QuotientBound(n, base, Pow(base, len - 1));
      DivisionFacts(n, base);
      ValueOfDigits(High(n, base), base, len - 1);
    }
  }

  lemma DigitBound(x: int, v: int, p: int, base: int)
    requires 0 <= x < base && 0 <= v < p
    ensures 0 <= x + base * v < base * p
  {
    ProductLe(v + 1, p, base);
    ProductLe(0, v, base);
    MulDistributes(base, v, 1);
  }

  lemma {:induction false} ValueBound(s: seq<int>, base: nat)
    requires Digits(s, base)
    ensures 0 <= Value(s, base) < Pow(base, |s|)
  {
    if s != [] {
      ValueBound(s[1..], base);
      DigitBound(s[0], Value(s[1..], base), Pow(base, |s| - 1), base);
    }
  }

  /** Packing keeps the bits. */
  lemma PackKeepsBits(ts: seq<int>, d: nat)
    requires Digits(ts, Pow(2, d)) && d * |ts| % 8 == 0
    ensures SameBits(Pack(ts, d), ts, d)
  {
    ValueBound(ts, Pow(2, d));
    PowPow(d, |ts|);
    PowPow(8, PackedLength(|ts|, d));
    Pow256();
    ValueOfDigits(Value(ts, Pow(2, d)), 256, PackedLength(|ts|, d));
  }

  /** Unpacking keeps the bits. */
  lemma UnpackKeepsBits(buf: seq<int>, d: nat, n: nat)
    requires Digits(buf, 256) && 8 * |buf| == d * n
    ensures SameBits(buf, Unpack(buf, d, n), d)
  {
    ValueBound(buf, 256);
    PowPow(d, n);
    PowPow(8, |buf|);
    Pow256();
    ValueOfDigits(Value(buf, 256), Pow(2, d), n);
  }

  // ---------- Concatenation ----------

  lemma {:induction false} ValueConcat(a: seq<int>, b: seq<int>, base: nat)
    ensures Value(a + b, base) == Value(a, base) + Pow(base, |a|) * Value(b, base)
  {
    if a == [] {
      assert a + b == b;
    } else {
      assert (a + b)[1..] == a[1..] + b;
      ValueConcat(a[1..], b, base);
      var p, v := Pow(base, |a| - 1), Value(b, base);
      MulDistributes(base, Value(a[1..], base), p * v);
      MulAssoc(base, p, v);
    }
  }

  lemma MulAssoc(a: int, b: int, c: int)
    ensures a * (b * c) == (a * b) * c
  {}

  lemma MulDistributes(a: int, b: int, c: int)
    ensures a * (b + c) == a * b + a * c
  {}

  lemma {:induction false} PowAdd(b: nat, m: nat, n: nat)
    ensures Pow(b, m + n) == Pow(b, m) * Pow(b, n)
  {
    if m > 0 {
      PowAdd(b, m - 1, n);
      MulAssoc(b, Pow(b, m - 1), Pow(b, n));
    }
  }

  lemma {:induction false} PowPow(d: nat, n: nat)
    ensures Pow(Pow(2, d), n) == Pow(2, d * n)
  {
    if n == 0 {
      assert d * n == 0;
    } else {
      PowPow(d, n - 1);
      assert d * n == d + d * (n - 1);
      PowAdd(2, d, d * (n - 1));
    }
  }

  lemma Pow256()
    ensures Pow(2, 8) == 256
  {
    assert Pow(2, 4) == 16;
  }

  /** Packed pieces concatenate. */
  lemma SameBitsConcat(a: seq<int>, b: seq<int>, x: seq<int>, y: seq<int>, d: nat)
    requires SameBits(a, x, d) && SameBits(b, y, d)
    ensures SameBits(a + b, x + y, d)
  {
    hide Pow, Value;
    ValueConcat(a, b, 256);
    ValueConcat(x, y, Pow(2, d));
    Pow256();
    PowPow(8, |a|);
    PowPow(d, |x|);
    assert d * |x + y| == d * |x| + d * |y|;
  }

  // ---------- Bitwise or ----------

  /** The bitwise or of two machine words. */
  function Or(x: nat, y: nat): nat
    decreases x + y
  {
    if x == 0 then y else if y == 0 then x else
      (if x % 2 == 1 || y % 2 == 1 then 1 else 0) + 2 * Or(x / 2, y / 2)
  }

  /** A value shifted above another one is added by the bitwise or. */
  lemma {:induction false} OrAdds(x: nat, k: nat, m: nat)
    requires x < Pow(2, k)
    ensures Or(x, Pow(2, k) * m) == x + Pow(2, k) * m
  {
    hide *;
    PowerStep(k);
    if k == 0 {
      OrNothing(m);
    } else {
      MulAssoc(2, Pow(2, k - 1), m);
      OrAdds(x / 2, k - 1, m);
      OrDoubled(x, Pow(2, k - 1) * m);
    }
  }

  lemma PowerStep(k: nat)
    ensures Pow(2, k) == if k == 0 then 1 else 2 * Pow(2, k - 1)
  {}

  lemma OrNothing(m: nat)
    ensures Or(0, m) == m
  {}

  /** An even number contributes nothing to the lowest bit. */
  lemma OrDoubled(x: nat, y: nat)
    ensures Or(x, 2 * y) == x % 2 + 2 * Or(x / 2, y)
  {
    assert (2 * y) / 2 == y && (2 * y) % 2 == 0;
  }

  /** The powers of two that the codecs shift by. */
  lemma Powers()
    ensures Pow(2, 1) == 2 && Pow(2, 2) == 4 && Pow(2, 3) == 8 && Pow(2, 4) == 16 && Pow(2, 5) == 32
    ensures Pow(2, 6) == 64 && Pow(2, 7) == 128 && Pow(2, 8) == 256 && Pow(2, 9) == 512 && Pow(2, 10) == 1024
    ensures Pow(2, 11) == 2048 && Pow(2, 12) == 4096 && Pow(2, 13) == 8192 && Pow(2, 14) == 0x4000
    ensures Pow(2, 16) == 0x1_0000 && Pow(2, 18) == 0x4_0000 && Pow(2, 20) == 0x10_0000
  {
    assert Pow(2, 3) == 8;
    assert Pow(2, 6) == 64;
    assert Pow(2, 9) == 512;
    assert Pow(2, 12) == 4096;
    assert Pow(2, 15) == 0x8000;
    assert Pow(2, 18) == 0x4_0000;
  }

  // ---------- Shifts, masks and bit fields ----------

  function Shr(x: nat, k: nat): nat
  {
    x / Pow(2, k)
  }

  function Shl(x: nat, k: nat): nat
  {
    x * Pow(2, k)
  }

  /** The low k bits. */
  function Mask(x: nat, k: nat): (r: nat)
    ensures r < Pow(2, k)
  {
    Low(x, Pow(2, k))
  }

  /** The cast to a byte. */
  function Byte(x: nat): (r: uint8)
  {
    x % 0x100
  }

  /** The n bits of x from bit a on. */
  function Bits(x: nat, a: nat, n: nat): (r: nat)
    ensures r < Pow(2, n)
  {
    hide *;
    Mask(Shr(x, a), n)
  }

  lemma ByteMasks(x: nat)
    ensures Byte(x) == Mask(x, 8)
  {
    Pow256();
  }

  lemma BitsOfShift(x: nat, a: nat, n: nat)
    ensures Mask(Shr(x, a), n) == Bits(x, a, n)
  {}

  lemma DivisionFacts(x: int, p: int)
    requires p > 0
    ensures x == p * (x / p) + x % p && 0 <= x % p < p
  {}

  lemma SmallDigit(x: int, p: int)
    requires 0 <= x < p
    ensures x % p == x && x / p == 0
  {
    DigitStep(x, 0, p);
  }

  lemma Masked(x: nat, k: nat)
    requires x < Pow(2, k)
    ensures Mask(x, k) == x && Bits(x, 0, k) == x
  {
    hide Pow;
    SmallDigit(x, Pow(2, k));
    assert Pow(2, 0) == 1 by {
      PowZero();
    }
    assert x / 1 == x;
  }

  lemma PowZero()
    ensures Pow(2, 0) == 1
  {}

  lemma LowBits(x: nat, k: nat)
    ensures Mask(x, k) == Bits(x, 0, k)
  {
    hide Pow;
    PowZero();
    assert x / 1 == x;
  }

  lemma QuotientBound(x: int, p: int, r: int)
    requires p > 0 && 0 <= x < p * r
    ensures 0 <= x / p < r
  {
    DivisionFacts(x, p);
    var u := x / p;
    hide *;
    if u >= r {
      ProductLe(r, u, p);
    } else if u < 0 {
      ProductLe(u, -1, p);
    }
  }

  lemma ShrBound(x: nat, a: nat, n: nat)
    requires x < Pow(2, a + n)
    ensures Shr(x, a) < Pow(2, n)
  {
    PowAdd(2, a, n);
    QuotientBound(x, Pow(2, a), Pow(2, n));
  }

  /** A right shift leaves the top bits. */
  lemma TopBits(x: nat, a: nat, n: nat)
    requires x < Pow(2, a + n)
    ensures Shr(x, a) == Bits(x, a, n) < Pow(2, n)
  {
    ShrBound(x, a, n);
    hide *;
    Masked(Shr(x, a), n);
    BitsOfShift(x, a, n);
  }

  lemma OrShift(x: nat, m: nat, k: nat, p: nat)
    requires p == Pow(2, k) && x < p
    ensures Or(x, Shl(m, k)) == x + p * m
  {
    OrAdds(x, k, m);
    assert p * m == m * p;
  }

  /** A value shifted above another one. */
  lemma OrJoin(x: nat, m: nat, k: nat, n: nat, p: nat)
    requires p == Pow(2, k) && x < p && m < Pow(2, n)
    ensures Or(x, Shl(m, k)) == x + p * m < Pow(2, k + n)
  {
    hide *;
    OrShift(x, m, k, p);
    PowAdd(2, k, n);
    ProductLe(m + 1, Pow(2, n), p);
    MulDistributes(p, m, 1);
  }

  /** The same, with the result cut to w bits. */
  lemma OrJoinMasked(x: nat, m: nat, k: nat, w: nat, p: nat)
    requires p == Pow(2, k) && x < p && k <= w
    ensures Mask(Or(x, Shl(m, k)), w) == x + p * Bits(m, 0, w - k)
  {
    hide *;
    OrShift(x, m, k, p);
    LowBits(m, w - k);
    PowAdd(2, k, w - k);
    MaskIs(x + p * m, w);
    MaskIs(m, w - k);
    MaskedSum(x, m, p, Pow(2, w - k), Pow(2, w));
  }

  lemma MaskIs(x: nat, k: nat)
    ensures Mask(x, k) == x % Pow(2, k)
  {}

  lemma MaskedSum(a: int, t: int, p: int, r: int, pr: int)
    requires 0 <= a < p && r > 0 && pr == p * r
    ensures (a + p * t) % pr == a + p * (t % r)
  {
    var q, c := t / r, t % r;
    DivisionFacts(t, r);
    hide *;
    calc {
      a + p * t;
      { MulDistributes(p, r * q, c); MulAssoc(p, r, q); }
      a + p * c + pr * q;
    }
    ProductLe(c, r - 1, p);
    ProductLe(0, c, p);
    DigitStep(a + p * c, q, pr);
  }

  /** A field cut in two. */
  lemma BitsSplit(x: nat, a: nat, w: nat, m: nat, n: nat, r: nat)
    requires r == Pow(2, m) && w == m + n
    ensures Bits(x, a, w) == Bits(x, a, m) + r * Bits(x, a + m, n)
  {
    PowAdd(2, a, m);
    PowAdd(2, m, n);
    var p, s := Pow(2, a), Pow(2, n);
    var u := x / p;
    FieldSplit(u, r, s, r * s);
    DivDiv(x, p, r, p * r);
  }

  lemma DivDiv(x: nat, p: int, r: int, pr: int)
    requires p > 0 && r > 0 && pr == p * r
    ensures x / p / r == x / pr
  {
    var a, u := x % p, x / p;
    var c, v := u % r, u / r;
    DivisionFacts(x, p);
    DivisionFacts(u, r);
    hide *;
    MulDistributes(p, r * v, c);
    MulAssoc(p, r, v);
    ProductLe(c, r - 1, p);
    ProductLe(0, c, p);
    DigitStep(a + p * c, v, pr);
  }

  lemma FieldSplit(u: int, r: int, s: int, rs: int)
    requires r > 0 && s > 0 && rs == r * s
    ensures u % rs == u % r + r * (u / r % s)
  {
    var c, v := u % r, u / r;
    DivisionFacts(u, r);
    hide *;
    MaskedSum(c, v, r, s, rs);
  }

  // ---------- Short digit sequences ----------

  lemma ValueAt(s: seq<int>, base: nat, i: nat)
    requires i < |s|
    ensures Value(s[i..], base) == s[i] + base * Value(s[i + 1..], base)
  {
    assert s[i..][1..] == s[i + 1..];
  }

  lemma ValueEnd(s: seq<int>, base: nat)
    requires |s| > 0
    ensures Value(s[|s| - 1..], base) == s[|s| - 1]
  {
    ValueAt(s, base, |s| - 1);
  }

  lemma Value1(s: seq<int>, base: nat)
    requires |s| == 1
    ensures Value(s, base) == s[0]
  {
    assert s[0..] == s;
    ValueEnd(s, base);
  }

  lemma Value2(s: seq<int>, base: nat)
    requires |s| == 2
    ensures Value(s, base) == s[0] + base * s[1]
  {
    hide Value;
    assert s[0..] == s;
    ValueAt(s, base, 0);
    ValueEnd(s, base);
  }

  lemma Value3(s: seq<int>, base: nat)
    requires |s| == 3
    ensures Value(s, base) == s[0] + base * (s[1] + base * s[2])
  {
    hide Value;
    assert s[0..] == s;
    ValueAt(s, base, 0);
    ValueAt(s, base, 1);
    ValueEnd(s, base);
  }

  lemma Value4(s: seq<int>, base: nat)
    requires |s| == 4
    ensures Value(s, base) == s[0] + base * (s[1] + base * (s[2] + base * s[3]))
  {
    hide Value;
    assert s[0..] == s;
    ValueAt(s, base, 0);
    ValueAt(s, base, 1);
    ValueAt(s, base, 2);
    ValueEnd(s, base);
  }

  lemma Value5(s: seq<int>, base: nat)
    requires |s| == 5
    ensures Value(s, base) == s[0] + base * (s[1] + base * (s[2] + base * (s[3] + base * s[4])))
  {
    hide Value;
    assert s[0..] == s;
    ValueAt(s, base, 0);
    ValueAt(s, base, 1);
    ValueAt(s, base, 2);
    ValueAt(s, base, 3);
    ValueEnd(s, base);
  }

  lemma Value8(s: seq<int>, base: nat)
    requires |s| == 8
    ensures Value(s, base) == s[0] + base * (s[1] + base * (s[2] + base * (s[3] + base * (s[4] + base * (s[5] + base * (s[6] + base * s[7]))))))
  {
    hide Value;
    assert s[0..] == s;
    ValueAt(s, base, 0);
    ValueAt(s, base, 1);
    ValueAt(s, base, 2);
    ValueAt(s, base, 3);
    ValueAt(s, base, 4);
    ValueAt(s, base, 5);
    ValueAt(s, base, 6);
    ValueEnd(s, base);
  }

  lemma Value9(s: seq<int>, base: nat)
    requires |s| == 9
    ensures Value(s, base) == s[0] + base * (s[1] + base * (s[2] + base * (s[3] + base * (s[4] + base * (s[5] + base * (s[6] + base * (s[7] + base * s[8])))))))
  {
    hide Value;
    assert s[0..] == s;
    ValueAt(s, base, 0);
    ValueAt(s, base, 1);
    ValueAt(s, base, 2);
    ValueAt(s, base, 3);
    ValueAt(s, base, 4);
    ValueAt(s, base, 5);
    ValueAt(s, base, 6);
    ValueAt(s, base, 7);
    ValueEnd(s, base);
  }

  lemma Value11(s: seq<int>, base: nat)
    requires |s| == 11
    ensures Value(s, base) == s[0] + base * (s[1] + base * (s[2] + base * (s[3] + base * (s[4] + base * (s[5] + base * (s[6] + base * (s[7] + base * (s[8] + base * (s[9] + base * s[10])))))))))
  {
    hide Value;
    assert s[0..] == s;
    ValueAt(s, base, 0);
    ValueAt(s, base, 1);
    ValueAt(s, base, 2);
    ValueAt(s, base, 3);
    ValueAt(s, base, 4);
    ValueAt(s, base, 5);
    ValueAt(s, base, 6);
    ValueAt(s, base, 7);
    ValueAt(s, base, 8);
    ValueAt(s, base, 9);
    ValueEnd(s, base);
  }

  lemma Value13(s: seq<int>, base: nat)
    requires |s| == 13
    ensures Value(s, base) == s[0] + base * (s[1] + base * (s[2] + base * (s[3] + base * (s[4] + base * (s[5] + base * (s[6] + base * (s[7] + base * (s[8] + base * (s[9] + base * (s[10] + base * (s[11] + base * s[12])))))))))))
  {
    hide Value;
    assert s[0..] == s;
    ValueAt(s, base, 0);
    ValueAt(s, base, 1);
    ValueAt(s, base, 2);
    ValueAt(s, base, 3);
    ValueAt(s, base, 4);
    ValueAt(s, base, 5);
    ValueAt(s, base, 6);
    ValueAt(s, base, 7);
    ValueAt(s, base, 8);
    ValueAt(s, base, 9);
    ValueAt(s, base, 10);
    ValueAt(s, base, 11);
    ValueEnd(s, base);
  }

  // ---------- Packing and unpacking group by group ----------

  lemma BytesAreDigits(s: seq<uint8>)
    ensures Digits(s, 256)
  {}

  /** A group codec packs n coefficients of d bits into m bytes. */
  ghost predicate PacksGroups(group: seq<nat> --> seq<uint8>, d: nat, n: nat, m: nat)
  {
    && n > 0 && d * n == 8 * m
    && forall x: seq<nat> :: |x| == n && Digits(x, Pow(2, d)) ==> group.requires(x) && SameBits(group(x), x, d)
  }

  /** A group codec reads n coefficients of d bits from m bytes. */
  ghost predicate ReadsGroups(group: seq<uint8> --> seq<nat>, d: nat, n: nat, m: nat)
  {
    && n > 0 && m > 0 && d * n == 8 * m
    && forall b: seq<uint8> :: |b| == m ==> group.requires(b) && |group(b)| == n && SameBits(b, group(b), d)
  }

  /** Copy bytes into a buffer. */
  method Store(buf: array<uint8>, o: nat, bytes: seq<uint8>)
    requires o + |bytes| <= buf.Length
    modifies buf
    ensures buf[..] == old(buf[..o]) + bytes + old(buf[o + |bytes|..])
  {
    ghost var was := buf[..];
    var i := 0;
    while i < |bytes|
      invariant 0 <= i <= |bytes| && forall j :: o <= j < o + i ==> buf[j] == bytes[j - o]
      invariant forall j :: 0 <= j < buf.Length && !(o <= j < o + i) ==> buf[j] == was[j]
    {
      buf[o + i] := bytes[i];
      i := i + 1;
    }
    assert buf[o..o + |bytes|] == bytes;
    assert buf[..] == buf[..o] + buf[o..o + |bytes|] + buf[o + |bytes|..];
  }

  /** The offset of group i. */
  function At(i: nat, n: nat): nat
  {
    i * n
  }

  lemma AtZero(n: nat)
    ensures At(0, n) == 0
  {}

  lemma GroupMono(i: nat, c: nat, n: nat)
    requires i < c
    ensures At(i, n) + n <= At(c, n) && At(i + 1, n) == At(i, n) + n
  {
    ProductLe(i + 1, c, n);
  }

  /** The packing loop of every codec: c groups, each through its group codec. */
  method PackGroups(buf: array<uint8>, o: nat, ts: seq<nat>, c: nat, d: nat, n: nat, m: nat,
                    group: seq<nat> --> seq<uint8>)
    requires PacksGroups(group, d, n, m)
    requires |ts| == At(c, n) && Digits(ts, Pow(2, d)) && o + At(c, m) <= buf.Length
    modifies buf
    ensures |Pack(ts, d)| == At(c, m) && SameBits(Pack(ts, d), ts, d)
    ensures buf[..] == old(buf[..o]) + Pack(ts, d) + old(buf[o + At(c, m)..])
  {
    hide *;
    AtZero(n);
    AtZero(m);
    ghost var was := buf[..];
    ghost var packed: seq<uint8> := [];
    NoGroups(d);
    var i, at := 0, 0;
    while i < c
      invariant 0 <= i <= c && at == At(i, m) <= At(c, m) && |packed| == at && At(i, n) <= |ts|
      invariant SameBits(packed, ts[..At(i, n)], d)
      invariant buf[..] == was[..o] + packed + was[o + at..]
    {
      GroupMono(i, c, n);
      GroupMono(i, c, m);
      var x := ts[At(i, n)..At(i, n) + n];
      GroupPacks(group, d, n, m, ts, x, At(i, n));
      var bytes := group(x);
      SameBitsConcat(packed, bytes, ts[..At(i, n)], x, d);
      NextSlice(ts, At(i, n), n);
      Extend(buf[..], was, packed, bytes, o, at);
      Store(buf, o + at, bytes);
      packed := packed + bytes;
      i := i + 1;
      at := at + m;
    }
    assert ts[..At(c, n)] == ts;
    SameBitsDetermines(packed, ts, d);
  }

  lemma NoGroups(d: nat)
    ensures SameBits([], [], d)
  {}

  lemma GroupPacks(group: seq<nat> --> seq<uint8>, d: nat, n: nat, m: nat, ts: seq<nat>, x: seq<nat>, at: nat)
    requires PacksGroups(group, d, n, m) && at + n <= |ts| && x == ts[at..at + n] && Digits(ts, Pow(2, d))
    ensures group.requires(x) && |group(x)| == m && SameBits(group(x), x, d)
  {}

  lemma NextSlice(s: seq<int>, at: nat, n: nat)
    requires at + n <= |s|
    ensures s[..at] + s[at..at + n] == s[..at + n]
  {}

  lemma Extend(before: seq<uint8>, was: seq<uint8>, packed: seq<uint8>, bytes: seq<uint8>, o: nat, k: nat)
    requires |packed| == k && o + k + |bytes| <= |was| && before == was[..o] + packed + was[o + k..]
    ensures |before| == |was|
    ensures before[..o + k] + bytes + before[o + k + |bytes|..]
         == was[..o] + (packed + bytes) + was[o + k + |bytes|..]
  {}

  /** The unpacking loop of every codec. */
  method UnpackGroups(p: array<int32>, buf: seq<uint8>, c: nat, d: nat, n: nat, m: nat,
                      group: seq<uint8> --> seq<nat>)
    requires ReadsGroups(group, d, n, m) && Pow(2, d) <= 0x8000_0000
    requires |buf| == At(c, m) && p.Length == At(c, n)
    modifies p
    ensures p[..] == Unpack(buf, d, At(c, n)) && SameBits(buf, p[..], d)
  {
    hide *;
    AtZero(n);
    AtZero(m);
    ghost var ts: seq<int> := [];
    NoGroups(d);
    var i, at := 0, 0;
    while i < c
      invariant 0 <= i <= c && at == |ts| == At(i, n) <= At(c, n) && At(i, m) <= |buf|
      invariant SameBits(buf[..At(i, m)], ts, d)
      invariant p[..at] == ts
    {
      GroupMono(i, c, n);
      GroupMono(i, c, m);
      var b := buf[At(i, m)..At(i, m) + m];
      GroupReads(group, d, n, m, b);
      var x := group(b);
      var j := 0;
      while j < n
        invariant 0 <= j <= n
        invariant p[..at + j] == ts + x[..j]
      {
        p[at + j] := x[j];
        j := j + 1;
      }
      SameBitsConcat(buf[..At(i, m)], b, ts, x, d);
      NextSlice(buf, At(i, m), m);
      assert x[..n] == x;
      ts := ts + x;
      i := i + 1;
      at := at + n;
    }
    assert buf[..At(c, m)] == buf;
    SameBitsDetermines(buf, ts, d);
  }

  lemma GroupReads(group: seq<uint8> --> seq<nat>, d: nat, n: nat, m: nat, b: seq<uint8>)
    requires ReadsGroups(group, d, n, m) && |b| == m
    ensures group.requires(b) && |group(b)| == n && SameBits(b, group(b), d) && Digits(group(b), Pow(2, d))
  {}
}
