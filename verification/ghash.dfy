/** GHASH: the byte-wise shift-and-add multiplication, and its iteration over zero-padded blocks. */
module Ghash {
  import opened Gf128

  type Byte = bv8

  // ---------- Bytes as coefficients ----------

  /** Coefficient b of a byte, the most significant bit being coefficient 0. */
  function BitOf(v: Byte, b: nat): bool
    requires b < 8
  {
    match b
    case 0 => v & 0x80 != 0
    case 1 => v & 0x40 != 0
    case 2 => v & 0x20 != 0
    case 3 => v & 0x10 != 0
    case 4 => v & 0x08 != 0
    case 5 => v & 0x04 != 0
    case 6 => v & 0x02 != 0
    case 7 => v & 0x01 != 0
  }

  /** The field element of a 16-byte block. */
  function Bits(x: seq<Byte>): (r: Elem)
    requires |x| == 16
    ensures |r| == 128
  {
    seq(128, n requires 0 <= n < 128 => BitOf(x[n / 8], n % 8))
  }

  lemma XorBit(v: Byte, w: Byte, b: nat)
    requires b < 8
    ensures BitOf(v ^ w, b) == (BitOf(v, b) != BitOf(w, b))
  {
    match b
    case 0 => XorMask0(v, w);
    case 1 => XorMask1(v, w);
    case 2 => XorMask2(v, w);
    case 3 => XorMask3(v, w);
    case 4 => XorMask4(v, w);
    case 5 => XorMask5(v, w);
    case 6 => XorMask6(v, w);
    case 7 => XorMask7(v, w);
  }

  lemma XorMask0(v: Byte, w: Byte)
    ensures ((v ^ w) & 0x80 != 0) == ((v & 0x80 != 0) != (w & 0x80 != 0))
  {}

  lemma XorMask1(v: Byte, w: Byte)
    ensures ((v ^ w) & 0x40 != 0) == ((v & 0x40 != 0) != (w & 0x40 != 0))
  {}

  lemma XorMask2(v: Byte, w: Byte)
    ensures ((v ^ w) & 0x20 != 0) == ((v & 0x20 != 0) != (w & 0x20 != 0))
  {}

  lemma XorMask3(v: Byte, w: Byte)
    ensures ((v ^ w) & 0x10 != 0) == ((v & 0x10 != 0) != (w & 0x10 != 0))
  {}

  lemma XorMask4(v: Byte, w: Byte)
    ensures ((v ^ w) & 0x08 != 0) == ((v & 0x08 != 0) != (w & 0x08 != 0))
  {}

  lemma XorMask5(v: Byte, w: Byte)
    ensures ((v ^ w) & 0x04 != 0) == ((v & 0x04 != 0) != (w & 0x04 != 0))
  {}

  lemma XorMask6(v: Byte, w: Byte)
    ensures ((v ^ w) & 0x02 != 0) == ((v & 0x02 != 0) != (w & 0x02 != 0))
  {}

  lemma XorMask7(v: Byte, w: Byte)
    ensures ((v ^ w) & 0x01 != 0) == ((v & 0x01 != 0) != (w & 0x01 != 0))
  {}

  /** The byte of bit b alone, as the code extracts it. */
  lemma ExtractBit(v: Byte, j: nat)
    requires j < 8
    ensures (v >> j) & 1 == if BitOf(v, 7 - j) then 1 else 0
  {
    if j == 0 {} else if j == 1 {} else if j == 2 {} else if j == 3 {} else if j == 4 {} else if j == 5 {} else if j == 6 {} else {}
  }

  /** The shift of one byte, the low bit of its left neighbour moving in. */
  lemma ShiftBits(v: Byte, u: Byte, b: nat)
    requires b < 8
    ensures BitOf((v >> 1) | ((u & 1) << 7), b) == if b == 0 then BitOf(u, 7) else BitOf(v, b - 1)
  {}

  /** The shift of the first byte, with the reduction constant. */
  lemma FirstShift(v: Byte, carry: bool, b: nat)
    requires b < 8
    ensures BitOf((v >> 1) ^ (if carry then 0xE1 else 0), b)
         == ((if b == 0 then false else BitOf(v, b - 1)) != (carry && (b == 0 || b == 1 || b == 2 || b == 7)))
  {}

  // ---------- Multiplication ----------

  /** z ^= v & mask, the mask being all ones if the bit is one. */
  method AddMasked(z: array<Byte>, v: array<Byte>, bit: Byte)
    requires z.Length == v.Length == 16 && z != v && (bit == 0 || bit == 1)
    modifies z
    ensures Bits(z[..]) == Xor(old(Bits(z[..])), Select(bit == 1, Bits(v[..])))
  {
    hide *;
    ghost var s, w := z[..], v[..];
    var mask: Byte := 0 - bit;
    AllOnesOrNone(bit, mask);
    var k := 0;
    while k < 16
      invariant 0 <= k <= 16 && v[..] == w
      invariant forall i :: 0 <= i < k ==> z[i] == s[i] ^ Masked(w[i], bit == 1)
      invariant forall i :: k <= i < 16 ==> z[i] == s[i]
    {
      MaskByte(v[k], mask);
      z[k] := z[k] ^ (v[k] & mask);
      k := k + 1;
    }
    AddedBits(s, w, z[..], bit == 1);
  }

  lemma AllOnesOrNone(bit: Byte, mask: Byte)
    requires (bit == 0 || bit == 1) && mask == 0 - bit
    ensures if bit == 1 then mask == 0xFF else mask == 0
  {}

  function Masked(v: Byte, c: bool): Byte {
    if c then v else 0
  }

  lemma MaskByte(v: Byte, mask: Byte)
    ensures mask == 0xFF ==> v & mask == Masked(v, true)
    ensures mask == 0 ==> v & mask == Masked(v, false)
  {}

  lemma AddedBits(s: seq<Byte>, w: seq<Byte>, r: seq<Byte>, c: bool)
    requires |s| == |w| == |r| == 16 && forall i :: 0 <= i < 16 ==> r[i] == s[i] ^ Masked(w[i], c)
    ensures Bits(r) == Xor(Bits(s), Select(c, Bits(w)))
  {
    hide BitOf;
    forall n | 0 <= n < 128
      ensures Bits(r)[n] == Xor(Bits(s), Select(c, Bits(w)))[n]
    {
      XorBit(s[n / 8], Masked(w[n / 8], c), n % 8);
      ZeroByte(n % 8);
    }
  }

  lemma ZeroByte(b: nat)
    requires b < 8
    ensures !BitOf(0, b)
  {}

  /** v becomes X v: a right shift over all bytes, the carry folded in as 0xE1. */
  method ShiftReduce(v: array<Byte>)
    requires v.Length == 16
    modifies v
    ensures Bits(v[..]) == TimesX(old(Bits(v[..])))
  {
    ghost var s := v[..];
    var carry := v[15] & 1;
    var mask: Byte := 0 - carry;
    CarryMask(s[15], carry, mask);
    var k := 15;
    while k > 0
      invariant 0 <= k <= 15
      invariant forall i :: k < i < 16 ==> v[i] == (s[i] >> 1) | ((s[i - 1] & 1) << 7)
      invariant forall i :: 0 <= i <= k ==> v[i] == s[i]
    {
      v[k] := (v[k] >> 1) | ((v[k - 1] & 1) << 7);
      k := k - 1;
    }
    v[0] := (v[0] >> 1) ^ (mask & 0xE1);
    ShiftedBits(s, v[..]);
  }

  lemma CarryMask(v: Byte, carry: Byte, mask: Byte)
    requires carry == v & 1 && mask == 0 - carry
    ensures mask & 0xE1 == if BitOf(v, 7) then 0xE1 else 0
  {}

  lemma TimesXAt(v: Elem, n: nat)
    requires |v| == 128 && n < 128
    ensures TimesX(v)[n] == ((if n == 0 then false else v[n - 1]) != (v[127] && (n == 0 || n == 1 || n == 2 || n == 7)))
  {}

  lemma BitsAt(x: seq<Byte>, n: nat)
    requires |x| == 16 && n < 128
    ensures Bits(x)[n] == BitOf(x[n / 8], n % 8)
  {}

  /** The bytes r are those of s after the shifting loop. */
  ghost predicate Shifted(s: seq<Byte>, r: seq<Byte>) {
    && |s| == |r| == 16
    && (forall i :: 1 <= i < 16 ==> r[i] == (s[i] >> 1) | ((s[i - 1] & 1) << 7))
    && r[0] == (s[0] >> 1) ^ (if BitOf(s[15], 7) then 0xE1 else 0)
  }

  lemma FirstByteShifted(s: seq<Byte>, r: seq<Byte>, b: nat)
    requires Shifted(s, r) && b < 8
    ensures BitOf(r[0], b) == ((if b == 0 then false else BitOf(s[0], b - 1)) != (BitOf(s[15], 7) && (b == 0 || b == 1 || b == 2 || b == 7)))
  {
    FirstShift(s[0], BitOf(s[15], 7), b);
  }

  lemma LaterByteShifted(s: seq<Byte>, r: seq<Byte>, i: nat, b: nat)
    requires Shifted(s, r) && 1 <= i < 16 && b < 8
    ensures BitOf(r[i], b) == if b == 0 then BitOf(s[i - 1], 7) else BitOf(s[i], b - 1)
  {
    assert r[i] == (s[i] >> 1) | ((s[i - 1] & 1) << 7);
    ShiftBits(s[i], s[i - 1], b);
  }

  lemma ShiftedBitAt(s: seq<Byte>, r: seq<Byte>, n: nat)
    requires |s| == |r| == 16 && Shifted(s, r) && n < 128
    ensures Bits(r)[n] == TimesX(Bits(s))[n]
  {
    hide *;
    var i, b := n / 8, n % 8;
    assert n == 8 * i + b;
    TimesXAt(Bits(s), n);
    BitsAt(r, n);
    BitsAt(s, 127);
    if n > 0 {
      BitsAt(s, n - 1);
    }
    if i == 0 {
      FirstByteShifted(s, r, b);
    } else {
      LaterByteShifted(s, r, i, b);
    }
  }

  lemma ShiftedBits(s: seq<Byte>, r: seq<Byte>)
    requires |s| == |r| == 16 && Shifted(s, r)
    ensures Bits(r) == TimesX(Bits(s))
  {
    hide *;
    forall n | 0 <= n < 128
      ensures Bits(r)[n] == TimesX(Bits(s))[n]
    {
      ShiftedBitAt(s, r, n);
    }
  }

  /** The eight steps of one byte of x. */
  method MultiplyByByte(byte: Byte, z: array<Byte>, v: array<Byte>, ghost a: Elem, ghost i: nat)
    requires z.Length == v.Length == 16 && z != v && |a| == 128 && i < 16
    requires forall b :: 0 <= b < 8 ==> a[8 * i + b] == BitOf(byte, b)
    modifies z, v
    ensures Xor(Bits(z[..]), Act(a[8 * (i + 1)..], Bits(v[..]))) == old(Xor(Bits(z[..]), Act(a[8 * i..], Bits(v[..]))))
  {
    hide *;
    ghost var total := Xor(Bits(z[..]), Act(a[8 * i..], Bits(v[..])));
    var j := 7;
    while j >= 0
      invariant -1 <= j <= 7
      invariant Xor(Bits(z[..]), Act(a[8 * i + (7 - j)..], Bits(v[..]))) == total
    {
      var bit := (byte >> j) & 1;
      ExtractBit(byte, j);
      ghost var n := 8 * i + (7 - j);
      ProductStep(a, n, Bits(z[..]), Bits(v[..]));
      AddMasked(z, v, bit);
      ShiftReduce(v);
      j := j - 1;
    }
  }

  /** x becomes x * y in the field. */
  method GhashMult(x: array<Byte>, y: array<Byte>)
    requires x.Length == y.Length == 16
    modifies x
    ensures Bits(x[..]) == Mul(old(Bits(x[..])), old(Bits(y[..])))
  {
    hide *;
    ghost var a, b := Bits(x[..]), Bits(y[..]);
    var v, z := new Byte[16], new Byte[16](_ => 0);
    ghost var xs, ys := x[..], y[..];
    var i := 0;
    while i < 16
      invariant 0 <= i <= 16 && y[..] == ys && v[..i] == ys[..i]
      modifies v
    {
      v[i] := y[i];
      i := i + 1;
    }
    assert v[..] == ys;
    StartProduct(a, b, z[..]);
    i := 0;
    assert a[8 * i..] == a[0..] && Bits(v[..]) == b;
    while i < 16
      invariant 0 <= i <= 16
      invariant Xor(Bits(z[..]), Act(a[8 * i..], Bits(v[..]))) == Mul(a, b)
      modifies z, v
    {
      BitsOfByte(xs, i);
      MultiplyByByte(x[i], z, v, a, i);
      i := i + 1;
    }
    EndProduct(Bits(z[..]), Bits(v[..]), a[8 * i..]);
    CopyBlock(x, z);
  }

  method CopyBlock(x: array<Byte>, z: array<Byte>)
    requires x.Length == z.Length == 16 && x != z
    modifies x
    ensures x[..] == z[..]
  {
    var i := 0;
    while i < 16
      invariant 0 <= i <= 16 && x[..i] == z[..i]
    {
      x[i] := z[i];
      i := i + 1;
    }
  }

  lemma BitsOfByte(x: seq<Byte>, i: nat)
    requires |x| == 16 && i < 16
    ensures forall b :: 0 <= b < 8 ==> Bits(x)[8 * i + b] == BitOf(x[i], b)
  {
    hide BitOf;
    forall b | 0 <= b < 8
      ensures Bits(x)[8 * i + b] == BitOf(x[i], b)
    {
      BitsAt(x, 8 * i + b);
      assert (8 * i + b) / 8 == i && (8 * i + b) % 8 == b;
    }
  }

  lemma StartProduct(a: Elem, b: Elem, z: seq<Byte>)
    requires |a| == |b| == 128 && |z| == 16 && forall k :: 0 <= k < 16 ==> z[k] == 0
    ensures Xor(Bits(z), Act(a[0..], b)) == Mul(a, b)
  {
    assert a[0..] == a;
    hide BitOf, Act;
    forall n | 0 <= n < 128
      ensures !Bits(z)[n]
    {
      ZeroByte(n % 8);
    }
    assert Xor(Bits(z), Act(a, b)) == Act(a, b);
  }

  lemma ProductStep(a: Elem, n: nat, z: Elem, v: Elem)
    requires |a| == |z| == |v| == 128 && n < 128
    ensures Xor(Xor(z, Select(a[n], v)), Act(a[n + 1..], TimesX(v))) == Xor(z, Act(a[n..], v))
  {
    assert a[n..][1..] == a[n + 1..];
    hide Select, TimesX;
    XorAssoc(z, Select(a[n], v), Act(a[n + 1..], TimesX(v)));
  }

  lemma EndProduct(z: Elem, v: Elem, rest: Elem)
    requires |z| == |v| == 128 && rest == []
    ensures Xor(z, Act(rest, v)) == z
  {
    XorLaws(z, z, z, z);
  }

  // ---------- Hashing ----------

  /** A block filled up with zero bytes. */
  function Padded(data: seq<Byte>): (r: seq<Byte>)
    requires |data| <= 16
    ensures |r| == 16
  {
    data + seq(16 - |data|, _ => 0)
  }

  function Chunk(data: seq<Byte>): nat
  {
    if |data| >= 16 then 16 else |data|
  }

  /** The zero-padded blocks of a string as field elements. */
  function Blocks(data: seq<Byte>): (r: seq<Elem>)
    ensures forall i :: 0 <= i < |r| ==> |r[i]| == 128
  {
    if data == [] then [] else [Bits(Padded(data[..Chunk(data)]))] + Blocks(data[Chunk(data)..])
  }

  /** The hash continued over blocks, in the manner of Horner. */
  function Horner(h: Elem, blocks: seq<Elem>, t: Elem): (r: Elem)
    requires |h| == |t| == 128 && forall i :: 0 <= i < |blocks| ==> |blocks[i]| == 128
    ensures |r| == 128
    decreases |blocks|
  {
    if blocks == [] then t else Horner(h, blocks[1..], Mul(Xor(t, blocks[0]), h))
  }

  /** tag ^= block, byte by byte. */
  method XorBlock(tag: array<Byte>, block: seq<Byte>)
    requires tag.Length == 16 && |block| == 16
    modifies tag
    ensures Bits(tag[..]) == Xor(old(Bits(tag[..])), Bits(block))
  {
    ghost var s := tag[..];
    var j := 0;
    while j < 16
      invariant 0 <= j <= 16
      invariant forall i :: 0 <= i < j ==> tag[i] == s[i] ^ block[i]
      invariant forall i :: j <= i < 16 ==> tag[i] == s[i]
    {
      tag[j] := tag[j] ^ block[j];
      j := j + 1;
    }
    AddedBits(s, block, tag[..], true);
  }

  /** Continue the hash over data; an incomplete last block is padded with zeros. */
  method GhashUpdate(h: array<Byte>, data: seq<Byte>, tag: array<Byte>)
    requires h.Length == tag.Length == 16 && h != tag
    modifies tag
    ensures Bits(tag[..]) == Horner(Bits(h[..]), Blocks(data), old(Bits(tag[..])))
  {
    hide *;
    ghost var hb, t := Bits(h[..]), Bits(tag[..]);
    var rest := data;
    while |rest| > 0
      invariant Horner(hb, Blocks(rest), Bits(tag[..])) == Horner(hb, Blocks(data), t)
      invariant Bits(h[..]) == hb
      decreases |rest|
    {
      var chunk := if |rest| >= 16 then 16 else |rest|;
      var block := rest[..chunk] + seq(16 - chunk, _ => 0);
      HornerStep(hb, rest, Bits(tag[..]));
      PaddedIs(rest, block);
      XorBlock(tag, block);
      GhashMult(tag, h);
      rest := rest[chunk..];
    }
    NoBlocks(hb, rest, Bits(tag[..]));
  }

  lemma HornerStep(h: Elem, data: seq<Byte>, t: Elem)
    requires |h| == |t| == 128 && |data| > 0
    ensures Chunk(data) == (if |data| >= 16 then 16 else |data|) <= |data|
    ensures Horner(h, Blocks(data), t) == Horner(h, Blocks(data[Chunk(data)..]), Mul(Xor(t, Bits(Padded(data[..Chunk(data)]))), h))
  {
    assert Blocks(data)[1..] == Blocks(data[Chunk(data)..]);
    hide Mul, Xor, Bits;
  }

  lemma PaddedIs(data: seq<Byte>, block: seq<Byte>)
    requires |data| > 0 && block == data[..Chunk(data)] + seq(16 - Chunk(data), _ => 0)
    ensures block == Padded(data[..Chunk(data)])
  {}

  lemma NoBlocks(h: Elem, data: seq<Byte>, t: Elem)
    requires |h| == |t| == 128 && |data| == 0
    ensures Horner(h, Blocks(data), t) == t
  {}

  // ---------- Horner's rule is the polynomial in H ----------

  function Power(h: Elem, n: nat): (r: Elem)
    requires |h| == 128
    ensures |r| == 128
  {
    if n == 0 then One() else Mul(Power(h, n - 1), h)
  }

  /** The sum of block i times H^(m - i), for m blocks. */
  function Polynomial(h: Elem, blocks: seq<Elem>): (r: Elem)
    requires |h| == 128 && forall i :: 0 <= i < |blocks| ==> |blocks[i]| == 128
    ensures |r| == 128
    decreases |blocks|
  {
    if blocks == [] then Zeros(128) else Xor(Mul(blocks[0], Power(h, |blocks|)), Polynomial(h, blocks[1..]))
  }

  lemma PowerFirst(h: Elem, n: nat, a: Elem)
    requires |h| == |a| == 128
    ensures Mul(Mul(a, h), Power(h, n)) == Mul(a, Power(h, n + 1))
  {
    hide Act, Xor;
    MulAssociates(a, h, Power(h, n));
    MulCommutes(h, Power(h, n));
  }

  /** GHASH of section 6.4 of SP 800-38D as a polynomial: t H^m plus the sum of the blocks times powers of H. */
  lemma {:induction false} HornerIsPolynomial(h: Elem, blocks: seq<Elem>, t: Elem)
    requires |h| == |t| == 128 && forall i :: 0 <= i < |blocks| ==> |blocks[i]| == 128
    ensures Horner(h, blocks, t) == Xor(Mul(t, Power(h, |blocks|)), Polynomial(h, blocks))
    decreases |blocks|
  {
    hide Act, Xor, Zeros;
    var n := |blocks|;
    if n == 0 {
      MulOne(t);
      XorLaws(t, t, t, t);
    } else {
      var b, rest := blocks[0], blocks[1..];
      HornerIsPolynomial(h, rest, Mul(Xor(t, b), h));
      PowerFirst(h, n - 1, Xor(t, b));
      MulDistributes(t, b, Power(h, n));
      XorAssoc(Mul(t, Power(h, n)), Mul(b, Power(h, n)), Polynomial(h, rest));
    }
  }
}
