/** What AES-GCM computes: counter blocks, the key stream, and the tag as a polynomial over GF(2^128). */
module GcmSpec {
  import opened Gf128
  import opened Ghash
  import BitPacking

  type Block = b: seq<Byte> | |b| == 16 witness seq(16, _ => 0)

  /** An expanded AES key: its number of rounds, and the block cipher it selects. */
  datatype Key = Key(rounds: int, cipher: Block -> Block)

  const MAX_PAYLOAD_BYTES: nat := 0xFFFFFFFF0
  const MAX_AAD_BYTES: nat := 0x1FFF_FFFF_FFFF_FFFF
  const TAG_BYTES: nat := 16

  // ---------- Big-endian numbers ----------

  /** Four bits as a number, the first being the most significant. */
  function Nibble(a: bool, b: bool, c: bool, d: bool): (r: nat)
    ensures r < 16
    ensures a == (r >= 8) && b == (r % 8 >= 4) && c == (r % 4 >= 2) && d == (r % 2 >= 1)
  {
    (if a then 8 else 0) + (if b then 4 else 0) + (if c then 2 else 0) + (if d then 1 else 0)
  }

  /** The number a byte stands for. */
  function ToNat(b: Byte): (r: nat)
    ensures r < 256
  {
    16 * Nibble(b & 0x80 != 0, b & 0x40 != 0, b & 0x20 != 0, b & 0x10 != 0)
    + Nibble(b & 0x08 != 0, b & 0x04 != 0, b & 0x02 != 0, b & 0x01 != 0)
  }

  function Put(bit: bool, mask: Byte): Byte {
    if bit then mask else 0
  }

  function FromBits(a: bool, b: bool, c: bool, d: bool, e: bool, f: bool, g: bool, h: bool): Byte {
    Put(a, 0x80) | Put(b, 0x40) | Put(c, 0x20) | Put(d, 0x10) | Put(e, 0x08) | Put(f, 0x04) | Put(g, 0x02) | Put(h, 0x01)
  }

  /** The byte of a number below 256. */
  function ToByte(v: nat): Byte
    requires v < 256
  {
    var m, n := v / 16, v % 16;
    FromBits(m >= 8, m % 8 >= 4, m % 4 >= 2, m % 2 >= 1, n >= 8, n % 8 >= 4, n % 4 >= 2, n % 2 >= 1)
  }

  lemma BitsOfFromBits(a: bool, b: bool, c: bool, d: bool, e: bool, f: bool, g: bool, h: bool, r: Byte)
    requires r == FromBits(a, b, c, d, e, f, g, h)
    ensures (r & 0x80 != 0) == a && (r & 0x40 != 0) == b && (r & 0x20 != 0) == c && (r & 0x10 != 0) == d
    ensures (r & 0x08 != 0) == e && (r & 0x04 != 0) == f && (r & 0x02 != 0) == g && (r & 0x01 != 0) == h
  {}

  lemma NibbleOfBits(n: nat)
    requires n < 16
    ensures Nibble(n >= 8, n % 8 >= 4, n % 4 >= 2, n % 2 >= 1) == n
  {}

  lemma NumberOfBits(a: bool, b: bool, c: bool, d: bool, e: bool, f: bool, g: bool, h: bool)
    ensures ToNat(FromBits(a, b, c, d, e, f, g, h)) == 16 * Nibble(a, b, c, d) + Nibble(e, f, g, h)
  {
    hide FromBits, Nibble;
    BitsOfFromBits(a, b, c, d, e, f, g, h, FromBits(a, b, c, d, e, f, g, h));
  }

  lemma ByteIsNumber(v: nat)
    requires v < 256
    ensures ToNat(ToByte(v)) == v
  {
    hide ToNat, FromBits, Nibble;
    var m, n := v / 16, v % 16;
    NumberOfBits(m >= 8, m % 8 >= 4, m % 4 >= 2, m % 2 >= 1, n >= 8, n % 8 >= 4, n % 4 >= 2, n % 2 >= 1);
    NibbleOfBits(m);
    NibbleOfBits(n);
  }

  function Pow256(n: nat): (r: nat)
    ensures r >= 1
  {
    if n == 0 then 1 else 256 * Pow256(n - 1)
  }

  /** The low n bytes of v, most significant first. */
  function BigEndian(v: nat, n: nat): (r: seq<Byte>)
    ensures |r| == n
  {
    if n == 0 then [] else BigEndian(v / 256, n - 1) + [ToByte(v % 256)]
  }

  function FromBigEndian(s: seq<Byte>): nat {
    if s == [] then 0 else 256 * FromBigEndian(s[..|s| - 1]) + ToNat(s[|s| - 1])
  }

  lemma {:induction false} ReadBigEndian(v: nat, n: nat)
    requires v < Pow256(n)
    ensures FromBigEndian(BigEndian(v, n)) == v
  {
    hide *;
    ReadStep(v, n);
    if n > 0 {
      ReadBigEndian(v / 256, n - 1);
      ByteIsNumber(v % 256);
      LastByte(BigEndian(v, n));
    }
  }

  lemma ReadStep(v: nat, n: nat)
    requires v < Pow256(n)
    ensures n == 0 ==> v == 0 && FromBigEndian(BigEndian(v, n)) == 0
    ensures n > 0 ==> v / 256 < Pow256(n - 1) && v % 256 < 256 && v == 256 * (v / 256) + v % 256
    ensures n > 0 ==> BigEndian(v, n)[..n - 1] == BigEndian(v / 256, n - 1) && BigEndian(v, n)[n - 1] == ToByte(v % 256)
  {
    hide ToByte, ToNat;
  }

  // ---------- Counters and the key stream ----------

  /** The counter block with the given 32-bit counter, which wraps. */
  function CounterBlock(iv: seq<Byte>, counter: nat): Block
    requires |iv| == 12
  {
    iv + BigEndian(counter % 0x1_0000_0000, 4)
  }

  function J0(iv: seq<Byte>): Block
    requires |iv| == 12
  {
    CounterBlock(iv, 1)
  }

  /** Byte i of the key stream, whose first block uses counter 2. */
  function StreamByte(key: Key, iv: seq<Byte>, i: nat): Byte
    requires |iv| == 12
  {
    key.cipher(CounterBlock(iv, i / 16 + 2))[i % 16]
  }

  function Stream(key: Key, iv: seq<Byte>, data: seq<Byte>): (r: seq<Byte>)
    requires |iv| == 12
    ensures |r| == |data|
  {
    seq(|data|, i requires 0 <= i < |data| => data[i] ^ StreamByte(key, iv, i))
  }

  lemma XorTwice(a: Byte, b: Byte)
    ensures a ^ b ^ b == a
  {}

  /** Applying the key stream twice restores the data. */
  lemma StreamTwice(key: Key, iv: seq<Byte>, data: seq<Byte>)
    requires |iv| == 12
    ensures Stream(key, iv, Stream(key, iv, data)) == data
  {
    hide StreamByte;
    forall i | 0 <= i < |data|
      ensures Stream(key, iv, Stream(key, iv, data))[i] == data[i]
    {
      XorTwice(data[i], StreamByte(key, iv, i));
    }
  }

  /** Different 32-bit counters give different counter blocks. */
  lemma CounterBlocksEqual(iv: seq<Byte>, m: nat, n: nat)
    requires |iv| == 12
    ensures CounterBlock(iv, m) == CounterBlock(iv, n) <==> m % 0x1_0000_0000 == n % 0x1_0000_0000
  {
    assert Pow256(4) == 0x1_0000_0000 by {
      assert Pow256(0) == 1 && Pow256(1) == 256 && Pow256(2) == 65536 && Pow256(3) == 16777216;
    }
    var a, b := m % 0x1_0000_0000, n % 0x1_0000_0000;
    hide BigEndian, FromBigEndian, Pow256;
    ReadBigEndian(a, 4);
    ReadBigEndian(b, 4);
    assert CounterBlock(iv, m)[12..] == BigEndian(a, 4);
    assert CounterBlock(iv, n)[12..] == BigEndian(b, 4);
  }

  /** The counter blocks of a payload are pairwise distinct and differ from J0. */
  ghost predicate CountersFresh(iv: seq<Byte>, len: nat)
    requires |iv| == 12
  {
    && (forall i :: 0 <= i < len ==> CounterBlock(iv, i / 16 + 2) != J0(iv))
    && (forall i, j :: 0 <= i < len && 0 <= j < len && i / 16 != j / 16 ==> CounterBlock(iv, i / 16 + 2) != CounterBlock(iv, j / 16 + 2))
  }

  /** They are so exactly for the payload lengths the code permits. */
  lemma CountersFreshExactly(iv: seq<Byte>, len: nat)
    requires |iv| == 12
    ensures CountersFresh(iv, len) <==> len <= MAX_PAYLOAD_BYTES
  {
    hide *;
    if len <= MAX_PAYLOAD_BYTES {
      forall i | 0 <= i < len
        ensures CounterBlock(iv, i / 16 + 2) != J0(iv)
      {
        CounterIsNotJ0(iv, i);
      }
      forall i, j | 0 <= i < len && 0 <= j < len && i / 16 != j / 16
        ensures CounterBlock(iv, i / 16 + 2) != CounterBlock(iv, j / 16 + 2)
      {
        CountersDiffer(iv, i, j);
      }
      MakeFresh(iv, len);
    } else {
      FirstRepeat(iv, len);
    }
  }

  /** The counter of byte i of a permitted payload is at least 2, or 0 after the last wrap. */
  lemma CounterRange(i: nat)
    requires i < MAX_PAYLOAD_BYTES
    ensures (i / 16 + 2) % 0x1_0000_0000 == if i / 16 == 0xFFFF_FFFE then 0 else i / 16 + 2
  {
    var x := i / 16 + 2;
    assert 2 <= x <= 0x1_0000_0000;
  }

  lemma CounterIsNotJ0(iv: seq<Byte>, i: nat)
    requires |iv| == 12 && i < MAX_PAYLOAD_BYTES
    ensures CounterBlock(iv, i / 16 + 2) != J0(iv)
  {
    hide *;
    J0Block(iv);
    CounterBlocksEqual(iv, i / 16 + 2, 1);
    CounterRange(i);
  }

  lemma J0Block(iv: seq<Byte>)
    requires |iv| == 12
    ensures J0(iv) == CounterBlock(iv, 1)
  {}

  lemma CountersDiffer(iv: seq<Byte>, i: nat, j: nat)
    requires |iv| == 12 && i < MAX_PAYLOAD_BYTES && j < MAX_PAYLOAD_BYTES && i / 16 != j / 16
    ensures CounterBlock(iv, i / 16 + 2) != CounterBlock(iv, j / 16 + 2)
  {
    hide *;
    CounterBlocksEqual(iv, i / 16 + 2, j / 16 + 2);
    CounterRange(i);
    CounterRange(j);
  }

  lemma MakeFresh(iv: seq<Byte>, len: nat)
    requires |iv| == 12 && forall i :: 0 <= i < len ==> CounterBlock(iv, i / 16 + 2) != J0(iv)
    requires forall i, j :: 0 <= i < len && 0 <= j < len && i / 16 != j / 16 ==>
               CounterBlock(iv, i / 16 + 2) != CounterBlock(iv, j / 16 + 2)
    ensures CountersFresh(iv, len)
  {
    hide CounterBlock, J0;
  }

  /** Behind the permitted length the counter is 1 again. */
  lemma FirstRepeat(iv: seq<Byte>, len: nat)
    requires |iv| == 12 && len > MAX_PAYLOAD_BYTES
    ensures !CountersFresh(iv, len)
  {
    hide *;
    J0Block(iv);
    LastCounter();
    CounterBlocksEqual(iv, MAX_PAYLOAD_BYTES / 16 + 2, 1);
    NotFresh(iv, len, MAX_PAYLOAD_BYTES);
  }

  lemma LastCounter()
    ensures (MAX_PAYLOAD_BYTES / 16 + 2) % 0x1_0000_0000 == 1 == 1 % 0x1_0000_0000
  {}

  lemma NotFresh(iv: seq<Byte>, len: nat, i: nat)
    requires |iv| == 12 && i < len && CounterBlock(iv, i / 16 + 2) == J0(iv)
    ensures !CountersFresh(iv, len)
  {
    hide CounterBlock, J0;
  }

  // ---------- The tag ----------

  /** The two lengths in bits, as 64-bit big-endian numbers. */
  function LengthBlock(aadLen: nat, ctLen: nat): Block {
    BigEndian(8 * aadLen, 8) + BigEndian(8 * ctLen, 8)
  }

  /** The blocks that are hashed: padded additional data, padded ciphertext, lengths. */
  function HashedBlocks(aad: seq<Byte>, ct: seq<Byte>): (r: seq<Elem>)
    ensures forall i :: 0 <= i < |r| ==> |r[i]| == 128
  {
    Blocks(aad) + Blocks(ct) + [Bits(LengthBlock(|aad|, |ct|))]
  }

  function HashKey(key: Key): (h: Elem)
    ensures |h| == 128
  {
    Bits(key.cipher(seq(16, _ => 0)))
  }

  /** The tag of section 7.1 of SP 800-38D: the polynomial of the blocks at the hash key, plus the cipher of J0. */
  function Tag(key: Key, iv: seq<Byte>, aad: seq<Byte>, ct: seq<Byte>): (r: Elem)
    requires |iv| == 12
    ensures |r| == 128
  {
    Xor(Polynomial(HashKey(key), HashedBlocks(aad, ct)), Bits(key.cipher(J0(iv))))
  }

  ghost predicate IsTag(key: Key, iv: seq<Byte>, aad: seq<Byte>, ct: seq<Byte>, tag: seq<Byte>)
    requires |iv| == 12 && |tag| == 16
  {
    Bits(tag) == Tag(key, iv, aad, ct)
  }

  lemma BytesFromBits(v: Byte, w: Byte)
    requires forall b :: 0 <= b < 8 ==> BitOf(v, b) == BitOf(w, b)
    ensures v == w
  {
    assert BitOf(v, 0) == BitOf(w, 0) && BitOf(v, 1) == BitOf(w, 1) && BitOf(v, 2) == BitOf(w, 2) && BitOf(v, 3) == BitOf(w, 3);
    assert BitOf(v, 4) == BitOf(w, 4) && BitOf(v, 5) == BitOf(w, 5) && BitOf(v, 6) == BitOf(w, 6) && BitOf(v, 7) == BitOf(w, 7);
    SameMasks(v, w);
  }

  lemma SameMasks(v: Byte, w: Byte)
    requires (v & 0x80 != 0) == (w & 0x80 != 0) && (v & 0x40 != 0) == (w & 0x40 != 0)
    requires (v & 0x20 != 0) == (w & 0x20 != 0) && (v & 0x10 != 0) == (w & 0x10 != 0)
    requires (v & 0x08 != 0) == (w & 0x08 != 0) && (v & 0x04 != 0) == (w & 0x04 != 0)
    requires (v & 0x02 != 0) == (w & 0x02 != 0) && (v & 0x01 != 0) == (w & 0x01 != 0)
    ensures v == w
  {}

  /** A block is determined by its field element, so there is only one tag. */
  lemma BitsInjective(x: seq<Byte>, y: seq<Byte>)
    requires |x| == |y| == 16 && Bits(x) == Bits(y)
    ensures x == y
  {
    hide *;
    forall i | 0 <= i < 16
      ensures x[i] == y[i]
    {
      BitsOfByte(x, i);
      BitsOfByte(y, i);
      forall b | 0 <= b < 8
        ensures BitOf(x[i], b) == BitOf(y[i], b)
      {
        assert BitOf(x[i], b) == Bits(x)[8 * i + b] && BitOf(y[i], b) == Bits(y)[8 * i + b];
      }
      BytesFromBits(x[i], y[i]);
    }
  }

  lemma {:induction false} HornerConcat(h: Elem, a: seq<Elem>, b: seq<Elem>, t: Elem)
    requires |h| == |t| == 128 && (forall i :: 0 <= i < |a| ==> |a[i]| == 128) && forall i :: 0 <= i < |b| ==> |b[i]| == 128
    ensures Horner(h, a + b, t) == Horner(h, b, Horner(h, a, t))
    decreases |a|
  {
    hide Mul, Xor;
    if a == [] {
      assert a + b == b;
    } else {
      assert (a + b)[0] == a[0] && (a + b)[1..] == a[1..] + b;
      HornerConcat(h, a[1..], b, Mul(Xor(t, a[0]), h));
    }
  }

  /** The code hashes the three parts one after the other. */
  lemma HashInParts(h: Elem, aad: seq<Byte>, ct: seq<Byte>)
    requires |h| == 128
    ensures Polynomial(h, HashedBlocks(aad, ct))
         == Horner(h, Blocks(LengthBlock(|aad|, |ct|)), Horner(h, Blocks(ct), Horner(h, Blocks(aad), Zeros(128))))
  {
    var len := LengthBlock(|aad|, |ct|);
    OneBlock(len);
    hide *;
    var a, c, l := Blocks(aad), Blocks(ct), Blocks(len);
    HashedBlocksIs(aad, ct);
    HornerConcat(h, a + c, l, Zeros(128));
    HornerConcat(h, a, c, Zeros(128));
    HornerFromZero(h, a + c + l);
  }

  lemma OneBlock(b: Block)
    ensures Blocks(b) == [Bits(b)]
  {
    hide Bits;
    assert b[..16] == b && Padded(b) == b;
    assert Chunk(b) == 16;
    assert b[16..] == [];
    assert Blocks(b[16..]) == [];
  }

  lemma HashedBlocksIs(aad: seq<Byte>, ct: seq<Byte>)
    ensures HashedBlocks(aad, ct) == Blocks(aad) + Blocks(ct) + [Bits(LengthBlock(|aad|, |ct|))]
  {}

  lemma HornerFromZero(h: Elem, blocks: seq<Elem>)
    requires |h| == 128 && forall i :: 0 <= i < |blocks| ==> |blocks[i]| == 128
    ensures Horner(h, blocks, Zeros(128)) == Polynomial(h, blocks)
  {
    hide *;
    HornerIsPolynomial(h, blocks, Zeros(128));
    MulZero(Power(h, |blocks|));
    XorLaws(Polynomial(h, blocks), Zeros(128), Zeros(128), Zeros(128));
  }

  lemma MulZero(x: Elem)
    requires |x| == 128
    ensures Mul(Zeros(128), x) == Zeros(128)
  {
    MulCommutes(Zeros(128), x);
    ActZero(x);
    hide Act, Zeros;
  }

  // ---------- What the encodings say ----------

  function Weighed(bit: bool, w: nat): nat {
    if bit then w else 0
  }

  function HighHalf(b: Byte): (r: nat)
    ensures r < 16
  {
    Nibble(b & 0x80 != 0, b & 0x40 != 0, b & 0x20 != 0, b & 0x10 != 0)
  }

  function LowHalf(b: Byte): (r: nat)
    ensures r < 16
  {
    Nibble(b & 0x08 != 0, b & 0x04 != 0, b & 0x02 != 0, b & 0x01 != 0)
  }

  lemma HalvesOf(b: Byte)
    ensures ToNat(b) == 16 * HighHalf(b) + LowHalf(b)
  {
    hide Nibble;
  }

  lemma HighMeans(b: Byte)
    ensures HighHalf(b) == Weighed(b & 0x80 != 0, 8) + Weighed(b & 0x40 != 0, 4) + Weighed(b & 0x20 != 0, 2) + Weighed(b & 0x10 != 0, 1)
  {}

  lemma LowMeans(b: Byte)
    ensures LowHalf(b) == Weighed(b & 0x08 != 0, 8) + Weighed(b & 0x04 != 0, 4) + Weighed(b & 0x02 != 0, 2) + Weighed(b & 0x01 != 0, 1)
  {}

  /** The number of a byte, bit by bit. */
  lemma ByteMeans(b: Byte)
    ensures ToNat(b) == 16 * (Weighed(b & 0x80 != 0, 8) + Weighed(b & 0x40 != 0, 4) + Weighed(b & 0x20 != 0, 2) + Weighed(b & 0x10 != 0, 1))
                      + Weighed(b & 0x08 != 0, 8) + Weighed(b & 0x04 != 0, 4) + Weighed(b & 0x02 != 0, 2) + Weighed(b & 0x01 != 0, 1)
  {
    hide *;
    HalvesOf(b);
    HighMeans(b);
    LowMeans(b);
  }

  /** Different bytes are different numbers. */
  lemma ByteOfNumber(x: Byte, y: Byte)
    requires ToNat(x) == ToNat(y)
    ensures x == y
  {
    hide *;
    HalvesOf(x);
    HalvesOf(y);
    SameHigh(x, y);
    SameLow(x, y);
    SameMasks(x, y);
  }

  lemma NumberAndBack(b: Byte)
    ensures ToByte(ToNat(b)) == b
  {
    hide *;
    ByteIsNumber(ToNat(b));
    ByteOfNumber(ToByte(ToNat(b)), b);
  }

  lemma SameHigh(x: Byte, y: Byte)
    requires HighHalf(x) == HighHalf(y)
    ensures (x & 0x80 != 0) == (y & 0x80 != 0) && (x & 0x40 != 0) == (y & 0x40 != 0)
    ensures (x & 0x20 != 0) == (y & 0x20 != 0) && (x & 0x10 != 0) == (y & 0x10 != 0)
  {}

  lemma SameLow(x: Byte, y: Byte)
    requires LowHalf(x) == LowHalf(y)
    ensures (x & 0x08 != 0) == (y & 0x08 != 0) && (x & 0x04 != 0) == (y & 0x04 != 0)
    ensures (x & 0x02 != 0) == (y & 0x02 != 0) && (x & 0x01 != 0) == (y & 0x01 != 0)
  {}

  /** Big-endian strings of one length that stand for one number are equal. */
  lemma {:induction false} BigEndianInjective(s: seq<Byte>, t: seq<Byte>)
    requires |s| == |t| && FromBigEndian(s) == FromBigEndian(t)
    ensures s == t
  {
    hide *;
    if s != [] {
      var m := |s| - 1;
      LastByte(s);
      LastByte(t);
      SameDigits(FromBigEndian(s[..m]), ToNat(s[m]), FromBigEndian(t[..m]), ToNat(t[m]));
      ByteOfNumber(s[m], t[m]);
      BigEndianInjective(s[..m], t[..m]);
      assert s == s[..m] + [s[m]] && t == t[..m] + [t[m]];
    }
  }

  lemma LastByte(s: seq<Byte>)
    requires s != []
    ensures FromBigEndian(s) == 256 * FromBigEndian(s[..|s| - 1]) + ToNat(s[|s| - 1])
  {
    hide ToNat;
  }

  lemma SameDigits(x: nat, a: nat, y: nat, b: nat)
    requires a < 256 && b < 256 && 256 * x + a == 256 * y + b
    ensures x == y && a == b
  {}

  /** Byte i of a big-endian string of n bytes weighs 256^(n - 1 - i). */
  lemma {:induction false} BigEndianByte(v: nat, n: nat, i: nat)
    requires i < n
    ensures ToNat(BigEndian(v, n)[i]) == v / Pow256(n - 1 - i) % 256
  {
    hide ToNat, ToByte;
    ByteIsNumber(v % 256);
    if i < n - 1 {
      BigEndianByte(v / 256, n - 1, i);
      DivideTwice(v, 256, Pow256(n - 2 - i));
    } else {
      assert Pow256(0) == 1;
    }
  }

  lemma DivideTwice(v: nat, a: nat, b: nat)
    requires a > 0 && b > 0
    ensures a * b > 0 && v / a / b == v / (a * b)
  {
    var q, r := v / a, v % a;
    var s, t := q / b, q % b;
    Below(a, b, t, r);
    Quotient(v, a, b, q, r, s, t);
  }

  lemma Quotient(v: nat, a: nat, b: nat, q: nat, r: nat, s: nat, t: nat)
    requires v == r + a * q && q == t + b * s && 0 <= r + a * t < a * b
    ensures a * b > 0 && v / (a * b) == s
  {
    Regrouped(a, b, s, t, r);
    BitPacking.DigitStep(r + a * t, s, a * b);
  }

  lemma Regrouped(a: nat, b: nat, s: nat, t: nat, r: nat)
    ensures r + a * (t + b * s) == (r + a * t) + (a * b) * s
  {
    BitPacking.MulDistributes(a, t, b * s);
    BitPacking.MulAssoc(a, b, s);
  }

  lemma Below(a: nat, b: nat, t: nat, r: nat)
    requires r < a && t < b
    ensures 0 <= r + a * t < a * b
  {
    BitPacking.DigitBound(r, t, b, a);
  }

  /** The length block: eight bytes for the additional data in front of eight for the payload, each big-endian in bits. */
  lemma LengthBlockMeans(aadLen: nat, ctLen: nat, i: nat)
    requires i < 8
    ensures ToNat(LengthBlock(aadLen, ctLen)[i]) == 8 * aadLen / Pow256(7 - i) % 256
    ensures ToNat(LengthBlock(aadLen, ctLen)[8 + i]) == 8 * ctLen / Pow256(7 - i) % 256
  {
    hide ToNat, BigEndian, Pow256;
    BigEndianByte(8 * aadLen, 8, i);
    BigEndianByte(8 * ctLen, 8, i);
  }

  lemma SixtyFourBits()
    ensures Pow256(8) == 0x1_0000_0000_0000_0000
  {
    assert Pow256(0) == 1 && Pow256(1) == 0x100 && Pow256(2) == 0x1_0000 && Pow256(4) == 0x1_0000_0000;
  }

  lemma {:induction false} NumberBelow(s: seq<Byte>)
    ensures FromBigEndian(s) < Pow256(|s|)
  {
    hide ToNat;
    if s == [] {
      assert Pow256(0) == 1;
    } else {
      NumberBelow(s[..|s| - 1]);
    }
  }

  /**
   The halves of the length block read as the two numbers of bits. For the additional data this is so exactly up to the
   permitted length; the payload is limited further.
   */
  lemma LengthsRead(aadLen: nat, ctLen: nat)
    ensures FromBigEndian(LengthBlock(aadLen, ctLen)[..8]) == 8 * aadLen <==> aadLen <= MAX_AAD_BYTES
    ensures ctLen <= MAX_PAYLOAD_BYTES ==> FromBigEndian(LengthBlock(aadLen, ctLen)[8..]) == 8 * ctLen
  {
    SixtyFourBits();
    hide BigEndian, FromBigEndian, Pow256;
    var b := LengthBlock(aadLen, ctLen);
    assert b[..8] == BigEndian(8 * aadLen, 8) && b[8..] == BigEndian(8 * ctLen, 8);
    NumberBelow(b[..8]);
    if aadLen <= MAX_AAD_BYTES {
      ReadBigEndian(8 * aadLen, 8);
    }
    if ctLen <= MAX_PAYLOAD_BYTES {
      ReadBigEndian(8 * ctLen, 8);
    }
  }

  /** The number in the last four bytes of a counter block. */
  function CounterOf(b: seq<Byte>): nat
    requires |b| == 16
  {
    0x100_0000 * ToNat(b[12]) + 0x1_0000 * ToNat(b[13]) + 0x100 * ToNat(b[14]) + ToNat(b[15])
  }

  /** The counter block is the one block that starts with the initialisation vector and ends with the counter. */
  lemma CounterBlockMeans(iv: seq<Byte>, n: nat, b: seq<Byte>)
    requires |iv| == 12 && |b| == 16
    ensures b == CounterBlock(iv, n) <==> b[..12] == iv && CounterOf(b) == n % 0x1_0000_0000
  {
    var c := CounterBlock(iv, n);
    var m := n % 0x1_0000_0000;
    assert Pow256(4) == 0x1_0000_0000 by {
      assert Pow256(0) == 1 && Pow256(2) == 65536;
    }
    hide Pow256, BigEndian, ToNat;
    ReadBigEndian(m, 4);
    assert c[..12] == iv && c[12..] == BigEndian(m, 4);
    LastFour(c);
    LastFour(b);
    if b[..12] == iv && CounterOf(b) == m {
      BigEndianInjective(b[12..], c[12..]);
      assert b == b[..12] + b[12..];
    }
  }

  lemma LastFour(b: seq<Byte>)
    requires |b| == 16
    ensures FromBigEndian(b[12..]) == CounterOf(b)
  {
    hide ToNat;
    var s := b[12..];
    assert s[..3][..2] == s[..2] && s[..2][..1] == s[..1] && s[..1][..0] == [];
    assert FromBigEndian(s[..1]) == ToNat(s[0]);
    assert FromBigEndian(s[..2]) == 256 * FromBigEndian(s[..1]) + ToNat(s[1]);
    assert FromBigEndian(s[..3]) == 256 * FromBigEndian(s[..2]) + ToNat(s[2]);
  }

  /** Byte i of the key stream comes from the block with counter 2 + i / 16. */
  lemma StreamMeans(key: Key, iv: seq<Byte>, i: nat, b: Block)
    requires |iv| == 12 && b[..12] == iv && CounterOf(b) == (i / 16 + 2) % 0x1_0000_0000
    ensures StreamByte(key, iv, i) == key.cipher(b)[i % 16]
  {
    CounterBlockMeans(iv, i / 16 + 2, b);
    hide CounterBlock, CounterOf;
  }

  function ZeroBytes(n: nat): (r: seq<Byte>)
    ensures |r| == n
  {
    seq(n, _ => 0)
  }

  /** A string filled up with zeros to whole blocks. */
  function Filled(data: seq<Byte>): seq<Byte> {
    data + ZeroBytes((16 - |data| % 16) % 16)
  }

  /** The blocks of a string of whole blocks. */
  ghost function Cut(x: seq<Byte>): (r: seq<Elem>)
    ensures |r| == |x| / 16 && forall i :: 0 <= i < |r| ==> |r[i]| == 128
  {
    seq(|x| / 16, i requires 0 <= i < |x| / 16 => Bits(x[16 * i..16 * i + 16]))
  }

  lemma CutConcat(x: seq<Byte>, y: seq<Byte>)
    requires |x| % 16 == 0
    ensures Cut(x + y) == Cut(x) + Cut(y)
  {
    hide Bits;
    var n := |x| / 16;
    assert |x + y| / 16 == n + |y| / 16;
    forall i | 0 <= i < |x + y| / 16
      ensures Cut(x + y)[i] == (Cut(x) + Cut(y))[i]
    {
      if i < n {
        assert (x + y)[16 * i..16 * i + 16] == x[16 * i..16 * i + 16];
      } else {
        assert (x + y)[16 * i..16 * i + 16] == y[16 * (i - n)..16 * (i - n) + 16];
      }
    }
  }

  /** The blocks of a string are those of the filled string. */
  lemma {:induction false} BlocksAreCut(data: seq<Byte>)
    ensures |Filled(data)| % 16 == 0 && Blocks(data) == Cut(Filled(data))
    decreases |data|
  {
    hide *;
    if |data| <= 16 {
      ShortBlocks(data);
    } else {
      var head, tail := data[..16], data[16..];
      BlocksAreCut(tail);
      FirstBlock(data);
      CutConcat(head, Filled(tail));
      OneCut(head);
    }
  }

  lemma FirstBlock(data: seq<Byte>)
    requires |data| > 16
    ensures Blocks(data) == [Bits(data[..16])] + Blocks(data[16..]) && Filled(data) == data[..16] + Filled(data[16..])
  {
    hide *;
    WholeBlock(data[..16]);
    BlocksStep(data);
    FilledStep(data);
  }

  lemma WholeBlock(b: seq<Byte>)
    requires |b| == 16
    ensures Padded(b) == b
  {}

  lemma BlocksStep(data: seq<Byte>)
    requires |data| > 16
    ensures Blocks(data) == [Bits(Padded(data[..16]))] + Blocks(data[16..])
  {
    hide Bits, Padded;
    assert Chunk(data) == 16;
  }

  lemma FilledStep(data: seq<Byte>)
    requires |data| > 16
    ensures Filled(data) == data[..16] + Filled(data[16..])
  {
    assert |data[16..]| % 16 == |data| % 16;
    hide ZeroBytes;
    assert data == data[..16] + data[16..];
  }

  lemma ShortBlocks(data: seq<Byte>)
    requires |data| <= 16
    ensures |Filled(data)| % 16 == 0 && Blocks(data) == Cut(Filled(data))
  {
    hide Bits;
    if |data| == 0 {
      assert Filled(data) == [];
    } else {
      assert data[..|data|] == data && data[|data|..] == [];
      assert Blocks(data) == [Bits(Padded(data))];
      assert Filled(data) == Padded(data);
      assert Filled(data)[16 * 0..16 * 0 + 16] == Padded(data);
    }
  }

  /**
   The tag of section 7.1 of SP 800-38D in terms of byte strings: GHASH of the filled additional data, the filled payload
   and the two lengths in bits, at the cipher of the zero block, plus the cipher of iv 00000001.
   */
  lemma TagMeans(key: Key, iv: seq<Byte>, aad: seq<Byte>, ct: seq<Byte>, lengths: Block, j0: Block)
    requires |iv| == 12 && |aad| <= MAX_AAD_BYTES && |ct| <= MAX_PAYLOAD_BYTES
    requires FromBigEndian(lengths[..8]) == 8 * |aad| && FromBigEndian(lengths[8..]) == 8 * |ct|
    requires j0 == iv + [0, 0, 0, 1]
    ensures Tag(key, iv, aad, ct)
         == Xor(Polynomial(Bits(key.cipher(ZeroBytes(16))), Cut(Filled(aad) + Filled(ct) + lengths)), Bits(key.cipher(j0)))
  {
    hide *;
    LengthsRead(|aad|, |ct|);
    var l := LengthBlock(|aad|, |ct|);
    BigEndianInjective(lengths[..8], l[..8]);
    BigEndianInjective(lengths[8..], l[8..]);
    assert lengths == lengths[..8] + lengths[8..] && l == l[..8] + l[8..];
    BlocksAreCut(aad);
    BlocksAreCut(ct);
    CutConcat(Filled(aad) + Filled(ct), l);
    CutConcat(Filled(aad), Filled(ct));
    OneCut(l);
    HashedBlocksIs(aad, ct);
    J0Is(iv, j0);
    TagParts(key, iv, aad, ct);
  }

  lemma OneCut(b: Block)
    ensures Cut(b) == [Bits(b)]
  {
    hide Bits;
    assert b[16 * 0..16 * 0 + 16] == b;
  }

  lemma J0Is(iv: seq<Byte>, j0: seq<Byte>)
    requires |iv| == 12 && j0 == iv + [0, 0, 0, 1]
    ensures J0(iv) == j0
  {
    assert j0[..12] == iv && j0[12] == 0 && j0[13] == 0 && j0[14] == 0 && j0[15] == 1;
    ByteMeans(0);
    ByteMeans(1);
    assert CounterOf(j0) == 1;
    hide CounterBlock, CounterOf, ToNat;
    CounterBlockMeans(iv, 1, j0);
  }

  lemma TagParts(key: Key, iv: seq<Byte>, aad: seq<Byte>, ct: seq<Byte>)
    requires |iv| == 12
    ensures Tag(key, iv, aad, ct)
         == Xor(Polynomial(Bits(key.cipher(ZeroBytes(16))), HashedBlocks(aad, ct)), Bits(key.cipher(J0(iv))))
  {
    assert ZeroBytes(16) == seq(16, _ => 0);
    hide Bits, Polynomial, HashedBlocks, Xor, J0;
  }
}
