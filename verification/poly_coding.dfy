/**
 Encoding of polynomials and polynomial vectors: each coefficient, or its distance below a top value, is stored in
 d bits, and the polynomials of a vector follow one another.
 */
module PolyCoding {
  import opened MachineInts
  import opened Vectors
  import opened BitPacking
  import opened BitStrings

  /** Coefficients stored as they are, or counted down from a top value. */
  datatype Coding = Plain(bits: nat) | Below(bits: nat, top: int)

  /** The field stored for a coefficient, and the coefficient stored in a field. */
  function Flip(c: Coding, x: int): int
  {
    if c.Plain? then x else c.top - x
  }

  function FlipAll(c: Coding, p: seq<int>): (r: seq<int>)
    ensures |r| == |p|
  {
    seq(|p|, i requires 0 <= i < |p| => Flip(c, p[i]))
  }

  lemma FlipTwice(c: Coding, p: seq<int>)
    ensures FlipAll(c, FlipAll(c, p)) == p
  {}

  /** The coefficients a coding can store. */
  ghost predicate Fits(c: Coding, p: seq<int>)
  {
    |p| == 256 && Digits(FlipAll(c, p), Pow(2, c.bits))
  }

  function Encode(c: Coding, p: seq<int>): (r: seq<uint8>)
  {
    Pack(FlipAll(c, p), c.bits)
  }

  function Decode(c: Coding, buf: seq<uint8>): (p: seq<int>)
    ensures |p| == 256
  {
    FlipAll(c, Unpack(buf, c.bits, 256))
  }

  lemma EncodedLength(c: Coding, p: seq<int>)
    requires |p| == 256
    ensures |Encode(c, p)| == 32 * c.bits
  {
    assert c.bits * 256 / 8 == 32 * c.bits;
  }

  /** Decoding undoes encoding. */
  lemma DecodeEncode(c: Coding, p: seq<int>)
    requires Fits(c, p)
    ensures |Encode(c, p)| == 32 * c.bits && Decode(c, Encode(c, p)) == p
  {
    EncodedLength(c, p);
    assert c.bits * 256 % 8 == 0;
    PackKeepsBits(FlipAll(c, p), c.bits);
    SameBitsDetermines(Encode(c, p), FlipAll(c, p), c.bits);
    FlipTwice(c, p);
  }

  /** Encoding undoes decoding: every buffer of the right length is the encoding of one polynomial. */
  lemma EncodeDecode(c: Coding, buf: seq<uint8>)
    requires |buf| == 32 * c.bits
    ensures Fits(c, Decode(c, buf)) && Encode(c, Decode(c, buf)) == buf
  {
    BytesAreDigits(buf);
    UnpackKeepsBits(buf, c.bits, 256);
    SameBitsDetermines(buf, Unpack(buf, c.bits, 256), c.bits);
    FlipTwice(c, Unpack(buf, c.bits, 256));
  }

  // ---------- The encoding, bit by bit ----------

  /** Bit b of the stored form of coefficient i is bit d i + b of the bytes: the coefficient, or its distance from the top. */
  lemma EncodedBit(c: Coding, p: seq<int>, i: nat, b: nat)
    requires Fits(c, p) && i < 256 && b < c.bits
    ensures |Encode(c, p)| == 32 * c.bits && 0 <= (c.bits * i + b) / 8 < 32 * c.bits
    ensures var t := match c case Plain(d) => p[i] case Below(d, top) => top - p[i];
            0 <= t < Pow(2, c.bits)
            && NumberBit(Encode(c, p)[(c.bits * i + b) / 8], (c.bits * i + b) % 8) == NumberBit(t, b)
  {
    var d, ts, n := c.bits, FlipAll(c, p), c.bits * i + b;
    EncodedLength(c, p);
    BytesAreDigits(Encode(c, p));
    assert d * 256 % 8 == 0;
    PackKeepsBits(ts, d);
    Pow256();
    PlaceOfBit(d, i, b);
    hide Pack, Pow, Value, NumberBit;
    SameStringSameBit(Encode(c, p), 8, ts, d, n);
  }

  lemma PlaceOfBit(d: nat, i: nat, b: nat)
    requires i < 256 && b < d
    ensures (d * i + b) / d == i && (d * i + b) % d == b && d * i + b < d * 256 == 8 * (32 * d)
  {
    DigitStep(b, i, d);
    ProductLe(i + 1, 256, d);
    assert (i + 1) * d == d * i + d;
  }

  /** The same for the coefficient read from bytes. */
  lemma DecodedBit(c: Coding, buf: seq<uint8>, i: nat, b: nat)
    requires |buf| == 32 * c.bits && i < 256 && b < c.bits
    ensures 0 <= (c.bits * i + b) / 8 < |buf|
    ensures var t := match c case Plain(d) => Decode(c, buf)[i] case Below(d, top) => top - Decode(c, buf)[i];
            0 <= t < Pow(2, c.bits) && NumberBit(buf[(c.bits * i + b) / 8], (c.bits * i + b) % 8) == NumberBit(t, b)
  {
    hide *;
    EncodeDecode(c, buf);
    EncodedBit(c, Decode(c, buf), i, b);
  }

  // ---------- Vectors ----------

  ghost predicate AllFit(c: Coding, v: Vec)
  {
    forall i :: 0 <= i < |v| ==> Fits(c, v[i])
  }

  function EncodeVec(c: Coding, v: Vec): (r: seq<uint8>)
  {
    if v == [] then [] else EncodeVec(c, v[..|v| - 1]) + Encode(c, v[|v| - 1])
  }

  /** The length of n encoded polynomials. */
  function VecLength(c: Coding, n: nat): nat
  {
    if n == 0 then 0 else VecLength(c, n - 1) + 32 * c.bits
  }

  function DecodeVec(c: Coding, buf: seq<uint8>, n: nat): (v: Vec)
    requires |buf| == VecLength(c, n)
    ensures |v| == n
    decreases n
  {
    if n == 0 then [] else
      var at := VecLength(c, n - 1);
      DecodeVec(c, buf[..at], n - 1) + [Decode(c, buf[at..])]
  }

  lemma {:induction false} EncodedVecLength(c: Coding, v: Vec)
    requires forall i :: 0 <= i < |v| ==> |v[i]| == 256
    ensures |EncodeVec(c, v)| == VecLength(c, |v|)
    decreases |v|
  {
    if v != [] {
      EncodedLength(c, v[|v| - 1]);
      EncodedVecLength(c, v[..|v| - 1]);
    }
  }

  lemma {:induction false} DecodeEncodeVec(c: Coding, v: Vec)
    requires AllFit(c, v)
    ensures |EncodeVec(c, v)| == VecLength(c, |v|) && DecodeVec(c, EncodeVec(c, v), |v|) == v
    decreases |v|
  {
    hide Encode, Decode, Fits;
    if v != [] {
      var u, p := v[..|v| - 1], v[|v| - 1];
      DecodeEncodeVec(c, u);
      DecodeEncode(c, p);
      DecodeAppended(c, EncodeVec(c, u), Encode(c, p), |u|);
      assert v == u + [p];
    }
  }

  lemma DecodeAppended(c: Coding, a: seq<uint8>, b: seq<uint8>, n: nat)
    requires |a| == VecLength(c, n) && |b| == 32 * c.bits
    ensures |a + b| == VecLength(c, n + 1) && DecodeVec(c, a + b, n + 1) == DecodeVec(c, a, n) + [Decode(c, b)]
  {
    hide Decode;
    assert (a + b)[..VecLength(c, n)] == a && (a + b)[VecLength(c, n)..] == b;
  }

  lemma {:induction false} EncodeDecodeVec(c: Coding, buf: seq<uint8>, n: nat)
    requires |buf| == VecLength(c, n)
    ensures AllFit(c, DecodeVec(c, buf, n)) && EncodeVec(c, DecodeVec(c, buf, n)) == buf
    decreases n
  {
    hide *;
    if n == 0 {
      NoVector(c, buf);
    } else {
      var at := VecLength(c, n - 1);
      LastPoly(c, buf, n);
      EncodeDecodeVec(c, buf[..at], n - 1);
      EncodeDecode(c, buf[at..]);
      EncodeAppended(c, DecodeVec(c, buf[..at], n - 1), Decode(c, buf[at..]));
      assert buf == buf[..at] + buf[at..];
    }
  }

  lemma NoVector(c: Coding, buf: seq<uint8>)
    requires |buf| == VecLength(c, 0)
    ensures AllFit(c, DecodeVec(c, buf, 0)) && EncodeVec(c, DecodeVec(c, buf, 0)) == buf
  {}

  lemma LastPoly(c: Coding, buf: seq<uint8>, n: nat)
    requires n > 0 && |buf| == VecLength(c, n)
    ensures VecLength(c, n - 1) <= |buf| && |buf[VecLength(c, n - 1)..]| == 32 * c.bits
    ensures DecodeVec(c, buf, n) == DecodeVec(c, buf[..VecLength(c, n - 1)], n - 1) + [Decode(c, buf[VecLength(c, n - 1)..])]
  {
    hide Decode;
  }

  lemma EncodeAppended(c: Coding, v: Vec, p: seq<int>)
    ensures EncodeVec(c, v + [p]) == EncodeVec(c, v) + Encode(c, p)
    ensures AllFit(c, v) && Fits(c, p) ==> AllFit(c, v + [p])
  {
    hide Encode, Fits;
    assert (v + [p])[..|v + [p]| - 1] == v;
  }

  lemma {:induction false} VecLengthIs(c: Coding, n: nat)
    ensures VecLength(c, n) == 32 * c.bits * n
  {
    if n > 0 {
      VecLengthIs(c, n - 1);
    }
  }

  /** Polynomial i of an encoded vector fills the bytes 32 d i up to 32 d (i + 1). */
  lemma {:induction false} EncodedPart(c: Coding, v: Vec, i: nat)
    requires (forall j :: 0 <= j < |v| ==> |v[j]| == 256) && i < |v|
    ensures 0 <= 32 * c.bits * i <= 32 * c.bits * (i + 1) <= |EncodeVec(c, v)|
    ensures EncodeVec(c, v)[32 * c.bits * i..32 * c.bits * (i + 1)] == Encode(c, v[i])
    decreases |v|
  {
    hide Encode, VecLength;
    var u, p := v[..|v| - 1], v[|v| - 1];
    EncodedVecLength(c, u);
    VecLengthIs(c, |u|);
    EncodedLength(c, p);
    EncodeLast(c, v);
    assert 32 * c.bits * (i + 1) == 32 * c.bits * i + 32 * c.bits;
    if i < |u| {
      EncodedPart(c, u, i);
      assert u[i] == v[i];
    }
  }

  /** And it is read from there. */
  lemma {:induction false} DecodedPart(c: Coding, buf: seq<uint8>, n: nat, i: nat)
    requires |buf| == VecLength(c, n) && i < n
    ensures 0 <= 32 * c.bits * i <= 32 * c.bits * (i + 1) <= |buf|
    ensures DecodeVec(c, buf, n)[i] == Decode(c, buf[32 * c.bits * i..32 * c.bits * (i + 1)])
    decreases n
  {
    hide *;
    LastPoly(c, buf, n);
    VecLengthIs(c, n);
    VecLengthIs(c, n - 1);
    PartBounds(c.bits, n, i);
    var at := VecLength(c, n - 1);
    if i < n - 1 {
      DecodedPart(c, buf[..at], n - 1, i);
      assert buf[..at][32 * c.bits * i..32 * c.bits * (i + 1)] == buf[32 * c.bits * i..32 * c.bits * (i + 1)];
    } else {
      assert buf[at..] == buf[32 * c.bits * i..32 * c.bits * (i + 1)];
    }
  }

  lemma PartBounds(d: nat, n: nat, i: nat)
    requires i < n
    ensures 0 <= 32 * d * i <= 32 * d * (i + 1) <= 32 * d * n && 32 * d * n == 32 * d * (n - 1) + 32 * d
    ensures i < n - 1 ==> 32 * d * (i + 1) <= 32 * d * (n - 1)
  {
    ProductLe(i + 1, n, 32 * d);
    MulDistributes(32 * d, i, 1);
    MulDistributes(32 * d, n - 1, 1);
    if i < n - 1 {
      ProductLe(i + 1, n - 1, 32 * d);
    }
  }

  /** The bytes of polynomial i in a buffer, and the bytes behind n polynomials. */
  function Part(c: Coding, buf: seq<uint8>, i: nat): (r: seq<uint8>)
  {
    if 0 <= 32 * c.bits * i <= 32 * c.bits * (i + 1) <= |buf| then buf[32 * c.bits * i..32 * c.bits * (i + 1)] else []
  }

  function Rest(c: Coding, buf: seq<uint8>, n: nat): (r: seq<uint8>)
  {
    if 0 <= 32 * c.bits * n <= |buf| then buf[32 * c.bits * n..] else []
  }

  /** Encoded polynomials in front of other bytes. */
  lemma PartsOfBytes(c: Coding, v: Vec, more: seq<uint8>, i: nat)
    requires (forall j :: 0 <= j < |v| ==> |v[j]| == 256) && i < |v|
    ensures |EncodeVec(c, v)| == 32 * c.bits * |v|
    ensures Part(c, EncodeVec(c, v) + more, i) == Encode(c, v[i]) && Rest(c, EncodeVec(c, v) + more, |v|) == more
  {
    hide Encode, EncodeVec, VecLength;
    EncodedVecLength(c, v);
    VecLengthIs(c, |v|);
    EncodedPart(c, v, i);
    PartBounds(c.bits, |v|, i);
    var a := EncodeVec(c, v);
    assert (a + more)[32 * c.bits * i..32 * c.bits * (i + 1)] == a[32 * c.bits * i..32 * c.bits * (i + 1)];
    assert (a + more)[|a|..] == more;
  }

  /** v is read from the front of the buffer. */
  ghost predicate ReadFrom(c: Coding, buf: seq<uint8>, v: Vec)
  {
    forall i :: 0 <= i < |v| ==> v[i] == Decode(c, Part(c, buf, i))
  }

  lemma VecReadFrom(c: Coding, buf: seq<uint8>, v: Vec)
    requires VecLength(c, |v|) <= |buf| && ReadFrom(c, buf, v)
    ensures 0 <= 32 * c.bits * |v| == VecLength(c, |v|) && DecodeVec(c, buf[..VecLength(c, |v|)], |v|) == v
  {
    hide *;
    VecLengthIs(c, |v|);
    var t := DecodeVec(c, buf[..VecLength(c, |v|)], |v|);
    forall i | 0 <= i < |v|
      ensures t[i] == v[i]
    {
      ReadPart(c, buf, v, i);
    }
    assert t == v;
  }

  lemma ReadPart(c: Coding, buf: seq<uint8>, v: Vec, i: nat)
    requires i < |v| && 32 * c.bits * |v| == VecLength(c, |v|) <= |buf| && ReadFrom(c, buf, v)
    ensures DecodeVec(c, buf[..VecLength(c, |v|)], |v|)[i] == v[i]
  {
    hide *;
    var front := buf[..VecLength(c, |v|)];
    DecodedPart(c, front, |v|, i);
    PartBounds(c.bits, |v|, i);
    PartIs(c, buf, v, i);
    assert front[32 * c.bits * i..32 * c.bits * (i + 1)] == buf[32 * c.bits * i..32 * c.bits * (i + 1)];
  }

  lemma PartIs(c: Coding, buf: seq<uint8>, v: Vec, i: nat)
    requires i < |v| && ReadFrom(c, buf, v) && 0 <= 32 * c.bits * i <= 32 * c.bits * (i + 1) <= |buf|
    ensures v[i] == Decode(c, buf[32 * c.bits * i..32 * c.bits * (i + 1)])
  {
    hide Decode;
    assert v[i] == Decode(c, Part(c, buf, i));
  }

  lemma EncodeLast(c: Coding, v: Vec)
    requires |v| > 0
    ensures EncodeVec(c, v) == EncodeVec(c, v[..|v| - 1]) + Encode(c, v[|v| - 1])
  {}

  // ---------- Writing into buffers ----------

  /** The buffer after bytes were written at an offset. */
  function Written(was: seq<uint8>, o: nat, bytes: seq<uint8>): (r: seq<uint8>)
    requires o + |bytes| <= |was|
    ensures |r| == |was|
  {
    was[..o] + bytes + was[o + |bytes|..]
  }

  lemma WrittenTwice(was: seq<uint8>, o: nat, a: seq<uint8>, b: seq<uint8>)
    requires o + |a| + |b| <= |was|
    ensures Written(Written(was, o, a), o + |a|, b) == Written(was, o, a + b)
  {}

  /** How many groups a polynomial has. */
  lemma Groups(d: nat, c: nat, n: nat, m: nat)
    requires c * n == 256 && d * n == 8 * m
    ensures At(c, n) == 256 && At(c, m) == 32 * d
  {
    assert 8 * (c * m) == c * (8 * m) == c * (d * n) == d * (c * n);
  }

  /** One more polynomial written behind the first i of a vector. */
  lemma VecWritten(was: seq<uint8>, o: nat, c: Coding, v: Vec, i: nat)
    requires i < |v| && AllFit(c, v) && o + VecLength(c, |v|) <= |was|
    ensures Fits(c, v[i]) && |Encode(c, v[i])| == 32 * c.bits
    ensures VecLength(c, i + 1) == VecLength(c, i) + 32 * c.bits <= VecLength(c, |v|)
    ensures |EncodeVec(c, v[..i])| == VecLength(c, i) && |EncodeVec(c, v[..i + 1])| == VecLength(c, i + 1)
    ensures Written(Written(was, o, EncodeVec(c, v[..i])), o + VecLength(c, i), Encode(c, v[i]))
         == Written(was, o, EncodeVec(c, v[..i + 1]))
  {
    hide Encode, Written;
    EncodedVecLength(c, v[..i]);
    EncodedLength(c, v[i]);
    VecLengthMono(c, i + 1, |v|);
    assert v[..i + 1][..i] == v[..i];
    WrittenTwice(was, o, EncodeVec(c, v[..i]), Encode(c, v[i]));
  }

  lemma {:induction false} VecLengthMono(c: Coding, m: nat, n: nat)
    requires m <= n
    ensures VecLength(c, m) <= VecLength(c, n)
  {
    if m < n {
      VecLengthMono(c, m, n - 1);
    }
  }

  lemma NoPolys(c: Coding, was: seq<uint8>, o: nat)
    requires o <= |was|
    ensures EncodeVec(c, []) == [] && VecLength(c, 0) == 0 && DecodeVec(c, [], 0) == []
    ensures Written(was, o, EncodeVec(c, [])) == was
  {}

  lemma VecLengthStep(c: Coding, i: nat)
    ensures VecLength(c, i + 1) == VecLength(c, i) + 32 * c.bits
  {}

  lemma DecodeVecStep(c: Coding, buf: seq<uint8>, i: nat, n: nat)
    requires i < n && |buf| == VecLength(c, n)
    ensures VecLength(c, i) + 32 * c.bits == VecLength(c, i + 1) <= VecLength(c, n)
    ensures DecodeVec(c, buf[..VecLength(c, i + 1)], i + 1)
         == DecodeVec(c, buf[..VecLength(c, i)], i)
          + [Decode(c, buf[VecLength(c, i)..VecLength(c, i) + 32 * c.bits])]
  {
    hide *;
    VecLengthMono(c, i + 1, n);
    VecLengthStep(c, i);
    var at := VecLength(c, i);
    var piece := buf[at..at + 32 * c.bits];
    DecodeAppended(c, buf[..at], piece, i);
    assert buf[..at] + piece == buf[..VecLength(c, i + 1)];
  }

  lemma WholeWritten(was: seq<uint8>, bytes: seq<uint8>)
    requires |was| == |bytes|
    ensures Written(was, 0, bytes) == bytes
  {}

  lemma PrefixWritten(was: seq<uint8>, bytes: seq<uint8>)
    requires |bytes| <= |was|
    ensures Written(was, 0, bytes)[..|bytes|] == bytes
  {}

  method StoreAt(buf: array<uint8>, o: nat, bytes: seq<uint8>)
    requires o + |bytes| <= buf.Length
    modifies buf
    ensures buf[..] == Written(old(buf[..]), o, bytes)
  {
    Store(buf, o, bytes);
  }
}
