/** Byte encodings of ML-KEM: compressed polynomials, 12-bit key polynomials and messages. */
module KemPacking {
  import opened MachineInts
  import opened Vectors
  import opened BitPacking
  import opened BitStrings
  import opened PolyCoding
  import opened GroupCodecs
  import opened KemConstants
  import opened KemReduce
  import opened KemPoly
  import opened KemCompress

  /** The widths with a packing loop. */
  predicate Packed(d: int)
  {
    d == 1 || d == 4 || d == 5 || d == 10 || d == 11 || d == 12
  }

  /** d-bit fields into bytes. */
  method PackFields(buf: array<uint8>, o: nat, ts: seq<nat>, d: nat)
    requires Packed(d) && Fits(Plain(d), ts) && o + 32 * d <= buf.Length
    modifies buf
    ensures |Encode(Plain(d), ts)| == 32 * d
    ensures buf[..] == Written(old(buf[..]), o, Encode(Plain(d), ts))
  {
    hide *;
    PackedCases(d);
    PlainFields(d, ts);
    if d == 1 {
      Pack1IsPacking();
      Groups(1, 32, 8, 1);
      PackGroups(buf, o, ts, 32, 1, 8, 1, Pack1Bytes);
    } else if d == 4 {
      Pack4IsPacking();
      Groups(4, 128, 2, 1);
      PackGroups(buf, o, ts, 128, 4, 2, 1, Pack4Bytes);
    } else if d == 5 {
      Pack5IsPacking();
      Groups(5, 32, 8, 5);
      PackGroups(buf, o, ts, 32, 5, 8, 5, Pack5Bytes);
    } else if d == 10 {
      Pack10IsPacking();
      Groups(10, 64, 4, 5);
      PackGroups(buf, o, ts, 64, 10, 4, 5, Pack10Bytes);
    } else if d == 11 {
      Pack11IsPacking();
      Groups(11, 32, 8, 11);
      PackGroups(buf, o, ts, 32, 11, 8, 11, Pack11Bytes);
    } else {
      Pack12IsPacking();
      Groups(12, 128, 2, 3);
      PackGroups(buf, o, ts, 128, 12, 2, 3, Pack12Bytes);
    }
  }

  /** Bytes into d-bit fields. */
  lemma PackedCases(d: int)
    requires Packed(d)
    ensures d == 1 || d == 4 || d == 5 || d == 10 || d == 11 || d == 12
  {}

  lemma PlainFields(d: nat, ts: seq<nat>)
    requires Fits(Plain(d), ts)
    ensures |ts| == 256 && Digits(ts, Pow(2, d)) && |Encode(Plain(d), ts)| == 32 * d
    ensures Encode(Plain(d), ts) == Pack(ts, d)
    ensures forall was: seq<uint8>, o: nat :: o + 32 * d <= |was| ==>
              was[..o] + Pack(ts, d) + was[o + 32 * d..] == Written(was, o, Encode(Plain(d), ts))
  {
    EncodedLength(Plain(d), ts);
    assert FlipAll(Plain(d), ts) == ts;
    hide Pack, Pow;
  }

  method UnpackFields(buf: seq<uint8>, d: nat) returns (p: array<int32>)
    requires Packed(d) && |buf| == 32 * d
    ensures fresh(p) && p.Length == 256 && p[..] == Decode(Plain(d), buf)
    ensures forall i :: 0 <= i < 256 ==> 0 <= p[i] < Pow(2, d) <= 0x1000
  {
    Powers();
    hide At, Unpack, Pow, ReadsGroups;
    p := new int32[256];
    if d == 1 {
      Unpack1IsReading();
      Groups(1, 32, 8, 1);
      UnpackGroups(p, buf, 32, 1, 8, 1, Unpack1Coeffs);
    } else if d == 4 {
      Unpack4IsReading();
      Groups(4, 128, 2, 1);
      UnpackGroups(p, buf, 128, 4, 2, 1, Unpack4Coeffs);
    } else if d == 5 {
      Unpack5IsReading();
      Groups(5, 32, 8, 5);
      UnpackGroups(p, buf, 32, 5, 8, 5, Unpack5Coeffs);
    } else if d == 10 {
      Unpack10IsReading();
      Groups(10, 64, 4, 5);
      UnpackGroups(p, buf, 64, 10, 4, 5, Unpack10Coeffs);
    } else if d == 11 {
      Unpack11IsReading();
      Groups(11, 32, 8, 11);
      UnpackGroups(p, buf, 32, 11, 8, 11, Unpack11Coeffs);
    } else {
      Unpack12IsReading();
      Groups(12, 128, 2, 3);
      UnpackGroups(p, buf, 128, 12, 2, 3, Unpack12Coeffs);
    }
    assert FlipAll(Plain(d), Unpack(buf, d, 256)) == Unpack(buf, d, 256);
  }

  // ---------- Compressed polynomials ----------

  ghost predicate Poly16(p: seq<int>)
  {
    |p| == 256 && InRange(p, -0x8000, 0x8000)
  }

  function CompressAll(p: seq<int>, d: int): (r: seq<nat>)
    requires Poly16(p)
    ensures |r| == 256
  {
    seq(256, i requires 0 <= i < 256 => assert InRange(p, -0x8000, 0x8000); CompressCoeff(p[i], d))
  }

  ghost predicate FieldsOf(ts: seq<int>, d: int)
    requires d >= 0
  {
    |ts| == 256 && Digits(ts, Pow(2, d))
  }

  lemma FieldsFit(ts: seq<int>, d: nat)
    requires Width(d)
    ensures Pow(2, d) <= 0x1000 && (FieldsOf(ts, d) ==> forall i :: 0 <= i < 256 ==> 0 <= ts[i] < 0x1_0000)
  {
    Powers();
  }

  /** The coefficient a field of d bits stands for. */
  function Expand(t: int, d: int): int
  {
    if 0 <= t < 0x1_0000 then DecompressCoeff(t, d) else 0
  }

  function DecompressAll(ts: seq<int>, d: int): (r: seq<int>)
    ensures |r| == |ts|
  {
    seq(|ts|, i requires 0 <= i < |ts| => Expand(ts[i], d))
  }

  lemma CompressedFits(p: seq<int>, d: nat)
    requires Poly16(p) && Width(d)
    ensures Fits(Plain(d), CompressAll(p, d))
  {
    hide CompressCoeff, Pow;
    var r := CompressAll(p, d);
    forall i | 0 <= i < 256
      ensures 0 <= FlipAll(Plain(d), r)[i] < Pow(2, d)
    {
      assert -0x8000 <= p[i] < 0x8000;
      assert r[i] == CompressCoeff(p[i], d);
    }
  }

  lemma DecompressedFits(ts: seq<int>, d: nat)
    requires Width(d) && FieldsOf(ts, d)
    ensures Poly16(DecompressAll(ts, d)) && InRange(DecompressAll(ts, d), 0, Q)
    ensures forall i :: 0 <= i < 256 ==> 0 <= ts[i] < 0x1_0000
  {
    FieldsFit(ts, d);
    hide DecompressCoeff, Pow, CompressCoeff;
    forall i | 0 <= i < 256
      ensures 0 <= DecompressAll(ts, d)[i] < Q
    {
      CompressDecompress(ts[i], d);
    }
  }

  /** Compressing a decompressed polynomial gives the fields back. */
  lemma CompressDecompressAll(ts: seq<int>, d: nat)
    requires Width(d) && FieldsOf(ts, d)
    ensures Poly16(DecompressAll(ts, d)) && CompressAll(DecompressAll(ts, d), d) == ts
  {
    DecompressedFits(ts, d);
    hide DecompressCoeff, Pow, CompressCoeff;
    var p := DecompressAll(ts, d);
    forall i | 0 <= i < 256
      ensures CompressAll(p, d)[i] == ts[i]
    {
      CompressDecompress(ts[i], d);
      assert p[i] == DecompressCoeff(ts[i], d);
    }
  }

  /** Every buffer is the compression of its own decompression, byte for byte. */
  lemma CompressionRoundTrip(buf: seq<uint8>, d: nat)
    requires Width(d) && |buf| == 32 * d
    ensures Poly16(DecompressAll(Decode(Plain(d), buf), d))
    ensures Encode(Plain(d), CompressAll(DecompressAll(Decode(Plain(d), buf), d), d)) == buf
  {
    EncodeDecode(Plain(d), buf);
    var ts := Decode(Plain(d), buf);
    assert FlipAll(Plain(d), ts) == ts;
    hide Encode, Decode, Pow, CompressAll, DecompressAll;
    CompressDecompressAll(ts, d);
  }

  /** Each coefficient moves by at most round(Q / 2^(d+1)) when it is compressed and decompressed. */
  lemma CompressionErrorAll(p: seq<int>, d: nat, i: nat)
    requires Poly16(p) && Width(d) && i < 256
    ensures -MaxError(d) <= Centred(DecompressAll(CompressAll(p, d), d)[i] - p[i]) <= MaxError(d)
  {
    hide CompressCoeff, DecompressCoeff, Centred;
    assert -0x8000 <= p[i] < 0x8000;
    CompressionError(p[i], d);
  }

  /** A width without a loop writes nothing. */
  method PolyCompress(buf: array<uint8>, o: nat, p: seq<int>, d: int)
    requires Poly16(p) && (d == 4 || d == 5 || d == 10 || d == 11 ==> o + 32 * d <= buf.Length)
    modifies buf
    ensures d == 4 || d == 5 || d == 10 || d == 11 ==>
              |Encode(Plain(d), CompressAll(p, d))| == 32 * d
              && buf[..] == Written(old(buf[..]), o, Encode(Plain(d), CompressAll(p, d)))
    ensures d != 4 && d != 5 && d != 10 && d != 11 ==> buf[..] == old(buf[..])
  {
    if d != 4 && d != 5 && d != 10 && d != 11 {
      return;
    }
    hide CompressAll, Encode, Fits, Written;
    var t := CompressAll(p, d);
    CompressedFits(p, d);
    PackFields(buf, o, t, d);
  }

  /** A width without a loop leaves the polynomial alone. */
  method PolyDecompress(p: array<int16>, buf: seq<uint8>, d: int)
    requires p.Length == 256 && (d == 4 || d == 5 || d == 10 || d == 11 ==> |buf| == 32 * d)
    modifies p
    ensures d == 4 || d == 5 || d == 10 || d == 11 ==>
              p[..] == DecompressAll(Decode(Plain(d), buf), d) && InRange(p[..], 0, Q)
    ensures d != 4 && d != 5 && d != 10 && d != 11 ==> p[..] == old(p[..])
  {
    if d != 4 && d != 5 && d != 10 && d != 11 {
      return;
    }
    hide DecompressCoeff, Decode, Pow;
    var fields := UnpackFields(buf, d);
    ghost var ts: seq<int> := fields[..];
    assert FieldsOf(ts, d);
    DecompressedFits(ts, d);
    var i := 0;
    while i < 256
      invariant 0 <= i <= 256 && fields[..] == ts
      invariant forall j :: 0 <= j < i ==> p[j] == Expand(ts[j], d)
    {
      assert fields[i] == ts[i] && 0 <= ts[i] < 0x1_0000;
      p[i] := DecompressCoeff(fields[i], d);
      i := i + 1;
    }
    assert p[..] == DecompressAll(ts, d);
  }

  // ---------- Messages ----------

  /** The polynomial with coefficients 0 and 1665 that carries a message. */
  function MessagePoly(msg: seq<uint8>): (p: seq<int>)
    ensures |p| == 256
  {
    DecompressAll(Decode(Plain(1), msg), 1)
  }

  /** Coefficient i is 1665 times bit i of the message, the lowest bit of a byte first. */
  lemma MessageMeans(msg: seq<uint8>, i: nat)
    requires |msg| == 32 && i < 256
    ensures MessagePoly(msg)[i] == 1665 * NumberBit(msg[i / 8], i % 8)
  {
    hide *;
    DecodedBit(Plain(1), msg, i, 0);
    var t := Decode(Plain(1), msg)[i];
    OneBit(t, NumberBit(msg[i / 8], i % 8));
    MessageAt(msg, i);
    DecompressRounds(t, 1, 2);
  }

  lemma OneBit(t: nat, b: nat)
    requires t < Pow(2, 1) && NumberBit(t, 0) == b
    ensures t == b && t < 2 == Pow(2, 1) && Width(1)
  {}

  lemma MessageAt(msg: seq<uint8>, i: nat)
    requires i < 256 && 0 <= Decode(Plain(1), msg)[i] < 0x1_0000
    ensures MessagePoly(msg)[i] == DecompressCoeff(Decode(Plain(1), msg)[i], 1)
  {
    hide Decode, DecompressCoeff;
    var ts := Decode(Plain(1), msg);
    assert DecompressAll(ts, 1)[i] == Expand(ts[i], 1);
  }

  method PolyFromMsg(msg: seq<uint8>) returns (p: seq<int>)
    requires |msg| == 32
    ensures p == MessagePoly(msg) && InRange(p, 0, Q)
  {
    hide DecompressCoeff, Decode, Pow;
    var fields := UnpackFields(msg, 1);
    ghost var ts: seq<int> := fields[..];
    assert FieldsOf(ts, 1);
    DecompressedFits(ts, 1);
    var a := new int16[256];
    var i := 0;
    while i < 256
      invariant 0 <= i <= 256 && fields[..] == ts
      invariant forall j :: 0 <= j < i ==> a[j] == Expand(ts[j], 1)
    {
      assert fields[i] == ts[i] && 0 <= ts[i] < 0x1_0000;
      a[i] := DecompressCoeff(fields[i], 1);
      i := i + 1;
    }
    p := a[..];
  }

  method PolyToMsg(p: seq<int>) returns (msg: seq<uint8>)
    requires Poly16(p)
    ensures msg == Encode(Plain(1), CompressAll(p, 1)) && |msg| == 32
  {
    hide CompressAll, Encode, Fits;
    var buf := new uint8[32];
    CompressedFits(p, 1);
    PackFields(buf, 0, CompressAll(p, 1), 1);
    msg := buf[..];
  }

  // ---------- Vectors ----------

  /** Key polynomials, 12 bits a coefficient. */
  method PolyvecToBytes(buf: array<uint8>, v: Vec)
    requires AllFit(Plain(12), v) && VecLength(Plain(12), |v|) <= buf.Length
    modifies buf
    ensures |EncodeVec(Plain(12), v)| == VecLength(Plain(12), |v|)
    ensures buf[..] == Written(old(buf[..]), 0, EncodeVec(Plain(12), v))
  {
    hide *;
    ghost var was := buf[..];
    NoPolys(Plain(12), was, 0);
    assert v[..0] == [];
    var i, at := 0, 0;
    while i < |v|
      invariant 0 <= i <= |v| && at == VecLength(Plain(12), i)
      invariant |EncodeVec(Plain(12), v[..i])| == VecLength(Plain(12), i) && at <= |was|
      invariant buf[..] == Written(was, 0, EncodeVec(Plain(12), v[..i]))
    {
      VecWritten(was, 0, Plain(12), v, i);
      FieldsAreNatural(v[i], 12);
      PackFields(buf, at, v[i], 12);
      at := at + 384;
      i := i + 1;
    }
    assert v[..|v|] == v;
  }

  lemma FieldsAreNatural(p: seq<int>, d: nat)
    requires Fits(Plain(d), p)
    ensures |p| == 256 && (forall i :: 0 <= i < 256 ==> 0 <= p[i]) && Packed(12)
  {
    var f := FlipAll(Plain(d), p);
    assert forall i :: 0 <= i < 256 ==> f[i] == p[i] && 0 <= f[i] < Pow(2, d);
  }

  /** Fields of 12 bits. */
  ghost predicate Twelve(v: Vec)
  {
    forall i :: 0 <= i < |v| ==> |v[i]| == 256 && InRange(v[i], 0, 4096)
  }

  method PolyvecFromBytes(buf: seq<uint8>, k: nat) returns (v: Vec)
    requires |buf| == VecLength(Plain(12), k)
    ensures v == DecodeVec(Plain(12), buf, k) && Twelve(v)
  {
    hide *;
    v := [];
    NoPolys(Plain(12), buf, 0);
    assert buf[..0] == [];
    NoneTwelve();
    var i, at := 0, 0;
    while i < k
      invariant 0 <= i <= k && at == VecLength(Plain(12), i) <= |buf| && |v| == i
      invariant v == DecodeVec(Plain(12), buf[..at], i) && Twelve(v)
    {
      DecodeVecStep(Plain(12), buf, i, k);
      var p := UnpackFields(buf[at..at + 384], 12);
      OneMoreTwelve(v, p[..]);
      v := v + [p[..]];
      at := at + 384;
      i := i + 1;
    }
    assert buf[..|buf|] == buf;
  }

  lemma NoneTwelve()
    ensures Twelve([]) && Packed(12)
  {}

  lemma OneMoreTwelve(v: Vec, p: seq<int>)
    requires Twelve(v) && |p| == 256 && forall i :: 0 <= i < 256 ==> 0 <= p[i] < Pow(2, 12) <= 0x1000
    ensures Twelve(v + [p])
  {}

  /** All coefficients are canonical. */
  ghost predicate AllCanonical(v: Vec)
  {
    forall i :: 0 <= i < |v| ==> InRange(v[i], 0, Q)
  }

  /** The type check of an encoded vector; a failing one leaves the output zero. */
  method PolyvecFromBytesCheck(buf: seq<uint8>, k: nat) returns (r: int, v: Vec)
    requires 0 < k <= 4 && |buf| == VecLength(Plain(12), k)
    ensures r == 0 || r == -1
    ensures r == 0 <==> AllCanonical(DecodeVec(Plain(12), buf, k))
    ensures r == 0 ==> v == DecodeVec(Plain(12), buf, k)
    ensures r == -1 ==> v == seq(k, _ => seq(256, _ => 0))
  {
    hide DecodeVec, VecLength;
    v := PolyvecFromBytes(buf, k);
    var bad: uint32 := 0;
    var i := 0;
    while i < k
      invariant 0 <= i <= k && (bad == 0 || bad == 1)
      invariant bad == 0 <==> forall n :: 0 <= n < i ==> InRange(v[n], 0, Q)
    {
      var j := 0;
      ghost var before := bad;
      assert |v[i]| == 256 && InRange(v[i], 0, 4096);
      while j < 256
        invariant 0 <= j <= 256 && (bad == 0 || bad == 1)
        invariant bad == 0 <==> before == 0 && forall n :: 0 <= n < j ==> v[i][n] < Q
      {
        assert 0 <= v[i][j] < 4096;
        var c: uint32 := v[i][j];
        TopBit(c);
        bad := Or(bad, (Q - 1 - c) % 0x1_0000_0000 / 0x8000_0000);
        j := j + 1;
      }
      i := i + 1;
    }
    if bad != 0 {
      return -1, seq(k, _ => seq(256, _ => 0));
    }
    r := 0;
  }

  lemma TopBit(c: int)
    requires 0 <= c < 4096
    ensures (Q - 1 - c) % 0x1_0000_0000 / 0x8000_0000 == if c < Q then 0 else 1
    ensures Or(0, 0) == 0 && Or(0, 1) == 1 && Or(1, 0) == 1 && Or(1, 1) == 1
  {}

  ghost function ResidueVec(v: Vec): (r: Vec)
    ensures |r| == |v|
  {
    seq(|v|, i requires 0 <= i < |v| => Residues(v[i]))
  }

  ghost function Residues(p: seq<int>): (r: seq<int>)
    ensures |r| == |p|
  {
    seq(|p|, j requires 0 <= j < |p| => p[j] % Q)
  }

  lemma ResiduesFit(v: Vec)
    requires forall i :: 0 <= i < |v| ==> |v[i]| == 256
    ensures AllFit(Plain(12), ResidueVec(v))
  {
    Powers();
    hide Pow;
  }

  /** The type check of section 7.2 of FIPS 203: it passes exactly if re-encoding the residues gives the bytes back. */
  lemma CheckMeansReencodes(buf: seq<uint8>, k: nat)
    requires |buf| == VecLength(Plain(12), k)
    ensures AllCanonical(DecodeVec(Plain(12), buf, k))
       <==> EncodeVec(Plain(12), ResidueVec(DecodeVec(Plain(12), buf, k))) == buf
  {
    hide *;
    var v := DecodeVec(Plain(12), buf, k);
    EncodeDecodeVec(Plain(12), buf, k);
    FitsSized(v);
    ResiduesFit(v);
    DecodeEncodeVec(Plain(12), ResidueVec(v));
    CanonicalMeans(v);
  }

  lemma CanonicalMeans(v: Vec)
    ensures AllCanonical(v) <==> ResidueVec(v) == v
  {
    hide Residues, InRange;
    if AllCanonical(v) {
      forall i | 0 <= i < |v|
        ensures Residues(v[i]) == v[i]
      {
        CanonicalIsResidue(v[i]);
      }
    }
    if ResidueVec(v) == v {
      forall i | 0 <= i < |v|
        ensures InRange(v[i], 0, Q)
      {
        ResidueRange(v[i]);
        assert ResidueVec(v)[i] == Residues(v[i]);
      }
    }
  }

  lemma FitsSized(v: Vec)
    requires AllFit(Plain(12), v)
    ensures forall i :: 0 <= i < |v| ==> |v[i]| == 256
  {
    forall i | 0 <= i < |v|
      ensures |v[i]| == 256
    {
      assert Fits(Plain(12), v[i]);
    }
  }

  lemma CanonicalIsResidue(p: seq<int>)
    requires InRange(p, 0, Q)
    ensures Residues(p) == p
  {
    forall j | 0 <= j < |p|
      ensures p[j] % Q == p[j]
    {
      SmallDigit(p[j], Q);
    }
  }

  lemma ResidueRange(p: seq<int>)
    ensures InRange(Residues(p), 0, Q)
  {}
}
