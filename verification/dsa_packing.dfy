/** Byte encodings of ML-DSA polynomials, public keys, secret keys and of the commitment w1. */
module DsaPacking {
  import opened MachineInts
  import opened Vectors
  import opened BitPacking
  import opened PolyCoding
  import opened GroupCodecs

  function T1Coding(): Coding
  {
    Plain(10)
  }

  function T0Coding(): Coding
  {
    Below(13, 0x1000)
  }

  function EtaCoding(eta: int): Coding
  {
    Below(if eta == 2 then 3 else 4, eta)
  }

  function ZCoding(gamma1: int): Coding
  {
    Below(if gamma1 == 0x2_0000 then 18 else 20, gamma1)
  }

  // ---------- Polynomials ----------

  method PackT1(buf: array<uint8>, o: nat, p: seq<int>)
    requires Fits(T1Coding(), p) && o + 320 <= buf.Length
    modifies buf
    ensures |Encode(T1Coding(), p)| == 320
    ensures buf[..] == Written(old(buf[..]), o, Encode(T1Coding(), p))
  {
    Powers();
    Pack10IsPacking();
    Groups(10, 64, 4, 5);
    assert FlipAll(T1Coding(), p) == p;
    hide At, Pack, Pow, PacksGroups;
    PackGroups(buf, o, FlipAll(T1Coding(), p), 64, 10, 4, 5, Pack10Bytes);
  }

  method UnpackT1(p: array<int32>, buf: seq<uint8>)
    requires p.Length == 256 && |buf| == 320
    modifies p
    ensures p[..] == Decode(T1Coding(), buf)
  {
    Powers();
    Unpack10IsReading();
    Groups(10, 64, 4, 5);
    hide At, Unpack, Pow, ReadsGroups;
    UnpackGroups(p, buf, 64, 10, 4, 5, Unpack10Coeffs);
    assert FlipAll(T1Coding(), Unpack(buf, 10, 256)) == Unpack(buf, 10, 256);
  }

  /** Small secrets; an eta other than 2 and 4 writes nothing. */
  method PackEta(buf: array<uint8>, o: nat, p: seq<int>, eta: int)
    requires eta == 2 || eta == 4 ==> Fits(EtaCoding(eta), p) && o + 32 * EtaCoding(eta).bits <= buf.Length
    modifies buf
    ensures eta == 2 || eta == 4 ==>
              |Encode(EtaCoding(eta), p)| == 32 * EtaCoding(eta).bits
              && buf[..] == Written(old(buf[..]), o, Encode(EtaCoding(eta), p))
    ensures eta != 2 && eta != 4 ==> buf[..] == old(buf[..])
  {
    if eta != 2 && eta != 4 {
      return;
    }
    var t := FlipAll(EtaCoding(eta), p);
    EncodedLength(EtaCoding(eta), p);
    Powers();
    Pack3IsPacking();
    Pack4IsPacking();
    Groups(3, 32, 8, 3);
    Groups(4, 128, 2, 1);
    hide At, Pack, Pow, PacksGroups;
    if eta == 2 {
      PackGroups(buf, o, t, 32, 3, 8, 3, Pack3Bytes);
    } else {
      PackGroups(buf, o, t, 128, 4, 2, 1, Pack4Bytes);
    }
  }

  /** Replace the stored fields of an array by the coefficients they stand for. */
  method FlipInPlace(p: array<int32>, c: Coding, ghost fields: seq<int>)
    requires p.Length == 256 && c.Below? && 0 <= c.top <= 0x10_0000 && p[..] == fields && Digits(fields, 0x10_0000)
    modifies p
    ensures p[..] == FlipAll(c, fields)
  {
    var i := 0;
    while i < 256
      invariant 0 <= i <= 256
      invariant forall j :: 0 <= j < i ==> p[j] == Flip(c, fields[j])
      invariant forall j :: i <= j < 256 ==> p[j] == fields[j]
    {
      assert 0 <= fields[i] < 0x10_0000;
      p[i] := c.top - p[i];
      i := i + 1;
    }
  }

  method UnpackEta(p: array<int32>, buf: seq<uint8>, eta: int)
    requires p.Length == 256 && (eta == 2 || eta == 4 ==> |buf| == 32 * EtaCoding(eta).bits)
    modifies p
    ensures eta == 2 || eta == 4 ==> p[..] == Decode(EtaCoding(eta), buf)
    ensures eta != 2 && eta != 4 ==> p[..] == old(p[..])
  {
    if eta != 2 && eta != 4 {
      return;
    }
    Powers();
    Unpack3IsReading();
    Unpack4IsReading();
    Groups(3, 32, 8, 3);
    Groups(4, 128, 2, 1);
    hide At, Unpack, Pow, ReadsGroups;
    if eta == 2 {
      UnpackGroups(p, buf, 32, 3, 8, 3, Unpack3Coeffs);
    } else {
      UnpackGroups(p, buf, 128, 4, 2, 1, Unpack4Coeffs);
    }
    FlipInPlace(p, EtaCoding(eta), p[..]);
  }

  method PackZ(buf: array<uint8>, o: nat, p: seq<int>, gamma1: int)
    requires Fits(ZCoding(gamma1), p) && o + 32 * ZCoding(gamma1).bits <= buf.Length
    modifies buf
    ensures |Encode(ZCoding(gamma1), p)| == 32 * ZCoding(gamma1).bits
    ensures buf[..] == Written(old(buf[..]), o, Encode(ZCoding(gamma1), p))
  {
    var t := FlipAll(ZCoding(gamma1), p);
    EncodedLength(ZCoding(gamma1), p);
    Powers();
    Pack18IsPacking();
    Pack20IsPacking();
    Groups(18, 64, 4, 9);
    Groups(20, 128, 2, 5);
    hide At, Pack, Pow, PacksGroups;
    if gamma1 == 0x2_0000 {
      PackGroups(buf, o, t, 64, 18, 4, 9, Pack18Bytes);
    } else {
      PackGroups(buf, o, t, 128, 20, 2, 5, Pack20Bytes);
    }
  }

  method UnpackZ(p: array<int32>, buf: seq<uint8>, gamma1: int)
    requires p.Length == 256 && |buf| == 32 * ZCoding(gamma1).bits && 0 <= gamma1 <= 0x10_0000
    modifies p
    ensures p[..] == Decode(ZCoding(gamma1), buf)
  {
    Powers();
    Unpack18IsReading();
    Unpack20IsReading();
    Groups(18, 64, 4, 9);
    Groups(20, 128, 2, 5);
    hide At, Unpack, Pow, ReadsGroups;
    if gamma1 == 0x2_0000 {
      UnpackGroups(p, buf, 64, 18, 4, 9, Unpack18Coeffs);
    } else {
      UnpackGroups(p, buf, 128, 20, 2, 5, Unpack20Coeffs);
    }
    FlipInPlace(p, ZCoding(gamma1), p[..]);
  }

  method PackT0(buf: array<uint8>, o: nat, p: seq<int>)
    requires Fits(T0Coding(), p) && o + 416 <= buf.Length
    modifies buf
    ensures |Encode(T0Coding(), p)| == 416
    ensures buf[..] == Written(old(buf[..]), o, Encode(T0Coding(), p))
  {
    var t := FlipAll(T0Coding(), p);
    EncodedLength(T0Coding(), p);
    Powers();
    Pack13IsPacking();
    Groups(13, 32, 8, 13);
    hide At, Pack, Pow, PacksGroups;
    PackGroups(buf, o, t, 32, 13, 8, 13, Pack13Bytes);
  }

  method UnpackT0(p: array<int32>, buf: seq<uint8>)
    requires p.Length == 256 && |buf| == 416
    modifies p
    ensures p[..] == Decode(T0Coding(), buf)
  {
    Powers();
    Unpack13IsReading();
    Groups(13, 32, 8, 13);
    hide At, Unpack, Pow, ReadsGroups;
    UnpackGroups(p, buf, 32, 13, 8, 13, Unpack13Coeffs);
    FlipInPlace(p, T0Coding(), p[..]);
  }

  function W1Coding(gamma2: int): Coding
  {
    Plain(if gamma2 == 95232 then 6 else 4)
  }

  /** The bytes of a high-bits polynomial that are hashed into the challenge. */
  method W1Bytes(p: seq<int>, gamma2: int) returns (bytes: seq<uint8>)
    requires Fits(W1Coding(gamma2), p)
    ensures bytes == Encode(W1Coding(gamma2), p)
  {
    var buf := new uint8[256];
    EncodedLength(W1Coding(gamma2), p);
    assert FlipAll(W1Coding(gamma2), p) == p;
    Powers();
    Pack6IsPacking();
    Pack4IsPacking();
    Groups(6, 64, 4, 3);
    Groups(4, 128, 2, 1);
    hide At, Pack, Pow, PacksGroups;
    if gamma2 == 95232 {
      PackGroups(buf, 0, FlipAll(W1Coding(gamma2), p), 64, 6, 4, 3, Pack6Bytes);
      bytes := buf[..192];
    } else {
      PackGroups(buf, 0, FlipAll(W1Coding(gamma2), p), 128, 4, 2, 1, Pack4Bytes);
      bytes := buf[..128];
    }
  }

  // ---------- Vectors ----------

  /** The codings of key and signature parts. */
  predicate Known(c: Coding)
  {
    || c == T1Coding() || c == T0Coding() || c == EtaCoding(2) || c == EtaCoding(4)
    || c == ZCoding(0x2_0000) || c == ZCoding(0x8_0000)
  }

  method PackPoly(buf: array<uint8>, o: nat, c: Coding, p: seq<int>)
    requires Known(c) && Fits(c, p) && o + 32 * c.bits <= buf.Length
    modifies buf
    ensures |Encode(c, p)| == 32 * c.bits
    ensures buf[..] == Written(old(buf[..]), o, Encode(c, p))
  {
    hide Fits, Encode;
    if c == T1Coding() {
      PackT1(buf, o, p);
    } else if c == T0Coding() {
      PackT0(buf, o, p);
    } else if c == EtaCoding(2) || c == EtaCoding(4) {
      PackEta(buf, o, p, c.top);
    } else {
      PackZ(buf, o, p, c.top);
    }
  }

  method UnpackPoly(p: array<int32>, c: Coding, buf: seq<uint8>)
    requires Known(c) && p.Length == 256 && |buf| == 32 * c.bits
    modifies p
    ensures p[..] == Decode(c, buf)
  {
    hide Decode;
    if c == T1Coding() {
      UnpackT1(p, buf);
    } else if c == T0Coding() {
      UnpackT0(p, buf);
    } else if c == EtaCoding(2) || c == EtaCoding(4) {
      UnpackEta(p, buf, c.top);
    } else {
      UnpackZ(p, buf, c.top);
    }
  }

  method PackVec(buf: array<uint8>, o: nat, c: Coding, v: Vec)
    requires Known(c) && AllFit(c, v) && o + VecLength(c, |v|) <= buf.Length
    modifies buf
    ensures |EncodeVec(c, v)| == VecLength(c, |v|)
    ensures buf[..] == Written(old(buf[..]), o, EncodeVec(c, v))
  {
    hide *;
    ghost var was := buf[..];
    NoPolys(c, was, o);
    assert v[..0] == [];
    var i, at := 0, o;
    while i < |v|
      invariant 0 <= i <= |v| && at == o + VecLength(c, i)
      invariant |EncodeVec(c, v[..i])| == VecLength(c, i) && at <= |was|
      invariant buf[..] == Written(was, o, EncodeVec(c, v[..i]))
    {
      VecWritten(was, o, c, v, i);
      PackPoly(buf, at, c, v[i]);
      at := at + 32 * c.bits;
      i := i + 1;
    }
    assert v[..|v|] == v;
  }

  method UnpackVec(c: Coding, buf: seq<uint8>, n: nat) returns (v: Vec)
    requires Known(c) && |buf| == VecLength(c, n)
    ensures v == DecodeVec(c, buf, n)
  {
    hide *;
    var p := new int32[256];
    v := [];
    NoPolys(c, buf, 0);
    assert buf[..0] == [];
    var i, at := 0, 0;
    while i < n
      invariant 0 <= i <= n && at == VecLength(c, i) <= |buf|
      invariant v == DecodeVec(c, buf[..at], i)
    {
      DecodeVecStep(c, buf, i, n);
      UnpackPoly(p, c, buf[at..at + 32 * c.bits]);
      v := v + [p[..]];
      at := at + 32 * c.bits;
      i := i + 1;
    }
    assert buf[..|buf|] == buf;
  }

  // ---------- Public key ----------

  datatype PublicKey = PublicKey(rho: seq<uint8>, t1: Vec)

  function PublicKeyBytes(key: PublicKey): seq<uint8>
  {
    key.rho + EncodeVec(T1Coding(), key.t1)
  }

  function PublicKeyLength(k: nat): nat
  {
    32 + VecLength(T1Coding(), k)
  }

  function ReadPublicKey(pk: seq<uint8>, k: nat): PublicKey
    requires |pk| == PublicKeyLength(k)
  {
    PublicKey(pk[..32], DecodeVec(T1Coding(), pk[32..], k))
  }

  ghost predicate ValidPublicKey(key: PublicKey, k: nat)
  {
    |key.rho| == 32 && |key.t1| == k && AllFit(T1Coding(), key.t1)
  }

  lemma PublicKeyRoundTrip(key: PublicKey, k: nat)
    requires ValidPublicKey(key, k)
    ensures |PublicKeyBytes(key)| == PublicKeyLength(k) && ReadPublicKey(PublicKeyBytes(key), k) == key
  {
    DecodeEncodeVec(T1Coding(), key.t1);
    assert PublicKeyBytes(key)[..32] == key.rho && PublicKeyBytes(key)[32..] == EncodeVec(T1Coding(), key.t1);
  }

  /** Every string of the right length is the encoding of exactly one public key. */
  lemma PublicKeyCanonical(pk: seq<uint8>, k: nat)
    requires |pk| == PublicKeyLength(k)
    ensures ValidPublicKey(ReadPublicKey(pk, k), k) && PublicKeyBytes(ReadPublicKey(pk, k)) == pk
  {
    EncodeDecodeVec(T1Coding(), pk[32..], k);
  }

  method PackPk(pk: array<uint8>, rho: seq<uint8>, t1: Vec, k: nat)
    requires 0 < k <= 8 && ValidPublicKey(PublicKey(rho, t1), k) && PublicKeyLength(k) <= pk.Length
    modifies pk
    ensures |PublicKeyBytes(PublicKey(rho, t1))| == PublicKeyLength(k)
    ensures pk[..] == Written(old(pk[..]), 0, PublicKeyBytes(PublicKey(rho, t1)))
  {
    hide Encode, EncodeVec, DecodeVec, AllFit, VecLength;
    PublicKeyRoundTrip(PublicKey(rho, t1), k);
    Store(pk, 0, rho);
    PackVec(pk, 32, T1Coding(), t1);
    WrittenTwice(old(pk[..]), 0, rho, EncodeVec(T1Coding(), t1));
  }

  method UnpackPk(pk: seq<uint8>, k: nat) returns (rho: seq<uint8>, t1: Vec)
    requires 0 < k <= 8 && |pk| == PublicKeyLength(k)
    ensures PublicKey(rho, t1) == ReadPublicKey(pk, k)
  {
    rho := pk[..32];
    t1 := UnpackVec(T1Coding(), pk[32..], k);
  }

  // ---------- Secret key ----------

  datatype SecretKey = SecretKey(rho: seq<uint8>, tr: seq<uint8>, seed: seq<uint8>, s1: Vec, s2: Vec, t0: Vec)

  function SecretKeyBytes(key: SecretKey, eta: int): seq<uint8>
  {
    key.rho + key.seed + key.tr + EncodeVec(EtaCoding(eta), key.s1) + EncodeVec(EtaCoding(eta), key.s2)
    + EncodeVec(T0Coding(), key.t0)
  }

  function SecretKeyLength(k: nat, l: nat, eta: int): nat
  {
    128 + VecLength(EtaCoding(eta), l) + VecLength(EtaCoding(eta), k) + VecLength(T0Coding(), k)
  }

  function ReadSecretKey(sk: seq<uint8>, k: nat, l: nat, eta: int): SecretKey
    requires |sk| == SecretKeyLength(k, l, eta)
  {
    var a := 128 + VecLength(EtaCoding(eta), l);
    var b := a + VecLength(EtaCoding(eta), k);
    SecretKey(sk[..32], sk[64..128], sk[32..64], DecodeVec(EtaCoding(eta), sk[128..a], l),
              DecodeVec(EtaCoding(eta), sk[a..b], k), DecodeVec(T0Coding(), sk[b..], k))
  }

  ghost predicate ValidSecretKey(key: SecretKey, k: nat, l: nat, eta: int)
  {
    && |key.rho| == 32 && |key.tr| == 64 && |key.seed| == 32
    && |key.s1| == l && |key.s2| == k && |key.t0| == k
    && AllFit(EtaCoding(eta), key.s1) && AllFit(EtaCoding(eta), key.s2) && AllFit(T0Coding(), key.t0)
  }

  /** Reading back a packed secret key restores all six parts. */
  lemma SecretKeyRoundTrip(key: SecretKey, k: nat, l: nat, eta: int)
    requires ValidSecretKey(key, k, l, eta)
    ensures |SecretKeyBytes(key, eta)| == SecretKeyLength(k, l, eta)
    ensures ReadSecretKey(SecretKeyBytes(key, eta), k, l, eta) == key
  {
    DecodeEncodeVec(EtaCoding(eta), key.s1);
    DecodeEncodeVec(EtaCoding(eta), key.s2);
    DecodeEncodeVec(T0Coding(), key.t0);
    SixParts(key.rho, key.seed, key.tr, EncodeVec(EtaCoding(eta), key.s1), EncodeVec(EtaCoding(eta), key.s2),
             EncodeVec(T0Coding(), key.t0));
  }

  lemma SixParts(a: seq<uint8>, b: seq<uint8>, c: seq<uint8>, d: seq<uint8>, e: seq<uint8>, f: seq<uint8>)
    requires |a| == 32 && |b| == 32 && |c| == 64
    ensures var s := a + b + c + d + e + f;
            s[..32] == a && s[32..64] == b && s[64..128] == c && s[128..128 + |d|] == d
            && s[128 + |d|..128 + |d| + |e|] == e && s[128 + |d| + |e|..] == f
  {}

  /** Every string of the right length is the encoding of exactly one secret key. */
  lemma SecretKeyCanonical(sk: seq<uint8>, k: nat, l: nat, eta: int)
    requires |sk| == SecretKeyLength(k, l, eta)
    ensures ValidSecretKey(ReadSecretKey(sk, k, l, eta), k, l, eta)
    ensures SecretKeyBytes(ReadSecretKey(sk, k, l, eta), eta) == sk
  {
    hide EncodeVec, DecodeVec, AllFit, VecLength;
    var a := 128 + VecLength(EtaCoding(eta), l);
    var b := a + VecLength(EtaCoding(eta), k);
    EncodeDecodeVec(EtaCoding(eta), sk[128..a], l);
    EncodeDecodeVec(EtaCoding(eta), sk[a..b], k);
    EncodeDecodeVec(T0Coding(), sk[b..], k);
    assert sk == sk[..32] + sk[32..64] + sk[64..128] + sk[128..a] + sk[a..b] + sk[b..];
  }

  method PackSk(sk: array<uint8>, key: SecretKey, k: nat, l: nat, eta: int)
    requires 0 < k <= 8 && 0 < l <= 7 && (eta == 2 || eta == 4)
    requires ValidSecretKey(key, k, l, eta) && SecretKeyLength(k, l, eta) <= sk.Length
    modifies sk
    ensures |SecretKeyBytes(key, eta)| == SecretKeyLength(k, l, eta)
    ensures sk[..] == Written(old(sk[..]), 0, SecretKeyBytes(key, eta))
  {
    hide Encode, EncodeVec, DecodeVec, AllFit, VecLength, Written;
    SecretKeyRoundTrip(key, k, l, eta);
    ghost var was := sk[..];
    var offset := 0;
    StoreAt(sk, offset, key.rho);
    offset := offset + 32;
    StoreAt(sk, offset, key.seed);
    WrittenTwice(was, 0, key.rho, key.seed);
    offset := offset + 32;
    StoreAt(sk, offset, key.tr);
    WrittenTwice(was, 0, key.rho + key.seed, key.tr);
    offset := offset + 64;
    ghost var head := key.rho + key.seed + key.tr;
    PackVec(sk, offset, EtaCoding(eta), key.s1);
    WrittenTwice(was, 0, head, EncodeVec(EtaCoding(eta), key.s1));
    offset := offset + VecLength(EtaCoding(eta), l);
    PackVec(sk, offset, EtaCoding(eta), key.s2);
    WrittenTwice(was, 0, head + EncodeVec(EtaCoding(eta), key.s1), EncodeVec(EtaCoding(eta), key.s2));
    offset := offset + VecLength(EtaCoding(eta), k);
    PackVec(sk, offset, T0Coding(), key.t0);
    WrittenTwice(was, 0, head + EncodeVec(EtaCoding(eta), key.s1) + EncodeVec(EtaCoding(eta), key.s2),
                 EncodeVec(T0Coding(), key.t0));
  }

  method UnpackSk(sk: seq<uint8>, k: nat, l: nat, eta: int) returns (key: SecretKey)
    requires 0 < k <= 8 && 0 < l <= 7 && (eta == 2 || eta == 4) && |sk| == SecretKeyLength(k, l, eta)
    ensures key == ReadSecretKey(sk, k, l, eta)
  {
    hide VecLength, DecodeVec;
    var a := 128 + VecLength(EtaCoding(eta), l);
    var b := a + VecLength(EtaCoding(eta), k);
    var s1 := UnpackVec(EtaCoding(eta), sk[128..a], l);
    var s2 := UnpackVec(EtaCoding(eta), sk[a..b], k);
    var t0 := UnpackVec(T0Coding(), sk[b..], k);
    key := SecretKey(sk[..32], sk[64..128], sk[32..64], s1, s2, t0);
  }
}
