/**
 What the bytes of ML-DSA keys and signatures hold, part by part: hash inputs, nonces, matrix indices, bounds and
 offsets, without the functions that the methods share; and what two messages under one signature would mean.
 */
module DsaLayout {
  import opened MachineInts
  import opened Vectors
  import opened Congruence
  import opened PolyRing
  import opened PolyCoding
  import opened DsaConstants
  import opened DsaReduce
  import opened DsaRounding
  import opened DsaModel
  import opened DsaPacking
  import opened DsaHint
  import opened DsaSpec
  import DsaComplete
  import MlDsa
  import P = DsaProducts

  /** The width of each coding, and the value from which it counts down. */
  lemma CodingTable()
    ensures T1Coding() == Plain(10) && T0Coding() == Below(13, 4096)
    ensures EtaCoding(2) == Below(3, 2) && EtaCoding(4) == Below(4, 4)
    ensures ZCoding(131072) == Below(18, 131072) && ZCoding(524288) == Below(20, 524288)
    ensures W1Coding(95232) == Plain(6) && W1Coding(261888) == Plain(4)
  {}

  /** v are the small polynomials of the nonces from the given one on. */
  ghost predicate AreSmall(o: Oracle, seed: seq<uint8>, from: nat, eta: int, v: Vec)
  {
    forall j :: 0 <= j < |v| ==> v[j] == if eta == 2 then o.eta2(seed, from + j) else o.eta4(seed, from + j)
  }

  lemma SmallIs(o: Oracle, seed: seq<uint8>, from: nat, eta: int, v: Vec)
    requires AreSmall(o, seed, from, eta, v)
    ensures v == SecretVec(o, seed, from, |v|, eta) && Polys(v)
  {
    forall j | 0 <= j < |v|
      ensures v[j] == o.Eta(seed, from + j, eta)
    {}
    hide AreSmall, Oracle.Eta;
  }

  /** Entry j of row i of the matrix is sampled from rho and 256 i + j. */
  ghost predicate Sampled(o: Oracle, rho: seq<uint8>, i: nat, row: Vec)
  {
    forall j :: 0 <= j < |row| ==> row[j] == o.uniform(rho, 256 * i + j)
  }

  lemma SampledIs(o: Oracle, rho: seq<uint8>, i: nat, row: Vec, v: Vec)
    requires Sampled(o, rho, i, row) && |row| == |v| >= 1 && Polys(v)
    ensures Polys(row) && P.MatrixTimes(o, rho, i, v) == P.RowProduct(row, v, |v|)
  {
    assert row == o.Row(rho, i, |row|);
    hide P.RowProduct, Sampled;
  }

  // ---------- Keys ----------

  /** Three encoded vectors of l, k and k polynomials: entry j of the first, and entry i of the other two. */
  ghost predicate HoldsVectors(bytes: seq<uint8>, eta: int, l: nat, k: nat, j: nat, x: seq<int>, i: nat, y: seq<int>, z: seq<int>)
  {
    var second := Rest(EtaCoding(eta), bytes, l);
    var third := Rest(EtaCoding(eta), second, k);
    && Part(EtaCoding(eta), bytes, j) == Encode(EtaCoding(eta), x)
    && Part(EtaCoding(eta), second, i) == Encode(EtaCoding(eta), y)
    && Part(T0Coding(), third, i) == Encode(T0Coding(), z) && Rest(T0Coding(), third, k) == []
  }

  /** t1 and t0 are the high and the low parts of the residues of s. */
  ghost predicate SplitsInto(s: seq<int>, t1: seq<int>, t0: seq<int>)
  {
    && |s| == |t1| == |t0| == 256
    && forall n :: 0 <= n < 256 ==> 8192 * t1[n] + t0[n] == s[n] % 8380417 && -4096 < t0[n] <= 4096
  }

  /** The row times s, plus e, splits into t1 and t0. */
  ghost predicate RowSplits(row: Vec, s: Vec, e: seq<int>, t1: seq<int>, t0: seq<int>)
  {
    && 1 <= |row| == |s| && Polys(row) && Polys(s) && |e| == 256
    && SplitsInto(Add(P.RowProduct(row, s, |s|), e), t1, t0)
  }

  /** The seed, k and l are hashed to rho, rho' and K; under rho', s1 has nonces 0 .. l - 1 and s2 nonces l .. l + k - 1. */
  ghost predicate Expands(o: Oracle, p: Params, seed: seq<uint8>, rho: seq<uint8>, rhoPrime: seq<uint8>, key: seq<uint8>,
                          s1: Vec, s2: Vec)
  {
    && p.k <= 8 && p.l <= 7
    && |rho| == 32 && |rhoPrime| == 64 && rho + rhoPrime + key == o.Shake256(seed + [p.k, p.l], 128)
    && |s1| == p.l && |s2| == p.k && AreSmall(o, rhoPrime, 0, p.eta, s1) && AreSmall(o, rhoPrime, p.l, p.eta, s2)
  }

  /**
   A generated key pair. Row i of A s1 + s2 splits into t1 and t0. The public key holds rho and t1; the secret key holds
   rho, K, the hash of the public key, s1, s2 and t0, in this order.
   */
  lemma KeyPairMeans(o: Oracle, p: Params, seed: seq<uint8>, rho: seq<uint8>, rhoPrime: seq<uint8>, key: seq<uint8>,
                     s1: Vec, s2: Vec, row: Vec, i: nat, j: nat, pk: seq<uint8>, sk: seq<uint8>)
    returns (t1: seq<int>, t0: seq<int>)
    requires Valid(p) && Expands(o, p, seed, rho, rhoPrime, key, s1, s2)
    requires |row| == |s1| == p.l && |s2| == p.k && i < p.k && j < p.l && Sampled(o, rho, i, row)
    requires pk == PublicKeyBytes(PublicKeyOf(o, p, seed)) && sk == SecretKeyBytes(SecretKeyOf(o, p, seed), p.eta)
    ensures RowSplits(row, s1, s2[i], t1, t0)
    ensures |pk| >= 32 && pk[..32] == rho
    ensures Part(T1Coding(), pk[32..], i) == Encode(T1Coding(), t1) && Rest(T1Coding(), pk[32..], p.k) == []
    ensures |sk| >= 128 && sk[..32] == rho && sk[32..64] == key && sk[64..128] == o.Shake256(pk, 64)
    ensures HoldsVectors(sk[128..], p.eta, p.l, p.k, j, s1[j], i, s2[i], t0)
  {
    hide *;
    MlDsa.ValidParts(p);
    ExpandsIs(o, p, seed, rho, rhoPrime, key, s1, s2);
    GeneratedFrom(o, p, seed, rho, rhoPrime, key, s1, s2);
    t1, t0 := SplitRow(o, rho, s1, s2, i, row);
    var t1s, t0s := T1Vec(o, rho, s1, s2), T0Vec(o, rho, s1, s2);
    PublicParts(rho, t1s, i, pk);
    SecretParts(rho, o.Shake256(pk, 64), key, s1, s2, t0s, p.eta, j, i, sk);
  }

  lemma ExpandsIs(o: Oracle, p: Params, seed: seq<uint8>, rho: seq<uint8>, rhoPrime: seq<uint8>, key: seq<uint8>, s1: Vec, s2: Vec)
    requires Expands(o, p, seed, rho, rhoPrime, key, s1, s2)
    ensures p.k <= 8 && p.l <= 7 && |rho| == 32 && |rhoPrime| == 64
    ensures rho + rhoPrime + key == o.Shake256(seed + [p.k, p.l], 128)
    ensures s1 == SecretVec(o, rhoPrime, 0, p.l, p.eta) && s2 == SecretVec(o, rhoPrime, p.l, p.k, p.eta) && Polys(s1) && Polys(s2)
  {
    hide AreSmall, SecretVec, Oracle.Shake256;
    SmallIs(o, rhoPrime, 0, p.eta, s1);
    SmallIs(o, rhoPrime, p.l, p.eta, s2);
  }

  lemma GeneratedFrom(o: Oracle, p: Params, seed: seq<uint8>, rho: seq<uint8>, rhoPrime: seq<uint8>, key: seq<uint8>,
                      s1: Vec, s2: Vec)
    requires Valid(p) && rho + rhoPrime + key == o.Shake256(seed + [p.k, p.l], 128) && |rho| == 32 && |rhoPrime| == 64
    requires p.l >= 1 && s1 == SecretVec(o, rhoPrime, 0, p.l, p.eta) && s2 == SecretVec(o, rhoPrime, p.l, p.k, p.eta)
    ensures |key| == 32 && |s1| == p.l && Polys(s1) && Polys(s2)
    ensures PublicKeyOf(o, p, seed) == PublicKey(rho, T1Vec(o, rho, s1, s2))
    ensures SecretKeyOf(o, p, seed) == SecretKey(rho, o.Shake256(PublicKeyBytes(PublicKeyOf(o, p, seed)), 64), key, s1, s2,
                                                 T0Vec(o, rho, s1, s2))
  {
    var buf := o.Shake256(seed + [p.k, p.l], 128);
    assert buf[..32] == rho && buf[32..96] == rhoPrime && buf[96..] == key;
    MlDsa.GeneratedParts(o, p, seed);
    hide SecretVec, T1Vec, T0Vec, Oracle.Shake256, PublicKeyBytes, PublicKeyOf, SecretKeyOf, Valid;
  }

  lemma SplitRow(o: Oracle, rho: seq<uint8>, s1: Vec, s2: Vec, i: nat, row: Vec) returns (t1: seq<int>, t0: seq<int>)
    requires |s1| >= 1 && |row| == |s1| && Polys(s1) && Polys(s2) && i < |s2| && Sampled(o, rho, i, row)
    ensures RowSplits(row, s1, s2[i], t1, t0)
    ensures |T1Vec(o, rho, s1, s2)| == |T0Vec(o, rho, s1, s2)| == |s2|
    ensures Polys(T1Vec(o, rho, s1, s2)) && T1Vec(o, rho, s1, s2)[i] == t1
    ensures Polys(T0Vec(o, rho, s1, s2)) && T0Vec(o, rho, s1, s2)[i] == t0
  {
    hide *;
    SampledIs(o, rho, i, row, s1);
    TRowIs(o, rho, s1, s2, i);
    t1, t0 := T1Row(TRow(o, rho, s1, s2, i)), T0Row(TRow(o, rho, s1, s2, i));
    ResiduesSplit(Add(P.RowProduct(row, s1, |s1|), s2[i]));
    MakeRowSplits(row, s1, s2[i], t1, t0);
  }

  lemma MakeRowSplits(row: Vec, s: Vec, e: seq<int>, t1: seq<int>, t0: seq<int>)
    requires 1 <= |row| == |s| && Polys(row) && Polys(s) && |e| == 256
    requires SplitsInto(Add(P.RowProduct(row, s, |s|), e), t1, t0)
    ensures RowSplits(row, s, e, t1, t0)
  {
    hide SplitsInto, P.RowProduct, Add;
  }

  lemma TRowIs(o: Oracle, rho: seq<uint8>, s1: Vec, s2: Vec, i: nat)
    requires |s1| >= 1 && Polys(s1) && Polys(s2) && i < |s2|
    ensures |s2[i]| == 256 && TRow(o, rho, s1, s2, i) == Canonical(Add(P.MatrixTimes(o, rho, i, s1), s2[i]))
    ensures |T1Vec(o, rho, s1, s2)| == |T0Vec(o, rho, s1, s2)| == |s2|
    ensures Polys(T1Vec(o, rho, s1, s2)) && T1Vec(o, rho, s1, s2)[i] == T1Row(TRow(o, rho, s1, s2, i))
    ensures Polys(T0Vec(o, rho, s1, s2)) && T0Vec(o, rho, s1, s2)[i] == T0Row(TRow(o, rho, s1, s2, i))
  {
    hide Canonical, T1Row, T0Row, P.MatrixTimes, Add;
  }

  lemma ResiduesSplit(s: seq<int>)
    requires |s| == 256
    ensures SplitsInto(s, T1Row(Canonical(s)), T0Row(Canonical(s)))
  {
    var t := Canonical(s);
    forall n | 0 <= n < 256
      ensures 8192 * T1Row(t)[n] + T0Row(t)[n] == s[n] % 8380417 && -4096 < T0Row(t)[n] <= 4096
    {
      assert t[n] == s[n] % 8380417;
    }
  }

  lemma PublicParts(rho: seq<uint8>, t1s: Vec, i: nat, pk: seq<uint8>)
    requires |rho| == 32 && Polys(t1s) && i < |t1s| && pk == PublicKeyBytes(PublicKey(rho, t1s))
    ensures |pk| >= 32 && pk[..32] == rho
    ensures Part(T1Coding(), pk[32..], i) == Encode(T1Coding(), t1s[i]) && Rest(T1Coding(), pk[32..], |t1s|) == []
  {
    hide T1Coding, Part, Rest, Encode, EncodeVec;
    PartsOfBytes(T1Coding(), t1s, [], i);
    assert pk[32..] == EncodeVec(T1Coding(), t1s) + [];
  }

  lemma SecretParts(rho: seq<uint8>, tr: seq<uint8>, key: seq<uint8>, s1: Vec, s2: Vec, t0s: Vec, eta: int, j: nat, i: nat,
                    sk: seq<uint8>)
    requires |rho| == 32 && |key| == 32 && |tr| == 64 && Polys(s1) && Polys(s2) && Polys(t0s)
    requires j < |s1| && i < |s2| == |t0s| && sk == SecretKeyBytes(SecretKey(rho, tr, key, s1, s2, t0s), eta)
    ensures |sk| >= 128 && sk[..32] == rho && sk[32..64] == key && sk[64..128] == tr
    ensures HoldsVectors(sk[128..], eta, |s1|, |s2|, j, s1[j], i, s2[i], t0s[i])
  {
    hide *;
    var x1, x2, x3 := EncodeVec(EtaCoding(eta), s1), EncodeVec(EtaCoding(eta), s2), EncodeVec(T0Coding(), t0s);
    SecretBytesAre(rho, tr, key, s1, s2, t0s, eta);
    SixParts(rho, key, tr, x1, x2, x3);
    ThreeParts(rho + key + tr, x1, x2, x3);
    VectorParts(s1, s2, t0s, eta, j, i);
  }

  lemma ThreeParts(a: seq<uint8>, d: seq<uint8>, e: seq<uint8>, f: seq<uint8>)
    ensures (a + d + e + f)[|a|..] == d + (e + (f + []))
  {}

  lemma VectorParts(s1: Vec, s2: Vec, t0s: Vec, eta: int, j: nat, i: nat)
    requires Polys(s1) && Polys(s2) && Polys(t0s) && j < |s1| && i < |s2| == |t0s|
    ensures var (c, d) := (EtaCoding(eta), T0Coding());
            HoldsVectors(EncodeVec(c, s1) + (EncodeVec(c, s2) + (EncodeVec(d, t0s) + [])), eta, |s1|, |s2|, j, s1[j], i, s2[i],
                         t0s[i])
  {
    hide EtaCoding, T0Coding, Part, Rest, Encode, EncodeVec;
    var c, d := EtaCoding(eta), T0Coding();
    PartsOfBytes(c, s1, EncodeVec(c, s2) + (EncodeVec(d, t0s) + []), j);
    PartsOfBytes(c, s2, EncodeVec(d, t0s) + [], i);
    PartsOfBytes(d, t0s, [], i);
  }

  lemma SecretBytesAre(rho: seq<uint8>, tr: seq<uint8>, key: seq<uint8>, s1: Vec, s2: Vec, t0s: Vec, eta: int)
    ensures SecretKeyBytes(SecretKey(rho, tr, key, s1, s2, t0s), eta)
         == rho + key + tr + EncodeVec(EtaCoding(eta), s1) + EncodeVec(EtaCoding(eta), s2) + EncodeVec(T0Coding(), t0s)
  {
    hide EncodeVec;
  }

  // ---------- Signing ----------

  /** Row i of attempt n is read from the stream of the seed and of the 16-bit nonce n l + i, low byte first. */
  ghost predicate Masks(o: Oracle, p: Params, seed: seq<uint8>, n: nat, y: Vec)
  {
    forall i :: 0 <= i < |y| ==> y[i] == MaskOf(o, p, seed, (n * p.l + i) % 65536)
  }

  ghost function MaskOf(o: Oracle, p: Params, seed: seq<uint8>, x: int): (y: seq<int>)
    requires 0 <= x < 65536
  {
    var c := if p.gamma1 == 131072 then Below(18, p.gamma1) else Below(20, p.gamma1);
    Decode(c, o.Shake256(seed + [x % 256, x / 256], 32 * c.bits))
  }

  /**
   The hashes of attempt n. The message is hashed behind tr and two zero bytes to mu; K, 32 zero bytes and mu are hashed
   to the seed of the masks; mu and the encoded high parts are hashed to the challenge seed.
   */
  lemma AttemptMeans(o: Oracle, p: Params, key: SecretKey, msg: seq<uint8>, n: nat, a: Attempt, mu: seq<uint8>, seed: seq<uint8>)
    requires Valid(p) && KeyShape(p, key) && a == SigningAttempt(o, p, key, msg, n)
    requires mu == o.Shake256(key.tr + [0, 0] + msg, 64) && seed == o.Shake256(key.seed + seq<uint8>(32, _ => 0) + mu, 64)
    ensures |a.y| == p.l && Masks(o, p, seed, n, a.y)
    ensures a.ctilde == o.Shake256(mu + EncodeVec(W1Coding(p.gamma2), a.w1), p.ctilde) && a.c == o.challenge(a.ctilde, p.tau)
  {
    hide *;
    DsaComplete.SigningAttemptIs(o, p, key, msg, n);
    SeedsAre(o, key, msg);
    var y := MaskVec(o, p, seed, n);
    DsaComplete.AttemptIs(o, p, key, mu, y);
    CommitHashIs(o, p, mu, a.w1);
    MaskedIs(o, p, key, mu, y);
    forall i | 0 <= i < |y|
      ensures y[i] == MaskOf(o, p, seed, (n * p.l + i) % 65536)
    {
      MaskAt(o, p, seed, n, i);
    }
    MakeMasks(o, p, seed, n, y);
  }

  lemma SeedsAre(o: Oracle, key: SecretKey, msg: seq<uint8>)
    ensures MessageHash(o, key.tr, msg) == o.Shake256(key.tr + [0, 0] + msg, 64)
    ensures var mu := MessageHash(o, key.tr, msg);
            MaskSeed(o, key.seed, mu) == o.Shake256(key.seed + seq<uint8>(32, _ => 0) + mu, 64)
  {
    hide Oracle.Shake256;
    var mu := MessageHash(o, key.tr, msg);
    assert key.seed + seq(32, _ => 0) + mu == key.seed + seq<uint8>(32, _ => 0) + mu;
  }

  lemma CommitHashIs(o: Oracle, p: Params, mu: seq<uint8>, w1: Vec)
    ensures CommitHash(o, p, mu, w1) == o.Shake256(mu + EncodeVec(W1Coding(p.gamma2), w1), p.ctilde)
  {
    hide Oracle.Shake256, EncodeVec;
  }

  lemma MaskedIs(o: Oracle, p: Params, key: SecretKey, mu: seq<uint8>, y: Vec)
    requires Valid(p) && KeyShape(p, key) && |y| == p.l && Polys(y)
    ensures AttemptOf(o, p, key, mu, y).y == y
  {
    hide W1Vec, R0Vec, CT0Vec, HintVec, ZVec, CommitHash;
  }

  lemma MaskAt(o: Oracle, p: Params, seed: seq<uint8>, n: nat, i: nat)
    requires Valid(p) && i < p.l
    ensures MaskVec(o, p, seed, n)[i] == MaskOf(o, p, seed, (n * p.l + i) % 65536)
  {
    hide *;
    MaskVecAt(o, p, seed, n, i);
    MaskRowIs(o, p, seed, Nonce(n, p.l, i));
    NonceIs(n, p.l, i);
  }

  lemma MaskVecAt(o: Oracle, p: Params, seed: seq<uint8>, n: nat, i: nat)
    requires i < p.l
    ensures MaskVec(o, p, seed, n)[i] == MaskRow(o, p.gamma1, seed, Nonce(n, p.l, i))
  {
    hide MaskRow, Nonce;
  }

  lemma MaskRowIs(o: Oracle, p: Params, seed: seq<uint8>, nonce: nat)
    ensures MaskRow(o, p.gamma1, seed, nonce) == MaskOf(o, p, seed, nonce % 65536)
  {
    hide Decode, Oracle.Shake256;
  }

  lemma NonceIs(n: nat, l: nat, i: nat)
    ensures Nonce(n, l, i) == n * l + i
  {}

  lemma MakeMasks(o: Oracle, p: Params, seed: seq<uint8>, n: nat, y: Vec)
    requires forall i :: 0 <= i < |y| ==> y[i] == MaskOf(o, p, seed, (n * p.l + i) % 65536)
    ensures Masks(o, p, seed, n, y)
  {
    hide MaskOf;
  }

  /** All coefficients lie strictly between -bound and bound. */
  ghost predicate Within(v: Vec, bound: int)
  {
    forall i, n :: 0 <= i < |v| && 0 <= n < |v[i]| ==> -bound < v[i][n] < bound
  }

  lemma WithinIs(v: Vec, bound: int)
    ensures AllBelow(v, bound) <==> Within(v, bound)
  {
    if Within(v, bound) {
      forall i | 0 <= i < |v|
        ensures RowBelow(v[i], bound)
      {}
    }
    if AllBelow(v, bound) {
      forall i, n | 0 <= i < |v| && 0 <= n < |v[i]|
        ensures -bound < v[i][n] < bound
      {
        assert RowBelow(v[i], bound);
      }
    }
  }

  /** An attempt passes exactly within these bounds, which are numbers for both parameter sets. */
  lemma PassesExactly(p: Params, a: Attempt)
    requires Sized(a.h)
    ensures Passes(p, a) <==>
              && Within(a.z, p.gamma1 - p.tau * p.eta) && Within(a.r0, p.gamma2 - p.tau * p.eta) && Within(a.ct0, p.gamma2)
              && |Flat(a.h)| <= p.omega
    ensures p == ML_DSA_65 ==>
              (Passes(p, a) <==> Within(a.z, 524092) && Within(a.r0, 261692) && Within(a.ct0, 261888) && |Flat(a.h)| <= 55)
    ensures p == ML_DSA_87 ==>
              (Passes(p, a) <==> Within(a.z, 524168) && Within(a.r0, 261768) && Within(a.ct0, 261888) && |Flat(a.h)| <= 75)
  {
    WithinIs(a.z, p.gamma1 - p.tau * p.eta);
    WithinIs(a.r0, p.gamma2 - p.tau * p.eta);
    WithinIs(a.ct0, p.gamma2);
    hide Within, AllBelow, Flat;
  }

  /** A signature holds the challenge seed, the rows of z, and then the hint. */
  lemma SignatureMeans(p: Params, a: Attempt, sig: seq<uint8>, j: nat)
    requires Sized(a.h) && |Flat(a.h)| <= p.omega && |a.ctilde| == p.ctilde && |a.z| == p.l && Polys(a.z) && j < p.l
    requires sig == SignatureBytes(p, a)
    ensures |sig| >= p.ctilde && sig[..p.ctilde] == a.ctilde
    ensures Part(ZCoding(p.gamma1), sig[p.ctilde..], j) == Encode(ZCoding(p.gamma1), a.z[j])
    ensures Rest(ZCoding(p.gamma1), sig[p.ctilde..], p.l) == HintBytes(a.h, p.omega)
  {
    hide *;
    MlDsa.SignatureBytesAre(p, a);
    var c := ZCoding(p.gamma1);
    var mid := EncodeVec(c, a.z);
    PolysAre(a.z);
    var more := ThreePieces(a.ctilde, mid, HintBytes(a.h, p.omega), sig);
    PartsOfBytes(c, a.z, more, j);
  }

  lemma PolysAre(v: Vec)
    requires Polys(v)
    ensures forall j :: 0 <= j < |v| ==> |v[j]| == 256
  {}

  lemma ThreePieces(a: seq<uint8>, b: seq<uint8>, c: seq<int>, s: seq<uint8>) returns (more: seq<uint8>)
    requires s == a + b + c
    ensures |s| >= |a| && s[..|a|] == a && s[|a|..] == b + more && more == c
  {
    more := s[|a| + |b|..];
    assert (a + b + c)[|a| + |b|..] == c && (a + b + c)[|a|..|a| + |b|] == b;
    assert s[|a|..] == s[|a|..|a| + |b|] + more;
  }

  /**
   The hint: row i has its ones at the positions that are listed between the end of the row before and its own end, in
   ascending order; the ends are the last bytes, and what is between the positions and the ends is zero.
   */
  lemma HintMeans(h: Vec, omega: nat, i: nat, j: nat)
    requires BinaryVec(h) && |Flat(h)| <= omega && i < |h| && j < 256
    ensures var b := HintBytes(h, omega);
            && |b| == omega + |h|
            && var (lo, hi) := (if i == 0 then 0 else b[omega + i - 1], b[omega + i]);
            && 0 <= lo <= hi <= omega && |h[i]| == 256 && (h[i][j] == 1 <==> j in b[lo..hi])
            && (forall n :: 0 < n < hi - lo ==> b[lo..hi][n - 1] < b[lo..hi][n])
            && (i == |h| - 1 ==> forall n :: hi <= n < omega ==> b[n] == 0)
  {
    hide Flat, HintBytes;
    DecodeOfEncode(h, omega);
    var b := HintBytes(h, omega);
    assert RowOk(b, omega, i) && DecodedHint(b, |h|, omega)[i] == DecodedRow(b, omega, i) == h[i];
  }

  // ---------- Verification ----------

  /**
   A signature of the right length is valid exactly if z is within its bound, the hint is well formed, and the challenge
   seed is the hash of mu and the recovered commitment, mu being the hash of the message behind the hash of the key and
   two zero bytes. The key holds 32 bytes and t1, the signature the challenge seed, z and the hint.
   */
  lemma VerificationMeans(o: Oracle, p: Params, pk: seq<uint8>, msg: seq<uint8>, sig: seq<uint8>, t1: Vec, z: Vec, hint: seq<uint8>)
    requires Valid(p) && |pk| == PublicKeyLength(p.k) && |sig| == SignatureLength(p)
    requires |t1| == p.k && ReadFrom(T1Coding(), pk[32..], t1)
    requires |sig| >= p.ctilde && |z| == p.l && ReadFrom(ZCoding(p.gamma1), sig[p.ctilde..], z)
    requires hint == Rest(ZCoding(p.gamma1), sig[p.ctilde..], p.l)
    ensures Polys(t1) && Polys(z) && |hint| == p.omega + p.k && (p.gamma2 == 95232 || p.gamma2 == 261888)
    ensures ValidSignature(o, p, pk, msg, sig) <==>
              && Within(z, p.gamma1 - p.tau * p.eta) && Accepted(hint, p.k, p.omega)
              && var w1 := RecoveredVec(o, pk[..32], z, o.challenge(sig[..p.ctilde], p.tau), t1,
                                        DecodedHint(hint, p.k, p.omega), p.gamma2);
              var mu := o.Shake256(o.Shake256(pk, 64) + [0, 0] + msg, 64);
              sig[..p.ctilde] == o.Shake256(mu + EncodeVec(W1Coding(p.gamma2), w1), p.ctilde)
  {
    hide *;
    MlDsa.ValidParts(p);
    KeyRowsAre(p, pk, t1);
    SignaturePartsAre(p, sig, z);
    BetaIs(p);
    WithinIs(z, p.gamma1 - p.tau * p.eta);
    MlDsa.ValidMeans(o, p, pk, msg, sig);
    var mu := MessageHash(o, o.Shake256(pk, 64), msg);
    MessageHashIs(o, o.Shake256(pk, 64), msg);
    if Accepted(hint, p.k, p.omega) {
      var h := DecodedHint(hint, p.k, p.omega);
      var w1 := RecoveredVec(o, pk[..32], z, o.challenge(sig[..p.ctilde], p.tau), t1, h, p.gamma2);
      MlDsa.MatchMeans(o, p, pk, mu, sig[..p.ctilde], z, h);
      CommitHashIs(o, p, mu, w1);
    }
  }

  lemma KeyRowsAre(p: Params, pk: seq<uint8>, t1: Vec)
    requires |pk| == PublicKeyLength(p.k) && |t1| == p.k && ReadFrom(T1Coding(), pk[32..], t1)
    ensures |pk| >= 32 && KeyT1(p, pk) == t1 && Polys(t1)
  {
    hide T1Coding, ReadFrom, DecodeVec, VecLength;
    VecReadFrom(T1Coding(), pk[32..], t1);
    assert pk[32..][..VecLength(T1Coding(), p.k)] == pk[32..];
  }

  lemma SignaturePartsAre(p: Params, sig: seq<uint8>, z: Vec)
    requires |sig| == SignatureLength(p) && |z| == p.l && |sig| >= p.ctilde && ReadFrom(ZCoding(p.gamma1), sig[p.ctilde..], z)
    ensures SignatureZ(p, sig) == z && Polys(z) && HintAt(p) <= |sig| && |sig[HintAt(p)..]| == p.omega + p.k
    ensures Rest(ZCoding(p.gamma1), sig[p.ctilde..], p.l) == sig[HintAt(p)..]
  {
    hide ZCoding, ReadFrom, DecodeVec, VecLength;
    VecReadFrom(ZCoding(p.gamma1), sig[p.ctilde..], z);
    var n := VecLength(ZCoding(p.gamma1), p.l);
    assert sig[p.ctilde..][..n] == sig[p.ctilde..p.ctilde + n] && sig[p.ctilde..][n..] == sig[p.ctilde + n..];
  }

  lemma BetaIs(p: Params)
    requires Valid(p)
    ensures VerifyBeta(p) == p.tau * p.eta
  {}

  lemma MessageHashIs(o: Oracle, tr: seq<uint8>, msg: seq<uint8>)
    ensures MessageHash(o, tr, msg) == o.Shake256(tr + [0, 0] + msg, 64)
  {}

  // ---------- What a signature binds ----------

  /** Two different inputs with the same n bytes of SHAKE256. */
  ghost predicate Collide(o: Oracle, x: seq<uint8>, y: seq<uint8>, n: nat)
  {
    x != y && o.Shake256(x, n) == o.Shake256(y, n)
  }

  /**
   A signature that is valid for two messages under one key is a collision of SHAKE256: of 64 bytes, between the two
   messages behind the hash of the key and two zero bytes, or of the challenge seed, between the hashes of these inputs
   with one commitment behind them.
   */
  lemma MessageBinding(o: Oracle, p: Params, pk: seq<uint8>, a: seq<uint8>, b: seq<uint8>, sig: seq<uint8>)
    returns (commitment: seq<uint8>)
    requires Valid(p) && |pk| == PublicKeyLength(p.k) && a != b
    requires ValidSignature(o, p, pk, a, sig) && ValidSignature(o, p, pk, b, sig)
    ensures var tr := o.Shake256(pk, 64);
            var (x, y) := (tr + [0, 0] + a, tr + [0, 0] + b);
            || Collide(o, x, y, 64)
            || Collide(o, o.Shake256(x, 64) + commitment, o.Shake256(y, 64) + commitment, p.ctilde)
  {
    hide *;
    MlDsa.ValidParts(p);
    var tr := o.Shake256(pk, 64);
    var (x, y) := (tr + [0, 0] + a, tr + [0, 0] + b);
    assert x[66..] == a && y[66..] == b;
    commitment := CommonCommitment(o, p, pk, a, b, sig);
    Collision(o, x, y, 64);
    Collision(o, o.Shake256(x, 64) + commitment, o.Shake256(y, 64) + commitment, p.ctilde);
    if o.Shake256(x, 64) + commitment == o.Shake256(y, 64) + commitment {
      DifferentFronts(o.Shake256(x, 64), o.Shake256(y, 64), commitment);
    }
  }

  lemma Collision(o: Oracle, x: seq<uint8>, y: seq<uint8>, n: nat)
    ensures Collide(o, x, y, n) <==> x != y && o.Shake256(x, n) == o.Shake256(y, n)
  {}

  lemma DifferentFronts(x: seq<uint8>, y: seq<uint8>, z: seq<uint8>)
    requires |x| == |y| && x + z == y + z
    ensures x == y
  {
    assert (x + z)[..|x|] == x && (y + z)[..|x|] == y;
  }

  /** What the verifier hashes behind mu depends on the key and the signature only. */
  lemma CommonCommitment(o: Oracle, p: Params, pk: seq<uint8>, a: seq<uint8>, b: seq<uint8>, sig: seq<uint8>)
    returns (commitment: seq<uint8>)
    requires Valid(p) && |pk| == PublicKeyLength(p.k) && Supported(p.gamma2) && p.l >= 1
    requires ValidSignature(o, p, pk, a, sig) && ValidSignature(o, p, pk, b, sig)
    ensures o.Shake256(o.Shake256(o.Shake256(pk, 64) + [0, 0] + a, 64) + commitment, p.ctilde)
         == o.Shake256(o.Shake256(o.Shake256(pk, 64) + [0, 0] + b, 64) + commitment, p.ctilde)
  {
    hide *;
    SignatureSizes(p);
    MlDsa.ValidMeans(o, p, pk, a, sig);
    MlDsa.ValidMeans(o, p, pk, b, sig);
    var tr, t1, z := o.Shake256(pk, 64), KeyT1(p, pk), SignatureZ(p, sig);
    var h := DecodedHint(sig[HintAt(p)..], p.k, p.omega);
    KeyLongEnough(p, pk);
    var w1 := RecoveredVec(o, pk[..32], z, o.challenge(sig[..p.ctilde], p.tau), t1, h, p.gamma2);
    commitment := EncodeVec(W1Coding(p.gamma2), w1);
    MessageHashIs(o, tr, a);
    MessageHashIs(o, tr, b);
    MlDsa.MatchMeans(o, p, pk, MessageHash(o, tr, a), sig[..p.ctilde], z, h);
    MlDsa.MatchMeans(o, p, pk, MessageHash(o, tr, b), sig[..p.ctilde], z, h);
    CommitHashIs(o, p, MessageHash(o, tr, a), w1);
    CommitHashIs(o, p, MessageHash(o, tr, b), w1);
  }

  lemma SignatureSizes(p: Params)
    ensures p.ctilde <= HintAt(p) && SignatureLength(p) == HintAt(p) + p.omega + p.k
  {}

  lemma KeyLongEnough(p: Params, pk: seq<uint8>)
    requires |pk| == PublicKeyLength(p.k)
    ensures |pk| >= 32
  {}
}
