/**
 What the bytes of ML-KEM keys and ciphertexts hold, part by part: offsets, nonces, matrix indices and the transform of
 the standard, without the functions that the methods share.
 */
module KemLayout {
  import opened MachineInts
  import opened Vectors
  import opened PolyRing
  import opened PolyCoding
  import opened KemConstants
  import opened KemPoly
  import opened KemCompress
  import opened KemPacking
  import opened KemModel
  import opened KemSpec
  import KemCorrect
  import MlKem
  import N = KemNtt
  import P = KemProducts

  /** v are the noise polynomials of the nonces from the given one on. */
  ghost predicate AreNoise(o: Oracle, seed: seq<uint8>, from: nat, eta: int, v: Vec)
  {
    forall j :: 0 <= j < |v| ==> v[j] == o.noise(seed, from + j, eta)
  }

  lemma NoiseIs(o: Oracle, seed: seq<uint8>, from: nat, eta: int, v: Vec)
    requires AreNoise(o, seed, from, eta, v)
    ensures v == o.NoiseVec(seed, from, |v|, eta)
  {}

  /**
   A generated key pair. The seed is hashed together with k; the first half of the hash seeds the matrix, the second the
   secrets with nonces 0 .. k - 1 and the errors with nonces k .. 2k - 1. Row i of the public key is the transform of
   row i of A s + e, where entry (i, j) of the matrix is sampled from rho, j, i; row i of the secret key is that of s.
   */
  lemma KeyPairMeans(o: Oracle, p: Params, d: seq<uint8>, rho: seq<uint8>, sigma: seq<uint8>, s: Vec, e: Vec, row: Vec, i: nat)
    returns (t: seq<int>, u: seq<int>)
    requires Valid(p) && rho + sigma == o.sha3_512(d + [p.k]) && |rho| == 32
    requires |s| == |e| == |row| == p.k && AreNoise(o, sigma, 0, p.eta1, s) && AreNoise(o, sigma, p.k, p.eta1, e)
    requires i < p.k && forall j :: 0 <= j < p.k ==> row[j] == o.uniform(rho + [j, i])
    ensures Part(Plain(12), PublicBytes(o, SecretsOf(o, p, d)), i) == Encode(Plain(12), t) && InRange(t, 0, 3329)
    ensures Rest(Plain(12), PublicBytes(o, SecretsOf(o, p, d)), p.k) == rho
    ensures Part(Plain(12), SecretBytes(SecretsOf(o, p, d)), i) == Encode(Plain(12), u) && InRange(u, 0, 3329)
    ensures Rest(Plain(12), SecretBytes(SecretsOf(o, p, d)), p.k) == []
    ensures Polys(row) && Polys(s) && Polys(e)
    ensures N.IsTransform(t, Add(P.RowProduct(row, s, p.k), e[i])) && N.IsTransform(u, s[i])
  {
    hide *;
    QIs();
    var x := SecretsOf(o, p, d);
    SecretsAre(o, p, d, rho, sigma, s, e);
    RowIs(o, rho, i, row);
    BytesAre(o, x);
    PublicRows(o, rho, s, e, i);
    SecretRows(s, i);
    MlKem.TPolyIs(o, rho, s, e, i);
    t, u := P.HatSeq(TPoly(o, rho, s, e, i)), P.HatSeq(s[i]);
    PartsOfBytes(Plain(12), THatVec(o, rho, s, e), rho, i);
    PartsOfBytes(Plain(12), SHatVec(s), [], i);
    assert EncodeVec(Plain(12), SHatVec(s)) + [] == EncodeVec(Plain(12), SHatVec(s));
    P.HatSeqIsTransform(TPoly(o, rho, s, e, i));
    P.HatSeqIsTransform(s[i]);
  }

  lemma SecretsAre(o: Oracle, p: Params, d: seq<uint8>, rho: seq<uint8>, sigma: seq<uint8>, s: Vec, e: Vec)
    requires Valid(p) && rho + sigma == o.sha3_512(d + [p.k]) && |rho| == 32
    requires |s| == |e| == p.k && AreNoise(o, sigma, 0, p.eta1, s) && AreNoise(o, sigma, p.k, p.eta1, e)
    ensures SecretsOf(o, p, d) == Secrets(rho, s, e) && 1 <= p.k <= 4 && Polys(s) && Polys(e)
  {
    NoiseIs(o, sigma, 0, p.eta1, s);
    NoiseIs(o, sigma, p.k, p.eta1, e);
    var g := o.sha3_512(d + [p.k]);
    assert g[..32] == rho && g[32..] == sigma;
    hide AreNoise;
  }

  lemma RowIs(o: Oracle, rho: seq<uint8>, i: nat, row: Vec)
    requires i < 256 && |row| <= 4 && forall j :: 0 <= j < |row| ==> row[j] == o.uniform(rho + [j, i])
    ensures row == o.Row(rho, i, |row|) && Polys(row)
  {}

  lemma BytesAre(o: Oracle, x: Secrets)
    requires 1 <= |x.s| == |x.e| <= 4 && Polys(x.s) && Polys(x.e)
    ensures PublicBytes(o, x) == EncodeVec(Plain(12), THatVec(o, x.rho, x.s, x.e)) + x.rho
    ensures SecretBytes(x) == EncodeVec(Plain(12), SHatVec(x.s))
  {
    hide THatVec, SHatVec, EncodeVec;
  }

  lemma PublicRows(o: Oracle, rho: seq<uint8>, s: Vec, e: Vec, i: nat)
    requires 1 <= |s| == |e| <= 4 && Polys(s) && Polys(e) && i < |s|
    ensures |THatVec(o, rho, s, e)| == |s| && THatVec(o, rho, s, e)[i] == P.HatSeq(TPoly(o, rho, s, e, i))
    ensures forall j :: 0 <= j < |s| ==> |THatVec(o, rho, s, e)[j]| == 256
  {
    hide P.HatSeq, TPoly;
  }

  lemma SecretRows(s: Vec, i: nat)
    requires Polys(s) && i < |s|
    ensures |SHatVec(s)| == |s| && |s[i]| == 256 && SHatVec(s)[i] == P.HatSeq(s[i])
    ensures forall j :: 0 <= j < |s| ==> |SHatVec(s)[j]| == 256
  {
    hide P.HatSeq;
  }

  /** The coins seed r with nonces 0 .. k - 1, e1 with nonces k .. 2k - 1 and e2 with nonce 2k. */
  ghost predicate Seeds(o: Oracle, p: Params, coins: seq<uint8>, c: Coins)
  {
    && |c.r| == |c.e1| == p.k
    && AreNoise(o, coins, 0, p.eta1, c.r) && AreNoise(o, coins, p.k, p.eta2, c.e1) && c.e2 == o.noise(coins, 2 * p.k, p.eta2)
  }

  /** Entry (j, i) of A is sampled from rho, i, j. */
  ghost predicate Sampled(o: Oracle, rho: seq<uint8>, i: nat, column: Vec)
  {
    i < 256 && |column| <= 4 && forall j :: 0 <= j < |column| ==> column[j] == o.uniform(rho + [i, j])
  }

  /**
   A ciphertext. Row i of the first part is row i of A^T r + e1, compressed to du bits; the second part is
   t r + e2 + message, compressed to dv bits. The key holds k rows of t, then rho.
   */
  lemma CiphertextMeans(o: Oracle, p: Params, pk: seq<uint8>, msg: seq<uint8>, coins: seq<uint8>, that: Vec, column: Vec, c: Coins,
                        i: nat) returns (u: seq<int>, v: seq<int>)
    requires Valid(p) && |pk| == PublicLength(p.k) && |that| == |column| == |c.r| == |c.e1| == p.k && i < p.k
    requires ReadFrom(Plain(12), pk, that) && Sampled(o, Rest(Plain(12), pk, p.k), i, column) && Seeds(o, p, coins, c)
    ensures Poly16(u) && Part(Plain(p.du), Encrypt(o, p, pk, msg, coins), i) == Encode(Plain(p.du), CompressAll(u, p.du))
    ensures Poly16(v) && Rest(Plain(p.du), Encrypt(o, p, pk, msg, coins), p.k) == Encode(Plain(p.dv), CompressAll(v, p.dv))
    ensures Residue(u, USum(column, c.r, c.e1, i)) && Residue(v, VSum(that, c.r, c.e2, msg))
  {
    hide *;
    var rho := KeyRho(p.k, pk);
    KeyIs(p.k, pk, that);
    CoinsAre(o, p, coins, c);
    ColumnIs(o, rho, i, column);
    KemCorrect.EncryptIs(o, p, pk, msg, coins);
    UIs16(o, rho, c.r, c.e1);
    VIs16(that, c.r, c.e2, msg);
    var us := UVec(o, rho, c.r, c.e1);
    v := VPoly(that, c.r, c.e2, msg);
    MlKem.CipherIs(o, p, rho, that, msg, c, us, v);
    u := UIs(o, rho, c.r, c.e1, i, column);
    CompressedAt(us, p.du, i);
    PartsOfBytes(Plain(p.du), CompressVec(us, p.du), Encode(Plain(p.dv), CompressAll(v, p.dv)), i);
    VIs(that, c.r, c.e2, msg);
  }

  /** u are the canonical residues of s. */
  ghost predicate Residue(u: seq<int>, s: seq<int>)
  {
    |u| == |s| && forall n :: 0 <= n < |u| ==> u[n] == s[n] % 3329
  }

  /** Row i of A^T r + e1, the column being that of A. */
  ghost function USum(column: Vec, r: Vec, e1: Vec, i: nat): (u: seq<int>)
    requires i < |e1| && 1 <= |column| <= |r|
  {
    if Polys(column) && Polys(r) && |e1[i]| == 256 then Add(P.RowProduct(column, r, |column|), e1[i]) else []
  }

  ghost function VSum(that: Vec, r: Vec, e2: seq<int>, msg: seq<uint8>): (v: seq<int>)
    requires 1 <= |that| <= |r|
  {
    if Polys(that) && Polys(r) && |e2| == 256 then Add(Add(P.RowProduct(that, r, |that|), e2), MessagePoly(msg)) else []
  }

  lemma KeyIs(k: nat, pk: seq<uint8>, that: Vec)
    requires |pk| == PublicLength(k) && |that| == k && ReadFrom(Plain(12), pk, that)
    ensures KeyVec(k, pk) == that && KeyRho(k, pk) == Rest(Plain(12), pk, k)
  {
    hide ReadFrom, DecodeVec, VecLength;
    VecReadFrom(Plain(12), pk, that);
  }

  lemma CoinsAre(o: Oracle, p: Params, coins: seq<uint8>, c: Coins)
    requires Valid(p) && Seeds(o, p, coins, c)
    ensures CoinsOf(o, p, coins) == c && AreCoins(c, p.k) && 1 <= p.k <= 4 && Polys(c.r) && Polys(c.e1) && |c.e2| == 256
  {
    NoiseIs(o, coins, 0, p.eta1, c.r);
    NoiseIs(o, coins, p.k, p.eta2, c.e1);
    hide AreNoise;
  }

  lemma ColumnIs(o: Oracle, rho: seq<uint8>, i: nat, column: Vec)
    requires Sampled(o, rho, i, column)
    ensures i < 256 && |column| <= 4 && column == o.Column(rho, i, |column|) && Polys(column)
  {}

  lemma VIs16(that: Vec, r: Vec, e2: seq<int>, msg: seq<uint8>)
    requires 1 <= |that| == |r| && Polys(that) && Polys(r) && |e2| == 256
    ensures Poly16(VPoly(that, r, e2, msg))
  {
    hide VPoly;
    CanonicalIs16(VPoly(that, r, e2, msg));
  }

  lemma UIs(o: Oracle, rho: seq<uint8>, r: Vec, e1: Vec, i: nat, column: Vec) returns (u: seq<int>)
    requires 1 <= |r| == |e1| <= 4 && Polys(r) && Polys(e1) && i < |r| && column == o.Column(rho, i, |r|)
    ensures |UVec(o, rho, r, e1)| == |r| && u == UVec(o, rho, r, e1)[i] && Residue(u, USum(column, r, e1, i)) && Poly16(u)
  {
    hide *;
    UAt(o, rho, r, e1, i);
    u := UPoly(o, rho, r, e1, i);
    URow(o, rho, r, e1, i, column);
    CanonicalIs16(u);
  }

  lemma UAt(o: Oracle, rho: seq<uint8>, r: Vec, e1: Vec, i: nat)
    requires 1 <= |r| == |e1| <= 4 && Polys(r) && Polys(e1) && i < |r|
    ensures |UVec(o, rho, r, e1)| == |r| && UVec(o, rho, r, e1)[i] == UPoly(o, rho, r, e1, i)
  {
    hide UPoly;
  }

  lemma URow(o: Oracle, rho: seq<uint8>, r: Vec, e1: Vec, i: nat, column: Vec)
    requires 1 <= |r| == |e1| <= 4 && Polys(r) && Polys(e1) && i < |r| && column == o.Column(rho, i, |r|)
    ensures Residue(UPoly(o, rho, r, e1, i), USum(column, r, e1, i))
  {
    ColumnSize(o, rho, i, |r|);
    var s := Add(P.RowProduct(column, r, |r|), e1[i]);
    assert UPoly(o, rho, r, e1, i) == Canonical(s) && USum(column, r, e1, i) == s;
    hide *;
    CanonicalResidue(s);
  }

  lemma ColumnSize(o: Oracle, rho: seq<uint8>, i: uint8, k: nat)
    requires k <= 4
    ensures |o.Column(rho, i, k)| == k && Polys(o.Column(rho, i, k))
  {}

  lemma CanonicalResidue(s: seq<int>)
    ensures Residue(Canonical(s), s)
  {}

  lemma VIs(that: Vec, r: Vec, e2: seq<int>, msg: seq<uint8>)
    requires 1 <= |that| == |r| && Polys(that) && Polys(r) && |e2| == 256
    ensures Residue(VPoly(that, r, e2, msg), VSum(that, r, e2, msg))
  {
    hide P.RowProduct, Add, MessagePoly;
  }

  lemma CompressedAt(us: Vec, d: nat, i: nat)
    requires Polys16(us) && i < |us|
    ensures Poly16(us[i]) && |CompressVec(us, d)| == |us| && CompressVec(us, d)[i] == CompressAll(us[i], d)
    ensures forall j :: 0 <= j < |us| ==> |CompressVec(us, d)[j]| == 256
  {
    hide CompressAll;
  }

  /** Decryption reads the rows of u and then v, and rounds v - s u, where the key holds the rows of the transform of s. */
  lemma DecryptionMeans(p: Params, sk: seq<uint8>, ct: seq<uint8>, shat: Vec, packed: Vec, u: Vec, v: seq<int>)
    returns (w: seq<int>)
    requires Valid(p) && |sk| == VectorBytes(p.k) && |ct| == CiphertextLength(p) && |shat| == |packed| == |u| == p.k
    requires ReadFrom(Plain(12), sk, shat) && ReadFrom(Plain(p.du), ct, packed)
    requires forall i :: 0 <= i < p.k ==> u[i] == DecompressAll(packed[i], p.du)
    requires v == DecompressAll(Decode(Plain(p.dv), Rest(Plain(p.du), ct, p.k)), p.dv)
    ensures Poly16(w) && Decrypt(p, sk, ct) == Encode(Plain(1), CompressAll(w, 1)) && Residue(w, WSum(v, shat, u))
  {
    hide *;
    LengthsAre(p);
    VecReadFrom(Plain(12), sk, shat);
    VecReadFrom(Plain(p.du), ct, packed);
    SecretIs(p, sk, shat);
    UPrimeIs(p, ct, packed, u);
    VPrimeIs(p, ct, v);
    w := WPoly(p, sk, ct);
    KemCorrect.DecryptIs(p, sk, ct);
    KemCorrect.WPolyIs(p, sk, ct, u, v, shat);
    WIs(w, v, shat, u);
  }

  ghost function WSum(v: seq<int>, shat: Vec, u: Vec): (w: seq<int>)
    requires 1 <= |shat| <= |u|
  {
    if Polys(shat) && Polys(u) && |v| == 256 then Sub(v, P.RowProduct(shat, u, |shat|)) else []
  }

  lemma LengthsAre(p: Params)
    requires Valid(p)
    ensures 1 <= p.k <= 4 && VectorBytes(p.k) == VecLength(Plain(12), p.k)
    ensures CiphertextLength(p) == VecLength(Plain(p.du), p.k) + 32 * p.dv
  {}

  lemma SecretIs(p: Params, sk: seq<uint8>, shat: Vec)
    requires |sk| == VectorBytes(p.k) == VecLength(Plain(12), p.k) && DecodeVec(Plain(12), sk[..VecLength(Plain(12), p.k)], p.k) == shat
    ensures SHat(p, sk) == shat
  {
    hide DecodeVec, VecLength;
    assert sk[..|sk|] == sk;
  }

  lemma UPrimeIs(p: Params, ct: seq<uint8>, packed: Vec, u: Vec)
    requires |ct| == CiphertextLength(p) && VecLength(Plain(p.du), p.k) <= |ct| && |u| == |packed|
    requires DecodeVec(Plain(p.du), ct[..VecLength(Plain(p.du), p.k)], p.k) == packed
    requires forall i :: 0 <= i < |packed| ==> u[i] == DecompressAll(packed[i], p.du)
    ensures UPrime(p, ct) == u
  {
    hide DecodeVec, VecLength, DecompressAll;
    assert DecompressVec(packed, p.du) == u;
  }

  lemma VPrimeIs(p: Params, ct: seq<uint8>, v: seq<int>)
    requires |ct| == CiphertextLength(p) && 0 <= 32 * p.du * p.k == VecLength(Plain(p.du), p.k) <= |ct|
    requires v == DecompressAll(Decode(Plain(p.dv), Rest(Plain(p.du), ct, p.k)), p.dv)
    ensures VPrime(p, ct) == v
  {
    hide Decode, DecompressAll, VecLength;
  }

  lemma WIs(w: seq<int>, v: seq<int>, shat: Vec, u: Vec)
    requires 1 <= |shat| == |u| && Polys(shat) && Polys(u) && |v| == 256
    requires w == Canonical(Sub(v, P.RowProduct(shat, u, |shat|)))
    ensures Residue(w, WSum(v, shat, u))
  {
    hide P.RowProduct, Sub;
  }
}
