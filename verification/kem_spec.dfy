/**
 ML-KEM's public-key encryption as mathematics: key generation, encryption and decryption over the ring, and the
 exact noise condition under which decryption returns the message.
 */
module KemSpec {
  import opened MachineInts
  import opened Vectors
  import opened Congruence
  import opened PolyRing
  import opened RingVectors
  import opened BitPacking
  import opened PolyCoding
  import opened KemConstants
  import opened KemReduce
  import opened KemPoly
  import opened KemCompress
  import opened KemPacking
  import opened KemModel
  import P = KemProducts

  ghost function Canonical(s: seq<int>): (r: seq<int>)
    ensures |r| == |s| && InRange(r, 0, Q)
  {
    seq(|s|, i requires 0 <= i < |s| => s[i] % Q)
  }

  // ---------- Keys ----------

  /** Row i of A s + e. */
  ghost function TPoly(o: Oracle, rho: seq<uint8>, s: Vec, e: Vec, i: nat): (r: seq<int>)
    requires 1 <= |s| == |e| <= 4 && Polys(s) && Polys(e) && i < |s|
    ensures |r| == 256
  {
    Add(P.RowProduct(o.Row(rho, i, |s|), s, |s|), e[i])
  }

  /** The public vector in the transform domain. */
  ghost function THatVec(o: Oracle, rho: seq<uint8>, s: Vec, e: Vec): (r: Vec)
    requires 1 <= |s| == |e| <= 4 && Polys(s) && Polys(e)
    ensures |r| == |s|
  {
    seq(|s|, i requires 0 <= i < |s| => P.HatSeq(TPoly(o, rho, s, e, i)))
  }

  ghost function SHatVec(s: Vec): (r: Vec)
    requires Polys(s)
    ensures |r| == |s|
  {
    seq(|s|, i requires 0 <= i < |s| => P.HatSeq(s[i]))
  }

  /** The seeds and vectors behind a key. */
  datatype Secrets = Secrets(rho: seq<uint8>, s: Vec, e: Vec)

  ghost function SecretsOf(o: Oracle, p: Params, d: seq<uint8>): (r: Secrets)
    requires Valid(p)
    ensures |r.rho| == 32 && |r.s| == |r.e| == p.k && Polys(r.s) && Polys(r.e)
  {
    var g := o.sha3_512(d + [p.k]);
    Secrets(g[..32], o.NoiseVec(g[32..], 0, p.k, p.eta1), o.NoiseVec(g[32..], p.k, p.k, p.eta1))
  }

  ghost function PublicBytes(o: Oracle, x: Secrets): seq<uint8>
    requires 1 <= |x.s| == |x.e| <= 4 && Polys(x.s) && Polys(x.e)
  {
    EncodeVec(Plain(12), THatVec(o, x.rho, x.s, x.e)) + x.rho
  }

  ghost function SecretBytes(x: Secrets): seq<uint8>
    requires Polys(x.s)
  {
    EncodeVec(Plain(12), SHatVec(x.s))
  }

  // ---------- Encryption ----------

  function VectorBytes(k: nat): nat
  {
    VecLength(Plain(12), k)
  }

  function PublicLength(k: nat): nat
  {
    VectorBytes(k) + 32
  }

  ghost function UPoly(o: Oracle, rho: seq<uint8>, r: Vec, e1: Vec, i: nat): (u: seq<int>)
    requires 1 <= |r| == |e1| <= 4 && Polys(r) && Polys(e1) && i < |r|
    ensures |u| == 256 && InRange(u, 0, Q)
  {
    Canonical(Add(P.RowProduct(o.Column(rho, i, |r|), r, |r|), e1[i]))
  }

  ghost function UVec(o: Oracle, rho: seq<uint8>, r: Vec, e1: Vec): (u: Vec)
    requires 1 <= |r| == |e1| <= 4 && Polys(r) && Polys(e1)
    ensures |u| == |r| && Polys(u)
  {
    seq(|r|, i requires 0 <= i < |r| => UPoly(o, rho, r, e1, i))
  }

  ghost function VPoly(that: Vec, r: Vec, e2: seq<int>, msg: seq<uint8>): (v: seq<int>)
    requires 1 <= |that| == |r| && Polys(that) && Polys(r) && |e2| == 256
    ensures |v| == 256 && InRange(v, 0, Q)
  {
    Canonical(Add(Add(P.RowProduct(that, r, |r|), e2), MessagePoly(msg)))
  }

  /** The randomness of one encryption. */
  datatype Coins = Coins(r: Vec, e1: Vec, e2: seq<int>)

  ghost function CoinsOf(o: Oracle, p: Params, coins: seq<uint8>): (c: Coins)
    requires Valid(p)
    ensures |c.r| == |c.e1| == p.k && Polys(c.r) && Polys(c.e1) && |c.e2| == 256
  {
    Coins(o.NoiseVec(coins, 0, p.k, p.eta1), o.NoiseVec(coins, p.k, p.k, p.eta2), o.noise(coins, 2 * p.k, p.eta2))
  }

  ghost predicate Polys16(u: Vec)
  {
    forall i :: 0 <= i < |u| ==> Poly16(u[i])
  }

  /** Compressed rows. */
  ghost function CompressVec(u: Vec, d: nat): (r: Vec)
    requires Polys16(u)
    ensures |r| == |u| && forall i :: 0 <= i < |r| ==> |r[i]| == 256
  {
    seq(|u|, i requires 0 <= i < |u| => CompressAll(u[i], d))
  }

  function DecompressVec(ts: Vec, d: nat): (r: Vec)
    ensures |r| == |ts| && forall i :: 0 <= i < |r| ==> |r[i]| == |ts[i]|
  {
    seq(|ts|, i requires 0 <= i < |ts| => DecompressAll(ts[i], d))
  }

  lemma UIs16(o: Oracle, rho: seq<uint8>, r: Vec, e1: Vec)
    requires 1 <= |r| == |e1| <= 4 && Polys(r) && Polys(e1)
    ensures Polys16(UVec(o, rho, r, e1))
  {
    hide UPoly;
  }

  function CiphertextLength(p: Params): nat
  {
    VecLength(Plain(p.du), p.k) + 32 * p.dv
  }

  lemma {:induction false} DecodedPolys(c: Coding, buf: seq<uint8>, n: nat)
    requires |buf| == VecLength(c, n)
    ensures Polys(DecodeVec(c, buf, n))
    decreases n
  {
    if n > 0 {
      DecodedPolys(c, buf[..VecLength(c, n - 1)], n - 1);
    }
  }

  /** The public vector of an encoded key. */
  function KeyVec(k: nat, pk: seq<uint8>): (t: Vec)
    requires |pk| == PublicLength(k)
    ensures |t| == k && Polys(t)
  {
    DecodedPolys(Plain(12), pk[..VectorBytes(k)], k);
    DecodeVec(Plain(12), pk[..VectorBytes(k)], k)
  }

  function KeyRho(k: nat, pk: seq<uint8>): (rho: seq<uint8>)
    requires |pk| == PublicLength(k)
    ensures |rho| == 32
  {
    pk[VectorBytes(k)..]
  }

  ghost predicate AreCoins(c: Coins, k: nat)
  {
    1 <= k <= 4 && |c.r| == |c.e1| == k && Polys(c.r) && Polys(c.e1) && |c.e2| == 256
  }

  /** Both parts of a ciphertext. */
  ghost function CipherBytes(u: Vec, v: seq<int>, du: nat, dv: nat): (ct: seq<uint8>)
    requires Polys16(u) && Poly16(v)
  {
    EncodeVec(Plain(du), CompressVec(u, du)) + Encode(Plain(dv), CompressAll(v, dv))
  }

  ghost function EncryptWith(o: Oracle, p: Params, rho: seq<uint8>, that: Vec, msg: seq<uint8>, c: Coins): (ct: seq<uint8>)
    requires AreCoins(c, p.k) && |that| == p.k && Polys(that)
  {
    hide UVec, VPoly, CompressVec, CompressAll;
    UIs16(o, rho, c.r, c.e1);
    CipherBytes(UVec(o, rho, c.r, c.e1), VPoly(that, c.r, c.e2, msg), p.du, p.dv)
  }

  ghost function Encrypt(o: Oracle, p: Params, pk: seq<uint8>, msg: seq<uint8>, coins: seq<uint8>): (ct: seq<uint8>)
    requires Valid(p) && |pk| == PublicLength(p.k)
  {
    hide EncryptWith;
    EncryptWith(o, p, KeyRho(p.k, pk), KeyVec(p.k, pk), msg, CoinsOf(o, p, coins))
  }

  // ---------- Decryption ----------

  ghost function UPrime(p: Params, ct: seq<uint8>): (u: Vec)
    requires |ct| == CiphertextLength(p)
    ensures |u| == p.k && Polys(u)
  {
    var at := VecLength(Plain(p.du), p.k);
    DecodedPolys(Plain(p.du), ct[..at], p.k);
    DecompressVec(DecodeVec(Plain(p.du), ct[..at], p.k), p.du)
  }

  ghost function VPrime(p: Params, ct: seq<uint8>): (v: seq<int>)
    requires |ct| == CiphertextLength(p)
    ensures |v| == 256
  {
    DecompressAll(Decode(Plain(p.dv), ct[VecLength(Plain(p.du), p.k)..]), p.dv)
  }

  ghost function SHat(p: Params, sk: seq<uint8>): (s: Vec)
    requires |sk| == VectorBytes(p.k)
    ensures |s| == p.k && Polys(s)
  {
    DecodedPolys(Plain(12), sk, p.k);
    DecodeVec(Plain(12), sk, p.k)
  }

  /** v' - s u'. */
  ghost function WPoly(p: Params, sk: seq<uint8>, ct: seq<uint8>): (w: seq<int>)
    requires Valid(p) && |ct| == CiphertextLength(p) && |sk| == VectorBytes(p.k)
    ensures |w| == 256 && InRange(w, 0, Q)
  {
    Canonical(Sub(VPrime(p, ct), P.RowProduct(SHat(p, sk), UPrime(p, ct), p.k)))
  }

  ghost function Decrypt(p: Params, sk: seq<uint8>, ct: seq<uint8>): (msg: seq<uint8>)
    requires Valid(p) && |ct| == CiphertextLength(p) && |sk| == VectorBytes(p.k)
  {
    hide *;
    var w := WPoly(p, sk, ct);
    CanonicalIs16(w);
    Encode(Plain(1), CompressAll(w, 1))
  }

  lemma CanonicalIs16(w: seq<int>)
    requires |w| == 256 && InRange(w, 0, Q)
    ensures Poly16(w) && Width(1)
  {}
}
