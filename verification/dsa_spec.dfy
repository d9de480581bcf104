/**
 ML-DSA as mathematics: key generation, one signing attempt and verification over the ring, with canonical
 residues, remainders and no machine arithmetic. The routines are proved to compute exactly this.
 */
module DsaSpec {
  import opened MachineInts
  import opened Vectors
  import opened Congruence
  import opened PolyRing
  import opened BitPacking
  import opened PolyCoding
  import opened DsaConstants
  import opened DsaReduce
  import opened DsaPoly
  import opened DsaRounding
  import opened DsaModel
  import opened DsaPacking
  import opened DsaHint
  import opened DsaProducts

  /** The canonical residues of a polynomial. */
  ghost function Canonical(s: seq<int>): (r: seq<int>)
    ensures |r| == |s| && InRange(r, 0, Q)
  {
    seq(|s|, i requires 0 <= i < |s| => s[i] % Q)
  }

  /** The centred residues of a polynomial. */
  ghost function CentredAll(s: seq<int>): (r: seq<int>)
    ensures |r| == |s|
  {
    seq(|s|, i requires 0 <= i < |s| => Centred(s[i]))
  }

  ghost predicate RowBelow(s: seq<int>, bound: int)
  {
    forall i :: 0 <= i < |s| ==> -bound < s[i] < bound
  }

  ghost predicate AllBelow(v: Vec, bound: int)
  {
    forall i :: 0 <= i < |v| ==> RowBelow(v[i], bound)
  }

  // ---------- Keys ----------

  ghost function T1Row(t: seq<int>): (r: seq<int>)
    requires |t| == 256 && InRange(t, 0, Q)
    ensures |r| == 256
  {
    seq(256, i requires 0 <= i < 256 => Power2Round(t[i]).0)
  }

  ghost function T0Row(t: seq<int>): (r: seq<int>)
    requires |t| == 256 && InRange(t, 0, Q)
    ensures |r| == 256
  {
    seq(256, i requires 0 <= i < 256 => Power2Round(t[i]).1)
  }

  /** Row i of A s1 + s2. */
  ghost function TRow(o: Oracle, rho: seq<uint8>, s1: Vec, s2: Vec, i: nat): (r: seq<int>)
    requires |s1| >= 1 && Polys(s1) && Polys(s2) && i < |s2|
    ensures |r| == 256 && InRange(r, 0, Q)
  {
    Canonical(Add(MatrixTimes(o, rho, i, s1), s2[i]))
  }

  ghost function T1Vec(o: Oracle, rho: seq<uint8>, s1: Vec, s2: Vec): (r: Vec)
    requires |s1| >= 1 && Polys(s1) && Polys(s2)
    ensures |r| == |s2| && Polys(r)
  {
    seq(|s2|, i requires 0 <= i < |s2| => T1Row(TRow(o, rho, s1, s2, i)))
  }

  ghost function T0Vec(o: Oracle, rho: seq<uint8>, s1: Vec, s2: Vec): (r: Vec)
    requires |s1| >= 1 && Polys(s1) && Polys(s2)
    ensures |r| == |s2| && Polys(r)
  {
    seq(|s2|, i requires 0 <= i < |s2| => T0Row(TRow(o, rho, s1, s2, i)))
  }

  /** n small polynomials with consecutive nonces. */
  ghost function SecretVec(o: Oracle, rhoPrime: seq<uint8>, from: nat, n: nat, eta: int): (r: Vec)
    ensures |r| == n && Polys(r)
  {
    var r := seq(n, i requires 0 <= i < n => o.Eta(rhoPrime, from + i, eta));
    assert forall i :: 0 <= i < n ==> r[i] == o.Eta(rhoPrime, from + i, eta);
    r
  }

  function SeedStream(o: Oracle, p: Params, seed: seq<uint8>): (r: seq<uint8>)
    requires Valid(p)
    ensures |r| == 128
  {
    o.Shake256(seed + [p.k, p.l], 128)
  }

  /** The public key that a seed generates. */
  ghost function PublicKeyOf(o: Oracle, p: Params, seed: seq<uint8>): PublicKey
    requires Valid(p)
  {
    var buf := SeedStream(o, p, seed);
    var s1, s2 := SecretVec(o, buf[32..96], 0, p.l, p.eta), SecretVec(o, buf[32..96], p.l, p.k, p.eta);
    PublicKey(buf[..32], T1Vec(o, buf[..32], s1, s2))
  }

  /** The secret key that a seed generates. */
  ghost function SecretKeyOf(o: Oracle, p: Params, seed: seq<uint8>): SecretKey
    requires Valid(p)
  {
    var buf := SeedStream(o, p, seed);
    var s1, s2 := SecretVec(o, buf[32..96], 0, p.l, p.eta), SecretVec(o, buf[32..96], p.l, p.k, p.eta);
    SecretKey(buf[..32], o.Shake256(PublicKeyBytes(PublicKeyOf(o, p, seed)), 64), buf[96..], s1, s2,
              T0Vec(o, buf[..32], s1, s2))
  }

  // ---------- Signing ----------

  /** The hash of the message, with the empty context. */
  function MessageHash(o: Oracle, tr: seq<uint8>, msg: seq<uint8>): (mu: seq<uint8>)
    ensures |mu| == 64
  {
    o.Shake256(tr + [0, 0] + msg, 64)
  }

  function MaskSeed(o: Oracle, key: seq<uint8>, mu: seq<uint8>): (r: seq<uint8>)
    ensures |r| == 64
  {
    o.Shake256(key + seq(32, _ => 0) + mu, 64)
  }

  /** A masking polynomial; the nonce is a 16-bit counter. */
  function MaskRow(o: Oracle, gamma1: int, seed: seq<uint8>, nonce: nat): (r: seq<int>)
    ensures |r| == 256
  {
    var n := nonce % 0x1_0000;
    Decode(ZCoding(gamma1), o.Shake256(seed + [n % 0x100, n / 0x100], 32 * ZCoding(gamma1).bits))
  }

  /** The nonce of row i in attempt n, before it is cut to 16 bits. */
  function Nonce(n: nat, l: nat, i: nat): nat
  {
    n * l + i
  }

  /** The masking vector of attempt n, counted from 0. */
  ghost function MaskVec(o: Oracle, p: Params, seed: seq<uint8>, n: nat): (y: Vec)
    ensures |y| == p.l && Polys(y)
  {
    hide Nonce, MaskRow;
    var r := seq(p.l, i requires 0 <= i < p.l => MaskRow(o, p.gamma1, seed, Nonce(n, p.l, i)));
    assert forall i :: 0 <= i < p.l ==> r[i] == MaskRow(o, p.gamma1, seed, Nonce(n, p.l, i));
    r
  }

  /** The nonces of the first n attempts are pairwise distinct as 16-bit numbers. */
  ghost predicate NoncesFresh(l: nat, n: nat) {
    forall a: nat, i: nat, b: nat, j: nat ::
      a < n && i < l && b < n && j < l && Nonce(a, l, i) % 0x1_0000 == Nonce(b, l, j) % 0x1_0000 ==> a == b && i == j
  }

  /** They are so exactly as long as there are at most 65536 of them. */
  lemma NoncesFreshExactly(l: nat, n: nat)
    requires l > 0
    ensures NoncesFresh(l, n) <==> n * l <= 0x1_0000
  {
    hide Nonce;
    if n * l <= 0x1_0000 {
      forall a: nat, i: nat, b: nat, j: nat |
        a < n && i < l && b < n && j < l && Nonce(a, l, i) % 0x1_0000 == Nonce(b, l, j) % 0x1_0000
        ensures a == b && i == j
      {
        NonceBelow(a, n, l, i);
        NonceBelow(b, n, l, j);
        NonceSplits(a, l, i, b, j);
      }
    } else {
      var a, i := 0x1_0000 / l, 0x1_0000 % l;
      FirstRepeat(l, n, a, i);
    }
  }

  lemma NonceBelow(a: nat, n: nat, l: nat, i: nat)
    requires a < n && i < l
    ensures Nonce(a, l, i) < n * l
  {
    ProductLe(a + 1, n, l);
    assert (a + 1) * l == a * l + l;
  }

  lemma NonceSplits(a: nat, l: nat, i: nat, b: nat, j: nat)
    requires i < l && j < l && Nonce(a, l, i) == Nonce(b, l, j)
    ensures a == b && i == j
  {
    assert (a + 1) * l == a * l + l && (b + 1) * l == b * l + l;
    if a < b {
      ProductLe(a + 1, b, l);
    } else if b < a {
      ProductLe(b + 1, a, l);
    }
  }

  /** Nonce 65536 is nonce 0 again. */
  lemma FirstRepeat(l: nat, n: nat, a: nat, i: nat)
    requires l > 0 && n * l > 0x1_0000 && a == 0x1_0000 / l && i == 0x1_0000 % l
    ensures !NoncesFresh(l, n)
  {
    assert a * l + i == 0x1_0000;
    if n <= a {
      ProductLe(n, a, l);
    }
    assert Nonce(a, l, i) % 0x1_0000 == Nonce(0, l, 0) % 0x1_0000 == 0;
    assert a < n && i < l;
  }

  /** The smaller parameter set never repeats a nonce within the 10000 attempts of signing, the larger one does. */
  lemma NonceLimits()
    ensures NoncesFresh(ML_DSA_65.l, 10000)
    ensures NoncesFresh(ML_DSA_87.l, 9362) && !NoncesFresh(ML_DSA_87.l, 9363)
  {
    NoncesFreshExactly(5, 10000);
    NoncesFreshExactly(7, 9362);
    NoncesFreshExactly(7, 9363);
    hide NoncesFresh;
  }

  ghost function HighRow(w: seq<int>, gamma2: int): (r: seq<int>)
    requires Supported(gamma2)
    ensures |r| == |w|
  {
    seq(|w|, i requires 0 <= i < |w| => DecomposeSpec(w[i], gamma2).0)
  }

  ghost function LowRow(w: seq<int>, gamma2: int): (r: seq<int>)
    requires Supported(gamma2)
    ensures |r| == |w|
  {
    seq(|w|, i requires 0 <= i < |w| => DecomposeSpec(w[i], gamma2).1)
  }

  /** Row i of the commitment A y. */
  ghost function WRow(o: Oracle, rho: seq<uint8>, y: Vec, i: nat): (r: seq<int>)
    requires |y| >= 1 && Polys(y)
    ensures |r| == 256 && InRange(r, 0, Q)
  {
    Canonical(MatrixTimes(o, rho, i, y))
  }

  ghost function W1Vec(o: Oracle, rho: seq<uint8>, y: Vec, k: nat, gamma2: int): (r: Vec)
    requires |y| >= 1 && Polys(y) && Supported(gamma2)
    ensures |r| == k && Polys(r)
  {
    seq(k, i requires 0 <= i < k => HighRow(WRow(o, rho, y, i), gamma2))
  }

  /** The hash of the commitment. */
  ghost function CommitHash(o: Oracle, p: Params, mu: seq<uint8>, w1: Vec): (r: seq<uint8>)
    ensures |r| == p.ctilde
  {
    o.Shake256(mu + EncodeVec(W1Coding(p.gamma2), w1), p.ctilde)
  }

  ghost function ZVec(c: seq<int>, s1: Vec, y: Vec): (r: Vec)
    requires |c| == 256 && |s1| == |y| && Polys(s1) && Polys(y)
    ensures |r| == |y| && Polys(r)
  {
    seq(|y|, i requires 0 <= i < |y| => CentredAll(Add(Mul(c, s1[i], -1), y[i])))
  }

  /** LowBits(w) - c s2, centred. */
  ghost function R0Row(o: Oracle, gamma2: int, rho: seq<uint8>, y: Vec, c: seq<int>, s2: Vec, i: nat): (r: seq<int>)
    requires |c| == 256 && |y| >= 1 && Polys(y) && Polys(s2) && i < |s2| && Supported(gamma2)
    ensures |r| == 256
  {
    CentredAll(Sub(LowRow(WRow(o, rho, y, i), gamma2), Mul(c, s2[i], -1)))
  }

  ghost function R0Vec(o: Oracle, gamma2: int, rho: seq<uint8>, y: Vec, c: seq<int>, s2: Vec): (r: Vec)
    requires |c| == 256 && |y| >= 1 && Polys(y) && Polys(s2) && Supported(gamma2)
    ensures |r| == |s2| && Polys(r)
  {
    seq(|s2|, i requires 0 <= i < |s2| => R0Row(o, gamma2, rho, y, c, s2, i))
  }

  ghost function CT0Vec(c: seq<int>, t0: Vec): (r: Vec)
    requires |c| == 256 && Polys(t0)
    ensures |r| == |t0| && Polys(r)
  {
    seq(|t0|, i requires 0 <= i < |t0| => CentredAll(Mul(c, t0[i], -1)))
  }

  ghost function HintRowOf(r0: seq<int>, ct0: seq<int>, w1: seq<int>, gamma2: int): (r: seq<int>)
    requires |r0| == |ct0| == |w1| == 256
    ensures Binary(r)
  {
    seq(256, i requires 0 <= i < 256 => HintBit(r0[i] + ct0[i], w1[i], gamma2))
  }

  /** MakeHint on unbounded arguments. */
  ghost function HintBit(d: int, w1: int, gamma2: int): (h: int)
    ensures h == 0 || h == 1
  {
    if d > gamma2 || d < -gamma2 || (d == -gamma2 && w1 != 0) then 1 else 0
  }

  ghost function HintVec(r0: Vec, ct0: Vec, w1: Vec, gamma2: int): (r: Vec)
    requires |r0| == |ct0| == |w1| && Polys(r0) && Polys(ct0) && Polys(w1)
    ensures |r| == |r0| && BinaryVec(r)
  {
    seq(|r0|, i requires 0 <= i < |r0| => HintRowOf(r0[i], ct0[i], w1[i], gamma2))
  }

  /** Everything one signing attempt computes. */
  datatype Attempt = Attempt(y: Vec, w1: Vec, ctilde: seq<uint8>, c: seq<int>, z: Vec, r0: Vec, ct0: Vec, h: Vec)

  ghost predicate KeyShape(p: Params, key: SecretKey)
  {
    && |key.s1| == p.l && |key.s2| == |key.t0| == p.k && Polys(key.s1) && Polys(key.s2) && Polys(key.t0)
  }

  ghost function AttemptOf(o: Oracle, p: Params, key: SecretKey, mu: seq<uint8>, y: Vec): (a: Attempt)
    requires Valid(p) && KeyShape(p, key) && |y| == p.l && Polys(y)
    ensures |a.h| == p.k && BinaryVec(a.h) && |a.z| == p.l && |a.ctilde| == p.ctilde
  {
    var w1 := W1Vec(o, key.rho, y, p.k, p.gamma2);
    var ctilde := CommitHash(o, p, mu, w1);
    var c := o.challenge(ctilde, p.tau);
    var r0, ct0 := R0Vec(o, p.gamma2, key.rho, y, c, key.s2), CT0Vec(c, key.t0);
    Attempt(y, w1, ctilde, c, ZVec(c, key.s1, y), r0, ct0, HintVec(r0, ct0, w1, p.gamma2))
  }

  ghost function Beta(p: Params): int
  {
    p.tau * p.eta
  }

  /** The four acceptance conditions of the rejection loop. */
  ghost predicate Passes(p: Params, a: Attempt)
    requires Sized(a.h)
  {
    && AllBelow(a.z, p.gamma1 - Beta(p))
    && AllBelow(a.r0, p.gamma2 - Beta(p))
    && AllBelow(a.ct0, p.gamma2)
    && |Flat(a.h)| <= p.omega
  }

  /** The length of every signature. */
  function SignatureLength(p: Params): nat
  {
    p.ctilde + VecLength(ZCoding(p.gamma1), p.l) + p.omega + p.k
  }

  ghost function SignatureBytes(p: Params, a: Attempt): seq<int>
    requires Sized(a.h) && |Flat(a.h)| <= p.omega
  {
    a.ctilde + EncodeVec(ZCoding(p.gamma1), a.z) + HintBytes(a.h, p.omega)
  }

  /** Attempt n of signing a message. */
  ghost function SigningAttempt(o: Oracle, p: Params, key: SecretKey, msg: seq<uint8>, n: nat): (a: Attempt)
    requires Valid(p) && KeyShape(p, key)
    ensures |a.h| == p.k && BinaryVec(a.h) && |a.z| == p.l && |a.ctilde| == p.ctilde
  {
    var mu := MessageHash(o, key.tr, msg);
    AttemptOf(o, p, key, mu, MaskVec(o, p, MaskSeed(o, key.seed, mu), n))
  }

  // ---------- Verification ----------

  /** Row i of A z - c t1 2^13. */
  ghost function VerifyRow(o: Oracle, rho: seq<uint8>, z: Vec, c: seq<int>, t1: Vec, i: nat): (r: seq<int>)
    requires |z| >= 1 && Polys(z) && |c| == 256 && Polys(t1) && i < |t1|
    ensures |r| == 256 && InRange(r, 0, Q)
  {
    Canonical(Sub(MatrixTimes(o, rho, i, z), Mul(c, Scale(0x2000, t1[i]), -1)))
  }

  ghost function UseHintRow(w: seq<int>, h: seq<int>, gamma2: int): (r: seq<int>)
    requires |w| == |h| == 256 && Supported(gamma2)
    ensures |r| == 256
  {
    seq(256, i requires 0 <= i < 256 => UseHintSpec(w[i], h[i], gamma2))
  }

  /** The commitment as the verifier recovers it. */
  ghost function RecoveredVec(o: Oracle, rho: seq<uint8>, z: Vec, c: seq<int>, t1: Vec, h: Vec, gamma2: int): (r: Vec)
    requires |z| >= 1 && Polys(z) && |c| == 256 && Polys(t1) && |h| == |t1| && Sized(h) && Supported(gamma2)
    ensures |r| == |t1| && Polys(r)
  {
    seq(|t1|, i requires 0 <= i < |t1| => UseHintRow(VerifyRow(o, rho, z, c, t1, i), h[i], gamma2))
  }

  /** The bound verification uses, with eta derived from k. */
  function VerifyBeta(p: Params): int
  {
    p.tau * if p.k == 8 then 2 else 4
  }

  /** Where the hint starts in a signature. */
  function HintAt(p: Params): nat
  {
    p.ctilde + VecLength(ZCoding(p.gamma1), p.l)
  }

  function SignatureZ(p: Params, sig: seq<uint8>): (z: Vec)
    requires |sig| == SignatureLength(p)
    ensures |z| == p.l && Polys(z)
  {
    DecodedArePolys(ZCoding(p.gamma1), sig[p.ctilde..HintAt(p)], p.l);
    DecodeVec(ZCoding(p.gamma1), sig[p.ctilde..HintAt(p)], p.l)
  }

  function KeyT1(p: Params, pk: seq<uint8>): (t1: Vec)
    requires |pk| == PublicKeyLength(p.k)
    ensures |t1| == p.k && Polys(t1)
  {
    DecodedArePolys(T1Coding(), pk[32..], p.k);
    ReadPublicKey(pk, p.k).t1
  }

  /** The challenge seed matches the recovered commitment. */
  ghost predicate CommitmentMatches(o: Oracle, p: Params, pk: seq<uint8>, mu: seq<uint8>, ctilde: seq<uint8>, z: Vec, h: Vec)
    requires Valid(p) && |pk| == PublicKeyLength(p.k) && |z| == p.l && Polys(z) && |h| == p.k && Sized(h)
  {
    var c := o.challenge(ctilde, p.tau);
    ctilde == CommitHash(o, p, mu, RecoveredVec(o, pk[..32], z, c, KeyT1(p, pk), h, p.gamma2))
  }

  /** The signature is valid for the message under the public key. */
  ghost predicate ValidSignature(o: Oracle, p: Params, pk: seq<uint8>, msg: seq<uint8>, sig: seq<uint8>)
    requires Valid(p) && |pk| == PublicKeyLength(p.k)
  {
    && |sig| == SignatureLength(p)
    && AllBelow(SignatureZ(p, sig), p.gamma1 - VerifyBeta(p))
    && Accepted(sig[HintAt(p)..], p.k, p.omega)
    && CommitmentMatches(o, p, pk, MessageHash(o, o.Shake256(pk, 64), msg), sig[..p.ctilde], SignatureZ(p, sig),
                         DecodedHint(sig[HintAt(p)..], p.k, p.omega))
  }

  lemma {:induction false} DecodedArePolys(c: Coding, buf: seq<uint8>, n: nat)
    requires |buf| == VecLength(c, n)
    ensures Polys(DecodeVec(c, buf, n))
    decreases n
  {
    if n > 0 {
      DecodedArePolys(c, buf[..VecLength(c, n - 1)], n - 1);
    }
  }
}
