/**
 ML-DSA key generation, signing and verification. Polynomial vectors are local values; every polynomial operation
 runs on arrays with machine integers, so no step wraps, and every routine computes what DsaSpec says.
 */
module MlDsa {
  import opened MachineInts
  import opened Vectors
  import opened Congruence
  import opened PolyRing
  import opened BitPacking
  import opened PolyCoding
  import opened DsaConstants
  import opened DsaReduce
  import opened DsaPoly
  import opened DsaRounding
  import opened DsaModel
  import opened DsaPacking
  import opened DsaHint
  import opened DsaProducts
  import opened DsaSpec
  import DsaComplete
  import DsaNtt
  import NttTower

  datatype Option<T> = None | Some(value: T)

  datatype Status = Success | InvalidParam | RandomFailed | Internal | VerificationFailed

  // ---------- Residues ----------

  lemma IsCanonical(r: seq<int>, s: seq<int>)
    requires EqMod(r, s, Q) && InRange(r, 0, Q)
    ensures r == Canonical(s)
  {
    hide Cong;
    forall i | 0 <= i < |s|
      ensures r[i] == s[i] % Q
    {
      CongModEq(r[i], s[i], Q);
    }
  }

  lemma CentredOfCong(a: int, b: int)
    requires Cong(a, b, Q)
    ensures Centred(a) == Centred(b)
  {
    CongModEq(a, b, Q);
  }

  lemma CentredAllOfCong(r: seq<int>, s: seq<int>)
    requires EqMod(r, s, Q)
    ensures CentredAll(r) == CentredAll(s)
  {
    hide Cong, Centred;
    forall i | 0 <= i < |s|
      ensures Centred(r[i]) == Centred(s[i])
    {
      CentredOfCong(r[i], s[i]);
    }
  }

  /** The norm test decides the bound on the centred residues; coefficients that pass are centred already. */
  lemma NormDecides(r: seq<int>, s: seq<int>, bound: int)
    requires EqMod(r, s, Q) && InRange(r, -6283009, 6283009) && 0 <= bound <= 2097408
    ensures CentredBelow(r, bound) <==> RowBelow(CentredAll(s), bound)
    ensures CentredBelow(r, bound) ==> r == CentredAll(s)
  {
    CentredAllOfCong(r, s);
    hide Centred, EqMod;
    if CentredBelow(r, bound) {
      forall i | 0 <= i < |r|
        ensures r[i] == Centred(r[i])
      {
        PassingIsCentred(r[i], bound);
      }
    }
    assert forall i :: 0 <= i < |r| ==> CentredAll(r)[i] == Centred(r[i]);
  }

  // ---------- Vectors ----------

  /** Transform every polynomial of a vector. */
  method TransformVec(v: Vec) returns (r: Vec)
    requires VecInRange(v, -Q, Q)
    ensures AreHats(r, v)
  {
    hide IsHat, InRange;
    r := [];
    var i := 0;
    while i < |v|
      invariant 0 <= i <= |v| && |r| == i
      invariant forall j :: 0 <= j < i ==> IsHat(r[j], v[j])
    {
      var hat := Transform(v[i]);
      r := r + [hat];
      i := i + 1;
    }
  }

  /** Inverse transform of an accumulated row, made canonical. */
  method CanonicalRow(t: seq<int>, ghost o: Oracle, ghost rho: seq<uint8>, ghost i: nat, ghost v: Vec)
    returns (w: seq<int>)
    requires IsMatrixRow(t, o, rho, i, v)
    ensures |v| >= 1 && Polys(v) && w == WRow(o, rho, v, i)
  {
    hide *;
    var r := InverseRow(t, o, rho, i, v);
    ghost var s: seq<int> := r[..];
    FitsQ(s);
    PolyCaddQ(r);
    w := r[..];
    WRowIs(o, rho, v, i, s, w);
  }

  lemma FitsQ(s: seq<int>)
    requires |s| == 256 && Bounded(s, 0, 256, 4211198)
    ensures InRange(s, -Q, Q) && Q == 8380417
  {
    assert forall i :: 0 <= i < 256 ==> Small(s[i], 4211198);
  }

  /** The canonical residues of A v. */
  method MatrixVector(o: Oracle, rho: seq<uint8>, vhat: Vec, k: nat, ghost v: Vec) returns (w: Vec)
    requires 0 < k <= 8 && 0 < |v| <= 7 && AreHats(vhat, v)
    ensures Polys(v) && |w| == k && forall i :: 0 <= i < k ==> w[i] == WRow(o, rho, v, i)
  {
    hide *;
    HatsArePolys(vhat, v);
    HatsSameLength(vhat, v);
    var t := ExpandMatrixMul(o, rho, vhat, k, |vhat|, v);
    w := [];
    var i := 0;
    while i < k
      invariant 0 <= i <= k && |w| == i
      invariant forall j :: 0 <= j < i ==> w[j] == WRow(o, rho, v, j)
    {
      var row := CanonicalRow(t[i], o, rho, i, v);
      w := w + [row];
      i := i + 1;
    }
  }

  lemma HatsSameLength(vhat: Vec, v: Vec)
    requires AreHats(vhat, v)
    ensures |vhat| == |v|
  {}

  lemma WRowIs(o: Oracle, rho: seq<uint8>, v: Vec, i: nat, s: seq<int>, r: seq<int>)
    requires |v| >= 1 && Polys(v) && EqMod(s, MatrixTimes(o, rho, i, v), Q) && EqMod(r, s, Q) && InRange(r, 0, Q)
    ensures r == WRow(o, rho, v, i)
  {
    EqModTrans(r, s, MatrixTimes(o, rho, i, v), Q);
    IsCanonical(r, MatrixTimes(o, rho, i, v));
  }

  // ---------- Key generation ----------

  /** n small polynomials, with nonces from, from + 1, ... */
  method SampleVec(o: Oracle, rhoPrime: seq<uint8>, from: nat, n: nat, eta: int) returns (v: Vec)
    requires eta == 2 || eta == 4
    ensures v == SecretVec(o, rhoPrime, from, n, eta) && VecInRange(v, -eta, eta + 1)
  {
    hide Oracle.Eta;
    v := [];
    var i := 0;
    while i < n
      invariant 0 <= i <= n && |v| == i
      invariant forall j :: 0 <= j < i ==> v[j] == o.Eta(rhoPrime, from + j, eta)
    {
      v := v + [o.Eta(rhoPrime, from + i, eta)];
      i := i + 1;
    }
  }

  /** One row of t = A s1 + s2, canonical. */
  method PublicRow(t: seq<int>, s2: seq<int>, ghost o: Oracle, ghost rho: seq<uint8>, ghost i: nat, ghost s1: Vec,
                   ghost s2s: Vec) returns (r: seq<int>)
    requires IsMatrixRow(t, o, rho, i, s1) && i < |s2s| && s2s[i] == s2 && VecInRange(s2s, -4, 5)
    ensures |s1| >= 1 && Polys(s1) && Polys(s2s) && r == TRow(o, rho, s1, s2s, i)
  {
    VecWidens(s2s, -4, 5, -4, 5);
    assert |s2| == 256 && InRange(s2, -4, 5);
    hide *;
    var a := InverseRow(t, o, rho, i, s1);
    SmallFits(s2);
    var b := Scratch(s2);
    ghost var x: seq<int> := a[..];
    SumIsSmall(x, s2);
    PolyAdd(a, a, b);
    PolyCaddQ(a);
    r := a[..];
    TRowIs(o, rho, i, s1, s2s, x, r);
  }

  lemma SmallFits(s: seq<int>)
    requires InRange(s, -4, 5)
    ensures InRange(s, -0x8000_0000, 0x8000_0000)
  {}

  lemma SumIsSmall(x: seq<int>, s: seq<int>)
    requires |x| == |s| == 256 && Bounded(x, 0, 256, 4211198) && InRange(s, -4, 5)
    ensures InRange(Add(x, s), -0x8000_0000, 0x8000_0000) && InRange(Add(x, s), -Q, Q)
  {
    assert forall i :: 0 <= i < 256 ==> Small(x[i], 4211198);
  }

  lemma TRowIs(o: Oracle, rho: seq<uint8>, i: nat, s1: Vec, s2: Vec, x: seq<int>, r: seq<int>)
    requires |s1| >= 1 && Polys(s1) && Polys(s2) && i < |s2| && |x| == 256
    requires EqMod(x, MatrixTimes(o, rho, i, s1), Q) && EqMod(r, Add(x, s2[i]), Q) && InRange(r, 0, Q)
    ensures r == TRow(o, rho, s1, s2, i)
  {
    hide MatrixTimes, Cong;
    var m := MatrixTimes(o, rho, i, s1);
    EqModRefl(s2[i], Q);
    AddCong(x, m, s2[i], s2[i], Q);
    EqModTrans(r, Add(x, s2[i]), Add(m, s2[i]), Q);
    IsCanonical(r, Add(m, s2[i]));
  }

  /** Power2Round of every coefficient. */
  method Power2RoundRow(t: seq<int>) returns (t1: seq<int>, t0: seq<int>)
    requires |t| == 256 && InRange(t, 0, Q)
    ensures t1 == T1Row(t) && t0 == T0Row(t)
  {
    var high, low := new int32[256], new int32[256];
    var j := 0;
    while j < 256
      invariant 0 <= j <= 256
      invariant forall n :: 0 <= n < j ==> high[n] == Power2Round(t[n]).0 && low[n] == Power2Round(t[n]).1
    {
      var (a1, a0) := Power2Round(t[j]);
      high[j] := a1;
      low[j] := a0;
      j := j + 1;
    }
    t1, t0 := high[..], low[..];
  }

  /** t = A s1 + s2, split into its high and low parts. */
  method PublicVectors(o: Oracle, rho: seq<uint8>, s1hat: Vec, s1: Vec, s2: Vec) returns (t1: Vec, t0: Vec)
    requires 0 < |s1| <= 7 && 0 < |s2| <= 8 && AreHats(s1hat, s1) && VecInRange(s2, -4, 5)
    ensures Polys(s1) && Polys(s2) && t1 == T1Vec(o, rho, s1, s2) && t0 == T0Vec(o, rho, s1, s2)
  {
    hide *;
    VecWidens(s2, -4, 5, -4, 5);
    HatsArePolys(s1hat, s1);
    HatsSameLength(s1hat, s1);
    var t := ExpandMatrixMul(o, rho, s1hat, |s2|, |s1|, s1);
    t1, t0 := [], [];
    var i := 0;
    while i < |s2|
      invariant 0 <= i <= |s2| && |t1| == |t0| == i
      invariant forall j :: 0 <= j < i ==>
                  t1[j] == T1Row(TRow(o, rho, s1, s2, j)) && t0[j] == T0Row(TRow(o, rho, s1, s2, j))
    {
      var row := PublicRow(t[i], s2[i], o, rho, i, s1, s2);
      var high, low := Power2RoundRow(row);
      t1, t0 := t1 + [high], t0 + [low];
      i := i + 1;
    }
    TVecsAre(o, rho, s1, s2, t1, t0);
  }

  lemma TVecsAre(o: Oracle, rho: seq<uint8>, s1: Vec, s2: Vec, t1: Vec, t0: Vec)
    requires |s1| >= 1 && Polys(s1) && Polys(s2) && |t1| == |t0| == |s2|
    requires forall j :: 0 <= j < |s2| ==>
               t1[j] == T1Row(TRow(o, rho, s1, s2, j)) && t0[j] == T0Row(TRow(o, rho, s1, s2, j))
    ensures t1 == T1Vec(o, rho, s1, s2) && t0 == T0Vec(o, rho, s1, s2)
  {
    hide TRow, T1Row, T0Row;
  }

  /** The secret vectors and the public ones. */
  method ExpandSecrets(o: Oracle, p: Params, rho: seq<uint8>, rhoPrime: seq<uint8>)
    returns (s1: Vec, s2: Vec, t1: Vec, t0: Vec)
    requires Valid(p)
    ensures s1 == SecretVec(o, rhoPrime, 0, p.l, p.eta) && s2 == SecretVec(o, rhoPrime, p.l, p.k, p.eta)
    ensures |s1| >= 1 && t1 == T1Vec(o, rho, s1, s2) && t0 == T0Vec(o, rho, s1, s2)
  {
    hide *;
    ValidParts(p);
    s1 := SampleVec(o, rhoPrime, 0, p.l, p.eta);
    s2 := SampleVec(o, rhoPrime, p.l, p.k, p.eta);
    VecWidens(s1, -p.eta, p.eta + 1, -Q, Q);
    VecWidens(s2, -p.eta, p.eta + 1, -4, 5);
    var s1hat := TransformVec(s1);
    t1, t0 := PublicVectors(o, rho, s1hat, s1, s2);
  }

  /** The seed stream and the vectors of a key pair. */
  method GenerateVectors(o: Oracle, p: Params, seed: seq<uint8>)
    returns (rho: seq<uint8>, key: seq<uint8>, s1: Vec, s2: Vec, t1: Vec, t0: Vec)
    requires Valid(p)
    ensures PublicKeyOf(o, p, seed) == PublicKey(rho, t1)
    ensures SecretKeyOf(o, p, seed)
         == SecretKey(rho, o.Shake256(PublicKeyBytes(PublicKey(rho, t1)), 64), key, s1, s2, t0)
  {
    hide *;
    ValidParts(p);
    var buf := o.Shake256(seed + [p.k, p.l], 128);
    rho, key := buf[..32], buf[96..];
    s1, s2, t1, t0 := ExpandSecrets(o, p, rho, buf[32..96]);
    GeneratedParts(o, p, seed);
  }

  lemma ValidParts(p: Params)
    requires Valid(p)
    ensures 0 < p.k <= 8 && 0 < p.l <= 7 && (p.eta == 2 || p.eta == 4) && Q == 8380417
    ensures (p.gamma1 == 0x2_0000 || p.gamma1 == 0x8_0000) && Supported(p.gamma2)
    ensures 0 < p.tau <= 64 && 0 < p.omega < 0x100 && 0 < p.ctilde <= 64
    ensures p.gamma2 == 261888 || p.gamma2 == 95232
  {}

  ghost predicate KeysFit(o: Oracle, p: Params, seed: seq<uint8>)
    requires Valid(p)
  {
    && |PublicKeyBytes(PublicKeyOf(o, p, seed))| == PublicKeyLength(p.k)
    && |SecretKeyBytes(SecretKeyOf(o, p, seed), p.eta)| == SecretKeyLength(p.k, p.l, p.eta)
  }

  /** Key generation from 32 random bytes; a failing random source leaves both buffers as they were. */
  method KeyGen(o: Oracle, p: Params, pk: array<uint8>, sk: array<uint8>, random: Option<seq<uint8>>)
    returns (status: Status)
    requires Valid(p) && pk != sk
    requires PublicKeyLength(p.k) <= pk.Length && SecretKeyLength(p.k, p.l, p.eta) <= sk.Length
    modifies pk, sk
    ensures random == None ==> status == RandomFailed && pk[..] == old(pk[..]) && sk[..] == old(sk[..])
    ensures random.Some? ==>
              && status == Success
              && KeysFit(o, p, random.value)
              && pk[..] == Written(old(pk[..]), 0, PublicKeyBytes(PublicKeyOf(o, p, random.value)))
              && sk[..] == Written(old(sk[..]), 0, SecretKeyBytes(SecretKeyOf(o, p, random.value), p.eta))
  {
    hide *;
    if random == None {
      return RandomFailed;
    }
    var seed := random.value;
    ValidParts(p);
    DsaComplete.KeysAreValid(o, p, seed);
    var rho, key, s1, s2, t1, t0 := GenerateVectors(o, p, seed);
    PublicKeyRoundTrip(PublicKey(rho, t1), p.k);
    PackPk(pk, rho, t1, p.k);
    PrefixWritten(old(pk[..]), PublicKeyBytes(PublicKey(rho, t1)));
    var tr := o.Shake256(pk[..PublicKeyLength(p.k)], 64);
    PackSk(sk, SecretKey(rho, tr, key, s1, s2, t0), p.k, p.l, p.eta);
    MakeKeysFit(o, p, seed);
    status := Success;
  }

  lemma MakeKeysFit(o: Oracle, p: Params, seed: seq<uint8>)
    requires Valid(p)
    requires |PublicKeyBytes(PublicKeyOf(o, p, seed))| == PublicKeyLength(p.k)
    requires |SecretKeyBytes(SecretKeyOf(o, p, seed), p.eta)| == SecretKeyLength(p.k, p.l, p.eta)
    ensures KeysFit(o, p, seed)
  {}

  lemma GeneratedParts(o: Oracle, p: Params, seed: seq<uint8>)
    requires Valid(p)
    ensures var buf := o.Shake256(seed + [p.k, p.l], 128);
            var s1, s2 := SecretVec(o, buf[32..96], 0, p.l, p.eta), SecretVec(o, buf[32..96], p.l, p.k, p.eta);
            PublicKeyOf(o, p, seed) == PublicKey(buf[..32], T1Vec(o, buf[..32], s1, s2))
            && SecretKeyOf(o, p, seed) == SecretKey(buf[..32], o.Shake256(PublicKeyBytes(PublicKeyOf(o, p, seed)), 64),
                                                    buf[96..], s1, s2, T0Vec(o, buf[..32], s1, s2))
  {
    hide SecretVec, T1Vec, T0Vec, Oracle.Shake256, PublicKeyBytes;
  }

  // ---------- Signing: the commitment ----------

  /** One masking polynomial; m is the nonce of 16 bits. */
  method MaskingRow(o: Oracle, gamma1: int, seed: seq<uint8>, m: uint16, ghost nonce: nat) returns (y: seq<int>)
    requires m == nonce % 0x1_0000 && (gamma1 == 0x2_0000 || gamma1 == 0x8_0000)
    ensures y == MaskRow(o, gamma1, seed, nonce) && |y| == 256 && InRange(y, -0x8_0000, 0x8_0001)
  {
    hide Oracle.Shake256, Decode, InRange, MaskRow;
    var a := new int32[256];
    var buf := o.Shake256(seed + [m % 0x100, m / 0x100], 32 * ZCoding(gamma1).bits);
    UnpackZ(a, buf, gamma1);
    MaskRowIs(o, gamma1, seed, nonce, m, buf);
    y := a[..];
  }

  /** The masking vector of attempt n; the nonce is the 16-bit counter after n attempts. */
  method MaskingVector(o: Oracle, p: Params, seed: seq<uint8>, nonce: uint16, ghost n: nat) returns (y: Vec)
    requires Valid(p) && nonce == Counter(n, p.l)
    ensures y == MaskVec(o, p, seed, n) && VecInRange(y, -0x8_0000, 0x8_0001)
  {
    hide *;
    ValidParts(p);
    y := [];
    var i := 0;
    while i < p.l
      invariant 0 <= i <= p.l && |y| == i
      invariant forall j :: 0 <= j < i ==>
                  y[j] == MaskRow(o, p.gamma1, seed, Nonce(n, p.l, j)) && |y[j]| == 256 && InRange(y[j], -0x8_0000, 0x8_0001)
    {
      var m: uint16 := (nonce + i) % 0x1_0000;
      CounterIs(n, p.l, i, m);
      var row := MaskingRow(o, p.gamma1, seed, m, Nonce(n, p.l, i));
      y := y + [row];
      i := i + 1;
    }
    MaskVecIs(o, p, seed, n, y);
  }

  lemma MaskVecIs(o: Oracle, p: Params, seed: seq<uint8>, n: nat, y: Vec)
    requires |y| == p.l && forall j :: 0 <= j < p.l ==>
               y[j] == MaskRow(o, p.gamma1, seed, Nonce(n, p.l, j)) && |y[j]| == 256 && InRange(y[j], -0x8_0000, 0x8_0001)
    ensures y == MaskVec(o, p, seed, n) && VecInRange(y, -0x8_0000, 0x8_0001)
  {
    hide MaskRow, InRange;
  }

  /** The 16-bit counter after n attempts. */
  function Counter(n: nat, l: nat): nat
  {
    n * l % 0x1_0000
  }

  lemma CounterIs(n: nat, l: nat, i: nat, m: int)
    requires m == (Counter(n, l) + i) % 0x1_0000
    ensures m == Nonce(n, l, i) % 0x1_0000
  {
    WrapAdd(n * l, i);
  }

  lemma WrapAdd(a: int, i: int)
    ensures (a % 0x1_0000 + i) % 0x1_0000 == (a + i) % 0x1_0000
  {}

  lemma CounterStep(n: nat, l: nat)
    ensures (Counter(n, l) + l) % 0x1_0000 == Counter(n + 1, l)
    ensures Counter(0, l) == 0
  {
    WrapAdd(n * l, l);
    assert (n + 1) * l == n * l + l;
  }

  lemma MaskRowIs(o: Oracle, gamma1: int, seed: seq<uint8>, nonce: nat, m: int, buf: seq<uint8>)
    requires m == nonce % 0x1_0000 && (gamma1 == 0x2_0000 || gamma1 == 0x8_0000)
    requires buf == o.Shake256(seed + [m % 0x100, m / 0x100], 32 * ZCoding(gamma1).bits)
    ensures Decode(ZCoding(gamma1), buf) == MaskRow(o, gamma1, seed, nonce)
    ensures InRange(MaskRow(o, gamma1, seed, nonce), -0x8_0000, 0x8_0001)
  {
    hide Oracle.Shake256;
    ZRange(gamma1, buf);
    hide Decode;
  }

  /** Decoded z coefficients lie in [-gamma1 + 1, gamma1]. */
  lemma ZRange(gamma1: int, buf: seq<uint8>)
    requires gamma1 == 0x2_0000 || gamma1 == 0x8_0000
    ensures InRange(Decode(ZCoding(gamma1), buf), -gamma1 + 1, gamma1 + 1)
  {
    Powers();
    hide Pow, Unpack;
  }

  /** High and low part of every coefficient. */
  method DecomposeRow(w: seq<int>, gamma2: int32) returns (w1: seq<int>, w0: seq<int>)
    requires |w| == 256 && InRange(w, 0, Q) && Supported(gamma2)
    ensures w1 == HighRow(w, gamma2) && w0 == LowRow(w, gamma2)
  {
    hide Decompose, DecomposeSpec;
    var high, low := new int32[256], new int32[256];
    var j := 0;
    while j < 256
      invariant 0 <= j <= 256
      invariant forall n :: 0 <= n < j ==>
                  high[n] == DecomposeSpec(w[n], gamma2).0 && low[n] == DecomposeSpec(w[n], gamma2).1
    {
      assert 0 <= w[j] < Q;
      DecomposeMatchesSpec(w[j], 0, gamma2);
      SmallDigit(w[j], Q);
      var (a1, a0) := Decompose(w[j], 0, gamma2);
      high[j] := a1;
      low[j] := a0;
      j := j + 1;
    }
    w1, w0 := high[..], low[..];
  }

  lemma RowRanges(w: seq<int>, gamma2: int)
    requires |w| == 256 && InRange(w, 0, Q) && Supported(gamma2)
    ensures Fits(W1Coding(gamma2), HighRow(w, gamma2))
    ensures InRange(LowRow(w, gamma2), -gamma2, gamma2 + 1)
  {
    Powers();
    hide DecomposeSpec, Pow;
    var h, l := HighRow(w, gamma2), LowRow(w, gamma2);
    forall i | 0 <= i < 256
      ensures 0 <= h[i] < Buckets(gamma2) && -gamma2 <= l[i] <= gamma2
    {
      DecomposeRebuilds(w[i], gamma2);
    }
  }

  ghost function LowVec(o: Oracle, rho: seq<uint8>, y: Vec, k: nat, gamma2: int): (r: Vec)
    requires |y| >= 1 && Polys(y) && Supported(gamma2)
    ensures |r| == k
  {
    seq(k, i requires 0 <= i < k => LowRow(WRow(o, rho, y, i), gamma2))
  }

  /** The commitment A y, decomposed. */
  method Commit(o: Oracle, rho: seq<uint8>, y: Vec, k: nat, gamma2: int32) returns (w1: Vec, w0: Vec)
    requires 0 < k <= 8 && 0 < |y| <= 7 && VecInRange(y, -0x8_0000, 0x8_0001) && Supported(gamma2)
    ensures Polys(y) && w1 == W1Vec(o, rho, y, k, gamma2) && w0 == LowVec(o, rho, y, k, gamma2)
    ensures AllFit(W1Coding(gamma2), w1) && VecInRange(w0, -gamma2, gamma2 + 1)
  {
    hide *;
    MaskFits(y);
    var yhat := TransformVec(y);
    var w := MatrixVector(o, rho, yhat, k, y);
    w1, w0 := [], [];
    var i := 0;
    while i < k
      invariant 0 <= i <= k && |w1| == |w0| == i
      invariant forall j :: 0 <= j < i ==>
                  w1[j] == HighRow(WRow(o, rho, y, j), gamma2) && w0[j] == LowRow(WRow(o, rho, y, j), gamma2)
    {
      var high, low := DecomposeRow(w[i], gamma2);
      w1, w0 := w1 + [high], w0 + [low];
      i := i + 1;
    }
    CommitIs(o, rho, y, k, gamma2, w1, w0);
  }

  lemma MaskFits(y: Vec)
    requires VecInRange(y, -0x8_0000, 0x8_0001)
    ensures VecInRange(y, -Q, Q) && Polys(y)
  {}

  lemma CommitIs(o: Oracle, rho: seq<uint8>, y: Vec, k: nat, gamma2: int, w1: Vec, w0: Vec)
    requires |y| >= 1 && Polys(y) && Supported(gamma2) && |w1| == |w0| == k
    requires forall j :: 0 <= j < k ==>
               w1[j] == HighRow(WRow(o, rho, y, j), gamma2) && w0[j] == LowRow(WRow(o, rho, y, j), gamma2)
    ensures w1 == W1Vec(o, rho, y, k, gamma2) && w0 == LowVec(o, rho, y, k, gamma2)
    ensures AllFit(W1Coding(gamma2), w1) && VecInRange(w0, -gamma2, gamma2 + 1)
  {
    hide WRow, HighRow, LowRow, Fits, InRange;
    forall j | 0 <= j < k
      ensures Fits(W1Coding(gamma2), w1[j]) && |w0[j]| == 256 && InRange(w0[j], -gamma2, gamma2 + 1)
    {
      RowRanges(WRow(o, rho, y, j), gamma2);
    }
  }

  /** The challenge seed: the hash of mu and the encoded commitment. */
  method ChallengeSeed(o: Oracle, p: Params, mu: seq<uint8>, w1: Vec) returns (ctilde: seq<uint8>)
    requires AllFit(W1Coding(p.gamma2), w1)
    ensures ctilde == CommitHash(o, p, mu, w1)
  {
    hide Oracle.Shake256, Fits, Encode, W1Coding;
    var input := mu;
    assert w1[..0] == [];
    var i := 0;
    while i < |w1|
      invariant 0 <= i <= |w1| && input == mu + EncodeVec(W1Coding(p.gamma2), w1[..i])
    {
      var bytes := W1Bytes(w1[i], p.gamma2);
      assert w1[..i + 1][..i] == w1[..i];
      input := input + bytes;
      i := i + 1;
    }
    assert w1[..|w1|] == w1;
    ctilde := o.Shake256(input, p.ctilde);
  }

  // ---------- Signing: the response and its checks ----------

  /** Centred residues row by row. */
  ghost function CentredVec(v: Vec): (r: Vec)
    ensures |r| == |v|
  {
    seq(|v|, i requires 0 <= i < |v| => CentredAll(v[i]))
  }

  /** The rows r are small residues of the rows s. */
  ghost predicate Residues(r: Vec, s: Vec)
  {
    |r| == |s| && forall i :: 0 <= i < |r| ==> IsResidue(r[i], s[i])
  }

  ghost predicate IsResidue(r: seq<int>, s: seq<int>)
  {
    |r| == |s| == 256 && EqMod(r, s, Q) && InRange(r, -6283009, 6283009)
  }

  lemma RowDecides(r: seq<int>, s: seq<int>, bound: int)
    requires IsResidue(r, s) && 0 <= bound <= 2097408
    ensures |r| == 256 && InRange(r, -0x8000_0000, 0x7FC0_0000)
    ensures CentredBelow(r, bound) <==> RowBelow(CentredAll(s), bound)
    ensures CentredBelow(r, bound) ==> r == CentredAll(s)
  {
    NormDecides(r, s, bound);
  }

  /** The norm test of a vector, which stops at the first row that fails. */
  method VecNormFails(v: Vec, bound: int32, ghost s: Vec) returns (reject: bool)
    requires Residues(v, s) && 0 <= bound <= 2097408
    ensures reject <==> !AllBelow(CentredVec(s), bound)
    ensures !reject ==> v == CentredVec(s)
  {
    hide IsResidue, CentredAll, RowBelow, InRange, CentredBelow, Reduce32;
    var i := 0;
    while i < |v|
      invariant 0 <= i <= |v|
      invariant forall j :: 0 <= j < i ==> RowBelow(CentredAll(s[j]), bound) && v[j] == CentredAll(s[j])
    {
      RowDecides(v[i], s[i], bound);
      FitsInt32(v[i]);
      var a := Scratch(v[i]);
      var r := PolyChkNorm(a, bound);
      if r != 0 {
        assert !RowBelow(CentredVec(s)[i], bound);
        return true;
      }
      i := i + 1;
    }
    reject := false;
  }

  lemma FitsInt32(s: seq<int>)
    requires InRange(s, -0x8000_0000, 0x7FC0_0000)
    ensures InRange(s, -0x8000_0000, 0x8000_0000)
  {}

  /** c v plus a small polynomial, reduced. */
  method ProductPlus(chat: seq<int>, vhat: seq<int>, y: seq<int>, ghost c: seq<int>, ghost v: seq<int>) returns (r: seq<int>)
    requires IsHat(chat, c) && IsHat(vhat, v) && |y| == 256 && InRange(y, -0x8_0000, 0x8_0001)
    ensures |c| == |v| == 256 && IsResidue(r, Add(Mul(c, v, -1), y))
  {
    hide *;
    HatFits(chat, c);
    HatFits(vhat, v);
    var a := Product(chat, vhat, c, v);
    ghost var x: seq<int> := a[..];
    PlusFits(x, y);
    var b := Scratch(y);
    PolyAdd(a, a, b);
    PolyReduce(a);
    r := a[..];
    PlusIs(r, x, Mul(c, v, -1), y);
  }

  lemma PlusFits(x: seq<int>, y: seq<int>)
    requires |x| == |y| == 256 && Bounded(x, 0, 256, 4211198) && InRange(y, -0x8_0000, 0x8_0001)
    ensures InRange(y, -0x8000_0000, 0x8000_0000)
    ensures InRange(Add(x, y), -0x8000_0000, 0x8000_0000) && InRange(Add(x, y), -0x8000_0000, 0x7FC0_0000)
    ensures InRange(Sub(y, x), -0x8000_0000, 0x8000_0000) && InRange(Sub(y, x), -0x8000_0000, 0x7FC0_0000)
  {
    assert forall i :: 0 <= i < 256 ==> Small(x[i], 4211198);
  }

  lemma PlusIs(r: seq<int>, x: seq<int>, m: seq<int>, y: seq<int>)
    requires |x| == |m| == |y| == 256 && EqMod(x, m, Q)
    requires EqMod(r, Add(x, y), Q) && InRange(r, -6283009, 6283009)
    ensures IsResidue(r, Add(m, y))
  {
    EqModRefl(y, Q);
    AddCong(x, m, y, y, Q);
    EqModTrans(r, Add(x, y), Add(m, y), Q);
  }

  lemma MinusIs(r: seq<int>, x: seq<int>, m: seq<int>, y: seq<int>)
    requires |x| == |m| == |y| == 256 && EqMod(x, m, Q)
    requires EqMod(r, Sub(y, x), Q) && InRange(r, -6283009, 6283009)
    ensures IsResidue(r, Sub(y, m))
  {
    EqModRefl(y, Q);
    SubCong(y, y, x, m, Q);
    EqModTrans(r, Sub(y, x), Sub(y, m), Q);
  }

  /** A small polynomial minus c v, reduced. */
  method MinusProduct(chat: seq<int>, vhat: seq<int>, y: seq<int>, ghost c: seq<int>, ghost v: seq<int>) returns (r: seq<int>)
    requires IsHat(chat, c) && IsHat(vhat, v) && |y| == 256 && InRange(y, -0x8_0000, 0x8_0001)
    ensures |c| == |v| == 256 && IsResidue(r, Sub(y, Mul(c, v, -1)))
  {
    hide *;
    HatFits(chat, c);
    HatFits(vhat, v);
    var a := Product(chat, vhat, c, v);
    ghost var x: seq<int> := a[..];
    PlusFits(x, y);
    var b := Scratch(y);
    PolySub(b, b, a);
    PolyReduce(b);
    r := b[..];
    MinusIs(r, x, Mul(c, v, -1), y);
  }

  /** c v, reduced. */
  method ProductReduced(chat: seq<int>, vhat: seq<int>, ghost c: seq<int>, ghost v: seq<int>) returns (r: seq<int>)
    requires IsHat(chat, c) && IsHat(vhat, v)
    ensures |c| == |v| == 256 && IsResidue(r, Mul(c, v, -1))
  {
    hide *;
    HatFits(chat, c);
    HatFits(vhat, v);
    var a := Product(chat, vhat, c, v);
    ghost var x: seq<int> := a[..];
    ProductFits(x);
    PolyReduce(a);
    r := a[..];
    ReducedIs(r, x, Mul(c, v, -1));
  }

  lemma ProductFits(x: seq<int>)
    requires |x| == 256 && Bounded(x, 0, 256, 4211198)
    ensures InRange(x, -0x8000_0000, 0x7FC0_0000)
  {
    assert forall i :: 0 <= i < 256 ==> Small(x[i], 4211198);
  }

  lemma ReducedIs(r: seq<int>, x: seq<int>, m: seq<int>)
    requires |x| == |m| == 256 && EqMod(x, m, Q) && EqMod(r, x, Q) && InRange(r, -6283009, 6283009)
    ensures IsResidue(r, m)
  {
    EqModTrans(r, x, m, Q);
  }

  /** c s1 + y, before centring. */
  ghost function ZRaw(c: seq<int>, s1: Vec, y: Vec): (r: Vec)
    requires |c| == 256 && |s1| == |y| && Polys(s1) && Polys(y)
    ensures |r| == |y| && ZVec(c, s1, y) == CentredVec(r)
  {
    seq(|y|, i requires 0 <= i < |y| => Add(Mul(c, s1[i], -1), y[i]))
  }

  ghost function R0Raw(w0: Vec, c: seq<int>, s2: Vec): (r: Vec)
    requires |c| == 256 && |w0| == |s2| && Polys(w0) && Polys(s2)
    ensures |r| == |w0|
  {
    seq(|w0|, i requires 0 <= i < |w0| => Sub(w0[i], Mul(c, s2[i], -1)))
  }

  ghost function CT0Raw(c: seq<int>, t0: Vec): (r: Vec)
    requires |c| == 256 && Polys(t0)
    ensures |r| == |t0| && CT0Vec(c, t0) == CentredVec(r)
  {
    seq(|t0|, i requires 0 <= i < |t0| => Mul(c, t0[i], -1))
  }

  lemma R0RawIs(o: Oracle, gamma2: int, rho: seq<uint8>, y: Vec, c: seq<int>, s2: Vec)
    requires |c| == 256 && |y| >= 1 && Polys(y) && Polys(s2) && Supported(gamma2)
    ensures Polys(LowVec(o, rho, y, |s2|, gamma2))
    ensures R0Vec(o, gamma2, rho, y, c, s2) == CentredVec(R0Raw(LowVec(o, rho, y, |s2|, gamma2), c, s2))
  {
    hide Act, WRow, Centred, LowRow;
    var w0 := LowVec(o, rho, y, |s2|, gamma2);
    forall i | 0 <= i < |s2|
      ensures |w0[i]| == 256
    {}
    hide CentredAll;
  }

  /** z = c s1 + y, reduced. */
  method Response(chat: seq<int>, s1hat: Vec, y: Vec, ghost c: seq<int>, ghost s1: Vec) returns (z: Vec)
    requires IsHat(chat, c) && AreHats(s1hat, s1) && |s1| == |y| && VecInRange(y, -0x8_0000, 0x8_0001)
    ensures |c| == 256 && Polys(s1) && Polys(y) && Residues(z, ZRaw(c, s1, y))
  {
    HatFits(chat, c);
    HatsArePolys(s1hat, s1);
    hide IsHat, IsResidue, Act, InRange, Add;
    z := [];
    var i := 0;
    while i < |y|
      invariant 0 <= i <= |y| && |z| == i
      invariant forall j :: 0 <= j < i ==> IsResidue(z[j], Add(Mul(c, s1[j], -1), y[j]))
    {
      var row := ProductPlus(chat, s1hat[i], y[i], c, s1[i]);
      z := z + [row];
      i := i + 1;
    }
  }

  /** c t0, reduced. */
  method HintProduct(chat: seq<int>, t0hat: Vec, ghost c: seq<int>, ghost t0: Vec) returns (ct0: Vec)
    requires IsHat(chat, c) && AreHats(t0hat, t0)
    ensures |c| == 256 && Polys(t0) && Residues(ct0, CT0Raw(c, t0))
  {
    HatFits(chat, c);
    HatsArePolys(t0hat, t0);
    hide IsHat, IsResidue, Act, InRange;
    ct0 := [];
    var i := 0;
    while i < |t0hat|
      invariant 0 <= i <= |t0hat| && |ct0| == i
      invariant forall j :: 0 <= j < i ==> IsResidue(ct0[j], Mul(c, t0[j], -1))
    {
      var row := ProductReduced(chat, t0hat[i], c, t0[i]);
      ct0 := ct0 + [row];
      i := i + 1;
    }
  }

  /** w0 - c s2 row by row, giving up at the first row that is too large. */
  method LowBitsFail(chat: seq<int>, s2hat: Vec, w0: Vec, bound: int32, ghost c: seq<int>, ghost s2: Vec)
    returns (reject: bool, r0: Vec)
    requires IsHat(chat, c) && AreHats(s2hat, s2) && |s2| == |w0| && VecInRange(w0, -0x8_0000, 0x8_0001)
    requires 0 <= bound <= 2097408
    ensures |c| == 256 && Polys(w0) && Polys(s2)
    ensures reject <==> !AllBelow(CentredVec(R0Raw(w0, c, s2)), bound)
    ensures !reject ==> r0 == CentredVec(R0Raw(w0, c, s2))
  {
    HatFits(chat, c);
    HatsArePolys(s2hat, s2);
    ghost var s := R0Raw(w0, c, s2);
    hide IsHat, IsResidue, Act, InRange, Sub, CentredAll, RowBelow, CentredBelow, Reduce32;
    r0 := [];
    var i := 0;
    while i < |w0|
      invariant 0 <= i <= |w0| && |r0| == i
      invariant forall j :: 0 <= j < i ==> RowBelow(CentredAll(s[j]), bound) && r0[j] == CentredAll(s[j])
    {
      var row := MinusProduct(chat, s2hat[i], w0[i], c, s2[i]);
      RowDecides(row, s[i], bound);
      FitsInt32(row);
      var a := Scratch(row);
      var r := PolyChkNorm(a, bound);
      if r != 0 {
        assert !RowBelow(CentredVec(s)[i], bound);
        reject := true;
        return;
      }
      r0 := r0 + [row];
      i := i + 1;
    }
    reject := false;
  }

  /** The hint bits of one row, added to the running count. */
  method HintRow(r0: seq<int>, ct0: seq<int>, w1: seq<int>, gamma2: int32, count0: nat) returns (h: seq<int>, count: nat)
    requires |r0| == |ct0| == |w1| == 256 && Supported(gamma2)
    requires RowBelow(r0, 0x8_0000) && RowBelow(ct0, 0x8_0000) && InRange(w1, 0, 64)
    ensures h == HintRowOf(r0, ct0, w1, gamma2) && count == count0 + |Positions(h, 256)|
  {
    ghost var spec := HintRowOf(r0, ct0, w1, gamma2);
    var bits := new int[256];
    count := count0;
    PositionsStart(spec);
    hide Positions;
    var j := 0;
    while j < 256
      invariant 0 <= j <= 256
      invariant forall n :: 0 <= n < j ==> bits[n] == spec[n]
      invariant count == count0 + |Positions(spec, j)|
    {
      assert -0x8_0000 < r0[j] < 0x8_0000 && -0x8_0000 < ct0[j] < 0x8_0000 && 0 <= w1[j] < 64;
      bits[j] := MakeHint(r0[j] + ct0[j], w1[j], gamma2);
      PositionsStep(spec, j);
      count := count + bits[j];
      j := j + 1;
    }
    h := bits[..];
    assert h == spec;
  }

  lemma FlatAppend(h: Vec, row: seq<int>)
    requires Sized(h) && |row| == 256
    ensures Sized(h + [row]) && Flat(h + [row]) == Flat(h) + Positions(row, 256)
  {
    assert (h + [row])[..|h|] == h;
  }

  /** All hint rows and their total weight. */
  method HintRows(r0: Vec, ct0: Vec, w1: Vec, gamma2: int32) returns (h: Vec, count: nat)
    requires |r0| == |ct0| == |w1| && Polys(r0) && Polys(ct0) && Polys(w1) && Supported(gamma2)
    requires AllBelow(r0, 0x8_0000) && AllBelow(ct0, 0x8_0000) && AllFit(W1Coding(gamma2), w1)
    ensures h == HintVec(r0, ct0, w1, gamma2) && Sized(h) && count == |Flat(h)|
  {
    hide HintRowOf, Flat, RowBelow, Fits;
    h, count := [], 0;
    NoRows();
    var i := 0;
    while i < |r0|
      invariant 0 <= i <= |r0| && |h| == i && Sized(h) && count == |Flat(h)|
      invariant forall j :: 0 <= j < i ==> h[j] == HintRowOf(r0[j], ct0[j], w1[j], gamma2)
    {
      HighRange(w1[i], gamma2);
      var row, n := HintRow(r0[i], ct0[i], w1[i], gamma2, count);
      FlatAppend(h, row);
      h, count := h + [row], n;
      i := i + 1;
    }
  }

  lemma HighRange(w1: seq<int>, gamma2: int)
    requires Fits(W1Coding(gamma2), w1)
    ensures InRange(w1, 0, 64)
  {
    Powers();
    hide Pow;
    var f := FlipAll(W1Coding(gamma2), w1);
    assert forall i :: 0 <= i < 256 ==> f[i] == w1[i] && 0 <= f[i] < Pow(2, W1Coding(gamma2).bits);
  }

  /** The secret vectors in the transform domain. */
  datatype Hats = Hats(s1: Vec, s2: Vec, t0: Vec)

  ghost predicate HatsOf(hats: Hats, p: Params, key: SecretKey)
  {
    AreHats(hats.s1, key.s1) && AreHats(hats.s2, key.s2) && AreHats(hats.t0, key.t0) && KeyShape(p, key)
  }

  lemma HatsOfIs(hats: Hats, p: Params, key: SecretKey)
    requires HatsOf(hats, p, key)
    ensures AreHats(hats.s1, key.s1) && AreHats(hats.s2, key.s2) && AreHats(hats.t0, key.t0) && KeyShape(p, key)
    ensures |key.s1| == p.l && |key.s2| == |key.t0| == p.k && Polys(key.s1) && Polys(key.s2) && Polys(key.t0)
  {}

  lemma TernaryFits(c: TernaryPoly)
    ensures |c| == 256 && InRange(c, -Q, Q)
  {}

  lemma Bounds(p: Params)
    requires Valid(p)
    ensures 0 <= p.gamma1 - Beta(p) <= 2097408 && 0 <= p.gamma2 - Beta(p) <= 2097408 && 0 <= p.gamma2 <= 0x8_0000
    ensures Beta(p) == p.tau * p.eta && p.gamma1 - Beta(p) <= 0x8_0000 && p.gamma2 - Beta(p) <= 0x8_0000
    ensures -0x8_0000 <= -p.gamma2 && p.gamma2 + 1 <= 0x8_0001
  {
    DsaComplete.BetaIsNatural(p);
  }

  lemma BelowWidens(v: Vec, a: int, b: int)
    requires AllBelow(v, a) && a <= b
    ensures AllBelow(v, b)
  {
    forall i | 0 <= i < |v|
      ensures RowBelow(v[i], b)
    {
      assert RowBelow(v[i], a);
    }
  }

  /** Everything after the challenge: the response, the residue checks and the hint. */
  method Answer(p: Params, hats: Hats, y: Vec, w1: Vec, w0: Vec, c: TernaryPoly, ghost o: Oracle, ghost key: SecretKey)
    returns (reject: bool, z: Vec, h: Vec)
    requires Valid(p) && HatsOf(hats, p, key) && |y| == p.l && VecInRange(y, -0x8_0000, 0x8_0001)
    requires Polys(y) && w1 == W1Vec(o, key.rho, y, p.k, p.gamma2) && w0 == LowVec(o, key.rho, y, p.k, p.gamma2)
    requires AllFit(W1Coding(p.gamma2), w1) && VecInRange(w0, -p.gamma2, p.gamma2 + 1)
    ensures KeyShape(p, key)
    ensures var r0, ct0 := R0Vec(o, p.gamma2, key.rho, y, c, key.s2), CT0Vec(c, key.t0);
            var hint := HintVec(r0, ct0, w1, p.gamma2);
            && Sized(hint)
            && (reject <==> !(AllBelow(ZVec(c, key.s1, y), p.gamma1 - Beta(p))
                              && AllBelow(r0, p.gamma2 - Beta(p)) && AllBelow(ct0, p.gamma2)
                              && |Flat(hint)| <= p.omega))
            && (!reject ==> z == ZVec(c, key.s1, y) && h == hint)
  {
    hide *;
    ValidParts(p);
    Bounds(p);
    HatsOfIs(hats, p, key);
    TernaryFits(c);
    SizedHint(R0Vec(o, p.gamma2, key.rho, y, c, key.s2), CT0Vec(c, key.t0), w1, p.gamma2);
    R0RawIs(o, p.gamma2, key.rho, y, c, key.s2);
    h := [];
    var beta := p.tau * p.eta;
    var chat := Transform(c);
    z := Response(chat, hats.s1, y, c, key.s1);
    var fails := VecNormFails(z, p.gamma1 - beta, ZRaw(c, key.s1, y));
    if fails {
      reject := true;
      return;
    }
    var ct0 := HintProduct(chat, hats.t0, c, key.t0);
    VecInRangeWidens(w0, -p.gamma2, p.gamma2 + 1, -0x8_0000, 0x8_0001);
    var r0;
    reject, r0 := LowBitsFail(chat, hats.s2, w0, p.gamma2 - beta, c, key.s2);
    if reject {
      return;
    }
    reject := VecNormFails(ct0, p.gamma2, CT0Raw(c, key.t0));
    if reject {
      return;
    }
    BelowWidens(r0, p.gamma2 - Beta(p), 0x8_0000);
    BelowWidens(ct0, p.gamma2, 0x8_0000);
    var count;
    h, count := HintRows(r0, ct0, w1, p.gamma2);
    reject := count > p.omega;
  }

  lemma VecInRangeWidens(v: Vec, a: int, b: int, lo: int, hi: int)
    requires VecInRange(v, a, b) && lo <= a && b <= hi
    ensures VecInRange(v, lo, hi)
  {}

  lemma SizedHint(r0: Vec, ct0: Vec, w1: Vec, gamma2: int)
    requires |r0| == |ct0| == |w1| && Polys(r0) && Polys(ct0) && Polys(w1)
    ensures Sized(HintVec(r0, ct0, w1, gamma2))
  {
    DsaComplete.BinaryIsSized(HintVec(r0, ct0, w1, gamma2));
  }

  // ---------- Signing: the rejection loop ----------

  /** One pass of the rejection loop. */
  method TryAttempt(o: Oracle, p: Params, hats: Hats, rho: seq<uint8>, mu: seq<uint8>, seed: seq<uint8>, nonce: uint16,
                    ghost n: nat, ghost key: SecretKey)
    returns (reject: bool, ctilde: seq<uint8>, z: Vec, h: Vec)
    requires Valid(p) && HatsOf(hats, p, key) && rho == key.rho && nonce == Counter(n, p.l)
    ensures KeyShape(p, key)
    ensures var a := AttemptOf(o, p, key, mu, MaskVec(o, p, seed, n));
            && Sized(a.h) && ctilde == a.ctilde
            && (reject <==> !Passes(p, a))
            && (!reject ==> z == a.z && h == a.h)
  {
    hide *;
    ValidParts(p);
    Bounds(p);
    HatsOfIs(hats, p, key);
    var y := MaskingVector(o, p, seed, nonce, n);
    VecWidens(y, -0x8_0000, 0x8_0001, -0x8_0000, 0x8_0001);
    var w1, w0 := Commit(o, rho, y, p.k, p.gamma2);
    ctilde := ChallengeSeed(o, p, mu, w1);
    var c := o.challenge(ctilde, p.tau);
    reject, z, h := Answer(p, hats, y, w1, w0, c, o, key);
    DsaComplete.AttemptIs(o, p, key, mu, y);
    PassesMeans(p, AttemptOf(o, p, key, mu, y));
  }

  lemma PassesMeans(p: Params, a: Attempt)
    requires Sized(a.h)
    ensures Passes(p, a) <==>
              AllBelow(a.z, p.gamma1 - Beta(p)) && AllBelow(a.r0, p.gamma2 - Beta(p)) && AllBelow(a.ct0, p.gamma2)
              && |Flat(a.h)| <= p.omega
  {}

  /** Attempt n of signing a message passes. */
  ghost predicate AttemptPasses(o: Oracle, p: Params, key: SecretKey, msg: seq<uint8>, n: nat)
    requires Valid(p) && KeyShape(p, key)
  {
    var a := SigningAttempt(o, p, key, msg, n);
    Sized(a.h) && Passes(p, a)
  }

  lemma AttemptPassesMeans(o: Oracle, p: Params, key: SecretKey, msg: seq<uint8>, n: nat)
    requires Valid(p) && KeyShape(p, key)
    ensures var mu := MessageHash(o, key.tr, msg);
            var a := AttemptOf(o, p, key, mu, MaskVec(o, p, MaskSeed(o, key.seed, mu), n));
            a == SigningAttempt(o, p, key, msg, n) && Sized(a.h)
            && (AttemptPasses(o, p, key, msg, n) <==> Passes(p, a))
  {
    DsaComplete.BinaryIsSized(SigningAttempt(o, p, key, msg, n).h);
    hide AttemptOf, MaskVec, MaskSeed, MessageHash, Passes;
  }

  /** The decoded secret key is in range for the transform. */
  lemma ReadKeyFits(p: Params, sk: seq<uint8>)
    requires Valid(p) && |sk| == SecretKeyLength(p.k, p.l, p.eta)
    ensures var key := ReadSecretKey(sk, p.k, p.l, p.eta);
            KeyShape(p, key) && VecInRange(key.s1, -Q, Q) && VecInRange(key.s2, -Q, Q) && VecInRange(key.t0, -Q, Q)
  {
    hide *;
    SecretKeyCanonical(sk, p.k, p.l, p.eta);
    var key := ReadSecretKey(sk, p.k, p.l, p.eta);
    ValidKeyIs(key, p.k, p.l, p.eta);
    ValidParts(p);
    FittingIsSmall(EtaCoding(p.eta), key.s1);
    FittingIsSmall(EtaCoding(p.eta), key.s2);
    FittingIsSmall(T0Coding(), key.t0);
    MakeKeyShape(p, key);
  }

  lemma ValidKeyIs(key: SecretKey, k: nat, l: nat, eta: int)
    requires ValidSecretKey(key, k, l, eta)
    ensures |key.s1| == l && |key.s2| == k && |key.t0| == k && |key.rho| == 32 && |key.tr| == 64 && |key.seed| == 32
    ensures AllFit(EtaCoding(eta), key.s1) && AllFit(EtaCoding(eta), key.s2) && AllFit(T0Coding(), key.t0)
  {}

  lemma MakeKeyShape(p: Params, key: SecretKey)
    requires |key.s1| == p.l && |key.s2| == |key.t0| == p.k && Polys(key.s1) && Polys(key.s2) && Polys(key.t0)
    ensures KeyShape(p, key)
  {}

  lemma FittingIsSmall(c: Coding, v: Vec)
    requires AllFit(c, v) && (c == EtaCoding(2) || c == EtaCoding(4) || c == T0Coding())
    ensures VecInRange(v, -Q, Q) && Polys(v)
  {
    Powers();
    hide Pow;
    forall i | 0 <= i < |v|
      ensures |v[i]| == 256 && InRange(v[i], -Q, Q)
    {
      var f := FlipAll(c, v[i]);
      assert forall j :: 0 <= j < 256 ==> f[j] == c.top - v[i][j] && 0 <= f[j] < Pow(2, c.bits);
    }
  }

  /** The decoded key, and its vectors in the transform domain. */
  method LoadKey(p: Params, sk: seq<uint8>) returns (key: SecretKey, hats: Hats)
    requires Valid(p) && |sk| == SecretKeyLength(p.k, p.l, p.eta)
    ensures key == ReadSecretKey(sk, p.k, p.l, p.eta) && HatsOf(hats, p, key)
  {
    hide *;
    ValidParts(p);
    ReadKeyFits(p, sk);
    key := UnpackSk(sk, p.k, p.l, p.eta);
    var s1 := TransformVec(key.s1);
    var s2 := TransformVec(key.s2);
    var t0 := TransformVec(key.t0);
    hats := Hats(s1, s2, t0);
    MakeHatsOf(hats, p, key);
  }

  lemma MakeHatsOf(hats: Hats, p: Params, key: SecretKey)
    requires AreHats(hats.s1, key.s1) && AreHats(hats.s2, key.s2) && AreHats(hats.t0, key.t0) && KeyShape(p, key)
    ensures HatsOf(hats, p, key)
  {}

  /** The parts of the signature that attempt n produces. */
  ghost predicate Produces(o: Oracle, p: Params, key: SecretKey, msg: seq<uint8>, n: nat,
                           ctilde: seq<uint8>, z: Vec, h: Vec)
    requires Valid(p) && KeyShape(p, key)
  {
    var a := SigningAttempt(o, p, key, msg, n);
    ctilde == a.ctilde && z == a.z && h == a.h
  }

  /** One pass of the rejection loop, as an attempt at signing the message. */
  method NextAttempt(o: Oracle, p: Params, hats: Hats, key: SecretKey, ghost msg: seq<uint8>, mu: seq<uint8>,
                     seed: seq<uint8>, nonce: uint16, ghost n: nat)
    returns (reject: bool, ctilde: seq<uint8>, z: Vec, h: Vec)
    requires Valid(p) && HatsOf(hats, p, key) && nonce == Counter(n, p.l)
    requires mu == MessageHash(o, key.tr, msg) && seed == MaskSeed(o, key.seed, mu)
    ensures KeyShape(p, key) && |ctilde| == p.ctilde
    ensures reject <==> !AttemptPasses(o, p, key, msg, n)
    ensures !reject ==> Produces(o, p, key, msg, n, ctilde, z, h)
  {
    hide *;
    HatsOfIs(hats, p, key);
    AttemptPassesMeans(o, p, key, msg, n);
    reject, ctilde, z, h := TryAttempt(o, p, hats, key.rho, mu, seed, nonce, n, key);
    if !reject {
      MakeProduces(o, p, key, msg, n, ctilde, z, h);
    }
  }

  lemma MakeProduces(o: Oracle, p: Params, key: SecretKey, msg: seq<uint8>, n: nat, ctilde: seq<uint8>, z: Vec, h: Vec)
    requires Valid(p) && KeyShape(p, key)
    requires var a := SigningAttempt(o, p, key, msg, n); ctilde == a.ctilde && z == a.z && h == a.h
    ensures Produces(o, p, key, msg, n, ctilde, z, h)
  {}

  /** No attempt before n passes. */
  ghost predicate NonePasses(o: Oracle, p: Params, key: SecretKey, msg: seq<uint8>, n: nat)
    requires Valid(p) && KeyShape(p, key)
  {
    forall m: nat :: m < n ==> !AttemptPasses(o, p, key, msg, m)
  }

  lemma NonePassesStep(o: Oracle, p: Params, key: SecretKey, msg: seq<uint8>, n: nat)
    requires Valid(p) && KeyShape(p, key)
    ensures NonePasses(o, p, key, msg, 0)
    ensures NonePasses(o, p, key, msg, n) && !AttemptPasses(o, p, key, msg, n) ==> NonePasses(o, p, key, msg, n + 1)
  {
    hide AttemptPasses;
  }

  /**
   The rejection loop: at most 10000 attempts with consecutive nonces, each writing its challenge seed to the
   signature buffer, until one passes.
   */
  method RejectionLoop(o: Oracle, p: Params, sig: array<uint8>, hats: Hats, key: SecretKey, msg: seq<uint8>)
    returns (found: bool, z: Vec, h: Vec, ghost n: nat)
    requires Valid(p) && HatsOf(hats, p, key) && p.ctilde <= sig.Length
    modifies sig
    ensures KeyShape(p, key) && sig[p.ctilde..] == old(sig[p.ctilde..])
    ensures found ==> n < 10000 && NonePasses(o, p, key, msg, n) && AttemptPasses(o, p, key, msg, n)
                      && Produces(o, p, key, msg, n, sig[..p.ctilde], z, h)
    ensures !found ==> NonePasses(o, p, key, msg, 10000)
  {
    hide *;
    HatsOfIs(hats, p, key);
    ValidParts(p);
    var mu := MessageHash(o, key.tr, msg);
    var seed := MaskSeed(o, key.seed, mu);
    var nonce: uint16 := 0;
    var loopCtr := 0;
    n := 0;
    z, h := [], [];
    CounterStep(0, p.l);
    NonePassesStep(o, p, key, msg, 0);
    while true
      invariant 0 <= loopCtr <= 10000 && n == loopCtr && nonce == Counter(n, p.l)
      invariant NonePasses(o, p, key, msg, n)
      invariant sig[p.ctilde..] == old(sig[p.ctilde..])
      decreases 10000 - loopCtr
    {
      loopCtr := loopCtr + 1;
      if loopCtr > 10000 {
        found := false;
        return;
      }
      var reject, ctilde;
      reject, ctilde, z, h := NextAttempt(o, p, hats, key, msg, mu, seed, nonce, n);
      Store(sig, 0, ctilde);
      if !reject {
        assert sig[..p.ctilde] == ctilde;
        found := true;
        return;
      }
      NonePassesStep(o, p, key, msg, n);
      CounterStep(n, p.l);
      nonce := (nonce + p.l) % 0x1_0000;
      n := n + 1;
    }
  }

  /** Attempt n is the first that passes. */
  ghost predicate FirstPass(o: Oracle, p: Params, key: SecretKey, msg: seq<uint8>, n: nat)
    requires Valid(p) && KeyShape(p, key)
  {
    NonePasses(o, p, key, msg, n) && AttemptPasses(o, p, key, msg, n)
  }

  /** The signature that attempt n yields. */
  ghost function SignatureOf(o: Oracle, p: Params, key: SecretKey, msg: seq<uint8>, n: nat): seq<int>
    requires Valid(p) && KeyShape(p, key) && AttemptPasses(o, p, key, msg, n)
  {
    SignatureBytes(p, SigningAttempt(o, p, key, msg, n))
  }

  /** Pack the signature behind the challenge seed. */
  method PackSignature(p: Params, sig: array<uint8>, z: Vec, h: Vec) returns (n: nat)
    requires Valid(p) && SignatureLength(p) <= sig.Length
    requires |z| == p.l && AllFit(ZCoding(p.gamma1), z) && |h| == p.k && Sized(h) && |Flat(h)| <= p.omega
    modifies sig
    ensures n == SignatureLength(p)
    ensures sig[..n] == old(sig[..p.ctilde]) + EncodeVec(ZCoding(p.gamma1), z) + HintBytes(h, p.omega)
    ensures sig[n..] == old(sig[n..])
  {
    hide *;
    ValidParts(p);
    Layout(p);
    ghost var was := sig[..];
    var offset := p.ctilde;
    PackVec(sig, offset, ZCoding(p.gamma1), z);
    offset := offset + VecLength(ZCoding(p.gamma1), p.l);
    ghost var mid := sig[..];
    WrittenIs(was, p.ctilde, EncodeVec(ZCoding(p.gamma1), z));
    var m := PackHint(sig, offset, h, p.k, p.omega);
    n := offset + m;
    Assembled(was, mid, sig[..], p.ctilde, EncodeVec(ZCoding(p.gamma1), z), HintBytes(h, p.omega));
  }

  lemma Layout(p: Params)
    requires Valid(p)
    ensures SignatureLength(p) == p.ctilde + VecLength(ZCoding(p.gamma1), p.l) + p.omega + p.k
    ensures Known(ZCoding(p.gamma1))
  {
    hide VecLength;
  }

  lemma WrittenIs(was: seq<uint8>, o: nat, bytes: seq<uint8>)
    requires o + |bytes| <= |was|
    ensures Written(was, o, bytes) == was[..o] + bytes + was[o + |bytes|..]
  {}

  lemma Assembled(was: seq<uint8>, mid: seq<uint8>, end: seq<uint8>, c: nat, a: seq<uint8>, b: seq<int>)
    requires c + |a| + |b| <= |was| && mid == was[..c] + a + was[c + |a|..]
    requires end == mid[..c + |a|] + b + mid[c + |a| + |b|..]
    ensures |end| == |was|
    ensures end[..c + |a| + |b|] == was[..c] + a + b && end[c + |a| + |b|..] == was[c + |a| + |b|..]
  {}

  /** The parts that attempt n produces fit their encodings. */
  lemma ProducedFits(o: Oracle, p: Params, key: SecretKey, msg: seq<uint8>, n: nat, ctilde: seq<uint8>, z: Vec, h: Vec)
    requires Valid(p) && KeyShape(p, key) && AttemptPasses(o, p, key, msg, n) && Produces(o, p, key, msg, n, ctilde, z, h)
    ensures |z| == p.l && AllFit(ZCoding(p.gamma1), z) && |h| == p.k && Sized(h) && |Flat(h)| <= p.omega
    ensures SignatureOf(o, p, key, msg, n) == ctilde + EncodeVec(ZCoding(p.gamma1), z) + HintBytes(h, p.omega)
  {
    hide *;
    var a := SigningAttempt(o, p, key, msg, n);
    ValidParts(p);
    Bounds(p);
    ProducesMeans(o, p, key, msg, n, ctilde, z, h);
    PassesMeans(p, a);
    PolysOfAttempt(o, p, key, msg, n);
    DsaComplete.ZFits(a.z, p.gamma1, p.gamma1 - Beta(p));
    SignatureBytesAre(p, a);
  }

  lemma ProducesMeans(o: Oracle, p: Params, key: SecretKey, msg: seq<uint8>, n: nat, ctilde: seq<uint8>, z: Vec, h: Vec)
    requires Valid(p) && KeyShape(p, key) && AttemptPasses(o, p, key, msg, n) && Produces(o, p, key, msg, n, ctilde, z, h)
    ensures var a := SigningAttempt(o, p, key, msg, n);
            && ctilde == a.ctilde && z == a.z && h == a.h && Sized(a.h) && Passes(p, a) && |Flat(a.h)| <= p.omega
            && SignatureOf(o, p, key, msg, n) == SignatureBytes(p, a)
  {
    hide SigningAttempt, AllBelow, SignatureBytes, Flat, Beta, Sized;
  }

  lemma SignatureBytesAre(p: Params, a: Attempt)
    requires Sized(a.h) && |Flat(a.h)| <= p.omega
    ensures SignatureBytes(p, a) == a.ctilde + EncodeVec(ZCoding(p.gamma1), a.z) + HintBytes(a.h, p.omega)
  {
    hide EncodeVec, HintBytes, Flat, ZCoding;
  }

  lemma PolysOfAttempt(o: Oracle, p: Params, key: SecretKey, msg: seq<uint8>, n: nat)
    requires Valid(p) && KeyShape(p, key)
    ensures Polys(SigningAttempt(o, p, key, msg, n).z)
  {
    hide *;
    DsaComplete.SigningAttemptIs(o, p, key, msg, n);
    var mu := MessageHash(o, key.tr, msg);
    DsaComplete.AttemptIs(o, p, key, mu, MaskVec(o, p, MaskSeed(o, key.seed, mu), n));
  }

  /** What signing a message with an encoded key yields. */
  ghost predicate SignResult(o: Oracle, p: Params, sk: seq<uint8>, msg: seq<uint8>, capacity: nat, status: Status,
                             siglen: nat, was: seq<uint8>, now: seq<uint8>)
    requires Valid(p) && |sk| == SecretKeyLength(p.k, p.l, p.eta)
  {
    var key := ReadSecretKey(sk, p.k, p.l, p.eta);
    ReadKeyFits(p, sk);
    match status
    case Success =>
      && siglen == SignatureLength(p) <= capacity && siglen <= |now| == |was| && now[siglen..] == was[siglen..]
      && exists n: nat :: n < 10000 && FirstPass(o, p, key, msg, n) && now[..siglen] == SignatureOf(o, p, key, msg, n)
    case InvalidParam => capacity < SignatureLength(p) && siglen == capacity && now == was
    case Internal =>
      && capacity >= SignatureLength(p) && siglen == capacity && NonePasses(o, p, key, msg, 10000)
      && p.ctilde <= |now| == |was| && now[p.ctilde..] == was[p.ctilde..]
    case _ => false
  }

  /**
   Signing. A buffer that is too small is refused; otherwise the signature is that of the first passing attempt,
   or signing gives up after 10000 attempts.
   */
  method Sign(o: Oracle, p: Params, sig: array<uint8>, capacity: nat, msg: seq<uint8>, sk: seq<uint8>)
    returns (status: Status, siglen: nat)
    requires Valid(p) && capacity <= sig.Length && |sk| == SecretKeyLength(p.k, p.l, p.eta)
    modifies sig
    ensures SignResult(o, p, sk, msg, capacity, status, siglen, old(sig[..]), sig[..])
  {
    hide *;
    ghost var was := sig[..];
    ValidParts(p);
    Layout(p);
    siglen := capacity;
    if capacity < p.ctilde + VecLength(ZCoding(p.gamma1), p.l) + p.omega + p.k {
      status := InvalidParam;
      RefusedIs(o, p, sk, msg, capacity, was);
      return;
    }
    var key, hats := LoadKey(p, sk);
    var found, z, h;
    ghost var n;
    found, z, h, n := RejectionLoop(o, p, sig, hats, key, msg);
    if !found {
      status := Internal;
      GaveUpIs(o, p, sk, msg, capacity, was, sig[..]);
      return;
    }
    ProducedFits(o, p, key, msg, n, sig[..p.ctilde], z, h);
    ghost var mid := sig[..];
    assert mid[p.ctilde..] == was[p.ctilde..];
    siglen := PackSignature(p, sig, z, h);
    assert sig[siglen..] == was[siglen..] by {
      assert mid[siglen..] == mid[p.ctilde..][siglen - p.ctilde..];
      assert was[siglen..] == was[p.ctilde..][siglen - p.ctilde..];
    }
    status := Success;
    SignedIs(o, p, sk, msg, capacity, was, sig[..], n);
  }

  lemma RefusedIs(o: Oracle, p: Params, sk: seq<uint8>, msg: seq<uint8>, capacity: nat, was: seq<uint8>)
    requires Valid(p) && |sk| == SecretKeyLength(p.k, p.l, p.eta) && capacity < SignatureLength(p)
    ensures SignResult(o, p, sk, msg, capacity, InvalidParam, capacity, was, was)
  {
    hide ReadSecretKey;
  }

  lemma GaveUpIs(o: Oracle, p: Params, sk: seq<uint8>, msg: seq<uint8>, capacity: nat, was: seq<uint8>, now: seq<uint8>)
    requires Valid(p) && |sk| == SecretKeyLength(p.k, p.l, p.eta) && capacity >= SignatureLength(p)
    requires KeyShape(p, ReadSecretKey(sk, p.k, p.l, p.eta))
    requires NonePasses(o, p, ReadSecretKey(sk, p.k, p.l, p.eta), msg, 10000)
    requires p.ctilde <= |now| == |was| && now[p.ctilde..] == was[p.ctilde..]
    ensures SignResult(o, p, sk, msg, capacity, Internal, capacity, was, now)
  {
    hide ReadSecretKey, NonePasses;
  }

  lemma SignedIs(o: Oracle, p: Params, sk: seq<uint8>, msg: seq<uint8>, capacity: nat, was: seq<uint8>,
                 now: seq<uint8>, n: nat)
    requires Valid(p) && |sk| == SecretKeyLength(p.k, p.l, p.eta) && n < 10000
    requires SignatureLength(p) <= capacity && SignatureLength(p) <= |now| == |was|
    requires now[SignatureLength(p)..] == was[SignatureLength(p)..]
    requires var key := ReadSecretKey(sk, p.k, p.l, p.eta);
             KeyShape(p, key) && NonePasses(o, p, key, msg, n) && AttemptPasses(o, p, key, msg, n)
             && now[..SignatureLength(p)] == SignatureOf(o, p, key, msg, n)
    ensures SignResult(o, p, sk, msg, capacity, Success, SignatureLength(p), was, now)
  {
    hide ReadSecretKey, NonePasses, AttemptPasses, SignatureOf;
    assert FirstPass(o, p, ReadSecretKey(sk, p.k, p.l, p.eta), msg, n);
  }

  // ---------- Verification ----------

  /** t1 2^13 of one row, transformed. */
  method ShiftedHat(t1: seq<int>) returns (r: seq<int>)
    requires Fits(T1Coding(), t1)
    ensures |t1| == 256 && IsHat(r, Scale(0x2000, t1))
  {
    hide *;
    T1Range(t1);
    var a := new int32[256];
    var j := 0;
    while j < 256
      invariant 0 <= j <= 256
      invariant forall n :: 0 <= n < j ==> ShiftedAt(t1, n, a[n])
    {
      ShiftOne(t1, j);
      a[j] := Reduce32(t1[j] * 0x2000);
      j := j + 1;
    }
    ghost var x: seq<int> := a[..];
    ShiftedRow(t1, x);
    r := Transform(a[..]);
    HatOfCong(r, x, Scale(0x2000, t1));
  }

  ghost predicate ShiftedAt(t1: seq<int>, n: nat, x: int)
  {
    n < |t1| && Cong(x, 0x2000 * t1[n], Q) && -6283009 <= x <= 6283008
  }

  lemma T1Range(t1: seq<int>)
    requires Fits(T1Coding(), t1)
    ensures |t1| == 256 && InRange(t1, 0, 0x400)
    ensures forall j :: 0 <= j < 256 ==> 0 <= t1[j] < 0x400
  {
    Powers();
    hide Pow;
    var f := FlipAll(T1Coding(), t1);
    assert forall i :: 0 <= i < 256 ==> f[i] == t1[i] && 0 <= f[i] < Pow(2, 10);
  }

  lemma ShiftOne(t1: seq<int>, j: nat)
    requires j < |t1| && 0 <= t1[j] < 0x400
    ensures -0x8000_0000 <= t1[j] * 0x2000 <= 0x7FFF_FFFF - 0x40_0000
    ensures ShiftedAt(t1, j, Reduce32(t1[j] * 0x2000))
  {
    hide Reduce32, Cong;
  }

  lemma ShiftedRow(t1: seq<int>, x: seq<int>)
    requires |t1| == |x| == 256 && forall n :: 0 <= n < 256 ==> ShiftedAt(t1, n, x[n])
    ensures EqMod(x, Scale(0x2000, t1), Q) && InRange(x, -Q, Q)
  {
    hide Cong;
    forall n | 0 <= n < 256
      ensures Cong(x[n], Scale(0x2000, t1)[n], Q) && -Q <= x[n] < Q
    {
      assert ShiftedAt(t1, n, x[n]);
    }
  }

  lemma HatOfCong(r: seq<int>, x: seq<int>, s: seq<int>)
    requires IsHat(r, x) && EqMod(x, s, Q)
    ensures IsHat(r, s)
  {
    HatCong(x, s);
    NttTower.BlocksTrans(DsaNtt.Leaves(r), Hat(x), Hat(s), Q);
  }

  /** The difference of two inverse transforms, Q added where it is negative: within gamma2 of canonical. */
  ghost predicate Slack(a: seq<int>, v: seq<int>)
  {
    |a| == |v| == 256 && forall n :: 0 <= n < 256 ==> -41978 <= a[n] < Q + 41978 && a[n] % Q == v[n]
  }

  /** One row of the verifier's difference. */
  method VerifierRow(t: seq<int>, chat: seq<int>, t1hat: seq<int>, ghost o: Oracle, ghost rho: seq<uint8>, ghost i: nat,
                     ghost z: Vec, ghost c: seq<int>, ghost t1: Vec) returns (a: array<int32>)
    requires IsMatrixRow(t, o, rho, i, z) && IsHat(chat, c) && i < |t1| && Polys(t1)
    requires |t1[i]| == 256 && IsHat(t1hat, Scale(0x2000, t1[i]))
    ensures fresh(a) && a.Length == 256 && |z| >= 1 && Polys(z) && |c| == 256
    ensures Slack(a[..], VerifyRow(o, rho, z, c, t1, i))
  {
    hide *;
    HatFits(chat, c);
    a := InverseRow(t, o, rho, i, z);
    var ct1 := Product(chat, t1hat, c, Scale(0x2000, t1[i]));
    ghost var x: seq<int>, y: seq<int> := a[..], ct1[..];
    DifferenceFits(x, y);
    PolySub(a, a, ct1);
    ghost var d: seq<int> := a[..];
    PolyCaddQ(a);
    SlackIs(o, rho, i, z, c, t1, x, y, d, a[..]);
  }

  lemma DifferenceFits(x: seq<int>, y: seq<int>)
    requires |x| == |y| == 256 && Bounded(x, 0, 256, 4211198) && Bounded(y, 0, 256, 4211198)
    ensures InRange(Sub(x, y), -0x8000_0000, 0x8000_0000) && InRange(Sub(x, y), -8422394, 8422395)
  {
    assert forall i :: 0 <= i < 256 ==> Small(x[i], 4211198) && Small(y[i], 4211198);
  }

  lemma SlackIs(o: Oracle, rho: seq<uint8>, i: nat, z: Vec, c: seq<int>, t1: Vec, x: seq<int>, y: seq<int>,
                d: seq<int>, a: seq<int>)
    requires |z| >= 1 && Polys(z) && |c| == 256 && i < |t1| && Polys(t1) && |x| == |y| == |d| == |a| == 256
    requires EqMod(x, MatrixTimes(o, rho, i, z), Q) && EqMod(y, Mul(c, Scale(0x2000, t1[i]), -1), Q)
    requires d == Sub(x, y) && InRange(d, -8422394, 8422395) && EqMod(a, d, Q)
    requires forall n :: 0 <= n < 256 ==> a[n] == if d[n] < 0 then d[n] + Q else d[n]
    ensures Slack(a, VerifyRow(o, rho, z, c, t1, i))
  {
    hide *;
    RowLengthAt(t1, i);
    var m, p := MatrixTimes(o, rho, i, z), Mul(c, Scale(0x2000, t1[i]), -1);
    SubCong(x, m, y, p, Q);
    EqModTrans(a, d, Sub(m, p), Q);
    VerifyRowIs(o, rho, z, c, t1, i);
    MakeSlack(a, d, Sub(m, p));
  }

  lemma RowLengthAt(v: Vec, i: nat)
    requires Polys(v) && i < |v|
    ensures |v[i]| == 256 && Q == 8380417
  {}

  lemma VerifyRowIs(o: Oracle, rho: seq<uint8>, z: Vec, c: seq<int>, t1: Vec, i: nat)
    requires |z| >= 1 && Polys(z) && |c| == 256 && Polys(t1) && i < |t1|
    ensures VerifyRow(o, rho, z, c, t1, i)
         == Canonical(Sub(MatrixTimes(o, rho, i, z), Mul(c, Scale(0x2000, t1[i]), -1)))
  {
    hide MatrixTimes, Act, Canonical, Scale, Sub;
  }

  lemma MakeSlack(a: seq<int>, d: seq<int>, s: seq<int>)
    requires |a| == |d| == |s| == 256 && EqMod(a, s, Q) && InRange(d, -8422394, 8422395)
    requires forall n :: 0 <= n < 256 ==> a[n] == if d[n] < 0 then d[n] + Q else d[n]
    ensures Slack(a, Canonical(s))
  {
    hide Cong;
    forall n | 0 <= n < 256
      ensures -41978 <= a[n] < Q + 41978 && a[n] % Q == Canonical(s)[n]
    {
      assert -8422394 <= d[n] < 8422395;
      CongModEq(a[n], s[n], Q);
    }
  }

  /** UseHint of every coefficient. */
  method UseHintRowOf(a: array<int32>, h: array2<int32>, i: nat, gamma2: int32, ghost v: seq<int>) returns (w: seq<int>)
    requires a.Length == 256 && Slack(a[..], v) && Supported(gamma2)
    requires i < h.Length0 && h.Length1 == 256 && Binary(DsaHint.HintRow(h, i))
    modifies a
    ensures |v| == 256 && w == UseHintRow(v, DsaHint.HintRow(h, i), gamma2)
  {
    hide UseHint, UseHintSpec;
    ghost var s: seq<int> := a[..];
    ghost var bits := DsaHint.HintRow(h, i);
    var j := 0;
    while j < 256
      invariant 0 <= j <= 256
      invariant forall n :: 0 <= n < j ==> a[n] == UseHintSpec(v[n], bits[n], gamma2)
      invariant forall n :: j <= n < 256 ==> a[n] == s[n]
    {
      assert -41978 <= s[j] < Q + 41978 && s[j] % Q == v[j];
      assert bits[j] == h[i, j] && (bits[j] == 0 || bits[j] == 1);
      UseHintMatchesSpec(a[j], h[i, j], gamma2);
      a[j] := UseHint(a[j], h[i, j], gamma2);
      j := j + 1;
    }
    w := a[..];
  }

  /** The rows of an accepted hint, as the decoder left them. */
  ghost predicate HintHolds(h: array2<int32>, hint: Vec)
    reads h
  {
    && h.Length0 == 8 && h.Length1 == 256 && |hint| <= 8 && BinaryVec(hint)
    && forall i :: 0 <= i < |hint| ==> DsaHint.HintRow(h, i) == hint[i]
  }

  lemma HintHoldsAt(h: array2<int32>, hint: Vec, i: nat)
    requires HintHolds(h, hint) && i < |hint|
    ensures h.Length0 == 8 && h.Length1 == 256 && DsaHint.HintRow(h, i) == hint[i] && Binary(hint[i])
  {}

  /** The commitment recovered from a signature. */
  method Recover(o: Oracle, p: Params, rho: seq<uint8>, z: Vec, c: TernaryPoly, t1: Vec, h: array2<int32>, ghost hint: Vec)
    returns (w1: Vec)
    requires Valid(p) && |z| == p.l && VecInRange(z, -Q, Q) && |t1| == p.k && AllFit(T1Coding(), t1)
    requires |hint| == p.k && HintHolds(h, hint)
    ensures |z| >= 1 && Polys(z) && |c| == 256 && Polys(t1) && Sized(hint) && Supported(p.gamma2)
    ensures w1 == RecoveredVec(o, rho, z, c, t1, hint, p.gamma2) && AllFit(W1Coding(p.gamma2), w1)
  {
    hide *;
    ValidParts(p);
    VecWidens(z, -Q, Q, -Q, Q);
    TernaryFits(c);
    FitsIsPolys(t1);
    SizedRows(h, hint);
    var zhat := TransformVec(z);
    var chat := Transform(c);
    HatsSameLength(zhat, z);
    var t := ExpandMatrixMul(o, rho, zhat, p.k, p.l, z);
    w1 := [];
    var i := 0;
    while i < p.k
      invariant 0 <= i <= p.k && |w1| == i && HintHolds(h, hint)
      invariant forall j :: 0 <= j < i ==>
                  w1[j] == UseHintRow(VerifyRow(o, rho, z, c, t1, j), hint[j], p.gamma2)
    {
      FitAt(t1, i);
      var t1hat := ShiftedHat(t1[i]);
      var a := VerifierRow(t[i], chat, t1hat, o, rho, i, z, c, t1);
      HintHoldsAt(h, hint, i);
      var row := UseHintRowOf(a, h, i, p.gamma2, VerifyRow(o, rho, z, c, t1, i));
      w1 := w1 + [row];
      i := i + 1;
    }
    RecoveredIs(o, p, rho, z, c, t1, hint, w1);
  }

  lemma FitsIsPolys(t1: Vec)
    requires AllFit(T1Coding(), t1)
    ensures Polys(t1) && forall i :: 0 <= i < |t1| ==> |t1[i]| == 256
  {
    forall i | 0 <= i < |t1|
      ensures |t1[i]| == 256
    {
      assert Fits(T1Coding(), t1[i]);
    }
  }

  lemma FitAt(t1: Vec, i: nat)
    requires AllFit(T1Coding(), t1) && i < |t1|
    ensures Fits(T1Coding(), t1[i]) && |t1[i]| == 256
  {}

  lemma SizedRows(h: array2<int32>, hint: Vec)
    requires HintHolds(h, hint)
    ensures Sized(hint) && forall i :: 0 <= i < |hint| ==> |hint[i]| == 256
  {
    DsaComplete.BinaryIsSized(hint);
  }

  lemma RecoveredIs(o: Oracle, p: Params, rho: seq<uint8>, z: Vec, c: seq<int>, t1: Vec, hint: Vec, w1: Vec)
    requires |z| >= 1 && Polys(z) && |c| == 256 && Polys(t1) && |hint| == |t1| == |w1| && Sized(hint)
    requires Supported(p.gamma2)
    requires forall j :: 0 <= j < |t1| ==> w1[j] == UseHintRow(VerifyRow(o, rho, z, c, t1, j), hint[j], p.gamma2)
    ensures w1 == RecoveredVec(o, rho, z, c, t1, hint, p.gamma2)
    ensures AllFit(W1Coding(p.gamma2), w1)
  {
    hide VerifyRow, UseHintRow, Fits;
    forall j | 0 <= j < |t1|
      ensures Fits(W1Coding(p.gamma2), w1[j])
    {
      UseHintRange(VerifyRow(o, rho, z, c, t1, j), hint[j], p.gamma2);
    }
  }

  lemma UseHintRange(v: seq<int>, h: seq<int>, gamma2: int)
    requires |v| == |h| == 256 && InRange(v, 0, Q) && Supported(gamma2)
    ensures Fits(W1Coding(gamma2), UseHintRow(v, h, gamma2))
  {
    Powers();
    hide DecomposeSpec, Pow;
    var u := UseHintRow(v, h, gamma2);
    forall i | 0 <= i < 256
      ensures 0 <= u[i] < Buckets(gamma2)
    {
      DecomposeRebuilds(v[i], gamma2);
    }
  }

  /** The decoded z is its own centred residue. */
  lemma SignatureZFits(p: Params, sig: seq<uint8>)
    requires Valid(p) && |sig| == SignatureLength(p)
    ensures var z := SignatureZ(p, sig);
            |z| == p.l && VecInRange(z, -Q, Q) && Residues(z, z) && CentredVec(z) == z
    ensures |sig[p.ctilde..HintAt(p)]| == VecLength(ZCoding(p.gamma1), p.l)
    ensures SignatureZ(p, sig) == DecodeVec(ZCoding(p.gamma1), sig[p.ctilde..HintAt(p)], p.l)
  {
    hide *;
    ValidParts(p);
    Layout(p);
    HintAtIs(p);
    SignatureZIs(p, sig);
    EncodeDecodeVec(ZCoding(p.gamma1), sig[p.ctilde..HintAt(p)], p.l);
    FittingZVec(p.gamma1, SignatureZ(p, sig));
  }

  lemma SignatureZIs(p: Params, sig: seq<uint8>)
    requires |sig| == SignatureLength(p)
    ensures SignatureZ(p, sig) == DecodeVec(ZCoding(p.gamma1), sig[p.ctilde..HintAt(p)], p.l)
  {}

  lemma FittingZVec(gamma1: int, z: Vec)
    requires (gamma1 == 0x2_0000 || gamma1 == 0x8_0000) && AllFit(ZCoding(gamma1), z)
    ensures VecInRange(z, -Q, Q) && Residues(z, z) && CentredVec(z) == z
  {
    hide Fits, IsResidue, CentredAll, InRange;
    forall i | 0 <= i < |z|
      ensures |z[i]| == 256 && InRange(z[i], -Q, Q) && IsResidue(z[i], z[i]) && CentredAll(z[i]) == z[i]
    {
      FittingZ(gamma1, z[i]);
    }
  }

  lemma FittingZ(gamma1: int, z: seq<int>)
    requires (gamma1 == 0x2_0000 || gamma1 == 0x8_0000) && Fits(ZCoding(gamma1), z)
    ensures |z| == 256 && InRange(z, -Q, Q) && IsResidue(z, z) && CentredAll(z) == z
  {
    Powers();
    hide Pow, EqMod, Cong;
    EqModRefl(z, Q);
    var f := FlipAll(ZCoding(gamma1), z);
    forall i | 0 <= i < 256
      ensures -0x8_0000 <= z[i] <= 0x8_0000 && Centred(z[i]) == z[i]
    {
      assert f[i] == gamma1 - z[i] && 0 <= f[i] < 0x10_0000;
      CentredOfSmall(z[i]);
    }
  }

  lemma CentredOfSmall(x: int)
    requires -0x8_0000 <= x <= 0x8_0000
    ensures Centred(x) == x
  {
    CongSym(Centred(x), x, Q);
    CongClose(x, Centred(x), Q);
  }

  lemma AcceptedHolds(h: array2<int32>, buf: seq<uint8>, k: nat, omega: nat)
    requires h.Length0 == 8 && h.Length1 == 256 && 0 < k <= 8 && |buf| == omega + k && Accepted(buf, k, omega)
    requires forall i :: 0 <= i < k ==> DsaHint.HintRow(h, i) == DecodedHint(buf, k, omega)[i]
    ensures HintHolds(h, DecodedHint(buf, k, omega))
  {
    EncodeOfDecode(buf, k, omega);
    hide Accepted, DecodedHint, Flat;
  }

  /** Verification accepts exactly the valid signatures. */
  method Verify(o: Oracle, p: Params, sig: seq<uint8>, msg: seq<uint8>, pk: seq<uint8>) returns (status: Status)
    requires Valid(p) && |pk| == PublicKeyLength(p.k)
    ensures status == Success || status == VerificationFailed
    ensures status == Success <==> ValidSignature(o, p, pk, msg, sig)
  {
    hide *;
    ValidParts(p);
    Bounds(p);
    DsaComplete.BetaIsNatural(p);
    Layout(p);
    ValidMeans(o, p, pk, msg, sig);
    if |sig| != p.ctilde + VecLength(ZCoding(p.gamma1), p.l) + p.omega + p.k {
      return VerificationFailed;
    }
    HintAtIs(p);
    var rho, t1 := UnpackPk(pk, p.k);
    PublicKeyCanonical(pk, p.k);
    PublicParts(p, pk, rho, t1);
    var tr := o.Shake256(pk, 64);
    var mu := MessageHash(o, tr, msg);
    var at := p.ctilde + VecLength(ZCoding(p.gamma1), p.l);
    SignatureZFits(p, sig);
    var z := UnpackVec(ZCoding(p.gamma1), sig[p.ctilde..at], p.l);
    var beta := p.tau * if p.k == 8 then 2 else 4;
    VerifyBetaIs(p);
    var fails := VecNormFails(z, p.gamma1 - beta, z);
    if fails {
      return VerificationFailed;
    }
    var h := new int32[8, 256];
    var r := UnpackHint(h, sig[at..], p.k, p.omega);
    if r != 0 {
      return VerificationFailed;
    }
    ghost var hint := DecodedHint(sig[at..], p.k, p.omega);
    AcceptedHolds(h, sig[at..], p.k, p.omega);
    var c := o.challenge(sig[..p.ctilde], p.tau);
    var w1 := Recover(o, p, rho, z, c, t1, h, hint);
    var ctilde := ChallengeSeed(o, p, mu, w1);
    MatchMeans(o, p, pk, mu, sig[..p.ctilde], z, hint);
    if sig[..p.ctilde] != ctilde {
      return VerificationFailed;
    }
    status := Success;
  }

  lemma ValidMeans(o: Oracle, p: Params, pk: seq<uint8>, msg: seq<uint8>, sig: seq<uint8>)
    requires Valid(p) && |pk| == PublicKeyLength(p.k)
    ensures ValidSignature(o, p, pk, msg, sig) <==>
            && |sig| == SignatureLength(p)
            && AllBelow(SignatureZ(p, sig), p.gamma1 - VerifyBeta(p))
            && Accepted(sig[HintAt(p)..], p.k, p.omega)
            && CommitmentMatches(o, p, pk, MessageHash(o, o.Shake256(pk, 64), msg), sig[..p.ctilde], SignatureZ(p, sig),
                                 DecodedHint(sig[HintAt(p)..], p.k, p.omega))
  {
    hide AllBelow, SignatureZ, Accepted, DecodedHint, CommitmentMatches, MessageHash, Oracle.Shake256;
  }

  lemma HintAtIs(p: Params)
    ensures HintAt(p) == p.ctilde + VecLength(ZCoding(p.gamma1), p.l)
  {}

  lemma VerifyBetaIs(p: Params)
    ensures VerifyBeta(p) == p.tau * if p.k == 8 then 2 else 4
  {}

  lemma PublicParts(p: Params, pk: seq<uint8>, rho: seq<uint8>, t1: Vec)
    requires |pk| == PublicKeyLength(p.k) && PublicKey(rho, t1) == ReadPublicKey(pk, p.k)
    requires ValidPublicKey(PublicKey(rho, t1), p.k)
    ensures |pk| >= 32 && rho == pk[..32] && t1 == KeyT1(p, pk) && |t1| == p.k && AllFit(T1Coding(), t1)
  {}

  lemma MatchMeans(o: Oracle, p: Params, pk: seq<uint8>, mu: seq<uint8>, ctilde: seq<uint8>, z: Vec, h: Vec)
    requires Valid(p) && |pk| == PublicKeyLength(p.k) && |pk| >= 32
    requires |z| == p.l && |z| >= 1 && Polys(z) && |h| == p.k && Sized(h) && Supported(p.gamma2)
    ensures CommitmentMatches(o, p, pk, mu, ctilde, z, h) <==>
            ctilde == CommitHash(o, p, mu, RecoveredVec(o, pk[..32], z, o.challenge(ctilde, p.tau), KeyT1(p, pk), h, p.gamma2))
  {
    hide CommitHash, RecoveredVec, KeyT1;
  }

  // ---------- End to end ----------

  /** Whatever signing returns under a generated key verifies under the generated public key. */
  lemma SignedVerifies(o: Oracle, p: Params, seed: seq<uint8>, sk: seq<uint8>, msg: seq<uint8>, capacity: nat,
                       siglen: nat, was: seq<uint8>, now: seq<uint8>)
    requires Valid(p) && |sk| == SecretKeyLength(p.k, p.l, p.eta) && sk == SecretKeyBytes(SecretKeyOf(o, p, seed), p.eta)
    requires SignResult(o, p, sk, msg, capacity, Success, siglen, was, now)
    ensures |PublicKeyBytes(PublicKeyOf(o, p, seed))| == PublicKeyLength(p.k) && siglen <= |now|
    ensures ValidSignature(o, p, PublicKeyBytes(PublicKeyOf(o, p, seed)), msg, now[..siglen])
  {
    hide *;
    DsaComplete.KeysAreValid(o, p, seed);
    SecretKeyRoundTrip(SecretKeyOf(o, p, seed), p.k, p.l, p.eta);
    var key := SecretKeyOf(o, p, seed);
    var n := SuccessIs(o, p, sk, msg, capacity, siglen, was, now);
    PassMeans(o, p, key, msg, n);
    DsaComplete.Completeness(o, p, seed, msg, n, SigningAttempt(o, p, key, msg, n), now[..siglen]);
  }

  lemma SuccessIs(o: Oracle, p: Params, sk: seq<uint8>, msg: seq<uint8>, capacity: nat,
                  siglen: nat, was: seq<uint8>, now: seq<uint8>) returns (n: nat)
    requires Valid(p) && |sk| == SecretKeyLength(p.k, p.l, p.eta)
    requires SignResult(o, p, sk, msg, capacity, Success, siglen, was, now)
    ensures siglen <= |now| && KeyShape(p, ReadSecretKey(sk, p.k, p.l, p.eta))
    ensures FirstPass(o, p, ReadSecretKey(sk, p.k, p.l, p.eta), msg, n)
    ensures now[..siglen] == SignatureOf(o, p, ReadSecretKey(sk, p.k, p.l, p.eta), msg, n)
  {
    hide ReadSecretKey, SignatureOf, NonePasses, AttemptPasses;
    ReadKeyFits(p, sk);
    var key := ReadSecretKey(sk, p.k, p.l, p.eta);
    n :| n < 10000 && FirstPass(o, p, key, msg, n) && now[..siglen] == SignatureOf(o, p, key, msg, n);
  }

  lemma PassMeans(o: Oracle, p: Params, key: SecretKey, msg: seq<uint8>, n: nat)
    requires Valid(p) && KeyShape(p, key) && FirstPass(o, p, key, msg, n)
    ensures var a := SigningAttempt(o, p, key, msg, n);
            Sized(a.h) && Passes(p, a) && AttemptPasses(o, p, key, msg, n)
            && SignatureOf(o, p, key, msg, n) == SignatureBytes(p, a)
  {
    hide SigningAttempt, Passes, SignatureBytes;
  }

  /** Both parameter sets are instances of the model, with the published sizes of keys and signatures. */
  lemma PublishedSizes()
    ensures Valid(ML_DSA_65) && Valid(ML_DSA_87)
    ensures PublicKeyLength(ML_DSA_65.k) == 1952 && PublicKeyLength(ML_DSA_87.k) == 2592
    ensures SecretKeyLength(ML_DSA_65.k, ML_DSA_65.l, ML_DSA_65.eta) == 4032
    ensures SecretKeyLength(ML_DSA_87.k, ML_DSA_87.l, ML_DSA_87.eta) == 4896
    ensures SignatureLength(ML_DSA_65) == 3309 && SignatureLength(ML_DSA_87) == 4627
  {
    VecLengthIs(T1Coding(), 6);
    VecLengthIs(T1Coding(), 8);
    VecLengthIs(T0Coding(), 6);
    VecLengthIs(T0Coding(), 8);
    VecLengthIs(EtaCoding(4), 5);
    VecLengthIs(EtaCoding(4), 6);
    VecLengthIs(EtaCoding(2), 7);
    VecLengthIs(EtaCoding(2), 8);
    VecLengthIs(ZCoding(0x8_0000), 5);
    VecLengthIs(ZCoding(0x8_0000), 7);
    hide VecLength;
  }

  /** Generate a key pair, sign with it, verify the result: verification succeeds whenever signing did. */
  method SignAndVerify(o: Oracle, p: Params, seed: seq<uint8>, msg: seq<uint8>) returns (signed: Status, verified: Status)
    requires Valid(p)
    ensures signed == Success || signed == Internal
    ensures signed == Success ==> verified == Success
  {
    hide *;
    var pk := new uint8[PublicKeyLength(p.k)];
    var sk := new uint8[SecretKeyLength(p.k, p.l, p.eta)];
    var sig := new uint8[SignatureLength(p)];
    ghost var pk0, sk0, sig0 := pk[..], sk[..], sig[..];
    var generated := KeyGen(o, p, pk, sk, Some(seed));
    KeysFitMeans(o, p, seed);
    WholeWritten(pk0, PublicKeyBytes(PublicKeyOf(o, p, seed)));
    WholeWritten(sk0, SecretKeyBytes(SecretKeyOf(o, p, seed), p.eta));
    var siglen;
    signed, siglen := Sign(o, p, sig, SignatureLength(p), msg, sk[..]);
    OutcomeIs(o, p, sk[..], msg, SignatureLength(p), signed, siglen, sig0, sig[..]);
    verified := VerificationFailed;
    if signed == Success {
      SignedVerifies(o, p, seed, sk[..], msg, SignatureLength(p), siglen, sig0, sig[..]);
      verified := Verify(o, p, sig[..siglen], msg, pk[..]);
    }
  }

  lemma KeysFitMeans(o: Oracle, p: Params, seed: seq<uint8>)
    requires Valid(p) && KeysFit(o, p, seed)
    ensures |PublicKeyBytes(PublicKeyOf(o, p, seed))| == PublicKeyLength(p.k)
    ensures |SecretKeyBytes(SecretKeyOf(o, p, seed), p.eta)| == SecretKeyLength(p.k, p.l, p.eta)
  {}

  lemma OutcomeIs(o: Oracle, p: Params, sk: seq<uint8>, msg: seq<uint8>, capacity: nat, status: Status,
                  siglen: nat, was: seq<uint8>, now: seq<uint8>)
    requires Valid(p) && |sk| == SecretKeyLength(p.k, p.l, p.eta) && capacity >= SignatureLength(p)
    requires SignResult(o, p, sk, msg, capacity, status, siglen, was, now)
    ensures status == Success || status == Internal
  {
    hide ReadSecretKey, SignatureOf, NonePasses, FirstPass;
  }
}
