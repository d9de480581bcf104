/**
 ML-KEM key generation, encapsulation and decapsulation. Polynomial vectors are local values; every polynomial
 operation runs on 16-bit arrays, so no step wraps, and every routine computes what KemSpec says.
 */
module MlKem {
  import opened MachineInts
  import opened Vectors
  import opened Congruence
  import opened PolyRing
  import opened BitPacking
  import opened PolyCoding
  import opened NttTower
  import opened KemConstants
  import opened KemReduce
  import opened KemPoly
  import opened KemCompress
  import opened KemPacking
  import opened KemModel
  import opened KemNtt
  import opened KemProducts
  import opened KemSpec
  import KemCorrect

  datatype Status = Success | InvalidParam | RandomFailed

  datatype Option<T> = None | Some(value: T)

  lemma VecAt(v: Vec, lo: int, hi: int, i: nat)
    requires VecInRange(v, lo, hi) && i < |v|
    ensures |v[i]| == 256 && InRange(v[i], lo, hi)
  {}

  lemma IsCanonical(r: seq<int>, s: seq<int>)
    requires EqMod(r, s, Q) && InRange(r, 0, Q)
    ensures r == Canonical(s)
  {
    hide Cong;
    forall i | 0 <= i < |s|
      ensures r[i] == s[i] % Q
    {
      CongModEq(r[i], s[i], Q);
    }
  }

  /** Reduction to the centred residues and then to the canonical ones. */
  method Normalize(a: array<int16>)
    requires a.Length == 256
    modifies a
    ensures EqMod(a[..], old(a[..]), Q) && InRange(a[..], 0, Q)
  {
    hide *;
    ghost var s: seq<int> := a[..];
    PolyReduce(a);
    ghost var c: seq<int> := a[..];
    RangeWidens(c, -1664, 1665, -3328, 6658);
    PolyCsubQ(a);
    ResidueCong(a[..], c, s);
  }

  lemma ResidueCong(r: seq<int>, c: seq<int>, s: seq<int>)
    requires |r| == |c| == 256 && EqMod(c, s, Q) && forall i :: 0 <= i < 256 ==> r[i] == c[i] % Q
    ensures EqMod(r, s, Q) && Q == 3329
  {
    hide Cong;
    forall i | 0 <= i < 256
      ensures Cong(r[i], s[i], Q)
    {
      CongMod(c[i], Q);
      CongTrans(r[i], c[i], s[i], Q);
    }
  }

  /** Noise polynomials with consecutive nonces. */
  method SampleNoise(o: Oracle, seed: seq<uint8>, from: nat, n: nat, eta: int) returns (v: Vec)
    ensures v == o.NoiseVec(seed, from, n, eta) && VecInRange(v, -3, 4)
  {
    v := [];
    var i := 0;
    while i < n
      invariant 0 <= i <= n && |v| == i
      invariant forall j :: 0 <= j < i ==> v[j] == o.noise(seed, from + j, eta)
    {
      v := v + [o.noise(seed, from + i, eta)];
      i := i + 1;
    }
  }

  method TransformVec(v: Vec) returns (r: Vec)
    requires VecInRange(v, -3328, 3329)
    ensures AreHats(r, v)
  {
    hide IsHat, InRange;
    r := [];
    var i := 0;
    while i < |v|
      invariant 0 <= i <= |v| && |r| == i
      invariant forall j :: 0 <= j < i ==> IsHat(r[j], v[j])
    {
      var hat := Transform(v[i]);
      r := r + [hat];
      i := i + 1;
    }
  }

  /** Row i of the matrix, sampled entry by entry. */
  method SampleRow(o: Oracle, rho: seq<uint8>, i: uint8, k: nat) returns (row: Vec)
    requires 0 < k <= 4
    ensures row == o.Row(rho, i, k) && Fits12(row)
  {
    row := [];
    var j := 0;
    while j < k
      invariant 0 <= j <= k && |row| == j
      invariant forall n :: 0 <= n < j ==> row[n] == o.uniform(rho + [n, i])
    {
      row := row + [o.uniform(rho + [j, i])];
      j := j + 1;
    }
    assert row == o.Row(rho, i, k);
    UniformFits(row);
  }

  /** Row i of the transpose. */
  method SampleColumn(o: Oracle, rho: seq<uint8>, i: uint8, k: nat) returns (row: Vec)
    requires 0 < k <= 4
    ensures row == o.Column(rho, i, k) && Fits12(row)
  {
    row := [];
    var j := 0;
    while j < k
      invariant 0 <= j <= k && |row| == j
      invariant forall n :: 0 <= n < j ==> row[n] == o.uniform(rho + [i, n])
    {
      row := row + [o.uniform(rho + [i, j])];
      j := j + 1;
    }
    assert row == o.Column(rho, i, k);
    UniformFits(row);
  }

  lemma UniformFits(row: Vec)
    requires forall n :: 0 <= n < |row| ==> |row[n]| == 256 && InRange(row[n], 0, Q)
    ensures Fits12(row)
  {}

  // ---------- Key generation ----------

  /** The transform of A s + e at one row, canonical. */
  method PublicRow(row: Vec, shat: Vec, ehat: seq<int>, k: nat, ghost s: Vec, ghost e: seq<int>) returns (t: seq<int>)
    requires 0 < k <= 4 && |row| == |shat| == |s| == k && Fits12(row) && AreHats(shat, s) && IsHat(ehat, e)
    ensures Polys(row) && Polys(s) && |e| == 256 && t == HatSeq(Add(RowProduct(row, s, k), e))
  {
    hide *;
    HatsArePolys(shat, s);
    Fits12At(row, 0);
    HatFits(ehat, e);
    var a := PointwiseAcc(row, shat, k, s);
    ghost var acc: seq<int> := a[..];
    PolyToMont(a);
    ghost var m: seq<int> := a[..];
    var b := Scratch(ehat);
    SumFits16(m, ehat);
    PolyAdd(a, a, b);
    ghost var u: seq<int> := a[..];
    Normalize(a);
    t := a[..];
    PublicRowIs(row, s, k, e, ehat, acc, m, u, t);
  }

  lemma SumFits16(m: seq<int>, e: seq<int>)
    requires |m| == |e| == 256 && InRange(m, -3328, 3329) && Bounded(e, 0, 256, 26632)
    ensures InRange(Add(m, e), -0x8000, 0x8000)
  {
    assert forall i :: 0 <= i < 256 ==> Small(e[i], 26632);
  }

  lemma PublicRowIs(row: Vec, s: Vec, k: nat, e: seq<int>, ehat: seq<int>, acc: seq<int>, m: seq<int>, u: seq<int>, t: seq<int>)
    requires 1 <= k <= |row| && k <= |s| && Polys(row) && Polys(s) && IsHat(ehat, e) && Accumulated(acc, row, s, k)
    requires EqMod(m, Scale(R, acc), Q) && |m| == 256 && EqMod(u, Add(m, ehat), Q) && EqMod(t, u, Q) && InRange(t, 0, Q)
    ensures |e| == 256 && t == HatSeq(Add(RowProduct(row, s, k), e))
  {
    hide *;
    AccumulatedIs(acc, row, s, k);
    HatIsPairs(ehat, e);
    var x, p := RowAcc(row, s, k), RowProduct(row, s, k);
    TimesR(m, acc, x);
    TowerShape();
    EqModTrans(t, u, Add(m, ehat), Q);
    HatOfRow(row, s, k);
    BlocksSym(Hat(p), x, Q);
    BlocksTrans(Pairs(m), x, Hat(p), Q);
    PairsSum(t, m, ehat, Hat(p), Hat(e));
    HatAdd(p, e);
    CanonicalHat(t, Add(p, e));
  }

  lemma HatIsPairs(r: seq<int>, p: seq<int>)
    requires IsHat(r, p)
    ensures |r| == |p| == 256 && BlocksEq(Pairs(r), Hat(p), Q)
  {}

  /** The transform of a small polynomial, canonical. */
  method SecretRow(shat: seq<int>, ghost s: seq<int>) returns (t: seq<int>)
    requires IsHat(shat, s)
    ensures |s| == 256 && t == HatSeq(s)
  {
    hide *;
    HatFits(shat, s);
    var a := Scratch(shat);
    Normalize(a);
    t := a[..];
    SecretRowIs(shat, s, t);
  }

  lemma SecretRowIs(shat: seq<int>, s: seq<int>, t: seq<int>)
    requires IsHat(shat, s) && |t| == 256 && EqMod(t, shat, Q) && InRange(t, 0, Q)
    ensures |s| == 256 && t == HatSeq(s)
  {
    hide T, Cong, Hat, HatSeq;
    forall n | 0 <= n < 128
      ensures EqMod(Pairs(t)[n], Pairs(shat)[n], Q)
    {}
    BlocksTrans(Pairs(t), Pairs(shat), Hat(s), Q);
    CanonicalHat(t, s);
  }

  /** All rows of the public vector. */
  method PublicVec(o: Oracle, rho: seq<uint8>, shat: Vec, ehat: Vec, k: nat, ghost s: Vec, ghost e: Vec) returns (t: Vec)
    requires 0 < k <= 4 && |s| == |e| == k && AreHats(shat, s) && AreHats(ehat, e)
    ensures Polys(s) && Polys(e) && t == THatVec(o, rho, s, e)
  {
    hide *;
    HatsArePolys(shat, s);
    HatsArePolys(ehat, e);
    t := [];
    var i := 0;
    while i < k
      invariant 0 <= i <= k && |t| == i
      invariant forall n :: 0 <= n < i ==> t[n] == HatSeq(TPoly(o, rho, s, e, n))
    {
      var row := SampleRow(o, rho, i, k);
      var r := PublicRow(row, shat, ehat[i], k, s, e[i]);
      TPolyIs(o, rho, s, e, i);
      t := t + [r];
      i := i + 1;
    }
    THatVecIs(o, rho, s, e, t);
  }

  lemma TPolyIs(o: Oracle, rho: seq<uint8>, s: Vec, e: Vec, i: nat)
    requires 1 <= |s| == |e| <= 4 && Polys(s) && Polys(e) && i < |s|
    ensures Polys(o.Row(rho, i, |s|)) && |e[i]| == 256
    ensures TPoly(o, rho, s, e, i) == Add(RowProduct(o.Row(rho, i, |s|), s, |s|), e[i])
  {}

  lemma THatVecIs(o: Oracle, rho: seq<uint8>, s: Vec, e: Vec, t: Vec)
    requires 1 <= |s| == |e| <= 4 && Polys(s) && Polys(e) && |t| == |s|
    requires forall n :: 0 <= n < |s| ==> t[n] == HatSeq(TPoly(o, rho, s, e, n))
    ensures t == THatVec(o, rho, s, e)
  {
    hide HatSeq, TPoly;
  }

  method SecretVec(shat: Vec, ghost s: Vec) returns (t: Vec)
    requires AreHats(shat, s)
    ensures Polys(s) && t == SHatVec(s)
  {
    hide *;
    HatsArePolys(shat, s);
    t := [];
    var i := 0;
    while i < |shat|
      invariant 0 <= i <= |shat| && |t| == i
      invariant forall n :: 0 <= n < i ==> t[n] == HatSeq(s[n])
    {
      var r := SecretRow(shat[i], s[i]);
      t := t + [r];
      i := i + 1;
    }
    SHatVecIs(s, t);
  }

  lemma SHatVecIs(s: Vec, t: Vec)
    requires Polys(s) && |t| == |s| && forall n :: 0 <= n < |s| ==> t[n] == HatSeq(s[n])
    ensures t == SHatVec(s)
  {
    hide HatSeq;
  }

  lemma ValidRanges(p: Params)
    requires Valid(p)
    ensures 3 <= p.k <= 4 && Q == 3329 && (p.du == 10 || p.du == 11) && (p.dv == 4 || p.dv == 5)
    ensures Width(p.du) && Width(p.dv)
  {}

  lemma SecretsAre(o: Oracle, p: Params, d: seq<uint8>)
    requires Valid(p)
    ensures var g := o.sha3_512(d + [p.k]);
            SecretsOf(o, p, d) == Secrets(g[..32], o.NoiseVec(g[32..], 0, p.k, p.eta1), o.NoiseVec(g[32..], p.k, p.k, p.eta1))
  {}

  /** The key pair of a 32-byte seed, without the parts that decapsulation adds. */
  method KeypairInternal(o: Oracle, p: Params, pk: array<uint8>, sk: array<uint8>, seed: seq<uint8>)
    requires Valid(p) && pk != sk && PublicLength(p.k) <= pk.Length && VectorBytes(p.k) <= sk.Length
    modifies pk, sk
    ensures |PublicBytes(o, SecretsOf(o, p, seed))| == PublicLength(p.k)
    ensures |SecretBytes(SecretsOf(o, p, seed))| == VectorBytes(p.k)
    ensures pk[..] == Written(old(pk[..]), 0, PublicBytes(o, SecretsOf(o, p, seed)))
    ensures sk[..] == Written(old(sk[..]), 0, SecretBytes(SecretsOf(o, p, seed)))
  {
    hide *;
    ValidRanges(p);
    SecretsAre(o, p, seed);
    ghost var x := SecretsOf(o, p, seed);
    KemCorrect.KeysReadBack(o, p, x);
    KemCorrect.KeyVecsFit(o, x);
    var buf := o.sha3_512(seed + [p.k]);
    var rho, sigma := buf[..32], buf[32..];
    var s := SampleNoise(o, sigma, 0, p.k, p.eta1);
    var e := SampleNoise(o, sigma, p.k, p.k, p.eta1);
    VecWidens(s, -3, 4, -3328, 3329);
    VecWidens(e, -3, 4, -3328, 3329);
    var shat := TransformVec(s);
    var ehat := TransformVec(e);
    var t := PublicVec(o, rho, shat, ehat, p.k, s, e);
    var u := SecretVec(shat, s);
    ghost var was := pk[..];
    LengthsAre(p.k);
    PolyvecToBytes(pk, t);
    Store(pk, 384 * p.k, rho);
    WrittenIs(was, EncodeVec(Plain(12), t), rho);
    PublicBytesAre(o, x);
    PolyvecToBytes(sk, u);
    SecretBytesAre(x);
  }

  lemma LengthsAre(k: nat)
    ensures VecLength(Plain(12), k) == VectorBytes(k) == 384 * k && PublicLength(k) == 384 * k + 32
  {
    VecLengthIs(Plain(12), k);
  }

  lemma WrittenIs(was: seq<uint8>, a: seq<uint8>, b: seq<uint8>)
    requires |a| + |b| <= |was|
    ensures Written(was, 0, a)[..|a|] + b + Written(was, 0, a)[|a| + |b|..] == Written(was, 0, a + b)
  {}

  lemma PublicBytesAre(o: Oracle, x: Secrets)
    requires 1 <= |x.s| == |x.e| <= 4 && Polys(x.s) && Polys(x.e)
    ensures PublicBytes(o, x) == EncodeVec(Plain(12), THatVec(o, x.rho, x.s, x.e)) + x.rho
  {}

  lemma SecretBytesAre(x: Secrets)
    requires Polys(x.s)
    ensures SecretBytes(x) == EncodeVec(Plain(12), SHatVec(x.s))
  {}

  // ---------- Encryption ----------

  /** One polynomial of u, canonical. */
  method CipherRow(row: Vec, rhat: Vec, e1: seq<int>, k: nat, ghost r: Vec) returns (u: seq<int>)
    requires 0 < k <= 4 && |row| == |rhat| == |r| == k && Fits12(row) && AreHats(rhat, r)
    requires |e1| == 256 && InRange(e1, -3, 4)
    ensures Polys(row) && Polys(r) && u == Canonical(Add(RowProduct(row, r, k), e1))
  {
    hide *;
    HatsArePolys(rhat, r);
    Fits12At(row, 0);
    var a := PointwiseAcc(row, rhat, k, r);
    InverseRow(a, row, r, k);
    ghost var m: seq<int> := a[..];
    RangeWidens(e1, -3, 4, -0x8000, 0x8000);
    var b := Scratch(e1);
    RangeWidens(e1, -3, 4, -4, 4);
    SmallSum(m, e1, 4);
    PolyAdd(a, a, b);
    ghost var w: seq<int> := a[..];
    Normalize(a);
    u := a[..];
    CanonicalSum(u, w, m, RowProduct(row, r, k), e1);
  }

  lemma SmallSum(m: seq<int>, e: seq<int>, bound: int)
    requires |m| == |e| == 256 && InRange(m, -3328, 3329) && InRange(e, -bound, bound) && bound <= 3329
    ensures InRange(Add(m, e), -0x8000, 0x8000) && InRange(Sub(e, m), -0x8000, 0x8000)
  {}

  lemma CanonicalSum(u: seq<int>, w: seq<int>, m: seq<int>, p: seq<int>, e: seq<int>)
    requires |m| == |p| == |e| == 256 && EqMod(m, p, Q) && EqMod(w, Add(m, e), Q) && EqMod(u, w, Q) && InRange(u, 0, Q)
    ensures u == Canonical(Add(p, e))
  {
    EqModRefl(e, Q);
    AddCong(m, p, e, e, Q);
    EqModTrans(w, Add(m, e), Add(p, e), Q);
    EqModTrans(u, w, Add(p, e), Q);
    IsCanonical(u, Add(p, e));
  }

  method CipherVec(o: Oracle, rho: seq<uint8>, rhat: Vec, e1: Vec, k: nat, ghost r: Vec) returns (u: Vec)
    requires 0 < k <= 4 && |r| == |e1| == k && AreHats(rhat, r) && VecInRange(e1, -3, 4)
    ensures Polys(r) && Polys(e1) && u == UVec(o, rho, r, e1)
  {
    hide *;
    HatsArePolys(rhat, r);
    VecWidens(e1, -3, 4, -3, 4);
    u := [];
    var i := 0;
    while i < k
      invariant 0 <= i <= k && |u| == i
      invariant forall n :: 0 <= n < i ==> u[n] == UPoly(o, rho, r, e1, n)
    {
      var row := SampleColumn(o, rho, i, k);
      VecAt(e1, -3, 4, i);
      var x := CipherRow(row, rhat, e1[i], k, r);
      UPolyIs(o, rho, r, e1, i);
      u := u + [x];
      i := i + 1;
    }
    UVecIs(o, rho, r, e1, u);
  }

  lemma UPolyIs(o: Oracle, rho: seq<uint8>, r: Vec, e1: Vec, i: nat)
    requires 1 <= |r| == |e1| <= 4 && Polys(r) && Polys(e1) && i < |r|
    ensures Polys(o.Column(rho, i, |r|)) && |e1[i]| == 256
    ensures UPoly(o, rho, r, e1, i) == Canonical(Add(RowProduct(o.Column(rho, i, |r|), r, |r|), e1[i]))
  {
    hide Canonical;
  }

  lemma UVecIs(o: Oracle, rho: seq<uint8>, r: Vec, e1: Vec, u: Vec)
    requires 1 <= |r| == |e1| <= 4 && Polys(r) && Polys(e1) && |u| == |r|
    requires forall n :: 0 <= n < |r| ==> u[n] == UPoly(o, rho, r, e1, n)
    ensures u == UVec(o, rho, r, e1)
  {
    hide UPoly;
  }

  /** The polynomial v, canonical: two additions, each reduced. */
  method CipherValue(that: Vec, rhat: Vec, e2: seq<int>, msg: seq<uint8>, k: nat, ghost r: Vec) returns (v: seq<int>)
    requires 0 < k <= 4 && |that| == |rhat| == |r| == k && Fits12(that) && AreHats(rhat, r)
    requires |e2| == 256 && InRange(e2, -3, 4) && |msg| == 32
    ensures Polys(that) && Polys(r) && v == VPoly(that, r, e2, msg)
  {
    hide *;
    HatsArePolys(rhat, r);
    Fits12At(that, 0);
    var a := PointwiseAcc(that, rhat, k, r);
    InverseRow(a, that, r, k);
    ghost var m: seq<int> := a[..];
    RangeWidens(e2, -3, 4, -0x8000, 0x8000);
    var b := Scratch(e2);
    RangeWidens(e2, -3, 4, -4, 4);
    SmallSum(m, e2, 4);
    PolyAdd(a, a, b);
    ghost var w: seq<int> := a[..];
    var mp := PolyFromMsg(msg);
    QIs();
    RangeWidens(mp, 0, Q, -0x8000, 0x8000);
    var c := Scratch(mp);
    RangeWidens(w, -1664, 1665, -3328, 3329);
    RangeWidens(mp, 0, Q, -3329, 3329);
    SmallSum(w, mp, 3329);
    PolyAdd(a, a, c);
    ghost var y: seq<int> := a[..];
    Normalize(a);
    v := a[..];
    SumCong(w, m, RowProduct(that, r, k), e2);
    CanonicalSum(v, y, w, Add(RowProduct(that, r, k), e2), mp);
    VPolyIs(that, r, e2, msg);
  }

  lemma SumCong(w: seq<int>, m: seq<int>, p: seq<int>, e: seq<int>)
    requires |m| == |p| == |e| == 256 && EqMod(m, p, Q) && EqMod(w, Add(m, e), Q)
    ensures EqMod(w, Add(p, e), Q)
  {
    EqModRefl(e, Q);
    AddCong(m, p, e, e, Q);
    EqModTrans(w, Add(m, e), Add(p, e), Q);
  }

  lemma VPolyIs(that: Vec, r: Vec, e2: seq<int>, msg: seq<uint8>)
    requires 1 <= |that| == |r| && Polys(that) && Polys(r) && |e2| == 256
    ensures VPoly(that, r, e2, msg) == Canonical(Add(Add(RowProduct(that, r, |r|), e2), MessagePoly(msg)))
  {
    hide Canonical, RowProduct, MessagePoly;
  }

  /** The compressed vector written to a buffer. */
  method CompressToBytes(ct: array<uint8>, u: Vec, d: nat)
    requires (d == 10 || d == 11) && Polys16(u) && VecLength(Plain(d), |u|) <= ct.Length
    modifies ct
    ensures |EncodeVec(Plain(d), CompressVec(u, d))| == VecLength(Plain(d), |u|)
    ensures ct[..] == Written(old(ct[..]), 0, EncodeVec(Plain(d), CompressVec(u, d)))
  {
    hide *;
    ghost var was := ct[..];
    ghost var c := CompressVec(u, d);
    WidthOf(d);
    KemCorrect.CompressedVecFits(u, d);
    NoPolys(Plain(d), was, 0);
    assert c[..0] == [];
    var i, at := 0, 0;
    while i < |u|
      invariant 0 <= i <= |u| && at == VecLength(Plain(d), i)
      invariant |EncodeVec(Plain(d), c[..i])| == VecLength(Plain(d), i) && at <= |was|
      invariant ct[..] == Written(was, 0, EncodeVec(Plain(d), c[..i]))
    {
      VecWritten(was, 0, Plain(d), c, i);
      CompressedRow(u, d, i);
      PolyCompress(ct, at, u[i], d);
      at := at + 32 * d;
      i := i + 1;
    }
    assert c[..|u|] == c;
  }

  lemma WidthOf(d: int)
    requires d == 10 || d == 11
    ensures Width(d)
  {}

  lemma CompressedRow(u: Vec, d: nat, i: nat)
    requires Polys16(u) && i < |u|
    ensures Poly16(u[i]) && CompressVec(u, d)[i] == CompressAll(u[i], d)
  {
    hide CompressAll;
  }

  /** Encryption of a 32-byte message under an encoded public key. */
  method EncryptInternal(o: Oracle, p: Params, ct: array<uint8>, pk: seq<uint8>, msg: seq<uint8>, coins: seq<uint8>)
    requires Valid(p) && |pk| == PublicLength(p.k) && |msg| == 32 && CiphertextLength(p) <= ct.Length
    modifies ct
    ensures |Encrypt(o, p, pk, msg, coins)| == CiphertextLength(p)
    ensures ct[..] == Written(old(ct[..]), 0, Encrypt(o, p, pk, msg, coins))
  {
    hide *;
    ValidRanges(p);
    LengthsAre(p.k);
    CoinsAre(o, p, coins);
    KemCorrect.EncryptIs(o, p, pk, msg, coins);
    ghost var was := ct[..];
    ghost var c := CoinsOf(o, p, coins);
    var rho := pk[384 * p.k..];
    var r := SampleNoise(o, coins, 0, p.k, p.eta1);
    var e1 := SampleNoise(o, coins, p.k, p.k, p.eta2);
    var e2 := o.noise(coins, 2 * p.k, p.eta2);
    NoiseFits(e2);
    VecWidens(r, -3, 4, -3328, 3329);
    var rhat := TransformVec(r);
    HatsSame(rhat, r);
    CiphertextIs(p);
    var u := CipherVec(o, rho, rhat, e1, p.k, r);
    var that := PolyvecFromBytes(pk[..384 * p.k], p.k);
    KeyPartsAre(p.k, pk, that, rho);
    var v := CipherValue(that, rhat, e2, msg, p.k, r);
    UIs16(o, rho, r, e1);
    VIs16(that, r, e2, msg);
    CipherIs(o, p, rho, that, msg, c, u, v);
    KemCorrect.CipherReadBack(p, u, v);
    CompressToBytes(ct, u, p.du);
    PolyCompress(ct, VecLength(Plain(p.du), p.k), v, p.dv);
    WrittenTwice(was, 0, EncodeVec(Plain(p.du), CompressVec(u, p.du)), Encode(Plain(p.dv), CompressAll(v, p.dv)));
  }

  lemma CoinsAre(o: Oracle, p: Params, coins: seq<uint8>)
    requires Valid(p)
    ensures CoinsOf(o, p, coins) == Coins(o.NoiseVec(coins, 0, p.k, p.eta1), o.NoiseVec(coins, p.k, p.k, p.eta2),
                                          o.noise(coins, 2 * p.k, p.eta2))
  {}

  lemma NoiseFits(e: NoisePoly)
    ensures |e| == 256 && InRange(e, -3, 4)
  {}

  lemma KeyPartsAre(k: nat, pk: seq<uint8>, that: Vec, rho: seq<uint8>)
    requires |pk| == PublicLength(k) && VectorBytes(k) == 384 * k && VecLength(Plain(12), k) == 384 * k <= |pk|
    requires that == DecodeVec(Plain(12), pk[..384 * k], k) && rho == pk[384 * k..] && Twelve(that)
    ensures KeyVec(k, pk) == that && KeyRho(k, pk) == rho && |that| == k && Fits12(that)
  {}

  lemma VIs16(that: Vec, r: Vec, e2: seq<int>, msg: seq<uint8>)
    requires 1 <= |that| == |r| && Polys(that) && Polys(r) && |e2| == 256
    ensures Poly16(VPoly(that, r, e2, msg))
  {
    hide VPoly;
  }

  lemma CipherIs(o: Oracle, p: Params, rho: seq<uint8>, that: Vec, msg: seq<uint8>, c: Coins, u: Vec, v: seq<int>)
    requires AreCoins(c, p.k) && |that| == p.k && Polys(that)
    requires u == UVec(o, rho, c.r, c.e1) && v == VPoly(that, c.r, c.e2, msg) && Polys16(u) && Poly16(v)
    ensures EncryptWith(o, p, rho, that, msg, c) == CipherBytes(u, v, p.du, p.dv)
    ensures CipherBytes(u, v, p.du, p.dv)
         == EncodeVec(Plain(p.du), CompressVec(u, p.du)) + Encode(Plain(p.dv), CompressAll(v, p.dv))
  {
    hide UVec, VPoly, CompressVec, CompressAll, EncodeVec, Encode;
  }

  lemma CiphertextIs(p: Params)
    ensures CiphertextLength(p) == VecLength(Plain(p.du), p.k) + 32 * p.dv
  {}

  // ---------- Decryption ----------

  method DecompressFromBytes(buf: seq<uint8>, k: nat, d: nat) returns (u: Vec)
    requires (d == 10 || d == 11) && |buf| == VecLength(Plain(d), k)
    ensures u == DecompressVec(DecodeVec(Plain(d), buf, k), d) && VecInRange(u, 0, Q) && |u| == k
  {
    hide *;
    u := [];
    NoPolys(Plain(d), buf, 0);
    assert buf[..0] == [];
    var i, at := 0, 0;
    ghost var ts: Vec := [];
    while i < k
      invariant 0 <= i <= k && at == VecLength(Plain(d), i) <= |buf| && |u| == |ts| == i
      invariant ts == DecodeVec(Plain(d), buf[..at], i)
      invariant forall n :: 0 <= n < i ==> u[n] == DecompressAll(ts[n], d) && |u[n]| == 256 && InRange(u[n], 0, Q)
    {
      DecodeVecStep(Plain(d), buf, i, k);
      var p := new int16[256];
      PolyDecompress(p, buf[at..at + 32 * d], d);
      ts := ts + [Decode(Plain(d), buf[at..at + 32 * d])];
      u := u + [p[..]];
      at := at + 32 * d;
      i := i + 1;
    }
    assert buf[..|buf|] == buf;
    DecompressVecIs(ts, u, d);
  }

  lemma DecompressVecIs(ts: Vec, u: Vec, d: nat)
    requires |u| == |ts|
    requires forall n :: 0 <= n < |u| ==> u[n] == DecompressAll(ts[n], d) && |u[n]| == 256 && InRange(u[n], 0, Q)
    ensures u == DecompressVec(ts, d) && VecInRange(u, 0, Q)
  {
    hide DecompressAll, InRange;
  }

  /** The difference v' - s u', canonical. */
  method PlainValue(shat: Vec, uhat: Vec, v: seq<int>, k: nat, ghost u: Vec) returns (w: seq<int>)
    requires 0 < k <= 4 && |shat| == |uhat| == |u| == k && Fits12(shat) && AreHats(uhat, u)
    requires |v| == 256 && InRange(v, 0, Q)
    ensures Polys(shat) && Polys(u) && w == Canonical(Sub(v, RowProduct(shat, u, k)))
  {
    hide *;
    QIs();
    HatsArePolys(uhat, u);
    Fits12At(shat, 0);
    var a := PointwiseAcc(shat, uhat, k, u);
    InverseRow(a, shat, u, k);
    ghost var m: seq<int> := a[..];
    RangeWidens(v, 0, Q, -0x8000, 0x8000);
    RangeWidens(v, 0, Q, -3329, 3329);
    var b := Scratch(v);
    SmallSum(m, v, 3329);
    PolySub(b, b, a);
    ghost var d: seq<int> := b[..];
    Normalize(b);
    w := b[..];
    DifferenceIs(w, d, m, RowProduct(shat, u, k), v);
  }

  lemma DifferenceIs(w: seq<int>, d: seq<int>, m: seq<int>, p: seq<int>, v: seq<int>)
    requires |m| == |p| == |v| == 256 && EqMod(m, p, Q) && EqMod(d, Sub(v, m), Q) && EqMod(w, d, Q) && InRange(w, 0, Q)
    ensures w == Canonical(Sub(v, p))
  {
    EqModRefl(v, Q);
    SubCong(v, v, m, p, Q);
    EqModTrans(d, Sub(v, m), Sub(v, p), Q);
    EqModTrans(w, d, Sub(v, p), Q);
    IsCanonical(w, Sub(v, p));
  }

  /** Decryption. */
  method DecryptInternal(p: Params, ct: seq<uint8>, sk: seq<uint8>) returns (msg: seq<uint8>)
    requires Valid(p) && |ct| == CiphertextLength(p) && |sk| == VectorBytes(p.k)
    ensures msg == Decrypt(p, sk, ct) && |msg| == 32
  {
    hide *;
    ValidRanges(p);
    QIs();
    LengthsAre(p.k);
    CiphertextIs(p);
    var at := VecLength(Plain(p.du), p.k);
    var u := DecompressFromBytes(ct[..at], p.k, p.du);
    var scratch := new int16[256];
    PolyDecompress(scratch, ct[at..], p.dv);
    var v: seq<int> := scratch[..];
    var shat := PolyvecFromBytes(sk, p.k);
    SecretPartsAre(p, sk, ct, shat, u, v);
    VecWidens(u, 0, Q, -3328, 3329);
    var uhat := TransformVec(u);
    HatsSame(uhat, u);
    var w := PlainValue(shat, uhat, v, p.k, u);
    KemCorrect.WPolyIs(p, sk, ct, u, v, shat);
    KemCorrect.DecryptIs(p, sk, ct);
    msg := PolyToMsg(w);
  }

  lemma HatsSame(vhat: Vec, v: Vec)
    requires AreHats(vhat, v)
    ensures |vhat| == |v|
  {}

  lemma SecretPartsAre(p: Params, sk: seq<uint8>, ct: seq<uint8>, shat: Vec, u: Vec, v: seq<int>)
    requires |ct| == CiphertextLength(p) && |sk| == VectorBytes(p.k) && Twelve(shat)
    requires VecLength(Plain(p.du), p.k) <= |ct|
    requires shat == DecodeVec(Plain(12), sk, p.k)
    requires u == DecompressVec(DecodeVec(Plain(p.du), ct[..VecLength(Plain(p.du), p.k)], p.k), p.du)
    requires v == DecompressAll(Decode(Plain(p.dv), ct[VecLength(Plain(p.du), p.k)..]), p.dv)
    ensures SHat(p, sk) == shat && UPrime(p, ct) == u && VPrime(p, ct) == v && |shat| == p.k && Fits12(shat)
  {
    hide DecodeVec, DecompressVec, DecompressAll, Decode, VecLength;
  }

  // ---------- Encapsulation and decapsulation ----------

  /** Secret vector, public key, its hash, and the rejection seed. */
  function DecapsKeyLength(k: nat): nat
  {
    VectorBytes(k) + PublicLength(k) + 64
  }

  ghost function DecapsKey(o: Oracle, x: Secrets, z: seq<uint8>): seq<uint8>
    requires 1 <= |x.s| == |x.e| <= 4 && Polys(x.s) && Polys(x.e)
  {
    SecretBytes(x) + PublicBytes(o, x) + o.sha3_256(PublicBytes(o, x)) + z
  }

  /** The parts of a decapsulation key. */
  datatype KeyParts = KeyParts(s: seq<uint8>, pk: seq<uint8>, hash: seq<uint8>, z: seq<uint8>)

  function PartsOf(k: nat, sk: seq<uint8>): (r: KeyParts)
    requires |sk| == DecapsKeyLength(k)
    ensures |r.s| == VectorBytes(k) && |r.pk| == PublicLength(k) && |r.hash| == 32 && |r.z| == 32
  {
    var a := VectorBytes(k);
    var b := a + PublicLength(k);
    KeyParts(sk[..a], sk[a..b], sk[b..b + 32], sk[b + 32..])
  }

  lemma PartsOfKey(o: Oracle, p: Params, x: Secrets, z: seq<uint8>)
    requires 1 <= |x.s| == |x.e| == p.k <= 4 && Polys(x.s) && Polys(x.e) && |x.rho| == 32 && |z| == 32
    ensures |DecapsKey(o, x, z)| == DecapsKeyLength(p.k)
    ensures PartsOf(p.k, DecapsKey(o, x, z))
         == KeyParts(SecretBytes(x), PublicBytes(o, x), o.sha3_256(PublicBytes(o, x)), z)
  {
    hide *;
    KemCorrect.KeysReadBack(o, p, x);
    DecapsKeyIs(o, x, z);
    DecapsLengthIs(p.k);
    FourParts(SecretBytes(x), PublicBytes(o, x), o.sha3_256(PublicBytes(o, x)), z);
    PartsAre(p.k, DecapsKey(o, x, z));
  }

  lemma PartsAre(k: nat, sk: seq<uint8>)
    requires |sk| == DecapsKeyLength(k)
    ensures VectorBytes(k) + PublicLength(k) + 64 == |sk|
    ensures var (a, b) := (VectorBytes(k), VectorBytes(k) + PublicLength(k));
            PartsOf(k, sk) == KeyParts(sk[..a], sk[a..b], sk[b..b + 32], sk[b + 32..])
  {
    hide VectorBytes, PublicLength;
  }

  lemma FourParts(a: seq<uint8>, b: seq<uint8>, c: seq<uint8>, d: seq<uint8>)
    ensures var s := a + b + c + d;
            s[..|a|] == a && s[|a|..|a| + |b|] == b && s[|a| + |b|..|a| + |b| + |c|] == c && s[|a| + |b| + |c|..] == d
  {}

  /** Key generation takes k and eta1 only; the other parameters do not matter to it. */
  function KeyParams(k: nat, eta1: int): Params
  {
    Params(k, eta1, 2, 10, 4)
  }

  lemma KeyParamsAre(k: nat, eta1: int)
    ensures KeyParams(k, eta1).k == k && (Valid(KeyParams(k, eta1)) <==> (k == 3 || k == 4) && (eta1 == 2 || eta1 == 3))
  {}

  lemma SameSecrets(o: Oracle, p: Params, d: seq<uint8>)
    requires Valid(p)
    ensures Valid(KeyParams(p.k, p.eta1)) && SecretsOf(o, KeyParams(p.k, p.eta1), d) == SecretsOf(o, p, d)
    ensures (p.k == 3 || p.k == 4) && (p.eta1 == 2 || p.eta1 == 3)
  {
    hide Oracle.NoiseVec;
  }

  /** Key generation from two random strings; a failing source leaves both buffers as they were. */
  method KeyGen(o: Oracle, k: nat, eta1: int, pk: array<uint8>, sk: array<uint8>, d: Option<Bytes32>, z: Option<Bytes32>)
    returns (status: Status)
    requires pk != sk && (k == 3 || k == 4 ==> PublicLength(k) <= pk.Length && DecapsKeyLength(k) <= sk.Length)
    modifies pk, sk
    ensures status == InvalidParam <==> (k != 3 && k != 4) || (eta1 != 2 && eta1 != 3)
    ensures status != InvalidParam && (d == None || z == None) ==> status == RandomFailed
    ensures status != Success ==> pk[..] == old(pk[..]) && sk[..] == old(sk[..])
    ensures status != InvalidParam && d.Some? && z.Some? ==> status == Success && Valid(KeyParams(k, eta1))
    ensures status == Success ==> Generated(o, KeyParams(k, eta1), d, z, old(pk[..]), old(sk[..]), pk[..], sk[..])
  {
    hide *;
    KeyParamsAre(k, eta1);
    if (k != 3 && k != 4) || (eta1 != 2 && eta1 != 3) {
      return InvalidParam;
    }
    var p := KeyParams(k, eta1);
    if d == None || z == None {
      return RandomFailed;
    }
    ghost var x, was := SecretsOf(o, p, d.value), sk[..];
    ValidRanges(p);
    DecapsLengthIs(p.k);
    PartsOfKey(o, p, x, z.value);
    ghost var pk0 := pk[..];
    KeypairInternal(o, p, pk, sk, d.value);
    var pkBytes := pk[..PublicLength(p.k)];
    PrefixWritten(pk0, PublicBytes(o, x));
    var offset := VectorBytes(p.k);
    StoreAt(sk, offset, pkBytes);
    WrittenTwice(was, 0, SecretBytes(x), pkBytes);
    offset := offset + PublicLength(p.k);
    StoreAt(sk, offset, o.sha3_256(pkBytes));
    WrittenTwice(was, 0, SecretBytes(x) + pkBytes, o.sha3_256(pkBytes));
    offset := offset + 32;
    StoreAt(sk, offset, z.value);
    WrittenTwice(was, 0, SecretBytes(x) + pkBytes + o.sha3_256(pkBytes), z.value);
    DecapsKeyIs(o, x, z.value);
    LengthsAre(p.k);
    MakeKeyParts(o, p.k, pk0, was, x, z.value, pkBytes, pk[..], sk[..]);
    MakeGenerated(o, p, d, z, pk0, was, pk[..], sk[..]);
    status := Success;
  }

  /** The buffers after successful key generation. */
  ghost predicate Generated(o: Oracle, p: Params, d: Option<Bytes32>, z: Option<Bytes32>, pk0: seq<uint8>, sk0: seq<uint8>,
                            pk: seq<uint8>, sk: seq<uint8>)
  {
    && Valid(p) && d.Some? && z.Some?
    && |PublicBytes(o, SecretsOf(o, p, d.value))| == PublicLength(p.k) <= |pk0|
    && |DecapsKey(o, SecretsOf(o, p, d.value), z.value)| == DecapsKeyLength(p.k) <= |sk0|
    && pk == Written(pk0, 0, PublicBytes(o, SecretsOf(o, p, d.value)))
    && sk == Written(sk0, 0, DecapsKey(o, SecretsOf(o, p, d.value), z.value))
    && Follows(o, p.k, pk, sk, z.value)
  }

  lemma MakeGenerated(o: Oracle, p: Params, d: Option<Bytes32>, z: Option<Bytes32>, pk0: seq<uint8>, sk0: seq<uint8>,
                      pk: seq<uint8>, sk: seq<uint8>)
    requires Valid(p) && d.Some? && z.Some?
    requires |PublicBytes(o, SecretsOf(o, p, d.value))| == PublicLength(p.k) <= |pk0|
    requires |DecapsKey(o, SecretsOf(o, p, d.value), z.value)| == DecapsKeyLength(p.k) <= |sk0|
    requires pk == Written(pk0, 0, PublicBytes(o, SecretsOf(o, p, d.value)))
    requires sk == Written(sk0, 0, DecapsKey(o, SecretsOf(o, p, d.value), z.value))
    requires Follows(o, p.k, pk, sk, z.value)
    ensures Generated(o, p, d, z, pk0, sk0, pk, sk)
  {
    hide PublicBytes, DecapsKey, SecretsOf, Written, Follows, PublicLength, DecapsKeyLength;
  }

  lemma GeneratedIs(o: Oracle, p: Params, d: Bytes32, z: Bytes32, pk0: seq<uint8>, sk0: seq<uint8>, pk: seq<uint8>, sk: seq<uint8>)
    requires Valid(p) && Generated(o, KeyParams(p.k, p.eta1), Some(d), Some(z), pk0, sk0, pk, sk)
    requires |pk0| == PublicLength(p.k) && |sk0| == DecapsKeyLength(p.k)
    ensures pk == PublicBytes(o, SecretsOf(o, p, d)) && sk == DecapsKey(o, SecretsOf(o, p, d), z)
  {
    SameSecrets(o, p, d);
    hide PublicBytes, DecapsKey, SecretsOf, Written, Follows, PublicLength, DecapsKeyLength;
    WholeWritten(pk0, PublicBytes(o, SecretsOf(o, p, d)));
    WholeWritten(sk0, DecapsKey(o, SecretsOf(o, p, d), z));
  }

  /** What follows the secret vector: the public key, its hash, and the rejection seed. */
  predicate Follows(o: Oracle, k: nat, pk: seq<uint8>, sk: seq<uint8>, z: seq<uint8>)
  {
    && 384 * k + 32 <= |pk| && 768 * k + 96 <= |sk|
    && sk[384 * k..768 * k + 32] == pk[..384 * k + 32]
    && sk[768 * k + 32..768 * k + 64] == o.sha3_256(pk[..384 * k + 32])
    && sk[768 * k + 64..768 * k + 96] == z
  }

  lemma MakeKeyParts(o: Oracle, k: nat, pk0: seq<uint8>, sk0: seq<uint8>, x: Secrets, z: seq<uint8>, pkBytes: seq<uint8>,
                     pk: seq<uint8>, sk: seq<uint8>)
    requires 1 <= |x.s| == |x.e| <= 4 && Polys(x.s) && Polys(x.e) && pkBytes == PublicBytes(o, x) && |z| == 32
    requires |SecretBytes(x)| == VectorBytes(k) == 384 * k && |pkBytes| == PublicLength(k) == 384 * k + 32
    requires |DecapsKey(o, x, z)| <= |sk0| && sk == Written(sk0, 0, DecapsKey(o, x, z))
    requires |pkBytes| <= |pk0| && pk == Written(pk0, 0, pkBytes)
    ensures Follows(o, k, pk, sk, z)
  {
    hide *;
    DecapsKeyIs(o, x, z);
    PrefixWritten(pk0, pkBytes);
    PrefixWritten(sk0, DecapsKey(o, x, z));
    FollowsFrom(o, k, SecretBytes(x), pkBytes, o.sha3_256(pkBytes), z, pk, sk);
  }

  lemma SliceOfPrefix(s: seq<uint8>, n: nat, i: nat, j: nat)
    requires i <= j <= n <= |s|
    ensures s[..n][i..j] == s[i..j]
  {}

  lemma FollowsFrom(o: Oracle, k: nat, a: seq<uint8>, b: seq<uint8>, h: seq<uint8>, z: seq<uint8>, pk: seq<uint8>,
                    sk: seq<uint8>)
    requires |a| == 384 * k && |b| == 384 * k + 32 && |h| == |z| == 32 && h == o.sha3_256(b)
    requires |b| <= |pk| && pk[..|b|] == b
    requires |a + b + h + z| <= |sk| && sk[..|a + b + h + z|] == a + b + h + z
    ensures Follows(o, k, pk, sk, z)
  {
    var n := 768 * k + 96;
    FourParts(a, b, h, z);
    SliceOfPrefix(sk, n, 384 * k, 768 * k + 32);
    SliceOfPrefix(sk, n, 768 * k + 32, 768 * k + 64);
    SliceOfPrefix(sk, n, 768 * k + 64, n);
  }

  lemma DecapsLengthIs(k: nat)
    ensures DecapsKeyLength(k) == VectorBytes(k) + PublicLength(k) + 64
  {}

  lemma DecapsKeyIs(o: Oracle, x: Secrets, z: seq<uint8>)
    requires 1 <= |x.s| == |x.e| <= 4 && Polys(x.s) && Polys(x.e)
    ensures DecapsKey(o, x, z) == SecretBytes(x) + PublicBytes(o, x) + o.sha3_256(PublicBytes(o, x)) + z
  {}

  /** The shared secret and the coins derived from a message and the hash of a key. */
  function Derive(o: Oracle, m: seq<uint8>, hash: seq<uint8>): (r: (seq<uint8>, seq<uint8>))
    ensures |r.0| == 32 && |r.1| == 32
  {
    var g := o.sha3_512(m + hash);
    (g[..32], g[32..])
  }

  /** The outputs of encapsulation for the message m. */
  ghost predicate Encapsulated(o: Oracle, p: Params, pk: seq<uint8>, m: seq<uint8>, ss: seq<uint8>,
                               was: seq<uint8>, now: seq<uint8>)
    requires Valid(p) && |pk| == PublicLength(p.k)
  {
    hide Encrypt, CiphertextLength;
    var (secret, coins) := Derive(o, m, o.sha3_256(pk));
    && ss == secret && |Encrypt(o, p, pk, m, coins)| == CiphertextLength(p) <= |was|
    && now == Written(was, 0, Encrypt(o, p, pk, m, coins))
  }

  /**
   Encapsulation: a key with a coefficient of q or more is refused; otherwise the shared secret and the ciphertext
   are derived from a random message.
   */
  method Encaps(o: Oracle, p: Params, ct: array<uint8>, ss: array<uint8>, pk: seq<uint8>, random: Option<Bytes32>)
    returns (status: Status)
    requires ct != ss && (Valid(p) ==> |pk| == PublicLength(p.k) && CiphertextLength(p) <= ct.Length && ss.Length == 32)
    modifies ct, ss
    ensures !Valid(p) || !AllCanonical(KeyVec(p.k, pk)) ==> status == InvalidParam
    ensures Valid(p) && AllCanonical(KeyVec(p.k, pk)) && random == None ==> status == RandomFailed
    ensures status != Success ==> ct[..] == old(ct[..]) && ss[..] == old(ss[..])
    ensures Valid(p) && AllCanonical(KeyVec(p.k, pk)) && random.Some? ==>
              && status == Success && Encapsulated(o, p, pk, random.value, ss[..], old(ct[..]), ct[..])
              && SharedSecret(o, p, pk, random.value, ss[..], ct[..])
  {
    hide *;
    if !Valid(p) {
      return InvalidParam;
    }
    ValidRanges(p);
    LengthsAre(p.k);
    KeyVecIs(p.k, pk);
    var r, v := PolyvecFromBytesCheck(pk[..384 * p.k], p.k);
    if r != 0 {
      return InvalidParam;
    }
    if random == None {
      return RandomFailed;
    }
    var m: seq<uint8> := random.value;
    var (secret, coins) := Derive(o, m, o.sha3_256(pk));
    EncryptInternal(o, p, ct, pk, m, coins);
    ghost var now := ct[..];
    Store(ss, 0, secret);
    assert ss[..] == secret;
    MakeEncapsulated(o, p, pk, m, secret, coins, old(ct[..]), ct[..]);
    MakeSharedSecret(o, p, pk, m, secret, coins, old(ct[..]), ct[..]);
    status := Success;
  }

  lemma MakeEncapsulated(o: Oracle, p: Params, pk: seq<uint8>, m: seq<uint8>, secret: seq<uint8>, coins: seq<uint8>,
                         was: seq<uint8>, now: seq<uint8>)
    requires Valid(p) && |pk| == PublicLength(p.k) && (secret, coins) == Derive(o, m, o.sha3_256(pk))
    requires |Encrypt(o, p, pk, m, coins)| == CiphertextLength(p) <= |was|
    requires now == Written(was, 0, Encrypt(o, p, pk, m, coins))
    ensures Encapsulated(o, p, pk, m, secret, was, now)
  {
    hide Encrypt, CiphertextLength, Derive;
  }

  /**
   The shared secret is the first half of the hash of the message and the hash of the key; the other half are the coins
   under which the message is encrypted.
   */
  ghost predicate SharedSecret(o: Oracle, p: Params, pk: seq<uint8>, m: seq<uint8>, ss: seq<uint8>, ct: seq<uint8>)
    requires Valid(p) && |pk| == PublicLength(p.k)
  {
    hide Encrypt, CiphertextLength;
    var g := o.sha3_512(m + o.sha3_256(pk));
    && ss == g[..32]
    && CiphertextLength(p) <= |ct| && ct[..CiphertextLength(p)] == Encrypt(o, p, pk, m, g[32..])
  }

  lemma MakeSharedSecret(o: Oracle, p: Params, pk: seq<uint8>, m: seq<uint8>, secret: seq<uint8>, coins: seq<uint8>,
                         was: seq<uint8>, ct: seq<uint8>)
    requires Valid(p) && |pk| == PublicLength(p.k) && (secret, coins) == Derive(o, m, o.sha3_256(pk))
    requires |Encrypt(o, p, pk, m, coins)| == CiphertextLength(p) <= |was|
    requires ct == Written(was, 0, Encrypt(o, p, pk, m, coins))
    ensures SharedSecret(o, p, pk, m, secret, ct)
  {
    DeriveMeans(o, m, o.sha3_256(pk));
    PrefixWritten(was, Encrypt(o, p, pk, m, coins));
    hide Encrypt, CiphertextLength, Derive, Written;
  }

  lemma DeriveMeans(o: Oracle, m: seq<uint8>, hash: seq<uint8>)
    ensures Derive(o, m, hash) == (o.sha3_512(m + hash)[..32], o.sha3_512(m + hash)[32..])
  {}

  lemma KeyVecIs(k: nat, pk: seq<uint8>)
    requires |pk| == PublicLength(k) && VectorBytes(k) == 384 * k && VecLength(Plain(12), k) == 384 * k <= |pk|
    ensures KeyVec(k, pk) == DecodeVec(Plain(12), pk[..384 * k], k)
  {}

  /** What decapsulation yields for a well-formed key. */
  ghost function DecapsSecret(o: Oracle, p: Params, sk: seq<uint8>, ct: seq<uint8>): (ss: seq<uint8>)
    requires Valid(p) && |sk| == DecapsKeyLength(p.k) && |ct| == CiphertextLength(p)
  {
    var key := PartsOf(p.k, sk);
    var m := Decrypt(p, key.s, ct);
    var (secret, coins) := Derive(o, m, key.hash);
    if Encrypt(o, p, key.pk, m, coins) == ct then secret else o.shake256(key.z + ct)
  }

  /** Decapsulation: agreement when the ciphertext is the re-encryption of its own decryption, else implicit rejection. */
  method Decaps(o: Oracle, p: Params, ss: array<uint8>, ct: seq<uint8>, sk: seq<uint8>) returns (status: Status)
    requires Valid(p) ==> |sk| == DecapsKeyLength(p.k) && |ct| == CiphertextLength(p) && ss.Length == 32
    modifies ss
    ensures !Valid(p) || !AllCanonical(SHat(p, PartsOf(p.k, sk).s)) ==> status == InvalidParam && ss[..] == old(ss[..])
    ensures Valid(p) && AllCanonical(SHat(p, PartsOf(p.k, sk).s)) ==>
              status == Success && ss[..] == DecapsSecret(o, p, sk, ct) && Answer(o, p, sk, ct, ss[..])
  {
    hide *;
    if !Valid(p) {
      return InvalidParam;
    }
    ValidRanges(p);
    LengthsAre(p.k);
    var key := PartsOf(p.k, sk);
    SHatIs(p, key.s);
    var r, v := PolyvecFromBytesCheck(key.s, p.k);
    if r != 0 {
      return InvalidParam;
    }
    var m := DecryptInternal(p, ct, key.s);
    var (secret, coins) := Derive(o, m, key.hash);
    var again := new uint8[CiphertextLength(p)];
    ghost var was := again[..];
    EncryptInternal(o, p, again, key.pk, m, coins);
    WholeWritten(was, Encrypt(o, p, key.pk, m, coins));
    var reject := o.shake256(key.z + ct);
    var same := ct == again[..];
    Store(ss, 0, if same then secret else reject);
    DecapsSecretIs(o, p, sk, ct);
    assert ss[..] == if same then secret else reject;
    MakeAnswer(o, p, sk, ct, key, m, secret, coins, ss[..]);
    status := Success;
  }

  /**
   What decapsulation answers, from the bytes of its key: the first half of the hash of the decrypted message and the
   stored hash if the message encrypts to the ciphertext under the other half, else the hash of z and the ciphertext.
   */
  ghost predicate Answer(o: Oracle, p: Params, sk: seq<uint8>, ct: seq<uint8>, ss: seq<uint8>)
  {
    var k := p.k;
    && |sk| == 768 * k + 96
    && AnswerFor(o, p, sk[..384 * k], sk[384 * k..768 * k + 32], sk[768 * k + 32..768 * k + 64], sk[768 * k + 64..], ct, ss)
  }

  ghost predicate AnswerFor(o: Oracle, p: Params, s: seq<uint8>, pk: seq<uint8>, hash: seq<uint8>, z: seq<uint8>, ct: seq<uint8>,
                            ss: seq<uint8>)
  {
    hide *;
    && Valid(p) && |s| == VectorBytes(p.k) && |pk| == PublicLength(p.k) && |ct| == CiphertextLength(p)
    && var m := Decrypt(p, s, ct);
    var g := o.sha3_512(m + hash);
    ss == if Encrypt(o, p, pk, m, g[32..]) == ct then g[..32] else o.shake256(z + ct)
  }

  lemma MakeAnswer(o: Oracle, p: Params, sk: seq<uint8>, ct: seq<uint8>, key: KeyParts, m: seq<uint8>, secret: seq<uint8>,
                   coins: seq<uint8>, ss: seq<uint8>)
    requires Valid(p) && |ct| == CiphertextLength(p) && |sk| == DecapsKeyLength(p.k) && key == PartsOf(p.k, sk)
    requires m == Decrypt(p, key.s, ct) && (secret, coins) == Derive(o, m, key.hash)
    requires ss == if Encrypt(o, p, key.pk, m, coins) == ct then secret else o.shake256(key.z + ct)
    ensures Answer(o, p, sk, ct, ss)
  {
    hide *;
    LengthsAre(p.k);
    DecapsLengthIs(p.k);
    PartsAre(p.k, sk);
    DeriveMeans(o, m, key.hash);
    MakeAnswerFor(o, p, key.s, key.pk, key.hash, key.z, ct, ss);
    ShowAnswer(o, p, sk, ct, ss);
  }

  lemma MakeAnswerFor(o: Oracle, p: Params, s: seq<uint8>, pk: seq<uint8>, hash: seq<uint8>, z: seq<uint8>, ct: seq<uint8>,
                      ss: seq<uint8>)
    requires Valid(p) && |s| == VectorBytes(p.k) && |pk| == PublicLength(p.k) && |ct| == CiphertextLength(p)
    requires var m := Decrypt(p, s, ct);
             var g := o.sha3_512(m + hash);
             ss == if Encrypt(o, p, pk, m, g[32..]) == ct then g[..32] else o.shake256(z + ct)
    ensures AnswerFor(o, p, s, pk, hash, z, ct, ss)
  {
    hide Valid, VectorBytes, PublicLength, CiphertextLength, Decrypt, Encrypt;
  }

  lemma ShowAnswer(o: Oracle, p: Params, sk: seq<uint8>, ct: seq<uint8>, ss: seq<uint8>)
    requires var k := p.k;
             && |sk| == 768 * k + 96
             && AnswerFor(o, p, sk[..384 * k], sk[384 * k..768 * k + 32], sk[768 * k + 32..768 * k + 64], sk[768 * k + 64..], ct, ss)
    ensures Answer(o, p, sk, ct, ss)
  {
    hide AnswerFor;
  }

  lemma SHatIs(p: Params, sk: seq<uint8>)
    requires |sk| == VectorBytes(p.k)
    ensures SHat(p, sk) == DecodeVec(Plain(12), sk, p.k)
  {}

  lemma DecapsSecretIs(o: Oracle, p: Params, sk: seq<uint8>, ct: seq<uint8>)
    requires Valid(p) && |sk| == DecapsKeyLength(p.k) && |ct| == CiphertextLength(p)
    ensures var key := PartsOf(p.k, sk);
            var m := Decrypt(p, key.s, ct);
            var (secret, coins) := Derive(o, m, key.hash);
            DecapsSecret(o, p, sk, ct) == if Encrypt(o, p, key.pk, m, coins) == ct then secret else o.shake256(key.z + ct)
  {
    hide Decrypt, Encrypt, PartsOf, Derive;
  }

  // ---------- Agreement and implicit rejection ----------

  /** The noise of encrypting m with these coins leaves every message bit readable. */
  ghost predicate NoiseReadable(o: Oracle, p: Params, x: Secrets, c: Coins, m: seq<uint8>)
  {
    KemCorrect.Shaped(x, c, p.k) && KemCorrect.AllReadable(KemCorrect.TotalNoise(o, p, x, c, m), m)
  }

  lemma NoiseReadableIs(o: Oracle, p: Params, x: Secrets, c: Coins, m: seq<uint8>)
    requires NoiseReadable(o, p, x, c, m)
    ensures KemCorrect.Shaped(x, c, p.k) && KemCorrect.AllReadable(KemCorrect.TotalNoise(o, p, x, c, m), m)
    ensures 1 <= |x.s| == |x.e| == p.k <= 4 && Polys(x.s) && Polys(x.e)
  {
    hide KemCorrect.TotalNoise;
  }

  /** With readable noise, decapsulation returns the secret that encapsulation produced. */
  lemma Agreement(o: Oracle, p: Params, x: Secrets, z: seq<uint8>, m: seq<uint8>, pk: seq<uint8>, secret: seq<uint8>,
                  coins: seq<uint8>)
    requires Valid(p) && |m| == 32 && |z| == 32 && |x.rho| == 32
    requires NoiseReadable(o, p, x, CoinsOf(o, p, coins), m) && |x.s| == |x.e| == p.k && Polys(x.s) && Polys(x.e)
    requires pk == PublicBytes(o, x) && (secret, coins) == Derive(o, m, o.sha3_256(pk))
    ensures |pk| == PublicLength(p.k) && |DecapsKey(o, x, z)| == DecapsKeyLength(p.k)
    ensures |Encrypt(o, p, pk, m, coins)| == CiphertextLength(p)
    ensures DecapsSecret(o, p, DecapsKey(o, x, z), Encrypt(o, p, pk, m, coins)) == secret
  {
    hide *;
    ValidRanges(p);
    NoiseReadableIs(o, p, x, CoinsOf(o, p, coins), m);
    PartsOfKey(o, p, x, z);
    KemCorrect.DecryptCorrect(o, p, x, coins, m);
    DecapsSecretIs(o, p, DecapsKey(o, x, z), Encrypt(o, p, pk, m, coins));
  }

  /** The encryption of m to a key under the coins that m and the hash of the key determine. */
  ghost function EncryptionOf(o: Oracle, p: Params, key: KeyParts, m: seq<uint8>): (ct: seq<uint8>)
    requires Valid(p) && |key.pk| == PublicLength(p.k)
  {
    Encrypt(o, p, key.pk, m, Derive(o, m, key.hash).1)
  }

  /**
   Implicit rejection, for every decapsulation key. A ciphertext that is the encryption of no message is rejected: it
   yields the hash of the rejection seed and the ciphertext. So is one that decrypts to m but is not the encryption of m.
   */
  lemma ImplicitRejection(o: Oracle, p: Params, sk: seq<uint8>, ct: seq<uint8>)
    requires Valid(p) && |sk| == DecapsKeyLength(p.k) && |ct| == CiphertextLength(p)
    ensures (forall m :: |m| == 32 ==> ct != EncryptionOf(o, p, PartsOf(p.k, sk), m)) ==>
              DecapsSecret(o, p, sk, ct) == o.shake256(PartsOf(p.k, sk).z + ct)
    ensures forall m :: m == Decrypt(p, PartsOf(p.k, sk).s, ct) && ct != EncryptionOf(o, p, PartsOf(p.k, sk), m) ==>
              DecapsSecret(o, p, sk, ct) == o.shake256(PartsOf(p.k, sk).z + ct)
  {
    hide *;
    var key := PartsOf(p.k, sk);
    var m := Decrypt(p, key.s, ct);
    DecapsSecretIs(o, p, sk, ct);
    EncryptionIs(o, p, key, m);
    DecryptLength(p, key.s, ct);
  }

  lemma EncryptionIs(o: Oracle, p: Params, key: KeyParts, m: seq<uint8>)
    requires Valid(p) && |key.pk| == PublicLength(p.k)
    ensures EncryptionOf(o, p, key, m) == Encrypt(o, p, key.pk, m, Derive(o, m, key.hash).1)
  {}

  lemma DecryptLength(p: Params, sk: seq<uint8>, ct: seq<uint8>)
    requires Valid(p) && |ct| == CiphertextLength(p) && |sk| == VectorBytes(p.k)
    ensures |Decrypt(p, sk, ct)| == 32
  {
    hide *;
    KemCorrect.DecryptIs(p, sk, ct);
    var w := WPoly(p, sk, ct);
    CanonicalIs16(w);
    OneBitLength(CompressAll(w, 1));
  }

  lemma OneBitLength(ts: seq<nat>)
    requires |ts| == 256
    ensures |Encode(Plain(1), ts)| == 32
  {
    EncodedLength(Plain(1), ts);
  }

  /** The secrets of a key of the parameter set. */
  ghost predicate AreSecrets(p: Params, x: Secrets)
  {
    Valid(p) && |x.rho| == 32 && |x.s| == |x.e| == p.k && Polys(x.s) && Polys(x.e)
  }

  lemma SecretsMean(p: Params, x: Secrets)
    requires AreSecrets(p, x)
    ensures Valid(p) && |x.rho| == 32 && 1 <= |x.s| == |x.e| == p.k <= 4 && Polys(x.s) && Polys(x.e)
  {}

  /** The ciphertext of encapsulating m to the key of x, and the shared secret that goes with it. */
  ghost function Encapsulation(o: Oracle, p: Params, x: Secrets, m: seq<uint8>): (r: (seq<uint8>, seq<uint8>))
    requires AreSecrets(p, x)
  {
    hide *;
    SecretsMean(p, x);
    KemCorrect.KeysReadBack(o, p, x);
    var pk := PublicBytes(o, x);
    var d := Derive(o, m, o.sha3_256(pk));
    (Encrypt(o, p, pk, m, d.1), d.0)
  }

  /** What the decapsulation key of x and z makes of a ciphertext. */
  ghost function Decapsulation(o: Oracle, p: Params, x: Secrets, z: seq<uint8>, ct: seq<uint8>): (ss: seq<uint8>)
    requires AreSecrets(p, x) && |z| == 32 && |ct| == CiphertextLength(p)
  {
    hide *;
    SecretsMean(p, x);
    PartsOfKey(o, p, x, z);
    DecapsSecret(o, p, DecapsKey(o, x, z), ct)
  }

  ghost function Decrypted(o: Oracle, p: Params, x: Secrets, ct: seq<uint8>): (m: seq<uint8>)
    requires AreSecrets(p, x) && |ct| == CiphertextLength(p)
  {
    hide *;
    SecretsMean(p, x);
    KemCorrect.KeysReadBack(o, p, x);
    Decrypt(p, SecretBytes(x), ct)
  }

  /** The noise of encapsulating m to the key of x is readable. */
  ghost predicate MessageReadable(o: Oracle, p: Params, x: Secrets, m: seq<uint8>)
    requires AreSecrets(p, x)
  {
    hide *;
    SecretsMean(p, x);
    NoiseReadable(o, p, x, CoinsOf(o, p, Derive(o, m, o.sha3_256(PublicBytes(o, x))).1), m)
  }

  /**
   What a generated key makes of every ciphertext. The encapsulation of a message with readable noise yields the secret of
   that message. A ciphertext that decrypts to m without being the encapsulation of m is rejected, and so is every one
   that is the encapsulation of no message; rejection yields the hash of z and the ciphertext.
   */
  lemma DecapsulationDecides(o: Oracle, p: Params, x: Secrets, z: seq<uint8>, ct: seq<uint8>)
    requires AreSecrets(p, x) && |z| == 32 && |ct| == CiphertextLength(p)
    ensures forall m :: |m| == 32 && ct == Encapsulation(o, p, x, m).0 && MessageReadable(o, p, x, m) ==>
              Decapsulation(o, p, x, z, ct) == Encapsulation(o, p, x, m).1
    ensures ct != Encapsulation(o, p, x, Decrypted(o, p, x, ct)).0 ==>
              Decapsulation(o, p, x, z, ct) == o.shake256(z + ct)
    ensures (forall m :: |m| == 32 ==> ct != Encapsulation(o, p, x, m).0) ==>
              Decapsulation(o, p, x, z, ct) == o.shake256(z + ct)
  {
    hide *;
    forall m | |m| == 32 && ct == Encapsulation(o, p, x, m).0 && MessageReadable(o, p, x, m)
      ensures Decapsulation(o, p, x, z, ct) == Encapsulation(o, p, x, m).1
    {
      Accepts(o, p, x, z, m);
    }
    RejectsMismatch(o, p, x, z, ct);
  }

  lemma Accepts(o: Oracle, p: Params, x: Secrets, z: seq<uint8>, m: seq<uint8>)
    requires AreSecrets(p, x) && |z| == 32 && |m| == 32 && MessageReadable(o, p, x, m)
    ensures |Encapsulation(o, p, x, m).0| == CiphertextLength(p)
    ensures Decapsulation(o, p, x, z, Encapsulation(o, p, x, m).0) == Encapsulation(o, p, x, m).1
  {
    hide *;
    SecretsMean(p, x);
    KemCorrect.KeysReadBack(o, p, x);
    EncapsulationIs(o, p, x, m);
    MessageReadableIs(o, p, x, m);
    var d := Derive(o, m, o.sha3_256(PublicBytes(o, x)));
    Agreement(o, p, x, z, m, PublicBytes(o, x), d.0, d.1);
    DecapsulationIs(o, p, x, z, Encapsulation(o, p, x, m).0);
  }

  lemma RejectsMismatch(o: Oracle, p: Params, x: Secrets, z: seq<uint8>, ct: seq<uint8>)
    requires AreSecrets(p, x) && |z| == 32 && |ct| == CiphertextLength(p)
    ensures |Decrypted(o, p, x, ct)| == 32
    ensures ct != Encapsulation(o, p, x, Decrypted(o, p, x, ct)).0 ==>
              Decapsulation(o, p, x, z, ct) == o.shake256(z + ct)
  {
    hide *;
    SecretsMean(p, x);
    KemCorrect.KeysReadBack(o, p, x);
    PartsOfKey(o, p, x, z);
    var m := Decrypted(o, p, x, ct);
    DecryptedIs(o, p, x, ct);
    DecryptLength(p, SecretBytes(x), ct);
    EncapsulationIs(o, p, x, m);
    EncryptionIs(o, p, PartsOf(p.k, DecapsKey(o, x, z)), m);
    ImplicitRejection(o, p, DecapsKey(o, x, z), ct);
    DecapsulationIs(o, p, x, z, ct);
  }

  lemma EncapsulationIs(o: Oracle, p: Params, x: Secrets, m: seq<uint8>)
    requires AreSecrets(p, x)
    ensures |PublicBytes(o, x)| == PublicLength(p.k)
    ensures Encapsulation(o, p, x, m)
         == (Encrypt(o, p, PublicBytes(o, x), m, Derive(o, m, o.sha3_256(PublicBytes(o, x))).1),
             Derive(o, m, o.sha3_256(PublicBytes(o, x))).0)
  {
    KemCorrect.KeysReadBack(o, p, x);
    hide PublicBytes, Encrypt, Derive, PublicLength;
  }

  lemma DecapsulationIs(o: Oracle, p: Params, x: Secrets, z: seq<uint8>, ct: seq<uint8>)
    requires AreSecrets(p, x) && |z| == 32 && |ct| == CiphertextLength(p)
    ensures |DecapsKey(o, x, z)| == DecapsKeyLength(p.k)
    ensures Decapsulation(o, p, x, z, ct) == DecapsSecret(o, p, DecapsKey(o, x, z), ct)
  {
    PartsOfKey(o, p, x, z);
    hide DecapsKey, DecapsSecret, DecapsKeyLength, CiphertextLength;
  }

  lemma DecryptedIs(o: Oracle, p: Params, x: Secrets, ct: seq<uint8>)
    requires AreSecrets(p, x) && |ct| == CiphertextLength(p)
    ensures |SecretBytes(x)| == VectorBytes(p.k) && Decrypted(o, p, x, ct) == Decrypt(p, SecretBytes(x), ct)
  {
    KemCorrect.KeysReadBack(o, p, x);
    hide SecretBytes, Decrypt, VectorBytes, CiphertextLength;
  }

  lemma MessageReadableIs(o: Oracle, p: Params, x: Secrets, m: seq<uint8>)
    requires AreSecrets(p, x) && MessageReadable(o, p, x, m)
    ensures NoiseReadable(o, p, x, CoinsOf(o, p, Derive(o, m, o.sha3_256(PublicBytes(o, x))).1), m)
  {
    hide NoiseReadable, CoinsOf, Derive, PublicBytes;
  }

  /** Generated keys pass both type checks. */
  lemma GeneratedKeysPass(o: Oracle, p: Params, d: seq<uint8>, z: seq<uint8>)
    requires Valid(p) && |z| == 32
    ensures |PublicBytes(o, SecretsOf(o, p, d))| == PublicLength(p.k)
    ensures |DecapsKey(o, SecretsOf(o, p, d), z)| == DecapsKeyLength(p.k)
    ensures AllCanonical(KeyVec(p.k, PublicBytes(o, SecretsOf(o, p, d))))
    ensures AllCanonical(SHat(p, PartsOf(p.k, DecapsKey(o, SecretsOf(o, p, d), z)).s))
  {
    hide *;
    ValidRanges(p);
    var x := SecretsOf(o, p, d);
    PartsOfKey(o, p, x, z);
    KemCorrect.KeysReadBack(o, p, x);
    HatVecsCanonical(o, x);
  }

  lemma HatVecsCanonical(o: Oracle, x: Secrets)
    requires 1 <= |x.s| == |x.e| <= 4 && Polys(x.s) && Polys(x.e)
    ensures AllCanonical(THatVec(o, x.rho, x.s, x.e)) && AllCanonical(SHatVec(x.s))
  {
    hide HatSeq, TPoly;
  }

  /** The coins of encapsulating m to the key generated from d. */
  ghost function SessionCoins(o: Oracle, p: Params, d: seq<uint8>, m: seq<uint8>): Coins
    requires Valid(p)
  {
    CoinsOf(o, p, Derive(o, m, o.sha3_256(PublicBytes(o, SecretsOf(o, p, d)))).1)
  }

  /** Generate a key, encapsulate to it, decapsulate: with readable noise both sides hold the same secret. */
  method GenerateAndExchange(o: Oracle, p: Params, d: Bytes32, z: Bytes32, m: Bytes32)
    returns (sent: seq<uint8>, received: seq<uint8>)
    requires Valid(p)
    ensures NoiseReadable(o, p, SecretsOf(o, p, d), SessionCoins(o, p, d, m), m) ==> received == sent
  {
    hide *;
    ValidRanges(p);
    ghost var x := SecretsOf(o, p, d);
    var pk := new uint8[PublicLength(p.k)];
    var sk := new uint8[DecapsKeyLength(p.k)];
    var ct := new uint8[CiphertextLength(p)];
    var ss, ss2 := new uint8[32], new uint8[32];
    ghost var pk0, sk0, ct0 := pk[..], sk[..], ct[..];
    SameSecrets(o, p, d);
    var generated := KeyGen(o, p.k, p.eta1, pk, sk, Some(d), Some(z));
    GeneratedIs(o, p, d, z, pk0, sk0, pk[..], sk[..]);
    GeneratedKeysPass(o, p, d, z);
    var encapsulated := Encaps(o, p, ct, ss, pk[..], Some(m));
    sent := ss[..];
    EncapsulatedIs(o, p, pk[..], m, sent, ct0, ct[..]);
    var decapsulated := Decaps(o, p, ss2, ct[..], sk[..]);
    received := ss2[..];
    if NoiseReadable(o, p, x, SessionCoins(o, p, d, m), m) {
      SessionCoinsAre(o, p, d, m);
      Agreement(o, p, x, z, m, pk[..], Derive(o, m, o.sha3_256(pk[..])).0, Derive(o, m, o.sha3_256(pk[..])).1);
    }
  }

  lemma EncapsulatedIs(o: Oracle, p: Params, pk: seq<uint8>, m: seq<uint8>, ss: seq<uint8>, was: seq<uint8>, now: seq<uint8>)
    requires Valid(p) && |pk| == PublicLength(p.k) && |was| == CiphertextLength(p) && Encapsulated(o, p, pk, m, ss, was, now)
    ensures ss == Derive(o, m, o.sha3_256(pk)).0 && now == Encrypt(o, p, pk, m, Derive(o, m, o.sha3_256(pk)).1)
  {
    hide Encrypt, CiphertextLength, Derive;
  }

  lemma SessionCoinsAre(o: Oracle, p: Params, d: seq<uint8>, m: seq<uint8>)
    requires Valid(p)
    ensures SessionCoins(o, p, d, m) == CoinsOf(o, p, Derive(o, m, o.sha3_256(PublicBytes(o, SecretsOf(o, p, d)))).1)
  {}

  /** The parameters that encapsulation and decapsulation do not refuse. */
  lemma AcceptedParameters(p: Params)
    ensures Valid(p) <==> p in set k, e, u, v | k in {3, 4} && e in {2, 3} && u in {10, 11} && v in {4, 5} :: Params(k, e, 2, u, v)
  {}

  /** Both parameter sets are instances of the model, with the published sizes of keys and ciphertexts. */
  lemma PublishedSizes()
    ensures Valid(ML_KEM_768) && Valid(ML_KEM_1024)
    ensures PublicLength(ML_KEM_768.k) == 1184 && PublicLength(ML_KEM_1024.k) == 1568
    ensures DecapsKeyLength(ML_KEM_768.k) == 2400 && DecapsKeyLength(ML_KEM_1024.k) == 3168
    ensures CiphertextLength(ML_KEM_768) == 1088 && CiphertextLength(ML_KEM_1024) == 1568
  {
    VecLengthIs(Plain(12), 3);
    VecLengthIs(Plain(12), 4);
    VecLengthIs(Plain(10), 3);
    VecLengthIs(Plain(11), 4);
    hide VecLength;
  }
}
