/**
 Decryption correctness of ML-KEM. For a generated key and any message and coins, decryption returns the message if
 and only if every centred coefficient of the total noise lies in [-832, 832 - b], b being the message bit.
 */
module KemCorrect {
  import opened MachineInts
  import opened Vectors
  import opened Congruence
  import opened PolyRing
  import opened RingVectors
  import opened BitPacking
  import opened PolyCoding
  import opened KemConstants
  import opened KemReduce
  import opened KemPoly
  import opened KemCompress
  import opened KemPacking
  import opened KemModel
  import opened KemSpec
  import P = KemProducts

  // ---------- Rows as inner products ----------

  /** The polynomials behind transformed ones. */
  ghost function SourceVec(row: Vec): (r: Vec)
    requires Polys(row)
    ensures |r| == |row| && Sized(r, 256)
  {
    seq(|row|, j requires 0 <= j < |row| => P.Source(row[j]))
  }

  lemma {:induction false} RowIsDot(row: Vec, v: Vec, n: nat)
    requires 1 <= n <= |row| && n <= |v| && Polys(row) && Polys(v)
    ensures Sized(v, 256) && P.RowProduct(row, v, n) == Dot(SourceVec(row), v, n, 256)
  {
    hide P.Source, Act, Add;
    if n > 1 {
      RowIsDot(row, v, n - 1);
    }
  }

  /** The public matrix, as polynomials. */
  ghost function Matrix(o: Oracle, rho: seq<uint8>, k: nat): (a: seq<Vec>)
    requires 1 <= k <= 4
    ensures Square(a, k, 256)
  {
    seq(k, i requires 0 <= i < k => SourceVec(o.Row(rho, i, k)))
  }

  /** The columns that encryption samples are the columns of the matrix whose rows key generation samples. */
  lemma ColumnsAre(o: Oracle, rho: seq<uint8>, k: nat, j: nat)
    requires 1 <= k <= 4 && j < k
    ensures Polys(o.Column(rho, j, k)) && SourceVec(o.Column(rho, j, k)) == ColumnOf(Matrix(o, rho, k), j, k, 256)
  {
    hide P.Source;
    var a, c := Matrix(o, rho, k), o.Column(rho, j, k);
    forall i | 0 <= i < k
      ensures SourceVec(c)[i] == a[i][j]
    {
      assert c[i] == o.uniform(rho + [j, i]) && o.Row(rho, i, k)[j] == o.uniform(rho + [j, i]);
    }
  }

  // ---------- The noise ----------

  ghost function SubVec(a: Vec, b: Vec): (r: Vec)
    requires |a| == |b| && Sized(a, 256) && Sized(b, 256)
    ensures |r| == |a| && Sized(r, 256)
  {
    seq(|a|, i requires 0 <= i < |a| => Sub(a[i], b[i]))
  }

  /** What compression changes in a vector. */
  ghost function VecError(u: Vec, d: nat): (r: Vec)
    requires Polys16(u)
    ensures |r| == |u| && Sized(r, 256)
  {
    hide CompressAll, DecompressAll;
    SubVec(DecompressVec(CompressVec(u, d), d), u)
  }

  ghost function PolyError(v: seq<int>, d: nat): (r: seq<int>)
    requires Poly16(v)
    ensures |r| == 256
  {
    Sub(DecompressAll(CompressAll(v, d), d), v)
  }

  ghost predicate Shaped(x: Secrets, c: Coins, k: nat)
  {
    && 1 <= k <= 4 && |x.s| == |x.e| == k && Polys(x.s) && Polys(x.e) && AreCoins(c, k)
    && Sized(x.s, 256) && Sized(x.e, 256) && Sized(c.r, 256) && Sized(c.e1, 256)
  }

  lemma SizedOf(v: Vec)
    ensures Polys(v) <==> Sized(v, 256)
  {}

  lemma PublicVecIsPolys(o: Oracle, x: Secrets)
    requires 1 <= |x.s| == |x.e| <= 4 && Polys(x.s) && Polys(x.e)
    ensures Polys(THatVec(o, x.rho, x.s, x.e))
  {
    hide P.HatSeq, TPoly;
  }

  /** The u of an encryption under generated secrets. */
  ghost function HonestU(o: Oracle, x: Secrets, c: Coins, k: nat): (u: Vec)
    requires Shaped(x, c, k)
    ensures |u| == k && Polys(u) && Sized(u, 256) && Polys16(u)
  {
    UIs16(o, x.rho, c.r, c.e1);
    SizedOf(UVec(o, x.rho, c.r, c.e1));
    UVec(o, x.rho, c.r, c.e1)
  }

  ghost function HonestV(o: Oracle, x: Secrets, c: Coins, k: nat, msg: seq<uint8>): (v: seq<int>)
    requires Shaped(x, c, k)
    ensures Poly16(v)
  {
    hide THatVec, MessagePoly, P.RowProduct;
    PublicVecIsPolys(o, x);
    VPoly(THatVec(o, x.rho, x.s, x.e), c.r, c.e2, msg)
  }

  /** e . r + e2 + (error of v) - s . (e1 + error of u). */
  ghost function Noise(x: Secrets, c: Coins, du: Vec, dv: seq<int>, k: nat): (r: seq<int>)
    requires Shaped(x, c, k) && |du| == k && Sized(du, 256) && |dv| == 256
    ensures |r| == 256
  {
    Sub(Add(Add(Dot(x.e, c.r, k, 256), c.e2), dv), Dot(x.s, AddVec(c.e1, du, 256), k, 256))
  }

  // ---------- The value decryption rounds ----------

  lemma CanonicalCong(s: seq<int>)
    ensures EqMod(Canonical(s), s, Q)
  {
    forall i | 0 <= i < |s|
      ensures Cong(s[i] % Q, s[i], Q)
    {
      CongMod(s[i], Q);
    }
  }

  /** The vector t = A s + e. */
  ghost function TVec(o: Oracle, x: Secrets, k: nat): (t: Vec)
    requires 1 <= k <= 4 && |x.s| == |x.e| == k && Polys(x.s) && Polys(x.e)
    ensures |t| == k && Sized(t, 256)
  {
    seq(k, i requires 0 <= i < k => TPoly(o, x.rho, x.s, x.e, i))
  }

  lemma TVecIs(o: Oracle, x: Secrets, c: Coins, k: nat)
    requires Shaped(x, c, k)
    ensures TVec(o, x, k) == AddVec(Apply(Matrix(o, x.rho, k), x.s, k, 256), x.e, 256)
  {
    hide P.RowProduct, Dot, Add, SourceVec;
    forall i | 0 <= i < k
      ensures TVec(o, x, k)[i] == AddVec(Apply(Matrix(o, x.rho, k), x.s, k, 256), x.e, 256)[i]
    {
      RowIsDot(o.Row(x.rho, i, k), x.s, k);
    }
  }

  /** What the key bytes stand for: t and s. */
  lemma KeySources(o: Oracle, x: Secrets, c: Coins, k: nat)
    requires Shaped(x, c, k)
    ensures Polys(THatVec(o, x.rho, x.s, x.e)) && VecEq(SourceVec(THatVec(o, x.rho, x.s, x.e)), TVec(o, x, k), Q)
    ensures Polys(SHatVec(x.s)) && VecEq(SourceVec(SHatVec(x.s)), x.s, Q)
  {
    hide *;
    ShapedIs(x, c, k);
    PublicVecIsPolys(o, x);
    SecretVecIsPolys(x.s);
    var that, shat := SourceVec(THatVec(o, x.rho, x.s, x.e)), SourceVec(SHatVec(x.s));
    forall i | 0 <= i < k
      ensures EqMod(that[i], TVec(o, x, k)[i], Q) && EqMod(shat[i], x.s[i], Q)
    {
      KeySourceAt(o, x, k, i);
    }
    MakeVecEq(that, TVec(o, x, k));
    MakeVecEq(shat, x.s);
  }

  lemma MakeVecEq(a: Vec, b: Vec)
    requires |a| == |b| && forall i :: 0 <= i < |a| ==> EqMod(a[i], b[i], Q)
    ensures VecEq(a, b, Q)
  {}

  lemma SecretVecIsPolys(s: Vec)
    requires Polys(s)
    ensures Polys(SHatVec(s))
  {
    hide P.HatSeq;
  }

  lemma KeySourceAt(o: Oracle, x: Secrets, k: nat, i: nat)
    requires 1 <= k <= 4 && |x.s| == |x.e| == k && Polys(x.s) && Polys(x.e) && i < k
    requires Polys(THatVec(o, x.rho, x.s, x.e)) && Polys(SHatVec(x.s))
    ensures EqMod(SourceVec(THatVec(o, x.rho, x.s, x.e))[i], TVec(o, x, k)[i], Q)
    ensures EqMod(SourceVec(SHatVec(x.s))[i], x.s[i], Q)
  {
    P.SourceOfHatSeq(TPoly(o, x.rho, x.s, x.e, i));
    P.SourceOfHatSeq(x.s[i]);
    hide P.HatSeq, P.Source, TPoly, EqMod;
  }

  /** u = A^T r + e1. */
  lemma UIs(o: Oracle, x: Secrets, c: Coins, k: nat)
    requires Shaped(x, c, k)
    ensures VecEq(HonestU(o, x, c, k), AddVec(ApplyTransposed(Matrix(o, x.rho, k), c.r, k, k, 256), c.e1, 256), Q)
  {
    hide P.RowProduct, Dot, Add, SourceVec, EqMod, Matrix, Canonical;
    var a := Matrix(o, x.rho, k);
    var w := AddVec(ApplyTransposed(a, c.r, k, k, 256), c.e1, 256);
    forall j | 0 <= j < k
      ensures EqMod(HonestU(o, x, c, k)[j], w[j], Q)
    {
      ColumnsAre(o, x.rho, k, j);
      RowIsDot(o.Column(x.rho, j, k), c.r, k);
      CanonicalCong(w[j]);
    }
  }

  /** v = t . r + e2 + message. */
  lemma VIs(o: Oracle, x: Secrets, c: Coins, k: nat, msg: seq<uint8>)
    requires Shaped(x, c, k)
    ensures EqMod(HonestV(o, x, c, k, msg), Add(Add(Dot(TVec(o, x, k), c.r, k, 256), c.e2), MessagePoly(msg)), Q)
  {
    hide *;
    ShapedIs(x, c, k);
    KeySources(o, x, c, k);
    var that, t, m := THatVec(o, x.rho, x.s, x.e), TVec(o, x, k), MessagePoly(msg);
    RowIsDot(that, c.r, k);
    VecEqRefl(c.r, Q);
    DotCong(SourceVec(that), t, c.r, c.r, k, 256, Q);
    var d, d' := Dot(SourceVec(that), c.r, k, 256), Dot(t, c.r, k, 256);
    EqModRefl(c.e2, Q);
    EqModRefl(m, Q);
    AddCong(d, d', c.e2, c.e2, Q);
    AddCong(Add(d, c.e2), Add(d', c.e2), m, m, Q);
    HonestVIs(o, x, c, k, msg);
    CanonicalCong(Add(Add(d, c.e2), m));
    EqModTrans(HonestV(o, x, c, k, msg), Add(Add(d, c.e2), m), Add(Add(d', c.e2), m), Q);
  }

  lemma HonestVIs(o: Oracle, x: Secrets, c: Coins, k: nat, msg: seq<uint8>)
    requires Shaped(x, c, k)
    ensures Polys(THatVec(o, x.rho, x.s, x.e)) && |THatVec(o, x.rho, x.s, x.e)| == k
    ensures HonestV(o, x, c, k, msg)
         == Canonical(Add(Add(P.RowProduct(THatVec(o, x.rho, x.s, x.e), c.r, k), c.e2), MessagePoly(msg)))
  {
    PublicVecIsPolys(o, x);
    hide THatVec, P.RowProduct, Add, Canonical, MessagePoly;
  }

  lemma ShapedIs(x: Secrets, c: Coins, k: nat)
    requires Shaped(x, c, k)
    ensures 1 <= k <= 4 && |x.s| == |x.e| == |c.r| == |c.e1| == k && |c.e2| == 256 && Q == 3329
    ensures Polys(x.s) && Polys(x.e) && Polys(c.r) && Polys(c.e1)
    ensures Sized(x.s, 256) && Sized(x.e, 256) && Sized(c.r, 256) && Sized(c.e1, 256)
  {}

  lemma SubThenAdd(a: seq<int>, b: seq<int>)
    requires |a| == |b|
    ensures Add(b, Sub(a, b)) == a
  {}

  lemma VecErrorIs(u: Vec, d: nat)
    requires Polys16(u) && Sized(u, 256)
    ensures Sized(DecompressVec(CompressVec(u, d), d), 256)
    ensures AddVec(u, VecError(u, d), 256) == DecompressVec(CompressVec(u, d), d)
  {
    hide CompressAll, DecompressAll, Poly16;
    var u' := DecompressVec(CompressVec(u, d), d);
    forall i | 0 <= i < |u|
      ensures AddVec(u, VecError(u, d), 256)[i] == u'[i]
    {
      SubThenAdd(u'[i], u[i]);
    }
  }

  lemma AddVecAssoc(a: Vec, b: Vec, c: Vec)
    requires |a| == |b| == |c| && Sized(a, 256) && Sized(b, 256) && Sized(c, 256)
    ensures AddVec(AddVec(a, b, 256), c, 256) == AddVec(a, AddVec(b, c, 256), 256)
  {
    forall i | 0 <= i < |a|
      ensures Add(Add(a[i], b[i]), c[i]) == Add(a[i], Add(b[i], c[i]))
    {}
  }

  lemma AddVecCong(a: Vec, b: Vec, c: Vec)
    requires |a| == |c| && Sized(a, 256) && Sized(b, 256) && Sized(c, 256) && VecEq(a, b, Q)
    ensures VecEq(AddVec(a, c, 256), AddVec(b, c, 256), Q)
  {
    hide EqMod;
    forall i | 0 <= i < |a|
      ensures EqMod(AddVec(a, c, 256)[i], AddVec(b, c, 256)[i], Q)
    {
      EqModRefl(c[i], Q);
      AddCong(a[i], b[i], c[i], c[i], Q);
    }
  }

  /** s times the decompressed u: s . A^T r + s . (e1 + error of u). */
  lemma SecretTimesU(o: Oracle, x: Secrets, c: Coins, du: Vec, k: nat)
    requires Shaped(x, c, k) && |du| == k && Sized(du, 256) && Polys(SHatVec(x.s))
    requires Polys(AddVec(HonestU(o, x, c, k), du, 256))
    ensures EqMod(P.RowProduct(SHatVec(x.s), AddVec(HonestU(o, x, c, k), du, 256), k),
                  Add(Dot(x.s, ApplyTransposed(Matrix(o, x.rho, k), c.r, k, k, 256), k, 256),
                      Dot(x.s, AddVec(c.e1, du, 256), k, 256)), Q)
  {
    hide *;
    ShapedIs(x, c, k);
    KeySources(o, x, c, k);
    var u, atr := HonestU(o, x, c, k), ApplyTransposed(Matrix(o, x.rho, k), c.r, k, k, 256);
    var u', w := AddVec(u, du, 256), AddVec(atr, AddVec(c.e1, du, 256), 256);
    RowIsDot(SHatVec(x.s), u', k);
    UIs(o, x, c, k);
    AddVecCong(u, AddVec(atr, c.e1, 256), du);
    AddVecAssoc(atr, c.e1, du);
    DotCong(SourceVec(SHatVec(x.s)), x.s, u', w, k, 256, Q);
    DotAddRight(x.s, atr, AddVec(c.e1, du, 256), k, 256);
  }

  /** t . r = s . A^T r + e . r. */
  lemma PublicTimesR(o: Oracle, x: Secrets, c: Coins, k: nat)
    requires Shaped(x, c, k)
    ensures Dot(TVec(o, x, k), c.r, k, 256)
         == Add(Dot(x.s, ApplyTransposed(Matrix(o, x.rho, k), c.r, k, k, 256), k, 256), Dot(x.e, c.r, k, 256))
  {
    hide *;
    ShapedIs(x, c, k);
    var a := Matrix(o, x.rho, k);
    TVecIs(o, x, c, k);
    DotAddLeft(Apply(a, x.s, k, 256), x.e, c.r, k, 256);
    Exchange(a, x.s, c.r, k, 256);
  }

  /** One coefficient: v = (X + E) + e2 + m and rp = X + S, so v + dv - rp = E + e2 + dv - S + m. */
  lemma CombineAt(v: int, rp: int, xs: int, e: int, e2: int, m: int, dv: int, s: int)
    requires Cong(v, xs + e + e2 + m, Q) && Cong(rp, xs + s, Q)
    ensures Cong(v + dv - rp, e + e2 + dv - s + m, Q)
  {
    CongIntro(v + dv - rp, e + e2 + dv - s + m, Q, Quot(v, xs + e + e2 + m, Q) - Quot(rp, xs + s, Q));
  }

  lemma CombineAll(v: seq<int>, rp: seq<int>, xs: seq<int>, e: seq<int>, e2: seq<int>, m: seq<int>, dv: seq<int>, s: seq<int>)
    requires |v| == |rp| == |xs| == |e| == |e2| == |m| == |dv| == |s| == 256
    requires EqMod(v, Add(Add(Add(xs, e), e2), m), Q) && EqMod(rp, Add(xs, s), Q)
    ensures EqMod(Sub(Add(v, dv), rp), Add(Sub(Add(Add(e, e2), dv), s), m), Q)
  {
    hide Cong;
    var l, r := Sub(Add(v, dv), rp), Add(Sub(Add(Add(e, e2), dv), s), m);
    forall n | 0 <= n < 256
      ensures Cong(l[n], r[n], Q)
    {
      assert Cong(v[n], Add(Add(Add(xs, e), e2), m)[n], Q) && Cong(rp[n], Add(xs, s)[n], Q);
      CombineAt(v[n], rp[n], xs[n], e[n], e2[n], m[n], dv[n], s[n]);
    }
  }

  /** Decryption rounds the noise plus the message polynomial. */
  lemma RoundedValue(o: Oracle, x: Secrets, c: Coins, du: Vec, dv: seq<int>, k: nat, msg: seq<uint8>)
    requires Shaped(x, c, k) && |du| == k && Sized(du, 256) && |dv| == 256 && Polys(SHatVec(x.s))
    requires Polys(AddVec(HonestU(o, x, c, k), du, 256))
    ensures |HonestV(o, x, c, k, msg)| == 256
    ensures EqMod(Sub(Add(HonestV(o, x, c, k, msg), dv),
                      P.RowProduct(SHatVec(x.s), AddVec(HonestU(o, x, c, k), du, 256), k)),
                  Add(Noise(x, c, du, dv, k), MessagePoly(msg)), Q)
  {
    hide *;
    ShapedIs(x, c, k);
    HonestVIs(o, x, c, k, msg);
    VIs(o, x, c, k, msg);
    PublicTimesR(o, x, c, k);
    SecretTimesU(o, x, c, du, k);
    NoiseIs(x, c, du, dv, k);
    CombineAll(HonestV(o, x, c, k, msg), P.RowProduct(SHatVec(x.s), AddVec(HonestU(o, x, c, k), du, 256), k),
               Dot(x.s, ApplyTransposed(Matrix(o, x.rho, k), c.r, k, k, 256), k, 256), Dot(x.e, c.r, k, 256), c.e2,
               MessagePoly(msg), dv, Dot(x.s, AddVec(c.e1, du, 256), k, 256));
  }

  lemma NoiseIs(x: Secrets, c: Coins, du: Vec, dv: seq<int>, k: nat)
    requires Shaped(x, c, k) && |du| == k && Sized(du, 256) && |dv| == 256
    ensures Noise(x, c, du, dv, k)
         == Sub(Add(Add(Dot(x.e, c.r, k, 256), c.e2), dv), Dot(x.s, AddVec(c.e1, du, 256), k, 256))
  {}

  // ---------- One bit ----------

  /** The range of noise that leaves a message bit readable. */
  predicate Readable(noise: int, bit: int)
  {
    -832 <= Centred(noise) <= 832 - bit
  }

  /** Rounding noise plus 1665 b to a bit gives b exactly on that range. */
  lemma BitReadable(w: int, noise: int, bit: int)
    requires 0 <= w < Q && (bit == 0 || bit == 1) && Cong(w, noise + 1665 * bit, Q)
    ensures CompressCoeff(w, 1) == bit <==> Readable(noise, bit)
  {
    Powers();
    CompressIs(w, 1, 2);
    SmallDigit(w, Q);
    hide CompressCoeff;
    var c := Centred(noise);
    CongSym(c, noise, Q);
    CongIntro(1665 * bit, 1665 * bit, Q, 0);
    CongAdd(noise, c, 1665 * bit, 1665 * bit, Q);
    CongTrans(w, noise + 1665 * bit, c + 1665 * bit, Q);
    hide Centred;
    var k := Quot(w, c + 1665 * bit, Q);
    BitDecides(w, c, bit, k);
  }

  lemma BitDecides(w: int, c: int, bit: int, k: int)
    requires 0 <= w < 3329 && (bit == 0 || bit == 1) && w == c + 1665 * bit + 3329 * k && -1664 <= c <= 1664
    ensures Rounded(w, 2) == bit <==> -832 <= c <= 832 - bit
  {
    assert -1 <= k <= 1;
    RoundsToOne(w);
  }

  lemma RoundsToOne(w: int)
    requires 0 <= w < 3329
    ensures Rounded(w, 2) == if 833 <= w <= 2496 then 1 else 0
  {}

  // ---------- From bytes to values ----------

  lemma CanonicalFits(v: Vec)
    requires forall i :: 0 <= i < |v| ==> |v[i]| == 256 && InRange(v[i], 0, Q)
    ensures AllFit(Plain(12), v)
  {
    Powers();
    hide Pow;
  }

  lemma KeyVecsFit(o: Oracle, x: Secrets)
    requires 1 <= |x.s| == |x.e| <= 4 && Polys(x.s) && Polys(x.e)
    ensures AllFit(Plain(12), THatVec(o, x.rho, x.s, x.e)) && AllFit(Plain(12), SHatVec(x.s))
  {
    hide P.HatSeq, TPoly, AllFit;
    var t, s := THatVec(o, x.rho, x.s, x.e), SHatVec(x.s);
    assert forall i :: 0 <= i < |t| ==> |t[i]| == 256 && InRange(t[i], 0, Q);
    assert forall i :: 0 <= i < |s| ==> |s[i]| == 256 && InRange(s[i], 0, Q);
    CanonicalFits(t);
    CanonicalFits(s);
  }

  /** Reading back a generated key. */
  lemma KeysReadBack(o: Oracle, p: Params, x: Secrets)
    requires 1 <= |x.s| == |x.e| == p.k <= 4 && Polys(x.s) && Polys(x.e) && |x.rho| == 32
    ensures |PublicBytes(o, x)| == PublicLength(p.k) && |SecretBytes(x)| == VectorBytes(p.k)
    ensures KeyRho(p.k, PublicBytes(o, x)) == x.rho && KeyVec(p.k, PublicBytes(o, x)) == THatVec(o, x.rho, x.s, x.e)
    ensures SHat(p, SecretBytes(x)) == SHatVec(x.s)
  {
    KeyVecsFit(o, x);
    hide THatVec, SHatVec, AllFit, EncodeVec, DecodeVec, VecLength;
    var t, s := THatVec(o, x.rho, x.s, x.e), SHatVec(x.s);
    DecodeEncodeVec(Plain(12), t);
    DecodeEncodeVec(Plain(12), s);
    var pk := PublicBytes(o, x);
    assert pk[..VectorBytes(p.k)] == EncodeVec(Plain(12), t) && pk[VectorBytes(p.k)..] == x.rho;
  }

  lemma CompressedVecFits(u: Vec, d: nat)
    requires Polys16(u) && Width(d)
    ensures AllFit(Plain(d), CompressVec(u, d))
  {
    hide CompressAll, Fits;
    forall i | 0 <= i < |u|
      ensures Fits(Plain(d), CompressVec(u, d)[i])
    {
      CompressedFits(u[i], d);
    }
  }

  /** Reading back both parts of a ciphertext. */
  lemma CipherReadBack(p: Params, u: Vec, v: seq<int>)
    requires Valid(p) && Polys16(u) && |u| == p.k && Poly16(v)
    ensures var ct := CipherBytes(u, v, p.du, p.dv);
            && |ct| == CiphertextLength(p)
            && UPrime(p, ct) == DecompressVec(CompressVec(u, p.du), p.du)
            && VPrime(p, ct) == DecompressAll(CompressAll(v, p.dv), p.dv)
  {
    hide CompressAll, DecompressAll, CompressVec, DecompressVec, AllFit, Fits, EncodeVec, DecodeVec, Encode, Decode, VecLength;
    var cu, cv := CompressVec(u, p.du), CompressAll(v, p.dv);
    CompressedVecFits(u, p.du);
    CompressedFits(v, p.dv);
    DecodeEncodeVec(Plain(p.du), cu);
    DecodeEncode(Plain(p.dv), cv);
    var ct, at := CipherBytes(u, v, p.du, p.dv), VecLength(Plain(p.du), p.k);
    assert ct[..at] == EncodeVec(Plain(p.du), cu) && ct[at..] == Encode(Plain(p.dv), cv);
  }

  lemma MessageFields(msg: seq<uint8>)
    requires |msg| == 32
    ensures Fits(Plain(1), Decode(Plain(1), msg)) && Encode(Plain(1), Decode(Plain(1), msg)) == msg
    ensures forall n :: 0 <= n < 256 ==> 0 <= Decode(Plain(1), msg)[n] <= 1
    ensures forall n :: 0 <= n < 256 ==> MessagePoly(msg)[n] == 1665 * Decode(Plain(1), msg)[n]
  {
    EncodeDecode(Plain(1), msg);
    Powers();
    hide Encode, Decode, Pow;
    var b := Decode(Plain(1), msg);
    var f := FlipAll(Plain(1), b);
    assert forall n :: 0 <= n < 256 ==> f[n] == b[n] && 0 <= f[n] < Pow(2, 1);
    forall n | 0 <= n < 256
      ensures MessagePoly(msg)[n] == 1665 * b[n]
    {
      OneBit(b[n]);
    }
  }

  lemma OneBit(b: int)
    requires b == 0 || b == 1
    ensures Expand(b, 1) == 1665 * b
  {
    Powers();
    assert Pow(2, 0) == 1;
    hide Pow;
  }

  /** The message bits. */
  function Bit(msg: seq<uint8>, n: nat): int
    requires n < 256
  {
    Decode(Plain(1), msg)[n]
  }

  ghost predicate AllReadable(noise: seq<int>, msg: seq<uint8>)
    requires |noise| == 256
  {
    forall n :: 0 <= n < 256 ==> Readable(noise[n], Bit(msg, n))
  }

  /** Rounding a value w congruent to noise plus message gives the message exactly if all noise is readable. */
  lemma RoundsToMessage(w: seq<int>, noise: seq<int>, msg: seq<uint8>)
    requires |w| == |noise| == 256 && InRange(w, 0, Q) && EqMod(w, Add(noise, MessagePoly(msg)), Q) && |msg| == 32
    ensures Poly16(w) && (Encode(Plain(1), CompressAll(w, 1)) == msg <==> AllReadable(noise, msg))
  {
    MessageFields(msg);
    assert Poly16(w);
    CompressedFits(w, 1);
    var b, r := Decode(Plain(1), msg), CompressAll(w, 1);
    DecodeEncode(Plain(1), r);
    hide Encode, Decode, CompressAll, MessagePoly, Cong, Fits, Readable;
    forall n | 0 <= n < 256
      ensures r[n] == b[n] <==> Readable(noise[n], b[n])
    {
      BitAt(w, noise, msg, n);
    }
    if r == b {
      assert AllReadable(noise, msg);
    }
    if AllReadable(noise, msg) {
      forall n | 0 <= n < 256
        ensures r[n] == b[n]
      {
        assert Readable(noise[n], Bit(msg, n));
      }
      assert r == b;
    }
  }

  lemma BitAt(w: seq<int>, noise: seq<int>, msg: seq<uint8>, n: nat)
    requires |w| == |noise| == 256 && InRange(w, 0, Q) && EqMod(w, Add(noise, MessagePoly(msg)), Q) && |msg| == 32 && n < 256
    requires Poly16(w)
    ensures CompressAll(w, 1)[n] == Decode(Plain(1), msg)[n] <==> Readable(noise[n], Decode(Plain(1), msg)[n])
  {
    MessageFields(msg);
    hide Decode, Encode, MessagePoly, Cong, Readable, CompressCoeff;
    var b := Decode(Plain(1), msg)[n];
    assert 0 <= w[n] < Q;
    assert Cong(w[n], Add(noise, MessagePoly(msg))[n], Q) && Add(noise, MessagePoly(msg))[n] == noise[n] + 1665 * b;
    BitReadable(w[n], noise[n], b);
  }

  // ---------- The theorem ----------

  /** The total noise of one encryption under a generated key. */
  ghost function TotalNoise(o: Oracle, p: Params, x: Secrets, c: Coins, msg: seq<uint8>): (r: seq<int>)
    requires Shaped(x, c, p.k)
    ensures |r| == 256
  {
    Noise(x, c, VecError(HonestU(o, x, c, p.k), p.du), PolyError(HonestV(o, x, c, p.k, msg), p.dv), p.k)
  }

  lemma HonestCipher(o: Oracle, p: Params, x: Secrets, c: Coins, msg: seq<uint8>)
    requires Shaped(x, c, p.k) && Valid(p)
    ensures Polys(THatVec(o, x.rho, x.s, x.e)) && |THatVec(o, x.rho, x.s, x.e)| == p.k && AreCoins(c, p.k)
    ensures EncryptWith(o, p, x.rho, THatVec(o, x.rho, x.s, x.e), msg, c)
         == CipherBytes(HonestU(o, x, c, p.k), HonestV(o, x, c, p.k, msg), p.du, p.dv)
  {
    PublicVecIsPolys(o, x);
    UIs16(o, x.rho, c.r, c.e1);
    hide THatVec, UVec, VPoly, CipherBytes;
  }

  /** The value that decryption rounds, for a ciphertext given by its parts. */
  lemma WPolyIs(p: Params, sk: seq<uint8>, ct: seq<uint8>, u: Vec, v: seq<int>, shat: Vec)
    requires Valid(p) && |ct| == CiphertextLength(p) && |sk| == VectorBytes(p.k)
    requires UPrime(p, ct) == u && VPrime(p, ct) == v && SHat(p, sk) == shat
    ensures |u| == |shat| == p.k && Polys(u) && Polys(shat) && |v| == 256
    ensures WPoly(p, sk, ct) == Canonical(Sub(v, P.RowProduct(shat, u, p.k)))
  {
    hide UPrime, VPrime, SHat, P.RowProduct, Canonical;
  }

  lemma HonestValue(o: Oracle, p: Params, x: Secrets, c: Coins, msg: seq<uint8>, sk: seq<uint8>, ct: seq<uint8>)
    requires Shaped(x, c, p.k) && Valid(p) && |sk| == VectorBytes(p.k) && |ct| == CiphertextLength(p)
    requires Polys(SHatVec(x.s)) && SHat(p, sk) == SHatVec(x.s)
    requires UPrime(p, ct) == DecompressVec(CompressVec(HonestU(o, x, c, p.k), p.du), p.du)
    requires VPrime(p, ct) == DecompressAll(CompressAll(HonestV(o, x, c, p.k, msg), p.dv), p.dv)
    ensures EqMod(WPoly(p, sk, ct), Add(TotalNoise(o, p, x, c, msg), MessagePoly(msg)), Q)
  {
    hide *;
    ShapedIs(x, c, p.k);
    var u, v := HonestU(o, x, c, p.k), HonestV(o, x, c, p.k, msg);
    var du, dv := VecError(u, p.du), PolyError(v, p.dv);
    VecErrorIs(u, p.du);
    PolyErrorIs(v, p.dv);
    SizedOf(AddVec(u, du, 256));
    WPolyIs(p, sk, ct, AddVec(u, du, 256), Add(v, dv), SHatVec(x.s));
    RoundedValue(o, x, c, du, dv, p.k, msg);
    var raw := Sub(Add(v, dv), P.RowProduct(SHatVec(x.s), AddVec(u, du, 256), p.k));
    CanonicalCong(raw);
    TotalNoiseIs(o, p, x, c, msg);
    EqModTrans(Canonical(raw), raw, Add(Noise(x, c, du, dv, p.k), MessagePoly(msg)), Q);
  }

  lemma PolyErrorIs(v: seq<int>, d: nat)
    requires Poly16(v)
    ensures |v| == 256 && Add(v, PolyError(v, d)) == DecompressAll(CompressAll(v, d), d)
  {
    SubThenAdd(DecompressAll(CompressAll(v, d), d), v);
  }

  lemma TotalNoiseIs(o: Oracle, p: Params, x: Secrets, c: Coins, msg: seq<uint8>)
    requires Shaped(x, c, p.k)
    ensures TotalNoise(o, p, x, c, msg)
         == Noise(x, c, VecError(HonestU(o, x, c, p.k), p.du), PolyError(HonestV(o, x, c, p.k, msg), p.dv), p.k)
  {}

  /** Decryption returns the encrypted message if and only if all noise is in the readable range. */
  lemma DecryptCorrect(o: Oracle, p: Params, x: Secrets, coins: seq<uint8>, msg: seq<uint8>)
    requires Valid(p) && |msg| == 32 && |x.rho| == 32 && Shaped(x, CoinsOf(o, p, coins), p.k)
    ensures |PublicBytes(o, x)| == PublicLength(p.k) && |SecretBytes(x)| == VectorBytes(p.k)
    ensures var ct := Encrypt(o, p, PublicBytes(o, x), msg, coins);
            && |ct| == CiphertextLength(p)
            && (Decrypt(p, SecretBytes(x), ct) == msg <==> AllReadable(TotalNoise(o, p, x, CoinsOf(o, p, coins), msg), msg))
  {
    hide *;
    var c := CoinsOf(o, p, coins);
    ShapedIs(x, c, p.k);
    SecretVecIsPolys(x.s);
    KeysReadBack(o, p, x);
    var pk, sk := PublicBytes(o, x), SecretBytes(x);
    EncryptIs(o, p, pk, msg, coins);
    HonestCipher(o, p, x, c, msg);
    var ct := Encrypt(o, p, pk, msg, coins);
    CipherReadBack(p, HonestU(o, x, c, p.k), HonestV(o, x, c, p.k, msg));
    HonestValue(o, p, x, c, msg, sk, ct);
    RoundsToMessage(WPoly(p, sk, ct), TotalNoise(o, p, x, c, msg), msg);
    DecryptIs(p, sk, ct);
  }

  lemma EncryptIs(o: Oracle, p: Params, pk: seq<uint8>, msg: seq<uint8>, coins: seq<uint8>)
    requires Valid(p) && |pk| == PublicLength(p.k)
    ensures AreCoins(CoinsOf(o, p, coins), p.k) && |KeyVec(p.k, pk)| == p.k && Polys(KeyVec(p.k, pk))
    ensures Encrypt(o, p, pk, msg, coins) == EncryptWith(o, p, KeyRho(p.k, pk), KeyVec(p.k, pk), msg, CoinsOf(o, p, coins))
  {
    hide EncryptWith, KeyRho, KeyVec, CoinsOf;
  }

  lemma DecryptIs(p: Params, sk: seq<uint8>, ct: seq<uint8>)
    requires Valid(p) && |ct| == CiphertextLength(p) && |sk| == VectorBytes(p.k)
    ensures Poly16(WPoly(p, sk, ct)) && Decrypt(p, sk, ct) == Encode(Plain(1), CompressAll(WPoly(p, sk, ct), 1))
  {
    hide WPoly, CompressAll, Encode;
  }
}
