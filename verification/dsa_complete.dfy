/** Completeness of ML-DSA: every attempt that leaves the rejection loop is a valid signature. */
module DsaComplete {
  import opened MachineInts
  import opened Vectors
  import opened Congruence
  import opened PolyRing
  import opened BitPacking
  import opened PolyCoding
  import opened DsaConstants
  import opened DsaReduce
  import opened DsaPoly
  import opened DsaRounding
  import opened DsaModel
  import opened DsaPacking
  import opened DsaHint
  import opened DsaProducts
  import opened DsaSpec

  // ---------- Rows are linear ----------

  lemma {:induction false} RowCong(row: Vec, u: Vec, v: Vec, n: nat)
    requires 1 <= n <= |row| && n <= |u| && n <= |v| && Polys(row) && Polys(u) && Polys(v)
    requires forall j :: 0 <= j < n ==> EqMod(u[j], v[j], Q)
    ensures EqMod(RowProduct(row, u, n), RowProduct(row, v, n), Q)
  {
    hide EqMod, Act, Source, Add, Cong;
    var a := Source(row[n - 1]);
    EqModRefl(a, Q);
    CongIntro(-1, -1, Q, 0);
    ActCong(a, a, u[n - 1], v[n - 1], -1, -1, Q);
    if n > 1 {
      RowCong(row, u, v, n - 1);
      AddCong(RowProduct(row, u, n - 1), RowProduct(row, v, n - 1), Mul(a, u[n - 1], -1), Mul(a, v[n - 1], -1), Q);
    }
  }

  /** The vector c s + y. */
  ghost function Masked(c: seq<int>, s: Vec, y: Vec): (r: Vec)
    requires |c| == 256 && |s| == |y| && Polys(s) && Polys(y)
    ensures |r| == |s| && Polys(r)
  {
    seq(|s|, j requires 0 <= j < |s| => Add(Mul(c, s[j], -1), y[j]))
  }

  /** A (c s + y) = c (A s) + A y, over the integers. */
  lemma {:induction false} RowOfMasked(row: Vec, c: seq<int>, s: Vec, y: Vec, n: nat)
    requires |c| == 256 && |s| == |y| && 1 <= n <= |row| && n <= |s| && Polys(row) && Polys(s) && Polys(y)
    ensures RowProduct(row, Masked(c, s, y), n)
         == Add(Mul(c, RowProduct(row, s, n), -1), RowProduct(row, y, n))
  {
    hide Act, Source, Add;
    var a, sj, yj := Source(row[n - 1]), s[n - 1], y[n - 1];
    ActAdd(a, Mul(c, sj, -1), yj, -1);
    ActCommutes(a, c, sj, -1);
    if n > 1 {
      RowOfMasked(row, c, s, y, n - 1);
      ActAdd(c, RowProduct(row, s, n - 1), Mul(a, sj, -1), -1);
      AddSwap(Mul(c, RowProduct(row, s, n - 1), -1), RowProduct(row, y, n - 1),
              Mul(c, Mul(a, sj, -1), -1), Mul(a, yj, -1));
    }
  }

  lemma CentredCong(s: seq<int>)
    ensures EqMod(CentredAll(s), s, Q)
  {}

  lemma CanonicalCong(s: seq<int>)
    ensures EqMod(Canonical(s), s, Q)
  {
    forall i | 0 <= i < |s|
      ensures Cong(s[i] % Q, s[i], Q)
    {
      CongMod(s[i], Q);
    }
  }

  /** A z = c (A s1) + A y, modulo Q. */
  lemma CommitOfZ(o: Oracle, rho: seq<uint8>, c: seq<int>, s1: Vec, y: Vec, i: nat)
    requires |c| == 256 && |s1| == |y| >= 1 && Polys(s1) && Polys(y)
    ensures EqMod(MatrixTimes(o, rho, i, ZVec(c, s1, y)),
                  Add(Mul(c, MatrixTimes(o, rho, i, s1), -1), MatrixTimes(o, rho, i, y)), Q)
  {
    var l := |s1|;
    var row, z, m := o.Row(rho, i, l), ZVec(c, s1, y), Masked(c, s1, y);
    RowIsPolys(o, rho, i, l);
    forall j | 0 <= j < l
      ensures EqMod(z[j], m[j], Q)
    {
      CentredCong(m[j]);
    }
    RowCong(row, z, m, l);
    RowOfMasked(row, c, s1, y, l);
  }

  // ---------- The verifier's residue ----------

  /** t1 2^13 + t0 = t. */
  lemma Power2Splits(t: seq<int>)
    requires |t| == 256 && InRange(t, 0, Q)
    ensures Add(Scale(0x2000, T1Row(t)), T0Row(t)) == t
  {
    forall n | 0 <= n < 256
      ensures 0x2000 * T1Row(t)[n] + T0Row(t)[n] == t[n]
    {}
  }

  /** c t1 2^13 + c t0 = c (A s1) + c s2, modulo Q. */
  lemma ProductOfT(c: seq<int>, t: seq<int>, m: seq<int>, s: seq<int>)
    requires |c| == |t| == |m| == |s| == 256 && t == Canonical(Add(m, s))
    ensures EqMod(Add(Mul(c, Scale(0x2000, T1Row(t)), -1), Mul(c, T0Row(t), -1)),
                  Add(Mul(c, m, -1), Mul(c, s, -1)), Q)
  {
    hide Act, EqMod, Cong;
    Power2Splits(t);
    ActAdd(c, Scale(0x2000, T1Row(t)), T0Row(t), -1);
    CanonicalCong(Add(m, s));
    EqModRefl(c, Q);
    CongIntro(-1, -1, Q, 0);
    ActCong(c, c, t, Add(m, s), -1, -1, Q);
    ActAdd(c, m, s, -1);
  }

  /** One coefficient: v = mz - x, mz = cm + my, x + ct = cm + cs, so v = my - cs + ct. */
  lemma Combine(v: int, mz: int, x: int, cm: int, my: int, cs: int, ct: int)
    requires Cong(v, mz - x, Q) && Cong(mz, cm + my, Q) && Cong(x + ct, cm + cs, Q)
    ensures Cong(v, my - cs + ct, Q)
  {
    var a, b, e := Quot(v, mz - x, Q), Quot(mz, cm + my, Q), Quot(x + ct, cm + cs, Q);
    CongIntro(v, my - cs + ct, Q, a + b - e);
  }

  /** The verifier's residue is A y - c s2 + c t0. */
  lemma VerifierResidue(o: Oracle, rho: seq<uint8>, s1: Vec, s2: Vec, c: seq<int>, y: Vec, i: nat, n: nat)
    requires |c| == 256 && |s1| == |y| >= 1 && Polys(s1) && Polys(s2) && Polys(y) && i < |s2| && n < 256
    ensures Cong(VerifyRow(o, rho, ZVec(c, s1, y), c, T1Vec(o, rho, s1, s2), i)[n],
                 MatrixTimes(o, rho, i, y)[n] - Mul(c, s2[i], -1)[n] + Mul(c, T0Vec(o, rho, s1, s2)[i], -1)[n], Q)
  {
    hide *;
    RowsAre(o, rho, s1, s2, c, y, i);
    var z, t, m := ZVec(c, s1, y), TRow(o, rho, s1, s2, i), MatrixTimes(o, rho, i, s1);
    var mz, my := MatrixTimes(o, rho, i, z), MatrixTimes(o, rho, i, y);
    var x, x0 := Mul(c, Scale(0x2000, T1Row(t)), -1), Mul(c, T0Row(t), -1);
    CommitOfZ(o, rho, c, s1, y, i);
    ProductOfT(c, t, m, s2[i]);
    CanonicalCong(Sub(mz, x));
    DifferenceAt(Canonical(Sub(mz, x)), mz, x, n);
    SumAt(mz, Mul(c, m, -1), my, n);
    SumsAt(x, x0, Mul(c, m, -1), Mul(c, s2[i], -1), n);
    Combine(Canonical(Sub(mz, x))[n], mz[n], x[n], Mul(c, m, -1)[n], my[n], Mul(c, s2[i], -1)[n], x0[n]);
  }

  lemma RowsAre(o: Oracle, rho: seq<uint8>, s1: Vec, s2: Vec, c: seq<int>, y: Vec, i: nat)
    requires |c| == 256 && |s1| == |y| >= 1 && Polys(s1) && Polys(s2) && Polys(y) && i < |s2|
    ensures |s2[i]| == 256 && Q > 0
    ensures var t := TRow(o, rho, s1, s2, i);
            T1Vec(o, rho, s1, s2)[i] == T1Row(t) && T0Vec(o, rho, s1, s2)[i] == T0Row(t)
            && t == Canonical(Add(MatrixTimes(o, rho, i, s1), s2[i]))
            && VerifyRow(o, rho, ZVec(c, s1, y), c, T1Vec(o, rho, s1, s2), i)
               == Canonical(Sub(MatrixTimes(o, rho, i, ZVec(c, s1, y)), Mul(c, Scale(0x2000, T1Row(t)), -1)))
  {
    hide MatrixTimes, Act, Canonical, T1Row, T0Row, ZVec;
  }

  lemma DifferenceAt(v: seq<int>, a: seq<int>, b: seq<int>, n: nat)
    requires |a| == |b| && n < |a| && EqMod(v, Sub(a, b), Q)
    ensures |v| == |a| && Cong(v[n], a[n] - b[n], Q)
  {
    hide Cong;
    assert Sub(a, b)[n] == a[n] - b[n];
  }

  lemma SumAt(v: seq<int>, a: seq<int>, b: seq<int>, n: nat)
    requires |a| == |b| && n < |a| && EqMod(v, Add(a, b), Q)
    ensures |v| == |a| && Cong(v[n], a[n] + b[n], Q)
  {
    hide Cong;
    assert Add(a, b)[n] == a[n] + b[n];
  }

  lemma SumsAt(u: seq<int>, v: seq<int>, a: seq<int>, b: seq<int>, n: nat)
    requires |u| == |v| && |a| == |b| && n < |a| && EqMod(Add(u, v), Add(a, b), Q)
    ensures |u| == |a| && Cong(u[n] + v[n], a[n] + b[n], Q)
  {
    hide Cong;
    assert Add(a, b)[n] == a[n] + b[n] && Add(u, v)[n] == u[n] + v[n];
  }

  // ---------- The verifier recovers the commitment ----------

  /** One coefficient of the commitment. */
  lemma RecoversCoefficient(w: int, my: int, v: int, cs: int, ct: int, gamma2: int, beta: int)
    requires Supported(gamma2) && 0 <= beta && w == my % Q && 0 <= v < Q && Cong(v, my - cs + ct, Q)
    requires var r0 := Centred(DecomposeSpec(w, gamma2).1 - cs);
             -(gamma2 - beta) < r0 < gamma2 - beta && -gamma2 < Centred(ct) < gamma2
    ensures var (w1, w0) := DecomposeSpec(w, gamma2);
            UseHintSpec(v, HintBit(Centred(w0 - cs) + Centred(ct), w1, gamma2), gamma2) == w1
  {
    var w1, w0 := DecomposeSpec(w, gamma2).0, DecomposeSpec(w, gamma2).1;
    var r0, ct0 := Centred(w0 - cs), Centred(ct);
    DecomposeRebuilds(w, gamma2);
    CongMod(my, Q);
    hide DecomposeSpec, Centred, UseHintSpec, Cong;
    assert Cong(w1 * (2 * gamma2) + w0, w, Q) by {
      CongIff(w1 * (2 * gamma2) + w0, w, Q);
    }
    assert Cong(v, w1 * (2 * gamma2) + (r0 + ct0), Q) by {
      SumOfSix(v, my, w, w1 * (2 * gamma2), w0, cs, ct, r0, ct0);
    }
    assert HintBit(r0 + ct0, w1, gamma2) == MakeHint(r0 + ct0, w1, gamma2);
    HintRecovers(w1, r0 + ct0, v, gamma2);
  }

  lemma SumOfSix(v: int, my: int, w: int, high: int, w0: int, cs: int, ct: int, r0: int, ct0: int)
    requires Cong(v, my - cs + ct, Q) && Cong(w, my, Q) && Cong(high + w0, w, Q)
    requires Cong(r0, w0 - cs, Q) && Cong(ct0, ct, Q)
    ensures Cong(v, high + (r0 + ct0), Q)
  {
    var a, b, c := Quot(v, my - cs + ct, Q), Quot(w, my, Q), Quot(high + w0, w, Q);
    var d, e := Quot(r0, w0 - cs, Q), Quot(ct0, ct, Q);
    CongIntro(v, high + (r0 + ct0), Q, a - b - c - d - e);
  }

  /** What the acceptance conditions say of one coefficient. */
  lemma PassesAt(g: int, beta: int, o: Oracle, rho: seq<uint8>, y: Vec, c: seq<int>, s2: Vec, t0: Vec, i: nat, n: nat)
    requires Supported(g) && |c| == 256 && |y| >= 1 && Polys(y) && Polys(s2) && Polys(t0) && |s2| == |t0|
    requires AllBelow(R0Vec(o, g, rho, y, c, s2), g - beta) && AllBelow(CT0Vec(c, t0), g) && i < |s2| && n < 256
    ensures R0Vec(o, g, rho, y, c, s2)[i][n] == Centred(DecomposeSpec(WRow(o, rho, y, i)[n], g).1 - Mul(c, s2[i], -1)[n])
    ensures CT0Vec(c, t0)[i][n] == Centred(Mul(c, t0[i], -1)[n])
    ensures -(g - beta) < R0Vec(o, g, rho, y, c, s2)[i][n] < g - beta && -g < CT0Vec(c, t0)[i][n] < g
  {
    hide Act, WRow, Centred, DecomposeSpec;
    assert RowBelow(R0Vec(o, g, rho, y, c, s2)[i], g - beta);
    assert RowBelow(CT0Vec(c, t0)[i], g);
  }

  lemma RowsAt(o: Oracle, rho: seq<uint8>, y: Vec, i: nat, n: nat, g: int)
    requires |y| >= 1 && Polys(y) && Supported(g) && n < 256
    ensures WRow(o, rho, y, i)[n] == MatrixTimes(o, rho, i, y)[n] % Q
    ensures HighRow(WRow(o, rho, y, i), g)[n] == DecomposeSpec(WRow(o, rho, y, i)[n], g).0
  {
    hide MatrixTimes, DecomposeSpec;
  }

  lemma VerifyRowAt(o: Oracle, rho: seq<uint8>, z: Vec, c: seq<int>, t1: Vec, i: nat, n: nat)
    requires |z| >= 1 && Polys(z) && |c| == 256 && Polys(t1) && i < |t1| && n < 256
    ensures |t1[i]| == 256 && 0 <= VerifyRow(o, rho, z, c, t1, i)[n] < Q
  {
    hide VerifyRow;
  }

  /** The premises of completeness: an attempt on generated secrets that passed the two residue checks. */
  ghost predicate Premises(g: int, beta: int, o: Oracle, rho: seq<uint8>, y: Vec, c: seq<int>, s1: Vec, s2: Vec)
  {
    && Supported(g) && 0 <= beta && |c| == 256 && |s1| == |y| >= 1 && Polys(y) && Polys(s1) && Polys(s2)
    && AllBelow(R0Vec(o, g, rho, y, c, s2), g - beta)
    && AllBelow(CT0Vec(c, T0Vec(o, rho, s1, s2)), g)
  }

  lemma PremisesAre(g: int, beta: int, o: Oracle, rho: seq<uint8>, y: Vec, c: seq<int>, s1: Vec, s2: Vec)
    requires Premises(g, beta, o, rho, y, c, s1, s2)
    ensures Supported(g) && |c| == 256 && |s1| == |y| >= 1 && Polys(y) && Polys(s1) && Polys(s2) && 0 <= beta
    ensures AllBelow(R0Vec(o, g, rho, y, c, s2), g - beta)
    ensures AllBelow(CT0Vec(c, T0Vec(o, rho, s1, s2)), g)
  {}

  lemma UseHintAt(w: seq<int>, h: seq<int>, g: int, n: nat)
    requires |w| == |h| == 256 && Supported(g) && n < 256
    ensures UseHintRow(w, h, g)[n] == UseHintSpec(w[n], h[n], g)
  {
    hide UseHintSpec;
  }

  lemma HintBitAt(r0: seq<int>, ct0: seq<int>, w1: seq<int>, g: int, n: nat)
    requires |r0| == |ct0| == |w1| == 256 && n < 256
    ensures HintRowOf(r0, ct0, w1, g)[n] == HintBit(r0[n] + ct0[n], w1[n], g)
  {
    hide HintBit;
  }

  lemma RecoveredAt(g: int, beta: int, o: Oracle, rho: seq<uint8>, y: Vec, c: seq<int>, s1: Vec, s2: Vec, i: nat, n: nat)
    requires Premises(g, beta, o, rho, y, c, s1, s2) && i < |s2| && n < 256
    ensures var v := VerifyRow(o, rho, ZVec(c, s1, y), c, T1Vec(o, rho, s1, s2), i)[n];
            var w1 := HighRow(WRow(o, rho, y, i), g)[n];
            var d := R0Vec(o, g, rho, y, c, s2)[i][n] + CT0Vec(c, T0Vec(o, rho, s1, s2))[i][n];
            UseHintSpec(v, HintBit(d, w1, g), g) == w1
  {
    hide *;
    PremisesAre(g, beta, o, rho, y, c, s1, s2);
    var t0, t1 := T0Vec(o, rho, s1, s2), T1Vec(o, rho, s1, s2);
    PassesAt(g, beta, o, rho, y, c, s2, t0, i, n);
    RowsAt(o, rho, y, i, n, g);
    VerifyRowAt(o, rho, ZVec(c, s1, y), c, t1, i, n);
    VerifierResidue(o, rho, s1, s2, c, y, i, n);
    RowLengths(s2, t0, i);
    RecoversCoefficient(WRow(o, rho, y, i)[n], MatrixTimes(o, rho, i, y)[n],
                        VerifyRow(o, rho, ZVec(c, s1, y), c, t1, i)[n], Mul(c, s2[i], -1)[n],
                        Mul(c, t0[i], -1)[n], g, beta);
  }

  lemma RowLengths(u: Vec, v: Vec, i: nat)
    requires Polys(u) && Polys(v) && i < |u| == |v|
    ensures |u[i]| == |v[i]| == 256
  {}

  lemma RecoveredRow(g: int, beta: int, o: Oracle, rho: seq<uint8>, y: Vec, c: seq<int>, s1: Vec, s2: Vec, i: nat)
    requires Premises(g, beta, o, rho, y, c, s1, s2) && i < |s2|
    ensures var w1 := HighRow(WRow(o, rho, y, i), g);
            var h := HintRowOf(R0Vec(o, g, rho, y, c, s2)[i], CT0Vec(c, T0Vec(o, rho, s1, s2))[i], w1, g);
            UseHintRow(VerifyRow(o, rho, ZVec(c, s1, y), c, T1Vec(o, rho, s1, s2), i), h, g) == w1
  {
    hide *;
    PremisesAre(g, beta, o, rho, y, c, s1, s2);
    var r0, ct0 := R0Vec(o, g, rho, y, c, s2), CT0Vec(c, T0Vec(o, rho, s1, s2));
    RowLengths(r0, ct0, i);
    var w1 := HighRow(WRow(o, rho, y, i), g);
    var h := HintRowOf(r0[i], ct0[i], w1, g);
    var v := VerifyRow(o, rho, ZVec(c, s1, y), c, T1Vec(o, rho, s1, s2), i);
    BinaryLength(h);
    var u := UseHintRow(v, h, g);
    forall n | 0 <= n < 256
      ensures u[n] == w1[n]
    {
      RecoveredAt(g, beta, o, rho, y, c, s1, s2, i, n);
      UseHintAt(v, h, g, n);
      HintBitAt(r0[i], ct0[i], w1, g, n);
    }
    assert u == w1;
  }

  lemma BinaryLength(h: seq<int>)
    requires Binary(h)
    ensures |h| == 256
  {}

  /** The verifier recovers the signer's commitment. */
  lemma RecoversCommitment(g: int, beta: int, o: Oracle, rho: seq<uint8>, y: Vec, c: seq<int>, s1: Vec, s2: Vec)
    requires Premises(g, beta, o, rho, y, c, s1, s2)
    ensures var w1 := W1Vec(o, rho, y, |s2|, g);
            var h := HintVec(R0Vec(o, g, rho, y, c, s2), CT0Vec(c, T0Vec(o, rho, s1, s2)), w1, g);
            Sized(h) && RecoveredVec(o, rho, ZVec(c, s1, y), c, T1Vec(o, rho, s1, s2), h, g) == w1
  {
    var w1 := W1Vec(o, rho, y, |s2|, g);
    var r0, ct0 := R0Vec(o, g, rho, y, c, s2), CT0Vec(c, T0Vec(o, rho, s1, s2));
    var h := HintVec(r0, ct0, w1, g);
    BinaryIsSized(h);
    var z, t1 := ZVec(c, s1, y), T1Vec(o, rho, s1, s2);
    var u := RecoveredVec(o, rho, z, c, t1, h, g);
    hide Premises, ZVec, T1Vec, T0Vec, R0Vec, CT0Vec, VerifyRow, HighRow, WRow, HintRowOf, UseHintRow;
    forall i | 0 <= i < |s2|
      ensures u[i] == w1[i]
    {
      RecoveredRow(g, beta, o, rho, y, c, s1, s2, i);
    }
  }

  lemma BinaryIsSized(h: Vec)
    requires BinaryVec(h)
    ensures Sized(h)
  {
    forall i | 0 <= i < |h|
      ensures |h[i]| == 256
    {
      assert Binary(h[i]);
    }
  }

  // ---------- Keys and signatures as bytes ----------

  lemma T1Fits(t: seq<int>)
    requires |t| == 256 && InRange(t, 0, Q)
    ensures Fits(T1Coding(), T1Row(t))
  {
    Powers();
    hide Pow;
  }

  lemma T0Fits(t: seq<int>)
    requires |t| == 256 && InRange(t, 0, Q)
    ensures Fits(T0Coding(), T0Row(t))
  {
    Powers();
    hide Pow;
  }

  lemma EtaFits(o: Oracle, rhoPrime: seq<uint8>, nonce: nat, eta: int)
    requires eta == 2 || eta == 4
    ensures Fits(EtaCoding(eta), o.Eta(rhoPrime, nonce, eta))
  {
    Powers();
    hide Pow, Oracle.Eta;
    var s := o.Eta(rhoPrime, nonce, eta);
    assert forall i :: 0 <= i < 256 ==> -eta <= s[i] <= eta;
  }

  lemma SecretVecFits(o: Oracle, rhoPrime: seq<uint8>, from: nat, n: nat, eta: int)
    requires eta == 2 || eta == 4
    ensures AllFit(EtaCoding(eta), SecretVec(o, rhoPrime, from, n, eta))
  {
    hide Fits, EtaCoding, Oracle.Eta;
    var v := SecretVec(o, rhoPrime, from, n, eta);
    forall i | 0 <= i < n
      ensures Fits(EtaCoding(eta), v[i])
    {
      EtaFits(o, rhoPrime, from + i, eta);
    }
  }

  lemma TVecsFit(o: Oracle, rho: seq<uint8>, s1: Vec, s2: Vec)
    requires |s1| >= 1 && Polys(s1) && Polys(s2)
    ensures AllFit(T1Coding(), T1Vec(o, rho, s1, s2)) && AllFit(T0Coding(), T0Vec(o, rho, s1, s2))
  {
    hide Fits, TRow, T1Row, T0Row;
    var v, u := T1Vec(o, rho, s1, s2), T0Vec(o, rho, s1, s2);
    forall i | 0 <= i < |s2|
      ensures Fits(T1Coding(), v[i]) && Fits(T0Coding(), u[i])
    {
      T1Fits(TRow(o, rho, s1, s2, i));
      T0Fits(TRow(o, rho, s1, s2, i));
    }
  }

  /** Generated keys are in range for their encodings. */
  lemma KeysAreValid(o: Oracle, p: Params, seed: seq<uint8>)
    requires Valid(p)
    ensures ValidPublicKey(PublicKeyOf(o, p, seed), p.k)
    ensures ValidSecretKey(SecretKeyOf(o, p, seed), p.k, p.l, p.eta)
    ensures KeyShape(p, SecretKeyOf(o, p, seed))
  {
    hide AllFit, SecretVec, T1Vec, T0Vec, SeedStream, Fits;
    var buf := SeedStream(o, p, seed);
    SecretVecFits(o, buf[32..96], 0, p.l, p.eta);
    SecretVecFits(o, buf[32..96], p.l, p.k, p.eta);
    TVecsFit(o, buf[..32], SecretVec(o, buf[32..96], 0, p.l, p.eta), SecretVec(o, buf[32..96], p.l, p.k, p.eta));
  }

  lemma ZFits(z: Vec, gamma1: int, bound: int)
    requires (gamma1 == 0x2_0000 || gamma1 == 0x8_0000) && bound <= gamma1
    requires Polys(z) && AllBelow(z, bound)
    ensures AllFit(ZCoding(gamma1), z)
  {
    Powers();
    hide Pow;
    forall i | 0 <= i < |z|
      ensures Fits(ZCoding(gamma1), z[i])
    {
      assert RowBelow(z[i], bound);
    }
  }

  /** The parts of a passing signature are read back as they were. */
  lemma SignatureParses(p: Params, a: Attempt, sig: seq<uint8>)
    requires Valid(p) && |a.h| == p.k && BinaryVec(a.h) && Sized(a.h) && |a.z| == p.l && Polys(a.z)
    requires |a.ctilde| == p.ctilde && Passes(p, a) && sig == SignatureBytes(p, a)
    ensures |sig| == SignatureLength(p) && SignatureZ(p, sig) == a.z && sig[..p.ctilde] == a.ctilde
    ensures Accepted(sig[HintAt(p)..], p.k, p.omega) && DecodedHint(sig[HintAt(p)..], p.k, p.omega) == a.h
  {
    hide *;
    BetaIsNatural(p);
    ValidRanges(p);
    PassesIs(p, a);
    ZFits(a.z, p.gamma1, p.gamma1 - Beta(p));
    DecodeEncodeVec(ZCoding(p.gamma1), a.z);
    DecodeOfEncode(a.h, p.omega);
    PartsOf(p, a, sig);
  }

  lemma ValidRanges(p: Params)
    requires Valid(p)
    ensures (p.gamma1 == 0x2_0000 || p.gamma1 == 0x8_0000) && 0 < p.omega && 0 < p.k <= 8
  {}

  lemma PartsOf(p: Params, a: Attempt, sig: seq<uint8>)
    requires Sized(a.h) && |Flat(a.h)| <= p.omega && |a.h| == p.k && |a.ctilde| == p.ctilde && sig == SignatureBytes(p, a)
    requires |EncodeVec(ZCoding(p.gamma1), a.z)| == VecLength(ZCoding(p.gamma1), p.l)
    ensures |sig| == SignatureLength(p) && sig[..p.ctilde] == a.ctilde
    ensures SignatureZ(p, sig) == DecodeVec(ZCoding(p.gamma1), EncodeVec(ZCoding(p.gamma1), a.z), p.l)
    ensures sig[HintAt(p)..] == HintBytes(a.h, p.omega)
  {
    hide EncodeVec, DecodeVec, VecLength, HintBytes, Flat, ZCoding;
    assert sig[p.ctilde..HintAt(p)] == EncodeVec(ZCoding(p.gamma1), a.z);
  }

  lemma BetaIsNatural(p: Params)
    requires Valid(p)
    ensures 0 <= Beta(p) <= 256 && VerifyBeta(p) == Beta(p) && Supported(p.gamma2)
  {
    if p.eta == 2 {
      assert Beta(p) == p.tau * 2;
    } else {
      assert Beta(p) == p.tau * 4;
    }
  }

  // ---------- Completeness ----------

  /** What an attempt consists of. */
  lemma AttemptIs(o: Oracle, p: Params, key: SecretKey, mu: seq<uint8>, y: Vec)
    requires Valid(p) && KeyShape(p, key) && |y| == p.l && Polys(y)
    ensures Supported(p.gamma2) && Polys(key.s1) && Polys(key.s2) && Polys(key.t0) && |y| >= 1
    ensures |key.s1| == p.l && |key.s2| == |key.t0| == p.k
    ensures var a := AttemptOf(o, p, key, mu, y);
            a.w1 == W1Vec(o, key.rho, y, p.k, p.gamma2) && a.ctilde == CommitHash(o, p, mu, a.w1)
            && a.c == o.challenge(a.ctilde, p.tau) && a.z == ZVec(a.c, key.s1, y)
            && a.r0 == R0Vec(o, p.gamma2, key.rho, y, a.c, key.s2) && a.ct0 == CT0Vec(a.c, key.t0)
            && a.h == HintVec(a.r0, a.ct0, a.w1, p.gamma2) && |a.c| == 256 && Polys(a.z)
  {
    hide W1Vec, R0Vec, CT0Vec, HintVec, ZVec, CommitHash;
  }

  lemma PassesIs(p: Params, a: Attempt)
    requires Sized(a.h) && Passes(p, a)
    ensures AllBelow(a.z, p.gamma1 - Beta(p)) && AllBelow(a.r0, p.gamma2 - Beta(p)) && AllBelow(a.ct0, p.gamma2)
    ensures |Flat(a.h)| <= p.omega
  {}

  lemma MakePremises(g: int, beta: int, o: Oracle, rho: seq<uint8>, y: Vec, c: seq<int>, s1: Vec, s2: Vec)
    requires Supported(g) && |c| == 256 && |s1| == |y| >= 1 && Polys(y) && Polys(s1) && Polys(s2) && 0 <= beta
    requires AllBelow(R0Vec(o, g, rho, y, c, s2), g - beta)
    requires AllBelow(CT0Vec(c, T0Vec(o, rho, s1, s2)), g)
    ensures Premises(g, beta, o, rho, y, c, s1, s2)
  {}

  /** A key whose t0, together with t1, comes from its s1 and s2. */
  ghost predicate FromSecrets(o: Oracle, p: Params, key: SecretKey, t1: Vec)
  {
    && KeyShape(p, key) && |key.s1| >= 1
    && key.t0 == T0Vec(o, key.rho, key.s1, key.s2) && t1 == T1Vec(o, key.rho, key.s1, key.s2)
  }

  lemma FromSecretsIs(o: Oracle, p: Params, key: SecretKey, t1: Vec)
    requires FromSecrets(o, p, key, t1)
    ensures KeyShape(p, key) && |key.s1| >= 1 && Polys(key.s1) && Polys(key.s2) && |key.s2| == p.k
    ensures key.t0 == T0Vec(o, key.rho, key.s1, key.s2) && t1 == T1Vec(o, key.rho, key.s1, key.s2)
  {}

  /** The signature of a passing attempt recovers to its own challenge seed. */
  lemma AttemptMatches(o: Oracle, p: Params, key: SecretKey, t1: Vec, mu: seq<uint8>, y: Vec, a: Attempt)
    requires Valid(p) && FromSecrets(o, p, key, t1) && KeyShape(p, key) && |y| == p.l && Polys(y)
    requires a == AttemptOf(o, p, key, mu, y) && Sized(a.h) && Passes(p, a)
    ensures Polys(a.z) && Supported(p.gamma2) && |a.z| >= 1 && Polys(t1) && |t1| == p.k
    ensures a.ctilde == CommitHash(o, p, mu, RecoveredVec(o, key.rho, a.z, o.challenge(a.ctilde, p.tau), t1, a.h, p.gamma2))
  {
    hide *;
    AttemptIs(o, p, key, mu, y);
    FromSecretsIs(o, p, key, t1);
    PassesIs(p, a);
    BetaIsNatural(p);
    MakePremises(p.gamma2, Beta(p), o, key.rho, y, a.c, key.s1, key.s2);
    RecoversCommitment(p.gamma2, Beta(p), o, key.rho, y, a.c, key.s1, key.s2);
  }

  lemma GeneratedFromSecrets(o: Oracle, p: Params, seed: seq<uint8>)
    requires Valid(p)
    ensures FromSecrets(o, p, SecretKeyOf(o, p, seed), PublicKeyOf(o, p, seed).t1)
    ensures PublicKeyOf(o, p, seed).rho == SecretKeyOf(o, p, seed).rho
    ensures SecretKeyOf(o, p, seed).tr == o.Shake256(PublicKeyBytes(PublicKeyOf(o, p, seed)), 64)
  {
    hide SecretVec, T1Vec, T0Vec, SeedStream, Oracle.Shake256;
  }

  /** The challenge seed is the hash of the commitment recovered with the public vector t1. */
  ghost predicate Recovers(o: Oracle, p: Params, rho: seq<uint8>, mu: seq<uint8>, a: Attempt, t1: Vec)
  {
    && Supported(p.gamma2) && Polys(a.z) && |a.z| >= 1 && Polys(t1) && |a.h| == |t1| && Sized(a.h)
    && a.ctilde == CommitHash(o, p, mu, RecoveredVec(o, rho, a.z, o.challenge(a.ctilde, p.tau), t1, a.h, p.gamma2))
  }

  lemma MakeRecovers(o: Oracle, p: Params, rho: seq<uint8>, mu: seq<uint8>, a: Attempt, t1: Vec)
    requires Supported(p.gamma2) && Polys(a.z) && |a.z| >= 1 && Polys(t1) && |a.h| == |t1| && Sized(a.h)
    requires a.ctilde == CommitHash(o, p, mu, RecoveredVec(o, rho, a.z, o.challenge(a.ctilde, p.tau), t1, a.h, p.gamma2))
    ensures Recovers(o, p, rho, mu, a, t1)
  {}

  lemma MakeValid(o: Oracle, p: Params, pk: seq<uint8>, msg: seq<uint8>, sig: seq<uint8>, a: Attempt, t1: Vec)
    requires Valid(p) && |pk| == PublicKeyLength(p.k) && |sig| == SignatureLength(p)
    requires SignatureZ(p, sig) == a.z && sig[..p.ctilde] == a.ctilde && AllBelow(a.z, p.gamma1 - VerifyBeta(p))
    requires Accepted(sig[HintAt(p)..], p.k, p.omega) && DecodedHint(sig[HintAt(p)..], p.k, p.omega) == a.h
    requires |a.h| == p.k && KeyT1(p, pk) == t1
    requires Recovers(o, p, pk[..32], MessageHash(o, o.Shake256(pk, 64), msg), a, t1)
    ensures ValidSignature(o, p, pk, msg, sig)
  {
    hide SignatureZ, Accepted, DecodedHint, KeyT1, CommitHash, RecoveredVec, AllBelow, MessageHash;
  }

  /** Every passing attempt under a generated key is a valid signature under the generated public key. */
  lemma Completeness(o: Oracle, p: Params, seed: seq<uint8>, msg: seq<uint8>, n: nat, a: Attempt, sig: seq<uint8>)
    requires Valid(p) && KeyShape(p, SecretKeyOf(o, p, seed))
    requires a == SigningAttempt(o, p, SecretKeyOf(o, p, seed), msg, n)
    requires Sized(a.h) && Passes(p, a) && sig == SignatureBytes(p, a)
    ensures |PublicKeyBytes(PublicKeyOf(o, p, seed))| == PublicKeyLength(p.k)
    ensures ValidSignature(o, p, PublicKeyBytes(PublicKeyOf(o, p, seed)), msg, sig)
  {
    hide *;
    var key, pub := SecretKeyOf(o, p, seed), PublicKeyOf(o, p, seed);
    var pk := PublicKeyBytes(pub);
    KeysAreValid(o, p, seed);
    PublicKeyRoundTrip(pub, p.k);
    KeyT1Is(p, pk, pub);
    GeneratedFromSecrets(o, p, seed);
    var mu := MessageHash(o, key.tr, msg);
    var y := MaskVec(o, p, MaskSeed(o, key.seed, mu), n);
    SigningAttemptIs(o, p, key, msg, n);
    AttemptMatches(o, p, key, pub.t1, mu, y, a);
    MakeRecovers(o, p, key.rho, mu, a, pub.t1);
    SignatureParses(p, a, sig);
    PassesIs(p, a);
    BetaIsNatural(p);
    MakeValid(o, p, pk, msg, sig, a, pub.t1);
  }

  lemma KeyT1Is(p: Params, pk: seq<uint8>, pub: PublicKey)
    requires |pk| == PublicKeyLength(p.k) && ReadPublicKey(pk, p.k) == pub
    ensures KeyT1(p, pk) == pub.t1 && |pk| >= 32 && pk[..32] == pub.rho
  {}

  lemma SigningAttemptIs(o: Oracle, p: Params, key: SecretKey, msg: seq<uint8>, n: nat)
    requires Valid(p) && KeyShape(p, key)
    ensures var mu := MessageHash(o, key.tr, msg);
            SigningAttempt(o, p, key, msg, n) == AttemptOf(o, p, key, mu, MaskVec(o, p, MaskSeed(o, key.seed, mu), n))
  {
    hide AttemptOf, MaskVec, MaskSeed, MessageHash;
  }
}
