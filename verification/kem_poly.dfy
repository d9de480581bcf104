/** Coefficientwise operations on ML-KEM polynomials, in place. */
module KemPoly {
  import opened MachineInts
  import opened Vectors
  import opened Congruence
  import opened PolyRing
  import opened KemConstants
  import opened KemReduce

  /** Barrett reduction of every coefficient, to the centred residue. */
  method PolyReduce(p: array<int16>)
    requires p.Length == 256
    modifies p
    ensures EqMod(p[..], old(p[..]), Q) && InRange(p[..], -1664, 1665)
  {
    hide Cong;
    ghost var s: seq<int> := p[..];
    var i := 0;
    while i < 256
      invariant 0 <= i <= 256
      invariant forall j :: 0 <= j < i ==> -1664 <= p[j] < 1665 && Cong(p[j], s[j], Q)
      invariant forall j :: i <= j < 256 ==> p[j] == s[j]
    {
      p[i] := BarrettReduce(p[i]);
      i := i + 1;
    }
  }

  /** r = a + b, reduced; r may be a or b. */
  method PolyAdd(r: array<int16>, a: array<int16>, b: array<int16>)
    requires r.Length == a.Length == b.Length == 256
    requires InRange(Add(a[..], b[..]), -0x8000, 0x8000)
    modifies r
    ensures EqMod(r[..], Add(old(a[..]), old(b[..])), Q) && InRange(r[..], -1664, 1665)
  {
    ghost var x: seq<int>, y: seq<int> := a[..], b[..];
    hide EqMod, Cong;
    var i := 0;
    while i < 256
      invariant 0 <= i <= 256
      invariant forall j :: 0 <= j < i ==> r[j] == x[j] + y[j]
      invariant forall j :: i <= j < 256 ==> a[j] == x[j] && b[j] == y[j]
    {
      assert Add(x, y)[i] == x[i] + y[i];
      r[i] := a[i] + b[i];
      i := i + 1;
    }
    assert r[..] == Add(x, y);
    PolyReduce(r);
  }

  /** r = a - b, reduced; r may be a or b. */
  method PolySub(r: array<int16>, a: array<int16>, b: array<int16>)
    requires r.Length == a.Length == b.Length == 256
    requires InRange(Sub(a[..], b[..]), -0x8000, 0x8000)
    modifies r
    ensures EqMod(r[..], Sub(old(a[..]), old(b[..])), Q) && InRange(r[..], -1664, 1665)
  {
    ghost var x: seq<int>, y: seq<int> := a[..], b[..];
    hide EqMod, Cong;
    var i := 0;
    while i < 256
      invariant 0 <= i <= 256
      invariant forall j :: 0 <= j < i ==> r[j] == x[j] - y[j]
      invariant forall j :: i <= j < 256 ==> a[j] == x[j] && b[j] == y[j]
    {
      assert Sub(x, y)[i] == x[i] - y[i];
      r[i] := a[i] - b[i];
      i := i + 1;
    }
    assert r[..] == Sub(x, y);
    PolyReduce(r);
  }

  /** Every coefficient is multiplied by R. */
  method PolyToMont(p: array<int16>)
    requires p.Length == 256
    modifies p
    ensures EqMod(p[..], Scale(R, old(p[..])), Q) && InRange(p[..], -3328, 3329)
  {
    ghost var s: seq<int> := p[..];
    hide Cong, MontgomeryReduce;
    var i := 0;
    while i < 256
      invariant 0 <= i <= 256
      invariant forall j :: 0 <= j < i ==> -3329 < p[j] < 3329 && Cong(p[j], Scale(R, s)[j], Q)
      invariant forall j :: i <= j < 256 ==> p[j] == s[j]
    {
      ToMontgomery(p[i]);
      p[i] := MontgomeryReduce((p[i] as int) * 1353);
      i := i + 1;
    }
  }

  /** 1353 is R^2 modulo Q. */
  lemma ToMontgomery(x: int16)
    ensures -0x8000 * Q <= x * 1353 < 0x8000 * Q
    ensures Cong(MontgomeryReduce(x * 1353), R * x, Q)
  {
    MontgomeryIsRinv(x * 1353);
    assert 1353 * RINV == R + Q * 49;
    CongIntro(x * 1353 * RINV, R * x, Q, 49 * x);
    CongTrans(MontgomeryReduce(x * 1353), x * 1353 * RINV, R * x, Q);
  }

  /** Coefficients in (-Q, 2Q) become canonical. */
  method PolyCsubQ(p: array<int16>)
    requires p.Length == 256 && InRange(p[..], -3328, 6658)
    modifies p
    ensures forall i :: 0 <= i < 256 ==> p[i] == old(p[i]) % Q
    ensures InRange(p[..], 0, Q)
  {
    ghost var s: seq<int> := p[..];
    var i := 0;
    while i < 256
      invariant 0 <= i <= 256
      invariant forall j :: 0 <= j < i ==> 0 <= p[j] < Q && p[j] == s[j] % Q
      invariant forall j :: i <= j < 256 ==> p[j] == s[j]
    {
      assert -3328 <= s[i] < 6658;
      p[i] := CondSubQ(p[i]);
      i := i + 1;
    }
  }
}
