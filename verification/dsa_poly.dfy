/** Coefficientwise operations on ML-DSA polynomials, in place, and the infinity-norm test. */
module DsaPoly {
  import opened MachineInts
  import opened Vectors
  import opened Congruence
  import opened PolyRing
  import opened DsaConstants
  import opened DsaReduce

  /** r = a + b; r may be a or b. */
  method PolyAdd(r: array<int32>, a: array<int32>, b: array<int32>)
    requires r.Length == a.Length == b.Length == 256
    requires InRange(Add(a[..], b[..]), -0x8000_0000, 0x8000_0000)
    modifies r
    ensures r[..] == Add(old(a[..]), old(b[..]))
  {
    ghost var x: seq<int>, y: seq<int> := a[..], b[..];
    var i := 0;
    while i < 256
      invariant 0 <= i <= 256
      invariant forall j :: 0 <= j < i ==> r[j] == x[j] + y[j]
      invariant forall j :: i <= j < 256 ==> a[j] == x[j] && b[j] == y[j]
    {
      assert Add(x, y)[i] == x[i] + y[i];
      r[i] := a[i] + b[i];
      i := i + 1;
    }
  }

  /** r = a - b; r may be a or b. */
  method PolySub(r: array<int32>, a: array<int32>, b: array<int32>)
    requires r.Length == a.Length == b.Length == 256
    requires InRange(Sub(a[..], b[..]), -0x8000_0000, 0x8000_0000)
    modifies r
    ensures r[..] == Sub(old(a[..]), old(b[..]))
  {
    ghost var x: seq<int>, y: seq<int> := a[..], b[..];
    var i := 0;
    while i < 256
      invariant 0 <= i <= 256
      invariant forall j :: 0 <= j < i ==> r[j] == x[j] - y[j]
      invariant forall j :: i <= j < 256 ==> a[j] == x[j] && b[j] == y[j]
    {
      assert Sub(x, y)[i] == x[i] - y[i];
      r[i] := a[i] - b[i];
      i := i + 1;
    }
  }

  /** Every coefficient is replaced by a small congruent one. */
  method PolyReduce(p: array<int32>)
    requires p.Length == 256 && InRange(p[..], -0x8000_0000, 0x7FC0_0000)
    modifies p
    ensures EqMod(p[..], old(p[..]), Q)
    ensures InRange(p[..], -6283009, 6283009)
  {
    hide Cong;
    ghost var s: seq<int> := p[..];
    var i := 0;
    while i < 256
      invariant 0 <= i <= 256
      invariant forall j :: 0 <= j < i ==> -6283009 <= p[j] < 6283009 && Cong(p[j], s[j], Q)
      invariant forall j :: i <= j < 256 ==> p[j] == s[j]
    {
      assert -0x8000_0000 <= s[i] < 0x7FC0_0000;
      p[i] := Reduce32(p[i]);
      i := i + 1;
    }
  }

  /** Q is added to the negative coefficients; inputs in [-Q, Q) become canonical. */
  method PolyCaddQ(p: array<int32>)
    requires p.Length == 256
    modifies p
    ensures EqMod(p[..], old(p[..]), Q)
    ensures forall i :: 0 <= i < 256 ==> p[i] == if old(p[i]) < 0 then old(p[i]) + Q else old(p[i])
    ensures InRange(old(p[..]), -Q, Q) ==> InRange(p[..], 0, Q)
  {
    hide Cong;
    ghost var s: seq<int> := p[..];
    var i := 0;
    while i < 256
      invariant 0 <= i <= 256
      invariant forall j :: 0 <= j < i ==> p[j] == (if s[j] < 0 then s[j] + Q else s[j]) && Cong(p[j], s[j], Q)
      invariant forall j :: i <= j < 256 ==> p[j] == s[j]
    {
      p[i] := CaddQ(p[i]);
      i := i + 1;
    }
  }

  /** Every centred residue is smaller than the bound in magnitude. */
  ghost predicate CentredBelow(s: seq<int>, bound: int)
  {
    forall i :: 0 <= i < |s| ==> -bound < Centred(s[i]) < bound
  }

  /**
   The norm test. It reports 1 for a bound outside [0, (Q-1)/2]; for a bound up to 2097408, so for all that
   signing and verification use, it reports 0 exactly if every centred residue is below the bound.
   */
  method PolyChkNorm(p: array<int32>, bound: int32) returns (r: int32)
    requires p.Length == 256 && InRange(p[..], -0x8000_0000, 0x7FC0_0000)
    ensures r == 0 || r == 1
    ensures bound < 0 || bound > Q / 2 ==> r == 1
    ensures 0 <= bound <= Q / 2 ==>
              (r == 0 <==> forall i :: 0 <= i < 256 ==> -bound < Reduce32(p[i]) < bound)
    ensures 0 <= bound <= 2097408 ==> (r == 0 <==> CentredBelow(p[..], bound))
  {
    if bound < 0 || bound > Q / 2 {
      return 1;
    }
    ghost var s: seq<int> := p[..];
    assert forall i :: 0 <= i < 256 ==> p[i] == s[i] && p[i] <= 0x7FFF_FFFF - 0x40_0000;
    forall i | 0 <= i < 256
      ensures bound <= 2097408 ==> NormTestExact(p[i], bound)
    {
      if bound <= 2097408 {
        Reduce32DetectsSmall(p[i], bound);
      }
    }
    hide Centred, Reduce32;
    var i := 0;
    while i < 256
      invariant 0 <= i <= 256
      invariant forall j :: 0 <= j < i ==> -bound < Reduce32(p[j]) < bound
    {
      var t: int32 := Reduce32(p[i]);
      if t < 0 {
        t := -t;
      }
      if t >= bound {
        assert !(-bound < Reduce32(p[i]) < bound);
        assert bound <= 2097408 ==> !(-bound < Centred(s[i]) < bound);
        return 1;
      }
      i := i + 1;
    }
    return 0;
  }

  /** On reduced input a passing coefficient is already its own centred residue. */
  lemma PassingIsCentred(a: int32, bound: int)
    requires -6283009 <= a < 6283009 && 0 <= bound <= 2097408 && -bound < Centred(a) < bound
    ensures a == Centred(a)
  {
    CongSym(Centred(a), a, Q);
    CongClose(a, Centred(a), Q);
  }
}
