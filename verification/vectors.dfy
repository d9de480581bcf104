/** Vectors of polynomials, and the ranges of their coefficients. */
module Vectors {
  import opened MachineInts

  type Vec = seq<seq<int>>

  ghost predicate Polys(v: Vec)
  {
    forall i :: 0 <= i < |v| ==> |v[i]| == 256
  }

  /** All entries lie in [lo, hi). */
  ghost predicate InRange(s: seq<int>, lo: int, hi: int)
  {
    forall i :: 0 <= i < |s| ==> lo <= s[i] < hi
  }

  ghost predicate VecInRange(v: Vec, lo: int, hi: int)
  {
    forall i :: 0 <= i < |v| ==> |v[i]| == 256 && InRange(v[i], lo, hi)
  }

  lemma RangeWidens(s: seq<int>, a: int, b: int, lo: int, hi: int)
    requires InRange(s, a, b) && lo <= a && b <= hi
    ensures InRange(s, lo, hi)
  {}

  lemma VecWidens(v: Vec, a: int, b: int, lo: int, hi: int)
    requires VecInRange(v, a, b) && lo <= a && b <= hi
    ensures VecInRange(v, lo, hi) && Polys(v)
  {}

  /** The bound holds of one more entry. */
  lemma BoundedNext(s: seq<int>, r: seq<int>, j: nat, bound: int)
    requires |s| == |r| && j < |r| && Bounded(s, 0, j, bound) && Small(r[j], bound)
    requires forall i :: 0 <= i < j ==> r[i] == s[i]
    ensures Bounded(r, 0, j + 1, bound)
  {}

  lemma TailBounded(s0: seq<int>, s: seq<int>, start: nat, len: nat, bound: int)
    requires |s| == |s0| == 256 && start + 2 * len <= 256 && Bounded(s0, 0, 256, bound)
    requires forall i :: start <= i < 256 ==> s[i] == s0[i]
    ensures Bounded(s, start, start + 2 * len, bound)
  {
    forall i | start <= i < start + 2 * len
      ensures Small(s[i], bound)
    {
      assert Small(s0[i], bound) && s[i] == s0[i];
    }
  }

  lemma BoundedJoins(s: seq<int>, r: seq<int>, start: nat, len: nat, bound: int)
    requires |s| == |r| == 256 && start + 2 * len <= 256
    requires forall i :: 0 <= i < 256 && !(start <= i < start + 2 * len) ==> r[i] == s[i]
    requires Bounded(s, 0, start, bound) && Bounded(r, start, start + 2 * len, bound)
    ensures Bounded(r, 0, start + 2 * len, bound)
  {
    hide Small;
    forall i | 0 <= i < start + 2 * len
      ensures Small(r[i], bound)
    {
      if i < start {
        assert Small(s[i], bound) && r[i] == s[i];
      }
    }
  }

  ghost predicate BothSmall(x: int, y: int, bound: int)
  {
    Small(x, bound) && Small(y, bound)
  }

  lemma MakeBounded(r: seq<int>, o: nat, len: nat, bound: int)
    requires o + 2 * len <= |r| && forall i :: o <= i < o + len ==> BothSmall(r[i], r[i + len], bound)
    ensures Bounded(r, o, o + 2 * len, bound)
  {
    hide Small;
    forall i | o <= i < o + 2 * len
      ensures Small(r[i], bound)
    {
      var k := if i < o + len then i else i - len;
      assert BothSmall(r[k], r[k + len], bound);
    }
  }

  lemma BoundedAt(s: seq<int>, lo: int, hi: int, bound: int, i: nat)
    requires Bounded(s, lo, hi, bound) && lo <= i < hi && i < |s|
    ensures Small(s[i], bound)
  {}
}
