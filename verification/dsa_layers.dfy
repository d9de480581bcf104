/**
 The layers of the ML-DSA transforms on whole numbers, before any reduction modulo Q: what each butterfly stores, when
 the sums of the inverse transform fit 32 bits, and the exact range of inputs whose image the inverse can take.
 */
module DsaLayers {
  import opened MachineInts
  import opened NttTower
  import opened NttArray
  import opened DsaConstants
  import opened DsaReduce
  import Zetas = DsaZetas

  predicate Int32(x: int)
  {
    -0x8000_0000 <= x < 0x8000_0000
  }

  /** The product of a table entry with any 32-bit value is in the range of Montgomery reduction. */
  lemma ProductInRange(zeta: int, c: int)
    requires -4190208 <= zeta <= 4190208 && Int32(c)
    ensures -0x8000_0000 * Q <= zeta * c < 0x8000_0000 * Q
  {
    ProductBound(zeta, c, 4190208, 0x8000_0000);
  }

  /** The Montgomery product of a table entry and a 32-bit value. */
  function Twiddle(zeta: int, c: int): (t: int)
    ensures Small(t, Q)
  {
    if Small(zeta, 4190208) && Int32(c) then
      ProductInRange(zeta, c);
      MontgomeryReduce(zeta * c)
    else 0
  }

  // ---------- Forward ----------

  /** A forward butterfly on u and c leaves x and y. */
  ghost predicate Splits(u: int, c: int, x: int, y: int, zeta: int)
  {
    x == u + Twiddle(zeta, c) && y == u - Twiddle(zeta, c)
  }

  ghost predicate BlockSplits(s: seq<int>, r: seq<int>, o: nat, len: nat, zeta: int)
  {
    o + 2 * len <= |s| == |r| && forall i :: o <= i < o + len ==> Splits(s[i], s[i + len], r[i], r[i + len], zeta)
  }

  /** The first b of n blocks of length 2 * len have been split. */
  ghost predicate LayerSplits(s: seq<int>, r: seq<int>, n: nat, len: nat, b: nat)
  {
    && |s| == |r| == 256 && b <= n <= 128 && Offset(n, 2 * len) == 256
    && forall i :: 0 <= i < b ==> BlockSplits(s, r, Offset(i, 2 * len), len, Zetas.Zeta(n + i))
  }

  /** f holds the states of the first e forward layers, a being the input. */
  ghost predicate ForwardRun(f: seq<seq<int>>, a: seq<int>, e: nat)
  {
    && |f| == e + 1 <= 9 && f[0] == a && |a| == 256
    && forall d :: 0 <= d < e ==> LayerSplits(f[d], f[d + 1], Pow2(d), Pow2(7 - d), Pow2(d))
  }

  /** r is what the eight forward layers leave of a. */
  ghost predicate IsImage(a: seq<int>, r: seq<int>)
  {
    exists f :: |f| == 9 && ForwardRun(f, a, 8) && f[8] == r
  }

  lemma MakeImage(f: seq<seq<int>>, a: seq<int>, r: seq<int>)
    requires |f| == 9 && ForwardRun(f, a, 8) && f[8] == r
    ensures IsImage(a, r)
  {
    hide ForwardRun;
  }

  /** One more layer of a run. */
  lemma RunNext(f: seq<seq<int>>, a: seq<int>, e: nat, r: seq<int>)
    requires e < 8 && |f| == e + 1 && ForwardRun(f, a, e) && LayerSplits(f[e], r, Pow2(e), Pow2(7 - e), Pow2(e))
    ensures |f + [r]| == e + 2 && ForwardRun(f + [r], a, e + 1) && (f + [r])[e + 1] == r
  {
    hide LayerSplits, Pow2;
    var h := f + [r];
    forall d | 0 <= d < e + 1
      ensures LayerSplits(h[d], h[d + 1], Pow2(d), Pow2(7 - d), Pow2(d))
    {
      assert h[d] == f[d] && (d < e ==> h[d + 1] == f[d + 1]);
    }
  }

  lemma RunStart(a: seq<int>)
    requires |a| == 256
    ensures |[a]| == 1 && ForwardRun([a], a, 0) && [a][0] == a
  {}

  // ---------- Inverse ----------

  /** An inverse butterfly on u and c leaves x and y, if nothing overflows. */
  ghost predicate Merges(u: int, c: int, x: int, y: int, zeta: int)
  {
    x == u + c && y == Twiddle(zeta, c - u)
  }

  ghost predicate BlockMerges(s: seq<int>, r: seq<int>, o: nat, len: nat, zeta: int)
  {
    o + 2 * len <= |s| == |r| && forall i :: o <= i < o + len ==> Merges(s[i], s[i + len], r[i], r[i + len], zeta)
  }

  /** The first b of n pairs of blocks of length len have been merged. */
  ghost predicate LayerMerges(s: seq<int>, r: seq<int>, n: nat, len: nat, b: nat)
  {
    && |s| == |r| == 256 && b <= n <= 128 && Offset(n, 2 * len) == 256
    && forall i :: 0 <= i < b ==> BlockMerges(s, r, Offset(i, 2 * len), len, Zetas.Zeta(2 * n - 1 - i))
  }

  /** The sum and the difference of a butterfly are 32-bit values. */
  predicate PairFits(u: int, c: int)
  {
    Int32(u + c) && Int32(c - u)
  }

  ghost predicate BlockFits(s: seq<int>, o: nat, len: nat)
  {
    o + 2 * len <= |s| && forall i :: o <= i < o + len ==> PairFits(s[i], s[i + len])
  }

  ghost predicate LayerFits(s: seq<int>, n: nat, len: nat)
  {
    |s| == 256 && Offset(n, 2 * len) == 256 && forall b :: 0 <= b < n ==> BlockFits(s, Offset(b, 2 * len), len)
  }

  /** g[e] to g[8] are the states of the inverse layers on s, the last layer first. */
  ghost predicate InverseRun(g: seq<seq<int>>, s: seq<int>, e: nat)
  {
    && |g| == 9 && e <= 8 && g[8] == s && |s| == 256
    && forall d :: e <= d < 8 ==> LayerMerges(g[d + 1], g[d], Pow2(d), Pow2(7 - d), Pow2(d))
  }

  /** No layer of the inverse transform of s overflows: what the code needs of its input. */
  ghost predicate InverseFits(s: seq<int>)
  {
    |s| == 256 && forall g, e :: 1 <= e <= 8 && InverseRun(g, s, e) ==> LayerFits(g[e], Pow2(e - 1), Pow2(8 - e))
  }

  // ---------- Reduced inputs fit ----------

  /** The bound after a layer is twice the bound before it. */
  lemma BoundDoubles(s: seq<int>, r: seq<int>, n: nat, len: nat, bound: int)
    requires LayerMerges(s, r, n, len, n) && Bounded(s, 0, 256, bound) && Q <= bound && len >= 1
    ensures Bounded(r, 0, 256, 2 * bound)
  {
    hide Twiddle;
    forall i | 0 <= i < 256
      ensures Small(r[i], 2 * bound)
    {
      var b, j := Locate(i, n, len);
      assert BlockMerges(s, r, Offset(b, 2 * len), len, Zetas.Zeta(2 * n - 1 - b));
      var k := if j < len then i else i - len;
      assert Merges(s[k], s[k + len], r[k], r[k + len], Zetas.Zeta(2 * n - 1 - b));
      assert Small(s[k], bound) && Small(s[k + len], bound);
    }
  }

  /** Every index lies in a block. */
  lemma {:induction false} Locate(i: nat, n: nat, len: nat) returns (b: nat, j: nat)
    requires i < Offset(n, 2 * len)
    ensures b < n && j < 2 * len && i == Offset(b, 2 * len) + j
    decreases n
  {
    OffsetStep(n - 1, 2 * len);
    if i >= Offset(n - 1, 2 * len) {
      b, j := n - 1, i - Offset(n - 1, 2 * len);
    } else {
      b, j := Locate(i, n - 1, len);
    }
  }

  /** The bound after the layers down to level e. */
  function Doubled(bound: int, e: nat): int
    requires e <= 8
    decreases 8 - e
  {
    if e == 8 then bound else 2 * Doubled(bound, e + 1)
  }

  lemma DoubledFits(bound: int, e: nat)
    requires 1 <= e <= 8 && Q <= bound && 256 * bound <= 0x8000_0000
    ensures Q <= Doubled(bound, e) && 2 * Doubled(bound, e) <= 0x8000_0000
  {
    assert Doubled(bound, 5) == 8 * bound;
    assert Doubled(bound, 1) == 16 * Doubled(bound, 5);
  }

  lemma RunBounded(g: seq<seq<int>>, s: seq<int>, e: nat, bound: int)
    requires InverseRun(g, s, e) && Bounded(s, 0, 256, bound) && Q <= bound && 256 * bound <= 0x8000_0000
    ensures Bounded(g[e], 0, 256, Doubled(bound, e))
    decreases 8 - e
  {
    if e < 8 {
      RunBounded(g, s, e + 1, bound);
      DoubledFits(bound, e + 1);
      hide Bounded, LayerMerges;
      BoundDoubles(g[e + 1], g[e], Pow2(e), Pow2(7 - e), Doubled(bound, e + 1));
    }
  }

  lemma BoundedLayerFits(s: seq<int>, n: nat, len: nat, bound: int)
    requires |s| == 256 && Offset(n, 2 * len) == 256 && Bounded(s, 0, 256, bound) && 2 * bound <= 0x8000_0000
    ensures LayerFits(s, n, len)
  {
    forall b | 0 <= b < n
      ensures BlockFits(s, Offset(b, 2 * len), len)
    {
      OffsetMono(b, n, 2 * len);
      hide Offset;
      var o := Offset(b, 2 * len);
      forall i | o <= i < o + len
        ensures PairFits(s[i], s[i + len])
      {
        assert Small(s[i], bound) && Small(s[i + len], bound);
      }
    }
  }

  /** The blocks of each level fill the array. */
  lemma Sizes(e: nat)
    requires 1 <= e <= 8
    ensures Offset(Pow2(e - 1), 2 * Pow2(8 - e)) == 256 && Pow2(e - 1) <= 128
    ensures 1 <= Pow2(8 - e) <= 128
  {
    assert Pow2(1) == 2 && Pow2(2) == 4 && Pow2(3) == 8 && Pow2(4) == 16 && Pow2(5) == 32 && Pow2(6) == 64 && Pow2(7) == 128;
  }

  /** Input that leaves room for a factor of 256 never overflows. */
  lemma BoundedFits(s: seq<int>, bound: int)
    requires |s| == 256 && Bounded(s, 0, 256, bound) && Q <= bound && 256 * bound <= 0x8000_0000
    ensures InverseFits(s)
  {
    hide Bounded, LayerMerges, LayerFits;
    forall g, e | 1 <= e <= 8 && InverseRun(g, s, e)
      ensures LayerFits(g[e], Pow2(e - 1), Pow2(8 - e))
    {
      RunBounded(g, s, e, bound);
      DoubledFits(bound, e);
      Sizes(e);
      assert |g[e]| == 256 by {
        StatesAre256(g, s, e);
      }
      BoundedLayerFits(g[e], Pow2(e - 1), Pow2(8 - e), Doubled(bound, e));
    }
  }

  lemma StatesAre256(g: seq<seq<int>>, s: seq<int>, e: nat)
    requires InverseRun(g, s, e)
    ensures |g[e]| == 256
  {
    if e < 8 {
      assert LayerMerges(g[e + 1], g[e], Pow2(e), Pow2(7 - e), Pow2(e));
    }
  }

  // ---------- The image of a polynomial ----------

  /** len times a coefficient. */
  function Multiplied(len: int, x: int): int
  {
    len * x
  }

  /** The first butterfly of a block: twice the start comes back, and the difference fits. */
  lemma StartMerges(s: seq<int>, s': seq<int>, y': seq<int>, y: seq<int>, o: nat, len: nat, zeta: int, zeta': int)
    requires BlockSplits(s, s', o, len, zeta) && BlockMerges(y', y, o, len, zeta') && |s| == |y|
    requires 1 <= len <= 128
    requires y'[o] == Multiplied(len, s'[o]) && y'[o + len] == Multiplied(len, s'[o + len])
    ensures y[o] == Multiplied(2 * len, s[o]) && Int32(y'[o + len] - y'[o])
  {
    assert Splits(s[o], s[o + len], s'[o], s'[o + len], zeta);
    assert Merges(y'[o], y'[o + len], y[o], y[o + len], zeta');
    hide Twiddle;
    StartsAdd(len, s[o], Twiddle(zeta, s[o + len]));
  }

  /** The other butterflies add or reduce small values. */
  lemma OthersMerge(y': seq<int>, y: seq<int>, o: nat, len: nat, zeta: int, limit: int)
    requires BlockMerges(y', y, o, len, zeta) && 1 <= len && Q <= 2 * limit <= 0x8000_0000
    requires Bounded(y', o + 1, o + len, limit) && Bounded(y', o + len + 1, o + 2 * len, limit)
    ensures Bounded(y, o + 1, o + 2 * len, 2 * limit)
    ensures forall i :: o < i < o + len ==> PairFits(y'[i], y'[i + len])
  {
    hide Twiddle;
    forall i | o + 1 <= i < o + 2 * len
      ensures Small(y[i], 2 * limit)
    {
      var k := if i < o + len then i else i - len;
      assert Merges(y'[k], y'[k + len], y[k], y[k + len], zeta);
      if k > o {
        assert Small(y'[k], limit) && Small(y'[k + len], limit);
      }
    }
    forall i | o < i < o + len
      ensures PairFits(y'[i], y'[i + len])
    {
      assert Small(y'[i], limit) && Small(y'[i + len], limit);
    }
  }

  /** y starts each of its n blocks of length m with m times what x starts it with, the rest is within the limit. */
  ghost predicate Carries(x: seq<int>, y: seq<int>, n: nat, m: nat, limit: int)
  {
    && |x| == |y| == 256 && Offset(n, m) == 256
    && forall b :: 0 <= b < n ==> BlockCarries(x, y, Offset(b, m), m, limit)
  }

  ghost predicate BlockCarries(x: seq<int>, y: seq<int>, o: nat, m: nat, limit: int)
  {
    1 <= m && o + m <= |x| == |y| && y[o] == Multiplied(m, x[o]) && Bounded(y, o + 1, o + m, limit)
  }

  /** A forward layer and the matching inverse layer around states where the starts are carried. */
  lemma BlockStep(s: seq<int>, s': seq<int>, y': seq<int>, y: seq<int>, o: nat, len: nat, zeta: int, zeta': int, limit: int)
    requires BlockSplits(s, s', o, len, zeta) && BlockMerges(y', y, o, len, zeta') && |s| == |y|
    requires 1 <= len <= 128 && Q <= 2 * limit <= 0x8000_0000
    requires BlockCarries(s', y', o, len, limit) && BlockCarries(s', y', o + len, len, limit)
    ensures BlockCarries(s, y, o, 2 * len, 2 * limit)
    ensures BlockFits(y', o, len) <==> Int32(Multiplied(2 * len, s[o]))
  {
    StartMerges(s, s', y', y, o, len, zeta, zeta');
    OthersMerge(y', y, o, len, zeta', limit);
    assert Merges(y'[o], y'[o + len], y[o], y[o + len], zeta');
    hide Twiddle, Multiplied, Merges, Splits;
    if BlockFits(y', o, len) {
      assert PairFits(y'[o], y'[o + len]);
    }
  }

  lemma StartsAdd(len: int, u: int, t: int)
    requires 1 <= len <= 128 && Small(t, Q)
    ensures Multiplied(len, u + t) + Multiplied(len, u - t) == Multiplied(2 * len, u)
    ensures Int32(Multiplied(len, u - t) - Multiplied(len, u + t))
  {
    assert len * (u + t) == len * u + len * t && len * (u - t) == len * u - len * t;
    ProductBound(len, t, 128, Q - 1);
  }

  /** A layer and its inverse keep the starts carried, and the inverse fits exactly if the doubled starts do. */
  lemma LayerStep(s: seq<int>, s': seq<int>, y': seq<int>, y: seq<int>, n: nat, len: nat, limit: int)
    requires LayerSplits(s, s', n, len, n) && LayerMerges(y', y, n, len, n)
    requires 1 <= len <= 128 && Q <= 2 * limit <= 0x8000_0000 && Carries(s', y', 2 * n, len, limit)
    ensures Carries(s, y, n, 2 * len, 2 * limit)
    ensures LayerFits(y', n, len) <==> StartsFit(s, n, 2 * len)
  {
    hide BlockSplits, BlockMerges, BlockCarries, BlockFits;
    forall b | 0 <= b < n
      ensures Offset(b, 2 * len) < 256 && BlockCarries(s, y, Offset(b, 2 * len), 2 * len, 2 * limit)
      ensures BlockFits(y', Offset(b, 2 * len), len) <==> Int32(Multiplied(2 * len, s[Offset(b, 2 * len)]))
    {
      OffsetStep(b, len);
      OffsetMono(b, n, 2 * len);
      assert BlockCarries(s', y', Offset(2 * b, len), len, limit) && BlockCarries(s', y', Offset(2 * b + 1, len), len, limit);
      hide Offset;
      BlockStep(s, s', y', y, Offset(b, 2 * len), len, Zetas.Zeta(n + b), Zetas.Zeta(2 * n - 1 - b), limit);
    }
  }

  /** The starts of the blocks of length m fit 32 bits when they are taken m times. */
  ghost predicate StartsFit(x: seq<int>, n: nat, m: nat)
  {
    |x| == 256 && forall b :: 0 <= b < n ==> Offset(b, m) < 256 && Int32(Multiplied(m, x[Offset(b, m)]))
  }

  lemma Halves(e: nat)
    requires e < 8
    ensures Pow2(e + 1) == 2 * Pow2(e) && Pow2(8 - e) == 2 * Pow2(7 - e) && 1 <= Pow2(7 - e) <= 128
  {
    assert Pow2(1) == 2 && Pow2(2) == 4 && Pow2(3) == 8 && Pow2(4) == 16 && Pow2(5) == 32 && Pow2(6) == 64 && Pow2(7) == 128;
  }

  /** Half of Q, rounded up: the limit before the first inverse layer. */
  const HALF: int := 4190209

  lemma LimitFits(e: nat)
    requires 1 <= e <= 8
    ensures Q <= 2 * Doubled(HALF, e) <= 0x8000_0000 && Doubled(HALF, e - 1) == 2 * Doubled(HALF, e)
  {
    assert Doubled(HALF, 5) == 8 * HALF;
    assert Doubled(HALF, 1) == 16 * Doubled(HALF, 5);
  }

  lemma StartsCarried(x: seq<int>)
    requires |x| == 256
    ensures Carries(x, x, Pow2(8), Pow2(0), HALF)
  {
    assert Pow2(0) == 1 && Pow2(4) == 16 && Pow2(8) == 256;
    forall b | 0 <= b < 256
      ensures BlockCarries(x, x, Offset(b, 1), 1, HALF)
    {}
  }

  /** Undoing the layers one by one, the starts of the blocks come back multiplied. */
  lemma {:induction false} RunCarries(f: seq<seq<int>>, g: seq<seq<int>>, a: seq<int>, e: nat)
    requires ForwardRun(f, a, 8) && InverseRun(g, f[8], e)
    ensures Carries(f[e], g[e], Pow2(e), Pow2(8 - e), Doubled(HALF, e))
    decreases 8 - e
  {
    hide LayerSplits, LayerMerges, Carries;
    if e == 8 {
      StartsCarried(f[8]);
    } else {
      RunCarries(f, g, a, e + 1);
      RunStep(f, g, a, e);
    }
  }

  lemma RunStep(f: seq<seq<int>>, g: seq<seq<int>>, a: seq<int>, e: nat)
    requires ForwardRun(f, a, 8) && InverseRun(g, f[8], e) && e < 8
    requires Carries(f[e + 1], g[e + 1], Pow2(e + 1), Pow2(7 - e), Doubled(HALF, e + 1))
    ensures Carries(f[e], g[e], Pow2(e), Pow2(8 - e), Doubled(HALF, e))
    ensures LayerFits(g[e + 1], Pow2(e), Pow2(7 - e)) <==> StartsFit(f[e], Pow2(e), Pow2(8 - e))
  {
    Halves(e);
    LimitFits(e + 1);
    hide LayerSplits, LayerMerges, Carries, StartsFit, LayerFits, Doubled, Pow2;
    LayerStep(f[e], f[e + 1], g[e + 1], g[e], Pow2(e), Pow2(7 - e), Doubled(HALF, e + 1));
  }

  // ---------- Which images fit ----------

  ghost predicate StartsBelow(x: seq<int>, n: nat, m: nat, bound: int)
  {
    |x| == 256 && forall b :: 0 <= b < n ==> Offset(b, m) < 256 && Small(x[Offset(b, m)], bound)
  }

  /** A forward layer moves the starts of the blocks by less than Q. */
  lemma StartsMove(s: seq<int>, r: seq<int>, n: nat, len: nat, bound: int)
    requires LayerSplits(s, r, n, len, n) && 1 <= len && StartsBelow(s, n, 2 * len, bound)
    ensures StartsBelow(r, 2 * n, len, bound + (Q - 1))
  {
    hide Twiddle;
    forall b | 0 <= b < 2 * n
      ensures Offset(b, len) < 256 && Small(r[Offset(b, len)], bound + (Q - 1))
    {
      var c := b / 2;
      OffsetStep(c, len);
      OffsetMono(c, n, 2 * len);
      assert b == 2 * c || b == 2 * c + 1;
      hide Offset;
      var o := Offset(c, 2 * len);
      assert BlockSplits(s, r, o, len, Zetas.Zeta(n + c));
      assert Splits(s[o], s[o + len], r[o], r[o + len], Zetas.Zeta(n + c)) && Small(s[o], bound);
    }
  }

  /** The bound on the starts after e layers. */
  function Reach(e: nat): int
  {
    0x80_0001 + e * (Q - 1)
  }

  lemma {:induction false} RunReaches(f: seq<seq<int>>, a: seq<int>, e: nat)
    requires ForwardRun(f, a, 8) && e <= 8 && -0x80_0000 <= a[0] < 0x80_0000
    ensures StartsBelow(f[e], Pow2(e), Pow2(8 - e), Reach(e))
  {
    if e == 0 {
      assert Offset(0, Pow2(8)) == 0 && Pow2(0) == 1;
    } else {
      RunReaches(f, a, e - 1);
      Halves(e - 1);
      ReachNext(e - 1);
      hide LayerSplits, StartsBelow, Reach, Pow2;
      StartsMove(f[e - 1], f[e], Pow2(e - 1), Pow2(8 - e), Reach(e - 1));
    }
  }

  lemma ReachNext(e: nat)
    ensures Reach(e + 1) == Reach(e) + (Q - 1)
  {}

  /** Beyond the first layer, starts within reach fit when they are multiplied. */
  lemma ReachFits(e: nat, x: int)
    requires 1 <= e <= 8 && Small(x, Reach(e))
    ensures Int32(Multiplied(Pow2(8 - e), x))
  {
    assert Pow2(1) == 2 && Pow2(2) == 4 && Pow2(3) == 8 && Pow2(4) == 16 && Pow2(5) == 32 && Pow2(6) == 64 && Pow2(7) == 128;
    ReachBound(e);
    ProductBound(Pow2(8 - e), x, Pow2(8 - e), Reach(e) - 1);
  }

  lemma ReachBound(e: nat)
    requires 1 <= e <= 8
    ensures Pow2(8 - e) * (Reach(e) - 1) < 0x8000_0000
  {
    assert Pow2(1) == 2 && Pow2(2) == 4 && Pow2(3) == 8 && Pow2(4) == 16 && Pow2(5) == 32 && Pow2(6) == 64 && Pow2(7) == 128;
  }

  /** All starts fit from the second layer on, if the first coefficient is in range. */
  lemma ImageStartsFit(f: seq<seq<int>>, a: seq<int>, e: nat)
    requires ForwardRun(f, a, 8) && e < 8 && -0x80_0000 <= a[0] < 0x80_0000
    ensures StartsFit(f[e], Pow2(e), Pow2(8 - e))
  {
    if e == 0 {
      FirstStart(a);
    } else {
      RunReaches(f, a, e);
      var x, m := f[e], Pow2(8 - e);
      hide LayerSplits, Multiplied, Reach, Pow2, Int32;
      forall b | 0 <= b < Pow2(e)
        ensures Offset(b, m) < 256 && Int32(Multiplied(m, x[Offset(b, m)]))
      {
        ReachFits(e, x[Offset(b, m)]);
      }
    }
  }

  /** At the root the only start is the first coefficient, and it comes back 256 times. */
  lemma FirstStart(a: seq<int>)
    requires |a| == 256
    ensures StartsFit(a, Pow2(0), Pow2(8)) <==> -0x80_0000 <= a[0] < 0x80_0000
  {
    assert Pow2(0) == 1 && Pow2(4) == 16 && Pow2(8) == 256 && Offset(0, 256) == 0;
    if StartsFit(a, 1, 256) {
      assert Int32(Multiplied(256, a[Offset(0, 256)]));
    }
  }

  /** The blocks a layer of the inverse makes, for the runs that exist. */
  function MergedBlock(s: seq<int>, o: nat, len: nat, zeta: int): (r: seq<int>)
    requires o + 2 * len <= |s|
    ensures |r| == 2 * len
  {
    seq(2 * len, j requires 0 <= j < 2 * len =>
      if j < len then s[o + j] + s[o + j + len] else Twiddle(zeta, s[o + j] - s[o + j - len]))
  }

  ghost predicate PartMerges(s: seq<int>, r: seq<int>, o: nat, len: nat, zeta: int)
  {
    && o + 2 * len <= |s| && o + 2 * len <= |r|
    && forall i :: o <= i < o + len ==> Merges(s[i], s[i + len], r[i], r[i + len], zeta)
  }

  lemma MergedBlockIs(s: seq<int>, r: seq<int>, o: nat, len: nat, zeta: int)
    requires o + 2 * len <= |s| && |r| == o
    ensures PartMerges(s, r + MergedBlock(s, o, len, zeta), o, len, zeta)
  {
    hide *;
    var w := MergedBlock(s, o, len, zeta);
    forall i | o <= i < o + len
      ensures Merges(s[i], s[i + len], (r + w)[i], (r + w)[i + len], zeta)
    {
      MergedEntry(s, o, len, zeta, i - o);
      assert (r + w)[i] == w[i - o] && (r + w)[i + len] == w[i - o + len];
    }
    MakePart(s, r + w, o, len, zeta);
  }

  lemma MergedEntry(s: seq<int>, o: nat, len: nat, zeta: int, j: nat)
    requires o + 2 * len <= |s| && j < len
    ensures Merges(s[o + j], s[o + j + len], MergedBlock(s, o, len, zeta)[j], MergedBlock(s, o, len, zeta)[j + len], zeta)
  {
    hide Twiddle;
  }

  lemma MakePart(s: seq<int>, r: seq<int>, o: nat, len: nat, zeta: int)
    requires o + 2 * len <= |s| && o + 2 * len <= |r|
    requires forall i :: o <= i < o + len ==> Merges(s[i], s[i + len], r[i], r[i + len], zeta)
    ensures PartMerges(s, r, o, len, zeta)
  {
    hide Merges;
  }

  lemma PartStays(s: seq<int>, r: seq<int>, w: seq<int>, o: nat, len: nat, zeta: int)
    requires PartMerges(s, r, o, len, zeta)
    ensures PartMerges(s, r + w, o, len, zeta)
  {
    hide Merges;
    forall i | o <= i < o + len
      ensures Merges(s[i], s[i + len], (r + w)[i], (r + w)[i + len], zeta)
    {
      assert (r + w)[i] == r[i] && (r + w)[i + len] == r[i + len];
    }
  }

  lemma {:induction false} LayerExists(s: seq<int>, n: nat, len: nat, b: nat) returns (r: seq<int>)
    requires |s| == 256 && b <= n <= 128 && Offset(n, 2 * len) == 256
    ensures |r| == Offset(b, 2 * len)
    ensures forall i :: 0 <= i < b ==> PartMerges(s, r, Offset(i, 2 * len), len, Zetas.Zeta(2 * n - 1 - i))
  {
    hide *;
    if b == 0 {
      OffsetStep(0, 2 * len);
      r := [];
    } else {
      var p := LayerExists(s, n, len, b - 1);
      OffsetStep(b - 1, 2 * len);
      OffsetMono(b - 1, n, 2 * len);
      var w := MergedBlock(s, Offset(b - 1, 2 * len), len, Zetas.Zeta(2 * n - b));
      MergedBlockIs(s, p, Offset(b - 1, 2 * len), len, Zetas.Zeta(2 * n - b));
      r := p + w;
      forall i | 0 <= i < b
        ensures PartMerges(s, r, Offset(i, 2 * len), len, Zetas.Zeta(2 * n - 1 - i))
      {
        if i < b - 1 {
          PartStays(s, p, w, Offset(i, 2 * len), len, Zetas.Zeta(2 * n - 1 - i));
        }
      }
    }
  }

  /** Every sequence of 256 numbers has an inverse run. */
  lemma {:induction false} RunExists(s: seq<int>, e: nat) returns (g: seq<seq<int>>)
    requires |s| == 256 && e <= 8
    ensures InverseRun(g, s, e)
    decreases 8 - e
  {
    if e == 8 {
      g := seq(9, i => s);
    } else {
      var h := RunExists(s, e + 1);
      g := RunGoesOn(h, s, e);
    }
  }

  lemma RunGoesOn(h: seq<seq<int>>, s: seq<int>, e: nat) returns (g: seq<seq<int>>)
    requires e < 8 && |h| == 9 && InverseRun(h, s, e + 1)
    ensures |g| == 9 && InverseRun(g, s, e) && g[e + 1] == h[e + 1]
  {
    hide *;
    StatesAre256(h, s, e + 1);
    Sizes(e + 1);
    var r := LayerExists(h[e + 1], Pow2(e), Pow2(7 - e), Pow2(e));
    MakeLayer(h[e + 1], r, Pow2(e), Pow2(7 - e));
    g := RunWith(h, s, e, r);
  }

  lemma RunWith(h: seq<seq<int>>, s: seq<int>, e: nat, r: seq<int>) returns (g: seq<seq<int>>)
    requires e < 8 && |h| == 9 && InverseRun(h, s, e + 1) && LayerMerges(h[e + 1], r, Pow2(e), Pow2(7 - e), Pow2(e))
    ensures |g| == 9 && InverseRun(g, s, e) && g[e] == r && g[e + 1] == h[e + 1]
  {
    g := h[e := r];
    hide LayerMerges, Pow2;
    forall d | e <= d < 8
      ensures LayerMerges(g[d + 1], g[d], Pow2(d), Pow2(7 - d), Pow2(d))
    {
      if d > e {
        assert g[d] == h[d] && g[d + 1] == h[d + 1];
      }
    }
  }

  lemma MakeLayer(s: seq<int>, r: seq<int>, n: nat, len: nat)
    requires |s| == |r| == Offset(n, 2 * len) == 256 && n <= 128
    requires forall i :: 0 <= i < n ==> PartMerges(s, r, Offset(i, 2 * len), len, Zetas.Zeta(2 * n - 1 - i))
    ensures LayerMerges(s, r, n, len, n)
  {
    hide Merges, Offset;
    forall i | 0 <= i < n
      ensures BlockMerges(s, r, Offset(i, 2 * len), len, Zetas.Zeta(2 * n - 1 - i))
    {
      assert PartMerges(s, r, Offset(i, 2 * len), len, Zetas.Zeta(2 * n - 1 - i));
    }
  }

  /** A layer of an inverse run on an image fits exactly if the starts of its blocks do. */
  lemma LayerFitsExactly(f: seq<seq<int>>, h: seq<seq<int>>, a: seq<int>, e: nat)
    requires ForwardRun(f, a, 8) && InverseRun(h, f[8], e + 1)
    ensures LayerFits(h[e + 1], Pow2(e), Pow2(7 - e)) <==> StartsFit(f[e], Pow2(e), Pow2(8 - e))
  {
    StatesOfImage(f, a);
    var g := RunGoesOn(h, f[8], e);
    RunCarries(f, g, a, e + 1);
    RunStep(f, g, a, e);
  }

  /**
   The image of a polynomial can be handed straight to the inverse transform exactly if the constant coefficient lies in
   [-2^23, 2^23): that coefficient comes back 256 times before the last multiplication, the others are reduced on the way.
   */
  lemma ImageFitsExactly(a: seq<int>, r: seq<int>)
    requires |a| == 256 && IsImage(a, r)
    ensures InverseFits(r) <==> -0x80_0000 <= a[0] < 0x80_0000
  {
    hide ForwardRun, InverseFits;
    var f :| |f| == 9 && ForwardRun(f, a, 8) && f[8] == r;
    RunFitsExactly(f, a);
  }

  lemma RunFitsExactly(f: seq<seq<int>>, a: seq<int>)
    requires |f| == 9 && |a| == 256 && ForwardRun(f, a, 8)
    ensures InverseFits(f[8]) <==> -0x80_0000 <= a[0] < 0x80_0000
  {
    hide *;
    StatesOfImage(f, a);
    if InverseFits(f[8]) {
      var g := RunExists(f[8], 1);
      LastLayerFits(g, f[8]);
      LayerFitsExactly(f, g, a, 0);
      FirstStart(a);
    }
    if -0x80_0000 <= a[0] < 0x80_0000 {
      ImageFits(f, a);
    }
  }

  lemma LastLayerFits(g: seq<seq<int>>, s: seq<int>)
    requires InverseFits(s) && InverseRun(g, s, 1)
    ensures |g| == 9 && LayerFits(g[1], Pow2(0), Pow2(7))
  {
    hide LayerMerges, LayerFits, Pow2;
  }

  lemma ImageFits(f: seq<seq<int>>, a: seq<int>)
    requires ForwardRun(f, a, 8) && |f| == 9 && |f[8]| == |a| == 256 && -0x80_0000 <= a[0] < 0x80_0000
    ensures InverseFits(f[8])
  {
    hide LayerSplits, LayerMerges, LayerFits, StartsFit, Pow2;
    forall g, e | 1 <= e <= 8 && InverseRun(g, f[8], e)
      ensures LayerFits(g[e], Pow2(e - 1), Pow2(8 - e))
    {
      LayerFitsExactly(f, g, a, e - 1);
      ImageStartsFit(f, a, e - 1);
    }
  }

  lemma StatesOfImage(f: seq<seq<int>>, a: seq<int>)
    requires ForwardRun(f, a, 8)
    ensures |f| == 9 && f[0] == a && |f[8]| == |a| == 256
  {
    assert LayerSplits(f[7], f[8], Pow2(7), Pow2(0), Pow2(7));
  }
}
