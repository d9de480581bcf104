/**
 How a flat coefficient array holds the blocks of a state, and how one butterfly pass over a block of the
 array moves the state one block further through a layer.
 */
module NttArray {
  import opened Congruence
  import opened PolyRing
  import opened NttTower

  /** The offset of block b among blocks of length m. */
  function Offset(b: nat, m: nat): (r: nat)
  {
    b * m
  }

  lemma OffsetStep(b: nat, m: nat)
    ensures Offset(0, m) == 0
    ensures Offset(b + 1, m) == Offset(b, m) + m
    ensures Offset(2 * b, m) == Offset(b, 2 * m)
    ensures Offset(2 * b + 1, m) == Offset(b, 2 * m) + m
  {}

  lemma OffsetMono(b: nat, c: nat, m: nat)
    requires b < c
    ensures Offset(b, m) + m <= Offset(c, m)
  {
    OffsetStep(c - 1, m);
    if b < c - 1 {
      OffsetMono(b, c - 1, m);
    }
  }

  /** Another block fits in front of the end. */
  lemma BlockIsNext(b: nat, n: nat, len: nat)
    requires b < n && 0 < len && Offset(n, 2 * len) == 256
    ensures Offset(b, 2 * len) + 2 * len <= 256 && Offset(b + 1, 2 * len) == Offset(b, 2 * len) + 2 * len
    ensures b + 1 == n ==> Offset(b + 1, 2 * len) == 256
  {
    OffsetStep(b, 2 * len);
    OffsetMono(b, n, 2 * len);
  }

  function BlockAt(s: seq<int>, m: nat, b: nat): (r: seq<int>)
  {
    if Offset(b, m) + m <= |s| then s[Offset(b, m)..Offset(b, m) + m] else []
  }

  /** The array s holds, modulo q, the blocks bl of length m one after another. */
  ghost predicate Represents(s: seq<int>, bl: Blocks, m: nat, q: int)
    requires q > 0
  {
    |s| == Offset(|bl|, m) && Uniform(bl, m) && forall b :: 0 <= b < |bl| ==> EqMod(BlockAt(s, m, b), bl[b], q)
  }

  // ---------- Butterflies ----------

  function Up(a: int, b: int, y: int): int
  {
    a + y * b
  }

  function Down(a: int, b: int, y: int): int
  {
    a - y * b
  }

  function Diff(a: int, b: int, y: int): int
  {
    y * (b - a)
  }

  /** One block has been through the forward butterflies with root y, the rest of the array is untouched. */
  ghost predicate ForwardDone(s: seq<int>, r: seq<int>, start: nat, len: nat, y: int, q: int)
    requires q > 0
  {
    && |s| == |r| && start + 2 * len <= |s|
    && (forall i :: 0 <= i < |s| && !(start <= i < start + 2 * len) ==> r[i] == s[i])
    && (forall i :: start <= i < start + len ==>
          Cong(r[i], Up(s[i], s[i + len], y), q) && Cong(r[i + len], Down(s[i], s[i + len], y), q))
  }

  lemma MakeForwardDone(s: seq<int>, r: seq<int>, o: nat, len: nat, y: int, q: int)
    requires |s| == |r| && o + 2 * len <= |s| && q > 0
    requires forall i :: 0 <= i < |s| && !(o <= i < o + 2 * len) ==> r[i] == s[i]
    requires forall i :: o <= i < o + len ==> Cong(r[i], Up(s[i], s[i + len], y), q)
    requires forall i :: o <= i < o + len ==> Cong(r[i + len], Down(s[i], s[i + len], y), q)
    ensures ForwardDone(s, r, o, len, y, q)
  {
    hide Cong, Up, Down;
  }

  // ---------- Forward ----------

  /** The first b blocks of the state bl have been split, the others have not. */
  ghost predicate SplitSoFar(t: Tower, s: seq<int>, bl: Blocks, len: nat, b: nat)
    requires t.q > 0 && 2 * |bl| <= |t.roots| && Uniform(bl, 2 * len) && b <= |bl|
  {
    && |s| == Offset(|bl|, 2 * len)
    && (forall i :: 0 <= i < 2 * b ==> EqMod(BlockAt(s, len, i), Split(t, bl, len)[i], t.q))
    && (forall i :: b <= i < |bl| ==> EqMod(BlockAt(s, 2 * len, i), bl[i], t.q))
  }

  lemma BlockUnchanged(s: seq<int>, r: seq<int>, m: nat, b: nat, start: nat, len: nat)
    requires |s| == |r| && forall i :: 0 <= i < |s| && !(start <= i < start + 2 * len) ==> r[i] == s[i]
    requires Offset(b, m) + m <= start || start + 2 * len <= Offset(b, m)
    ensures BlockAt(r, m, b) == BlockAt(s, m, b)
  {
    hide Offset;
  }

  /** The two halves of a freshly split block. */
  lemma ForwardHalf(u: seq<int>, h: seq<int>, a: seq<int>, y: int, q: int)
    requires q > 0 && |u| == |a| == 2 * |h| && EqMod(u, a, q)
    requires forall i :: 0 <= i < |h| ==> Cong(h[i], Up(u[i], u[i + |h|], y), q)
    ensures EqMod(h, Lo(a, y), q)
  {
    hide Cong;
    LoCong(u, a, y, q);
    EqModTrans(h, Lo(u, y), Lo(a, y), q);
  }

  lemma ForwardOtherHalf(u: seq<int>, h: seq<int>, a: seq<int>, y: int, q: int)
    requires q > 0 && |u| == |a| == 2 * |h| && EqMod(u, a, q)
    requires forall i :: 0 <= i < |h| ==> Cong(h[i], Down(u[i], u[i + |h|], y), q)
    ensures EqMod(h, Hi(a, y), q)
  {
    hide Cong;
    HiIsLo(u, y);
    HiIsLo(a, y);
    LoCong(u, a, -y, q);
    EqModTrans(h, Hi(u, y), Hi(a, y), q);
  }

  lemma ForwardSlices(s: seq<int>, r: seq<int>, o: nat, len: nat, y: int, q: int)
    requires q > 0 && ForwardDone(s, r, o, len, y, q)
    ensures var u, lo, hi := s[o..o + 2 * len], r[o..o + len], r[o + len..o + 2 * len];
            forall i :: 0 <= i < len ==> Cong(lo[i], Up(u[i], u[i + len], y), q) && Cong(hi[i], Down(u[i], u[i + len], y), q)
  {
    hide Cong, Up, Down;
    var u, lo, hi := s[o..o + 2 * len], r[o..o + len], r[o + len..o + 2 * len];
    forall i | 0 <= i < len
      ensures Cong(lo[i], Up(u[i], u[i + len], y), q) && Cong(hi[i], Down(u[i], u[i + len], y), q)
    {
      assert s[o + i] == u[i] && s[o + i + len] == u[i + len];
    }
  }

  lemma ForwardHalves(s: seq<int>, r: seq<int>, a: seq<int>, b: nat, len: nat, y: int, q: int)
    requires q > 0 && |a| == 2 * len && ForwardDone(s, r, Offset(b, 2 * len), len, y, q)
    requires EqMod(BlockAt(s, 2 * len, b), a, q)
    ensures EqMod(BlockAt(r, len, 2 * b), Lo(a, y), q)
    ensures EqMod(BlockAt(r, len, 2 * b + 1), Hi(a, y), q)
  {
    hide Cong, EqMod, Lo, Hi, Up, Down;
    OffsetStep(b, len);
    hide Offset;
    var o := Offset(b, 2 * len);
    ForwardSlices(s, r, o, len, y, q);
    ForwardHalf(s[o..o + 2 * len], r[o..o + len], a, y, q);
    ForwardOtherHalf(s[o..o + 2 * len], r[o + len..o + 2 * len], a, y, q);
  }

  lemma SplitStart(t: Tower, s: seq<int>, bl: Blocks, len: nat)
    requires t.q > 0 && 2 * |bl| <= |t.roots| && Represents(s, bl, 2 * len, t.q)
    ensures SplitSoFar(t, s, bl, len, 0)
  {}

  ghost predicate SplitStepPre(t: Tower, s: seq<int>, r: seq<int>, bl: Blocks, len: nat, b: nat)
  {
    && t.q > 0 && 2 * |bl| <= |t.roots| && Uniform(bl, 2 * len) && b < |bl|
    && SplitSoFar(t, s, bl, len, b)
    && ForwardDone(s, r, Offset(b, 2 * len), len, t.roots[|bl| + b], t.q)
  }

  lemma SplitStepDone(t: Tower, s: seq<int>, r: seq<int>, bl: Blocks, len: nat, b: nat, i: nat)
    requires SplitStepPre(t, s, r, bl, len, b) && i < 2 * (b + 1)
    ensures EqMod(BlockAt(r, len, i), Split(t, bl, len)[i], t.q)
  {
    hide EqMod, Split, Lo, Hi, Cong;
    if i < 2 * b {
      OffsetMono(i, 2 * b, len);
      OffsetStep(b, len);
      hide Offset;
      BlockUnchanged(s, r, len, i, Offset(b, 2 * len), len);
    } else {
      hide Offset;
      ForwardHalves(s, r, bl[b], b, len, t.roots[|bl| + b], t.q);
      SplitPair(t, bl, len, b);
    }
  }

  lemma SplitStepTodo(t: Tower, s: seq<int>, r: seq<int>, bl: Blocks, len: nat, b: nat, i: nat)
    requires SplitStepPre(t, s, r, bl, len, b) && b + 1 <= i < |bl|
    ensures EqMod(BlockAt(r, 2 * len, i), bl[i], t.q)
  {
    hide EqMod, Split, Cong;
    OffsetMono(b, i, 2 * len);
    hide Offset;
    BlockUnchanged(s, r, 2 * len, i, Offset(b, 2 * len), len);
  }

  lemma SplitStep(t: Tower, s: seq<int>, r: seq<int>, bl: Blocks, len: nat, b: nat)
    requires SplitStepPre(t, s, r, bl, len, b)
    ensures SplitSoFar(t, r, bl, len, b + 1)
  {
    hide EqMod, Split, Offset, BlockAt, Cong;
    forall i | 0 <= i < 2 * (b + 1)
      ensures EqMod(BlockAt(r, len, i), Split(t, bl, len)[i], t.q)
    {
      SplitStepDone(t, s, r, bl, len, b, i);
    }
    forall i | b + 1 <= i < |bl|
      ensures EqMod(BlockAt(r, 2 * len, i), bl[i], t.q)
    {
      SplitStepTodo(t, s, r, bl, len, b, i);
    }
  }

  lemma SplitEnd(t: Tower, s: seq<int>, bl: Blocks, len: nat)
    requires t.q > 0 && 2 * |bl| <= |t.roots| && Uniform(bl, 2 * len) && SplitSoFar(t, s, bl, len, |bl|)
    ensures Represents(s, Split(t, bl, len), len, t.q)
  {
    OffsetStep(|bl|, len);
  }

  // ---------- Inverse ----------

  /** One pair of blocks has been through the inverse butterflies with root y. */
  ghost predicate InverseDone(s: seq<int>, r: seq<int>, start: nat, len: nat, y: int, q: int)
    requires q > 0
  {
    && |s| == |r| && start + 2 * len <= |s|
    && (forall i :: 0 <= i < |s| && !(start <= i < start + 2 * len) ==> r[i] == s[i])
    && (forall i :: start <= i < start + len ==>
          Cong(r[i], s[i] + s[i + len], q) && Cong(r[i + len], Diff(s[i], s[i + len], y), q))
  }

  lemma MakeInverseDone(s: seq<int>, r: seq<int>, o: nat, len: nat, y: int, q: int)
    requires |s| == |r| && o + 2 * len <= |s| && q > 0
    requires forall i :: 0 <= i < |s| && !(o <= i < o + 2 * len) ==> r[i] == s[i]
    requires forall i :: o <= i < o + len ==> Cong(r[i], s[i] + s[i + len], q)
    requires forall i :: o <= i < o + len ==> Cong(r[i + len], Diff(s[i], s[i + len], y), q)
    ensures InverseDone(s, r, o, len, y, q)
  {
    hide Cong, Diff;
  }

  /** The first b pairs of blocks of the state bl have been merged. */
  ghost predicate MergedSoFar(t: Tower, s: seq<int>, bl: Blocks, len: nat, b: nat)
    requires t.q > 0 && |bl| % 2 == 0 && |bl| <= |t.roots| && Uniform(bl, len) && 2 * b <= |bl|
  {
    && |s| == Offset(|bl|, len)
    && (forall i :: 0 <= i < b ==> EqMod(BlockAt(s, 2 * len, i), Merge(t, bl, len)[i], t.q))
    && (forall i :: 2 * b <= i < |bl| ==> EqMod(BlockAt(s, len, i), bl[i], t.q))
  }

  lemma InverseSlices(s: seq<int>, r: seq<int>, o: nat, len: nat, y: int, q: int)
    requires q > 0 && InverseDone(s, r, o, len, y, q)
    ensures var u, v, w := s[o..o + len], s[o + len..o + 2 * len], r[o..o + 2 * len];
            forall i :: 0 <= i < len ==> Cong(w[i], u[i] + v[i], q) && Cong(w[i + len], Diff(u[i], v[i], y), q)
  {
    hide Cong, Diff;
    var u, v, w := s[o..o + len], s[o + len..o + 2 * len], r[o..o + 2 * len];
    forall i | 0 <= i < len
      ensures Cong(w[i], u[i] + v[i], q) && Cong(w[i + len], Diff(u[i], v[i], y), q)
    {
      assert s[o + i] == u[i] && s[o + i + len] == v[i];
    }
  }

  lemma InverseWhole(s: seq<int>, r: seq<int>, lo: seq<int>, hi: seq<int>, b: nat, len: nat, y: int, q: int)
    requires q > 0 && |lo| == |hi| == len && InverseDone(s, r, Offset(b, 2 * len), len, y, q)
    requires EqMod(BlockAt(s, len, 2 * b), lo, q) && EqMod(BlockAt(s, len, 2 * b + 1), hi, q)
    ensures EqMod(BlockAt(r, 2 * len, b), Join(lo, hi, y), q)
  {
    hide Cong, EqMod, Join, Diff;
    OffsetStep(b, len);
    hide Offset;
    var o := Offset(b, 2 * len);
    var u, v, w := s[o..o + len], s[o + len..o + 2 * len], r[o..o + 2 * len];
    InverseSlices(s, r, o, len, y, q);
    JoinedCong(w, u, v, y, q);
    JoinCong(u, lo, v, hi, y, q);
    EqModTrans(w, Join(u, v, y), Join(lo, hi, y), q);
  }

  lemma JoinedCong(w: seq<int>, u: seq<int>, v: seq<int>, y: int, q: int)
    requires q > 0 && |u| == |v| && |w| == 2 * |u|
    requires forall i :: 0 <= i < |u| ==> Cong(w[i], u[i] + v[i], q) && Cong(w[i + |u|], Diff(u[i], v[i], y), q)
    ensures EqMod(w, Join(u, v, y), q)
  {
    hide Cong;
    var m := |u|;
    forall i | 0 <= i < 2 * m
      ensures Cong(w[i], Join(u, v, y)[i], q)
    {
      var k := if i < m then i else i - m;
      assert Cong(w[k], u[k] + v[k], q) && Cong(w[k + m], Diff(u[k], v[k], y), q);
    }
  }

  lemma MergeStart(t: Tower, s: seq<int>, bl: Blocks, len: nat)
    requires t.q > 0 && |bl| % 2 == 0 && |bl| <= |t.roots| && Represents(s, bl, len, t.q)
    ensures MergedSoFar(t, s, bl, len, 0)
  {}

  ghost predicate MergeStepPre(t: Tower, s: seq<int>, r: seq<int>, bl: Blocks, len: nat, b: nat)
  {
    && t.q > 0 && |bl| % 2 == 0 && |bl| <= |t.roots| && Uniform(bl, len) && 2 * b + 2 <= |bl|
    && MergedSoFar(t, s, bl, len, b)
    && InverseDone(s, r, Offset(b, 2 * len), len, t.roots[|bl| - 1 - b], t.q)
  }

  lemma MergeStepDone(t: Tower, s: seq<int>, r: seq<int>, bl: Blocks, len: nat, b: nat, i: nat)
    requires MergeStepPre(t, s, r, bl, len, b) && i < b + 1
    ensures EqMod(BlockAt(r, 2 * len, i), Merge(t, bl, len)[i], t.q)
  {
    hide EqMod, Join, Cong, Merge;
    if i < b {
      OffsetMono(i, b, 2 * len);
      hide Offset;
      BlockUnchanged(s, r, 2 * len, i, Offset(b, 2 * len), len);
    } else {
      hide Offset;
      MergeAt(t, bl, len, b);
      InverseWhole(s, r, bl[2 * b], bl[2 * b + 1], b, len, t.roots[|bl| - 1 - b], t.q);
    }
  }

  lemma MergeStepTodo(t: Tower, s: seq<int>, r: seq<int>, bl: Blocks, len: nat, b: nat, i: nat)
    requires MergeStepPre(t, s, r, bl, len, b) && 2 * b + 2 <= i < |bl|
    ensures EqMod(BlockAt(r, len, i), bl[i], t.q)
  {
    hide EqMod, Merge, Cong;
    OffsetMono(2 * b + 1, i, len);
    OffsetStep(b, len);
    hide Offset;
    BlockUnchanged(s, r, len, i, Offset(b, 2 * len), len);
  }

  lemma MergeStep(t: Tower, s: seq<int>, r: seq<int>, bl: Blocks, len: nat, b: nat)
    requires MergeStepPre(t, s, r, bl, len, b)
    ensures MergedSoFar(t, r, bl, len, b + 1)
  {
    hide EqMod, Merge, Offset, BlockAt, Cong;
    forall i | 0 <= i < b + 1
      ensures EqMod(BlockAt(r, 2 * len, i), Merge(t, bl, len)[i], t.q)
    {
      MergeStepDone(t, s, r, bl, len, b, i);
    }
    forall i | 2 * b + 2 <= i < |bl|
      ensures EqMod(BlockAt(r, len, i), bl[i], t.q)
    {
      MergeStepTodo(t, s, r, bl, len, b, i);
    }
  }

  lemma MergeEnd(t: Tower, s: seq<int>, bl: Blocks, len: nat)
    requires t.q > 0 && |bl| % 2 == 0 && |bl| <= |t.roots| && Uniform(bl, len)
    requires MergedSoFar(t, s, bl, len, |bl| / 2)
    ensures Represents(s, Merge(t, bl, len), 2 * len, t.q)
  {
    OffsetStep(|bl| / 2, len);
  }
}
