/** The hint codec of ML-DSA: the positions of the ones, row after row, and where each row ends. */
module DsaHint {
  import opened MachineInts
  import opened Vectors
  import opened PolyCoding

  /** The positions below n at which p is not zero, in ascending order. */
  function Positions(p: seq<int>, n: nat): (r: seq<nat>)
    requires n <= |p|
    ensures |r| <= n && forall i :: 0 <= i < |r| ==> r[i] < n
  {
    if n == 0 then [] else Positions(p, n - 1) + if p[n - 1] != 0 then [n - 1] else []
  }

  predicate Increasing(s: seq<int>)
  {
    forall i :: 0 < i < |s| ==> s[i - 1] < s[i]
  }

  /** The row whose ones are at the positions s. */
  function Row(s: seq<int>): (p: seq<int>)
    ensures |p| == 256
  {
    seq(256, c => if c in s then 1 else 0)
  }

  ghost predicate Binary(p: seq<int>)
  {
    |p| == 256 && forall j :: 0 <= j < 256 ==> p[j] == 0 || p[j] == 1
  }

  /** All rows are polynomials of zeros and ones. */
  ghost predicate BinaryVec(h: Vec)
  {
    forall i :: 0 <= i < |h| ==> Binary(h[i])
  }

  ghost predicate Sized(h: Vec)
  {
    forall i :: 0 <= i < |h| ==> |h[i]| == 256
  }

  /** The positions of all rows. */
  function Flat(h: Vec): (r: seq<nat>)
    requires Sized(h)
    ensures forall i :: 0 <= i < |r| ==> r[i] < 256
  {
    if h == [] then [] else Flat(h[..|h| - 1]) + Positions(h[|h| - 1], 256)
  }

  /** The number of positions up to the end of each row. */
  function Ends(h: Vec): (r: seq<nat>)
    requires Sized(h)
    ensures |r| == |h|
  {
    if h == [] then [] else Ends(h[..|h| - 1]) + [|Flat(h)|]
  }

  function Zeros(n: nat): (r: seq<uint8>)
    ensures |r| == n
  {
    seq(n, _ => 0)
  }

  /** The encoding of a hint with at most omega ones. */
  ghost function HintBytes(h: Vec, omega: nat): (r: seq<int>)
    requires Sized(h) && |Flat(h)| <= omega
    ensures |r| == omega + |h|
  {
    Flat(h) + Zeros(omega - |Flat(h)|) + Ends(h)
  }

  function Start(buf: seq<int>, omega: nat, i: nat): int
    requires omega + i <= |buf|
  {
    if i == 0 then 0 else buf[omega + i - 1]
  }

  ghost predicate RowOk(buf: seq<int>, omega: nat, i: nat)
    requires omega + i < |buf|
  {
    0 <= Start(buf, omega, i) <= buf[omega + i] <= omega && Increasing(buf[Start(buf, omega, i)..buf[omega + i]])
  }

  /** What the decoder accepts: ends in order and in range, ascending rows, zero padding. */
  ghost predicate Accepted(buf: seq<int>, k: nat, omega: nat)
    requires |buf| == omega + k
  {
    && (forall i :: 0 <= i < k ==> RowOk(buf, omega, i))
    && (forall j :: Start(buf, omega, k) <= j < omega ==> 0 <= j && buf[j] == 0)
  }

  /** The row the decoder reads. */
  ghost function DecodedRow(buf: seq<int>, omega: nat, i: nat): (p: seq<int>)
    requires omega + i < |buf| && RowOk(buf, omega, i)
    ensures |p| == 256
  {
    Row(buf[Start(buf, omega, i)..buf[omega + i]])
  }

  ghost function DecodedHint(buf: seq<int>, k: nat, omega: nat): (h: Vec)
    requires |buf| == omega + k && Accepted(buf, k, omega)
    ensures |h| == k && Sized(h)
  {
    seq(k, i requires 0 <= i < k => DecodedRow(buf, omega, i))
  }

  // ---------- One row ----------

  lemma {:induction false} PositionsAre(p: seq<int>, n: nat)
    requires n <= |p|
    ensures Increasing(Positions(p, n))
    ensures forall c :: 0 <= c < n ==> (c in Positions(p, n) <==> p[c] != 0)
  {
    if n > 0 {
      PositionsAre(p, n - 1);
    }
  }

  /** A row of zeros and ones is recovered from its positions. */
  lemma RowOfPositions(p: seq<int>)
    requires Binary(p)
    ensures Row(Positions(p, 256)) == p
  {
    PositionsAre(p, 256);
  }

  lemma {:induction false} IncreasingFrom(s: seq<int>, i: nat, j: nat)
    requires Increasing(s) && i < j < |s|
    ensures s[i] < s[j]
  {
    if i < j - 1 {
      IncreasingFrom(s, i, j - 1);
    }
  }

  /** The positions below n of the row with ones at s are the first m entries of s. */
  lemma {:induction false} PositionsOfRow(s: seq<int>, n: nat, m: nat)
    requires Increasing(s) && n <= 256 && m <= |s| && forall i :: 0 <= i < |s| ==> 0 <= s[i] < 256
    requires forall i :: 0 <= i < |s| ==> (s[i] < n <==> i < m)
    ensures Positions(Row(s), n) == s[..m]
  {
    hide Row, Positions;
    if m > 0 && s[m - 1] == n - 1 {
      forall j | 0 <= j < |s|
        ensures s[j] < n - 1 <==> j < m - 1
      {
        if j < m - 1 {
          IncreasingFrom(s, j, m - 1);
        }
      }
      PositionsOfRow(s, n - 1, m - 1);
      PositionsNext(s, n - 1);
      assert s[..m] == s[..m - 1] + [n - 1];
    } else if n == 0 {
      assert m == 0;
      NoPositions(s);
    } else {
      forall j | 0 <= j < |s|
        ensures s[j] != n - 1
      {
        if j < m - 1 {
          IncreasingFrom(s, j, m - 1);
        }
      }
      PositionsOfRow(s, n - 1, m);
      PositionsNext(s, n - 1);
    }
  }

  /** Whether position n is in the row. */
  lemma PositionsNext(s: seq<int>, n: nat)
    requires n < 256
    ensures Positions(Row(s), n + 1) == Positions(Row(s), n) + (if n in s then [n] else [])
  {
    hide Increasing;
  }

  lemma NoPositions(s: seq<int>)
    ensures Positions(Row(s), 0) == []
  {
  }

  // ---------- The codec is a bijection ----------

  lemma FlatStep(h: Vec, i: nat)
    requires Sized(h) && i < |h|
    ensures Flat(h[..i + 1]) == Flat(h[..i]) + Positions(h[i], 256)
    ensures Ends(h[..i + 1]) == Ends(h[..i]) + [|Flat(h[..i + 1])|]
  {
    assert h[..i + 1][..i] == h[..i];
  }

  /** The positions of the first rows are a prefix of all positions. */
  lemma {:induction false} FlatPrefix(h: Vec, i: nat, n: nat)
    requires Sized(h) && i <= n <= |h|
    ensures |Flat(h[..i])| <= |Flat(h[..n])| && Flat(h[..n])[..|Flat(h[..i])|] == Flat(h[..i])
    decreases n - i
  {
    if i < n {
      FlatPrefix(h, i, n - 1);
      FlatStep(h, n - 1);
      hide Flat, Positions;
      var a, b := Flat(h[..n - 1]), Flat(h[..n]);
      assert b[..|Flat(h[..i])|] == a[..|Flat(h[..i])|];
    }
  }

  lemma {:induction false} EndsAt(h: Vec, i: nat)
    requires Sized(h) && i < |h|
    ensures Ends(h)[i] == |Flat(h[..i + 1])|
    decreases |h|
  {
    var n := |h| - 1;
    assert h[..n + 1] == h;
    if i < n {
      EndsAt(h[..n], i);
      assert h[..n][..i + 1] == h[..i + 1];
    }
  }

  lemma ThreeParts(a: seq<int>, z: seq<int>, e: seq<int>, omega: nat)
    requires |a| + |z| == omega
    ensures forall i :: 0 <= i < |e| ==> (a + z + e)[omega + i] == e[i]
    ensures forall s, t :: 0 <= s <= t <= |a| ==> (a + z + e)[s..t] == a[s..t]
  {
    forall s, t | 0 <= s <= t <= |a|
      ensures (a + z + e)[s..t] == a[s..t]
    {}
  }

  /** Where row i lies among the positions of all rows. */
  lemma RowSlice(h: Vec, i: nat)
    requires Sized(h) && i < |h|
    ensures |Flat(h[..i])| <= |Flat(h[..i + 1])| <= |Flat(h)|
    ensures Flat(h)[|Flat(h[..i])|..|Flat(h[..i + 1])|] == Positions(h[i], 256)
  {
    FlatStep(h, i);
    FlatPrefix(h, i + 1, |h|);
    assert h[..|h|] == h;
    hide Flat, Positions;
    var s, e := |Flat(h[..i])|, |Flat(h[..i + 1])|;
    assert Flat(h)[..e][s..] == Flat(h)[s..e];
  }

  lemma StartIs(h: Vec, omega: nat, i: nat)
    requires Sized(h) && |Flat(h)| <= omega && i <= |h|
    ensures Start(HintBytes(h, omega), omega, i) == |Flat(h[..i])|
  {
    hide *;
    if i == 0 {
      NothingFlat(h);
      StartAt(HintBytes(h, omega), omega, 0);
    } else {
      EndsAt(h, i - 1);
      EndIs(h, omega, i - 1);
      StartAt(HintBytes(h, omega), omega, i);
    }
  }

  lemma NothingFlat(h: Vec)
    ensures |Flat(h[..0])| == 0
  {
    assert h[..0] == [];
  }

  lemma StartAt(buf: seq<int>, omega: nat, i: nat)
    requires omega + i <= |buf|
    ensures Start(buf, omega, i) == if i == 0 then 0 else buf[omega + (i - 1)]
  {}

  lemma EndIs(h: Vec, omega: nat, i: nat)
    requires Sized(h) && |Flat(h)| <= omega && i < |h| && |Ends(h)| == |h|
    ensures HintBytes(h, omega)[omega + i] == Ends(h)[i]
  {
    hide Flat, Ends, Zeros, Sized;
  }

  /** Where the encoding of h puts row i. */
  lemma EncodedRow(h: Vec, omega: nat, i: nat)
    requires Sized(h) && |Flat(h)| <= omega && i < |h|
    ensures var buf := HintBytes(h, omega);
            0 <= Start(buf, omega, i) <= buf[omega + i] <= |Flat(h)|
            && buf[Start(buf, omega, i)..buf[omega + i]] == Positions(h[i], 256)
  {
    hide Flat, Positions, Ends;
    StartIs(h, omega, i);
    StartIs(h, omega, i + 1);
    RowSlice(h, i);
    ThreeParts(Flat(h), Zeros(omega - |Flat(h)|), Ends(h), omega);
  }

  /** Decoding undoes encoding, for every hint of at most omega ones. */
  lemma DecodeOfEncode(h: Vec, omega: nat)
    requires BinaryVec(h) && |h| > 0 && |Flat(h)| <= omega
    ensures Accepted(HintBytes(h, omega), |h|, omega)
    ensures DecodedHint(HintBytes(h, omega), |h|, omega) == h
  {
    var buf, k := HintBytes(h, omega), |h|;
    hide HintBytes, Flat, Positions, Row, Increasing;
    forall i | 0 <= i < k
      ensures RowOk(buf, omega, i) && DecodedRow(buf, omega, i) == h[i]
    {
      EncodedRow(h, omega, i);
      PositionsAre(h[i], 256);
      RowOfPositions(h[i]);
    }
    PaddingIsZero(h, omega);
  }

  lemma PaddingIsZero(h: Vec, omega: nat)
    requires Sized(h) && |h| > 0 && |Flat(h)| <= omega
    ensures Start(HintBytes(h, omega), omega, |h|) == |Flat(h)|
    ensures forall j :: |Flat(h)| <= j < omega ==> HintBytes(h, omega)[j] == 0
  {
    EndsAt(h, |h| - 1);
    assert h[..|h|] == h;
    hide Flat, Ends;
  }

  lemma DecodedFlatStep(buf: seq<int>, k: nat, omega: nat, i: nat)
    requires |buf| == omega + k && Accepted(buf, k, omega) && i < k
    requires forall j :: 0 <= j < omega ==> 0 <= buf[j] < 256
    ensures 0 <= Start(buf, omega, i) <= Start(buf, omega, i + 1) <= omega
    ensures Positions(DecodedHint(buf, k, omega)[i], 256) == buf[Start(buf, omega, i)..Start(buf, omega, i + 1)]
  {
    assert RowOk(buf, omega, i);
    var s := buf[Start(buf, omega, i)..buf[omega + i]];
    PositionsOfRow(s, 256, |s|);
    hide Positions, Row, Increasing, Accepted;
    assert s[..|s|] == s;
  }

  /** The rows decoded so far have the positions read so far. */
  lemma {:induction false} DecodedFlat(buf: seq<int>, h: Vec, omega: nat, i: nat)
    requires |buf| == omega + |h| && Accepted(buf, |h|, omega) && h == DecodedHint(buf, |h|, omega) && i <= |h|
    requires forall j :: 0 <= j < omega ==> 0 <= buf[j] < 256
    ensures 0 <= Start(buf, omega, i) <= omega
    ensures Flat(h[..i]) == buf[..Start(buf, omega, i)]
    ensures Ends(h[..i]) == buf[omega..omega + i]
    decreases i
  {
    hide Flat, Ends, DecodedHint, Accepted, Positions, Row;
    if i == 0 {
      assert h[..0] == [];
      NoRows();
    } else {
      DecodedFlat(buf, h, omega, i - 1);
      FlatStep(h, i - 1);
      DecodedFlatStep(buf, |h|, omega, i - 1);
      var s, e := Start(buf, omega, i - 1), Start(buf, omega, i);
      assert buf[..s] + buf[s..e] == buf[..e];
      assert buf[omega..omega + (i - 1)] + [buf[omega + (i - 1)]] == buf[omega..omega + i];
    }
  }

  lemma NoRows()
    ensures Flat([]) == [] && Ends([]) == []
  {}

  /** Encoding undoes decoding: every accepted buffer holds at most omega ones and is their only encoding. */
  lemma EncodeOfDecode(buf: seq<int>, k: nat, omega: nat)
    requires |buf| == omega + k && k > 0 && Accepted(buf, k, omega)
    requires forall j :: 0 <= j < omega ==> 0 <= buf[j] < 256
    ensures BinaryVec(DecodedHint(buf, k, omega)) && |Flat(DecodedHint(buf, k, omega))| <= omega
    ensures HintBytes(DecodedHint(buf, k, omega), omega) == buf
  {
    hide *;
    var h := DecodedHint(buf, k, omega);
    DecodedFlat(buf, h, omega, k);
    DecodedIsBinary(buf, k, omega);
    assert h[..k] == h;
    var e := Start(buf, omega, k);
    PaddedIs(buf, e, k, omega);
    HintBytesAre(h, omega);
  }

  lemma DecodedIsBinary(buf: seq<int>, k: nat, omega: nat)
    requires |buf| == omega + k && Accepted(buf, k, omega)
    ensures BinaryVec(DecodedHint(buf, k, omega))
    ensures forall j :: 0 <= j < omega && Start(buf, omega, k) <= j ==> buf[j] == 0
  {
    var h := DecodedHint(buf, k, omega);
    forall i | 0 <= i < k
      ensures Binary(h[i])
    {
      assert h[i] == DecodedRow(buf, omega, i);
    }
  }

  lemma HintBytesAre(h: Vec, omega: nat)
    requires Sized(h) && |Flat(h)| <= omega
    ensures HintBytes(h, omega) == Flat(h) + Zeros(omega - |Flat(h)|) + Ends(h)
  {}

  lemma PaddedIs(buf: seq<int>, e: nat, k: nat, omega: nat)
    requires |buf| == omega + k && e <= omega && forall j :: e <= j < omega ==> buf[j] == 0
    ensures buf == buf[..e] + Zeros(omega - e) + buf[omega..omega + k]
  {
    assert buf[e..omega] == Zeros(omega - e);
  }

  // ---------- Packing ----------

  /** The part of the buffer from o on holds the positions and row ends written so far, zeros elsewhere. */
  ghost predicate Layout(s: seq<uint8>, was: seq<uint8>, o: nat, k: nat, omega: nat, flat: seq<int>, ends: seq<int>)
  {
    && |flat| <= omega && |ends| <= k && o + omega + k <= |was| == |s|
    && s == was[..o] + flat + Zeros(omega - |flat|) + ends + Zeros(k - |ends|) + was[o + omega + k..]
  }

  lemma PushPosition(s: seq<uint8>, was: seq<uint8>, o: nat, k: nat, omega: nat, flat: seq<int>, ends: seq<int>, x: uint8)
    requires Layout(s, was, o, k, omega, flat, ends) && |flat| < omega
    ensures Layout(s[o + |flat| := x], was, o, k, omega, flat + [x], ends)
  {
    assert Zeros(omega - |flat|) == [0] + Zeros(omega - |flat| - 1);
    Replace(was[..o] + flat, 0, Zeros(omega - |flat| - 1) + ends + Zeros(k - |ends|) + was[o + omega + k..], x);
    assert s == (was[..o] + flat) + [0] + (Zeros(omega - |flat| - 1) + ends + Zeros(k - |ends|) + was[o + omega + k..]);
  }

  lemma Replace(a: seq<int>, y: int, b: seq<int>, x: int)
    ensures (a + [y] + b)[|a| := x] == a + [x] + b
  {}

  lemma PushEnd(s: seq<uint8>, was: seq<uint8>, o: nat, k: nat, omega: nat, flat: seq<int>, ends: seq<int>, x: uint8)
    requires Layout(s, was, o, k, omega, flat, ends) && |ends| < k
    ensures Layout(s[o + omega + |ends| := x], was, o, k, omega, flat, ends + [x])
  {
    var front := was[..o] + flat + Zeros(omega - |flat|) + ends;
    assert Zeros(k - |ends|) == [0] + Zeros(k - |ends| - 1);
    Replace(front, 0, Zeros(k - |ends| - 1) + was[o + omega + k..], x);
    assert s == front + [0] + (Zeros(k - |ends| - 1) + was[o + omega + k..]);
  }

  /** The positions of row i below j are a prefix of all positions after those of earlier rows. */
  lemma PositionsFit(h: Vec, i: nat, j: nat)
    requires Sized(h) && i < |h| && j <= 256
    ensures |Flat(h[..i])| + |Positions(h[i], j)| <= |Flat(h)|
  {
    PositionsMono(h[i], j, 256);
    RowSlice(h, i);
    FlatStep(h, i);
  }

  lemma {:induction false} PositionsMono(p: seq<int>, m: nat, n: nat)
    requires m <= n <= |p|
    ensures |Positions(p, m)| <= |Positions(p, n)|
  {
    if m < n {
      PositionsMono(p, m, n - 1);
    }
  }

  lemma LayoutStart(s: seq<uint8>, was: seq<uint8>, o: nat, k: nat, omega: nat)
    requires |s| == |was| && o + omega + k <= |was| && s == was[..o] + Zeros(omega + k) + was[o + omega + k..]
    ensures Layout(s, was, o, k, omega, [], [])
  {
    assert Zeros(omega + k) == Zeros(omega) + Zeros(k);
  }

  lemma LayoutEnd(s: seq<uint8>, was: seq<uint8>, o: nat, h: Vec, omega: nat)
    requires Sized(h) && Layout(s, was, o, |h|, omega, Flat(h), Ends(h))
    ensures o + omega + |h| <= |was| == |s| && |Flat(h)| <= omega
    ensures s == was[..o] + HintBytes(h, omega) + was[o + omega + |h|..]
  {
    hide *;
    LayoutIs(s, was, o, |h|, omega, Flat(h), Ends(h));
    HintBytesAre(h, omega);
    NoZeros();
    Regroup(was[..o], Flat(h), Zeros(omega - |Flat(h)|), Ends(h), was[o + omega + |h|..]);
  }

  lemma LayoutIs(s: seq<uint8>, was: seq<uint8>, o: nat, k: nat, omega: nat, flat: seq<int>, ends: seq<int>)
    requires Layout(s, was, o, k, omega, flat, ends)
    ensures |flat| <= omega && |ends| <= k && o + omega + k <= |was| == |s|
    ensures s == was[..o] + flat + Zeros(omega - |flat|) + ends + Zeros(k - |ends|) + was[o + omega + k..]
  {}

  lemma NoZeros()
    ensures Zeros(0) == []
  {}

  lemma Regroup(a: seq<int>, b: seq<int>, c: seq<int>, d: seq<int>, e: seq<int>)
    ensures a + b + c + d + [] + e == a + (b + c + d) + e
  {}

  lemma PositionsStep(p: seq<int>, j: nat)
    requires j < |p|
    ensures Positions(p, j + 1) == Positions(p, j) + if p[j] != 0 then [j] else []
    ensures Positions(p, 0) == []
  {}

  method ZeroFill(buf: array<uint8>, o: nat, n: nat)
    requires o + n <= buf.Length
    modifies buf
    ensures buf[..] == old(buf[..o]) + Zeros(n) + old(buf[o + n..])
  {
    ghost var was := buf[..];
    var i := 0;
    while i < n
      invariant 0 <= i <= n && forall j :: o <= j < o + i ==> buf[j] == 0
      invariant forall j :: 0 <= j < buf.Length && !(o <= j < o + i) ==> buf[j] == was[j]
    {
      buf[o + i] := 0;
      i := i + 1;
    }
    assert buf[o..o + n] == Zeros(n);
    assert buf[..] == buf[..o] + buf[o..o + n] + buf[o + n..];
  }

  /** Write the positions of one row, from index idx on. */
  method PackRow(buf: array<uint8>, o: nat, p: seq<int>, idx0: nat, omega: nat,
                 ghost was: seq<uint8>, ghost k: nat, ghost flat: seq<int>, ghost ends: seq<int>) returns (idx: nat)
    requires |p| == 256 && idx0 == |flat| && |flat| + |Positions(p, 256)| <= omega
    requires Layout(buf[..], was, o, k, omega, flat, ends)
    modifies buf
    ensures idx == |flat| + |Positions(p, 256)|
    ensures Layout(buf[..], was, o, k, omega, flat + Positions(p, 256), ends)
  {
    hide *;
    PositionsStart(p);
    assert flat + [] == flat;
    idx := idx0;
    var j := 0;
    while j < 256
      invariant 0 <= j <= 256 && idx == |flat| + |Positions(p, j)|
      invariant Layout(buf[..], was, o, k, omega, flat + Positions(p, j), ends)
    {
      PositionsStep(p, j);
      PositionsMono(p, j + 1, 256);
      if p[j] != 0 {
        LayoutSize(buf[..], was, o, k, omega, flat + Positions(p, j), ends);
        PushPosition(buf[..], was, o, k, omega, flat + Positions(p, j), ends, j);
        assert flat + Positions(p, j) + [j] == flat + Positions(p, j + 1);
        buf[o + idx] := j;
        idx := idx + 1;
      } else {
        assert Positions(p, j + 1) == Positions(p, j);
      }
      j := j + 1;
    }
  }

  lemma PositionsStart(p: seq<int>)
    ensures Positions(p, 0) == []
  {}

  /** Write the hint; its weight must not exceed omega, and a bad k or omega writes nothing. */
  method PackHint(buf: array<uint8>, o: nat, h: Vec, k: int, omega: int) returns (n: nat)
    requires 0 < k <= 8 && omega > 0 ==>
               |h| == k && Sized(h) && |Flat(h)| <= omega < 0x100 && o + omega + k <= buf.Length
    modifies buf
    ensures k <= 0 || k > 8 || omega <= 0 ==> n == 0 && buf[..] == old(buf[..])
    ensures 0 < k <= 8 && omega > 0 ==>
              n == omega + k && buf[..] == old(buf[..o]) + HintBytes(h, omega) + old(buf[o + omega + k..])
  {
    hide *;
    if k <= 0 || k > 8 || omega <= 0 {
      return 0;
    }
    SizedIs(h);
    ghost var was := buf[..];
    ZeroFill(buf, o, omega + k);
    LayoutStart(buf[..], was, o, k, omega);
    NoRows();
    assert h[..0] == [];
    var idx, i := 0, 0;
    while i < k
      invariant 0 <= i <= k && idx == |Flat(h[..i])|
      invariant Layout(buf[..], was, o, k, omega, Flat(h[..i]), Ends(h[..i]))
    {
      ghost var flat, ends := Flat(h[..i]), Ends(h[..i]);
      FlatStep(h, i);
      PositionsFit(h, i, 256);
      idx := PackRow(buf, o, h[i], idx, omega, was, k, flat, ends);
      LayoutSize(buf[..], was, o, k, omega, flat + Positions(h[i], 256), ends);
      PushEnd(buf[..], was, o, k, omega, flat + Positions(h[i], 256), ends, idx);
      buf[o + omega + i] := idx;
      i := i + 1;
    }
    assert h[..k] == h;
    LayoutEnd(buf[..], was, o, h, omega);
    n := omega + k;
  }

  lemma SizedIs(h: Vec)
    requires Sized(h)
    ensures forall i :: 0 <= i < |h| ==> |h[i]| == 256
    ensures forall i :: 0 <= i <= |h| ==> Sized(h[..i])
  {}

  lemma LayoutSize(s: seq<uint8>, was: seq<uint8>, o: nat, k: nat, omega: nat, flat: seq<int>, ends: seq<int>)
    requires Layout(s, was, o, k, omega, flat, ends)
    ensures o + omega + k <= |s|
  {}

  // ---------- Unpacking ----------

  function HintRow(h: array2<int32>, i: nat): (p: seq<int>)
    requires i < h.Length0 && h.Length1 == 256
    reads h
    ensures |p| == 256 && forall j :: 0 <= j < 256 ==> p[j] == h[i, j]
  {
    seq(256, j requires 0 <= j < 256 reads h => h[i, j])
  }

  ghost predicate AllZero(h: array2<int32>)
    reads h
  {
    forall i, j :: 0 <= i < h.Length0 && 0 <= j < h.Length1 ==> h[i, j] == 0
  }

  /** Zero the whole hint. */
  method Cleanse(h: array2<int32>)
    modifies h
    ensures AllZero(h)
  {
    var i := 0;
    while i < h.Length0
      invariant 0 <= i <= h.Length0
      invariant forall r, j :: 0 <= r < i && 0 <= j < h.Length1 ==> h[r, j] == 0
    {
      var j := 0;
      while j < h.Length1
        invariant 0 <= j <= h.Length1
        invariant forall r, c :: 0 <= r < i && 0 <= c < h.Length1 ==> h[r, c] == 0
        invariant forall c :: 0 <= c < j ==> h[i, c] == 0
      {
        h[i, j] := 0;
        j := j + 1;
      }
      i := i + 1;
    }
  }

  /** Set the ones of row i from the positions in buf[prev..end], which must ascend. */
  method UnpackRow(h: array2<int32>, i: nat, buf: seq<uint8>, prev: nat, end: nat) returns (ok: bool)
    requires i < h.Length0 && h.Length1 == 256 && prev <= end <= |buf|
    requires forall c :: 0 <= c < 256 ==> h[i, c] == 0
    modifies h
    ensures ok <==> Increasing(buf[prev..end])
    ensures ok ==> HintRow(h, i) == Row(buf[prev..end])
    ensures forall r, c :: 0 <= r < h.Length0 && 0 <= c < 256 && r != i ==> h[r, c] == old(h[r, c])
  {
    ghost var s := buf[prev..end];
    var j := prev;
    while j < end
      invariant prev <= j <= end
      invariant forall n :: 0 < n < j - prev ==> s[n - 1] < s[n]
      invariant forall c :: 0 <= c < 256 ==> h[i, c] == if c in s[..j - prev] then 1 else 0
      invariant forall r, c :: 0 <= r < h.Length0 && 0 <= c < 256 && r != i ==> h[r, c] == old(h[r, c])
    {
      assert buf[j] == s[j - prev];
      if j > prev && buf[j] <= buf[j - 1] {
        assert s[j - prev - 1] == buf[j - 1];
        return false;
      }
      h[i, buf[j]] := 1;
      assert s[..j + 1 - prev] == s[..j - prev] + [buf[j]];
      j := j + 1;
    }
    assert s[..end - prev] == s;
    ok := true;
  }

  /** Zero the first k rows. */
  method ClearRows(h: array2<int32>, k: nat)
    requires k <= h.Length0 && h.Length1 == 256
    modifies h
    ensures forall r, c :: 0 <= r < k && 0 <= c < 256 ==> h[r, c] == 0
    ensures forall r, c :: k <= r < h.Length0 && 0 <= c < 256 ==> h[r, c] == old(h[r, c])
  {
    var i := 0;
    while i < k
      invariant 0 <= i <= k
      invariant forall r, c :: 0 <= r < i && 0 <= c < 256 ==> h[r, c] == 0
      invariant forall r, c :: k <= r < h.Length0 && 0 <= c < 256 ==> h[r, c] == old(h[r, c])
    {
      var j := 0;
      while j < 256
        invariant 0 <= j <= 256
        invariant forall r, c :: 0 <= r < i && 0 <= c < 256 ==> h[r, c] == 0
        invariant forall c :: 0 <= c < j ==> h[i, c] == 0
        invariant forall r, c :: k <= r < h.Length0 && 0 <= c < 256 ==> h[r, c] == old(h[r, c])
      {
        h[i, j] := 0;
        j := j + 1;
      }
      i := i + 1;
    }
  }

  /** The decoder: exactly the accepted buffers are decoded, and every rejection leaves the whole hint zero. */
  method UnpackHint(h: array2<int32>, buf: seq<uint8>, k: int, omega: int) returns (r: int)
    requires h.Length0 == 8 && h.Length1 == 256
    requires 0 < k <= 8 && omega > 0 ==> |buf| == omega + k
    modifies h
    ensures r == 0 || (r == 1 && AllZero(h))
    ensures r == 0 <==> 0 < k <= 8 && omega > 0 && Accepted(buf, k, omega)
    ensures r == 0 ==> forall i :: 0 <= i < k ==> HintRow(h, i) == DecodedHint(buf, k, omega)[i]
    ensures r == 0 ==> forall i, c :: k <= i < 8 && 0 <= c < 256 ==> h[i, c] == old(h[i, c])
  {
    if k <= 0 || k > 8 || omega <= 0 {
      Cleanse(h);
      return 1;
    }
    ClearRows(h, k);
    hide Increasing, Row;
    var prev, i := 0, 0;
    while i < k
      invariant 0 <= i <= k && prev == Start(buf, omega, i) <= omega
      invariant forall n :: 0 <= n < i ==> RowOk(buf, omega, n) && HintRow(h, n) == DecodedRow(buf, omega, n)
      invariant forall n, c :: i <= n < k && 0 <= c < 256 ==> h[n, c] == 0
      invariant forall n, c :: k <= n < 8 && 0 <= c < 256 ==> h[n, c] == old(h[n, c])
    {
      var end := buf[omega + i];
      if end < prev || end > omega {
        assert !RowOk(buf, omega, i);
        Cleanse(h);
        return 1;
      }
      label before:
      var ok := UnpackRow(h, i, buf, prev, end);
      if !ok {
        assert !RowOk(buf, omega, i);
        Cleanse(h);
        return 1;
      }
      forall n | 0 <= n < i
        ensures HintRow(h, n) == old@before(HintRow(h, n))
      {}
      prev := end;
      i := i + 1;
    }
    var j: int := prev;
    while j < omega
      invariant prev <= j <= omega
      invariant forall n :: prev <= n < j ==> buf[n] == 0
    {
      if buf[j] != 0 {
        Cleanse(h);
        return 1;
      }
      j := j + 1;
    }
    r := 0;
  }
}
