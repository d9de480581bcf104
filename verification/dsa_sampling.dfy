/** The samplers of ML-DSA: matrix entries, small polynomials, and the challenge. */
module DsaSampling {
  import opened MachineInts
  import opened BitPacking
  import opened BitStrings
  import opened DsaConstants
  import opened Rejection
  import opened ShakeStream
  import G = GcmSpec
  import K = Keccak
  import S = SpongeSpec

  ghost predicate InRange(p: seq<int>, n: nat, lo: int, hi: int) {
    n <= |p| && forall i :: 0 <= i < n ==> lo <= p[i] <= hi
  }

  lemma NothingYet(p: seq<int>, lo: int, hi: int)
    ensures InRange(p, 0, lo, hi)
  {}

  /** Store a candidate if it is accepted and there is room. */
  method Offer(p: array<int32>, ctr: nat, d: Candidate, ghost c: Candidates, ghost n: nat, ghost lo: int, ghost hi: int)
    returns (next: nat)
    requires p.Length == 256 && c(n) == d && (d.Accept? ==> -0x8000_0000 <= lo <= d.value <= hi < 0x8000_0000)
    requires ctr <= 256 && Filled(p[..], ctr, Selected(c, n)) && InRange(p[..], ctr, lo, hi)
    modifies p
    ensures next <= 256 && Filled(p[..], next, Selected(c, n + 1)) && InRange(p[..], next, lo, hi)
  {
    hide Selected, Filled;
    ghost var before := p[..];
    next := ctr;
    if d.Accept? && next < 256 {
      p[next] := d.value;
      next := next + 1;
    }
    FilledStep(before, p[..], ctr, next, c, n);
  }

  /** The seed followed by the two bytes of the nonce. */
  function Extended(seed: seq<S.Byte>, nonce: uint16): seq<S.Byte> {
    seed + [G.ToByte(nonce % 0x100), G.ToByte(nonce / 0x100)]
  }

  lemma Rates()
    ensures K.SHAKE128_RATE == 168 && K.Usable(K.SHAKE128_RATE) && K.SHAKE256_RATE == 136 && K.Usable(K.SHAKE256_RATE)
  {}

  // ---------- Matrix entries ----------

  /** The stream a matrix entry is sampled from. */
  function EntryStream(f: S.Permutation, seed: seq<S.Byte>, nonce: uint16): ByteStream {
    StreamOf(f, K.SHAKE128_RATE, Extended(seed, nonce))
  }

  lemma EntryStreamIs(f: S.Permutation, seed: seq<S.Byte>, nonce: uint16)
    ensures K.Usable(K.SHAKE128_RATE) && EntryStream(f, seed, nonce) == StreamOf(f, K.SHAKE128_RATE, Extended(seed, nonce))
  {
    hide StreamOf, Extended;
  }

  /** A 23-bit number, kept if it is below q. */
  function Below(t: int): Candidate {
    if t < Q then Accept(t) else Reject
  }

  /** Three bytes without the top bit. */
  function Three(b0: uint8, b1: uint8, b2: uint8): (r: int)
    ensures 0 <= r < 0x80_0000
  {
    b0 + 0x100 * b1 + 0x1_0000 * (b2 % 128)
  }

  function UniformAt(bytes: ByteStream, n: nat): Candidate {
    Below(Three(bytes(3 * n), bytes(3 * n + 1), bytes(3 * n + 2)))
  }

  function Uniform(bytes: ByteStream): Candidates {
    (n: nat) => UniformAt(bytes, n)
  }

  /** Candidate n is the number in bits 24 n up to 24 n + 22 of the stream, kept if it is below q. */
  lemma UniformMeans(bytes: ByteStream, n: nat, t: nat)
    requires ReadsBits(bytes, 24 * n, 23, t)
    ensures Uniform(bytes)(n) == if t < 8380417 then Accept(t) else Reject
  {
    hide *;
    var b0: nat, b1: nat, b2: nat := bytes(3 * n), bytes(3 * n + 1), bytes(3 * n + 2);
    ThreeReads(bytes, n, b0, b1, b2);
    ReadsOne(bytes, 24 * n, 23, t, b0 + 0x100 * b1 + 0x1_0000 * (b2 % 128));
    UniformIs(bytes, n, b0, b1, b2);
  }

  lemma ThreeReads(bytes: ByteStream, n: nat, b0: nat, b1: nat, b2: nat)
    requires b0 == bytes(3 * n) && b1 == bytes(3 * n + 1) && b2 == bytes(3 * n + 2)
    ensures ReadsBits(bytes, 24 * n, 23, b0 + 0x100 * b1 + 0x1_0000 * (b2 % 128))
  {
    hide *;
    ByteReads(bytes, 3 * n);
    ByteReads(bytes, 3 * n + 1);
    SevenRead(bytes, 3 * n + 2);
    ShiftsAre();
    ReadsMore(bytes, 24 * n, 8, b0, 8, b1);
    ReadsMore(bytes, 24 * n, 16, b0 + 0x100 * b1, 7, b2 % 128);
  }

  lemma ShiftsAre()
    ensures Pow(2, 0) == 1 && Pow(2, 7) == 128 && Pow(2, 8) == 0x100 && Pow(2, 16) == 0x1_0000
  {
    Powers();
  }

  /** A byte is eight bits of the stream. */
  lemma ByteReads(bytes: ByteStream, at: nat)
    ensures ReadsBits(bytes, 8 * at, 8, bytes(at))
  {
    hide *;
    ShiftsAre();
    ReadsLow(bytes, 8 * at, at, 0, 8);
    WholeByte(bytes(at));
  }

  lemma WholeByte(x: uint8)
    ensures x / 1 % 0x100 == x
  {}

  lemma SevenRead(bytes: ByteStream, at: nat)
    ensures ReadsBits(bytes, 8 * at, 7, bytes(at) % 128)
  {
    hide *;
    ShiftsAre();
    ReadsLow(bytes, 8 * at, at, 0, 7);
  }

  lemma UniformIs(bytes: ByteStream, n: nat, b0: uint8, b1: uint8, b2: uint8)
    requires b0 == bytes(3 * n) && b1 == bytes(3 * n + 1) && b2 == bytes(3 * n + 2)
    ensures var t := b0 + 0x100 * b1 + 0x1_0000 * (b2 % 128);
            t >= 0 && Uniform(bytes)(n) == if t < 8380417 then Accept(t) else Reject
  {}

  lemma UniformInBuffer(bytes: ByteStream, buf: seq<uint8>, base: nat, pos: nat, n: nat)
    requires Buffered(bytes, buf, base) && pos + 3 <= |buf| && base + pos == 3 * n
    ensures Uniform(bytes)(n) == Below(Three(buf[pos], buf[pos + 1], buf[pos + 2]))
  {
    hide Three, Below;
  }

  lemma BelowRange(t: int)
    requires 0 <= t
    ensures Below(t).Accept? ==> 0 <= Below(t).value <= Q - 1
  {}

  /**
   The first 256 numbers below q among the 23-bit numbers of the stream. The loop ends with the 256th: groups counts the
   three-byte groups, squeezed the bytes taken from the hash, less than two blocks more.
   */
  method PolyUniform(f: S.Permutation, p: array<int32>, seed: seq<S.Byte>, nonce: uint16, ghost limit: nat)
    returns (ghost groups: nat, ghost squeezed: nat)
    requires p.Length == 256 && |Selected(Uniform(EntryStream(f, seed, nonce)), limit)| >= 256
    modifies p
    ensures p[..] == First256(Uniform(EntryStream(f, seed, nonce)), limit) && InRange(p[..], 256, 0, Q - 1)
    ensures groups > 0 && |Selected(Uniform(EntryStream(f, seed, nonce)), groups - 1)| < 256
    ensures |Selected(Uniform(EntryStream(f, seed, nonce)), groups)| >= 256
    ensures 3 * groups <= squeezed < 3 * groups + 336
  {
    hide *;
    QIs();
    Rates();
    EntryStreamIs(f, seed, nonce);
    var state := new Xof(f, K.SHAKE128_RATE, Extended(seed, nonce));
    ghost var bytes := EntryStream(f, seed, nonce);
    ghost var c := Uniform(bytes);
    var buf := new uint8[336];
    var ctr: nat, pos: nat := 0, 0;
    ghost var base: nat := 0;
    groups := 0;
    state.Squeeze(buf);
    FilledStart(p[..], c);
    NothingYet(p[..], 0, Q - 1);
    while ctr < 256
      invariant ctr <= 256 && pos <= 336 && pos % 3 == 0 && base + pos == 3 * groups
      invariant state.Valid() && state.bytes == bytes && state.position == base + 336 && Buffered(bytes, buf[..], base)
      invariant Filled(p[..], ctr, Selected(c, groups)) && InRange(p[..], ctr, 0, Q - 1)
      invariant if groups == 0 then ctr == 0 else pos > 0 && |Selected(c, groups - 1)| < 256
      decreases if ctr < 256 then limit - groups else -1
    {
      ghost var before := groups;
      NotYet(p[..], ctr, c, groups, limit);
      pos, base := state.Refill(buf, pos, 3, base);
      UniformInBuffer(bytes, buf[..], base, pos, groups);
      var t := Three(buf[pos], buf[pos + 1], buf[pos + 2]);
      pos := pos + 3;
      BelowRange(t);
      ctr := Offer(p, ctr, Below(t), c, groups, 0, Q - 1);
      groups := groups + 1;
      assert groups - 1 == before;
    }
    FilledEnd(p[..], c, groups, limit);
    squeezed := state.position;
  }

  // ---------- Small polynomials ----------

  /** A four-bit number as the code turns it into a coefficient, subtracting without a sign and then casting. */
  function Nibble(eta: int, d: nat): Candidate
    requires d < 16
  {
    if eta == 2 then
      if d < 15 then Accept(ToInt32((2 - (d - 5 * (d / 5))) % 0x1_0000_0000)) else Reject
    else
      if d < 9 then Accept(ToInt32((4 - d) % 0x1_0000_0000)) else Reject
  }

  /** Candidate n of the stream: the low half of every byte, then the high half. */
  function EtaAt(bytes: ByteStream, eta: int, n: nat): Candidate {
    var b := bytes(n / 2);
    Nibble(eta, if n % 2 == 0 then b % 16 else b / 16)
  }

  function SmallValues(bytes: ByteStream, eta: int): Candidates {
    (n: nat) => EtaAt(bytes, eta, n)
  }

  /** The accepted numbers are uniform on [-eta, eta]: three preimages of each for eta 2, one for eta 4. */
  lemma NibbleMeaning(eta: int, d: nat)
    requires (eta == 2 || eta == 4) && d < 16
    ensures Nibble(eta, d).Accept? <==> d < (if eta == 2 then 15 else 9)
    ensures Nibble(eta, d).Accept? ==>
              Nibble(eta, d).value == (if eta == 2 then 2 - d % 5 else 4 - d) && -eta <= Nibble(eta, d).value <= eta
  {
    CastSmall(2 - (d - 5 * (d / 5)));
    CastSmall(4 - d);
    hide ToInt32;
  }

  /**
   Candidate n is the number d in bits 4 n up to 4 n + 3 of the stream: 2 - d mod 5 of 15 numbers for eta 2, 4 - d of
   nine for eta 4.
   */
  lemma SmallMeans(bytes: ByteStream, eta: int, n: nat, d: nat)
    requires (eta == 2 || eta == 4) && ReadsBits(bytes, 4 * n, 4, d)
    ensures SmallValues(bytes, eta)(n) ==
            if eta == 2 then if d < 15 then Accept(2 - d % 5) else Reject else if d < 9 then Accept(4 - d) else Reject
  {
    hide *;
    var half: nat := if n % 2 == 0 then bytes(n / 2) % 16 else bytes(n / 2) / 16;
    HalfReads(bytes, n, half);
    ReadsOne(bytes, 4 * n, 4, d, half);
    SmallIs(bytes, eta, n, half);
    NibbleMeaning(eta, half);
    NibbleCases(eta, half);
  }

  lemma HalfReads(bytes: ByteStream, n: nat, half: nat)
    requires half == if n % 2 == 0 then bytes(n / 2) % 16 else bytes(n / 2) / 16
    ensures ReadsBits(bytes, 4 * n, 4, half)
  {
    hide *;
    var at, from := n / 2, if n % 2 == 0 then 0 else 4;
    SixteenIs();
    ReadsLow(bytes, 4 * n, at, from, 4);
    HalfOf(bytes(at));
  }

  lemma SixteenIs()
    ensures Pow(2, 0) == 1 && Pow(2, 4) == 16
  {}

  lemma HalfOf(x: uint8)
    ensures x / 1 % 16 == x % 16 && x / 16 % 16 == x / 16
  {}

  lemma SmallIs(bytes: ByteStream, eta: int, n: nat, half: nat)
    requires half == if n % 2 == 0 then bytes(n / 2) % 16 else bytes(n / 2) / 16
    ensures half < 16 && SmallValues(bytes, eta)(n) == Nibble(eta, half)
  {
    hide Nibble;
  }

  lemma NibbleCases(eta: int, d: nat)
    requires d < 16
    ensures Nibble(eta, d).Accept? || Nibble(eta, d) == Reject
  {
    hide ToInt32;
  }

  lemma CastSmall(v: int)
    ensures -16 <= v < 16 ==> ToInt32(v % 0x1_0000_0000) == v
  {}

  lemma EtaInBuffer(bytes: ByteStream, buf: seq<uint8>, base: nat, pos: nat, g: nat, eta: int)
    requires Buffered(bytes, buf, base) && pos < |buf| && base + pos == g
    ensures SmallValues(bytes, eta)(2 * g) == Nibble(eta, buf[pos] % 16)
    ensures SmallValues(bytes, eta)(2 * g + 1) == Nibble(eta, buf[pos] / 16)
  {
    hide Nibble;
    assert 2 * g / 2 == g && (2 * g + 1) / 2 == g;
    assert buf[pos] == bytes(g);
  }

  /** The two halves of a byte. */
  method OfferHalves(p: array<int32>, ctr: nat, t: uint8, eta: int, ghost c: Candidates, ghost g: nat) returns (next: nat)
    requires p.Length == 256 && (eta == 2 || eta == 4) && c(2 * g) == Nibble(eta, t % 16) && c(2 * g + 1) == Nibble(eta, t / 16)
    requires ctr <= 256 && Filled(p[..], ctr, Selected(c, 2 * g)) && InRange(p[..], ctr, -eta, eta)
    modifies p
    ensures next <= 256 && Filled(p[..], next, Selected(c, 2 * (g + 1))) && InRange(p[..], next, -eta, eta)
  {
    hide *;
    var d1, d2 := t % 16, t / 16;
    NibbleMeaning(eta, d1);
    NibbleMeaning(eta, d2);
    next := Offer(p, ctr, Nibble(eta, d1), c, 2 * g, -eta, eta);
    next := Offer(p, next, Nibble(eta, d2), c, 2 * g + 1, -eta, eta);
    assert 2 * g + 1 + 1 == 2 * (g + 1);
  }

  /** The stream a small polynomial is sampled from. */
  function SmallStream(f: S.Permutation, seed: seq<S.Byte>, nonce: uint16): ByteStream {
    StreamOf(f, K.SHAKE256_RATE, Extended(seed, nonce))
  }

  lemma SmallStreamIs(f: S.Permutation, seed: seq<S.Byte>, nonce: uint16)
    ensures K.Usable(K.SHAKE256_RATE) && SmallStream(f, seed, nonce) == StreamOf(f, K.SHAKE256_RATE, Extended(seed, nonce))
  {
    hide StreamOf, Extended;
  }

  /**
   Both streams are outputs of the sponge for the seed and the two bytes of the nonce, low byte first: SHAKE128 for the
   matrix, SHAKE256 for the secrets.
   */
  lemma StreamsMean(f: S.Permutation, seed: seq<S.Byte>, nonce: uint16, lo: S.Byte, hi: S.Byte, n: nat, i: nat)
    requires nonce == G.ToNat(lo) + 256 * G.ToNat(hi) && i < n
    ensures |S.Sponge(f, 168, seed + [lo, hi], 0x1F, n)| == |S.Sponge(f, 136, seed + [lo, hi], 0x1F, n)| == n
    ensures EntryStream(f, seed, nonce)(i) == G.ToNat(S.Sponge(f, 168, seed + [lo, hi], 0x1F, n)[i])
    ensures SmallStream(f, seed, nonce)(i) == G.ToNat(S.Sponge(f, 136, seed + [lo, hi], 0x1F, n)[i])
  {
    hide *;
    NonceBytes(seed, nonce, lo, hi);
    Rates();
    EntryStreamIs(f, seed, nonce);
    SmallStreamIs(f, seed, nonce);
    StreamIsSponge(f, 168, seed + [lo, hi], n, i);
    StreamIsSponge(f, 136, seed + [lo, hi], n, i);
  }

  lemma NonceBytes(seed: seq<S.Byte>, nonce: uint16, lo: S.Byte, hi: S.Byte)
    requires nonce == G.ToNat(lo) + 256 * G.ToNat(hi)
    ensures Extended(seed, nonce) == seed + [lo, hi]
  {
    hide G.ToNat, G.ToByte;
    assert nonce % 0x100 == G.ToNat(lo) && nonce / 0x100 == G.ToNat(hi);
    G.NumberAndBack(lo);
    G.NumberAndBack(hi);
  }

  /**
   The first 256 accepted half bytes of the stream, mapped to [-eta, eta]; any other eta, or a seed of more than 64 bytes,
   changes nothing. The loop ends with the byte that holds the 256th.
   */
  method PolyUniformEta(f: S.Permutation, p: array<int32>, seed: seq<S.Byte>, nonce: uint16, eta: int, ghost limit: nat)
    returns (ghost count: nat, ghost squeezed: nat)
    requires p.Length == 256
    requires |seed| <= 64 && (eta == 2 || eta == 4) ==> |Selected(SmallValues(SmallStream(f, seed, nonce), eta), limit)| >= 256
    modifies p
    ensures |seed| <= 64 && (eta == 2 || eta == 4) ==>
              && p[..] == First256(SmallValues(SmallStream(f, seed, nonce), eta), limit) && InRange(p[..], 256, -eta, eta)
              && count > 0 && |Selected(SmallValues(SmallStream(f, seed, nonce), eta), 2 * (count - 1))| < 256
              && |Selected(SmallValues(SmallStream(f, seed, nonce), eta), 2 * count)| >= 256
              && count <= squeezed < count + 272
    ensures |seed| > 64 || (eta != 2 && eta != 4) ==> p[..] == old(p[..])
  {
    hide *;
    count, squeezed := 0, 0;
    if |seed| > 64 || (eta != 2 && eta != 4) {
      return;
    }
    Rates();
    SmallStreamIs(f, seed, nonce);
    var state := new Xof(f, K.SHAKE256_RATE, Extended(seed, nonce));
    ghost var bytes := SmallStream(f, seed, nonce);
    ghost var c := SmallValues(bytes, eta);
    var buf := new uint8[272];
    var ctr: nat, pos: nat := 0, 0;
    ghost var base: nat := 0;
    state.Squeeze(buf);
    FilledStart(p[..], c);
    NothingYet(p[..], -eta, eta);
    while ctr < 256
      invariant ctr <= 256 && pos <= 272 && base + pos == count
      invariant state.Valid() && state.bytes == bytes && state.position == base + 272 && Buffered(bytes, buf[..], base)
      invariant Filled(p[..], ctr, Selected(c, 2 * count)) && InRange(p[..], ctr, -eta, eta)
      invariant if count == 0 then ctr == 0 else pos > 0 && |Selected(c, 2 * (count - 1))| < 256
      decreases if ctr < 256 then limit - 2 * count else -1
    {
      ghost var before := 2 * count;
      NotYet(p[..], ctr, c, 2 * count, limit);
      pos, base := state.Refill(buf, pos, 1, base);
      EtaInBuffer(bytes, buf[..], base, pos, count, eta);
      ctr := OfferHalves(p, ctr, buf[pos], eta, c, count);
      pos := pos + 1;
      count := count + 1;
      assert 2 * (count - 1) == before;
    }
    FilledEnd(p[..], c, 2 * count, limit);
    squeezed := state.position;
  }

  // ---------- The challenge ----------

  /** The first position from pos on whose byte is at most i. */
  ghost predicate Found(bytes: ByteStream, pos: nat, i: nat, limit: nat) {
    exists k :: pos <= k < limit && bytes(k) <= i
  }

  function Find(bytes: ByteStream, pos: nat, i: nat, limit: nat): (r: nat)
    requires Found(bytes, pos, i, limit)
    ensures pos <= r < limit && bytes(r) <= i && forall k :: pos <= k < r ==> bytes(k) > i
    decreases limit - pos
  {
    if bytes(pos) <= i then pos else Find(bytes, pos + 1, i, limit)
  }

  /** The stream serves all steps from i on within its first limit bytes. */
  ghost predicate Enough(bytes: ByteStream, pos: nat, i: nat, limit: nat)
    decreases 256 - i
  {
    i >= 256 || (Found(bytes, pos, i, limit) && Enough(bytes, Find(bytes, pos, i, limit) + 1, i + 1, limit))
  }

  function Sign(signs: nat): int {
    1 - 2 * (signs % 2)
  }

  /** Move entry j to i and put a sign at j. */
  function Placed(c: seq<int>, i: nat, j: nat, sign: int): (r: seq<int>)
    requires i < |c| && j < |c|
    ensures |r| == |c|
  {
    c[i := c[j]][j := sign]
  }

  /** SampleInBall of FIPS 204 from step i on, reading the stream byte by byte. */
  function Ball(bytes: ByteStream, pos: nat, signs: nat, i: nat, c: seq<int>, limit: nat): (r: seq<int>)
    requires |c| == 256 && i <= 256 && Enough(bytes, pos, i, limit)
    ensures |r| == 256
    decreases 256 - i
  {
    if i == 256 then c
    else
      var k := Find(bytes, pos, i, limit);
      Ball(bytes, k + 1, signs / 2, i + 1, Placed(c, i, bytes(k), Sign(signs)), limit)
  }

  /** The sign bits: the first eight bytes of the stream as a 64-bit number. */
  function Signs(bytes: ByteStream): nat {
    LittleEndian(bytes, 8)
  }

  function NoCoefficients(): (r: seq<int>)
    ensures |r| == 256
  {
    seq(256, _ => 0)
  }

  /** The challenge with tau non-zero entries that the stream determines. */
  function SampleInBall(bytes: ByteStream, tau: nat, limit: nat): (r: seq<int>)
    requires tau <= 256 && Enough(bytes, 8, 256 - tau, limit)
    ensures |r| == 256
  {
    Ball(bytes, 8, Signs(bytes), 256 - tau, NoCoefficients(), limit)
  }

  /** The number of non-zero entries. */
  function Weight(c: seq<int>): (r: nat)
    ensures r <= |c|
  {
    if c == [] then 0 else Weight(c[..|c| - 1]) + if c[|c| - 1] == 0 then 0 else 1
  }

  lemma {:induction false} WeightUpdate(c: seq<int>, k: nat, v: int)
    requires k < |c|
    ensures Weight(c[k := v]) == Weight(c) - (if c[k] == 0 then 0 else 1) + (if v == 0 then 0 else 1)
  {
    var n := |c| - 1;
    if k == n {
      assert c[k := v][..n] == c[..n];
    } else {
      assert c[k := v][..n] == c[..n][k := v];
      WeightUpdate(c[..n], k, v);
    }
  }

  /** Entries in {-1, 0, 1}, those from i on zero. */
  ghost predicate TernaryUpTo(c: seq<int>, i: nat) {
    |c| == 256 && (forall k :: 0 <= k < 256 ==> -1 <= c[k] <= 1) && forall k :: i <= k < 256 ==> c[k] == 0
  }

  lemma PlacedWeight(c: seq<int>, i: nat, j: nat, signs: nat)
    requires TernaryUpTo(c, i) && j <= i < 256
    ensures TernaryUpTo(Placed(c, i, j, Sign(signs)), i + 1)
    ensures Weight(Placed(c, i, j, Sign(signs))) == Weight(c) + 1
  {
    hide Weight;
    WeightUpdate(c, i, c[j]);
    WeightUpdate(c[i := c[j]], j, Sign(signs));
  }

  /** Every step adds one non-zero entry, whatever the stream. */
  lemma {:induction false} BallWeight(bytes: ByteStream, pos: nat, signs: nat, i: nat, c: seq<int>, limit: nat)
    requires |c| == 256 && TernaryUpTo(c, i) && i <= 256 && Enough(bytes, pos, i, limit)
    ensures TernaryUpTo(Ball(bytes, pos, signs, i, c, limit), 256)
    ensures Weight(Ball(bytes, pos, signs, i, c, limit)) == Weight(c) + 256 - i
    decreases 256 - i
  {
    hide Weight, Placed, Sign, TernaryUpTo;
    if i < 256 {
      var k := Find(bytes, pos, i, limit);
      PlacedWeight(c, i, bytes(k), signs);
      BallWeight(bytes, k + 1, signs / 2, i + 1, Placed(c, i, bytes(k), Sign(signs)), limit);
    }
  }

  function LittleEndian(bytes: ByteStream, n: nat): nat {
    if n == 0 then 0 else LittleEndian(bytes, n - 1) + bytes(n - 1) * Pow256(n - 1)
  }

  function Pow256(n: nat): nat {
    if n == 0 then 1 else 256 * Pow256(n - 1)
  }

  lemma {:induction false} ZeroWeight(c: seq<int>)
    requires forall k :: 0 <= k < |c| ==> c[k] == 0
    ensures Weight(c) == 0
  {
    if c != [] {
      ZeroWeight(c[..|c| - 1]);
    }
  }

  /** The next byte of the buffered stream that is at most i, by refilling whenever the buffer is used up. */
  method NextIndex(state: Xof, buf: array<uint8>, start: nat, i: nat, ghost base: nat, ghost limit: nat)
    returns (pos: nat, j: uint8, ghost newBase: nat)
    requires state.Valid() && (buf as object) != (state.ctx.state as object)
    requires buf.Length == 136 && start <= 136 && state.position == base + 136 && Buffered(state.bytes, buf[..], base)
    requires Found(state.bytes, base + start, i, limit)
    modifies state, state.ctx, state.ctx.state, buf
    ensures state.Valid() && pos <= 136 && state.position == newBase + 136 && Buffered(state.bytes, buf[..], newBase)
    ensures newBase + pos == Find(state.bytes, base + start, i, limit) + 1 && j == state.bytes(newBase + pos - 1) <= i
  {
    hide *;
    pos, newBase := start, base;
    ghost var target := Find(state.bytes, base + start, i, limit);
    while true
      invariant state.Valid() && pos <= 136 && state.position == newBase + 136 && Buffered(state.bytes, buf[..], newBase)
      invariant base + start <= newBase + pos <= target
      decreases target - (newBase + pos)
    {
      pos, newBase := state.Refill(buf, pos, 1, newBase);
      ByteInBuffer(state.bytes, buf[..], newBase, pos);
      j := buf[pos];
      pos := pos + 1;
      if j <= i {
        return;
      }
    }
  }

  lemma ByteInBuffer(bytes: ByteStream, buf: seq<uint8>, base: nat, pos: nat)
    requires Buffered(bytes, buf, base) && pos < |buf|
    ensures buf[pos] == bytes(base + pos)
  {}

  method ReadSigns(buf: array<uint8>, ghost bytes: ByteStream) returns (signs: nat)
    requires buf.Length == 136 && Buffered(bytes, buf[..], 0)
    ensures signs == Signs(bytes)
  {
    hide Buffered, LittleEndian, Pow256;
    signs := 0;
    var i: nat, p: nat := 0, 1;
    LittleEndianStep(bytes, 0);
    while i < 8
      invariant 0 <= i <= 8 && p == Pow256(i)
      invariant signs == LittleEndian(bytes, i)
    {
      ByteInBuffer(bytes, buf[..], 0, i);
      LittleEndianStep(bytes, i);
      signs := signs + (buf[i] as int) * p;
      p := 256 * p;
      i := i + 1;
    }
  }

  lemma LittleEndianStep(bytes: ByteStream, i: nat)
    ensures LittleEndian(bytes, 0) == 0 && Pow256(0) == 1
    ensures LittleEndian(bytes, i + 1) == LittleEndian(bytes, i) + bytes(i) * Pow256(i) && Pow256(i + 1) == 256 * Pow256(i)
  {}

  /** The stream of a challenge seed. */
  function ChallengeStream(f: S.Permutation, seed: seq<S.Byte>): ByteStream {
    StreamOf(f, K.SHAKE256_RATE, seed)
  }

  lemma ChallengeStreamIs(f: S.Permutation, seed: seq<S.Byte>)
    ensures K.Usable(K.SHAKE256_RATE) && ChallengeStream(f, seed) == StreamOf(f, K.SHAKE256_RATE, seed)
  {
    hide StreamOf;
  }

  /** The challenge is read from SHAKE256 of the seed alone. */
  lemma ChallengeStreamMeans(f: S.Permutation, seed: seq<S.Byte>, n: nat, i: nat)
    requires i < n
    ensures |S.Sponge(f, 136, seed, 0x1F, n)| == n && ChallengeStream(f, seed)(i) == G.ToNat(S.Sponge(f, 136, seed, 0x1F, n)[i])
  {
    hide *;
    Rates();
    ChallengeStreamIs(f, seed);
    StreamIsSponge(f, 136, seed, n, i);
  }

  /**
   Exactly tau entries become 1 or -1, the others 0; the buffered reads are those of SampleInBall on the stream. An empty
   seed or a tau outside 1..64 changes nothing.
   */
  method PolyChallenge(f: S.Permutation, c: array<int32>, seed: seq<S.Byte>, tau: nat, ghost limit: nat)
    requires c.Length == 256
    requires |seed| > 0 && 0 < tau <= 64 ==> Enough(ChallengeStream(f, seed), 8, 256 - tau, limit)
    modifies c
    ensures |seed| > 0 && 0 < tau <= 64 ==> c[..] == SampleInBall(ChallengeStream(f, seed), tau, limit)
    ensures |seed| > 0 && 0 < tau <= 64 ==> Weight(c[..]) == tau && forall k :: 0 <= k < 256 ==> -1 <= c[k] <= 1
    ensures |seed| == 0 || tau == 0 || tau > 64 ==> c[..] == old(c[..])
  {
    hide *;
    if |seed| == 0 || tau == 0 || tau > 64 {
      return;
    }
    Rates();
    ChallengeStreamIs(f, seed);
    var state := new Xof(f, K.SHAKE256_RATE, seed);
    ghost var bytes := ChallengeStream(f, seed);
    var buf := new uint8[136];
    state.Squeeze(buf);
    var signs := ReadSigns(buf, bytes);
    Clear(c);
    Scatter(state, buf, c, signs, tau, bytes, limit);
    SampleInBallIs(bytes, tau, limit);
  }

  /** The limit only says how far the stream is looked at. */
  lemma {:induction false} BallUnique(bytes: ByteStream, pos: nat, signs: nat, i: nat, c: seq<int>, m: nat, n: nat)
    requires |c| == 256 && i <= 256 && Enough(bytes, pos, i, m) && Enough(bytes, pos, i, n)
    ensures Ball(bytes, pos, signs, i, c, m) == Ball(bytes, pos, signs, i, c, n)
    decreases 256 - i
  {
    hide *;
    if i == 256 {
      BallEnd(bytes, pos, signs, c, m);
      BallEnd(bytes, pos, signs, c, n);
    } else {
      BallStep(bytes, pos, signs, i, c, m);
      BallStep(bytes, pos, signs, i, c, n);
      FindUnique(bytes, pos, i, m, n);
      var k := Find(bytes, pos, i, m);
      BallUnique(bytes, k + 1, signs / 2, i + 1, Placed(c, i, bytes(k), Sign(signs)), m, n);
    }
  }

  lemma FindUnique(bytes: ByteStream, pos: nat, i: nat, m: nat, n: nat)
    requires Found(bytes, pos, i, m) && Found(bytes, pos, i, n)
    ensures Find(bytes, pos, i, m) == Find(bytes, pos, i, n)
  {}

  // ---------- The challenge as the standard has it ----------

  /** Algorithm 29 of FIPS 204: where step t of the challenge stops reading, behind the next byte that is at most i. */
  ghost function PosAfter(bytes: ByteStream, tau: nat, t: nat, limit: nat): nat
    requires t <= tau <= 64
  {
    if t == 0 then 8 else
      var pos, i := PosAfter(bytes, tau, t - 1, limit), 256 - tau + t - 1;
      if Found(bytes, pos, i, limit) then Find(bytes, pos, i, limit) + 1 else pos
  }

  /** The polynomial after t steps. Step t exchanges entry i with the one it has read, with the sign of bit t of the stream. */
  ghost function PolyAfter(bytes: ByteStream, tau: nat, t: nat, limit: nat): (c: seq<int>)
    requires t <= tau <= 64
    ensures |c| == 256
  {
    if t == 0 then NoCoefficients() else
      var end, i := PosAfter(bytes, tau, t, limit), 256 - tau + t - 1;
      var j := if end > 0 && bytes(end - 1) <= i then bytes(end - 1) else i;
      Exchanged(PolyAfter(bytes, tau, t - 1, limit), i, j, StreamBit(bytes, t - 1))
  }

  /** Entry j moves to i and is replaced by a sign, minus for bit 1. */
  function Exchanged(c: seq<int>, i: nat, j: nat, bit: nat): (r: seq<int>)
    requires j <= i < |c|
    ensures |r| == |c|
  {
    c[i := c[j]][j := if bit == 0 then 1 else -1]
  }

  /** Tau exchanges, one after the other, give the same polynomial. */
  lemma SampleInBallSteps(bytes: ByteStream, tau: nat, limit: nat)
    requires tau <= 64 && Enough(bytes, 8, 256 - tau, limit)
    ensures SampleInBall(bytes, tau, limit) == PolyAfter(bytes, tau, tau, limit)
  {
    hide *;
    var pos, c := BallAfter(bytes, tau, tau, limit);
    BallEnd(bytes, pos, Shifted(Signs(bytes), tau), c, limit);
  }

  function Shifted(x: nat, t: nat): nat {
    if t == 0 then x else Shifted(x, t - 1) / 2
  }

  lemma {:induction false} ShiftedBit(x: nat, t: nat, b: nat)
    ensures NumberBit(Shifted(x, t), b) == NumberBit(x, t + b)
  {
    if t > 0 {
      ShiftedBit(x, t - 1, b + 1);
      BitSteps(Shifted(x, t - 1), b + 1);
    }
  }

  /** From step t on, the recursion goes on with what the steps so far have left. */
  lemma {:induction false} BallAfter(bytes: ByteStream, tau: nat, t: nat, limit: nat) returns (pos: nat, c: seq<int>)
    requires t <= tau <= 64 && Enough(bytes, 8, 256 - tau, limit)
    ensures pos == PosAfter(bytes, tau, t, limit) && c == PolyAfter(bytes, tau, t, limit) && Enough(bytes, pos, 256 - tau + t, limit)
    ensures SampleInBall(bytes, tau, limit) == Ball(bytes, pos, Shifted(Signs(bytes), t), 256 - tau + t, c, limit)
  {
    hide *;
    if t == 0 {
      pos, c := 8, NoCoefficients();
      StartOfSteps(bytes, tau, limit);
      NotShifted(Signs(bytes));
      SampleInBallIs(bytes, tau, limit);
    } else {
      var at, b := BallAfter(bytes, tau, t - 1, limit);
      var i, signs := 256 - tau + t - 1, Shifted(Signs(bytes), t - 1);
      BallStep(bytes, at, signs, i, b, limit);
      SignBit(bytes, t - 1);
      ShiftedNext(Signs(bytes), t);
      OneStep(bytes, tau, t, limit, at, b, signs);
      var k := Find(bytes, at, i, limit);
      pos, c := k + 1, Placed(b, i, bytes(k), Sign(signs));
    }
  }

  lemma StartOfSteps(bytes: ByteStream, tau: nat, limit: nat)
    requires tau <= 64 && Enough(bytes, 8, 256 - tau, limit)
    ensures PosAfter(bytes, tau, 0, limit) == 8 && PolyAfter(bytes, tau, 0, limit) == NoCoefficients()
  {
    hide Enough;
  }

  lemma NotShifted(x: nat)
    ensures Shifted(x, 0) == x
  {}

  lemma ShiftedNext(x: nat, t: nat)
    requires t > 0
    ensures Shifted(x, t) == Shifted(x, t - 1) / 2
  {}

  lemma OneStep(bytes: ByteStream, tau: nat, t: nat, limit: nat, pos: nat, c: seq<int>, signs: nat)
    requires 0 < t <= tau <= 64 && pos == PosAfter(bytes, tau, t - 1, limit) && c == PolyAfter(bytes, tau, t - 1, limit)
    requires Found(bytes, pos, 256 - tau + t - 1, limit) && signs % 2 == StreamBit(bytes, t - 1)
    ensures var k := Find(bytes, pos, 256 - tau + t - 1, limit);
            PosAfter(bytes, tau, t, limit) == k + 1
            && PolyAfter(bytes, tau, t, limit) == Placed(c, 256 - tau + t - 1, bytes(k), Sign(signs))
  {
    hide Found;
    var k := Find(bytes, pos, 256 - tau + t - 1, limit);
    assert PosAfter(bytes, tau, t, limit) == k + 1 && bytes(k + 1 - 1) <= 256 - tau + t - 1;
  }

  /** Bit t of the sign number is bit t of the stream. */
  lemma SignBit(bytes: ByteStream, t: nat)
    requires t < 64
    ensures Shifted(Signs(bytes), t) % 2 == StreamBit(bytes, t)
  {
    hide *;
    ShiftedBit(Signs(bytes), t, 0);
    BitSteps(Shifted(Signs(bytes), t), 0);
    SignsAre(bytes);
    SignBits(bytes, 8);
    BitRead(bytes, 64, Signs(bytes), t);
  }

  lemma SignsAre(bytes: ByteStream)
    ensures Signs(bytes) == LittleEndian(bytes, 8)
  {
    hide LittleEndian;
  }

  lemma BitRead(bytes: ByteStream, len: nat, x: nat, t: nat)
    requires ReadsBits(bytes, 0, len, x) && t < len
    ensures NumberBit(x, t) == StreamBit(bytes, t)
  {
    hide NumberBit, StreamBit, Pow;
    assert NumberBit(x, t) == StreamBit(bytes, 0 + t);
  }

  /** The first n bytes as a number hold the first 8 n bits. */
  lemma {:induction false} SignBits(bytes: ByteStream, n: nat)
    ensures ReadsBits(bytes, 0, 8 * n, LittleEndian(bytes, n)) && Pow256(n) == Pow(2, 8 * n)
  {
    hide *;
    if n == 0 {
      LittleEndianStep(bytes, 0);
      NoBitsRead(bytes);
    } else {
      SignBits(bytes, n - 1);
      LittleEndianStep(bytes, n - 1);
      ByteReads(bytes, n - 1);
      ShiftsAre();
      PowAdd(2, 8, 8 * (n - 1));
      ReadsMore(bytes, 0, 8 * (n - 1), LittleEndian(bytes, n - 1), 8, bytes(n - 1));
      Commuted(bytes(n - 1), Pow(2, 8 * (n - 1)));
    }
  }

  lemma Commuted(x: int, y: int)
    ensures x * y == y * x
  {}

  lemma NoBitsRead(bytes: ByteStream)
    ensures Pow(2, 0) == 1 && ReadsBits(bytes, 0, 0, 0)
  {}

  method Clear(c: array<int32>)
    requires c.Length == 256
    modifies c
    ensures c[..] == NoCoefficients()
  {
    var i := 0;
    while i < 256
      invariant 0 <= i <= 256 && forall k :: 0 <= k < i ==> c[k] == 0
    {
      c[i] := 0;
      i := i + 1;
    }
  }

  /** Whatever the stream, the challenge has tau entries 1 or -1 and is zero elsewhere. */
  lemma SampleInBallIs(bytes: ByteStream, tau: nat, limit: nat)
    requires tau <= 256 && Enough(bytes, 8, 256 - tau, limit)
    ensures SampleInBall(bytes, tau, limit) == Ball(bytes, 8, Signs(bytes), 256 - tau, NoCoefficients(), limit)
    ensures Weight(SampleInBall(bytes, tau, limit)) == tau
    ensures forall k :: 0 <= k < 256 ==> -1 <= SampleInBall(bytes, tau, limit)[k] <= 1
  {
    hide Ball, Weight, Enough, Signs;
    ZeroWeight(NoCoefficients());
    BallWeight(bytes, 8, Signs(bytes), 256 - tau, NoCoefficients(), limit);
  }

  /** The loop over the last tau entries. */
  method Scatter(state: Xof, buf: array<uint8>, c: array<int32>, allSigns: nat, tau: nat, ghost bytes: ByteStream,
                 ghost limit: nat)
    requires state.Valid() && bytes == state.bytes && c.Length == 256 && 0 < tau <= 64 && buf.Length == 136
    requires (buf as object) != (state.ctx.state as object) && (c as object) != (state.ctx.state as object)
    requires state.position == 136 && Buffered(bytes, buf[..], 0) && Enough(bytes, 8, 256 - tau, limit)
    modifies state, state.ctx, state.ctx.state, buf, c
    ensures c[..] == Ball(bytes, 8, allSigns, 256 - tau, old(c[..]), limit)
  {
    hide *;
    ghost var result := Ball(bytes, 8, allSigns, 256 - tau, c[..], limit);
    ghost var base: nat := 0;
    var pos: nat, signs: nat, i: nat := 8, allSigns, 256 - tau;
    while i < 256
      invariant state.Valid() && i <= 256 && pos <= 136 && state.position == base + 136 && Buffered(bytes, buf[..], base)
      invariant Enough(bytes, base + pos, i, limit)
      invariant result == Ball(bytes, base + pos, signs, i, c[..], limit)
    {
      BallStep(bytes, base + pos, signs, i, c[..], limit);
      ghost var from := base + pos;
      var j;
      pos, j, base := NextIndex(state, buf, pos, i, base, limit);
      ghost var before := c[..];
      c[i] := c[j];
      c[j] := 1 - 2 * (signs % 2);
      PlacedIs(before, c[..], i, j, signs);
      signs := signs / 2;
      i := i + 1;
    }
    BallEnd(bytes, base + pos, signs, c[..], limit);
  }

  lemma BallStep(bytes: ByteStream, pos: nat, signs: nat, i: nat, c: seq<int>, limit: nat)
    requires |c| == 256 && i < 256 && Enough(bytes, pos, i, limit)
    ensures Found(bytes, pos, i, limit) && Enough(bytes, Find(bytes, pos, i, limit) + 1, i + 1, limit)
    ensures bytes(Find(bytes, pos, i, limit)) < 256
    ensures Ball(bytes, pos, signs, i, c, limit)
         == Ball(bytes, Find(bytes, pos, i, limit) + 1, signs / 2, i + 1,
                 Placed(c, i, bytes(Find(bytes, pos, i, limit)), Sign(signs)), limit)
  {
    hide Placed, Sign, Found, Find;
  }

  lemma BallEnd(bytes: ByteStream, pos: nat, signs: nat, c: seq<int>, limit: nat)
    requires |c| == 256 && Enough(bytes, pos, 256, limit)
    ensures Ball(bytes, pos, signs, 256, c, limit) == c
  {}

  lemma PlacedIs(before: seq<int>, after: seq<int>, i: nat, j: nat, signs: nat)
    requires i < |before| && j < |before| && after == before[i := before[j]][j := 1 - 2 * (signs % 2)]
    ensures after == Placed(before, i, j, Sign(signs))
  {}
}
