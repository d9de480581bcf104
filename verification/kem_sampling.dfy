/** The rejection sampler of matrix entries of ML-KEM. */
module KemSampling {
  import opened MachineInts
  import opened BitPacking
  import opened BitStrings
  import opened KemConstants
  import opened Rejection
  import opened ShakeStream
  import K = Keccak
  import S = SpongeSpec
  import G = GcmSpec

  function Kept(d: int): Candidate {
    if d < Q then Accept(d) else Reject
  }

  /** The two 12-bit candidates of three bytes. */
  function FirstOf(b0: uint8, b1: uint8): (r: int)
    ensures 0 <= r < 0x1000
  {
    b0 + 0x100 * (b1 % 16)
  }

  function SecondOf(b1: uint8, b2: uint8): (r: int)
    ensures 0 <= r < 0x1000
  {
    b1 / 16 + 16 * b2
  }

  /** Candidate n of the stream: 12-bit numbers, two in every three bytes. */
  function CandidateAt(bytes: ByteStream, n: nat): Candidate {
    var at: nat := 3 * (n / 2);
    if n % 2 == 0 then Kept(FirstOf(bytes(at), bytes(at + 1))) else Kept(SecondOf(bytes(at + 1), bytes(at + 2)))
  }

  function Uniform(bytes: ByteStream): Candidates {
    (n: nat) => CandidateAt(bytes, n)
  }

  /** Candidate n is the number in bits 12 n up to 12 n + 11 of the stream, kept if it is below q. */
  lemma UniformMeans(bytes: ByteStream, n: nat, t: nat)
    requires ReadsBits(bytes, 12 * n, 12, t)
    ensures Uniform(bytes)(n) == if t < 3329 then Accept(t) else Reject
  {
    hide *;
    var g := n / 2;
    var b0: nat, b1: nat, b2: nat := bytes(3 * g), bytes(3 * g + 1), bytes(3 * g + 2);
    UniformIs(bytes, n, g, b0, b1, b2);
    if n % 2 == 0 {
      FirstReads(bytes, g, b0, b1);
      ReadsOne(bytes, 12 * n, 12, t, b0 + 0x100 * (b1 % 16));
    } else {
      SecondReads(bytes, g, b1, b2);
      ReadsOne(bytes, 12 * n, 12, t, b1 / 16 + 16 * b2);
    }
  }

  lemma ShiftsAre()
    ensures Pow(2, 0) == 1 && Pow(2, 4) == 16 && Pow(2, 8) == 0x100
  {
    Powers();
  }

  lemma FirstReads(bytes: ByteStream, g: nat, b0: nat, b1: nat)
    requires b0 == bytes(3 * g) && b1 == bytes(3 * g + 1)
    ensures ReadsBits(bytes, 24 * g, 12, b0 + 0x100 * (b1 % 16))
  {
    hide *;
    ShiftsAre();
    ReadsLow(bytes, 24 * g, 3 * g, 0, 8);
    ReadsLow(bytes, 24 * g + 8, 3 * g + 1, 0, 4);
    WholeByte(bytes(3 * g));
    ReadsMore(bytes, 24 * g, 8, b0, 4, b1 % 16);
  }

  lemma SecondReads(bytes: ByteStream, g: nat, b1: nat, b2: nat)
    requires b1 == bytes(3 * g + 1) && b2 == bytes(3 * g + 2)
    ensures ReadsBits(bytes, 24 * g + 12, 12, b1 / 16 + 16 * b2)
  {
    hide *;
    ShiftsAre();
    ReadsLow(bytes, 24 * g + 12, 3 * g + 1, 4, 4);
    ReadsLow(bytes, 24 * g + 16, 3 * g + 2, 0, 8);
    WholeByte(bytes(3 * g + 2));
    WholeByte(bytes(3 * g + 1));
    ReadsMore(bytes, 24 * g + 12, 4, b1 / 16, 8, b2);
  }

  lemma WholeByte(x: uint8)
    ensures x / 1 % 0x100 == x && x / 16 % 16 == x / 16 && x / 1 % 16 == x % 16
  {}

  lemma UniformIs(bytes: ByteStream, n: nat, g: nat, b0: uint8, b1: uint8, b2: uint8)
    requires g == n / 2 && b0 == bytes(3 * g) && b1 == bytes(3 * g + 1) && b2 == bytes(3 * g + 2)
    ensures n == 2 * g + n % 2 && (n % 2 == 0 || n % 2 == 1)
    ensures var t := if n % 2 == 0 then b0 + 0x100 * (b1 % 16) else b1 / 16 + 16 * b2;
            t >= 0 && Uniform(bytes)(n) == if t < 3329 then Accept(t) else Reject
  {}

  lemma Group(bytes: ByteStream, g: nat, b0: uint8, b1: uint8, b2: uint8)
    requires b0 == bytes(3 * g) && b1 == bytes(3 * g + 1) && b2 == bytes(3 * g + 2)
    ensures Uniform(bytes)(2 * g) == Kept(FirstOf(b0, b1)) && Uniform(bytes)(2 * g + 1) == Kept(SecondOf(b1, b2))
  {
    hide FirstOf, SecondOf, Kept;
    assert 2 * g / 2 == g && (2 * g + 1) / 2 == g;
  }

  ghost predicate InRange(p: seq<int>, n: nat) {
    n <= |p| && forall i :: 0 <= i < n ==> 0 <= p[i] < Q
  }

  /** Store a candidate if it is below q and there is room. */
  method Offer(p: array<int16>, ctr: nat, d: int, ghost c: Candidates, ghost n: nat) returns (next: nat)
    requires p.Length == 256 && 0 <= d < 0x1000 && c(n) == Kept(d)
    requires ctr <= 256 && Filled(p[..], ctr, Selected(c, n)) && InRange(p[..], ctr)
    modifies p
    ensures next <= 256 && Filled(p[..], next, Selected(c, n + 1)) && InRange(p[..], next)
  {
    hide Selected, Filled;
    ghost var before := p[..];
    next := ctr;
    if d < Q && next < 256 {
      p[next] := d;
      next := next + 1;
    }
    FilledStep(before, p[..], ctr, next, c, n);
  }

  /** The two candidates of three bytes. */
  method OfferGroup(p: array<int16>, ctr: nat, b0: uint8, b1: uint8, b2: uint8, ghost c: Candidates, ghost g: nat)
    returns (next: nat)
    requires p.Length == 256 && c(2 * g) == Kept(FirstOf(b0, b1)) && c(2 * g + 1) == Kept(SecondOf(b1, b2))
    requires ctr <= 256 && Filled(p[..], ctr, Selected(c, 2 * g)) && InRange(p[..], ctr)
    modifies p
    ensures next <= 256 && Filled(p[..], next, Selected(c, 2 * (g + 1))) && InRange(p[..], next)
  {
    hide *;
    var d1, d2 := FirstOf(b0, b1), SecondOf(b1, b2);
    next := Offer(p, ctr, d1, c, 2 * g);
    next := Offer(p, next, d2, c, 2 * g + 1);
    assert 2 * g + 1 + 1 == 2 * (g + 1);
  }

  /** The stream the entry is sampled from. */
  function EntryStream(f: S.Permutation, seed: seq<S.Byte>): ByteStream {
    StreamOf(f, K.SHAKE128_RATE, seed)
  }

  /**
   The polynomial holds the first 256 accepted candidates of the stream of the seed. The loop ends whenever the stream has
   so many: groups counts the three-byte groups it reads, the last of which contains the 256th acceptance, and squeezed
   the bytes it takes from the hash, which are less than a block more.
   */
  method PolyUniform(f: S.Permutation, p: array<int16>, seed: seq<S.Byte>, ghost limit: nat)
    returns (ghost groups: nat, ghost squeezed: nat)
    requires p.Length == 256 && |Selected(Uniform(EntryStream(f, seed)), limit)| >= 256
    modifies p
    ensures p[..] == First256(Uniform(EntryStream(f, seed)), limit)
    ensures InRange(p[..], 256)
    ensures groups > 0 && |Selected(Uniform(EntryStream(f, seed)), 2 * (groups - 1))| < 256
    ensures |Selected(Uniform(EntryStream(f, seed)), 2 * groups)| >= 256
    ensures 3 * groups <= squeezed < 3 * groups + 168
  {
    hide *;
    Rate();
    var state := new Xof(f, K.SHAKE128_RATE, seed);
    ghost var bytes := EntryStream(f, seed);
    EntryStreamIs(f, seed);
    ghost var c := Uniform(bytes);
    var buf := new uint8[168];
    var ctr: nat, pos: nat := 0, 0;
    ghost var base: nat := 0;
    groups := 0;
    state.Squeeze(buf);
    FilledStart(p[..], c);
    NothingYet(p[..]);
    while ctr < 256
      invariant ctr <= 256 && pos <= 168 && pos % 3 == 0 && base + pos == 3 * groups
      invariant state.Valid() && state.bytes == bytes && state.position == base + 168 && Buffered(bytes, buf[..], base)
      invariant Filled(p[..], ctr, Selected(c, 2 * groups)) && InRange(p[..], ctr)
      invariant if groups == 0 then ctr == 0 else pos > 0 && |Selected(c, 2 * (groups - 1))| < 256
      decreases if ctr < 256 then limit - 2 * groups else -1
    {
      ghost var before := 2 * groups;
      NotYet(p[..], ctr, c, 2 * groups, limit);
      pos, base := state.Refill(buf, pos, 3, base);
      GroupInBuffer(bytes, buf[..], base, pos, groups);
      ctr := OfferGroup(p, ctr, buf[pos], buf[pos + 1], buf[pos + 2], c, groups);
      pos := pos + 3;
      groups := groups + 1;
      assert 2 * (groups - 1) == before;
    }
    FilledEnd(p[..], c, 2 * groups, limit);
    squeezed := state.position;
  }

  lemma Rate()
    ensures K.SHAKE128_RATE == 168 && K.Usable(K.SHAKE128_RATE)
  {}

  lemma EntryStreamIs(f: S.Permutation, seed: seq<S.Byte>)
    ensures K.Usable(K.SHAKE128_RATE) && EntryStream(f, seed) == StreamOf(f, K.SHAKE128_RATE, seed)
  {
    hide StreamOf;
  }

  /** The entry is read from SHAKE128 of the seed. */
  lemma StreamMeans(f: S.Permutation, seed: seq<S.Byte>, n: nat, i: nat)
    requires i < n
    ensures |S.Sponge(f, 168, seed, 0x1F, n)| == n && EntryStream(f, seed)(i) == G.ToNat(S.Sponge(f, 168, seed, 0x1F, n)[i])
  {
    hide *;
    Rate();
    EntryStreamIs(f, seed);
    StreamIsSponge(f, 168, seed, n, i);
  }

  lemma NothingYet(p: seq<int>)
    ensures InRange(p, 0)
  {}

  lemma GroupInBuffer(bytes: ByteStream, buf: seq<uint8>, base: nat, pos: nat, g: nat)
    requires Buffered(bytes, buf, base) && pos + 3 <= |buf| && base + pos == 3 * g
    ensures Uniform(bytes)(2 * g) == Kept(FirstOf(buf[pos], buf[pos + 1]))
    ensures Uniform(bytes)(2 * g + 1) == Kept(SecondOf(buf[pos + 1], buf[pos + 2]))
  {
    hide FirstOf, SecondOf, Kept, Uniform;
    Group(bytes, g, buf[pos], buf[pos + 1], buf[pos + 2]);
  }
}
