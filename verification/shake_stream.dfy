/** The output of a SHAKE context as a stream of numbers, handed out buffer by buffer: what the samplers read. */
module ShakeStream {
  import opened MachineInts
  import opened BitPacking
  import opened BitStrings
  import S = SpongeSpec
  import K = Keccak
  import G = GcmSpec

  type ByteStream = nat -> uint8

  /** Bit n of a stream, the least significant bit of each byte first. */
  function StreamBit(bytes: ByteStream, n: nat): nat {
    NumberBit(bytes(n / 8), n % 8)
  }

  /** t is the number written in the given number of bits from bit n on. */
  ghost predicate ReadsBits(bytes: ByteStream, n: nat, len: nat, t: nat) {
    t < Pow(2, len) && forall b :: 0 <= b < len ==> NumberBit(t, b) == StreamBit(bytes, n + b)
  }

  /** There is only one such number. */
  lemma ReadsOne(bytes: ByteStream, n: nat, len: nat, t: nat, u: nat)
    requires ReadsBits(bytes, n, len, t) && ReadsBits(bytes, n, len, u)
    ensures t == u
  {
    hide NumberBit, StreamBit;
    forall b | 0 <= b < len
      ensures NumberBit(t, b) == NumberBit(u, b)
    {
      assert NumberBit(t, b) == StreamBit(bytes, n + b);
    }
    BitsDetermine(t, u, len);
  }

  /** The low bits of the byte that bit n starts. */
  lemma ReadsLow(bytes: ByteStream, n: nat, at: nat, from: nat, len: nat)
    requires n == 8 * at + from && from + len <= 8
    ensures ReadsBits(bytes, n, len, bytes(at) / Pow(2, from) % Pow(2, len))
  {
    hide *;
    var x := bytes(at);
    SplitNumber(x, from);
    var y := x / Pow(2, from);
    SplitNumber(y, len);
    forall b | 0 <= b < len
      ensures NumberBit(y % Pow(2, len), b) == StreamBit(bytes, n + b)
    {
      BitOfSum(y % Pow(2, len), y / Pow(2, len), len, b);
      BitOfSum(x % Pow(2, from), y, from, from + b);
      StreamBitIs(bytes, at, from + b);
    }
    MakeReads(bytes, n, len, y % Pow(2, len));
  }

  lemma SplitNumber(x: nat, k: nat)
    ensures Pow(2, k) > 0 && 0 <= x % Pow(2, k) < Pow(2, k) && x / Pow(2, k) >= 0
    ensures x == x % Pow(2, k) + Pow(2, k) * (x / Pow(2, k))
  {
    hide Pow;
  }

  lemma StreamBitIs(bytes: ByteStream, at: nat, b: nat)
    requires b < 8
    ensures StreamBit(bytes, 8 * at + b) == NumberBit(bytes(at), b)
  {
    hide NumberBit;
    assert (8 * at + b) / 8 == at && (8 * at + b) % 8 == b;
  }

  lemma MakeReads(bytes: ByteStream, n: nat, len: nat, t: nat)
    requires t < Pow(2, len) && forall b :: 0 <= b < len ==> NumberBit(t, b) == StreamBit(bytes, n + b)
    ensures ReadsBits(bytes, n, len, t)
  {
    hide NumberBit, StreamBit, Pow;
  }

  /** A number whose bits follow those of another one. */
  lemma ReadsMore(bytes: ByteStream, n: nat, len: nat, t: nat, more: nat, u: nat)
    requires ReadsBits(bytes, n, len, t) && ReadsBits(bytes, n + len, more, u)
    ensures ReadsBits(bytes, n, len + more, t + Pow(2, len) * u)
  {
    hide NumberBit, StreamBit, Pow;
    PowAdd(2, len, more);
    DigitBound(t, u, Pow(2, more), Pow(2, len));
    var x := t + Pow(2, len) * u;
    forall b | 0 <= b < len + more
      ensures NumberBit(x, b) == StreamBit(bytes, n + b)
    {
      BitOfSum(t, u, len, b);
      if b >= len {
        assert NumberBit(u, b - len) == StreamBit(bytes, n + len + (b - len));
      }
    }
  }

  /** The output stream of a message, byte by byte. */
  function StreamOf(f: S.Permutation, rate: nat, message: seq<S.Byte>): ByteStream
    requires K.Usable(rate)
  {
    var first := S.Absorbed(f, rate, message, K.SHAKE_DOMAIN_SEP);
    (i: nat) => G.ToNat(S.OutByte(f, rate, first, i))
  }

  /** Byte i of the stream is byte i of every output of the sponge that is long enough. */
  lemma StreamIsSponge(f: S.Permutation, rate: nat, message: seq<S.Byte>, n: nat, i: nat)
    requires K.Usable(rate) && i < n
    ensures |S.Sponge(f, rate, message, 0x1F, n)| == n
    ensures StreamOf(f, rate, message)(i) == G.ToNat(S.Sponge(f, rate, message, 0x1F, n)[i])
  {
    hide S.OutByte, S.Absorbed, G.ToNat;
  }

  /** The buffer holds the stream from the given position on. */
  ghost predicate Buffered(bytes: ByteStream, buf: seq<uint8>, start: nat) {
    forall j :: 0 <= j < |buf| ==> buf[j] == bytes(start + j)
  }

  /** A SHAKE context that has absorbed its seed. */
  class Xof {
    const ctx: K.Context
    ghost const bytes: ByteStream
    ghost var position: nat

    constructor (f: S.Permutation, rate: nat, seed: seq<S.Byte>)
      requires K.Usable(rate)
      ensures Valid() && fresh(ctx) && fresh(ctx.state) && bytes == StreamOf(f, rate, seed) && position == 0
    {
      var c := new K.Context(f);
      c.Init(rate);
      c.Absorb(seed);
      assert [] + seed == seed;
      ctx, position := c, 0;
      bytes := StreamOf(f, rate, seed);
    }

    ghost predicate Valid()
      reads this, ctx, ctx.state
    {
      && ctx.Valid() && K.Usable(ctx.rate) && bytes == StreamOf(ctx.f, ctx.rate, ctx.message)
      && (if ctx.squeezing then ctx.domain == K.SHAKE_DOMAIN_SEP && position == ctx.squeezed else position == 0)
    }

    /** The next bytes of the stream. */
    method Squeeze(buf: array<uint8>)
      requires Valid() && (buf as object) != (ctx.state as object)
      modifies this, ctx, ctx.state, buf
      ensures Valid() && position == old(position) + buf.Length
      ensures Buffered(bytes, buf[..], old(position))
    {
      hide *;
      ValidMeans();
      ghost var start := position;
      var out := new S.Byte[buf.Length];
      ctx.ShakeSqueeze(out, 0, buf.Length);
      position := position + buf.Length;
      Numbers(out[..], buf);
      EmittedIsBuffered(ctx.f, ctx.rate, ctx.message, out[..], buf[..], start);
      MakeValid();
    }

    lemma ValidMeans()
      requires Valid()
      ensures ctx.Valid() && K.Usable(ctx.rate) && bytes == StreamOf(ctx.f, ctx.rate, ctx.message)
      ensures if ctx.squeezing then ctx.domain == K.SHAKE_DOMAIN_SEP && position == ctx.squeezed else position == 0
    {}

    lemma MakeValid()
      requires ctx.Valid() && K.Usable(ctx.rate) && bytes == StreamOf(ctx.f, ctx.rate, ctx.message)
      requires if ctx.squeezing then ctx.domain == K.SHAKE_DOMAIN_SEP && position == ctx.squeezed else position == 0
      ensures Valid()
    {}

    /** Refill the buffer if fewer than the needed bytes are left, which happens only at its end. */
    method Refill(buf: array<uint8>, pos: nat, need: nat, ghost base: nat) returns (at: nat, ghost start: nat)
      requires Valid() && position == base + buf.Length && Buffered(bytes, buf[..], base)
      requires (buf as object) != (ctx.state as object)
      requires pos <= buf.Length && need <= buf.Length && (pos + need > buf.Length ==> pos == buf.Length)
      modifies this, ctx, ctx.state, buf
      ensures Valid() && position == start + buf.Length && Buffered(bytes, buf[..], start)
      ensures at + need <= buf.Length && start + at == base + pos && (at == pos || at == 0)
    {
      hide *;
      at, start := pos, base;
      if at + need > buf.Length {
        start := position;
        Squeeze(buf);
        at := 0;
      }
    }
  }

  /** The bytes as numbers. */
  method Numbers(out: seq<S.Byte>, buf: array<uint8>)
    requires |out| == buf.Length
    modifies buf
    ensures forall j :: 0 <= j < buf.Length ==> buf[j] == G.ToNat(out[j])
  {
    hide *;
    var i := 0;
    while i < buf.Length
      invariant 0 <= i <= buf.Length
      invariant forall j :: 0 <= j < i ==> buf[j] == G.ToNat(out[j])
    {
      buf[i] := G.ToNat(out[i]);
      i := i + 1;
    }
  }

  /** What a context emits is a part of its stream. */
  lemma EmittedIsBuffered(f: S.Permutation, rate: nat, message: seq<S.Byte>, out: seq<S.Byte>, buf: seq<uint8>, start: nat)
    requires K.Usable(rate) && |out| == |buf| && forall j :: 0 <= j < |buf| ==> buf[j] == G.ToNat(out[j])
    requires K.Emitted(f, rate, S.Absorbed(f, rate, message, K.SHAKE_DOMAIN_SEP), out, 0, |out|, start)
    ensures Buffered(StreamOf(f, rate, message), buf, start)
  {
    hide S.Absorbed, S.OutByte, G.ToNat;
    forall j | 0 <= j < |buf|
      ensures buf[j] == StreamOf(f, rate, message)(start + j)
    {
      assert out[j] == S.OutByte(f, rate, S.Absorbed(f, rate, message, K.SHAKE_DOMAIN_SEP), start + (j - 0));
    }
  }
}
