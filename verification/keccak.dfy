/**
 The incremental sponge context and the one-shot hashes built on it. The permutation is an arbitrary function on
 states; everything the context produces is the sponge of SpongeSpec on the concatenation of what it absorbed.
 */
module Keccak {
  import opened SpongeSpec

  const SHA3_DOMAIN_SEP: Byte := 0x06
  const SHAKE_DOMAIN_SEP: Byte := 0x1F
  const SHA3_256_RATE: nat := 136
  const SHA3_512_RATE: nat := 72
  const SHAKE128_RATE: nat := 168
  const SHAKE256_RATE: nat := 136

  /** Byte i of the output that remains after the first offset bytes of a state. */
  function OutFrom(f: Permutation, rate: nat, s: State, offset: nat, i: nat): Byte
    requires 0 < rate < 200
  {
    OutByte(f, rate, s, offset + i)
  }

  /** The state s at the given offset continues the output of the state first after done bytes. */
  ghost predicate Continues(f: Permutation, rate: nat, s: State, offset: nat, first: State, done: nat)
    requires 0 < rate < 200
  {
    forall i: nat :: OutFrom(f, rate, s, offset, i) == OutFrom(f, rate, first, done, i)
  }

  lemma ContinuesAfterBlock(f: Permutation, rate: nat, s: State, first: State, done: nat)
    requires 0 < rate < 200 && Continues(f, rate, s, rate, first, done)
    ensures Continues(f, rate, f(s), 0, first, done)
  {
    forall i: nat
      ensures OutFrom(f, rate, f(s), 0, i) == OutFrom(f, rate, first, done, i)
    {
      assert OutFrom(f, rate, s, rate, i) == OutFrom(f, rate, first, done, i);
    }
  }

  lemma ContinuesFurther(f: Permutation, rate: nat, s: State, offset: nat, first: State, done: nat, n: nat)
    requires 0 < rate < 200 && Continues(f, rate, s, offset, first, done)
    ensures Continues(f, rate, s, offset + n, first, done + n)
  {
    var o, d := offset + n, done + n;
    forall i: nat
      ensures OutFrom(f, rate, s, o, i) == OutFrom(f, rate, first, d, i)
    {
      assert OutFrom(f, rate, s, offset, n + i) == OutFrom(f, rate, first, done, n + i);
      hide OutByte;
    }
  }

  lemma OutputAt(f: Permutation, rate: nat, s: State, offset: nat, first: State, done: nat, k: nat)
    requires 0 < rate < 200 && Continues(f, rate, s, offset, first, done) && offset + k < rate
    ensures ByteAt(s, offset + k) == OutByte(f, rate, first, done + k)
  {
    assert OutFrom(f, rate, s, offset, k) == OutFrom(f, rate, first, done, k);
    hide ByteAt;
  }

  predicate Usable(rate: nat) {
    0 < rate < 200
  }

  /** out[from..from + len] holds bytes done .. done + len of the output stream that starts in state first. */
  ghost predicate Emitted(f: Permutation, rate: nat, first: State, out: seq<Byte>, from: nat, len: nat, done: nat)
    requires Usable(rate)
  {
    from + len <= |out| && forall i :: from <= i < from + len ==> out[i] == OutByte(f, rate, first, done + (i - from))
  }

  lemma EmittedStart(f: Permutation, rate: nat, first: State, out: seq<Byte>, from: nat, done: nat)
    requires Usable(rate) && from <= |out|
    ensures Emitted(f, rate, first, out, from, 0, done)
  {}

  lemma EmittedMore(f: Permutation, rate: nat, first: State, s: State, before: seq<Byte>, after: seq<Byte>,
                    from: nat, done: nat, start: nat, offset: nat, chunk: nat)
    requires Usable(rate) && Emitted(f, rate, first, before, from, done, start) && SameElsewhere(before, after, from + done, chunk)
    requires offset + chunk <= rate && from + done + chunk <= |after|
    requires Continues(f, rate, s, offset, first, start + done)
    requires forall i :: from + done <= i < from + done + chunk ==> after[i] == ByteAt(s, offset + (i - (from + done)))
    ensures Emitted(f, rate, first, after, from, done + chunk, start)
  {
    hide OutByte, ByteAt, Continues;
    forall i | from <= i < from + done + chunk
      ensures after[i] == OutByte(f, rate, first, start + (i - from))
    {
      if i < from + done {
        assert after[i] == before[i];
      } else {
        OutputAt(f, rate, s, offset, first, start + done, i - (from + done));
      }
    }
  }

  lemma EmittedJoin(f: Permutation, rate: nat, first: State, a: seq<Byte>, b: seq<Byte>)
    requires Usable(rate) && Emitted(f, rate, first, a, 0, |a|, 0) && Emitted(f, rate, first, b, 0, |b|, |a|)
    ensures Emitted(f, rate, first, a + b, 0, |a + b|, 0)
  {
    hide OutByte;
    forall i | 0 <= i < |a + b|
      ensures (a + b)[i] == OutByte(f, rate, first, 0 + (i - 0))
    {
      if i >= |a| {
        assert (a + b)[i] == b[i - |a|];
      } else {
        assert (a + b)[i] == a[i];
      }
    }
  }

  lemma WholeOutput(f: Permutation, rate: nat, message: seq<Byte>, domain: Byte, out: seq<Byte>, n: nat)
    requires Usable(rate) && |out| == n && Emitted(f, rate, Absorbed(f, rate, message, domain), out, 0, n, 0)
    ensures out == Sponge(f, rate, message, domain, n)
  {
    hide OutByte, Absorbed;
    forall i | 0 <= i < n
      ensures out[i] == Sponge(f, rate, message, domain, n)[i]
    {
      assert out[i] == OutByte(f, rate, Absorbed(f, rate, message, domain), 0 + (i - 0));
    }
  }

  /** Two strings agree except in the given range. */
  ghost predicate SameElsewhere(before: seq<Byte>, after: seq<Byte>, at: nat, len: nat) {
    |before| == |after| && forall k :: 0 <= k < |after| && !(at <= k < at + len) ==> after[k] == before[k]
  }

  lemma SameElsewhereStart(s: seq<Byte>, at: nat)
    ensures SameElsewhere(s, s, at, 0)
  {}

  lemma SameElsewhereMore(start: seq<Byte>, before: seq<Byte>, after: seq<Byte>, at: nat, done: nat, chunk: nat)
    requires SameElsewhere(start, before, at, done) && SameElsewhere(before, after, at + done, chunk)
    ensures SameElsewhere(start, after, at, done + chunk)
  {}

  class Context {
    const f: Permutation
    const state: array<Lane>
    var absorbed: nat
    var rate: nat
    var squeezing: bool

    /** The message absorbed since initialisation. */
    ghost var message: seq<Byte>
    /** The domain byte given at finalisation. */
    ghost var domain: Byte
    /** The number of bytes squeezed. */
    ghost var squeezed: nat

    /** A context that has not been initialised. */
    constructor (f: Permutation)
      ensures Valid() && fresh(state) && this.f == f && rate == 0 && !squeezing
    {
      this.f := f;
      state := new Lane[25](_ => 0);
      absorbed, rate, squeezing := 0, 0, false;
      message, domain, squeezed := [], 0, 0;
    }

    ghost predicate Valid()
      reads this, state
    {
      && state.Length == 25
      && (Usable(rate) && !squeezing ==> Absorbing())
      && (Usable(rate) && squeezing ==> Squeezing())
    }

    ghost predicate Absorbing()
      requires state.Length == 25 && Usable(rate)
      reads this, state
    {
      absorbed == Left(rate, message) && state[..] == Partial(f, rate, Start(), message)
    }

    ghost predicate Squeezing()
      requires state.Length == 25 && Usable(rate)
      reads this, state
    {
      absorbed <= rate && Continues(f, rate, state[..], absorbed, Absorbed(f, rate, message, domain), squeezed)
    }

    method Permute()
      requires state.Length == 25
      modifies state
      ensures state[..] == f(old(state[..]))
    {
      var s := f(state[..]);
      forall j | 0 <= j < 25 {
        state[j] := s[j];
      }
      assert state[..] == s;
    }

    /** state[pos..] ^= input, byte by byte, without crossing the rate. */
    method XorInto(pos: nat, input: seq<Byte>)
      requires state.Length == 25 && pos + |input| <= 200
      modifies state
      ensures state[..] == XoredAt(old(state[..]), pos, input)
    {
      hide *;
      ghost var s: State := state[..];
      XoredNothing(s, pos);
      assert input[..0] == [];
      var i := 0;
      while i < |input|
        invariant 0 <= i <= |input|
        invariant state[..] == XoredAt(s, pos, input[..i])
      {
        ghost var before: State := state[..];
        var p := pos + i;
        state[p / 8] := Plus(state[p / 8], Placed(input[i], p % 8));
        XorOneByte(before, state[..], p, input[i]);
        XoredTwice(s, pos, input[..i], [input[i]]);
        assert input[..i + 1] == input[..i] + [input[i]];
        i := i + 1;
      }
      assert input[..i] == input;
    }

    /** An unusable rate leaves the context as it was. */
    method Init(rate: nat)
      requires Valid()
      modifies this, state
      ensures Valid()
      ensures Usable(rate) ==> this.rate == rate && !squeezing && message == []
      ensures !Usable(rate) ==> Unchanged(old(state[..]), old(absorbed), old(this.rate), old(squeezing), old(message), old(domain), old(squeezed))
    {
      if rate == 0 || rate >= 200 {
        return;
      }
      var i := 0;
      while i < 25
        invariant 0 <= i <= 25 && forall j :: 0 <= j < i ==> state[j] == 0
        modifies state
      {
        state[i] := 0;
        i := i + 1;
      }
      absorbed, squeezing := 0, false;
      this.rate := rate;
      message := [];
      assert state[..] == Start();
      XoredNothing(Start(), 0);
    }

    ghost predicate Unchanged(s: seq<Lane>, absorbed: nat, rate: nat, squeezing: bool, message: seq<Byte>, domain: Byte, squeezed: nat)
      reads this, state
    {
      && state[..] == s && this.absorbed == absorbed && this.rate == rate && this.squeezing == squeezing
      && this.message == message && this.domain == domain && this.squeezed == squeezed
    }

    /** Absorbing extends the message; once squeezing has started it changes nothing. */
    method Absorb(input: seq<Byte>)
      requires Valid()
      modifies this`absorbed, this`message, state
      ensures Valid()
      ensures !squeezing && Usable(rate) ==> message == old(message) + input
      ensures squeezing || !Usable(rate) ==> message == old(message) && absorbed == old(absorbed) && state[..] == old(state[..])
    {
      if |input| == 0 || squeezing || rate == 0 || rate >= 200 {
        assert message + input == message || squeezing || !Usable(rate);
        return;
      }
      AbsorbAll(input);
    }

    method AbsorbAll(input: seq<Byte>)
      requires Valid() && !squeezing && Usable(rate)
      modifies this`absorbed, this`message, state
      ensures Valid() && message == old(message) + input
    {
      hide *;
      UsableMeans(rate);
      AbsorbingIs();
      ghost var m := message;
      var done := 0;
      var pos := absorbed;
      assert m + input[..0] == m;
      while done < |input|
        invariant 0 <= done <= |input|
        invariant pos == Left(rate, m + input[..done])
        invariant state[..] == Partial(f, rate, Start(), m + input[..done])
        modifies state
      {
        var avail := rate - pos;
        var chunk := if |input| - done < avail then |input| - done else avail;
        ghost var sofar := m + input[..done];
        PartialMore(f, rate, Start(), sofar, input[done..done + chunk]);
        assert sofar + input[done..done + chunk] == m + input[..done + chunk];
        XorInto(pos, input[done..done + chunk]);
        pos := pos + chunk;
        done := done + chunk;
        if pos == rate {
          Permute();
          pos := 0;
        }
      }
      absorbed := pos;
      assert input[..done] == input;
      message := m + input;
      BackToAbsorbing();
    }

    lemma AbsorbingIs()
      requires Valid() && 0 < rate < 200 && !squeezing
      ensures state.Length == 25 && absorbed == Left(rate, message) && state[..] == Partial(f, rate, Start(), message)
    {}

    lemma BackToAbsorbing()
      requires state.Length == 25 && 0 < rate < 200 && !squeezing
      requires absorbed == Left(rate, message) && state[..] == Partial(f, rate, Start(), message)
      ensures Valid()
    {}

    /** Padding and the last permutation; a second call changes nothing. */
    method Finalize(domain: Byte)
      requires Valid()
      modifies this, state
      ensures Valid() && rate == old(rate) && message == old(message)
      ensures old(squeezing) || !Usable(rate) ==>
        Unchanged(old(state[..]), old(absorbed), old(rate), old(squeezing), old(message), old(this.domain), old(squeezed))
      ensures !old(squeezing) && Usable(rate) ==>
        squeezing && this.domain == domain && squeezed == 0 && absorbed == 0 && state[..] == Absorbed(f, rate, message, domain)
    {
      if squeezing || rate == 0 || rate >= 200 {
        return;
      }
      FinalizeNow(domain);
    }

    method FinalizeNow(domain: Byte)
      requires Valid() && !squeezing && Usable(rate)
      modifies this, state
      ensures Valid() && rate == old(rate) && message == old(message) && squeezing && this.domain == domain
      ensures squeezed == 0 && absorbed == 0 && state[..] == Absorbed(f, rate, message, domain)
    {
      hide *;
      UsableMeans(rate);
      AbsorbingIs();
      PartialFinal(f, rate, Start(), message, domain);
      XorInto(absorbed, [domain]);
      XorInto(rate - 1, [0x80]);
      Permute();
      absorbed, squeezing := 0, true;
      this.domain, squeezed := domain, 0;
      StartSqueezing();
    }

    lemma StartSqueezing()
      requires state.Length == 25 && Usable(rate) && squeezing && absorbed == 0 && squeezed == 0
      requires state[..] == AbsorbBlocks(f, rate, Start(), Padded(rate, message, domain))
      ensures Valid() && state[..] == Absorbed(f, rate, message, domain)
    {}

    /** Copy chunk bytes of the state, starting at byte offset, to out. */
    method Emit(offset: nat, chunk: nat, out: array<Byte>, at: nat)
      requires state.Length == 25 && offset + chunk <= 200 && at + chunk <= out.Length
      modifies out
      ensures forall i :: at <= i < at + chunk ==> out[i] == ByteAt(state[..], offset + (i - at))
      ensures SameElsewhere(old(out[..]), out[..], at, chunk)
    {
      hide ByteOf;
      var i := 0;
      while i < chunk
        invariant 0 <= i <= chunk
        invariant forall k :: at <= k < at + i ==> out[k] == ByteAt(state[..], offset + (k - at))
        invariant forall k :: 0 <= k < out.Length && !(at <= k < at + i) ==> out[k] == old(out[k])
      {
        var pos := offset + i;
        out[at + i] := ByteOf(state[pos / 8], pos % 8);
        i := i + 1;
      }
    }

    /** Output up to the end of the current block, after a permutation if it is used up. */
    method SqueezeChunk(start: nat, out: array<Byte>, from: nat, done: nat, len: nat, ghost first: State, ghost before: nat)
      returns (offset: nat, chunk: nat)
      requires state.Length == 25 && Usable(rate) && done < len && from + len <= out.Length
      requires start <= rate && Continues(f, rate, state[..], start, first, before + done) && Emitted(f, rate, first, out[..], from, done, before)
      modifies state, out
      ensures offset <= rate && 0 < chunk <= len - done
      ensures Continues(f, rate, state[..], offset, first, before + (done + chunk)) && Emitted(f, rate, first, out[..], from, done + chunk, before)
      ensures SameElsewhere(old(out[..]), out[..], from + done, chunk)
    {
      hide *;
      UsableMeans(rate);
      offset := start;
      if offset == rate {
        ContinuesAfterBlock(f, rate, state[..], first, before + done);
        Permute();
        offset := 0;
      }
      var avail := rate - offset;
      chunk := if len - done < avail then len - done else avail;
      ghost var o := out[..];
      Emit(offset, chunk, out, from + done);
      EmittedMore(f, rate, first, state[..], o, out[..], from, done, before, offset, chunk);
      ContinuesFurther(f, rate, state[..], offset, first, before + done, chunk);
      assert before + done + chunk == before + (done + chunk);
      offset := offset + chunk;
    }

    /** The next len bytes of the output stream; before finalisation nothing changes. */
    method Squeeze(out: array<Byte>, from: nat, len: nat)
      requires Valid() && from + len <= out.Length
      modifies this`absorbed, this`squeezed, state, out
      ensures Valid()
      ensures SameElsewhere(old(out[..]), out[..], from, len)
      ensures squeezing && Usable(rate) ==> squeezed == old(squeezed) + len && Emitted(f, rate, Absorbed(f, rate, message, domain), out[..], from, len, old(squeezed))
      ensures !squeezing || !Usable(rate) ==>
        out[..] == old(out[..]) && squeezed == old(squeezed) && absorbed == old(absorbed) && state[..] == old(state[..])
    {
      if len == 0 || !squeezing || rate == 0 || rate >= 200 {
        return;
      }
      SqueezeAll(out, from, len);
    }

    method SqueezeAll(out: array<Byte>, from: nat, len: nat)
      requires Valid() && from + len <= out.Length && squeezing && Usable(rate)
      modifies this`absorbed, this`squeezed, state, out
      ensures Valid() && squeezed == old(squeezed) + len && SameElsewhere(old(out[..]), out[..], from, len)
      ensures Emitted(f, rate, Absorbed(f, rate, message, domain), out[..], from, len, old(squeezed))
    {
      hide *;
      UsableMeans(rate);
      SqueezingIs();
      ghost var first: State, start: nat := Absorbed(f, rate, message, domain), squeezed;
      var offset: nat, done: nat := absorbed, 0;
      SameElsewhereStart(out[..], from);
      EmittedStart(f, rate, first, out[..], from, start);
      while done < len
        invariant 0 <= done <= len && offset <= rate
        invariant Continues(f, rate, state[..], offset, first, start + done)
        invariant SameElsewhere(old(out[..]), out[..], from, done)
        invariant Emitted(f, rate, first, out[..], from, done, start)
        modifies state, out
      {
        ghost var before := out[..];
        var chunk;
        offset, chunk := SqueezeChunk(offset, out, from, done, len, first, start);
        SameElsewhereMore(old(out[..]), before, out[..], from, done, chunk);
        done := done + chunk;
      }
      absorbed, squeezed := offset, start + done;
      BackToSqueezing(first);
    }

    lemma SqueezingIs()
      requires Valid() && 0 < rate < 200 && squeezing
      ensures state.Length == 25 && absorbed <= rate && Continues(f, rate, state[..], absorbed, Absorbed(f, rate, message, domain), squeezed)
    {
      hide Continues, Absorbed;
    }

    lemma BackToSqueezing(first: State)
      requires state.Length == 25 && 0 < rate < 200 && squeezing && first == Absorbed(f, rate, message, domain)
      requires absorbed <= rate && Continues(f, rate, state[..], absorbed, first, squeezed)
      ensures Valid()
    {
      hide Continues, Absorbed;
    }

    /** The extendable-output squeeze finalises on its first call. */
    method ShakeSqueeze(out: array<Byte>, from: nat, len: nat)
      requires Valid() && from + len <= out.Length
      modifies this, state, out
      ensures Valid() && rate == old(rate) && message == old(message)
      ensures SameElsewhere(old(out[..]), out[..], from, len)
      ensures Usable(rate) ==>
        && squeezing
        && domain == (if old(squeezing) then old(domain) else SHAKE_DOMAIN_SEP)
        && Emitted(f, rate, Absorbed(f, rate, message, domain), out[..], from, len, if old(squeezing) then old(squeezed) else 0)
        && squeezed == len + if old(squeezing) then old(squeezed) else 0
      ensures !Usable(rate) ==> out[..] == old(out[..])
    {
      if !squeezing {
        Finalize(SHAKE_DOMAIN_SEP);
      }
      Squeeze(out, from, len);
    }
  }

  // ---------- Hashing ----------

  /** The one-shot hash is the sponge. */
  method KeccakHash(f: Permutation, outlen: nat, input: seq<Byte>, domain: Byte, rate: nat) returns (out: array<Byte>)
    requires Usable(rate)
    ensures fresh(out) && out[..] == Sponge(f, rate, input, domain, outlen)
  {
    hide *;
    UsableMeans(rate);
    var ctx := new Context(f);
    out := new Byte[outlen];
    ctx.Init(rate);
    ctx.Absorb(input);
    assert [] + input == input;
    ctx.Finalize(domain);
    ctx.Squeeze(out, 0, outlen);
    WholeOutput(f, rate, input, domain, out[..], outlen);
  }

  lemma UsableMeans(rate: nat)
    requires Usable(rate)
    ensures 0 < rate < 200
  {}

  // ---------- The four hashes ----------

  method Sha3_256(f: Permutation, input: seq<Byte>) returns (out: array<Byte>)
    ensures fresh(out) && out[..] == Sponge(f, 136, input, 0x06, 32)
  {
    out := KeccakHash(f, 32, input, SHA3_DOMAIN_SEP, SHA3_256_RATE);
  }

  method Sha3_512(f: Permutation, input: seq<Byte>) returns (out: array<Byte>)
    ensures fresh(out) && out[..] == Sponge(f, 72, input, 0x06, 64)
  {
    out := KeccakHash(f, 64, input, SHA3_DOMAIN_SEP, SHA3_512_RATE);
  }

  method Shake128(f: Permutation, outlen: nat, input: seq<Byte>) returns (out: array<Byte>)
    ensures fresh(out) && out[..] == Sponge(f, 168, input, 0x1F, outlen)
  {
    out := KeccakHash(f, outlen, input, SHAKE_DOMAIN_SEP, SHAKE128_RATE);
  }

  method Shake256(f: Permutation, outlen: nat, input: seq<Byte>) returns (out: array<Byte>)
    ensures fresh(out) && out[..] == Sponge(f, 136, input, 0x1F, outlen)
  {
    out := KeccakHash(f, outlen, input, SHAKE_DOMAIN_SEP, SHAKE256_RATE);
  }

  function Flatten(pieces: seq<seq<Byte>>): seq<Byte> {
    if pieces == [] then [] else pieces[0] + Flatten(pieces[1..])
  }

  function Total(lengths: seq<nat>): nat {
    if lengths == [] then 0 else lengths[0] + Total(lengths[1..])
  }

  /**
   However a message is cut into absorbed pieces and the output into squeezed pieces, the pieces of output together are
   the sponge on the whole message.
   */
  method InPieces(f: Permutation, rate: nat, domain: Byte, pieces: seq<seq<Byte>>, lengths: seq<nat>) returns (out: seq<Byte>)
    requires Usable(rate)
    ensures out == Sponge(f, rate, Flatten(pieces), domain, Total(lengths))
  {
    hide *;
    UsableMeans(rate);
    var ctx := new Context(f);
    ctx.Init(rate);
    FlattenNext(pieces, 0);
    var i := 0;
    while i < |pieces|
      invariant 0 <= i <= |pieces|
      invariant ctx.Valid() && ctx.f == f && ctx.rate == rate && !ctx.squeezing
      invariant ctx.message + Flatten(pieces[i..]) == Flatten(pieces)
      invariant fresh(ctx) && fresh(ctx.state)
    {
      FlattenNext(pieces, i);
      ghost var m := ctx.message;
      ctx.Absorb(pieces[i]);
      assert m + (pieces[i] + Flatten(pieces[i + 1..])) == ctx.message + Flatten(pieces[i + 1..]);
      i := i + 1;
    }
    FlattenEnd(pieces[i..]);
    assert ctx.message + [] == ctx.message;
    ctx.Finalize(domain);
    out := [];
    assert lengths[0..] == lengths;
    i := 0;
    ghost var first := Absorbed(f, rate, Flatten(pieces), domain);
    EmittedStart(f, rate, first, out, 0, 0);
    while i < |lengths|
      invariant 0 <= i <= |lengths|
      invariant ctx.Valid() && ctx.f == f && ctx.rate == rate && ctx.squeezing && ctx.message == Flatten(pieces) && ctx.domain == domain
      invariant ctx.squeezed == |out| && |out| + Total(lengths[i..]) == Total(lengths)
      invariant Emitted(f, rate, first, out, 0, |out|, 0)
      invariant fresh(ctx) && fresh(ctx.state)
    {
      TotalNext(lengths, i);
      var piece := new Byte[lengths[i]];
      ctx.Squeeze(piece, 0, lengths[i]);
      EmittedJoin(f, rate, first, out, piece[..]);
      out := out + piece[..];
      i := i + 1;
    }
    TotalEnd(lengths[i..]);
    WholeOutput(f, rate, ctx.message, domain, out, |out|);
  }

  lemma FlattenNext(pieces: seq<seq<Byte>>, i: nat)
    requires i <= |pieces|
    ensures i < |pieces| ==> Flatten(pieces[i..]) == pieces[i] + Flatten(pieces[i + 1..])
    ensures i == 0 ==> [] + Flatten(pieces[i..]) == Flatten(pieces)
  {
    if i < |pieces| {
      assert pieces[i..][1..] == pieces[i + 1..];
    }
    if i == 0 {
      assert pieces[i..] == pieces;
    }
  }

  lemma FlattenEnd(pieces: seq<seq<Byte>>)
    requires |pieces| == 0
    ensures Flatten(pieces) == []
  {}

  lemma TotalNext(lengths: seq<nat>, i: nat)
    requires i < |lengths|
    ensures Total(lengths[i..]) == lengths[i] + Total(lengths[i + 1..])
  {
    assert lengths[i..][1..] == lengths[i + 1..];
  }

  lemma TotalEnd(lengths: seq<nat>)
    requires |lengths| == 0
    ensures Total(lengths) == 0
  {}

  lemma XorOneByteAt(before: State, after: State, p: nat, b: Byte, q: nat)
    requires p < 200 && q < 200 && after == before[p / 8 := Plus(before[p / 8], Placed(b, p % 8))]
    ensures ByteAt(after, q) == ByteAt(before, q) ^ Pick([b], q - p)
  {
    hide *;
    var i, k := q / 8, q % 8;
    assert q == 8 * i + k;
    ByteAtIs(before, i, k);
    ByteAtIs(after, i, k);
    PickOne(b, q - p);
    XorZero(ByteAt(before, q), 0);
    if i == p / 8 {
      ByteOfPlus(before[i], Placed(b, p % 8), k);
      ByteOfPlaced(b, p % 8, k);
    }
  }

  lemma PickOne(b: Byte, i: int)
    ensures Pick([b], i) == if i == 0 then b else 0
  {}

  lemma XorOneByte(before: State, after: State, p: nat, b: Byte)
    requires p < 200 && after == before[p / 8 := Plus(before[p / 8], Placed(b, p % 8))]
    ensures after == XoredAt(before, p, [b])
  {
    hide *;
    forall q | 0 <= q < 200
      ensures ByteAt(after, q) == ByteAt(XoredAt(before, p, [b]), q)
    {
      ByteOfXored(before, p, [b], q);
      XorOneByteAt(before, after, p, b, q);
    }
    StateFromBytes(after, XoredAt(before, p, [b]));
  }
}
