/** The sponge of section 4 of FIPS 202 on whole messages: pad, absorb block by block, squeeze block by block. */
module SpongeSpec {

  type Byte = bv8
  type Lane = bv64
  type State = s: seq<Lane> | |s| == 25 witness seq(25, _ => 0)
  type Permutation = State -> State

  // ---------- Lanes and bytes ----------

  /** Byte k of a lane, least significant first. */
  function ByteOf(l: Lane, k: nat): Byte
    requires k < 8
  {
    match k
    case 0 => (l & 0xFF) as Byte
    case 1 => ((l >> 8) & 0xFF) as Byte
    case 2 => ((l >> 16) & 0xFF) as Byte
    case 3 => ((l >> 24) & 0xFF) as Byte
    case 4 => ((l >> 32) & 0xFF) as Byte
    case 5 => ((l >> 40) & 0xFF) as Byte
    case 6 => ((l >> 48) & 0xFF) as Byte
    case 7 => ((l >> 56) & 0xFF) as Byte
  }

  /** A lane is its bytes, least significant first. */
  lemma LaneIsItsBytes(l: Lane)
    ensures l == (ByteOf(l, 0) as Lane) | ((ByteOf(l, 1) as Lane) << 8) | ((ByteOf(l, 2) as Lane) << 16)
               | ((ByteOf(l, 3) as Lane) << 24) | ((ByteOf(l, 4) as Lane) << 32) | ((ByteOf(l, 5) as Lane) << 40)
               | ((ByteOf(l, 6) as Lane) << 48) | ((ByteOf(l, 7) as Lane) << 56)
  {}

  /** A byte moved to position k of a lane. */
  function Placed(b: Byte, k: nat): Lane
    requires k < 8
  {
    match k
    case 0 => b as Lane
    case 1 => (b as Lane) << 8
    case 2 => (b as Lane) << 16
    case 3 => (b as Lane) << 24
    case 4 => (b as Lane) << 32
    case 5 => (b as Lane) << 40
    case 6 => (b as Lane) << 48
    case 7 => (b as Lane) << 56
  }

  /** Addition of lanes over GF(2). */
  function Plus(l: Lane, m: Lane): Lane {
    l ^ m
  }

  lemma LowBytePlus(l: Lane, m: Lane)
    ensures ((l ^ m) & 0xFF) as Byte == ((l & 0xFF) as Byte) ^ ((m & 0xFF) as Byte)
  {}

  lemma ShiftPlus(l: Lane, m: Lane)
    ensures (l ^ m) >> 8 == (l >> 8) ^ (m >> 8) && (l ^ m) >> 16 == (l >> 16) ^ (m >> 16)
    ensures (l ^ m) >> 24 == (l >> 24) ^ (m >> 24) && (l ^ m) >> 32 == (l >> 32) ^ (m >> 32)
    ensures (l ^ m) >> 40 == (l >> 40) ^ (m >> 40) && (l ^ m) >> 48 == (l >> 48) ^ (m >> 48)
    ensures (l ^ m) >> 56 == (l >> 56) ^ (m >> 56)
  {}

  lemma ByteOfPlus(l: Lane, m: Lane, k: nat)
    requires k < 8
    ensures ByteOf(Plus(l, m), k) == ByteOf(l, k) ^ ByteOf(m, k)
  {
    ShiftPlus(l, m);
    match k
    case 0 => LowBytePlus(l, m);
    case 1 => LowBytePlus(l >> 8, m >> 8);
    case 2 => LowBytePlus(l >> 16, m >> 16);
    case 3 => LowBytePlus(l >> 24, m >> 24);
    case 4 => LowBytePlus(l >> 32, m >> 32);
    case 5 => LowBytePlus(l >> 40, m >> 40);
    case 6 => LowBytePlus(l >> 48, m >> 48);
    case 7 => LowBytePlus(l >> 56, m >> 56);
  }

  lemma ByteOfPlaced(b: Byte, i: nat, k: nat)
    requires i < 8 && k < 8
    ensures ByteOf(Placed(b, i), k) == if i == k then b else 0
  {
    if i == 0 {} else if i == 1 {} else if i == 2 {} else if i == 3 {} else if i == 4 {} else if i == 5 {} else if i == 6 {} else {}
  }

  lemma LaneFromBytes(l: Lane, m: Lane)
    requires forall k :: 0 <= k < 8 ==> ByteOf(l, k) == ByteOf(m, k)
    ensures l == m
  {
    assert ByteOf(l, 0) == ByteOf(m, 0) && ByteOf(l, 1) == ByteOf(m, 1) && ByteOf(l, 2) == ByteOf(m, 2) && ByteOf(l, 3) == ByteOf(m, 3);
    assert ByteOf(l, 4) == ByteOf(m, 4) && ByteOf(l, 5) == ByteOf(m, 5) && ByteOf(l, 6) == ByteOf(m, 6) && ByteOf(l, 7) == ByteOf(m, 7);
  }

  /** Byte p of a state. */
  function ByteAt(s: State, p: nat): Byte
    requires p < 200
  {
    ByteOf(s[p / 8], p % 8)
  }

  /** A state is determined by its bytes. */
  lemma StateFromBytes(s: State, t: State)
    requires forall p :: 0 <= p < 200 ==> ByteAt(s, p) == ByteAt(t, p)
    ensures s == t
  {
    hide *;
    forall j | 0 <= j < 25
      ensures s[j] == t[j]
    {
      forall k | 0 <= k < 8
        ensures ByteOf(s[j], k) == ByteOf(t[j], k)
      {
        ByteAtIs(s, j, k);
        ByteAtIs(t, j, k);
        assert ByteAt(s, 8 * j + k) == ByteAt(t, 8 * j + k);
      }
      LaneFromBytes(s[j], t[j]);
    }
  }

  lemma ByteAtIs(s: State, j: nat, k: nat)
    requires j < 25 && k < 8
    ensures ByteAt(s, 8 * j + k) == ByteOf(s[j], k)
  {
    hide ByteOf;
    assert (8 * j + k) / 8 == j && (8 * j + k) % 8 == k;
  }

  // ---------- Adding a string to a state ----------

  /** Byte i of a string, zero outside. */
  function Pick(data: seq<Byte>, i: int): Byte {
    if 0 <= i < |data| then data[i] else 0
  }

  function Window(data: seq<Byte>, i: int): (r: seq<Byte>)
    ensures |r| == 8
  {
    [Pick(data, i), Pick(data, i + 1), Pick(data, i + 2), Pick(data, i + 3),
     Pick(data, i + 4), Pick(data, i + 5), Pick(data, i + 6), Pick(data, i + 7)]
  }

  /** The lane made of eight bytes, least significant first. */
  function Join(b: seq<Byte>): Lane
    requires |b| == 8
  {
    Placed(b[0], 0) ^ Placed(b[1], 1) ^ Placed(b[2], 2) ^ Placed(b[3], 3)
    ^ Placed(b[4], 4) ^ Placed(b[5], 5) ^ Placed(b[6], 6) ^ Placed(b[7], 7)
  }

  /** The lane holding bytes i .. i + 7 of a string. */
  function LaneOf(data: seq<Byte>, i: int): Lane {
    Join(Window(data, i))
  }

  /** The state plus a string that starts at byte pos. */
  function XoredAt(s: State, pos: nat, data: seq<Byte>): State {
    seq(25, j requires 0 <= j < 25 => Plus(s[j], LaneOf(data, 8 * j - pos)))
  }

  lemma ByteOfJoin(b: seq<Byte>, k: nat)
    requires |b| == 8 && k < 8
    ensures ByteOf(Join(b), k) == b[k]
  {
    if k == 0 {} else if k == 1 {} else if k == 2 {} else if k == 3 {} else if k == 4 {} else if k == 5 {} else if k == 6 {} else {}
  }

  lemma WindowAt(data: seq<Byte>, i: int, k: nat)
    requires k < 8
    ensures Window(data, i)[k] == Pick(data, i + k)
  {
    hide Pick;
  }

  lemma ByteOfLaneOf(data: seq<Byte>, i: int, k: nat)
    requires k < 8
    ensures ByteOf(LaneOf(data, i), k) == Pick(data, i + k)
  {
    hide ByteOf, Join, Window;
    WindowAt(data, i, k);
    ByteOfJoin(Window(data, i), k);
  }

  lemma XoredLane(s: State, pos: nat, data: seq<Byte>, j: nat)
    requires j < 25
    ensures XoredAt(s, pos, data)[j] == Plus(s[j], LaneOf(data, 8 * j - pos))
  {
    hide LaneOf, Plus;
  }

  /** Adding a string adds its bytes one by one. */
  lemma ByteOfXored(s: State, pos: nat, data: seq<Byte>, p: nat)
    requires p < 200
    ensures ByteAt(XoredAt(s, pos, data), p) == ByteAt(s, p) ^ Pick(data, p - pos)
  {
    hide *;
    var j, k := p / 8, p % 8;
    assert p == 8 * j + k;
    ByteAtIs(s, j, k);
    ByteAtIs(XoredAt(s, pos, data), j, k);
    XoredLane(s, pos, data, j);
    ByteOfPlus(s[j], LaneOf(data, 8 * j - pos), k);
    ByteOfLaneOf(data, 8 * j - pos, k);
  }

  lemma XorZero(b: Byte, c: Byte)
    ensures b ^ 0 == b && (b ^ c) ^ 0 == b ^ c && (b ^ 0) ^ c == b ^ c
  {}

  /** Adding two adjacent strings is adding their concatenation. */
  lemma XoredTwice(s: State, pos: nat, a: seq<Byte>, b: seq<Byte>)
    ensures XoredAt(XoredAt(s, pos, a), pos + |a|, b) == XoredAt(s, pos, a + b)
  {
    hide *;
    forall p | 0 <= p < 200
      ensures ByteAt(XoredAt(XoredAt(s, pos, a), pos + |a|, b), p) == ByteAt(XoredAt(s, pos, a + b), p)
    {
      XoredTwiceAt(s, pos, a, b, p);
    }
    StateFromBytes(XoredAt(XoredAt(s, pos, a), pos + |a|, b), XoredAt(s, pos, a + b));
  }

  lemma XoredTwiceAt(s: State, pos: nat, a: seq<Byte>, b: seq<Byte>, p: nat)
    requires p < 200
    ensures ByteAt(XoredAt(XoredAt(s, pos, a), pos + |a|, b), p) == ByteAt(XoredAt(s, pos, a + b), p)
  {
    hide *;
    ByteOfXored(s, pos, a, p);
    ByteOfXored(XoredAt(s, pos, a), pos + |a|, b, p);
    ByteOfXored(s, pos, a + b, p);
    assert p - (pos + |a|) == p - pos - |a|;
    PickConcat(a, b, p - pos);
    XorZero(ByteAt(s, p), Pick(b, p - pos - |a|));
    XorZero(ByteAt(s, p), Pick(a, p - pos));
  }

  lemma PickConcat(a: seq<Byte>, b: seq<Byte>, i: int)
    ensures if i < |a| then Pick(a + b, i) == Pick(a, i) && Pick(b, i - |a|) == 0
            else Pick(a + b, i) == Pick(b, i - |a|) && Pick(a, i) == 0
  {}

  lemma XoredNothing(s: State, pos: nat)
    ensures XoredAt(s, pos, []) == s
  {
    hide ByteAt, XoredAt;
    forall p | 0 <= p < 200
      ensures ByteAt(XoredAt(s, pos, []), p) == ByteAt(s, p)
    {
      ByteOfXored(s, pos, [], p);
      XorZero(ByteAt(s, p), 0);
    }
    StateFromBytes(XoredAt(s, pos, []), s);
  }

  // ---------- Padding and absorbing ----------

  function Zeros(n: nat): (r: seq<Byte>)
    ensures |r| == n
  {
    seq(n, _ => 0)
  }

  /** The padding: the domain byte, zeros, and the top bit of the last byte. */
  function Tail(domain: Byte, n: nat): (r: seq<Byte>)
    requires n >= 1
    ensures |r| == n
  {
    var t := [domain] + Zeros(n - 1);
    t[n - 1 := t[n - 1] ^ 0x80]
  }

  /** The message with its padding, a whole number of blocks. */
  function Padded(rate: nat, message: seq<Byte>, domain: Byte): (r: seq<Byte>)
    requires rate > 0
    decreases |message|
  {
    if |message| < rate then message + Tail(domain, rate - |message|)
    else message[..rate] + Padded(rate, message[rate..], domain)
  }

  /** Absorb whole blocks. */
  function AbsorbBlocks(f: Permutation, rate: nat, s: State, blocks: seq<Byte>): State
    requires rate > 0
    decreases |blocks|
  {
    if |blocks| < rate then s
    else AbsorbBlocks(f, rate, f(XoredAt(s, 0, blocks[..rate])), blocks[rate..])
  }

  function Start(): State {
    seq(25, _ => 0)
  }

  /** The state in which squeezing starts. */
  function Absorbed(f: Permutation, rate: nat, message: seq<Byte>, domain: Byte): State
    requires rate > 0
  {
    AbsorbBlocks(f, rate, Start(), Padded(rate, message, domain))
  }

  /** What the padding adds: at least one byte, at most a block, so that the length is the next multiple of the rate. */
  lemma {:induction false} PaddedShape(rate: nat, message: seq<Byte>, domain: Byte)
    requires rate > 0
    ensures var p := Padded(rate, message, domain);
            |message| < |p| <= |message| + rate && IsMultiple(|p|, rate) && p == message + Tail(domain, |p| - |message|)
    decreases |message|
  {
    hide *;
    if |message| < rate {
      LastPadded(rate, message, domain);
    } else {
      var rest := message[rate..];
      var q := Padded(rate, rest, domain);
      PaddedShape(rate, rest, domain);
      FirstPadded(rate, message, domain);
      Regroup(message, rate, q, Tail(domain, |q| - |rest|));
      OneMoreBlock(|q|, rate);
    }
  }

  lemma LastPadded(rate: nat, message: seq<Byte>, domain: Byte)
    requires |message| < rate
    ensures Padded(rate, message, domain) == message + Tail(domain, rate - |message|) && IsMultiple(rate, rate)
  {
    hide Tail;
    assert rate == 1 * rate;
  }

  lemma FirstPadded(rate: nat, message: seq<Byte>, domain: Byte)
    requires 0 < rate <= |message|
    ensures Padded(rate, message, domain) == message[..rate] + Padded(rate, message[rate..], domain)
  {
    hide Tail;
  }

  lemma Regroup(message: seq<Byte>, rate: nat, q: seq<Byte>, t: seq<Byte>)
    requires rate <= |message| && q == message[rate..] + t
    ensures message[..rate] + q == message + t
  {}

  ghost predicate IsMultiple(n: nat, rate: nat) {
    exists k: nat :: n == k * rate
  }

  lemma OneMoreBlock(n: nat, rate: nat)
    requires IsMultiple(n, rate)
    ensures IsMultiple(n + rate, rate)
  {
    var k: nat :| n == k * rate;
    assert n + rate == (k + 1) * rate;
  }

  // ---------- Squeezing ----------

  /** Byte i of the output stream of a state. */
  function OutByte(f: Permutation, rate: nat, s: State, i: nat): Byte
    requires 0 < rate <= 200
    decreases i
  {
    if i < rate then ByteAt(s, i) else OutByte(f, rate, f(s), i - rate)
  }

  /** The sponge: n output bytes for a message. */
  function Sponge(f: Permutation, rate: nat, message: seq<Byte>, domain: Byte, n: nat): (r: seq<Byte>)
    requires 0 < rate <= 200
    ensures |r| == n
  {
    var s := Absorbed(f, rate, message, domain);
    seq(n, i requires 0 <= i < n => OutByte(f, rate, s, i))
  }

  // ---------- Messages that are still growing ----------

  /** The state after the blocks of an unfinished message, its last incomplete block added without a permutation. */
  function Partial(f: Permutation, rate: nat, s: State, message: seq<Byte>): State
    requires rate > 0
    decreases |message|
  {
    if |message| < rate then XoredAt(s, 0, message)
    else Partial(f, rate, f(XoredAt(s, 0, message[..rate])), message[rate..])
  }

  /** The length of the incomplete block. */
  function Left(rate: nat, message: seq<Byte>): (r: nat)
    requires rate > 0
    ensures r < rate
    decreases |message|
  {
    if |message| < rate then |message| else Left(rate, message[rate..])
  }

  /** It is the remainder of the length. */
  lemma {:induction false} LeftIsRemainder(rate: nat, message: seq<Byte>)
    requires rate > 0
    ensures Left(rate, message) <= |message| && IsMultiple(|message| - Left(rate, message), rate)
    decreases |message|
  {
    if |message| < rate {
      assert 0 == 0 * rate;
    } else {
      LeftIsRemainder(rate, message[rate..]);
      OneMoreBlock(|message[rate..]| - Left(rate, message[rate..]), rate);
    }
  }

  /** Bytes that fit into the incomplete block are added to the state; a block that becomes full is permuted. */
  lemma {:induction false} PartialMore(f: Permutation, rate: nat, s: State, message: seq<Byte>, chunk: seq<Byte>)
    requires rate > 0 && Left(rate, message) + |chunk| <= rate
    ensures var t := XoredAt(Partial(f, rate, s, message), Left(rate, message), chunk);
            var full := Left(rate, message) + |chunk| == rate;
            && Partial(f, rate, s, message + chunk) == (if full then f(t) else t)
            && Left(rate, message + chunk) == (if full then 0 else Left(rate, message) + |chunk|)
    decreases |message|
  {
    hide XoredAt;
    var all := message + chunk;
    if |message| < rate {
      XoredTwice(s, 0, message, chunk);
      if |all| == rate {
        assert all[..rate] == all && all[rate..] == [];
        XoredNothing(f(XoredAt(s, 0, all)), 0);
      }
    } else {
      assert all[..rate] == message[..rate] && all[rate..] == message[rate..] + chunk;
      PartialMore(f, rate, f(XoredAt(s, 0, message[..rate])), message[rate..], chunk);
    }
  }

  /** The two bytes that finalisation adds are the padding of the incomplete block. */
  lemma TailInTwo(s: State, pos: nat, domain: Byte, rate: nat)
    requires pos < rate < 200
    ensures XoredAt(XoredAt(s, pos, [domain]), rate - 1, [0x80]) == XoredAt(s, pos, Tail(domain, rate - pos))
  {
    hide *;
    var x, y := XoredAt(XoredAt(s, pos, [domain]), rate - 1, [0x80]), XoredAt(s, pos, Tail(domain, rate - pos));
    forall p | 0 <= p < 200
      ensures ByteAt(x, p) == ByteAt(y, p)
    {
      TailInTwoAt(s, pos, domain, rate, p);
    }
    StateFromBytes(x, y);
  }

  lemma TailInTwoAt(s: State, pos: nat, domain: Byte, rate: nat, p: nat)
    requires pos < rate < 200 && p < 200
    ensures ByteAt(XoredAt(XoredAt(s, pos, [domain]), rate - 1, [0x80]), p) == ByteAt(XoredAt(s, pos, Tail(domain, rate - pos)), p)
  {
    hide *;
    ByteOfXored(s, pos, [domain], p);
    ByteOfXored(XoredAt(s, pos, [domain]), rate - 1, [0x80], p);
    ByteOfXored(s, pos, Tail(domain, rate - pos), p);
    TailByte(domain, rate - pos, p - pos);
    assert p - pos - (rate - pos) + 1 == p - (rate - 1);
    XorAssoc(ByteAt(s, p), Pick([domain], p - pos), Pick([0x80], p - (rate - 1)));
  }

  lemma XorAssoc(a: Byte, b: Byte, c: Byte)
    ensures (a ^ b) ^ c == a ^ (b ^ c)
  {}

  lemma TailByte(domain: Byte, n: nat, i: int)
    requires n >= 1
    ensures Pick(Tail(domain, n), i) == Pick([domain], i) ^ Pick([0x80], i - n + 1)
  {
    XorZero(domain, 0x80);
    ZeroXor();
  }

  lemma ZeroXor()
    ensures (0 as Byte) ^ 0x80 == 0x80 && (0 as Byte) ^ 0 == 0
  {}

  /** Finalising an unfinished message gives the state of the padded message. */
  lemma {:induction false} PartialFinal(f: Permutation, rate: nat, s: State, message: seq<Byte>, domain: Byte)
    requires 0 < rate < 200
    ensures f(XoredAt(XoredAt(Partial(f, rate, s, message), Left(rate, message), [domain]), rate - 1, [0x80]))
         == AbsorbBlocks(f, rate, s, Padded(rate, message, domain))
    decreases |message|
  {
    hide XoredAt, Tail;
    var p := Padded(rate, message, domain);
    if |message| < rate {
      TailInTwo(XoredAt(s, 0, message), |message|, domain, rate);
      XoredTwice(s, 0, message, Tail(domain, rate - |message|));
      assert p[..rate] == p && |p[rate..]| < rate;
    } else {
      assert p[..rate] == message[..rate] && p[rate..] == Padded(rate, message[rate..], domain);
      PartialFinal(f, rate, f(XoredAt(s, 0, message[..rate])), message[rate..], domain);
    }
  }
}
