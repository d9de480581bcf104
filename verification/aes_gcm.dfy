/**
 AES-GCM over one memory: every buffer is a range of the same array, so that in-place and overlapping calls are
 covered. The block cipher is an arbitrary function on blocks.
 */
module AesGcm {
  import opened Gf128
  import opened Ghash
  import opened GcmSpec

  datatype Status = Success | InvalidParam | VerificationFailed

  const ADDRESS_SPACE: nat := 0x1_0000_0000_0000_0000

  // ---------- Overlap ----------

  /** Whether two buffers of the same length overlap without being the same; sums of addresses may wrap around. */
  predicate OverlapPartial(a: nat, b: nat, len: nat)
  {
    if len == 0 || a == b then false
    else
      var endA, endB := (a + len) % ADDRESS_SPACE, (b + len) % ADDRESS_SPACE;
      endA < a || endB < b || (a < endB && b < endA)
  }

  predicate RangesOverlap(a: nat, lenA: nat, b: nat, lenB: nat)
  {
    if lenA == 0 || lenB == 0 then false
    else
      var endA, endB := (a + lenA) % ADDRESS_SPACE, (b + lenB) % ADDRESS_SPACE;
      endA < a || endB < b || (a < endB && b < endA)
  }

  predicate Covers(a: nat, len: nat, p: nat) {
    a <= p < a + len
  }

  ghost predicate ShareAddress(a: nat, lenA: nat, b: nat, lenB: nat) {
    exists p: nat :: Covers(a, lenA, p) && Covers(b, lenB, p)
  }

  /** For ranges inside the address space both tests mean what they say. */
  lemma OverlapMeaning(a: nat, lenA: nat, b: nat, lenB: nat)
    requires a + lenA < ADDRESS_SPACE && b + lenB < ADDRESS_SPACE
    ensures RangesOverlap(a, lenA, b, lenB) <==> ShareAddress(a, lenA, b, lenB)
    ensures lenA == lenB ==> (OverlapPartial(a, b, lenA) <==> a != b && ShareAddress(a, lenA, b, lenB))
  {
    var p := if a <= b then b else a;
    if lenA > 0 && lenB > 0 && a < b + lenB && b < a + lenA {
      assert Covers(a, lenA, p) && Covers(b, lenB, p);
    }
  }

  /** The conditions under which both operations refuse their arguments. */
  predicate Refused(key: Key, aad: nat, aadLen: nat, src: nat, dst: nat, len: nat, tag: nat) {
    || (key.rounds != 10 && key.rounds != 14)
    || len > MAX_PAYLOAD_BYTES || aadLen > MAX_AAD_BYTES
    || OverlapPartial(src, dst, len)
    || (len > 0 && (RangesOverlap(tag, TAG_BYTES, src, len) || RangesOverlap(tag, TAG_BYTES, dst, len)))
    || (aadLen > 0 && RangesOverlap(tag, TAG_BYTES, aad, aadLen))
  }

  /** The buffers a call reads and writes lie in memory; lengths beyond the limits and empty buffers are not accessed. */
  predicate InMemory(size: nat, iv: nat, aad: nat, aadLen: nat, src: nat, dst: nat, len: nat, tag: nat) {
    && size < ADDRESS_SPACE && iv + 12 <= size && tag + TAG_BYTES <= size
    && (0 < aadLen <= MAX_AAD_BYTES ==> aad + aadLen <= size)
    && (0 < len <= MAX_PAYLOAD_BYTES ==> src + len <= size && dst + len <= size)
  }

  function Range(m: seq<Byte>, p: nat, len: nat): (r: seq<Byte>)
    requires len > 0 ==> p + len <= |m|
    ensures |r| == len
  {
    if len == 0 then [] else m[p..p + len]
  }

  /** Memory is as before except in the given range. */
  ghost predicate SameOutside(before: seq<Byte>, after: seq<Byte>, p: nat, len: nat) {
    |before| == |after| && forall i :: 0 <= i < |after| && !(p <= i < p + len) ==> after[i] == before[i]
  }

  // ---------- Counters ----------

  function Load32(p: seq<Byte>): nat
    requires |p| == 4
  {
    0x100_0000 * ToNat(p[0]) + 0x1_0000 * ToNat(p[1]) + 0x100 * ToNat(p[2]) + ToNat(p[3])
  }

  lemma Quarters(v: nat)
    requires v < 0x1_0000_0000
    ensures v / 256 / 256 == v / 0x1_0000 && v / 256 / 256 / 256 == v / 0x100_0000 < 0x100
    ensures v == 0x100_0000 * (v / 0x100_0000) + 0x1_0000 * (v / 0x1_0000 % 0x100) + 0x100 * (v / 0x100 % 0x100) + v % 0x100
  {}

  lemma BigEndianStep(v: nat, n: nat)
    requires n > 0
    ensures BigEndian(v, n) == BigEndian(v / 256, n - 1) + [ToByte(v % 256)]
  {}

  function Store32Bytes(v: nat): (r: seq<Byte>)
    requires v < 0x1_0000_0000
  {
    Quarters(v);
    [ToByte(v / 0x100_0000), ToByte(v / 0x1_0000 % 0x100), ToByte(v / 0x100 % 0x100), ToByte(v % 0x100)]
  }

  lemma BigEndian4(v: nat)
    requires v < 0x1_0000_0000
    ensures BigEndian(v, 4) == Store32Bytes(v)
  {
    hide ToByte, BigEndian;
    Quarters(v);
    BigEndianStep(v, 4);
    BigEndianStep(v / 256, 3);
    BigEndianStep(v / 256 / 256, 2);
    BigEndianStep(v / 256 / 256 / 256, 1);
    assert v / 0x100_0000 % 256 == v / 0x100_0000;
  }

  lemma LoadStore32(v: nat)
    requires v < 0x1_0000_0000
    ensures Load32(Store32Bytes(v)) == v
  {
    hide ToByte, ToNat;
    Quarters(v);
    ByteIsNumber(v / 0x100_0000);
    ByteIsNumber(v / 0x1_0000 % 0x100);
    ByteIsNumber(v / 0x100 % 0x100);
    ByteIsNumber(v % 0x100);
  }

  method Store32(p: array<Byte>, at: nat, v: nat)
    requires at + 4 <= p.Length && v < 0x1_0000_0000
    modifies p
    ensures p[at..at + 4] == Store32Bytes(v) && p[..at] == old(p[..at]) && p[at + 4..] == old(p[at + 4..])
  {
    hide ToByte;
    Quarters(v);
    p[at] := ToByte(v / 0x100_0000);
    p[at + 1] := ToByte(v / 0x1_0000 % 0x100);
    p[at + 2] := ToByte(v / 0x100 % 0x100);
    p[at + 3] := ToByte(v % 0x100);
  }

  method Store64(p: array<Byte>, at: nat, value: nat)
    requires at + 8 <= p.Length && value < ADDRESS_SPACE
    modifies p
    ensures p[at..at + 8] == BigEndian(value, 8) && p[..at] == old(p[..at]) && p[at + 8..] == old(p[at + 8..])
  {
    var v := value;
    var i := 7;
    while i >= 0
      invariant -1 <= i <= 7 && v >= 0
      invariant BigEndian(v, i + 1) + p[at + i + 1..at + 8] == BigEndian(value, 8)
      invariant p[..at] == old(p[..at]) && p[at + 8..] == old(p[at + 8..])
    {
      p[at + i] := ToByte(v % 256);
      v := v / 256;
      i := i - 1;
    }
  }

  /** The counter goes up by one modulo 2^32; the initialisation vector in front stays. */
  method IncCounter(counter: array<Byte>, ghost iv: seq<Byte>, ghost n: nat)
    requires counter.Length == 16 && |iv| == 12 && counter[..] == CounterBlock(iv, n)
    modifies counter
    ensures counter[..] == CounterBlock(iv, n + 1)
  {
    hide *;
    ghost var m := n % 0x1_0000_0000;
    BigEndian4(m);
    LoadStore32(m);
    CounterParts(iv, n, counter[..]);
    var c := Load32(counter[12..16]);
    c := (c + 1) % 0x1_0000_0000;
    assert c == (n + 1) % 0x1_0000_0000;
    BigEndian4(c);
    Store32(counter, 12, c);
    CounterOfParts(iv, n + 1, counter[..]);
  }

  lemma CounterParts(iv: seq<Byte>, n: nat, counter: seq<Byte>)
    requires |iv| == 12 && counter == CounterBlock(iv, n)
    ensures |counter| == 16 && counter[..12] == iv && counter[12..16] == BigEndian(n % 0x1_0000_0000, 4)
  {}

  lemma CounterOfParts(iv: seq<Byte>, n: nat, counter: seq<Byte>)
    requires |iv| == 12 && |counter| == 16 && counter[..12] == iv && counter[12..16] == BigEndian(n % 0x1_0000_0000, 4)
    ensures counter == CounterBlock(iv, n)
  {
    hide BigEndian;
    assert counter == counter[..12] + counter[12..16];
  }

  // ---------- The key stream ----------

  ghost predicate Xored(before: seq<Byte>, after: seq<Byte>, src: nat, dst: nat, chunk: nat, block: Block)
  {
    && chunk <= 16 && src + chunk <= |before| && dst + chunk <= |after|
    && forall k :: 0 <= k < chunk ==> after[dst + k] == before[src + k] ^ block[k]
  }

  /** One block: dst becomes src ^ keystream. */
  method XorChunk(mem: array<Byte>, src: nat, dst: nat, chunk: nat, block: Block)
    requires chunk <= 16 && src + chunk <= mem.Length && dst + chunk <= mem.Length
    requires src == dst || src + chunk <= dst || dst + chunk <= src
    modifies mem
    ensures Xored(old(mem[..]), mem[..], src, dst, chunk, block)
    ensures SameOutside(old(mem[..]), mem[..], dst, chunk)
  {
    var k := 0;
    while k < chunk
      invariant 0 <= k <= chunk
      invariant forall i :: 0 <= i < k ==> mem[dst + i] == old(mem[src + i]) ^ block[i]
      invariant forall i :: 0 <= i < mem.Length && !(dst <= i < dst + k) ==> mem[i] == old(mem[i])
    {
      mem[dst + k] := mem[src + k] ^ block[k];
      k := k + 1;
    }
  }

  /** The first done bytes have been encrypted. */
  ghost predicate Streamed(key: Key, iv: seq<Byte>, before: seq<Byte>, after: seq<Byte>, src: nat, dst: nat, done: nat)
    requires |iv| == 12
  {
    && |before| == |after| && src + done <= |before| && dst + done <= |before|
    && forall k :: 0 <= k < done ==> after[dst + k] == before[src + k] ^ StreamByte(key, iv, k)
  }

  lemma StreamedMore(key: Key, iv: seq<Byte>, start: seq<Byte>, before: seq<Byte>, after: seq<Byte>,
                     src: nat, dst: nat, n: nat, chunk: nat)
    requires |iv| == 12 && chunk <= 16
    requires Streamed(key, iv, start, before, src, dst, 16 * n) && SameOutside(start, before, dst, 16 * n)
    requires src + 16 * n + chunk <= |start| && dst + 16 * n + chunk <= |start|
    requires src == dst || src + 16 * n + chunk <= dst || dst + 16 * n + chunk <= src
    requires SameOutside(before, after, dst + 16 * n, chunk)
    requires Xored(before, after, src + 16 * n, dst + 16 * n, chunk, key.cipher(CounterBlock(iv, n + 2)))
    ensures Streamed(key, iv, start, after, src, dst, 16 * n + chunk) && SameOutside(start, after, dst, 16 * n + chunk)
  {
    hide CounterBlock, StreamByte;
    forall k | 0 <= k < 16 * n + chunk
      ensures after[dst + k] == start[src + k] ^ StreamByte(key, iv, k)
    {
      if k < 16 * n {
        assert after[dst + k] == before[dst + k];
      } else {
        var r := k - 16 * n;
        StreamByteAt(key, iv, n, r);
        assert after[(dst + 16 * n) + r] == before[(src + 16 * n) + r] ^ key.cipher(CounterBlock(iv, n + 2))[r];
      }
    }
  }

  lemma StreamByteAt(key: Key, iv: seq<Byte>, n: nat, r: nat)
    requires |iv| == 12 && r < 16
    ensures StreamByte(key, iv, 16 * n + r) == key.cipher(CounterBlock(iv, n + 2))[r]
  {
    hide CounterBlock;
    assert (16 * n + r) / 16 == n && (16 * n + r) % 16 == r;
  }

  /** Block n of the payload. */
  method CtrBlock(mem: array<Byte>, counter: array<Byte>, key: Key, src: nat, dst: nat, offset: nat, chunk: nat,
                  ghost iv: seq<Byte>, ghost start: seq<Byte>, ghost n: nat)
    requires |iv| == 12 && chunk <= 16 && offset == 16 * n && mem != counter
    requires counter.Length == 16 && counter[..] == CounterBlock(iv, n + 1)
    requires src + offset + chunk <= mem.Length && dst + offset + chunk <= mem.Length
    requires src == dst || src + offset + chunk <= dst || dst + offset + chunk <= src
    requires Streamed(key, iv, start, mem[..], src, dst, offset) && SameOutside(start, mem[..], dst, offset)
    modifies mem, counter
    ensures counter[..] == CounterBlock(iv, n + 2)
    ensures Streamed(key, iv, start, mem[..], src, dst, offset + chunk) && SameOutside(start, mem[..], dst, offset + chunk)
  {
    hide *;
    ghost var before := mem[..];
    SameSize(start, before, dst, offset);
    IncCounter(counter, iv, n + 1);
    XorChunk(mem, src + offset, dst + offset, chunk, key.cipher(counter[..]));
    StreamedMore(key, iv, start, before, mem[..], src, dst, n, chunk);
  }

  lemma SameSize(before: seq<Byte>, after: seq<Byte>, p: nat, len: nat)
    requires SameOutside(before, after, p, len)
    ensures |before| == |after|
  {}

  /** Encrypt or decrypt len bytes at src into dst, the same place or elsewhere. */
  method Ctr(mem: array<Byte>, key: Key, iv: seq<Byte>, src: nat, dst: nat, len: nat)
    requires |iv| == 12 && src + len <= mem.Length && dst + len <= mem.Length
    requires src == dst || src + len <= dst || dst + len <= src
    modifies mem
    ensures mem[dst..dst + len] == Stream(key, iv, old(mem[src..src + len]))
    ensures SameOutside(old(mem[..]), mem[..], dst, len)
  {
    hide *;
    ghost var start := mem[..];
    var j0: Block := J0(iv);
    var counter := new Byte[16](k requires 0 <= k < 16 => j0[k]);
    FirstCounter(iv, counter[..], j0);
    var remaining, offset := len, 0;
    ghost var n := 0;
    StreamStart(key, iv, start, src, dst);
    while remaining > 0
      invariant offset + remaining == len && (remaining > 0 ==> offset == 16 * n)
      invariant counter[..] == CounterBlock(iv, n + 1)
      invariant Streamed(key, iv, start, mem[..], src, dst, offset) && SameOutside(start, mem[..], dst, offset)
      modifies mem, counter
    {
      var chunk := if remaining >= 16 then 16 else remaining;
      CtrBlock(mem, counter, key, src, dst, offset, chunk, iv, start, n);
      offset := offset + chunk;
      remaining := remaining - chunk;
      n := n + 1;
    }
    AllStreamed(key, iv, start, mem[..], src, dst, len);
  }

  lemma StreamStart(key: Key, iv: seq<Byte>, m: seq<Byte>, src: nat, dst: nat)
    requires |iv| == 12 && src <= |m| && dst <= |m|
    ensures Streamed(key, iv, m, m, src, dst, 0) && SameOutside(m, m, dst, 0)
  {}

  lemma FirstCounter(iv: seq<Byte>, counter: seq<Byte>, j0: Block)
    requires |iv| == 12 && j0 == J0(iv) && |counter| == 16 && forall k :: 0 <= k < 16 ==> counter[k] == j0[k]
    ensures counter == CounterBlock(iv, 1)
  {
    hide BigEndian;
  }

  lemma AllStreamed(key: Key, iv: seq<Byte>, before: seq<Byte>, after: seq<Byte>, src: nat, dst: nat, len: nat)
    requires |iv| == 12 && Streamed(key, iv, before, after, src, dst, len)
    ensures after[dst..dst + len] == Stream(key, iv, before[src..src + len])
  {
    hide StreamByte;
  }

  // ---------- The tag ----------

  lemma HashKeyIs(key: Key, h: seq<Byte>)
    requires |h| == 16 && forall k :: 0 <= k < 16 ==> h[k] == key.cipher(seq(16, _ => 0))[k]
    ensures Bits(h) == HashKey(key)
  {
    assert h == key.cipher(seq(16, _ => 0));
    hide Bits;
  }

  lemma ZeroBlock(z: seq<Byte>)
    requires |z| == 16 && forall k :: 0 <= k < 16 ==> z[k] == 0
    ensures Bits(z) == Zeros(128)
  {
    hide BitOf;
    forall n | 0 <= n < 128
      ensures !Bits(z)[n]
    {
      ZeroByte(n % 8);
    }
  }

  /** The hash over additional data, ciphertext and lengths, masked with the cipher of J0. */
  method ComputeTag(key: Key, iv: seq<Byte>, aad: seq<Byte>, ct: seq<Byte>) returns (tag: array<Byte>)
    requires |iv| == 12 && |aad| <= MAX_AAD_BYTES && |ct| <= MAX_PAYLOAD_BYTES
    ensures fresh(tag) && tag.Length == 16 && IsTag(key, iv, aad, ct, tag[..])
  {
    hide *;
    var zero: Block, j0: Block := seq(16, _ => 0), J0(iv);
    var hb := key.cipher(zero);
    var h := new Byte[16](k requires 0 <= k < 16 => hb[k]);
    tag := new Byte[16](_ => 0);
    var lengths := LengthBytes(|aad|, |ct|);
    HashKeyIs(key, h[..]);
    ZeroBlock(tag[..]);
    HashParts(key, h, aad, ct, lengths[..], tag);
    XorBlock(tag, key.cipher(j0));
    TagIs(key, iv, aad, ct, tag[..], j0);
  }

  method LengthBytes(aadLen: nat, ctLen: nat) returns (lengths: array<Byte>)
    requires aadLen <= MAX_AAD_BYTES && ctLen <= MAX_PAYLOAD_BYTES
    ensures fresh(lengths) && lengths.Length == 16 && lengths[..] == LengthBlock(aadLen, ctLen)
  {
    hide BigEndian;
    lengths := new Byte[16](_ => 0);
    Store64(lengths, 0, aadLen * 8);
    ghost var first := lengths[..8];
    Store64(lengths, 8, ctLen * 8);
    assert lengths[..8] == first && lengths[..] == lengths[..8] + lengths[8..16];
  }

  method HashParts(key: Key, h: array<Byte>, aad: seq<Byte>, ct: seq<Byte>, lengths: seq<Byte>, tag: array<Byte>)
    requires h.Length == tag.Length == 16 && h != tag && Bits(h[..]) == HashKey(key) && Bits(tag[..]) == Zeros(128)
    requires lengths == LengthBlock(|aad|, |ct|)
    modifies tag
    ensures Bits(tag[..]) == Polynomial(HashKey(key), HashedBlocks(aad, ct))
  {
    hide *;
    ghost var hk := HashKey(key);
    if |aad| > 0 {
      GhashUpdate(h, aad, tag);
    }
    NoBlocksOf(hk, aad, Zeros(128));
    ghost var t1 := Bits(tag[..]);
    if |ct| > 0 {
      GhashUpdate(h, ct, tag);
    }
    NoBlocksOf(hk, ct, t1);
    GhashUpdate(h, lengths, tag);
    HashInParts(hk, aad, ct);
  }

  lemma NoBlocksOf(h: Elem, data: seq<Byte>, t: Elem)
    requires |h| == |t| == 128
    ensures |data| == 0 ==> Horner(h, Blocks(data), t) == t
  {
    if |data| == 0 {
      NoBlocks(h, data, t);
    }
  }

  lemma TagIs(key: Key, iv: seq<Byte>, aad: seq<Byte>, ct: seq<Byte>, tag: seq<Byte>, j0: Block)
    requires |iv| == 12 && |tag| == 16 && j0 == J0(iv)
    requires Bits(tag) == Xor(Polynomial(HashKey(key), HashedBlocks(aad, ct)), Bits(key.cipher(j0)))
    ensures IsTag(key, iv, aad, ct, tag)
  {
    hide Bits, Xor, Polynomial, HashKey, HashedBlocks, J0;
  }

  method CopyTag(mem: array<Byte>, at: nat, tag: array<Byte>)
    requires tag.Length == 16 && at + 16 <= mem.Length && mem != tag
    modifies mem
    ensures mem[at..at + 16] == tag[..] && SameOutside(old(mem[..]), mem[..], at, 16)
  {
    var i := 0;
    while i < 16
      invariant 0 <= i <= 16
      invariant forall k :: 0 <= k < i ==> mem[at + k] == tag[k]
      invariant forall k :: 0 <= k < mem.Length && !(at <= k < at + i) ==> mem[k] == old(mem[k])
    {
      mem[at + i] := tag[i];
      i := i + 1;
    }
  }

  method Cleanse(mem: array<Byte>, at: nat, len: nat)
    requires len > 0 ==> at + len <= mem.Length
    modifies mem
    ensures SameOutside(old(mem[..]), mem[..], at, len)
    ensures forall k :: at <= k < at + len ==> mem[k] == 0
  {
    var i := 0;
    while i < len
      invariant 0 <= i <= len
      invariant forall k :: at <= k < at + i ==> mem[k] == 0
      invariant forall k :: 0 <= k < mem.Length && !(at <= k < at + i) ==> mem[k] == old(mem[k])
    {
      mem[at + i] := 0;
      i := i + 1;
    }
  }

  // ---------- Encryption and decryption ----------

  lemma RangeKept(before: seq<Byte>, after: seq<Byte>, p: nat, len: nat, q: nat, size: nat)
    requires SameOutside(before, after, p, len) && (size > 0 ==> q + size <= |before|)
    requires size == 0 || len == 0 || q + size <= p || p + len <= q
    ensures Range(after, q, size) == Range(before, q, size)
  {}

  /** Arguments that are accepted do not overlap except for working in place. */
  lemma Accepted(key: Key, memory: nat, iv: nat, aad: nat, aadLen: nat, src: nat, dst: nat, len: nat, tag: nat)
    requires InMemory(memory, iv, aad, aadLen, src, dst, len, tag) && !Refused(key, aad, aadLen, src, dst, len, tag)
    ensures aadLen <= MAX_AAD_BYTES && len <= MAX_PAYLOAD_BYTES
    ensures aadLen > 0 ==> aad + aadLen <= memory && (aad + aadLen <= tag || tag + TAG_BYTES <= aad)
    ensures len > 0 ==> src + len <= memory && dst + len <= memory && (src == dst || src + len <= dst || dst + len <= src)
    ensures len > 0 ==> (tag + TAG_BYTES <= src || src + len <= tag) && (tag + TAG_BYTES <= dst || dst + len <= tag)
  {}

  /** What is refused, for buffers in memory: a wrong key, too long data, and overlap other than input equal to output. */
  lemma RefusedMeans(size: nat, key: Key, iv: nat, aad: nat, aadLen: nat, src: nat, dst: nat, len: nat, tag: nat)
    requires InMemory(size, iv, aad, aadLen, src, dst, len, tag)
    ensures Refused(key, aad, aadLen, src, dst, len, tag) <==>
              || key.rounds !in {10, 14} || len > 0xF_FFFF_FFF0 || aadLen > 0x1FFF_FFFF_FFFF_FFFF
              || (src != dst && ShareAddress(src, len, dst, len))
              || ShareAddress(tag, 16, src, len) || ShareAddress(tag, 16, dst, len) || ShareAddress(tag, 16, aad, aadLen)
  {
    if len <= MAX_PAYLOAD_BYTES && aadLen <= MAX_AAD_BYTES {
      if len > 0 {
        OverlapMeaning(src, len, dst, len);
        OverlapMeaning(tag, 16, src, len);
        OverlapMeaning(tag, 16, dst, len);
      }
      if aadLen > 0 {
        OverlapMeaning(tag, 16, aad, aadLen);
      }
      hide OverlapPartial, RangesOverlap;
    }
  }

  /**
   Refused arguments change nothing. Otherwise ct holds the plaintext under the key stream, and tag holds the tag of
   the additional data and ciphertext then in memory; the rest of memory is as before.
   */
  method Encrypt(mem: array<Byte>, key: Key, iv: nat, aad: nat, aadLen: nat, pt: nat, len: nat, ct: nat, tag: nat)
    returns (status: Status)
    requires InMemory(mem.Length, iv, aad, aadLen, pt, ct, len, tag)
    modifies mem
    ensures status == if Refused(key, aad, aadLen, pt, ct, len, tag) then InvalidParam else Success
    ensures status == InvalidParam ==> mem[..] == old(mem[..])
    ensures status == Success ==>
      && Accessible(mem.Length, aad, aadLen, pt, ct, len)
      && Range(mem[..], ct, len) == Stream(key, old(mem[iv..iv + 12]), old(Range(mem[..], pt, len)))
      && IsTag(key, old(mem[iv..iv + 12]), Range(mem[..], aad, aadLen), Range(mem[..], ct, len), mem[tag..tag + 16])
      && (forall i :: 0 <= i < mem.Length && !(ct <= i < ct + len) && !(tag <= i < tag + 16) ==> mem[i] == old(mem[i]))
  {
    hide IsTag, Stream, Refused;
    if Refused(key, aad, aadLen, pt, ct, len, tag) {
      return InvalidParam;
    }
    Accepted(key, mem.Length, iv, aad, aadLen, pt, ct, len, tag);
    var nonce := mem[iv..iv + 12];
    ghost var m0 := mem[..];
    if len > 0 {
      Ctr(mem, key, nonce, pt, ct, len);
    }
    ghost var m1 := mem[..];
    EmptyStream(key, nonce, Range(m0, pt, len), Range(m1, ct, len));
    var t := ComputeTag(key, nonce, Range(mem[..], aad, aadLen), Range(mem[..], ct, len));
    CopyTag(mem, tag, t);
    RangeKept(m1, mem[..], tag, 16, aad, aadLen);
    RangeKept(m1, mem[..], tag, 16, ct, len);
    return Success;
  }

  predicate Accessible(size: nat, aad: nat, aadLen: nat, src: nat, dst: nat, len: nat) {
    && (aadLen > 0 ==> aad + aadLen <= size)
    && (len > 0 ==> src + len <= size && dst + len <= size)
  }

  lemma EmptyStream(key: Key, iv: seq<Byte>, data: seq<Byte>, r: seq<Byte>)
    requires |iv| == 12 && |data| == |r|
    ensures |data| == 0 ==> r == Stream(key, iv, data)
  {}

  /**
   Refused arguments change nothing. A tag that is not the tag of the additional data and ciphertext clears the output;
   otherwise the output holds the ciphertext under the key stream. The rest of memory is as before.
   */
  method Decrypt(mem: array<Byte>, key: Key, iv: nat, aad: nat, aadLen: nat, ct: nat, len: nat, tag: nat, pt: nat)
    returns (status: Status)
    requires InMemory(mem.Length, iv, aad, aadLen, ct, pt, len, tag)
    modifies mem
    ensures status == InvalidParam <==> Refused(key, aad, aadLen, ct, pt, len, tag)
    ensures status == InvalidParam ==> mem[..] == old(mem[..])
    ensures status != InvalidParam ==>
      && Accessible(mem.Length, aad, aadLen, ct, pt, len)
      && (status == Success <==> IsTag(key, old(mem[iv..iv + 12]), old(Range(mem[..], aad, aadLen)),
                                       old(Range(mem[..], ct, len)), old(mem[tag..tag + 16])))
      && SameOutside(old(mem[..]), mem[..], pt, len)
    ensures status == Success ==> Range(mem[..], pt, len) == Stream(key, old(mem[iv..iv + 12]), old(Range(mem[..], ct, len)))
    ensures status == VerificationFailed ==> forall i :: 0 <= i < len ==> Range(mem[..], pt, len)[i] == 0
  {
    hide IsTag, Stream, Refused;
    if Refused(key, aad, aadLen, ct, pt, len, tag) {
      return InvalidParam;
    }
    Accepted(key, mem.Length, iv, aad, aadLen, ct, pt, len, tag);
    var nonce := mem[iv..iv + 12];
    ghost var m0 := mem[..];
    var t := ComputeTag(key, nonce, Range(mem[..], aad, aadLen), Range(mem[..], ct, len));
    assert mem[..] == m0;
    OnlyTag(key, nonce, Range(m0, aad, aadLen), Range(m0, ct, len), t[..], mem[tag..tag + 16]);
    if t[..] != mem[tag..tag + 16] {
      Cleanse(mem, pt, len);
      return VerificationFailed;
    }
    if len > 0 {
      Ctr(mem, key, nonce, ct, pt, len);
    }
    EmptyStream(key, nonce, Range(m0, ct, len), Range(mem[..], pt, len));
    return Success;
  }

  lemma OnlyTag(key: Key, iv: seq<Byte>, aad: seq<Byte>, ct: seq<Byte>, computed: seq<Byte>, given: seq<Byte>)
    requires |iv| == 12 && |computed| == |given| == 16 && IsTag(key, iv, aad, ct, computed)
    ensures computed == given <==> IsTag(key, iv, aad, ct, given)
  {
    hide Bits, Tag;
    if IsTag(key, iv, aad, ct, given) {
      BitsInjective(computed, given);
    }
  }

  /**
   Decrypting what was encrypted succeeds and restores the plaintext, also when all three payload buffers are the same;
   the initialisation vector must not lie in the written buffers.
   */
  method EncryptThenDecrypt(mem: array<Byte>, key: Key, iv: nat, aad: nat, aadLen: nat, pt: nat, len: nat, ct: nat,
                            tag: nat, out: nat)
    returns (status: Status)
    requires InMemory(mem.Length, iv, aad, aadLen, pt, ct, len, tag) && !Refused(key, aad, aadLen, pt, ct, len, tag)
    requires InMemory(mem.Length, iv, aad, aadLen, ct, out, len, tag) && !Refused(key, aad, aadLen, ct, out, len, tag)
    requires len == 0 || iv + 12 <= ct || ct + len <= iv
    requires iv + 12 <= tag || tag + 16 <= iv
    modifies mem
    ensures Accessible(mem.Length, aad, aadLen, pt, out, len)
    ensures status == Success && Range(mem[..], out, len) == old(Range(mem[..], pt, len))
  {
    hide IsTag, Stream, Refused;
    Accepted(key, mem.Length, iv, aad, aadLen, pt, ct, len, tag);
    Accepted(key, mem.Length, iv, aad, aadLen, ct, out, len, tag);
    ghost var nonce, plain := mem[iv..iv + 12], Range(mem[..], pt, len);
    status := Encrypt(mem, key, iv, aad, aadLen, pt, len, ct, tag);
    assert mem[iv..iv + 12] == nonce;
    status := Decrypt(mem, key, iv, aad, aadLen, ct, len, tag, out);
    StreamTwice(key, nonce, plain);
  }
}
