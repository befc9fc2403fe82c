/**
 Counter mode with random access: byte p of a file is combined with byte p % 16 of
 the encrypted counter block number p / 16.
 */
module CtrCipher {
  import opened ByteBits
  import LittleEndian
  import opened CryptoPrimitives

  // ---- the key stream ----

  /** Little-endian bytes of a 64-bit counter. */
  function CounterBytes(n: nat, len: nat): (r: Bytes)
    ensures |r| == len
  {
    if len == 0 then [] else [ToByte(n % 256)] + CounterBytes(n / 256, len - 1)
  }

  /** The initial block with the counter mixed into its first eight bytes. */
  function CounterBlock(iv: Bytes, counter: nat): (r: Bytes)
    requires |iv| == BLOCK
    ensures |r| == BLOCK
  {
    Xor(iv[..8], CounterBytes(counter, 8)) + iv[8..]
  }

  function StreamBlock(c: Suite, iv: Bytes, counter: nat): (r: Bytes)
    requires Sound(c) && |iv| == BLOCK
    ensures |r| == BLOCK
  {
    Enc(c, CounterBlock(iv, counter))
  }

  function StreamByte(c: Suite, iv: Bytes, p: nat): bv8
    requires Sound(c) && |iv| == BLOCK
  {
    StreamBlock(c, iv, p / 16)[p % 16]
  }

  /** The key stream from a position on. */
  function Stream(c: Suite, iv: Bytes, offset: nat, len: nat): (r: Bytes)
    requires Sound(c) && |iv| == BLOCK
    ensures |r| == len
  {
    seq(len, i requires 0 <= i < len => StreamByte(c, iv, offset + i))
  }

  function Ctr(c: Suite, iv: Bytes, data: Bytes, offset: nat): (r: Bytes)
    requires Sound(c) && |iv| == BLOCK
    ensures |r| == |data|
  {
    Xor(data, Stream(c, iv, offset, |data|))
  }

  // ---- theorems ----

  /** Applied twice at the same offset it gives the data back. */
  lemma CtrInvolution(c: Suite, iv: Bytes, data: Bytes, offset: nat)
    requires Sound(c) && |iv| == BLOCK
    ensures Ctr(c, iv, Ctr(c, iv, data, offset), offset) == data
  {
    XorCancels(data, Stream(c, iv, offset, |data|));
  }

  /** Adjacent ranges can be done separately, at any boundary. */
  lemma CtrConcat(c: Suite, iv: Bytes, a: Bytes, b: Bytes, offset: nat)
    requires Sound(c) && |iv| == BLOCK
    ensures Ctr(c, iv, a + b, offset) == Ctr(c, iv, a, offset) + Ctr(c, iv, b, offset + |a|)
  {
    var whole, left, right := Ctr(c, iv, a + b, offset), Ctr(c, iv, a, offset), Ctr(c, iv, b, offset + |a|);
    forall i | 0 <= i < |a + b|
      ensures whole[i] == (left + right)[i]
    {
      if i >= |a| {
        assert (a + b)[i] == b[i - |a|];
        assert offset + i == offset + |a| + (i - |a|);
      }
    }
  }

  lemma Middle(a: Bytes, b: Bytes, d: Bytes)
    ensures (a + (b + d))[|a|..|a| + |b|] == b
  {
  }

  /** Reading any part of an encoded file and decoding it at its own offset gives
      that part of the data. */
  lemma CtrRandomAccess(c: Suite, iv: Bytes, data: Bytes, offset: nat, lo: nat, hi: nat)
    requires Sound(c) && |iv| == BLOCK && lo <= hi <= |data|
    ensures Ctr(c, iv, Ctr(c, iv, data, offset)[lo..hi], offset + lo) == data[lo..hi]
  {
    var a, b, d := data[..lo], data[lo..hi], data[hi..];
    assert data == a + (b + d);
    CtrConcat(c, iv, a, b + d, offset);
    CtrConcat(c, iv, b, d, offset + lo);
    Middle(Ctr(c, iv, a, offset), Ctr(c, iv, b, offset + lo), Ctr(c, iv, d, offset + lo + |b|));
    CtrInvolution(c, iv, b, offset + lo);
  }

  lemma {:induction false} CounterInjective(m: nat, n: nat, len: nat)
    requires m < LittleEndian.Pow256(len) && n < LittleEndian.Pow256(len) && CounterBytes(m, len) == CounterBytes(n, len)
    ensures m == n
  {
    if len == 0 {
    } else {
      var a, b := CounterBytes(m, len), CounterBytes(n, len);
      assert a[0] == b[0] && a[1..] == b[1..];
      ToByteInjective(m % 256, n % 256);
      CounterInjective(m / 256, n / 256, len - 1);
    }
  }

  /** No two 64-bit counters give the same key stream block. */
  lemma StreamBlocksDiffer(c: Suite, iv: Bytes, m: nat, n: nat)
    requires Sound(c) && |iv| == BLOCK && m < LittleEndian.Pow256(8) && n < LittleEndian.Pow256(8) && m != n
    ensures StreamBlock(c, iv, m) != StreamBlock(c, iv, n)
  {
    if StreamBlock(c, iv, m) == StreamBlock(c, iv, n) {
      var x, y := CounterBlock(iv, m), CounterBlock(iv, n);
      DecEnc(c, x);
      DecEnc(c, y);
      assert x[..8] == y[..8];
      var cm, cn := CounterBytes(m, 8), CounterBytes(n, 8);
      XorSwaps(iv[..8], cm);
      XorSwaps(iv[..8], cn);
      XorCancels(cm, iv[..8]);
      XorCancels(cn, iv[..8]);
      CounterInjective(m, n, 8);
    }
  }

  // ---- byte by byte ----

  /** A block of which the last eight bytes are the iv's, and the first eight, combined with
      the iv's, spell a counter modulo 2^64 with its low byte first. */
  ghost predicate Holds(b: Bytes, iv: Bytes, counter: nat) {
    && |b| == 16 == |iv| && b[8..] == iv[8..]
    && forall j :: 0 <= j < 8 ==> Spells(b[j], iv[j], counter, j)
  }

  predicate Spells(b: bv8, iv: bv8, counter: nat, j: nat) {
    ByteValue(b ^ iv) == counter / LittleEndian.Pow256(j) % 256
  }

  lemma {:induction false} CounterByte(n: nat, len: nat, j: nat)
    requires j < len
    ensures ByteValue(CounterBytes(n, len)[j]) == n / LittleEndian.Pow256(j) % 256
  {
    hide ByteValue;
    hide ToByte;
    if j == 0 {
      ByteRoundTrip(n % 256);
    } else {
      CounterByte(n / 256, len - 1, j - 1);
      LittleEndian.DivTwice(n, LittleEndian.Pow256(j - 1));
    }
  }

  lemma BlockHolds(iv: Bytes, counter: nat)
    requires |iv| == BLOCK
    ensures Holds(CounterBlock(iv, counter), iv, counter)
  {
    hide CounterBytes;
    hide ByteValue;
    var b := CounterBlock(iv, counter);
    assert b[8..] == iv[8..];
    forall j | 0 <= j < 8
      ensures Spells(b[j], iv[j], counter, j)
    {
      CounterByte(counter, 8, j);
      XorByte(CounterBytes(counter, 8)[j], iv[j]);
    }
  }

  /** The new byte at position p of the file: the old one combined with byte p % 16 of the
      encrypted block that holds p / 16. */
  ghost predicate Combined(c: Suite, iv: Bytes, was: bv8, now: bv8, p: nat)
    requires Sound(c)
  {
    |iv| == 16 && exists b :: Holds(b, iv, p / 16) && now == was ^ Enc(c, b)[p % 16]
  }

  ghost predicate AllCombined(c: Suite, iv: Bytes, was: Bytes, now: Bytes, offset: nat)
    requires Sound(c)
  {
    |was| == |now| && forall i :: 0 <= i < |was| ==> Combined(c, iv, was[i], now[i], offset + i)
  }

  lemma CtrByteByByte(c: Suite, iv: Bytes, data: Bytes, offset: nat)
    requires Sound(c) && |iv| == BLOCK
    ensures AllCombined(c, iv, data, Ctr(c, iv, data, offset), offset)
  {
    hide Combined;
    hide Ctr;
    var now := Ctr(c, iv, data, offset);
    forall i | 0 <= i < |data|
      ensures Combined(c, iv, data[i], now[i], offset + i)
    {
      CtrByte(c, iv, data, offset, i);
    }
  }

  lemma CtrByte(c: Suite, iv: Bytes, data: Bytes, offset: nat, i: nat)
    requires Sound(c) && |iv| == BLOCK && i < |data|
    ensures Combined(c, iv, data[i], Ctr(c, iv, data, offset)[i], offset + i)
  {
    hide Holds;
    hide CounterBlock;
    hide StreamByte;
    var p := offset + i;
    assert Ctr(c, iv, data, offset)[i] == data[i] ^ StreamByte(c, iv, p);
    StreamHolds(c, iv, data[i], p);
  }

  lemma StreamHolds(c: Suite, iv: Bytes, x: bv8, p: nat)
    requires Sound(c) && |iv| == BLOCK
    ensures Combined(c, iv, x, x ^ StreamByte(c, iv, p), p)
  {
    hide Holds;
    hide CounterBlock;
    BlockHolds(iv, p / 16);
  }

  // ---- the code ----

  /** data[at + i] ^= key[i] for the first count bytes. */
  method XorInPlace(data: array<bv8>, at: nat, key: Bytes, count: nat)
    requires at + count <= data.Length && count <= |key|
    modifies data
    ensures data[at..at + count] == Xor(old(data[at..at + count]), key)
    ensures forall i :: 0 <= i < data.Length && !(at <= i < at + count) ==> data[i] == old(data[i])
  {
    var i := 0;
    while i < count
      invariant 0 <= i <= count
      invariant forall k :: at <= k < at + i ==> data[k] == old(data[k]) ^ key[k - at]
      invariant forall k :: 0 <= k < data.Length && !(at <= k < at + i) ==> data[k] == old(data[k])
    {
      data[at + i] := data[at + i] ^ key[i];
      i := i + 1;
    }
  }

  /** The bytes of one key stream block from position r on are the key stream there. */
  lemma StreamPart(c: Suite, iv: Bytes, counter: nat, r: nat, len: nat)
    requires Sound(c) && |iv| == BLOCK && r + len <= BLOCK
    ensures Stream(c, iv, 16 * counter + r, len) == StreamBlock(c, iv, counter)[r..r + len]
  {
    hide StreamBlock;
    var part, block := Stream(c, iv, 16 * counter + r, len), StreamBlock(c, iv, counter)[r..r + len];
    forall i | 0 <= i < len
      ensures part[i] == block[i]
    {
      DivModBlock(counter, r + i);
      assert part[i] == StreamByte(c, iv, 16 * counter + (r + i));
    }
  }

  lemma DivModBlock(q: nat, r: nat)
    requires r < 16
    ensures (16 * q + r) / 16 == q && (16 * q + r) % 16 == r
  {
  }

  /** Combines len bytes at a position with the key stream block they lie in. */
  method XorPart(c: Suite, iv: Bytes, data: array<bv8>, at: nat, counter: nat, r: nat, len: nat)
    requires Sound(c) && |iv| == BLOCK && at + len <= data.Length && r + len <= BLOCK
    modifies data
    ensures data[at..at + len] == Ctr(c, iv, old(data[at..at + len]), 16 * counter + r)
    ensures forall i :: 0 <= i < data.Length && !(at <= i < at + len) ==> data[i] == old(data[i])
  {
    var dst := StreamBlock(c, iv, counter);
    StreamPart(c, iv, counter, r, len);
    XorShorter(data[at..at + len], dst[r..], len);
    assert dst[r..][..len] == dst[r..r + len];
    XorInPlace(data, at, dst[r..], len);
  }

  lemma XorShorter(a: Bytes, b: Bytes, len: nat)
    requires |a| == len <= |b|
    ensures Xor(a, b) == Xor(a, b[..len])
  {
  }

  /** What is done so far is the encoded front, the rest is untouched. */
  ghost predicate Done(c: Suite, iv: Bytes, was: Bytes, now: Bytes, offset: nat, pos: nat) {
    && Sound(c) && |iv| == BLOCK && pos <= |was| == |now|
    && now[..pos] == Ctr(c, iv, was[..pos], offset) && now[pos..] == was[pos..]
  }

  lemma DoneStep(c: Suite, iv: Bytes, was: Bytes, now: Bytes, next: Bytes, offset: nat, pos: nat, len: nat)
    requires Done(c, iv, was, now, offset, pos) && pos + len <= |was| == |next|
    requires next[..pos] == now[..pos] && next[pos + len..] == now[pos + len..]
    requires next[pos..pos + len] == Ctr(c, iv, now[pos..pos + len], offset + pos)
    ensures Done(c, iv, was, next, offset, pos + len)
  {
    CtrConcat(c, iv, was[..pos], was[pos..pos + len], offset);
    assert was[..pos + len] == was[..pos] + was[pos..pos + len];
    assert next[..pos + len] == next[..pos] + next[pos..pos + len];
    assert now[pos..pos + len] == now[pos..][..len] == was[pos..pos + len];
    assert now[pos + len..] == now[pos..][len..] == was[pos + len..];
  }

  /** One step of the encoder: len bytes at pos, all in one block. */
  method XorNext(c: Suite, iv: Bytes, data: array<bv8>, start: nat, n: nat, pos: nat, counter: nat, r: nat, len: nat,
                 ghost was: Bytes, offset: nat)
    requires start + n <= data.Length && pos + len <= n && r + len <= BLOCK && offset + pos == 16 * counter + r
    requires Done(c, iv, was, data[start..start + n], offset, pos)
    modifies data
    ensures Done(c, iv, was, data[start..start + n], offset, pos + len)
    ensures data[..start] == old(data[..start]) && data[start + n..] == old(data[start + n..])
  {
    hide Ctr;
    hide Done;
    ghost var now, all := data[start..start + n], data[..];
    Part(all, start, n, pos, len);
    DoneIsSound(c, iv, was, now, offset, pos);
    XorPart(c, iv, data, start + pos, counter, r, len);
    ghost var next := data[start..start + n];
    Part(data[..], start, n, pos, len);
    DoneStep(c, iv, was, now, next, offset, pos, len);
  }

  lemma DoneIsSound(c: Suite, iv: Bytes, was: Bytes, now: Bytes, offset: nat, pos: nat)
    requires Done(c, iv, was, now, offset, pos)
    ensures Sound(c) && |iv| == BLOCK && |was| == |now|
  {
  }

  lemma Part(s: Bytes, start: nat, n: nat, pos: nat, len: nat)
    requires start + n <= |s| && pos + len <= n
    ensures s[start..start + n][pos..pos + len] == s[start + pos..start + pos + len]
    ensures s[start..start + n][..pos] == s[start..start + pos]
    ensures s[start..start + n][pos + len..] == s[start + pos + len..start + n]
  {
    var t := s[start..start + n];
    var m, m' := t[pos..pos + len], s[start + pos..start + pos + len];
    assert |m| == |m'| && forall i :: 0 <= i < |m| ==> m[i] == t[pos + i] == m'[i];
    assert m == m';
    assert t[..pos] == s[start..start + pos];
    assert t[pos + len..] == s[start + pos + len..start + n];
  }

  /** How many bytes the step before the first whole block works on. */
  function HeadLen(offset: nat): (r: nat)
    ensures r < 16
  {
    if offset % 16 == 0 then 0 else 16 - offset % 16
  }

  /** It stays inside the range exactly when the range begins or ends on a block boundary or
      crosses one. */
  lemma HeadFits(offset: nat, n: nat)
    ensures HeadLen(offset) <= n <==> offset % 16 == 0 || offset / 16 < (offset + n) / 16
  {
  }

  /**
   psync_crypto_aes256_ctr_encode_decode_inplace on n bytes of a buffer. A range that
   starts inside a block must reach that block's end.
   */
  method CtrInPlace(c: Suite, iv: Bytes, data: array<bv8>, start: nat, n: nat, offset: nat)
    requires Sound(c) && |iv| == BLOCK && start + n <= data.Length
    requires HeadLen(offset) <= n
    modifies data
    ensures data[start..start + n] == Ctr(c, iv, old(data[start..start + n]), offset)
    ensures AllCombined(c, iv, old(data[start..start + n]), data[start..start + n], offset)
    ensures data[..start] == old(data[..start]) && data[start + n..] == old(data[start + n..])
  {
    hide AllCombined;
    ghost var was := data[start..start + n];
    var counter, pos: nat, dataLen := offset / 16, 0, n;
    if offset % 16 != 0 {
      var blockRem := 16 - offset % 16;
      XorNext(c, iv, data, start, n, pos, counter, offset % 16, blockRem, was, offset);
      dataLen := dataLen - blockRem;
      counter := counter + 1;
      pos := pos + blockRem;
    }
    var blocksRem := dataLen / 16;
    dataLen := dataLen - blocksRem * 16;
    counter, pos := XorBlocks(c, iv, data, start, n, pos, counter, blocksRem, was, offset);
    if dataLen != 0 {
      XorNext(c, iv, data, start, n, pos, counter, 0, dataLen, was, offset);
      pos := pos + dataLen;
    }
    assert was[..n] == was && data[start..start + n][..n] == data[start..start + n];
    CtrByteByByte(c, iv, was, offset);
  }

  method XorBlocks(c: Suite, iv: Bytes, data: array<bv8>, start: nat, n: nat, from: nat, first: nat, blocks: nat,
                     ghost was: Bytes, offset: nat)
    returns (counter: nat, pos: nat)
    requires start + n <= data.Length && from + 16 * blocks <= n && offset + from == 16 * first
    requires Done(c, iv, was, data[start..start + n], offset, from)
    modifies data
    ensures counter == first + blocks && pos == from + 16 * blocks
    ensures Done(c, iv, was, data[start..start + n], offset, pos)
    ensures data[..start] == old(data[..start]) && data[start + n..] == old(data[start + n..])
  {
    hide Done;
    counter, pos := first, from;
    var blocksRem := blocks;
    while blocksRem != 0
      invariant 0 <= blocksRem && counter + blocksRem == first + blocks && pos + 16 * blocksRem == from + 16 * blocks
      invariant Done(c, iv, was, data[start..start + n], offset, pos)
      invariant data[..start] == old(data[..start]) && data[start + n..] == old(data[start + n..])
      decreases blocksRem
    {
      XorNext(c, iv, data, start, n, pos, counter, 0, 16, was, offset);
      blocksRem := blocksRem - 1;
      counter := counter + 1;
      pos := pos + 16;
    }
  }
}
