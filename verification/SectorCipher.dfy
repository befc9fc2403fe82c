/**
 Sector encryption: the chain is started from a prefix of an HMAC over data, sector
 number and a random block; sectors below one block have a form of their own.
 */
module SectorCipher {
  import opened Cbc
  import opened CryptoPrimitives
  import opened SectorChain

  // ---- whole sectors ----

  datatype Encoded = Encoded(out: Bytes, auth: Bytes)
  datatype Decoded = Decoded(data: Bytes, rnd: Bytes, tag: Bytes)

  /** The authenticator's content: the first 16 bytes of an HMAC. */
  function Tag(c: Suite, key: Bytes, data: Bytes, sectorId: Bytes, rnd: Bytes): (r: Bytes)
    requires Sound(c)
    ensures |r| == BLOCK
  {
    Hmac(c, key, data + sectorId + rnd)[..BLOCK]
  }

  function EncodeTwo(c: Suite, b: Bytes): (r: Bytes)
    requires Sound(c) && |b| == 32
    ensures |r| == 32
  {
    Enc(c, b[..BLOCK]) + Enc(c, b[BLOCK..])
  }

  function DecodeTwo(c: Suite, b: Bytes): (r: Bytes)
    requires Sound(c) && |b| == 32
    ensures |r| == 32
  {
    Dec(c, b[..BLOCK]) + Dec(c, b[BLOCK..])
  }

  lemma {:induction false} TwoRoundTrip(c: Suite, b: Bytes)
    requires Sound(c) && |b| == 32
    ensures DecodeTwo(c, EncodeTwo(c, b)) == b && EncodeTwo(c, DecodeTwo(c, b)) == b
  {
    assert b == b[..BLOCK] + b[BLOCK..];
    DecEnc(c, b[..BLOCK]);
    DecEnc(c, b[BLOCK..]);
    EncDec(c, b[..BLOCK]);
    EncDec(c, b[BLOCK..]);
    assert EncodeTwo(c, b)[..BLOCK] == Enc(c, b[..BLOCK]) && EncodeTwo(c, b)[BLOCK..] == Enc(c, b[BLOCK..]);
    assert DecodeTwo(c, b)[..BLOCK] == Dec(c, b[..BLOCK]) && DecodeTwo(c, b)[BLOCK..] == Dec(c, b[BLOCK..]);
  }

  /** Random block and tag as they are interleaved before encryption. */
  function Interleave(rnd: Bytes, tag: Bytes): (r: Bytes)
    requires |rnd| == BLOCK && |tag| == BLOCK
    ensures |r| == 32
  {
    rnd[..8] + tag + rnd[8..]
  }

  function EncodeSector(c: Suite, key: Bytes, data: Bytes, sectorId: Bytes, rnd: Bytes): (r: Encoded)
    requires Sound(c) && |rnd| == BLOCK
    ensures |r.out| == |data| && |r.auth| == 32
  {
    var tag := Tag(c, key, data, sectorId, rnd);
    if |data| < BLOCK then
      Encoded(rnd[..|data|], EncodeTwo(c, Xor(rnd[..|data|], data) + rnd[|data|..] + tag))
    else
      Encoded(ChainEncode(c, tag, data), EncodeTwo(c, Interleave(rnd, tag)))
  }

  /** What decoding reads out of a sector before the tag is checked. */
  function Open(c: Suite, data: Bytes, auth: Bytes): (r: Decoded)
    requires Sound(c) && |auth| == 32
    ensures |r.data| == |data| && |r.rnd| == BLOCK && |r.tag| == BLOCK
  {
    var h := DecodeTwo(c, auth);
    if |data| < BLOCK then
      Decoded(Xor(h[..|data|], data), data + h[|data|..BLOCK], h[BLOCK..])
    else
      Decoded(ChainDecode(c, h[8..24], data), h[..8] + h[24..], h[8..24])
  }

  /** Status 0 for an authentic sector, -1 otherwise. */
  function Status(c: Suite, key: Bytes, d: Decoded, sectorId: Bytes): int
    requires Sound(c)
  {
    if Tag(c, key, d.data, sectorId, d.rnd) == d.tag then 0 else -1
  }

  /** Opening an encoded sector recovers data, random block and tag. */
  lemma {:induction false} OpenEncoded(c: Suite, key: Bytes, data: Bytes, sectorId: Bytes, rnd: Bytes)
    requires Sound(c) && |rnd| == BLOCK
    ensures var e := EncodeSector(c, key, data, sectorId, rnd);
            Open(c, e.out, e.auth) == Decoded(data, rnd, Tag(c, key, data, sectorId, rnd))
  {
    var n := |data|;
    var tag := Tag(c, key, data, sectorId, rnd);
    if n < BLOCK {
      var h := Xor(rnd[..n], data) + rnd[n..] + tag;
      TwoRoundTrip(c, h);
      assert h[..n] == Xor(rnd[..n], data) && h[n..BLOCK] == rnd[n..] && h[BLOCK..] == tag;
      XorSwaps(rnd[..n], data);
      XorCancels(data, rnd[..n]);
      assert rnd[..n] + rnd[n..] == rnd;
    } else {
      var h := Interleave(rnd, tag);
      TwoRoundTrip(c, h);
      assert h[8..24] == tag && h[..8] == rnd[..8] && h[24..] == rnd[8..];
      assert rnd[..8] + rnd[8..] == rnd;
      ChainRoundTrip(c, tag, data);
    }
  }

  /** Decoding an encoded sector gives the data back with status 0. */
  lemma {:induction false} SectorRoundTrip(c: Suite, key: Bytes, data: Bytes, sectorId: Bytes, rnd: Bytes)
    requires Sound(c) && |rnd| == BLOCK
    ensures var e := EncodeSector(c, key, data, sectorId, rnd);
            var d := Open(c, e.out, e.auth);
            d.data == data && Status(c, key, d, sectorId) == 0
  {
    OpenEncoded(c, key, data, sectorId, rnd);
  }

  // ---- what the tag covers ----

  ghost predicate SameTag(c: Suite, key: Bytes, d1: Decoded, id1: Bytes, d2: Decoded, id2: Bytes) {
    Sound(c) ==> Tag(c, key, d1.data, id1, d1.rnd) == Tag(c, key, d2.data, id2, d2.rnd)
  }

  /** Data, sector number and random block can be told from their concatenation. */
  lemma PartsTold(d1: Bytes, id1: Bytes, r1: Bytes, d2: Bytes, id2: Bytes, r2: Bytes)
    requires |id1| == |id2| && |r1| == |r2|
    ensures d1 + id1 + r1 == d2 + id2 + r2 <==> d1 == d2 && id1 == id2 && r1 == r2
  {
    var m1, m2 := d1 + id1 + r1, d2 + id2 + r2;
    if m1 == m2 {
      var n := |d1|;
      assert |d2| == n;
      assert m1[..n] == d1 && m2[..n] == d2;
      assert m1[n..n + |id1|] == id1 && m2[n..n + |id1|] == id2;
      assert m1[n + |id1|..] == r1 && m2[n + |id1|..] == r2;
    }
  }

  /** The tag depends on every byte of the data, of the sector number and of the random
      block: two sectors have the same tag under every hash only if all three agree. */
  lemma {:induction false} TagCovers(key: Bytes, d1: Decoded, id1: Bytes, d2: Decoded, id2: Bytes)
    requires |id1| == |id2| == 8 && |d1.rnd| == |d2.rnd| == BLOCK
    ensures (forall c: Suite :: SameTag(c, key, d1, id1, d2, id2))
       <==> d1.data == d2.data && id1 == id2 && d1.rnd == d2.rnd
  {
    hide Hmac;
    var m1, m2 := d1.data + id1 + d1.rnd, d2.data + id2 + d2.rnd;
    PartsTold(d1.data, id1, d1.rnd, d2.data, id2, d2.rnd);
    HmacTells(key, m1, m2, BLOCK);
    if m1 != m2 {
      var c: Suite :| !SameCode(c, key, m1, m2, BLOCK);
      assert !SameTag(c, key, d1, id1, d2, id2);
    }
  }

  ghost predicate AcceptsAs(c: Suite, key: Bytes, data: Bytes, rnd: Bytes, id1: Bytes, id2: Bytes)
    requires |rnd| == BLOCK
  {
    Sound(c) ==>
      var e := EncodeSector(c, key, data, id1, rnd);
      Status(c, key, Open(c, e.out, e.auth), id2) == 0
  }

  /** A sector written under one number is accepted under another, whatever the hash, only
      if they are the same number. */
  lemma {:induction false} NumberCounts(key: Bytes, data: Bytes, rnd: Bytes, id1: Bytes, id2: Bytes)
    requires |rnd| == BLOCK && |id1| == |id2| == 8
    ensures (forall c: Suite :: AcceptsAs(c, key, data, rnd, id1, id2)) <==> id1 == id2
  {
    hide Tag;
    hide EncodeSector;
    hide Open;
    var d := Decoded(data, rnd, []);
    TagCovers(key, d, id1, d, id2);
    forall c: Suite
      ensures AcceptsAs(c, key, data, rnd, id1, id2) <==> SameTag(c, key, d, id1, d, id2)
    {
      if Sound(c) {
        OpenEncoded(c, key, data, id1, rnd);
      }
    }
    if id1 != id2 {
      var c: Suite :| !SameTag(c, key, d, id1, d, id2);
      assert !AcceptsAs(c, key, data, rnd, id1, id2);
    }
  }

  /**
   The bytes of an encoded sector, from the standards alone. The tag is the start of the
   code of section 2 of RFC 2104 over data, number and random block; it stands between the
   halves of the random block in the authenticator and starts the chain, which is CBC, or
   CBC-CS2 where the last block is not whole. Below one block the random block takes the
   place of the data, which are mixed into it.
   */
  lemma {:induction false} SectorFormat(c: Suite, key: Bytes, data: Bytes, sectorId: Bytes, rnd: Bytes)
    requires Sound(c) && |rnd| == BLOCK && |sectorId| == 8 && |key| <= SHA512_BLOCK
    ensures var e := EncodeSector(c, key, data, sectorId, rnd);
            var n := |data|;
            var t := RfcHmac(c, key, data + (sectorId + rnd))[..16];
            if n < 16 then
              && e.out == rnd[..n]
              && e.auth == Enc(c, Xor(data, rnd[..n]) + rnd[n..]) + Enc(c, t)
            else
              && e.auth == Enc(c, rnd[..8] + t[..8]) + Enc(c, t[8..] + rnd[8..])
              && e.out == if n % 16 == 0 then CbcEncode(c, t, data) else Cs2(c, t, data)
  {
    hide Hmac;
    hide RfcHmac;
    hide ChainEncode;
    hide Cs2;
    var n := |data|;
    assert data + (sectorId + rnd) == data + sectorId + rnd;
    RfcIsHmac(c, key, data + sectorId + rnd);
    var t := Tag(c, key, data, sectorId, rnd);
    if n < 16 {
      XorSwaps(rnd[..n], data);
      var b := Xor(rnd[..n], data) + rnd[n..] + t;
      assert b[..BLOCK] == Xor(rnd[..n], data) + rnd[n..] && b[BLOCK..] == t;
    } else {
      var b := Interleave(rnd, t);
      assert b[..BLOCK] == rnd[..8] + t[..8] && b[BLOCK..] == t[8..] + rnd[8..];
      if n % 16 == 0 {
        ChainIsCbc(c, t, data);
      } else {
        ChainIsCs2(c, t, data);
      }
    }
  }

  /**
   Status 0 means exactly that the sector is an encoding under this key and sector
   number: the decoder accepts nothing the encoder could not have written.
   */
  lemma {:induction false} AcceptedIsEncoded(c: Suite, key: Bytes, data: Bytes, auth: Bytes, sectorId: Bytes)
    requires Sound(c) && |auth| == 32
    ensures Status(c, key, Open(c, data, auth), sectorId) == 0
       <==> exists plain, rnd :: |rnd| == BLOCK && EncodeSector(c, key, plain, sectorId, rnd) == Encoded(data, auth)
  {
    var d := Open(c, data, auth);
    if Status(c, key, d, sectorId) == 0 {
      ReencodeAccepted(c, key, data, auth, sectorId);
    }
    forall plain, rnd | |rnd| == BLOCK && EncodeSector(c, key, plain, sectorId, rnd) == Encoded(data, auth)
      ensures Status(c, key, d, sectorId) == 0
    {
      OpenEncoded(c, key, plain, sectorId, rnd);
    }
  }

  lemma {:induction false} ReencodeAccepted(c: Suite, key: Bytes, data: Bytes, auth: Bytes, sectorId: Bytes)
    requires Sound(c) && |auth| == 32
    requires Status(c, key, Open(c, data, auth), sectorId) == 0
    ensures var d := Open(c, data, auth);
            EncodeSector(c, key, d.data, sectorId, d.rnd) == Encoded(data, auth)
  {
    if |data| < BLOCK {
      ReencodeShort(c, key, data, auth, sectorId);
    } else {
      var d := Open(c, data, auth);
      var h := DecodeTwo(c, auth);
      TwoRoundTrip(c, auth);
      assert d.rnd[..8] == h[..8] && d.rnd[8..] == h[24..];
      assert Interleave(d.rnd, d.tag) == h;
      ChainOnto(c, d.tag, data);
    }
  }

  lemma {:induction false} ReencodeShort(c: Suite, key: Bytes, data: Bytes, auth: Bytes, sectorId: Bytes)
    requires Sound(c) && |auth| == 32 && |data| < BLOCK
    requires Status(c, key, Open(c, data, auth), sectorId) == 0
    ensures var d := Open(c, data, auth);
            EncodeSector(c, key, d.data, sectorId, d.rnd) == Encoded(data, auth)
  {
    var n := |data|;
    var d := Open(c, data, auth);
    var h := DecodeTwo(c, auth);
    TwoRoundTrip(c, auth);
    assert d.rnd[..n] == data && d.rnd[n..] == h[n..BLOCK];
    XorSwaps(data, d.data);
    XorCancels(h[..n], data);
    assert Xor(d.rnd[..n], d.data) + d.rnd[n..] + d.tag == h;
  }

  // ---- the code ----

  /** psync_crypto_aes256_encode_sector: data and out are different buffers. */
  method EncodeSectorBuffers(c: Suite, key: Bytes, data: array<bv8>, n: nat, out: array<bv8>, authOut: array<bv8>,
                             sectorId: Bytes, rnd: Bytes)
    requires Sound(c) && |rnd| == BLOCK && |sectorId| == 8
    requires n <= data.Length && n <= out.Length && authOut.Length == 32
    requires data != out && data != authOut && out != authOut
    modifies out, authOut
    ensures EncodeSector(c, key, data[..n], sectorId, rnd) == Encoded(out[..n], authOut[..])
    ensures out[n..] == old(out[n..])
  {
    var ctx := new HmacContext.Init(key);
    ctx.Update(data[..n]);
    ctx.Update(sectorId);
    ctx.Update(rnd);
    var hmac := ctx.Final(c, key, data[..n] + sectorId + rnd);
    ghost var tag := hmac[..BLOCK];
    if n < BLOCK {
      var src := Xor(rnd[..n], data[..n]) + rnd[n..];
      Store(out, 0, rnd[..n]);
      Store(authOut, 0, EncodeTwo(c, src + hmac[..BLOCK]));
      return;
    }
    Store(authOut, 0, EncodeTwo(c, rnd[..8] + hmac[..BLOCK] + rnd[8..]));
    ghost var auth := authOut[..];
    EncodeBody(c, hmac[..BLOCK], data, n, out);
    assert authOut[..] == auth;
  }

  /** What is written so far, followed by the encoding of what is not read yet,
      is the whole result. */
  ghost predicate Encoding(c: Suite, done: Bytes, prev: Bytes, rest: Bytes, whole: Bytes) {
    && Sound(c) && |prev| == BLOCK && (|rest| == 0 || |rest| >= BLOCK)
    && done + ChainEncode(c, prev, rest) == whole
  }

  /** The block loop and the stolen tail. */
  method EncodeBody(c: Suite, tag: Bytes, data: array<bv8>, n: nat, out: array<bv8>)
    requires Sound(c) && |tag| == BLOCK && BLOCK <= n <= data.Length && n <= out.Length && data != out
    modifies out
    ensures out[..n] == ChainEncode(c, tag, data[..n])
    ensures out[n..] == old(out[n..])
  {
    var needSteal := n % 16;
    var dataLen := if needSteal != 0 then n - needSteal - BLOCK else n;
    ghost var whole := ChainEncode(c, tag, data[..n]);
    assert out[..0] + whole == whole;
    var src := EncodeOnes(c, tag, data, dataLen, dataLen / 16, n, out, whole);
    if needSteal != 0 {
      EncodeSteal(c, src, data, dataLen, n, out, needSteal);
    }
  }

  method EncodeOnes(c: Suite, tag: Bytes, data: array<bv8>, end: nat, ghost blocks: nat, n: nat, out: array<bv8>,
                    ghost whole: Bytes)
    returns (src: Bytes)
    requires end <= n <= data.Length && n <= out.Length && data != out
    requires end == 16 * blocks && (end == n || end + 16 <= n)
    requires Encoding(c, out[..0], tag, data[0..n], whole)
    modifies out
    ensures Encoding(c, out[..end], src, data[end..n], whole)
    ensures out[n..] == old(out[n..])
  {
    hide Encoding;
    src := tag;
    var dataLen, pos := end, 0;
    ghost var left := blocks;
    while dataLen > 0
      invariant 0 <= left && dataLen == 16 * left && pos + dataLen == end
      invariant Encoding(c, out[..pos], src, data[pos..n], whole)
      invariant out[n..] == old(out[n..])
    {
      src := EncodeOne(c, src, data, pos, n, out, whole);
      dataLen := dataLen - 16;
      pos := pos + 16;
      left := left - 1;
    }
  }

  method EncodeOne(c: Suite, src: Bytes, data: array<bv8>, pos: nat, n: nat, out: array<bv8>, ghost whole: Bytes)
    returns (dst: Bytes)
    requires pos + BLOCK <= n <= data.Length && n <= out.Length && data != out
    requires pos + BLOCK == n || pos + 32 <= n
    requires Encoding(c, out[..pos], src, data[pos..n], whole)
    modifies out
    ensures Encoding(c, out[..pos + BLOCK], dst, data[pos + BLOCK..n], whole)
    ensures out[n..] == old(out[n..])
  {
    hide ChainEncode;
    var b := data[pos..pos + BLOCK];
    dst := Enc(c, Xor(src, b));
    Store(out, pos, dst);
    assert data[pos..n] == b + data[pos + BLOCK..n];
    EncodingStep(c, old(out[..pos]), src, b, data[pos + BLOCK..n], whole);
    assert out[..pos + BLOCK] == old(out[..pos]) + dst;
  }

  lemma {:induction false} EncodingStep(c: Suite, done: Bytes, src: Bytes, b: Bytes, rest: Bytes, whole: Bytes)
    requires |b| == BLOCK && (|rest| == 0 || |rest| >= BLOCK)
    requires Encoding(c, done, src, b + rest, whole)
    ensures Encoding(c, done + Enc(c, Xor(src, b)), Enc(c, Xor(src, b)), rest, whole)
  {
    var dst := Enc(c, Xor(src, b));
    XorSwaps(src, b);
    EncodeBlock(c, src, b, rest);
    Regroup(done, dst, ChainEncode(c, dst, rest));
  }

  lemma {:induction false} Regroup(a: Bytes, b: Bytes, c: Bytes)
    ensures a + (b + c) == (a + b) + c
  {
  }

  method EncodeSteal(c: Suite, src: Bytes, data: array<bv8>, pos: nat, n: nat, out: array<bv8>, needSteal: nat)
    requires Sound(c) && |src| == BLOCK && 0 < needSteal < BLOCK && pos + BLOCK + needSteal == n
    requires n <= data.Length && n <= out.Length && data != out
    modifies out
    ensures out[..n] == old(out[..pos]) + ChainEncode(c, src, data[pos..n])
    ensures out[n..] == old(out[n..])
  {
    ghost var rest := data[pos..n];
    assert rest[..BLOCK] == data[pos..pos + BLOCK] && rest[BLOCK..] == data[pos + BLOCK..n];
    var dst := Enc(c, Xor(src, data[pos..pos + BLOCK]));
    XorSwaps(src, data[pos..pos + BLOCK]);
    Store(out, pos + BLOCK, dst[..needSteal]);
    var mixed := Xor(dst[..needSteal], data[pos + BLOCK..n]) + dst[needSteal..];
    Store(out, pos, Enc(c, mixed));
    assert out[..pos] == old(out[..pos]);
    assert out[..n] == out[..pos] + (out[pos..pos + BLOCK] + out[pos + BLOCK..n]);
  }

  /** psync_crypto_aes256_decode_sector: out may be the data buffer itself. */
  method DecodeSectorBuffers(c: Suite, key: Bytes, data: array<bv8>, n: nat, out: array<bv8>, auth: array<bv8>,
                             sectorId: Bytes)
    returns (status: int)
    requires Sound(c) && |sectorId| == 8
    requires n <= data.Length && n <= out.Length && auth.Length == 32 && auth != out
    modifies out
    ensures var d := Open(c, old(data[..n]), auth[..]);
            out[..n] == d.data && status == Status(c, key, d, sectorId)
    ensures out[n..] == old(out[n..])
  {
    ghost var input := data[..n];
    var hmac := DecodeTwo(c, auth[..]);
    var rnd, tag;
    if n < BLOCK {
      var plain := Xor(hmac[..n], data[..n]);
      rnd, tag := data[..n] + hmac[n..BLOCK], hmac[BLOCK..];
      Store(out, 0, plain);
      assert out[..n] == plain;
    } else {
      rnd, tag := hmac[..8] + hmac[24..], hmac[8..24];
      DecodeBody(c, tag, data, n, out);
    }
    var ctx := new HmacContext.Init(key);
    ctx.Update(out[..n]);
    ctx.Update(sectorId);
    ctx.Update(rnd);
    var check := ctx.Final(c, key, out[..n] + sectorId + rnd);
    var differ := MemcmpConst(check, tag, BLOCK);
    assert tag[..BLOCK] == tag;
    status := if differ == 0 then 0 else -1;
  }

  /** What is written so far, followed by the decoding of what is not read yet,
      is the whole result. */
  ghost predicate Decoding(c: Suite, done: Bytes, prev: Bytes, rest: Bytes, whole: Bytes) {
    && Sound(c) && |prev| == BLOCK && (|rest| == 0 || |rest| >= BLOCK)
    && done + ChainDecode(c, prev, rest) == whole
  }

  /** Four blocks at a time, then single blocks, then the stolen tail. */
  method DecodeBody(c: Suite, tag: Bytes, data: array<bv8>, n: nat, out: array<bv8>)
    requires Sound(c) && |tag| == BLOCK && BLOCK <= n <= data.Length && n <= out.Length
    modifies out
    ensures out[..n] == ChainDecode(c, tag, old(data[..n]))
    ensures out[n..] == old(out[n..])
  {
    hide ChainDecode;
    hide Decoding;
    var needSteal := n % 16;
    var dataLen := if needSteal != 0 then n - needSteal - BLOCK else n;
    ghost var whole := ChainDecode(c, tag, data[..n]);
    assert out[..0] == [] && data[0..n] == data[..n];
    DecodingStarts(c, tag, data[..n]);
    ghost var left := BlockCount(n, needSteal, dataLen);
    var prev, pos := DecodeFours(c, tag, data, dataLen, left, n, out, whole);
    prev := DecodeOnes(c, prev, data, pos, dataLen, left - pos / 16, n, out, whole);
    DecodingSoFar(c, out[..dataLen], prev, data[dataLen..n], whole);
    if needSteal != 0 {
      DecodeSteal(c, prev, data, dataLen, n, out, needSteal);
    } else {
      assert data[dataLen..n] == [];
    }
  }

  lemma {:induction false} DecodingStarts(c: Suite, tag: Bytes, data: Bytes)
    requires Sound(c) && |tag| == BLOCK && |data| >= BLOCK
    ensures Decoding(c, [], tag, data, ChainDecode(c, tag, data))
  {
  }

  lemma {:induction false} DecodingSoFar(c: Suite, done: Bytes, prev: Bytes, rest: Bytes, whole: Bytes)
    requires Decoding(c, done, prev, rest, whole)
    ensures Sound(c) && |prev| == BLOCK && (|rest| == 0 || |rest| >= BLOCK)
    ensures done + ChainDecode(c, prev, rest) == whole
    ensures rest == [] ==> done == whole
  {
  }

  lemma BlockCount(n: nat, needSteal: nat, dataLen: nat) returns (left: nat)
    requires n >= 16 && needSteal == n % 16 && dataLen == if needSteal != 0 then n - needSteal - 16 else n
    ensures dataLen == 16 * left
  {
    left := dataLen / 16;
  }

  method DecodeFours(c: Suite, tag: Bytes, data: array<bv8>, end: nat, ghost blocks: nat, n: nat, out: array<bv8>,
                     ghost whole: Bytes)
    returns (prev: Bytes, pos: nat)
    requires end <= n <= data.Length && n <= out.Length
    requires end == 16 * blocks && (end == n || end + 16 <= n)
    requires Decoding(c, out[..0], tag, data[0..n], whole)
    modifies out
    ensures pos <= end < pos + 64 && pos % 16 == 0
    ensures Decoding(c, out[..pos], prev, data[pos..n], whole)
    ensures out[n..] == old(out[n..])
  {
    hide Decoding;
    var dataLen := end;
    prev, pos := tag, 0;
    ghost var left := blocks;
    while dataLen >= 64
      invariant 0 <= left && dataLen == 16 * left && pos + dataLen == end
      invariant Decoding(c, out[..pos], prev, data[pos..n], whole)
      invariant out[n..] == old(out[n..])
    {
      prev := DecodeFour(c, prev, data, pos, n, out, whole);
      dataLen := dataLen - 64;
      pos := pos + 64;
      left := left - 4;
    }
    assert pos == 16 * (blocks - left);
  }

  method DecodeOnes(c: Suite, tag: Bytes, data: array<bv8>, start: nat, end: nat, ghost blocks: nat, n: nat,
                    out: array<bv8>, ghost whole: Bytes)
    returns (prev: Bytes)
    requires start <= end <= n <= data.Length && n <= out.Length
    requires end == start + 16 * blocks && (end == n || end + 16 <= n)
    requires Decoding(c, out[..start], tag, data[start..n], whole)
    modifies out
    ensures Decoding(c, out[..end], prev, data[end..n], whole)
    ensures out[n..] == old(out[n..])
  {
    hide Decoding;
    prev := tag;
    var dataLen, pos := end - start, start;
    ghost var left := blocks;
    while dataLen > 0
      invariant 0 <= left && dataLen == 16 * left && pos + dataLen == end
      invariant Decoding(c, out[..pos], prev, data[pos..n], whole)
      invariant out[n..] == old(out[n..])
    {
      prev := DecodeOne(c, prev, data, pos, n, out, whole);
      dataLen := dataLen - 16;
      pos := pos + 16;
      left := left - 1;
    }
  }

  method DecodeOne(c: Suite, prev: Bytes, data: array<bv8>, pos: nat, n: nat, out: array<bv8>, ghost whole: Bytes)
    returns (src: Bytes)
    requires pos + BLOCK <= n <= data.Length && n <= out.Length
    requires pos + BLOCK == n || pos + 32 <= n
    requires Decoding(c, out[..pos], prev, data[pos..n], whole)
    modifies out
    ensures Decoding(c, out[..pos + BLOCK], src, data[pos + BLOCK..n], whole)
    ensures out[n..] == old(out[n..])
  {
    hide ChainDecode;
    ghost var rest := data[pos + BLOCK..n];
    src := data[pos..pos + BLOCK];
    assert data[pos..n] == src + rest;
    var dst := Xor(Dec(c, src), prev);
    Store(out, pos, dst);
    DecodingStep(c, old(out[..pos]), prev, src, rest, whole);
    assert data[pos + BLOCK..n] == rest;
    assert out[..pos + BLOCK] == old(out[..pos]) + dst;
  }

  lemma {:induction false} DecodingStep(c: Suite, done: Bytes, prev: Bytes, src: Bytes, rest: Bytes, whole: Bytes)
    requires |src| == BLOCK && (|rest| == 0 || |rest| >= BLOCK)
    requires Decoding(c, done, prev, src + rest, whole)
    ensures Decoding(c, done + Xor(Dec(c, src), prev), src, rest, whole)
  {
    DecodeBlock(c, prev, src, rest);
    Regroup(done, Xor(Dec(c, src), prev), ChainDecode(c, src, rest));
  }

  /** Four ciphertext blocks; each is combined with the one before it. */
  function FourBlocks(c: Suite, src: Bytes, prev: Bytes): (r: Bytes)
    requires Sound(c) && |src| == 64 && |prev| == BLOCK
    ensures |r| == 64
  {
    Xor(Dec(c, src[..16]), prev) + (Xor(Dec(c, src[16..32]), src[..16])
    + (Xor(Dec(c, src[32..48]), src[16..32]) + Xor(Dec(c, src[48..]), src[32..48])))
  }

  lemma {:induction false} DecodeFourBlocks(c: Suite, prev: Bytes, src: Bytes, rest: Bytes)
    requires Sound(c) && |prev| == BLOCK && |src| == 64 && (|rest| == 0 || |rest| >= BLOCK)
    ensures ChainDecode(c, prev, src + rest) == FourBlocks(c, src, prev) + ChainDecode(c, src[48..], rest)
  {
    var b0, b1, b2, b3 := src[..16], src[16..32], src[32..48], src[48..];
    DecodeBlock(c, b2, b3, rest);
    DecodeBlock(c, b1, b2, b3 + rest);
    DecodeBlock(c, b0, b1, b2 + (b3 + rest));
    DecodeBlock(c, prev, b0, b1 + (b2 + (b3 + rest)));
    assert src + rest == b0 + (b1 + (b2 + (b3 + rest)));
    RegroupFour(Xor(Dec(c, b0), prev), Xor(Dec(c, b1), b0), Xor(Dec(c, b2), b1), Xor(Dec(c, b3), b2),
                ChainDecode(c, b3, rest));
  }

  lemma {:induction false} RegroupFour(a: Bytes, b: Bytes, c: Bytes, d: Bytes, r: Bytes)
    ensures a + (b + (c + (d + r))) == (a + (b + (c + d))) + r
  {
  }

  method DecodeFour(c: Suite, prev: Bytes, data: array<bv8>, pos: nat, n: nat, out: array<bv8>, ghost whole: Bytes)
    returns (last: Bytes)
    requires pos + 64 <= n <= data.Length && n <= out.Length
    requires pos + 64 == n || pos + 80 <= n
    requires Decoding(c, out[..pos], prev, data[pos..n], whole)
    modifies out
    ensures Decoding(c, out[..pos + 64], last, data[pos + 64..n], whole)
    ensures out[n..] == old(out[n..])
  {
    hide ChainDecode;
    hide FourBlocks;
    ghost var rest := data[pos + 64..n];
    var src := data[pos..pos + 64];
    assert data[pos..n] == src + rest;
    var dst := FourBlocks(c, src, prev);
    Store(out, pos, dst);
    last := src[48..];
    DecodingFour(c, old(out[..pos]), prev, src, rest, whole);
    assert data[pos + 64..n] == rest;
    assert out[..pos + 64] == old(out[..pos]) + dst;
  }

  lemma {:induction false} DecodingFour(c: Suite, done: Bytes, prev: Bytes, src: Bytes, rest: Bytes, whole: Bytes)
    requires |src| == 64 && (|rest| == 0 || |rest| >= BLOCK)
    requires Decoding(c, done, prev, src + rest, whole)
    ensures Decoding(c, done + FourBlocks(c, src, prev), src[48..], rest, whole)
  {
    hide FourBlocks;
    DecodeFourBlocks(c, prev, src, rest);
    Regroup(done, FourBlocks(c, src, prev), ChainDecode(c, src[48..], rest));
  }

  /** The stolen tail, read before its place is written. */
  method DecodeSteal(c: Suite, prev: Bytes, data: array<bv8>, pos: nat, n: nat, out: array<bv8>, needSteal: nat)
    requires Sound(c) && |prev| == BLOCK && 0 < needSteal < BLOCK && pos + BLOCK + needSteal == n
    requires n <= data.Length && n <= out.Length
    modifies out
    ensures out[..n] == old(out[..pos]) + ChainDecode(c, prev, old(data[pos..n]))
    ensures out[n..] == old(out[n..])
  {
    ghost var rest := data[pos..n];
    assert rest[..BLOCK] == data[pos..pos + BLOCK] && rest[BLOCK..] == data[pos + BLOCK..n];
    var dst := Dec(c, data[pos..pos + BLOCK]);
    var saved := data[pos + BLOCK..n];
    Store(out, pos + BLOCK, Xor(dst[..needSteal], saved));
    Store(out, pos, Xor(Dec(c, saved + dst[needSteal..]), prev));
    assert out[..pos] == old(out[..pos]);
    assert out[..n] == out[..pos] + (out[pos..pos + BLOCK] + out[pos + BLOCK..n]);
  }
}
