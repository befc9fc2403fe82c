/**
 Byte strings, the block cipher and the keyed hash the sector, text and counter
 mode codecs are built from. AES and SHA-512 are parameters: AES is any permutation
 of 16-byte blocks, SHA-512 any function with 64-byte results.
 */
module CryptoPrimitives {

  type Bytes = seq<bv8>

  const BLOCK := 16
  const SHA512_BLOCK := 128
  const SHA512_LEN := 64

  datatype Suite = Suite(enc: Bytes -> Bytes, dec: Bytes -> Bytes, sha512: Bytes -> Bytes)

  ghost predicate Inverse(c: Suite, b: Bytes) {
    |b| == BLOCK ==>
      && |c.enc(b)| == BLOCK && c.dec(c.enc(b)) == b
      && |c.dec(b)| == BLOCK && c.enc(c.dec(b)) == b
  }

  ghost predicate HashLen(c: Suite, m: Bytes) {
    |c.sha512(m)| == SHA512_LEN
  }

  ghost predicate Sound(c: Suite) {
    && (forall b :: Inverse(c, b))
    && (forall m :: HashLen(c, m))
  }

  function Enc(c: Suite, b: Bytes): (r: Bytes)
    requires Sound(c) && |b| == BLOCK
    ensures |r| == BLOCK
  {
    assert Inverse(c, b);
    c.enc(b)
  }

  function Dec(c: Suite, b: Bytes): (r: Bytes)
    requires Sound(c) && |b| == BLOCK
    ensures |r| == BLOCK
  {
    assert Inverse(c, b);
    c.dec(b)
  }

  function Sha512(c: Suite, m: Bytes): (r: Bytes)
    requires Sound(c)
    ensures |r| == SHA512_LEN
  {
    assert HashLen(c, m);
    c.sha512(m)
  }

  lemma DecEnc(c: Suite, b: Bytes)
    requires Sound(c) && |b| == BLOCK
    ensures Dec(c, Enc(c, b)) == b
  {
    assert Inverse(c, b);
  }

  lemma EncDec(c: Suite, b: Bytes)
    requires Sound(c) && |b| == BLOCK
    ensures Enc(c, Dec(c, b)) == b
  {
    assert Inverse(c, b);
  }

  /** The first string, byte by byte combined with the start of the second. */
  function Xor(a: Bytes, b: Bytes): (r: Bytes)
    requires |a| <= |b|
    ensures |r| == |a|
  {
    seq(|a|, i requires 0 <= i < |a| => a[i] ^ b[i])
  }

  lemma XorCancels(a: Bytes, b: Bytes)
    requires |a| <= |b|
    ensures Xor(Xor(a, b), b) == a
  {
    forall i | 0 <= i < |a|
      ensures Xor(Xor(a, b), b)[i] == a[i]
    {
      XorByte(a[i], b[i]);
    }
  }

  lemma XorByte(x: bv8, y: bv8)
    ensures (x ^ y) ^ y == x && x ^ y == y ^ x
  {
  }

  lemma XorSwaps(a: Bytes, b: Bytes)
    requires |a| == |b|
    ensures Xor(a, b) == Xor(b, a)
  {
    forall i | 0 <= i < |a|
      ensures Xor(a, b)[i] == Xor(b, a)[i]
    {
      XorByte(a[i], b[i]);
    }
  }

  // ---- HMAC ----

  /** The key block of one hash: at most 128 key bytes are used, longer keys are
      cut off rather than hashed first. */
  function KeyPad(key: Bytes, pad: bv8): (r: Bytes)
    ensures |r| == SHA512_BLOCK
  {
    seq(SHA512_BLOCK, i requires 0 <= i < SHA512_BLOCK => if i < |key| then key[i] ^ pad else pad)
  }

  lemma KeyPadStep(key: Bytes, pad: bv8, i: nat)
    requires i < SHA512_BLOCK
    ensures KeyPad(key, pad)[..i + 1] == KeyPad(key, pad)[..i] + [if i < |key| then key[i] ^ pad else pad]
  {
  }

  function Hmac(c: Suite, key: Bytes, msg: Bytes): (r: Bytes)
    requires Sound(c)
    ensures |r| == SHA512_LEN
  {
    Sha512(c, KeyPad(key, 0x5c) + Sha512(c, KeyPad(key, 0x36) + msg))
  }

  /** Keys that agree on their first 128 bytes are the same key. */
  lemma HmacKeyIsCut(c: Suite, key: Bytes, tail: Bytes, msg: Bytes)
    requires Sound(c) && |key| >= SHA512_BLOCK
    ensures Hmac(c, key + tail, msg) == Hmac(c, key, msg)
  {
    assert KeyPad(key + tail, 0x5c) == KeyPad(key, 0x5c);
    assert KeyPad(key + tail, 0x36) == KeyPad(key, 0x36);
  }

  // ---- against the standard ----

  function Fill(n: nat, b: bv8): (r: Bytes)
    ensures |r| == n
  {
    seq(n, _ => b)
  }

  /** Section 2 of RFC 2104: a key longer than a block is hashed first, then filled up with
      zeros to a block and combined with the two pads. */
  function RfcHmac(c: Suite, key: Bytes, msg: Bytes): Bytes
    requires Sound(c)
  {
    var k := if |key| > SHA512_BLOCK then Sha512(c, key) else key;
    var block := k + Fill(SHA512_BLOCK - |k|, 0);
    Sha512(c, Xor(block, Fill(SHA512_BLOCK, 0x5c)) + Sha512(c, Xor(block, Fill(SHA512_BLOCK, 0x36)) + msg))
  }

  lemma PadZero(pad: bv8)
    ensures 0 ^ pad == pad
  {
  }

  /** A key of at most a block is padded as the standard says. */
  lemma KeyPadIsRfc(key: Bytes, pad: bv8)
    requires |key| <= SHA512_BLOCK
    ensures Xor(key + Fill(SHA512_BLOCK - |key|, 0), Fill(SHA512_BLOCK, pad)) == KeyPad(key, pad)
  {
    PadZero(pad);
  }

  lemma RfcIsHmac(c: Suite, key: Bytes, msg: Bytes)
    requires Sound(c)
    ensures RfcHmac(c, key, msg) == Hmac(c, if |key| > SHA512_BLOCK then Sha512(c, key) else key, msg)
  {
    var k := if |key| > SHA512_BLOCK then Sha512(c, key) else key;
    KeyPadIsRfc(k, 0x5c);
    KeyPadIsRfc(k, 0x36);
  }

  function First64(m: Bytes): (r: Bytes)
    ensures |r| == SHA512_LEN
  {
    seq(SHA512_LEN, i requires 0 <= i < SHA512_LEN => if i < |m| then m[i] else 0)
  }

  /** A suite whose hash tells one key from everything else. */
  function Telling(key: Bytes): Suite
    requires |key| > 0
  {
    Suite(b => b, b => b, m => if m == key then Fill(SHA512_LEN, key[0] ^ 1) else First64(m))
  }

  lemma TellingIsSound(key: Bytes)
    requires |key| > 0
    ensures Sound(Telling(key))
  {
    var c := Telling(key);
    forall b
      ensures Inverse(c, b)
    {
    }
    forall m
      ensures HashLen(c, m)
    {
    }
  }

  lemma PadsDiffer(b: bv8)
    ensures b ^ 0x36 != b && b ^ 0x5c != b && (b ^ 1) ^ 0x36 != b && (b ^ 1) ^ 0x5c != b
    ensures (b ^ 1) ^ 0x5c != b ^ 0x5c
  {
  }

  /** With that suite the code of a message starts with the first byte of the outer pad. */
  lemma TellingHmac(key: Bytes, k: Bytes, msg: Bytes)
    requires |key| > 0 && |k| > 0 && k[0] ^ 0x36 != key[0] && k[0] ^ 0x5c != key[0]
    ensures Sound(Telling(key)) && Hmac(Telling(key), k, msg)[0] == k[0] ^ 0x5c
  {
    TellingIsSound(key);
    var c := Telling(key);
    var inner := KeyPad(k, 0x36) + msg;
    assert inner[0] == k[0] ^ 0x36;
    var outer := KeyPad(k, 0x5c) + Sha512(c, inner);
    assert outer[0] == k[0] ^ 0x5c;
    assert outer != key;
  }

  ghost predicate Conforms(c: Suite, key: Bytes, msg: Bytes) {
    Sound(c) ==> Hmac(c, key, msg) == RfcHmac(c, key, msg)
  }

  /** The construction is the standard's, whatever the hash, for keys of at most 128 bytes
      and for no others. */
  lemma RfcExactly(key: Bytes, msg: Bytes)
    ensures (forall c: Suite :: Conforms(c, key, msg)) <==> |key| <= SHA512_BLOCK
  {
    if |key| <= SHA512_BLOCK {
      forall c: Suite
        ensures Conforms(c, key, msg)
      {
        if Sound(c) {
          RfcIsHmac(c, key, msg);
        }
      }
    } else {
      var c := Telling(key);
      PadsDiffer(key[0]);
      TellingIsSound(key);
      RfcIsHmac(c, key, msg);
      TellingHmac(key, key, msg);
      TellingHmac(key, Sha512(c, key), msg);
      assert !Conforms(c, key, msg);
    }
  }

  /** A suite whose hash marks two strings. */
  function Marking(m1: Bytes, m2: Bytes): Suite {
    Suite(b => b, b => b, m => Fill(SHA512_LEN, if m == m1 || m == m2 then 1 else 0))
  }

  lemma MarkingIsSound(m1: Bytes, m2: Bytes)
    ensures Sound(Marking(m1, m2))
  {
    var c := Marking(m1, m2);
    forall b
      ensures Inverse(c, b)
    {
    }
    forall m
      ensures HashLen(c, m)
    {
    }
  }

  ghost predicate SameCode(c: Suite, key: Bytes, m1: Bytes, m2: Bytes, n: nat)
    requires n <= SHA512_LEN
  {
    Sound(c) ==> Hmac(c, key, m1)[..n] == Hmac(c, key, m2)[..n]
  }

  /** The first byte of the inner hash's input is never that of the outer's. */
  lemma InnerIsNotOuter(key: Bytes, m1: Bytes, m2: Bytes)
    ensures KeyPad(key, 0x36) + m1 != KeyPad(key, 0x5c) + m2
  {
    assert (KeyPad(key, 0x36) + m1)[0] == KeyPad(key, 0x36)[0];
    assert (KeyPad(key, 0x5c) + m2)[0] == KeyPad(key, 0x5c)[0];
    if |key| > 0 {
      PadsApart(key[0]);
    }
  }

  lemma PadsApart(b: bv8)
    ensures b ^ 0x36 != b ^ 0x5c
  {
  }

  /** With the inner input of one message marked, and the outer input that follows from it,
      the codes of all other messages differ from its code in every byte. */
  lemma MarkedCodes(key: Bytes, m1: Bytes, m2: Bytes)
    requires m1 != m2
    ensures var c := Marking(KeyPad(key, 0x36) + m1, KeyPad(key, 0x5c) + Fill(SHA512_LEN, 1));
            Sound(c) && Hmac(c, key, m1) == Fill(SHA512_LEN, 1) && Hmac(c, key, m2) == Fill(SHA512_LEN, 0)
  {
    hide KeyPad;
    var i, o := KeyPad(key, 0x36), KeyPad(key, 0x5c);
    var one, none := Fill(SHA512_LEN, 1), Fill(SHA512_LEN, 0);
    var c := Marking(i + m1, o + one);
    MarkingIsSound(i + m1, o + one);
    InnerIsNotOuter(key, m2, one);
    InnerIsNotOuter(key, m1, none);
    assert (i + m1)[SHA512_BLOCK..] == m1 && (i + m2)[SHA512_BLOCK..] == m2;
    assert (o + none)[SHA512_BLOCK..] == none && (o + one)[SHA512_BLOCK..] == one;
    assert none[0] != one[0];
    assert Sha512(c, i + m1) == one && Sha512(c, i + m2) == none;
  }

  /** Two messages have the same code, or the same first bytes of it, under every hash only
      if they are the same message. */
  lemma HmacTells(key: Bytes, m1: Bytes, m2: Bytes, n: nat)
    requires 0 < n <= SHA512_LEN
    ensures (forall c: Suite :: SameCode(c, key, m1, m2, n)) <==> m1 == m2
  {
    hide KeyPad;
    hide Hmac;
    if m1 != m2 {
      var c := Marking(KeyPad(key, 0x36) + m1, KeyPad(key, 0x5c) + Fill(SHA512_LEN, 1));
      MarkedCodes(key, m1, m2);
      assert Hmac(c, key, m1)[..n][0] != Hmac(c, key, m2)[..n][0];
      assert !SameCode(c, key, m1, m2, n);
    }
  }

  /** The streaming form: the inner hash's input so far, and the outer key block. */
  class HmacContext {
    var absorbed: Bytes
    var outer: Bytes

    constructor Init(key: Bytes)
      ensures absorbed == KeyPad(key, 0x36) && outer == KeyPad(key, 0x5c)
    {
      hide KeyPad;
      var keyLen := if |key| > SHA512_BLOCK then SHA512_BLOCK else |key|;
      var keyXor: Bytes, final: Bytes := [], [];
      var i := 0;
      while i < keyLen
        invariant 0 <= i <= keyLen
        invariant keyXor == KeyPad(key, 0x36)[..i] && final == KeyPad(key, 0x5c)[..i]
      {
        KeyPadStep(key, 0x36, i);
        KeyPadStep(key, 0x5c, i);
        keyXor := keyXor + [key[i] ^ 0x36];
        final := final + [key[i] ^ 0x5c];
        i := i + 1;
      }
      while i < SHA512_BLOCK
        invariant keyLen <= i <= SHA512_BLOCK
        invariant keyXor == KeyPad(key, 0x36)[..i] && final == KeyPad(key, 0x5c)[..i]
      {
        KeyPadStep(key, 0x36, i);
        KeyPadStep(key, 0x5c, i);
        keyXor := keyXor + [0x36];
        final := final + [0x5c];
        i := i + 1;
      }
      absorbed := keyXor;
      outer := final;
    }

    method Update(data: Bytes)
      modifies this
      ensures absorbed == old(absorbed) + data && outer == old(outer)
    {
      absorbed := absorbed + data;
    }

    method Final(c: Suite, ghost key: Bytes, ghost msg: Bytes) returns (result: Bytes)
      requires Sound(c)
      requires absorbed == KeyPad(key, 0x36) + msg && outer == KeyPad(key, 0x5c)
      ensures result == Hmac(c, key, msg)
    {
      result := Sha512(c, outer + Sha512(c, absorbed));
    }
  }

  /** memcpy(dst + at, src, |src|). */
  method Store(dst: array<bv8>, at: nat, src: Bytes)
    requires at + |src| <= dst.Length
    modifies dst
    ensures dst[at..at + |src|] == src
    ensures forall i :: 0 <= i < dst.Length && !(at <= i < at + |src|) ==> dst[i] == old(dst[i])
  {
    var i := 0;
    while i < |src|
      invariant 0 <= i <= |src|
      invariant forall k :: at <= k < at + i ==> dst[k] == src[k - at]
      invariant forall k :: 0 <= k < dst.Length && !(at <= k < at + |src|) ==> dst[k] == old(dst[k])
    {
      dst[at + i] := src[i];
      i := i + 1;
    }
  }

  // ---- constant-time comparison ----

  /** 0 when the first cnt bytes agree, 1 when they do not. */
  method MemcmpConst(s1: Bytes, s2: Bytes, cnt: nat) returns (r: bv32)
    requires cnt <= |s1| && cnt <= |s2|
    ensures r == if s1[..cnt] == s2[..cnt] then 0 else 1
  {
    var acc: bv32 := 0;
    var i := 0;
    while i < cnt
      invariant 0 <= i <= cnt && acc < 256
      invariant acc == 0 <==> s1[..i] == s2[..i]
    {
      var d := s1[i] ^ s2[i];
      OrBytes(acc, s1[i], s2[i]);
      acc := acc | (d as bv32);
      assert s1[..i + 1] == s1[..i] + [s1[i]] && s2[..i + 1] == s2[..i] + [s2[i]];
      i := i + 1;
    }
    FoldFlag(acc);
    r := (((acc - 1) >> 8) & 1) ^ 1;
  }

  lemma OrBytes(acc: bv32, x: bv8, y: bv8)
    requires acc < 256
    ensures (acc | ((x ^ y) as bv32)) < 256
    ensures (acc | ((x ^ y) as bv32)) == 0 <==> acc == 0 && x == y
  {
  }

  lemma FoldFlag(acc: bv32)
    requires acc < 256
    ensures (((acc - 1) >> 8) & 1) ^ 1 == if acc == 0 then 0 else 1
  {
  }
}
