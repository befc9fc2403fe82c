/** Cipher block chaining over whole blocks: the reference for the sector and the
    text codecs. */
module Cbc {
  import opened CryptoPrimitives

  predicate WholeBlocks(data: Bytes) {
    |data| % 16 == 0
  }

  function CbcEncode(c: Suite, prev: Bytes, data: Bytes): (r: Bytes)
    requires Sound(c) && |prev| == BLOCK && WholeBlocks(data)
    ensures |r| == |data|
    decreases |data|
  {
    if |data| == 0 then []
    else
      var x := Enc(c, Xor(data[..BLOCK], prev));
      x + CbcEncode(c, x, data[BLOCK..])
  }

  function CbcDecode(c: Suite, prev: Bytes, data: Bytes): (r: Bytes)
    requires Sound(c) && |prev| == BLOCK && WholeBlocks(data)
    ensures |r| == |data|
    decreases |data|
  {
    if |data| == 0 then []
    else Xor(Dec(c, data[..BLOCK]), prev) + CbcDecode(c, data[..BLOCK], data[BLOCK..])
  }

  lemma {:induction false} EncodeHead(c: Suite, prev: Bytes, b: Bytes, rest: Bytes)
    requires Sound(c) && |prev| == BLOCK && |b| == BLOCK && WholeBlocks(rest)
    ensures WholeBlocks(b + rest)
    ensures CbcEncode(c, prev, b + rest) == Enc(c, Xor(b, prev)) + CbcEncode(c, Enc(c, Xor(b, prev)), rest)
  {
    var data := b + rest;
    assert data[..BLOCK] == b && data[BLOCK..] == rest;
  }

  lemma {:induction false} DecodeHead(c: Suite, prev: Bytes, b: Bytes, rest: Bytes)
    requires Sound(c) && |prev| == BLOCK && |b| == BLOCK && WholeBlocks(rest)
    ensures WholeBlocks(b + rest)
    ensures CbcDecode(c, prev, b + rest) == Xor(Dec(c, b), prev) + CbcDecode(c, b, rest)
  {
    var data := b + rest;
    assert data[..BLOCK] == b && data[BLOCK..] == rest;
  }

  /** Block k of the result is the encryption of block k of the data, combined with the
      block of the result before it. */
  lemma {:induction false} CbcBlock(c: Suite, prev: Bytes, data: Bytes, k: nat)
    requires Sound(c) && |prev| == BLOCK && WholeBlocks(data) && 16 * k + 16 <= |data|
    ensures var e := CbcEncode(c, prev, data);
            e[16 * k..16 * k + 16]
              == Enc(c, Xor(data[16 * k..16 * k + 16], if k == 0 then prev else e[16 * k - 16..16 * k]))
    decreases k
  {
    hide CbcEncode;
    hide Xor;
    var b, rest := data[..BLOCK], data[BLOCK..];
    assert data == b + rest;
    var x := Enc(c, Xor(b, prev));
    EncodeHead(c, prev, b, rest);
    var after := CbcEncode(c, x, rest);
    if k == 0 {
      assert (x + after)[0..16] == x && data[0..16] == b;
    } else {
      var lo := 16 * (k - 1);
      CbcBlock(c, x, rest, k - 1);
      Behind(b, rest, lo);
      Behind(x, after, lo);
      if k == 1 {
        assert (x + after)[0..16] == x;
      } else {
        Behind(x, after, lo - 16);
      }
    }
  }

  lemma Behind(x: Bytes, after: Bytes, lo: nat)
    requires |x| == 16 && lo + 16 <= |after|
    ensures (x + after)[lo + 16..lo + 32] == after[lo..lo + 16]
  {
  }

  lemma {:induction false} CbcRoundTrip(c: Suite, prev: Bytes, data: Bytes)
    requires Sound(c) && |prev| == BLOCK && WholeBlocks(data)
    ensures CbcDecode(c, prev, CbcEncode(c, prev, data)) == data
    decreases |data|
  {
    if |data| == 0 {
    } else {
      var b, rest := data[..BLOCK], data[BLOCK..];
      assert data == b + rest;
      var x := Enc(c, Xor(b, prev));
      EncodeHead(c, prev, b, rest);
      DecodeHead(c, prev, x, CbcEncode(c, x, rest));
      CbcRoundTrip(c, x, rest);
      DecEnc(c, Xor(b, prev));
      XorCancels(b, prev);
    }
  }

  lemma {:induction false} CbcOnto(c: Suite, prev: Bytes, data: Bytes)
    requires Sound(c) && |prev| == BLOCK && WholeBlocks(data)
    ensures CbcEncode(c, prev, CbcDecode(c, prev, data)) == data
    decreases |data|
  {
    if |data| == 0 {
    } else {
      var b, rest := data[..BLOCK], data[BLOCK..];
      assert data == b + rest;
      DecodeHead(c, prev, b, rest);
      EncodeHead(c, prev, Xor(Dec(c, b), prev), CbcDecode(c, b, rest));
      CbcOnto(c, b, rest);
      EncDec(c, b);
      XorCancels(Dec(c, b), prev);
    }
  }

  function Zeros(n: nat): (r: Bytes)
    ensures |r| == n
  {
    seq(n, i => 0)
  }

  /** Only the first plaintext block depends on the chaining start: with a start of
      zeros the start can be mixed in afterwards. */
  lemma {:induction false} DecodeFromZeros(c: Suite, prev: Bytes, data: Bytes)
    requires Sound(c) && |prev| == BLOCK && WholeBlocks(data) && |data| > 0
    ensures var p := CbcDecode(c, Zeros(BLOCK), data);
            CbcDecode(c, prev, data) == Xor(p[..BLOCK], prev) + p[BLOCK..]
  {
    var d := Dec(c, data[..BLOCK]);
    XorZeros(d);
  }

  lemma {:induction false} XorZeros(a: Bytes)
    ensures Xor(a, Zeros(|a|)) == a
  {
    forall i | 0 <= i < |a|
      ensures Xor(a, Zeros(|a|))[i] == a[i]
    {
      ZeroByte(a[i]);
    }
  }

  lemma {:induction false} ZeroByte(x: bv8)
    ensures x ^ 0 == x
  {
  }
}
