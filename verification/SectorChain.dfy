/**
 The chain over a sector's blocks, with ciphertext stealing for a partial last one.
 */
module SectorChain {
  import opened CryptoPrimitives
  import opened Cbc

  /** The chain over data that is empty or at least one block long. The last full
      block and a shorter tail are written together: the tail of the output is the
      front of the block's own ciphertext, which is then encrypted once more with
      the tail of the data mixed in. */
  function ChainEncode(c: Suite, prev: Bytes, data: Bytes): (r: Bytes)
    requires Sound(c) && |prev| == BLOCK && (|data| == 0 || |data| >= BLOCK)
    ensures |r| == |data|
    decreases |data|
  {
    if |data| == 0 then []
    else if BLOCK < |data| < 32 then
      var k := |data| - BLOCK;
      var x := Enc(c, Xor(data[..BLOCK], prev));
      Enc(c, Xor(x[..k], data[BLOCK..]) + x[k..]) + x[..k]
    else
      var x := Enc(c, Xor(data[..BLOCK], prev));
      x + ChainEncode(c, x, data[BLOCK..])
  }

  function ChainDecode(c: Suite, prev: Bytes, data: Bytes): (r: Bytes)
    requires Sound(c) && |prev| == BLOCK && (|data| == 0 || |data| >= BLOCK)
    ensures |r| == |data|
    decreases |data|
  {
    if |data| == 0 then []
    else if BLOCK < |data| < 32 then
      var k := |data| - BLOCK;
      var y := Dec(c, data[..BLOCK]);
      Xor(Dec(c, data[BLOCK..] + y[k..]), prev) + Xor(y[..k], data[BLOCK..])
    else
      Xor(Dec(c, data[..BLOCK]), prev) + ChainDecode(c, data[..BLOCK], data[BLOCK..])
  }

  lemma {:induction false} EncodeBlock(c: Suite, prev: Bytes, b: Bytes, rest: Bytes)
    requires Sound(c) && |prev| == BLOCK && |b| == BLOCK && (|rest| == 0 || |rest| >= BLOCK)
    ensures ChainEncode(c, prev, b + rest) == Enc(c, Xor(b, prev)) + ChainEncode(c, Enc(c, Xor(b, prev)), rest)
  {
    var data := b + rest;
    assert data[..BLOCK] == b && data[BLOCK..] == rest;
  }

  lemma {:induction false} DecodeBlock(c: Suite, prev: Bytes, b: Bytes, rest: Bytes)
    requires Sound(c) && |prev| == BLOCK && |b| == BLOCK && (|rest| == 0 || |rest| >= BLOCK)
    ensures ChainDecode(c, prev, b + rest) == Xor(Dec(c, b), prev) + ChainDecode(c, b, rest)
  {
    var data := b + rest;
    assert data[..BLOCK] == b && data[BLOCK..] == rest;
  }

  lemma {:induction false} ChainRoundTrip(c: Suite, prev: Bytes, data: Bytes)
    requires Sound(c) && |prev| == BLOCK && (|data| == 0 || |data| >= BLOCK)
    ensures ChainDecode(c, prev, ChainEncode(c, prev, data)) == data
    decreases |data|
  {
    if |data| == 0 {
    } else if BLOCK < |data| < 32 {
      StealRoundTrip(c, prev, data);
    } else {
      var b, rest := data[..BLOCK], data[BLOCK..];
      assert data == b + rest;
      var x := Enc(c, Xor(b, prev));
      EncodeBlock(c, prev, b, rest);
      DecodeBlock(c, prev, x, ChainEncode(c, x, rest));
      ChainRoundTrip(c, x, rest);
      DecEnc(c, Xor(b, prev));
      XorCancels(b, prev);
    }
  }

  lemma {:induction false} StealRoundTrip(c: Suite, prev: Bytes, data: Bytes)
    requires Sound(c) && |prev| == BLOCK && BLOCK < |data| < 32
    ensures ChainDecode(c, prev, ChainEncode(c, prev, data)) == data
  {
    var e := ChainEncode(c, prev, data);
    var k := |data| - BLOCK;
    var x := Enc(c, Xor(data[..BLOCK], prev));
    var y := Xor(x[..k], data[BLOCK..]) + x[k..];
    assert e[..BLOCK] == Enc(c, y) && e[BLOCK..] == x[..k];
    assert y[..k] == Xor(x[..k], data[BLOCK..]) && y[k..] == x[k..];
    assert x[..k] + x[k..] == x;
    DecEnc(c, y);
    DecEnc(c, Xor(data[..BLOCK], prev));
    XorSwaps(x[..k], data[BLOCK..]);
    XorCancels(data[BLOCK..], x[..k]);
    XorCancels(data[..BLOCK], prev);
    assert data == data[..BLOCK] + data[BLOCK..];
  }

  /** The chain is onto: encoding what was decoded gives the same bytes back. */
  lemma {:induction false} ChainOnto(c: Suite, prev: Bytes, data: Bytes)
    requires Sound(c) && |prev| == BLOCK && (|data| == 0 || |data| >= BLOCK)
    ensures ChainEncode(c, prev, ChainDecode(c, prev, data)) == data
    decreases |data|
  {
    if |data| == 0 {
    } else if BLOCK < |data| < 32 {
      StealOnto(c, prev, data);
    } else {
      var b, rest := data[..BLOCK], data[BLOCK..];
      assert data == b + rest;
      var p := Xor(Dec(c, b), prev);
      DecodeBlock(c, prev, b, rest);
      EncodeBlock(c, prev, p, ChainDecode(c, b, rest));
      ChainOnto(c, b, rest);
      EncDec(c, b);
      XorCancels(Dec(c, b), prev);
    }
  }

  lemma {:induction false} StealOnto(c: Suite, prev: Bytes, data: Bytes)
    requires Sound(c) && |prev| == BLOCK && BLOCK < |data| < 32
    ensures ChainEncode(c, prev, ChainDecode(c, prev, data)) == data
  {
    var d := ChainDecode(c, prev, data);
    var k := |data| - BLOCK;
    var y := Dec(c, data[..BLOCK]);
    var x := data[BLOCK..] + y[k..];
    assert d[..BLOCK] == Xor(Dec(c, x), prev) && d[BLOCK..] == Xor(y[..k], data[BLOCK..]);
    XorCancels(Dec(c, x), prev);
    assert x[..k] == data[BLOCK..] && x[k..] == y[k..];
    XorSwaps(x[..k], d[BLOCK..]);
    XorCancels(y[..k], data[BLOCK..]);
    assert y[..k] + y[k..] == y;
    EncDec(c, x);
    EncDec(c, data[..BLOCK]);
    assert data == data[..BLOCK] + data[BLOCK..];
  }

  // ---- the chain against CBC with ciphertext stealing ----

  /** CBC-CS2 of the Addendum to NIST SP 800-38A: encrypt the data padded with zeros,
      then swap the last two blocks and cut the swapped one; whole blocks are left alone. */
  function Cs2(c: Suite, prev: Bytes, data: Bytes): (r: Bytes)
    requires Sound(c) && |prev| == BLOCK && |data| > BLOCK && |data| % 16 != 0
    ensures |r| == |data|
  {
    SwapAndCut(CbcEncode(c, prev, data + Zeros(16 - |data| % 16)), |data| % 16)
  }

  function SwapAndCut(e: Bytes, k: nat): (r: Bytes)
    requires |e| >= 32 && k < 16
    ensures |r| == |e| - 16 + k
  {
    var m := |e| - 32;
    e[..m] + e[m + 16..] + e[m..m + k]
  }

  lemma {:induction false} ChainIsCbc(c: Suite, prev: Bytes, data: Bytes)
    requires Sound(c) && |prev| == BLOCK && WholeBlocks(data)
    ensures ChainEncode(c, prev, data) == CbcEncode(c, prev, data)
    decreases |data|
  {
    if |data| == 0 {
    } else {
      ChainIsCbc(c, Enc(c, Xor(data[..BLOCK], prev)), data[BLOCK..]);
    }
  }

  lemma {:induction false} ChainIsCs2(c: Suite, prev: Bytes, data: Bytes)
    requires Sound(c) && |prev| == BLOCK && |data| > BLOCK && |data| % 16 != 0
    ensures ChainEncode(c, prev, data) == Cs2(c, prev, data)
    decreases |data|
  {
    var b, rest := data[..BLOCK], data[BLOCK..];
    assert data == b + rest;
    if |data| < 32 {
      Cs2Last(c, prev, b, rest);
    } else {
      var x := Enc(c, Xor(b, prev));
      ChainIsCs2(c, x, rest);
      EncodeBlock(c, prev, b, rest);
      Cs2Step(c, prev, b, rest);
    }
  }

  lemma {:induction false} Cs2Last(c: Suite, prev: Bytes, b: Bytes, tail: Bytes)
    requires Sound(c) && |prev| == BLOCK && |b| == BLOCK && 0 < |tail| < BLOCK
    ensures Cs2(c, prev, b + tail) == ChainEncode(c, prev, b + tail)
  {
    var k := |tail|;
    OneBlockMore(k);
    var x := Enc(c, Xor(b, prev));
    var y := Enc(c, Xor(x[..k], tail) + x[k..]);
    assert CbcEncode(c, prev, b + tail + Zeros(16 - k)) == x + y by {
      assert (b + tail) + Zeros(16 - k) == b + (tail + Zeros(16 - k));
      EncodeHead(c, prev, b, tail + Zeros(16 - k));
      StolenBlock(c, x, tail);
    }
    SwapBlocks(x, y, k);
    StealUnfolds(c, prev, b, tail);
  }

  lemma {:induction false} OneBlockMore(n: nat)
    ensures (16 + n) % 16 == n % 16
    ensures n < 16 ==> n % 16 == n
  {
  }

  lemma {:induction false} StealUnfolds(c: Suite, prev: Bytes, b: Bytes, tail: Bytes)
    requires Sound(c) && |prev| == BLOCK && |b| == BLOCK && 0 < |tail| < BLOCK
    ensures var x := Enc(c, Xor(b, prev));
            ChainEncode(c, prev, b + tail) == Enc(c, Xor(x[..|tail|], tail) + x[|tail|..]) + x[..|tail|]
  {
    var data := b + tail;
    assert data[..BLOCK] == b && data[BLOCK..] == tail;
  }

  lemma {:induction false} SwapBlocks(x: Bytes, y: Bytes, k: nat)
    requires |x| == 16 && |y| == 16 && k < 16
    ensures SwapAndCut(x + y, k) == y + x[..k]
  {
  }

  lemma {:induction false} Cs2Step(c: Suite, prev: Bytes, b: Bytes, rest: Bytes)
    requires Sound(c) && |prev| == BLOCK && |b| == BLOCK && |rest| > BLOCK && |rest| % 16 != 0
    ensures var x := Enc(c, Xor(b, prev));
            Cs2(c, prev, b + rest) == x + Cs2(c, x, rest)
  {
    hide CbcEncode;
    hide SwapAndCut;
    hide ChainEncode;
    hide Zeros;
    var k := |rest| % 16;
    OneBlockMore(|rest|);
    var x := Enc(c, Xor(b, prev));
    assert (b + rest) + Zeros(16 - k) == b + (rest + Zeros(16 - k));
    EncodeHead(c, prev, b, rest + Zeros(16 - k));
    Cs2Shift(x, CbcEncode(c, x, rest + Zeros(16 - k)), k);
  }

  lemma {:induction false} StolenBlock(c: Suite, x: Bytes, tail: Bytes)
    requires Sound(c) && |x| == BLOCK && 0 < |tail| < BLOCK
    ensures CbcEncode(c, x, tail + Zeros(16 - |tail|)) == Enc(c, Xor(x[..|tail|], tail) + x[|tail|..])
  {
    var b := tail + Zeros(16 - |tail|);
    EncodeHead(c, x, b, []);
    assert b + [] == b;
    XorPadded(x, tail);
  }

  lemma {:induction false} XorPadded(x: Bytes, tail: Bytes)
    requires |x| == 16 && |tail| < 16
    ensures Xor(tail + Zeros(16 - |tail|), x) == Xor(x[..|tail|], tail) + x[|tail|..]
  {
    var k := |tail|;
    var b := tail + Zeros(16 - k);
    var mixed := Xor(x[..k], tail) + x[k..];
    forall i | 0 <= i < 16
      ensures Xor(b, x)[i] == mixed[i]
    {
      ZeroByte(x[i]);
      XorByte(x[i], b[i]);
    }
  }

  lemma {:induction false} Cs2Shift(x: Bytes, e: Bytes, k: nat)
    requires |x| == 16 && |e| >= 32 && k < 16
    ensures SwapAndCut(x + e, k) == x + SwapAndCut(e, k)
  {
    var m, all := |e| - 32, x + e;
    assert all[..m + 16] == x + e[..m];
    assert all[m + 32..] == e[m + 16..];
    assert all[m + 16..m + 16 + k] == e[m..m + k];
  }
}
