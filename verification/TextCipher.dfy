/**
 File name encryption. A name of at most one block is encrypted alone, a longer one
 by CBC whose start is an HMAC of everything after the first block; both are padded
 with zeros, so that the decoder can give back a C string.
 */
module TextCipher {
  import opened Wrappers
  import opened CryptoPrimitives
  import opened Cbc

  // ---- padding and C strings ----

  function AlignUp(n: nat): nat {
    (n + 15) / 16 * 16
  }

  function Pad(s: Bytes): (r: Bytes)
    ensures WholeBlocks(r) && |s| <= |r| < |s| + 16
  {
    s + Zeros(AlignUp(|s|) - |s|)
  }

  /** How many bytes the encoder puts out: one block, or one and then more until the text is
      used up. */
  function PutOut(n: nat): nat {
    if n <= 16 then 16 else 16 + AlignUp(n - 16)
  }

  /** They are as many as it has made room for exactly when there is a text. */
  lemma RoomFits(n: nat)
    ensures PutOut(n) == AlignUp(n) <==> n > 0
  {
  }

  /** strlen, on a string that ends at the end of the sequence or at a zero. */
  function StrLen(s: Bytes): (n: nat)
    ensures n <= |s| && (n < |s| ==> s[n] == 0) && (forall i :: 0 <= i < n ==> s[i] != 0)
  {
    if |s| == 0 || s[0] == 0 then 0 else 1 + StrLen(s[1..])
  }

  lemma {:induction false} StrLenUnique(s: Bytes, n: nat)
    requires n <= |s| && (n < |s| ==> s[n] == 0) && (forall i :: 0 <= i < n ==> s[i] != 0)
    ensures StrLen(s) == n
  {
    if |s| == 0 || s[0] == 0 {
    } else {
      StrLenUnique(s[1..], n - 1);
    }
  }

  function CString(s: Bytes): (r: Bytes)
    ensures 0 !in r
  {
    s[..StrLen(s)]
  }

  lemma {:induction false} PadIsCString(s: Bytes, n: nat)
    requires 0 !in s
    ensures StrLen(s + Zeros(n)) == |s| && CString(s + Zeros(n)) == s
  {
    StrLenUnique(s + Zeros(n), |s|);
  }

  // ---- the two codecs ----

  /** What is mixed into the first block before it is encrypted. */
  function Mask(c: Suite, iv: Bytes, txt: Bytes): (r: Bytes)
    requires Sound(c) && |iv| >= BLOCK
    ensures |r| == BLOCK
  {
    if |txt| <= BLOCK then iv[..BLOCK] else Hmac(c, iv, txt[BLOCK..])[..BLOCK]
  }

  function Encoded(c: Suite, iv: Bytes, txt: Bytes): (r: Bytes)
    requires Sound(c) && |iv| >= BLOCK
    ensures |r| == AlignUp(|txt|)
  {
    CbcEncode(c, Mask(c, iv, txt), Pad(txt))
  }

  /** The decoder's plaintext before its padding is checked, without terminator. */
  function Plain(c: Suite, iv: Bytes, data: Bytes): (r: Bytes)
    requires Sound(c) && |iv| >= BLOCK && WholeBlocks(data) && |data| > 0
    ensures |r| == |data|
  {
    if |data| == BLOCK then CbcDecode(c, iv[..BLOCK], data)
    else
      var p := CbcDecode(c, Zeros(BLOCK), data);
      Xor(p[..BLOCK], Hmac(c, iv, CString(p[BLOCK..]))) + p[BLOCK..]
  }

  /** Where the string whose end is looked for starts: the whole block, or what
      follows the first one. */
  function TailStart(data: Bytes): (r: nat)
    requires |data| >= BLOCK
    ensures r <= |data|
  {
    if |data| == BLOCK then 0 else BLOCK
  }

  predicate ZeroPadded(p: Bytes, start: nat)
    requires start <= |p|
  {
    forall i :: start + StrLen(p[start..]) <= i < |p| ==> p[i] == 0
  }

  /** The decoder's result buffer with its terminating zero; None for its NULL. */
  function Decoded(c: Suite, iv: Bytes, data: Bytes): (r: Option<Bytes>)
    requires Sound(c) && |iv| >= BLOCK
    ensures r.Some? ==> |r.value| == |data| + 1
  {
    if !WholeBlocks(data) || |data| == 0 then None
    else
      var p := Plain(c, iv, data);
      if ZeroPadded(p, TailStart(data)) then Some(p + [0]) else None
  }

  // ---- theorems ----

  /** The HMAC covers the tail up to its first zero, so the decoder finds the mask
      the encoder used whenever the tail has no zeros. */
  lemma {:induction false} PlainOfEncoded(c: Suite, iv: Bytes, txt: Bytes)
    requires Sound(c) && |iv| >= BLOCK && |txt| > 0 && 0 !in txt
    ensures Plain(c, iv, Encoded(c, iv, txt)) == Pad(txt)
  {
    var mask := Mask(c, iv, txt);
    var p, e := Pad(txt), Encoded(c, iv, txt);
    CbcRoundTrip(c, mask, p);
    if |txt| > BLOCK {
      var q := CbcDecode(c, Zeros(BLOCK), e);
      DecodeFromZeros(c, mask, e);
      assert p[BLOCK..] == q[BLOCK..];
      assert q[BLOCK..] == txt[BLOCK..] + Zeros(|p| - |txt|);
      PadIsCString(txt[BLOCK..], |p| - |txt|);
      XorPrefix(q[..BLOCK], Hmac(c, iv, txt[BLOCK..]));
    }
  }

  lemma XorPrefix(a: Bytes, b: Bytes)
    requires |a| <= |b|
    ensures Xor(a, b[..|a|]) == Xor(a, b)
  {
  }

  /** Names without zeros come back, whatever their length. */
  lemma {:induction false} TextRoundTrip(c: Suite, iv: Bytes, txt: Bytes)
    requires Sound(c) && |iv| >= BLOCK && |txt| > 0 && 0 !in txt
    ensures var r := Decoded(c, iv, Encoded(c, iv, txt));
            r == Some(Pad(txt) + [0]) && CString(r.value) == txt
  {
    hide Plain;
    var p, e := Pad(txt), Encoded(c, iv, txt);
    PlainOfEncoded(c, iv, txt);
    PadIsZeroPadded(txt, if |txt| <= BLOCK then 0 else BLOCK);
    var z := |p| - |txt|;
    assert p + [0] == txt + Zeros(z + 1);
    PadIsCString(txt, z + 1);
  }

  lemma {:induction false} PadIsZeroPadded(txt: Bytes, start: nat)
    requires 0 !in txt && start <= |txt|
    ensures ZeroPadded(Pad(txt), start)
  {
    var p := Pad(txt);
    var z := |p| - |txt|;
    assert p[start..] == txt[start..] + Zeros(z);
    PadIsCString(txt[start..], z);
  }

  /** A name comes back as a C string exactly when it has no zero byte. */
  lemma {:induction false} RoundTripExactly(c: Suite, iv: Bytes, txt: Bytes)
    requires Sound(c) && |iv| >= BLOCK && |txt| > 0
    ensures var r := Decoded(c, iv, Encoded(c, iv, txt));
            (r.Some? && CString(r.value) == txt) <==> 0 !in txt
  {
    if 0 !in txt {
      TextRoundTrip(c, iv, txt);
    }
  }

  /** What the decoder accepted is the chain over the accepted text, started from a
      mask that the accepted text determines. */
  function MaskOfPlain(c: Suite, iv: Bytes, p: Bytes): (r: Bytes)
    requires Sound(c) && |iv| >= BLOCK && |p| >= BLOCK
    ensures |r| == BLOCK
  {
    if |p| == BLOCK then iv[..BLOCK] else Hmac(c, iv, CString(p[BLOCK..]))[..BLOCK]
  }

  lemma {:induction false} DataOfPlain(c: Suite, iv: Bytes, data: Bytes)
    requires Sound(c) && |iv| >= BLOCK && WholeBlocks(data) && |data| > 0
    ensures var p := Plain(c, iv, data);
            data == CbcEncode(c, MaskOfPlain(c, iv, p), p)
  {
    var p := Plain(c, iv, data);
    var mask := MaskOfPlain(c, iv, p);
    if |data| == BLOCK {
      CbcOnto(c, mask, data);
    } else {
      var q := CbcDecode(c, Zeros(BLOCK), data);
      assert p[BLOCK..] == q[BLOCK..];
      XorPrefix(q[..BLOCK], Hmac(c, iv, CString(q[BLOCK..])));
      DecodeFromZeros(c, mask, data);
      assert p == CbcDecode(c, mask, data);
      CbcOnto(c, mask, data);
    }
  }

  // ---- the format ----

  /** An encoded name is the chain over the name and the zeros up to a multiple of 16,
      started from the key's own bytes for a name of one block, and otherwise from the keyed
      hash of all that follows the first block. */
  lemma {:induction false} TextFormat(c: Suite, iv: Bytes, txt: Bytes, zeros: nat)
    requires Sound(c) && |iv| >= BLOCK && zeros < 16 && (|txt| + zeros) % 16 == 0
    ensures Encoded(c, iv, txt)
         == CbcEncode(c, if |txt| <= 16 then iv[..16] else Hmac(c, iv, txt[16..])[..16], txt + Zeros(zeros))
  {
    assert AlignUp(|txt|) == |txt| + zeros;
  }

  /** The buffer b is a first block, none if there is only one, and a string filled up with
      zeros, and data is the chain over it. */
  ghost predicate Spelled(c: Suite, iv: Bytes, data: Bytes, b: Bytes, first: Bytes, tail: Bytes, zeros: nat) {
    var p := first + (tail + Zeros(zeros));
    && Sound(c) && |iv| >= BLOCK && 0 !in tail && b == p + [0]
    && if |p| == 16 then first == [] && data == CbcEncode(c, iv[..16], p)
       else
         && |first| == 16 && |p| > 16 && |p| % 16 == 0
         && data == CbcEncode(c, Hmac(c, iv, tail)[..16], p)
  }

  lemma {:induction false} AcceptedIsSpelled(c: Suite, iv: Bytes, data: Bytes)
    requires Sound(c) && |iv| >= BLOCK && Decoded(c, iv, data).Some?
    ensures exists first, tail, zeros :: Spelled(c, iv, data, Decoded(c, iv, data).value, first, tail, zeros)
  {
    hide CbcEncode;
    hide Plain;
    hide CString;
    hide ZeroPadded;
    var p := Plain(c, iv, data);
    DataOfPlain(c, iv, data);
    var n := TailStart(data);
    var first, rest := p[..n], p[n..];
    var tail := CString(rest);
    TailIsPadded(p, n);
    var zeros := |rest| - |tail|;
    assert p == first + rest;
    assert n == 0 ==> rest == p;
    assert Spelled(c, iv, data, p + [0], first, tail, zeros);
  }

  lemma {:induction false} TailIsPadded(p: Bytes, start: nat)
    requires start <= |p| && ZeroPadded(p, start)
    ensures var rest := p[start..];
            var tail := CString(rest);
            |tail| <= |rest| && rest == tail + Zeros(|rest| - |tail|)
  {
    hide StrLen;
    var rest := p[start..];
    var padded := CString(rest) + Zeros(|rest| - |CString(rest)|);
    forall i | 0 <= i < |rest|
      ensures rest[i] == padded[i]
    {
      assert rest[i] == p[start + i];
    }
  }

  lemma {:induction false} SpelledIsAccepted(c: Suite, iv: Bytes, data: Bytes, b: Bytes,
                                             first: Bytes, tail: Bytes, zeros: nat)
    requires Spelled(c, iv, data, b, first, tail, zeros)
    ensures Decoded(c, iv, data) == Some(b)
  {
    var rest := tail + Zeros(zeros);
    var p := first + rest;
    PadIsCString(tail, zeros);
    assert p[|first|..] == rest;
    PlainOfChain(c, iv, data, p, rest);
    assert ZeroPadded(p, |first|);
  }

  lemma {:induction false} PlainOfChain(c: Suite, iv: Bytes, data: Bytes, p: Bytes, rest: Bytes)
    requires Sound(c) && |iv| >= BLOCK && WholeBlocks(p) && |p| > 0
    requires rest == if |p| == 16 then p else p[16..]
    requires data == CbcEncode(c, if |p| == 16 then iv[..16] else Hmac(c, iv, CString(rest))[..16], p)
    ensures Plain(c, iv, data) == p
  {
    hide CbcEncode;
    hide CbcDecode;
    hide CString;
    var mask := if |p| == 16 then iv[..16] else Hmac(c, iv, CString(rest))[..16];
    CbcRoundTrip(c, mask, p);
    if |p| > 16 {
      var q := CbcDecode(c, Zeros(BLOCK), data);
      DecodeFromZeros(c, mask, data);
      assert p[BLOCK..] == q[BLOCK..];
      XorPrefix(q[..BLOCK], Hmac(c, iv, CString(rest)));
    }
  }

  /** What the decoder accepts, and what it makes of it: any first block, then a string and
      any number of zeros. */
  lemma {:induction false} AcceptedExactly(c: Suite, iv: Bytes, data: Bytes, b: Bytes)
    requires Sound(c) && |iv| >= BLOCK
    ensures Decoded(c, iv, data) == Some(b)
       <==> exists first, tail, zeros :: Spelled(c, iv, data, b, first, tail, zeros)
  {
    hide Decoded;
    hide Spelled;
    if Decoded(c, iv, data) == Some(b) {
      AcceptedIsSpelled(c, iv, data);
    }
    forall first, tail, zeros | Spelled(c, iv, data, b, first, tail, zeros)
      ensures Decoded(c, iv, data) == Some(b)
    {
      SpelledIsAccepted(c, iv, data, b, first, tail, zeros);
    }
  }

  /** Two encrypted names that decode to the same buffer are the same. */
  lemma {:induction false} DecodedInjective(c: Suite, iv: Bytes, d1: Bytes, d2: Bytes)
    requires Sound(c) && |iv| >= BLOCK
    requires Decoded(c, iv, d1).Some? && Decoded(c, iv, d1) == Decoded(c, iv, d2)
    ensures d1 == d2
  {
    var p1, p2 := Plain(c, iv, d1), Plain(c, iv, d2);
    assert p1 == (p1 + [0])[..|d1|] && p2 == (p2 + [0])[..|d2|];
    DataOfPlain(c, iv, d1);
    DataOfPlain(c, iv, d2);
  }

  // ---- the encoder ----

  /** copy_pad: the next cnt bytes of the text, zeros where it has ended. The text
      position moves on only when all of them were there. */
  method CopyPad(cnt: nat, txt: Bytes, at: nat, len: nat) returns (dst: Bytes, at': nat, len': nat)
    requires at + len <= |txt|
    ensures dst == if cnt <= len then txt[at..at + cnt] else txt[at..at + len] + Zeros(cnt - len)
    ensures at' == if cnt <= len then at + cnt else at
    ensures len' == if cnt <= len then len - cnt else 0
  {
    if cnt <= len {
      return txt[at..at + cnt], at + cnt, len - cnt;
    }
    return txt[at..at + len] + Zeros(cnt - len), at, 0;
  }

  function FirstBlock(s: Bytes): (r: Bytes)
    ensures |r| == BLOCK
  {
    if BLOCK <= |s| then s[..BLOCK] else s + Zeros(BLOCK - |s|)
  }

  function AfterBlock(s: Bytes): (r: Bytes) {
    if BLOCK <= |s| then s[BLOCK..] else []
  }

  lemma {:induction false} PadStep(s: Bytes)
    requires |s| > 0
    ensures Pad(s) == FirstBlock(s) + Pad(AfterBlock(s))
    ensures AlignUp(|s|) == BLOCK + AlignUp(|AfterBlock(s)|)
  {
    if |s| >= BLOCK {
      AlignDown(|s|);
    } else {
      assert Pad(AfterBlock(s)) == [];
    }
  }

  lemma AlignDown(n: nat)
    requires n >= 16
    ensures AlignUp(n) == 16 + AlignUp(n - 16)
  {
  }

  /** What is written, followed by the chain over the padded rest, is the whole. */
  ghost predicate Encoding(c: Suite, done: Bytes, prev: Bytes, rest: Bytes, whole: Bytes) {
    && Sound(c) && |prev| == BLOCK
    && done + CbcEncode(c, prev, Pad(rest)) == whole
  }

  lemma {:induction false} EncodingStep(c: Suite, done: Bytes, prev: Bytes, rest: Bytes, whole: Bytes)
    requires Encoding(c, done, prev, rest, whole) && |rest| > 0
    ensures var x := Enc(c, Xor(FirstBlock(rest), prev));
            Encoding(c, done + x, x, AfterBlock(rest), whole)
  {
    hide CbcEncode;
    hide Pad;
    hide FirstBlock;
    hide AfterBlock;
    var b, left := FirstBlock(rest), AfterBlock(rest);
    var x := Enc(c, Xor(b, prev));
    PadStep(rest);
    EncodeHead(c, prev, b, Pad(left));
    assert done + (x + CbcEncode(c, x, Pad(left))) == (done + x) + CbcEncode(c, x, Pad(left));
  }

  lemma {:induction false} EncodingEnds(c: Suite, done: Bytes, prev: Bytes, whole: Bytes)
    requires Encoding(c, done, prev, [], whole)
    ensures done == whole
  {
    assert Pad([]) == [];
  }

  lemma {:induction false} EncodingStarts(c: Suite, iv: Bytes, txt: Bytes)
    requires Sound(c) && |iv| >= BLOCK
    ensures Encoding(c, [], Mask(c, iv, txt), txt, Encoded(c, iv, txt))
  {
  }

  /** psync_crypto_aes256_encode_text. */
  method EncodeText(c: Suite, iv: Bytes, txt: Bytes) returns (out: array<bv8>)
    requires Sound(c) && |iv| >= BLOCK && |txt| > 0
    ensures fresh(out) && out[..] == Encoded(c, iv, txt)
  {
    hide Encoded;
    hide Encoding;
    var at, txtLen := 0, |txt|;
    out := new bv8[AlignUp(txtLen)];
    ghost var whole := Encoded(c, iv, txt);
    EncodingStarts(c, iv, txt);
    EncodingStep(c, [], Mask(c, iv, txt), txt, whole);
    PadStep(txt);
    var src, dst;
    if txtLen <= BLOCK {
      assert txt[at..at + txtLen] == txt && AfterBlock(txt) == [];
      src, at, txtLen := CopyPad(BLOCK, txt, at, txtLen);
      XorPrefix(src, iv);
      dst := Enc(c, Xor(src, iv));
      assert [] + dst == dst;
      EncodingEnds(c, dst, dst, whole);
      Store(out, 0, dst);
      return;
    }
    var hmac := Hmac(c, iv, txt[BLOCK..]);
    src, at, txtLen := txt[..BLOCK], BLOCK, txtLen - BLOCK;
    XorPrefix(src, hmac);
    dst := Enc(c, Xor(src, hmac));
    Store(out, 0, dst);
    assert out[..BLOCK] == [] + dst;
    EncodeRest(c, dst, txt, at, txtLen, out, whole);
  }

  /** The chaining loop of the encoder; its body is entered at least once. */
  method EncodeRest(c: Suite, first: Bytes, txt: Bytes, start: nat, length: nat, out: array<bv8>, ghost whole: Bytes)
    requires start + length == |txt| && length > 0 && out.Length == BLOCK + AlignUp(length)
    requires Encoding(c, out[..BLOCK], first, txt[start..], whole)
    modifies out
    ensures out[..] == whole
  {
    hide Encoding;
    hide FirstBlock;
    hide AfterBlock;
    var dst, at: nat, txtLen: nat, pos: nat := first, start, length, BLOCK;
    assert txt[at..at + txtLen] == txt[start..];
    var more := true;
    while more
      invariant at + txtLen <= |txt| && (more <==> txtLen > 0) && pos + AlignUp(txtLen) == out.Length
      invariant Encoding(c, out[..pos], dst, txt[at..at + txtLen], whole)
      decreases txtLen
    {
      ghost var rest := txt[at..at + txtLen];
      EncodingStep(c, out[..pos], dst, rest, whole);
      PadStep(rest);
      var src;
      src, at, txtLen := CopyNext(txt, at, txtLen);
      EncodingIsSound(c, out[..pos], dst, rest, whole);
      dst := Enc(c, Xor(src, dst));
      ghost var done := out[..pos];
      Store(out, pos, dst);
      assert out[..pos + BLOCK] == done + dst;
      pos := pos + BLOCK;
      more := txtLen != 0;
    }
    assert txt[at..at + txtLen] == [];
    EncodingEnds(c, out[..pos], dst, whole);
    assert out[..pos] == out[..];
  }

  method CopyNext(txt: Bytes, at: nat, len: nat) returns (src: Bytes, at': nat, len': nat)
    requires at + len <= |txt|
    ensures src == FirstBlock(txt[at..at + len])
    ensures at' + len' <= |txt| && txt[at'..at' + len'] == AfterBlock(txt[at..at + len])
    ensures len > 0 ==> len' < len
  {
    src, at', len' := CopyPad(BLOCK, txt, at, len);
  }

  lemma {:induction false} EncodingIsSound(c: Suite, done: Bytes, prev: Bytes, rest: Bytes, whole: Bytes)
    requires Encoding(c, done, prev, rest, whole)
    ensures Sound(c) && |prev| == BLOCK
  {
  }

  // ---- the decoder ----

  /** strlen of the string at a position, terminated somewhere before the end. */
  method StrLenOf(a: array<bv8>, at: nat, end: nat) returns (n: nat)
    requires at <= end < a.Length && a[end] == 0
    ensures n == StrLen(a[at..end])
  {
    n := 0;
    while a[at + n] != 0
      invariant at + n <= end
      invariant forall i :: at <= i < at + n ==> a[i] != 0
      decreases end - n
    {
      n := n + 1;
    }
    ghost var s := a[at..end];
    assert forall i :: 0 <= i < n ==> s[i] == a[at + i];
    StrLenUnique(s, n);
  }

  /** The scan over the bytes after a string's terminator. */
  method PaddingIsZero(a: array<bv8>, from: nat, end: nat) returns (ok: bool)
    requires end <= a.Length
    ensures ok <==> forall i :: from <= i < end ==> a[i] == 0
  {
    var len := from;
    while len < end
      invariant from <= len
      invariant forall i :: from <= i < len && i < end ==> a[i] == 0
    {
      if a[len] != 0 {
        return false;
      }
      len := len + 1;
    }
    return true;
  }

  lemma {:induction false} PaddingScanned(p: Bytes, start: nat, len: nat)
    requires start <= |p| && len == StrLen(p[start..])
    ensures ZeroPadded(p, start) <==> forall i :: start + len + 1 <= i < |p| ==> p[i] == 0
  {
  }

  ghost predicate Decoding(c: Suite, done: Bytes, prev: Bytes, rest: Bytes, whole: Bytes) {
    && Sound(c) && |prev| == BLOCK && WholeBlocks(rest)
    && done + CbcDecode(c, prev, rest) == whole
  }

  lemma {:induction false} DecodingStep(c: Suite, done: Bytes, prev: Bytes, b: Bytes, rest: Bytes, whole: Bytes)
    requires |b| == BLOCK && Decoding(c, done, prev, b + rest, whole)
    ensures Decoding(c, done + Xor(Dec(c, b), prev), b, rest, whole)
  {
    hide CbcDecode;
    assert |b + rest| == 16 + |rest|;
    DecodeHead(c, prev, b, rest);
    var x := Xor(Dec(c, b), prev);
    assert done + (x + CbcDecode(c, b, rest)) == (done + x) + CbcDecode(c, b, rest);
  }

  lemma {:induction false} DecodingEnds(c: Suite, done: Bytes, prev: Bytes, whole: Bytes)
    requires Decoding(c, done, prev, [], whole)
    ensures done == whole
  {
  }

  /** The single block, with its terminator. */
  method DecodeOnly(c: Suite, iv: Bytes, data: Bytes, out: array<bv8>)
    requires Sound(c) && |iv| >= BLOCK && |data| == BLOCK && out.Length == BLOCK + 1
    modifies out
    ensures out[..] == Plain(c, iv, data) + [0]
  {
    var dst := Dec(c, data);
    XorPrefix(dst, iv);
    Store(out, 0, Xor(dst, iv));
    out[BLOCK] := 0;
    assert data + [] == data;
    DecodeHead(c, iv[..BLOCK], data, []);
    assert out[..] == out[..BLOCK] + [0];
  }

  /** Several blocks, the first of them still masked. */
  method DecodeBlocks(c: Suite, data: Bytes, out: array<bv8>)
    requires Sound(c) && WholeBlocks(data) && |data| > 0 && out.Length == |data| + 1
    modifies out
    ensures out[..|data|] == CbcDecode(c, Zeros(BLOCK), data)
  {
    hide CbcDecode;
    hide Decoding;
    var at: nat, pos: nat, blocks: nat := 0, BLOCK, |data| / 16;
    ghost var whole := CbcDecode(c, Zeros(BLOCK), data);
    DecodingFirst(c, data);
    Store(out, 0, Dec(c, data[..BLOCK]));
    blocks := blocks - 1;
    while blocks != 0
      invariant pos == at + BLOCK && pos + 16 * blocks == |data|
      invariant Decoding(c, out[..pos], data[at..pos], data[pos..], whole)
      decreases blocks
    {
      var xor := data[at..at + BLOCK];
      at := at + BLOCK;
      var src := data[at..at + BLOCK];
      assert data[pos..] == src + data[pos + BLOCK..];
      DecodingStep(c, out[..pos], xor, src, data[pos + BLOCK..], whole);
      var dst := Xor(Dec(c, src), xor);
      ghost var done := out[..pos];
      Store(out, pos, dst);
      assert out[..pos + BLOCK] == done + dst;
      pos := pos + BLOCK;
      blocks := blocks - 1;
    }
    assert data[pos..] == [];
    DecodingEnds(c, out[..pos], data[at..pos], whole);
  }

  lemma {:induction false} DecodingFirst(c: Suite, data: Bytes)
    requires Sound(c) && WholeBlocks(data) && |data| > 0
    ensures Decoding(c, Dec(c, data[..BLOCK]), data[..BLOCK], data[BLOCK..], CbcDecode(c, Zeros(BLOCK), data))
  {
    hide CbcDecode;
    var b, rest := data[..BLOCK], data[BLOCK..];
    assert data == b + rest;
    DecodeHead(c, Zeros(BLOCK), b, rest);
    XorZeros(Dec(c, b));
  }

  /** The first block is unmasked in place by an HMAC of the string after it. */
  method Unmask(c: Suite, iv: Bytes, data: Bytes, len: nat, out: array<bv8>)
    requires Sound(c) && |iv| >= BLOCK && WholeBlocks(data) && |data| > BLOCK && out.Length == |data| + 1
    requires out[..|data|] == CbcDecode(c, Zeros(BLOCK), data) && out[|data|] == 0
    requires len == StrLen(out[BLOCK..|data|])
    modifies out
    ensures out[..] == Plain(c, iv, data) + [0]
  {
    hide CbcDecode;
    ghost var q := out[..|data|];
    assert q[BLOCK..] == out[BLOCK..|data|];
    assert out[BLOCK..BLOCK + len] == CString(q[BLOCK..]);
    var hmac := Hmac(c, iv, out[BLOCK..BLOCK + len]);
    Store(out, 0, Xor(out[..BLOCK], hmac));
    assert q[..BLOCK] == old(out[..BLOCK]);
    assert out[..BLOCK] == Xor(q[..BLOCK], hmac);
    assert Plain(c, iv, data) == Xor(q[..BLOCK], hmac) + q[BLOCK..];
    assert out[..] == (out[..BLOCK] + q[BLOCK..]) + [0];
  }

  /** psync_crypto_aes256_decode_text. */
  method DecodeText(c: Suite, iv: Bytes, data: Bytes) returns (ret: array?<bv8>)
    requires Sound(c) && |iv| >= BLOCK
    ensures ret == null <==> Decoded(c, iv, data) == None
    ensures ret != null ==> fresh(ret) && Decoded(c, iv, data) == Some(ret[..])
  {
    hide CbcDecode;
    var n := |data|;
    if n % 16 != 0 || n == 0 {
      return null;
    }
    var out := new bv8[n + 1];
    var len;
    if n / 16 == 1 {
      DecodeOnly(c, iv, data, out);
      len := StrLenOf(out, 0, n);
    } else {
      DecodeBlocks(c, data, out);
      out[n] := 0;
      len := StrLenOf(out, BLOCK, n);
      Unmask(c, iv, data, len, out);
      len := len + BLOCK;
    }
    ghost var p := Plain(c, iv, data);
    assert out[..n] == p && out[..] == p + [0];
    PaddingScanned(p, TailStart(data), len - TailStart(data));
    var ok := PaddingIsZero(out, len + 1, n);
    assert forall i :: 0 <= i < n ==> p[i] == out[i];
    assert ok <==> ZeroPadded(p, TailStart(data));
    ret := if ok then out else null;
  }
}
