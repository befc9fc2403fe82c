/** A digest worked out: what the rounds, the length and the final mixing come to. */
module FastHashAnswer {
  import opened ByteBits
  import opened Crc32c
  import opened FastHash
  import opened FastHashContext

  // ---- the tables as words ----

  function Pair(x: Word, y: Word): U64 {
    Load64([x.b0, x.b1, x.b2, x.b3, y.b0, y.b1, y.b2, y.b3])
  }

  /** Eight bytes of a table are two of its entries. */
  lemma TwoEntries(k: nat, first: nat, n: nat, m: nat)
    requires first + n / 4 < 256 && 8 * m + 8 <= n
    ensures Load64(TableBytes(k, first, n)[8 * m..8 * m + 8])
         == Pair(Table(k, Octet(ToByte(first + 2 * m))), Table(k, Octet(ToByte(first + 2 * m + 1))))
  {
    hide Table;
    hide ToByte;
    hide Load64;
    var x, y := Table(k, Octet(ToByte(first + 2 * m))), Table(k, Octet(ToByte(first + 2 * m + 1)));
    var d := TableBytes(k, first, n)[8 * m..8 * m + 8];
    assert d == [x.b0, x.b1, x.b2, x.b3, y.b0, y.b1, y.b2, y.b3];
  }

  lemma SmallBytes()
    ensures ByteOf(false, true, false, false, false, false, false, false) == 2
    ensures ByteOf(true, true, false, false, false, false, false, false) == 3
    ensures ByteOf(false, false, true, false, false, false, false, false) == 4
    ensures ByteOf(true, false, true, false, false, false, false, false) == 5
    ensures ByteOf(false, true, true, false, false, false, false, false) == 6
    ensures ByteOf(true, true, true, false, false, false, false, false) == 7
    ensures ByteOf(false, false, false, true, false, false, false, false) == 8
    ensures ByteOf(true, false, false, true, false, false, false, false) == 9
    ensures ByteOf(false, true, false, true, false, false, false, false) == 10
    ensures ByteOf(true, true, false, true, false, false, false, false) == 11
    ensures ByteOf(false, false, true, true, false, false, false, false) == 12
    ensures ByteOf(true, false, true, true, false, false, false, false) == 13
    ensures ByteOf(false, true, true, true, false, false, false, false) == 14
    ensures ByteOf(true, true, true, true, false, false, false, false) == 15
  {
  }

  lemma FirstBytes()
    ensures ToByte(2) == 2 && ToByte(3) == 3 && ToByte(4) == 4 && ToByte(5) == 5 && ToByte(6) == 6
    ensures ToByte(7) == 7 && ToByte(8) == 8
  {
    hide ByteOf;
    SmallBytes();
  }

  lemma NextBytes()
    ensures ToByte(9) == 9 && ToByte(10) == 10 && ToByte(11) == 11 && ToByte(12) == 12 && ToByte(13) == 13
    ensures ToByte(14) == 14 && ToByte(15) == 15
  {
    hide ByteOf;
    SmallBytes();
  }

  lemma StartPairs()
    ensures Pair(Table(0, Octet(2)), Table(0, Octet(3))) == U64(0x1350f3f4e13b70f7)
    ensures Pair(Table(0, Octet(4)), Table(0, Octet(5))) == U64(0x35f1141cc79a971f)
    ensures Pair(Table(0, Octet(6)), Table(0, Octet(7))) == U64(0xd4ca64eb26a1e7e8)
    ensures Pair(Table(0, Octet(8)), Table(0, Octet(9))) == U64(0x78b2dbcc8ad958cf)
    ensures Pair(Table(0, Octet(10)), Table(0, Octet(11))) == U64(0x9989ab3b6be22838)
    ensures Pair(Table(0, Octet(12)), Table(0, Octet(13))) == U64(0xbf284cd34d43cfd0)
  {
  }

  lemma LowPairs()
    ensures Pair(Table(1, Octet(2)), Table(1, Octet(3))) == U64(0x34e7a899274530ee)
    ensures Pair(Table(1, Octet(4)), Table(1, Octet(5))) == U64(0x5d28f9ab4e8a61dc)
    ensures Pair(Table(1, Octet(6)), Table(1, Octet(7))) == U64(0x7a6dc94569cf5132)
    ensures Pair(Table(1, Octet(8)), Table(1, Octet(9))) == U64(0x8eb65bcf9d14c3b8)
  {
  }

  lemma HighPairs()
    ensures Pair(Table(1, Octet(10)), Table(1, Octet(11))) == U64(0xa9f36b21ba51f356)
    ensures Pair(Table(1, Octet(12)), Table(1, Octet(13))) == U64(0xc03c3a13d39ea264)
    ensures Pair(Table(1, Octet(14)), Table(1, Octet(15))) == U64(0xe7790afdf4db928a)
  {
  }

  /** The start state in numbers. */
  lemma StartState()
    ensures InitialState() == State(U64(0x1350f3f4e13b70f7), U64(0x35f1141cc79a971f), U64(0xd4ca64eb26a1e7e8),
                                    U64(0x78b2dbcc8ad958cf), U64(0x9989ab3b6be22838), U64(0xbf284cd34d43cfd0))
  {
    hide TableBytes;
    hide Load64;
    hide Pair;
    hide Table;
    hide ToByte;
    FirstBytes();
    NextBytes();
    StartPairs();
    TwoEntries(0, 2, 48, 0);
    TwoEntries(0, 2, 48, 1);
    TwoEntries(0, 2, 48, 2);
    TwoEntries(0, 2, 48, 3);
    TwoEntries(0, 2, 48, 4);
    TwoEntries(0, 2, 48, 5);
  }

  /** The text 12345678. */
  function Text(): (r: Bytes)
    ensures |r| == 8
  {
    [Octet(0x31), Octet(0x32), Octet(0x33), Octet(0x34), Octet(0x35), Octet(0x36), Octet(0x37), Octet(0x38)]
  }

  function PaddedText(): Block {
    [U64(0x3837363534333231), U64(0x34e7a899274530ee), U64(0x5d28f9ab4e8a61dc),
     U64(0x7a6dc94569cf5132), U64(0x8eb65bcf9d14c3b8), U64(0xa9f36b21ba51f356),
     U64(0xc03c3a13d39ea264), U64(0xe7790afdf4db928a)]
  }

  function MixedText(): Block {
    [U64(0x55657919f28cbb69), U64(0xe5b8f6ff5b8a2404), U64(0xf9bd4ad6ba4df244),
     U64(0xa362776bed4d4eba), U64(0x8eb65bcf9d14c3b8), U64(0xa9f36b21ba51f356),
     U64(0xc03c3a13d39ea264), U64(0xe7790afdf4db928a)]
  }

  lemma PadsText()
    ensures Words(Text() + TableBytes(1, 2, 56)) == PaddedText()
  {
    hide TableBytes;
    hide Load64;
    hide Pair;
    hide Table;
    hide ToByte;
    var t := TableBytes(1, 2, 56);
    var d := Text() + t;
    FirstBytes();
    NextBytes();
    LowPairs();
    HighPairs();
    TextWord();
    assert d[0..8] == Text();
    assert d[8..16] == t[0..8];
    TwoEntries(1, 2, 56, 0);
    assert d[16..24] == t[8..16];
    TwoEntries(1, 2, 56, 1);
    assert d[24..32] == t[16..24];
    TwoEntries(1, 2, 56, 2);
    assert d[32..40] == t[24..32];
    TwoEntries(1, 2, 56, 3);
    assert d[40..48] == t[32..40];
    TwoEntries(1, 2, 56, 4);
    assert d[48..56] == t[40..48];
    TwoEntries(1, 2, 56, 5);
    assert d[56..64] == t[48..56];
    TwoEntries(1, 2, 56, 6);
    assert Words(d) == PaddedText();
  }

  lemma TextWord()
    ensures Load64(Text()) == U64(0x3837363534333231)
  {
  }

  lemma MixesLength()
    ensures LengthMixed(PaddedText(), 8) == MixedText()
  {
  }

  // ---- the CRC of a word ----

  lemma LeOfFour(b0: Octet, b1: Octet, b2: Octet, b3: Octet)
    ensures Le([b0, b1, b2, b3]) == Word(b0, b1, b2, b3)
  {
    hide Xor;
    hide Up;
    LeStep(b3, ZERO);
    LeStep(b2, Word(b3, NUL, NUL, NUL));
    LeStep(b1, Word(b2, b3, NUL, NUL));
    LeMore(b3, []);
    LeMore(b2, [b3]);
    LeMore(b1, [b2, b3]);
    LeMore(b0, [b1, b2, b3]);
    assert [b2] + [b3] == [b2, b3] && [b1] + [b2, b3] == [b1, b2, b3] && [b0] + [b1, b2, b3] == [b0, b1, b2, b3];
    LeStep(b0, Word(b1, b2, b3, NUL));
  }

  lemma {:induction false} LeMore(b: Octet, rest: Bytes)
    requires |rest| < 4
    ensures Le([b] + rest) == Xor(FromByte(b), Up(Le(rest))) && Le([]) == ZERO
    ensures rest == [] ==> [b] + rest == [b]
  {
    assert ([b] + rest)[1..] == rest;
  }

  lemma LeStep(b: Octet, w: Word)
    ensures Xor(FromByte(b), Up(w)) == Word(b, w.b0, w.b1, w.b2)
  {
  }

  /** The instruction on a register and eight bytes. */
  lemma {:induction false} CrcOfEight(crc: U64, data: U64, c: Word, b: Bytes)
    requires BytesOf(crc)[..4] == [c.b0, c.b1, c.b2, c.b3] && BytesOf(data) == b
    ensures CrcHw(crc, data) == FromWord(Crc(c, b))
  {
    hide Crc;
    hide BytesOf;
    hide Le;
    LeOfFour(c.b0, c.b1, c.b2, c.b3);
  }

  lemma FirstCrc()
    ensures Crc64(true, U64(0x9989ab3b6be22838), U64(0xc37f75686414fa1d)) == U64(0x000000009a1f7b67)
  {
    hide Crc;
    hide Le;
    hide CrcSw;
    var c0 := Word(Octet(0x38), Octet(0x28), Octet(0xe2), Octet(0x6b));
    var c1 := Word(Octet(0xea), Octet(0x78), Octet(0x27), Octet(0x15));
    var c2 := Word(Octet(0x17), Octet(0xe0), Octet(0x4b), Octet(0x10));
    var c3 := Word(Octet(0x14), Octet(0xb8), Octet(0x40), Octet(0x13));
    var c4 := Word(Octet(0xb5), Octet(0x14), Octet(0x8b), Octet(0x71));
    var c5 := Word(Octet(0x6c), Octet(0x26), Octet(0x8a), Octet(0x6c));
    var c6 := Word(Octet(0x85), Octet(0x96), Octet(0x80), Octet(0x68));
    var c7 := Word(Octet(0xdb), Octet(0xc7), Octet(0xe4), Octet(0x98));
    var c8 := Word(Octet(0x67), Octet(0x7b), Octet(0x1f), Octet(0x9a));
    NoByte(c8);
    var rest: Bytes := [];
    rest := OneByte(c7, Octet(0xc3), c8, rest, c8);
    rest := OneByte(c6, Octet(0x7f), c7, rest, c8);
    rest := OneByte(c5, Octet(0x75), c6, rest, c8);
    rest := OneByte(c4, Octet(0x68), c5, rest, c8);
    rest := OneByte(c3, Octet(0x64), c4, rest, c8);
    rest := OneByte(c2, Octet(0x14), c3, rest, c8);
    rest := OneByte(c1, Octet(0xfa), c2, rest, c8);
    rest := OneByte(c0, Octet(0x1d), c1, rest, c8);
    CrcOfEight(U64(0x9989ab3b6be22838), U64(0xc37f75686414fa1d), c0, rest);
  }

  lemma SecondCrc()
    ensures Crc64(true, U64(0xbf284cd34d43cfd0), U64(0xbf8ae43d90b6322a)) == U64(0x00000000ebde8bb1)
  {
    hide Crc;
    hide Le;
    hide CrcSw;
    var c0 := Word(Octet(0xd0), Octet(0xcf), Octet(0x43), Octet(0x4d));
    var c1 := Word(Octet(0x82), Octet(0x04), Octet(0xc1), Octet(0x98));
    var c2 := Word(Octet(0xcd), Octet(0xb3), Octet(0x8d), Octet(0xb2));
    var c3 := Word(Octet(0x85), Octet(0x72), Octet(0xa3), Octet(0xe8));
    var c4 := Word(Octet(0x01), Octet(0x70), Octet(0x47), Octet(0x25));
    var c5 := Word(Octet(0x11), Octet(0xc1), Octet(0x85), Octet(0x7d));
    var c6 := Word(Octet(0xa8), Octet(0xfe), Octet(0xe2), Octet(0xc6));
    var c7 := Word(Octet(0xd7), Octet(0x1c), Octet(0x40), Octet(0xc1));
    var c8 := Word(Octet(0xb1), Octet(0x8b), Octet(0xde), Octet(0xeb));
    NoByte(c8);
    var rest: Bytes := [];
    rest := OneByte(c7, Octet(0xbf), c8, rest, c8);
    rest := OneByte(c6, Octet(0x8a), c7, rest, c8);
    rest := OneByte(c5, Octet(0xe4), c6, rest, c8);
    rest := OneByte(c4, Octet(0x3d), c5, rest, c8);
    rest := OneByte(c3, Octet(0x90), c4, rest, c8);
    rest := OneByte(c2, Octet(0xb6), c3, rest, c8);
    rest := OneByte(c1, Octet(0x32), c2, rest, c8);
    rest := OneByte(c0, Octet(0x2a), c1, rest, c8);
    CrcOfEight(U64(0xbf284cd34d43cfd0), U64(0xbf8ae43d90b6322a), c0, rest);
  }

  lemma ThirdCrc()
    ensures Crc64(true, U64(0x000000009a1f7b67), U64(0x04b160b935a56601)) == U64(0x000000004fe54d0b)
  {
    hide Crc;
    hide Le;
    hide CrcSw;
    var c0 := Word(Octet(0x67), Octet(0x7b), Octet(0x1f), Octet(0x9a));
    var c1 := Word(Octet(0xf1), Octet(0x6b), Octet(0xfd), Octet(0x47));
    var c2 := Word(Octet(0x97), Octet(0x65), Octet(0x25), Octet(0x46));
    var c3 := Word(Octet(0x23), Octet(0x1c), Octet(0x9e), Octet(0xd1));
    var c4 := Word(Octet(0x9b), Octet(0xbe), Octet(0x2e), Octet(0x36));
    var c5 := Word(Octet(0x97), Octet(0xd0), Octet(0xb0), Octet(0xc1));
    var c6 := Word(Octet(0x4e), Octet(0xbb), Octet(0x65), Octet(0x27));
    var c7 := Word(Octet(0xea), Octet(0x36), Octet(0x5a), Octet(0xad));
    var c8 := Word(Octet(0x0b), Octet(0x4d), Octet(0xe5), Octet(0x4f));
    NoByte(c8);
    var rest: Bytes := [];
    rest := OneByte(c7, Octet(0x04), c8, rest, c8);
    rest := OneByte(c6, Octet(0xb1), c7, rest, c8);
    rest := OneByte(c5, Octet(0x60), c6, rest, c8);
    rest := OneByte(c4, Octet(0xb9), c5, rest, c8);
    rest := OneByte(c3, Octet(0x35), c4, rest, c8);
    rest := OneByte(c2, Octet(0xa5), c3, rest, c8);
    rest := OneByte(c1, Octet(0x66), c2, rest, c8);
    rest := OneByte(c0, Octet(0x01), c1, rest, c8);
    CrcOfEight(U64(0x000000009a1f7b67), U64(0x04b160b935a56601), c0, rest);
  }

  lemma FourthCrc()
    ensures Crc64(true, U64(0x00000000ebde8bb1), U64(0x3cc771233099c2b9)) == U64(0x0000000088b66a6b)
  {
    hide Crc;
    hide Le;
    hide CrcSw;
    var c0 := Word(Octet(0xb1), Octet(0x8b), Octet(0xde), Octet(0xeb));
    var c1 := Word(Octet(0x44), Octet(0x86), Octet(0x32), Octet(0x8a));
    var c2 := Word(Octet(0x16), Octet(0xee), Octet(0xdd), Octet(0xa4));
    var c3 := Word(Octet(0xb2), Octet(0xda), Octet(0x41), Octet(0xdc));
    var c4 := Word(Octet(0x55), Octet(0x0a), Octet(0x11), Octet(0x63));
    var c5 := Word(Octet(0xef), Octet(0xa2), Octet(0x5a), Octet(0x57));
    var c6 := Word(Octet(0x92), Octet(0x19), Octet(0x87), Octet(0x3e));
    var c7 := Word(Octet(0xd6), Octet(0x49), Octet(0xea), Octet(0x64));
    var c8 := Word(Octet(0x6b), Octet(0x6a), Octet(0xb6), Octet(0x88));
    NoByte(c8);
    var rest: Bytes := [];
    rest := OneByte(c7, Octet(0x3c), c8, rest, c8);
    rest := OneByte(c6, Octet(0xc7), c7, rest, c8);
    rest := OneByte(c5, Octet(0x71), c6, rest, c8);
    rest := OneByte(c4, Octet(0x23), c5, rest, c8);
    rest := OneByte(c3, Octet(0x30), c4, rest, c8);
    rest := OneByte(c2, Octet(0x99), c3, rest, c8);
    rest := OneByte(c1, Octet(0xc2), c2, rest, c8);
    rest := OneByte(c0, Octet(0xb9), c1, rest, c8);
    CrcOfEight(U64(0x00000000ebde8bb1), U64(0x3cc771233099c2b9), c0, rest);
  }

  // ---- the sums of the round and of the final mixing ----

  lemma RoundSums()
    ensures Add(U64(0x1350f3f4e13b70f7), U64(0x55657919f28cbb69)) == U64(0x68b66d0ed3c82c60)
    ensures Add(U64(0x35f1141cc79a971f), U64(0xe5b8f6ff5b8a2404)) == U64(0x1baa0b1c2324bb23)
    ensures Add(U64(0xd4ca64eb26a1e7e8), U64(0xf9bd4ad6ba4df244)) == U64(0xce87afc1e0efda2c)
    ensures Add(U64(0x78b2dbcc8ad958cf), U64(0xa362776bed4d4eba)) == U64(0x1c1553387826a789)
    ensures Rotate(U64(0x68b66d0ed3c82c60), 21) == U64(0x41630345b368769e)
    ensures Xor64(U64(0x1baa0b1c2324bb23), U64(0x41630345b368769e)) == U64(0x5ac90859904ccdbd)
    ensures Rotate(U64(0xce87afc1e0efda2c), 17) == U64(0xed166743d7e0f077)
    ensures Xor64(U64(0x1c1553387826a789), U64(0xed166743d7e0f077)) == U64(0xf103347bafc657fe)
    ensures Add(U64(0x68b66d0ed3c82c60), U64(0x5ac90859904ccdbd)) == U64(0xc37f75686414fa1d)
    ensures Add(U64(0xce87afc1e0efda2c), U64(0xf103347bafc657fe)) == U64(0xbf8ae43d90b6322a)
    ensures Add(U64(0x68b66d0ed3c82c60), U64(0x8eb65bcf9d14c3b8)) == U64(0xf76cc8de70dcf018)
    ensures Add(U64(0x5ac90859904ccdbd), U64(0xa9f36b21ba51f356)) == U64(0x04bc737b4a9ec113)
    ensures Add(U64(0xce87afc1e0efda2c), U64(0xc03c3a13d39ea264)) == U64(0x8ec3e9d5b48e7c90)
    ensures Add(U64(0xf103347bafc657fe), U64(0xe7790afdf4db928a)) == U64(0xd87c3f79a4a1ea88)
    ensures Rotate(U64(0x04bc737b4a9ec113), 13) == U64(0x089825e39bda54f6)
    ensures Xor64(U64(0xf76cc8de70dcf018), U64(0x089825e39bda54f6)) == U64(0xfff4ed3deb06a4ee)
    ensures Rotate(U64(0xd87c3f79a4a1ea88), 16) == U64(0xea88d87c3f79a4a1)
    ensures Xor64(U64(0x8ec3e9d5b48e7c90), U64(0xea88d87c3f79a4a1)) == U64(0x644b31a98bf7d831)
    ensures Add(U64(0xfff4ed3deb06a4ee), U64(0x04bc737b4a9ec113)) == U64(0x04b160b935a56601)
    ensures Add(U64(0x644b31a98bf7d831), U64(0xd87c3f79a4a1ea88)) == U64(0x3cc771233099c2b9)
  {
  }

  lemma FinalSums()
    ensures Rotate(U64(0xd87c3f79a4a1ea88), 43) == U64(0xef34943d511b0f87)
    ensures Xor64(U64(0x644b31a98bf7d831), U64(0xef34943d511b0f87)) == U64(0x8b7fa594daecd7b6)
    ensures Rotate(U64(0xfff4ed3deb06a4ee), 42) == U64(0x4f7ac1a93bbffd3b)
    ensures Add(U64(0xd87c3f79a4a1ea88), U64(0x4f7ac1a93bbffd3b)) == U64(0x27f70122e061e7c3)
    ensures Rotate(U64(0x04bc737b4a9ec113), 41) == U64(0xbda54f6089825e39)
    ensures Xor64(U64(0xfff4ed3deb06a4ee), U64(0xbda54f6089825e39)) == U64(0x4251a25d6284fad7)
    ensures Rotate(U64(0x8b7fa594daecd7b6), 40) == U64(0x94daecd7b68b7fa5)
    ensures Add(U64(0x04bc737b4a9ec113), U64(0x94daecd7b68b7fa5)) == U64(0x99976053012a40b8)
  {
  }

  lemma FinalProducts()
    ensures Add(U64(0x0000000088b66a6b), U64(0x4251a25d6284fad7)) == U64(0x4251a25deb3b6542)
    ensures HashMul2(U64(0x27f70122e061e7c3), U64(0x4251a25deb3b6542)) == U64(0x88c9ca997ab2f658)
    ensures Add(U64(0x000000004fe54d0b), U64(0x99976053012a40b8)) == U64(0x99976053510f8dc3)
    ensures HashMul2(U64(0x4251a25d6284fad7), U64(0x99976053510f8dc3)) == U64(0x5f1c848bf2c3bd0e)
    ensures Add(U64(0x0000000088b66a6b), U64(0x8b7fa594daecd7b6)) == U64(0x8b7fa59563a34221)
    ensures HashMul2(U64(0x99976053012a40b8), U64(0x8b7fa59563a34221)) == U64(0x28c259d869c586f6)
    ensures Add(U64(0x000000004fe54d0b), U64(0x88c9ca997ab2f658)) == U64(0x88c9ca99ca984363)
    ensures HashMul2(U64(0x8b7fa594daecd7b6), U64(0x88c9ca99ca984363)) == U64(0xf52e43fab0d37157)
  {
  }

  lemma FinalWords()
    ensures Add(U64(0x88c9ca997ab2f658), U64(0x5f1c848bf2c3bd0e)) == U64(0xe7e64f256d76b366)
    ensures Add(U64(0xe7e64f256d76b366), U64(0x000000004fe54d0b)) == U64(0xe7e64f25bd5c0071)
    ensures Add(U64(0xe7e64f25bd5c0071), U64(0x0000000088b66a6b)) == U64(0xe7e64f2646126adc)
    ensures Add(U64(0x88c9ca997ab2f658), U64(0x0000000088b66a6b)) == U64(0x88c9ca9a036960c3)
    ensures Mul(U64(0x88c9ca9a036960c3), U64(0xc3a5c85c97cb3127)) == U64(0x6acf52d4703410b5)
    ensures ShiftMix(U64(0x6acf52d4703410b5)) == U64(0x6acf52d47034c52b)
    ensures Mul(U64(0x6acf52d47034c52b), U64(0xc3a5c85c97cb3127)) == U64(0x53cbd56fe7e0448d)
    ensures Add(U64(0x53cbd56fe7e0448d), U64(0x5f1c848bf2c3bd0e)) == U64(0xb2e859fbdaa4019b)
    ensures Xor64(U64(0x28c259d869c586f6), U64(0x000000004fe54d0b)) == U64(0x28c259d82620cbfd)
    ensures Mul(U64(0x28c259d82620cbfd), U64(0xb492b66fbe98f273)) == U64(0xe067fbb605c8cca7)
    ensures ShiftMix(U64(0xe067fbb605c8cca7)) == U64(0xe067fbb605c90c68)
    ensures Mul(U64(0xe067fbb605c90c68), U64(0xb492b66fbe98f273)) == U64(0x4b551be934cae2b8)
    ensures Add(U64(0x4b551be934cae2b8), U64(0xf52e43fab0d37157)) == U64(0x40835fe3e59e540f)
    ensures Sub(U64(0x0000000088b66a6b), U64(0x000000004fe54d0b)) == U64(0x0000000038d11d60)
    ensures Mul(U64(0x0000000038d11d60), U64(0x9ae16a3b2f90404f)) == U64(0x4a49ed6af5e010a0)
    ensures ShiftMix(U64(0x4a49ed6af5e010a0)) == U64(0x4a49ed6af5e08433)
    ensures Mul(U64(0x4a49ed6af5e08433), U64(0x9ae16a3b2f90404f)) == U64(0x17c81dcabb058bbd)
    ensures Xor64(U64(0x28c259d869c586f6), U64(0xf52e43fab0d37157)) == U64(0xddec1a22d916f7a1)
    ensures Add(U64(0x17c81dcabb058bbd), U64(0xddec1a22d916f7a1)) == U64(0xf5b437ed941c835e)
  {
  }

  // ---- the digest ----

  function LastState(): State {
    State(U64(0xd87c3f79a4a1ea88), U64(0xfff4ed3deb06a4ee), U64(0x04bc737b4a9ec113),
          U64(0x644b31a98bf7d831), U64(0x0000000088b66a6b), U64(0x000000004fe54d0b))
  }

  lemma TextRound()
    ensures Round(true, State(U64(0x1350f3f4e13b70f7), U64(0x35f1141cc79a971f), U64(0xd4ca64eb26a1e7e8),
                                 U64(0x78b2dbcc8ad958cf), U64(0x9989ab3b6be22838), U64(0xbf284cd34d43cfd0)),
                  MixedText()) == LastState()
  {
    hide Crc64;
    hide Add;
    hide Xor64;
    hide Rotate;
    RoundSums();
    FirstCrc();
    SecondCrc();
    ThirdCrc();
    FourthCrc();
  }

  lemma TextFinish()
    ensures Finish(LastState())
         == BytesOf(U64(0xe7e64f2646126adc)) + BytesOf(U64(0xb2e859fbdaa4019b))
          + BytesOf(U64(0x40835fe3e59e540f)) + BytesOf(U64(0xf5b437ed941c835e))
  {
    hide BytesOf;
    hide Add;
    hide Xor64;
    hide Rotate;
    hide Sub;
    hide Mul;
    hide HashMul2;
    hide ShiftMix;
    FinalSums();
    FinalProducts();
    FinalWords();
  }

  /** The digest of the text 12345678 without a seed, worked out from the C code's constants
      and its table. */
  lemma {:induction false} TextDigest()
    ensures Digest(InitialState(), Text())
         == BytesOf(U64(0xe7e64f2646126adc)) + BytesOf(U64(0xb2e859fbdaa4019b))
          + BytesOf(U64(0x40835fe3e59e540f)) + BytesOf(U64(0xf5b437ed941c835e))
  {
    hide BytesOf;
    hide Round;
    hide Finish;
    hide LengthMixed;
    hide TableBytes;
    hide StateOf;
    hide Words;
    hide Load64;
    hide MixedText;
    hide PaddedText;
    hide LastState;
    StartState();
    PadsText();
    MixesLength();
    TextRound();
    TextFinish();
    assert Whole(Text()) == 0 && Text()[..0] == [] && Text()[0..] == Text();
  }
}
