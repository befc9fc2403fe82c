/** Bytes and the numbers below 256, bit by bit. */
module ByteBits {

  function Bit(x: nat): bool {
    x % 2 == 1
  }

  function ByteOf(b0: bool, b1: bool, b2: bool, b3: bool, b4: bool, b5: bool, b6: bool, b7: bool): bv8 {
    (if b0 then 1 else 0) | (if b1 then 2 else 0) | (if b2 then 4 else 0) | (if b3 then 8 else 0)
    | (if b4 then 16 else 0) | (if b5 then 32 else 0) | (if b6 then 64 else 0) | (if b7 then 128 else 0)
  }

  lemma ByteOfBits(b0: bool, b1: bool, b2: bool, b3: bool, b4: bool, b5: bool, b6: bool, b7: bool)
    ensures var x := ByteOf(b0, b1, b2, b3, b4, b5, b6, b7);
            && (x & 1 != 0 <==> b0) && (x & 2 != 0 <==> b1) && (x & 4 != 0 <==> b2) && (x & 8 != 0 <==> b3)
            && (x & 16 != 0 <==> b4) && (x & 32 != 0 <==> b5) && (x & 64 != 0 <==> b6) && (x & 128 != 0 <==> b7)
  {
  }

  function ToByte(x: nat): bv8
    requires x < 256
  {
    ByteOf(Bit(x), Bit(x / 2), Bit(x / 4), Bit(x / 8), Bit(x / 16), Bit(x / 32), Bit(x / 64), Bit(x / 128))
  }

  /** The number a byte stands for. */
  function ByteValue(b: bv8): (r: nat)
    ensures r < 256
  {
    BitValue(b & 1 != 0) + 2 * BitValue(b & 2 != 0) + 4 * BitValue(b & 4 != 0) + 8 * BitValue(b & 8 != 0)
    + 16 * BitValue(b & 16 != 0) + 32 * BitValue(b & 32 != 0) + 64 * BitValue(b & 64 != 0) + 128 * BitValue(b & 128 != 0)
  }

  /** It counts: the values of the bytes 0, 1, 2, and so on are 0, 1, 2, and so on. */
  lemma ByteValueCounts(b: bv8)
    ensures ByteValue(0) == 0 && (b != 255 ==> ByteValue(b + 1) == ByteValue(b) + 1)
  {
  }

  function BitValue(bit: bool): (r: nat)
    ensures r <= 1
  {
    if bit then 1 else 0
  }

  lemma SameBit(p: bool, q: bool)
    requires p <==> q
    ensures BitValue(p) == BitValue(q)
  {
  }

  lemma ValueOfBits(b0: bool, b1: bool, b2: bool, b3: bool, b4: bool, b5: bool, b6: bool, b7: bool)
    ensures ByteValue(ByteOf(b0, b1, b2, b3, b4, b5, b6, b7))
         == BitValue(b0) + 2 * BitValue(b1) + 4 * BitValue(b2) + 8 * BitValue(b3)
          + 16 * BitValue(b4) + 32 * BitValue(b5) + 64 * BitValue(b6) + 128 * BitValue(b7)
  {
    hide ByteOf;
    hide BitValue;
    var x := ByteOf(b0, b1, b2, b3, b4, b5, b6, b7);
    ByteOfBits(b0, b1, b2, b3, b4, b5, b6, b7);
    SameBit(x & 1 != 0, b0);
    SameBit(x & 2 != 0, b1);
    SameBit(x & 4 != 0, b2);
    SameBit(x & 8 != 0, b3);
    SameBit(x & 16 != 0, b4);
    SameBit(x & 32 != 0, b5);
    SameBit(x & 64 != 0, b6);
    SameBit(x & 128 != 0, b7);
  }

  lemma ByteRoundTrip(x: nat)
    requires x < 256
    ensures ByteValue(ToByte(x)) == x
  {
    hide ByteOf;
    hide Bit;
    hide ByteValue;
    hide BitValue;
    ValueOfBits(Bit(x), Bit(x / 2), Bit(x / 4), Bit(x / 8), Bit(x / 16), Bit(x / 32), Bit(x / 64), Bit(x / 128));
    BitSum(x);
  }

  lemma ToByteInjective(x: nat, y: nat)
    requires x < 256 && y < 256 && ToByte(x) == ToByte(y)
    ensures x == y
  {
    ByteRoundTrip(x);
    ByteRoundTrip(y);
  }

  lemma BitSum(x: nat)
    requires x < 256
    ensures x == BitValue(Bit(x)) + 2 * BitValue(Bit(x / 2)) + 4 * BitValue(Bit(x / 4)) + 8 * BitValue(Bit(x / 8))
              + 16 * BitValue(Bit(x / 16)) + 32 * BitValue(Bit(x / 32)) + 64 * BitValue(Bit(x / 64)) + 128 * BitValue(Bit(x / 128))
  {
    hide Bit;
    hide BitValue;
    SplitBit(x, x / 2);
    SplitBit(x / 2, x / 4);
    SplitBit(x / 4, x / 8);
    SplitBit(x / 8, x / 16);
    SplitBit(x / 16, x / 32);
    SplitBit(x / 32, x / 64);
    SplitBit(x / 64, x / 128);
    SplitBit(x / 128, 0);
  }

  lemma SplitBit(x: nat, h: nat)
    requires h == x / 2
    ensures x == 2 * h + BitValue(Bit(x))
  {
  }
}
