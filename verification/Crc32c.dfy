/**
 The CRC-32C register: the bytewise definition, its linearity, and the identities
 behind the eight-byte tables and the three parallel lanes. The polynomial is the one
 in section 12.1 of RFC 3720, without the inversions before and after.
 */
module Crc32c {

  datatype Octet = Octet(bits: bv8)

  type Bytes = seq<Octet>

  /** A 32-bit word by its bytes, the low byte first. */
  datatype Word = Word(b0: Octet, b1: Octet, b2: Octet, b3: Octet)

  /** 0x82f63b78. */
  const POLY := Word(Octet(0x78), Octet(0x3b), Octet(0xf6), Octet(0x82))
  const NUL := Octet(0)
  const ZERO := Word(NUL, NUL, NUL, NUL)

  function Mix(x: Octet, y: Octet): Octet {
    Octet(x.bits ^ y.bits)
  }

  function Xor(x: Word, y: Word): Word {
    Word(Mix(x.b0, y.b0), Mix(x.b1, y.b1), Mix(x.b2, y.b2), Mix(x.b3, y.b3))
  }

  function FromByte(b: Octet): Word {
    Word(b, NUL, NUL, NUL)
  }

  // ---- the definition ----

  predicate Odd(c: Word) {
    c.b0.bits & 1 != 0
  }

  /** One byte of a word shifted right by one bit: the next byte's low bit comes in. */
  function HalfByte(b: Octet, next: Octet): Octet {
    Octet((b.bits >> 1) | (next.bits << 7))
  }

  function Half(c: Word): Word {
    Word(HalfByte(c.b0, c.b1), HalfByte(c.b1, c.b2), HalfByte(c.b2, c.b3), HalfByte(c.b3, NUL))
  }

  /** One zero bit shifted through the register. */
  function BitStep(c: Word): Word {
    if Odd(c) then Xor(Half(c), POLY) else Half(c)
  }

  /** Eight zero bits shifted through the register. */
  function ByteShift(c: Word): Word {
    BitStep(BitStep(BitStep(BitStep(BitStep(BitStep(BitStep(BitStep(c))))))))
  }

  function ByteStep(c: Word, b: Octet): Word {
    ByteShift(Xor(c, FromByte(b)))
  }

  /** The register after a message, byte by byte. */
  function Crc(c: Word, data: Bytes): Word
    decreases |data|
  {
    if |data| == 0 then c else Crc(ByteStep(c, data[0]), data[1..])
  }

  /** n zero bytes shifted through the register. */
  function Shift(n: nat, c: Word): Word {
    if n == 0 then c else Shift(n - 1, ByteShift(c))
  }

  // ---- the check value ----

  const ONES := Word(Octet(0xff), Octet(0xff), Octet(0xff), Octet(0xff))

  /** One byte more in front. */
  lemma {:induction false} OneByte(c: Word, b: Octet, next: Word, rest: Bytes, last: Word) returns (all: Bytes)
    requires ByteStep(c, b) == next && Crc(next, rest) == last
    ensures all == [b] + rest && Crc(c, all) == last
  {
    hide ByteStep;
    all := [b] + rest;
    assert all[1..] == rest;
  }

  /** The published check value of CRC-32C: with the inversions before and after, the text
      123456789 gives 0xe3069283. */
  lemma {:induction false} CheckValue(text: Bytes)
    requires text == [Octet(0x31), Octet(0x32), Octet(0x33), Octet(0x34), Octet(0x35), Octet(0x36), Octet(0x37),
                      Octet(0x38), Octet(0x39)]
    ensures Xor(Crc(ONES, text), ONES) == Word(Octet(0x83), Octet(0x92), Octet(0x06), Octet(0xe3))
  {
    hide Crc;
    var c1 := Word(Octet(0x1c), Octet(0x66), Octet(0x0a), Octet(0x6f));
    var c2 := Word(Octet(0x9f), Octet(0x3b), Octet(0xaa), Octet(0x8c));
    var c3 := Word(Octet(0x4d), Octet(0xd0), Octet(0x84), Octet(0xef));
    var c4 := Word(Octet(0x11), Octet(0x0b), Octet(0xc5), Octet(0x09));
    var c5 := Word(Octet(0xca), Octet(0xdc), Octet(0x2e), Octet(0xe7));
    var c6 := Word(Octet(0x79), Octet(0x8e), Octet(0xca), Octet(0xbe));
    var c7 := Word(Octet(0x15), Octet(0x68), Octet(0xbd), Octet(0xed));
    var c8 := Word(Octet(0x65), Octet(0x7f), Octet(0x78), Octet(0x9f));
    var c9 := Word(Octet(0x7c), Octet(0x6d), Octet(0xf9), Octet(0x1c));
    NoByte(c9);
    var rest: Bytes := [];
    rest := OneByte(c8, Octet(0x39), c9, rest, c9);
    rest := OneByte(c7, Octet(0x38), c8, rest, c9);
    rest := OneByte(c6, Octet(0x37), c7, rest, c9);
    rest := OneByte(c5, Octet(0x36), c6, rest, c9);
    rest := OneByte(c4, Octet(0x35), c5, rest, c9);
    rest := OneByte(c3, Octet(0x34), c4, rest, c9);
    rest := OneByte(c2, Octet(0x33), c3, rest, c9);
    rest := OneByte(c1, Octet(0x32), c2, rest, c9);
    rest := OneByte(ONES, Octet(0x31), c1, rest, c9);
    assert rest == text;
  }

  lemma NoByte(c: Word)
    ensures Crc(c, []) == c
  {
  }

  // ---- xor ----

  lemma MixLaws(a: Octet, b: Octet)
    ensures Mix(a, b) == Mix(b, a) && Mix(Mix(a, b), b) == a && Mix(a, NUL) == a && Mix(NUL, a) == a
  {
    MixCancels(a, b);
  }

  lemma MixCancels(a: Octet, b: Octet)
    ensures Mix(Mix(a, b), b) == a
  {
  }

  lemma MixAssoc(a: Octet, b: Octet, c: Octet)
    ensures Mix(Mix(a, b), c) == Mix(a, Mix(b, c))
  {
  }

  lemma XorAssoc(a: Word, b: Word, c: Word)
    ensures Xor(Xor(a, b), c) == Xor(a, Xor(b, c))
  {
    hide Mix;
    MixAssoc(a.b0, b.b0, c.b0);
    MixAssoc(a.b1, b.b1, c.b1);
    MixAssoc(a.b2, b.b2, c.b2);
    MixAssoc(a.b3, b.b3, c.b3);
  }

  lemma XorCommutes(a: Word, b: Word)
    ensures Xor(a, b) == Xor(b, a)
  {
    XorLaws(a, b);
  }

  lemma XorLaws(a: Word, b: Word)
    ensures Xor(a, b) == Xor(b, a) && Xor(Xor(a, b), b) == a
  {
    hide Mix;
    MixLaws(a.b0, b.b0);
    MixLaws(a.b1, b.b1);
    MixLaws(a.b2, b.b2);
    MixLaws(a.b3, b.b3);
  }

  lemma XorZero(a: Word)
    ensures Xor(a, ZERO) == a && Xor(ZERO, a) == a
  {
    hide Mix;
    MixLaws(a.b0, NUL);
    MixLaws(a.b1, NUL);
    MixLaws(a.b2, NUL);
    MixLaws(a.b3, NUL);
  }

  lemma XorSwap(a: Word, b: Word, c: Word)
    ensures Xor(Xor(a, b), c) == Xor(Xor(a, c), b)
  {
    hide Xor;
    XorAssoc(a, b, c);
    XorCommutes(b, c);
    XorAssoc(a, c, b);
  }

  // ---- linearity ----

  lemma HalfByteMix(x: Octet, y: Octet, xn: Octet, yn: Octet)
    ensures HalfByte(Mix(x, y), Mix(xn, yn)) == Mix(HalfByte(x, xn), HalfByte(y, yn))
  {
  }

  lemma HalfXor(x: Word, y: Word)
    ensures Half(Xor(x, y)) == Xor(Half(x), Half(y))
  {
    hide HalfByte;
    hide Mix;
    HalfByteMix(x.b0, y.b0, x.b1, y.b1);
    HalfByteMix(x.b1, y.b1, x.b2, y.b2);
    HalfByteMix(x.b2, y.b2, x.b3, y.b3);
    HalfByteMix(x.b3, y.b3, NUL, NUL);
    MixLaws(NUL, NUL);
  }

  lemma OddXor(x: Word, y: Word)
    ensures Odd(Xor(x, y)) <==> Odd(x) != Odd(y)
  {
  }

  lemma BitStepLinear(x: Word, y: Word)
    ensures BitStep(Xor(x, y)) == Xor(BitStep(x), BitStep(y))
  {
    hide Odd;
    hide Half;
    hide Xor;
    HalfXor(x, y);
    OddXor(x, y);
    XorSwap(Half(x), Half(y), POLY);
    XorAssoc(Half(x), Half(y), POLY);
    var a := Xor(Half(x), POLY);
    XorAssoc(a, Half(y), POLY);
    XorSwap(Half(x), POLY, Half(y));
    XorLaws(Xor(Half(x), Half(y)), POLY);
  }

  lemma ByteShiftLinear(x: Word, y: Word)
    ensures ByteShift(Xor(x, y)) == Xor(ByteShift(x), ByteShift(y))
  {
    hide BitStep;
    hide Xor;
    var x1, y1 := BitStep(x), BitStep(y);
    var x2, y2 := BitStep(x1), BitStep(y1);
    var x3, y3 := BitStep(x2), BitStep(y2);
    var x4, y4 := BitStep(x3), BitStep(y3);
    var x5, y5 := BitStep(x4), BitStep(y4);
    var x6, y6 := BitStep(x5), BitStep(y5);
    var x7, y7 := BitStep(x6), BitStep(y6);
    BitStepLinear(x, y);
    BitStepLinear(x1, y1);
    BitStepLinear(x2, y2);
    BitStepLinear(x3, y3);
    BitStepLinear(x4, y4);
    BitStepLinear(x5, y5);
    BitStepLinear(x6, y6);
    BitStepLinear(x7, y7);
  }

  lemma {:induction false} ShiftLinear(n: nat, x: Word, y: Word)
    ensures Shift(n, Xor(x, y)) == Xor(Shift(n, x), Shift(n, y))
  {
    hide ByteShift;
    hide Xor;
    if n == 0 {
    } else {
      ByteShiftLinear(x, y);
      ShiftLinear(n - 1, ByteShift(x), ByteShift(y));
    }
  }

  lemma {:induction false} ShiftAdd(m: nat, n: nat, c: Word)
    ensures Shift(m + n, c) == Shift(n, Shift(m, c))
  {
    hide ByteShift;
    if m == 0 {
    } else {
      ShiftAdd(m - 1, n, ByteShift(c));
    }
  }

  // ---- messages ----

  /** A message can be continued from the register its first part left. */
  lemma {:induction false} CrcConcat(c: Word, a: Bytes, b: Bytes)
    ensures Crc(c, a + b) == Crc(Crc(c, a), b)
    decreases |a|
  {
    hide ByteStep;
    if |a| == 0 {
      assert a + b == b;
    } else {
      assert (a + b)[0] == a[0] && (a + b)[1..] == a[1..] + b;
      CrcConcat(ByteStep(c, a[0]), a[1..], b);
    }
  }

  /** The register is linear in where it starts: a difference in the start is shifted
      by the length of the message. */
  lemma {:induction false} CrcLinear(c: Word, e: Word, data: Bytes)
    ensures Crc(Xor(c, e), data) == Xor(Crc(c, data), Shift(|data|, e))
    decreases |data|
  {
    hide ByteShift;
    hide Xor;
    hide FromByte;
    if |data| == 0 {
    } else {
      var b := FromByte(data[0]);
      XorSwap(c, e, b);
      ByteShiftLinear(Xor(c, b), e);
      CrcLinear(ByteShift(Xor(c, b)), ByteShift(e), data[1..]);
    }
  }

  lemma {:induction false} CrcFromZero(c: Word, data: Bytes)
    ensures Crc(c, data) == Xor(Shift(|data|, c), Crc(ZERO, data))
  {
    hide ByteStep;
    hide Xor;
    XorZero(c);
    CrcLinear(ZERO, c, data);
    XorCommutes(Crc(ZERO, data), Shift(|data|, c));
  }

  /** Two lanes: the second part can be run from zero, at the same time as the first. */
  lemma {:induction false} CrcLanes(c: Word, a: Bytes, b: Bytes)
    ensures Crc(c, a + b) == Xor(Shift(|b|, Crc(c, a)), Crc(ZERO, b))
  {
    hide ByteStep;
    hide Xor;
    CrcConcat(c, a, b);
    CrcFromZero(Crc(c, a), b);
  }

  // ---- bytes of a word ----

  function Byte(c: Word, i: nat): Octet
    requires i < 4
  {
    if i == 0 then c.b0 else if i == 1 then c.b1 else if i == 2 then c.b2 else c.b3
  }

  /** A byte shifted left by i bytes. */
  function Put(b: Octet, i: nat): Word
    requires i < 4
  {
    if i == 0 then Word(b, NUL, NUL, NUL)
    else if i == 1 then Word(NUL, b, NUL, NUL)
    else if i == 2 then Word(NUL, NUL, b, NUL)
    else Word(NUL, NUL, NUL, b)
  }

  /** Right and left shifts by one byte. */
  function Down(c: Word): Word {
    Word(c.b1, c.b2, c.b3, NUL)
  }

  function Up(c: Word): Word {
    Word(NUL, c.b0, c.b1, c.b2)
  }

  predicate NoTop(w: Word) {
    w.b3 == NUL
  }

  lemma FourBytes(c: Word)
    ensures c == Xor(Xor(Xor(Put(Byte(c, 0), 0), Put(Byte(c, 1), 1)), Put(Byte(c, 2), 2)), Put(Byte(c, 3), 3))
  {
    hide Mix;
    MixLaws(c.b0, NUL);
    MixLaws(c.b1, NUL);
    MixLaws(c.b2, NUL);
    MixLaws(c.b3, NUL);
    MixLaws(NUL, NUL);
  }

  lemma LowAndHigh(c: Word)
    ensures c == Xor(FromByte(Byte(c, 0)), Up(Down(c)))
  {
    hide Mix;
    MixLaws(c.b0, NUL);
    MixLaws(c.b1, NUL);
    MixLaws(c.b2, NUL);
    MixLaws(c.b3, NUL);
  }

  /** Eight zero bits at the low end are shifted out without the polynomial. */
  lemma ShiftOut(w: Word)
    requires NoTop(w)
    ensures ByteShift(Up(w)) == w
  {
    hide BitStep;
    hide Up;
    hide NoTop;
    hide Half;
    hide Odd;
    var h0 := Up(w);
    var h1 := Half(h0);
    var h2 := Half(h1);
    var h3 := Half(h2);
    var h4 := Half(h3);
    var h5 := Half(h4);
    var h6 := Half(h5);
    var h7 := Half(h6);
    ZeroBits(w);
    EvenStep(h0);
    EvenStep(h1);
    EvenStep(h2);
    EvenStep(h3);
    EvenStep(h4);
    EvenStep(h5);
    EvenStep(h6);
    EvenStep(h7);
    UpDown(w);
  }

  lemma EvenStep(h: Word)
    requires !Odd(h)
    ensures BitStep(h) == Half(h)
  {
  }

  lemma ZeroBits(w: Word)
    ensures var h := Up(w);
            && !Odd(h) && !Odd(Half(h)) && !Odd(Half(Half(h))) && !Odd(Half(Half(Half(h))))
            && !Odd(Half(Half(Half(Half(h))))) && !Odd(Half(Half(Half(Half(Half(h))))))
            && !Odd(Half(Half(Half(Half(Half(Half(h)))))))
            && !Odd(Half(Half(Half(Half(Half(Half(Half(h))))))))
  {
  }

  lemma UpDown(w: Word)
    requires NoTop(w)
    ensures Half(Half(Half(Half(Half(Half(Half(Half(Up(w))))))))) == w
  {
  }

  // ---- words of a message ----

  /** Up to four bytes as they are loaded into a little-endian word. */
  function Le(data: Bytes): Word
    requires |data| <= 4
  {
    if |data| == 0 then ZERO else Xor(FromByte(data[0]), Up(Le(data[1..])))
  }

  /** The word has at most n nonzero bytes, at the low end. */
  predicate Fits(w: Word, n: nat) {
    (n <= 0 ==> w.b0 == NUL) && (n <= 1 ==> w.b1 == NUL) && (n <= 2 ==> w.b2 == NUL) && (n <= 3 ==> w.b3 == NUL)
  }

  lemma FitsNoTop(w: Word, n: nat)
    requires n <= 3 && Fits(w, n)
    ensures NoTop(w)
  {
  }

  lemma FitsStep(b: Octet, w: Word, n: nat)
    requires n < 3 && Fits(w, n)
    ensures Fits(Xor(FromByte(b), Up(w)), n + 1)
  {
    hide Mix;
    MixLaws(w.b0, NUL);
    MixLaws(w.b1, NUL);
    MixLaws(w.b2, NUL);
  }

  lemma {:induction false} LeFits(data: Bytes)
    requires |data| <= 3
    ensures Fits(Le(data), |data|)
  {
    if |data| == 0 {
    } else {
      LeFits(data[1..]);
      FitsStep(data[0], Le(data[1..]), |data| - 1);
    }
  }

  /** Up to four bytes can be mixed into the register at once, before the shifts. */
  lemma {:induction false} CrcOfWord(c: Word, data: Bytes)
    requires |data| <= 4
    ensures Crc(c, data) == Shift(|data|, Xor(c, Le(data)))
    decreases |data|
  {
    hide ByteShift;
    hide Xor;
    hide Up;
    hide FromByte;
    hide Fits;
    if |data| == 0 {
      XorZero(c);
    } else {
      var b, rest := FromByte(data[0]), data[1..];
      var w := Le(rest);
      CrcOfWord(ByteStep(c, data[0]), rest);
      XorAssoc(c, b, Up(w));
      ByteShiftLinear(Xor(c, b), Up(w));
      LeFits(rest);
      FitsNoTop(w, |rest|);
      ShiftOut(w);
    }
  }

  lemma ByteOfStep(b: Octet, w: Word)
    ensures var v := Xor(FromByte(b), Up(w));
            Byte(v, 0) == b && Byte(v, 1) == Byte(w, 0) && Byte(v, 2) == Byte(w, 1) && Byte(v, 3) == Byte(w, 2)
  {
    hide Mix;
    MixLaws(b, NUL);
    MixLaws(w.b0, NUL);
    MixLaws(w.b1, NUL);
    MixLaws(w.b2, NUL);
  }

  lemma {:induction false} ByteOfLe(d: Bytes)
    requires |d| == 4
    ensures var w := Le(d); Byte(w, 0) == d[0] && Byte(w, 1) == d[1] && Byte(w, 2) == d[2] && Byte(w, 3) == d[3]
  {
    hide Xor;
    hide FromByte;
    hide Up;
    hide Byte;
    assert Le(d) == Xor(FromByte(d[0]), Up(Le(d[1..])));
    assert d[1..][1..] == d[2..] && d[2..][1..] == d[3..];
    ByteOfStep(d[0], Le(d[1..]));
    ByteOfStep(d[1], Le(d[2..]));
    ByteOfStep(d[2], Le(d[3..]));
    ByteOfStep(d[3], Le(d[3..][1..]));
  }

  // ---- tables ----

  /** Entry i of table k: the first holds single bytes' remainders, each later one the
      earlier one's with another zero byte after them. */
  function Table(k: nat, i: Octet): Word {
    if k == 0 then ByteShift(FromByte(i))
    else
      var t := Table(k - 1, i);
      Xor(ByteShift(FromByte(Byte(t, 0))), Down(t))
  }

  lemma DownNoTop(c: Word)
    ensures NoTop(Down(c))
  {
  }

  /** One table lookup is eight bit steps. */
  lemma ByteShiftByTable(c: Word)
    ensures ByteShift(c) == Xor(ByteShift(FromByte(Byte(c, 0))), Down(c))
  {
    hide ByteShift;
    hide Xor;
    hide Up;
    hide Down;
    hide Byte;
    hide FromByte;
    hide NoTop;
    LowAndHigh(c);
    ByteShiftLinear(FromByte(Byte(c, 0)), Up(Down(c)));
    DownNoTop(c);
    ShiftOut(Down(c));
  }

  lemma {:induction false} TableIsShift(k: nat, i: Octet)
    ensures Table(k, i) == Shift(k + 1, FromByte(i))
  {
    hide ByteShift;
    hide Byte;
    hide Xor;
    hide Down;
    hide FromByte;
    if k == 0 {
      assert Shift(1, FromByte(i)) == Shift(0, ByteShift(FromByte(i)));
    } else {
      TableIsShift(k - 1, i);
      var t := Table(k - 1, i);
      ByteShiftByTable(t);
      ShiftAdd(k, 1, FromByte(i));
      assert Shift(1, t) == Shift(0, ByteShift(t));
    }
  }

  lemma PutUp(b: Octet, i: nat)
    requires 0 < i < 4
    ensures Put(b, i) == Up(Put(b, i - 1)) && NoTop(Put(b, i - 1))
  {
  }

  lemma PutLow(b: Octet)
    ensures Put(b, 0) == FromByte(b)
  {
  }

  /** A byte higher up in the word has that much less of the shift ahead of it. */
  lemma {:induction false} ShiftPut(n: nat, b: Octet, i: nat)
    requires i < 4
    ensures Shift(n + i, Put(b, i)) == Shift(n, FromByte(b))
  {
    hide ByteShift;
    hide Put;
    hide Up;
    hide NoTop;
    hide FromByte;
    if i == 0 {
      PutLow(b);
    } else {
      PutUp(b, i);
      ShiftOut(Put(b, i - 1));
      ShiftPut(n, b, i - 1);
    }
  }

  function Xor4(a: Word, b: Word, c: Word, d: Word): Word {
    Xor(Xor(Xor(a, b), c), d)
  }

  lemma {:induction false} ShiftXor4(n: nat, a: Word, b: Word, c: Word, d: Word)
    ensures Shift(n, Xor4(a, b, c, d)) == Xor4(Shift(n, a), Shift(n, b), Shift(n, c), Shift(n, d))
  {
    hide Xor;
    hide Shift;
    ShiftLinear(n, a, b);
    ShiftLinear(n, Xor(a, b), c);
    ShiftLinear(n, Xor(Xor(a, b), c), d);
  }

  /** Four lookups shift a whole word, by four bytes or more. */
  lemma {:induction false} ShiftByTables(k: nat, x: Word)
    ensures Shift(k + 4, x)
         == Xor4(Table(k + 3, Byte(x, 0)), Table(k + 2, Byte(x, 1)), Table(k + 1, Byte(x, 2)), Table(k, Byte(x, 3)))
  {
    hide Xor;
    hide Shift;
    hide Table;
    hide Byte;
    hide Put;
    var b0, b1, b2, b3 := Byte(x, 0), Byte(x, 1), Byte(x, 2), Byte(x, 3);
    var n := k + 4;
    FourBytes(x);
    ShiftXor4(n, Put(b0, 0), Put(b1, 1), Put(b2, 2), Put(b3, 3));
    ShiftPut(k + 4, b0, 0);
    ShiftPut(k + 3, b1, 1);
    ShiftPut(k + 2, b2, 2);
    ShiftPut(k + 1, b3, 3);
    TableIsShift(k + 3, b0);
    TableIsShift(k + 2, b1);
    TableIsShift(k + 1, b2);
    TableIsShift(k, b3);
  }

  /** CRC32C_8BIT. */
  function Step8(c: Word, b: Octet): Word {
    Xor(Table(0, Byte(Xor(c, FromByte(b)), 0)), Down(c))
  }

  lemma DownMixed(c: Word, b: Octet)
    ensures Down(Xor(c, FromByte(b))) == Down(c)
  {
    hide Mix;
    MixLaws(c.b1, NUL);
    MixLaws(c.b2, NUL);
    MixLaws(c.b3, NUL);
  }

  lemma {:induction false} Step8IsByteStep(c: Word, b: Octet)
    ensures Step8(c, b) == ByteStep(c, b)
  {
    hide ByteShift;
    hide Xor;
    hide FromByte;
    hide Byte;
    hide Down;
    ByteShiftByTable(Xor(c, FromByte(b)));
    DownMixed(c, b);
  }

  /** CRC32C_64BIT: the first four bytes are mixed into the register as a word. */
  function Step64(c: Word, low: Word, d4: Octet, d5: Octet, d6: Octet, d7: Octet): Word {
    var x := Xor(c, low);
    Xor(Xor(Xor(Xor(
      Xor4(Table(7, Byte(x, 0)), Table(6, Byte(x, 1)), Table(5, Byte(x, 2)), Table(4, Byte(x, 3))),
      Table(3, d4)), Table(2, d5)), Table(1, d6)), Table(0, d7))
  }

  /** Eight bytes by eight lookups, exactly as one at a time. */
  lemma {:induction false} Step64IsCrc(c: Word, d: Bytes)
    requires |d| == 8
    ensures Step64(c, Le(d[..4]), d[4], d[5], d[6], d[7]) == Crc(c, d)
  {
    hide Xor;
    hide Shift;
    hide Table;
    hide Byte;
    hide Le;
    hide Crc;
    var lo, hi := d[..4], d[4..];
    var x := Xor(c, Le(lo));
    var w := Le(hi);
    var k := 4;
    assert d == lo + hi;
    CrcConcat(c, lo, hi);
    CrcOfWord(c, lo);
    CrcFromZero(Crc(c, lo), hi);
    ShiftAdd(k, k, x);
    ShiftByTables(k, x);
    CrcOfWord(ZERO, hi);
    XorZero(w);
    ShiftByTables(0, w);
    ByteOfLe(hi);
    XorChain(Shift(k + 4, x), Table(3, hi[0]), Table(2, hi[1]), Table(1, hi[2]), Table(0, hi[3]));
  }

  lemma XorChain(x: Word, a: Word, b: Word, c: Word, d: Word)
    ensures Xor(Xor(Xor(Xor(x, a), b), c), d) == Xor(x, Xor4(a, b, c, d))
  {
    hide Xor;
    XorAssoc(x, a, b);
    XorAssoc(x, Xor(a, b), c);
    XorAssoc(x, Xor(Xor(a, b), c), d);
  }

  // ---- the shift by a whole chunk ----

  /** crc32c_shift_chunk, for a table of shifts by n bytes. */
  function ShiftChunk(n: nat, c: Word): Word {
    Xor4(Shift(n, Put(Byte(c, 0), 0)), Shift(n, Put(Byte(c, 1), 1)),
         Shift(n, Put(Byte(c, 2), 2)), Shift(n, Put(Byte(c, 3), 3)))
  }

  lemma {:induction false} ShiftChunkIsShift(n: nat, c: Word)
    ensures ShiftChunk(n, c) == Shift(n, c)
  {
    hide Shift;
    hide Xor;
    hide Put;
    hide Byte;
    FourBytes(c);
    ShiftXor4(n, Put(Byte(c, 0), 0), Put(Byte(c, 1), 1), Put(Byte(c, 2), 2), Put(Byte(c, 3), 3));
  }
}
