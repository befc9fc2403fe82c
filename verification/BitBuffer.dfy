/**
 The bit streams of both sides. The writer collects bits in a word and puts out whole
 bytes; the reader keeps the bits it has fetched and not used, and near the end of its
 input fetches no byte before the next code needs it.
 */
module BitBuffer {
  import opened Bits
  import opened CanonicalCodes
  import opened InflateTables
  import opened LittleEndian

  // ---- numbers made of bytes ----

  lemma {:induction false} LeSnoc(d: Bytes, b: Byte)
    ensures LeVal(d + [b]) == LeVal(d) + Pow2(8 * |d|) * b
  {
    if d == [] {
    } else {
      assert (d + [b])[1..] == d[1..] + [b];
      LeSnoc(d[1..], b);
      ByteShift(|d| - 1);
      MulAssoc(256, Pow2(8 * (|d| - 1)), b);
    }
  }

  lemma ByteShift(n: nat)
    ensures Pow2(8 * (n + 1)) == 256 * Pow2(8 * n)
  {
    Pow2Add(8, 8 * n);
    assert Pow2(4) == 16;
    Pow2Add(4, 4);
  }

  /** The bits of a number below 2^n, with more bits above. */
  lemma {:induction false} LsbBitsSame(v: nat, r: nat, n: nat, l: nat)
    requires l <= n
    ensures LsbBits(v + Pow2(n) * r, l) == LsbBits(v, l)
  {
    if l > 0 {
      MulAssoc(2, Pow2(n - 1), r);
      LowBit(v, Pow2(n - 1) * r);
      LsbBitsSame(v / 2, r, n - 1, l - 1);
    }
  }

  lemma LowBit(v: nat, x: nat)
    ensures (v + 2 * x) % 2 == v % 2 && (v + 2 * x) / 2 == v / 2 + x
  {
  }

  // ---- writing ----

  class BitWriter {
    var out: Bytes
    var bitBuffer: nat
    var bitsIn: nat

    ghost predicate Valid()
      reads this
    {
      bitsIn < 8 && bitBuffer < Pow2(bitsIn)
    }

    /** How many bits have been written, and the number they are. */
    ghost function Count(): nat
      reads this
    {
      8 * |out| + bitsIn
    }

    ghost function Value(): nat
      reads this
    {
      LeVal(out) + Pow2(8 * |out|) * bitBuffer
    }

    constructor ()
      ensures Valid() && Count() == 0 && Value() == 0 && out == []
    {
      out, bitBuffer, bitsIn := [], 0, 0;
    }

    /** TDEFL_PUT_BITS: the bits go above those written before. A word holds them all. */
    method PutBits(bits: nat, len: nat)
      requires Valid() && bits < Pow2(len) && len <= 24
      modifies this
      ensures Valid() && Count() == old(Count()) + len
      ensures Value() == old(Value()) + Pow2(old(Count())) * bits
    {
      hide Pow2;
      hide LeVal;
      ghost var count, value := Count() + len, Value() + Pow2(Count()) * bits;
      AddBits(LeVal(out), |out|, bitBuffer, bitsIn, bits, len);
      bitBuffer := bitBuffer + Pow2(bitsIn) * bits;
      bitsIn := bitsIn + len;
      while bitsIn >= 8
        invariant bitBuffer < Pow2(bitsIn) && Count() == count && Value() == value
        decreases bitsIn
      {
        TakeByte(out, bitBuffer, bitsIn);
        out := out + [bitBuffer % 256];
        bitBuffer := bitBuffer / 256;
        bitsIn := bitsIn - 8;
      }
    }

    /** The last byte is filled up with zeros. */
    method Flush()
      requires Valid()
      modifies this
      ensures Valid() && bitsIn == 0 && LeVal(out) == old(Value()) && |out| == (old(Count()) + 7) / 8
    {
      if bitsIn > 0 {
        PutBits(0, 8 - bitsIn);
      }
    }
  }

  lemma AddBits(low: nat, n: nat, buffer: nat, bitsIn: nat, bits: nat, len: nat)
    requires buffer < Pow2(bitsIn) && bits < Pow2(len)
    ensures buffer + Pow2(bitsIn) * bits < Pow2(bitsIn + len)
    ensures low + Pow2(8 * n) * (buffer + Pow2(bitsIn) * bits) == low + Pow2(8 * n) * buffer + Pow2(8 * n + bitsIn) * bits
  {
    Pow2Add(bitsIn, len);
    Above(buffer, Pow2(bitsIn), bits, Pow2(len));
    Pow2Add(8 * n, bitsIn);
    MulAssoc(Pow2(8 * n), Pow2(bitsIn), bits);
    DistributeLeft(Pow2(8 * n), buffer, Pow2(bitsIn) * bits);
  }

  lemma Above(a: nat, p: nat, b: nat, q: nat)
    requires a < p && b < q
    ensures a + p * b < p * q
  {
    assert p * (b + 1) <= p * q;
  }

  lemma TakeByte(out: Bytes, buffer: nat, bitsIn: nat)
    requires bitsIn >= 8 && buffer < Pow2(bitsIn)
    ensures buffer / 256 < Pow2(bitsIn - 8)
    ensures LeVal(out + [buffer % 256]) + Pow2(8 * |out + [buffer % 256]|) * (buffer / 256)
            == LeVal(out) + Pow2(8 * |out|) * buffer
  {
    var p, q, r := Pow2(8 * |out|), buffer / 256, buffer % 256;
    LeSnoc(out, r);
    ByteShift(|out|);
    assert buffer == 256 * q + r;
    MulAssoc(p, 256, q);
    DistributeLeft(p, r, 256 * q);
    var n := bitsIn - 8;
    ByteOff(n);
    hide Pow2;
    assert 256 * q < 256 * Pow2(n);
  }

  lemma ByteOff(n: nat)
    ensures Pow2(n + 8) == 256 * Pow2(n)
  {
    Pow2Add(8, n);
    assert Pow2(4) == 16;
    Pow2Add(4, 4);
  }

  // ---- reading ----

  /** The code of the only symbol in use is all zeros. */
  lemma {:induction false} OnlyCode(lens: seq<nat>, s: nat)
    requires AtMostOne(lens) && Used(lens, s)
    ensures CodeWord(lens, s) == Zeros(lens[s])
  {
    OnlyFirst(lens, s, lens[s]);
    if CountLen(lens[..s], lens[s]) > 0 {
      var t := NthOfLength(lens[..s], lens[s], 0);
      assert Used(lens, t);
    }
    ZeroBits(lens[s]);
  }

  lemma {:induction false} OnlyFirst(lens: seq<nat>, s: nat, l: nat)
    requires AtMostOne(lens) && Used(lens, s) && 1 <= l <= lens[s]
    ensures FirstCode(lens, l) == 0
  {
    if l > 1 {
      OnlyFirst(lens, s, l - 1);
      if CountLen(lens, l - 1) > 0 {
        var t := NthOfLength(lens, l - 1, 0);
        assert Used(lens, t);
      }
    }
  }

  lemma {:induction false} ZeroBits(n: nat)
    ensures MsbBits(0, n) == Zeros(n) && LsbVal(Zeros(n)) == 0
  {
    if n > 0 {
      ZeroBits(n - 1);
      assert Zeros(n)[1..] == Zeros(n - 1) && Zeros(n) == Zeros(n - 1) + [false];
    }
  }

  /** What is in the buffer, with zeros behind it, starts with some code too. */
  lemma {:induction false} FetchedMatch(lens: seq<nat>, s: nat, v: nat, n: nat, r: nat) returns (t: nat)
    requires Acceptable(lens) && v < Pow2(n) && Matches(lens, s, v + Pow2(n) * r)
    ensures Matches(lens, t, v)
    ensures lens[t] <= n <==> lens[s] <= n
    ensures lens[s] <= n ==> t == s
  {
    hide CodeWord;
    hide Complete;
    hide AtMostOne;
    hide NotOversubscribed;
    hide LsbBits;
    hide Pow2;
    var all := v + Pow2(n) * r;
    AcceptableNotOversubscribed(lens);
    if lens[s] <= n {
      FetchedSame(lens, s, v, n, r);
      t := s;
    } else if Complete(lens) {
      t := ExactlyOneMatch(lens, v);
      if lens[t] <= n {
        FetchedSame(lens, t, v, n, r);
        MatchUnique(lens, s, t, all);
      }
    } else {
      t := s;
      OnlyZeros(lens, s, v, n, r);
    }
  }

  /** A code that is all in the buffer matches there and in the stream alike. */
  lemma {:induction false} FetchedSame(lens: seq<nat>, s: nat, v: nat, n: nat, r: nat)
    requires Used(lens, s) && lens[s] <= n
    ensures Matches(lens, s, v) <==> Matches(lens, s, v + Pow2(n) * r)
  {
    hide CodeWord;
    LsbBitsSame(v, r, n, lens[s]);
  }

  lemma {:induction false} OnlyZeros(lens: seq<nat>, s: nat, v: nat, n: nat, r: nat)
    requires AtMostOne(lens) && v < Pow2(n) && Matches(lens, s, v + Pow2(n) * r) && n < lens[s]
    ensures Matches(lens, s, v)
  {
    var all, l := v + Pow2(n) * r, lens[s];
    OnlyCode(lens, s);
    LsbPrefix(all, n, l);
    assert Zeros(l)[..n] == Zeros(n);
    ZeroBits(n);
    LsbMod(all, n);
    ModUnique(all, Pow2(n), r, v);
    ZeroBits(l);
    LsbBitsVal(Zeros(l));
  }

  class BitReader {
    const input: Bytes
    var pos: nat
    var bitBuf: nat
    var numBits: nat

    ghost predicate Valid()
      reads this
    {
      bitBuf < Pow2(numBits)
    }

    /** The bits not used yet, as one number; behind the input there are zeros. */
    ghost function Stream(): nat
      reads this
    {
      bitBuf + Pow2(numBits) * Unread(pos)
    }

    ghost function Unread(from: nat): nat {
      if from <= |input| then LeVal(input[from..]) else 0
    }

    constructor (input: Bytes)
      ensures Valid() && this.input == input && Stream() == LeVal(input) && pos == 0 && numBits == 0
    {
      this.input := input;
      pos, bitBuf, numBits := 0, 0, 0;
      new;
      assert input[0..] == input;
    }

    /** TINFL_GET_BYTE into the bit buffer. */
    method GetByte()
      requires Valid()
      modifies this
      ensures Valid() && Stream() == old(Stream()) && pos == old(pos) + 1 && numBits == old(numBits) + 8
    {
      var c: Byte := if pos < |input| then input[pos] else 0;
      FetchByte(bitBuf, numBits, c, Unread(pos + 1));
      if pos < |input| {
        assert input[pos..][1..] == input[pos + 1..];
      }
      bitBuf := bitBuf + Pow2(numBits) * c;
      numBits := numBits + 8;
      pos := pos + 1;
    }

    /** The test that ends TINFL_HUFF_BITBUF_FILL: the next code is all in the buffer. */
    method Ready(table: HuffTable, ghost s: nat) returns (ready: bool)
      requires Valid() && table.Built() && Acceptable(table.codeSize) && Matches(table.codeSize, s, Stream())
      ensures ready <==> table.codeSize[s] <= numBits
    {
      hide Acceptable;
      hide CodeWord;
      ghost var t := FetchedMatch(table.codeSize, s, bitBuf, numBits, Unread(pos));
      FastSlot(bitBuf);
      FirstProbe(table.codeSize, table.Contents(), t, bitBuf);
      var temp := table.lookUp[bitBuf % FAST_SIZE];
      if temp >= 0 {
        var codeLen := temp / 512;
        return codeLen != 0 && numBits >= codeLen;
      } else if numBits > FAST_BITS {
        temp := WalkFetched(table, temp, t);
        return temp >= 0;
      }
      return false;
    }

    /** Down the tree as far as there are bits. */
    method WalkFetched(table: HuffTable, temp0: int, ghost t: nat) returns (temp: int)
      requires table.Built() && Matches(table.codeSize, t, bitBuf) && FAST_BITS < table.codeSize[t]
      requires temp0 < 0 && numBits > FAST_BITS
      requires var p := CodeWord(table.codeSize, t)[..FAST_BITS]; p in table.nodes && temp0 == NodeRef(table.nodes[p])
      ensures temp >= 0 <==> table.codeSize[t] <= numBits
    {
      ghost var size, w := table.codeSize[t], CodeWord(table.codeSize, t);
      temp := temp0;
      var codeLen, more := FAST_BITS, true;
      while more
        invariant FAST_BITS <= codeLen <= size && codeLen <= numBits
        invariant codeLen < size ==> w[..codeLen] in table.nodes && temp == NodeRef(table.nodes[w[..codeLen]]) < 0
        invariant codeLen == size ==> temp == t
        invariant more <==> temp < 0 && numBits >= codeLen + 1
        decreases numBits - codeLen, more
      {
        LsbBitAt(bitBuf, size, codeLen);
        WalkStep(table.codeSize, table.Contents(), t, codeLen);
        temp := table.tree[-temp - 1 + (bitBuf / Pow2(codeLen)) % 2];
        codeLen := codeLen + 1;
        more := temp < 0 && numBits >= codeLen + 1;
      }
    }

    /** TINFL_HUFF_BITBUF_FILL: bytes are fetched until the next code is there or 15 bits
        are, and none after that. */
    method Fill(table: HuffTable, ghost s: nat)
      requires Valid() && table.Built() && Acceptable(table.codeSize) && Matches(table.codeSize, s, Stream())
      requires numBits < 15
      modifies this
      ensures Valid() && Stream() == old(Stream())
      ensures numBits - 8 * pos == old(numBits - 8 * pos) && pos >= old(pos)
      ensures table.codeSize[s] <= numBits
      ensures pos > old(pos) ==> numBits - 8 < table.codeSize[s]
    {
      hide Acceptable;
      hide Matches;
      LengthAtMost15(table.codeSize, s, Stream());
      var ready := false;
      while numBits < 15
        invariant Valid() && Stream() == old(Stream()) && table.Built() && Used(table.codeSize, s)
        invariant numBits - 8 * pos == old(numBits - 8 * pos) && pos >= old(pos)
        invariant pos > old(pos) ==> numBits - 8 < table.codeSize[s]
        decreases 15 - numBits
      {
        ready := Ready(table, s);
        if ready {
          break;
        }
        GetByte();
      }
    }

    /**
     TINFL_HUFF_DECODE. The symbol is the one whose code starts the unused bits, and these
     lose just that code. With fewer than two bytes left in the current piece of input no
     byte is fetched that the code does not need.
     */
    method Decode(table: HuffTable, pieceEnd: nat) returns (sym: nat)
      requires Valid() && table.Built() && Acceptable(table.codeSize) && pieceEnd <= |input|
      requires exists s: nat :: Matches(table.codeSize, s, Stream())
      modifies this
      ensures Valid() && Matches(table.codeSize, sym, old(Stream()))
      ensures Stream() == ShiftRight(old(Stream()), table.codeSize[sym])
      ensures 8 * pos - numBits == old(8 * pos - numBits) + table.codeSize[sym]
      ensures pieceEnd < old(pos) + 2 && pos > old(pos) ==> numBits < 8
    {
      hide Acceptable;
      hide Matches;
      hide Pow2;
      hide LeVal;
      ghost var s: nat :| Matches(table.codeSize, s, Stream());
      LengthAtMost15(table.codeSize, s, Stream());
      if numBits < 15 {
        if pieceEnd < pos + 2 {
          Fill(table, s);
        } else {
          GetByte();
          GetByte();
        }
      }
      ghost var t := FetchedMatch(table.codeSize, s, bitBuf, numBits, Unread(pos));
      var codeLen, rest;
      sym, codeLen, rest := table.Decode(bitBuf);
      UseBits(bitBuf, numBits, codeLen, Unread(pos));
      bitBuf, numBits := rest, numBits - codeLen;
    }
  }

  lemma LengthAtMost15(lens: seq<nat>, s: nat, v: nat)
    requires Acceptable(lens) && Matches(lens, s, v)
    ensures Used(lens, s) && lens[s] <= 15
  {
  }

  lemma FetchByte(v: nat, n: nat, c: Byte, r: nat)
    requires v < Pow2(n)
    ensures v + Pow2(n) * c < Pow2(n + 8)
    ensures v + Pow2(n) * c + Pow2(n + 8) * r == v + Pow2(n) * (c + 256 * r)
  {
    Pow2Add(n, 8);
    assert Pow2(4) == 16;
    Pow2Add(4, 4);
    Above(v, Pow2(n), c, 256);
    MulAssoc(Pow2(n), 256, r);
    DistributeLeft(Pow2(n), c, 256 * r);
  }

  lemma UseBits(v: nat, n: nat, l: nat, r: nat)
    requires l <= n && v < Pow2(n)
    ensures v / Pow2(l) < Pow2(n - l)
    ensures v / Pow2(l) + Pow2(n - l) * r == (v + Pow2(n) * r) / Pow2(l)
  {
    hide Pow2;
    Pow2Add(l, n - l);
    UseDiv(v, Pow2(l), Pow2(n - l), Pow2(n), r);
  }

  lemma UseDiv(v: nat, p: nat, q: nat, whole: nat, r: nat)
    requires p > 0 && whole == p * q && v < whole
    ensures v / p < q && v / p + q * r == (v + whole * r) / p
  {
    DivisionBasic(v, p);
    UseArith(v, p, q, r, v / p, v % p);
    ModUnique(v + whole * r, p, v / p + q * r, v % p);
  }

  lemma UseArith(v: nat, p: nat, q: nat, r: nat, d: nat, m: nat)
    requires v == p * d + m && 0 <= m < p && v < p * q
    ensures d < q && v + p * q * r == p * (d + q * r) + m
  {
    MulAssoc(p, q, r);
    DistributeLeft(p, d, q * r);
    if d >= q {
      MulLe(q, d, p);
    }
  }
}
