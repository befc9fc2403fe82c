/**
 The two loops over a buffer: eight bytes at a time by tables, and three interleaved
 lanes of the crc32 instruction. Both are the bytewise CRC, for every start address.
 */
module Crc32cBuffers {
  import opened Crc32c

  const CHUNK := 1360

  /** What is left to do from here gives the CRC of the whole. */
  ghost predicate Left(r: Word, data: Bytes, pos: nat, whole: Word) {
    pos <= |data| && Crc(r, data[pos..]) == whole
  }

  lemma {:induction false} LeftStarts(crc: Word, data: Bytes)
    ensures Left(crc, data, 0, Crc(crc, data))
  {
    assert data[0..] == data;
  }

  lemma {:induction false} LeftEnds(r: Word, data: Bytes, whole: Word)
    requires Left(r, data, |data|, whole)
    ensures r == whole
  {
  }

  lemma {:induction false} LeftStep(r: Word, data: Bytes, pos: nat, n: nat, whole: Word)
    requires Left(r, data, pos, whole) && pos + n <= |data|
    ensures Left(Crc(r, data[pos..pos + n]), data, pos + n, whole)
  {
    assert data[pos..] == data[pos..pos + n] + data[pos + n..];
    CrcConcat(r, data[pos..pos + n], data[pos + n..]);
  }

  lemma {:induction false} OneByte(r: Word, data: Bytes, pos: nat)
    requires pos < |data|
    ensures Crc(r, data[pos..pos + 1]) == ByteStep(r, data[pos])
  {
    hide ByteStep;
    var d := data[pos..pos + 1];
    assert Crc(r, d) == Crc(ByteStep(r, d[0]), d[1..]);
  }

  // ---- tables ----

  /** CRC32C_8BIT at a position. */
  method TableByte(r: Word, data: Bytes, pos: nat, ghost whole: Word) returns (r': Word)
    requires pos < |data| && Left(r, data, pos, whole)
    ensures Left(r', data, pos + 1, whole)
  {
    hide Left;
    hide Step8;
    hide ByteStep;
    r' := Step8(r, data[pos]);
    Step8IsByteStep(r, data[pos]);
    OneByte(r, data, pos);
    LeftStep(r, data, pos, 1, whole);
  }

  /** CRC32C_64BIT at a position. */
  method TableWord(r: Word, data: Bytes, pos: nat, ghost whole: Word) returns (r': Word)
    requires pos + 8 <= |data| && Left(r, data, pos, whole)
    ensures Left(r', data, pos + 8, whole)
  {
    hide Left;
    hide Step64;
    hide Le;
    r' := Step64(r, Le(data[pos..pos + 4]), data[pos + 4], data[pos + 5], data[pos + 6], data[pos + 7]);
    ghost var d := data[pos..pos + 8];
    assert d[..4] == data[pos..pos + 4];
    Step64IsCrc(r, d);
    LeftStep(r, data, pos, 8, whole);
  }

  /** psync_crc32c_sw on a buffer at the given address. */
  method Crc32cSw(crc: Word, data: Bytes, address: nat) returns (r: Word)
    ensures r == Crc(crc, data)
  {
    hide Left;
    hide Crc;
    var pos: nat, len: nat := 0, |data|;
    ghost var whole := Crc(crc, data);
    r := crc;
    LeftStarts(crc, data);
    while (address + pos) % 4 != 0 && len != 0
      invariant pos + len == |data| && Left(r, data, pos, whole)
      decreases len
    {
      r := TableByte(r, data, pos, whole);
      pos, len := pos + 1, len - 1;
    }
    while len >= 64
      invariant pos + len == |data| && Left(r, data, pos, whole)
    {
      r := TableWords8(r, data, pos, whole);
      pos, len := pos + 64, len - 64;
    }
    while len >= 8
      invariant pos + len == |data| && Left(r, data, pos, whole)
    {
      r := TableWord(r, data, pos, whole);
      pos, len := pos + 8, len - 8;
    }
    while len != 0
      invariant pos + len == |data| && Left(r, data, pos, whole)
      decreases len
    {
      r := TableByte(r, data, pos, whole);
      pos, len := pos + 1, len - 1;
    }
    LeftEnds(r, data, whole);
  }

  /** The body of the loop over 64 bytes. */
  method TableWords8(r: Word, data: Bytes, pos: nat, ghost whole: Word) returns (r': Word)
    requires pos + 64 <= |data| && Left(r, data, pos, whole)
    ensures Left(r', data, pos + 64, whole)
  {
    hide Left;
    r' := TableWord(r, data, pos, whole);
    r' := TableWord(r', data, pos + 8, whole);
    r' := TableWord(r', data, pos + 16, whole);
    r' := TableWord(r', data, pos + 24, whole);
    r' := TableWord(r', data, pos + 32, whole);
    r' := TableWord(r', data, pos + 40, whole);
    r' := TableWord(r', data, pos + 48, whole);
    r' := TableWord(r', data, pos + 56, whole);
  }

  // ---- the instruction ----

  /** crc32b and crc32q: the bytes of the operand, lowest first. */
  function InstructionByte(r: Word, b: Octet): Word {
    ByteStep(r, b)
  }

  function InstructionWord(r: Word, operand: Bytes): Word
    requires |operand| == 8
  {
    Crc(r, operand)
  }

  method HwByte(r: Word, data: Bytes, pos: nat, ghost whole: Word) returns (r': Word)
    requires pos < |data| && Left(r, data, pos, whole)
    ensures Left(r', data, pos + 1, whole)
  {
    hide Left;
    hide ByteStep;
    r' := InstructionByte(r, data[pos]);
    OneByte(r, data, pos);
    LeftStep(r, data, pos, 1, whole);
  }

  method HwWord(r: Word, data: Bytes, pos: nat, ghost whole: Word) returns (r': Word)
    requires pos + 8 <= |data| && Left(r, data, pos, whole)
    ensures Left(r', data, pos + 8, whole)
  {
    hide Left;
    r' := InstructionWord(r, data[pos..pos + 8]);
    LeftStep(r, data, pos, 8, whole);
  }

  lemma {:induction false} LaneStep(c: Word, r: Word, data: Bytes, from: nat, k: nat)
    requires from + k + 8 <= |data| && r == Crc(c, data[from..from + k])
    ensures InstructionWord(r, data[from + k..from + k + 8]) == Crc(c, data[from..from + k + 8])
  {
    assert data[from..from + k + 8] == data[from..from + k] + data[from + k..from + k + 8];
    CrcConcat(c, data[from..from + k], data[from + k..from + k + 8]);
  }

  /** The inner loop: three registers run over three chunks at the same time. */
  method ThreeLanes(crc0: Word, data: Bytes, pos: nat) returns (r0: Word, r1: Word, r2: Word)
    requires pos + 3 * CHUNK <= |data|
    ensures r0 == Crc(crc0, data[pos..pos + CHUNK])
    ensures r1 == Crc(ZERO, data[pos + CHUNK..pos + 2 * CHUNK])
    ensures r2 == Crc(ZERO, data[pos + 2 * CHUNK..pos + 3 * CHUNK])
  {
    hide Crc;
    hide InstructionWord;
    var p1, p2 := pos + CHUNK, pos + 2 * CHUNK;
    r0, r1, r2 := crc0, ZERO, ZERO;
    NoBytes(crc0, data, pos);
    NoBytes(ZERO, data, p1);
    NoBytes(ZERO, data, p2);
    var k: nat := 0;
    while k < CHUNK
      invariant k <= CHUNK && k % 8 == 0
      invariant r0 == Crc(crc0, data[pos..pos + k])
      invariant r1 == Crc(ZERO, data[p1..p1 + k])
      invariant r2 == Crc(ZERO, data[p2..p2 + k])
    {
      LaneStep(crc0, r0, data, pos, k);
      LaneStep(ZERO, r1, data, p1, k);
      LaneStep(ZERO, r2, data, p2, k);
      r0 := InstructionWord(r0, data[pos + k..pos + k + 8]);
      r1 := InstructionWord(r1, data[p1 + k..p1 + k + 8]);
      r2 := InstructionWord(r2, data[p2 + k..p2 + k + 8]);
      k := k + 8;
    }
  }

  lemma {:induction false} NoBytes(c: Word, data: Bytes, at: nat)
    requires at <= |data|
    ensures Crc(c, data[at..at + 0]) == c
  {
  }

  lemma {:induction false} CombineLanes(c: Word, data: Bytes, pos: nat, n: nat)
    requires pos + 3 * n <= |data|
    ensures var a, b, d := data[pos..pos + n], data[pos + n..pos + 2 * n], data[pos + 2 * n..pos + 3 * n];
            var x := Xor(ShiftChunk(n, Crc(c, a)), Crc(ZERO, b));
            Xor(ShiftChunk(n, x), Crc(ZERO, d)) == Crc(c, data[pos..pos + 3 * n])
  {
    hide Crc;
    hide Xor;
    hide ShiftChunk;
    var a, b, d := data[pos..pos + n], data[pos + n..pos + 2 * n], data[pos + 2 * n..pos + 3 * n];
    ShiftChunkIsShift(n, Crc(c, a));
    CrcLanes(c, a, b);
    ShiftChunkIsShift(n, Crc(c, a + b));
    CrcLanes(c, a + b, d);
    assert data[pos..pos + 3 * n] == (a + b) + d;
  }

  /** One round of the parallel loop. */
  method Parallel(r: Word, data: Bytes, pos: nat, ghost whole: Word) returns (r': Word)
    requires pos + 3 * CHUNK <= |data| && Left(r, data, pos, whole)
    ensures Left(r', data, pos + 3 * CHUNK, whole)
  {
    hide Crc;
    hide Left;
    hide Xor;
    hide ShiftChunk;
    var r0, r1, r2 := ThreeLanes(r, data, pos);
    r0 := Xor(ShiftChunk(CHUNK, r0), r1);
    r' := Xor(ShiftChunk(CHUNK, r0), r2);
    CombineLanes(r, data, pos, CHUNK);
    LeftStep(r, data, pos, 3 * CHUNK, whole);
  }

  /** psync_crc32c_hw on a buffer at the given address. */
  method Crc32cHw(crc: Word, data: Bytes, address: nat) returns (r: Word)
    ensures r == Crc(crc, data)
  {
    hide Left;
    hide Crc;
    var pos: nat, len: nat := 0, |data|;
    ghost var whole := Crc(crc, data);
    r := crc;
    LeftStarts(crc, data);
    while (address + pos) % 8 != 0 && len != 0
      invariant pos + len == |data| && Left(r, data, pos, whole)
      decreases len
    {
      r := HwByte(r, data, pos, whole);
      pos, len := pos + 1, len - 1;
    }
    while len >= 3 * CHUNK
      invariant pos + len == |data| && Left(r, data, pos, whole)
    {
      r := Parallel(r, data, pos, whole);
      pos, len := pos + 3 * CHUNK, len - 3 * CHUNK;
    }
    while len >= 32
      invariant pos + len == |data| && Left(r, data, pos, whole)
    {
      r := HwWord(r, data, pos, whole);
      r := HwWord(r, data, pos + 8, whole);
      r := HwWord(r, data, pos + 16, whole);
      r := HwWord(r, data, pos + 24, whole);
      pos, len := pos + 32, len - 32;
    }
    while len >= 8
      invariant pos + len == |data| && Left(r, data, pos, whole)
    {
      r := HwWord(r, data, pos, whole);
      pos, len := pos + 8, len - 8;
    }
    while len != 0
      invariant pos + len == |data| && Left(r, data, pos, whole)
      decreases len
    {
      r := HwByte(r, data, pos, whole);
      pos, len := pos + 1, len - 1;
    }
    LeftEnds(r, data, whole);
  }
}
