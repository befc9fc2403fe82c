/**
 The streaming 256-bit hash: six 64-bit state words, a 64-byte block buffer whose last
 byte holds the number of buffered bytes, and a round over eight words that uses the
 CRC by tables or by the instruction.
 */
module FastHash {
  import opened ByteBits
  import opened Crc32c

  // ---- 64-bit words ----

  datatype U64 = U64(bits: bv64)

  const K0 := U64(0xc3a5c85c97cb3127)
  const K1 := U64(0xb492b66fbe98f273)
  const K2 := U64(0x9ae16a3b2f90404f)
  const MURMUR := U64(0x9ddfea08eb382d69)

  function Add(x: U64, y: U64): U64 { U64(x.bits + y.bits) }

  function Sub(x: U64, y: U64): U64 { U64(x.bits - y.bits) }

  function Mul(x: U64, y: U64): U64 { U64(x.bits * y.bits) }

  function Xor64(x: U64, y: U64): U64 { U64(x.bits ^ y.bits) }

  /** fh_rotate64: a rotation to the right. */
  function Rotate(x: U64, shift: nat): U64
    requires 0 < shift < 64
  {
    U64((x.bits >> shift) | (x.bits << (64 - shift)))
  }

  function ShiftMix(x: U64): U64 {
    U64(x.bits ^ (x.bits >> 47))
  }

  function HashMul3(u: U64, v: U64, mul: U64): U64 {
    Mul(ShiftMix(Mul(Xor64(ShiftMix(Mul(Xor64(u, v), mul)), v), mul)), mul)
  }

  function HashMul2(u: U64, v: U64): U64 {
    HashMul3(u, v, MURMUR)
  }

  /** The i-th byte of a word in memory. */
  function ByteOf64(x: U64, i: nat): Octet
    requires i < 8
  {
    var low := if i == 0 then x.bits
               else if i == 1 then x.bits >> 8
               else if i == 2 then x.bits >> 16
               else if i == 3 then x.bits >> 24
               else if i == 4 then x.bits >> 32
               else if i == 5 then x.bits >> 40
               else if i == 6 then x.bits >> 48
               else x.bits >> 56;
    Octet((low & 0xff) as bv8)
  }

  function BytesOf(x: U64): (r: Bytes)
    ensures |r| == 8
  {
    seq(8, i requires 0 <= i < 8 => ByteOf64(x, i))
  }

  function Load64(d: Bytes): U64
    requires |d| == 8
  {
    U64((d[0].bits as bv64) | ((d[1].bits as bv64) << 8) | ((d[2].bits as bv64) << 16) | ((d[3].bits as bv64) << 24)
        | ((d[4].bits as bv64) << 32) | ((d[5].bits as bv64) << 40) | ((d[6].bits as bv64) << 48)
        | ((d[7].bits as bv64) << 56))
  }

  function FromWord(w: Word): U64 {
    Load64([w.b0, w.b1, w.b2, w.b3, NUL, NUL, NUL, NUL])
  }

  /** A 64-bit number for a length. */
  function FromLength(n: nat): U64
    requires n < 0x1_0000_0000_0000_0000
  {
    U64(n as bv64)
  }

  // ---- the CRC of a word ----

  /** fh_crc32_64sw: only the low half of the register is used. */
  function CrcSw(crc: U64, data: U64): U64 {
    var d := BytesOf(data);
    FromWord(Step64(Le(BytesOf(crc)[..4]), Le(d[..4]), d[4], d[5], d[6], d[7]))
  }

  /** fh_crc32_64hw: the crc32q instruction. */
  function CrcHw(crc: U64, data: U64): U64 {
    FromWord(Crc(Le(BytesOf(crc)[..4]), BytesOf(data)))
  }

  function Crc64(hw: bool, crc: U64, data: U64): U64 {
    if hw then CrcHw(crc, data) else CrcSw(crc, data)
  }

  lemma {:induction false} CrcSame(hw: bool, crc: U64, data: U64)
    ensures Crc64(hw, crc, data) == CrcHw(crc, data)
  {
    hide Le;
    hide Crc;
    hide Step64;
    hide FromWord;
    hide BytesOf;
    Step64IsCrc(Le(BytesOf(crc)[..4]), BytesOf(data));
  }

  // ---- rounds ----

  datatype State = State(a: U64, b: U64, c: U64, d: U64, x: U64, y: U64)

  type Block = s: seq<U64> | |s| == 8 witness seq(8, i => U64(0))

  /** ROUND_GEN over eight words. */
  function Round(hw: bool, s: State, w: Block): State {
    var a1, b1, c1, d1 := Add(s.a, w[0]), Add(s.b, w[1]), Add(s.c, w[2]), Add(s.d, w[3]);
    var b2, d2 := Xor64(b1, Rotate(a1, 21)), Xor64(d1, Rotate(c1, 17));
    var x1, y1 := Crc64(hw, s.x, Add(a1, b2)), Crc64(hw, s.y, Add(c1, d2));
    var a2, b3, c2, d3 := Add(a1, w[4]), Add(b2, w[5]), Add(c1, w[6]), Add(d2, w[7]);
    var a3, c3 := Xor64(a2, Rotate(b3, 13)), Xor64(c2, Rotate(d3, 16));
    var x2, y2 := Crc64(hw, x1, Add(a3, b3)), Crc64(hw, y1, Add(c3, d3));
    State(d3, a3, b3, c3, y2, x2)
  }

  /** A round gives the same state by tables and by the instruction. */
  lemma {:induction false} RoundSame(hw: bool, s: State, w: Block)
    ensures Round(hw, s, w) == Round(true, s, w)
  {
    hide Add;
    hide Xor64;
    hide Rotate;
    hide Crc64;
    var a1, b1, c1, d1 := Add(s.a, w[0]), Add(s.b, w[1]), Add(s.c, w[2]), Add(s.d, w[3]);
    var b2, d2 := Xor64(b1, Rotate(a1, 21)), Xor64(d1, Rotate(c1, 17));
    var x1, y1 := CrcHw(s.x, Add(a1, b2)), CrcHw(s.y, Add(c1, d2));
    var a2, b3, c2, d3 := Add(a1, w[4]), Add(b2, w[5]), Add(c1, w[6]), Add(d2, w[7]);
    var a3, c3 := Xor64(a2, Rotate(b3, 13)), Xor64(c2, Rotate(d3, 16));
    CrcBoth(hw, s.x, Add(a1, b2));
    CrcBoth(hw, s.y, Add(c1, d2));
    CrcBoth(hw, x1, Add(a3, b3));
    CrcBoth(hw, y1, Add(c3, d3));
  }

  lemma {:induction false} CrcBoth(hw: bool, crc: U64, data: U64)
    ensures Crc64(hw, crc, data) == CrcHw(crc, data) && Crc64(true, crc, data) == CrcHw(crc, data)
  {
    hide CrcHw;
    CrcSame(hw, crc, data);
  }

  /** The eight words of a 64-byte block. */
  function Words(d: Bytes): (r: Block)
    requires |d| == 64
  {
    seq(8, i requires 0 <= i < 8 => Load64(d[8 * i..8 * i + 8]))
  }

  predicate WholeBlocks(m: Bytes) {
    |m| % 64 == 0
  }

  lemma BlockLess(m: Bytes)
    requires WholeBlocks(m) && |m| > 0
    ensures |m| >= 64 && WholeBlocks(m[64..])
  {
  }

  /** The state after the whole blocks of a message. */
  function Blocks(s: State, m: Bytes): State
    requires WholeBlocks(m)
    decreases |m|
  {
    if |m| == 0 then s
    else
      BlockLess(m);
      Blocks(Round(true, s, Words(m[..64])), m[64..])
  }

  lemma {:induction false} BlocksAppend(s: State, m: Bytes, b: Bytes)
    requires WholeBlocks(m) && |b| == 64
    ensures WholeBlocks(m + b)
    ensures Blocks(s, m + b) == Round(true, Blocks(s, m), Words(b))
    decreases |m|
  {
    hide Round;
    hide Words;
    if |m| == 0 {
      assert m + b == b && b[..64] == b && b[64..] == [];
      assert Blocks(s, b) == Blocks(Round(true, s, Words(b[..64])), b[64..]);
    } else {
      var rest := m[64..];
      assert (m + b)[..64] == m[..64] && (m + b)[64..] == rest + b;
      BlocksAppend(Round(true, s, Words(m[..64])), rest, b);
    }
  }

  // ---- the digest ----

  /** The bytes of a table from an entry on, as they lie in memory. */
  function TableBytes(k: nat, first: nat, n: nat): (r: Bytes)
    requires first + n / 4 < 256
    ensures |r| == n
  {
    seq(n, j requires 0 <= j < n => Byte(Table(k, Octet(ToByte(first + j / 4))), j % 4))
  }

  function StateOf(d: Bytes): State
    requires |d| == 48
  {
    State(Load64(d[0..8]), Load64(d[8..16]), Load64(d[16..24]), Load64(d[24..32]), Load64(d[32..40]), Load64(d[40..48]))
  }

  const SEED_BYTES := 48
  const LENGTH_MOD: nat := 0x1_0000_0000_0000_0000

  /** The state bytes with a seed of any length mixed in; bytes beyond 48 are ignored. */
  function SeededBytes(seed: Bytes): (r: Bytes)
    ensures |r| == 48
  {
    var t := TableBytes(0, 2, 48);
    seq(48, i requires 0 <= i < 48 => if i < |seed| then Mix(t[i], seed[i]) else t[i])
  }

  function SeedByte(seed: Bytes, i: nat): Octet {
    if i < |seed| then seed[i] else NUL
  }

  /** Two seeds give the same start exactly when they agree on 48 bytes, as if zeros stood
      behind them; byte i of a seed changes byte i of the start and no other. */
  lemma SeedsTold(a: Bytes, b: Bytes)
    ensures SeededBytes(a) == SeededBytes(b) <==> forall i :: 0 <= i < 48 ==> SeedByte(a, i) == SeedByte(b, i)
    ensures forall i :: 0 <= i < 48 ==> Mix(SeededBytes(a)[i], SeedByte(a, i)) == TableBytes(0, 2, 48)[i]
  {
    hide Mix;
    hide TableBytes;
    var t := TableBytes(0, 2, 48);
    forall i | 0 <= i < 48
      ensures SeededBytes(a)[i] == Mix(t[i], SeedByte(a, i)) && SeededBytes(b)[i] == Mix(t[i], SeedByte(b, i))
      ensures Mix(SeededBytes(a)[i], SeedByte(a, i)) == t[i]
      ensures SeededBytes(a)[i] == SeededBytes(b)[i] <==> SeedByte(a, i) == SeedByte(b, i)
    {
      MixLaws(t[i], SeedByte(a, i));
      MixLaws(SeedByte(a, i), t[i]);
      MixLaws(SeedByte(b, i), t[i]);
    }
  }

  function Whole(m: Bytes): (r: nat)
    ensures r <= |m| && r % 64 == 0 && |m| - r < 64
  {
    |m| / 64 * 64
  }

  /** The length mixed into the first four words of a block. */
  function LengthMixed(w: Block, length: nat): (r: Block)
    requires length < LENGTH_MOD
  {
    var len := FromLength(length);
    [Add(w[0], Mul(len, K0)), Xor64(w[1], HashMul2(len, K0)), Xor64(w[2], Mul(len, K1)), Sub(w[3], Mul(len, K2)),
     w[4], w[5], w[6], w[7]]
  }

  /** The last block: the rest of the message, table bytes, and the length mixed in. */
  function LastBlock(rest: Bytes, length: nat): (r: Block)
    requires |rest| < 64 && length < LENGTH_MOD
  {
    LengthMixed(Words(rest + TableBytes(1, 2, 64 - |rest|)), length)
  }

  /** The mixing after the last round. */
  function Finish(s: State): (r: Bytes)
    ensures |r| == 32
  {
    var d1 := Xor64(s.d, Rotate(s.a, 43));
    var a1 := Add(s.a, Rotate(s.b, 42));
    var b1 := Xor64(s.b, Rotate(s.c, 41));
    var c1 := Add(s.c, Rotate(d1, 40));
    var a2 := HashMul2(a1, Add(s.x, b1));
    var b2 := HashMul2(b1, Add(s.y, c1));
    var c2 := HashMul2(c1, Add(s.x, d1));
    var d2 := HashMul2(d1, Add(s.y, a2));
    BytesOf(Add(Add(Add(a2, b2), s.y), s.x))
    + BytesOf(Add(Mul(ShiftMix(Mul(Add(a2, s.x), K0)), K0), b2))
    + BytesOf(Add(Mul(ShiftMix(Mul(Xor64(c2, s.y), K1)), K1), d2))
    + BytesOf(Add(Mul(ShiftMix(Mul(Sub(s.x, s.y), K2)), K2), Xor64(c2, d2)))
  }

  /** The hash of a whole message, by the instruction, in one pass. */
  function Digest(init: State, m: Bytes): (r: Bytes)
    ensures |r| == 32
  {
    var k := Whole(m);
    Finish(Round(true, Blocks(init, m[..k]), LastBlock(m[k..], |m| % LENGTH_MOD)))
  }
}
