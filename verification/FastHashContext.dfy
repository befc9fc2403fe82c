/** The hash as a context that is fed piece by piece. */
module FastHashContext {
  import opened ByteBits
  import opened Crc32c
  import opened FastHash

  function InitialState(): State {
    StateOf(TableBytes(0, 2, SEED_BYTES))
  }

  function BlocksUpTo(init: State, m: Bytes, k: nat): State
    requires k <= |m| && k % 64 == 0
  {
    Blocks(init, m[..k])
  }

  lemma WholeUnique(m: Bytes, k: nat)
    requires k % 64 == 0 && k <= |m| < k + 64
    ensures Whole(m) == k
  {
  }

  lemma LengthAdds(a: nat, b: nat)
    ensures (a % LENGTH_MOD + b) % LENGTH_MOD == (a + b) % LENGTH_MOD
  {
  }

  /** One more block of a message, by tables or by the instruction. */
  lemma {:induction false} BlocksNext(init: State, m: Bytes, k: nat, st: State, hw: bool)
    requires k % 64 == 0 && k + 64 <= |m| && st == Blocks(init, m[..k])
    ensures (k + 64) % 64 == 0
    ensures Blocks(init, m[..k + 64]) == Round(hw, st, Words(m[k..k + 64]))
  {
    hide Round;
    hide Words;
    assert m[..k + 64] == m[..k] + m[k..k + 64];
    BlocksAppend(init, m[..k], m[k..k + 64]);
    RoundSame(hw, st, Words(m[k..k + 64]));
  }

  /** A context after a message: the state of its whole blocks, the rest in the buffer,
      the rest's size in the buffer's last byte, the length modulo 2^64. */
  ghost predicate Fed(init: State, m: Bytes, state: State, length: nat, b: Bytes) {
    var k := Whole(m);
    && |b| == 64 && length == |m| % LENGTH_MOD
    && state == Blocks(init, m[..k])
    && b[..|m| - k] == m[k..]
    && Count(b) == |m| - k
  }

  /** The number of buffered bytes, kept in the last byte of the buffer. */
  function Count(b: Bytes): (r: nat)
    requires |b| == 64
    ensures r < 256
  {
    ByteValue(b[63].bits)
  }

  function CountByte(n: nat): Octet
    requires n < 256
  {
    Octet(ToByte(n))
  }

  lemma CountIs(b: Bytes, n: nat)
    requires |b| == 64 && n < 256 && b[63] == CountByte(n)
    ensures Count(b) == n
  {
    hide ToByte;
    hide ByteValue;
    ByteRoundTrip(n);
  }

  lemma {:induction false} FedNothing(init: State, b: Bytes)
    requires |b| == 64 && b[63] == CountByte(0)
    ensures Fed(init, [], init, 0, b)
  {
    hide CountByte;
    hide Count;
    CountIs(b, 0);
  }

  /** Fewer than 64 bytes in all: they never reach the byte that holds the count. */
  lemma {:induction false} FedShort(init: State, m: Bytes, data: Bytes, state: State, b: Bytes, b': Bytes)
    requires Fed(init, m, state, |m| % LENGTH_MOD, b) && |data| + Count(b) < 64
    requires var l := Count(b);
             && |b'| == 64 && b'[..l] == b[..l] && b'[l..l + |data|] == data && b'[63] == CountByte(l + |data|)
    ensures Fed(init, m + data, state, |m + data| % LENGTH_MOD, b')
  {
    hide Blocks;
    hide CountByte;
    hide Count;
    var l := Count(b);
    var k := Whole(m);
    WholeUnique(m + data, k);
    CountIs(b', l + |data|);
    assert (m + data)[..k] == m[..k] && (m + data)[k..] == m[k..] + data;
    assert b'[..l + |data|] == b'[..l] + b'[l..l + |data|];
  }

  lemma {:induction false} FedLong(init: State, m: Bytes, k: nat, state: State, b: Bytes)
    requires |b| == 64 && k <= |m| < k + 64 && k % 64 == 0 && state == Blocks(init, m[..k])
    requires b[..|m| - k] == m[k..] && b[63] == CountByte(|m| - k)
    ensures Fed(init, m, state, |m| % LENGTH_MOD, b)
  {
    hide Blocks;
    hide CountByte;
    hide Count;
    WholeUnique(m, k);
    CountIs(b, |m| - k);
  }

  lemma JoinedPart(m: Bytes, data: Bytes, pos: nat)
    requires pos + 64 <= |data|
    ensures (m + data)[|m| + pos..|m| + pos + 64] == data[pos..pos + 64]
  {
  }

  class FastHash256 {
    var state: State
    var length: nat
    const buff: array<Octet>

    ghost predicate Holds(init: State, m: Bytes)
      reads this, buff
    {
      Fed(init, m, state, length, buff[..])
    }

    /** psync_fast_hash256_init. */
    constructor Init()
      ensures Holds(InitialState(), []) && fresh(buff)
    {
      hide StateOf;
      hide TableBytes;
      hide CountByte;
      hide Fed;
      state := StateOf(TableBytes(0, 2, SEED_BYTES));
      length := 0;
      buff := new Octet[64](i => NUL);
      new;
      buff[63] := CountByte(0);
      FedNothing(state, buff[..]);
    }

    /** psync_fast_hash256_init_seed: the seed is mixed into the state, byte by byte. */
    constructor InitSeed(seed: Bytes)
      ensures Holds(StateOf(SeededBytes(seed)), []) && fresh(buff)
    {
      hide StateOf;
      hide CountByte;
      hide Fed;
      var bytes := SeedLoop(seed);
      state := StateOf(bytes);
      length := 0;
      buff := new Octet[64](i => NUL);
      new;
      buff[63] := CountByte(0);
      FedNothing(state, buff[..]);
    }

    static method SeedLoop(seed: Bytes) returns (bytes: Bytes)
      ensures bytes == SeededBytes(seed)
    {
      hide TableBytes;
      hide Mix;
      bytes := TableBytes(0, 2, SEED_BYTES);
      var seedLen := if |seed| > SEED_BYTES then SEED_BYTES else |seed|;
      var i := 0;
      while i < seedLen
        invariant 0 <= i <= seedLen && |bytes| == 48
        invariant forall j :: 0 <= j < i ==> bytes[j] == SeededBytes(seed)[j]
        invariant forall j :: i <= j < 48 ==> bytes[j] == TableBytes(0, 2, 48)[j]
      {
        bytes := bytes[i := Mix(bytes[i], seed[i])];
        i := i + 1;
      }
      assert bytes == SeededBytes(seed);
    }

    /** psync_fast_hash256_update, with the hardware path or without. */
    method Update(hw: bool, data: Bytes, ghost init: State, ghost m: Bytes)
      requires Holds(init, m)
      modifies this, buff
      ensures Holds(init, m + data)
    {
      hide Blocks;
      hide Count;
      LengthAdds(|m|, |data|);
      length := (length + |data|) % LENGTH_MOD;
      if |data| + Count(buff[..]) < 64 {
        UpdateShort(data, init, m);
      } else {
        UpdateLong(hw, data, init, m);
      }
    }

    /** memcpy(buff + at, d, |d|). */
    method Fill(at: nat, d: Bytes)
      requires buff.Length == 64 && at + |d| <= 64
      modifies buff
      ensures buff[..] == old(buff[..at]) + d + old(buff[at + |d|..])
    {
      var i := 0;
      while i < |d|
        invariant 0 <= i <= |d|
        invariant forall j :: at <= j < at + i ==> buff[j] == d[j - at]
        invariant forall j :: 0 <= j < 64 && !(at <= j < at + i) ==> buff[j] == old(buff[j])
      {
        buff[at + i] := d[i];
        i := i + 1;
      }
    }

    method UpdateShort(data: Bytes, ghost init: State, ghost m: Bytes)
      requires length == |m + data| % LENGTH_MOD && buff.Length == 64
      requires Fed(init, m, state, |m| % LENGTH_MOD, buff[..]) && |data| + Count(buff[..]) < 64
      modifies buff
      ensures Holds(init, m + data)
    {
      hide Blocks;
      hide Count;
      hide CountByte;
      hide Fed;
      ghost var b := buff[..];
      var l := Count(buff[..]);
      buff[63] := CountByte(l + |data|);
      ghost var was := buff[..];
      Fill(l, data);
      ghost var b' := buff[..];
      assert b'[..l] == b[..l] && b'[l..l + |data|] == data && b'[63] == was[63];
      FedShort(init, m, data, state, b, b');
    }

    /** The two long forms: fill the buffer, then whole blocks from the data. */
    method UpdateLong(hw: bool, data: Bytes, ghost init: State, ghost m: Bytes)
      requires length == |m + data| % LENGTH_MOD && buff.Length == 64
      requires Fed(init, m, state, |m| % LENGTH_MOD, buff[..]) && |data| + Count(buff[..]) >= 64
      modifies this`state, buff
      ensures Holds(init, m + data)
    {
      hide Blocks;
      hide Round;
      hide Words;
      hide Count;
      hide CountByte;
      var st, pos: nat := state, 0;
      ghost var all, k := m + data, Whole(m);
      assert all[..k] == m[..k];
      var l := Count(buff[..]);
      if l != 0 {
        Fill(l, data[..64 - l]);
        assert buff[..] == all[k..k + 64];
        BlocksNext(init, all, k, st, hw);
        st := Round(hw, st, Words(buff[..]));
        pos := 64 - l;
        k := k + 64;
      }
      hide Fed;
      st, pos, k := RunBlocks(hw, st, data, pos, init, m, k);
      state := st;
      Fill(0, data[pos..]);
      ghost var was := buff[..];
      buff[63] := CountByte(|data| - pos);
      assert buff[..|data| - pos] == was[..|data| - pos] == all[k..];
      FedLong(init, all, k, state, buff[..]);
    }

    /** The loop over the whole blocks of the data. */
    static method RunBlocks(hw: bool, st0: State, data: Bytes, from: nat, ghost init: State, ghost m: Bytes, ghost k0: nat)
      returns (st: State, pos: nat, ghost k: nat)
      requires from <= |data| && k0 == |m| + from && k0 % 64 == 0
      requires st0 == BlocksUpTo(init, m + data, k0)
      ensures from <= pos <= |data| < pos + 64 && k == |m| + pos && k % 64 == 0
      ensures st == BlocksUpTo(init, m + data, k)
    {
      hide Blocks;
      hide Round;
      hide Words;
      st, pos, k := st0, from, k0;
      var len := |data| - from;
      while len >= 64
        invariant from <= pos && 0 <= len && pos + len == |data| && |m| + pos == k && k % 64 == 0
        invariant st == BlocksUpTo(init, m + data, k)
      {
        JoinedPart(m, data, pos);
        BlocksNext(init, m + data, k, st, hw);
        st := Round(hw, st, Words(data[pos..pos + 64]));
        len, pos := len - 64, pos + 64;
        k := k + 64;
      }
    }

    /** psync_fast_hash256_final. The count byte is overwritten before the length goes
        into the first four words. */
    method Final(hw: bool, ghost init: State, ghost m: Bytes) returns (hash: Bytes)
      requires Holds(init, m)
      modifies buff
      ensures hash == Digest(init, m)
    {
      hide Blocks;
      hide Round;
      hide Words;
      hide Finish;
      hide LastBlock;
      hide TableBytes;
      hide Count;
      ghost var k := Whole(m);
      var count := Count(buff[..]);
      Fill(count, TableBytes(1, 2, 64 - count));
      assert buff[..] == m[k..] + TableBytes(1, 2, 64 - count);
      var w := Words(buff[..]);
      w := MixLength(w, length);
      LastBlockIs(m[k..], |m| % LENGTH_MOD, w);
      RoundSame(hw, state, w);
      hash := Finish(Round(hw, state, w));
    }

    /** The length mixed into the first four words of the last block. */
    static method MixLength(block: Block, length: nat) returns (w: Block)
      requires length < LENGTH_MOD
      ensures w == LengthMixed(block, length)
    {
      hide Add;
      hide Mul;
      hide Sub;
      hide Xor64;
      hide HashMul2;
      hide FromLength;
      var len := FromLength(length);
      w := block[0 := Add(block[0], Mul(len, K0))];
      w := w[1 := Xor64(w[1], HashMul2(len, K0))];
      w := w[2 := Xor64(w[2], Mul(len, K1))];
      w := w[3 := Sub(w[3], Mul(len, K2))];
    }
  }

  lemma LastBlockIs(rest: Bytes, length: nat, w: Block)
    requires |rest| < 64 && length < LENGTH_MOD
    requires w == LengthMixed(Words(rest + TableBytes(1, 2, 64 - |rest|)), length)
    ensures w == LastBlock(rest, length)
  {
  }

  function Joined(chunks: seq<Bytes>): Bytes {
    if |chunks| == 0 then [] else Joined(chunks[..|chunks| - 1]) + chunks[|chunks| - 1]
  }

  /** However a message is split over update calls, and whichever path each of them
      takes, the digest is that of the whole message. */
  method HashInPieces(chunks: seq<Bytes>, hw: seq<bool>, last: bool) returns (hash: Bytes)
    requires |hw| == |chunks|
    ensures hash == Digest(InitialState(), Joined(chunks))
  {
    hide Digest;
    hide InitialState;
    hide Fed;
    var ctx := new FastHash256.Init();
    var i := 0;
    while i < |chunks|
      invariant 0 <= i <= |chunks| && fresh(ctx) && fresh(ctx.buff)
      invariant ctx.Holds(InitialState(), Joined(chunks[..i]))
    {
      ctx.Update(hw[i], chunks[i], InitialState(), Joined(chunks[..i]));
      assert chunks[..i + 1][..i] == chunks[..i];
      i := i + 1;
    }
    assert chunks[..i] == chunks;
    hash := ctx.Final(last, InitialState(), Joined(chunks));
  }
}
