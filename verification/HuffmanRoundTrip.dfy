/**
 The compressor's side against the decompressor's: from any frequencies the encoder makes
 lengths that the decoder's table builder accepts, and every message over the used
 symbols, written bit by bit with the encoder's codes, is read back from the bytes.
 */
module HuffmanRoundTrip {
  import opened Bits
  import opened LittleEndian
  import opened CanonicalCodes
  import opened EncoderTables
  import opened InflateTables
  import opened BitBuffer

  predicate Codable(sizes: seq<nat>, msg: seq<nat>) {
    forall i :: 0 <= i < |msg| ==> Used(sizes, msg[i])
  }

  /** The bit stream that starts with the codes of a message. */
  function Emitted(sizes: seq<nat>, msg: seq<nat>, rest: nat): nat
    requires Codable(sizes, msg)
  {
    if msg == [] then rest
    else LsbVal(CodeWord(sizes, msg[0])) + Pow2(sizes[msg[0]]) * Emitted(sizes, msg[1..], rest)
  }

  /** How many bits the codes take. */
  function BitCount(sizes: seq<nat>, msg: seq<nat>): nat
    requires Codable(sizes, msg)
  {
    if msg == [] then 0 else sizes[msg[0]] + BitCount(sizes, msg[1..])
  }

  lemma {:induction false} EmittedAppend(sizes: seq<nat>, a: seq<nat>, b: seq<nat>, rest: nat)
    requires Codable(sizes, a) && Codable(sizes, b)
    ensures Codable(sizes, a + b)
    ensures Emitted(sizes, a + b, rest) == Emitted(sizes, a, Emitted(sizes, b, rest))
    ensures BitCount(sizes, a + b) == BitCount(sizes, a) + BitCount(sizes, b)
  {
    hide CodeWord;
    hide Pow2;
    if a == [] {
      assert a + b == b;
    } else {
      assert (a + b)[1..] == a[1..] + b;
      EmittedAppend(sizes, a[1..], b, rest);
    }
  }

  lemma {:induction false} EmittedSplit(sizes: seq<nat>, msg: seq<nat>, rest: nat)
    requires Codable(sizes, msg)
    ensures Emitted(sizes, msg, rest) == Emitted(sizes, msg, 0) + Pow2(BitCount(sizes, msg)) * rest
  {
    hide CodeWord;
    if msg == [] {
      assert Pow2(0) == 1;
    } else {
      hide Pow2;
      var l, n := sizes[msg[0]], BitCount(sizes, msg[1..]);
      EmittedSplit(sizes, msg[1..], rest);
      Pow2Add(l, n);
      MulAssoc(Pow2(l), Pow2(n), rest);
      DistributeLeft(Pow2(l), Emitted(sizes, msg[1..], 0), Pow2(n) * rest);
    }
  }

  /** One more code goes above the bits of those before. */
  lemma {:induction false} EmittedSnoc(sizes: seq<nat>, msg: seq<nat>, s: nat)
    requires Codable(sizes, msg) && Used(sizes, s)
    ensures Codable(sizes, msg + [s]) && BitCount(sizes, msg + [s]) == BitCount(sizes, msg) + sizes[s]
    ensures Emitted(sizes, msg + [s], 0) == Emitted(sizes, msg, 0) + Pow2(BitCount(sizes, msg)) * LsbVal(CodeWord(sizes, s))
  {
    hide CodeWord;
    hide Pow2;
    EmittedAppend(sizes, msg, [s], 0);
    assert [s][1..] == [];
    assert Emitted(sizes, [s], 0) == LsbVal(CodeWord(sizes, s)) + Pow2(sizes[s]) * 0;
    EmittedSplit(sizes, msg, Emitted(sizes, [s], 0));
  }

  /** A code written to the bit stream is the one the inflater's decoder finds. */
  lemma EmittedCodeMatches(lens: seq<nat>, s: nat, rest: nat)
    requires Used(lens, s)
    ensures var v := LsbVal(CodeWord(lens, s)) + Pow2(lens[s]) * rest;
            Matches(lens, s, v) && ShiftRight(v, lens[s]) == rest
  {
    var w := CodeWord(lens, s);
    var v := LsbVal(w) + Pow2(lens[s]) * rest;
    LsbBound(w);
    ModUnique(v, Pow2(lens[s]), rest, LsbVal(w));
    LsbMod(v, lens[s]);
    LsbBitsVal(w);
    LsbBitsVal(LsbBits(v, lens[s]));
  }

  /** Writes the codes of a message, low bit first, into bytes. */
  method PutCodes(coder: HuffCoder, tableLen: nat, msg: seq<nat>) returns (bytes: Bytes)
    requires coder.CodesOk(tableLen) && Codable(coder.codeSizes[..tableLen], msg)
    requires forall p :: 0 <= p < tableLen ==> coder.codeSizes[p] <= 15
    ensures LeVal(bytes) == Emitted(coder.codeSizes[..tableLen], msg, 0)
    ensures |bytes| == (BitCount(coder.codeSizes[..tableLen], msg) + 7) / 8
  {
    hide CodeWord;
    hide Pow2;
    hide LsbVal;
    ghost var sizes := coder.codeSizes[..tableLen];
    var writer := new BitWriter();
    var i := 0;
    assert msg[..0] == [];
    while i < |msg|
      invariant 0 <= i <= |msg| && Codable(sizes, msg[..i]) && writer.Valid() && fresh(writer)
      invariant writer.Value() == Emitted(sizes, msg[..i], 0) && writer.Count() == BitCount(sizes, msg[..i])
    {
      assert Used(sizes, msg[i]) && msg[..i + 1] == msg[..i] + [msg[i]];
      EmittedSnoc(sizes, msg[..i], msg[i]);
      LsbBound(CodeWord(sizes, msg[i]));
      writer.PutBits(coder.codes[msg[i]], coder.codeSizes[msg[i]]);
      i := i + 1;
    }
    assert msg[..i] == msg;
    writer.Flush();
    bytes := writer.out;
  }

  /** Decodes as many symbols as a message has, from input that comes in any pieces. */
  method TakeSymbols(reader: BitReader, table: HuffTable, count: nat, ghost msg: seq<nat>, ghost rest: nat)
    returns (out: seq<nat>)
    requires reader.Valid() && table.Built() && Acceptable(table.codeSize)
    requires count == |msg| && Codable(table.codeSize, msg) && reader.Stream() == Emitted(table.codeSize, msg, rest)
    modifies reader
    ensures out == msg && reader.Valid() && reader.Stream() == rest
    ensures 8 * reader.pos - reader.numBits == old(8 * reader.pos - reader.numBits) + BitCount(table.codeSize, msg)
  {
    hide CodeWord;
    hide Pow2;
    hide LsbVal;
    hide Acceptable;
    ghost var sizes := table.codeSize;
    out := [];
    while |out| < count
      invariant |out| <= count && out == msg[..|out|] && reader.Valid() && table.Built()
      invariant reader.Stream() == Emitted(sizes, msg[|out|..], rest)
      invariant 8 * reader.pos - reader.numBits + BitCount(sizes, msg[|out|..])
                == old(8 * reader.pos - reader.numBits) + BitCount(sizes, msg)
    {
      var pieceEnd: int := *;
      pieceEnd := if 0 <= pieceEnd <= |reader.input| then pieceEnd else |reader.input|;
      ghost var s, left := msg[|out|], msg[|out| + 1..];
      assert msg[|out|..][0] == s && msg[|out|..][1..] == left;
      assert Used(sizes, s);
      EmittedCodeMatches(sizes, s, Emitted(sizes, left, rest));
      ghost var stream := reader.Stream();
      var sym := reader.Decode(table, pieceEnd);
      SameSymbol(sizes, sym, s, stream);
      out := out + [sym];
    }
  }

  lemma SameSymbol(lens: seq<nat>, s: nat, t: nat, v: nat)
    requires Acceptable(lens) && Matches(lens, s, v) && Matches(lens, t, v)
    ensures s == t
  {
    AcceptableNotOversubscribed(lens);
    MatchUnique(lens, s, t, v);
  }

  /**
   From frequencies to tables, from a message to bytes, and back: the decoder accepts the
   encoder's lengths and gives back the message.
   */
  method RoundTrip(coder: HuffCoder, tableLen: nat, limit: nat, msg: seq<nat>)
    returns (ok: bool, bytes: Bytes, out: seq<nat>)
    requires coder.Valid() && tableLen <= EncoderTables.MAX_SYMBOLS && 1 <= limit <= 15 && tableLen <= Pow2(limit)
    requires SumTo(coder.counts[..tableLen], tableLen) < 65536
    requires forall i :: 0 <= i < |msg| ==> msg[i] < tableLen && coder.counts[msg[i]] > 0
    modifies coder.codeSizes, coder.codes
    ensures ok && out == msg
    ensures var sizes := coder.codeSizes[..tableLen];
            && Codable(sizes, msg) && LeVal(bytes) == Emitted(sizes, msg, 0)
            && |bytes| == (BitCount(sizes, msg) + 7) / 8
  {
    hide Acceptable;
    hide Emitted;
    ghost var counts := coder.counts[..tableLen];
    assert forall i :: 0 <= i < |msg| ==> counts[msg[i]] > 0;
    coder.OptimizeTable(tableLen, limit);
    var sizes := coder.codeSizes[..tableLen];
    assert Codable(sizes, msg);
    AcceptableIsValid(sizes);
    bytes := PutCodes(coder, tableLen, msg);
    var table := new HuffTable(sizes);
    ok := table.Build();
    var reader := new BitReader(bytes);
    out := TakeSymbols(reader, table, |msg|, msg, 0);
  }

  lemma AcceptableIsValid(lens: seq<nat>)
    requires Acceptable(lens)
    ensures forall p :: 0 <= p < |lens| ==> lens[p] <= 15
  {
  }
}
