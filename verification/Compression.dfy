/**
 The buffer around the compressor: a 4 KiB ring, an extra buffer for output that a flush
 leaves over, and reads that let the compressor write straight to the caller. The
 compressor is any producer that answers Z_OK, Z_STREAM_END, an error, or Z_BUF_ERROR
 without output; what it will answer is a list that no statement here restricts.
 */
module Compression {
  import opened Wrappers
  import opened LittleEndian

  const SIZE := 4096

  const EOF := 0
  const NODATA := -1
  const FULL := -2
  const ERROR := -3

  datatype Code = Ok | BufError | StreamEnd | Failed

  // ---- the compressor ----

  /** What one call does: no progress, or some input taken and some output put out, as
      far as there is input and room, perhaps as the last of the stream or with an error. */
  datatype Reply = Stuck | Moves(taken: nat, out: Bytes) | Ends(taken: nat, out: Bytes) | Fails(taken: nat, out: Bytes)

  predicate Stalls(replies: seq<Reply>) {
    replies == [] || replies[0].Stuck?
  }

  function CodeOf(replies: seq<Reply>): Code {
    if Stalls(replies) then BufError
    else match replies[0]
      case Moves(_, _) => Ok
      case Ends(_, _) => StreamEnd
      case Fails(_, _) => Failed
  }

  lemma StallsSays(replies: seq<Reply>)
    ensures Stalls(replies) <==> CodeOf(replies) == BufError
    ensures !Stalls(replies) ==> |Later(replies)| < |replies|
  {
  }

  function Given(replies: seq<Reply>, availOut: nat): (r: Bytes)
    ensures |r| <= availOut && (Stalls(replies) ==> r == [])
  {
    if Stalls(replies) then []
    else if |replies[0].out| <= availOut then replies[0].out
    else replies[0].out[..availOut]
  }

  function Later(replies: seq<Reply>): seq<Reply> {
    if replies == [] then [] else replies[1..]
  }

  /** The input all calls together could take. */
  function Wanted(replies: seq<Reply>): nat {
    if replies == [] then 0
    else (if replies[0].Stuck? then 0 else replies[0].taken) + Wanted(replies[1..])
  }

  /** The input taken by the calls between two points of the list: all they could take, or
      all there is. */
  function Took(input: Bytes, before: seq<Reply>, after: seq<Reply>): int {
    var wanted := Wanted(before) - Wanted(after);
    if wanted < |input| then wanted else |input|
  }

  class Compressor {
    /** Everything it has taken, and everything it has put out. */
    ghost var accepted: Bytes
    ghost var emitted: Bytes
    /** The last call filled all the room it was given, so there may be more to put out;
        a compressor that leaves room has put out all it can without more input. */
    ghost var filled: bool
    /** It has said that the stream has ended. */
    ghost var finished: bool
    /** What it will do, call by call; after that it is stuck. */
    var replies: seq<Reply>

    constructor (script: seq<Reply>)
      ensures emitted == [] && accepted == [] && replies == script && !filled && !finished
    {
      accepted, emitted, filled, finished, replies := [], [], false, false, script;
    }

    /** deflate or inflate, with some input to take and room for some output. */
    method Call(input: Bytes, availOut: nat) returns (code: Code, out: Bytes, taken: nat)
      requires availOut > 0
      modifies this
      ensures out == Given(old(replies), availOut) && replies == Later(old(replies))
      ensures taken <= |input| && taken == Took(input, old(replies), replies)
      ensures accepted == old(accepted) + input[..taken] && emitted == old(emitted) + out
      ensures code == CodeOf(old(replies))
      ensures filled == (|out| == availOut) && finished == (old(finished) || code.StreamEnd?)
    {
      out, taken, code := Given(replies, availOut), 0, CodeOf(replies);
      if !Stalls(replies) {
        taken := if replies[0].taken < |input| then replies[0].taken else |input|;
      }
      accepted, emitted, filled := accepted + input[..taken], emitted + out, |out| == availOut;
      finished := finished || code.StreamEnd?;
      replies := Later(replies);
    }
  }

  /** What two runs of calls take one after the other. */
  lemma TookOn(input: Bytes, a: seq<Reply>, b: seq<Reply>, c: seq<Reply>, n: nat)
    requires n <= |input| && n == Took(input, a, b) && Wanted(a) >= Wanted(b) >= Wanted(c)
    ensures n + Took(input[n..], b, c) == Took(input, a, c)
  {
  }

  /** A run of calls has taken n bytes of the input. */
  ghost predicate Taken(input: Bytes, before: seq<Reply>, after: seq<Reply>, was: Bytes, accepted: Bytes, n: int) {
    && 0 <= n <= |input| && n == Took(input, before, after) && Wanted(before) >= Wanted(after)
    && accepted == was + input[..n]
  }

  lemma TakenOn(input: Bytes, before: seq<Reply>, now: seq<Reply>, was: Bytes, accepted: Bytes, n: nat, more: nat)
    requires Taken(input, before, now, was, accepted, n)
    requires more <= |input[n..]| && more == Took(input[n..], now, Later(now))
    ensures Taken(input, before, Later(now), was, accepted + input[n..][..more], n + more)
  {
    hide Took;
    hide Wanted;
    WantedLater(now);
    TookOn(input, before, now, Later(now), n);
    Splice(input, n, more);
  }

  lemma WantedLater(replies: seq<Reply>)
    ensures Wanted(replies) >= Wanted(Later(replies))
  {
  }

  // ---- the ring ----

  /** The bytes between two offsets of a ring, the end possibly one lap ahead. */
  function Span(ring: Bytes, start: nat, end: nat): (r: Bytes)
    requires |ring| == SIZE && start <= end <= start + SIZE && start <= SIZE
    ensures |r| == end - start
  {
    if end <= SIZE then ring[start..end] else ring[start..] + ring[..end - SIZE]
  }

  /** Where in the ring an offset is. */
  function Slot(end: nat): (r: nat)
    requires end < 2 * SIZE
    ensures r < SIZE && r == end % 4096
  {
    if end < SIZE then end else end - SIZE
  }

  function Overwrite(ring: Bytes, at: nat, out: Bytes): (r: Bytes)
    requires |ring| == SIZE && at + |out| <= SIZE
    ensures |r| == SIZE
  {
    ring[..at] + out + ring[at + |out|..]
  }

  /** Writing behind the end of the ring's contents adds to them. */
  lemma SpanGrows(ring: Bytes, start: nat, end: nat, out: Bytes)
    requires |ring| == SIZE && start <= end && end + |out| <= start + SIZE && start < SIZE
    requires end < 2 * SIZE && Slot(end) + |out| <= SIZE
    ensures Span(Overwrite(ring, Slot(end), out), start, end + |out|) == Span(ring, start, end) + out
  {
    if end < SIZE {
      GrowsAhead(ring, start, end, out);
    } else {
      GrowsBehind(ring, start, end - SIZE, out);
    }
  }

  lemma GrowsAhead(ring: Bytes, start: nat, end: nat, out: Bytes)
    requires |ring| == SIZE && start <= end && end + |out| <= SIZE
    ensures Overwrite(ring, end, out)[start..end + |out|] == ring[start..end] + out
  {
  }

  lemma GrowsBehind(ring: Bytes, start: nat, at: nat, out: Bytes)
    requires |ring| == SIZE && at + |out| <= start < SIZE
    ensures Span(Overwrite(ring, at, out), start, SIZE + at + |out|) == Span(ring, start, SIZE + at) + out
  {
    var ring' := Overwrite(ring, at, out);
    assert ring'[start..] == ring[start..];
    assert ring'[..at + |out|] == ring[..at] + out;
    assert Span(ring, start, SIZE + at) == ring[start..] + ring[..at];
    assert Span(ring', start, SIZE + at + |out|) == ring'[start..] + ring'[..at + |out|];
  }

  /** Taking from the front. */
  lemma SpanShrinks(ring: Bytes, start: nat, end: nat, len: nat)
    requires |ring| == SIZE && start <= end <= start + SIZE && start < SIZE && len <= end - start
    ensures start + len <= SIZE ==>
              Span(ring, start, end)[..len] == ring[start..start + len]
              && Span(ring, start, end)[len..] == Span(ring, start + len, end)
    ensures start + len >= SIZE ==>
              Span(ring, start, end)[..len] == ring[start..] + ring[..start + len - SIZE]
              && Span(ring, start, end)[len..] == Span(ring, start + len - SIZE, end - SIZE)
  {
  }

  /** Room for output in one stretch behind the contents. */
  function Avail(start: nat, end: nat): (r: nat)
    requires start < SIZE && start <= end < start + SIZE
    ensures 0 < r && Slot(end) + r <= SIZE && end + r <= start + SIZE
  {
    if Slot(end) < start then start - Slot(end) else SIZE - Slot(end)
  }

  /** What repeated calls put out, the answer of the last one and the answers behind it. */
  datatype Pour = Pour(out: Bytes, code: Code, rest: seq<Reply>)

  /** Repeated calls until one leaves room or answers something else than Z_OK: the first
      gets 4096 bytes of room, each later one as much as has been used so far. */
  function Poured(replies: seq<Reply>, used: nat, room: nat): Pour
    requires room > 0
    decreases |replies|
  {
    var out := Given(replies, room);
    if CodeOf(replies) != Ok || |out| < room then Pour(out, CodeOf(replies), Later(replies))
    else
      var more := Poured(Later(replies), used + room, used + room);
      Pour(out + more.out, more.code, more.rest)
  }

  predicate Drops(pour: Pour) {
    pour.code.StreamEnd? || pour.code.Failed?
  }

  /** The extra buffer of a flush: none if the first call is stuck, and none if the last
      one ends the stream or fails. */
  function Flushed(replies: seq<Reply>): Option<Bytes> {
    var pour := Poured(replies, 0, 4096);
    if Stalls(replies) || Drops(pour) then None else Some(pour.out)
  }

  /** What is put out so far and what the calls to come add to it. */
  ghost predicate Pouring(all: Pour, buff: Bytes, replies: seq<Reply>, room: nat) {
    && room > 0
    && var more := Poured(replies, |buff|, room);
       all == Pour(buff + more.out, more.code, more.rest)
  }

  lemma PourStarts(replies: seq<Reply>)
    ensures Pouring(Poured(replies, 0, 4096), [], replies, 4096)
  {
  }

  lemma PourStep(all: Pour, buff: Bytes, replies: seq<Reply>, room: nat)
    requires Pouring(all, buff, replies, room)
    ensures var out := Given(replies, room);
            if CodeOf(replies) != Ok || |out| < room then all == Pour(buff + out, CodeOf(replies), Later(replies))
            else Pouring(all, buff + out, Later(replies), |buff + out|)
  {
    var out := Given(replies, room);
    if CodeOf(replies) == Ok && |out| == room {
      var more := Poured(Later(replies), |buff| + room, |buff| + room);
      assert buff + (out + more.out) == (buff + out) + more.out;
    }
  }

  /** The room of the calls: 4096 bytes, 4096, 8192, and so on, twice as much in all. */
  lemma RoomDoubles(out: Bytes, replies: seq<Reply>)
    requires |out| >= 8192 && replies == [Moves(0, out), Moves(0, out), Moves(0, out)]
    ensures Poured(replies, 0, 4096) == Pour(out[..4096] + (out[..4096] + (out[..8192] + [])), BufError, [])
  {
    var r1, r2 := replies[1..], replies[1..][1..];
    assert r1 == [Moves(0, out), Moves(0, out)] && r2 == [Moves(0, out)] && r2[1..] == [];
    assert Poured([], 16384, 16384) == Pour([], BufError, []);
    assert Poured(r2, 8192, 8192) == Pour(out[..8192] + [], BufError, []);
    assert Poured(r1, 4096, 4096) == Pour(out[..4096] + (out[..8192] + []), BufError, []);
  }

  /** The extra buffer is left empty exactly when its first call makes progress without
      output and without ending the stream. */
  lemma EmptyFlush(replies: seq<Reply>)
    ensures Flushed(replies) == Some([]) <==> CodeOf(replies) == Ok && Given(replies, 4096) == []
  {
  }

  /** Behind the first stretch the second one reaches to the start of the contents. */
  lemma SecondStretch(start: nat, end: nat)
    requires start < SIZE && start <= end < start + SIZE && end + Avail(start, end) < start + SIZE
    ensures var end1 := end + Avail(start, end); end1 + Avail(start, end1) == start + SIZE
  {
  }

  /** The first call fills its stretch and there is another one. */
  predicate Twice(start: nat, end: nat, replies: seq<Reply>)
    requires start < SIZE && start <= end < start + SIZE
  {
    var avail := Avail(start, end);
    CodeOf(replies).Ok? && |Given(replies, avail)| == avail && end + avail < start + SIZE
  }

  /** What a write puts into the ring, with one call or with two. */
  function RingOut(start: nat, end: nat, replies: seq<Reply>): (r: Bytes)
    requires start < SIZE && start <= end < start + SIZE
    ensures end + |r| <= start + SIZE
  {
    var out := Given(replies, Avail(start, end));
    if Twice(start, end, replies) then out + Given(Later(replies), Avail(start, end + |out|)) else out
  }

  function RingRest(start: nat, end: nat, replies: seq<Reply>): seq<Reply>
    requires start < SIZE && start <= end < start + SIZE
  {
    if Twice(start, end, replies) then Later(Later(replies)) else Later(replies)
  }

  /** The answer a write goes on with: a second call that is stuck does not matter. */
  function RingCode(start: nat, end: nat, replies: seq<Reply>): Code
    requires start < SIZE && start <= end < start + SIZE
  {
    if !Twice(start, end, replies) then CodeOf(replies)
    else if Stalls(Later(replies)) then Ok
    else CodeOf(Later(replies))
  }

  /** The offsets after n bytes are taken: back to the front when nothing is left. */
  function Advanced(start: nat, end: nat, n: nat): (nat, nat)
    requires start < SIZE && start <= end <= start + SIZE && n <= end - start
  {
    if start + n == end then (0, 0)
    else if start + n >= SIZE then (start + n - SIZE, end - SIZE)
    else (start + n, end)
  }

  lemma Regroup(a: Bytes, b: Bytes, c: Bytes)
    ensures a + (b + []) + c == a + ((b + c) + []) == a + (b + c)
  {
  }

  datatype Flush = NoFlush | PartialFlush | FinalFlush

  class Deflate {
    const compresses: bool            // FLAG_DEFLATE
    const z: Compressor
    const buffer: array<Byte>
    var flushBuff: Option<Bytes>
    var flushOff: nat
    var start: nat
    var end: nat
    var moreData: bool                // FLAG_MORE_DATA
    var streamEnd: bool               // FLAG_STREAM_END
    var lastOut: nat
    ghost var delivered: Bytes
    /** No output of the compressor has been thrown away. */
    ghost var lossless: bool

    /** What the extra buffer still has to give. */
    function Extra(): (r: Bytes)
      requires flushBuff.Some? ==> flushOff <= |flushBuff.value|
      reads this
    {
      if flushBuff.None? then [] else flushBuff.value[flushOff..]
    }

    /** What has been put out and not read yet: the ring, then the extra buffer. */
    function Waiting(): (r: Bytes)
      requires buffer.Length == SIZE && start <= end <= start + SIZE && start < SIZE
      requires flushBuff.Some? ==> flushOff <= |flushBuff.value|
      reads this, buffer
    {
      Span(buffer[..], start, end) + Extra()
    }

    /** No byte is lost, invented or out of order, the flags tell whether the compressor
        may have more to put out and whether it has ended the stream. */
    ghost predicate Valid()
      reads this, buffer, z
    {
      && buffer.Length == SIZE && start < SIZE && start <= end <= start + SIZE
      && (flushBuff.Some? ==> flushOff <= |flushBuff.value|)
      && (lossless ==> z.emitted == delivered + Waiting() && moreData == z.filled)
      && streamEnd == z.finished
    }

    constructor (forCompression: bool, replies: seq<Reply>)
      ensures Valid() && lossless && delivered == [] && compresses == forCompression && fresh(buffer) && fresh(z)
      ensures start == end == 0 && flushBuff.None? && z.replies == replies && Waiting() == [] && z.emitted == []
      ensures !moreData && !z.finished
    {
      compresses := forCompression;
      z := new Compressor(replies);
      buffer := new Byte[SIZE](i => 0);
      flushBuff, flushOff, start, end, moreData, streamEnd, lastOut := None, 0, 0, 0, false, false, 0;
      delivered, lossless := [], true;
      new;
      assert Waiting() == [];
    }

    /** psync_deflate_set_out_buff: the free stretch behind the contents. */
    method SetOutBuff() returns (full: bool, at: nat, avail: nat)
      requires Valid()
      modifies this`lastOut
      ensures Valid() && full == (end - start == SIZE)
      ensures !full ==> at == Slot(end) && avail == Avail(start, end) == lastOut
    {
      if end - start == SIZE {
        return true, 0, 0;
      }
      full, at := false, Slot(end);
      avail := if at < start then start - at else SIZE - at;
      lastOut := avail;
    }

    /** psync_deflate_call_compressor with its output going to the ring. */
    method CallIntoRing(at: nat, avail: nat, input: Bytes) returns (code: Code, taken: nat)
      requires Valid() && flushBuff.None? && end - start < SIZE && at == Slot(end) && avail == Avail(start, end)
      modifies this`end, this`moreData, this`streamEnd, buffer, z
      ensures Valid() && taken <= |input| && z.accepted == old(z.accepted) + input[..taken]
      ensures z.replies == Later(old(z.replies)) && taken == Took(input, old(z.replies), z.replies)
      ensures code == CodeOf(old(z.replies)) && moreData == z.filled
      ensures z.finished == (old(z.finished) || code.StreamEnd?)
      ensures var out := Given(old(z.replies), avail);
              && end == old(end) + |out| && Waiting() == old(Waiting()) + out
              && z.emitted == old(z.emitted) + out && (moreData <==> |out| == avail)
    {
      hide Given;
      hide Span;
      hide Overwrite;
      hide Took;
      var out;
      ghost var ring, span := buffer[..], Span(buffer[..], start, end);
      code, out, taken := z.Call(input, avail);
      CopyOut(at, out);
      SpanGrows(ring, start, end, out);
      end := end + |out|;
      moreData := |out| == avail;
      streamEnd := streamEnd || code.StreamEnd?;
      Regroup(delivered, span, out);
    }

    method CopyOut(at: nat, out: Bytes)
      requires buffer.Length == SIZE && at + |out| <= SIZE
      modifies buffer
      ensures buffer[..] == Overwrite(old(buffer[..]), at, out)
    {
      var i := 0;
      while i < |out|
        invariant 0 <= i <= |out|
        invariant forall j :: at <= j < at + i ==> buffer[j] == out[j - at]
        invariant forall j :: 0 <= j < SIZE && !(at <= j < at + i) ==> buffer[j] == old(buffer[j])
      {
        buffer[at + i] := out[i];
        i := i + 1;
      }
    }

    /**
     psync_deflate_finish_flush_add_buffer: what the flush still puts out goes into a
     buffer that grows until the compressor has nothing more. If the last call ends the
     stream or fails, the buffer is not kept and its contents are lost.
     */
    method FinishFlush(input: Bytes) returns (code: Code, taken: nat)
      requires Valid() && flushBuff.None?
      modifies this`flushBuff, this`flushOff, this`moreData, this`streamEnd, this`lossless, z
      ensures Valid() && !moreData && taken <= |input| && z.accepted == old(z.accepted) + input[..taken]
      ensures taken == Took(input, old(z.replies), z.replies) && Wanted(old(z.replies)) >= Wanted(z.replies)
      ensures z.finished == (old(z.finished) || code.StreamEnd?) && (code.Ok? ==> !z.filled)
      ensures var pour := Poured(old(z.replies), 0, 4096);
              && z.replies == pour.rest && z.emitted == old(z.emitted) + pour.out
              && code == (if Drops(pour) then pour.code else Ok)
              && lossless == (old(lossless) && !(Drops(pour) && pour.out != []))
      ensures flushBuff == Flushed(old(z.replies))
      ensures Waiting() == old(Waiting()) + if flushBuff.Some? then flushBuff.value else []
    {
      hide Span;
      hide Poured;
      hide Took;
      hide Stalls;
      ghost var span := Span(buffer[..], start, end);
      moreData, flushOff := false, 0;
      ghost var pour := Poured(z.replies, 0, 4096);
      var added;
      code, taken, added := FlushOut(input);
      flushBuff := added;
      streamEnd := streamEnd || code.StreamEnd?;
      lossless := lossless && !(Drops(pour) && pour.out != []);
      if flushBuff.Some? {
        assert flushBuff.value[0..] == flushBuff.value;
      }
      Regroup(delivered, span, Extra());
    }

    method FlushOut(input: Bytes) returns (code: Code, taken: nat, added: Option<Bytes>)
      modifies z
      ensures Taken(input, old(z.replies), z.replies, old(z.accepted), z.accepted, taken)
      ensures z.finished == (old(z.finished) || code.StreamEnd?)
      ensures var pour := Poured(old(z.replies), 0, 4096);
              && z.replies == pour.rest && z.emitted == old(z.emitted) + pour.out
              && code == (if Drops(pour) then pour.code else Ok)
              && added == (if Stalls(old(z.replies)) || Drops(pour) then None else Some(pour.out))
              && (Stalls(old(z.replies)) ==> pour.out == [])
              && (!Drops(pour) || pour.out == [] ==> !z.filled)
    {
      hide CodeOf;
      hide Wanted;
      hide Later;
      hide Given;
      hide Taken;
      hide Poured;
      hide Pouring;
      hide Took;
      hide Stalls;
      ghost var all := Poured(z.replies, 0, 4096);
      PourStarts(z.replies);
      TakenNothing(input, z.replies, z.accepted);
      var buff: Bytes := [];
      var current := 4096;
      taken := 0;
      while true
        invariant 0 <= taken <= |input| && current > 0 && Pouring(all, buff, z.replies, current)
        invariant if buff == [] then z.replies == old(z.replies) else !Stalls(old(z.replies))
        invariant Taken(input, old(z.replies), z.replies, old(z.accepted), z.accepted, taken)
        invariant z.emitted == old(z.emitted) + buff
        invariant z.finished == old(z.finished)
        decreases |z.replies|
      {
        PourStep(all, buff, z.replies, current);
        StallsSays(z.replies);
        ghost var before, accepted := z.replies, z.accepted;
        var out, n;
        code, out, n := z.Call(input[taken..], current);
        TakenOn(input, old(z.replies), before, old(z.accepted), accepted, taken, n);
        taken := taken + n;
        assert 0 <= taken <= |input|;
        buff := buff + out;
        if !code.Ok? || |out| < current {
          assert all == Pour(buff, code, z.replies);
          break;
        }
        current := |buff|;
      }
      if code.BufError? {
        return Ok, taken, if |buff| > 0 then Some(buff) else None;
      }
      return code, taken, if code.Ok? then Some(buff) else None;
    }

    /** The one or two calls of the compressor that put output into the ring. */
    method FillRing(at: nat, avail: nat, data: Bytes) returns (code: Code, taken: nat)
      requires Valid() && flushBuff.None? && end - start < SIZE && at == Slot(end) && avail == Avail(start, end)
      modifies this`end, this`moreData, this`streamEnd, this`lastOut, buffer, z
      ensures Valid() && Taken(data, old(z.replies), z.replies, old(z.accepted), z.accepted, taken)
      ensures code == RingCode(start, old(end), old(z.replies)) && z.finished == (old(z.finished) || code.StreamEnd?)
      ensures z.replies == RingRest(start, old(end), old(z.replies))
      ensures var out := RingOut(start, old(end), old(z.replies));
              end == old(end) + |out| && Waiting() == old(Waiting()) + out && z.emitted == old(z.emitted) + out
      ensures moreData == z.filled && (code.Ok? ==> (moreData <==> end == start + SIZE))
      ensures code.BufError? ==> !moreData
    {
      hide Slot;
      hide Avail;
      hide Span;
      hide Took;
      hide Taken;
      TakenNothing(data, z.replies, z.accepted);
      ghost var first, none := z.replies, z.accepted;
      code, taken := CallIntoRing(at, avail, data);
      assert data[0..] == data;
      TakenOn(data, first, first, none, none, 0, taken);
      if code.Ok? && moreData {
        var full, at2, avail2 := SetOutBuff();
        if !full {
          ghost var before, accepted := z.replies, z.accepted;
          SecondStretch(start, old(end));
          var more;
          code, more := CallIntoRing(at2, avail2, data[taken..]);
          TakenOn(data, first, before, none, accepted, taken, more);
          taken := taken + more;
          if code.BufError? {
            code := Ok;
          }
        }
      }
    }

    /** A write goes on into the extra buffer. */
    ghost predicate Flushes(flush: Flush)
      requires buffer.Length == SIZE && start < SIZE && start <= end < start + SIZE
      reads this, z
    {
      && compresses && !flush.NoFlush? && RingCode(start, end, z.replies).Ok?
      && end + |RingOut(start, end, z.replies)| == start + SIZE
    }

    /** A write throws output away: its flush has filled the ring, has put out more and has
        then ended the stream or failed. */
    ghost predicate Loses(flush: Flush)
      requires buffer.Length == SIZE && start < SIZE && start <= end < start + SIZE
      reads this, z
    {
      var pour := Poured(RingRest(start, end, z.replies), 0, 4096);
      Flushes(flush) && Drops(pour) && pour.out != []
    }

    /** The answer a write ends with. */
    ghost function WriteCode(flush: Flush): Code
      requires buffer.Length == SIZE && start < SIZE && start <= end < start + SIZE
      reads this, z
    {
      var pour := Poured(RingRest(start, end, z.replies), 0, 4096);
      if !Flushes(flush) then RingCode(start, end, z.replies) else if Drops(pour) then pour.code else Ok
    }

    /** Data are refused. */
    predicate Refuses(data: Bytes, flush: Flush)
      reads this
    {
      (data == [] && flush.NoFlush?) || flushBuff.Some? || end - start == SIZE
    }

    /**
     psync_deflate_write. It refuses data while the extra buffer is in use or the ring is
     full; otherwise it returns how much the compressor took, and what the compressor put
     out waits behind what was waiting before. A flush that fills the ring goes on into the
     extra buffer, which exists unless the compressor is stuck at once, ends the stream or
     fails; in the last two cases, and no others, output is lost.
     */
    method Write(data: Bytes, flush: Flush) returns (r: int)
      requires Valid()
      modifies this`end, this`moreData, this`streamEnd, this`lastOut, this`flushBuff, this`flushOff, this`lossless, buffer, z
      ensures Valid()
      ensures old(Refuses(data, flush)) ==>
                && r == (if data == [] && flush.NoFlush? then ERROR else FULL)
                && Waiting() == old(Waiting()) && unchanged(z, this`end, this`moreData, this`streamEnd, this`flushBuff)
                && unchanged(this`lossless)
      ensures !old(Refuses(data, flush)) ==>
                var out := RingOut(start, old(end), old(z.replies));
                var rest := RingRest(start, old(end), old(z.replies));
                var pour := Poured(rest, 0, 4096);
                && end == old(end) + |out|
                && flushBuff == (if old(Flushes(flush)) then Flushed(rest) else None)
                && Waiting() == old(Waiting()) + out + (if flushBuff.Some? then flushBuff.value else [])
                && z.emitted == old(z.emitted) + out + (if old(Flushes(flush)) then pour.out else [])
                && z.replies == (if old(Flushes(flush)) then pour.rest else rest)
      ensures !old(Refuses(data, flush)) ==> moreData == (z.filled && !old(Flushes(flush)))
      ensures !old(Refuses(data, flush)) ==> lossless == (old(lossless) && !old(Loses(flush)))
      ensures !old(Refuses(data, flush)) ==>
                var taken := Took(data, old(z.replies), z.replies);
                && 0 <= taken <= |data| && z.accepted == old(z.accepted) + data[..taken]
                && r == (if old(WriteCode(flush)).Failed? then ERROR else taken)
                && z.finished == (old(z.finished) || old(WriteCode(flush)).StreamEnd?)
      ensures !old(Refuses(data, flush)) && compresses && !flush.NoFlush? ==>
                (old(WriteCode(flush)).Ok? || old(WriteCode(flush)).BufError? ==> !moreData && !z.filled)
    {
      hide Flushed;
      hide Poured;
      hide Slot;
      hide Avail;
      hide Span;
      hide RingOut;
      hide RingCode;
      hide RingRest;
      hide Took;
      hide Wanted;
      if data == [] && flush.NoFlush? {
        return ERROR;
      }
      if flushBuff.Some? {
        return FULL;
      }
      var full, at, avail := SetOutBuff();
      if full {
        return FULL;
      }
      var code, taken := FillRing(at, avail, data);
      if code.Ok? && compresses && !flush.NoFlush? && moreData {
        ghost var before := z.replies;
        var more;
        code, more := FinishFlush(data[taken..]);
        Splice(data, taken, more);
        TookOn(data, old(z.replies), before, z.replies, taken);
        taken := taken + more;
      }
      return if code.Failed? then ERROR else taken;
    }

    /** The assertion in the wrapping read, that what is left to copy reaches exactly to
        the end of the contents, fails for a read of len bytes. */
    ghost predicate Aborts(len: nat)
      reads this
    {
      len < end - start && start + len > SIZE
    }

    /**
     psync_deflate_read. The bytes returned are the next ones of the compressor's output:
     from the ring, from the extra buffer, or, when nothing is waiting, straight from the
     compressor, whose output is lost if it fails. Otherwise it says that there is no data
     exactly when there is none and the stream has not ended, and 0, which callers take for
     the end of the stream, when the stream has ended and also when it finds an empty extra
     buffer. The source's assertion fails exactly for the reads that cross the end of the
     ring and leave some of it.
     */
    method Read(len: nat) returns (r: int, data: Bytes, held: bool)
      requires Valid() && len > 0
      modifies this, buffer, z
      ensures Valid() && delivered == old(delivered) + data && streamEnd == z.finished
      ensures old(Waiting()) != [] ==>
                && 0 < |data| <= |old(Waiting())| && r == |data|
                && data == old(Waiting())[..|data|] && Waiting() == old(Waiting())[|data|..]
                && unchanged(z) && moreData == old(moreData) && lossless == old(lossless)
      ensures old(end != start) ==> |data| == Least(len, old(end - start)) && flushBuff == old(flushBuff)
      ensures old(end != start) ==> (start, end) == Advanced(old(start), old(end), |data|)
      ensures old(end == start) ==> start == old(start) && end == old(end)
      ensures old(end == start && flushBuff.Some?) ==>
                && r == |data| == Least(len, |old(Waiting())|) && (flushBuff.None? <==> Waiting() == [])
                && unchanged(z) && moreData == old(moreData) && lossless == old(lossless)
      ensures old(Empty() && moreData) ==>
                var out := Given(old(z.replies), len);
                var failed := CodeOf(old(z.replies)).Failed?;
                && data == (if failed then [] else out)
                && r == (if failed then ERROR else if out == [] then NODATA else |out|)
                && z.replies == Later(old(z.replies)) && z.emitted == old(z.emitted) + out
                && z.finished == (old(z.finished) || CodeOf(old(z.replies)).StreamEnd?)
                && z.accepted == old(z.accepted) && moreData == z.filled && Empty()
                && lossless == (old(lossless) && !(failed && out != []))
      ensures old(Empty() && !moreData) ==>
                && r == (if z.finished then EOF else NODATA) && data == []
                && unchanged(z) && moreData == old(moreData) && lossless == old(lossless) && Empty()
      ensures held <==> !old(Aborts(len))
    {
      held := true;
      if end == start {
        if flushBuff.Some? {
          r, data := ReadExtra(len);
        } else if moreData {
          r, data := ReadDirect(len);
        } else {
          assert Waiting() == [];
          return if streamEnd then EOF else NODATA, [], true;
        }
      } else {
        r, data, held := ReadRing(len);
      }
    }

    /** Nothing waits, and no flush has left an extra buffer. */
    predicate Empty()
      reads this
    {
      end == start && flushBuff.None?
    }

    method ReadExtra(len: nat) returns (r: int, data: Bytes)
      requires Valid() && end == start && flushBuff.Some?
      modifies this`flushBuff, this`flushOff, this`delivered
      ensures Valid() && delivered == old(delivered) + data && r == |data|
      ensures |data| == Least(len, |old(Waiting())|)
      ensures data == old(Waiting())[..|data|] && Waiting() == old(Waiting())[|data|..]
      ensures flushBuff.None? <==> Waiting() == []
    {
      hide Span;
      ghost var span, extra := Span(buffer[..], start, end), Extra();
      assert span == [];
      var all := flushBuff.value;
      var n := if len > |all| - flushOff then |all| - flushOff else len;
      data := all[flushOff..flushOff + n];
      assert data == extra[..n] && all[flushOff + n..] == extra[n..];
      flushOff := flushOff + n;
      if flushOff == |all| {
        flushBuff := None;
      }
      assert Extra() == extra[n..];
      delivered := delivered + data;
      TakeBack(old(delivered), extra, n);
      return n, data;
    }

    method ReadDirect(len: nat) returns (r: int, data: Bytes)
      requires Valid() && Empty() && len > 0
      modifies this`moreData, this`streamEnd, this`delivered, this`lossless, z
      ensures Valid() && delivered == old(delivered) + data && old(Waiting()) == [] == Waiting()
      ensures var out := Given(old(z.replies), len);
              var failed := CodeOf(old(z.replies)).Failed?;
              && data == (if failed then [] else out)
              && r == (if failed then ERROR else if out == [] then NODATA else |out|)
              && z.replies == Later(old(z.replies)) && z.emitted == old(z.emitted) + out
              && z.finished == (old(z.finished) || CodeOf(old(z.replies)).StreamEnd?)
              && z.accepted == old(z.accepted) && moreData == z.filled
              && lossless == (old(lossless) && !(failed && out != []))
    {
      hide Span;
      hide Took;
      assert Waiting() == [];
      var code, out, rest := z.Call([], len);
      assert z.accepted == old(z.accepted);
      moreData := |out| == len;
      streamEnd := streamEnd || code.StreamEnd?;
      if code.BufError? {
        return NODATA, [];
      }
      if code.Failed? {
        lossless := lossless && out == [];
        return ERROR, [];
      }
      delivered := delivered + out;
      return if |out| == 0 then NODATA else |out|, out;
    }

    /** The contents without their first n bytes. */
    method MoveOn(n: nat)
      requires buffer.Length == SIZE && start < SIZE && start <= end <= start + SIZE && n <= end - start
      modifies this`start, this`end
      ensures (start, end) == Advanced(old(start), old(end), n) && start < SIZE && start <= end <= start + SIZE
      ensures Span(buffer[..], start, end) == old(Span(buffer[..], start, end))[n..]
    {
      hide Span;
      SpanShrinks(buffer[..], start, end, n);
      EmptySpan(buffer[..]);
      start := start + n;
      if start == end {
        start, end := 0, 0;
      } else if start >= SIZE {
        start, end := start - SIZE, end - SIZE;
      }
    }

    method ReadRing(len: nat) returns (r: int, data: Bytes, held: bool)
      requires Valid() && end != start && len > 0
      modifies this`start, this`end, this`delivered
      ensures Valid() && delivered == old(delivered) + data && r == |data| && 0 < |data| <= len
      ensures |data| == Least(len, old(end - start))
      ensures data == old(Waiting())[..|data|] && Waiting() == old(Waiting())[|data|..]
      ensures (start, end) == Advanced(old(start), old(end), |data|)
      ensures held <==> !old(Aborts(len))
    {
      hide Span;
      hide Advanced;
      held := true;
      ghost var span, extra := Span(buffer[..], start, end), Extra();
      var n := if len > end - start then end - start else len;
      SpanShrinks(buffer[..], start, end, n);
      if start + n <= SIZE {
        data := buffer[start..start + n];
      } else {
        held := n - (SIZE - start) == end % SIZE;
        data := buffer[start..] + buffer[..n - (SIZE - start)];
      }
      assert data == span[..n];
      MoveOn(n);
      delivered := delivered + data;
      TakeFront(old(delivered), span, extra, n);
      return n, data, held;
    }
  }

  function Least(a: int, b: int): int {
    if a < b then a else b
  }

  /**
   The assertion can fail: with 4000 bytes put out, 3000 read, and 1000 more put out, 2000
   bytes lie across the end of the ring, and a read of 1200 aborts.
   */
  method AbortHappens() returns (held: bool)
    ensures !held
  {
    hide RingOut;
    hide RingRest;
    hide RingCode;
    var d := new Deflate(true, Script());
    ScriptFills();
    var r := d.Write([0], NoFlush);
    assert |d.Waiting()| == 4000;
    var r2, data, fine := d.Read(3000);
    r := d.Write([0, 0], NoFlush);
    r2, data, held := d.Read(1200);
  }

  /**
   The value for the end of the stream can be returned in a stream that has not ended: a
   flush fills the ring exactly, the next call makes progress without output, and the read
   after the ring is drained finds the extra buffer empty.
   */
  method EndHappens() returns (r: int, finished: bool)
    ensures r == EOF && !finished
  {
    hide RingOut;
    hide RingRest;
    hide RingCode;
    hide Poured;
    hide Flushed;
    hide Zeros;
    hide Given;
    hide Span;
    hide Took;
    hide Deflate.Valid;
    hide Deflate.Waiting;
    var replies := [Moves(1, Zeros(4096)), Moves(0, [])];
    var d := new Deflate(true, replies);
    ExactFill(replies, Moves(0, []));
    assert d.Flushes(PartialFlush) && d.WriteCode(PartialFlush) == Ok;
    r := d.Write([0], PartialFlush);
    assert d.flushBuff == Some([]);
    var data, held;
    r, data, held := d.Read(4096);
    r, data, held := d.Read(1);
    finished := d.streamEnd;
  }

  /**
   And a flush that ends the stream loses what does not fit the ring: the write succeeds,
   the compressor puts out 4196 bytes, and 4096 are read before the end of the stream.
   */
  method LossHappens() returns (read: Bytes, r: int, ghost emitted: Bytes)
    ensures |read| == 4096 && r == EOF && |emitted| == 4196
  {
    hide RingOut;
    hide RingRest;
    hide RingCode;
    hide Flushed;
    hide Poured;
    hide Zeros;
    hide Given;
    hide Span;
    hide Took;
    hide Deflate.Valid;
    hide Deflate.Waiting;
    var replies := [Moves(1, Zeros(4096)), Ends(0, Zeros(100))];
    var d := new Deflate(true, replies);
    ExactFill(replies, Ends(0, Zeros(100)));
    assert d.Flushes(FinalFlush) && d.WriteCode(FinalFlush) == StreamEnd;
    r := d.Write([0], FinalFlush);
    var data, held;
    r, read, held := d.Read(4096);
    r, data, held := d.Read(1);
    emitted := d.z.emitted;
  }

  lemma ExactFill(replies: seq<Reply>, last: Reply)
    requires replies == [Moves(1, Zeros(4096)), last] && !last.Stuck? && |last.out| < 4096
    ensures RingOut(0, 0, replies) == Zeros(4096) && RingCode(0, 0, replies) == Ok
    ensures RingRest(0, 0, replies) == [last] == replies[1..]
    ensures Poured([last], 0, 4096) == Pour(last.out, CodeOf([last]), [])
    ensures Flushed([last]) == if last.Moves? then Some(last.out) else None
  {
    hide Zeros;
    assert replies[1..] == [last];
  }

  function Script(): seq<Reply> {
    [Moves(1, Zeros(4000)), Moves(1, Zeros(96)), Moves(1, Zeros(904))]
  }

  lemma ScriptFills()
    ensures |RingOut(0, 0, Script())| == 4000 && RingCode(0, 0, Script()) == Ok
    ensures |RingOut(3000, 4000, RingRest(0, 0, Script()))| == 1000
    ensures RingCode(3000, 4000, RingRest(0, 0, Script())) == Ok
  {
    hide Zeros;
    assert Script()[1..] == [Moves(1, Zeros(96)), Moves(1, Zeros(904))];
    assert Script()[1..][1..] == [Moves(1, Zeros(904))];
  }

  function Zeros(n: nat): (r: Bytes)
    ensures |r| == n
  {
    seq(n, i => 0)
  }

  lemma TakenNothing(input: Bytes, replies: seq<Reply>, was: Bytes)
    ensures Taken(input, replies, replies, was, was, 0)
  {
    assert was + input[..0] == was;
  }

  lemma TakeBack(a: Bytes, c: Bytes, n: nat)
    requires n <= |c|
    ensures a + ([] + c) == (a + c[..n]) + ([] + c[n..]) && [] + c == c && [] + c[n..] == c[n..]
  {
  }

  lemma Splice(s: Bytes, a: nat, b: nat)
    requires a + b <= |s|
    ensures s[..a] + s[a..][..b] == s[..a + b]
  {
  }

  lemma EmptySpan(ring: Bytes)
    requires |ring| == SIZE
    ensures Span(ring, 0, 0) == []
  {
  }

  lemma TakeFront(a: Bytes, b: Bytes, c: Bytes, n: nat)
    requires n <= |b|
    ensures a + (b + c) == (a + b[..n]) + (b[n..] + c)
    ensures (b + c)[..n] == b[..n] && (b + c)[n..] == b[n..] + c
  {
  }
}
