/**
 Frame reassembly: a six-byte header with stream id and length, then length + 1 bytes,
 read into one 64 KiB buffer in whatever pieces the decompressor delivers.
 */
module AsyncFrames {
  import opened Wrappers
  import opened LittleEndian

  const BUFFER := 65536
  const HEADER := 6

  datatype Frame = Frame(id: nat, payload: Bytes)

  function Id(h: Bytes): (r: nat)
    requires |h| == HEADER
    ensures r < 0x1_0000_0000
  {
    var b0: nat, b1: nat, b2: nat, b3: nat := h[0], h[1], h[2], h[3];
    b0 + 256 * b1 + 65536 * b2 + 16777216 * b3
  }

  /** Payload length: the two length bytes stand for one less. */
  function Length(h: Bytes): (r: nat)
    requires |h| == HEADER
    ensures 0 < r <= BUFFER
  {
    var b4: nat, b5: nat := h[4], h[5];
    b4 + 256 * b5 + 1
  }

  // ---- the reference: frames of a whole byte string ----

  /** The complete frames at the front of some bytes. */
  function Frames(b: Bytes): seq<Frame>
    decreases |b|
  {
    if |b| < HEADER || |b| < HEADER + Length(b[..HEADER]) then []
    else
      var n := Length(b[..HEADER]);
      [Frame(Id(b[..HEADER]), b[HEADER..HEADER + n])] + Frames(b[HEADER + n..])
  }

  /** What is left behind the last complete frame. */
  function Rest(b: Bytes): (r: Bytes)
    ensures |r| < HEADER || |r| < HEADER + Length(r[..HEADER])
    decreases |b|
  {
    if |b| < HEADER || |b| < HEADER + Length(b[..HEADER]) then b
    else Rest(b[HEADER + Length(b[..HEADER])..])
  }

  // ---- the format, from the sender's side ----

  predicate Sendable(f: Frame) {
    f.id < Pow256(4) && 0 < |f.payload| <= BUFFER
  }

  /** The stream id in four bytes, one less than the length in two, low byte first. */
  function FrameBytes(f: Frame): Bytes
    requires Sendable(f)
  {
    LeBytes(f.id, 4) + LeBytes(|f.payload| - 1, 2) + f.payload
  }

  function Joined(pieces: seq<Bytes>): Bytes {
    if |pieces| == 0 then [] else Joined(pieces[..|pieces| - 1]) + pieces[|pieces| - 1]
  }

  function AllBytes(frames: seq<Frame>): Bytes
    requires forall i :: 0 <= i < |frames| ==> Sendable(frames[i])
  {
    if |frames| == 0 then [] else FrameBytes(frames[0]) + AllBytes(frames[1..])
  }

  lemma {:induction false} HeaderParts(h: Bytes)
    requires |h| == HEADER
    ensures Id(h) == LeVal(h[..4]) && Length(h) == LeVal(h[4..6]) + 1
  {
    var a, b := h[..4], h[4..6];
    assert a[1..][1..] == a[2..] && a[2..][1..] == a[3..] && LeVal(a[3..]) == a[3] + 256 * LeVal(a[4..]);
    assert LeVal(a[2..]) == a[2] + 256 * LeVal(a[3..]) && LeVal(a[1..]) == a[1] + 256 * LeVal(a[2..]);
    assert LeVal(b[1..]) == b[1] + 256 * LeVal(b[2..]);
  }

  lemma Pow256Values()
    ensures Pow256(2) == 65536 && Pow256(4) == 0x1_0000_0000
  {
    assert Pow256(1) == 256;
    assert Pow256(3) == 16777216;
  }

  lemma {:induction false} FrameHeader(f: Frame)
    requires Sendable(f)
    ensures var b := FrameBytes(f);
            && |b| == HEADER + |f.payload| && Id(b[..HEADER]) == f.id && Length(b[..HEADER]) == |f.payload|
            && b[HEADER..] == f.payload
  {
    hide LeBytes;
    hide LeVal;
    hide Id;
    hide Length;
    Pow256Values();
    var b := FrameBytes(f);
    var h := b[..HEADER];
    assert h[..4] == LeBytes(f.id, 4) && h[4..6] == LeBytes(|f.payload| - 1, 2);
    LeRoundTrip(f.id, 4);
    LeRoundTrip(|f.payload| - 1, 2);
    HeaderParts(h);
  }

  /** The reader's frames are those that were sent. */
  lemma {:induction false} FramesOfSent(frames: seq<Frame>)
    requires forall i :: 0 <= i < |frames| ==> Sendable(frames[i])
    ensures Frames(AllBytes(frames)) == frames && Rest(AllBytes(frames)) == []
  {
    hide FrameBytes;
    hide Id;
    hide Length;
    if |frames| == 0 {
      Unfinished([]);
    } else {
      var f, more := frames[0], AllBytes(frames[1..]);
      var b := FrameBytes(f) + more;
      FrameHeader(f);
      FramesOfSent(frames[1..]);
      FrontFrame(f, more);
      assert [f] + frames[1..] == frames;
    }
  }

  lemma {:induction false} FrontFrame(f: Frame, more: Bytes)
    requires Sendable(f)
    ensures Frames(FrameBytes(f) + more) == [f] + Frames(more) && Rest(FrameBytes(f) + more) == Rest(more)
  {
    hide FrameBytes;
    hide Id;
    hide Length;
    FrameHeader(f);
    var b, n := FrameBytes(f) + more, |f.payload|;
    assert b[..HEADER] == FrameBytes(f)[..HEADER] && b[HEADER..HEADER + n] == f.payload && b[HEADER + n..] == more;
  }

  /** Reading on only needs the unfinished frame. */
  lemma {:induction false} FramesAppend(b: Bytes, c: Bytes)
    ensures Frames(b + c) == Frames(b) + Frames(Rest(b) + c)
    ensures Rest(b + c) == Rest(Rest(b) + c)
    decreases |b|
  {
    hide Length;
    hide Id;
    if |b| < HEADER || |b| < HEADER + Length(b[..HEADER]) {
      assert Frames(b) + Frames(Rest(b) + c) == Frames(b + c);
    } else {
      var n := Length(b[..HEADER]);
      var e := b + c;
      assert e[..HEADER] == b[..HEADER] && e[HEADER..HEADER + n] == b[HEADER..HEADER + n];
      assert e[HEADER + n..] == b[HEADER + n..] + c;
      FramesAppend(b[HEADER + n..], c);
      var f := [Frame(Id(b[..HEADER]), b[HEADER..HEADER + n])];
      assert f + (Frames(b[HEADER + n..]) + Frames(Rest(b) + c)) == (f + Frames(b[HEADER + n..])) + Frames(Rest(b) + c);
    }
  }

  // ---- the reader ----

  datatype Mode = InHeader | InData

  class Reader {
    const buffer: array<Byte>
    var cur: nat        // curreadbuff, as an offset into the buffer
    var rem: nat        // curreadbuffrem
    var len: nat        // curreadbufflen
    var id: nat         // currentstreamid
    var mode: Mode      // process_buf
    ghost var header: Bytes
    ghost var received: Bytes

    /** The reader holds exactly the unfinished frame of what it has received. */
    ghost predicate Valid()
      reads this, buffer
    {
      && buffer.Length == BUFFER && cur + rem <= BUFFER && rem > 0
      && match mode
         case InHeader => cur + rem == HEADER && Rest(received) == buffer[..cur]
         case InData =>
           && |header| == HEADER && id == Id(header) && len == Length(header)
           && cur + rem == len && Rest(received) == header + buffer[..cur]
    }

    constructor ()
      ensures Valid() && received == [] && fresh(buffer)
    {
      buffer := new Byte[BUFFER](i => 0);
      cur, rem, mode := 0, HEADER, InHeader;
      len, id := 0, 0;
      header, received := [], [];
      new;
      assert buffer[..0] == [];
    }

    /** read_stream_header_setup. */
    method ReadHeaderSetup()
      modifies this
      ensures cur == 0 && rem == HEADER && mode == InHeader
      ensures unchanged(`header) && unchanged(`received) && unchanged(`len) && unchanged(`id)
    {
      cur, rem, mode := 0, HEADER, InHeader;
    }

    /**
     One read of at most rem bytes by handle_decompressed_data, and process_buf when the
     wanted bytes are complete. A completed frame is given back for dispatch; the
     frames given back are those of the bytes received, however they were split.
     */
    method Read(chunk: Bytes) returns (frame: Option<Frame>)
      requires Valid() && 0 < |chunk| <= rem
      modifies this, buffer
      ensures Valid() && received == old(received) + chunk
      ensures Frames(received) == Frames(old(received)) + (if frame.Some? then [frame.value] else [])
      ensures frame.Some? ==> 0 < |frame.value.payload| <= BUFFER
    {
      hide Frames;
      hide Rest;
      hide Length;
      hide Id;
      ghost var rest := Rest(received);
      FramesAppend(received, chunk);
      CopyIn(chunk);
      received := received + chunk;
      cur, rem := cur + |chunk|, rem - |chunk|;
      frame := None;
      if rem == 0 {
        if mode.InHeader? {
          header := buffer[..HEADER];
          assert rest + chunk == header;
          StartsFrame(header);
          id, len := Id(buffer[..HEADER]), Length(buffer[..HEADER]);
          cur, rem, mode := 0, len, InData;
          assert header + buffer[..0] == header;
        } else {
          frame := Some(Frame(id, buffer[..len]));
          assert rest + chunk == header + buffer[..len];
          EndsFrame(header, buffer[..len]);
          ReadHeaderSetup();
          assert buffer[..0] == [];
        }
      } else {
        if mode.InHeader? {
          assert rest + chunk == buffer[..cur];
        } else {
          assert rest + chunk == header + buffer[..cur];
        }
        Unfinished(rest + chunk);
      }
    }

    /** psync_deflate_read into the buffer: inside it, because rem bounds the read. */
    method CopyIn(chunk: Bytes)
      requires buffer.Length == BUFFER && cur + |chunk| <= BUFFER
      modifies buffer
      ensures buffer[..cur + |chunk|] == old(buffer[..cur]) + chunk
    {
      var i := 0;
      while i < |chunk|
        invariant 0 <= i <= |chunk|
        invariant buffer[..cur + i] == old(buffer[..cur]) + chunk[..i]
      {
        buffer[cur + i] := chunk[i];
        i := i + 1;
      }
    }
  }

  lemma {:induction false} Unfinished(b: Bytes)
    requires |b| < HEADER || |b| < HEADER + Length(b[..HEADER])
    ensures Frames(b) == [] && Rest(b) == b
  {
  }

  lemma {:induction false} StartsFrame(h: Bytes)
    requires |h| == HEADER
    ensures Frames(h) == [] && Rest(h) == h
  {
    assert h[..HEADER] == h;
  }

  lemma {:induction false} EndsFrame(h: Bytes, payload: Bytes)
    requires |h| == HEADER && |payload| == Length(h)
    ensures Frames(h + payload) == [Frame(Id(h), payload)] && Rest(h + payload) == []
  {
    var b := h + payload;
    assert b[..HEADER] == h && b[HEADER..HEADER + Length(h)] == payload && b[HEADER + Length(h)..] == [];
    Unfinished([]);
  }
}
