/** Which bytes of the connection end up in which file. */
module AsyncTrace {
  import opened Wrappers
  import opened LittleEndian
  import opened AsyncFrames
  import opened AsyncDownloads

  /** What some frames bring to one stream, joined. */
  function Payload(frames: seq<Frame>, id: nat): Bytes {
    if |frames| == 0 then []
    else
      var f := frames[|frames| - 1];
      Payload(frames[..|frames| - 1], id) + (if f.id == id then f.payload else [])
  }

  lemma {:induction false} PayloadSnoc(frames: seq<Frame>, from: nat, f: Frame, id: nat)
    requires from <= |frames|
    ensures Payload((frames + [f])[from..], id) == Payload(frames[from..], id) + (if f.id == id then f.payload else [])
  {
    var all := (frames + [f])[from..];
    assert all == frames[from..] + [f];
    assert all[..|all| - 1] == frames[from..];
  }

  /** The answer is the header in front of those bytes, and the file has what follows it;
      of an empty file nothing is taken. */
  ghost predicate FromWire(r: Record, p: Bytes) {
    && |p| >= RESPONSE && r.answer == Some(ParseResponse(p)) && r.content <= p[RESPONSE..]
    && (r.answer.value.size > 0 ==> r.content == p[RESPONSE..])
  }

  ghost predicate KeptAt(r: Record, id: nat, from: nat, to: nat, frames: seq<Frame>) {
    from <= to <= |frames| && FromWire(r, Payload(frames[from..to], id))
  }

  /** A file that is left came from a stretch of frames that begins where the download was
      asked for. */
  ghost predicate Delivered(r: Record, id: nat, from: nat, frames: seq<Frame>) {
    r.file.Kept? ==> exists to: nat :: KeptAt(r, id, from, to, frames)
  }

  /** That, and a file being written has all that came since then. */
  ghost predicate Traced(s: Option<Stream>, r: Record, id: nat, from: nat, frames: seq<Frame>) {
    && from <= |frames| && Delivered(r, id, from, frames)
    && (s.Some? && s.value.stage.Body? ==> FromWire(r, Payload(frames[from..], id)))
  }

  /** Before its header nothing has come for a stream. */
  ghost predicate Unheard(s: Option<Stream>, id: nat, from: nat, frames: seq<Frame>) {
    s.Some? && s.value.stage.Headers? ==> from <= |frames| && Payload(frames[from..], id) == []
  }

  lemma SameStretch(frames: seq<Frame>, f: Frame, from: nat, to: nat)
    requires from <= to <= |frames|
    ensures (frames + [f])[from..to] == frames[from..to]
  {
  }

  lemma {:induction false} DeliveredStays(r: Record, id: nat, from: nat, frames: seq<Frame>, f: Frame)
    requires Delivered(r, id, from, frames)
    ensures Delivered(r, id, from, frames + [f])
  {
    hide FromWire;
    hide Payload;
    if r.file.Kept? {
      var to: nat :| KeptAt(r, id, from, to, frames);
      SameStretch(frames, f, from, to);
      assert KeptAt(r, id, from, to, frames + [f]);
    }
  }

  /** A frame of another stream changes nothing, nor does one for a stream that is gone. */
  lemma {:induction false} TraceOther(s: Option<Stream>, r: Record, id: nat, from: nat, frames: seq<Frame>, f: Frame)
    requires Traced(s, r, id, from, frames) && (f.id != id || s.None?)
    ensures Traced(s, r, id, from, frames + [f])
    ensures Unheard(s, id, from, frames) ==> Unheard(s, id, from, frames + [f])
  {
    hide FromWire;
    DeliveredStays(r, id, from, frames, f);
    PayloadSnoc(frames, from, f, id);
    if f.id != id {
      assert Payload(frames[from..], id) + [] == Payload(frames[from..], id);
    }
  }

  lemma ResponseInFront(p: Bytes, q: Bytes)
    requires |p| >= RESPONSE
    ensures ParseResponse(p + q) == ParseResponse(p)
  {
    assert (p + q)[0..4] == p[0..4] && (p + q)[8..16] == p[8..16] && (p + q)[48..88] == p[48..88];
  }

  /** File data is added behind what the file has. */
  lemma {:induction false} WireGrows(sha1: Sha1Hex, disk: Disk, s: Stream, r: Record, p: Bytes, buff: Bytes, a: After)
    requires FromWire(r, p) && r.answer.value.size > 0 && s.hasFile && r.file.Writing?
    requires a == DataStep(sha1, disk, s, r, buff)
    ensures a.record.file.Kept? || a.stream.Some? ==> FromWire(a.record, p + buff)
    ensures a.stream.Some? ==> a.stream.value.stage == s.stage && !a.record.file.Kept?
  {
    hide ParseResponse;
    hide WriteOut;
    ResponseInFront(p, buff);
    assert (p + buff)[RESPONSE..] == p[RESPONSE..] + buff;
  }

  lemma {:induction false} KeptNow(r: Record, id: nat, from: nat, frames: seq<Frame>)
    requires from <= |frames| && FromWire(r, Payload(frames[from..], id))
    ensures Delivered(r, id, from, frames)
  {
    assert frames[from..|frames|] == frames[from..];
    assert KeptAt(r, id, from, |frames|, frames);
  }

  lemma {:induction false} TraceData(sha1: Sha1Hex, disk: Disk, s: Stream, r: Record, id: nat, from: nat,
                                     frames: seq<Frame>, f: Frame, a: After)
    requires OpenOk(s, r) && s.stage.Body? && Traced(Some(s), r, id, from, frames) && f.id == id
    requires a == DataStep(sha1, disk, s, r, f.payload)
    ensures Traced(a.stream, a.record, id, from, frames + [f]) && Unheard(a.stream, id, from, frames + [f])
  {
    hide FromWire;
    hide DataStep;
    hide Delivered;
    PayloadSnoc(frames, from, f, id);
    BodyHasSize(s, r);
    WireHasAnswer(r, Payload(frames[from..], id));
    WireGrows(sha1, disk, s, r, Payload(frames[from..], id), f.payload, a);
    TraceResult(a, id, from, frames + [f]);
  }

  lemma BodyHasSize(s: Stream, r: Record)
    requires OpenOk(s, r) && s.stage.Body?
    ensures r.answer.Some? && r.answer.value.size > 0 && s.hasFile && r.file.Writing?
  {
  }

  lemma WireHasAnswer(r: Record, p: Bytes)
    requires FromWire(r, p)
    ensures |p| >= RESPONSE && r.answer.Some?
  {
  }

  lemma {:induction false} TraceResult(a: After, id: nat, from: nat, frames: seq<Frame>)
    requires from <= |frames| && (a.stream.Some? ==> a.stream.value.stage.Body?)
    requires a.record.file.Kept? || a.stream.Some? ==> FromWire(a.record, Payload(frames[from..], id))
    ensures Traced(a.stream, a.record, id, from, frames) && Unheard(a.stream, id, from, frames)
  {
    hide FromWire;
    if a.record.file.Kept? {
      KeptNow(a.record, id, from, frames);
    }
  }

  lemma {:induction false} TraceHeader(sha1: Sha1Hex, disk: Disk, s: Stream, r: Record, id: nat, from: nat,
                                       frames: seq<Frame>, f: Frame, a: After)
    requires OpenOk(s, r) && s.stage.Headers? && from <= |frames| && Unheard(Some(s), id, from, frames) && f.id == id
    requires a == HeaderStep(sha1, disk, s, r, f.payload)
    ensures Traced(a.stream, a.record, id, from, frames + [f])
    ensures a.ret == 0 ==> Unheard(a.stream, id, from, frames + [f])
  {
    hide ParseResponse;
    hide DataStep;
    hide FromWire;
    var p := f.payload;
    PayloadSnoc(frames, from, f, id);
    assert [] + p == p;
    if |p| >= RESPONSE {
      HeaderWire(sha1, disk, s, r, p, a);
      TraceResult(a, id, from, frames + [f]);
    }
  }

  lemma {:induction false} HeaderWire(sha1: Sha1Hex, disk: Disk, s: Stream, r: Record, p: Bytes, a: After)
    requires OpenOk(s, r) && s.stage.Headers? && |p| >= RESPONSE && a == HeaderStep(sha1, disk, s, r, p)
    ensures a.stream.Some? ==> a.stream.value.stage.Body?
    ensures a.record.file.Kept? || a.stream.Some? ==> FromWire(a.record, p)
  {
    hide ParseResponse;
    hide DataStep;
    var resp := ParseResponse(p);
    var head, tail := p[..RESPONSE], p[RESPONSE..];
    assert p == head + tail;
    ResponseInFront(head, tail);
    var o := Opened(s, Answered(r, resp), resp, disk);
    if resp.error == 0 && o.stream.Some? && |p| > RESPONSE {
      assert FromWire(o.record, head);
      WireGrows(sha1, o.disk, o.stream.value, o.record, head, tail, a);
    }
  }

  // ---- all streams ----

  /** For every stream ever made; starts has the number of frames before each was made. A
      stream without its header has heard nothing while the thread is going. */
  ghost predicate TracedAt(streams: map<nat, Stream>, world: map<nat, Record>, starts: seq<nat>, frames: seq<Frame>,
                           going: bool, id: nat)
    requires id in world
  {
    && 1 <= id <= |starts| && Traced(StreamAt(streams, id), world[id], id, starts[id - 1], frames)
    && (going ==> Unheard(StreamAt(streams, id), id, starts[id - 1], frames))
  }

  ghost predicate AllTraced(streams: map<nat, Stream>, world: map<nat, Record>, starts: seq<nat>, frames: seq<Frame>,
                            going: bool)
  {
    forall id :: id in world ==> TracedAt(streams, world, starts, frames, going, id)
  }

  lemma {:induction false} TracedStill(streams: map<nat, Stream>, world: map<nat, Record>, starts: seq<nat>, frames: seq<Frame>)
    requires AllTraced(streams, world, starts, frames, true)
    ensures AllTraced(streams, world, starts, frames, false)
  {
    hide Traced;
    hide Unheard;
    forall id | id in world
      ensures TracedAt(streams, world, starts, frames, false, id)
    {
      assert TracedAt(streams, world, starts, frames, true, id);
    }
  }

  lemma {:induction false} FrameTraced(sha1: Sha1Hex, t: Table, starts: seq<nat>, frames: seq<Frame>, f: Frame)
    requires AllTraced(t.streams, t.world, starts, frames, true)
    requires f.id in t.streams ==> f.id in t.world && OpenOk(t.streams[f.id], t.world[f.id])
    ensures var u := Receive(sha1, t, f); AllTraced(u.streams, u.world, starts, frames + [f], !Refused(sha1, t, f))
  {
    hide TracedAt;
    hide FrameStep;
    var u := Receive(sha1, t, f);
    forall id | id in u.world
      ensures TracedAt(u.streams, u.world, starts, frames + [f], !Refused(sha1, t, f), id)
    {
      assert TracedAt(t.streams, t.world, starts, frames, true, id);
      if f.id in t.streams && id == f.id {
        OwnTraced(sha1, t, starts, frames, f);
      } else {
        OtherTraced(t.streams, t.world, u.streams, u.world, starts, frames, f, !Refused(sha1, t, f), id);
      }
    }
  }

  lemma {:induction false} OtherTraced(streams0: map<nat, Stream>, world0: map<nat, Record>,
                                       streams: map<nat, Stream>, world: map<nat, Record>,
                                       starts: seq<nat>, frames: seq<Frame>, f: Frame, going: bool, id: nat)
    requires id in world0 && TracedAt(streams0, world0, starts, frames, true, id)
    requires id in world && world[id] == world0[id] && StreamAt(streams, id) == StreamAt(streams0, id)
    requires f.id != id || id !in streams0
    ensures TracedAt(streams, world, starts, frames + [f], going, id)
  {
    hide Traced;
    hide Unheard;
    TraceOther(StreamAt(streams0, id), world0[id], id, starts[id - 1], frames, f);
  }

  lemma {:induction false} OwnTraced(sha1: Sha1Hex, t: Table, starts: seq<nat>, frames: seq<Frame>, f: Frame)
    requires Known(t, f) && OpenOk(t.streams[f.id], t.world[f.id])
    requires TracedAt(t.streams, t.world, starts, frames, true, f.id)
    ensures var u := Receive(sha1, t, f); TracedAt(u.streams, u.world, starts, frames + [f], !Refused(sha1, t, f), f.id)
  {
    hide Unheard;
    hide Delivered;
    hide FromWire;
    hide HeaderStep;
    hide DataStep;
    hide OpenOk;
    var a := FrameStep(sha1, t, f);
    var from := starts[f.id - 1];
    match t.streams[f.id].stage
    case Headers => TraceHeader(sha1, t.disk, t.streams[f.id], t.world[f.id], f.id, from, frames, f, a);
    case Body => TraceData(sha1, t.disk, t.streams[f.id], t.world[f.id], f.id, from, frames, f, a);
  }

  /** A new stream has heard nothing. */
  lemma {:induction false} OpenTraced(streams0: map<nat, Stream>, world0: map<nat, Record>,
                                      streams: map<nat, Stream>, world: map<nat, Record>,
                                      starts: seq<nat>, frames: seq<Frame>, s: Stream, r: Record)
    requires AllTraced(streams0, world0, starts, frames, true)
    requires var id := |starts| + 1; streams == streams0[id := s] && world == world0[id := r]
    requires s.stage.Headers? && r.file.Untouched?
    ensures AllTraced(streams, world, starts + [|frames|], frames, true)
  {
    hide Traced;
    hide Unheard;
    var more := starts + [|frames|];
    forall id | id in world
      ensures TracedAt(streams, world, more, frames, true, id)
    {
      if id == |starts| + 1 {
        assert frames[|frames|..] == [];
        NewTraced(s, r, id, frames);
      } else {
        assert TracedAt(streams0, world0, starts, frames, true, id);
        assert more[id - 1] == starts[id - 1];
      }
    }
  }

  lemma {:induction false} NewTraced(s: Stream, r: Record, id: nat, frames: seq<Frame>)
    requires s.stage.Headers? && r.file.Untouched? && frames[|frames|..] == []
    ensures Traced(Some(s), r, id, |frames|, frames) && Unheard(Some(s), id, |frames|, frames)
  {
  }

  /** The end of the thread leaves no further file. */
  lemma {:induction false} FreedTraced(streams0: map<nat, Stream>, world0: map<nat, Record>, world: map<nat, Record>,
                                       starts: seq<nat>, frames: seq<Frame>)
    requires AllTraced(streams0, world0, starts, frames, false) && Downloads.Freed(streams0, world0, map[], world)
    requires forall id :: id in streams0 ==> id in world0 && OpenOk(streams0[id], world0[id])
    ensures AllTraced(map[], world, starts, frames, false)
  {
    hide OpenOk;
    hide Downloads.Abandoned;
    forall id | id in world
      ensures TracedAt(map[], world, starts, frames, false, id)
    {
      assert TracedAt(streams0, world0, starts, frames, false, id);
      if id in streams0 {
        AbandonedIsGone(streams0[id], world0[id]);
      }
    }
  }

  lemma AbandonedIsGone(s: Stream, r: Record)
    requires OpenOk(s, r)
    ensures !Downloads.Abandoned(s, r).file.Kept?
  {
  }
}
