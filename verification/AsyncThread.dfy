/** The transfer thread: its loop over everything that can happen to it, and its end. */
module AsyncThread {
  import opened Wrappers
  import opened LittleEndian
  import opened AsyncFrames
  import opened AsyncDownloads
  import opened AsyncTrace
  import opened AsyncRun

  lemma {:induction false} JoinedPrefix(pieces: seq<Bytes>, n: nat)
    requires n <= |pieces|
    ensures Joined(pieces[..n]) <= Joined(pieces)
  {
    if n == |pieces| {
      assert pieces[..n] == pieces;
    } else {
      var most := pieces[..|pieces| - 1];
      assert pieces[..n] == most[..n];
      JoinedPrefix(most, n);
    }
  }

  /** Each stream has been activated if the request for it was accepted. */
  ghost predicate Recorded(sent: seq<bool>, world: map<nat, Record>) {
    forall id :: id in world && 1 <= id <= |sent| ==> world[id].activated == sent[id - 1]
  }

  lemma RecordedOn(sent: seq<bool>, world: map<nat, Record>, ok: bool, r: Record)
    requires Recorded(sent, world) && r.activated == ok
    ensures Recorded(sent + [ok], world[|sent| + 1 := r])
  {
  }

  class Thread {
    const reader: Reader
    const downloads: Downloads
    var pending: nat                  // pendingrequests
    ghost var dispatched: seq<Frame>
    ghost var sent: seq<bool>
    ghost var starts: seq<nat>

    ghost predicate Valid()
      reads this, reader, reader.buffer, downloads
    {
      && reader.Valid() && downloads.Valid() && dispatched == Frames(reader.received)
      && |starts| == |sent| == downloads.last && Recorded(sent, downloads.world)
      && AllTraced(downloads.streams, downloads.world, starts, dispatched, false)
    }

    ghost predicate Running()
      reads this, reader, reader.buffer, downloads
    {
      Valid() && downloads.AllActive() && AllTraced(downloads.streams, downloads.world, starts, dispatched, true)
    }

    /** How far the thread has come. */
    ghost function Now(): Progress
      reads this, reader, downloads
    {
      Progress(downloads.State(), reader.received, pending, sent, starts, true)
    }

    constructor (h: Sha1Hex, disk: Disk)
      ensures Running() && fresh(reader) && fresh(reader.buffer) && fresh(downloads)
      ensures downloads.sha1 == h && Now() == Start(disk)
    {
      reader := new Reader();
      downloads := new Downloads(h, disk);
      pending := 0;
      dispatched, sent, starts := [], [], [];
    }

    /** process_stream_data, with the frame added to those dispatched. */
    method DispatchFrame(f: Frame) returns (r: int)
      requires downloads.Valid() && downloads.AllActive() && |starts| == downloads.last
      requires AllTraced(downloads.streams, downloads.world, starts, dispatched, true)
      modifies this`dispatched, downloads
      ensures dispatched == old(dispatched) + [f] && downloads.Valid() && downloads.AllActive() && downloads.SameActivation()
      ensures downloads.State() == Receive(downloads.sha1, old(downloads.State()), f)
      ensures r == if Refused(downloads.sha1, old(downloads.State()), f) then -1 else 0
      ensures AllTraced(downloads.streams, downloads.world, starts, dispatched, r == 0)
      ensures AllTraced(downloads.streams, downloads.world, starts, dispatched, false)
    {
      hide AllTraced;
      hide Receive;
      hide Refused;
      if f.id in downloads.streams {
        downloads.Pick(f.id);
      }
      FrameTraced(downloads.sha1, downloads.State(), starts, dispatched, f);
      dispatched := dispatched + [f];
      r := downloads.Dispatch(f);
      if r == 0 {
        TracedStill(downloads.streams, downloads.world, starts, dispatched);
      }
    }

    /** One read, and the dispatch of the frame it completes. */
    method ReadAndDispatch(chunk: Bytes) returns (r: int)
      requires Running() && 0 < |chunk| <= reader.rem
      modifies this`dispatched, reader, reader.buffer, downloads
      ensures Valid() && downloads.AllActive() && (r == 0 ==> Running()) && downloads.SameActivation()
      ensures reader.received == old(reader.received) + chunk
      ensures Fed(downloads.sha1, old(downloads.State()), NewFrames(old(reader.received), chunk), downloads.State(),
                  NewFrames(old(reader.received), chunk), r)
      ensures r == 0 || r == -1
    {
      hide AllTraced;
      hide Frames;
      hide Rest;
      hide Receive;
      hide Refused;
      hide Fed;
      ghost var before, t := reader.received, downloads.State();
      FramesAppend(before, chunk);
      var frame := reader.Read(chunk);
      SameTail(Frames(before), NewFrames(before, chunk), if frame.Some? then [frame.value] else []);
      r := 0;
      if frame.Some? {
        FedOne(downloads.sha1, t, frame.value);
        r := DispatchFrame(frame.value);
      } else {
        assert dispatched + [] == dispatched;
        FedNothing(downloads.sha1, t);
      }
    }

    /**
     handle_decompressed_data: reads of any size up to what the current frame still
     wants; each completed frame is dispatched before the next read, and a refused one is
     the end.
     */
    method HandleDecompressed(piece: Bytes) returns (r: int)
      requires Running()
      modifies this`dispatched, reader, reader.buffer, downloads
      ensures Valid() && downloads.AllActive() && (r == 0 ==> Running()) && downloads.SameActivation()
      ensures r == 0 ==> reader.received == old(reader.received) + piece
      ensures reader.received <= old(reader.received) + piece
      ensures exists taken: seq<Frame> :: Fed(downloads.sha1, old(downloads.State()),
                                              NewFrames(old(reader.received), piece), downloads.State(), taken, r)
      ensures r == 0 || r == -1
    {
      hide AllTraced;
      hide Frames;
      hide Rest;
      hide Fed;
      ghost var before, t, done := reader.received, downloads.State(), [];
      var left := piece;
      FedNothing(downloads.sha1, t);
      assert [] + NewFrames(before, piece) == NewFrames(before, piece);
      while |left| > 0
        invariant Running() && downloads.SameActivation()
        invariant reader.received + left == before + piece
        invariant Fed(downloads.sha1, t, done, downloads.State(), done, 0)
        invariant NewFrames(before, piece) == done + NewFrames(reader.received, left)
        decreases |left|
      {
        var wanted := if |left| < reader.rem then |left| else reader.rem;
        var outcome: int := *;
        var n := if 1 <= outcome < wanted then outcome else wanted;
        ghost var received, u := reader.received, downloads.State();
        ghost var frames := NewFrames(received, left[..n]);
        Split(received, left, n);
        assert reader.received + left == (reader.received + left[..n]) + left[n..];
        var ret := ReadAndDispatch(left[..n]);
        FedTwice(downloads.sha1, t, done, u, frames, downloads.State(), frames, ret);
        Regroup(done, frames, NewFrames(reader.received, left[n..]));
        done := done + frames;
        left := left[n..];
        if ret != 0 {
          FedEnough(downloads.sha1, t, done, downloads.State(), done, NewFrames(reader.received, left));
          return -1;
        }
      }
      NoMore(reader.received);
      assert left == [] && done + [] == done && reader.received + left == reader.received;
      return 0;
    }

    method HandleIncoming(pieces: seq<Bytes>, broken: bool) returns (r: int)
      requires Running()
      modifies this`dispatched, reader, reader.buffer, downloads
      ensures Valid() && (r == 0 ==> Running()) && downloads.SameActivation()
      ensures r == 0 ==> reader.received == old(reader.received) + Joined(pieces)
      ensures reader.received <= old(reader.received) + Joined(pieces)
      ensures var t, frames := old(downloads.State()), NewFrames(old(reader.received), Joined(pieces));
              && r == (if broken || Good(downloads.sha1, t, frames) < |frames| then -1 else 0)
              && downloads.State() == AfterFeeding(downloads.sha1, t, frames)
    {
      hide AfterFeeding;
      hide Good;
      hide AllTraced;
      hide Frames;
      hide Rest;
      hide Fed;
      hide Joined;
      hide NewFrames;
      hide Reader.Valid;
      hide Downloads.Valid;
      hide Downloads.AllActive;
      hide Recorded;
      var i := 0;
      ghost var before, t, done := reader.received, downloads.State(), [];
      FedNothing(downloads.sha1, t);
      NothingJoined(pieces);
      NoMore(before);
      assert before + [] == before && [] + NewFrames(before, []) == NewFrames(before, []);
      while i < |pieces|
        invariant 0 <= i <= |pieces| && Running() && downloads.SameActivation()
        invariant reader.received == before + Joined(pieces[..i])
        invariant done == NewFrames(before, Joined(pieces[..i])) && Fed(downloads.sha1, t, done, downloads.State(), done, 0)
      {
        ghost var received, u := reader.received, downloads.State();
        NextPiece(before, pieces, i);
        r := HandleDecompressed(pieces[i]);
        ghost var frames := NewFrames(received, pieces[i]);
        ghost var taken: seq<Frame> :| Fed(downloads.sha1, u, frames, downloads.State(), taken, r);
        FedAll(downloads.sha1, u, frames, downloads.State(), taken, r);
        FedTwice(downloads.sha1, t, done, u, frames, downloads.State(), taken, r);
        if r != 0 {
          FedInPart(downloads.sha1, t, before, pieces, i + 1, downloads.State(), done + taken);
          return -1;
        }
        done := done + frames;
        i := i + 1;
      }
      assert pieces[..i] == pieces;
      FedAll(downloads.sha1, t, done, downloads.State(), done, 0);
      return if broken then -1 else 0;
    }

    /** handle_file_download, with the request counted if it is accepted. */
    method HandleDownload(ok: bool) returns (r: int)
      requires Running() && downloads.last + 1 < WORD
      modifies this`pending, this`sent, this`starts, downloads
      ensures Valid() && (r == 0 ==> Running()) && r == if ok then 0 else -1
      ensures downloads.State() == Request(old(downloads.State()), ok)
      ensures sent == old(sent) + [ok] && starts == old(starts) + [|dispatched|]
      ensures pending == old(pending) + if ok then 1 else 0
    {
      hide AllTraced;
      hide Recorded;
      hide Reader.Valid;
      hide Downloads.Valid;
      hide Downloads.AllActive;
      hide Frames;
      ghost var streams0, world0 := downloads.streams, downloads.world;
      r := downloads.HandleFileDownload(ok);
      if ok {
        pending := pending + 1;
      }
      OpenTraced(streams0, world0, downloads.streams, downloads.world, starts, dispatched,
                 downloads.streams[downloads.last], downloads.world[downloads.last]);
      RecordedOn(sent, world0, ok, downloads.world[downloads.last]);
      sent, starts := sent + [ok], starts + [|dispatched|];
      TracedStill(downloads.streams, downloads.world, starts, dispatched);
    }

    /** handle_command: a download whose request could not be sent ends the thread, as does
        an answer that could not be given. */
    method HandleCommand(c: Command) returns (r: int)
      requires Running() && downloads.last + 1 < WORD
      modifies this`pending, this`sent, this`starts, downloads
      ensures Valid() && (r == 0 ==> Running())
      ensures r == if CommandEnds(c) then -1 else 0
      ensures downloads.State() == if c.Download? then Request(old(downloads.State()), c.sent) else old(downloads.State())
      ensures sent == old(sent) + if c.Download? then [c.sent] else []
      ensures starts == old(starts) + if c.Download? then [|dispatched|] else []
      ensures pending == old(pending) + if c.Download? && c.sent then 1 else 0
    {
      hide AllTraced;
      hide Recorded;
      match c
      case Download(ok, answered) =>
        r := HandleDownload(ok);
        if r == 0 && !answered {
          r := -1;
        }
      case Other(answered) => r := if answered then 0 else -1;
      case Exit => r := -1;
      case Unreadable => r := -1;
    }

    /** One turn of the loop. */
    method HandleTurn(t: Turn) returns (going: bool)
      requires Running() && downloads.last + 1 < WORD
      modifies this, reader, reader.buffer, downloads
      ensures Valid() && (going ==> Running()) && going == !Ends(downloads.sha1, old(Now()), t)
      ensures var p := NextTurn(downloads.sha1, old(Now()), t);
              && downloads.State() == p.table && sent == p.sent && starts == p.starts && reader.received <= p.received
              && (going ==> Now() == p)
      ensures downloads.last <= old(downloads.last) + 1
    {
      hide AllTraced;
      hide Recorded;
      hide AfterFeeding;
      hide Good;
      hide Reader.Valid;
      hide Downloads.Valid;
      hide Downloads.AllActive;
      var grouped := pending > 0;
      if grouped && (pending >= MAX_GROUPED || t.late) {
        if !t.flushed {
          return false;
        }
        pending := 0;
      }
      var r := -1;
      match t.wait {
        case Nothing =>
          if grouped {
            r := 0;
          }
        case Incoming(pieces, broken) =>
          r := HandleIncoming(pieces, broken);
        case Asked(c) =>
          r := HandleCommand(c);
      }
      going := r == 0;
    }

    /**
     psync_async_thread, from start to end, with the number of turns it took. It ends at
     the first turn that is an end and at no other. Then no stream is left; every stream
     asked for has its record, and has had its callback called exactly once if its request
     was accepted and never otherwise; a file that was opened is still there only if
     success was reported; what is in it are the bytes of a stretch of its stream's frames,
     from where the download was asked for, behind the header that opens them; and the
     frames dispatched are those of the bytes received, whatever their pieces.
     */
    method Run(turns: seq<Turn>) returns (handled: nat, ended: bool)
      requires Running() && Now() == Start(downloads.disk) && |turns| + 1 < WORD
      modifies this, reader, reader.buffer, downloads
      ensures handled <= |turns| && (!ended ==> handled == |turns|)
      ensures EndsAt(downloads.sha1, Start(old(downloads.disk)), turns[..handled], ended)
      ensures var p := AfterTurns(downloads.sha1, Start(old(downloads.disk)), turns[..handled]);
              && CompletedOnce(p.sent, downloads.world) && downloads.streams == map[]
              && Downloads.Freed(p.table.streams, p.table.world, map[], downloads.world)
              && |p.starts| == downloads.last
              && (forall id :: id in downloads.world && 1 <= id <= |p.starts| ==>
                    Delivered(downloads.world[id], id, p.starts[id - 1], dispatched))
              && if ended then reader.received <= p.received else reader.received == p.received
      ensures forall id :: id in downloads.world ==> Settled(downloads.sha1, downloads.world[id])
      ensures dispatched == Frames(reader.received)
    {
      hide AllTraced;
      hide Recorded;
      hide NextTurn;
      hide Ends;
      var going := true;
      handled := 0;
      ghost var start := Start(downloads.disk);
      while going && handled < |turns|
        invariant 0 <= handled <= |turns| && Valid() && (going ==> Running()) && downloads.last <= handled
        invariant EndsAt(downloads.sha1, start, turns[..handled], !going)
        invariant var p := AfterTurns(downloads.sha1, start, turns[..handled]);
                  && downloads.State() == p.table && sent == p.sent && starts == p.starts && reader.received <= p.received
                  && (going ==> Now() == p)
        decreases |turns| - handled, going
      {
        TurnAdded(downloads.sha1, start, turns, handled);
        going := HandleTurn(turns[handled]);
        handled := handled + 1;
      }
      CloseAll();
      ended := !going;
    }

    /** The end of the thread: every stream that is left is freed. */
    method CloseAll()
      requires Valid()
      modifies downloads
      ensures downloads.streams == map[] && downloads.last == old(downloads.last)
      ensures Downloads.Freed(old(downloads.streams), old(downloads.world), map[], downloads.world)
      ensures CompletedOnce(sent, downloads.world)
      ensures forall id :: id in downloads.world ==> Settled(downloads.sha1, downloads.world[id])
      ensures |starts| == |sent| == downloads.last
      ensures forall id :: id in downloads.world && 1 <= id <= |starts| ==>
                Delivered(downloads.world[id], id, starts[id - 1], dispatched)
    {
      ghost var streams0, world0 := downloads.streams, downloads.world;
      downloads.FreeAll();
      FreedTraced(streams0, world0, downloads.world, starts, dispatched);
      forall id | id in downloads.world
        ensures Settled(downloads.sha1, downloads.world[id])
      {
        ClosedIsSettled(downloads.sha1, downloads.world[id]);
      }
      forall id | id in downloads.world
        ensures Delivered(downloads.world[id], id, starts[id - 1], dispatched)
      {
        assert TracedAt(map[], downloads.world, starts, dispatched, false, id);
      }
    }
  }

  /** Turns that were taken: the last is an end if the thread has ended, and no other is. */
  ghost predicate EndsAt(sha1: Sha1Hex, start: Progress, turns: seq<Turn>, ended: bool) {
    && (ended ==> |turns| > 0)
    && forall k :: 0 <= k < |turns| ==> (EndsTurn(sha1, start, turns, k) <==> ended && k == |turns| - 1)
  }

  predicate EndsTurn(sha1: Sha1Hex, start: Progress, turns: seq<Turn>, k: nat)
    requires k < |turns|
  {
    Ends(sha1, AfterTurns(sha1, start, turns[..k]), turns[k])
  }

  /** What taking one more turn means for the reference run. */
  lemma {:induction false} TurnAdded(sha1: Sha1Hex, start: Progress, turns: seq<Turn>, k: nat)
    requires k < |turns| && EndsAt(sha1, start, turns[..k], false)
    ensures var p := AfterTurns(sha1, start, turns[..k]);
            && AfterTurns(sha1, start, turns[..k + 1]) == (if p.going then NextTurn(sha1, p, turns[k]) else p)
            && EndsAt(sha1, start, turns[..k + 1], Ends(sha1, p, turns[k]))
  {
    hide NextTurn;
    hide Ends;
    var before, now := turns[..k], turns[..k + 1];
    assert now[..k] == before;
    forall j | 0 <= j < k + 1
      ensures EndsTurn(sha1, start, now, j) <==> Ends(sha1, AfterTurns(sha1, start, before), turns[k]) && j == k
    {
      if j < k {
        assert now[..j] == before[..j];
        assert EndsTurn(sha1, start, before, j) == EndsTurn(sha1, start, now, j);
      }
    }
  }

  /** There is a record for each download asked for and no other, and its callback has been
      called once if the request was accepted and never otherwise. */
  ghost predicate CompletedOnce(sent: seq<bool>, world: map<nat, Record>) {
    && (forall id :: id in world <==> 1 <= id <= |sent|)
    && (forall id :: id in world ==> |world[id].calls| == if sent[id - 1] then 1 else 0)
  }

  /** What a caller can rely on when the thread has ended. */
  ghost predicate Settled(sha1: Sha1Hex, r: Record) {
    && |r.calls| == (if r.activated then 1 else 0)
    && (r.file.Kept? || r.file.Deleted? || r.file.Untouched?)
    && (r.file.Kept? ==> r.calls == [0])
    && (r.calls == [0] ==> r.answer.Some?)
    && (r.calls == [0] ==> (GenuineSuccess(sha1, r) <==> r.answer.value.error != WORD - 100))
  }

  /** The server sent no error and the file has the announced size and, unless it is empty,
      the announced checksum. */
  predicate GenuineSuccess(sha1: Sha1Hex, r: Record) {
    && r.answer.Some? && r.answer.value.error == 0
    && r.file.Kept? && |r.content| == r.answer.value.size
    && (r.answer.value.size > 0 ==> sha1(r.content) == r.answer.value.sha)
  }

  /** A reported success is genuine exactly when the server's error code is not the one
      that wraps to zero. */
  lemma ClosedIsSettled(sha1: Sha1Hex, r: Record)
    requires ClosedOk(sha1, r)
    ensures Settled(sha1, r)
  {
    if Succeeded(r) {
      assert r.calls == [0];
    }
  }

  /** A refused frame among the first pieces is the end for all of them. */
  lemma {:induction false} FedInPart(sha1: Sha1Hex, t: Table, before: Bytes, pieces: seq<Bytes>, n: nat, u: Table,
                                     taken: seq<Frame>)
    requires n <= |pieces| && Fed(sha1, t, NewFrames(before, Joined(pieces[..n])), u, taken, -1)
    ensures var frames := NewFrames(before, Joined(pieces));
            Good(sha1, t, frames) < |frames| && u == AfterFeeding(sha1, t, frames)
  {
    hide Fed;
    hide Joined;
    hide NewFrames;
    hide Good;
    hide AfterFeeding;
    var all, m := Joined(pieces), |Joined(pieces[..n])|;
    JoinedPrefix(pieces, n);
    assert all[..m] == Joined(pieces[..n]);
    Split(before, all, m);
    FedEnough(sha1, t, NewFrames(before, all[..m]), u, taken, NewFrames(before + all[..m], all[m..]));
    FedAll(sha1, t, NewFrames(before, all), u, taken, -1);
  }

  lemma SameTail<T>(a: seq<T>, b: seq<T>, c: seq<T>)
    requires a + b == a + c
    ensures b == c
  {
    assert (a + b)[|a|..] == b && (a + c)[|a|..] == c;
  }

  lemma Regroup<T>(a: seq<T>, b: seq<T>, c: seq<T>)
    ensures a + (b + c) == (a + b) + c
  {
  }

  /** The frames of two stretches are those of both. */
  lemma {:induction false} Split(before: Bytes, more: Bytes, n: nat)
    requires n <= |more|
    ensures NewFrames(before, more) == NewFrames(before, more[..n]) + NewFrames(before + more[..n], more[n..])
  {
    hide Frames;
    hide Rest;
    var a, b := more[..n], more[n..];
    assert a + b == more;
    FramesAppend(before, a);
    FramesAppend(Rest(before) + a, b);
    assert (Rest(before) + a) + b == Rest(before) + more;
  }

  lemma {:induction false} NextPiece(before: Bytes, pieces: seq<Bytes>, i: nat)
    requires i < |pieces|
    ensures var most, now := Joined(pieces[..i]), Joined(pieces[..i + 1]);
            && before + most + pieces[i] == before + now <= before + Joined(pieces)
            && NewFrames(before, now) == NewFrames(before, most) + NewFrames(before + most, pieces[i])
  {
    hide Joined;
    hide NewFrames;
    OneJoined(pieces, i);
    JoinedPrefix(pieces, i + 1);
    Split(before, Joined(pieces[..i + 1]), |Joined(pieces[..i])|);
    assert before + Joined(pieces[..i]) + pieces[i] == before + Joined(pieces[..i + 1]);
  }

  lemma {:induction false} NoMore(before: Bytes)
    ensures NewFrames(before, []) == []
  {
    hide Frames;
    hide Rest;
    FramesAppend(before, []);
    assert before + [] == before;
    SameTail(Frames(before), NewFrames(before, []), []);
    assert Frames(before) + [] == Frames(before);
  }

  lemma {:induction false} NothingJoined(pieces: seq<Bytes>)
    ensures Joined(pieces[..0]) == []
  {
  }

  lemma {:induction false} OneJoined(pieces: seq<Bytes>, i: nat)
    requires i < |pieces|
    ensures Joined(pieces[..i + 1]) == Joined(pieces[..i]) + pieces[i]
    ensures Joined(pieces[..i + 1])[..|Joined(pieces[..i])|] == Joined(pieces[..i])
    ensures Joined(pieces[..i + 1])[|Joined(pieces[..i])|..] == pieces[i]
  {
    assert pieces[..i + 1][..i] == pieces[..i];
  }
}
