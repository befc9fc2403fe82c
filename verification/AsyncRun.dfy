/**
 What a run of the transfer thread comes to, turn by turn: the reference the thread is
 measured against, and when it gives up.
 */
module AsyncRun {
  import opened Wrappers
  import opened LittleEndian
  import opened AsyncFrames
  import opened AsyncDownloads

  // ---- frames in a row ----

  function ReceiveAll(sha1: Sha1Hex, t: Table, frames: seq<Frame>): Table
    decreases |frames|
  {
    if |frames| == 0 then t else ReceiveAll(sha1, Receive(sha1, t, frames[0]), frames[1..])
  }

  /** How many frames are taken before one is refused. */
  function Good(sha1: Sha1Hex, t: Table, frames: seq<Frame>): (n: nat)
    ensures n <= |frames|
    decreases |frames|
  {
    if |frames| == 0 || Refused(sha1, t, frames[0]) then 0
    else 1 + Good(sha1, Receive(sha1, t, frames[0]), frames[1..])
  }

  lemma {:induction false} GoodAppend(sha1: Sha1Hex, t: Table, a: seq<Frame>, b: seq<Frame>)
    ensures ReceiveAll(sha1, t, a + b) == ReceiveAll(sha1, ReceiveAll(sha1, t, a), b)
    ensures Good(sha1, t, a + b) ==
            if Good(sha1, t, a) < |a| then Good(sha1, t, a) else |a| + Good(sha1, ReceiveAll(sha1, t, a), b)
    decreases |a|
  {
    hide Receive;
    hide Refused;
    if |a| == 0 {
      assert a + b == b;
    } else {
      assert (a + b)[0] == a[0] && (a + b)[1..] == a[1..] + b;
      GoodAppend(sha1, Receive(sha1, t, a[0]), a[1..], b);
    }
  }

  /** The frames that some further bytes complete. */
  function NewFrames(before: Bytes, more: Bytes): seq<Frame> {
    Frames(Rest(before) + more)
  }

  /** The table after frames come in, the last of them refused if any is. */
  function AfterFeeding(sha1: Sha1Hex, t: Table, frames: seq<Frame>): Table {
    var k := Good(sha1, t, frames);
    ReceiveAll(sha1, t, if k < |frames| then frames[..k + 1] else frames)
  }

  /** What feeding some frames does: all are taken, or those up to the first refused one. */
  ghost predicate Fed(sha1: Sha1Hex, t: Table, frames: seq<Frame>, u: Table, taken: seq<Frame>, r: int) {
    var k := Good(sha1, t, frames);
    if k == |frames| then r == 0 && taken == frames && u == ReceiveAll(sha1, t, frames)
    else r == -1 && taken == frames[..k + 1] && u == ReceiveAll(sha1, t, frames[..k + 1])
  }

  lemma {:induction false} FedNothing(sha1: Sha1Hex, t: Table)
    ensures Fed(sha1, t, [], t, [], 0)
  {
  }

  lemma {:induction false} FedOne(sha1: Sha1Hex, t: Table, f: Frame)
    ensures Fed(sha1, t, [f], Receive(sha1, t, f), [f], if Refused(sha1, t, f) then -1 else 0)
  {
    hide Receive;
    hide Refused;
    assert [f][1..] == [] && [f][..1] == [f];
    assert ReceiveAll(sha1, t, [f]) == ReceiveAll(sha1, Receive(sha1, t, f), []);
    assert Good(sha1, Receive(sha1, t, f), []) == 0;
  }

  lemma {:induction false} FedAll(sha1: Sha1Hex, t: Table, frames: seq<Frame>, u: Table, taken: seq<Frame>, r: int)
    requires Fed(sha1, t, frames, u, taken, r)
    ensures r == 0 || r == -1
    ensures r == 0 ==> taken == frames
    ensures r != 0 <==> Good(sha1, t, frames) < |frames|
    ensures u == AfterFeeding(sha1, t, frames)
  {
  }

  lemma {:induction false} FedTwice(sha1: Sha1Hex, t: Table, a: seq<Frame>, u: Table, b: seq<Frame>, v: Table,
                                    taken: seq<Frame>, r: int)
    requires Fed(sha1, t, a, u, a, 0) && Fed(sha1, u, b, v, taken, r)
    ensures Fed(sha1, t, a + b, v, a + taken, r)
  {
    hide Receive;
    hide Refused;
    GoodAppend(sha1, t, a, b);
    var k := Good(sha1, u, b);
    if k < |b| {
      GoodAppend(sha1, t, a, b[..k + 1]);
      assert (a + b)[..|a| + k + 1] == a + b[..k + 1];
    }
  }

  lemma {:induction false} FedEnough(sha1: Sha1Hex, t: Table, a: seq<Frame>, u: Table, taken: seq<Frame>, b: seq<Frame>)
    requires Fed(sha1, t, a, u, taken, -1)
    ensures Fed(sha1, t, a + b, u, taken, -1)
  {
    hide Receive;
    hide Refused;
    GoodAppend(sha1, t, a, b);
    var k := Good(sha1, t, a);
    assert (a + b)[..k + 1] == a[..k + 1];
  }

  // ---- turns ----

  const MAX_GROUPED := 128

  /** A command is answered to the thread that sent it, and that can fail too. Other stands
      for unknown ones and for those of a wrong size. */
  datatype Command = Download(sent: bool, answered: bool) | Other(answered: bool) | Exit | Unreadable

  /** What the wait ends with: nothing in time, data from the server, or a command.
      Incoming data comes out of the decompressor in pieces, until there is no more or it is
      broken. */
  datatype Wait = Nothing | Incoming(pieces: seq<Bytes>, broken: bool) | Asked(c: Command)

  /** One turn of the loop: whether requests have waited long enough, whether sending them
      off works if it comes to that, and the wait. */
  datatype Turn = Turn(late: bool, flushed: bool, wait: Wait)

  /** The streams and files, the bytes received, the requests not sent off yet, and for each
      download asked for whether its request was accepted and how many frames came before. */
  datatype Progress = Progress(table: Table, received: Bytes, pending: nat, sent: seq<bool>, starts: seq<nat>, going: bool)

  function Start(disk: Disk): Progress {
    Progress(Table(map[], map[], 0, disk), [], 0, [], [], true)
  }

  predicate FlushDue(p: Progress, t: Turn) {
    p.pending >= 128 || (p.pending > 0 && t.late)
  }

  predicate CommandEnds(c: Command) {
    match c
    case Download(sent, answered) => !sent || !answered
    case Other(answered) => !answered
    case Exit => true
    case Unreadable => true
  }

  /** The turns after which the thread ends: requests could not be sent off; nothing came
      and no request is waiting; the data is broken or a frame is refused; the command is to
      exit, cannot be read or answered, or asks for a download whose request is not accepted. */
  predicate Ends(sha1: Sha1Hex, p: Progress, t: Turn) {
    || (FlushDue(p, t) && !t.flushed)
    || match t.wait
       case Nothing => p.pending == 0
       case Incoming(pieces, broken) =>
         var frames := NewFrames(p.received, Joined(pieces));
         broken || Good(sha1, p.table, frames) < |frames|
       case Asked(c) => CommandEnds(c)
  }

  /** A stream is made for every download asked for, active if its request was accepted. */
  function Request(t: Table, sent: bool): Table {
    var id := t.last + 1;
    t.(last := id, streams := t.streams[id := Stream(sent, Headers, 0, [], [], 0, false)],
       world := t.world[id := Record(sent, [], Untouched, [], None)])
  }

  function NextTurn(sha1: Sha1Hex, p: Progress, t: Turn): Progress {
    if FlushDue(p, t) && !t.flushed then p.(going := false)
    else
      var q := p.(pending := if FlushDue(p, t) then 0 else p.pending, going := !Ends(sha1, p, t));
      match t.wait
      case Nothing => q
      case Incoming(pieces, _) =>
        q.(table := AfterFeeding(sha1, p.table, NewFrames(p.received, Joined(pieces))),
           received := p.received + Joined(pieces))
      case Asked(c) =>
        if c.Download? then
          q.(table := Request(p.table, c.sent), pending := q.pending + (if c.sent then 1 else 0),
             sent := p.sent + [c.sent], starts := p.starts + [|Frames(p.received)|])
        else q
  }

  /** After the end nothing more happens. */
  function AfterTurns(sha1: Sha1Hex, p: Progress, turns: seq<Turn>): Progress {
    if |turns| == 0 then p
    else
      var q := AfterTurns(sha1, p, turns[..|turns| - 1]);
      if q.going then NextTurn(sha1, q, turns[|turns| - 1]) else q
  }

  // ---- a whole download ----

  /** The answer of a server to a request: its header and the file, in one frame. */
  function Answer(size: nat, flags: Bytes, fields: Bytes, sha: Bytes, data: Bytes): Bytes {
    LeBytes(0, 4) + flags + LeBytes(size, 8) + fields + sha + data
  }

  /**
   A file asked for, answered correctly and written without error is kept with just its
   bytes, and its callback is called once, with success.
   */
  lemma {:induction false} WholeDownload(sha1: Sha1Hex, flags: Bytes, fields: Bytes, data: Bytes)
    requires 0 < |data| && |data| + RESPONSE <= BUFFER && |flags| == 4 && |fields| == 32 && |sha1(data)| == 40
    ensures var payload := Answer(|data|, flags, fields, sha1(data), data);
            && Sendable(Frame(1, payload))
            && var turns := [Turn(false, true, Asked(Download(true, true))),
                             Turn(false, true, Incoming([FrameBytes(Frame(1, payload))], false))];
            && var p := AfterTurns(sha1, Start(Disk([], [])), turns);
            && p.going && p.table.streams == map[]
            && p.table.world == map[1 := Record(true, [0], Kept, data, Some(Response(0, |data|, sha1(data))))]
  {
    hide FrameBytes;
    hide ParseResponse;
    hide NewFrames;
    hide Joined;
    hide Receive;
    hide Refused;
    Pow256Values();
    BigEnough(|data|);
    var payload := Answer(|data|, flags, fields, sha1(data), data);
    ResponseLayout(0, flags, |data|, fields, sha1(data), data);
    var f := Frame(1, payload);
    var bytes := FrameBytes(f);
    var start := Start(Disk([], []));
    var first, second := Turn(false, true, Asked(Download(true, true))), Turn(false, true, Incoming([bytes], false));
    var turns := [first, second];
    assert turns[..1] == [first] && turns[..1][..0] == [];
    var p1 := NextTurn(sha1, start, first);
    assert AfterTurns(sha1, start, turns[..1]) == p1;
    OneFrame(f);
    JoinedOne(bytes);
    WholeStep(sha1, p1.table, f, data);
    FedOne(sha1, p1.table, f);
  }

  lemma {:induction false} OneFrame(f: Frame)
    requires Sendable(f)
    ensures NewFrames([], FrameBytes(f)) == [f]
  {
    hide FrameBytes;
    FramesOfSent([f]);
    var b := FrameBytes(f);
    assert [f][1..] == [];
    assert AllBytes([f]) == b + AllBytes([]);
    assert b + [] == b && [] + b == b;
    assert Rest([]) == [];
  }

  lemma {:induction false} JoinedOne(b: Bytes)
    ensures Joined([b]) == b
  {
    var pieces := [b];
    assert Joined(pieces[..0]) == [] && [] + b == b;
  }

  lemma {:induction false} BigEnough(n: nat)
    requires n <= BUFFER
    ensures n < Pow256(8)
  {
    Pow256Values();
    assert Pow256(5) >= Pow256(4) && Pow256(6) >= Pow256(5) && Pow256(7) >= Pow256(6) && Pow256(8) >= Pow256(7);
  }

  lemma {:induction false} WholeStep(sha1: Sha1Hex, t: Table, f: Frame, data: Bytes)
    requires t == Request(Table(map[], map[], 0, Disk([], [])), true) && f.id == 1
    requires |f.payload| > RESPONSE && ParseResponse(f.payload) == Response(0, |data|, sha1(data))
    requires f.payload[RESPONSE..] == data && |data| > 0
    ensures !Refused(sha1, t, f)
    ensures var u := Receive(sha1, t, f);
            && u.streams == map[]
            && u.world == map[1 := Record(true, [0], Kept, data, Some(Response(0, |data|, sha1(data))))]
  {
    hide ParseResponse;
    assert WriteOut([], data) == Written(0, data, []) by {
      assert data[..|data|] == data && data[|data|..] == [];
      assert data + [] == data;
    }
    var s, r, disk := t.streams[1], t.world[1], Disk([], []);
    var resp := Response(0, |data|, sha1(data));
    var o := Opened(s, Answered(r, resp), resp, disk);
    var last := Record(true, [0], Kept, data, Some(resp));
    assert [] + data == data;
    assert [] + [0] == [0];
    assert DataStep(sha1, disk, o.stream.value, o.record, data) == After(None, last, 0, disk);
    assert HeaderStep(sha1, disk, s, r, f.payload) == After(None, last, 0, disk);
    assert map[1 := r][1 := last] == map[1 := last] && map[1 := s] - {1} == map[];
  }
}
