/**
 The asynchronous transfer thread: multiplexed download streams, their completion
 callbacks and the files they write. What the disk will answer is a list that no
 statement here restricts.
 */
module AsyncDownloads {
  import opened Wrappers
  import opened LittleEndian
  import opened AsyncFrames

  const ERROR_NET := 1
  const ERROR_FILE := 2
  const ERROR_DISK_FULL := 3
  const ERROR_IO := 4
  const ERROR_CHECKSUM := 5

  const WORD := 0x1_0000_0000
  const RESPONSE := 88          // sizeof(task_file_download_resp_t)

  /** The header a server answers with: error code, file size and checksum. */
  datatype Response = Response(error: nat, size: nat, sha: Bytes)

  function ParseResponse(b: Bytes): (r: Response)
    requires |b| >= RESPONSE
    ensures r.error < WORD
  {
    Response(LeVal(b[0..4]) % WORD, LeVal(b[8..16]), b[48..88])
  }

  /** The header as the server lays it out: 32-bit error and flags, 64-bit size, four more
      64-bit fields, and forty hex digits. */
  lemma {:induction false} ResponseLayout(error: nat, flags: Bytes, size: nat, fields: Bytes, sha: Bytes, data: Bytes)
    requires error < Pow256(4) && |flags| == 4 && size < Pow256(8) && |fields| == 32 && |sha| == 40
    ensures var b := LeBytes(error, 4) + flags + LeBytes(size, 8) + fields + sha + data;
            |b| >= RESPONSE && ParseResponse(b) == Response(error, size, sha) && b[RESPONSE..] == data
  {
    hide LeVal;
    hide LeBytes;
    var b := LeBytes(error, 4) + flags + LeBytes(size, 8) + fields + sha + data;
    assert b[0..4] == LeBytes(error, 4) && b[8..16] == LeBytes(size, 8) && b[48..88] == sha;
    LeRoundTrip(error, 4);
    LeRoundTrip(size, 8);
    Pow256Values();
  }

  /** The code reported for a server error: 32-bit addition. */
  function Reported(serverError: nat): (r: nat)
    ensures r < WORD
  {
    (serverError + 100) % WORD
  }

  /** Only one server error is reported as success. */
  lemma ReportedZero(serverError: nat)
    requires serverError < WORD
    ensures Reported(serverError) == 0 <==> serverError == WORD - 100
  {
  }

  datatype Stage = Headers | Body

  datatype Stream = Stream(active: bool, stage: Stage, size: nat, sha: Bytes, hashed: Bytes, remaining: nat, hasFile: bool)

  /** The file of a stream, as the thread leaves it. */
  datatype File = Untouched | Writing | Kept | Deleted

  /** What the world outside sees of a stream: whether it was activated, the error codes
      its callback was called with, its file, and the server's answer. */
  datatype Record = Record(activated: bool, calls: seq<nat>, file: File, content: Bytes, answer: Option<Response>)

  type Sha1Hex = Bytes -> Bytes

  /** Nothing was ever written for it, or the file has the announced size and checksum. */
  predicate Intact(sha1: Sha1Hex, r: Record, a: Response) {
    && r.file.Kept? && |r.content| == a.size
    && (a.size > 0 ==> sha1(r.content) == a.sha)
  }

  ghost predicate OpenOk(s: Stream, r: Record) {
    && r.activated == s.active && r.calls == []
    && r.file == (if s.hasFile then Writing else Untouched)
    && match s.stage
       case Headers => !s.hasFile && r.content == [] && r.answer.None?
       case Body =>
         && s.active && s.hasFile && r.answer.Some? && r.answer.value.error == 0
         && s.size == r.answer.value.size && s.sha == r.answer.value.sha
         && s.hashed == r.content && |r.content| + s.remaining == s.size && s.remaining > 0
  }

  /** The callback was told that the download succeeded. */
  predicate Succeeded(r: Record) {
    |r.calls| == 1 && r.calls[0] == 0
  }

  predicate Failed(r: Record) {
    |r.calls| == 1 && r.calls[0] != 0
  }

  ghost predicate ClosedOk(sha1: Sha1Hex, r: Record) {
    && |r.calls| == (if r.activated then 1 else 0)
    && !r.file.Writing?
    && (r.file.Kept? ==> Succeeded(r))
    && (r.file.Deleted? ==> Failed(r))
    && (Succeeded(r) ==> r.answer.Some? && (r.answer.value.error == WORD - 100
                           || (r.answer.value.error == 0 && Intact(sha1, r, r.answer.value))))
    && (r.answer.Some? && r.answer.value.error == WORD - 100 ==> Succeeded(r) && r.file.Untouched?)
  }

  /** A stream's record when its callback has been called and its file closed. */
  function Ended(s: Stream, r: Record, error: nat): Record {
    r.(calls := r.calls + [error], file := Closing(s, r.file, error))
  }

  /** A file that was open is kept on success and deleted on error. */
  function Closing(s: Stream, file: File, error: nat): File {
    if s.hasFile then (if error == 0 then Kept else Deleted) else file
  }

  // ---- the disk ----

  /** What a write does: some of the bytes, at least one and at most all, or an error. */
  datatype WriteAnswer = Wrote(n: nat) | NoSpace | WriteError

  /** Whether files will open, and what writes will do, in order; once a list is used up
      files open and writes take everything. */
  datatype Disk = Disk(opens: seq<bool>, writes: seq<WriteAnswer>)

  function NextOpens(disk: Disk): bool {
    disk.opens == [] || disk.opens[0]
  }

  function AfterOpen(disk: Disk): Disk {
    disk.(opens := if disk.opens == [] then [] else disk.opens[1..])
  }

  /** How many of n bytes the next write takes. */
  function Accepted(answers: seq<WriteAnswer>, n: nat): (r: nat)
    requires n > 0 && (answers != [] ==> answers[0].Wrote?)
    ensures 1 <= r <= n
  {
    if answers != [] && 1 <= answers[0].n <= n then answers[0].n else n
  }

  /** What comes of writing some bytes: the error, the part that reached the file, and what
      the disk will answer later. */
  datatype Written = Written(error: nat, part: Bytes, later: seq<WriteAnswer>)

  function WriteOut(answers: seq<WriteAnswer>, left: Bytes): (w: Written)
    ensures w.part <= left && (w.error == 0 <==> w.part == left)
    ensures w.error == 0 || w.error == ERROR_DISK_FULL || w.error == ERROR_IO
    decreases |left|
  {
    if left == [] then Written(0, [], answers)
    else
      var later := if answers == [] then [] else answers[1..];
      if answers != [] && answers[0].NoSpace? then Written(ERROR_DISK_FULL, [], later)
      else if answers != [] && answers[0].WriteError? then Written(ERROR_IO, [], later)
      else
        var n := Accepted(answers, |left|);
        var w := WriteOut(later, left[n..]);
        assert left == left[..n] + left[n..];
        Written(w.error, left[..n] + w.part, w.later)
  }

  // ---- what packets do ----

  /** A stream after a step: still in the table, or gone. */
  datatype After = After(stream: Option<Stream>, record: Record, ret: int, disk: Disk)

  /** What a packet of file data does to a stream: too much data ends it and the
      thread; a write error ends it; otherwise the data is appended, and the last of it
      ends the stream with success or a checksum error. */
  function DataStep(sha1: Sha1Hex, disk: Disk, s: Stream, r: Record, buff: Bytes): (a: After)
    ensures a.ret == 0 || a.ret == -1
  {
    if |buff| > s.remaining then After(None, Ended(s, r, ERROR_NET), -1, disk)
    else
      var w := WriteOut(disk.writes, buff);
      var later := disk.(writes := w.later);
      var written := r.(content := r.content + w.part);
      if w.error != 0 then After(None, Ended(s, written, w.error), 0, later)
      else if |buff| < s.remaining then
        After(Some(s.(remaining := s.remaining - |buff|, hashed := s.hashed + buff)), written, 0, later)
      else After(None, Ended(s, written, if sha1(s.hashed + buff) == s.sha then 0 else ERROR_CHECKSUM), 0, later)
  }

  /** The stream and its record once its file is open. */
  function WithFile(s: Stream, a: Response): Stream {
    Stream(s.active, Body, a.size, a.sha, [], a.size, true)
  }

  function Answered(r: Record, a: Response): Record {
    r.(answer := Some(a))
  }

  /** What the first packet does: too short it ends the thread; a server error is
      reported shifted by 100; the file may fail to open; an empty file is finished; and
      what follows the header is file data. */
  function HeaderStep(sha1: Sha1Hex, disk: Disk, s: Stream, r: Record, buff: Bytes): (a: After)
    ensures a.ret == 0 || a.ret == -1
  {
    if |buff| < RESPONSE then After(Some(s), r, -1, disk)
    else
      var resp := ParseResponse(buff);
      if resp.error != 0 then After(None, Ended(s, Answered(r, resp), Reported(resp.error)), 0, disk)
      else
        var o := Opened(s, Answered(r, resp), resp, disk);
        if o.stream.None? || |buff| == RESPONSE then o
        else DataStep(sha1, o.disk, o.stream.value, o.record, buff[RESPONSE..])
  }

  /** Opening the file: it fails, an empty one is finished, or data can follow. */
  function Opened(s: Stream, r: Record, a: Response, disk: Disk): (o: After)
    ensures o.ret == 0
  {
    if !NextOpens(disk) then After(None, Ended(s, r, ERROR_FILE), 0, AfterOpen(disk))
    else
      var w := r.(file := Writing, content := []);
      if a.size == 0 then After(None, Ended(WithFile(s, a), w, 0), 0, AfterOpen(disk))
      else After(Some(WithFile(s, a)), w, 0, AfterOpen(disk))
  }

  /** A first packet of full length makes the thread report success without ever having
      opened a file exactly when the server's error code is the one that wraps to zero. */
  lemma UnopenedSuccess(sha1: Sha1Hex, disk: Disk, s: Stream, r: Record, buff: Bytes)
    requires OpenOk(s, r) && s.stage.Headers? && |buff| >= RESPONSE
    ensures var a := HeaderStep(sha1, disk, s, r, buff);
            a.record.calls == [0] && a.record.file.Untouched? <==> ParseResponse(buff).error == WORD - 100
  {
    hide ParseResponse;
    hide DataStep;
    var resp := ParseResponse(buff);
    var r1 := Answered(r, resp);
    ReportedZero(resp.error);
    assert Ended(s, r1, Reported(resp.error)).calls == [Reported(resp.error)];
    assert Ended(s, r1, ERROR_FILE).calls == [ERROR_FILE];
    var o := Opened(s, r1, resp, disk);
    if resp.error == 0 && o.stream.Some? && |buff| > RESPONSE {
      DataKeepsFile(sha1, o.disk, o.stream.value, o.record, buff[RESPONSE..]);
    }
  }

  lemma DataKeepsFile(sha1: Sha1Hex, disk: Disk, s: Stream, r: Record, buff: Bytes)
    requires s.hasFile && r.file.Writing?
    ensures !DataStep(sha1, disk, s, r, buff).record.file.Untouched?
  {
  }

  /** The packets that do it: they begin with 0x9c 0xff 0xff 0xff. */
  lemma UnopenedSuccessBytes(sha1: Sha1Hex, disk: Disk, s: Stream, r: Record, buff: Bytes)
    requires OpenOk(s, r) && s.stage.Headers? && |buff| >= RESPONSE
    requires buff[..4] == [0x9c, 0xff, 0xff, 0xff]
    ensures var a := HeaderStep(sha1, disk, s, r, buff);
            a == After(None, Answered(r, ParseResponse(buff)).(calls := [0]), 0, disk) && a.record.file.Untouched?
  {
    var b := buff[0..4];
    assert b == buff[..4];
    assert LeVal(b[3..]) == 255 + 256 * LeVal(b[4..]) && LeVal(b[2..]) == 255 + 256 * LeVal(b[3..]);
    assert b[1..][1..] == b[2..] && b[2..][1..] == b[3..];
    assert LeVal(b) == WORD - 100;
  }

  /** What the callback is told about file data, cause by cause: too much of it is 1, a full
      disk 3, another write error 4, a wrong checksum 5, and 0 success. */
  lemma DataCodes(sha1: Sha1Hex, disk: Disk, s: Stream, r: Record, buff: Bytes)
    requires s.hasFile && r.file.Writing? && r.calls == []
    ensures var a, w := DataStep(sha1, disk, s, r, buff), disk.writes;
            && (|buff| > s.remaining ==> a.record.calls == [1] && a.record.file.Deleted? && a.ret == -1)
            && (0 < |buff| <= s.remaining && w != [] && w[0].NoSpace? ==> a.record.calls == [3] && a.record.file.Deleted?)
            && (0 < |buff| <= s.remaining && w != [] && w[0].WriteError? ==> a.record.calls == [4] && a.record.file.Deleted?)
            && (|buff| == s.remaining && w == [] ==>
                  && a.record.content == r.content + buff
                  && if sha1(s.hashed + buff) == s.sha then a.record.calls == [0] && a.record.file.Kept?
                     else a.record.calls == [5] && a.record.file.Deleted?)
  {
    if |buff| <= s.remaining {
      if buff == [] {
        WriteOutNone(disk.writes);
      } else {
        WriteOutStep(disk.writes, buff, [], []);
        if disk.writes == [] {
          WriteOutNone([]);
          assert buff[..|buff|] + [] == buff && buff[|buff|..] == [];
        }
      }
    }
  }

  /** And about a first packet: a server error plus 100 in 32 bits, 2 if the file does not
      open, and 0 for an empty file. */
  lemma HeaderCodes(sha1: Sha1Hex, disk: Disk, s: Stream, r: Record, buff: Bytes)
    requires !s.hasFile && r.file.Untouched? && r.calls == [] && |buff| >= 88
    ensures var a, resp := HeaderStep(sha1, disk, s, r, buff), ParseResponse(buff);
            var opens := disk.opens == [] || disk.opens[0];
            && (resp.error != 0 ==> a.record.calls == [(resp.error + 100) % 0x1_0000_0000] && a.record.file.Untouched?)
            && (resp.error == 0 && !opens ==> a.record.calls == [2] && a.record.file.Untouched?)
            && (resp.error == 0 && opens && resp.size == 0 ==> a.record.calls == [0] && a.record.file.Kept?)
            && (resp.error != 0 || !opens || resp.size == 0 ==> a.stream.None? && a.ret == 0)
  {
    hide ParseResponse;
    hide DataStep;
  }

  /** An active stream with an open file or none, not yet finished. */
  ghost predicate Unfinished(s: Stream, r: Record) {
    && s.active && r.activated && r.calls == [] && r.file == (if s.hasFile then Writing else Untouched)
    && r.answer.Some? && r.answer.value.error == 0
  }

  lemma FailureCloses(sha1: Sha1Hex, s: Stream, r: Record, error: nat)
    requires Unfinished(s, r) && error != 0
    ensures ClosedOk(sha1, Ended(s, r, error))
  {
  }

  lemma ReportCloses(sha1: Sha1Hex, s: Stream, r: Record, a: Response)
    requires OpenOk(s, r) && s.stage.Headers? && s.active && 0 < a.error < WORD
    ensures ClosedOk(sha1, Ended(s, Answered(r, a), Reported(a.error)))
  {
    ReportedZero(a.error);
  }

  lemma SuccessCloses(sha1: Sha1Hex, s: Stream, r: Record)
    requires Unfinished(s, r) && s.hasFile && |r.content| == r.answer.value.size
    requires r.answer.value.size > 0 ==> sha1(r.content) == r.answer.value.sha
    ensures ClosedOk(sha1, Ended(s, r, 0))
  {
  }

  lemma BodyIsUnfinished(s: Stream, r: Record, content: Bytes)
    requires OpenOk(s, r) && s.stage.Body?
    ensures Unfinished(s, r.(content := content))
    ensures s.hashed == r.content && s.size == r.answer.value.size == |r.content| + s.remaining && s.sha == r.answer.value.sha
    ensures s.remaining > 0 && s.hasFile
  {
  }

  lemma WriteOutNone(answers: seq<WriteAnswer>)
    ensures WriteOut(answers, []) == Written(0, [], answers)
  {
  }

  /** One turn of the writing loop. */
  lemma WriteOutStep(answers: seq<WriteAnswer>, left: Bytes, before: Bytes, done: Bytes)
    requires left != []
    ensures answers != [] && answers[0].NoSpace? ==> WriteOut(answers, left) == Written(ERROR_DISK_FULL, [], answers[1..])
    ensures answers != [] && answers[0].WriteError? ==> WriteOut(answers, left) == Written(ERROR_IO, [], answers[1..])
    ensures (answers != [] ==> answers[0].Wrote?) ==>
            var n := Accepted(answers, |left|);
            var more, rest := WriteOut(answers, left), WriteOut(if answers == [] then [] else answers[1..], left[n..]);
            && more == Written(rest.error, left[..n] + rest.part, rest.later)
            && done + more.part == (done + left[..n]) + rest.part
            && (before + done) + left[..n] == before + (done + left[..n])
  {
  }

  lemma BodyGoesOn(s: Stream, r: Record, buff: Bytes)
    requires OpenOk(s, r) && s.stage.Body? && |buff| < s.remaining
    ensures OpenOk(s.(remaining := s.remaining - |buff|, hashed := s.hashed + buff), r.(content := r.content + buff))
  {
  }

  lemma BodyStarts(s: Stream, r: Record, a: Response)
    requires s.active && !s.hasFile && r == Record(true, [], Untouched, [], Some(a)) && a.error == 0
    ensures a.size > 0 ==> OpenOk(WithFile(s, a), r.(file := Writing))
  {
  }

  // ---- all streams ----

  function StreamAt(streams: map<nat, Stream>, id: nat): Option<Stream> {
    if id in streams then Some(streams[id]) else None
  }

  /** The streams in the table, what the world sees of all streams ever made, the number
      of the last one, and the disk. */
  datatype Table = Table(streams: map<nat, Stream>, world: map<nat, Record>, last: nat, disk: Disk)

  predicate Known(t: Table, f: Frame) {
    f.id in t.streams && f.id in t.world
  }

  function FrameStep(sha1: Sha1Hex, t: Table, f: Frame): (a: After)
    requires Known(t, f)
    ensures a.ret == 0 || a.ret == -1
  {
    match t.streams[f.id].stage
    case Headers => HeaderStep(sha1, t.disk, t.streams[f.id], t.world[f.id], f.payload)
    case Body => DataStep(sha1, t.disk, t.streams[f.id], t.world[f.id], f.payload)
  }

  /** The thread gives up on a frame. */
  predicate Refused(sha1: Sha1Hex, t: Table, f: Frame) {
    Known(t, f) && FrameStep(sha1, t, f).ret != 0
  }

  /** That is so exactly for a first packet too short for its header, and for file data
      beyond the announced size, be it behind the header or later. */
  lemma RefusedExactly(sha1: Sha1Hex, t: Table, f: Frame)
    requires Known(t, f)
    ensures var s, p := t.streams[f.id], f.payload;
            Refused(sha1, t, f) <==>
              match s.stage
              case Headers =>
                if |p| < RESPONSE then true
                else
                  var a := ParseResponse(p);
                  a.error == 0 && NextOpens(t.disk) && 0 < a.size < |p| - RESPONSE
              case Body => |p| > s.remaining
  {
    hide ParseResponse;
    hide WriteOut;
  }

  function Put(t: Table, id: nat, a: After): Table {
    t.(streams := if a.stream.Some? then t.streams[id := a.stream.value] else t.streams - {id},
       world := t.world[id := a.record], disk := a.disk)
  }

  /** A frame changes its stream; one of an unknown stream is thrown away. */
  function Receive(sha1: Sha1Hex, t: Table, f: Frame): Table {
    if Known(t, f) then Put(t, f.id, FrameStep(sha1, t, f)) else t
  }

  /** Two tables that agree elsewhere differ by what happened to one stream. */
  lemma OneChanged(t: Table, u: Table, id: nat, a: After)
    requires u.streams - {id} == t.streams - {id} && u.world - {id} == t.world - {id} && u.last == t.last && id in u.world
    requires a.stream == StreamAt(u.streams, id) && a.record == u.world[id] && a.disk == u.disk
    ensures u == Put(t, id, a)
  {
    var v := Put(t, id, a);
    forall k
      ensures k in u.streams <==> k in v.streams
      ensures k in u.streams ==> u.streams[k] == v.streams[k]
      ensures k in u.world <==> k in v.world
      ensures k in u.world ==> u.world[k] == v.world[k]
    {
      if k != id {
        SameElsewhere(u.streams, t.streams, id, k);
        SameElsewhere(u.world, t.world, id, k);
      }
    }
    assert u.streams == v.streams && u.world == v.world;
  }

  lemma SameElsewhere<T>(a: map<nat, T>, b: map<nat, T>, k: nat, id: nat)
    requires a - {k} == b - {k} && id != k
    ensures id in a <==> id in b
    ensures id in a ==> a[id] == b[id]
  {
    if id in a {
      assert id in a - {k} && (a - {k})[id] == a[id];
    }
    if id in b {
      assert id in b - {k} && (b - {k})[id] == b[id];
    }
  }

  class Downloads {
    const sha1: Sha1Hex
    var streams: map<nat, Stream>
    var last: nat
    var world: map<nat, Record>
    var disk: Disk

    ghost predicate Valid()
      reads this
    {
      && last < WORD
      && (forall id :: id in world <==> 1 <= id <= last)
      && (forall id :: id in streams ==> id in world)
      && (forall id :: id in streams ==> OpenOk(streams[id], world[id]))
      && (forall id :: id in world && id !in streams ==> ClosedOk(sha1, world[id]))
    }

    /** Valid, but for stream id, which is in the table. */
    ghost predicate ValidBut(id: nat)
      reads this
    {
      && last < WORD && id in streams && id in world && streams[id].active
      && (forall i :: i in world <==> 1 <= i <= last)
      && (forall i :: i in streams ==> i in world)
      && (forall i :: i in streams && i != id ==> OpenOk(streams[i], world[i]))
      && (forall i :: i in world && i !in streams ==> ClosedOk(sha1, world[i]))
    }

    /** The state of one stream, with the result of a step. */
    function Now(id: nat, ret: int): After
      requires id in world
      reads this
    {
      After(if id in streams then Some(streams[id]) else None, world[id], ret, disk)
    }

    function State(): Table
      reads this
    {
      Table(streams, world, last, disk)
    }

    /** No stream but id has changed. */
    twostate predicate OnlyStream(id: nat)
      reads this
    {
      streams - {id} == old(streams) - {id} && world - {id} == old(world) - {id} && last == old(last) && id in world
    }

    /** No stream has been activated or created. */
    twostate predicate SameActivation()
      reads this
    {
      last == old(last)
      && forall id :: id in old(world) ==> id in world && world[id].activated == old(world[id].activated)
    }

    /** While the thread runs every stream in the table has been activated. */
    ghost predicate AllActive()
      reads this`streams
    {
      forall id :: id in streams ==> streams[id].active
    }

    lemma Pick(id: nat)
      requires Valid() && AllActive() && id in streams
      ensures ValidBut(id) && id in world && streams[id].active && OpenOk(streams[id], world[id])
    {
      hide OpenOk;
      hide ClosedOk;
    }

    constructor (h: Sha1Hex, d: Disk)
      ensures Valid() && AllActive() && streams == map[] && world == map[] && last == 0 && sha1 == h && disk == d
    {
      sha1, disk := h, d;
      streams, last, world := map[], 0, map[];
    }

    /** handle_file_download: a stream is made first and activated once the request is out. */
    method HandleFileDownload(sent: bool) returns (r: int)
      requires Valid() && AllActive() && last + 1 < WORD
      modifies this
      ensures Valid() && last == old(last) + 1
      ensures streams == old(streams)[last := Stream(sent, Headers, 0, [], [], 0, false)]
      ensures world == old(world)[last := Record(sent, [], Untouched, [], None)]
      ensures r == (if sent then 0 else -1) && disk == old(disk) && (sent ==> AllActive())
    {
      last := last + 1;
      streams := streams[last := Stream(false, Headers, 0, [], [], 0, false)];
      world := world[last := Record(false, [], Untouched, [], None)];
      if !sent {
        return -1;
      }
      streams := streams[last := streams[last].(active := true)];
      world := world[last := world[last].(activated := true)];
      return 0;
    }

    /** file_download_send_error: the callback, then close_stream, which closes the file
        and deletes it if there was an error. */
    method SendError(id: nat, error: nat)
      requires ValidBut(id) && AllActive() && ClosedOk(sha1, Ended(streams[id], world[id], error))
      modifies this
      ensures Valid() && AllActive()
      ensures streams == old(streams) - {id} && last == old(last) && disk == old(disk)
      ensures world == old(world)[id := Ended(old(streams[id]), old(world[id]), error)]
    {
      hide ClosedOk;
      hide OpenOk;
      var s := streams[id];
      world := world[id := world[id].(calls := world[id].calls + [error])];
      streams := streams - {id};
      CloseFile(id, s, error);
    }

    /** file_download_free. */
    method CloseFile(id: nat, s: Stream, error: nat)
      requires id in world
      modifies this`world
      ensures world == old(world)[id := old(world[id]).(file := Closing(s, old(world[id]).file, error))]
    {
      if s.hasFile {
        world := world[id := world[id].(file := Kept)];
        if error != 0 {
          world := world[id := world[id].(file := Deleted)];
        }
      }
    }

    /** process_file_download_data. */
    method ProcessData(id: nat, buff: Bytes) returns (r: int)
      requires Valid() && AllActive() && id in streams && streams[id].stage.Body?
      modifies this
      ensures Valid() && AllActive() && OnlyStream(id)
      ensures Now(id, r) == DataStep(sha1, old(disk), old(streams[id]), old(world[id]), buff)
      ensures world[id].activated == old(world[id].activated)
    {
      hide ParseResponse;
      hide OpenOk;
      hide ClosedOk;
      hide Valid;
      hide ValidBut;
      hide AllActive;
      Pick(id);
      var s := streams[id];
      BodyIsUnfinished(s, world[id], world[id].content);
      if |buff| > s.remaining {
        FailureCloses(sha1, s, world[id], ERROR_NET);
        SendError(id, ERROR_NET);
        return -1;
      }
      s := s.(remaining := s.remaining - |buff|, hashed := s.hashed + buff);
      var error := WriteAll(id, buff);
      BodyIsUnfinished(old(streams[id]), old(world[id]), world[id].content);
      if error != 0 {
        FailureCloses(sha1, streams[id], world[id], error);
        SendError(id, error);
        return 0;
      }
      if s.remaining == 0 {
        if sha1(s.hashed) != s.sha {
          FailureCloses(sha1, streams[id], world[id], ERROR_CHECKSUM);
          SendError(id, ERROR_CHECKSUM);
        } else {
          SuccessCloses(sha1, streams[id], world[id]);
          SendError(id, 0);
        }
        return 0;
      }
      BodyGoesOn(streams[id], old(world[id]), buff);
      Keep(id, s);
      return 0;
    }

    method Keep(id: nat, s: Stream)
      requires ValidBut(id) && AllActive() && s.active && OpenOk(s, world[id])
      modifies this`streams
      ensures Valid() && AllActive() && streams == old(streams)[id := s]
    {
      hide OpenOk;
      hide ClosedOk;
      streams := streams[id := s];
    }

    /** The loop that writes a packet, in as many pieces as the disk takes. */
    method WriteAll(id: nat, buff: Bytes) returns (error: nat)
      requires ValidBut(id) && id in world
      modifies this`world, this`disk
      ensures var w := WriteOut(old(disk.writes), buff);
              && ValidBut(id) && error == w.error && disk == old(disk).(writes := w.later)
              && world == old(world)[id := old(world[id]).(content := old(world[id].content) + w.part)]
    {
      hide OpenOk;
      hide ClosedOk;
      hide WriteOut;
      hide Accepted;
      ghost var w := WriteOut(disk.writes, buff);
      ghost var done: Bytes := [];
      var left := buff;
      assert [] + w.part == w.part && world[id].content + [] == world[id].content;
      while |left| > 0
        invariant ValidBut(id) && id in world && disk == old(disk).(writes := disk.writes)
        invariant world == old(world)[id := old(world[id]).(content := old(world[id].content) + done)]
        invariant var more := WriteOut(disk.writes, left); w == Written(more.error, done + more.part, more.later)
        decreases |left|
      {
        WriteOutStep(disk.writes, left, old(world[id].content), done);
        var written, noSpace := WriteSome(|left|);
        if written == -1 {
          assert done + [] == done;
          return if noSpace then ERROR_DISK_FULL else ERROR_IO;
        }
        world := world[id := world[id].(content := world[id].content + left[..written])];
        done := done + left[..written];
        left := left[written..];
      }
      WriteOutNone(disk.writes);
      assert done + [] == done;
      return 0;
    }

    /** psync_file_write: some of the bytes, or an error. */
    method WriteSome(n: nat) returns (written: int, noSpace: bool)
      requires n > 0
      modifies this`disk
      ensures var answers := old(disk.writes);
              && disk == old(disk).(writes := if answers == [] then [] else answers[1..])
              && noSpace == (answers != [] && answers[0].NoSpace?)
              && written == if answers != [] && !answers[0].Wrote? then -1 else Accepted(answers, n)
    {
      var answers := disk.writes;
      if answers != [] {
        disk := disk.(writes := answers[1..]);
      }
      noSpace := answers != [] && answers[0].NoSpace?;
      written := if answers != [] && !answers[0].Wrote? then -1 else Accepted(answers, n);
    }

    /** process_file_download_headers. */
    method ProcessHeaders(id: nat, buff: Bytes) returns (r: int)
      requires Valid() && AllActive() && id in streams && streams[id].stage.Headers?
      modifies this
      ensures Valid() && AllActive() && OnlyStream(id)
      ensures Now(id, r) == HeaderStep(sha1, old(disk), old(streams[id]), old(world[id]), buff)
      ensures world[id].activated == old(world[id].activated)
    {
      hide ParseResponse;
      hide DataStep;
      if |buff| < RESPONSE {
        return -1;
      }
      var a := ParseResponse(buff);
      var goOn := TakeAnswer(id, a);
      if goOn && |buff| > RESPONSE {
        r := ProcessData(id, buff[RESPONSE..]);
        return;
      }
      return 0;
    }

    /** What the server's answer does: its error is reported, or the file is opened. */
    method TakeAnswer(id: nat, a: Response) returns (goOn: bool)
      requires Valid() && AllActive() && id in streams && streams[id].stage.Headers? && a.error < WORD
      modifies this
      ensures Valid() && AllActive() && OnlyStream(id)
      ensures var s, r := old(streams[id]), Answered(old(world[id]), a);
              if a.error != 0 then Now(id, 0) == After(None, Ended(s, r, Reported(a.error)), 0, old(disk))
              else Now(id, 0) == Opened(s, r, a, old(disk))
      ensures goOn == (id in streams)
      ensures world[id].activated == old(world[id].activated)
    {
      hide Valid;
      hide ValidBut;
      hide AllActive;
      hide ClosedOk;
      Pick(id);
      SetAnswer(id, a);
      if a.error != 0 {
        ReportCloses(sha1, streams[id], old(world[id]), a);
        SendError(id, Reported(a.error));
        return false;
      }
      goOn := OpenFile(id, a);
    }

    method SetAnswer(id: nat, a: Response)
      requires ValidBut(id) && id in world
      modifies this`world
      ensures ValidBut(id) && world == old(world)[id := Answered(old(world[id]), a)]
    {
      hide OpenOk;
      hide ClosedOk;
      world := world[id := world[id].(answer := Some(a))];
    }

    /** The file may not open. */
    method OpenFile(id: nat, a: Response) returns (goOn: bool)
      requires ValidBut(id) && AllActive() && a.error == 0
      requires !streams[id].hasFile && world[id] == Record(true, [], Untouched, [], Some(a))
      modifies this
      ensures Valid() && AllActive() && OnlyStream(id)
      ensures Now(id, 0) == Opened(old(streams[id]), old(world[id]), a, old(disk)) && goOn == (id in streams)
      ensures world[id].activated == old(world[id].activated)
    {
      hide OpenOk;
      hide ClosedOk;
      var couldOpen := NextOpens(disk);
      disk := AfterOpen(disk);
      if !couldOpen {
        FailureCloses(sha1, streams[id], world[id], ERROR_FILE);
        SendError(id, ERROR_FILE);
        return false;
      }
      goOn := StartBody(id, a);
    }

    /** An open file is ready for data; an empty one is finished at once. */
    method StartBody(id: nat, a: Response) returns (goOn: bool)
      requires ValidBut(id) && AllActive() && a.error == 0
      requires !streams[id].hasFile && world[id] == Record(true, [], Untouched, [], Some(a))
      modifies this
      ensures Valid() && AllActive() && OnlyStream(id)
      ensures disk == old(disk) && goOn == (id in streams) == (a.size > 0)
      ensures var s, w := WithFile(old(streams[id]), a), old(world[id]).(file := Writing, content := []);
              Now(id, 0) == if a.size == 0 then After(None, Ended(s, w, 0), 0, disk) else After(Some(s), w, 0, disk)
      ensures world[id].activated == old(world[id].activated)
    {
      hide OpenOk;
      hide ClosedOk;
      BodyStarts(streams[id], world[id], a);
      streams := streams[id := streams[id].(hasFile := true, size := a.size, sha := a.sha, stage := Body,
                                            remaining := a.size, hashed := [])];
      world := world[id := world[id].(file := Writing, content := [])];
      if a.size == 0 {
        SuccessCloses(sha1, streams[id], world[id]);
        SendError(id, 0);
        return false;
      }
      return true;
    }

    /** process_stream_data: data of unknown streams is thrown away. */
    method Dispatch(f: Frame) returns (r: int)
      requires Valid() && AllActive()
      modifies this
      ensures Valid() && AllActive() && SameActivation()
      ensures State() == Receive(sha1, old(State()), f)
      ensures r == if Refused(sha1, old(State()), f) then -1 else 0
    {
      hide HeaderStep;
      hide DataStep;
      if f.id !in streams {
        return 0;
      }
      Pick(f.id);
      match streams[f.id].stage {
        case Headers => r := ProcessHeaders(f.id, f.payload);
        case Body => r := ProcessData(f.id, f.payload);
      }
      OneChanged(old(State()), State(), f.id, Now(f.id, r));
      assert forall i :: i in old(world) && i != f.id ==> i in old(world) - {f.id} && i in world - {f.id};
    }

    /** What the end of the thread makes of a stream that is still open. */
    static function Abandoned(s: Stream, r: Record): Record {
      if s.active then Ended(s, r, ERROR_NET) else r.(file := Closing(s, r.file, ERROR_NET))
    }

    /** Of the streams there were, some are still in the table and the others abandoned. */
    static ghost predicate Freed(streams0: map<nat, Stream>, world0: map<nat, Record>,
                                 streams: map<nat, Stream>, world: map<nat, Record>) {
      && world.Keys == world0.Keys && streams0.Keys <= world0.Keys
      && (forall id :: id in streams ==> id in streams0 && streams[id] == streams0[id])
      && (forall id :: id in streams ==> world[id] == world0[id])
      && (forall id :: id in world && id !in streams0 ==> world[id] == world0[id])
      && (forall id :: id in streams0 && id !in streams ==> world[id] == Abandoned(streams0[id], world0[id]))
    }

    static lemma FreedStep(streams0: map<nat, Stream>, world0: map<nat, Record>,
                           streams: map<nat, Stream>, world: map<nat, Record>, id: nat)
      requires Freed(streams0, world0, streams, world) && id in streams
      ensures id in world && Freed(streams0, world0, streams - {id}, world[id := Abandoned(streams[id], world[id])])
    {
      hide Abandoned;
    }

    /** free_stream for every stream that is left when the thread ends. */
    method FreeAll()
      requires Valid()
      modifies this
      ensures Valid() && streams == map[] && last == old(last) && SameActivation()
      ensures Freed(old(streams), old(world), map[], world)
    {
      ghost var streams0, world0 := streams, world;
      assert Freed(streams0, world0, streams, world);
      hide Valid;
      hide Freed;
      hide Abandoned;
      hide OpenOk;
      hide ClosedOk;
      while streams.Keys != {}
        invariant Valid() && last == old(last) && Freed(streams0, world0, streams, world)
        decreases |streams.Keys|
      {
        var id :| id in streams.Keys;
        FreedStep(streams0, world0, streams, world, id);
        FreeStream(id);
      }
      FreedActivation(streams0, world0, world);
    }

    static lemma FreedActivation(streams0: map<nat, Stream>, world0: map<nat, Record>, world: map<nat, Record>)
      requires Freed(streams0, world0, map[], world)
      ensures world.Keys == world0.Keys
      ensures forall id :: id in world0 ==> world[id].activated == world0[id].activated
    {
    }

    method FreeStream(id: nat)
      requires Valid() && id in streams
      modifies this
      ensures Valid() && streams == old(streams) - {id} && last == old(last)
      ensures world == old(world)[id := Abandoned(old(streams[id]), old(world[id]))]
    {
      var s := streams[id];
      if s.active {
        world := world[id := world[id].(calls := world[id].calls + [ERROR_NET])];
      }
      streams := streams - {id};
      CloseFile(id, s, ERROR_NET);
    }
  }
}
