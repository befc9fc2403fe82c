/**
 The object cache: hash buckets guarded by striped locks, entries that expire by timer,
 and several threads that interleave between any two steps. A step is what one thread
 does between two points where another thread could be scheduled.
 */
module Cache {

  const BUCKETS := 2048
  const LOCKS := 8
  const WORD := 0x1_0000_0000

  type Key = seq<char>
  type Hash = h: nat | h < WORD

  /** hash_to_bucket and hash_to_lock on a 32-bit hash: the product wraps. */
  function Bucket(h: Hash): (b: nat)
    ensures b < BUCKETS
  {
    h % 2048
  }

  function Lock(h: Hash): (l: nat)
    ensures l < LOCKS
  {
    h * 8 % 0x1_0000_0000 / 2048 % 8
  }

  /** hash_to_lock on the bucket index, as the clean loops use it: no wrap. */
  function BucketLock(b: nat): (l: nat)
    requires b < BUCKETS
    ensures l < LOCKS
  {
    b * 8 / 2048 % 8
  }

  /** A bucket is guarded by one lock, whichever way the lock is computed. */
  lemma LockOfBucket(h: Hash)
    ensures Lock(h) == BucketLock(Bucket(h))
  {
    var q, r, w := h / 2048, h % 2048, h * 8 / 0x1_0000_0000;
    WrappedProduct(h, q, r, w);
    BlockDiv(8 * q - 0x20_0000 * w, 8 * r);
    BlockMod(q - 0x4_0000 * w, r * 8 / 2048);
  }

  lemma WrappedProduct(h: nat, q: nat, r: nat, w: nat)
    requires h == 2048 * q + r && w == h * 8 / 0x1_0000_0000
    ensures h * 8 % 0x1_0000_0000 == 2048 * (8 * q - 0x20_0000 * w) + 8 * r
  {
  }

  lemma BlockDiv(a: int, b: nat)
    ensures (2048 * a + b) / 2048 == a + b / 2048
  {
  }

  lemma BlockMod(a: int, b: nat)
    ensures (8 * a + b) % 8 == b % 8
  {
  }

  // ---- state ----

  datatype Timer = Unset | Armed | Running

  /** Where an element is. Bookkeeping for the proofs: no step reads it. */
  datatype Place = Listed | Claimed(t: nat) | Owned(t: nat) | Returned(op: Op) | Freed(op: Op)

  /** A hash element with the value given to one call of add; how often that value has
      been returned by get and how often its free callback has been called. */
  datatype Element = Element(key: Key, hash: Hash, live: bool, timer: Timer, returned: nat, freed: nat, place: Place)

  datatype Selection = All | StartingWith(prefixes: seq<Key>)

  datatype Op =
    | None
    | Get(key: Key)
    | Add(key: Key, limit: nat, e: nat)
    | Del(key: Key)
    | Clean(which: Selection, h: nat)
    | Fire(e: nat)

  /** Idle; waiting for the lock; scanning the bucket; an element of the list claimed by
      stopping its timer; an element taken out, lock held; the same, lock released; a new
      element linked, its timer not yet set; nothing left but to release the lock. */
  datatype Phase = Idle | Wait | Scan(i: nat, seen: nat) | Claim(e: nat) | Out(e: nat, i: nat) | Detached(e: nat) | Linked | Leave

  datatype Thread = Thread(op: Op, phase: Phase)
  datatype Holder = Unheld | By(t: nat)

  /** Thread 0 is the timer thread; due is its list of timers to call. A fault is an
      access to an element or timer that has been freed, the removal of an element from
      a list it is not in, or the release of a lock that is not held. */
  datatype State = State(elems: seq<Element>, lists: seq<seq<nat>>, locks: seq<Holder>, threads: seq<Thread>,
                         due: seq<nat>, fault: bool)

  type Hasher = Key -> Hash

  function Initial(n: nat): State
    requires n > 0
  {
    State([], seq(BUCKETS, i => []), seq(LOCKS, i => Unheld), seq(n, i => Thread(None, Idle)), [], false)
  }

  // ---- steps ----

  datatype Request = WantGet(key: Key) | WantAdd(key: Key, limit: nat) | WantDel(key: Key) | WantClean(which: Selection)

  datatype Action = Start(t: nat, r: Request) | Dispatch(e: nat) | Advance(t: nat)

  predicate WellShaped(s: State) {
    |s.lists| == BUCKETS && |s.locks| == LOCKS && |s.threads| > 0
  }

  /** The bucket an operation works on, and the lock it takes. */
  function Home(H: Hasher, s: State, op: Op): (b: nat)
    ensures b < BUCKETS
  {
    match op
    case None => 0
    case Get(key) => Bucket(H(key))
    case Add(key, _, _) => Bucket(H(key))
    case Del(key) => Bucket(H(key))
    case Clean(_, h) => if h < BUCKETS then h else 0
    case Fire(e) => if e < |s.elems| then Bucket(s.elems[e].hash) else 0
  }

  function LockOf(H: Hasher, s: State, op: Op): (l: nat)
    ensures l < LOCKS
  {
    match op
    case None => 0
    case Get(key) => Lock(H(key))
    case Add(key, _, _) => Lock(H(key))
    case Del(key) => Lock(H(key))
    case Clean(_, h) => if h < BUCKETS then BucketLock(h) else 0
    case Fire(e) => if e < |s.elems| then Lock(s.elems[e].hash) else BucketLock(0)
  }

  predicate Selected(which: Selection, key: Key) {
    which.All? || exists i :: 0 <= i < |which.prefixes| && which.prefixes[i] <= key
  }

  predicate Match(H: Hasher, op: Op, x: Element) {
    match op
    case Clean(which, _) => Selected(which, x.key)
    case Fire(_) => false
    case None => false
    case _ => x.hash == H(op.key) && x.key == op.key
  }

  function Position(list: seq<nat>, e: nat): (i: nat)
    ensures i <= |list|
    ensures i < |list| <==> e in list
    ensures i < |list| ==> list[i] == e
  {
    if |list| == 0 then 0 else if list[0] == e then 0 else 1 + Position(list[1..], e)
  }

  function Without(list: seq<nat>, i: nat): seq<nat>
    requires i < |list|
  {
    list[..i] + list[i + 1..]
  }

  function Goto(s: State, t: nat, th: Thread): State
    requires t < |s.threads|
  {
    s.(threads := s.threads[t := th])
  }

  function Put(s: State, e: nat, x: Element): State
    requires e < |s.elems|
  {
    s.(elems := s.elems[e := x])
  }

  function Fault(s: State): State {
    s.(fault := true)
  }

  /** The value is handed to the caller of get and the element freed. */
  function HandOut(s: State, e: nat, op: Op): State {
    if e >= |s.elems| || !s.elems[e].live then Fault(s)
    else
      var x := s.elems[e];
      Put(s, e, x.(live := false, returned := x.returned + 1, place := Returned(op)))
  }

  /** The free callback is called on the value and the element freed; an expiring
      element's own timer is stopped as well. */
  function Discard(s: State, e: nat, op: Op): State {
    if e >= |s.elems| || !s.elems[e].live then Fault(s)
    else
      var x := s.elems[e];
      Put(s, e, x.(live := false, timer := Unset, freed := x.freed + 1, place := Freed(op)))
  }

  function Unlock(H: Hasher, s: State, t: nat, op: Op): State
    requires WellShaped(s)
  {
    var l := LockOf(H, s, op);
    if s.locks[l] == By(t) then s.(locks := s.locks[l := Unheld]) else Fault(s)
  }

  function Step(H: Hasher, s: State, a: Action): State
    requires WellShaped(s)
  {
    match a
    case Start(t, r) =>
      if t < |s.threads| && s.threads[t].phase.Idle? && (t != 0 || |s.due| == 0) then Begin(H, s, t, r) else s
    case Dispatch(e) =>
      if e < |s.elems| && s.elems[e].timer.Armed? && s.threads[0].phase.Idle?
      then Put(s, e, s.elems[e].(timer := Running)).(due := s.due + [e])
      else s
    case Advance(t) =>
      if t >= |s.threads| then s
      else
        match s.threads[t].phase
        case Idle => if t == 0 && |s.due| > 0 then Goto(s.(due := s.due[1..]), 0, Thread(Fire(s.due[0]), Wait)) else s
        case Wait => Enter(H, s, t)
        case Scan(i, seen) => if s.threads[t].op.Add? then Tally(H, s, t, i, seen) else Visit(H, s, t, i)
        case Claim(e) => Unlink(H, s, t, e)
        case Out(e, i) => TakeOut(H, s, t, e, i)
        case Detached(e) => Deliver(s, t, e)
        case Linked => ArmTimer(s, t)
        case Leave => Exit(H, s, t)
  }

  function Begin(H: Hasher, s: State, t: nat, r: Request): State
    requires t < |s.threads|
  {
    match r
    case WantGet(key) => Goto(s, t, Thread(Get(key), Wait))
    case WantDel(key) => Goto(s, t, Thread(Del(key), Wait))
    case WantClean(which) => Goto(s, t, Thread(Clean(which, 0), Wait))
    case WantAdd(key, limit) =>
      var x := Element(key, H(key), true, Unset, 0, 0, Owned(t));
      Goto(s.(elems := s.elems + [x]), t, Thread(Add(key, limit, |s.elems|), Wait))
  }

  /** pthread_mutex_lock: nothing happens while another thread has the lock. */
  function Enter(H: Hasher, s: State, t: nat): State
    requires WellShaped(s) && t < |s.threads|
  {
    var op := s.threads[t].op;
    var l := LockOf(H, s, op);
    if !s.locks[l].Unheld? then s
    else
      var s1 := s.(locks := s.locks[l := By(t)]);
      if op.Fire? then
        if op.e < |s.elems| && s.elems[op.e].live
        then Goto(Put(s1, op.e, s.elems[op.e].(place := Claimed(t))), t, Thread(op, Claim(op.e)))
        else Fault(s)
      else Goto(s1, t, Thread(op, Scan(0, 0)))
  }

  /** One element of get's, del's or clean's scan: a matching element whose timer could
      be stopped is claimed, one that is already expiring is passed over. */
  function Visit(H: Hasher, s: State, t: nat, i: nat): State
    requires WellShaped(s) && t < |s.threads|
  {
    var op := s.threads[t].op;
    var list := s.lists[Home(H, s, op)];
    if i >= |list| then Goto(s, t, Thread(op, Leave))
    else if list[i] >= |s.elems| || !s.elems[list[i]].live then Fault(s)
    else
      var x := s.elems[list[i]];
      if !Match(H, op, x) || x.timer.Running? then Goto(s, t, Thread(op, Scan(i + 1, 0)))
      else if x.timer.Unset? then Fault(s)
      else Goto(Put(s, list[i], x.(timer := Unset, place := Claimed(t))), t, Thread(op, Claim(list[i])))
  }

  /** One element of add's scan: it gives up at the limit, and links at the end. */
  function Tally(H: Hasher, s: State, t: nat, i: nat, seen: nat): State
    requires WellShaped(s) && t < |s.threads| && s.threads[t].op.Add?
  {
    var op := s.threads[t].op;
    var b := Home(H, s, op);
    var list := s.lists[b];
    if op.e >= |s.elems| then Fault(s)
    else if op.limit == 0 || i >= |list| then
      Goto(Put(s.(lists := s.lists[b := [op.e] + list]), op.e, s.elems[op.e].(place := Claimed(t))), t, Thread(op, Linked))
    else if list[i] >= |s.elems| || !s.elems[list[i]].live then Fault(s)
    else if !Match(H, op, s.elems[list[i]]) then Goto(s, t, Thread(op, Scan(i + 1, seen)))
    else if seen + 1 == op.limit then Goto(s, t, Thread(op, Out(op.e, 0)))
    else Goto(s, t, Thread(op, Scan(i + 1, seen + 1)))
  }

  /** psync_list_del. */
  function Unlink(H: Hasher, s: State, t: nat, e: nat): State
    requires WellShaped(s) && t < |s.threads|
  {
    var op := s.threads[t].op;
    var b := Home(H, s, op);
    var i := Position(s.lists[b], e);
    if e >= |s.elems| || i >= |s.lists[b]| then Fault(s)
    else
      Goto(Put(s.(lists := s.lists[b := Without(s.lists[b], i)]), e, s.elems[e].(place := Owned(t))), t, Thread(op, Out(e, i)))
  }

  /** Clean frees the value under the lock and goes on; the others release the lock. */
  function TakeOut(H: Hasher, s: State, t: nat, e: nat, i: nat): State
    requires WellShaped(s) && t < |s.threads|
  {
    var op := s.threads[t].op;
    if op.Clean? then Goto(Discard(s, e, op), t, Thread(op, Scan(i, 0)))
    else Goto(Unlock(H, s, t, op), t, Thread(op, Detached(e)))
  }

  /** Get returns the value; del frees it and starts again; add frees the refused value;
      an expired value is freed. */
  function Deliver(s: State, t: nat, e: nat): State
    requires t < |s.threads|
  {
    var op := s.threads[t].op;
    match op
    case Get(_) => Goto(HandOut(s, e, op), t, Thread(None, Idle))
    case Del(_) => Goto(Discard(s, e, op), t, Thread(op, Wait))
    case _ => Goto(Discard(s, e, op), t, Thread(None, Idle))
  }

  function ArmTimer(s: State, t: nat): State
    requires t < |s.threads|
  {
    var op := s.threads[t].op;
    if !op.Add? || op.e >= |s.elems| || !s.elems[op.e].live then Fault(s)
    else Goto(Put(s, op.e, s.elems[op.e].(timer := Armed, place := Listed)), t, Thread(op, Leave))
  }

  function Exit(H: Hasher, s: State, t: nat): State
    requires WellShaped(s) && t < |s.threads|
  {
    var op := s.threads[t].op;
    var s1 := Unlock(H, s, t, op);
    if op.Clean? && op.h + 1 < BUCKETS then Goto(s1, t, Thread(Clean(op.which, op.h + 1), Wait))
    else Goto(s1, t, Thread(None, Idle))
  }

  lemma StepShape(H: Hasher, s: State, a: Action)
    requires WellShaped(s)
    ensures WellShaped(Step(H, s, a))
  {
    hide Match;
    hide Home;
    hide LockOf;
    hide Tally;
    hide Visit;
    hide Unlink;
    hide TakeOut;
    if a.Advance? && a.t < |s.threads| {
      match s.threads[a.t].phase
      case Scan(i, seen) => ScanShape(H, s, a.t, i, seen);
      case Claim(e) => UnlinkShape(H, s, a.t, e);
      case Out(e, i) => TakeOutShape(H, s, a.t, e, i);
      case _ =>
    }
  }

  lemma ScanShape(H: Hasher, s: State, t: nat, i: nat, seen: nat)
    requires WellShaped(s) && t < |s.threads|
    ensures WellShaped(if s.threads[t].op.Add? then Tally(H, s, t, i, seen) else Visit(H, s, t, i))
  {
    hide Match;
    hide Home;
  }

  lemma UnlinkShape(H: Hasher, s: State, t: nat, e: nat)
    requires WellShaped(s) && t < |s.threads|
    ensures WellShaped(Unlink(H, s, t, e))
  {
    hide Home;
    hide Position;
    hide Without;
  }

  lemma TakeOutShape(H: Hasher, s: State, t: nat, e: nat, i: nat)
    requires WellShaped(s) && t < |s.threads|
    ensures WellShaped(TakeOut(H, s, t, e, i))
  {
    hide LockOf;
  }

  /** The state after a run, from n threads and an empty cache. */
  function Run(H: Hasher, n: nat, run: seq<Action>): (s: State)
    requires n > 0
    ensures WellShaped(s)
  {
    if |run| == 0 then Initial(n)
    else
      var s := Run(H, n, run[..|run| - 1]);
      StepShape(H, s, run[|run| - 1]);
      Step(H, s, run[|run| - 1])
  }
}
