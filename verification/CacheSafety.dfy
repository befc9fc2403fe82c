/** What every step of the cache keeps, and what follows for every run. */
module CacheSafety {
  import opened Cache

  // ---- the invariant ----

  predicate HasLock(p: Phase) {
    p.Scan? || p.Claim? || p.Out? || p.Linked? || p.Leave?
  }

  /** The element is in the thread's hands and in no list. */
  predicate Owns(th: Thread, e: nat) {
    || (th.phase.Out? && th.phase.e == e)
    || (th.phase.Detached? && th.phase.e == e)
    || (th.op.Add? && th.op.e == e && (th.phase.Wait? || th.phase.Scan?))
  }

  /** The element is in its list, but its timer is in the thread's hands. */
  predicate Claims(th: Thread, e: nat) {
    || (th.phase.Claim? && th.phase.e == e)
    || (th.op.Add? && th.op.e == e && th.phase.Linked?)
  }

  predicate InList(s: State, e: nat)
    requires WellShaped(s) && e < |s.elems|
  {
    e in s.lists[Bucket(s.elems[e].hash)]
  }

  ghost predicate ElemOk(H: Hasher, s: State, e: nat)
    requires WellShaped(s) && e < |s.elems|
  {
    var x := s.elems[e];
    && x.hash == H(x.key)
    && (x.timer.Armed? ==> x.place.Listed?)
    && (x.timer.Running? ==> e in s.due || s.threads[0].op == Fire(e))
    && match x.place
       case Listed => x.live && x.returned == 0 && x.freed == 0 && !x.timer.Unset? && InList(s, e)
       case Claimed(t) => x.live && x.returned == 0 && x.freed == 0 && InList(s, e)
                          && t < |s.threads| && Claims(s.threads[t], e)
       case Owned(t) => x.live && x.returned == 0 && x.freed == 0 && t < |s.threads| && Owns(s.threads[t], e)
       case Returned(op) => !x.live && x.returned == 1 && x.freed == 0 && x.timer.Unset? && op == Get(x.key)
       case Freed(op) => !x.live && x.returned == 0 && x.freed == 1 && x.timer.Unset? && FreedFor(op, e, x.key)
  }

  /** Why a value may be freed: its own add has a limit, its key is deleted or selected by a
      clean, or its own timer is called. */
  predicate FreedFor(op: Op, e: nat, key: Key) {
    match op
    case Add(k, limit, x) => k == key && limit > 0 && x == e
    case Del(k) => k == key
    case Clean(which, _) => Selected(which, key)
    case Fire(x) => x == e
    case _ => false
  }

  ghost predicate ItemOk(s: State, b: nat, i: nat)
    requires b < |s.lists| && i < |s.lists[b]|
  {
    var e := s.lists[b][i];
    e < |s.elems| && Bucket(s.elems[e].hash) == b && (s.elems[e].place.Listed? || s.elems[e].place.Claimed?)
  }

  ghost predicate Distinct(list: seq<nat>) {
    forall i, j :: 0 <= i < j < |list| ==> list[i] != list[j]
  }

  ghost predicate ListOk(s: State, b: nat)
    requires b < |s.lists|
  {
    Distinct(s.lists[b]) && forall i :: 0 <= i < |s.lists[b]| ==> ItemOk(s, b, i)
  }

  /** A timer that has been dispatched and not yet called. */
  ghost predicate DueOk(s: State, i: nat)
    requires i < |s.due|
  {
    var e := s.due[i];
    e < |s.elems| && s.elems[e].timer.Running? && s.elems[e].place.Listed?
  }

  /** How many elements of a list have a key. */
  function Count(elems: seq<Element>, list: seq<nat>, key: Key): nat {
    if |list| == 0 then 0
    else Count(elems, list[..|list| - 1], key) +
         (if list[|list| - 1] < |elems| && elems[list[|list| - 1]].key == key then 1 else 0)
  }

  /** Everything an operation matches among the first i elements is already expiring. */
  ghost predicate Passed(H: Hasher, elems: seq<Element>, list: seq<nat>, op: Op, i: nat) {
    forall j :: 0 <= j < i && j < |list| && list[j] < |elems| && Match(H, op, elems[list[j]])
      ==> elems[list[j]].timer.Running?
  }

  ghost predicate OpOk(H: Hasher, s: State, t: nat)
    requires t < |s.threads|
  {
    var th := s.threads[t];
    && (th.phase.Idle? <==> th.op.None?)
    && (th.op.Clean? ==> th.op.h < BUCKETS)
    && (th.op.Add? ==> th.op.e < |s.elems| && s.elems[th.op.e].key == th.op.key)
    && (th.op.Fire? ==>
          && t == 0 && th.op.e < |s.elems| && s.elems[th.op.e].timer.Running? && th.op.e !in s.due
          && !th.phase.Scan? && !th.phase.Leave?)
    && (th.phase.Linked? ==> th.op.Add?)
  }

  /** An element in hand is the thread's own, and one the operation is after. */
  ghost predicate HandOk(H: Hasher, s: State, t: nat, e: nat, place: Place)
    requires t < |s.threads|
  {
    var op := s.threads[t].op;
    && e < |s.elems| && s.elems[e].place == place && Bucket(s.elems[e].hash) == Home(H, s, op)
    && (op.Get? || op.Del? || op.Clean? ==> Match(H, op, s.elems[e]))
    && (op.Fire? ==> op.e == e)
    && (!op.Fire? ==> s.elems[e].timer.Unset?)
    && (op.Add? ==> op.e == e)
  }

  ghost predicate ThreadOk(H: Hasher, s: State, t: nat)
    requires WellShaped(s) && t < |s.threads|
  {
    var th := s.threads[t];
    var op := th.op;
    var list := s.lists[Home(H, s, op)];
    && OpOk(H, s, t)
    && (HasLock(th.phase) ==> s.locks[LockOf(H, s, op)] == By(t))
    && match th.phase
       case Idle => true
       case Wait =>
         && (op.Add? ==> HandOk(H, s, t, op.e, Owned(t)))
         && (op.Fire? ==> s.elems[op.e].place.Listed?)
       case Scan(i, seen) =>
         && i <= |list|
         && (op.Add? ==> HandOk(H, s, t, op.e, Owned(t))
                         && (op.limit > 0 ==> seen == Count(s.elems, list[..i], op.key) && seen < op.limit))
         && (!op.Add? ==> Passed(H, s.elems, list, op, i))
       case Claim(e) => HandOk(H, s, t, e, Claimed(t)) && !op.Add? && ClaimAt(H, s, op, e)
       case Out(e, i) =>
         && HandOk(H, s, t, e, Owned(t))
         && (op.Clean? ==> i <= |list| && Passed(H, s.elems, list, op, i))
         && (op.Add? ==> 0 < op.limit <= Count(s.elems, list, op.key))
       case Detached(e) => HandOk(H, s, t, e, Owned(t)) && !op.Clean? && (op.Add? ==> op.limit > 0)
       case Linked => HandOk(H, s, t, op.e, Claimed(t)) && (op.limit > 0 ==> Count(s.elems, list, op.key) <= op.limit)
       case Leave =>
         && (op.Add? && op.limit > 0 ==> Count(s.elems, list, op.key) <= op.limit)
         && (!op.Add? ==> Passed(H, s.elems, list, op, |list|))
  }

  /** Before a claimed element, clean has left only expiring ones. */
  ghost predicate ClaimAt(H: Hasher, s: State, op: Op, e: nat)
    requires WellShaped(s)
  {
    var list := s.lists[Home(H, s, op)];
    op.Clean? ==> Passed(H, s.elems, list, op, Position(list, e))
  }

  ghost predicate Inv(H: Hasher, s: State) {
    && WellShaped(s) && !s.fault
    && (forall e :: 0 <= e < |s.elems| ==> ElemOk(H, s, e))
    && (forall b :: 0 <= b < BUCKETS ==> ListOk(s, b))
    && (forall i :: 0 <= i < |s.due| ==> DueOk(s, i)) && Distinct(s.due)
    && (forall t :: 0 <= t < |s.threads| ==> ThreadOk(H, s, t))
  }

  // ---- locks ----

  /** The lock an operation takes is the one of its bucket. */
  lemma HomeLock(H: Hasher, s: State, op: Op)
    ensures LockOf(H, s, op) == BucketLock(Home(H, s, op))
  {
    match op
    case None =>
    case Get(key) => LockOfBucket(H(key));
    case Add(key, _, _) => LockOfBucket(H(key));
    case Del(key) => LockOfBucket(H(key));
    case Clean(_, _) =>
    case Fire(e) =>
      if e < |s.elems| {
        LockOfBucket(s.elems[e].hash);
      }
  }

  /** No two threads are inside the same bucket. */
  lemma Exclusive(H: Hasher, s: State, t: nat, u: nat)
    requires Inv(H, s) && t < |s.threads| && u < |s.threads|
    requires HasLock(s.threads[t].phase) && HasLock(s.threads[u].phase)
    requires Home(H, s, s.threads[t].op) == Home(H, s, s.threads[u].op)
    ensures t == u
  {
    HomeLock(H, s, s.threads[t].op);
    HomeLock(H, s, s.threads[u].op);
    assert ThreadOk(H, s, t) && ThreadOk(H, s, u);
  }

  lemma InvInitially(H: Hasher, n: nat)
    requires n > 0
    ensures Inv(H, Initial(n))
  {
  }

  // ---- frames ----

  /** One step of thread t changed element e at most, and lists and locks only in the
      bucket t is in; nothing that thread u relies on. */
  ghost predicate Aside(H: Hasher, s: State, s': State, u: nat, e: nat) {
    && WellShaped(s) && WellShaped(s') && u < |s.threads| == |s'.threads| && s'.threads[u] == s.threads[u]
    && |s.elems| <= |s'.elems|
    && (forall x :: 0 <= x < |s.elems| ==> SameKey(s, s', x) && (x != e ==> s'.elems[x] == s.elems[x]))
    && (e < |s.elems| ==> s.elems[e].place != Owned(u) && s.elems[e].place != Claimed(u))
    && (s.threads[u].op == Fire(e) ==>
          e < |s.elems| && s'.elems[e].timer == s.elems[e].timer && s'.elems[e].place == s.elems[e].place)
    && (s.threads[u].op.Fire? ==> s.threads[u].op.e !in s'.due)
    && (HasLock(s.threads[u].phase) ==>
          var b := Home(H, s, s.threads[u].op);
          && s'.lists[b] == s.lists[b] && s'.locks[LockOf(H, s, s.threads[u].op)] == s.locks[LockOf(H, s, s.threads[u].op)]
          && (e < |s.elems| && e in s.lists[b] ==> (s.elems[e].timer.Running? ==> s'.elems[e].timer.Running?)))
  }

  predicate SameKey(s: State, s': State, x: nat)
    requires x < |s.elems| <= |s'.elems|
  {
    s'.elems[x].key == s.elems[x].key && s'.elems[x].hash == s.elems[x].hash
  }

  lemma {:induction false} CountSame(elems: seq<Element>, elems': seq<Element>, list: seq<nat>, key: Key)
    requires |elems| <= |elems'|
    requires forall x :: 0 <= x < |elems| ==> elems'[x].key == elems[x].key
    requires forall i :: 0 <= i < |list| ==> list[i] < |elems|
    ensures Count(elems', list, key) == Count(elems, list, key)
  {
    if |list| == 0 {
    } else {
      CountSame(elems, elems', list[..|list| - 1], key);
    }
  }

  lemma HomeSame(H: Hasher, s: State, s': State, u: nat, e: nat)
    requires Inv(H, s) && Aside(H, s, s', u, e)
    ensures Home(H, s', s.threads[u].op) == Home(H, s, s.threads[u].op)
    ensures LockOf(H, s', s.threads[u].op) == LockOf(H, s, s.threads[u].op)
  {
    assert ThreadOk(H, s, u);
    if s.threads[u].op.Fire? {
      assert SameKey(s, s', s.threads[u].op.e);
    }
  }

  lemma {:induction false} OtherThread(H: Hasher, s: State, s': State, u: nat, e: nat)
    requires Inv(H, s) && Aside(H, s, s', u, e)
    ensures ThreadOk(H, s', u)
  {
    hide Home;
    hide LockOf;
    var th := s.threads[u];
    var op := th.op;
    HomeSame(H, s, s', u, e);
    assert ThreadOk(H, s, u);
    var b := Home(H, s, op);
    var list := s.lists[b];
    if HasLock(th.phase) {
      assert ListOk(s, b);
      assert forall i :: 0 <= i < |list| ==> ItemOk(s, b, i);
      forall j | 0 <= j < |list|
        ensures list[j] < |s.elems| && SameKey(s, s', list[j])
      {
        assert ItemOk(s, b, j);
      }
      if op.Add? {
        CountSame(s.elems, s'.elems, list, op.key);
        if th.phase.Scan? {
          CountSame(s.elems, s'.elems, list[..th.phase.i], op.key);
        }
      }
    }
  }

  // ---- steps ----

  /** A step of thread t that touches no list and no element's place: the thread moves on,
      its elements stay its own. */
  ghost predicate Moves(H: Hasher, s: State, s': State, t: nat) {
    && WellShaped(s) && WellShaped(s') && t < |s.threads| == |s'.threads| && !s'.fault
    && s'.elems == s.elems && s'.lists == s.lists && s'.due == s.due
    && s'.threads == s.threads[t := s'.threads[t]]
    && (forall l :: 0 <= l < LOCKS && s.locks[l] != By(t) && !s.locks[l].Unheld? ==> s'.locks[l] == s.locks[l])
    && (forall x :: 0 <= x < |s.elems| && Owns(s.threads[t], x) ==> Owns(s'.threads[t], x))
    && (forall x :: 0 <= x < |s.elems| && Claims(s.threads[t], x) ==> Claims(s'.threads[t], x))
    && (s.threads[t].op.Fire? ==> s'.threads[t].op == s.threads[t].op)
  }

  lemma LockIsOwn(H: Hasher, s: State, t: nat, u: nat)
    requires Inv(H, s) && t < |s.threads| && u < |s.threads| && t != u && HasLock(s.threads[u].phase)
    ensures s.locks[LockOf(H, s, s.threads[u].op)] == By(u)
  {
    assert ThreadOk(H, s, u);
  }

  lemma {:induction false} MoveKeeps(H: Hasher, s: State, s': State, t: nat)
    requires Inv(H, s) && Moves(H, s, s', t) && ThreadOk(H, s', t)
    ensures Inv(H, s')
  {
    hide Home;
    hide LockOf;
    forall u | 0 <= u < |s'.threads|
      ensures ThreadOk(H, s', u)
    {
      if u != t {
        assert ThreadOk(H, s, u);
        if HasLock(s.threads[u].phase) {
          LockIsOwn(H, s, t, u);
        }
        OtherThread(H, s, s', u, |s.elems|);
      }
    }
    forall x | 0 <= x < |s'.elems|
      ensures ElemOk(H, s', x)
    {
      assert ElemOk(H, s, x);
    }
    forall b | 0 <= b < BUCKETS
      ensures ListOk(s', b)
    {
      assert ListOk(s, b);
      forall i | 0 <= i < |s'.lists[b]|
        ensures ItemOk(s', b, i)
      {
        assert ItemOk(s, b, i);
      }
    }
    forall i | 0 <= i < |s'.due|
      ensures DueOk(s', i)
    {
      assert DueOk(s, i);
    }
  }

  lemma {:induction false} BeginKeeps(H: Hasher, s: State, t: nat, r: Request)
    requires Inv(H, s) && t < |s.threads| && s.threads[t].phase.Idle? && !r.WantAdd?
    ensures Inv(H, Begin(H, s, t, r))
  {
    assert ThreadOk(H, s, t);
    MoveKeeps(H, s, Begin(H, s, t, r), t);
  }

  lemma {:induction false} EnterKeeps(H: Hasher, s: State, t: nat)
    requires Inv(H, s) && t < |s.threads| && s.threads[t].phase.Wait? && !s.threads[t].op.Fire?
    ensures Inv(H, Enter(H, s, t))
  {
    hide Home;
    hide LockOf;
    assert ThreadOk(H, s, t);
    var s' := Enter(H, s, t);
    if s' != s {
      var op := s.threads[t].op;
      SameHome(H, s, s', op);
      MoveKeeps(H, s, s', t);
    }
  }

  lemma SameHome(H: Hasher, s: State, s': State, op: Op)
    requires s.elems == s'.elems
    ensures Home(H, s', op) == Home(H, s, op) && LockOf(H, s', op) == LockOf(H, s, op)
  {
  }

  /** A step of thread t on element e, which no other thread has in hand: everything
      else stays, but the list of t's bucket, which may gain or lose e. */
  ghost predicate Affects(H: Hasher, s: State, s': State, t: nat, e: nat) {
    && WellShaped(s) && WellShaped(s') && t < |s.threads| == |s'.threads| && !s'.fault
    && s'.threads == s.threads[t := s'.threads[t]]
    && (forall l :: 0 <= l < LOCKS && s.locks[l] != By(t) && !s.locks[l].Unheld? ==> s'.locks[l] == s.locks[l])
    && e < |s.elems| == |s'.elems| && SameKey(s, s', e)
    && s'.elems == s.elems[e := s'.elems[e]]
    && (s.elems[e].place.Owned? || s.elems[e].place.Claimed? ==> s.elems[e].place.t == t)
    && (forall b :: 0 <= b < BUCKETS && b != Bucket(s.elems[e].hash) ==> s'.lists[b] == s.lists[b])
    && (forall x :: x in s'.lists[Bucket(s.elems[e].hash)] && x != e <==> x in s.lists[Bucket(s.elems[e].hash)] && x != e)
    && (s'.lists != s.lists ==> HasLock(s.threads[t].phase) && Home(H, s, s.threads[t].op) == Bucket(s.elems[e].hash))
    && (forall x :: 0 <= x < |s.elems| && x != e && Owns(s.threads[t], x) ==> Owns(s'.threads[t], x))
    && (forall x :: 0 <= x < |s.elems| && x != e && Claims(s.threads[t], x) ==> Claims(s'.threads[t], x))
    && (s.threads[t].op.Fire? ==> s.threads[t].op.e == e)
    && (e in s.lists[Bucket(s.elems[e].hash)] && s.elems[e].timer.Running? ==> s'.elems[e].timer.Running?)
    && s'.due == s.due
  }

  lemma InBucket(H: Hasher, s: State, b: nat, e: nat)
    requires Inv(H, s) && b < BUCKETS && e in s.lists[b]
    ensures e < |s.elems| && Bucket(s.elems[e].hash) == b && (s.elems[e].place.Listed? || s.elems[e].place.Claimed?)
  {
    var i :| 0 <= i < |s.lists[b]| && s.lists[b][i] == e;
    assert ListOk(s, b);
    assert ItemOk(s, b, i);
  }

  lemma {:induction false} AffectsOthers(H: Hasher, s: State, s': State, t: nat, e: nat, u: nat)
    requires Inv(H, s) && Affects(H, s, s', t, e) && u < |s.threads| && u != t
    requires s.threads[0].op == Fire(e) && t != 0 ==>
               s'.elems[e].timer == s.elems[e].timer && s'.elems[e].place == s.elems[e].place
    ensures ThreadOk(H, s', u)
  {
    hide Home;
    hide LockOf;
    assert ThreadOk(H, s, u) && ThreadOk(H, s, t);
    if HasLock(s.threads[u].phase) && HasLock(s.threads[t].phase) && Home(H, s, s.threads[u].op) == Home(H, s, s.threads[t].op) {
      Exclusive(H, s, t, u);
    }
    if HasLock(s.threads[u].phase) {
      LockIsOwn(H, s, t, u);
    }
    if e in s.lists[Home(H, s, s.threads[u].op)] {
      InBucket(H, s, Home(H, s, s.threads[u].op), e);
    }
    assert Aside(H, s, s', u, e);
    OtherThread(H, s, s', u, e);
  }

  lemma {:induction false} AffectKeeps(H: Hasher, s: State, s': State, t: nat, e: nat)
    requires Inv(H, s) && Affects(H, s, s', t, e)
    requires s.threads[0].op == Fire(e) && t != 0 ==>
               s'.elems[e].timer == s.elems[e].timer && s'.elems[e].place == s.elems[e].place
    requires ThreadOk(H, s', t) && ElemOk(H, s', e) && ListOk(s', Bucket(s.elems[e].hash))
    requires s'.elems[e].place.Listed? || s'.elems[e].place.Claimed? || !InList(s, e) || HasLock(s.threads[t].phase)
    requires e in s.due ==> s'.elems[e].timer.Running? && s'.elems[e].place.Listed?
    ensures Inv(H, s')
  {
    hide Home;
    hide LockOf;
    forall u | 0 <= u < |s'.threads|
      ensures ThreadOk(H, s', u)
    {
      if u != t {
        AffectsOthers(H, s, s', t, e, u);
      }
    }
    forall x | 0 <= x < |s'.elems|
      ensures ElemOk(H, s', x)
    {
      assert ElemOk(H, s, x);
    }
    forall b | 0 <= b < BUCKETS
      ensures ListOk(s', b)
    {
      assert ListOk(s, b);
      if b != Bucket(s.elems[e].hash) {
        forall i | 0 <= i < |s'.lists[b]|
          ensures ItemOk(s', b, i)
        {
          assert ItemOk(s, b, i);
        }
      }
    }
    forall i | 0 <= i < |s'.due|
      ensures DueOk(s', i)
    {
      assert DueOk(s, i);
    }
  }

  // ---- the steps of one thread ----

  lemma {:induction false} PassedOne(H: Hasher, elems: seq<Element>, list: seq<nat>, op: Op, i: nat)
    requires i < |list| && Passed(H, elems, list, op, i)
    requires list[i] < |elems| && Match(H, op, elems[list[i]]) ==> elems[list[i]].timer.Running?
    ensures Passed(H, elems, list, op, i + 1)
  {
  }

  lemma {:induction false} CountOne(elems: seq<Element>, list: seq<nat>, key: Key, i: nat)
    requires i < |list|
    ensures Count(elems, list[..i + 1], key)
         == Count(elems, list[..i], key) + (if list[i] < |elems| && elems[list[i]].key == key then 1 else 0)
  {
    assert list[..i + 1][..i] == list[..i];
  }

  lemma {:induction false} CountPrefix(elems: seq<Element>, list: seq<nat>, key: Key, i: nat)
    requires i <= |list|
    ensures Count(elems, list[..i], key) <= Count(elems, list, key)
  {
    if i == |list| {
      assert list[..i] == list;
    } else {
      assert list[..|list| - 1][..i] == list[..i];
      CountPrefix(elems, list[..|list| - 1], key, i);
    }
  }

  /** An element met by a scan is listed: a claimed one would be in the scanner's hands. */
  lemma {:induction false} ScannedIsListed(H: Hasher, s: State, t: nat, i: nat)
    requires Inv(H, s) && t < |s.threads| && s.threads[t].phase.Scan?
    requires i < |s.lists[Home(H, s, s.threads[t].op)]|
    ensures var x := s.lists[Home(H, s, s.threads[t].op)][i];
            x < |s.elems| && s.elems[x].live && s.elems[x].place.Listed? && !s.elems[x].timer.Unset?
            && Bucket(s.elems[x].hash) == Home(H, s, s.threads[t].op) && s.elems[x].hash == H(s.elems[x].key)
  {
    hide LockOf;
    var b := Home(H, s, s.threads[t].op);
    var x := s.lists[b][i];
    assert ThreadOk(H, s, t);
    assert ListOk(s, b);
    assert ItemOk(s, b, i);
    assert ElemOk(H, s, x);
    if s.elems[x].place.Claimed? {
      var u := s.elems[x].place.t;
      assert ThreadOk(H, s, u);
      Exclusive(H, s, t, u);
    }
  }

  lemma {:induction false} VisitKeeps(H: Hasher, s: State, t: nat, i: nat)
    requires Inv(H, s) && t < |s.threads| && s.threads[t].phase.Scan? && s.threads[t].phase.i == i && !s.threads[t].op.Add?
    ensures Inv(H, Visit(H, s, t, i))
  {
    hide Home;
    hide LockOf;
    var op := s.threads[t].op;
    var b := Home(H, s, op);
    var list := s.lists[b];
    var s' := Visit(H, s, t, i);
    assert ThreadOk(H, s, t);
    if i < |list| {
      ScannedIsListed(H, s, t, i);
      var e := list[i];
      var x := s.elems[e];
      if !Match(H, op, x) || x.timer.Running? {
        PassedOne(H, s.elems, list, op, i);
        SameHome(H, s, s', op);
        MoveKeeps(H, s, s', t);
      } else {
        ClaimKeeps(H, s, t, i);
      }
    } else {
      SameHome(H, s, s', op);
      MoveKeeps(H, s, s', t);
    }
  }

  lemma {:induction false} ClaimKeeps(H: Hasher, s: State, t: nat, i: nat)
    requires Inv(H, s) && t < |s.threads| && s.threads[t].phase.Scan? && s.threads[t].phase.i == i && !s.threads[t].op.Add?
    requires var list := s.lists[Home(H, s, s.threads[t].op)];
             i < |list| && list[i] < |s.elems| && s.elems[list[i]].live && s.elems[list[i]].place.Listed?
             && Match(H, s.threads[t].op, s.elems[list[i]]) && s.elems[list[i]].timer.Armed?
    ensures Inv(H, Visit(H, s, t, i))
  {
    hide Home;
    hide LockOf;
    var op := s.threads[t].op;
    var b := Home(H, s, op);
    var list := s.lists[b];
    var e := list[i];
    var s' := Visit(H, s, t, i);
    assert ThreadOk(H, s, t);
    ScannedIsListed(H, s, t, i);
    HomeOfNonFire(H, s, s', op);
    assert ListOk(s, b);
    assert forall k :: 0 <= k < |list| ==> ItemOk(s, b, k);
    assert Position(list, e) == i by {
      assert Distinct(list);
    }
    assert ElemOk(H, s, e);
    assert ListOk(s', b) by {
      forall k | 0 <= k < |list|
        ensures ItemOk(s', b, k)
      {
        assert ItemOk(s, b, k);
      }
    }
    NotDue(H, s, e);
    assert op.Clean? ==> Passed(H, s'.elems, list, op, i);
    AffectKeeps(H, s, s', t, e);
  }

  lemma HomeOfNonFire(H: Hasher, s: State, s': State, op: Op)
    requires !op.Fire?
    ensures Home(H, s', op) == Home(H, s, op) && LockOf(H, s', op) == LockOf(H, s, op)
  {
  }

  lemma NotDue(H: Hasher, s: State, e: nat)
    requires Inv(H, s) && e < |s.elems| && !s.elems[e].timer.Running?
    ensures e !in s.due && s.threads[0].op != Fire(e)
  {
    forall i | 0 <= i < |s.due|
      ensures s.due[i] != e
    {
      assert DueOk(s, i);
    }
    assert ThreadOk(H, s, 0);
  }

  // ---- add ----

  lemma {:induction false} TallyKeeps(H: Hasher, s: State, t: nat, i: nat, seen: nat)
    requires Inv(H, s) && t < |s.threads| && s.threads[t].phase == Scan(i, seen) && s.threads[t].op.Add?
    ensures Inv(H, Tally(H, s, t, i, seen))
  {
    hide Home;
    hide LockOf;
    var op := s.threads[t].op;
    var list := s.lists[Home(H, s, op)];
    var s' := Tally(H, s, t, i, seen);
    assert ThreadOk(H, s, t);
    if op.limit == 0 || i >= |list| {
      LinkKeeps(H, s, t, i, seen);
    } else {
      ScannedIsListed(H, s, t, i);
      CountOne(s.elems, list, op.key, i);
      CountPrefix(s.elems, list, op.key, i + 1);
      SameHome(H, s, s', op);
      MoveKeeps(H, s, s', t);
    }
  }

  lemma {:induction false} CountHead(elems: seq<Element>, e: nat, list: seq<nat>, key: Key)
    requires e < |elems|
    ensures Count(elems, [e] + list, key) == Count(elems, list, key) + (if elems[e].key == key then 1 else 0)
    decreases |list|
  {
    if |list| == 0 {
      assert [e] + list == [e];
      assert ([e])[..0] == list;
    } else {
      var n := |list| - 1;
      assert ([e] + list)[..|list|] == [e] + list[..n];
      CountHead(elems, e, list[..n], key);
    }
  }

  /** A new element at the head: at most the limit, since the whole list was counted. */
  lemma {:induction false} LinkKeeps(H: Hasher, s: State, t: nat, i: nat, seen: nat)
    requires Inv(H, s) && t < |s.threads| && s.threads[t].phase == Scan(i, seen) && s.threads[t].op.Add?
    requires s.threads[t].op.limit == 0 || i >= |s.lists[Home(H, s, s.threads[t].op)]|
    ensures Inv(H, Tally(H, s, t, i, seen))
  {
    hide Home;
    hide LockOf;
    var op := s.threads[t].op;
    var e := op.e;
    var b := Home(H, s, op);
    var list := s.lists[b];
    var s' := Tally(H, s, t, i, seen);
    assert ThreadOk(H, s, t);
    assert ElemOk(H, s, e);
    HomeOfNonFire(H, s, s', op);
    assert ListOk(s, b);
    NotInLists(H, s, e);
    LinkedList(s, s', b, e);
    if op.limit > 0 {
      assert list[..i] == list;
      CountHead(s.elems, e, list, op.key);
      KnownItems(H, s, b);
      assert s'.lists[b] == [e] + list;
      CountSame(s.elems, s'.elems, [e] + list, op.key);
    }
    NotDue(H, s, e);
    AffectKeeps(H, s, s', t, e);
  }

  lemma KnownItems(H: Hasher, s: State, b: nat)
    requires Inv(H, s) && b < BUCKETS
    ensures forall i :: 0 <= i < |s.lists[b]| ==> s.lists[b][i] < |s.elems|
  {
    assert ListOk(s, b);
    forall i | 0 <= i < |s.lists[b]|
      ensures s.lists[b][i] < |s.elems|
    {
      assert ItemOk(s, b, i);
    }
  }

  lemma NotInLists(H: Hasher, s: State, e: nat)
    requires Inv(H, s) && e < |s.elems| && !s.elems[e].place.Listed? && !s.elems[e].place.Claimed?
    ensures forall b :: 0 <= b < BUCKETS ==> e !in s.lists[b]
  {
    forall b | 0 <= b < BUCKETS
      ensures e !in s.lists[b]
    {
      if e in s.lists[b] {
        InBucket(H, s, b, e);
      }
    }
  }

  lemma LinkedList(s: State, s': State, b: nat, e: nat)
    requires WellShaped(s) && WellShaped(s') && b < BUCKETS && ListOk(s, b) && e !in s.lists[b]
    requires s'.lists[b] == [e] + s.lists[b] && e < |s.elems| == |s'.elems| && s'.elems == s.elems[e := s'.elems[e]]
    requires Bucket(s'.elems[e].hash) == b && s'.elems[e].place.Claimed?
    ensures ListOk(s', b)
  {
    var list, list' := s.lists[b], s'.lists[b];
    forall i | 0 <= i < |list'|
      ensures ItemOk(s', b, i)
    {
      if i > 0 {
        assert list'[i] == list[i - 1];
        assert ItemOk(s, b, i - 1);
      }
    }
    forall i, j | 0 <= i < j < |list'|
      ensures list'[i] != list'[j]
    {
      if i > 0 {
        assert list[i - 1] != list[j - 1];
      } else {
        assert list'[j] == list[j - 1];
      }
    }
  }

  lemma {:induction false} ArmKeeps(H: Hasher, s: State, t: nat)
    requires Inv(H, s) && t < |s.threads| && s.threads[t].phase.Linked?
    ensures Inv(H, ArmTimer(s, t))
  {
    hide Home;
    hide LockOf;
    var op := s.threads[t].op;
    assert ThreadOk(H, s, t);
    var e := op.e;
    var b := Home(H, s, op);
    var s' := ArmTimer(s, t);
    assert ElemOk(H, s, e);
    HomeOfNonFire(H, s, s', op);
    SameItems(H, s, s', b, e);
    KnownItems(H, s, b);
    CountSame(s.elems, s'.elems, s.lists[b], op.key);
    NotDue(H, s, e);
    AffectKeeps(H, s, s', t, e);
  }

  /** An element stays in its list when only its timer or its claim changes. */
  lemma SameItems(H: Hasher, s: State, s': State, b: nat, e: nat)
    requires Inv(H, s) && WellShaped(s') && b < BUCKETS && e < |s.elems| == |s'.elems|
    requires s'.lists[b] == s.lists[b] && s'.elems == s.elems[e := s'.elems[e]] && SameKey(s, s', e)
    requires s'.elems[e].place.Listed? || s'.elems[e].place.Claimed?
    ensures ListOk(s', b)
  {
    assert ListOk(s, b);
    forall k | 0 <= k < |s.lists[b]|
      ensures ItemOk(s', b, k)
    {
      assert ItemOk(s, b, k);
    }
  }

  // ---- taking out ----

  lemma {:induction false} UnlinkKeeps(H: Hasher, s: State, t: nat, e: nat)
    requires Inv(H, s) && t < |s.threads| && s.threads[t].phase == Claim(e)
    ensures Inv(H, Unlink(H, s, t, e))
  {
    hide Home;
    hide LockOf;
    var op := s.threads[t].op;
    var b := Home(H, s, op);
    var list := s.lists[b];
    var s' := Unlink(H, s, t, e);
    assert ThreadOk(H, s, t);
    assert ElemOk(H, s, e);
    var i := Position(list, e);
    assert ListOk(s, b);
    SameHomeKeys(H, s, s', op);
    UnlinkedList(s, s', b, i);
    NotDueWhenClaimed(H, s, e);
    assert ThreadOk(H, s, 0);
    UnlinkAffects(H, s, t, e);
    UnlinkThread(H, s, t, e);
    AffectKeeps(H, s, s', t, e);
  }

  lemma {:induction false} UnlinkThread(H: Hasher, s: State, t: nat, e: nat)
    requires Inv(H, s) && t < |s.threads| && s.threads[t].phase == Claim(e)
    ensures ThreadOk(H, Unlink(H, s, t, e), t)
  {
    hide Home;
    hide LockOf;
    var op := s.threads[t].op;
    var b := Home(H, s, op);
    var list := s.lists[b];
    var s' := Unlink(H, s, t, e);
    assert ThreadOk(H, s, t);
    assert ElemOk(H, s, e);
    var i := Position(list, e);
    SameHomeKeys(H, s, s', op);
    if op.Clean? {
      assert s'.lists[b][..i] == list[..i];
      assert Passed(H, s'.elems, s'.lists[b], op, i);
    }
  }

  lemma {:induction false} UnlinkAffects(H: Hasher, s: State, t: nat, e: nat)
    requires Inv(H, s) && t < |s.threads| && s.threads[t].phase == Claim(e)
    ensures Affects(H, s, Unlink(H, s, t, e), t, e)
  {
    hide Home;
    hide LockOf;
    var b := Home(H, s, s.threads[t].op);
    var s' := Unlink(H, s, t, e);
    assert ThreadOk(H, s, t);
    assert ElemOk(H, s, e);
    assert ListOk(s, b);
    UnlinkedList(s, s', b, Position(s.lists[b], e));
  }

  lemma SameHomeKeys(H: Hasher, s: State, s': State, op: Op)
    requires |s.elems| <= |s'.elems| && forall x :: 0 <= x < |s.elems| ==> SameKey(s, s', x)
    requires op.Fire? ==> op.e < |s.elems|
    ensures Home(H, s', op) == Home(H, s, op) && LockOf(H, s', op) == LockOf(H, s, op)
  {
    if op.Fire? {
      assert SameKey(s, s', op.e);
    }
  }

  lemma NotDueWhenClaimed(H: Hasher, s: State, e: nat)
    requires Inv(H, s) && e < |s.elems| && !s.elems[e].place.Listed?
    ensures e !in s.due
  {
    forall i | 0 <= i < |s.due|
      ensures s.due[i] != e
    {
      assert DueOk(s, i);
    }
  }

  lemma UnlinkedList(s: State, s': State, b: nat, i: nat)
    requires WellShaped(s) && WellShaped(s') && b < BUCKETS && ListOk(s, b) && i < |s.lists[b]|
    requires s'.lists[b] == Without(s.lists[b], i) && |s.elems| == |s'.elems|
    requires forall x :: 0 <= x < |s.elems| && x != s.lists[b][i] ==> s'.elems[x] == s.elems[x]
    ensures ListOk(s', b)
    ensures forall x :: x in s'.lists[b] <==> x in s.lists[b] && x != s.lists[b][i]
  {
    var list, list' := s.lists[b], s'.lists[b];
    forall k | 0 <= k < |list'|
      ensures ItemOk(s', b, k)
    {
      var k' := if k < i then k else k + 1;
      assert list'[k] == list[k'];
      assert ItemOk(s, b, k');
    }
    forall x | x in list && x != list[i]
      ensures x in list'
    {
      var k :| 0 <= k < |list| && list[k] == x;
      assert list'[if k < i then k else k - 1] == x;
    }
  }

  /** A value in a thread's hands is handed out or freed, and the element with it. */
  lemma {:induction false} LetGoKeeps(H: Hasher, s: State, s': State, t: nat, e: nat)
    requires Inv(H, s) && t < |s.threads| && Owns(s.threads[t], e) && e < |s.elems|
    requires s.elems[e].place == Owned(t)
    requires WellShaped(s') && |s'.threads| == |s.threads| && |s'.elems| == |s.elems| && !s'.fault
    requires s'.lists == s.lists && s'.locks == s.locks && s'.due == s.due
    requires s'.threads == s.threads[t := s'.threads[t]] && s'.elems == s.elems[e := s'.elems[e]]
    requires var x, op := s.elems[e], s.threads[t].op;
             || (s'.elems[e] == x.(live := false, timer := Unset, freed := 1, place := Freed(op)) && FreedFor(op, e, x.key))
             || (s'.elems[e] == x.(live := false, timer := Unset, returned := 1, place := Returned(op)) && op == Get(x.key))
    requires forall x :: 0 <= x < |s.elems| && Owns(s.threads[t], x) ==> x == e
    requires forall x :: 0 <= x < |s.elems| ==> !Claims(s.threads[t], x)
    requires s.threads[t].op.Fire? ==> s.threads[t].op.e == e
    requires ThreadOk(H, s', t)
    ensures Inv(H, s')
  {
    hide Home;
    hide LockOf;
    assert ElemOk(H, s, e);
    var b := Bucket(s.elems[e].hash);
    NotInLists(H, s, e);
    NotDueWhenClaimed(H, s, e);
    assert ThreadOk(H, s, 0) && ThreadOk(H, s, t);
    assert ListOk(s, b);
    assert ListOk(s', b) by {
      forall i | 0 <= i < |s.lists[b]|
        ensures ItemOk(s', b, i)
      {
        assert ItemOk(s, b, i);
      }
    }
    if t != 0 && s.threads[0].op == Fire(e) {
      FireHasIt(H, s, e, t);
    }
    AffectKeeps(H, s, s', t, e);
  }

  /** What the timer thread expires is in no other thread's hands. */
  lemma {:induction false} FireHasIt(H: Hasher, s: State, e: nat, t: nat)
    requires Inv(H, s) && t < |s.threads| && e < |s.elems| && s.threads[0].op == Fire(e)
    requires s.elems[e].place == Owned(t) || s.elems[e].place == Claimed(t)
    ensures t == 0
  {
    assert ThreadOk(H, s, 0) && ThreadOk(H, s, t) && ElemOk(H, s, e);
  }

  lemma {:induction false} TakeOutKeeps(H: Hasher, s: State, t: nat, e: nat, i: nat)
    requires Inv(H, s) && t < |s.threads| && s.threads[t].phase == Out(e, i)
    ensures Inv(H, TakeOut(H, s, t, e, i))
  {
    hide Home;
    hide LockOf;
    var op := s.threads[t].op;
    var s' := TakeOut(H, s, t, e, i);
    assert ThreadOk(H, s, t);
    assert ElemOk(H, s, e);
    if op.Clean? {
      var b := Home(H, s, op);
      HomeOfNonFire(H, s, s', op);
      NotInLists(H, s, e);
      assert Passed(H, s'.elems, s.lists[b], op, i);
      LetGoKeeps(H, s, s', t, e);
    } else {
      SameHome(H, s, s', op);
      MoveKeeps(H, s, s', t);
    }
  }

  lemma {:induction false} DeliverKeeps(H: Hasher, s: State, t: nat, e: nat)
    requires Inv(H, s) && t < |s.threads| && s.threads[t].phase == Detached(e)
    ensures Inv(H, Deliver(s, t, e))
  {
    hide Home;
    hide LockOf;
    assert ThreadOk(H, s, t);
    assert ElemOk(H, s, e);
    LetGoKeeps(H, s, Deliver(s, t, e), t, e);
  }

  lemma {:induction false} ExitKeeps(H: Hasher, s: State, t: nat)
    requires Inv(H, s) && t < |s.threads| && s.threads[t].phase.Leave?
    ensures Inv(H, Exit(H, s, t))
  {
    hide Home;
    hide LockOf;
    assert ThreadOk(H, s, t);
    MoveKeeps(H, s, Exit(H, s, t), t);
  }

  // ---- starting ----

  lemma {:induction false} AddStarts(H: Hasher, s: State, t: nat, key: Key, limit: nat)
    requires Inv(H, s) && t < |s.threads| && s.threads[t].phase.Idle?
    ensures Inv(H, Begin(H, s, t, WantAdd(key, limit)))
  {
    hide LockOf;
    var s' := Begin(H, s, t, WantAdd(key, limit));
    var e := |s.elems|;
    assert ThreadOk(H, s, t);
    assert s'.elems[e].hash == H(key);
    forall u | 0 <= u < |s'.threads|
      ensures ThreadOk(H, s', u)
    {
      if u != t {
        assert ThreadOk(H, s, u);
        OtherThread(H, s, s', u, e);
      }
    }
    forall x | 0 <= x < |s'.elems|
      ensures ElemOk(H, s', x)
    {
      if x < e {
        assert ElemOk(H, s, x);
      }
    }
    OldLists(H, s, s');
    forall i | 0 <= i < |s'.due|
      ensures DueOk(s', i)
    {
      assert DueOk(s, i);
    }
  }

  /** Lists and places of known elements are as they were. */
  lemma OldLists(H: Hasher, s: State, s': State)
    requires Inv(H, s) && WellShaped(s') && s'.lists == s.lists && |s.elems| <= |s'.elems|
    requires forall x :: 0 <= x < |s.elems| ==> SameKey(s, s', x) && s'.elems[x].place == s.elems[x].place
    ensures forall b :: 0 <= b < BUCKETS ==> ListOk(s', b)
  {
    forall b | 0 <= b < BUCKETS
      ensures ListOk(s', b)
    {
      assert ListOk(s, b);
      forall i | 0 <= i < |s'.lists[b]|
        ensures ItemOk(s', b, i)
      {
        assert ItemOk(s, b, i);
      }
    }
  }

  lemma {:induction false} DispatchKeeps(H: Hasher, s: State, e: nat)
    requires Inv(H, s) && e < |s.elems| && s.elems[e].timer.Armed? && s.threads[0].phase.Idle?
    ensures Inv(H, Put(s, e, s.elems[e].(timer := Running)).(due := s.due + [e]))
  {
    hide LockOf;
    hide Home;
    var s' := Put(s, e, s.elems[e].(timer := Running)).(due := s.due + [e]);
    assert ElemOk(H, s, e);
    NotDue(H, s, e);
    forall u | 0 <= u < |s'.threads|
      ensures ThreadOk(H, s', u)
    {
      assert ThreadOk(H, s, u);
      OtherThread(H, s, s', u, e);
    }
    forall x | 0 <= x < |s'.elems|
      ensures ElemOk(H, s', x)
    {
      assert ElemOk(H, s, x);
      assert x in s.due ==> x in s'.due;
    }
    OldLists(H, s, s');
    forall i | 0 <= i < |s'.due|
      ensures DueOk(s', i)
    {
      if i < |s.due| {
        assert DueOk(s, i);
      }
    }
  }

  lemma {:induction false} FireStarts(H: Hasher, s: State)
    requires Inv(H, s) && s.threads[0].phase.Idle? && |s.due| > 0
    ensures Inv(H, Goto(s.(due := s.due[1..]), 0, Thread(Fire(s.due[0]), Wait)))
  {
    hide LockOf;
    hide Home;
    var e := s.due[0];
    var s' := Goto(s.(due := s.due[1..]), 0, Thread(Fire(e), Wait));
    assert DueOk(s, 0);
    assert ThreadOk(H, s, 0);
    assert e !in s'.due;
    forall u | 0 <= u < |s'.threads|
      ensures ThreadOk(H, s', u)
    {
      if u != 0 {
        assert ThreadOk(H, s, u);
        OtherThread(H, s, s', u, |s.elems|);
      }
    }
    forall x | 0 <= x < |s'.elems|
      ensures ElemOk(H, s', x)
    {
      assert ElemOk(H, s, x);
      assert s.due == [e] + s'.due;
    }
    OldLists(H, s, s');
    forall i | 0 <= i < |s'.due|
      ensures DueOk(s', i)
    {
      assert DueOk(s, i + 1);
    }
  }

  lemma {:induction false} FireEnters(H: Hasher, s: State, t: nat)
    requires Inv(H, s) && t < |s.threads| && s.threads[t].phase.Wait? && s.threads[t].op.Fire?
    ensures Inv(H, Enter(H, s, t))
  {
    hide Home;
    hide LockOf;
    var op := s.threads[t].op;
    var s' := Enter(H, s, t);
    assert ThreadOk(H, s, t);
    var e := op.e;
    assert ElemOk(H, s, e);
    if s' != s {
      var b := Bucket(s.elems[e].hash);
      FireHome(H, s, s', e);
      SameItems(H, s, s', b, e);
      AffectKeeps(H, s, s', t, e);
    }
  }

  lemma FireHome(H: Hasher, s: State, s': State, e: nat)
    requires e < |s.elems| == |s'.elems| && SameKey(s, s', e)
    ensures Home(H, s, Fire(e)) == Home(H, s', Fire(e)) == Bucket(s.elems[e].hash)
    ensures LockOf(H, s, Fire(e)) == LockOf(H, s', Fire(e))
  {
  }

  // ---- every run ----

  lemma {:induction false} AdvanceKeeps(H: Hasher, s: State, t: nat)
    requires Inv(H, s) && t < |s.threads|
    ensures Inv(H, Step(H, s, Advance(t)))
  {
    var th := s.threads[t];
    assert ThreadOk(H, s, t);
    match th.phase
    case Idle =>
      if t == 0 && |s.due| > 0 {
        FireStarts(H, s);
      }
    case Wait =>
      if th.op.Fire? {
        FireEnters(H, s, t);
      } else {
        EnterKeeps(H, s, t);
      }
    case Scan(i, seen) =>
      if th.op.Add? {
        TallyKeeps(H, s, t, i, seen);
      } else {
        VisitKeeps(H, s, t, i);
      }
    case Claim(e) => UnlinkKeeps(H, s, t, e);
    case Out(e, i) => TakeOutKeeps(H, s, t, e, i);
    case Detached(e) => DeliverKeeps(H, s, t, e);
    case Linked => ArmKeeps(H, s, t);
    case Leave => ExitKeeps(H, s, t);
  }

  lemma {:induction false} StepKeeps(H: Hasher, s: State, a: Action)
    requires Inv(H, s)
    ensures Inv(H, Step(H, s, a))
  {
    match a
    case Start(t, r) =>
      if t < |s.threads| && s.threads[t].phase.Idle? && (t != 0 || |s.due| == 0) {
        if r.WantAdd? {
          AddStarts(H, s, t, r.key, r.limit);
        } else {
          BeginKeeps(H, s, t, r);
        }
      }
    case Dispatch(e) =>
      if e < |s.elems| && s.elems[e].timer.Armed? && s.threads[0].phase.Idle? {
        DispatchKeeps(H, s, e);
      }
    case Advance(t) =>
      if t < |s.threads| {
        AdvanceKeeps(H, s, t);
      }
  }

  lemma {:induction false} RunInv(H: Hasher, n: nat, run: seq<Action>)
    requires n > 0
    ensures Inv(H, Run(H, n, run))
    decreases |run|
  {
    hide Inv;
    hide Step;
    if |run| == 0 {
      InvInitially(H, n);
    } else {
      var before := run[..|run| - 1];
      RunInv(H, n, before);
      StepKeeps(H, Run(H, n, before), run[|run| - 1]);
    }
  }

  // ---- theorems ----

  /** A thread has the value of element e in its hands, outside every list. */
  predicate InHand(s: State, t: nat, e: nat)
    requires t < |s.threads|
  {
    Owns(s.threads[t], e)
  }

  /** No run frees or uses anything twice, takes an element out of a list it is not in,
      or releases a lock it does not hold. */
  lemma {:induction false} NoFault(H: Hasher, n: nat, run: seq<Action>)
    requires n > 0
    ensures !Run(H, n, run).fault
  {
    RunInv(H, n, run);
  }

  /**
   In every reachable state each value ever added is in exactly one place: in its
   bucket's list, in one thread's hands, returned once, or freed once.
   */
  lemma {:induction false} ExactlyOnePlace(H: Hasher, n: nat, run: seq<Action>, e: nat)
    requires n > 0 && e < |Run(H, n, run).elems|
    ensures var s := Run(H, n, run);
            var x := s.elems[e];
            var listed := InList(s, e);
            && x.returned + x.freed <= 1
            && (listed ==> x.returned + x.freed == 0 && forall t :: 0 <= t < |s.threads| ==> !InHand(s, t, e))
            && (forall t :: 0 <= t < |s.threads| && InHand(s, t, e) ==> x.returned + x.freed == 0)
            && (forall t, u :: 0 <= t < |s.threads| && 0 <= u < |s.threads| && InHand(s, t, e) && InHand(s, u, e) ==> t == u)
            && (listed || (exists t :: 0 <= t < |s.threads| && InHand(s, t, e)) || x.returned + x.freed == 1)
            && (forall b :: 0 <= b < BUCKETS && e in s.lists[b] ==> b == Bucket(x.hash))
            && Distinct(s.lists[Bucket(x.hash)])
  {
    RunInv(H, n, run);
    var s := Run(H, n, run);
    var x := s.elems[e];
    assert ElemOk(H, s, e);
    assert ListOk(s, Bucket(x.hash));
    forall t | 0 <= t < |s.threads| && InHand(s, t, e)
      ensures x.place == Owned(t)
    {
      assert ThreadOk(H, s, t);
    }
    forall b | 0 <= b < BUCKETS && e in s.lists[b]
      ensures b == Bucket(x.hash) && (x.place.Listed? || x.place.Claimed?)
    {
      InBucket(H, s, b, e);
    }
    match x.place
    case Owned(t) => assert InHand(s, t, e);
    case _ =>
  }

  /** What get returns was added under the key it was asked for. */
  lemma {:induction false} GetReturnsItsKey(H: Hasher, n: nat, run: seq<Action>, t: nat)
    requires n > 0 && t < |Run(H, n, run).threads|
    requires Run(H, n, run).threads[t].op.Get? && Run(H, n, run).threads[t].phase.Detached?
    ensures var s := Run(H, n, run);
            var e := s.threads[t].phase.e;
            e < |s.elems| && s.elems[e].live && s.elems[e].key == s.threads[t].op.key
  {
    RunInv(H, n, run);
    var s := Run(H, n, run);
    assert ThreadOk(H, s, t);
    assert ElemOk(H, s, s.threads[t].phase.e);
  }

  predicate HasKey(s: State, e: nat, key: Key) {
    e < |s.elems| && s.elems[e].key == key
  }

  /** When an accepted add with a limit gives up its lock, its bucket has at most that
      many entries for the key, and no other bucket has any. */
  lemma {:induction false} LimitHolds(H: Hasher, n: nat, run: seq<Action>, t: nat)
    requires n > 0 && t < |Run(H, n, run).threads|
    requires Run(H, n, run).threads[t].phase.Leave? && Run(H, n, run).threads[t].op.Add?
    requires Run(H, n, run).threads[t].op.limit > 0
    ensures var s := Run(H, n, run);
            var op := s.threads[t].op;
            && Count(s.elems, s.lists[Bucket(H(op.key))], op.key) <= op.limit
            && forall b, i :: 0 <= b < BUCKETS && 0 <= i < |s.lists[b]| && HasKey(s, s.lists[b][i], op.key)
                 ==> b == Bucket(H(op.key))
  {
    RunInv(H, n, run);
    var s := Run(H, n, run);
    assert ThreadOk(H, s, t);
    forall b, i | 0 <= b < BUCKETS && 0 <= i < |s.lists[b]| && HasKey(s, s.lists[b][i], s.threads[t].op.key)
      ensures b == Bucket(H(s.threads[t].op.key))
    {
      assert ListOk(s, b);
      assert ItemOk(s, b, i);
      assert ElemOk(H, s, s.lists[b][i]);
    }
  }

  /** An add is refused only at its limit: when it gives up, its bucket has that many entries
      for the key already. An add without a limit is never refused. */
  lemma {:induction false} RefusedAtLimit(H: Hasher, n: nat, run: seq<Action>, t: nat)
    requires n > 0 && t < |Run(H, n, run).threads|
    requires Run(H, n, run).threads[t].phase.Out? && Run(H, n, run).threads[t].op.Add?
    ensures var s := Run(H, n, run);
            var op := s.threads[t].op;
            0 < op.limit <= Count(s.elems, s.lists[Bucket(H(op.key))], op.key)
  {
    RunInv(H, n, run);
    assert ThreadOk(H, Run(H, n, run), t);
  }

  /** Every value that is gone went for a reason: to a get of its key, or it was freed by
      its own add with a limit, by a del of its key, by a clean that selects its key, or by
      its own timer. */
  lemma {:induction false} GoneForAReason(H: Hasher, n: nat, run: seq<Action>, e: nat)
    requires n > 0 && e < |Run(H, n, run).elems|
    ensures var x := Run(H, n, run).elems[e];
            && (x.returned > 0 ==> x.place == Returned(Get(x.key)) && x.freed == 0)
            && (x.freed > 0 ==> x.place.Freed? && FreedFor(x.place.op, e, x.key) && x.returned == 0)
  {
    RunInv(H, n, run);
    assert ElemOk(H, Run(H, n, run), e);
  }

  /** When get finds nothing, when del ends, and when clean leaves a bucket, every entry
      of the bucket they were after is already expiring. */
  lemma {:induction false} ScanComplete(H: Hasher, n: nat, run: seq<Action>, t: nat, i: nat)
    requires n > 0 && t < |Run(H, n, run).threads|
    requires var s := Run(H, n, run);
             && s.threads[t].phase.Leave? && !s.threads[t].op.Add?
             && i < |s.lists[Home(H, s, s.threads[t].op)]|
    ensures var s := Run(H, n, run);
            var op := s.threads[t].op;
            var e := s.lists[Home(H, s, op)][i];
            e < |s.elems| && (Match(H, op, s.elems[e]) ==> s.elems[e].timer.Running?)
  {
    RunInv(H, n, run);
    var s := Run(H, n, run);
    var b := Home(H, s, s.threads[t].op);
    assert ThreadOk(H, s, t);
    assert ListOk(s, b);
    assert ItemOk(s, b, i);
  }

  /** With no thread at work and no timer to call nothing is lost: every value ever added
      is cached under an armed timer, was returned, or was freed. */
  lemma {:induction false} NothingLost(H: Hasher, n: nat, run: seq<Action>, e: nat)
    requires n > 0 && e < |Run(H, n, run).elems|
    requires |Run(H, n, run).due| == 0
    requires forall t :: 0 <= t < |Run(H, n, run).threads| ==> Run(H, n, run).threads[t].phase.Idle?
    ensures var s := Run(H, n, run);
            var x := s.elems[e];
            || (InList(s, e) && x.timer.Armed? && x.returned + x.freed == 0)
            || (!InList(s, e) && x.returned + x.freed == 1)
  {
    RunInv(H, n, run);
    var s := Run(H, n, run);
    assert ElemOk(H, s, e);
    forall t | 0 <= t < |s.threads|
      ensures !Owns(s.threads[t], e) && !Claims(s.threads[t], e) && s.threads[t].op.None?
    {
      assert ThreadOk(H, s, t);
    }
    if InList(s, e) {
      InBucket(H, s, Bucket(s.elems[e].hash), e);
    }
  }
}
