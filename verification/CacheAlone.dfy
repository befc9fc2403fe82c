/**
 What each operation does when no other thread is at work: the meaning the interleaved
 runs are about. It starts from any reachable state in which all threads are idle and no
 timer is being called.
 */
module CacheAlone {
  import opened Cache
  import opened CacheSafety
  import opened CacheProgress

  // ---- turns of one thread ----

  function Alone(H: Hasher, s: State, t: nat, n: nat): State
    requires WellShaped(s)
    decreases n
  {
    if n == 0 then s
    else
      StepShape(H, s, Advance(t));
      Alone(H, Step(H, s, Advance(t)), t, n - 1)
  }

  /** With turns of thread t alone one state becomes the other. */
  ghost predicate Leads(H: Hasher, s: State, t: nat, s': State) {
    WellShaped(s) && exists n: nat :: Alone(H, s, t, n) == s'
  }

  lemma LeadsStays(H: Hasher, s: State, t: nat)
    requires WellShaped(s)
    ensures Leads(H, s, t, s)
  {
    assert Alone(H, s, t, 0) == s;
  }

  lemma {:induction false} LeadsOn(H: Hasher, s: State, t: nat, m: State, s': State)
    requires WellShaped(s) && m == Step(H, s, Advance(t)) && Leads(H, m, t, s')
    ensures Leads(H, s, t, s')
  {
    hide Step;
    var n: nat :| Alone(H, m, t, n) == s';
    var n' := n + 1;
    assert Alone(H, s, t, n') == s';
  }

  lemma {:induction false} LeadsTrans(H: Hasher, a: State, t: nat, b: State, c: State)
    requires Leads(H, a, t, b) && Leads(H, b, t, c)
    ensures Leads(H, a, t, c)
  {
    hide Step;
    var m: nat :| Alone(H, a, t, m) == b;
    AloneLeads(H, a, t, m, c);
  }

  lemma {:induction false} AloneLeads(H: Hasher, a: State, t: nat, m: nat, c: State)
    requires WellShaped(a) && Leads(H, Alone(H, a, t, m), t, c)
    ensures Leads(H, a, t, c)
    decreases m
  {
    hide Step;
    if m > 0 {
      StepShape(H, a, Advance(t));
      var next := Step(H, a, Advance(t));
      AloneLeads(H, next, t, m - 1, c);
      LeadsOn(H, a, t, next, c);
    }
  }

  // ---- states at rest ----

  ghost predicate Entry(s: State, b: nat, i: nat)
    requires b < |s.lists| && i < |s.lists[b]|
  {
    var e := s.lists[b][i];
    e < |s.elems| && s.elems[e].live && s.elems[e].timer.Armed? && Bucket(s.elems[e].hash) == b
  }

  ghost predicate ListQuiet(s: State, b: nat)
    requires b < |s.lists|
  {
    Distinct(s.lists[b]) && forall i :: 0 <= i < |s.lists[b]| ==> Entry(s, b, i)
  }

  ghost predicate ElemQuiet(H: Hasher, s: State, e: nat)
    requires WellShaped(s) && e < |s.elems|
  {
    s.elems[e].hash == H(s.elems[e].key) && (s.elems[e].timer.Armed? ==> InList(s, e))
  }

  /** What is cached is in its bucket under an armed timer. */
  ghost predicate Quiet(H: Hasher, s: State) {
    && WellShaped(s) && !s.fault && s.due == []
    && (forall t :: 0 <= t < |s.threads| ==> s.threads[t] == Thread(None, Idle))
    && (forall l :: 0 <= l < LOCKS ==> s.locks[l] == Unheld)
    && (forall b :: 0 <= b < BUCKETS ==> ListQuiet(s, b))
    && (forall e :: 0 <= e < |s.elems| ==> ElemQuiet(H, s, e))
  }

  lemma {:induction false} QuietReached(H: Hasher, n: nat, run: seq<Action>)
    requires n > 0 && Run(H, n, run).due == []
    requires forall t :: 0 <= t < |Run(H, n, run).threads| ==> Run(H, n, run).threads[t].phase.Idle?
    ensures Quiet(H, Run(H, n, run))
  {
    hide Run;
    var s := Run(H, n, run);
    RunInv(H, n, run);
    forall t | 0 <= t < |s.threads|
      ensures s.threads[t] == Thread(None, Idle)
    {
      assert ThreadOk(H, s, t);
    }
    forall l | 0 <= l < LOCKS
      ensures s.locks[l] == Unheld
    {
      RunHeld(H, n, run, l);
    }
    forall b | 0 <= b < BUCKETS
      ensures ListQuiet(s, b)
    {
      RestingList(H, s, b);
    }
    forall e | 0 <= e < |s.elems|
      ensures ElemQuiet(H, s, e)
    {
      assert ElemOk(H, s, e);
    }
  }

  lemma {:induction false} RestingList(H: Hasher, s: State, b: nat)
    requires Inv(H, s) && b < BUCKETS && s.due == []
    requires forall t :: 0 <= t < |s.threads| ==> s.threads[t] == Thread(None, Idle)
    ensures ListQuiet(s, b)
  {
    assert ListOk(s, b);
    forall i | 0 <= i < |s.lists[b]|
      ensures Entry(s, b, i)
    {
      assert ItemOk(s, b, i);
      assert ElemOk(H, s, s.lists[b][i]);
    }
  }

  // ---- what the operations mean ----

  /** The first entry of a list that matches, from index i on. */
  function First(H: Hasher, elems: seq<Element>, list: seq<nat>, op: Op, i: nat): (k: nat)
    requires i <= |list|
    ensures i <= k <= |list|
    decreases |list| - i
  {
    if i == |list| then i
    else if list[i] < |elems| && Match(H, op, elems[list[i]]) then i
    else First(H, elems, list, op, i + 1)
  }

  /** Those that do not match, in their order. */
  function Kept(H: Hasher, elems: seq<Element>, list: seq<nat>, op: Op): seq<nat> {
    if list == [] then []
    else
      var rest := Kept(H, elems, list[1..], op);
      if list[0] < |elems| && Match(H, op, elems[list[0]]) then rest else [list[0]] + rest
  }

  /** A value that is freed, and with it its element. */
  function Dropped(x: Element, op: Op): Element {
    x.(live := false, timer := Unset, freed := x.freed + 1, place := Freed(op))
  }

  /** A clean works on one bucket after the other. */
  function At(op: Op, b: nat): Op {
    if op.Clean? then Clean(op.which, b) else op
  }

  /** Every cached value that matches is freed, nothing else changes. */
  function Purged(H: Hasher, s: State, op: Op): State {
    s.(lists := seq(|s.lists|, b requires 0 <= b < |s.lists| => Kept(H, s.elems, s.lists[b], op)),
       elems := seq(|s.elems|, e requires 0 <= e < |s.elems| =>
                  var x := s.elems[e];
                  if x.timer.Armed? && Match(H, op, x) then Dropped(x, At(op, Bucket(x.hash))) else x))
  }

  /** The first entry with the key leaves the cache and is returned; without one nothing
      changes. */
  function GetResult(H: Hasher, s: State, key: Key): State
    requires WellShaped(s)
  {
    var b := Bucket(H(key));
    var list := s.lists[b];
    var k := First(H, s.elems, list, Get(key), 0);
    if k == |list| || list[k] >= |s.elems| then s
    else
      var x := s.elems[list[k]];
      Put(s.(lists := s.lists[b := Without(list, k)]), list[k],
          x.(live := false, timer := Unset, returned := x.returned + 1, place := Returned(Get(key))))
  }

  /** The new value goes to the front of its bucket, unless the bucket has as many entries
      with the key as the limit allows; then it is freed. */
  function AddResult(H: Hasher, s: State, key: Key, limit: nat): State
    requires WellShaped(s)
  {
    var b := Bucket(H(key));
    var e := |s.elems|;
    if 0 < limit <= Count(s.elems, s.lists[b], key) then
      s.(elems := s.elems + [Element(key, H(key), false, Unset, 0, 1, Freed(Add(key, limit, e)))])
    else
      s.(elems := s.elems + [Element(key, H(key), true, Armed, 0, 0, Listed)], lists := s.lists[b := [e] + s.lists[b]])
  }

  // ---- one thread inside a bucket ----

  /** Thread t is inside bucket b of a state at rest. */
  function Inside(s: State, t: nat, b: nat, th: Thread): State
    requires WellShaped(s) && t < |s.threads| && b < BUCKETS
  {
    Goto(s.(locks := s.locks[BucketLock(b) := By(t)]), t, th)
  }

  lemma Enters(H: Hasher, s: State, t: nat, b: nat, op: Op)
    requires Quiet(H, s) && t < |s.threads| && Home(H, s, op) == b && !op.Fire? && !op.None?
    ensures Step(H, Goto(s, t, Thread(op, Wait)), Advance(t)) == Inside(s, t, b, Thread(op, Scan(0, 0)))
  {
    hide Home;
    hide LockOf;
    var s1 := Goto(s, t, Thread(op, Wait));
    SameHome(H, s, s1, op);
    HomeLock(H, s1, op);
    assert s1.threads[t := Thread(op, Scan(0, 0))] == s.threads[t := Thread(op, Scan(0, 0))];
  }

  lemma Misses(H: Hasher, s: State, t: nat, b: nat, op: Op, i: nat)
    requires Quiet(H, s) && t < |s.threads| && Home(H, s, op) == b && !op.Add?
    requires i < |s.lists[b]| && s.lists[b][i] < |s.elems| && !Match(H, op, s.elems[s.lists[b][i]])
    ensures Step(H, Inside(s, t, b, Thread(op, Scan(i, 0))), Advance(t)) == Inside(s, t, b, Thread(op, Scan(i + 1, 0)))
  {
    hide Home;
    hide Match;
    var s1 := Inside(s, t, b, Thread(op, Scan(i, 0)));
    SameHome(H, s, s1, op);
    assert ListQuiet(s, b);
    assert Entry(s, b, i);
    assert s1.threads[t := Thread(op, Scan(i + 1, 0))] == s.threads[t := Thread(op, Scan(i + 1, 0))];
  }

  lemma Finishes(H: Hasher, s: State, t: nat, b: nat, op: Op)
    requires Quiet(H, s) && t < |s.threads| && Home(H, s, op) == b && !op.Add?
    ensures Step(H, Inside(s, t, b, Thread(op, Scan(|s.lists[b]|, 0))), Advance(t)) == Inside(s, t, b, Thread(op, Leave))
  {
    hide Home;
    hide Match;
    var i := |s.lists[b]|;
    var s1 := Inside(s, t, b, Thread(op, Scan(i, 0)));
    SameHome(H, s, s1, op);
    assert s1.threads[t := Thread(op, Leave)] == s.threads[t := Thread(op, Leave)];
  }

  /** The state with entry i of bucket b taken out and in thread t's hands. */
  function Taken(s: State, t: nat, b: nat, i: nat): State
    requires WellShaped(s) && b < BUCKETS && i < |s.lists[b]| && s.lists[b][i] < |s.elems|
  {
    var e := s.lists[b][i];
    Put(s.(lists := s.lists[b := Without(s.lists[b], i)]), e, s.elems[e].(timer := Unset, place := Owned(t)))
  }

  lemma {:induction false} Hits(H: Hasher, s: State, t: nat, b: nat, op: Op, i: nat)
    requires Quiet(H, s) && t < |s.threads| && Home(H, s, op) == b && !op.Add? && !op.Fire?
    requires i < |s.lists[b]| && s.lists[b][i] < |s.elems| && Match(H, op, s.elems[s.lists[b][i]])
    ensures var e := s.lists[b][i];
            var s1 := Inside(s, t, b, Thread(op, Scan(i, 0)));
            var s2 := Step(H, s1, Advance(t));
            && WellShaped(s2)
            && Step(H, s2, Advance(t)) == Inside(Taken(s, t, b, i), t, b, Thread(op, Out(e, i)))
  {
    hide Home;
    hide LockOf;
    hide Match;
    hide Position;
    var e := s.lists[b][i];
    var s1 := Inside(s, t, b, Thread(op, Scan(i, 0)));
    SameHome(H, s, s1, op);
    assert ListQuiet(s, b);
    assert Entry(s, b, i);
    PositionAt(s.lists[b], i);
    StepShape(H, s1, Advance(t));
    var s2 := Step(H, s1, Advance(t));
    assert s2 == Goto(Put(s1, e, s.elems[e].(timer := Unset, place := Claimed(t))), t, Thread(op, Claim(e)));
    HomeOfNonFire(H, s, s2, op);
    var s3 := Step(H, s2, Advance(t));
    var goal := Inside(Taken(s, t, b, i), t, b, Thread(op, Out(e, i)));
    assert s3.elems == goal.elems;
    assert s3.threads == goal.threads;
  }

  /** The turns that take entry i out. */
  lemma {:induction false} HitLeads(H: Hasher, s: State, t: nat, b: nat, op: Op, i: nat, goal: State)
    requires Quiet(H, s) && t < |s.threads| && Home(H, s, op) == b && !op.Add? && !op.Fire?
    requires i < |s.lists[b]| && s.lists[b][i] < |s.elems| && Match(H, op, s.elems[s.lists[b][i]])
    requires Leads(H, Inside(Taken(s, t, b, i), t, b, Thread(op, Out(s.lists[b][i], i))), t, goal)
    ensures Leads(H, Inside(s, t, b, Thread(op, Scan(i, 0))), t, goal)
  {
    hide Step;
    hide Leads;
    hide Inside;
    hide Taken;
    hide Match;
    Hits(H, s, t, b, op, i);
    InsideShape(s, t, b, Thread(op, Scan(i, 0)));
    var s1 := Inside(s, t, b, Thread(op, Scan(i, 0)));
    var s2 := Step(H, s1, Advance(t));
    LeadsOn(H, s2, t, Step(H, s2, Advance(t)), goal);
    LeadsOn(H, s1, t, s2, goal);
  }

  lemma InsideShape(s: State, t: nat, b: nat, th: Thread)
    requires WellShaped(s) && t < |s.threads| && b < BUCKETS
    ensures WellShaped(Inside(s, t, b, th))
  {
  }

  /** The turns that pass over what does not match. */
  lemma {:induction false} ScanLeads(H: Hasher, s: State, t: nat, b: nat, op: Op, i: nat, goal: State)
    requires Quiet(H, s) && t < |s.threads| && Home(H, s, op) == b && !op.Add? && i <= |s.lists[b]|
    requires Leads(H, Inside(s, t, b, Thread(op, Scan(First(H, s.elems, s.lists[b], op, i), 0))), t, goal)
    ensures Leads(H, Inside(s, t, b, Thread(op, Scan(i, 0))), t, goal)
    decreases |s.lists[b]| - i
  {
    hide Step;
    hide Leads;
    hide Inside;
    hide Match;
    hide Home;
    if First(H, s.elems, s.lists[b], op, i) > i {
      assert ListQuiet(s, b);
      assert Entry(s, b, i);
      Misses(H, s, t, b, op, i);
      InsideShape(s, t, b, Thread(op, Scan(i, 0)));
      ScanLeads(H, s, t, b, op, i + 1, goal);
      LeadsOn(H, Inside(s, t, b, Thread(op, Scan(i, 0))), t, Inside(s, t, b, Thread(op, Scan(i + 1, 0))), goal);
    }
  }

  /** Leaving the bucket, with nothing taken out. */
  lemma Leaves(H: Hasher, s: State, t: nat, b: nat, op: Op)
    requires Quiet(H, s) && t < |s.threads| && Home(H, s, op) == b
    ensures Step(H, Inside(s, t, b, Thread(op, Leave)), Advance(t))
         == if op.Clean? && op.h + 1 < BUCKETS then Goto(s, t, Thread(Clean(op.which, op.h + 1), Wait)) else s
  {
    hide Home;
    hide LockOf;
    var s1 := Inside(s, t, b, Thread(op, Leave));
    SameHome(H, s, s1, op);
    HomeLock(H, s1, op);
    assert s1.locks[BucketLock(b) := Unheld] == s.locks;
    assert s1.threads[t := Thread(None, Idle)] == s.threads;
  }

  lemma Releases(H: Hasher, s: State, t: nat, b: nat, op: Op, e: nat, i: nat)
    requires Quiet(H, s) && t < |s.threads| && Home(H, s, op) == b && !op.Clean?
    ensures Step(H, Inside(s, t, b, Thread(op, Out(e, i))), Advance(t)) == Goto(s, t, Thread(op, Detached(e)))
  {
    hide Home;
    hide LockOf;
    var s1 := Inside(s, t, b, Thread(op, Out(e, i)));
    SameHome(H, s, s1, op);
    HomeLock(H, s1, op);
    assert s1.locks[BucketLock(b) := Unheld] == s.locks;
  }

  /** A state at rest without entry i of bucket b. */
  lemma {:induction false} WithoutQuiet(H: Hasher, s: State, b: nat, i: nat, x: Element)
    requires Quiet(H, s) && b < BUCKETS && i < |s.lists[b]| && s.lists[b][i] < |s.elems|
    requires x.key == s.elems[s.lists[b][i]].key && x.hash == s.elems[s.lists[b][i]].hash && x.timer.Unset?
    ensures Quiet(H, Put(s.(lists := s.lists[b := Without(s.lists[b], i)]), s.lists[b][i], x))
  {
    var e := s.lists[b][i];
    var s' := Put(s.(lists := s.lists[b := Without(s.lists[b], i)]), e, x);
    assert ListQuiet(s, b);
    assert Entry(s, b, i);
    forall c | 0 <= c < BUCKETS
      ensures ListQuiet(s', c)
    {
      RestQuiet(s, b, i, x, c);
    }
    forall y | 0 <= y < |s'.elems|
      ensures ElemQuiet(H, s', y)
    {
      assert ElemQuiet(H, s, y);
      if s'.elems[y].timer.Armed? && Bucket(s.elems[y].hash) == b {
        var k :| 0 <= k < |s.lists[b]| && s.lists[b][k] == y;
        assert Without(s.lists[b], i)[if k < i then k else k - 1] == y;
      }
    }
  }

  lemma {:induction false} RestQuiet(s: State, b: nat, i: nat, x: Element, c: nat)
    requires WellShaped(s) && b < BUCKETS && c < BUCKETS && i < |s.lists[b]| && s.lists[b][i] < |s.elems|
    requires ListQuiet(s, b) && ListQuiet(s, c)
    ensures ListQuiet(Put(s.(lists := s.lists[b := Without(s.lists[b], i)]), s.lists[b][i], x), c)
  {
    var e := s.lists[b][i];
    var s' := Put(s.(lists := s.lists[b := Without(s.lists[b], i)]), e, x);
    assert Entry(s, b, i);
    forall k | 0 <= k < |s'.lists[c]|
      ensures Entry(s', c, k)
    {
      var k' := if c != b || k < i then k else k + 1;
      assert s'.lists[c][k] == s.lists[c][k'];
      assert Entry(s, c, k');
    }
    if c == b {
      DistinctWithout(s.lists[b], i);
    }
  }

  lemma DistinctWithout(list: seq<nat>, i: nat)
    requires Distinct(list) && i < |list|
    ensures Distinct(Without(list, i))
  {
    var rest := Without(list, i);
    forall j, k | 0 <= j < k < |rest|
      ensures rest[j] != rest[k]
    {
      var j', k' := if j < i then j else j + 1, if k < i then k else k + 1;
      assert rest[j] == list[j'] && rest[k] == list[k'];
    }
  }

  // ---- get ----

  /** A get, alone, does what GetResult says. */
  lemma {:induction false} GetAlone(H: Hasher, s: State, t: nat, key: Key)
    requires Quiet(H, s) && t < |s.threads|
    ensures Leads(H, Step(H, s, Start(t, WantGet(key))), t, GetResult(H, s, key))
  {
    hide Leads;
    hide Step;
    hide Match;
    hide Inside;
    hide Taken;
    var op, b := Get(key), Bucket(H(key));
    var goal := GetResult(H, s, key);
    var s0 := Goto(s, t, Thread(op, Wait));
    GetStarts(H, s, t, key);
    var list := s.lists[b];
    var k := First(H, s.elems, list, op, 0);
    FirstMatches(H, s.elems, list, op, 0);
    Enters(H, s, t, b, op);
    InsideShape(s, t, b, Thread(op, Leave));
    InsideShape(s, t, b, Thread(op, Scan(k, 0)));
    if k == |list| {
      Finishes(H, s, t, b, op);
      Leaves(H, s, t, b, op);
      LeadsStays(H, goal, t);
      LeadsOn(H, Inside(s, t, b, Thread(op, Leave)), t, goal, goal);
      LeadsOn(H, Inside(s, t, b, Thread(op, Scan(k, 0))), t, Inside(s, t, b, Thread(op, Leave)), goal);
    } else {
      GetHits(H, s, t, key, k);
      HitLeads(H, s, t, b, op, k, goal);
    }
    ScanLeads(H, s, t, b, op, 0, goal);
    LeadsOn(H, s0, t, Inside(s, t, b, Thread(op, Scan(0, 0))), goal);
  }

  lemma GetStarts(H: Hasher, s: State, t: nat, key: Key)
    requires Quiet(H, s) && t < |s.threads|
    ensures Step(H, s, Start(t, WantGet(key))) == Goto(s, t, Thread(Get(key), Wait))
  {
  }

  lemma {:induction false} FirstMatches(H: Hasher, elems: seq<Element>, list: seq<nat>, op: Op, i: nat)
    requires i <= |list|
    ensures var k := First(H, elems, list, op, i);
            k < |list| ==> list[k] < |elems| && Match(H, op, elems[list[k]])
    decreases |list| - i
  {
    hide Match;
    if i < |list| && !(list[i] < |elems| && Match(H, op, elems[list[i]])) {
      FirstMatches(H, elems, list, op, i + 1);
    }
  }

  lemma {:induction false} GetHits(H: Hasher, s: State, t: nat, key: Key, k: nat)
    requires Quiet(H, s) && t < |s.threads| && k < |s.lists[Bucket(H(key))]| && s.lists[Bucket(H(key))][k] < |s.elems|
    requires k == First(H, s.elems, s.lists[Bucket(H(key))], Get(key), 0)
    ensures var b := Bucket(H(key));
            Leads(H, Inside(Taken(s, t, b, k), t, b, Thread(Get(key), Out(s.lists[b][k], k))), t, GetResult(H, s, key))
  {
    hide Leads;
    hide Match;
    hide Home;
    hide LockOf;
    hide First;
    hide Without;
    var op, b := Get(key), Bucket(H(key));
    var e := s.lists[b][k];
    var u := Taken(s, t, b, k);
    var goal := GetResult(H, s, key);
    assert Entry(s, b, k) by {
      assert ListQuiet(s, b);
    }
    WithoutQuiet(H, s, b, k, u.elems[e]);
    GetHome(H, u, key);
    Releases(H, u, t, b, op, e, k);
    var s1 := Goto(u, t, Thread(op, Detached(e)));
    assert Step(H, s1, Advance(t)) == goal by {
      assert s1.threads[t := Thread(None, Idle)] == s.threads;
      assert Step(H, s1, Advance(t)).elems == goal.elems;
    }
    LeadsStays(H, goal, t);
    LeadsOn(H, s1, t, goal, goal);
    LeadsOn(H, Inside(u, t, b, Thread(op, Out(e, k))), t, s1, goal);
  }

  lemma GetHome(H: Hasher, s: State, key: Key)
    ensures Home(H, s, Get(key)) == Home(H, s, Del(key)) == Bucket(H(key))
  {
  }

  // ---- del and clean ----

  ghost predicate NoMatch(H: Hasher, s: State, op: Op, b: nat)
    requires b < |s.lists|
  {
    forall i :: 0 <= i < |s.lists[b]| && s.lists[b][i] < |s.elems| ==> !Match(H, op, s.elems[s.lists[b][i]])
  }

  /** Entry i of bucket b is freed. */
  function Gone(s: State, b: nat, i: nat, op: Op): State
    requires WellShaped(s) && b < BUCKETS && i < |s.lists[b]| && s.lists[b][i] < |s.elems|
  {
    var e := s.lists[b][i];
    Put(s.(lists := s.lists[b := Without(s.lists[b], i)]), e, Dropped(s.elems[e], op))
  }

  lemma {:induction false} KeptSame(H: Hasher, elems: seq<Element>, elems': seq<Element>, list: seq<nat>, op: Op)
    requires |elems| == |elems'|
    requires forall e :: 0 <= e < |elems| ==> (Match(H, op, elems'[e]) <==> Match(H, op, elems[e]))
    ensures Kept(H, elems', list, op) == Kept(H, elems, list, op)
  {
    hide Match;
    if list != [] {
      KeptSame(H, elems, elems', list[1..], op);
    }
  }

  lemma {:induction false} KeptWithout(H: Hasher, elems: seq<Element>, list: seq<nat>, op: Op, i: nat)
    requires i < |list| && list[i] < |elems| && Match(H, op, elems[list[i]])
    ensures Kept(H, elems, Without(list, i), op) == Kept(H, elems, list, op)
  {
    hide Match;
    if i == 0 {
      assert Without(list, i) == list[1..];
    } else {
      assert Without(list, i)[1..] == Without(list[1..], i - 1);
      assert Without(list, i)[0] == list[0];
      KeptWithout(H, elems, list[1..], op, i - 1);
    }
  }

  lemma {:induction false} KeptAll(H: Hasher, elems: seq<Element>, list: seq<nat>, op: Op)
    requires forall i :: 0 <= i < |list| && list[i] < |elems| ==> !Match(H, op, elems[list[i]])
    ensures Kept(H, elems, list, op) == list
  {
    hide Match;
    if list != [] {
      assert forall i :: 0 <= i < |list[1..]| ==> list[1..][i] == list[i + 1];
      KeptAll(H, elems, list[1..], op);
    }
  }

  lemma DroppedMatches(H: Hasher, op: Op, x: Element, op': Op)
    ensures Match(H, op, Dropped(x, op')) <==> Match(H, op, x)
  {
  }

  /** Freeing one matching entry leaves what a purge comes to as it is. */
  lemma {:induction false} PurgeGone(H: Hasher, s: State, op: Op, b: nat, i: nat)
    requires Quiet(H, s) && b < BUCKETS && i < |s.lists[b]| && s.lists[b][i] < |s.elems|
    requires Match(H, op, s.elems[s.lists[b][i]])
    ensures Purged(H, Gone(s, b, i, At(op, b)), op) == Purged(H, s, op)
  {
    hide Match;
    var e := s.lists[b][i];
    var s' := Gone(s, b, i, At(op, b));
    assert Entry(s, b, i) by {
      assert ListQuiet(s, b);
    }
    DroppedMatches(H, op, s.elems[e], At(op, b));
    assert Purged(H, s', op).elems == Purged(H, s, op).elems;
    forall c | 0 <= c < BUCKETS
      ensures Kept(H, s'.elems, s'.lists[c], op) == Kept(H, s.elems, s.lists[c], op)
    {
      KeptSame(H, s.elems, s'.elems, s'.lists[c], op);
      if c == b {
        KeptWithout(H, s.elems, s.lists[b], op, i);
      }
    }
    assert Purged(H, s', op).lists == Purged(H, s, op).lists;
  }

  lemma {:induction false} PurgeNothing(H: Hasher, s: State, op: Op)
    requires Quiet(H, s) && forall b :: 0 <= b < BUCKETS ==> NoMatch(H, s, op, b)
    ensures Purged(H, s, op) == s
  {
    hide Match;
    forall b | 0 <= b < BUCKETS
      ensures Kept(H, s.elems, s.lists[b], op) == s.lists[b]
    {
      assert NoMatch(H, s, op, b);
      KeptAll(H, s.elems, s.lists[b], op);
    }
    assert Purged(H, s, op).lists == s.lists;
    forall e | 0 <= e < |s.elems|
      ensures Purged(H, s, op).elems[e] == s.elems[e]
    {
      assert ElemQuiet(H, s, e);
      if s.elems[e].timer.Armed? {
        var b := Bucket(s.elems[e].hash);
        assert NoMatch(H, s, op, b);
        var i :| 0 <= i < |s.lists[b]| && s.lists[b][i] == e;
      }
    }
    assert Purged(H, s, op).elems == s.elems;
  }

  lemma {:induction false} FirstMisses(H: Hasher, elems: seq<Element>, list: seq<nat>, op: Op, i: nat)
    requires i <= |list|
    ensures forall j :: i <= j < First(H, elems, list, op, i) && list[j] < |elems| ==> !Match(H, op, elems[list[j]])
    decreases |list| - i
  {
    hide Match;
    if i < |list| && !(list[i] < |elems| && Match(H, op, elems[list[i]])) {
      FirstMisses(H, elems, list, op, i + 1);
    }
  }

  /** All entries with a key are in its bucket. */
  lemma OneBucket(H: Hasher, s: State, key: Key, b: nat)
    requires Quiet(H, s) && b < BUCKETS && b != Bucket(H(key))
    ensures NoMatch(H, s, Del(key), b)
  {
    assert ListQuiet(s, b);
    forall i | 0 <= i < |s.lists[b]| && s.lists[b][i] < |s.elems|
      ensures !Match(H, Del(key), s.elems[s.lists[b][i]])
    {
      assert Entry(s, b, i);
    }
  }

  /** One entry is freed by del, and it starts again. */
  lemma {:induction false} DelHits(H: Hasher, s: State, t: nat, key: Key, k: nat)
    requires Quiet(H, s) && t < |s.threads| && k < |s.lists[Bucket(H(key))]| && s.lists[Bucket(H(key))][k] < |s.elems|
    requires Match(H, Del(key), s.elems[s.lists[Bucket(H(key))][k]])
    ensures var b := Bucket(H(key));
            && Leads(H, Inside(s, t, b, Thread(Del(key), Scan(k, 0))), t,
                     Goto(Gone(s, b, k, Del(key)), t, Thread(Del(key), Wait)))
            && Quiet(H, Gone(s, b, k, Del(key)))
  {
    hide Leads;
    hide Match;
    hide Home;
    hide LockOf;
    hide Without;
    var op, b := Del(key), Bucket(H(key));
    var e := s.lists[b][k];
    var u := Taken(s, t, b, k);
    var goal := Goto(Gone(s, b, k, op), t, Thread(op, Wait));
    assert Entry(s, b, k) by {
      assert ListQuiet(s, b);
    }
    WithoutQuiet(H, s, b, k, u.elems[e]);
    WithoutQuiet(H, s, b, k, Dropped(s.elems[e], op));
    GetHome(H, u, key);
    GetHome(H, s, key);
    Releases(H, u, t, b, op, e, k);
    var s1 := Goto(u, t, Thread(op, Detached(e)));
    assert Step(H, s1, Advance(t)) == goal by {
      assert s1.threads[t := Thread(op, Wait)] == goal.threads;
      assert Step(H, s1, Advance(t)).elems == goal.elems;
    }
    LeadsStays(H, goal, t);
    LeadsOn(H, s1, t, goal, goal);
    LeadsOn(H, Inside(u, t, b, Thread(op, Out(e, k))), t, s1, goal);
    HitLeads(H, s, t, b, op, k, goal);
  }

  lemma {:induction false} DelWaits(H: Hasher, s: State, t: nat, key: Key)
    requires Quiet(H, s) && t < |s.threads|
    ensures Leads(H, Goto(s, t, Thread(Del(key), Wait)), t, Purged(H, s, Del(key)))
    decreases |s.lists[Bucket(H(key))]|
  {
    hide Leads;
    hide Step;
    hide Match;
    hide Inside;
    hide Quiet;
    hide Purged;
    var op, b := Del(key), Bucket(H(key));
    var goal := Purged(H, s, op);
    QuietShape(H, s);
    var s0 := Goto(s, t, Thread(op, Wait));
    var list := s.lists[b];
    var k := First(H, s.elems, list, op, 0);
    FirstMatches(H, s.elems, list, op, 0);
    FirstMisses(H, s.elems, list, op, 0);
    GetHome(H, s, key);
    Enters(H, s, t, b, op);
    InsideShape(s, t, b, Thread(op, Leave));
    InsideShape(s, t, b, Thread(op, Scan(k, 0)));
    if k == |list| {
      forall c | 0 <= c < BUCKETS
        ensures NoMatch(H, s, op, c)
      {
        if c != b {
          OneBucket(H, s, key, c);
        }
      }
      PurgeNothing(H, s, op);
      Finishes(H, s, t, b, op);
      Leaves(H, s, t, b, op);
      LeadsStays(H, goal, t);
      LeadsOn(H, Inside(s, t, b, Thread(op, Leave)), t, goal, goal);
      LeadsOn(H, Inside(s, t, b, Thread(op, Scan(k, 0))), t, Inside(s, t, b, Thread(op, Leave)), goal);
    } else {
      var g := Gone(s, b, k, op);
      DelHits(H, s, t, key, k);
      PurgeGone(H, s, op, b, k);
      DelWaits(H, g, t, key);
      LeadsTrans(H, Inside(s, t, b, Thread(op, Scan(k, 0))), t, Goto(g, t, Thread(op, Wait)), goal);
    }
    ScanLeads(H, s, t, b, op, 0, goal);
    LeadsOn(H, s0, t, Inside(s, t, b, Thread(op, Scan(0, 0))), goal);
  }

  lemma QuietShape(H: Hasher, s: State)
    requires Quiet(H, s)
    ensures WellShaped(s)
  {
  }

  /** A del, alone, frees every entry with its key and changes nothing else. */
  lemma {:induction false} DelAlone(H: Hasher, s: State, t: nat, key: Key)
    requires Quiet(H, s) && t < |s.threads|
    ensures Leads(H, Step(H, s, Start(t, WantDel(key))), t, Purged(H, s, Del(key)))
  {
    hide Leads;
    DelWaits(H, s, t, key);
  }

  /** What is left of a bucket's entries while a clean works on it: those before index i are
      none it selects, and what a purge comes to is as it was. */
  ghost predicate Cleaning(H: Hasher, s: State, s': State, op: Op, b: nat) {
    && Quiet(H, s) && Quiet(H, s') && |s'.threads| == |s.threads| && |s'.elems| == |s.elems|
    && (forall e :: 0 <= e < |s.elems| ==> SameKey(s, s', e))
    && (forall c :: 0 <= c < BUCKETS && c != b ==> s'.lists[c] == s.lists[c])
    && Purged(H, s', op) == Purged(H, s, op)
  }

  lemma CleanHome(H: Hasher, s: State, which: Selection, b: nat)
    requires b < BUCKETS
    ensures Home(H, s, Clean(which, b)) == b
  {
  }

  /** A clean matches by key alone. */
  lemma CleanMatches(H: Hasher, which: Selection, b: nat, c: nat, x: Element, y: Element)
    requires x.key == y.key
    ensures Match(H, Clean(which, b), x) <==> Match(H, Clean(which, c), y)
  {
  }

  /** One entry is freed under the lock, and the scan goes on at the same index. */
  lemma {:induction false} CleanHits(H: Hasher, s: State, t: nat, which: Selection, b: nat, i: nat)
    requires Quiet(H, s) && t < |s.threads| && b < BUCKETS && i < |s.lists[b]| && s.lists[b][i] < |s.elems|
    requires Match(H, Clean(which, b), s.elems[s.lists[b][i]])
    ensures var op := Clean(which, b);
            && Leads(H, Inside(s, t, b, Thread(op, Scan(i, 0))), t, Inside(Gone(s, b, i, op), t, b, Thread(op, Scan(i, 0))))
            && Cleaning(H, s, Gone(s, b, i, op), op, b)
  {
    hide Leads;
    hide Match;
    hide Home;
    hide LockOf;
    hide Without;
    hide Purged;
    var op := Clean(which, b);
    var e := s.lists[b][i];
    var u, g := Taken(s, t, b, i), Gone(s, b, i, op);
    var goal := Inside(g, t, b, Thread(op, Scan(i, 0)));
    assert Entry(s, b, i) by {
      assert ListQuiet(s, b);
    }
    WithoutQuiet(H, s, b, i, Dropped(s.elems[e], op));
    CleanHome(H, s, which, b);
    var s1 := Inside(u, t, b, Thread(op, Out(e, i)));
    assert Step(H, s1, Advance(t)) == goal by {
      assert Step(H, s1, Advance(t)).threads == goal.threads;
      assert Step(H, s1, Advance(t)).elems == goal.elems;
    }
    PurgeGone(H, s, op, b, i);
    LeadsStays(H, goal, t);
    LeadsOn(H, s1, t, goal, goal);
    HitLeads(H, s, t, b, op, i, goal);
  }

  lemma {:induction false} CleanScan(H: Hasher, s: State, t: nat, which: Selection, b: nat, i: nat) returns (s': State)
    requires Quiet(H, s) && t < |s.threads| && b < BUCKETS && i <= |s.lists[b]|
    requires forall j :: 0 <= j < i && s.lists[b][j] < |s.elems| ==> !Match(H, Clean(which, b), s.elems[s.lists[b][j]])
    ensures Cleaning(H, s, s', Clean(which, b), b) && NoMatch(H, s', Clean(which, b), b)
    ensures Leads(H, Inside(s, t, b, Thread(Clean(which, b), Scan(i, 0))), t,
                  Inside(s', t, b, Thread(Clean(which, b), Leave)))
    decreases |s.lists[b]| - i
  {
    hide Leads;
    hide Step;
    hide Match;
    hide Inside;
    hide Home;
    hide Purged;
    var op := Clean(which, b);
    var list := s.lists[b];
    var here := Inside(s, t, b, Thread(op, Scan(i, 0)));
    CleanHome(H, s, which, b);
    InsideShape(s, t, b, Thread(op, Leave));
    InsideShape(s, t, b, Thread(op, Scan(i, 0)));
    if i == |list| {
      Finishes(H, s, t, b, op);
      s' := s;
      LeadsStays(H, Inside(s, t, b, Thread(op, Leave)), t);
      LeadsOn(H, here, t, Inside(s, t, b, Thread(op, Leave)), Inside(s, t, b, Thread(op, Leave)));
    } else {
      assert Entry(s, b, i) by {
        assert ListQuiet(s, b);
      }
      if Match(H, op, s.elems[list[i]]) {
        var g := Gone(s, b, i, op);
        CleanHits(H, s, t, which, b, i);
        StillMissed(H, s, op, b, i);
        s' := CleanScan(H, g, t, which, b, i);
        CleaningOn(H, s, g, s', op, b);
        LeadsTrans(H, here, t, Inside(g, t, b, Thread(op, Scan(i, 0))), Inside(s', t, b, Thread(op, Leave)));
      } else {
        Misses(H, s, t, b, op, i);
        s' := CleanScan(H, s, t, which, b, i + 1);
        LeadsOn(H, here, t, Inside(s, t, b, Thread(op, Scan(i + 1, 0))), Inside(s', t, b, Thread(op, Leave)));
      }
    }
  }

  lemma CleaningOn(H: Hasher, s: State, m: State, s': State, op: Op, b: nat)
    requires Cleaning(H, s, m, op, b) && Cleaning(H, m, s', op, b)
    ensures Cleaning(H, s, s', op, b)
  {
    hide Purged;
    hide Quiet;
    forall e | 0 <= e < |s.elems|
      ensures SameKey(s, s', e)
    {
      assert SameKey(s, m, e) && SameKey(m, s', e);
    }
  }

  lemma StillMissed(H: Hasher, s: State, op: Op, b: nat, i: nat)
    requires WellShaped(s) && b < BUCKETS && i < |s.lists[b]| && s.lists[b][i] < |s.elems|
    requires forall j :: 0 <= j < i && s.lists[b][j] < |s.elems| ==> !Match(H, op, s.elems[s.lists[b][j]])
    ensures var g := Gone(s, b, i, op);
            && i <= |g.lists[b]| < |s.lists[b]|
            && forall j :: 0 <= j < i && g.lists[b][j] < |g.elems| ==> !Match(H, op, g.elems[g.lists[b][j]])
  {
    hide Match;
    DroppedMatches(H, op, s.elems[s.lists[b][i]], op);
    var g := Gone(s, b, i, op);
    assert forall j :: 0 <= j < i ==> g.lists[b][j] == s.lists[b][j];
  }

  lemma {:induction false} StillNone(H: Hasher, s: State, s': State, which: Selection, b: nat, c: nat)
    requires Cleaning(H, s, s', Clean(which, b), b) && c < BUCKETS && c != b && NoMatch(H, s, Clean(which, c), c)
    ensures NoMatch(H, s', Clean(which, c), c)
  {
    hide Match;
    forall i | 0 <= i < |s'.lists[c]| && s'.lists[c][i] < |s'.elems|
      ensures !Match(H, Clean(which, c), s'.elems[s'.lists[c][i]])
    {
      var e := s.lists[c][i];
      assert SameKey(s, s', e);
      CleanMatches(H, which, c, c, s.elems[e], s'.elems[e]);
    }
  }

  lemma {:induction false} PurgedAnyBucket(H: Hasher, s: State, which: Selection, b: nat, c: nat)
    ensures Purged(H, s, Clean(which, b)) == Purged(H, s, Clean(which, c))
  {
    hide Match;
    var p, q := Purged(H, s, Clean(which, b)), Purged(H, s, Clean(which, c));
    forall e | 0 <= e < |s.elems|
      ensures Match(H, Clean(which, b), s.elems[e]) <==> Match(H, Clean(which, c), s.elems[e])
    {
      CleanMatches(H, which, b, c, s.elems[e], s.elems[e]);
    }
    forall l | 0 <= l < |s.lists|
      ensures p.lists[l] == q.lists[l]
    {
      KeptAnyBucket(H, s.elems, s.lists[l], which, b, c);
    }
    assert p.lists == q.lists && p.elems == q.elems;
  }

  lemma {:induction false} KeptAnyBucket(H: Hasher, elems: seq<Element>, list: seq<nat>, which: Selection, b: nat, c: nat)
    ensures Kept(H, elems, list, Clean(which, b)) == Kept(H, elems, list, Clean(which, c))
  {
    hide Match;
    if list != [] {
      if list[0] < |elems| {
        CleanMatches(H, which, b, c, elems[list[0]], elems[list[0]]);
      }
      KeptAnyBucket(H, elems, list[1..], which, b, c);
    }
  }

  lemma {:induction false} CleanWaits(H: Hasher, s: State, t: nat, which: Selection, b: nat)
    requires Quiet(H, s) && t < |s.threads| && b < BUCKETS
    requires forall c :: 0 <= c < b ==> NoMatch(H, s, Clean(which, c), c)
    ensures Leads(H, Goto(s, t, Thread(Clean(which, b), Wait)), t, Purged(H, s, Clean(which, 0)))
    decreases BUCKETS - b
  {
    hide Leads;
    hide Step;
    hide Match;
    hide Inside;
    hide Purged;
    hide Quiet;
    hide NoMatch;
    QuietShape(H, s);
    var op := Clean(which, b);
    var goal := Purged(H, s, Clean(which, 0));
    var s0 := Goto(s, t, Thread(op, Wait));
    CleanHome(H, s, which, b);
    Enters(H, s, t, b, op);
    var s' := CleanScan(H, s, t, which, b, 0);
    CleanHome(H, s', which, b);
    QuietShape(H, s');
    Leaves(H, s', t, b, op);
    PurgedAnyBucket(H, s, which, b, 0);
    PurgedAnyBucket(H, s', which, b, 0);
    forall c | 0 <= c < b
      ensures NoMatch(H, s', Clean(which, c), c)
    {
      StillNone(H, s, s', which, b, c);
    }
    InsideShape(s', t, b, Thread(op, Leave));
    var next := b + 1;
    if next < BUCKETS {
      CleanWaits(H, s', t, which, next);
      LeadsOn(H, Inside(s', t, b, Thread(op, Leave)), t, Goto(s', t, Thread(Clean(which, next), Wait)), goal);
    } else {
      NothingSelected(H, s', which);
      LeadsStays(H, goal, t);
      LeadsOn(H, Inside(s', t, b, Thread(op, Leave)), t, goal, goal);
    }
    LeadsTrans(H, Inside(s, t, b, Thread(op, Scan(0, 0))), t, Inside(s', t, b, Thread(op, Leave)), goal);
    LeadsOn(H, s0, t, Inside(s, t, b, Thread(op, Scan(0, 0))), goal);
  }

  lemma {:induction false} NothingSelected(H: Hasher, s: State, which: Selection)
    requires Quiet(H, s) && forall c :: 0 <= c < BUCKETS ==> NoMatch(H, s, Clean(which, c), c)
    ensures Purged(H, s, Clean(which, 0)) == s
  {
    hide Match;
    hide Purged;
    forall c | 0 <= c < BUCKETS
      ensures NoMatch(H, s, Clean(which, 0), c)
    {
      assert NoMatch(H, s, Clean(which, c), c);
      forall i | 0 <= i < |s.lists[c]| && s.lists[c][i] < |s.elems|
        ensures !Match(H, Clean(which, 0), s.elems[s.lists[c][i]])
      {
        CleanMatches(H, which, 0, c, s.elems[s.lists[c][i]], s.elems[s.lists[c][i]]);
      }
    }
    PurgeNothing(H, s, Clean(which, 0));
  }

  /** A clean, alone, frees every entry it selects, in all 2048 buckets, and nothing else. */
  lemma {:induction false} CleanAlone(H: Hasher, s: State, t: nat, which: Selection)
    requires Quiet(H, s) && t < |s.threads|
    ensures Leads(H, Step(H, s, Start(t, WantClean(which))), t, Purged(H, s, Clean(which, 0)))
  {
    hide Leads;
    CleanWaits(H, s, t, which, 0);
  }

  // ---- add ----

  /** The state with the new value in its thread's hands. */
  function Brought(H: Hasher, s: State, t: nat, key: Key): State {
    s.(elems := s.elems + [Element(key, H(key), true, Unset, 0, 0, Owned(t))])
  }

  lemma {:induction false} BroughtQuiet(H: Hasher, s: State, t: nat, key: Key)
    requires Quiet(H, s) && t < |s.threads|
    ensures var s1, e := Brought(H, s, t, key), |s.elems|;
            && Quiet(H, s1)
            && forall b :: 0 <= b < BUCKETS ==> Count(s1.elems, s.lists[b], key) == Count(s.elems, s.lists[b], key)
    ensures forall limit: nat :: Step(H, s, Start(t, WantAdd(key, limit)))
                         == Goto(Brought(H, s, t, key), t, Thread(Add(key, limit, |s.elems|), Wait))
  {
    var s1 := Brought(H, s, t, key);
    forall b | 0 <= b < BUCKETS
      ensures ListQuiet(s1, b) && Count(s1.elems, s.lists[b], key) == Count(s.elems, s.lists[b], key)
    {
      assert ListQuiet(s, b);
      forall i | 0 <= i < |s.lists[b]|
        ensures Entry(s1, b, i) && s.lists[b][i] < |s.elems|
      {
        assert Entry(s, b, i);
      }
      CountSame(s.elems, s1.elems, s.lists[b], key);
    }
    forall e | 0 <= e < |s1.elems|
      ensures ElemQuiet(H, s1, e)
    {
      if e < |s.elems| {
        assert ElemQuiet(H, s, e);
      }
    }
  }

  lemma AddHome(H: Hasher, s: State, key: Key, limit: nat, e: nat)
    ensures Home(H, s, Add(key, limit, e)) == Bucket(H(key))
  {
  }

  /** The new value is linked at the front, its timer set, and the lock released. */
  lemma {:induction false} AddLinks(H: Hasher, s: State, t: nat, key: Key, limit: nat, i: nat, seen: nat)
    requires Quiet(H, s) && t < |s.threads|
    requires limit == 0 || i >= |s.lists[Bucket(H(key))]|
    requires !(0 < limit <= Count(s.elems, s.lists[Bucket(H(key))], key))
    ensures Leads(H, Inside(Brought(H, s, t, key), t, Bucket(H(key)), Thread(Add(key, limit, |s.elems|), Scan(i, seen))), t,
                  AddResult(H, s, key, limit))
  {
    hide Leads;
    hide Match;
    hide Home;
    hide LockOf;
    hide Count;
    var e, b := |s.elems|, Bucket(H(key));
    var op := Add(key, limit, e);
    var u := Brought(H, s, t, key);
    var goal := AddResult(H, s, key, limit);
    var s1 := Inside(u, t, b, Thread(op, Scan(i, seen)));
    var s2, s3 := Step(H, s1, Advance(t)), Inside(goal, t, b, Thread(op, Leave));
    AddHome(H, s1, key, limit, e);
    var linked := s1.(lists := s1.lists[b := [e] + s.lists[b]]);
    assert s2 == Goto(Put(linked, e, s1.elems[e].(place := Claimed(t))), t, Thread(op, Linked));
    assert Step(H, s2, Advance(t)) == s3 by {
      assert Step(H, s2, Advance(t)).elems == goal.elems;
      assert Step(H, s2, Advance(t)).threads == s3.threads;
    }
    AddHome(H, s3, key, limit, e);
    HomeLock(H, s3, op);
    assert Step(H, s3, Advance(t)) == goal by {
      assert Step(H, s3, Advance(t)).locks == goal.locks;
      assert Step(H, s3, Advance(t)).threads == goal.threads;
    }
    LeadsStays(H, goal, t);
    LeadsOn(H, s3, t, goal, goal);
    LeadsOn(H, s2, t, s3, goal);
    LeadsOn(H, s1, t, s2, goal);
  }

  /** At the limit the lock is released and the new value freed. */
  lemma {:induction false} AddRefused(H: Hasher, s: State, t: nat, key: Key, limit: nat)
    requires Quiet(H, s) && t < |s.threads| && 0 < limit <= Count(s.elems, s.lists[Bucket(H(key))], key)
    ensures Leads(H, Inside(Brought(H, s, t, key), t, Bucket(H(key)), Thread(Add(key, limit, |s.elems|), Out(|s.elems|, 0))), t,
                  AddResult(H, s, key, limit))
  {
    hide Leads;
    hide Home;
    hide LockOf;
    hide Count;
    var e, b := |s.elems|, Bucket(H(key));
    var op := Add(key, limit, e);
    var u := Brought(H, s, t, key);
    var goal := AddResult(H, s, key, limit);
    BroughtQuiet(H, s, t, key);
    AddHome(H, u, key, limit, e);
    Releases(H, u, t, b, op, e, 0);
    var s1 := Goto(u, t, Thread(op, Detached(e)));
    assert Step(H, s1, Advance(t)) == goal by {
      assert s1.threads[t := Thread(None, Idle)] == s.threads;
      assert Step(H, s1, Advance(t)).elems == goal.elems;
    }
    LeadsStays(H, goal, t);
    LeadsOn(H, s1, t, goal, goal);
    LeadsOn(H, Inside(u, t, b, Thread(op, Out(e, 0))), t, s1, goal);
  }

  lemma {:induction false} AddScan(H: Hasher, s: State, t: nat, key: Key, limit: nat, i: nat, seen: nat)
    requires Quiet(H, s) && t < |s.threads| && i <= |s.lists[Bucket(H(key))]|
    requires limit > 0 ==> seen == Count(s.elems, s.lists[Bucket(H(key))][..i], key) < limit
    ensures Leads(H, Inside(Brought(H, s, t, key), t, Bucket(H(key)), Thread(Add(key, limit, |s.elems|), Scan(i, seen))), t,
                  AddResult(H, s, key, limit))
    decreases |s.lists[Bucket(H(key))]| - i
  {
    hide Leads;
    hide Step;
    hide Count;
    hide Quiet;
    hide AddResult;
    hide Inside;
    QuietShape(H, s);
    var b := Bucket(H(key));
    var list := s.lists[b];
    if limit == 0 || i == |list| {
      assert list[..|list|] == list;
      AddLinks(H, s, t, key, limit, i, seen);
    } else {
      var op, u, goal := Add(key, limit, |s.elems|), Brought(H, s, t, key), AddResult(H, s, key, limit);
      var s1 := Inside(u, t, b, Thread(op, Scan(i, seen)));
      AddTallies(H, s, t, key, limit, i, seen);
      CountOne(s.elems, list, key, i);
      InsideShape(u, t, b, Thread(op, Scan(i, seen)));
      if s.elems[list[i]].key != key {
        AddScan(H, s, t, key, limit, i + 1, seen);
        LeadsOn(H, s1, t, Inside(u, t, b, Thread(op, Scan(i + 1, seen))), goal);
      } else if seen + 1 == limit {
        CountPrefix(s.elems, list, key, i + 1);
        AddRefused(H, s, t, key, limit);
        LeadsOn(H, s1, t, Inside(u, t, b, Thread(op, Out(|s.elems|, 0))), goal);
      } else {
        AddScan(H, s, t, key, limit, i + 1, seen + 1);
        LeadsOn(H, s1, t, Inside(u, t, b, Thread(op, Scan(i + 1, seen + 1))), goal);
      }
    }
  }

  lemma {:induction false} AddTallies(H: Hasher, s: State, t: nat, key: Key, limit: nat, i: nat, seen: nat)
    requires Quiet(H, s) && t < |s.threads| && i < |s.lists[Bucket(H(key))]| && limit > 0
    ensures var b, e := Bucket(H(key)), s.lists[Bucket(H(key))][i];
            var op, u := Add(key, limit, |s.elems|), Brought(H, s, t, key);
            && e < |s.elems|
            && Step(H, Inside(u, t, b, Thread(op, Scan(i, seen))), Advance(t))
               == Inside(u, t, b, Thread(op, if s.elems[e].key != key then Scan(i + 1, seen)
                                             else if seen + 1 == limit then Out(|s.elems|, 0)
                                             else Scan(i + 1, seen + 1)))
  {
    hide Home;
    hide LockOf;
    var b, e := Bucket(H(key)), s.lists[Bucket(H(key))][i];
    var op, u := Add(key, limit, |s.elems|), Brought(H, s, t, key);
    var s1 := Inside(u, t, b, Thread(op, Scan(i, seen)));
    AddHome(H, s1, key, limit, |s.elems|);
    assert ListQuiet(s, b);
    assert Entry(s, b, i);
    assert ElemQuiet(H, s, e);
    assert s1.elems[e] == s.elems[e];
    assert Step(H, s1, Advance(t)).threads == s.threads[t := Step(H, s1, Advance(t)).threads[t]];
  }

  /** An add, alone, caches its value at the front of its bucket, or frees it if the bucket
      holds as many entries with the key as the limit allows. */
  lemma {:induction false} AddAlone(H: Hasher, s: State, t: nat, key: Key, limit: nat)
    requires Quiet(H, s) && t < |s.threads|
    ensures Leads(H, Step(H, s, Start(t, WantAdd(key, limit))), t, AddResult(H, s, key, limit))
  {
    hide Leads;
    hide Step;
    hide Quiet;
    hide Inside;
    hide AddResult;
    QuietShape(H, s);
    var b, op, u := Bucket(H(key)), Add(key, limit, |s.elems|), Brought(H, s, t, key);
    BroughtQuiet(H, s, t, key);
    AddHome(H, u, key, limit, |s.elems|);
    Enters(H, u, t, b, op);
    AddScan(H, s, t, key, limit, 0, 0);
    LeadsOn(H, Goto(u, t, Thread(op, Wait)), t, Inside(u, t, b, Thread(op, Scan(0, 0))), AddResult(H, s, key, limit));
  }

  // ---- expiry ----

  /** The timer of a cached value, alone: the value leaves its list and is freed. */
  lemma {:induction false} FireAlone(H: Hasher, s: State, b: nat, i: nat)
    requires Quiet(H, s) && b < BUCKETS && i < |s.lists[b]|
    ensures var e := s.lists[b][i];
            e < |s.elems| && Leads(H, Step(H, s, Dispatch(e)), 0, Gone(s, b, i, Fire(e)))
  {
    hide Leads;
    hide LockOf;
    hide Position;
    var e := s.lists[b][i];
    assert ListQuiet(s, b);
    assert Entry(s, b, i);
    var op, x, goal := Fire(e), s.elems[e], Gone(s, b, i, Fire(e));
    var s0 := Step(H, s, Dispatch(e));
    var s1 := Put(Goto(s, 0, Thread(op, Wait)), e, x.(timer := Running));
    assert Step(H, s0, Advance(0)) == s1;
    var s2 := Put(Inside(s, 0, b, Thread(op, Claim(e))), e, x.(timer := Running, place := Claimed(0)));
    HomeLock(H, s1, op);
    assert Step(H, s1, Advance(0)) == s2 by {
      assert Step(H, s1, Advance(0)).elems == s2.elems;
      assert Step(H, s1, Advance(0)).threads == s2.threads;
    }
    FireRest(H, s, b, i, s2);
    LeadsOn(H, s1, 0, s2, goal);
    LeadsOn(H, s0, 0, s1, goal);
  }

  lemma {:induction false} FireRest(H: Hasher, s: State, b: nat, i: nat, s2: State)
    requires Quiet(H, s) && b < BUCKETS && i < |s.lists[b]| && s.lists[b][i] < |s.elems|
    requires var e := s.lists[b][i];
             s2 == Put(Inside(s, 0, b, Thread(Fire(e), Claim(e))), e, s.elems[e].(timer := Running, place := Claimed(0)))
    ensures Leads(H, s2, 0, Gone(s, b, i, Fire(s.lists[b][i])))
  {
    hide Leads;
    hide LockOf;
    hide Position;
    hide Without;
    var e := s.lists[b][i];
    assert ListQuiet(s, b);
    assert Entry(s, b, i);
    PositionAt(s.lists[b], i);
    var op, goal := Fire(e), Gone(s, b, i, Fire(e));
    var out := Put(goal, e, s.elems[e].(timer := Running, place := Owned(0)));
    var s3, s4 := Inside(out, 0, b, Thread(op, Out(e, i))), Goto(out, 0, Thread(op, Detached(e)));
    assert Step(H, s2, Advance(0)) == s3 by {
      assert Step(H, s2, Advance(0)).elems == s3.elems;
      assert Step(H, s2, Advance(0)).threads == s3.threads;
    }
    HomeLock(H, s3, op);
    assert Step(H, s3, Advance(0)) == s4 by {
      assert Step(H, s3, Advance(0)).locks == s4.locks;
      assert Step(H, s3, Advance(0)).threads == s4.threads;
    }
    assert Step(H, s4, Advance(0)) == goal by {
      assert Step(H, s4, Advance(0)).elems == goal.elems;
      assert Step(H, s4, Advance(0)).threads == goal.threads;
    }
    LeadsStays(H, goal, 0);
    LeadsOn(H, s4, 0, goal, goal);
    LeadsOn(H, s3, 0, s4, goal);
    LeadsOn(H, s2, 0, s3, goal);
  }
}
