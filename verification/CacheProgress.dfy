/**
 Whatever the other threads do, a thread inside a bucket gets out of it again after a
 bounded number of its own steps: nobody waits for a lock whose holder is stuck.
 */
module CacheProgress {
  import opened Cache
  import opened CacheSafety

  /** A bound on the steps a thread still takes before it releases its lock: for a scan
      three for each element in front of it. */
  function Work(H: Hasher, s: State, t: nat): nat
    requires WellShaped(s) && t < |s.threads|
  {
    var th := s.threads[t];
    WorkIn(s.lists[Home(H, s, th.op)], th)
  }

  function WorkIn(list: seq<nat>, th: Thread): nat {
    match th.phase
    case Scan(i, _) => 3 * (if i <= |list| then |list| - i else 0) + 3
    case Claim(e) => 3 * (|list| - Position(list, e)) + 2
    case Out(_, i) => if th.op.Clean? then 3 * (if i <= |list| then |list| - i else 0) + 4 else 1
    case Linked => 2
    case Leave => 1
    case _ => 0
  }

  // ---- the holder's own steps ----

  /** Thread t has come nearer to the release of lock l, or has released it. */
  ghost predicate Nearer(H: Hasher, s: State, s': State, t: nat, l: nat)
    requires WellShaped(s) && t < |s.threads| && l < LOCKS
  {
    && WellShaped(s') && |s'.threads| == |s.threads|
    && (s'.locks[l].Unheld?
        || (HasLock(s'.threads[t].phase) && s'.threads[t].op == s.threads[t].op && s'.locks[l] == s.locks[l]
            && Work(H, s', t) < Work(H, s, t)))
  }

  lemma PositionAt(list: seq<nat>, i: nat)
    requires i < |list| && Distinct(list)
    ensures Position(list, list[i]) == i
  {
  }

  lemma {:induction false} VisitNearer(H: Hasher, s: State, t: nat, i: nat)
    requires Inv(H, s) && t < |s.threads| && s.threads[t].phase.Scan? && s.threads[t].phase.i == i && !s.threads[t].op.Add?
    ensures Nearer(H, s, Visit(H, s, t, i), t, LockOf(H, s, s.threads[t].op))
  {
    hide Home;
    hide LockOf;
    hide Match;
    hide Position;
    var op := s.threads[t].op;
    var list := s.lists[Home(H, s, op)];
    var s' := Visit(H, s, t, i);
    VisitKeeps(H, s, t, i);
    assert ThreadOk(H, s, t);
    assert ListOk(s, Home(H, s, op));
    HomeOfNonFire(H, s, s', op);
    if i < |list| {
      PositionAt(list, i);
    }
  }

  lemma {:induction false} TallyNearer(H: Hasher, s: State, t: nat, i: nat, seen: nat)
    requires Inv(H, s) && t < |s.threads| && s.threads[t].phase == Scan(i, seen) && s.threads[t].op.Add?
    ensures Nearer(H, s, Tally(H, s, t, i, seen), t, LockOf(H, s, s.threads[t].op))
  {
    hide Home;
    hide LockOf;
    hide Match;
    TallyKeeps(H, s, t, i, seen);
    assert ThreadOk(H, s, t);
    HomeOfNonFire(H, s, Tally(H, s, t, i, seen), s.threads[t].op);
  }

  lemma {:induction false} UnlinkNearer(H: Hasher, s: State, t: nat, e: nat)
    requires Inv(H, s) && t < |s.threads| && s.threads[t].phase == Claim(e)
    ensures Nearer(H, s, Unlink(H, s, t, e), t, LockOf(H, s, s.threads[t].op))
  {
    hide Home;
    hide LockOf;
    hide Position;
    UnlinkKeeps(H, s, t, e);
    var op := s.threads[t].op;
    var s' := Unlink(H, s, t, e);
    assert ThreadOk(H, s, t);
    SameHomeKeys(H, s, s', op);
  }

  lemma {:induction false} TakeOutNearer(H: Hasher, s: State, t: nat, e: nat, i: nat)
    requires Inv(H, s) && t < |s.threads| && s.threads[t].phase == Out(e, i)
    ensures Nearer(H, s, TakeOut(H, s, t, e, i), t, LockOf(H, s, s.threads[t].op))
  {
    hide Home;
    hide LockOf;
    TakeOutKeeps(H, s, t, e, i);
    assert ThreadOk(H, s, t);
    if s.threads[t].op.Clean? {
      HomeOfNonFire(H, s, TakeOut(H, s, t, e, i), s.threads[t].op);
    }
  }

  lemma {:induction false} HolderStep(H: Hasher, s: State, t: nat)
    requires Inv(H, s) && t < |s.threads| && HasLock(s.threads[t].phase)
    ensures Nearer(H, s, Step(H, s, Advance(t)), t, LockOf(H, s, s.threads[t].op))
  {
    hide Home;
    hide LockOf;
    hide Nearer;
    hide Inv;
    match s.threads[t].phase
    case Scan(i, seen) =>
      if s.threads[t].op.Add? {
        TallyNearer(H, s, t, i, seen);
      } else {
        VisitNearer(H, s, t, i);
      }
    case Claim(e) => UnlinkNearer(H, s, t, e);
    case Out(e, i) => TakeOutNearer(H, s, t, e, i);
    case Linked => ArmNearer(H, s, t);
    case Leave => ExitNearer(H, s, t);
  }

  lemma {:induction false} ArmNearer(H: Hasher, s: State, t: nat)
    requires Inv(H, s) && t < |s.threads| && s.threads[t].phase.Linked?
    ensures Nearer(H, s, ArmTimer(s, t), t, LockOf(H, s, s.threads[t].op))
  {
    hide Home;
    hide LockOf;
    ArmKeeps(H, s, t);
    assert ThreadOk(H, s, t);
    HomeOfNonFire(H, s, ArmTimer(s, t), s.threads[t].op);
  }

  lemma {:induction false} ExitNearer(H: Hasher, s: State, t: nat)
    requires Inv(H, s) && t < |s.threads| && s.threads[t].phase.Leave?
    ensures Nearer(H, s, Exit(H, s, t), t, LockOf(H, s, s.threads[t].op))
  {
    hide Home;
    hide LockOf;
    assert ThreadOk(H, s, t);
  }

  // ---- everybody else's steps ----

  /** A step of thread u changes nothing of the other threads: it gives up its own lock or
      takes a free one, and changes only the list of the bucket whose lock it has. */
  ghost predicate Local(H: Hasher, s: State, s': State, u: nat) {
    && WellShaped(s) && WellShaped(s') && u < |s.threads| == |s'.threads|
    && (forall v :: 0 <= v < |s.threads| && v != u ==> s'.threads[v] == s.threads[v])
    && |s.elems| <= |s'.elems| && (forall x :: 0 <= x < |s.elems| ==> SameKey(s, s', x))
    && (forall l :: 0 <= l < LOCKS && s'.locks[l] != s.locks[l] ==> LockMoved(H, s, s', u, l))
    && (forall b :: 0 <= b < BUCKETS && s'.lists[b] != s.lists[b] ==>
          HasLock(s.threads[u].phase) && b == Home(H, s, s.threads[u].op))
  }

  ghost predicate LockMoved(H: Hasher, s: State, s': State, u: nat, l: nat)
    requires l < |s.locks| && l < |s'.locks| && u < |s'.threads|
  {
    || (s.locks[l] == By(u) && s'.locks[l].Unheld?)
    || (s.locks[l].Unheld? && s'.locks[l] == By(u) && HasLock(s'.threads[u].phase) && l == LockOf(H, s', s'.threads[u].op))
  }

  lemma EnterLocal(H: Hasher, s: State, t: nat)
    requires WellShaped(s) && t < |s.threads|
    ensures Local(H, s, Enter(H, s, t), t)
  {
    hide Home;
    hide LockOf;
    var s' := Enter(H, s, t);
    SameHomeKeys(H, s, s', if s.threads[t].op.Fire? && s.threads[t].op.e >= |s.elems| then None else s.threads[t].op);
  }

  lemma ScanLocal(H: Hasher, s: State, t: nat, i: nat, seen: nat)
    requires WellShaped(s) && t < |s.threads| && s.threads[t].phase.Scan?
    ensures Local(H, s, if s.threads[t].op.Add? then Tally(H, s, t, i, seen) else Visit(H, s, t, i), t)
  {
    hide Home;
    hide LockOf;
    hide Match;
  }

  lemma UnlinkLocal(H: Hasher, s: State, t: nat, e: nat)
    requires WellShaped(s) && t < |s.threads| && s.threads[t].phase.Claim?
    ensures Local(H, s, Unlink(H, s, t, e), t)
  {
    hide Home;
    hide LockOf;
    hide Position;
    hide Without;
  }

  lemma ReleaseLocal(H: Hasher, s: State, t: nat, e: nat, i: nat)
    requires WellShaped(s) && t < |s.threads|
    ensures Local(H, s, TakeOut(H, s, t, e, i), t) && Local(H, s, Exit(H, s, t), t)
  {
    hide Home;
    hide LockOf;
  }

  lemma AdvanceLocal(H: Hasher, s: State, t: nat)
    requires WellShaped(s) && t < |s.threads|
    ensures Local(H, s, Step(H, s, Advance(t)), t)
  {
    hide Home;
    hide LockOf;
    hide Tally;
    hide Visit;
    hide Unlink;
    hide Enter;
    hide TakeOut;
    hide Exit;
    match s.threads[t].phase
    case Wait => EnterLocal(H, s, t);
    case Scan(i, seen) => ScanLocal(H, s, t, i, seen);
    case Claim(e) => UnlinkLocal(H, s, t, e);
    case Out(e, i) => ReleaseLocal(H, s, t, e, i);
    case Leave => ReleaseLocal(H, s, t, 0, 0);
    case _ =>
  }

  /** The thread an action is a step of; the timer's dispatching counts as thread 0's. */
  function Actor(s: State, a: Action): nat {
    match a
    case Start(t, _) => if t < |s.threads| then t else 0
    case Dispatch(_) => 0
    case Advance(t) => if t < |s.threads| then t else 0
  }

  lemma StepLocal(H: Hasher, s: State, a: Action)
    requires WellShaped(s)
    ensures Local(H, s, Step(H, s, a), Actor(s, a))
  {
    hide Home;
    hide LockOf;
    if a.Advance? && a.t < |s.threads| {
      AdvanceLocal(H, s, a.t);
    } else {
      OtherLocal(H, s, a);
    }
  }

  lemma OtherLocal(H: Hasher, s: State, a: Action)
    requires WellShaped(s) && (a.Advance? ==> a.t >= |s.threads|)
    ensures Local(H, s, Step(H, s, a), Actor(s, a))
  {
    hide Home;
    hide LockOf;
  }

  /** While a thread is inside a bucket, no step but its own touches it, its lock or
      the bucket. */
  lemma {:induction false} Stands(H: Hasher, s: State, a: Action, t: nat)
    requires Inv(H, s) && t < |s.threads| && HasLock(s.threads[t].phase) && a != Advance(t)
    ensures var s', op := Step(H, s, a), s.threads[t].op;
            && WellShaped(s') && |s'.threads| == |s.threads| && s'.threads[t] == s.threads[t]
            && s'.locks[LockOf(H, s, op)] == By(t) && LockOf(H, s', op) == LockOf(H, s, op)
            && Work(H, s', t) == Work(H, s, t)
  {
    hide Home;
    hide LockOf;
    hide WorkIn;
    var u, s', op := Actor(s, a), Step(H, s, a), s.threads[t].op;
    assert ThreadOk(H, s, t);
    if u == t {
      assert s' == s;
    } else {
      hide Step;
      StepLocal(H, s, a);
      SameHomeKeys(H, s, s', op);
      var b := Home(H, s, op);
      if s'.lists[b] != s.lists[b] {
        Exclusive(H, s, t, u);
      }
    }
  }

  // ---- who holds a lock ----

  /** A held lock is held by a thread inside a bucket of that lock. */
  ghost predicate Held(H: Hasher, s: State, l: nat)
    requires WellShaped(s) && l < LOCKS
  {
    s.locks[l].By? ==>
      var t := s.locks[l].t;
      t < |s.threads| && HasLock(s.threads[t].phase) && LockOf(H, s, s.threads[t].op) == l
  }

  lemma {:induction false} HeldKeeps(H: Hasher, s: State, a: Action, l: nat)
    requires Inv(H, s) && l < LOCKS && Held(H, s, l)
    ensures WellShaped(Step(H, s, a)) && Held(H, Step(H, s, a), l)
  {
    hide Home;
    hide LockOf;
    hide Step;
    hide Work;
    hide Inv;
    InvShape(H, s);
    var s' := Step(H, s, a);
    StepLocal(H, s, a);
    if s.locks[l].By? {
      var t := s.locks[l].t;
      InvFire(H, s, t);
      SameHomeKeys(H, s, s', s.threads[t].op);
      if a == Advance(t) {
        HolderStep(H, s, t);
      } else {
        Stands(H, s, a, t);
      }
    }
  }

  lemma InvShape(H: Hasher, s: State)
    requires Inv(H, s)
    ensures WellShaped(s)
  {
  }

  lemma InvFire(H: Hasher, s: State, t: nat)
    requires Inv(H, s) && t < |s.threads|
    ensures s.threads[t].op.Fire? ==> s.threads[t].op.e < |s.elems|
  {
    assert ThreadOk(H, s, t);
  }

  lemma {:induction false} RunHeld(H: Hasher, n: nat, run: seq<Action>, l: nat)
    requires n > 0 && l < LOCKS
    ensures Held(H, Run(H, n, run), l)
  {
    hide Held;
    hide Step;
    if |run| == 0 {
      HeldInitially(H, n, l);
    } else {
      var before := run[..|run| - 1];
      RunHeld(H, n, before, l);
      RunInv(H, n, before);
      HeldKeeps(H, Run(H, n, before), run[|run| - 1], l);
    }
  }

  lemma HeldInitially(H: Hasher, n: nat, l: nat)
    requires n > 0 && l < LOCKS
    ensures Held(H, Initial(n), l)
  {
  }

  // ---- theorems ----

  /** No deadlock: a thread that waits for a lock can take it, or another thread has it
      and comes nearer to its release with its next step. */
  lemma {:induction false} NoDeadlock(H: Hasher, n: nat, run: seq<Action>, u: nat)
    requires n > 0 && u < |Run(H, n, run).threads| && Run(H, n, run).threads[u].phase.Wait?
    ensures var s := Run(H, n, run);
            var l := LockOf(H, s, s.threads[u].op);
            if s.locks[l].Unheld? then HasLock(Step(H, s, Advance(u)).threads[u].phase)
            else
              var t := s.locks[l].t;
              t != u && t < |s.threads| && Nearer(H, s, Step(H, s, Advance(t)), t, l)
  {
    hide Home;
    hide LockOf;
    hide Nearer;
    var s := Run(H, n, run);
    var l := LockOf(H, s, s.threads[u].op);
    RunInv(H, n, run);
    RunHeld(H, n, run, l);
    if s.locks[l].By? {
      HolderStep(H, s, s.locks[l].t);
    } else {
      assert ThreadOk(H, s, u);
      if s.threads[u].op.Fire? {
        assert ElemOk(H, s, s.threads[u].op.e);
      }
    }
  }

  /** How many of some actions are steps of thread t. */
  function Turns(more: seq<Action>, t: nat): nat {
    if |more| == 0 then 0 else (if more[0] == Advance(t) then 1 else 0) + Turns(more[1..], t)
  }

  lemma RunMore(H: Hasher, n: nat, run: seq<Action>, a: Action)
    requires n > 0
    ensures Run(H, n, run + [a]) == Step(H, Run(H, n, run), a)
  {
    assert (run + [a])[..|run|] == run;
  }

  /** One more action, and the lock is free or there is no more work than turns are left. */
  lemma {:induction false} OneTurn(H: Hasher, s: State, a: Action, t: nat)
    requires Inv(H, s) && t < |s.threads| && HasLock(s.threads[t].phase)
    ensures var s', l := Step(H, s, a), LockOf(H, s, s.threads[t].op);
            && WellShaped(s') && t < |s'.threads|
            && (s'.locks[l].Unheld?
                || (HasLock(s'.threads[t].phase) && LockOf(H, s', s'.threads[t].op) == l
                    && Work(H, s', t) + (if a == Advance(t) then 1 else 0) <= Work(H, s, t)))
  {
    hide Home;
    hide LockOf;
    hide Step;
    hide Work;
    hide Inv;
    InvShape(H, s);
    if a == Advance(t) {
      HolderStep(H, s, t);
      InvFire(H, s, t);
      StepLocal(H, s, a);
      SameHomeKeys(H, s, Step(H, s, a), s.threads[t].op);
    } else {
      Stands(H, s, a, t);
    }
  }

  /** Every lock is given up: however the threads interleave from here on, it is free again
      by the time its holder has had as many turns as it has work left. */
  lemma {:induction false} LockReleased(H: Hasher, n: nat, run: seq<Action>, more: seq<Action>, t: nat) returns (k: nat)
    requires n > 0 && t < |Run(H, n, run).threads| && HasLock(Run(H, n, run).threads[t].phase)
    requires Turns(more, t) >= Work(H, Run(H, n, run), t)
    ensures k <= |more|
    ensures Run(H, n, run + more[..k]).locks[LockOf(H, Run(H, n, run), Run(H, n, run).threads[t].op)].Unheld?
    decreases |more|
  {
    hide Home;
    hide LockOf;
    hide Step;
    hide Run;
    var s := Run(H, n, run);
    var l := LockOf(H, s, s.threads[t].op);
    RunInv(H, n, run);
    var a := more[0];
    RunMore(H, n, run, a);
    OneTurn(H, s, a, t);
    if Step(H, s, a).locks[l].Unheld? {
      k := 1;
      assert more[..1] == [a];
    } else {
      var j := LockReleased(H, n, run + [a], more[1..], t);
      k := j + 1;
      assert run + more[..k] == run + [a] + more[1..][..j];
    }
  }
}
