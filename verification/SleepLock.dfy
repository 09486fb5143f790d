/**
 acquiresleep and releasesleep over sleep and wakeup (sleeplock.c, proc.c), for
 any number of processes and any interleaving of their steps.  Between two steps
 of one process any other may run; a spinlock is taken in one step.
 */
module SleepLock {
  import opened Common

  // Where a process is.  lk is the sleep lock's inner spinlock, pt is ptable.lock.
  datatype Pc =
    | Idle
    | WantLk              // acquiresleep: about to acquire lk
    | Test                // holds lk, about to look at locked
    | SleepPt             // holds lk, locked was set: sleep() is about to acquire pt
    | SleepRelease        // holds lk and pt, about to release lk
    | SleepMark           // holds pt, about to become SLEEPING and switch away
    | Asleep              // SLEEPING on this lock
    | Runnable            // woken, not yet scheduled
    | Resumed             // scheduled, holds pt, about to release it
    | Taken               // holds lk, has set locked and pid
    | Holding             // acquiresleep has returned
    | WantRelease         // releasesleep: about to acquire lk
    | Clear               // holds lk, about to clear locked and pid
    | WakePt              // holds lk, wakeup() is about to acquire pt
    | Wake(i: nat)        // holds lk and pt, wakeup1 is at process i
    | Woke                // holds lk, about to release it

  datatype State = State(procs: seq<Pc>, pids: seq<int>, lk: Option<nat>, pt: Option<nat>, locked: bool, pid: int)

  function Goto(s: State, p: nat, pc: Pc): (r: State)
    requires p < |s.procs|
  {
    s.(procs := s.procs[p := pc])
  }

  // One step of process p; None when it has to wait for a spinlock.
  function Step(s: State, p: nat): (r: Option<State>)
    requires p < |s.procs| && |s.pids| == |s.procs|
  {
    match s.procs[p]
    case Idle => Some(Goto(s, p, WantLk))
    case WantLk => if s.lk.None? then Some(Goto(s, p, Test).(lk := Some(p))) else None
    case Test =>
      if s.locked then Some(Goto(s, p, SleepPt))
      else Some(Goto(s, p, Taken).(locked := true, pid := s.pids[p]))
    case SleepPt => if s.pt.None? then Some(Goto(s, p, SleepRelease).(pt := Some(p))) else None
    case SleepRelease => Some(Goto(s, p, SleepMark).(lk := None))
    case SleepMark => Some(Goto(s, p, Asleep).(pt := None))
    case Asleep => None
    case Runnable => if s.pt.None? then Some(Goto(s, p, Resumed).(pt := Some(p))) else None
    case Resumed => Some(Goto(s, p, WantLk).(pt := None))
    case Taken => Some(Goto(s, p, Holding).(lk := None))
    case Holding => Some(Goto(s, p, WantRelease))
    case WantRelease => if s.lk.None? then Some(Goto(s, p, Clear).(lk := Some(p))) else None
    case Clear => Some(Goto(s, p, WakePt).(locked := false, pid := 0))
    case WakePt => if s.pt.None? then Some(Goto(s, p, Wake(0)).(pt := Some(p))) else None
    case Wake(i) =>
      if i < |s.procs| then
        var s' := if s.procs[i] == Asleep then Goto(s, i, Runnable) else s;
        Some(Goto(s', p, Wake(i + 1)))
      else Some(Goto(s, p, Woke).(pt := None))
    case Woke => Some(Goto(s, p, Idle).(lk := None))
  }

  // kill(): under pt, a sleeping process becomes runnable without the lock having
  // been released.
  ghost predicate Kill(s: State, q: nat, s': State) {
    && q < |s.procs| && s.pt.None?
    && s' == if s.procs[q] == Asleep then Goto(s, q, Runnable) else s
  }

  ghost predicate Next(s: State, s': State) {
    || (exists p: nat :: p < |s.procs| && |s.pids| == |s.procs| && Step(s, p) == Some(s'))
    || (exists q: nat :: Kill(s, q, s'))
  }

  ghost predicate Init(s: State) {
    && |s.pids| == |s.procs| && s.lk.None? && s.pt.None? && !s.locked && s.pid == 0
    && (forall p :: 0 <= p < |s.procs| ==> s.procs[p] == Idle && s.pids[p] > 0)
    && (forall p, q :: 0 <= p < q < |s.pids| ==> s.pids[p] != s.pids[q])
  }

  ghost predicate IsRun(states: seq<State>) {
    && |states| > 0 && Init(states[0])
    && forall i :: 0 <= i < |states| - 1 ==> Next(states[i], states[i + 1])
  }

  // ----- the invariant -----

  predicate HoldsLk(pc: Pc) {
    pc.Test? || pc.SleepPt? || pc.SleepRelease? || pc.Taken? || pc.Clear? || pc.WakePt? || pc.Wake? || pc.Woke?
  }

  predicate HoldsPt(pc: Pc) {
    pc.SleepRelease? || pc.SleepMark? || pc.Resumed? || pc.Wake?
  }

  // The process that has the sleep lock.
  predicate Owns(pc: Pc) {
    pc.Taken? || pc.Holding? || pc.WantRelease? || pc.Clear?
  }

  // A waker at pc will still come past process q.
  predicate WillReach(pc: Pc, q: nat) {
    pc.WakePt? || (pc.Wake? && pc.i <= q)
  }

  // q sleeps, or has let go of lk on its way to sleep.
  predicate Committed(pc: Pc) {
    pc.SleepMark? || pc.Asleep?
  }

  ghost predicate LocksOk(s: State) {
    && (forall p: nat :: p < |s.procs| ==> (HoldsLk(s.procs[p]) <==> s.lk == Some(p)))
    && (forall p: nat :: p < |s.procs| ==> (HoldsPt(s.procs[p]) <==> s.pt == Some(p)))
    && (s.lk.Some? ==> s.lk.value < |s.procs|) && (s.pt.Some? ==> s.pt.value < |s.procs|)
  }

  // At most one owner, locked exactly when there is one, and pid names it or is 0.
  ghost predicate OwnerOk(s: State)
    requires |s.pids| == |s.procs|
  {
    && (forall p: nat, q: nat :: p < |s.procs| && q < |s.procs| && Owns(s.procs[p]) && Owns(s.procs[q]) ==> p == q)
    && (forall p: nat :: p < |s.procs| && Owns(s.procs[p]) ==> s.locked && s.pid == s.pids[p])
    && (s.locked ==> exists p: nat :: p < |s.procs| && Owns(s.procs[p])) && (!s.locked ==> s.pid == 0)
  }

  // A process that found the lock taken and still holds lk is right about it; and
  // while the lock is free, every sleeper is still ahead of a waker.
  ghost predicate SleepersOk(s: State) {
    && (forall p: nat :: p < |s.procs| && (s.procs[p].SleepPt? || s.procs[p].SleepRelease?) ==> s.locked)
    && (forall q: nat :: q < |s.procs| && Committed(s.procs[q]) && !s.locked ==>
          s.lk.Some? && s.lk.value < |s.procs| && WillReach(s.procs[s.lk.value], q))
  }

  ghost predicate PidsOk(s: State) {
    && |s.pids| == |s.procs|
    && (forall p :: 0 <= p < |s.pids| ==> s.pids[p] > 0)
    && (forall p, q :: 0 <= p < q < |s.pids| ==> s.pids[p] != s.pids[q])
  }

  ghost predicate Inv(s: State) {
    PidsOk(s) && LocksOk(s) && OwnerOk(s) && SleepersOk(s)
  }

  // wakeup1 at one process: at most that process and the waker move, and neither
  // gains or loses a spinlock.
  lemma WakeLocks(s: State, p: nat, s': State)
    requires PidsOk(s) && LocksOk(s) && p < |s.procs| && s.procs[p].Wake? && Step(s, p) == Some(s')
    ensures LocksOk(s')
  {
    var i := s.procs[p].i;
    forall q: nat | q < |s'.procs| && q != p
      ensures HoldsLk(s'.procs[q]) == HoldsLk(s.procs[q]) && HoldsPt(s'.procs[q]) == HoldsPt(s.procs[q])
    {
      assert q != i ==> s'.procs[q] == s.procs[q];
    }
  }

  lemma MoveLocks(s: State, p: nat, s': State)
    requires PidsOk(s) && LocksOk(s) && p < |s.procs| && !s.procs[p].Wake? && Step(s, p) == Some(s')
    ensures LocksOk(s')
  {
    assert s'.procs == s.procs[p := s'.procs[p]];
    forall q: nat | q < |s'.procs|
      ensures HoldsLk(s'.procs[q]) <==> s'.lk == Some(q)
      ensures HoldsPt(s'.procs[q]) <==> s'.pt == Some(q)
    {
      MoveLock(s, p, s', q);
    }
  }

  lemma MoveLock(s: State, p: nat, s': State, q: nat)
    requires PidsOk(s) && LocksOk(s) && p < |s.procs| && !s.procs[p].Wake? && Step(s, p) == Some(s')
    requires |s'.procs| == |s.procs| && s'.procs == s.procs[p := s'.procs[p]] && q < |s.procs|
    ensures HoldsLk(s'.procs[q]) <==> s'.lk == Some(q)
    ensures HoldsPt(s'.procs[q]) <==> s'.pt == Some(q)
  {
    if q != p {
      assert s'.procs[q] == s.procs[q];
    }
  }

  lemma StepPids(s: State, p: nat, s': State)
    requires |s.pids| == |s.procs| && p < |s.procs| && Step(s, p) == Some(s')
    ensures s'.pids == s.pids && |s'.procs| == |s.procs|
  {
  }

  lemma StepLocks(s: State, p: nat, s': State)
    requires PidsOk(s) && LocksOk(s) && p < |s.procs| && Step(s, p) == Some(s')
    ensures LocksOk(s')
  {
    if s.procs[p].Wake? {
      WakeLocks(s, p, s');
    } else {
      MoveLocks(s, p, s');
    }
  }

  lemma WakeOwner(s: State, p: nat, s': State)
    requires PidsOk(s) && OwnerOk(s) && p < |s.procs| && s.procs[p].Wake? && Step(s, p) == Some(s')
    ensures OwnerOk(s')
  {
    assert forall q: nat :: q < |s.procs| ==> Owns(s'.procs[q]) == Owns(s.procs[q]);
    if s.locked {
      var o: nat :| o < |s.procs| && Owns(s.procs[o]);
      assert Owns(s'.procs[o]);
    }
  }

  // Steps that leave the lock alone.
  lemma MoveOwner(s: State, p: nat, s': State)
    requires PidsOk(s) && OwnerOk(s) && p < |s.procs| && s'.pids == s.pids && s'.locked == s.locked && s'.pid == s.pid
    requires |s'.procs| == |s.procs| && s'.procs == s.procs[p := s'.procs[p]]
    requires Owns(s'.procs[p]) == Owns(s.procs[p])
    ensures OwnerOk(s')
  {
    assert forall q: nat :: q < |s.procs| ==> Owns(s'.procs[q]) == Owns(s.procs[q]);
    if s.locked {
      var o: nat :| o < |s.procs| && Owns(s.procs[o]);
      assert Owns(s'.procs[o]);
    }
  }

  lemma StepOwner(s: State, p: nat, s': State)
    requires PidsOk(s) && OwnerOk(s) && p < |s.procs| && Step(s, p) == Some(s')
    ensures |s'.pids| == |s'.procs| && OwnerOk(s')
  {
    if s.procs[p].Wake? {
      WakeOwner(s, p, s');
    } else if s.procs[p].Test? && !s.locked {
      assert forall q: nat :: q < |s.procs| && q != p ==> s'.procs[q] == s.procs[q];
      assert Owns(s'.procs[p]);
    } else if s.procs[p].Clear? {
      assert forall q: nat :: q < |s.procs| && q != p ==> s'.procs[q] == s.procs[q];
    } else {
      MoveOwner(s, p, s');
    }
  }

  lemma StepReached(s: State, p: nat, s': State, q: nat)
    requires Inv(s) && p < |s.procs| && Step(s, p) == Some(s')
    requires q < |s'.procs| && Committed(s'.procs[q]) && !s'.locked
    ensures s'.lk.Some? && s'.lk.value < |s'.procs| && WillReach(s'.procs[s'.lk.value], q)
  {
    if s.locked {
      assert s.procs[p].Clear?;
    } else if Committed(s.procs[q]) {
      assert WillReach(s.procs[s.lk.value], q);
    }
  }

  lemma StepSleepers(s: State, p: nat, s': State)
    requires Inv(s) && p < |s.procs| && Step(s, p) == Some(s')
    ensures SleepersOk(s')
  {
    forall q: nat | q < |s'.procs| && Committed(s'.procs[q]) && !s'.locked
      ensures s'.lk.Some? && s'.lk.value < |s'.procs| && WillReach(s'.procs[s'.lk.value], q)
    {
      StepReached(s, p, s', q);
    }
  }

  lemma KillKeeps(s: State, q: nat, s': State)
    requires Inv(s) && Kill(s, q, s')
    ensures Inv(s')
  {
    if s.locked {
      var o: nat :| o < |s.procs| && Owns(s.procs[o]);
      assert Owns(s'.procs[o]);
    }
  }

  lemma NextKeeps(s: State, s': State)
    requires Inv(s) && Next(s, s')
    ensures Inv(s')
  {
    if p: nat :| p < |s.procs| && |s.pids| == |s.procs| && Step(s, p) == Some(s') {
      StepPids(s, p, s');
      StepLocks(s, p, s');
      StepOwner(s, p, s');
      StepSleepers(s, p, s');
    } else {
      var q: nat :| Kill(s, q, s');
      KillKeeps(s, q, s');
    }
  }

  // ----- the theorems -----

  lemma {:induction false} RunInv(states: seq<State>)
    requires IsRun(states)
    ensures Inv(states[|states| - 1])
    decreases |states|
  {
    if |states| > 1 {
      var n := |states| - 1;
      assert IsRun(states[..n]);
      RunInv(states[..n]);
      assert Next(states[n - 1], states[n]);
      NextKeeps(states[n - 1], states[n]);
    }
  }

  // At most one process is ever past acquiresleep and not yet done with
  // releasesleep's clearing of the lock.
  lemma MutualExclusion(states: seq<State>, p: nat, q: nat)
    requires IsRun(states)
    requires var s := states[|states| - 1];
             p < |s.procs| && q < |s.procs| && Owns(s.procs[p]) && Owns(s.procs[q])
    ensures p == q
  {
    RunInv(states);
  }

  // No lost wakeup: once the inner spinlock is free and the sleep lock is not held,
  // no process sleeps on it or is on its way to.
  lemma NoLostWakeup(states: seq<State>)
    requires IsRun(states)
    ensures var s := states[|states| - 1];
            s.lk.None? && !s.locked ==> forall q: nat :: q < |s.procs| ==> !Committed(s.procs[q])
  {
    RunInv(states);
  }

  // holdingsleep's test tells exactly the owner.
  lemma HoldingSleepExact(states: seq<State>, p: nat)
    requires IsRun(states) && p < |states[|states| - 1].procs|
    ensures var s := states[|states| - 1];
            |s.pids| == |s.procs| && ((s.locked && s.pid == s.pids[p]) <==> Owns(s.procs[p]))
              && (!s.locked ==> s.pid == 0)
  {
    RunInv(states);
    var s := states[|states| - 1];
    if s.locked && s.pid == s.pids[p] {
      var o: nat :| o < |s.procs| && Owns(s.procs[o]);
      assert s.pids[o] == s.pids[p];
    }
  }

  // A sleeper always has an owner, or a waker that has yet to pass it, to wait for.
  lemma SleepersAwaited(states: seq<State>, q: nat)
    requires IsRun(states) && q < |states[|states| - 1].procs| && states[|states| - 1].procs[q] == Asleep
    ensures var s := states[|states| - 1];
            exists p: nat :: p < |s.procs| && (Owns(s.procs[p]) || WillReach(s.procs[p], q))
  {
    RunInv(states);
    var s := states[|states| - 1];
    if !s.locked {
      assert WillReach(s.procs[s.lk.value], q);
    }
  }

  // ----- leaving acquiresleep -----

  // Called acquiresleep and not returned.
  predicate Inside(pc: Pc) {
    || pc.WantLk? || pc.Test? || pc.SleepPt? || pc.SleepRelease? || pc.SleepMark? || pc.Asleep? || pc.Runnable?
    || pc.Resumed? || pc.Taken?
  }

  // acquiresleep has returned and the lock is the process's own.
  ghost predicate HasLock(s: State, p: nat) {
    p < |s.procs| == |s.pids| && s.procs[p] == Holding && s.locked && s.pid == s.pids[p]
  }

  lemma InsideStep(s: State, q: nat, s': State, p: nat)
    requires Inv(s) && q < |s.procs| && Step(s, q) == Some(s') && p < |s.procs| && Inside(s.procs[p])
    ensures p < |s'.procs| && (Inside(s'.procs[p]) || (s.procs[p].Taken? && HasLock(s', p)))
  {
    if q == p {
      assert Owns(s.procs[p]) ==> s.locked && s.pid == s.pids[p];
    } else if s.procs[q].Wake? {
      assert s'.procs[p] == s.procs[p] || s'.procs[p] == Runnable;
    } else {
      assert s'.procs[p] == s.procs[p];
    }
  }

  // Whoever is in acquiresleep leaves it as the owner of the lock, and in no other way.
  lemma LeavesAsOwner(states: seq<State>, k: nat, p: nat)
    requires IsRun(states) && k + 1 < |states| && p < |states[k].procs| && Inside(states[k].procs[p])
    ensures p < |states[k + 1].procs| && (Inside(states[k + 1].procs[p]) || HasLock(states[k + 1], p))
  {
    var s, s' := states[k], states[k + 1];
    RunInv(states[..k + 1]);
    assert states[..k + 1][k] == s && Next(s, s');
    if q: nat :| q < |s.procs| && |s.pids| == |s.procs| && Step(s, q) == Some(s') {
      InsideStep(s, q, s', p);
    }
  }

  // kill() can reach a sleeper whenever ptable.lock is free, lock or no lock.
  lemma SleeperCanBeKilled(states: seq<State>, q: nat) returns (s': State)
    requires IsRun(states) && q < |states[|states| - 1].procs| && states[|states| - 1].procs[q] == Asleep
    requires states[|states| - 1].pt.None?
    ensures IsRun(states + [s']) && s' == Goto(states[|states| - 1], q, Runnable)
  {
    var s := states[|states| - 1];
    s' := Goto(s, q, Runnable);
    assert Kill(s, q, s');
    assert Next(s, s');
  }

  // ----- every waiter can still get the lock -----

  // Steps a process at pc takes, at most, before it needs nothing of the others: the
  // owner has its release ahead of it, and p its way to sleep and back.
  function Weight(pc: Pc, n: nat, own: bool): (w: nat) {
    match pc
    case Idle => 0
    case WantLk => if own then 3 else 0
    case Asleep => if own then 6 else 0
    case Runnable => if own then 5 else 0
    case Resumed => if own then 4 else 1
    case SleepMark => if own then 7 else 1
    case SleepRelease => if own then 8 else 2
    case SleepPt => if own then 9 else 3
    case Woke => 1
    case Wake(i) => if i <= n then n - i + 2 else 2
    case WakePt => n + 3
    case Clear => n + 4
    case WantRelease => n + 5
    case Holding => n + 6
    case Taken => n + 7
    case Test => n + 10
  }

  function Total(procs: seq<Pc>, k: nat, n: nat, p: nat): (w: nat)
    requires k <= |procs|
  {
    if k == 0 then 0 else Total(procs, k - 1, n, p) + Weight(procs[k - 1], n, k - 1 == p)
  }

  function Rank(s: State, p: nat): (w: nat) {
    Total(s.procs, |s.procs|, |s.procs|, p)
  }

  lemma {:induction false} TotalChange(a: seq<Pc>, b: seq<Pc>, k: nat, n: nat, p: nat, q: nat)
    requires |a| == |b| && k <= |a| && q < |a|
    requires forall i :: 0 <= i < |a| && i != q ==> Weight(b[i], n, i == p) <= Weight(a[i], n, i == p)
    requires Weight(b[q], n, q == p) < Weight(a[q], n, q == p)
    ensures Total(b, k, n, p) <= Total(a, k, n, p)
    ensures q < k ==> Total(b, k, n, p) < Total(a, k, n, p)
  {
    if k > 0 {
      TotalChange(a, b, k - 1, n, p, q);
    }
  }

  lemma OtherWeight(s: State, q: nat, s': State, p: nat, i: nat)
    requires q < |s.procs| == |s.pids| && Step(s, q) == Some(s') && i < |s.procs| && i != q
    ensures |s'.procs| == |s.procs|
    ensures Weight(s'.procs[i], |s.procs|, i == p) <= Weight(s.procs[i], |s.procs|, i == p)
  {
    assert s'.procs[i] == s.procs[i] || (s.procs[i] == Asleep && s'.procs[i] == Runnable);
  }

  lemma OwnWeight(s: State, q: nat, s': State, p: nat)
    requires q < |s.procs| == |s.pids| && Step(s, q) == Some(s')
    requires !s.procs[q].Idle? && !s.procs[q].WantLk? && !s.procs[q].Runnable?
    requires q == p ==> Inside(s.procs[p]) && !s.procs[p].Taken?
    ensures |s'.procs| == |s.procs|
    ensures (q == p && s'.procs[p].Taken?)
            || Weight(s'.procs[q], |s.procs|, q == p) < Weight(s.procs[q], |s.procs|, q == p)
  {
  }

  lemma OtherWeights(s: State, q: nat, s': State, p: nat)
    requires q < |s.procs| == |s.pids| && Step(s, q) == Some(s')
    ensures |s'.procs| == |s.procs|
    ensures forall i :: 0 <= i < |s.procs| && i != q ==>
              Weight(s'.procs[i], |s.procs|, i == p) <= Weight(s.procs[i], |s.procs|, i == p)
  {
    StepPids(s, q, s');
    forall i | 0 <= i < |s.procs| && i != q
      ensures Weight(s'.procs[i], |s.procs|, i == p) <= Weight(s.procs[i], |s.procs|, i == p)
    {
      OtherWeight(s, q, s', p, i);
    }
  }

  // Both spinlocks are free and the lock is too: p takes it.
  lemma TakesIt(s: State, p: nat) returns (more: seq<State>)
    requires Inv(s) && p < |s.procs| && s.lk.None? && s.pt.None? && !s.locked && Inside(s.procs[p])
    ensures Follows([s] + more) && HasLock(([s] + more)[|more|], p)
  {
    assert !Committed(s.procs[p]);
    assert s.procs[p].WantLk? || s.procs[p].Runnable?;
    more := [];
    var c := s;
    if s.procs[p].Runnable? {
      var s1 := Goto(s, p, Resumed).(pt := Some(p));
      var s2 := Goto(s1, p, WantLk).(pt := None);
      assert Step(s, p) == Some(s1) && Step(s1, p) == Some(s2);
      c, more := s2, [s1, s2];
    }
    var s3 := Goto(c, p, Test).(lk := Some(p));
    var s4 := Goto(s3, p, Taken).(locked := true, pid := s.pids[p]);
    var s5 := Goto(s4, p, Holding).(lk := None);
    assert Step(c, p) == Some(s3) && Step(s3, p) == Some(s4) && Step(s4, p) == Some(s5);
    more := more + [s3, s4, s5];
  }

  // Any number of steps, one after the other.
  ghost predicate Follows(states: seq<State>) {
    |states| > 0 && forall i :: 0 <= i < |states| - 1 ==> Next(states[i], states[i + 1])
  }

  // The process to run next, to let p through: the holder of lk, or of pt if that is
  // what it waits for; with both free, the owner of the lock.
  lemma Pick(s: State, p: nat) returns (q: nat, s': State)
    requires Inv(s) && p < |s.procs| && Inside(s.procs[p]) && !Owns(s.procs[p])
    requires s.lk.Some? || s.pt.Some? || s.locked
    ensures q < |s.procs| && Step(s, q) == Some(s')
    ensures !s.procs[q].Idle? && !s.procs[q].WantLk? && !s.procs[q].Runnable?
  {
    if s.lk.Some? {
      q := s.lk.value;
      assert HoldsLk(s.procs[q]);
      if (s.procs[q].SleepPt? || s.procs[q].WakePt?) && s.pt.Some? {
        q := s.pt.value;
        assert HoldsPt(s.procs[q]);
        assert s.procs[q].SleepMark? || s.procs[q].Resumed?;
      }
    } else if s.pt.Some? {
      q := s.pt.value;
      assert HoldsPt(s.procs[q]) && !HoldsLk(s.procs[q]);
    } else {
      q :| q < |s.procs| && Owns(s.procs[q]);
      assert !HoldsLk(s.procs[q]);
    }
    s' := Step(s, q).value;
  }

  // Running process q brings p closer to the lock, or gives it to p.
  lemma Nearer(s: State, q: nat, s': State, p: nat)
    requires Inv(s) && p < |s.procs| && Inside(s.procs[p]) && !s.procs[p].Taken? && q < |s.procs|
    requires !s.procs[q].Idle? && !s.procs[q].WantLk? && !s.procs[q].Runnable? && Step(s, q) == Some(s')
    ensures Next(s, s') && p < |s'.procs| && Inside(s'.procs[p])
    ensures s'.procs[p].Taken? || Rank(s', p) < Rank(s, p)
  {
    InsideStep(s, q, s', p);
    OwnWeight(s, q, s', p);
    OtherWeights(s, q, s', p);
    if q != p || !s'.procs[p].Taken? {
      TotalChange(s.procs, s'.procs, |s.procs|, |s.procs|, p, q);
    }
  }

  lemma Advance(s: State, p: nat) returns (s': State)
    requires Inv(s) && p < |s.procs| && Inside(s.procs[p]) && !s.procs[p].Taken?
    requires s.lk.Some? || s.pt.Some? || s.locked
    ensures Next(s, s') && Inv(s') && p < |s'.procs| && Inside(s'.procs[p])
    ensures s'.procs[p].Taken? || Rank(s', p) < Rank(s, p)
  {
    var q;
    q, s' := Pick(s, p);
    Nearer(s, q, s', p);
    NextKeeps(s, s');
  }

  // The last step of acquiresleep.
  lemma Returns(s: State, p: nat) returns (s': State)
    requires Inv(s) && p < |s.procs| && s.procs[p].Taken?
    ensures Next(s, s') && HasLock(s', p)
  {
    s' := Goto(s, p, Holding).(lk := None);
    assert Step(s, p) == Some(s') && Owns(s.procs[p]);
  }

  lemma {:induction false} Drive(s: State, p: nat) returns (more: seq<State>)
    requires Inv(s) && p < |s.procs| && Inside(s.procs[p])
    ensures Follows([s] + more) && HasLock(([s] + more)[|more|], p)
    decreases !s.procs[p].Taken?, Rank(s, p)
  {
    if s.procs[p].Taken? {
      var s' := Returns(s, p);
      more := [s'];
    } else if s.lk.None? && s.pt.None? && !s.locked {
      more := TakesIt(s, p);
    } else {
      var s' := Advance(s, p);
      var rest := Drive(s', p);
      more := [s'] + rest;
      Chain(s, s', rest);
    }
  }

  lemma Chain(s: State, s': State, rest: seq<State>)
    requires Next(s, s') && Follows([s'] + rest)
    ensures Follows([s] + ([s'] + rest)) && ([s] + ([s'] + rest))[|rest| + 1] == ([s'] + rest)[|rest|]
  {
    var all, tail := [s] + ([s'] + rest), [s'] + rest;
    forall i | 0 <= i < |all| - 1
      ensures Next(all[i], all[i + 1])
    {
      if i > 0 { assert all[i] == tail[i - 1] && all[i + 1] == tail[i]; }
    }
  }

  // The same from outside acquiresleep.
  lemma Calls(s: State, p: nat) returns (more: seq<State>)
    requires Inv(s) && p < |s.procs| && (s.procs[p].Idle? || Inside(s.procs[p]))
    ensures Follows([s] + more) && HasLock(([s] + more)[|more|], p)
  {
    if s.procs[p].Idle? {
      var s' := Goto(s, p, WantLk);
      assert Step(s, p) == Some(s');
      NextKeeps(s, s');
      var rest := Drive(s', p);
      more := [s'] + rest;
      Chain(s, s', rest);
    } else {
      more := Drive(s, p);
    }
  }

  // From every reachable state, whoever is in acquiresleep, or about to call it, can
  // still get the lock: no schedule so far has put it out of reach.
  lemma WaiterCanWin(states: seq<State>, p: nat) returns (more: seq<State>)
    requires IsRun(states) && p < |states[|states| - 1].procs|
    requires states[|states| - 1].procs[p].Idle? || Inside(states[|states| - 1].procs[p])
    ensures IsRun(states + more) && HasLock((states + more)[|states + more| - 1], p)
  {
    RunInv(states);
    var s := states[|states| - 1];
    more := Calls(s, p);
    var all, tail := states + more, [s] + more;
    forall i | 0 <= i < |all| - 1
      ensures Next(all[i], all[i + 1])
    {
      if i >= |states| - 1 {
        assert all[i] == tail[i - (|states| - 1)] && all[i + 1] == tail[i - (|states| - 1) + 1];
      }
    }
    assert all[|all| - 1] == tail[|more|];
  }
}
