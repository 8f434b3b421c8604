/** What flock(2) promises, for every reachable state and every run of the protocol. */
module FlockTheorems {
  import opened WaitQueue
  import opened Flock
  import opened FlockProtocol
  import opened FlockSafety

  /** Reachable from the initial state by some run. */
  ghost predicate Reachable(s: State) {
    exists run, acts :: Execution(run, acts) && Initial(run[0]) && run[|run| - 1] == s
  }

  lemma ReachableHasInv(s: State)
    requires Reachable(s)
    ensures Inv(s)
  {
    hide Inv;
    var run, acts :| Execution(run, acts) && Initial(run[0]) && run[|run| - 1] == s;
    ReachableInv(run, acts, |run| - 1);
  }

  lemma Extend(s: State, t: nat, e: Event)
    requires Reachable(s) && Enabled(s, t, e)
    ensures Reachable(Step(s, t, e))
  {
    hide Step, Enabled, Initial;
    var run, acts :| Execution(run, acts) && Initial(run[0]) && run[|run| - 1] == s;
    var run', acts' := run + [Step(s, t, e)], acts + [Act(t, e)];
    forall i | 0 <= i < |acts'|
      ensures Enabled(run'[i], acts'[i].t, acts'[i].e) && run'[i + 1] == Step(run'[i], acts'[i].t, acts'[i].e)
    {
      assert run'[i] == run[i];
      if i < |acts| {
        assert acts'[i] == acts[i] && run'[i + 1] == run[i + 1];
      }
    }
    assert Execution(run', acts');
    assert run'[|run'| - 1] == Step(s, t, e);
  }

  /** Readers and writers exclude each other, there is never more than one writer, and the counter
      counts the readers. */
  lemma Ownership(s: State)
    requires Reachable(s)
    ensures ExclusiveOwners(s) == 0 || (ExclusiveOwners(s) == 1 && SharedOwners(s) == 0)
    ensures s.fl.holders == SharedOwners(s)
    ensures s.fl.state == Exclusive <==> ExclusiveOwners(s) == 1 && SharedOwners(s) == 0
    ensures s.fl.state == Shared <==> SharedOwners(s) > 0
    ensures s.fl.state == Inactive <==> SharedOwners(s) == 0 && ExclusiveOwners(s) == 0
  {
    ReachableHasInv(s);
    hide SharedOwners, ExclusiveOwners;
  }

  /** A file blocked in file_flock holds nothing, and so does the file of a call that is about
      to return -1, and that file is at rest holding nothing once it has returned. */
  lemma BlockedOrRefusedHoldsNothing(s: State, t: nat)
    requires Reachable(s) && t < |s.threads| && (Waiting(s.threads[t]) || s.threads[t].Refused?)
    ensures var f := s.threads[t].f;
            && f < |s.files| && s.files[f].open && s.files[f].hold.None? && InFlight(s.threads[t]).None?
            && (s.threads[t].Refused? ==>
                  Enabled(s, t, Run) && Step(s, t, Run).files[f] == File(true, None, None)
                  && Step(s, t, Run).threads[t].Idle?)
  {
    ReachableHasInv(s);
    assert UseAt(s.threads[t], s.files, t);
    WellSizedNow(s, t);
  }

  lemma WellSizedNow(s: State, t: nat)
    requires Inv(s) && t < |s.threads|
    ensures WellSized(s, t)
  {
    forall u | 0 <= u < |s.threads|
      ensures Uses(s.threads[u]).Some? ==> Uses(s.threads[u]).value < |s.files|
    {
      assert UseAt(s.threads[u], s.files, u);
    }
  }

  /** No lost wakeup: while fl->lock is free, whoever sleeps on the lock has reason to. */
  lemma NoLostWakeup(s: State, t: nat)
    requires Reachable(s) && s.lock.None? && t < |s.threads| && s.threads[t].Asleep?
    ensures Blocked(s.fl, s.threads[t].m)
  {
    ReachableHasInv(s);
  }

  /** The queue, the counters and the waiting threads agree, and nobody is dropped. */
  lemma WaitersCounted(s: State)
    requires Reachable(s)
    ensures |s.fl.queue| == s.fl.waitSh + s.fl.waitEx && Proper(s.fl.queue, |s.threads|)
    ensures forall t :: 0 <= t < |s.threads| ==> (Waits(s.fl.queue, t) <==> Waiting(s.threads[t]))
    ensures |s.fl.queue| <= |s.threads|
  {
    ReachableHasInv(s);
    QueueFits(s.fl.queue, |s.threads|);
  }

  /** A waiting thread that is awake and whose condition no longer holds. */
  predicate ReadyWaiter(s: State, t: nat) {
    && t < |s.threads| && (s.threads[t].Woken? || s.threads[t].Relock?)
    && !Blocked(s.fl, s.threads[t].m)
  }

  /** No stuck lock: if fl->lock is free, the file lock is inactive and somebody waits, then
      some waiter is runnable and may take the lock. */
  lemma NoStuckLock(s: State) returns (t: nat)
    requires Reachable(s) && s.lock.None? && s.fl.state == Inactive && s.fl.queue != []
    ensures ReadyWaiter(s, t)
  {
    ReachableHasInv(s);
    hide Cnt, Waits;
    if s.fl.waitEx > 0 {
      t := CntWitness(s.threads, WaitEx);
    } else {
      t := CntWitness(s.threads, WaitSh);
    }
  }

  /** ... and with the scheduler lock free too, its own next steps do take it. */
  lemma ReadyWaiterAcquires(s: State, t: nat) returns (run: seq<State>, acts: seq<Act>)
    requires Reachable(s) && s.lock.None? && s.sched.None? && ReadyWaiter(s, t)
    ensures Execution(run, acts) && run[0] == s && |acts| <= 3
    ensures forall i :: 0 <= i < |acts| ==> acts[i] == Act(t, Run)
    ensures t < |run[|run| - 1].threads| && run[|run| - 1].threads[t] == Granted(s.threads[t].f, s.threads[t].m)
  {
    ReadyCounted(s, t);
    run, acts := AcquireSteps(s, t);
  }

  lemma ReadyCounted(s: State, t: nat)
    requires Reachable(s) && ReadyWaiter(s, t)
    ensures WellSized(s, t) && if s.threads[t].m == Sh then s.fl.waitSh > 0 else s.fl.waitEx > 0
  {
    ReachableHasInv(s);
    WellSizedNow(s, t);
    hide WellSized;
    if s.threads[t].m == Sh {
      CntPositive(s.threads, t, WaitSh);
    } else {
      CntPositive(s.threads, t, WaitEx);
    }
  }

  /** From the re-locking on, two steps. */
  lemma RelockSteps(s: State, t: nat) returns (s': State, s'': State)
    requires WellSized(s, t) && s.lock.None? && s.threads[t].Relock? && !Blocked(s.fl, s.threads[t].m)
    requires if s.threads[t].m == Sh then s.fl.waitSh > 0 else s.fl.waitEx > 0
    ensures Enabled(s, t, Run) && Step(s, t, Run) == s' && Enabled(s', t, Run) && Step(s', t, Run) == s''
    ensures t < |s''.threads| && s''.threads[t] == Granted(s.threads[t].f, s.threads[t].m)
  {
    assert t < |s.threads|;
    hide WellSized, Blocked, Enabled, Step;
    RelockStep(s, t);
    s' := Step(s, t, Run);
    TestStep(s', t);
    s'' := Step(s', t, Run);
  }

  lemma AcquireSteps(s: State, t: nat) returns (run: seq<State>, acts: seq<Act>)
    requires WellSized(s, t) && s.lock.None? && s.sched.None? && ReadyWaiter(s, t)
    requires if s.threads[t].m == Sh then s.fl.waitSh > 0 else s.fl.waitEx > 0
    ensures Execution(run, acts) && run[0] == s && |acts| <= 3
    ensures forall i :: 0 <= i < |acts| ==> acts[i] == Act(t, Run)
    ensures t < |run[|run| - 1].threads| && run[|run| - 1].threads[t] == Granted(s.threads[t].f, s.threads[t].m)
  {
    hide WellSized, Blocked, Step, Enabled;
    var go := Act(t, Run);
    if s.threads[t].Woken? {
      WokenStep(s, t);
      var s0 := Step(s, t, Run);
      var s1, s2 := RelockSteps(s0, t);
      run, acts := [s, s0, s1, s2], [go, go, go];
    } else {
      var s1, s2 := RelockSteps(s, t);
      run, acts := [s, s1, s2], [go, go];
    }
  }

  lemma WokenStep(s: State, t: nat)
    requires WellSized(s, t) && s.threads[t].Woken? && s.sched.None?
    ensures Enabled(s, t, Run) && Step(s, t, Run) == SetPc(s, t, Relock(s.threads[t].f, s.threads[t].m))
    ensures WellSized(Step(s, t, Run), t)
  {
    hide RunAcquire, RunRelease;
  }

  lemma RelockStep(s: State, t: nat)
    requires WellSized(s, t) && s.threads[t].Relock? && s.lock.None?
    ensures Enabled(s, t, Run)
    ensures Step(s, t, Run) == SetPc(s, t, WaitTest(s.threads[t].f, s.threads[t].m)).(lock := Some(t))
    ensures WellSized(Step(s, t, Run), t)
  {
    hide RunAcquire, RunRelease;
  }

  lemma TestStep(s: State, t: nat)
    requires WellSized(s, t) && s.threads[t].WaitTest? && !Blocked(s.fl, s.threads[t].m)
    requires if s.threads[t].m == Sh then s.fl.waitSh > 0 else s.fl.waitEx > 0
    ensures Enabled(s, t, Run) && |Step(s, t, Run).threads| == |s.threads|
    ensures Step(s, t, Run).threads[t] == Granted(s.threads[t].f, s.threads[t].m)
  {
    hide Join, Leave, RunAcquire, RunRelease;
  }

  /** No deadlock: unless every thread is idle or asleep, some thread can take a step. */
  lemma NoDeadlock(s: State, t: nat) returns (u: nat)
    requires Reachable(s) && t < |s.threads| && !s.threads[t].Idle? && !s.threads[t].Asleep?
    ensures u < |s.threads| && CanRun(s, s.threads[u])
  {
    ReachableHasInv(s);
    u := if s.sched.Some? then s.sched.value else if s.lock.Some? then s.lock.value else t;
    if s.threads[u].WaitTest? {
      if s.threads[u].m == Sh {
        CntPositive(s.threads, u, WaitSh);
      } else {
        CntPositive(s.threads, u, WaitEx);
      }
    }
    hide Cnt;
  }

  /** When nothing can run any more, sleepers wait for a lock that a file really holds. */
  lemma SleepersWaitForAnOwner(s: State, t: nat) returns (f: nat)
    requires Reachable(s) && t < |s.threads| && s.threads[t].Asleep?
    requires forall u :: 0 <= u < |s.threads| ==> s.threads[u].Idle? || s.threads[u].Asleep?
    ensures f < |s.files| && AtRest(s.files[f]).Some?
  {
    ReachableHasInv(s);
    assert s.lock.None?;
    assert s.fl.state != Inactive by {
      if s.fl.waitEx > 0 {
        var w := CntWitness(s.threads, WaitEx);
        assert Blocked(s.fl, s.threads[w].m);
      }
    }
    CntZero(s.threads, FlightSh);
    CntZero(s.threads, FlightEx);
    hide Cnt;
    if s.fl.state == Shared {
      f := CntWitness(s.files, FileSh);
    } else {
      f := CntWitness(s.files, FileEx);
    }
  }

  /** Safe recycling: inode_get re-initialises the lock of a slot only when it has no holder,
      no waiter, no open file and no thread still closing one. */
  lemma SafeRecycling(s: State)
    requires Reachable(s) && s.ref == 0
    ensures s.fl == FRESH && s.lock.None?
    ensures SharedOwners(s) == 0 && ExclusiveOwners(s) == 0
    ensures forall t :: 0 <= t < |s.threads| ==> s.threads[t].Idle?
    ensures forall f :: 0 <= f < |s.files| ==> !s.files[f].open
  {
    ReachableHasInv(s);
    RecycleIsClean(s);
    forall f | 0 <= f < |s.files|
      ensures !s.files[f].open
    {
      if s.files[f].open {
        CntPositive(s.files, f, FileOpen);
      }
    }
    hide Cnt;
  }

  // ---- Writer priority ----

  /** The number of readers grows only in a step that sees no waiting writer. */
  lemma GrantGuard(s: State, t: nat, e: Event)
    requires Enabled(s, t, e)
    ensures Step(s, t, e).fl.holders > s.fl.holders ==> s.fl.waitEx == 0
  {
    hide WakeAll, Join, Leave;
  }

  lemma WriterCounted(s: State, w: nat)
    requires Inv(s) && w < |s.threads| && WaitEx(s.threads[w])
    ensures s.fl.waitEx > 0
  {
    CntPositive(s.threads, w, WaitEx);
  }

  /** Writer priority: from the step in which a writer registers until it acquires, the number
      of shared holders never increases, whatever the other threads do. */
  lemma {:induction false} WriterPriority(run: seq<State>, acts: seq<Act>, i: nat, j: nat, w: nat)
    requires Execution(run, acts) && Initial(run[0]) && i <= j < |run|
    requires forall k :: i <= k <= j ==> w < |run[k].threads| && WaitEx(run[k].threads[w])
    ensures run[j].fl.holders <= run[i].fl.holders
    decreases j
  {
    hide Step, Enabled, Inv, WaitEx, Cnt;
    if i < j {
      WriterPriority(run, acts, i, j - 1, w);
      ReachableInv(run, acts, j - 1);
      WriterCounted(run[j - 1], w);
      GrantGuard(run[j - 1], acts[j - 1].t, acts[j - 1].e);
    }
  }
}
