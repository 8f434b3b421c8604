/** What one call of file_flock does: when flock_acquire lets it in, how often readers share the lock, and
    what the file holds when the call returns. */
module FlockCalls {
  import opened WaitQueue
  import opened Flock
  import opened FlockProtocol
  import opened FlockSafety
  import opened FlockTheorems

  // ---- Who is let in ----

  /** A reader has to wait for a writer that owns the lock or queues for it, a writer for any owner. */
  ghost predicate MayHave(s: State, m: Mode) {
    if m == Sh then ExclusiveOwners(s) == 0 && forall u :: 0 <= u < |s.threads| ==> !WaitEx(s.threads[u])
    else ExclusiveOwners(s) == 0 && SharedOwners(s) == 0
  }

  lemma BlockedExact(s: State, m: Mode)
    requires Reachable(s)
    ensures Blocked(s.fl, m) <==> !MayHave(s, m)
  {
    Ownership(s);
    WaitersKnown(s);
    hide SharedOwners, ExclusiveOwners, Reachable;
  }

  lemma WaitersKnown(s: State)
    requires Reachable(s)
    ensures s.fl.waitEx > 0 <==> exists u :: 0 <= u < |s.threads| && WaitEx(s.threads[u])
  {
    ReachableHasInv(s);
    if s.fl.waitEx > 0 {
      var u := CntWitness(s.threads, WaitEx);
    }
    if u :| 0 <= u < |s.threads| && WaitEx(s.threads[u]) {
      CntPositive(s.threads, u, WaitEx);
    }
  }

  /** One more owner of mode `m`, who is the only one if it is a writer. */
  ghost predicate OneMore(s: State, s': State, m: Mode) {
    if m == Sh then SharedOwners(s') == SharedOwners(s) + 1 && ExclusiveOwners(s') == 0
    else ExclusiveOwners(s') == 1 && SharedOwners(s') == 0
  }

  /** Owners are counted by the lock itself. */
  lemma OneMoreCounted(s: State, s': State, m: Mode)
    requires Reachable(s) && Reachable(s') && s'.fl.state == (if m == Sh then Shared else Exclusive)
    requires s'.fl.holders == s.fl.holders + (if m == Sh then 1 else 0)
    ensures OneMore(s, s', m)
  {
    Ownership(s);
    Ownership(s');
    hide Reachable, SharedOwners, ExclusiveOwners;
  }

  lemma AcqInStep(s: State, t: nat)
    requires WellSized(s, t) && s.threads[t].AcqIn?
    ensures Enabled(s, t, Run)
    ensures var f, op := s.threads[t].f, s.threads[t].op;
            Step(s, t, Run)
            == if !op.Lock? || (Blocked(s.fl, op.mode) && op.nb) then SetPc(s, t, Refused(f))
               else if Blocked(s.fl, op.mode) then SetPc(s, t, WaitTest(f, op.mode)).(fl := Register(s.fl, t, op.mode))
               else SetPc(s, t, Granted(f, op.mode)).(fl := Grant(s.fl, op.mode))
  {
    hide WellSized, Blocked, Register, Grant, RunLoop, RunRelease;
  }

  lemma WaitTestStep(s: State, t: nat)
    requires WellSized(s, t) && s.threads[t].WaitTest?
    requires if s.threads[t].m == Sh then s.fl.waitSh > 0 else s.fl.waitEx > 0
    ensures Enabled(s, t, Run)
    ensures var f, m := s.threads[t].f, s.threads[t].m;
            Step(s, t, Run)
            == if Blocked(s.fl, m) then SetPc(s, t, SleepA(f, m))
               else SetPc(s, t, Granted(f, m)).(fl := Grant(Unregister(s.fl, t, m), m))
  {
    hide WellSized, Blocked, Unregister, Grant, RunAcquire, RunRelease;
  }

  /** flock_acquire under fl->lock: a lock is granted if and only if it may be had; otherwise LOCK_NB is
      refused and the others queue up.  Anything but a lock is refused. */
  lemma GrantExact(s: State, t: nat)
    requires Reachable(s) && t < |s.threads| && s.threads[t].AcqIn?
    ensures Enabled(s, t, Run)
    ensures var f, op, s' := s.threads[t].f, s.threads[t].op, Step(s, t, Run);
            && s' == s.(threads := s.threads[t := s'.threads[t]], fl := s'.fl) && t < |s'.threads|
            && (s'.threads[t] == Refused(f) <==> !op.Lock? || (op.nb && !MayHave(s, op.mode)))
            && (op.Lock? && MayHave(s, op.mode) ==> s'.threads[t] == Granted(f, op.mode) && OneMore(s, s', op.mode))
            && (op.Lock? && !op.nb && !MayHave(s, op.mode) ==>
                  s'.threads[t] == WaitTest(f, op.mode) && Waits(s'.fl.queue, t))
            && (s'.threads[t] == Refused(f) ==> s'.fl == s.fl)
  {
    hide WellSized, Inv, Reachable, MayHave, OneMore, Enabled, Step, Blocked, Waits, Join;
    ReachableHasInv(s);
    WellSizedNow(s, t);
    AcqInStep(s, t);
    var op, s' := s.threads[t].op, Step(s, t, Run);
    Extend(s, t, Run);
    if op.Lock? {
      BlockedExact(s, op.mode);
      if MayHave(s, op.mode) {
        OneMoreCounted(s, s', op.mode);
      }
    }
    WaitersCounted(s');
  }

  /** The waiting loop under fl->lock: the same condition ends it. */
  lemma LoopExact(s: State, t: nat)
    requires Reachable(s) && t < |s.threads| && s.threads[t].WaitTest?
    ensures Enabled(s, t, Run)
    ensures var f, m, s' := s.threads[t].f, s.threads[t].m, Step(s, t, Run);
            && s' == s.(threads := s.threads[t := s'.threads[t]], fl := s'.fl) && t < |s'.threads|
            && (MayHave(s, m) ==> s'.threads[t] == Granted(f, m) && OneMore(s, s', m) && !Waits(s'.fl.queue, t))
            && (!MayHave(s, m) ==> s'.threads[t] == SleepA(f, m) && s'.fl == s.fl)
  {
    hide WellSized, Inv, Reachable, MayHave, OneMore, Enabled, Step, Blocked, Waits, Leave, Proper;
    ReachableHasInv(s);
    WellSizedNow(s, t);
    WaitTestCounted(s, t);
    WaitTestStep(s, t);
    var m, s' := s.threads[t].m, Step(s, t, Run);
    Extend(s, t, Run);
    BlockedExact(s, m);
    if MayHave(s, m) {
      OneMoreCounted(s, s', m);
    }
    WaitersCounted(s');
  }

  lemma WaitTestCounted(s: State, t: nat)
    requires Inv(s) && t < |s.threads| && s.threads[t].WaitTest?
    ensures if s.threads[t].m == Sh then s.fl.waitSh > 0 else s.fl.waitEx > 0
  {
    if s.threads[t].m == Sh {
      CntPositive(s.threads, t, WaitSh);
    } else {
      CntPositive(s.threads, t, WaitEx);
    }
  }

  /** flock_release: sleepers are woken if and only if nobody owns the lock any more. */
  lemma WakeExact(s: State, t: nat)
    requires Reachable(s) && t < |s.threads| && s.threads[t].RelIn?
    ensures Enabled(s, t, Run)
    ensures var k, s' := s.threads[t].k, Step(s, t, Run);
            && t < |s'.threads|
            && s'.threads[t] == (if SharedOwners(s') + ExclusiveOwners(s') == 0 then RelWake(k) else RelOut(k))
            && SharedOwners(s') + ExclusiveOwners(s') == SharedOwners(s) + ExclusiveOwners(s) - 1
  {
    ReachableHasInv(s);
    WellSizedNow(s, t);
    RelInCounted(s, t);
    Ownership(s);
    hide WellSized, Inv, Reachable, Enabled, Step, SharedOwners, ExclusiveOwners;
    RelInStep(s, t);
    Extend(s, t, Run);
    Ownership(Step(s, t, Run));
  }

  lemma RelInCounted(s: State, t: nat)
    requires Inv(s) && t < |s.threads| && s.threads[t].RelIn?
    ensures if s.threads[t].m == Sh then SharedOwners(s) > 0 else ExclusiveOwners(s) > 0
  {
    if s.threads[t].m == Sh {
      CntPositive(s.threads, t, FlightSh);
    } else {
      CntPositive(s.threads, t, FlightEx);
    }
  }

  lemma RelInStep(s: State, t: nat)
    requires WellSized(s, t) && s.threads[t].RelIn?
    ensures Enabled(s, t, Run)
    ensures var m, k := s.threads[t].m, s.threads[t].k;
            Step(s, t, Run)
            == SetPc(s, t, if Release(s.fl, m).1 then RelWake(k) else RelOut(k)).(fl := Release(s.fl, m).0)
  {
    hide WellSized, Release, RunAcquire, RunLoop;
  }

  // ---- A call that need not wait ----

  /** `t` has taken lock `m` for file `f`, and nothing else has changed. */
  ghost predicate Got(s: State, s': State, f: nat, m: Mode) {
    && s'.threads == s.threads && f < |s.files| && s'.files == s.files[f := File(true, Some(m), None)]
    && s'.lock == s.lock && s'.sched == s.sched && s'.ref == s.ref && s'.others == s.others
    && OneMore(s, s', m)
  }

  /** With fl->lock free, a lock that may be had is taken by the caller's own six steps. */
  lemma UncontendedCall(s: State, t: nat, f: nat, m: Mode, nb: bool) returns (s': State)
    requires Reachable(s) && s.lock.None? && Enabled(s, t, Enter(f, Lock(m, nb)))
    requires s.files[f].hold.None? && MayHave(s, m)
    ensures Reachable(s') && Got(s, s', f, m)
  {
    var op := Lock(m, nb);
    BlockedExact(s, m);
    hide Reachable, MayHave, OneMore, Blocked;
    var s3 := EnterSteps(s, t, f, op);
    var s4 := GrantStep(s3, t);
    s' := LeaveSteps(s4, t);
    OneMoreCounted(s, s', m);
    assert s'.threads == s.threads;
  }

  lemma EnterSteps(s: State, t: nat, f: nat, op: Request) returns (s': State)
    requires Reachable(s) && s.lock.None? && Enabled(s, t, Enter(f, op)) && s.files[f].hold.None? && op.Lock?
    ensures Reachable(s') && WellSized(s', t)
    ensures s' == s.(threads := s.threads[t := AcqIn(f, op)], files := s.files[f := File(true, None, Some(t))],
                     lock := Some(t))
  {
    hide Reachable, RunLoop, RunRelease;
    Extend(s, t, Enter(f, op));
    var s1 := Step(s, t, Enter(f, op));
    StartStep(s1, t);
    Extend(s1, t, Run);
    var s2 := Step(s1, t, Run);
    WantStep(s2, t);
    Extend(s2, t, Run);
    s' := Step(s2, t, Run);
  }

  lemma StartStep(s: State, t: nat)
    requires WellSized(s, t) && s.threads[t].Start? && s.threads[t].op.Lock? && s.threads[t].h.None?
    ensures Enabled(s, t, Run) && Step(s, t, Run) == SetPc(s, t, AcqWant(s.threads[t].f, s.threads[t].op))
    ensures WellSized(Step(s, t, Run), t)
  {
    hide RunLoop, RunRelease;
  }

  lemma WantStep(s: State, t: nat)
    requires WellSized(s, t) && s.threads[t].AcqWant? && s.lock.None?
    ensures Enabled(s, t, Run)
    ensures Step(s, t, Run) == SetPc(s, t, AcqIn(s.threads[t].f, s.threads[t].op)).(lock := Some(t))
    ensures WellSized(Step(s, t, Run), t)
  {
    hide RunLoop, RunRelease;
  }

  lemma GrantStep(s: State, t: nat) returns (s': State)
    requires Reachable(s) && WellSized(s, t) && s.threads[t].AcqIn? && s.threads[t].op.Lock?
    requires !Blocked(s.fl, s.threads[t].op.mode)
    ensures var f, m := s.threads[t].f, s.threads[t].op.mode;
            s' == SetPc(s, t, Granted(f, m)).(fl := Grant(s.fl, m)) && Reachable(s') && WellSized(s', t)
  {
    hide Reachable, Blocked, Step, Enabled;
    AcqInStep(s, t);
    Extend(s, t, Run);
    s' := Step(s, t, Run);
  }

  lemma LeaveSteps(s: State, t: nat) returns (s': State)
    requires Reachable(s) && WellSized(s, t) && s.threads[t].Granted?
    ensures var f, m := s.threads[t].f, s.threads[t].m;
            && Reachable(s') && f < |s.files|
            && s' == s.(threads := s.threads[t := Idle], lock := None,
                        files := s.files[f := s.files[f].(hold := Some(m), user := None)])
  {
    hide Reachable, RunLoop, RunRelease;
    Extend(s, t, Run);
    var s1 := Step(s, t, Run);
    assert WellSized(s1, t);
    Extend(s1, t, Run);
    s' := Step(s1, t, Run);
    assert s'.threads == s.threads[t := Idle];
  }

  // ---- Any number of readers ----

  /** `n` idle threads, `n` open files, the first `k` of which hold LOCK_SH. */
  ghost predicate Readers(s: State, n: nat, k: nat) {
    && |s.threads| == |s.files| == n && (forall t :: 0 <= t < n ==> s.threads[t].Idle?)
    && (forall f :: 0 <= f < n ==> s.files[f] == File(true, if f < k then Some(Sh) else None, None))
    && s.lock.None?
  }

  /** Readers share: for any n there is a run after which n files hold LOCK_SH at once. */
  lemma {:induction false} ReadersShare(n: nat, k: nat) returns (s: State)
    requires k <= n
    ensures Reachable(s) && Readers(s, n, k) && SharedOwners(s) == k
    decreases k
  {
    if k == 0 {
      s := FilesOpen(n, n);
      NobodyHolds(s);
      hide Reachable, SharedOwners;
    } else {
      var r := ReadersShare(n, k - 1);
      ReadersMayJoin(r, n, k - 1);
      hide Reachable, SharedOwners, ExclusiveOwners, MayHave;
      s := UncontendedCall(r, k - 1, k - 1, Sh, true);
    }
  }

  lemma ReadersMayJoin(s: State, n: nat, k: nat)
    requires Readers(s, n, k) && k < n
    ensures MayHave(s, Sh) && Enabled(s, k, Enter(k, Lock(Sh, true)))
  {
    CntZero(s.files, FileEx);
    CntZero(s.threads, FlightEx);
  }

  lemma NobodyHolds(s: State)
    requires (forall t :: 0 <= t < |s.threads| ==> s.threads[t].Idle?)
    requires (forall f :: 0 <= f < |s.files| ==> s.files[f].hold.None?)
    ensures SharedOwners(s) == 0
  {
    CntZero(s.files, FileSh);
    CntZero(s.threads, FlightSh);
  }

  /** The first `k` of `n` files opened, by callers that had the inode. */
  function Opened(n: nat, k: nat, others: nat): State
    requires k <= n
  {
    State(seq(n, _ => Idle), seq(n, f => File(f < k, None, None)), None, None, FRESH, k + others, others)
  }

  lemma {:induction false} FilesOpen(n: nat, k: nat) returns (s: State)
    requires k <= n
    ensures s == Opened(n, k, 0) && Reachable(s)
    decreases k
  {
    s := Opened(n, k, 0);
    if k == 0 {
      assert Execution([s], []) && Initial(s);
      assert [s][|[s]| - 1] == s;
    } else {
      var r := FilesOpen(n, k - 1);
      hide Reachable, RunThread;
      var e := if k == 1 then Recycle else Get;
      Extend(r, 0, e);
      var r1 := Step(r, 0, e);
      assert r1 == Opened(n, k - 1, 1);
      Extend(r1, 0, OpenFile(k - 1));
      assert Step(r1, 0, OpenFile(k - 1)).files == s.files;
    }
  }

  // ---- What a call leaves behind ----

  /** What follows a release inside file_flock. */
  predicate Goes(k: Next, f: nat, op: Request) {
    if op.Unlock? then k == Finish(f) else k == Acquire(f, op)
  }

  /** Somewhere in file_flock(f, op). */
  predicate InCall(pc: Pc, f: nat, op: Request) {
    match pc
    case Idle => false
    case PutWant => false
    case Start(f', op', _) => f' == f && op' == op
    case RelWant(_, k) => Goes(k, f, op)
    case RelIn(_, k) => Goes(k, f, op)
    case RelWake(k) => Goes(k, f, op)
    case RelOut(k) => Goes(k, f, op)
    case RelDone(k) => Goes(k, f, op)
    case AcqWant(f', op') => f' == f && op' == op && !op.Unlock?
    case AcqIn(f', op') => f' == f && op' == op && !op.Unlock?
    case Granted(f', m) => f' == f && op.Lock? && op.mode == m
    case Acquired(f', m) => f' == f && op.Lock? && op.mode == m
    case Refused(f') => f' == f && (op.Invalid? || (op.Lock? && op.nb))
    case _ => pc.f == f && op == Lock(pc.m, false)
  }

  /** The call goes on, or its last step puts the file to rest. */
  ghost predicate CallOutcome(s: State, s': State, t: nat, f: nat, op: Request) {
    t < |s.threads| && t < |s'.threads| && f < |s'.files| &&
    if s'.threads[t].Idle? then
      && (op.Invalid? ==> s.threads[t].Refused?)
      && s'.files[f] == File(true, if op.Lock? && !s.threads[t].Refused? then Some(op.mode) else None, None)
    else InCall(s'.threads[t], f, op)
  }

  lemma CallAcquire(s: State, t: nat, f: nat, op: Request)
    requires Enabled(s, t, Run) && InCall(s.threads[t], f, op) && UseAt(s.threads[t], s.files, t)
    requires Acquiring(s.threads[t])
    ensures CallOutcome(s, RunAcquire(s, t), t, f, op)
  {
    hide Blocked, Grant, Register;
  }

  lemma CallLoop(s: State, t: nat, f: nat, op: Request)
    requires Enabled(s, t, Run) && InCall(s.threads[t], f, op) && UseAt(s.threads[t], s.files, t)
    requires InLoop(s.threads[t])
    ensures CallOutcome(s, RunLoop(s, t), t, f, op)
  {
    hide Blocked, Grant, Unregister;
  }

  lemma CallRelease(s: State, t: nat, f: nat, op: Request)
    requires Enabled(s, t, Run) && InCall(s.threads[t], f, op) && UseAt(s.threads[t], s.files, t)
    requires !Acquiring(s.threads[t]) && !InLoop(s.threads[t])
    ensures CallOutcome(s, RunRelease(s, t), t, f, op)
  {
    hide Release;
  }

  lemma CallKept(s: State, s': State, u: nat, tf: Option<nat>, t: nat, f: nat, op: Request)
    requires OthersKept(s, s', u, tf) && t < |s.threads| && InCall(s.threads[t], f, op)
    requires u != t || s'.threads[t] == s.threads[t]
    requires UseAt(s.threads[t], s.files, t)
    ensures CallOutcome(s, s', t, f, op) && !s'.threads[t].Idle?
  {
  }

  /** Only its own steps start or end a call. */
  lemma NotInCall(s: State, t: nat, e: Event)
    requires Enabled(s, t, e) && !s.threads[t].Idle? && !e.Run?
    ensures Step(s, t, e).threads == s.threads
  {
    hide RunThread;
  }

  lemma CallStep(s: State, u: nat, e: Event, t: nat, f: nat, op: Request)
    requires Inv(s) && Enabled(s, u, e) && t < |s.threads| && InCall(s.threads[t], f, op)
    ensures CallOutcome(s, Step(s, u, e), t, f, op)
    ensures Step(s, u, e).threads[t].Idle? ==> u == t && e.Run?
  {
    assert UseAt(s.threads[t], s.files, t);
    if u == t && e.Run? {
      CallRun(s, t, f, op);
    } else {
      OtherThreads(s, u, e);
      assert !s.threads[t].Idle?;
      hide Inv, Step, Enabled, InCall, CallOutcome, OthersKept, UseAt;
      if u == t {
        NotInCall(s, t, e);
      }
      CallKept(s, Step(s, u, e), u, Touched(s, u, e), t, f, op);
    }
  }

  lemma CallRun(s: State, t: nat, f: nat, op: Request)
    requires Enabled(s, t, Run) && InCall(s.threads[t], f, op) && UseAt(s.threads[t], s.files, t)
    ensures CallOutcome(s, Step(s, t, Run), t, f, op)
  {
    hide RunAcquire, RunLoop, RunRelease, CallOutcome, InCall, UseAt;
    if Acquiring(s.threads[t]) {
      CallAcquire(s, t, f, op);
    } else if InLoop(s.threads[t]) {
      CallLoop(s, t, f, op);
    } else {
      CallRelease(s, t, f, op);
    }
  }

  /** Thread `t` enters file_flock(f, op) with act `i`, and run[j] is the first state after it in which `t` is out. */
  ghost predicate Call(run: seq<State>, acts: seq<Act>, i: nat, j: nat, t: nat, f: nat, op: Request) {
    && Execution(run, acts) && Initial(run[0]) && i < j < |run| && acts[i] == Act(t, Enter(f, op))
    && (forall k :: i < k < |run| ==> t < |run[k].threads|)
    && (forall k :: i < k < j ==> !run[k].threads[t].Idle?) && run[j].threads[t].Idle?
  }

  /** Over every run, whatever the other threads do meanwhile: the file is at rest after the call, with the lock
      it asked for, or with none after LOCK_UN or -1.  The call returns -1 only for LOCK_NB or a word
      that asks for nothing, and always for such a word. */
  lemma CallResult(run: seq<State>, acts: seq<Act>, i: nat, j: nat, t: nat, f: nat, op: Request)
    requires Call(run, acts, i, j, t, f, op)
    ensures i + 1 < j && acts[j - 1] == Act(t, Run) && f < |run[j].files|
    ensures var refused := run[j - 1].threads[t].Refused?;
            && run[j].files[f] == File(true, if op.Lock? && !refused then Some(op.mode) else None, None)
            && (op.Invalid? ==> refused) && (refused ==> op.Invalid? || (op.Lock? && op.nb))
  {
    hide Inv, Step, Enabled, InCall;
    Entered(run[i], t, f, op);
    assert InCall(run[i + 1].threads[t], f, op);
    InCallFacts(run[i + 1].threads[t], f, op);
    CallGoesOn(run, acts, i, j, t, f, op, j - 1);
    InCallFacts(run[j - 1].threads[t], f, op);
    ReachableInv(run, acts, j - 1);
    CallStep(run[j - 1], acts[j - 1].t, acts[j - 1].e, t, f, op);
  }

  lemma InCallFacts(pc: Pc, f: nat, op: Request)
    requires InCall(pc, f, op)
    ensures !pc.Idle? && (pc.Refused? ==> op.Invalid? || (op.Lock? && op.nb))
  {
  }

  lemma Entered(s: State, t: nat, f: nat, op: Request)
    requires Enabled(s, t, Enter(f, op))
    ensures var s' := Step(s, t, Enter(f, op)); t < |s'.threads| && InCall(s'.threads[t], f, op)
  {
    hide RunThread;
  }

  lemma {:induction false} CallGoesOn(run: seq<State>, acts: seq<Act>, i: nat, j: nat, t: nat, f: nat, op: Request,
                                      k: nat)
    requires Call(run, acts, i, j, t, f, op) && i < k < j
    ensures InCall(run[k].threads[t], f, op)
    decreases k
  {
    hide Inv, Step, Enabled, InCall;
    if k == i + 1 {
      Entered(run[i], t, f, op);
    } else {
      CallGoesOn(run, acts, i, j, t, f, op, k - 1);
      ReachableInv(run, acts, k - 1);
      CallStep(run[k - 1], acts[k - 1].t, acts[k - 1].e, t, f, op);
    }
  }

  /** A call returns at once, with nothing changed, if and only if the file holds that lock already or has none to give
      up. */
  lemma NothingToDo(s: State, t: nat, f: nat, op: Request)
    requires Enabled(s, t, Enter(f, op))
    ensures var s' := Step(s, t, Enter(f, op));
            && Enabled(s', t, Run) && t < |Step(s', t, Run).threads|
            && (Step(s', t, Run).threads[t].Idle? <==> Step(s', t, Run) == s)
            && (Step(s', t, Run) == s <==> if op.Lock? then s.files[f].hold == Some(op.mode)
                                           else op.Unlock? && s.files[f].hold.None?)
  {
    hide RunLoop, RunRelease;
    var s' := Step(s, t, Enter(f, op));
    assert Enabled(s', t, Run);
    var s'' := Step(s', t, Run);
    if s''.threads[t].Idle? {
      assert s''.threads == s.threads && s''.files == s.files;
    }
  }
}
