/** flock(2) on the scheduler.  The step relation of FlockProtocol lets a wakeup turn sleepers into
    runnable threads and leave everybody else alone.  thread_wakeup looks at the channel only, and
    a thread that is awake but has not run yet still has it set, so it is enqueued once more.
    This module says when the two agree. */
module FlockScheduling {
  import opened WaitQueue
  import opened Flock
  import opened FlockProtocol
  import opened FlockSafety
  import opened FlockTheorems
  import S = Scheduler

  /** The channel of the lock is set from thread_sleep until the woken thread has run. */
  predicate OnChannel(pc: Pc) {
    pc.Asleep? || pc.Woken?
  }

  /** Outside file_flock, where a thread may sleep on something else: between calls, and in the
      inode_put of a close. */
  predicate MaySleepElsewhere(pc: Pc) {
    pc.Idle? || pc.PutWant?
  }

  /** Scheduler state `k`, in which the lock is channel `c`, carries protocol state `s`: sleepers sleep,
      and every thread in the middle of a flock call runs or is in the ready queue. */
  ghost predicate Carries(k: S.Sched, s: State, c: nat) {
    && S.Inv(k) && |k.state| == |s.threads|
    && (forall t :: 0 <= t < |s.threads| ==> CarriesAt(k, s.threads[t], c, t))
  }

  predicate CarriesAt(k: S.Sched, pc: Pc, c: nat, t: nat)
    requires t < |k.state| == |k.chan|
  {
    && (k.chan[t] == c <==> OnChannel(pc))
    && (pc.Asleep? ==> k.state[t] == S.Sleep)
    && (!pc.Asleep? && !MaySleepElsewhere(pc) ==> k.state[t] == S.Ready || k.state[t] == S.Run)
  }

  /** A release finds only sleepers on its channel if and only if no thread is awake that has not
      run yet. */
  lemma OnlySleepersExact(k: S.Sched, s: State, c: nat)
    requires Carries(k, s, c)
    ensures S.OnlySleepers(k, c) <==> forall t :: 0 <= t < |s.threads| ==> !s.threads[t].Woken?
  {
    forall t | 0 <= t < |s.threads|
      ensures CarriesAt(k, s.threads[t], c, t)
    {
    }
    if S.OnlySleepers(k, c) {
      forall t | 0 <= t < |s.threads|
        ensures !s.threads[t].Woken?
      {
        assert CarriesAt(k, s.threads[t], c, t);
      }
    } else {
      var t :| 0 <= t < |k.state| && k.chan[t] == c && k.state[t] != S.Sleep && k.state[t] != S.Dead;
      assert CarriesAt(k, s.threads[t], c, t);
    }
  }

  /** The wakeup of a release does what the protocol says if and only if it is harmless to the ready
      queue; if no thread is `Woken` it always is. */
  lemma WakeupCarried(k: S.Sched, s: State, c: nat, t: nat)
    requires Carries(k, s, c) && k.cur == t && Enabled(s, t, Run) && s.threads[t].RelWake?
    ensures Carries(S.WakeFrom(k, c, 0), Step(s, t, Run), c) <==> S.Harmless(k, c)
    ensures (forall u :: 0 <= u < |s.threads| ==> !s.threads[u].Woken?) ==> S.Harmless(k, c)
  {
    var k', s' := S.WakeFrom(k, c, 0), Step(s, t, Run);
    S.WakeupExact(k, c);
    OnlySleepersExact(k, s, c);
    if S.OnlySleepers(k, c) {
      S.SleepersHarmless(k, c);
    }
    assert CarriesAt(k, s.threads[t], c, t);
    forall u | 0 <= u < |s.threads|
      ensures CarriesAt(k', s'.threads[u], c, u)
    {
      assert CarriesAt(k, s.threads[u], c, u);
      S.WakeStates(k, c, 0, u);
    }
  }

  /** What "runnable" means for a waiter that may take the lock: it is running or queued. */
  lemma ReadyWaiterQueued(k: S.Sched, s: State, c: nat, t: nat)
    requires Carries(k, s, c) && ReadyWaiter(s, t)
    ensures t == k.cur || t in k.ready
  {
    assert CarriesAt(k, s.threads[t], c, t);
  }

  // ---- Joint runs ----

  /** The running thread takes a step of the protocol, or the kernel does something else. */
  datatype Move = Call(e: Event) | Kernel(ke: S.Event)

  /** thread_sleep asserts a non-empty ready queue, and wakeups are harmless.  The rest of the kernel
      sleeps on and wakes other channels; a thread awake from one of those clears it. */
  ghost predicate CanMove(k: S.Sched, s: State, c: nat, m: Move) {
    S.Sized(k) && k.cur < |s.threads| &&
    match m
    case Call(e) =>
      && Enabled(s, k.cur, e)
      && (e.Run? && s.threads[k.cur].SleepC? ==> k.ready != [])
      && (e.Run? && s.threads[k.cur].RelWake? ==> S.Harmless(k, c))
    case Kernel(e) =>
      && S.Enabled(k, e)
      && (e.ClearChan? ==> !s.threads[k.cur].Woken?)
      && (e.SleepOn? ==> e.c != c && MaySleepElsewhere(s.threads[k.cur])) && (e.Wakeup? ==> e.c != c)
  }

  ghost function MoveThreads(s: State, k: S.Sched, c: nat, m: Move): State
    requires CanMove(k, s, c, m)
  {
    if m.Call? then Step(s, k.cur, m.e) else s
  }

  ghost function MoveQueue(k: S.Sched, s: State, c: nat, m: Move): S.Sched
    requires CanMove(k, s, c, m)
  {
    match m
    case Kernel(e) => S.Next(k, e)
    case Call(e) =>
      if !e.Run? then k
      else if s.threads[k.cur].SleepC? then S.Next(k, S.SleepOn(c))
      else if s.threads[k.cur].RelWake? then S.Next(k, S.Wakeup(c))
      else if s.threads[k.cur].Woken? then S.Next(k, S.ClearChan)
      else k
  }

  /** Only thread `t` moved, and only sleeping puts it on the channel. */
  ghost predicate LocalOutcome(s: State, s': State, t: nat) {
    && |s'.threads| == |s.threads| && t < |s.threads|
    && (forall u :: 0 <= u < |s.threads| && u != t ==> s'.threads[u] == s.threads[u])
    && (OnChannel(s'.threads[t]) <==> s.threads[t].SleepC?)
    && (s.threads[t].SleepC? ==> s'.threads[t].Asleep?)
  }

  lemma LocalAcquire(s: State, t: nat)
    requires Enabled(s, t, Run) && Acquiring(s.threads[t])
    ensures LocalOutcome(s, RunAcquire(s, t), t)
  {
    hide WakeAll, Grant, Register, Unregister, Release;
  }

  lemma LocalLoop(s: State, t: nat)
    requires Enabled(s, t, Run) && InLoop(s.threads[t])
    ensures LocalOutcome(s, RunLoop(s, t), t)
  {
    hide WakeAll, Grant, Register, Unregister, Release;
  }

  lemma LocalRelease(s: State, t: nat)
    requires Enabled(s, t, Run) && !Acquiring(s.threads[t]) && !InLoop(s.threads[t]) && !s.threads[t].RelWake?
    ensures LocalOutcome(s, RunRelease(s, t), t)
  {
    hide WakeAll, Grant, Register, Unregister, Release;
  }

  /** So does every step but a wakeup. */
  lemma LocalStep(s: State, t: nat, e: Event)
    requires Enabled(s, t, e) && !(e.Run? && s.threads[t].RelWake?)
    ensures var s' := Step(s, t, e);
            && |s'.threads| == |s.threads|
            && (forall u :: 0 <= u < |s.threads| && u != t ==> s'.threads[u] == s.threads[u])
            && (e.Run? ==> LocalOutcome(s, s', t))
            && (!e.Run? ==> s'.threads[t] == s.threads[t] || (s.threads[t].Idle? && !OnChannel(s'.threads[t])))
  {
    hide RunAcquire, RunLoop, RunRelease;
    if e.Run? {
      if Acquiring(s.threads[t]) {
        LocalAcquire(s, t);
      } else if InLoop(s.threads[t]) {
        LocalLoop(s, t);
      } else {
        LocalRelease(s, t);
      }
    } else {
      hide RunThread;
    }
  }

  lemma CallCarried(k: S.Sched, s: State, c: nat, e: Event)
    requires Carries(k, s, c) && c != 0 && CanMove(k, s, c, Call(e)) && !(e.Run? && s.threads[k.cur].RelWake?)
    ensures Carries(MoveQueue(k, s, c, Call(e)), MoveThreads(s, k, c, Call(e)), c)
  {
    var t := k.cur;
    var k', s' := MoveQueue(k, s, c, Call(e)), MoveThreads(s, k, c, Call(e));
    LocalStep(s, t, e);
    assert CarriesAt(k, s.threads[t], c, t);
    hide Enabled, Step;
    if e.Run? && s.threads[t].SleepC? {
      S.NextInv(k, S.SleepOn(c));
      forall u | 0 <= u < |s.threads|
        ensures CarriesAt(k', s'.threads[u], c, u)
      {
        assert CarriesAt(k, s.threads[u], c, u);
      }
    } else {
      assert e.Run? && s.threads[t].Woken? ==> S.Inv(k') by {
        if e.Run? && s.threads[t].Woken? {
          S.NextInv(k, S.ClearChan);
        }
      }
      forall u | 0 <= u < |s.threads|
        ensures CarriesAt(k', s'.threads[u], c, u)
      {
        assert CarriesAt(k, s.threads[u], c, u);
      }
    }
  }

  lemma KernelCarried(k: S.Sched, s: State, c: nat, e: S.Event)
    requires Carries(k, s, c) && c != 0 && CanMove(k, s, c, Kernel(e))
    ensures Carries(S.Next(k, e), s, c)
  {
    var k' := S.Next(k, e);
    S.NextInv(k, e);
    assert CarriesAt(k, s.threads[k.cur], c, k.cur);
    forall u | 0 <= u < |s.threads|
      ensures CarriesAt(k', s.threads[u], c, u)
    {
      assert CarriesAt(k, s.threads[u], c, u);
      if e.Wakeup? {
        S.WakeStates(k, e.c, 0, u);
      }
    }
  }

  /** In every joint run in which wakeups are harmless, whoever is in the middle of a flock call and
      not asleep is running or in the ready queue. */
  lemma MoveCarried(k: S.Sched, s: State, c: nat, m: Move)
    requires Carries(k, s, c) && c != 0 && CanMove(k, s, c, m)
    ensures Carries(MoveQueue(k, s, c, m), MoveThreads(s, k, c, m), c)
  {
    match m
    case Kernel(e) => KernelCarried(k, s, c, e);
    case Call(e) =>
      if e.Run? && s.threads[k.cur].RelWake? {
        WakeupCarried(k, s, c, k.cur);
      } else {
        CallCarried(k, s, c, e);
      }
  }

  ghost predicate JointRun(ks: seq<S.Sched>, ss: seq<State>, c: nat, ms: seq<Move>) {
    && |ks| == |ms| + 1 && |ss| == |ms| + 1
    && (forall i :: 0 <= i < |ms| ==>
          && CanMove(ks[i], ss[i], c, ms[i])
          && ks[i + 1] == MoveQueue(ks[i], ss[i], c, ms[i]) && ss[i + 1] == MoveThreads(ss[i], ks[i], c, ms[i]))
  }

  lemma {:induction false} JointRunCarries(ks: seq<S.Sched>, ss: seq<State>, c: nat, ms: seq<Move>, i: nat)
    requires JointRun(ks, ss, c, ms) && c != 0 && Carries(ks[0], ss[0], c) && Reachable(ss[0]) && i < |ks|
    ensures Carries(ks[i], ss[i], c) && Reachable(ss[i])
  {
    hide Carries, Reachable, CanMove, MoveQueue, MoveThreads;
    if i > 0 {
      JointRunCarries(ks, ss, c, ms, i - 1);
      MoveCarried(ks[i - 1], ss[i - 1], c, ms[i - 1]);
      MoveReachable(ks[i - 1], ss[i - 1], c, ms[i - 1]);
    }
  }

  lemma MoveReachable(k: S.Sched, s: State, c: nat, m: Move)
    requires Reachable(s) && CanMove(k, s, c, m)
    ensures Reachable(MoveThreads(s, k, c, m))
  {
    hide Reachable, Enabled, Step;
    if m.Call? {
      Extend(s, k.cur, m.e);
    }
  }

  /** No stuck lock, down to the ready queue: in every joint run with harmless wakeups, when fl->lock is
      free, the lock inactive and somebody waits, a waiter that may take it runs or is queued. */
  lemma NoStuckLockQueued(ks: seq<S.Sched>, ss: seq<State>, c: nat, ms: seq<Move>, i: nat) returns (t: nat)
    requires JointRun(ks, ss, c, ms) && c != 0 && Carries(ks[0], ss[0], c) && Reachable(ss[0]) && i < |ks|
    requires ss[i].lock.None? && ss[i].fl.state == Inactive && ss[i].fl.queue != []
    ensures ReadyWaiter(ss[i], t) && (t == ks[i].cur || t in ks[i].ready)
  {
    JointRunCarries(ks, ss, c, ms, i);
    hide Reachable, JointRun, Carries;
    t := NoStuckLock(ss[i]);
    ReadyWaiterQueued(ks[i], ss[i], c, t);
  }

  // ---- A release that finds a woken thread ----

  /** After boot: nothing is queued, nobody sleeps on anything and no file is open. */
  ghost predicate Booted(k: S.Sched, s: State) {
    && S.Inv(k) && k.ready == [] && (forall t :: 0 <= t < |k.chan| ==> k.chan[t] == 0)
    && Initial(s) && |k.state| == |s.threads|
  }

  /** Protocol and scheduler get here together from the boot, with harmless wakeups all the way. */
  ghost predicate Reached(k: S.Sched, s: State, c: nat) {
    exists ks, ss, ms ::
      JointRun(ks, ss, c, ms) && Booted(ks[0], ss[0]) && ks[|ks| - 1] == k && ss[|ss| - 1] == s
  }

  lemma JointStart(k: S.Sched, s: State, c: nat)
    requires Booted(k, s)
    ensures Reached(k, s, c)
  {
    hide Booted;
    assert JointRun([k], [s], c, []);
  }

  lemma JointExtend(k: S.Sched, s: State, c: nat, m: Move)
    requires Reached(k, s, c) && CanMove(k, s, c, m)
    ensures Reached(MoveQueue(k, s, c, m), MoveThreads(s, k, c, m), c)
  {
    hide Booted, CanMove, MoveQueue, MoveThreads;
    var ks, ss, ms :|
      JointRun(ks, ss, c, ms) && Booted(ks[0], ss[0]) && ks[|ks| - 1] == k && ss[|ss| - 1] == s;
    var ks', ss', ms' := ks + [MoveQueue(k, s, c, m)], ss + [MoveThreads(s, k, c, m)], ms + [m];
    forall i | 0 <= i < |ms'|
      ensures CanMove(ks'[i], ss'[i], c, ms'[i])
      ensures ks'[i + 1] == MoveQueue(ks'[i], ss'[i], c, ms'[i]) && ss'[i + 1] == MoveThreads(ss'[i], ks'[i], c, ms'[i])
    {
      assert ks'[i] == ks[i] && ss'[i] == ss[i];
      if i < |ms| {
        assert ms'[i] == ms[i] && ks'[i + 1] == ks[i + 1] && ss'[i + 1] == ss[i + 1];
      }
    }
    assert JointRun(ks', ss', c, ms');
    assert ks'[0] == ks[0] && ss'[0] == ss[0];
  }

  /** Whatever is reached jointly is reachable and carried. */
  lemma ReachedCarries(k: S.Sched, s: State, c: nat)
    requires Reached(k, s, c) && c != 0
    ensures Carries(k, s, c) && Reachable(s)
  {
    var ks, ss, ms :|
      JointRun(ks, ss, c, ms) && Booted(ks[0], ss[0]) && ks[|ks| - 1] == k && ss[|ss| - 1] == s;
    assert Carries(ks[0], ss[0], c) by {
      hide JointRun;
    }
    assert Execution([ss[0]], []);
    assert [ss[0]][|[ss[0]]| - 1] == ss[0];
    assert Reachable(ss[0]);
    hide JointRun, Carries, Reachable;
    JointRunCarries(ks, ss, c, ms, |ks| - 1);
  }

  // ---- The run ----

  /** The lock is channel 7. */
  const CHAN := 7

  /** Three processes, two open files; process 2 stays out of it. */
  function Trio(pc0: Pc, pc1: Pc, x0: File, x1: File, lock: Option<nat>, sched: Option<nat>, fl: Fl): State {
    State([pc0, pc1, Idle], [x0, x1], lock, sched, fl, 2, 0)
  }

  function Rest(hold: Option<Mode>): File {
    File(true, hold, None)
  }

  function Held(hold: Option<Mode>, t: nat): File {
    File(true, hold, Some(t))
  }

  const EX := Lock(Ex, false)

  predicate Bystander(pc: Pc) {
    pc.Idle? || (OnChannel(pc) && pc.f == 1)
  }

  /** A step of the running thread that leaves the scheduler alone. */
  lemma Calls(k: S.Sched, s: State, e: Event, s': State)
    requires Reached(k, s, CHAN) && S.Sized(k) && k.cur < |s.threads| && Enabled(s, k.cur, e)
    requires e.Run? ==> !s.threads[k.cur].SleepC? && !s.threads[k.cur].RelWake? && !s.threads[k.cur].Woken?
    requires Step(s, k.cur, e) == s'
    ensures Reached(k, s', CHAN)
  {
    hide Reached, Step, Enabled;
    JointExtend(k, s, CHAN, Call(e));
  }

  /** Something else the kernel does. */
  lemma Does(k: S.Sched, s: State, e: S.Event, k': S.Sched)
    requires Reached(k, s, CHAN) && k.cur < |s.threads| && S.Enabled(k, e) && (e.Spawn? || e.Yield?)
    requires S.Next(k, e) == k'
    ensures Reached(k', s, CHAN)
  {
    hide Reached, S.Next;
    JointExtend(k, s, CHAN, Kernel(e));
  }

  lemma AtBoot(k: S.Sched, s: State)
    requires k == Threads([S.Run, S.Dead, S.Dead], 0, 0, []) && Initial(s) && |s.threads| == 3
    ensures Reached(k, s, CHAN)
  {
    hide Reached, Initial;
    JointStart(k, s, CHAN);
  }

  lemma Opened(k: S.Sched)
    requires k == Threads([S.Run, S.Dead, S.Dead], 0, 0, [])
    ensures Reached(k, Trio(Idle, Idle, Rest(None), Rest(None), None, None, FRESH), CHAN)
  {
    var shut := File(false, None, None);
    var s0 := State([Idle, Idle, Idle], [shut, shut], None, None, FRESH, 0, 0);
    hide Reached, RunThread;
    AtBoot(k, s0);
    var s1 := State([Idle, Idle, Idle], [shut, shut], None, None, FRESH, 1, 1);
    Calls(k, s0, Recycle, s1);
    var s2 := State([Idle, Idle, Idle], [shut, shut], None, None, FRESH, 2, 2);
    Calls(k, s1, Get, s2);
    var s3 := State([Idle, Idle, Idle], [Rest(None), shut], None, None, FRESH, 2, 1);
    Calls(k, s2, OpenFile(0), s3);
    Calls(k, s3, OpenFile(1), Trio(Idle, Idle, Rest(None), Rest(None), None, None, FRESH));
  }

  /** One step of process 0. */
  lemma Move0(k: S.Sched, pc: Pc, pc1: Pc, x0: File, x1: File, lock: Option<nat>, fl: Fl,
              e: Event, pc': Pc, x0': File, lock': Option<nat>, fl': Fl)
    requires Reached(k, Trio(pc, pc1, x0, x1, lock, None, fl), CHAN) && S.Sized(k) && k.cur == 0
    requires Enabled(Trio(pc, pc1, x0, x1, lock, None, fl), 0, e)
    requires e.Run? ==> !pc.SleepC? && !pc.RelWake? && !pc.Woken?
    requires Step(Trio(pc, pc1, x0, x1, lock, None, fl), 0, e) == Trio(pc', pc1, x0', x1, lock', None, fl')
    ensures Reached(k, Trio(pc', pc1, x0', x1, lock', None, fl'), CHAN)
  {
    hide Reached, Step, Enabled;
    Calls(k, Trio(pc, pc1, x0, x1, lock, None, fl), e, Trio(pc', pc1, x0', x1, lock', None, fl'));
  }

  /** Process 0 asks for the lock. */
  lemma Asks(k: S.Sched, pc1: Pc, x1: File, fl: Fl)
    requires Reached(k, Trio(Idle, pc1, Rest(None), x1, None, None, fl), CHAN)
    requires S.Sized(k) && k.cur == 0 && Bystander(pc1)
    ensures Reached(k, Trio(AcqIn(0, EX), pc1, Held(None, 0), x1, Some(0), None, fl), CHAN)
  {
    hide Reached, RunLoop, RunRelease, Blocked, Grant, Register;
    var u := Held(None, 0);
    Move0(k, Idle, pc1, Rest(None), x1, None, fl, Enter(0, EX), Start(0, EX, None), u, None, fl);
    Move0(k, Start(0, EX, None), pc1, u, x1, None, fl, Run, AcqWant(0, EX), u, None, fl);
    Move0(k, AcqWant(0, EX), pc1, u, x1, None, fl, Run, AcqIn(0, EX), u, Some(0), fl);
  }

  /** The lock is free, and process 0 gets it. */
  lemma Gets(k: S.Sched, pc1: Pc, x1: File, fl: Fl)
    requires Reached(k, Trio(Idle, pc1, Rest(None), x1, None, None, fl), CHAN)
    requires S.Sized(k) && k.cur == 0 && Bystander(pc1)
    requires fl.state == Inactive
    ensures Reached(k, Trio(Granted(0, Ex), pc1, Held(None, 0), x1, Some(0), None, fl.(state := Exclusive)), CHAN)
  {
    hide Reached, RunLoop, RunRelease, Register;
    Asks(k, pc1, x1, fl);
    Move0(k, AcqIn(0, EX), pc1, Held(None, 0), x1, Some(0), fl, Run,
          Granted(0, Ex), Held(None, 0), Some(0), fl.(state := Exclusive));
  }

  /** Process 0 takes the free lock for file 0. */
  lemma Takes(k: S.Sched, pc1: Pc, x1: File, fl: Fl)
    requires Reached(k, Trio(Idle, pc1, Rest(None), x1, None, None, fl), CHAN)
    requires S.Sized(k) && k.cur == 0 && Bystander(pc1)
    requires fl.state == Inactive
    ensures Reached(k, Trio(Idle, pc1, Rest(Some(Ex)), x1, None, None, fl.(state := Exclusive)), CHAN)
  {
    hide Reached, RunLoop, RunRelease, Register, Blocked, Grant;
    var u, fl' := Held(None, 0), fl.(state := Exclusive);
    Gets(k, pc1, x1, fl);
    Move0(k, Granted(0, Ex), pc1, u, x1, Some(0), fl', Run, Acquired(0, Ex), u, None, fl');
    Move0(k, Acquired(0, Ex), pc1, u, x1, None, fl', Run, Idle, Rest(Some(Ex)), None, fl');
  }

  /** Process 0 begins to release it. */
  lemma Unlocks(k: S.Sched, pc1: Pc, x1: File, fl: Fl)
    requires Reached(k, Trio(Idle, pc1, Rest(Some(Ex)), x1, None, None, fl), CHAN)
    requires S.Sized(k) && k.cur == 0 && Bystander(pc1)
    ensures Reached(k, Trio(RelWant(Ex, Finish(0)), pc1, Held(Some(Ex), 0), x1, None, None, fl), CHAN)
  {
    hide Reached, RunLoop, RunRelease, Blocked, Grant, Register;
    var u, h := Held(Some(Ex), 0), Some(Ex);
    Move0(k, Idle, pc1, Rest(h), x1, None, fl, Enter(0, Unlock), Start(0, Unlock, h), u, None, fl);
    Move0(k, Start(0, Unlock, h), pc1, u, x1, None, fl, Run, RelWant(Ex, Finish(0)), u, None, fl);
  }

  /** And gets as far as the wakeup. */
  lemma Drops(k: S.Sched, pc1: Pc, x1: File, fl: Fl)
    requires Reached(k, Trio(Idle, pc1, Rest(Some(Ex)), x1, None, None, fl), CHAN)
    requires S.Sized(k) && k.cur == 0 && Bystander(pc1) && fl.state == Exclusive
    ensures var fl' := fl.(state := Inactive);
            Reached(k, Trio(RelWake(Finish(0)), pc1, Held(Some(Ex), 0), x1, Some(0), None, fl'), CHAN)
  {
    hide Reached, RunLoop, RunAcquire, WakeAll;
    var u, x := Held(Some(Ex), 0), Finish(0);
    Unlocks(k, pc1, x1, fl);
    Move0(k, RelWant(Ex, x), pc1, u, x1, None, fl, Run, RelIn(Ex, x), u, Some(0), fl);
    Move0(k, RelIn(Ex, x), pc1, u, x1, Some(0), fl, Run, RelWake(x), u, Some(0), fl.(state := Inactive));
  }

  /** The wakeup of process 1, asleep. */
  lemma WakeStep(k: S.Sched, k': S.Sched, x1: File, fl: Fl)
    requires Reached(k, Trio(RelWake(Finish(0)), Asleep(1, Ex), Held(Some(Ex), 0), x1, Some(0), None, fl), CHAN)
    requires S.Sized(k) && k.cur == 0 && S.Harmless(k, CHAN) && S.WakeFrom(k, CHAN, 0) == k'
    ensures Reached(k', Trio(RelOut(Finish(0)), Woken(1, Ex), Held(Some(Ex), 0), x1, Some(0), None, fl), CHAN)
  {
    hide Reached, RunLoop, RunAcquire, S.Harmless, S.WakeFrom, Blocked, Grant, Register, Unregister, Release;
    var s := Trio(RelWake(Finish(0)), Asleep(1, Ex), Held(Some(Ex), 0), x1, Some(0), None, fl);
    var s' := Trio(RelOut(Finish(0)), Woken(1, Ex), Held(Some(Ex), 0), x1, Some(0), None, fl);
    assert Step(s, 0, Run) == s';
    JointExtend(k, s, CHAN, Call(Run));
  }

  /** And the rest of the release. */
  lemma Wakes(k: S.Sched, k': S.Sched, x1: File, fl: Fl)
    requires Reached(k, Trio(RelWake(Finish(0)), Asleep(1, Ex), Held(Some(Ex), 0), x1, Some(0), None, fl), CHAN)
    requires S.Sized(k) && k.cur == 0 && S.Harmless(k, CHAN) && S.WakeFrom(k, CHAN, 0) == k' && S.Sized(k')
    ensures Reached(k', Trio(Idle, Woken(1, Ex), Rest(None), x1, None, None, fl), CHAN)
  {
    hide Reached, RunLoop, RunAcquire, S.Harmless, S.WakeFrom, S.Sized, WakeAll, Release;
    var u, x, w := Held(Some(Ex), 0), Finish(0), Woken(1, Ex);
    WakeStep(k, k', x1, fl);
    Move0(k', RelOut(x), w, u, x1, Some(0), fl, Run, RelDone(x), u, None, fl);
    Move0(k', RelDone(x), w, u, x1, None, fl, Run, Idle, Rest(None), None, fl);
  }

  /** One step of process 1. */
  lemma Move1(k: S.Sched, x0: File, fl: Fl, pc: Pc, x1: File, lock: Option<nat>, sched: Option<nat>, e: Event,
              pc': Pc, x1': File, lock': Option<nat>, sched': Option<nat>, fl': Fl)
    requires Reached(k, Trio(Idle, pc, x0, x1, lock, sched, fl), CHAN) && S.Sized(k) && k.cur == 1
    requires Enabled(Trio(Idle, pc, x0, x1, lock, sched, fl), 1, e)
    requires e.Run? ==> !pc.SleepC? && !pc.RelWake? && !pc.Woken?
    requires Step(Trio(Idle, pc, x0, x1, lock, sched, fl), 1, e) == Trio(Idle, pc', x0, x1', lock', sched', fl')
    ensures Reached(k, Trio(Idle, pc', x0, x1', lock', sched', fl'), CHAN)
  {
    hide Reached, Step, Enabled;
    Calls(k, Trio(Idle, pc, x0, x1, lock, sched, fl), e, Trio(Idle, pc', x0, x1', lock', sched', fl'));
  }

  /** Process 1 asks for the lock while it is held. */
  lemma Queues(k: S.Sched, x0: File, fl: Fl)
    requires Reached(k, Trio(Idle, Idle, x0, Rest(None), None, None, fl), CHAN) && S.Sized(k) && k.cur == 1
    requires fl.state == Exclusive
    ensures Reached(k, Trio(Idle, WaitTest(1, Ex), x0, Held(None, 1), Some(1), None, Register(fl, 1, Ex)), CHAN)
  {
    hide Reached, RunLoop, RunRelease, Join;
    var u, g := Held(None, 1), Register(fl, 1, Ex);
    Move1(k, x0, fl, Idle, Rest(None), None, None, Enter(1, EX), Start(1, EX, None), u, None, None, fl);
    Move1(k, x0, fl, Start(1, EX, None), u, None, None, Run, AcqWant(1, EX), u, None, None, fl);
    Move1(k, x0, fl, AcqWant(1, EX), u, None, None, Run, AcqIn(1, EX), u, Some(1), None, fl);
    Move1(k, x0, fl, AcqIn(1, EX), u, Some(1), None, Run, WaitTest(1, Ex), u, Some(1), None, g);
  }

  /** And goes to sleep. */
  lemma Sleeps(k: S.Sched, k': S.Sched, x0: File, fl: Fl)
    requires Reached(k, Trio(Idle, Idle, x0, Rest(None), None, None, fl), CHAN) && S.Sized(k) && k.cur == 1
    requires fl.state == Exclusive && S.Enabled(k, S.SleepOn(CHAN)) && S.Next(k, S.SleepOn(CHAN)) == k'
    ensures Reached(k', Trio(Idle, Asleep(1, Ex), x0, Held(None, 1), None, None, Register(fl, 1, Ex)), CHAN)
  {
    hide Reached, RunAcquire, RunRelease, Join, S.Next, S.Sized;
    var u, g := Held(None, 1), Register(fl, 1, Ex);
    Queues(k, x0, fl);
    Move1(k, x0, g, WaitTest(1, Ex), u, Some(1), None, Run, SleepA(1, Ex), u, Some(1), None, g);
    Move1(k, x0, g, SleepA(1, Ex), u, Some(1), None, Run, SleepB(1, Ex), u, Some(1), Some(1), g);
    Move1(k, x0, g, SleepB(1, Ex), u, Some(1), Some(1), Run, SleepC(1, Ex), u, None, Some(1), g);
    var s := Trio(Idle, SleepC(1, Ex), x0, u, None, Some(1), g);
    assert Step(s, 1, Run) == Trio(Idle, Asleep(1, Ex), x0, u, None, None, g);
    JointExtend(k, s, CHAN, Call(Run));
  }

  function Threads(state: seq<S.TState>, chan1: nat, cur: nat, ready: seq<nat>): S.Sched {
    S.Sched(state, [0, chan1, 0], cur, ready)
  }

  /** Process 0 holds the lock, and process 1 sleeps on it. */
  lemma Slept() returns (fl: Fl)
    ensures fl.state == Exclusive
    ensures Reached(Threads([S.Run, S.Sleep, S.Dead], CHAN, 0, []),
                    Trio(Idle, Asleep(1, Ex), Rest(Some(Ex)), Held(None, 1), None, None, fl), CHAN)
  {
    hide Reached, S.Next, S.Inv, Join;
    var k0 := Threads([S.Run, S.Dead, S.Dead], 0, 0, []);
    Opened(k0);
    Takes(k0, Idle, Rest(None), FRESH);
    var held := FRESH.(state := Exclusive);
    var s := Trio(Idle, Idle, Rest(Some(Ex)), Rest(None), None, None, held);
    var k1 := Threads([S.Run, S.Ready, S.Dead], 0, 0, [1]);
    var k2 := Threads([S.Ready, S.Run, S.Dead], 0, 1, [0]);
    var k3 := Threads([S.Run, S.Sleep, S.Dead], CHAN, 0, []);
    SpawnAndYield(k0, k1, k2, k3);
    Does(k0, s, S.Spawn(1), k1);
    Does(k1, s, S.Yield, k2);
    Sleeps(k2, k3, Rest(Some(Ex)), held);
    fl := Register(held, 1, Ex);
  }

  lemma SpawnAndYield(k0: S.Sched, k1: S.Sched, k2: S.Sched, k3: S.Sched)
    requires k0 == Threads([S.Run, S.Dead, S.Dead], 0, 0, []) && k1 == Threads([S.Run, S.Ready, S.Dead], 0, 0, [1])
    requires k2 == Threads([S.Ready, S.Run, S.Dead], 0, 1, [0])
    requires k3 == Threads([S.Run, S.Sleep, S.Dead], CHAN, 0, [])
    ensures S.Enabled(k0, S.Spawn(1)) && S.Next(k0, S.Spawn(1)) == k1
    ensures S.Enabled(k1, S.Yield) && S.Next(k1, S.Yield) == k2
    ensures S.Enabled(k2, S.SleepOn(CHAN)) && S.Next(k2, S.SleepOn(CHAN)) == k3
  {
    S.PushNew(k0, 1);
    S.PushNew(k1, 0);
  }

  /** From there: process 0 unlocks, locks again before process 1 has run, and unlocks. */
  lemma UnlockTwice(k: S.Sched, k': S.Sched, k'': S.Sched, fl: Fl) returns (s: State)
    requires fl.state == Exclusive && S.Sized(k) && S.Sized(k') && S.Sized(k'') && k.cur == 0 && k''.cur == 0
    requires Reached(k, Trio(Idle, Asleep(1, Ex), Rest(Some(Ex)), Held(None, 1), None, None, fl), CHAN)
    requires S.Harmless(k, CHAN) && S.WakeFrom(k, CHAN, 0) == k'
    requires k'' == k' || (S.Enabled(k', S.Spawn(2)) && S.Next(k', S.Spawn(2)) == k'')
    ensures Reached(k'', s, CHAN) && |s.threads| == 3
    ensures s.threads[0].RelWake? && s.threads[1].Woken? && s.threads[2].Idle?
  {
    hide Reached, S.Harmless, S.WakeFrom, S.Next, S.Enabled, S.Sized;
    var u, free := Held(None, 1), fl.(state := Inactive);
    Drops(k, Asleep(1, Ex), u, fl);
    Wakes(k, k', u, free);
    if k'' != k' {
      Does(k', Trio(Idle, Woken(1, Ex), Rest(None), u, None, None, free), S.Spawn(2), k'');
    }
    Takes(k'', Woken(1, Ex), u, free);
    Drops(k'', Woken(1, Ex), u, free.(state := Exclusive));
    s := Trio(RelWake(Finish(0)), Woken(1, Ex), Held(Some(Ex), 0), u, Some(0), None, free);
  }

  /** A joint run from the boot to a release that finds a thread it has woken before, with another
      thread queued behind that one: its wakeup is not harmless.  And one with that thread queued
      ahead of it, where it is. */
  lemma WokenAtRelease() returns (bad: S.Sched, s: State, good: S.Sched, s': State)
    ensures Reached(bad, s, CHAN) && bad.cur == 0 && S.Sized(bad) && !S.Harmless(bad, CHAN)
    ensures Reached(good, s', CHAN) && good.cur == 0 && S.Sized(good) && S.Harmless(good, CHAN)
    ensures |s.threads| == 3 && s.threads[0].RelWake? && s.threads[1].Woken?
    ensures |s'.threads| == 3 && s'.threads[0].RelWake? && s'.threads[1].Woken?
  {
    var fl := Slept();
    var k := Threads([S.Run, S.Sleep, S.Dead], CHAN, 0, []);
    var k1 := Threads([S.Run, S.Ready, S.Dead], CHAN, 0, [1]);
    bad := Threads([S.Run, S.Ready, S.Ready], CHAN, 0, [1, 2]);
    var j := Threads([S.Run, S.Sleep, S.Ready], CHAN, 0, [2]);
    good := Threads([S.Run, S.Ready, S.Ready], CHAN, 0, [2, 1]);
    hide Reached;
    BadQueue(k, k1, bad);
    s := UnlockTwice(k, k1, bad, fl);
    GoodQueue(k, j, good);
    Does(k, Trio(Idle, Asleep(1, Ex), Rest(Some(Ex)), Held(None, 1), None, None, fl), S.Spawn(2), j);
    s' := UnlockTwice(j, good, good, fl);
  }

  lemma BadQueue(k: S.Sched, k1: S.Sched, bad: S.Sched)
    requires k == Threads([S.Run, S.Sleep, S.Dead], CHAN, 0, [])
    requires k1 == Threads([S.Run, S.Ready, S.Dead], CHAN, 0, [1])
    requires bad == Threads([S.Run, S.Ready, S.Ready], CHAN, 0, [1, 2])
    ensures S.Sized(k) && S.Sized(k1) && S.Sized(bad)
    ensures S.Harmless(k, CHAN) && S.WakeFrom(k, CHAN, 0) == k1
    ensures S.Enabled(k1, S.Spawn(2)) && S.Next(k1, S.Spawn(2)) == bad && !S.Harmless(bad, CHAN)
  {
    hide S.Harmless, S.WakeFrom, S.FirstOn;
    WakeOne(k, k1);
    S.PushNew(k1, 2);
    Harmful(bad);
  }

  lemma Harmful(k: S.Sched)
    requires k == Threads([S.Run, S.Ready, S.Ready], CHAN, 0, [1, 2])
    ensures S.Sized(k) && !S.Harmless(k, CHAN)
  {
    assert k.ready[0] == 1 && k.ready[1] == 2;
    hide S.FirstOn;
    S.FirstOnIs(k.ready, k.chan, CHAN, 0, 0);
    assert !S.On(k.chan, CHAN, 0, k.ready[1]);
  }

  lemma GoodQueue(k: S.Sched, j: S.Sched, good: S.Sched)
    requires k == Threads([S.Run, S.Sleep, S.Dead], CHAN, 0, [])
    requires j == Threads([S.Run, S.Sleep, S.Ready], CHAN, 0, [2])
    requires good == Threads([S.Run, S.Ready, S.Ready], CHAN, 0, [2, 1])
    ensures S.Sized(k) && S.Sized(j) && S.Sized(good)
    ensures S.Enabled(k, S.Spawn(2)) && S.Next(k, S.Spawn(2)) == j
    ensures S.Harmless(j, CHAN) && S.WakeFrom(j, CHAN, 0) == good && S.Harmless(good, CHAN)
  {
    hide S.Harmless, S.WakeFrom, S.FirstOn;
    S.PushNew(k, 2);
    WakeOne(j, good);
    NotHarmful(good);
  }

  lemma NotHarmful(k: S.Sched)
    requires k == Threads([S.Run, S.Ready, S.Ready], CHAN, 0, [2, 1])
    ensures S.Sized(k) && S.Harmless(k, CHAN)
  {
    assert k.ready[0] == 2 && k.ready[1] == 1;
    hide S.FirstOn;
    S.FirstOnIs(k.ready, k.chan, CHAN, 0, 1);
  }

  /** Thread 1 alone is on the channel, and asleep. */
  lemma WakeOne(k: S.Sched, k': S.Sched)
    requires |k.state| == 3 && k.chan == [0, CHAN, 0] && k.state[1] == S.Sleep && k.cur == 0
    requires forall i :: 0 <= i < |k.ready| ==> k.ready[i] == 2
    requires k' == k.(state := k.state[1 := S.Ready], ready := k.ready + [1])
    ensures S.Harmless(k, CHAN) && S.WakeFrom(k, CHAN, 0) == k'
  {
    S.FirstOnIs(k.ready, k.chan, CHAN, 0, |k.ready|);
    S.PushNew(k, 1);
    assert S.WakeFrom(k', CHAN, 3) == k';
    assert S.WakeFrom(k', CHAN, 2) == k';
    assert S.WakeFrom(k, CHAN, 1) == k';
  }
}
