/** What every step of the flock protocol keeps, and what that means for whole runs. */
module FlockSafety {
  import opened WaitQueue
  import opened Flock
  import opened FlockProtocol

  // ---- Counting ----

  function B(b: bool): (n: nat) {
    if b then 1 else 0
  }

  ghost function Hits<T>(s: seq<T>, p: T -> bool): (r: set<nat>) {
    set i: nat | i < |s| && p(s[i])
  }

  ghost function Cnt<T>(s: seq<T>, p: T -> bool): (n: nat) {
    |Hits(s, p)|
  }

  lemma CntUpdate<T>(s: seq<T>, i: nat, x: T, p: T -> bool)
    requires i < |s|
    ensures Cnt(s[i := x], p) + B(p(s[i])) == Cnt(s, p) + B(p(x))
  {
    HitsUpdate(s, i, x, p);
    CardToggle(Hits(s, p), i, p(x));
  }

  lemma CardToggle(a: set<nat>, i: nat, on: bool)
    ensures |if on then a + {i} else a - {i}| + B(i in a) == |a| + B(on)
  {
    assert i !in a ==> a - {i} == a;
    assert i in a ==> a + {i} == a;
  }

  lemma HitsUpdate<T>(s: seq<T>, i: nat, x: T, p: T -> bool)
    requires i < |s|
    ensures Hits(s[i := x], p) == if p(x) then Hits(s, p) + {i} else Hits(s, p) - {i}
  {
  }

  lemma CntPositive<T>(s: seq<T>, i: nat, p: T -> bool)
    requires i < |s| && p(s[i])
    ensures Cnt(s, p) > 0
  {
    assert i in Hits(s, p);
  }

  lemma CntWitness<T>(s: seq<T>, p: T -> bool) returns (i: nat)
    requires Cnt(s, p) > 0
    ensures i < |s| && p(s[i])
  {
    i :| i in Hits(s, p);
  }

  lemma CntZero<T>(s: seq<T>, p: T -> bool)
    requires forall i :: 0 <= i < |s| ==> !p(s[i])
    ensures Cnt(s, p) == 0
  {
    assert Hits(s, p) == {};
  }

  lemma CntWake(s: seq<Pc>, p: Pc -> bool)
    requires forall f, m :: p(Asleep(f, m)) == p(Woken(f, m))
    ensures Cnt(WakeAll(s), p) == Cnt(s, p)
  {
    assert Hits(WakeAll(s), p) == Hits(s, p);
  }

  predicate FileSh(x: File) { AtRest(x) == Some(Sh) }
  predicate FileEx(x: File) { AtRest(x) == Some(Ex) }
  predicate FileOpen(x: File) { x.open }
  predicate FlightSh(pc: Pc) { InFlight(pc) == Some(Sh) }
  predicate FlightEx(pc: Pc) { InFlight(pc) == Some(Ex) }
  predicate WaitSh(pc: Pc) { Waiting(pc) && pc.m == Sh }
  predicate WaitEx(pc: Pc) { Waiting(pc) && pc.m == Ex }
  predicate Closing(pc: Pc) { IsClosing(pc) }

  /** Files that hold LOCK_SH / LOCK_EX, counting those whose lock is in flight in a thread. */
  ghost function SharedOwners(s: State): (n: nat) {
    Cnt(s.files, FileSh) + Cnt(s.threads, FlightSh)
  }

  ghost function ExclusiveOwners(s: State): (n: nat) {
    Cnt(s.files, FileEx) + Cnt(s.threads, FlightEx)
  }

  // ---- The invariant ----

  ghost predicate LocksOk(s: State) {
    && (s.lock.Some? ==> s.lock.value < |s.threads|) && (s.sched.Some? ==> s.sched.value < |s.threads|)
    && (forall t :: 0 <= t < |s.threads| ==> (HoldsLock(s.threads[t]) <==> s.lock == Some(t)))
    && (forall t :: 0 <= t < |s.threads| ==> (HoldsSched(s.threads[t]) <==> s.sched == Some(t)))
  }

  /** holding_flock as the thread inside file_flock has left it. */
  predicate HoldMatches(pc: Pc, h: Option<Mode>) {
    match pc
    case Start(_, _, h0) => h == h0
    case RelWant(m, _) => h == Some(m)
    case RelIn(m, _) => h == Some(m)
    case RelWake(_) => h.Some?
    case RelOut(_) => h.Some?
    case RelDone(_) => h.Some?
    case _ => h.None?
  }

  /** A thread inside file_flock has its file, which is open, to itself. */
  predicate UseAt(pc: Pc, files: seq<File>, t: nat) {
    Uses(pc).Some? ==>
      var f := Uses(pc).value;
      f < |files| && files[f].open && files[f].user == Some(t) && HoldMatches(pc, files[f].hold)
  }

  predicate UserAt(x: File, f: nat, threads: seq<Pc>) {
    x.user.Some? ==> x.user.value < |threads| && Uses(threads[x.user.value]) == Some(f)
  }

  /** Each file is in the hands of at most one thread, and the two agree about it. */
  ghost predicate InHand(threads: seq<Pc>, files: seq<File>) {
    && (forall t :: 0 <= t < |threads| ==> UseAt(threads[t], files, t))
    && (forall f :: 0 <= f < |files| ==> UserAt(files[f], f, threads))
  }

  ghost predicate UseOk(s: State) {
    InHand(s.threads, s.files)
  }

  ghost predicate OwnersOk(s: State) {
    && s.fl.holders == SharedOwners(s)
    && ExclusiveOwners(s) == B(s.fl.state == Exclusive)
    && (s.fl.state == Shared <==> s.fl.holders > 0)
  }

  ghost predicate WaitersOk(s: State) {
    && s.fl.waitSh == Cnt(s.threads, WaitSh) && s.fl.waitEx == Cnt(s.threads, WaitEx)
    && Proper(s.fl.queue, |s.threads|)
    && (forall t :: 0 <= t < |s.threads| ==> (Waits(s.fl.queue, t) <==> Waiting(s.threads[t])))
    && |s.fl.queue| == s.fl.waitSh + s.fl.waitEx
  }

  /** A releaser has made the lock inactive and still has to wake the sleepers. */
  predicate WakeDue(s: State) {
    s.lock.Some? && s.lock.value < |s.threads| && s.threads[s.lock.value].RelWake?
  }

  /** Nobody sleeps, or is on the way to sleep, on a condition that does not hold any more,
      unless a wakeup is due. */
  ghost predicate WakeOk(s: State) {
    forall t :: 0 <= t < |s.threads| ==>
      && (s.threads[t].SleepA? || s.threads[t].SleepB? ==> Blocked(s.fl, s.threads[t].m))
      && (s.threads[t].SleepC? || s.threads[t].Asleep? ==> Blocked(s.fl, s.threads[t].m) || WakeDue(s))
  }

  ghost predicate RefOk(s: State) {
    s.ref == s.others + Cnt(s.files, FileOpen) + Cnt(s.threads, Closing)
  }

  ghost predicate Inv(s: State) {
    LocksOk(s) && UseOk(s) && OwnersOk(s) && WaitersOk(s) && WakeOk(s) && RefOk(s)
  }

  // ---- How a step changes the counts ----

  lemma ThreadsCount(s: State, t: nat, e: Event, p: Pc -> bool)
    requires Enabled(s, t, e)
    requires forall f, m :: p(Asleep(f, m)) == p(Woken(f, m))
    ensures |Step(s, t, e).threads| == |s.threads|
    ensures Cnt(Step(s, t, e).threads, p) + B(p(s.threads[t])) == Cnt(s.threads, p) + B(p(Step(s, t, e).threads[t]))
  {
    hide Cnt;
    var s' := Step(s, t, e);
    if e.Run? && s.threads[t].RelWake? {
      CntWake(s.threads, p);
      CntUpdate(WakeAll(s.threads), t, s'.threads[t], p);
    } else {
      assert s'.threads == s.threads[t := s'.threads[t]];
      CntUpdate(s.threads, t, s'.threads[t], p);
    }
  }

  /** The one file an event touches. */
  function Touched(s: State, t: nat, e: Event): (f: Option<nat>)
    requires t < |s.threads|
  {
    match e
    case Enter(f, _) => Some(f)
    case CloseFile(f) => Some(f)
    case OpenFile(f) => Some(f)
    case Run => Uses(s.threads[t])
    case _ => None
  }

  lemma FilesCount(s: State, t: nat, e: Event, p: File -> bool)
    requires Enabled(s, t, e)
    ensures var f := Touched(s, t, e);
            && |Step(s, t, e).files| == |s.files|
            && (f.None? ==> Cnt(Step(s, t, e).files, p) == Cnt(s.files, p))
            && (f.Some? ==> f.value < |s.files|
                            && Cnt(Step(s, t, e).files, p) + B(p(s.files[f.value]))
                               == Cnt(s.files, p) + B(p(Step(s, t, e).files[f.value])))
  {
    hide Cnt;
    var s', f := Step(s, t, e), Touched(s, t, e);
    if f.Some? {
      assert s'.files == s.files[f.value := s'.files[f.value]];
      CntUpdate(s.files, f.value, s'.files[f.value], p);
    } else {
      assert s'.files == s.files;
    }
  }

  // ---- Each step keeps the invariant ----

  /** A thread other than the stepping one is as before, or has been woken. */
  predicate SameOrWoken(pc: Pc, pc': Pc) {
    pc' == pc || (pc.Asleep? && pc' == Woken(pc.f, pc.m))
  }

  /** What the stepping thread leaves alone. */
  ghost predicate OthersKept(s: State, s': State, t: nat, tf: Option<nat>) {
    && |s'.threads| == |s.threads| && |s'.files| == |s.files|
    && (forall u :: 0 <= u < |s.threads| && u != t ==> SameOrWoken(s.threads[u], s'.threads[u]))
    && (forall f :: 0 <= f < |s.files| && tf != Some(f) ==> s'.files[f] == s.files[f])
  }

  lemma OthersAcquire(s: State, t: nat)
    requires Enabled(s, t, Run) && Acquiring(s.threads[t])
    ensures OthersKept(s, RunAcquire(s, t), t, Uses(s.threads[t]))
  {
    hide Blocked, Grant, Register, Unregister, Release, WakeAll;
  }

  lemma OthersLoop(s: State, t: nat)
    requires Enabled(s, t, Run) && InLoop(s.threads[t])
    ensures OthersKept(s, RunLoop(s, t), t, Uses(s.threads[t]))
  {
    hide Blocked, Grant, Register, Unregister, Release, WakeAll;
  }

  lemma OthersRelease(s: State, t: nat)
    requires Enabled(s, t, Run) && !Acquiring(s.threads[t]) && !InLoop(s.threads[t])
    ensures OthersKept(s, RunRelease(s, t), t, Uses(s.threads[t]))
  {
    hide Blocked, Grant, Register, Unregister, Release;
  }

  lemma OthersRun(s: State, t: nat)
    requires Enabled(s, t, Run)
    ensures OthersKept(s, Step(s, t, Run), t, Uses(s.threads[t]))
  {
    hide RunAcquire, RunLoop, RunRelease, OthersKept;
    if Acquiring(s.threads[t]) {
      OthersAcquire(s, t);
    } else if InLoop(s.threads[t]) {
      OthersLoop(s, t);
    } else {
      OthersRelease(s, t);
    }
  }

  lemma OtherThreads(s: State, t: nat, e: Event)
    requires Enabled(s, t, e)
    ensures OthersKept(s, Step(s, t, e), t, Touched(s, t, e))
  {
    if e.Run? {
      OthersRun(s, t);
    } else {
      hide RunThread;
    }
  }

  /** What a step does to the two locks, seen from the stepping thread. */
  ghost predicate LockOutcome(s: State, s': State, t: nat) {
    && t < |s.threads| && t < |s'.threads|
    && (HoldsLock(s'.threads[t]) <==> s'.lock == Some(t))
    && (HoldsSched(s'.threads[t]) <==> s'.sched == Some(t))
    && (s'.lock == s.lock || (s.lock.None? && s'.lock == Some(t)) || (s.lock == Some(t) && s'.lock.None?))
    && (s'.sched == s.sched || (s.sched.None? && s'.sched == Some(t)) || (s.sched == Some(t) && s'.sched.None?))
  }

  lemma LockAcquire(s: State, t: nat)
    requires Enabled(s, t, Run) && Acquiring(s.threads[t]) && LocksAgree(s, t)
    ensures LockOutcome(s, RunAcquire(s, t), t)
  {
    hide WakeAll, Blocked, Grant, Register, Unregister, Release;
  }

  lemma LockLoop(s: State, t: nat)
    requires Enabled(s, t, Run) && InLoop(s.threads[t]) && LocksAgree(s, t)
    ensures LockOutcome(s, RunLoop(s, t), t)
  {
    hide WakeAll, Blocked, Grant, Register, Unregister, Release;
  }

  lemma LockRelease(s: State, t: nat)
    requires Enabled(s, t, Run) && !Acquiring(s.threads[t]) && !InLoop(s.threads[t]) && LocksAgree(s, t)
    ensures LockOutcome(s, RunRelease(s, t), t)
  {
    hide WakeAll, Blocked, Grant, Register, Unregister, Release;
  }

  lemma LockRun(s: State, t: nat)
    requires Enabled(s, t, Run) && LocksAgree(s, t)
    ensures LockOutcome(s, Step(s, t, Run), t)
  {
    hide RunAcquire, RunLoop, RunRelease, LockOutcome;
    if Acquiring(s.threads[t]) {
      LockAcquire(s, t);
    } else if InLoop(s.threads[t]) {
      LockLoop(s, t);
    } else {
      LockRelease(s, t);
    }
  }

  /** The stepping thread holds what the two locks say it holds. */
  predicate LocksAgree(s: State, t: nat)
    requires t < |s.threads|
  {
    && (HoldsLock(s.threads[t]) <==> s.lock == Some(t))
    && (HoldsSched(s.threads[t]) <==> s.sched == Some(t))
  }

  lemma LockEffect(s: State, t: nat, e: Event)
    requires Enabled(s, t, e) && LocksAgree(s, t)
    ensures LockOutcome(s, Step(s, t, e), t)
  {
    if e.Run? {
      LockRun(s, t);
    } else {
      hide RunThread;
    }
  }

  lemma LocksKept(s: State, t: nat, e: Event)
    requires LocksOk(s) && Enabled(s, t, e)
    ensures LocksOk(Step(s, t, e))
  {
    OtherThreads(s, t, e);
    assert LocksAgree(s, t);
    LockEffect(s, t, e);
    var s' := Step(s, t, e);
    hide Step, Enabled, Touched;
    forall u | 0 <= u < |s'.threads|
      ensures HoldsLock(s'.threads[u]) <==> s'.lock == Some(u)
      ensures HoldsSched(s'.threads[u]) <==> s'.sched == Some(u)
    {
      assert LocksAgree(s, u);
      if u != t {
        assert SameOrWoken(s.threads[u], s'.threads[u]);
      }
      hide HoldsLock, HoldsSched;
    }
  }

  /** What a step does to the file it touches: nobody else had it in hand, and afterwards only
      the stepping thread may. */
  ghost predicate UseOutcome(s: State, s': State, t: nat, f: nat) {
    && |s'.files| == |s.files| && |s'.threads| == |s.threads| && t < |s.threads| && f < |s.files|
    && (s.files[f].open ==> s.files[f].user.None? || s.files[f].user == Some(t))
    && (s'.files[f].user.Some? ==> s'.files[f].user == Some(t) && Uses(s'.threads[t]) == Some(f))
    && (Uses(s'.threads[t]) == Some(f) ==> UseAt(s'.threads[t], s'.files, t))
    && (Uses(s'.threads[t]).Some? ==> Uses(s'.threads[t]) == Some(f) || s'.threads[t] == s.threads[t])
    && (Uses(s.threads[t]).Some? ==> Uses(s.threads[t]) == Some(f) || s'.threads[t] == s.threads[t])
  }

  lemma UseEffect(s: State, t: nat, e: Event)
    requires Enabled(s, t, e) && UseAt(s.threads[t], s.files, t)
    requires Touched(s, t, e).Some? && Touched(s, t, e).value < |s.files|
    requires s.files[Touched(s, t, e).value].user == Some(t) ==> Uses(s.threads[t]) == Touched(s, t, e)
    ensures UseOutcome(s, Step(s, t, e), t, Touched(s, t, e).value)
  {
    if e.Run? {
      UseEffectRun(s, t);
    } else {
      hide RunThread;
    }
  }

  lemma UseEffectAcquire(s: State, t: nat)
    requires Enabled(s, t, Run) && Acquiring(s.threads[t])
    requires UseAt(s.threads[t], s.files, t) && Uses(s.threads[t]).Some?
    ensures UseOutcome(s, RunAcquire(s, t), t, Uses(s.threads[t]).value)
  {
    hide WakeAll, Blocked, Grant, Register, Unregister, Release;
  }

  lemma UseEffectLoop(s: State, t: nat)
    requires Enabled(s, t, Run) && InLoop(s.threads[t]) && UseAt(s.threads[t], s.files, t) && Uses(s.threads[t]).Some?
    ensures UseOutcome(s, RunLoop(s, t), t, Uses(s.threads[t]).value)
  {
    hide WakeAll, Blocked, Grant, Register, Unregister, Release;
  }

  lemma UseEffectRelease(s: State, t: nat)
    requires Enabled(s, t, Run) && !Acquiring(s.threads[t]) && !InLoop(s.threads[t])
    requires UseAt(s.threads[t], s.files, t) && Uses(s.threads[t]).Some?
    ensures UseOutcome(s, RunRelease(s, t), t, Uses(s.threads[t]).value)
  {
    hide WakeAll, Blocked, Grant, Register, Unregister, Release;
  }

  lemma UseEffectRun(s: State, t: nat)
    requires Enabled(s, t, Run) && UseAt(s.threads[t], s.files, t) && Uses(s.threads[t]).Some?
    ensures UseOutcome(s, Step(s, t, Run), t, Uses(s.threads[t]).value)
  {
    hide RunAcquire, RunLoop, RunRelease, UseOutcome;
    if Acquiring(s.threads[t]) {
      UseEffectAcquire(s, t);
    } else if InLoop(s.threads[t]) {
      UseEffectLoop(s, t);
    } else {
      UseEffectRelease(s, t);
    }
  }

  lemma NoFileEffect(s: State, t: nat, e: Event)
    requires Enabled(s, t, e) && Touched(s, t, e).None?
    ensures Uses(Step(s, t, e).threads[t]) == Uses(s.threads[t])
    ensures Uses(s.threads[t]).Some? ==> Step(s, t, e).threads[t] == s.threads[t]
  {
    hide WakeAll;
  }

  lemma TouchedInRange(s: State, t: nat, e: Event)
    requires Enabled(s, t, e)
    ensures Touched(s, t, e).Some? ==> Touched(s, t, e).value < |s.files|
  {
  }

  /** The hand-over argument, apart from the steps: thread `t` moved, file `tf` may have changed. */
  lemma InHandTransfer(ts: seq<Pc>, fs: seq<File>, ts': seq<Pc>, fs': seq<File>, t: nat, tf: Option<nat>)
    requires InHand(ts, fs) && |ts'| == |ts| && |fs'| == |fs| && t < |ts|
    requires forall u :: 0 <= u < |ts| && u != t ==> SameOrWoken(ts[u], ts'[u])
    requires forall f :: 0 <= f < |fs| && tf != Some(f) ==> fs'[f] == fs[f]
    requires tf.Some? ==> tf.value < |fs|
    requires tf.Some? && fs[tf.value].open ==> fs[tf.value].user.None? || fs[tf.value].user == Some(t)
    requires tf.Some? && fs'[tf.value].user.Some? ==> fs'[tf.value].user == Some(t) && Uses(ts'[t]) == tf
    requires Uses(ts'[t]).Some? ==> if Uses(ts'[t]) == tf then UseAt(ts'[t], fs', t) else ts'[t] == ts[t]
    requires Uses(ts[t]).Some? ==> Uses(ts[t]) == tf || ts'[t] == ts[t]
    ensures InHand(ts', fs')
  {
    forall u | 0 <= u < |ts|
      ensures UseAt(ts'[u], fs', u)
    {
      assert UseAt(ts[u], fs, u);
      assert u != t ==> Uses(ts'[u]) == Uses(ts[u]);
    }
    forall f | 0 <= f < |fs|
      ensures UserAt(fs'[f], f, ts')
    {
      assert UserAt(fs[f], f, ts);
    }
  }

  lemma UseKept(s: State, t: nat, e: Event)
    requires UseOk(s) && Enabled(s, t, e)
    ensures UseOk(Step(s, t, e))
  {
    OtherThreads(s, t, e);
    TouchedInRange(s, t, e);
    hide Step, Enabled, Uses;
    assert UseAt(s.threads[t], s.files, t);
    hide UseAt;
    var tf := Touched(s, t, e);
    if tf.Some? {
      assert UserAt(s.files[tf.value], tf.value, s.threads);
      UseEffect(s, t, e);
    } else {
      NoFileEffect(s, t, e);
    }
    InHandTransfer(s.threads, s.files, Step(s, t, e).threads, Step(s, t, e).files, t, tf);
  }

  function FileB(p: File -> bool, files: seq<File>, tf: Option<nat>): (n: nat) {
    if tf.Some? && tf.value < |files| then B(p(files[tf.value])) else 0
  }

  predicate InEngine(pc: Pc) {
    pc.RelIn? || pc.AcqIn? || pc.WaitTest?
  }

  ghost predicate OwnersBalance(s: State, s': State, t: nat, tf: Option<nat>)
    requires t < |s.threads| && t < |s'.threads|
  {
    && s'.fl.holders + B(FlightSh(s.threads[t])) + FileB(FileSh, s.files, tf)
       == s.fl.holders + B(FlightSh(s'.threads[t])) + FileB(FileSh, s'.files, tf)
    && B(s'.fl.state == Exclusive) + B(FlightEx(s.threads[t])) + FileB(FileEx, s.files, tf)
       == B(s.fl.state == Exclusive) + B(FlightEx(s'.threads[t])) + FileB(FileEx, s'.files, tf)
  }

  /** Outside the lock engine ownership only moves between a file at rest and a thread. */
  lemma OwnersMove(s: State, t: nat, e: Event)
    requires Enabled(s, t, e) && !e.Recycle? && UseAt(s.threads[t], s.files, t)
    requires e.Run? ==> !InEngine(s.threads[t])
    ensures |Step(s, t, e).threads| == |s.threads| && Step(s, t, e).fl == s.fl
    ensures OwnersBalance(s, Step(s, t, e), t, Touched(s, t, e))
  {
    if e.Run? {
      OwnersMoveRun(s, t);
    } else {
      hide RunThread;
    }
  }

  lemma OwnersMoveAcquire(s: State, t: nat)
    requires Enabled(s, t, Run) && Acquiring(s.threads[t])
    requires UseAt(s.threads[t], s.files, t) && !InEngine(s.threads[t])
    ensures |RunAcquire(s, t).threads| == |s.threads| && RunAcquire(s, t).fl == s.fl
    ensures OwnersBalance(s, RunAcquire(s, t), t, Uses(s.threads[t]))
  {
    hide WakeAll, Release, Grant, Register, Unregister;
  }

  lemma OwnersMoveLoop(s: State, t: nat)
    requires Enabled(s, t, Run) && InLoop(s.threads[t])
    requires UseAt(s.threads[t], s.files, t) && !InEngine(s.threads[t])
    ensures |RunLoop(s, t).threads| == |s.threads| && RunLoop(s, t).fl == s.fl
    ensures OwnersBalance(s, RunLoop(s, t), t, Uses(s.threads[t]))
  {
    hide WakeAll, Release, Grant, Register, Unregister;
  }

  lemma OwnersMoveRelease(s: State, t: nat)
    requires Enabled(s, t, Run) && !Acquiring(s.threads[t]) && !InLoop(s.threads[t])
    requires UseAt(s.threads[t], s.files, t) && !InEngine(s.threads[t])
    ensures |RunRelease(s, t).threads| == |s.threads| && RunRelease(s, t).fl == s.fl
    ensures OwnersBalance(s, RunRelease(s, t), t, Uses(s.threads[t]))
  {
    hide WakeAll, Release, Grant, Register, Unregister;
  }

  lemma OwnersMoveRun(s: State, t: nat)
    requires Enabled(s, t, Run)
    requires UseAt(s.threads[t], s.files, t) && !InEngine(s.threads[t])
    ensures |Step(s, t, Run).threads| == |s.threads| && Step(s, t, Run).fl == s.fl
    ensures OwnersBalance(s, Step(s, t, Run), t, Uses(s.threads[t]))
  {
    hide RunAcquire, RunLoop, RunRelease, OwnersBalance, UseAt;
    if Acquiring(s.threads[t]) {
      OwnersMoveAcquire(s, t);
    } else if InLoop(s.threads[t]) {
      OwnersMoveLoop(s, t);
    } else {
      OwnersMoveRelease(s, t);
    }
  }

  /** The lock is shared exactly while it has shared holders. */
  predicate SharedHeld(fl: Fl) {
    fl.state == Shared <==> fl.holders > 0
  }

  /** Inside it, a grant creates one owner and a release destroys one. */
  lemma OwnersEngineAcquire(s: State, t: nat)
    requires Enabled(s, t, Run) && Acquiring(s.threads[t])
    requires InEngine(s.threads[t]) && SharedHeld(s.fl) && s.fl.holders >= B(FlightSh(s.threads[t]))
             && (FlightEx(s.threads[t]) ==> s.fl.state == Exclusive)
    ensures |RunAcquire(s, t).threads| == |s.threads| && SharedHeld(RunAcquire(s, t).fl)
    ensures OwnersBalance(s, RunAcquire(s, t), t, Uses(s.threads[t]))
  {
    hide WakeAll, Join, Leave, Release, Unregister;
  }

  lemma OwnersEngineLoop(s: State, t: nat)
    requires Enabled(s, t, Run) && InLoop(s.threads[t])
    requires InEngine(s.threads[t]) && SharedHeld(s.fl) && s.fl.holders >= B(FlightSh(s.threads[t]))
             && (FlightEx(s.threads[t]) ==> s.fl.state == Exclusive)
    ensures |RunLoop(s, t).threads| == |s.threads| && SharedHeld(RunLoop(s, t).fl)
    ensures OwnersBalance(s, RunLoop(s, t), t, Uses(s.threads[t]))
  {
    hide WakeAll, Join, Leave, Release, Register;
  }

  lemma OwnersEngineRelease(s: State, t: nat)
    requires Enabled(s, t, Run) && !Acquiring(s.threads[t]) && !InLoop(s.threads[t])
    requires InEngine(s.threads[t]) && SharedHeld(s.fl) && s.fl.holders >= B(FlightSh(s.threads[t]))
             && (FlightEx(s.threads[t]) ==> s.fl.state == Exclusive)
    ensures |RunRelease(s, t).threads| == |s.threads| && SharedHeld(RunRelease(s, t).fl)
    ensures OwnersBalance(s, RunRelease(s, t), t, Uses(s.threads[t]))
  {
    hide WakeAll, Join, Leave, Blocked, Grant, Register, Unregister;
  }

  lemma OwnersEngineRun(s: State, t: nat)
    requires Enabled(s, t, Run)
    requires InEngine(s.threads[t]) && SharedHeld(s.fl) && s.fl.holders >= B(FlightSh(s.threads[t]))
             && (FlightEx(s.threads[t]) ==> s.fl.state == Exclusive)
    ensures |Step(s, t, Run).threads| == |s.threads| && SharedHeld(Step(s, t, Run).fl)
    ensures OwnersBalance(s, Step(s, t, Run), t, Uses(s.threads[t]))
  {
    hide RunAcquire, RunLoop, RunRelease, OwnersBalance, SharedHeld;
    if Acquiring(s.threads[t]) {
      OwnersEngineAcquire(s, t);
    } else if InLoop(s.threads[t]) {
      OwnersEngineLoop(s, t);
    } else {
      OwnersEngineRelease(s, t);
    }
  }

  lemma FilesBalance(s: State, t: nat, e: Event, p: File -> bool)
    requires Enabled(s, t, e)
    ensures var s', tf := Step(s, t, e), Touched(s, t, e);
            Cnt(s'.files, p) + FileB(p, s.files, tf) == Cnt(s.files, p) + FileB(p, s'.files, tf)
  {
    hide Cnt, Step;
    FilesCount(s, t, e, p);
  }

  /** The lock's own account of its owners, across any step. */
  lemma OwnersEffect(s: State, t: nat, e: Event)
    requires UseOk(s) && OwnersOk(s) && Enabled(s, t, e) && !e.Recycle?
    ensures |Step(s, t, e).threads| == |s.threads| && SharedHeld(Step(s, t, e).fl)
    ensures OwnersBalance(s, Step(s, t, e), t, Touched(s, t, e))
  {
    assert UseAt(s.threads[t], s.files, t);
    hide Cnt, Step, InHand, UseAt, OwnersBalance;
    if e.Run? && InEngine(s.threads[t]) {
      if FlightSh(s.threads[t]) {
        CntPositive(s.threads, t, FlightSh);
      }
      if FlightEx(s.threads[t]) {
        CntPositive(s.threads, t, FlightEx);
      }
      OwnersEngineRun(s, t);
    } else {
      OwnersMove(s, t, e);
    }
  }

  lemma OwnersKept(s: State, t: nat, e: Event)
    requires UseOk(s) && OwnersOk(s) && Enabled(s, t, e) && !e.Recycle?
    ensures OwnersOk(Step(s, t, e))
  {
    OwnersEffect(s, t, e);
    hide Cnt, Step, UseOk, Touched, FileB;
    ThreadsCount(s, t, e, FlightSh);
    ThreadsCount(s, t, e, FlightEx);
    hide Enabled;
    FilesBalance(s, t, e, FileSh);
    FilesBalance(s, t, e, FileEx);
  }

  /** The reference count moves with the open and the closing files. */
  ghost predicate RefBalance(s: State, s': State, t: nat, tf: Option<nat>)
    requires t < |s.threads|
  {
    && t < |s'.threads|
    && s'.ref - s'.others + B(Closing(s.threads[t])) + FileB(FileOpen, s.files, tf)
       == s.ref - s.others + B(Closing(s'.threads[t])) + FileB(FileOpen, s'.files, tf)
  }

  lemma RefEffectAcquire(s: State, t: nat)
    requires Enabled(s, t, Run) && Acquiring(s.threads[t]) && UseAt(s.threads[t], s.files, t)
    ensures RefBalance(s, RunAcquire(s, t), t, Uses(s.threads[t]))
  {
    hide WakeAll, Blocked, Grant, Register, Unregister, Release;
  }

  lemma RefEffectLoop(s: State, t: nat)
    requires Enabled(s, t, Run) && InLoop(s.threads[t]) && UseAt(s.threads[t], s.files, t)
    ensures RefBalance(s, RunLoop(s, t), t, Uses(s.threads[t]))
  {
    hide WakeAll, Blocked, Grant, Register, Unregister, Release;
  }

  lemma RefEffectRelease(s: State, t: nat)
    requires Enabled(s, t, Run) && !Acquiring(s.threads[t]) && !InLoop(s.threads[t]) && UseAt(s.threads[t], s.files, t)
    ensures RefBalance(s, RunRelease(s, t), t, Uses(s.threads[t]))
  {
    hide WakeAll, Blocked, Grant, Register, Unregister, Release;
  }

  lemma RefEffectRun(s: State, t: nat)
    requires Enabled(s, t, Run) && UseAt(s.threads[t], s.files, t)
    ensures RefBalance(s, Step(s, t, Run), t, Uses(s.threads[t]))
  {
    hide RunAcquire, RunLoop, RunRelease, RefBalance;
    if Acquiring(s.threads[t]) {
      RefEffectAcquire(s, t);
    } else if InLoop(s.threads[t]) {
      RefEffectLoop(s, t);
    } else {
      RefEffectRelease(s, t);
    }
  }

  lemma RefEffect(s: State, t: nat, e: Event)
    requires Enabled(s, t, e) && UseAt(s.threads[t], s.files, t)
    ensures RefBalance(s, Step(s, t, e), t, Touched(s, t, e))
  {
    if e.Run? {
      RefEffectRun(s, t);
    } else {
      hide RunThread;
    }
  }

  lemma RefKept(s: State, t: nat, e: Event)
    requires UseOk(s) && RefOk(s) && Enabled(s, t, e)
    ensures RefOk(Step(s, t, e))
  {
    TouchedInRange(s, t, e);
    hide Cnt, Step;
    assert UseAt(s.threads[t], s.files, t);
    hide InHand, UseAt, Enabled;
    ThreadsCount(s, t, e, Closing);
    FilesCount(s, t, e, FileOpen);
    RefEffect(s, t, e);
  }

  /** Nothing about waiting changes. */
  ghost predicate WaitersSame(s: State, s': State, t: nat)
    requires t < |s.threads|
  {
    && |s'.threads| == |s.threads|
    && s'.fl.queue == s.fl.queue && s'.fl.waitSh == s.fl.waitSh && s'.fl.waitEx == s.fl.waitEx
    && WaitSh(s'.threads[t]) == WaitSh(s.threads[t]) && WaitEx(s'.threads[t]) == WaitEx(s.threads[t])
  }

  /** So it is away from the two places that register and unregister. */
  lemma WaitersMove(s: State, t: nat, e: Event)
    requires Enabled(s, t, e) && !e.Recycle?
    requires e.Run? ==> !s.threads[t].AcqIn? && !s.threads[t].WaitTest?
    ensures WaitersSame(s, Step(s, t, e), t)
  {
    if e.Run? {
      WaitersMoveRun(s, t);
    } else {
      hide RunThread;
    }
  }

  lemma WaitersMoveAcquire(s: State, t: nat)
    requires Enabled(s, t, Run) && Acquiring(s.threads[t])
    requires !s.threads[t].AcqIn? && !s.threads[t].WaitTest?
    ensures WaitersSame(s, RunAcquire(s, t), t)
  {
    hide WakeAll, Release, Blocked, Grant, Register, Unregister;
  }

  lemma WaitersMoveLoop(s: State, t: nat)
    requires Enabled(s, t, Run) && InLoop(s.threads[t])
    requires !s.threads[t].AcqIn? && !s.threads[t].WaitTest?
    ensures WaitersSame(s, RunLoop(s, t), t)
  {
    hide WakeAll, Release, Blocked, Grant, Register, Unregister;
  }

  lemma WaitersMoveRelease(s: State, t: nat)
    requires Enabled(s, t, Run) && !Acquiring(s.threads[t]) && !InLoop(s.threads[t])
    requires !s.threads[t].AcqIn? && !s.threads[t].WaitTest?
    ensures WaitersSame(s, RunRelease(s, t), t)
  {
    hide WakeAll, Blocked, Grant, Register, Unregister;
  }

  lemma WaitersMoveRun(s: State, t: nat)
    requires Enabled(s, t, Run)
    requires !s.threads[t].AcqIn? && !s.threads[t].WaitTest?
    ensures WaitersSame(s, Step(s, t, Run), t)
  {
    hide RunAcquire, RunLoop, RunRelease, WaitersSame;
    if Acquiring(s.threads[t]) {
      WaitersMoveAcquire(s, t);
    } else if InLoop(s.threads[t]) {
      WaitersMoveLoop(s, t);
    } else {
      WaitersMoveRelease(s, t);
    }
  }

  /** The same processes wait, except that `t` does exactly when `on`. */
  ghost predicate QueueToggled(q: seq<Waiter>, q': seq<Waiter>, t: nat, n: nat, on: bool) {
    && Proper(q', n) && (Waits(q', t) <==> on)
    && (forall p :: p != t ==> (Waits(q', p) <==> Waits(q, p)))
  }

  lemma RegisterEffect(fl: Fl, t: nat, m: Mode, n: nat)
    requires Proper(fl.queue, n) && t < n && !Waits(fl.queue, t)
    ensures QueueToggled(fl.queue, Register(fl, t, m).queue, t, n, true)
    ensures |Register(fl, t, m).queue| == |fl.queue| + 1
  {
    JoinLeave(fl.queue, t, m, n);
    LeaveLength(fl.queue, t);
    hide Join, Leave, Waits, Proper;
  }

  lemma UnregisterEffect(fl: Fl, t: nat, m: Mode, n: nat)
    requires Proper(fl.queue, n) && t < n && Waits(fl.queue, t)
    requires if m == Sh then fl.waitSh > 0 else fl.waitEx > 0
    ensures QueueToggled(fl.queue, Unregister(fl, t, m).queue, t, n, false)
    ensures |Unregister(fl, t, m).queue| == |fl.queue| - 1
  {
    JoinLeave(fl.queue, t, m, n);
    LeaveLength(fl.queue, t);
    hide Join, Leave, Waits, Proper;
  }

  /** Registering appends the thread, unregistering removes it, anything else leaves it be. */
  lemma WaitersEngine(s: State, t: nat)
    requires Enabled(s, t, Run) && (s.threads[t].AcqIn? || s.threads[t].WaitTest?)
    requires Proper(s.fl.queue, |s.threads|) && (Waits(s.fl.queue, t) <==> s.threads[t].WaitTest?)
    ensures var s' := Step(s, t, Run);
            && |s'.threads| == |s.threads|
            && s'.fl.waitSh + B(WaitSh(s.threads[t])) == s.fl.waitSh + B(WaitSh(s'.threads[t]))
            && s'.fl.waitEx + B(WaitEx(s.threads[t])) == s.fl.waitEx + B(WaitEx(s'.threads[t]))
            && |s'.fl.queue| - s'.fl.waitSh - s'.fl.waitEx == |s.fl.queue| - s.fl.waitSh - s.fl.waitEx
            && QueueToggled(s.fl.queue, s'.fl.queue, t, |s.threads|, Waiting(s'.threads[t]))
  {
    hide Waits, Proper, Join, Leave, QueueToggled;
    QueueSame(s.fl.queue, t, |s.threads|);
    if s.threads[t].AcqIn? {
      if s.threads[t].op.Lock? {
        RegisterEffect(s.fl, t, s.threads[t].op.mode, |s.threads|);
      }
    } else {
      UnregisterEffect(s.fl, t, s.threads[t].m, |s.threads|);
    }
  }

  lemma QueueSame(q: seq<Waiter>, t: nat, n: nat)
    requires Proper(q, n)
    ensures QueueToggled(q, q, t, n, Waits(q, t))
  {
  }

  lemma LeaveLength(q: seq<Waiter>, pid: nat)
    ensures Waits(q, pid) ==> |Leave(q, pid)| == |q| - 1
    ensures !Waits(q, pid) ==> forall m :: |Join(q, pid, m)| == |q| + 1
  {
    var i := PlaceOf(q, pid);
    if i < |q| {
      assert q[i].pid == pid;
    }
  }

  lemma WaitersTransfer(ts: seq<Pc>, ts': seq<Pc>, q: seq<Waiter>, q': seq<Waiter>, t: nat)
    requires |ts'| == |ts| && t < |ts| && (forall u :: 0 <= u < |ts| && u != t ==> SameOrWoken(ts[u], ts'[u]))
    requires forall u :: 0 <= u < |ts| ==> (Waits(q, u) <==> Waiting(ts[u]))
    requires QueueToggled(q, q', t, |ts|, Waiting(ts'[t]))
    ensures Proper(q', |ts'|) && forall u :: 0 <= u < |ts'| ==> (Waits(q', u) <==> Waiting(ts'[u]))
  {
    hide Waits, Proper;
  }

  lemma WaitersKept(s: State, t: nat, e: Event)
    requires WaitersOk(s) && Enabled(s, t, e) && !e.Recycle?
    ensures WaitersOk(Step(s, t, e))
  {
    OtherThreads(s, t, e);
    hide Cnt, Step, Enabled, Waits, Proper, Touched, QueueToggled;
    var s' := Step(s, t, e);
    ThreadsCount(s, t, e, WaitSh);
    ThreadsCount(s, t, e, WaitEx);
    assert Waits(s.fl.queue, t) <==> Waiting(s.threads[t]);
    if e.Run? && (s.threads[t].AcqIn? || s.threads[t].WaitTest?) {
      WaitersEngine(s, t);
    } else {
      WaitersMove(s, t, e);
      QueueSame(s.fl.queue, t, |s.threads|);
    }
    WaitersTransfer(s.threads, s'.threads, s.fl.queue, s'.fl.queue, t);
  }

  /** What a step does to the waiting conditions of everybody else. */
  lemma BlockedEffect(s: State, t: nat, e: Event, m: Mode)
    requires Enabled(s, t, e) && !e.Recycle?
    ensures var s' := Step(s, t, e);
            Blocked(s.fl, m) ==> Blocked(s'.fl, m) || (e.Run? && s.threads[t].RelIn? && s'.threads[t].RelWake?)
  {
    hide WakeAll, Join, Leave;
  }

  /** How the stepping thread itself comes closer to sleep. */
  ghost predicate SleepOutcome(s: State, s': State, t: nat)
    requires t < |s.threads|
  {
    && |s'.threads| == |s.threads| &&
    var pc, pc' := s.threads[t], s'.threads[t];
    && (pc'.SleepA? || pc'.SleepB? || pc'.SleepC? || pc'.Asleep? ==> s'.fl == s.fl)
    && (pc'.SleepA? ==> pc' == pc || (pc == WaitTest(pc'.f, pc'.m) && Blocked(s.fl, pc'.m)))
    && (pc'.SleepB? ==> pc' == pc || pc == SleepA(pc'.f, pc'.m))
    && (pc'.SleepC? ==> pc' == pc || pc == SleepB(pc'.f, pc'.m))
    && (pc'.Asleep? ==> (pc' == pc || pc == SleepC(pc'.f, pc'.m)) && s'.lock == s.lock)
    && (pc.RelWake? && pc' != pc ==>
          s.sched.None? && forall u :: 0 <= u < |s.threads| ==> !s'.threads[u].Asleep?)
    && (pc.RelIn? && pc'.RelWake? ==> s'.lock == s.lock)
  }

  lemma SleepAcquire(s: State, t: nat)
    requires Enabled(s, t, Run) && Acquiring(s.threads[t])
    ensures SleepOutcome(s, RunAcquire(s, t), t)
  {
    hide Blocked, Grant, Register, Unregister, Release, WakeAll;
  }

  lemma SleepLoop(s: State, t: nat)
    requires Enabled(s, t, Run) && InLoop(s.threads[t])
    ensures SleepOutcome(s, RunLoop(s, t), t)
  {
    hide Grant, Register, Unregister, Release, WakeAll;
  }

  lemma SleepRelease(s: State, t: nat)
    requires Enabled(s, t, Run) && !Acquiring(s.threads[t]) && !InLoop(s.threads[t])
    ensures SleepOutcome(s, RunRelease(s, t), t)
  {
    hide Blocked, Grant, Register, Unregister, Release;
  }

  lemma SleepRun(s: State, t: nat)
    requires Enabled(s, t, Run)
    ensures SleepOutcome(s, Step(s, t, Run), t)
  {
    hide RunAcquire, RunLoop, RunRelease, SleepOutcome;
    if Acquiring(s.threads[t]) {
      SleepAcquire(s, t);
    } else if InLoop(s.threads[t]) {
      SleepLoop(s, t);
    } else {
      SleepRelease(s, t);
    }
  }

  lemma SleepEffect(s: State, t: nat, e: Event)
    requires Enabled(s, t, e) && !e.Recycle?
    ensures SleepOutcome(s, Step(s, t, e), t)
  {
    if e.Run? {
      SleepRun(s, t);
    } else {
      hide RunThread;
    }
  }

  lemma WakeKept(s: State, t: nat, e: Event)
    requires LocksOk(s) && WakeOk(s) && Enabled(s, t, e) && !e.Recycle?
    ensures WakeOk(Step(s, t, e))
  {
    OtherThreads(s, t, e);
    LockEffect(s, t, e);
    SleepEffect(s, t, e);
    BlockedEffect(s, t, e, Sh);
    BlockedEffect(s, t, e, Ex);
    hide Step, Enabled, Touched, Blocked;
    var s' := Step(s, t, e);
    forall u | 0 <= u < |s.threads|
      ensures s'.threads[u].SleepA? || s'.threads[u].SleepB? ==> Blocked(s'.fl, s'.threads[u].m)
      ensures s'.threads[u].SleepC? || s'.threads[u].Asleep? ==> Blocked(s'.fl, s'.threads[u].m) || WakeDue(s')
    {
    }
  }

  /** A slot whose reference count is zero has nobody on it, so flock_init in inode_get finds
      the lock exactly as flock_init would leave it. */
  lemma RecycleIsClean(s: State)
    requires Inv(s) && s.ref == 0
    ensures s.fl == FRESH && s.lock.None? && s.others == 0
    ensures forall t :: 0 <= t < |s.threads| ==> s.threads[t].Idle?
  {
    forall t | 0 <= t < |s.threads|
      ensures s.threads[t].Idle?
    {
      if IsClosing(s.threads[t]) {
        CntPositive(s.threads, t, Closing);
      }
      assert UseAt(s.threads[t], s.files, t);
      if Uses(s.threads[t]).Some? {
        CntPositive(s.files, Uses(s.threads[t]).value, FileOpen);
      }
    }
    hide Cnt;
    CntZero(s.threads, WaitSh);
    CntZero(s.threads, WaitEx);
    CntZero(s.threads, FlightSh);
    CntZero(s.threads, FlightEx);
    forall f | 0 <= f < |s.files|
      ensures !FileSh(s.files[f]) && !FileEx(s.files[f])
    {
      if s.files[f].open {
        CntPositive(s.files, f, FileOpen);
      }
    }
    CntZero(s.files, FileSh);
    CntZero(s.files, FileEx);
  }

  lemma StepKeepsInv(s: State, t: nat, e: Event)
    requires Inv(s) && Enabled(s, t, e)
    ensures Inv(Step(s, t, e))
  {
    hide LocksOk, UseOk, OwnersOk, WaitersOk, WakeOk, RefOk;
    LocksKept(s, t, e);
    UseKept(s, t, e);
    RefKept(s, t, e);
    if e.Recycle? {
      RecycleIsClean(s);
      RecycleKept(s, t);
    } else {
      OwnersKept(s, t, e);
      WaitersKept(s, t, e);
      WakeKept(s, t, e);
    }
  }

  lemma RecycleKept(s: State, t: nat)
    requires OwnersOk(s) && WaitersOk(s) && WakeOk(s) && Enabled(s, t, Recycle) && s.fl == FRESH
    ensures var s' := Step(s, t, Recycle); OwnersOk(s') && WaitersOk(s') && WakeOk(s')
  {
    hide Cnt, Waits, Proper;
  }

  // ---- Runs ----

  datatype Act = Act(t: nat, e: Event)

  ghost predicate Initial(s: State) {
    && (forall t :: 0 <= t < |s.threads| ==> s.threads[t].Idle?)
    && (forall f :: 0 <= f < |s.files| ==> s.files[f] == File(false, None, None))
    && s.lock.None? && s.sched.None? && s.fl == FRESH && s.ref == 0 && s.others == 0
  }

  /** `run` lists the states of an execution, `acts` the steps between them. */
  ghost predicate Execution(run: seq<State>, acts: seq<Act>) {
    && |run| == |acts| + 1
    && (forall i :: 0 <= i < |acts| ==>
          Enabled(run[i], acts[i].t, acts[i].e) && run[i + 1] == Step(run[i], acts[i].t, acts[i].e))
  }

  lemma InitialInv(s: State)
    requires Initial(s)
    ensures Inv(s)
  {
    CntZero(s.threads, WaitSh);
    CntZero(s.threads, WaitEx);
    CntZero(s.threads, FlightSh);
    CntZero(s.threads, FlightEx);
    CntZero(s.threads, Closing);
    CntZero(s.files, FileSh);
    CntZero(s.files, FileEx);
    CntZero(s.files, FileOpen);
  }

  lemma {:induction false} ReachableInv(run: seq<State>, acts: seq<Act>, i: nat)
    requires Execution(run, acts) && Initial(run[0]) && i < |run|
    ensures Inv(run[i])
  {
    hide Inv, Step, Enabled;
    if i == 0 {
      InitialInv(run[0]);
    } else {
      ReachableInv(run, acts, i - 1);
      StepKeepsInv(run[i - 1], acts[i - 1].t, acts[i - 1].e);
    }
  }
}
