/** flock(2) on one inode as a step relation: any number of processes run file_flock and
    file_close (kern/fs/file.c) over the lock engine, with fl->lock, the scheduler lock taken
    inside thread_sleep and thread_wakeup (kern/thread/PThread/PThread.c), and the inode's
    reference count (kern/fs/inode.c) spelled out.  One step per critical section or per
    hand-over between two locks. */
module FlockProtocol {
  import opened WaitQueue
  import opened Flock

  datatype Option<T> = None | Some(value: T)

  /** What a thread does after flock_release. */
  datatype Next = Finish(f: nat) | Acquire(f: nat, op: Request) | Close

  datatype Pc =
    | Idle
    | Start(f: nat, op: Request, h: Option<Mode>)  // file_flock has read holding_flock
    | RelWant(m: Mode, k: Next)                    // flock_release: wants fl->lock
    | RelIn(m: Mode, k: Next)                      // holds it
    | RelWake(k: Next)                             // holds it, state is inactive, wakeup is due
    | RelOut(k: Next)                              // holds it, about to release it
    | RelDone(k: Next)                             // about to clear holding_flock
    | AcqWant(f: nat, op: Request)                 // flock_acquire: wants fl->lock
    | AcqIn(f: nat, op: Request)                   // holds it
    | WaitTest(f: nat, m: Mode)                    // holds it, registered, at the loop test
    | SleepA(f: nat, m: Mode)                      // in thread_sleep, wants sched_lk
    | SleepB(f: nat, m: Mode)                      // holds both locks
    | SleepC(f: nat, m: Mode)                      // holds sched_lk only
    | Asleep(f: nat, m: Mode)
    | Woken(f: nat, m: Mode)                       // runnable, its channel still set
    | Relock(f: nat, m: Mode)                      // channel cleared, wants fl->lock
    | Granted(f: nat, m: Mode)                     // holds fl->lock and the file lock
    | Acquired(f: nat, m: Mode)                    // about to store holding_flock
    | Refused(f: nat)                              // holds fl->lock, will return -1
    | PutWant                                      // file_close: about to inode_put

  /** A struct file: open on this inode or not, holding_flock, and the thread inside file_flock. */
  datatype File = File(open: bool, hold: Option<Mode>, user: Option<nat>)

  /** `ref` is the inode's count; `others` of it belong to callers that hold no file. */
  datatype State = State(threads: seq<Pc>, files: seq<File>, lock: Option<nat>, sched: Option<nat>,
                         fl: Fl, ref: int, others: nat)

  datatype Event = Enter(f: nat, op: Request) | Run | CloseFile(f: nat) | OpenFile(f: nat) | Get | Put | Recycle

  // ---- Reading a program counter ----

  function FileOf(k: Next): (f: Option<nat>) {
    if k.Close? then None else Some(k.f)
  }

  function Uses(pc: Pc): (f: Option<nat>) {
    match pc
    case Idle => None
    case PutWant => None
    case RelWant(_, k) => FileOf(k)
    case RelIn(_, k) => FileOf(k)
    case RelWake(k) => FileOf(k)
    case RelOut(k) => FileOf(k)
    case RelDone(k) => FileOf(k)
    case _ => Some(pc.f)
  }

  predicate HoldsLock(pc: Pc) {
    pc.RelIn? || pc.RelWake? || pc.RelOut? || pc.AcqIn? || pc.WaitTest? || pc.SleepA? || pc.SleepB?
    || pc.Granted? || pc.Refused?
  }

  predicate HoldsSched(pc: Pc) {
    pc.SleepB? || pc.SleepC?
  }

  /** Registered in the wait queue. */
  predicate Waiting(pc: Pc) {
    pc.WaitTest? || pc.SleepA? || pc.SleepB? || pc.SleepC? || pc.Asleep? || pc.Woken? || pc.Relock?
  }

  predicate IsClosing(pc: Pc) {
    match pc
    case PutWant => true
    case RelWant(_, k) => k.Close?
    case RelIn(_, k) => k.Close?
    case RelWake(k) => k.Close?
    case RelOut(k) => k.Close?
    case RelDone(k) => k.Close?
    case _ => false
  }

  /** The file lock a thread holds in flight, on behalf of the file it works on. */
  function InFlight(pc: Pc): (m: Option<Mode>) {
    match pc
    case Start(_, _, h) => h
    case RelWant(m, _) => Some(m)
    case RelIn(m, _) => Some(m)
    case Granted(_, m) => Some(m)
    case Acquired(_, m) => Some(m)
    case _ => None
  }

  /** What an open file at rest holds. */
  function AtRest(x: File): (m: Option<Mode>) {
    if x.open && x.user.None? then x.hold else None
  }

  // ---- Steps ----

  predicate WellSized(s: State, t: nat) {
    t < |s.threads| && forall u :: 0 <= u < |s.threads| ==>
      (Uses(s.threads[u]).Some? ==> Uses(s.threads[u]).value < |s.files|)
  }

  function SetPc(s: State, t: nat, pc: Pc): (s': State)
    requires t < |s.threads|
  {
    s.(threads := s.threads[t := pc])
  }

  function SetFile(s: State, f: nat, x: File): (s': State)
    requires f < |s.files|
  {
    s.(files := s.files[f := x])
  }

  predicate Enabled(s: State, t: nat, e: Event) {
    WellSized(s, t) &&
    match e
    case Enter(f, _) => s.threads[t].Idle? && f < |s.files| && s.files[f].open && s.files[f].user.None?
    case CloseFile(f) => s.threads[t].Idle? && f < |s.files| && s.files[f].open && s.files[f].user.None?
    case OpenFile(f) => f < |s.files| && !s.files[f].open && s.others > 0
    case Get => s.ref > 0
    case Put => s.others > 0
    case Recycle => s.ref == 0
    case Run => CanRun(s, s.threads[t])
  }

  /** A thread that needs a lock waits until it is free; a sleeper waits to be woken. */
  predicate CanRun(s: State, pc: Pc) {
    match pc
    case Idle => false
    case Asleep(_, _) => false
    case RelWant(_, _) => s.lock.None?
    case AcqWant(_, _) => s.lock.None?
    case Relock(_, _) => s.lock.None?
    case RelWake(_) => s.sched.None?
    case SleepA(_, _) => s.sched.None?
    case Woken(_, _) => s.sched.None?
    case WaitTest(_, m) => if m == Sh then s.fl.waitSh > 0 else s.fl.waitEx > 0
    case _ => true
  }

  /** file_flock's decision once it has read holding_flock. */
  function Decide(f: nat, op: Request, h: Option<Mode>): (pc: Pc) {
    match h
    case None => if op.Unlock? then Idle else AcqWant(f, op)
    case Some(m) =>
      if op.Unlock? then RelWant(m, Finish(f))
      else if op.Lock? && op.mode == m then Idle
      else RelWant(m, Acquire(f, op))
  }

  /** thread_wakeup as the waiters see it.  A `Woken` thread is on the channel too, and the code
      enqueues it again; FlockScheduling says exactly when the ready queue bears that. */
  function WakeAll(threads: seq<Pc>): (r: seq<Pc>)
    ensures |r| == |threads|
    ensures forall u :: 0 <= u < |threads| ==>
      r[u] == if threads[u].Asleep? then Woken(threads[u].f, threads[u].m) else threads[u]
  {
    seq(|threads|, u requires 0 <= u < |threads| =>
      if threads[u].Asleep? then Woken(threads[u].f, threads[u].m) else threads[u])
  }

  /** Leave file_flock: the file is at rest again. */
  function Return(s: State, t: nat, f: nat, hold: Option<Mode>): (s': State)
    requires t < |s.threads| && f < |s.files|
  {
    SetFile(SetPc(s, t, Idle), f, s.files[f].(hold := hold, user := None))
  }

  /** In file_flock and flock_acquire, outside the waiting loop. */
  predicate Acquiring(pc: Pc) {
    pc.Start? || pc.AcqWant? || pc.AcqIn? || pc.Granted? || pc.Acquired? || pc.Refused?
  }

  /** In the waiting loop of flock_acquire, thread_sleep included. */
  predicate InLoop(pc: Pc) {
    pc.WaitTest? || pc.SleepA? || pc.SleepB? || pc.SleepC? || pc.Woken? || pc.Relock?
  }

  function RunAcquire(s: State, t: nat): (s': State)
    requires WellSized(s, t) && Acquiring(s.threads[t])
  {
    match s.threads[t]
    case Start(f, op, h) =>
      if Decide(f, op, h).Idle? then Return(s, t, f, s.files[f].hold) else SetPc(s, t, Decide(f, op, h))
    case AcqWant(f, op) => SetPc(s, t, AcqIn(f, op)).(lock := Some(t))
    case AcqIn(f, op) =>
      if !op.Lock? then SetPc(s, t, Refused(f))
      else if !Blocked(s.fl, op.mode) then SetPc(s, t, Granted(f, op.mode)).(fl := Grant(s.fl, op.mode))
      else if op.nb then SetPc(s, t, Refused(f))
      else SetPc(s, t, WaitTest(f, op.mode)).(fl := Register(s.fl, t, op.mode))
    case Granted(f, m) => SetPc(s, t, Acquired(f, m)).(lock := None)
    case Acquired(f, m) => Return(s, t, f, Some(m))
    case Refused(f) => Return(s, t, f, s.files[f].hold).(lock := None)
  }

  function RunLoop(s: State, t: nat): (s': State)
    requires WellSized(s, t) && InLoop(s.threads[t]) && CanRun(s, s.threads[t])
  {
    match s.threads[t]
    case WaitTest(f, m) =>
      if Blocked(s.fl, m) then SetPc(s, t, SleepA(f, m))
      else SetPc(s, t, Granted(f, m)).(fl := Grant(Unregister(s.fl, t, m), m))
    case SleepA(f, m) => SetPc(s, t, SleepB(f, m)).(sched := Some(t))
    case SleepB(f, m) => SetPc(s, t, SleepC(f, m)).(lock := None)
    case SleepC(f, m) => SetPc(s, t, Asleep(f, m)).(sched := None)
    case Woken(f, m) => SetPc(s, t, Relock(f, m))
    case Relock(f, m) => SetPc(s, t, WaitTest(f, m)).(lock := Some(t))
  }

  /** flock_release, and the rest of file_close. */
  function RunRelease(s: State, t: nat): (s': State)
    requires WellSized(s, t) && !Acquiring(s.threads[t]) && !InLoop(s.threads[t]) && CanRun(s, s.threads[t])
  {
    match s.threads[t]
    case RelWant(m, k) => SetPc(s, t, RelIn(m, k)).(lock := Some(t))
    case RelIn(m, k) =>
      SetPc(s, t, if Release(s.fl, m).1 then RelWake(k) else RelOut(k)).(fl := Release(s.fl, m).0)
    case RelWake(k) => s.(threads := WakeAll(s.threads)[t := RelOut(k)])
    case RelOut(k) => SetPc(s, t, RelDone(k)).(lock := None)
    case RelDone(k) =>
      (match k
       case Finish(f) => Return(s, t, f, None)
       case Acquire(f, op) => SetFile(SetPc(s, t, AcqWant(f, op)), f, s.files[f].(hold := None))
       case Close => SetPc(s, t, PutWant))
    case PutWant => SetPc(s, t, Idle).(ref := s.ref - 1)
  }

  /** The next statement of thread `t`. */
  function RunThread(s: State, t: nat): (s': State)
    requires WellSized(s, t) && CanRun(s, s.threads[t])
  {
    if Acquiring(s.threads[t]) then RunAcquire(s, t)
    else if InLoop(s.threads[t]) then RunLoop(s, t)
    else RunRelease(s, t)
  }

  function Step(s: State, t: nat, e: Event): (s': State)
    requires Enabled(s, t, e)
  {
    match e
    case Enter(f, op) =>
      SetFile(SetPc(s, t, Start(f, op, s.files[f].hold)), f, s.files[f].(user := Some(t)))
    case CloseFile(f) =>
      SetFile(SetPc(s, t, if s.files[f].hold.Some? then RelWant(s.files[f].hold.value, Close) else PutWant),
              f, File(false, None, None))
    case OpenFile(f) => SetFile(s, f, File(true, None, None)).(others := s.others - 1)
    case Get => s.(ref := s.ref + 1, others := s.others + 1)
    case Put => s.(ref := s.ref - 1, others := s.others - 1)
    case Recycle => s.(ref := 1, others := s.others + 1, fl := FRESH)
    case Run => RunThread(s, t)
  }
}
