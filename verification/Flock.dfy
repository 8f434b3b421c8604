/** The lock engine of kern/flock/flock.c: the decisions it takes on flock_t between two
    points where it may give up fl->lock. */
module Flock {
  import opened WaitQueue

  datatype LockState = Inactive | Shared | Exclusive

  /** flock_t without its spinlock. */
  datatype Fl = Fl(state: LockState, holders: nat, waitSh: nat, waitEx: nat, queue: seq<Waiter>)

  /** flock_init. */
  const FRESH := Fl(Inactive, 0, 0, 0, [])

  /** The condition both the first test and the waiting loop use: a reader waits for a writer
      that holds or waits, a writer for anybody that holds. */
  predicate Blocked(fl: Fl, m: Mode) {
    if m == Sh then fl.state == Exclusive || fl.waitEx > 0 else fl.state != Inactive
  }

  function Grant(fl: Fl, m: Mode): (fl': Fl) {
    if m == Sh then fl.(state := Shared, holders := fl.holders + 1) else fl.(state := Exclusive)
  }

  function Register(fl: Fl, pid: nat, m: Mode): (fl': Fl) {
    var q := Join(fl.queue, pid, m);
    if m == Sh then fl.(waitSh := fl.waitSh + 1, queue := q) else fl.(waitEx := fl.waitEx + 1, queue := q)
  }

  function Unregister(fl: Fl, pid: nat, m: Mode): (fl': Fl)
    requires if m == Sh then fl.waitSh > 0 else fl.waitEx > 0
  {
    var q := Leave(fl.queue, pid);
    if m == Sh then fl.(waitSh := fl.waitSh - 1, queue := q) else fl.(waitEx := fl.waitEx - 1, queue := q)
  }

  /** flock_release on a held mode: the new state and whether sleepers must be woken. */
  function Release(fl: Fl, m: Mode): (r: (Fl, bool)) {
    if m == Sh then
      if fl.state == Shared && fl.holders > 0 then
        if fl.holders == 1 then (fl.(state := Inactive, holders := 0), true)
        else (fl.(holders := fl.holders - 1), false)
      else (fl, false)
    else if fl.state == Exclusive then (fl.(state := Inactive), true) else (fl, false)
  }

  // ---- The operation word ----

  datatype Request = Lock(mode: Mode, nb: bool) | Unlock | Invalid

  const LOCK_SH: bv32 := 1
  const LOCK_EX: bv32 := 2
  const LOCK_NB: bv32 := 4
  const LOCK_UN: bv32 := 8

  /** lock_type = operation & ~LOCK_NB decides; LOCK_NB only matters for the two lock types. */
  function Decode(op: bv32): (r: Request) {
    var lockType := op & 0xFFFF_FFFB;
    var nb := op & LOCK_NB != 0;
    if lockType == LOCK_SH then Lock(Sh, nb)
    else if lockType == LOCK_EX then Lock(Ex, nb)
    else if lockType == LOCK_UN then Unlock
    else Invalid
  }

  /** Exactly six words ask for something. */
  lemma DecodeExact(op: bv32)
    ensures Decode(op) == Lock(Sh, false) <==> op == LOCK_SH
    ensures Decode(op) == Lock(Sh, true) <==> op == LOCK_SH | LOCK_NB
    ensures Decode(op) == Lock(Ex, false) <==> op == LOCK_EX
    ensures Decode(op) == Lock(Ex, true) <==> op == LOCK_EX | LOCK_NB
    ensures Decode(op) == Unlock <==> op == LOCK_UN || op == LOCK_UN | LOCK_NB
  {
  }

  // ---- The structure in memory ----

  class FlockT {
    var state: LockState
    var sharedHolders: nat
    var waitingShared: nat
    var waitingExclusive: nat
    const waitq: Queue

    ghost predicate Valid()
      reads this, waitq, waitq.pids, waitq.inq, waitq.req
    {
      waitq.Valid()
    }

    ghost function Value(): (fl: Fl)
      requires Valid()
      reads this, waitq, waitq.pids, waitq.inq, waitq.req
    {
      Fl(state, sharedHolders, waitingShared, waitingExclusive, waitq.Contents())
    }

    /** flock_init. */
    constructor (numIds: nat)
      ensures Valid() && Value() == FRESH && waitq.n == numIds
    {
      state := Inactive;
      sharedHolders := 0;
      waitingShared := 0;
      waitingExclusive := 0;
      waitq := new Queue(numIds);
    }

    method MustWait(m: Mode) returns (b: bool)
      requires Valid()
      ensures b <==> Blocked(Value(), m)
    {
      if m == Sh {
        b := state == Exclusive || waitingExclusive > 0;
      } else {
        b := state != Inactive;
      }
    }

    /** waitq_add and the counter, before the waiting loop. */
    method StartWaiting(pid: nat, m: Mode)
      requires Valid() && pid < waitq.n
      modifies this, waitq, waitq.pids, waitq.inq, waitq.req
      ensures Valid() && Value() == Register(old(Value()), pid, m)
    {
      hide Queue.Valid, Queue.Contents, Join, Proper;
      waitq.Add(pid, m);
      if m == Sh {
        waitingShared := waitingShared + 1;
      } else {
        waitingExclusive := waitingExclusive + 1;
      }
    }

    /** The counter and waitq_remove, after the waiting loop. */
    method StopWaiting(pid: nat, m: Mode)
      requires Valid() && if m == Sh then waitingShared > 0 else waitingExclusive > 0
      modifies this, waitq, waitq.pids, waitq.inq, waitq.req
      ensures Valid() && Value() == Unregister(old(Value()), pid, m)
    {
      hide Queue.Valid, Queue.Contents, Leave, Proper;
      if m == Sh {
        waitingShared := waitingShared - 1;
      } else {
        waitingExclusive := waitingExclusive - 1;
      }
      waitq.Remove(pid);
    }

    method Take(m: Mode)
      requires Valid()
      modifies this
      ensures Valid() && Value() == Grant(old(Value()), m)
    {
      if m == Sh {
        state := Shared;
        sharedHolders := sharedHolders + 1;
      } else {
        state := Exclusive;
      }
    }

    /** The body of flock_release for LOCK_SH and LOCK_EX. */
    method Drop(m: Mode) returns (wake: bool)
      requires Valid()
      modifies this
      ensures Valid() && (Value(), wake) == Release(old(Value()), m)
    {
      wake := false;
      if m == Sh {
        if state == Shared && sharedHolders > 0 {
          sharedHolders := sharedHolders - 1;
          if sharedHolders == 0 {
            state := Inactive;
            wake := true;
          }
        }
      } else if state == Exclusive {
        state := Inactive;
        wake := true;
      }
    }
  }
}
