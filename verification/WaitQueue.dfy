/** The wait queue embedded in flock_t (kern/flock/flock.c): an array of pids with two
    per-pid tables, kept in step by waitq_add and waitq_remove. */
module WaitQueue {
  import opened Sequences

  datatype Mode = Sh | Ex

  /** An entry: a waiting process and what it asked for. */
  datatype Waiter = Waiter(pid: nat, mode: Mode)

  /** Entries for distinct processes below `n`. */
  ghost predicate Proper(q: seq<Waiter>, n: nat) {
    && (forall i :: 0 <= i < |q| ==> q[i].pid < n)
    && (forall i, j :: 0 <= i < j < |q| ==> q[i].pid != q[j].pid)
  }

  predicate Waits(q: seq<Waiter>, pid: nat) {
    exists i :: 0 <= i < |q| && q[i].pid == pid
  }

  /** Position of the entry of `pid`, or |q|. */
  function PlaceOf(q: seq<Waiter>, pid: nat): (i: nat)
    ensures i <= |q| && (i < |q| ==> q[i].pid == pid)
    ensures forall j :: 0 <= j < i ==> q[j].pid != pid
  {
    var ps := seq(|q|, j requires 0 <= j < |q| => q[j].pid);
    var i := Sequences.IndexOf(ps, pid);
    assert forall j :: 0 <= j < i ==> ps[j] == q[j].pid;
    i
  }

  /** waitq_add: a process already queued changes its request, a new one goes last. */
  function Join(q: seq<Waiter>, pid: nat, mode: Mode): (r: seq<Waiter>) {
    var i := PlaceOf(q, pid);
    if i < |q| then q[i := Waiter(pid, mode)] else q + [Waiter(pid, mode)]
  }

  /** waitq_remove: the others keep their order. */
  function Leave(q: seq<Waiter>, pid: nat): (r: seq<Waiter>) {
    var i := PlaceOf(q, pid);
    if i < |q| then q[..i] + q[i + 1..] else q
  }

  lemma JoinMembers(q: seq<Waiter>, pid: nat, mode: Mode, p: nat)
    ensures Waits(Join(q, pid, mode), p) <==> p == pid || Waits(q, p)
  {
    var i, a := PlaceOf(q, pid), Join(q, pid, mode);
    if Waits(q, p) {
      var k :| 0 <= k < |q| && q[k].pid == p;
      assert a[k].pid == p;
    }
    assert a[i].pid == pid;
    if Waits(a, p) && p != pid {
      var k :| 0 <= k < |a| && a[k].pid == p;
      assert q[k].pid == p;
    }
  }

  lemma LeaveMembers(q: seq<Waiter>, pid: nat, n: nat, p: nat)
    requires Proper(q, n)
    ensures Waits(Leave(q, pid), p) <==> p != pid && Waits(q, p)
  {
    var i, r := PlaceOf(q, pid), Leave(q, pid);
    if Waits(q, p) && p != pid {
      var k :| 0 <= k < |q| && q[k].pid == p;
      assert r[if k < i then k else k - 1].pid == p;
    }
    if Waits(r, p) {
      var k :| 0 <= k < |r| && r[k].pid == p;
      assert r[k] == q[if k < i then k else k + 1];
    }
  }

  lemma JoinProper(q: seq<Waiter>, pid: nat, mode: Mode, n: nat)
    requires Proper(q, n) && pid < n
    ensures Proper(Join(q, pid, mode), n)
  {
  }

  lemma LeaveProper(q: seq<Waiter>, pid: nat, n: nat)
    requires Proper(q, n)
    ensures Proper(Leave(q, pid), n)
  {
    var i, r := PlaceOf(q, pid), Leave(q, pid);
    assert forall k :: 0 <= k < |r| ==> r[k] == q[if k < i then k else k + 1];
  }

  /** Removal undoes the addition of a newcomer. */
  lemma LeaveUndoesJoin(q: seq<Waiter>, pid: nat, mode: Mode)
    ensures !Waits(q, pid) ==> Leave(Join(q, pid, mode), pid) == q
  {
    if !Waits(q, pid) {
      var a := Join(q, pid, mode);
      assert forall j :: 0 <= j < |q| ==> q[j].pid != pid && a[j] == q[j];
      assert a[|q|].pid == pid;
      assert PlaceOf(a, pid) == |q|;
    }
  }

  /** Nobody else moves. */
  lemma JoinLeaveInPlace(q: seq<Waiter>, pid: nat, mode: Mode, n: nat)
    requires Proper(q, n)
    ensures !Waits(q, pid) ==> Join(q, pid, mode) == q + [Waiter(pid, mode)] && Leave(q, pid) == q
    ensures forall i :: 0 <= i < |q| && q[i].pid == pid ==>
              Join(q, pid, mode) == q[i := Waiter(pid, mode)] && Leave(q, pid) == q[..i] + q[i + 1..]
  {
    forall i | 0 <= i < |q| && q[i].pid == pid
      ensures PlaceOf(q, pid) == i
    {
    }
  }

  lemma JoinLeave(q: seq<Waiter>, pid: nat, mode: Mode, n: nat)
    requires Proper(q, n) && pid < n
    ensures Proper(Join(q, pid, mode), n) && Proper(Leave(q, pid), n)
    ensures forall p :: Waits(Join(q, pid, mode), p) <==> p == pid || Waits(q, p)
    ensures forall p :: Waits(Leave(q, pid), p) <==> p != pid && Waits(q, p)
    ensures !Waits(q, pid) ==> Leave(Join(q, pid, mode), pid) == q
    ensures !Waits(q, pid) ==> Join(q, pid, mode) == q + [Waiter(pid, mode)] && Leave(q, pid) == q
    ensures forall i :: 0 <= i < |q| && q[i].pid == pid ==>
              Join(q, pid, mode) == q[i := Waiter(pid, mode)] && Leave(q, pid) == q[..i] + q[i + 1..]
  {
    JoinLeaveInPlace(q, pid, mode, n);
    hide Join, Leave, Proper, Waits;
    forall p
      ensures Waits(Join(q, pid, mode), p) <==> p == pid || Waits(q, p)
      ensures Waits(Leave(q, pid), p) <==> p != pid && Waits(q, p)
    {
      JoinMembers(q, pid, mode, p);
      LeaveMembers(q, pid, n, p);
    }
    JoinProper(q, pid, mode, n);
    LeaveProper(q, pid, n);
    LeaveUndoesJoin(q, pid, mode);
  }

  lemma LeaveAbsent(q: seq<Waiter>, pid: nat, n: nat)
    requires Proper(q, n)
    ensures pid >= n || !Waits(q, pid) ==> Leave(q, pid) == q
  {
  }

  lemma QueueFits(q: seq<Waiter>, n: nat)
    requires Proper(q, n)
    ensures |q| <= n
  {
    var pids := seq(|q|, i requires 0 <= i < |q| => q[i].pid);
    Pigeonhole(pids, n);
  }

  /** A process that is not queued always finds room: the capacity test drops nobody. */
  lemma RoomForNewcomer(q: seq<Waiter>, pid: nat, n: nat)
    requires Proper(q, n) && pid < n && !Waits(q, pid)
    ensures |q| < n
  {
    var a := q + [Waiter(pid, Sh)];
    assert forall i :: 0 <= i < |q| ==> q[i].pid != pid;
    QueueFits(a, n);
  }

  // ---- The arrays ----

  /** `ps` lists, once each, exactly the pids that `inq` marks. */
  ghost predicate Agree(ps: seq<nat>, inq: seq<bool>) {
    && (forall i :: 0 <= i < |ps| ==> ps[i] < |inq| && inq[ps[i]])
    && (forall i, j :: 0 <= i < j < |ps| ==> ps[i] != ps[j])
    && (forall p :: 0 <= p < |inq| && inq[p] ==> p in ps)
  }

  function Entries(ps: seq<nat>, req: seq<Mode>): (q: seq<Waiter>)
    requires forall i :: 0 <= i < |ps| ==> ps[i] < |req|
    ensures |q| == |ps| && forall i :: 0 <= i < |ps| ==> q[i] == Waiter(ps[i], req[ps[i]])
  {
    seq(|ps|, i requires 0 <= i < |ps| => Waiter(ps[i], req[ps[i]]))
  }

  lemma EntriesProper(ps: seq<nat>, inq: seq<bool>, req: seq<Mode>)
    requires Agree(ps, inq) && |req| == |inq|
    ensures Proper(Entries(ps, req), |inq|)
    ensures forall p :: 0 <= p < |inq| ==> (inq[p] <==> Waits(Entries(ps, req), p))
  {
    var q := Entries(ps, req);
    forall p | 0 <= p < |inq| && inq[p]
      ensures Waits(q, p)
    {
      var i :| 0 <= i < |ps| && ps[i] == p;
      assert q[i].pid == p;
    }
  }

  /** Changing the request of a queued pid. */
  lemma EntriesRequest(ps: seq<nat>, inq: seq<bool>, req: seq<Mode>, pid: nat, mode: Mode)
    requires Agree(ps, inq) && |req| == |inq| && pid < |inq| && inq[pid]
    ensures Entries(ps, req[pid := mode]) == Join(Entries(ps, req), pid, mode)
  {
    EntriesProper(ps, inq, req);
    var q := Entries(ps, req);
    var i := PlaceOf(q, pid);
    assert Waits(q, pid);
    assert forall j :: 0 <= j < |ps| && ps[j] == pid ==> j == i;
  }

  /** Appending a pid that is not queued. */
  lemma EntriesAppend(ps: seq<nat>, inq: seq<bool>, req: seq<Mode>, pid: nat, mode: Mode)
    requires Agree(ps, inq) && |req| == |inq| && pid < |inq| && !inq[pid]
    ensures |ps| < |inq| && Agree(ps + [pid], inq[pid := true])
    ensures Entries(ps + [pid], req[pid := mode]) == Join(Entries(ps, req), pid, mode)
  {
    EntriesProper(ps, inq, req);
    var q := Entries(ps, req);
    RoomForNewcomer(q, pid, |inq|);
    assert PlaceOf(q, pid) == |q|;
    assert pid !in ps;
  }

  lemma DeleteAgree(ps: seq<nat>, inq: seq<bool>, i: nat)
    requires Agree(ps, inq) && i < |ps|
    ensures Agree(Cut(ps, i), inq[ps[i] := false])
  {
    var pid, ps' := ps[i], Cut(ps, i);
    forall p | 0 <= p < |inq| && p != pid && inq[p]
      ensures p in ps'
    {
      var k :| 0 <= k < |ps| && ps[k] == p;
      assert ps'[if k < i then k else k - 1] == p;
    }
  }

  /** Deleting the pid at position `i`. */
  lemma EntriesDelete(ps: seq<nat>, inq: seq<bool>, req: seq<Mode>, i: nat)
    requires Agree(ps, inq) && |req| == |inq| && i < |ps|
    requires Agree(Cut(ps, i), inq[ps[i] := false])
    ensures Entries(Cut(ps, i), req[ps[i] := Sh]) == Leave(Entries(ps, req), ps[i])
  {
    var q := Entries(ps, req);
    assert PlaceOf(q, ps[i]) == i by {
      assert q[i].pid == ps[i];
      assert forall j :: 0 <= j < |ps| && ps[j] == ps[i] ==> j == i;
    }
    var r := Entries(Cut(ps, i), req[ps[i] := Sh]);
    forall k | 0 <= k < |r|
      ensures r[k] == q[if k < i then k else k + 1]
    {
      assert ps[if k < i then k else k + 1] != ps[i];
    }
  }

  class Queue {
    const n: nat
    const pids: array<nat>
    const inq: array<bool>
    const req: array<Mode>
    var len: nat

    ghost predicate Valid()
      reads this, pids, inq, req
    {
      && pids.Length == n && inq.Length == n && req.Length == n && len <= n
      && Agree(pids[..len], inq[..])
    }

    /** pids[0..len) with their requests. */
    ghost function Contents(): (q: seq<Waiter>)
      requires Valid()
      reads this, pids, inq, req
      ensures |q| == len && Proper(q, n)
    {
      EntriesProper(pids[..len], inq[..], req[..]);
      Entries(pids[..len], req[..])
    }

    /** The queue part of flock_init. */
    constructor (numIds: nat)
      ensures Valid() && n == numIds && Contents() == []
      ensures fresh(pids) && fresh(inq) && fresh(req)
    {
      n := numIds;
      pids := new nat[numIds](_ => 0);
      inq := new bool[numIds](_ => false);
      req := new Mode[numIds](_ => Sh);
      len := 0;
    }

    /** waitq_add. */
    method Add(pid: nat, mode: Mode)
      requires Valid()
      modifies this, pids, inq, req
      ensures Valid()
      ensures Contents() == if pid < n then Join(old(Contents()), pid, mode) else old(Contents())
    {
      hide Agree, Entries, Join;
      if pid >= n {
        return;
      }
      ghost var ps, iq, rq := pids[..len], inq[..], req[..];
      if inq[pid] {
        EntriesRequest(ps, iq, rq, pid, mode);
        req[pid] := mode;
        assert req[..] == rq[pid := mode];
        return;
      }
      EntriesAppend(ps, iq, rq, pid, mode);
      if len < n {
        pids[len] := pid;
        len := len + 1;
        inq[pid] := true;
        req[pid] := mode;
        assert pids[..len] == ps + [pid] && inq[..] == iq[pid := true] && req[..] == rq[pid := mode];
      }
    }

    /** waitq_remove: find the pid, close the gap by shifting. */
    method Remove(pid: nat)
      requires Valid()
      modifies this, pids, inq, req
      ensures Valid()
      ensures Contents() == Leave(old(Contents()), pid)
    {
      hide Agree, Entries, Leave, Waits;
      ghost var ps, iq, rq := pids[..len], inq[..], req[..];
      EntriesProper(ps, iq, rq);
      LeaveAbsent(Contents(), pid, n);
      if pid >= n || !inq[pid] {
        return;
      }
      var i := Find(pid);
      DeleteAgree(ps, iq, i);
      EntriesDelete(ps, iq, rq, i);
      ShiftOut(i);
      inq[pid] := false;
      req[pid] := Sh;
      assert inq[..] == iq[pid := false] && req[..] == rq[pid := Sh];
      assert pids[..len] == ps[..i] + ps[i + 1..];
    }

    /** The search loop of waitq_remove. */
    method Find(pid: nat) returns (i: nat)
      requires Valid() && pid < n && inq[pid]
      ensures i < len && pids[i] == pid
    {
      assert pid in pids[..len];
      i := 0;
      while pids[i] != pid
        invariant 0 <= i < len && pid !in pids[..i]
        decreases len - i
      {
        i := i + 1;
      }
    }

    /** The inner loop of waitq_remove. */
    method ShiftOut(at: nat)
      requires at < len <= pids.Length
      modifies `len, pids
      ensures len == old(len) - 1
      ensures pids[..len] == old(pids[..at]) + old(pids[at + 1..len])
    {
      var i := at;
      while i + 1 < len
        invariant at <= i < len == old(len)
        invariant pids[..i] == old(pids[..at]) + old(pids[at + 1..i + 1])
        invariant forall k :: i < k < len ==> pids[k] == old(pids[k])
      {
        pids[i] := pids[i + 1];
        i := i + 1;
      }
      len := len - 1;
    }
  }
}
