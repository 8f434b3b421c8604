/** kern/thread/PThread: spawn, yield, sleep and wakeup over the ready queue of one CPU. */
module Scheduler {
  import opened Sequences
  import opened TQueue

  datatype TState = Ready | Run | Sleep | Dead

  /** Thread states, sleep channels (0 is NULL), the running thread, the ready queue. */
  datatype Sched = Sched(state: seq<TState>, chan: seq<nat>, cur: nat, ready: seq<nat>)

  /** Exactly the current thread runs, and the ready threads are queued, once each. */
  ghost predicate Inv(s: Sched) {
    && |s.chan| == |s.state| && s.cur < |s.state|
    && (forall p :: 0 <= p < |s.state| ==> (s.state[p] == Run <==> p == s.cur))
    && (forall i :: 0 <= i < |s.ready| ==> s.ready[i] < |s.state| && s.state[s.ready[i]] == Ready)
    && (forall p :: 0 <= p < |s.state| && s.state[p] == Ready ==> p in s.ready)
    && Distinct(s.ready)
  }

  // ---- The operations ----

  datatype Event = Spawn(pid: nat) | Yield | SleepOn(c: nat) | Wakeup(c: nat) | ClearChan

  /** Mark the thread ready and enqueue it, which is not an append if it is queued already. */
  function Push(s: Sched, p: nat): (s': Sched)
    requires p < |s.state|
  {
    s.(state := s.state[p := Ready], ready := Requeue(s.ready, p))
  }

  /** Pop the front of the queue and make it the running thread. */
  function Dispatch(s: Sched): (s': Sched)
    requires s.ready != [] && s.ready[0] < |s.state|
  {
    s.(state := s.state[s.ready[0] := Run], cur := s.ready[0], ready := s.ready[1..])
  }

  /** The loop of thread_wakeup from pid `k` on: it looks at the channel only. */
  function WakeFrom(s: Sched, c: nat, k: nat): (s': Sched)
    requires k <= |s.state| == |s.chan|
    ensures |s'.state| == |s.state| && s'.chan == s.chan && s'.cur == s.cur
    decreases |s.state| - k
  {
    if k == |s.state| then s
    else WakeFrom(if s.chan[k] == c then Push(s, k) else s, c, k + 1)
  }

  predicate Sized(s: Sched) {
    && |s.chan| == |s.state| && s.cur < |s.state|
    && (forall i :: 0 <= i < |s.ready| ==> s.ready[i] < |s.state|)
  }

  /** Everybody on the channel is asleep (or not a thread at all). */
  predicate OnlySleepers(s: Sched, c: nat)
    requires |s.chan| == |s.state|
  {
    forall p :: 0 <= p < |s.state| && s.chan[p] == c ==> s.state[p] == Sleep || s.state[p] == Dead
  }

  /** A pid at or above `k` whose channel is `c`. */
  predicate On(chan: seq<nat>, c: nat, k: nat, p: nat) {
    k <= p < |chan| && chan[p] == c
  }

  /** The first position of `q`, or |q|, with such a pid. */
  function FirstOn(q: seq<nat>, chan: seq<nat>, c: nat, k: nat): (i: nat)
    ensures i <= |q| && (i < |q| ==> On(chan, c, k, q[i]))
    ensures forall j :: 0 <= j < i ==> !On(chan, c, k, q[j])
  {
    if q == [] || On(chan, c, k, q[0]) then 0 else 1 + FirstOn(q[1..], chan, c, k)
  }

  /** A wakeup of `c` loses nobody: the running thread is not on the channel, and if a queued
      thread is, then the first such one has the lowest pid on the channel and only threads on
      the channel are queued behind it. */
  predicate Harmless(s: Sched, c: nat)
    requires Sized(s)
  {
    var i := FirstOn(s.ready, s.chan, c, 0);
    && s.chan[s.cur] != c
    && (i < |s.ready| ==>
          && (forall j :: i < j < |s.ready| ==> On(s.chan, c, 0, s.ready[j]))
          && (forall p :: 0 <= p < |s.chan| && On(s.chan, c, 0, p) ==> s.ready[i] <= p))
  }

  /** kctx_new hands out unused pids; thread_sleep asserts a non-empty queue; a wakeup loses
      nobody. */
  ghost predicate Enabled(s: Sched, e: Event) {
    Sized(s) &&
    match e
    case Spawn(p) => p < |s.state| && s.state[p] == Dead
    case Yield => true
    case SleepOn(_) => s.ready != []
    case Wakeup(c) => Harmless(s, c)
    case ClearChan => true
  }

  ghost function Next(s: Sched, e: Event): (s': Sched)
    requires Enabled(s, e)
  {
    match e
    case Spawn(p) => Push(s, p)
    case Yield => Dispatch(Push(s, s.cur))
    case SleepOn(c) => Dispatch(s.(chan := s.chan[s.cur := c], state := s.state[s.cur := Sleep]))
    case Wakeup(c) => WakeFrom(s, c, 0)
    case ClearChan => s.(chan := s.chan[s.cur := 0])
  }

  // ---- The invariant ----

  /** `Inv` with thread `cur` no longer running and possibly about to be queued again. */
  ghost predicate Between(s: Sched) {
    && Sized(s)
    && (forall p :: 0 <= p < |s.state| ==> s.state[p] != Run)
    && (forall i :: 0 <= i < |s.ready| ==> s.state[s.ready[i]] == Ready)
    && (forall p :: 0 <= p < |s.state| && s.state[p] == Ready ==> p in s.ready)
    && Distinct(s.ready)
  }

  lemma DispatchInv(s: Sched)
    requires Between(s) && s.ready != []
    ensures Inv(Dispatch(s))
  {
    var s' := Dispatch(s);
    forall p | 0 <= p < |s'.state| && s'.state[p] == Ready
      ensures p in s'.ready
    {
      var i :| 0 <= i < |s.ready| && s.ready[i] == p;
      assert s'.ready[i - 1] == p;
    }
  }

  /** A thread that is not queued goes last. */
  lemma PushNew(s: Sched, p: nat)
    requires p < |s.state| && p !in s.ready
    ensures Push(s, p).ready == s.ready + [p]
    ensures forall q :: q in Push(s, p).ready <==> q == p || q in s.ready
  {
    assert IndexOf(s.ready, p) == |s.ready|;
  }

  lemma PushInv(s: Sched, p: nat)
    requires Inv(s) && p < |s.state| && (s.state[p] == Dead || s.state[p] == Sleep)
    ensures Inv(Push(s, p))
  {
    PushNew(s, p);
  }

  lemma YieldInv(s: Sched)
    requires Inv(s)
    ensures Inv(Dispatch(Push(s, s.cur)))
  {
    PushNew(s, s.cur);
    assert Between(Push(s, s.cur));
    DispatchInv(Push(s, s.cur));
  }

  lemma NextInv(s: Sched, e: Event)
    requires Inv(s) && Enabled(s, e)
    ensures Inv(Next(s, e))
  {
    match e
    case Spawn(p) => PushInv(s, p);
    case Yield => YieldInv(s);
    case SleepOn(c) => DispatchInv(s.(chan := s.chan[s.cur := c], state := s.state[s.cur := Sleep]));
    case Wakeup(c) => WakeupExact(s, c);
    case ClearChan =>
  }

  // ---- What thread_wakeup does to the queue ----

  /** The pids at or above `k` whose channel is `c`, in order. */
  function Listed(chan: seq<nat>, c: nat, k: nat): (r: seq<nat>)
    requires k <= |chan|
    decreases |chan| - k
  {
    if k == |chan| then [] else (if chan[k] == c then [k] else []) + Listed(chan, c, k + 1)
  }

  lemma {:induction false} ListedExact(chan: seq<nat>, c: nat, k: nat)
    requires k <= |chan|
    ensures forall p :: p in Listed(chan, c, k) <==> On(chan, c, k, p)
    ensures Ascending(Listed(chan, c, k))
    decreases |chan| - k
  {
    if k < |chan| {
      ListedExact(chan, c, k + 1);
      var r := Listed(chan, c, k + 1);
      forall i | 0 <= i < |r|
        ensures k < r[i]
      {
        assert r[i] in r;
      }
    }
  }

  ghost predicate Ascending(q: seq<nat>) {
    forall i, j :: 0 <= i < j < |q| ==> q[i] < q[j]
  }

  /** The queue after the loop: what stood ahead of the first queued thread on the channel, then
      the threads on the channel from that one's pid upwards. */
  function Rewoken(q: seq<nat>, chan: seq<nat>, c: nat, k: nat): (r: seq<nat>)
    requires k <= |chan|
  {
    var i := FirstOn(q, chan, c, k);
    if i == |q| then q + Listed(chan, c, k) else q[..i] + Listed(chan, c, q[i])
  }

  lemma {:induction false} WakeReady(s: Sched, c: nat, k: nat)
    requires k <= |s.state| == |s.chan| && Distinct(s.ready)
    ensures WakeFrom(s, c, k).ready == Rewoken(s.ready, s.chan, c, k)
    decreases |s.state| - k
  {
    hide Requeue, Distinct, Rewoken, FirstOn, Listed;
    if k == |s.state| {
      RewokenEnd(s.ready, s.chan, c);
    } else {
      var t := if s.chan[k] == c then Push(s, k) else s;
      RequeueDistinct(s.ready, k);
      WakeReady(t, c, k + 1);
      if s.chan[k] == c {
        RewokenStep(s.ready, s.chan, c, k);
      } else {
        RewokenSkip(s.ready, s.chan, c, k);
      }
    }
  }

  lemma RewokenEnd(q: seq<nat>, chan: seq<nat>, c: nat)
    ensures Rewoken(q, chan, c, |chan|) == q
  {
    FirstOnIs(q, chan, c, |chan|, |q|);
  }

  lemma RewokenSkip(q: seq<nat>, chan: seq<nat>, c: nat, k: nat)
    requires k < |chan| && chan[k] != c
    ensures Rewoken(q, chan, c, k + 1) == Rewoken(q, chan, c, k)
  {
    var i := FirstOn(q, chan, c, k);
    assert Listed(chan, c, k) == Listed(chan, c, k + 1);
    assert i < |q| ==> On(chan, c, k, q[i]) && On(chan, c, k + 1, q[i]);
    forall m | 0 <= m < i
      ensures !On(chan, c, k + 1, q[m])
    {
      assert !On(chan, c, k, q[m]);
    }
    hide On, FirstOn, Listed;
    FirstOnIs(q, chan, c, k + 1, i);
  }

  lemma RequeueDistinct(q: seq<nat>, p: nat)
    requires Distinct(q)
    ensures Distinct(Requeue(q, p))
  {
  }

  lemma FirstOnIs(q: seq<nat>, chan: seq<nat>, c: nat, k: nat, i: nat)
    requires i <= |q| && (i < |q| ==> On(chan, c, k, q[i])) && forall j :: 0 <= j < i ==> !On(chan, c, k, q[j])
    ensures FirstOn(q, chan, c, k) == i
  {
    hide On;
  }

  /** Enqueuing the thread on the channel with the lowest pid first changes nothing in the end. */
  lemma RewokenStep(q: seq<nat>, chan: seq<nat>, c: nat, k: nat)
    requires k < |chan| && chan[k] == c && Distinct(q)
    ensures Rewoken(Requeue(q, k), chan, c, k + 1) == Rewoken(q, chan, c, k)
  {
    if FirstOn(q, chan, c, k) < IndexOf(q, k) {
      RequeueBehind(q, chan, c, k);
    } else {
      RequeueFirst(q, chan, c, k);
    }
  }

  /** Another thread on the channel stands ahead of `k`. */
  lemma RequeueBehind(q: seq<nat>, chan: seq<nat>, c: nat, k: nat)
    requires k < |chan| && FirstOn(q, chan, c, k) < IndexOf(q, k)
    ensures Rewoken(Requeue(q, k), chan, c, k + 1) == Rewoken(q, chan, c, k)
  {
    var i, j, r := FirstOn(q, chan, c, k), IndexOf(q, k), Requeue(q, k);
    assert q[i] != k && r[i] == q[i] && On(chan, c, k + 1, q[i]);
    assert r[..i] == q[..i];
    forall m | 0 <= m < i
      ensures !On(chan, c, k + 1, r[m])
    {
      assert r[m] == q[m] && !On(chan, c, k, q[m]);
    }
    hide On, FirstOn, IndexOf, Requeue, Listed;
    FirstOnIs(r, chan, c, k + 1, i);
  }

  /** `k` is the first, or new to the queue with none on the channel ahead of it. */
  lemma RequeueFirst(q: seq<nat>, chan: seq<nat>, c: nat, k: nat)
    requires k < |chan| && chan[k] == c && IndexOf(q, k) <= FirstOn(q, chan, c, k)
    ensures Rewoken(Requeue(q, k), chan, c, k + 1) == Rewoken(q, chan, c, k)
  {
    var i, r := FirstOn(q, chan, c, k), Requeue(q, k);
    assert i == IndexOf(q, k) by {
      assert IndexOf(q, k) < |q| ==> On(chan, c, k, q[IndexOf(q, k)]);
    }
    assert r == q[..i] + [k];
    forall m | 0 <= m < |r|
      ensures !On(chan, c, k + 1, r[m])
    {
      assert m < i ==> r[m] == q[m] && !On(chan, c, k, q[m]);
    }
    assert i < |q| ==> q[i] == k;
    var l := Listed(chan, c, k + 1);
    assert Listed(chan, c, k) == [k] + l;
    hide On, FirstOn, IndexOf, Requeue, Listed;
    FirstOnIs(r, chan, c, k + 1, |r|);
    assert q[..i] + [k] + l == q[..i] + ([k] + l);
    assert i == |q| ==> q[..i] == q;
  }

  lemma {:induction false} WakeStates(s: Sched, c: nat, k: nat, p: nat)
    requires k <= |s.state| == |s.chan| && p < |s.state|
    ensures WakeFrom(s, c, k).state[p] == if k <= p && s.chan[p] == c then Ready else s.state[p]
    decreases |s.state| - k
  {
    if k < |s.state| {
      WakeStates(if s.chan[k] == c then Push(s, k) else s, c, k + 1, p);
    }
  }

  // ---- Exactly when thread_wakeup is right ----

  /** Threads a wakeup of `c` drops from the ready queue: those not on the channel that stand behind
      the first queued thread on it, and those on it with a lower pid than that one. */
  predicate Lost(s: Sched, c: nat, p: nat)
    requires Sized(s) && p < |s.chan|
  {
    var i := FirstOn(s.ready, s.chan, c, 0);
    i < |s.ready| && if s.chan[p] == c then p < s.ready[i] else Behind(s.ready, i, p)
  }

  predicate Behind(q: seq<nat>, i: nat, p: nat) {
    exists j :: i < j < |q| && q[j] == p
  }

  /** A thread is ready and in no queue after thread_wakeup if and only if it is one of those. */
  lemma LostExact(s: Sched, c: nat, p: nat)
    requires Inv(s) && p < |s.state|
    ensures var s' := WakeFrom(s, c, 0);
            (s'.state[p] == Ready && p !in s'.ready) <==> Lost(s, c, p)
  {
    WakeReady(s, c, 0);
    WakeStates(s, c, 0, p);
    assert p in s.ready <==> s.state[p] == Ready;
    assert Distinct(s.ready);
    hide Inv, WakeFrom;
    RewokenMembers(s.ready, s.chan, c, p);
  }

  /** Who is in the queue after the loop. */
  lemma RewokenMembers(q: seq<nat>, chan: seq<nat>, c: nat, p: nat)
    requires Distinct(q) && p < |chan|
    ensures var i := FirstOn(q, chan, c, 0);
            p in Rewoken(q, chan, c, 0) <==>
              if chan[p] == c then i == |q| || q[i] <= p else p in q && !Behind(q, i, p)
  {
    var i := FirstOn(q, chan, c, 0);
    var k := if i < |q| then q[i] else 0;
    var l := Listed(chan, c, k);
    ListedExact(chan, c, k);
    hide Listed;
    assert Rewoken(q, chan, c, 0) == q[..i] + l;
    if chan[p] == c {
      forall j | 0 <= j < i
        ensures q[j] != p
      {
        assert !On(chan, c, 0, q[j]);
      }
    } else {
      hide FirstOn;
      assert p in q[..i] ==> exists j :: 0 <= j < i && q[j] == p;
      if p in q {
        var j :| 0 <= j < |q| && q[j] == p;
        if j < i {
          assert q[..i][j] == p;
        }
        assert i < |q| ==> j != i;
      }
    }
  }

  lemma RewokenDistinct(q: seq<nat>, chan: seq<nat>, c: nat)
    requires Distinct(q) && forall j :: 0 <= j < |q| ==> q[j] < |chan|
    ensures Distinct(Rewoken(q, chan, c, 0))
    ensures forall j :: 0 <= j < |Rewoken(q, chan, c, 0)| ==>
              var p := Rewoken(q, chan, c, 0)[j]; p < |chan| && (p in q || chan[p] == c)
  {
    var i := FirstOn(q, chan, c, 0);
    var k := if i < |q| then q[i] else 0;
    var l := Listed(chan, c, k);
    ListedExact(chan, c, k);
    hide Listed, FirstOn;
    assert Rewoken(q, chan, c, 0) == q[..i] + l;
    forall j | 0 <= j < |l|
      ensures l[j] in l && On(chan, c, 0, l[j])
    {
      assert On(chan, c, k, l[j]);
    }
  }

  /** thread_wakeup keeps the scheduler invariant if and only if the wakeup is harmless. */
  lemma WakeupExact(s: Sched, c: nat)
    requires Inv(s)
    ensures Sized(s) && (Inv(WakeFrom(s, c, 0)) <==> Harmless(s, c))
  {
    var s' := WakeFrom(s, c, 0);
    WakeReady(s, c, 0);
    RewokenDistinct(s.ready, s.chan, c);
    forall p | 0 <= p < |s.state|
      ensures s'.state[p] == if s.chan[p] == c then Ready else s.state[p]
      ensures (s'.state[p] == Ready && p !in s'.ready) <==> Lost(s, c, p)
    {
      WakeStates(s, c, 0, p);
      LostExact(s, c, p);
    }
    hide WakeFrom, Rewoken, Lost, Harmless, FirstOn;
    HarmlessExact(s, c);
  }

  /** Harmless: the running thread stays out of it and nobody is lost. */
  lemma HarmlessExact(s: Sched, c: nat)
    requires Inv(s)
    ensures Harmless(s, c) <==> s.chan[s.cur] != c && forall p :: 0 <= p < |s.state| ==> !Lost(s, c, p)
  {
    assert Sized(s) && |s.chan| == |s.state|;
    hide Inv;
    var q, i := s.ready, FirstOn(s.ready, s.chan, c, 0);
    hide FirstOn;
    forall p | 0 <= p < |s.state| && Harmless(s, c)
      ensures !Lost(s, c, p)
    {
      if i < |q| && Behind(q, i, p) {
        var j :| i < j < |q| && q[j] == p;
        assert On(s.chan, c, 0, q[j]);
      }
      assert s.chan[p] == c ==> On(s.chan, c, 0, p);
    }
    if i < |q| && forall p :: 0 <= p < |s.state| ==> !Lost(s, c, p) {
      forall j | i < j < |q|
        ensures On(s.chan, c, 0, q[j])
      {
        assert Behind(q, i, q[j]) && !Lost(s, c, q[j]);
      }
      forall p | 0 <= p < |s.chan| && On(s.chan, c, 0, p)
        ensures q[i] <= p
      {
        assert !Lost(s, c, p);
      }
    }
  }

  /** With only sleepers on the channel a wakeup is harmless. */
  lemma SleepersHarmless(s: Sched, c: nat)
    requires Inv(s) && OnlySleepers(s, c)
    ensures Harmless(s, c)
  {
  }

  /** The channel is cleared only when the sleeper runs again.  A second wakeup right after the
      first enqueues the same threads again, and changes nothing. */
  lemma SecondWakeupIdle(s: Sched, c: nat)
    requires Inv(s)
    ensures WakeFrom(WakeFrom(s, c, 0), c, 0) == WakeFrom(s, c, 0)
  {
    var s' := WakeFrom(s, c, 0);
    WakeReady(s, c, 0);
    RewokenDistinct(s.ready, s.chan, c);
    WakeReady(s', c, 0);
    RewokenTwice(s.ready, s.chan, c);
    forall p | 0 <= p < |s.state|
      ensures WakeFrom(s', c, 0).state[p] == s'.state[p]
    {
      WakeStates(s, c, 0, p);
      WakeStates(s', c, 0, p);
    }
    hide WakeFrom, Rewoken, Inv, Harmless;
    assert WakeFrom(s', c, 0).state == s'.state;
  }

  lemma RewokenTwice(q: seq<nat>, chan: seq<nat>, c: nat)
    ensures var r := Rewoken(q, chan, c, 0); Rewoken(r, chan, c, 0) == r
  {
    hide FirstOn, Listed;
    var i := FirstOn(q, chan, c, 0);
    var k := if i < |q| then q[i] else 0;
    var l := Listed(chan, c, k);
    ListedFirst(chan, c, k);
    var r := q[..i] + l;
    assert Rewoken(q, chan, c, 0) == r;
    assert forall j :: 0 <= j < i ==> r[j] == q[j];
    hide On;
    FirstOnIs(r, chan, c, 0, i);
    assert r[..i] == q[..i];
  }

  lemma ListedFirst(chan: seq<nat>, c: nat, k: nat)
    requires k <= |chan|
    ensures var l := Listed(chan, c, k);
            && (l != [] ==> On(chan, c, 0, l[0]) && Listed(chan, c, l[0]) == l)
            && (k < |chan| && chan[k] == c ==> l != [] && l[0] == k)
  {
    var l := Listed(chan, c, k);
    ListedExact(chan, c, k);
    ListedFrom(chan, c, k);
    if l != [] {
      assert l[0] in l;
    }
  }

  /** A list starts at its first element. */
  lemma {:induction false} ListedFrom(chan: seq<nat>, c: nat, k: nat)
    requires k <= |chan|
    ensures Listed(chan, c, k) != [] ==>
              Listed(chan, c, k)[0] <= |chan| && Listed(chan, c, Listed(chan, c, k)[0]) == Listed(chan, c, k)
    decreases |chan| - k
  {
    ListedExact(chan, c, k);
    if Listed(chan, c, k) != [] {
      assert Listed(chan, c, k)[0] in Listed(chan, c, k);
      if chan[k] != c {
        ListedFrom(chan, c, k + 1);
      }
    }
  }

  /** With a yield in between the second wakeup does harm: the thread that yielded is queued behind
      the woken ones, and is lost. */
  lemma YieldBetweenLoses(s: Sched, c: nat, p: nat)
    requires Inv(s) && OnlySleepers(s, c) && p < |s.state| && s.chan[p] == c && s.ready != []
    ensures Enabled(s, Wakeup(c)) && Enabled(Next(s, Wakeup(c)), Yield)
    ensures var t := Next(Next(s, Wakeup(c)), Yield);
            && Inv(t) && t.cur == s.ready[0] && !Harmless(t, c)
            && WakeFrom(t, c, 0).state[s.cur] == Ready && s.cur !in WakeFrom(t, c, 0).ready
  {
    AfterYield(s, c);
    YieldedOn(s, c);
    var t := Next(Next(s, Wakeup(c)), Yield);
    hide Inv, Next, Enabled, FirstOn, Listed, Harmless, WakeFrom;
    YieldedLost(s.ready, s.chan, c, s.cur, p);
    assert Lost(t, c, s.cur);
    hide Lost;
    LostExact(t, c, s.cur);
    HarmlessExact(t, c);
  }

  /** The state after the wakeup and the yield. */
  lemma AfterYield(s: Sched, c: nat)
    requires Inv(s) && OnlySleepers(s, c) && s.ready != []
    ensures Enabled(s, Wakeup(c)) && Enabled(Next(s, Wakeup(c)), Yield)
    ensures var t := Next(Next(s, Wakeup(c)), Yield);
            && Inv(t) && Sized(t) && t.cur == s.ready[0] && t.chan == s.chan && s.cur < |t.chan| == |t.state|
            && t.ready == s.ready[1..] + Listed(s.chan, c, 0) + [s.cur]
  {
    SleepersHarmless(s, c);
    WakeupExact(s, c);
    YieldedQueue(s, c);
    hide Listed, FirstOn, Requeue, Harmless, WakeFrom;
    YieldInv(WakeFrom(s, c, 0));
  }

  lemma YieldedOn(s: Sched, c: nat)
    requires Inv(s) && OnlySleepers(s, c)
    ensures s.chan[s.cur] != c && forall j :: 0 <= j < |s.ready| ==> !On(s.chan, c, 0, s.ready[j])
  {
  }

  lemma YieldedQueue(s: Sched, c: nat)
    requires Inv(s) && OnlySleepers(s, c) && s.ready != []
    ensures Push(WakeFrom(s, c, 0), s.cur).ready == s.ready + Listed(s.chan, c, 0) + [s.cur]
  {
    var s1, l := WakeFrom(s, c, 0), Listed(s.chan, c, 0);
    WakeReady(s, c, 0);
    forall j | 0 <= j < |s.ready|
      ensures !On(s.chan, c, 0, s.ready[j]) && s.ready[j] != s.cur
    {
    }
    FirstOnIs(s.ready, s.chan, c, 0, |s.ready|);
    ListedExact(s.chan, c, 0);
    assert s1.ready == s.ready + l;
    assert s.cur !in l;
    hide Inv, WakeFrom, Listed, FirstOn, Rewoken;
    PushNew(s1, s.cur);
  }

  lemma YieldedLost(q: seq<nat>, chan: seq<nat>, c: nat, cur: nat, p: nat)
    requires q != [] && (forall j :: 0 <= j < |q| ==> !On(chan, c, 0, q[j]))
    requires cur < |chan| && chan[cur] != c && On(chan, c, 0, p)
    ensures var r := q[1..] + Listed(chan, c, 0) + [cur];
            var i := FirstOn(r, chan, c, 0);
            i < |r| && Behind(r, i, cur)
  {
    var l := Listed(chan, c, 0);
    var r := q[1..] + l + [cur];
    ListedExact(chan, c, 0);
    assert p in l && l[0] in l;
    var i := |q| - 1;
    assert r[i] == l[0] && forall j :: 0 <= j < i ==> r[j] == q[j + 1];
    hide Listed;
    FirstOnIs(r, chan, c, 0, i);
    assert r[|r| - 1] == cur;
  }

  /** Thread 1 is on channel 7 and queued ahead of thread 3: the wakeup cuts thread 3 off. */
  lemma WakeupLosesThread()
    ensures var s := Sched([Run, Ready, Dead, Ready], [0, 7, 0, 0], 0, [1, 3]);
            && Inv(s) && WakeFrom(s, 7, 0).state[3] == Ready && WakeFrom(s, 7, 0).ready == [1]
  {
    var chan := [0, 7, 0, 0];
    var s := Sched([Run, Ready, Dead, Ready], chan, 0, [1, 3]);
    assert s.ready[0] == 1 && s.ready[1] == 3;
    assert Inv(s);
    hide Inv;
    WakeReady(s, 7, 0);
    WakeStates(s, 7, 0, 3);
    hide WakeFrom, On;
    assert On(chan, 7, 0, 1) by { OnlyOne(chan); }
    FirstOnIs(s.ready, chan, 7, 0, 0);
    OnlyOne(chan);
    assert s.ready[..0] == [];
  }

  lemma OnlyOne(chan: seq<nat>)
    requires chan == [0, 7, 0, 0]
    ensures Listed(chan, 7, 1) == [1] && On(chan, 7, 0, 1)
  {
    assert Listed(chan, 7, 4) == [];
    assert Listed(chan, 7, 3) == [];
    assert Listed(chan, 7, 2) == [];
  }

  // ---- Exactly when thread_wakeup keeps everybody's place ----

  /** The queued threads on the channel stand last and in pid order, below the pids of all other
      threads on it. */
  ghost predicate InLine(q: seq<nat>, chan: seq<nat>, c: nat) {
    && (forall i, j :: 0 <= i < j < |q| && On(chan, c, 0, q[i]) ==> On(chan, c, 0, q[j]) && q[i] < q[j])
    && (forall i, p :: 0 <= i < |q| && On(chan, c, 0, q[i]) && 0 <= p && On(chan, c, 0, p) && p !in q ==> q[i] < p)
  }

  predicate At(q: seq<nat>, i: nat, p: nat) {
    exists j :: i <= j < |q| && q[j] == p
  }

  /** An ascending part of the list that leaves out only higher pids is its beginning. */
  lemma {:induction false} LowerPart(q: seq<nat>, i: nat, chan: seq<nat>, c: nat, k: nat)
    requires i <= |q| && k <= |chan| && (forall j :: i <= j < |q| ==> On(chan, c, k, q[j]))
    requires forall j, m :: i <= j < m < |q| ==> q[j] < q[m]
    requires forall j, p :: i <= j < |q| && k <= p && On(chan, c, k, p) && !At(q, i, p) ==> q[j] < p
    ensures q[i..] <= Listed(chan, c, k)
    decreases |chan| - k
  {
    if i < |q| {
      assert On(chan, c, k, q[i]);
      if chan[k] == c {
        assert q[i] == k by {
          assert On(chan, c, k, k);
          if At(q, i, k) {
            var j :| i <= j < |q| && q[j] == k;
          }
        }
        var i', k' := i + 1, k + 1;
        forall j, p | i' <= j < |q| && k' <= p && On(chan, c, k', p) && !At(q, i', p)
          ensures q[j] < p
        {
          assert On(chan, c, k, p) && !At(q, i, p);
        }
        LowerPart(q, i + 1, chan, c, k + 1);
        assert q[i..] == [k] + q[i + 1..];
      } else {
        var k' := k + 1;
        forall j, p | i <= j < |q| && k' <= p && On(chan, c, k', p) && !At(q, i, p)
          ensures q[j] < p
        {
          assert On(chan, c, k, p);
        }
        LowerPart(q, i, chan, c, k + 1);
      }
    }
  }

  lemma InLineHarmless(q: seq<nat>, chan: seq<nat>, c: nat, p: nat)
    requires InLine(q, chan, c) && On(chan, c, 0, p)
    ensures var i := FirstOn(q, chan, c, 0); i < |q| ==> q[i] <= p
  {
    var i := FirstOn(q, chan, c, 0);
    if i < |q| && p in q {
      var j :| 0 <= j < |q| && q[j] == p;
      assert i <= j;
    }
  }

  lemma InLinePrefix(q: seq<nat>, chan: seq<nat>, c: nat)
    requires InLine(q, chan, c)
    ensures q <= Rewoken(q, chan, c, 0)
  {
    var i := FirstOn(q, chan, c, 0);
    if i < |q| {
      var k := q[i];
      forall j | i <= j < |q|
        ensures On(chan, c, k, q[j])
      {
        assert j > i ==> On(chan, c, 0, q[j]) && q[i] < q[j];
      }
      forall j, p | i <= j < |q| && k <= p && On(chan, c, k, p) && !At(q, i, p)
        ensures q[j] < p
      {
        NotBefore(q, chan, c, p);
        assert On(chan, c, 0, p) && On(chan, c, 0, q[j]);
      }
      assert forall j, m :: i <= j < m < |q| ==> On(chan, c, 0, q[j]) ==> q[j] < q[m];
      hide FirstOn, InLine;
      LowerPart(q, i, chan, c, k);
      assert q == q[..i] + q[i..];
    }
  }

  lemma NotBefore(q: seq<nat>, chan: seq<nat>, c: nat, p: nat)
    requires On(chan, c, 0, p)
    ensures p in q ==> At(q, FirstOn(q, chan, c, 0), p)
  {
    if p in q {
      var m :| 0 <= m < |q| && q[m] == p;
      assert FirstOn(q, chan, c, 0) <= m;
    }
  }

  lemma SharedPart(q: seq<nat>, l: seq<nat>, i: nat, m: nat)
    requires m < |l| && forall j :: i <= j < |q| ==> j - i < |l| && q[j] == l[j - i]
    ensures i + m < |q| ==> l[m] in q
  {
    if i + m < |q| {
      assert q[i + m] == l[m];
    }
  }

  lemma PrefixInLine(q: seq<nat>, chan: seq<nat>, c: nat)
    requires Distinct(q) && q <= Rewoken(q, chan, c, 0)
    requires var i := FirstOn(q, chan, c, 0); i < |q| ==> forall p :: 0 <= p && On(chan, c, 0, p) ==> q[i] <= p
    ensures InLine(q, chan, c)
  {
    var i := FirstOn(q, chan, c, 0);
    if i < |q| {
      var l, r := Listed(chan, c, q[i]), Rewoken(q, chan, c, 0);
      assert r == q[..i] + l;
      ListedExact(chan, c, q[i]);
      hide Listed, Rewoken;
      forall j | i <= j < |q|
        ensures j - i < |l| && q[j] == l[j - i] && On(chan, c, 0, q[j])
      {
        assert r[j] == q[j];
        assert l[j - i] in l;
        assert On(chan, c, q[i], l[j - i]);
      }
      forall j, p | 0 <= j < |q| && On(chan, c, 0, q[j]) && 0 <= p && On(chan, c, 0, p) && p !in q
        ensures q[j] < p
      {
        assert On(chan, c, q[i], p);
        var m :| 0 <= m < |l| && l[m] == p;
        SharedPart(q, l, i, m);
        assert q[j] == l[j - i];
      }
    }
  }

  /** thread_wakeup keeps the invariant and every queued thread's place if and only if the queued
      threads on the channel are in line. */
  lemma OrderExact(s: Sched, c: nat)
    requires Inv(s)
    ensures (Inv(WakeFrom(s, c, 0)) && s.ready <= WakeFrom(s, c, 0).ready)
            <==> s.chan[s.cur] != c && InLine(s.ready, s.chan, c)
  {
    WakeupExact(s, c);
    WakeReady(s, c, 0);
    assert Distinct(s.ready);
    var q, i := s.ready, FirstOn(s.ready, s.chan, c, 0);
    hide Inv, WakeFrom, FirstOn;
    if s.chan[s.cur] != c && InLine(q, s.chan, c) {
      InLinePrefix(q, s.chan, c);
      forall p | 0 <= p < |s.chan| && On(s.chan, c, 0, p)
        ensures i < |q| ==> q[i] <= p
      {
        InLineHarmless(q, s.chan, c, p);
      }
    } else if Harmless(s, c) && q <= WakeFrom(s, c, 0).ready {
      PrefixInLine(q, s.chan, c);
    }
  }

  // ---- Runs ----

  /** `run` lists the states of an execution, `es` the events between them. */
  ghost predicate Execution(run: seq<Sched>, es: seq<Event>) {
    && |run| == |es| + 1
    && (forall i :: 0 <= i < |es| ==> Enabled(run[i], es[i]) && run[i + 1] == Next(run[i], es[i]))
  }

  lemma {:induction false} ReachableInv(run: seq<Sched>, es: seq<Event>, i: nat)
    requires Execution(run, es) && Inv(run[0]) && i < |run|
    ensures Inv(run[i])
  {
    if i > 0 {
      ReachableInv(run, es, i - 1);
      NextInv(run[i - 1], es[i - 1]);
    }
  }

  predicate IsDispatch(e: Event) {
    e.Yield? || e.SleepOn?
  }

  /** How many of the first `m` events dispatch a thread. */
  function Dispatches(es: seq<Event>, m: nat): (n: nat)
    requires m <= |es|
  {
    if m == 0 then 0 else Dispatches(es, m - 1) + if IsDispatch(es[m - 1]) then 1 else 0
  }

  /** Wakeups find the queued threads on the channel in line. */
  ghost predicate Orderly(s: Sched, e: Event) {
    e.Wakeup? ==> InLine(s.ready, s.chan, e.c)
  }

  /** One event moves a queued thread one place forward, or runs it, or leaves it in place. */
  lemma QueueMoves(s: Sched, e: Event, k: nat)
    requires Inv(s) && Enabled(s, e) && Orderly(s, e) && k < |s.ready|
    ensures !IsDispatch(e) ==> k < |Next(s, e).ready| && Next(s, e).ready[k] == s.ready[k]
    ensures IsDispatch(e) && k == 0 ==> Next(s, e).cur == s.ready[0]
    ensures IsDispatch(e) && k > 0 ==> k - 1 < |Next(s, e).ready| && Next(s, e).ready[k - 1] == s.ready[k]
  {
    match e
    case Spawn(p) => PushNew(s, p);
    case Yield => PushNew(s, s.cur);
    case Wakeup(c) => OrderExact(s, c);
    case _ =>
  }

  ghost predicate OrderlyRun(run: seq<Sched>, es: seq<Event>) {
    && Execution(run, es) && Inv(run[0])
    && (forall i :: 0 <= i < |es| ==> Orderly(run[i], es[i]))
  }

  lemma {:induction false} WaitsInLine(run: seq<Sched>, es: seq<Event>, k: nat, m: nat)
    requires OrderlyRun(run, es) && k < |run[0].ready| && m <= |es| && Dispatches(es, m) <= k
    ensures k - Dispatches(es, m) < |run[m].ready| && run[m].ready[k - Dispatches(es, m)] == run[0].ready[k]
  {
    hide Enabled, Inv, Orderly, Next;
    if m > 0 {
      WaitsInLine(run, es, k, m - 1);
      ReachableInv(run, es, m - 1);
      QueueMoves(run[m - 1], es[m - 1], k - Dispatches(es, m - 1));
    }
  }

  /** Bounded wait: a thread with `k` others ahead of it in the ready queue is the one that the
      (k+1)-th dispatch runs, whatever is spawned, woken or put to sleep in between. */
  lemma BoundedWait(run: seq<Sched>, es: seq<Event>, k: nat)
    requires OrderlyRun(run, es) && k < |run[0].ready| && es != []
    requires IsDispatch(es[|es| - 1]) && Dispatches(es, |es|) == k + 1
    ensures run[|es|].cur == run[0].ready[k]
  {
    hide Enabled, Inv, Orderly, Next;
    var m := |es| - 1;
    WaitsInLine(run, es, k, m);
    ReachableInv(run, es, m);
    QueueMoves(run[m], es[m], 0);
  }

  // ---- The kernel's arrays ----

  class Threads {
    const n: nat
    const tq: Queues
    const state: array<TState>
    const chan: array<nat>
    var cur: nat

    /** The ready queue is queue number NUM_IDS; the others are unused. */
    ghost predicate Valid()
      reads this, state, chan, tq, tq.prev, tq.next, tq.head, tq.tail
    {
      && tq.Forward() && tq.n == n && n < |tq.qs| && state.Length == n && chan.Length == n && cur < n
      && chan != tq.prev && chan != tq.next && chan != tq.head && chan != tq.tail
      && (forall c :: 0 <= c < |tq.qs| && c != n ==> tq.qs[c] == [])
    }

    ghost function Value(): (s: Sched)
      requires Valid()
      reads this, state, chan, tq, tq.prev, tq.next, tq.head, tq.tail
    {
      Sched(state[..], chan[..], cur, tq.qs[n])
    }

    /** thread_init: thread 0 runs. */
    constructor (numIds: nat, numCpus: nat)
      requires 0 < numIds && 0 < numCpus
      ensures Valid() && Inv(Value()) && Value().ready == [] && n == numIds && cur == 0
      ensures forall p :: 0 <= p < n ==> state[p] == (if p == 0 then Run else Dead) && chan[p] == 0
    {
      n := numIds;
      tq := new Queues(numIds, numIds + numCpus);
      state := new TState[numIds](i => if i == 0 then Run else Dead);
      chan := new nat[numIds](_ => 0);
      cur := 0;
      new;
      tq.ValidIsForward();
    }

    /** tcb_set_state(p, TSTATE_READY); tqueue_enqueue(NUM_IDS, p). */
    method MakeReady(p: nat)
      requires Valid() && p < n
      modifies this, state, tq, tq.prev, tq.next, tq.head, tq.tail
      ensures Valid() && Value() == Push(old(Value()), p)
    {
      assert InNoOther(tq.qs, n, p);
      hide ForwardChained, InNoOther, Requeue, Chained, NotQueued;
      state[p] := Ready;
      tq.Enqueue(n, p);
    }

    /** tqueue_dequeue(NUM_IDS), then run that thread. */
    method RunNext()
      requires Valid() && tq.qs[n] != [] && tq.qs[n][0] < n
      modifies this, state, tq, tq.prev, tq.next, tq.head, tq.tail
      ensures Valid() && Value() == Dispatch(old(Value()))
    {
      var next := tq.Dequeue(n);
      state[next] := Run;
      cur := next;
    }

    /** thread_spawn, once kctx_new has chosen the pid. */
    method ThreadSpawn(pid: nat)
      requires Valid() && Inv(Value()) && pid < n && state[pid] == Dead
      modifies this, state, tq, tq.prev, tq.next, tq.head, tq.tail
      ensures Valid() && Value() == Next(old(Value()), Spawn(pid)) && Inv(Value())
      ensures Value() == Sched(old(state[..])[pid := Ready], old(chan[..]), old(cur), old(tq.qs[n]) + [pid])
    {
      NextInv(Value(), Spawn(pid));
      PushNew(Value(), pid);
      assert pid !in tq.qs[n];
      MakeReady(pid);
    }

    /** thread_yield. */
    method ThreadYield()
      requires Valid() && Inv(Value())
      modifies this, state, tq, tq.prev, tq.next, tq.head, tq.tail
      ensures Valid() && Value() == Next(old(Value()), Yield) && Inv(Value())
      ensures var q := old(tq.qs[n]) + [old(cur)];
              Value() == Sched(old(state[..])[old(cur) := Ready][q[0] := Run], old(chan[..]), q[0], q[1..])
    {
      NextInv(Value(), Yield);
      PushNew(Value(), cur);
      assert cur !in tq.qs[n];
      MakeReady(cur);
      RunNext();
    }

    /** The part of thread_sleep up to the context switch. */
    method ThreadSleep(c: nat)
      requires Valid() && Inv(Value()) && tq.qs[n] != []
      modifies this, state, chan, tq, tq.prev, tq.next, tq.head, tq.tail
      ensures Valid() && Value() == Next(old(Value()), SleepOn(c)) && Inv(Value())
      ensures var q, me := old(tq.qs[n]), old(cur);
              Value() == Sched(old(state[..])[me := Sleep][q[0] := Run], old(chan[..])[me := c], q[0], q[1..])
    {
      NextInv(Value(), SleepOn(c));
      chan[cur] := c;
      state[cur] := Sleep;
      RunNext();
    }

    /** thread_wakeup, whatever is on the channel. */
    method ThreadWakeup(c: nat)
      requires Valid()
      modifies this, state, tq, tq.prev, tq.next, tq.head, tq.tail
      ensures Valid() && Value() == WakeFrom(old(Value()), c, 0) && cur == old(cur) && chan[..] == old(chan[..])
      ensures forall p :: 0 <= p < n ==> state[p] == if chan[p] == c then Ready else old(state[p])
      ensures old(Inv(Value())) ==> Sized(old(Value())) && (Inv(Value()) <==> Harmless(old(Value()), c))
    {
      hide ForwardChained, InNoOther;
      ghost var s0 := Value();
      if Inv(s0) {
        WakeupExact(s0, c);
      }
      forall p: nat | p < n
        ensures WakeFrom(s0, c, 0).state[p] == if s0.chan[p] == c then Ready else s0.state[p]
      {
        WakeStates(s0, c, 0, p);
      }
      hide Inv, Harmless;
      var pid := 0;
      while pid < n
        invariant 0 <= pid <= n && Valid() && chan[..] == s0.chan
        invariant WakeFrom(Value(), c, pid) == WakeFrom(s0, c, 0)
      {
        if chan[pid] == c {
          MakeReady(pid);
        }
        pid := pid + 1;
      }
    }
  }
}
