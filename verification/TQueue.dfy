/** kern/thread/PTQueueInit: thread queues linked through the prev/next indices of the TCBs.
    All queues share the two index arrays; `n` (NUM_IDS) stands for "none". */
module TQueue {
  import opened Sequences

  /** The neighbours of position `i`, or `n`. */
  function Before(q: seq<nat>, i: nat, n: nat): (p: nat)
    requires i < |q|
  {
    if i == 0 then n else q[i - 1]
  }

  function After(q: seq<nat>, i: nat, n: nat): (p: nat)
    requires i < |q|
  {
    if i == |q| - 1 then n else q[i + 1]
  }

  /** `prev` and `next` chain the elements of `q`, in order, and end in `n` on both sides. */
  ghost predicate Links(q: seq<nat>, prev: seq<nat>, next: seq<nat>, n: nat) {
    && |prev| == n && |next| == n
    && (forall i :: 0 <= i < |q| ==> q[i] < n)
    && Distinct(q)
    && (forall i :: 0 <= i < |q| ==> prev[q[i]] == Before(q, i, n) && next[q[i]] == After(q, i, n))
  }

  /** Index updates outside `q` do not disturb it. */
  lemma LinksFrame(q: seq<nat>, prev: seq<nat>, next: seq<nat>, prev': seq<nat>, next': seq<nat>, n: nat)
    requires Links(q, prev, next, n) && |prev'| == n && |next'| == n
    requires forall i :: 0 <= i < |q| ==> q[i] < n && prev'[q[i]] == prev[q[i]] && next'[q[i]] == next[q[i]]
    ensures Links(q, prev', next', n)
  {
  }

  lemma LinksAppend(q: seq<nat>, prev: seq<nat>, next: seq<nat>, n: nat, pid: nat)
    requires Links(q, prev, next, n) && pid < n && forall i :: 0 <= i < |q| ==> q[i] != pid
    ensures q == [] ==> Links([pid], prev[pid := n], next[pid := n], n)
    ensures q != [] ==> var last := q[|q| - 1];
                        Links(q + [pid], prev[pid := last], next[last := pid][pid := n], n)
  {
    if q != [] {
      var last, q' := q[|q| - 1], q + [pid];
      var prev', next' := prev[pid := last], next[last := pid][pid := n];
      forall i | 0 <= i < |q'|
        ensures prev'[q'[i]] == Before(q', i, n) && next'[q'[i]] == After(q', i, n)
      {
        if i < |q| {
          assert q'[i] == q[i] && q[i] != pid;
          if i < |q| - 1 {
            assert q[i] != last;
          }
        }
      }
    }
  }

  /** The link changes that take `q[k]` out: its neighbours are joined. */
  ghost predicate Bridged(q: seq<nat>, prev: seq<nat>, next: seq<nat>, prev': seq<nat>, next': seq<nat>, n: nat, k: nat)
    requires k < |q| && Links(q, prev, next, n)
  {
    && |prev'| == n && |next'| == n
    && (forall p :: 0 <= p < n && p != q[k] ==>
          prev'[p] == if k + 1 < |q| && p == q[k + 1] then Before(q, k, n) else prev[p])
    && (forall p :: 0 <= p < n && p != q[k] ==>
          next'[p] == if k > 0 && p == q[k - 1] then After(q, k, n) else next[p])
  }

  /** Neighbours in the shortened queue. */
  lemma CutNeighbours(q: seq<nat>, n: nat, k: nat, i: nat)
    requires k < |q| && i < |q| - 1
    ensures var j := if i < k then i else i + 1;
            && Before(Cut(q, k), i, n) == (if j == k + 1 then Before(q, k, n) else Before(q, j, n))
            && After(Cut(q, k), i, n) == (if j == k - 1 then After(q, k, n) else After(q, j, n))
  {
    if i > 0 {
      assert Cut(q, k)[i - 1] == q[if i - 1 < k then i - 1 else i];
    }
    if i + 1 < |q| - 1 {
      assert Cut(q, k)[i + 1] == q[if i + 1 < k then i + 1 else i + 2];
    }
  }

  lemma CutLinks(q: seq<nat>, prev: seq<nat>, next: seq<nat>, prev': seq<nat>, next': seq<nat>, n: nat, k: nat, j: nat)
    requires Links(q, prev, next, n) && k < |q| && j < |q| && j != k && Bridged(q, prev, next, prev', next', n, k)
    ensures q[j] < n
    ensures prev'[q[j]] == if j == k + 1 then Before(q, k, n) else Before(q, j, n)
    ensures next'[q[j]] == if j == k - 1 then After(q, k, n) else After(q, j, n)
  {
    hide Before, After;
    assert q[j] != q[k] && q[j] < n;
    assert k + 1 < |q| && j != k + 1 ==> q[j] != q[k + 1];
    assert k > 0 && j != k - 1 ==> q[j] != q[k - 1];
    assert prev[q[j]] == Before(q, j, n) && next[q[j]] == After(q, j, n);
  }

  lemma LinksCut(q: seq<nat>, prev: seq<nat>, next: seq<nat>, prev': seq<nat>, next': seq<nat>, n: nat, k: nat)
    requires Links(q, prev, next, n) && k < |q| && Bridged(q, prev, next, prev', next', n, k)
    ensures Links(Cut(q, k), prev', next', n)
  {
    var r := Cut(q, k);
    forall i | 0 <= i < |r|
      ensures prev'[r[i]] == Before(r, i, n) && next'[r[i]] == After(r, i, n)
    {
      CutNeighbours(q, n, k, i);
      CutLinks(q, prev, next, prev', next', n, k, if i < k then i else i + 1);
    }
    hide Bridged;
  }

  function First(q: seq<nat>, n: nat): (p: nat) {
    if q == [] then n else q[0]
  }

  function Last(q: seq<nat>, n: nat): (p: nat) {
    if q == [] then n else q[|q| - 1]
  }

  /** Every queue is chained, `head` and `tail` mark its ends, and `home` tells each queued pid's
      queue, so that the queues are disjoint. */
  ghost predicate Chained(qs: seq<seq<nat>>, prev: seq<nat>, next: seq<nat>, head: seq<nat>, tail: seq<nat>,
                          home: seq<int>, n: nat) {
    && |prev| == n && |next| == n && |home| == n && |head| == |qs| && |tail| == |qs|
    && (forall c :: 0 <= c < |qs| ==> Links(qs[c], prev, next, n))
    && (forall c :: 0 <= c < |qs| ==> head[c] == First(qs[c], n) && tail[c] == Last(qs[c], n))
    && (forall c, i :: 0 <= c < |qs| && 0 <= i < |qs[c]| ==> qs[c][i] < n && home[qs[c][i]] == c)
  }

  /** Changing queue `chid` to `q`, with link changes confined to its pids and to `pid`, which
      is in no other queue. */
  lemma ReplaceQueue(qs: seq<seq<nat>>, prev: seq<nat>, next: seq<nat>, head: seq<nat>, tail: seq<nat>,
                     home: seq<int>, n: nat,
                     prev': seq<nat>, next': seq<nat>, chid: nat, q: seq<nat>, pid: nat)
    requires Chained(qs, prev, next, head, tail, home, n) && chid < |qs| && pid < n
    requires Links(q, prev', next', n) && |prev'| == n && |next'| == n
    requires NotQueued(qs, pid) || home[pid] == chid
    requires forall p :: 0 <= p < n && home[p] != chid && p != pid ==> prev'[p] == prev[p] && next'[p] == next[p]
    requires forall i :: 0 <= i < |q| ==> q[i] < n && (q[i] == pid || home[q[i]] == chid)
    ensures Chained(qs[chid := q], prev', next', head[chid := First(q, n)], tail[chid := Last(q, n)],
                    home[pid := chid], n)
  {
    var qs', home' := qs[chid := q], home[pid := chid];
    forall c | 0 <= c < |qs| && c != chid
      ensures Links(qs'[c], prev', next', n)
      ensures forall i :: 0 <= i < |qs'[c]| ==> qs'[c][i] < n && home'[qs'[c][i]] == c
    {
      forall i | 0 <= i < |qs[c]|
        ensures qs[c][i] < n && home[qs[c][i]] == c && qs[c][i] != pid
      {
      }
      LinksFrame(qs[c], prev, next, prev', next', n);
    }
  }

  // ---- Following `next` only ----

  /** What dequeuing sees: the elements of `q` in order along `next`, ending in `n`. */
  ghost predicate ForwardLinks(q: seq<nat>, next: seq<nat>, n: nat) {
    && |next| == n
    && (forall i :: 0 <= i < |q| ==> q[i] < n)
    && Distinct(q)
    && (forall i :: 0 <= i < |q| ==> next[q[i]] == After(q, i, n))
  }

  ghost predicate ForwardChained(qs: seq<seq<nat>>, next: seq<nat>, head: seq<nat>, tail: seq<nat>,
                                 home: seq<int>, n: nat) {
    && |next| == n && |home| == n && |head| == |qs| && |tail| == |qs|
    && (forall c :: 0 <= c < |qs| ==> ForwardLinks(qs[c], next, n))
    && (forall c :: 0 <= c < |qs| ==> head[c] == First(qs[c], n) && tail[c] == Last(qs[c], n))
    && (forall c, i :: 0 <= c < |qs| && 0 <= i < |qs[c]| ==> qs[c][i] < n && home[qs[c][i]] == c)
  }

  lemma ChainedIsForward(qs: seq<seq<nat>>, prev: seq<nat>, next: seq<nat>, head: seq<nat>, tail: seq<nat>,
                         home: seq<int>, n: nat)
    requires Chained(qs, prev, next, head, tail, home, n)
    ensures ForwardChained(qs, next, head, tail, home, n)
  {
    forall c | 0 <= c < |qs|
      ensures ForwardLinks(qs[c], next, n)
    {
      assert Links(qs[c], prev, next, n);
    }
  }

  /** What tqueue_enqueue makes of a queue: a pid that is new to it goes last; a pid that is in it
      already becomes the last one where it stands, and what was behind it is cut off. */
  function Requeue(q: seq<nat>, p: nat): (r: seq<nat>)
    ensures r != [] && r[|r| - 1] == p
  {
    var i := IndexOf(q, p);
    if i < |q| then q[..i + 1] else q + [p]
  }

  /** A new pid goes last; one that is queued stays where it is, and those behind it are cut off. */
  lemma RequeueExact(q: seq<nat>, p: nat)
    requires Distinct(q)
    ensures p !in q ==> Requeue(q, p) == q + [p]
    ensures forall i :: 0 <= i < |q| && q[i] == p ==> Requeue(q, p) == q[..i + 1]
  {
    forall i | 0 <= i < |q| && q[i] == p
      ensures IndexOf(q, p) == i
    {
    }
  }

  lemma RequeueForward(q: seq<nat>, next: seq<nat>, n: nat, p: nat)
    requires ForwardLinks(q, next, n) && p < n
    ensures Last(q, n) != n ==> Last(q, n) < n
    ensures Last(q, n) == n <==> q == []
    ensures ForwardLinks(Requeue(q, p), JoinNext(next, Last(q, n), p, n), n)
    ensures q != [] ==> First(Requeue(q, p), n) == First(q, n)
  {
    var i, t, r := IndexOf(q, p), Last(q, n), Requeue(q, p);
    var next' := JoinNext(next, t, p, n);
    forall j | 0 <= j < |r|
      ensures next'[r[j]] == After(r, j, n)
    {
      if j < |r| - 1 {
        assert r[j] == q[j] && q[j] != p;
        if j < |q| - 1 {
          assert q[j] != t;
          assert next[q[j]] == q[j + 1];
        }
      }
    }
  }

  /** As ReplaceQueue, along `next`. */
  lemma ReplaceForward(qs: seq<seq<nat>>, next: seq<nat>, head: seq<nat>, tail: seq<nat>, home: seq<int>, n: nat,
                       next': seq<nat>, chid: nat, q: seq<nat>, pid: nat)
    requires ForwardChained(qs, next, head, tail, home, n) && chid < |qs| && pid < n
    requires ForwardLinks(q, next', n) && |next'| == n && InNoOther(qs, chid, pid)
    requires forall p :: 0 <= p < n && home[p] != chid && p != pid ==> next'[p] == next[p]
    requires forall i :: 0 <= i < |q| ==> q[i] < n && (q[i] == pid || home[q[i]] == chid)
    ensures ForwardChained(qs[chid := q], next', head[chid := First(q, n)], tail[chid := Last(q, n)],
                           home[pid := chid], n)
  {
    var qs', home' := qs[chid := q], home[pid := chid];
    forall c | 0 <= c < |qs| && c != chid
      ensures ForwardLinks(qs'[c], next', n)
      ensures forall i :: 0 <= i < |qs'[c]| ==> qs'[c][i] < n && home'[qs'[c][i]] == c
    {
      assert ForwardLinks(qs[c], next, n);
      forall i | 0 <= i < |qs[c]|
        ensures qs[c][i] < n && home[qs[c][i]] == c && qs[c][i] != pid && next'[qs[c][i]] == After(qs[c], i, n)
      {
      }
    }
  }

  lemma EnqueueForward(qs: seq<seq<nat>>, next: seq<nat>, head: seq<nat>, tail: seq<nat>, home: seq<int>,
                       n: nat, chid: nat, pid: nat)
    requires ForwardChained(qs, next, head, tail, home, n) && chid < |qs| && pid < n && InNoOther(qs, chid, pid)
    ensures var t := tail[chid];
            && (t != n ==> t < n)
            && ForwardChained(qs[chid := Requeue(qs[chid], pid)], JoinNext(next, t, pid, n),
                              if t == n then head[chid := pid] else head, tail[chid := pid], home[pid := chid], n)
  {
    var q, t := qs[chid], tail[chid];
    assert ForwardLinks(q, next, n) && t == Last(q, n) && head[chid] == First(q, n);
    RequeueForward(q, next, n, pid);
    var r, next' := Requeue(q, pid), JoinNext(next, t, pid, n);
    RequeueHome(qs, next, head, tail, home, n, chid, pid);
    hide ForwardLinks, ForwardChained, InNoOther, Requeue;
    ReplaceForward(qs, next, head, tail, home, n, next', chid, r, pid);
    UpdateSame(head, chid);
  }

  lemma RequeueHome(qs: seq<seq<nat>>, next: seq<nat>, head: seq<nat>, tail: seq<nat>, home: seq<int>,
                    n: nat, chid: nat, pid: nat)
    requires ForwardChained(qs, next, head, tail, home, n) && chid < |qs| && pid < n
    ensures var t := tail[chid];
            && (t != n ==> t < n && home[t] == chid)
            && (forall p :: 0 <= p < n && home[p] != chid && p != pid ==> JoinNext(next, t, pid, n)[p] == next[p])
    ensures forall i :: 0 <= i < |Requeue(qs[chid], pid)| ==>
              var p := Requeue(qs[chid], pid)[i];
              p < n && (p == pid || home[p] == chid)
  {
    var q := qs[chid];
    assert q != [] ==> home[q[|q| - 1]] == chid;
  }

  lemma DequeueForward(qs: seq<seq<nat>>, next: seq<nat>, head: seq<nat>, tail: seq<nat>, home: seq<int>,
                       n: nat, chid: nat)
    requires ForwardChained(qs, next, head, tail, home, n) && chid < |qs|
    ensures |next| == n && |head| == |tail| == |qs| && (head[chid] == n <==> qs[chid] == [])
    ensures qs[chid] != [] ==>
              var h := head[chid];
              && h == qs[chid][0] < n && (next[h] != n ==> next[h] < n && next[h] != h)
              && ForwardChained(qs[chid := qs[chid][1..]], next[h := n], head[chid := next[h]],
                                if next[h] == n then tail[chid := n] else tail, home, n)
  {
    var q := qs[chid];
    assert ForwardLinks(q, next, n) && head[chid] == First(q, n) && tail[chid] == Last(q, n);
    if q != [] {
      var h, r := q[0], q[1..];
      assert next[h] == After(q, 0, n);
      assert home[h] == chid;
      assert |q| > 1 ==> q[1] < n && q[1] != q[0];
      forall i | 0 <= i < |r|
        ensures r[i] == q[i + 1] && r[i] < n && home[r[i]] == chid && r[i] != h && next[h := n][r[i]] == After(r, i, n)
      {
      }
      assert Distinct(r);
      assert ForwardLinks(r, next[h := n], n);
      assert First(r, n) == next[h] && (Last(r, n) == if next[h] == n then n else tail[chid]);
      assert InNoOther(qs, chid, h);
      hide ForwardLinks, ForwardChained, InNoOther;
      ReplaceForward(qs, next, head, tail, home, n, next[h := n], chid, r, h);
      UpdateSame(tail, chid);
      UpdateSame(home, h);
    }
  }

  /** `p` is in no queue but perhaps `chid`. */
  ghost predicate InNoOther(qs: seq<seq<nat>>, chid: nat, p: nat) {
    forall c, i :: 0 <= c < |qs| && c != chid && 0 <= i < |qs[c]| ==> qs[c][i] != p
  }

  /** `p` is in no queue. */
  ghost predicate NotQueued(qs: seq<seq<nat>>, p: nat) {
    forall c, i :: 0 <= c < |qs| && 0 <= i < |qs[c]| ==> qs[c][i] != p
  }

  class Queues {
    const n: nat
    const prev: array<nat>
    const next: array<nat>
    const head: array<nat>
    const tail: array<nat>

    /** The queues as sequences, and for each queued pid its queue. */
    ghost var qs: seq<seq<nat>>
    ghost var home: seq<int>

    ghost predicate Valid()
      reads this, prev, next, head, tail
    {
      && prev != next && prev != head && prev != tail && next != head && next != tail && head != tail
      && Chained(qs, prev[..], next[..], head[..], tail[..], home, n)
    }

    /** tcb_init and tqueue_init: no links, all queues empty. */
    constructor (numIds: nat, numQueues: nat)
      ensures Valid() && n == numIds && qs == seq(numQueues, _ => [])
      ensures fresh(prev) && fresh(next) && fresh(head) && fresh(tail)
    {
      n := numIds;
      prev := new nat[numIds](_ => numIds);
      next := new nat[numIds](_ => numIds);
      head := new nat[numQueues](_ => numIds);
      tail := new nat[numQueues](_ => numIds);
      qs := seq(numQueues, _ => []);
      home := seq(numIds, _ => -1);
    }

    /** The queues as tqueue_dequeue will find them; `prev` may be stale. */
    ghost predicate Forward()
      reads this, prev, next, head, tail
    {
      && prev != next && prev != head && prev != tail && next != head && next != tail && head != tail
      && prev.Length == n && ForwardChained(qs, next[..], head[..], tail[..], home, n)
    }

    lemma ValidIsForward()
      requires Valid()
      ensures Forward()
    {
      ChainedIsForward(qs, prev[..], next[..], head[..], tail[..], home, n);
    }

    /** tqueue_enqueue, for a pid that may be in the queue already; no other queue changes. */
    method Enqueue(chid: nat, pid: nat)
      requires Forward() && chid < |qs| && pid < n && InNoOther(qs, chid, pid)
      modifies this, prev, next, head, tail
      ensures Forward() && qs == old(qs)[chid := Requeue(old(qs)[chid], pid)]
      ensures old(Valid() && NotQueued(qs, pid)) ==> Valid() && qs == old(qs)[chid := old(qs)[chid] + [pid]]
    {
      ghost var p0: seq<nat>, n0: seq<nat>, h0: seq<nat>, t0: seq<nat> := prev[..], next[..], head[..], tail[..];
      ghost var full := Valid() && NotQueued(qs, pid);
      EnqueueForward(qs, n0, h0, t0, home, n, chid, pid);
      if full {
        EnqueueChained(qs, p0, n0, h0, t0, home, n, chid, pid);
        RequeueNew(qs, chid, pid);
      }
      assert |n0| == n && |h0| == |qs| && |t0| == |qs| && |home| == n;
      ghost var qs', home' := qs[chid := Requeue(qs[chid], pid)], home[pid := chid];
      hide Chained, ForwardChained, NotQueued, Requeue, InNoOther, JoinNext;
      LinkLast(chid, pid);
      qs, home := qs', home';
    }

    /** The statements of tqueue_enqueue, on the four arrays. */
    method LinkLast(chid: nat, pid: nat)
      requires prev != next && prev != head && prev != tail && next != head && next != tail && head != tail
      requires prev.Length == n && next.Length == n && pid < n && chid < head.Length == tail.Length
      requires tail[chid] != n ==> tail[chid] < n
      modifies prev, next, head, tail
      ensures var t := old(tail[chid]);
              && prev[..] == old(prev[..])[pid := t] && next[..] == JoinNext(old(next[..]), t, pid, n)
              && head[..] == (if t == n then old(head[..])[chid := pid] else old(head[..]))
              && tail[..] == old(tail[..])[chid := pid]
    {
      var t := tail[chid];
      if t == n {
        prev[pid] := n;
        next[pid] := n;
        head[chid] := pid;
        tail[chid] := pid;
      } else {
        next[t] := pid;
        prev[pid] := t;
        next[pid] := n;
        tail[chid] := pid;
      }
    }

    /** tqueue_remove, for a pid that is in the queue.  The guard `prev != next` of the middle
        case is always true, because a queue never repeats a pid. */
    method Remove(chid: nat, pid: nat, ghost k: nat)
      requires Valid() && chid < |qs| && k < |qs[chid]| && qs[chid][k] == pid
      modifies this, prev, next, head, tail
      ensures Valid() && qs == old(qs)[chid := Cut(old(qs)[chid], k)]
    {
      ghost var p0: seq<nat>, n0: seq<nat>, h0: seq<nat>, t0: seq<nat> := prev[..], next[..], head[..], tail[..];
      RemoveFacts(qs, p0, n0, h0, t0, home, n, chid, k);
      var p, x := prev[pid], next[pid];
      if p == n {
        if x == n {
          head[chid] := n;
          tail[chid] := n;
        } else {
          prev[x] := n;
          head[chid] := x;
        }
      } else {
        if x == n {
          next[p] := n;
          tail[chid] := p;
        } else {
          if p != x {
            next[p] := x;
          }
          prev[x] := p;
        }
      }
      prev[pid] := n;
      next[pid] := n;
      ghost var p1: seq<nat>, n1: seq<nat> := prev[..], next[..];
      assert p1 == SkipPrev(p0, p, x, pid, n) && n1 == SkipNext(n0, p, x, pid, n);
      RemoveChained(qs, p0, n0, h0, t0, home, n, chid, k);
      ChainedFacts(qs, p0, n0, h0, t0, home, n, chid);
      RemoveEnds(qs[chid], h0, t0, n, chid, k);
      hide Chained, Links;
      assert head[..] == (if p == n then h0[chid := x] else h0);
      assert tail[..] == (if x == n then t0[chid := p] else t0);
      qs := qs[chid := Cut(qs[chid], k)];
    }

    /** tqueue_dequeue: the front pid, or `n` when the queue is empty. */
    method Dequeue(chid: nat) returns (pid: nat)
      requires Forward() && chid < |qs|
      modifies this, prev, next, head, tail
      ensures Forward() && pid == First(old(qs)[chid], n)
      ensures qs == if old(qs)[chid] == [] then old(qs) else old(qs)[chid := old(qs)[chid][1..]]
      ensures old(Valid()) ==> Valid()
    {
      ghost var p0: seq<nat>, n0: seq<nat>, h0: seq<nat>, t0: seq<nat> := prev[..], next[..], head[..], tail[..];
      ghost var full := Valid();
      hide Chained, ForwardChained, ForwardLinks;
      DequeueForward(qs, n0, h0, t0, home, n, chid);
      pid := n;
      var h := head[chid];
      if h != n {
        if full {
          DequeueChained(qs, p0, n0, h0, t0, home, n, chid);
        }
        pid := h;
        var x := next[h];
        if x == n {
          head[chid] := n;
          tail[chid] := n;
        } else {
          prev[x] := n;
          head[chid] := x;
        }
        prev[pid] := n;
        next[pid] := n;
        ghost var p1: seq<nat>, n1: seq<nat> := prev[..], next[..];
        assert p1 == SkipPrev(p0, n, x, pid, n) && n1 == n0[pid := n];
        assert head[..] == h0[chid := x];
        assert tail[..] == (if x == n then t0[chid := n] else t0);
        qs := qs[chid := qs[chid][1..]];
      }
    }
  }

  lemma RequeueNew(qs: seq<seq<nat>>, chid: nat, pid: nat)
    requires chid < |qs| && NotQueued(qs, pid)
    ensures Requeue(qs[chid], pid) == qs[chid] + [pid]
  {
  }

  /** Dequeuing keeps the backward links right too. */
  lemma DequeueChained(qs: seq<seq<nat>>, prev: seq<nat>, next: seq<nat>, head: seq<nat>, tail: seq<nat>,
                       home: seq<int>,
                       n: nat, chid: nat)
    requires Chained(qs, prev, next, head, tail, home, n) && chid < |qs| && qs[chid] != []
    ensures var h := head[chid];
            && h < n && |prev| == n && |next| == n && (next[h] != n ==> next[h] < n)
            && Chained(qs[chid := qs[chid][1..]], SkipPrev(prev, n, next[h], h, n), next[h := n], head[chid := next[h]],
                       if next[h] == n then tail[chid := n] else tail, home, n)
  {
    DequeueFacts(qs, prev, next, head, tail, home, n, chid);
    RemoveChained(qs, prev, next, head, tail, home, n, chid, 0);
    ChainedFacts(qs, prev, next, head, tail, home, n, chid);
    RemoveEnds(qs[chid], head, tail, n, chid, 0);
    hide Chained, Links;
    assert Cut(qs[chid], 0) == qs[chid][1..];
  }

  lemma UpdateSame<T>(s: seq<T>, i: nat)
    requires i < |s|
    ensures s[i := s[i]] == s
  {
  }

  function JoinNext(next: seq<nat>, t: nat, pid: nat, n: nat): (r: seq<nat>)
    requires pid < |next| && (t != n ==> t < |next|)
  {
    (if t == n then next else next[t := pid])[pid := n]
  }

  function SkipPrev(prev: seq<nat>, p: nat, x: nat, pid: nat, n: nat): (r: seq<nat>)
    requires pid < |prev| && (x != n ==> x < |prev|)
  {
    (if x == n then prev else prev[x := p])[pid := n]
  }

  function SkipNext(next: seq<nat>, p: nat, x: nat, pid: nat, n: nat): (r: seq<nat>)
    requires pid < |next| && (p != n ==> p < |next|)
  {
    (if p == n then next else next[p := x])[pid := n]
  }

  lemma EnqueueChained(qs: seq<seq<nat>>, prev: seq<nat>, next: seq<nat>, head: seq<nat>, tail: seq<nat>,
                       home: seq<int>,
                       n: nat, chid: nat, pid: nat)
    requires Chained(qs, prev, next, head, tail, home, n) && chid < |qs| && pid < n && NotQueued(qs, pid)
    ensures var t := tail[chid];
            && (t != n ==> t < n)
            && Chained(qs[chid := qs[chid] + [pid]], prev[pid := t], JoinNext(next, t, pid, n),
                       if t == n then head[chid := pid] else head, tail[chid := pid], home[pid := chid], n)
  {
    ChainedFacts(qs, prev, next, head, tail, home, n, chid);
    var q, t := qs[chid], tail[chid];
    assert forall i :: 0 <= i < |q| ==> q[i] != pid;
    hide Chained, Links, NotQueued;
    LinksAppend(q, prev, next, n, pid);
    LastIsNone(q, n, prev, next);
    var q', prev', next' := q + [pid], prev[pid := t], JoinNext(next, t, pid, n);
    assert Links(q', prev', next', n) by {
      if q == [] {
        assert q' == [pid];
      }
    }
    assert First(q', n) == if t == n then pid else head[chid];
    ReplaceQueue(qs, prev, next, head, tail, home, n, prev', next', chid, q', pid);
    UpdateSame(head, chid);
  }

  lemma ChainedFacts(qs: seq<seq<nat>>, prev: seq<nat>, next: seq<nat>, head: seq<nat>, tail: seq<nat>, home: seq<int>,
                     n: nat, chid: nat)
    requires Chained(qs, prev, next, head, tail, home, n) && chid < |qs|
    ensures |prev| == n && |next| == n && |home| == n && |head| == |qs| && |tail| == |qs|
    ensures Links(qs[chid], prev, next, n)
    ensures head[chid] == First(qs[chid], n) && tail[chid] == Last(qs[chid], n)
    ensures forall i :: 0 <= i < |qs[chid]| ==> qs[chid][i] < n && home[qs[chid][i]] == chid
  {
  }

  lemma RemoveFacts(qs: seq<seq<nat>>, prev: seq<nat>, next: seq<nat>, head: seq<nat>, tail: seq<nat>, home: seq<int>,
                    n: nat, chid: nat, k: nat)
    requires Chained(qs, prev, next, head, tail, home, n) && chid < |qs| && k < |qs[chid]|
    ensures var q := qs[chid];
            && q[k] < n && prev[q[k]] == Before(q, k, n) && next[q[k]] == After(q, k, n)
            && (k > 0 ==> q[k - 1] < n && q[k - 1] != q[k]) && (k + 1 < |q| ==> q[k + 1] < n && q[k + 1] != q[k])
            && (0 < k < |q| - 1 ==> q[k - 1] != q[k + 1])
            && |prev| == n && |next| == n && |head| == |qs| && |tail| == |qs|
  {
    assert Links(qs[chid], prev, next, n);
  }

  lemma DequeueFacts(qs: seq<seq<nat>>, prev: seq<nat>, next: seq<nat>, head: seq<nat>, tail: seq<nat>, home: seq<int>,
                     n: nat, chid: nat)
    requires Chained(qs, prev, next, head, tail, home, n) && chid < |qs|
    ensures var q := qs[chid];
            && head[chid] == First(q, n) && (First(q, n) == n <==> q == [])
            && |prev| == n && |next| == n && |head| == |qs| && |tail| == |qs|
            && (q != [] ==> q[0] < n && next[q[0]] == After(q, 0, n) && (|q| > 1 ==> q[1] < n && q[1] != q[0]))
  {
    assert Links(qs[chid], prev, next, n);
  }

  lemma SkipLinks(q: seq<nat>, prev: seq<nat>, next: seq<nat>, n: nat, k: nat)
    requires Links(q, prev, next, n) && k < |q|
    ensures var p, x := Before(q, k, n), After(q, k, n);
            q[k] < n && (p != n ==> p < n) && (x != n ==> x < n)
            && Links(Cut(q, k), SkipPrev(prev, p, x, q[k], n), SkipNext(next, p, x, q[k], n), n)
  {
    var p, x := Before(q, k, n), After(q, k, n);
    var prev', next' := SkipPrev(prev, p, x, q[k], n), SkipNext(next, p, x, q[k], n);
    assert Bridged(q, prev, next, prev', next', n, k);
    hide Bridged;
    LinksCut(q, prev, next, prev', next', n, k);
  }

  lemma CutEnds(q: seq<nat>, n: nat, k: nat)
    requires k < |q| && forall i :: 0 <= i < |q| ==> q[i] < n
    ensures First(Cut(q, k), n) == if Before(q, k, n) == n then After(q, k, n) else First(q, n)
    ensures Last(Cut(q, k), n) == if After(q, k, n) == n then Before(q, k, n) else Last(q, n)
  {
    var r := Cut(q, k);
    assert k > 0 ==> q[k - 1] < n;
    assert k + 1 < |q| ==> q[k + 1] < n;
  }

  lemma CutHome(q: seq<nat>, home: seq<int>, n: nat, k: nat, chid: nat)
    requires k < |q| && |home| == n && forall i :: 0 <= i < |q| ==> q[i] < n && home[q[i]] == chid
    ensures forall i :: 0 <= i < |Cut(q, k)| ==> Cut(q, k)[i] < n && home[Cut(q, k)[i]] == chid
  {
  }

  lemma RemoveChained(qs: seq<seq<nat>>, prev: seq<nat>, next: seq<nat>, head: seq<nat>, tail: seq<nat>, home: seq<int>,
                      n: nat, chid: nat, k: nat)
    requires Chained(qs, prev, next, head, tail, home, n) && chid < |qs| && k < |qs[chid]|
    ensures var q := qs[chid];
            var p, x := Before(q, k, n), After(q, k, n);
            && |prev| == n && |next| == n && q[k] < n && (p != n ==> p < n) && (x != n ==> x < n)
            && Chained(qs[chid := Cut(q, k)], SkipPrev(prev, p, x, q[k], n), SkipNext(next, p, x, q[k], n),
                       head[chid := First(Cut(q, k), n)], tail[chid := Last(Cut(q, k), n)], home, n)
  {
    var q := qs[chid];
    var p, x := Before(q, k, n), After(q, k, n);
    RemoveFacts(qs, prev, next, head, tail, home, n, chid, k);
    ChainedFacts(qs, prev, next, head, tail, home, n, chid);
    hide Chained, Links, NotQueued;
    SkipLinks(q, prev, next, n, k);
    UpdateSame(home, q[k]);
    var r, prev', next' := Cut(q, k), SkipPrev(prev, p, x, q[k], n), SkipNext(next, p, x, q[k], n);
    assert (p != n ==> home[p] == chid) && (x != n ==> home[x] == chid) && home[q[k]] == chid;
    hide First, Last, Before, After, Cut;
    assert forall y :: 0 <= y < n && home[y] != chid && y != q[k] ==> prev'[y] == prev[y] && next'[y] == next[y];
    hide SkipPrev, SkipNext;
    CutHome(q, home, n, k, chid);
    ReplaceQueue(qs, prev, next, head, tail, home, n, prev', next', chid, r, q[k]);
  }

  lemma RemoveEnds(q: seq<nat>, head: seq<nat>, tail: seq<nat>, n: nat, chid: nat, k: nat)
    requires chid < |head| == |tail| && head[chid] == First(q, n) && tail[chid] == Last(q, n)
    requires k < |q| && forall i :: 0 <= i < |q| ==> q[i] < n
    ensures var p, x := Before(q, k, n), After(q, k, n);
            && head[chid := First(Cut(q, k), n)] == (if p == n then head[chid := x] else head)
            && tail[chid := Last(Cut(q, k), n)] == (if x == n then tail[chid := p] else tail)
  {
    CutEnds(q, n, k);
    hide First, Last, Before, After, Cut;
    UpdateSame(head, chid);
    UpdateSame(tail, chid);
  }

  /** `n` marks exactly the empty queue. */
  lemma LastIsNone(q: seq<nat>, n: nat, prev: seq<nat>, next: seq<nat>)
    requires Links(q, prev, next, n)
    ensures (Last(q, n) == n <==> q == []) && (First(q, n) == n <==> q == [])
    ensures q != [] ==> Last(q, n) < n && First(q, n) < n
    ensures |prev| == n && |next| == n
  {
  }
}
