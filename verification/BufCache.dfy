/** kern/fs/bufcache.c: NBUF buffers on a circular doubly linked list, most recently released
    first.  Buffers are named by their index in bcache.buf; index `n` is bcache.head. */
module BufCache {
  import opened Sequences
  import opened LogMachine
  import L = Log

  datatype Key = Key(dev: int, sector: nat)

  /** struct buf without its links. */
  datatype Buf = Buf(key: Key, busy: bool, valid: bool, dirty: bool, data: Block)

  // ---- The ring ----

  /** Node `i` of the ring, with the head on both sides of `q`. */
  function Node(q: seq<nat>, n: nat, i: int): (b: nat) {
    if 0 <= i < |q| then q[i] else n
  }

  ghost predicate Ring(q: seq<nat>, prev: seq<nat>, next: seq<nat>, n: nat) {
    && |prev| == n + 1 && |next| == n + 1
    && (forall i :: 0 <= i < |q| ==> q[i] < n)
    && Distinct(q)
    && (forall i :: -1 <= i < |q| ==> next[Node(q, n, i)] == Node(q, n, i + 1))
    && (forall i :: 0 <= i <= |q| ==> prev[Node(q, n, i)] == Node(q, n, i - 1))
  }

  lemma NodeDistinct(q: seq<nat>, n: nat, i: int, j: int)
    requires forall a :: 0 <= a < |q| ==> q[a] < n
    requires Distinct(q)
    requires -1 <= i <= |q| && -1 <= j <= |q|
    ensures Node(q, n, i) == Node(q, n, j) <==> i == j || (i in {-1, |q|} && j in {-1, |q|})
  {
  }

  /** b->next->prev = b->prev; b->prev->next = b->next. */
  lemma RingCut(q: seq<nat>, prev: seq<nat>, next: seq<nat>, n: nat, k: nat)
    requires Ring(q, prev, next, n) && k < |q|
    ensures var b := q[k];
            && prev[b] <= n && next[b] <= n
            && Ring(Cut(q, k), prev[next[b] := prev[b]], next[prev[b] := next[b]], n)
  {
    var b, r := q[k], Cut(q, k);
    assert b == Node(q, n, k);
    assert next[b] == Node(q, n, k + 1) && prev[b] == Node(q, n, k - 1);
    var prev', next' := prev[next[b] := prev[b]], next[prev[b] := next[b]];
    forall i | -1 <= i < |r|
      ensures next'[Node(r, n, i)] == Node(r, n, i + 1)
    {
      var j := if i < k then i else i + 1;
      assert Node(r, n, i) == Node(q, n, j);
      NodeDistinct(q, n, j, k - 1);
      assert next[Node(q, n, j)] == Node(q, n, j + 1);
    }
    forall i | 0 <= i <= |r|
      ensures prev'[Node(r, n, i)] == Node(r, n, i - 1)
    {
      var j := if i < k then i else i + 1;
      assert Node(r, n, i) == Node(q, n, j);
      NodeDistinct(q, n, j, k + 1);
      assert prev[Node(q, n, j)] == Node(q, n, j - 1);
    }
  }

  /** b->next = head.next; b->prev = head; head.next->prev = b; head.next = b. */
  lemma RingPush(q: seq<nat>, prev: seq<nat>, next: seq<nat>, n: nat, b: nat)
    requires Ring(q, prev, next, n) && b < n && forall i :: 0 <= i < |q| ==> q[i] != b
    ensures next[n] <= n
    ensures Ring([b] + q, prev[b := n][next[n] := b], next[b := next[n]][n := b], n)
  {
    var r := [b] + q;
    assert n == Node(q, n, -1) && next[n] == Node(q, n, 0);
    var prev', next' := prev[b := n][next[n] := b], next[b := next[n]][n := b];
    forall i | -1 <= i < |r|
      ensures next'[Node(r, n, i)] == Node(r, n, i + 1)
    {
      if i > 0 {
        assert Node(r, n, i) == Node(q, n, i - 1);
        assert next[Node(q, n, i - 1)] == Node(q, n, i);
      }
    }
    forall i | 0 <= i <= |r|
      ensures prev'[Node(r, n, i)] == Node(r, n, i - 1)
    {
      if i > 0 {
        assert Node(r, n, i) == Node(q, n, i - 1);
        NodeDistinct(q, n, i - 1, 0);
        assert prev[Node(q, n, i - 1)] == Node(q, n, i - 2);
      }
    }
  }

  // ---- The cache ----

  const NO_DEV := -1

  /** No two buffers hold the same real sector. */
  ghost predicate OneCopy(bufs: seq<Buf>) {
    forall i, j :: 0 <= i < j < |bufs| && bufs[i].key.dev != NO_DEV ==> bufs[i].key != bufs[j].key
  }

  /** Buffers that have been read and are neither being modified nor pinned mirror the disk. */
  ghost predicate Mirrors(bufs: seq<Buf>, disk: map<Key, Block>) {
    forall i :: 0 <= i < |bufs| && bufs[i].valid && !bufs[i].busy && !bufs[i].dirty ==>
      bufs[i].key in disk && bufs[i].data == disk[bufs[i].key]
  }

  /** A pinned buffer at rest has been read. */
  ghost predicate PinnedValid(bufs: seq<Buf>) {
    forall i :: 0 <= i < |bufs| && !bufs[i].busy && bufs[i].dirty ==> bufs[i].valid
  }

  /** The busy buffers are those somebody has in hand. */
  ghost predicate OwnedBusy(bufs: seq<Buf>, owner: map<nat, nat>) {
    forall b :: 0 <= b < |bufs| ==> (bufs[b].busy <==> b in owner)
  }

  /** A call that returns no buffer sleeps on a buffer of that sector that somebody owns, or finds
      no buffer of the sector and every buffer owned or pinned. */
  ghost predicate NoReturn(bufs: seq<Buf>, key: Key, r: Outcome) {
    match r
    case Got(_) => true
    case MustSleep(b) => b < |bufs| && bufs[b].key == key && bufs[b].busy
    case NoBuffers => forall i :: 0 <= i < |bufs| ==> bufs[i].key != key && (bufs[i].busy || bufs[i].dirty)
  }

  predicate Eligible(b: Buf) {
    !b.busy && !b.dirty
  }

  /** Most recently released first. */
  ghost predicate ByRelease(q: seq<nat>, stamp: seq<nat>, clock: nat) {
    && (forall i :: 0 <= i < |q| ==> q[i] < |stamp| && stamp[q[i]] < clock)
    && (forall i, j :: 0 <= i < j < |q| ==> stamp[q[i]] > stamp[q[j]])
  }

  lemma RingFacts(q: seq<nat>, prev: seq<nat>, next: seq<nat>, n: nat, i: int)
    requires Ring(q, prev, next, n) && -1 <= i <= |q|
    ensures |prev| == n + 1 && |next| == n + 1 && Node(q, n, i) <= n
    ensures i < |q| ==> next[Node(q, n, i)] == Node(q, n, i + 1)
    ensures i >= 0 ==> prev[Node(q, n, i)] == Node(q, n, i - 1)
    ensures Node(q, n, i) == n <==> i == -1 || i == |q|
  {
  }

  /** A ring of all n buffers contains each of them. */
  lemma Covers(q: seq<nat>, n: nat)
    requires |q| == n && (forall i :: 0 <= i < n ==> q[i] < n) && (forall i, j :: 0 <= i < j < n ==> q[i] != q[j])
    ensures forall b :: 0 <= b < n ==> b in q
  {
    forall b | 0 <= b < n
      ensures b in q
    {
      if b !in q {
        Pigeonhole(q + [b], n);
      }
    }
  }

  /** In release order, everything behind position `i` is busy or dirty: `q[i]` is the oldest. */
  lemma OldestEligible(q: seq<nat>, stamp: seq<nat>, clock: nat, bufs: seq<Buf>, i: nat, n: nat)
    requires |q| == n == |bufs| == |stamp| && i < n && ByRelease(q, stamp, clock)
    requires forall b :: 0 <= b < n ==> b in q
    requires forall j :: i < j < n ==> !Eligible(bufs[q[j]])
    ensures forall e :: 0 <= e < n && Eligible(bufs[e]) ==> stamp[q[i]] <= stamp[e]
  {
    forall e | 0 <= e < n && Eligible(bufs[e])
      ensures stamp[q[i]] <= stamp[e]
    {
      assert e in q;
      var j :| 0 <= j < n && q[j] == e;
    }
  }

  lemma ReleaseOrder(q: seq<nat>, prev: seq<nat>, next: seq<nat>, n: nat, stamp: seq<nat>, clock: nat, k: nat)
    requires Ring(q, prev, next, n) && ByRelease(q, stamp, clock) && k < |q|
    ensures ByRelease([q[k]] + Cut(q, k), stamp[q[k] := clock], clock + 1)
    ensures forall i :: 0 <= i < |Cut(q, k)| ==> Cut(q, k)[i] != q[k]
  {
    var r := [q[k]] + Cut(q, k);
    forall i | 1 <= i < |r|
      ensures r[i] == q[if i - 1 < k then i - 1 else i] && r[i] != q[k]
    {
    }
  }

  lemma ReleaseBufs(bufs: seq<Buf>, disk: map<Key, Block>, owner: map<nat, nat>, b: nat)
    requires OneCopy(bufs) && Mirrors(bufs, disk) && PinnedValid(bufs) && OwnedBusy(bufs, owner) && b < |bufs|
    requires bufs[b].valid && !bufs[b].dirty ==> bufs[b].key in disk && bufs[b].data == disk[bufs[b].key]
    requires bufs[b].dirty ==> bufs[b].valid
    ensures var bufs' := bufs[b := bufs[b].(busy := false)];
            OneCopy(bufs') && Mirrors(bufs', disk) && PinnedValid(bufs') && OwnedBusy(bufs', owner - {b})
  {
  }

  datatype Outcome = Got(b: nat) | MustSleep(b: nat) | NoBuffers

  class Cache {
    const n: nat
    const prev: array<nat>
    const next: array<nat>
    const bufs: array<Buf>
    var disk: map<Key, Block>

    ghost var order: seq<nat>
    ghost var stamp: seq<nat>
    ghost var clock: nat
    /** The thread that has each busy buffer in hand. */
    ghost var owner: map<nat, nat>

    ghost predicate Linked()
      reads this, prev, next
    {
      && prev != next && prev.Length == n + 1 && next.Length == n + 1
      && Ring(order, prev[..], next[..], n)
      && |stamp| == n && ByRelease(order, stamp, clock)
    }

    ghost predicate Valid()
      reads this, prev, next, bufs
    {
      && Linked() && |order| == n && bufs.Length == n
      && OneCopy(bufs[..]) && Mirrors(bufs[..], disk) && PinnedValid(bufs[..])
      && OwnedBusy(bufs[..], owner)
    }

    /** bufcache_init. */
    constructor (nbuf: nat, disk: map<Key, Block>, blank: Block)
      ensures Valid() && n == nbuf && this.disk == disk
      ensures forall i :: 0 <= i < n ==> bufs[i] == Buf(Key(NO_DEV, 0), false, false, false, blank)
    {
      n := nbuf;
      prev := new nat[nbuf + 1](_ => nbuf);
      next := new nat[nbuf + 1](_ => nbuf);
      bufs := new Buf[nbuf](_ => Buf(Key(NO_DEV, 0), false, false, false, blank));
      this.disk := disk;
      order := [];
      stamp := seq(nbuf, i => i);
      clock := nbuf;
      owner := map[];
      new;
      assert Ring(order, prev[..], next[..], n);
      hide Ring;
      var b := 0;
      while b < n
        invariant 0 <= b <= n && clock == n && stamp == seq(n, i => i)
        invariant Ring(order, prev[..], next[..], n)
        invariant |order| == b && forall i :: 0 <= i < b ==> order[i] == b - 1 - i
        invariant this.disk == disk && owner == map[]
        invariant forall i :: 0 <= i < n ==> bufs[i] == Buf(Key(NO_DEV, 0), false, false, false, blank)
      {
        PushFront(b);
        b := b + 1;
      }
    }

    /** The forward scan of bufcache_get: the buffer that holds `key`, or the head. */
    method Lookup(key: Key) returns (b: nat)
      requires Valid()
      ensures b <= n && (b < n ==> bufs[b].key == key)
      ensures b == n ==> forall i :: 0 <= i < n ==> bufs[i].key != key
    {
      ghost var i := 0;
      Covers(order, n);
      RingFacts(order, prev[..], next[..], n, -1);
      b := next[n];
      while b != n
        invariant 0 <= i <= n && b == Node(order, n, i)
        invariant forall j :: 0 <= j < i ==> bufs[order[j]].key != key
        decreases n - i
      {
        if bufs[b].key == key {
          return;
        }
        RingFacts(order, prev[..], next[..], n, i);
        b := next[b];
        i := i + 1;
      }
      forall e | 0 <= e < n
        ensures bufs[e].key != key
      {
        assert e in order;
      }
    }

    /** The backward scan: the least recently released buffer that may be recycled, or the head. */
    method Victim() returns (b: nat)
      requires Valid()
      ensures b <= n && (b < n ==> !bufs[b].busy && !bufs[b].dirty)
      ensures b < n ==> forall e :: 0 <= e < n && !bufs[e].busy && !bufs[e].dirty ==> stamp[b] <= stamp[e]
      ensures b == n ==> forall e :: 0 <= e < n ==> bufs[e].busy || bufs[e].dirty
    {
      ghost var i := n - 1;
      Covers(order, n);
      RingFacts(order, prev[..], next[..], n, n);
      b := prev[n];
      while b != n
        invariant -1 <= i < n && b == Node(order, n, i)
        invariant forall j :: i < j < n ==> !Eligible(bufs[order[j]])
        decreases i
      {
        if Eligible(bufs[b]) {
          OldestEligible(order, stamp, clock, bufs[..], i, n);
          return;
        }
        RingFacts(order, prev[..], next[..], n, i);
        b := prev[b];
        i := i - 1;
      }
      forall e | 0 <= e < n
        ensures !Eligible(bufs[e])
      {
        assert e in order;
      }
    }

    /** bufcache_get up to its return, its thread_sleep or its panic.  A pinned (dirty) buffer
        never changes, a busy one is never handed out, and the buffer recycled on a miss is the
        eligible one that was released longest ago. */
    method Get(key: Key, ghost t: nat) returns (r: Outcome)
      requires Valid() && key.dev != NO_DEV
      modifies bufs, `owner
      ensures Valid() && owner == if r.Got? then old(owner)[r.b := t] else old(owner)
      ensures r.Got? ==> r.b !in old(owner)
      ensures r.Got? ==> r.b < n && !old(bufs[r.b]).busy && bufs[r.b].busy && bufs[r.b].key == key
      ensures r.Got? ==> forall i :: 0 <= i < n && i != r.b ==> bufs[i] == old(bufs[i])
      ensures r.Got? && old(bufs[r.b]).key == key ==> bufs[r.b] == old(bufs[r.b]).(busy := true)
      ensures r.Got? && old(bufs[r.b]).key != key ==>
                && !old(bufs[r.b]).dirty && !bufs[r.b].valid && !bufs[r.b].dirty
                && (forall i :: 0 <= i < n ==> old(bufs[i]).key != key)
                && (forall i :: 0 <= i < n && !old(bufs[i]).busy && !old(bufs[i]).dirty ==> stamp[r.b] <= stamp[i])
      ensures !r.Got? ==> forall i :: 0 <= i < n ==> bufs[i] == old(bufs[i])
      ensures NoReturn(bufs[..], key, r)
    {
      var b := Lookup(key);
      if b != n {
        if bufs[b].busy {
          return MustSleep(b);
        }
        bufs[b] := bufs[b].(busy := true);
        owner := owner[b := t];
        return Got(b);
      }
      b := Victim();
      if b == n {
        return NoBuffers;
      }
      bufs[b] := Buf(key, true, false, false, bufs[b].data);
      owner := owner[b := t];
      return Got(b);
    }

    /** ide_rw on a buffer the caller owns: write it if dirty, read it otherwise. */
    method IdeRw(b: nat)
      requires Valid() && b < n && bufs[b].busy && (bufs[b].dirty || !bufs[b].valid)
      requires bufs[b].key in disk && bufs[b].key.dev != NO_DEV
      modifies this`disk, bufs
      ensures Valid() && bufs[b].valid && !bufs[b].dirty && bufs[b].busy && bufs[b].key == old(bufs[b]).key
      ensures bufs[b].key in disk && bufs[b].data == disk[bufs[b].key]
      ensures old(bufs[b]).dirty ==> bufs[b].data == old(bufs[b]).data && disk == old(disk)[bufs[b].key := bufs[b].data]
      ensures !old(bufs[b]).dirty ==> disk == old(disk)
      ensures forall i :: 0 <= i < n && i != b ==> bufs[i] == old(bufs[i])
    {
      if bufs[b].dirty {
        disk := disk[bufs[b].key := bufs[b].data];
        bufs[b] := bufs[b].(valid := true, dirty := false);
      } else {
        bufs[b] := bufs[b].(valid := true, data := disk[bufs[b].key]);
      }
    }

    /** bufcache_release: the buffer becomes the most recently used one. */
    method Release(b: nat, ghost k: nat, ghost t: nat)
      requires Valid() && b < n && b in owner && owner[b] == t && k < n && order[k] == b
      requires bufs[b].valid && !bufs[b].dirty ==> bufs[b].key in disk && bufs[b].data == disk[bufs[b].key]
      requires bufs[b].dirty ==> bufs[b].valid
      modifies this`order, this`stamp, this`clock, this`owner, prev, next, bufs
      ensures Valid() && order == [b] + Cut(old(order), k) && owner == old(owner) - {b}
      ensures bufs[b] == old(bufs[b]).(busy := false) && stamp == old(stamp)[b := old(clock)] && clock == old(clock) + 1
      ensures forall i :: 0 <= i < n && i != b ==> bufs[i] == old(bufs[i])
    {
      hide Ring, ByRelease, OneCopy, Mirrors, PinnedValid, OwnedBusy;
      ghost var q, before := order, bufs[..];
      ReleaseOrder(q, prev[..], next[..], n, stamp, clock, k);
      ReleaseBufs(before, disk, owner, b);
      Unlink(b, k);
      PushFront(b);
      stamp := stamp[b := clock];
      clock := clock + 1;
      bufs[b] := bufs[b].(busy := false);
      owner := owner - {b};
      assert bufs[..] == before[b := before[b].(busy := false)];
    }

    /** b->next->prev = b->prev; b->prev->next = b->next. */
    method Unlink(b: nat, ghost k: nat)
      requires prev != next && prev.Length == n + 1 && next.Length == n + 1 && Ring(order, prev[..], next[..], n)
      requires k < |order| && order[k] == b < n
      modifies prev, next, `order
      ensures Ring(order, prev[..], next[..], n) && order == Cut(old(order), k)
    {
      ghost var p0: seq<nat>, n0: seq<nat> := prev[..], next[..];
      RingCut(order, p0, n0, n, k);
      RingFacts(order, p0, n0, n, k);
      NodeDistinct(order, n, k, k + 1);
      hide Ring;
      prev[next[b]] := prev[b];
      next[prev[b]] := next[b];
      assert prev[..] == p0[n0[b] := p0[b]] && next[..] == n0[p0[b] := n0[b]];
      order := Cut(order, k);
    }

    /** bufcache_read: a busy buffer with the sector's contents, from the cache if a valid copy is
        there and from the disk otherwise. */
    method Read(key: Key, ghost t: nat) returns (r: Outcome)
      requires Valid() && key.dev != NO_DEV && key in disk
      modifies bufs, this`disk, `owner
      ensures Valid() && disk == old(disk) && owner == if r.Got? then old(owner)[r.b := t] else old(owner)
      ensures r.Got? ==> r.b < n && bufs[r.b].busy && bufs[r.b].valid && bufs[r.b].key == key
      ensures r.Got? ==> r.b !in old(owner) && !old(bufs[r.b]).busy
      ensures r.Got? ==>
                (bufs[r.b].dirty <==> old(bufs[r.b]).key == key && old(bufs[r.b]).valid && old(bufs[r.b]).dirty)
      ensures r.Got? && !bufs[r.b].dirty ==> bufs[r.b].data == disk[key]
      ensures r.Got? && old(bufs[r.b]).key != key ==>
                && !old(bufs[r.b]).dirty && (forall i :: 0 <= i < n ==> old(bufs[i]).key != key)
                && (forall i :: 0 <= i < n && !old(bufs[i]).busy && !old(bufs[i]).dirty ==> stamp[r.b] <= stamp[i])
      ensures r.Got? && old(bufs[r.b]).key == key && old(bufs[r.b]).valid ==> bufs[r.b].data == old(bufs[r.b]).data
      ensures r.Got? && !(old(bufs[r.b]).key == key && old(bufs[r.b]).valid) ==> bufs[r.b].data == disk[key]
      ensures r.Got? ==> forall i :: 0 <= i < n && i != r.b ==> bufs[i] == old(bufs[i])
      ensures !r.Got? ==> forall i :: 0 <= i < n ==> bufs[i] == old(bufs[i])
      ensures NoReturn(bufs[..], key, r)
    {
      hide Ring, ByRelease;
      r := Get(key, t);
      if r.Got? && !bufs[r.b].valid {
        IdeRw(r.b);
      }
    }

    /** bufcache_write: the buffer's contents reach the disk and the buffer is clean. */
    method Write(b: nat)
      requires Valid() && b < n && bufs[b].busy && bufs[b].key in disk && bufs[b].key.dev != NO_DEV
      modifies bufs, this`disk
      ensures Valid() && disk == old(disk)[bufs[b].key := bufs[b].data]
      ensures bufs[b] == old(bufs[b]).(valid := true, dirty := false)
      ensures forall i :: 0 <= i < n && i != b ==> bufs[i] == old(bufs[i])
    {
      hide Ring, ByRelease;
      bufs[b] := bufs[b].(dirty := true);
      IdeRw(b);
    }

    /** The use a caller makes of a buffer in hand. */
    method Apply(b: nat, use: Use)
      requires Valid() && b < n && bufs[b].busy && bufs[b].valid && bufs[b].key in disk && bufs[b].key.dev != NO_DEV
      modifies bufs, this`disk
      ensures Valid() && bufs[..] == old(bufs[..])[b := Used(old(bufs[b]), use)]
      ensures disk == if use.Store? then old(disk)[bufs[b].key := use.data] else old(disk)
    {
      hide Ring, ByRelease;
      ghost var before := bufs[..];
      match use
      case Look =>
      case Store(data) =>
        bufs[b] := bufs[b].(data := data);
        Write(b);
      case Pin(data) =>
        bufs[b] := bufs[b].(data := data, dirty := true);
      assert bufs[..] == before[b := Used(before[b], use)];
    }

    /** Where a buffer stands on the list. */
    lemma Place(b: nat) returns (k: nat)
      requires Valid() && b < n
      ensures k < n && order[k] == b
    {
      Covers(order, n);
      assert b in order;
      k :| 0 <= k < n && order[k] == b;
    }

    /** Insert behind the head. */
    method PushFront(b: nat)
      requires prev != next && prev.Length == n + 1 && next.Length == n + 1 && Ring(order, prev[..], next[..], n)
      requires b < n && forall i :: 0 <= i < |order| ==> order[i] != b
      modifies prev, next, `order
      ensures Ring(order, prev[..], next[..], n) && order == [b] + old(order)
    {
      ghost var p0: seq<nat>, n0: seq<nat> := prev[..], next[..];
      RingPush(order, p0, n0, n, b);
      hide Ring;
      next[b] := next[n];
      prev[b] := n;
      prev[next[n]] := b;
      next[n] := b;
      assert prev[..] == p0[b := n][n0[n] := b] && next[..] == n0[b := n0[n]][n := b];
      order := [b] + order;
    }
  }

  // ---- The abstraction the log uses ----

  /** `cache` lists the valid buffers of device `dev` that nobody has in hand. */
  ghost predicate Represents(bufs: seq<Buf>, dev: int, cache: map<nat, L.Buf>) {
    && (forall i :: 0 <= i < |bufs| && bufs[i].key.dev == dev && bufs[i].valid && !bufs[i].busy ==>
          bufs[i].key.sector in cache && cache[bufs[i].key.sector] == L.Buf(bufs[i].data, bufs[i].dirty))
    && (forall s :: s in cache ==>
          exists i :: 0 <= i < |bufs| && bufs[i].key == Key(dev, s) && bufs[i].valid && !bufs[i].busy)
  }

  /** What is left of the log model's cache when buffer `b` has been found for sector `s`. */
  function Rest(bufs: seq<Buf>, dev: int, cache: map<nat, L.Buf>, b: nat, s: nat): (r: map<nat, L.Buf>)
    requires b < |bufs|
  {
    if bufs[b].key != Key(dev, s) && bufs[b].key.dev == dev then cache - {bufs[b].key.sector} else cache
  }

  /** Buffer `b` of sector `s`, not in use by anybody, is the log model's view of it. */
  lemma FoundInCache(bufs: seq<Buf>, dev: int, cache: map<nat, L.Buf>, b: nat, s: nat)
    requires OneCopy(bufs) && dev != NO_DEV && Represents(bufs, dev, cache) && b < |bufs| && !bufs[b].busy
    requires bufs[b].key == Key(dev, s) || forall i :: 0 <= i < |bufs| ==> bufs[i].key != Key(dev, s)
    ensures s in cache <==> bufs[b].key == Key(dev, s) && bufs[b].valid
    ensures s in cache ==> cache[s] == L.Buf(bufs[b].data, bufs[b].dirty)
  {
    if s in cache {
      var i :| 0 <= i < |bufs| && bufs[i].key == Key(dev, s) && bufs[i].valid && !bufs[i].busy;
      assert i == b;
    }
  }

  /** A clean buffer may be taken for another sector. */
  lemma RestRecycles(bufs: seq<Buf>, dev: int, cache: map<nat, L.Buf>, b: nat, s: nat)
    requires OneCopy(bufs) && dev != NO_DEV && Represents(bufs, dev, cache) && b < |bufs| && !bufs[b].busy
    requires bufs[b].key == Key(dev, s) || !bufs[b].dirty
    ensures L.Recycles(cache, Rest(bufs, dev, cache, b, s))
  {
    forall u | u in cache && cache[u].dirty
      ensures u in Rest(bufs, dev, cache, b, s)
    {
      var i :| 0 <= i < |bufs| && bufs[i].key == Key(dev, u) && bufs[i].valid && !bufs[i].busy;
    }
  }

  /** A buffer taken, used and put back: the log model sees the new contents. */
  lemma UseRepresents(bufs: seq<Buf>, dev: int, cache: map<nat, L.Buf>, b: nat, s: nat, x: Buf)
    requires OneCopy(bufs) && dev != NO_DEV && Represents(bufs, dev, cache) && b < |bufs| && !bufs[b].busy
    requires bufs[b].key == Key(dev, s) || forall i :: 0 <= i < |bufs| ==> bufs[i].key != Key(dev, s)
    requires x.key == Key(dev, s) && x.valid && !x.busy
    ensures Represents(bufs[b := x], dev, Rest(bufs, dev, cache, b, s)[s := L.Buf(x.data, x.dirty)])
  {
    var rest, bufs' := Rest(bufs, dev, cache, b, s), bufs[b := x];
    var cache' := rest[s := L.Buf(x.data, x.dirty)];
    forall u | u in cache'
      ensures exists i :: 0 <= i < |bufs'| && bufs'[i].key == Key(dev, u) && bufs'[i].valid && !bufs'[i].busy
    {
      if u == s {
        assert bufs'[b].key == Key(dev, u);
      } else {
        var i :| 0 <= i < |bufs| && bufs[i].key == Key(dev, u) && bufs[i].valid && !bufs[i].busy;
        assert bufs'[i] == bufs[i];
      }
    }
  }

  /** What a caller does with a buffer: look at it, write it through, or change it and pin it. */
  datatype Use = Look | Store(data: Block) | Pin(data: Block)

  function Used(x: Buf, use: Use): Buf {
    match use
    case Look => x
    case Store(data) => x.(data := data, dirty := false)
    case Pin(data) => x.(data := data, dirty := true)
  }

  /** bufcache_read, the use and bufcache_release by thread `t` do to the buffers what `Log` does to its
      cache and its disk, with the recycling it leaves open. */
  method UseSector(c: Cache, dev: int, s: nat, use: Use, ghost t: nat, ghost cache: map<nat, L.Buf>)
      returns (r: Outcome, b: Block, ghost rest: map<nat, L.Buf>)
    requires c.Valid() && dev != NO_DEV && Key(dev, s) in c.disk && Represents(c.bufs[..], dev, cache)
    modifies c, c.bufs, c.prev, c.next
    ensures c.Valid() && c.owner == old(c.owner)
    ensures r.Got? ==> b == if s in cache then cache[s].data else old(c.disk)[Key(dev, s)]
    ensures r.Got? ==> L.Recycles(cache, rest) && (s in cache ==> rest == cache)
    ensures r.Got? ==>
              Represents(c.bufs[..], dev, rest[s := match use
                                                    case Look => L.Buf(b, s in cache && cache[s].dirty)
                                                    case Store(data) => L.Buf(data, false)
                                                    case Pin(data) => L.Buf(data, true)])
    ensures c.disk == if r.Got? && use.Store? then old(c.disk)[Key(dev, s) := use.data] else old(c.disk)
    ensures !r.Got? ==> c.bufs[..] == old(c.bufs[..]) && NoReturn(c.bufs[..], Key(dev, s), r)
  {
    hide Ring, ByRelease, Represents, OneCopy, Mirrors, PinnedValid, NoReturn;
    rest := cache;
    ghost var before := c.bufs[..];
    r := c.Read(Key(dev, s), t);
    if !r.Got? {
      b := seq(BSIZE, _ => 0);
      assert c.bufs[..] == before;
      return;
    }
    b := c.bufs[r.b].data;
    ghost var x := Used(c.bufs[r.b], use).(busy := false);
    FoundInCache(before, dev, cache, r.b, s);
    RestRecycles(before, dev, cache, r.b, s);
    UseRepresents(before, dev, cache, r.b, s, x);
    rest := Rest(before, dev, cache, r.b, s);
    c.Apply(r.b, use);
    ghost var k := c.Place(r.b);
    c.Release(r.b, k, t);
    assert c.bufs[..] == before[r.b := x];
  }

  // ---- Two buffers in hand ----

  /** The log model's cache with the sector a buffer held left out. */
  function Without(cache: map<nat, L.Buf>, dev: int, key: Key): map<nat, L.Buf> {
    if key.dev == dev then cache - {key.sector} else cache
  }

  /** A buffer in hand is out of the log model's sight. */
  lemma TakeOut(bufs: seq<Buf>, dev: int, cache: map<nat, L.Buf>, b: nat, x: Buf)
    requires OneCopy(bufs) && dev != NO_DEV && Represents(bufs, dev, cache) && b < |bufs| && x.busy && !bufs[b].busy
    ensures Represents(bufs[b := x], dev, Without(cache, dev, bufs[b].key))
  {
    var cache', bufs' := Without(cache, dev, bufs[b].key), bufs[b := x];
    forall s | s in cache'
      ensures exists i :: 0 <= i < |bufs'| && bufs'[i].key == Key(dev, s) && bufs'[i].valid && !bufs'[i].busy
    {
      var i :| 0 <= i < |bufs| && bufs[i].key == Key(dev, s) && bufs[i].valid && !bufs[i].busy;
      assert bufs'[i] == bufs[i];
    }
  }

  /** What its owner does to it there does not show. */
  lemma InHand(bufs: seq<Buf>, dev: int, cache: map<nat, L.Buf>, b: nat, x: Buf)
    requires Represents(bufs, dev, cache) && b < |bufs| && bufs[b].busy && x.busy
    ensures Represents(bufs[b := x], dev, cache)
  {
    var bufs' := bufs[b := x];
    forall s | s in cache
      ensures exists i :: 0 <= i < |bufs'| && bufs'[i].key == Key(dev, s) && bufs'[i].valid && !bufs'[i].busy
    {
      var i :| 0 <= i < |bufs| && bufs[i].key == Key(dev, s) && bufs[i].valid && !bufs[i].busy;
      assert bufs'[i] == bufs[i];
    }
  }

  /** Put back, it is the log model's view of its sector. */
  lemma PutBack(bufs: seq<Buf>, dev: int, cache: map<nat, L.Buf>, b: nat)
    requires OneCopy(bufs) && dev != NO_DEV && Represents(bufs, dev, cache) && b < |bufs|
    requires bufs[b].busy && bufs[b].valid && bufs[b].key.dev == dev
    ensures Represents(bufs[b := bufs[b].(busy := false)], dev,
                       cache[bufs[b].key.sector := L.Buf(bufs[b].data, bufs[b].dirty)])
  {
    var bufs' := bufs[b := bufs[b].(busy := false)];
    var cache' := cache[bufs[b].key.sector := L.Buf(bufs[b].data, bufs[b].dirty)];
    forall s | s in cache'
      ensures exists i :: 0 <= i < |bufs'| && bufs'[i].key == Key(dev, s) && bufs'[i].valid && !bufs'[i].busy
    {
      if s == bufs[b].key.sector {
        assert bufs'[b].key == Key(dev, s);
      } else {
        var i :| 0 <= i < |bufs| && bufs[i].key == Key(dev, s) && bufs[i].valid && !bufs[i].busy;
        assert bufs'[i] == bufs[i];
      }
    }
  }

  /** Clean sectors other than those in `hands` may have gone, nothing else about them changed. */
  ghost predicate Otherwise(cache: map<nat, L.Buf>, cache': map<nat, L.Buf>, hands: set<nat>) {
    && (forall u :: u in cache' && u !in hands ==> u in cache && cache'[u] == cache[u])
    && (forall u :: u in cache && u !in hands && cache[u].dirty ==> u in cache')
  }

  /** bufcache_read into the hand, as the log model sees it: the sector, and perhaps a clean one
      recycled for it, leave its cache. */
  method Take(c: Cache, dev: int, s: nat, ghost t: nat, ghost cache: map<nat, L.Buf>)
      returns (r: Outcome, ghost cache': map<nat, L.Buf>)
    requires c.Valid() && dev != NO_DEV && Key(dev, s) in c.disk && Represents(c.bufs[..], dev, cache)
    modifies c, c.bufs
    ensures c.Valid() && c.disk == old(c.disk) && c.bufs.Length == c.n
    ensures unchanged(c`order) && unchanged(c`stamp) && unchanged(c`clock)
    ensures !r.Got? ==> c.bufs[..] == old(c.bufs[..]) && c.owner == old(c.owner) && cache' == cache
    ensures NoReturn(c.bufs[..], Key(dev, s), r)
    ensures r.Got? ==>
              && r.b < c.n && r.b !in old(c.owner) && c.owner == old(c.owner)[r.b := t]
              && c.bufs[..] == old(c.bufs[..])[r.b := c.bufs[r.b]]
              && var x := c.bufs[r.b];
              && x.busy && x.valid && x.key == Key(dev, s) && x.dirty == (s in cache && cache[s].dirty)
              && x.data == (if s in cache then cache[s].data else c.disk[Key(dev, s)])
              && (!x.dirty ==> x.data == c.disk[Key(dev, s)])
              && Represents(c.bufs[..], dev, cache') && s !in cache' && Otherwise(cache, cache', {s})
  {
    hide Ring, ByRelease, Represents, OneCopy, Mirrors, PinnedValid, NoReturn;
    cache' := cache;
    ghost var before := c.bufs[..];
    r := c.Read(Key(dev, s), t);
    if !r.Got? {
      assert c.bufs[..] == before;
      return;
    }
    assert c.bufs[..] == before[r.b := c.bufs[r.b]];
    FoundInCache(before, dev, cache, r.b, s);
    RestRecycles(before, dev, cache, r.b, s);
    TakeOut(before, dev, cache, r.b, c.bufs[r.b]);
    cache' := Without(cache, dev, before[r.b].key);
  }

  /** bufcache_release of a buffer that mirrors the disk or is pinned. */
  method Give(c: Cache, dev: int, b: nat, ghost t: nat, ghost cache: map<nat, L.Buf>)
    requires c.Valid() && dev != NO_DEV && Represents(c.bufs[..], dev, cache)
    requires b < c.n && b in c.owner && c.owner[b] == t && c.bufs[b].valid && c.bufs[b].key.dev == dev
    requires !c.bufs[b].dirty ==> c.bufs[b].key in c.disk && c.bufs[b].data == c.disk[c.bufs[b].key]
    modifies c, c.bufs, c.prev, c.next
    ensures c.Valid() && c.disk == old(c.disk) && c.owner == old(c.owner) - {b}
    ensures c.bufs[..] == old(c.bufs[..])[b := old(c.bufs[b]).(busy := false)]
    ensures var x := old(c.bufs[b]);
            Represents(c.bufs[..], dev, cache[x.key.sector := L.Buf(x.data, x.dirty)])
  {
    hide Ring, ByRelease, Represents, OneCopy, Mirrors, PinnedValid;
    ghost var before := c.bufs[..];
    PutBack(before, dev, cache, b);
    ghost var k := c.Place(b);
    c.Release(b, k, t);
    assert c.bufs[..] == before[b := before[b].(busy := false)];
  }

  lemma CopyAt(bufs: seq<Buf>, i: nat, j: nat)
    requires OneCopy(bufs) && i < |bufs| && j < |bufs| && i != j && bufs[i].key.dev != NO_DEV
    ensures bufs[i].key != bufs[j].key
  {
  }

  /** One turn of install_trans on the buffers: both sectors in hand, the block copied, written home
      and both released.  A sector copied to itself would sleep on its own buffer. */
  method CopyBlock(c: Cache, dev: int, src: nat, dst: nat, ghost t: nat, ghost cache: map<nat, L.Buf>)
      returns (r: Outcome, ghost cache': map<nat, L.Buf>)
    requires c.Valid() && dev != NO_DEV && Represents(c.bufs[..], dev, cache)
    requires Key(dev, src) in c.disk && Key(dev, dst) in c.disk
    modifies c, c.bufs, c.prev, c.next
    ensures c.Valid() && (src == dst ==> !r.Got?)
    ensures r.Got? ==>
              var b := if src in cache then cache[src].data else old(c.disk)[Key(dev, src)];
              && c.disk == old(c.disk)[Key(dev, dst) := b] && c.owner == old(c.owner)
              && Represents(c.bufs[..], dev, cache') && Otherwise(cache, cache', {src, dst})
              && src in cache' && cache'[src] == L.Buf(b, src in cache && cache[src].dirty)
              && dst in cache' && cache'[dst] == L.Buf(b, false)
    ensures !r.Got? ==> c.disk == old(c.disk) && Represents(c.bufs[..], dev, cache') && Otherwise(cache, cache', {src})
    ensures !r.Got? ==>
              || (c.bufs[..] == old(c.bufs[..]) && c.owner == old(c.owner) && NoReturn(c.bufs[..], Key(dev, src), r))
              || (exists b: nat :: b < c.n && b !in old(c.owner) && c.owner == old(c.owner)[b := t]
                                   && c.bufs[b].key == Key(dev, src) && NoReturn(c.bufs[..], Key(dev, dst), r))
  {
    hide Ring, ByRelease, Represents, OneCopy, Mirrors, PinnedValid, NoReturn;
    cache' := cache;
    var lbuf, dbuf;
    ghost var cache1, cache2;
    ghost var owner0 := c.owner;
    lbuf, cache1 := Take(c, dev, src, t, cache);
    r := lbuf;
    if !lbuf.Got? {
      return;
    }
    dbuf, cache2 := Take(c, dev, dst, t, cache1);
    r := dbuf;
    if !dbuf.Got? {
      cache' := cache1;
      return;
    }
    CopyAt(c.bufs[..], lbuf.b, dbuf.b);
    assert dbuf.b != lbuf.b && c.owner - {lbuf.b} - {dbuf.b} == owner0;
    hide Otherwise;
    cache' := CopyHeld(c, dev, lbuf.b, dbuf.b, t, cache2);
    OtherwiseBoth(cache, cache1, cache2, cache', src, dst);
  }

  /** The same with both buffers in hand. */
  method CopyHeld(c: Cache, dev: int, l: nat, d: nat, ghost t: nat, ghost cache: map<nat, L.Buf>)
      returns (ghost cache': map<nat, L.Buf>)
    requires c.Valid() && dev != NO_DEV && Represents(c.bufs[..], dev, cache) && l < c.n && d < c.n && l != d
    requires l in c.owner && c.owner[l] == t && c.bufs[l].valid && c.bufs[l].key.dev == dev && c.bufs[l].key in c.disk
    requires d in c.owner && c.owner[d] == t && c.bufs[d].valid && c.bufs[d].key.dev == dev && c.bufs[d].key in c.disk
    requires !c.bufs[l].dirty ==> c.bufs[l].data == c.disk[c.bufs[l].key]
    requires c.bufs[l].key != c.bufs[d].key
    modifies c, c.bufs, c.prev, c.next
    ensures c.Valid() && c.owner == old(c.owner) - {l} - {d}
    ensures var x, y := old(c.bufs[l]), old(c.bufs[d]);
            && c.disk == old(c.disk)[y.key := x.data] && Represents(c.bufs[..], dev, cache')
            && cache' == cache[x.key.sector := L.Buf(x.data, x.dirty)][y.key.sector := L.Buf(x.data, false)]
  {
    hide Ring, ByRelease, Represents, OneCopy, Mirrors, PinnedValid;
    var data := c.bufs[l].data;
    ghost var x, y := c.bufs[l], c.bufs[d];
    StoreInHand(c, dev, d, data, cache);
    assert c.bufs[l] == x && c.bufs[d] == y.(data := data, dirty := false);
    Give(c, dev, l, t, cache);
    assert c.bufs[d] == y.(data := data, dirty := false);
    ghost var cache1 := cache[x.key.sector := L.Buf(x.data, x.dirty)];
    Give(c, dev, d, t, cache1);
    cache' := cache1[y.key.sector := L.Buf(x.data, false)];
  }

  /** memmove into a buffer in hand and bufcache_write. */
  method StoreInHand(c: Cache, dev: int, b: nat, data: Block, ghost cache: map<nat, L.Buf>)
    requires c.Valid() && dev != NO_DEV && Represents(c.bufs[..], dev, cache)
    requires b < c.n && c.bufs[b].busy && c.bufs[b].valid && c.bufs[b].key.dev == dev && c.bufs[b].key in c.disk
    modifies c.bufs, c`disk
    ensures c.Valid() && c.disk == old(c.disk)[old(c.bufs[b]).key := data]
    ensures c.bufs[..] == old(c.bufs[..])[b := old(c.bufs[b]).(data := data, dirty := false)]
    ensures Represents(c.bufs[..], dev, cache)
  {
    hide Ring, ByRelease, Represents, OneCopy, Mirrors, PinnedValid;
    ghost var before := c.bufs[..];
    InHand(before, dev, cache, b, before[b].(data := data, dirty := false));
    c.Apply(b, Store(data));
  }

  lemma OtherwiseBoth(cache: map<nat, L.Buf>, cache1: map<nat, L.Buf>, cache2: map<nat, L.Buf>, cache3: map<nat, L.Buf>,
                      s: nat, u: nat)
    requires Otherwise(cache, cache1, {s}) && Otherwise(cache1, cache2, {u})
    requires forall v :: v != s && v != u ==> (v in cache3 <==> v in cache2) && (v in cache3 ==> cache3[v] == cache2[v])
    ensures Otherwise(cache, cache3, {s, u})
  {
  }

  /** The buffers of log_write: the caller has the home sector's buffer in hand, its block goes to the log
      slot, and the caller's buffer is pinned. */
  method LogBlock(c: Cache, dev: int, slot: nat, b: nat, ghost t: nat, ghost cache: map<nat, L.Buf>)
      returns (r: Outcome, ghost cache': map<nat, L.Buf>)
    requires c.Valid() && dev != NO_DEV && Represents(c.bufs[..], dev, cache) && Key(dev, slot) in c.disk
    requires b < c.n && b in c.owner && c.owner[b] == t && c.bufs[b].valid && c.bufs[b].key.dev == dev
    requires c.bufs[b].key in c.disk
    modifies c, c.bufs, c.prev, c.next
    ensures c.Valid() && c.owner == old(c.owner) && (old(c.bufs[b]).key.sector == slot ==> !r.Got?)
    ensures r.Got? ==>
              && c.bufs[b] == old(c.bufs[b]).(dirty := true) && c.disk == old(c.disk)[Key(dev, slot) := c.bufs[b].data]
              && Represents(c.bufs[..], dev, cache') && Otherwise(cache, cache', {slot})
              && slot in cache' && cache'[slot] == L.Buf(c.bufs[b].data, false)
    ensures !r.Got? ==>
              c.disk == old(c.disk) && c.bufs[..] == old(c.bufs[..]) && NoReturn(c.bufs[..], Key(dev, slot), r)
  {
    hide Ring, ByRelease, Represents, OneCopy, Mirrors, PinnedValid, NoReturn;
    cache' := cache;
    ghost var cache1;
    r, cache1 := Take(c, dev, slot, t, cache);
    if !r.Got? {
      return;
    }
    assert c.bufs[b] == old(c.bufs[b]);
    CopyAt(c.bufs[..], b, r.b);
    var data := c.bufs[b].data;
    StoreInHand(c, dev, r.b, data, cache1);
    Give(c, dev, r.b, t, cache1);
    cache' := cache1[slot := L.Buf(data, false)];
    ghost var before := c.bufs[..];
    InHand(before, dev, cache', b, before[b].(data := data, dirty := true));
    c.Apply(b, Pin(data));
  }
}
